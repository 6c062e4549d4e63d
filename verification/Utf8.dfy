/** UTF-8 as section 4 of RFC 3629 defines it, and the alignment of a page cut out of it. */
module Utf8 {

  type Byte = b: int | 0 <= b < 256 witness 0
  type Bytes = seq<Byte>

  const NEWLINE: Byte := 10

  predicate IsContinuation(b: Byte) {
    0x80 <= b < 0xC0
  }

  /** How many bytes a lead byte announces, as the page code reads it: garbage counts as one. */
  function LeadLength(b: Byte): nat {
    if 0xC0 <= b < 0xE0 then 2
    else if 0xE0 <= b < 0xF0 then 3
    else if 0xF0 <= b < 0xF8 then 4
    else 1
  }

  /** What the second byte of a character may be after this lead byte. */
  predicate IsSecond(lead: Byte, b: Byte) {
    && IsContinuation(b)
    && (lead == 0xE0 ==> 0xA0 <= b)
    && (lead == 0xED ==> b < 0xA0)
    && (lead == 0xF0 ==> 0x90 <= b)
    && (lead == 0xF4 ==> b < 0x90)
  }

  /** The length of the character at `i`, 0 when there is none. */
  function CharLength(s: Bytes, i: nat): (n: nat)
    requires i <= |s|
    ensures n > 0 ==> i + n <= |s| && n == LeadLength(s[i]) <= 4 && !IsContinuation(s[i])
    ensures n > 1 ==> IsContinuation(s[i + 1])
    ensures n > 2 ==> IsContinuation(s[i + 2])
    ensures n > 3 ==> IsContinuation(s[i + 3])
  {
    if i == |s| then 0
    else if s[i] < 0x80 then 1
    else if s[i] < 0xC2 || s[i] > 0xF4 then 0
    else
      var n := LeadLength(s[i]);
      if && i + n <= |s| && IsSecond(s[i], s[i + 1])
         && (n > 2 ==> IsContinuation(s[i + 2])) && (n > 3 ==> IsContinuation(s[i + 3])) then n else 0
  }

  /** Well-formed from `i` on. */
  predicate IsUtf8From(s: Bytes, i: nat)
    requires i <= |s|
    decreases |s| - i
  {
    i == |s| || (CharLength(s, i) > 0 && IsUtf8From(s, i + CharLength(s, i)))
  }

  predicate IsUtf8(s: Bytes) {
    IsUtf8From(s, 0)
  }

  /** Unicode's scalar values: every code point but the surrogates. */
  predicate IsScalar(c: nat) {
    c < 0xD800 || 0xE000 <= c < 0x11_0000
  }

  /** A character's bytes, by the table in section 3 of RFC 3629. */
  function Encode(c: nat): Bytes
    requires IsScalar(c)
  {
    if c < 0x80 then [c]
    else if c < 0x800 then [0xC0 + c / 64, 0x80 + c % 64]
    else if c < 0x1_0000 then [0xE0 + c / 4096, 0x80 + c / 64 % 64, 0x80 + c % 64]
    else [0xF0 + c / 262144, 0x80 + c / 4096 % 64, 0x80 + c / 64 % 64, 0x80 + c % 64]
  }

  lemma EncodedShape(c: nat)
    requires IsScalar(c)
    ensures var e := Encode(c);
      && 1 <= |e| <= 4 && e[0] <= 0xF4 && (|e| == 1 <==> e[0] < 0x80)
      && (|e| > 1 ==> 0xC2 <= e[0] && |e| == LeadLength(e[0]) && IsSecond(e[0], e[1]))
      && (|e| > 2 ==> IsContinuation(e[2])) && (|e| > 3 ==> IsContinuation(e[3]))
  {
  }

  /** At every place there is a character exactly when the bytes there are some scalar value's. */
  lemma EncodedIsRead(s: Bytes, i: nat, c: nat)
    requires i <= |s| && IsScalar(c) && Encode(c) <= s[i..]
    ensures CharLength(s, i) == |Encode(c)|
  {
    EncodedShape(c);
    hide Encode;
    var e := Encode(c);
    assert forall k :: 0 <= k < |e| ==> s[i + k] == s[i..][k] == e[k];
  }

  lemma ReadIsEncoded(s: Bytes, i: nat) returns (c: nat)
    requires i <= |s| && CharLength(s, i) > 0
    ensures IsScalar(c) && Encode(c) == s[i..i + CharLength(s, i)]
  {
    var n := CharLength(s, i);
    var bytes := s[i..i + n];
    assert forall k :: 0 <= k < n ==> bytes[k] == s[i + k];
    if n == 1 {
      c := bytes[0];
    } else if n == 2 {
      c := Two(bytes);
    } else if n == 3 {
      c := Three(bytes);
    } else {
      c := Four(bytes);
    }
  }

  lemma Two(s: Bytes) returns (c: nat)
    requires |s| == 2 && 0xC2 <= s[0] < 0xE0 && IsContinuation(s[1])
    ensures IsScalar(c) && Encode(c) == s
  {
    var a: int, b: int := s[0] - 0xC0, s[1] - 0x80;
    c := a * 64 + b;
  }

  lemma Three(s: Bytes) returns (c: nat)
    requires |s| == 3 && 0xE0 <= s[0] < 0xF0 && IsSecond(s[0], s[1]) && IsContinuation(s[2])
    ensures IsScalar(c) && Encode(c) == s
  {
    var x: int, y: int, z: int := s[0] - 0xE0, s[1] - 0x80, s[2] - 0x80;
    c := x * 4096 + y * 64 + z;
    assert c / 64 == x * 64 + y && c % 64 == z && c / 4096 == x && (x * 64 + y) % 64 == y;
  }

  lemma Four(s: Bytes) returns (c: nat)
    requires |s| == 4 && 0xF0 <= s[0] <= 0xF4 && IsSecond(s[0], s[1]) && IsContinuation(s[2]) && IsContinuation(s[3])
    ensures IsScalar(c) && Encode(c) == s
  {
    var w: int, x: int, y: int, z: int := s[0] - 0xF0, s[1] - 0x80, s[2] - 0x80, s[3] - 0x80;
    c := w * 262144 + x * 4096 + y * 64 + z;
    assert c / 64 == w * 4096 + x * 64 + y && c % 64 == z && (w * 4096 + x * 64 + y) % 64 == y;
    assert c / 4096 == w * 64 + x && (w * 64 + x) % 64 == x && c / 262144 == w;
  }

  function EncodeAll(text: seq<nat>): Bytes
    requires forall c :: c in text ==> IsScalar(c)
  {
    if text == [] then [] else Encode(text[0]) + EncodeAll(text[1..])
  }

  /** Well-formed is what some text encodes to: nothing less. */
  lemma {:induction false} EncodedIsUtf8(text: seq<nat>, s: Bytes, i: nat)
    requires forall c :: c in text ==> IsScalar(c)
    requires i <= |s| && s[i..] == EncodeAll(text)
    ensures IsUtf8From(s, i)
    decreases |text|
  {
    if text != [] {
      var n := |Encode(text[0])|;
      EncodedIsRead(s, i, text[0]);
      assert s[i + n..] == s[i..][n..] == EncodeAll(text[1..]);
      EncodedIsUtf8(text[1..], s, i + n);
    }
  }

  /** And nothing more. */
  lemma {:induction false} Utf8IsEncoded(s: Bytes, i: nat) returns (text: seq<nat>)
    requires i <= |s| && IsUtf8From(s, i)
    ensures forall c :: c in text ==> IsScalar(c)
    ensures s[i..] == EncodeAll(text)
    decreases |s| - i
  {
    if i == |s| {
      text := [];
    } else {
      var n := CharLength(s, i);
      var c := ReadIsEncoded(s, i);
      var rest := Utf8IsEncoded(s, i + n);
      hide Encode, CharLength, IsUtf8From;
      text := [c] + rest;
      assert text[1..] == rest;
      assert s[i..] == s[i..i + n] + s[i + n..];
    }
  }

  /** `str::is_char_boundary`. */
  predicate IsBoundary(s: Bytes, i: nat)
    requires i <= |s|
  {
    i == |s| || !IsContinuation(s[i])
  }

  lemma {:induction false} WholeFromBoundary(s: Bytes, i: nat, j: nat)
    requires i <= j <= |s| && IsUtf8From(s, i) && IsBoundary(s, j)
    ensures IsUtf8From(s, j)
    decreases j - i
  {
    if i < j {
      WholeFromBoundary(s, i + CharLength(s, i), j);
    }
  }

  /** The character at a boundary ends at the next one, and has only continuations inside. */
  lemma CharacterAt(s: Bytes, i: nat)
    requires IsUtf8(s) && i < |s| && IsBoundary(s, i)
    ensures var n := LeadLength(s[i]);
      && n == CharLength(s, i) && i + n <= |s| && IsBoundary(s, i + n)
      && forall j :: i < j < i + n ==> IsContinuation(s[j])
  {
    WholeFromBoundary(s, 0, i);
    assert IsUtf8From(s, i + CharLength(s, i));
  }

  lemma TextStartsAtABoundary(s: Bytes)
    requires IsUtf8(s)
    ensures IsBoundary(s, 0)
  {
  }

  /** The text between two boundaries is well-formed on its own. */
  lemma SliceIsUtf8(s: Bytes, from: nat, end: nat)
    requires IsUtf8(s) && from <= end <= |s| && IsBoundary(s, from) && IsBoundary(s, end)
    ensures IsUtf8(s[from..end])
  {
    SliceIsUtf8From(s, from, end, from);
  }

  lemma {:induction false} SliceIsUtf8From(s: Bytes, from: nat, end: nat, i: nat)
    requires IsUtf8(s) && from <= i <= end <= |s| && IsBoundary(s, i) && IsBoundary(s, end)
    ensures IsUtf8From(s[from..end], i - from)
    decreases end - i
  {
    if i < end {
      CharacterAt(s, i);
      var n := CharLength(s, i);
      assert i + n <= end;
      SameCharacter(s, from, end, i);
      SliceIsUtf8From(s, from, end, i + n);
    }
  }

  lemma SameCharacter(s: Bytes, from: nat, end: nat, i: nat)
    requires from <= i < end <= |s| && CharLength(s, i) > 0 && i + CharLength(s, i) <= end
    ensures CharLength(s[from..end], i - from) == CharLength(s, i)
  {
    var t, k := s[from..end], i - from;
    assert t[k] == s[i];
    assert k + 1 < |t| ==> t[k + 1] == s[i + 1];
    assert k + 2 < |t| ==> t[k + 2] == s[i + 2];
    assert k + 3 < |t| ==> t[k + 3] == s[i + 3];
  }

  /** How much of a page's edges is held back. */
  datatype Alignment = Alignment(frontSkip: nat, backDrop: nat)

  /** The first byte at or after `i` that does not continue a character; the end if none. */
  function SkipContinuations(s: Bytes, i: nat): (n: nat)
    requires i <= |s|
    ensures i <= n <= |s|
    decreases |s| - i
  {
    if i < |s| && IsContinuation(s[i]) then SkipContinuations(s, i + 1) else i
  }

  /** How many trailing bytes of `s[from..]` start a character the page cut short, looking from
      `back` bytes before the end; only the last three can hold its lead byte. */
  function Unfinished(s: Bytes, from: nat, back: nat): (n: nat)
    requires from <= |s| && 1 <= back
    ensures n <= |s| - from
    decreases 4 - back
  {
    if back > |s| - from || back > 3 then 0
    else if IsContinuation(s[|s| - back]) then Unfinished(s, from, back + 1)
    else if LeadLength(s[|s| - back]) > back then back
    else 0
  }

  function Align(page: Bytes): (a: Alignment)
    ensures a.frontSkip + a.backDrop <= |page|
  {
    var front := SkipContinuations(page, 0);
    Alignment(front, Unfinished(page, front, 1))
  }

  /** The first boundary at or after `i`. */
  function NextBoundary(s: Bytes, i: nat): (b: nat)
    requires i <= |s|
    ensures i <= b <= |s| && IsBoundary(s, b)
    ensures forall j :: i <= j < b ==> IsContinuation(s[j])
    decreases |s| - i
  {
    if IsBoundary(s, i) then i else NextBoundary(s, i + 1)
  }

  /** The last boundary at or before `i`. */
  function LastBoundary(s: Bytes, i: nat): (b: nat)
    requires i <= |s|
    ensures b <= i
    ensures b < i ==> i < |s| && forall j :: b < j <= i ==> IsContinuation(s[j])
    ensures b > 0 ==> IsBoundary(s, b)
  {
    if i == 0 || IsBoundary(s, i) then i else LastBoundary(s, i - 1)
  }

  lemma LastBoundaryIs(s: Bytes, b: nat, i: nat)
    requires b <= i <= |s| && IsBoundary(s, b) && (b < i ==> i < |s|)
    requires forall j :: b < j <= i && j < |s| ==> IsContinuation(s[j])
    ensures LastBoundary(s, i) == b
  {
  }

  lemma AfterALead(text: Bytes, at: nat, end: nat)
    requires IsUtf8(text) && at < end <= |text| && IsBoundary(text, at)
    requires forall j :: at < j < end ==> IsContinuation(text[j])
    ensures LastBoundary(text, end) == if LeadLength(text[at]) > end - at then at else end
  {
    CharacterAt(text, at);
    LastBoundaryIs(text, if LeadLength(text[at]) > end - at then at else end, end);
  }

  /** Three continuations before the end: whatever character holds them ends there. */
  lemma AfterThreeContinuations(text: Bytes, end: nat)
    requires IsUtf8(text) && 3 <= end <= |text|
    requires forall j :: end - 3 <= j < end ==> IsContinuation(text[j])
    ensures LastBoundary(text, end) == end
  {
    TextStartsAtABoundary(text);
    AfterALead(text, LastBoundary(text, end - 3), end);
  }

  /** Looking back from the page's end over continuations, to where it begins at a boundary, what
      is held back is what follows the last boundary. */
  lemma {:induction false} UnfinishedIsExact(text: Bytes, from: nat, page: Bytes, front: nat, back: nat)
    requires IsUtf8(text) && from + |page| <= |text| && page == text[from..from + |page|]
    requires front < |page| && IsBoundary(text, from + front) && 1 <= back <= |page| - front
    requires forall j :: from + |page| - back < j < from + |page| ==> IsContinuation(text[j])
    ensures from + |page| - Unfinished(page, front, back) == LastBoundary(text, from + |page|)
    decreases |page| - back
  {
    var end := from + |page|;
    assert page[|page| - back] == text[end - back];
    if !IsContinuation(text[end - back]) {
      AfterALead(text, end - back, end);
    } else if back < 3 {
      UnfinishedIsExact(text, from, page, front, back + 1);
    } else {
      AfterThreeContinuations(text, end);
    }
  }

  lemma {:induction false} SkipIsExact(text: Bytes, from: nat, page: Bytes, i: nat)
    requires from + |page| <= |text| && page == text[from..from + |page|] && i <= |page|
    requires forall j :: from <= j < from + i ==> IsContinuation(text[j])
    ensures var start := NextBoundary(text, from);
      SkipContinuations(page, i) == if start < from + |page| then start - from else |page|
    decreases |page| - i
  {
    if i < |page| {
      assert page[i] == text[from + i];
      if IsContinuation(page[i]) {
        SkipIsExact(text, from, page, i + 1);
      }
    }
  }

  /** What `align` makes of any page of any text: it starts at the next boundary and ends at the
      last one -- or, when the page holds no boundary before its end, it is all skipped. */
  lemma AlignIsExact(text: Bytes, from: nat, end: nat)
    requires IsUtf8(text) && from <= end <= |text|
    ensures var a := Align(text[from..end]);
      if NextBoundary(text, from) < end then
        from + a.frontSkip == NextBoundary(text, from) && end - a.backDrop == LastBoundary(text, end)
      else a == Alignment(end - from, 0)
  {
    var page, start := text[from..end], NextBoundary(text, from);
    SkipIsExact(text, from, page, 0);
    if start < end {
      UnfinishedIsExact(text, from, page, start - from, 1);
    }
  }

  /** The whole characters of a page, by where in the text they start and end. */
  lemma PageChunk(text: Bytes, from: nat, end: nat) returns (s: nat, e: nat)
    requires IsUtf8(text) && from <= end <= |text|
    ensures s == from + Align(text[from..end]).frontSkip && e == end - Align(text[from..end]).backDrop
    ensures from <= s <= e <= end
    ensures s < e ==> IsBoundary(text, s) && IsBoundary(text, e)
    ensures IsBoundary(text, from) ==> s == from && IsBoundary(text, e)
    ensures IsBoundary(text, end) ==> e == end
  {
    AlignIsExact(text, from, end);
    if NextBoundary(text, from) < end {
      s, e := NextBoundary(text, from), LastBoundary(text, end);
    } else {
      s, e := end, end;
    }
  }

  lemma LastBoundaryGrows(text: Bytes, i: nat, j: nat)
    requires IsUtf8(text) && i <= j <= |text|
    ensures IsBoundary(text, LastBoundary(text, i)) && LastBoundary(text, i) <= LastBoundary(text, j)
  {
    TextStartsAtABoundary(text);
  }

  /** A page too long for one character, or running to the end of the log: where its whole
      characters start and end. */
  lemma PageFacts(text: Bytes, size: nat, offset: nat, end: nat) returns (s: nat, e: nat)
    requires IsUtf8(text) && offset < end <= size <= |text| && (end - offset >= 4 || end == size)
    ensures var a := Align(text[offset..end]); s == offset + a.frontSkip && e == end - a.backDrop
    ensures offset <= s <= e <= end
    ensures NextBoundary(text, offset) >= end ==> s == e == end == size
    ensures NextBoundary(text, offset) < end ==>
      s == NextBoundary(text, offset) && IsBoundary(text, e) && e <= LastBoundary(text, size)
    ensures e == offset ==> s == offset && LastBoundary(text, size) == offset
  {
    s, e := PageChunk(text, offset, end);
    AlignIsExact(text, offset, end);
    LastBoundaryGrows(text, end, size);
    TextStartsAtABoundary(text);
    if NextBoundary(text, offset) >= end {
      if end != size {
        AfterThreeContinuations(text, offset + 3);
      }
    } else if e == offset {
      CharacterAt(text, offset);
    }
  }
}
