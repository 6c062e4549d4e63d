/** Byte ranges of a served file: the `Range` header against section 14.1.2 of RFC 9110. */
module Ranges {
  import opened Decimal
  import opened Strings

  datatype RangeRequest =
    /** Send `start..end`, `end` exclusive, as 206. */
    | Satisfiable(start: nat, end: nat)
    /** A valid range the file cannot satisfy: 416. */
    | Unsatisfiable
    /** Not a single byte range: the whole file is sent. */
    | Ignored

  /** Unicode's `White_Space`, which `str::trim` removes. */
  predicate IsWhitespace(c: char) {
    var n := c as int;
    || 9 <= n <= 13 || n == 32 || n == 0x85 || n == 0xA0 || n == 0x1680 || 0x2000 <= n <= 0x200A
    || n == 0x2028 || n == 0x2029 || n == 0x202F || n == 0x205F || n == 0x3000
  }

  function Trim(s: string): string {
    if s != "" && IsWhitespace(s[0]) then Trim(s[1..])
    else if s != "" && IsWhitespace(s[|s| - 1]) then Trim(s[..|s| - 1])
    else s
  }

  /** Trimming takes all the blanks at either end, and nothing else. */
  lemma {:induction false} TrimExactly(s: string) returns (i: nat, j: nat)
    ensures i <= j <= |s| && Trim(s) == s[i..j]
    ensures forall k :: (0 <= k < i || j <= k < |s|) ==> IsWhitespace(s[k])
    ensures i < j ==> !IsWhitespace(s[i]) && !IsWhitespace(s[j - 1])
    decreases |s|
  {
    if s != "" && IsWhitespace(s[0]) {
      i, j := TrimExactly(s[1..]);
      i, j := i + 1, j + 1;
      assert s[1..][i - 1..j - 1] == s[i..j];
      assert forall k :: 0 < k < |s| ==> s[k] == s[1..][k - 1];
    } else if s != "" && IsWhitespace(s[|s| - 1]) {
      i, j := TrimExactly(s[..|s| - 1]);
      assert s[..|s| - 1][i..j] == s[i..j];
    } else {
      i, j := 0, |s|;
    }
  }

  function ParseRange(header: string, size: nat): (r: RangeRequest)
    ensures r.Satisfiable? && size <= U64_MAX ==> r.start < r.end <= size
  {
    match StripPrefix(Trim(header), "bytes=")
    case None => Ignored
    case Some(spec) =>
      if ',' in spec then Ignored
      else
        match SplitOnce(spec, '-')
        case None => Ignored
        case Some((first, last)) => Bounds(Trim(first), Trim(last), size)
  }

  function Bounds(first: string, last: string, size: nat): (r: RangeRequest)
    ensures r.Satisfiable? && size <= U64_MAX ==> r.start < r.end <= size
  {
    if first == "" then
      // The last `n` bytes.
      match ParseUnsigned(last, U64_MAX)
      case None => Ignored
      case Some(n) =>
        if n == 0 || size == 0 then Unsatisfiable
        else Satisfiable(if n <= size then size - n else 0, size)
    else
      match ParseUnsigned(first, U64_MAX)
      case None => Ignored
      case Some(start) =>
        if last == "" then
          if start >= size then Unsatisfiable else Satisfiable(start, size)
        else
          match ParseUnsigned(last, U64_MAX)
          case None => Ignored
          case Some(inclusive) =>
            // Inclusive on the wire, exclusive here, at the width of `u64`.
            var end := if SaturatingAdd(inclusive, 1) < size then SaturatingAdd(inclusive, 1) else size;
            if inclusive < start then Ignored
            else if start >= size then Unsatisfiable
            else Satisfiable(start, end)
  }

  /** A single range as RFC 9110 writes it: digits on either side of the dash, not neither. */
  predicate IsRangeSpec(first: string, last: string) {
    AllDigits(first) && AllDigits(last) && (first != "" || last != "")
  }

  /** Well-formed, but ending before it begins. */
  predicate IsInvalid(first: string, last: string)
    requires IsRangeSpec(first, last)
  {
    first != "" && last != "" && ValueOf(last) < ValueOf(first)
  }

  /** Whether the range asks for the byte at `i` of a file of `size` bytes. */
  predicate Selects(first: string, last: string, size: nat, i: nat)
    requires IsRangeSpec(first, last)
  {
    && i < size
    && if first == "" then size - i <= ValueOf(last)
       else ValueOf(first) <= i && (last != "" ==> i <= ValueOf(last))
  }

  predicate FitsU64(digits: string)
    requires AllDigits(digits)
  {
    ValueOf(digits) <= U64_MAX
  }

  lemma TrimNothing(s: string)
    requires s == "" || (!IsWhitespace(s[0]) && !IsWhitespace(s[|s| - 1]))
    ensures Trim(s) == s
  {
  }

  /** Nothing in it that the header's own syntax would take. */
  predicate IsClean(s: string) {
    '-' !in s && ',' !in s && forall i :: 0 <= i < |s| ==> !IsWhitespace(s[i])
  }

  lemma DigitsAreClean(s: string)
    requires AllDigits(s)
    ensures IsClean(s)
  {
    assert forall i :: 0 <= i < |s| ==> IsDigit(s[i]);
  }

  function Header(first: string, last: string): string {
    "bytes=" + (first + "-" + last)
  }

  /** A header of this form gets as far as its two numbers. */
  lemma HeaderIsSplit(first: string, last: string, size: nat)
    requires IsClean(first) && IsClean(last)
    ensures ParseRange(Header(first, last), size) == Bounds(first, last, size)
  {
    var header, spec := Header(first, last), first + "-" + last;
    assert header[0] == 'b';
    assert header[|header| - 1] == (if last == "" then '-' else last[|last| - 1]);
    TrimNothing(header);
    TrimNothing(first);
    TrimNothing(last);
    assert "bytes=" <= header && header[6..] == spec;
    assert ',' !in spec;
    SplitOnceAt(first, '-', last);
  }

  lemma ParsePlain(digits: string)
    requires AllDigits(digits) && digits != ""
    ensures ParseUnsigned(digits, U64_MAX) == if FitsU64(digits) then Some(ValueOf(digits)) else None
  {
    assert IsDigit(digits[0]);
  }

  /** What an answer must be for a range the RFC can write: ignored exactly when it is invalid or
      a number is wider than `u64`; 416 exactly when it asks for no byte of the file; otherwise
      exactly the bytes it asks for. */
  ghost predicate IsRightAnswer(r: RangeRequest, first: string, last: string, size: nat)
    requires IsRangeSpec(first, last)
  {
    match r
    case Ignored => IsInvalid(first, last) || !FitsU64(first) || !FitsU64(last)
    case Unsatisfiable =>
      && !IsInvalid(first, last) && FitsU64(first) && FitsU64(last)
      && forall i :: !Selects(first, last, size, i)
    case Satisfiable(start, end) =>
      && !IsInvalid(first, last) && FitsU64(first) && FitsU64(last)
      && start < end <= size && forall i: nat :: start <= i < end <==> Selects(first, last, size, i)
  }

  lemma BoundsAgree(first: string, last: string, size: nat)
    requires IsRangeSpec(first, last) && size <= U64_MAX
    ensures IsRightAnswer(Bounds(first, last, size), first, last, size)
  {
    hide ValueOf;
    if first != "" { ParsePlain(first); } else { EmptyFits(); }
    if last != "" { ParsePlain(last); } else { EmptyFits(); }
  }

  lemma EmptyFits()
    ensures FitsU64("")
  {
  }

  /** The range unit, in any of the spellings section 14.1 of RFC 9110 takes for one name. */
  predicate IsByteUnit(unit: string) {
    |unit| == 5 && forall i :: 0 <= i < 5 ==> Lower(unit[i]) == "bytes"[i]
  }

  function Lower(c: char): char {
    if 'A' <= c <= 'Z' then (c as int + 32) as char else c
  }

  /** A single byte range as a client may write it. */
  function Written(unit: string, first: string, last: string): string {
    unit + "=" + (first + "-" + last)
  }

  lemma WrittenPlainly(first: string, last: string)
    ensures Written("bytes", first, last) == Header(first, last)
  {
  }

  /** The unit in another spelling is not recognised, whatever follows. */
  lemma AnotherSpellingIsIgnored(unit: string, first: string, last: string, size: nat)
    requires IsByteUnit(unit) && unit != "bytes" && IsRangeSpec(first, last)
    ensures ParseRange(Written(unit, first, last), size) == Ignored
  {
    var header := Written(unit, first, last);
    WrittenIsTrimmed(unit, first, last);
    assert exists i :: 0 <= i < 5 && unit[i] != "bytes"[i];
    assert forall i :: 0 <= i < 5 ==> header[i] == unit[i] && "bytes="[i] == "bytes"[i];
  }

  lemma WrittenIsTrimmed(unit: string, first: string, last: string)
    requires IsByteUnit(unit) && IsRangeSpec(first, last)
    ensures Trim(Written(unit, first, last)) == Written(unit, first, last)
  {
    var header := Written(unit, first, last);
    DigitsAreClean(last);
    assert header[0] == unit[0] && Lower(unit[0]) == 'b';
    assert header[|header| - 1] == (if last == "" then '-' else last[|last| - 1]);
    TrimNothing(header);
  }

  /** Every range the RFC can write, at any size: with the unit written `bytes` it is answered as
      section 14.1.2 has it; in any other spelling it is ignored. */
  lemma AgreesWithTheStandard(unit: string, first: string, last: string, size: nat)
    requires IsByteUnit(unit) && IsRangeSpec(first, last) && size <= U64_MAX
    ensures unit == "bytes" ==> IsRightAnswer(ParseRange(Written(unit, first, last), size), first, last, size)
    ensures unit != "bytes" ==> ParseRange(Written(unit, first, last), size) == Ignored
  {
    hide ParseRange, Bounds, IsRightAnswer;
    if unit == "bytes" {
      WrittenPlainly(first, last);
      DigitsAreClean(first);
      DigitsAreClean(last);
      HeaderIsSplit(first, last, size);
      BoundsAgree(first, last, size);
    } else {
      AnotherSpellingIsIgnored(unit, first, last, size);
    }
  }

  /** So such a range is answered exactly when the unit is in lower case, and it is usable. */
  lemma StandardRangesAnswered(unit: string, first: string, last: string, size: nat)
    requires IsByteUnit(unit) && IsRangeSpec(first, last) && size <= U64_MAX
    ensures ParseRange(Written(unit, first, last), size) != Ignored <==> unit == "bytes" && IsUsable(first, last)
  {
    AgreesWithTheStandard(unit, first, last, size);
  }

  /** It happens: `Bytes=0-9` gets the whole file. */
  lemma ACapitalIsIgnored(size: nat)
    ensures IsStandard("Bytes=0-9") && ParseRange("Bytes=0-9", size) == Ignored
  {
    assert "Bytes=0-9" == Written("Bytes", "0", "9");
    assert IsByteUnit("Bytes") && "Bytes" != "bytes" by { assert "Bytes"[0] != "bytes"[0]; }
    AnotherSpellingIsIgnored("Bytes", "0", "9", size);
  }

  /** A number's digits: what follows the sign `str::parse` allows. */
  function Digits(s: string): string {
    if s != "" && s[0] == '+' then s[1..] else s
  }

  /** A bound of a range as the parser takes it: nothing, or a number with or without a sign. */
  predicate IsBound(s: string) {
    s == "" || (Digits(s) != "" && AllDigits(Digits(s)))
  }

  /** The header has the form the parser reads, with these two texts around the first dash. */
  predicate Reads(header: string, first: string, last: string) {
    && Trim(header) == Header(first, last)
    && '-' !in first && ',' !in first && ',' !in last
    && IsBound(Trim(first)) && IsBound(Trim(last)) && (Trim(first) != "" || Trim(last) != "")
  }

  lemma BoundsAreASpec(header: string, first: string, last: string)
    requires Reads(header, first, last)
    ensures IsRangeSpec(Digits(Trim(first)), Digits(Trim(last)))
  {
  }

  /** Reaching the two texts: the parser splits where the header does. */
  lemma ReadsSplits(header: string, first: string, last: string, size: nat)
    requires Trim(header) == Header(first, last) && '-' !in first
    ensures ParseRange(header, size) ==
      if ',' in first || ',' in last then Ignored else Bounds(Trim(first), Trim(last), size)
  {
    var trimmed, spec := Trim(header), first + "-" + last;
    assert "bytes=" <= trimmed && trimmed[6..] == spec;
    assert ',' in spec <==> ',' in first || ',' in last;
    SplitOnceAt(first, '-', last);
  }

  lemma ParseBound(s: string)
    requires s != ""
    ensures ParseUnsigned(s, U64_MAX) ==
      if IsBound(s) && FitsU64(Digits(s)) then Some(ValueOf(Digits(s))) else None
  {
  }

  /** Two bounds, signed or not, are answered as their digits are; anything else is ignored. */
  lemma BoundsOfAny(first: string, last: string, size: nat)
    ensures IsBound(first) && IsBound(last) && (first != "" || last != "") ==>
      Bounds(first, last, size) == Bounds(Digits(first), Digits(last), size)
    ensures !(IsBound(first) && IsBound(last) && (first != "" || last != "")) ==> Bounds(first, last, size) == Ignored
  {
    hide ValueOf;
    if first != "" { ParseBound(first); ParseDigits(first); }
    if last != "" { ParseBound(last); ParseDigits(last); }
    assert ParseUnsigned("", U64_MAX) == None;
  }

  lemma ParseDigits(s: string)
    requires s != ""
    ensures IsBound(s) ==> ParseUnsigned(Digits(s), U64_MAX) == ParseUnsigned(s, U64_MAX)
  {
    if IsBound(s) {
      assert IsDigit(Digits(s)[0]);
    }
  }

  /** Every header there is: one of the form the parser reads is answered as the range its digits
      write, and any other is ignored. */
  lemma EveryHeaderIsAnswered(header: string, size: nat)
    requires size <= U64_MAX
    ensures forall first, last :: Reads(header, first, last) ==>
      IsRightAnswer(ParseRange(header, size), Digits(Trim(first)), Digits(Trim(last)), size)
    ensures (forall first, last :: !Reads(header, first, last)) ==> ParseRange(header, size) == Ignored
  {
    hide ParseRange, Bounds, IsRightAnswer;
    forall first, last | Reads(header, first, last)
      ensures IsRightAnswer(ParseRange(header, size), Digits(Trim(first)), Digits(Trim(last)), size)
    {
      ReadsSplits(header, first, last, size);
      BoundsOfAny(Trim(first), Trim(last), size);
      BoundsAgree(Digits(Trim(first)), Digits(Trim(last)), size);
    }
    if forall first, last :: !Reads(header, first, last) {
      UnreadIsIgnored(header, size);
    }
  }

  lemma UnreadIsIgnored(header: string, size: nat)
    requires forall first, last :: !Reads(header, first, last)
    ensures ParseRange(header, size) == Ignored
  {
    var trimmed := Trim(header);
    if "bytes=" <= trimmed && '-' in trimmed[6..] {
      var (first, last) := SplitOnce(trimmed[6..], '-').value;
      assert trimmed == Header(first, last);
      assert !Reads(header, first, last);
      ReadsSplits(header, first, last, size);
      BoundsOfAny(Trim(first), Trim(last), size);
    }
  }

  /** There is only one way to read a header. */
  lemma ReadsOnce(header: string, first: string, last: string, first': string, last': string)
    requires Reads(header, first, last) && Reads(header, first', last')
    ensures first == first' && last == last'
  {
    assert Header(first, last)[6..] == first + "-" + last && Header(first', last')[6..] == first' + "-" + last';
    SplitOnceAt(first, '-', last);
    SplitOnceAt(first', '-', last');
  }

  /** What the RFC writes for a single byte range. */
  ghost predicate IsStandard(header: string) {
    exists unit, first, last ::
      IsByteUnit(unit) && IsRangeSpec(first, last) && header == Written(unit, first, last)
  }

  /** Blanks around the header or a bound, or a sign before a number. */
  predicate TakesLiberties(header: string, first: string, last: string) {
    || Trim(header) != header || Trim(first) != first || Trim(last) != last
    || Digits(first) != first || Digits(last) != last
  }

  /** A range that can be answered: not backwards, and within `u64`. */
  predicate IsUsable(first: string, last: string)
    requires IsRangeSpec(first, last)
  {
    !IsInvalid(first, last) && FitsU64(first) && FitsU64(last)
  }

  lemma StandardIsRead(first: string, last: string)
    requires IsRangeSpec(first, last)
    ensures Reads(Header(first, last), first, last) && !TakesLiberties(Header(first, last), first, last)
  {
    DigitsAreClean(first);
    DigitsAreClean(last);
    var header := Header(first, last);
    assert header[0] == 'b' && header[|header| - 1] == (if last == "" then '-' else last[|last| - 1]);
    TrimNothing(header);
    TrimNothing(first);
    TrimNothing(last);
    assert first != "" ==> IsDigit(first[0]);
    assert last != "" ==> IsDigit(last[0]);
  }

  lemma StandardExactlyWhen(header: string, first: string, last: string)
    requires Reads(header, first, last)
    ensures IsStandard(header) <==> !TakesLiberties(header, first, last)
  {
    if IsStandard(header) {
      var unit, f, l :| IsByteUnit(unit) && IsRangeSpec(f, l) && header == Written(unit, f, l);
      WrittenIsTrimmed(unit, f, l);
      assert header[..5] == unit && Header(first, last)[..5] == "bytes";
      WrittenPlainly(f, l);
      StandardIsRead(f, l);
      ReadsOnce(header, first, last, f, l);
    }
    if !TakesLiberties(header, first, last) {
      BoundsAreASpec(header, first, last);
      WrittenPlainly(first, last);
      assert IsByteUnit("bytes") && IsRangeSpec(first, last) && header == Written("bytes", first, last);
    }
  }

  lemma AnsweredExactlyWhen(header: string, first: string, last: string, size: nat)
    requires size <= U64_MAX && Reads(header, first, last)
    ensures IsRangeSpec(Digits(Trim(first)), Digits(Trim(last)))
    ensures ParseRange(header, size) != Ignored <==> IsUsable(Digits(Trim(first)), Digits(Trim(last)))
  {
    hide ParseRange;
    BoundsAreASpec(header, first, last);
    EveryHeaderIsAnswered(header, size);
    assert IsRightAnswer(ParseRange(header, size), Digits(Trim(first)), Digits(Trim(last)), size);
  }

  /** A header the RFC does not write is understood all the same exactly when it is a usable range
      but for blanks around it or its bounds, or signs before its numbers. */
  lemma UnderstoodBeyondTheStandard(header: string, size: nat)
    requires size <= U64_MAX
    ensures ParseRange(header, size) != Ignored && !IsStandard(header) <==>
      exists first, last ::
        && Reads(header, first, last) && TakesLiberties(header, first, last)
        && IsUsable(Digits(Trim(first)), Digits(Trim(last)))
  {
    hide ParseRange, Reads, TakesLiberties, IsUsable, IsStandard;
    if first, last :| Reads(header, first, last) {
      AnsweredExactlyWhen(header, first, last, size);
      StandardExactlyWhen(header, first, last);
      forall f, l | Reads(header, f, l)
        ensures f == first && l == last
      {
        ReadsOnce(header, first, last, f, l);
      }
    } else {
      UnreadIsIgnored(header, size);
    }
  }

  /** Both liberties are taken: a sign, and a blank before the dash. */
  lemma SignsAndBlanksAreUnderstood(size: nat)
    requires 10 <= size <= U64_MAX
    ensures ParseRange("bytes=+0-+9", size) == Satisfiable(0, 10) == ParseRange("bytes=0 - 9", size)
  {
    hide ParseRange;
    assert "bytes=+0-+9" == Header("+0", "+9") && "bytes=0 - 9" == Header("0 ", " 9");
    TrimNothing("bytes=+0-+9");
    TrimNothing("bytes=0 - 9");
    ReadsSplits("bytes=+0-+9", "+0", "+9", size);
    ReadsSplits("bytes=0 - 9", "0 ", " 9", size);
    assert "0 "[..1] == "0" && " 9"[1..] == "9" && Trim("0 ") == "0" && Trim(" 9") == "9";
    assert "+0"[1..] == "0" && "+9"[1..] == "9" && "0"[..0] == "" && "9"[..0] == "";
    assert ValueOf("0") == 0 && ValueOf("9") == 9;
  }

  /** The range `start..end` as a client asks for it and as `Content-Range` reports it. */
  function RangeText(start: nat, end: nat): string
    requires start < end
  {
    ToString(start) + "-" + ToString(end - 1)
  }

  /** Every non-empty part of a file, asked for by its bounds, is what is sent. */
  lemma EveryPartRoundTrips(start: nat, end: nat, size: nat)
    requires start < end <= size <= U64_MAX
    ensures ParseRange("bytes=" + RangeText(start, end), size) == Satisfiable(start, end)
  {
    var first, last := ToString(start), ToString(end - 1);
    hide ParseRange;
    assert "bytes=" + RangeText(start, end) == Header(first, last);
    DigitsAreClean(first);
    DigitsAreClean(last);
    HeaderIsSplit(first, last, size);
    ParsePrinted(start, U64_MAX);
    ParsePrinted(end - 1, U64_MAX);
  }

  /** The body of the answer to a range request. */
  function Body<T>(file: seq<T>, r: RangeRequest): seq<T>
    requires |file| <= U64_MAX && (r.Satisfiable? ==> r.start <= r.end <= |file|)
  {
    match r
    case Satisfiable(start, end) => file[start..end]
    case Unsatisfiable => []
    case Ignored => file
  }

  predicate IsIncreasing(cuts: seq<nat>) {
    forall i :: 0 < i < |cuts| ==> cuts[i - 1] < cuts[i]
  }

  /** The answers to one request per stretch between consecutive cuts, put together. */
  function Downloaded<T>(file: seq<T>, cuts: seq<nat>): seq<T>
    requires |file| <= U64_MAX && cuts != [] && IsIncreasing(cuts) && cuts[|cuts| - 1] <= |file|
  {
    if |cuts| == 1 then []
    else
      var start, end := cuts[|cuts| - 2], cuts[|cuts| - 1];
      Downloaded(file, cuts[..|cuts| - 1]) + Body(file, ParseRange("bytes=" + RangeText(start, end), |file|))
  }

  /** A file fetched in consecutive parts, wherever it is cut, comes back whole. */
  lemma {:induction false} PartsReassemble<T>(file: seq<T>, cuts: seq<nat>)
    requires |file| <= U64_MAX && cuts != [] && IsIncreasing(cuts) && cuts[|cuts| - 1] <= |file|
    ensures cuts[0] <= cuts[|cuts| - 1] && Downloaded(file, cuts) == file[cuts[0]..cuts[|cuts| - 1]]
  {
    hide ParseRange, RangeText;
    if |cuts| > 1 {
      var front := cuts[..|cuts| - 1];
      var start, end := cuts[|cuts| - 2], cuts[|cuts| - 1];
      PartsReassemble(file, front);
      EveryPartRoundTrips(start, end, |file|);
      assert file[cuts[0]..start] + file[start..end] == file[cuts[0]..end];
    }
  }
}
