/** The build log's bounded window: appending pages, trimming from the front, and the byte
    cursor that walks a growing log. Text is its UTF-8 bytes. */
module LogTail {
  import opened Decimal
  import opened Utf8

  /** The index of the first newline at or after `from`; the length when there is none. */
  function NewlineFrom(w: Bytes, from: nat): (i: nat)
    requires from <= |w|
    ensures from <= i <= |w| && (i < |w| ==> w[i] == NEWLINE)
    ensures forall j :: from <= j < i ==> w[j] != NEWLINE
    decreases |w| - from
  {
    if from == |w| || w[from] == NEWLINE then from else NewlineFrom(w, from + 1)
  }

  /** Trimming as it reads: from `from` on, drop a leading line at a time until the rest fits; a
      single line that does not fit is cut to a character boundary. */
  function LineCut(w: Bytes, cap: nat, from: nat): (cut: nat)
    requires from <= |w|
    ensures cut <= |w| && |w| - cut <= cap
    decreases |w| - from
  {
    if |w| - from <= cap then from
    else if NewlineFrom(w, from) < |w| then LineCut(w, cap, NewlineFrom(w, from) + 1)
    else NextBoundary(w, |w| - cap)
  }

  function TrimByLines(w: Bytes, cap: nat): (r: Bytes)
    ensures |r| <= cap
  {
    w[LineCut(w, cap, 0)..]
  }

  /** A newline ends a character, and the next byte starts one. */
  ghost predicate NewlinesEndCharacters(w: Bytes) {
    forall i :: 0 < i < |w| && w[i - 1] == NEWLINE ==> !IsContinuation(w[i])
  }

  lemma {:induction false} LineCutIsABoundary(w: Bytes, cap: nat, from: nat)
    requires NewlinesEndCharacters(w) && from <= |w| && IsBoundary(w, from)
    ensures IsBoundary(w, LineCut(w, cap, from))
    decreases |w| - from
  {
    var nl := NewlineFrom(w, from);
    if |w| - from > cap && nl < |w| {
      LineCutIsABoundary(w, cap, nl + 1);
    }
  }

  /** Trimming whole text leaves whole text: the cut is on a character boundary. */
  lemma TrimIsUtf8(w: Bytes, cap: nat)
    requires IsUtf8(w)
    ensures IsBoundary(w, LineCut(w, cap, 0)) && IsUtf8(TrimByLines(w, cap))
  {
    TextStartsAtABoundary(w);
    TextNewlines(w);
    LineCutIsABoundary(w, cap, 0);
    SliceIsUtf8(w, LineCut(w, cap, 0), |w|);
    assert w[LineCut(w, cap, 0)..] == w[LineCut(w, cap, 0)..|w|];
  }

  lemma TextNewlines(log: Bytes)
    requires IsUtf8(log)
    ensures NewlinesEndCharacters(log)
  {
    forall i | 0 < i < |log| && log[i - 1] == NEWLINE
      ensures !IsContinuation(log[i])
    {
      CharacterAt(log, i - 1);
    }
  }

  /** Where the one drain cuts: after the first newline that removes the excess, or at the first
      boundary that does. */
  function DrainCut(w: Bytes, excess: nat): nat
    requires 0 < excess <= |w|
  {
    var nl := NewlineFrom(w, excess - 1);
    if nl < |w| then nl + 1 else NextBoundary(w, excess)
  }

  lemma NewlineBetween(w: Bytes, i: nat, k: nat)
    requires i <= |w| && i <= k <= NewlineFrom(w, i)
    ensures NewlineFrom(w, k) == NewlineFrom(w, i)
  {
  }

  /** One drain is the line-by-line trim, for every window and cap, wherever the latter starts. */
  lemma {:induction false} OneDrainIsLineByLine(w: Bytes, cap: nat, from: nat)
    requires from < |w| - cap
    ensures LineCut(w, cap, from) == DrainCut(w, |w| - cap)
    decreases |w| - from
  {
    var excess, nl := |w| - cap, NewlineFrom(w, from);
    if nl < |w| && nl + 1 < excess {
      OneDrainIsLineByLine(w, cap, nl + 1);
    } else {
      NewlineBetween(w, from, excess - 1);
    }
  }

  /** And it keeps the most it can: of the line starts that make the rest fit, the first; where no line
      starts there, of the character boundaries. */
  lemma TheTrimKeepsTheMost(w: Bytes, cap: nat)
    requires |w| > cap
    ensures var cut, excess := LineCut(w, cap, 0), |w| - cap;
      if exists i :: excess - 1 <= i < |w| && w[i] == NEWLINE then
        && excess <= cut && w[cut - 1] == NEWLINE
        && forall i :: excess - 1 <= i < |w| && w[i] == NEWLINE ==> cut <= i + 1
      else
        && excess <= cut && IsBoundary(w, cut)
        && forall i :: excess <= i <= |w| && IsBoundary(w, i) ==> cut <= i
  {
    OneDrainIsLineByLine(w, cap, 0);
  }

  method FindNewline(w: Bytes, from: nat) returns (i: nat)
    requires from <= |w|
    ensures i == NewlineFrom(w, from)
  {
    i := from;
    while i < |w| && w[i] != NEWLINE
      invariant from <= i <= |w| && forall j :: from <= j < i ==> w[j] != NEWLINE
    {
      i := i + 1;
    }
  }

  method FindBoundary(w: Bytes, from: nat) returns (i: nat)
    requires from <= |w|
    ensures i == NextBoundary(w, from)
  {
    i := from;
    while i < |w| && IsContinuation(w[i])
      invariant from <= i <= |w| && forall j :: from <= j < i ==> !IsBoundary(w, j)
    {
      i := i + 1;
    }
    assert IsBoundary(w, i) && IsBoundary(w, NextBoundary(w, from));
  }

  /** A displayed window. */
  class LogWindow {
    var text: Bytes

    constructor ()
      ensures text == []
    {
      text := [];
    }

    /** Append a chunk, then drain whole leading lines until the window fits. */
    method AppendCapped(chunk: Bytes, cap: nat) returns (discarded: nat)
      modifies this
      ensures text == TrimByLines(old(text) + chunk, cap)
      ensures discarded <= |old(text) + chunk| && text == (old(text) + chunk)[discarded..]
      ensures |text| <= cap
      ensures discarded > 0 <==> |old(text) + chunk| > cap
    {
      text := text + chunk;
      if |text| <= cap {
        return 0;
      }
      var excess := |text| - cap;
      OneDrainIsLineByLine(text, cap, 0);
      // The first newline that removes at least the excess; for one unbreakable line, the first
      // character boundary that does.
      discarded := FindNewline(text, excess - 1);
      if discarded < |text| {
        discarded := discarded + 1;
      } else {
        discarded := FindBoundary(text, excess);
      }
      text := text[discarded..];
    }

    /** Drop everything through the first newline, if there is one. */
    method DropLeadingPartialLine()
      modifies this
      ensures text == WithoutPartialLine(old(text))
    {
      var i := FindNewline(text, 0);
      if i < |text| {
        text := text[i + 1..];
      }
    }

    method Clear()
      modifies this
      ensures text == []
    {
      text := [];
    }
  }

  /** What follows the first newline, or all of it when there is none. */
  function WithoutPartialLine(w: Bytes): (r: Bytes)
    ensures NEWLINE !in w ==> r == w
    ensures NEWLINE in w ==> exists i :: 0 <= i < |w| && w[i] == NEWLINE && NEWLINE !in w[..i] && r == w[i + 1..]
  {
    var nl := NewlineFrom(w, 0);
    if nl < |w| then w[nl + 1..] else w
  }

  /** Where to fetch from instead, when the log is more than a window ahead. */
  function CatchUpOffset(next: nat, size: Option<nat>, cap: nat): Option<nat> {
    if size.Some? && size.value > next + cap then Some(size.value - cap) else None
  }

  /** Where a metadata refresh moves the cursor: back to the start of a log that shrank, on to
      the last window of one far ahead, or nowhere. */
  function Reposition(next: nat, size: Option<nat>, cap: nat): Option<nat> {
    if size.Some? && size.value < next then Some(0) else CatchUpOffset(next, size, cap)
  }

  /** One page of a window's length from here reaches the end of the log, and the end is not behind. */
  predicate IsWithinReach(next: nat, size: nat, cap: nat) {
    next <= size <= next + cap
  }

  /** Where the cursor ends up: never past the end, and a window away from it at most -- unless the
      log shrank to more than a window, which is read from its start and jumped through next time. */
  lemma RepositionReaches(next: nat, size: nat, cap: nat)
    ensures var at := After(next, Some(size), cap);
      && at <= size
      && (IsWithinReach(at, size, cap) <==> next <= size || size <= cap)
      && IsWithinReach(After(at, Some(size), cap), size, cap)
      // A jump ahead skips nothing a page could still reach.
      && (at > next ==> forall p: nat :: IsWithinReach(p, size, cap) ==> at <= p)
  {
  }

  /** Such a log: from past its end to its start, five windows away from the end. */
  lemma AShrunkLogIsNotWithinReach()
    ensures After(100, Some(50), 10) == 0 && !IsWithinReach(0, 50, 10)
  {
  }

  /** Where a metadata refresh leaves the cursor. */
  function After(next: nat, size: Option<nat>, cap: nat): nat {
    var r := Reposition(next, size, cap);
    if r.Some? then r.value else next
  }

  class LogCursor {
    var nextOffset: nat

    constructor ()
      ensures nextOffset == 0
    {
      nextOffset := 0;
    }

    /** Reposition for a truncated log or a backlog larger than the window. */
    method Position(size: Option<nat>, cap: nat) returns (restart: Option<nat>)
      modifies this
      ensures restart == Reposition(old(nextOffset), size, cap)
      ensures nextOffset == if restart.Some? then restart.value else old(nextOffset)
      ensures restart.None? <==> size.None? || IsWithinReach(old(nextOffset), size.value, cap)
      ensures size.Some? && old(nextOffset) <= size.value ==> IsWithinReach(nextOffset, size.value, cap)
      ensures size.Some? && old(nextOffset) > size.value ==> nextOffset == 0
      ensures size.Some? && old(nextOffset) <= size.value && restart.Some? ==>
        forall p: nat :: IsWithinReach(p, size.value, cap) ==> nextOffset <= p
    {
      restart := if size.Some? && size.value < nextOffset then Some(0) else CatchUpOffset(nextOffset, size, cap);
      if restart.Some? {
        nextOffset := restart.value;
      }
    }

    /** Append a raw page and advance only past complete characters. */
    method AppendPage(window: LogWindow, page: Bytes, cap: nat) returns (isTail: bool)
      modifies this, window
      ensures var v := Appended(View(old(window.text), old(nextOffset), false), page, cap);
        window.text == v.text && nextOffset == v.next && isTail == v.tail
    {
      hide TrimByLines, WithoutPartialLine, Align;
      var alignment := Align(page);
      var end := |page| - alignment.backDrop;
      var firstTail := nextOffset > 0 && window.text == [];
      var discarded := window.AppendCapped(page[alignment.frontSkip..end], cap);
      if firstTail {
        window.DropLeadingPartialLine();
      }
      nextOffset := nextOffset + end;
      isTail := discarded > 0 || firstTail;
    }
  }

  /** What is shown: the window, the offset it ends at, and whether it is marked as a tail. */
  datatype View = View(text: Bytes, next: nat, tail: bool)

  /** The view after a chunk of whole characters that ends at `end`. */
  function Extended(v: View, chunk: Bytes, end: nat, cap: nat): View {
    var firstTail := v.next > 0 && v.text == [];
    var text := TrimByLines(v.text + chunk, cap);
    View(
      if firstTail then WithoutPartialLine(text) else text,
      end,
      v.tail || |v.text + chunk| > cap || firstTail)
  }

  /** What arrives and fits is shown whole, after what there was, exactly when the window is not empty
      past the start of the log, or no line ends in it. */
  lemma NothingIsDroppedExactlyWhen(v: View, chunk: Bytes, end: nat, cap: nat)
    requires |v.text + chunk| <= cap
    ensures Extended(v, chunk, end, cap).text == v.text + chunk <==>
      !(v.next > 0 && v.text == []) || NEWLINE !in chunk
    ensures v.next > 0 && v.text == [] ==> Extended(v, chunk, end, cap).text == WithoutPartialLine(chunk)
  {
    assert TrimByLines(v.text + chunk, cap) == v.text + chunk;
    assert v.text == [] ==> v.text + chunk == chunk;
  }

  /** The whole characters of a page, and how far it takes the cursor. */
  function Chunk(page: Bytes): Bytes {
    var a := Align(page);
    page[a.frontSkip..|page| - a.backDrop]
  }

  function Advance(page: Bytes): nat {
    |page| - Align(page).backDrop
  }

  /** The view after a page. */
  function Appended(v: View, page: Bytes, cap: nat): View {
    Extended(v, Chunk(page), v.next + Advance(page), cap)
  }

  /** The view after looking at the log's size. */
  function Repositioned(v: View, size: Option<nat>, cap: nat): View {
    match Reposition(v.next, size, cap)
    case Some(offset) => View([], offset, offset > 0)
    case None => v
  }

  /** The window is exactly the bytes of the log that end at the offset, whole characters all;
      and it is marked as a tail exactly when that is not everything up to it. */
  ghost predicate Shows(v: View, log: Bytes) {
    && v.next <= |log| && |v.text| <= v.next
    && v.text == log[v.next - |v.text|..v.next]
    && (v.text != [] ==> IsBoundary(log, v.next - |v.text|) && IsBoundary(log, v.next))
    && (v.tail <==> |v.text| < v.next)
  }

  lemma ShownWithin(v: View, log: Bytes)
    requires Shows(v, log)
    ensures v.next <= |log| && |v.text| <= v.next
  {
  }

  /** Such a window is well-formed text: decoding it changes nothing. */
  lemma ShownIsUtf8(v: View, log: Bytes)
    requires IsUtf8(log) && Shows(v, log)
    ensures IsUtf8(v.text)
  {
    if v.text != [] {
      SliceIsUtf8(log, v.next - |v.text|, v.next);
    }
  }

  lemma SliceOfSlice(log: Bytes, from: nat, end: nat, i: nat, j: nat)
    requires from <= end <= |log| && i <= j <= end - from
    ensures log[from..end][i..j] == log[from + i..from + j]
  {
    var a, b := log[from..end][i..j], log[from + i..from + j];
    forall m | 0 <= m < |a|
      ensures a[m] == b[m]
    {
      assert log[from..end][i + m] == log[from + i + m];
    }
  }

  /** Trimming a stretch of the log leaves a shorter stretch with the same end. */
  lemma TrimAt(log: Bytes, s: nat, e: nat, cap: nat) returns (t: nat)
    requires NewlinesEndCharacters(log) && s <= e <= |log| && (s < e ==> IsBoundary(log, s))
    ensures s <= t <= e && TrimByLines(log[s..e], cap) == log[t..e]
    ensures t < e ==> IsBoundary(log, t)
    ensures e - s <= cap <==> t == s
  {
    var w := log[s..e];
    var cut := LineCut(w, cap, 0);
    t := s + cut;
    SliceOfSlice(log, s, e, cut, e - s);
    assert w[cut..] == w[cut..e - s];
    SliceNewlines(log, s, e);
    assert s < e ==> w[0] == log[s];
    LineCutIsABoundary(w, cap, 0);
    assert cut < |w| ==> w[cut] == log[t];
  }

  lemma SliceNewlines(log: Bytes, s: nat, e: nat)
    requires NewlinesEndCharacters(log) && s <= e <= |log|
    ensures NewlinesEndCharacters(log[s..e])
  {
    forall i | 0 < i < e - s && log[s..e][i - 1] == NEWLINE
      ensures !IsContinuation(log[s..e][i])
    {
      assert log[s + i - 1] == NEWLINE;
    }
  }

  lemma DropAt(log: Bytes, s: nat, e: nat) returns (t: nat)
    requires NewlinesEndCharacters(log) && s <= e <= |log| && (s < e ==> IsBoundary(log, s))
    ensures s <= t <= e && WithoutPartialLine(log[s..e]) == log[t..e]
    ensures t < e ==> IsBoundary(log, t)
  {
    var w := log[s..e];
    var nl := NewlineFrom(w, 0);
    t := if nl < |w| then s + nl + 1 else s;
    if nl < |w| {
      SliceOfSlice(log, s, e, nl + 1, e - s);
      assert w[nl + 1..] == w[nl + 1..e - s];
      assert log[t - 1] == NEWLINE;
    }
  }

  lemma Adjoin(log: Bytes, a: nat, b: nat, c: nat)
    requires a <= b <= c <= |log|
    ensures log[a..b] + log[b..c] == log[a..c]
  {
  }

  lemma StretchShows(log: Bytes, s: nat, e: nat, v: View)
    requires s <= e <= |log| && (s < e ==> IsBoundary(log, s) && IsBoundary(log, e))
    requires v.text == log[s..e] && v.next == e && (v.tail <==> s > 0)
    ensures Shows(v, log)
  {
    assert |v.text| == e - s;
  }

  lemma Joined(v: View, log: Bytes, s: nat, e: nat) returns (from: nat)
    requires Shows(v, log) && v.next <= s <= e <= |log|
    requires v.text != [] ==> s == v.next
    ensures from == (if v.text == [] then s else v.next - |v.text|) && v.text + log[s..e] == log[from..e]
  {
    from := if v.text == [] then s else v.next - |v.text|;
    if v.text == [] {
      assert v.text + log[s..e] == log[from..e];
    } else {
      Adjoin(log, from, v.next, e);
    }
  }

  lemma ExtendedIs(v: View, chunk: Bytes, end: nat, cap: nat, whole: Bytes, trimmed: Bytes, text: Bytes)
    requires v.text + chunk == whole && TrimByLines(whole, cap) == trimmed
    requires text == if v.next > 0 && v.text == [] then WithoutPartialLine(trimmed) else trimmed
    ensures Extended(v, chunk, end, cap) == View(text, end, v.tail || |whole| > cap || (v.next > 0 && v.text == []))
  {
  }

  /** Where the window and the chunk begin together. */
  lemma JoinedFacts(v: View, log: Bytes, s: nat, e: nat, from: nat)
    requires IsBoundary(log, 0) && Shows(v, log) && v.next <= s <= e <= |log|
    requires s < e ==> IsBoundary(log, s) && IsBoundary(log, e)
    requires IsBoundary(log, v.next) ==> s == v.next && IsBoundary(log, e)
    requires from == if v.text == [] then s else v.next - |v.text|
    ensures v.text != [] ==> s == v.next
    ensures from < e ==> IsBoundary(log, from) && IsBoundary(log, e)
    ensures from == 0 <==> !v.tail && !(v.next > 0 && v.text == [])
  {
  }

  lemma ExtendShows(v: View, log: Bytes, s: nat, e: nat, cap: nat)
    requires NewlinesEndCharacters(log) && IsBoundary(log, 0) && Shows(v, log) && v.next <= s <= e <= |log|
    requires s < e ==> IsBoundary(log, s) && IsBoundary(log, e)
    requires IsBoundary(log, v.next) ==> s == v.next && IsBoundary(log, e)
    ensures Shows(Extended(v, log[s..e], e, cap), log)
  {
    hide *;
    ShownWithin(v, log);
    JoinedFacts(v, log, s, e, if v.text == [] then s else v.next - |v.text|);
    var from := Joined(v, log, s, e);
    var t := TrimAt(log, from, e, cap);
    var u := t;
    var firstTail := v.next > 0 && v.text == [];
    if firstTail {
      u := DropAt(log, t, e);
    }
    ExtendedIs(v, log[s..e], e, cap, log[from..e], log[t..e], log[u..e]);
    StretchShows(log, u, e, View(log[u..e], e, v.tail || e - from > cap || firstTail));
  }

  lemma ChunkIs(log: Bytes, from: nat, end: nat, s: nat, e: nat)
    requires from <= s <= e <= end <= |log|
    requires s == from + Align(log[from..end]).frontSkip && e == end - Align(log[from..end]).backDrop
    ensures Chunk(log[from..end]) == log[s..e] && Advance(log[from..end]) == e - from
  {
    SliceOfSlice(log, from, end, s - from, e - from);
  }

  lemma AppendedIs(v: View, page: Bytes, cap: nat, chunk: Bytes, e: nat)
    requires Chunk(page) == chunk && Advance(page) == e - v.next
    ensures Appended(v, page, cap) == Extended(v, chunk, e, cap)
  {
  }

  /** A page of any length, from wherever the cursor is, keeps that. */
  lemma AppendShows(v: View, log: Bytes, end: nat, cap: nat)
    requires IsUtf8(log) && Shows(v, log) && v.next <= end <= |log|
    ensures Shows(Appended(v, log[v.next..end], cap), log)
  {
    hide *;
    TextStartsAtABoundary(log);
    TextNewlines(log);
    var s, e := PageChunk(log, v.next, end);
    ShownWithin(v, log);
    ExtendShows(v, log, s, e, cap);
    ChunkIs(log, v.next, end, s, e);
    AppendedIs(v, log[v.next..end], cap, log[s..e], e);
  }

  datatype Event =
    /** The log's size as the server knows it; any figure it may have had. */
    | Sized(size: Option<nat>)
    /** The next `length` bytes arrive, or as many as there are. */
    | Page(length: nat)

  function Step(v: View, log: Bytes, cap: nat, e: Event): View {
    match e
    case Sized(size) =>
      if size.Some? && size.value > |log| then v else Repositioned(v, size, cap)
    case Page(length) =>
      if v.next > |log| then v
      else Appended(v, log[v.next..if v.next + length <= |log| then v.next + length else |log|], cap)
  }

  function Run(v: View, log: Bytes, cap: nat, events: seq<Event>): View {
    if events == [] then v
    else Step(Run(v, log, cap, events[..|events| - 1]), log, cap, events[|events| - 1])
  }

  /** So dropping the partial line a tail opens with is not done once: a window that it leaves empty
      loses the next page's first line, though that line is whole. Here `b` is, of `a` and `b`. */
  lemma AnEmptiedWindowLosesALine()
    ensures var log: Bytes := [97, NEWLINE, 98, NEWLINE];
      Run(View([], 0, false), log, 2, [Sized(Some(3)), Page(1), Page(2)]) == View([], 4, true)
  {
    hide *;
    var log: Bytes := [97, NEWLINE, 98, NEWLINE];
    RunThree(View([], 0, false), log, 2, Sized(Some(3)), Page(1), Page(2));
    Restarted(log);
    LosesALine(log, 1, 2);
    Paged(View([], 1, true), log, 1);
    LosesALine(log, 2, 4);
    Paged(View([], 2, true), log, 2);
  }

  lemma Restarted(log: Bytes)
    requires |log| == 4
    ensures Step(View([], 0, false), log, 2, Sized(Some(3))) == View([], 1, true)
  {
  }

  lemma Paged(v: View, log: Bytes, length: nat)
    requires v.next + length <= |log|
    ensures Step(v, log, 2, Page(length)) == Appended(v, log[v.next..v.next + length], 2)
  {
    hide Appended;
  }

  lemma RunThree(v: View, log: Bytes, cap: nat, a: Event, b: Event, c: Event)
    ensures Run(v, log, cap, [a, b, c]) == Step(Step(Step(v, log, cap, a), log, cap, b), log, cap, c)
  {
    hide Step;
    RunMore(v, log, cap, [], a);
    RunMore(v, log, cap, [a], b);
    RunMore(v, log, cap, [a, b], c);
    assert [] + [a] == [a] && [a] + [b] == [a, b] && [a, b] + [c] == [a, b, c];
  }

  lemma RunMore(v: View, log: Bytes, cap: nat, events: seq<Event>, e: Event)
    ensures Run(v, log, cap, events + [e]) == Step(Run(v, log, cap, events), log, cap, e)
  {
    hide Step;
    assert (events + [e])[..|events|] == events;
  }

  lemma LosesALine(log: Bytes, from: nat, end: nat)
    requires log == [97, NEWLINE, 98, NEWLINE] && (from, end) in {(1, 2), (2, 4)}
    ensures Appended(View([], from, true), log[from..end], 2) == View([], end, true)
  {
    var page := log[from..end];
    assert page == if from == 1 then [NEWLINE] else [98, NEWLINE];
    assert Align(page) == Alignment(0, 0);
    assert Chunk(page) == page;
    NothingIsDroppedExactlyWhen(View([], from, true), page, end, 2);
    assert NewlineFrom(page, 0) == |page| - 1;
    assert WithoutPartialLine(page) == [];
  }

  lemma RepositionShows(v: View, log: Bytes, cap: nat, size: Option<nat>)
    requires Shows(v, log) && (size.Some? ==> size.value <= |log|)
    ensures Shows(Repositioned(v, size, cap), log)
  {
    var r := Reposition(v.next, size, cap);
    if r.Some? {
      assert log[r.value..r.value] == [];
    }
  }

  lemma StepShows(v: View, log: Bytes, cap: nat, e: Event)
    requires IsUtf8(log) && Shows(v, log)
    ensures Shows(Step(v, log, cap, e), log)
  {
    hide Shows, IsUtf8, Appended, Repositioned;
    ShownWithin(v, log);
    match e
    case Sized(size) =>
      if size.None? || size.value <= |log| {
        RepositionShows(v, log, cap, size);
      }
    case Page(length) =>
      AppendShows(v, log, if v.next + length <= |log| then v.next + length else |log|, cap);
  }

  /** Over any run on a log that only grows into `log` -- sizes read at any time, pages of any
      length, restarts into the middle of a character -- the window is exactly the bytes of the
      log that end at the offset: none lost inside it, none twice; and it has the tail mark exactly
      when it is not the whole log so far. */
  lemma {:induction false} TheWindowIsTheLog(log: Bytes, cap: nat, events: seq<Event>)
    requires IsUtf8(log)
    ensures Shows(Run(View([], 0, false), log, cap, events), log)
  {
    if events == [] {
      assert log[0..0] == [];
    } else {
      TheWindowIsTheLog(log, cap, events[..|events| - 1]);
      StepShows(Run(View([], 0, false), log, cap, events[..|events| - 1]), log, cap, events[|events| - 1]);
    }
  }
}
