/** Following a build's log: one page per poll, until a settled build's last page is in. */
module LogPoll {
  import opened Decimal
  import opened Utf8
  import opened LogTail

  datatype Progress = CaughtUp | More | Retry

  /** What the server answers: up to `limit` bytes of the log from `offset`. */
  function ServerPage(log: Bytes, offset: nat, limit: nat): (page: Bytes)
    ensures offset >= |log| ==> page == []
    ensures offset < |log| ==> page <= log[offset..] && (|page| == limit || offset + |page| == |log|) && |page| <= limit
  {
    if offset >= |log| then [] else log[offset..if offset + limit <= |log| then offset + limit else |log|]
  }

  /** Whether a page reached the recorded end. Without a recorded size, the end is where nothing
      more can be read: a page that is only half a character cannot advance. */
  predicate ReachedEnd(size: Option<nat>, requested: nat, page: Bytes, next: nat) {
    match size
    case Some(n) => requested + |page| >= n
    case None => page == [] || next == requested
  }

  /** A fetch, answered or not: what is then shown, and how far that got. */
  function Fetched(v: View, log: Bytes, size: Option<nat>, cap: nat, answered: bool): (View, Progress) {
    var at := Repositioned(v, size, cap);
    if !answered then (at, Retry)
    else
      var page := ServerPage(log, at.next, cap);
      var after := Appended(at, page, cap);
      (after, if ReachedEnd(size, at.next, page, after.next) then CaughtUp else More)
  }

  /** A page makes a window a tail, or leaves it one. */
  lemma TailStays(v: View, page: Bytes, cap: nat)
    ensures var marked := Appended(v.(tail := false), page, cap);
      Appended(v, page, cap) == marked.(tail := v.tail || marked.tail)
  {
  }

  class BuildLogController {
    const log: LogWindow
    var tail: bool

    constructor (window: LogWindow)
      ensures log == window && !tail
    {
      log, tail := window, false;
    }

    /** Fetch and append the next page; say whether the recorded end was reached. */
    method FetchPage(cursor: LogCursor, server: Bytes, size: Option<nat>, cap: nat, answered: bool)
        returns (progress: Progress)
      modifies this, log, cursor
      ensures var r := Fetched(old(View(log.text, cursor.nextOffset, tail)), server, size, cap, answered);
        View(log.text, cursor.nextOffset, tail) == r.0 && progress == r.1
    {
      hide Extended, Chunk, Advance, Appended;
      var restart := cursor.Position(size, cap);
      if restart.Some? {
        log.Clear();
        tail := restart.value > 0;
      }
      if !answered {
        return Retry;
      }
      var requested := cursor.nextOffset;
      var page := ServerPage(server, requested, cap);
      TailStays(View(log.text, requested, tail), page, cap);
      var isTail := cursor.AppendPage(log, page, cap);
      if isTail {
        tail := true;
      }
      progress := if ReachedEnd(size, requested, page, cursor.nextOffset) then CaughtUp else More;
    }

    /** Poll a settled build, `answers` saying which requests got through. */
    method PollSettled(cursor: LogCursor, server: Bytes, cap: nat, answers: seq<bool>) returns (finished: bool)
      requires IsUtf8(server)
      modifies this, log, cursor
      ensures finished ==> cursor.nextOffset == |server|
      ensures (exists i, j :: 0 <= i < j < |answers| && answers[i] && answers[j]) ==> finished
      ensures old(cursor.nextOffset) <= |server| && true in answers ==> finished
    {
      hide Fetched, IsUtf8;
      ghost var within := cursor.nextOffset <= |server|;
      for i := 0 to |answers|
        invariant cursor.nextOffset <= |server| || forall j :: 0 <= j < i ==> !answers[j]
        invariant forall j, k :: 0 <= j < k < i ==> !(answers[j] && answers[k])
        invariant within ==> cursor.nextOffset <= |server| && forall j :: 0 <= j < i ==> !answers[j]
      {
        SettledFetch(View(log.text, cursor.nextOffset, tail), server, cap, answers[i]);
        var progress := FetchPage(cursor, server, Some(|server|), cap, answers[i]);
        if progress == CaughtUp {
          return true;
        }
      }
      finished := false;
    }
  }

  /** On a settled build of known size, wherever the cursor is -- even past the end of a log that
      was cut short -- one answered fetch brings it inside the log, and one from inside ends it,
      with the cursor at the very end. */
  lemma SettledFetch(v: View, log: Bytes, cap: nat, answered: bool)
    requires IsUtf8(log)
    ensures var (after, progress) := Fetched(v, log, Some(|log|), cap, answered);
      && after.next <= |log|
      && (progress == CaughtUp ==> after.next == |log|)
      && (answered && v.next <= |log| ==> progress == CaughtUp)
  {
    var at := Repositioned(v, Some(|log|), cap);
    assert at.next <= |log|;
    if answered {
      var end := if at.next + cap <= |log| then at.next + cap else |log|;
      var page := ServerPage(log, at.next, cap);
      assert page == log[at.next..end];
      var s, e := PageChunk(log, at.next, end);
      assert Advance(page) == e - at.next;
    }
  }

  lemma FetchedIs(v: View, log: Bytes, size: Option<nat>, cap: nat, at: View, page: Bytes, after: View)
    requires Repositioned(v, size, cap) == at && ServerPage(log, at.next, cap) == page
    requires Appended(at, page, cap) == after && ReachedEnd(size, at.next, page, after.next)
    ensures Fetched(v, log, size, cap, true) == (after, CaughtUp)
  {
  }

  lemma WindowBeforeTheEnd(v: View, log: Bytes, cap: nat, o: nat)
    requires v.next + cap < |log| && o == |log| - cap
    ensures Repositioned(v, Some(|log|), cap) == View([], o, true)
    ensures ServerPage(log, o, cap) == log[o..|log|]
  {
  }

  /** The whole characters from an offset to the end. */
  lemma LastChunk(log: Bytes, o: nat, s: nat)
    requires IsUtf8(log) && o <= |log| && s == NextBoundary(log, o)
    ensures Chunk(log[o..|log|]) == log[s..|log|] && Advance(log[o..|log|]) == |log| - o
  {
    AlignIsExact(log, o, |log|);
    var from, e := PageChunk(log, o, |log|);
    hide Align, Chunk, Advance;
    ChunkIs(log, o, |log|, from, e);
  }

  /** Nothing to trim, a partial line to drop. */
  lemma OpensWith(o: nat, chunk: Bytes, end: nat, cap: nat)
    requires 0 < o && |chunk| <= cap
    ensures Extended(View([], o, true), chunk, end, cap) == View(WithoutPartialLine(chunk), end, true)
  {
    assert [] + chunk == chunk;
    NothingIsDroppedExactlyWhen(View([], o, true), chunk, end, cap);
  }

  /** Opened, or more than a window behind, a settled log is shown to its end in one fetch: its last
      `cap` bytes from the first whole character on, less a line cut short. */
  lemma TheEndIsShown(v: View, log: Bytes, cap: nat, s: nat)
    requires IsUtf8(log) && v.next + cap < |log| && s == NextBoundary(log, |log| - cap)
    ensures Fetched(v, log, Some(|log|), cap, true) ==
      (View(WithoutPartialLine(log[s..|log|]), |log|, true), CaughtUp)
  {
    hide *;
    var o := |log| - cap;
    WindowBeforeTheEnd(v, log, cap, o);
    LastChunk(log, o, s);
    var page, chunk := log[o..|log|], log[s..|log|];
    AppendedIs(View([], o, true), page, cap, chunk, |log|);
    OpensWith(o, chunk, |log|, cap);
    EndIsReached(|log|, o, page, |log|);
    FetchedIs(v, log, Some(|log|), cap, View([], o, true), page, View(WithoutPartialLine(chunk), |log|, true));
  }

  lemma EndIsReached(size: nat, requested: nat, page: Bytes, next: nat)
    requires requested + |page| >= size
    ensures ReachedEnd(Some(size), requested, page, next)
  {
  }

  /** That is everything after the first newline of its last `cap` bytes, where there is one. */
  lemma TheLastLinesAreShown(v: View, log: Bytes, cap: nat, i: nat)
    requires IsUtf8(log) && v.next + cap < |log|
    requires |log| - cap <= i < |log| && log[i] == NEWLINE
    requires forall j :: |log| - cap <= j < i ==> log[j] != NEWLINE
    ensures Fetched(v, log, Some(|log|), cap, true).0.text == log[i + 1..|log|]
  {
    var s := NextBoundary(log, |log| - cap);
    TheEndIsShown(v, log, cap, s);
    AfterTheNewline(log, s, i);
  }

  lemma AfterTheNewline(log: Bytes, s: nat, i: nat)
    requires s <= i < |log| && log[i] == NEWLINE && forall j :: s <= j < i ==> log[j] != NEWLINE
    ensures WithoutPartialLine(log[s..|log|]) == log[i + 1..|log|]
  {
    var chunk := log[s..|log|];
    assert chunk[i - s] == NEWLINE && forall j :: 0 <= j < i - s ==> chunk[j] == log[s + j];
    assert NewlineFrom(chunk, 0) == i - s;
    assert chunk[i - s + 1..] == log[i + 1..|log|];
  }

  /** A log no longer than the window is shown whole when it is opened. */
  lemma AShortLogIsShownWhole(log: Bytes, cap: nat)
    requires IsUtf8(log) && |log| <= cap
    ensures Fetched(View([], 0, false), log, Some(|log|), cap, true) == (View(log, |log|, false), CaughtUp)
  {
    hide *;
    var start := View([], 0, false);
    FirstPage(log, cap);
    WholeChunk(log);
    OpensWhole(log, cap);
    AppendedIs(start, log, cap, log, |log|);
    EndIsReached(|log|, 0, log, |log|);
    FetchedIs(start, log, Some(|log|), cap, start, log, View(log, |log|, false));
  }

  lemma FirstPage(log: Bytes, cap: nat)
    requires |log| <= cap
    ensures ServerPage(log, 0, cap) == log
    ensures Repositioned(View([], 0, false), Some(|log|), cap) == View([], 0, false)
  {
  }

  lemma WholeChunk(log: Bytes)
    requires IsUtf8(log)
    ensures Chunk(log) == log && Advance(log) == |log|
  {
    TextStartsAtABoundary(log);
    LastChunk(log, 0, 0);
    hide Chunk, Advance;
    assert log[0..|log|] == log;
  }

  lemma OpensWhole(chunk: Bytes, cap: nat)
    requires |chunk| <= cap
    ensures Extended(View([], 0, false), chunk, |chunk|, cap) == View(chunk, |chunk|, false)
  {
    assert [] + chunk == chunk;
    NothingIsDroppedExactlyWhen(View([], 0, false), chunk, |chunk|, cap);
  }

  /** Without a recorded size, a fetch is taken for the last exactly when nothing more can be read: it
      is made at the end, or at a character the log ends in the middle of. Any other gets further.
      `text` is what the log will be once complete. */
  lemma UnsizedFetch(v: View, log: Bytes, cap: nat, text: Bytes)
    requires IsUtf8(text) && log <= text && cap >= 4
    ensures var (after, progress) := Fetched(v, log, None, cap, true);
      && (progress == CaughtUp <==> v.next >= |log| || v.next == LastBoundary(text, |log|))
      && (progress != CaughtUp ==> progress == More && v.next < after.next <= |log|)
  {
    hide *;
    var page := ServerPage(log, v.next, cap);
    PageIs(log, text, v.next, cap);
    UnsizedIs(v, log, cap, page);
    NextAfter(v, page, cap);
    if page != [] {
      UnsizedPage(text, |log|, v.next, v.next + |page|);
    }
  }

  lemma UnsizedIs(v: View, log: Bytes, cap: nat, page: Bytes)
    requires page == ServerPage(log, v.next, cap)
    ensures var after := Appended(v, page, cap);
      Fetched(v, log, None, cap, true) == (after, if page == [] || after.next == v.next then CaughtUp else More)
  {
  }

  lemma PageIs(log: Bytes, text: Bytes, offset: nat, pageSize: nat)
    requires log <= text && 4 <= pageSize
    ensures var page := ServerPage(log, offset, pageSize);
      && (page == [] <==> offset >= |log|)
      && (page != [] ==>
            var end := offset + |page|;
            end <= |log| && page == text[offset..end] && (|page| >= 4 || end == |log|))
  {
  }

  lemma NextAfter(v: View, page: Bytes, cap: nat)
    ensures Appended(v, page, cap).next == v.next + Advance(page)
  {
  }

  /** A page gets further unless it starts at the character the log ends in the middle of. */
  lemma UnsizedPage(text: Bytes, size: nat, from: nat, end: nat)
    requires IsUtf8(text) && from < end <= size <= |text| && (end - from >= 4 || end == size)
    ensures Advance(text[from..end]) == 0 <==> from == LastBoundary(text, size)
    ensures Advance(text[from..end]) <= end - from
  {
    var s, e := PageFacts(text, size, from, end);
    assert Advance(text[from..end]) == e - from;
    if from == LastBoundary(text, size) {
      LastBoundaryGrows(text, end, size);
      LastBoundaryGrows(text, size, size);
    }
  }
}
