/** Printing a build's log from the command line, one bounded page at a time. */
module LogPager {
  import opened Decimal
  import opened Utf8
  import opened LogTail
  import opened LogPoll

  /** The first `limit` bytes, or all of them. */
  function Cut(s: Bytes, limit: Option<nat>): (r: Bytes)
    ensures r <= s
    ensures if limit.Some? && limit.value < |s| then |r| == limit.value else r == s
  {
    if limit.Some? && limit.value < |s| then s[..limit.value] else s
  }

  /** What is to be printed of a log that is `text[..size]`, the last character of which may still
      be half written: from the first character at or after the offset to the last complete one. */
  function Expected(text: Bytes, size: nat, offset: nat): Bytes
    requires size <= |text|
  {
    if offset > size || NextBoundary(text, offset) >= LastBoundary(text, size) then []
    else text[NextBoundary(text, offset)..LastBoundary(text, size)]
  }

  /** How far a walk has come: `printed` is the text from the first boundary up to `offset`. */
  ghost predicate Walked(text: Bytes, size: nat, start: nat, offset: nat, printed: Bytes)
    requires size <= |text|
  {
    if start > size then offset == start && printed == []
    else
      var from := NextBoundary(text, start);
      && offset <= size
      && ( || (offset == start && printed == [])
           || ( && from <= offset && offset <= LastBoundary(text, size)
                && IsBoundary(text, offset) && printed == text[from..offset])
           || (offset == size <= from && printed == []))
  }

  ghost predicate Within(limit: Option<nat>, remaining: Option<nat>, printed: Bytes) {
    if limit.None? then remaining.None?
    else |printed| <= limit.value && remaining == Some(limit.value - |printed|)
  }

  /** Nothing more to read: everything has been printed. */
  lemma WalkEnds(text: Bytes, size: nat, start: nat, offset: nat, printed: Bytes)
    requires IsUtf8(text) && size <= |text| && Walked(text, size, start, offset, printed)
    requires offset >= size || LastBoundary(text, size) == offset
    ensures printed == Expected(text, size, start)
  {
    if start <= size {
      LastBoundaryGrows(text, size, size);
    }
  }

  /** One page on. */
  lemma WalkOn(text: Bytes, size: nat, start: nat, offset: nat, printed: Bytes, end: nat, s: nat, e: nat)
    requires IsUtf8(text) && size <= |text| && Walked(text, size, start, offset, printed)
    requires offset <= s <= e <= end <= size && offset < e
    requires NextBoundary(text, offset) >= end ==> s == e == end == size
    requires NextBoundary(text, offset) < end ==>
      s == NextBoundary(text, offset) && IsBoundary(text, e) && e <= LastBoundary(text, size)
    ensures Walked(text, size, start, e, printed + text[s..e])
    ensures printed + text[s..e] <= Expected(text, size, start)
  {
    var from := NextBoundary(text, start);
    if offset == start && printed == [] {
      assert printed + text[s..e] == text[s..e];
    } else if offset < size {
      assert s == offset;
      Adjoin(text, from, offset, e);
    }
    if from < LastBoundary(text, size) {
      Adjoin(text, from, e, LastBoundary(text, size));
    }
  }

  lemma WalkStarts(text: Bytes, size: nat, start: nat)
    requires size <= |text|
    ensures Walked(text, size, start, start, [])
  {
  }

  /** What the limit leaves of one more slice, and what that makes of the whole. */
  lemma CutAt(expected: Bytes, printed: Bytes, more: Bytes, limit: Option<nat>, remaining: Option<nat>)
    requires printed + more <= expected && Within(limit, remaining, printed)
    ensures remaining.Some? && remaining.value < |more| ==>
      printed + more[..remaining.value] == Cut(expected, limit)
    ensures remaining.Some? && remaining.value == |more| ==> printed + more == Cut(expected, limit)
    ensures remaining.None? || remaining.value >= |more| ==>
      Within(limit, if remaining.Some? then Some(remaining.value - |more|) else None, printed + more)
  {
    if remaining.Some? && remaining.value <= |more| {
      assert printed + more[..remaining.value] == (printed + more)[..limit.value] == expected[..limit.value];
      assert more[..|more|] == more;
      assert expected[..|expected|] == expected;
    }
  }

  lemma CutNothing(expected: Bytes, limit: Option<nat>, remaining: Option<nat>)
    requires Within(limit, remaining, expected)
    ensures expected == Cut(expected, limit)
  {
  }

  /** Walk the log from `start` in pages of at most `pageSize` bytes, printing at most `limit`.
      `text` is what the log will be once complete. */
  method RenderOutput(log: Bytes, start: nat, limit: Option<nat>, pageSize: nat, ghost text: Bytes)
      returns (printed: Bytes)
    requires IsUtf8(text) && log <= text && 4 <= pageSize
    ensures printed == Cut(Expected(text, |log|, start), limit)
  {
    hide IsUtf8, NextBoundary, LastBoundary, Walked, Expected, Align, Chunk, Advance, ServerPage, Cut;
    printed := [];
    var offset: nat, remaining: Option<nat> := start, limit;
    WalkStarts(text, |log|, start);
    while true
      invariant Walked(text, |log|, start, offset, printed) && Within(limit, remaining, printed)
      decreases |log| - offset
    {
      var page := ServerPage(log, offset, pageSize);
      PageIs(log, text, offset, pageSize);
      if page == [] {
        WalkEnds(text, |log|, start, offset, printed);
        CutNothing(printed, limit, remaining);
        break;
      }
      ghost var end := offset + |page|;
      ghost var s, e := PageFacts(text, |log|, offset, end);
      ChunkIs(text, offset, end, s, e);
      var advanced := Advance(page);
      if advanced == 0 {
        WalkEnds(text, |log|, start, offset, printed);
        CutNothing(printed, limit, remaining);
        break;
      }
      WalkOn(text, |log|, start, offset, printed, end, s, e);
      var aligned := Chunk(page);
      CutAt(Expected(text, |log|, start), printed, aligned, limit, remaining);
      var capped := remaining.Some? && remaining.value < |aligned|;
      var slice := if capped then aligned[..remaining.value] else aligned;
      printed := printed + slice;
      if remaining.Some? {
        remaining := Some(remaining.value - |slice|);
      }
      offset := offset + advanced;
      if capped || remaining == Some(0) {
        break;
      }
    }
  }

  /** For a complete log that is all of it, from the first character on. */
  lemma ExpectedOfACompleteLog(text: Bytes, offset: nat)
    requires IsUtf8(text) && offset <= |text|
    ensures Expected(text, |text|, offset) == text[NextBoundary(text, offset)..]
  {
    assert LastBoundary(text, |text|) == |text|;
  }
}
