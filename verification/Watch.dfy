/** Following builds to a verdict, over many polls of listings that each show only a part. */
module Watch {
  import opened Decimal

  datatype BuildState = Active | Successful | Failed | Enqueued | WaitingForDeps | Publishing

  predicate IsInProgress(s: BuildState) {
    s in {Active, Enqueued, WaitingForDeps, Publishing}
  }

  /** A build has settled when it has succeeded or failed, and not before. */
  lemma SettledIsEither(s: BuildState)
    ensures !IsInProgress(s) <==> s in {Successful, Failed}
  {
    match s
    case Active => case Successful => case Failed => case Enqueued => case WaitingForDeps => case Publishing =>
  }

  datatype BuildRef = BuildRef(pkgbase: string, number: int)

  /** A row of a listing. */
  datatype Build = Build(ref: BuildRef, status: BuildState)

  /** Which builds one invocation is answerable for. */
  datatype WatchScope = WatchScope(
    ignore: set<BuildRef>,
    explicit: set<BuildRef>,
    adopt: set<string>,
    package: Option<string>)
  {
    function WithExplicit(keys: set<BuildRef>): WatchScope {
      this.(explicit := explicit + keys)
    }

    /** What a trigger on a package reported queuing; its unfinished builds are adopted too. */
    function Triggered(pkgbase: string, numbers: set<int>): WatchScope {
      this.(explicit := explicit + (set n | n in numbers :: BuildRef(pkgbase, n)), adopt := adopt + {pkgbase})
    }

    function OnlyPackage(name: Option<string>): WatchScope {
      this.(package := name)
    }

    predicate Includes(b: Build) {
      && (package.None? || package.value == b.ref.pkgbase)
      && (b.ref in explicit || b.ref !in ignore || (b.ref.pkgbase in adopt && IsInProgress(b.status)))
    }
  }

  /** For `builds watch`: what had already finished is history. */
  function FromHistory(builds: seq<Build>): WatchScope {
    WatchScope(set b | b in builds && !IsInProgress(b.status) :: b.ref, {}, {}, None)
  }

  /** For `--wait`: whatever was there before the trigger is somebody else's. */
  function FromSnapshot(builds: seq<Build>): WatchScope {
    WatchScope(set b | b in builds :: b.ref, {}, {}, None)
  }

  type Records = map<BuildRef, BuildState>

  /** The records after taking in rows, in order. */
  function Observed(m: Records, scope: WatchScope, rows: seq<Build>): Records {
    if rows == [] then m
    else
      var before := Observed(m, scope, rows[..|rows| - 1]);
      var b := rows[|rows| - 1];
      if scope.Includes(b) then before[b.ref := b.status] else before
  }

  function Refs(rows: seq<Build>): set<BuildRef> {
    set b | b in rows :: b.ref
  }

  /** The builds to ask for by name: named and not found yet, or unfinished at the last look and
      on no listing any more. */
  function Unlisted(m: Records, scope: WatchScope, listed: set<BuildRef>): set<BuildRef> {
    (scope.explicit - m.Keys) + (set k | k in m && IsInProgress(m[k]) && k !in listed)
  }

  /** One poll: the two listings, what the server says of builds asked for by name, and whether
      the watch gives up after it (stalled or out of time). */
  datatype Poll = Poll(page: seq<Build>, inFlight: seq<Build>, answers: map<BuildRef, BuildState>, givesUp: bool)
  {
    function Rows(): (rows: seq<Build>)
      ensures forall b :: b in rows <==> b in page || b in inFlight
      ensures page <= rows
    {
      page + inFlight
    }
  }

  /** The records after a poll; `None` when a followed build cannot be found. */
  function Polled(m: Records, scope: WatchScope, p: Poll): Option<Records> {
    var seen := Observed(m, scope, p.Rows());
    var asked := Unlisted(seen, scope, Refs(p.Rows()));
    if asked <= p.answers.Keys then Some(seen + (map k | k in asked :: p.answers[k])) else None
  }

  function After(scope: WatchScope, polls: seq<Poll>): Option<Records> {
    if polls == [] then Some(map[])
    else
      match After(scope, polls[..|polls| - 1])
      case None => None
      case Some(m) => Polled(m, scope, polls[|polls| - 1])
  }

  predicate AllSettled(m: Records) {
    forall k :: k in m ==> !IsInProgress(m[k])
  }

  predicate NoneFailed(m: Records) {
    forall k :: k in m ==> m[k] != Failed
  }

  datatype Verdict = Succeeded | BuildFailed | NotFound | GaveUp

  /** The builds a watch follows, by identity. */
  class Tracked {
    var records: Records

    constructor ()
      ensures records == map[]
    {
      records := map[];
    }

    /** Take in what the listings say about the builds in scope. */
    method Observe(scope: WatchScope, rows: seq<Build>)
      modifies this
      ensures records == Observed(old(records), scope, rows)
    {
      for i := 0 to |rows|
        invariant records == Observed(old(records), scope, rows[..i])
      {
        assert rows[..i + 1][..i] == rows[..i];
        if scope.Includes(rows[i]) {
          Record(rows[i]);
        }
      }
      assert rows[..|rows|] == rows;
    }

    method Record(b: Build)
      modifies this
      ensures records == old(records)[b.ref := b.status]
    {
      records := records[b.ref := b.status];
    }

    /** Ask for builds by name, stopping at one that cannot be found. */
    method Ask(keys: set<BuildRef>, answers: map<BuildRef, BuildState>) returns (found: bool)
      modifies this
      ensures found == (keys <= answers.Keys)
      ensures found ==> records == old(records) + (map k | k in keys :: answers[k])
    {
      var todo := keys;
      while todo != {}
        invariant todo <= keys && keys - todo <= answers.Keys
        invariant records == old(records) + (map k | k in keys - todo :: answers[k])
      {
        var k :| k in todo;
        if k !in answers {
          return false;
        }
        Record(Build(k, answers[k]));
        todo := todo - {k};
      }
      assert keys - todo == keys;
      found := true;
    }

    /** One poll: take in its listings, then ask for what they do not show. */
    method Refresh(scope: WatchScope, p: Poll) returns (found: bool)
      modifies this
      ensures Polled(old(records), scope, p) == if found then Some(records) else None
    {
      Observe(scope, p.Rows());
      found := Ask(Unlisted(records, scope, Refs(p.Rows())), p.answers);
    }
  }

  /** What the watch says after these polls, if it stops there. */
  function Judged(scope: WatchScope, polls: seq<Poll>): Verdict {
    match After(scope, polls)
    case None => NotFound
    case Some(m) =>
      if polls == [] || !AllSettled(m) then GaveUp
      else if NoneFailed(m) then Succeeded
      else BuildFailed
  }

  /** What the records say of the verdict, and the verdict of the records. */
  lemma VerdictFromRecords(scope: WatchScope, polls: seq<Poll>)
    ensures var verdict, r := Judged(scope, polls), After(scope, polls);
      && (verdict == NotFound <==> r.None?)
      && (verdict == Succeeded <==> polls != [] && r.Some? && forall k :: k in r.value ==> r.value[k] == Successful)
      && (verdict == BuildFailed <==>
            && polls != [] && r.Some?
            && (forall k :: k in r.value ==> r.value[k] in {Successful, Failed})
            && exists k :: k in r.value && r.value[k] == Failed)
      && (verdict == GaveUp <==>
            r.Some? && (polls == [] || exists k :: k in r.value && r.value[k] !in {Successful, Failed}))
  {
    var r := After(scope, polls);
    if r.Some? {
      forall k | k in r.value
        ensures IsInProgress(r.value[k]) <==> r.value[k] !in {Successful, Failed}
      {
        SettledIsEither(r.value[k]);
      }
    }
  }

  /** No verdict after `i` polls, and no reason to give up. */
  predicate GoesOn(scope: WatchScope, polls: seq<Poll>, i: nat)
    requires 0 < i <= |polls|
  {
    Judged(scope, polls[..i]) == GaveUp && !polls[i - 1].givesUp
  }

  /** Poll until every build in scope has settled, one cannot be found, or the watch gives up: at
      the first poll that ends it and no other. `n` is how many polls that took. */
  method FollowBuilds(scope: WatchScope, polls: seq<Poll>) returns (verdict: Verdict, n: nat)
    ensures n <= |polls| && verdict == Judged(scope, polls[..n])
    ensures forall i :: 0 < i < n ==> GoesOn(scope, polls, i)
    ensures n < |polls| ==> n > 0 && !GoesOn(scope, polls, n)
    ensures verdict == GaveUp && n < |polls| ==> polls[n - 1].givesUp
    ensures forall i :: 0 <= i < n - 1 ==> !polls[i].givesUp
  {
    hide AllSettled, NoneFailed, Polled;
    var tracked := new Tracked();
    n := 0;
    while n < |polls|
      invariant n <= |polls| && After(scope, polls[..n]) == Some(tracked.records) && fresh(tracked)
      invariant forall i :: 0 < i <= n ==> GoesOn(scope, polls, i)
      invariant forall i :: 0 <= i < n ==> !polls[i].givesUp
    {
      var p := polls[n];
      assert polls[..n + 1][..n] == polls[..n];
      n := n + 1;
      var found := tracked.Refresh(scope, p);
      if !found {
        return NotFound, n;
      }
      if AllSettled(tracked.records) {
        return if NoneFailed(tracked.records) then Succeeded else BuildFailed, n;
      }
      if p.givesUp {
        return GaveUp, n;
      }
    }
    assert n > 0 ==> GoesOn(scope, polls, n);
    verdict := GaveUp;
  }

  /** What `builds watch` follows, of the package it is limited to if any: everything but what had
      already finished when it began. */
  lemma WatchIncludesExactly(history: seq<Build>, package: Option<string>, b: Build)
    ensures FromHistory(history).OnlyPackage(package).Includes(b) <==>
      && (package.Some? ==> b.ref.pkgbase == package.value)
      && forall h :: h in history && h.ref == b.ref ==> h.status !in {Successful, Failed}
  {
    forall h | h in history
      ensures !IsInProgress(h.status) <==> h.status in {Successful, Failed}
    {
      SettledIsEither(h.status);
    }
  }

  /** What `--wait` follows: what its trigger reported, what was not there before it, and what of the
      triggered package is unfinished. */
  lemma WaitIncludesExactly(before: seq<Build>, pkgbase: string, numbers: set<int>, b: Build)
    ensures FromSnapshot(before).Triggered(pkgbase, numbers).Includes(b) <==>
      || (b.ref.pkgbase == pkgbase && b.ref.number in numbers)
      || (forall old_ :: old_ in before ==> old_.ref != b.ref)
      || (b.ref.pkgbase == pkgbase && b.status !in {Successful, Failed})
  {
    SettledIsEither(b.status);
    if b.ref.pkgbase == pkgbase && b.ref.number in numbers {
      assert b.ref == BuildRef(pkgbase, b.ref.number);
    }
  }

  /** What is named is followed whatever state it is in, unless the watch is limited to another
      package. */
  lemma NamedIsIncluded(scope: WatchScope, keys: set<BuildRef>, b: Build)
    requires b.ref in keys && (scope.package.Some? ==> scope.package.value == b.ref.pkgbase)
    ensures scope.WithExplicit(keys).Includes(b)
  {
  }

  /** Of several rows of one build the last in scope counts: the queue's listing over the page. */
  lemma {:induction false} TheLastRowCounts(m: Records, scope: WatchScope, rows: seq<Build>, i: nat)
    requires i < |rows| && scope.Includes(rows[i])
    requires forall j :: i < j < |rows| && rows[j].ref == rows[i].ref ==> !scope.Includes(rows[j])
    ensures rows[i].ref in Observed(m, scope, rows) && Observed(m, scope, rows)[rows[i].ref] == rows[i].status
  {
    var front := rows[..|rows| - 1];
    if i < |front| {
      assert front[i] == rows[i];
      TheLastRowCounts(m, scope, front, i);
    }
  }

  lemma {:induction false} ObservedGrows(m: Records, scope: WatchScope, rows: seq<Build>)
    ensures m.Keys <= Observed(m, scope, rows).Keys
    ensures forall b :: b in rows && scope.Includes(b) ==> b.ref in Observed(m, scope, rows)
  {
    if rows != [] {
      ObservedGrows(m, scope, rows[..|rows| - 1]);
    }
  }

  lemma PolledGrows(m: Records, scope: WatchScope, p: Poll)
    requires Polled(m, scope, p).Some?
    ensures m.Keys + scope.explicit <= Polled(m, scope, p).value.Keys
    ensures forall b :: b in p.Rows() && scope.Includes(b) ==> b.ref in Polled(m, scope, p).value
  {
    ObservedGrows(m, scope, p.Rows());
  }

  /** A build the watch answers for: named, or shown in scope by some listing so far. */
  ghost predicate IsFollowed(scope: WatchScope, polls: seq<Poll>, k: BuildRef) {
    k in scope.explicit || exists i, b :: 0 <= i < |polls| && b in polls[i].Rows() && b.ref == k && scope.Includes(b)
  }

  lemma {:induction false} ObservedFromARow(m: Records, scope: WatchScope, rows: seq<Build>, k: BuildRef)
    requires k in Observed(m, scope, rows) && k !in m
    ensures exists b :: b in rows && b.ref == k && scope.Includes(b)
  {
    if !(scope.Includes(rows[|rows| - 1]) && rows[|rows| - 1].ref == k) {
      ObservedFromARow(m, scope, rows[..|rows| - 1], k);
    }
  }

  /** A poll adds what is named and what it shows in scope, and nothing else. */
  lemma PolledKeys(m: Records, scope: WatchScope, p: Poll, k: BuildRef)
    requires Polled(m, scope, p).Some?
    ensures k in Polled(m, scope, p).value <==>
      k in m || k in scope.explicit || exists b :: b in p.Rows() && b.ref == k && scope.Includes(b)
  {
    PolledGrows(m, scope, p);
    if k in Polled(m, scope, p).value && k !in m && k !in scope.explicit {
      ObservedFromARow(m, scope, p.Rows(), k);
    }
  }

  /** What is tracked only grows, and is exactly what the watch answers for. */
  lemma {:induction false} FollowedIsTracked(scope: WatchScope, polls: seq<Poll>, k: BuildRef)
    requires polls != [] && After(scope, polls).Some?
    ensures k in After(scope, polls).value <==> IsFollowed(scope, polls, k)
  {
    hide Polled;
    var front, p := polls[..|polls| - 1], polls[|polls| - 1];
    PolledKeys(After(scope, front).value, scope, p, k);
    assert forall i :: 0 <= i < |front| ==> front[i] == polls[i];
    if front != [] {
      FollowedIsTracked(scope, front, k);
    }
    assert IsFollowed(scope, polls, k) <==>
      || k in scope.explicit || (exists b :: b in p.Rows() && b.ref == k && scope.Includes(b))
      || IsFollowed(scope, front, k);
  }

  /** A success is a statement about every one of them: named or ever shown in scope, it was last
      seen successful. */
  lemma SuccessCoversEverythingFollowed(scope: WatchScope, polls: seq<Poll>, k: BuildRef)
    requires Judged(scope, polls) == Succeeded && IsFollowed(scope, polls, k)
    ensures After(scope, polls).Some? && k in After(scope, polls).value && After(scope, polls).value[k] == Successful
  {
    VerdictFromRecords(scope, polls);
    FollowedIsTracked(scope, polls, k);
  }

  /** The server's own states, at the end of each poll. A poll asks one thing after another, and a
      build may move on in between: what is reported of one in progress need not hold any more, nor
      agree. What is reported settled does, and a build that has settled stays as it is. */
  ghost predicate IsTruthful(polls: seq<Poll>, truth: seq<Records>) {
    && |truth| == |polls|
    && (forall i, b :: 0 <= i < |polls| && b in polls[i].Rows() && !IsInProgress(b.status) ==>
          b.ref in truth[i] && truth[i][b.ref] == b.status)
    && (forall i, k :: 0 <= i < |polls| && k in polls[i].answers && !IsInProgress(polls[i].answers[k]) ==>
          k in truth[i] && truth[i][k] == polls[i].answers[k])
    && (forall i, j, k :: 0 <= i < j < |truth| && k in truth[i] && !IsInProgress(truth[i][k]) ==>
          k in truth[j] && truth[j][k] == truth[i][k])
  }

  lemma {:induction false} ObservedFrom(m: Records, scope: WatchScope, rows: seq<Build>, k: BuildRef)
    requires k in Observed(m, scope, rows)
    ensures (k in m && Observed(m, scope, rows)[k] == m[k])
      || exists b :: b in rows && b.ref == k && b.status == Observed(m, scope, rows)[k]
  {
    if rows != [] && !(scope.Includes(rows[|rows| - 1]) && rows[|rows| - 1].ref == k) {
      ObservedFrom(m, scope, rows[..|rows| - 1], k);
    }
  }

  /** A record after a poll is an answer, a row, or the record there was. */
  lemma PolledFrom(m: Records, scope: WatchScope, p: Poll, k: BuildRef)
    requires Polled(m, scope, p).Some? && k in Polled(m, scope, p).value
    ensures var now := Polled(m, scope, p).value[k];
      || (k in p.answers && p.answers[k] == now)
      || (exists b :: b in p.Rows() && b.ref == k && b.status == now)
      || (k in m && m[k] == now)
  {
    if k !in Unlisted(Observed(m, scope, p.Rows()), scope, Refs(p.Rows())) {
      ObservedFrom(m, scope, p.Rows(), k);
    }
  }

  lemma {:induction false} SettledRecordsAreTrue(scope: WatchScope, polls: seq<Poll>, truth: seq<Records>, k: BuildRef)
    requires IsTruthful(polls, truth) && polls != [] && After(scope, polls).Some?
    requires k in After(scope, polls).value && !IsInProgress(After(scope, polls).value[k])
    ensures k in truth[|truth| - 1] && truth[|truth| - 1][k] == After(scope, polls).value[k]
  {
    hide Polled;
    var last := |polls| - 1;
    var m := After(scope, polls[..last]).value;
    var now := After(scope, polls).value[k];
    PolledFrom(m, scope, polls[last], k);
    if k in m && m[k] == now {
      TruthfulPrefix(polls, truth);
      SettledRecordsAreTrue(scope, polls[..last], truth[..last], k);
      assert truth[..last][last - 1] == truth[last - 1];
    }
  }

  lemma TruthfulPrefix(polls: seq<Poll>, truth: seq<Records>)
    requires IsTruthful(polls, truth) && polls != []
    ensures IsTruthful(polls[..|polls| - 1], truth[..|polls| - 1])
  {
  }

  /** Exit code zero is the truth: when a watch succeeds, every build it answers for -- whatever
      has since fallen off every page -- is successful on the server. */
  lemma SuccessIsTheTruth(scope: WatchScope, polls: seq<Poll>, truth: seq<Records>, k: BuildRef)
    requires IsTruthful(polls, truth) && Judged(scope, polls) == Succeeded && IsFollowed(scope, polls, k)
    ensures polls != [] && k in truth[|truth| - 1] && truth[|truth| - 1][k] == Successful
  {
    VerdictFromRecords(scope, polls);
    SuccessCoversEverythingFollowed(scope, polls, k);
    SettledRecordsAreTrue(scope, polls, truth, k);
  }

  /** And a failed build is: one the watch answers for has failed on the server. */
  lemma FailureIsTheTruth(scope: WatchScope, polls: seq<Poll>, truth: seq<Records>) returns (k: BuildRef)
    requires IsTruthful(polls, truth) && Judged(scope, polls) == BuildFailed
    ensures polls != [] && IsFollowed(scope, polls, k)
    ensures k in truth[|truth| - 1] && truth[|truth| - 1][k] == Failed
  {
    VerdictFromRecords(scope, polls);
    k :| k in After(scope, polls).value && After(scope, polls).value[k] == Failed;
    FollowedIsTracked(scope, polls, k);
    SettledRecordsAreTrue(scope, polls, truth, k);
  }

  /** So what a trigger reported queuing, and whatever appeared after its snapshot, succeeded. */
  lemma AWaitCoversItsTrigger(before: seq<Build>, pkgbase: string, numbers: set<int>, polls: seq<Poll>, k: BuildRef)
    requires var scope := FromSnapshot(before).Triggered(pkgbase, numbers);
      && Judged(scope, polls) == Succeeded
      && ((k.pkgbase == pkgbase && k.number in numbers)
          || (k !in Refs(before) && exists i, b :: 0 <= i < |polls| && b in polls[i].Rows() && b.ref == k))
    ensures var r := After(FromSnapshot(before).Triggered(pkgbase, numbers), polls);
      r.Some? && k in r.value && r.value[k] == Successful
  {
    var scope := FromSnapshot(before).Triggered(pkgbase, numbers);
    if k.pkgbase == pkgbase && k.number in numbers {
      assert k == BuildRef(pkgbase, k.number);
      assert k in scope.explicit;
    } else {
      var i, b :| 0 <= i < |polls| && b in polls[i].Rows() && b.ref == k;
      assert scope.Includes(b);
    }
    SuccessCoversEverythingFollowed(scope, polls, k);
  }

  /** A row of the poll tells the watch about a build. */
  ghost predicate IsSeen(scope: WatchScope, p: Poll, k: BuildRef) {
    exists b :: b in p.Rows() && b.ref == k && scope.Includes(b)
  }

  lemma {:induction false} UnseenKeepsItsRecord(m: Records, scope: WatchScope, rows: seq<Build>, k: BuildRef)
    requires forall b :: b in rows && b.ref == k ==> !scope.Includes(b)
    ensures k in m <==> k in Observed(m, scope, rows)
    ensures k in m ==> Observed(m, scope, rows)[k] == m[k]
  {
    if rows != [] {
      UnseenKeepsItsRecord(m, scope, rows[..|rows| - 1], k);
    }
  }

  /** When an unfinished record goes stale, exactly: the build is on a listing, and no row of it
      there is in scope. Otherwise the poll re-reads it, by listing or by name. */
  lemma StaleExactlyWhen(m: Records, scope: WatchScope, p: Poll, k: BuildRef)
    requires k in m && IsInProgress(m[k]) && Polled(m, scope, p).Some?
    ensures k in Polled(m, scope, p).value
    ensures IsSeen(scope, p, k) ==>
      exists b :: b in p.Rows() && b.ref == k && b.status == Polled(m, scope, p).value[k]
    ensures k !in Refs(p.Rows()) ==> k in p.answers && Polled(m, scope, p).value[k] == p.answers[k]
    ensures k in Refs(p.Rows()) && !IsSeen(scope, p, k) ==> Polled(m, scope, p).value[k] == m[k]
  {
    var rows := p.Rows();
    var seen := Observed(m, scope, rows);
    ObservedGrows(m, scope, rows);
    if IsSeen(scope, p, k) {
      assert k in Refs(rows);
      LastSeen(m, scope, rows, k);
    } else {
      UnseenKeepsItsRecord(m, scope, rows, k);
    }
  }

  /** A record that has settled stays as it is at every poll that shows no row of the build in scope. */
  lemma SettledIsLeftAlone(m: Records, scope: WatchScope, p: Poll, k: BuildRef)
    requires k in m && !IsInProgress(m[k]) && !IsSeen(scope, p, k) && Polled(m, scope, p).Some?
    ensures k in Polled(m, scope, p).value && Polled(m, scope, p).value[k] == m[k]
  {
    UnseenKeepsItsRecord(m, scope, p.Rows(), k);
  }

  /** A poll fails exactly when the server does not know a build that is named and on no listing in
      scope so far, or that was unfinished and has left every listing. */
  lemma NotFoundExactlyWhen(m: Records, scope: WatchScope, p: Poll)
    ensures Polled(m, scope, p).None? <==>
      exists k :: k !in p.answers && !IsSeen(scope, p, k) &&
        ((k in scope.explicit && k !in m) || (k in m && IsInProgress(m[k]) && k !in Refs(p.Rows())))
  {
    var rows := p.Rows();
    var seen := Observed(m, scope, rows);
    var asked := Unlisted(seen, scope, Refs(rows));
    ObservedGrows(m, scope, rows);
    forall k
      ensures k in asked <==>
        && !IsSeen(scope, p, k)
        && ((k in scope.explicit && k !in m) || (k in m && IsInProgress(m[k]) && k !in Refs(rows)))
    {
      if IsSeen(scope, p, k) {
        assert k in seen && k in Refs(rows);
      } else {
        UnseenKeepsItsRecord(m, scope, rows, k);
      }
    }
    if Polled(m, scope, p).None? {
      var k :| k in asked && k !in p.answers;
    }
  }

  lemma {:induction false} LastSeen(m: Records, scope: WatchScope, rows: seq<Build>, k: BuildRef)
    requires exists b :: b in rows && b.ref == k && scope.Includes(b)
    ensures k in Observed(m, scope, rows)
    ensures exists b :: b in rows && b.ref == k && b.status == Observed(m, scope, rows)[k]
  {
    var front, b := rows[..|rows| - 1], rows[|rows| - 1];
    if !(scope.Includes(b) && b.ref == k) {
      var c :| c in rows && c.ref == k && scope.Includes(c);
      assert c in front;
      LastSeen(m, scope, front, k);
    }
  }

  /** A build that is named, or was not there before, is re-read at every poll until it settles
      -- as long as `--package` does not filter it out. */
  lemma OwnBuildsAreAlwaysReread(m: Records, scope: WatchScope, p: Poll, k: BuildRef)
    requires k in m && IsInProgress(m[k]) && Polled(m, scope, p).Some?
    requires k in scope.explicit || k !in scope.ignore
    requires scope.package.None? || scope.package.value == k.pkgbase
    ensures k in Polled(m, scope, p).value
    ensures
      var now := Polled(m, scope, p).value[k];
      (exists b :: b in p.Rows() && b.ref == k && b.status == now) || (k in p.answers && p.answers[k] == now)
  {
    StaleExactlyWhen(m, scope, p, k);
    if k in Refs(p.Rows()) {
      var b :| b in p.Rows() && b.ref == k;
      assert scope.Includes(b);
    }
  }

  /** A build followed only by adoption leaves the scope when it finishes: for as long as it is
      still on the page, its record stays unfinished, and no number of polls comes to a verdict. */
  lemma {:induction false} AnAdoptedBuildIsNeverSeenToFinish(scope: WatchScope, polls: seq<Poll>, n: nat, k: BuildRef)
    requires k in scope.ignore && k !in scope.explicit
    requires n <= |polls| && After(scope, polls).Some? && After(scope, polls[..n]).Some?
    requires k in After(scope, polls[..n]).value && IsInProgress(After(scope, polls[..n]).value[k])
    requires forall i :: n <= i < |polls| ==> k in Refs(polls[i].Rows())
    requires forall i, b :: n <= i < |polls| && b in polls[i].Rows() && b.ref == k ==> !IsInProgress(b.status)
    ensures k in After(scope, polls).value && After(scope, polls).value[k] == After(scope, polls[..n]).value[k]
    ensures !AllSettled(After(scope, polls).value)
  {
    if n == |polls| {
      assert polls[..n] == polls;
    } else {
      var last := |polls| - 1;
      assert polls[..last][..n] == polls[..n];
      AnAdoptedBuildIsNeverSeenToFinish(scope, polls[..last], n, k);
      StaleExactlyWhen(After(scope, polls[..last]).value, scope, polls[last], k);
    }
  }

  /** It happens: an update that reused a row in flight, which then succeeds on the first page. */
  lemma AdoptionCanHang()
    ensures
      var k := BuildRef("fonts", 8);
      var scope := FromSnapshot([Build(k, Active)]).Triggered("fonts", {});
      var first := Poll([Build(k, Active)], [], map[], false);
      After(scope, [first]) == Some(map[k := Active]) && k in scope.ignore && k !in scope.explicit
  {
    var k := BuildRef("fonts", 8);
    var scope := FromSnapshot([Build(k, Active)]).Triggered("fonts", {});
    var first := Poll([Build(k, Active)], [], map[], false);
    var b := Build(k, Active);
    assert b in [b];
    assert scope.Includes(b);
    assert first.Rows() == [b] && [b][..0] == [];
    assert Observed(map[], scope, [b]) == map[k := Active];
    assert Refs([b]) == {k};
    assert Unlisted(map[k := Active], scope, {k}) == {};
    var r := Polled(map[], scope, first);
    assert r.Some? && r.value == map[k := Active];
    assert [first][..0] == [];
  }
}
