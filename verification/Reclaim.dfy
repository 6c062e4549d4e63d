/** Making room for a build: kept failures oldest first, then the previous base. */
module Reclaim {
  import opened Decimal
  import opened Names
  import opened PoolDisk
  import opened Refresh
  import opened Teardown

  /** What a group has charged to it, and its limit. */
  datatype Usage = Usage(used: nat, limit: Option<nat>)

  /** The total's figures, by how often they have been read and what the pool holds then. `None` when
      they cannot be read. Nothing is assumed of them: a deletion may free little or nothing, and
      running builds may write as much meanwhile. Reading 0 is the one before anything has settled. */
  type Figures = (nat, Dir) -> Option<Usage>

  predicate Fits(usage: Option<Usage>, need: nat) {
    usage.None? || usage.value.limit.None? || SaturatingAdd(usage.value.used, need) <= usage.value.limit.value
  }

  /** The need fits when the figures cannot be read, nothing is limited, or what is used and what is
      needed stay within the limit. */
  lemma FitsExactlyWhen(usage: Option<Usage>, need: nat)
    requires usage.Some? && usage.value.limit.Some? ==> usage.value.limit.value < U64_MAX
    ensures Fits(usage, need) <==>
      usage.None? || usage.value.limit.None? || usage.value.used + need <= usage.value.limit.value
  {
  }

  /** When a failure was kept; one whose time cannot be read counts as oldest. */
  function KeptTime(dir: Dir, id: BuildId): nat {
    if Own(Kept(id, Chroot)) in dir then dir[Own(Kept(id, Chroot))].mtime else 0
  }

  predicate IsOlder(dir: Dir, a: BuildId, b: BuildId) {
    KeptTime(dir, a) < KeptTime(dir, b) || (KeptTime(dir, a) == KeptTime(dir, b) && a < b)
  }

  ghost predicate IsOldest(dir: Dir, ids: set<BuildId>, id: BuildId) {
    id in ids && forall other :: other in ids && other != id ==> IsOlder(dir, id, other)
  }

  lemma OlderChains(dir: Dir, a: BuildId, b: BuildId)
    requires IsOlder(dir, a, b)
    ensures forall c: BuildId :: IsOlder(dir, b, c) ==> IsOlder(dir, a, c)
  {
  }

  /** The order is by when the kept chroot was touched, the beginning of time for one that is not
      there, and by id where that does not tell. */
  lemma OlderExactlyWhen(dir: Dir, a: BuildId, b: BuildId)
    ensures var x, y := Own(Kept(a, Chroot)), Own(Kept(b, Chroot));
      var s, t := if x in dir then dir[x].mtime else 0, if y in dir then dir[y].mtime else 0;
      IsOlder(dir, a, b) <==> s < t || (s == t && a < b)
  {
  }

  method FindOldest(dir: Dir, ids: set<BuildId>) returns (id: BuildId)
    requires ids != {}
    ensures IsOldest(dir, ids, id)
  {
    id :| id in ids;
    var todo := ids - {id};
    while todo != {}
      invariant todo <= ids && id in ids && id !in todo
      invariant IsOldest(dir, ids - todo, id)
    {
      var other :| other in todo;
      todo := todo - {other};
      assert IsOlder(dir, other, id) || IsOlder(dir, id, other);
      if IsOlder(dir, other, id) {
        OlderChains(dir, other, id);
        id := other;
      }
    }
    assert ids - todo == ids;
  }

  lemma {:induction false} OldestExists(dir: Dir, ids: set<BuildId>)
    requires ids != {}
    ensures exists id :: IsOldest(dir, ids, id)
  {
    var some :| some in ids;
    if ids == {some} {
      assert IsOldest(dir, ids, some);
    } else {
      OldestExists(dir, ids - {some});
      var id :| IsOldest(dir, ids - {some}, id);
      assert IsOlder(dir, some, id) || IsOlder(dir, id, some);
      if IsOlder(dir, some, id) {
        OlderChains(dir, some, id);
        assert IsOldest(dir, ids, some);
      } else {
        assert IsOldest(dir, ids, id);
      }
    }
  }

  ghost function Oldest(dir: Dir, ids: set<BuildId>): (id: BuildId)
    requires ids != {}
    ensures IsOldest(dir, ids, id)
  {
    OldestExists(dir, ids);
    var id :| IsOldest(dir, ids, id);
    id
  }

  /** Builds by when they were kept, then by id. */
  ghost function ByAge(dir: Dir, ids: set<BuildId>): seq<BuildId> {
    if ids == {} then [] else [Oldest(dir, ids)] + ByAge(dir, ids - {Oldest(dir, ids)})
  }

  /** That is a listing of exactly those builds, each once, oldest first. */
  lemma {:induction false} ByAgeIsSorted(dir: Dir, ids: set<BuildId>)
    ensures forall id :: id in ids <==> id in ByAge(dir, ids)
    ensures forall i, j :: 0 <= i < j < |ByAge(dir, ids)| ==> IsOlder(dir, ByAge(dir, ids)[i], ByAge(dir, ids)[j])
  {
    if ids != {} {
      ByAgeIsSorted(dir, ids - {Oldest(dir, ids)});
    }
  }

  function Among(order: seq<BuildId>, k: nat): set<BuildId>
    requires k <= |order|
  {
    set i | 0 <= i < k :: order[i]
  }

  /** The pool without its `k` oldest kept failures. */
  function Without(dir: Dir, order: seq<BuildId>, k: nat): Dir
    requires k <= |order|
  {
    dir - KeptNames(Among(order, k))
  }

  /** Every kept failure's entries are under names that removing it deletes, and go when deleted. */
  ghost predicate AllRemovable(dir: Dir, stuck: set<Name>) {
    forall n :: n in dir && IsKept(n) ==> n in KeptNames({Parsed(n).value.id}) && n !in stuck
  }

  lemma RemovingOne(dir: Dir, stuck: set<Name>, id: BuildId)
    requires AllRemovable(dir, stuck)
    ensures dir - (KeptNames({id}) - stuck) == dir - KeptNames({id})
    ensures AllRemovable(dir - KeptNames({id}), stuck)
    ensures KeptIds(dir - KeptNames({id})) == KeptIds(dir) - {id}
  {
    hide EntryOf;
    var dir' := dir - KeptNames({id});
    forall n | n in dir && n in KeptNames({id})
      ensures n !in stuck
    {
      assert IsKept(n);
    }
    forall n | n in dir && IsKept(n)
      ensures n in dir' <==> Parsed(n).value.id != id
    {
      assert n in KeptNames({Parsed(n).value.id});
    }
    forall other | other in KeptIds(dir) && other != id
      ensures other in KeptIds(dir')
    {
      var n :| n in dir && IsKept(n) && Parsed(n).value.id == other;
      assert n in dir';
    }
  }

  lemma Next(dir: Dir, order: seq<BuildId>, k: nat)
    requires k < |order|
    ensures Without(dir, order, k) - KeptNames({order[k]}) == Without(dir, order, k + 1)
    ensures forall id :: id !in Among(order, k) ==> KeptTime(Without(dir, order, k), id) == KeptTime(dir, id)
  {
    assert Among(order, k) + {order[k]} == Among(order, k + 1);
    assert KeptNames(Among(order, k)) + KeptNames({order[k]}) == KeptNames(Among(order, k + 1));
  }

  /** The oldest of what is left, found by its time on disk now, is the next in the order. */
  lemma OldestIsNext(dir: Dir, ids: set<BuildId>, k: nat, id: BuildId)
    requires var order := ByAge(dir, ids);
      k < |order| && IsOldest(Without(dir, order, k), ids - Among(order, k), id)
    ensures id == ByAge(dir, ids)[k]
  {
    var order := ByAge(dir, ids);
    ByAgeIsSorted(dir, ids);
    Next(dir, order, k);
    var left, dir' := ids - Among(order, k), Without(dir, order, k);
    assert order[k] in left;
    forall other | other in left && other != order[k]
      ensures IsOlder(dir', order[k], other)
    {
      var j :| 0 <= j < |order| && order[j] == other;
      assert IsOlder(dir, order[k], other);
    }
    OldestIsUnique(dir', left, id, order[k]);
  }

  lemma OldestIsUnique(dir: Dir, ids: set<BuildId>, a: BuildId, b: BuildId)
    requires IsOldest(dir, ids, a) && IsOldest(dir, ids, b)
    ensures a == b
  {
  }

  /** Nothing fitted at any of the readings with up to `k` taken. */
  ghost predicate NoneFits(dir: Dir, k: nat, need: nat, figures: Figures) {
    var order := ByAge(dir, KeptIds(dir));
    k <= |order| && forall j :: 0 <= j < k ==> !Fits(figures(j + 1, Without(dir, order, j)), need)
  }

  /** What making room comes to: nothing, if `need` fits at once; else the shortest run of kept
      failures, oldest first, after which it does; the previous base only when all of them do not. */
  ghost predicate IsReclaimed(dir: Dir, dir': Dir, need: nat, figures: Figures, stuck: set<Name>, k: nat) {
    var order := ByAge(dir, KeptIds(dir));
    if Fits(figures(0, dir), need) then k == 0 && dir' == dir
    else
      && k <= |order|
      && NoneFits(dir, k, need, figures)
      && if Fits(figures(k + 1, Without(dir, order, k)), need) then dir' == Without(dir, order, k)
         else k == |order| && dir' == Without(dir, order, k) - ({PREV} - stuck)
  }

  lemma Listed(order: seq<BuildId>, ids: set<BuildId>, k: nat)
    requires k <= |order| && forall id :: id in ids <==> id in order
    requires forall i, j :: 0 <= i < j < |order| ==> order[i] != order[j]
    ensures k < |order| <==> ids - Among(order, k) != {}
    ensures k < |order| ==> order[k] in ids - Among(order, k) && Among(order, k + 1) == Among(order, k) + {order[k]}
  {
    if k < |order| {
      assert order[k] in ids - Among(order, k);
    }
  }

  /** `k` kept failures taken, the oldest ones. */
  ghost predicate HasTaken(start: Dir, dir: Dir, stuck: set<Name>, k: nat) {
    var order := ByAge(start, KeptIds(start));
    && k <= |order| && dir == Without(start, order, k)
    && AllRemovable(dir, stuck)
    && KeptIds(dir) == KeptIds(start) - Among(order, k)
  }

  lemma TakeOne(start: Dir, dir: Dir, stuck: set<Name>, k: nat, id: BuildId)
    requires HasTaken(start, dir, stuck, k) && IsOldest(dir, KeptIds(dir), id)
    ensures k < |ByAge(start, KeptIds(start))|
    ensures HasTaken(start, dir - (KeptNames({id}) - stuck), stuck, k + 1)
  {
    hide EntryOf;
    var ids := KeptIds(start);
    var order := ByAge(start, ids);
    ByAgeIsSorted(start, ids);
    Listed(order, ids, k);
    OldestIsNext(start, ids, k, id);
    Next(start, order, k);
    RemovingOne(dir, stuck, id);
  }

  lemma NoneTakenYet(dir: Dir, stuck: set<Name>)
    requires AllRemovable(dir, stuck)
    ensures HasTaken(dir, dir, stuck, 0)
  {
    assert Without(dir, ByAge(dir, KeptIds(dir)), 0) == dir;
    assert Among(ByAge(dir, KeptIds(dir)), 0) == {};
  }

  lemma AllTaken(start: Dir, dir: Dir, stuck: set<Name>, k: nat)
    requires HasTaken(start, dir, stuck, k)
    ensures KeptIds(dir) == {} <==> k == |ByAge(start, KeptIds(start))|
  {
    ByAgeIsSorted(start, KeptIds(start));
    Listed(ByAge(start, KeptIds(start)), KeptIds(start), k);
  }

  /** Delete the oldest kept failure; `false` when there is none. */
  method RemoveOldestKept(pool: Pool, ghost start: Dir, ghost k: nat) returns (removed: bool)
    requires HasTaken(start, pool.disk.dir, pool.stuck, k)
    modifies pool
    ensures removed == (k < |ByAge(start, KeptIds(start))|)
    ensures removed ==> HasTaken(start, pool.disk.dir, pool.stuck, k + 1) && Shrinks(old(pool.disk), pool.disk)
    ensures !removed ==> pool.disk == old(pool.disk) && k == |ByAge(start, KeptIds(start))|
  {
    AllTaken(start, pool.disk.dir, pool.stuck, k);
    var kept := KeptIds(pool.disk.dir);
    removed := kept != {};
    if removed {
      var id := FindOldest(pool.disk.dir, kept);
      TakeOne(start, pool.disk.dir, pool.stuck, k, id);
      pool.RemoveKept(id);
    }
  }

  lemma NoneFitsYet(dir: Dir, need: nat, figures: Figures)
    ensures NoneFits(dir, 0, need, figures)
  {
  }

  lemma OneMoreDoesNotFit(start: Dir, dir: Dir, stuck: set<Name>, k: nat, need: nat, figures: Figures)
    requires HasTaken(start, dir, stuck, k) && NoneFits(start, k, need, figures)
    requires k < |ByAge(start, KeptIds(start))| && !Fits(figures(k + 1, dir), need)
    ensures NoneFits(start, k + 1, need, figures)
  {
    hide ByAge, KeptIds, Fits, Without, AllRemovable, Among;
  }

  lemma ShrinksReflexively(d: Disk)
    ensures Shrinks(d, d)
  {
  }

  /** Delete kept failures oldest first until `need` fits or there are none. */
  method ReclaimKept(pool: Pool, need: nat, figures: Figures) returns (fits: bool, k: nat)
    requires AllRemovable(pool.disk.dir, pool.stuck)
    modifies pool
    ensures HasTaken(old(pool.disk.dir), pool.disk.dir, pool.stuck, k)
    ensures NoneFits(old(pool.disk.dir), k, need, figures)
    ensures fits == Fits(figures(k + 1, pool.disk.dir), need)
    ensures !fits ==> k == |ByAge(old(pool.disk.dir), KeptIds(old(pool.disk.dir)))|
    ensures Shrinks(old(pool.disk), pool.disk)
  {
    hide HasTaken, NoneFits, Shrinks, ByAge, KeptIds, AllRemovable, Fits;
    ghost var start := pool.disk;
    ghost var order := ByAge(start.dir, KeptIds(start.dir));
    k := 0;
    NoneTakenYet(start.dir, pool.stuck);
    NoneFitsYet(start.dir, need, figures);
    ShrinksReflexively(start);
    var more := true;
    while more
      invariant HasTaken(start.dir, pool.disk.dir, pool.stuck, k)
      invariant NoneFits(start.dir, k, need, figures)
      invariant Shrinks(start, pool.disk)
      invariant !more ==> k == |order| && !Fits(figures(k + 1, pool.disk.dir), need)
      decreases |order| - k, more
    {
      if Fits(figures(k + 1, pool.disk.dir), need) {
        return true, k;
      }
      ghost var before := pool.disk;
      more := RemoveOldestKept(pool, start.dir, k);
      if more {
        OneMoreDoesNotFit(start.dir, before.dir, pool.stuck, k, need, figures);
        ShrinksTransitively(start, before, pool.disk);
        k := k + 1;
      }
    }
    fits := false;
  }

  /** Make room for a build that may use `need` bytes: kept failures oldest first, then the
      previous base, until it fits or nothing is left to take. Requires what termination needs:
      see `StopsForEveryNeed`. */
  method ReclaimRoom(pool: Pool, need: nat, figures: Figures) returns (k: nat)
    requires AllRemovable(pool.disk.dir, pool.stuck)
    modifies pool
    ensures IsReclaimed(old(pool.disk.dir), pool.disk.dir, need, figures, pool.stuck, k)
    ensures Shrinks(old(pool.disk), pool.disk)
  {
    if Fits(figures(0, pool.disk.dir), need) {
      return 0;
    }
    var fits;
    fits, k := ReclaimKept(pool, need, figures);
    if !fits {
      ghost var before := pool.disk;
      pool.RemoveVolumes({PREV}, None);
      ShrinksTransitively(old(pool.disk), before, pool.disk);
    }
  }

  /** In figures: with every reading limited, nothing is taken exactly when what is used and what is
      needed are within the limit at once; and in the end they are at the last reading made, or no
      kept failure is left and the previous base is gone or cannot be deleted. */
  lemma ReclaimedInFigures(dir: Dir, dir': Dir, need: nat, figures: Figures, stuck: set<Name>, k: nat, limit: nat)
    requires AllRemovable(dir, stuck) && IsReclaimed(dir, dir', need, figures, stuck, k) && limit < U64_MAX
    requires forall i, d :: figures(i, d).Some? && figures(i, d).value.limit == Some(limit)
    ensures figures(0, dir).value.used + need <= limit ==> dir' == dir
    ensures figures(0, dir).value.used + need > limit ==>
      || figures(k + 1, dir').value.used + need <= limit
      || (KeptIds(dir') == {} && (PREV !in dir' || PREV in stuck))
    ensures forall j :: 0 <= j < k ==>
      figures(j + 1, Without(dir, ByAge(dir, KeptIds(dir)), j)).value.used + need > limit
    ensures PREV in dir && PREV !in dir' ==> KeptIds(dir') == {}
    ensures forall n :: n in dir && n != PREV && !IsKept(n) ==> n in dir' && dir'[n] == dir[n]
  {
    hide EntryOf, ByAge, AllRemovable;
    forall i, d
      ensures Fits(figures(i, d), need) <==> figures(i, d).value.used + need <= limit
    {
      FitsExactlyWhen(figures(i, d), need);
    }
    if !Fits(figures(0, dir), need) && !Fits(figures(k + 1, Without(dir, ByAge(dir, KeptIds(dir)), k)), need) {
      AllGone(dir, stuck, k);
      KeptIdsWithoutPrev(Without(dir, ByAge(dir, KeptIds(dir)), k), {PREV} - stuck);
    }
    assert forall n :: n in KeptNames(Among(ByAge(dir, KeptIds(dir)), k)) ==> IsKept(n);
  }

  lemma {:induction false} TakenAll(dir: Dir, stuck: set<Name>, k: nat)
    requires AllRemovable(dir, stuck) && k <= |ByAge(dir, KeptIds(dir))|
    ensures HasTaken(dir, Without(dir, ByAge(dir, KeptIds(dir)), k), stuck, k)
  {
    hide EntryOf;
    if k == 0 {
      NoneTakenYet(dir, stuck);
    } else {
      TakenAll(dir, stuck, k - 1);
      var order := ByAge(dir, KeptIds(dir));
      var before := Without(dir, order, k - 1);
      ByAgeIsSorted(dir, KeptIds(dir));
      Listed(order, KeptIds(dir), k - 1);
      assert order[k - 1] in KeptIds(before);
      var id := Oldest(before, KeptIds(before));
      TakeOne(dir, before, stuck, k - 1, id);
    }
  }

  lemma AllGone(dir: Dir, stuck: set<Name>, k: nat)
    requires AllRemovable(dir, stuck) && k == |ByAge(dir, KeptIds(dir))|
    ensures KeptIds(Without(dir, ByAge(dir, KeptIds(dir)), k)) == {}
  {
    TakenAll(dir, stuck, k);
    AllTaken(dir, Without(dir, ByAge(dir, KeptIds(dir)), k), stuck, k);
  }

  lemma KeptIdsWithoutPrev(dir: Dir, names: set<Name>)
    requires KeptIds(dir) == {}
    ensures KeptIds(dir - names) == {}
  {
    hide EntryOf;
    assert KeptIds(dir - names) <= KeptIds(dir);
  }

  /** One round of the loop, with this reading and whatever deletions take effect: `None` when it
      returns. */
  ghost function Round(dir: Dir, need: nat, usage: Option<Usage>, stuck: set<Name>): Option<Dir> {
    if Fits(usage, need) then None
    else if KeptIds(dir) != {} then Some(dir - (KeptNames({Oldest(dir, KeptIds(dir))}) - stuck))
    else if PREV in dir && PREV !in stuck then Some(dir - {PREV})
    else None
  }

  /** The loop, about to read for the `read`-th time, returns within `rounds` rounds. */
  ghost predicate Stops(dir: Dir, need: nat, figures: Figures, stuck: set<Name>, read: nat, rounds: nat)
    decreases rounds
  {
    var r := Round(dir, need, figures(read, dir), stuck);
    r.None? || (rounds > 0 && Stops(r.value, need, figures, stuck, read + 1, rounds - 1))
  }

  ghost predicate ComesToAnEnd(dir: Dir, need: nat, figures: Figures, stuck: set<Name>) {
    Fits(figures(0, dir), need) || exists rounds :: Stops(dir, need, figures, stuck, 1, rounds)
  }

  lemma {:induction false} RemovableStops(dir: Dir, need: nat, figures: Figures, stuck: set<Name>, read: nat)
    requires AllRemovable(dir, stuck)
    ensures Stops(dir, need, figures, stuck, read, |dir|)
    decreases |dir|
  {
    hide EntryOf;
    var r := Round(dir, need, figures(read, dir), stuck);
    if r.Some? {
      var gone: Name;
      if KeptIds(dir) != {} {
        var id := Oldest(dir, KeptIds(dir));
        RemovingOne(dir, stuck, id);
        gone :| gone in dir && IsKept(gone) && Parsed(gone).value.id == id;
      } else {
        gone := PREV;
      }
      assert AllRemovable(r.value, stuck);
      assert r.value.Keys <= dir.Keys - {gone};
      hide AllRemovable;
      Smaller(r.value.Keys, dir.Keys, gone);
      RemovableStops(r.value, need, figures, stuck, read + 1);
      StopsLater(r.value, need, figures, stuck, read + 1, |r.value|, |dir| - 1);
    }
  }

  lemma Smaller(a: set<Name>, b: set<Name>, x: Name)
    requires a <= b - {x} && x in b
    ensures |a| < |b|
  {
    SubsetSize(a, b - {x});
  }

  lemma {:induction false} SubsetSize(a: set<Name>, b: set<Name>)
    requires a <= b
    ensures |a| <= |b|
  {
    if a != {} {
      var x :| x in a;
      SubsetSize(a - {x}, b - {x});
    }
  }

  lemma {:induction false} StopsLater(dir: Dir, need: nat, figures: Figures, stuck: set<Name>, read: nat,
                                      m: nat, n: nat)
    requires m <= n && Stops(dir, need, figures, stuck, read, m)
    ensures Stops(dir, need, figures, stuck, read, n)
    decreases m
  {
    hide EntryOf, Round;
    var r := Round(dir, need, figures(read, dir), stuck);
    if r.Some? {
      StopsLater(r.value, need, figures, stuck, read + 1, m - 1, n - 1);
    }
  }

  lemma {:induction false} AStuckEntryNeverStops(dir: Dir, need: nat, figures: Figures, stuck: set<Name>, n: Name,
                                                 read: nat, rounds: nat)
    requires n in dir && IsKept(n) && (n in stuck || n !in KeptNames({Parsed(n).value.id}))
    requires forall i, d :: !Fits(figures(i, d), need)
    ensures !Stops(dir, need, figures, stuck, read, rounds)
    decreases rounds
  {
    hide EntryOf;
    assert Parsed(n).value.id in KeptIds(dir);
    var r := Round(dir, need, figures(read, dir), stuck);
    var oldest := Oldest(dir, KeptIds(dir));
    assert n in KeptNames({oldest}) ==> Parsed(n).value.id == oldest;
    assert n in r.value;
    if rounds > 0 {
      AStuckEntryNeverStops(r.value, need, figures, stuck, n, read + 1, rounds - 1);
    }
  }

  /** With a limit in force, making room comes to an end whatever is asked for and whatever is read
      meanwhile exactly when every entry of every kept failure can be removed by removing that
      failure. One that cannot -- a deletion that keeps failing, or a stray such as `kept-5.lock` --
      makes it go on forever. */
  lemma StopsForEveryNeed(dir: Dir, figures: Figures, stuck: set<Name>, limit: nat)
    requires limit < U64_MAX
    requires forall i, d :: figures(i, d).Some? && figures(i, d).value.limit == Some(limit)
    ensures (forall need :: ComesToAnEnd(dir, need, figures, stuck)) <==> AllRemovable(dir, stuck)
  {
    hide EntryOf;
    if AllRemovable(dir, stuck) {
      forall need
        ensures ComesToAnEnd(dir, need, figures, stuck)
      {
        RemovableStops(dir, need, figures, stuck, 1);
      }
    } else {
      var n :| n in dir && IsKept(n) && (n in stuck || n !in KeptNames({Parsed(n).value.id}));
      var need := limit + 1;
      forall rounds
        ensures !Stops(dir, need, figures, stuck, 1, rounds)
      {
        AStuckEntryNeverStops(dir, need, figures, stuck, n, 1, rounds);
      }
      assert !ComesToAnEnd(dir, need, figures, stuck);
    }
  }
}
