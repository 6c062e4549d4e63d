/** Taking builds down: release, keep, expiry, the sweep and the group tidy, all working from
    the names on disk alone. */
module Teardown {
  import opened Decimal
  import opened Names
  import opened PoolDisk
  import opened Refresh

  /** The last instant `SystemTime` can hold. */
  const MAX_TIME: nat := 0x7FFF_FFFF_FFFF_FFFF

  const LOCK := Own(DevtoolsLock)

  /** What removing a build takes with it. */
  function JobNames(ids: set<BuildId>): set<Name> {
    set id, part | id in ids && part in {Chroot, Data, Lock} :: Own(Job(id, part))
  }

  /** What removing a kept failure takes with it. */
  function KeptNames(ids: set<BuildId>): set<Name> {
    set id, part | id in ids && part in {Chroot, Data, Tree} :: Own(Kept(id, part))
  }

  /** What a build's parts are called, and a kept failure's. */
  lemma PartsByName(id: BuildId)
    ensures JobNames({id}) == {Own(Job(id, Chroot)), Own(Job(id, Data)), Own(Job(id, Lock))}
    ensures KeptNames({id}) == {Own(Kept(id, Chroot)), Own(Kept(id, Data)), Own(Kept(id, Tree))}
  {
  }

  predicate IsJob(n: Name) {
    Parsed(n).Some? && Parsed(n).value.Job?
  }

  predicate IsKept(n: Name) {
    Parsed(n).Some? && Parsed(n).value.Kept?
  }

  /** Builds running or left by a crash, by their entries. */
  function LiveIds(dir: Dir): set<BuildId> {
    set n | n in dir && IsJob(n) :: Parsed(n).value.id
  }

  /** Kept failures, by their entries. */
  function KeptIds(dir: Dir): set<BuildId> {
    set n | n in dir && IsKept(n) :: Parsed(n).value.id
  }

  /** Whether a kept failure still has time left: its chroot's time plus the keep is an instant
      the clock can hold, and later than now. */
  predicate HasTimeLeft(dir: Dir, id: BuildId, keep: Option<nat>, now: nat) {
    && keep.Some?
    && Own(Kept(id, Chroot)) in dir
    && now < dir[Own(Kept(id, Chroot))].mtime + keep.value <= MAX_TIME
  }

  function Overdue(ids: set<BuildId>, dir: Dir, keep: Option<nat>, now: nat): set<BuildId> {
    set id | id in ids && !HasTimeLeft(dir, id, keep, now)
  }

  function Expired(dir: Dir, keep: Option<nat>, now: nat): set<BuildId> {
    Overdue(KeptIds(dir), dir, keep, now)
  }

  /** What recovery of an interrupted refresh makes of the directory; `stuck` names cannot be
      deleted now. */
  function RecoveredDir(dir: Dir, readable: bool, stuck: set<Name>): Dir {
    if NEXT !in dir then dir
    else
      var verdict := if readable && ROOT in dir then ClassifyNext(Some(dir[ROOT]), Some(dir[NEXT])) else Unknown;
      if verdict != Previous then dir - ({NEXT} - stuck)
      else if PREV in dir && PREV in stuck then dir
      else (dir - {NEXT, PREV})[PREV := dir[NEXT]]
  }

  /** A name the sweep removes, whatever else it does. `job-<id>.build` and `kept-<id>.lock`
      are names nothing makes and nothing removes. */
  predicate IsSwept(dir: Dir, n: Name, keep: set<BuildId>, keepFailed: Option<nat>, now: nat) {
    && n.Own?
    && match n.entry
       case Job(id, part) => part != Tree && (id in KeptIds(dir) || id !in keep)
       case Kept(id, part) => part != Lock && !HasTimeLeft(dir, id, keepFailed, now)
       case DevtoolsLock => true
       case _ => false
  }

  /** The directory after a sweep, before it looks at the base. */
  function SweptDir(dir: Dir, keep: set<BuildId>, keepFailed: Option<nat>, now: nat, stuck: set<Name>): Dir {
    map n | n in dir && (n in stuck || !IsSwept(dir, n, keep, keepFailed, now)) :: dir[n]
  }

  /** Nothing new, and every volume still there as well off as it was: same identity, same time,
      still in its group, that group still in the total, and so is what was there directly. */
  ghost predicate Shrinks(d: Disk, d': Disk) {
    && d'.ids == d.ids && d'.now == d.now
    && (forall n :: n in d'.dir && n !in {NEXT, PREV} ==> n in d.dir && d'.dir[n] == d.dir[n])
    && Live(d'.dir) <= Live(d.dir)
    && (forall uuid, id :: uuid in Live(d'.dir) && IsMember(d, uuid, id) ==> IsMember(d', uuid, id))
    && (forall uuid, id :: uuid in Live(d'.dir) && IsCounted(d, uuid, id) ==> IsCounted(d', uuid, id))
    && (forall uuid :: uuid in Live(d'.dir) && uuid in d.total ==> uuid in d'.total)
  }

  lemma ShrinksTransitively(a: Disk, b: Disk, c: Disk)
    requires Shrinks(a, b) && Shrinks(b, c)
    ensures Shrinks(a, c)
  {
  }

  /** The groups after a tidy, `freed` being the volumes whose own groups the cleaner is done
      with: orphans that have no member left go. */
  function Tidied(d: Disk, freed: set<nat>): Disk {
    var present := LiveIds(d.dir) + KeptIds(d.dir);
    if d.groups.Keys <= present then d
    else
      d.(
        groups := map id | id in d.groups && (id in present || d.groups[id].members - freed != {}) ::
          d.groups[id].(members := d.groups[id].members - freed),
        total := d.total - freed)
  }

  /** The groups without those of `ids` that have no member. */
  function WithoutEmpty(groups: map<BuildId, Group>, ids: set<BuildId>): map<BuildId, Group> {
    map id | id in groups && !(id in ids && groups[id].members == {}) :: groups[id]
  }

  function Cleared(groups: map<BuildId, Group>, freed: set<nat>): map<BuildId, Group> {
    map id | id in groups :: groups[id].(members := groups[id].members - freed)
  }

  /** What a sweep is called with, and what it meets: whether a refresh holds the lock, whether
      identities can be read, and which volumes the cleaner is done with when the groups are tidied
      and, `later`, when stale ones are cleared for the last time. */
  datatype SweepCall = SweepCall(
    keep: set<BuildId>,
    keepFailed: Option<nat>,
    locked: bool,
    readable: bool,
    freed: set<nat>,
    later: set<nat>)

  /** The builds a sweep removes: those with entries, and those only their groups remember. */
  function SweptBuilds(d: Disk, c: SweepCall): set<BuildId> {
    LiveIds(d.dir) + d.groups.Keys - KeptIds(d.dir) - c.keep
  }

  /** The directory after a sweep. */
  function FinalDir(d: Disk, c: SweepCall, stuck: set<Name>): Dir {
    var swept := SweptDir(d.dir, c.keep, c.keepFailed, d.now, stuck);
    if c.locked then swept else RecoveredDir(swept, c.readable, stuck)
  }

  /** The groups after a sweep. */
  function FinalGroups(d: Disk, c: SweepCall, stuck: set<Name>): map<BuildId, Group> {
    var tried := WithoutEmpty(d.groups, SweptBuilds(d, c) + Expired(d.dir, c.keepFailed, d.now));
    Cleared(Tidied(d.(dir := FinalDir(d, c, stuck), groups := tried), c.freed).groups, c.later)
  }

  /** The cleaner only gets further, and frees only what is gone. */
  ghost predicate IsPossible(d: Disk, c: SweepCall, stuck: set<Name>) {
    c.freed <= c.later && c.later !! Live(FinalDir(d, c, stuck))
  }

  /** What a sweep leaves. */
  ghost predicate IsSweepOf(d: Disk, d': Disk, c: SweepCall, stuck: set<Name>) {
    && IsPossible(d, c, stuck)
    && Shrinks(d, d')
    && d'.dir == FinalDir(d, c, stuck)
    && d'.groups == FinalGroups(d, c, stuck)
  }

  /** Builds with entries. */
  function Present(dir: Dir): set<BuildId> {
    LiveIds(dir) + KeptIds(dir)
  }

  /** Every group left belongs to a build with entries, or still has a member. */
  ghost predicate NoEmptyOrphans(d: Disk) {
    forall id :: id in d.groups ==> id in Present(d.dir) || d.groups[id].members != {}
  }

  lemma Beyond(a: set<nat>, b: set<nat>)
    ensures a - b == {} <==> a <= b
  {
    assert forall x :: x in a && x !in b ==> x in a - b;
  }

  /** A group whose build has no entries left goes exactly when the cleaner was done with all its
      volumes by the time of the tidy -- those this very sweep deleted included. */
  lemma OrphanGroups(d: Disk, d': Disk, c: SweepCall, stuck: set<Name>, id: BuildId)
    requires IsSweepOf(d, d', c, stuck) && id !in Present(d'.dir)
    ensures id in d'.groups <==> id in d.groups && !(d.groups[id].members <= c.freed)
    ensures id in d'.groups ==> d'.groups[id].members == d.groups[id].members - c.later
  {
    hide EntryOf, LiveIds, KeptIds, FinalDir, SweptBuilds, Expired, Shrinks;
    var tried := WithoutEmpty(d.groups, SweptBuilds(d, c) + Expired(d.dir, c.keepFailed, d.now));
    var tidied := Tidied(d.(dir := d'.dir, groups := tried), c.freed).groups;
    assert d'.groups == Cleared(tidied, c.later);
    assert id in tried ==> id in d.groups && tried[id] == d.groups[id];
    assert id in tried ==> id !in LiveIds(d'.dir) + KeptIds(d'.dir);
    assert id in tidied <==> id in tried && tried[id].members - c.freed != {};
    if id in d.groups {
      Beyond(d.groups[id].members, c.freed);
    }
  }

  /** A group whose build has entries left stays as it is, but for what the cleaner is done with --
      unless it was empty and the build was removed or expired with it. */
  lemma PresentGroups(d: Disk, d': Disk, c: SweepCall, stuck: set<Name>, id: BuildId)
    requires IsSweepOf(d, d', c, stuck) && id in Present(d'.dir) && id in d.groups
    requires d.groups[id].members != {} || (id in c.keep && id !in KeptIds(d.dir))
    ensures id in d'.groups && d'.groups[id] == d.groups[id].(members := d.groups[id].members - c.later)
  {
    hide EntryOf, LiveIds, KeptIds, FinalDir, Shrinks;
    var removed := SweptBuilds(d, c) + Expired(d.dir, c.keepFailed, d.now);
    var tried := WithoutEmpty(d.groups, removed);
    assert id in removed ==> d.groups[id].members != {};
    assert id in tried && tried[id] == d.groups[id];
    var tidied := Tidied(d.(dir := d'.dir, groups := tried), c.freed).groups;
    assert id in tidied;
    assert tidied[id] == tried[id] || tidied[id] == tried[id].(members := tried[id].members - c.freed);
    assert d.groups[id].members - c.freed - c.later == d.groups[id].members - c.later;
  }

  /** Tidying goes by what has entries: where no group is an orphan it leaves everything alone, and a
      group whose build has entries, empty or not, it never destroys. */
  lemma TidyingSparesTheLiving(d: Disk, freed: set<nat>)
    ensures d.groups.Keys <= Present(d.dir) ==> Tidied(d, freed) == d
    ensures forall id :: id in d.groups && id in Present(d.dir) ==> id in Tidied(d, freed).groups
    ensures forall id :: id in Tidied(d, freed).groups && id !in Present(d.dir) ==>
      Tidied(d, freed).groups[id].members != {}
  {
    hide EntryOf, LiveIds, KeptIds;
  }

  /** What a sweep reports: the builds that have an entry or a group, are not kept and not to be kept,
      and the kept failures without time left. */
  lemma SweptBuildsAre(d: Disk, c: SweepCall, id: BuildId)
    ensures id in SweptBuilds(d, c) <==>
      && (id in d.groups || exists n :: n in d.dir && IsJob(n) && Parsed(n).value.id == id)
      && id !in c.keep
      && forall n :: n in d.dir && IsKept(n) ==> Parsed(n).value.id != id
  {
    hide EntryOf;
    assert id in LiveIds(d.dir) <==> exists n :: n in d.dir && IsJob(n) && Parsed(n).value.id == id;
    assert id in KeptIds(d.dir) <==> exists n :: n in d.dir && IsKept(n) && Parsed(n).value.id == id;
  }

  /** So no empty orphan is left exactly when the cleaner did not finish with one between the tidy
      and the last clearing. */
  lemma NoEmptyOrphansExactlyWhen(d: Disk, d': Disk, c: SweepCall, stuck: set<Name>)
    requires IsSweepOf(d, d', c, stuck)
    ensures NoEmptyOrphans(d') <==>
      forall id :: id in d.groups && id !in Present(FinalDir(d, c, stuck)) && d.groups[id].members <= c.later ==>
        d.groups[id].members <= c.freed
  {
    assert d'.dir == FinalDir(d, c, stuck);
    hide EntryOf, IsSweepOf, Present, FinalDir;
    forall id: BuildId | id !in Present(d'.dir)
      ensures id in d'.groups <==> id in d.groups && !(d.groups[id].members <= c.freed)
      ensures id in d'.groups ==> (d'.groups[id].members == {} <==> d.groups[id].members <= c.later)
    {
      OrphanGroups(d, d', c, stuck, id);
      if id in d'.groups {
        Beyond(d.groups[id].members, c.later);
      }
    }
  }

  /** It can finish then: the group of a build long gone, its one volume freed in between, is
      emptied by the last clearing and stays. */
  lemma AGroupFreedInBetweenOutlivesTheSweep()
    ensures
      var d := Disk(map[], map[5 := Group({7}, true, None)], {}, {7}, 0);
      var d' := d.(groups := map[5 := Group({}, true, None)]);
      IsSweepOf(d, d', SweepCall({}, None, true, true, {}, {7}), {}) && !NoEmptyOrphans(d')
  {
    hide EntryOf;
    var d := Disk(map[], map[5 := Group({7}, true, None)], {}, {7}, 0);
    var c := SweepCall({}, None, true, true, {}, {7});
    assert FinalDir(d, c, {}) == map[];
    assert LiveIds(map[]) == {} == KeptIds(map[]);
    assert WithoutEmpty(d.groups, SweptBuilds(d, c) + Expired(d.dir, None, 0)) == d.groups;
    assert 5 in d.groups.Keys && {7} - {} == {7} && {7} - {7} == {};
    assert Tidied(d, {}).groups == d.groups;
    assert d.(dir := map[], groups := d.groups) == d;
    assert FinalGroups(d, c, {}) == map[5 := Group({}, true, None)];
  }

  lemma PresentShrinks(d: Disk, d': Disk)
    requires Shrinks(d, d')
    ensures Present(d'.dir) <= Present(d.dir)
  {
    hide EntryOf;
    assert forall n :: n in d'.dir && (IsJob(n) || IsKept(n)) ==> n !in {NEXT, PREV} && n in d.dir;
  }

  /** No entries, and nothing in the group if there is one. */
  ghost predicate IsSpent(d: Disk, id: BuildId) {
    id !in Present(d.dir) && (id in d.groups ==> d.groups[id].members == {})
  }

  /** A command that gives a build no entry and its group no member. */
  predicate LeavesSpent(c: Command, id: BuildId) {
    && (forall n :: n in PutsAt(c) && (IsJob(n) || IsKept(n)) ==> Parsed(n).value.id != id)
    && (c.Assign? ==> c.id != id)
  }

  /** The disk after commands, each of which may be refused. */
  function ExecAll(d: Disk, commands: seq<Command>): Disk {
    if commands == [] then d
    else
      var before := ExecAll(d, commands[..|commands| - 1]);
      var r := Exec(before, commands[|commands| - 1]);
      if r.Some? then r.value else before
  }

  lemma ExecLeavesSpent(d: Disk, c: Command, id: BuildId)
    requires IsSpent(d, id) && LeavesSpent(c, id) && Exec(d, c).Some?
    ensures IsSpent(Exec(d, c).value, id)
  {
    hide EntryOf;
    var d' := Exec(d, c).value;
    forall n | n in d'.dir && (IsJob(n) || IsKept(n))
      ensures Parsed(n).value.id != id
    {
      assert n in PutsAt(c) || n in d.dir;
      assert n in d.dir ==> Parsed(n).value.id in Present(d.dir);
    }
    assert id !in Present(d'.dir);
    assert id in d'.groups ==> d'.groups[id].members == {};
  }

  lemma {:induction false} ExecAllLeavesSpent(d: Disk, commands: seq<Command>, id: BuildId)
    requires IsSpent(d, id) && forall c :: c in commands ==> LeavesSpent(c, id)
    ensures IsSpent(ExecAll(d, commands), id)
  {
    hide IsSpent, LeavesSpent, Exec;
    if commands != [] {
      var front, c := commands[..|commands| - 1], commands[|commands| - 1];
      ExecAllLeavesSpent(d, front, id);
      if Exec(ExecAll(d, front), c).Some? {
        ExecLeavesSpent(ExecAll(d, front), c, id);
      }
    }
  }

  /** It does not outlive the next one, whatever is done in between that does not bring the build
      back, and whichever deletions take effect either time. */
  lemma TheNextSweepDestroysIt(d: Disk, d': Disk, commands: seq<Command>, d'': Disk, c: SweepCall, c': SweepCall,
                               stuck: set<Name>, stuck': set<Name>, id: BuildId)
    requires IsSweepOf(d, d', c, stuck) && IsSweepOf(ExecAll(d', commands), d'', c', stuck')
    requires id !in Present(d'.dir) && (id in d.groups ==> d.groups[id].members <= c.later)
    requires forall x :: x in commands ==> LeavesSpent(x, id)
    ensures id !in d''.groups
  {
    hide EntryOf, Shrinks, FinalDir, FinalGroups, Present, LeavesSpent, ExecAll;
    OrphanGroups(d, d', c, stuck, id);
    ExecAllLeavesSpent(d', commands, id);
    PresentShrinks(ExecAll(d', commands), d'');
    OrphanGroups(ExecAll(d', commands), d'', c', stuck', id);
  }

  /** After a sweep whose deletions take effect nothing is left of a build that is neither in
      `keep` nor kept, and no `job-` part beside one that is kept -- provided, and only provided,
      that each of its entries is under one of the names the pool itself gives. */
  lemma SweepLeavesNothingOf(d: Disk, d': Disk, c: SweepCall, id: BuildId)
    requires IsSweepOf(d, d', c, {})
    requires id !in c.keep || id in KeptIds(d.dir)
    ensures id !in LiveIds(d'.dir) <==>
      forall n :: n in d.dir && IsJob(n) && Parsed(n).value.id == id ==>
        n in {Own(Job(id, Chroot)), Own(Job(id, Data)), Own(Job(id, Lock))}
  {
    hide EntryOf;
    PartsByName(id);
    SweptOutsideBase(d, d', c);
    forall n | n in d.dir && IsJob(n) && Parsed(n).value.id == id
      ensures n in d'.dir <==> n !in JobNames({id})
    {
      assert n.Own? ==> (n in JobNames({id}) <==> n.entry.part in {Chroot, Data, Lock});
    }
    forall n | n in d'.dir && IsJob(n) && Parsed(n).value.id == id
      ensures n in d.dir
    {
      assert n !in {NEXT, PREV};
    }
  }

  /** devtools' leftover lock goes with them. */
  lemma TheLeftoverLockGoes(d: Disk, d': Disk, c: SweepCall)
    requires IsSweepOf(d, d', c, {})
    ensures Own(DevtoolsLock) !in d'.dir
  {
    hide EntryOf;
    SweptOutsideBase(d, d', c);
  }

  /** And something is left of a kept failure exactly when it has time left or an entry under a name
      that removing it does not delete. */
  lemma SweepLeavesOfAKept(d: Disk, d': Disk, c: SweepCall, id: BuildId)
    requires IsSweepOf(d, d', c, {})
    ensures id in KeptIds(d'.dir) <==>
      || HasTimeLeft(d.dir, id, c.keepFailed, d.now)
      || exists n :: n in d.dir && IsKept(n) && Parsed(n).value.id == id &&
           n !in {Own(Kept(id, Chroot)), Own(Kept(id, Data)), Own(Kept(id, Tree))}
  {
    hide EntryOf;
    PartsByName(id);
    SweptOutsideBase(d, d', c);
    forall n | IsKept(n) && Parsed(n).value.id == id
      ensures n in d'.dir <==>
        n in d.dir && (HasTimeLeft(d.dir, id, c.keepFailed, d.now) || n !in KeptNames({id}))
    {
      assert n !in {NEXT, PREV};
      assert n.Own? ==> (n in KeptNames({id}) <==> n.entry.part in {Chroot, Data, Tree});
    }
    if HasTimeLeft(d.dir, id, c.keepFailed, d.now) {
      assert IsKept(Own(Kept(id, Chroot))) && Own(Kept(id, Chroot)) in d'.dir;
    }
  }

  /** What a sweep is to spare: parts of running builds, kept failures with time left, the base, the
      refresh's lock, and whatever is not the pool's. */
  predicate IsSpared(d: Disk, c: SweepCall, n: Name) {
    match Parsed(n)
    case Some(Job(id, _)) => id in c.keep && id !in KeptIds(d.dir)
    case Some(Kept(id, _)) => HasTimeLeft(d.dir, id, c.keepFailed, d.now)
    case Some(Base(kind)) => kind == Root
    case Some(DevtoolsLock) => false
    case _ => true
  }

  /** All of that stays as it is. */
  lemma SweepKeepsWhatItShould(d: Disk, d': Disk, c: SweepCall, n: Name)
    requires IsSweepOf(d, d', c, {})
    ensures n in d.dir && IsSpared(d, c, n) ==> n in d'.dir && d'.dir[n] == d.dir[n]
  {
    hide EntryOf;
    SweptOutsideBase(d, d', c);
    if n in d.dir && IsSpared(d, c, n) {
      assert n !in {NEXT, PREV};
    }
  }

  /** What a sweep does to the base: nothing while a refresh holds the lock, and nothing where no
      refresh left anything; otherwise `root.next` goes -- to `root.prev` when it can be read to be the
      base `root` was snapshotted from, and for good when not. */
  lemma SweepOfTheBase(d: Disk, d': Disk, c: SweepCall, stuck: set<Name>)
    requires IsSweepOf(d, d', c, stuck)
    ensures Get(d'.dir, ROOT) == Get(d.dir, ROOT)
    ensures c.locked || NEXT !in d.dir ==>
      Get(d'.dir, NEXT) == Get(d.dir, NEXT) && Get(d'.dir, PREV) == Get(d.dir, PREV)
    ensures !c.locked && NEXT in d.dir && {NEXT, PREV} !! stuck ==>
      var retired :=
        && c.readable && ROOT in d.dir
        && d.dir[ROOT].parent == Some(d.dir[NEXT].uuid) && d.dir[NEXT].parent != Some(d.dir[ROOT].uuid);
      NEXT !in d'.dir && Get(d'.dir, PREV) == if retired then Get(d.dir, NEXT) else Get(d.dir, PREV)
  {
    hide EntryOf, Shrinks, FinalGroups;
    var swept := SweptDir(d.dir, c.keep, c.keepFailed, d.now, stuck);
    assert forall n :: n in {ROOT, NEXT, PREV} ==> Get(swept, n) == Get(d.dir, n);
  }

  /** So a sweep that gets the lock leaves the base as a recovery of the refresh's own does, however
      often that is interrupted, but for what another task took for room meanwhile. */
  lemma SweepRecoversAsTheRefreshDoes(s: State, events: seq<Event>, d': Disk, c: SweepCall)
    requires Refresh.Invariant(s) && s.pc == Idle && IsRecoveryRun(s, events) && Refresh.Run(s, events).pc == Recovered
    requires IsSweepOf(s.disk, d', c, {}) && !c.locked && c.readable
    ensures var dir := Refresh.Run(s, events).disk.dir;
      && Get(d'.dir, ROOT) == Get(dir, ROOT) && Get(d'.dir, NEXT) == Get(dir, NEXT)
      && IsOrTaken(events, Get(dir, PREV), Get(d'.dir, PREV))
  {
    RecoveryConverges(s, events);
    SweepOfTheBase(s.disk, d', c, {});
    hide IsSweepOf, Refresh.Run;
  }

  lemma SweptOutsideBase(d: Disk, d': Disk, c: SweepCall)
    requires IsSweepOf(d, d', c, {})
    ensures forall n :: n !in {NEXT, PREV} ==>
      (n in d'.dir <==> n in d.dir && !IsSwept(d.dir, n, c.keep, c.keepFailed, d.now))
  {
  }

  /** `job-5.build` is a build's name to the parser, and no part of a build to the remover: a
      sweep never gets rid of it. */
  lemma AStrayNameOutlivesEverySweep(keepFailed: Option<nat>, stuck: set<Name>)
    ensures var stray := Own(Job(5, Tree));
      SweptDir(map[stray := Node(0, None, 0)], {}, keepFailed, 0, stuck) == map[stray := Node(0, None, 0)]
  {
  }

  /** The commands of a keep that can fail. */
  datatype KeepOp = TouchChroot | RenameChroot | RenameData | MoveTree | MakePrivate

  /** A build has both its volumes, and nothing is in the way of keeping them. */
  predicate CanKeep(dir: Dir, id: BuildId) {
    && Own(Job(id, Chroot)) in dir && Own(Job(id, Data)) in dir
    && Own(Kept(id, Chroot)) !in dir && Own(Kept(id, Data)) !in dir
  }

  /** What a keep does before anything is kept, in this order: the touch first, so that a kept chroot
      is never seen with the build's old time. */
  function KeepCommands(id: BuildId): seq<Command> {
    [
      Touch(Own(Job(id, Chroot))),
      Rename(Own(Job(id, Chroot)), Own(Kept(id, Chroot))),
      Rename(Own(Job(id, Data)), Own(Kept(id, Data)))
    ]
  }

  /** The disk after one, two and three of them, each on the one before. */
  lemma FirstCommands(d: Disk, id: BuildId)
    ensures ExecAll(d, KeepCommands(id)[..0]) == d
    ensures forall k :: 0 <= k < 3 ==>
      var before := ExecAll(d, KeepCommands(id)[..k]);
      var r := Exec(before, KeepCommands(id)[k]);
      ExecAll(d, KeepCommands(id)[..k + 1]) == if r.Some? then r.value else before
  {
    hide Exec;
    forall k | 0 <= k < 3
      ensures KeepCommands(id)[..k + 1][..k] == KeepCommands(id)[..k]
    {
    }
  }

  class Pool {
    var disk: Disk
    /** Names whose deletion does not take effect now. */
    const stuck: set<Name>

    constructor (d: Disk, stuckNames: set<Name>)
      ensures disk == d && stuck == stuckNames
    {
      disk, stuck := d, stuckNames;
    }

    /** Delete subvolumes and a lock, then the group if it is empty by then. */
    method RemoveVolumes(names: set<Name>, group: Option<BuildId>)
      modifies this
      ensures disk.dir == old(disk.dir) - (names - stuck)
      ensures disk.groups == WithoutEmpty(old(disk.groups), if group.Some? then {group.value} else {})
      ensures forall id :: id in disk.groups <==>
        id in old(disk.groups) && !(group == Some(id) && old(disk.groups)[id].members == {})
      ensures Shrinks(old(disk), disk)
    {
      disk := disk.(dir := disk.dir - (names - stuck));
      if group.Some? {
        match Exec(disk, GroupDestroy(group.value))
        case Some(d) => disk := d;
        case None =>
      }
    }

    /** Remove every build in `ids`, each with its group when `groups` says so. */
    method RemoveBuilds(ids: set<BuildId>, groups: bool)
      modifies this
      ensures disk.dir == old(disk.dir) - (JobNames(ids) - stuck)
      ensures disk.groups == WithoutEmpty(old(disk.groups), if groups then ids else {})
      ensures Shrinks(old(disk), disk)
    {
      var todo := ids;
      while todo != {}
        invariant todo <= ids
        invariant disk.dir == old(disk.dir) - (JobNames(ids - todo) - stuck)
        invariant disk.groups == WithoutEmpty(old(disk.groups), if groups then ids - todo else {})
        invariant Shrinks(old(disk), disk)
      {
        var id :| id in todo;
        ghost var before := disk;
        RemoveVolumes(JobNames({id}), if groups then Some(id) else None);
        ShrinksTransitively(old(disk), before, disk);
        assert JobNames(ids - todo) + JobNames({id}) == JobNames(ids - (todo - {id}));
        todo := todo - {id};
      }
      assert ids - todo == ids;
    }

    method RemoveKept(id: BuildId)
      modifies this
      ensures disk.dir == old(disk.dir) - (KeptNames({id}) - stuck)
      ensures disk.groups == WithoutEmpty(old(disk.groups), {id})
      ensures Shrinks(old(disk), disk)
    {
      RemoveVolumes(KeptNames({id}), Some(id));
    }

    /** Delete one kept failure unless it has time left. */
    method ExpireOne(id: BuildId, keep: Option<nat>) returns (removed: bool)
      modifies this
      ensures removed == !HasTimeLeft(old(disk.dir), id, keep, old(disk.now))
      ensures disk.dir == old(disk.dir) - (KeptNames(if removed then {id} else {}) - stuck)
      ensures disk.groups == WithoutEmpty(old(disk.groups), if removed then {id} else {}) && disk.now == old(disk.now)
      ensures Shrinks(old(disk), disk)
    {
      removed := !HasTimeLeft(disk.dir, id, keep, disk.now);
      if removed {
        RemoveKept(id);
      }
    }

    method ExpireAmong(ids: set<BuildId>, keep: Option<nat>) returns (removed: nat)
      modifies this
      ensures disk.dir == old(disk.dir) - (KeptNames(Overdue(ids, old(disk.dir), keep, old(disk.now))) - stuck)
      ensures disk.groups == WithoutEmpty(old(disk.groups), Overdue(ids, old(disk.dir), keep, old(disk.now)))
      ensures removed == |Overdue(ids, old(disk.dir), keep, old(disk.now))|
      ensures Shrinks(old(disk), disk)
    {
      var todo := ids;
      removed := 0;
      ghost var start := disk;
      ghost var gone := {};
      NothingGone(start, ids, keep, stuck);
      hide WithoutEmpty, HasTimeLeft, Overdue, KeptNames, Shrinks;
      while todo != {}
        invariant todo <= ids && gone == Overdue(ids - todo, start.dir, keep, start.now)
        invariant removed == |gone|
        invariant disk.dir == start.dir - (KeptNames(gone) - stuck)
        invariant disk.groups == WithoutEmpty(start.groups, gone) && disk.now == start.now
        invariant Shrinks(start, disk)
      {
        var id :| id in todo;
        OverdueStep(ids, start.dir, keep, start.now, todo, id);
        OthersKeepTheirTime(start.dir, gone, stuck, id, keep, start.now);
        ghost var before := disk;
        var taken := ExpireOne(id, keep);
        ShrinksTransitively(start, before, disk);
        ghost var more := if taken then {id} else {};
        KeptNamesAdd(start.dir, gone, more, stuck);
        WithoutEmptyAdd(start.groups, gone, more);
        gone := gone + more;
        todo, removed := todo - {id}, if taken then removed + 1 else removed;
      }
      assert ids - todo == ids;
    }

    /** Delete every kept failure past `keep`, or every one when keeping is off. */
    method ExpireKept(keep: Option<nat>) returns (removed: nat)
      modifies this
      ensures disk.dir == old(disk.dir) - (KeptNames(Expired(old(disk.dir), keep, old(disk.now))) - stuck)
      ensures disk.groups == WithoutEmpty(old(disk.groups), Expired(old(disk.dir), keep, old(disk.now)))
      ensures removed == |Expired(old(disk.dir), keep, old(disk.now))|
      ensures Shrinks(old(disk), disk)
    {
      removed := ExpireAmong(KeptIds(disk.dir), keep);
    }

    /** Rename a failed build's chroot and workdir to their kept names, the chroot touched first. */
    method RenameToKept(id: BuildId, failing: set<KeepOp>) returns (ok: bool, done: nat)
      modifies this
      ensures done <= 3 && disk == ExecAll(old(disk), KeepCommands(id)[..done]) && ok == (done == 3)
      ensures ok == (CanKeep(old(disk.dir), id) && failing !! {TouchChroot, RenameChroot, RenameData})
      ensures ok ==>
        var job, data := Own(Job(id, Chroot)), Own(Job(id, Data));
        disk == old(disk).(dir := (old(disk.dir) - {job, data})
          [Own(Kept(id, Chroot)) := old(disk.dir)[job].(mtime := old(disk.now))]
          [Own(Kept(id, Data)) := old(disk.dir)[data]])
      ensures disk.groups == old(disk.groups)
      ensures forall n :: n !in JobNames({id}) + KeptNames({id}) ==> Get(disk.dir, n) == Get(old(disk.dir), n)
    {
      ghost var start := disk;
      FirstCommands(start, id);
      done := 0;
      ok, disk := Attempt(disk, Touch(Own(Job(id, Chroot))), TouchChroot !in failing);
      if !ok {
        return;
      }
      done := 1;
      ok, disk := Attempt(disk, Rename(Own(Job(id, Chroot)), Own(Kept(id, Chroot))), RenameChroot !in failing);
      if !ok {
        return;
      }
      done := 2;
      ok, disk := Attempt(disk, Rename(Own(Job(id, Data)), Own(Kept(id, Data))), RenameData !in failing);
      if ok {
        done := 3;
      }
    }

    method RemoveEverything(id: BuildId)
      modifies this
      ensures disk.dir == old(disk.dir) - (JobNames({id}) + KeptNames({id}) - stuck)
    {
      RemoveBuilds({id}, true);
      RemoveKept(id);
    }

    /** Keep a failed build's volumes. `tree` is its persistent tree, when it has one; `inPool`
        says whether that is a path inside the pool; one that is not is refused outright, and the
        build released. On any other failure everything of the build goes, kept names included. */
    method KeepBuild(id: BuildId, tree: Option<Name>, inPool: bool, failing: set<KeepOp>)
        returns (kept: bool, moved: bool)
      requires tree.Some? ==> tree.value.Other?
      modifies this
      ensures kept <==>
        && (tree.None? || inPool) && CanKeep(old(disk.dir), id)
        && failing !! {TouchChroot, RenameChroot, RenameData, MakePrivate}
      ensures moved <==>
        && kept && tree.Some? && tree.value in old(disk.dir)
        && Own(Kept(id, Tree)) !in old(disk.dir) && MoveTree !in failing
      ensures kept ==>
        var job, data := Own(Job(id, Chroot)), Own(Job(id, Data));
        && Get(disk.dir, Own(Kept(id, Chroot))) == Some(old(disk.dir)[job].(mtime := old(disk.now)))
        && Get(disk.dir, Own(Kept(id, Data))) == Some(old(disk.dir)[data])
        && (forall n :: n in disk.dir && n in JobNames({id}) ==> n in stuck)
        && disk.groups == old(disk.groups)
      ensures moved ==>
        tree.value !in disk.dir && Get(disk.dir, Own(Kept(id, Tree))) == Get(old(disk.dir), tree.value)
      ensures kept && !moved ==>
        && Get(disk.dir, Own(Kept(id, Tree))) == Get(old(disk.dir), Own(Kept(id, Tree)))
        && (tree.Some? ==> Get(disk.dir, tree.value) == Get(old(disk.dir), tree.value))
      ensures !kept ==> (forall n :: n in disk.dir && n in JobNames({id}) ==> n in stuck)
      ensures !kept ==> if tree.Some? && !inPool
        then forall n :: n in KeptNames({id}) ==> Get(disk.dir, n) == Get(old(disk.dir), n)
        else forall n :: n in disk.dir && n in KeptNames({id}) ==> n in stuck
      ensures forall n :: n !in JobNames({id}) + KeptNames({id}) && Some(n) != tree ==>
        Get(disk.dir, n) == Get(old(disk.dir), n)
    {
      hide Shrinks;
      var renamed;
      kept, moved := false, false;
      if tree.Some? && !inPool {
        RemoveBuilds({id}, true);
        return;
      }
      kept, renamed := RenameToKept(id, failing);
      if kept && tree.Some? && tree.value in disk.dir {
        // A tree that cannot move stays out of the keep; that is not a failure.
        moved, disk := Attempt(disk, Rename(tree.value, Own(Kept(id, Tree))), MoveTree !in failing);
      }
      if !kept || MakePrivate in failing {
        RemoveEverything(id);
        return false, false;
      }
      RemoveVolumes({Own(Job(id, Lock))}, None);
    }

    /** Give a build's volumes back. */
    method Release(id: BuildId)
      modifies this
      ensures disk.dir == old(disk.dir) - (JobNames({id}) - stuck)
      ensures disk.groups == WithoutEmpty(old(disk.groups), {id})
      ensures id in disk.groups <==> id in old(disk.groups) && old(disk.groups)[id].members != {}
      ensures Shrinks(old(disk), disk)
    {
      RemoveBuilds({id}, true);
    }

    /** Destroy the groups of builds whose volumes are gone, once btrfs agrees they are empty. */
    method TidyGroups(freed: set<nat>)
      requires freed !! Live(disk.dir)
      modifies this
      ensures disk == Tidied(old(disk), freed)
      ensures Shrinks(old(disk), disk)
    {
      hide EntryOf;
      var present := LiveIds(disk.dir) + KeptIds(disk.dir);
      var orphans := disk.groups.Keys - present;
      TidyingShrinks(disk, freed);
      if orphans == {} {
        assert forall id :: id in disk.groups ==> id in orphans || id in present;
        return;
      }
      disk := Exec(disk, ClearStale(freed)).value;
      ghost var cleared := disk;
      var todo := orphans;
      assert cleared.groups == Tried(cleared.groups, present + todo);
      while todo != {}
        invariant todo <= orphans
        invariant disk == cleared.(groups := Tried(cleared.groups, present + todo))
      {
        var id :| id in todo;
        TryOne(disk, cleared.groups, present + todo, id);
        match Exec(disk, GroupDestroy(id)) {
          case Some(d) => disk := d;
          case None =>
        }
        assert present + todo - {id} == present + (todo - {id});
        todo := todo - {id};
      }
      assert disk.groups == Tidied(old(disk), freed).groups;
    }

    /** Finish an interrupted refresh, when none is running now. */
    method RecoverBase(readable: bool)
      modifies this
      ensures disk.dir == RecoveredDir(old(disk.dir), readable, stuck) && disk.groups == old(disk.groups)
      ensures Shrinks(old(disk), disk)
    {
      if NEXT !in disk.dir {
        return;
      }
      var verdict :=
        if readable && ROOT in disk.dir then ClassifyNext(Some(disk.dir[ROOT]), Some(disk.dir[NEXT])) else Unknown;
      if verdict != Previous {
        disk := disk.(dir := disk.dir - ({NEXT} - stuck));
        return;
      }
      if PREV in disk.dir {
        if PREV in stuck {
          return;
        }
        disk := disk.(dir := disk.dir - {PREV});
      }
      disk := Exec(disk, Rename(NEXT, PREV)).value;
      assert disk.dir == RecoveredDir(old(disk.dir), readable, stuck);
    }

    /** The sweep's builds, and what an interrupted keep left beside a kept one. */
    method SweepJobs(builds: set<BuildId>, kept: set<BuildId>)
      modifies this
      ensures Shrinks(old(disk), disk) && disk.now == old(disk.now)
      ensures disk.dir == old(disk.dir) - (JobNames(builds) - stuck) - (JobNames(kept) - stuck)
      ensures disk.groups == WithoutEmpty(old(disk.groups), builds)
    {
      hide Shrinks, WithoutEmpty, JobNames;
      ghost var start := disk;
      RemoveBuilds(builds, true);
      ghost var one := disk;
      // Beside a kept build: a keep interrupted between its two renames.
      RemoveBuilds(kept, false);
      ShrinksTransitively(start, one, disk);
      ShrinksKeepsTime(start, disk);
      WithoutEmptyAdd(start.groups, builds, {});
      assert builds + {} == builds;
    }

    /** Kept failures past their time, and devtools' lock. */
    method SweepKept(keepFailed: Option<nat>) returns (expired: nat)
      modifies this
      ensures Shrinks(old(disk), disk)
      ensures disk.dir ==
        old(disk.dir) - (KeptNames(Expired(old(disk.dir), keepFailed, old(disk.now))) - stuck) - ({LOCK} - stuck)
      ensures disk.groups == WithoutEmpty(old(disk.groups), Expired(old(disk.dir), keepFailed, old(disk.now)))
      ensures expired == |Expired(old(disk.dir), keepFailed, old(disk.now))|
    {
      hide Shrinks, WithoutEmpty, Expired, KeptNames;
      ghost var start := disk;
      ghost var gone := Expired(start.dir, keepFailed, start.now);
      expired := ExpireKept(keepFailed);
      ghost var one := disk;
      RemoveVolumes({LOCK}, None);
      ShrinksTransitively(start, one, disk);
      WithoutEmptyAdd(start.groups, gone, {});
      assert gone + {} == gone;
    }

    /** The sweep's builds, kept failures and leftover lock. */
    method SweepBuilds(c: SweepCall) returns (cleared: nat)
      modifies this
      ensures Shrinks(old(disk), disk)
      ensures disk.dir == SweptDir(old(disk.dir), c.keep, c.keepFailed, old(disk.now), stuck)
      ensures disk.groups ==
        WithoutEmpty(old(disk.groups), SweptBuilds(old(disk), c) + Expired(old(disk.dir), c.keepFailed, old(disk.now)))
      ensures cleared == |SweptBuilds(old(disk), c)| + |Expired(old(disk.dir), c.keepFailed, old(disk.now))|
    {
      hide Shrinks, WithoutEmpty, Expired, SweptDir, LiveIds, KeptIds, JobNames, KeptNames;
      ghost var start := disk;
      var kept := KeptIds(disk.dir);
      // Kept failures are not crash leftovers: their group stays until they expire.
      var builds := LiveIds(disk.dir) + disk.groups.Keys - kept - c.keep;
      SweepJobs(builds, kept);
      ghost var one := disk;
      KeptSurviveBuildRemoval(start.dir, one.dir, builds, kept, stuck, c.keepFailed, start.now);
      var expired := SweepKept(c.keepFailed);
      ShrinksTransitively(start, one, disk);
      WithoutEmptyAdd(start.groups, builds, Expired(start.dir, c.keepFailed, start.now));
      cleared := |builds| + expired;
      SweptDirIs(start, builds, kept, c.keep, c.keepFailed, stuck, disk.dir);
    }

    /** Remove every build not in `keep`, every kept failure past its time, devtools' lock, an
        interrupted refresh (when no refresh holds the lock), and the groups they leave. */
    method Sweep(c: SweepCall) returns (cleared: nat)
      requires IsPossible(disk, c, stuck)
      modifies this
      ensures IsSweepOf(old(disk), disk, c, stuck)
      ensures cleared == |SweptBuilds(old(disk), c)| + |Expired(old(disk.dir), c.keepFailed, old(disk.now))|
    {
      hide EntryOf, Shrinks, WithoutEmpty, SweptBuilds, Expired, SweptDir, RecoveredDir, Tidied, Cleared;
      ghost var start := disk;
      cleared := SweepBuilds(c);
      ghost var one := disk;
      if !c.locked {
        RecoverBase(c.readable);
        ShrinksTransitively(start, one, disk);
      }
      ghost var two := disk;
      assert two.dir == FinalDir(start, c, stuck);
      TidyAndClear(c.freed, c.later);
      ShrinksTransitively(start, two, disk);
      TidiedGroups(start.(dir := two.dir, groups := two.groups), two, c.freed);
    }

    /** Tidy, then clear what the cleaner has got to since. */
    method TidyAndClear(freed: set<nat>, later: set<nat>)
      requires freed <= later && later !! Live(disk.dir)
      modifies this
      ensures disk.dir == old(disk.dir) && Shrinks(old(disk), disk)
      ensures disk.groups == Cleared(Tidied(old(disk), freed).groups, later)
    {
      hide Shrinks;
      TidyGroups(freed);
      ghost var tidied := disk;
      ClearingShrinks(disk, later);
      disk := Exec(disk, ClearStale(later)).value;
      ShrinksTransitively(old(disk), tidied, disk);
    }
  }

  lemma ShrinksKeepsTime(d: Disk, d': Disk)
    requires Shrinks(d, d')
    ensures d'.now == d.now
  {
  }

  /** What is tidied goes by names and groups alone. */
  lemma TidiedGroups(d: Disk, e: Disk, freed: set<nat>)
    requires d.dir == e.dir && d.groups == e.groups
    ensures Tidied(d, freed).groups == Tidied(e, freed).groups
  {
  }

  lemma OthersKeepTheirTime(dir: Dir, gone: set<BuildId>, stuck: set<Name>, id: BuildId, keep: Option<nat>, now: nat)
    requires id !in gone
    ensures HasTimeLeft(dir - (KeptNames(gone) - stuck), id, keep, now) == HasTimeLeft(dir, id, keep, now)
  {
  }

  lemma OverdueStep(ids: set<BuildId>, dir: Dir, keep: Option<nat>, now: nat, todo: set<BuildId>, id: BuildId)
    requires id in todo && todo <= ids
    ensures var gone := Overdue(ids - todo, dir, keep, now);
      && id !in gone
      && Overdue(ids - (todo - {id}), dir, keep, now) == gone + (if HasTimeLeft(dir, id, keep, now) then {} else {id})
  {
  }

  lemma NothingGone(d: Disk, ids: set<BuildId>, keep: Option<nat>, stuck: set<Name>)
    ensures Overdue(ids - ids, d.dir, keep, d.now) == {}
    ensures d.dir - (KeptNames({}) - stuck) == d.dir && WithoutEmpty(d.groups, {}) == d.groups && Shrinks(d, d)
  {
  }

  lemma ClearingShrinks(d: Disk, freed: set<nat>)
    requires freed !! Live(d.dir)
    ensures Shrinks(d, Exec(d, ClearStale(freed)).value)
  {
  }

  lemma TidyingShrinks(d: Disk, freed: set<nat>)
    requires freed !! Live(d.dir)
    ensures Shrinks(d, Tidied(d, freed))
  {
    var d' := Tidied(d, freed);
    forall uuid, id | uuid in Live(d'.dir) && IsMember(d, uuid, id)
      ensures IsMember(d', uuid, id) && (IsCounted(d, uuid, id) ==> IsCounted(d', uuid, id))
    {
      assert uuid in d.groups[id].members - freed;
    }
  }

  lemma KeptNamesAdd(dir: Dir, gone: set<BuildId>, more: set<BuildId>, stuck: set<Name>)
    ensures dir - (KeptNames(gone) - stuck) - (KeptNames(more) - stuck) == dir - (KeptNames(gone + more) - stuck)
  {
    assert KeptNames(gone) + KeptNames(more) == KeptNames(gone + more);
  }

  lemma WithoutEmptyAdd(groups: map<BuildId, Group>, ids: set<BuildId>, more: set<BuildId>)
    ensures WithoutEmpty(WithoutEmpty(groups, ids), more) == WithoutEmpty(groups, ids + more)
  {
  }

  /** The groups left when orphans other than `todo` have been tried. */
  function Tried(groups: map<BuildId, Group>, kept: set<BuildId>): map<BuildId, Group> {
    map id | id in groups && (id in kept || groups[id].members != {}) :: groups[id]
  }

  lemma TryOne(d: Disk, groups: map<BuildId, Group>, kept: set<BuildId>, id: BuildId)
    requires d.groups == Tried(groups, kept) && id in kept && id in groups
    ensures var e := Exec(d, GroupDestroy(id));
      (if e.Some? then e.value else d) == d.(groups := Tried(groups, kept - {id}))
  {
    var e := Exec(d, GroupDestroy(id));
    if e.Some? {
      assert e.value.groups == Tried(groups, kept - {id});
    } else {
      assert d.groups == Tried(groups, kept - {id});
    }
  }

  lemma KeptSurviveBuildRemoval(dir: Dir, dir': Dir, builds: set<BuildId>, kept: set<BuildId>, stuck: set<Name>,
                                keep: Option<nat>, now: nat)
    requires dir' == dir - (JobNames(builds) - stuck) - (JobNames(kept) - stuck)
    ensures Expired(dir', keep, now) == Expired(dir, keep, now)
  {
    hide EntryOf;
    assert forall n :: n in dir && IsKept(n) ==> n in dir';
    assert forall n :: n in dir' ==> n in dir && dir'[n] == dir[n];
    assert KeptIds(dir') == KeptIds(dir);
  }

  lemma SweptDirIs(d: Disk, builds: set<BuildId>, kept: set<BuildId>, keep: set<BuildId>,
                   keepFailed: Option<nat>, stuck: set<Name>, dir: Dir)
    requires kept == KeptIds(d.dir) && builds == LiveIds(d.dir) + d.groups.Keys - kept - keep
    requires dir == d.dir - (JobNames(builds) - stuck) - (JobNames(kept) - stuck)
                    - (KeptNames(Expired(d.dir, keepFailed, d.now)) - stuck) - ({LOCK} - stuck)
    ensures dir == SweptDir(d.dir, keep, keepFailed, d.now, stuck)
  {
    hide EntryOf;
    forall n | n in d.dir
      ensures IsSwept(d.dir, n, keep, keepFailed, d.now) <==>
        n in JobNames(builds) || n in JobNames(kept) || n in KeptNames(Expired(d.dir, keepFailed, d.now)) || n == LOCK
    {
      if n.Own? && n.entry.Job? {
        assert n.entry.id in LiveIds(d.dir);
        assert n.entry.part != Tree <==> n.entry.part in {Chroot, Data, Lock};
      } else if n.Own? && n.entry.Kept? {
        assert n.entry.id in KeptIds(d.dir);
        assert n.entry.part != Lock <==> n.entry.part in {Chroot, Data, Tree};
      }
    }
  }
}
