/** One failed build being kept, while other tasks lease, tidy and expire around it, the clock
    moves on, and the process may die after any of it. */
module Keep {
  import opened Decimal
  import opened Names
  import opened PoolDisk
  import opened Teardown
  import R = Refresh

  /** How far a keep has come: what it does next, one command each, is to touch the chroot, rename
      it, rename the workdir, move the tree, make it all private, and remove the lock. */
  datatype Stage = Started | Touched | ChrootKept | DataKept | TreeTried | Private | Done | Failing

  /** A build's persistent tree: where it is in the pool, and its identity. */
  datatype Tree = Tree(name: Name, uuid: nat)

  /** `chroot` and `data` are the identities the lease gave the build's volumes; `touched`, when the
      keep touched the chroot. */
  datatype State = State(disk: Disk, stage: Stage, chroot: nat, data: nat, tree: Option<Tree>, touched: nat)

  datatype Event =
    /** The keep's next command, which may fail. Once one has, it deletes what there is,
        `gone` being what it has got to when the process is next looked at. */
    | Mine(ok: bool, gone: set<Name>)
    /** Another task's command. */
    | Others(command: Command)
    /** The expiry before another build's lease. */
    | Expire(keep: Option<nat>, stuck: set<Name>)
    /** Another build's lease removing a kept failure for room: this one, perhaps. */
    | Reclaim(victim: BuildId, stuck: set<Name>)

  function PartsOf(id: BuildId): set<Name> {
    JobNames({id}) + KeptNames({id})
  }

  /** A command that leaves `names` alone. */
  predicate Leaves(c: Command, names: set<Name>) {
    match c
    case Delete(deleted) => deleted !! names
    case Rename(from, to) => from !in names && to !in names
    case Touch(n) => n !in names
    case _ => PutsAt(c) !! names
  }

  /** What other tasks do: anything that leaves this build's own names alone, and puts nothing
      where its tree is. */
  predicate IsOthers(s: State, id: BuildId, c: Command) {
    Leaves(c, PartsOf(id)) && (s.tree.Some? ==> s.tree.value.name !in PutsAt(c))
  }

  function Try(s: State, ok: bool, c: Command, onwards: Stage, elsewhere: Stage): State {
    match Exec(s.disk, c)
    case Some(d) => if ok then s.(disk := d, stage := onwards) else s.(stage := elsewhere)
    case None => s.(stage := elsewhere)
  }

  function Without(s: State, names: set<Name>): State {
    s.(disk := s.disk.(dir := s.disk.dir - names))
  }

  function Mined(s: State, id: BuildId, ok: bool, gone: set<Name>): State {
    match s.stage
    case Started => Try(s, ok, Touch(Own(Job(id, Chroot))), Touched, Failing).(touched := s.disk.now)
    case Touched => Try(s, ok, Rename(Own(Job(id, Chroot)), Own(Kept(id, Chroot))), ChrootKept, Failing)
    case ChrootKept => Try(s, ok, Rename(Own(Job(id, Data)), Own(Kept(id, Data))), DataKept, Failing)
    // A tree that is not there or cannot move stays out of the keep; that is not a failure.
    case DataKept =>
      if s.tree.Some? then Try(s, ok, Rename(s.tree.value.name, Own(Kept(id, Names.Tree))), TreeTried, TreeTried)
      else s.(stage := TreeTried)
    // Refused when either volume has been taken meanwhile.
    case TreeTried =>
      s.(stage :=
        if ok && Own(Kept(id, Chroot)) in s.disk.dir && Own(Kept(id, Data)) in s.disk.dir then Private else Failing)
    case Private => (if ok then Without(s, {Own(Job(id, Lock))}) else s).(stage := Done)
    case Done => s
    case Failing => Without(s, gone * PartsOf(id))
  }

  function Step(s: State, id: BuildId, e: Event): State {
    match e
    case Mine(ok, gone) => Mined(s, id, ok, gone)
    case Others(c) => if IsOthers(s, id, c) && Exec(s.disk, c).Some? then s.(disk := Exec(s.disk, c).value) else s
    case Expire(keep, stuck) => Without(s, KeptNames(Expired(s.disk.dir, keep, s.disk.now)) - stuck)
    case Reclaim(victim, stuck) => Without(s, KeptNames({victim}) - stuck)
  }

  function Run(s: State, id: BuildId, events: seq<Event>): State {
    if events == [] then s
    else Step(Run(s, id, events[..|events| - 1]), id, events[|events| - 1])
  }

  /** A volume of the build: charged to its group, and that under the total, while it is there. */
  ghost predicate IsCharged(d: Disk, uuid: nat, id: BuildId) {
    uuid in d.ids && (uuid in Live(d.dir) ==> IsCounted(d, uuid, id))
  }

  /** What may be under a name. */
  ghost predicate IsVolume(dir: Dir, n: Name, uuid: nat) {
    n in dir ==> dir[n].uuid == uuid
  }

  ghost predicate ChargesHold(s: State, id: BuildId) {
    && Valid(s.disk)
    && IsCharged(s.disk, s.chroot, id) && IsCharged(s.disk, s.data, id)
    && (s.tree.Some? ==>
          && s.tree.value.uuid in s.disk.ids
          && (s.tree.value.uuid in Live(s.disk.dir) ==> s.tree.value.uuid in s.disk.total))
  }

  ghost predicate NamesHold(s: State, id: BuildId) {
    var dir := s.disk.dir;
    && IsVolume(dir, Own(Job(id, Chroot)), s.chroot) && IsVolume(dir, Own(Kept(id, Chroot)), s.chroot)
    && IsVolume(dir, Own(Job(id, Data)), s.data) && IsVolume(dir, Own(Kept(id, Data)), s.data)
    && (s.tree.Some? ==> s.tree.value.name.Other? && IsVolume(dir, s.tree.value.name, s.tree.value.uuid))
    && (Own(Kept(id, Names.Tree)) in dir ==> s.tree.Some? && dir[Own(Kept(id, Names.Tree))].uuid == s.tree.value.uuid)
  }

  ghost predicate StageFits(s: State, id: BuildId) {
    var dir := s.disk.dir;
    && (s.stage == Touched && Own(Job(id, Chroot)) in dir ==> s.touched <= dir[Own(Job(id, Chroot))].mtime)
    && (Own(Kept(id, Chroot)) in dir ==>
          s.stage !in {Started, Touched} && s.touched <= dir[Own(Kept(id, Chroot))].mtime)
    && (s.stage in {Started, Touched} ==> forall n :: n in KeptNames({id}) ==> n !in dir)
    && (s.stage in {ChrootKept, DataKept} ==> Own(Kept(id, Names.Tree)) !in dir)
  }

  ghost predicate Invariant(s: State, id: BuildId) {
    ChargesHold(s, id) && NamesHold(s, id) && StageFits(s, id)
  }

  /** A leased build whose keep has not begun. */
  ghost predicate IsLeased(s: State, id: BuildId) {
    && Valid(s.disk) && s.stage == Started
    && Own(Job(id, Chroot)) in s.disk.dir && s.disk.dir[Own(Job(id, Chroot))].uuid == s.chroot
    && Own(Job(id, Data)) in s.disk.dir && s.disk.dir[Own(Job(id, Data))].uuid == s.data
    && IsCounted(s.disk, s.chroot, id) && IsCounted(s.disk, s.data, id)
    && (s.tree.Some? ==>
          && s.tree.value.name.Other? && s.tree.value.uuid in s.disk.total
          && s.tree.value.name in s.disk.dir && s.disk.dir[s.tree.value.name].uuid == s.tree.value.uuid)
    && (forall n :: n in KeptNames({id}) ==> n !in s.disk.dir)
  }

  lemma ChargeIsStable(d: Disk, c: Command, uuid: nat, id: BuildId)
    requires Valid(d) && Exec(d, c).Some? && IsCharged(d, uuid, id)
    ensures IsCharged(Exec(d, c).value, uuid, id)
  {
    ExecKeepsValid(d, c);
    if uuid !in Live(d.dir) {
      DeadStaysDead(d, c, uuid);
    } else {
      MembershipIsStable(d, c, uuid, id);
    }
  }

  /** No command at all loses a charge. */
  lemma ChargesAreStable(s: State, id: BuildId, c: Command)
    requires ChargesHold(s, id) && Exec(s.disk, c).Some?
    ensures ChargesHold(s.(disk := Exec(s.disk, c).value), id)
  {
    ExecKeepsValid(s.disk, c);
    ChargeIsStable(s.disk, c, s.chroot, id);
    ChargeIsStable(s.disk, c, s.data, id);
    if s.tree.Some? {
      if s.tree.value.uuid !in Live(s.disk.dir) {
        DeadStaysDead(s.disk, c, s.tree.value.uuid);
      } else {
        CountIsStable(s.disk, c, s.tree.value.uuid);
      }
    }
  }

  lemma LeftAlone(d: Disk, c: Command, names: set<Name>, n: Name)
    requires Leaves(c, names) && Exec(d, c).Some? && n in names
    ensures R.Get(Exec(d, c).value.dir, n) == R.Get(d.dir, n)
  {
  }

  lemma NothingPutAt(d: Disk, c: Command, n: Name)
    requires n !in PutsAt(c) && Exec(d, c).Some?
    ensures n in Exec(d, c).value.dir ==> n in d.dir && Exec(d, c).value.dir[n].uuid == d.dir[n].uuid
  {
  }

  lemma OthersKeep(s: State, id: BuildId, c: Command)
    requires Invariant(s, id) && IsOthers(s, id, c) && Exec(s.disk, c).Some?
    ensures Invariant(s.(disk := Exec(s.disk, c).value), id)
  {
    hide Exec, Leaves, PutsAt, ChargesHold;
    var d := Exec(s.disk, c).value;
    assert ChargesHold(s.(disk := d), id) by { ChargesAreStable(s, id, c); }
    forall n | n in PartsOf(id)
      ensures R.Get(d.dir, n) == R.Get(s.disk.dir, n)
    {
      LeftAlone(s.disk, c, PartsOf(id), n);
    }
    assert {Own(Job(id, Chroot)), Own(Job(id, Data))} <= JobNames({id});
    assert {Own(Kept(id, Chroot)), Own(Kept(id, Data)), Own(Kept(id, Names.Tree))} <= KeptNames({id});
    if s.tree.Some? {
      NothingPutAt(s.disk, c, s.tree.value.name);
    }
    assert NamesHold(s.(disk := d), id);
    assert forall n :: n in KeptNames({id}) ==> n in PartsOf(id);
    assert StageFits(s.(disk := d), id);
  }

  lemma DeletionKeeps(s: State, id: BuildId, names: set<Name>)
    requires Invariant(s, id)
    ensures Invariant(Without(s, names), id)
  {
    assert Exec(s.disk, Delete(names)) == Some(Without(s, names).disk);
    ChargesAreStable(s, id, Delete(names));
    hide ChargesHold;
    assert NamesHold(Without(s, names), id);
  }

  lemma TryKeepsCharges(s: State, id: BuildId, ok: bool, c: Command, onwards: Stage, elsewhere: Stage)
    requires ChargesHold(s, id)
    ensures ChargesHold(Try(s, ok, c, onwards, elsewhere), id)
  {
    hide Exec;
    if Exec(s.disk, c).Some? {
      ChargesAreStable(s, id, c);
    }
  }

  lemma MineKeepsCharges(s: State, id: BuildId, ok: bool, gone: set<Name>)
    requires ChargesHold(s, id) && s.stage !in {Private, Failing}
    ensures ChargesHold(Mined(s, id, ok, gone), id)
  {
    match s.stage
    case Started => TryKeepsCharges(s, id, ok, Touch(Own(Job(id, Chroot))), Touched, Failing);
    case Touched =>
      TryKeepsCharges(s, id, ok, Rename(Own(Job(id, Chroot)), Own(Kept(id, Chroot))), ChrootKept, Failing);
    case ChrootKept => TryKeepsCharges(s, id, ok, Rename(Own(Job(id, Data)), Own(Kept(id, Data))), DataKept, Failing);
    case DataKept =>
      if s.tree.Some? {
        TryKeepsCharges(s, id, ok, Rename(s.tree.value.name, Own(Kept(id, Names.Tree))), TreeTried, TreeTried);
      }
    case _ =>
  }

  lemma MineKeepsNames(s: State, id: BuildId, ok: bool, gone: set<Name>)
    requires NamesHold(s, id) && StageFits(s, id) && s.stage !in {Private, Failing}
    ensures NamesHold(Mined(s, id, ok, gone), id) && StageFits(Mined(s, id, ok, gone), id)
  {
  }

  lemma MineKeeps(s: State, id: BuildId, ok: bool, gone: set<Name>)
    requires Invariant(s, id)
    ensures Invariant(Mined(s, id, ok, gone), id)
  {
    match s.stage
    case Private => DeletionKeeps(s, id, {Own(Job(id, Lock))});
    case Failing => DeletionKeeps(s, id, gone * PartsOf(id));
    case _ =>
      hide Mined, ChargesHold, NamesHold, StageFits;
      MineKeepsCharges(s, id, ok, gone);
      MineKeepsNames(s, id, ok, gone);
  }

  lemma StepKeeps(s: State, id: BuildId, e: Event)
    requires Invariant(s, id)
    ensures Invariant(Step(s, id, e), id)
  {
    hide Invariant, Mined;
    match e
    case Mine(ok, gone) => MineKeeps(s, id, ok, gone);
    case Others(c) => if IsOthers(s, id, c) && Exec(s.disk, c).Some? { OthersKeep(s, id, c); }
    case Expire(keep, stuck) => DeletionKeeps(s, id, KeptNames(Expired(s.disk.dir, keep, s.disk.now)) - stuck);
    case Reclaim(victim, stuck) => DeletionKeeps(s, id, KeptNames({victim}) - stuck);
  }

  lemma {:induction false} RunKeeps(s: State, id: BuildId, events: seq<Event>)
    requires Invariant(s, id)
    ensures Invariant(Run(s, id, events), id)
  {
    hide Invariant, Step;
    if events != [] {
      RunKeeps(s, id, events[..|events| - 1]);
      StepKeeps(Run(s, id, events[..|events| - 1]), id, events[|events| - 1]);
    }
  }

  lemma LeasedStartsTheInvariant(s: State, id: BuildId)
    requires IsLeased(s, id)
    ensures Invariant(s, id)
  {
    assert s.chroot in Live(s.disk.dir) && s.data in Live(s.disk.dir);
    assert s.tree.Some? ==> s.tree.value.uuid in Live(s.disk.dir);
    assert ChargesHold(s, id);
    assert Own(Kept(id, Names.Tree)) in KeptNames({id}) && Own(Kept(id, Chroot)) in KeptNames({id});
    assert Own(Kept(id, Data)) in KeptNames({id});
  }

  /** What is kept of a build, whole and charged: its chroot, and whatever is there of its workdir
      and its tree, each the volume it was and counted as it was. */
  ghost predicate IsKeptWhole(s: State, d: Disk, id: BuildId) {
    var chroot, data, tree := Own(Kept(id, Chroot)), Own(Kept(id, Data)), Own(Kept(id, Names.Tree));
    && chroot in d.dir && d.dir[chroot].uuid == s.chroot && IsCounted(d, s.chroot, id)
    && (data in d.dir ==> d.dir[data].uuid == s.data && IsCounted(d, s.data, id))
    && (tree in d.dir ==> s.tree.Some? && d.dir[tree].uuid == s.tree.value.uuid && s.tree.value.uuid in d.total)
  }

  /** Wherever the keep is cut off, whatever others do meanwhile, a later sweep that may remove
      the build leaves either nothing of it or its kept volumes, still charged to its group under
      the total -- and never a `job-` part. */
  lemma AnInterruptedKeepIsSweptWhole(s: State, id: BuildId, events: seq<Event>, d: Disk, c: SweepCall)
    requires IsLeased(s, id) && id !in c.keep
    requires IsSweepOf(Run(s, id, events).disk, d, c, {})
    ensures forall n :: n in JobNames({id}) ==> n !in d.dir
    ensures (forall n :: n in KeptNames({id}) ==> n !in d.dir) || IsKeptWhole(s, d, id)
  {
    hide EntryOf, Run;
    var t := Run(s, id, events);
    LeasedStartsTheInvariant(s, id);
    RunKeeps(s, id, events);
    RunKeepsIdentities(s, id, events);
    SweptOutsideBase(t.disk, d, c);
    hide Invariant, Shrinks, FinalDir, FinalGroups, IsKeptWhole;
    if HasTimeLeft(t.disk.dir, id, c.keepFailed, t.disk.now) {
      SweptStaysWhole(t, d, id);
      SameVolumes(s, t, d, id);
    }
  }

  lemma SameVolumes(s: State, t: State, d: Disk, id: BuildId)
    requires t.chroot == s.chroot && t.data == s.data && t.tree == s.tree
    ensures IsKeptWhole(s, d, id) == IsKeptWhole(t, d, id)
  {
  }

  lemma SweptStaysWhole(t: State, d: Disk, id: BuildId)
    requires Invariant(t, id) && Shrinks(t.disk, d) && Own(Kept(id, Chroot)) in d.dir
    ensures IsKeptWhole(t, d, id)
  {
    hide EntryOf;
    var chroot, data, tree := Own(Kept(id, Chroot)), Own(Kept(id, Data)), Own(Kept(id, Names.Tree));
    StillThere(t.disk, d, chroot);
    if data in d.dir {
      StillThere(t.disk, d, data);
    }
    if tree in d.dir {
      StillThere(t.disk, d, tree);
    }
  }

  lemma StillThere(d: Disk, d': Disk, n: Name)
    requires Shrinks(d, d') && n in d'.dir && n !in {R.NEXT, R.PREV}
    ensures n in d.dir && d'.dir[n] == d.dir[n] && d.dir[n].uuid in Live(d'.dir) && d.dir[n].uuid in Live(d.dir)
  {
  }

  lemma {:induction false} RunKeepsIdentities(s: State, id: BuildId, events: seq<Event>)
    ensures var t := Run(s, id, events); t.chroot == s.chroot && t.data == s.data && t.tree == s.tree
  {
    if events != [] {
      RunKeepsIdentities(s, id, events[..|events| - 1]);
    }
  }

  /** A kept failure whose chroot is there is expired only when keeping is off, or the keep has
      run its time since the touch, or its end is past what the clock can hold. */
  lemma ExpiryHonoursTheKeep(s: State, id: BuildId, events: seq<Event>, keep: Option<nat>, stuck: set<Name>)
    requires IsLeased(s, id)
    ensures var t := Run(s, id, events);
      var kept := Own(Kept(id, Chroot));
      kept in t.disk.dir && kept !in Step(t, id, Expire(keep, stuck)).disk.dir ==>
        keep.None? || t.touched + keep.value <= t.disk.now || t.disk.dir[kept].mtime + keep.value > MAX_TIME
  {
    hide EntryOf, Run, Exec;
    LeasedStartsTheInvariant(s, id);
    RunKeeps(s, id, events);
  }

  /** The event takes the kept chroot: an expiry, a lease making room, or the failed keep itself. */
  ghost predicate TakesChroot(s: State, id: BuildId, e: Event) {
    && Own(Kept(id, Chroot)) in s.disk.dir && Own(Kept(id, Chroot)) !in Step(s, id, e).disk.dir
    && (e.Expire? || e.Reclaim? || (e.Mine? && s.stage == Failing))
  }

  ghost predicate WasTaken(s: State, id: BuildId, events: seq<Event>) {
    exists k :: 0 <= k < |events| && TakesChroot(Run(s, id, events[..k]), id, events[k])
  }

  /** Nothing has been kept yet. */
  predicate IsUnkept(s: State, id: BuildId) {
    && s.stage in {Started, Touched, Failing}
    && Own(Kept(id, Chroot)) !in s.disk.dir && Own(Kept(id, Names.Tree)) !in s.disk.dir
  }

  lemma StepTakes(s: State, id: BuildId, e: Event)
    requires Invariant(s, id)
    ensures Own(Kept(id, Chroot)) in s.disk.dir ==>
      Own(Kept(id, Chroot)) in Step(s, id, e).disk.dir || TakesChroot(s, id, e)
    ensures IsUnkept(s, id) ==> IsUnkept(Step(s, id, e), id) || Own(Kept(id, Chroot)) in Step(s, id, e).disk.dir
  {
    hide EntryOf, ChargesHold;
    assert Own(Kept(id, Chroot)) in PartsOf(id) && Own(Kept(id, Names.Tree)) in PartsOf(id);
    if e.Others? && IsOthers(s, id, e.command) && Exec(s.disk, e.command).Some? {
      LeftAlone(s.disk, e.command, PartsOf(id), Own(Kept(id, Chroot)));
      LeftAlone(s.disk, e.command, PartsOf(id), Own(Kept(id, Names.Tree)));
      hide Exec;
    }
  }

  lemma {:induction false} ChrootIsThereOrWasTaken(s: State, id: BuildId, events: seq<Event>)
    requires Invariant(s, id) && IsUnkept(s, id)
    ensures var t := Run(s, id, events);
      Own(Kept(id, Chroot)) in t.disk.dir || WasTaken(s, id, events) || IsUnkept(t, id)
  {
    hide Step, Invariant, IsUnkept, TakesChroot;
    if events != [] {
      var last := |events| - 1;
      var front := events[..last];
      ChrootIsThereOrWasTaken(s, id, front);
      RunKeeps(s, id, front);
      StepTakes(Run(s, id, front), id, events[last]);
      if WasTaken(s, id, front) {
        var k :| 0 <= k < |front| && TakesChroot(Run(s, id, front[..k]), id, front[k]);
        assert front[..k] == events[..k] && front[k] == events[k];
      }
    }
  }

  /** A kept tree is seen without its keep only after something took the chroot it was kept with. */
  lemma ATreeWithoutItsKeepWasRobbed(s: State, id: BuildId, events: seq<Event>)
    requires IsLeased(s, id)
    ensures var t := Run(s, id, events);
      Own(Kept(id, Names.Tree)) in t.disk.dir && Own(Kept(id, Chroot)) !in t.disk.dir ==> WasTaken(s, id, events)
  {
    LeasedStartsTheInvariant(s, id);
    assert {Own(Kept(id, Chroot)), Own(Kept(id, Names.Tree))} <= KeptNames({id});
    ChrootIsThereOrWasTaken(s, id, events);
  }

  /** And the move makes one, of a keep whose chroot is not there any more, exactly when there is a
      tree to move: it asks no more. */
  lemma TheMoveMakesOneExactlyWhen(s: State, id: BuildId, events: seq<Event>)
    requires IsLeased(s, id) && Run(s, id, events).stage == DataKept
    ensures var t := Run(s, id, events);
      var after := Step(t, id, Mine(true, {})).disk.dir;
      Own(Kept(id, Names.Tree)) in after && Own(Kept(id, Chroot)) !in after <==>
        s.tree.Some? && s.tree.value.name in t.disk.dir && Own(Kept(id, Chroot)) !in t.disk.dir
  {
    LeasedStartsTheInvariant(s, id);
    RunKeeps(s, id, events);
    RunKeepsIdentities(s, id, events);
    hide Run, ChargesHold;
  }

  lemma RunMore(s: State, id: BuildId, events: seq<Event>, e: Event)
    ensures Run(s, id, events + [e]) == Step(Run(s, id, events), id, e)
  {
    assert (events + [e])[..|events|] == events;
  }

  /** The steps are those the pool takes, in its order. */
  lemma TheseAreThePoolsSteps(s: State, id: BuildId, k: nat)
    requires IsLeased(s, id) && k <= 3
    ensures Run(s, id, seq(k, _ => Mine(true, {}))).disk == ExecAll(s.disk, KeepCommands(id)[..k])
    ensures Run(s, id, seq(k, _ => Mine(true, {}))).stage ==
      if k == 0 then Started else if k == 1 then Touched else if k == 2 then ChrootKept else DataKept
  {
    FirstCommands(s.disk, id);
    if k > 0 {
      TheseAreThePoolsSteps(s, id, k - 1);
      var go := seq(k, _ => Mine(true, {}));
      assert go[..k - 1] == seq(k - 1, _ => Mine(true, {}));
      CanGoOn(s, id, k - 1);
    }
  }

  lemma CanGoOn(s: State, id: BuildId, k: nat)
    requires IsLeased(s, id) && k < 3
    ensures Exec(ExecAll(s.disk, KeepCommands(id)[..k]), KeepCommands(id)[k]).Some?
  {
    FirstCommands(s.disk, id);
    assert {Own(Kept(id, Chroot)), Own(Kept(id, Data))} <= KeptNames({id});
    if k > 0 {
      CanGoOn(s, id, k - 1);
    }
    if k > 1 {
      CanGoOn(s, id, k - 2);
    }
  }

  /** It happens to every build with a tree: another lease makes room between the renames and the
      move, and the tree is kept without its keep. */
  lemma MakingRoomInBetweenLeavesATree(s: State, id: BuildId)
    requires IsLeased(s, id) && s.tree.Some?
    ensures var go := Mine(true, {});
      var dir := Run(s, id, [go, go, go, Reclaim(id, {}), go]).disk.dir;
      Own(Kept(id, Names.Tree)) in dir && Own(Kept(id, Chroot)) !in dir
  {
    var go := Mine(true, {});
    var kept := Renamed(s, id);
    RunMore(s, id, [go, go, go], Reclaim(id, {}));
    RunMore(s, id, [go, go, go, Reclaim(id, {})], go);
    assert [go, go, go] + [Reclaim(id, {})] == [go, go, go, Reclaim(id, {})];
    assert [go, go, go, Reclaim(id, {})] + [go] == [go, go, go, Reclaim(id, {}), go];
    assert Own(Kept(id, Chroot)) in KeptNames({id}) && Own(Kept(id, Names.Tree)) in KeptNames({id});
  }

  lemma ThreeSteps(s: State, id: BuildId, e: Event)
    ensures Run(s, id, [e, e, e]) == Step(Step(Step(s, id, e), id, e), id, e)
  {
    hide Step;
    RunMore(s, id, [], e);
    RunMore(s, id, [e], e);
    RunMore(s, id, [e, e], e);
    assert [] + [e] == [e] && [e] + [e] == [e, e] && [e, e] + [e] == [e, e, e];
  }

  /** Undisturbed, a keep gets to where the tree is next. */
  lemma Renamed(s: State, id: BuildId) returns (t: State)
    requires IsLeased(s, id)
    ensures t == Run(s, id, [Mine(true, {}), Mine(true, {}), Mine(true, {})]) && t.stage == DataKept && t.tree == s.tree
    ensures Own(Kept(id, Chroot)) in t.disk.dir && Own(Kept(id, Data)) in t.disk.dir
    ensures Own(Kept(id, Names.Tree)) !in t.disk.dir
    ensures s.tree.Some? ==> s.tree.value.name in t.disk.dir
  {
    hide Run;
    var go := Mine(true, {});
    ThreeSteps(s, id, go);
    assert {Own(Kept(id, Chroot)), Own(Kept(id, Data)), Own(Kept(id, Names.Tree))} <= KeptNames({id});
    var one := Step(s, id, go);
    assert one.stage == Touched && Own(Job(id, Data)) in one.disk.dir;
    var two := Step(one, id, go);
    assert two.stage == ChrootKept && Own(Job(id, Data)) in two.disk.dir;
    t := Step(two, id, go);
  }

  /** A fragment whose chroot is gone goes at the next expiry. */
  lemma FragmentsGoAtTheNextExpiry(s: State, id: BuildId, keep: Option<nat>, n: Name)
    requires n in KeptNames({id}) && Own(Kept(id, Chroot)) !in s.disk.dir
    ensures n !in Step(s, id, Expire(keep, {})).disk.dir
  {
    if n in s.disk.dir {
      assert IsKept(n) && Parsed(n).value.id == id;
      assert id in Expired(s.disk.dir, keep, s.disk.now);
    }
  }

  /** Why the touch comes first: renamed untouched, a build older than the keep is taken for an
      expired one by any lease that comes along. */
  lemma RenamingFirstWouldExpireAtOnce(d: Disk, id: BuildId, keep: nat)
    requires Own(Job(id, Chroot)) in d.dir && Own(Kept(id, Chroot)) !in d.dir
    requires d.dir[Own(Job(id, Chroot))].mtime + keep <= d.now && 0 < keep && d.now + keep <= MAX_TIME
    ensures
      var rename := Rename(Own(Job(id, Chroot)), Own(Kept(id, Chroot)));
      var touched := Exec(d, Touch(Own(Job(id, Chroot)))).value;
      && !HasTimeLeft(Exec(d, rename).value.dir, id, Some(keep), d.now)
      && HasTimeLeft(Exec(touched, rename).value.dir, id, Some(keep), d.now)
  {
  }

  /** A kept failure whose chroot is there is gone after an expiry exactly when it can be deleted and
      keeping is off, the keep has run its time, or its end is past what the clock can hold. */
  lemma ExpiryTakesExactlyWhen(s: State, id: BuildId, keep: Option<nat>, stuck: set<Name>)
    requires Own(Kept(id, Chroot)) in s.disk.dir
    ensures var kept := Own(Kept(id, Chroot));
      var touched := s.disk.dir[kept].mtime;
      kept !in Step(s, id, Expire(keep, stuck)).disk.dir <==>
        && kept !in stuck
        && (keep.None? || touched + keep.value <= s.disk.now || touched + keep.value > MAX_TIME)
  {
    var kept := Own(Kept(id, Chroot));
    assert IsKept(kept) && Parsed(kept).value.id == id;
    assert id in KeptIds(s.disk.dir);
    assert kept in KeptNames(Expired(s.disk.dir, keep, s.disk.now)) <==> id in Expired(s.disk.dir, keep, s.disk.now);
  }

  /** So a keep that ends past it keeps nothing at all, however new the failure is. */
  lemma AnOverlongKeepKeepsNothing(dir: Dir, id: BuildId, keep: nat, now: nat)
    requires id in KeptIds(dir)
    requires Own(Kept(id, Chroot)) in dir ==> dir[Own(Kept(id, Chroot))].mtime + keep > MAX_TIME
    ensures id in Expired(dir, Some(keep), now)
  {
  }
}
