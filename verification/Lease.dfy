/** Taking a build's volumes, while every other task runs its own commands in between. */
module Lease {
  import opened Decimal
  import opened Names
  import opened PoolDisk

  /** How far a lease has come; `chroot` and `data` are the identities it read back. */
  datatype Stage =
    | Begun
    | HasChroot
    | HasData
    | NeedsGroup
    | HasGroup
    | HasChrootId(chroot: nat)
    | HasIds(chroot: nat, data: nat)
    | ChrootIn(chroot: nat, data: nat)
    | BothIn(chroot: nat, data: nat)
    | InTotal(chroot: nat, data: nat)
    | Leased(chroot: nat, data: nat)
    | Failed

  datatype State = State(disk: Disk, stage: Stage)

  /** One thing that happens: this lease's next command, with a fresh identity to give out,
      or any command at all of any other task. */
  datatype Event = Mine(newId: nat) | Others(command: Command)

  function Try(s: State, c: Command, then_: Stage): State {
    match Exec(s.disk, c)
    case Some(d) => State(d, then_)
    case None => s.(stage := Failed)
  }

  function Advance(s: State, id: BuildId, limit: Option<nat>, newId: nat): State {
    match s.stage
    case Begun => Try(s, Snapshot(Own(Base(Root)), Own(Job(id, Chroot)), newId), HasChroot)
    case HasChroot => Try(s, Create(Own(Job(id, Data)), newId), HasData)
    // Asked first, made after: another task may come in between.
    case HasData => s.(stage := if id in s.disk.groups then HasGroup else NeedsGroup)
    case NeedsGroup => Try(s, GroupCreate(id), HasGroup)
    case HasGroup =>
      if Own(Job(id, Chroot)) in s.disk.dir then s.(stage := HasChrootId(s.disk.dir[Own(Job(id, Chroot))].uuid))
      else s.(stage := Failed)
    case HasChrootId(chroot) =>
      if Own(Job(id, Data)) in s.disk.dir then s.(stage := HasIds(chroot, s.disk.dir[Own(Job(id, Data))].uuid))
      else s.(stage := Failed)
    case HasIds(chroot, data) => Try(s, Assign(chroot, id), ChrootIn(chroot, data))
    case ChrootIn(chroot, data) => Try(s, Assign(data, id), BothIn(chroot, data))
    case BothIn(chroot, data) => Try(s, CountGroup(id), InTotal(chroot, data))
    case InTotal(chroot, data) => Try(s, SetLimit(id, limit), Leased(chroot, data))
    case Leased(_, _) => s
    case Failed => s
  }

  function Step(s: State, id: BuildId, limit: Option<nat>, e: Event): State {
    match e
    case Mine(newId) => Advance(s, id, limit, newId)
    case Others(c) => match Exec(s.disk, c) case Some(d) => s.(disk := d) case None => s
  }

  function Run(s: State, id: BuildId, limit: Option<nat>, events: seq<Event>): State {
    if events == [] then s
    else Step(Run(s, id, limit, events[..|events| - 1]), id, limit, events[|events| - 1])
  }

  /** What holds of one volume: known, and a member of the group for as long as it is there. */
  ghost predicate Holds(d: Disk, uuid: nat, id: BuildId, inGroup: bool, counted: bool) {
    && uuid in d.ids
    && (inGroup && uuid in Live(d.dir) ==> IsMember(d, uuid, id))
    && (counted && uuid in Live(d.dir) ==> IsCounted(d, uuid, id))
  }

  ghost predicate Invariant(s: State, id: BuildId) {
    && Valid(s.disk)
    && match s.stage
       case HasChrootId(c) => Holds(s.disk, c, id, false, false)
       case HasIds(c, d) => Holds(s.disk, c, id, false, false) && Holds(s.disk, d, id, false, false)
       case ChrootIn(c, d) => Holds(s.disk, c, id, true, false) && Holds(s.disk, d, id, false, false)
       case BothIn(c, d) => Holds(s.disk, c, id, true, false) && Holds(s.disk, d, id, true, false)
       case InTotal(c, d) => Holds(s.disk, c, id, true, true) && Holds(s.disk, d, id, true, true)
       case Leased(c, d) => Holds(s.disk, c, id, true, true) && Holds(s.disk, d, id, true, true)
       case _ => true
  }

  lemma HoldsIsStable(d: Disk, c: Command, uuid: nat, id: BuildId, inGroup: bool, counted: bool)
    requires Valid(d) && Exec(d, c).Some? && Holds(d, uuid, id, inGroup, counted)
    ensures Holds(Exec(d, c).value, uuid, id, inGroup, counted)
  {
    ExecKeepsValid(d, c);
    if uuid !in Live(d.dir) {
      DeadStaysDead(d, c, uuid);
    } else if IsMember(d, uuid, id) {
      MembershipIsStable(d, c, uuid, id);
    }
  }

  lemma TryKeeps(s: State, id: BuildId, c: Command, chroot: nat, data: nat, cIn: bool, dIn: bool, counted: bool)
    requires Valid(s.disk) && Exec(s.disk, c).Some?
    requires Holds(s.disk, chroot, id, cIn, counted) && Holds(s.disk, data, id, dIn, counted)
    ensures var d := Exec(s.disk, c).value;
      Valid(d) && Holds(d, chroot, id, cIn, counted) && Holds(d, data, id, dIn, counted)
  {
    ExecKeepsValid(s.disk, c);
    HoldsIsStable(s.disk, c, chroot, id, cIn, counted);
    HoldsIsStable(s.disk, c, data, id, dIn, counted);
  }

  lemma OthersKeep(s: State, id: BuildId, c: Command)
    requires Invariant(s, id) && Exec(s.disk, c).Some?
    ensures Invariant(s.(disk := Exec(s.disk, c).value), id)
  {
    ExecKeepsValid(s.disk, c);
    match s.stage
    case HasChrootId(x) => HoldsIsStable(s.disk, c, x, id, false, false);
    case HasIds(x, y) => TryKeeps(s, id, c, x, y, false, false, false);
    case ChrootIn(x, y) => TryKeeps(s, id, c, x, y, true, false, false);
    case BothIn(x, y) => TryKeeps(s, id, c, x, y, true, true, false);
    case InTotal(x, y) => TryKeeps(s, id, c, x, y, true, true, true);
    case Leased(x, y) => TryKeeps(s, id, c, x, y, true, true, true);
    case _ =>
  }

  lemma MineKeeps(s: State, id: BuildId, limit: Option<nat>, newId: nat)
    requires Invariant(s, id)
    ensures Invariant(Advance(s, id, limit, newId), id)
  {
    match s.stage
    case HasIds(x, y) =>
      if Exec(s.disk, Assign(x, id)).Some? { TryKeeps(s, id, Assign(x, id), x, y, false, false, false); }
    case ChrootIn(x, y) =>
      if Exec(s.disk, Assign(y, id)).Some? { TryKeeps(s, id, Assign(y, id), x, y, true, false, false); }
    case BothIn(x, y) =>
      if Exec(s.disk, CountGroup(id)).Some? { TryKeeps(s, id, CountGroup(id), x, y, true, true, false); }
    case InTotal(x, y) =>
      if Exec(s.disk, SetLimit(id, limit)).Some? { TryKeeps(s, id, SetLimit(id, limit), x, y, true, true, true); }
    case _ =>
  }

  lemma {:induction false} RunKeeps(s: State, id: BuildId, limit: Option<nat>, events: seq<Event>)
    requires Invariant(s, id)
    ensures Invariant(Run(s, id, limit, events), id)
  {
    if events != [] {
      RunKeeps(s, id, limit, events[..|events| - 1]);
      var t := Run(s, id, limit, events[..|events| - 1]);
      match events[|events| - 1]
      case Mine(newId) => MineKeeps(t, id, limit, newId);
      case Others(c) => if Exec(t.disk, c).Some? { OthersKeep(t, id, c); }
    }
  }

  /** From the moment a lease returns until they are deleted, under whatever name, its volumes
      are charged to its group and that group counts against the total -- whatever any other
      task does before, during or after the lease. */
  lemma LeasedVolumesStayCounted(d: Disk, id: BuildId, limit: Option<nat>, events: seq<Event>)
    requires Valid(d)
    ensures var s := Run(State(d, Begun), id, limit, events);
      s.stage.Leased? ==>
        && (s.stage.chroot in Live(s.disk.dir) ==> IsCounted(s.disk, s.stage.chroot, id))
        && (s.stage.data in Live(s.disk.dir) ==> IsCounted(s.disk, s.stage.data, id))
  {
    RunKeeps(State(d, Begun), id, limit, events);
  }

  lemma Extend(s0: State, id: BuildId, limit: Option<nat>, events: seq<Event>, s: State, e: Event)
      returns (events': seq<Event>, s': State)
    requires s == Run(s0, id, limit, events)
    ensures events' == events + [e] && s' == Step(s, id, limit, e) == Run(s0, id, limit, events')
  {
    events', s' := events + [e], Step(s, id, limit, e);
    assert events'[..|events|] == events;
  }

  /** Another task's tidy can destroy the group a lease has just made and not yet filled; the
      lease then fails rather than run uncounted. */
  lemma ATidyInBetweenFailsTheLease(d: Disk, id: BuildId, limit: Option<nat>, chroot: nat, data: nat)
    requires id in d.groups && d.groups[id].members == {}
    ensures Run(State(d, HasIds(chroot, data)), id, limit, [Others(GroupDestroy(id)), Mine(0)]).stage == Failed
  {
    var s0 := State(d, HasIds(chroot, data));
    var es, s := Extend(s0, id, limit, [], s0, Others(GroupDestroy(id)));
    es, s := Extend(s0, id, limit, es, s, Mine(0));
    assert es == [Others(GroupDestroy(id)), Mine(0)];
  }

  /** A build's two names hold these two volumes. */
  predicate HoldsVolumes(dir: Dir, id: BuildId, chroot: Node, data: nat) {
    && Own(Job(id, Chroot)) in dir && dir[Own(Job(id, Chroot))] == chroot
    && Own(Job(id, Data)) in dir && dir[Own(Job(id, Data))].uuid == data
  }

  /** The chroot a lease ends up with: a snapshot of the base, unless something is in its way. */
  function ChrootFor(dir: Dir, id: BuildId, newId: nat): Node
    requires Own(Base(Root)) in dir
  {
    if Own(Job(id, Chroot)) in dir then dir[Own(Job(id, Chroot))]
    else Node(newId, Some(dir[Own(Base(Root))].uuid), dir[Own(Base(Root))].mtime)
  }

  /** A build's group, left over or new. */
  function GroupFor(d: Disk, id: BuildId): Group {
    if id in d.groups then d.groups[id] else Group({}, false, None)
  }

  /** The lease's first two commands, on the names. */
  lemma Making(s0: State, id: BuildId, limit: Option<nat>, a: nat, b: nat) returns (events: seq<Event>, s: State)
    requires Valid(s0.disk) && s0.stage == Begun
    requires Own(Base(Root)) in s0.disk.dir && Own(Job(id, Data)) !in s0.disk.dir
    requires a !in s0.disk.ids && b !in s0.disk.ids && a != b
    ensures s == Run(s0, id, limit, events) && s.stage == HasData && s.disk.groups == s0.disk.groups
    ensures {ChrootFor(s0.disk.dir, id, a).uuid, b} <= s.disk.ids
    ensures HoldsVolumes(s.disk.dir, id, ChrootFor(s0.disk.dir, id, a), b)
  {
    assert Run(s0, id, limit, []) == s0;
    hide Run;
    events, s := Extend(s0, id, limit, [], s0, Mine(a));
    assert s.stage == HasChroot && s.disk.ids == s0.disk.ids + {a} && s.disk.groups == s0.disk.groups;
    assert Own(Job(id, Chroot)) in s.disk.dir && s.disk.dir[Own(Job(id, Chroot))] == ChrootFor(s0.disk.dir, id, a);
    events, s := Extend(s0, id, limit, events, s, Mine(b));
  }

  /** Then the group, and the identities. */
  lemma Grouping(s0: State, id: BuildId, limit: Option<nat>, before: seq<Event>, t: State, chroot: Node, data: nat)
      returns (events: seq<Event>, s: State)
    requires t == Run(s0, id, limit, before) && t.stage == HasData && HoldsVolumes(t.disk.dir, id, chroot, data)
    ensures s == Run(s0, id, limit, events) && s.stage == HasIds(chroot.uuid, data)
    ensures s.disk.dir == t.disk.dir && s.disk.ids == t.disk.ids
    ensures id in s.disk.groups && s.disk.groups[id] == GroupFor(t.disk, id)
  {
    hide Run;
    events, s := Extend(s0, id, limit, before, t, Mine(0));
    if s.stage == NeedsGroup {
      events, s := Extend(s0, id, limit, events, s, Mine(0));
    }
    assert s.stage == HasGroup && s.disk.dir == t.disk.dir && s.disk.ids == t.disk.ids;
    assert id in s.disk.groups && s.disk.groups[id] == GroupFor(t.disk, id);
    events, s := Extend(s0, id, limit, events, s, Mine(0));
    events, s := Extend(s0, id, limit, events, s, Mine(0));
  }

  /** Then it is filled. */
  lemma Filling(s0: State, id: BuildId, limit: Option<nat>, before: seq<Event>, t: State, a: nat, b: nat)
      returns (events: seq<Event>, s: State)
    requires t == Run(s0, id, limit, before) && t.stage == HasIds(a, b) && {a, b} <= t.disk.ids && id in t.disk.groups
    ensures s == Run(s0, id, limit, events) && s.stage == BothIn(a, b) && s.disk.dir == t.disk.dir
    ensures id in s.disk.groups && s.disk.groups[id].members == t.disk.groups[id].members + {a, b}
  {
    hide Run;
    events, s := Extend(s0, id, limit, before, t, Mine(0));
    assert s.stage == ChrootIn(a, b) && s.disk.dir == t.disk.dir && s.disk.ids == t.disk.ids;
    assert id in s.disk.groups && s.disk.groups[id].members == t.disk.groups[id].members + {a};
    events, s := Extend(s0, id, limit, events, s, Mine(0));
  }

  /** And counted and limited. */
  lemma Limiting(s0: State, id: BuildId, limit: Option<nat>, before: seq<Event>, t: State, a: nat, b: nat)
      returns (events: seq<Event>, s: State)
    requires t == Run(s0, id, limit, before) && t.stage == BothIn(a, b) && id in t.disk.groups
    ensures s == Run(s0, id, limit, events) && s.stage == Leased(a, b) && s.disk.dir == t.disk.dir
    ensures id in s.disk.groups && s.disk.groups[id] == Group(t.disk.groups[id].members, true, limit)
  {
    hide Run;
    events, s := Extend(s0, id, limit, before, t, Mine(0));
    assert s.stage == InTotal(a, b) && id in s.disk.groups && s.disk.groups[id].counted;
    events, s := Extend(s0, id, limit, events, s, Mine(0));
  }

  /** Undisturbed, a lease over a base and no left-over workdir succeeds, with its limit in force. Its
      chroot is a new snapshot of the base exactly when nothing was left under the chroot's name:
      a leftover that could not be removed is leased as it is. */
  lemma AnUndisturbedLeaseSucceeds(d: Disk, id: BuildId, limit: Option<nat>, a: nat, b: nat)
      returns (events: seq<Event>, s: State)
    requires Valid(d) && Own(Base(Root)) in d.dir && Own(Job(id, Data)) !in d.dir
    requires a !in d.ids && b !in d.ids && a != b
    ensures s == Run(State(d, Begun), id, limit, events)
    ensures s.stage == Leased(ChrootFor(d.dir, id, a).uuid, b)
    ensures HoldsVolumes(s.disk.dir, id, ChrootFor(d.dir, id, a), b)
    ensures id in s.disk.groups
    ensures s.disk.groups[id] == Group(GroupFor(d, id).members + {ChrootFor(d.dir, id, a).uuid, b}, true, limit)
    ensures s.stage.chroot == a <==> Own(Job(id, Chroot)) !in d.dir
  {
    hide Advance, Run, Exec;
    var s0, chroot := State(d, Begun), ChrootFor(d.dir, id, a);
    var made;
    events, made := Making(s0, id, limit, a, b);
    events, s := Grouping(s0, id, limit, events, made, chroot, b);
    events, s := Filling(s0, id, limit, events, s, chroot.uuid, b);
    events, s := Limiting(s0, id, limit, events, s, chroot.uuid, b);
  }

  /** A left-over workdir fails it. */
  lemma ALeftOverWorkdirFailsTheLease(d: Disk, id: BuildId, limit: Option<nat>, a: nat, b: nat)
    requires Own(Job(id, Data)) in d.dir
    ensures Run(State(d, Begun), id, limit, [Mine(a), Mine(b)]).stage == Failed
  {
    var s0 := State(d, Begun);
    var es, s := Extend(s0, id, limit, [], s0, Mine(a));
    es, s := Extend(s0, id, limit, es, s, Mine(b));
    assert es == [Mine(a), Mine(b)];
  }
}
