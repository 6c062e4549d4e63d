/** The base refresh: snapshot, upgrade, check, exchange, retire -- with the process dying
    between any two commands, and other tasks working in the pool meanwhile. */
module Refresh {
  import opened Decimal
  import opened Names
  import opened PoolDisk

  const ROOT := Own(Base(Root))
  const NEXT := Own(Base(Next))
  const PREV := Own(Base(Prev))

  datatype NextBase = Unfinished | Previous | Unknown

  /** Which side of the exchange a leftover `root.next` is on, from the two volumes' identities
      alone; `None` for one that could not be read. */
  function ClassifyNext(root: Option<Node>, next: Option<Node>): NextBase {
    match (root, next)
    case (Some(r), Some(n)) =>
      if n.parent == Some(r.uuid) then Unfinished
      else if r.parent == Some(n.uuid) then Previous
      else Unknown
    case _ => Unknown
  }

  /** Where the process holding the refresh lock is. A process that died is `Idle` again: the
      kernel drops its lock. */
  datatype Pc =
    | Idle
    | Recovering
    | DeletingNext(recovery: bool)
    | DeletingPrev(recovery: bool)
    | RenamingNext(recovery: bool)
    | Recovered
    | Counting
    | Upgrading
    | Checking
    | Exchanging

  /** What `root.next` really is. On no disk: a record of what happened. */
  datatype Truth = Nothing | Candidate | OldBase

  /** `checked` records which volumes have passed the check; nothing on disk says so. */
  datatype State = State(disk: Disk, checked: set<nat>, pc: Pc, truth: Truth)

  datatype Event =
    | Begin
    | Look(readable: bool)
    | Act(ok: bool, newId: nat)
    | Finish
    | Crash
    | Foreign(command: Command)

  /** What tasks other than the refresh may do: snapshot the base for a build, delete
      `root.prev` for room, and anything at all outside the base's names. */
  predicate IsForeign(c: Command) {
    match c
    case Snapshot(_, to, _) => to !in {ROOT, NEXT, PREV}
    case Create(to, _) => to !in {ROOT, NEXT, PREV}
    case Delete(names) => ROOT !in names && NEXT !in names
    case Rename(from, to) => from !in {ROOT, NEXT, PREV} && to !in {ROOT, NEXT, PREV}
    case Exchange(a, b) => a !in {ROOT, NEXT, PREV} && b !in {ROOT, NEXT, PREV}
    case _ => true
  }

  function Get(dir: Dir, n: Name): Option<Node> {
    if n in dir then Some(dir[n]) else None
  }

  /** Run one command of the refresh: onwards if it works, elsewhere if it does not. */
  function Try(s: State, ok: bool, c: Command, onwards: Pc, elsewhere: Pc): State {
    match Exec(s.disk, c)
    case Some(d) => if ok then s.(disk := d, pc := onwards) else s.(pc := elsewhere)
    case None => s.(pc := elsewhere)
  }

  function Observe(s: State, readable: bool): State {
    if NEXT !in s.disk.dir then s.(pc := Recovered)
    else if ROOT !in s.disk.dir then s.(pc := DeletingNext(true))
    else
      var read := n => if readable then Get(s.disk.dir, n) else None;
      match ClassifyNext(read(ROOT), read(NEXT))
      case Unfinished => s.(pc := DeletingNext(true))
      case Previous => s.(pc := DeletingPrev(true))
      case Unknown => s.(pc := DeletingNext(true))
  }

  function Work(s: State, ok: bool, newId: nat): State {
    match s.pc
    case DeletingNext(recovery) =>
      var t := Try(s, ok, Delete({NEXT}), if recovery then Recovered else Idle, Idle);
      if ok then t.(truth := Nothing) else t
    case DeletingPrev(recovery) =>
      if PREV in s.disk.dir then Try(s, ok, Delete({PREV}), RenamingNext(recovery), Idle)
      else s.(pc := RenamingNext(recovery))
    case RenamingNext(recovery) =>
      var t := Try(s, ok, Rename(NEXT, PREV), if recovery then Recovered else Idle, Idle);
      if t.disk.dir != s.disk.dir then t.(truth := Nothing) else t
    case Recovered =>
      var t := Try(s, ok, Snapshot(ROOT, NEXT, newId), Counting, DeletingNext(false));
      if t.pc == Counting then t.(truth := Candidate) else t
    case Counting =>
      if NEXT in s.disk.dir then
        Try(s, ok, CountVolume(s.disk.dir[NEXT].uuid), Upgrading, DeletingNext(false))
      else s.(pc := DeletingNext(false))
    case Upgrading => s.(pc := if ok then Checking else DeletingNext(false))
    case Checking =>
      if ok && NEXT in s.disk.dir then s.(checked := s.checked + {s.disk.dir[NEXT].uuid}, pc := Exchanging)
      else s.(pc := DeletingNext(false))
    case Exchanging =>
      var t := Try(s, ok, Exchange(ROOT, NEXT), DeletingPrev(false), DeletingNext(false));
      if t.pc == DeletingPrev(false) then t.(truth := OldBase) else t
    case _ => s
  }

  function Step(s: State, e: Event): State {
    match e
    case Begin => if s.pc == Idle then s.(pc := Recovering) else s
    case Look(readable) => if s.pc == Recovering then Observe(s, readable) else s
    case Act(ok, newId) => Work(s, ok, newId)
    case Finish => if s.pc == Recovered then s.(pc := Idle) else s
    case Crash => s.(pc := Idle)
    case Foreign(c) =>
      if IsForeign(c) && Exec(s.disk, c).Some? then s.(disk := Exec(s.disk, c).value) else s
  }

  function Run(s: State, events: seq<Event>): State {
    if events == [] then s else Step(Run(s, events[..|events| - 1]), events[|events| - 1])
  }

  lemma RunMore(s: State, events: seq<Event>, e: Event)
    ensures Run(s, events + [e]) == Step(Run(s, events), e)
  {
    assert (events + [e])[..|events|] == events;
  }

  ghost predicate IsAt(start: State, events: seq<Event>, s: State) {
    Invariant(start) && s == Run(start, events) && Invariant(s)
  }

  ghost predicate NextIs(dir: Dir, checked: set<nat>, truth: Truth)
    requires ROOT in dir
  {
    match truth
    case Nothing => NEXT !in dir
    case Candidate =>
      && NEXT in dir
      && dir[NEXT].parent == Some(dir[ROOT].uuid) && dir[ROOT].parent != Some(dir[NEXT].uuid)
    case OldBase =>
      && NEXT in dir && dir[NEXT].uuid in checked
      && dir[ROOT].parent == Some(dir[NEXT].uuid) && dir[NEXT].parent != Some(dir[ROOT].uuid)
  }

  ghost predicate PcFits(s: State) {
    match s.pc
    case Recovered => s.truth == Nothing
    case DeletingNext(recovery) => recovery || s.truth != OldBase
    case DeletingPrev(_) => s.truth == OldBase
    case RenamingNext(_) => s.truth == OldBase && PREV !in s.disk.dir
    case Counting => s.truth == Candidate
    case Upgrading => s.truth == Candidate && NEXT in s.disk.dir && s.disk.dir[NEXT].uuid in s.disk.total
    case Checking => s.truth == Candidate && NEXT in s.disk.dir && s.disk.dir[NEXT].uuid in s.disk.total
    case Exchanging =>
      && s.truth == Candidate && NEXT in s.disk.dir
      && s.disk.dir[NEXT].uuid in s.disk.total && s.disk.dir[NEXT].uuid in s.checked
    case _ => true
  }

  /** The base is there, checked, and counted against the total. */
  ghost predicate BaseIsSound(s: State) {
    ROOT in s.disk.dir && s.disk.dir[ROOT].uuid in s.checked && s.disk.dir[ROOT].uuid in s.disk.total
  }

  ghost predicate Invariant(s: State) {
    && Valid(s.disk)
    && BaseIsSound(s)
    && NextIs(s.disk.dir, s.checked, s.truth)
    && PcFits(s)
  }

  lemma ForeignSparesTheBase(d: Disk, c: Command, n: Name)
    requires IsForeign(c) && Exec(d, c).Some? && n in {ROOT, NEXT}
    ensures var dir := Exec(d, c).value.dir;
      && (n in dir <==> n in d.dir)
      && (n in dir ==> dir[n].uuid == d.dir[n].uuid && dir[n].parent == d.dir[n].parent)
      && (PREV in dir ==> PREV in d.dir)
  {
  }

  lemma ForeignKeeps(s: State, c: Command)
    requires Invariant(s) && IsForeign(c) && Exec(s.disk, c).Some?
    ensures Invariant(Step(s, Foreign(c)))
    ensures Get(Step(s, Foreign(c)).disk.dir, ROOT).value.uuid == s.disk.dir[ROOT].uuid
  {
    ExecKeepsValid(s.disk, c);
    ForeignSparesTheBase(s.disk, c, ROOT);
    ForeignSparesTheBase(s.disk, c, NEXT);
    CountIsStable(s.disk, c, s.disk.dir[ROOT].uuid);
    if NEXT in s.disk.dir && s.disk.dir[NEXT].uuid in s.disk.total {
      CountIsStable(s.disk, c, s.disk.dir[NEXT].uuid);
    }
    hide Exec, Valid;
  }

  /** `root` is another volume after a step only as an exchange makes it so. */
  ghost predicate ChangesOnlyByExchange(s: State, s': State)
    requires ROOT in s.disk.dir && ROOT in s'.disk.dir
  {
    s'.disk.dir[ROOT].uuid != s.disk.dir[ROOT].uuid ==>
      && s.pc == Exchanging && NEXT in s.disk.dir
      && s'.disk.dir[ROOT] == s.disk.dir[NEXT]
      && s.disk.dir[NEXT].parent == Some(s.disk.dir[ROOT].uuid)
  }

  lemma ClearingKeeps(s: State, ok: bool)
    requires Invariant(s) && (s.pc.DeletingNext? || s.pc.DeletingPrev?)
    ensures Invariant(Work(s, ok, 0)) && ChangesOnlyByExchange(s, Work(s, ok, 0))
  {
    ExecKeepsValid(s.disk, Delete({NEXT}));
    ExecKeepsValid(s.disk, Delete({PREV}));
  }

  lemma RenamingKeeps(s: State, ok: bool)
    requires Invariant(s) && s.pc.RenamingNext?
    ensures Invariant(Work(s, ok, 0)) && ChangesOnlyByExchange(s, Work(s, ok, 0))
  {
    if Exec(s.disk, Rename(NEXT, PREV)).Some? {
      ExecKeepsValid(s.disk, Rename(NEXT, PREV));
      assert PREV in Exec(s.disk, Rename(NEXT, PREV)).value.dir && PREV !in s.disk.dir;
    }
  }

  lemma MakingKeeps(s: State, ok: bool, newId: nat)
    requires Invariant(s) && s.pc in {Recovered, Counting}
    ensures Invariant(Work(s, ok, newId)) && ChangesOnlyByExchange(s, Work(s, ok, newId))
  {
    if s.pc == Counting {
      ExecKeepsValid(s.disk, CountVolume(s.disk.dir[NEXT].uuid));
    } else if Exec(s.disk, Snapshot(ROOT, NEXT, newId)).Some? {
      ExecKeepsValid(s.disk, Snapshot(ROOT, NEXT, newId));
    }
  }

  lemma ExchangingKeeps(s: State, ok: bool)
    requires Invariant(s) && s.pc == Exchanging
    ensures Invariant(Work(s, ok, 0)) && ChangesOnlyByExchange(s, Work(s, ok, 0))
  {
    ExecKeepsValid(s.disk, Exchange(ROOT, NEXT));
  }

  lemma WorkKeeps(s: State, ok: bool, newId: nat)
    requires Invariant(s)
    ensures Invariant(Work(s, ok, newId)) && ChangesOnlyByExchange(s, Work(s, ok, newId))
  {
    hide Exec, Valid;
    match s.pc
    case DeletingNext(_) => ClearingKeeps(s, ok);
    case DeletingPrev(_) => ClearingKeeps(s, ok);
    case RenamingNext(_) => RenamingKeeps(s, ok);
    case Recovered => MakingKeeps(s, ok, newId);
    case Counting => MakingKeeps(s, ok, newId);
    case Exchanging => ExchangingKeeps(s, ok);
    case _ =>
  }

  lemma StepKeeps(s: State, e: Event)
    requires Invariant(s)
    ensures Invariant(Step(s, e))
    ensures Step(s, e).disk.dir[ROOT].uuid != s.disk.dir[ROOT].uuid ==>
      && e.Act? && s.pc == Exchanging && NEXT in s.disk.dir
      && Step(s, e).disk.dir[ROOT] == s.disk.dir[NEXT]
      && s.disk.dir[NEXT].parent == Some(s.disk.dir[ROOT].uuid)
  {
    match e
    case Act(ok, newId) => WorkKeeps(s, ok, newId);
    case Foreign(c) => if IsForeign(c) && Exec(s.disk, c).Some? { ForeignKeeps(s, c); }
    case _ =>
  }

  lemma Onwards(start: State, events: seq<Event>, s: State, e: Event)
    requires IsAt(start, events, s)
    ensures IsAt(start, events + [e], Step(s, e))
  {
    RunMore(start, events, e);
    StepKeeps(s, e);
  }

  lemma {:induction false} RunKeeps(s: State, events: seq<Event>)
    requires Invariant(s)
    ensures Invariant(Run(s, events))
  {
    if events != [] {
      RunKeeps(s, events[..|events| - 1]);
      StepKeeps(Run(s, events[..|events| - 1]), events[|events| - 1]);
    }
  }

  /** Over any number of refreshes, dying anywhere, readable identities or not: `root` is always
      there, checked and counted, and the next event changes it only as an exchange with a
      checked, counted candidate that was snapshotted from it. */
  lemma TheBaseIsAlwaysSound(s: State, events: seq<Event>, e: Event)
    requires Invariant(s)
    ensures var before, after := Run(s, events), Run(s, events + [e]);
      && BaseIsSound(before) && BaseIsSound(after)
      && (after.disk.dir[ROOT].uuid != before.disk.dir[ROOT].uuid ==>
            && before.pc == Exchanging && NEXT in before.disk.dir
            && after.disk.dir[ROOT] == before.disk.dir[NEXT]
            && before.disk.dir[NEXT].parent == Some(before.disk.dir[ROOT].uuid)
            && before.disk.dir[NEXT].uuid in before.checked && before.disk.dir[NEXT].uuid in before.disk.total)
  {
    RunKeeps(s, events);
    RunMore(s, events, e);
    StepKeeps(Run(s, events), e);
  }

  /** On every reachable state with readable identities, the classification is the truth: a
      refresh that died before the exchange is told from one that died after it, every time. */
  lemma ClassificationIsExact(s: State, events: seq<Event>)
    requires Invariant(s)
    ensures var t := Run(s, events);
      var verdict := ClassifyNext(Get(t.disk.dir, ROOT), Get(t.disk.dir, NEXT));
      && (verdict == Unfinished <==> t.truth == Candidate)
      && (verdict == Previous <==> t.truth == OldBase)
      && (verdict == Unknown <==> NEXT !in t.disk.dir)
  {
    RunKeeps(s, events);
  }

  /** The candidate is never snapshotted into a leftover: no `root.next` is there by then. */
  lemma SnapshotNeverLandsInALeftover(s: State, events: seq<Event>)
    requires Invariant(s)
    ensures Run(s, events).pc == Recovered ==> NEXT !in Run(s, events).disk.dir
  {
    RunKeeps(s, events);
  }

  /** What a dead refresh leaves `root.prev` to be, once recovered. */
  function PrevAfter(s: State): Option<Node> {
    if s.truth == OldBase then Get(s.disk.dir, NEXT) else Get(s.disk.dir, PREV)
  }

  predicate InRecovery(pc: Pc) {
    pc in {Idle, Recovering, DeletingNext(true), DeletingPrev(true), RenamingNext(true), Recovered}
  }

  /** What happens while recovery does: its own events, crashes included -- it is started over as
      often as it dies -- and other tasks' commands, none of which touches the base's own times. */
  predicate IsRecovery(s: State, e: Event) {
    && InRecovery(s.pc) && e != Look(false) && (e.Act? ==> s.pc != Recovered)
    && (e.Foreign? && e.command.Touch? ==> e.command.name !in {ROOT, NEXT, PREV})
  }

  ghost predicate IsRecoveryRun(s: State, events: seq<Event>) {
    forall k :: 0 <= k < |events| ==> IsRecovery(Run(s, events[..k]), events[k])
  }

  /** Another task deletes `root.prev`, for room. */
  predicate TakesPrev(e: Event) {
    e.Foreign? && e.command.Delete? && PREV in e.command.names
  }

  /** `root.prev` is as it should be, or another task has taken it. */
  ghost predicate IsOrTaken(events: seq<Event>, prev: Option<Node>, should: Option<Node>) {
    prev == should || (prev == None && exists k :: 0 <= k < |events| && TakesPrev(events[k]))
  }

  lemma ForeignLeavesTheBase(d: Disk, c: Command, n: Name)
    requires IsForeign(c) && Exec(d, c).Some? && n in {ROOT, NEXT, PREV} && (c.Touch? ==> c.name != n)
    ensures Get(Exec(d, c).value.dir, n) == if c.Delete? && n in c.names then None else Get(d.dir, n)
  {
  }

  lemma ForeignKeepsOutcome(s: State, e: Event)
    requires IsRecovery(s, e) && e.Foreign?
    ensures PrevAfter(Step(s, e)) == PrevAfter(s) || (TakesPrev(e) && PrevAfter(Step(s, e)) == None)
    ensures Get(Step(s, e).disk.dir, ROOT) == Get(s.disk.dir, ROOT)
  {
    hide Exec, Get;
    var c := e.command;
    if IsForeign(c) && Exec(s.disk, c).Some? {
      ForeignLeavesTheBase(s.disk, c, ROOT);
      ForeignLeavesTheBase(s.disk, c, NEXT);
      ForeignLeavesTheBase(s.disk, c, PREV);
    }
  }

  lemma RecoveryKeepsOutcome(s: State, e: Event)
    requires Invariant(s) && IsRecovery(s, e)
    requires s.pc == DeletingNext(true) ==> s.truth != OldBase
    ensures Invariant(Step(s, e)) && InRecovery(Step(s, e).pc)
    ensures Step(s, e).pc == DeletingNext(true) ==> Step(s, e).truth != OldBase
    ensures PrevAfter(Step(s, e)) == PrevAfter(s) || (TakesPrev(e) && PrevAfter(Step(s, e)) == None)
    ensures Step(s, e).disk.dir[ROOT] == s.disk.dir[ROOT]
  {
    StepKeeps(s, e);
    if e.Foreign? {
      ForeignKeepsOutcome(s, e);
      hide Exec, PrevAfter, TakesPrev;
    }
  }

  lemma {:induction false} RecoveryRunKeepsOutcome(s: State, events: seq<Event>)
    requires Invariant(s) && s.pc == Idle
    requires IsRecoveryRun(s, events)
    ensures var t := Run(s, events);
      && Invariant(t) && InRecovery(t.pc) && (t.pc == DeletingNext(true) ==> t.truth != OldBase)
      && IsOrTaken(events, PrevAfter(t), PrevAfter(s)) && t.disk.dir[ROOT] == s.disk.dir[ROOT]
  {
    hide Step, Invariant, PrevAfter;
    if events != [] {
      var front := events[..|events| - 1];
      forall k | 0 <= k < |front|
        ensures IsRecovery(Run(s, front[..k]), front[k])
      {
        assert front[..k] == events[..k];
      }
      RecoveryRunKeepsOutcome(s, front);
      RecoveryKeepsOutcome(Run(s, front), events[|events| - 1]);
      assert forall k :: 0 <= k < |front| ==> front[k] == events[k];
    }
  }

  /** Recovery, interrupted and rerun any number of times while other tasks work, ends where one
      uninterrupted recovery ends: `root.next` gone, `root` untouched, and `root.prev` the base
      `root` was snapshotted from if the refresh died after the exchange, or untouched if it died
      before -- unless another task has taken it for room. */
  lemma RecoveryConverges(s: State, events: seq<Event>)
    requires Invariant(s) && s.pc == Idle
    requires IsRecoveryRun(s, events)
    requires Run(s, events).pc == Recovered
    ensures var dir := Run(s, events).disk.dir;
      && NEXT !in dir
      && ROOT in dir && dir[ROOT] == s.disk.dir[ROOT]
      && IsOrTaken(events, Get(dir, PREV), if s.truth == OldBase then Get(s.disk.dir, NEXT) else Get(s.disk.dir, PREV))
      && (s.truth == OldBase && PREV in dir ==> dir[ROOT].parent == Some(dir[PREV].uuid))
  {
    RecoveryRunKeepsOutcome(s, events);
  }

  lemma Extend(s: State, events: seq<Event>, t: State, e: Event) returns (events': seq<Event>, t': State)
    requires t == Run(s, events) && IsRecoveryRun(s, events) && Invariant(t) && IsRecovery(t, e)
    ensures |events'| == |events| + 1 && t' == Step(t, e) == Run(s, events')
    ensures IsRecoveryRun(s, events') && Invariant(t')
  {
    events', t' := events + [e], Step(t, e);
    RunMore(s, events, e);
    StepKeeps(t, e);
    assert events'[..|events|] == events;
    assert forall k :: 0 <= k < |events| ==> events'[..k] == events[..k];
  }

  lemma RecoveryProgress(s: State)
    requires Invariant(s)
    ensures s.pc == Recovering ==> Step(s, Look(true)).pc in {Recovered, DeletingNext(true), DeletingPrev(true)}
    ensures s.pc == DeletingPrev(true) ==> Step(s, Act(true, 0)).pc == RenamingNext(true)
    ensures s.pc in {DeletingNext(true), RenamingNext(true)} ==> Step(s, Act(true, 0)).pc == Recovered
  {
  }

  /** And it gets there: when its commands work, with at most two of them. */
  lemma RecoveryFinishes(s: State) returns (events: seq<Event>)
    requires Invariant(s) && s.pc == Idle
    ensures |events| <= 4 && IsRecoveryRun(s, events)
    ensures Run(s, events).pc == Recovered
  {
    var t;
    events, t := Extend(s, [], s, Begin);
    RecoveryProgress(t);
    events, t := Extend(s, events, t, Look(true));
    if t.pc != Recovered {
      RecoveryProgress(t);
      events, t := Extend(s, events, t, Act(true, 0));
      if t.pc != Recovered {
        RecoveryProgress(t);
        events, t := Extend(s, events, t, Act(true, 0));
      }
    }
  }

  /** An unreadable identity costs the rollback point, never the base. */
  lemma UnreadableLosesOnlyTheRollback(s: State)
    requires Invariant(s) && s.pc == Idle && s.truth == OldBase
    ensures var t := Run(s, [Begin, Look(false), Act(true, 0)]);
      && t.pc == Recovered && NEXT !in t.disk.dir
      && Get(t.disk.dir, PREV) == Get(s.disk.dir, PREV) && Get(t.disk.dir, ROOT) == Get(s.disk.dir, ROOT)
  {
    RunThree(s, Begin, Look(false), Act(true, 0));
    hide Run, Valid;
    var looked := Step(Step(s, Begin), Look(false));
    assert looked == s.(pc := DeletingNext(true));
  }

  lemma RunThree(s: State, a: Event, b: Event, c: Event)
    ensures Run(s, [a, b, c]) == Step(Step(Step(s, a), b), c)
  {
    hide Step;
    RunMore(s, [], a);
    RunMore(s, [a], b);
    RunMore(s, [a, b], c);
    assert [] + [a] == [a] && [a] + [b] == [a, b] && [a, b] + [c] == [a, b, c];
  }

  /** Retiring the previous base can stop half way: the old rollback point deleted, and the new one
      not yet under its name. */
  lemma RetiringCanStopHalfWay(s: State)
    requires Invariant(s) && s.pc == DeletingPrev(false) && PREV in s.disk.dir
    ensures var dir := Run(s, [Act(true, 0), Act(false, 0)]).disk.dir;
      PREV !in dir && Get(dir, NEXT) == Get(s.disk.dir, NEXT) && NEXT in dir
  {
    RunMore(s, [], Act(true, 0));
    RunMore(s, [Act(true, 0)], Act(false, 0));
    assert [] + [Act(true, 0)] == [Act(true, 0)] && [Act(true, 0)] + [Act(false, 0)] == [Act(true, 0), Act(false, 0)];
  }

  /** The commands of a refresh that can fail, some of them in its recovery as well. */
  datatype Op =
    | DeleteNext(recovery: bool)
    | DeletePrev(recovery: bool)
    | RenameNext(recovery: bool)
    | TakeSnapshot
    | Count
    | Upgrade
    | Check
    | Swap

  /** Whether retiring the previous base works out. */
  predicate Retires(dir: Dir, recovery: bool, failing: set<Op>) {
    (PREV !in dir || DeletePrev(recovery) !in failing) && RenameNext(recovery) !in failing
  }

  /** Whether recovery does, by what `root.next` really is. */
  predicate Recovers(s: State, readable: bool, failing: set<Op>) {
    if s.truth == Nothing then true
    else if s.truth == OldBase && readable then Retires(s.disk.dir, true, failing)
    else DeleteNext(true) !in failing
  }

  /** The refresh as the worker runs it, command by command. Its events are a run of the
      protocol above, so every crash point of every run is covered by the lemmas there. */
  class Refresher {
    var disk: Disk
    ghost const start: State
    ghost var events: seq<Event>
    ghost var at: State

    ghost predicate Consistent()
      reads this
    {
      IsAt(start, events, at) && at.disk == disk
    }

    constructor (d: Disk, ghost s: State)
      requires Invariant(s) && s.disk == d
      ensures Consistent() && disk == d && at == s && events == []
    {
      disk, start, events, at := d, s, [], s;
    }

    ghost method Record(e: Event)
      requires IsAt(start, events, at)
      modifies this`events, this`at
      ensures events == old(events) + [e] && at == Step(old(at), e) && IsAt(start, events, at)
    {
      Onwards(start, events, at, e);
      events, at := events + [e], Step(at, e);
    }

    method DiscardNext(failing: set<Op>)
      requires Consistent() && at.pc == DeletingNext(false)
      modifies this
      ensures Consistent() && at.pc == Idle
      ensures Get(disk.dir, ROOT) == Get(old(disk.dir), ROOT) && Get(disk.dir, PREV) == Get(old(disk.dir), PREV)
      ensures DeleteNext(false) !in failing ==> NEXT !in disk.dir
    {
      hide IsAt;
      var ok;
      ok, disk := Attempt(disk, Delete({NEXT}), DeleteNext(false) !in failing);
      Record(Act(ok, 0));
    }

    method MakeWayForPrev(recovery: bool, failing: set<Op>) returns (ok: bool)
      requires Consistent() && at.pc == DeletingPrev(recovery)
      modifies this
      ensures ok == (PREV !in old(disk.dir) || DeletePrev(recovery) !in failing)
      ensures Get(disk.dir, PREV) == if ok then None else Get(old(disk.dir), PREV)
      ensures Consistent() && at.pc == (if ok then RenamingNext(recovery) else Idle)
      ensures Get(disk.dir, ROOT) == Get(old(disk.dir), ROOT) && Get(disk.dir, NEXT) == Get(old(disk.dir), NEXT)
      ensures disk.ids == old(disk.ids)
    {
      hide Run, Valid;
      if PREV !in disk.dir {
        Record(Act(true, 0));
        return true;
      }
      ok, disk := Attempt(disk, Delete({PREV}), DeletePrev(recovery) !in failing);
      Record(Act(ok, 0));
    }

    /** Retire the exchanged-out base as the rollback point. Short of that nothing is changed exactly
        when there was no old one, or it could not be deleted. */
    method RetirePrev(recovery: bool, failing: set<Op>) returns (ok: bool)
      requires Consistent() && at.pc == DeletingPrev(recovery)
      modifies this
      ensures ok <==>
        (PREV !in old(disk.dir) || DeletePrev(recovery) !in failing) && RenameNext(recovery) !in failing
      ensures Consistent() && at.pc == (if ok && recovery then Recovered else Idle)
      ensures Get(disk.dir, ROOT) == Get(old(disk.dir), ROOT)
      ensures ok ==> NEXT !in disk.dir && Get(disk.dir, PREV) == Get(old(disk.dir), NEXT)
      ensures !ok ==> Get(disk.dir, NEXT) == Get(old(disk.dir), NEXT)
      ensures !ok ==>
        (Get(disk.dir, PREV) == Get(old(disk.dir), PREV) <==>
          PREV !in old(disk.dir) || DeletePrev(recovery) in failing)
      ensures disk.ids == old(disk.ids)
    {
      hide Run, Valid;
      ok := MakeWayForPrev(recovery, failing);
      if ok {
        ok, disk := Attempt(disk, Rename(NEXT, PREV), RenameNext(recovery) !in failing);
        Record(Act(ok, 0));
      }
    }

    /** Finish or clear whatever a refresh left behind. */
    method RecoverRefresh(readable: bool, failing: set<Op>) returns (ok: bool)
      requires Consistent() && at.pc == Recovering
      modifies this
      ensures ok == old(Recovers(at, readable, failing))
      ensures Consistent() && at.pc == (if ok then Recovered else Idle)
      ensures Get(disk.dir, ROOT) == Get(old(disk.dir), ROOT)
      ensures ok ==> NEXT !in disk.dir
      ensures ok && readable ==> Get(disk.dir, PREV) == old(PrevAfter(at))
      ensures ok && !readable ==> Get(disk.dir, PREV) == Get(old(disk.dir), PREV)
      ensures disk.ids == old(disk.ids)
    {
      hide Run, Valid;
      if NEXT !in disk.dir {
        Record(Look(readable));
        return true;
      }
      if ROOT !in disk.dir {
        assert false;
      }
      var root := if readable then Get(disk.dir, ROOT) else None;
      var next := if readable then Get(disk.dir, NEXT) else None;
      Record(Look(readable));
      match ClassifyNext(root, next) {
        case Previous =>
          ok := RetirePrev(true, failing);
        case _ =>
          ok, disk := Attempt(disk, Delete({NEXT}), DeleteNext(true) !in failing);
          Record(Act(ok, 0));
      }
    }

    /** Snapshot the base into the candidate, counted against the total at once. */
    method SnapshotNext(newId: nat, failing: set<Op>) returns (ok: bool)
      requires Consistent() && at.pc == Recovered
      modifies this
      ensures ok == (newId !in old(disk.ids) && failing !! {TakeSnapshot, Count})
      ensures Consistent() && at.pc == (if ok then Upgrading else DeletingNext(false))
      ensures Get(disk.dir, ROOT) == Get(old(disk.dir), ROOT)
      ensures ok ==>
        NEXT in disk.dir && disk.dir[NEXT].uuid == newId && disk.dir[NEXT].parent == Some(old(disk.dir[ROOT].uuid))
    {
      assert ROOT in disk.dir && NEXT !in disk.dir;
      hide IsAt;
      ok, disk := Attempt(disk, Snapshot(ROOT, NEXT, newId), TakeSnapshot !in failing);
      Record(Act(ok, newId));
      if ok {
        ok := ChargeNext(failing);
      }
    }

    /** Count the candidate against the total. */
    method ChargeNext(failing: set<Op>) returns (ok: bool)
      requires Consistent() && at.pc == Counting
      modifies this
      ensures ok == (Count !in failing)
      ensures Consistent() && at.pc == (if ok then Upgrading else DeletingNext(false))
      ensures disk.dir == old(disk.dir)
      ensures ok ==> NEXT in disk.dir && disk.dir[NEXT].uuid in disk.total
    {
      assert NEXT in disk.dir;
      hide IsAt;
      ok, disk := Attempt(disk, CountVolume(disk.dir[NEXT].uuid), Count !in failing);
      Record(Act(ok, 0));
    }

    /** Make a candidate, upgrade it and check it. */
    method MakeCandidate(newId: nat, failing: set<Op>) returns (ok: bool)
      requires Consistent() && at.pc == Recovered
      modifies this
      ensures ok == (newId !in old(disk.ids) && failing !! {TakeSnapshot, Count, Upgrade, Check})
      ensures Consistent() && at.pc == (if ok then Exchanging else DeletingNext(false))
      ensures Get(disk.dir, ROOT) == Get(old(disk.dir), ROOT)
      ensures ok ==>
        NEXT in disk.dir && disk.dir[NEXT].uuid == newId && disk.dir[NEXT].parent == Some(old(disk.dir[ROOT].uuid))
    {
      hide IsAt;
      ok := SnapshotNext(newId, failing);
      if !ok {
        return;
      }
      ok := Upgrade !in failing;
      Record(Act(ok, 0));
      if !ok {
        return;
      }
      ok := Check !in failing;
      Record(Act(ok, 0));
    }

    /** Swap the checked candidate into the base's place. */
    method ExchangeRoot(failing: set<Op>) returns (ok: bool)
      requires Consistent() && at.pc == Exchanging
      modifies this
      ensures ok == (Swap !in failing)
      ensures Consistent() && at.pc == (if ok then DeletingPrev(false) else DeletingNext(false))
      ensures ok ==>
        Get(disk.dir, ROOT) == Get(old(disk.dir), NEXT) && Get(disk.dir, NEXT) == Get(old(disk.dir), ROOT)
      ensures !ok ==> disk == old(disk)
    {
      assert ROOT in disk.dir && NEXT in disk.dir;
      hide IsAt;
      ok, disk := Attempt(disk, Exchange(ROOT, NEXT), Swap !in failing);
      Record(Act(ok, 0));
    }

    /** One refresh of an existing base; `failing` are the commands that do not work this time.
        `true` when it swapped a new base in. */
    method Refresh(readable: bool, newId: nat, failing: set<Op>) returns (swapped: bool)
      requires Consistent() && at.pc == Idle
      modifies this
      ensures Consistent() && at.pc == Idle && BaseIsSound(at)
      ensures swapped <==>
        && old(Recovers(at, readable, failing))
        && newId !in old(disk.ids) && failing !! {TakeSnapshot, Count, Upgrade, Check, Swap}
      ensures !swapped ==> Get(disk.dir, ROOT) == Get(old(disk.dir), ROOT)
      ensures swapped ==> disk.dir[ROOT].uuid == newId && disk.dir[ROOT].parent == Some(old(disk.dir[ROOT].uuid))
      ensures swapped && failing !! {DeletePrev(false), RenameNext(false)} ==>
        NEXT !in disk.dir && Get(disk.dir, PREV) == Get(old(disk.dir), ROOT)
    {
      hide Run, Valid;
      swapped := false;
      Record(Begin);
      var ok := RecoverRefresh(readable, failing);
      if !ok {
        return;
      }
      ok := MakeCandidate(newId, failing);
      if ok {
        ok := ExchangeRoot(failing);
      }
      if !ok {
        DiscardNext(failing);
        return;
      }
      swapped := true;
      // What cannot be retired now, the next recovery retires.
      var _ := RetirePrev(false, failing);
    }
  }
}
