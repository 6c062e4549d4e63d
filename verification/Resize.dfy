/** The pool's size following its total: quota limit, filesystem, loop device and image file
    changed one command at a time, the process dying between any two. */
module Resize {
  import opened Decimal

  const MIN_MARGIN: nat := 0x8000_0000

  /** The size an image or device needs for a total: the total plus its margin, at `u64`. */
  function SizeFor(total: nat): nat {
    SaturatingAdd(total, if total / 20 < MIN_MARGIN then MIN_MARGIN else total / 20)
  }

  /** The margin is a twentieth of the total and never under two GiB, unless `u64` cuts it short. */
  lemma TheMarginIs(total: nat)
    ensures SizeFor(total) < 0xFFFF_FFFF_FFFF_FFFF ==>
      var margin := SizeFor(total) - total;
      0x8000_0000 <= margin && total / 20 <= margin && (margin == 0x8000_0000 || margin == total / 20)
    ensures SizeFor(total) <= 0xFFFF_FFFF_FFFF_FFFF
    ensures SizeFor(total) == 0xFFFF_FFFF_FFFF_FFFF ==>
      total + total / 20 >= 0xFFFF_FFFF_FFFF_FFFF || total + 0x8000_0000 >= 0xFFFF_FFFF_FFFF_FFFF
  {
  }

  /** A larger total never asks for less. */
  lemma SizeForIsMonotone(a: nat, b: nat)
    requires a <= b <= U64_MAX
    ensures SizeFor(a) <= SizeFor(b) <= U64_MAX
    ensures a + MIN_MARGIN <= SizeFor(a) || SizeFor(a) == U64_MAX
  {
    assert a / 20 <= b / 20;
  }

  datatype Outcome =
    | Fits
    | TooFull(size: nat, wanted: nat)
    | Error

  datatype Pc =
    | Idle
    | Limiting(total: nat)
    | Choosing(total: nat)
    | GrowingFile(total: nat)
    | GrowingDevice(total: nat)
    | GrowingFs(total: nat)
    | ShrinkingFs(total: nat)
    | ShrinkingFile(total: nat)
    | ShrinkingDevice(total: nat)

  /** The limit on the total's group, the image file's length, the loop device's size as the
      kernel knows it, and the filesystem's. `last` is what the last call to come back said. */
  datatype State = State(limit: Option<nat>, file: nat, device: nat, fs: nat, pc: Pc, last: Outcome)

  datatype Event =
    | Call(total: nat)
    | Act(ok: bool)
    | Crash
    /** The image mounted again: a new loop device, of the file's size. */
    | Reattach

  function Stop(s: State, outcome: Outcome): State {
    s.(pc := Idle, last := outcome)
  }

  function Work(s: State, ok: bool): State {
    match s.pc
    case Idle => s
    // Before any resize: nothing new may land in space about to go.
    case Limiting(total) => if ok then s.(limit := Some(total), pc := Choosing(total)) else Stop(s, Error)
    case Choosing(total) =>
      if SizeFor(total) > s.file then s.(pc := GrowingFile(total))
      else if SizeFor(total) < s.file then s.(pc := ShrinkingFs(total))
      else Stop(s, Fits)
    case GrowingFile(total) =>
      if ok then s.(file := SizeFor(total), pc := GrowingDevice(total)) else Stop(s, Error)
    case GrowingDevice(total) => if ok then s.(device := s.file, pc := GrowingFs(total)) else Stop(s, Error)
    case GrowingFs(total) => if ok then Stop(s.(fs := s.device), Fits) else Stop(s, Error)
    // The filesystem first, then the file under it. Never past the device it is on.
    case ShrinkingFs(total) =>
      if ok && SizeFor(total) <= s.device then s.(fs := SizeFor(total), pc := ShrinkingFile(total))
      else Stop(s, TooFull(s.file, SizeFor(total)))
    case ShrinkingFile(total) =>
      if ok then s.(file := SizeFor(total), pc := ShrinkingDevice(total)) else Stop(s, Error)
    case ShrinkingDevice(total) => if ok then Stop(s.(device := s.file), Fits) else Stop(s, Error)
  }

  function Step(s: State, e: Event): State {
    match e
    case Call(total) => if s.pc == Idle then s.(pc := Limiting(total)) else s
    case Act(ok) => Work(s, ok)
    case Crash => s.(pc := Idle)
    case Reattach => if s.pc == Idle then s.(device := s.file) else s
  }

  function Run(s: State, events: seq<Event>): State {
    if events == [] then s else Step(Run(s, events[..|events| - 1]), events[|events| - 1])
  }

  lemma RunMore(s: State, events: seq<Event>, e: Event)
    ensures Run(s, events + [e]) == Step(Run(s, events), e)
  {
    assert (events + [e])[..|events|] == events;
  }

  lemma RunTwo(s: State, a: Event, b: Event)
    ensures Run(s, [a, b]) == Step(Step(s, a), b)
  {
    hide Step;
    RunMore(s, [], a);
    RunMore(s, [a], b);
    assert [] + [a] == [a] && [a] + [b] == [a, b];
  }

  lemma RunFour(s: State, a: Event, b: Event, c: Event, d: Event)
    ensures Run(s, [a, b, c, d]) == Step(Step(Step(Step(s, a), b), c), d)
  {
    hide Step, Run;
    RunTwo(s, a, b);
    RunMore(s, [a, b], c);
    RunMore(s, [a, b, c], d);
    assert [a, b] + [c] == [a, b, c] && [a, b, c] + [d] == [a, b, c, d];
  }

  ghost predicate Invariant(s: State) {
    && s.fs <= s.file && s.fs <= s.device
    && match s.pc
       case Idle => true
       case Limiting(_) => true
       case Choosing(total) => s.limit == Some(total)
       case GrowingFile(total) => s.limit == Some(total) && s.file < SizeFor(total)
       case GrowingDevice(total) => s.limit == Some(total) && s.file == SizeFor(total)
       case GrowingFs(total) => s.limit == Some(total) && s.file == s.device == SizeFor(total)
       case ShrinkingFs(total) => s.limit == Some(total) && SizeFor(total) < s.file
       case ShrinkingFile(total) => s.limit == Some(total) && s.fs == SizeFor(total) < s.file
       case ShrinkingDevice(total) => s.limit == Some(total) && s.fs == s.file == SizeFor(total)
  }

  lemma StepKeeps(s: State, e: Event)
    requires Invariant(s)
    ensures Invariant(Step(s, e))
  {
  }

  lemma {:induction false} RunKeeps(s: State, events: seq<Event>)
    requires Invariant(s)
    ensures Invariant(Run(s, events))
  {
    if events != [] {
      RunKeeps(s, events[..|events| - 1]);
      StepKeeps(Run(s, events[..|events| - 1]), events[|events| - 1]);
    }
  }

  ghost predicate IsAt(start: State, events: seq<Event>, s: State) {
    Invariant(start) && s == Run(start, events) && Invariant(s)
  }

  lemma Onwards(start: State, events: seq<Event>, s: State, e: Event)
    requires IsAt(start, events, s)
    ensures IsAt(start, events + [e], Step(s, e))
  {
    RunMore(start, events, e);
    StepKeeps(s, e);
  }

  /** Through any calls and crashes the filesystem never exceeds the file or the device under
      it, and nothing shrinks before the limit it shrinks for is in force. */
  lemma TheFilesystemAlwaysFits(s: State, events: seq<Event>, e: Event)
    requires Invariant(s)
    ensures var before, after := Run(s, events), Run(s, events + [e]);
      && after.fs <= after.file && after.fs <= after.device
      && (after.fs < before.fs || after.file < before.file ==>
            before.limit.Some? && (after.fs < before.fs ==> after.fs == SizeFor(before.limit.value))
            && (after.file < before.file ==> after.file == SizeFor(before.limit.value)))
  {
    RunKeeps(s, events);
    RunKeeps(s, events + [e]);
    RunMore(s, events, e);
  }

  /** Events in which no other total is asked for. */
  ghost predicate AsksOnlyFor(events: seq<Event>, total: nat) {
    forall i :: 0 <= i < |events| && events[i].Call? ==> events[i].total == total
  }

  /** With the file at the size for a total, asking for that total -- any number of times, with
      crashes and reattachments in between -- leaves file and filesystem as they are, and no call says
      anything but that it fits or failed. */
  lemma {:induction false} TheSameTotalChangesNothing(s: State, total: nat, events: seq<Event>)
    requires s.pc == Idle && s.file == SizeFor(total) && AsksOnlyFor(events, total)
    ensures var t := Run(s, events);
      && t.pc in {Idle, Limiting(total), Choosing(total)}
      && t.file == s.file && t.fs == s.fs && t.last in {s.last, Fits, Error}
  {
    if events != [] {
      TheSameTotalChangesNothing(s, total, events[..|events| - 1]);
    }
  }

  /** A growth that dies once the file has grown. */
  function Interrupted(total: nat): seq<Event> {
    [Call(total), Act(true), Act(true), Act(true), Crash]
  }

  lemma InterruptedGrowth(s: State, total: nat)
    requires s.pc == Idle && s.file < SizeFor(total)
    ensures Run(s, Interrupted(total)) == s.(limit := Some(total), file := SizeFor(total))
  {
    hide SizeFor;
    hide Run;
    var four := [Call(total), Act(true), Act(true), Act(true)];
    RunFour(s, Call(total), Act(true), Act(true), Act(true));
    RunMore(s, four, Crash);
    assert Interrupted(total) == four + [Crash];
  }

  /** So a crash between growing the file and growing the filesystem is never made good by asking
      for the same total again. */
  lemma AnInterruptedGrowthIsNotFinished(s: State, total: nat, events: seq<Event>)
    requires Invariant(s) && s.pc == Idle && s.file < SizeFor(total) && AsksOnlyFor(events, total)
    ensures var t := Run(Run(s, Interrupted(total)), events);
      t.file == SizeFor(total) && t.fs == s.fs < SizeFor(total)
  {
    InterruptedGrowth(s, total);
    TheSameTotalChangesNothing(Run(s, Interrupted(total)), total, events);
  }

  /** Meanwhile such a call reports that it fits. */
  lemma AndSaysItFits(s: State, total: nat)
    requires s.pc == Idle && s.file == SizeFor(total)
    ensures Run(s, [Call(total), Act(true), Act(true)]) == s.(limit := Some(total), last := Fits)
  {
    RunTwo(s, Call(total), Act(true));
    RunMore(s, [Call(total), Act(true)], Act(true));
    assert [Call(total), Act(true)] + [Act(true)] == [Call(total), Act(true), Act(true)];
  }

  /** A loop device left smaller than its file by such a crash is reported as a pool too full for
      a size between the two, though the filesystem is smaller than that already. */
  lemma AStaleDeviceReadsAsTooFull(s: State, total: nat, ok: bool)
    requires Invariant(s) && s.pc == ShrinkingFs(total) && s.device < SizeFor(total)
    ensures Step(s, Act(ok)).last == TooFull(s.file, SizeFor(total)) && s.fs < SizeFor(total)
  {
  }

  /** An interrupted growth leads there: asked next for a size between the device's and the file's,
      the pool says it is too full for it. */
  lemma AnInterruptedGrowthReadsAsTooFull(s: State, big: nat, mid: nat, ok: bool)
    requires s.pc == Idle && s.file <= s.device < SizeFor(mid) < SizeFor(big)
    ensures Run(Run(s, Interrupted(big)), [Call(mid), Act(true), Act(true), Act(ok)]) ==
      s.(limit := Some(mid), file := SizeFor(big), last := TooFull(SizeFor(big), SizeFor(mid)))
  {
    InterruptedGrowth(s, big);
    hide SizeFor, Run;
    RunFour(Run(s, Interrupted(big)), Call(mid), Act(true), Act(true), Act(ok));
  }

  /** The commands a resize runs. */
  datatype Op = Limit | GrowFile | GrowDevice | GrowFs | ShrinkFs | ShrinkFile | ShrinkDevice | ReadCapacity | FitFs

  /** An image pool, resized as the worker resizes it. */
  class ImagePool {
    var limit: Option<nat>
    var file: nat
    var device: nat
    var fs: nat
    /** The size an image would have for its total, when it could not shrink to it. */
    var oversized: Option<nat>
    ghost const start: State
    ghost var events: seq<Event>
    ghost var at: State

    ghost predicate Consistent()
      reads this
    {
      && IsAt(start, events, at)
      && at.limit == limit && at.file == file && at.device == device && at.fs == fs
    }

    constructor (s: State)
      requires Invariant(s)
      ensures Consistent() && at == s
    {
      limit, file, device, fs, oversized := s.limit, s.file, s.device, s.fs, None;
      start, events, at := s, [], s;
    }

    ghost method Record(e: Event)
      requires IsAt(start, events, at)
      modifies this`events, this`at
      ensures events == old(events) + [e] && at == Step(old(at), e) && IsAt(start, events, at)
    {
      Onwards(start, events, at, e);
      events, at := events + [e], Step(at, e);
    }

    /** Set the total everything in the pool may use, and size the image to follow it; `failing`
        are the commands that do not work this time. */
    method SetTotal(total: nat, failing: set<Op>) returns (outcome: Outcome)
      requires Consistent() && at.pc == Idle
      modifies this
      ensures Consistent() && at.pc == Idle && at.last == outcome
      ensures outcome.TooFull? <==>
        && Limit !in failing && SizeFor(total) < old(file)
        && (ShrinkFs in failing || SizeFor(total) > old(device))
      ensures outcome == Error <==>
        || Limit in failing
        || (SizeFor(total) > old(file) && failing * {GrowFile, GrowDevice, GrowFs} != {})
        || (SizeFor(total) < old(file) && !outcome.TooFull? && failing * {ShrinkFile, ShrinkDevice} != {})
      ensures limit == if Limit in failing then old(limit) else Some(total)
      ensures Limit !in failing ==> (oversized.Some? <==> outcome.TooFull?)
      ensures outcome == Fits ==>
        && file == SizeFor(total)
        && (fs == SizeFor(total) <==> old(file) != SizeFor(total) || old(fs) == SizeFor(total))
      ensures outcome.TooFull? ==>
        && outcome == TooFull(file, SizeFor(total)) && oversized == Some(SizeFor(total))
        && file == old(file) && device == old(device) && fs == old(fs)
    {
      hide SizeFor, Run;
      Record(Call(total));
      Record(Act(Limit !in failing));
      if Limit in failing {
        return Error;
      }
      limit, oversized := Some(total), None;
      var want := SizeFor(total);
      Record(Act(true));
      if want > file {
        outcome := Grow(total, failing);
      } else if want < file {
        outcome := Shrink(total, failing);
      } else {
        outcome := Fits;
      }
    }

    method Grow(total: nat, failing: set<Op>) returns (outcome: Outcome)
      requires Consistent() && at.pc == GrowingFile(total)
      modifies this
      ensures Consistent() && at.pc == Idle && at.last == outcome
      ensures limit == old(limit) && oversized == old(oversized)
      ensures outcome == if failing * {GrowFile, GrowDevice, GrowFs} != {} then Error else Fits
      ensures outcome == Fits ==> fs == file == SizeFor(total)
    {
      hide SizeFor, Run;
      Record(Act(GrowFile !in failing));
      if GrowFile in failing {
        assert GrowFile in failing * {GrowFile, GrowDevice, GrowFs};
        return Error;
      }
      file := SizeFor(total);
      outcome := GrowUnder(total, failing);
      assert failing * {GrowFile, GrowDevice, GrowFs} == failing * {GrowDevice, GrowFs};
    }

    /** The device and the filesystem, once the file has grown. */
    method GrowUnder(total: nat, failing: set<Op>) returns (outcome: Outcome)
      requires Consistent() && at.pc == GrowingDevice(total)
      modifies this
      ensures Consistent() && at.pc == Idle && at.last == outcome
      ensures limit == old(limit) && oversized == old(oversized) && file == old(file)
      ensures outcome == if failing * {GrowDevice, GrowFs} != {} then Error else Fits
      ensures outcome == Fits ==> fs == file == SizeFor(total)
    {
      hide SizeFor, Run;
      Record(Act(GrowDevice !in failing));
      if GrowDevice in failing {
        assert GrowDevice in failing * {GrowDevice, GrowFs};
        return Error;
      }
      device := file;
      Record(Act(GrowFs !in failing));
      if GrowFs in failing {
        assert GrowFs in failing * {GrowDevice, GrowFs};
        return Error;
      }
      fs := device;
      outcome := Fits;
    }

    method Shrink(total: nat, failing: set<Op>) returns (outcome: Outcome)
      requires Consistent() && at.pc == ShrinkingFs(total) && oversized == None
      modifies this
      ensures Consistent() && at.pc == Idle && at.last == outcome && limit == old(limit)
      ensures outcome.TooFull? <==> ShrinkFs in failing || SizeFor(total) > old(device)
      ensures outcome == Error <==> !outcome.TooFull? && failing * {ShrinkFile, ShrinkDevice} != {}
      ensures oversized.Some? <==> outcome.TooFull?
      ensures outcome == Fits ==> fs == file == SizeFor(total)
      ensures outcome.TooFull? ==>
        && outcome == TooFull(file, SizeFor(total)) && oversized == Some(SizeFor(total))
        && file == old(file) && device == old(device) && fs == old(fs)
    {
      hide SizeFor, Run;
      Record(Act(ShrinkFs !in failing));
      if ShrinkFs in failing || SizeFor(total) > device {
        oversized := Some(SizeFor(total));
        return TooFull(file, SizeFor(total));
      }
      fs := SizeFor(total);
      outcome := ShrinkUnder(total, failing);
    }

    /** The file and the device, once the filesystem has shrunk. */
    method ShrinkUnder(total: nat, failing: set<Op>) returns (outcome: Outcome)
      requires Consistent() && at.pc == ShrinkingFile(total)
      modifies this
      ensures Consistent() && at.pc == Idle && at.last == outcome
      ensures limit == old(limit) && oversized == old(oversized) && fs == old(fs)
      ensures outcome == if failing * {ShrinkFile, ShrinkDevice} != {} then Error else Fits
      ensures outcome == Fits ==> fs == file == SizeFor(total)
    {
      hide SizeFor, Run;
      Record(Act(ShrinkFile !in failing));
      if ShrinkFile in failing {
        assert ShrinkFile in failing * {ShrinkFile, ShrinkDevice};
        return Error;
      }
      file := SizeFor(total);
      Record(Act(ShrinkDevice !in failing));
      if ShrinkDevice in failing {
        assert ShrinkDevice in failing * {ShrinkFile, ShrinkDevice};
        return Error;
      }
      device := file;
      outcome := Fits;
    }
  }

  datatype DeviceOutcome = FollowsTotal | KeptSize(size: nat, wanted: nat) | Failed

  /** A pool on a device of the operator's: the filesystem is fitted to the total as far as the
      device allows, and the device itself never touched. One over several devices is left alone. */
  class DevicePool {
    const capacity: nat
    const single: bool
    var limit: Option<nat>
    var fs: nat

    constructor (capacity: nat, single: bool, limit: Option<nat>, fs: nat)
      requires fs <= capacity
      ensures this.capacity == capacity && this.single == single && this.limit == limit && this.fs == fs
    {
      this.capacity, this.single, this.limit, this.fs := capacity, single, limit, fs;
    }

    /** Set the total, then fit the filesystem to it: nothing is resized unless the limit is set. */
    method SetTotal(total: nat, failing: set<Op>) returns (outcome: DeviceOutcome)
      requires fs <= capacity
      modifies this
      ensures limit == if Limit in failing then old(limit) else Some(total)
      ensures fs <= capacity
      ensures outcome == Failed <==> Limit in failing || (single && ReadCapacity in failing)
      ensures outcome == FollowsTotal && single ==>
        fs == if SizeFor(total) <= capacity then SizeFor(total) else capacity
      ensures !single || outcome != FollowsTotal ==> fs == old(fs)
      ensures outcome.KeptSize? ==>
        && FitFs in failing && outcome.size == fs != outcome.wanted
        && outcome.wanted == if SizeFor(total) <= capacity then SizeFor(total) else capacity
    {
      if Limit in failing {
        return Failed;
      }
      limit := Some(total);
      outcome := ResizeFilesystem(total, failing);
    }

    method ResizeFilesystem(total: nat, failing: set<Op>) returns (outcome: DeviceOutcome)
      requires fs <= capacity
      modifies this`fs
      ensures fs <= capacity
      ensures outcome == Failed <==> single && ReadCapacity in failing
      ensures outcome == FollowsTotal && single ==>
        fs == if SizeFor(total) <= capacity then SizeFor(total) else capacity
      ensures !single || outcome != FollowsTotal ==> fs == old(fs)
      ensures outcome.KeptSize? ==>
        && FitFs in failing && outcome.size == fs != outcome.wanted
        && outcome.wanted == if SizeFor(total) <= capacity then SizeFor(total) else capacity
    {
      if !single {
        return FollowsTotal;
      }
      if ReadCapacity in failing {
        return Failed;
      }
      var wanted := SizeFor(total);
      var target := if wanted <= capacity then wanted else capacity;
      if target == fs {
        return FollowsTotal;
      }
      if FitFs in failing {
        return KeptSize(fs, target);
      }
      fs := target;
      outcome := FollowsTotal;
    }
  }
}
