/** An install as a trace of states of the world, with everything it asks of the outside able to fail. */
module Updating {
  import opened Draining
  import opened Prelude

  type Version = string

  /** What is on disk between two Towers of different versions. */
  datatype Handover = Handover(
    from: Version, to: Version, boots: nat, healthy: bool, rolledBack: bool, token: Option<string>)
  {
    predicate Settled() {
      healthy || rolledBack
    }
  }

  /** What is at the binary's path: the version that is running, the release, or nothing. */
  datatype Image = Ours | Incoming | Missing

  /** The Tower started beside this one: not yet, alive, ended by itself, or killed and waited for. */
  datatype Child = NotStarted | Alive | Ended | Reaped

  /** Whose the serving lock is. */
  datatype Holder = Nobody | ThisTower | Successor

  datatype World = World(
    binary: Image, record: Option<Handover>, lock: Holder, draining: bool, cuttingOff: bool, child: Child)
  {
    /** With its successor alive a Tower holds work back, does not hold the factory, and has put the release,
        and a record of it that no one has rolled back, where the successor finds them. */
    predicate Safe(cutOff: bool) {
      child == Alive ==>
        && draining && cuttingOff == cutOff && lock != ThisTower && binary == Incoming
        && record.Some? && !record.value.rolledBack
    }
  }

  /** What a restore comes to: the old binary back, or a failure that leaves the new one or neither. */
  datatype Restored = OldBack | LeftNew | LeftNothing

  /** What the outside does with each thing a hand-over asks of it. */
  datatype Luck = Luck(
    mayReplace: bool, sourced: bool, locked: bool, swapped: bool, recorded: bool, supervised: bool,
    spawned: bool, restored: Restored, unrecorded: bool, relocked: bool)
  {
    predicate Installs() {
      mayReplace && sourced && locked && swapped
    }
  }

  /** What the successor does between one look at it and the next. */
  datatype Move = Nothing | TakesLock | CountsItself | ProvesItself | Answers | Ends

  /** Whether the successor answers, as far as it is waited for, before it ends. */
  predicate Answered(moves: seq<Move>) {
    exists k :: 0 <= k < |moves| && moves[k].Answers? && forall j :: 0 <= j < k ==> !moves[j].Ends?
  }

  /** What a successor makes of the record before it answers or ends: only one that holds the factory writes. */
  function Moved(record: Handover, holds: bool, moves: seq<Move>): (moved: Handover)
    ensures moved.from == record.from && moved.to == record.to && moved.rolledBack == record.rolledBack
    decreases |moves|
  {
    if moves == [] then record
    else match moves[0]
      case Answers => record
      case Ends => record
      case Nothing => Moved(record, holds, moves[1..])
      case TakesLock => Moved(record, true, moves[1..])
      case CountsItself =>
        Moved(if holds then record.(boots := record.boots + 1, token := None) else record, holds, moves[1..])
      case ProvesItself => Moved(if holds then record.(healthy := true) else record, holds, moves[1..])
  }

  /** The record left on disk by an install that wrote one, the successor's writes and the undoing included. */
  function LeftOnRecord(record: Handover, luck: Luck, moves: seq<Move>): Handover {
    if luck.supervised then record
    else
      var moved := if luck.spawned then Moved(record, false, moves) else record;
      if luck.spawned && Answered(moves) then moved
      else if luck.unrecorded then moved.(rolledBack := true, token := None)
      else moved
  }

  /** Every state of a trace is safe, and so is the way to each with the successor alive. */
  ghost predicate SafeTrace(trace: seq<World>, cutOff: bool) {
    (forall w :: w in trace ==> w.Safe(cutOff)) && HeldBackBeside(trace, cutOff)
  }

  lemma NotInstalledInPlace(luck: Luck, moves: seq<Move>)
    ensures forall record :: luck.supervised ==> LeftOnRecord(record, luck, moves) == record
  {
  }

  /** Work is held back from the first state on to every state with the successor alive. */
  ghost predicate HeldBackBeside(trace: seq<World>, cutOff: bool) {
    forall i, j :: 0 <= i <= j < |trace| && trace[j].child == Alive ==>
      trace[i].draining && trace[i].cuttingOff == cutOff
  }

  datatype End = Exit(code: nat) | Resume

  class Machine {
    const running: Version
    const dashboardToken: Option<string>
    const control: Control
    var binary: Image
    var record: Option<Handover>
    var lock: Holder
    var child: Child
    var skipped: set<Version>
    /** Every state the world has been in, at each thing done to it. */
    ghost var trace: seq<World>

    constructor (running: Version, token: Option<string>, control: Control, record: Option<Handover>)
      ensures this.running == running && this.dashboardToken == token && this.control == control
      ensures binary == Ours && lock == ThisTower && child == NotStarted && this.record == record
      ensures skipped == {} && trace == []
    {
      this.running, this.dashboardToken, this.control, this.record := running, token, control, record;
      binary, lock, child, skipped, trace := Ours, ThisTower, NotStarted, {}, [];
    }

    function Now(): World
      reads this, control
    {
      World(binary, record, lock, control.draining, control.cuttingOff, child)
    }

    /** Whether work has been held back in every state so far. */
    ghost predicate HeldBack()
      reads this`trace, control
    {
      control.draining && forall w :: w in trace ==> w.draining && w.cuttingOff == control.cuttingOff
    }

    ghost predicate SafeThroughout(cutOff: bool)
      reads this, control
    {
      Now().Safe(cutOff) && SafeTrace(trace, cutOff)
    }

    ghost method Note(cutOff: bool)
      requires Now().Safe(cutOff) && SafeTrace(trace, cutOff)
      requires child == Alive ==> HeldBack() && control.cuttingOff == cutOff
      modifies this`trace
      ensures trace == old(trace) + [Now()] && SafeThroughout(cutOff)
      ensures old(HeldBack()) ==> HeldBack()
    {
      trace := trace + [Now()];
    }

    ghost method Begin(cutOff: bool)
      requires control.draining && control.cuttingOff == cutOff && Now().Safe(cutOff)
      modifies this`trace
      ensures trace == [Now()] && HeldBack() && SafeThroughout(cutOff)
    {
      trace := [];
      Note(cutOff);
    }

    /** The whole install: what holds in each state on the way, how it ends, and what it leaves. */
    method HandOver(request: Request, luck: Luck, moves: seq<Move>) returns (end: End)
      requires binary == Ours && lock == ThisTower && child == NotStarted && control.draining
      modifies this, control
      // No state on the way has the successor alive beside a Tower told it may start work.
      ensures SafeThroughout(old(control.cuttingOff))
      ensures trace != [] && trace[0].draining && trace[0].cuttingOff == old(control.cuttingOff)
      // How it ends.
      ensures end == Exit(75) <==> luck.Installs() && luck.recorded && luck.supervised
      ensures end == Exit(0)
              <==> luck.Installs() && luck.recorded && !luck.supervised && luck.spawned && Answered(moves)
      ensures end.Exit? ==> end.code == 0 || end.code == 75
      // Handed over: this Tower still drains, and what it leaves is the release.
      ensures end.Exit? ==>
        && binary == Incoming && control.draining && record.Some? && !record.value.rolledBack
        && record.value.from == running && record.value.to == request.version && skipped == old(skipped)
      // What is on record, whatever the successor wrote meanwhile.
      ensures luck.Installs() && luck.recorded ==>
        record == Some(LeftOnRecord(Handover(running, request.version, 0, false, false, dashboardToken), luck, moves))
      ensures end == Exit(0) ==> child == Alive && lock != ThisTower
      ensures end == Exit(75) ==> child == NotStarted && record.value.boots == 0 && !record.value.Settled()
      // Carrying on: work starts again, nothing runs beside it, and its binary is back unless it could not be.
      ensures end.Resume? ==> !control.draining && !control.cuttingOff && (child == NotStarted || child == Reaped)
      ensures end.Resume? ==> (binary == Ours <==> luck.Installs() ==> luck.restored == OldBack)
      ensures end.Resume? ==> (lock == ThisTower <==> luck.Installs() && luck.recorded ==> luck.relocked)
      ensures end.Resume? && !(luck.Installs() && luck.recorded) ==>
        record == old(record) && skipped == old(skipped)
      ensures end.Resume? && luck.Installs() && luck.recorded ==>
        && (luck.unrecorded ==> record.Some? && record.value.rolledBack && record.value.token.None?)
        && skipped == old(skipped) + if request.rollback then {} else {request.version}
    {
      hide Answered, Moved, LeftOnRecord, SafeTrace, HeldBack;
      NotInstalledInPlace(luck, moves);
      var prepared := Prepare(request, luck);
      if !prepared {
        return Resume;
      }
      if luck.supervised {
        return Exit(75);
      }
      end := InPlace(request, luck, moves);
    }

    /** The part of it before anything else runs: the release put on disk and recorded, or all of it given up. */
    method Prepare(request: Request, luck: Luck) returns (prepared: bool)
      requires binary == Ours && lock == ThisTower && child == NotStarted && control.draining
      modifies this, control
      ensures prepared <==> luck.mayReplace && luck.sourced && luck.locked && luck.swapped && luck.recorded
      ensures SafeThroughout(old(control.cuttingOff)) && child == NotStarted && lock == ThisTower
      ensures trace != [] && trace[0].draining && trace[0].cuttingOff == old(control.cuttingOff)
      ensures skipped == old(skipped)
      ensures prepared ==>
        && HeldBack() && control.draining && control.cuttingOff == old(control.cuttingOff) && binary == Incoming
        && record == Some(Handover(running, request.version, 0, false, false, dashboardToken))
      ensures !prepared ==>
        && !control.draining && !control.cuttingOff && record == old(record)
        && (binary == Ours <==> luck.Installs() ==> luck.restored == OldBack)
    {
      hide SafeTrace, HeldBack;
      ghost var cutOff := control.cuttingOff;
      Begin(cutOff);
      if !luck.mayReplace || !luck.sourced || !luck.locked || !luck.swapped {
        TakeBack(luck);
        return false;
      }
      binary := Incoming;
      Note(cutOff);
      if !luck.recorded {
        Restore(luck);
        TakeBack(luck);
        return false;
      }
      record := Some(Handover(running, request.version, 0, false, false, dashboardToken));
      Note(cutOff);
      return true;
    }

    /** The part of it with a successor in it. */
    method InPlace(request: Request, luck: Luck, moves: seq<Move>) returns (end: End)
      requires binary == Incoming && lock == ThisTower && child == NotStarted
      requires record.Some? && !record.value.rolledBack
      requires HeldBack() && SafeThroughout(control.cuttingOff)
      modifies this, control
      ensures old(trace) <= trace
      ensures SafeThroughout(old(control.cuttingOff))
      ensures end == if luck.spawned && Answered(moves) then Exit(0) else Resume
      ensures end.Exit? ==>
        && binary == Incoming && control.draining && child == Alive && lock != ThisTower && skipped == old(skipped)
        && record.Some? && !record.value.rolledBack
        && record.value.from == old(record).value.from && record.value.to == old(record).value.to
      ensures end.Resume? ==> Undone(request, luck, old(skipped))
      ensures !luck.supervised ==> record == Some(LeftOnRecord(old(record).value, luck, moves))
    {
      hide SafeTrace, Moved;
      ghost var cutOff := control.cuttingOff;
      lock := Nobody;
      Note(cutOff);
      if !luck.spawned {
        Undo(request, luck);
        return Resume;
      }
      child := Alive;
      Note(cutOff);
      var answered := AwaitAnswer(moves);
      if !answered {
        Reap();
        Undo(request, luck);
        return Resume;
      }
      return Exit(0);
    }

    /** Kills the successor, if it has not ended, and waits for it; what it held is free again. */
    method Reap()
      requires (child == Alive || child == Ended) && lock != ThisTower && SafeThroughout(control.cuttingOff)
      modifies this`lock, this`child, this`trace
      ensures child == Reaped && lock == Nobody
      ensures old(trace) <= trace && SafeThroughout(control.cuttingOff)
    {
      hide SafeTrace;
      if lock == Successor {
        lock := Nobody;
      }
      child := Reaped;
      Note(control.cuttingOff);
    }

    ghost predicate Undone(request: Request, luck: Luck, skippedBefore: set<Version>)
      reads this, control
    {
      && !control.draining && !control.cuttingOff && (child == NotStarted || child == Reaped)
      && (binary == Ours <==> luck.restored == OldBack)
      && (lock == ThisTower <==> luck.relocked)
      && (luck.unrecorded ==> record.Some? && record.value.rolledBack && record.value.token.None?)
      && skipped == skippedBefore + if request.rollback then {} else {request.version}
    }

    /** Waits for the successor to answer, giving up if it ends first; meanwhile it does what it does. */
    method AwaitAnswer(moves: seq<Move>) returns (answered: bool)
      requires child == Alive && lock != ThisTower && binary == Incoming
      requires record.Some? && !record.value.rolledBack
      requires HeldBack() && SafeThroughout(control.cuttingOff)
      modifies this
      ensures old(trace) <= trace
      ensures SafeThroughout(old(control.cuttingOff))
      ensures answered
              <==> exists k :: 0 <= k < |moves| && moves[k].Answers? && forall j :: 0 <= j < k ==> !moves[j].Ends?
      ensures answered ==> child == Alive
      ensures (child == Alive || child == Ended) && lock != ThisTower
      ensures binary == Incoming && skipped == old(skipped)
      ensures record.Some? && !record.value.rolledBack
      ensures record == Some(Moved(old(record).value, old(lock) == Successor, moves))
      ensures HeldBack()
    {
      hide SafeTrace;
      ghost var cutOff := control.cuttingOff;
      for k := 0 to |moves|
        invariant child == Alive && lock != ThisTower && binary == Incoming && skipped == old(skipped)
        invariant record.Some? && !record.value.rolledBack
        invariant Moved(record.value, lock == Successor, moves[k..])
                  == Moved(old(record).value, old(lock) == Successor, moves)
        invariant HeldBack() && SafeThroughout(control.cuttingOff) && old(trace) <= trace
        invariant forall j :: 0 <= j < k ==> !moves[j].Ends? && !moves[j].Answers?
      {
        assert moves[k..][0] == moves[k] && moves[k..][1..] == moves[k + 1..];
        SuccessorMoves(moves[k]);
        if child == Ended {
          return false;
        }
        if moves[k].Answers? {
          return true;
        }
      }
      return false;
    }

    /** What the successor can do to the world: take the factory, then count its start and prove itself on
        the record, or end, which gives the factory up. */
    method SuccessorMoves(move: Move)
      requires child == Alive && lock != ThisTower && binary == Incoming
      requires record.Some? && !record.value.rolledBack
      requires HeldBack() && SafeThroughout(control.cuttingOff)
      modifies this
      ensures old(trace) <= trace
      ensures SafeThroughout(old(control.cuttingOff))
      ensures child == if move.Ends? then Ended else Alive
      ensures lock != ThisTower && binary == Incoming && skipped == old(skipped)
      ensures record.Some? && !record.value.rolledBack
      ensures HeldBack()
      ensures !move.Ends? ==> lock == if move.TakesLock? then Successor else old(lock)
      ensures record.value == match move
                              case CountsItself =>
                                if old(lock) == Successor
                                then old(record).value.(boots := old(record).value.boots + 1, token := None)
                                else old(record).value
                              case ProvesItself =>
                                if old(lock) == Successor then old(record).value.(healthy := true)
                                else old(record).value
                              case _ => old(record).value
    {
      hide SafeTrace;
      ghost var cutOff := control.cuttingOff;
      match move {
        case TakesLock =>
          if lock == Nobody {
            lock := Successor;
          }
        case CountsItself =>
          if lock == Successor {
            record := Some(record.value.(boots := record.value.boots + 1, token := None));
          }
        case ProvesItself =>
          if lock == Successor {
            record := Some(record.value.(healthy := true));
          }
        case Ends =>
          lock, child := Nobody, Ended;
        case _ =>
      }
      Note(cutOff);
    }

    /** The way back from a successor that is gone: binary, skip list, record, then lock and flags. */
    method Undo(request: Request, luck: Luck)
      requires child != Alive && child != Ended && lock == Nobody && binary == Incoming && record.Some?
      requires SafeThroughout(control.cuttingOff)
      modifies this, control
      ensures old(trace) <= trace
      ensures SafeThroughout(old(control.cuttingOff)) && Undone(request, luck, old(skipped))
      ensures record == Some(if luck.unrecorded then old(record).value.(rolledBack := true, token := None)
                             else old(record).value)
    {
      hide SafeTrace;
      ghost var cutOff := control.cuttingOff;
      Restore(luck);
      if !request.rollback {
        skipped := skipped + {request.version};
      }
      if luck.unrecorded {
        record := Some(record.value.(rolledBack := true, token := None));
      }
      Note(cutOff);
      TakeBack(luck);
    }

    method Restore(luck: Luck)
      requires child != Alive && SafeThroughout(control.cuttingOff)
      modifies this`binary, this`trace
      ensures old(trace) <= trace
      ensures SafeThroughout(control.cuttingOff)
      ensures binary == match luck.restored case OldBack => Ours case LeftNew => Incoming case LeftNothing => Missing
    {
      hide SafeTrace;
      ghost var cutOff := control.cuttingOff;
      binary := match luck.restored case OldBack => Ours case LeftNew => Incoming case LeftNothing => Missing;
      Note(cutOff);
    }

    /** The lock if it is free and can be had, and both flags down. */
    method TakeBack(luck: Luck)
      requires child != Alive && SafeThroughout(control.cuttingOff) && lock != Successor
      modifies this`lock, this`trace, control
      ensures old(trace) <= trace
      ensures SafeThroughout(old(control.cuttingOff))
      ensures !control.draining && !control.cuttingOff
      ensures lock == ThisTower <==> old(lock) == ThisTower || luck.relocked
    {
      hide SafeTrace;
      ghost var cutOff := control.cuttingOff;
      if lock == Nobody && luck.relocked {
        lock := ThisTower;
      }
      control.StopDraining();
      Note(cutOff);
    }
  }

  // ----- both verdicts on one hand-over -----

  /** Whether the successor, before it answers or ends, proves itself while it holds the factory. */
  predicate ProvedItself(moves: seq<Move>, holds: bool) {
    exists k :: 0 <= k < |moves| && ProvesAt(moves, holds, k)
  }

  predicate ProvesAt(moves: seq<Move>, holds: bool, k: nat)
    requires k < |moves|
  {
    && moves[k].ProvesItself? && (holds || exists j :: 0 <= j < k && moves[j].TakesLock?)
    && forall j :: 0 <= j < k ==> !moves[j].Answers? && !moves[j].Ends?
  }

  lemma ProvesLater(moves: seq<Move>, holds: bool, k: nat)
    requires k + 1 < |moves| && !moves[0].Answers? && !moves[0].Ends?
    ensures ProvesAt(moves, holds, k + 1) <==> ProvesAt(moves[1..], holds || moves[0].TakesLock?, k)
  {
    var rest := moves[1..];
    assert forall j :: 0 <= j < k ==> rest[j] == moves[j + 1];
    assert forall j :: 1 <= j < k + 1 ==> moves[j] == rest[j - 1];
  }

  lemma {:induction false} HealthyWhenProved(record: Handover, holds: bool, moves: seq<Move>)
    ensures Moved(record, holds, moves).healthy <==> record.healthy || ProvedItself(moves, holds)
    decreases |moves|
  {
    if moves != [] && !moves[0].Answers? && !moves[0].Ends? {
      assert ProvesAt(moves, holds, 0) <==> moves[0].ProvesItself? && holds;
      ProvedFirstOrLater(moves, holds);
      HealthyWhenProved(
        if moves[0].ProvesItself? && holds then record.(healthy := true)
        else if moves[0].CountsItself? && holds then record.(boots := record.boots + 1, token := None) else record,
        holds || moves[0].TakesLock?, moves[1..]);
    }
  }

  lemma ProvedFirstOrLater(moves: seq<Move>, holds: bool)
    requires moves != [] && !moves[0].Answers? && !moves[0].Ends?
    ensures ProvedItself(moves, holds)
            <==> ProvesAt(moves, holds, 0) || ProvedItself(moves[1..], holds || moves[0].TakesLock?)
  {
    var rest, after := moves[1..], holds || moves[0].TakesLock?;
    if ProvedItself(moves, holds) {
      var k: nat :| k < |moves| && ProvesAt(moves, holds, k);
      if k > 0 {
        ProvesLater(moves, holds, k - 1);
      }
    }
    if ProvedItself(rest, after) {
      var k: nat :| k < |rest| && ProvesAt(rest, after, k);
      ProvesLater(moves, holds, k);
      assert ProvesAt(moves, holds, k + 1);
    }
  }

  /** An install in place leaves its hand-over both proved healthy and rolled back exactly when the successor
      proved itself on the record, then failed to answer, and the undoing was recorded: what undoes an install
      does not look at whether the release had been proved. */
  lemma BothVerdictsExactlyWhen(record: Handover, luck: Luck, moves: seq<Move>)
    requires !record.Settled()
    ensures var left := LeftOnRecord(record, luck, moves);
            left.healthy && left.rolledBack
            <==> !luck.supervised && luck.spawned && luck.unrecorded && ProvedItself(moves, false) && !Answered(moves)
  {
    HealthyWhenProved(record, false, moves);
  }

  /** A successor that takes the factory, proves itself and ends before it is seen to answer. */
  lemma ProvedThenUndone(record: Handover, luck: Luck)
    requires !luck.supervised && luck.spawned && luck.unrecorded
    ensures var left := LeftOnRecord(record, luck, [TakesLock, ProvesItself, Ends]);
            left.healthy && left.rolledBack
  {
    var moves := [TakesLock, ProvesItself, Ends];
    assert moves[1..] == [ProvesItself, Ends] && moves[1..][1..] == [Ends];
    var proved := record.(healthy := true);
    assert Moved(proved, true, [Ends]) == proved;
    assert Moved(record, true, moves[1..]) == Moved(proved, true, moves[1..][1..]);
  }

  // ----- a drain, an install, and the Tower's own steps between them -----

  /** Drains for `request` and, once the Tower is ready, installs it. */
  method Install(
      machine: Machine, request: Request, maxDrain: nat, looks: seq<Look>, luck: Luck, moves: seq<Move>)
    returns (drained: Drain, end: End)
    requires machine.binary == Ours && machine.lock == ThisTower && machine.child == NotStarted
    requires !machine.control.cuttingOff
    modifies machine, machine.control
    ensures drained == EndOf(request, maxDrain, looks)
    ensures !drained.Ready? ==>
      end == Resume && machine.binary == Ours && machine.lock == ThisTower && machine.child == NotStarted
    ensures drained.Ready? ==> machine.trace != [] && exists cutOff, k: nat ::
      && HeldBackBeside(machine.trace, cutOff) && FirstDecided(request, maxDrain, looks, k)
      && (if cutOff then MayCutOff(request, maxDrain, looks[k]) else looks[k].quiescent)
      && machine.trace[0].draining && machine.trace[0].cuttingOff == cutOff
  {
    drained := DrainFor(machine.control, request, maxDrain, looks);
    if !drained.Ready? {
      return drained, Resume;
    }
    ghost var cutOff := machine.control.cuttingOff;
    ghost var k: nat :| FirstDecided(request, maxDrain, looks, k)
      && (if cutOff then MayCutOff(request, maxDrain, looks[k]) else looks[k].quiescent);
    end := machine.HandOver(request, luck, moves);
    assert SafeTrace(machine.trace, cutOff);
  }

  function Under(t: Tower, w: World): Tower {
    t.(draining := w.draining, cuttingOff := w.cuttingOff)
  }

  /** The Tower's own steps `between` one state of the world and the next, from `t` on: it is told to drain, to
      cut off or to go back to work by what the states say, and by nothing else. */
  ghost predicate Beside(t: Tower, trace: seq<World>, between: seq<seq<Step>>)
    decreases |trace|
  {
    && |between| == |trace|
    && (trace != [] ==>
          var told := Under(t, trace[0]);
          Runs(told, between[0]) && OwnSteps(between[0]) && Beside(After(told, between[0]), trace[1..], between[1..]))
  }

  predicate OwnSteps(steps: seq<Step>) {
    forall step :: step in steps ==> !step.StartDraining? && !step.StopDraining? && !step.CutOff?
  }

  /** Whether some flight becomes a run by the time of the state at `k`. */
  predicate StartsBy(between: seq<seq<Step>>, k: nat)
    requires k < |between|
  {
    exists i :: 0 <= i <= k && Starts(between[i])
  }

  lemma {:induction false} NothingStartedBy(t: Tower, trace: seq<World>, between: seq<seq<Step>>, k: nat, cutOff: bool)
    requires t.passed == t.launching == multiset{} && (cutOff || t.waiting == map[])
    requires k < |trace| && (forall i :: 0 <= i <= k ==> trace[i].draining && trace[i].cuttingOff == cutOff)
    requires Beside(t, trace, between)
    ensures !StartsBy(between, k)
    decreases k
  {
    var told := Under(t, trace[0]);
    var first := between[0];
    assert StopDraining !in first;
    QuietStaysQuiet(told, first);
    if k > 0 {
      NothingStartedBy(After(told, first), trace[1..], between[1..], k - 1, cutOff);
      forall i | 0 <= i <= k ensures !Starts(between[i]) {
        assert i > 0 ==> between[i] == between[1..][i - 1];
      }
    }
  }

  /** What holds back a Tower whose drain is over is enough, in every state of an install up to one with the
      successor alive, exactly when no flight is past the test by then, counted or not: otherwise, and only then, it
      can start a run beside its successor. */
  lemma StartsBesideExactlyWhatIsPast(t: Tower, trace: seq<World>, k: nat, cutOff: bool)
    requires HeldBackBeside(trace, cutOff) && k < |trace| && trace[k].child == Alive
    requires cutOff || t.waiting == map[]
    ensures (exists between :: Beside(t, trace, between) && StartsBy(between, k))
            <==> t.passed + t.launching != multiset{}
  {
    forall between | Beside(t, trace, between) && StartsBy(between, k)
      ensures t.passed + t.launching != multiset{}
    {
      if t.passed + t.launching == multiset{} {
        NeitherIsAny(t);
        NothingStartedBy(t, trace, between, k, cutOff);
      }
    }
    if t.passed + t.launching != multiset{} {
      var q :| q in t.passed + t.launching;
      var between := StartsBeside(t, trace, q);
      assert StartsBy(between, k);
    }
  }

  lemma StartsBeside(t: Tower, trace: seq<World>, q: Queued) returns (between: seq<seq<Step>>)
    requires q in t.passed + t.launching && trace != []
    ensures Beside(t, trace, between) && Starts(between[0])
  {
    hide Starts, Enabled, Take;
    var first := StartsAtOnce(Under(t, trace[0]), q);
    between := [first] + Still(|trace| - 1);
    assert between[0] == first && between[1..] == Still(|trace[1..]|);
    StandsStill(After(Under(t, trace[0]), between[0]), trace[1..]);
  }

  /** Whether work of this Tower's can be beside its successor: a run already alive, or one that starts. */
  ghost predicate WorkBeside(t: Tower, trace: seq<World>, k: nat)
    requires k < |trace|
  {
    exists between :: Beside(t, trace, between) && (t.alive != multiset{} || StartsBy(between, k))
  }

  lemma WorksBeside(t: Tower, trace: seq<World>, k: nat)
    requires HeldBackBeside(trace, false) && k < |trace| && trace[k].child == Alive && t.waiting == map[]
    ensures WorkBeside(t, trace, k) <==> t.HasWork()
  {
    hide HeldBackBeside;
    StartsBesideExactlyWhatIsPast(t, trace, k, false);
    StandsStill(t, trace);
    assert t.alive + t.passed + t.launching == t.alive + (t.passed + t.launching);
    if t.alive == multiset{} {
      assert t.alive + (t.passed + t.launching) == t.passed + t.launching;
    }
  }

  /** A look that ends a drain by finding the Tower quiet lets the install leave work beside the successor exactly
      when its first read came with a flight past the test, counted or not, or a rendezvous parked. */
  lemma WorksBesideExactlyWhen(t: Tower, trace: seq<World>, k: nat)
    requires t.draining && !t.cuttingOff && t.alive == multiset{}
    requires HeldBackBeside(trace, false) && k < |trace| && trace[k].child == Alive
    ensures (exists first, second :: LooksQuiet(t, first, second)
                                     && WorkBeside(After(After(t, first), second), trace, k))
            <==> t.passed + t.launching != multiset{} || t.waiting != map[]
  {
    hide WorkBeside, HeldBackBeside;
    LooksQuietWithWorkExactlyWhen(t);
    forall first, second | LooksQuiet(t, first, second)
      ensures WorkBeside(After(After(t, first), second), trace, k) <==> After(After(t, first), second).HasWork()
    {
      WorksBeside(After(After(t, first), second), trace, k);
    }
  }

  function Still(n: nat): seq<seq<Step>> {
    seq(n, _ => [])
  }

  lemma {:induction false} StandsStill(t: Tower, trace: seq<World>)
    ensures Beside(t, trace, Still(|trace|))
    decreases |trace|
  {
    if trace != [] {
      assert Still(|trace|)[1..] == Still(|trace[1..]|);
      StandsStill(After(Under(t, trace[0]), []), trace[1..]);
    }
  }

  // ----- the successor's arguments -----

  /** Whether an argument names an address itself, as `--addr=…` does. */
  predicate NamesAddress(arg: string) {
    "--addr=" <= arg
  }

  /** A command line as its reader takes it: an address given either way, or anything else. */
  datatype Arg = Address(value: string) | NoAddress | Other(arg: string)

  function Read(args: seq<string>): seq<Arg>
    decreases |args|, 1
  {
    if args == [] then []
    else if args[0] == "--addr" then ReadValue(args[1..])
    else if NamesAddress(args[0]) then [Address(args[0][7..])] + Read(args[1..])
    else [Other(args[0])] + Read(args[1..])
  }

  function ReadValue(args: seq<string>): seq<Arg>
    decreases |args|, 0
  {
    if args == [] then [NoAddress] else [Address(args[0])] + Read(args[1..])
  }

  function Others(read: seq<Arg>): seq<string> {
    if read == [] then []
    else (if read[0].Other? then [read[0].arg] else []) + Others(read[1..])
  }

  lemma ReadStep(args: seq<string>)
    requires args != []
    ensures Others(ReadValue(args)) == Others(Read(args[1..]))
    ensures Others(Read(args))
            == if args[0] == "--addr" then Others(ReadValue(args[1..]))
               else if NamesAddress(args[0]) then Others(Read(args[1..]))
               else [args[0]] + Others(Read(args[1..]))
  {
    OthersCons(Address(args[0]), Read(args[1..]));
    if args[0] != "--addr" {
      OthersCons(if NamesAddress(args[0]) then Address(args[0][7..]) else Other(args[0]), Read(args[1..]));
    }
  }

  lemma OthersCons(first: Arg, rest: seq<Arg>)
    ensures Others([first] + rest) == (if first.Other? then [first.arg] else []) + Others(rest)
  {
    assert ([first] + rest)[1..] == rest;
  }

  lemma NothingToRead()
    ensures Others(Read([])) == [] && Others(ReadValue([])) == []
  {
  }

  /** The loop over arguments with its one flag, against `Read`. */
  method SuccessorArgs(args: seq<string>, address: string) returns (kept: seq<string>)
    ensures kept == Others(Read(args)) + ["--addr", address]
  {
    hide *;
    kept := [];
    var skipNext := false;
    assert args[0..] == args;
    for i := 0 to |args|
      invariant kept + (if skipNext then Others(ReadValue(args[i..])) else Others(Read(args[i..])))
                == Others(Read(args))
    {
      var arg := args[i];
      assert args[i..][0] == arg && args[i..][1..] == args[i + 1..];
      ReadStep(args[i..]);
      if skipNext {
        skipNext := false;
      } else if arg == "--addr" {
        skipNext := true;
      } else if !NamesAddress(arg) {
        kept := kept + [arg];
      }
    }
    assert args[|args|..] == [];
    NothingToRead();
    kept := kept + ["--addr", address];
  }

  predicate Plain(args: seq<string>) {
    forall arg :: arg in args ==> arg != "--addr" && !NamesAddress(arg)
  }

  lemma {:induction false} OthersArePlain(args: seq<string>)
    ensures Plain(Others(Read(args))) && Plain(Others(ReadValue(args)))
    decreases |args|
  {
    hide Read, ReadValue, Others;
    if args == [] {
      NothingToRead();
    } else {
      ReadStep(args);
      OthersArePlain(args[1..]);
    }
  }

  function AllOther(args: seq<string>): seq<Arg> {
    seq(|args|, i requires 0 <= i < |args| => Other(args[i]))
  }

  /** What the successor reads from its arguments: everything this Tower read but its address, in order, and
      the one address it is bound to. */
  lemma {:induction false} SuccessorReads(args: seq<string>, address: string)
    ensures Read(Others(Read(args)) + ["--addr", address]) == AllOther(Others(Read(args))) + [Address(address)]
  {
    OthersArePlain(args);
    ReadBack(Others(Read(args)), address);
  }

  lemma {:induction false} ReadBack(kept: seq<string>, address: string)
    requires Plain(kept)
    ensures Read(kept + ["--addr", address]) == AllOther(kept) + [Address(address)]
    decreases |kept|
  {
    var args := kept + ["--addr", address];
    if kept == [] {
      assert args == ["--addr", address] && args[1..] == [address] && args[1..][1..] == [];
      assert Read(args[1..][1..]) == [];
    } else {
      assert args[1..] == kept[1..] + ["--addr", address] && args[0] in kept;
      ReadBack(kept[1..], address);
      assert AllOther(kept) == [Other(kept[0])] + AllOther(kept[1..]);
    }
  }

  /** An address is dropped in either way of giving it, its value with it, and everything before and after it is
      passed on in order. */
  lemma AddressesAreDropped(before: seq<string>, value: string, after: seq<string>)
    requires forall arg :: arg in before + after ==> arg != "--addr" && !("--addr=" <= arg)
    ensures Others(Read(before + ["--addr", value] + after)) == before + after
    ensures Others(Read(before + ["--addr=" + value] + after)) == before + after
  {
    hide Read, Others;
    assert forall arg :: arg in before || arg in after ==> arg in before + after;
    PlainStays(before, ["--addr", value] + after);
    PlainStays(before, ["--addr=" + value] + after);
    PlainStays(after, []);
    assert before + ["--addr", value] + after == before + (["--addr", value] + after);
    assert before + ["--addr=" + value] + after == before + (["--addr=" + value] + after);
    assert after + [] == after;
    AddressFirst(value, after);
    NothingToRead();
  }

  lemma AddressFirst(value: string, after: seq<string>)
    ensures Others(Read(["--addr", value] + after)) == Others(Read(after))
    ensures Others(Read(["--addr=" + value] + after)) == Others(Read(after))
  {
    var pair, one := ["--addr", value] + after, ["--addr=" + value] + after;
    assert pair[1..] == [value] + after && ([value] + after)[1..] == after && one[1..] == after;
    assert one[0] != "--addr" by { assert |one[0]| > |"--addr"|; }
    OthersCons(Address(value), Read(after));
    OthersCons(Address(one[0][7..]), Read(after));
  }

  lemma {:induction false} PlainStays(before: seq<string>, after: seq<string>)
    requires forall arg :: arg in before ==> arg != "--addr" && !("--addr=" <= arg)
    ensures Others(Read(before + after)) == before + Others(Read(after))
    decreases |before|
  {
    if before == [] {
      assert before + after == after;
    } else {
      assert (before + after)[1..] == before[1..] + after && before[0] in before;
      assert forall arg :: arg in before[1..] ==> arg in before;
      PlainStays(before[1..], after);
      OthersCons(Other(before[0]), Read(before[1..] + after));
    }
  }

  /** Handing over twice passes on what handing over once does, with the last address. */
  lemma {:induction false} HandsOverTheSame(args: seq<string>, first: string, second: string)
    ensures var once := Others(Read(args)) + ["--addr", first];
            Others(Read(once)) + ["--addr", second] == Others(Read(args)) + ["--addr", second]
  {
    SuccessorReads(args, first);
    OthersOf(Others(Read(args)), [Address(first)]);
    assert [Address(first)][1..] == [];
  }

  lemma {:induction false} OthersOf(kept: seq<string>, rest: seq<Arg>)
    ensures Others(AllOther(kept) + rest) == kept + Others(rest)
    decreases |kept|
  {
    if kept == [] {
      assert AllOther(kept) + rest == rest;
    } else {
      assert AllOther(kept) + rest == [Other(kept[0])] + (AllOther(kept[1..]) + rest);
      OthersCons(Other(kept[0]), AllOther(kept[1..]) + rest);
      OthersOf(kept[1..], rest);
    }
  }
}
