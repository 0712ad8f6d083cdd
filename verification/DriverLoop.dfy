/** The replaying scheduler loop over mutable state (src/runner_driver.rs:758-1142,
    src/replay.rs:306-347). */
module DriverLoop {
  import opened Wrappers
  import opened Driver
  import opened ReplayProof

  class Scheduler<V, P> {
    const m: Machine<V, P>
    const events: seq<WakeEvent>
    var pos: nat
    var diverged: bool
    var vm: V
    var ready: seq<TaskId>
    var current: Option<TaskId>
    var needsLoad: bool
    var inflight: multiset<Op>
    var held: seq<Completion<P>>
    var log: seq<WakeEvent>
    var phase: Phase

    ghost function Abs(): State<V, P>
      reads this
    {
      State(vm, ready, current, needsLoad, inflight, held, log, phase)
    }

    ghost function Cursor(): Replay<V, P>
      reads this
    {
      Replay(Abs(), pos)
    }

    /** Task 0 starts current and already live. */
    constructor (m: Machine<V, P>, events: seq<WakeEvent>, vm: V)
      ensures this.m == m && this.events == events
      ensures Cursor() == Replay(State(vm, [], Some(0), false, multiset{}, [], [], Top), 0)
    {
      this.m, this.events, this.vm := m, events, vm;
      pos, diverged := 0, false;
      ready, current, needsLoad := [], Some(0), false;
      inflight, held, log, phase := multiset{}, [], [], Top;
    }

    // ---- The cursor (src/replay.rs:306-347) ------------------------------------------

    method Peek() returns (e: Option<WakeEvent>)
      ensures e == if pos < |events| then Some(events[pos]) else None
    {
      e := if pos < |events| then Some(events[pos]) else None;
    }

    method ExpectPick() returns (tid: Option<TaskId>)
      modifies `pos
      ensures if old(pos) < |events| && events[old(pos)].Pick? then
                tid == Some(events[old(pos)].tid) && pos == old(pos) + 1
              else
                tid == None && pos == old(pos)
    {
      var e := Peek();
      if e.Some? && e.value.Pick? {
        pos := pos + 1;
        return Some(e.value.tid);
      }
      tid := None;
    }

    method ExpectRotate() returns (preempt: Option<bool>)
      modifies `pos
      ensures if old(pos) < |events| && events[old(pos)].Rotate? then
                preempt == Some(events[old(pos)].preempt) && pos == old(pos) + 1
              else
                preempt == None && pos == old(pos)
    {
      var e := Peek();
      if e.Some? && e.value.Rotate? {
        pos := pos + 1;
        return Some(e.value.preempt);
      }
      preempt := None;
    }

    /** Report divergence and stop. */
    method StopDiverged()
      modifies `phase, `diverged
      ensures Cursor() == Diverge(old(Cursor())) && diverged
    {
      diverged, phase := true, Over(Diverged);
    }

    // ---- Turns of the loop ---------------------------------------------------------------

    /** The single point where deliveries enter the log. */
    method DeliverOne(c: Completion<P>)
      modifies `log, `vm, `ready
      ensures Abs() == Deliver(m, old(Abs()), c)
    {
      log := log + [EventOf(m, c)];
      match c.wakeup
      case Done(p) =>
        vm := m.wakeIo(vm, c.op.tid, Some(p));
        ready := ready + [c.op.tid];
      case Aborted =>
        vm := m.wakeIo(vm, c.op.tid, None);
        ready := ready + [c.op.tid];
      case Elapsed(target, epoch) =>
        var (vm', ready') := m.wakeTimer(vm, ready, c.op.tid, target, epoch);
        vm, ready := vm', ready';
    }

    method FinishStep(cur: TaskId, step: RunStep)
      modifies `current, `inflight, `phase
      ensures Abs() == EndStep(old(Abs()), cur, step)
    {
      match step
      case Yielded => phase := AtYield;
      case Running =>
      case ParkedIo =>
        inflight := inflight + multiset{IoOp(cur)};
        current := None;
      case ParkedTimed(target, epoch) =>
        inflight := inflight + multiset{TimerOp(cur, target, epoch)};
        current := None;
      case Parked => current := None;
      case Finished => phase := Over(MainFinished);
      case Failed => phase := Over(TaskFailed);
    }

    method ResumeCurrent()
      requires current.Some?
      modifies `vm, `ready, `needsLoad, `current, `inflight, `phase
      ensures Abs() == Resume(m, old(Abs()))
    {
      var cur := current.value;
      var r := m.resume(vm, ready, cur, needsLoad);
      vm, ready, needsLoad := r.vm, r.ready, false;
      FinishStep(cur, r.step);
    }

    method FindHeld(want: WakeEvent) returns (i: nat)
      ensures i == HeldIndex(m, held, want)
    {
      i := 0;
      while i < |held| && EventOf(m, held[i]) != want
        invariant i <= |held|
        invariant HeldIndex(m, held, want) == i + HeldIndex(m, held[i..], want)
        decreases |held| - i
      {
        i := i + 1;
      }
    }

    method TakeHeld(i: nat)
      requires i < |held|
      modifies this
      ensures pos == old(pos) + 1
      ensures Abs() == Deliver(m, old(Abs()).(held := old(held)[..i] + old(held)[i + 1..],
                                              phase := if old(phase).Idle? then Idle(true) else old(phase)), old(held)[i])
    {
      var got := held[i];
      held := held[..i] + held[i + 1..];
      phase := if phase.Idle? then Idle(true) else phase;
      pos := pos + 1;
      DeliverOne(got);
    }

    /** Look among the completions held back, else take the next one to finish. */
    method AwaitWanted(want: WakeEvent, arrival: Completion<P>)
      modifies this
      ensures Cursor() == AwaitDelivery(m, old(Cursor()), want, arrival)
    {
      hide Deliver, EventOf;
      var i := FindHeld(want);
      if i < |held| {
        TakeHeld(i);
      } else if inflight == multiset{} {
        StopDiverged();
      } else if Fits(arrival) && arrival.op in inflight {
        inflight := inflight - multiset{arrival.op};
        held := held + [arrival];
      }
    }

    method PickFromLog(ghost arrival: Completion<P>)
      requires ready != [] && current.None? && phase == Top && !m.exiting(vm)
      modifies this
      ensures Cursor() == ReplayNext(m, events, old(Cursor()), arrival)
    {
      var want := ExpectPick();
      var i := if want.Some? then IndexIn(ready, want.value) else |ready|;
      if i == |ready| {
        StopDiverged();
        return;
      }
      ready := ready[..i] + ready[i + 1..];
      log := log + [Pick(want.value)];
      current, needsLoad := want, true;
    }

    method EndYield(ghost arrival: Completion<P>)
      requires phase == AtYield && current.Some? && (pos < |events| ==> !IsDelivery(events[pos]))
      modifies this
      ensures Cursor() == ReplayNext(m, events, old(Cursor()), arrival)
    {
      var rotate := ExpectRotate();
      if rotate.None? {
        StopDiverged();
        return;
      }
      log := log + [Rotate(rotate.value)];
      phase := Top;
      if rotate.value {
        vm := m.save(vm, current.value);
        ready := ready + [current.value];
        current := None;
      }
    }

    method TopTurn(ghost arrival: Completion<P>)
      requires phase == Top
      modifies this
      ensures Cursor() == ReplayNext(m, events, old(Cursor()), arrival)
    {
      if m.exiting(vm) {
        phase := Over(Exited);
      } else if current.Some? {
        ResumeCurrent();
      } else if ready != [] {
        PickFromLog(arrival);
      } else if inflight == multiset{} && held == [] {
        phase := Over(if m.mainParked(vm) then Deadlock else Drained);
      } else {
        phase := Idle(false);
      }
    }

    method IdleTurn(arrival: Completion<P>)
      requires phase.Idle?
      modifies this
      ensures Cursor() == ReplayNext(m, events, old(Cursor()), arrival)
    {
      var next := Peek();
      if next.Some? && IsDelivery(next.value) {
        AwaitWanted(next.value, arrival);
      } else if phase == Idle(true) {
        phase := Top;
      } else if next.Some? {
        StopDiverged();
      } else {
        phase := Over(LogSpent);
      }
    }

    method YieldTurn(arrival: Completion<P>)
      requires phase == AtYield && current.Some?
      modifies this
      ensures Cursor() == ReplayNext(m, events, old(Cursor()), arrival)
    {
      var next := Peek();
      if next.Some? && IsDelivery(next.value) {
        AwaitWanted(next.value, arrival);
      } else {
        EndYield(arrival);
      }
    }

    method Turn(arrival: Completion<P>)
      requires phase == AtYield ==> current.Some?
      modifies this
      ensures Cursor() == ReplayNext(m, events, old(Cursor()), arrival)
    {
      match phase
      case Top => TopTurn(arrival);
      case Idle(_) => IdleTurn(arrival);
      case AtYield => YieldTurn(arrival);
      case Over(_) =>
    }

    /** The loop: `turns` turns of it, fewer if it ends before. */
    method Drive(turns: nat, arrivals: nat -> Completion<P>)
      requires phase == AtYield ==> current.Some?
      modifies this
      ensures Cursor() == ReplayRun(m, events, old(Cursor()), arrivals, turns)
    {
      hide ReplayNext;
      ghost var start := Cursor();
      var k := 0;
      while k < turns
        invariant k <= turns
        invariant phase == AtYield ==> current.Some?
        invariant Cursor() == ReplayRun(m, events, start, arrivals, k)
        decreases turns - k
      {
        YieldHasCurrent(m, events, Cursor(), arrivals(k));
        ghost var was := Cursor();
        Turn(arrivals(k));
        assert Cursor() == ReplayNext(m, events, was, arrivals(k));
        assert Cursor().s == Abs();
        k := k + 1;
      }
    }
  }

  lemma YieldHasCurrent<V, P>(m: Machine<V, P>, log: seq<WakeEvent>, r: Replay<V, P>, arrival: Completion<P>)
    requires r.s.phase == AtYield ==> r.s.current.Some?
    ensures var r' := ReplayNext(m, log, r, arrival); r'.s.phase == AtYield ==> r'.s.current.Some?
  {
  }
}
