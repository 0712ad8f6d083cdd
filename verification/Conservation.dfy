/** Tasks and completions are conserved, live and replayed: no task is lost or
    duplicated, and every completion is delivered once. */
module Conservation {
  import opened Wrappers
  import opened Driver
  import opened ReplayProof
  import opened Fairness

  /** Resumes that only run, yield, wait for I/O or end. */
  ghost predicate IoOnly<V(!new), P(!new)>(m: Machine<V, P>) {
    forall v, ready, t, load ::
      var r := m.resume(v, ready, t, load);
      r.ready == ready && !r.step.Parked? && !r.step.ParkedTimed?
  }

  /** How often `op` is not delivered yet: in flight or held back. */
  function Outstanding<V, P>(s: State<V, P>, op: Op): nat {
    s.inflight[op] + multiset(HeldOps(s.held))[op]
  }

  /** In how many places task `t` is: current, ready, in flight or held back. */
  function Places<V, P>(s: State<V, P>, t: TaskId): nat {
    (if s.current == Some(t) then 1 else 0) + multiset(s.ready)[t] + Outstanding(s, IoOp(t))
  }

  ghost predicate HeldFit<V, P>(s: State<V, P>) {
    forall i :: 0 <= i < |s.held| ==> Fits(s.held[i])
  }

  ghost predicate NoTimers<V, P>(s: State<V, P>) {
    (forall op <- s.inflight :: op.IoOp?) && forall i :: 0 <= i < |s.held| ==> s.held[i].op.IoOp?
  }

  /** How often `op` was delivered so far. */
  function Delivered(log: seq<WakeEvent>, op: Op): nat
    decreases |log|
  {
    if log == [] then 0
    else
      var e := log[|log| - 1];
      Delivered(log[..|log| - 1], op) + (if IsDelivery(e) && OpOf(e) == op then 1 else 0)
  }

  lemma DeliveredAppend(log: seq<WakeEvent>, e: WakeEvent, op: Op)
    ensures Delivered(log + [e], op) == Delivered(log, op) + if IsDelivery(e) && OpOf(e) == op then 1 else 0
  {
    assert (log + [e])[..|log|] == log;
  }

  /** The next step parks a task on `op`. */
  predicate ParksNow<V, P>(m: Machine<V, P>, s: State<V, P>, op: Op) {
    && s.phase == Top && !m.exiting(s.vm) && s.current.Some?
    && match m.resume(s.vm, s.ready, s.current.value, s.needsLoad).step
       case ParkedIo => op == IoOp(s.current.value)
       case ParkedTimed(target, epoch) => op == TimerOp(s.current.value, target, epoch)
       case _ => false
  }

  /** Operations started and delivered: what a step adds to one it adds to the other or
      leaves outstanding. */
  ghost predicate Accounts<V, P>(m: Machine<V, P>, s: State<V, P>, s': State<V, P>, op: Op) {
    Delivered(s'.log, op) + Outstanding(s', op) == Delivered(s.log, op) + Outstanding(s, op) + if ParksNow(m, s, op) then 1 else 0
  }

  // ---- Single steps -----------------------------------------------------------------------

  lemma DeliverAccounts<V, P>(m: Machine<V, P>, s: State<V, P>, c: Completion<P>, op: Op)
    requires Fits(c)
    ensures var s' := Deliver(m, s, c); var one := if c.op == op then 1 else 0;
            && s'.inflight == s.inflight && s'.held == s.held && s'.current == s.current
            && Delivered(s'.log, op) == Delivered(s.log, op) + one
            && (c.op.IoOp? && op.IoOp? ==> multiset(s'.ready)[op.tid] == multiset(s.ready)[op.tid] + one)
  {
    hide Delivered;
    DeliveredAppend(s.log, EventOf(m, c), op);
  }

  lemma TakeFlight<V, P>(s: State<V, P>, gone: Op, op: Op)
    requires gone in s.inflight
    ensures var s' := s.(inflight := s.inflight - multiset{gone});
            Outstanding(s', op) == Outstanding(s, op) - (if gone == op then 1 else 0)
  {
  }

  lemma TakeHeldOp<V, P>(s: State<V, P>, i: nat, phase: Phase, op: Op)
    requires i < |s.held|
    ensures var s' := s.(held := s.held[..i] + s.held[i + 1..], phase := phase);
            Outstanding(s', op) == Outstanding(s, op) - (if s.held[i].op == op then 1 else 0)
  {
    HeldOpsRemove(s.held, i);
  }

  lemma HoldOp<V, P>(s: State<V, P>, c: Completion<P>, op: Op)
    requires c.op in s.inflight
    ensures Outstanding(s.(inflight := s.inflight - multiset{c.op}, held := s.held + [c]), op) == Outstanding(s, op)
  {
    assert HeldOps(s.held + [c]) == HeldOps(s.held) + [c.op];
  }

  lemma ResumeAccounts<V, P>(m: Machine<V, P>, s: State<V, P>, op: Op)
    requires s.current.Some? && s.phase == Top && !m.exiting(s.vm)
    ensures Accounts(m, s, Resume(m, s), op) && Resume(m, s).held == s.held
  {
    hide Delivered, HeldOps;
  }

  lemma PickKeeps<V, P>(s: State<V, P>, i: nat, op: Op)
    requires i < |s.ready| && s.current.None?
    ensures var s' := PickAt(s, i);
            && Places(s', op.tid) == Places(s, op.tid) && s'.inflight == s.inflight && s'.held == s.held
            && Delivered(s'.log, op) == Delivered(s.log, op)
  {
    hide HeldOps, Delivered;
    DeliveredAppend(s.log, Pick(s.ready[i]), op);
    assert s.ready == s.ready[..i] + [s.ready[i]] + s.ready[i + 1..];
  }

  lemma SettleKeeps<V, P>(m: Machine<V, P>, s: State<V, P>, preempt: bool, op: Op)
    requires s.current.Some?
    ensures var s' := Settle(m, s, preempt);
            && Places(s', op.tid) == Places(s, op.tid) && s'.inflight == s.inflight && s'.held == s.held
            && Delivered(s'.log, op) == Delivered(s.log, op)
  {
    hide HeldOps, Delivered;
    DeliveredAppend(s.log, Rotate(preempt), op);
  }

  /** A completion leaves the operations in flight, or those held back, for the queue. */
  lemma DeliverKeeps<V, P>(m: Machine<V, P>, s: State<V, P>, s1: State<V, P>, c: Completion<P>, op: Op)
    requires Fits(c) && s1 == s.(inflight := s1.inflight, held := s1.held, phase := s1.phase)
    requires Outstanding(s1, op) == Outstanding(s, op) - (if c.op == op then 1 else 0)
    requires !ParksNow(m, s, op)
    ensures Accounts(m, s, Deliver(m, s1, c), op)
    ensures c.op.IoOp? && op.IoOp? ==> Places(Deliver(m, s1, c), op.tid) == Places(s, op.tid)
  {
    hide Delivered, Deliver;
    DeliverAccounts(m, s1, c, op);
  }

  lemma LiveAccounts<V, P>(m: Machine<V, P>, stress: bool, s: State<V, P>, choice: Choice<P>, s': State<V, P>, op: Op)
    requires LiveNext(m, stress, s, choice) == Some(s')
    ensures Accounts(m, s, s', op)
  {
    hide Delivered, Outstanding, Deliver, Resume, Settle, PickAt;
    if choice.Complete? && (s.phase == AtYield || (s.phase == Top && s.current.None? && s.ready == [] && !m.exiting(s.vm) && s.inflight != multiset{})) {
      TakeFlight(s, choice.c.op, op);
      DeliverKeeps(m, s, s.(inflight := s.inflight - multiset{choice.c.op}), choice.c, op);
    } else if s.phase == AtYield {
      SettleKeeps(m, s, stress || s.ready != [], op);
      SameOutstanding(s, s', op);
    } else if m.exiting(s.vm) {
      SameOutstanding(s, s', op);
    } else if s.current.Some? {
      ResumeAccounts(m, s, op);
    } else if s.ready != [] {
      PickKeeps(s, choice.index, op);
      SameOutstanding(s, s', op);
    } else {
      SameOutstanding(s, s', op);
    }
  }

  lemma SameOutstanding<V, P>(s: State<V, P>, s': State<V, P>, op: Op)
    requires s'.inflight == s.inflight && s'.held == s.held
    ensures Outstanding(s', op) == Outstanding(s, op)
  {
  }

  lemma TakeAccounts<V, P>(m: Machine<V, P>, s: State<V, P>, i: nat, phase: Phase, op: Op)
    requires HeldFit(s) && i < |s.held| && s.phase != Top
    ensures var s' := Deliver(m, s.(held := s.held[..i] + s.held[i + 1..], phase := phase), s.held[i]);
            Accounts(m, s, s', op) && HeldFit(s') && (NoTimers(s) ==> NoTimers(s') && (op.IoOp? ==> Places(s', op.tid) == Places(s, op.tid)))
  {
    hide Delivered, Outstanding, Deliver, Fits;
    var s1 := s.(held := s.held[..i] + s.held[i + 1..], phase := phase);
    TakeHeldOp(s, i, phase, op);
    DeliverKeeps(m, s, s1, s.held[i], op);
    DeliverAccounts(m, s1, s.held[i], op);
  }

  lemma HoldAccounts<V, P>(m: Machine<V, P>, s: State<V, P>, c: Completion<P>, op: Op)
    requires HeldFit(s) && s.phase != Top && Fits(c) && c.op in s.inflight
    ensures var s' := s.(inflight := s.inflight - multiset{c.op}, held := s.held + [c]);
            Accounts(m, s, s', op) && HeldFit(s') && (NoTimers(s) ==> NoTimers(s') && (op.IoOp? ==> Places(s', op.tid) == Places(s, op.tid)))
  {
    hide Delivered, Outstanding, Fits;
    HoldOp(s, c, op);
  }

  lemma AwaitAccounts<V, P>(m: Machine<V, P>, r: Replay<V, P>, want: WakeEvent, arrival: Completion<P>, op: Op)
    requires HeldFit(r.s) && r.s.phase != Top
    ensures var r' := AwaitDelivery(m, r, want, arrival);
            Accounts(m, r.s, r'.s, op) && HeldFit(r'.s) && (NoTimers(r.s) ==> NoTimers(r'.s) && (op.IoOp? ==> Places(r'.s, op.tid) == Places(r.s, op.tid)))
  {
    hide Delivered, Outstanding, Deliver, HeldIndex, Fits;
    var s := r.s;
    var i := HeldIndex(m, s.held, want);
    if i < |s.held| {
      hide Accounts, HeldFit, NoTimers, Places;
      TakeAccounts(m, s, i, if s.phase.Idle? then Idle(true) else s.phase, op);
    } else if s.inflight == multiset{} {
      SameOutstanding(s, Diverge(r).s, op);
    } else if Fits(arrival) && arrival.op in s.inflight {
      HoldAccounts(m, s, arrival, op);
    }
  }

  lemma ReplayAccounts<V, P>(m: Machine<V, P>, log: seq<WakeEvent>, r: Replay<V, P>, arrival: Completion<P>, op: Op)
    requires HeldFit(r.s)
    ensures var r' := ReplayNext(m, log, r, arrival); Accounts(m, r.s, r'.s, op) && HeldFit(r'.s)
  {
    hide Delivered, Outstanding, Deliver, Resume, Settle, PickAt, AwaitDelivery, IndexIn;
    var s, r' := r.s, ReplayNext(m, log, r, arrival);
    var next := if r.pos < |log| then Some(log[r.pos]) else None;
    if s.phase != Top && !s.phase.Over? && next.Some? && IsDelivery(next.value) {
      AwaitAccounts(m, r, next.value, arrival, op);
    } else if s.phase == AtYield && next.Some? && next.value.Rotate? && s.current.Some? {
      SettleKeeps(m, s, next.value.preempt, op);
      SameOutstanding(s, r'.s, op);
    } else if s.phase == Top && !m.exiting(s.vm) && s.current.Some? {
      ResumeAccounts(m, s, op);
    } else if s.phase == Top && !m.exiting(s.vm) && s.ready != [] && next.Some? && next.value.Pick?
              && IndexIn(s.ready, next.value.tid) < |s.ready| {
      PickKeeps(s, IndexIn(s.ready, next.value.tid), op);
      SameOutstanding(s, r'.s, op);
    } else {
      SameOutstanding(s, r'.s, op);
    }
  }

  lemma ResumePlaces<V(!new), P(!new)>(m: Machine<V, P>, s: State<V, P>, t: TaskId)
    requires IoOnly(m) && s.current.Some? && NoTimers(s)
    ensures Places(Resume(m, s), t) == Places(s, t) && NoTimers(Resume(m, s))
  {
    hide HeldOps;
    var r := m.resume(s.vm, s.ready, s.current.value, s.needsLoad);
    assert r.ready == s.ready && !r.step.Parked? && !r.step.ParkedTimed?;
  }

  lemma LivePlaces<V(!new), P(!new)>(m: Machine<V, P>, stress: bool, s: State<V, P>, choice: Choice<P>, s': State<V, P>, t: TaskId)
    requires IoOnly(m) && NoTimers(s) && LiveNext(m, stress, s, choice) == Some(s')
    ensures NoTimers(s') && Places(s', t) == Places(s, t)
  {
    hide IoOnly, Outstanding, Deliver, Resume, Settle, PickAt, Fits, ParksNow;
    if choice.Complete? && (s.phase == AtYield || (s.phase == Top && s.current.None? && s.ready == [] && !m.exiting(s.vm) && s.inflight != multiset{})) {
      var s1 := s.(inflight := s.inflight - multiset{choice.c.op});
      TakeFlight(s, choice.c.op, IoOp(t));
      NotParking(m, s, IoOp(t));
      DeliverKeeps(m, s, s1, choice.c, IoOp(t));
      DeliverAccounts(m, s1, choice.c, IoOp(t));
    } else if s.phase == AtYield {
      SettleKeeps(m, s, stress || s.ready != [], IoOp(t));
    } else if m.exiting(s.vm) {
      SameOutstanding(s, s', IoOp(t));
    } else if s.current.Some? {
      ResumePlaces(m, s, t);
    } else if s.ready != [] {
      PickKeeps(s, choice.index, IoOp(t));
    } else {
      SameOutstanding(s, s', IoOp(t));
    }
  }

  lemma NotParking<V, P>(m: Machine<V, P>, s: State<V, P>, op: Op)
    requires s.phase != Top || s.current.None?
    ensures !ParksNow(m, s, op)
  {
  }

  lemma ReplayPlaces<V(!new), P(!new)>(m: Machine<V, P>, log: seq<WakeEvent>, r: Replay<V, P>, arrival: Completion<P>, t: TaskId)
    requires IoOnly(m) && HeldFit(r.s) && NoTimers(r.s)
    ensures var r' := ReplayNext(m, log, r, arrival); NoTimers(r'.s) && Places(r'.s, t) == Places(r.s, t)
  {
    hide IoOnly, Outstanding, Deliver, Resume, Settle, PickAt, AwaitDelivery, IndexIn, HeldFit;
    var s, r' := r.s, ReplayNext(m, log, r, arrival);
    var next := if r.pos < |log| then Some(log[r.pos]) else None;
    if s.phase != Top && !s.phase.Over? && next.Some? && IsDelivery(next.value) {
      AwaitAccounts(m, r, next.value, arrival, IoOp(t));
    } else if s.phase == AtYield && next.Some? && next.value.Rotate? && s.current.Some? {
      SettleKeeps(m, s, next.value.preempt, IoOp(t));
    } else if s.phase == Top && !m.exiting(s.vm) && s.current.Some? {
      ResumePlaces(m, s, t);
    } else if s.phase == Top && !m.exiting(s.vm) && s.ready != [] && next.Some? && next.value.Pick?
              && IndexIn(s.ready, next.value.tid) < |s.ready| {
      PickKeeps(s, IndexIn(s.ready, next.value.tid), IoOp(t));
    } else {
      SameOutstanding(s, r'.s, IoOp(t));
    }
  }

  // ---- Whole runs ----------------------------------------------------------------------------

  /** Each task keeps being in the same number of places - one, for a task that
      starts in one - whatever completes in whatever order, under stress or not. */
  lemma {:induction false} TasksConserved<V(!new), P(!new)>(m: Machine<V, P>, stress: bool, run: seq<State<V, P>>, choices: seq<Choice<P>>, n: nat, t: TaskId)
    requires IoOnly(m) && LiveSteps(m, stress, run, choices) && n <= |choices| && NoTimers(run[0])
    ensures NoTimers(run[n]) && Places(run[n], t) == Places(run[0], t)
    decreases n
  {
    hide IoOnly, NoTimers, Places, LiveNext;
    if n > 0 {
      TasksConserved(m, stress, run, choices, n - 1, t);
      LivePlaces(m, stress, run[n - 1], choices[n - 1], run[n], t);
    }
  }

  /** The same under replay, where completions that arrive early are held back,
      whatever arrives and whether or not the replay diverges. */
  lemma {:induction false} ReplayTasksConserved<V(!new), P(!new)>(m: Machine<V, P>, log: seq<WakeEvent>, r: Replay<V, P>, arrivals: nat -> Completion<P>, n: nat, t: TaskId)
    requires IoOnly(m) && HeldFit(r.s) && NoTimers(r.s)
    ensures var r' := ReplayRun(m, log, r, arrivals, n);
            HeldFit(r'.s) && NoTimers(r'.s) && Places(r'.s, t) == Places(r.s, t)
    decreases n
  {
    hide IoOnly, NoTimers, Places, HeldFit, Accounts, ReplayNext;
    if n > 0 {
      ReplayTasksConserved(m, log, r, arrivals, n - 1, t);
      var before := ReplayRun(m, log, r, arrivals, n - 1);
      ReplayPlaces(m, log, before, arrivals(n - 1), t);
      ReplayAccounts(m, log, before, arrivals(n - 1), IoOp(t));
    }
  }

  /** How often a task parked on `op` in the first `n` steps. */
  function LiveParks<V, P>(m: Machine<V, P>, run: seq<State<V, P>>, n: nat, op: Op): nat
    requires n < |run|
  {
    if n == 0 then 0 else LiveParks(m, run, n - 1, op) + if ParksNow(m, run[n - 1], op) then 1 else 0
  }

  function ReplayParks<V, P>(m: Machine<V, P>, log: seq<WakeEvent>, r: Replay<V, P>, arrivals: nat -> Completion<P>, n: nat, op: Op): nat
    decreases n
  {
    if n == 0 then 0
    else ReplayParks(m, log, r, arrivals, n - 1, op) + if ParksNow(m, ReplayRun(m, log, r, arrivals, n - 1).s, op) then 1 else 0
  }

  /** Single delivery, of I/O and of timers: every operation a task parked on is delivered
      once or is still outstanding, and nothing else is delivered. */
  lemma {:induction false} DeliveredOnce<V, P>(m: Machine<V, P>, stress: bool, run: seq<State<V, P>>, choices: seq<Choice<P>>, n: nat, op: Op)
    requires LiveSteps(m, stress, run, choices) && n <= |choices|
    ensures Delivered(run[n].log, op) + Outstanding(run[n], op)
            == Delivered(run[0].log, op) + Outstanding(run[0], op) + LiveParks(m, run, n, op)
    decreases n
  {
    hide Delivered, Outstanding, LiveNext, ParksNow;
    if n > 0 {
      DeliveredOnce(m, stress, run, choices, n - 1, op);
      LiveAccounts(m, stress, run[n - 1], choices[n - 1], run[n], op);
    }
  }

  /** The same under replay. */
  lemma {:induction false} ReplayDeliveredOnce<V, P>(m: Machine<V, P>, log: seq<WakeEvent>, r: Replay<V, P>, arrivals: nat -> Completion<P>, n: nat, op: Op)
    requires HeldFit(r.s)
    ensures var r' := ReplayRun(m, log, r, arrivals, n);
            && HeldFit(r'.s)
            && Delivered(r'.s.log, op) + Outstanding(r'.s, op)
               == Delivered(r.s.log, op) + Outstanding(r.s, op) + ReplayParks(m, log, r, arrivals, n, op)
    decreases n
  {
    hide Delivered, Outstanding, ReplayNext, ParksNow, HeldFit;
    if n > 0 {
      ReplayDeliveredOnce(m, log, r, arrivals, n - 1, op);
      ReplayAccounts(m, log, ReplayRun(m, log, r, arrivals, n - 1), arrivals(n - 1), op);
    }
  }
}
