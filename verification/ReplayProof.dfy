/** Replaying a recorded run follows it event by event, or reports divergence. */
module ReplayProof {
  import opened Wrappers
  import opened Driver

  // ---- Recorded runs ---------------------------------------------------------------

  ghost predicate LiveRun<V, P>(m: Machine<V, P>, stress: bool, run: seq<State<V, P>>, choices: seq<Choice<P>>) {
    && |run| == |choices| + 1
    && run[0].phase == Top && run[0].log == [] && run[0].held == []
    && forall i :: 0 <= i < |choices| ==> LiveNext(m, stress, run[i], choices[i]) == Some(run[i + 1])
  }

  /** Taking the task at `i` out of the queue leaves what taking out its first
      occurrence leaves. */
  predicate PicksLikeFirst(ready: seq<TaskId>, i: nat) {
    i < |ready| ==>
      var first := IndexIn(ready, ready[i]);
      ready[..i] + ready[i + 1..] == ready[..first] + ready[first + 1..]
  }

  predicate PickOk<V, P>(m: Machine<V, P>, s: State<V, P>, choice: Choice<P>) {
    s.phase == Top && !m.exiting(s.vm) && s.current.None? && choice.Choose? ==> PicksLikeFirst(s.ready, choice.index)
  }

  /** A run that was recorded to its end; `log` is what it wrote.  An event names a
      task, not its place in the queue: where the stress generator picks among several
      entries of one task, the choice must not matter for what is left. */
  ghost predicate Recording<V, P>(m: Machine<V, P>, stress: bool, run: seq<State<V, P>>, choices: seq<Choice<P>>, log: seq<WakeEvent>) {
    && LiveRun(m, stress, run, choices)
    && run[|choices|].phase.Over? && run[|choices|].log == log
    && (stress ==> forall i :: 0 <= i < |choices| ==> PickOk(m, run[i], choices[i]))
  }

  lemma LiveLog<V, P>(m: Machine<V, P>, stress: bool, s: State<V, P>, choice: Choice<P>, s': State<V, P>)
    requires LiveNext(m, stress, s, choice) == Some(s')
    ensures s.log <= s'.log && |s'.log| <= |s.log| + 1 && s'.held == s.held
  {
  }

  lemma {:induction false} LogsGrow<V, P>(m: Machine<V, P>, stress: bool, run: seq<State<V, P>>, choices: seq<Choice<P>>, i: nat, j: nat)
    requires LiveRun(m, stress, run, choices) && i <= j <= |choices|
    ensures run[i].log <= run[j].log
    decreases j - i
  {
    if i < j {
      LiveLog(m, stress, run[i], choices[i], run[i + 1]);
      LogsGrow(m, stress, run, choices, i + 1, j);
    }
  }

  // ---- The simulation relation --------------------------------------------------------

  /** Delivered payloads are compared by hash only. */
  ghost predicate HashFaithful<V, P(!new)>(m: Machine<V, P>) {
    forall p, q :: m.hash(p) == m.hash(q) ==> p == q
  }

  lemma SameEvent<V, P(!new)>(m: Machine<V, P>, a: Completion<P>, b: Completion<P>)
    requires HashFaithful(m) && Fits(a) && Fits(b) && EventOf(m, a) == EventOf(m, b)
    ensures a == b
  {
  }

  function HeldOps<P>(held: seq<Completion<P>>): seq<Op> {
    seq(|held|, i requires 0 <= i < |held| => held[i].op)
  }

  lemma HeldOpsRemove<P>(held: seq<Completion<P>>, i: nat)
    requires i < |held|
    ensures multiset(HeldOps(held[..i] + held[i + 1..])) == multiset(HeldOps(held)) - multiset{held[i].op}
    ensures held[i].op in multiset(HeldOps(held))
  {
    var ops := HeldOps(held);
    assert ops == ops[..i] + [ops[i]] + ops[i + 1..];
    assert HeldOps(held[..i] + held[i + 1..]) == ops[..i] + ops[i + 1..];
  }

  ghost predicate PhaseMatch<V, P>(l: State<V, P>, r: State<V, P>, exiting: bool) {
    match r.phase
    case Idle(delivered) =>
      && l.phase == Top && l.current.None?
      && (!delivered ==> l.ready == [] && l.inflight != multiset{} && !exiting)
    case _ => l.phase == r.phase
  }

  /** Same VM, queue, current task and events. */
  ghost predicate SameView<V, P>(l: State<V, P>, r: State<V, P>) {
    l.vm == r.vm && l.ready == r.ready && l.current == r.current && l.needsLoad == r.needsLoad && l.log == r.log
  }

  /** The events so far are the log up to the cursor. */
  ghost predicate AtCursor<V, P>(r: Replay<V, P>, log: seq<WakeEvent>) {
    r.pos <= |log| && r.s.log == log[..r.pos]
  }

  /** What is in flight in the recording is in flight or held back here. */
  ghost predicate OpsMatch<P>(recorded: multiset<Op>, inflight: multiset<Op>, held: seq<Completion<P>>) {
    && recorded == inflight + multiset(HeldOps(held))
    && forall i :: 0 <= i < |held| ==> Fits(held[i])
  }

  /** The replaying driver is where the recorded one was. */
  ghost predicate InStep<V, P>(m: Machine<V, P>, l: State<V, P>, r: Replay<V, P>, log: seq<WakeEvent>) {
    && SameView(l, r.s) && AtCursor(r, log) && l.held == []
    && OpsMatch(l.inflight, r.s.inflight, r.s.held)
    && PhaseMatch(l, r.s, m.exiting(l.vm))
  }

  /** The recorded step from `l` to `l'` is part of a complete recording. */
  ghost predicate Recorded<V, P>(m: Machine<V, P>, stress: bool, l: State<V, P>, choice: Choice<P>, l': State<V, P>, log: seq<WakeEvent>) {
    && LiveNext(m, stress, l, choice) == Some(l')
    && l'.log <= log
    && (l'.phase.Over? ==> l'.log == log)
    && (stress ==> PickOk(m, l, choice))
  }

  /** The one way a replay can diverge: the completion recorded next never
      arrives with the recorded result. */
  ghost predicate Missing<V, P>(m: Machine<V, P>, l: State<V, P>, r: Replay<V, P>, log: seq<WakeEvent>) {
    && r.pos < |log| && IsDelivery(log[r.pos]) && OpOf(log[r.pos]) in l.inflight
    && HeldIndex(m, r.s.held, log[r.pos]) == |r.s.held|
    && r.s.inflight == multiset{}
  }

  lemma NextEvent<V, P>(l: State<V, P>, l': State<V, P>, e: WakeEvent, r: Replay<V, P>, log: seq<WakeEvent>)
    requires l'.log == l.log + [e] && l'.log <= log && l.log == r.s.log && AtCursor(r, log)
    ensures r.pos < |log| && log[r.pos] == e && l'.log == log[..r.pos + 1]
  {
    assert l'.log[|l.log|] == e;
  }

  // ---- One step ----------------------------------------------------------------------

  lemma StepDelivery<V, P(!new)>(m: Machine<V, P>, l: State<V, P>, c: Completion<P>, l': State<V, P>,
                                 r: Replay<V, P>, log: seq<WakeEvent>, arrival: Completion<P>)
    requires HashFaithful(m) && l'.log <= log && InStep(m, l, r, log)
    requires r.s.phase.Idle? || r.s.phase.AtYield?
    requires Fits(c) && c.op in l.inflight && l' == Deliver(m, l.(inflight := l.inflight - multiset{c.op}), c)
    ensures r.pos < |log| && log[r.pos] == EventOf(m, c)
    ensures var r' := AwaitDelivery(m, r, log[r.pos], arrival);
            InStep(m, l, r', log) || InStep(m, l', r', log) || (r' == Diverge(r) && Missing(m, l, r, log))
  {
    NextEvent(l, l', EventOf(m, c), r, log);
    AwaitInStep(m, l, c, r, log, arrival);
  }

  lemma AwaitInStep<V, P(!new)>(m: Machine<V, P>, l: State<V, P>, c: Completion<P>, r: Replay<V, P>, log: seq<WakeEvent>, arrival: Completion<P>)
    requires HashFaithful(m) && InStep(m, l, r, log) && (r.s.phase.Idle? || r.s.phase.AtYield?)
    requires Fits(c) && c.op in l.inflight && r.pos < |log| && log[r.pos] == EventOf(m, c)
    ensures var r' := AwaitDelivery(m, r, log[r.pos], arrival);
            || InStep(m, l, r', log)
            || InStep(m, Deliver(m, l.(inflight := l.inflight - multiset{c.op}), c), r', log)
            || (r' == Diverge(r) && Missing(m, l, r, log))
  {
    hide InStep;
    var i := HeldIndex(m, r.s.held, log[r.pos]);
    if i < |r.s.held| {
      FoundInStep(m, l, c, r, log, i);
    } else if r.s.inflight != multiset{} && Fits(arrival) && arrival.op in r.s.inflight {
      HoldInStep(m, l, r, log, arrival);
    }
  }

  lemma FoundInStep<V, P(!new)>(m: Machine<V, P>, l: State<V, P>, c: Completion<P>, r: Replay<V, P>, log: seq<WakeEvent>, i: nat)
    requires HashFaithful(m) && InStep(m, l, r, log) && (r.s.phase.Idle? || r.s.phase.AtYield?)
    requires Fits(c) && r.pos < |log| && log[r.pos] == EventOf(m, c)
    requires i < |r.s.held| && EventOf(m, r.s.held[i]) == log[r.pos]
    ensures r.s.held[i] == c
    ensures var s1 := r.s.(held := r.s.held[..i] + r.s.held[i + 1..], phase := if r.s.phase.Idle? then Idle(true) else r.s.phase);
            InStep(m, Deliver(m, l.(inflight := l.inflight - multiset{c.op}), c), Replay(Deliver(m, s1, c), r.pos + 1), log)
  {
    SameEvent(m, r.s.held[i], c);
    DeliverInStep(m, l, r, log, c, i);
  }

  lemma HoldInStep<V, P>(m: Machine<V, P>, l: State<V, P>, r: Replay<V, P>, log: seq<WakeEvent>, arrival: Completion<P>)
    requires InStep(m, l, r, log) && Fits(arrival) && arrival.op in r.s.inflight
    ensures InStep(m, l, r.(s := r.s.(inflight := r.s.inflight - multiset{arrival.op}, held := r.s.held + [arrival])), log)
  {
    HoldKeepsOps(l.inflight, r.s.inflight, r.s.held, arrival);
  }

  lemma HoldKeepsOps<P>(recorded: multiset<Op>, inflight: multiset<Op>, held: seq<Completion<P>>, arrival: Completion<P>)
    requires OpsMatch(recorded, inflight, held) && Fits(arrival) && arrival.op in inflight
    ensures OpsMatch(recorded, inflight - multiset{arrival.op}, held + [arrival])
  {
    assert HeldOps(held + [arrival]) == HeldOps(held) + [arrival.op];
    assert inflight == inflight - multiset{arrival.op} + multiset{arrival.op};
  }

  lemma TakeKeepsOps<P>(recorded: multiset<Op>, inflight: multiset<Op>, held: seq<Completion<P>>, i: nat)
    requires OpsMatch(recorded, inflight, held) && i < |held|
    ensures held[i].op in recorded
    ensures OpsMatch(recorded - multiset{held[i].op}, inflight, held[..i] + held[i + 1..])
  {
    HeldOpsRemove(held, i);
  }

  lemma AddKeepsOps<P>(recorded: multiset<Op>, inflight: multiset<Op>, held: seq<Completion<P>>, op: Op)
    requires OpsMatch(recorded, inflight, held)
    ensures OpsMatch(recorded + multiset{op}, inflight + multiset{op}, held)
  {
  }

  /** Delivery looks at the VM and the queue and touches nothing else. */
  lemma DeliverSame<V, P>(m: Machine<V, P>, l: State<V, P>, r: State<V, P>, c: Completion<P>)
    requires SameView(l, r)
    ensures SameView(Deliver(m, l, c), Deliver(m, r, c))
    ensures var d := Deliver(m, r, c);
            && d.log == r.log + [EventOf(m, c)] && d.current == r.current
            && d.phase == r.phase && d.held == r.held && d.inflight == r.inflight
  {
  }

  lemma DeliverInStep<V, P>(m: Machine<V, P>, l: State<V, P>, r: Replay<V, P>, log: seq<WakeEvent>, c: Completion<P>, i: nat)
    requires InStep(m, l, r, log) && (r.s.phase.Idle? || r.s.phase.AtYield?)
    requires i < |r.s.held| && r.s.held[i] == c && r.pos < |log| && log[r.pos] == EventOf(m, c)
    ensures var s1 := r.s.(held := r.s.held[..i] + r.s.held[i + 1..], phase := if r.s.phase.Idle? then Idle(true) else r.s.phase);
            InStep(m, Deliver(m, l.(inflight := l.inflight - multiset{c.op}), c), Replay(Deliver(m, s1, c), r.pos + 1), log)
  {
    var s1 := r.s.(held := r.s.held[..i] + r.s.held[i + 1..], phase := if r.s.phase.Idle? then Idle(true) else r.s.phase);
    var l1 := l.(inflight := l.inflight - multiset{c.op});
    TakeKeepsOps(l.inflight, r.s.inflight, r.s.held, i);
    DeliverSame(m, l1, s1, c);
    DeliverSame(m, s1, l1, c);
    assert log[..r.pos + 1] == log[..r.pos] + [log[r.pos]];
  }

  lemma StepYield<V, P(!new)>(m: Machine<V, P>, stress: bool, l: State<V, P>, choice: Choice<P>, l': State<V, P>,
                              r: Replay<V, P>, log: seq<WakeEvent>, arrival: Completion<P>)
    requires HashFaithful(m) && Recorded(m, stress, l, choice, l', log) && InStep(m, l, r, log) && r.s.phase.AtYield?
    ensures var r' := ReplayNext(m, log, r, arrival);
            InStep(m, l, r', log) || InStep(m, l', r', log) || (r' == Diverge(r) && Missing(m, l, r, log))
  {
    hide InStep;
    InStepFacts(m, l, r, log);
    if choice.Complete? {
      StepDelivery(m, l, choice.c, l', r, log, arrival);
    } else {
      NextEvent(l, l', Rotate(stress || l.ready != []), r, log);
      SettleInStep(m, l, r, log, stress || l.ready != []);
    }
  }

  lemma SettleInStep<V, P>(m: Machine<V, P>, l: State<V, P>, r: Replay<V, P>, log: seq<WakeEvent>, preempt: bool)
    requires InStep(m, l, r, log) && r.s.phase.AtYield? && l.current.Some?
    requires r.pos < |log| && log[r.pos] == Rotate(preempt)
    ensures InStep(m, Settle(m, l, preempt), Replay(Settle(m, r.s, preempt), r.pos + 1), log)
  {
    assert log[..r.pos + 1] == log[..r.pos] + [log[r.pos]];
  }

  lemma SamePick<V, P>(s: State<V, P>, i: nat)
    requires i < |s.ready| && (i == 0 || PicksLikeFirst(s.ready, i))
    ensures IndexIn(s.ready, s.ready[i]) < |s.ready| && PickAt(s, IndexIn(s.ready, s.ready[i])) == PickAt(s, i)
  {
  }

  lemma StepPick<V, P>(m: Machine<V, P>, stress: bool, l: State<V, P>, choice: Choice<P>, l': State<V, P>,
                       r: Replay<V, P>, log: seq<WakeEvent>)
    requires Recorded(m, stress, l, choice, l', log) && InStep(m, l, r, log)
    requires l.phase == Top && l.current.None? && l.ready != [] && !m.exiting(l.vm)
    ensures choice.Choose? && choice.index < |l.ready| && l' == PickAt(l, choice.index)
    ensures r.pos < |log| && log[r.pos] == Pick(l.ready[choice.index])
    ensures var first := IndexIn(r.s.ready, l.ready[choice.index]);
            first < |r.s.ready| && (r.s.phase == Top ==> InStep(m, l', Replay(PickAt(r.s, first), r.pos + 1), log))
  {
    hide PicksLikeFirst, IndexIn;
    NextEvent(l, l', Pick(l.ready[choice.index]), r, log);
    SamePick(r.s, choice.index);
  }

  lemma StepTop<V, P(!new)>(m: Machine<V, P>, stress: bool, l: State<V, P>, choice: Choice<P>, l': State<V, P>,
                            r: Replay<V, P>, log: seq<WakeEvent>, arrival: Completion<P>)
    requires HashFaithful(m) && Recorded(m, stress, l, choice, l', log) && InStep(m, l, r, log) && r.s.phase == Top
    ensures var r' := ReplayNext(m, log, r, arrival); InStep(m, l, r', log) || InStep(m, l', r', log)
  {
    hide InStep, PickAt, Resume, IndexIn, PickOk;
    InStepFacts(m, l, r, log);
    if m.exiting(l.vm) || (l.current.None? && l.ready == []) {
      StepStill(m, stress, l, choice, l', r, log, arrival);
    } else if l.current.Some? {
      ResumeInStep(m, l, r, log);
    } else {
      StepPick(m, stress, l, choice, l', r, log);
    }
  }

  /** Nothing to run: both drivers stop, or the replay starts to wait. */
  lemma StepStill<V, P(!new)>(m: Machine<V, P>, stress: bool, l: State<V, P>, choice: Choice<P>, l': State<V, P>,
                              r: Replay<V, P>, log: seq<WakeEvent>, arrival: Completion<P>)
    requires Recorded(m, stress, l, choice, l', log) && InStep(m, l, r, log) && r.s.phase == Top
    requires m.exiting(l.vm) || (l.current.None? && l.ready == [])
    ensures var r' := ReplayNext(m, log, r, arrival); InStep(m, l, r', log) || InStep(m, l', r', log)
  {
    hide PickOk;
    HeldEmpty(l.inflight, r.s.inflight, r.s.held);
  }

  lemma ResumeInStep<V, P>(m: Machine<V, P>, l: State<V, P>, r: Replay<V, P>, log: seq<WakeEvent>)
    requires InStep(m, l, r, log) && r.s.phase == Top && l.current.Some?
    ensures InStep(m, Resume(m, l), r.(s := Resume(m, r.s)), log)
  {
    var cur := l.current.value;
    var end := m.resume(l.vm, l.ready, cur, l.needsLoad);
    var l1 := l.(vm := end.vm, ready := end.ready, needsLoad := false);
    var r1 := r.(s := r.s.(vm := end.vm, ready := end.ready, needsLoad := false));
    EndInStep(m, l1, r1, log, cur, end.step);
  }

  lemma EndInStep<V, P>(m: Machine<V, P>, l: State<V, P>, r: Replay<V, P>, log: seq<WakeEvent>, cur: TaskId, step: RunStep)
    requires InStep(m, l, r, log) && r.s.phase == Top && l.current.Some?
    ensures InStep(m, EndStep(l, cur, step), r.(s := EndStep(r.s, cur, step)), log)
  {
    match step
    case ParkedIo => AddKeepsOps(l.inflight, r.s.inflight, r.s.held, IoOp(cur));
    case ParkedTimed(target, epoch) => AddKeepsOps(l.inflight, r.s.inflight, r.s.held, TimerOp(cur, target, epoch));
    case _ =>
  }

  lemma HeldEmpty<P>(recorded: multiset<Op>, inflight: multiset<Op>, held: seq<Completion<P>>)
    requires OpsMatch(recorded, inflight, held)
    ensures recorded == multiset{} <==> inflight == multiset{} && held == []
  {
    if held != [] {
      HeldOpsRemove(held, 0);
    } else {
      assert HeldOps(held) == [];
    }
  }

  lemma InStepFacts<V, P>(m: Machine<V, P>, l: State<V, P>, r: Replay<V, P>, log: seq<WakeEvent>)
    requires InStep(m, l, r, log)
    ensures SameView(l, r.s) && AtCursor(r, log) && l.held == [] && PhaseMatch(l, r.s, m.exiting(l.vm))
  {
  }

  lemma LeaveIdle<V, P>(m: Machine<V, P>, l: State<V, P>, r: Replay<V, P>, log: seq<WakeEvent>, arrival: Completion<P>)
    requires InStep(m, l, r, log) && r.s.phase == Idle(true)
    requires r.pos < |log| ==> !IsDelivery(log[r.pos])
    ensures InStep(m, l, ReplayNext(m, log, r, arrival), log)
  {
    assert ReplayNext(m, log, r, arrival) == r.(s := r.s.(phase := Top));
  }

  lemma AtEnd<V, P>(l: State<V, P>, r: Replay<V, P>, log: seq<WakeEvent>)
    requires AtCursor(r, log) && r.s.log == log
    ensures r.pos == |log|
  {
    assert |log[..r.pos]| == r.pos;
  }

  lemma StepIdle<V, P(!new)>(m: Machine<V, P>, stress: bool, l: State<V, P>, choice: Choice<P>, l': State<V, P>,
                             r: Replay<V, P>, log: seq<WakeEvent>, arrival: Completion<P>)
    requires HashFaithful(m) && Recorded(m, stress, l, choice, l', log) && InStep(m, l, r, log) && r.s.phase.Idle?
    ensures var r' := ReplayNext(m, log, r, arrival);
            InStep(m, l, r', log) || InStep(m, l', r', log) || (r' == Diverge(r) && Missing(m, l, r, log))
  {
    hide InStep;
    InStepFacts(m, l, r, log);
    if m.exiting(l.vm) || (l.ready == [] && l.inflight == multiset{}) {
      AtEnd(l, r, log);
      LeaveIdle(m, l, r, log, arrival);
    } else if l.ready != [] {
      StepPick(m, stress, l, choice, l', r, log);
      LeaveIdle(m, l, r, log, arrival);
    } else {
      StepDelivery(m, l, choice.c, l', r, log, arrival);
    }
  }

  /** Each step of a replay stays with the recorded state, moves on to the next
      one, or diverges because the recorded completion is missing. */
  lemma ReplayStep<V, P(!new)>(m: Machine<V, P>, stress: bool, l: State<V, P>, choice: Choice<P>, l': State<V, P>,
                               r: Replay<V, P>, log: seq<WakeEvent>, arrival: Completion<P>)
    requires HashFaithful(m) && Recorded(m, stress, l, choice, l', log) && InStep(m, l, r, log)
    ensures var r' := ReplayNext(m, log, r, arrival);
            InStep(m, l, r', log) || InStep(m, l', r', log) || (r' == Diverge(r) && Missing(m, l, r, log))
  {
    match r.s.phase
    case AtYield => StepYield(m, stress, l, choice, l', r, log, arrival);
    case Top => StepTop(m, stress, l, choice, l', r, log, arrival);
    case Idle(_) => StepIdle(m, stress, l, choice, l', r, log, arrival);
    case Over(_) =>
  }

  // ---- Whole runs ---------------------------------------------------------------------

  function ReplayRun<V, P>(m: Machine<V, P>, log: seq<WakeEvent>, r: Replay<V, P>, arrivals: nat -> Completion<P>, k: nat): Replay<V, P>
    decreases k
  {
    if k == 0 then r else ReplayNext(m, log, ReplayRun(m, log, r, arrivals, k - 1), arrivals(k - 1))
  }

  ghost predicate FollowsAt<V, P>(m: Machine<V, P>, run: seq<State<V, P>>, r: Replay<V, P>, log: seq<WakeEvent>, i: nat) {
    i < |run| && InStep(m, run[i], r, log)
  }

  lemma RecordedAt<V, P>(m: Machine<V, P>, stress: bool, run: seq<State<V, P>>, choices: seq<Choice<P>>, log: seq<WakeEvent>, i: nat)
    requires Recording(m, stress, run, choices, log) && i < |choices|
    ensures Recorded(m, stress, run[i], choices[i], run[i + 1], log)
  {
    LogsGrow(m, stress, run, choices, i + 1, |choices|);
    if i + 1 < |choices| {
      assert LiveNext(m, stress, run[i + 1], choices[i + 1]) == Some(run[i + 2]);
    }
  }

  /** Replay follows the recording.  From the same start, whatever order the
      completions arrive in and whatever they bring, after any number of steps
      the replaying driver is in step with some recorded state - so its events
      are a prefix of the log and, when it ends, it ends as the recording did -
      or it has reported divergence.  It never takes another schedule. */
  lemma {:induction false} ReplayFollows<V, P(!new)>(m: Machine<V, P>, stress: bool, run: seq<State<V, P>>, choices: seq<Choice<P>>,
                                                     log: seq<WakeEvent>, arrivals: nat -> Completion<P>, k: nat)
    requires HashFaithful(m) && Recording(m, stress, run, choices, log)
    ensures var r := ReplayRun(m, log, Replay(run[0], 0), arrivals, k);
            r.s.phase == Over(Diverged) || exists i: nat :: FollowsAt(m, run, r, log, i)
    decreases k
  {
    if k == 0 {
      assert HeldOps(run[0].held) == [];
      assert FollowsAt(m, run, Replay(run[0], 0), log, 0);
    } else {
      ReplayFollows(m, stress, run, choices, log, arrivals, k - 1);
      var r := ReplayRun(m, log, Replay(run[0], 0), arrivals, k - 1);
      if r.s.phase != Over(Diverged) {
        var i: nat :| FollowsAt(m, run, r, log, i);
        var _ := FollowOn(m, stress, run, choices, log, r, i, arrivals(k - 1));
      }
    }
  }

  lemma StepEmits<V, P>(m: Machine<V, P>, log: seq<WakeEvent>, r: Replay<V, P>, arrival: Completion<P>)
    requires AtCursor(r, log)
    ensures var r' := ReplayNext(m, log, r, arrival); r'.s.phase == Over(Diverged) || AtCursor(r', log)
  {
    hide AwaitDelivery;
    if r.pos < |log| {
      assert log[..r.pos + 1] == log[..r.pos] + [log[r.pos]];
      AwaitEmits(m, log, r, arrival);
    }
  }

  lemma AwaitEmits<V, P>(m: Machine<V, P>, log: seq<WakeEvent>, r: Replay<V, P>, arrival: Completion<P>)
    requires AtCursor(r, log) && r.pos < |log|
    ensures var r' := AwaitDelivery(m, r, log[r.pos], arrival); r'.s.phase == Over(Diverged) || AtCursor(r', log)
  {
    assert log[..r.pos + 1] == log[..r.pos] + [log[r.pos]];
  }

  /** On every log, recorded or not, and with every machine: what a replay emits is
      exactly the log up to the cursor, or the replay has reported divergence. */
  lemma {:induction false} ReplayEmitsPrefix<V, P>(m: Machine<V, P>, log: seq<WakeEvent>, r: Replay<V, P>, arrivals: nat -> Completion<P>, k: nat)
    requires AtCursor(r, log)
    ensures var r' := ReplayRun(m, log, r, arrivals, k); r'.s.phase == Over(Diverged) || AtCursor(r', log)
    decreases k
  {
    hide AtCursor, ReplayNext;
    if k > 0 {
      ReplayEmitsPrefix(m, log, r, arrivals, k - 1);
      var before := ReplayRun(m, log, r, arrivals, k - 1);
      if before.s.phase == Over(Diverged) {
        OverStays(m, log, before, arrivals(k - 1));
      } else {
        StepEmits(m, log, before, arrivals(k - 1));
      }
    }
  }

  lemma OverStays<V, P>(m: Machine<V, P>, log: seq<WakeEvent>, r: Replay<V, P>, arrival: Completion<P>)
    requires r.s.phase.Over?
    ensures ReplayNext(m, log, r, arrival) == r
  {
  }

  lemma FollowOn<V, P(!new)>(m: Machine<V, P>, stress: bool, run: seq<State<V, P>>, choices: seq<Choice<P>>,
                             log: seq<WakeEvent>, r: Replay<V, P>, i: nat, arrival: Completion<P>) returns (j: nat)
    requires HashFaithful(m) && Recording(m, stress, run, choices, log) && FollowsAt(m, run, r, log, i)
    ensures var r' := ReplayNext(m, log, r, arrival);
            || (i <= j <= i + 1 && FollowsAt(m, run, r', log, j))
            || (r' == Diverge(r) && Missing(m, run[i], r, log))
  {
    j := i;
    if i < |choices| {
      RecordedAt(m, stress, run, choices, log, i);
      ReplayStep(m, stress, run[i], choices[i], run[i + 1], r, log, arrival);
      if !InStep(m, run[i], ReplayNext(m, log, r, arrival), log) {
        j := i + 1;
      }
    }
  }
}
