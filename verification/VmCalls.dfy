/** What the VM is told: with a VM that records the calls the driver makes, the record
    of every live run and of every replay agrees with the log - each completion hands
    over its own result, a task is loaded exactly when it was picked, and saved exactly
    when it is preempted (src/runner_driver.rs:711-757, 906-1105). */
module VmCalls {
  import opened Wrappers
  import opened Driver
  import opened ReplayProof
  import opened Fairness
  import opened Conservation

  datatype Call<P> =
    | WokeIo(tid: TaskId, result: Option<P>)
    | WokeTimer(tid: TaskId, target: TaskId, epoch: nat)
    | Ran(tid: TaskId, load: bool)
    | Saved(tid: TaskId)

  /** `calls` reads off the record; every operation adds itself and nothing else. */
  ghost predicate Recorder<V(!new), P(!new)>(m: Machine<V, P>, calls: V -> seq<Call<P>>) {
    && (forall v, t, result :: calls(m.wakeIo(v, t, result)) == calls(v) + [WokeIo(t, result)])
    && (forall v, ready, t, target, epoch :: calls(m.wakeTimer(v, ready, t, target, epoch).0) == calls(v) + [WokeTimer(t, target, epoch)])
    && (forall v, ready, t, load :: calls(m.resume(v, ready, t, load).vm) == calls(v) + [Ran(t, load)])
    && (forall v, t :: calls(m.save(v, t)) == calls(v) + [Saved(t)])
  }

  // ---- Reading the record and the log ----------------------------------------------------

  /** What the task is to be told of a completion. */
  function Told<P>(c: Completion<P>): Call<P> {
    match c.wakeup
    case Done(p) => WokeIo(c.op.tid, Some(p))
    case Aborted => WokeIo(c.op.tid, None)
    case Elapsed(target, epoch) => WokeTimer(c.op.tid, target, epoch)
  }

  /** How a wake-up is logged. */
  function Logged<P>(hash: P -> nat, call: Call<P>): WakeEvent
    requires call.WokeIo? || call.WokeTimer?
  {
    match call
    case WokeIo(t, Some(p)) => Io(t, false, hash(p))
    case WokeIo(t, None) => Io(t, true, 0)
    case WokeTimer(t, target, epoch) => Deadline(t, target, epoch)
  }

  function Wakes<P>(calls: seq<Call<P>>): seq<Call<P>>
    decreases |calls|
  {
    if calls == [] then []
    else
      var last := calls[|calls| - 1];
      Wakes(calls[..|calls| - 1]) + if last.WokeIo? || last.WokeTimer? then [last] else []
  }

  function Deliveries(log: seq<WakeEvent>): seq<WakeEvent>
    decreases |log|
  {
    if log == [] then []
    else Deliveries(log[..|log| - 1]) + if IsDelivery(log[|log| - 1]) then [log[|log| - 1]] else []
  }

  function SavedTasks<P>(calls: seq<Call<P>>): seq<TaskId>
    decreases |calls|
  {
    if calls == [] then []
    else SavedTasks(calls[..|calls| - 1]) + if calls[|calls| - 1].Saved? then [calls[|calls| - 1].tid] else []
  }

  function LoadedTasks<P>(calls: seq<Call<P>>): seq<TaskId>
    decreases |calls|
  {
    if calls == [] then []
    else
      var last := calls[|calls| - 1];
      LoadedTasks(calls[..|calls| - 1]) + if last.Ran? && last.load then [last.tid] else []
  }

  /** The task picked last, at first `first`. */
  function LastPicked(log: seq<WakeEvent>, first: Option<TaskId>): Option<TaskId>
    decreases |log|
  {
    if log == [] then first
    else if log[|log| - 1].Pick? then Some(log[|log| - 1].tid)
    else LastPicked(log[..|log| - 1], first)
  }

  /** The tasks picked last before each preempting rotation. */
  function Preempted(log: seq<WakeEvent>, first: Option<TaskId>): seq<TaskId>
    decreases |log|
  {
    if log == [] then []
    else
      var init := log[..|log| - 1];
      var cur := LastPicked(init, first);
      Preempted(init, first) + if log[|log| - 1] == Rotate(true) && cur.Some? then [cur.value] else []
  }

  function LastRan<P>(calls: seq<Call<P>>, first: Option<TaskId>): Option<TaskId>
    decreases |calls|
  {
    if calls == [] then first
    else if calls[|calls| - 1].Ran? then Some(calls[|calls| - 1].tid)
    else LastRan(calls[..|calls| - 1], first)
  }

  /** A task is resumed without loading only if it was the last to run. */
  ghost predicate LoadsWhenNew<P>(calls: seq<Call<P>>, first: Option<TaskId>)
    decreases |calls|
  {
    calls == [] ||
    var init, last := calls[..|calls| - 1], calls[|calls| - 1];
    LoadsWhenNew(init, first) && (last.Ran? && !last.load ==> LastRan(init, first) == Some(last.tid))
  }

  /** Log and record of a run so far; `told` are the completions handed over, in order. */
  ghost predicate Agreed<P>(hash: P -> nat, log: seq<WakeEvent>, calls: seq<Call<P>>, told: seq<Completion<P>>, first: Option<TaskId>) {
    && |Wakes(calls)| == |Deliveries(log)| == |told|
    && (forall i :: 0 <= i < |told| ==> Wakes(calls)[i] == Told(told[i]))
    && (forall i :: 0 <= i < |told| ==> (Wakes(calls)[i].WokeIo? || Wakes(calls)[i].WokeTimer?) && Deliveries(log)[i] == Logged(hash, Wakes(calls)[i]))
    && SavedTasks(calls) == Preempted(log, first)
    && LoadsWhenNew(calls, first)
  }

  /** Where the driver is between steps: every task picked has been loaded, but for one
      that has not run yet. */
  ghost predicate InHand<P>(log: seq<WakeEvent>, calls: seq<Call<P>>, first: Option<TaskId>, current: Option<TaskId>, load: bool, yielding: bool) {
    && LoadedTasks(calls) + (if load && current.Some? then [current.value] else []) == Picks(log)
    && (current.Some? ==> LastPicked(log, first) == current && (!load ==> LastRan(calls, first) == current))
    && (current.None? || yielding ==> !load)
  }

  // ---- One step -------------------------------------------------------------------------------

  datatype Did<P> = Delivered(c: Completion<P>) | Settled(preempt: bool) | Picked(tid: TaskId) | Continued | Nothing

  /** What a step adds to log and record. */
  ghost predicate Effect<V, P>(calls: V -> seq<Call<P>>, hash: P -> nat, s: State<V, P>, s': State<V, P>, did: Did<P>) {
    && (s'.phase == AtYield ==> s.phase == AtYield || did.Continued?)
    && match did
       case Delivered(c) =>
         && s'.log == s.log + [Logged(hash, Told(c))] && calls(s'.vm) == calls(s.vm) + [Told(c)]
         && s'.current == s.current && s'.needsLoad == s.needsLoad
       case Settled(preempt) =>
         && s.phase == AtYield && s.current.Some? && s'.log == s.log + [Rotate(preempt)]
         && calls(s'.vm) == calls(s.vm) + (if preempt then [Saved(s.current.value)] else [])
         && s'.current == (if preempt then None else s.current) && s'.needsLoad == s.needsLoad
       case Picked(tid) =>
         && s.current.None? && s'.log == s.log + [Pick(tid)] && calls(s'.vm) == calls(s.vm)
         && s'.current == Some(tid) && s'.needsLoad && s'.phase != AtYield
       case Continued =>
         && s.current.Some? && s'.log == s.log && calls(s'.vm) == calls(s.vm) + [Ran(s.current.value, s.needsLoad)]
         && (s'.current == s.current || s'.current.None?) && !s'.needsLoad
       case Nothing =>
         s'.log == s.log && calls(s'.vm) == calls(s.vm) && s'.current == s.current && s'.needsLoad == s.needsLoad
  }

  lemma DeliverTells<V(!new), P(!new)>(m: Machine<V, P>, calls: V -> seq<Call<P>>, s: State<V, P>, s1: State<V, P>, c: Completion<P>)
    requires Recorder(m, calls) && s1 == s.(inflight := s1.inflight, held := s1.held, phase := s1.phase)
    requires s1.phase == AtYield ==> s.phase == AtYield
    ensures Effect(calls, m.hash, s, Deliver(m, s1, c), Delivered(c))
  {
  }

  lemma SettleTells<V(!new), P(!new)>(m: Machine<V, P>, calls: V -> seq<Call<P>>, s: State<V, P>, preempt: bool)
    requires Recorder(m, calls) && s.current.Some? && s.phase == AtYield
    ensures Effect(calls, m.hash, s, Settle(m, s, preempt), Settled(preempt))
  {
    assert calls(s.vm) + [] == calls(s.vm);
  }

  lemma ResumeTells<V(!new), P(!new)>(m: Machine<V, P>, calls: V -> seq<Call<P>>, s: State<V, P>)
    requires Recorder(m, calls) && s.current.Some?
    ensures Effect(calls, m.hash, s, Resume(m, s), Continued)
  {
  }

  lemma PickTells<V, P>(calls: V -> seq<Call<P>>, hash: P -> nat, s: State<V, P>, i: nat)
    requires i < |s.ready| && s.current.None? && s.phase != AtYield
    ensures Effect(calls, hash, s, PickAt(s, i), Picked(s.ready[i]))
  {
  }

  lemma LiveTells<V(!new), P(!new)>(m: Machine<V, P>, calls: V -> seq<Call<P>>, stress: bool, s: State<V, P>, choice: Choice<P>, s': State<V, P>)
    returns (did: Did<P>)
    requires Recorder(m, calls) && LiveNext(m, stress, s, choice) == Some(s')
    ensures Effect(calls, m.hash, s, s', did)
    ensures did.Delivered? ==> choice == Complete(did.c)
    ensures did.Settled? ==> did.preempt == (stress || s.ready != [])
  {
    hide Recorder, Deliver, Resume, Settle, PickAt;
    if choice.Complete? && (s.phase == AtYield || (s.phase == Top && s.current.None? && s.ready == [] && !m.exiting(s.vm) && s.inflight != multiset{})) {
      DeliverTells(m, calls, s, s.(inflight := s.inflight - multiset{choice.c.op}), choice.c);
      did := Delivered(choice.c);
    } else if s.phase == AtYield {
      SettleTells(m, calls, s, stress || s.ready != []);
      did := Settled(stress || s.ready != []);
    } else if !m.exiting(s.vm) && s.current.Some? {
      ResumeTells(m, calls, s);
      did := Continued;
    } else if !m.exiting(s.vm) && s.ready != [] {
      PickTells(calls, m.hash, s, choice.index);
      did := Picked(s.ready[choice.index]);
    } else {
      did := Nothing;
    }
  }

  lemma ReplayTells<V(!new), P(!new)>(m: Machine<V, P>, calls: V -> seq<Call<P>>, log: seq<WakeEvent>, r: Replay<V, P>, arrival: Completion<P>)
    returns (did: Did<P>)
    requires Recorder(m, calls)
    ensures var r' := ReplayNext(m, log, r, arrival);
            && Effect(calls, m.hash, r.s, r'.s, did)
            && (did.Delivered? ==> did.c in r.s.held)
            && (forall c <- r'.s.held :: c in r.s.held || c == arrival)
  {
    hide Recorder, Deliver, Resume, Settle, PickAt, IndexIn, AwaitDelivery, Effect;
    var s := r.s;
    var next := if r.pos < |log| then Some(log[r.pos]) else None;
    if s.phase != Top && !s.phase.Over? && next.Some? && IsDelivery(next.value) {
      did := AwaitTells(m, calls, r, next.value, arrival);
    } else if s.phase == AtYield && next.Some? && next.value.Rotate? && s.current.Some? {
      SettleTells(m, calls, s, next.value.preempt);
      SettleHolds(m, s, next.value.preempt);
      did := Settled(next.value.preempt);
    } else if s.phase == Top && !m.exiting(s.vm) && s.current.Some? {
      ResumeTells(m, calls, s);
      ResumeHolds(m, s);
      did := Continued;
    } else if s.phase == Top && !m.exiting(s.vm) && s.ready != [] && next.Some? && next.value.Pick?
              && IndexIn(s.ready, next.value.tid) < |s.ready| {
      PickTells(calls, m.hash, s, IndexIn(s.ready, next.value.tid));
      PickHolds(s, IndexIn(s.ready, next.value.tid));
      did := Picked(next.value.tid);
    } else {
      did := Nothing;
      NothingTold(calls, m.hash, s, ReplayNext(m, log, r, arrival).s);
    }
  }

  lemma NothingTold<V, P>(calls: V -> seq<Call<P>>, hash: P -> nat, s: State<V, P>, s': State<V, P>)
    requires s' == s.(phase := s'.phase) && (s'.phase == AtYield ==> s.phase == AtYield)
    ensures Effect(calls, hash, s, s', Nothing)
  {
  }

  lemma SettleHolds<V, P>(m: Machine<V, P>, s: State<V, P>, preempt: bool)
    requires s.current.Some?
    ensures Settle(m, s, preempt).held == s.held
  {
  }

  lemma ResumeHolds<V, P>(m: Machine<V, P>, s: State<V, P>)
    requires s.current.Some?
    ensures Resume(m, s).held == s.held
  {
  }

  lemma PickHolds<V, P>(s: State<V, P>, i: nat)
    requires i < |s.ready|
    ensures PickAt(s, i).held == s.held
  {
  }

  lemma AwaitTells<V(!new), P(!new)>(m: Machine<V, P>, calls: V -> seq<Call<P>>, r: Replay<V, P>, want: WakeEvent, arrival: Completion<P>)
    returns (did: Did<P>)
    requires Recorder(m, calls) && r.s.phase != Top
    ensures var r' := AwaitDelivery(m, r, want, arrival);
            && Effect(calls, m.hash, r.s, r'.s, did)
            && (did.Delivered? ==> did.c in r.s.held)
            && (forall c <- r'.s.held :: c in r.s.held || c == arrival)
  {
    hide Recorder, Deliver, HeldIndex, Effect, EventOf;
    var s := r.s;
    var i := HeldIndex(m, s.held, want);
    if i < |s.held| {
      var s1 := s.(held := s.held[..i] + s.held[i + 1..], phase := if s.phase.Idle? then Idle(true) else s.phase);
      DeliverTells(m, calls, s, s1, s.held[i]);
      DeliverHolds(m, s1, s.held[i]);
      did := Delivered(s.held[i]);
    } else {
      did := Nothing;
      StillNothing(calls, m.hash, s, AwaitDelivery(m, r, want, arrival).s);
    }
  }

  lemma DeliverHolds<V, P>(m: Machine<V, P>, s: State<V, P>, c: Completion<P>)
    ensures Deliver(m, s, c).held == s.held
  {
  }

  lemma StillNothing<V, P>(calls: V -> seq<Call<P>>, hash: P -> nat, s: State<V, P>, s': State<V, P>)
    requires s' == s.(inflight := s'.inflight, held := s'.held, phase := s'.phase) && (s'.phase == AtYield ==> s.phase == AtYield)
    ensures Effect(calls, hash, s, s', Nothing)
  {
  }

  // ---- Whole runs ----------------------------------------------------------------------------------

  lemma LogGrows(log: seq<WakeEvent>, e: WakeEvent, first: Option<TaskId>)
    ensures Deliveries(log + [e]) == Deliveries(log) + if IsDelivery(e) then [e] else []
    ensures Picks(log + [e]) == Picks(log) + if e.Pick? then [e.tid] else []
    ensures LastPicked(log + [e], first) == if e.Pick? then Some(e.tid) else LastPicked(log, first)
    ensures var cur := LastPicked(log, first);
            Preempted(log + [e], first) == Preempted(log, first) + if e == Rotate(true) && cur.Some? then [cur.value] else []
  {
    assert (log + [e])[..|log|] == log;
  }

  lemma CallsGrow<P>(calls: seq<Call<P>>, call: Call<P>, first: Option<TaskId>)
    ensures Wakes(calls + [call]) == Wakes(calls) + if call.WokeIo? || call.WokeTimer? then [call] else []
    ensures SavedTasks(calls + [call]) == SavedTasks(calls) + if call.Saved? then [call.tid] else []
    ensures LoadedTasks(calls + [call]) == LoadedTasks(calls) + if call.Ran? && call.load then [call.tid] else []
    ensures LastRan(calls + [call], first) == if call.Ran? then Some(call.tid) else LastRan(calls, first)
    ensures LoadsWhenNew(calls + [call], first) <==>
              LoadsWhenNew(calls, first) && (call.Ran? && !call.load ==> LastRan(calls, first) == Some(call.tid))
  {
    assert (calls + [call])[..|calls|] == calls;
  }

  /** One step's events and calls, appended to log and record of the run so far. */
  function EventsOf<P>(hash: P -> nat, did: Did<P>): seq<WakeEvent> {
    match did
    case Delivered(c) => [Logged(hash, Told(c))]
    case Settled(preempt) => [Rotate(preempt)]
    case Picked(tid) => [Pick(tid)]
    case _ => []
  }

  function CallsOf<P>(did: Did<P>, current: Option<TaskId>, load: bool): seq<Call<P>> {
    match did
    case Delivered(c) => [Told(c)]
    case Settled(preempt) => if preempt && current.Some? then [Saved(current.value)] else []
    case Continued => if current.Some? then [Ran(current.value, load)] else []
    case _ => []
  }

  lemma DeliveredAgrees<P>(hash: P -> nat, log: seq<WakeEvent>, cs: seq<Call<P>>, told: seq<Completion<P>>, first: Option<TaskId>, c: Completion<P>)
    requires Agreed(hash, log, cs, told, first)
    ensures Agreed(hash, log + [Logged(hash, Told(c))], cs + [Told(c)], told + [c], first)
  {
    hide Wakes, Deliveries, SavedTasks, Preempted, LoadsWhenNew, LastRan, LastPicked, Picks, LoadedTasks;
    LogGrows(log, Logged(hash, Told(c)), first);
    CallsGrow(cs, Told(c), first);
  }

  lemma OtherAgrees<P>(hash: P -> nat, log: seq<WakeEvent>, cs: seq<Call<P>>, told: seq<Completion<P>>, first: Option<TaskId>,
                       did: Did<P>, current: Option<TaskId>, load: bool, yielding: bool)
    requires Agreed(hash, log, cs, told, first) && InHand(log, cs, first, current, load, yielding) && !did.Delivered?
    requires did.Settled? ==> current.Some?
    ensures Agreed(hash, log + EventsOf(hash, did), cs + CallsOf(did, current, load), told, first)
  {
    hide Wakes, Deliveries, SavedTasks, Preempted, LoadsWhenNew, LastRan, LastPicked, Picks, LoadedTasks;
    assert log + [] == log && cs + [] == cs;
    match did {
      case Settled(preempt) =>
        LogGrows(log, Rotate(preempt), first);
        if preempt {
          CallsGrow(cs, Saved(current.value), first);
        }
      case Picked(tid) => LogGrows(log, Pick(tid), first);
      case Continued =>
        if current.Some? {
          CallsGrow(cs, Ran(current.value, load), first);
        }
      case Nothing =>
    }
  }

  lemma StaysInHand<V, P>(calls: V -> seq<Call<P>>, hash: P -> nat, s: State<V, P>, s': State<V, P>, did: Did<P>,
                          log: seq<WakeEvent>, cs: seq<Call<P>>, first: Option<TaskId>)
    requires Effect(calls, hash, s, s', did) && InHand(log, cs, first, s.current, s.needsLoad, s.phase == AtYield)
    ensures InHand(log + EventsOf(hash, did), cs + CallsOf(did, s.current, s.needsLoad), first, s'.current, s'.needsLoad, s'.phase == AtYield)
  {
    hide LastRan, LastPicked, Picks, LoadedTasks, Wakes, Deliveries, SavedTasks, Preempted, LoadsWhenNew;
    assert log + [] == log && cs + [] == cs;
    match did {
      case Delivered(c) =>
        LogGrows(log, Logged(hash, Told(c)), first);
        CallsGrow(cs, Told(c), first);
      case Settled(preempt) =>
        LogGrows(log, Rotate(preempt), first);
        if preempt {
          CallsGrow(cs, Saved(s.current.value), first);
        }
      case Picked(tid) => LogGrows(log, Pick(tid), first);
      case Continued => CallsGrow(cs, Ran(s.current.value, s.needsLoad), first);
      case Nothing =>
    }
  }

  /** Log and record since `s0` agree, with these completions. */
  ghost predicate AgreedSince<V, P>(calls: V -> seq<Call<P>>, hash: P -> nat, s0: State<V, P>, s: State<V, P>, told: seq<Completion<P>>) {
    && s0.log <= s.log && calls(s0.vm) <= calls(s.vm)
    && var log, cs := s.log[|s0.log|..], calls(s.vm)[|calls(s0.vm)|..];
       && Agreed(hash, log, cs, told, s0.current)
       && InHand(log, cs, s0.current, s.current, s.needsLoad, s.phase == AtYield)
  }

  lemma StepAgrees<V, P>(calls: V -> seq<Call<P>>, hash: P -> nat, s0: State<V, P>, s: State<V, P>, s': State<V, P>, did: Did<P>, told: seq<Completion<P>>)
    requires AgreedSince(calls, hash, s0, s, told) && Effect(calls, hash, s, s', did)
    ensures AgreedSince(calls, hash, s0, s', if did.Delivered? then told + [did.c] else told)
  {
    hide Agreed, InHand;
    var log, cs := s.log[|s0.log|..], calls(s.vm)[|calls(s0.vm)|..];
    StepGrows(calls, hash, s, s', did);
    assert s'.log[|s0.log|..] == log + EventsOf(hash, did);
    assert calls(s'.vm)[|calls(s0.vm)|..] == cs + CallsOf(did, s.current, s.needsLoad);
    StaysInHand(calls, hash, s, s', did, log, cs, s0.current);
    if did.Delivered? {
      DeliveredAgrees(hash, log, cs, told, s0.current, did.c);
    } else {
      OtherAgrees(hash, log, cs, told, s0.current, did, s.current, s.needsLoad, s.phase == AtYield);
    }
  }

  lemma StepGrows<V, P>(calls: V -> seq<Call<P>>, hash: P -> nat, s: State<V, P>, s': State<V, P>, did: Did<P>)
    requires Effect(calls, hash, s, s', did)
    ensures s'.log == s.log + EventsOf(hash, did) && calls(s'.vm) == calls(s.vm) + CallsOf(did, s.current, s.needsLoad)
    ensures did.Settled? ==> s.current.Some?
  {
    assert s.log + [] == s.log && calls(s.vm) + [] == calls(s.vm);
  }

  /** A run starts outside a yield boundary, with nothing to load. */
  predicate Starts<V, P>(s: State<V, P>) {
    s.phase == Top && !s.needsLoad
  }

  lemma StartAgrees<V, P>(calls: V -> seq<Call<P>>, hash: P -> nat, s: State<V, P>)
    requires Starts(s)
    ensures AgreedSince(calls, hash, s, s, [])
  {
    assert s.log[|s.log|..] == [] && calls(s.vm)[|calls(s.vm)|..] == [];
  }

  /** Over every live run: log and record agree, and the completions told are those the
      outside world brought, in order. */
  lemma {:induction false} LiveCallsAgree<V(!new), P(!new)>(m: Machine<V, P>, calls: V -> seq<Call<P>>, stress: bool,
                                                            run: seq<State<V, P>>, choices: seq<Choice<P>>, n: nat)
    returns (told: seq<Completion<P>>, at: seq<nat>)
    requires Recorder(m, calls) && LiveSteps(m, stress, run, choices) && n <= |choices| && Starts(run[0])
    ensures AgreedSince(calls, m.hash, run[0], run[n], told)
    ensures |at| == |told| && (forall i, j :: 0 <= i < j < |at| ==> at[i] < at[j])
    ensures forall i :: 0 <= i < |at| ==> at[i] < n && choices[at[i]] == Complete(told[i])
    decreases n
  {
    hide Recorder, Effect, AgreedSince, LiveNext;
    if n == 0 {
      told, at := [], [];
      StartAgrees(calls, m.hash, run[0]);
    } else {
      told, at := LiveCallsAgree(m, calls, stress, run, choices, n - 1);
      var did := LiveTells(m, calls, stress, run[n - 1], choices[n - 1], run[n]);
      StepAgrees(calls, m.hash, run[0], run[n - 1], run[n], did, told);
      if did.Delivered? {
        told, at := told + [did.c], at + [n - 1];
      }
    }
  }

  /** Over every replay, of any log: log and record agree, and what is told has arrived. */
  lemma {:induction false} ReplayCallsAgree<V(!new), P(!new)>(m: Machine<V, P>, calls: V -> seq<Call<P>>, log: seq<WakeEvent>, r: Replay<V, P>,
                                                              arrivals: nat -> Completion<P>, n: nat)
    returns (told: seq<Completion<P>>)
    requires Recorder(m, calls) && Starts(r.s) && r.s.held == []
    ensures AgreedSince(calls, m.hash, r.s, ReplayRun(m, log, r, arrivals, n).s, told)
    ensures forall c :: c in told || c in ReplayRun(m, log, r, arrivals, n).s.held ==> exists i: nat :: i < n && arrivals(i) == c
    decreases n
  {
    hide Recorder, Effect, AgreedSince, ReplayNext;
    if n == 0 {
      told := [];
      StartAgrees(calls, m.hash, r.s);
    } else {
      told := ReplayCallsAgree(m, calls, log, r, arrivals, n - 1);
      var before := ReplayRun(m, log, r, arrivals, n - 1);
      var did := ReplayTells(m, calls, log, before, arrivals(n - 1));
      StepAgrees(calls, m.hash, r.s, before.s, ReplayNext(m, log, before, arrivals(n - 1)).s, did, told);
      if did.Delivered? {
        told := told + [did.c];
      }
      var after := ReplayRun(m, log, r, arrivals, n);
      forall c | c in told || c in after.s.held ensures exists i: nat :: i < n && arrivals(i) == c {
        if c == arrivals(n - 1) {
          assert n - 1 < n;
        } else {
          assert c in told[..if did.Delivered? then |told| - 1 else |told|] || c in before.s.held;
          var i: nat :| i < n - 1 && arrivals(i) == c;
        }
      }
    }
  }

  // ---- Rotations and ends ---------------------------------------------------------------------------

  /** A rotation preempts exactly when anything else is ready, or under stress. */
  lemma RotationsMean<V(!new), P(!new)>(m: Machine<V, P>, stress: bool, run: seq<State<V, P>>, choices: seq<Choice<P>>, i: nat, preempt: bool)
    requires LiveSteps(m, stress, run, choices) && i < |choices| && run[i + 1].log == run[i].log + [Rotate(preempt)]
    ensures preempt <==> stress || run[i].ready != []
  {
    var s, s' := run[i], run[i + 1];
    assert LiveNext(m, stress, s, choices[i]) == Some(s');
    assert s'.log[|s.log|] == Rotate(preempt);
  }

  /** How a live run ends: by the guest's exit; with nothing to run or wait for, as a
      deadlock exactly if the main task is parked; or as the last resume ended. */
  lemma EndsMean<V(!new), P(!new)>(m: Machine<V, P>, stress: bool, run: seq<State<V, P>>, choices: seq<Choice<P>>, i: nat)
    requires LiveSteps(m, stress, run, choices) && i < |choices| && run[i + 1].phase.Over?
    ensures var s, end := run[i], run[i + 1].phase.end;
            && (end == Exited <==> m.exiting(s.vm))
            && (end == Deadlock || end == Drained <==> !m.exiting(s.vm) && s.current.None?)
            && (end == Deadlock || end == Drained ==> s.ready == [] && s.inflight == multiset{} && (end == Deadlock <==> m.mainParked(s.vm)))
            && (end == MainFinished || end == TaskFailed ==> s.current.Some?)
            && (end == MainFinished ==> m.resume(s.vm, s.ready, s.current.value, s.needsLoad).step.Finished?)
            && (end == TaskFailed ==> m.resume(s.vm, s.ready, s.current.value, s.needsLoad).step.Failed?)
            && end != Diverged && end != LogSpent
  {
    var s := run[i];
    assert LiveNext(m, stress, s, choices[i]) == Some(run[i + 1]);
  }

  /** What a live step does with the running task and the queue: the queue is the VM's
      after a resume and after a timer, and grows by the woken task after I/O; a task
      that parked is off, one that yielded is at its yield boundary. */
  lemma StepsMean<V(!new), P(!new)>(m: Machine<V, P>, stress: bool, run: seq<State<V, P>>, choices: seq<Choice<P>>, i: nat)
    requires LiveSteps(m, stress, run, choices) && i < |choices|
    ensures var s, s' := run[i], run[i + 1];
            && (s.phase == Top && !m.exiting(s.vm) && s.current.Some? ==>
                  var r := m.resume(s.vm, s.ready, s.current.value, s.needsLoad);
                  && s'.ready == r.ready
                  && (s'.current == if r.step.ParkedIo? || r.step.ParkedTimed? || r.step.Parked? then None else s.current)
                  && (s'.phase == AtYield <==> r.step.Yielded?))
            && (|s'.log| > |s.log| && IsDelivery(s'.log[|s.log|]) ==>
                  choices[i].Complete? &&
                  match choices[i].c.wakeup
                  case Elapsed(target, epoch) => s'.ready == m.wakeTimer(s.vm, s.ready, choices[i].c.op.tid, target, epoch).1
                  case _ => s'.ready == s.ready + [choices[i].c.op.tid])
  {
    var s, s' := run[i], run[i + 1];
    assert LiveNext(m, stress, s, choices[i]) == Some(s');
  }
}
