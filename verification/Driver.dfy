/** The cooperative scheduler loop and its record/replay log
    (src/runner_driver.rs:596-1176, src/replay.rs).  The VM is a deterministic
    machine of which the driver sees only the ready queue and how each resume of
    a task ends; the outside world chooses which background operation completes
    next and with what result. */
module Driver {
  import opened Wrappers

  type TaskId = nat

  datatype WakeEvent =
    | Pick(tid: TaskId)
    | Rotate(preempt: bool)
    | Io(tid: TaskId, aborted: bool, hash: nat)
    | Deadline(tid: TaskId, target: TaskId, epoch: nat)

  predicate IsDelivery(e: WakeEvent) {
    e.Io? || e.Deadline?
  }

  /** What a finished background future hands to its task. */
  datatype Wakeup<P> = Done(payload: P) | Aborted | Elapsed(target: TaskId, epoch: nat)

  /** A background future in flight. */
  datatype Op = IoOp(tid: TaskId) | TimerOp(tid: TaskId, target: TaskId, epoch: nat)

  datatype Completion<P> = Completion(op: Op, wakeup: Wakeup<P>)

  predicate Fits<P>(c: Completion<P>) {
    if c.op.IoOp? then !c.wakeup.Elapsed? else c.wakeup == Elapsed(c.op.target, c.op.epoch)
  }

  datatype RunStep =
    | Yielded
    | Running
    | ParkedIo
    | ParkedTimed(target: TaskId, epoch: nat)
    | Parked
    | Finished
    | Failed

  datatype Resumed<V> = Resumed(vm: V, ready: seq<TaskId>, step: RunStep)

  /** The VM.  A resume may append to the ready queue or change it; waking a
      joiner at its deadline may or may not enqueue it. */
  datatype Machine<!V, !P> = Machine(
    resume: (V, seq<TaskId>, TaskId, bool) -> Resumed<V>,
    wakeIo: (V, TaskId, Option<P>) -> V,
    wakeTimer: (V, seq<TaskId>, TaskId, TaskId, nat) -> (V, seq<TaskId>),
    save: (V, TaskId) -> V,
    exiting: V -> bool,
    mainParked: V -> bool,
    hash: P -> nat)

  function EventOf<V, P>(m: Machine<V, P>, c: Completion<P>): WakeEvent {
    match c.wakeup
    case Done(p) => Io(c.op.tid, false, m.hash(p))
    case Aborted => Io(c.op.tid, true, 0)
    case Elapsed(target, epoch) => Deadline(c.op.tid, target, epoch)
  }

  function OpOf(e: WakeEvent): Op
    requires IsDelivery(e)
  {
    if e.Io? then IoOp(e.tid) else TimerOp(e.tid, e.target, e.epoch)
  }

  datatype End = Exited | Deadlock | Drained | MainFinished | TaskFailed | Diverged | LogSpent

  datatype Phase = Top | Idle(delivered: bool) | AtYield | Over(end: End)

  datatype State<V, P> = State(
    vm: V,
    ready: seq<TaskId>,
    current: Option<TaskId>,
    needsLoad: bool,
    inflight: multiset<Op>,
    held: seq<Completion<P>>,
    log: seq<WakeEvent>,
    phase: Phase)

  // ---- Steps that recording and replaying share --------------------------------

  function Deliver<V, P>(m: Machine<V, P>, s: State<V, P>, c: Completion<P>): State<V, P> {
    var s1 := s.(log := s.log + [EventOf(m, c)]);
    match c.wakeup
    case Done(p) => s1.(vm := m.wakeIo(s.vm, c.op.tid, Some(p)), ready := s.ready + [c.op.tid])
    case Aborted => s1.(vm := m.wakeIo(s.vm, c.op.tid, None), ready := s.ready + [c.op.tid])
    case Elapsed(target, epoch) =>
      var (vm, ready) := m.wakeTimer(s.vm, s.ready, c.op.tid, target, epoch);
      s1.(vm := vm, ready := ready)
  }

  function Resume<V, P>(m: Machine<V, P>, s: State<V, P>): State<V, P>
    requires s.current.Some?
  {
    var cur := s.current.value;
    var r := m.resume(s.vm, s.ready, cur, s.needsLoad);
    EndStep(s.(vm := r.vm, ready := r.ready, needsLoad := false), cur, r.step)
  }

  /** What the driver does with the way a resume ended. */
  function EndStep<V, P>(s: State<V, P>, cur: TaskId, step: RunStep): State<V, P> {
    match step
    case Yielded => s.(phase := AtYield)
    case Running => s
    case ParkedIo => s.(current := None, inflight := s.inflight + multiset{IoOp(cur)})
    case ParkedTimed(target, epoch) => s.(current := None, inflight := s.inflight + multiset{TimerOp(cur, target, epoch)})
    case Parked => s.(current := None)
    case Finished => s.(phase := Over(MainFinished))
    case Failed => s.(phase := Over(TaskFailed))
  }

  /** The yield boundary ends: keep running, or requeue the task at the back. */
  function Settle<V, P>(m: Machine<V, P>, s: State<V, P>, preempt: bool): State<V, P>
    requires s.current.Some?
  {
    var s1 := s.(log := s.log + [Rotate(preempt)], phase := Top);
    if preempt then
      var cur := s.current.value;
      s1.(vm := m.save(s.vm, cur), ready := s.ready + [cur], current := None)
    else s1
  }

  function PickAt<V, P>(s: State<V, P>, i: nat): State<V, P>
    requires i < |s.ready|
  {
    s.(ready := s.ready[..i] + s.ready[i + 1..], current := Some(s.ready[i]), needsLoad := true,
       log := s.log + [Pick(s.ready[i])])
  }

  function NothingLeft<V, P>(m: Machine<V, P>, s: State<V, P>): State<V, P> {
    s.(phase := Over(if m.mainParked(s.vm) then Deadlock else Drained))
  }

  // ---- The live loop ---------------------------------------------------------------

  /** What the outside world (or the stress generator) decides at one step. */
  datatype Choice<P> = Choose(index: nat) | Complete(c: Completion<P>) | Go

  /** One step of a live run, or None when the choice does not apply. */
  function LiveNext<V, P>(m: Machine<V, P>, stress: bool, s: State<V, P>, choice: Choice<P>): Option<State<V, P>> {
    match s.phase
    case Over(_) => None
    case Idle(_) => None
    case AtYield =>
      if s.current.None? then None
      else if choice.Complete? then
        if Fits(choice.c) && choice.c.op in s.inflight then
          Some(Deliver(m, s.(inflight := s.inflight - multiset{choice.c.op}), choice.c))
        else None
      else Some(Settle(m, s, stress || s.ready != []))
    case Top =>
      if m.exiting(s.vm) then Some(s.(phase := Over(Exited)))
      else if s.current.Some? then Some(Resume(m, s))
      else if s.ready != [] then
        if choice.Choose? && choice.index < |s.ready| && (stress || choice.index == 0) then
          Some(PickAt(s, choice.index))
        else None
      else if s.inflight == multiset{} then Some(NothingLeft(m, s))
      else if choice.Complete? && Fits(choice.c) && choice.c.op in s.inflight then
        Some(Deliver(m, s.(inflight := s.inflight - multiset{choice.c.op}), choice.c))
      else None
  }

  // ---- The replaying loop -------------------------------------------------------------

  datatype Replay<V, P> = Replay(s: State<V, P>, pos: nat)

  function Diverge<V, P>(r: Replay<V, P>): Replay<V, P> {
    r.(s := r.s.(phase := Over(Diverged)))
  }

  function HeldIndex<V, P>(m: Machine<V, P>, held: seq<Completion<P>>, want: WakeEvent): (i: nat)
    ensures i <= |held|
    ensures i < |held| ==> EventOf(m, held[i]) == want
    ensures forall j :: 0 <= j < i ==> EventOf(m, held[j]) != want
    decreases |held|
  {
    if held == [] then 0
    else if EventOf(m, held[0]) == want then 0
    else 1 + HeldIndex(m, held[1..], want)
  }

  /** Deliver the completion the log wants, once it has arrived; hold back every
      other one that arrives first. */
  function AwaitDelivery<V, P>(m: Machine<V, P>, r: Replay<V, P>, want: WakeEvent, arrival: Completion<P>): Replay<V, P> {
    var s := r.s;
    var i := HeldIndex(m, s.held, want);
    if i < |s.held| then
      var s1 := s.(held := s.held[..i] + s.held[i + 1..], phase := if s.phase.Idle? then Idle(true) else s.phase);
      Replay(Deliver(m, s1, s.held[i]), r.pos + 1)
    else if s.inflight == multiset{} then Diverge(r)
    else if Fits(arrival) && arrival.op in s.inflight then
      r.(s := s.(inflight := s.inflight - multiset{arrival.op}, held := s.held + [arrival]))
    else r
  }

  function IndexIn(ready: seq<TaskId>, tid: TaskId): (i: nat)
    ensures i <= |ready| && (i < |ready| ==> ready[i] == tid)
    ensures forall j :: 0 <= j < i ==> ready[j] != tid
    decreases |ready|
  {
    if ready == [] then 0 else if ready[0] == tid then 0 else 1 + IndexIn(ready[1..], tid)
  }

  /** One step of a run that replays `log`; `arrival` is what the next background
      future to finish would bring. */
  function ReplayNext<V, P>(m: Machine<V, P>, log: seq<WakeEvent>, r: Replay<V, P>, arrival: Completion<P>): Replay<V, P> {
    var s := r.s;
    var next := if r.pos < |log| then Some(log[r.pos]) else None;
    match s.phase
    case Over(_) => r
    case AtYield =>
      if next.Some? && IsDelivery(next.value) then AwaitDelivery(m, r, next.value, arrival)
      else if next.Some? && next.value.Rotate? && s.current.Some? then
        Replay(Settle(m, s, next.value.preempt), r.pos + 1)
      else Diverge(r)
    case Idle(delivered) =>
      if next.Some? && IsDelivery(next.value) then AwaitDelivery(m, r, next.value, arrival)
      else if delivered then r.(s := s.(phase := Top))
      else if next.Some? then Diverge(r)
      else r.(s := s.(phase := Over(LogSpent)))
    case Top =>
      if m.exiting(s.vm) then r.(s := s.(phase := Over(Exited)))
      else if s.current.Some? then r.(s := Resume(m, s))
      else if s.ready != [] then
        if next.None? || !next.value.Pick? then Diverge(r)
        else if IndexIn(s.ready, next.value.tid) < |s.ready| then
          Replay(PickAt(s, IndexIn(s.ready, next.value.tid)), r.pos + 1)
        else Diverge(r.(pos := r.pos + 1))
      else if s.inflight == multiset{} && s.held == [] then r.(s := NothingLeft(m, s))
      else r.(s := s.(phase := Idle(false)))
  }
}
