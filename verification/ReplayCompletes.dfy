/** A replay whose operations bring the recorded results never diverges and runs
    to the recorded end, in whatever order they complete. */
module ReplayCompletes {
  import opened Wrappers
  import opened Driver
  import opened ReplayProof

  /** The next delivery the log holds for `op` at or after `pos`. */
  function NextFor(log: seq<WakeEvent>, pos: nat, op: Op): Option<WakeEvent>
    decreases |log| - pos
  {
    if pos >= |log| then None
    else if IsDelivery(log[pos]) && OpOf(log[pos]) == op then Some(log[pos])
    else NextFor(log, pos + 1, op)
  }

  /** The completion brings what was recorded next for its operation, if the
      recording delivered it at all. */
  predicate Promised<V, P>(m: Machine<V, P>, c: Completion<P>, log: seq<WakeEvent>, pos: nat) {
    NextFor(log, pos, c.op).Some? ==> EventOf(m, c) == NextFor(log, pos, c.op).value
  }

  predicate HeldPromised<V, P>(m: Machine<V, P>, r: Replay<V, P>, log: seq<WakeEvent>) {
    forall i :: 0 <= i < |r.s.held| ==> Promised(m, r.s.held[i], log, r.pos)
  }

  /** What arrives is in flight and brings the recorded result. */
  ghost predicate GoodArrival<V, P>(m: Machine<V, P>, r: Replay<V, P>, log: seq<WakeEvent>, arrival: Completion<P>) {
    && Promised(m, arrival, log, r.pos)
    && (r.s.inflight != multiset{} ==> Fits(arrival) && arrival.op in r.s.inflight)
  }

  /** A task waits for one I/O result at a time, and park epochs are unique. */
  ghost predicate SingleOps<V, P>(run: seq<State<V, P>>) {
    forall i, op :: 0 <= i < |run| ==> run[i].inflight[op] <= 1
  }

  lemma NotMissing<V, P>(m: Machine<V, P>, l: State<V, P>, r: Replay<V, P>, log: seq<WakeEvent>)
    requires InStep(m, l, r, log) && HeldPromised(m, r, log)
    ensures !Missing(m, l, r, log)
  {
    if r.pos < |log| && IsDelivery(log[r.pos]) && r.s.inflight == multiset{} && OpOf(log[r.pos]) in l.inflight {
      HeldHasIt(m, r, log);
    }
  }

  lemma HeldHasIt<V, P>(m: Machine<V, P>, r: Replay<V, P>, log: seq<WakeEvent>)
    requires HeldPromised(m, r, log)
    requires r.pos < |log| && IsDelivery(log[r.pos]) && OpOf(log[r.pos]) in multiset(HeldOps(r.s.held))
    ensures HeldIndex(m, r.s.held, log[r.pos]) < |r.s.held|
  {
    var i :| 0 <= i < |HeldOps(r.s.held)| && HeldOps(r.s.held)[i] == OpOf(log[r.pos]);
    assert Promised(m, r.s.held[i], log, r.pos);
    assert EventOf(m, r.s.held[i]) == log[r.pos];
  }

  lemma CountTwo(ops: seq<Op>, a: nat, b: nat)
    requires a < b < |ops| && ops[a] == ops[b]
    ensures multiset(ops)[ops[a]] >= 2
  {
    assert ops == ops[..b] + ops[b..];
    assert ops[a] in ops[..b] && ops[b] in ops[b..];
  }

  lemma OtherOps<P>(held: seq<Completion<P>>, i: nat, j: nat)
    requires i < |held| && j < |held| && i != j && multiset(HeldOps(held))[held[i].op] <= 1
    ensures held[j].op != held[i].op
  {
    if held[j].op == held[i].op {
      CountTwo(HeldOps(held), if i < j then i else j, if i < j then j else i);
    }
  }

  lemma TakeKeepsPromises<V, P>(m: Machine<V, P>, r: Replay<V, P>, log: seq<WakeEvent>, i: nat)
    requires HeldPromised(m, r, log) && i < |r.s.held| && Fits(r.s.held[i])
    requires r.pos < |log| && EventOf(m, r.s.held[i]) == log[r.pos]
    requires multiset(HeldOps(r.s.held))[r.s.held[i].op] <= 1
    ensures var held := r.s.held[..i] + r.s.held[i + 1..];
            forall j :: 0 <= j < |held| ==> Promised(m, held[j], log, r.pos + 1)
  {
    var held := r.s.held[..i] + r.s.held[i + 1..];
    forall j | 0 <= j < |held| ensures Promised(m, held[j], log, r.pos + 1) {
      var k := if j < i then j else j + 1;
      OtherOps(r.s.held, i, k);
      assert Promised(m, r.s.held[k], log, r.pos);
    }
  }

  lemma AwaitKeepsPromises<V, P>(m: Machine<V, P>, l: State<V, P>, r: Replay<V, P>, log: seq<WakeEvent>, arrival: Completion<P>)
    requires InStep(m, l, r, log) && HeldPromised(m, r, log) && Promised(m, arrival, log, r.pos)
    requires r.pos < |log| && forall op :: l.inflight[op] <= 1
    ensures HeldPromised(m, AwaitDelivery(m, r, log[r.pos], arrival), log)
  {
    var i := HeldIndex(m, r.s.held, log[r.pos]);
    if i < |r.s.held| {
      assert multiset(HeldOps(r.s.held))[r.s.held[i].op] <= l.inflight[r.s.held[i].op];
      TakeKeepsPromises(m, r, log, i);
      DeliverKeepsHeld(m, r, log[r.pos], arrival);
    }
  }

  lemma DeliverKeepsHeld<V, P>(m: Machine<V, P>, r: Replay<V, P>, want: WakeEvent, arrival: Completion<P>)
    requires HeldIndex(m, r.s.held, want) < |r.s.held|
    ensures var i, r' := HeldIndex(m, r.s.held, want), AwaitDelivery(m, r, want, arrival);
            r'.pos == r.pos + 1 && r'.s.held == r.s.held[..i] + r.s.held[i + 1..]
  {
  }

  lemma StepKeepsPromises<V, P>(m: Machine<V, P>, l: State<V, P>, r: Replay<V, P>, log: seq<WakeEvent>, arrival: Completion<P>)
    requires InStep(m, l, r, log) && HeldPromised(m, r, log) && Promised(m, arrival, log, r.pos)
    requires forall op :: l.inflight[op] <= 1
    ensures HeldPromised(m, ReplayNext(m, log, r, arrival), log)
  {
    if r.pos < |log| && IsDelivery(log[r.pos]) && (r.s.phase.AtYield? || r.s.phase.Idle?) {
      AwaitKeepsPromises(m, l, r, log, arrival);
    } else {
      var r' := ReplayNext(m, log, r, arrival);
      assert r'.s.held == r.s.held;
      if r'.pos == r.pos + 1 {
        forall i | 0 <= i < |r.s.held| ensures Promised(m, r.s.held[i], log, r.pos + 1) {
          assert Promised(m, r.s.held[i], log, r.pos);
        }
      }
    }
  }

  // ---- Progress ------------------------------------------------------------------------

  function PhaseRank(p: Phase): nat {
    match p
    case Idle(true) => 2
    case Top => 1
    case _ => 0
  }

  ghost predicate Closer<V, P>(r: Replay<V, P>, r': Replay<V, P>) {
    || PhaseRank(r'.s.phase) < PhaseRank(r.s.phase)
    || (PhaseRank(r'.s.phase) == PhaseRank(r.s.phase) && |r'.s.inflight| < |r.s.inflight|)
  }

  /** A step that stays with the same recorded state has come closer to leaving it. */
  lemma StayIsCloser<V, P(!new)>(m: Machine<V, P>, stress: bool, l: State<V, P>, choice: Choice<P>, l': State<V, P>,
                                 r: Replay<V, P>, log: seq<WakeEvent>, arrival: Completion<P>)
    requires HashFaithful(m) && Recorded(m, stress, l, choice, l', log) && InStep(m, l, r, log)
    requires HeldPromised(m, r, log) && GoodArrival(m, r, log, arrival)
    ensures var r' := ReplayNext(m, log, r, arrival);
            InStep(m, l', r', log) || (InStep(m, l, r', log) && Closer(r, r'))
  {
    NotMissing(m, l, r, log);
    ReplayStep(m, stress, l, choice, l', r, log, arrival);
    var r' := ReplayNext(m, log, r, arrival);
    if InStep(m, l, r', log) && !InStep(m, l', r', log) {
      SamePlace(m, l, r, r', log);
      match r.s.phase
      case AtYield => AwaitCloser(m, r, log, arrival);
      case Idle(_) => AwaitCloser(m, r, log, arrival);
      case Top => TopCloser(m, stress, l, choice, l', r, log, arrival);
      case Over(_) =>
    }
  }

  lemma SamePlace<V, P>(m: Machine<V, P>, l: State<V, P>, r: Replay<V, P>, r': Replay<V, P>, log: seq<WakeEvent>)
    requires InStep(m, l, r, log) && InStep(m, l, r', log)
    ensures r'.pos == r.pos
  {
    assert |r.s.log| == r.pos && |r'.s.log| == r'.pos;
  }

  lemma AwaitCloser<V, P>(m: Machine<V, P>, r: Replay<V, P>, log: seq<WakeEvent>, arrival: Completion<P>)
    requires r.s.phase.Idle? || r.s.phase.AtYield?
    requires GoodArrival(m, r, log, arrival)
    ensures var r' := ReplayNext(m, log, r, arrival);
            r'.pos == r.pos && !r'.s.phase.Over? ==> Closer(r, r')
  {
  }

  lemma TopCloser<V, P(!new)>(m: Machine<V, P>, stress: bool, l: State<V, P>, choice: Choice<P>, l': State<V, P>,
                              r: Replay<V, P>, log: seq<WakeEvent>, arrival: Completion<P>)
    requires HashFaithful(m) && Recorded(m, stress, l, choice, l', log) && InStep(m, l, r, log) && r.s.phase == Top
    requires !InStep(m, l', ReplayNext(m, log, r, arrival), log)
    ensures Closer(r, ReplayNext(m, log, r, arrival))
  {
    if m.exiting(l.vm) {
    } else if l.current.Some? {
      ResumeInStep(m, l, r, log);
    } else if l.ready != [] {
      StepPick(m, stress, l, choice, l', r, log);
    } else {
      HeldEmpty(l.inflight, r.s.inflight, r.s.held);
    }
  }

  ghost predicate Reproduces<V, P>(m: Machine<V, P>, run: seq<State<V, P>>, log: seq<WakeEvent>, arrivals: nat -> Completion<P>) {
    |run| > 0 && forall k: nat :: GoodArrival(m, ReplayRun(m, log, Replay(run[0], 0), arrivals, k), log, arrivals(k))
  }

  ghost predicate OnTrack<V, P>(m: Machine<V, P>, run: seq<State<V, P>>, r: Replay<V, P>, log: seq<WakeEvent>, i: nat) {
    FollowsAt(m, run, r, log, i) && HeldPromised(m, r, log)
  }

  lemma TrackStep<V, P(!new)>(m: Machine<V, P>, stress: bool, run: seq<State<V, P>>, choices: seq<Choice<P>>,
                              log: seq<WakeEvent>, r: Replay<V, P>, i: nat, arrival: Completion<P>)
    requires HashFaithful(m) && Recording(m, stress, run, choices, log) && SingleOps(run)
    requires i < |choices| && OnTrack(m, run, r, log, i) && GoodArrival(m, r, log, arrival)
    ensures var r' := ReplayNext(m, log, r, arrival);
            OnTrack(m, run, r', log, i + 1) || (OnTrack(m, run, r', log, i) && Closer(r, r'))
  {
    RecordedAt(m, stress, run, choices, log, i);
    StayIsCloser(m, stress, run[i], choices[i], run[i + 1], r, log, arrival);
    StepKeepsPromises(m, run[i], r, log, arrival);
  }

  /** A faithful replay completes.  If every operation brings the recorded
      result, in any order, the replay reaches the recorded end: the same VM and
      queue, and exactly the recorded events. */
  lemma ReplayReachesEnd<V, P(!new)>(m: Machine<V, P>, stress: bool, run: seq<State<V, P>>, choices: seq<Choice<P>>,
                                     log: seq<WakeEvent>, arrivals: nat -> Completion<P>)
    requires HashFaithful(m) && Recording(m, stress, run, choices, log) && SingleOps(run)
    requires Reproduces(m, run, log, arrivals)
    ensures exists k: nat :: var r := ReplayRun(m, log, Replay(run[0], 0), arrivals, k);
              && InStep(m, run[|choices|], r, log) && r.s.phase == run[|choices|].phase && r.s.log == log
  {
    var r := Replay(run[0], 0);
    assert HeldOps(run[0].held) == [];
    assert OnTrack(m, run, r, log, 0);
    var k := Reach(m, stress, run, choices, log, arrivals, 0, r, 0);
  }

  lemma {:induction false} Reach<V, P(!new)>(m: Machine<V, P>, stress: bool, run: seq<State<V, P>>, choices: seq<Choice<P>>,
                                             log: seq<WakeEvent>, arrivals: nat -> Completion<P>,
                                             k: nat, r: Replay<V, P>, i: nat) returns (end: nat)
    requires HashFaithful(m) && Recording(m, stress, run, choices, log) && SingleOps(run)
    requires Reproduces(m, run, log, arrivals) && i <= |choices|
    requires r == ReplayRun(m, log, Replay(run[0], 0), arrivals, k) && OnTrack(m, run, r, log, i)
    ensures OnTrack(m, run, ReplayRun(m, log, Replay(run[0], 0), arrivals, end), log, |choices|)
    decreases |choices| - i, PhaseRank(r.s.phase), |r.s.inflight|
  {
    if i == |choices| {
      end := k;
    } else {
      var r' := NextOf(m, run, log, arrivals, k, r);
      TrackStep(m, stress, run, choices, log, r, i, arrivals(k));
      var j := if OnTrack(m, run, r', log, i + 1) then i + 1 else i;
      end := Reach(m, stress, run, choices, log, arrivals, k + 1, r', j);
    }
  }

  lemma NextOf<V, P>(m: Machine<V, P>, run: seq<State<V, P>>, log: seq<WakeEvent>, arrivals: nat -> Completion<P>, k: nat, r: Replay<V, P>)
    returns (r': Replay<V, P>)
    requires Reproduces(m, run, log, arrivals) && r == ReplayRun(m, log, Replay(run[0], 0), arrivals, k)
    ensures r' == ReplayRun(m, log, Replay(run[0], 0), arrivals, k + 1) == ReplayNext(m, log, r, arrivals(k))
    ensures GoodArrival(m, r, log, arrivals(k))
  {
    r' := ReplayNext(m, log, r, arrivals(k));
  }
}
