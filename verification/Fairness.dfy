/** Without stress the ready queue is first in, first out, and nobody starves. */
module Fairness {
  import opened Wrappers
  import opened Driver
  import opened ReplayProof

  /** The VM only ever adds to the back of the ready queue. */
  ghost predicate AppendsOnly<V(!new), P(!new)>(m: Machine<V, P>) {
    && (forall v, ready, t, load :: ready <= m.resume(v, ready, t, load).ready)
    && (forall v, ready, t, target, epoch :: ready <= m.wakeTimer(v, ready, t, target, epoch).1)
  }

  function Picks(log: seq<WakeEvent>): seq<TaskId>
    decreases |log|
  {
    if log == [] then []
    else Picks(log[..|log| - 1]) + (if log[|log| - 1].Pick? then [log[|log| - 1].tid] else [])
  }

  lemma PicksAppend(log: seq<WakeEvent>, e: WakeEvent)
    ensures Picks(log + [e]) == Picks(log) + (if e.Pick? then [e.tid] else [])
  {
    assert (log + [e])[..|log|] == log;
  }

  ghost predicate LiveSteps<V, P>(m: Machine<V, P>, stress: bool, run: seq<State<V, P>>, choices: seq<Choice<P>>) {
    |run| == |choices| + 1 && forall i :: 0 <= i < |choices| ==> LiveNext(m, stress, run[i], choices[i]) == Some(run[i + 1])
  }

  /** Tasks picked so far, then the tasks still queued: it only grows at the end. */
  ghost function Served<V, P>(s: State<V, P>): seq<TaskId> {
    Picks(s.log) + s.ready
  }

  predicate NonPickAdded(log: seq<WakeEvent>, log': seq<WakeEvent>) {
    |log'| == |log| + 1 && log' == log + [log'[|log|]] && !log'[|log|].Pick?
  }

  lemma Serves<V, P>(s: State<V, P>, s': State<V, P>)
    requires s'.log == s.log || NonPickAdded(s.log, s'.log)
    requires s.ready <= s'.ready
    ensures Served(s) <= Served(s')
  {
    if s'.log != s.log {
      PicksAppend(s.log, s'.log[|s.log|]);
    }
  }

  lemma PickServes<V, P>(s: State<V, P>)
    requires s.ready != []
    ensures Served(PickAt(s, 0)) == Served(s)
  {
    PicksAppend(s.log, Pick(s.ready[0]));
    assert s.ready == [s.ready[0]] + s.ready[1..];
    assert s.ready[..0] + s.ready[1..] == s.ready[1..];
  }

  lemma StepServes<V(!new), P(!new)>(m: Machine<V, P>, s: State<V, P>, choice: Choice<P>, s': State<V, P>)
    requires AppendsOnly(m) && LiveNext(m, false, s, choice) == Some(s')
    ensures Served(s) <= Served(s')
  {
    if s.phase == Top && !m.exiting(s.vm) && s.current.None? && s.ready != [] {
      PickServes(s);
    } else {
      GrowsQueue(m, s, choice, s');
      Serves(s, s');
    }
  }

  lemma GrowsQueue<V(!new), P(!new)>(m: Machine<V, P>, s: State<V, P>, choice: Choice<P>, s': State<V, P>)
    requires AppendsOnly(m) && LiveNext(m, false, s, choice) == Some(s')
    requires !(s.phase == Top && !m.exiting(s.vm) && s.current.None? && s.ready != [])
    ensures s.ready <= s'.ready
    ensures s'.log == s.log || NonPickAdded(s.log, s'.log)
  {
    hide AppendsOnly, Deliver, Resume, Settle, PickAt, NonPickAdded;
    if s.phase == AtYield {
      if choice.Complete? {
        DeliverGrows(m, s.(inflight := s.inflight - multiset{choice.c.op}), choice.c);
      } else {
        SettleGrows(m, s, s.ready != []);
      }
    } else if m.exiting(s.vm) {
      assert s'.ready == s.ready;
    } else if s.current.Some? {
      ResumeGrows(m, s);
    } else if s.inflight != multiset{} {
      DeliverGrows(m, s.(inflight := s.inflight - multiset{choice.c.op}), choice.c);
    }
  }

  lemma DeliverGrows<V(!new), P(!new)>(m: Machine<V, P>, s: State<V, P>, c: Completion<P>)
    requires AppendsOnly(m)
    ensures s.ready <= Deliver(m, s, c).ready && NonPickAdded(s.log, Deliver(m, s, c).log)
  {
    assert !EventOf(m, c).Pick?;
  }

  lemma SettleGrows<V(!new), P(!new)>(m: Machine<V, P>, s: State<V, P>, preempt: bool)
    requires s.current.Some?
    ensures s.ready <= Settle(m, s, preempt).ready && NonPickAdded(s.log, Settle(m, s, preempt).log)
  {
  }

  lemma ResumeGrows<V(!new), P(!new)>(m: Machine<V, P>, s: State<V, P>)
    requires AppendsOnly(m) && s.current.Some?
    ensures s.ready <= Resume(m, s).ready && Resume(m, s).log == s.log
  {
  }

  lemma {:induction false} RunServes<V(!new), P(!new)>(m: Machine<V, P>, run: seq<State<V, P>>, choices: seq<Choice<P>>, n: nat)
    requires AppendsOnly(m) && LiveSteps(m, false, run, choices) && n <= |choices|
    ensures Served(run[0]) <= Served(run[n])
    decreases n
  {
    if n > 0 {
      RunServes(m, run, choices, n - 1);
      StepServes(m, run[n - 1], choices[n - 1], run[n]);
    }
  }

  /** First in, first out: a task at position `k` of the queue is picked after
      exactly `k` other picks, and until then stays in the queue. */
  lemma PickedInTurn<V(!new), P(!new)>(m: Machine<V, P>, run: seq<State<V, P>>, choices: seq<Choice<P>>, n: nat, k: nat)
    requires AppendsOnly(m) && LiveSteps(m, false, run, choices) && n <= |choices| && k < |run[0].ready|
    ensures var before, picked := |Picks(run[0].log)|, Picks(run[n].log);
            if before + k < |picked| then picked[before + k] == run[0].ready[k]
            else
              && before + k - |picked| < |run[n].ready|
              && run[n].ready[before + k - |picked|] == run[0].ready[k]
  {
    RunServes(m, run, choices, n);
    assert Served(run[0])[|Picks(run[0].log)| + k] == run[0].ready[k];
    assert Served(run[n])[|Picks(run[0].log)| + k] == run[0].ready[k];
  }

  // ---- Spinning tasks starve nobody ----------------------------------------------------

  function Rotations(log: seq<WakeEvent>): nat
    decreases |log|
  {
    if log == [] then 0 else Rotations(log[..|log| - 1]) + (if log[|log| - 1].Rotate? then 1 else 0)
  }

  lemma RotationsAppend(log: seq<WakeEvent>, e: WakeEvent)
    ensures Rotations(log + [e]) == Rotations(log) + if e.Rotate? then 1 else 0
  {
    assert (log + [e])[..|log|] == log;
  }

  /** Rotations less picks, with room for the one that leaves nothing running. */
  ghost function Owed<V, P>(s: State<V, P>): int {
    Rotations(s.log) - |Picks(s.log)| - (if s.current.None? then 1 else 0)
  }

  lemma LogQuiet(log: seq<WakeEvent>, e: WakeEvent)
    requires !e.Pick? && !e.Rotate?
    ensures Rotations(log + [e]) == Rotations(log) && Picks(log + [e]) == Picks(log)
  {
    RotationsAppend(log, e);
    PicksAppend(log, e);
  }

  /** With a task waiting, every rotation requeues the running task, so that the next
      one needs a pick first. */
  lemma RotationOwesPick<V(!new), P(!new)>(m: Machine<V, P>, s: State<V, P>, choice: Choice<P>, s': State<V, P>)
    requires s.ready != [] && LiveNext(m, false, s, choice) == Some(s')
    ensures Owed(s') <= Owed(s)
  {
    hide Rotations, Picks;
    if s.phase == AtYield {
      if choice.Complete? {
        LogQuiet(s.log, EventOf(m, choice.c));
      } else {
        RotationsAppend(s.log, Rotate(true));
        PicksAppend(s.log, Rotate(true));
      }
    } else if m.exiting(s.vm) {
    } else if s.current.Some? {
      ResumeOwes(m, s);
    } else {
      RotationsAppend(s.log, Pick(s.ready[choice.index]));
      PicksAppend(s.log, Pick(s.ready[choice.index]));
    }
  }

  lemma ResumeOwes<V(!new), P(!new)>(m: Machine<V, P>, s: State<V, P>)
    requires s.current.Some?
    ensures Owed(Resume(m, s)) <= Owed(s)
  {
    hide Rotations, Picks;
  }

  lemma {:induction false} WaitingOwes<V(!new), P(!new)>(m: Machine<V, P>, run: seq<State<V, P>>, choices: seq<Choice<P>>, n: nat, k: nat)
    requires AppendsOnly(m) && LiveSteps(m, false, run, choices) && n <= |choices| && k < |run[0].ready|
    requires |Picks(run[n].log)| <= |Picks(run[0].log)| + k
    ensures Owed(run[n]) <= Owed(run[0])
    decreases n
  {
    hide AppendsOnly, Owed, LiveNext, Picks;
    if n > 0 {
      PicksGrow(m, run, choices, n - 1);
      WaitingOwes(m, run, choices, n - 1, k);
      PickedInTurn(m, run, choices, n - 1, k);
      RotationOwesPick(m, run[n - 1], choices[n - 1], run[n]);
    }
  }

  lemma PicksGrow<V(!new), P(!new)>(m: Machine<V, P>, run: seq<State<V, P>>, choices: seq<Choice<P>>, i: nat)
    requires LiveSteps(m, false, run, choices) && i < |choices|
    ensures |Picks(run[i].log)| <= |Picks(run[i + 1].log)|
  {
    hide Picks;
    var s, s' := run[i], run[i + 1];
    assert LiveNext(m, false, s, choices[i]) == Some(s');
    LiveLog(m, false, s, choices[i], s');
    if s'.log != s.log {
      assert s'.log == s.log + [s'.log[|s.log|]];
      PicksAppend(s.log, s'.log[|s.log|]);
    }
  }

  /** No starvation: however the running tasks spin, a task at position `k` of the
      queue has been picked once `k + 2` rotations have passed. */
  lemma SpinnersStarveNobody<V(!new), P(!new)>(m: Machine<V, P>, run: seq<State<V, P>>, choices: seq<Choice<P>>, n: nat, k: nat)
    requires AppendsOnly(m) && LiveSteps(m, false, run, choices) && n <= |choices| && k < |run[0].ready|
    requires Rotations(run[n].log) >= Rotations(run[0].log) + k + 2
    ensures var before, picked := |Picks(run[0].log)|, Picks(run[n].log);
            before + k < |picked| && picked[before + k] == run[0].ready[k]
  {
    hide AppendsOnly, LiveNext, Picks, Rotations;
    if |Picks(run[n].log)| <= |Picks(run[0].log)| + k {
      WaitingOwes(m, run, choices, n, k);
      assert false;
    }
    PickedInTurn(m, run, choices, n, k);
  }
}
