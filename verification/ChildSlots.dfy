/** A spawned child process: one slot, shared by the table entry and by the wait
    that is parked on it (src/io_backend_smol.rs:15-31, 153-161, 1015-1054, 1177-1251).
    Operations on different children do not touch each other's slots. */
module ChildSlots {
  import opened Wrappers

  /** Exit code and terminating signal. */
  datatype Exit = Exit(code: Option<int>, signal: Option<int>)

  /** `borrows` counts the mutable borrows of the child cell; `panicked` records a
      second borrow at the same time. `waits` are the parked wait operations and
      `kills` the signals sent to the process so far. */
  datatype Slot = Slot(
    listed: bool,
    exited: Option<Exit>,
    waiting: bool,
    detached: bool,
    borrows: nat,
    waits: set<nat>,
    kills: nat,
    panicked: bool)

  const Spawned: Slot := Slot(true, None, false, false, 0, {}, 0, false)

  datatype Step =
    | WaitStart(op: nat)
    | WaitEnd(op: nat, status: Option<Exit>)
    | WaitCancel(op: nat)
    | Probe(status: Option<Exit>)
    | Signal
    | Reap
    | Detach
    | Teardown

  function Borrow(s: Slot): Slot {
    s.(borrows := s.borrows + 1, panicked := s.panicked || s.borrows > 0)
  }

  function Release(s: Slot): Slot {
    s.(borrows := if s.borrows > 0 then s.borrows - 1 else 0)
  }

  function AfterWaitStart(s: Slot, op: nat): Slot {
    if !s.listed || s.exited.Some? || s.waiting || op in s.waits then s
    else Borrow(s.(waiting := true, waits := s.waits + {op}))
  }

  /** The wait resolves: the borrow ends, an observed exit is recorded, the guard
      clears the flag. A failed status records nothing. */
  function AfterWaitEnd(s: Slot, op: nat, status: Option<Exit>): Slot {
    if op !in s.waits then s
    else
      Release(s).(waits := s.waits - {op}, waiting := false,
                  exited := if status.Some? then status else s.exited)
  }

  function AfterWaitCancel(s: Slot, op: nat): Slot {
    if op !in s.waits then s else Release(s).(waits := s.waits - {op}, waiting := false)
  }

  /** The liveness probe; `status` is what the system reports if it is asked. */
  function AfterProbe(s: Slot, status: Option<Exit>): Slot {
    if !s.listed || s.exited.Some? || s.waiting then s
    else Release(Borrow(s)).(exited := status)
  }

  function AfterSignal(s: Slot): Slot {
    if !s.listed || s.exited.Some? then s else s.(kills := s.kills + 1)
  }

  function KilledUnlessDone(s: Slot): Slot {
    if s.listed && s.exited.None? && !s.detached then s.(kills := s.kills + 1) else s
  }

  function Apply(s: Slot, step: Step): Slot {
    match step
    case WaitStart(op) => AfterWaitStart(s, op)
    case WaitEnd(op, status) => AfterWaitEnd(s, op, status)
    case WaitCancel(op) => AfterWaitCancel(s, op)
    case Probe(status) => AfterProbe(s, status)
    case Signal => AfterSignal(s)
    case Reap => KilledUnlessDone(s).(listed := false)
    case Detach => if s.listed then s.(detached := true) else s
    case Teardown => KilledUnlessDone(s)
  }

  function Run(s: Slot, steps: seq<Step>): Slot
    decreases |steps|
  {
    if steps == [] then s else Run(Apply(s, steps[0]), steps[1..])
  }

  /** The cell was never borrowed twice; it is borrowed exactly while one wait is
      parked; and nothing is recorded while a wait is parked. */
  ghost predicate Inv(s: Slot) {
    !s.panicked && s.borrows == |s.waits| <= 1 && (s.waiting <==> s.waits != {}) &&
    (s.waiting ==> s.exited.None?)
  }

  lemma StepKeepsInv(s: Slot, step: Step)
    requires Inv(s)
    ensures Inv(Apply(s, step))
  {
    match step {
      case WaitEnd(op, _) => OnlyOne(s.waits, op);
      case WaitCancel(op) => OnlyOne(s.waits, op);
      case _ =>
    }
  }

  lemma OnlyOne(waits: set<nat>, op: nat)
    requires |waits| <= 1
    ensures op in waits ==> waits == {op} && waits - {op} == {}
  {
    if op in waits {
      assert |waits - {op}| == 0;
    }
  }

  lemma {:induction false} RunKeepsInv(s: Slot, steps: seq<Step>)
    requires Inv(s)
    ensures Inv(Run(s, steps))
    decreases |steps|
  {
    if steps != [] {
      StepKeepsInv(s, steps[0]);
      RunKeepsInv(Apply(s, steps[0]), steps[1..]);
    }
  }

  /** In every interleaving the child cell is never borrowed twice at once. */
  lemma NeverBorrowedTwice(steps: seq<Step>)
    ensures !Run(Spawned, steps).panicked && Run(Spawned, steps).borrows <= 1
  {
    RunKeepsInv(Spawned, steps);
  }

  /** Once recorded, the exit never changes and no signal is sent any more. */
  lemma {:induction false} RecordedForever(s: Slot, steps: seq<Step>)
    requires Inv(s) && s.exited.Some?
    ensures Run(s, steps).exited == s.exited && Run(s, steps).kills == s.kills
    decreases |steps|
  {
    if steps != [] {
      StepKeepsInv(s, steps[0]);
      RecordedForever(Apply(s, steps[0]), steps[1..]);
    }
  }

  /** A reaped child is out of reach: no signal is sent to it again. */
  lemma {:induction false} ReapedForever(s: Slot, steps: seq<Step>)
    requires !s.listed
    ensures Run(s, steps).kills == s.kills && !Run(s, steps).listed
    decreases |steps|
  {
    if steps != [] {
      ReapedForever(Apply(s, steps[0]), steps[1..]);
    }
  }

  predicate Parks(s: Slot, op: nat) {
    op !in s.waits && op in AfterWaitStart(s, op).waits
  }

  /** A wait parks exactly when the child is listed, still running as far as is
      known, and no other wait is parked. */
  lemma ParksIff(s: Slot, op: nat)
    requires Inv(s)
    ensures Parks(s, op) <==> s.listed && s.exited.None? && s.waits == {}
  {
  }

  ghost predicate Ended(steps: seq<Step>, op: nat) {
    exists i :: 0 <= i < |steps| && (steps[i] == WaitCancel(op) || (steps[i].WaitEnd? && steps[i].op == op))
  }

  lemma {:induction false} EndedIsGone(s: Slot, steps: seq<Step>, op: nat)
    requires WaitStart(op) !in steps && (Ended(steps, op) || op !in s.waits)
    ensures op !in Run(s, steps).waits
    decreases |steps|
  {
    if steps != [] {
      var t := Apply(s, steps[0]);
      if op in t.waits {
        assert Ended(steps[1..], op) by {
          var i :| 0 <= i < |steps| && (steps[i] == WaitCancel(op) || (steps[i].WaitEnd? && steps[i].op == op));
          assert i > 0 && steps[1..][i - 1] == steps[i];
        }
      }
      EndedIsGone(t, steps[1..], op);
    }
  }

  lemma {:induction false} NoNewWaits(s: Slot, steps: seq<Step>)
    requires forall i :: 0 <= i < |steps| ==> !steps[i].WaitStart?
    ensures Run(s, steps).waits <= s.waits
    decreases |steps|
  {
    if steps != [] {
      NoNewWaits(Apply(s, steps[0]), steps[1..]);
    }
  }

  /** A cancelled wait blocks nobody: whatever happens around the cancellation, the
      next wait parks, unless the child was reaped or its exit is already known. */
  lemma CancelledWaitFrees(s: Slot, op: nat, steps: seq<Step>, next: nat)
    requires Inv(s) && op in s.waits && Ended(steps, op)
    requires forall i :: 0 <= i < |steps| ==> !steps[i].WaitStart?
    ensures var t := Run(s, steps); Parks(t, next) <==> t.listed && t.exited.None?
  {
    RunKeepsInv(s, steps);
    NoNewWaits(s, steps);
    EndedIsGone(s, steps, op);
    OnlyOne(s.waits, op);
    ParksIff(Run(s, steps), next);
  }

  /** A detached child is killed by neither reaping nor teardown. */
  lemma {:induction false} DetachedSurvives(s: Slot, steps: seq<Step>)
    requires s.detached && Signal !in steps
    ensures Run(s, steps).kills == s.kills && Run(s, steps).detached
    decreases |steps|
  {
    if steps != [] {
      DetachedSurvives(Apply(s, steps[0]), steps[1..]);
    }
  }

  // ---- What is recorded and what is sent, from the history alone ---------------------------

  lemma {:induction false} RunSnoc(s: Slot, steps: seq<Step>, step: Step)
    ensures Run(s, steps + [step]) == Apply(Run(s, steps), step)
    decreases |steps|
  {
    hide Apply;
    if steps == [] {
      assert [] + [step] == [step] && [step][1..] == [];
    } else {
      assert (steps + [step])[1..] == steps[1..] + [step];
      RunSnoc(Apply(s, steps[0]), steps[1..], step);
    }
  }

  lemma RunPrefix(s: Slot, steps: seq<Step>, n: nat)
    requires n < |steps|
    ensures Run(s, steps[..n + 1]) == Apply(Run(s, steps[..n]), steps[n])
  {
    assert steps[..n + 1] == steps[..n] + [steps[n]];
    RunSnoc(s, steps[..n], steps[n]);
  }

  /** Step `n` sees this exit: a wait that is parked then resolves with it, or a probe
      reports it while the child is listed and nobody waits. */
  ghost predicate Observes(steps: seq<Step>, n: nat, exit: Exit) {
    && n < |steps|
    && match steps[n]
       case WaitEnd(op, status) => status == Some(exit) && op in Run(Spawned, steps[..n]).waits
       case Probe(status) => status == Some(exit) && Reap !in steps[..n] && Run(Spawned, steps[..n]).waits == {}
       case _ => false
  }

  ghost predicate Unseen(steps: seq<Step>, n: nat) {
    forall i: nat, exit :: i < n ==> !Observes(steps, i, exit)
  }

  lemma ObservesPrefix(steps: seq<Step>, n: nat, i: nat, exit: Exit)
    requires i < n <= |steps|
    ensures Observes(steps[..n], i, exit) <==> Observes(steps, i, exit)
  {
    assert steps[..n][..i] == steps[..i];
  }

  lemma {:induction false} ListedUntilReaped(steps: seq<Step>, n: nat)
    requires n <= |steps|
    ensures var s := Run(Spawned, steps[..n]);
            Inv(s) && (s.listed <==> Reap !in steps[..n]) && (s.listed ==> (s.detached <==> Detach in steps[..n]))
    decreases n
  {
    hide Run, Inv;
    if n == 0 {
      assert steps[..0] == [];
      assert Run(Spawned, []) == Spawned && Inv(Spawned) by { AtFirst(); }
    } else {
      ListedUntilReaped(steps, n - 1);
      RunPrefix(Spawned, steps, n - 1);
      StepKeepsInv(Run(Spawned, steps[..n - 1]), steps[n - 1]);
      assert steps[..n] == steps[..n - 1] + [steps[n - 1]];
      ListedAfter(Run(Spawned, steps[..n - 1]), steps[n - 1]);
    }
  }

  lemma AtFirst()
    ensures Run(Spawned, []) == Spawned && Inv(Spawned)
  {
  }

  lemma ListedAfter(s: Slot, step: Step)
    ensures Apply(s, step).listed <==> s.listed && step != Reap
    ensures Apply(s, step).listed ==> (Apply(s, step).detached <==> s.detached || step == Detach)
  {
  }

  /** The recorded exit is the one first observed, by a parked wait that resolves or by a
      probe while the child is listed and nobody waits; and every such observation that
      is the first is recorded. */
  lemma {:induction false} RecordedIff(steps: seq<Step>, n: nat, exit: Exit)
    requires n <= |steps|
    ensures Run(Spawned, steps[..n]).exited == Some(exit) <==> exists i: nat :: i < n && Observes(steps, i, exit) && Unseen(steps, i)
    ensures Run(Spawned, steps[..n]).exited == None <==> Unseen(steps, n)
    decreases n
  {
    hide Run, Observes, Inv;
    if n == 0 {
      assert steps[..0] == [];
      AtFirst();
    } else {
      RecordedIff(steps, n - 1, exit);
      RunPrefix(Spawned, steps, n - 1);
      ListedUntilReaped(steps, n - 1);
      RecordsNext(steps, n - 1);
      var before, after := Run(Spawned, steps[..n - 1]).exited, Run(Spawned, steps[..n]).exited;
      if before == None && after == Some(exit) {
        assert Observes(steps, n - 1, exit) && Unseen(steps, n - 1);
      }
      if i: nat :| i < n && Observes(steps, i, exit) && Unseen(steps, i) {
        if i < n - 1 {
          assert before == Some(exit);
        }
      }
      if after == None {
        forall i: nat, e | i < n ensures !Observes(steps, i, e) {
          assert i < n - 1 ==> Unseen(steps, n - 1);
        }
      }
    }
  }

  lemma RecordsNext(steps: seq<Step>, n: nat)
    requires n < |steps| && Inv(Run(Spawned, steps[..n]))
    requires Run(Spawned, steps[..n]).listed <==> Reap !in steps[..n]
    ensures var before, after := Run(Spawned, steps[..n]).exited, Apply(Run(Spawned, steps[..n]), steps[n]).exited;
            && (before.Some? ==> after == before)
            && (before.None? ==> forall e :: Observes(steps, n, e) <==> after == Some(e))
  {
    hide Run;
  }

  /** Step `i` is to signal the child: a signal, or the end of its listing or of the
      program unless it is detached, while it is listed and no exit has been seen. */
  ghost predicate Sends(steps: seq<Step>, i: nat) {
    && i < |steps| && Reap !in steps[..i] && Unseen(steps, i)
    && (steps[i] == Signal || ((steps[i] == Reap || steps[i] == Teardown) && Detach !in steps[..i]))
  }

  ghost function SendCount(steps: seq<Step>, n: nat): nat {
    if n == 0 then 0 else SendCount(steps, n - 1) + if Sends(steps, n - 1) then 1 else 0
  }

  /** Over every run, exactly these signals are sent. */
  lemma {:induction false} SentIff(steps: seq<Step>, n: nat)
    requires n <= |steps|
    ensures Run(Spawned, steps[..n]).kills == SendCount(steps, n)
    decreases n
  {
    hide Run, Observes, Inv, Unseen;
    if n == 0 {
      assert steps[..0] == [];
      AtFirst();
    } else {
      SentIff(steps, n - 1);
      RunPrefix(Spawned, steps, n - 1);
      ListedUntilReaped(steps, n - 1);
      var s := Run(Spawned, steps[..n - 1]);
      RecordedIff(steps, n - 1, if s.exited.Some? then s.exited.value else Exit(None, None));
    }
  }

  /** The slot as the backend updates it. */
  class ChildSlot {
    var listed: bool
    var exited: Option<Exit>
    var waiting: bool
    var detached: bool
    var borrows: nat
    var waits: set<nat>
    var kills: nat
    var panicked: bool

    function View(): Slot
      reads this
    {
      Slot(listed, exited, waiting, detached, borrows, waits, kills, panicked)
    }

    ghost predicate Valid()
      reads this
    {
      Inv(View())
    }

    constructor ()
      ensures View() == Spawned && Valid()
    {
      listed, exited, waiting, detached := true, None, false, false;
      borrows, waits, kills, panicked := 0, {}, 0, false;
    }

    method BorrowChild()
      modifies this`borrows, this`panicked
      ensures View() == Borrow(old(View()))
    {
      panicked := panicked || borrows > 0;
      borrows := borrows + 1;
    }

    /** src/io_backend_smol.rs:1015-1043: an error, the recorded exit, or a parked wait. */
    method StartWait(op: nat) returns (parked: bool, known: Option<Exit>)
      requires Valid() && op !in waits
      modifies this
      ensures Valid() && View() == Apply(old(View()), WaitStart(op))
      ensures parked == old(Parks(View(), op)) && known == if old(listed) then old(exited) else None
    {
      StepKeepsInv(View(), WaitStart(op));
      if !listed {
        return false, None;
      }
      if exited.Some? {
        return false, exited;
      }
      if waiting {
        return false, None;
      }
      waiting, waits := true, waits + {op};
      BorrowChild();
      return true, None;
    }

    /** src/io_backend_smol.rs:1044-1054, 157-161: the parked wait resolves or is dropped. */
    method FinishWait(op: nat, status: Option<Exit>, cancelled: bool)
      requires Valid() && op in waits
      modifies this
      ensures Valid() && View() == Apply(old(View()), if cancelled then WaitCancel(op) else WaitEnd(op, status))
    {
      StepKeepsInv(View(), if cancelled then WaitCancel(op) else WaitEnd(op, status));
      borrows := borrows - 1;
      if !cancelled && status.Some? {
        exited := status;
      }
      waiting, waits := false, waits - {op};
    }

    /** src/io_backend_smol.rs:1223-1245. A failed query counts as not running. */
    method Running(status: Option<Exit>, failed: bool) returns (running: bool)
      requires Valid() && (failed ==> status.None?)
      modifies this
      ensures Valid() && View() == Apply(old(View()), Probe(status))
      ensures running == (old(listed) && old(exited).None? && (old(waiting) || (status.None? && !failed)))
    {
      StepKeepsInv(View(), Probe(status));
      if !listed || exited.Some? {
        return false;
      }
      if waiting {
        return true;
      }
      BorrowChild();
      exited := status;
      borrows := borrows - 1;
      running := status.None? && !failed;
    }

    /** src/io_backend_smol.rs:1194-1221. */
    method SendSignal() returns (sent: bool)
      requires Valid()
      modifies this
      ensures Valid() && View() == Apply(old(View()), Signal)
      ensures sent == (old(listed) && old(exited).None?)
    {
      StepKeepsInv(View(), Signal);
      sent := listed && exited.None?;
      if sent {
        kills := kills + 1;
      }
    }

    /** src/io_backend_smol.rs:1177-1192. */
    method ReapChild()
      requires Valid()
      modifies this
      ensures Valid() && View() == Apply(old(View()), Reap)
    {
      StepKeepsInv(View(), Reap);
      if listed && exited.None? && !detached {
        kills := kills + 1;
      }
      listed := false;
    }
  }
}
