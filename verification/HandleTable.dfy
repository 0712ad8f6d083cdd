/** The extension handle table (src/handle_table.rs): a slot allocator whose
    handles carry a wrapping generation.  `State` is the table as a value; the
    class at the end is the table the host mutates in place. */
module HandleTables {
  import opened Wrappers

  const TWO32: nat := 0x1_0000_0000

  /** Generations run through 1 .. 2^32-1 and never take the value 0. */
  const CYCLE: nat := 0xFFFF_FFFF

  function HandleOf(index: nat, generation: nat): nat {
    generation * TWO32 + index
  }

  function IndexOf(handle: nat): nat {
    handle % TWO32
  }

  function GenerationOf(handle: nat): nat {
    handle / TWO32
  }

  lemma HandleRoundTrip(index: nat, generation: nat)
    requires index < TWO32
    ensures IndexOf(HandleOf(index, generation)) == index
    ensures GenerationOf(HandleOf(index, generation)) == generation
  {
  }

  datatype Scope = Free | Local(epoch: nat) | Global

  datatype Slot<V> = Slot(value: Option<V>, scope: Scope, generation: nat, ext: nat)

  datatype State<V> = State(slots: seq<Slot<V>>, free: seq<nat>, epoch: nat)

  function Empty<V>(): State<V> {
    State([], [], 0)
  }

  /** The free list is exactly the empty slots, each once. */
  ghost predicate FreeExact<V>(s: State<V>) {
    && (forall k :: 0 <= k < |s.free| ==> s.free[k] < |s.slots|)
    && Distinct(s.free)
    && (forall i :: 0 <= i < |s.slots| ==> (s.slots[i].value.None? <==> i in s.free))
  }

  /** What every table keeps, whatever its size. */
  ghost predicate SlotsOk<V>(s: State<V>) {
    && s.epoch < TWO32
    && (forall i :: 0 <= i < |s.slots| ==>
          && 1 <= s.slots[i].generation <= CYCLE
          && (s.slots[i].scope.Free? <==> s.slots[i].value.None?))
    && (forall k :: 0 <= k < |s.free| ==> s.free[k] < |s.slots|)
  }

  /** A table of more than 2^32 slots would outgrow the 32-bit index. */
  predicate Small<V>(s: State<V>) {
    |s.slots| <= TWO32
  }

  ghost predicate Valid<V>(s: State<V>) {
    SlotsOk(s) && (Small(s) ==> FreeExact(s))
  }

  function NextGeneration(g: nat): nat {
    if (g + 1) % TWO32 == 0 then 1 else (g + 1) % TWO32
  }

  function Emptied<V>(slot: Slot<V>): Slot<V> {
    slot.(value := None, scope := Free, generation := NextGeneration(slot.generation))
  }

  function FreeIndex<V>(s: State<V>, i: nat): State<V>
    requires i < |s.slots|
  {
    s.(slots := s.slots[i := Emptied(s.slots[i])], free := s.free + [i])
  }

  /** Reuse the most recently freed slot, else grow; a slot index is truncated
      to 32 bits when the table grows. */
  function Alloc<V>(s: State<V>, v: V, scope: Scope, ext: nat): (r: (State<V>, nat))
    requires Valid(s)
  {
    if |s.free| > 0 then
      var i := s.free[|s.free| - 1];
      var slot := s.slots[i].(value := Some(v), scope := scope, ext := ext);
      (s.(slots := s.slots[i := slot], free := s.free[..|s.free| - 1]), HandleOf(i, slot.generation))
    else
      var i := |s.slots| % TWO32;
      var slots := s.slots + [Slot(Some(v), scope, 1, ext)];
      (s.(slots := slots), HandleOf(i, slots[i].generation))
  }

  predicate Resolves<V>(s: State<V>, handle: nat) {
    && IndexOf(handle) < |s.slots|
    && s.slots[IndexOf(handle)].generation == GenerationOf(handle)
    && s.slots[IndexOf(handle)].value.Some?
  }

  function Get<V>(s: State<V>, handle: nat): Option<V> {
    if Resolves(s, handle) then s.slots[IndexOf(handle)].value else None
  }

  /** Sweep slots `from`.. in order, freeing those that `dies` selects. */
  function Sweep<V>(s: State<V>, dies: Slot<V> -> bool, from: nat): State<V>
    decreases |s.slots| - from
  {
    if from >= |s.slots| then s
    else if dies(s.slots[from]) then
      var i := from % TWO32;
      Sweep(FreeIndex(s, i), dies, from + 1)
    else Sweep(s, dies, from + 1)
  }

  function ReleaseAll<V>(s: State<V>, handles: seq<nat>): State<V>
    decreases |handles|
  {
    if handles == [] then s
    else
      var s' := if Resolves(s, handles[0]) then FreeIndex(s, IndexOf(handles[0])) else s;
      ReleaseAll(s', handles[1..])
  }

  datatype Op<V> =
    | BeginCall
    | EndCall(epoch: nat)
    | MintLocal(value: V, epoch: nat, ext: nat)
    | Retain(handle: nat)
    | Release(handles: seq<nat>)
    | ReleaseForExt(ext: nat)

  function EndsWith<V>(epoch: nat): Slot<V> -> bool {
    (slot: Slot<V>) => slot.scope == Local(epoch)
  }

  function OwnedBy<V>(ext: nat): Slot<V> -> bool {
    (slot: Slot<V>) => slot.value.Some? && slot.ext == ext
  }

  function Apply<V>(s: State<V>, op: Op<V>): State<V>
    requires Valid(s)
  {
    match op
    case BeginCall => s.(epoch := (s.epoch + 1) % TWO32)
    case EndCall(epoch) => Sweep(s, EndsWith(epoch), 0)
    case MintLocal(v, epoch, ext) => Alloc(s, v, Local(epoch), ext).0
    case Retain(handle) =>
      if Resolves(s, handle) then
        var i := IndexOf(handle);
        s.(slots := s.slots[i := s.slots[i].(scope := Global)])
      else s
    case Release(handles) => ReleaseAll(s, handles)
    case ReleaseForExt(ext) => Sweep(s, OwnedBy(ext), 0)
  }

  // ---- One step ------------------------------------------------------------

  lemma FreeIndexKeepsValid<V>(s: State<V>, i: nat)
    requires Valid(s) && i < |s.slots|
    requires Small(s) ==> s.slots[i].value.Some?
    ensures Valid(FreeIndex(s, i))
  {
    var s' := FreeIndex(s, i);
    if Small(s) {
      forall j | 0 <= j < |s'.slots| ensures s'.slots[j].value.None? <==> j in s'.free {
        assert j in s'.free <==> j in s.free || j == i;
      }
    }
  }

  ghost predicate Swept<V>(s: State<V>, s': State<V>, dies: Slot<V> -> bool, from: nat) {
    && |s'.slots| == |s.slots|
    && forall i :: 0 <= i < |s.slots| ==>
         s'.slots[i] == if from <= i && dies(s.slots[i]) then Emptied(s.slots[i]) else s.slots[i]
  }

  lemma SweepUnfold<V>(s: State<V>, dies: Slot<V> -> bool, from: nat)
    requires Small(s) && from < |s.slots|
    ensures Sweep(s, dies, from)
            == Sweep(if dies(s.slots[from]) then FreeIndex(s, from) else s, dies, from + 1)
  {
    assert from % TWO32 == from;
  }

  lemma SweptCompose<V>(s: State<V>, s2: State<V>, dies: Slot<V> -> bool, from: nat)
    requires from < |s.slots|
    requires Swept(if dies(s.slots[from]) then FreeIndex(s, from) else s, s2, dies, from + 1)
    ensures Swept(s, s2, dies, from)
  {
  }

  ghost predicate KillsOccupied<V>(s: State<V>, dies: Slot<V> -> bool, from: nat) {
    forall i :: from <= i < |s.slots| && dies(s.slots[i]) ==> s.slots[i].value.Some?
  }

  lemma {:induction false} SweepSmall<V>(s: State<V>, dies: Slot<V> -> bool, from: nat)
    requires Valid(s) && Small(s) && from <= |s.slots| && KillsOccupied(s, dies, from)
    ensures Valid(Sweep(s, dies, from)) && Swept(s, Sweep(s, dies, from), dies, from)
    decreases |s.slots| - from
  {
    if from < |s.slots| {
      SweepUnfold(s, dies, from);
      var s1 := if dies(s.slots[from]) then FreeIndex(s, from) else s;
      assert Valid(s1) by {
        if dies(s.slots[from]) {
          FreeIndexKeepsValid(s, from);
        }
      }
      SweepSmall(s1, dies, from + 1);
      SweptCompose(s, Sweep(s1, dies, from + 1), dies, from);
    }
  }

  /** A sweep frees exactly the slots its test selects and touches no other. */
  lemma SweepExact<V>(s: State<V>, dies: Slot<V> -> bool)
    requires Valid(s) && KillsOccupied(s, dies, 0)
    ensures var s' := Sweep(s, dies, 0);
            Valid(s') && |s'.slots| == |s.slots| && (Small(s) ==> Swept(s, s', dies, 0))
  {
    if Small(s) {
      SweepSmall(s, dies, 0);
    } else {
      SweepBig(s, dies, 0);
    }
  }

  lemma {:induction false} SweepBig<V>(s: State<V>, dies: Slot<V> -> bool, from: nat)
    requires SlotsOk(s) && !Small(s)
    ensures var s' := Sweep(s, dies, from);
            SlotsOk(s') && |s'.slots| == |s.slots|
    decreases |s.slots| - from
  {
    if from < |s.slots| {
      SweepBig(if dies(s.slots[from]) then FreeIndex(s, from % TWO32) else s, dies, from + 1);
    }
  }

  /** A batch frees exactly the occupied slots whose current handle it names,
      however often it names them and whatever stale handles it carries. */
  lemma {:induction false} ReleaseExact<V>(s: State<V>, handles: seq<nat>)
    requires Valid(s)
    ensures var s' := ReleaseAll(s, handles);
            && Valid(s') && |s'.slots| == |s.slots| && s'.epoch == s.epoch
            && (forall i :: 0 <= i < |s.slots| ==>
                  s'.slots[i] ==
                  if s.slots[i].value.Some? && i < TWO32 && HandleOf(i, s.slots[i].generation) in handles
                  then Emptied(s.slots[i]) else s.slots[i])
    decreases |handles|
  {
    if handles != [] {
      var h := handles[0];
      var s1 := if Resolves(s, h) then FreeIndex(s, IndexOf(h)) else s;
      if Resolves(s, h) {
        FreeIndexKeepsValid(s, IndexOf(h));
      }
      ReleaseExact(s1, handles[1..]);
      forall i | 0 <= i < |s.slots| && s.slots[i].value.Some? && i < TWO32
        ensures h == HandleOf(i, s.slots[i].generation) <==> Resolves(s, h) && i == IndexOf(h)
      {
        HandleRoundTrip(i, s.slots[i].generation);
      }
    }
  }

  /** What one operation may do to one slot: nothing a handle can see, a
      release, or a reuse. */
  ghost predicate SlotStep<V>(a: Slot<V>, b: Slot<V>) {
    || (a.value == b.value && a.generation == b.generation)
    || (a.value.Some? && b.value.None? && b.generation == NextGeneration(a.generation))
    || (a.value.None? && b.value.Some? && b.generation == a.generation)
  }

  lemma ApplySteps<V>(s: State<V>, op: Op<V>)
    requires Valid(s)
    ensures var s' := Apply(s, op);
            && Valid(s') && |s.slots| <= |s'.slots|
            && (Small(s) ==> forall i :: 0 <= i < |s.slots| ==> SlotStep(s.slots[i], s'.slots[i]))
  {
    match op
    case BeginCall =>
    case EndCall(epoch) => SweepExact(s, EndsWith(epoch));
    case MintLocal(v, epoch, ext) => AllocKeepsValid(s, v, Local(epoch), ext);
    case Retain(handle) =>
    case Release(handles) => ReleaseExact(s, handles);
    case ReleaseForExt(ext) => SweepExact(s, OwnedBy(ext));
  }

  lemma AllocKeepsValid<V>(s: State<V>, v: V, scope: Scope, ext: nat)
    requires Valid(s) && !scope.Free?
    ensures var (s', h) := Alloc(s, v, scope, ext);
            && Valid(s') && |s.slots| <= |s'.slots| && h != 0
            && (Small(s) ==> forall i :: 0 <= i < |s.slots| ==> SlotStep(s.slots[i], s'.slots[i]))
            && (Small(s') ==> Resolves(s', h) && Get(s', h) == Some(v) && !Resolves(s, h))
  {
    if |s.free| > 0 {
      AllocReuses(s, v, scope, ext);
    } else {
      AllocGrows(s, v, scope, ext);
    }
  }

  lemma AllocReuses<V>(s: State<V>, v: V, scope: Scope, ext: nat)
    requires Valid(s) && !scope.Free? && |s.free| > 0
    ensures var (s', h) := Alloc(s, v, scope, ext);
            && Valid(s') && |s.slots| == |s'.slots| && h != 0
            && (Small(s) ==>
                  && (forall i :: 0 <= i < |s.slots| ==> SlotStep(s.slots[i], s'.slots[i]))
                  && Resolves(s', h) && Get(s', h) == Some(v) && !Resolves(s, h))
  {
    var (s', h) := Alloc(s, v, scope, ext);
    var i := s.free[|s.free| - 1];
    if Small(s) {
      HandleRoundTrip(i, s.slots[i].generation);
      ReuseKeepsFreeExact(s, s');
    }
  }

  lemma AllocGrows<V>(s: State<V>, v: V, scope: Scope, ext: nat)
    requires Valid(s) && !scope.Free? && |s.free| == 0
    ensures var (s', h) := Alloc(s, v, scope, ext);
            && Valid(s') && |s.slots| < |s'.slots| && h != 0
            && (forall i :: 0 <= i < |s.slots| ==> s.slots[i] == s'.slots[i])
            && (Small(s') ==> Resolves(s', h) && Get(s', h) == Some(v) && !Resolves(s, h))
  {
    var (s', h) := Alloc(s, v, scope, ext);
    var i := |s.slots| % TWO32;
    assert s'.slots[i].generation >= 1;
    if Small(s') {
      HandleRoundTrip(i, 1);
    }
  }

  lemma ReuseKeepsFreeExact<V>(s: State<V>, s': State<V>)
    requires FreeExact(s) && |s.free| > 0 && |s'.slots| == |s.slots|
    requires s'.free == s.free[..|s.free| - 1]
    requires var i := s.free[|s.free| - 1];
             s'.slots == s.slots[i := s'.slots[i]] && s'.slots[i].value.Some?
    ensures FreeExact(s') && s.slots[s.free[|s.free| - 1]].value.None?
  {
    var i := s.free[|s.free| - 1];
    assert s.free == s'.free + [i];
    assert i in s.free;
    forall j | 0 <= j < |s'.slots| ensures s'.slots[j].value.None? <==> j in s'.free {
      assert j in s.free <==> j in s'.free || j == i;
    }
  }

  // ---- Every run -----------------------------------------------------------

  ghost function Run<V>(s: State<V>, ops: seq<Op<V>>): (r: State<V>)
    requires Valid(s)
    ensures Valid(r) && |s.slots| <= |r.slots|
    decreases |ops|
  {
    if ops == [] then s
    else
      ApplySteps(s, ops[0]);
      Run(Apply(s, ops[0]), ops[1..])
  }

  /** How often slot `i` goes from occupied to empty along a run. */
  ghost function Frees<V>(s: State<V>, ops: seq<Op<V>>, i: nat): nat
    requires Valid(s) && i < |s.slots|
    decreases |ops|
  {
    if ops == [] then 0
    else
      ApplySteps(s, ops[0]);
      var s' := Apply(s, ops[0]);
      (if s.slots[i].value.Some? && s'.slots[i].value.None? then 1 else 0) + Frees(s', ops[1..], i)
  }

  /** Counted from 0, a generation moves one place round a cycle of 2^32 - 1
      for every release of its slot. */
  lemma {:induction false} GenerationCounts<V>(s: State<V>, ops: seq<Op<V>>, i: nat)
    requires Valid(s) && Small(Run(s, ops)) && i < |s.slots|
    ensures Run(s, ops).slots[i].generation - 1
            == (s.slots[i].generation - 1 + Frees(s, ops, i)) % CYCLE
    ensures Frees(s, ops, i) == 0 && s.slots[i].value.Some? ==>
              Run(s, ops).slots[i].value == s.slots[i].value
    decreases |ops|
  {
    if ops != [] {
      ApplySteps(s, ops[0]);
      var s' := Apply(s, ops[0]);
      GenerationCounts(s', ops[1..], i);
      var g, n := s.slots[i].generation - 1, Frees(s', ops[1..], i);
      assert SlotStep(s.slots[i], s'.slots[i]);
      if s.slots[i].value.Some? && s'.slots[i].value.None? {
        StepThenMany(g, n);
      }
    }
  }

  lemma StepThenMany(g: nat, n: nat)
    requires g < CYCLE
    ensures NextGeneration(g + 1) - 1 == (g + 1) % CYCLE
    ensures ((g + 1) % CYCLE + n) % CYCLE == (g + 1 + n) % CYCLE
  {
    if g + 1 == CYCLE {
      assert (g + 1 + n) % CYCLE == n % CYCLE;
    }
  }

  lemma SameResidue(g: nat, n: nat)
    requires g < CYCLE
    ensures (g + n) % CYCLE == g <==> n % CYCLE == 0
  {
    var q, r := n / CYCLE, n % CYCLE;
    assert n == q * CYCLE + r;
    assert g + n == q * CYCLE + (g + r);
    if g + r < CYCLE {
      assert (g + n) % CYCLE == g + r by { ModUnique(g + n, q, g + r); }
    } else {
      assert g + n == (q + 1) * CYCLE + (g + r - CYCLE);
      assert (g + n) % CYCLE == g + r - CYCLE by { ModUnique(g + n, q + 1, g + r - CYCLE); }
    }
  }

  lemma ModUnique(x: nat, q: nat, r: nat)
    requires x == q * CYCLE + r && r < CYCLE
    ensures x % CYCLE == r
  {
  }

  /** No aliasing, with its exact bound.  Mint a handle, then run anything: the
      handle resolves exactly when its slot has been released a multiple of
      2^32 - 1 times and is occupied.  So an unreleased handle gives the value
      it was minted for, and 1 .. 2^32 - 2 releases make it fail. */
  lemma NoAliasing<V>(s: State<V>, v: V, epoch: nat, ext: nat, s1: State<V>, h: nat, ops: seq<Op<V>>)
    requires Valid(s) && Alloc(s, v, Local(epoch), ext) == (s1, h)
    requires Valid(s1) && Small(Run(s1, ops))
    ensures IndexOf(h) < |s1.slots|
    ensures var n, s2 := Frees(s1, ops, IndexOf(h)), Run(s1, ops);
            && (Get(s2, h).Some? <==> n % CYCLE == 0 && s2.slots[IndexOf(h)].value.Some?)
            && (n == 0 ==> Get(s2, h) == Some(v))
            && (0 < n < CYCLE ==> Get(s2, h) == None)
  {
    AllocKeepsValid(s, v, Local(epoch), ext);
    HandleFollows(s1, h, ops);
  }

  lemma HandleFollows<V>(s1: State<V>, h: nat, ops: seq<Op<V>>)
    requires Valid(s1) && Small(Run(s1, ops)) && Resolves(s1, h)
    ensures var n, s2 := Frees(s1, ops, IndexOf(h)), Run(s1, ops);
            && (Get(s2, h).Some? <==> n % CYCLE == 0 && s2.slots[IndexOf(h)].value.Some?)
            && (n == 0 ==> Get(s2, h) == Get(s1, h))
  {
    var i := IndexOf(h);
    GenerationCounts(s1, ops, i);
    SameResidue(s1.slots[i].generation - 1, Frees(s1, ops, i));
  }

  // ---- The bound is reached --------------------------------------------------

  /** `n` rounds of: release the current handle of slot 0, mint again. */
  ghost function Rounds<V>(v: V, g: nat, n: nat): seq<Op<V>>
    decreases n
  {
    if n == 0 then []
    else [Release([HandleOf(0, g)]), MintLocal(v, 0, 0)] + Rounds(v, NextGeneration(g), n - 1)
  }

  ghost function OneSlot<V>(v: V, g: nat): State<V> {
    State([Slot(Some(v), Local(0), g, 0)], [], 0)
  }

  lemma OneRound<V>(w: V, v: V, g: nat)
    requires 1 <= g <= CYCLE
    ensures var s := OneSlot(w, g);
            && Valid(s)
            && Valid(FreeIndex(s, 0)) && |FreeIndex(s, 0).slots| == 1 && FreeIndex(s, 0).slots[0].value.None?
            && Apply(s, Release([HandleOf(0, g)])) == FreeIndex(s, 0)
            && Apply(FreeIndex(s, 0), MintLocal(v, 0, 0)) == OneSlot(v, NextGeneration(g))
  {
    var s, h := OneSlot(w, g), HandleOf(0, g);
    HandleRoundTrip(0, g);
    FreeIndexKeepsValid(s, 0);
    assert ReleaseAll(FreeIndex(s, 0), [h][1..]) == FreeIndex(s, 0);
  }

  lemma {:induction false} RoundsRun<V>(w: V, v: V, g: nat, n: nat)
    requires 1 <= g <= CYCLE && Valid(OneSlot(w, g))
    ensures |Run(OneSlot(w, g), Rounds(v, g, n)).slots| == 1
    ensures Frees(OneSlot(w, g), Rounds(v, g, n), 0) == n
    ensures n > 0 ==> Run(OneSlot(w, g), Rounds(v, g, n)).slots[0].value == Some(v)
    decreases n
  {
    hide Run, Frees, Valid, Apply, FreeIndex;
    if n == 0 {
      NoRounds(OneSlot(w, g));
    } else {
      var s, ops, rest := OneSlot(w, g), Rounds(v, g, n), Rounds(v, NextGeneration(g), n - 1);
      OneRound(w, v, g);
      var s1, s2 := FreeIndex(s, 0), OneSlot(v, NextGeneration(g));
      OneRound(v, v, NextGeneration(g));
      RoundsRun(v, v, NextGeneration(g), n - 1);
      assert ops[0] == Release([HandleOf(0, g)]) && ops[1..][0] == MintLocal(v, 0, 0);
      assert ops[1..][1..] == rest;
      TwoSteps(s, ops, s1, s2);
      NoRounds(s2);
    }
  }

  lemma NoRounds<V>(s: State<V>)
    requires Valid(s) && |s.slots| > 0
    ensures Run(s, []) == s && Frees(s, [], 0) == 0
  {
  }

  lemma TwoSteps<V>(s: State<V>, ops: seq<Op<V>>, s1: State<V>, s2: State<V>)
    requires |ops| >= 2 && Valid(s) && Valid(s1) && Valid(s2)
    requires Apply(s, ops[0]) == s1 && Apply(s1, ops[1..][0]) == s2
    requires |s.slots| == |s1.slots| == |s2.slots| == 1
    requires s.slots[0].value.Some? && s1.slots[0].value.None? && s2.slots[0].value.Some?
    ensures Run(s, ops) == Run(s2, ops[1..][1..])
    ensures Frees(s, ops, 0) == 1 + Frees(s2, ops[1..][1..], 0)
  {
    assert Run(s1, ops[1..]) == Run(s2, ops[1..][1..]);
    assert Frees(s1, ops[1..], 0) == Frees(s2, ops[1..][1..], 0);
  }

  lemma AliasAfter<V>(a: V, b: V, n: nat)
    requires n == CYCLE
    ensures Valid(OneSlot(a, 1))
    ensures exists ops: seq<Op<V>> ::
              && Frees(OneSlot(a, 1), ops, 0) == n
              && Get(Run(OneSlot(a, 1), ops), HandleOf(0, 1)) == Some(b)
  {
    OneRound(a, b, 1);
    HandleRoundTrip(0, 1);
    var ops := Rounds(b, 1, n);
    RoundsRun(a, b, 1, n);
    GenerationCounts(OneSlot(a, 1), ops, 0);
    assert Frees(OneSlot(a, 1), ops, 0) == n && Get(Run(OneSlot(a, 1), ops), HandleOf(0, 1)) == Some(b);
  }

  /** After 2^32 - 1 releases a kept handle answers another value: the bound
      in `NoAliasing` cannot be raised. */
  lemma AliasAfterFullCycle<V>(a: V, b: V)
    ensures Alloc(Empty<V>(), a, Local(0), 0) == (OneSlot(a, 1), HandleOf(0, 1))
    ensures Valid(OneSlot(a, 1))
    ensures exists ops: seq<Op<V>> ::
              && Frees(OneSlot(a, 1), ops, 0) == CYCLE
              && Get(Run(OneSlot(a, 1), ops), HandleOf(0, 1)) == Some(b)
  {
    assert Empty<V>().slots + [Slot(Some(a), Local(0), 1, 0)] == OneSlot(a, 1).slots;
    AliasAfter(a, b, CYCLE);
  }

  // ---- The table the host mutates ---------------------------------------------

  class HandleTable<V(==)> {
    var slots: seq<Slot<V>>
    var free: seq<nat>
    var epoch: nat

    ghost function Abs(): State<V>
      reads this
    {
      State(slots, free, epoch)
    }

    constructor ()
      ensures Abs() == Empty<V>() && Valid(Abs())
    {
      slots, free, epoch := [], [], 0;
    }

    method BeginCall() returns (id: nat)
      requires Valid(Abs())
      modifies this
      ensures Valid(Abs()) && Abs() == Apply(old(Abs()), Op<V>.BeginCall) && id == epoch
    {
      ApplySteps(Abs(), Op<V>.BeginCall);
      epoch := (epoch + 1) % TWO32;
      id := epoch;
    }

    method FreeAt(i: nat)
      requires i < |slots|
      modifies this
      ensures Abs() == FreeIndex(old(Abs()), i)
    {
      slots := slots[i := Emptied(slots[i])];
      free := free + [i];
    }

    method EndCall(epochId: nat)
      requires Valid(Abs())
      modifies this
      ensures Valid(Abs()) && Abs() == Apply(old(Abs()), Op<V>.EndCall(epochId))
    {
      ApplySteps(Abs(), Op<V>.EndCall(epochId));
      var i := 0;
      while i < |slots|
        invariant i <= |slots|
        invariant Sweep(Abs(), EndsWith(epochId), i) == Apply(old(Abs()), Op<V>.EndCall(epochId))
        decreases |slots| - i
      {
        if slots[i].scope == Local(epochId) {
          FreeAt(i % TWO32);
        }
        i := i + 1;
      }
    }

    method MintLocal(v: V, epochId: nat, ext: nat) returns (handle: nat)
      requires Valid(Abs())
      modifies this
      ensures Valid(Abs()) && (Abs(), handle) == Alloc(old(Abs()), v, Local(epochId), ext)
      ensures handle != 0
      ensures Small(Abs()) ==> Get(Abs(), handle) == Some(v)
    {
      AllocKeepsValid(Abs(), v, Local(epochId), ext);
      var index: nat;
      if |free| > 0 {
        index := free[|free| - 1];
        free := free[..|free| - 1];
        slots := slots[index := slots[index].(value := Some(v), scope := Local(epochId), ext := ext)];
      } else {
        index := |slots| % TWO32;
        slots := slots + [Slot(Some(v), Local(epochId), 1, ext)];
      }
      handle := HandleOf(index, slots[index].generation);
    }

    method Lookup(handle: nat) returns (v: Option<V>)
      ensures v == Get(Abs(), handle)
    {
      var index, generation := IndexOf(handle), GenerationOf(handle);
      if index < |slots| && slots[index].generation == generation {
        v := slots[index].value;
      } else {
        v := None;
      }
    }

    method Retain(handle: nat) returns (ok: bool)
      requires Valid(Abs())
      modifies this
      ensures Valid(Abs()) && Abs() == Apply(old(Abs()), Op<V>.Retain(handle))
      ensures ok == Resolves(old(Abs()), handle)
    {
      ApplySteps(Abs(), Op<V>.Retain(handle));
      var i := IndexOf(handle);
      ok := i < |slots| && slots[i].generation == GenerationOf(handle) && slots[i].value.Some?;
      if ok {
        slots := slots[i := slots[i].(scope := Global)];
      }
    }

    method Release(handles: seq<nat>)
      requires Valid(Abs())
      modifies this
      ensures Valid(Abs()) && Abs() == Apply(old(Abs()), Op<V>.Release(handles))
    {
      ApplySteps(Abs(), Op<V>.Release(handles));
      var k := 0;
      while k < |handles|
        invariant k <= |handles|
        invariant ReleaseAll(Abs(), handles[k..]) == ReleaseAll(old(Abs()), handles)
      {
        var index, generation := IndexOf(handles[k]), GenerationOf(handles[k]);
        if index < |slots| && slots[index].generation == generation && slots[index].value.Some? {
          FreeAt(index);
        }
        assert handles[k..][1..] == handles[k + 1..];
        k := k + 1;
      }
    }

    method ReleaseForExt(ext: nat)
      requires Valid(Abs())
      modifies this
      ensures Valid(Abs()) && Abs() == Apply(old(Abs()), Op<V>.ReleaseForExt(ext))
    {
      ApplySteps(Abs(), Op<V>.ReleaseForExt(ext));
      var i := 0;
      while i < |slots|
        invariant i <= |slots|
        invariant Sweep(Abs(), OwnedBy(ext), i) == Apply(old(Abs()), Op<V>.ReleaseForExt(ext))
        decreases |slots| - i
      {
        if slots[i].value.Some? && slots[i].ext == ext {
          FreeAt(i % TWO32);
        }
        i := i + 1;
      }
    }
  }
}
