/** How long a handle lives: from its minting until it is released, its extension is,
    or its call ends without having it retained (src/handle_table.rs:97-201). */
module HandleLife {
  import opened Wrappers
  import opened HandleTables

  /** Operation `i` ends the life of a handle `h` minted for call `e` of extension `x`;
      `kept` says that it was retained before the run. */
  ghost predicate EndsLife<V>(ops: seq<Op<V>>, h: nat, e: nat, x: nat, kept: bool, i: nat) {
    && i < |ops|
    && match ops[i]
       case Release(handles) => h in handles
       case ReleaseForExt(ext) => ext == x
       case EndCall(epoch) => epoch == e && !kept && forall j :: 0 <= j < i ==> ops[j] != Retain(h)
       case _ => false
  }

  ghost predicate LifeEnds<V>(ops: seq<Op<V>>, h: nat, e: nat, x: nat, kept: bool) {
    exists i: nat :: EndsLife(ops, h, e, x, kept, i)
  }

  lemma LifeEndsCons<V>(ops: seq<Op<V>>, h: nat, e: nat, x: nat, kept: bool)
    requires ops != []
    ensures LifeEnds(ops, h, e, x, kept) <==>
              EndsLife(ops, h, e, x, kept, 0) || LifeEnds(ops[1..], h, e, x, kept || ops[0] == Retain(h))
  {
    var kept', rest := kept || ops[0] == Retain(h), ops[1..];
    forall i: nat ensures EndsLife(ops, h, e, x, kept, i + 1) <==> EndsLife(rest, h, e, x, kept', i) {
      if i < |rest| {
        assert rest[i] == ops[i + 1];
        assert (forall j :: 0 <= j < i + 1 ==> ops[j] != Retain(h)) <==>
               ops[0] != Retain(h) && forall j :: 0 <= j < i ==> rest[j] != Retain(h) by {
          forall j | 0 <= j < i ensures rest[j] == ops[j + 1] {
          }
          if ops[0] != Retain(h) && forall j :: 0 <= j < i ==> rest[j] != Retain(h) {
            forall j | 0 <= j < i + 1 ensures ops[j] != Retain(h) {
              assert j > 0 ==> rest[j - 1] == ops[j];
            }
          }
        }
      }
    }
    if LifeEnds(ops, h, e, x, kept) {
      var i: nat :| EndsLife(ops, h, e, x, kept, i);
      if i > 0 {
        assert EndsLife(rest, h, e, x, kept', i - 1);
      }
    }
    if LifeEnds(rest, h, e, x, kept') {
      var i: nat :| EndsLife(rest, h, e, x, kept', i);
      assert EndsLife(ops, h, e, x, kept, i + 1);
    }
  }

  /** The slot of `h` holds what it was minted for. */
  ghost predicate Living<V>(s: State<V>, h: nat, v: V, e: nat, x: nat, kept: bool) {
    && IndexOf(h) < |s.slots|
    && s.slots[IndexOf(h)] == Slot(Some(v), if kept then Global else Local(e), GenerationOf(h), x)
  }

  lemma WholeHandle(h: nat)
    ensures HandleOf(IndexOf(h), GenerationOf(h)) == h && IndexOf(h) < TWO32
  {
  }

  lemma MintedLives<V>(s: State<V>, v: V, e: nat, x: nat)
    requires Valid(s) && Small(Alloc(s, v, Local(e), x).0)
    ensures var (s', h) := Alloc(s, v, Local(e), x); Valid(s') && Living(s', h, v, e, x, false)
  {
    AllocKeepsValid(s, v, Local(e), x);
    if |s.free| > 0 {
      HandleRoundTrip(s.free[|s.free| - 1], s.slots[s.free[|s.free| - 1]].generation);
    } else {
      HandleRoundTrip(|s.slots|, 1);
    }
  }

  lemma OtherMintSpares<V>(s: State<V>, h: nat, v: V, e: nat, x: nat, kept: bool, w: V, e': nat, x': nat)
    requires Valid(s) && Small(s) && Living(s, h, v, e, x, kept)
    ensures Living(Alloc(s, w, Local(e'), x').0, h, v, e, x, kept)
  {
    if |s.free| > 0 {
      assert s.free[|s.free| - 1] in s.free;
    }
  }

  lemma RetainKeeps<V>(s: State<V>, h: nat, v: V, e: nat, x: nat, kept: bool, handle: nat)
    requires Valid(s) && Living(s, h, v, e, x, kept)
    ensures Living(Apply(s, Retain(handle)), h, v, e, x, kept || handle == h)
  {
    WholeHandle(h);
    WholeHandle(handle);
  }

  lemma ReleaseDecides<V>(s: State<V>, h: nat, v: V, e: nat, x: nat, kept: bool, handles: seq<nat>)
    requires Valid(s) && Living(s, h, v, e, x, kept)
    ensures var s' := ReleaseAll(s, handles);
            if h in handles then IndexOf(h) < |s'.slots| && s'.slots[IndexOf(h)].value.None? else Living(s', h, v, e, x, kept)
  {
    WholeHandle(h);
    ReleaseExact(s, handles);
  }

  lemma SweepDecides<V>(s: State<V>, h: nat, v: V, e: nat, x: nat, kept: bool, dies: Slot<V> -> bool)
    requires Valid(s) && Small(s) && Living(s, h, v, e, x, kept) && KillsOccupied(s, dies, 0)
    ensures var s' := Sweep(s, dies, 0);
            if dies(s.slots[IndexOf(h)]) then IndexOf(h) < |s'.slots| && s'.slots[IndexOf(h)].value.None?
            else Living(s', h, v, e, x, kept)
  {
    SweepExact(s, dies);
  }

  /** One operation ends the life of a living handle or keeps it. */
  lemma StepDecides<V>(s: State<V>, op: Op<V>, h: nat, v: V, e: nat, x: nat, kept: bool)
    requires Valid(s) && Small(s) && Living(s, h, v, e, x, kept)
    ensures var s' := Apply(s, op);
            if EndsLife([op], h, e, x, kept, 0) then IndexOf(h) < |s'.slots| && s'.slots[IndexOf(h)].value.None?
            else Living(s', h, v, e, x, kept || op == Retain(h))
  {
    assert [op][0] == op;
    match op {
      case BeginCall =>
      case EndCall(epoch) => SweepDecides(s, h, v, e, x, kept, EndsWith(epoch));
      case MintLocal(w, e', x') => OtherMintSpares(s, h, v, e, x, kept, w, e', x');
      case Retain(handle) => RetainKeeps(s, h, v, e, x, kept, handle);
      case Release(handles) => ReleaseDecides(s, h, v, e, x, kept, handles);
      case ReleaseForExt(ext) => SweepDecides(s, h, v, e, x, kept, OwnedBy(ext));
    }
  }

  lemma FirstEnds<V>(ops: seq<Op<V>>, h: nat, e: nat, x: nat, kept: bool)
    requires ops != []
    ensures EndsLife(ops, h, e, x, kept, 0) <==> EndsLife([ops[0]], h, e, x, kept, 0)
  {
  }

  lemma {:induction false} LifeDecides<V>(s: State<V>, ops: seq<Op<V>>, h: nat, v: V, e: nat, x: nat, kept: bool)
    requires Valid(s) && Small(Run(s, ops)) && Living(s, h, v, e, x, kept)
    ensures LifeEnds(ops, h, e, x, kept) <==> Frees(s, ops, IndexOf(h)) > 0
    decreases |ops|
  {
    hide Apply, Living, EndsLife;
    if ops == [] {
      assert !LifeEnds(ops, h, e, x, kept) by { NoOps<V>(h, e, x, kept); }
    } else {
      ApplySteps(s, ops[0]);
      var s' := Apply(s, ops[0]);
      StepDecides(s, ops[0], h, v, e, x, kept);
      FirstEnds(ops, h, e, x, kept);
      LifeEndsCons(ops, h, e, x, kept);
      LivingSlot(s, h, v, e, x, kept);
      if !EndsLife(ops, h, e, x, kept, 0) {
        LivingSlot(s', h, v, e, x, kept || ops[0] == Retain(h));
        LifeDecides(s', ops[1..], h, v, e, x, kept || ops[0] == Retain(h));
      }
    }
  }

  lemma NoOps<V>(h: nat, e: nat, x: nat, kept: bool)
    ensures !LifeEnds<V>([], h, e, x, kept)
  {
  }

  lemma LivingSlot<V>(s: State<V>, h: nat, v: V, e: nat, x: nat, kept: bool)
    requires Living(s, h, v, e, x, kept)
    ensures IndexOf(h) < |s.slots| && s.slots[IndexOf(h)].value == Some(v)
  {
  }

  /** The lifetime of a handle, on `Get` alone.  Minted for call `e` of extension `x`, it
      gives its value after any run if and only if the run has no release that names
      it, no release of the extension and no end of the call that it was not retained
      before; as long as its slot was freed fewer than 2^32 - 1 times. */
  lemma HandleLifetime<V>(s: State<V>, v: V, e: nat, x: nat, s1: State<V>, h: nat, ops: seq<Op<V>>)
    requires Valid(s) && Alloc(s, v, Local(e), x) == (s1, h) && Valid(s1) && Small(Run(s1, ops))
    requires IndexOf(h) < |s1.slots| && Frees(s1, ops, IndexOf(h)) < CYCLE
    ensures Get(Run(s1, ops), h) == Some(v) <==> !LifeEnds(ops, h, e, x, false)
    ensures Get(Run(s1, ops), h) == Some(v) || Get(Run(s1, ops), h) == None
  {
    MintedLives(s, v, e, x);
    LifeDecides(s1, ops, h, v, e, x, false);
    NoAliasing(s, v, e, x, s1, h, ops);
  }

  // ---- Call epochs -------------------------------------------------------------------------

  function Begins<V>(ops: seq<Op<V>>): nat {
    if ops == [] then 0 else (if ops[0].BeginCall? then 1 else 0) + Begins(ops[1..])
  }

  lemma {:induction false} SweepKeepsEpoch<V>(s: State<V>, dies: Slot<V> -> bool, from: nat)
    ensures Sweep(s, dies, from).epoch == s.epoch
    decreases |s.slots| - from
  {
    if from < |s.slots| {
      SweepKeepsEpoch(if dies(s.slots[from]) then FreeIndex(s, from % TWO32) else s, dies, from + 1);
    }
  }

  lemma OpEpoch<V>(s: State<V>, op: Op<V>)
    requires Valid(s)
    ensures Apply(s, op).epoch == if op.BeginCall? then (s.epoch + 1) % TWO32 else s.epoch
  {
    match op {
      case EndCall(epoch) => SweepKeepsEpoch(s, EndsWith(epoch), 0);
      case ReleaseForExt(ext) => SweepKeepsEpoch(s, OwnedBy(ext), 0);
      case Release(handles) => ReleaseExact(s, handles);
      case _ =>
    }
  }

  lemma {:induction false} EpochCounts<V>(s: State<V>, ops: seq<Op<V>>)
    requires Valid(s)
    ensures Run(s, ops).epoch == (s.epoch + Begins(ops)) % TWO32
    decreases |ops|
  {
    hide Apply;
    if ops != [] {
      ApplySteps(s, ops[0]);
      OpEpoch(s, ops[0]);
      EpochCounts(Apply(s, ops[0]), ops[1..]);
      EpochWraps(s.epoch, Begins(ops[1..]));
    }
  }

  lemma EpochWraps(epoch: nat, n: nat)
    requires epoch < TWO32
    ensures ((epoch + 1) % TWO32 + n) % TWO32 == (epoch + 1 + n) % TWO32
  {
    if epoch + 1 == TWO32 {
      assert (epoch + 1 + n) % TWO32 == n % TWO32;
    }
  }

  /** A call that begins gets an epoch that none of the 2^32 - 1 calls before it got, and
      the one before those got the same. */
  lemma EpochsFresh<V>(s: State<V>, ops: seq<Op<V>>)
    requires Valid(s) && 0 < Begins(ops) <= TWO32
    ensures Run(s, ops).epoch == s.epoch <==> Begins(ops) == TWO32
  {
    EpochCounts(s, ops);
    assert s.epoch < TWO32;
    if s.epoch + Begins(ops) >= TWO32 {
      assert (s.epoch + Begins(ops)) % TWO32 == (s.epoch + Begins(ops) - TWO32) % TWO32;
    }
  }
}
