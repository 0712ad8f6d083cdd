/** What holds over whole runs of the I/O backend: when a close is final, where a
    lease ends up, and which streams are still finished at teardown. */
module IoBackendRuns {
  import opened IoBackend

  // ---- Closing ---------------------------------------------------------------------------

  /** No registry holds the id, and nothing in flight will put it back. */
  ghost predicate Dead(s: State, id: nat) {
    id < s.nextId && !s.reg.Has(id) && (id in s.leased ==> id in s.tombs) && !Held(s.shaking, id)
  }

  lemma DeadAfterEnd(s: State, op: nat, id: nat)
    requires Inv(s) && Dead(s, id)
    ensures Dead(AfterEnd(s, op), id)
  {
    hide HandleOrTomb, Held, HeldOnce, Registries.Has, Registries.Disjoint, Registries.Set;
    if op in s.flight {
      var lease := s.flight[op];
      assert lease.id in s.leased by { FlightLeased(s, op); }
      SetHas(s.reg, lease.kind, lease.id, lease.res);
    }
  }

  lemma FlightLeased(s: State, op: nat)
    requires LeasedOnce(s) && op in s.flight
    ensures s.flight[op].id in s.leased
  {
    assert Held(s.flight, s.flight[op].id);
  }

  lemma DeadAfterTls(s: State, step: Step, id: nat)
    requires Inv(s) && Dead(s, id) && (step.TlsTake? || step.TlsEnd?)
    ensures Dead(Apply(s, step), id)
  {
    hide HandleOrTomb, HeldOnce, Held, Registries.Has, Registries.Disjoint, Registries.Set, Registries.Without;
    match step {
      case TlsTake(x) =>
        if x in s.reg.streams {
          OfHas(s.reg, Stream, x);
          WithoutHas(s.reg, Stream, x);
          NotHeld(s, x);
          HeldAfterAdd(s.shaking, s.nextOp, Lease(Stream, x, s.reg.streams[x]));
        }
      case TlsEnd(op, established, name) =>
        if op in s.shaking {
          var held := s.shaking[op];
          HeldBy(s.shaking, op);
          SetHas(s.reg, Stream, held.id, Resource(name, held.res.encoder));
          HeldAfterRemove(s.shaking, op);
        }
    }
  }

  lemma HeldBy(flight: map<nat, Lease>, op: nat)
    requires op in flight
    ensures Held(flight, flight[op].id)
  {
  }

  lemma DeadAfterRegistryStep(s: State, step: Step, id: nat)
    requires Inv(s) && Dead(s, id) && !step.End? && !step.TlsTake? && !step.TlsEnd?
    ensures Dead(Apply(s, step), id)
  {
    hide HandleOrTomb, LeasedOnce, Held, Registries.Has, Registries.Disjoint, Registries.Set, Registries.Without, Unregistered;
    match step {
      case Insert(kind, res) => SetHas(s.reg, kind, s.nextId, res);
      case Spawn =>
      case Take(kind, x) =>
        WithoutHas(s.reg, kind, x);
        if x in s.reg.Of(kind) {
          OfHas(s.reg, kind, x);
        }
      case Close(x) => UnregisteredHas(s.reg, x);
      case AsyncClose(x) => UnregisteredHas(s.reg, x);
      case Wrap(x, write, name) =>
        if x in s.reg.streams {
          OfHas(s.reg, Stream, x);
          SetHas(s.reg, Stream, x, Resource(name, s.reg.streams[x].encoder || write));
        }
      case Finish(x) => WithoutHas(s.reg, Stream, x);
    }
  }

  lemma DeadStays(s: State, step: Step, id: nat)
    requires Inv(s) && Dead(s, id)
    ensures Dead(Apply(s, step), id)
  {
    hide Inv, Dead, AfterEnd;
    match step {
      case End(op) => DeadAfterEnd(s, op, id);
      case TlsTake(_) => DeadAfterTls(s, step, id);
      case TlsEnd(_, _, _) => DeadAfterTls(s, step, id);
      case _ => DeadAfterRegistryStep(s, step, id);
    }
  }

  lemma {:induction false} DeadForever(s: State, steps: seq<Step>, id: nat)
    requires Inv(s) && Dead(s, id)
    ensures Dead(Run(s, steps), id)
    decreases |steps|
  {
    hide Inv, Dead, Apply;
    if steps != [] {
      StepKeepsInv(s, steps[0]);
      DeadStays(s, steps[0], id);
      DeadForever(Apply(s, steps[0]), steps[1..], id);
    }
  }

  ghost predicate NeverUsableAgain(s: State, id: nat) {
    forall steps :: !Run(s, steps).reg.Has(id)
  }

  lemma RunOne(s: State, step: Step)
    ensures Run(s, [step]) == Apply(s, step)
  {
    assert [step][1..] == [];
  }

  lemma TlsRevives(s: State, op: nat)
    requires op in s.shaking
    ensures Run(s, [TlsEnd(op, true, 0)]).reg.Has(s.shaking[op].id)
  {
    hide Run;
    RunOne(s, TlsEnd(op, true, 0));
  }

  lemma EndRevives(s: State, op: nat)
    requires op in s.flight && s.flight[op].id !in s.tombs
    ensures Run(s, [End(op)]).reg.Has(s.flight[op].id)
  {
    hide Run;
    RunOne(s, End(op));
  }

  /** An issued id that is not dead comes back in some run. */
  lemma Revives(s: State, id: nat) returns (steps: seq<Step>)
    requires Inv(s) && id < s.nextId && !Dead(s, id)
    ensures Run(s, steps).reg.Has(id)
  {
    hide OnePlace, HandleOrTomb, Apply, Registries.Has, HeldOnce;
    if s.reg.Has(id) {
      steps := [];
    } else if Held(s.shaking, id) {
      var op :| op in s.shaking && s.shaking[op].id == id;
      steps := [TlsEnd(op, true, 0)];
      TlsRevives(s, op);
    } else {
      assert Held(s.flight, id);
      var op :| op in s.flight && s.flight[op].id == id;
      steps := [End(op)];
      EndRevives(s, op);
    }
  }

  /** Over all continuations: an issued id is never usable again exactly when it is dead. */
  lemma NeverAgainIffDead(s: State, id: nat)
    requires Inv(s) && id < s.nextId
    ensures NeverUsableAgain(s, id) <==> Dead(s, id)
  {
    hide Inv;
    if Dead(s, id) {
      forall steps ensures !Run(s, steps).reg.Has(id) {
        DeadForever(s, steps, id);
      }
    } else {
      var steps := Revives(s, id);
    }
  }

  /** The synchronous close is final exactly when no TLS handshake holds the stream;
      in particular it is final for every id that is registered or leased. */
  lemma CloseIsFinal(s: State, id: nat)
    requires Inv(s) && id < s.nextId
    ensures NeverUsableAgain(AfterClose(s, id), id) <==> !Held(s.shaking, id)
  {
    hide Inv, Held, Registries.Has, Registries.Disjoint, NeverUsableAgain, Unregistered;
    CloseKeeps(s, id);
    NeverAgainIffDead(AfterClose(s, id), id);
    InvDisjoint(s);
    UnregisteredHas(s.reg, id);
  }

  lemma InvDisjoint(s: State)
    requires Inv(s)
    ensures s.reg.Disjoint()
  {
  }

  /** The asynchronous close sets no tombstone: it is final exactly when, besides, no
      operation that is not yet closed holds a lease on the id. */
  lemma AsyncCloseIsFinal(s: State, id: nat)
    requires Inv(s) && id < s.nextId
    ensures NeverUsableAgain(Apply(s, AsyncClose(id)), id)
            <==> !Held(s.shaking, id) && (id in s.leased ==> id in s.tombs)
  {
    hide Inv, Held, Registries.Has, Registries.Disjoint, NeverUsableAgain, Unregistered;
    StepKeepsInv(s, AsyncClose(id));
    NeverAgainIffDead(Apply(s, AsyncClose(id)), id);
    InvDisjoint(s);
    UnregisteredHas(s.reg, id);
  }

  /** Finishing a stream sets no tombstone either and touches only the streams. */
  lemma FinishIsFinal(s: State, id: nat)
    requires Inv(s) && id < s.nextId
    ensures NeverUsableAgain(AfterFinish(s, id), id)
            <==> !Held(s.shaking, id) && (id in s.leased ==> id in s.tombs) && id !in s.reg.listeners && id !in s.reg.seekables
  {
    hide Inv, Held, Registries.Disjoint, NeverUsableAgain;
    StepKeepsInv(s, Finish(id));
    NeverAgainIffDead(AfterFinish(s, id), id);
  }

  lemma FourSteps(s: State, a: Step, b: Step, c: Step, d: Step)
    ensures Run(s, [a, b, c, d]) == Apply(Apply(Apply(Apply(s, a), b), c), d)
  {
    hide Apply, Run;
    RunCons(s, a, [b, c, d]);
    RunCons(Apply(s, a), b, [c, d]);
    RunCons(Apply(Apply(s, a), b), c, [d]);
    RunOne(Apply(Apply(Apply(s, a), b), c), d);
    assert [a] + [b, c, d] == [a, b, c, d] && [b] + [c, d] == [b, c, d] && [c] + [d] == [c, d];
  }

  /** A stream closed during its handshake is open again when the handshake succeeds. */
  lemma CloseDuringHandshake()
    ensures var steps := [Insert(Stream, Resource(7, false)), TlsTake(0), Close(0), TlsEnd(0, true, 8)];
            Run(Empty, steps).reg.streams == map[0 := Resource(8, false)]
  {
    var s2 := Apply(Apply(Empty, Insert(Stream, Resource(7, false))), TlsTake(0));
    assert s2.shaking == map[0 := Lease(Stream, 0, Resource(7, false))] && s2.reg.streams == map[];
    var s3 := Apply(s2, Close(0));
    assert s3.shaking == s2.shaking && s3.reg.streams == map[];
    FourSteps(Empty, Insert(Stream, Resource(7, false)), TlsTake(0), Close(0), TlsEnd(0, true, 8));
  }

  /** A stream closed asynchronously during a read is open again after the read. */
  lemma AsyncCloseDuringRead()
    ensures var steps := [Insert(Stream, Resource(7, false)), Take(Stream, 0), AsyncClose(0), End(0)];
            Run(Empty, steps).reg.streams == map[0 := Resource(7, false)]
  {
    var s2 := Apply(Apply(Empty, Insert(Stream, Resource(7, false))), Take(Stream, 0));
    assert s2.flight == map[0 := Lease(Stream, 0, Resource(7, false))] && s2.reg.streams == map[];
    var s3 := Apply(s2, AsyncClose(0));
    assert s3.flight == s2.flight && s3.tombs == {} && s3.reg.streams == map[];
    FourSteps(Empty, Insert(Stream, Resource(7, false)), Take(Stream, 0), AsyncClose(0), End(0));
  }

  // ---- Leases ------------------------------------------------------------------------------

  /** Taking succeeds exactly on a registered id, and never on a leased one. */
  lemma TakeSucceeds(s: State, kind: Kind, id: nat)
    requires Inv(s)
    ensures AfterTake(s, kind, id) != s <==> id in s.reg.Of(kind)
    ensures id in s.leased || Held(s.shaking, id) ==> AfterTake(s, kind, id) == s
  {
    if id in s.reg.Of(kind) {
      OfHas(s.reg, kind, id);
      NotHeld(s, id);
    }
  }

  /** The operation that takes `id` now holds this. */
  ghost predicate Leases(s: State, kind: Kind, id: nat, res: Resource) {
    var t := AfterTake(s, kind, id);
    s.nextOp !in s.flight && s.nextOp in t.flight && t.flight[s.nextOp] == Lease(kind, id, res)
  }

  /** What is inserted is what is leased, under its own kind and no other. */
  lemma InsertedIsLeased(s: State, kind: Kind, res: Resource)
    requires Inv(s)
    ensures Leases(AfterInsert(s, kind, res), kind, s.nextId, res)
    ensures forall other: Kind :: other != kind ==> AfterTake(AfterInsert(s, kind, res), other, s.nextId) == AfterInsert(s, kind, res)
  {
    hide LeasedOnce, HandleOrTomb;
    assert s.nextOp !in s.flight;
    assert !s.reg.Has(s.nextId);
  }

  /** A wrapped stream is leased as wrapped, by a write codec as an encoder; a stream that
      a handshake secured as secured; and a lease that ended as it was. */
  lemma ReplacedIsLeased(s: State, id: nat, write: bool, name: nat, op: nat)
    requires Inv(s)
    ensures id in s.reg.streams ==>
              Leases(AfterWrap(s, id, write, name), Stream, id, Resource(name, s.reg.streams[id].encoder || write))
    ensures op in s.shaking ==>
              Leases(AfterTlsEnd(s, op, true, name), Stream, s.shaking[op].id, Resource(name, s.shaking[op].res.encoder))
    ensures op in s.flight && s.flight[op].id !in s.tombs ==>
              Leases(AfterEnd(s, op), s.flight[op].kind, s.flight[op].id, s.flight[op].res)
  {
    hide LeasedOnce, HandleOrTomb;
    assert s.nextOp !in s.flight;
  }

  lemma LeaseKept(s: State, step: Step, op: nat)
    requires Inv(s) && op in s.flight && step != End(op)
    ensures var t := Apply(s, step);
            op in t.flight && t.flight[op] == s.flight[op] &&
            (s.flight[op].id in t.tombs <==> s.flight[op].id in s.tombs || step == Close(s.flight[op].id))
  {
    hide HandleOrTomb, Held, Registries.Has, Registries.Disjoint, Registries.Set, Registries.Without, Unregistered;
    FlightLeased(s, op);
  }

  /** Whatever else happens, the operation keeps its lease until it ends, and the
      tombstone appears exactly with a close of its id. */
  lemma {:induction false} LeaseKeptInRun(s: State, steps: seq<Step>, op: nat)
    requires Inv(s) && op in s.flight && End(op) !in steps
    ensures var t := Run(s, steps);
            op in t.flight && t.flight[op] == s.flight[op] &&
            (s.flight[op].id in t.tombs <==> s.flight[op].id in s.tombs || Close(s.flight[op].id) in steps)
    decreases |steps|
  {
    hide Inv, Apply;
    if steps != [] {
      StepKeepsInv(s, steps[0]);
      LeaseKept(s, steps[0], op);
      LeaseKeptInRun(Apply(s, steps[0]), steps[1..], op);
    }
  }

  /** A lease ends either by putting the same resource back under the same id, or,
      exactly when its id was closed on the way, by dropping it for good; the
      operation is aborted exactly in the second case. */
  lemma LeaseReturns(s: State, steps: seq<Step>, op: nat)
    requires Inv(s) && op in s.flight && End(op) !in steps
    ensures var lease, t := s.flight[op], Run(s, steps);
            var u := AfterEnd(t, op);
            var closed := lease.id in s.tombs || Close(lease.id) in steps;
            (op in t.aborted <==> closed) &&
            (closed ==> NeverUsableAgain(u, lease.id)) &&
            (!closed ==> lease.id in u.reg.Of(lease.kind) && u.reg.Of(lease.kind)[lease.id] == lease.res)
  {
    hide NeverUsableAgain, Registries.Has, Registries.Disjoint;
    var lease, t := s.flight[op], Run(s, steps);
    RunKeepsInv(s, steps);
    LeaseKeptInRun(s, steps, op);
    EndKeeps(t, op);
    if lease.id in t.tombs {
      ClosedIsDead(t, op);
      NeverAgainIffDead(AfterEnd(t, op), lease.id);
    }
  }

  lemma ClosedIsDead(s: State, op: nat)
    requires Inv(s) && op in s.flight && s.flight[op].id in s.tombs
    ensures Dead(AfterEnd(s, op), s.flight[op].id)
  {
    hide Registries.Has, Registries.Disjoint;
    FlightLeased(s, op);
  }

  // ---- Trailers -----------------------------------------------------------------------------

  ghost predicate Encoders(reg: Registries, id: nat) {
    (id in reg.streams && reg.streams[id].encoder) ||
    (id in reg.listeners && reg.listeners[id].encoder) ||
    (id in reg.seekables && reg.seekables[id].encoder)
  }

  ghost predicate LentEncoder(held: map<nat, Lease>, id: nat) {
    exists op :: op in held && held[op].id == id && held[op].res.encoder
  }

  /** A live stream with a write codec, whose trailer is still to be written. */
  ghost predicate Owes(s: State, id: nat) {
    Encoders(s.reg, id) || (id !in s.tombs && LentEncoder(s.flight, id)) || LentEncoder(s.shaking, id)
  }

  /** Teardown knows of every stream that owes a trailer. */
  ghost predicate Covered(s: State) {
    forall id :: Owes(s, id) ==> id in s.pending
  }

  /** Streams enter the registries without a codec. */
  predicate PlainInsert(step: Step) {
    step.Insert? ==> !step.res.encoder
  }

  /** The steps that forget a trailer: a finish while the stream is out on another
      operation, so that it is not found although its entry for teardown is already
      cleared; and a close during its handshake. */
  ghost predicate ForgetsTrailer(s: State, step: Step) {
    (step.Finish? && step.id !in s.reg.streams && Owes(s, step.id)) ||
    (step.Close? && LentEncoder(s.shaking, step.id))
  }

  lemma EncoderSet(reg: Registries, kind: Kind, id: nat, res: Resource)
    requires reg.Disjoint() && (id in reg.Of(kind) || !reg.Has(id))
    ensures forall x: nat :: Encoders(reg.Set(kind, id, res), x) <==> if x == id then res.encoder else Encoders(reg, x)
  {
  }

  lemma EncoderWithout(reg: Registries, kind: Kind, id: nat)
    requires reg.Disjoint() && id in reg.Of(kind)
    ensures Encoders(reg, id) == reg.Of(kind)[id].encoder
    ensures forall x: nat :: Encoders(reg.Without(kind, id), x) <==> x != id && Encoders(reg, x)
  {
  }

  lemma EncoderUnregistered(reg: Registries, id: nat)
    ensures forall x: nat :: Encoders(Unregistered(reg, id), x) <==> x != id && Encoders(reg, x)
  {
  }

  lemma LentAfterAdd(held: map<nat, Lease>, op: nat, lease: Lease)
    requires op !in held
    ensures forall x :: LentEncoder(held[op := lease], x)
                    <==> LentEncoder(held, x) || (x == lease.id && lease.res.encoder)
  {
    var more := held[op := lease];
    assert more[op].id == lease.id;
    forall x | LentEncoder(held, x) ensures LentEncoder(more, x) {
      var o :| o in held && held[o].id == x && held[o].res.encoder;
      assert more[o].id == x;
    }
  }

  lemma LentAfterRemove(held: map<nat, Lease>, op: nat)
    requires HeldOnce(held) && op in held
    ensures LentEncoder(held, held[op].id) == held[op].res.encoder
    ensures forall x :: LentEncoder(Remove(held, op), x) <==> x != held[op].id && LentEncoder(held, x)
  {
    var fewer := Remove(held, op);
    forall x | x != held[op].id && LentEncoder(held, x) ensures LentEncoder(fewer, x) {
      var o :| o in held && held[o].id == x && held[o].res.encoder;
      assert fewer[o].id == x;
    }
  }

  lemma OwesAfterTake(s: State, kind: Kind, id: nat)
    requires Inv(s)
    ensures forall x :: Owes(AfterTake(s, kind, id), x) ==> Owes(s, x)
  {
    hide Encoders, LentEncoder, Registries.Has, Registries.Disjoint, Registries.Without, LeasedOnce;
    if id in s.reg.Of(kind) {
      InvDisjoint(s);
      EncoderWithout(s.reg, kind, id);
      LentAfterAdd(s.flight, s.nextOp, Lease(kind, id, s.reg.Of(kind)[id]));
    }
  }

  lemma OwesAfterEnd(s: State, op: nat)
    requires Inv(s)
    ensures forall x :: Owes(AfterEnd(s, op), x) ==> Owes(s, x)
  {
    hide Encoders, LentEncoder, Registries.Has, Registries.Disjoint, Registries.Set, HandleOrTomb;
    if op in s.flight {
      var lease := s.flight[op];
      FlightLeased(s, op);
      EncoderSet(s.reg, lease.kind, lease.id, lease.res);
      LentAfterRemove(s.flight, op);
    }
  }

  lemma OwesAfterTls(s: State, step: Step)
    requires Inv(s) && (step.TlsTake? || step.TlsEnd?)
    ensures forall x :: Owes(Apply(s, step), x) ==> Owes(s, x)
  {
    hide Encoders, LentEncoder, Held, Registries.Has, Registries.Disjoint, Registries.Set, Registries.Without, HandleOrTomb;
    match step {
      case TlsTake(id) =>
        if id in s.reg.streams {
          EncoderWithout(s.reg, Stream, id);
          LentAfterAdd(s.shaking, s.nextOp, Lease(Stream, id, s.reg.streams[id]));
        }
      case TlsEnd(op, established, name) =>
        if op in s.shaking {
          var held := s.shaking[op];
          EncoderSet(s.reg, Stream, held.id, Resource(name, held.res.encoder));
          LentAfterRemove(s.shaking, op);
        }
    }
  }

  lemma OwesAfterWrap(s: State, id: nat, write: bool, name: nat)
    requires Inv(s)
    ensures forall x :: Owes(AfterWrap(s, id, write, name), x) ==> Owes(s, x) || (write && x == id && id in s.reg.streams)
  {
    hide LentEncoder, Registries.Has, Registries.Disjoint, Registries.Set, HandleOrTomb, LeasedOnce;
    if id in s.reg.streams {
      EncoderSet(s.reg, Stream, id, Resource(name, s.reg.streams[id].encoder || write));
    }
  }

  lemma LentIsHeld(held: map<nat, Lease>, id: nat)
    requires LentEncoder(held, id)
    ensures Held(held, id)
  {
    var op :| op in held && held[op].id == id && held[op].res.encoder;
    HeldBy(held, op);
  }

  lemma OwesAfterClose(s: State, id: nat)
    requires Inv(s)
    ensures forall x :: x != id && Owes(AfterClose(s, id), x) ==> Owes(s, x)
    ensures Owes(AfterClose(s, id), id) <==> LentEncoder(s.shaking, id)
  {
    hide Encoders, Unregistered, OnePlace, HandleOrTomb, LentEncoder, Held, HeldOnce;
    EncoderUnregistered(s.reg, id);
    if LentEncoder(s.flight, id) {
      LentIsHeld(s.flight, id);
    }
  }

  lemma OwesAfterFinish(s: State, id: nat)
    requires Inv(s)
    ensures forall x :: x != id && Owes(AfterFinish(s, id), x) ==> Owes(s, x)
    ensures Owes(AfterFinish(s, id), id) <==> id !in s.reg.streams && Owes(s, id)
  {
    hide Encoders, HandleOrTomb, LentEncoder, Held, HeldOnce, Registries.Disjoint, Registries.Has;
    if id in s.reg.streams {
      OfHas(s.reg, Stream, id);
      NotHeld(s, id);
      EncoderWithout(s.reg, Stream, id);
      if LentEncoder(s.flight, id) {
        LentIsHeld(s.flight, id);
      }
      if LentEncoder(s.shaking, id) {
        LentIsHeld(s.shaking, id);
      }
    } else {
      assert Remove(s.reg.streams, id) == s.reg.streams;
    }
  }

  lemma OwesAfterInsert(s: State, kind: Kind, res: Resource)
    requires Inv(s) && !res.encoder
    ensures forall x :: Owes(AfterInsert(s, kind, res), x) ==> Owes(s, x)
  {
    hide Encoders, HandleOrTomb, LeasedOnce, LentEncoder, Registries.Disjoint, Registries.Has, Registries.Set;
    EncoderSet(s.reg, kind, s.nextId, res);
  }

  /** Every other step keeps each trailer known; these steps lose one, exactly. */
  lemma TrailersKeptIff(s: State, step: Step)
    requires Inv(s) && Covered(s) && PlainInsert(step)
    ensures Covered(Apply(s, step)) <==> !ForgetsTrailer(s, step)
  {
    hide Inv, Owes, AfterTake, AfterEnd, AfterTlsTake, AfterTlsEnd, AfterInsert, LentEncoder;
    match step {
      case Insert(kind, res) => OwesAfterInsert(s, kind, res); PendingKept(s, step);
      case Spawn => OwesSame(s, Apply(s, Spawn));
      case Take(kind, id) => OwesAfterTake(s, kind, id); PendingKept(s, step);
      case End(op) => OwesAfterEnd(s, op); PendingKept(s, step);
      case Close(id) => OwesAfterClose(s, id);
      case AsyncClose(id) => OwesAfterAsyncClose(s, id);
      case Wrap(id, write, name) => OwesAfterWrap(s, id, write, name);
      case Finish(id) => OwesAfterFinish(s, id);
      case TlsTake(_) => OwesAfterTls(s, step); PendingKept(s, step);
      case TlsEnd(_, _, _) => OwesAfterTls(s, step); PendingKept(s, step);
    }
  }

  lemma PendingKept(s: State, step: Step)
    requires step.Insert? || step.Take? || step.End? || step.TlsTake? || step.TlsEnd?
    ensures Apply(s, step).pending == s.pending
  {
  }

  lemma OwesSame(s: State, t: State)
    requires t.reg == s.reg && t.tombs == s.tombs && t.flight == s.flight && t.shaking == s.shaking
    ensures forall x :: Owes(t, x) <==> Owes(s, x)
  {
  }

  lemma OwesAfterAsyncClose(s: State, id: nat)
    ensures forall x :: Owes(Apply(s, AsyncClose(id)), x) ==> Owes(s, x)
  {
    hide Encoders, LentEncoder, Unregistered;
    EncoderUnregistered(s.reg, id);
  }

  ghost predicate NothingForgotten(s: State, steps: seq<Step>)
    decreases |steps|
  {
    steps == [] ||
    (PlainInsert(steps[0]) && !ForgetsTrailer(s, steps[0]) && NothingForgotten(Apply(s, steps[0]), steps[1..]))
  }

  /** Over every run without such a step, teardown will find each live encoder. */
  lemma {:induction false} TrailersKept(s: State, steps: seq<Step>)
    requires Inv(s) && Covered(s) && NothingForgotten(s, steps)
    ensures Covered(Run(s, steps))
    decreases |steps|
  {
    hide Inv, Covered, Apply, ForgetsTrailer;
    if steps != [] {
      StepKeepsInv(s, steps[0]);
      TrailersKeptIff(s, steps[0]);
      TrailersKept(Apply(s, steps[0]), steps[1..]);
    }
  }

  lemma {:induction false} RunSnoc(s: State, steps: seq<Step>, step: Step)
    ensures Run(s, steps + [step]) == Apply(Run(s, steps), step)
    decreases |steps|
  {
    hide Apply;
    if steps == [] {
      assert [] + [step] == [step];
      RunOne(s, step);
    } else {
      assert (steps + [step])[1..] == steps[1..] + [step];
      RunSnoc(Apply(s, steps[0]), steps[1..], step);
    }
  }

  /** Step `i` wraps the stream `id`, which is there, in a write codec. */
  ghost predicate WrapsForWriting(steps: seq<Step>, id: nat, i: nat) {
    i < |steps| && steps[i].Wrap? && steps[i].id == id && steps[i].write && id in Run(Empty, steps[..i]).reg.streams
  }

  ghost predicate WrappedSince(steps: seq<Step>, n: nat, id: nat) {
    n <= |steps| && exists i: nat :: i < n && WrapsForWriting(steps, id, i) && forall j :: i < j < n ==> steps[j] != Close(id) && steps[j] != Finish(id)
  }

  /** Over every run teardown is to finish exactly the streams wrapped in a write codec
      that were neither closed nor finished since. */
  lemma {:induction false} PendingIff(steps: seq<Step>, n: nat, id: nat)
    requires n <= |steps|
    ensures id in Run(Empty, steps[..n]).pending <==> WrappedSince(steps, n, id)
    decreases n
  {
    hide Run, Apply, WrapsForWriting;
    if n == 0 {
      assert steps[..0] == [] && Run(Empty, []) == Empty by { NoSteps(); }
    } else {
      PendingIff(steps, n - 1, id);
      assert steps[..n] == steps[..n - 1] + [steps[n - 1]];
      RunSnoc(Empty, steps[..n - 1], steps[n - 1]);
      PendingAfter(Run(Empty, steps[..n - 1]), steps[n - 1], id);
      assert WrapsForWriting(steps, id, n - 1) <==>
             steps[n - 1].Wrap? && steps[n - 1].id == id && steps[n - 1].write && id in Run(Empty, steps[..n - 1]).reg.streams by { WrapsHere(steps, id, n - 1); }
      if WrappedSince(steps, n - 1, id) && steps[n - 1] != Close(id) && steps[n - 1] != Finish(id) {
        var i: nat :| i < n - 1 && WrapsForWriting(steps, id, i) && forall j :: i < j < n - 1 ==> steps[j] != Close(id) && steps[j] != Finish(id);
        assert forall j :: i < j < n ==> steps[j] != Close(id) && steps[j] != Finish(id);
      }
      if WrappedSince(steps, n, id) && !WrapsForWriting(steps, id, n - 1) {
        var i: nat :| i < n && WrapsForWriting(steps, id, i) && forall j :: i < j < n ==> steps[j] != Close(id) && steps[j] != Finish(id);
        assert i < n - 1;
      }
    }
  }

  lemma NoSteps()
    ensures Run(Empty, []) == Empty
  {
  }

  lemma WrapsHere(steps: seq<Step>, id: nat, i: nat)
    requires i < |steps|
    ensures WrapsForWriting(steps, id, i) <==> steps[i].Wrap? && steps[i].id == id && steps[i].write && id in Run(Empty, steps[..i]).reg.streams
  {
  }

  lemma PendingAfter(s: State, step: Step, id: nat)
    ensures id in Apply(s, step).pending <==>
              (step.Wrap? && step.id == id && step.write && id in s.reg.streams) || (id in s.pending && step != Close(id) && step != Finish(id))
  {
    hide Unregistered;
  }

  /** The lost trailer: a compressed stream is written to while it is finished. The
      write ends, the stream is open again, and teardown no longer knows of it. */
  lemma FinishDuringWrite()
    ensures var steps := [Insert(Stream, Resource(7, false)), Wrap(0, true, 8), Take(Stream, 0), Finish(0), End(0)];
            var s := Run(Empty, steps);
            s.reg.streams == map[0 := Resource(8, true)] && s.pending == {}
  {
    var s1 := Apply(Empty, Insert(Stream, Resource(7, false)));
    var s2 := Apply(s1, Wrap(0, true, 8));
    var s3 := Apply(s2, Take(Stream, 0));
    var s4 := Apply(s3, Finish(0));
    var s5 := Apply(s4, End(0));
    assert s1.reg.streams == map[0 := Resource(7, false)];
    assert s2.reg.streams == map[0 := Resource(8, true)];
    assert s3.reg.streams == map[] && s3.flight == map[0 := Lease(Stream, 0, Resource(8, true))];
    assert s4.reg.streams == map[] && s4.pending == {};
    assert s5.reg.streams == map[0 := Resource(8, true)];
    FiveSteps(Empty, Insert(Stream, Resource(7, false)), Wrap(0, true, 8), Take(Stream, 0), Finish(0), End(0));
  }

  lemma FiveSteps(s: State, a: Step, b: Step, c: Step, d: Step, e: Step)
    ensures Run(s, [a, b, c, d, e]) == Apply(Apply(Apply(Apply(Apply(s, a), b), c), d), e)
  {
    hide Apply, Run;
    RunCons(s, a, [b, c, d, e]);
    RunCons(Apply(s, a), b, [c, d, e]);
    RunCons(Apply(Apply(s, a), b), c, [d, e]);
    RunCons(Apply(Apply(Apply(s, a), b), c), d, [e]);
    RunOne(Apply(Apply(Apply(Apply(s, a), b), c), d), e);
    assert [a] + [b, c, d, e] == [a, b, c, d, e];
    assert [b] + [c, d, e] == [b, c, d, e];
    assert [c] + [d, e] == [c, d, e] && [d] + [e] == [d, e];
  }

  lemma RunCons(s: State, step: Step, rest: seq<Step>)
    ensures Run(s, [step] + rest) == Run(Apply(s, step), rest)
  {
    assert ([step] + rest)[1..] == rest;
  }
}
