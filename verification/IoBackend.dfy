/** The lease, tombstone and abort protocol of the native I/O backend
    (src/io_backend_smol.rs). One `Step` is one uninterrupted stretch of the
    single-threaded executor, so a sequence of steps is an interleaving of
    in-flight operations with closes, cancellations and timeouts. */
module IoBackend {

  datatype Kind = Stream | Listener | Seekable

  /** `encoder` says that a write codec is wrapped around the stream, whose
      trailer is written only when the stream is finished. */
  datatype Resource = Resource(name: nat, encoder: bool)

  /** What an operation holds while it is in flight. */
  datatype Lease = Lease(kind: Kind, id: nat, res: Resource)

  /** Streams, listeners and random-access files share one id space. */
  datatype Registries = Registries(
    streams: map<nat, Resource>,
    listeners: map<nat, Resource>,
    seekables: map<nat, Resource>)
  {
    function Of(kind: Kind): map<nat, Resource> {
      match kind
      case Stream => streams
      case Listener => listeners
      case Seekable => seekables
    }

    function Set(kind: Kind, id: nat, res: Resource): Registries {
      match kind
      case Stream => this.(streams := streams[id := res])
      case Listener => this.(listeners := listeners[id := res])
      case Seekable => this.(seekables := seekables[id := res])
    }

    function Without(kind: Kind, id: nat): Registries {
      match kind
      case Stream => this.(streams := Remove(streams, id))
      case Listener => this.(listeners := Remove(listeners, id))
      case Seekable => this.(seekables := Remove(seekables, id))
    }

    predicate Has(id: nat) {
      id in streams || id in listeners || id in seekables
    }

    ghost predicate Disjoint() {
      streams.Keys !! listeners.Keys && streams.Keys !! seekables.Keys && listeners.Keys !! seekables.Keys
    }
  }

  datatype State = State(
    reg: Registries,
    leased: set<nat>,
    tombs: set<nat>,
    aborts: map<nat, nat>,
    pending: set<nat>,
    nextId: nat,
    // The operations in flight, by number; the aborted ones among them; and the
    // TLS handshakes, which hold their stream without a lease.
    flight: map<nat, Lease>,
    aborted: set<nat>,
    shaking: map<nat, Lease>,
    nextOp: nat)

  datatype Step =
    | Insert(kind: Kind, res: Resource)
    | Spawn
    | Take(kind: Kind, id: nat)
    | End(op: nat)
    | Close(id: nat)
    | AsyncClose(id: nat)
    | Wrap(id: nat, write: bool, name: nat)
    | Finish(id: nat)
    | TlsTake(id: nat)
    | TlsEnd(op: nat, established: bool, name: nat)

  function Remove<V>(m: map<nat, V>, key: nat): map<nat, V> {
    m - {key}
  }

  function AfterInsert(s: State, kind: Kind, res: Resource): State {
    s.(reg := s.reg.Set(kind, s.nextId, res), nextId := s.nextId + 1)
  }

  /** Taking a lease and registering its abort handle. */
  function AfterTake(s: State, kind: Kind, id: nat): State {
    if id !in s.reg.Of(kind) then s
    else
      s.(reg := s.reg.Without(kind, id),
         leased := s.leased + {id},
         aborts := s.aborts[id := s.nextOp],
         flight := s.flight[s.nextOp := Lease(kind, id, s.reg.Of(kind)[id])],
         nextOp := s.nextOp + 1)
  }

  /** The lease of an operation is dropped: it finished, failed, timed out, was
      cancelled or was aborted. */
  function AfterEnd(s: State, op: nat): State {
    if op !in s.flight then s
    else
      var lease := s.flight[op];
      s.(leased := s.leased - {lease.id},
         aborts := Remove(s.aborts, lease.id),
         tombs := s.tombs - {lease.id},
         flight := Remove(s.flight, op),
         reg := if lease.id in s.tombs then s.reg else s.reg.Set(lease.kind, lease.id, lease.res))
  }

  function Unregistered(reg: Registries, id: nat): Registries {
    Registries(Remove(reg.streams, id), Remove(reg.listeners, id), Remove(reg.seekables, id))
  }

  function AfterClose(s: State, id: nat): State {
    var t := s.(reg := Unregistered(s.reg, id), pending := s.pending - {id});
    if id !in s.leased then t
    else
      t.(tombs := s.tombs + {id},
         aborts := Remove(s.aborts, id),
         aborted := if id in s.aborts then s.aborted + {s.aborts[id]} else s.aborted)
  }

  function AfterWrap(s: State, id: nat, write: bool, name: nat): State {
    if id !in s.reg.streams then s
    else
      s.(pending := if write then s.pending + {id} else s.pending,
         reg := s.reg.Set(Stream, id, Resource(name, s.reg.streams[id].encoder || write)))
  }

  function AfterFinish(s: State, id: nat): State {
    s.(pending := s.pending - {id}, reg := s.reg.Without(Stream, id))
  }

  function AfterTlsTake(s: State, id: nat): State {
    if id !in s.reg.streams then s
    else
      s.(reg := s.reg.Without(Stream, id),
         shaking := s.shaking[s.nextOp := Lease(Stream, id, s.reg.streams[id])],
         nextOp := s.nextOp + 1)
  }

  function AfterTlsEnd(s: State, op: nat, established: bool, name: nat): State {
    if op !in s.shaking then s
    else
      var held := s.shaking[op];
      s.(shaking := Remove(s.shaking, op),
         reg := if established then s.reg.Set(Stream, held.id, Resource(name, held.res.encoder)) else s.reg)
  }

  function Apply(s: State, step: Step): State {
    match step
    case Insert(kind, res) => AfterInsert(s, kind, res)
    case Spawn => s.(nextId := s.nextId + 1)
    case Take(kind, id) => AfterTake(s, kind, id)
    case End(op) => AfterEnd(s, op)
    case Close(id) => AfterClose(s, id)
    case AsyncClose(id) => s.(reg := Unregistered(s.reg, id))
    case Wrap(id, write, name) => AfterWrap(s, id, write, name)
    case Finish(id) => AfterFinish(s, id)
    case TlsTake(id) => AfterTlsTake(s, id)
    case TlsEnd(op, established, name) => AfterTlsEnd(s, op, established, name)
  }

  function Run(s: State, steps: seq<Step>): State
    decreases |steps|
  {
    if steps == [] then s else Run(Apply(s, steps[0]), steps[1..])
  }

  const Empty: State := State(Registries(map[], map[], map[]), {}, {}, map[], {}, 0, map[], {}, map[], 0)

  // ---- The invariant ------------------------------------------------------------------

  /** Each id is in one registry, leased, in a handshake, or gone. */
  ghost predicate OnePlace(s: State) {
    s.reg.Disjoint() &&
    (forall id :: id in s.leased ==> !s.reg.Has(id)) &&
    (forall op :: op in s.shaking ==> !s.reg.Has(s.shaking[op].id) && s.shaking[op].id !in s.leased)
  }

  ghost predicate Held(flight: map<nat, Lease>, id: nat) {
    exists op :: op in flight && flight[op].id == id
  }

  ghost predicate HeldOnce(flight: map<nat, Lease>) {
    forall o, p :: o in flight && p in flight && flight[o].id == flight[p].id ==> o == p
  }

  /** Leased ids are exactly those of the operations in flight, each held once. */
  ghost predicate LeasedOnce(s: State) {
    (forall id :: id in s.leased <==> Held(s.flight, id)) && HeldOnce(s.flight) && HeldOnce(s.shaking)
  }

  /** A leased id has either the abort handle of its own operation or a tombstone,
      and an operation in flight is aborted exactly under a tombstone. */
  ghost predicate HandleOrTomb(s: State) {
    s.aborts.Keys !! s.tombs && s.aborts.Keys + s.tombs == s.leased &&
    (forall id :: id in s.aborts ==> s.aborts[id] in s.flight && s.flight[s.aborts[id]].id == id) &&
    (forall op :: op in s.flight ==> (op in s.aborted <==> s.flight[op].id in s.tombs))
  }

  ghost predicate Bounded(s: State) {
    (forall id: nat :: s.reg.Has(id) ==> id < s.nextId) &&
    (forall id :: id in s.leased ==> id < s.nextId) &&
    (forall op :: op in s.flight ==> op < s.nextOp) &&
    (forall op :: op in s.aborted ==> op < s.nextOp) &&
    (forall op :: op in s.shaking ==> op < s.nextOp && s.shaking[op].id < s.nextId)
  }

  ghost predicate Inv(s: State) {
    OnePlace(s) && LeasedOnce(s) && HandleOrTomb(s) && Bounded(s)
  }

  // What each change of the registries does to the ids they hold.

  lemma SetHas(reg: Registries, kind: Kind, id: nat, res: Resource)
    requires reg.Disjoint() && (id in reg.Of(kind) || !reg.Has(id))
    ensures reg.Set(kind, id, res).Disjoint()
    ensures forall x: nat :: reg.Set(kind, id, res).Has(x) <==> reg.Has(x) || x == id
  {
  }

  lemma WithoutHas(reg: Registries, kind: Kind, id: nat)
    requires reg.Disjoint()
    ensures reg.Without(kind, id).Disjoint()
    ensures id in reg.Of(kind) ==> forall x: nat :: reg.Without(kind, id).Has(x) <==> reg.Has(x) && x != id
    ensures forall x: nat :: reg.Without(kind, id).Has(x) ==> reg.Has(x)
  {
  }

  lemma UnregisteredHas(reg: Registries, id: nat)
    requires reg.Disjoint()
    ensures Unregistered(reg, id).Disjoint()
    ensures forall x: nat :: Unregistered(reg, id).Has(x) <==> reg.Has(x) && x != id
  {
  }

  lemma OfHas(reg: Registries, kind: Kind, id: nat)
    requires id in reg.Of(kind)
    ensures reg.Has(id)
  {
  }

  lemma HeldAfterAdd(flight: map<nat, Lease>, op: nat, lease: Lease)
    requires HeldOnce(flight) && !Held(flight, lease.id) && op !in flight
    ensures HeldOnce(flight[op := lease])
    ensures forall id :: Held(flight[op := lease], id) <==> Held(flight, id) || id == lease.id
  {
    var more := flight[op := lease];
    assert more[op].id == lease.id;
    forall id | Held(flight, id) ensures Held(more, id) {
      var o :| o in flight && flight[o].id == id;
      assert more[o].id == id;
    }
  }

  lemma HeldAfterRemove(flight: map<nat, Lease>, op: nat)
    requires HeldOnce(flight) && op in flight
    ensures HeldOnce(Remove(flight, op))
    ensures forall id :: Held(Remove(flight, op), id) <==> Held(flight, id) && id != flight[op].id
  {
    var fewer := Remove(flight, op);
    forall id | Held(flight, id) && id != flight[op].id ensures Held(fewer, id) {
      var o :| o in flight && flight[o].id == id;
      assert fewer[o].id == id;
    }
  }

  lemma NotHeld(s: State, id: nat)
    requires OnePlace(s) && LeasedOnce(s) && s.reg.Has(id)
    ensures !Held(s.flight, id) && !Held(s.shaking, id)
  {
  }

  lemma TakeLeased(s: State, kind: Kind, id: nat)
    requires Inv(s) && id in s.reg.Of(kind)
    ensures LeasedOnce(AfterTake(s, kind, id))
  {
    hide HandleOrTomb, Held, HeldOnce, Registries.Has, Registries.Disjoint, Registries.Of, Registries.Without;
    OfHas(s.reg, kind, id);
    NotHeld(s, id);
    HeldAfterAdd(s.flight, s.nextOp, Lease(kind, id, s.reg.Of(kind)[id]));
  }

  lemma TakeHandles(s: State, kind: Kind, id: nat)
    requires OnePlace(s) && HandleOrTomb(s) && Bounded(s)
    ensures HandleOrTomb(AfterTake(s, kind, id))
  {
    hide Registries.Has, Registries.Disjoint, Registries.Of, Registries.Without;
    if id in s.reg.Of(kind) {
      OfHas(s.reg, kind, id);
    }
  }

  lemma TakePlace(s: State, kind: Kind, id: nat)
    requires OnePlace(s) && Bounded(s) && id in s.reg.Of(kind)
    ensures OnePlace(AfterTake(s, kind, id)) && Bounded(AfterTake(s, kind, id))
  {
    hide Registries.Has, Registries.Disjoint, Registries.Of, Registries.Without;
    OfHas(s.reg, kind, id);
    WithoutHas(s.reg, kind, id);
  }

  lemma TakeKeeps(s: State, kind: Kind, id: nat)
    requires Inv(s)
    ensures Inv(AfterTake(s, kind, id))
  {
    hide OnePlace, LeasedOnce, HandleOrTomb, Bounded;
    if id in s.reg.Of(kind) {
      TakePlace(s, kind, id);
      TakeLeased(s, kind, id);
      TakeHandles(s, kind, id);
    }
  }

  lemma EndPlace(s: State, op: nat)
    requires OnePlace(s) && LeasedOnce(s) && Bounded(s) && op in s.flight
    ensures OnePlace(AfterEnd(s, op)) && Bounded(AfterEnd(s, op))
  {
    hide HeldOnce, Registries.Has, Registries.Disjoint, Registries.Set;
    var lease := s.flight[op];
    assert Held(s.flight, lease.id);
    SetHas(s.reg, lease.kind, lease.id, lease.res);
  }

  lemma EndHandles(s: State, op: nat)
    requires HandleOrTomb(s) && HeldOnce(s.flight) && op in s.flight
    ensures HandleOrTomb(AfterEnd(s, op))
  {
    hide Registries.Set;
    var t := AfterEnd(s, op);
    assert forall p :: p in t.flight ==> p in s.flight && s.flight[p].id != s.flight[op].id;
  }

  lemma EndKeeps(s: State, op: nat)
    requires Inv(s)
    ensures Inv(AfterEnd(s, op))
  {
    hide OnePlace, HandleOrTomb, Bounded, Held, HeldOnce, Registries.Set;
    if op in s.flight {
      EndPlace(s, op);
      EndHandles(s, op);
      HeldAfterRemove(s.flight, op);
    }
  }

  lemma CloseHandles(s: State, id: nat)
    requires HandleOrTomb(s) && HeldOnce(s.flight)
    ensures HandleOrTomb(AfterClose(s, id))
  {
    hide Unregistered;
  }

  lemma ClosePlace(s: State, id: nat)
    requires OnePlace(s) && Bounded(s) && HandleOrTomb(s)
    ensures OnePlace(AfterClose(s, id)) && Bounded(AfterClose(s, id))
  {
    hide Registries.Has, Registries.Disjoint, Unregistered;
    UnregisteredHas(s.reg, id);
  }

  lemma CloseKeeps(s: State, id: nat)
    requires Inv(s)
    ensures Inv(AfterClose(s, id))
  {
    hide OnePlace, HandleOrTomb, Bounded, Held, HeldOnce, Unregistered;
    ClosePlace(s, id);
    CloseHandles(s, id);
  }

  /** A step that only takes ids out of the registries, or puts in ids that are
      nowhere else, keeps the invariant. */
  lemma RegistryChange(s: State, t: State)
    requires Inv(s) && t == s.(reg := t.reg, nextId := t.nextId, pending := t.pending)
    requires t.reg.Disjoint() && t.nextId >= s.nextId
    requires forall x: nat :: t.reg.Has(x) ==> s.reg.Has(x) || s.nextId <= x < t.nextId
    ensures Inv(t)
  {
    hide Registries.Has, Registries.Disjoint, Held, HeldOnce;
  }

  lemma RegistryStepKeeps(s: State, step: Step)
    requires Inv(s) && (step.Insert? || step.Spawn? || step.AsyncClose? || step.Wrap? || step.Finish?)
    ensures Inv(Apply(s, step))
  {
    hide LeasedOnce, HandleOrTomb, Registries.Has, Registries.Disjoint, Registries.Set, Registries.Without, Unregistered;
    var t := Apply(s, step);
    match step {
      case Insert(kind, res) => SetHas(s.reg, kind, s.nextId, res);
      case AsyncClose(id) => UnregisteredHas(s.reg, id);
      case Wrap(id, write, name) =>
        if id in s.reg.streams {
          OfHas(s.reg, Stream, id);
          SetHas(s.reg, Stream, id, Resource(name, s.reg.streams[id].encoder || write));
        }
      case Finish(id) => WithoutHas(s.reg, Stream, id);
      case Spawn =>
    }
    RegistryChange(s, t);
  }

  lemma TlsTakeKeeps(s: State, id: nat)
    requires Inv(s)
    ensures Inv(AfterTlsTake(s, id))
  {
    hide Held, HeldOnce, Registries.Has, Registries.Disjoint, Registries.Without;
    if id in s.reg.streams {
      OfHas(s.reg, Stream, id);
      NotHeld(s, id);
      WithoutHas(s.reg, Stream, id);
      HeldAfterAdd(s.shaking, s.nextOp, Lease(Stream, id, s.reg.streams[id]));
    }
  }

  lemma TlsEndKeeps(s: State, op: nat, established: bool, name: nat)
    requires Inv(s)
    ensures Inv(AfterTlsEnd(s, op, established, name))
  {
    hide Held, Registries.Has, Registries.Disjoint, Registries.Set;
    if op in s.shaking {
      var held := s.shaking[op];
      SetHas(s.reg, Stream, held.id, Resource(name, held.res.encoder));
      HeldAfterRemove(s.shaking, op);
    }
  }

  /** Every step keeps the protocol's invariant. */
  lemma StepKeepsInv(s: State, step: Step)
    requires Inv(s)
    ensures Inv(Apply(s, step))
  {
    hide AfterTake, AfterEnd, AfterClose, AfterTlsTake, AfterTlsEnd, OnePlace, LeasedOnce, HandleOrTomb;
    match step {
      case Take(kind, id) => TakeKeeps(s, kind, id);
      case End(op) => EndKeeps(s, op);
      case Close(id) => CloseKeeps(s, id);
      case TlsTake(id) => TlsTakeKeeps(s, id);
      case TlsEnd(op, established, name) => TlsEndKeeps(s, op, established, name);
      case _ => RegistryStepKeeps(s, step);
    }
  }

  lemma {:induction false} RunKeepsInv(s: State, steps: seq<Step>)
    requires Inv(s)
    ensures Inv(Run(s, steps))
    decreases |steps|
  {
    hide Inv, Apply;
    if steps != [] {
      StepKeepsInv(s, steps[0]);
      RunKeepsInv(Apply(s, steps[0]), steps[1..]);
    }
  }
}
