/** The backend object: its fields are the registries and the lease bookkeeping,
    and each method is one step of the protocol. */
module SmolBackend {
  import opened Wrappers
  import opened IoBackend
  import opened IoBackendRuns

  class SmolInner {
    var streams: map<nat, Resource>
    var listeners: map<nat, Resource>
    var seekables: map<nat, Resource>
    var leased: set<nat>
    var closedWhileLeased: set<nat>
    var opAborts: map<nat, nat>
    var finishPending: set<nat>
    var nextId: nat
    // The futures the executor is polling.
    var flight: map<nat, Lease>
    var aborted: set<nat>
    var shaking: map<nat, Lease>
    var nextOp: nat

    function View(): State
      reads this
    {
      State(Registries(streams, listeners, seekables), leased, closedWhileLeased, opAborts, finishPending, nextId,
            flight, aborted, shaking, nextOp)
    }

    ghost predicate Valid()
      reads this
    {
      Inv(View())
    }

    constructor ()
      ensures View() == Empty && Valid()
    {
      streams, listeners, seekables := map[], map[], map[];
      leased, closedWhileLeased, opAborts, finishPending, nextId := {}, {}, map[], {}, 0;
      flight, aborted, shaking, nextOp := map[], {}, map[], 0;
    }

    /** src/io_backend_smol.rs:202-228. */
    method InsertResource(kind: Kind, res: Resource) returns (id: nat)
      requires Valid()
      modifies this
      ensures Valid() && View() == Apply(old(View()), Insert(kind, res)) && id == old(nextId)
    {
      hide Inv;
      StepKeepsInv(View(), Insert(kind, res));
      id := nextId;
      nextId := nextId + 1;
      match kind {
        case Stream => streams := streams[id := res];
        case Listener => listeners := listeners[id := res];
        case Seekable => seekables := seekables[id := res];
      }
    }

    /** Leasing a resource to an operation, with its abort handle
        (src/io_backend_smol.rs:394-402, 435-450, 482-497, 553-557). */
    method TakeLease(kind: Kind, id: nat) returns (op: Option<nat>)
      requires Valid()
      modifies this
      ensures Valid() && View() == Apply(old(View()), Take(kind, id))
      ensures op == if id in old(View()).reg.Of(kind) then Some(old(nextOp)) else None
    {
      hide Inv, Remove;
      StepKeepsInv(View(), Take(kind, id));
      if id !in View().reg.Of(kind) {
        return None;
      }
      var res := View().reg.Of(kind)[id];
      match kind {
        case Stream => streams := Remove(streams, id);
        case Listener => listeners := Remove(listeners, id);
        case Seekable => seekables := Remove(seekables, id);
      }
      op := Some(nextOp);
      leased, opAborts := leased + {id}, opAborts[id := nextOp];
      flight, nextOp := flight[nextOp := Lease(kind, id, res)], nextOp + 1;
    }

    /** Dropping the lease of an operation (src/io_backend_smol.rs:410-425, 460-470, 505-515). */
    method DropLease(op: nat)
      requires Valid() && op in flight
      modifies this
      ensures Valid() && View() == Apply(old(View()), End(op))
    {
      hide Inv, Remove;
      StepKeepsInv(View(), End(op));
      var lease := flight[op];
      flight := Remove(flight, op);
      leased := leased - {lease.id};
      opAborts := Remove(opAborts, lease.id);
      var closed := lease.id in closedWhileLeased;
      closedWhileLeased := closedWhileLeased - {lease.id};
      if !closed {
        match lease.kind {
          case Stream => streams := streams[lease.id := lease.res];
          case Listener => listeners := listeners[lease.id := lease.res];
          case Seekable => seekables := seekables[lease.id := lease.res];
        }
      } else {
        assert old(closedWhileLeased) - {lease.id} == closedWhileLeased;
      }
    }

    /** Tombstone and abort (src/io_backend_smol.rs:1165-1170). */
    method AbortLeased(id: nat)
      modifies this`closedWhileLeased, this`opAborts, this`aborted
      ensures closedWhileLeased == old(closedWhileLeased) + {id} && opAborts == Remove(old(opAborts), id)
      ensures aborted == if id in old(opAborts) then old(aborted) + {old(opAborts)[id]} else old(aborted)
    {
      closedWhileLeased := closedWhileLeased + {id};
      if id in opAborts {
        aborted := aborted + {opAborts[id]};
      }
      opAborts := Remove(opAborts, id);
    }

    /** src/io_backend_smol.rs:1151-1171. */
    method CloseId(id: nat)
      requires Valid()
      modifies this
      ensures Valid() && View() == Apply(old(View()), Close(id))
      ensures id < nextId && !Held(old(shaking), id) ==> NeverUsableAgain(View(), id)
    {
      hide Inv, NeverUsableAgain, Held, Remove;
      StepKeepsInv(View(), Close(id));
      ghost var closed := AfterClose(View(), id);
      if id < nextId {
        CloseIsFinal(View(), id);
      }
      streams, listeners, seekables := Remove(streams, id), Remove(listeners, id), Remove(seekables, id);
      finishPending := finishPending - {id};
      if id in leased {
        AbortLeased(id);
      }
      assert View() == closed;
    }

    /** src/io_backend_smol.rs:738-746. */
    method PerformClose(id: nat)
      requires Valid()
      modifies this
      ensures Valid() && View() == Apply(old(View()), AsyncClose(id))
    {
      hide Inv;
      StepKeepsInv(View(), AsyncClose(id));
      streams := Remove(streams, id);
      listeners := Remove(listeners, id);
      seekables := Remove(seekables, id);
    }

    /** src/io_backend_smol.rs:793-811. */
    method WrapStream(id: nat, write: bool, name: nat) returns (ok: bool)
      requires Valid()
      modifies this
      ensures Valid() && View() == Apply(old(View()), Wrap(id, write, name))
      ensures ok == (id in old(streams))
    {
      hide Inv;
      StepKeepsInv(View(), Wrap(id, write, name));
      ok := id in streams;
      if ok {
        var stream := streams[id];
        if write {
          finishPending := finishPending + {id};
        }
        streams := streams[id := Resource(name, stream.encoder || write)];
      }
    }

    /** src/io_backend_smol.rs:812-827. */
    method FinishStream(id: nat) returns (finished: bool)
      requires Valid()
      modifies this
      ensures Valid() && View() == Apply(old(View()), Finish(id))
      ensures finished == (id in old(streams))
    {
      hide Inv;
      StepKeepsInv(View(), Finish(id));
      finishPending := finishPending - {id};
      finished := id in streams;
      streams := Remove(streams, id);
    }

    /** A TLS handshake takes the stream without a lease (src/io_backend_smol.rs:1082-1094). */
    method StartHandshake(id: nat) returns (op: Option<nat>)
      requires Valid()
      modifies this
      ensures Valid() && View() == Apply(old(View()), TlsTake(id))
      ensures op == if id in old(streams) then Some(old(nextOp)) else None
    {
      hide Inv, Remove;
      StepKeepsInv(View(), TlsTake(id));
      if id !in streams {
        return None;
      }
      op := Some(nextOp);
      shaking, nextOp := shaking[nextOp := Lease(Stream, id, streams[id])], nextOp + 1;
      streams := Remove(streams, id);
    }

    /** The secured stream takes over the id; a failed handshake drops it
        (src/io_backend_smol.rs:1095-1111). */
    method EndHandshake(op: nat, established: bool, name: nat)
      requires Valid() && op in shaking
      modifies this
      ensures Valid() && View() == Apply(old(View()), TlsEnd(op, established, name))
    {
      hide Inv, Remove;
      StepKeepsInv(View(), TlsEnd(op, established, name));
      var held := shaking[op];
      shaking := Remove(shaking, op);
      if established {
        streams := streams[held.id := Resource(name, held.res.encoder)];
      }
    }

    /** Teardown finishes the streams still pending (src/io_backend_smol.rs:46-62):
        each registered one once and, if no trailer was forgotten, every encoder. */
    method Teardown() returns (finished: seq<nat>)
      requires Valid()
      modifies this
      ensures Distinct(finished)
      ensures forall id :: id in finished <==> id in old(finishPending) && id in old(streams)
      ensures streams == map id | id in old(streams) && id !in old(finishPending) :: old(streams)[id]
      ensures finishPending == {}
      ensures old(Covered(View())) ==> forall id :: id in streams ==> !streams[id].encoder
    {
      hide Inv;
      ghost var before := View();
      finished := [];
      var pending := finishPending;
      finishPending := {};
      while pending != {}
        invariant pending <= old(finishPending) && finishPending == {}
        invariant Distinct(finished)
        invariant forall id :: id in finished <==> id in old(finishPending) - pending && id in old(streams)
        invariant streams == map id | id in old(streams) && id !in old(finishPending) - pending :: old(streams)[id]
        decreases |pending|
      {
        var id :| id in pending;
        pending := pending - {id};
        if id in streams {
          finished := finished + [id];
          streams := Remove(streams, id);
        }
      }
      assert forall id :: id in streams && streams[id].encoder ==> Owes(before, id);
    }
  }
}
