/**
  The store of one session's pending interactions and the relay closures over it, as they run:
  the store's statements update rows one at a time, the closures loop over its listings.

  Every method is proved to make the step PendingInteractions.Next describes, so what that module
  proves about runs holds of this class.
*/
module InteractionRelay {
  import opened Wrappers
  import opened PendingInteractions

  datatype ClaimResult = Claimed | Same | Stale | AlreadyResolved | Missing

  class SessionInteractions {
    var rows: Rows
    /** Generic replies at their delivery await, by operation. */
    var replies: map<nat, string>
    /** Checkpoint requests with a deadline timer. */
    var armed: set<string>
    /** Resolver deliveries at their guidance await. */
    var operations: set<(string, string)>

    ghost function View(): Relay
      reads this
    {
      Relay(rows, replies, armed, operations)
    }

    constructor ()
      ensures View() == Relay(map[], map[], {}, {})
    {
      rows, replies, armed, operations := map[], map[], {}, {};
    }

    // ----- SqlitePendingInteractionStore -----

    method Add(id: string, kind: Kind, turnId: Option<string>, state: State)
      modifies `rows
      ensures rows == PendingInteractions.Add(old(rows), id, kind, turnId, state)
    {
      if id !in rows || !rows[id].kind.Attention? {
        rows := rows[id := Row(kind, turnId, state, None, None)];
      }
    }

    method Resolve(id: string, outcome: Outcome) returns (changed: bool)
      modifies `rows
      ensures rows == PendingInteractions.Resolve(old(rows), id, outcome)
      ensures changed <==> IsOpen(old(rows), id)
    {
      changed := id in rows && rows[id].resolved.None?;
      if changed {
        rows := rows[id := rows[id].(resolved := Some(outcome))];
      }
    }

    method ResolutionState(id: string) returns (state: Option<State>)
      ensures state == if IsOpen(rows, id) then Some(rows[id].state) else None
    {
      state := if id in rows && rows[id].resolved.None? then Some(rows[id].state) else None;
    }

    /** The requests still open; the loops below visit each once. */
    method List() returns (ids: set<string>)
      ensures forall id :: id in ids <==> IsOpen(rows, id)
    {
      ids := set id | id in rows && rows[id].resolved.None?;
    }

    method ClaimOperation(id: string, key: string) returns (result: ClaimResult)
      modifies `rows
      ensures rows == Claim(old(rows), id, key)
      ensures result.Missing? <==> id !in old(rows)
      ensures result.Claimed? || result.Same? <==> Claims(old(rows), id, key)
      ensures result.Same? ==> rows == old(rows)
      ensures result.AlreadyResolved? <==> id in old(rows) && !IsOpen(old(rows), id) && old(rows)[id].key == Some(key)
    {
      if id !in rows {
        return Missing;
      }
      if rows[id].resolved.Some? {
        return if rows[id].key == Some(key) then AlreadyResolved else Stale;
      }
      if rows[id].key.Some? {
        result := if rows[id].key == Some(key) then Same else Stale;
        assert result.Same? ==> rows[id := rows[id].(key := Some(key))] == rows;
        return;
      }
      rows := rows[id := rows[id].(key := Some(key))];
      return Claimed;
    }

    method BeginDelivery(id: string, key: string) returns (changed: bool)
      modifies `rows
      ensures rows == Begin(old(rows), id, key)
      ensures changed <==> Begins(old(rows), id, key)
    {
      changed := && id in rows && rows[id].key == Some(key) && rows[id].resolved.None?
                 && rows[id].state in {Active, Acknowledged, Delivering};
      if changed {
        rows := rows[id := rows[id].(state := Delivering)];
      }
    }

    method RetryDelivery(id: string, key: string, state: State) returns (changed: bool)
      modifies `rows
      ensures rows == Retry(old(rows), id, key, state)
      ensures changed <==> InDelivery(old(rows), id, key)
    {
      changed := id in rows && rows[id].key == Some(key) && rows[id].resolved.None? && rows[id].state.Delivering?;
      if changed {
        rows := rows[id := rows[id].(state := state)];
      }
    }

    method SettleOperation(id: string, key: string, outcome: Outcome) returns (changed: bool)
      modifies `rows
      ensures rows == Settle(old(rows), id, key, outcome)
      ensures changed <==> InDelivery(old(rows), id, key)
    {
      changed := id in rows && rows[id].key == Some(key) && rows[id].resolved.None? && rows[id].state.Delivering?;
      if changed {
        rows := rows[id := rows[id].(resolved := Some(outcome), state := if outcome.Failed? then Lost else Settled)];
      }
    }

    // ----- The closures of the composition -----

    method BlockingInteractions(activeTurn: Option<string>) returns (ids: set<string>)
      ensures ids == Blocking(rows, activeTurn)
    {
      var listed := List();
      ids := set id | id in listed && (!rows[id].kind.Quiz? || rows[id].turnId.None? || rows[id].turnId == activeTurn);
    }

    method AcceptPendingInteraction(id: string, kind: Kind, turnId: Option<string>, acknowledge: bool)
      modifies `rows
      ensures View() == Next(old(View()), Accept(id, kind, turnId, acknowledge))
    {
      Add(id, kind, turnId, if acknowledge && kind.Attention? then Acknowledged else Active);
    }

    /** The app server's serverRequest/resolved notification. */
    method ServerRequestResolved(id: string)
      modifies `rows
      ensures View() == Next(old(View()), AppServerCleared(id))
    {
      if id !in rows || rows[id].resolved.Some? {
        return;
      }
      var kind := rows[id].kind;
      var state := ResolutionState(id);
      if !(kind.Attention? && state == Some(Acknowledged)) && !kind.Quiz? {
        var _ := Resolve(id, if kind.Attention? then Failed else Dismissed);
      }
    }

    method DismissPendingInteractions(outcome: Outcome)
      modifies `rows
      ensures View() == Next(old(View()), DismissAll(outcome))
    {
      var rest := List();
      while rest != {}
        invariant rows.Keys == old(rows).Keys
        invariant forall x | x in rest :: IsOpen(old(rows), x)
        invariant forall x | x in rows ::
          rows[x] == if x in rest then old(rows)[x] else DismissRow(old(rows)[x], outcome)
        decreases rest
      {
        var id :| id in rest;
        var state := ResolutionState(id);
        if !rows[id].kind.Quiz? && !(rows[id].kind.Attention? && state == Some(Acknowledged)) {
          var _ := Resolve(id, outcome);
        }
        rest := rest - {id};
      }
    }

    /** onClose: attention and checkpoints wait for the next relay. */
    method ShutDownSession()
      modifies `rows, `armed
      ensures View() == Next(old(View()), ShutDown)
    {
      armed := {};
      var rest := List();
      while rest != {}
        invariant armed == {} && rows.Keys == old(rows).Keys
        invariant forall x | x in rest :: IsOpen(old(rows), x)
        invariant forall x | x in rows :: rows[x] == if x in rest then old(rows)[x] else ShutdownRow(old(rows)[x])
        decreases rest
      {
        var id :| id in rest;
        if !rows[id].kind.Attention? && !rows[id].kind.Checkpoint? {
          var _ := Resolve(id, Dismissed);
        }
        rest := rest - {id};
      }
    }

    method StartReply(op: nat, id: string, valid: bool) returns (delivering: bool)
      requires op !in replies
      modifies `replies
      ensures View() == Next(old(View()), PendingInteractions.StartReply(op, id, valid))
      ensures delivering <==> Replies(rows, id, valid)
    {
      delivering := id in rows && rows[id].resolved.None? && !rows[id].kind.Attention? && valid;
      if delivering {
        replies := replies[op := id];
      }
    }

    method SettleReply(op: nat, reply: Reply) returns (accepted: bool)
      requires op in replies
      modifies `rows, `replies
      ensures View() == Next(old(View()), PendingInteractions.SettleReply(op, reply))
      ensures accepted <==> !reply.ReplyUnavailable? && IsOpen(old(rows), old(replies)[op])
    {
      var id := replies[op];
      replies := replies - {op};
      match reply {
        case Delivered(outcome) => accepted := Resolve(id, outcome);
        case ReplyCleared => accepted := Resolve(id, Dismissed);
        case ReplyUnavailable => accepted := false;
      }
    }

    // ----- CheckpointCoordination -----

    method AcceptCheckpointRequest(id: string, turnId: Option<string>)
      modifies `rows, `armed
      ensures View() == Next(old(View()), AcceptCheckpoint(id, turnId))
    {
      Add(id, Checkpoint, turnId, Active);
      armed := armed + {id};
    }

    /** The coordinator threw: the request is added all the same, and failed without asking for its kind. */
    method FailUnrecorded(id: string, turnId: Option<string>)
      modifies `rows, `armed
      ensures View() == Next(old(View()), CheckpointUnrecorded(id, turnId))
    {
      Add(id, Checkpoint, turnId, Active);
      armed := armed - {id};
      var _ := Resolve(id, Failed);
    }

    method ResponseSettled(id: string, written: bool)
      modifies `rows, `armed
      ensures View() == Next(old(View()), CheckpointWritten(id, written))
    {
      if id !in rows || rows[id].resolved.Some? || !rows[id].kind.Checkpoint? {
        return;
      }
      armed := armed - {id};
      var _ := Resolve(id, if written then Answered else Failed);
    }

    method DeadlineFires(id: string)
      requires id in armed
      modifies `rows, `armed
      ensures View() == Next(old(View()), CheckpointDeadline(id))
    {
      armed := armed - {id};
      var _ := Resolve(id, Failed);
    }

    method FailPending()
      modifies `rows, `armed
      ensures View() == Next(old(View()), FailPendingCheckpoints)
    {
      var rest := List();
      ghost var failed := set x | x in rows && IsOpen(rows, x) && rows[x].kind.Checkpoint?;
      while rest != {}
        invariant rows.Keys == old(rows).Keys && armed == old(armed) - (failed - rest)
        invariant forall x | x in rest :: IsOpen(old(rows), x)
        invariant forall x | x in rows :: rows[x] == if x in rest then old(rows)[x] else FailCheckpointRow(old(rows)[x])
        decreases rest
      {
        var id :| id in rest;
        if rows[id].kind.Checkpoint? {
          armed := armed - {id};
          var _ := Resolve(id, Failed);
        }
        rest := rest - {id};
      }
    }

    // ----- AttentionResolution -----

    /** A resolver call up to its answer or its guidance await, which `awaiting` reports. */
    method ResolveAttention(id: string, key: string, attempt: Attempt) returns (awaiting: bool)
      modifies `rows, `operations
      ensures View() == Next(old(View()), PendingInteractions.ResolveAttention(id, key, attempt))
      ensures awaiting <==> !attempt.replayed && (id, key) in operations
    {
      if attempt.replayed {
        return false;
      }
      if (id, key) in operations {
        return true;
      }
      if id !in rows || rows[id].resolved.Some? || !rows[id].kind.Attention? || !attempt.parsed {
        return false;
      }
      var claim := ClaimOperation(id, key);
      if !claim.Claimed? && !claim.Same? {
        return false;
      }
      var state := ResolutionState(id);
      if state == Some(Acknowledged) {
        awaiting := DeliverGuidance(id, key, attempt);
      } else {
        DeliverToWriter(id, key, attempt);
        awaiting := false;
      }
    }

    method DeliverGuidance(id: string, key: string, attempt: Attempt) returns (awaiting: bool)
      requires Owns(rows, id, key) && rows[id].state.Acknowledged?
      modifies `rows, `operations
      ensures rows == DeliverAcknowledged(Begin(old(rows), id, key), id, key, attempt)
      ensures awaiting <==> !attempt.replacementRejected && attempt.guidance.Sent?
      ensures operations == if awaiting then old(operations) + {(id, key)} else old(operations)
    {
      var _ := BeginDelivery(id, key);
      awaiting := false;
      if attempt.replacementRejected || attempt.guidance.NoChannel? {
        var _ := RetryDelivery(id, key, Acknowledged);
      } else if attempt.guidance.Sent? {
        operations := operations + {(id, key)};
        awaiting := true;
      } else {
        var _ := SettleOperation(id, key, Answered);
      }
    }

    method DeliverToWriter(id: string, key: string, attempt: Attempt)
      modifies `rows
      ensures rows == if !attempt.capable || !attempt.available || !Begins(old(rows), id, key) then old(rows)
                      else DeliverActive(Begin(old(rows), id, key), id, key, attempt)
    {
      if !attempt.capable || !attempt.available {
        return;
      }
      var begun := BeginDelivery(id, key);
      if !begun {
        return;
      }
      if attempt.replacementRejected || attempt.writer.Unavailable? {
        var _ := RetryDelivery(id, key, Active);
      } else if attempt.writer.Cleared? {
        var _ := SettleOperation(id, key, Failed);
      } else if !attempt.written {
        var _ := RetryDelivery(id, key, Active);
      } else {
        var _ := SettleOperation(id, key, Answered);
      }
    }

    /** The guidance await of a delivery settled. */
    method GuidanceSettled(id: string, key: string, delivered: bool) returns (accepted: bool)
      requires (id, key) in operations
      modifies `rows, `operations
      ensures View() == Next(old(View()), PendingInteractions.GuidanceSettled(id, key, delivered))
      ensures accepted <==> delivered && InDelivery(old(rows), id, key)
    {
      operations := operations - {(id, key)};
      if delivered {
        accepted := SettleOperation(id, key, Answered);
      } else {
        var _ := RetryDelivery(id, key, Acknowledged);
        accepted := false;
      }
    }
  }
}
