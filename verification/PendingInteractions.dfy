/**
  The pending-interaction rows of one session, and every step of the relay that touches them.

  The row updates are the statements of
  src/server/platform/persistence/sqlite-pending-interaction-store.ts; the steps are the closures
  of src/server/composition.ts around them, the checkpoint deadline of
  src/server/features/org-plan-checkpoint/application/coordinate.ts, the generic reply of
  src/server/features/sessions/respond-interaction/endpoint.ts and the operation-keyed resolver of
  src/server/features/org-plan-attention/application/resolve.ts.
*/
module PendingInteractions {
  import opened Wrappers

  datatype Kind = Approval | Quiz | Attention | Checkpoint
  datatype State = Active | Acknowledged | Delivering | Settled | Lost
  datatype Outcome = Approved | Denied | Answered | Dismissed | Failed

  /** `resolved` is `None` while resolved_at is NULL; `key` is the claimed operation key. */
  datatype Row = Row(kind: Kind, turnId: Option<string>, state: State, resolved: Option<Outcome>, key: Option<string>)
  {
    predicate Open() {
      resolved.None?
    }

    /** What dismissPendingInteractions and a cleared server request pass over. */
    predicate Spared() {
      kind.Quiz? || (kind.Attention? && state.Acknowledged?)
    }

    function Resolve(outcome: Outcome): Row {
      if Open() then this.(resolved := Some(outcome)) else this
    }
  }

  type Rows = map<string, Row>

  // ----- The store's statements -----

  predicate IsOpen(rows: Rows, id: string) {
    id in rows && rows[id].Open()
  }

  predicate OpenAttention(rows: Rows, id: string) {
    IsOpen(rows, id) && rows[id].kind.Attention?
  }

  /** Insert, or overwrite anything but an attention row. */
  function Add(rows: Rows, id: string, kind: Kind, turnId: Option<string>, state: State): Rows {
    if id in rows && rows[id].kind.Attention? then rows
    else rows[id := Row(kind, turnId, state, None, None)]
  }

  function Resolve(rows: Rows, id: string, outcome: Outcome): Rows {
    if IsOpen(rows, id) then rows[id := rows[id].Resolve(outcome)] else rows
  }

  /** The claim is granted to the first key, and again to that key. */
  predicate Claims(rows: Rows, id: string, key: string) {
    IsOpen(rows, id) && (rows[id].key.None? || rows[id].key == Some(key))
  }

  function Claim(rows: Rows, id: string, key: string): Rows {
    if Claims(rows, id, key) then rows[id := rows[id].(key := Some(key))] else rows
  }

  predicate Owns(rows: Rows, id: string, key: string) {
    IsOpen(rows, id) && rows[id].key == Some(key)
  }

  predicate Begins(rows: Rows, id: string, key: string) {
    Owns(rows, id, key) && (rows[id].state.Active? || rows[id].state.Acknowledged? || rows[id].state.Delivering?)
  }

  function Begin(rows: Rows, id: string, key: string): Rows {
    if Begins(rows, id, key) then rows[id := rows[id].(state := Delivering)] else rows
  }

  predicate InDelivery(rows: Rows, id: string, key: string) {
    Owns(rows, id, key) && rows[id].state.Delivering?
  }

  function Retry(rows: Rows, id: string, key: string, state: State): Rows {
    if InDelivery(rows, id, key) then rows[id := rows[id].(state := state)] else rows
  }

  function Settle(rows: Rows, id: string, key: string, outcome: Outcome): Rows {
    if InDelivery(rows, id, key)
    then rows[id := rows[id].(resolved := Some(outcome), state := if outcome.Failed? then Lost else Settled)]
    else rows
  }

  // ----- What blocks a synthetic turn -----

  /** A quiz stops blocking once the turn that owns it has ended. */
  predicate Blocks(row: Row, activeTurn: Option<string>) {
    row.Open() && (!row.kind.Quiz? || row.turnId.None? || row.turnId == activeTurn)
  }

  function Blocking(rows: Rows, activeTurn: Option<string>): set<string> {
    set id | id in rows && Blocks(rows[id], activeTurn)
  }

  // ----- The relay's steps -----

  function DismissRow(row: Row, outcome: Outcome): Row {
    if row.Spared() then row else row.Resolve(outcome)
  }

  function ShutdownRow(row: Row): Row {
    if row.kind.Attention? || row.kind.Checkpoint? then row else row.Resolve(Dismissed)
  }

  function FailCheckpointRow(row: Row): Row {
    if row.kind.Checkpoint? then row.Resolve(Failed) else row
  }

  function Dismiss(rows: Rows, outcome: Outcome): Rows {
    map id | id in rows :: DismissRow(rows[id], outcome)
  }

  function Shutdown(rows: Rows): Rows {
    map id | id in rows :: ShutdownRow(rows[id])
  }

  function FailCheckpoints(rows: Rows): Rows {
    map id | id in rows :: FailCheckpointRow(rows[id])
  }

  /** The app server reported the request as resolved: attention that is not acknowledged fails. */
  function Clear(rows: Rows, id: string): Rows {
    if !IsOpen(rows, id) || rows[id].Spared() then rows
    else Resolve(rows, id, if rows[id].kind.Attention? then Failed else Dismissed)
  }

  datatype Writer = Unavailable | Cleared | Available

  datatype Guidance = NoGuidance | NoChannel | Sent

  /**
    What the resolver's ports answer during one delivery. `replayed` is a stored earlier answer to
    the key, `parsed` whether the response and the request's payload are valid.
  */
  datatype Attempt = Attempt(
    replayed: bool, parsed: bool, replacementRejected: bool, guidance: Guidance,
    capable: bool, available: bool, writer: Writer, written: bool)

  /** The delivery gets as far as its claim, and the claim is granted. */
  predicate Granted(rows: Rows, id: string, key: string, attempt: Attempt) {
    OpenAttention(rows, id) && !attempt.replayed && attempt.parsed && Claims(rows, id, key)
  }

  /** Where the synchronous part of a delivery ends: it alone may stop at the guidance await. */
  predicate Awaits(rows: Rows, id: string, key: string, attempt: Attempt) {
    && Granted(rows, id, key, attempt) && rows[id].state.Acknowledged?
    && !attempt.replacementRejected && attempt.guidance.Sent?
  }

  /** A delivery up to its settlement or its await. */
  function Deliver(rows: Rows, id: string, key: string, attempt: Attempt): Rows {
    if !Granted(rows, id, key, attempt) then rows
    else
      var claimed := Claim(rows, id, key);
      if claimed[id].state.Acknowledged? then DeliverAcknowledged(Begin(claimed, id, key), id, key, attempt)
      else if !attempt.capable || !attempt.available || !Begins(claimed, id, key) then claimed
      else DeliverActive(Begin(claimed, id, key), id, key, attempt)
  }

  function DeliverAcknowledged(rows: Rows, id: string, key: string, attempt: Attempt): Rows {
    if attempt.replacementRejected || attempt.guidance.NoChannel? then Retry(rows, id, key, Acknowledged)
    else if attempt.guidance.Sent? then rows
    else Settle(rows, id, key, Answered)
  }

  function DeliverActive(rows: Rows, id: string, key: string, attempt: Attempt): Rows {
    if attempt.replacementRejected || attempt.writer.Unavailable? then Retry(rows, id, key, Active)
    else if attempt.writer.Cleared? then Settle(rows, id, key, Failed)
    else if !attempt.written then Retry(rows, id, key, Active)
    else Settle(rows, id, key, Answered)
  }

  function FinishDelivery(rows: Rows, id: string, key: string, delivered: bool): Rows {
    if delivered then Settle(rows, id, key, Answered) else Retry(rows, id, key, Acknowledged)
  }

  datatype Reply = Delivered(outcome: Outcome) | ReplyCleared | ReplyUnavailable

  /**
    The durable rows, and what the process holds in memory: generic replies being delivered,
    checkpoint deadlines armed, and resolver operations at their await.
  */
  datatype Relay = Relay(rows: Rows, replies: map<nat, string>, armed: set<string>, operations: set<(string, string)>)

  datatype Action =
    | Accept(id: string, kind: Kind, turnId: Option<string>, acknowledge: bool)
    | AcceptCheckpoint(id: string, turnId: Option<string>)
    /** The coordinator failed to record an accepted checkpoint: the request is added and failed at once. */
    | CheckpointUnrecorded(id: string, turnId: Option<string>)
    | AppServerCleared(id: string)
    /** Activation, writer acquisition, writer release and exit, close, takeover, forget. */
    | DismissAll(outcome: Outcome)
    | StartReply(op: nat, id: string, valid: bool)
    | SettleReply(op: nat, reply: Reply)
    | CheckpointWritten(id: string, written: bool)
    | CheckpointDeadline(id: string)
    | FailPendingCheckpoints
    | ResolveAttention(id: string, key: string, attempt: Attempt)
    | GuidanceSettled(id: string, key: string, delivered: bool)
    | ShutDown
    | Restart
    | RemoveSession

  /** The resolution state a newly accepted interaction gets. */
  function Initial(kind: Kind, acknowledge: bool): State {
    if acknowledge && kind.Attention? then Acknowledged else Active
  }

  /** Attention may not be answered through the generic boundary. */
  predicate Replies(rows: Rows, id: string, valid: bool) {
    IsOpen(rows, id) && !rows[id].kind.Attention? && valid
  }

  function Next(r: Relay, a: Action): Relay {
    match a
    case Accept(id, kind, turnId, acknowledge) => r.(rows := Add(r.rows, id, kind, turnId, Initial(kind, acknowledge)))
    case AcceptCheckpoint(id, turnId) =>
      r.(rows := Add(r.rows, id, Checkpoint, turnId, Active), armed := r.armed + {id})
    case CheckpointUnrecorded(id, turnId) =>
      r.(rows := Resolve(Add(r.rows, id, Checkpoint, turnId, Active), id, Failed), armed := r.armed - {id})
    case AppServerCleared(id) => r.(rows := Clear(r.rows, id))
    case DismissAll(outcome) => r.(rows := Dismiss(r.rows, outcome))
    case StartReply(op, id, valid) =>
      if op !in r.replies && Replies(r.rows, id, valid) then r.(replies := r.replies[op := id]) else r
    case SettleReply(op, reply) =>
      if op !in r.replies then r
      else r.(replies := r.replies - {op},
              rows := match reply
                      case Delivered(outcome) => Resolve(r.rows, r.replies[op], outcome)
                      case ReplyCleared => Resolve(r.rows, r.replies[op], Dismissed)
                      case ReplyUnavailable => r.rows)
    case CheckpointWritten(id, written) =>
      if IsOpen(r.rows, id) && r.rows[id].kind.Checkpoint?
      then r.(armed := r.armed - {id}, rows := Resolve(r.rows, id, if written then Answered else Failed)) else r
    case CheckpointDeadline(id) =>
      if id in r.armed then r.(armed := r.armed - {id}, rows := Resolve(r.rows, id, Failed)) else r
    case FailPendingCheckpoints =>
      r.(rows := FailCheckpoints(r.rows),
         armed := r.armed - (set id | id in r.rows && IsOpen(r.rows, id) && r.rows[id].kind.Checkpoint?))
    case ResolveAttention(id, key, attempt) =>
      if (id, key) in r.operations then r
      else r.(rows := Deliver(r.rows, id, key, attempt),
              operations := if Awaits(r.rows, id, key, attempt) then r.operations + {(id, key)} else r.operations)
    case GuidanceSettled(id, key, delivered) =>
      if (id, key) !in r.operations then r
      else r.(rows := FinishDelivery(r.rows, id, key, delivered), operations := r.operations - {(id, key)})
    case ShutDown => r.(rows := Shutdown(r.rows), armed := {})
    case Restart => Relay(r.rows, map[], {}, {})
    case RemoveSession => r.(rows := map[])
  }

  function Run(r: Relay, actions: seq<Action>): Relay {
    if actions == [] then r else Next(Run(r, actions[..|actions| - 1]), actions[|actions| - 1])
  }

  // ----- Acknowledged attention -----

  predicate Held(rows: Rows, id: string) {
    OpenAttention(rows, id) && rows[id].state.Acknowledged?
  }

  lemma AttentionBlocks(rows: Rows, id: string, activeTurn: Option<string>)
    requires OpenAttention(rows, id)
    ensures id in Blocking(rows, activeTurn)
  {
  }

  /** Accepting attention as acknowledged holds it, unless a row of that id was already past that. */
  lemma AcceptedIsHeld(r: Relay, id: string, turnId: Option<string>)
    ensures Held(Next(r, Accept(id, Attention, turnId, true)).rows, id) <==>
      id !in r.rows || !r.rows[id].kind.Attention? || Held(r.rows, id)
  {
  }

  /** The steps that resolve an open request of this id without asking what kind it is. */
  predicate Resolves(r: Relay, a: Action, id: string) {
    match a
    case SettleReply(op, reply) => op in r.replies && r.replies[op] == id && !reply.ReplyUnavailable?
    case CheckpointDeadline(target) => target == id && id in r.armed
    case CheckpointUnrecorded(target, _) => target == id
    case _ => false
  }

  /** The steps that end a hold: a delivery by its resolver, its session's removal, and those that use its id. */
  predicate Ends(r: Relay, a: Action, id: string) {
    || Resolves(r, a, id)
    || match a
       case ResolveAttention(target, key, attempt) =>
         && target == id && (id, key) !in r.operations && Granted(r.rows, id, key, attempt)
         && !attempt.replacementRejected && !attempt.guidance.NoChannel?
       case RemoveSession => true
       case _ => false
  }

  lemma EndsExactly(r: Relay, a: Action, id: string)
    requires Held(r.rows, id)
    ensures !Held(Next(r, a).rows, id) <==> Ends(r, a, id)
  {
  }

  /** The delivery settles the request without waiting for guidance. */
  predicate Settles(row: Row, attempt: Attempt) {
    && !attempt.replacementRejected
    && match row.state
       case Acknowledged => attempt.guidance.NoGuidance?
       case Active => ReachesWriter(attempt)
       case Delivering => ReachesWriter(attempt)
       case _ => false
  }

  predicate ReachesWriter(attempt: Attempt) {
    attempt.capable && attempt.available && (attempt.writer.Cleared? || (attempt.writer.Available? && attempt.written))
  }

  /** The steps that close an open attention request, acknowledged or not, its deliveries included. */
  predicate Closes(r: Relay, a: Action, id: string) {
    && OpenAttention(r.rows, id)
    && (|| Resolves(r, a, id)
        || match a
           case ResolveAttention(target, key, attempt) =>
             && target == id && (id, key) !in r.operations && Granted(r.rows, id, key, attempt)
             && Settles(r.rows[id], attempt)
           case GuidanceSettled(target, key, delivered) =>
             target == id && (id, key) in r.operations && delivered && InDelivery(r.rows, id, key)
           case AppServerCleared(target) => target == id && !Held(r.rows, id)
           case DismissAll(_) => !Held(r.rows, id)
           case RemoveSession => true
           case _ => false)
  }

  lemma ClosesExactly(r: Relay, a: Action, id: string)
    requires OpenAttention(r.rows, id)
    ensures !OpenAttention(Next(r, a).rows, id) <==> Closes(r, a, id)
  {
    match a
    case ResolveAttention(target, key, attempt) =>
    case _ =>
  }

  /** The request is held from the start to the end of a run. */
  predicate HeldThroughout(r: Relay, actions: seq<Action>, id: string) {
    Held(Run(r, actions).rows, id) && (actions == [] || HeldThroughout(r, actions[..|actions| - 1], id))
  }

  /** No step of a run ends the hold, each judged in the state it is taken in. */
  predicate NoneEnds(r: Relay, actions: seq<Action>, id: string) {
    if actions == [] then true
    else
      var earlier := actions[..|actions| - 1];
      NoneEnds(r, earlier, id) && !Ends(Run(r, earlier), actions[|actions| - 1], id)
  }

  /**
    Acknowledged attention is held, and so blocks, at every moment of a run exactly when no step of
    the run ends it: clears, dismissals, refused or failed attempts, replies and deadlines under
    other ids, shutdown and restart all pass over it.
  */
  lemma {:induction false} AttentionHolds(r: Relay, actions: seq<Action>, id: string)
    requires Held(r.rows, id)
    ensures HeldThroughout(r, actions, id) <==> NoneEnds(r, actions, id)
    ensures NoneEnds(r, actions, id) ==> forall activeTurn :: id in Blocking(Run(r, actions).rows, activeTurn)
  {
    if actions != [] {
      var earlier := actions[..|actions| - 1];
      AttentionHolds(r, earlier, id);
      if Held(Run(r, earlier).rows, id) {
        EndsExactly(Run(r, earlier), actions[|actions| - 1], id);
      }
    }
  }

  predicate OpenThroughout(r: Relay, actions: seq<Action>, id: string) {
    OpenAttention(Run(r, actions).rows, id) && (actions == [] || OpenThroughout(r, actions[..|actions| - 1], id))
  }

  predicate NoneCloses(r: Relay, actions: seq<Action>, id: string) {
    if actions == [] then true
    else
      var earlier := actions[..|actions| - 1];
      NoneCloses(r, earlier, id) && !Closes(Run(r, earlier), actions[|actions| - 1], id)
  }

  /** Deliveries included, an attention request is open, and blocks, exactly until a step closes it. */
  lemma {:induction false} OpenUntilClosed(r: Relay, actions: seq<Action>, id: string)
    requires OpenAttention(r.rows, id)
    ensures OpenThroughout(r, actions, id) <==> NoneCloses(r, actions, id)
    ensures NoneCloses(r, actions, id) ==> forall activeTurn :: id in Blocking(Run(r, actions).rows, activeTurn)
  {
    if actions != [] {
      var earlier := actions[..|actions| - 1];
      OpenUntilClosed(r, earlier, id);
      if OpenAttention(Run(r, earlier).rows, id) {
        ClosesExactly(Run(r, earlier), actions[|actions| - 1], id);
      }
    }
  }

  /** No generic reply and no checkpoint deadline under way names the request. */
  ghost predicate Unclaimed(r: Relay, id: string) {
    id !in r.armed && forall op | op in r.replies :: r.replies[op] != id
  }

  /** The id is not used for a checkpoint, and the session stays. */
  predicate KeepsId(a: Action, id: string) {
    !a.RemoveSession? && !(a.AcceptCheckpoint? && a.id == id) && !(a.CheckpointUnrecorded? && a.id == id)
  }

  lemma StepUnclaimed(r: Relay, a: Action, id: string)
    requires OpenAttention(r.rows, id) && Unclaimed(r, id) && KeepsId(a, id)
    ensures Unclaimed(Next(r, a), id) && !Resolves(r, a, id)
  {
  }

  /** No call of the request's resolver takes effect beyond its claim. */
  predicate NoneDelivers(r: Relay, actions: seq<Action>, id: string) {
    if actions == [] then true
    else
      var earlier := actions[..|actions| - 1];
      var a := actions[|actions| - 1];
      NoneDelivers(r, earlier, id) && !(a.ResolveAttention? && Ends(Run(r, earlier), a, id))
  }

  /** Where ids are not reused, nothing but an effective call of its own resolver ends a hold. */
  lemma {:induction false} OnlyItsResolverEnds(r: Relay, actions: seq<Action>, id: string)
    requires Held(r.rows, id) && Unclaimed(r, id)
    requires forall i | 0 <= i < |actions| :: KeepsId(actions[i], id)
    requires NoneDelivers(r, actions, id)
    ensures Held(Run(r, actions).rows, id) && Unclaimed(Run(r, actions), id)
  {
    if actions != [] {
      var earlier := actions[..|actions| - 1];
      var a := actions[|actions| - 1];
      assert forall i | 0 <= i < |earlier| :: earlier[i] == actions[i];
      OnlyItsResolverEnds(r, earlier, id);
      EndsExactly(Run(r, earlier), a, id);
      StepUnclaimed(Run(r, earlier), a, id);
    }
  }

  // ----- Where the hold does not reach -----

  /** A dismissal or a server clear ends open attention exactly when it is not acknowledged. */
  lemma UnacknowledgedEnds(rows: Rows, id: string, outcome: Outcome)
    requires IsOpen(rows, id) && rows[id].kind.Attention?
    ensures !IsOpen(Dismiss(rows, outcome), id) <==> !Held(rows, id)
    ensures !IsOpen(Clear(rows, id), id) <==> !Held(rows, id)
    ensures IsOpen(Shutdown(rows), id)
  {
  }

  /** A delivery of guidance under way: the request is open, but not acknowledged. */
  predicate UnderWay(r: Relay, id: string, key: string) {
    InDelivery(r.rows, id, key) && r.rows[id].kind.Attention? && (id, key) in r.operations
  }

  /** The steps that break into a delivery under way. */
  predicate Disturbs(r: Relay, a: Action, id: string) {
    || Resolves(r, a, id)
    || a.RemoveSession? || a.Restart? || a.DismissAll? || (a.AppServerCleared? && a.id == id)
  }

  /** A delivery is under way until it is disturbed or its own guidance settles, and no longer. */
  lemma UnderWayExactly(r: Relay, a: Action, id: string, key: string)
    requires UnderWay(r, id, key)
    ensures !UnderWay(Next(r, a), id, key) <==>
      Disturbs(r, a, id) || (a.GuidanceSettled? && a.id == id && a.key == key)
  {
  }

  /** No step of a run breaks into a delivery under way, and its guidance is still awaited. */
  predicate Undisturbed(r: Relay, during: seq<Action>, id: string, key: string) {
    if during == [] then true
    else
      var earlier := during[..|during| - 1];
      var a := during[|during| - 1];
      && Undisturbed(r, earlier, id, key)
      && !Disturbs(Run(r, earlier), a, id) && !(a.GuidanceSettled? && a.id == id && a.key == key)
  }

  /**
    Undisturbed, a delivery ends as its guidance did: acknowledged again, or answered for good.
    Concurrent attempts, under its own key or another, do not count as a disturbance.
  */
  lemma {:induction false} UndisturbedDelivery(r: Relay, during: seq<Action>, id: string, key: string)
    requires UnderWay(r, id, key) && Undisturbed(r, during, id, key)
    ensures UnderWay(Run(r, during), id, key)
    ensures Held(Next(Run(r, during), GuidanceSettled(id, key, false)).rows, id)
    ensures var rows := Next(Run(r, during), GuidanceSettled(id, key, true)).rows;
      id in rows && Final(rows[id]) && rows[id].resolved == Some(Answered) && rows[id].key == Some(key)
  {
    if during != [] {
      var earlier := during[..|during| - 1];
      UndisturbedDelivery(r, earlier, id, key);
      UnderWayExactly(Run(r, earlier), during[|during| - 1], id, key);
    }
  }

  /** An attention row that is not acknowledged, with no delivery at its await. */
  ghost predicate PastHolding(r: Relay, id: string) {
    && id in r.rows && r.rows[id].kind.Attention? && !r.rows[id].state.Acknowledged?
    && forall key :: (id, key) !in r.operations
  }

  lemma StepPastHolding(r: Relay, a: Action, id: string)
    requires PastHolding(r, id) && !a.RemoveSession?
    ensures PastHolding(Next(r, a), id)
  {
  }

  /** Once a restart cut its delivery off, a request is never acknowledged again, whatever is retried. */
  lemma {:induction false} NeverHeldAgain(r: Relay, actions: seq<Action>, id: string, key: string)
    requires UnderWay(r, id, key)
    requires forall i | 0 <= i < |actions| :: !actions[i].RemoveSession?
    ensures PastHolding(Run(Next(r, Restart), actions), id) && !Held(Run(Next(r, Restart), actions).rows, id)
  {
    if actions != [] {
      var n := |actions| - 1;
      assert forall i | 0 <= i < n :: actions[..n][i] == actions[i];
      NeverHeldAgain(r, actions[..n], id, key);
      StepPastHolding(Run(Next(r, Restart), actions[..n]), actions[n], id);
    }
  }

  /** What still blocks after a dismissal: held attention, and the quizzes of the turn. */
  lemma BlockingAfterDismissal(rows: Rows, outcome: Outcome, activeTurn: Option<string>, id: string)
    ensures id in Blocking(Dismiss(rows, outcome), activeTurn) <==>
      || Held(rows, id)
      || (IsOpen(rows, id) && rows[id].kind.Quiz? && (rows[id].turnId.None? || rows[id].turnId == activeTurn))
  {
  }

  /** What the next relay finds open: every attention request and checkpoint that was, and nothing else. */
  lemma OpenAfterShutdown(rows: Rows, id: string)
    ensures IsOpen(Shutdown(rows), id) <==> IsOpen(rows, id) && (rows[id].kind.Attention? || rows[id].kind.Checkpoint?)
    ensures IsOpen(Shutdown(rows), id) ==> Shutdown(rows)[id] == rows[id]
  {
  }

  function Empty(): Relay {
    Relay(map[], map[], {}, {})
  }

  const SENT := Attempt(false, true, false, Sent, true, true, Available, true)
  const OFFLINE := Attempt(false, true, false, NoGuidance, true, true, Unavailable, true)

  lemma Run3(r: Relay, a: Action, b: Action, c: Action)
    ensures Run(r, [a, b, c]) == Next(Next(Next(r, a), b), c)
  {
    assert [a, b, c][..2] == [a, b] && [a, b][..1] == [a] && [a][..0] == [];
    assert Run(r, [a, b]) == Next(Run(r, [a]), b);
    assert Run(r, [a]) == Next(Run(r, []), a);
  }

  /** A writer exit during that delivery ends acknowledged attention, and the delivery settles nothing. */
  lemma DismissedDuringDelivery(id: string, key: string, outcome: Outcome)
    ensures var accepted := Next(Empty(), Accept(id, Attention, None, true));
      && Held(accepted.rows, id)
      && var ended := Run(accepted, [ResolveAttention(id, key, SENT), DismissAll(outcome), GuidanceSettled(id, key, true)]);
         id in ended.rows && ended.rows[id].resolved == Some(outcome)
  {
    Run3(Next(Empty(), Accept(id, Attention, None, true)),
         ResolveAttention(id, key, SENT), DismissAll(outcome), GuidanceSettled(id, key, true));
  }

  /** After a restart during that delivery, a retry with no writer leaves the request merely active. */
  lemma RestartedDuringDelivery(id: string, key: string)
    ensures var accepted := Next(Empty(), Accept(id, Attention, None, true));
      var retried := Run(accepted, [ResolveAttention(id, key, SENT), Restart, ResolveAttention(id, key, OFFLINE)]);
      IsOpen(retried.rows, id) && retried.rows[id].state == Active
  {
    Run3(Next(Empty(), Accept(id, Attention, None, true)),
         ResolveAttention(id, key, SENT), Restart, ResolveAttention(id, key, OFFLINE));
  }

  /** A reply under way ends whatever request has its id by the time it is delivered. */
  lemma ReplyEndsReusedId(id: string, op: nat, outcome: Outcome)
    ensures var replying := Next(Next(Empty(), Accept(id, Approval, None, false)), StartReply(op, id, true));
      && Held(Next(replying, Accept(id, Attention, None, true)).rows, id)
      && Next(Next(replying, Accept(id, Attention, None, true)), SettleReply(op, Delivered(outcome))).rows[id].resolved
         == Some(outcome)
  {
  }

  /** So does a checkpoint deadline that was armed under the same id. */
  lemma DeadlineEndsReusedId(id: string)
    ensures var armed := Next(Empty(), AcceptCheckpoint(id, None));
      && Held(Next(armed, Accept(id, Attention, None, true)).rows, id)
      && Next(Next(armed, Accept(id, Attention, None, true)), CheckpointDeadline(id)).rows[id].resolved == Some(Failed)
  {
  }

  /** And a checkpoint under that id that could not be recorded, with no deadline armed at all. */
  lemma UnrecordedEndsReusedId(r: Relay, id: string, turnId: Option<string>)
    requires Held(r.rows, id)
    ensures Next(r, CheckpointUnrecorded(id, turnId)).rows[id] == r.rows[id].(resolved := Some(Failed))
  {
  }

  // ----- Settlement -----

  predicate Final(row: Row) {
    row.kind.Attention? && row.resolved.Some?
  }

  lemma StepIsFinal(r: Relay, a: Action, id: string)
    requires id in r.rows && Final(r.rows[id]) && !a.RemoveSession?
    ensures id in Next(r, a).rows && Next(r, a).rows[id] == r.rows[id]
  {
  }

  /** A settled attention request is never reopened, overwritten or settled again. */
  lemma {:induction false} SettledIsFinal(r: Relay, actions: seq<Action>, id: string)
    requires id in r.rows && Final(r.rows[id])
    requires forall i | 0 <= i < |actions| :: !actions[i].RemoveSession?
    ensures id in Run(r, actions).rows && Run(r, actions).rows[id] == r.rows[id]
  {
    if actions != [] {
      var earlier := actions[..|actions| - 1];
      assert forall i | 0 <= i < |earlier| :: earlier[i] == actions[i];
      SettledIsFinal(r, earlier, id);
      StepIsFinal(Run(r, earlier), actions[|actions| - 1], id);
    }
  }

  predicate ClaimedBy(rows: Rows, id: string, key: string) {
    id in rows && rows[id].kind.Attention? && rows[id].key == Some(key)
  }

  lemma StepKeepsClaim(r: Relay, a: Action, id: string, key: string)
    requires ClaimedBy(r.rows, id, key) && !a.RemoveSession?
    ensures ClaimedBy(Next(r, a).rows, id, key)
  {
  }

  /** The first operation key to claim an attention request keeps it: every other key is stale for good. */
  lemma {:induction false} FirstKeyWins(r: Relay, actions: seq<Action>, id: string, key: string)
    requires ClaimedBy(r.rows, id, key)
    requires forall i | 0 <= i < |actions| :: !actions[i].RemoveSession?
    ensures ClaimedBy(Run(r, actions).rows, id, key)
    ensures forall other, attempt | other != key ::
      Next(Run(r, actions), ResolveAttention(id, other, attempt)).rows == Run(r, actions).rows
  {
    if actions != [] {
      var earlier := actions[..|actions| - 1];
      assert forall i | 0 <= i < |earlier| :: earlier[i] == actions[i];
      FirstKeyWins(r, earlier, id, key);
      StepKeepsClaim(Run(r, earlier), actions[|actions| - 1], id, key);
    }
  }

  /** Resolution by anything but the resolver leaves the resolution state as it was. */
  lemma OthersKeepState(r: Relay, a: Action, id: string)
    requires id in r.rows && r.rows[id].kind.Attention? && id in Next(r, a).rows
    requires !a.ResolveAttention? && !a.GuidanceSettled?
    ensures Next(r, a).rows[id].state == r.rows[id].state
  {
  }

  /** Only the resolver, under the claiming key, settles an attention request as resolved or lost. */
  lemma SettledByItsKey(r: Relay, a: Action, id: string)
    requires IsOpen(r.rows, id) && r.rows[id].kind.Attention? && r.rows[id].state in {Active, Acknowledged, Delivering}
    requires id in Next(r, a).rows && Next(r, a).rows[id].state in {Settled, Lost}
    ensures var key := Next(r, a).rows[id].key;
      || (a.ResolveAttention? && a.id == id && key == Some(a.key))
      || (a.GuidanceSettled? && a.id == id && key == Some(a.key) && a.delivered && r.rows[id].key == key)
  {
    if !a.ResolveAttention? && !a.GuidanceSettled? {
      OthersKeepState(r, a, id);
    }
  }
}
