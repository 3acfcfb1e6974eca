/**
  What each step of the interaction relay does to one row, said in the row's own fields, and with
  which outcome an attention request ends over a whole run.

  PendingInteractions says what no run can do; here every outcome the store records is named:
  src/server/features/org-plan-attention/application/resolve.ts settles a delivery in four ways,
  the closures of src/server/composition.ts and the checkpoint coordinator resolve the rest.
*/
module InteractionEffects {
  import opened Wrappers
  import opened PendingInteractions

  function Get(r: Relay, id: string): Option<Row> {
    if id in r.rows then Some(r.rows[id]) else None
  }

  /** A row that was open gets this outcome; one that was resolved keeps its own. */
  function Closed(row: Row, outcome: Outcome): Row {
    Row(row.kind, row.turnId, row.state, if row.resolved.None? then Some(outcome) else row.resolved, row.key)
  }

  // ----- The resolver -----

  /** A call that gets through to its delivery, and the row it gets through to. */
  predicate GetsThrough(r: Relay, id: string, key: string, attempt: Attempt) {
    && id in r.rows && r.rows[id].kind.Attention? && r.rows[id].resolved.None?
    && (id, key) !in r.operations && !attempt.replayed && attempt.parsed
    && (r.rows[id].key.None? || r.rows[id].key.value == key)
  }

  /** Any other call changes nothing at all. */
  lemma RefusedCallChangesNothing(r: Relay, id: string, key: string, attempt: Attempt)
    requires !GetsThrough(r, id, key, attempt)
    ensures Next(r, ResolveAttention(id, key, attempt)) == r
  {
  }

  /**
    A delivery to the writer: answered exactly when it was written, failed and lost exactly when the
    app server had cleared the request, and otherwise open, back in the state a retry starts from.
  */
  lemma WriterDeliveryExactly(r: Relay, id: string, key: string, attempt: Attempt)
    requires GetsThrough(r, id, key, attempt) && (r.rows[id].state.Active? || r.rows[id].state.Delivering?)
    ensures var row, next := r.rows[id], Next(r, ResolveAttention(id, key, attempt));
      && next.rows.Keys == r.rows.Keys && next == r.(rows := next.rows)
      && var after := next.rows[id];
         var asked := attempt.capable && attempt.available && !attempt.replacementRejected;
         && after.kind == row.kind && after.turnId == row.turnId && after.key == Some(key)
         && (after.resolved == Some(Answered) <==> asked && attempt.writer.Available? && attempt.written)
         && (after.resolved == Some(Failed) <==> asked && attempt.writer.Cleared?)
         && (after.resolved == Some(Answered) <==> after.state.Settled?)
         && (after.resolved == Some(Failed) <==> after.state.Lost?)
         && (after.resolved.None? <==> !after.state.Settled? && !after.state.Lost?)
         && (after.resolved.None? ==> after.state == if attempt.capable && attempt.available then Active else row.state)
    ensures forall x | x != id :: Get(Next(r, ResolveAttention(id, key, attempt)), x) == Get(r, x)
  {
  }

  /**
    A delivery of acknowledged attention: answered exactly when there was no guidance to wait for,
    waiting exactly when guidance was sent, and acknowledged again when it could not be.
  */
  lemma GuidanceDeliveryExactly(r: Relay, id: string, key: string, attempt: Attempt)
    requires GetsThrough(r, id, key, attempt) && r.rows[id].state.Acknowledged?
    ensures var row, next := r.rows[id], Next(r, ResolveAttention(id, key, attempt));
      && next.rows.Keys == r.rows.Keys && next.replies == r.replies && next.armed == r.armed
      && var after := next.rows[id];
         && after.kind == row.kind && after.turnId == row.turnId && after.key == Some(key)
         && (after.resolved.Some? <==> !attempt.replacementRejected && attempt.guidance.NoGuidance?)
         && (after.resolved.Some? ==> after.resolved.value.Answered? && after.state.Settled?)
         && (after.state.Delivering? <==> !attempt.replacementRejected && attempt.guidance.Sent?)
         && (after.state.Acknowledged? <==> attempt.replacementRejected || attempt.guidance.NoChannel?)
         && next.operations == r.operations + if after.state.Delivering? then {(id, key)} else {}
    ensures forall x | x != id :: Get(Next(r, ResolveAttention(id, key, attempt)), x) == Get(r, x)
  {
  }

  /** A row that is open although settled or lost is claimed, and no more. */
  lemma FinishedRowIsOnlyClaimed(r: Relay, id: string, key: string, attempt: Attempt)
    requires GetsThrough(r, id, key, attempt) && (r.rows[id].state.Settled? || r.rows[id].state.Lost?)
    ensures Next(r, ResolveAttention(id, key, attempt)) == r.(rows := r.rows[id := r.rows[id].(key := Some(key))])
  {
  }

  /** The end of a guidance await: answered and settled, or acknowledged again, for the key in delivery alone. */
  lemma GuidanceSettlesExactly(r: Relay, id: string, key: string, delivered: bool, x: string)
    requires (id, key) in r.operations
    ensures var next := Next(r, GuidanceSettled(id, key, delivered));
      && next == r.(rows := next.rows, operations := r.operations - {(id, key)})
      && Get(next, x) ==
         if x == id && id in r.rows && r.rows[id].resolved.None? && r.rows[id].key == Some(key) && r.rows[id].state.Delivering?
         then Some(Row(r.rows[id].kind, r.rows[id].turnId, if delivered then Settled else Acknowledged,
                       if delivered then Some(Answered) else None, Some(key)))
         else Get(r, x)
  {
  }

  // ----- Acceptance -----

  /** A request is stored as asked, over anything but attention; only attention starts acknowledged. */
  lemma AcceptStoresExactly(r: Relay, id: string, kind: Kind, turnId: Option<string>, acknowledge: bool, x: string)
    ensures var next := Next(r, Accept(id, kind, turnId, acknowledge));
      && next == r.(rows := next.rows)
      && Get(next, x) ==
         if x != id || (id in r.rows && r.rows[id].kind.Attention?) then Get(r, x)
         else if kind.Attention? && acknowledge then Some(Row(Attention, turnId, Acknowledged, None, None))
         else Some(Row(kind, turnId, Active, None, None))
  {
  }

  lemma CheckpointAcceptedExactly(r: Relay, id: string, turnId: Option<string>, x: string)
    ensures var next := Next(r, AcceptCheckpoint(id, turnId));
      && next == r.(rows := next.rows, armed := r.armed + {id})
      && Get(next, x) ==
         if x != id || (id in r.rows && r.rows[id].kind.Attention?) then Get(r, x)
         else Some(Row(Checkpoint, turnId, Active, None, None))
  {
  }

  /** A checkpoint that was not recorded fails at once, and with it any open attention of its id. */
  lemma UnrecordedFailsExactly(r: Relay, id: string, turnId: Option<string>, x: string)
    ensures var next := Next(r, CheckpointUnrecorded(id, turnId));
      && next == r.(rows := next.rows, armed := r.armed - {id})
      && Get(next, x) ==
         if x != id then Get(r, x)
         else if id in r.rows && r.rows[id].kind.Attention? then Some(Closed(r.rows[id], Failed))
         else Some(Row(Checkpoint, turnId, Active, Some(Failed), None))
  {
  }

  // ----- Everything else that resolves a row -----

  /** The outcome of a clear is that of its kind: attention fails, an approval or a checkpoint is dismissed. */
  lemma ClearEndsExactly(r: Relay, id: string, x: string)
    ensures var next := Next(r, AppServerCleared(id));
      && next == r.(rows := next.rows)
      && Get(next, x) ==
         if x != id || id !in r.rows then Get(r, x)
         else match r.rows[id].kind
           case Quiz => Get(r, x)
           case Attention => if r.rows[id].state.Acknowledged? then Get(r, x) else Some(Closed(r.rows[id], Failed))
           case Approval => Some(Closed(r.rows[id], Dismissed))
           case Checkpoint => Some(Closed(r.rows[id], Dismissed))
  {
  }

  /** A dismissal closes every open row but quizzes and acknowledged attention, each with its outcome. */
  lemma DismissalEndsExactly(r: Relay, outcome: Outcome, x: string)
    ensures var next := Next(r, DismissAll(outcome));
      && next == r.(rows := next.rows)
      && Get(next, x) ==
         if x !in r.rows || r.rows[x].kind.Quiz? || (r.rows[x].kind.Attention? && r.rows[x].state.Acknowledged?) then Get(r, x)
         else Some(Closed(r.rows[x], outcome))
  {
  }

  /** A shutdown dismisses approvals and quizzes, disarms every deadline, and leaves the rest as it is. */
  lemma ShutdownEndsExactly(r: Relay, x: string)
    ensures var next := Next(r, ShutDown);
      && next == r.(rows := next.rows, armed := {})
      && Get(next, x) ==
         if x in r.rows && (r.rows[x].kind.Approval? || r.rows[x].kind.Quiz?) then Some(Closed(r.rows[x], Dismissed))
         else Get(r, x)
  {
  }

  /** Failing the pending checkpoints fails and disarms the open ones, and touches no other row or deadline. */
  lemma PendingCheckpointsFailExactly(r: Relay, x: string)
    ensures var next := Next(r, FailPendingCheckpoints);
      && next == r.(rows := next.rows, armed := next.armed)
      && Get(next, x) == (if x in r.rows && r.rows[x].kind.Checkpoint? then Some(Closed(r.rows[x], Failed)) else Get(r, x))
      && (x in next.armed <==> x in r.armed && !(x in r.rows && r.rows[x].kind.Checkpoint? && r.rows[x].resolved.None?))
  {
  }

  /** The written response answers an open checkpoint, an unwritten one fails it; either way it is disarmed. */
  lemma CheckpointResponseExactly(r: Relay, id: string, written: bool, x: string)
    ensures var next := Next(r, CheckpointWritten(id, written));
      var answers := id in r.rows && r.rows[id].kind.Checkpoint? && r.rows[id].resolved.None?;
      && next == r.(rows := next.rows, armed := if answers then r.armed - {id} else r.armed)
      && Get(next, x) ==
         if x == id && answers then Some(Closed(r.rows[id], if written then Answered else Failed)) else Get(r, x)
  {
  }

  /** An armed deadline fails what is open under its id, once. */
  lemma DeadlineFailsExactly(r: Relay, id: string, x: string)
    ensures var next := Next(r, CheckpointDeadline(id));
      && next == r.(rows := next.rows, armed := r.armed - {id})
      && Get(next, x) == if x == id && id in r.armed && id in r.rows then Some(Closed(r.rows[id], Failed)) else Get(r, x)
  {
  }

  /** A reply is under way exactly when an open request other than attention got a valid value. */
  lemma ReplyStartsExactly(r: Relay, op: nat, id: string, valid: bool)
    requires op !in r.replies
    ensures Next(r, StartReply(op, id, valid)) ==
      if valid && id in r.rows && r.rows[id].resolved.None? && !r.rows[id].kind.Attention?
      then r.(replies := r.replies[op := id]) else r
  {
  }

  /** A delivered reply records its outcome, a cleared one a dismissal, an undelivered one nothing. */
  lemma ReplySettlesExactly(r: Relay, op: nat, reply: Reply, x: string)
    requires op in r.replies
    ensures var next := Next(r, SettleReply(op, reply));
      && next == r.(rows := next.rows, replies := r.replies - {op})
      && Get(next, x) ==
         if x != r.replies[op] || x !in r.rows then Get(r, x)
         else match reply
           case Delivered(outcome) => Some(Closed(r.rows[x], outcome))
           case ReplyCleared => Some(Closed(r.rows[x], Dismissed))
           case ReplyUnavailable => Get(r, x)
  {
  }

  /** What blocks a synthetic turn: every open row but the quizzes of a turn that is not active. */
  lemma BlocksExactly(r: Relay, activeTurn: Option<string>, x: string)
    ensures x in Blocking(r.rows, activeTurn) <==>
      && x in r.rows && r.rows[x].resolved.None?
      && !(r.rows[x].kind == Quiz && r.rows[x].turnId.Some? && r.rows[x].turnId != activeTurn)
  {
  }

  // ----- With which outcome a request ends -----

  /** What a step decides about an open attention request, if it decides anything. */
  function Verdict(r: Relay, a: Action, id: string): Option<Outcome>
    requires id in r.rows
  {
    match a
    case ResolveAttention(target, key, attempt) =>
      if target == id && GetsThrough(r, id, key, attempt) then DeliveryVerdict(r.rows[id].state, attempt) else None
    case GuidanceSettled(target, key, delivered) =>
      if target == id && (id, key) in r.operations && delivered && r.rows[id].state.Delivering? && r.rows[id].key == Some(key)
      then Some(Answered) else None
    case AppServerCleared(target) => if target == id && !r.rows[id].state.Acknowledged? then Some(Failed) else None
    case DismissAll(outcome) => if r.rows[id].state.Acknowledged? then None else Some(outcome)
    case SettleReply(op, Delivered(outcome)) => if op in r.replies && r.replies[op] == id then Some(outcome) else None
    case SettleReply(op, ReplyCleared) => if op in r.replies && r.replies[op] == id then Some(Dismissed) else None
    case CheckpointDeadline(target) => if target == id && id in r.armed then Some(Failed) else None
    case CheckpointUnrecorded(target, _) => if target == id then Some(Failed) else None
    case _ => None
  }

  function DeliveryVerdict(state: State, attempt: Attempt): Option<Outcome> {
    if attempt.replacementRejected then None
    else match state
      case Acknowledged => if attempt.guidance.NoGuidance? then Some(Answered) else None
      case Settled => None
      case Lost => None
      case _ =>
        if !attempt.capable || !attempt.available then None
        else match attempt.writer
          case Unavailable => None
          case Cleared => Some(Failed)
          case Available => if attempt.written then Some(Answered) else None
  }

  lemma StepVerdict(r: Relay, a: Action, id: string)
    requires OpenAttention(r.rows, id) && !a.RemoveSession?
    ensures id in Next(r, a).rows && Next(r, a).rows[id].kind.Attention?
    ensures Next(r, a).rows[id].resolved == Verdict(r, a, id)
  {
    match a
    case ResolveAttention(target, key, attempt) => CallVerdict(r, target, key, attempt, id);
    case _ =>
  }

  lemma CallVerdict(r: Relay, target: string, key: string, attempt: Attempt, id: string)
    requires OpenAttention(r.rows, id)
    ensures var a := ResolveAttention(target, key, attempt);
      && id in Next(r, a).rows && Next(r, a).rows[id].kind.Attention?
      && Next(r, a).rows[id].resolved == Verdict(r, a, id)
  {
  }

  /** The first verdict of a run, each step judged in the state it is taken in. */
  function FirstVerdict(r: Relay, actions: seq<Action>, id: string): Option<Outcome> {
    if actions == [] then None
    else
      var earlier := actions[..|actions| - 1];
      var decided := FirstVerdict(r, earlier, id);
      if decided.Some? || id !in Run(r, earlier).rows then decided
      else Verdict(Run(r, earlier), actions[|actions| - 1], id)
  }

  /** An attention request ends with the first verdict of its session's run, and is open before it. */
  lemma {:induction false} EndsWithFirstVerdict(r: Relay, actions: seq<Action>, id: string)
    requires OpenAttention(r.rows, id)
    requires forall i | 0 <= i < |actions| :: !actions[i].RemoveSession?
    ensures id in Run(r, actions).rows && Run(r, actions).rows[id].kind.Attention?
    ensures Run(r, actions).rows[id].resolved == FirstVerdict(r, actions, id)
  {
    if actions != [] {
      var earlier := actions[..|actions| - 1];
      assert forall i | 0 <= i < |earlier| :: earlier[i] == actions[i];
      EndsWithFirstVerdict(r, earlier, id);
      if OpenAttention(Run(r, earlier).rows, id) {
        StepVerdict(Run(r, earlier), actions[|actions| - 1], id);
      } else {
        StepIsFinal(Run(r, earlier), actions[|actions| - 1], id);
      }
    }
  }
}
