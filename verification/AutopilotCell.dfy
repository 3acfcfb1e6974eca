/**
  One session's share of the Autopilot projection
  (src/client/features/autopilot/autopilot-controller.ts).

  The controller keeps a dozen Maps and Sets keyed by session id. A Cell gathers what they
  say about one id, and each operation is a function on that cell. AutopilotController.dfy
  proves that the imperative controller acts on every id by exactly these functions;
  AutopilotRuns.dfy interleaves them.
*/
module AutopilotCell {
  import opened Wrappers

  /** What `isAutopilotSnapshot` accepts; `recovery` is the announcement its health asks for. */
  datatype Snapshot = Snapshot(enabled: bool, recovery: Option<string>, details: string)

  datatype Attention = Attention(requestId: string, turnId: Option<string>, report: Option<string>, details: string)

  /** The shapes `#applyAttention` tells apart; a `None` item is no attention envelope. */
  datatype Candidate =
    | Direct(request: Attention)
    | Envelope(request: Attention)
    | Items(items: seq<Option<Attention>>)
    | Malformed

  /** A journal event; `report` is the bounded report of a message, absent when blank. */
  datatype Body =
    | AutopilotUpdated(candidate: Option<Snapshot>)
    | AttentionRequired(attention: Candidate)
    | AgentMessageCompleted(turnId: Option<string>, finalAnswer: bool, report: Option<string>)
    | AttentionResolved(requestId: string, failed: bool)
    | OtherEvent

  /** A list item or getSession response; `sequence` is absent when it is not an integer. */
  datatype Read = Read(autopilot: Option<Snapshot>, interactions: Candidate, sequence: Option<nat>)

  /** What a hydrate captures before its await. */
  datatype Hydration = Hydration(
    version: nat, epoch: nat, requestedCursor: nat, requestRevision: Option<nat>, mutationEpoch: nat)

  /** What a toggle or resolve captures before its await. */
  datatype Mutation = Mutation(version: nat, revision: nat)

  datatype ToggleOutcome = Updated(candidate: Option<Snapshot>) | Failed(message: string)

  /** An envelope drops an empty supervisor report on its way into the projection. */
  function Stored(envelope: Attention): Attention {
    if envelope.report == Some("") then envelope.(report := None) else envelope
  }

  function FirstEnvelope(items: seq<Option<Attention>>): Option<Attention> {
    if items == [] then None
    else if items[0].Some? then Some(Stored(items[0].value))
    else FirstEnvelope(items[1..])
  }

  /** Whether a completed message belongs to the turn an attention request came from. */
  predicate Reports(attention: Attention, turnId: Option<string>, finalAnswer: bool, report: Option<string>) {
    && attention.turnId.Some?
    && attention.turnId.value != ""
    && attention.turnId == turnId
    && finalAnswer
    && report.Some?
  }

  datatype Cell = Cell(
    disposed: bool,
    wanted: bool,
    snapshot: Option<Snapshot>,
    attention: Option<Attention>,
    pending: bool,
    error: Option<string>,
    recoveryError: Option<string>,
    version: Option<nat>,
    revision: Option<nat>,
    requestRevision: Option<nat>,
    mutationEpoch: Option<nat>,
    floor: Option<nat>,
    hydrateEpoch: Option<nat>,
    cursor: Option<nat>)
  {
    predicate Current(v: nat) {
      !disposed && wanted && version == Some(v)
    }

    function Cursor(): nat {
      cursor.GetOr(0)
    }

    function Version(): nat {
      version.GetOr(0)
    }

    function Revision(): nat {
      revision.GetOr(0)
    }

    function ApplySnapshot(candidate: Option<Snapshot>): Cell {
      if candidate.None? then this
      else this.(snapshot := candidate, recoveryError := candidate.value.recovery)
    }

    function ApplyAttention(candidate: Candidate): Cell {
      match candidate
      case Direct(request) => this.(attention := Some(request))
      case Envelope(request) => this.(attention := Some(Stored(request)))
      case Items(items) => this.(attention := FirstEnvelope(items))
      case Malformed => this
    }

    function AcceptSnapshot(read: Read): Cell {
      this.(revision := Some(Revision() + 1))
          .ApplySnapshot(read.autopilot)
          .ApplyAttention(read.interactions)
    }

    /** A sequenced source moves the cursor and retires a floor it has passed. */
    function AdvanceTo(sequence: Option<nat>): Cell {
      if sequence.None? then this
      else this.(cursor := sequence,
                 floor := if floor.Some? && sequence.value > floor.value then None else floor)
    }

    /** Whether `floor` lets a list item or an authoritative read through. */
    predicate AboveFloor(sequence: Option<nat>) {
      floor.None? || (sequence.Some? && sequence.value > floor.value)
    }

    predicate AcceptsItem(read: Read) {
      && !pending
      && AboveFloor(read.sequence)
      && (|| (read.sequence.Some? && read.sequence.value > Cursor())
          || (snapshot.None? && Cursor() == 0))
    }

    function Registered(): Cell {
      this.(version := Some(Version()), revision := Some(Revision()))
    }

    function BootstrapItem(read: Read): Cell {
      var c := Registered();
      if c.AcceptsItem(read) then c.AdvanceTo(read.sequence).AcceptSnapshot(read) else c
    }

    /** The list's items for this session, in list order. */
    function BootstrapItems(items: seq<Read>): Cell {
      if items == [] then this
      else BootstrapItems(items[..|items| - 1]).BootstrapItem(items[|items| - 1])
    }

    /** `bootstrap` seen from one session: no item for it means it left the list. */
    function Bootstrap(items: seq<Read>): Cell {
      if disposed then this
      else if items == [] then (if wanted then Remove() else this)
      else this.(wanted := true).BootstrapItems(items)
    }

    function ApplyBody(body: Body): Cell {
      match body
      case AutopilotUpdated(candidate) => ApplySnapshot(candidate)
      case AttentionRequired(candidate) => ApplyAttention(candidate)
      case AgentMessageCompleted(turnId, finalAnswer, report) =>
        if attention.Some? && Reports(attention.value, turnId, finalAnswer, report)
        then this.(attention := Some(attention.value.(report := report)))
        else this
      case AttentionResolved(_, _) => this.(attention := None)
      case OtherEvent => this
    }

    predicate AcceptsEvent(sequence: nat) {
      !disposed && wanted && sequence > Cursor()
    }

    function MoveTo(sequence: nat): Cell {
      this.(cursor := Some(sequence), revision := Some(Revision() + 1))
    }

    function Observe(sequence: nat, body: Body): Cell {
      if AcceptsEvent(sequence) then MoveTo(sequence).ApplyBody(body) else this
    }

    predicate AcceptsAuthoritative(read: Read) {
      && !disposed && wanted && !pending
      && AboveFloor(read.sequence)
      && (read.sequence.Some? ==> read.sequence.value >= Cursor())
    }

    function ApplyAuthoritative(read: Read): Cell {
      if AcceptsAuthoritative(read) then AdvanceTo(read.sequence).AcceptSnapshot(read) else this
    }

    function CaptureHydration(expectedCursor: Option<nat>): Hydration {
      Hydration(Version(), hydrateEpoch.GetOr(0) + 1, expectedCursor.GetOr(Cursor()),
                requestRevision, mutationEpoch.GetOr(0))
    }

    function HydrateStart(): Cell {
      this.(hydrateEpoch := Some(hydrateEpoch.GetOr(0) + 1))
    }

    predicate AcceptsHydration(h: Hydration, read: Read) {
      && Current(h.version)
      && hydrateEpoch == Some(h.epoch)
      && mutationEpoch.GetOr(0) == h.mutationEpoch
      && (requestRevision.Some? ==> requestRevision == h.requestRevision)
      && (if read.sequence.Some? then read.sequence.value > Cursor() else Cursor() == h.requestedCursor)
    }

    /** A read that nothing overtook counts when its sequence is ahead, or when it has none and nothing moved. */
    function AcceptHydration(requestedCursor: nat, read: Read): Cell {
      if if read.sequence.Some? then read.sequence.value > Cursor() else Cursor() == requestedCursor
      then this.(cursor := if read.sequence.Some? then read.sequence else cursor).AcceptSnapshot(read)
      else this
    }

    /** `None` is a rejected getSession. Unlike a list item, a hydrate never retires a floor. */
    function HydrateSettle(h: Hydration, response: Option<Read>): Cell {
      if response.Some? && AcceptsHydration(h, response.value)
      then AcceptHydration(h.requestedCursor, response.value)
      else this
    }

    function CaptureMutation(): Mutation {
      Mutation(Version(), Revision())
    }

    predicate MayToggle() {
      !disposed && wanted && !pending
    }

    function ToggleStart(): Cell {
      this.(requestRevision := Some(requestRevision.GetOr(0) + 1),
            mutationEpoch := Some(mutationEpoch.GetOr(0) + 1),
            pending := true, error := None, recoveryError := None)
    }

    /** The revision stamp: nothing else was accepted since the mutation was sent. */
    predicate Unraced(m: Mutation) {
      Current(m.version) && revision == Some(m.revision)
    }

    function ToggleApplied(m: Mutation, candidate: Option<Snapshot>): Cell {
      ApplySnapshot(candidate).(
        revision := Some(m.revision + 1),
        floor := Some(Cursor()),
        attention := if candidate.Some? && !candidate.value.enabled then None else attention)
    }

    /** The `finally` block of both mutations. */
    function Finish(version: nat): Cell {
      if Current(version)
      then this.(pending := false, mutationEpoch := Some(mutationEpoch.GetOr(0) + 1))
      else this
    }

    function ToggleSettle(m: Mutation, outcome: ToggleOutcome): Cell {
      var settled :=
        if !Unraced(m) then this
        else match outcome
          case Updated(candidate) => ToggleApplied(m, candidate)
          case Failed(message) => this.(error := Some(message));
      settled.Finish(m.version)
    }

    predicate MayResolve() {
      attention.Some? && !pending && !disposed
    }

    function ResolveStart(): Cell {
      this.(mutationEpoch := Some(mutationEpoch.GetOr(0) + 1), pending := true, error := None)
    }

    function GuidanceTooLong(): Cell {
      this.(error := Some("Guidance must be 600 characters or fewer."))
    }

    /** The resolve request settled: `failure` absent means it was accepted. */
    predicate ResolveHydrates(m: Mutation, failure: Option<string>) {
      Unraced(m) && failure.None?
    }

    function ResolveReply(m: Mutation, failure: Option<string>): Cell {
      if ResolveHydrates(m, failure) then HydrateStart()
      else if Unraced(m) then this.(error := failure).Finish(m.version)
      else Finish(m.version)
    }

    function Remove(): Cell {
      Cell(disposed, false, None, None, false, None, None, Some(Version() + 1),
           None, None, None, None, None, None)
    }

    /** Versions and cursors outlive disposal; nothing reads them again. */
    function Dispose(): Cell {
      Cell(true, false, None, None, false, None, None, version, None, None, None, None, None, cursor)
    }
  }

  function Absent(): Cell {
    Cell(false, false, None, None, false, None, None, None, None, None, None, None, None, None)
  }
}
