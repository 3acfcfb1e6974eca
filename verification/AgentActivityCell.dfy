/**
  One session's share of the agent-activity projection
  (src/client/features/agent-activity/agent-activity-controller.ts).

  Sockets, timers and tasks are numbers; the operations take the fresh numbers they may use.
  AgentActivityController.dfy proves that the imperative controller acts on every session id by
  these functions, and AgentActivityRuns.dfy interleaves them.
*/
module AgentActivityCell {
  import opened Wrappers
  import Json
  import ToolEfficiency

  datatype Confidence = Fresh | Stale | Reconciling
  datatype Snapshot = Snapshot(details: string, confidence: Confidence)
  type Efficiency = ToolEfficiency.Snapshot

  /** `candidate` and `delivery` are what the two contract parsers made of the payload. */
  datatype Payload =
    | ActivityUpdated(candidate: Option<Snapshot>)
    | EfficiencyUpdated(delivery: Option<Efficiency>)
    | OtherPayload

  /** `foreign` is an event that names another session. */
  datatype Event = Event(sequence: int, foreign: bool, payload: Payload)

  datatype Message = ResyncRequired | RelayEvent(event: Event) | Unreadable

  /** A getSession response; `sequence` is absent unless it is a non-negative safe integer. */
  datatype Read = Read(activity: Option<Snapshot>, delivery: Option<Efficiency>, sequence: Option<nat>)

  /** What a hydrate captures before its await. */
  datatype Hydration = Hydration(version: nat, requestedCursor: nat)

  datatype Cell = Cell(
    disposed: bool,
    selected: bool,
    wanted: bool,
    snapshot: Option<Snapshot>,
    efficiency: Option<Efficiency>,
    cursor: Option<nat>,
    version: Option<nat>,
    socket: Option<nat>,
    timer: Option<nat>,
    resync: Option<nat>,
    attempts: Option<nat>)
  {
    predicate Current(v: nat) {
      !disposed && wanted && version == Some(v)
    }

    function Cursor(): nat {
      cursor.GetOr(0)
    }

    function Version(): nat {
      version.GetOr(0)
    }

    function Apply(sequence: nat, next: Snapshot): Cell {
      this.(cursor := Some(if sequence > Cursor() then sequence else Cursor()), snapshot := Some(next))
    }

    function ApplyOptional(sequence: nat, next: Option<Snapshot>): Cell {
      if next.Some? then Apply(sequence, next.value) else this
    }

    function ApplyEfficiency(delivery: Option<Efficiency>): Cell {
      this.(efficiency := ToolEfficiency.Register(efficiency, delivery))
    }

    function MarkStale(): Cell {
      if snapshot.Some? && snapshot.value.confidence.Fresh?
      then this.(snapshot := Some(snapshot.value.(confidence := Stale))) else this
    }

    /** Single flight: a resync under way is joined, otherwise `task` starts one. */
    function Resync(task: nat): Cell {
      if resync.Some? then this else MarkStale().(resync := Some(task))
    }

    predicate Accepts(e: Event) {
      && !disposed && wanted && !e.foreign
      && 1 <= e.sequence <= Json.MAX_SAFE_INTEGER && e.sequence > Cursor()
    }

    predicate Gap(e: Event) {
      Accepts(e) && e.sequence > Cursor() + 1
    }

    function ApplyPayload(sequence: nat, payload: Payload): Cell {
      match payload
      case ActivityUpdated(candidate) => ApplyOptional(sequence, candidate)
      case EfficiencyUpdated(delivery) => ApplyEfficiency(delivery)
      case OtherPayload => this
    }

    /** A gap moves the cursor up to the event and asks for a resync. */
    function Resynced(e: Event, task: nat): Cell {
      if Gap(e) then this.(cursor := Some(e.sequence - 1)).Resync(task) else this
    }

    function Observe(e: Event, task: nat): Cell {
      if !Accepts(e) then this
      else Resynced(e, task).(cursor := Some(e.sequence)).ApplyPayload(e.sequence, e.payload)
    }

    function CaptureHydration(): Hydration {
      Hydration(Version(), Cursor())
    }

    predicate AcceptsRead(h: Hydration, read: Read) {
      && Current(h.version)
      && (if read.sequence.Some? then read.sequence.value >= Cursor() else Cursor() == h.requestedCursor)
    }

    /** Whether onAuthoritativeSnapshot gets the read: an unsequenced one only for its activity. */
    predicate ForwardsRead(h: Hydration, read: Read) {
      AcceptsRead(h, read) && (read.sequence.Some? || read.activity.Some?)
    }

    /** `None` is a rejected getSession, which marks the session stale without asking whose it is. */
    function HydrateSettle(h: Hydration, response: Option<Read>): Cell {
      if response.None? then MarkStale()
      else if !AcceptsRead(h, response.value) then this
      else
        var read := response.value;
        var at := if read.sequence.Some? then this.(cursor := read.sequence) else this;
        at.ApplyOptional(at.Cursor(), read.activity).ApplyEfficiency(read.delivery)
    }

    function FinishTask(task: nat): Cell {
      if resync == Some(task) then this.(resync := None) else this
    }

    predicate Consumes(socket': nat, v: nat) {
      Current(v) && socket == Some(socket')
    }

    /** A message that brings an event onEvent will get. */
    predicate Hears(socket': nat, v: nat, message: Message) {
      Consumes(socket', v) && message.RelayEvent? && Accepts(message.event)
    }

    /** `onmessage` of a socket opened under version v. */
    function Receive(socket': nat, v: nat, message: Message, task: nat): Cell {
      if !Consumes(socket', v) then this
      else
        var c := this.(attempts := None);
        match message
        case ResyncRequired => c.Resync(task)
        case RelayEvent(event) => c.Observe(event, task)
        case Unreadable => c
    }

    predicate HandlesClose(v: nat) {
      Current(v) && !selected
    }

    /** Whether a close schedules a reconnect, out of `delays` configured ones. */
    predicate Reconnects(v: nat, delays: nat) {
      HandlesClose(v) && attempts.GetOr(0) < delays
    }

    /** `onclose` of any socket opened under version v: it drops whatever socket is registered. */
    function Close(v: nat, delays: nat, timer': nat): Cell {
      if !HandlesClose(v) then this
      else
        var c := this.(socket := None).MarkStale();
        if attempts.GetOr(0) < delays
        then c.(attempts := Some(attempts.GetOr(0) + 1), timer := Some(timer')) else c
    }

    predicate Reopens(v: nat) {
      Current(v) && !selected
    }

    function TimerFires(v: nat, socket': nat): Cell {
      var c := this.(timer := None);
      if Reopens(v) then c.(socket := Some(socket')) else c
    }

    function Remove(): Cell {
      Cell(disposed, selected, false, None, None, None, Some(Version() + 1), None, None, None, None)
    }

    /** Whether `sync` opens a socket for a session it wants. */
    predicate Opens(select: bool) {
      !disposed && !select && socket.None?
    }

    function Sync(want: bool, select: bool, socket': nat): Cell {
      if disposed then this
      else if !want then (if version.Some? then Remove() else this).(wanted := false, selected := select, socket := None)
      else
        this.(selected := select, wanted := true, version := Some(Version()),
              socket := if select then None else if socket.Some? then socket else Some(socket'))
    }

    /** The list snapshots of one session: the first valid one fills an empty projection. */
    function Seed(items: seq<Option<Snapshot>>): Cell {
      if items == [] then this
      else
        var c := Seed(items[..|items| - 1]);
        if c.snapshot.None? then c.ApplyOptional(c.Cursor(), items[|items| - 1]) else c
    }

    function Dispose(): Cell {
      (if wanted then Remove() else this).(disposed := true)
    }
  }

  function Absent(): Cell {
    Cell(false, false, false, None, None, None, None, None, None, None, None)
  }
}
