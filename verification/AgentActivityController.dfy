/**
  The imperative controller of src/client/features/agent-activity/agent-activity-controller.ts.

  Its fields are the source's private Maps and Sets, updated in place. Every method is proved to
  act on each session id by the matching AgentActivityCell function and to leave the other ids
  alone. Sockets, timers and resync tasks are numbered in the order they are created; a callback
  is a method that takes back what the closure captured.
*/
module AgentActivityClient {
  import opened Wrappers
  import opened SessionList
  import opened AgentActivityCell
  import Json

  class AgentActivityController {
    const reconnectDelays: seq<nat>
    var snapshots: map<string, Snapshot>
    var efficiency: map<string, Efficiency>
    var cursors: map<string, nat>
    var wanted: set<string>
    var sockets: map<string, nat>
    var versions: map<string, nat>
    var timers: map<string, nat>
    var resyncing: map<string, nat>
    var reconnectAttempts: map<string, nat>
    var selected: Option<string>
    var disposed: bool
    /** What the onEvent and onAuthoritativeSnapshot callbacks have received, in order. */
    var forwarded: seq<(string, Event)>
    var authoritative: seq<(string, Read)>
    /** The number of the next socket, timer or task. */
    var next: nat

    /** Everything the controller says about one session. */
    ghost function View(id: string): Cell
      reads this
    {
      Cell(disposed, selected == Some(id), id in wanted, Get(snapshots, id), Get(efficiency, id), Get(cursors, id),
           Get(versions, id), Get(sockets, id), Get(timers, id), Get(resyncing, id), Get(reconnectAttempts, id))
    }

    constructor (delays: seq<nat>)
      ensures reconnectDelays == delays && forwarded == [] && authoritative == []
      ensures forall x: string :: View(x) == Absent()
    {
      reconnectDelays := delays;
      snapshots, efficiency, cursors, wanted, sockets := map[], map[], map[], {}, map[];
      versions, timers, resyncing, reconnectAttempts := map[], map[], map[], map[];
      selected, disposed, next := None, false, 0;
      forwarded, authoritative := [], [];
    }

    // ----- Bootstrap and sync -----

    /** Numbers of the sockets a sync opened: new ones, all different. */
    static ghost predicate Numbered(dialled: map<string, nat>, low: nat, high: nat) {
      && (forall x | x in dialled :: low <= dialled[x] < high)
      && (forall x, y | x in dialled && y in dialled && dialled[x] == dialled[y] :: x == y)
    }

    static lemma NumberedNext(dialled: map<string, nat>, low: nat, high: nat, id: string)
      requires Numbered(dialled, low, high) && low <= high
      ensures Numbered(dialled[id := high], low, high + 1)
    {
    }

    /** What a sync with these arguments makes of the session x. */
    static ghost function Synced(c: Cell, x: string, ids: seq<string>, select: Option<string>, dialled: map<string, nat>): Cell {
      c.Sync(x in ids, select == Some(x), Get(dialled, x).GetOr(0))
    }

    method Bootstrap(sessions: seq<(string, Option<Snapshot>)>, select: Option<string>)
      returns (dialled: map<string, nat>, sent: map<string, Hydration>)
      modifies `snapshots, `efficiency, `cursors, `wanted, `sockets, `versions, `timers, `resyncing, `reconnectAttempts,
               `selected, `next
      ensures Numbered(dialled, old(next), next)
      ensures forall x: string :: var c := old(View(x)).Seed(ItemsOf(sessions, x));
        && View(x) == c.Sync(ItemsOf(sessions, x) != [], select == Some(x), Get(dialled, x).GetOr(0))
        && (x in sent <==> !c.disposed && ItemsOf(sessions, x) != [])
        && (x in sent ==> sent[x] == View(x).CaptureHydration())
        && (x in dialled <==> ItemsOf(sessions, x) != [] && c.Opens(select == Some(x)))
    {
      for i := 0 to |sessions|
        invariant next == old(next)
        invariant forall x: string :: View(x) == old(View(x)).Seed(ItemsOf(sessions[..i], x))
      {
        var (id, candidate) := sessions[i];
        ItemsOfNext(sessions, i);
        SeedItem(id, candidate);
      }
      assert sessions[..|sessions|] == sessions;
      var ids := seq(|sessions|, i requires 0 <= i < |sessions| => sessions[i].0);
      assert forall x: string :: x in ids <==> ItemsOf(sessions, x) != [] by {
        forall x: string ensures x in ids <==> ItemsOf(sessions, x) != [] {
          if i :| 0 <= i < |sessions| && sessions[i].0 == x { assert ids[i] == x; }
        }
      }
      dialled, sent := Sync(ids, select);
    }

    method SeedItem(id: string, candidate: Option<Snapshot>)
      modifies `snapshots, `cursors
      ensures View(id) == (var c := old(View(id));
                           if c.snapshot.None? then c.ApplyOptional(c.Cursor(), candidate) else c)
      ensures forall x: string :: x != id ==> View(x) == old(View(x))
    {
      if id !in snapshots && candidate.Some? {
        Apply(id, Get(cursors, id).GetOr(0), candidate.value);
      }
    }

    /** `dialled` numbers the sockets this call opened, `sent` the getSession calls it sent. */
    method Sync(ids: seq<string>, select: Option<string>) returns (dialled: map<string, nat>, sent: map<string, Hydration>)
      modifies `snapshots, `efficiency, `cursors, `wanted, `sockets, `versions, `timers, `resyncing, `reconnectAttempts,
               `selected, `next
      ensures Numbered(dialled, old(next), next)
      ensures forall x: string :: var c := old(View(x));
        && View(x) == Synced(c, x, ids, select, dialled)
        && (x in sent <==> !c.disposed && x in ids)
        && (x in sent ==> sent[x] == View(x).CaptureHydration())
        && (x in dialled <==> x in ids && c.Opens(select == Some(x)))
    {
      dialled, sent := map[], map[];
      if disposed {
        return;
      }
      Reconcile(ids, select);
      dialled, sent := HydrateAndOpen();
      forall x: string
        ensures View(x) == Synced(old(View(x)), x, ids, select, dialled)
        ensures x in dialled <==> x in ids && old(View(x)).Opens(select == Some(x))
      {
        StagesAreSync(old(View(x)), x in ids, select == Some(x), Get(dialled, x).GetOr(0));
      }
    }

    method Reconcile(ids: seq<string>, select: Option<string>)
      modifies `snapshots, `efficiency, `cursors, `wanted, `sockets, `versions, `timers, `resyncing, `reconnectAttempts,
               `selected
      ensures next == old(next)
      ensures forall x: string :: View(x) == Pruned(Adopted(old(View(x)), x in ids, select == Some(x)))
    {
      Adopt(ids, select);
      Prune();
    }

    /** Adopting, pruning and opening make up one sync of a session. */
    static lemma StagesAreSync(c: Cell, want: bool, select: bool, socket: nat)
      ensures var d := Pruned(Adopted(c, want, select));
        !c.disposed ==>
          && (d.wanted && !d.selected && d.socket.None? <==> want && c.Opens(select))
          && (if want && c.Opens(select) then d.(socket := Some(socket)) else d) == c.Sync(want, select, socket)
          && (want ==> d.CaptureHydration() == c.Sync(want, select, socket).CaptureHydration())
    {
    }

    method Adopt(ids: seq<string>, select: Option<string>)
      modifies `selected, `wanted, `versions
      ensures forall x: string :: View(x) == Adopted(old(View(x)), x in ids, select == Some(x))
    {
      selected := select;
      wanted := set x | x in ids;
      RegisterWanted();
    }

    static ghost function Adopted(c: Cell, want: bool, select: bool): Cell {
      c.(wanted := want, selected := select, version := if want then Some(c.Version()) else c.version)
    }

    /** Forgets the sessions no longer wanted and closes every socket that is not needed. */
    method Prune()
      modifies `snapshots, `efficiency, `cursors, `wanted, `sockets, `versions, `timers, `resyncing, `reconnectAttempts
      ensures next == old(next)
      ensures forall x: string :: View(x) == Pruned(old(View(x)))
    {
      RemoveUnwanted();
      CloseSockets();
    }

    static ghost function Pruned(c: Cell): Cell {
      var d := if !c.wanted && c.version.Some? then c.Remove() else c;
      if c.selected || !c.wanted then d.(socket := None) else d
    }

    method Select(id: Option<string>) returns (dialled: map<string, nat>, sent: map<string, Hydration>)
      modifies `snapshots, `efficiency, `cursors, `wanted, `sockets, `versions, `timers, `resyncing, `reconnectAttempts,
               `selected, `next
      ensures Numbered(dialled, old(next), next)
      ensures forall x: string :: var c := old(View(x));
        && View(x) == c.Sync(c.wanted, id == Some(x), Get(dialled, x).GetOr(0))
        && (x in sent <==> !c.disposed && c.wanted)
        && (x in sent ==> sent[x] == View(x).CaptureHydration())
        && (x in dialled <==> c.wanted && c.Opens(id == Some(x)))
    {
      var ids := Listed(wanted);
      dialled, sent := Sync(ids, id);
    }

    static method Listed(s: set<string>) returns (ids: seq<string>)
      ensures forall x :: x in ids <==> x in s
    {
      ids := [];
      var rest := s;
      while rest != {}
        invariant rest <= s && forall x :: x in ids <==> x in s - rest
        decreases rest
      {
        var x :| x in rest;
        ids, rest := ids + [x], rest - {x};
      }
    }

    method RegisterWanted()
      modifies `versions
      ensures forall x: string :: var c := old(View(x));
        View(x) == if c.wanted then c.(version := Some(c.Version())) else c
    {
      var rest := wanted;
      while rest != {}
        invariant rest <= wanted
        invariant forall x: string :: var c := old(View(x));
          View(x) == if x in wanted - rest then c.(version := Some(c.Version())) else c
        decreases rest
      {
        var id :| id in rest;
        if id !in versions {
          versions := versions[id := 0];
        }
        rest := rest - {id};
      }
    }

    method RemoveUnwanted()
      modifies `snapshots, `efficiency, `cursors, `wanted, `sockets, `versions, `timers, `resyncing, `reconnectAttempts
      ensures next == old(next) && wanted == old(wanted)
      ensures forall x: string :: var c := old(View(x));
        View(x) == if !c.wanted && c.version.Some? then c.Remove() else c
    {
      ghost var before := versions.Keys;
      var rest := versions.Keys - wanted;
      while rest != {}
        invariant rest <= before - wanted && next == old(next) && wanted == old(wanted)
        invariant forall x: string :: View(x) == if x in before - wanted - rest then old(View(x)).Remove() else old(View(x))
        decreases rest
      {
        var id :| id in rest;
        Remove(id);
        rest := rest - {id};
      }
    }

    method CloseSockets()
      modifies `sockets
      ensures forall x: string :: var c := old(View(x));
        View(x) == if c.selected || !c.wanted then c.(socket := None) else c
    {
      var rest := sockets.Keys;
      while rest != {}
        invariant rest <= old(sockets).Keys
        invariant forall x: string :: var c := old(View(x));
          View(x) == if x !in rest && (c.selected || !c.wanted) then c.(socket := None) else c
        decreases rest
      {
        var id :| id in rest;
        if selected == Some(id) || id !in wanted {
          sockets := sockets - {id};
        }
        rest := rest - {id};
      }
    }

    method HydrateAndOpen() returns (dialled: map<string, nat>, sent: map<string, Hydration>)
      modifies `sockets, `next
      ensures Numbered(dialled, old(next), next)
      ensures sent.Keys == wanted && forall x | x in sent :: sent[x] == old(View(x)).CaptureHydration()
      ensures forall x: string :: var c := old(View(x));
        && (x in dialled <==> c.wanted && !c.selected && c.socket.None?)
        && View(x) == if x in dialled then c.(socket := Some(dialled[x])) else c
    {
      dialled, sent := map[], map[];
      var rest := wanted;
      while rest != {}
        invariant rest <= wanted && sent.Keys == wanted - rest && old(next) <= next
        invariant forall x | x in sent :: sent[x] == old(View(x)).CaptureHydration()
        invariant Numbered(dialled, old(next), next)
        invariant forall x: string :: var c := old(View(x));
          && (x in dialled <==> x !in rest && c.wanted && !c.selected && c.socket.None?)
          && View(x) == if x in dialled then c.(socket := Some(dialled[x])) else c
        decreases rest
      {
        var id :| id in rest;
        var h := HydrateStart(id);
        sent := sent[id := h];
        if selected != Some(id) && id !in sockets {
          NumberedNext(dialled, old(next), next, id);
          dialled := dialled[id := next];
          Open(id);
        }
        rest := rest - {id};
      }
    }

    method Remove(id: string)
      modifies `snapshots, `efficiency, `cursors, `wanted, `sockets, `versions, `timers, `resyncing, `reconnectAttempts
      ensures next == old(next) && wanted == old(wanted) - {id}
      ensures View(id) == old(View(id)).Remove()
      ensures forall x: string :: x != id ==> View(x) == old(View(x))
    {
      wanted := wanted - {id};
      versions := versions[id := Get(versions, id).GetOr(0) + 1];
      ForgetConnection(id);
      ForgetProjection(id);
    }

    method ForgetProjection(id: string)
      modifies `snapshots, `efficiency, `cursors
      ensures View(id) == old(View(id)).(snapshot := None, efficiency := None, cursor := None)
      ensures forall x: string :: x != id ==> View(x) == old(View(x))
    {
      snapshots := snapshots - {id};
      efficiency := efficiency - {id};
      cursors := cursors - {id};
    }

    method ForgetConnection(id: string)
      modifies `sockets, `timers, `resyncing, `reconnectAttempts
      ensures View(id) == old(View(id)).(socket := None, timer := None, resync := None, attempts := None)
      ensures forall x: string :: x != id ==> View(x) == old(View(x))
    {
      sockets := sockets - {id};
      timers := timers - {id};
      resyncing := resyncing - {id};
      reconnectAttempts := reconnectAttempts - {id};
    }

    method Dispose()
      modifies `snapshots, `efficiency, `cursors, `wanted, `sockets, `versions, `timers, `resyncing, `reconnectAttempts,
               `disposed
      ensures next == old(next)
      ensures forall x: string :: View(x) == old(View(x)).Dispose()
    {
      disposed := true;
      var rest := wanted;
      while rest != {}
        invariant disposed && rest <= wanted <= old(wanted) && next == old(next)
        invariant forall x: string :: View(x) == if x in old(wanted) - rest
                                                 then old(View(x)).Remove().(disposed := true)
                                                 else old(View(x)).(disposed := true)
        decreases rest
      {
        var id :| id in rest;
        Remove(id);
        rest := rest - {id};
      }
    }

    // ----- Events and reads -----

    method Observe(id: string, event: Event)
      modifies `snapshots, `efficiency, `cursors, `resyncing, `next, `forwarded
      ensures forwarded == old(forwarded) + (if old(View(id)).Accepts(event) then [(id, event)] else [])
      ensures View(id) == old(View(id)).Observe(event, old(next))
      ensures next == old(next) + (if old(View(id)).Gap(event) && old(View(id)).resync.None? then 1 else 0)
      ensures forall x: string :: x != id ==> View(x) == old(View(x))
    {
      if disposed || id !in wanted || !(1 <= event.sequence <= Json.MAX_SAFE_INTEGER) || event.foreign {
        return;
      }
      var cursor := Get(cursors, id).GetOr(0);
      if event.sequence <= cursor {
        return;
      }
      Accept(id, event);
    }

    method Accept(id: string, event: Event)
      requires View(id).Accepts(event)
      modifies `snapshots, `efficiency, `cursors, `resyncing, `next, `forwarded
      ensures forwarded == old(forwarded) + [(id, event)]
      ensures View(id) == old(View(id)).Observe(event, old(next))
      ensures next == old(next) + (if old(View(id)).Gap(event) && old(View(id)).resync.None? then 1 else 0)
      ensures forall x: string :: x != id ==> View(x) == old(View(x))
    {
      NoteGap(id, event);
      Forward(id, event);
      Consume(id, event.sequence, event.payload);
    }

    method Forward(id: string, event: Event)
      modifies `forwarded
      ensures forwarded == old(forwarded) + [(id, event)]
      ensures forall x: string :: View(x) == old(View(x))
    {
      forwarded := forwarded + [(id, event)];
    }

    method NoteGap(id: string, event: Event)
      requires View(id).Accepts(event)
      modifies `snapshots, `cursors, `resyncing, `next
      ensures View(id) == old(View(id)).Resynced(event, old(next))
      ensures next == old(next) + (if old(View(id)).Gap(event) && old(View(id)).resync.None? then 1 else 0)
      ensures forall x: string :: x != id ==> View(x) == old(View(x))
    {
      if event.sequence > Get(cursors, id).GetOr(0) + 1 {
        SkipTo(id, event.sequence - 1);
      }
    }

    /** A gap moves the cursor up to the event and asks for a resync. */
    method SkipTo(id: string, sequence: nat)
      modifies `snapshots, `cursors, `resyncing, `next
      ensures View(id) == old(View(id)).(cursor := Some(sequence)).Resync(old(next))
      ensures next == old(next) + (if old(View(id)).resync.None? then 1 else 0)
      ensures forall x: string :: x != id ==> View(x) == old(View(x))
    {
      MoveCursor(id, sequence);
      Resync(id);
    }

    method Consume(id: string, sequence: nat, payload: Payload)
      modifies `snapshots, `efficiency, `cursors
      ensures View(id) == old(View(id)).(cursor := Some(sequence)).ApplyPayload(sequence, payload)
      ensures forall x: string :: x != id ==> View(x) == old(View(x))
    {
      MoveCursor(id, sequence);
      ApplyPayload(id, sequence, payload);
    }

    method MoveCursor(id: string, sequence: nat)
      modifies `cursors
      ensures View(id) == old(View(id)).(cursor := Some(sequence))
      ensures forall x: string :: x != id ==> View(x) == old(View(x))
    {
      cursors := cursors[id := sequence];
    }

    method ApplyPayload(id: string, sequence: nat, payload: Payload)
      modifies `snapshots, `efficiency, `cursors
      ensures View(id) == old(View(id)).ApplyPayload(sequence, payload)
      ensures forall x: string :: x != id ==> View(x) == old(View(x))
    {
      match payload {
        case ActivityUpdated(candidate) => ApplyOptional(id, sequence, candidate);
        case EfficiencyUpdated(delivery) => ApplyEfficiency(id, delivery);
        case OtherPayload =>
      }
    }

    method HydrateStart(id: string) returns (h: Hydration)
      ensures h == View(id).CaptureHydration()
    {
      h := Hydration(Get(versions, id).GetOr(0), Get(cursors, id).GetOr(0));
    }

    /** `None` is a rejected getSession. */
    method HydrateSettle(id: string, h: Hydration, response: Option<Read>)
      modifies `snapshots, `efficiency, `cursors, `authoritative
      ensures authoritative == old(authoritative)
        + (if response.Some? && old(View(id)).ForwardsRead(h, response.value) then [(id, response.value)] else [])
      ensures View(id) == old(View(id)).HydrateSettle(h, response)
      ensures forall x: string :: x != id ==> View(x) == old(View(x))
    {
      if response.None? {
        MarkStale(id);
        return;
      }
      if !Current(id, h.version) {
        return;
      }
      var cursor := Get(cursors, id).GetOr(0);
      var read := response.value;
      if read.sequence.Some? {
        if read.sequence.value < cursor {
          return;
        }
        cursors := cursors[id := read.sequence.value];
        ApplyRead(id, read.sequence.value, read);
        ForwardRead(id, read);
      } else if cursor == h.requestedCursor {
        ApplyRead(id, cursor, read);
        if read.activity.Some? {
          ForwardRead(id, read);
        }
      }
    }

    method ApplyRead(id: string, sequence: nat, read: Read)
      modifies `snapshots, `efficiency, `cursors
      ensures View(id) == old(View(id)).ApplyOptional(sequence, read.activity).ApplyEfficiency(read.delivery)
      ensures forall x: string :: x != id ==> View(x) == old(View(x))
    {
      ApplyOptional(id, sequence, read.activity);
      ApplyEfficiency(id, read.delivery);
    }

    method ForwardRead(id: string, read: Read)
      modifies `authoritative
      ensures authoritative == old(authoritative) + [(id, read)]
      ensures forall x: string :: View(x) == old(View(x))
    {
      authoritative := authoritative + [(id, read)];
    }

    /** A resync under way is joined; otherwise the next number names the new task. */
    method Resync(id: string)
      modifies `snapshots, `resyncing, `next
      ensures View(id) == old(View(id)).Resync(old(next))
      ensures next == old(next) + (if old(View(id)).resync.None? then 1 else 0)
      ensures forall x: string :: x != id ==> View(x) == old(View(x))
    {
      if id in resyncing {
        return;
      }
      MarkStale(id);
      resyncing := resyncing[id := next];
      next := next + 1;
    }

    /** refreshActivity succeeded: the task goes on to a hydrate only in its own incarnation. */
    method RefreshSucceeded(id: string, version: nat) returns (h: Option<Hydration>)
      ensures h == if View(id).Current(version) then Some(View(id).CaptureHydration()) else None
    {
      if !Current(id, version) {
        return None;
      }
      var hydration := HydrateStart(id);
      return Some(hydration);
    }

    /** The `finally` of a resync task compares the task it belongs to. */
    method FinishTask(id: string, task: nat)
      modifies `resyncing
      ensures View(id) == old(View(id)).FinishTask(task)
      ensures forall x: string :: x != id ==> View(x) == old(View(x))
    {
      if Get(resyncing, id) == Some(task) {
        resyncing := resyncing - {id};
      }
    }

    // ----- Sockets -----

    method Open(id: string)
      modifies `sockets, `next
      ensures next == old(next) + 1 && View(id) == old(View(id)).(socket := Some(old(next)))
      ensures forall x: string :: x != id ==> View(x) == old(View(x))
    {
      sockets := sockets[id := next];
      next := next + 1;
    }

    /** `onmessage` of a socket opened under the given version. */
    method Receive(id: string, socket: nat, version: nat, message: Message)
      modifies `snapshots, `efficiency, `cursors, `resyncing, `reconnectAttempts, `next, `forwarded
      ensures forwarded == old(forwarded)
        + (if old(View(id)).Hears(socket, version, message) then [(id, message.event)] else [])
      ensures View(id) == old(View(id)).Receive(socket, version, message, old(next))
      ensures old(next) <= next && (View(id).resync == Some(old(next)) && old(View(id)).resync.None? ==> next == old(next) + 1)
      ensures forall x: string :: x != id ==> View(x) == old(View(x))
    {
      if !Current(id, version) || Get(sockets, id) != Some(socket) {
        return;
      }
      reconnectAttempts := reconnectAttempts - {id};
      match message {
        case ResyncRequired => Resync(id);
        case RelayEvent(event) => Observe(id, event);
        case Unreadable =>
      }
    }

    /** `onclose` of any socket opened under the given version. */
    method Close(id: string, version: nat) returns (timer: Option<nat>)
      modifies `snapshots, `sockets, `timers, `reconnectAttempts, `next
      ensures View(id) == old(View(id)).Close(version, |reconnectDelays|, old(next))
      ensures timer == if old(View(id)).Reconnects(version, |reconnectDelays|) then Some(old(next)) else None
      ensures next == old(next) + (if timer.Some? then 1 else 0)
      ensures forall x: string :: x != id ==> View(x) == old(View(x))
    {
      if !Current(id, version) || selected == Some(id) {
        return None;
      }
      sockets := sockets - {id};
      MarkStale(id);
      var attempt := Get(reconnectAttempts, id).GetOr(0);
      if attempt >= |reconnectDelays| {
        return None;
      }
      ScheduleReconnect(id, attempt);
      timer := Some(next - 1);
    }

    method ScheduleReconnect(id: string, attempt: nat)
      modifies `timers, `reconnectAttempts, `next
      ensures next == old(next) + 1
      ensures View(id) == old(View(id)).(attempts := Some(attempt + 1), timer := Some(old(next)))
      ensures forall x: string :: x != id ==> View(x) == old(View(x))
    {
      reconnectAttempts := reconnectAttempts[id := attempt + 1];
      timers := timers[id := next];
      next := next + 1;
    }

    /** A reconnect timeout set under the given version. */
    method TimerFires(id: string, version: nat)
      modifies `sockets, `timers, `next
      ensures View(id) == old(View(id)).TimerFires(version, old(next))
      ensures next == old(next) + (if old(View(id)).Reopens(version) then 1 else 0)
      ensures forall x: string :: x != id ==> View(x) == old(View(x))
    {
      timers := timers - {id};
      if Current(id, version) && selected != Some(id) {
        Open(id);
      }
    }

    // ----- Private helpers -----

    predicate Current(id: string, version: nat)
      reads this
    {
      !disposed && id in wanted && Get(versions, id) == Some(version)
    }

    /** Storing an equal snapshot again is skipped, as there is nothing to publish. */
    method Apply(id: string, sequence: nat, next: Snapshot)
      modifies `snapshots, `cursors
      ensures View(id) == old(View(id)).Apply(sequence, next)
      ensures forall x: string :: x != id ==> View(x) == old(View(x))
    {
      var known := Get(cursors, id).GetOr(0);
      cursors := cursors[id := if sequence > known then sequence else known];
      if Get(snapshots, id) == Some(next) {
        return;
      }
      snapshots := snapshots[id := next];
    }

    method ApplyOptional(id: string, sequence: nat, candidate: Option<Snapshot>)
      modifies `snapshots, `cursors
      ensures View(id) == old(View(id)).ApplyOptional(sequence, candidate)
      ensures forall x: string :: x != id ==> View(x) == old(View(x))
    {
      if candidate.Some? {
        Apply(id, sequence, candidate.value);
      }
    }

    method ApplyEfficiency(id: string, delivery: Option<Efficiency>)
      modifies `efficiency
      ensures View(id) == old(View(id)).ApplyEfficiency(delivery)
      ensures forall x: string :: x != id ==> View(x) == old(View(x))
    {
      if delivery.None? || (id in efficiency && delivery.value.revision <= efficiency[id].revision) {
        return;
      }
      efficiency := efficiency[id := delivery.value];
    }

    method MarkStale(id: string)
      modifies `snapshots
      ensures View(id) == old(View(id)).MarkStale()
      ensures forall x: string :: x != id ==> View(x) == old(View(x))
    {
      if id in snapshots && snapshots[id].confidence.Fresh? {
        snapshots := snapshots[id := snapshots[id].(confidence := Stale)];
      }
    }
  }
}
