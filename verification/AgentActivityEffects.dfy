/**
  What each activity operation does in every reachable state, in the session's own counters and
  fields: when it takes effect, what it then stores, and when a stored snapshot stops being fresh.
*/
module AgentActivityEffects {
  import opened Wrappers
  import opened AgentActivityCell
  import opened AgentActivityRuns
  import opened AgentActivityTheorems
  import Json

  type SessionRead = AgentActivityCell.Read

  /** A stored snapshot that was fresh becomes stale. */
  predicate GoesStale(before: Option<Snapshot>, after: Option<Snapshot>) {
    if before.None? || !before.value.confidence.Fresh? then after == before
    else after.Some? && after.value.confidence.Stale? && after.value.details == before.value.details
  }

  /** A delivery is stored when there is none yet of its revision or a greater one. */
  predicate Stores(before: Option<Efficiency>, delivery: Option<Efficiency>, after: Option<Efficiency>) {
    if delivery.Some? && (before.None? || delivery.value.revision > before.value.revision)
    then after == delivery else after == before
  }

  // ----- The activity register -----

  /** The projection shows the last accepted activity snapshot, stale if it was doubted since. */
  lemma SnapshotIsLatestShown(delays: nat, actions: seq<Action>)
    ensures var m := Run(Init(delays), actions);
      if m.log.shown == [] then m.cell.snapshot.None?
      else
        var last := Some(m.log.shown[|m.log.shown| - 1]);
        if m.log.doubted then GoesStale(last, m.cell.snapshot) else m.cell.snapshot == last
  {
    Reachable(delays, actions);
  }

  // ----- Events -----

  /** An event is taken exactly by a wanted session that it names, past its cursor. */
  predicate TakesEvent(c: Cell, e: Event) {
    c.wanted && !e.foreign && 1 <= e.sequence <= Json.MAX_SAFE_INTEGER && e.sequence > c.cursor.GetOr(0)
  }

  predicate OverGap(c: Cell, e: Event) {
    e.sequence > c.cursor.GetOr(0) + 1
  }

  /** What a taken event leaves: its payload, and over a gap a resync under way. */
  predicate ShowsEvent(m: Machine, e: Event, n: Machine) {
    var c, d := m.cell, n.cell;
    var starts := OverGap(c, e) && c.resync.None?;
    && d.cursor == Some(e.sequence) && n.log.forwarded == m.log.forwarded + [e.sequence]
    && (match e.payload
        case ActivityUpdated(Some(candidate)) => d.snapshot == Some(candidate) && n.log.shown == m.log.shown + [candidate]
        case _ => (if starts then GoesStale(c.snapshot, d.snapshot) else d.snapshot == c.snapshot) && n.log.shown == m.log.shown)
    && Stores(c.efficiency, if e.payload.EfficiencyUpdated? then e.payload.delivery else None, d.efficiency)
    && SameConnection(c, d)
    && (if starts
        then d.resync == Some(m.next) && n.next == m.next + 1 && n.tasks == m.tasks[m.next := Refreshing(c.version.GetOr(0))]
        else d.resync == c.resync && n.next == m.next && n.tasks == m.tasks)
  }

  lemma EventLandsExactly(delays: nat, actions: seq<Action>, e: Event)
    ensures var m := Run(Init(delays), actions);
      var n := Next(m, AgentActivityRuns.Observe(e));
      if TakesEvent(m.cell, e) then ShowsEvent(m, e, n) else n == m
  {
    Reachable(delays, actions);
    EventShows(Run(Init(delays), actions), e);
  }

  lemma EventShows(m: Machine, e: Event)
    requires CellInv(m.cell, m.delays)
    ensures if TakesEvent(m.cell, e) then ShowsEvent(m, e, Observed(m, e)) else Observed(m, e) == m
  {
    if TakesEvent(m.cell, e) {
      assert m.cell.Accepts(e);
      ObserveShape(m.cell, e, m.next);
      EventStores(m.cell, e, m.next);
    }
  }

  lemma EventStores(c: Cell, e: Event, task: nat)
    requires c.Accepts(e)
    ensures var d := c.Observe(e, task);
      && d.cursor == Some(e.sequence)
      && Stores(c.efficiency, if e.payload.EfficiencyUpdated? then e.payload.delivery else None, d.efficiency)
      && (match e.payload
          case ActivityUpdated(Some(candidate)) => d.snapshot == Some(candidate)
          case _ => if OverGap(c, e) && c.resync.None? then GoesStale(c.snapshot, d.snapshot) else d.snapshot == c.snapshot)
  {
  }

  // ----- Reads -----

  /** A read lands in its own incarnation, at or past the cursor, or unsequenced where nothing moved. */
  predicate TakesRead(c: Cell, h: Hydration, read: SessionRead) {
    && c.wanted && c.version == Some(h.version)
    && (if read.sequence.Some? then read.sequence.value >= c.cursor.GetOr(0) else c.cursor.GetOr(0) == h.requestedCursor)
  }

  predicate ShowsRead(c: Cell, h: Hydration, response: Option<SessionRead>, d: Cell) {
    && SameConnection(c, d) && d.resync == c.resync
    && match response
       case None => GoesStale(c.snapshot, d.snapshot) && d.cursor == c.cursor && d.efficiency == c.efficiency
       case Some(read) =>
         if !TakesRead(c, h, read) then d == c
         else
           && d.cursor.GetOr(0) == read.sequence.GetOr(c.cursor.GetOr(0))
           && d.snapshot == (if read.activity.Some? then read.activity else c.snapshot)
           && Stores(c.efficiency, read.delivery, d.efficiency)
  }

  lemma ReadShows(c: Cell, h: Hydration, response: Option<SessionRead>, delays: nat)
    requires CellInv(c, delays)
    ensures ShowsRead(c, h, response, c.HydrateSettle(h, response))
  {
  }

  /** A read sent by a sync, or by a resync task, lands exactly then and shows what it carries. */
  lemma ReadLandsExactly(delays: nat, actions: seq<Action>, k: nat, response: Option<SessionRead>)
    ensures var m := Run(Init(delays), actions);
      && (k in m.hydrations ==> ShowsRead(m.cell, m.hydrations[k], response, Next(m, SettleHydrate(k, response)).cell))
      && (k in m.tasks && m.tasks[k].TaskHydrating? ==>
            ShowsRead(m.cell, m.tasks[k].h, response, Next(m, SettleTaskHydrate(k, response)).cell))
  {
    var m := Run(Init(delays), actions);
    Reachable(delays, actions);
    SentReadShows(m, k, response);
    TaskReadShows(m, k, response);
  }

  lemma SentReadShows(m: Machine, k: nat, response: Option<SessionRead>)
    requires CellInv(m.cell, m.delays)
    ensures k in m.hydrations ==> ShowsRead(m.cell, m.hydrations[k], response, Next(m, SettleHydrate(k, response)).cell)
  {
    if k in m.hydrations { ReadShows(m.cell, m.hydrations[k], response, m.delays); }
  }

  lemma TaskReadShows(m: Machine, task: nat, response: Option<SessionRead>)
    requires CellInv(m.cell, m.delays)
    ensures task in m.tasks && m.tasks[task].TaskHydrating? ==>
      ShowsRead(m.cell, m.tasks[task].h, response, Next(m, SettleTaskHydrate(task, response)).cell)
  {
    if task in m.tasks && m.tasks[task].TaskHydrating? { ReadShows(m.cell, m.tasks[task].h, response, m.delays); }
  }

  /** A hydrate captures the version and cursor of the moment it is sent. */
  lemma HydrateCaptures(delays: nat, actions: seq<Action>)
    ensures var m := Run(Init(delays), actions); var n := Next(m, StartHydrate);
      && n.cell == m.cell && m.next in n.hydrations
      && n.hydrations[m.next] == Hydration(m.cell.version.GetOr(0), m.cell.cursor.GetOr(0))
  {
  }

  /**
    What the callbacks receive: an accepted read with a sequence or an activity, and, from a socket,
    an event that is taken.
  */
  lemma CallbacksExactly(delays: nat, actions: seq<Action>, h: Hydration, read: SessionRead,
                         socket: nat, version: nat, message: Message)
    ensures var c := Run(Init(delays), actions).cell;
      && (c.ForwardsRead(h, read) <==> TakesRead(c, h, read) && (read.sequence.Some? || read.activity.Some?))
      && (c.Hears(socket, version, message) <==>
            Live(c, version) && c.socket == Some(socket) && message.RelayEvent? && TakesEvent(c, message.event))
      && (forall e: Event :: c.Accepts(e) <==> TakesEvent(c, e))
  {
    Reachable(delays, actions);
  }

  // ----- Lists -----

  /** A list shows its first valid snapshot, and only where nothing is shown. */
  predicate ShowsFirst(before: Option<Snapshot>, items: seq<Option<Snapshot>>, after: Option<Snapshot>) {
    if before.Some? then after == before
    else if forall i | 0 <= i < |items| :: items[i].None? then after.None?
    else exists i | 0 <= i < |items| :: items[i].Some? && (forall j | 0 <= j < i :: items[j].None?) && after == items[i]
  }

  lemma {:induction false} SeedShowsFirst(c: Cell, items: seq<Option<Snapshot>>)
    ensures ShowsFirst(c.snapshot, items, c.Seed(items).snapshot)
  {
    if items != [] {
      var n := |items| - 1;
      var earlier := items[..n];
      SeedShowsFirst(c, earlier);
      assert forall i | 0 <= i < n :: earlier[i] == items[i];
      if c.snapshot.None? && c.Seed(earlier).snapshot.Some? {
        var i :| 0 <= i < n && earlier[i].Some? && (forall j | 0 <= j < i :: earlier[j].None?)
                 && c.Seed(earlier).snapshot == earlier[i];
        assert items[i].Some? && forall j | 0 <= j < i :: items[j].None?;
      }
    }
  }

  /** Bootstrapping is that, for the session's items, and then a sync; the cursor stays where it is. */
  lemma BootstrapIsSeedAndSync(m: Machine, items: seq<Option<Snapshot>>, select: bool)
    ensures var seeded := m.(cell := m.cell.Seed(items), log := Fill(m.log, items));
      && Next(m, AgentActivityRuns.Bootstrap(items, select)) == Next(seeded, AgentActivityRuns.Sync(items != [], select))
      && ShowsFirst(m.cell.snapshot, items, seeded.cell.snapshot)
      && seeded.cell.cursor.GetOr(0) == m.cell.cursor.GetOr(0)
      && seeded.cell == m.cell.(snapshot := seeded.cell.snapshot, cursor := seeded.cell.cursor)
  {
    SeedShowsFirst(m.cell, items);
    SeedShape(m.cell, items);
  }

  // ----- Connections -----

  /**
    A sync that wants a session keeps what it shows, sends a read of it, and leaves it with a socket
    exactly if it is not selected: the registered one, or else a new one.
  */
  lemma SyncConnects(delays: nat, actions: seq<Action>, select: bool)
    requires !Run(Init(delays), actions).cell.disposed
    ensures var m := Run(Init(delays), actions); Connects(m, select, Next(m, AgentActivityRuns.Sync(true, select)))
  {
    RunReadsIssued(delays, actions);
    WantedConnects(Run(Init(delays), actions), select);
  }

  ghost predicate Connects(m: Machine, select: bool, n: Machine) {
    var c, d := m.cell, n.cell;
    && d == c.(wanted := true, selected := select, version := Some(c.version.GetOr(0)),
               socket := if select then None else Some(c.socket.GetOr(m.next)))
    && (exists k :: k !in m.hydrations && k in n.hydrations
                    && n.hydrations[k] == Hydration(c.version.GetOr(0), c.cursor.GetOr(0)))
    && (!select && c.socket.None? ==> m.next in n.open && n.sockets == m.sockets[m.next := c.version.GetOr(0)])
    && (select && c.socket.Some? ==> c.socket.value !in n.open)
  }

  lemma WantedConnects(m: Machine, select: bool)
    requires !m.cell.disposed && ReadsIssued(m)
    ensures Connects(m, select, Synced(m, true, select))
  {
    var n := Synced(m, true, select);
    assert m.next + 1 !in m.hydrations && m.next + 1 in n.hydrations;
  }

  /** A sync that no longer wants a session forgets it, unless it never knew it. */
  lemma SyncForgets(delays: nat, actions: seq<Action>, select: bool)
    requires !Run(Init(delays), actions).cell.disposed
    ensures var m := Run(Init(delays), actions); Forgets(m, select, Next(m, AgentActivityRuns.Sync(false, select)))
  {
    Reachable(delays, actions);
    UnwantedForgets(Run(Init(delays), actions), select);
  }

  predicate Forgets(m: Machine, select: bool, n: Machine) {
    var c, d := m.cell, n.cell;
    && !d.wanted && d.socket.None? && d.selected == select
    && (c.version.Some? ==> d == Forgotten(c.(selected := select)) && (c.socket.Some? ==> c.socket.value !in n.open))
    && (c.version.None? ==> d == c.(selected := select))
  }

  lemma UnwantedForgets(m: Machine, select: bool)
    requires CellInv(m.cell, m.delays) && !m.cell.disposed
    ensures Forgets(m, select, Synced(m, false, select))
  {
  }

  function Forgotten(c: Cell): Cell {
    Cell(c.disposed, c.selected, false, None, None, None, Some(c.version.GetOr(0) + 1), None, None, None, None)
  }

  /** Removal forgets the session, stops its registered timeout and closes its registered socket; so does dispose. */
  lemma RemoveForgets(delays: nat, actions: seq<Action>)
    ensures var m := Run(Init(delays), actions); var n := Next(m, AgentActivityRuns.Remove);
      && n.cell == Forgotten(m.cell)
      && (m.cell.timer.Some? ==> m.cell.timer.value !in n.timers) && (m.cell.socket.Some? ==> m.cell.socket.value !in n.open)
      && Next(m, AgentActivityRuns.Dispose).cell
         == (if m.cell.wanted then Forgotten(m.cell) else m.cell).(disposed := true)
  {
  }

  /** The session is wanted under this version. */
  predicate Live(c: Cell, version: nat) {
    c.wanted && c.version == Some(version)
  }

  /** A message counts from the registered socket only; it resets the reconnect attempts and then acts. */
  lemma MessageLandsExactly(delays: nat, actions: seq<Action>, socket: nat, message: Message)
    ensures var m := Run(Init(delays), actions);
      var n := Next(m, AgentActivityRuns.Receive(socket, message));
      var heard := m.(cell := m.cell.(attempts := None));
      if socket !in m.sockets || !Live(m.cell, m.sockets[socket]) || m.cell.socket != Some(socket) then n == m
      else match message
        case ResyncRequired => n == Next(heard, StartResync)
        case RelayEvent(event) => n == Next(heard, AgentActivityRuns.Observe(event))
        case Unreadable => n == heard
    ensures var m := Run(Init(delays), actions);
      socket in m.sockets ==>
        m.cell.Receive(socket, m.sockets[socket], message, m.next) == Next(m, AgentActivityRuns.Receive(socket, message)).cell
  {
    Reachable(delays, actions);
  }

  /** A resync starts where none is under way: the snapshot goes stale and a new task is registered. */
  lemma ResyncStartsExactly(m: Machine)
    ensures var n := Next(m, StartResync);
      if m.cell.resync.Some? then n == m
      else
        && GoesStale(m.cell.snapshot, n.cell.snapshot)
        && n.cell == m.cell.(snapshot := n.cell.snapshot, resync := Some(m.next))
        && n.tasks == m.tasks[m.next := Refreshing(m.cell.version.GetOr(0))] && n.next == m.next + 1
  {
  }

  /** A refreshed task goes on to a read exactly in its own incarnation; any other end clears its own registration. */
  lemma RefreshGoesOnExactly(delays: nat, actions: seq<Action>, task: nat, ok: bool)
    requires var m := Run(Init(delays), actions); task in m.tasks && m.tasks[task].Refreshing?
    ensures var m := Run(Init(delays), actions);
      var n := Next(m, RefreshSettled(task, ok));
      var c, version := m.cell, m.tasks[task].version;
      if ok && Live(c, version)
      then n == m.(tasks := m.tasks[task := TaskHydrating(version, Hydration(version, c.cursor.GetOr(0)))])
      else n == m.(tasks := m.tasks - {task}, cell := c.(resync := if c.resync == Some(task) then None else c.resync))
  {
    Reachable(delays, actions);
  }

  /** A task that has read, whatever came of it, ends by clearing its own registration. */
  lemma TaskEnds(delays: nat, actions: seq<Action>, task: nat, response: Option<SessionRead>)
    requires var m := Run(Init(delays), actions); task in m.tasks && m.tasks[task].TaskHydrating?
    ensures var m := Next(Run(Init(delays), actions), SettleTaskHydrate(task, response));
      && task in m.tasks && m.tasks[task].TaskFinishing?
      && Next(m, AgentActivityRuns.FinishTask(task))
         == m.(tasks := m.tasks - {task},
               cell := m.cell.(resync := if m.cell.resync == Some(task) then None else m.cell.resync))
  {
  }

  /** A close counts for a wanted, non-selected session under its version, and reconnects while delays are left. */
  lemma CloseLandsExactly(delays: nat, actions: seq<Action>, socket: nat)
    requires socket in Run(Init(delays), actions).sockets
    ensures var m := Run(Init(delays), actions);
      ClosedFor(m, m.sockets[socket], delays, Next(m, AgentActivityRuns.Close(socket)))
      && socket !in Next(m, AgentActivityRuns.Close(socket)).open
  {
    var m := Run(Init(delays), actions);
    Reachable(delays, actions);
    DelaysFixed(Init(delays), actions);
    CloseShows(m, socket, m.sockets[socket]);
  }

  predicate ClosedFor(m: Machine, version: nat, delays: nat, n: Machine) {
    var c, d, tried := m.cell, n.cell, m.cell.attempts.GetOr(0);
    if !Live(c, version) || c.selected then d == c && n.timers == m.timers
    else
      && GoesStale(c.snapshot, d.snapshot)
      && if tried < delays
         then
           && d == c.(socket := None, snapshot := d.snapshot, attempts := Some(tried + 1), timer := Some(m.next))
           && n.timers == m.timers[m.next := version]
         else d == c.(socket := None, snapshot := d.snapshot) && n.timers == m.timers
  }

  lemma CloseShows(m: Machine, socket: nat, version: nat)
    requires CellInv(m.cell, m.delays)
    ensures ClosedFor(m, version, m.delays, Closed(m, socket, version)) && socket !in Closed(m, socket, version).open
  {
  }

  /** A timeout reopens exactly for a wanted, non-selected session under its version. */
  lemma TimerReopensExactly(delays: nat, actions: seq<Action>, timer: nat)
    requires timer in Run(Init(delays), actions).timers
    ensures var m := Run(Init(delays), actions);
      var n := Next(m, AgentActivityRuns.TimerFires(timer));
      var version := m.timers[timer];
      && timer !in n.timers
      && if Live(m.cell, version) && !m.cell.selected
         then n.cell == m.cell.(timer := None, socket := Some(m.next)) && m.next in n.open && n.sockets == m.sockets[m.next := version]
         else n.cell == m.cell.(timer := None) && n.open == m.open && n.sockets == m.sockets
  {
    Reachable(delays, actions);
  }

  // ----- Staleness -----

  /** The steps that make a fresh snapshot stale. */
  predicate Stales(m: Machine, a: Action) {
    var c := m.cell;
    match a
    case StartResync => c.resync.None?
    case Observe(e) => StalesEvent(c, e)
    case Receive(socket, message) =>
      && socket in m.sockets && Live(c, m.sockets[socket]) && c.socket == Some(socket)
      && (match message
          case ResyncRequired => c.resync.None?
          case RelayEvent(e) => StalesEvent(c, e)
          case Unreadable => false)
    case Close(socket) => socket in m.sockets && Live(c, m.sockets[socket]) && !c.selected
    case SettleHydrate(k, response) => k in m.hydrations && response.None?
    case SettleTaskHydrate(task, response) => task in m.tasks && m.tasks[task].TaskHydrating? && response.None?
    case _ => false
  }

  /** An event over a gap that starts a resync and brings no valid activity itself. */
  predicate StalesEvent(c: Cell, e: Event) {
    && TakesEvent(c, e) && OverGap(c, e) && c.resync.None?
    && !(e.payload.ActivityUpdated? && e.payload.candidate.Some?)
  }

  predicate TurnsStale(m: Machine, n: Machine) {
    && n.cell.snapshot.Some? && n.cell.snapshot.value.confidence.Stale? && n.log.shown == m.log.shown
  }

  lemma NewsStales(m: Machine, a: Action)
    requires CellInv(m.cell, m.delays) && m.cell.snapshot.Some? && m.cell.snapshot.value.confidence.Fresh?
    requires a.Observe? || a.Receive? || a.StartResync?
    ensures TurnsStale(m, Next(m, a)) <==> Stales(m, a)
  {
    match a
    case Observe(e) => EventShows(m, e);
    case Receive(socket, message) =>
      if message.RelayEvent? { EventShows(m.(cell := m.cell.(attempts := None)), message.event); }
    case StartResync =>
    case _ =>
  }

  lemma SettleStales(m: Machine, a: Action)
    requires CellInv(m.cell, m.delays) && m.cell.snapshot.Some? && m.cell.snapshot.value.confidence.Fresh?
    requires a.SettleHydrate? || a.SettleTaskHydrate?
    ensures TurnsStale(m, Next(m, a)) <==> Stales(m, a)
  {
    match a
    case SettleHydrate(k, response) =>
      if k in m.hydrations { ReadShows(m.cell, m.hydrations[k], response, m.delays); }
    case SettleTaskHydrate(task, response) =>
      if task in m.tasks && m.tasks[task].TaskHydrating? { ReadShows(m.cell, m.tasks[task].h, response, m.delays); }
    case _ =>
  }

  lemma RestStales(m: Machine, a: Action)
    requires CellInv(m.cell, m.delays) && m.cell.snapshot.Some? && m.cell.snapshot.value.confidence.Fresh?
    requires !a.Observe? && !a.Receive? && !a.StartResync? && !a.SettleHydrate? && !a.SettleTaskHydrate? && !a.Bootstrap?
    ensures TurnsStale(m, Next(m, a)) <==> Stales(m, a)
  {
  }

  /** Exactly which steps turn the fresh snapshot on show into a stale one. */
  lemma StaleExactly(delays: nat, actions: seq<Action>, a: Action)
    requires var c := Run(Init(delays), actions).cell; c.snapshot.Some? && c.snapshot.value.confidence.Fresh?
    ensures var m := Run(Init(delays), actions); TurnsStale(m, Next(m, a)) <==> Stales(m, a)
  {
    var m := Run(Init(delays), actions);
    Reachable(delays, actions);
    if a.Observe? || a.Receive? || a.StartResync? {
      NewsStales(m, a);
    } else if a.SettleHydrate? || a.SettleTaskHydrate? {
      SettleStales(m, a);
    } else if a.Bootstrap? {
      BootstrapIsSeedAndSync(m, a.items, a.select);
      SeedShowsFirst(m.cell, a.items);
    } else {
      RestStales(m, a);
    }
  }
}
