/**
  Every interleaving of one session's activity operations, its sockets, timers and tasks.

  `log` remembers what happened in the current incarnation; only proofs look at it.
*/
module AgentActivityRuns {
  import opened Wrappers
  import opened AgentActivityCell
  import ToolEfficiency

  datatype Task =
    | Refreshing(version: nat)
    | TaskHydrating(version: nat, h: Hydration)
    | TaskFinishing(version: nat)

  /**
    Sequences passed to onEvent, the highest sequence of an accepted authoritative read, the
    sequences jumped over by a gap, every efficiency delivery, every activity snapshot that was
    accepted, and whether the last of these has been doubted since.
  */
  datatype Log = Log(
    forwarded: seq<nat>, covered: nat, skipped: set<nat>, deliveries: seq<Option<Efficiency>>,
    shown: seq<Snapshot>, doubted: bool)

  datatype Machine = Machine(
    cell: Cell,
    delays: nat,
    next: nat,
    /** Sockets ever opened and timeouts still to fire, with the version each captured. */
    sockets: map<nat, nat>,
    open: set<nat>,
    timers: map<nat, nat>,
    tasks: map<nat, Task>,
    hydrations: map<nat, Hydration>,
    log: Log)

  datatype Action =
    | Sync(want: bool, select: bool)
    | Bootstrap(items: seq<Option<Snapshot>>, select: bool)
    | Observe(event: Event)
    | Receive(socket: nat, message: Message)
    | Close(socket: nat)
    | TimerFires(timer: nat)
    | StartHydrate
    | SettleHydrate(k: nat, response: Option<Read>)
    | StartResync
    | RefreshSettled(task: nat, ok: bool)
    | SettleTaskHydrate(task: nat, response: Option<Read>)
    | FinishTask(task: nat)
    | Remove
    | Dispose

  function EmptyLog(): Log {
    Log([], 0, {}, [], [], false)
  }

  function Init(delays: nat): Machine {
    Machine(Absent(), delays, 0, map[], {}, map[], map[], map[], EmptyLog())
  }

  /** The sequences strictly between two others. */
  function Between(low: nat, high: nat): (r: set<nat>)
    ensures forall k: nat :: k in r <==> low < k < high
  {
    if high <= low + 1 then {} else Between(low, high - 1) + {high - 1}
  }

  function Show(log: Log, candidate: Option<Snapshot>): Log {
    if candidate.Some? then log.(shown := log.shown + [candidate.value], doubted := false) else log
  }

  function Doubt(log: Log, doubt: bool): Log {
    log.(doubted := log.doubted || doubt)
  }

  /** A snapshot that was fresh no longer claims to be. */
  function Staled(s: Snapshot): Snapshot {
    if s.confidence.Fresh? then s.(confidence := Stale) else s
  }

  /** The last accepted activity snapshot, as it is kept once doubted. */
  function Latest(log: Log): Option<Snapshot> {
    if log.shown == [] then None
    else if log.doubted then Some(Staled(log.shown[|log.shown| - 1]))
    else Some(log.shown[|log.shown| - 1])
  }

  function Forward(log: Log, c: Cell, e: Event): Log
    requires c.Accepts(e)
  {
    var gone := log.(
      forwarded := log.forwarded + [e.sequence],
      skipped := log.skipped + Between(c.Cursor(), e.sequence),
      deliveries := if e.payload.EfficiencyUpdated? then log.deliveries + [e.payload.delivery] else log.deliveries);
    Show(Doubt(gone, e.sequence > c.Cursor() + 1 && c.resync.None?),
         if e.payload.ActivityUpdated? then e.payload.candidate else None)
  }

  function Cover(log: Log, read: Read): Log {
    Show(log.(covered := read.sequence.GetOr(log.covered), deliveries := log.deliveries + [read.delivery]), read.activity)
  }

  /** A list fills an empty projection with its first valid snapshot. */
  function Fill(log: Log, items: seq<Option<Snapshot>>): Log {
    if items == [] then log
    else
      var filled := Fill(log, items[..|items| - 1]);
      if filled.shown == [] then Show(filled, items[|items| - 1]) else filled
  }

  /** A new resync starts when none is registered. */
  function Joined(m: Machine, c: Cell): Machine {
    if c.resync.Some? then m else m.(tasks := m.tasks[m.next := Refreshing(c.Version())], next := m.next + 1)
  }

  function Observed(m: Machine, e: Event): Machine {
    var c := m.cell;
    if !c.Accepts(e) then m
    else (if c.Gap(e) then Joined(m, c) else m).(cell := c.Observe(e, m.next), log := Forward(m.log, c, e))
  }

  function Read(m: Machine, h: Hydration, response: Option<Read>): Machine {
    m.(cell := m.cell.HydrateSettle(h, response),
       log := ReadLogged(m.log, m.cell, h, response))
  }

  function ReadLogged(log: Log, c: Cell, h: Hydration, response: Option<Read>): Log {
    if response.None? then Doubt(log, true)
    else if c.AcceptsRead(h, response.value) then Cover(log, response.value)
    else log
  }

  function Finished(m: Machine, task: nat): Machine {
    m.(cell := m.cell.FinishTask(task), tasks := m.tasks - {task})
  }

  /** `remove` clears the registered timeout only, and closes the registered socket. */
  function Removed(m: Machine): Machine {
    m.(cell := m.cell.Remove(), log := EmptyLog(),
       open := if m.cell.socket.Some? then m.open - {m.cell.socket.value} else m.open,
       timers := if m.cell.timer.Some? then m.timers - {m.cell.timer.value} else m.timers)
  }

  function Synced(m: Machine, want: bool, select: bool): Machine {
    var c := m.cell;
    if c.disposed then m
    else if !want then
      (if c.version.Some? then Removed(m) else m).(cell := c.Sync(false, select, m.next))
    else
      var fetching := m.(cell := c.Sync(true, select, m.next), next := m.next + 2,
                         hydrations := m.hydrations[m.next + 1 := c.(version := Some(c.Version())).CaptureHydration()]);
      if c.Opens(select) then fetching.(sockets := m.sockets[m.next := c.Version()], open := m.open + {m.next})
      else if select && c.socket.Some? then fetching.(open := m.open - {c.socket.value})
      else fetching
  }

  function Resynced(m: Machine): Machine {
    Joined(m, m.cell).(cell := m.cell.Resync(m.next), log := Doubt(m.log, m.cell.resync.None?))
  }

  function Heard(m: Machine, message: Message): Machine {
    match message
    case ResyncRequired => Resynced(m)
    case RelayEvent(event) => Observed(m, event)
    case Unreadable => m
  }

  function Closed(m: Machine, socket: nat, v: nat): Machine {
    var closed := m.(cell := m.cell.Close(v, m.delays, m.next), open := m.open - {socket},
                     log := Doubt(m.log, m.cell.HandlesClose(v)));
    if m.cell.Reconnects(v, m.delays) then closed.(timers := m.timers[m.next := v], next := m.next + 1) else closed
  }

  function Fired(m: Machine, timer: nat, v: nat): Machine {
    var fired := m.(cell := m.cell.TimerFires(v, m.next), timers := m.timers - {timer});
    if m.cell.Reopens(v)
    then fired.(sockets := m.sockets[m.next := v], open := m.open + {m.next}, next := m.next + 1) else fired
  }

  function Filled(m: Machine, items: seq<Option<Snapshot>>): Machine {
    m.(cell := m.cell.Seed(items), log := Fill(m.log, items))
  }

  /** An action aimed at something that is not there does nothing. */
  function Next(m: Machine, a: Action): Machine {
    var c := m.cell;
    match a
    case Sync(want, select) => Synced(m, want, select)
    case Bootstrap(items, select) => Synced(Filled(m, items), items != [], select)
    case Observe(event) => Observed(m, event)
    case Receive(socket, message) =>
      if socket in m.sockets && c.Consumes(socket, m.sockets[socket])
      then Heard(m.(cell := c.(attempts := None)), message) else m
    case Close(socket) => if socket in m.sockets then Closed(m, socket, m.sockets[socket]) else m
    case TimerFires(timer) => if timer in m.timers then Fired(m, timer, m.timers[timer]) else m
    case StartHydrate => m.(hydrations := m.hydrations[m.next := c.CaptureHydration()], next := m.next + 1)
    case SettleHydrate(k, response) =>
      if k !in m.hydrations then m
      else Read(m, m.hydrations[k], response).(hydrations := m.hydrations - {k})
    case StartResync => Resynced(m)
    case RefreshSettled(task, ok) =>
      if task !in m.tasks || !m.tasks[task].Refreshing? then m
      else if ok && c.Current(m.tasks[task].version)
      then m.(tasks := m.tasks[task := TaskHydrating(m.tasks[task].version, c.CaptureHydration())])
      else Finished(m, task)
    case SettleTaskHydrate(task, response) =>
      if task !in m.tasks || !m.tasks[task].TaskHydrating? then m
      else Read(m, m.tasks[task].h, response).(tasks := m.tasks[task := TaskFinishing(m.tasks[task].version)])
    case FinishTask(task) =>
      if task !in m.tasks || !m.tasks[task].TaskFinishing? then m else Finished(m, task)
    case Remove => Removed(m)
    case Dispose => (if c.wanted then Removed(m) else m).(cell := c.Dispose())
  }

  function Run(m: Machine, actions: seq<Action>): Machine {
    if actions == [] then m
    else Next(Run(m, actions[..|actions| - 1]), actions[|actions| - 1])
  }

  // ----- What every reachable state satisfies -----

  predicate CellInv(c: Cell, delays: nat) {
    && (c.wanted ==> c.version.Some? && !c.disposed)
    && (c.socket.Some? ==> c.wanted && !c.selected)
    && c.attempts.GetOr(0) <= delays
  }

  /** Registered sockets belong to this incarnation. */
  ghost predicate SocketInv(m: Machine) {
    && (m.cell.socket.Some? ==> m.cell.socket.value in m.sockets && m.sockets[m.cell.socket.value] == m.cell.Version())
    && (forall k | k in m.sockets :: k < m.next && m.sockets[k] <= m.cell.Version())
    && (forall k | k in m.timers :: k < m.next && m.timers[k] <= m.cell.Version())
  }

  /** The registration names the one live task of this incarnation. */
  ghost predicate TaskInv(m: Machine) {
    && (forall t | t in m.tasks :: t < m.next && m.tasks[t].version <= m.cell.Version())
    && (forall t | t in m.tasks && m.tasks[t].version == m.cell.Version() :: m.cell.resync == Some(t))
    && (m.cell.resync.Some? ==>
          m.cell.resync.value in m.tasks && m.tasks[m.cell.resync.value].version == m.cell.Version())
  }

  /** Everything up to the cursor was forwarded, covered or skipped, and forwarding is increasing. */
  predicate LogInv(log: Log, c: Cell) {
    && Increasing(log.forwarded) && UpTo(log.forwarded, c.Cursor()) && log.covered <= c.Cursor()
    && Accounted(log, c.Cursor())
    && c.snapshot == Latest(log)
    && c.efficiency == ToolEfficiency.Registered(log.deliveries)
  }

  predicate Increasing(s: seq<nat>) {
    forall i, j | 0 <= i < j < |s| :: s[i] < s[j]
  }

  predicate UpTo(s: seq<nat>, cursor: nat) {
    forall i | 0 <= i < |s| :: 1 <= s[i] <= cursor
  }

  predicate Accounted(log: Log, cursor: nat) {
    forall k: nat | 1 <= k <= cursor :: k in log.forwarded || k <= log.covered || k in log.skipped
  }

  ghost predicate Inv(m: Machine) {
    CellInv(m.cell, m.delays) && SocketInv(m) && TaskInv(m) && LogInv(m.log, m.cell)
  }

  lemma Registers(deliveries: seq<Option<Efficiency>>, delivery: Option<Efficiency>)
    ensures ToolEfficiency.Registered(deliveries + [delivery])
         == ToolEfficiency.Register(ToolEfficiency.Registered(deliveries), delivery)
  {
    assert (deliveries + [delivery])[..|deliveries|] == deliveries;
  }

  lemma ForwardShows(log: Log, c: Cell, e: Event, task: nat)
    requires c.snapshot == Latest(log) && c.Accepts(e)
    ensures c.Observe(e, task).snapshot == Latest(Forward(log, c, e))
  {
  }

  lemma ForwardLog(log: Log, c: Cell, e: Event, task: nat)
    requires LogInv(log, c) && c.Accepts(e)
    ensures LogInv(Forward(log, c, e), c.Observe(e, task))
  {
    if e.payload.EfficiencyUpdated? {
      Registers(log.deliveries, e.payload.delivery);
    }
    ForwardShows(log, c, e, task);
    var all := log.forwarded + [e.sequence];
    assert all[|log.forwarded|] == e.sequence;
    forall k: nat | 1 <= k <= e.sequence ensures k in all || k <= log.covered || k in Forward(log, c, e).skipped {
      if k in log.forwarded {
        assert k in all;
      }
    }
  }

  lemma CoverLog(log: Log, c: Cell, h: Hydration, read: AgentActivityCell.Read)
    requires LogInv(log, c) && c.AcceptsRead(h, read)
    ensures LogInv(Cover(log, read), c.HydrateSettle(h, Some(read)))
  {
    CoverCounts(log, c.Cursor(), read);
    CoverShows(log, c, h, read);
    CoverRegisters(log, c, read);
  }

  /** What a read covers, in the counters alone. */
  lemma CoverCounts(log: Log, cursor: nat, read: AgentActivityCell.Read)
    requires Increasing(log.forwarded) && UpTo(log.forwarded, cursor) && log.covered <= cursor && Accounted(log, cursor)
    requires read.sequence.Some? ==> read.sequence.value >= cursor
    ensures var l, now := Cover(log, read), read.sequence.GetOr(cursor);
      Increasing(l.forwarded) && UpTo(l.forwarded, now) && l.covered <= now && Accounted(l, now)
  {
    UpToMore(log.forwarded, cursor, read.sequence.GetOr(cursor));
  }

  lemma CoverShows(log: Log, c: Cell, h: Hydration, read: AgentActivityCell.Read)
    requires c.snapshot == Latest(log) && c.AcceptsRead(h, read)
    ensures var d := c.HydrateSettle(h, Some(read));
      && d.snapshot == Latest(Cover(log, read)) && d.efficiency == ToolEfficiency.Register(c.efficiency, read.delivery)
      && d.Cursor() == read.sequence.GetOr(c.Cursor())
  {
  }

  lemma CoverRegisters(log: Log, c: Cell, read: AgentActivityCell.Read)
    requires c.efficiency == ToolEfficiency.Registered(log.deliveries)
    ensures ToolEfficiency.Register(c.efficiency, read.delivery) == ToolEfficiency.Registered(Cover(log, read).deliveries)
  {
    Registers(log.deliveries, read.delivery);
  }

  lemma UpToMore(s: seq<nat>, cursor: nat, more: nat)
    requires UpTo(s, cursor) && cursor <= more
    ensures UpTo(s, more)
  {
  }

  lemma {:induction false} SeedShape(c: Cell, items: seq<Option<Snapshot>>)
    ensures var d := c.Seed(items);
      d.(snapshot := c.snapshot, cursor := c.cursor) == c && d.Cursor() == c.Cursor()
  {
    if items != [] {
      SeedShape(c, items[..|items| - 1]);
    }
  }

  lemma {:induction false} FillLog(log: Log, c: Cell, items: seq<Option<Snapshot>>)
    requires LogInv(log, c)
    ensures LogInv(Fill(log, items), c.Seed(items))
  {
    if items != [] {
      FillLog(log, c, items[..|items| - 1]);
      FillNext(Fill(log, items[..|items| - 1]), c.Seed(items[..|items| - 1]), items[|items| - 1]);
    }
  }

  lemma FillNext(log: Log, c: Cell, candidate: Option<Snapshot>)
    requires LogInv(log, c)
    ensures LogInv(if log.shown == [] then Show(log, candidate) else log,
                   if c.snapshot.None? then c.ApplyOptional(c.Cursor(), candidate) else c)
  {
  }

  lemma JoinedInv(m: Machine, c: Cell, d: Cell)
    requires TaskInv(m) && c.resync == m.cell.resync && c.version == m.cell.version
    requires d.version == c.version && d.resync == (if c.resync.Some? then c.resync else Some(m.next))
    ensures TaskInv(Joined(m, c).(cell := d))
  {
  }

  /** Steps that leave sockets and timeouts alone. */
  lemma SameSockets(m: Machine, n: Machine)
    requires SocketInv(m) && n.sockets == m.sockets && n.timers == m.timers && m.next <= n.next
    requires n.cell.version == m.cell.version && n.cell.socket == m.cell.socket
    ensures SocketInv(n)
  {
  }

  /** Steps that leave tasks alone. */
  lemma SameTasks(m: Machine, n: Machine)
    requires TaskInv(m) && n.tasks == m.tasks && m.next <= n.next
    requires n.cell.version == m.cell.version && n.cell.resync == m.cell.resync
    ensures TaskInv(n)
  {
  }

  /** What receiving news leaves as it was. */
  predicate SameConnection(c: Cell, d: Cell) {
    && d.version == c.version && d.socket == c.socket && d.attempts == c.attempts && d.timer == c.timer
    && d.wanted == c.wanted && d.selected == c.selected && d.disposed == c.disposed
  }

  lemma ObserveShape(c: Cell, e: Event, task: nat)
    ensures var d := c.Observe(e, task);
      && SameConnection(c, d)
      && d.resync == if c.Gap(e) && c.resync.None? then Some(task) else c.resync
  {
  }

  lemma HydrateShape(c: Cell, h: Hydration, response: Option<AgentActivityCell.Read>)
    ensures var d := c.HydrateSettle(h, response); SameConnection(c, d) && d.resync == c.resync
  {
  }

  lemma ObservedInv(m: Machine, e: Event)
    requires Inv(m)
    ensures Inv(Observed(m, e))
  {
    var c := m.cell;
    if c.Accepts(e) {
      ForwardLog(m.log, c, e, m.next);
      ObserveShape(c, e, m.next);
      ObservedTasks(m, e);
      SameSockets(m, Observed(m, e));
    }
  }

  lemma ObservedTasks(m: Machine, e: Event)
    requires TaskInv(m) && m.cell.Accepts(e)
    ensures TaskInv(Observed(m, e))
  {
    var d := m.cell.Observe(e, m.next);
    ObserveShape(m.cell, e, m.next);
    if m.cell.Gap(e) {
      JoinedInv(m, m.cell, d);
    } else {
      SameTasks(m, m.(cell := d));
    }
  }

  lemma ReadInv(m: Machine, h: Hydration, response: Option<AgentActivityCell.Read>)
    requires Inv(m)
    ensures Inv(Read(m, h, response))
  {
    var n := Read(m, h, response);
    ReadLog(m.log, m.cell, h, response);
    HydrateShape(m.cell, h, response);
    SameTasks(m, n);
    SameSockets(m, n);
  }

  lemma ReadLog(log: Log, c: Cell, h: Hydration, response: Option<AgentActivityCell.Read>)
    requires LogInv(log, c)
    ensures LogInv(ReadLogged(log, c, h, response), c.HydrateSettle(h, response))
  {
    if response.Some? && c.AcceptsRead(h, response.value) {
      CoverLog(log, c, h, response.value);
    }
  }

  lemma FinishedInv(m: Machine, task: nat)
    requires Inv(m) && task in m.tasks
    ensures Inv(Finished(m, task))
  {
  }

  lemma RemovedInv(m: Machine)
    requires Inv(m)
    ensures Inv(Removed(m))
  {
  }

  lemma SyncedInv(m: Machine, want: bool, select: bool)
    requires Inv(m)
    ensures Inv(Synced(m, want, select))
  {
    if !want { RemovedInv(m); } else { WantedInv(m, select); }
  }

  lemma WantedInv(m: Machine, select: bool)
    requires Inv(m)
    ensures Inv(Synced(m, true, select))
  {
    var n := Synced(m, true, select);
    assert n.cell.Version() == m.cell.Version() && n.cell.resync == m.cell.resync && n.tasks == m.tasks;
    assert TaskInv(n);
    WantedSockets(m, select);
  }

  lemma WantedSockets(m: Machine, select: bool)
    requires SocketInv(m)
    ensures SocketInv(Synced(m, true, select))
  {
  }

  lemma ResyncedInv(m: Machine)
    requires Inv(m)
    ensures Inv(Resynced(m))
  {
    JoinedInv(m, m.cell, m.cell.Resync(m.next));
  }

  lemma HeardInv(m: Machine, message: Message)
    requires Inv(m)
    ensures Inv(Heard(m.(cell := m.cell.(attempts := None)), message))
  {
    var heard := m.(cell := m.cell.(attempts := None));
    assert Inv(heard);
    match message
    case ResyncRequired => ResyncedInv(heard);
    case RelayEvent(event) => ObservedInv(heard, event);
    case Unreadable =>
  }

  lemma ClosedInv(m: Machine, socket: nat)
    requires Inv(m) && socket in m.sockets
    ensures Inv(Closed(m, socket, m.sockets[socket]))
  {
    var n := Closed(m, socket, m.sockets[socket]);
    assert n.cell.version == m.cell.version && n.cell.resync == m.cell.resync;
    SameTasks(m, n);
    assert SocketInv(n);
    CloseLog(m.log, m.cell, m.sockets[socket], m.delays, m.next);
  }

  lemma CloseLog(log: Log, c: Cell, v: nat, delays: nat, timer: nat)
    requires LogInv(log, c)
    ensures LogInv(Doubt(log, c.HandlesClose(v)), c.Close(v, delays, timer))
  {
  }

  lemma FiredInv(m: Machine, timer: nat)
    requires Inv(m) && timer in m.timers
    ensures Inv(Fired(m, timer, m.timers[timer]))
  {
    var n := Fired(m, timer, m.timers[timer]);
    assert n.cell.version == m.cell.version && n.cell.resync == m.cell.resync;
    assert TaskInv(n);
  }

  lemma RefreshSettledInv(m: Machine, task: nat, ok: bool)
    requires Inv(m) && task in m.tasks && m.tasks[task].Refreshing?
    ensures Inv(Next(m, RefreshSettled(task, ok)))
  {
    if !(ok && m.cell.Current(m.tasks[task].version)) {
      FinishedInv(m, task);
    }
  }

  lemma TaskReadInv(m: Machine, task: nat, response: Option<AgentActivityCell.Read>)
    requires Inv(m) && task in m.tasks && m.tasks[task].TaskHydrating?
    ensures Inv(Next(m, SettleTaskHydrate(task, response)))
  {
    ReadInv(m, m.tasks[task].h, response);
  }

  lemma DisposedInv(m: Machine)
    requires Inv(m)
    ensures Inv(Next(m, Dispose))
  {
    RemovedInv(m);
  }

  lemma SettleInv(m: Machine, a: Action)
    requires Inv(m)
    requires a.RefreshSettled? || a.SettleTaskHydrate? || a.FinishTask? || a.StartHydrate? || a.SettleHydrate?
    ensures Inv(Next(m, a))
  {
    match a
    case StartHydrate =>
    case SettleHydrate(k, response) => if k in m.hydrations { ReadInv(m, m.hydrations[k], response); }
    case RefreshSettled(task, ok) =>
      if task in m.tasks && m.tasks[task].Refreshing? { RefreshSettledInv(m, task, ok); }
    case SettleTaskHydrate(task, response) =>
      if task in m.tasks && m.tasks[task].TaskHydrating? { TaskReadInv(m, task, response); }
    case FinishTask(task) => if task in m.tasks { FinishedInv(m, task); }
    case _ =>
  }

  lemma StepInv(m: Machine, a: Action)
    requires Inv(m)
    ensures Inv(Next(m, a))
  {
    if a.RefreshSettled? || a.SettleTaskHydrate? || a.FinishTask? || a.StartHydrate? || a.SettleHydrate? {
      SettleInv(m, a);
      return;
    }
    match a
    case Sync(want, select) => SyncedInv(m, want, select);
    case Bootstrap(items, select) =>
      SeedShape(m.cell, items);
      FillLog(m.log, m.cell, items);
      SyncedInv(Filled(m, items), items != [], select);
    case Observe(event) => ObservedInv(m, event);
    case Receive(socket, message) => HeardInv(m, message);
    case Close(socket) => if socket in m.sockets { ClosedInv(m, socket); }
    case TimerFires(timer) => if timer in m.timers { FiredInv(m, timer); }
    case StartResync => ResyncedInv(m);
    case Remove => RemovedInv(m);
    case Dispose => DisposedInv(m);
    case _ =>
  }

  lemma {:induction false} RunInv(m: Machine, actions: seq<Action>)
    requires Inv(m)
    ensures Inv(Run(m, actions))
  {
    if actions != [] {
      RunInv(m, actions[..|actions| - 1]);
      StepInv(Run(m, actions[..|actions| - 1]), actions[|actions| - 1]);
    }
  }

  lemma Reachable(delays: nat, actions: seq<Action>)
    ensures Inv(Run(Init(delays), actions))
  {
    RunInv(Init(delays), actions);
  }
}
