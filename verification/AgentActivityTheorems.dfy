/** What the activity projection promises over whole runs of AgentActivityRuns.Next. */
module AgentActivityTheorems {
  import opened Wrappers
  import opened AgentActivityCell
  import opened AgentActivityRuns
  import ToolEfficiency

  // ----- Forwarding -----

  /**
    Within an incarnation, onEvent receives strictly increasing sequences, and each sequence up
    to the cursor was forwarded, is covered by an accepted authoritative read, or was skipped.
  */
  lemma ForwardingDiscipline(delays: nat, actions: seq<Action>)
    ensures var m := Run(Init(delays), actions);
      && (forall i, j | 0 <= i < j < |m.log.forwarded| :: m.log.forwarded[i] < m.log.forwarded[j])
      && (forall k: nat | 1 <= k <= m.cell.Cursor() ::
            k in m.log.forwarded || k <= m.log.covered || k in m.log.skipped)
  {
    Reachable(delays, actions);
  }

  /** An action that brings in an event or a read; all others leave the cursor of an incarnation alone. */
  predicate Brings(m: Machine, a: Action, e: Event) {
    && m.cell.Accepts(e)
    && match a
       case Observe(event) => event == e
       case Receive(socket, RelayEvent(event)) => event == e && socket in m.sockets && m.cell.Consumes(socket, m.sockets[socket])
       case _ => false
  }

  /** How a step may move the cursor within an incarnation. */
  ghost predicate MovesHonestly(m: Machine, a: Action, n: Machine) {
    n.cell.Version() == m.cell.Version() && n.cell.Cursor() != m.cell.Cursor() ==>
      && n.cell.Cursor() > m.cell.Cursor()
      && (|| (exists e :: Brings(m, a, e) && e.sequence == n.cell.Cursor() && n.log.forwarded == m.log.forwarded + [e.sequence])
          || (n.log.covered == n.cell.Cursor() && n.log.forwarded == m.log.forwarded && n.log.skipped == m.log.skipped))
  }

  lemma ObservedMoves(m: Machine, a: Action, heard: Machine, event: Event)
    requires heard.cell == m.cell.(attempts := heard.cell.attempts) && heard.log == m.log
    requires m.cell.Accepts(event) ==> Brings(m, a, event)
    ensures MovesHonestly(m, a, Observed(heard, event))
  {
  }

  lemma ReadMoves(m: Machine, a: Action, h: Hydration, response: Option<AgentActivityCell.Read>)
    requires Inv(m)
    ensures MovesHonestly(m, a, AgentActivityRuns.Read(m, h, response))
  {
  }

  /** The cursor is where it was, unless the incarnation ended. */
  predicate KeepsCursor(m: Machine, n: Machine) {
    n.cell.Version() == m.cell.Version() ==> n.cell.Cursor() == m.cell.Cursor()
  }

  lemma SyncKeepsCursor(m: Machine, want: bool, select: bool)
    ensures KeepsCursor(m, Synced(m, want, select))
  {
  }

  lemma TaskKeepsCursor(m: Machine, a: Action)
    requires a.RefreshSettled? || a.FinishTask? || a.StartHydrate? || a.StartResync?
    ensures KeepsCursor(m, Next(m, a))
  {
  }

  lemma BootstrapKeepsCursor(m: Machine, items: seq<Option<Snapshot>>, select: bool)
    ensures KeepsCursor(m, Next(m, AgentActivityRuns.Bootstrap(items, select)))
  {
    SeedShape(m.cell, items);
    SyncKeepsCursor(Filled(m, items), items != [], select);
  }

  lemma ConnectionKeepsCursor(m: Machine, a: Action)
    requires a.Close? || a.TimerFires?
    ensures KeepsCursor(m, Next(m, a))
  {
  }

  /** A removal ends the incarnation, so only its own reading of the cursor is left to keep. */
  lemma RemovalKeepsCursor(m: Machine, a: Action)
    requires a.Remove? || a.Dispose?
    ensures KeepsCursor(m, Next(m, a))
  {
  }

  lemma RestKeepsCursor(m: Machine, a: Action)
    requires a.Sync? || a.Bootstrap? || a.Close? || a.TimerFires? || a.Remove? || a.Dispose?
    ensures KeepsCursor(m, Next(m, a))
  {
    match a
    case Sync(want, select) => SyncKeepsCursor(m, want, select);
    case Bootstrap(items, select) => BootstrapKeepsCursor(m, items, select);
    case Close(_) => ConnectionKeepsCursor(m, a);
    case TimerFires(_) => ConnectionKeepsCursor(m, a);
    case Remove => RemovalKeepsCursor(m, a);
    case Dispose => RemovalKeepsCursor(m, a);
  }

  /** The cursor rises only to an event just forwarded or to an accepted authoritative read. */
  lemma CursorMovesHonestly(m: Machine, a: Action)
    requires Inv(m)
    ensures MovesHonestly(m, a, Next(m, a))
  {
    if a.RefreshSettled? || a.FinishTask? || a.StartHydrate? || a.StartResync? {
      TaskKeepsCursor(m, a);
    } else if a.Observe? {
      ObservedMoves(m, a, m, a.event);
    } else if a.Receive? {
      ReceiveMoves(m, a.socket, a.message);
    } else if a.SettleHydrate? || a.SettleTaskHydrate? {
      SettleMoves(m, a);
    } else {
      RestKeepsCursor(m, a);
    }
  }

  lemma ReceiveMoves(m: Machine, socket: nat, message: Message)
    ensures var a := AgentActivityRuns.Receive(socket, message); MovesHonestly(m, a, Next(m, a))
  {
    var a := AgentActivityRuns.Receive(socket, message);
    if message.RelayEvent? && socket in m.sockets && m.cell.Consumes(socket, m.sockets[socket]) {
      ObservedMoves(m, a, m.(cell := m.cell.(attempts := None)), message.event);
    }
  }

  lemma SettleMoves(m: Machine, a: Action)
    requires Inv(m) && (a.SettleHydrate? || a.SettleTaskHydrate?)
    ensures MovesHonestly(m, a, Next(m, a))
  {
    match a
    case SettleHydrate(k, response) => if k in m.hydrations { ReadMoves(m, a, m.hydrations[k], response); }
    case SettleTaskHydrate(task, response) =>
      if task in m.tasks && m.tasks[task].TaskHydrating? { ReadMoves(m, a, m.tasks[task].h, response); }
    case _ =>
  }

  /** The sequences an event skips are those of a gap, which starts or joins a resync. */
  lemma ObservedSkips(m: Machine, e: Event, k: nat)
    requires k !in m.log.skipped && k in Observed(m, e).log.skipped
    ensures Observed(m, e).cell.resync.Some?
  {
    assert m.cell.Gap(e);
    ObserveShape(m.cell, e, m.next);
  }

  /** Nothing but an event skips sequences. */
  lemma OthersSkipNothing(m: Machine, a: Action)
    requires !a.Observe? && !(a.Receive? && a.message.RelayEvent?)
    ensures Next(m, a).log.skipped <= m.log.skipped
  {
    match a
    case Bootstrap(items, select) => FillShape(m.log, items);
    case Receive(socket, message) =>
      assert Heard(m.(cell := m.cell.(attempts := None)), message).log.skipped == m.log.skipped;
    case _ =>
  }

  lemma {:induction false} FillShape(log: Log, items: seq<Option<Snapshot>>)
    ensures Fill(log, items).(shown := log.shown, doubted := log.doubted) == log
  {
    if items != [] {
      FillShape(log, items[..|items| - 1]);
    }
  }

  /** A step that skips sequences leaves a live resync of this incarnation registered. */
  lemma SkipLeavesResync(m: Machine, a: Action, k: nat)
    requires Inv(m) && k !in m.log.skipped && k in Next(m, a).log.skipped
    ensures var n := Next(m, a);
      n.cell.resync.Some? && n.cell.resync.value in n.tasks && n.tasks[n.cell.resync.value].version == n.cell.Version()
  {
    StepInv(m, a);
    match a
    case Observe(event) => ObservedSkips(m, event, k);
    case Receive(socket, RelayEvent(event)) => ObservedSkips(m.(cell := m.cell.(attempts := None)), event, k);
    case _ => OthersSkipNothing(m, a);
  }

  // ----- Efficiency -----

  /** The stored snapshot is the earliest delivery of greatest revision in this incarnation. */
  lemma EfficiencyIsMaxRegister(delays: nat, actions: seq<Action>)
    ensures var m := Run(Init(delays), actions);
      && (m.cell.efficiency.None? <==> forall k | 0 <= k < |m.log.deliveries| :: m.log.deliveries[k].None?)
      && (m.cell.efficiency.Some? ==> exists i: nat | i < |m.log.deliveries| ::
            ToolEfficiency.EarliestGreatest(m.log.deliveries, i) && m.log.deliveries[i] == m.cell.efficiency)
  {
    Reachable(delays, actions);
    ToolEfficiency.RegisterHoldsEarliestGreatest(Run(Init(delays), actions).log.deliveries);
  }

  /** A delivery as the contract parser produced it from some payload. */
  ghost predicate IsParsed(delivery: Option<Efficiency>, sessionId: string, isDate: string -> bool) {
    exists input: Option<ToolEfficiency.Value> :: delivery == ToolEfficiency.Parsed(input, sessionId, isDate)
  }

  /** So whatever is stored is bounded, and printing and parsing it again changes nothing. */
  lemma StoredEfficiencyIsParsed(delays: nat, actions: seq<Action>, sessionId: string, isDate: string -> bool)
    requires var m := Run(Init(delays), actions);
      && m.cell.efficiency.Some?
      && forall k | 0 <= k < |m.log.deliveries| :: IsParsed(m.log.deliveries[k], sessionId, isDate)
    ensures var s := Run(Init(delays), actions).cell.efficiency.value;
      && ToolEfficiency.Parsed(Some(ToolEfficiency.ToJson(s)), sessionId, isDate) == Some(s)
      && |s.groups| <= 64 && ToolEfficiency.TotalCalls(s.groups) <= 1024 && ToolEfficiency.DistinctIdentities(s.groups)
      && forall i | 0 <= i < |s.groups| :: ToolEfficiency.GroupBounded(s.groups[i])
  {
    var m := Run(Init(delays), actions);
    EfficiencyIsMaxRegister(delays, actions);
    var i: nat :| i < |m.log.deliveries| && ToolEfficiency.EarliestGreatest(m.log.deliveries, i)
                  && m.log.deliveries[i] == m.cell.efficiency;
    assert IsParsed(m.log.deliveries[i], sessionId, isDate);
    var input: Option<ToolEfficiency.Value> :| m.cell.efficiency == ToolEfficiency.Parsed(input, sessionId, isDate);
    ToolEfficiency.ParsedIsBounded(input, sessionId, isDate);
    ToolEfficiency.ParsedIsFixedPoint(input, sessionId, isDate);
  }

  // ----- Single flight -----

  /** At most one resync of the current incarnation is live, and it is the registered one. */
  lemma SingleFlightResync(delays: nat, actions: seq<Action>, t: nat, u: nat)
    requires var m := Run(Init(delays), actions);
      && t in m.tasks && u in m.tasks
      && m.tasks[t].version == m.cell.Version() == m.tasks[u].version
    ensures t == u && Run(Init(delays), actions).cell.resync == Some(t)
  {
    Reachable(delays, actions);
  }

  /** Nothing registered is dead: the registration always names a live task of this incarnation. */
  lemma RegistrationIsLive(delays: nat, actions: seq<Action>)
    requires Run(Init(delays), actions).cell.resync.Some?
    ensures var m := Run(Init(delays), actions);
      m.cell.resync.value in m.tasks && m.tasks[m.cell.resync.value].version == m.cell.Version()
  {
    Reachable(delays, actions);
  }

  /** A task of an earlier incarnation finishes without touching the newer registration. */
  lemma FinishClearsOwnOnly(delays: nat, actions: seq<Action>, task: nat)
    requires var m := Run(Init(delays), actions);
      task in m.tasks && m.tasks[task].version != m.cell.Version()
    ensures var m := Run(Init(delays), actions);
      && Next(m, FinishTask(task)).cell == m.cell
      && Next(m, RefreshSettled(task, false)).cell == m.cell
  {
    Reachable(delays, actions);
  }

  // ----- Sockets -----

  lemma SocketOwnership(delays: nat, actions: seq<Action>)
    ensures var m := Run(Init(delays), actions);
      && (m.cell.socket.Some? ==>
            && m.cell.wanted && !m.cell.selected
            && m.cell.socket.value in m.sockets && m.sockets[m.cell.socket.value] == m.cell.Version())
      && m.cell.attempts.GetOr(0) <= delays
  {
    Reachable(delays, actions);
    DelaysFixed(Init(delays), actions);
  }

  lemma StepDelays(m: Machine, a: Action)
    ensures Next(m, a).delays == m.delays
  {
    match a
    case Receive(socket, message) =>
      assert Heard(m.(cell := m.cell.(attempts := None)), message).delays == m.delays;
    case _ =>
  }

  lemma {:induction false} DelaysFixed(m: Machine, actions: seq<Action>)
    ensures Run(m, actions).delays == m.delays
  {
    if actions != [] {
      DelaysFixed(m, actions[..|actions| - 1]);
      StepDelays(Run(m, actions[..|actions| - 1]), actions[|actions| - 1]);
    }
  }

  /** A message changes something only if it came from the registered socket of a wanted session. */
  lemma MessagesFromRegisteredSocket(m: Machine, socket: nat, message: Message)
    requires Next(m, AgentActivityRuns.Receive(socket, message)) != m
    ensures m.cell.wanted && !m.cell.disposed && m.cell.socket == Some(socket)
  {
  }

  /** The only socket left open is the registered one. */
  predicate NoStraySocket(m: Machine) {
    forall socket | socket in m.open :: m.cell.socket == Some(socket)
  }

  predicate OpenIssued(m: Machine) {
    forall socket | socket in m.open :: socket < m.next
  }

  lemma SyncOpenIssued(m: Machine, want: bool, select: bool)
    requires OpenIssued(m)
    ensures OpenIssued(Synced(m, want, select))
  {
  }

  lemma StepOpenIssued(m: Machine, a: Action)
    requires OpenIssued(m)
    ensures OpenIssued(Next(m, a))
  {
    NextRises(m, a);
    match a
    case Sync(want, select) => SyncOpenIssued(m, want, select);
    case Bootstrap(items, select) => SyncOpenIssued(Filled(m, items), items != [], select);
    case Receive(_, message) => assert Heard(m.(cell := m.cell.(attempts := None)), message).open == m.open;
    case Close(_) =>
    case TimerFires(_) =>
    case Remove =>
    case Dispose =>
    case _ => assert Next(m, a).open == m.open;
  }

  lemma {:induction false} RunOpenIssued(delays: nat, actions: seq<Action>)
    ensures OpenIssued(Run(Init(delays), actions))
  {
    if actions != [] {
      RunOpenIssued(delays, actions[..|actions| - 1]);
      StepOpenIssued(Run(Init(delays), actions[..|actions| - 1]), actions[|actions| - 1]);
    }
  }

  /** A reconnect timer that reopens over an open socket, or a handled close of one socket beside another. */
  predicate Strays(m: Machine, a: Action) {
    match a
    case TimerFires(timer) => timer in m.timers && m.cell.Reopens(m.timers[timer]) && m.open != {}
    case Close(socket) => socket in m.sockets && m.cell.HandlesClose(m.sockets[socket]) && m.open - {socket} != {}
    case _ => false
  }

  /** Exactly which steps leave an open socket that is not the registered one. */
  lemma StraySocketExactly(delays: nat, actions: seq<Action>, a: Action)
    requires NoStraySocket(Run(Init(delays), actions))
    ensures !NoStraySocket(Next(Run(Init(delays), actions), a)) <==> Strays(Run(Init(delays), actions), a)
  {
    var m := Run(Init(delays), actions);
    Reachable(delays, actions);
    RunOpenIssued(delays, actions);
    match a
    case Sync(want, select) => SyncStraysNot(m, want, select);
    case Bootstrap(items, select) =>
      SeedShape(m.cell, items);
      SyncStraysNot(Filled(m, items), items != [], select);
    case TimerFires(timer) => TimerStrays(m, timer);
    case Close(socket) => CloseStrays(m, socket);
    case Receive(_, _) => NewsStraysNot(m, a);
    case Observe(_) => NewsStraysNot(m, a);
    case _ => RestStraysNot(m, a);
  }

  lemma SyncStraysNot(m: Machine, want: bool, select: bool)
    requires CellInv(m.cell, m.delays) && NoStraySocket(m)
    ensures NoStraySocket(Synced(m, want, select))
  {
  }

  lemma TimerStrays(m: Machine, timer: nat)
    requires NoStraySocket(m) && OpenIssued(m)
    ensures !NoStraySocket(Next(m, AgentActivityRuns.TimerFires(timer))) <==> Strays(m, AgentActivityRuns.TimerFires(timer))
  {
    var n := Next(m, AgentActivityRuns.TimerFires(timer));
    if Strays(m, AgentActivityRuns.TimerFires(timer)) {
      var socket :| socket in m.open;
      assert socket in n.open && socket != m.next;
    }
  }

  lemma CloseStrays(m: Machine, socket: nat)
    requires NoStraySocket(m)
    ensures !NoStraySocket(Next(m, AgentActivityRuns.Close(socket))) <==> Strays(m, AgentActivityRuns.Close(socket))
  {
    var n := Next(m, AgentActivityRuns.Close(socket));
    if Strays(m, AgentActivityRuns.Close(socket)) {
      var other :| other in m.open - {socket};
      assert other in n.open && n.cell.socket == None;
    }
  }

  lemma NewsStraysNot(m: Machine, a: Action)
    requires NoStraySocket(m) && (a.Receive? || a.Observe?)
    ensures NoStraySocket(Next(m, a))
  {
    match a
    case Observe(event) => ObserveShape(m.cell, event, m.next);
    case Receive(socket, message) =>
      var c := m.cell.(attempts := None);
      if message.RelayEvent? { ObserveShape(c, message.event, m.next); }
    case _ =>
  }

  lemma RestStraysNot(m: Machine, a: Action)
    requires CellInv(m.cell, m.delays) && NoStraySocket(m)
    requires !a.Sync? && !a.Bootstrap? && !a.TimerFires? && !a.Close? && !a.Receive? && !a.Observe?
    ensures NoStraySocket(Next(m, a))
  {
    match a
    case SettleHydrate(k, response) => if k in m.hydrations { HydrateShape(m.cell, m.hydrations[k], response); }
    case SettleTaskHydrate(task, response) =>
      if task in m.tasks && m.tasks[task].TaskHydrating? { HydrateShape(m.cell, m.tasks[task].h, response); }
    case _ =>
  }

  /** More than one socket may stay open: a reconnect timer replaces a socket that sync reopened. */
  lemma TimerReplacesOpenSocket(delays: nat)
    requires delays >= 1
    ensures var actions := [AgentActivityRuns.Sync(true, false), AgentActivityRuns.Close(0),
                            AgentActivityRuns.Sync(true, false), AgentActivityRuns.TimerFires(2)];
      var m := Run(Init(delays), actions);
      m.open == {3, 5} && m.cell.socket == Some(5)
  {
    var a := AgentActivityRuns.Sync(true, false);
    var b := AgentActivityRuns.Close(0);
    var d := AgentActivityRuns.TimerFires(2);
    var m0 := Init(delays);
    assert [a][..0] == [] && [a, b][..1] == [a] && [a, b, a][..2] == [a, b] && [a, b, a, d][..3] == [a, b, a];
    assert Run(m0, [a]) == Next(m0, a);
    assert Run(m0, [a, b]) == Next(Run(m0, [a]), b);
    assert Run(m0, [a, b, a]) == Next(Run(m0, [a, b]), a);
    assert Run(m0, [a, b, a, d]) == Next(Run(m0, [a, b, a]), d);
  }

  // ----- Incarnations -----

  /**
    A read sent in an earlier incarnation changes nothing when it answers; when it is rejected,
    it marks the newer incarnation's snapshot stale, because that path asks for no version.
  */
  lemma LateReadOnlyMarksStale(delays: nat, actions: seq<Action>, k: nat, response: Option<AgentActivityCell.Read>)
    requires var m := Run(Init(delays), actions);
      k in m.hydrations && m.hydrations[k].version != m.cell.Version()
    ensures var m := Run(Init(delays), actions);
      Next(m, SettleHydrate(k, response)).cell == if response.None? then m.cell.MarkStale() else m.cell
  {
  }

  /** The same holds of the reads that resync tasks of an earlier incarnation sent. */
  lemma LateTaskReadOnlyMarksStale(m: Machine, task: nat, response: Option<AgentActivityCell.Read>)
    requires task in m.tasks && m.tasks[task].TaskHydrating? && m.tasks[task].h.version != m.cell.Version()
    ensures Next(m, SettleTaskHydrate(task, response)).cell == if response.None? then m.cell.MarkStale() else m.cell
  {
  }

  // ----- Unsequenced reads -----

  /** Versions only rise, and within one the cursor does too. */
  predicate CursorRises(m: Machine, n: Machine) {
    || n.cell.Version() > m.cell.Version()
    || (n.cell.Version() == m.cell.Version() && n.cell.Cursor() >= m.cell.Cursor())
  }

  lemma NewsKeepsVersion(m: Machine, a: Action)
    requires a.Observe? || a.Receive? || a.SettleHydrate? || a.SettleTaskHydrate?
    ensures Next(m, a).cell.Version() == m.cell.Version()
  {
    match a
    case Observe(event) => ObserveShape(m.cell, event, m.next);
    case Receive(socket, message) =>
      var c := m.cell.(attempts := None);
      if message.RelayEvent? { ObserveShape(c, message.event, m.next); }
    case SettleHydrate(k, response) => if k in m.hydrations { HydrateShape(m.cell, m.hydrations[k], response); }
    case SettleTaskHydrate(task, response) =>
      if task in m.tasks && m.tasks[task].TaskHydrating? { HydrateShape(m.cell, m.tasks[task].h, response); }
    case _ =>
  }

  lemma SyncVersionRises(m: Machine, want: bool, select: bool)
    ensures Synced(m, want, select).cell.Version() >= m.cell.Version()
  {
  }

  lemma VersionRises(m: Machine, a: Action)
    ensures Next(m, a).cell.Version() >= m.cell.Version()
  {
    match a
    case Sync(want, select) => SyncVersionRises(m, want, select);
    case Bootstrap(items, select) =>
      SeedShape(m.cell, items);
      SyncVersionRises(Filled(m, items), items != [], select);
    case Observe(_) => NewsKeepsVersion(m, a);
    case Receive(_, _) => NewsKeepsVersion(m, a);
    case SettleHydrate(_, _) => NewsKeepsVersion(m, a);
    case SettleTaskHydrate(_, _) => NewsKeepsVersion(m, a);
    case _ =>
  }

  lemma {:induction false} RunCursorRises(m: Machine, actions: seq<Action>)
    requires Inv(m)
    ensures CursorRises(m, Run(m, actions)) && Inv(Run(m, actions))
  {
    if actions != [] {
      var before := Run(m, actions[..|actions| - 1]);
      RunCursorRises(m, actions[..|actions| - 1]);
      VersionRises(before, actions[|actions| - 1]);
      CursorMovesHonestly(before, actions[|actions| - 1]);
      StepInv(before, actions[|actions| - 1]);
    }
  }

  /** Reads in flight captured a version and a cursor that have been there. */
  predicate ReadsIssued(m: Machine) {
    forall k | k in m.hydrations ::
      && k < m.next && m.hydrations[k].version <= m.cell.Version()
      && (m.hydrations[k].version == m.cell.Version() ==> m.hydrations[k].requestedCursor <= m.cell.Cursor())
  }

  /** A hydration is as it was sent, or is new and reads the cell it was sent from. */
  predicate KeptOrSent(m: Machine, n: Machine, k: nat)
    requires k in n.hydrations
  {
    || (k in m.hydrations && n.hydrations[k] == m.hydrations[k])
    || (m.next <= k < n.next && n.hydrations[k] == n.cell.CaptureHydration())
  }

  lemma SyncHydrations(m: Machine, want: bool, select: bool, k: nat)
    requires k in Synced(m, want, select).hydrations
    ensures KeptOrSent(m, Synced(m, want, select), k)
  {
  }

  lemma NewsHydrations(m: Machine, a: Action)
    requires a.Observe? || a.Receive? || a.StartResync?
    ensures Next(m, a).hydrations == m.hydrations
  {
    if a.Receive? {
      assert Heard(m.(cell := m.cell.(attempts := None)), a.message).hydrations == m.hydrations;
    }
  }

  lemma StepHydrations(m: Machine, a: Action, k: nat)
    requires k in Next(m, a).hydrations
    ensures KeptOrSent(m, Next(m, a), k)
  {
    match a
    case Sync(want, select) => SyncHydrations(m, want, select, k);
    case Bootstrap(items, select) => SyncHydrations(Filled(m, items), items != [], select, k);
    case Observe(_) => NewsHydrations(m, a);
    case Receive(_, _) => NewsHydrations(m, a);
    case StartResync => NewsHydrations(m, a);
    case StartHydrate =>
    case _ => assert Next(m, a).hydrations.Keys <= m.hydrations.Keys;
  }

  lemma StepReadsIssued(m: Machine, a: Action)
    requires Inv(m) && ReadsIssued(m)
    ensures ReadsIssued(Next(m, a))
  {
    VersionRises(m, a);
    CursorMovesHonestly(m, a);
    var n := Next(m, a);
    forall k | k in n.hydrations
      ensures k < n.next && n.hydrations[k].version <= n.cell.Version()
      ensures n.hydrations[k].version == n.cell.Version() ==> n.hydrations[k].requestedCursor <= n.cell.Cursor()
    {
      StepHydrations(m, a, k);
      NextRises(m, a);
    }
  }

  lemma {:induction false} RunReadsIssued(delays: nat, actions: seq<Action>)
    ensures ReadsIssued(Run(Init(delays), actions))
  {
    if actions != [] {
      var earlier := actions[..|actions| - 1];
      Reachable(delays, earlier);
      RunReadsIssued(delays, earlier);
      StepReadsIssued(Run(Init(delays), earlier), actions[|actions| - 1]);
    }
  }

  /** While it is in flight, a read keeps what it captured. */
  lemma {:induction false} RunHydrations(m: Machine, actions: seq<Action>, k: nat)
    requires k in m.hydrations && k < m.next
    ensures var n := Run(m, actions);
      n.next >= m.next && (k in n.hydrations ==> n.hydrations[k] == m.hydrations[k])
  {
    if actions != [] {
      var before := Run(m, actions[..|actions| - 1]);
      RunHydrations(m, actions[..|actions| - 1], k);
      NextRises(before, actions[|actions| - 1]);
      if k in Next(before, actions[|actions| - 1]).hydrations {
        StepHydrations(before, actions[|actions| - 1], k);
      }
    }
  }

  lemma SyncNextRises(m: Machine, want: bool, select: bool)
    ensures Synced(m, want, select).next >= m.next
  {
  }

  lemma NextRises(m: Machine, a: Action)
    ensures Next(m, a).next >= m.next
  {
    match a
    case Sync(want, select) => SyncNextRises(m, want, select);
    case Bootstrap(items, select) => SyncNextRises(Filled(m, items), items != [], select);
    case Receive(socket, message) => assert Heard(m.(cell := m.cell.(attempts := None)), message).next >= m.next;
    case _ =>
  }

  /**
    An unsequenced read is only a hint: if an event was accepted since it was sent, it changes
    nothing when it answers, whatever else happens in between.
  */
  lemma UnsequencedReadNeverOverwrites(delays: nat, before: seq<Action>, k: nat, event: Event, after: seq<Action>,
                                       read: AgentActivityCell.Read)
    requires var m := Run(Init(delays), before); k in m.hydrations && m.cell.Accepts(event)
    requires read.sequence.None?
    ensures var n := Run(Next(Run(Init(delays), before), AgentActivityRuns.Observe(event)), after);
      Next(n, SettleHydrate(k, Some(read))).cell == n.cell
  {
    var m := Run(Init(delays), before);
    var seen := Next(m, AgentActivityRuns.Observe(event));
    var n := Run(seen, after);
    Reachable(delays, before);
    RunReadsIssued(delays, before);
    StepInv(m, AgentActivityRuns.Observe(event));
    EventOvertakes(m, k, event);
    RunCursorRises(seen, after);
    RunHydrations(seen, after, k);
    StaysOvertaken(m.hydrations[k], seen, n);
    OvertakenHint(n, k, read);
  }

  predicate Overtaken(c: Cell, h: Hydration) {
    h.version < c.Version() || (h.version == c.Version() && h.requestedCursor < c.Cursor())
  }

  lemma StaysOvertaken(h: Hydration, m: Machine, n: Machine)
    requires Overtaken(m.cell, h) && CursorRises(m, n)
    ensures Overtaken(n.cell, h)
  {
  }

  lemma OvertakenHint(m: Machine, k: nat, read: AgentActivityCell.Read)
    requires read.sequence.None? && (k in m.hydrations ==> Overtaken(m.cell, m.hydrations[k]))
    ensures Next(m, SettleHydrate(k, Some(read))).cell == m.cell
  {
  }

  /** A read in flight belongs to an earlier version, or captured a cursor the event has passed. */
  lemma EventOvertakes(m: Machine, k: nat, event: Event)
    requires ReadsIssued(m) && k in m.hydrations && m.cell.Accepts(event)
    ensures var seen := Next(m, AgentActivityRuns.Observe(event));
      && k in seen.hydrations && seen.hydrations[k] == m.hydrations[k] && k < seen.next
      && Overtaken(seen.cell, m.hydrations[k])
  {
    NewsHydrations(m, AgentActivityRuns.Observe(event));
    NextRises(m, AgentActivityRuns.Observe(event));
    ObserveShape(m.cell, event, m.next);
  }

  /** Disposal does not stop list seeding: a later bootstrap still fills an empty projection. */
  lemma DisposedStillSeeds(m: Machine, items: seq<Option<Snapshot>>, select: bool)
    requires m.cell.disposed
    ensures Next(m, AgentActivityRuns.Bootstrap(items, select)).cell.snapshot != m.cell.snapshot <==>
      m.cell.snapshot.None? && exists i | 0 <= i < |items| :: items[i].Some?
  {
    SeedFills(m.cell, items);
  }

  lemma {:induction false} SeedFills(c: Cell, items: seq<Option<Snapshot>>)
    ensures c.Seed(items).disposed == c.disposed
    ensures c.snapshot.Some? ==> c.Seed(items) == c
    ensures c.snapshot.None? ==> (c.Seed(items).snapshot.Some? <==> exists i | 0 <= i < |items| :: items[i].Some?)
  {
    if items != [] {
      var earlier := items[..|items| - 1];
      SeedFills(c, earlier);
      assert (exists i | 0 <= i < |items| :: items[i].Some?) <==>
        (exists i | 0 <= i < |earlier| :: earlier[i].Some?) || items[|items| - 1].Some? by {
        if exists i | 0 <= i < |earlier| :: earlier[i].Some? {
          var i :| 0 <= i < |earlier| && earlier[i].Some?;
          assert items[i].Some?;
        }
      }
    }
  }
}
