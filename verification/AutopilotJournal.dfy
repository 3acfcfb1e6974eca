/**
  The projection against the journal it projects.

  The relay journals one event per sequence number, from 1 on. `SnapshotAt` and `Outstanding`
  say what the journal's first n events establish, without any client in sight; the main lemmas
  compare a client cell with them after an arbitrary run of honest sources.
*/
module AutopilotJournal {
  import opened Wrappers
  import opened AutopilotCell
  import opened AutopilotRuns

  /** `base` is the coordinator's snapshot before the first event. */
  datatype Journal = Journal(base: Snapshot, events: seq<Body>)

  // ----- What the journal establishes -----

  function SnapshotAt(j: Journal, n: nat): Snapshot
    requires n <= |j.events|
  {
    if n == 0 then j.base
    else match j.events[n - 1]
      case AutopilotUpdated(Some(s)) => s
      case _ => SnapshotAt(j, n - 1)
  }

  /** The attention requests still open after n events, oldest first. */
  function Outstanding(j: Journal, n: nat): seq<Attention>
    requires n <= |j.events|
  {
    if n == 0 then []
    else
      var open := Outstanding(j, n - 1);
      match j.events[n - 1]
      case AttentionRequired(Direct(a)) => open + [a]
      case AttentionRequired(Envelope(a)) => open + [Stored(a)]
      case AttentionResolved(requestId, _) => Without(open, requestId)
      case AgentMessageCompleted(turnId, finalAnswer, report) => WithReport(open, turnId, finalAnswer, report)
      case _ => open
  }

  function Without(open: seq<Attention>, requestId: string): seq<Attention> {
    if open == [] then []
    else (if open[0].requestId == requestId then [] else [open[0]]) + Without(open[1..], requestId)
  }

  function WithReport(open: seq<Attention>, turnId: Option<string>, finalAnswer: bool, report: Option<string>): (r: seq<Attention>)
    ensures |r| == |open|
  {
    if open == [] then []
    else
      [if Reports(open[0], turnId, finalAnswer, report) then open[0].(report := report) else open[0]]
      + WithReport(open[1..], turnId, finalAnswer, report)
  }

  /** At most one request is ever open, and only open requests are resolved. */
  ghost predicate OneAtATime(j: Journal) {
    && (forall n: nat | n <= |j.events| :: |Outstanding(j, n)| <= 1)
    && (forall n | 0 <= n < |j.events| :: WellFormed(j, n))
  }

  predicate WellFormed(j: Journal, n: nat)
    requires n < |j.events|
  {
    match j.events[n]
    case AttentionRequired(candidate) => candidate.Direct? || candidate.Envelope?
    case AttentionResolved(requestId, _) =>
      exists i | 0 <= i < |Outstanding(j, n)| :: Outstanding(j, n)[i].requestId == requestId
    case _ => true
  }

  // ----- Honest sources -----

  function Envelopes(items: seq<Option<Attention>>): seq<Attention> {
    if items == [] then []
    else (if items[0].Some? then [Stored(items[0].value)] else []) + Envelopes(items[1..])
  }

  /** A read sampled at a sequence reports what the journal established there; others may say anything. */
  predicate Truthful(j: Journal, read: Read) {
    read.sequence.Some? ==>
      && read.sequence.value <= |j.events|
      && read.autopilot == Some(SnapshotAt(j, read.sequence.value))
      && read.interactions.Items?
      && Envelopes(read.interactions.items) == Outstanding(j, read.sequence.value)
  }

  predicate Honest(j: Journal, a: Action) {
    match a
    case Bootstrap(items) => forall i | 0 <= i < |items| :: Truthful(j, items[i])
    case Observe(sequence, body) => 1 <= sequence <= |j.events| && j.events[sequence - 1] == body
    case Authoritative(read) => Truthful(j, read)
    case SettleHydrate(_, response) => response.Some? ==> Truthful(j, response.value)
    case SettleResolveHydrate(_, response) => response.Some? ==> Truthful(j, response.value)
    case _ => true
  }

  // ----- When a cell is in step -----

  /** An accepted read puts the cell in step if it was sequenced and out of step if it was not. */
  function AfterRead(inStep: bool, accepted: bool, read: Read): bool {
    if accepted then read.sequence.Some? else inStep
  }

  function AfterItems(c: Cell, inStep: bool, items: seq<Read>): bool {
    if items == [] then inStep
    else
      var earlier := items[..|items| - 1];
      var read := items[|items| - 1];
      AfterRead(AfterItems(c, inStep, earlier),
                c.BootstrapItems(earlier).Registered().AcceptsItem(read), read)
  }

  /**
    Whether the session is in step after an action. A sequenced snapshot puts it in step; it
    stays so while every newly accepted event is contiguous, until an unsequenced read, an
    applied toggle response, a removal or disposal takes it out.
  */
  function InStepAfter(m: Machine, inStep: bool, a: Action): bool {
    var c := m.cell;
    match a
    case Bootstrap(items) =>
      if c.disposed || items == [] then inStep && c.Bootstrap(items).wanted
      else AfterItems(c.(wanted := true), inStep && c.wanted, items)
    case Observe(sequence, _) =>
      inStep && (c.AcceptsEvent(sequence) ==> sequence == c.Cursor() + 1)
    case Authoritative(read) => AfterRead(inStep, c.AcceptsAuthoritative(read), read)
    case SettleHydrate(k, response) =>
      if m.Has(k) && m.Op(k).Hydrating? && response.Some?
      then AfterRead(inStep, c.AcceptsHydration(m.Op(k).h, response.value), response.value) else inStep
    case SettleResolveHydrate(k, response) =>
      if m.Has(k) && m.Op(k).ResolveHydrating? && response.Some?
      then AfterRead(inStep, c.AcceptsHydration(m.Op(k).h, response.value), response.value) else inStep
    case SettleToggle(k, outcome) =>
      inStep && !(m.Has(k) && m.Op(k).Toggling? && outcome.Updated? && c.Unraced(m.Op(k).m))
    case Remove => false
    case Dispose => false
    case _ => inStep
  }

  function InStep(actions: seq<Action>): bool {
    if actions == [] then false
    else
      var earlier := actions[..|actions| - 1];
      InStepAfter(Run(Init(), earlier), InStep(earlier), actions[|actions| - 1])
  }

  // ----- Agreement -----

  predicate SnapshotAgrees(j: Journal, c: Cell) {
    c.cursor.Some? && c.cursor.value <= |j.events| && c.snapshot == Some(SnapshotAt(j, c.cursor.value))
  }

  predicate AttentionAgrees(j: Journal, c: Cell) {
    && c.cursor.Some? && c.cursor.value <= |j.events|
    && (var open := Outstanding(j, c.cursor.value);
        c.attention == if open == [] then None else Some(open[0]))
  }

  ghost predicate Agrees(j: Journal, c: Cell) {
    SnapshotAgrees(j, c) && (OneAtATime(j) ==> AttentionAgrees(j, c))
  }

  lemma {:induction false} FirstEnvelopeIsFirst(items: seq<Option<Attention>>)
    ensures FirstEnvelope(items) == if Envelopes(items) == [] then None else Some(Envelopes(items)[0])
  {
    if items != [] && items[0].None? {
      FirstEnvelopeIsFirst(items[1..]);
    }
  }

  /** Accepting a truthful sequenced read brings any cell in step. */
  lemma ReadAgrees(j: Journal, c: Cell, read: Read)
    requires Truthful(j, read) && read.sequence.Some? && c.cursor == read.sequence
    ensures Agrees(j, c.AcceptSnapshot(read))
  {
    FirstEnvelopeIsFirst(read.interactions.items);
  }

  /** Accepting the next journal event keeps a cell in step. */
  lemma EventAgrees(j: Journal, c: Cell, body: Body)
    requires Agrees(j, c) && c.AcceptsEvent(c.Cursor() + 1)
    requires Honest(j, Observe(c.Cursor() + 1, body))
    ensures Agrees(j, c.Observe(c.Cursor() + 1, body))
  {
    var n := c.Cursor();
    if OneAtATime(j) {
      assert |Outstanding(j, n)| <= 1 && |Outstanding(j, n + 1)| <= 1;
      assert WellFormed(j, n);
      var open := Outstanding(j, n);
      match body
      case AttentionResolved(requestId, _) =>
        var i :| 0 <= i < |open| && open[i].requestId == requestId;
        assert i == 0 && open[1..] == [];
        assert Without(open, requestId) == Without(open[1..], requestId) == [];
        assert Outstanding(j, n + 1) == [];
      case AgentMessageCompleted(_, _, _) =>
        if open != [] { assert open[1..] == []; }
      case AttentionRequired(_) =>
        assert Outstanding(j, n + 1)[..|open|] == open;
      case _ =>
    }
  }

  lemma {:induction false} ItemsAgree(j: Journal, c: Cell, inStep: bool, items: seq<Read>)
    requires forall i | 0 <= i < |items| :: Truthful(j, items[i])
    requires inStep ==> Agrees(j, c)
    ensures AfterItems(c, inStep, items) ==> Agrees(j, c.BootstrapItems(items))
  {
    if items != [] {
      var earlier := items[..|items| - 1];
      assert forall i | 0 <= i < |earlier| :: earlier[i] == items[i];
      ItemsAgree(j, c, inStep, earlier);
      var d := c.BootstrapItems(earlier).Registered();
      var read := items[|items| - 1];
      if d.AcceptsItem(read) && read.sequence.Some? {
        ReadAgrees(j, d.AdvanceTo(read.sequence), read);
      }
    }
  }

  lemma HydrationAgrees(j: Journal, c: Cell, h: Hydration, read: Read)
    requires Truthful(j, read) && c.AcceptsHydration(h, read) && read.sequence.Some?
    ensures Agrees(j, c.HydrateSettle(h, Some(read)))
  {
    ReadAgrees(j, c.(cursor := read.sequence), read);
  }

  lemma ListStepAgrees(j: Journal, m: Machine, inStep: bool, items: seq<Read>)
    requires Honest(j, Bootstrap(items)) && (inStep ==> Agrees(j, m.cell))
    ensures InStepAfter(m, inStep, Bootstrap(items)) ==> Agrees(j, Next(m, Bootstrap(items)).cell)
  {
    if !m.cell.disposed && items != [] {
      ItemsAgree(j, m.cell.(wanted := true), inStep && m.cell.wanted, items);
    }
  }

  lemma SourceStepAgrees(j: Journal, m: Machine, inStep: bool, a: Action)
    requires Honest(j, a) && (inStep ==> Agrees(j, m.cell)) && (a.Observe? || a.Authoritative?)
    ensures InStepAfter(m, inStep, a) ==> Agrees(j, Next(m, a).cell)
  {
    var c := m.cell;
    if InStepAfter(m, inStep, a) {
      match a
      case Observe(sequence, body) => if c.AcceptsEvent(sequence) { EventAgrees(j, c, body); }
      case Authoritative(read) =>
        if c.AcceptsAuthoritative(read) { ReadAgrees(j, c.AdvanceTo(read.sequence), read); }
      case _ =>
    }
  }

  lemma HydrateStepAgrees(j: Journal, m: Machine, inStep: bool, a: Action)
    requires Honest(j, a) && (inStep ==> Agrees(j, m.cell)) && (a.SettleHydrate? || a.SettleResolveHydrate?)
    ensures InStepAfter(m, inStep, a) ==> Agrees(j, Next(m, a).cell)
  {
    var k, response := a.k, a.response;
    if InStepAfter(m, inStep, a) && m.Has(k) && m.Op(k).Reads() && response.Some?
       && m.cell.AcceptsHydration(m.Op(k).h, response.value) && response.value.sequence.Some? {
      HydrationAgrees(j, m.cell, m.Op(k).h, response.value);
    }
  }

  lemma StepAgrees(j: Journal, m: Machine, inStep: bool, a: Action)
    requires Honest(j, a) && (inStep ==> Agrees(j, m.cell))
    ensures InStepAfter(m, inStep, a) ==> Agrees(j, Next(m, a).cell)
  {
    match a
    case Bootstrap(items) => ListStepAgrees(j, m, inStep, items);
    case Observe(_, _) => SourceStepAgrees(j, m, inStep, a);
    case Authoritative(_) => SourceStepAgrees(j, m, inStep, a);
    case SettleHydrate(_, _) => HydrateStepAgrees(j, m, inStep, a);
    case SettleResolveHydrate(_, _) => HydrateStepAgrees(j, m, inStep, a);
    case _ =>
  }

  /**
    Journal refinement: in every run of honest sources, a session that is in step shows exactly
    the fold of the journal up to its cursor, and its attention too when at most one is open.
  */
  lemma {:induction false} JournalRefinement(j: Journal, actions: seq<Action>)
    requires forall i | 0 <= i < |actions| :: Honest(j, actions[i])
    ensures InStep(actions) ==> Agrees(j, Run(Init(), actions).cell)
  {
    if actions != [] {
      var earlier := actions[..|actions| - 1];
      assert forall i | 0 <= i < |earlier| :: earlier[i] == actions[i];
      JournalRefinement(j, earlier);
      StepAgrees(j, Run(Init(), earlier), InStep(earlier), actions[|actions| - 1]);
    }
  }

  /** Duplicates, replays and reads below the cursor change nothing at all. */
  lemma ReplaysChangeNothing(actions: seq<Action>, sequence: nat, body: Body, read: Read)
    requires sequence <= Run(Init(), actions).cell.Cursor()
    requires read.sequence.Some? && read.sequence.value < Run(Init(), actions).cell.Cursor()
    requires Run(Init(), actions).cell.wanted
    ensures var m := Run(Init(), actions);
      && Next(m, Observe(sequence, body)) == m
      && Next(m, Authoritative(read)) == m
      && Next(m, Bootstrap([read])) == m
      && (forall k: nat | m.Has(k) && m.Op(k).Reads() :: m.cell.HydrateSettle(m.Op(k).h, Some(read)) == m.cell)
  {
    var m := Run(Init(), actions);
    InitInv();
    RunInv(Init(), actions);
    assert [read][..0] == [] && m.cell.(wanted := true) == m.cell;
    assert m.cell.BootstrapItems([]) == m.cell;
    assert m.cell.BootstrapItems([read]) == m.cell.BootstrapItem(read);
  }

  // ----- Where the conditions bite -----

  /** After a gap the snapshot is right exactly when the skipped events did not matter. */
  lemma GapAgreesIff(j: Journal, c: Cell, sequence: nat)
    requires SnapshotAgrees(j, c) && c.AcceptsEvent(sequence) && sequence <= |j.events|
    ensures SnapshotAgrees(j, c.Observe(sequence, j.events[sequence - 1])) <==>
      || (j.events[sequence - 1].AutopilotUpdated? && j.events[sequence - 1].candidate.Some?)
      || SnapshotAt(j, sequence - 1) == SnapshotAt(j, c.Cursor())
  {
  }

  /**
    An accepted unsequenced read, shared or of a hydrate, leaves the snapshot right exactly when it
    repeats the journal; an unsequenced list item is not accepted where there is a snapshot.
  */
  lemma UnsequencedReadAgreesIff(j: Journal, c: Cell, read: Read, h: Hydration)
    requires SnapshotAgrees(j, c) && read.sequence.None?
    ensures c.AcceptsAuthoritative(read) ==>
      (SnapshotAgrees(j, c.ApplyAuthoritative(read)) <==> Repeats(j, c, read))
    ensures c.AcceptsHydration(h, read) ==>
      (SnapshotAgrees(j, c.HydrateSettle(h, Some(read))) <==> Repeats(j, c, read))
    ensures !c.AcceptsItem(read) && SnapshotAgrees(j, c.BootstrapItem(read))
  {
  }

  predicate Repeats(j: Journal, c: Cell, read: Read)
    requires c.Cursor() <= |j.events|
  {
    read.autopilot.None? || read.autopilot.value == SnapshotAt(j, c.Cursor())
  }

  /** The oldest request still open after n events. */
  function FirstOpen(j: Journal, n: nat): Option<Attention>
    requires n <= |j.events|
  {
    if Outstanding(j, n) == [] then None else Some(Outstanding(j, n)[0])
  }

  function Reported(first: Option<Attention>, turnId: Option<string>, finalAnswer: bool, report: Option<string>): Option<Attention> {
    if first.Some? && Reports(first.value, turnId, finalAnswer, report) then Some(first.value.(report := report)) else first
  }

  /** What accepting event `sequence` at a cursor needs for the stored attention to stay the oldest open one. */
  predicate KeepsAttention(j: Journal, cursor: nat, sequence: nat)
    requires cursor < sequence <= |j.events|
  {
    var before := FirstOpen(j, sequence - 1);
    match j.events[sequence - 1]
    case AttentionRequired(Direct(a)) => before.None? || before == Some(a)
    case AttentionRequired(Envelope(a)) => before.None? || before == Some(Stored(a))
    case AttentionRequired(Items(items)) => FirstEnvelope(items) == before
    case AttentionResolved(requestId, _) => Without(Outstanding(j, sequence - 1), requestId) == []
    case AgentMessageCompleted(turnId, finalAnswer, report) =>
      Reported(before, turnId, finalAnswer, report) == Reported(FirstOpen(j, cursor), turnId, finalAnswer, report)
    case _ => before == FirstOpen(j, cursor)
  }

  /**
    However many requests are open, and over any gap: accepting an event keeps the attention in
    agreement with the journal exactly when `KeepsAttention` holds.
  */
  lemma AttentionAgreesIff(j: Journal, c: Cell, sequence: nat)
    requires AttentionAgrees(j, c) && c.AcceptsEvent(sequence) && sequence <= |j.events|
    ensures AttentionAgrees(j, c.Observe(sequence, j.events[sequence - 1])) <==> KeepsAttention(j, c.Cursor(), sequence)
  {
    match j.events[sequence - 1]
    case _ =>
  }

  /** Without a gap: a second request, or the end of one of several, is what breaks agreement. */
  lemma NextEventKeepsAttention(j: Journal, cursor: nat)
    requires cursor < |j.events|
    ensures KeepsAttention(j, cursor, cursor + 1) <==>
      match j.events[cursor]
      case AttentionRequired(Direct(a)) => FirstOpen(j, cursor) in {None, Some(a)}
      case AttentionRequired(Envelope(a)) => FirstOpen(j, cursor) in {None, Some(Stored(a))}
      case AttentionRequired(Items(items)) => FirstEnvelope(items) == FirstOpen(j, cursor)
      case AttentionResolved(requestId, _) => forall a | a in Outstanding(j, cursor) :: a.requestId == requestId
      case _ => true
  {
    if j.events[cursor].AttentionResolved? {
      WithoutAll(Outstanding(j, cursor), j.events[cursor].requestId);
    }
  }

  lemma {:induction false} WithoutAll(open: seq<Attention>, requestId: string)
    ensures Without(open, requestId) == [] <==> forall a | a in open :: a.requestId == requestId
  {
    if open != [] {
      WithoutAll(open[1..], requestId);
      assert forall a :: a in open <==> a == open[0] || a in open[1..];
    }
  }

  /** With two requests open, resolving one deletes the other from the client. */
  lemma TwoOpenRequestsDisagree(base: Snapshot, a: Attention, b: Attention)
    requires a.requestId != b.requestId
    ensures
      var j := Journal(base, [AttentionRequired(Direct(a)), AttentionRequired(Direct(b)),
                              AttentionResolved(a.requestId, false)]);
      var c := Absent().(wanted := true).Observe(1, j.events[0]).Observe(2, j.events[1]).Observe(3, j.events[2]);
      Outstanding(j, 3) == [b] && c.attention == None
  {
    var j := Journal(base, [AttentionRequired(Direct(a)), AttentionRequired(Direct(b)),
                            AttentionResolved(a.requestId, false)]);
    assert Outstanding(j, 0) == [];
    assert Outstanding(j, 1) == [a];
    assert Outstanding(j, 2) == [a, b];
    assert [a, b][1..] == [b] && [b][1..] == [];
    assert Without([b], a.requestId) == [b];
  }
}
