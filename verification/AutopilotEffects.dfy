/**
  What each operation does in every reachable state, in the session's own counters and fields:
  when it takes effect, and what it then stores. AutopilotTheorems says what cannot happen;
  the lemmas here say what does.
*/
module AutopilotEffects {
  import opened Wrappers
  import opened AutopilotCell
  import opened AutopilotRuns
  import opened AutopilotTheorems

  /** All an event or a read leaves alone. */
  predicate SameElsewhere(c: Cell, d: Cell) {
    && d.disposed == c.disposed && d.wanted == c.wanted && d.pending == c.pending && d.error == c.error
    && d.version == c.version && d.requestRevision == c.requestRevision && d.mutationEpoch == c.mutationEpoch
    && d.hydrateEpoch == c.hydrateEpoch
  }

  predicate ShowsSnapshot(c: Cell, candidate: Option<Snapshot>, d: Cell) {
    if candidate.Some? then d.snapshot == candidate && d.recoveryError == candidate.value.recovery
    else d.snapshot == c.snapshot && d.recoveryError == c.recoveryError
  }

  /** An envelope as it is kept: as it came, but for an empty report. */
  predicate KeptAs(envelope: Attention, kept: Attention) {
    && kept.requestId == envelope.requestId && kept.turnId == envelope.turnId && kept.details == envelope.details
    && kept.report == (if envelope.report == Some("") then None else envelope.report)
  }

  /** The first envelope of a list is shown; a list without one clears. */
  predicate ShowsFirst(items: seq<Option<Attention>>, shown: Option<Attention>) {
    if forall i | 0 <= i < |items| :: items[i].None? then shown.None?
    else exists i | 0 <= i < |items| ::
           && items[i].Some? && (forall j | 0 <= j < i :: items[j].None?)
           && shown.Some? && KeptAs(items[i].value, shown.value)
  }

  predicate ShowsAttention(before: Option<Attention>, candidate: Candidate, shown: Option<Attention>) {
    match candidate
    case Direct(request) => shown == Some(request)
    case Envelope(request) => shown.Some? && KeptAs(request, shown.value)
    case Items(items) => ShowsFirst(items, shown)
    case Malformed => shown == before
  }

  lemma {:induction false} FirstIsShown(items: seq<Option<Attention>>)
    ensures ShowsFirst(items, FirstEnvelope(items))
  {
    if items != [] && items[0].None? {
      var rest := items[1..];
      FirstIsShown(rest);
      assert forall i | 0 <= i < |rest| :: rest[i] == items[i + 1];
      if i :| 0 <= i < |rest| && rest[i].Some? && (forall j | 0 <= j < i :: rest[j].None?)
              && FirstEnvelope(rest).Some? && KeptAs(rest[i].value, FirstEnvelope(rest).value) {
        assert items[i + 1].Some? && forall j | 0 <= j < i + 1 :: items[j].None?;
      } else {
        assert forall i | 0 <= i < |items| :: items[i].None?;
      }
    }
  }

  lemma AttentionIsShown(c: Cell, candidate: Candidate)
    ensures ShowsAttention(c.attention, candidate, c.ApplyAttention(candidate).attention)
  {
    if candidate.Items? {
      FirstIsShown(candidate.items);
    }
  }

  // ----- Events -----

  /** What an event shows, by its type. */
  predicate ShowsEvent(c: Cell, body: Body, d: Cell) {
    match body
    case AutopilotUpdated(candidate) => ShowsSnapshot(c, candidate, d) && d.attention == c.attention
    case AttentionRequired(candidate) => ShowsSnapshot(c, None, d) && ShowsAttention(c.attention, candidate, d.attention)
    case AgentMessageCompleted(turnId, finalAnswer, report) =>
      && ShowsSnapshot(c, None, d)
      && d.attention ==
         (if c.attention.Some? && c.attention.value.turnId.Some? && c.attention.value.turnId.value != ""
             && turnId == c.attention.value.turnId && finalAnswer && report.Some?
          then Some(c.attention.value.(report := report)) else c.attention)
    case AttentionResolved(_, _) => ShowsSnapshot(c, None, d) && d.attention.None?
    case OtherEvent => ShowsSnapshot(c, None, d) && d.attention == c.attention
  }

  /**
    An event is taken exactly when the session is wanted and the event is past its cursor, whether
    or not a mutation is in flight; it then moves cursor and revision and shows what it carries.
  */
  lemma EventLandsExactly(actions: seq<Action>, sequence: nat, body: Body)
    ensures var c := Run(Init(), actions).cell;
      var d := Next(Run(Init(), actions), Observe(sequence, body)).cell;
      && (d != c <==> c.wanted && sequence > c.cursor.GetOr(0))
      && (d != c ==>
            && d.cursor == Some(sequence) && d.revision == Some(c.revision.GetOr(0) + 1)
            && ShowsEvent(c, body, d) && d.floor == c.floor && SameElsewhere(c, d))
  {
    Reachable(actions);
    var c := Run(Init(), actions).cell;
    if c.AcceptsEvent(sequence) {
      EventShows(c, sequence, body);
    }
  }

  lemma EventShows(c: Cell, sequence: nat, body: Body)
    ensures var d := c.MoveTo(sequence).ApplyBody(body);
      && d.cursor == Some(sequence) && d.revision == Some(c.revision.GetOr(0) + 1)
      && ShowsEvent(c, body, d) && d.floor == c.floor && SameElsewhere(c, d)
  {
    match body
    case AttentionRequired(candidate) => AttentionIsShown(c.MoveTo(sequence), candidate);
    case _ =>
  }

  // ----- Reads -----

  /** What a read that lands shows; `floor` is the floor it leaves. */
  predicate ShowsRead(c: Cell, read: Read, floor: Option<nat>, d: Cell) {
    && d.cursor == (if read.sequence.Some? then read.sequence else c.cursor)
    && d.revision == Some(c.revision.GetOr(0) + 1) && d.floor == floor
    && ShowsSnapshot(c, read.autopilot, d) && ShowsAttention(c.attention, read.interactions, d.attention)
    && SameElsewhere(c, d)
  }

  predicate PastFloor(c: Cell, sequence: nat) {
    c.floor.Some? ==> sequence > c.floor.value
  }

  /** What a hydrate captured is still so. */
  predicate NotOvertaken(c: Cell, h: Hydration) {
    && c.wanted && c.version == Some(h.version) && c.hydrateEpoch == Some(h.epoch)
    && c.mutationEpoch.GetOr(0) == h.mutationEpoch
    && (c.requestRevision.Some? ==> c.requestRevision == h.requestRevision)
  }

  /** Exactly when a sequenced shared read lands, and that it then shows what it carries and retires the floor. */
  lemma SharedReadLandsExactly(actions: seq<Action>, read: Read, sequence: nat)
    requires read.sequence == Some(sequence)
    ensures var c := Run(Init(), actions).cell;
      var d := Next(Run(Init(), actions), Authoritative(read)).cell;
      && (d != c <==> c.wanted && !c.pending && sequence >= c.cursor.GetOr(0) && PastFloor(c, sequence))
      && (d != c ==> ShowsRead(c, read, None, d))
  {
    Reachable(actions);
    AcceptedReadShows(Run(Init(), actions).cell, read);
  }

  /** Exactly when a sequenced list item lands on a listed session. */
  lemma ListItemLandsExactly(actions: seq<Action>, read: Read, sequence: nat)
    requires read.sequence == Some(sequence) && Run(Init(), actions).cell.wanted
    ensures var c := Run(Init(), actions).cell;
      var d := Next(Run(Init(), actions), Bootstrap([read])).cell;
      && (d != c <==>
            && !c.pending && PastFloor(c, sequence)
            && (sequence > c.cursor.GetOr(0) || (c.snapshot.None? && c.cursor.GetOr(0) == 0)))
      && (d != c ==> ShowsRead(c, read, None, d))
  {
    Reachable(actions);
    var c := Run(Init(), actions).cell;
    OneItem(c, read);
    AcceptedReadShows(c, read);
  }

  /** Exactly when a sequenced hydrate lands; it leaves the floor standing. */
  lemma HydrateLandsExactly(actions: seq<Action>, k: nat, read: Read, sequence: nat)
    requires read.sequence == Some(sequence)
    requires var m := Run(Init(), actions); m.Has(k) && m.Op(k).Hydrating?
    ensures var m := Run(Init(), actions);
      var c, d := m.cell, Next(m, SettleHydrate(k, Some(read))).cell;
      && (d != c <==> NotOvertaken(c, m.Op(k).h) && sequence > c.cursor.GetOr(0))
      && (d != c ==> ShowsRead(c, read, c.floor, d))
  {
    Reachable(actions);
    AcceptedHydrateShows(Run(Init(), actions).cell, read);
  }

  /** An unsequenced read that lands leaves cursor and floor where they are; a rejected hydrate changes nothing. */
  lemma UnsequencedShows(actions: seq<Action>, k: nat, read: Read)
    requires read.sequence.None?
    ensures var m := Run(Init(), actions); var c := m.cell;
      && (Next(m, Authoritative(read)).cell != c ==> ShowsRead(c, read, c.floor, Next(m, Authoritative(read)).cell))
      && (c.wanted && Next(m, Bootstrap([read])).cell != c ==> ShowsRead(c, read, c.floor, Next(m, Bootstrap([read])).cell))
      && (m.Has(k) && m.Op(k).Hydrating? && Next(m, SettleHydrate(k, Some(read))).cell != c ==>
            ShowsRead(c, read, c.floor, Next(m, SettleHydrate(k, Some(read))).cell))
      && Next(m, SettleHydrate(k, None)).cell == c
  {
    Reachable(actions);
    var c := Run(Init(), actions).cell;
    if c.wanted {
      OneItem(c, read);
    }
    AcceptedReadShows(c, read);
    AcceptedHydrateShows(c, read);
  }

  lemma AcceptedShows(c: Cell, read: Read)
    ensures var d := c.AcceptSnapshot(read);
      && d.cursor == c.cursor && d.floor == c.floor && d.revision == Some(c.revision.GetOr(0) + 1)
      && ShowsSnapshot(c, read.autopilot, d) && ShowsAttention(c.attention, read.interactions, d.attention)
      && SameElsewhere(c, d)
  {
    if read.interactions.Items? {
      FirstIsShown(read.interactions.items);
    }
  }

  lemma AcceptedReadShows(c: Cell, read: Read)
    ensures c.AboveFloor(read.sequence) ==>
      ShowsRead(c, read, if read.sequence.Some? then None else c.floor, c.AdvanceTo(read.sequence).AcceptSnapshot(read))
  {
    AcceptedShows(c.AdvanceTo(read.sequence), read);
  }

  lemma AcceptedHydrateShows(c: Cell, read: Read)
    ensures ShowsRead(c, read, c.floor,
                      c.(cursor := if read.sequence.Some? then read.sequence else c.cursor).AcceptSnapshot(read))
  {
    AcceptedShows(c.(cursor := if read.sequence.Some? then read.sequence else c.cursor), read);
  }

  lemma OneItem(c: Cell, read: Read)
    requires CellInv(c) && c.wanted
    ensures c.Bootstrap([read]) == c.BootstrapItem(read) == (if c.AcceptsItem(read)
              then c.AdvanceTo(read.sequence).AcceptSnapshot(read) else c)
  {
    assert [read][..0] == [] && c.(wanted := true) == c && c.Registered() == c;
    assert c.BootstrapItems([]) == c;
    assert c.BootstrapItems([read]) == c.BootstrapItem(read);
  }

  // ----- Lists -----

  lemma {:induction false} ItemsInTurn(c: Cell, first: seq<Read>, rest: seq<Read>)
    ensures c.BootstrapItems(first + rest) == c.BootstrapItems(first).BootstrapItems(rest)
  {
    if rest == [] {
      assert first + rest == first;
    } else {
      var shorter := rest[..|rest| - 1];
      assert (first + rest)[..|first + rest| - 1] == first + shorter;
      ItemsInTurn(c, first, shorter);
    }
  }

  /** A list takes its items one after the other, the earlier first. */
  lemma ListInTurn(actions: seq<Action>, first: seq<Read>, rest: seq<Read>)
    requires first != [] && rest != [] && !Run(Init(), actions).cell.disposed
    ensures var m := Run(Init(), actions);
      Next(m, Bootstrap(first + rest)).cell == Next(Next(m, Bootstrap(first)), Bootstrap(rest)).cell
  {
    var m := Run(Init(), actions);
    var entered := m.cell.(wanted := true);
    Reachable(actions);
    ItemsInTurn(entered, first, rest);
    BootstrapCell(m.cell, first);
    BootstrapItemsAgree(entered, first);
    BootstrapItemsStamped(entered.Registered(), first);
    var listed := Next(m, Bootstrap(first)).cell;
    assert listed.(wanted := true) == listed;
  }

  /** Listing decides who is wanted: a live session is wanted afterwards exactly when the list has it. */
  lemma ListedIsWanted(actions: seq<Action>, items: seq<Read>)
    requires !Run(Init(), actions).cell.disposed
    ensures Next(Run(Init(), actions), Bootstrap(items)).cell.wanted <==> items != []
  {
    Reachable(actions);
    if items != [] {
      var c := Run(Init(), actions).cell;
      var entered := c.(wanted := true);
      BootstrapItemsAgree(entered, items);
      BootstrapItemsStamped(entered.Registered(), items);
    }
  }

  /** A session that leaves the list, or is removed, keeps nothing but a higher version. */
  lemma RemovedIsEmpty(actions: seq<Action>)
    ensures var c := Run(Init(), actions).cell;
      var d := Next(Run(Init(), actions), Remove).cell;
      && !d.wanted && d.version == Some(c.version.GetOr(0) + 1) && d.disposed == c.disposed && Unpublished(d)
      && d.revision.None? && d.requestRevision.None? && d.mutationEpoch.None? && d.floor.None?
      && d.hydrateEpoch.None? && d.cursor.None?
      && (c.wanted ==> Next(Run(Init(), actions), Bootstrap([])).cell == d)
  {
    Reachable(actions);
  }

  // ----- Mutations -----

  /** A toggle or resolve locks the session and clears its error; nothing it shows changes. */
  predicate Locked(c: Cell, d: Cell) {
    && d.pending && d.error.None? && d.mutationEpoch == Some(c.mutationEpoch.GetOr(0) + 1)
    && d.wanted == c.wanted && d.disposed == c.disposed && d.snapshot == c.snapshot && d.attention == c.attention
    && d.version == c.version && d.revision == c.revision && d.floor == c.floor && d.cursor == c.cursor
    && d.hydrateEpoch == c.hydrateEpoch
  }

  /** A toggle goes out exactly from a wanted session without a mutation in flight. */
  lemma ToggleStartsExactly(actions: seq<Action>)
    ensures var m := Run(Init(), actions); var n := Next(m, StartToggle);
      && (n != m <==> m.cell.wanted && !m.cell.pending)
      && (n != m ==>
            && Locked(m.cell, n.cell) && n.cell.recoveryError.None?
            && n.cell.requestRevision == Some(m.cell.requestRevision.GetOr(0) + 1)
            && n.Has(m.next) && n.Op(m.next) == Toggling(Mutation(m.cell.version.GetOr(0), m.cell.revision.GetOr(0))))
  {
    Reachable(actions);
  }

  /** A resolve goes out exactly where attention is shown, no mutation is in flight and the guidance is short enough. */
  lemma ResolveStartsExactly(actions: seq<Action>, tooLong: bool)
    ensures var m := Run(Init(), actions); var n := Next(m, StartResolve(tooLong));
      && (n.ops != m.ops <==> m.cell.attention.Some? && !m.cell.pending && !tooLong)
      && (n.ops != m.ops ==>
            && Locked(m.cell, n.cell) && n.cell.recoveryError == m.cell.recoveryError
            && n.cell.requestRevision == m.cell.requestRevision
            && n.Has(m.next) && n.Op(m.next) == Resolving(Mutation(m.cell.version.GetOr(0), m.cell.revision.GetOr(0))))
      && (n.ops == m.ops ==>
            n.cell == if m.cell.attention.Some? && !m.cell.pending
                      then m.cell.(error := Some("Guidance must be 600 characters or fewer.")) else m.cell)
  {
    Reachable(actions);
    var m := Run(Init(), actions);
    assert forall k: nat | m.Has(k) :: k < m.next;
    assert !m.Has(m.next);
  }

  /** What a toggle or resolve captured is still so: same incarnation, nothing accepted since. */
  predicate Unovertaken(c: Cell, m: Mutation) {
    c.wanted && c.version == Some(m.version) && c.revision == Some(m.revision)
  }

  /** The lock is given back, and only by the incarnation that took it. */
  predicate Unlocked(c: Cell, m: Mutation, d: Cell) {
    if c.wanted && c.version == Some(m.version)
    then d == c.(pending := false, mutationEpoch := Some(c.mutationEpoch.GetOr(0) + 1))
    else d == c
  }

  predicate ToggleSettled(c: Cell, mutation: Mutation, outcome: ToggleOutcome, d: Cell) {
    if !Unovertaken(c, mutation) then Unlocked(c, mutation, d)
    else match outcome
      case Failed(message) => Unlocked(c.(error := Some(message)), mutation, d)
      case Updated(candidate) =>
        && ShowsSnapshot(c, candidate, d) && d.cursor == c.cursor && d.floor == Some(c.cursor.GetOr(0))
        && d.revision == Some(c.revision.GetOr(0) + 1)
        && d.attention == (if candidate.Some? && !candidate.value.enabled then None else c.attention)
        && !d.pending && d.mutationEpoch == Some(c.mutationEpoch.GetOr(0) + 1) && d.error == c.error
        && d.wanted && !d.disposed && d.version == c.version && d.requestRevision == c.requestRevision
        && d.hydrateEpoch == c.hydrateEpoch
  }

  /**
    A toggle's answer lands exactly when it was not overtaken: a success then shows its snapshot,
    sets the floor to the cursor and clears the attention of a coordinator it disabled; a failure
    shows its message. Either way the lock is given back.
  */
  lemma ToggleSettlesExactly(actions: seq<Action>, k: nat, outcome: ToggleOutcome)
    requires var m := Run(Init(), actions); m.Has(k) && m.Op(k).Toggling?
    ensures var m := Run(Init(), actions);
      ToggleSettled(m.cell, m.Op(k).m, outcome, Next(m, SettleToggle(k, outcome)).cell)
  {
    Reachable(actions);
    ToggleSettles(Run(Init(), actions).cell, Run(Init(), actions).Op(k).m, outcome);
  }

  lemma ToggleSettles(c: Cell, mutation: Mutation, outcome: ToggleOutcome)
    requires CellInv(c)
    ensures ToggleSettled(c, mutation, outcome, c.ToggleSettle(mutation, outcome))
  {
  }

  /**
    A resolve's answer: one that was not overtaken goes on to a hydrate, still locked, or shows its
    failure; all else gives the lock back.
  */
  lemma ResolveRepliesExactly(actions: seq<Action>, k: nat, failure: Option<string>)
    requires var m := Run(Init(), actions); m.Has(k) && m.Op(k).Resolving?
    ensures var m := Run(Init(), actions); Replied(m, k, failure, Next(m, ReplyResolve(k, failure)))
  {
    Reachable(actions);
    ReplyShows(Run(Init(), actions), k, failure);
  }

  predicate Replied(m: Machine, k: nat, failure: Option<string>, n: Machine)
    requires m.Has(k) && m.Op(k).Resolving?
  {
    var c, d, mutation := m.cell, n.cell, m.Op(k).m;
    if !Unovertaken(c, mutation) then Unlocked(c, mutation, d) && !n.Has(k)
    else if failure.Some? then Unlocked(c.(error := failure), mutation, d) && !n.Has(k)
    else
      && d == c.(hydrateEpoch := Some(c.hydrateEpoch.GetOr(0) + 1)) && n.Has(k)
      && n.Op(k) == ResolveHydrating(mutation, Hydration(c.version.GetOr(0), c.hydrateEpoch.GetOr(0) + 1,
                                                         c.cursor.GetOr(0), c.requestRevision, c.mutationEpoch.GetOr(0)))
  }

  lemma ReplyShows(m: Machine, k: nat, failure: Option<string>)
    requires CellInv(m.cell) && m.Has(k) && m.Op(k).Resolving?
    ensures Replied(m, k, failure, Next(m, ReplyResolve(k, failure)))
  {
  }

  /** The hydrate of a resolve lands as any other does; then the lock is given back. */
  lemma ResolveHydratesExactly(actions: seq<Action>, k: nat, read: Read, sequence: nat)
    requires read.sequence == Some(sequence)
    requires var m := Run(Init(), actions); m.Has(k) && m.Op(k).ResolveHydrating?
    ensures var m := Run(Init(), actions);
      var n := Next(m, SettleResolveHydrate(k, Some(read)));
      && (n.cell != m.cell <==> NotOvertaken(m.cell, m.Op(k).h) && sequence > m.cell.cursor.GetOr(0))
      && (n.cell != m.cell ==> ShowsRead(m.cell, read, m.cell.floor, n.cell))
      && n.Has(k) && n.Op(k) == ResolveFinishing(m.Op(k).m)
      && Unlocked(n.cell, m.Op(k).m, Next(n, FinishResolve(k)).cell) && !Next(n, FinishResolve(k)).Has(k)
  {
    Reachable(actions);
    AcceptedHydrateShows(Run(Init(), actions).cell, read);
  }

  /** A hydrate captures the moment it is sent in, and can be told apart from every other. */
  lemma HydrateStartsExactly(actions: seq<Action>, expected: Option<nat>)
    ensures var m := Run(Init(), actions); var n := Next(m, StartHydrate(expected)); var c := m.cell;
      && n.cell == c.(hydrateEpoch := Some(c.hydrateEpoch.GetOr(0) + 1)) && n.Has(m.next)
      && n.Op(m.next) == Hydrating(Hydration(c.version.GetOr(0), c.hydrateEpoch.GetOr(0) + 1,
                                             expected.GetOr(c.cursor.GetOr(0)), c.requestRevision, c.mutationEpoch.GetOr(0)))
  {
  }

  /** And so lands, if nothing happens before it answers: a later sequence always, none if the cursor is as expected. */
  lemma QuietHydrateLands(actions: seq<Action>, expected: Option<nat>, read: Read)
    requires Run(Init(), actions).cell.wanted
    ensures var m := Run(Init(), actions); var n := Next(m, StartHydrate(expected)); var c := m.cell;
      Next(n, SettleHydrate(m.next, Some(read))).cell != n.cell <==>
        if read.sequence.Some? then read.sequence.value > c.cursor.GetOr(0)
        else expected.None? || expected.value == c.cursor.GetOr(0)
  {
    Reachable(actions);
    var n := Next(Run(Init(), actions), StartHydrate(expected));
    AcceptedHydrateShows(n.cell, read);
  }
}
