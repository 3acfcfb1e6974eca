/** What the Autopilot projection promises over whole runs of AutopilotRuns.Next. */
module AutopilotTheorems {
  import opened Wrappers
  import opened AutopilotCell
  import opened AutopilotRuns

  // ----- Runs, prefix by prefix -----

  /** Versions never decrease, disposal is final, and one incarnation stamps all its changes. */
  predicate Follows(c: Cell, d: Cell) {
    && d.Version() >= c.Version()
    && (c.version.Some? ==> d.version.Some?)
    && (c.disposed ==> d.disposed)
    && (c.wanted && d.version == c.version ==> (d.wanted || d.disposed) && (d.wanted ==> Stamped(c, d)))
    && (c.Version() == d.Version() && !d.disposed ==> d.mutationEpoch.GetOr(0) >= c.mutationEpoch.GetOr(0))
  }

  lemma {:induction false} RunFollows(m: Machine, actions: seq<Action>)
    requires Inv(m)
    ensures Follows(m.cell, Run(m, actions).cell) && CellInv(Run(m, actions).cell)
  {
    if actions != [] {
      var shorter := actions[..|actions| - 1];
      RunFollows(m, shorter);
      RunInv(m, shorter);
      StepCell(Run(m, shorter), actions[|actions| - 1]);
    }
  }

  /** An operation keeps its number and what it captured until it lands. */
  predicate Keeps(m: Machine, n: Machine, k: nat) {
    && k < n.next
    && (n.Has(k) ==>
          && m.Has(k) && n.Op(k).Version() == m.Op(k).Version() && n.ops[k].sent == m.ops[k].sent
          && (m.Op(k).IsMutation() ==> n.Op(k).IsMutation() && n.Op(k).m == m.Op(k).m)
          && (m.Op(k).Hydrating? ==> n.Op(k) == m.Op(k)))
  }

  lemma StepKeeps(m: Machine, a: Action, k: nat)
    requires k < m.next
    ensures Keeps(m, Next(m, a), k)
  {
  }

  lemma {:induction false} RunKeeps(m: Machine, actions: seq<Action>, k: nat)
    requires k < m.next
    ensures Keeps(m, Run(m, actions), k)
  {
    if actions != [] {
      RunKeeps(m, actions[..|actions| - 1], k);
      StepKeeps(Run(m, actions[..|actions| - 1]), actions[|actions| - 1], k);
    }
  }

  lemma Reachable(actions: seq<Action>)
    ensures Inv(Run(Init(), actions))
  {
    InitInv();
    RunInv(Init(), actions);
  }

  // ----- Exact mutation lock -----

  lemma MutationLock(actions: seq<Action>)
    requires !Run(Init(), actions).cell.disposed
    ensures var m := Run(Init(), actions);
      && (m.cell.pending <==> exists k: nat :: Holds(m, k))
      && (forall j: nat, k: nat :: Holds(m, j) && Holds(m, k) ==> j == k)
      && (m.ops == map[] ==> !m.cell.pending)
  {
    Reachable(actions);
  }

  // ----- Revision stamp -----

  lemma RevisionStamp(before: seq<Action>, during: seq<Action>)
    ensures var c, d := Run(Init(), before).cell, Run(Init(), before + during).cell;
      SameIncarnation(c, d) ==>
        && d.Revision() >= c.Revision()
        && (d.cursor != c.cursor || d.snapshot != c.snapshot || d.attention != c.attention ==>
              d.Revision() > c.Revision())
  {
    Reachable(before);
    RunSplit(Init(), before, during);
    RunFollows(Run(Init(), before), during);
  }

  /**
    A toggle result or error lands beyond the shared `finally` only if the revision, and with it
    the cursor, snapshot and attention, stood still at every moment since the toggle was sent;
    a success then records the cursor of that moment as its floor.
  */
  lemma LateToggle(before: seq<Action>, during: seq<Action>, outcome: ToggleOutcome)
    requires Run(Init(), before).cell.MayToggle()
    requires var start := Run(Init(), before);
      var late := Run(Next(start, StartToggle), during);
      late.Has(start.next) && late.Op(start.next).Toggling?
    ensures
      var start := Run(Init(), before);
      var sent := Next(start, StartToggle);
      var late := Run(sent, during);
      var mutation := late.Op(start.next).m;
      && ToggleVerdict(start.cell, late.cell, mutation, outcome, Next(late, SettleToggle(start.next, outcome)).cell)
      && (late.cell.Unraced(mutation) ==>
            forall i | 0 <= i <= |during| :: Undisturbed(start.cell, Run(sent, during[..i]).cell))
  {
    var start := Run(Init(), before);
    var sent := Next(start, StartToggle);
    assert Inv(sent) by {
      Reachable(before);
      StepInv(start, StartToggle);
    }
    assert Undisturbed(start.cell, sent.cell) && sent.cell.version.Some? by { Reachable(before); }
    var late := Run(sent, during);
    LateUnraced(sent, during, start.next);
    if late.cell.Unraced(sent.Op(start.next).m) {
      QuietThroughout(sent, during);
    }
    ToggleLands(start.cell, late, start.next, outcome);
  }

  /**
    A raced toggle only unlocks. An unraced success starts from exactly what was known at send
    time, puts its floor at that cursor, and clears the attention of a coordinator it disabled.
  */
  predicate ToggleVerdict(sent: Cell, late: Cell, m: Mutation, outcome: ToggleOutcome, landed: Cell) {
    if !late.Unraced(m) then landed == late.Finish(m.version)
    else !landed.pending && match outcome
      case Failed(message) => landed.error == Some(message) && SameCore(sent, landed)
      case Updated(candidate) =>
        && landed.cursor == sent.cursor && landed.floor == Some(sent.Cursor())
        && landed.Revision() == sent.Revision() + 1
        && landed.snapshot == (if candidate.Some? then candidate else sent.snapshot)
        && landed.attention == (if candidate.Some? && !candidate.value.enabled then None else sent.attention)
  }

  lemma ToggleLands(sent: Cell, m: Machine, k: nat, outcome: ToggleOutcome)
    requires m.Has(k) && m.Op(k).Toggling?
    requires m.cell.Unraced(m.Op(k).m) ==> Undisturbed(sent, m.cell)
    ensures ToggleVerdict(sent, m.cell, m.Op(k).m, outcome, Next(m, SettleToggle(k, outcome)).cell)
  {
  }

  lemma QuietThroughout(m: Machine, during: seq<Action>)
    requires Inv(m) && m.cell.wanted && m.cell.version.Some?
    requires Undisturbed(m.cell, Run(m, during).cell)
    ensures forall i | 0 <= i <= |during| :: Undisturbed(m.cell, Run(m, during[..i]).cell)
  {
    forall i | 0 <= i <= |during| ensures Undisturbed(m.cell, Run(m, during[..i]).cell) {
      assert during == during[..i] + during[i..];
      RunSplit(m, during[..i], during[i..]);
      QuietSince(m, during[..i], during[i..]);
    }
  }

  /** A mutation that still matches its stamp finds the cell it left behind. */
  lemma LateUnraced(m: Machine, during: seq<Action>, k: nat)
    requires Inv(m) && m.Has(k) && m.Op(k).IsMutation() && m.cell.wanted
    requires m.Op(k).m == Mutation(m.cell.Version(), m.cell.Revision())
    requires Run(m, during).Has(k)
    ensures var late := Run(m, during);
      && late.Op(k).IsMutation() && late.Op(k).m == m.Op(k).m
      && (late.cell.Unraced(m.Op(k).m) ==> Undisturbed(m.cell, late.cell))
  {
    RunKeeps(m, during, k);
    RunFollows(m, during);
  }

  lemma QuietSince(m: Machine, first: seq<Action>, rest: seq<Action>)
    requires Inv(m) && m.cell.wanted && m.cell.version.Some?
    requires Undisturbed(m.cell, Run(Run(m, first), rest).cell)
    ensures Undisturbed(m.cell, Run(m, first).cell)
  {
    RunInv(m, first);
    RunFollows(m, first);
    RunFollows(Run(m, first), rest);
    StoodStill(m.cell, Run(m, first).cell, Run(Run(m, first), rest).cell);
  }

  lemma StoodStill(sent: Cell, mid: Cell, late: Cell)
    requires CellInv(mid) && CellInv(late) && sent.wanted && sent.version.Some?
    requires Follows(sent, mid) && Follows(mid, late) && Undisturbed(sent, late)
    ensures Undisturbed(sent, mid)
  {
  }

  predicate Undisturbed(sent: Cell, c: Cell) {
    c.wanted && c.version == sent.version && c.Revision() == sent.Revision() && SameCore(sent, c)
  }

  // ----- No stale overwrite -----

  /** Everything at or below f is settled: either a floor still guards it or the cursor is past it. */
  predicate Sealed(c: Cell, f: nat) {
    && c.Cursor() >= f
    && (if c.floor.Some? then c.floor.value >= f else c.Cursor() > f)
  }

  predicate AtOrBelow(read: Read, f: nat) {
    read.sequence.Some? && read.sequence.value <= f
  }

  /** A sequenced list, authoritative read, getSession response or event sampled at or below f. */
  predicate StaleSource(a: Action, f: nat) {
    match a
    case Bootstrap(items) => items != [] && forall i | 0 <= i < |items| :: AtOrBelow(items[i], f)
    case Observe(sequence, _) => sequence <= f
    case Authoritative(read) => AtOrBelow(read, f)
    case SettleHydrate(_, response) => response.Some? && AtOrBelow(response.value, f)
    case SettleResolveHydrate(_, response) => response.Some? && AtOrBelow(response.value, f)
    case _ => false
  }

  lemma {:induction false} ListRefused(c: Cell, items: seq<Read>)
    requires c.wanted && !c.disposed && c.version.Some? && c.revision.Some?
    requires forall i | 0 <= i < |items| :: !c.AcceptsItem(items[i])
    ensures c.BootstrapItems(items) == c
  {
    if items != [] {
      var shorter := items[..|items| - 1];
      assert forall i | 0 <= i < |shorter| :: shorter[i] == items[i];
      ListRefused(c, shorter);
    }
  }

  lemma ItemSealed(c: Cell, read: Read, f: nat)
    requires CellInv(c) && c.wanted && Sealed(c, f)
    ensures Sealed(c.BootstrapItem(read), f)
  {
  }

  lemma {:induction false} BootstrapSealed(c: Cell, items: seq<Read>, f: nat)
    requires CellInv(c) && c.wanted && !c.disposed && Sealed(c, f)
    ensures Sealed(c.BootstrapItems(items), f)
  {
    if items != [] {
      var earlier := c.BootstrapItems(items[..|items| - 1]);
      BootstrapItemsStamped(c, items[..|items| - 1]);
      BootstrapSealed(c, items[..|items| - 1], f);
      ItemSealed(earlier, items[|items| - 1], f);
    }
  }

  lemma SourceSealed(c: Cell, f: nat, read: Read, h: Hydration)
    requires CellInv(c) && Sealed(c, f)
    ensures Sealed(c.ApplyAuthoritative(read), f) && Sealed(c.HydrateSettle(h, Some(read)), f)
  {
  }

  lemma EventSealed(c: Cell, f: nat, sequence: nat, body: Body)
    requires CellInv(c) && Sealed(c, f)
    ensures Sealed(c.Observe(sequence, body), f)
  {
  }

  lemma MutationSealed(c: Cell, f: nat, m: Mutation, outcome: ToggleOutcome, failure: Option<string>)
    requires CellInv(c) && Sealed(c, f)
    ensures Sealed(c.ToggleSettle(m, outcome), f) && Sealed(c.ResolveReply(m, failure), f) && Sealed(c.Finish(m.version), f)
  {
  }

  lemma StepSealed(m: Machine, a: Action, f: nat)
    requires Inv(m) && m.cell.wanted && Sealed(m.cell, f)
    requires Next(m, a).cell.wanted && Next(m, a).cell.version == m.cell.version
    ensures Sealed(Next(m, a).cell, f)
  {
    var c := m.cell;
    match a
    case Bootstrap(items) => BootstrapSealed(c, items, f);
    case Observe(sequence, body) => EventSealed(c, f, sequence, body);
    case Authoritative(read) => SourceSealed(c, f, read, c.CaptureHydration(None));
    case SettleHydrate(k, Some(read)) => if m.Has(k) && m.Op(k).Hydrating? { SourceSealed(c, f, read, m.Op(k).h); }
    case SettleResolveHydrate(k, Some(read)) =>
      if m.Has(k) && m.Op(k).ResolveHydrating? { SourceSealed(c, f, read, m.Op(k).h); }
    case SettleToggle(k, outcome) =>
      if m.Has(k) && m.Op(k).Toggling? { MutationSealed(c, f, m.Op(k).m, outcome, None); }
    case ReplyResolve(k, failure) =>
      if m.Has(k) && m.Op(k).Resolving? { MutationSealed(c, f, m.Op(k).m, Updated(None), failure); }
    case _ =>
  }

  lemma {:induction false} RunSealed(m: Machine, actions: seq<Action>, f: nat)
    requires Inv(m) && m.cell.wanted && Sealed(m.cell, f)
    requires SameIncarnation(m.cell, Run(m, actions).cell)
    ensures Sealed(Run(m, actions).cell, f)
  {
    if actions != [] {
      var shorter := actions[..|actions| - 1];
      RunFollows(m, shorter);
      RunInv(m, shorter);
      StepCell(Run(m, shorter), actions[|actions| - 1]);
      RunSealed(m, shorter, f);
      StepSealed(Run(m, shorter), actions[|actions| - 1], f);
    }
  }

  /**
    Once a toggle response is applied, nothing sampled at or below its floor changes the session
    again in that incarnation, whether or not the floor has been cleared since.
  */
  lemma NoStaleOverwrite(before: seq<Action>, k: nat, candidate: Option<Snapshot>,
                         after: seq<Action>, late: Action)
    requires var m := Run(Init(), before);
      m.Has(k) && m.Op(k).Toggling? && m.cell.Unraced(m.Op(k).m)
    ensures
      var applied := Next(Run(Init(), before), SettleToggle(k, Updated(candidate)));
      var n := Run(applied, after);
      && applied.cell.floor.Some?
      && (SameIncarnation(applied.cell, n.cell) && StaleSource(late, applied.cell.floor.value) ==>
            Next(n, late).cell == n.cell)
  {
    var m := Run(Init(), before);
    var applied := Next(m, SettleToggle(k, Updated(candidate)));
    Reachable(before);
    StepInv(m, SettleToggle(k, Updated(candidate)));
    var f := applied.cell.floor.value;
    var n := Run(applied, after);
    if SameIncarnation(applied.cell, n.cell) && StaleSource(late, f) {
      RunInv(applied, after);
      RunSealed(applied, after, f);
      if late.Bootstrap? {
        ListRefused(n.cell, late.items);
      }
    }
  }

  /** While a floor stands, unsequenced list items and authoritative reads are dropped. */
  lemma FloorDropsUnsequenced(actions: seq<Action>, items: seq<Read>)
    requires Run(Init(), actions).cell.floor.Some?
    requires items != [] && forall i | 0 <= i < |items| :: items[i].sequence.None?
    ensures var m := Run(Init(), actions);
      && Next(m, Bootstrap(items)).cell == m.cell
      && Next(m, Authoritative(items[0])).cell == m.cell
  {
    Reachable(actions);
    ListRefused(Run(Init(), actions).cell, items);
  }

  /** Any read in flight when a toggle or resolve settles comes back to a closed door. */
  lemma HydrateAcrossMutation(before: seq<Action>, settle: Action, after: seq<Action>, j: nat,
                              response: Option<Read>)
    requires
      var m := Run(Init(), before);
      && m.Has(j) && m.Op(j).Hydrating?
      && m.cell.pending && !Next(m, settle).cell.pending && !settle.Remove? && !settle.Dispose?
      && SameIncarnation(m.cell, Next(m, settle).cell)
    ensures var n := Run(Next(Run(Init(), before), settle), after);
      Next(n, SettleHydrate(j, response)).cell == n.cell
  {
    var m := Run(Init(), before);
    var settled := Next(m, settle);
    var n := Run(settled, after);
    Reachable(before);
    StepInv(m, settle);
    RunInv(settled, after);
    RunFollows(settled, after);
    SettleRaisesEpoch(m, settle);
    RunKeeps(m, [settle] + after, j);
    RunSplit(m, [settle], after);
    assert Run(m, []) == m && [settle][..0] == [];
    assert Run(m, [settle]) == settled;
    assert m.Op(j).Version() <= m.cell.Version();
  }

  lemma SettleRaisesEpoch(m: Machine, settle: Action)
    requires Inv(m) && m.cell.pending && !Next(m, settle).cell.pending
    requires SameIncarnation(m.cell, Next(m, settle).cell)
    ensures Next(m, settle).cell.mutationEpoch.GetOr(0) > m.cell.mutationEpoch.GetOr(0)
  {
    if settle.Bootstrap? {
      BootstrapCell(m.cell, settle.items);
    }
  }

  // ----- Unsequenced sources -----

  /**
    Exactly when an unsequenced read lands. A shared read needs a wanted, unlocked session with no
    floor; a list item, besides, an empty projection; a hydrate only that nothing overtook it since
    it was sent, whatever the floor.
  */
  lemma UnsequencedLandsExactly(actions: seq<Action>, read: Read, h: Hydration)
    requires read.sequence.None?
    ensures var c := Run(Init(), actions).cell;
      && (c.ApplyAuthoritative(read) != c <==> c.wanted && !c.pending && c.floor.None?)
      && (c.wanted ==> (c.BootstrapItem(read) != c <==>
            !c.pending && c.floor.None? && c.snapshot.None? && c.Cursor() == 0))
      && (c.HydrateSettle(h, Some(read)) != c <==>
            && c.Current(h.version) && c.hydrateEpoch == Some(h.epoch) && c.mutationEpoch.GetOr(0) == h.mutationEpoch
            && (c.requestRevision.Some? ==> c.requestRevision == h.requestRevision) && c.Cursor() == h.requestedCursor)
  {
    Reachable(actions);
    var c := Run(Init(), actions).cell;
    assert c.AcceptSnapshot(read).Revision() == c.Revision() + 1;
  }

  /** An unsequenced list only fills an empty cache: over a stored snapshot or a known cursor it changes nothing. */
  lemma UnsequencedListFillsEmpty(actions: seq<Action>, items: seq<Read>)
    requires items != [] && forall i | 0 <= i < |items| :: items[i].sequence.None?
    requires var c := Run(Init(), actions).cell; c.wanted && (c.snapshot.Some? || c.Cursor() > 0)
    ensures Next(Run(Init(), actions), Bootstrap(items)).cell == Run(Init(), actions).cell
  {
    Reachable(actions);
    ListRefused(Run(Init(), actions).cell, items);
  }

  /** While a toggle or resolve is in flight, no list and no shared read changes the session. */
  lemma LockedSessionRefuses(actions: seq<Action>, k: nat, items: seq<Read>, read: Read)
    requires !Run(Init(), actions).cell.disposed && Holds(Run(Init(), actions), k) && items != []
    ensures var m := Run(Init(), actions);
      && Next(m, Bootstrap(items)).cell == m.cell
      && Next(m, Authoritative(read)).cell == m.cell
  {
    Reachable(actions);
    var m := Run(Init(), actions);
    assert m.cell.pending;
    ListRefused(m.cell, items);
  }

  /** So the floor guards against sequenced sources only: once it is cleared, a shared read restores the old state. */
  lemma UnsequencedReadOverwrites(stale: Snapshot, toggled: Snapshot)
    requires stale != toggled
    ensures
      var listed := Bootstrap([Read(Some(stale), Malformed, Some(1))]);
      var confirmed := Authoritative(Read(Some(toggled), Malformed, Some(2)));
      var m := Next(Next(Next(Next(Init(), listed), StartToggle), SettleToggle(0, Updated(Some(toggled)))), confirmed);
      && m.cell.snapshot == Some(toggled)
      && Next(m, Authoritative(Read(Some(stale), Malformed, None))).cell.snapshot == Some(stale)
  {
    var read := Read(Some(stale), Malformed, Some(1));
    var entered := Absent().(wanted := true);
    assert [read][..0] == [] && entered.BootstrapItems([]) == entered;
    assert entered.BootstrapItems([read]) == entered.BootstrapItem(read);
  }

  /** A hydrate sent after the toggle settled does so even while the floor stands. */
  lemma UnsequencedHydrateOverwrites(stale: Snapshot, toggled: Snapshot)
    requires stale != toggled
    ensures
      var listed := Bootstrap([Read(Some(stale), Malformed, Some(1))]);
      var m := Next(Next(Next(Next(Init(), listed), StartToggle), SettleToggle(0, Updated(Some(toggled)))), StartHydrate(None));
      var n := Next(m, SettleHydrate(1, Some(Read(Some(stale), Malformed, None))));
      && m.cell.snapshot == Some(toggled) && n.cell.snapshot == Some(stale)
      && m.cell.floor == Some(1) == n.cell.floor
  {
    var read := Read(Some(stale), Malformed, Some(1));
    var entered := Absent().(wanted := true);
    assert [read][..0] == [] && entered.BootstrapItems([]) == entered;
    assert entered.BootstrapItems([read]) == entered.BootstrapItem(read);
  }

  // ----- Superseded hydrates -----

  /** Within a version, hydrate epochs only rise; versions only rise, and disposal is final. */
  predicate EpochRises(c: Cell, d: Cell) {
    || d.disposed
    || (!c.disposed && d.Version() > c.Version())
    || (!c.disposed && d.Version() == c.Version() && d.hydrateEpoch.GetOr(0) >= c.hydrateEpoch.GetOr(0))
  }

  predicate SameEpoch(c: Cell, d: Cell) {
    d.hydrateEpoch == c.hydrateEpoch && d.Version() == c.Version() && d.disposed == c.disposed
  }

  lemma ItemKeepsEpoch(c: Cell, read: Read)
    ensures SameEpoch(c, c.BootstrapItem(read))
  {
  }

  lemma {:induction false} ItemsKeepEpoch(c: Cell, items: seq<Read>)
    ensures SameEpoch(c, c.BootstrapItems(items))
  {
    if items != [] {
      ItemsKeepEpoch(c, items[..|items| - 1]);
      ItemKeepsEpoch(c.BootstrapItems(items[..|items| - 1]), items[|items| - 1]);
    }
  }

  lemma StepEpochRises(m: Machine, a: Action)
    ensures EpochRises(m.cell, Next(m, a).cell)
  {
    if a.Bootstrap? {
      ItemsKeepEpoch(m.cell.(wanted := true), a.items);
    }
  }

  lemma {:induction false} RunEpochRises(m: Machine, actions: seq<Action>)
    ensures EpochRises(m.cell, Run(m, actions).cell)
  {
    if actions != [] {
      RunEpochRises(m, actions[..|actions| - 1]);
      StepEpochRises(Run(m, actions[..|actions| - 1]), actions[|actions| - 1]);
    }
  }

  /** Reads in flight captured an epoch that has been handed out. */
  ghost predicate HydratesIssued(m: Machine) {
    forall k: nat :: m.Has(k) && m.Op(k).Reads() && !m.cell.disposed && m.Op(k).h.version == m.cell.Version() ==>
      m.Op(k).h.epoch <= m.cell.hydrateEpoch.GetOr(0)
  }

  lemma StepIssued(m: Machine, a: Action)
    requires Inv(m) && HydratesIssued(m)
    ensures HydratesIssued(Next(m, a))
  {
    var n := Next(m, a);
    StepEpochRises(m, a);
    forall k: nat | n.Has(k) && n.Op(k).Reads() && !n.cell.disposed && n.Op(k).h.version == n.cell.Version()
      ensures n.Op(k).h.epoch <= n.cell.hydrateEpoch.GetOr(0)
    {
      if m.Has(k) && m.Op(k).Reads() {
        assert n.Op(k).h == m.Op(k).h && m.Op(k).Version() <= m.cell.Version();
      }
    }
  }

  lemma {:induction false} Issued(actions: seq<Action>)
    ensures HydratesIssued(Run(Init(), actions))
  {
    if actions != [] {
      var earlier := actions[..|actions| - 1];
      Reachable(earlier);
      Issued(earlier);
      StepIssued(Run(Init(), earlier), actions[|actions| - 1]);
    }
  }

  /** A hydrate superseded by a later one changes nothing when it answers, whatever happens in between. */
  lemma SupersededHydrate(before: seq<Action>, k: nat, expected: Option<nat>, after: seq<Action>, response: Option<Read>)
    requires Run(Init(), before).Has(k) && Run(Init(), before).Op(k).Hydrating?
    ensures var n := Run(Next(Run(Init(), before), StartHydrate(expected)), after);
      Next(n, SettleHydrate(k, response)).cell == n.cell
  {
    var m := Run(Init(), before);
    var superseded := Next(m, StartHydrate(expected));
    Reachable(before);
    Issued(before);
    assert k < m.next && m.Op(k).Version() <= m.cell.Version();
    assert superseded.cell.disposed || m.Op(k).h.version < superseded.cell.Version()
           || m.Op(k).h.epoch < superseded.cell.hydrateEpoch.GetOr(0);
    RunKeeps(superseded, after, k);
    RunEpochRises(superseded, after);
  }

  // ----- Incarnation isolation -----

  predicate Settles(a: Action, k: nat) {
    match a
    case SettleHydrate(j, _) => j == k
    case SettleToggle(j, _) => j == k
    case ReplyResolve(j, _) => j == k
    case SettleResolveHydrate(j, _) => j == k
    case FinishResolve(j) => j == k
    case _ => false
  }

  /** An operation sent before a removal changes no field of whatever the session became later. */
  lemma IncarnationIsolation(before: seq<Action>, k: nat, after: seq<Action>, settle: Action)
    requires Run(Init(), before).Has(k) && Settles(settle, k)
    ensures var n := Run(Next(Run(Init(), before), Remove), after);
      Next(n, settle).cell == n.cell
  {
    var m := Run(Init(), before);
    var removed := Next(m, Remove);
    Reachable(before);
    StepInv(m, Remove);
    RunInv(removed, after);
    RunFollows(removed, after);
    assert k < m.next && m.Op(k).Version() <= m.cell.Version();
    RunKeeps(removed, after, k);
  }

  lemma OnlyWantedIsPublished(actions: seq<Action>)
    requires !Run(Init(), actions).cell.wanted
    ensures Unpublished(Run(Init(), actions).cell)
  {
    Reachable(actions);
  }

  /** All that is left of a session of a disposed controller. */
  function Remains(version: Option<nat>, hydrateEpoch: Option<nat>, cursor: Option<nat>): Cell {
    Cell(true, false, None, None, false, None, None, version, None, None, None, None, hydrateEpoch, cursor)
  }

  predicate Emptied(c: Cell) {
    c == Remains(c.version, c.hydrateEpoch, c.cursor)
  }

  lemma StepStaysEmptied(m: Machine, a: Action)
    requires Emptied(m.cell)
    ensures Emptied(Next(m, a).cell)
  {
  }

  /**
    After dispose every field stays empty for good, published or not, but for the version, the
    cursor and the epochs that later hydrates still count, none of which shows.
  */
  lemma {:induction false} DisposedForever(before: seq<Action>, after: seq<Action>)
    ensures var c := Run(Next(Run(Init(), before), Dispose), after).cell;
      Emptied(c) && !c.wanted && Unpublished(c)
  {
    if after != [] {
      DisposedForever(before, after[..|after| - 1]);
      StepStaysEmptied(Run(Next(Run(Init(), before), Dispose), after[..|after| - 1]), after[|after| - 1]);
    }
  }
}
