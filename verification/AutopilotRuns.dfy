/**
  Every interleaving of one session's operations.

  Each async method is cut at its awaits: a start action puts an operation in flight with the
  values it captured, and a settle action resumes one of the operations in flight, in any order.
  `sent` is the cell the operation left behind when it went in flight; only proofs look at it.
*/
module AutopilotRuns {
  import opened Wrappers
  import opened AutopilotCell

  datatype Flight =
    | Hydrating(h: Hydration)
    | Toggling(m: Mutation)
    | Resolving(m: Mutation)
    | ResolveHydrating(m: Mutation, h: Hydration)
    | ResolveFinishing(m: Mutation)
  {
    predicate IsMutation() {
      !Hydrating?
    }

    predicate Reads() {
      Hydrating? || ResolveHydrating?
    }

    function Version(): nat {
      if Hydrating? then h.version else m.version
    }
  }

  datatype InFlight = InFlight(op: Flight, sent: Cell)

  datatype Machine = Machine(cell: Cell, ops: map<nat, InFlight>, next: nat)
  {
    predicate Has(k: nat) {
      k in ops
    }

    function Op(k: nat): Flight
      requires Has(k)
    {
      ops[k].op
    }

    function With(c: Cell): Machine {
      this.(cell := c)
    }

    function Launch(c: Cell, op: Flight): Machine {
      Machine(c, ops[next := InFlight(op, c)], next + 1)
    }

    function Continue(k: nat, c: Cell, op: Flight): Machine
      requires Has(k)
    {
      Machine(c, ops[k := ops[k].(op := op)], next)
    }

    function Land(k: nat, c: Cell): Machine {
      Machine(c, ops - {k}, next)
    }
  }

  datatype Action =
    | Bootstrap(items: seq<Read>)
    | Observe(sequence: nat, body: Body)
    | Authoritative(read: Read)
    | StartHydrate(expectedCursor: Option<nat>)
    | SettleHydrate(k: nat, response: Option<Read>)
    | StartToggle
    | SettleToggle(k: nat, outcome: ToggleOutcome)
    | StartResolve(tooLong: bool)
    | ReplyResolve(k: nat, failure: Option<string>)
    | SettleResolveHydrate(k: nat, response: Option<Read>)
    | FinishResolve(k: nat)
    | Remove
    | Dispose

  function Init(): Machine {
    Machine(Absent(), map[], 0)
  }

  /** An action aimed at an operation that is not in flight, or not at that await, does nothing. */
  function Next(m: Machine, a: Action): Machine {
    var c := m.cell;
    match a
    case Bootstrap(items) => m.With(c.Bootstrap(items))
    case Observe(sequence, body) => m.With(c.Observe(sequence, body))
    case Authoritative(read) => m.With(c.ApplyAuthoritative(read))
    case StartHydrate(expected) => m.Launch(c.HydrateStart(), Hydrating(c.CaptureHydration(expected)))
    case SettleHydrate(k, response) =>
      if m.Has(k) && m.Op(k).Hydrating? then m.Land(k, c.HydrateSettle(m.Op(k).h, response)) else m
    case StartToggle =>
      if c.MayToggle() then m.Launch(c.ToggleStart(), Toggling(c.CaptureMutation())) else m
    case SettleToggle(k, outcome) =>
      if m.Has(k) && m.Op(k).Toggling? then m.Land(k, c.ToggleSettle(m.Op(k).m, outcome)) else m
    case StartResolve(tooLong) =>
      if !c.MayResolve() then m
      else if tooLong then m.With(c.GuidanceTooLong())
      else m.Launch(c.ResolveStart(), Resolving(c.CaptureMutation()))
    case ReplyResolve(k, failure) =>
      if m.Has(k) && m.Op(k).Resolving? then
        var mutation := m.Op(k).m;
        if c.ResolveHydrates(mutation, failure)
        then m.Continue(k, c.ResolveReply(mutation, failure),
                        ResolveHydrating(mutation, c.CaptureHydration(None)))
        else m.Land(k, c.ResolveReply(mutation, failure))
      else m
    case SettleResolveHydrate(k, response) =>
      if m.Has(k) && m.Op(k).ResolveHydrating?
      then m.Continue(k, c.HydrateSettle(m.Op(k).h, response), ResolveFinishing(m.Op(k).m))
      else m
    case FinishResolve(k) =>
      if m.Has(k) && m.Op(k).ResolveFinishing? then m.Land(k, c.Finish(m.Op(k).m.version)) else m
    case Remove => m.With(c.Remove())
    case Dispose => m.With(c.Dispose())
  }

  function Run(m: Machine, actions: seq<Action>): Machine {
    if actions == [] then m
    else Next(Run(m, actions[..|actions| - 1]), actions[|actions| - 1])
  }

  // ----- What the invariant says -----

  /** A toggle or resolve in flight for the session's current version. */
  predicate Holds(m: Machine, k: nat) {
    m.Has(k) && m.Op(k).IsMutation() && m.cell.version == Some(m.Op(k).m.version)
  }

  predicate SameCore(c: Cell, d: Cell) {
    c.cursor == d.cursor && c.snapshot == d.snapshot && c.attention == d.attention
  }

  /** A session that is not wanted is absent from everything published. */
  predicate Unpublished(c: Cell) {
    c.snapshot.None? && c.attention.None? && !c.pending && c.error.None? && c.recoveryError.None?
  }

  predicate CellInv(c: Cell) {
    && (c.wanted ==> c.version.Some? && c.revision.Some?)
    && (!c.wanted ==> Unpublished(c))
    && (c.disposed ==> !c.wanted)
    && (!c.wanted && !c.disposed ==>
          c.cursor.None? && c.revision.None? && c.requestRevision.None? && c.mutationEpoch.None?)
    && (c.floor.Some? ==> c.wanted && c.floor.value <= c.Cursor())
  }

  /** The pending flag is an exact lock: one mutation in flight for this version, or none. */
  ghost predicate LockExact(m: Machine) {
    && (m.cell.pending <==> exists k: nat :: Holds(m, k))
    && (forall j: nat, k: nat :: Holds(m, j) && Holds(m, k) ==> j == k)
  }

  /** A mutation whose revision stamp still matches saw no other source since it was sent. */
  ghost predicate StampExact(m: Machine) {
    forall k: nat :: Holds(m, k) && m.cell.wanted ==>
      && m.cell.Revision() >= m.Op(k).m.revision
      && (m.cell.Revision() == m.Op(k).m.revision ==> SameCore(m.cell, m.ops[k].sent))
  }

  /** A read sent in this incarnation saw no mutation epoch that has not happened yet. */
  ghost predicate EpochExact(m: Machine) {
    forall k: nat :: m.Has(k) && m.Op(k).Reads() && m.Op(k).h.version == m.cell.Version() ==>
      m.Op(k).h.mutationEpoch <= m.cell.mutationEpoch.GetOr(0)
  }

  /** Captured versions never lie ahead; a mutation was sent by a session the list had named. */
  ghost predicate OpsInv(m: Machine) {
    forall k: nat :: m.Has(k) ==>
      && k < m.next
      && m.Op(k).Version() <= m.cell.Version()
      && (m.Op(k).IsMutation() ==> m.cell.version.Some?)
      && (m.Op(k).ResolveHydrating? ==> m.Op(k).h.version == m.Op(k).m.version)
  }

  ghost predicate Inv(m: Machine) {
    && CellInv(m.cell)
    && OpsInv(m)
    && (!m.cell.disposed ==> LockExact(m) && StampExact(m) && EpochExact(m))
  }

  // ----- One cell operation at a time -----

  /** Same incarnation throughout: the version stands and the session stays wanted. */
  predicate SameIncarnation(c: Cell, d: Cell) {
    c.wanted && d.wanted && c.version == d.version
  }

  /** Every source that is accepted raises the revision; one that is not changes nothing a reader sees. */
  predicate Stamped(c: Cell, d: Cell) {
    && d.Revision() >= c.Revision()
    && (d.Revision() == c.Revision() ==> SameCore(c, d))
    && d.Cursor() >= c.Cursor()
  }

  /** What list items may do to a session on the list. */
  predicate ListStamped(c: Cell, d: Cell) {
    && CellInv(d) && SameIncarnation(c, d) && Stamped(c, d) && d.pending == c.pending && !d.disposed
    && d.mutationEpoch == c.mutationEpoch
  }

  lemma ItemStamped(c: Cell, read: Read)
    requires CellInv(c) && c.wanted && !c.disposed
    ensures ListStamped(c, c.BootstrapItem(read))
  {
  }

  lemma ListStampedOn(c: Cell, d: Cell, e: Cell)
    requires ListStamped(c, d) && ListStamped(d, e)
    ensures ListStamped(c, e)
  {
  }

  lemma {:induction false} BootstrapItemsStamped(c: Cell, items: seq<Read>)
    requires CellInv(c) && c.wanted && !c.disposed
    ensures ListStamped(c, c.BootstrapItems(items))
  {
    if items != [] {
      var earlier := c.BootstrapItems(items[..|items| - 1]);
      BootstrapItemsStamped(c, items[..|items| - 1]);
      ItemStamped(earlier, items[|items| - 1]);
      ListStampedOn(c, earlier, earlier.BootstrapItem(items[|items| - 1]));
    }
  }

  /** A session entering the list has nothing stored; its items are judged from there. */
  lemma BootstrapCell(c: Cell, items: seq<Read>)
    requires CellInv(c) && !c.disposed
    ensures var d := c.Bootstrap(items);
      && CellInv(d) && !d.disposed && d.Version() >= c.Version()
      && (d.wanted ==> d.version == Some(c.Version()) && d.pending == c.pending)
      && (!d.wanted ==> !d.pending && (c.wanted ==> d.Version() > c.Version()))
      && (c.wanted && d.wanted ==> Stamped(c, d) && c.version == d.version)
      && (c.version.Some? ==> d.version.Some?)
      && (c.Version() == d.Version() ==> d.mutationEpoch == c.mutationEpoch)
  {
    if items != [] {
      var entered := c.(wanted := true).Registered();
      BootstrapItemsAgree(c.(wanted := true), items);
      BootstrapItemsStamped(entered, items);
    }
  }

  lemma {:induction false} BootstrapItemsAgree(c: Cell, items: seq<Read>)
    requires items != []
    ensures c.BootstrapItems(items) == c.Registered().BootstrapItems(items)
  {
    if |items| > 1 {
      BootstrapItemsAgree(c, items[..|items| - 1]);
    }
  }

  /** What every action may do to a cell, in flight operations aside. */
  predicate Evolves(c: Cell, d: Cell) {
    && CellInv(d)
    && d.Version() >= c.Version()
    && (c.disposed ==> d.disposed)
    && (c.wanted && d.version == c.version ==> (d.wanted || d.disposed) && (d.wanted ==> Stamped(c, d)))
    && (!c.wanted && d.wanted ==> d.version == Some(c.Version()))
    && (c.version.Some? ==> d.version.Some?)
    && (c.Version() == d.Version() && !d.disposed ==> d.mutationEpoch.GetOr(0) >= c.mutationEpoch.GetOr(0))
  }

  lemma ReadEvolves(c: Cell, read: Read)
    requires CellInv(c)
    ensures Evolves(c, c.ApplyAuthoritative(read))
  {
  }

  lemma EventEvolves(c: Cell, sequence: nat, body: Body)
    requires CellInv(c)
    ensures Evolves(c, c.Observe(sequence, body))
  {
  }

  lemma HydrationEvolves(c: Cell, h: Hydration, response: Option<Read>)
    requires CellInv(c)
    ensures Evolves(c, c.HydrateSettle(h, response)) && c.HydrateSettle(h, response).version == c.version
    ensures c.HydrateSettle(h, response).pending == c.pending
  {
  }

  lemma ToggleEvolves(c: Cell, m: Mutation, outcome: ToggleOutcome)
    requires CellInv(c)
    ensures Evolves(c, c.ToggleSettle(m, outcome)) && c.ToggleSettle(m, outcome).version == c.version
    ensures c.ToggleSettle(m, outcome).pending == (c.pending && !c.Current(m.version))
  {
  }

  lemma ReplyEvolves(c: Cell, m: Mutation, failure: Option<string>)
    requires CellInv(c)
    ensures Evolves(c, c.ResolveReply(m, failure)) && c.ResolveReply(m, failure).version == c.version
    ensures c.ResolveReply(m, failure).pending
      == (c.pending && (c.ResolveHydrates(m, failure) || !c.Current(m.version)))
  {
  }

  lemma StartsEvolve(c: Cell)
    requires CellInv(c)
    ensures Evolves(c, c) && Evolves(c, c.HydrateStart())
    ensures c.MayToggle() ==> Evolves(c, c.ToggleStart())
    ensures c.MayResolve() ==> Evolves(c, c.ResolveStart()) && Evolves(c, c.GuidanceTooLong())
  {
  }

  lemma FinishEvolves(c: Cell, version: nat)
    requires CellInv(c)
    ensures Evolves(c, c.Finish(version))
  {
  }

  /** No action lowers the version; one that keeps the incarnation stamps every change. */
  lemma StepCell(m: Machine, a: Action)
    requires CellInv(m.cell)
    ensures Evolves(m.cell, Next(m, a).cell)
  {
    match a
    case Bootstrap(items) => if !m.cell.disposed { BootstrapCell(m.cell, items); }
    case Observe(sequence, body) => EventEvolves(m.cell, sequence, body);
    case Authoritative(read) => ReadEvolves(m.cell, read);
    case StartHydrate(_) => StartsEvolve(m.cell);
    case StartToggle => StartsEvolve(m.cell);
    case StartResolve(_) => StartsEvolve(m.cell);
    case SettleHydrate(k, response) =>
      if m.Has(k) && m.Op(k).Hydrating? { HydrationEvolves(m.cell, m.Op(k).h, response); }
    case SettleToggle(k, outcome) =>
      if m.Has(k) && m.Op(k).Toggling? { ToggleEvolves(m.cell, m.Op(k).m, outcome); }
    case ReplyResolve(k, failure) =>
      if m.Has(k) && m.Op(k).Resolving? { ReplyEvolves(m.cell, m.Op(k).m, failure); }
    case SettleResolveHydrate(k, response) =>
      if m.Has(k) && m.Op(k).ResolveHydrating? { HydrationEvolves(m.cell, m.Op(k).h, response); }
    case FinishResolve(k) => if m.Has(k) { FinishEvolves(m.cell, m.Op(k).Version()); }
    case Remove =>
    case Dispose =>
  }

  /** Operations in flight keep their captured version; a step adds at most one. */
  lemma StepOps(m: Machine, a: Action)
    requires Inv(m)
    ensures OpsInv(Next(m, a))
  {
    var n := Next(m, a);
    StepCell(m, a);
    forall k: nat | n.Has(k)
      ensures k < n.next && n.Op(k).Version() <= n.cell.Version()
      ensures n.Op(k).IsMutation() ==> n.cell.version.Some?
      ensures n.Op(k).ResolveHydrating? ==> n.Op(k).h.version == n.Op(k).m.version
    {
      if m.Has(k) {
        assert k < m.next && m.Op(k).Version() <= m.cell.Version();
        assert n.Op(k).Version() == m.Op(k).Version();
      }
    }
  }

  /** Nothing about the lock moved: same version, same flag, same mutations. */
  lemma LockKept(m: Machine, n: Machine)
    requires LockExact(m) && n.cell.pending == m.cell.pending && n.cell.version == m.cell.version
    requires forall k: nat :: Holds(n, k) <==> Holds(m, k)
    ensures LockExact(n)
  {
  }

  /** A new version starts with nothing in flight for it. */
  lemma LockFresh(m: Machine, n: Machine)
    requires Inv(m) && !n.cell.pending && n.ops == m.ops && !m.cell.disposed
    requires n.cell.Version() > m.cell.Version() || !m.cell.pending
    requires n.cell.Version() >= m.cell.Version()
    ensures LockExact(n)
  {
    forall k: nat ensures !Holds(n, k) {
      if Holds(n, k) {
        assert m.Has(k) && m.Op(k).Version() <= m.cell.Version();
        assert Holds(m, k);
      }
    }
  }

  /** Landing the holder releases the lock; landing anything else leaves it. */
  lemma LockLanded(m: Machine, k: nat, d: Cell)
    requires Inv(m) && !m.cell.disposed && m.Has(k) && m.Op(k).IsMutation()
    requires d.version == m.cell.version
    requires d.pending == (m.cell.pending && !m.cell.Current(m.Op(k).m.version))
    ensures LockExact(m.Land(k, d))
  {
    var n := m.Land(k, d);
    assert forall j: nat :: Holds(n, j) ==> Holds(m, j) && j != k;
    assert forall j: nat :: Holds(m, j) && j != k ==> Holds(n, j);
    if m.cell.Current(m.Op(k).m.version) {
      assert Holds(m, k);
    } else {
      assert !Holds(m, k);
      LockKept(m, n);
    }
  }

  lemma LockLaunched(m: Machine, d: Cell, op: Flight)
    requires Inv(m) && !m.cell.disposed && !m.cell.pending && m.cell.version.Some?
    requires op.IsMutation() && m.cell.version == Some(op.m.version) == d.version && d.pending
    ensures LockExact(m.Launch(d, op))
  {
    var n := m.Launch(d, op);
    assert Holds(n, m.next);
    assert forall j: nat :: Holds(n, j) && j != m.next ==> Holds(m, j);
  }

  lemma ReadLock(m: Machine, a: Action)
    requires Inv(m) && !m.cell.disposed && (a.SettleHydrate? || a.SettleResolveHydrate?)
    ensures LockExact(Next(m, a))
  {
    match a
    case SettleHydrate(k, response) =>
      if m.Has(k) && m.Op(k).Hydrating? { HydrationEvolves(m.cell, m.Op(k).h, response); }
      LockKept(m, Next(m, a));
    case SettleResolveHydrate(k, response) =>
      if m.Has(k) && m.Op(k).ResolveHydrating? { HydrationEvolves(m.cell, m.Op(k).h, response); }
      LockKept(m, Next(m, a));
    case _ =>
  }

  lemma BootstrapLock(m: Machine, items: seq<Read>)
    requires Inv(m) && !m.cell.disposed
    ensures LockExact(Next(m, Bootstrap(items)))
  {
    var n := Next(m, Bootstrap(items));
    BootstrapCell(m.cell, items);
    if n.cell.version == m.cell.version && n.cell.pending == m.cell.pending { LockKept(m, n); }
    else { LockFresh(m, n); }
  }

  lemma StepLock(m: Machine, a: Action)
    requires Inv(m) && !Next(m, a).cell.disposed
    ensures LockExact(Next(m, a))
  {
    StepCell(m, a);
    if a.Bootstrap? {
      BootstrapLock(m, a.items);
    } else if a.SettleHydrate? || a.SettleResolveHydrate? {
      ReadLock(m, a);
    } else {
      ActionLock(m, a);
    }
  }

  lemma ActionLock(m: Machine, a: Action)
    requires Inv(m) && !m.cell.disposed && !a.Dispose?
    requires !a.Bootstrap? && !a.SettleHydrate? && !a.SettleResolveHydrate?
    ensures LockExact(Next(m, a))
  {
    var n := Next(m, a);
    match a
    case Remove => LockFresh(m, n);
    case StartToggle =>
      if m.cell.MayToggle() { LockLaunched(m, m.cell.ToggleStart(), Toggling(m.cell.CaptureMutation())); }
    case StartResolve(tooLong) =>
      if m.cell.MayResolve() && !tooLong {
        LockLaunched(m, m.cell.ResolveStart(), Resolving(m.cell.CaptureMutation()));
      }
    case SettleToggle(k, outcome) =>
      if m.Has(k) && m.Op(k).Toggling? {
        ToggleEvolves(m.cell, m.Op(k).m, outcome);
        LockLanded(m, k, n.cell);
      }
    case ReplyResolve(k, failure) =>
      if m.Has(k) && m.Op(k).Resolving? {
        ReplyEvolves(m.cell, m.Op(k).m, failure);
        if m.cell.ResolveHydrates(m.Op(k).m, failure) { LockKept(m, n); } else { LockLanded(m, k, n.cell); }
      }
    case FinishResolve(k) =>
      if m.Has(k) && m.Op(k).ResolveFinishing? { LockLanded(m, k, n.cell); }
    case _ => LockKept(m, n);
  }

  lemma StepStamp(m: Machine, a: Action)
    requires Inv(m) && !Next(m, a).cell.disposed
    ensures StampExact(Next(m, a))
  {
    var n := Next(m, a);
    StepCell(m, a);
    forall k: nat | Holds(n, k) && n.cell.wanted
      ensures n.cell.Revision() >= n.Op(k).m.revision
      ensures n.cell.Revision() == n.Op(k).m.revision ==> SameCore(n.cell, n.ops[k].sent)
    {
      if m.Has(k) {
        assert n.Op(k).m == m.Op(k).m && n.ops[k].sent == m.ops[k].sent;
        assert m.Op(k).Version() <= m.cell.Version();
        assert Holds(m, k);
        assert m.cell.pending;
      }
    }
  }

  lemma StepEpoch(m: Machine, a: Action)
    requires Inv(m) && !Next(m, a).cell.disposed
    ensures EpochExact(Next(m, a))
  {
    var n := Next(m, a);
    StepCell(m, a);
    forall k: nat | n.Has(k) && n.Op(k).Reads() && n.Op(k).h.version == n.cell.Version()
      ensures n.Op(k).h.mutationEpoch <= n.cell.mutationEpoch.GetOr(0)
    {
      if m.Has(k) && m.Op(k).Reads() {
        assert n.Op(k).h == m.Op(k).h;
        assert m.Op(k).Version() <= m.cell.Version();
      }
    }
  }

  lemma StepInv(m: Machine, a: Action)
    requires Inv(m)
    ensures Inv(Next(m, a))
  {
    StepCell(m, a);
    StepOps(m, a);
    if !Next(m, a).cell.disposed {
      StepLock(m, a);
      StepStamp(m, a);
      StepEpoch(m, a);
    }
  }

  /** The invariant survives any run. */
  lemma {:induction false} RunInv(m: Machine, actions: seq<Action>)
    requires Inv(m)
    ensures Inv(Run(m, actions))
  {
    if actions != [] {
      RunInv(m, actions[..|actions| - 1]);
      StepInv(Run(m, actions[..|actions| - 1]), actions[|actions| - 1]);
    }
  }

  lemma InitInv()
    ensures Inv(Init())
  {
  }

  lemma {:induction false} RunSplit(m: Machine, before: seq<Action>, after: seq<Action>)
    ensures Run(m, before + after) == Run(Run(m, before), after)
  {
    if after == [] {
      assert before + after == before;
    } else {
      var shorter := after[..|after| - 1];
      assert (before + after)[..|before + after| - 1] == before + shorter;
      RunSplit(m, before, shorter);
    }
  }
}
