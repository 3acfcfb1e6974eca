/**
  Automatic dispatch in src/server/composition.ts: turnStarter.start (513-594),
  executorController.resume (595-637) and the executor policy guard (1808-1852).

  Each async function is cut at its awaits. Between two steps anything may happen: another step,
  a step of the interaction relay, or an arbitrary change of everything else the fences read.
*/
module RelayDispatch {
  import opened Wrappers
  import opened PlanAdmission
  import PI = PendingInteractions

  datatype Executor = Executor(threadId: string, state: string)

  /** The Autopilot row of the session. */
  datatype Control = Control(
    requestedEnabled: bool, generation: nat, lastControlId: Option<string>,
    planIdentity: Option<string>, executor: Option<Executor>)

  datatype Session = Session(activeTurn: Option<string>)

  /** What the fences read, besides the pending interactions. */
  datatype World = World(
    owned: bool, runtime: bool, session: Option<Session>, control: Option<Control>,
    plan: Option<Plan>, status: PolicyStatus)

  function ActiveTurn(w: World): Option<string> {
    if w.session.Some? then w.session.value.activeTurn else None
  }

  predicate Blocked(w: World, rows: PI.Rows) {
    PI.Blocking(rows, ActiveTurn(w)) != {}
  }

  /** The control that asked for the start is still the session's latest, and still on. */
  predicate CurrentControl(w: World, controlId: string, generation: nat) {
    && w.control.Some? && w.control.value.requestedEnabled
    && w.control.value.generation == generation && w.control.value.lastControlId == Some(controlId)
  }

  datatype Fence = Fence(generation: nat, planIdentity: Option<string>, executor: Executor)

  function ExecutorFence(w: World, threadId: string): Option<Fence> {
    if w.control.Some? && w.control.value.requestedEnabled
       && w.control.value.executor.Some? && w.control.value.executor.value.threadId == threadId
    then Some(Fence(w.control.value.generation, w.control.value.planIdentity, w.control.value.executor.value))
    else None
  }

  datatype Report = Report(code: string, threadId: string, mismatch: bool, requested: Policy)

  /** The evidence does not block the executor's next turn. */
  predicate Acceptable(report: Option<Report>, threadId: string) {
    && report.Some? && report.value.threadId == threadId
    && (report.value.mismatch ==> report.value.code in {"MODEL_MISMATCH", "EFFORT_MISMATCH"})
    && report.value.code !in {"CONTROLLER_BINDING_INVALID", "CONTEXT_CHANGED", "CHILD_BINDING_MISMATCH", "OBSERVATION_CHANGED"}
  }

  /** A policy the runtime validated: for which operation, and out of which plan it was taken. */
  datatype Answer = Answer(op: nat, plan: Option<Plan>, policy: Policy)

  /** Where a start, a resume or a guard waits, with what it captured. */
  datatype Start =
    | StartAwaitsWriter(controlId: string, generation: nat)
    | StartAwaitsPolicy(controlId: string, generation: nat, plan: Option<Plan>, policy: Policy)
    | StartAwaitsHook(controlId: string, generation: nat, plan: Option<Plan>, validated: Option<Policy>)

  datatype Resume = ResumeAwaitsWriter(threadId: string, entered: World)

  datatype Guard =
    | GuardAwaitsEvidence(threadId: string, entered: World)
    | GuardAwaitsPolicy(threadId: string, entered: World, report: Report)

  /**
    The calls that start a turn and the normal returns of the guard, with the state they were made
    in; `plan` is the one captured after the writer await, `entered` the state a function began in.
  */
  datatype Entry =
    | TurnStarted(op: nat, world: World, rows: PI.Rows, controlId: string, generation: nat,
                  plan: Option<Plan>, validated: Option<Policy>)
    | ExecutorStarted(world: World, rows: PI.Rows, threadId: string, entered: World)
    | GuardPassed(op: nat, world: World, rows: PI.Rows, threadId: string, entered: World, report: Report)
    | GuardSkipped(world: World, threadId: string)

  datatype Machine = Machine(
    relay: PI.Relay,
    world: World,
    starts: map<nat, Start>,
    resumes: map<nat, Resume>,
    guards: map<nat, Guard>,
    answered: set<Answer>,
    log: seq<Entry>)

  datatype Action =
    | Interact(step: PI.Action)
    | Change(world: World)
    | BeginStart(op: nat, controlId: string, generation: nat)
    | StartWriterReady(op: nat, activeTurn: Option<string>)
    | StartPolicyValidated(op: nat)
    | StartHookDone(op: nat)
    | StartRejected(op: nat)
    | BeginResume(op: nat, threadId: string)
    | ResumeWriterReady(op: nat)
    | ResumeRejected(op: nat)
    | BeginGuard(op: nat, threadId: string)
    | EvidenceRead(op: nat, report: Option<Report>)
    | GuardPolicyValidated(op: nat)
    | GuardRejected(op: nat)

  function Init(relay: PI.Relay, world: World): Machine {
    Machine(relay, world, map[], map[], map[], {}, [])
  }

  // ----- turnStarter.start -----

  predicate MayStart(w: World, rows: PI.Rows, controlId: string, generation: nat) {
    && w.owned && CurrentControl(w, controlId, generation)
    && w.session.Some? && w.runtime && w.session.value.activeTurn.None? && !Blocked(w, rows)
    && Admits(w.plan, w.status)
  }

  /** The last fence before the runtime is asked to start a turn. */
  predicate MayDispatch(w: World, rows: PI.Rows, s: Start)
    requires s.StartAwaitsHook?
  {
    && Admits(w.plan, w.status) && CurrentControl(w, s.controlId, s.generation) && w.plan == s.plan
    && ActiveTurn(w).None? && !Blocked(w, rows)
  }

  function WriterReady(m: Machine, op: nat, activeTurn: Option<string>): Machine
    requires op in m.starts
  {
    var s := m.starts[op];
    if !CurrentControl(m.world, s.controlId, s.generation) || activeTurn.Some? || Blocked(m.world, m.relay.rows)
    then m.(starts := m.starts - {op})
    else
      var policy := SelectedPolicy(m.world.plan);
      m.(starts := m.starts[op := if policy.Some?
                                  then StartAwaitsPolicy(s.controlId, s.generation, m.world.plan, policy.value)
                                  else StartAwaitsHook(s.controlId, s.generation, m.world.plan, None)])
  }

  function PolicyValidated(m: Machine, op: nat): Machine
    requires op in m.starts && m.starts[op].StartAwaitsPolicy?
  {
    var s := m.starts[op];
    m.(answered := m.answered + {Answer(op, s.plan, s.policy)},
       starts := m.starts[op := StartAwaitsHook(s.controlId, s.generation, s.plan, Some(s.policy))])
  }

  function HookDone(m: Machine, op: nat): Machine
    requires op in m.starts && m.starts[op].StartAwaitsHook?
  {
    var s := m.starts[op];
    var ended := m.(starts := m.starts - {op});
    if !MayDispatch(m.world, m.relay.rows, s) then ended
    else ended.(log := m.log + [TurnStarted(op, m.world, m.relay.rows, s.controlId, s.generation, s.plan, s.validated)])
  }

  // ----- executorController.resume -----

  predicate MayResume(w: World, rows: PI.Rows) {
    w.owned && w.session.Some? && w.runtime && !Blocked(w, rows) && Admits(w.plan, w.status)
  }

  function ResumeWriter(m: Machine, op: nat): Machine
    requires op in m.resumes
  {
    var r := m.resumes[op];
    var ended := m.(resumes := m.resumes - {op});
    if Blocked(m.world, m.relay.rows) then ended
    else ended.(log := m.log + [ExecutorStarted(m.world, m.relay.rows, r.threadId, r.entered)])
  }

  // ----- The executor policy guard -----

  /** Its assertCurrent, against what the guard saw when it was entered. */
  predicate StillCurrent(w: World, rows: PI.Rows, threadId: string, entered: World) {
    && Admits(w.plan, w.status)
    && ExecutorFence(entered, threadId).Some? && ExecutorFence(w, threadId) == ExecutorFence(entered, threadId)
    && w.plan == entered.plan && !Blocked(w, rows)
  }

  function GuardEntered(m: Machine, op: nat, threadId: string): Machine {
    var w := m.world;
    if !Admits(w.plan, w.status) then m
    else if w.plan.None? || w.plan.value.version != Some(1) then m.(log := m.log + [GuardSkipped(w, threadId)])
    else if !StillCurrent(w, m.relay.rows, threadId, w) then m
    else m.(guards := m.guards[op := GuardAwaitsEvidence(threadId, w)])
  }

  function GuardRead(m: Machine, op: nat, report: Option<Report>): Machine
    requires op in m.guards
  {
    var g := m.guards[op];
    if StillCurrent(m.world, m.relay.rows, g.threadId, g.entered) && Acceptable(report, g.threadId)
    then m.(guards := m.guards[op := GuardAwaitsPolicy(g.threadId, g.entered, report.value)])
    else m.(guards := m.guards - {op})
  }

  function GuardValidated(m: Machine, op: nat): Machine
    requires op in m.guards && m.guards[op].GuardAwaitsPolicy?
  {
    var g := m.guards[op];
    var ended := m.(guards := m.guards - {op}, answered := m.answered + {Answer(op, g.entered.plan, g.report.requested)});
    if !StillCurrent(m.world, m.relay.rows, g.threadId, g.entered) then ended
    else ended.(log := m.log + [GuardPassed(op, m.world, m.relay.rows, g.threadId, g.entered, g.report)])
  }

  function Next(m: Machine, a: Action): Machine {
    match a
    case Interact(step) => m.(relay := PI.Next(m.relay, step))
    case Change(world) => m.(world := world)
    case BeginStart(op, controlId, generation) =>
      if op !in m.starts && MayStart(m.world, m.relay.rows, controlId, generation)
      then m.(starts := m.starts[op := StartAwaitsWriter(controlId, generation)]) else m
    case StartWriterReady(op, activeTurn) =>
      if op in m.starts && m.starts[op].StartAwaitsWriter? then WriterReady(m, op, activeTurn) else m
    case StartPolicyValidated(op) =>
      if op in m.starts && m.starts[op].StartAwaitsPolicy? then PolicyValidated(m, op) else m
    case StartHookDone(op) => if op in m.starts && m.starts[op].StartAwaitsHook? then HookDone(m, op) else m
    case StartRejected(op) => m.(starts := m.starts - {op})
    case BeginResume(op, threadId) =>
      if op !in m.resumes && MayResume(m.world, m.relay.rows)
      then m.(resumes := m.resumes[op := ResumeAwaitsWriter(threadId, m.world)]) else m
    case ResumeWriterReady(op) => if op in m.resumes then ResumeWriter(m, op) else m
    case ResumeRejected(op) => m.(resumes := m.resumes - {op})
    case BeginGuard(op, threadId) => if op !in m.guards then GuardEntered(m, op, threadId) else m
    case EvidenceRead(op, report) =>
      if op in m.guards && m.guards[op].GuardAwaitsEvidence? then GuardRead(m, op, report) else m
    case GuardPolicyValidated(op) =>
      if op in m.guards && m.guards[op].GuardAwaitsPolicy? then GuardValidated(m, op) else m
    case GuardRejected(op) => m.(guards := m.guards - {op})
  }

  function Run(m: Machine, actions: seq<Action>): Machine {
    if actions == [] then m else Next(Run(m, actions[..|actions| - 1]), actions[|actions| - 1])
  }

  // ----- The fences -----

  /** What holds at the very call of runtime.startTurn. */
  predicate TurnFence(e: Entry, answered: set<Answer>)
    requires e.TurnStarted?
  {
    && CurrentControl(e.world, e.controlId, e.generation)
    && Admits(e.world.plan, e.world.status)
    && ActiveTurn(e.world).None? && !Blocked(e.world, e.rows)
    && e.world.plan == e.plan && e.validated == SelectedPolicy(e.plan)
    && (e.validated.Some? ==> Answer(e.op, e.plan, e.validated.value) in answered)
  }

  predicate EntryFence(e: Entry, answered: set<Answer>) {
    match e
    case TurnStarted(_, _, _, _, _, _, _) => TurnFence(e, answered)
    case ExecutorStarted(world, rows, _, entered) => !Blocked(world, rows) && entered.owned && Admits(entered.plan, entered.status)
    case GuardPassed(op, world, rows, threadId, entered, report) =>
      && StillCurrent(world, rows, threadId, entered) && Acceptable(Some(report), threadId)
      && Answer(op, entered.plan, report.requested) in answered
    case GuardSkipped(world, _) => Admits(world.plan, world.status) && SelectedPolicy(world.plan).None?
  }

  predicate StartInv(op: nat, s: Start, answered: set<Answer>) {
    match s
    case StartAwaitsWriter(_, _) => true
    case StartAwaitsPolicy(_, _, plan, policy) => SelectedPolicy(plan) == Some(policy)
    case StartAwaitsHook(_, _, plan, validated) =>
      SelectedPolicy(plan) == validated && (validated.Some? ==> Answer(op, plan, validated.value) in answered)
  }

  predicate StartsInv(starts: map<nat, Start>, answered: set<Answer>) {
    forall op | op in starts :: StartInv(op, starts[op], answered)
  }

  predicate ResumesInv(resumes: map<nat, Resume>) {
    forall op | op in resumes :: resumes[op].entered.owned && Admits(resumes[op].entered.plan, resumes[op].entered.status)
  }

  predicate GuardsInv(guards: map<nat, Guard>) {
    forall op | op in guards && guards[op].GuardAwaitsPolicy? :: Acceptable(Some(guards[op].report), guards[op].threadId)
  }

  predicate LogInv(log: seq<Entry>, answered: set<Answer>) {
    forall i | 0 <= i < |log| :: EntryFence(log[i], answered)
  }

  predicate Inv(m: Machine) {
    StartsInv(m.starts, m.answered) && ResumesInv(m.resumes) && GuardsInv(m.guards) && LogInv(m.log, m.answered)
  }

  /** A further answer takes nothing back. */
  lemma AnswersGrow(starts: map<nat, Start>, log: seq<Entry>, answered: set<Answer>, more: set<Answer>)
    requires StartsInv(starts, answered) && LogInv(log, answered) && answered <= more
    ensures StartsInv(starts, more) && LogInv(log, more)
  {
    forall i | 0 <= i < |log| ensures EntryFence(log[i], more) {
      assert EntryFence(log[i], answered);
    }
    forall op | op in starts ensures StartInv(op, starts[op], more) {
      assert StartInv(op, starts[op], answered);
    }
  }

  lemma LogEntry(log: seq<Entry>, e: Entry, answered: set<Answer>)
    requires LogInv(log, answered) && EntryFence(e, answered)
    ensures LogInv(log + [e], answered)
  {
  }

  lemma StartStepInv(m: Machine, a: Action)
    requires Inv(m)
    requires a.StartWriterReady? || a.StartPolicyValidated? || a.StartHookDone?
    ensures Inv(Next(m, a))
  {
    match a
    case StartPolicyValidated(op) => AnswersGrow(m.starts, m.log, m.answered, Next(m, a).answered);
    case StartHookDone(op) =>
      var n := Next(m, a);
      if n.log != m.log {
        var s := m.starts[op];
        assert StartInv(op, s, m.answered);
        LogEntry(m.log, TurnStarted(op, m.world, m.relay.rows, s.controlId, s.generation, s.plan, s.validated), m.answered);
      }
    case _ =>
  }

  lemma ResumeStepInv(m: Machine, op: nat)
    requires Inv(m)
    ensures Inv(Next(m, ResumeWriterReady(op)))
  {
    if Next(m, ResumeWriterReady(op)).log != m.log {
      LogEntry(m.log, ExecutorStarted(m.world, m.relay.rows, m.resumes[op].threadId, m.resumes[op].entered), m.answered);
    }
  }

  lemma EnterStepInv(m: Machine, op: nat, threadId: string)
    requires Inv(m)
    ensures Inv(Next(m, BeginGuard(op, threadId)))
  {
    if Next(m, BeginGuard(op, threadId)).log != m.log {
      LogEntry(m.log, GuardSkipped(m.world, threadId), m.answered);
    }
  }

  lemma GuardStepInv(m: Machine, op: nat)
    requires Inv(m)
    ensures Inv(Next(m, GuardPolicyValidated(op)))
  {
    var n := Next(m, GuardPolicyValidated(op));
    AnswersGrow(m.starts, m.log, m.answered, n.answered);
    if n.log != m.log {
      var g := m.guards[op];
      LogEntry(m.log, GuardPassed(op, m.world, m.relay.rows, g.threadId, g.entered, g.report), n.answered);
    }
  }

  lemma EvidenceStepInv(m: Machine, op: nat, report: Option<Report>)
    requires Inv(m)
    ensures Inv(Next(m, EvidenceRead(op, report)))
  {
  }

  lemma StepInv(m: Machine, a: Action)
    requires Inv(m)
    ensures Inv(Next(m, a))
  {
    match a
    case StartWriterReady(_, _) => StartStepInv(m, a);
    case StartPolicyValidated(_) => StartStepInv(m, a);
    case StartHookDone(_) => StartStepInv(m, a);
    case ResumeWriterReady(op) => ResumeStepInv(m, op);
    case BeginGuard(op, threadId) => EnterStepInv(m, op, threadId);
    case EvidenceRead(op, report) => EvidenceStepInv(m, op, report);
    case GuardPolicyValidated(op) => GuardStepInv(m, op);
    case _ =>
  }

  lemma {:induction false} RunInv(m: Machine, actions: seq<Action>)
    requires Inv(m)
    ensures Inv(Run(m, actions))
  {
    if actions != [] {
      RunInv(m, actions[..|actions| - 1]);
      StepInv(Run(m, actions[..|actions| - 1]), actions[|actions| - 1]);
    }
  }

  /**
    Whenever start calls runtime.startTurn, the control is still on under the same id and
    generation, the plan admits it and is the plan whose step policy was validated, no turn is
    active and nothing blocks, whatever changed at its awaits.
  */
  lemma DispatchFence(relay: PI.Relay, world: World, actions: seq<Action>, i: nat)
    requires var m := Run(Init(relay, world), actions); i < |m.log| && m.log[i].TurnStarted?
    ensures var m := Run(Init(relay, world), actions); TurnFence(m.log[i], m.answered)
  {
    RunInv(Init(relay, world), actions);
    var m := Run(Init(relay, world), actions);
    assert EntryFence(m.log[i], m.answered);
  }

  /** So a turn under a versioned plan runs under the validated, admissible policy of the step that comes next. */
  lemma PolicyPlansRunValidated(relay: PI.Relay, world: World, actions: seq<Action>, i: nat, k: nat)
    requires var m := Run(Init(relay, world), actions);
      && i < |m.log| && m.log[i].TurnStarted? && m.log[i].world.plan.Some?
      && IsNext(m.log[i].world.plan.value, k)
      && m.log[i].world.plan.value.version.Some?
    ensures var e := Run(Init(relay, world), actions).log[i];
      var plan := e.world.plan.value;
      && plan.steps[k].policy == e.validated && e.validated.Some? && e.validated.value.admissible
      && Answer(e.op, e.world.plan, e.validated.value) in Run(Init(relay, world), actions).answered
  {
    DispatchFence(relay, world, actions, i);
    var e := Run(Init(relay, world), actions).log[i];
    SelectsNextExactly(e.world.plan.value);
    SelectedPolicyExactly(e.world.plan.value, k);
    AdmittedPlansSelectPolicies(e.world.plan.value, e.world.status);
    assert e.world.plan.value.steps[k] in e.world.plan.value.steps;
  }

  /**
    A normal return of the guard means its entry fence still holds: same generation, plan
    identity and executor, same plan, admitted, nothing blocking; the evidence was acceptable and the
    settings it asks for, which the guard returns, were validated. Or the plan has no policy to guard.
  */
  lemma GuardReturnsCurrent(relay: PI.Relay, world: World, actions: seq<Action>, i: nat)
    requires var m := Run(Init(relay, world), actions); i < |m.log| && (m.log[i].GuardPassed? || m.log[i].GuardSkipped?)
    ensures var m := Run(Init(relay, world), actions); var e := m.log[i];
      && Admits(e.world.plan, e.world.status)
      && (e.GuardSkipped? ==> SelectedPolicy(e.world.plan).None?)
      && (e.GuardPassed? ==>
            && ExecutorFence(e.entered, e.threadId).Some?
            && ExecutorFence(e.world, e.threadId) == ExecutorFence(e.entered, e.threadId)
            && e.world.plan == e.entered.plan && !Blocked(e.world, e.rows)
            && Acceptable(Some(e.report), e.threadId) && Answer(e.op, e.world.plan, e.report.requested) in m.answered)
  {
    RunInv(Init(relay, world), actions);
    var m := Run(Init(relay, world), actions);
    assert EntryFence(m.log[i], m.answered);
  }

  /** Whenever resume calls runtime.startExecutorTurn, nothing blocks; admission was checked on entry. */
  lemma ResumeFence(relay: PI.Relay, world: World, actions: seq<Action>, i: nat)
    requires var m := Run(Init(relay, world), actions); i < |m.log| && m.log[i].ExecutorStarted?
    ensures var e := Run(Init(relay, world), actions).log[i];
      !Blocked(e.world, e.rows) && e.entered.owned && Admits(e.entered.plan, e.entered.status)
  {
    RunInv(Init(relay, world), actions);
    var m := Run(Init(relay, world), actions);
    assert EntryFence(m.log[i], m.answered);
  }

  // ----- Attention holds automation -----

  /** What a held session lets into the log: the guard's answer for plans without policies. */
  predicate Harmless(e: Entry) {
    e.GuardSkipped?
  }

  /** The log grew by harmless entries at most. */
  predicate GrowsHarmlessly(before: seq<Entry>, after: seq<Entry>) {
    && |before| <= |after| && after[..|before|] == before
    && forall i | |before| <= i < |after| :: Harmless(after[i])
  }

  lemma GrowsOn(a: seq<Entry>, b: seq<Entry>, c: seq<Entry>)
    requires GrowsHarmlessly(a, b) && GrowsHarmlessly(b, c)
    ensures GrowsHarmlessly(a, c)
  {
    assert c[..|a|] == c[..|b|][..|a|];
    assert forall i | |a| <= i < |b| :: c[i] == c[..|b|][i];
  }

  /** A step that begins with an open attention request dispatches nothing. */
  lemma OpenStep(m: Machine, a: Action, id: string)
    requires PI.OpenAttention(m.relay.rows, id)
    ensures GrowsHarmlessly(m.log, Next(m, a).log)
  {
    PI.AttentionBlocks(m.relay.rows, id, ActiveTurn(m.world));
  }

  /** No step of a run closes the request, each judged in the state it is taken in. */
  predicate NoneCloses(m: Machine, actions: seq<Action>, id: string) {
    if actions == [] then true
    else
      var earlier, a := actions[..|actions| - 1], actions[|actions| - 1];
      NoneCloses(m, earlier, id) && !(a.Interact? && PI.Closes(Run(m, earlier).relay, a.step, id))
  }

  predicate NoneEnds(m: Machine, actions: seq<Action>, id: string) {
    if actions == [] then true
    else
      var earlier, a := actions[..|actions| - 1], actions[|actions| - 1];
      NoneEnds(m, earlier, id) && !(a.Interact? && PI.Ends(Run(m, earlier).relay, a.step, id))
  }

  lemma OpenStays(m: Machine, a: Action, id: string)
    requires PI.OpenAttention(m.relay.rows, id) && !(a.Interact? && PI.Closes(m.relay, a.step, id))
    ensures PI.OpenAttention(Next(m, a).relay.rows, id)
  {
    if a.Interact? {
      PI.ClosesExactly(m.relay, a.step, id);
    }
  }

  lemma HeldStays(m: Machine, a: Action, id: string)
    requires PI.Held(m.relay.rows, id) && !(a.Interact? && PI.Ends(m.relay, a.step, id))
    ensures PI.Held(Next(m, a).relay.rows, id)
  {
    if a.Interact? {
      PI.EndsExactly(m.relay, a.step, id);
    }
  }

  /**
    As long as no step closes an attention request, neither start nor resume reaches the runtime
    and no guarded executor turn is let through, wherever their awaits were. Deliveries, refused or
    failed or still waiting for their guidance, change nothing about that.
  */
  lemma {:induction false} AttentionHoldsAutomation(m: Machine, actions: seq<Action>, id: string)
    requires PI.OpenAttention(m.relay.rows, id) && NoneCloses(m, actions, id)
    ensures PI.OpenAttention(Run(m, actions).relay.rows, id)
    ensures GrowsHarmlessly(m.log, Run(m, actions).log)
  {
    if actions != [] {
      var earlier, a := actions[..|actions| - 1], actions[|actions| - 1];
      AttentionHoldsAutomation(m, earlier, id);
      OpenStep(Run(m, earlier), a, id);
      OpenStays(Run(m, earlier), a, id);
      GrowsOn(m.log, Run(m, earlier).log, Next(Run(m, earlier), a).log);
    }
  }

  /** Acknowledged attention, in particular, holds automation until a step ends the hold. */
  lemma {:induction false} HeldAttentionHoldsAutomation(m: Machine, actions: seq<Action>, id: string)
    requires PI.Held(m.relay.rows, id) && NoneEnds(m, actions, id)
    ensures PI.Held(Run(m, actions).relay.rows, id)
    ensures GrowsHarmlessly(m.log, Run(m, actions).log)
  {
    if actions != [] {
      var earlier, a := actions[..|actions| - 1], actions[|actions| - 1];
      HeldAttentionHoldsAutomation(m, earlier, id);
      OpenStep(Run(m, earlier), a, id);
      HeldStays(Run(m, earlier), a, id);
      GrowsOn(m.log, Run(m, earlier).log, Next(Run(m, earlier), a).log);
    }
  }

  // ----- The fences let through what they should -----

  lemma Run4(m: Machine, a: Action, b: Action, c: Action, d: Action)
    ensures Run(m, [a, b, c, d]) == Next(Next(Next(Next(m, a), b), c), d)
  {
    assert [a, b, c, d][..3] == [a, b, c] && [a, b, c][..2] == [a, b] && [a, b][..1] == [a] && [a][..0] == [];
    assert Run(m, [a, b, c]) == Next(Run(m, [a, b]), c);
    assert Run(m, [a, b]) == Next(Run(m, [a]), b);
    assert Run(m, [a]) == Next(Run(m, []), a);
  }

  /** After the writer await, a quiet start needs at most the policy's answer to reach its last fence. */
  lemma QuietWriter(m: Machine, op: nat)
    requires op in m.starts && m.starts[op].StartAwaitsWriter?
    requires MayStart(m.world, m.relay.rows, m.starts[op].controlId, m.starts[op].generation)
    ensures var s := m.starts[op];
      var n := Next(Next(m, StartWriterReady(op, None)), StartPolicyValidated(op));
      && op in n.starts && n.starts[op] == StartAwaitsHook(s.controlId, s.generation, m.world.plan, SelectedPolicy(m.world.plan))
      && n.world == m.world && n.relay == m.relay && n.log == m.log
  {
  }

  lemma RefusedStart(m: Machine, op: nat)
    requires op !in m.starts
    ensures Next(Next(Next(m, StartWriterReady(op, None)), StartPolicyValidated(op)), StartHookDone(op)) == m
  {
  }

  /** A start whose session is left alone at its awaits starts a turn exactly when it may enter. */
  lemma QuietStartDispatches(m: Machine, op: nat, controlId: string, generation: nat)
    requires op !in m.starts
    ensures var n := Run(m, [BeginStart(op, controlId, generation), StartWriterReady(op, None),
                             StartPolicyValidated(op), StartHookDone(op)]);
      n.log == if MayStart(m.world, m.relay.rows, controlId, generation)
               then m.log + [TurnStarted(op, m.world, m.relay.rows, controlId, generation,
                                         m.world.plan, SelectedPolicy(m.world.plan))]
               else m.log
  {
    Run4(m, BeginStart(op, controlId, generation), StartWriterReady(op, None), StartPolicyValidated(op), StartHookDone(op));
    var begun := Next(m, BeginStart(op, controlId, generation));
    if MayStart(m.world, m.relay.rows, controlId, generation) {
      QuietWriter(begun, op);
    } else {
      RefusedStart(m, op);
    }
  }

  /** Resume asks for admission once: it reaches the runtime though the plan stopped admitting it. */
  lemma ResumeOutlivesAdmission(m: Machine, op: nat, threadId: string, later: World)
    requires op !in m.resumes && MayResume(m.world, m.relay.rows) && !Blocked(later, m.relay.rows)
    ensures var n := Next(Next(Next(m, BeginResume(op, threadId)), Change(later)), ResumeWriterReady(op));
      n.log == m.log + [ExecutorStarted(later, m.relay.rows, threadId, m.world)]
  {
  }
}
