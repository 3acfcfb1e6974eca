/**
  The closures of RelayDispatch as they run: one method for each stretch between two awaits, with
  the source's early exits, proved to make the step RelayDispatch.Next describes; and the three
  async functions made of these stretches, proved to call the runtime exactly when they should.

  `relay` and `world` stand for the stores the closures read; only the environment changes them, at
  the awaits.
*/
module DispatchClosures {
  import opened Wrappers
  import opened PlanAdmission
  import opened RelayDispatch
  import PI = PendingInteractions

  /** What the stores hold when an await resumes. */
  datatype Stores = Stores(relay: PI.Relay, world: World)

  // ----- The fences, in the stores' own terms -----

  function Turn(s: Stores): Option<string> {
    match s.world.session
    case Some(session) => session.activeTurn
    case None => None
  }

  /** Every pending interaction is resolved, or a quiz of a turn that is not active. */
  predicate Quiet(s: Stores) {
    forall id | id in s.relay.rows :: var row := s.relay.rows[id];
      row.resolved.Some? || (row.kind.Quiz? && row.turnId.Some? && row.turnId != Turn(s))
  }

  predicate Admitted(s: Stores) {
    Assess(s.world.plan, s.world.status).None?
  }

  /** The session's control row is on, and is the one named. */
  predicate ControlStands(s: Stores, controlId: string, generation: nat) {
    match s.world.control
    case None => false
    case Some(control) =>
      control.requestedEnabled && control.generation == generation && control.lastControlId == Some(controlId)
  }

  predicate Versioned(plan: Option<Plan>) {
    plan.Some? && plan.value.version == Some(1)
  }

  /** The step that comes next has a policy of its own. */
  ghost predicate NeedsPolicy(plan: Option<Plan>) {
    Versioned(plan) && exists k: nat :: IsNext(plan.value, k) && plan.value.steps[k].policy.Some?
  }

  lemma FencesExactly(s: Stores, controlId: string, generation: nat)
    ensures Quiet(s) <==> !Blocked(s.world, s.relay.rows)
    ensures Turn(s) == ActiveTurn(s.world)
    ensures Admitted(s) <==> Admits(s.world.plan, s.world.status)
    ensures ControlStands(s, controlId, generation) <==> CurrentControl(s.world, controlId, generation)
    ensures NeedsPolicy(s.world.plan) <==> SelectedPolicy(s.world.plan).Some?
  {
    AdmitsExactly(s.world.plan, s.world.status);
    var blocking := PI.Blocking(s.relay.rows, Turn(s));
    assert forall id :: id in blocking <==> id in s.relay.rows && PI.Blocks(s.relay.rows[id], Turn(s));
    if !Quiet(s) {
      var id :| id in s.relay.rows && id in blocking;
    }
    if Versioned(s.world.plan) {
      SelectsNextExactly(s.world.plan.value);
    }
  }

  /**
    Exactly when a start reaches the runtime: what it checked on entry, at the writer and at its
    last fence, against the stores of each of these moments; `writer` is the active turn of the
    writer it got, absent when none was to be had.
  */
  ghost predicate StartReaches(entry: Stores, atWriter: Stores, last: Stores, controlId: string, generation: nat,
                               writer: Option<Option<string>>, validated: bool, hooked: bool)
  {
    && entry.world.owned && entry.world.runtime && entry.world.session.Some? && Turn(entry).None?
    && ControlStands(entry, controlId, generation) && Quiet(entry) && Admitted(entry)
    && writer == Some(None) && ControlStands(atWriter, controlId, generation) && Quiet(atWriter)
    && (NeedsPolicy(atWriter.world.plan) ==> validated) && hooked
    && ControlStands(last, controlId, generation) && Quiet(last) && Admitted(last)
    && last.world.plan == atWriter.world.plan && Turn(last).None?
  }

  /** The same in the terms of the three steps a start takes. */
  predicate StartPasses(entry: Stores, atWriter: Stores, last: Stores, controlId: string, generation: nat,
                        writer: Option<Option<string>>, validated: bool, hooked: bool)
  {
    && MayStart(entry.world, entry.relay.rows, controlId, generation)
    && writer == Some(None) && CurrentControl(atWriter.world, controlId, generation)
    && !Blocked(atWriter.world, atWriter.relay.rows)
    && (SelectedPolicy(atWriter.world.plan).Some? ==> validated) && hooked
    && MayDispatch(last.world, last.relay.rows, StartAwaitsHook(controlId, generation, atWriter.world.plan, None))
  }

  lemma StartReachesExactly(entry: Stores, atWriter: Stores, last: Stores, controlId: string, generation: nat,
                            writer: Option<Option<string>>, validated: bool, hooked: bool)
    ensures StartReaches(entry, atWriter, last, controlId, generation, writer, validated, hooked) <==>
      StartPasses(entry, atWriter, last, controlId, generation, writer, validated, hooked)
  {
    FencesExactly(entry, controlId, generation);
    FencesExactly(atWriter, controlId, generation);
    FencesExactly(last, controlId, generation);
  }

  /** The executor fence is that of the entry: same enabled generation, plan identity, executor and plan. */
  predicate FenceStands(s: Stores, entry: Stores, threadId: string) {
    && Admitted(s) && Quiet(s) && s.world.plan == entry.world.plan
    && match (s.world.control, entry.world.control)
       case (Some(now), Some(was)) =>
         && now.requestedEnabled && was.requestedEnabled
         && now.executor.Some? && now.executor == was.executor && now.executor.value.threadId == threadId
         && now.generation == was.generation && now.planIdentity == was.planIdentity
       case _ => false
  }

  /** A report that does not block: of this thread, and of nothing worse than other settings. */
  predicate Evidence(report: Option<Report>, threadId: string) {
    && report.Some? && report.value.threadId == threadId
    && report.value.code != "CONTROLLER_BINDING_INVALID" && report.value.code != "CONTEXT_CHANGED"
    && report.value.code != "CHILD_BINDING_MISMATCH" && report.value.code != "OBSERVATION_CHANGED"
    && (report.value.mismatch ==> report.value.code == "MODEL_MISMATCH" || report.value.code == "EFFORT_MISMATCH")
  }

  lemma GuardFencesExactly(s: Stores, entry: Stores, threadId: string, report: Option<Report>)
    ensures FenceStands(s, entry, threadId) <==> StillCurrent(s.world, s.relay.rows, threadId, entry.world)
    ensures Evidence(report, threadId) <==> Acceptable(report, threadId)
  {
    FencesExactly(s, "", 0);
  }

  /** Exactly when the guard returns settings: its fence of the entry holds at all three moments. */
  predicate GuardPasses(entry: Stores, atEvidence: Stores, atPolicy: Stores, threadId: string,
                        report: Option<Option<Report>>, validated: bool)
  {
    && Versioned(entry.world.plan) && FenceStands(entry, entry, threadId)
    && report.Some? && FenceStands(atEvidence, entry, threadId) && Evidence(report.value, threadId)
    && validated && FenceStands(atPolicy, entry, threadId)
  }

  class Dispatcher {
    var relay: PI.Relay
    var world: World
    var starts: map<nat, Start>
    var resumes: map<nat, Resume>
    var guards: map<nat, Guard>
    var answered: set<Answer>
    var log: seq<Entry>

    ghost function View(): Machine
      reads this
    {
      Machine(relay, world, starts, resumes, guards, answered, log)
    }

    constructor (relay: PI.Relay, world: World)
      ensures View() == Init(relay, world)
    {
      this.relay, this.world := relay, world;
      starts, resumes, guards, answered, log := map[], map[], map[], {}, [];
    }

    predicate HasBlocking()
      reads this
      ensures HasBlocking() <==> Blocked(world, relay.rows)
    {
      PI.Blocking(relay.rows, ActiveTurn(world)) != {}
    }

    predicate IsCurrentControl(controlId: string, generation: nat)
      reads this
      ensures IsCurrentControl(controlId, generation) <==> CurrentControl(world, controlId, generation)
    {
      && world.control.Some? && world.control.value.requestedEnabled
      && world.control.value.generation == generation && world.control.value.lastControlId == Some(controlId)
    }

    // ----- turnStarter.start -----

    /** Up to the await of ensureWriter; `awaiting` is false where the source throws. */
    method EnterStart(op: nat, controlId: string, generation: nat) returns (awaiting: bool)
      requires op !in starts
      modifies `starts
      ensures View() == Next(old(View()), BeginStart(op, controlId, generation))
      ensures awaiting <==> MayStart(world, relay.rows, controlId, generation)
    {
      if !world.owned || !IsCurrentControl(controlId, generation) {
        return false;
      }
      if world.session.None? || !world.runtime || world.session.value.activeTurn.Some? || HasBlocking() {
        return false;
      }
      if !Admits(world.plan, world.status) {
        return false;
      }
      starts := starts[op := StartAwaitsWriter(controlId, generation)];
      return true;
    }

    /** From the writer to the await of the policy's validation, or past it when there is none. */
    method StartWithWriter(op: nat, activeTurn: Option<string>)
      requires op in starts && starts[op].StartAwaitsWriter?
      modifies `starts
      ensures View() == Next(old(View()), StartWriterReady(op, activeTurn))
    {
      var StartAwaitsWriter(controlId, generation) := starts[op];
      if !IsCurrentControl(controlId, generation) || activeTurn.Some? || HasBlocking() {
        starts := starts - {op};
        return;
      }
      var selectedPlan := world.plan;
      var selectedPolicy := None;
      if selectedPlan.Some? && selectedPlan.value.version == Some(1) {
        var index := CurrentL1(selectedPlan.value);
        if index.Some? {
          selectedPolicy := selectedPlan.value.steps[index.value].policy;
        }
      }
      if selectedPolicy.Some? {
        starts := starts[op := StartAwaitsPolicy(controlId, generation, selectedPlan, selectedPolicy.value)];
      } else {
        starts := starts[op := StartAwaitsHook(controlId, generation, selectedPlan, None)];
      }
    }

    method StartWithPolicy(op: nat)
      requires op in starts && starts[op].StartAwaitsPolicy?
      modifies `starts, `answered
      ensures View() == Next(old(View()), StartPolicyValidated(op))
    {
      var StartAwaitsPolicy(controlId, generation, plan, policy) := starts[op];
      answered := answered + {Answer(op, plan, policy)};
      starts := starts[op := StartAwaitsHook(controlId, generation, plan, Some(policy))];
    }

    /** From the hook to the call of runtime.startTurn, which `started` reports. */
    method StartTurn(op: nat) returns (started: bool)
      requires op in starts && starts[op].StartAwaitsHook?
      modifies `starts, `log
      ensures View() == Next(old(View()), StartHookDone(op))
      ensures started <==> MayDispatch(world, relay.rows, old(starts)[op])
    {
      var StartAwaitsHook(controlId, generation, plan, validated) := starts[op];
      starts := starts - {op};
      if !Admits(world.plan, world.status) {
        return false;
      }
      if !IsCurrentControl(controlId, generation) || world.plan != plan || HasBlocking()
         || (world.session.Some? && world.session.value.activeTurn.Some?) {
        return false;
      }
      log := log + [TurnStarted(op, world, relay.rows, controlId, generation, plan, validated)];
      return true;
    }

    // ----- executorController.resume -----

    method EnterResume(op: nat, threadId: string) returns (awaiting: bool)
      requires op !in resumes
      modifies `resumes
      ensures View() == Next(old(View()), BeginResume(op, threadId))
      ensures awaiting <==> MayResume(world, relay.rows)
    {
      if !world.owned {
        return false;
      }
      if world.session.None? || !world.runtime || HasBlocking() || !Admits(world.plan, world.status) {
        return false;
      }
      resumes := resumes[op := ResumeAwaitsWriter(threadId, world)];
      return true;
    }

    method StartExecutorTurn(op: nat) returns (started: bool)
      requires op in resumes
      modifies `resumes, `log
      ensures View() == Next(old(View()), ResumeWriterReady(op))
      ensures started <==> !Blocked(world, relay.rows)
    {
      var ResumeAwaitsWriter(threadId, entered) := resumes[op];
      resumes := resumes - {op};
      if HasBlocking() {
        return false;
      }
      log := log + [ExecutorStarted(world, relay.rows, threadId, entered)];
      return true;
    }

    // ----- The executor policy guard -----

    predicate AssertCurrent(threadId: string, entered: World)
      reads this
      ensures AssertCurrent(threadId, entered) <==> StillCurrent(world, relay.rows, threadId, entered)
    {
      && Admits(world.plan, world.status)
      && ExecutorFence(entered, threadId).Some? && ExecutorFence(world, threadId) == ExecutorFence(entered, threadId)
      && world.plan == entered.plan && !HasBlocking()
    }

    method EnterGuard(op: nat, threadId: string)
      requires op !in guards
      modifies `guards, `log
      ensures View() == Next(old(View()), BeginGuard(op, threadId))
    {
      if !Admits(world.plan, world.status) {
        return;
      }
      if world.plan.None? || world.plan.value.version != Some(1) {
        log := log + [GuardSkipped(world, threadId)];
        return;
      }
      if AssertCurrent(threadId, world) {
        guards := guards[op := GuardAwaitsEvidence(threadId, world)];
      }
    }

    method GuardWithEvidence(op: nat, report: Option<Report>)
      requires op in guards && guards[op].GuardAwaitsEvidence?
      modifies `guards
      ensures View() == Next(old(View()), EvidenceRead(op, report))
    {
      var GuardAwaitsEvidence(threadId, entered) := guards[op];
      if !AssertCurrent(threadId, entered) {
        guards := guards - {op};
        return;
      }
      if report.None? || report.value.threadId != threadId {
        guards := guards - {op};
        return;
      }
      var settingsChange := report.value.code in {"MODEL_MISMATCH", "EFFORT_MISMATCH"};
      if (report.value.mismatch && !settingsChange)
         || report.value.code in {"CONTROLLER_BINDING_INVALID", "CONTEXT_CHANGED", "CHILD_BINDING_MISMATCH", "OBSERVATION_CHANGED"} {
        guards := guards - {op};
        return;
      }
      guards := guards[op := GuardAwaitsPolicy(threadId, entered, report.value)];
    }

    method GuardWithPolicy(op: nat) returns (passed: bool)
      requires op in guards && guards[op].GuardAwaitsPolicy?
      modifies `guards, `answered, `log
      ensures View() == Next(old(View()), GuardPolicyValidated(op))
      ensures passed <==> StillCurrent(world, relay.rows, old(guards)[op].threadId, old(guards)[op].entered)
    {
      var GuardAwaitsPolicy(threadId, entered, report) := guards[op];
      guards := guards - {op};
      answered := answered + {Answer(op, entered.plan, report.requested)};
      if !AssertCurrent(threadId, entered) {
        return false;
      }
      log := log + [GuardPassed(op, world, relay.rows, threadId, entered, report)];
      return true;
    }

    // ----- The async functions -----

    /** Whatever else the relay does until an await resumes. */
    method Await(next: Stores)
      modifies `relay, `world
      ensures relay == next.relay && world == next.world
    {
      relay, world := next.relay, next.world;
    }

    method RejectStart(op: nat)
      modifies `starts
      ensures View() == Next(old(View()), StartRejected(op))
    {
      starts := starts - {op};
    }

    /** turnStarter.start; the stores change arbitrarily at its awaits. */
    method Start(op: nat, controlId: string, generation: nat, writer: Option<Option<string>>, validated: bool, hooked: bool,
                 atWriter: Stores, atPolicy: Stores, last: Stores) returns (started: bool)
      requires op !in starts
      modifies this
      ensures started <==>
        StartReaches(old(Stores(relay, world)), atWriter, last, controlId, generation, writer, validated, hooked)
      ensures starts == old(starts) && resumes == old(resumes) && guards == old(guards)
      ensures log == old(log) + if !started then [] else
        [TurnStarted(op, last.world, last.relay.rows, controlId, generation,
                     atWriter.world.plan, SelectedPolicy(last.world.plan))]
      ensures started && SelectedPolicy(last.world.plan).Some? ==>
        Answer(op, last.world.plan, SelectedPolicy(last.world.plan).value) in answered
    {
      StartReachesExactly(Stores(relay, world), atWriter, last, controlId, generation, writer, validated, hooked);
      started := RunStart(op, controlId, generation, writer, validated, hooked, atWriter, atPolicy, last);
    }

    method RunStart(op: nat, controlId: string, generation: nat, writer: Option<Option<string>>, validated: bool, hooked: bool,
                    atWriter: Stores, atPolicy: Stores, last: Stores) returns (started: bool)
      requires op !in starts
      modifies this
      ensures started <==>
        StartPasses(old(Stores(relay, world)), atWriter, last, controlId, generation, writer, validated, hooked)
      ensures starts == old(starts) && resumes == old(resumes) && guards == old(guards)
      ensures log == old(log) + if !started then [] else
        [TurnStarted(op, last.world, last.relay.rows, controlId, generation,
                     atWriter.world.plan, SelectedPolicy(last.world.plan))]
      ensures started && SelectedPolicy(last.world.plan).Some? ==>
        Answer(op, last.world.plan, SelectedPolicy(last.world.plan).value) in answered
    {
      var entered := EnterStart(op, controlId, generation);
      if !entered {
        return false;
      }
      Await(atWriter);
      if writer.None? {
        RejectStart(op);
        return false;
      }
      StartWithWriter(op, writer.value);
      if op !in starts {
        return false;
      }
      started := StartSelected(op, validated, hooked, atPolicy, last);
    }

    /** From the selected policy on: its validation where there is one, the hook, the last fence. */
    method StartSelected(op: nat, validated: bool, hooked: bool, atPolicy: Stores, last: Stores) returns (started: bool)
      requires op in starts && !starts[op].StartAwaitsWriter?
      modifies this
      ensures var s := old(starts[op]);
        var policy := if s.StartAwaitsPolicy? then Some(s.policy) else s.validated;
        && (started <==>
              (&& (s.StartAwaitsPolicy? ==> validated) && hooked
               && MayDispatch(last.world, last.relay.rows, StartAwaitsHook(s.controlId, s.generation, s.plan, policy))))
        && log == old(log) + (if started
                              then [TurnStarted(op, last.world, last.relay.rows, s.controlId, s.generation, s.plan, policy)]
                              else [])
        && (started && s.StartAwaitsPolicy? ==> Answer(op, s.plan, s.policy) in answered)
      ensures starts == old(starts) - {op} && resumes == old(resumes) && guards == old(guards)
    {
      if starts[op].StartAwaitsPolicy? {
        Await(atPolicy);
        if !validated {
          RejectStart(op);
          return false;
        }
        StartWithPolicy(op);
      }
      started := StartHooked(op, hooked, last);
    }

    method StartHooked(op: nat, hooked: bool, last: Stores) returns (started: bool)
      requires op in starts && starts[op].StartAwaitsHook?
      modifies `relay, `world, `starts, `log
      ensures var s := old(starts[op]);
        && (started <==> hooked && MayDispatch(last.world, last.relay.rows, s))
        && log == old(log) + (if started
                              then [TurnStarted(op, last.world, last.relay.rows, s.controlId, s.generation, s.plan, s.validated)]
                              else [])
      ensures starts == old(starts) - {op}
    {
      Await(last);
      if !hooked {
        RejectStart(op);
        return false;
      }
      started := StartTurn(op);
    }

    /** executorController.resume. */
    method Resume(op: nat, threadId: string, writer: bool, atWriter: Stores) returns (started: bool)
      requires op !in resumes
      modifies this
      ensures started <==>
        (var entry := old(Stores(relay, world));
         && entry.world.owned && entry.world.session.Some? && entry.world.runtime && Quiet(entry) && Admitted(entry)
         && writer && Quiet(atWriter))
      ensures resumes == old(resumes) && starts == old(starts) && guards == old(guards) && answered == old(answered)
      ensures log == old(log) + if !started then [] else
        [ExecutorStarted(atWriter.world, atWriter.relay.rows, threadId, old(world))]
    {
      FencesExactly(Stores(relay, world), "", 0);
      FencesExactly(atWriter, "", 0);
      var entered := EnterResume(op, threadId);
      if !entered {
        return false;
      }
      Await(atWriter);
      if !writer {
        resumes := resumes - {op};
        return false;
      }
      started := StartExecutorTurn(op);
    }

    /** The executor policy guard: refused, let through without a policy, or passed with settings. */
    method Guard(op: nat, threadId: string, report: Option<Option<Report>>, validated: bool,
                 atEvidence: Stores, atPolicy: Stores) returns (passed: bool)
      requires op !in guards
      modifies this
      ensures passed <==> GuardPasses(old(Stores(relay, world)), atEvidence, atPolicy, threadId, report, validated)
      ensures guards == old(guards) && starts == old(starts) && resumes == old(resumes)
      ensures var entered := old(world);
        log == old(log) +
          if passed then [GuardPassed(op, atPolicy.world, atPolicy.relay.rows, threadId, entered, report.value.value)]
          else if Assess(entered.plan, entered.status).None? && !Versioned(entered.plan) then [GuardSkipped(entered, threadId)]
          else []
      ensures passed ==> Answer(op, atPolicy.world.plan, report.value.value.requested) in answered
    {
      var entry := Stores(relay, world);
      FencesExactly(entry, "", 0);
      GuardFencesExactly(entry, entry, threadId, None);
      GuardFencesExactly(atEvidence, entry, threadId, report.GetOr(None));
      GuardFencesExactly(atPolicy, entry, threadId, None);
      EnterGuard(op, threadId);
      if op !in guards {
        return false;
      }
      passed := GuardEntered(op, report, validated, atEvidence, atPolicy);
    }

    method GuardEntered(op: nat, report: Option<Option<Report>>, validated: bool, atEvidence: Stores, atPolicy: Stores)
      returns (passed: bool)
      requires op in guards && guards[op].GuardAwaitsEvidence?
      modifies `relay, `world, `guards, `answered, `log
      ensures var g := old(guards[op]);
        && (passed <==>
              (&& StillCurrent(atEvidence.world, atEvidence.relay.rows, g.threadId, g.entered)
               && report.Some? && Acceptable(report.value, g.threadId) && validated
               && StillCurrent(atPolicy.world, atPolicy.relay.rows, g.threadId, g.entered)))
        && log == old(log) + (if passed
                              then [GuardPassed(op, atPolicy.world, atPolicy.relay.rows, g.threadId, g.entered, report.value.value)]
                              else [])
        && (passed ==> Answer(op, g.entered.plan, report.value.value.requested) in answered)
      ensures guards == old(guards) - {op}
    {
      Await(atEvidence);
      if report.None? {
        guards := guards - {op};
        return false;
      }
      GuardWithEvidence(op, report.value);
      if op !in guards {
        return false;
      }
      passed := GuardRequested(op, validated, atPolicy);
    }

    method GuardRequested(op: nat, validated: bool, atPolicy: Stores) returns (passed: bool)
      requires op in guards && guards[op].GuardAwaitsPolicy?
      modifies `relay, `world, `guards, `answered, `log
      ensures var g := old(guards[op]);
        && (passed <==> validated && StillCurrent(atPolicy.world, atPolicy.relay.rows, g.threadId, g.entered))
        && log == old(log) + (if passed
                              then [GuardPassed(op, atPolicy.world, atPolicy.relay.rows, g.threadId, g.entered, g.report)]
                              else [])
        && (passed ==> Answer(op, g.entered.plan, g.report.requested) in answered)
      ensures guards == old(guards) - {op}
    {
      Await(atPolicy);
      if !validated {
        guards := guards - {op};
        return false;
      }
      passed := GuardWithPolicy(op);
    }
  }
}
