/**
  Which plan may run automatically, and which of its steps comes next
  (src/server/features/plans/domain/model-policy-admission.ts and supervised-plan.ts).
*/
module PlanAdmission {
  import opened Wrappers

  datatype StepState = Todo | Wip | Done | Suspended

  /** `admissible` is what the model and effort checks say of a policy. */
  datatype Policy = Policy(version: nat, admissible: bool, settings: string)
  datatype Step = Step(id: string, state: StepState, children: seq<string>, policy: Option<Policy>)
  datatype Assurance = Configured | RuntimeAttested | UnknownAssurance

  /** `content` is the rest of the plan, which only the plan fence looks at. */
  datatype Plan = Plan(
    version: Option<nat>, assurance: Option<Assurance>, currentStepId: string, steps: seq<Step>, content: string)

  datatype PolicyStatus = Legacy | Required | Unavailable

  /** requireModelPolicyAdmission does not throw. */
  predicate Admits(plan: Option<Plan>, status: PolicyStatus) {
    if status.Unavailable? then false
    else if plan.None? then status.Legacy?
    else if plan.value.version.None? && status.Legacy? && forall s | s in plan.value.steps :: s.policy.None? then true
    else
      && plan.value.version == Some(1)
      && plan.value.steps != []
      && (forall s | s in plan.value.steps :: s.policy.Some? && s.policy.value.version == 1)
      && (forall s | s in plan.value.steps :: s.policy.value.admissible)
      && plan.value.assurance.GetOr(Configured).Configured?
  }

  /** The first index at or after `from` that satisfies p. */
  function FindIndex(steps: seq<Step>, from: nat, p: (nat, Step) -> bool): (r: Option<nat>)
    requires from <= |steps|
    ensures r.Some? ==> from <= r.value < |steps| && p(r.value, steps[r.value])
    ensures forall k: nat | from <= k < (if r.Some? then r.value else |steps|) :: !p(k, steps[k])
    decreases |steps| - from
  {
    if from == |steps| then None
    else if p(from, steps[from]) then Some(from)
    else FindIndex(steps, from + 1, p)
  }

  predicate Eligible(plan: Plan, index: nat) {
    var boundary := FindIndex(plan.steps, 0, (k, s: Step) => s.state.Suspended?);
    boundary.None? || index < boundary.value
  }

  predicate IsCurrent(plan: Plan, s: Step) {
    s.id == plan.currentStepId || plan.currentStepId in s.children || s.state.Wip?
  }

  function CurrentL1(plan: Plan): Option<nat> {
    var selected := FindIndex(plan.steps, 0, (k: nat, s) => Eligible(plan, k) && IsCurrent(plan, s));
    if selected.Some? then selected
    else FindIndex(plan.steps, 0, (k: nat, s: Step) => Eligible(plan, k) && !s.state.Done?)
  }

  /** Suspended work is a barrier: the step selected, and every step before it, is not suspended. */
  lemma SuspensionIsBarrier(plan: Plan)
    ensures CurrentL1(plan).Some? ==>
      && CurrentL1(plan).value < |plan.steps|
      && forall k | 0 <= k <= CurrentL1(plan).value :: !plan.steps[k].state.Suspended?
  {
    var isSuspended := (k: nat, s: Step) => s.state.Suspended?;
    var boundary := FindIndex(plan.steps, 0, isSuspended);
    if CurrentL1(plan).Some? {
      assert Eligible(plan, CurrentL1(plan).value);
      forall k | 0 <= k <= CurrentL1(plan).value ensures !plan.steps[k].state.Suspended? {
        assert !isSuspended(k, plan.steps[k]);
      }
    }
  }

  /** Nothing is selected exactly when each step is behind the barrier, or done and not the current one. */
  lemma NothingExecutable(plan: Plan)
    ensures CurrentL1(plan).None? <==>
      forall k: nat | k < |plan.steps| && Eligible(plan, k) :: plan.steps[k].state.Done? && !IsCurrent(plan, plan.steps[k])
  {
    var current := (k: nat, s) => Eligible(plan, k) && IsCurrent(plan, s);
    var undone := (k: nat, s: Step) => Eligible(plan, k) && !s.state.Done?;
    if CurrentL1(plan).None? {
      forall k: nat | k < |plan.steps| && Eligible(plan, k)
        ensures plan.steps[k].state.Done? && !IsCurrent(plan, plan.steps[k])
      {
        assert !current(k, plan.steps[k]) && !undone(k, plan.steps[k]);
      }
    }
  }

  /** No step up to this one is suspended. */
  predicate BeforeBarrier(plan: Plan, k: nat) {
    k < |plan.steps| && forall j | 0 <= j <= k :: !plan.steps[j].state.Suspended?
  }

  /** Work points at this step: it is in progress, or it or one of its children has the current id. */
  predicate PointedAt(plan: Plan, k: nat)
    requires k < |plan.steps|
  {
    || plan.steps[k].state.Wip? || plan.steps[k].id == plan.currentStepId
    || exists c | c in plan.steps[k].children :: c == plan.currentStepId
  }

  /**
    The step that comes next: before the first suspended step, the first one work points at; where
    it points at none of these, the first that is not done.
  */
  ghost predicate IsNext(plan: Plan, i: nat) {
    && BeforeBarrier(plan, i)
    && if exists k: nat :: BeforeBarrier(plan, k) && PointedAt(plan, k)
       then PointedAt(plan, i) && forall k: nat | k < i :: !PointedAt(plan, k)
       else !plan.steps[i].state.Done? && forall k: nat | k < i :: plan.steps[k].state.Done?
  }

  lemma EligibleExactly(plan: Plan, k: nat)
    requires k < |plan.steps|
    ensures Eligible(plan, k) <==> BeforeBarrier(plan, k)
  {
    var isSuspended := (k: nat, s: Step) => s.state.Suspended?;
    var boundary := FindIndex(plan.steps, 0, isSuspended);
    assert forall j: nat | j < |plan.steps| :: isSuspended(j, plan.steps[j]) == plan.steps[j].state.Suspended?;
    if boundary.Some? && boundary.value <= k {
      assert isSuspended(boundary.value, plan.steps[boundary.value]);
    }
  }

  /** The search selects the next step, and nothing exactly when there is none. */
  lemma SelectsNextExactly(plan: Plan)
    ensures forall i: nat :: CurrentL1(plan) == Some(i) <==> IsNext(plan, i)
    ensures CurrentL1(plan).None? <==>
      forall k: nat | BeforeBarrier(plan, k) :: plan.steps[k].state.Done? && !PointedAt(plan, k)
  {
    var current := (k: nat, s) => Eligible(plan, k) && IsCurrent(plan, s);
    var undone := (k: nat, s: Step) => Eligible(plan, k) && !s.state.Done?;
    forall k: nat | k < |plan.steps|
      ensures current(k, plan.steps[k]) <==> BeforeBarrier(plan, k) && PointedAt(plan, k)
      ensures undone(k, plan.steps[k]) <==> BeforeBarrier(plan, k) && !plan.steps[k].state.Done?
    {
      EligibleExactly(plan, k);
    }
    assert forall i: nat, k: nat | BeforeBarrier(plan, i) && k < i :: BeforeBarrier(plan, k);
    assert CurrentL1(plan) == (var r := FindIndex(plan.steps, 0, current);
                               if r.Some? then r else FindIndex(plan.steps, 0, undone));
  }

  /** The policy an automatic start must have validated. */
  function SelectedPolicy(plan: Option<Plan>): Option<Policy> {
    if plan.None? || plan.value.version != Some(1) || CurrentL1(plan.value).None? then None
    else plan.value.steps[CurrentL1(plan.value).value].policy
  }

  /** An admitted plan with policies has one for the step that comes next. */
  lemma AdmittedPlansSelectPolicies(plan: Plan, status: PolicyStatus)
    requires Admits(Some(plan), status) && CurrentL1(plan).Some?
    ensures SelectedPolicy(Some(plan)).None? <==> forall s | s in plan.steps :: s.policy.None?
    ensures SelectedPolicy(Some(plan)).Some? ==> SelectedPolicy(Some(plan)).value.admissible
  {
    assert plan.steps[CurrentL1(plan).value] in plan.steps;
  }

  /** The policy to validate is that of the next step of a versioned plan; without either there is none. */
  lemma SelectedPolicyExactly(plan: Plan, i: nat)
    requires IsNext(plan, i)
    ensures SelectedPolicy(Some(plan)) == if plan.version == Some(1) then plan.steps[i].policy else None
  {
    SelectsNextExactly(plan);
    assert CurrentL1(plan) == Some(i);
  }

  /** Why a plan is not admitted, in the order the assessment asks. */
  datatype Reason =
    | ProjectionUnavailable | VersionUnsupported | FieldsInvalid | PolicyProhibited | AssuranceUnsupported

  function Assess(plan: Option<Plan>, status: PolicyStatus): Option<Reason> {
    if status.Unavailable? then Some(ProjectionUnavailable)
    else if plan.None? then (if status.Legacy? then None else Some(VersionUnsupported))
    else AssessSteps(plan.value.version, plan.value.steps, plan.value.assurance, status)
  }

  function AssessSteps(version: Option<nat>, steps: seq<Step>, assurance: Option<Assurance>, status: PolicyStatus): Option<Reason> {
    if version.None? && status.Legacy? && (forall i | 0 <= i < |steps| :: steps[i].policy.None?) then None
    else if version != Some(1) then Some(VersionUnsupported)
    else if steps == [] || (exists i | 0 <= i < |steps| :: steps[i].policy.None? || steps[i].policy.value.version != 1)
    then Some(FieldsInvalid)
    else if exists i | 0 <= i < |steps| :: !steps[i].policy.value.admissible then Some(PolicyProhibited)
    else if assurance.Some? && !assurance.value.Configured? then Some(AssuranceUnsupported)
    else None
  }

  /** A plan is admitted exactly when the assessment finds no reason against it. */
  lemma AdmitsExactly(plan: Option<Plan>, status: PolicyStatus)
    ensures Admits(plan, status) <==> Assess(plan, status).None?
  {
    if plan.Some? {
      var steps := plan.value.steps;
      assert forall i | 0 <= i < |steps| :: steps[i] in steps;
    }
  }
}
