/**
  Capacity recovery in src/server/composition.ts: a timer per recovering session, then a task that
  recycles its runtime, and the shutdown that stops the timers and drains the tasks.

  Each step runs without interruption; any steps may come between two of them. The class below is
  the imperative form, and is proved to make exactly these steps.
*/
module CapacityRecovery {
  /** A task that has not run yet, or one awaiting the runtime's recycle. */
  datatype Phase = Queued | Recycling
  datatype Task = Task(number: nat, phase: Phase)

  /** onClose: nothing yet; closing is set; the timers are cleared and these tasks awaited; closed. */
  datatype Shutdown = Running | Closing | Draining(awaited: set<nat>) | Closed

  datatype Outcome = Restored | NeedsAttention | SessionGone

  datatype Relay = Relay(
    shutdown: Shutdown,
    recoveries: set<string>,
    timers: set<string>,
    tasks: map<string, Task>,
    next: nat,
    /** Sessions saved by recovery, in order. */
    saves: seq<string>)

  datatype Action =
    | Schedule(id: string, acknowledged: bool)
    | TimerFires(id: string)
    /** `recoverable`: the session exists, is active and has a thread, and beginRecovery did not throw. */
    | TaskStarts(id: string, recoverable: bool)
    | RecycleSettles(id: string, outcome: Outcome)
    | BeginClose
    | ClearTimers
    | CloseDatabase

  function Init(): Relay {
    Relay(Running, {}, {}, map[], 0, [])
  }

  predicate Schedules(r: Relay, id: string, acknowledged: bool) {
    r.shutdown.Running? && id !in r.recoveries && acknowledged
  }

  /** The `finally` of a task. */
  function Finished(r: Relay, id: string): Relay {
    r.(recoveries := r.recoveries - {id}, tasks := r.tasks - {id})
  }

  function Started(r: Relay, id: string, recoverable: bool): Relay
    requires id in r.tasks
  {
    if !r.shutdown.Running? || !recoverable then Finished(r, id)
    else r.(tasks := r.tasks[id := r.tasks[id].(phase := Recycling)], saves := r.saves + [id])
  }

  function Settled(r: Relay, id: string, outcome: Outcome): Relay {
    Finished(if outcome.SessionGone? then r else r.(saves := r.saves + [id]), id)
  }

  function Numbers(tasks: map<string, Task>): set<nat> {
    set id | id in tasks :: tasks[id].number
  }

  /** Promise.allSettled has resolved. */
  predicate Drained(r: Relay) {
    r.shutdown.Draining? && r.shutdown.awaited !! Numbers(r.tasks)
  }

  function Next(r: Relay, a: Action): Relay {
    match a
    case Schedule(id, acknowledged) =>
      if !Schedules(r, id, acknowledged) then r
      else r.(recoveries := r.recoveries + {id}, timers := r.timers + {id})
    case TimerFires(id) =>
      if id !in r.timers then r
      else r.(timers := r.timers - {id}, tasks := r.tasks[id := Task(r.next, Queued)], next := r.next + 1)
    case TaskStarts(id, recoverable) =>
      if id in r.tasks && r.tasks[id].phase.Queued? then Started(r, id, recoverable) else r
    case RecycleSettles(id, outcome) =>
      if id in r.tasks && r.tasks[id].phase.Recycling? then Settled(r, id, outcome) else r
    case BeginClose => if r.shutdown.Running? then r.(shutdown := Closing) else r
    case ClearTimers =>
      if !r.shutdown.Closing? then r
      else r.(recoveries := r.recoveries - r.timers, timers := {}, shutdown := Draining(Numbers(r.tasks)))
    case CloseDatabase => if Drained(r) then r.(shutdown := Closed) else r
  }

  function Run(r: Relay, actions: seq<Action>): Relay {
    if actions == [] then r else Next(Run(r, actions[..|actions| - 1]), actions[|actions| - 1])
  }

  /** Every recovering session has either a timer or a task, and nothing else has either. */
  predicate Partitioned(r: Relay) {
    r.recoveries == r.timers + r.tasks.Keys && r.timers !! r.tasks.Keys
  }

  predicate Inv(r: Relay) {
    && Partitioned(r)
    && (forall id | id in r.tasks :: r.tasks[id].number < r.next)
    && (r.shutdown.Draining? ==> r.timers == {} && Numbers(r.tasks) <= r.shutdown.awaited)
    && (r.shutdown.Closed? ==> r.recoveries == {})
  }

  lemma StepInv(r: Relay, a: Action)
    requires Inv(r)
    ensures Inv(Next(r, a))
  {
    match a
    case TaskStarts(id, recoverable) =>
      if id in r.tasks { assert r.tasks[id].number in Numbers(r.tasks); }
    case CloseDatabase =>
      if Drained(r) { NothingLeft(r); }
    case _ =>
  }

  lemma NothingLeft(r: Relay)
    requires Partitioned(r) && r.timers == {} && Drained(r) && Numbers(r.tasks) <= r.shutdown.awaited
    ensures r.tasks == map[] && r.recoveries == {}
  {
    assert forall id | id in r.tasks :: r.tasks[id].number in Numbers(r.tasks);
    assert r.tasks.Keys == {};
  }

  lemma {:induction false} RunInv(actions: seq<Action>)
    ensures Inv(Run(Init(), actions))
  {
    if actions != [] {
      RunInv(actions[..|actions| - 1]);
      StepInv(Run(Init(), actions[..|actions| - 1]), actions[|actions| - 1]);
    }
  }

  /**
    At every step the recovering sessions are the disjoint union of those with an armed timer and
    those with a running task; at most one recycle per session is under way.
  */
  lemma {:induction false} RecoveryLifeCycle(actions: seq<Action>)
    ensures var r := Run(Init(), actions);
      && r.recoveries == r.timers + r.tasks.Keys && r.timers !! r.tasks.Keys
      && (forall id, acknowledged | id in r.recoveries :: Next(r, Schedule(id, acknowledged)) == r)
  {
    RunInv(actions);
  }

  /** Once the drain is over nothing is left of any recovery, so the database closes on none. */
  lemma DrainEmpties(actions: seq<Action>)
    requires Drained(Run(Init(), actions))
    ensures var r := Run(Init(), actions); r.recoveries == {} && r.timers == {} && r.tasks == map[]
  {
    RunInv(actions);
    NothingLeft(Run(Init(), actions));
  }

  /** A step of some task: it starts, or its recycle settles. */
  predicate IsTaskStep(a: Action) {
    a.TaskStarts? || a.RecycleSettles?
  }

  lemma RunFirst(r: Relay, a: Action, rest: seq<Action>)
    ensures Run(r, [a] + rest) == Run(Next(r, a), rest)
  {
    if rest == [] {
      assert ([a] + rest)[..0] == [] && [a] + rest == [a];
    } else {
      assert ([a] + rest)[..|rest|] == [a] + rest[..|rest| - 1];
      RunFirst(r, a, rest[..|rest| - 1]);
    }
  }

  /** The drain needs nothing but its tasks: letting each of them finish always completes it. */
  lemma {:induction false} DrainCompletes(r: Relay) returns (steps: seq<Action>)
    requires Inv(r) && r.shutdown.Draining?
    ensures Drained(Run(r, steps)) && forall i | 0 <= i < |steps| :: IsTaskStep(steps[i])
    decreases |r.tasks|
  {
    if r.tasks == map[] {
      return [];
    }
    var id :| id in r.tasks;
    var a := if r.tasks[id].phase.Queued? then TaskStarts(id, false) else RecycleSettles(id, SessionGone);
    StepInv(r, a);
    var rest := DrainCompletes(Next(r, a));
    RunFirst(r, a, rest);
    steps := [a] + rest;
  }

  /** After the database has closed, no step saves a session or starts anything. */
  lemma {:induction false} ClosedForGood(before: seq<Action>, after: seq<Action>)
    requires Run(Init(), before).shutdown.Closed?
    ensures Run(Run(Init(), before), after) == Run(Init(), before)
  {
    RunInv(before);
    if after != [] {
      ClosedForGood(before, after[..|after| - 1]);
    }
  }

  /** A recovery saves its session at most once when it starts and once when its recycle settles. */
  lemma SavesAreTasks(actions: seq<Action>, a: Action)
    ensures var r := Run(Init(), actions); var n := Next(r, a);
      n.saves != r.saves ==>
        && (a.TaskStarts? || a.RecycleSettles?) && n.saves == r.saves + [a.id]
        && a.id in r.tasks && r.tasks[a.id].phase == (if a.TaskStarts? then Queued else Recycling)
        && !r.shutdown.Closed? && (a.TaskStarts? ==> r.shutdown.Running?)
  {
    RunInv(actions);
  }

  // ----- What each step does -----

  predicate In(r: Relay, id: string, phase: Phase) {
    id in r.tasks && r.tasks[id].phase == phase
  }

  /** A recovery is scheduled exactly for an acknowledged session without one, before closing. */
  lemma ScheduleExactly(r: Relay, id: string, acknowledged: bool)
    ensures Next(r, Schedule(id, acknowledged)) ==
      if acknowledged && r.shutdown == Running && id !in r.recoveries
      then Relay(r.shutdown, r.recoveries + {id}, r.timers + {id}, r.tasks, r.next, r.saves) else r
  {
  }

  /** A timer that fires becomes a queued task of its own number. */
  lemma TimerFiresExactly(r: Relay, id: string)
    ensures Next(r, TimerFires(id)) ==
      if id in r.timers
      then Relay(r.shutdown, r.recoveries, r.timers - {id}, r.tasks[id := Task(r.next, Queued)], r.next + 1, r.saves) else r
  {
  }

  /** A queued task saves its session and recycles exactly while running and recoverable; else it is forgotten unsaved. */
  lemma TaskStartsExactly(r: Relay, id: string, recoverable: bool)
    ensures Next(r, TaskStarts(id, recoverable)) ==
      if !In(r, id, Queued) then r
      else if recoverable && r.shutdown == Running
      then Relay(r.shutdown, r.recoveries, r.timers, r.tasks[id := Task(r.tasks[id].number, Recycling)], r.next, r.saves + [id])
      else Relay(r.shutdown, r.recoveries - {id}, r.timers, r.tasks - {id}, r.next, r.saves)
  {
  }

  /** A recycle that settles is forgotten, and saves its session exactly if that is still there. */
  lemma RecycleSettlesExactly(r: Relay, id: string, outcome: Outcome)
    ensures Next(r, RecycleSettles(id, outcome)) ==
      if !In(r, id, Recycling) then r
      else Relay(r.shutdown, r.recoveries - {id}, r.timers, r.tasks - {id}, r.next,
                 if outcome == Restored || outcome == NeedsAttention then r.saves + [id] else r.saves)
  {
  }

  /** Closing forgets what has only a timer and awaits exactly the tasks that are left. */
  lemma ClearTimersExactly(r: Relay)
    requires r.shutdown == Closing
    ensures var n := Next(r, ClearTimers);
      && n.shutdown.Draining? && n.timers == {} && n.recoveries == r.recoveries - r.timers
      && n.tasks == r.tasks && n.next == r.next && n.saves == r.saves
      && forall k :: k in n.shutdown.awaited <==> exists id | id in r.tasks :: r.tasks[id].number == k
  {
  }

  /** The number of times a run saves a session: its recycles, and its settlements that found it. */
  function Saved(actions: seq<Action>, id: string): nat {
    if actions == [] then 0
    else
      var earlier := actions[..|actions| - 1];
      Saved(earlier, id) + (if Saves(Run(Init(), earlier), actions[|actions| - 1], id) then 1 else 0)
  }

  predicate Saves(r: Relay, a: Action, id: string) {
    match a
    case TaskStarts(target, recoverable) => target == id && recoverable && r.shutdown == Running && In(r, id, Queued)
    case RecycleSettles(target, outcome) => target == id && outcome != SessionGone && In(r, id, Recycling)
    case _ => false
  }

  /** Every save is accounted for, and every step that should save does, once. */
  lemma {:induction false} SavesAccount(actions: seq<Action>, id: string)
    ensures multiset(Run(Init(), actions).saves)[id] == Saved(actions, id)
  {
    if actions != [] {
      var earlier := actions[..|actions| - 1];
      SavesAccount(earlier, id);
      var r, a := Run(Init(), earlier), actions[|actions| - 1];
      match a
      case TaskStarts(target, recoverable) => TaskStartsExactly(r, target, recoverable);
      case RecycleSettles(target, outcome) => RecycleSettlesExactly(r, target, outcome);
      case _ => assert Next(r, a).saves == r.saves;
    }
  }

  // ----- The imperative form -----

  class CapacityRecoveries {
    var shutdown: Shutdown
    var capacityRecoveries: set<string>
    var capacityRecoveryTimers: set<string>
    var capacityRecoveryTasks: map<string, Task>
    var next: nat
    var saves: seq<string>

    ghost function View(): Relay
      reads this
    {
      Relay(shutdown, capacityRecoveries, capacityRecoveryTimers, capacityRecoveryTasks, next, saves)
    }

    constructor ()
      ensures View() == Init()
    {
      shutdown, capacityRecoveries, capacityRecoveryTimers := Running, {}, {};
      capacityRecoveryTasks, next, saves := map[], 0, [];
    }

    method ScheduleRecovery(id: string, acknowledged: bool) returns (scheduled: bool)
      modifies `capacityRecoveries, `capacityRecoveryTimers
      ensures View() == Next(old(View()), Schedule(id, acknowledged))
      ensures scheduled <==> Schedules(old(View()), id, acknowledged)
    {
      if !shutdown.Running? || id in capacityRecoveries || !acknowledged {
        return false;
      }
      capacityRecoveries := capacityRecoveries + {id};
      capacityRecoveryTimers := capacityRecoveryTimers + {id};
      return true;
    }

    method TimerFired(id: string)
      requires id in capacityRecoveryTimers
      modifies `capacityRecoveryTimers, `capacityRecoveryTasks, `next
      ensures View() == Next(old(View()), TimerFires(id))
    {
      capacityRecoveryTimers := capacityRecoveryTimers - {id};
      capacityRecoveryTasks := capacityRecoveryTasks[id := Task(next, Queued)];
      next := next + 1;
    }

    /** A task up to its await of the runtime's recycle, which `recycling` reports. */
    method StartTask(id: string, recoverable: bool) returns (recycling: bool)
      requires id in capacityRecoveryTasks && capacityRecoveryTasks[id].phase.Queued?
      modifies `capacityRecoveries, `capacityRecoveryTasks, `saves
      ensures View() == Next(old(View()), TaskStarts(id, recoverable))
      ensures recycling <==> shutdown.Running? && recoverable
    {
      if !shutdown.Running? || !recoverable {
        FinishTask(id);
        return false;
      }
      SaveSession(id);
      capacityRecoveryTasks := capacityRecoveryTasks[id := capacityRecoveryTasks[id].(phase := Recycling)];
      return true;
    }

    method RecycleSettled(id: string, outcome: Outcome)
      requires id in capacityRecoveryTasks && capacityRecoveryTasks[id].phase.Recycling?
      modifies `capacityRecoveries, `capacityRecoveryTasks, `saves
      ensures View() == Next(old(View()), RecycleSettles(id, outcome))
    {
      if !outcome.SessionGone? {
        SaveSession(id);
      }
      FinishTask(id);
    }

    method FinishTask(id: string)
      modifies `capacityRecoveries, `capacityRecoveryTasks
      ensures View() == Finished(old(View()), id)
    {
      capacityRecoveries := capacityRecoveries - {id};
      capacityRecoveryTasks := capacityRecoveryTasks - {id};
    }

    method SaveSession(id: string)
      modifies `saves
      ensures View() == old(View()).(saves := old(saves) + [id])
    {
      saves := saves + [id];
    }

    method SetClosing()
      modifies `shutdown
      ensures View() == Next(old(View()), BeginClose)
    {
      if shutdown.Running? {
        shutdown := Closing;
      }
    }

    /** The loop of onClose over the armed timers, and the tasks its allSettled then awaits. */
    method StopTimers() returns (awaited: set<nat>)
      requires shutdown.Closing?
      modifies `shutdown, `capacityRecoveries, `capacityRecoveryTimers
      ensures View() == Next(old(View()), ClearTimers)
      ensures awaited == Numbers(capacityRecoveryTasks)
    {
      var rest := capacityRecoveryTimers;
      while rest != {}
        invariant rest <= capacityRecoveryTimers == old(capacityRecoveryTimers) && shutdown == old(shutdown)
        invariant capacityRecoveries == old(capacityRecoveries) - (capacityRecoveryTimers - rest)
        decreases rest
      {
        var id :| id in rest;
        capacityRecoveries := capacityRecoveries - {id};
        rest := rest - {id};
      }
      capacityRecoveryTimers := {};
      awaited := set id | id in capacityRecoveryTasks :: capacityRecoveryTasks[id].number;
      shutdown := Draining(awaited);
    }

    /** Runs once allSettled has resolved. */
    method CloseStore()
      requires Drained(View())
      modifies `shutdown
      ensures View() == Next(old(View()), CloseDatabase)
    {
      shutdown := Closed;
    }
  }
}
