/** Every interleaving of waiters, failure reporters, submitters and drainers of one supervisor. */
module SupervisorRuns {
  import opened Options
  import opened Supervisor

  // A caller of Wait that holds a task, between the lock regions of Wait.
  datatype WaiterAt = AwaitingTask | RecordingWait(error: nat) | StoppingAfterWait | ReleasingWait

  // The holder of the drain mutex, between the lock regions of Drain. It sleeps on the condition variable
  // until the last consumer notifies it or it wakes for no reason, and then looks again.
  datatype DrainerAt =
    | NoDrainer
    | AwaitingTasks(tasks: seq<TaskId>)
    | RecordingTask(tasks: seq<TaskId>, error: nat)
    | StoppingAfterTask(tasks: seq<TaskId>)
    | BeginningJobs
    | FinishingJobs
    | RecordingJobs(error: nat)
    | StoppingAfterJobs
    | CheckingConsumers
    | SleepingForConsumers

  // `waited` lists the handles waited on, in order; `broken` says an internal call threw.
  datatype System = System(core: Core, waiters: map<TaskId, WaiterAt>, drainer: DrainerAt, waited: seq<TaskId>, broken: bool)

  datatype Event =
    | StartCalled | SubmitCalled | WaitCalled(id: TaskId)
    | TaskFinished(id: TaskId, error: Option<nat>) | WaitRecords(id: TaskId) | WaitStops(id: TaskId) | WaitReleases(id: TaskId)
    | FailureReported(failure: Failure) | StopRequestedCalled
    | DrainCalled | DrainedTaskFinished(error: Option<nat>) | DrainRecordsTask | DrainStopsTask | DrainClears
    | DrainBeginsJobs | DrainFinishesJobs(error: Option<nat>) | DrainRecordsJobs | DrainStopsJobs | DrainChecks | DrainWakes

  function Init(): System {
    System(Core(Starting, None, [], 1, 0, JobsRunning), map[], NoDrainer, [], false)
  }

  predicate WaiterIs(s: System, id: TaskId, at: WaiterAt) {
    id in s.waiters && s.waiters[id] == at
  }

  predicate Enabled(s: System, e: Event) {
    match e
    case TaskFinished(id, _) => WaiterIs(s, id, AwaitingTask)
    case WaitRecords(id) => id in s.waiters && s.waiters[id].RecordingWait?
    case WaitStops(id) => WaiterIs(s, id, StoppingAfterWait)
    case WaitReleases(id) => WaiterIs(s, id, ReleasingWait)
    case DrainCalled => s.drainer == NoDrainer
    case DrainedTaskFinished(_) => s.drainer.AwaitingTasks? && s.drainer.tasks != []
    case DrainRecordsTask => s.drainer.RecordingTask?
    case DrainStopsTask => s.drainer.StoppingAfterTask?
    case DrainClears => s.drainer == AwaitingTasks([])
    case DrainBeginsJobs => s.drainer == BeginningJobs
    case DrainFinishesJobs(_) => s.drainer == FinishingJobs
    case DrainRecordsJobs => s.drainer.RecordingJobs?
    case DrainStopsJobs => s.drainer == StoppingAfterJobs
    case DrainChecks => s.drainer == CheckingConsumers
    case DrainWakes => s.drainer == SleepingForConsumers
    case _ => true
  }

  function Notified(d: DrainerAt): DrainerAt {
    if d == SleepingForConsumers then CheckingConsumers else d
  }

  function Internally(s: System, outcome: (Outcome, Core)): System {
    s.(core := outcome.1, broken := s.broken || outcome.0.Throws?)
  }

  function After(s: System, e: Event): System
    requires Enabled(s, e)
  {
    match e
    case StartCalled => s.(core := Start(s.core).1)
    case SubmitCalled => s.(core := Submit(s.core).1)
    case WaitCalled(id) =>
      var (result, core) := Take(s.core, id);
      if result == Done then s.(core := core, waiters := s.waiters[id := AwaitingTask]) else s
    case TaskFinished(id, error) =>
      var at := if error.Some? then RecordingWait(error.value) else ReleasingWait;
      s.(waiters := s.waiters[id := at], waited := s.waited + [id])
    case WaitRecords(id) =>
      Internally(s, RecordFailure(s.core, Failure(JobSource, s.waiters[id].error))).(waiters := s.waiters[id := StoppingAfterWait])
    case WaitStops(id) => s.(core := RequestStop(s.core), waiters := s.waiters[id := ReleasingWait])
    case WaitReleases(id) =>
      var (result, core, notifies) := ReleaseConsumer(s.core);
      Internally(s, (result, core)).(waiters := s.waiters - {id}, drainer := if notifies then Notified(s.drainer) else s.drainer)
    case FailureReported(failure) => s.(core := RecordFailure(s.core, failure).1)
    case StopRequestedCalled => s.(core := RequestStop(s.core))
    case DrainCalled =>
      var (tasks, core) := BeginDrain(s.core);
      if tasks.None? then s else s.(core := core, drainer := AwaitingTasks(tasks.value))
    case DrainedTaskFinished(error) =>
      var rest := s.drainer.tasks[1..];
      s.(waited := s.waited + [s.drainer.tasks[0]],
         drainer := if error.Some? then RecordingTask(rest, error.value) else AwaitingTasks(rest))
    case DrainRecordsTask =>
      Internally(s, RecordFailure(s.core, Failure(JobSource, s.drainer.error))).(drainer := StoppingAfterTask(s.drainer.tasks))
    case DrainStopsTask => s.(core := RequestStop(s.core), drainer := AwaitingTasks(s.drainer.tasks))
    case DrainClears => s.(core := s.core.(pending := []), drainer := BeginningJobs)
    case DrainBeginsJobs =>
      s.(core := s.core.(jobs := JobsAfterDrainBegin(s.core.jobs)),
         drainer := if s.core.jobs == JobsStopped then CheckingConsumers else FinishingJobs)
    case DrainFinishesJobs(error) =>
      if error.Some? then s.(drainer := RecordingJobs(error.value))
      else s.(core := s.core.(jobs := JobsStopped), drainer := CheckingConsumers)
    case DrainRecordsJobs =>
      Internally(s, RecordFailure(s.core, Failure(JobSource, s.drainer.error))).(drainer := StoppingAfterJobs)
    case DrainStopsJobs => s.(core := RequestStop(s.core), drainer := CheckingConsumers)
    case DrainChecks =>
      var (ended, core) := EndDrain(s.core);
      s.(core := core, drainer := if ended then NoDrainer else SleepingForConsumers)
    case DrainWakes => s.(drainer := CheckingConsumers)
  }

  // ------------------------------------------------------------------
  // The invariant
  // ------------------------------------------------------------------

  function DrainerTasks(d: DrainerAt): seq<TaskId> {
    match d
    case AwaitingTasks(tasks) => tasks
    case RecordingTask(tasks, _) => tasks
    case StoppingAfterTask(tasks) => tasks
    case _ => []
  }

  // Tasks held by callers of Wait that have not waited on them yet.
  ghost function HeldTasks(waiters: map<TaskId, WaiterAt>): set<TaskId> {
    set id | id in waiters && waiters[id] == AwaitingTask
  }

  // Where every handle is: pending, held by a waiter, held by the drainer, or waited on.
  ghost function Places(s: System): multiset<TaskId> {
    multiset(s.core.pending) + multiset(HeldTasks(s.waiters)) + multiset(DrainerTasks(s.drainer)) + multiset(s.waited)
  }

  // Each id handed out, once.
  ghost function Issued(nextId: TaskId): multiset<TaskId> {
    if nextId <= 1 then multiset{} else Issued(nextId - 1) + multiset{nextId - 1}
  }

  predicate IsTerminal(state: Lifecycle) {
    state == Stopped || state == Failed
  }

  ghost predicate Accounted(s: System) {
    s.core.nextId >= 1 && Places(s) == Issued(s.core.nextId)
  }

  ghost predicate Counted(s: System) {
    && s.core.consumers == |s.waiters|
    && (forall id :: id in s.waiters && s.waiters[id] != AwaitingTask ==> id in s.waited)
  }

  // What each lifecycle state says about the rest of the supervisor.
  predicate Lawful(c: Core) {
    && (c.state == Starting || c.state == Running ==> c.jobs == JobsRunning)
    && (c.state == Starting || c.state == Running || c.state == Stopped ==> c.failure.None?)
    && (c.state == Failed ==> c.failure.Some?)
    && (c.state == Draining || IsTerminal(c.state) ==> c.pending == [])
  }

  // What it says about the threads inside Wait and Drain.
  predicate Orderly(s: System) {
    && !s.broken
    && (IsTerminal(s.core.state) ==> s.waiters == map[] && DrainerTasks(s.drainer) == [] && !s.drainer.RecordingTask?)
    && (s.drainer != NoDrainer ==> s.core.state == Draining || s.core.state == Failed)
    && (s.drainer == SleepingForConsumers ==> s.core.consumers > 0)
  }

  ghost predicate Inv(s: System) {
    Accounted(s) && Counted(s) && Lawful(s.core) && Orderly(s)
  }

  lemma InitHolds()
    ensures Inv(Init())
  {
    assert HeldTasks(map[]) == {};
  }

  lemma {:induction false} WithoutRemovesOne(pending: seq<TaskId>, id: TaskId)
    requires id in pending
    ensures multiset(Without(pending, id)) + multiset{id} == multiset(pending)
  {
    assert pending == [pending[0]] + pending[1..];
    if pending[0] != id {
      WithoutRemovesOne(pending[1..], id);
    }
  }

  // An id that is somewhere is there once.
  lemma {:induction false} IssuedOnce(nextId: TaskId, id: TaskId)
    ensures Issued(nextId)[id] == if 1 <= id < nextId then 1 else 0
  {
    if nextId > 1 {
      IssuedOnce(nextId - 1, id);
    }
  }

  lemma PlacedOnce(s: System, id: TaskId)
    requires Accounted(s)
    ensures multiset(s.core.pending)[id] + multiset(HeldTasks(s.waiters))[id] +
      multiset(DrainerTasks(s.drainer))[id] + multiset(s.waited)[id] <= 1
  {
    IssuedOnce(s.core.nextId, id);
    assert Places(s)[id] <= 1;
  }

  // ------------------------------------------------------------------
  // Every event keeps it
  // ------------------------------------------------------------------

  lemma OneMorePlaced(pending: multiset<TaskId>, rest: multiset<TaskId>, id: TaskId)
    ensures pending + multiset{id} + rest == pending + rest + multiset{id}
  {
  }

  lemma SubmitAccounts(s: System)
    requires Accounted(s)
    ensures Accounted(s.(core := s.core.(nextId := s.core.nextId + 1, pending := s.core.pending + [s.core.nextId])))
  {
    hide HeldTasks, DrainerTasks;
    var id := s.core.nextId;
    var rest := multiset(HeldTasks(s.waiters)) + multiset(DrainerTasks(s.drainer)) + multiset(s.waited);
    assert multiset(s.core.pending + [id]) == multiset(s.core.pending) + multiset{id};
    assert Places(s) == multiset(s.core.pending) + rest;
    OneMorePlaced(multiset(s.core.pending), rest, id);
    assert Issued(id + 1) == Issued(id) + multiset{id};
  }

  // A pending task is held by nobody else.
  lemma PendingIsFree(s: System, id: TaskId)
    requires Accounted(s) && Counted(s) && id in s.core.pending
    ensures id !in s.waiters
  {
    PlacedOnce(s, id);
    assert multiset(s.core.pending)[id] > 0;
    assert id !in HeldTasks(s.waiters) && id !in s.waited;
  }

  lemma WaitCalledAccounts(s: System, id: TaskId)
    requires Accounted(s) && id in s.core.pending && id !in s.waiters
    ensures Accounted(s.(core := s.core.(pending := Without(s.core.pending, id), consumers := s.core.consumers + 1),
                         waiters := s.waiters[id := AwaitingTask]))
  {
    WithoutRemovesOne(s.core.pending, id);
    assert HeldTasks(s.waiters[id := AwaitingTask]) == HeldTasks(s.waiters) + {id};
  }

  lemma TaskFinishedAccounts(s: System, id: TaskId, at: WaiterAt)
    requires Accounted(s) && WaiterIs(s, id, AwaitingTask) && at != AwaitingTask
    ensures Accounted(s.(waiters := s.waiters[id := at], waited := s.waited + [id]))
  {
    var held := HeldTasks(s.waiters[id := at]);
    assert HeldTasks(s.waiters) == held + {id} && id !in held;
    assert multiset(HeldTasks(s.waiters)) == multiset(held) + multiset{id};
  }

  lemma DrainCalledAccounts(s: System)
    requires Accounted(s) && s.drainer == NoDrainer
    ensures Accounted(After(s, DrainCalled))
  {
    hide HeldTasks, Issued;
    var s' := After(s, DrainCalled);
    if s'.drainer != NoDrainer {
      var held, waited := multiset(HeldTasks(s.waiters)), multiset(s.waited);
      assert Places(s) == multiset(s.core.pending) + held + waited;
      assert Places(s') == held + multiset(s.core.pending) + waited;
    }
  }

  lemma DrainedTaskAccounts(s: System, error: Option<nat>)
    requires Accounted(s) && Enabled(s, DrainedTaskFinished(error))
    ensures Accounted(After(s, DrainedTaskFinished(error)))
  {
    hide HeldTasks, Issued;
    HandedOver(multiset(s.core.pending) + multiset(HeldTasks(s.waiters)), s.drainer.tasks, s.waited);
  }

  lemma HandedOver(kept: multiset<TaskId>, tasks: seq<TaskId>, waited: seq<TaskId>)
    requires tasks != []
    ensures kept + multiset(tasks[1..]) + multiset(waited + [tasks[0]]) == kept + multiset(tasks) + multiset(waited)
  {
    assert tasks == [tasks[0]] + tasks[1..];
    assert multiset(tasks) == multiset(tasks[1..]) + multiset{tasks[0]};
  }

  // A step that moves no handle.
  lemma NothingMoved(s: System, s': System)
    requires Accounted(s) && s'.core.pending == s.core.pending && s'.core.nextId == s.core.nextId
    requires HeldTasks(s'.waiters) == HeldTasks(s.waiters) && s'.waited == s.waited
    requires DrainerTasks(s'.drainer) == DrainerTasks(s.drainer)
    ensures Accounted(s')
  {
  }

  predicate MovesNothing(e: Event) {
    !e.SubmitCalled? && !e.WaitCalled? && !e.TaskFinished? && !e.DrainCalled? && !e.DrainedTaskFinished?
  }

  lemma SameTasks(s: System, e: Event)
    requires Lawful(s.core) && Orderly(s) && Enabled(s, e) && MovesNothing(e)
    ensures After(s, e).core.pending == s.core.pending && After(s, e).core.nextId == s.core.nextId
    ensures After(s, e).waited == s.waited && DrainerTasks(After(s, e).drainer) == DrainerTasks(s.drainer)
  {
  }

  lemma SameHeld(s: System, e: Event)
    requires Enabled(s, e) && MovesNothing(e)
    ensures HeldTasks(After(s, e).waiters) == HeldTasks(s.waiters)
  {
    if OutsideWait(e) {
      SameWaiters(s, e);
    } else {
      assert HeldTasks(s.waiters[e.id := StoppingAfterWait]) == HeldTasks(s.waiters);
      assert HeldTasks(s.waiters[e.id := ReleasingWait]) == HeldTasks(s.waiters);
      assert HeldTasks(s.waiters - {e.id}) == HeldTasks(s.waiters);
    }
  }

  lemma OthersAccount(s: System, e: Event)
    requires Accounted(s) && Lawful(s.core) && Orderly(s) && Enabled(s, e) && MovesNothing(e)
    ensures Accounted(After(s, e))
  {
    SameTasks(s, e);
    SameHeld(s, e);
    NothingMoved(s, After(s, e));
  }

  lemma WaitCalledHandles(s: System, id: TaskId)
    requires Accounted(s) && Counted(s)
    ensures Accounted(After(s, WaitCalled(id)))
  {
    if Take(s.core, id).0 == Done {
      PendingIsFree(s, id);
      WaitCalledAccounts(s, id);
    }
  }

  lemma HandlesAccounted(s: System, e: Event)
    requires Inv(s) && Enabled(s, e)
    ensures Accounted(After(s, e))
  {
    hide Accounted, Counted, Lawful, Orderly;
    match e {
      case SubmitCalled =>
        if Submit(s.core).0.Submitted? { SubmitAccounts(s); }
      case WaitCalled(id) => WaitCalledHandles(s, id);
      case TaskFinished(id, error) =>
        TaskFinishedAccounts(s, id, if error.Some? then RecordingWait(error.value) else ReleasingWait);
      case DrainCalled => DrainCalledAccounts(s);
      case DrainedTaskFinished(error) => DrainedTaskAccounts(s, error);
      case _ => OthersAccount(s, e);
    }
  }

  lemma WaitCalledCounts(s: System, id: TaskId)
    requires Accounted(s) && Counted(s)
    ensures Counted(After(s, WaitCalled(id)))
  {
    if Take(s.core, id).0 == Done {
      PendingIsFree(s, id);
      assert s.waiters[id := AwaitingTask].Keys == s.waiters.Keys + {id};
    }
  }

  lemma WaitReleasesCounts(s: System, id: TaskId)
    requires Counted(s) && WaiterIs(s, id, ReleasingWait)
    ensures s.core.consumers > 0 && Counted(After(s, WaitReleases(id)))
  {
    assert id in s.waiters.Keys;
    assert (s.waiters - {id}).Keys == s.waiters.Keys - {id};
  }

  lemma WaiterMovesOnCounts(s: System, e: Event)
    requires Counted(s) && Enabled(s, e) && (e.TaskFinished? || e.WaitRecords? || e.WaitStops?)
    ensures Counted(After(s, e))
  {
    assert After(s, e).waiters.Keys == s.waiters.Keys;
    assert s.waited <= After(s, e).waited;
  }

  predicate OutsideWait(e: Event) {
    !e.WaitCalled? && !e.TaskFinished? && !e.WaitRecords? && !e.WaitStops? && !e.WaitReleases?
  }

  lemma SameWaiters(s: System, e: Event)
    requires Enabled(s, e) && OutsideWait(e)
    ensures After(s, e).waiters == s.waiters && s.waited <= After(s, e).waited
    ensures After(s, e).core.consumers == s.core.consumers
  {
  }

  lemma ConsumersCounted(s: System, e: Event)
    requires Accounted(s) && Counted(s) && Enabled(s, e)
    ensures Counted(After(s, e))
  {
    match e {
      case WaitCalled(id) => WaitCalledCounts(s, id);
      case TaskFinished(_, _) => WaiterMovesOnCounts(s, e);
      case WaitRecords(_) => WaiterMovesOnCounts(s, e);
      case WaitStops(_) => WaiterMovesOnCounts(s, e);
      case WaitReleases(id) => WaitReleasesCounts(s, id);
      case _ => SameWaiters(s, e);
    }
  }

  lemma CoreStaysLawful(s: System, e: Event)
    requires Lawful(s.core) && Orderly(s) && Enabled(s, e)
    ensures Lawful(After(s, e).core)
  {
  }

  lemma ThreadsStayOrderly(s: System, e: Event)
    requires Lawful(s.core) && Orderly(s) && Enabled(s, e)
    requires e.WaitReleases? ==> s.core.consumers > 0
    requires e.DrainChecks? && s.core.consumers == 0 ==> s.waiters == map[]
    ensures Orderly(After(s, e))
  {
  }

  /** Every event keeps the invariant, the conservation of handles above all. */
  lemma EventKeeps(s: System, e: Event)
    requires Inv(s) && Enabled(s, e)
    ensures Inv(After(s, e))
  {
    HandlesAccounted(s, e);
    ConsumersCounted(s, e);
    CoreStaysLawful(s, e);
    assert e.DrainChecks? && s.core.consumers == 0 ==> s.waiters.Keys == {};
    assert e.WaitReleases? ==> e.id in s.waiters.Keys;
    ThreadsStayOrderly(s, e);
  }

  // ------------------------------------------------------------------
  // Over every run
  // ------------------------------------------------------------------

  // The states of a run, first to last.
  ghost predicate IsRun(run: seq<System>) {
    && |run| > 0 && run[0] == Init()
    && forall i :: 0 <= i < |run| - 1 ==> StepAt(run, i)
  }

  ghost predicate StepAt(run: seq<System>, i: int) {
    0 <= i < |run| - 1 && Follows(run[i], run[i + 1])
  }

  ghost predicate Follows(s: System, s': System) {
    exists e :: Enabled(s, e) && s' == After(s, e)
  }

  lemma {:induction false} RunHolds(run: seq<System>, i: nat)
    requires IsRun(run) && i < |run|
    ensures Inv(run[i])
    decreases i
  {
    if i == 0 {
      InitHolds();
    } else {
      RunHolds(run, i - 1);
      assert StepAt(run, i - 1);
      var e :| Enabled(run[i - 1], e) && run[i] == After(run[i - 1], e);
      EventKeeps(run[i - 1], e);
    }
  }

  function Rank(state: Lifecycle): nat {
    match state
    case Starting => 0
    case Running => 1
    case StopRequested => 2
    case Draining => 3
    case Stopped => 4
    case Failed => 4
  }

  // Nothing is undone: lifecycle rank, a terminal state, the first failure, a wait.
  predicate NoGoingBack(s: System, s': System) {
    && Rank(s.core.state) <= Rank(s'.core.state)
    && (IsTerminal(s.core.state) ==> s'.core.state == s.core.state)
    && (s.core.failure.Some? ==> s'.core.failure == s.core.failure)
    && s.waited <= s'.waited
  }

  lemma EventNeverGoesBack(s: System, e: Event)
    requires Lawful(s.core) && Orderly(s) && Enabled(s, e)
    ensures NoGoingBack(s, After(s, e))
  {
  }

  lemma StepNeverGoesBack(run: seq<System>, i: nat)
    requires IsRun(run) && i < |run| - 1
    ensures NoGoingBack(run[i], run[i + 1])
  {
    RunHolds(run, i);
    assert StepAt(run, i);
    var e :| Enabled(run[i], e) && run[i + 1] == After(run[i], e);
    EventNeverGoesBack(run[i], e);
  }

  lemma NoGoingBackTwice(a: System, b: System, c: System)
    requires NoGoingBack(a, b) && NoGoingBack(b, c)
    ensures NoGoingBack(a, c)
  {
  }

  /** Between any two points of any run: the lifecycle rank does not fall, a terminal state stays, the
      first failure recorded is never overwritten, and what was waited on stays so. */
  lemma {:induction false} RunsNeverGoBack(run: seq<System>, i: nat, j: nat)
    requires IsRun(run) && i <= j < |run|
    ensures NoGoingBack(run[i], run[j])
    decreases j - i
  {
    if i < j {
      RunsNeverGoBack(run, i, j - 1);
      StepNeverGoesBack(run, j - 1);
      NoGoingBackTwice(run[i], run[j - 1], run[j]);
    }
  }

  /** No handle is ever waited on twice, and no internal region ever throws. */
  lemma WaitedAtMostOnce(run: seq<System>, i: nat, id: TaskId)
    requires IsRun(run) && i < |run|
    ensures multiset(run[i].waited)[id] <= 1 && !run[i].broken
    ensures id in run[i].waited ==> 1 <= id < run[i].core.nextId
  {
    RunHolds(run, i);
    PlacedOnce(run[i], id);
    IssuedOnce(run[i].core.nextId, id);
    assert Places(run[i])[id] >= multiset(run[i].waited)[id];
  }

  /** A terminal state has waited on every submitted handle exactly once, has nothing pending and no
      consumer, and is Failed exactly when a failure was recorded. */
  lemma TerminalStates(run: seq<System>, i: nat)
    requires IsRun(run) && i < |run| && IsTerminal(run[i].core.state)
    ensures multiset(run[i].waited) == Issued(run[i].core.nextId)
    ensures run[i].core.pending == [] && run[i].core.consumers == 0
    ensures run[i].core.state == Failed <==> run[i].core.failure.Some?
  {
    RunHolds(run, i);
    assert HeldTasks(run[i].waiters) == {};
  }

  /** A failure recorded before the end of the last drain is what the terminal state reports. */
  lemma FailureDecidesTheEnd(run: seq<System>, i: nat, j: nat)
    requires IsRun(run) && i <= j < |run| && IsTerminal(run[j].core.state)
    ensures run[i].core.failure.Some? ==> run[j].core.state == Failed && run[j].core.failure == run[i].core.failure
    ensures run[j].core.state == Stopped ==> run[i].core.failure.None?
  {
    RunsNeverGoBack(run, i, j);
    RunHolds(run, j);
  }

  // ------------------------------------------------------------------
  // A drain finishes
  // ------------------------------------------------------------------

  predicate IsInternal(e: Event) {
    e.TaskFinished? || e.WaitRecords? || e.WaitStops? || e.WaitReleases? || e.DrainedTaskFinished? || e.DrainRecordsTask? ||
    e.DrainStopsTask? || e.DrainClears? || e.DrainBeginsJobs? || e.DrainFinishesJobs? || e.DrainRecordsJobs? || e.DrainStopsJobs? ||
    e.DrainChecks?
  }

  /** While a drain is under way some internal region can run, without any wake-up for no reason: a drainer
      that sleeps has a consumer to wait for, whose last region wakes it. */
  lemma DrainNeverStuck(s: System)
    requires Inv(s) && s.drainer != NoDrainer
    ensures exists e :: IsInternal(e) && Enabled(s, e)
  {
    hide Accounted, Counted, Lawful;
    match s.drainer {
      case AwaitingTasks(tasks) =>
        if tasks == [] { assert Enabled(s, DrainClears); } else { assert Enabled(s, DrainedTaskFinished(None)); }
      case RecordingTask(_, _) => assert Enabled(s, DrainRecordsTask);
      case StoppingAfterTask(_) => assert Enabled(s, DrainStopsTask);
      case BeginningJobs => assert Enabled(s, DrainBeginsJobs);
      case FinishingJobs => assert Enabled(s, DrainFinishesJobs(None));
      case RecordingJobs(_) => assert Enabled(s, DrainRecordsJobs);
      case StoppingAfterJobs => assert Enabled(s, DrainStopsJobs);
      case CheckingConsumers => assert Enabled(s, DrainChecks);
      case SleepingForConsumers => ConsumersCanMove(s);
    }
  }

  lemma ConsumersCanMove(s: System)
    requires Counted(s) && s.core.consumers > 0
    ensures exists e :: IsInternal(e) && Enabled(s, e)
  {
    var id :| id in s.waiters.Keys;
    match s.waiters[id] {
      case AwaitingTask => assert Enabled(s, TaskFinished(id, None));
      case RecordingWait(_) => assert Enabled(s, WaitRecords(id));
      case StoppingAfterWait => assert Enabled(s, WaitStops(id));
      case ReleasingWait => assert Enabled(s, WaitReleases(id));
    }
  }

  /** The wake-up is not lost: the region in which the last consumer leaves a sleeping drainer makes it look
      again, and it then finds no consumer and ends. */
  lemma LastConsumerWakes(s: System, id: TaskId)
    requires Inv(s) && s.drainer == SleepingForConsumers && Enabled(s, WaitReleases(id)) && s.core.consumers == 1
    ensures var s' := After(s, WaitReleases(id));
      s'.drainer == CheckingConsumers && Enabled(s', DrainChecks) && After(s', DrainChecks).drainer == NoDrainer
      && IsTerminal(After(s', DrainChecks).core.state)
  {
  }
}
