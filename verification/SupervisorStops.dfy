/** What the calls made so far say about a supervisor: when it runs, what stops it, what it then refuses. */
module SupervisorStops {
  import opened Options
  import opened Supervisor
  import opened SupervisorRuns

  // A history: events in the order in which their regions ran, each possible when it did.
  ghost predicate IsHistory(events: seq<Event>)
    decreases |events|, 0
  {
    events == [] || (IsHistory(Earlier(events)) && Enabled(StateAfter(Earlier(events)), Latest(events)))
  }

  ghost function StateAfter(events: seq<Event>): System
    requires IsHistory(events)
    decreases |events|, 1
  {
    if events == [] then Init() else After(StateAfter(Earlier(events)), Latest(events))
  }

  function Earlier(events: seq<Event>): seq<Event>
    requires events != []
  {
    events[..|events| - 1]
  }

  function Latest(events: seq<Event>): Event
    requires events != []
  {
    events[|events| - 1]
  }

  // The events that end the running of the supervisor: a stop, a drain and any failure.
  predicate Stops(e: Event) {
    StopsJobs(e) || Reports(e)
  }

  predicate StopsJobs(e: Event) {
    e.StopRequestedCalled? || e.DrainCalled? || e.WaitStops? || e.DrainStopsTask? || e.DrainStopsJobs?
  }

  predicate Reports(e: Event) {
    e.FailureReported? || e.WaitRecords? || e.DrainRecordsTask? || e.DrainRecordsJobs?
  }

  ghost predicate Started(events: seq<Event>) {
    exists i :: 0 <= i < |events| && events[i].StartCalled?
  }

  ghost predicate AnyStop(events: seq<Event>) {
    exists i :: 0 <= i < |events| && Stops(events[i])
  }

  ghost predicate AnyDrain(events: seq<Event>) {
    exists i :: 0 <= i < |events| && events[i].DrainCalled?
  }

  ghost predicate AnyJobsStop(events: seq<Event>) {
    exists i :: 0 <= i < |events| && StopsJobs(events[i])
  }

  ghost predicate JobsDrainBegun(events: seq<Event>) {
    exists i :: 0 <= i < |events| && events[i].DrainBeginsJobs?
  }

  ghost predicate JobsDrained(events: seq<Event>) {
    exists i :: 0 <= i < |events| && events[i] == DrainFinishesJobs(None)
  }

  // ------------------------------------------------------------------
  // Lifecycle and jobs
  // ------------------------------------------------------------------

  lemma {:induction false} HistoryHolds(events: seq<Event>)
    requires IsHistory(events)
    ensures Inv(StateAfter(events))
    decreases |events|
  {
    hide Inv, After, Enabled;
    if events == [] {
      InitHolds();
    } else {
      HistoryHolds(Earlier(events));
      EventKeeps(StateAfter(Earlier(events)), Latest(events));
    }
  }

  lemma {:induction false} PrefixIsHistory(events: seq<Event>, i: nat)
    requires IsHistory(events) && i <= |events|
    ensures IsHistory(events[..i])
    decreases |events|
  {
    hide After, Enabled;
    if i == |events| {
      assert events[..i] == events;
    } else {
      PrefixIsHistory(Earlier(events), i);
      assert Earlier(events)[..i] == events[..i];
    }
  }

  predicate LifecycleIs(c: Core, started: bool, stopped: bool, drained: bool) {
    && (c.state == Starting <==> !started && !stopped)
    && (c.state == Running <==> started && !stopped)
    && (c.state == StopRequested <==> stopped && !drained)
    && (drained ==> stopped)
  }

  lemma LifecycleMoves(s: System, e: Event, started: bool, stopped: bool, drained: bool)
    requires Lawful(s.core) && Orderly(s) && Enabled(s, e) && LifecycleIs(s.core, started, stopped, drained)
    ensures LifecycleIs(After(s, e).core, started || e.StartCalled?, stopped || Stops(e), drained || e.DrainCalled?)
  {
    hide Without;
  }

  lemma StartsExtend(events: seq<Event>)
    requires events != []
    ensures Started(events) <==> Started(Earlier(events)) || Latest(events).StartCalled?
    ensures AnyStop(events) <==> AnyStop(Earlier(events)) || Stops(Latest(events))
    ensures AnyDrain(events) <==> AnyDrain(Earlier(events)) || Latest(events).DrainCalled?
  {
    hide Stops;
    var n := |events| - 1;
    assert events == Earlier(events) + [events[n]];
    if i :| 0 <= i < n && Earlier(events)[i].StartCalled? {
      assert events[i].StartCalled?;
    }
    if i :| 0 <= i < n && Stops(Earlier(events)[i]) {
      assert Stops(events[i]);
    }
    if i :| 0 <= i < n && Earlier(events)[i].DrainCalled? {
      assert events[i].DrainCalled?;
    }
    if i :| 0 <= i < |events| && events[i].DrainCalled? {
      assert i < n ==> Earlier(events)[i].DrainCalled?;
    }
    if i :| 0 <= i < |events| && events[i].StartCalled? {
      assert i < n ==> Earlier(events)[i].StartCalled?;
    }
    if i :| 0 <= i < |events| && Stops(events[i]) {
      assert i < n ==> Stops(Earlier(events)[i]);
    }
  }

  lemma {:induction false} LifecycleFollows(events: seq<Event>)
    requires IsHistory(events)
    ensures LifecycleIs(StateAfter(events).core, Started(events), AnyStop(events), AnyDrain(events))
    decreases |events|
  {
    hide After, Enabled, Inv, Lawful, Orderly, Started, AnyStop, AnyDrain, Stops;
    if events == [] {
      NothingYet();
    } else {
      var before := Earlier(events);
      LifecycleFollows(before);
      HistoryHolds(before);
      InvParts(StateAfter(before));
      StartsExtend(events);
      LifecycleMoves(StateAfter(before), Latest(events), Started(before), AnyStop(before), AnyDrain(before));
    }
  }

  /** The supervisor runs exactly when it has been started and neither a stop, nor a drain, nor a failure has
      come since it was made; it is still starting exactly when none of all these has come, and its stop is
      requested exactly when one has but no drain. */
  lemma RunningExactly(events: seq<Event>)
    requires IsHistory(events)
    ensures StateAfter(events).core.state == Starting <==> !Started(events) && !AnyStop(events)
    ensures StateAfter(events).core.state == Running <==> Started(events) && !AnyStop(events)
    ensures StateAfter(events).core.state == StopRequested <==> AnyStop(events) && !AnyDrain(events)
  {
    hide After, Started, AnyStop, AnyDrain;
    LifecycleFollows(events);
  }

  lemma NothingYet()
    ensures !Started([]) && !AnyStop([]) && !AnyDrain([]) && !AnyJobsStop([]) && !JobsDrainBegun([]) && !JobsDrained([])
  {
  }

  lemma InvParts(s: System)
    requires Inv(s)
    ensures Lawful(s.core) && Orderly(s)
  {
  }

  predicate JobsAre(c: Core, stopped: bool, begun: bool, drained: bool) {
    && (c.jobs == JobsRunning <==> !stopped)
    && (c.jobs == JobsStopRequested <==> stopped && !begun)
    && (c.jobs == JobsDraining <==> begun && !drained)
    && (c.jobs == JobsStopped <==> drained)
  }

  // A drain that begins to drain the jobs has stopped them, and one that finishes them has begun.
  predicate JobsInStep(s: System, stopped: bool, begun: bool, drained: bool) {
    && (s.drainer != NoDrainer || IsTerminal(s.core.state) ==> stopped)
    && (begun ==> stopped) && (drained ==> begun)
    && (s.drainer.FinishingJobs? || s.drainer.RecordingJobs? ==> begun)
  }

  lemma JobsMove(s: System, e: Event, stopped: bool, begun: bool, drained: bool)
    requires Lawful(s.core) && Orderly(s) && Enabled(s, e) && JobsAre(s.core, stopped, begun, drained)
    requires JobsInStep(s, stopped, begun, drained)
    ensures JobsAre(After(s, e).core, stopped || StopsJobs(e), begun || e.DrainBeginsJobs?, drained || e == DrainFinishesJobs(None))
  {
    hide Without, Lawful;
  }

  lemma JobsStayInStep(s: System, e: Event, stopped: bool, begun: bool, drained: bool)
    requires Lawful(s.core) && Orderly(s) && Enabled(s, e)
    requires JobsInStep(s, stopped, begun, drained)
    ensures JobsInStep(After(s, e), stopped || StopsJobs(e), begun || e.DrainBeginsJobs?, drained || e == DrainFinishesJobs(None))
  {
    hide Without, Lawful;
  }

  lemma JobsEventsExtend(events: seq<Event>)
    requires events != []
    ensures AnyJobsStop(events) <==> AnyJobsStop(Earlier(events)) || StopsJobs(Latest(events))
    ensures JobsDrainBegun(events) <==> JobsDrainBegun(Earlier(events)) || Latest(events).DrainBeginsJobs?
    ensures JobsDrained(events) <==> JobsDrained(Earlier(events)) || Latest(events) == DrainFinishesJobs(None)
  {
    hide StopsJobs;
    var n := |events| - 1;
    assert events == Earlier(events) + [events[n]];
    if i :| 0 <= i < n && StopsJobs(Earlier(events)[i]) {
      assert StopsJobs(events[i]);
    }
    if i :| 0 <= i < n && Earlier(events)[i].DrainBeginsJobs? {
      assert events[i].DrainBeginsJobs?;
    }
    if i :| 0 <= i < n && Earlier(events)[i] == DrainFinishesJobs(None) {
      assert events[i] == DrainFinishesJobs(None);
    }
    if i :| 0 <= i < |events| && StopsJobs(events[i]) {
      assert i < n ==> StopsJobs(Earlier(events)[i]);
    }
    if i :| 0 <= i < |events| && events[i].DrainBeginsJobs? {
      assert i < n ==> Earlier(events)[i].DrainBeginsJobs?;
    }
    if i :| 0 <= i < |events| && events[i] == DrainFinishesJobs(None) {
      assert i < n ==> Earlier(events)[i] == DrainFinishesJobs(None);
    }
  }

  lemma {:induction false} JobsFollow(events: seq<Event>)
    requires IsHistory(events)
    ensures JobsAre(StateAfter(events).core, AnyJobsStop(events), JobsDrainBegun(events), JobsDrained(events))
    ensures JobsInStep(StateAfter(events), AnyJobsStop(events), JobsDrainBegun(events), JobsDrained(events))
    decreases |events|
  {
    hide After, Enabled, Inv, Lawful, Orderly, AnyJobsStop, JobsDrainBegun, JobsDrained, StopsJobs;
    if events == [] {
      NothingYet();
    } else {
      var before := Earlier(events);
      JobsFollow(before);
      HistoryHolds(before);
      InvParts(StateAfter(before));
      JobsEventsExtend(events);
      JobsMove(StateAfter(before), Latest(events), AnyJobsStop(before), JobsDrainBegun(before), JobsDrained(before));
      JobsStayInStep(StateAfter(before), Latest(events), AnyJobsStop(before), JobsDrainBegun(before), JobsDrained(before));
    }
  }

  /** The jobs run exactly until the first stop or drain, drain exactly from when a drain begins with them, and
      have stopped exactly when a drain has finished them without an error. */
  lemma JobsExactly(events: seq<Event>)
    requires IsHistory(events)
    ensures StateAfter(events).core.jobs == JobsRunning <==> !AnyJobsStop(events)
    ensures StateAfter(events).core.jobs == JobsStopRequested <==> AnyJobsStop(events) && !JobsDrainBegun(events)
    ensures StateAfter(events).core.jobs == JobsDraining <==> JobsDrainBegun(events) && !JobsDrained(events)
    ensures StateAfter(events).core.jobs == JobsStopped <==> JobsDrained(events)
  {
    hide After, AnyJobsStop, JobsDrainBegun, JobsDrained;
    JobsFollow(events);
  }

  // ------------------------------------------------------------------
  // Nothing is accepted after a stop
  // ------------------------------------------------------------------

  lemma StopBefore(events: seq<Event>, i: nat, j: nat)
    requires i < j <= |events|
    ensures Stops(events[i]) ==> AnyStop(events[..j])
    ensures StopsJobs(events[i]) ==> AnyJobsStop(events[..j])
  {
    assert events[..j][i] == events[i];
  }

  lemma PastRunning(s: System, e: Event)
    requires Enabled(s, e) && s.core.state != Running
    ensures After(s, e).core.nextId == s.core.nextId
    ensures Submit(s.core) == (Throws(NotRunning), s.core)
  {
  }

  /** A stop stops. After any stop request, drain or recorded failure, in every continuation: the supervisor is
      past Running, the jobs have stopped running too unless only failures came, no submission is accepted, and
      no id is ever handed out again. */
  lemma {:induction false} NothingAfterStop(events: seq<Event>, i: nat, j: nat)
    requires IsHistory(events) && i < j <= |events| && Stops(events[i])
    ensures IsHistory(events[..j]) && IsHistory(events[..i + 1])
    ensures StateAfter(events[..j]).core.state != Starting && StateAfter(events[..j]).core.state != Running
    ensures StopsJobs(events[i]) ==> StateAfter(events[..j]).core.jobs != JobsRunning
    ensures Submit(StateAfter(events[..j]).core) == (Throws(NotRunning), StateAfter(events[..j]).core)
    ensures StateAfter(events[..j]).core.nextId == StateAfter(events[..i + 1]).core.nextId
    decreases j
  {
    hide After, Enabled, AnyStop, AnyJobsStop, Started, Stops, StopsJobs, JobsDrainBegun, JobsDrained;
    PrefixIsHistory(events, j);
    PrefixIsHistory(events, i + 1);
    StopBefore(events, i, j);
    RunningExactly(events[..j]);
    JobsExactly(events[..j]);
    NotRunningRefuses(StateAfter(events[..j]).core);
    if j > i + 1 {
      NothingAfterStop(events, i, j - 1);
      assert Earlier(events[..j]) == events[..j - 1];
      PastRunning(StateAfter(events[..j - 1]), Latest(events[..j]));
    }
  }

  lemma NotRunningRefuses(c: Core)
    requires c.state != Running
    ensures Submit(c) == (Throws(NotRunning), c)
  {
  }

  // ------------------------------------------------------------------
  // What submissions and waits answer
  // ------------------------------------------------------------------

  /** A submission is accepted exactly while the supervisor runs, fewer than 4096 tasks are pending and ids are
      left; it gets the next id and goes behind all pending tasks. The first reason not to is what it is told,
      and a refusal changes nothing. */
  lemma SubmissionsAnswered(events: seq<Event>)
    requires IsHistory(events)
    ensures var (answer, after) := Submit(StateAfter(events).core);
      var c := StateAfter(events).core;
      if !Started(events) || AnyStop(events) then answer == Throws(NotRunning) && after == c
      else if |c.pending| >= 4096 then answer == Throws(TooManyPending) && after == c
      else if c.nextId == 0xFFFF_FFFF_FFFF_FFFF then answer == Throws(IdsExhausted) && after == c
      else answer == Submitted(c.nextId) && after == c.(pending := c.pending + [c.nextId], nextId := c.nextId + 1)
  {
    hide After, AnyStop, Started, Inv;
    RunningExactly(events);
    HistoryHolds(events);
    InvParts(StateAfter(events));
  }

  ghost predicate InOrder(tasks: seq<TaskId>, limit: TaskId) {
    && (forall i, j :: 0 <= i < j < |tasks| ==> tasks[i] < tasks[j])
    && (forall i :: 0 <= i < |tasks| ==> tasks[i] < limit)
  }

  ghost predicate TasksInOrder(s: System) {
    && InOrder(s.core.pending, s.core.nextId) && InOrder(DrainerTasks(s.drainer), s.core.nextId)
    && |s.core.pending| <= 4096
  }

  lemma {:induction false} WithoutKeepsOthers(tasks: seq<TaskId>, id: TaskId, limit: TaskId)
    requires id in tasks && InOrder(tasks, limit)
    ensures |Without(tasks, id)| == |tasks| - 1
    ensures forall t :: t in Without(tasks, id) <==> t in tasks && t != id
  {
    assert tasks == [tasks[0]] + tasks[1..];
    if tasks[0] != id {
      WithoutKeepsOthers(tasks[1..], id, limit);
    }
  }

  lemma {:induction false} WithoutKeepsOrder(tasks: seq<TaskId>, id: TaskId, limit: TaskId)
    requires id in tasks && InOrder(tasks, limit)
    ensures InOrder(Without(tasks, id), limit)
  {
    if tasks[0] != id {
      var rest := Without(tasks[1..], id);
      WithoutKeepsOrder(tasks[1..], id, limit);
      WithoutKeepsOthers(tasks[1..], id, limit);
      forall i | 0 <= i < |rest|
        ensures tasks[0] < rest[i]
      {
        hide Without;
        assert rest[i] in tasks[1..];
      }
    }
  }

  lemma SubmitKeepsOrder(s: System)
    requires TasksInOrder(s)
    ensures TasksInOrder(After(s, SubmitCalled))
  {
  }

  lemma DrainedTaskKeepsOrder(s: System, e: Event)
    requires TasksInOrder(s) && Enabled(s, e) && e.DrainedTaskFinished?
    ensures TasksInOrder(After(s, e))
  {
    assert DrainerTasks(After(s, e).drainer) == DrainerTasks(s.drainer)[1..];
  }

  // Any other event leaves the tasks where they are, or a drain takes them all or is done with them.
  lemma TasksOtherwise(s: System, e: Event)
    requires Enabled(s, e) && !e.WaitCalled? && !e.SubmitCalled? && !e.DrainedTaskFinished?
    ensures After(s, e).core.nextId == s.core.nextId
    ensures After(s, e).core.pending == s.core.pending || After(s, e).core.pending == []
    ensures DrainerTasks(After(s, e).drainer) == DrainerTasks(s.drainer) || DrainerTasks(After(s, e).drainer) == s.core.pending
            || DrainerTasks(After(s, e).drainer) == []
  {
  }

  lemma OrderKept(s: System, e: Event)
    requires TasksInOrder(s) && Enabled(s, e) && !e.WaitCalled?
    ensures TasksInOrder(After(s, e))
  {
    hide After, Enabled, DrainerTasks;
    match e {
      case SubmitCalled => SubmitKeepsOrder(s);
      case DrainedTaskFinished(_) => DrainedTaskKeepsOrder(s, e);
      case _ => TasksOtherwise(s, e);
    }
  }

  lemma WaitKeepsOrder(s: System, id: TaskId)
    requires TasksInOrder(s)
    ensures TasksInOrder(After(s, WaitCalled(id)))
  {
    hide InOrder;
    if id in s.core.pending {
      WithoutKeepsOthers(s.core.pending, id, s.core.nextId);
      WithoutKeepsOrder(s.core.pending, id, s.core.nextId);
    }
  }

  /** Pending tasks, and those a drain has taken, are in the order of their submission; at most 4096 are pending. */
  lemma {:induction false} SubmissionOrder(events: seq<Event>)
    requires IsHistory(events)
    ensures TasksInOrder(StateAfter(events))
    decreases |events|
  {
    hide After, Enabled, TasksInOrder;
    if events == [] {
      StartsInOrder();
    } else {
      SubmissionOrder(Earlier(events));
      if Latest(events).WaitCalled? {
        WaitKeepsOrder(StateAfter(Earlier(events)), Latest(events).id);
      } else {
        OrderKept(StateAfter(Earlier(events)), Latest(events));
      }
    }
  }

  lemma StartsInOrder()
    ensures TasksInOrder(Init())
  {
  }

  /** A Wait takes a task exactly when it is pending: it leaves the pending tasks, which keep their order, its
      caller holds it and is counted. Otherwise the Wait throws, for id 0 as invalid, and changes nothing. */
  lemma WaitsAnswered(events: seq<Event>, id: TaskId)
    requires IsHistory(events)
    ensures var s := StateAfter(events);
      var (answer, after) := Take(s.core, id);
      var s' := After(s, WaitCalled(id));
      if id in s.core.pending then
        && answer == Done && s'.core == after && WaiterIs(s', id, AwaitingTask) && after.consumers == s.core.consumers + 1
        && (forall t :: t in after.pending <==> t in s.core.pending && t != id)
        && InOrder(after.pending, s.core.nextId) && after == s.core.(pending := after.pending, consumers := after.consumers)
      else answer == Throws(if id == 0 then InvalidId else NotPending) && after == s.core && s' == s
  {
    hide InOrder, Inv;
    SubmissionOrder(events);
    var s := StateAfter(events);
    if id in s.core.pending {
      HistoryHolds(events);
      NoTaskZero(s, id);
      WithoutKeepsOthers(s.core.pending, id, s.core.nextId);
      WithoutKeepsOrder(s.core.pending, id, s.core.nextId);
    }
  }

  lemma NoTaskZero(s: System, id: TaskId)
    requires Inv(s) && id in s.core.pending
    ensures id != 0
  {
    IssuedOnce(s.core.nextId, id);
    assert multiset(s.core.pending)[id] > 0;
    assert Places(s)[id] > 0;
  }

  /** A drain takes every pending task, in order, and leaves none; only a stopped supervisor refuses it. */
  lemma DrainTakesAll(events: seq<Event>)
    requires IsHistory(events) && StateAfter(events).drainer == NoDrainer
    ensures var s := StateAfter(events);
      var s' := After(s, DrainCalled);
      if s.core.state == Stopped then s' == s
      else s'.drainer == AwaitingTasks(s.core.pending) && s'.core.pending == [] && s'.core.nextId == s.core.nextId
           && s'.core.state == (if s.core.state == Failed then Failed else Draining) && s'.core.jobs != JobsRunning
           && s'.core.failure == s.core.failure && s'.core.consumers == s.core.consumers
  {
    hide Lawful, Orderly, Accounted, Counted;
  }

  // ------------------------------------------------------------------
  // Failures
  // ------------------------------------------------------------------

  // What a region reports, if it does: an error of the task or of the jobs, or a failure from outside.
  function Report(s: System, e: Event): Option<Failure>
    requires Enabled(s, e)
  {
    match e
    case FailureReported(failure) => Some(failure)
    case WaitRecords(id) => Some(Failure(JobSource, s.waiters[id].error))
    case DrainRecordsTask => Some(Failure(JobSource, s.drainer.error))
    case DrainRecordsJobs => Some(Failure(JobSource, s.drainer.error))
    case _ => None
  }

  /** The first failure reported before the supervisor has stopped is recorded, and later ones and other events
      leave what is recorded alone. */
  lemma FailureRecorded(events: seq<Event>)
    requires IsHistory(events) && events != []
    ensures var s, e := StateAfter(Earlier(events)), Latest(events);
      StateAfter(events).core.failure ==
        if s.core.failure.None? && s.core.state != Stopped then Report(s, e) else s.core.failure
  {
    hide Without;
    HistoryHolds(Earlier(events));
    InvParts(StateAfter(Earlier(events)));
    OneEventRecords(StateAfter(Earlier(events)), Latest(events));
  }

  lemma OneEventRecords(s: System, e: Event)
    requires Lawful(s.core) && Orderly(s) && Enabled(s, e)
    ensures After(s, e).core.failure ==
      if s.core.failure.None? && s.core.state != Stopped then Report(s, e) else s.core.failure
  {
    hide Without;
  }

  // Something goes wrong: a task or the jobs end with an error, or a failure is reported before the end.
  predicate GoesWrong(s: System, e: Event) {
    match e
    case TaskFinished(_, error) => error.Some?
    case DrainedTaskFinished(error) => error.Some?
    case DrainFinishesJobs(error) => error.Some?
    case FailureReported(_) => s.core.state != Stopped
    case _ => false
  }

  ghost predicate HasGoneWrong(events: seq<Event>)
    requires IsHistory(events)
    decreases |events|
  {
    events != [] && (HasGoneWrong(Earlier(events)) || GoesWrong(StateAfter(Earlier(events)), Latest(events)))
  }

  ghost predicate WaiterRecords(waiters: map<TaskId, WaiterAt>) {
    exists id :: id in waiters && waiters[id].RecordingWait?
  }

  predicate DrainerRecords(d: DrainerAt) {
    d.RecordingTask? || d.RecordingJobs?
  }

  // What went wrong is recorded, or about to be.
  ghost predicate Known(s: System) {
    s.core.failure.Some? || WaiterRecords(s.waiters) || DrainerRecords(s.drainer)
  }

  lemma WaiterMovesRecords(waiters: map<TaskId, WaiterAt>, id: TaskId, at: WaiterAt)
    requires id in waiters ==> !waiters[id].RecordingWait?
    ensures WaiterRecords(waiters[id := at]) <==> WaiterRecords(waiters) || at.RecordingWait?
  {
    var after := waiters[id := at];
    if other :| other in waiters && waiters[other].RecordingWait? {
      assert other in after && after[other].RecordingWait?;
    }
    if at.RecordingWait? {
      assert id in after && after[id].RecordingWait?;
    }
  }

  lemma WaiterLeavesRecords(waiters: map<TaskId, WaiterAt>, id: TaskId)
    requires WaiterIsAt(waiters, id, ReleasingWait)
    ensures WaiterRecords(waiters - {id}) <==> WaiterRecords(waiters)
  {
    if other :| other in waiters && waiters[other].RecordingWait? {
      assert other in waiters - {id} && (waiters - {id})[other].RecordingWait?;
    }
  }

  predicate WaiterIsAt(waiters: map<TaskId, WaiterAt>, id: TaskId, at: WaiterAt) {
    id in waiters && waiters[id] == at
  }

  lemma FailureStays(s: System, e: Event)
    requires Lawful(s.core) && Orderly(s) && Enabled(s, e)
    ensures After(s, e).core.failure.Some? <==> s.core.failure.Some? || (Report(s, e).Some? && s.core.state != Stopped)
  {
    hide Lawful, Orderly;
    OneEventRecords(s, e);
  }

  lemma DrainerMovesOn(s: System, e: Event)
    requires Enabled(s, e)
    ensures DrainerRecords(After(s, e).drainer) <==>
      (DrainerRecords(s.drainer) && !e.DrainRecordsTask? && !e.DrainRecordsJobs?) ||
      (e.DrainedTaskFinished? && e.error.Some?) || (e.DrainFinishesJobs? && e.error.Some?)
  {
    hide Without;
  }

  lemma WaitersMoveOn(s: System, e: Event)
    requires Inv(s) && Enabled(s, e) && !e.WaitRecords?
    ensures WaiterRecords(After(s, e).waiters) <==> WaiterRecords(s.waiters) || (e.TaskFinished? && e.error.Some?)
  {
    hide WaiterRecords, Accounted, Counted, Lawful, Orderly, Without;
    if OutsideWait(e) {
      SameWaiters(s, e);
    } else {
      match e {
        case WaitCalled(id) =>
          if Take(s.core, id).0 == Done {
            PendingIsFree(s, id);
            WaiterMovesRecords(s.waiters, id, AwaitingTask);
          }
        case TaskFinished(id, error) =>
          WaiterMovesRecords(s.waiters, id, if error.Some? then RecordingWait(error.value) else ReleasingWait);
        case WaitStops(id) => WaiterMovesRecords(s.waiters, id, ReleasingWait);
        case WaitReleases(id) => WaiterLeavesRecords(s.waiters, id);
      }
    }
  }

  // Who records is at work, so the supervisor has not stopped.
  lemma RecordersRunBeforeTheEnd(s: System, e: Event)
    requires Orderly(s) && Enabled(s, e) && Report(s, e).Some? && !e.FailureReported?
    ensures s.core.state != Stopped
    ensures e.WaitRecords? ==> WaiterRecords(s.waiters)
    ensures !e.WaitRecords? ==> DrainerRecords(s.drainer)
  {
    if e.WaitRecords? {
      assert e.id in s.waiters;
    }
  }

  lemma KnownMoves(s: System, e: Event)
    requires Inv(s) && Enabled(s, e)
    ensures Known(After(s, e)) <==> Known(s) || GoesWrong(s, e)
  {
    hide Inv, After, Enabled, Lawful, Orderly, WaiterRecords, DrainerRecords;
    InvParts(s);
    FailureStays(s, e);
    DrainerMovesOn(s, e);
    if Report(s, e).Some? && !e.FailureReported? {
      RecordersRunBeforeTheEnd(s, e);
    }
    if !e.WaitRecords? {
      WaitersMoveOn(s, e);
    }
  }

  lemma {:induction false} KnownExactly(events: seq<Event>)
    requires IsHistory(events)
    ensures Known(StateAfter(events)) <==> HasGoneWrong(events)
    decreases |events|
  {
    hide Inv, After, Enabled, Known, GoesWrong;
    if events == [] {
      NothingKnown();
    } else {
      HistoryHolds(Earlier(events));
      KnownExactly(Earlier(events));
      KnownMoves(StateAfter(Earlier(events)), Latest(events));
    }
  }

  lemma NothingKnown()
    ensures !Known(Init())
  {
  }

  /** No error is lost: a supervisor that has ended is Failed exactly when some task or the jobs ended with an
      error or a failure was reported before its end, and Stopped exactly when nothing went wrong. */
  lemma NoErrorIsLost(events: seq<Event>)
    requires IsHistory(events) && IsTerminal(StateAfter(events).core.state)
    ensures StateAfter(events).core.state == Failed <==> HasGoneWrong(events)
  {
    hide After, Enabled, HasGoneWrong, Accounted, Counted;
    HistoryHolds(events);
    KnownExactly(events);
    EndedKnown(StateAfter(events));
  }

  lemma EndedKnown(s: System)
    requires Lawful(s.core) && Orderly(s) && IsTerminal(s.core.state)
    ensures s.core.state == Failed <==> Known(s)
  {
  }
}
