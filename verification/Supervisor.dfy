/** The runtime supervisor and the job runtime it drives: the effect of each lock region. */
module Supervisor {
  import opened Options

  const MAX_PENDING_RUNTIME_TASKS: nat := 4096
  const MAX_TASK_ID: nat := 0xFFFF_FFFF_FFFF_FFFF

  type TaskId = nat

  datatype Lifecycle = Starting | Running | StopRequested | Draining | Stopped | Failed

  datatype JobState = JobsRunning | JobsStopRequested | JobsDraining | JobsStopped

  datatype FailureSource = JobSource | OwnerSource | FrameChannelSource

  datatype Failure = Failure(source: FailureSource, error: nat)

  // A pending task is known by its id; its handle goes wherever the id goes.
  datatype Core = Core(state: Lifecycle, failure: Option<Failure>, pending: seq<TaskId>, nextId: TaskId,
                       consumers: nat, jobs: JobState)

  datatype Error = AlreadyStarted | FailedBeforeStart | NotRunning | TooManyPending | IdsExhausted | JobsRejected
                 | InvalidId | NotPending | AfterShutdown | ConsumerUnderflow

  datatype Outcome = Done | Submitted(id: TaskId) | Throws(error: Error)

  // ------------------------------------------------------------------
  // Job runtime regions
  // ------------------------------------------------------------------

  function JobsAfterStop(jobs: JobState): JobState {
    if jobs == JobsRunning then JobsStopRequested else jobs
  }

  function JobsAfterDrainBegin(jobs: JobState): JobState {
    if jobs == JobsStopped then JobsStopped else JobsDraining
  }

  // ------------------------------------------------------------------
  // Supervisor regions
  // ------------------------------------------------------------------

  function Start(c: Core): (Outcome, Core) {
    if c.state != Starting then (Throws(AlreadyStarted), c)
    else if c.failure.Some? then (Throws(FailedBeforeStart), c)
    else (Done, c.(state := Running))
  }

  function Submit(c: Core): (Outcome, Core) {
    if c.state != Running then (Throws(NotRunning), c)
    else if |c.pending| >= MAX_PENDING_RUNTIME_TASKS then (Throws(TooManyPending), c)
    else if c.nextId == MAX_TASK_ID then (Throws(IdsExhausted), c)
    else if c.jobs != JobsRunning then (Throws(JobsRejected), c)
    else (Submitted(c.nextId), c.(nextId := c.nextId + 1, pending := c.pending + [c.nextId]))
  }

  function Without(pending: seq<TaskId>, id: TaskId): seq<TaskId> {
    if pending == [] then []
    else if pending[0] == id then pending[1..]
    else [pending[0]] + Without(pending[1..], id)
  }

  // The first region of Wait: the task leaves the pending list and the caller becomes a consumer.
  function Take(c: Core, id: TaskId): (Outcome, Core) {
    if id == 0 then (Throws(InvalidId), c)
    else if id !in c.pending then (Throws(NotPending), c)
    else (Done, c.(pending := Without(c.pending, id), consumers := c.consumers + 1))
  }

  function RecordFailure(c: Core, failure: Failure): (Outcome, Core) {
    if c.state == Stopped then (Throws(AfterShutdown), c)
    else
      (Done, c.(failure := if c.failure.None? then Some(failure) else c.failure,
                state := if c.state == Starting || c.state == Running then StopRequested else c.state))
  }

  function RequestStop(c: Core): Core {
    var state := if c.state == Starting || c.state == Running then StopRequested else c.state;
    if state == Stopped then c else c.(state := state, jobs := JobsAfterStop(c.jobs))
  }

  // The last consumer to leave notifies whoever waits for there to be none.
  function ReleaseConsumer(c: Core): (Outcome, Core, bool) {
    if c.consumers == 0 then (Throws(ConsumerUnderflow), c, false)
    else (Done, c.(consumers := c.consumers - 1), c.consumers == 1)
  }

  // The first region of Drain takes every pending task, unless the supervisor has stopped.
  function BeginDrain(c: Core): (Option<seq<TaskId>>, Core) {
    if c.state == Stopped then (None, c)
    else
      var state := if c.state == Failed || c.state == Draining then c.state else Draining;
      (Some(c.pending), c.(state := state, jobs := JobsAfterStop(c.jobs), pending := []))
  }

  // The last region of Drain: it looks for consumers and, if there are none, ends; else its caller sleeps.
  function EndDrain(c: Core): (bool, Core) {
    if c.consumers != 0 then (false, c)
    else (true, c.(state := if c.failure.Some? then Failed else Stopped))
  }

  // ------------------------------------------------------------------
  // The objects
  // ------------------------------------------------------------------

  class JobRuntime {
    var state: JobState

    constructor ()
      ensures state == JobsRunning
    {
      state := JobsRunning;
    }

    method Submit() returns (accepted: bool)
      ensures accepted <==> state == JobsRunning
    {
      accepted := state == JobsRunning;
    }

    method RequestStop()
      modifies this
      ensures state == JobsAfterStop(old(state))
    {
      if state == JobsRunning {
        state := JobsStopRequested;
      }
    }

    method BeginDrain() returns (proceed: bool)
      modifies this
      ensures state == JobsAfterDrainBegin(old(state)) && (proceed <==> old(state) != JobsStopped)
    {
      if state == JobsStopped { return false; }
      if state == JobsRunning {
        state := JobsStopRequested;
      }
      state := JobsDraining;
      proceed := true;
    }

    method EndDrain()
      modifies this
      ensures state == JobsStopped
    {
      state := JobsStopped;
    }
  }

  class RuntimeSupervisor {
    const jobs: JobRuntime
    var state: Lifecycle
    var failure: Option<Failure>
    var pending: seq<TaskId>
    var nextId: TaskId
    var consumers: nat

    ghost function Abstract(): Core
      reads this, jobs
    {
      Core(state, failure, pending, nextId, consumers, jobs.state)
    }

    constructor ()
      ensures fresh(jobs) && Abstract() == Core(Starting, None, [], 1, 0, JobsRunning)
    {
      jobs := new JobRuntime();
      state, failure, pending, nextId, consumers := Starting, None, [], 1, 0;
    }

    method StartRegion() returns (result: Outcome)
      modifies this`state
      ensures (result, Abstract()) == Start(old(Abstract()))
    {
      if state != Starting { return Throws(AlreadyStarted); }
      if failure.Some? { return Throws(FailedBeforeStart); }
      state := Running;
      result := Done;
    }

    method SubmitRegion() returns (result: Outcome)
      modifies this`pending, this`nextId
      ensures (result, Abstract()) == Submit(old(Abstract()))
    {
      if state != Running { return Throws(NotRunning); }
      if |pending| >= MAX_PENDING_RUNTIME_TASKS { return Throws(TooManyPending); }
      if nextId == MAX_TASK_ID { return Throws(IdsExhausted); }
      var accepted := jobs.Submit();
      if !accepted { return Throws(JobsRejected); }
      result := Submitted(nextId);
      pending := pending + [nextId];
      nextId := nextId + 1;
    }

    method TakeRegion(id: TaskId) returns (result: Outcome)
      modifies this`pending, this`consumers
      ensures (result, Abstract()) == Take(old(Abstract()), id)
    {
      if id == 0 { return Throws(InvalidId); }
      var i := 0;
      while i < |pending| && pending[i] != id
        invariant i <= |pending| && id !in pending[..i]
      {
        i := i + 1;
      }
      if i == |pending| {
        assert pending[..i] == pending;
        return Throws(NotPending);
      }
      WithoutAt(pending, id, i);
      pending := pending[..i] + pending[i + 1..];
      consumers := consumers + 1;
      result := Done;
    }

    method RecordFailureRegion(reported: Failure) returns (result: Outcome)
      modifies this`failure, this`state
      ensures (result, Abstract()) == RecordFailure(old(Abstract()), reported)
    {
      if state == Stopped { return Throws(AfterShutdown); }
      if failure.None? {
        failure := Some(reported);
      }
      if state == Starting || state == Running {
        state := StopRequested;
      }
      result := Done;
    }

    method RequestStopRegion()
      modifies this`state, jobs
      ensures Abstract() == RequestStop(old(Abstract()))
    {
      if state == Starting || state == Running {
        state := StopRequested;
      }
      if state == Stopped { return; }
      jobs.RequestStop();
    }

    method ReleaseRegion() returns (result: Outcome, notifies: bool)
      modifies this`consumers
      ensures (result, Abstract(), notifies) == ReleaseConsumer(old(Abstract()))
    {
      if consumers == 0 { return Throws(ConsumerUnderflow), false; }
      consumers := consumers - 1;
      notifies := false;
      if consumers == 0 {
        notifies := true;
      }
      result := Done;
    }

    method BeginDrainRegion() returns (tasks: Option<seq<TaskId>>)
      modifies this`state, this`pending, jobs
      ensures (tasks, Abstract()) == BeginDrain(old(Abstract()))
    {
      if state == Stopped { return None; }
      if state == Starting || state == Running || state == StopRequested {
        state := Draining;
      }
      jobs.RequestStop();
      tasks := Some(pending);
      pending := [];
    }

    method EndDrainRegion() returns (ended: bool)
      modifies this`state
      ensures (ended, Abstract()) == EndDrain(old(Abstract()))
    {
      if consumers != 0 { return false; }
      state := if failure.Some? then Failed else Stopped;
      ended := true;
    }
  }

  lemma {:induction false} WithoutAt(pending: seq<TaskId>, id: TaskId, i: nat)
    requires i < |pending| && pending[i] == id && id !in pending[..i]
    ensures Without(pending, id) == pending[..i] + pending[i + 1..]
  {
    if i > 0 {
      assert pending[..i][0] == pending[0];
      assert pending[1..][..i - 1] == pending[..i][1..];
      WithoutAt(pending[1..], id, i - 1);
    }
  }
}
