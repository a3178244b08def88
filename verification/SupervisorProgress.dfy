/** A drain ends: its own regions and those of the waiters it waits for cannot go on for ever. */
module SupervisorProgress {
  import opened Options
  import opened Supervisor
  import opened SupervisorRuns

  // Regions a waiter still has to run, and one that it may give the drainer by waking it.
  function RegionsLeft(at: WaiterAt): nat {
    match at
    case AwaitingTask => 5
    case RecordingWait(_) => 4
    case StoppingAfterWait => 3
    case ReleasingWait => 2
  }

  ghost function WithLeft(waiters: map<TaskId, WaiterAt>, n: nat): set<TaskId> {
    set id | id in waiters && RegionsLeft(waiters[id]) == n
  }

  ghost function WaiterWork(waiters: map<TaskId, WaiterAt>): nat {
    5 * |WithLeft(waiters, 5)| + 4 * |WithLeft(waiters, 4)| + 3 * |WithLeft(waiters, 3)| + 2 * |WithLeft(waiters, 2)|
  }

  function DrainerWork(d: DrainerAt): nat {
    match d
    case NoDrainer => 0
    case SleepingForConsumers => 1
    case CheckingConsumers => 2
    case StoppingAfterJobs => 3
    case RecordingJobs(_) => 4
    case FinishingJobs => 5
    case BeginningJobs => 6
    case AwaitingTasks(tasks) => 7 + 3 * |tasks|
    case StoppingAfterTask(tasks) => 8 + 3 * |tasks|
    case RecordingTask(tasks, _) => 9 + 3 * |tasks|
  }

  ghost function Work(s: System): nat {
    DrainerWork(s.drainer) + WaiterWork(s.waiters)
  }

  lemma WaiterLeaves(waiters: map<TaskId, WaiterAt>, id: TaskId, n: nat)
    requires id in waiters
    ensures |WithLeft(waiters - {id}, n)| == |WithLeft(waiters, n)| - if RegionsLeft(waiters[id]) == n then 1 else 0
  {
    if RegionsLeft(waiters[id]) == n {
      assert WithLeft(waiters, n) == WithLeft(waiters - {id}, n) + {id};
    } else {
      assert WithLeft(waiters, n) == WithLeft(waiters - {id}, n);
    }
  }

  lemma WaiterJoins(waiters: map<TaskId, WaiterAt>, id: TaskId, at: WaiterAt, n: nat)
    requires id !in waiters
    ensures |WithLeft(waiters[id := at], n)| == |WithLeft(waiters, n)| + if RegionsLeft(at) == n then 1 else 0
  {
    if RegionsLeft(at) == n {
      assert WithLeft(waiters[id := at], n) == WithLeft(waiters, n) + {id};
    } else {
      assert WithLeft(waiters[id := at], n) == WithLeft(waiters, n);
    }
  }

  lemma WorkWithout(waiters: map<TaskId, WaiterAt>, id: TaskId)
    requires id in waiters
    ensures WaiterWork(waiters - {id}) + RegionsLeft(waiters[id]) == WaiterWork(waiters)
  {
    hide WithLeft;
    WaiterLeaves(waiters, id, 5);
    WaiterLeaves(waiters, id, 4);
    WaiterLeaves(waiters, id, 3);
    WaiterLeaves(waiters, id, 2);
  }

  lemma WorkWith(waiters: map<TaskId, WaiterAt>, id: TaskId, at: WaiterAt)
    requires id !in waiters
    ensures WaiterWork(waiters[id := at]) == WaiterWork(waiters) + RegionsLeft(at)
  {
    hide WithLeft;
    WaiterJoins(waiters, id, at, 5);
    WaiterJoins(waiters, id, at, 4);
    WaiterJoins(waiters, id, at, 3);
    WaiterJoins(waiters, id, at, 2);
  }

  lemma WaiterMoves(waiters: map<TaskId, WaiterAt>, id: TaskId, at: WaiterAt)
    requires id in waiters
    ensures WaiterWork(waiters[id := at]) + RegionsLeft(waiters[id]) == WaiterWork(waiters) + RegionsLeft(at)
  {
    hide WaiterWork;
    WorkWithout(waiters, id);
    WorkWith(waiters - {id}, id, at);
    assert (waiters - {id})[id := at] == waiters[id := at];
  }

  // A waiter that wakes the drainer pays for the drainer's next look.
  lemma WaiterEventShrinks(s: System, e: Event)
    requires Enabled(s, e) && (e.TaskFinished? || e.WaitRecords? || e.WaitStops? || e.WaitReleases?)
    ensures Work(After(s, e)) < Work(s)
  {
    hide WaiterWork;
    match e {
      case TaskFinished(id, error) => WaiterMoves(s.waiters, id, if error.Some? then RecordingWait(error.value) else ReleasingWait);
      case WaitRecords(id) => WaiterMoves(s.waiters, id, StoppingAfterWait);
      case WaitStops(id) => WaiterMoves(s.waiters, id, ReleasingWait);
      case WaitReleases(id) => WorkWithout(s.waiters, id);
    }
  }

  lemma DrainerEventShrinks(s: System, e: Event)
    requires Enabled(s, e) && IsInternal(e) && OutsideWait(e)
    ensures DrainerWork(After(s, e).drainer) < DrainerWork(s.drainer) && After(s, e).waiters == s.waiters
  {
  }

  // While a drain is under way nothing new can be submitted or waited for.
  lemma NothingNew(s: System, e: Event)
    requires Lawful(s.core) && Orderly(s) && Enabled(s, e) && s.drainer != NoDrainer && !IsInternal(e)
    ensures After(s, e).waiters == s.waiters
    ensures After(s, e).drainer == if e.DrainWakes? then CheckingConsumers else s.drainer
    ensures e.DrainWakes? ==> s.drainer == SleepingForConsumers
    ensures After(s, e).core.nextId == s.core.nextId
  {
  }

  /** While a drain is under way, each of its regions and of the waiters' lowers the work left, a wake-up for
      no reason raises it by one, and no other call changes it. */
  lemma DrainShrinks(s: System, e: Event)
    requires Inv(s) && Enabled(s, e) && s.drainer != NoDrainer
    ensures if IsInternal(e) then Work(After(s, e)) < Work(s)
            else Work(After(s, e)) == Work(s) + if e.DrainWakes? then 1 else 0
  {
    hide WaiterWork, Inv, Accounted, Counted, Lawful, Orderly, After, Enabled;
    Unfold(s);
    if !IsInternal(e) {
      NothingNew(s, e);
    } else if OutsideWait(e) {
      DrainerEventShrinks(s, e);
    } else {
      hide Work;
      WaiterEventShrinks(s, e);
    }
  }

  lemma Unfold(s: System)
    requires Inv(s)
    ensures Lawful(s.core) && Orderly(s)
  {
  }

  ghost function InternalIn(events: seq<Event>): nat {
    if events == [] then 0 else InternalIn(events[1..]) + if IsInternal(events[0]) then 1 else 0
  }

  ghost function WakesIn(events: seq<Event>): nat {
    if events == [] then 0 else WakesIn(events[1..]) + if events[0].DrainWakes? then 1 else 0
  }

  // The events of one drain: each is possible, and the drainer is at work before each.
  ghost predicate DuringDrain(s: System, events: seq<Event>)
    decreases |events|
  {
    events == [] || (s.drainer != NoDrainer && Enabled(s, events[0]) && DuringDrain(After(s, events[0]), events[1..]))
  }

  /** However the calls interleave, a drain and the Waits it waits for take at most as many regions as there
      is work when it begins, and one more for each wake-up for no reason. */
  lemma {:induction false} DrainIsBounded(s: System, events: seq<Event>)
    requires Inv(s) && DuringDrain(s, events)
    ensures InternalIn(events) <= Work(s) + WakesIn(events)
    decreases |events|
  {
    hide Inv, Work, After, Enabled, IsInternal;
    if events != [] {
      DrainShrinks(s, events[0]);
      EventKeeps(s, events[0]);
      DrainIsBounded(After(s, events[0]), events[1..]);
    }
  }
}
