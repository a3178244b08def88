/** The handoff finishes: some thread can always move, and every schedule is bounded. */
module HandoffProgress {
  import opened Bytes
  import opened Options
  import opened PacketChannel
  import opened FrameSlots
  import opened Handoff
  import opened HandoffSafety

  // ------------------------------------------------------------------
  // Never stuck
  // ------------------------------------------------------------------

  ghost predicate BothFinished(s: State) {
    s.p.ProducerDone? && s.c.ConsumerDone?
  }

  // A producer that sleeps for a slot leaves a packet for the consumer to work on.
  lemma AllSlotsInFlight(cfg: Config, s: State)
    requires Inv(cfg, s) && s.p == AcquireAsleep(false)
    ensures InFlight(s) != []
  {
    assert s.pool.slots[0].state != Free;
    assert IsOwned(s, 0);
  }

  /** Until both threads have finished, one of them can act without a spurious wake-up. */
  lemma NeverStuck(cfg: Config, s: State)
    requires Inv(cfg, s) && !BothFinished(s)
    ensures CanAct(s, Produces) || CanAct(s, Consumes)
  {
    if !ConsumerCanStep(s) && s.p == AcquireAsleep(false) {
      AllSlotsInFlight(cfg, s);
    }
  }

  // ------------------------------------------------------------------
  // Always finishing
  // ------------------------------------------------------------------

  ghost function ProducerStage(p: ProducerAt): nat {
    match p
    case Acquiring => 7
    case AcquireAsleep(_) => 7
    case Filling(_) => 6
    case Sizing(_) => 5
    case Sending(_) => 4
    case SendAsleep(_, _) => 4
    case SignalSent(_) => 3
    case Publishing(_) => 2
    case ClosingSlots => 4
    case SignalSlots => 3
    case ClosingChannel => 2
    case SignalChannel => 1
    case ProducerDone => 0
    case ProducerThrew => 0
  }

  ghost function ConsumerStage(c: ConsumerAt): nat {
    match c
    case Consuming => 7
    case ConsumeAsleep(_) => 7
    case SignalTaken(_) => 6
    case Leasing(_) => 5
    case LeaseAsleep(_, _) => 5
    case Checking(_) => 4
    case Comparing(_) => 3
    case Releasing(_) => 2
    case Counting => 1
    case ConsumerDone => 0
    case ConsumerThrew => 0
  }

  ghost function ProducerAlert(p: ProducerAt): nat {
    match p
    case AcquireAsleep(awake) => if awake then 1 else 0
    case SendAsleep(_, awake) => if awake then 1 else 0
    case _ => 1
  }

  ghost function ConsumerAlert(c: ConsumerAt): nat {
    match c
    case ConsumeAsleep(awake) => if awake then 1 else 0
    case LeaseAsleep(_, awake) => if awake then 1 else 0
    case _ => 1
  }

  // Work left, plus one for each thread that is not asleep.
  ghost function Measure(cfg: Config, s: State): int {
    3 * (8 * (cfg.ticks + 1 - s.tick) + ProducerStage(s.p)) +
    3 * (8 * (cfg.ticks + 1 - s.expected) + ConsumerStage(s.c)) +
    ProducerAlert(s.p) + ConsumerAlert(s.c)
  }

  lemma MeasureBounded(cfg: Config, s: State)
    requires Inv(cfg, s)
    ensures 0 <= Measure(cfg, s) <= Measure(cfg, Init(cfg))
  {
  }

  // A producer step that does not throw moves on, falls asleep, or starts the next tick.
  lemma ProducerMovesOn(cfg: Config, s: State)
    requires ProducerCanStep(s) && s.tick <= cfg.ticks + 1 && (s.p.Publishing? ==> s.tick <= cfg.ticks)
    requires !ProducerStep(cfg, s).p.ProducerThrew?
    ensures var s' := ProducerStep(cfg, s);
      && s'.expected == s.expected && ConsumerStage(s'.c) == ConsumerStage(s.c)
      && ConsumerAlert(s'.c) <= ConsumerAlert(s.c) + 1
      && ((s'.tick == s.tick && ProducerStage(s'.p) < ProducerStage(s.p))
          || (s'.tick == s.tick && ProducerStage(s'.p) == ProducerStage(s.p) && ProducerAlert(s'.p) == 0 && s'.c == s.c)
          || (s'.tick == s.tick + 1 && s.p.Publishing?))
    ensures ProducerAlert(s.p) == 1
  {
    var s' := ProducerStep(cfg, s);
    match s.p {
      case Acquiring => assert s'.c == s.c && s'.tick == s.tick && s'.expected == s.expected;
      case AcquireAsleep(_) => assert s'.c == s.c && s'.tick == s.tick && s'.expected == s.expected;
      case Publishing(_) =>
      case _ =>
    }
  }

  lemma ConsumerMovesOn(cfg: Config, s: State)
    requires ConsumerCanStep(s) && !ConsumerStep(cfg, s).c.ConsumerThrew?
    ensures var s' := ConsumerStep(cfg, s);
      && s'.tick == s.tick && ProducerStage(s'.p) == ProducerStage(s.p)
      && ProducerAlert(s'.p) <= ProducerAlert(s.p) + 1
      && ((s'.expected == s.expected && ConsumerStage(s'.c) < ConsumerStage(s.c))
          || (s'.expected == s.expected && ConsumerStage(s'.c) == ConsumerStage(s.c) && ConsumerAlert(s'.c) == 0 && s'.p == s.p)
          || (s'.expected == s.expected + 1 && s.c.Releasing?))
    ensures ConsumerAlert(s.c) == 1
  {
    var s' := ConsumerStep(cfg, s);
    match s.c {
      case Consuming => assert s'.p == s.p && s'.tick == s.tick && s'.expected == s.expected;
      case ConsumeAsleep(_) => assert s'.p == s.p && s'.tick == s.tick && s'.expected == s.expected;
      case Leasing(_) => assert s'.p == s.p && s'.tick == s.tick && s'.expected == s.expected;
      case LeaseAsleep(_, _) => assert s'.p == s.p && s'.tick == s.tick && s'.expected == s.expected;
      case _ =>
    }
  }

  lemma ProducerStepShrinks(cfg: Config, s: State)
    requires Inv(cfg, s) && ProducerCanStep(s)
    ensures Measure(cfg, ProducerStep(cfg, s)) < Measure(cfg, s)
  {
    ProducerKeeps(cfg, s);
    NotThrown(cfg, ProducerStep(cfg, s));
    NotThrown(cfg, s);
    ProducerMovesOn(cfg, s);
  }

  lemma ConsumerStepShrinks(cfg: Config, s: State)
    requires Inv(cfg, s) && ConsumerCanStep(s)
    ensures Measure(cfg, ConsumerStep(cfg, s)) < Measure(cfg, s)
  {
    ConsumerKeeps(cfg, s);
    NotThrown(cfg, ConsumerStep(cfg, s));
    ConsumerMovesOn(cfg, s);
  }

  lemma NotThrown(cfg: Config, s: State)
    requires Inv(cfg, s)
    ensures !s.p.ProducerThrew? && !s.c.ConsumerThrew? && s.tick <= cfg.ticks + 1 && (s.p.Publishing? ==> s.tick <= cfg.ticks)
  {
  }

  predicate IsSpurious(actor: Actor) {
    actor.SpuriousProducer? || actor.SpuriousConsumer?
  }

  /** Every step of a thread lowers the measure; a spurious wake-up raises it by one. */
  lemma ActShrinks(cfg: Config, s: State, actor: Actor)
    requires Inv(cfg, s) && CanAct(s, actor)
    ensures if IsSpurious(actor) then Measure(cfg, Act(cfg, s, actor)) == Measure(cfg, s) + 1
            else Measure(cfg, Act(cfg, s, actor)) < Measure(cfg, s)
  {
    match actor {
      case Produces => ProducerStepShrinks(cfg, s);
      case Consumes => ConsumerStepShrinks(cfg, s);
      case _ =>
    }
  }

  ghost function SpuriousIn(schedule: seq<Actor>): nat {
    if schedule == [] then 0 else (if IsSpurious(schedule[0]) then 1 else 0) + SpuriousIn(schedule[1..])
  }

  lemma {:induction false} ScheduleFrom(cfg: Config, s: State, schedule: seq<Actor>)
    requires Inv(cfg, s) && RunSchedule(cfg, s, schedule).Some?
    ensures Inv(cfg, RunSchedule(cfg, s, schedule).value)
    ensures |schedule| + Measure(cfg, RunSchedule(cfg, s, schedule).value) <= Measure(cfg, s) + 2 * SpuriousIn(schedule)
    decreases |schedule|
  {
    if schedule != [] {
      ActKeeps(cfg, s, schedule[0]);
      ActShrinks(cfg, s, schedule[0]);
      ScheduleFrom(cfg, Act(cfg, s, schedule[0]), schedule[1..]);
    }
  }

  // ------------------------------------------------------------------
  // The main results
  // ------------------------------------------------------------------

  /** Under every interleaving: nothing throws, ticks arrive in order with their own payloads, and
      the schedule is no longer than the work in it plus two steps for each spurious wake-up. */
  lemma EveryScheduleIsSafe(cfg: Config, schedule: seq<Actor>)
    requires ValidConfig(cfg) && RunSchedule(cfg, Init(cfg), schedule).Some?
    ensures var s := RunSchedule(cfg, Init(cfg), schedule).value;
      && !s.p.ProducerThrew? && !s.c.ConsumerThrew?
      && |s.delivered| <= cfg.ticks
      && (forall i :: 0 <= i < |s.delivered| ==> s.delivered[i] == Delivery(i + 1, LittleEndian(i + 1, PAYLOAD_BYTES)))
    ensures |schedule| <= 48 * cfg.ticks + 50 + 2 * SpuriousIn(schedule)
  {
    InitHolds(cfg);
    ScheduleFrom(cfg, Init(cfg), schedule);
    MeasureBounded(cfg, RunSchedule(cfg, Init(cfg), schedule).value);
  }

  /** A schedule after which neither thread can move has delivered every tick and shut everything down. */
  lemma EveryCompleteScheduleDelivers(cfg: Config, schedule: seq<Actor>)
    requires ValidConfig(cfg) && RunSchedule(cfg, Init(cfg), schedule).Some?
    requires var s := RunSchedule(cfg, Init(cfg), schedule).value; !CanAct(s, Produces) && !CanAct(s, Consumes)
    ensures var s := RunSchedule(cfg, Init(cfg), schedule).value;
      && s.p.ProducerDone? && s.c.ConsumerDone? && s.consumed == cfg.ticks && |s.delivered| == cfg.ticks
      && s.channel.closed && s.channel.queue == [] && s.pool.closed && IsQuiescent(s.pool)
  {
    InitHolds(cfg);
    ScheduleFrom(cfg, Init(cfg), schedule);
    var s := RunSchedule(cfg, Init(cfg), schedule).value;
    if !BothFinished(s) { NeverStuck(cfg, s); }
    FinishedIsQuiescent(cfg, s);
  }

  lemma FinishedIsQuiescent(cfg: Config, s: State)
    requires Inv(cfg, s) && BothFinished(s)
    ensures s.channel.closed && s.channel.queue == [] && s.pool.closed && IsQuiescent(s.pool)
    ensures s.consumed == cfg.ticks && |s.delivered| == cfg.ticks
  {
    assert InFlight(s) == [];
    forall i | 0 <= i < |s.pool.slots|
      ensures s.pool.slots[i].state == Free
    {
      assert !IsOwned(s, i);
    }
  }

  /** The stress run itself, under an arbitrary scheduler: it ends, and its closing check holds. */
  method RunSpscStress(cfg: Config) returns (s: State)
    requires ValidConfig(cfg)
    ensures BothFinished(s) && s.consumed == cfg.ticks
    ensures s.channel.closed && s.channel.queue == [] && IsQuiescent(s.pool)
    ensures |s.delivered| == cfg.ticks
    ensures forall i :: 0 <= i < cfg.ticks ==> s.delivered[i] == Delivery(i + 1, LittleEndian(i + 1, PAYLOAD_BYTES))
  {
    s := Init(cfg);
    InitHolds(cfg);
    while !(s.p.ProducerDone? && s.c.ConsumerDone?)
      invariant Inv(cfg, s)
      decreases Measure(cfg, s)
    {
      NeverStuck(cfg, s);
      MeasureBounded(cfg, s);
      var first: bool := *;
      var actor := if ProducerCanStep(s) && (first || !ConsumerCanStep(s)) then Produces else Consumes;
      ActKeeps(cfg, s, actor);
      ActShrinks(cfg, s, actor);
      s := Act(cfg, s, actor);
    }
    FinishedIsQuiescent(cfg, s);
  }
}
