/** The producer/consumer handoff: two threads, a slot pool and a packet channel.

    One step is one lock region, one copy of a payload, or one notification made after
    a lock was released, so every interleaving of the two threads at that grain is a
    run. Sleeping threads wake only when notified, or spuriously in a step of their own.
*/
module Handoff {
  import opened Bytes
  import opened Options
  import opened PacketChannel
  import opened FrameSlots

  const PAYLOAD_BYTES: nat := 8
  const PRODUCER: Thread := 1
  const CONSUMER: Thread := 2

  datatype Config = Config(ticks: nat, slotCount: nat, capacity: nat, poolId: nat)

  ghost predicate ValidConfig(cfg: Config) {
    cfg.ticks < MAX_GENERATION && cfg.slotCount >= 1 && cfg.capacity >= 1
  }

  // Where each thread is; asleep(awake) is inside a wait, after a notification or not.
  datatype ProducerAt =
    | Acquiring | AcquireAsleep(awake: bool)
    | Filling(token: Token) | Sizing(token: Token)
    | Sending(token: Token) | SendAsleep(token: Token, awake: bool)
    | SignalSent(token: Token) | Publishing(token: Token)
    | ClosingSlots | SignalSlots | ClosingChannel | SignalChannel
    | ProducerDone | ProducerThrew

  datatype ConsumerAt =
    | Consuming | ConsumeAsleep(awake: bool)
    | SignalTaken(packet: Packet)
    | Leasing(packet: Packet) | LeaseAsleep(packet: Packet, awake: bool)
    | Checking(packet: Packet) | Comparing(packet: Packet) | Releasing(packet: Packet)
    | Counting | ConsumerDone | ConsumerThrew

  datatype Delivery = Delivery(tick: nat, payload: seq<byte>)

  datatype State = State(pool: Pool, channel: Channel,
                         p: ProducerAt, tick: nat,
                         c: ConsumerAt, expected: nat, consumed: nat, delivered: seq<Delivery>)

  function Init(cfg: Config): State {
    State(FreshPool(cfg.slotCount, PAYLOAD_BYTES, cfg.poolId), Channel([], cfg.capacity, false, None, None),
          if cfg.ticks == 0 then ClosingSlots else Acquiring, 1, Consuming, 1, 0, [])
  }

  // ------------------------------------------------------------------
  // Notifications
  // ------------------------------------------------------------------

  function WakeProducer(p: ProducerAt): ProducerAt {
    match p
    case AcquireAsleep(_) => AcquireAsleep(true)
    case _ => p
  }

  function WakeConsumer(c: ConsumerAt): ConsumerAt {
    match c
    case LeaseAsleep(packet, _) => LeaseAsleep(packet, true)
    case _ => c
  }

  // m_state_changed.notify_all(): both threads wait on it.
  function NotifySlots(s: State): State {
    s.(p := WakeProducer(s.p), c := WakeConsumer(s.c))
  }

  function NotifyNotEmpty(s: State): State {
    if s.c.ConsumeAsleep? then s.(c := ConsumeAsleep(true)) else s
  }

  function NotifyNotFull(s: State): State {
    if s.p.SendAsleep? then s.(p := SendAsleep(s.p.token, true)) else s
  }

  // ------------------------------------------------------------------
  // The producer
  // ------------------------------------------------------------------

  function AcquireResult(s: State, outcome: (Acquired, Pool)): State {
    match outcome.0
    case Leased(token) => s.(pool := outcome.1, p := Filling(token))
    case Blocks => s.(pool := outcome.1, p := AcquireAsleep(false))
    case _ => s.(pool := outcome.1, p := ProducerThrew)
  }

  function SendResult(s: State, token: Token, outcome: (Sent, Channel)): State {
    match outcome.0
    case Sent => s.(channel := outcome.1, p := SignalSent(token))
    case SendBlocks => s.(channel := outcome.1, p := SendAsleep(token, false))
    case _ => s.(channel := outcome.1, p := ProducerThrew)
  }

  function PacketFor(tick: nat, token: Token): Packet {
    Packet(tick, Xor(tick, token.generation), Some(token))
  }

  function NextTick(cfg: Config, s: State): State {
    s.(tick := s.tick + 1, p := if s.tick + 1 <= cfg.ticks then Acquiring else ClosingSlots)
  }

  predicate ProducerCanStep(s: State) {
    match s.p
    case AcquireAsleep(awake) => awake
    case SendAsleep(_, awake) => awake
    case ProducerDone => false
    case ProducerThrew => false
    case _ => true
  }

  function ProducerStep(cfg: Config, s: State): State {
    match s.p
    case Acquiring => AcquireResult(s, BeginAcquireWrite(s.pool, PRODUCER))
    case AcquireAsleep(_) => AcquireResult(s, ResumeAcquireWrite(s.pool))
    case Filling(token) =>
      if CheckWriter(s.pool, PRODUCER, token) != Ok || |s.pool.slots[token.slotId].payload| < PAYLOAD_BYTES then s.(p := ProducerThrew)
      else s.(pool := Store(s.pool, token.slotId, LittleEndian(s.tick, PAYLOAD_BYTES)), p := Sizing(token))
    case Sizing(token) =>
      var (result, pool) := SetPayloadSize(s.pool, PRODUCER, token, PAYLOAD_BYTES);
      s.(pool := pool, p := if result == Ok then Sending(token) else ProducerThrew)
    case Sending(token) => SendResult(s, token, Send(s.channel, PRODUCER, PacketFor(s.tick, token)))
    case SendAsleep(token, _) => SendResult(s, token, Send(s.channel, PRODUCER, PacketFor(s.tick, token)))
    case SignalSent(token) => NotifyNotEmpty(s).(p := Publishing(token))
    case Publishing(token) =>
      var (result, pool) := PublishWrite(s.pool, PRODUCER, token);
      if result == Ok then NextTick(cfg, NotifySlots(s.(pool := pool))) else s.(p := ProducerThrew)
    case ClosingSlots => s.(pool := s.pool.(closed := true), p := SignalSlots)
    case SignalSlots => NotifySlots(s).(p := ClosingChannel)
    case ClosingChannel => s.(channel := s.channel.(closed := true), p := SignalChannel)
    case SignalChannel => NotifyNotFull(NotifyNotEmpty(s)).(p := ProducerDone)
    case ProducerDone => s
    case ProducerThrew => s
  }

  // ------------------------------------------------------------------
  // The consumer
  // ------------------------------------------------------------------

  function ReceiveResult(s: State, outcome: (Received, Channel)): State {
    match outcome.0
    case Received(packet) => s.(channel := outcome.1, c := SignalTaken(packet))
    case Drained => s.(channel := outcome.1, c := Counting)
    case ReceiveBlocks => s.(channel := outcome.1, c := ConsumeAsleep(false))
    case ReceiveWrongThread => s.(c := ConsumerThrew)
  }

  function LeaseResult(s: State, packet: Packet, outcome: (Acquired, Pool)): State {
    match outcome.0
    case Leased(_) => s.(pool := outcome.1, c := Checking(packet))
    case Blocks => s.(pool := outcome.1, c := LeaseAsleep(packet, false))
    case _ => s.(pool := outcome.1, c := ConsumerThrew)
  }

  predicate ConsumerCanStep(s: State) {
    match s.c
    case ConsumeAsleep(awake) => awake
    case LeaseAsleep(_, awake) => awake
    case ConsumerDone => false
    case ConsumerThrew => false
    case _ => true
  }

  // The payload the read lease shows, or nothing where the call would throw.
  function Shown(s: State, token: Token): Option<seq<byte>> {
    if CheckReader(s.pool, CONSUMER, token) != Ok then None
    else
      var slot := s.pool.slots[token.slotId];
      if slot.payloadSize > |slot.payload| then None else Some(slot.payload[..slot.payloadSize])
  }

  function ConsumerStep(cfg: Config, s: State): State {
    match s.c
    case Consuming => ReceiveResult(s, Receive(s.channel, CONSUMER))
    case ConsumeAsleep(_) => ReceiveResult(s, Receive(s.channel, CONSUMER))
    case SignalTaken(packet) => NotifyNotFull(s).(c := Leasing(packet))
    case Leasing(packet) =>
      if packet.slot.None? then s.(c := ConsumerThrew)
      else LeaseResult(s, packet, BeginAcquireRead(s.pool, CONSUMER, packet.slot.value, true))
    case LeaseAsleep(packet, _) =>
      if packet.slot.None? then s.(c := ConsumerThrew)
      else LeaseResult(s, packet, ResumeAcquireRead(s.pool, packet.slot.value, true))
    case Checking(packet) =>
      if packet.slot.Some? && CheckReader(s.pool, CONSUMER, packet.slot.value) == Ok &&
        s.pool.slots[packet.slot.value.slotId].payloadSize == PAYLOAD_BYTES && packet.generation == s.expected
      then s.(c := Comparing(packet)) else s.(c := ConsumerThrew)
    case Comparing(packet) =>
      var shown := if packet.slot.Some? then Shown(s, packet.slot.value) else None;
      if shown.Some? && FromLittleEndian(shown.value) == s.expected && packet.worldHash == Xor(s.expected, packet.slot.value.generation)
      then s.(c := Releasing(packet), delivered := s.delivered + [Delivery(packet.generation, shown.value)])
      else s.(c := ConsumerThrew)
    case Releasing(packet) =>
      if packet.slot.None? then s.(c := ConsumerThrew)
      else
        var (result, pool) := ReleaseRead(s.pool, CONSUMER, packet.slot.value);
        if result == Ok then NotifySlots(s.(pool := pool)).(c := Consuming, expected := s.expected + 1)
        else s.(c := ConsumerThrew)
    case Counting =>
      if s.expected == cfg.ticks + 1 then s.(c := ConsumerDone, consumed := s.expected - 1) else s.(c := ConsumerThrew)
    case ConsumerDone => s
    case ConsumerThrew => s
  }

  // ------------------------------------------------------------------
  // Interleavings
  // ------------------------------------------------------------------

  datatype Actor = Produces | Consumes | SpuriousProducer | SpuriousConsumer

  predicate CanAct(s: State, actor: Actor) {
    match actor
    case Produces => ProducerCanStep(s)
    case Consumes => ConsumerCanStep(s)
    case SpuriousProducer => s.p == AcquireAsleep(false) || (s.p.SendAsleep? && !s.p.awake)
    case SpuriousConsumer => s.c == ConsumeAsleep(false) || (s.c.LeaseAsleep? && !s.c.awake)
  }

  function Act(cfg: Config, s: State, actor: Actor): State {
    match actor
    case Produces => ProducerStep(cfg, s)
    case Consumes => ConsumerStep(cfg, s)
    case SpuriousProducer => if s.p.SendAsleep? then s.(p := SendAsleep(s.p.token, true)) else s.(p := AcquireAsleep(true))
    case SpuriousConsumer => if s.c.LeaseAsleep? then s.(c := LeaseAsleep(s.c.packet, true)) else s.(c := ConsumeAsleep(true))
  }

  // The state after a schedule, or nothing if it named a thread that could not act.
  function RunSchedule(cfg: Config, s: State, schedule: seq<Actor>): Option<State>
    decreases |schedule|
  {
    if schedule == [] then Some(s)
    else if !CanAct(s, schedule[0]) then None
    else RunSchedule(cfg, Act(cfg, s, schedule[0]), schedule[1..])
  }
}
