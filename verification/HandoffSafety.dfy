/** What every interleaving of the handoff keeps: no exception, ordered delivery, no lost wake-up. */
module HandoffSafety {
  import opened Bytes
  import opened Options
  import opened PacketChannel
  import opened FrameSlots
  import opened Handoff

  // ------------------------------------------------------------------
  // Views of a state
  // ------------------------------------------------------------------

  // The packet the consumer has taken off the channel and not finished with.
  ghost function Held(c: ConsumerAt): seq<Packet> {
    match c
    case SignalTaken(packet) => [packet]
    case Leasing(packet) => [packet]
    case LeaseAsleep(packet, _) => [packet]
    case Checking(packet) => [packet]
    case Comparing(packet) => [packet]
    case Releasing(packet) => [packet]
    case _ => []
  }

  ghost predicate HasLease(c: ConsumerAt) {
    c.Checking? || c.Comparing? || c.Releasing?
  }

  // Packets sent and not yet released, oldest first.
  ghost function InFlight(s: State): seq<Packet> {
    Held(s.c) + s.channel.queue
  }

  // Sent but still to be published: the token travels before its slot is readable.
  ghost predicate HasSent(p: ProducerAt) {
    p.SignalSent? || p.Publishing?
  }

  ghost function Unsent(p: ProducerAt): Option<Token> {
    match p
    case Filling(token) => Some(token)
    case Sizing(token) => Some(token)
    case Sending(token) => Some(token)
    case SendAsleep(token, _) => Some(token)
    case _ => None
  }

  ghost predicate WaitsForSlot(p: ProducerAt) {
    p.Acquiring? || p.AcquireAsleep?
  }

  ghost predicate HasFinished(p: ProducerAt) {
    p.ClosingSlots? || p.SignalSlots? || p.ClosingChannel? || p.SignalChannel? || p.ProducerDone?
  }

  // The tick of the next packet to be sent.
  ghost function NextToSend(s: State): nat {
    if HasSent(s.p) then s.tick + 1 else s.tick
  }

  // ------------------------------------------------------------------
  // The invariant
  // ------------------------------------------------------------------

  ghost predicate Shape(cfg: Config, s: State) {
    && |s.pool.slots| == cfg.slotCount && s.pool.payloadCapacity == PAYLOAD_BYTES && s.pool.poolId == cfg.poolId
    && (forall i :: 0 <= i < |s.pool.slots| ==> |s.pool.slots[i].payload| == PAYLOAD_BYTES)
    && s.channel.capacity == cfg.capacity && |s.channel.queue| <= cfg.capacity
    && 1 <= s.tick <= cfg.ticks + 1 && (HasFinished(s.p) <==> s.tick == cfg.ticks + 1)
    && !s.p.ProducerThrew? && !s.c.ConsumerThrew?
    && 1 <= s.expected && s.expected + |InFlight(s)| == NextToSend(s)
    && (s.pool.closed <==> HasFinished(s.p) && !s.p.ClosingSlots?)
    && (s.channel.closed <==> s.p.SignalChannel? || s.p.ProducerDone?)
  }

  ghost predicate Registered(s: State) {
    && (s.pool.producer == Some(PRODUCER) || (s.pool.producer == None && (s.p == Acquiring || HasFinished(s.p))))
    && (s.channel.producer == Some(PRODUCER) || s.channel.producer == None)
    && (s.pool.consumer == Some(CONSUMER) || (s.pool.consumer == None && !HasLease(s.c) && !s.c.LeaseAsleep?))
    && (s.channel.consumer == Some(CONSUMER) || s.channel.consumer == None)
    && s.pool.activeOperations == (if s.p.AcquireAsleep? then 1 else 0) + (if s.c.LeaseAsleep? then 1 else 0)
  }

  ghost function ExpectedState(s: State, k: nat): SlotState {
    if k == 0 && HasLease(s.c) then SlotState.Reading
    else if HasSent(s.p) && k + 1 == |InFlight(s)| then Writing
    else Published
  }

  // The k-th packet in flight carries its own tick, in a slot that still holds that tick.
  ghost predicate PacketCarries(s: State, k: nat)
    requires k < |InFlight(s)|
  {
    var packet := InFlight(s)[k];
    && packet.generation == s.expected + k
    && packet.slot.Some? && Honours(s.pool, packet.slot.value)
    && packet.worldHash == Xor(packet.generation, packet.slot.value.generation)
    && var slot := s.pool.slots[packet.slot.value.slotId];
       slot.state == ExpectedState(s, k) && slot.payloadSize == PAYLOAD_BYTES &&
       slot.payload == LittleEndian(packet.generation, PAYLOAD_BYTES)
  }

  ghost function SlotOf(packet: Packet): int {
    if packet.slot.Some? then packet.slot.value.slotId else -1
  }

  ghost predicate SlotsDiffer(packets: seq<Packet>) {
    forall j, k :: 0 <= j < k < |packets| ==> SlotOf(packets[j]) != SlotOf(packets[k])
  }

  ghost predicate Occupies(packets: seq<Packet>, i: int) {
    exists k :: 0 <= k < |packets| && SlotOf(packets[k]) == i
  }

  ghost predicate PacketsCarry(s: State) {
    && (forall k :: 0 <= k < |InFlight(s)| ==> PacketCarries(s, k))
    && SlotsDiffer(InFlight(s))
    && (HasSent(s.p) ==> InFlight(s) != [] && InFlight(s)[|InFlight(s)| - 1].slot == Some(s.p.token))
    && (HasSent(s.p) && HasLease(s.c) ==> |InFlight(s)| > 1)
  }

  // The slot being prepared belongs to no packet; every other slot not in flight is free.
  ghost predicate SlotsOwned(s: State) {
    && (Unsent(s.p).Some? ==> Honours(s.pool, Unsent(s.p).value) && Prepared(s, Unsent(s.p).value))
    && (Unsent(s.p).Some? ==> !Occupies(InFlight(s), Unsent(s.p).value.slotId))
    && (forall i :: 0 <= i < |s.pool.slots| && s.pool.slots[i].state != Free ==> IsOwned(s, i))
    && (forall i :: 0 <= i < |s.pool.slots| ==> s.pool.slots[i].generation < s.tick + if WaitsForSlot(s.p) then 0 else 1)
  }

  ghost predicate IsOwned(s: State, i: nat) {
    (Unsent(s.p).Some? && Unsent(s.p).value.slotId == i) || Occupies(InFlight(s), i)
  }

  ghost predicate Prepared(s: State, token: Token)
    requires Honours(s.pool, token)
  {
    var slot := s.pool.slots[token.slotId];
    && slot.state == Writing
    && (!s.p.Filling? ==> slot.payload == LittleEndian(s.tick, PAYLOAD_BYTES))
    && (s.p.Sending? || s.p.SendAsleep? ==> slot.payloadSize == PAYLOAD_BYTES)
  }

  // A thread asleep and not notified has nothing to do, or its notification is on its way.
  ghost predicate NoLostWakeup(cfg: Config, s: State) {
    && (s.p == AcquireAsleep(false) ==> FirstFree(s.pool.slots) == |s.pool.slots|)
    && (s.p.SendAsleep? && !s.p.awake ==> |s.channel.queue| == cfg.capacity || s.c.SignalTaken?)
    && (s.c == ConsumeAsleep(false) ==>
          (s.channel.queue == [] && !s.channel.closed) || s.p.SignalSent? || s.p.SignalChannel?)
    && (s.c.LeaseAsleep? && !s.c.awake ==> HasSent(s.p) && |InFlight(s)| == 1)
  }

  // Released packets, and the one being released, in order.
  ghost predicate Logged(cfg: Config, s: State) {
    && |s.delivered| + 1 == s.expected + (if s.c.Releasing? then 1 else 0)
    && (forall i :: 0 <= i < |s.delivered| ==> s.delivered[i] == Delivery(i + 1, LittleEndian(i + 1, PAYLOAD_BYTES)))
    && (s.c.Counting? || s.c.ConsumerDone? ==> s.expected == cfg.ticks + 1 && s.channel.closed && s.channel.queue == [])
    && (s.c.ConsumerDone? ==> s.consumed == cfg.ticks)
  }

  ghost predicate Inv(cfg: Config, s: State) {
    && ValidConfig(cfg)
    && Shape(cfg, s) && Registered(s) && PacketsCarry(s) && SlotsOwned(s) && NoLostWakeup(cfg, s) && Logged(cfg, s)
  }

  lemma InitHolds(cfg: Config)
    requires ValidConfig(cfg)
    ensures Inv(cfg, Init(cfg))
  {
  }

  // ------------------------------------------------------------------
  // The producer's steps
  // ------------------------------------------------------------------

  // Changes that leave packets, slots and both threads' holdings alone.
  ghost predicate SameHoldings(s: State, s': State) {
    && s'.pool.slots == s.pool.slots && s'.pool.poolId == s.pool.poolId && s'.channel.queue == s.channel.queue
    && Held(s'.c) == Held(s.c) && HasLease(s'.c) == HasLease(s.c) && s'.expected == s.expected
    && HasSent(s'.p) == HasSent(s.p) && (HasSent(s.p) ==> s'.p.token == s.p.token)
  }

  lemma PacketsUntouched(s: State, s': State)
    requires PacketsCarry(s) && SameHoldings(s, s')
    ensures PacketsCarry(s')
  {
    assert InFlight(s') == InFlight(s);
    forall k | 0 <= k < |InFlight(s')|
      ensures PacketCarries(s', k)
    {
      assert PacketCarries(s, k);
    }
  }

  lemma SlotsUntouched(s: State, s': State)
    requires SlotsOwned(s) && SameHoldings(s, s') && s'.tick == s.tick && Unsent(s'.p) == Unsent(s.p)
    requires Unsent(s.p).Some? ==> s'.p == s.p || ((s.p.Sending? || s.p.SendAsleep?) && s'.p.SendAsleep?)
    requires WaitsForSlot(s'.p) == WaitsForSlot(s.p)
    ensures SlotsOwned(s')
  {
    assert InFlight(s') == InFlight(s);
    forall i | 0 <= i < |s'.pool.slots| && s'.pool.slots[i].state != Free
      ensures IsOwned(s', i)
    {
      assert IsOwned(s, i);
    }
  }

  // Steps that only move a thread, flip a flag or register it.
  ghost predicate QuietProducer(p: ProducerAt) {
    p.SignalSent? || p.ClosingSlots? || p.SignalSlots? || p.ClosingChannel? || p.SignalChannel?
  }

  // Everything but the packets and the slots.
  ghost predicate Rest(cfg: Config, s: State) {
    ValidConfig(cfg) && Shape(cfg, s) && Registered(s) && NoLostWakeup(cfg, s) && Logged(cfg, s)
  }

  lemma QuietProducerKeeps(cfg: Config, s: State)
    requires Inv(cfg, s) && QuietProducer(s.p)
    ensures Inv(cfg, ProducerStep(cfg, s))
  {
    hide LittleEndian, Xor, PacketsCarry, SlotsOwned;
    var s' := ProducerStep(cfg, s);
    assert InFlight(s') == InFlight(s);
    PacketsUntouched(s, s');
    SlotsUntouched(s, s');
    match s.p {
      case SignalSent(_) => SignalSentRest(cfg, s);
      case SignalSlots => SignalSlotsRest(cfg, s);
      case SignalChannel => SignalChannelRest(cfg, s);
      case _ => ClosingRest(cfg, s);
    }
  }

  lemma SignalSentRest(cfg: Config, s: State)
    requires Rest(cfg, s) && s.p.SignalSent?
    ensures Rest(cfg, ProducerStep(cfg, s))
  {
    var c := if s.c.ConsumeAsleep? then ConsumeAsleep(true) else s.c;
    var s' := s.(c := c, p := Publishing(s.p.token));
    assert ProducerStep(cfg, s) == s';
    assert InFlight(s') == InFlight(s);
  }

  lemma SignalSlotsRest(cfg: Config, s: State)
    requires Rest(cfg, s) && s.p.SignalSlots?
    ensures Rest(cfg, ProducerStep(cfg, s))
  {
    var s' := s.(c := WakeConsumer(s.c), p := ClosingChannel);
    assert ProducerStep(cfg, s) == s';
    assert InFlight(s') == InFlight(s);
  }

  lemma SignalChannelRest(cfg: Config, s: State)
    requires Rest(cfg, s) && s.p.SignalChannel?
    ensures Rest(cfg, ProducerStep(cfg, s))
  {
    var c := if s.c.ConsumeAsleep? then ConsumeAsleep(true) else s.c;
    var s' := s.(c := c, p := ProducerDone);
    assert ProducerStep(cfg, s) == s';
    assert InFlight(s') == InFlight(s);
  }

  lemma ClosingRest(cfg: Config, s: State)
    requires Rest(cfg, s) && (s.p.ClosingSlots? || s.p.ClosingChannel?)
    ensures Rest(cfg, ProducerStep(cfg, s))
  {
    assert InFlight(ProducerStep(cfg, s)) == InFlight(s);
  }

  // While no slot is free, every slot is owned by a packet in flight.
  lemma AcquireKeeps(cfg: Config, s: State)
    requires Inv(cfg, s) && WaitsForSlot(s.p) && ProducerCanStep(s)
    ensures Inv(cfg, ProducerStep(cfg, s))
  {
    if FirstFree(s.pool.slots) == |s.pool.slots| {
      AcquireWaits(cfg, s);
    } else {
      AcquireOpens(cfg, s, FirstFree(s.pool.slots));
    }
  }

  lemma AcquireWaits(cfg: Config, s: State)
    requires Inv(cfg, s) && WaitsForSlot(s.p) && ProducerCanStep(s) && FirstFree(s.pool.slots) == |s.pool.slots|
    ensures Inv(cfg, ProducerStep(cfg, s))
  {
    var pool := if s.p.Acquiring? then s.pool.(producer := Some(PRODUCER), activeOperations := s.pool.activeOperations + 1) else s.pool;
    var s' := s.(pool := pool, p := AcquireAsleep(false));
    assert ProducerStep(cfg, s) == s';
    assert InFlight(s') == InFlight(s);
    PacketsUntouched(s, s');
    SlotsUntouched(s, s');
  }

  ghost function Acquired(s: State, i: nat): State
    requires i < |s.pool.slots|
  {
    var generation := s.pool.slots[i].generation + 1;
    var operations := if s.p.AcquireAsleep? && s.pool.activeOperations > 0 then s.pool.activeOperations - 1 else s.pool.activeOperations;
    s.(pool := s.pool.(producer := Some(PRODUCER), activeOperations := operations,
                       slots := s.pool.slots[i := Slot(Writing, generation, 0, false, s.pool.slots[i].payload)]),
       p := Filling(Token(i, generation, s.pool.poolId)))
  }

  lemma AcquireOpens(cfg: Config, s: State, i: nat)
    requires Inv(cfg, s) && WaitsForSlot(s.p) && ProducerCanStep(s)
    requires i == FirstFree(s.pool.slots) && i < |s.pool.slots|
    ensures Inv(cfg, ProducerStep(cfg, s))
  {
    hide LittleEndian, Xor, PacketsCarry;
    var s' := Acquired(s, i);
    assert ProducerStep(cfg, s) == s';
    assert InFlight(s') == InFlight(s);
    FreeIsUnoccupied(s, i);
    OtherSlotsCarry(s, s', i);
    AcquiredSlots(s, i);
  }

  lemma AcquiredSlots(s: State, i: nat)
    requires SlotsOwned(s) && WaitsForSlot(s.p) && i < |s.pool.slots| && !Occupies(InFlight(s), i)
    ensures SlotsOwned(Acquired(s, i))
  {
    var s' := Acquired(s, i);
    assert InFlight(s') == InFlight(s);
    forall j | 0 <= j < |s'.pool.slots| && s'.pool.slots[j].state != Free
      ensures IsOwned(s', j)
    {
      if j != i { assert IsOwned(s, j); }
    }
  }

  lemma FreeIsUnoccupied(s: State, i: nat)
    requires PacketsCarry(s) && i < |s.pool.slots| && s.pool.slots[i].state == Free
    ensures !Occupies(InFlight(s), i)
  {
    forall k | 0 <= k < |InFlight(s)|
      ensures SlotOf(InFlight(s)[k]) != i
    {
      assert PacketCarries(s, k);
    }
  }

  // A change to a slot that no packet occupies.
  lemma OtherSlotsCarry(s: State, s': State, i: nat)
    requires PacketsCarry(s) && !Occupies(InFlight(s), i) && i < |s.pool.slots|
    requires |s'.pool.slots| == |s.pool.slots| && s'.pool.poolId == s.pool.poolId
    requires forall j :: 0 <= j < |s.pool.slots| && j != i ==> s'.pool.slots[j] == s.pool.slots[j]
    requires s'.channel.queue == s.channel.queue && s'.c == s.c && s'.expected == s.expected
    requires !HasSent(s.p) && !HasSent(s'.p)
    ensures PacketsCarry(s')
  {
    assert InFlight(s') == InFlight(s);
    forall k | 0 <= k < |InFlight(s')|
      ensures PacketCarries(s', k)
    {
      assert PacketCarries(s, k);
      assert SlotOf(InFlight(s)[k]) != i;
    }
  }

  lemma PrepareKeeps(cfg: Config, s: State)
    requires Inv(cfg, s) && (s.p.Filling? || s.p.Sizing?)
    ensures Inv(cfg, ProducerStep(cfg, s))
  {
    hide Xor;
    var s' := ProducerStep(cfg, s);
    var i := s.p.token.slotId;
    assert InFlight(s') == InFlight(s);
    OtherSlotsCarry(s, s', i);
    forall j | 0 <= j < |s'.pool.slots| && s'.pool.slots[j].state != Free
      ensures IsOwned(s', j)
    {
      assert IsOwned(s, j);
    }
  }

  lemma SendKeeps(cfg: Config, s: State)
    requires Inv(cfg, s) && (s.p.Sending? || s.p.SendAsleep?) && ProducerCanStep(s)
    ensures Inv(cfg, ProducerStep(cfg, s))
  {
    hide LittleEndian, Xor, PacketsCarry, SlotsOwned;
    var s' := ProducerStep(cfg, s);
    if |s.channel.queue| >= cfg.capacity {
      PacketsUntouched(s, s');
      SlotsUntouched(s, s');
      assert InFlight(s') == InFlight(s);
    } else {
      SendAppends(cfg, s);
    }
  }

  lemma SendStep(cfg: Config, s: State)
    requires Inv(cfg, s) && (s.p.Sending? || s.p.SendAsleep?) && ProducerCanStep(s) && |s.channel.queue| < cfg.capacity
    ensures var packet := PacketFor(s.tick, s.p.token);
      var s' := s.(channel := s.channel.(producer := Some(PRODUCER), queue := s.channel.queue + [packet]), p := SignalSent(s.p.token));
      ProducerStep(cfg, s) == s' && InFlight(s') == InFlight(s) + [packet]
  {
    hide LittleEndian, Xor, PacketsCarry, SlotsOwned;
  }

  lemma SendCarries(cfg: Config, s: State)
    requires Inv(cfg, s) && (s.p.Sending? || s.p.SendAsleep?) && ProducerCanStep(s) && |s.channel.queue| < cfg.capacity
    ensures PacketsCarry(ProducerStep(cfg, s)) && SlotsOwned(ProducerStep(cfg, s))
  {
    hide LittleEndian, Xor, ProducerStep, NoLostWakeup, Logged;
    var packet := PacketFor(s.tick, s.p.token);
    var s' := s.(channel := s.channel.(producer := Some(PRODUCER), queue := s.channel.queue + [packet]), p := SignalSent(s.p.token));
    SendStep(cfg, s);
    AppendedPackets(s, s', packet);
    AppendedSlots(s, s', packet);
  }

  lemma SendAppends(cfg: Config, s: State)
    requires Inv(cfg, s) && (s.p.Sending? || s.p.SendAsleep?) && ProducerCanStep(s) && |s.channel.queue| < cfg.capacity
    ensures Inv(cfg, ProducerStep(cfg, s))
  {
    hide LittleEndian, Xor, ProducerStep, PacketsCarry, SlotsOwned;
    SendStep(cfg, s);
    SendCarries(cfg, s);
  }

  lemma AppendedPackets(s: State, s': State, packet: Packet)
    requires PacketsCarry(s) && !HasSent(s.p) && HasSent(s'.p) && packet.slot == Some(s'.p.token)
    requires InFlight(s') == InFlight(s) + [packet] && s'.pool == s.pool && s'.expected == s.expected
    requires Held(s'.c) == Held(s.c) && HasLease(s'.c) == HasLease(s.c) && !Occupies(InFlight(s), SlotOf(packet))
    requires HasLease(s.c) ==> InFlight(s) != []
    requires packet.generation == s.expected + |InFlight(s)| && Honours(s.pool, s'.p.token)
    requires packet.worldHash == Xor(packet.generation, packet.slot.value.generation)
    requires var slot := s.pool.slots[s'.p.token.slotId];
      slot.state == Writing && slot.payloadSize == PAYLOAD_BYTES && slot.payload == LittleEndian(packet.generation, PAYLOAD_BYTES)
    ensures PacketsCarry(s')
  {
    forall k | 0 <= k < |InFlight(s')|
      ensures PacketCarries(s', k)
    {
      if k < |InFlight(s)| { assert PacketCarries(s, k); }
    }
  }

  lemma AppendedSlots(s: State, s': State, packet: Packet)
    requires SlotsOwned(s) && Unsent(s.p).Some? && Unsent(s.p).value.slotId == SlotOf(packet) && Unsent(s'.p).None?
    requires InFlight(s') == InFlight(s) + [packet] && s'.pool == s.pool && s'.tick == s.tick && !WaitsForSlot(s'.p)
    ensures SlotsOwned(s')
  {
    forall i | 0 <= i < |s'.pool.slots| && s'.pool.slots[i].state != Free
      ensures IsOwned(s', i)
    {
      assert IsOwned(s, i);
      if Occupies(InFlight(s), i) {
        var k :| 0 <= k < |InFlight(s)| && SlotOf(InFlight(s)[k]) == i;
        assert SlotOf(InFlight(s')[k]) == i;
      } else {
        assert SlotOf(InFlight(s')[|InFlight(s)|]) == i;
      }
    }
  }

  lemma PublishKeeps(cfg: Config, s: State)
    requires Inv(cfg, s) && s.p.Publishing?
    ensures Inv(cfg, ProducerStep(cfg, s))
  {
    var last, i := |InFlight(s)| - 1, s.p.token.slotId;
    assert PacketCarries(s, last);
    var s' := ProducerStep(cfg, s);
    assert InFlight(s') == InFlight(s);
    PublishedPackets(s, s', i);
    PublishedSlots(s, s', i);
    PublishedRest(cfg, s);
  }

  lemma PublishedPackets(s: State, s': State, i: nat)
    requires PacketsCarry(s) && HasSent(s.p) && !HasSent(s'.p) && i == s.p.token.slotId < |s.pool.slots|
    requires InFlight(s') == InFlight(s) && s'.expected == s.expected && HasLease(s'.c) == HasLease(s.c)
    requires s'.pool == WithState(s.pool, i, Published)
    ensures PacketsCarry(s')
  {
    var last := |InFlight(s)| - 1;
    forall k | 0 <= k < |InFlight(s')|
      ensures PacketCarries(s', k)
    {
      assert PacketCarries(s, k);
      if k != last { assert SlotOf(InFlight(s)[k]) != SlotOf(InFlight(s)[last]); }
    }
  }

  lemma PublishedSlots(s: State, s': State, i: nat)
    requires SlotsOwned(s) && HasSent(s.p) && Unsent(s'.p).None? && i < |s.pool.slots| && s.pool.slots[i].state != Free
    requires InFlight(s') == InFlight(s) && s'.pool == WithState(s.pool, i, Published) && s'.tick == s.tick + 1
    ensures SlotsOwned(s')
  {
    forall j | 0 <= j < |s'.pool.slots| && s'.pool.slots[j].state != Free
      ensures IsOwned(s', j)
    {
      assert IsOwned(s, j);
    }
  }

  lemma PublishedRest(cfg: Config, s: State)
    requires Rest(cfg, s) && s.p.Publishing? && s.p.token.slotId < |s.pool.slots|
    requires PublishWrite(s.pool, PRODUCER, s.p.token).0 == Ok
    ensures Rest(cfg, ProducerStep(cfg, s))
  {
    assert InFlight(ProducerStep(cfg, s)) == InFlight(s);
  }

  lemma ProducerKeeps(cfg: Config, s: State)
    requires Inv(cfg, s) && ProducerCanStep(s)
    ensures Inv(cfg, ProducerStep(cfg, s))
  {
    match s.p {
      case Acquiring => AcquireKeeps(cfg, s);
      case AcquireAsleep(_) => AcquireKeeps(cfg, s);
      case Filling(_) => PrepareKeeps(cfg, s);
      case Sizing(_) => PrepareKeeps(cfg, s);
      case Sending(_) => SendKeeps(cfg, s);
      case SendAsleep(_, _) => SendKeeps(cfg, s);
      case Publishing(_) => PublishKeeps(cfg, s);
      case _ => QuietProducerKeeps(cfg, s);
    }
  }

  // ------------------------------------------------------------------
  // The consumer's steps
  // ------------------------------------------------------------------

  lemma ReceiveTakes(cfg: Config, s: State)
    requires Inv(cfg, s) && (s.c.Consuming? || s.c.ConsumeAsleep?) && ConsumerCanStep(s) && s.channel.queue != []
    ensures Inv(cfg, ConsumerStep(cfg, s))
  {
    hide LittleEndian, Xor, SlotsOwned;
    var s' := s.(channel := s.channel.(consumer := Some(CONSUMER), queue := s.channel.queue[1..]),
                 c := SignalTaken(s.channel.queue[0]));
    assert ConsumerStep(cfg, s) == s';
    assert InFlight(s') == InFlight(s);
    forall k | 0 <= k < |InFlight(s')|
      ensures PacketCarries(s', k)
    {
      assert PacketCarries(s, k);
    }
    OwnersKept(s, s');
  }

  // The same packets in flight own the same slots.
  lemma OwnersKept(s: State, s': State)
    requires SlotsOwned(s) && s'.p == s.p && s'.tick == s.tick && InFlight(s') == InFlight(s)
    requires s'.pool.slots == s.pool.slots && s'.pool.poolId == s.pool.poolId
    ensures SlotsOwned(s')
  {
    forall i | 0 <= i < |s'.pool.slots| && s'.pool.slots[i].state != Free
      ensures IsOwned(s', i)
    {
      assert IsOwned(s, i);
    }
  }

  lemma ReceiveWaits(cfg: Config, s: State)
    requires Inv(cfg, s) && (s.c.Consuming? || s.c.ConsumeAsleep?) && ConsumerCanStep(s) && s.channel.queue == []
    ensures Inv(cfg, ConsumerStep(cfg, s))
  {
    var s' := s.(channel := s.channel.(consumer := Some(CONSUMER)),
                 c := if s.channel.closed then Counting else ConsumeAsleep(false));
    assert ConsumerStep(cfg, s) == s';
    assert InFlight(s') == InFlight(s) == [];
    PacketsUntouched(s, s');
    OwnersKept(s, s');
  }

  // Steps of the consumer that change neither the slots nor the queue.
  lemma ConsumerMoves(cfg: Config, s: State, s': State)
    requires Inv(cfg, s) && SameHoldings(s, s') && s'.tick == s.tick && s'.pool == s.pool && s'.channel == s.channel
    requires s'.p == s.p || (s.p.SendAsleep? && s'.p == SendAsleep(s.p.token, true))
    requires !s'.c.ConsumerThrew? && !s'.c.ConsumeAsleep? && !s'.c.LeaseAsleep? && !s.c.LeaseAsleep?
    requires s.p.SendAsleep? && !s'.p.awake ==> s'.c.SignalTaken? || !s.c.SignalTaken?
    requires Logged(cfg, s')
    ensures Inv(cfg, s')
  {
    assert InFlight(s') == InFlight(s);
    PacketsUntouched(s, s');
    SlotsUntouched(s, s');
  }

  lemma SignalTakenKeeps(cfg: Config, s: State)
    requires Inv(cfg, s) && s.c.SignalTaken?
    ensures Inv(cfg, ConsumerStep(cfg, s))
  {
    ConsumerMoves(cfg, s, ConsumerStep(cfg, s));
  }

  lemma CheckingKeeps(cfg: Config, s: State)
    requires Inv(cfg, s) && s.c.Checking?
    ensures Inv(cfg, ConsumerStep(cfg, s))
  {
    assert InFlight(s)[0] == s.c.packet;
    assert PacketCarries(s, 0);
    assert ConsumerStep(cfg, s) == s.(c := Comparing(s.c.packet));
    ConsumerMoves(cfg, s, s.(c := Comparing(s.c.packet)));
  }

  lemma ComparingKeeps(cfg: Config, s: State)
    requires Inv(cfg, s) && s.c.Comparing?
    ensures Inv(cfg, ConsumerStep(cfg, s))
  {
    hide LittleEndian, FromLittleEndian, Xor, SlotsOwned, NoLostWakeup;
    assert InFlight(s)[0] == s.c.packet;
    assert PacketCarries(s, 0);
    PayloadIsTick(s);
    var delivery := Delivery(s.expected, LittleEndian(s.expected, PAYLOAD_BYTES));
    var s' := s.(c := Releasing(s.c.packet), delivered := s.delivered + [delivery]);
    assert ConsumerStep(cfg, s) == s';
    ConsumerMoves(cfg, s, s');
  }

  lemma CountingKeeps(cfg: Config, s: State)
    requires Inv(cfg, s) && s.c.Counting?
    ensures Inv(cfg, ConsumerStep(cfg, s))
  {
    ConsumerMoves(cfg, s, ConsumerStep(cfg, s));
  }

  lemma PayloadIsTick(s: State)
    requires s.c.Comparing? && PacketCarries(s, 0) && s.pool.consumer == Some(CONSUMER) && InFlight(s)[0] == s.c.packet
    requires s.expected <= MAX_GENERATION
    ensures Shown(s, s.c.packet.slot.value) == Some(LittleEndian(s.expected, PAYLOAD_BYTES))
    ensures FromLittleEndian(LittleEndian(s.expected, PAYLOAD_BYTES)) == s.expected
  {
    DecodeLittleEndian(s.expected, PAYLOAD_BYTES);
    PowersOf256();
    var payload := s.pool.slots[s.c.packet.slot.value.slotId].payload;
    assert payload[..PAYLOAD_BYTES] == payload;
  }

  lemma LeaseKeeps(cfg: Config, s: State)
    requires Inv(cfg, s) && (s.c.Leasing? || s.c.LeaseAsleep?) && ConsumerCanStep(s)
    ensures Inv(cfg, ConsumerStep(cfg, s))
  {
    assert InFlight(s)[0] == s.c.packet;
    assert PacketCarries(s, 0);
    if ExpectedState(s, 0) == Writing {
      LeaseWaits(cfg, s);
    } else {
      LeaseOpens(cfg, s);
    }
  }

  lemma LeaseWaits(cfg: Config, s: State)
    requires Inv(cfg, s) && (s.c.Leasing? || s.c.LeaseAsleep?) && ConsumerCanStep(s)
    requires InFlight(s)[0] == s.c.packet && PacketCarries(s, 0) && ExpectedState(s, 0) == Writing
    ensures Inv(cfg, ConsumerStep(cfg, s))
  {
    var pool := if s.c.Leasing? then s.pool.(consumer := Some(CONSUMER), activeOperations := s.pool.activeOperations + 1) else s.pool;
    var s' := s.(pool := pool, c := LeaseAsleep(s.c.packet, false));
    assert ConsumerStep(cfg, s) == s';
    assert InFlight(s') == InFlight(s);
    PacketsUntouched(s, s');
    OwnersKept(s, s');
  }

  lemma LeaseOpens(cfg: Config, s: State)
    requires Inv(cfg, s) && (s.c.Leasing? || s.c.LeaseAsleep?) && ConsumerCanStep(s)
    requires InFlight(s)[0] == s.c.packet && PacketCarries(s, 0) && ExpectedState(s, 0) == Published
    ensures Inv(cfg, ConsumerStep(cfg, s))
  {
    hide LittleEndian, Xor, PacketsCarry, SlotsOwned;
    var i := s.c.packet.slot.value.slotId;
    var s' := ConsumerStep(cfg, s);
    assert InFlight(s') == InFlight(s);
    LeasedPackets(s, s', i);
    SlotStateChanged(s, s', i);
  }

  lemma LeasedPackets(s: State, s': State, i: nat)
    requires PacketsCarry(s) && InFlight(s) != [] && SlotOf(InFlight(s)[0]) == i && i < |s.pool.slots|
    requires ExpectedState(s, 0) == Published && HasLease(s'.c)
    requires InFlight(s') == InFlight(s) && s'.p == s.p && s'.expected == s.expected && s'.pool.poolId == s.pool.poolId
    requires s'.pool.slots == s.pool.slots[i := s.pool.slots[i].(state := SlotState.Reading)]
    ensures PacketsCarry(s')
  {
    forall k | 0 <= k < |InFlight(s')|
      ensures PacketCarries(s', k)
    {
      assert PacketCarries(s, k);
      if k != 0 { assert SlotOf(InFlight(s)[0]) != SlotOf(InFlight(s)[k]); }
    }
  }

  // A slot in flight changed state and is still in flight.
  lemma SlotStateChanged(s: State, s': State, i: nat)
    requires SlotsOwned(s) && s'.p == s.p && s'.tick == s.tick && InFlight(s') == InFlight(s) && s'.pool.poolId == s.pool.poolId
    requires i < |s.pool.slots| == |s'.pool.slots| && s.pool.slots[i].state != Free && Occupies(InFlight(s), i)
    requires s'.pool.slots[i].generation == s.pool.slots[i].generation
    requires forall j :: 0 <= j < |s.pool.slots| && j != i ==> s'.pool.slots[j] == s.pool.slots[j]
    ensures SlotsOwned(s')
  {
    forall j | 0 <= j < |s'.pool.slots| && s'.pool.slots[j].state != Free
      ensures IsOwned(s', j)
    {
      assert IsOwned(s, j);
    }
  }

  lemma ReleaseKeeps(cfg: Config, s: State)
    requires Inv(cfg, s) && s.c.Releasing?
    ensures Inv(cfg, ConsumerStep(cfg, s))
  {
    hide LittleEndian, Xor;
    assert InFlight(s)[0] == s.c.packet;
    assert PacketCarries(s, 0);
    var i := s.c.packet.slot.value.slotId;
    ReleaseStep(cfg, s);
    var s' := Released(s, i);
    ReleasedPackets(s, s', i);
    ReleasedSlots(s, s', i);
    ReleasedRest(cfg, s, i);
  }

  lemma ReleaseStep(cfg: Config, s: State)
    requires s.c.Releasing? && s.c.packet.slot.Some? && CheckReader(s.pool, CONSUMER, s.c.packet.slot.value) == Ok
    ensures ConsumerStep(cfg, s) == Released(s, s.c.packet.slot.value.slotId)
    ensures InFlight(Released(s, s.c.packet.slot.value.slotId)) == InFlight(s)[1..]
  {
  }

  ghost function Released(s: State, i: nat): State
    requires i < |s.pool.slots|
  {
    s.(pool := Emptied(s.pool, i, false), p := WakeProducer(s.p), c := Consuming, expected := s.expected + 1)
  }

  lemma ReleasedRest(cfg: Config, s: State, i: nat)
    requires Rest(cfg, s) && s.c.Releasing? && i < |s.pool.slots|
    ensures Rest(cfg, Released(s, i))
  {
    assert InFlight(Released(s, i)) == InFlight(s)[1..];
  }

  lemma ReleasedPackets(s: State, s': State, i: nat)
    requires PacketsCarry(s) && HasLease(s.c) && !HasLease(s'.c) && InFlight(s) != [] && SlotOf(InFlight(s)[0]) == i
    requires InFlight(s') == InFlight(s)[1..] && s'.expected == s.expected + 1 && s'.pool.poolId == s.pool.poolId
    requires HasSent(s'.p) == HasSent(s.p) && (HasSent(s.p) ==> s'.p.token == s.p.token)
    requires |s'.pool.slots| == |s.pool.slots| && forall j :: 0 <= j < |s.pool.slots| && j != i ==> s'.pool.slots[j] == s.pool.slots[j]
    ensures PacketsCarry(s')
  {
    forall k | 0 <= k < |InFlight(s')|
      ensures PacketCarries(s', k)
    {
      OlderReleased(s, s', i, k);
    }
    forall j, k | 0 <= j < k < |InFlight(s')|
      ensures SlotOf(InFlight(s')[j]) != SlotOf(InFlight(s')[k])
    {
      assert InFlight(s')[j] == InFlight(s)[j + 1] && InFlight(s')[k] == InFlight(s)[k + 1];
    }
  }

  lemma OlderReleased(s: State, s': State, i: nat, k: nat)
    requires SlotsDiffer(InFlight(s)) && k + 1 < |InFlight(s)| && PacketCarries(s, k + 1)
    requires HasLease(s.c) && !HasLease(s'.c) && SlotOf(InFlight(s)[0]) == i
    requires InFlight(s') == InFlight(s)[1..] && s'.expected == s.expected + 1 && s'.pool.poolId == s.pool.poolId
    requires HasSent(s'.p) == HasSent(s.p)
    requires |s'.pool.slots| == |s.pool.slots| && forall j :: 0 <= j < |s.pool.slots| && j != i ==> s'.pool.slots[j] == s.pool.slots[j]
    ensures PacketCarries(s', k)
  {
    assert InFlight(s')[k] == InFlight(s)[k + 1];
    assert SlotOf(InFlight(s)[0]) != SlotOf(InFlight(s)[k + 1]);
  }

  lemma ReleasedSlots(s: State, s': State, i: nat)
    requires SlotsOwned(s) && InFlight(s) != [] && SlotOf(InFlight(s)[0]) == i && i < |s.pool.slots|
    requires s' == s.(pool := Emptied(s.pool, i, false), p := WakeProducer(s.p), c := Consuming, expected := s.expected + 1)
    requires InFlight(s') == InFlight(s)[1..]
    ensures SlotsOwned(s')
  {
    forall j | Occupies(InFlight(s'), j)
      ensures Occupies(InFlight(s), j)
    {
      var k :| 0 <= k < |InFlight(s')| && SlotOf(InFlight(s')[k]) == j;
      assert SlotOf(InFlight(s)[k + 1]) == j;
    }
    forall j | 0 <= j < |s'.pool.slots| && s'.pool.slots[j].state != Free
      ensures IsOwned(s', j)
    {
      assert IsOwned(s, j);
      if Occupies(InFlight(s), j) {
        var k :| 0 <= k < |InFlight(s)| && SlotOf(InFlight(s)[k]) == j;
        assert InFlight(s')[k - 1] == InFlight(s)[k];
      }
    }
  }

  lemma ConsumerKeeps(cfg: Config, s: State)
    requires Inv(cfg, s) && ConsumerCanStep(s)
    ensures Inv(cfg, ConsumerStep(cfg, s))
  {
    match s.c {
      case Consuming =>
        if s.channel.queue == [] { ReceiveWaits(cfg, s); } else { ReceiveTakes(cfg, s); }
      case ConsumeAsleep(_) =>
        if s.channel.queue == [] { ReceiveWaits(cfg, s); } else { ReceiveTakes(cfg, s); }
      case SignalTaken(_) => SignalTakenKeeps(cfg, s);
      case Checking(_) => CheckingKeeps(cfg, s);
      case Comparing(_) => ComparingKeeps(cfg, s);
      case Counting => CountingKeeps(cfg, s);
      case Leasing(_) => LeaseKeeps(cfg, s);
      case LeaseAsleep(_, _) => LeaseKeeps(cfg, s);
      case Releasing(_) => ReleaseKeeps(cfg, s);
    }
  }

  lemma SpuriousKeeps(cfg: Config, s: State, s': State)
    requires Inv(cfg, s)
    requires
      || (s.p.AcquireAsleep? && s' == s.(p := AcquireAsleep(true)))
      || (s.p.SendAsleep? && s' == s.(p := SendAsleep(s.p.token, true)))
      || (s.c.ConsumeAsleep? && s' == s.(c := ConsumeAsleep(true)))
      || (s.c.LeaseAsleep? && s' == s.(c := LeaseAsleep(s.c.packet, true)))
    ensures Inv(cfg, s')
  {
    hide LittleEndian, Xor, PacketsCarry, SlotsOwned;
    assert InFlight(s') == InFlight(s);
    PacketsUntouched(s, s');
    SlotsUntouched(s, s');
  }

  /** Every step of either thread, and every spurious wake-up, keeps the invariant. */
  lemma ActKeeps(cfg: Config, s: State, actor: Actor)
    requires Inv(cfg, s) && CanAct(s, actor)
    ensures Inv(cfg, Act(cfg, s, actor))
  {
    match actor {
      case Produces => ProducerKeeps(cfg, s);
      case Consumes => ConsumerKeeps(cfg, s);
      case _ => SpuriousKeeps(cfg, s, Act(cfg, s, actor));
    }
  }
}
