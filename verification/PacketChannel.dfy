/** The bounded packet channel: a ring buffer that refines a FIFO queue.

    A blocking call is one attempt made with the lock held; when the wait condition
    is false the attempt blocks and leaves everything but the registration unchanged.
*/
module PacketChannel {
  import opened Options

  const MAX_FRAME_PACKET_CAPACITY: nat := 1024

  datatype Token = Token(slotId: nat, generation: nat, poolId: nat)

  datatype Packet = Packet(generation: nat, worldHash: nat, slot: Option<Token>)

  const NO_PACKET := Packet(0, 0, None)

  type Thread = nat

  // What the channel is, whatever the ring looks like.
  datatype Channel = Channel(queue: seq<Packet>, capacity: nat, closed: bool,
                             producer: Option<Thread>, consumer: Option<Thread>)

  datatype Sent = Sent | SendFull | SendClosed | SendBlocks | SendWrongThread

  datatype Received = Received(packet: Packet) | Drained | ReceiveBlocks | ReceiveWrongThread

  // The first caller becomes the owner; nobody else may call afterwards.
  predicate Admits(owner: Option<Thread>, caller: Thread) {
    owner.None? || owner.value == caller
  }

  function TrySend(c: Channel, caller: Thread, packet: Packet): (Sent, Channel) {
    if !Admits(c.producer, caller) then (SendWrongThread, c)
    else
      var registered := c.(producer := Some(caller));
      if c.closed || |c.queue| == c.capacity then (SendFull, registered)
      else (Sent, registered.(queue := c.queue + [packet]))
  }

  function Send(c: Channel, caller: Thread, packet: Packet): (Sent, Channel) {
    if !Admits(c.producer, caller) then (SendWrongThread, c)
    else
      var registered := c.(producer := Some(caller));
      if c.closed then (SendClosed, registered)
      else if |c.queue| >= c.capacity then (SendBlocks, registered)
      else (Sent, registered.(queue := c.queue + [packet]))
  }

  function TryReceive(c: Channel, caller: Thread): (Received, Channel) {
    if !Admits(c.consumer, caller) then (ReceiveWrongThread, c)
    else
      var registered := c.(consumer := Some(caller));
      if c.queue == [] then (Drained, registered)
      else (Received(c.queue[0]), registered.(queue := c.queue[1..]))
  }

  function Receive(c: Channel, caller: Thread): (Received, Channel) {
    if !Admits(c.consumer, caller) then (ReceiveWrongThread, c)
    else
      var registered := c.(consumer := Some(caller));
      if c.queue == [] then ((if c.closed then Drained else ReceiveBlocks), registered)
      else (Received(c.queue[0]), registered.(queue := c.queue[1..]))
  }

  // ------------------------------------------------------------------
  // The ring
  // ------------------------------------------------------------------

  // An index below twice the length, brought back into the buffer.
  function Wrap(i: nat, n: nat): nat {
    if i < n then i else i - n
  }

  // The `size` packets from `head` on.
  ghost function RingQueue(cells: seq<Packet>, head: nat, size: nat): (q: seq<Packet>)
    requires head < |cells| && size <= |cells|
    ensures |q| == size && forall i :: 0 <= i < size ==> q[i] == cells[Wrap(head + i, |cells|)]
  {
    seq(size, i requires 0 <= i < size => cells[Wrap(head + i, |cells|)])
  }

  lemma NextIndex(i: nat, n: nat)
    requires i < n
    ensures (i + 1) % n == Wrap(i + 1, n)
  {
  }

  lemma RingPush(cells: seq<Packet>, head: nat, size: nat, packet: Packet)
    requires head < |cells| && size < |cells|
    ensures RingQueue(cells[Wrap(head + size, |cells|) := packet], head, size + 1) == RingQueue(cells, head, size) + [packet]
  {
  }

  lemma RingPop(cells: seq<Packet>, head: nat, size: nat)
    requires head < |cells| && 0 < size <= |cells|
    ensures RingQueue(cells, head, size)[0] == cells[head]
    ensures RingQueue(cells, Wrap(head + 1, |cells|), size - 1) == RingQueue(cells, head, size)[1..]
  {
  }

  class FramePacketChannel {
    const buffer: array<Packet>
    var head: nat
    var tail: nat
    var size: nat
    var closed: bool
    var producer: Option<Thread>
    var consumer: Option<Thread>

    ghost predicate Valid()
      reads this
    {
      && 0 < buffer.Length
      && head < buffer.Length && size <= buffer.Length
      && tail == Wrap(head + size, buffer.Length)
    }

    ghost function Queue(): (q: seq<Packet>)
      requires Valid()
      reads this, buffer
    {
      RingQueue(buffer[..], head, size)
    }

    ghost function Abstract(): Channel
      requires Valid()
      reads this, buffer
    {
      Channel(Queue(), buffer.Length, closed, producer, consumer)
    }

    // Construction throws for a capacity outside 1..1024.
    static method Create(capacity: nat) returns (channel: FramePacketChannel?)
      ensures channel == null <==> capacity == 0 || capacity > MAX_FRAME_PACKET_CAPACITY
      ensures channel != null ==> fresh(channel) && fresh(channel.buffer) && channel.Valid()
      ensures channel != null ==> channel.Abstract() == Channel([], capacity, false, None, None)
    {
      if capacity == 0 || capacity > MAX_FRAME_PACKET_CAPACITY { return null; }
      channel := new FramePacketChannel(capacity);
    }

    constructor (capacity: nat)
      requires 0 < capacity <= MAX_FRAME_PACKET_CAPACITY
      ensures Valid() && fresh(buffer)
      ensures Abstract() == Channel([], capacity, false, None, None)
    {
      buffer := new Packet[capacity](_ => NO_PACKET);
      head, tail, size := 0, 0, 0;
      closed, producer, consumer := false, None, None;
    }

    method Push(packet: Packet)
      requires Valid() && size < buffer.Length
      modifies this`tail, this`size, buffer
      ensures Valid() && Abstract() == old(Abstract()).(queue := old(Queue()) + [packet])
    {
      RingPush(buffer[..], head, size, packet);
      NextIndex(tail, buffer.Length);
      buffer[tail] := packet;
      tail := (tail + 1) % buffer.Length;
      size := size + 1;
    }

    method Pop() returns (packet: Packet)
      requires Valid() && size > 0
      modifies this`head, this`size
      ensures Valid() && packet == old(Queue())[0]
      ensures Abstract() == old(Abstract()).(queue := old(Queue())[1..])
    {
      RingPop(buffer[..], head, size);
      NextIndex(head, buffer.Length);
      packet := buffer[head];
      head := (head + 1) % buffer.Length;
      size := size - 1;
    }

    method TryPublish(caller: Thread, packet: Packet) returns (result: Sent)
      requires Valid()
      modifies this, buffer
      ensures Valid() && (result, Abstract()) == TrySend(old(Abstract()), caller, packet)
    {
      if producer.Some? && producer.value != caller { return SendWrongThread; }
      producer := Some(caller);
      if closed || size == buffer.Length { return SendFull; }
      Push(packet);
      result := Sent;
    }

    method Publish(caller: Thread, packet: Packet) returns (result: Sent)
      requires Valid()
      modifies this, buffer
      ensures Valid() && (result, Abstract()) == Send(old(Abstract()), caller, packet)
    {
      if producer.Some? && producer.value != caller { return SendWrongThread; }
      producer := Some(caller);
      if !(closed || size < buffer.Length) { return SendBlocks; }
      if closed { return SendClosed; }
      Push(packet);
      result := Sent;
    }

    method TryConsume(caller: Thread) returns (result: Received)
      requires Valid()
      modifies this, buffer
      ensures Valid() && (result, Abstract()) == TryReceive(old(Abstract()), caller)
    {
      if consumer.Some? && consumer.value != caller { return ReceiveWrongThread; }
      consumer := Some(caller);
      if size == 0 { return Drained; }
      var packet := Pop();
      result := Received(packet);
    }

    method Consume(caller: Thread) returns (result: Received)
      requires Valid()
      modifies this, buffer
      ensures Valid() && (result, Abstract()) == Receive(old(Abstract()), caller)
    {
      if consumer.Some? && consumer.value != caller { return ReceiveWrongThread; }
      consumer := Some(caller);
      if !(closed || size > 0) { return ReceiveBlocks; }
      if size == 0 { return Drained; }
      var packet := Pop();
      result := Received(packet);
    }

    method Close()
      requires Valid()
      modifies this`closed
      ensures Valid() && Abstract() == old(Abstract()).(closed := true)
    {
      closed := true;
    }
  }
}
