/** The frame slot pool: what one lock region of each operation does to it.

    The functions give the effect of a lock region on the pool; the class performs
    the same regions on its fields and is proved against them. A blocking acquire is
    a Begin region followed by Resume regions, one for each time the wait is left.
*/
module FrameSlots {
  import opened Bytes
  import opened Options
  import opened PacketChannel

  const MAX_GENERATION: nat := 0xFFFF_FFFF_FFFF_FFFF
  const MAX_FRAME_SLOT_COUNT: nat := 64
  const MAX_FRAME_SLOT_PAYLOAD_BYTES: nat := 16 * 1024 * 1024
  const MAX_FRAME_SLOT_STORAGE_BYTES: nat := 64 * 1024 * 1024

  datatype SlotState = Free | Writing | Published | Reading

  datatype Slot = Slot(state: SlotState, generation: nat, payloadSize: nat, wasCancelled: bool, payload: seq<byte>)

  datatype Pool = Pool(slots: seq<Slot>, payloadCapacity: nat, poolId: nat, closed: bool,
                       producer: Option<Thread>, consumer: Option<Thread>, activeOperations: nat)

  datatype PoolError = CapacityError | GenerationError | OwnershipError | StateError

  datatype Acquired = Leased(token: Token) | NoLease | Blocks | AcquireThrows(error: PoolError)

  datatype Done = Ok | Throws(error: PoolError)

  datatype View = Visible(bytes: seq<byte>) | ViewThrows(error: PoolError)

  function FirstFree(slots: seq<Slot>): (i: nat)
    ensures i <= |slots|
    ensures i < |slots| ==> slots[i].state == Free
    ensures forall j :: 0 <= j < i ==> slots[j].state != Free
  {
    if slots == [] || slots[0].state == Free then 0 else 1 + FirstFree(slots[1..])
  }

  predicate Honours(pool: Pool, token: Token) {
    && token.poolId == pool.poolId && token.generation != 0 && token.slotId < |pool.slots|
    && pool.slots[token.slotId].generation == token.generation
  }

  // Opening the free slot `i` for writing under a new generation.
  function Open(pool: Pool, i: nat): (Acquired, Pool)
    requires i < |pool.slots|
  {
    var slot := pool.slots[i];
    if slot.generation == MAX_GENERATION then (AcquireThrows(GenerationError), pool)
    else
      var taken := slot.(state := Writing, generation := slot.generation + 1, payloadSize := 0, wasCancelled := false);
      (Leased(Token(i, taken.generation, pool.poolId)), pool.(slots := pool.slots[i := taken]))
  }

  function TryAcquireWrite(pool: Pool, caller: Thread): (Acquired, Pool) {
    if !Admits(pool.producer, caller) then (AcquireThrows(OwnershipError), pool)
    else
      var registered := pool.(producer := Some(caller));
      var i := FirstFree(pool.slots);
      if pool.closed || i == |pool.slots| then (NoLease, registered) else Open(registered, i)
  }

  function Finished(pool: Pool): Pool {
    if pool.activeOperations == 0 then pool else pool.(activeOperations := pool.activeOperations - 1)
  }

  function ResumeAcquireWrite(pool: Pool): (Acquired, Pool) {
    var i := FirstFree(pool.slots);
    if pool.closed then (NoLease, Finished(pool))
    else if i == |pool.slots| then (Blocks, pool)
    else var (result, after) := Open(pool, i); (result, Finished(after))
  }

  function BeginAcquireWrite(pool: Pool, caller: Thread): (Acquired, Pool) {
    if !Admits(pool.producer, caller) then (AcquireThrows(OwnershipError), pool)
    else ResumeAcquireWrite(pool.(producer := Some(caller), activeOperations := pool.activeOperations + 1))
  }

  function WithState(pool: Pool, i: nat, state: SlotState): Pool
    requires i < |pool.slots|
  {
    pool.(slots := pool.slots[i := pool.slots[i].(state := state)])
  }

  function ResumeAcquireRead(pool: Pool, token: Token, blocking: bool): (Acquired, Pool) {
    if !Honours(pool, token) then (AcquireThrows(GenerationError), Finished(pool))
    else
      var slot := pool.slots[token.slotId];
      match slot.state
      case Published => (Leased(token), Finished(WithState(pool, token.slotId, Reading)))
      case Writing => if pool.closed || !blocking then (NoLease, Finished(pool)) else (Blocks, pool)
      case _ => ((if slot.wasCancelled || pool.closed then NoLease else AcquireThrows(StateError)), Finished(pool))
  }

  function BeginAcquireRead(pool: Pool, caller: Thread, token: Token, blocking: bool): (Acquired, Pool) {
    if !Honours(pool, token) then (AcquireThrows(GenerationError), pool)
    else if !Admits(pool.consumer, caller) then (AcquireThrows(OwnershipError), pool)
    else ResumeAcquireRead(pool.(consumer := Some(caller), activeOperations := pool.activeOperations + 1), token, blocking)
  }

  // The checks every access through a write lease makes.
  function CheckWriter(pool: Pool, caller: Thread, token: Token): Done {
    if pool.producer != Some(caller) then Throws(OwnershipError)
    else if !Honours(pool, token) then Throws(GenerationError)
    else if pool.slots[token.slotId].state != Writing then Throws(StateError)
    else Ok
  }

  function CheckReader(pool: Pool, caller: Thread, token: Token): Done {
    if pool.consumer != Some(caller) then Throws(OwnershipError)
    else if !Honours(pool, token) then Throws(GenerationError)
    else if pool.slots[token.slotId].state != Reading then Throws(StateError)
    else Ok
  }

  // Copying into the span a write lease handed out.
  function Store(pool: Pool, i: nat, bytes: seq<byte>): Pool
    requires i < |pool.slots| && |bytes| <= |pool.slots[i].payload|
  {
    pool.(slots := pool.slots[i := pool.slots[i].(payload := bytes + pool.slots[i].payload[|bytes|..])])
  }

  function SetPayloadSize(pool: Pool, caller: Thread, token: Token, size: nat): (Done, Pool) {
    var check := CheckWriter(pool, caller, token);
    if check != Ok then (check, pool)
    else if size > pool.payloadCapacity then (Throws(CapacityError), pool)
    else (Ok, pool.(slots := pool.slots[token.slotId := pool.slots[token.slotId].(payloadSize := size)]))
  }

  function PublishWrite(pool: Pool, caller: Thread, token: Token): (Done, Pool) {
    var check := CheckWriter(pool, caller, token);
    if check != Ok then (check, pool)
    else if pool.closed then (Throws(StateError), pool)
    else (Ok, WithState(pool, token.slotId, Published))
  }

  function Emptied(pool: Pool, i: nat, cancelled: bool): Pool
    requires i < |pool.slots|
  {
    pool.(slots := pool.slots[i := pool.slots[i].(state := Free, payloadSize := 0, wasCancelled := cancelled)])
  }

  function CancelWrite(pool: Pool, caller: Thread, token: Token): (Done, Pool) {
    var check := CheckWriter(pool, caller, token);
    if check != Ok then (check, pool) else (Ok, Emptied(pool, token.slotId, true))
  }

  function ReadPayload(pool: Pool, caller: Thread, token: Token): View
    requires Honours(pool, token) ==> pool.slots[token.slotId].payloadSize <= |pool.slots[token.slotId].payload|
  {
    match CheckReader(pool, caller, token)
    case Throws(error) => ViewThrows(error)
    case Ok => Visible(pool.slots[token.slotId].payload[..pool.slots[token.slotId].payloadSize])
  }

  function ReleaseRead(pool: Pool, caller: Thread, token: Token): (Done, Pool) {
    var check := CheckReader(pool, caller, token);
    if check != Ok then (check, pool) else (Ok, Emptied(pool, token.slotId, false))
  }

  function DiscardPublished(pool: Pool, caller: Thread, token: Token): (Done, Pool) {
    if !Honours(pool, token) then (Throws(GenerationError), pool)
    else if !Admits(pool.consumer, caller) then (Throws(OwnershipError), pool)
    else
      var registered := pool.(consumer := Some(caller));
      if !pool.closed || pool.slots[token.slotId].state != Published then (Throws(StateError), registered)
      else (Ok, Emptied(registered, token.slotId, false))
  }

  predicate IsQuiescent(pool: Pool) {
    pool.activeOperations == 0 && forall i :: 0 <= i < |pool.slots| ==> pool.slots[i].state == Free
  }

  // Every slot keeps a buffer of the full capacity.
  ghost predicate WellFormedPool(pool: Pool) {
    forall i :: 0 <= i < |pool.slots| ==>
      |pool.slots[i].payload| == pool.payloadCapacity && pool.slots[i].payloadSize <= pool.payloadCapacity
  }

  function FreshPool(slotCount: nat, capacity: nat, id: nat): (pool: Pool)
    ensures WellFormedPool(pool) && IsQuiescent(pool)
  {
    Pool(seq(slotCount, _ => Slot(Free, 0, 0, false, seq(capacity, _ => 0))), capacity, id, false, None, None, 0)
  }

  // ------------------------------------------------------------------
  // The object
  // ------------------------------------------------------------------

  class FrameSlotPool {
    const slots: array<Slot>
    const payloadCapacity: nat
    const poolId: nat
    var closed: bool
    var producer: Option<Thread>
    var consumer: Option<Thread>
    var activeOperations: nat

    function Abstract(): Pool
      reads this, slots
    {
      Pool(slots[..], payloadCapacity, poolId, closed, producer, consumer, activeOperations)
    }

    // Construction throws for dimensions outside the bounds.
    static method Create(slotCount: nat, capacity: nat, id: nat) returns (pool: FrameSlotPool?)
      ensures pool != null <==>
        0 < slotCount <= MAX_FRAME_SLOT_COUNT && 0 < capacity <= MAX_FRAME_SLOT_PAYLOAD_BYTES &&
        slotCount * capacity <= MAX_FRAME_SLOT_STORAGE_BYTES
      ensures pool != null ==> fresh(pool) && fresh(pool.slots) && WellFormedPool(pool.Abstract())
      ensures pool != null ==> pool.Abstract() == FreshPool(slotCount, capacity, id)
    {
      if slotCount == 0 || slotCount > MAX_FRAME_SLOT_COUNT || capacity == 0 || capacity > MAX_FRAME_SLOT_PAYLOAD_BYTES {
        return null;
      }
      QuotientBound(slotCount, capacity, MAX_FRAME_SLOT_STORAGE_BYTES);
      if slotCount > MAX_FRAME_SLOT_STORAGE_BYTES / capacity {
        return null;
      }
      pool := new FrameSlotPool(slotCount, capacity, id);
    }

    constructor (slotCount: nat, capacity: nat, id: nat)
      ensures fresh(slots) && Abstract() == FreshPool(slotCount, capacity, id)
    {
      payloadCapacity, poolId := capacity, id;
      slots := new Slot[slotCount](_ => Slot(Free, 0, 0, false, seq(capacity, _ => 0)));
      closed, producer, consumer, activeOperations := false, None, None, 0;
      new;
      assert slots[..] == FreshPool(slotCount, capacity, id).slots;
    }

    method FindFreeSlot() returns (i: nat)
      ensures i == FirstFree(slots[..])
    {
      i := 0;
      while i < slots.Length
        invariant i <= slots.Length
        invariant FirstFree(slots[..]) == i + FirstFree(slots[i..])
      {
        if slots[i].state == Free { return; }
        assert slots[i..][1..] == slots[i + 1..];
        i := i + 1;
      }
    }

    method SlotForToken(token: Token) returns (honoured: bool)
      ensures honoured == Honours(Abstract(), token)
    {
      if token.poolId != poolId || token.generation == 0 || token.slotId >= slots.Length { return false; }
      honoured := slots[token.slotId].generation == token.generation;
    }

    method AssertWriter(caller: Thread, token: Token) returns (result: Done)
      ensures result == CheckWriter(Abstract(), caller, token)
    {
      if producer.None? || producer.value != caller { return Throws(OwnershipError); }
      var honoured := SlotForToken(token);
      if !honoured { return Throws(GenerationError); }
      if slots[token.slotId].state != Writing { return Throws(StateError); }
      result := Ok;
    }

    method AssertReader(caller: Thread, token: Token) returns (result: Done)
      ensures result == CheckReader(Abstract(), caller, token)
    {
      if consumer.None? || consumer.value != caller { return Throws(OwnershipError); }
      var honoured := SlotForToken(token);
      if !honoured { return Throws(GenerationError); }
      if slots[token.slotId].state != Reading { return Throws(StateError); }
      result := Ok;
    }

    method OpenSlot(i: nat) returns (result: Acquired)
      requires i < slots.Length
      modifies slots
      ensures (result, Abstract()) == Open(old(Abstract()), i)
    {
      var slot := slots[i];
      if slot.generation == MAX_GENERATION { return AcquireThrows(GenerationError); }
      slots[i] := slot.(state := Writing, generation := slot.generation + 1, payloadSize := 0, wasCancelled := false);
      result := Leased(Token(i, slot.generation + 1, poolId));
    }

    method TryAcquireWriteLocked(caller: Thread) returns (result: Acquired)
      modifies this, slots
      ensures (result, Abstract()) == TryAcquireWrite(old(Abstract()), caller)
    {
      if producer.Some? && producer.value != caller { return AcquireThrows(OwnershipError); }
      producer := Some(caller);
      if closed { return NoLease; }
      var i := FindFreeSlot();
      if i == slots.Length { return NoLease; }
      result := OpenSlot(i);
    }

    method AcquireWriteResumed() returns (result: Acquired)
      requires activeOperations > 0
      modifies this, slots
      ensures (result, Abstract()) == ResumeAcquireWrite(old(Abstract()))
    {
      var i := FindFreeSlot();
      if !(closed || i != slots.Length) { return Blocks; }
      if closed {
        activeOperations := activeOperations - 1;
        return NoLease;
      }
      result := OpenSlot(i);
      activeOperations := activeOperations - 1;
    }

    method AcquireWrite(caller: Thread) returns (result: Acquired)
      modifies this, slots
      ensures (result, Abstract()) == BeginAcquireWrite(old(Abstract()), caller)
    {
      if producer.Some? && producer.value != caller { return AcquireThrows(OwnershipError); }
      producer := Some(caller);
      activeOperations := activeOperations + 1;
      result := AcquireWriteResumed();
    }

    method AcquireReadResumed(token: Token, blocking: bool) returns (result: Acquired)
      requires activeOperations > 0
      modifies this, slots
      ensures (result, Abstract()) == ResumeAcquireRead(old(Abstract()), token, blocking)
    {
      var honoured := SlotForToken(token);
      if !honoured {
        activeOperations := activeOperations - 1;
        return AcquireThrows(GenerationError);
      }
      var slot := slots[token.slotId];
      if slot.state == Published {
        slots[token.slotId] := slot.(state := Reading);
        activeOperations := activeOperations - 1;
        return Leased(token);
      }
      if slot.state == Writing {
        if closed || !blocking {
          activeOperations := activeOperations - 1;
          return NoLease;
        }
        return Blocks;
      }
      activeOperations := activeOperations - 1;
      result := if slot.wasCancelled || closed then NoLease else AcquireThrows(StateError);
    }

    method AcquireRead(caller: Thread, token: Token, blocking: bool) returns (result: Acquired)
      modifies this, slots
      ensures (result, Abstract()) == BeginAcquireRead(old(Abstract()), caller, token, blocking)
    {
      var honoured := SlotForToken(token);
      if !honoured {
        return AcquireThrows(GenerationError);
      }
      if consumer.Some? && consumer.value != caller { return AcquireThrows(OwnershipError); }
      consumer := Some(caller);
      activeOperations := activeOperations + 1;
      result := AcquireReadResumed(token, blocking);
    }

    method Publish(caller: Thread, token: Token) returns (result: Done)
      modifies slots
      ensures (result, Abstract()) == PublishWrite(old(Abstract()), caller, token)
    {
      result := AssertWriter(caller, token);
      if result != Ok { return; }
      if closed { return Throws(StateError); }
      slots[token.slotId] := slots[token.slotId].(state := Published);
    }

    method SetSize(caller: Thread, token: Token, size: nat) returns (result: Done)
      modifies slots
      ensures (result, Abstract()) == SetPayloadSize(old(Abstract()), caller, token, size)
    {
      result := AssertWriter(caller, token);
      if result != Ok { return; }
      if size > payloadCapacity { return Throws(CapacityError); }
      slots[token.slotId] := slots[token.slotId].(payloadSize := size);
    }

    method Cancel(caller: Thread, token: Token) returns (result: Done)
      modifies slots
      ensures (result, Abstract()) == CancelWrite(old(Abstract()), caller, token)
    {
      result := AssertWriter(caller, token);
      if result != Ok { return; }
      slots[token.slotId] := slots[token.slotId].(state := Free, payloadSize := 0, wasCancelled := true);
    }

    method Payload(caller: Thread, token: Token) returns (view: View)
      requires WellFormedPool(Abstract())
      ensures view == ReadPayload(Abstract(), caller, token)
    {
      var check := AssertReader(caller, token);
      if check != Ok { return ViewThrows(check.error); }
      view := Visible(slots[token.slotId].payload[..slots[token.slotId].payloadSize]);
    }

    method Release(caller: Thread, token: Token) returns (result: Done)
      modifies slots
      ensures (result, Abstract()) == ReleaseRead(old(Abstract()), caller, token)
    {
      result := AssertReader(caller, token);
      if result != Ok { return; }
      slots[token.slotId] := slots[token.slotId].(state := Free, payloadSize := 0, wasCancelled := false);
    }

    method Discard(caller: Thread, token: Token) returns (result: Done)
      modifies this, slots
      ensures (result, Abstract()) == DiscardPublished(old(Abstract()), caller, token)
    {
      var honoured := SlotForToken(token);
      if !honoured {
        return Throws(GenerationError);
      }
      if consumer.Some? && consumer.value != caller { return Throws(OwnershipError); }
      consumer := Some(caller);
      if !closed || slots[token.slotId].state != Published { return Throws(StateError); }
      slots[token.slotId] := slots[token.slotId].(state := Free, payloadSize := 0, wasCancelled := false);
      result := Ok;
    }

    method Close()
      modifies this`closed
      ensures Abstract() == old(Abstract()).(closed := true)
    {
      closed := true;
    }

    method Quiescent() returns (result: bool)
      ensures result == IsQuiescent(Abstract())
    {
      if activeOperations != 0 { return false; }
      for i := 0 to slots.Length
        invariant forall j :: 0 <= j < i ==> slots[j].state == Free
      {
        if slots[i].state != Free { return false; }
      }
      return true;
    }
  }

  lemma QuotientBound(a: nat, b: nat, limit: nat)
    requires b > 0
    ensures a <= limit / b <==> a * b <= limit
  {
    var q := limit / b;
    assert limit == q * b + limit % b;
    if a <= q {
      assert (q - a) * b >= 0;
      assert (q - a) * b == q * b - a * b;
    } else {
      MultipleTooLarge(a - q, b);
      assert (a - q) * b == a * b - q * b;
    }
  }
}
