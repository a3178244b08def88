/** What the slot pool answers to each call, told by what its slots hold and which leases are active. */
module SlotAnswers {
  import opened Options
  import opened PacketChannel
  import opened FrameSlots
  import opened SlotLeases

  // The first free slot, and that there is none.
  ghost predicate IsFirstFree(pool: Pool, i: int) {
    && 0 <= i < |pool.slots| && pool.slots[i].state == Free
    && forall j :: 0 <= j < i ==> pool.slots[j].state != Free
  }

  ghost predicate AllInUse(pool: Pool) {
    forall j :: 0 <= j < |pool.slots| ==> pool.slots[j].state != Free
  }

  // Slot `i` replaced, and nothing else.
  function With(pool: Pool, i: nat, slot: Slot): Pool
    requires i < |pool.slots|
  {
    pool.(slots := pool.slots[i := slot])
  }

  // One operation fewer under way.
  function OneLess(n: nat): nat {
    if n == 0 then 0 else n - 1
  }

  // An attempt that finds the pool as it is: closed, it grants nothing; with slot `i` the first that is free, that
  // slot under the next generation, if there is one; with no slot free, it says `full`.
  ghost predicate WriteIs(pool: Pool, full: Acquired, done: nat, waiting: nat, answer: Acquired, after: Pool) {
    && (pool.closed ==> answer == NoLease && after == pool.(activeOperations := done))
    && (!pool.closed && AllInUse(pool) ==> answer == full && after == pool.(activeOperations := waiting))
    && forall i :: !pool.closed && IsFirstFree(pool, i) ==> OpensSlot(pool, i, done, answer, after)
  }

  ghost predicate OpensSlot(pool: Pool, i: int, done: nat, answer: Acquired, after: Pool)
    requires 0 <= i < |pool.slots|
  {
    var slot := pool.slots[i];
    if slot.generation == 0xFFFF_FFFF_FFFF_FFFF then
      answer == AcquireThrows(GenerationError) && after == pool.(activeOperations := done)
    else
      && answer == Leased(Token(i, slot.generation + 1, pool.poolId))
      && after == With(pool, i, Slot(Writing, slot.generation + 1, 0, false, slot.payload)).(activeOperations := done)
  }

  lemma FirstFreeIs(pool: Pool, i: int)
    ensures IsFirstFree(pool, i) <==> i == FirstFree(pool.slots) < |pool.slots|
    ensures AllInUse(pool) <==> FirstFree(pool.slots) == |pool.slots|
  {
  }

  lemma OpenIs(pool: Pool, i: nat)
    requires i < |pool.slots|
    ensures OpensSlot(pool, i, pool.activeOperations, Open(pool, i).0, Open(pool, i).1)
  {
  }

  lemma AttemptIs(pool: Pool)
    ensures WriteIs(pool, Blocks, OneLess(pool.activeOperations), pool.activeOperations, ResumeAcquireWrite(pool).0,
                    ResumeAcquireWrite(pool).1)
  {
    hide FirstFree, IsFirstFree, AllInUse, WellFormedPool;
    forall i
      ensures IsFirstFree(pool, i) <==> i == FirstFree(pool.slots) < |pool.slots|
      ensures AllInUse(pool) <==> FirstFree(pool.slots) == |pool.slots|
    {
      FirstFreeIs(pool, i);
    }
    FirstFreeIs(pool, 0);
  }

  /** A write acquire. A thread other than the producer is refused; else the caller is the producer from now on. The
      blocking form counts as an operation under way until it no longer waits. */
  lemma WriteAnswers(pool: Pool, caller: Thread)
    ensures (pool.producer.Some? && pool.producer != Some(caller)) ==>
      TryAcquireWrite(pool, caller) == BeginAcquireWrite(pool, caller) == (AcquireThrows(OwnershipError), pool)
    ensures (pool.producer == None || pool.producer == Some(caller)) ==>
      var mine, n := pool.(producer := Some(caller)), pool.activeOperations;
      && WriteIs(mine, NoLease, n, n, TryAcquireWrite(pool, caller).0, TryAcquireWrite(pool, caller).1)
      && WriteIs(mine, Blocks, n, n + 1, BeginAcquireWrite(pool, caller).0, BeginAcquireWrite(pool, caller).1)
    ensures pool.activeOperations > 0 ==>
      WriteIs(pool, Blocks, pool.activeOperations - 1, pool.activeOperations, ResumeAcquireWrite(pool).0, ResumeAcquireWrite(pool).1)
  {
    hide WriteIs, ResumeAcquireWrite, FirstFree, Open;
    AttemptIs(pool);
    if pool.producer == None || pool.producer == Some(caller) {
      var mine, n := pool.(producer := Some(caller)), pool.activeOperations;
      AttemptIs(mine.(activeOperations := n + 1));
      OtherCount(mine, Blocks, n + 1, n, n + 1, ResumeAcquireWrite(mine.(activeOperations := n + 1)).0,
                 ResumeAcquireWrite(mine.(activeOperations := n + 1)).1);
      TryIs(pool, caller);
    }
  }

  lemma TryIs(pool: Pool, caller: Thread)
    requires pool.producer == None || pool.producer == Some(caller)
    ensures WriteIs(pool.(producer := Some(caller)), NoLease, pool.activeOperations, pool.activeOperations,
                    TryAcquireWrite(pool, caller).0, TryAcquireWrite(pool, caller).1)
  {
    hide FirstFree, IsFirstFree, AllInUse, WellFormedPool;
    var mine := pool.(producer := Some(caller));
    forall i
      ensures IsFirstFree(mine, i) <==> i == FirstFree(mine.slots) < |mine.slots|
      ensures AllInUse(mine) <==> FirstFree(mine.slots) == |mine.slots|
    {
      FirstFreeIs(mine, i);
    }
    FirstFreeIs(mine, 0);
  }

  // The count of operations under way plays no part in the answer.
  lemma OtherCount(pool: Pool, full: Acquired, n: nat, done: nat, waiting: nat, answer: Acquired, after: Pool)
    requires WriteIs(pool.(activeOperations := n), full, done, waiting, answer, after)
    ensures WriteIs(pool, full, done, waiting, answer, after)
  {
    var other := pool.(activeOperations := n);
    assert AllInUse(pool) <==> AllInUse(other);
    forall i | !pool.closed && IsFirstFree(pool, i)
      ensures OpensSlot(pool, i, done, answer, after)
    {
      assert IsFirstFree(other, i);
      assert With(other, i, Slot(Writing, pool.slots[i].generation + 1, 0, false, pool.slots[i].payload)).(activeOperations := done)
        == With(pool, i, Slot(Writing, pool.slots[i].generation + 1, 0, false, pool.slots[i].payload)).(activeOperations := done);
    }
  }

  // An attempt to read the slot of an honoured token, by the consumer.
  ghost predicate ReadIs(pool: Pool, token: Token, blocking: bool, done: nat, waiting: nat, answer: Acquired, after: Pool)
    requires token.slotId < |pool.slots|
  {
    var slot := pool.slots[token.slotId];
    && (slot.state == Published ==>
          answer == Leased(token) && after == With(pool, token.slotId, slot.(state := Reading)).(activeOperations := done))
    && (slot.state == Writing && blocking && !pool.closed ==> answer == Blocks && after == pool.(activeOperations := waiting))
    && (slot.state == Writing && !(blocking && !pool.closed) ==> answer == NoLease && after == pool.(activeOperations := done))
    && (slot.state == Free || slot.state == Reading ==>
          && answer == (if slot.wasCancelled || pool.closed then NoLease else AcquireThrows(StateError))
          && after == pool.(activeOperations := done))
  }

  /** A read acquire. A token of another pool, slot or generation is refused first, then a thread other than the
      consumer; a published slot is granted, also in a closed pool, one still being written is waited for. */
  lemma ReadAnswers(pool: Pool, caller: Thread, token: Token, blocking: bool)
    ensures var valid := token.poolId == pool.poolId && 0 < token.generation && token.slotId < |pool.slots| &&
        pool.slots[token.slotId].generation == token.generation;
      var (answer, after) := BeginAcquireRead(pool, caller, token, blocking);
      && (!valid ==> answer == AcquireThrows(GenerationError) && after == pool)
      && (valid && pool.consumer.Some? && pool.consumer != Some(caller) ==> answer == AcquireThrows(OwnershipError) && after == pool)
      && (valid && (pool.consumer == None || pool.consumer == Some(caller)) ==>
            ReadIs(pool.(consumer := Some(caller)), token, blocking, pool.activeOperations, pool.activeOperations + 1, answer, after))
      && (valid && pool.activeOperations > 0 ==>
            ReadIs(pool, token, blocking, pool.activeOperations - 1, pool.activeOperations,
                   ResumeAcquireRead(pool, token, blocking).0, ResumeAcquireRead(pool, token, blocking).1))
  {
  }

  // ------------------------------------------------------------------
  // Calls through a lease
  // ------------------------------------------------------------------

  /** An active write lease is never refused for its token or for the state of its slot. The producer sets the size
      up to the capacity, publishes while the pool is open, and cancels; nobody else does anything. */
  lemma WriterAnswers(s: System, caller: Thread, token: Token, size: nat)
    requires LeasesAgree(s) && token in s.writers
    ensures token.slotId < |s.pool.slots| && s.pool.slots[token.slotId].state == Writing
    ensures var pool, i := s.pool, token.slotId;
      var slot := pool.slots[i];
      if pool.producer != Some(caller) then
        && SetPayloadSize(pool, caller, token, size) == (Throws(OwnershipError), pool)
        && PublishWrite(pool, caller, token) == CancelWrite(pool, caller, token) == (Throws(OwnershipError), pool)
      else
        && SetPayloadSize(pool, caller, token, size) ==
             (if size > pool.payloadCapacity then (Throws(CapacityError), pool) else (Ok, With(pool, i, slot.(payloadSize := size))))
        && PublishWrite(pool, caller, token) ==
             (if pool.closed then (Throws(StateError), pool) else (Ok, With(pool, i, slot.(state := Published))))
        && CancelWrite(pool, caller, token) ==
             (Ok, With(pool, i, Slot(Free, slot.generation, 0, true, slot.payload)))
  {
    hide LeasesAgree, SlotAgrees;
    LeaseIsCurrent(s, token);
    InWriting(s, token);
  }

  lemma InWriting(s: System, token: Token)
    requires LeasesAgree(s)
    ensures token in s.writers ==> token.slotId < |s.pool.slots| && s.pool.slots[token.slotId].state == Writing
    ensures token in s.readers ==> token.slotId < |s.pool.slots| && s.pool.slots[token.slotId].state == Reading
  {
    hide NoRepeats, KeepsSeal;
    if token in s.writers || token in s.readers {
      LeaseIsCurrent(s, token);
    }
  }

  /** An active read lease shows the consumer the published bytes and is released by it, which frees the slot. */
  lemma ReaderAnswers(s: System, caller: Thread, token: Token)
    requires LeasesAgree(s) && token in s.readers
    ensures token.slotId < |s.pool.slots| && s.pool.slots[token.slotId].state == Reading
    ensures s.pool.slots[token.slotId].payloadSize <= |s.pool.slots[token.slotId].payload|
    ensures var pool, i := s.pool, token.slotId;
      var slot := pool.slots[i];
      if pool.consumer != Some(caller) then
        ReleaseRead(pool, caller, token) == (Throws(OwnershipError), pool) &&
        ReadPayload(pool, caller, token) == ViewThrows(OwnershipError)
      else
        && ReleaseRead(pool, caller, token) == (Ok, With(pool, i, Slot(Free, slot.generation, 0, false, slot.payload)))
        && ReadPayload(pool, caller, token) == Visible(slot.payload[..slot.payloadSize])
  {
    hide LeasesAgree;
    LeaseIsCurrent(s, token);
    InWriting(s, token);
  }

  /** Discarding frees a published slot unread: only once the pool is closed, and only for the consumer. */
  lemma DiscardAnswers(pool: Pool, caller: Thread, token: Token)
    ensures var valid := token.poolId == pool.poolId && 0 < token.generation && token.slotId < |pool.slots| &&
        pool.slots[token.slotId].generation == token.generation;
      var (answer, after) := DiscardPublished(pool, caller, token);
      && (!valid ==> answer == Throws(GenerationError) && after == pool)
      && (valid && pool.consumer.Some? && pool.consumer != Some(caller) ==> answer == Throws(OwnershipError) && after == pool)
      && (valid && (pool.consumer == None || pool.consumer == Some(caller)) ==>
            var slot, mine := pool.slots[token.slotId], pool.(consumer := Some(caller));
            if pool.closed && slot.state == Published then
              answer == Ok && after == With(mine, token.slotId, Slot(Free, slot.generation, 0, false, slot.payload))
            else answer == Throws(StateError) && after == mine)
  {
  }

  // ------------------------------------------------------------------
  // After closing
  // ------------------------------------------------------------------

  lemma ClosedWrite(pool: Pool, step: Step)
    requires pool.closed && AcquiresWrite(step)
    ensures !Attempt(pool, step).0.Leased? && !Attempt(pool, step).0.Blocks? && Attempt(pool, step).1.closed
    ensures Attempt(pool, step).1.slots == pool.slots
  {
  }

  lemma ClosedCalls(pool: Pool, caller: Thread, token: Token, size: nat)
    requires pool.closed
    ensures SetPayloadSize(pool, caller, token, size).1.closed && CancelWrite(pool, caller, token).1.closed
    ensures ReleaseRead(pool, caller, token).1.closed && DiscardPublished(pool, caller, token).1.closed
    ensures PublishWrite(pool, caller, token).0 != Ok && PublishWrite(pool, caller, token).1 == pool
  {
  }

  lemma ClosedRead(pool: Pool, step: Step)
    requires pool.closed && AcquiresRead(step)
    ensures Attempt(pool, step).1.closed
  {
  }

  lemma ClosedAcquire(s: System, step: Step)
    requires LeasesAgree(s) && s.pool.closed && (AcquiresWrite(step) || AcquiresRead(step))
    ensures After(s, step).pool.closed && After(s, step).issued == s.issued && After(s, step).sealed == s.sealed
  {
    hide LeasesAgree, Attempt;
    if AcquiresWrite(step) { ClosedWrite(s.pool, step); } else { ClosedRead(s.pool, step); }
  }

  lemma ClosedSeal(s: System, caller: Thread, token: Token)
    requires LeasesAgree(s) && s.pool.closed && token in s.writers
    ensures After(s, Seal(caller, token)) == s
  {
    hide LeasesAgree, PublishWrite;
    LeaseIsCurrent(s, token);
    ClosedCalls(s.pool, caller, token, 0);
  }

  lemma ClosedCall(s: System, step: Step)
    requires LeasesAgree(s) && s.pool.closed && (step.Resize? || step.Abandon? || step.Finish? || step.Drop?) && Enabled(s, step)
    ensures After(s, step).pool.closed && After(s, step).issued == s.issued && After(s, step).sealed == s.sealed
  {
    hide LeasesAgree, SetPayloadSize, CancelWrite, ReleaseRead, DiscardPublished;
    ClosedCalls(s.pool, step.caller, step.token, if step.Resize? then step.size else 0);
  }

  lemma ClosedFill(s: System, step: Step)
    requires LeasesAgree(s) && s.pool.closed && (step.Fill? || step.CloseAll?) && Enabled(s, step)
    ensures After(s, step).pool.closed && After(s, step).issued == s.issued && After(s, step).sealed == s.sealed
  {
    if step.Fill? {
      FilledSlot(s, step.token);
    }
    hide LeasesAgree, SlotAgrees;
  }

  lemma ClosedStep(s: System, step: Step)
    requires LeasesAgree(s) && Enabled(s, step) && s.pool.closed
    ensures After(s, step).pool.closed && After(s, step).issued == s.issued && After(s, step).sealed == s.sealed
  {
    hide LeasesAgree, After;
    match step {
      case Seal(caller, token) => ClosedSeal(s, caller, token);
      case Resize(_, _, _) => ClosedCall(s, step);
      case Abandon(_, _) => ClosedCall(s, step);
      case Finish(_, _) => ClosedCall(s, step);
      case Drop(_, _) => ClosedCall(s, step);
      case Fill(_, _) => ClosedFill(s, step);
      case CloseAll => ClosedFill(s, step);
      case _ => ClosedAcquire(s, step);
    }
  }

  /** Once the pool is closed it stays closed, and in every continuation no write lease is granted, no waiting for
      one begins, and nothing is published. */
  lemma {:induction false} NothingAfterClose(s: System, steps: seq<Step>)
    requires LeasesAgree(s) && s.pool.closed && RunFrom(s, steps).Some?
    ensures Granted(s, steps) == []
    ensures var end := RunFrom(s, steps).value;
      && end.pool.closed && end.issued == s.issued && end.sealed == s.sealed
      && forall step :: AcquiresWrite(step) ==> !Attempt(end.pool, step).0.Leased? && !Attempt(end.pool, step).0.Blocks?
    decreases |steps|
  {
    hide LeasesAgree, After, Enabled, Attempt;
    if steps == [] {
      forall step | AcquiresWrite(step)
        ensures !Attempt(s.pool, step).0.Leased? && !Attempt(s.pool, step).0.Blocks?
      {
        ClosedWrite(s.pool, step);
      }
    } else {
      ClosedStep(s, steps[0]);
      StepKeeps(s, steps[0]);
      if AcquiresWrite(steps[0]) {
        ClosedWrite(s.pool, steps[0]);
      }
      NothingAfterClose(After(s, steps[0]), steps[1..]);
    }
  }
}
