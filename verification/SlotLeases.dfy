/** Leases over every run of a frame slot pool, whatever its clients do.

    A client step is one lock region, made by any thread with any token; the lease
    objects refuse to act once inactive, so publishing, cancelling and releasing are
    made through active leases only. The span of a write lease is plain memory: the
    client may go on writing through it when the lease is no longer active.
*/
module SlotLeases {
  import opened Bytes
  import opened Options
  import opened PacketChannel
  import opened FrameSlots

  datatype Content = Content(payload: seq<byte>, size: nat)

  // The pool; the active leases, one occurrence for each; the tokens of the write leases granted so far,
  // in order; what each published token held; and the slots written since by a lease no longer active.
  datatype System = System(pool: Pool, writers: multiset<Token>, readers: multiset<Token>, issued: seq<Token>,
                           sealed: map<Token, Content>, strayed: set<nat>)

  datatype Step =
    | TryWrite(caller: Thread)
    | BeginWrite(caller: Thread)
    | ResumeWrite
    | BeginRead(caller: Thread, token: Token, blocking: bool)
    | ResumeRead(token: Token, blocking: bool)
    | Fill(token: Token, bytes: seq<byte>)
    | Resize(caller: Thread, token: Token, size: nat)
    | Seal(caller: Thread, token: Token)
    | Abandon(caller: Thread, token: Token)
    | Finish(caller: Thread, token: Token)
    | Drop(caller: Thread, token: Token)
    | CloseAll

  predicate AcquiresWrite(step: Step) {
    step.TryWrite? || step.BeginWrite? || step.ResumeWrite?
  }

  predicate AcquiresRead(step: Step) {
    step.BeginRead? || step.ResumeRead?
  }

  // What the pool answers to an acquire, and the pool after it.
  function Attempt(pool: Pool, step: Step): (Acquired, Pool)
    requires AcquiresWrite(step) || AcquiresRead(step)
  {
    match step
    case TryWrite(caller) => TryAcquireWrite(pool, caller)
    case BeginWrite(caller) => BeginAcquireWrite(pool, caller)
    case ResumeWrite => ResumeAcquireWrite(pool)
    case BeginRead(caller, token, blocking) => BeginAcquireRead(pool, caller, token, blocking)
    case ResumeRead(token, blocking) => ResumeAcquireRead(pool, token, blocking)
  }

  function AfterWriteAttempt(s: System, outcome: (Acquired, Pool)): System {
    match outcome.0
    case Leased(token) => s.(pool := outcome.1, writers := s.writers + multiset{token}, issued := s.issued + [token])
    case _ => s.(pool := outcome.1)
  }

  function AfterReadAttempt(s: System, outcome: (Acquired, Pool)): System {
    match outcome.0
    case Leased(token) => s.(pool := outcome.1, readers := s.readers + multiset{token})
    case _ => s.(pool := outcome.1)
  }

  function AfterSeal(s: System, token: Token, outcome: (Done, Pool)): System
    requires token.slotId < |s.pool.slots|
  {
    if outcome.0 != Ok then s.(pool := outcome.1)
    else
      var slot := s.pool.slots[token.slotId];
      s.(pool := outcome.1, writers := s.writers - multiset{token},
         sealed := s.sealed[token := Content(slot.payload, slot.payloadSize)], strayed := s.strayed - {token.slotId})
  }

  function AfterAbandon(s: System, token: Token, outcome: (Done, Pool)): System {
    if outcome.0 != Ok then s.(pool := outcome.1) else s.(pool := outcome.1, writers := s.writers - multiset{token})
  }

  function AfterFinish(s: System, token: Token, outcome: (Done, Pool)): System {
    if outcome.0 != Ok then s.(pool := outcome.1) else s.(pool := outcome.1, readers := s.readers - multiset{token})
  }

  predicate Enabled(s: System, step: Step) {
    match step
    case Fill(token, bytes) => token in s.issued && |bytes| <= s.pool.payloadCapacity
    case Resize(_, token, _) => token in s.writers
    case Seal(_, token) => token in s.writers
    case Abandon(_, token) => token in s.writers
    case Finish(_, token) => token in s.readers
    case _ => true
  }

  ghost function After(s: System, step: Step): System
    requires LeasesAgree(s) && Enabled(s, step)
  {
    match step
    case TryWrite(_) => AfterWriteAttempt(s, Attempt(s.pool, step))
    case BeginWrite(_) => AfterWriteAttempt(s, Attempt(s.pool, step))
    case ResumeWrite => AfterWriteAttempt(s, Attempt(s.pool, step))
    case BeginRead(_, _, _) => AfterReadAttempt(s, Attempt(s.pool, step))
    case ResumeRead(_, _) => AfterReadAttempt(s, Attempt(s.pool, step))
    case Fill(token, bytes) =>
      assert TokenReached(s.pool, token) && SlotAgrees(s, token.slotId);
      s.(pool := Store(s.pool, token.slotId, bytes),
         strayed := if token in s.writers then s.strayed else s.strayed + {token.slotId})
    case Resize(caller, token, size) => s.(pool := SetPayloadSize(s.pool, caller, token, size).1)
    case Seal(caller, token) => AfterSeal(s, token, PublishWrite(s.pool, caller, token))
    case Abandon(caller, token) => AfterAbandon(s, token, CancelWrite(s.pool, caller, token))
    case Finish(caller, token) => AfterFinish(s, token, ReleaseRead(s.pool, caller, token))
    case Drop(caller, token) => s.(pool := DiscardPublished(s.pool, caller, token).1)
    case CloseAll => s.(pool := s.pool.(closed := true))
  }

  function CurrentToken(pool: Pool, i: nat): Token
    requires i < |pool.slots|
  {
    Token(i, pool.slots[i].generation, pool.poolId)
  }

  // ------------------------------------------------------------------
  // The invariant
  // ------------------------------------------------------------------

  // A slot is Writing or Reading exactly while one lease of its current generation is active; in use it
  // belongs to an issued token; published, it keeps its sealed size, and its bytes if nothing strayed.
  ghost predicate SlotAgrees(s: System, i: nat)
    requires i < |s.pool.slots|
  {
    var slot, token := s.pool.slots[i], CurrentToken(s.pool, i);
    && |slot.payload| == s.pool.payloadCapacity && slot.payloadSize <= s.pool.payloadCapacity
    && s.writers[token] == (if slot.state == Writing then 1 else 0)
    && s.readers[token] == (if slot.state == Reading then 1 else 0)
    && (slot.state != Free ==> token in s.issued)
    && (slot.state == Writing ==> token !in s.sealed)
    && (slot.state == Published || slot.state == Reading ==> KeepsSeal(s, i))
  }

  ghost predicate KeepsSeal(s: System, i: nat)
    requires i < |s.pool.slots|
  {
    var slot, token := s.pool.slots[i], CurrentToken(s.pool, i);
    && token in s.sealed && s.sealed[token].size == slot.payloadSize
    && |s.sealed[token].payload| == |slot.payload|
    && (i !in s.strayed ==> s.sealed[token].payload == slot.payload)
  }

  // A token was issued for a slot of this pool and a generation already reached.
  ghost predicate TokenReached(pool: Pool, t: Token) {
    t.poolId == pool.poolId && t.slotId < |pool.slots| && 1 <= t.generation <= pool.slots[t.slotId].generation
  }

  ghost predicate NoRepeats(tokens: seq<Token>) {
    forall i, j :: 0 <= i < j < |tokens| ==> tokens[i] != tokens[j]
  }

  ghost predicate LeasesAgree(s: System) {
    && (forall i :: 0 <= i < |s.pool.slots| ==> SlotAgrees(s, i))
    && (forall t :: t in s.writers ==> Honours(s.pool, t))
    && (forall t :: t in s.readers ==> Honours(s.pool, t))
    && (forall t :: t in s.issued ==> TokenReached(s.pool, t))
    && (forall t :: t in s.sealed ==> t in s.issued)
    && NoRepeats(s.issued)
  }

  ghost function Start(slotCount: nat, capacity: nat, id: nat): (s: System)
    ensures LeasesAgree(s)
  {
    System(FreshPool(slotCount, capacity, id), multiset{}, multiset{}, [], map[], {})
  }

  // ------------------------------------------------------------------
  // Every step keeps it
  // ------------------------------------------------------------------

  ghost predicate SameToken(s: System, s': System, t: Token) {
    && s'.writers[t] == s.writers[t] && s'.readers[t] == s.readers[t] && (t in s'.issued <==> t in s.issued)
    && (t in s'.sealed <==> t in s.sealed) && (t in s.sealed ==> s'.sealed[t] == s.sealed[t])
  }

  // Only slot `i`, and tokens for it, changed; its generation did not go back.
  ghost predicate OnlySlot(s: System, s': System, i: nat) {
    && i < |s.pool.slots| == |s'.pool.slots| && s'.pool.poolId == s.pool.poolId && s'.pool.payloadCapacity == s.pool.payloadCapacity
    && s'.pool.slots[i].generation >= s.pool.slots[i].generation
    && (forall j :: 0 <= j < |s.pool.slots| && j != i ==> s'.pool.slots[j] == s.pool.slots[j] && (j in s'.strayed <==> j in s.strayed))
    && (forall t: Token :: t.slotId != i ==> SameToken(s, s', t))
  }

  // The tokens of slot `i` agree with it.
  ghost predicate TokensAgree(s: System, i: nat) {
    && (forall t :: t in s.writers && t.slotId == i ==> Honours(s.pool, t))
    && (forall t :: t in s.readers && t.slotId == i ==> Honours(s.pool, t))
    && (forall t :: t in s.issued && t.slotId == i ==> TokenReached(s.pool, t))
    && (forall t :: t in s.sealed && t.slotId == i ==> t in s.issued)
  }

  lemma OneSlotChanged(s: System, s': System, i: nat)
    requires LeasesAgree(s) && OnlySlot(s, s', i) && SlotAgrees(s', i) && TokensAgree(s', i) && NoRepeats(s'.issued)
    ensures LeasesAgree(s')
  {
    hide NoRepeats;
    forall j | 0 <= j < |s'.pool.slots|
      ensures SlotAgrees(s', j)
    {
      if j != i {
        assert SlotAgrees(s, j);
        assert s'.pool.slots[j] == s.pool.slots[j];
        assert CurrentToken(s'.pool, j) == CurrentToken(s.pool, j);
        assert SameToken(s, s', CurrentToken(s.pool, j));
      }
    }
    OtherTokensAgree(s, s', i);
  }

  lemma OtherTokensAgree(s: System, s': System, i: nat)
    requires LeasesAgree(s) && OnlySlot(s, s', i) && TokensAgree(s', i)
    ensures forall t :: t in s'.writers ==> Honours(s'.pool, t)
    ensures forall t :: t in s'.readers ==> Honours(s'.pool, t)
    ensures forall t :: t in s'.issued ==> TokenReached(s'.pool, t)
    ensures forall t :: t in s'.sealed ==> t in s'.issued
  {
    hide NoRepeats, SlotAgrees;
    forall t: Token | t.slotId != i
      ensures t in s'.writers ==> Honours(s'.pool, t)
      ensures t in s'.readers ==> Honours(s'.pool, t)
      ensures t in s'.issued ==> TokenReached(s'.pool, t)
      ensures t in s'.sealed ==> t in s'.issued
    {
      assert SameToken(s, s', t);
    }
  }

  lemma HonouredIsCurrent(pool: Pool, i: nat)
    requires i < |pool.slots|
    ensures forall t :: Honours(pool, t) && t.slotId == i ==> t == CurrentToken(pool, i)
  {
  }

  // Bookkeeping outside the slots does not matter.
  ghost predicate SameSlots(pool: Pool, pool': Pool) {
    pool'.slots == pool.slots && pool'.poolId == pool.poolId && pool'.payloadCapacity == pool.payloadCapacity
  }

  lemma BookkeepingKeeps(s: System, pool: Pool)
    requires LeasesAgree(s) && SameSlots(s.pool, pool)
    ensures LeasesAgree(s.(pool := pool))
  {
    hide NoRepeats;
    var s' := s.(pool := pool);
    forall j | 0 <= j < |pool.slots|
      ensures SlotAgrees(s', j)
    {
      assert SlotAgrees(s, j);
    }
  }

  // A new lease: a generation, and so a token, never seen before.
  lemma OpenKeeps(s: System, i: nat)
    requires LeasesAgree(s) && i < |s.pool.slots| && s.pool.slots[i].state == Free
    ensures LeasesAgree(AfterWriteAttempt(s, Open(s.pool, i)))
    ensures Open(s.pool, i).0.Leased? ==> Fresh(s, Open(s.pool, i).0.token)
  {
    hide NoRepeats, KeepsSeal;
    var (result, pool) := Open(s.pool, i);
    if result.Leased? {
      var token, s' := result.token, AfterWriteAttempt(s, (result, pool));
      assert SlotAgrees(s, i);
      assert !TokenReached(s.pool, token) && !Honours(s.pool, token);
      assert CurrentToken(s.pool, i) !in s.writers && CurrentToken(s.pool, i) !in s.readers;
      HonouredIsCurrent(s.pool, i);
      NoRepeatsNext(s.issued, token);
      OneSlotChanged(s, s', i);
    }
  }

  lemma NoRepeatsNext(tokens: seq<Token>, t: Token)
    requires NoRepeats(tokens) && t !in tokens
    ensures NoRepeats(tokens + [t])
  {
  }

  // No lease of this token was ever granted, and no lease of its slot is active.
  ghost predicate Fresh(s: System, t: Token) {
    t !in s.issued && Idle(s, t.slotId)
  }

  ghost predicate Idle(s: System, i: nat) {
    forall t :: t in s.writers + s.readers ==> t.slotId != i
  }

  lemma WriteAttemptKeeps(s: System, pool: Pool)
    requires LeasesAgree(s) && SameSlots(s.pool, pool)
    ensures LeasesAgree(AfterWriteAttempt(s, ResumeAcquireWrite(pool)))
    ensures ResumeAcquireWrite(pool).0.Leased? ==> Fresh(s, ResumeAcquireWrite(pool).0.token)
    ensures pool.closed || FirstFree(pool.slots) == |pool.slots| ||
      var outcome := Open(pool, FirstFree(pool.slots));
      LeasesAgree(AfterWriteAttempt(s, outcome)) && (outcome.0.Leased? ==> Fresh(s, outcome.0.token))
  {
    hide LeasesAgree, Fresh;
    var i := FirstFree(pool.slots);
    BookkeepingKeeps(s, pool);
    BookkeepingKeeps(s, Finished(pool));
    if !pool.closed && i < |pool.slots| {
      var now := s.(pool := pool);
      OpenKeeps(now, i);
      SameFreshness(s, pool, Open(pool, i).0);
      var opened' := AfterWriteAttempt(now, Open(pool, i));
      BookkeepingKeeps(opened', Finished(opened'.pool));
      assert AfterWriteAttempt(s, ResumeAcquireWrite(pool)) == opened'.(pool := Finished(opened'.pool));
    }
  }

  lemma SameFreshness(s: System, pool: Pool, result: Acquired)
    ensures result.Leased? ==> (Fresh(s.(pool := pool), result.token) <==> Fresh(s, result.token))
  {
  }

  // The active lease of a slot moves on: the slot and its current token change, nothing else.
  ghost predicate OnlyCurrent(s: System, s': System, i: nat, slot: Slot) {
    && i < |s.pool.slots| && slot.generation == s.pool.slots[i].generation
    && s'.pool.slots == s.pool.slots[i := slot]
    && s'.pool.poolId == s.pool.poolId && s'.pool.payloadCapacity == s.pool.payloadCapacity
    && s'.issued == s.issued && (forall j :: j != i ==> (j in s'.strayed <==> j in s.strayed))
    && (forall t: Token :: t != CurrentToken(s.pool, i) ==> SameToken(s, s', t))
  }

  lemma CurrentChanged(s: System, s': System, i: nat, slot: Slot)
    requires LeasesAgree(s) && OnlyCurrent(s, s', i, slot) && SlotAgrees(s', i)
    requires CurrentToken(s.pool, i) in s'.sealed ==> CurrentToken(s.pool, i) in s.issued
    ensures LeasesAgree(s')
  {
    hide NoRepeats, KeepsSeal;
    assert SlotAgrees(s, i);
    assert CurrentToken(s'.pool, i) == CurrentToken(s.pool, i);
    forall t: Token | t.slotId == i
      ensures t in s'.writers ==> Honours(s'.pool, t)
      ensures t in s'.readers ==> Honours(s'.pool, t)
      ensures t in s'.issued ==> TokenReached(s'.pool, t)
      ensures t in s'.sealed ==> t in s'.issued
    {
      if t != CurrentToken(s.pool, i) {
        assert SameToken(s, s', t);
      } else {
        CurrentIsHonoured(s', i);
      }
    }
    OneSlotChanged(s, s', i);
  }

  lemma CurrentIsHonoured(s: System, i: nat)
    requires i < |s.pool.slots| && SlotAgrees(s, i) && forall t :: t in s.issued ==> t.generation >= 1
    ensures var t := CurrentToken(s.pool, i); t in s.writers || t in s.readers ==> Honours(s.pool, t)
  {
  }

  lemma ReadAttemptKeeps(s: System, pool: Pool, token: Token, blocking: bool)
    requires LeasesAgree(s) && SameSlots(s.pool, pool)
    ensures LeasesAgree(AfterReadAttempt(s, ResumeAcquireRead(pool, token, blocking)))
    ensures ResumeAcquireRead(pool, token, blocking).0.Leased? ==>
      ResumeAcquireRead(pool, token, blocking).0.token == token && token in s.issued && Idle(s, token.slotId)
  {
    hide NoRepeats, LeasesAgree;
    BookkeepingKeeps(s, pool);
    BookkeepingKeeps(s, Finished(pool));
    if Honours(pool, token) && pool.slots[token.slotId].state == Published {
      ReadGrantKeeps(s, Finished(WithState(pool, token.slotId, Reading)), token);
    }
  }

  lemma ReadGrantKeeps(s: System, pool: Pool, token: Token)
    requires LeasesAgree(s) && Honours(s.pool, token) && s.pool.slots[token.slotId].state == Published
    requires SameSlots(WithState(s.pool, token.slotId, Reading), pool)
    ensures LeasesAgree(s.(pool := pool, readers := s.readers + multiset{token}))
    ensures token in s.issued && Idle(s, token.slotId)
  {
    hide NoRepeats;
    var i := token.slotId;
    assert SlotAgrees(s, i) && token == CurrentToken(s.pool, i);
    HonouredIsCurrent(s.pool, i);
    CurrentChanged(s, s.(pool := pool, readers := s.readers + multiset{token}), i, pool.slots[i]);
  }

  // The steps through an active lease.
  lemma ResizeKeeps(s: System, caller: Thread, token: Token, size: nat)
    requires LeasesAgree(s) && token in s.writers
    ensures LeasesAgree(s.(pool := SetPayloadSize(s.pool, caller, token, size).1))
  {
    hide NoRepeats, LeasesAgree;
    LeaseIsCurrent(s, token);
    var pool := SetPayloadSize(s.pool, caller, token, size).1;
    CurrentChanged(s, s.(pool := pool), token.slotId, pool.slots[token.slotId]);
  }

  lemma SealKeeps(s: System, caller: Thread, token: Token)
    requires LeasesAgree(s) && token in s.writers && token.slotId < |s.pool.slots|
    ensures LeasesAgree(AfterSeal(s, token, PublishWrite(s.pool, caller, token)))
  {
    hide NoRepeats, LeasesAgree;
    LeaseIsCurrent(s, token);
    var outcome := PublishWrite(s.pool, caller, token);
    CurrentChanged(s, AfterSeal(s, token, outcome), token.slotId, outcome.1.slots[token.slotId]);
  }

  lemma AbandonKeeps(s: System, caller: Thread, token: Token)
    requires LeasesAgree(s) && token in s.writers
    ensures LeasesAgree(AfterAbandon(s, token, CancelWrite(s.pool, caller, token)))
  {
    hide NoRepeats, LeasesAgree;
    LeaseIsCurrent(s, token);
    var outcome := CancelWrite(s.pool, caller, token);
    CurrentChanged(s, AfterAbandon(s, token, outcome), token.slotId, outcome.1.slots[token.slotId]);
  }

  lemma FinishKeeps(s: System, caller: Thread, token: Token)
    requires LeasesAgree(s) && token in s.readers
    ensures LeasesAgree(AfterFinish(s, token, ReleaseRead(s.pool, caller, token)))
  {
    hide NoRepeats, LeasesAgree;
    LeaseIsCurrent(s, token);
    var outcome := ReleaseRead(s.pool, caller, token);
    CurrentChanged(s, AfterFinish(s, token, outcome), token.slotId, outcome.1.slots[token.slotId]);
  }

  lemma LeaseIsCurrent(s: System, t: Token)
    requires LeasesAgree(s) && (t in s.writers || t in s.readers)
    ensures Honours(s.pool, t) && t == CurrentToken(s.pool, t.slotId) && SlotAgrees(s, t.slotId) && t in s.issued
  {
    HonouredIsCurrent(s.pool, t.slotId);
    assert SlotAgrees(s, t.slotId);
  }

  // Filling a slot changes its bytes; through a lease no longer active, it is marked.
  lemma FillKeeps(s: System, token: Token, bytes: seq<byte>)
    requires LeasesAgree(s) && Enabled(s, Fill(token, bytes))
    ensures LeasesAgree(After(s, Fill(token, bytes)))
  {
    hide NoRepeats, LeasesAgree;
    var i, s' := token.slotId, After(s, Fill(token, bytes));
    FilledSlot(s, token);
    CurrentChanged(s, s', i, s'.pool.slots[i]);
  }

  lemma FilledSlot(s: System, token: Token)
    requires LeasesAgree(s) && token in s.issued
    ensures TokenReached(s.pool, token) && SlotAgrees(s, token.slotId)
    ensures token in s.writers ==> token == CurrentToken(s.pool, token.slotId)
    ensures CurrentToken(s.pool, token.slotId) in s.sealed ==> CurrentToken(s.pool, token.slotId) in s.issued
  {
    hide NoRepeats;
    assert TokenReached(s.pool, token);
  }

  lemma DropKeeps(s: System, caller: Thread, token: Token)
    requires LeasesAgree(s)
    ensures LeasesAgree(s.(pool := DiscardPublished(s.pool, caller, token).1))
  {
    hide NoRepeats;
    BookkeepingKeeps(s, s.pool.(consumer := Some(caller)));
    if DiscardPublished(s.pool, caller, token).0 == Ok {
      assert SlotAgrees(s, token.slotId) && token == CurrentToken(s.pool, token.slotId);
      HonouredIsCurrent(s.pool, token.slotId);
      OneSlotChanged(s, s.(pool := DiscardPublished(s.pool, caller, token).1), token.slotId);
    }
  }

  // A write acquire keeps the invariant, and what it grants is new.
  lemma WriteStepKeeps(s: System, step: Step)
    requires LeasesAgree(s) && AcquiresWrite(step)
    ensures LeasesAgree(After(s, step))
    ensures Attempt(s.pool, step).0.Leased? ==> Fresh(s, Attempt(s.pool, step).0.token)
  {
    hide LeasesAgree, Fresh;
    match step {
      case TryWrite(caller) =>
        BookkeepingKeeps(s, s.pool.(producer := Some(caller)));
        WriteAttemptKeeps(s, s.pool.(producer := Some(caller)));
      case BeginWrite(caller) =>
        WriteAttemptKeeps(s, s.pool.(producer := Some(caller), activeOperations := s.pool.activeOperations + 1));
      case ResumeWrite =>
        WriteAttemptKeeps(s, s.pool);
    }
  }

  // A read acquire keeps it too, and grants only what nobody holds.
  lemma ReadStepKeeps(s: System, step: Step)
    requires LeasesAgree(s) && AcquiresRead(step)
    ensures LeasesAgree(After(s, step))
    ensures Attempt(s.pool, step).0.Leased? ==>
      Attempt(s.pool, step).0.token == step.token && step.token in s.issued && Idle(s, step.token.slotId)
  {
    hide LeasesAgree, Idle;
    match step {
      case BeginRead(caller, token, blocking) =>
        ReadAttemptKeeps(s, s.pool.(consumer := Some(caller), activeOperations := s.pool.activeOperations + 1), token, blocking);
      case ResumeRead(token, blocking) =>
        ReadAttemptKeeps(s, s.pool, token, blocking);
    }
  }

  /** Every step of every client keeps leases and slots in agreement. */
  lemma StepKeeps(s: System, step: Step)
    requires LeasesAgree(s) && Enabled(s, step)
    ensures LeasesAgree(After(s, step))
  {
    hide LeasesAgree, AfterSeal, AfterAbandon, AfterFinish;
    match step {
      case Fill(token, bytes) => FillKeeps(s, token, bytes);
      case Resize(caller, token, size) => ResizeKeeps(s, caller, token, size);
      case Seal(caller, token) =>
        LeaseIsCurrent(s, token);
        SealKeeps(s, caller, token);
      case Abandon(caller, token) => AbandonKeeps(s, caller, token);
      case Finish(caller, token) => FinishKeeps(s, caller, token);
      case Drop(caller, token) => DropKeeps(s, caller, token);
      case CloseAll => BookkeepingKeeps(s, s.pool.(closed := true));
      case _ =>
        if AcquiresWrite(step) { WriteStepKeeps(s, step); } else { ReadStepKeeps(s, step); }
    }
  }

  // ------------------------------------------------------------------
  // Over every run
  // ------------------------------------------------------------------

  // The state after a run, or nothing if some step of it was not enabled.
  ghost function RunFrom(s: System, steps: seq<Step>): (end: Option<System>)
    requires LeasesAgree(s)
    ensures end.Some? ==> LeasesAgree(end.value)
    decreases |steps|
  {
    if steps == [] then Some(s)
    else if !Enabled(s, steps[0]) then None
    else StepKeeps(s, steps[0]); RunFrom(After(s, steps[0]), steps[1..])
  }

  /** A write lease comes with a token that was never granted before and that no active lease holds; no
      lease of its slot, of whatever generation, is active. */
  lemma TokensAreFresh(s: System, step: Step)
    requires LeasesAgree(s) && AcquiresWrite(step) && Attempt(s.pool, step).0.Leased?
    ensures var t := Attempt(s.pool, step).0.token;
      && t !in s.issued && t !in s.writers && t !in s.readers && Idle(s, t.slotId)
      && Honours(After(s, step).pool, t)
      && After(s, step).writers == s.writers + multiset{t} && After(s, step).issued == s.issued + [t]
  {
    WriteStepKeeps(s, step);
  }

  /** A read lease is granted only for a token issued before, and only while no lease of its slot is active. */
  lemma ReadGrantsAreExclusive(s: System, step: Step)
    requires LeasesAgree(s) && AcquiresRead(step) && Attempt(s.pool, step).0.Leased?
    ensures var t := Attempt(s.pool, step).0.token;
      t == step.token && t in s.issued && Idle(s, t.slotId) && After(s, step).readers == s.readers + multiset{t}
  {
    ReadStepKeeps(s, step);
  }

  // The tokens that the write acquires of a run hand out, in order.
  ghost function Granted(s: System, steps: seq<Step>): seq<Token>
    requires LeasesAgree(s) && RunFrom(s, steps).Some?
    decreases |steps|
  {
    if steps == [] then []
    else
      StepKeeps(s, steps[0]);
      var rest := Granted(After(s, steps[0]), steps[1..]);
      if AcquiresWrite(steps[0]) && Attempt(s.pool, steps[0]).0.Leased? then [Attempt(s.pool, steps[0]).0.token] + rest else rest
  }

  lemma GrantIsIssued(s: System, step: Step)
    requires LeasesAgree(s) && Enabled(s, step)
    ensures After(s, step).issued == s.issued +
      if AcquiresWrite(step) && Attempt(s.pool, step).0.Leased? then [Attempt(s.pool, step).0.token] else []
  {
    hide LeasesAgree, Attempt;
  }

  lemma {:induction false} GrantedIsIssued(s: System, steps: seq<Step>)
    requires LeasesAgree(s) && RunFrom(s, steps).Some?
    ensures RunFrom(s, steps).value.issued == s.issued + Granted(s, steps)
    decreases |steps|
  {
    hide LeasesAgree, After, Enabled, Attempt;
    if steps != [] {
      GrantIsIssued(s, steps[0]);
      StepKeeps(s, steps[0]);
      GrantedIsIssued(After(s, steps[0]), steps[1..]);
    }
  }

  /** Over any run of any clients, the write acquires never hand out one token twice. */
  lemma NoTokenTwice(slotCount: nat, capacity: nat, id: nat, steps: seq<Step>)
    requires RunFrom(Start(slotCount, capacity, id), steps).Some?
    ensures NoRepeats(Granted(Start(slotCount, capacity, id), steps))
  {
    var s := Start(slotCount, capacity, id);
    GrantedIsIssued(s, steps);
    assert s.issued + Granted(s, steps) == Granted(s, steps);
  }

  /** In every reachable state a slot has at most one active lease, counting occurrences, and only on its
      current generation: one writer exactly when it is Writing, one reader exactly when it is Reading. */
  lemma AtMostOneLease(slotCount: nat, capacity: nat, id: nat, steps: seq<Step>, a: Token, b: Token)
    requires RunFrom(Start(slotCount, capacity, id), steps).Some?
    ensures var s := RunFrom(Start(slotCount, capacity, id), steps).value;
      var active := s.writers + s.readers;
      && (a in active && b in active && a.slotId == b.slotId ==> a == b && active[a] == 1)
      && (a in active ==> Honours(s.pool, a))
      && (Honours(s.pool, a) ==>
            && s.writers[a] == (if s.pool.slots[a.slotId].state == Writing then 1 else 0)
            && s.readers[a] == (if s.pool.slots[a.slotId].state == Reading then 1 else 0))
  {
    hide NoRepeats, KeepsSeal;
    var s := RunFrom(Start(slotCount, capacity, id), steps).value;
    if Honours(s.pool, a) {
      assert SlotAgrees(s, a.slotId) && a == CurrentToken(s.pool, a.slotId);
    }
  }

  /** Once a slot's generation has moved on, a token of the old one is honoured by nothing, ever. */
  lemma {:induction false} StaleForever(s: System, steps: seq<Step>, t: Token)
    requires LeasesAgree(s) && RunFrom(s, steps).Some?
    requires t.slotId < |s.pool.slots| && t.generation < s.pool.slots[t.slotId].generation
    ensures !Honours(RunFrom(s, steps).value.pool, t)
    decreases |steps|
  {
    if steps != [] {
      GenerationsGrow(s, steps[0], t.slotId);
      StepKeeps(s, steps[0]);
      StaleForever(After(s, steps[0]), steps[1..], t);
    }
  }

  lemma GenerationsGrow(s: System, step: Step, i: nat)
    requires LeasesAgree(s) && Enabled(s, step) && i < |s.pool.slots|
    ensures |After(s, step).pool.slots| == |s.pool.slots|
    ensures s.pool.slots[i].generation <= After(s, step).pool.slots[i].generation
  {
    hide NoRepeats, SlotAgrees, LeasesAgree, Attempt, SetPayloadSize, PublishWrite, CancelWrite, ReleaseRead, DiscardPublished;
    match step {
      case Fill(token, _) => FilledSlot(s, token);
      case Resize(caller, token, size) => RegionsKeepGenerations(s.pool, caller, token, size, i);
      case Seal(caller, token) => RegionsKeepGenerations(s.pool, caller, token, 0, i);
      case Abandon(caller, token) => RegionsKeepGenerations(s.pool, caller, token, 0, i);
      case Finish(caller, token) => RegionsKeepGenerations(s.pool, caller, token, 0, i);
      case Drop(caller, token) => RegionsKeepGenerations(s.pool, caller, token, 0, i);
      case CloseAll =>
      case _ => AttemptGrows(s.pool, step, i);
    }
  }

  predicate SameGeneration(pool: Pool, pool': Pool, i: nat)
    requires i < |pool.slots|
  {
    |pool'.slots| == |pool.slots| && pool'.slots[i].generation == pool.slots[i].generation
  }

  lemma RegionsKeepGenerations(pool: Pool, caller: Thread, token: Token, size: nat, i: nat)
    requires i < |pool.slots|
    ensures SameGeneration(pool, SetPayloadSize(pool, caller, token, size).1, i)
    ensures SameGeneration(pool, PublishWrite(pool, caller, token).1, i)
    ensures SameGeneration(pool, CancelWrite(pool, caller, token).1, i)
    ensures SameGeneration(pool, ReleaseRead(pool, caller, token).1, i)
    ensures SameGeneration(pool, DiscardPublished(pool, caller, token).1, i)
  {
  }

  lemma AttemptGrows(pool: Pool, step: Step, i: nat)
    requires (AcquiresWrite(step) || AcquiresRead(step)) && i < |pool.slots|
    ensures |Attempt(pool, step).1.slots| == |pool.slots| && pool.slots[i].generation <= Attempt(pool, step).1.slots[i].generation
  {
  }

  /** A reader sees the size that was there at publish, and the bytes too unless some client wrote through
      a span it kept beyond its lease. */
  lemma ReaderSeesPublished(s: System, caller: Thread, t: Token)
    requires LeasesAgree(s) && t in s.readers && s.pool.consumer == Some(caller)
    ensures Honours(s.pool, t) && t in s.sealed && s.pool.slots[t.slotId].payloadSize <= |s.pool.slots[t.slotId].payload|
    ensures s.sealed[t].size <= |s.sealed[t].payload| && ReadPayload(s.pool, caller, t).Visible?
    ensures |ReadPayload(s.pool, caller, t).bytes| == s.sealed[t].size
    ensures t.slotId !in s.strayed ==> ReadPayload(s.pool, caller, t) == Visible(s.sealed[t].payload[..s.sealed[t].size])
  {
    hide NoRepeats;
    assert SlotAgrees(s, t.slotId) && t == CurrentToken(s.pool, t.slotId);
  }

  /** A slot is marked by exactly one kind of step: a write through a span whose lease is not active. Such a
      write shows in what the reader of the slot sees exactly where it differs from what was there. */
  lemma StrayFillShows(s: System, caller: Thread, t: Token, step: Step)
    requires LeasesAgree(s) && Enabled(s, step) && step.Fill? && step.token.slotId == t.slotId
    requires t in s.readers && s.pool.consumer == Some(caller)
    ensures step.token !in s.writers && t.slotId in After(s, step).strayed
    ensures Honours(s.pool, t) && Honours(After(s, step).pool, t)
    ensures var slot := s.pool.slots[t.slotId];
      && slot.payloadSize <= |slot.payload| && After(s, step).pool.slots[t.slotId].payloadSize <= |After(s, step).pool.slots[t.slotId].payload|
      && (ReadPayload(After(s, step).pool, caller, t) == ReadPayload(s.pool, caller, t) <==>
            forall k :: 0 <= k < |step.bytes| && k < slot.payloadSize ==> step.bytes[k] == slot.payload[k])
  {
    hide NoRepeats;
    assert SlotAgrees(s, t.slotId) && t == CurrentToken(s.pool, t.slotId);
    HonouredIsCurrent(s.pool, t.slotId);
    StoreShows(s.pool.slots[t.slotId].payload, step.bytes, s.pool.slots[t.slotId].payloadSize);
  }

  lemma StoreShows(payload: seq<byte>, bytes: seq<byte>, size: nat)
    requires |bytes| <= |payload| && size <= |payload|
    ensures (bytes + payload[|bytes|..])[..size] == payload[..size] <==>
      forall k :: 0 <= k < |bytes| && k < size ==> bytes[k] == payload[k]
  {
    var now := bytes + payload[|bytes|..];
    forall k | 0 <= k < size
      ensures now[..size][k] == if k < |bytes| then bytes[k] else payload[..size][k]
    {
    }
    if now[..size] == payload[..size] {
      forall k | 0 <= k < |bytes| && k < size
        ensures bytes[k] == payload[k]
      {
        assert now[..size][k] == payload[..size][k];
      }
    }
  }

  lemma StrayedOnlyByFill(s: System, step: Step, i: nat)
    requires LeasesAgree(s) && Enabled(s, step) && i !in s.strayed && i in After(s, step).strayed
    ensures step.Fill? && step.token.slotId == i && step.token !in s.writers
  {
  }

  /** The seal of a token is set when it is published, to what the slot then holds, and never changes. */
  lemma SealedAtPublish(s: System, step: Step, t: Token)
    requires LeasesAgree(s) && Enabled(s, step)
    ensures t in s.sealed ==> t in After(s, step).sealed && After(s, step).sealed[t] == s.sealed[t]
    ensures t !in s.sealed && t in After(s, step).sealed ==>
      && step.Seal? && step.token == t && Honours(s.pool, t) && t in s.writers
      && After(s, step).sealed[t] == Content(s.pool.slots[t.slotId].payload, s.pool.slots[t.slotId].payloadSize)
  {
    hide NoRepeats;
    if step.Seal? {
      assert Honours(s.pool, step.token) && SlotAgrees(s, step.token.slotId);
      assert step.token == CurrentToken(s.pool, step.token.slotId);
    }
  }
}
