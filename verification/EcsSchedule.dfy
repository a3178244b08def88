/** Ticks of the world through journals: the result does not depend on the workers or their order. */
module EcsSchedule {
  import opened Bytes
  import opened Options
  import opened EcsWorld

  // The update as one thread would do it.
  function Advanced(snapshot: Snapshot): Snapshot
    requires AllCanAdvance(snapshot)
  {
    seq(|snapshot|, i requires 0 <= i < |snapshot| =>
      snapshot[i].(transform := CheckedAdd(snapshot[i].transform, snapshot[i].velocity).value))
  }

  function Order(snapshot: Snapshot): seq<Entity> {
    seq(|snapshot|, i requires 0 <= i < |snapshot| => snapshot[i].entity)
  }

  // The journals of workers 0 to n - 1, out of `count`.
  function JournalsOf(snapshot: Snapshot, n: nat, count: nat): (journals: seq<Journal>)
    requires AllCanAdvance(snapshot) && n <= count
    ensures |journals| == n
  {
    if n == 0 then [] else JournalsOf(snapshot, n - 1, count) + [Journal(n - 1, UpdatesOf(PartitionOf(snapshot, n - 1, count)))]
  }

  function PartitionOf(snapshot: Snapshot, index: nat, count: nat): (states: Snapshot)
    requires AllCanAdvance(snapshot) && index < count
    ensures AllCanAdvance(states)
  {
    PartitionInBounds(|snapshot|, index, count);
    Partition(snapshot, index, count)
  }

  // ------------------------------------------------------------------
  // The sorted journals are the journals by index
  // ------------------------------------------------------------------

  lemma {:induction false} JournalAt(snapshot: Snapshot, n: nat, count: nat, k: nat)
    requires AllCanAdvance(snapshot) && k < n <= count
    ensures JournalsOf(snapshot, n, count)[k] == Journal(k, UpdatesOf(PartitionOf(snapshot, k, count)))
    ensures JournalsOf(snapshot, n, count)[..k] == JournalsOf(snapshot, k, count)
  {
    if k < n - 1 {
      JournalAt(snapshot, n - 1, count, k);
    }
  }

  predicate Indexed(journals: seq<Journal>) {
    forall k :: 0 <= k < |journals| ==> journals[k].workerIndex == k
  }

  lemma InMultiset(s: seq<Journal>, t: seq<Journal>, i: nat) returns (j: nat)
    requires multiset(s) == multiset(t) && i < |s|
    ensures j < |t| && t[j] == s[i]
  {
    assert s[i] in multiset(t);
    j :| j < |t| && t[j] == s[i];
  }

  lemma LargestIsLast(sorted: seq<Journal>, indexed: seq<Journal>, n: nat)
    requires SortedByWorker(sorted) && Indexed(indexed) && multiset(sorted) == multiset(indexed)
    requires |sorted| == |indexed| == n + 1
    ensures sorted[n] == indexed[n]
  {
    var i := InMultiset(sorted, indexed, n);
    var j := InMultiset(indexed, sorted, n);
    assert sorted[j].workerIndex == n && sorted[n].workerIndex == i;
  }

  lemma WithoutLast(s: seq<Journal>, n: nat)
    requires |s| == n + 1
    ensures multiset(s[..n]) == multiset(s) - multiset{s[n]}
  {
    assert s == s[..n] + [s[n]];
  }

  // Sorting journals whose indexes are 0 to n - 1 leaves one possible result.
  lemma {:induction false} SortingIsUnique(sorted: seq<Journal>, indexed: seq<Journal>)
    requires SortedByWorker(sorted) && Indexed(indexed) && multiset(sorted) == multiset(indexed)
    ensures sorted == indexed
    decreases |indexed|
  {
    SameLength(sorted, indexed);
    if indexed != [] {
      var n := |indexed| - 1;
      LargestIsLast(sorted, indexed, n);
      WithoutLast(sorted, n);
      WithoutLast(indexed, n);
      SortingIsUnique(sorted[..n], indexed[..n]);
      LastAndRest(sorted, indexed, n);
    }
  }

  lemma SameLength(s: seq<Journal>, t: seq<Journal>)
    requires multiset(s) == multiset(t)
    ensures |s| == |t|
  {
    assert |multiset(s)| == |s| && |multiset(t)| == |t|;
  }

  lemma LastAndRest(s: seq<Journal>, t: seq<Journal>, n: nat)
    requires |s| == |t| == n + 1 && s[n] == t[n] && s[..n] == t[..n]
    ensures s == t
  {
    assert s == s[..n] + [s[n]] && t == t[..n] + [t[n]];
  }

  // ------------------------------------------------------------------
  // They cover the snapshot
  // ------------------------------------------------------------------

  // Updates that advance the first states of the snapshot.
  predicate Advance(updates: seq<Update>, snapshot: Snapshot)
    requires AllCanAdvance(snapshot)
  {
    && |updates| <= |snapshot|
    && forall p :: 0 <= p < |updates| ==> IsAdvance(updates[p], snapshot[p])
  }

  predicate IsAdvance(update: Update, state: EntityState)
    requires CanAdvance(state)
  {
    update.entity == state.entity && update.value == CheckedAdd(state.transform, state.velocity).value
  }

  lemma {:induction false} JournalsAdvance(snapshot: Snapshot, n: nat, count: nat)
    requires AllCanAdvance(snapshot) && n <= count && count > 0
    ensures |Updates(JournalsOf(snapshot, n, count))| == PartitionStart(|snapshot|, n, count) <= |snapshot|
    ensures Advance(Updates(JournalsOf(snapshot, n, count)), snapshot)
  {
    hide PartitionStart, UpdatesOf, PartitionOf, Advance;
    if n == 0 {
      PartitionsTile(|snapshot|, 0, count);
      NothingAdvanced(snapshot, count);
    } else {
      JournalsAdvance(snapshot, n - 1, count);
      LastJournal(snapshot, n, count);
      PartitionAdvances(snapshot, Updates(JournalsOf(snapshot, n - 1, count)), n, count);
    }
  }

  lemma NothingAdvanced(snapshot: Snapshot, count: nat)
    requires AllCanAdvance(snapshot)
    ensures Updates(JournalsOf(snapshot, 0, count)) == [] && Advance([], snapshot)
  {
  }

  lemma PartitionAdvances(snapshot: Snapshot, updates: seq<Update>, n: nat, count: nat)
    requires AllCanAdvance(snapshot) && 0 < n <= count
    requires Advance(updates, snapshot) && |updates| == PartitionStart(|snapshot|, n - 1, count)
    ensures var more := updates + UpdatesOf(PartitionOf(snapshot, n - 1, count));
      |more| == PartitionStart(|snapshot|, n, count) <= |snapshot| && Advance(more, snapshot)
  {
    hide PartitionStart, PartitionEnd, Advance;
    PartitionsTile(|snapshot|, n - 1, count);
    PartitionInBounds(|snapshot|, n - 1, count);
    AdvanceOn(updates, snapshot, PartitionStart(|snapshot|, n, count));
  }

  lemma LastJournal(snapshot: Snapshot, n: nat, count: nat)
    requires AllCanAdvance(snapshot) && 0 < n <= count
    ensures Updates(JournalsOf(snapshot, n, count)) ==
      Updates(JournalsOf(snapshot, n - 1, count)) + UpdatesOf(PartitionOf(snapshot, n - 1, count))
  {
    hide UpdatesOf, PartitionOf;
    var all := JournalsOf(snapshot, n, count);
    assert all[..n - 1] == JournalsOf(snapshot, n - 1, count);
  }

  lemma AdvanceOn(updates: seq<Update>, snapshot: Snapshot, end: nat)
    requires AllCanAdvance(snapshot) && Advance(updates, snapshot) && |updates| <= end <= |snapshot|
    ensures Advance(updates + UpdatesOf(snapshot[|updates|..end]), snapshot)
  {
  }

  lemma JournalFits(snapshot: Snapshot, count: nat, k: nat)
    requires AllCanAdvance(snapshot) && k < count
    ensures FitsAt(JournalsOf(snapshot, count, count), k, Order(snapshot))
  {
    JournalAt(snapshot, count, count, k);
    JournalsAdvance(snapshot, k, count);
    PartitionInBounds(|snapshot|, k, count);
  }

  lemma AdvanceIsMerge(updates: seq<Update>, snapshot: Snapshot)
    requires AllCanAdvance(snapshot) && Advance(updates, snapshot) && |updates| == |snapshot|
    ensures Merged(snapshot, updates) == Advanced(snapshot)
  {
    forall i | 0 <= i < |snapshot|
      ensures Merged(snapshot, updates)[i] == Advanced(snapshot)[i]
    {
      assert IsAdvance(updates[i], snapshot[i]);
    }
  }

  /** Journals built from a snapshot by any number of workers, handed over in any order, are accepted by
      the merge, which then does the sequential update. */
  lemma ScheduleDoesNotMatter(snapshot: Snapshot, count: nat, given: seq<Journal>, sorted: seq<Journal>)
    requires AllCanAdvance(snapshot) && 1 <= count <= MAX_WORLD_WORKERS
    requires multiset(given) == multiset(JournalsOf(snapshot, count, count))
    requires SortedByWorker(sorted) && multiset(sorted) == multiset(given)
    ensures Accepted(sorted, Order(snapshot)) && |Updates(sorted)| == |snapshot|
    ensures Merged(snapshot, Updates(sorted)) == Advanced(snapshot)
  {
    var all := JournalsOf(snapshot, count, count);
    forall k | 0 <= k < count
      ensures all[k].workerIndex == k && FitsAt(all, k, Order(snapshot))
    {
      JournalAt(snapshot, count, count, k);
      JournalFits(snapshot, count, k);
    }
    SortingIsUnique(sorted, all);
    JournalsAdvance(snapshot, count, count);
    PartitionsTile(|snapshot|, 0, count);
    AdvanceIsMerge(Updates(all), snapshot);
  }

  /** The workers all build a journal exactly when no state overflows, and then the journals above. */
  lemma {:induction false} WorkersSucceed(snapshot: Snapshot, count: nat)
    requires 1 <= count <= MAX_WORLD_WORKERS
    ensures AllCanAdvance(snapshot) <==> forall w :: 0 <= w < count ==> BuiltJournal(snapshot, w, count).Built?
    ensures AllCanAdvance(snapshot) ==>
      forall w :: 0 <= w < count ==> BuiltJournal(snapshot, w, count) == Built(JournalsOf(snapshot, count, count)[w])
  {
    if AllCanAdvance(snapshot) {
      forall w | 0 <= w < count
        ensures BuiltJournal(snapshot, w, count) == Built(JournalsOf(snapshot, count, count)[w])
      {
        assert AllCanAdvance(PartitionOf(snapshot, w, count));
        JournalAt(snapshot, count, count, w);
      }
    } else {
      var i :| 0 <= i < |snapshot| && !CanAdvance(snapshot[i]);
      PartitionsTile(|snapshot|, 0, count);
      var w := WorkerOf(|snapshot|, count, count, i);
      assert Partition(snapshot, w, count)[i - PartitionStart(|snapshot|, w, count)] == snapshot[i];
      assert !BuiltJournal(snapshot, w, count).Built?;
    }
  }

  // The worker whose partition holds a position.
  lemma {:induction false} WorkerOf(size: nat, n: nat, count: nat, i: nat) returns (w: nat)
    requires 0 < n <= count && i < PartitionStart(size, n, count)
    ensures w < n && PartitionStart(size, w, count) <= i < PartitionEnd(size, w, count) <= size
  {
    PartitionsTile(size, n - 1, count);
    PartitionInBounds(size, n - 1, count);
    if n == 1 || i >= PartitionStart(size, n - 1, count) {
      w := n - 1;
    } else {
      w := WorkerOf(size, n - 1, count, i);
    }
  }

  // ------------------------------------------------------------------
  // A tick of the world
  // ------------------------------------------------------------------

  // The journals in whatever order the workers finish.
  method HandOver(journals: seq<Journal>) returns (given: seq<Journal>)
    ensures multiset(given) == multiset(journals)
  {
    var rest := journals;
    given := [];
    while rest != []
      invariant multiset(given) + multiset(rest) == multiset(journals)
      decreases |rest|
    {
      var i :| 0 <= i < |rest|;
      assert rest == rest[..i] + [rest[i]] + rest[i + 1..];
      given := given + [rest[i]];
      rest := rest[..i] + rest[i + 1..];
    }
  }

  // Every worker builds its journal from the snapshot, or one of them fails; without workers there is none.
  method BuildAll(snapshot: Snapshot, count: nat) returns (journals: Option<seq<Journal>>)
    ensures journals.Some? <==> 1 <= count <= MAX_WORLD_WORKERS && AllCanAdvance(snapshot)
    ensures journals.Some? ==> journals.value == JournalsOf(snapshot, count, count)
  {
    if count == 0 { return None; }
    var built: seq<Journal> := [];
    for w := 0 to count
      invariant |built| == w && (w > 0 ==> count <= MAX_WORLD_WORKERS)
      invariant forall k :: 0 <= k < w ==> BuiltJournal(snapshot, k, count) == Built(built[k])
    {
      var one := BuildTransformJournal(snapshot, w, count);
      if !one.Built? {
        if count <= MAX_WORLD_WORKERS { WorkersSucceed(snapshot, count); }
        return None;
      }
      built := built + [one.journal];
    }
    WorkersSucceed(snapshot, count);
    return Some(built);
  }

  lemma OrderOfStates(order: seq<Entity>, transforms: map<Entity, Int64>, velocities: map<Entity, Int64>)
    requires Described(order, transforms, velocities)
    ensures Order(StatesOf(order, transforms, velocities)) == order
  {
  }

  /** One tick: snapshot, one journal for each worker, the merge of them in any order. It succeeds exactly
      for a lawful worker count and no overflow, and is then the sequential update; otherwise nothing changes. */
  method Tick(world: World, count: nat) returns (ok: bool)
    requires world.Valid()
    modifies world`transforms
    ensures world.Valid()
    ensures ok <==> 1 <= count <= MAX_WORLD_WORKERS && AllCanAdvance(old(world.States()))
    ensures world.States() == if ok then Advanced(old(world.States())) else old(world.States())
  {
    var snapshot := world.CopySnapshot();
    var journals := BuildAll(snapshot, count);
    if journals.None? { return false; }
    var given := HandOver(journals.value);
    assert |given| == |multiset(given)| == |multiset(journals.value)| == count;
    var sorted;
    ok, sorted := world.MergeJournals(given);
    ScheduleDoesNotMatter(snapshot, count, given, sorted);
    OrderOfStates(world.entityOrder, old(world.transforms), world.velocities);
  }

  // The world after a number of sequential updates, if none overflows.
  function AdvancedTimes(snapshot: Snapshot, n: nat): Option<Snapshot>
    decreases n
  {
    if n == 0 then Some(snapshot)
    else if AllCanAdvance(snapshot) then AdvancedTimes(Advanced(snapshot), n - 1)
    else None
  }

  predicate AllLawful(counts: seq<nat>) {
    forall i :: 0 <= i < |counts| ==> 1 <= counts[i] <= MAX_WORLD_WORKERS
  }

  /** Any number of ticks, each with its own number of workers: the outcome depends on how many there are,
      never on the workers or the order in which they finish. */
  method RunTicks(world: World, counts: seq<nat>) returns (ok: bool)
    requires world.Valid()
    modifies world`transforms
    ensures world.Valid()
    ensures ok <==> AllLawful(counts) && AdvancedTimes(old(world.States()), |counts|).Some?
    ensures ok ==> world.States() == AdvancedTimes(old(world.States()), |counts|).value
  {
    hide Advanced, AllCanAdvance, StatesOf;
    for i := 0 to |counts|
      invariant world.Valid() && AllLawful(counts[..i])
      invariant AdvancedTimes(old(world.States()), |counts|) == AdvancedTimes(world.States(), |counts| - i)
    {
      ok := Tick(world, counts[i]);
      if !ok { return; }
      assert counts[..i + 1] == counts[..i] + [counts[i]];
    }
    assert counts[..|counts|] == counts;
    ok := true;
  }

  // ------------------------------------------------------------------
  // Any number of ticks
  // ------------------------------------------------------------------

  // One tick: some workers build journals, in some order, and the merge takes them.
  ghost predicate Ticked(before: Snapshot, after: Snapshot) {
    exists count: nat, given, sorted :: TickedBy(before, after, count, given, sorted)
  }

  ghost predicate TickedBy(before: Snapshot, after: Snapshot, count: nat, given: seq<Journal>, sorted: seq<Journal>) {
    && AllCanAdvance(before) && 1 <= count <= MAX_WORLD_WORKERS
    && multiset(given) == multiset(JournalsOf(before, count, count))
    && SortedByWorker(sorted) && multiset(sorted) == multiset(given)
    && Accepted(sorted, Order(before)) && |Updates(sorted)| == |before| && after == Merged(before, Updates(sorted))
  }

  ghost predicate TickedAt(run: seq<Snapshot>, i: nat) {
    i + 1 < |run| && Ticked(run[i], run[i + 1])
  }

  /** Two worlds that start equal are equal after every tick, whatever workers and orders served each. */
  lemma {:induction false} RunsAgree(a: seq<Snapshot>, b: seq<Snapshot>, k: nat)
    requires k < |a| && k < |b| && a[0] == b[0]
    requires forall i: nat :: i < k ==> TickedAt(a, i) && TickedAt(b, i)
    ensures a[k] == b[k]
  {
    if k > 0 {
      RunsAgree(a, b, k - 1);
      assert TickedAt(a, k - 1) && TickedAt(b, k - 1);
      TickIsAdvance(a[k - 1], a[k]);
      TickIsAdvance(b[k - 1], b[k]);
    }
  }

  lemma TickIsAdvance(before: Snapshot, after: Snapshot)
    requires Ticked(before, after)
    ensures AllCanAdvance(before) && after == Advanced(before)
  {
    var count: nat, given, sorted :| TickedBy(before, after, count, given, sorted);
    ScheduleDoesNotMatter(before, count, given, sorted);
  }

  // ------------------------------------------------------------------
  // Ticks in one go
  // ------------------------------------------------------------------

  // Where an entity is after `n` ticks, if no sum on the way overflows.
  function Travelled(state: EntityState, n: nat): int {
    state.transform + n * state.velocity
  }

  predicate InRange(value: int) {
    -0x8000_0000_0000_0000 <= value < 0x8000_0000_0000_0000
  }

  predicate AllInRange(snapshot: Snapshot, n: nat) {
    forall i :: 0 <= i < |snapshot| ==> InRange(Travelled(snapshot[i], n))
  }

  lemma OneTick(state: EntityState, n: nat)
    ensures Travelled(state, 0) == state.transform && Travelled(state, 1) == state.transform + state.velocity
    ensures InRange(state.transform + state.velocity) ==>
      Travelled(state, n + 1) == Travelled(state.(transform := state.transform + state.velocity), n)
    ensures InRange(Travelled(state, n + 1)) ==> InRange(state.transform + state.velocity)
  {
    var v: int := state.velocity;
    assert (n + 1) * v == n * v + v;
    if v >= 0 {
      assert n * v >= 0;
    } else {
      assert n * -v >= 0 && n * v == -(n * -v);
    }
  }

  /** After any number of ticks every entity has moved by as many times its velocity, with its identifier, its
      velocity and its place unchanged; the ticks succeed exactly when every entity ends in the 64-bit range. */
  lemma {:induction false} TicksInOneGo(snapshot: Snapshot, n: nat)
    ensures AdvancedTimes(snapshot, n).Some? <==> AllInRange(snapshot, n)
    ensures AdvancedTimes(snapshot, n).Some? ==>
      var after := AdvancedTimes(snapshot, n).value;
      && |after| == |snapshot|
      && forall i :: 0 <= i < |snapshot| ==>
        && after[i].entity == snapshot[i].entity && after[i].velocity == snapshot[i].velocity
        && after[i].transform == Travelled(snapshot[i], n)
    decreases n
  {
    hide Travelled, CheckedAdd;
    forall i | 0 <= i < |snapshot|
      ensures Travelled(snapshot[i], 0) == snapshot[i].transform
      ensures n > 0 && InRange(Travelled(snapshot[i], n)) ==> InRange(snapshot[i].transform + snapshot[i].velocity)
    {
      OneTick(snapshot[i], if n > 0 then n - 1 else 0);
    }
    if n > 0 && AllCanAdvance(snapshot) {
      var next := Advanced(snapshot);
      TicksInOneGo(next, n - 1);
      forall i | 0 <= i < |snapshot|
        ensures next[i].entity == snapshot[i].entity && next[i].velocity == snapshot[i].velocity
        ensures Travelled(next[i], n - 1) == Travelled(snapshot[i], n)
      {
        OneTick(snapshot[i], n - 1);
        assert CanAdvance(snapshot[i]);
      }
      assert AllInRange(next, n - 1) <==> AllInRange(snapshot, n);
    } else if n > 0 {
      assert !AllInRange(snapshot, n) by {
        var i :| 0 <= i < |snapshot| && !CanAdvance(snapshot[i]);
        OneTick(snapshot[i], n - 1);
      }
    }
  }
}
