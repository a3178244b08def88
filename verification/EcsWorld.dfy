/** The ECS world: journals built by workers from a snapshot and the validated merge of them. */
module EcsWorld {
  import opened Bytes
  import opened Options

  const MAX_WORLD_ENTITIES: nat := 1_000_000
  const MAX_WORLD_WORKERS: nat := 64
  const MAX_JOURNAL_UPDATES: nat := 1_000_000
  const DEFAULT_VELOCITY: Int64 := 1

  type Entity = Word32

  datatype EntityState = EntityState(entity: Entity, transform: Int64, velocity: Int64)
  type Snapshot = seq<EntityState>

  datatype Update = Update(entity: Entity, value: Int64, sequence: nat)
  datatype Journal = Journal(workerIndex: nat, transforms: seq<Update>)

  datatype Built = Built(journal: Journal) | WorkerOutOfBound | Overflow

  // ------------------------------------------------------------------
  // Journals
  // ------------------------------------------------------------------

  function PartitionStart(size: nat, index: nat, count: nat): nat
    requires count > 0
  {
    var base, remainder := size / count, size % count;
    index * base + if index < remainder then index else remainder
  }

  function PartitionEnd(size: nat, index: nat, count: nat): nat
    requires count > 0
  {
    PartitionStart(size, index, count) + size / count + if index < size % count then 1 else 0
  }

  // The addition of the program, written so that no intermediate result leaves the 64-bit range.
  function CheckedAdd(value: Int64, delta: Int64): (sum: Option<Int64>)
    ensures sum.Some? <==> -0x8000_0000_0000_0000 <= value + delta < 0x8000_0000_0000_0000
    ensures sum.Some? ==> sum.value == value + delta
  {
    var maximum, minimum := 0x7FFF_FFFF_FFFF_FFFF, -0x8000_0000_0000_0000;
    if (delta > 0 && value > maximum - delta) || (delta < 0 && value < minimum - delta) then None
    else Some(value + delta)
  }

  predicate CanAdvance(state: EntityState) {
    CheckedAdd(state.transform, state.velocity).Some?
  }

  predicate AllCanAdvance(states: Snapshot) {
    forall i :: 0 <= i < |states| ==> CanAdvance(states[i])
  }

  // The updates for a stretch of a snapshot, numbered from 0.
  function UpdatesOf(states: Snapshot): (updates: seq<Update>)
    requires AllCanAdvance(states)
  {
    seq(|states|, i requires 0 <= i < |states| =>
      Update(states[i].entity, CheckedAdd(states[i].transform, states[i].velocity).value, i))
  }

  function Partition(snapshot: Snapshot, index: nat, count: nat): Snapshot
    requires index < count
  {
    PartitionInBounds(|snapshot|, index, count);
    snapshot[PartitionStart(|snapshot|, index, count)..PartitionEnd(|snapshot|, index, count)]
  }

  function BuiltJournal(snapshot: Snapshot, index: nat, count: nat): Built {
    if count == 0 || count > MAX_WORLD_WORKERS || index >= count then WorkerOutOfBound
    else
      var states := Partition(snapshot, index, count);
      if AllCanAdvance(states) then Built(Journal(index, UpdatesOf(states))) else Overflow
  }

  method BuildTransformJournal(snapshot: Snapshot, workerIndex: nat, workerCount: nat) returns (built: Built)
    ensures built == BuiltJournal(snapshot, workerIndex, workerCount)
  {
    if workerCount == 0 || workerCount > MAX_WORLD_WORKERS || workerIndex >= workerCount { return WorkerOutOfBound; }
    PartitionInBounds(|snapshot|, workerIndex, workerCount);
    var begin := PartitionStart(|snapshot|, workerIndex, workerCount);
    var end := PartitionEnd(|snapshot|, workerIndex, workerCount);
    ghost var states := Partition(snapshot, workerIndex, workerCount);
    var transforms: seq<Update> := [];
    for index := begin to end
      invariant AllCanAdvance(states[..index - begin]) && transforms == UpdatesOf(states[..index - begin])
    {
      var state := snapshot[index];
      var value := CheckedAdd(state.transform, state.velocity);
      assert state == states[index - begin];
      if value.None? { return Overflow; }
      transforms := transforms + [Update(state.entity, value.value, index - begin)];
    }
    assert states[..end - begin] == states;
    built := Built(Journal(workerIndex, transforms));
  }

  // ------------------------------------------------------------------
  // Merging
  // ------------------------------------------------------------------

  predicate SortedByWorker(journals: seq<Journal>) {
    forall i, j :: 0 <= i < j < |journals| ==> journals[i].workerIndex <= journals[j].workerIndex
  }

  // All updates of the journals, in the order the merge visits them.
  function Updates(journals: seq<Journal>): seq<Update> {
    if journals == [] then []
    else Updates(journals[..|journals| - 1]) + journals[|journals| - 1].transforms
  }

  predicate Numbered(updates: seq<Update>) {
    forall u :: 0 <= u < |updates| ==> updates[u].sequence == u
  }

  // The journal is numbered and updates the stretch of the world that begins at `start`.
  predicate Fits(journal: Journal, start: nat, order: seq<Entity>) {
    && Numbered(journal.transforms) && start + |journal.transforms| <= |order|
    && AddressesFrom(journal.transforms, start, order)
  }

  predicate AddressesFrom(updates: seq<Update>, start: nat, order: seq<Entity>)
    requires start + |updates| <= |order|
  {
    forall u :: 0 <= u < |updates| ==> updates[u].entity == order[start + u]
  }

  predicate FitsAt(sorted: seq<Journal>, k: nat, order: seq<Entity>)
    requires k < |sorted|
  {
    sorted[k].workerIndex == k && Fits(sorted[k], |Updates(sorted[..k])|, order)
  }

  // What a merge demands of the sorted journals: they are contiguous and cover the world exactly.
  predicate Accepted(sorted: seq<Journal>, order: seq<Entity>) {
    && 0 < |sorted| <= MAX_WORLD_WORKERS && |Updates(sorted)| == |order|
    && AllFit(sorted, |sorted|, order)
  }

  predicate AllFit(sorted: seq<Journal>, j: nat, order: seq<Entity>)
    requires j <= |sorted|
  {
    forall k :: 0 <= k < j ==> FitsAt(sorted, k, order)
  }

  // What the first pass of a merge checks before anything is written.
  predicate CountsAccepted(sorted: seq<Journal>, order: seq<Entity>) {
    && 0 < |sorted| <= MAX_WORLD_WORKERS && |Updates(sorted)| == |order|
    && forall k :: 0 <= k < |sorted| ==> sorted[k].workerIndex < |sorted|
  }

  // How many of the updates fit, from the u-th on.
  function FitTo(updates: seq<Update>, u: nat, start: nat, order: seq<Entity>): (end: nat)
    requires u <= |updates|
    ensures u <= end <= |updates|
    decreases |updates| - u
  {
    if u < |updates| && start + u < |order| && updates[u].sequence == u && updates[u].entity == order[start + u]
    then FitTo(updates, u + 1, start, order)
    else u
  }

  // The updates that fit, from the j-th journal on, up to the first that does not or the first journal
  // out of place.
  function FittingFrom(sorted: seq<Journal>, j: nat, order: seq<Entity>): seq<Update>
    requires j <= |sorted|
    decreases |sorted| - j
  {
    if j == |sorted| || sorted[j].workerIndex != j then []
    else
      var updates := sorted[j].transforms;
      var end := FitTo(updates, 0, |Updates(sorted[..j])|, order);
      if end < |updates| then updates[..end] else updates + FittingFrom(sorted, j + 1, order)
  }

  // The updates a merge writes.
  function Fitting(sorted: seq<Journal>, order: seq<Entity>): seq<Update> {
    if CountsAccepted(sorted, order) then FittingFrom(sorted, 0, order) else []
  }

  function Applied(transforms: map<Entity, Int64>, updates: seq<Update>): map<Entity, Int64> {
    if updates == [] then transforms
    else
      var n := |updates| - 1;
      Applied(transforms, updates[..n])[updates[n].entity := updates[n].value]
  }

  function Entities(order: seq<Entity>): set<Entity> {
    set e | e in order
  }

  predicate Distinct(order: seq<Entity>) {
    forall i, j :: 0 <= i < j < |order| ==> order[i] != order[j]
  }

  function Merged(snapshot: Snapshot, updates: seq<Update>): Snapshot
    requires |updates| == |snapshot|
  {
    seq(|snapshot|, i requires 0 <= i < |snapshot| => snapshot[i].(transform := updates[i].value))
  }

  // Sorting by worker index; the order of journals with equal indexes is left open.
  method SortJournals(journals: seq<Journal>) returns (sorted: seq<Journal>)
    ensures SortedByWorker(sorted) && multiset(sorted) == multiset(journals)
  {
    sorted := [];
    for n := 0 to |journals|
      invariant SortedByWorker(sorted) && multiset(sorted) == multiset(journals[..n])
    {
      sorted := InsertSorted(sorted, journals[n]);
      assert journals[..n + 1] == journals[..n] + [journals[n]];
    }
    assert journals[..|journals|] == journals;
  }

  method InsertSorted(sorted: seq<Journal>, journal: Journal) returns (inserted: seq<Journal>)
    requires SortedByWorker(sorted)
    ensures SortedByWorker(inserted) && multiset(inserted) == multiset(sorted) + multiset{journal}
  {
    var i := 0;
    while i < |sorted| && sorted[i].workerIndex <= journal.workerIndex
      invariant i <= |sorted| && forall k :: 0 <= k < i ==> sorted[k].workerIndex <= journal.workerIndex
    {
      i := i + 1;
    }
    InsertKeepsSorted(sorted, i, journal);
    InsertAddsOne(sorted, i, journal);
    inserted := sorted[..i] + [journal] + sorted[i..];
  }

  lemma InsertKeepsSorted(sorted: seq<Journal>, i: nat, journal: Journal)
    requires SortedByWorker(sorted) && i <= |sorted|
    requires forall k :: 0 <= k < i ==> sorted[k].workerIndex <= journal.workerIndex
    requires i < |sorted| ==> journal.workerIndex < sorted[i].workerIndex
    ensures SortedByWorker(sorted[..i] + [journal] + sorted[i..])
  {
    var s := sorted[..i] + [journal] + sorted[i..];
    forall a, b | 0 <= a < b < |s|
      ensures s[a].workerIndex <= s[b].workerIndex
    {
      assert s[a] == if a < i then sorted[a] else if a == i then journal else sorted[a - 1];
      assert s[b] == if b < i then sorted[b] else if b == i then journal else sorted[b - 1];
    }
  }

  lemma InsertAddsOne(sorted: seq<Journal>, i: nat, journal: Journal)
    requires i <= |sorted|
    ensures multiset(sorted[..i] + [journal] + sorted[i..]) == multiset(sorted) + multiset{journal}
  {
    assert sorted == sorted[..i] + sorted[i..];
  }

  lemma {:induction false} UpdatesArePrefix(journals: seq<Journal>, j: nat)
    requires j <= |journals|
    ensures Updates(journals[..j]) <= Updates(journals)
    decreases |journals|
  {
    if j < |journals| {
      var n := |journals| - 1;
      UpdatesArePrefix(journals[..n], j);
      assert journals[..n][..j] == journals[..j];
    } else {
      assert journals[..j] == journals;
    }
  }

  lemma NextUpdates(journals: seq<Journal>, j: nat)
    requires j < |journals|
    ensures Updates(journals[..j + 1]) == Updates(journals[..j]) + journals[j].transforms
    ensures Updates(journals[..j]) + journals[j].transforms <= Updates(journals)
  {
    var more := journals[..j + 1];
    assert more[..j] == journals[..j] && more[j] == journals[j];
    UpdatesArePrefix(journals, j + 1);
  }

  // Components of entities that were there before.
  predicate StillAt(order: seq<Entity>, before: map<Entity, Int64>, now: map<Entity, Int64>) {
    forall e :: e in order ==> e in before && e in now && now[e] == before[e]
  }

  // Components of the entities created since there were `n`.
  predicate NewAt(order: seq<Entity>, n: nat, transforms: map<Entity, Int64>, velocities: map<Entity, Int64>) {
    forall i :: n <= i < |order| ==> IsNew(order[i], i, transforms, velocities)
  }

  predicate IsNew(entity: Entity, i: nat, transforms: map<Entity, Int64>, velocities: map<Entity, Int64>) {
    entity in transforms && transforms[entity] == i && entity in velocities && velocities[entity] == DEFAULT_VELOCITY
  }

  lemma PlacedNext(order: seq<Entity>, all: seq<Entity>, before: map<Entity, Int64>, now: map<Entity, Int64>, entity: Entity, value: Int64)
    requires order <= all && entity !in all && StillAt(order, before, now) && now.Keys == Entities(all)
    ensures StillAt(order, before, now[entity := value]) && now[entity := value].Keys == Entities(all + [entity])
  {
    assert Entities(all + [entity]) == Entities(all) + {entity};
  }

  lemma NewNext(all: seq<Entity>, n: nat, transforms: map<Entity, Int64>, velocities: map<Entity, Int64>, entity: Entity)
    requires entity !in all && NewAt(all, n, transforms, velocities) && n <= |all| <= MAX_WORLD_ENTITIES
    ensures NewAt(all + [entity], n, transforms[entity := |all|], velocities[entity := DEFAULT_VELOCITY])
  {
    var transforms', velocities' := transforms[entity := |all|], velocities[entity := DEFAULT_VELOCITY];
    forall i | n <= i < |all + [entity]|
      ensures IsNew((all + [entity])[i], i, transforms', velocities')
    {
      if i < |all| {
        assert IsNew(all[i], i, transforms, velocities);
      }
    }
  }

  predicate Described(order: seq<Entity>, transforms: map<Entity, Int64>, velocities: map<Entity, Int64>) {
    transforms.Keys == velocities.Keys == Entities(order)
  }

  // The component values of the entities, in their order.
  function StatesOf(order: seq<Entity>, transforms: map<Entity, Int64>, velocities: map<Entity, Int64>): Snapshot
    requires Described(order, transforms, velocities)
  {
    seq(|order|, i requires 0 <= i < |order| => EntityState(order[i], transforms[order[i]], velocities[order[i]]))
  }

  lemma CreatedStates(order: seq<Entity>, before: (map<Entity, Int64>, map<Entity, Int64>), created: seq<Entity>,
                      transforms: map<Entity, Int64>, velocities: map<Entity, Int64>)
    requires |order + created| <= MAX_WORLD_ENTITIES
    requires Described(order, before.0, before.1) && Described(order + created, transforms, velocities)
    requires StillAt(order, before.0, transforms) && StillAt(order, before.1, velocities)
    requires NewAt(order + created, |order|, transforms, velocities)
    ensures StatesOf(order + created, transforms, velocities) == StatesOf(order, before.0, before.1) + NewStates(created, |order|)
  {
    var all, expected := StatesOf(order + created, transforms, velocities), StatesOf(order, before.0, before.1) + NewStates(created, |order|);
    forall i | 0 <= i < |order + created|
      ensures all[i] == expected[i]
    {
      if i < |order| {
        assert order[i] in order;
      } else {
        assert IsNew((order + created)[i], i, transforms, velocities);
      }
    }
  }

  // The states of entities created in a world of `n`.
  function NewStates(created: seq<Entity>, n: nat): Snapshot
    requires n + |created| <= MAX_WORLD_ENTITIES
  {
    seq(|created|, i requires 0 <= i < |created| => EntityState(created[i], n + i, DEFAULT_VELOCITY))
  }

  lemma StatesBehind(before: Snapshot, created: seq<Entity>)
    requires |before| + |created| <= MAX_WORLD_ENTITIES
    ensures var after := before + NewStates(created, |before|);
      forall i :: 0 <= i < |created| ==> after[|before| + i] == EntityState(created[i], |before| + i, 1)
  {
  }

  class World {
    var entityOrder: seq<Entity>
    var transforms: map<Entity, Int64>
    var velocities: map<Entity, Int64>
    var entityCount: nat

    ghost predicate Valid()
      reads this
    {
      && Distinct(entityOrder) && entityCount == |entityOrder| <= MAX_WORLD_ENTITIES
      && Described(entityOrder, transforms, velocities)
    }

    ghost function States(): Snapshot
      requires Valid()
      reads this
    {
      StatesOf(entityOrder, transforms, velocities)
    }

    constructor ()
      ensures Valid() && States() == []
    {
      entityOrder, transforms, velocities, entityCount := [], map[], map[], 0;
    }

    // `created` are the identifiers the registry hands out.
    method CreateEntities(count: nat, created: seq<Entity>) returns (ok: bool)
      requires Valid() && |created| == count && Distinct(entityOrder + created)
      modifies this
      ensures Valid() && (ok <==> count <= MAX_WORLD_ENTITIES - |old(entityOrder)|)
      ensures ok ==> States() == old(States()) + NewStates(created, |old(States())|)
      ensures ok ==> forall i :: 0 <= i < count ==>
        States()[|old(States())| + i] == EntityState(created[i], |old(States())| + i, 1)
      ensures !ok ==> States() == old(States())
    {
      var currentCount := entityCount;
      if count > MAX_WORLD_ENTITIES - currentCount { return false; }
      for index := 0 to count
        invariant entityCount == currentCount == |old(entityOrder)| && entityOrder == old(entityOrder) + created[..index]
        invariant transforms.Keys == velocities.Keys == Entities(entityOrder)
        invariant StillAt(old(entityOrder), old(transforms), transforms) && StillAt(old(entityOrder), old(velocities), velocities)
        invariant NewAt(entityOrder, currentCount, transforms, velocities)
      {
        var entity := created[index];
        assert (old(entityOrder) + created)[currentCount + index] == entity;
        assert entityOrder == (old(entityOrder) + created)[..currentCount + index];
        PlacedNext(old(entityOrder), entityOrder, old(transforms), transforms, entity, currentCount + index);
        PlacedNext(old(entityOrder), entityOrder, old(velocities), velocities, entity, DEFAULT_VELOCITY);
        NewNext(entityOrder, currentCount, transforms, velocities, entity);
        transforms := transforms[entity := currentCount + index];
        velocities := velocities[entity := DEFAULT_VELOCITY];
        entityOrder := entityOrder + [entity];
      }
      entityCount := entityCount + count;
      assert created[..count] == created;
      CreatedStates(old(entityOrder), (old(transforms), old(velocities)), created, transforms, velocities);
      StatesBehind(old(States()), created);
      ok := true;
    }

    method CopySnapshot() returns (snapshot: Snapshot)
      requires Valid()
      ensures snapshot == States()
    {
      snapshot := [];
      for i := 0 to |entityOrder|
        invariant snapshot == States()[..i]
      {
        var entity := entityOrder[i];
        snapshot := snapshot + [EntityState(entity, transforms[entity], velocities[entity])];
      }
    }

    /** Succeeds exactly for acceptable journals and then replaces every transform. Whether it succeeds or
        fails, it has written the longest run of updates that fit, which is none if the counts are wrong. */
    method MergeJournals(journals: seq<Journal>) returns (ok: bool, sorted: seq<Journal>)
      requires Valid()
      modifies this`transforms
      ensures Valid()
      ensures multiset(sorted) == multiset(journals) && (0 < |journals| <= MAX_WORLD_WORKERS ==> SortedByWorker(sorted))
      ensures ok <==> Accepted(sorted, entityOrder)
      ensures ok ==> States() == Merged(old(States()), Updates(sorted))
      ensures transforms == Applied(old(transforms), Fitting(sorted, entityOrder))
    {
      sorted := journals;
      if |journals| == 0 || |journals| > MAX_WORLD_WORKERS { return false, sorted; }
      sorted := SortJournals(journals);
      assert |sorted| == |multiset(sorted)| == |multiset(journals)| == |journals|;
      var totalUpdates := 0;
      for j := 0 to |sorted|
        invariant totalUpdates == |Updates(sorted[..j])| <= MAX_JOURNAL_UPDATES && transforms == old(transforms)
        invariant forall k :: 0 <= k < j ==> sorted[k].workerIndex < |sorted|
      {
        if sorted[j].workerIndex >= |sorted| {
          assert !FitsAt(sorted, j, entityOrder) && !CountsAccepted(sorted, entityOrder);
          return false, sorted;
        }
        NextUpdates(sorted, j);
        if |sorted[j].transforms| > MAX_JOURNAL_UPDATES - totalUpdates { return false, sorted; }
        totalUpdates := totalUpdates + |sorted[j].transforms|;
      }
      assert sorted[..|sorted|] == sorted;
      if totalUpdates != |entityOrder| { return false, sorted; }
      ok := MergeSorted(sorted);
      if ok {
        MergedStates(sorted, entityOrder, old(transforms), velocities);
      }
    }

    // The second pass of the merge, which writes as it validates.
    method MergeSorted(sorted: seq<Journal>) returns (ok: bool)
      requires Valid() && 0 < |sorted| <= MAX_WORLD_WORKERS && |Updates(sorted)| == |entityOrder|
      modifies this`transforms
      ensures Valid()
      ensures ok <==> Accepted(sorted, entityOrder)
      ensures ok ==> transforms == Applied(old(transforms), Updates(sorted))
      ensures transforms == Applied(old(transforms), FittingFrom(sorted, 0, entityOrder))
    {
      hide Fits, FitTo, FittingFrom, Applied;
      var updateOffset := 0;
      ghost var all := FittingFrom(sorted, 0, entityOrder);
      AppliedNothing(old(transforms));
      for j := 0 to |sorted|
        invariant Valid() && updateOffset == |Updates(sorted[..j])|
        invariant AllFit(sorted, j, entityOrder)
        invariant transforms == Applied(old(transforms), Updates(sorted[..j]))
        invariant all == Updates(sorted[..j]) + FittingFrom(sorted, j, entityOrder)
      {
        if sorted[j].workerIndex != j {
          assert !FitsAt(sorted, j, entityOrder);
          FittingEnds(sorted, j, entityOrder);
          return false;
        }
        NextUpdates(sorted, j);
        FittingHere(sorted, j, entityOrder);
        AppliedTwice(old(transforms), Updates(sorted[..j]), sorted[j].transforms);
        var fits, written := MergeJournal(sorted[j], updateOffset);
        if !fits {
          assert !FitsAt(sorted, j, entityOrder);
          AppliedTwice(old(transforms), Updates(sorted[..j]), sorted[j].transforms[..written]);
          return false;
        }
        assert sorted[j].transforms[..written] == sorted[j].transforms;
        updateOffset := updateOffset + |sorted[j].transforms|;
      }
      FittingEnds(sorted, |sorted|, entityOrder);
      assert sorted[..|sorted|] == sorted;
      ok := true;
    }

    method MergeJournal(journal: Journal, start: nat) returns (fits: bool, written: nat)
      requires Valid() && start + |journal.transforms| <= |entityOrder|
      modifies this`transforms
      ensures Valid()
      ensures fits <==> Fits(journal, start, entityOrder)
      ensures written == FitTo(journal.transforms, 0, start, entityOrder) && (fits <==> written == |journal.transforms|)
      ensures transforms == Applied(old(transforms), journal.transforms[..written])
    {
      hide FitTo, Applied, Numbered, AddressesFrom;
      ghost var updates := journal.transforms;
      NoneWritten(old(transforms), updates, start, entityOrder);
      for u := 0 to |journal.transforms|
        invariant Valid()
        invariant Numbered(updates[..u]) && AddressesFrom(updates[..u], start, entityOrder)
        invariant FitTo(updates, 0, start, entityOrder) == FitTo(updates, u, start, entityOrder)
        invariant transforms == Applied(old(transforms), updates[..u])
      {
        var update := journal.transforms[u];
        NextFits(updates, u, start, entityOrder);
        NextFitTo(updates, u, start, entityOrder);
        AppliedNext(old(transforms), updates, u);
        if update.sequence != u || update.entity !in transforms || start + u >= |entityOrder| ||
          update.entity != entityOrder[start + u] {
          return false, u;
        }
        transforms := transforms[update.entity := update.value];
      }
      NextFitTo(updates, |updates|, start, entityOrder);
      assert updates[..|updates|] == updates;
      return true, |journal.transforms|;
    }
  }

  lemma NextFits(updates: seq<Update>, u: nat, start: nat, order: seq<Entity>)
    requires u < |updates| && start + |updates| <= |order|
    requires Numbered(updates[..u]) && AddressesFrom(updates[..u], start, order)
    ensures updates[u].sequence == u <==> Numbered(updates[..u + 1])
    ensures updates[u].entity == order[start + u] <==> AddressesFrom(updates[..u + 1], start, order)
    ensures updates[u].sequence != u ==> !Numbered(updates)
    ensures updates[u].entity != order[start + u] ==> !AddressesFrom(updates, start, order)
  {
    assert updates[..u + 1] == updates[..u] + [updates[u]];
  }

  lemma NextFitTo(updates: seq<Update>, u: nat, start: nat, order: seq<Entity>)
    requires u <= |updates|
    ensures FitTo(updates, u, start, order) ==
      if u < |updates| && start + u < |order| && updates[u].sequence == u && updates[u].entity == order[start + u]
      then FitTo(updates, u + 1, start, order)
      else u
  {
  }

  lemma NoneWritten(transforms: map<Entity, Int64>, updates: seq<Update>, start: nat, order: seq<Entity>)
    requires start <= |order|
    ensures Numbered(updates[..0]) && AddressesFrom(updates[..0], start, order) && Applied(transforms, updates[..0]) == transforms
  {
  }

  lemma AppliedNext(transforms: map<Entity, Int64>, updates: seq<Update>, u: nat)
    requires u < |updates|
    ensures Applied(transforms, updates[..u + 1]) == Applied(transforms, updates[..u])[updates[u].entity := updates[u].value]
  {
    assert updates[..u + 1][..u] == updates[..u];
  }

  // The updates written so far and those still to fit.
  lemma FittingHere(sorted: seq<Journal>, j: nat, order: seq<Entity>)
    requires j < |sorted| && sorted[j].workerIndex == j
    ensures var done, updates := Updates(sorted[..j]), sorted[j].transforms;
      var end := FitTo(updates, 0, |done|, order);
      done + FittingFrom(sorted, j, order) ==
        if end < |updates| then done + updates[..end] else Updates(sorted[..j + 1]) + FittingFrom(sorted, j + 1, order)
  {
    hide FitTo, Updates;
    NextUpdates(sorted, j);
  }

  lemma AppliedNothing(transforms: map<Entity, Int64>)
    ensures Applied(transforms, []) == transforms
  {
  }

  lemma FittingEnds(sorted: seq<Journal>, j: nat, order: seq<Entity>)
    requires j == |sorted| || (j < |sorted| && sorted[j].workerIndex != j)
    ensures Updates(sorted[..j]) + FittingFrom(sorted, j, order) == Updates(sorted[..j])
  {
  }

  lemma {:induction false} AppliedTwice(transforms: map<Entity, Int64>, first: seq<Update>, second: seq<Update>)
    ensures Applied(Applied(transforms, first), second) == Applied(transforms, first + second)
    decreases |second|
  {
    if second == [] {
      assert first + second == first;
    } else {
      var n := |second| - 1;
      AppliedTwice(transforms, first, second[..n]);
      assert (first + second)[..|first + second| - 1] == first + second[..n];
    }
  }

  lemma AddressesOn(first: seq<Update>, second: seq<Update>, order: seq<Entity>)
    requires |first + second| <= |order| && AddressesFrom(first, 0, order) && AddressesFrom(second, |first|, order)
    ensures AddressesFrom(first + second, 0, order)
  {
  }

  // Acceptable journals update every entity of the world, in its order.
  lemma AcceptedCovers(sorted: seq<Journal>, order: seq<Entity>)
    requires Accepted(sorted, order)
    ensures |Updates(sorted)| == |order| && AddressesFrom(Updates(sorted), 0, order)
  {
    PlacedUpTo(sorted, order, |sorted|);
    assert sorted[..|sorted|] == sorted;
  }

  // In updates of distinct entities, each entity ends with its own update.
  lemma {:induction false} AppliedAt(transforms: map<Entity, Int64>, updates: seq<Update>, order: seq<Entity>, p: nat)
    requires |updates| <= |order| && Distinct(order) && p < |updates| && AddressesFrom(updates, 0, order)
    ensures order[p] in Applied(transforms, updates) && Applied(transforms, updates)[order[p]] == updates[p].value
    decreases |updates|
  {
    var n := |updates| - 1;
    if p < n {
      AppliedAt(transforms, updates[..n], order, p);
    }
  }

  lemma {:induction false} AppliedKeys(transforms: map<Entity, Int64>, updates: seq<Update>)
    requires forall u :: 0 <= u < |updates| ==> updates[u].entity in transforms
    ensures Applied(transforms, updates).Keys == transforms.Keys
    decreases |updates|
  {
    if updates != [] {
      AppliedKeys(transforms, updates[..|updates| - 1]);
    }
  }

  // Acceptable journals replace every transform by the update at the same position.
  lemma MergedStates(sorted: seq<Journal>, order: seq<Entity>, transforms: map<Entity, Int64>, velocities: map<Entity, Int64>)
    requires Accepted(sorted, order) && Distinct(order) && Described(order, transforms, velocities)
    ensures Described(order, Applied(transforms, Updates(sorted)), velocities)
    ensures StatesOf(order, Applied(transforms, Updates(sorted)), velocities) ==
      Merged(StatesOf(order, transforms, velocities), Updates(sorted))
  {
    hide Updates, Accepted;
    AcceptedCovers(sorted, order);
    OverwrittenStates(Updates(sorted), order, transforms, velocities);
  }

  // ------------------------------------------------------------------
  // What a merge leaves behind
  // ------------------------------------------------------------------

  predicate FitsUpTo(journal: Journal, u: nat, start: nat, order: seq<Entity>) {
    && u <= |journal.transforms| && Numbered(journal.transforms[..u]) && start + u <= |order|
    && AddressesFrom(journal.transforms[..u], start, order)
  }

  // The second pass stops in journal `j` at update `u`: all before fit, and the next does not.
  predicate StopsAt(sorted: seq<Journal>, order: seq<Entity>, j: nat, u: nat) {
    && j <= |sorted| && AllFit(sorted, j, order)
    && if j == |sorted| || sorted[j].workerIndex != j then u == 0
       else
         var start := |Updates(sorted[..j])|;
         u < |sorted[j].transforms| && FitsUpTo(sorted[j], u, start, order) && !FitsUpTo(sorted[j], u + 1, start, order)
  }

  function WrittenTo(sorted: seq<Journal>, j: nat, u: nat): seq<Update>
    requires j <= |sorted| && (if j < |sorted| then u <= |sorted[j].transforms| else u == 0)
  {
    if j == |sorted| then Updates(sorted) else Updates(sorted[..j]) + sorted[j].transforms[..u]
  }

  lemma {:induction false} FitToIsLongest(journal: Journal, u: nat, start: nat, order: seq<Entity>)
    requires FitsUpTo(journal, u, start, order)
    ensures var end := FitTo(journal.transforms, u, start, order);
      FitsUpTo(journal, end, start, order) && (end < |journal.transforms| ==> !FitsUpTo(journal, end + 1, start, order))
    decreases |journal.transforms| - u
  {
    var updates := journal.transforms;
    if u < |updates| {
      assert updates[..u + 1] == updates[..u] + [updates[u]];
      if FitsUpTo(journal, u + 1, start, order) {
        FitToIsLongest(journal, u + 1, start, order);
      }
    }
  }

  lemma {:induction false} FittingStops(sorted: seq<Journal>, j: nat, order: seq<Entity>) returns (k: nat, u: nat)
    requires j <= |sorted| && AllFit(sorted, j, order) && |Updates(sorted)| == |order|
    ensures StopsAt(sorted, order, k, u) && (if k < |sorted| then u <= |sorted[k].transforms| else u == 0)
    ensures Updates(sorted[..j]) + FittingFrom(sorted, j, order) == WrittenTo(sorted, k, u)
    decreases |sorted| - j
  {
    hide FitTo, FitsUpTo, FittingFrom, Updates, Fits;
    if j == |sorted| || sorted[j].workerIndex != j {
      k, u := j, 0;
      FittingEnds(sorted, j, order);
      assert sorted[..|sorted|] == sorted;
    } else {
      NextUpdates(sorted, j);
      FittingHere(sorted, j, order);
      var start := |Updates(sorted[..j])|;
      NothingFitsYet(sorted[j], start, order);
      FitToIsLongest(sorted[j], 0, start, order);
      var end := FitTo(sorted[j].transforms, 0, start, order);
      if end < |sorted[j].transforms| {
        k, u := j, end;
      } else {
        WholeFits(sorted[j], start, order);
        k, u := FittingStops(sorted, j + 1, order);
      }
    }
  }

  lemma NothingFitsYet(journal: Journal, start: nat, order: seq<Entity>)
    requires start <= |order|
    ensures FitsUpTo(journal, 0, start, order)
  {
  }

  lemma WholeFits(journal: Journal, start: nat, order: seq<Entity>)
    ensures FitsUpTo(journal, |journal.transforms|, start, order) <==> Fits(journal, start, order)
  {
    assert journal.transforms[..|journal.transforms|] == journal.transforms;
  }

  lemma LessFits(journal: Journal, u: nat, v: nat, start: nat, order: seq<Entity>)
    requires u <= v && FitsUpTo(journal, v, start, order)
    ensures FitsUpTo(journal, u, start, order)
  {
    assert forall k :: 0 <= k < u ==> journal.transforms[..u][k] == journal.transforms[..v][k];
  }

  /** There is one place where the second pass stops, and what is written is everything before it. */
  lemma FittingIsLongest(sorted: seq<Journal>, order: seq<Entity>, j: nat, u: nat)
    requires CountsAccepted(sorted, order) && StopsAt(sorted, order, j, u)
    ensures if j < |sorted| then u <= |sorted[j].transforms| else u == 0
    ensures Fitting(sorted, order) == WrittenTo(sorted, j, u) && Fitting(sorted, order) <= Updates(sorted)
    ensures j == |sorted| <==> Accepted(sorted, order)
  {
    hide FittingFrom, FitsUpTo, Updates, Fits;
    var k, v := FittingStops(sorted, 0, order);
    StopIsUnique(sorted, order, j, u, k, v);
    assert sorted[..0] == [] && Updates([]) == [] by { NoUpdates(sorted); }
    assert [] + FittingFrom(sorted, 0, order) == FittingFrom(sorted, 0, order);
    if j < |sorted| {
      NextUpdates(sorted, j);
      WrittenIsPrefix(sorted, j, u);
      StopMisfits(sorted, order, j, u);
    }
  }

  lemma NoUpdates(sorted: seq<Journal>)
    ensures sorted[..0] == [] && Updates([]) == []
  {
  }

  lemma WrittenIsPrefix(sorted: seq<Journal>, j: nat, u: nat)
    requires j < |sorted| && u <= |sorted[j].transforms|
    ensures WrittenTo(sorted, j, u) <= Updates(sorted)
  {
    hide Updates;
    NextUpdates(sorted, j);
    assert WrittenTo(sorted, j, u) <= Updates(sorted[..j]) + sorted[j].transforms;
  }

  lemma StopMisfits(sorted: seq<Journal>, order: seq<Entity>, j: nat, u: nat)
    requires j < |sorted| && StopsAt(sorted, order, j, u)
    ensures !FitsAt(sorted, j, order)
  {
    hide FitsUpTo, Updates;
    if FitsAt(sorted, j, order) {
      WholeFits(sorted[j], |Updates(sorted[..j])|, order);
      LessFits(sorted[j], u + 1, |sorted[j].transforms|, |Updates(sorted[..j])|, order);
    }
  }

  lemma StopIsUnique(sorted: seq<Journal>, order: seq<Entity>, j: nat, u: nat, k: nat, v: nat)
    requires StopsAt(sorted, order, j, u) && StopsAt(sorted, order, k, v)
    ensures j == k && u == v
  {
    hide FitsUpTo, Updates, FitsAt;
    if k < |sorted| { StopMisfits(sorted, order, k, v); }
    if j < |sorted| { StopMisfits(sorted, order, j, u); }
    if j == k < |sorted| && sorted[j].workerIndex == j {
      var start := |Updates(sorted[..j])|;
      if u < v { LessFits(sorted[j], u + 1, v, start, order); }
      if v < u { LessFits(sorted[j], v + 1, u, start, order); }
    }
  }

  // What is written goes to the first entities, in their order.
  lemma FittingAddresses(sorted: seq<Journal>, order: seq<Entity>)
    requires CountsAccepted(sorted, order)
    ensures |Fitting(sorted, order)| <= |order| && AddressesFrom(Fitting(sorted, order), 0, order)
  {
    hide FittingFrom, FitsUpTo, Updates, Fits, FitsAt;
    NoUpdates(sorted);
    var j, u := FittingStops(sorted, 0, order);
    FittingIsLongest(sorted, order, j, u);
    StopAddresses(sorted, order, j, u);
  }

  lemma {:induction false} PlacedUpTo(sorted: seq<Journal>, order: seq<Entity>, j: nat)
    requires j <= |sorted| && AllFit(sorted, j, order)
    ensures |Updates(sorted[..j])| <= |order| && AddressesFrom(Updates(sorted[..j]), 0, order)
    decreases j
  {
    if j > 0 {
      PlacedUpTo(sorted, order, j - 1);
      NextUpdates(sorted, j - 1);
      assert FitsAt(sorted, j - 1, order);
      AddressesOn(Updates(sorted[..j - 1]), sorted[j - 1].transforms, order);
    }
  }

  lemma StopAddresses(sorted: seq<Journal>, order: seq<Entity>, j: nat, u: nat)
    requires StopsAt(sorted, order, j, u) && (if j < |sorted| then u <= |sorted[j].transforms| else u == 0)
    ensures |WrittenTo(sorted, j, u)| <= |order| && AddressesFrom(WrittenTo(sorted, j, u), 0, order)
  {
    hide Updates, FitsAt;
    PlacedUpTo(sorted, order, j);
    assert sorted[..|sorted|] == sorted;
    if j < |sorted| {
      AddressesOn(Updates(sorted[..j]), sorted[j].transforms[..u], order);
    }
  }

  // The snapshot with the first transforms replaced.
  function Overwritten(snapshot: Snapshot, updates: seq<Update>): Snapshot
    requires |updates| <= |snapshot|
  {
    seq(|snapshot|, i requires 0 <= i < |snapshot| =>
      if i < |updates| then snapshot[i].(transform := updates[i].value) else snapshot[i])
  }

  lemma {:induction false} AppliedElsewhere(transforms: map<Entity, Int64>, updates: seq<Update>, e: Entity)
    requires forall u :: 0 <= u < |updates| ==> updates[u].entity != e
    ensures e in transforms ==> e in Applied(transforms, updates) && Applied(transforms, updates)[e] == transforms[e]
    decreases |updates|
  {
    if updates != [] {
      AppliedElsewhere(transforms, updates[..|updates| - 1], e);
    }
  }

  /** What a merge leaves, whether it succeeded or not: the entities whose updates fit have their new
      transforms, the others are as they were, and nothing is changed exactly when every update that fits
      repeats the value that was there, as when the counts are wrong and none does. */
  lemma MergeLeaves(sorted: seq<Journal>, order: seq<Entity>, transforms: map<Entity, Int64>, velocities: map<Entity, Int64>)
    requires Distinct(order) && Described(order, transforms, velocities)
    ensures var written := Fitting(sorted, order);
      && |written| <= |order| && Described(order, Applied(transforms, written), velocities)
      && StatesOf(order, Applied(transforms, written), velocities) == Overwritten(StatesOf(order, transforms, velocities), written)
      && (Applied(transforms, written) == transforms <==>
            forall u :: 0 <= u < |written| ==> order[u] in transforms && transforms[order[u]] == written[u].value)
  {
    hide FittingFrom, Updates, CountsAccepted, Fitting;
    var written := Fitting(sorted, order);
    assert |written| <= |order| && AddressesFrom(written, 0, order) by {
      if CountsAccepted(sorted, order) { FittingAddresses(sorted, order); } else { NothingFits(sorted, order); }
    }
    OverwrittenStates(written, order, transforms, velocities);
    var now := Applied(transforms, written);
    forall u | 0 <= u < |written|
      ensures order[u] in now && now[order[u]] == written[u].value
    {
      AppliedAt(transforms, written, order, u);
    }
    if forall u :: 0 <= u < |written| ==> order[u] in transforms && transforms[order[u]] == written[u].value {
      forall e | e in transforms
        ensures now[e] == transforms[e]
      {
        var i :| 0 <= i < |order| && order[i] == e;
        if i >= |written| { AppliedElsewhere(transforms, written, e); }
      }
    }
  }

  lemma NothingFits(sorted: seq<Journal>, order: seq<Entity>)
    requires !CountsAccepted(sorted, order)
    ensures Fitting(sorted, order) == []
  {
  }

  lemma OverwrittenStates(updates: seq<Update>, order: seq<Entity>, transforms: map<Entity, Int64>, velocities: map<Entity, Int64>)
    requires Distinct(order) && Described(order, transforms, velocities)
    requires |updates| <= |order| && AddressesFrom(updates, 0, order)
    ensures Described(order, Applied(transforms, updates), velocities)
    ensures StatesOf(order, Applied(transforms, updates), velocities) == Overwritten(StatesOf(order, transforms, velocities), updates)
  {
    hide Applied;
    forall u | 0 <= u < |updates|
      ensures updates[u].entity in transforms
    {
      assert updates[u].entity == order[u];
    }
    AppliedKeys(transforms, updates);
    forall i | 0 <= i < |order|
      ensures Applied(transforms, updates)[order[i]] == if i < |updates| then updates[i].value else transforms[order[i]]
    {
      if i < |updates| {
        AppliedAt(transforms, updates, order, i);
      } else {
        AppliedElsewhere(transforms, updates, order[i]);
      }
    }
  }

  const TORN_JOURNALS := [Journal(0, [Update(1, 5, 0)]), Journal(1, [Update(9, 6, 0)])]

  /** A merge that fails and has written: the second journal updates an entity out of place, and the first
      entity has its new transform already. */
  lemma FailedMergeWrites()
    ensures CountsAccepted(TORN_JOURNALS, [1, 2]) && !Accepted(TORN_JOURNALS, [1, 2])
    ensures Fitting(TORN_JOURNALS, [1, 2]) == [Update(1, 5, 0)]
    ensures Applied(map[1 := 0, 2 := 0], Fitting(TORN_JOURNALS, [1, 2])) == map[1 := 5, 2 := 0]
  {
    hide Updates, FittingFrom, CountsAccepted, Accepted, FitTo;
    var sorted, order: seq<Entity> := TORN_JOURNALS, [1, 2];
    TornUpdates(sorted, order);
    TornEnds(sorted, order);
    FittingHere(sorted, 0, order);
    FittingHere(sorted, 1, order);
    assert [] + FittingFrom(sorted, 0, order) == FittingFrom(sorted, 0, order);
    AppliedOne(map[1 := 0, 2 := 0], Update(1, 5, 0));
  }

  lemma TornUpdates(sorted: seq<Journal>, order: seq<Entity>)
    requires sorted == TORN_JOURNALS && order == [1, 2]
    ensures Updates(sorted[..0]) == [] && Updates(sorted[..1]) == [Update(1, 5, 0)]
    ensures CountsAccepted(sorted, order) && !Accepted(sorted, order)
  {
    hide Updates, FittingFrom, Fits;
    NoUpdates(sorted);
    NextUpdates(sorted, 0);
    NextUpdates(sorted, 1);
    assert sorted[..2] == sorted;
    SecondMisfits(sorted[1], order);
    assert !FitsAt(sorted, 1, order);
  }

  lemma SecondMisfits(journal: Journal, order: seq<Entity>)
    requires journal == TORN_JOURNALS[1] && order == [1, 2]
    ensures !Fits(journal, 1, order)
  {
    assert journal.transforms[0].entity != order[1 + 0];
  }

  lemma TornEnds(sorted: seq<Journal>, order: seq<Entity>)
    requires sorted == TORN_JOURNALS && order == [1, 2]
    ensures FitTo(sorted[0].transforms, 0, 0, order) == 1 && FitTo(sorted[1].transforms, 0, 1, order) == 0
  {
  }

  lemma AppliedOne(transforms: map<Entity, Int64>, update: Update)
    ensures Applied(transforms, [update]) == transforms[update.entity := update.value]
  {
    assert [update][..0] == [];
  }

  // ------------------------------------------------------------------
  // Partitions
  // ------------------------------------------------------------------

  lemma ProductGrows(a: nat, b: nat, c: nat)
    requires a <= b
    ensures a * c <= b * c
  {
    assert (b - a) * c >= 0;
    assert b * c == a * c + (b - a) * c;
  }

  lemma PartitionInBounds(size: nat, index: nat, count: nat)
    requires index < count
    ensures PartitionStart(size, index, count) <= PartitionEnd(size, index, count) <= size
  {
    var base := size / count;
    assert size == count * base + size % count;
    ProductGrows(index + 1, count, base);
    assert (index + 1) * base == index * base + base;
  }

  /** The partitions tile the snapshot, end to end; their sizes differ by at most one, the larger ones coming first. */
  lemma PartitionsTile(size: nat, index: nat, count: nat)
    requires index < count
    ensures PartitionStart(size, 0, count) == 0 && PartitionStart(size, count, count) == size
    ensures PartitionEnd(size, index, count) == PartitionStart(size, index + 1, count)
    ensures PartitionEnd(size, index, count) - PartitionStart(size, index, count) ==
      size / count + if index < size % count then 1 else 0
  {
    var base := size / count;
    assert size == count * base + size % count;
    assert (index + 1) * base == index * base + base;
    assert 0 * base == 0;
  }
}
