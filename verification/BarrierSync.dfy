/** Synchronisation: what the emitted barriers order, and that nothing is read before it is written. */
module BarrierSync {
  import opened GraphModel
  import opened PassOrder
  import opened Culling
  import opened Barriers
  import opened BarrierReplay

  // ------------------------------------------------------------------
  // Synchronisation between uses
  // ------------------------------------------------------------------

  ghost predicate ImageLink(barriers: seq<ImageBarrier>, r: nat, u: Use<ImageAccess>, v: Use<ImageAccess>) {
    || (u.isRead && v.isRead && ImageScope(u.access) == ImageScope(v.access))
    || exists b :: b in barriers && b.resource == r && b.beforePass == v.pass &&
         b.src == ImageScope(u.access) && b.dst == ImageScope(v.access)
  }

  ghost predicate BufferLink(barriers: seq<BufferBarrier>, r: nat, u: Use<BufferAccess>, v: Use<BufferAccess>) {
    || (u.isRead && v.isRead && BufferScope(u.access) == BufferScope(v.access))
    || exists b :: b in barriers && b.resource == r && b.beforePass == v.pass &&
         b.src == BufferScope(u.access) && b.dst == BufferScope(v.access)
  }

  lemma {:induction false} ImageStepIn(r: nat, initial: Layout, live: seq<Use<ImageAccess>>, k: nat)
    requires k < |live|
    ensures forall b :: b in ImageStep(r, initial, live[..k], live[k]) ==> b in ImageSteps(r, initial, live)
  {
    var before := live[..|live| - 1];
    if k < |live| - 1 {
      ImageStepIn(r, initial, before, k);
      assert before[..k] == live[..k];
    }
  }

  lemma {:induction false} BufferStepIn(r: nat, live: seq<Use<BufferAccess>>, k: nat)
    requires k < |live|
    ensures forall b :: b in BufferStep(r, live[..k], live[k]) ==> b in BufferSteps(r, live)
  {
    var before := live[..|live| - 1];
    if k < |live| - 1 {
      BufferStepIn(r, before, k);
      assert before[..k] == live[..k];
    }
  }

  lemma {:induction false} ImageBarriersIn(resources: seq<Resource>, surviving: seq<bool>, r: nat)
    requires ResourcesInRange(resources, |surviving|) && r < |resources|
    ensures forall b :: b in ImageBarriersOf(r, resources[r], surviving) ==> b in AllImageBarriers(resources, surviving)
  {
    if r < |resources| - 1 {
      ImageBarriersIn(resources[..|resources| - 1], surviving, r);
    }
  }

  lemma {:induction false} BufferBarriersIn(resources: seq<Resource>, surviving: seq<bool>, r: nat)
    requires ResourcesInRange(resources, |surviving|) && r < |resources|
    ensures forall b :: b in BufferBarriersOf(r, resources[r], surviving) ==> b in AllBufferBarriers(resources, surviving)
  {
    if r < |resources| - 1 {
      BufferBarriersIn(resources[..|resources| - 1], surviving, r);
    }
  }

  lemma ImageNeighboursLinked(g: Graph, surviving: seq<bool>, r: nat, k: nat)
    requires ResourcesInRange(g.resources, |surviving|) && r < |g.resources| && g.resources[r].Image?
    requires k + 1 < |Live(g.resources[r].imageUses, surviving)|
    ensures var live := Live(g.resources[r].imageUses, surviving);
      ImageLink(AllImageBarriers(g.resources, surviving), r, live[k], live[k + 1])
  {
    var live, initial := Live(g.resources[r].imageUses, surviving), g.resources[r].initialLayout;
    ImageStepIn(r, initial, live, k + 1);
    ImageBarriersIn(g.resources, surviving, r);
    ImageStepLinks(r, initial, live[..k + 1], live[k + 1], AllImageBarriers(g.resources, surviving));
  }

  // Equal layouts come from equal accesses, so a skipped barrier joins reads with one scope.
  lemma ImageStepLinks(r: nat, initial: Layout, before: seq<Use<ImageAccess>>, use: Use<ImageAccess>, barriers: seq<ImageBarrier>)
    requires before != [] && forall b :: b in ImageStep(r, initial, before, use) ==> b in barriers
    ensures ImageLink(barriers, r, before[|before| - 1], use)
  {
    var step := ImageStep(r, initial, before, use);
    if step != [] {
      assert step[0] in barriers;
    }
  }

  lemma BufferNeighboursLinked(g: Graph, surviving: seq<bool>, r: nat, k: nat)
    requires ResourcesInRange(g.resources, |surviving|) && r < |g.resources| && g.resources[r].Buffer?
    requires k + 1 < |Live(g.resources[r].bufferUses, surviving)|
    ensures var live := Live(g.resources[r].bufferUses, surviving);
      BufferLink(AllBufferBarriers(g.resources, surviving), r, live[k], live[k + 1])
  {
    var live := Live(g.resources[r].bufferUses, surviving);
    BufferStepIn(r, live, k + 1);
    BufferBarriersIn(g.resources, surviving, r);
    BufferStepLinks(r, live[..k + 1], live[k + 1], AllBufferBarriers(g.resources, surviving));
  }

  lemma BufferStepLinks(r: nat, before: seq<Use<BufferAccess>>, use: Use<BufferAccess>, barriers: seq<BufferBarrier>)
    requires before != [] && forall b :: b in BufferStep(r, before, use) ==> b in barriers
    ensures BufferLink(barriers, r, before[|before| - 1], use)
  {
    var step := BufferStep(r, before, use);
    if step != [] {
      assert step[0] in barriers;
    }
  }

  // Indices of surviving uses from `first` to `last`, each linked to the next.
  ghost predicate Chained<A>(uses: seq<Use<A>>, surviving: seq<bool>, link: (Use<A>, Use<A>) -> bool,
                             first: nat, last: nat, chain: seq<nat>)
    requires UsesInRange(uses, |surviving|)
  {
    && |chain| > 0 && chain[0] == first && chain[|chain| - 1] == last
    && (forall k :: 0 <= k < |chain| ==> chain[k] < |uses| && surviving[uses[chain[k]].pass])
    && (forall k :: 0 <= k < |chain| - 1 ==> chain[k] < chain[k + 1] && link(uses[chain[k]], uses[chain[k + 1]]))
  }

  ghost predicate LinkedInOrder<A>(live: seq<Use<A>>, link: (Use<A>, Use<A>) -> bool) {
    forall k :: 0 <= k < |live| - 1 ==> link(live[k], live[k + 1])
  }

  lemma {:induction false} ChainBetween<A>(uses: seq<Use<A>>, surviving: seq<bool>, link: (Use<A>, Use<A>) -> bool,
                                           a: nat, b: nat) returns (chain: seq<nat>)
    requires UsesInRange(uses, |surviving|) && LinkedInOrder(Live(uses, surviving), link)
    requires a <= b < |LiveIndices(uses, surviving)|
    ensures Chained(uses, surviving, link, LiveIndices(uses, surviving)[a], LiveIndices(uses, surviving)[b], chain)
    decreases b - a
  {
    var at := LiveIndices(uses, surviving);
    if a == b {
      chain := [at[a]];
    } else {
      var rest := ChainBetween(uses, surviving, link, a + 1, b);
      NeighbourLinked(uses, surviving, link, a);
      chain := ChainPrepend(uses, surviving, link, at[a], at[a + 1], at[b], rest);
    }
  }

  lemma NeighbourLinked<A>(uses: seq<Use<A>>, surviving: seq<bool>, link: (Use<A>, Use<A>) -> bool, a: nat)
    requires UsesInRange(uses, |surviving|) && LinkedInOrder(Live(uses, surviving), link)
    requires a + 1 < |LiveIndices(uses, surviving)|
    ensures link(uses[LiveIndices(uses, surviving)[a]], uses[LiveIndices(uses, surviving)[a + 1]])
  {
    LiveAtIndices(uses, surviving);
    assert link(Live(uses, surviving)[a], Live(uses, surviving)[a + 1]);
  }

  lemma ChainPrepend<A>(uses: seq<Use<A>>, surviving: seq<bool>, link: (Use<A>, Use<A>) -> bool,
                        i: nat, j: nat, last: nat, rest: seq<nat>) returns (chain: seq<nat>)
    requires UsesInRange(uses, |surviving|) && Chained(uses, surviving, link, j, last, rest)
    requires i < j && i < |uses| && surviving[uses[i].pass] && link(uses[i], uses[j])
    ensures Chained(uses, surviving, link, i, last, chain)
  {
    chain := [i] + rest;
  }

  // A write that a surviving pass reads later is not culled.
  lemma WriteBeforeReadSurvives(g: Graph, order: seq<nat>, surviving: seq<bool>, r: nat, i: nat, j: nat)
    requires WellFormed(g) && Swept(g, order, surviving) && UseOrdered(g, order)
    requires r < |g.resources| && i < j < |Touches(g.resources[r])|
    requires !Touches(g.resources[r])[i].isRead && Touches(g.resources[r])[j].isRead
    requires surviving[Touches(g.resources[r])[j].pass]
    ensures surviving[Touches(g.resources[r])[i].pass]
    ensures RunsBefore(order, Touches(g.resources[r])[i].pass, Touches(g.resources[r])[j].pass)
  {
    var t := Touches(g.resources[r]);
    var p, q := t[i].pass, t[j].pass;
    PermutationCovers(order, |g.passes|, p);
    PermutationCovers(order, |g.passes|, q);
    var a :| 0 <= a < |order| && order[a] == p;
    var b :| 0 <= b < |order| && order[b] == q;
    assert RunsBefore(order, p, q);
    assert Writes(g.resources[r], p) && Reads(g.resources[r], q);
    assert Feeds(g, order[a], order[b]);
    assert JudgedAlive(g, order, surviving, a);
  }

  /** A write and any later surviving use of an image are linked through the barriers emitted, step by
      step with the exact scopes of the uses; a write is missing only if culled ahead of another write. */
  lemma ImageWriteReachesUse(g: Graph, order: seq<nat>, surviving: seq<bool>, r: nat, i: nat, j: nat) returns (chain: seq<nat>)
    requires WellFormed(g) && Swept(g, order, surviving) && UseOrdered(g, order)
    requires r < |g.resources| && g.resources[r].Image? && i < j < |g.resources[r].imageUses|
    requires ResourcesInRange(g.resources, |g.passes|)
    requires !g.resources[r].imageUses[i].isRead && surviving[g.resources[r].imageUses[j].pass]
    ensures g.resources[r].imageUses[j].isRead ==> surviving[g.resources[r].imageUses[i].pass]
    ensures surviving[g.resources[r].imageUses[i].pass] ==>
      Chained(g.resources[r].imageUses, surviving,
              (u, v) => ImageLink(AllImageBarriers(g.resources, surviving), r, u, v), i, j, chain)
  {
    var uses := g.resources[r].imageUses;
    assert forall k :: 0 <= k < |uses| ==> Touches(g.resources[r])[k] == Touch(uses[k].pass, uses[k].isRead);
    if uses[j].isRead {
      WriteBeforeReadSurvives(g, order, surviving, r, i, j);
    }
    hide Live, AllImageBarriers, ImageLink, Chained, Swept, UseOrdered, WellFormed, Touches;
    chain := [];
    if surviving[uses[i].pass] {
      forall k | 0 <= k < |Live(uses, surviving)| - 1
        ensures ImageLink(AllImageBarriers(g.resources, surviving), r, Live(uses, surviving)[k], Live(uses, surviving)[k + 1])
      {
        ImageNeighboursLinked(g, surviving, r, k);
      }
      var at := LiveIndices(uses, surviving);
      assert i in at && j in at;
      var a: nat :| a < |at| && at[a] == i;
      var b: nat :| b < |at| && at[b] == j;
      assert a < b;
      chain := ChainBetween(uses, surviving, (u, v) => ImageLink(AllImageBarriers(g.resources, surviving), r, u, v), a, b);
    }
  }

  /** The same for buffers. */
  lemma BufferWriteReachesUse(g: Graph, order: seq<nat>, surviving: seq<bool>, r: nat, i: nat, j: nat) returns (chain: seq<nat>)
    requires WellFormed(g) && Swept(g, order, surviving) && UseOrdered(g, order)
    requires r < |g.resources| && g.resources[r].Buffer? && i < j < |g.resources[r].bufferUses|
    requires ResourcesInRange(g.resources, |g.passes|)
    requires !g.resources[r].bufferUses[i].isRead && surviving[g.resources[r].bufferUses[j].pass]
    ensures g.resources[r].bufferUses[j].isRead ==> surviving[g.resources[r].bufferUses[i].pass]
    ensures surviving[g.resources[r].bufferUses[i].pass] ==>
      Chained(g.resources[r].bufferUses, surviving,
              (u, v) => BufferLink(AllBufferBarriers(g.resources, surviving), r, u, v), i, j, chain)
  {
    var uses := g.resources[r].bufferUses;
    assert forall k :: 0 <= k < |uses| ==> Touches(g.resources[r])[k] == Touch(uses[k].pass, uses[k].isRead);
    if uses[j].isRead {
      WriteBeforeReadSurvives(g, order, surviving, r, i, j);
    }
    hide Live, AllBufferBarriers, BufferLink, Chained, Swept, UseOrdered, WellFormed, Touches;
    chain := [];
    if surviving[uses[i].pass] {
      forall k | 0 <= k < |Live(uses, surviving)| - 1
        ensures BufferLink(AllBufferBarriers(g.resources, surviving), r, Live(uses, surviving)[k], Live(uses, surviving)[k + 1])
      {
        BufferNeighboursLinked(g, surviving, r, k);
      }
      var at := LiveIndices(uses, surviving);
      assert i in at && j in at;
      var a: nat :| a < |at| && at[a] == i;
      var b: nat :| b < |at| && at[b] == j;
      assert a < b;
      chain := ChainBetween(uses, surviving, (u, v) => BufferLink(AllBufferBarriers(g.resources, surviving), r, u, v), a, b);
    }
  }

  // ------------------------------------------------------------------
  // When the chain is in force
  // ------------------------------------------------------------------

  // Each of the surviving uses `a` to `b` is linked to the next and has run when the next one's barrier is recorded.
  ghost predicate InForce<A>(live: seq<Use<A>>, link: (Use<A>, Use<A>) -> bool, order: seq<nat>, a: nat, b: nat)
    requires a <= b < |live|
  {
    forall k :: a <= k < b ==> link(live[k], live[k + 1]) && RunsBefore(order, live[k].pass, live[k + 1].pass)
  }

  lemma RunsBeforeTwice(order: seq<nat>, n: nat, p: nat, q: nat, s: nat)
    requires IsPermutation(order, n) && q < n && RunsBefore(order, p, q) && RunsBefore(order, q, s)
    ensures RunsBefore(order, p, s)
  {
    PermutationCovers(order, n, q);
  }

  lemma {:induction false} StepsRunInOrder<A>(live: seq<Use<A>>, order: seq<nat>, n: nat, i: nat, j: nat)
    requires IsPermutation(order, n) && UsesInRange(live, n) && i < j < |live|
    requires forall k :: i <= k < j ==> RunsBefore(order, live[k].pass, live[k + 1].pass)
    ensures RunsBefore(order, live[i].pass, live[j].pass)
    decreases j - i
  {
    if i + 1 < j {
      StepsRunInOrder(live, order, n, i + 1, j);
      RunsBeforeTwice(order, n, live[i].pass, live[i + 1].pass, live[j].pass);
    }
  }

  lemma InForceWhen<A>(live: seq<Use<A>>, link: (Use<A>, Use<A>) -> bool, order: seq<nat>, n: nat, a: nat, b: nat)
    requires IsPermutation(order, n) && UsesInRange(live, n) && LinkedInOrder(live, link) && a <= b < |live|
    ensures InForce(live, link, order, a, b) <==> RunsInOrder(live[a..b + 1], order)
  {
    var uses := live[a..b + 1];
    if InForce(live, link, order, a, b) {
      forall i, j | 0 <= i < j < |uses|
        ensures RunsBefore(order, uses[i].pass, uses[j].pass)
      {
        StepsRunInOrder(live, order, n, a + i, a + j);
      }
    }
    if RunsInOrder(uses, order) {
      forall k | a <= k < b
        ensures link(live[k], live[k + 1]) && RunsBefore(order, live[k].pass, live[k + 1].pass)
      {
        assert uses[k - a] == live[k] && uses[k - a + 1] == live[k + 1];
      }
    }
  }

  /** In whatever order the passes run: between two surviving uses of an image the chain of barriers is in
      force, step by step, exactly when the surviving uses between them run in the order of declaration. */
  lemma ImageChainInForceWhen(g: Graph, order: seq<nat>, surviving: seq<bool>, r: nat, a: nat, b: nat)
    requires ResourcesInRange(g.resources, |surviving|) && IsPermutation(order, |surviving|)
    requires r < |g.resources| && g.resources[r].Image? && a <= b < |Live(g.resources[r].imageUses, surviving)|
    ensures var live := Live(g.resources[r].imageUses, surviving);
      InForce(live, (u, v) => ImageLink(AllImageBarriers(g.resources, surviving), r, u, v), order, a, b) <==>
      RunsInOrder(live[a..b + 1], order)
  {
    hide AllImageBarriers, ImageLink, InForce;
    var live := Live(g.resources[r].imageUses, surviving);
    LiveSurvives(g.resources[r].imageUses, surviving);
    forall k | 0 <= k < |live| - 1
      ensures ImageLink(AllImageBarriers(g.resources, surviving), r, live[k], live[k + 1])
    {
      ImageNeighboursLinked(g, surviving, r, k);
    }
    InForceWhen(live, (u, v) => ImageLink(AllImageBarriers(g.resources, surviving), r, u, v), order, |surviving|, a, b);
  }

  /** The same for buffers. */
  lemma BufferChainInForceWhen(g: Graph, order: seq<nat>, surviving: seq<bool>, r: nat, a: nat, b: nat)
    requires ResourcesInRange(g.resources, |surviving|) && IsPermutation(order, |surviving|)
    requires r < |g.resources| && g.resources[r].Buffer? && a <= b < |Live(g.resources[r].bufferUses, surviving)|
    ensures var live := Live(g.resources[r].bufferUses, surviving);
      InForce(live, (u, v) => BufferLink(AllBufferBarriers(g.resources, surviving), r, u, v), order, a, b) <==>
      RunsInOrder(live[a..b + 1], order)
  {
    hide AllBufferBarriers, BufferLink, InForce;
    var live := Live(g.resources[r].bufferUses, surviving);
    LiveSurvives(g.resources[r].bufferUses, surviving);
    forall k | 0 <= k < |live| - 1
      ensures BufferLink(AllBufferBarriers(g.resources, surviving), r, live[k], live[k + 1])
    {
      BufferNeighboursLinked(g, surviving, r, k);
    }
    InForceWhen(live, (u, v) => BufferLink(AllBufferBarriers(g.resources, surviving), r, u, v), order, |surviving|, a, b);
  }

  // ------------------------------------------------------------------
  // Nothing reads an image that holds nothing yet
  // ------------------------------------------------------------------

  ghost predicate FirstUseDefines(g: Graph) {
    forall r ::
      (0 <= r < |g.resources| && g.resources[r].Image? && g.resources[r].initialLayout == Undefined && g.resources[r].imageUses != [])
      ==> !g.resources[r].imageUses[0].isRead
  }

  ghost predicate WrittenFirst(uses: seq<Use<ImageAccess>>, surviving: seq<bool>, order: seq<nat>, i: nat, j: nat) {
    && i < j < |uses| && !uses[i].isRead && uses[i].pass < |surviving| && surviving[uses[i].pass]
    && RunsBefore(order, uses[i].pass, uses[j].pass)
  }

  /** Culling never exposes an uninitialised read: a surviving read of an image that starts undefined
      has a surviving write that runs before it. */
  lemma ReadsAreInitialised(g: Graph, order: seq<nat>, surviving: seq<bool>, r: nat, j: nat)
    requires WellFormed(g) && Swept(g, order, surviving) && UseOrdered(g, order) && FirstUseDefines(g)
    requires ResourcesInRange(g.resources, |g.passes|)
    requires r < |g.resources| && g.resources[r].Image? && g.resources[r].initialLayout == Undefined
    requires j < |g.resources[r].imageUses| && g.resources[r].imageUses[j].isRead
    requires surviving[g.resources[r].imageUses[j].pass]
    ensures WrittenFirst(g.resources[r].imageUses, surviving, order, 0, j)
  {
    var uses := g.resources[r].imageUses;
    assert forall k :: 0 <= k < |uses| ==> Touches(g.resources[r])[k] == Touch(uses[k].pass, uses[k].isRead);
    WriteBeforeReadSurvives(g, order, surviving, r, 0, j);
  }

  // Every surviving read runs behind a surviving write.
  ghost predicate ReadsBehindWrites(live: seq<Use<ImageAccess>>, order: seq<nat>) {
    forall j :: 0 <= j < |live| && live[j].isRead ==> exists i :: WritesBefore(live, order, i, j)
  }

  ghost predicate WritesBefore(live: seq<Use<ImageAccess>>, order: seq<nat>, i: int, j: int)
    requires 0 <= j < |live|
  {
    0 <= i < |live| && !live[i].isRead && RunsBefore(order, live[i].pass, live[j].pass)
  }

  // The k-th pass is the first to run that uses the image.
  ghost predicate UsesFirst(live: seq<Use<ImageAccess>>, order: seq<nat>, k: int) {
    0 <= k < |order| && forall m, i :: 0 <= m < k ==> !MadeBy(live, order[m], i)
  }

  ghost predicate FirstOnlyWrites(live: seq<Use<ImageAccess>>, order: seq<nat>) {
    forall k, i :: UsesFirst(live, order, k) && MadeBy(live, order[k], i) ==> !live[i].isRead
  }

  lemma {:induction false} FirstUser(live: seq<Use<ImageAccess>>, order: seq<nat>, b: nat) returns (k: nat)
    requires b < |order| && exists j :: MadeBy(live, order[b], j)
    ensures k <= b && UsesFirst(live, order, k) && exists i :: MadeBy(live, order[k], i)
  {
    if m: nat, i :| m < b && MadeBy(live, order[m], i) {
      k := FirstUser(live, order, m);
    } else {
      k := b;
    }
  }

  lemma Position(order: seq<nat>, n: nat, p: nat) returns (k: nat)
    requires IsPermutation(order, n) && p < n
    ensures k < |order| && order[k] == p
  {
    PermutationCovers(order, n, p);
    k :| k < |order| && order[k] == p;
  }

  /** In whatever order the passes run: every surviving read of an image is behind a surviving write exactly
      when the first surviving pass to use the image does not read it. */
  lemma ReadsAreInitialisedWhen(live: seq<Use<ImageAccess>>, order: seq<nat>, n: nat)
    requires IsPermutation(order, n) && UsesInRange(live, n)
    ensures ReadsBehindWrites(live, order) <==> FirstOnlyWrites(live, order)
  {
    if ReadsBehindWrites(live, order) {
      forall k, i | UsesFirst(live, order, k) && MadeBy(live, order[k], i)
        ensures !live[i].isRead
      {
        if live[i].isRead {
          var w :| WritesBefore(live, order, w, i);
          var m := Position(order, n, live[w].pass);
          assert m < k && MadeBy(live, order[m], w);
        }
      }
    }
    if FirstOnlyWrites(live, order) {
      forall j | 0 <= j < |live| && live[j].isRead
        ensures exists i :: WritesBefore(live, order, i, j)
      {
        var b := Position(order, n, live[j].pass);
        assert MadeBy(live, order[b], j);
        var k := FirstUser(live, order, b);
        var i :| MadeBy(live, order[k], i);
        assert WritesBefore(live, order, i, j);
      }
    }
  }

  // The same of every image that starts undefined.
  ghost predicate FrameReadsBehindWrites(g: Graph, order: seq<nat>, surviving: seq<bool>)
    requires ResourcesInRange(g.resources, |surviving|)
  {
    forall r :: 0 <= r < |g.resources| && g.resources[r].Image? && g.resources[r].initialLayout == Undefined ==>
      ReadsBehindWrites(Live(g.resources[r].imageUses, surviving), order)
  }

  ghost predicate FrameFirstOnlyWrites(g: Graph, order: seq<nat>, surviving: seq<bool>)
    requires ResourcesInRange(g.resources, |surviving|)
  {
    forall r :: 0 <= r < |g.resources| && g.resources[r].Image? && g.resources[r].initialLayout == Undefined ==>
      FirstOnlyWrites(Live(g.resources[r].imageUses, surviving), order)
  }

  lemma FrameIsInitialisedWhen(g: Graph, order: seq<nat>, surviving: seq<bool>)
    requires ResourcesInRange(g.resources, |surviving|) && IsPermutation(order, |surviving|)
    ensures FrameReadsBehindWrites(g, order, surviving) <==> FrameFirstOnlyWrites(g, order, surviving)
  {
    hide ReadsBehindWrites, FirstOnlyWrites;
    forall r | 0 <= r < |g.resources| && g.resources[r].Image?
      ensures var live := Live(g.resources[r].imageUses, surviving);
        ReadsBehindWrites(live, order) <==> FirstOnlyWrites(live, order)
    {
      LiveSurvives(g.resources[r].imageUses, surviving);
      ReadsAreInitialisedWhen(Live(g.resources[r].imageUses, surviving), order, |surviving|);
    }
  }

  // It is so when uses run as declared.
  lemma InOrderIsInitialised(g: Graph, order: seq<nat>, surviving: seq<bool>)
    requires WellFormed(g) && Swept(g, order, surviving) && UseOrdered(g, order) && FirstUseDefines(g)
    requires ResourcesInRange(g.resources, |g.passes|)
    ensures FrameReadsBehindWrites(g, order, surviving)
  {
    assert |surviving| == |g.passes|;
    hide Live, UseOrdered, FirstUseDefines, Swept, WellFormed;
    forall r, j | 0 <= r < |g.resources| && g.resources[r].Image? && g.resources[r].initialLayout == Undefined &&
      0 <= j < |Live(g.resources[r].imageUses, surviving)| && Live(g.resources[r].imageUses, surviving)[j].isRead
      ensures exists i :: WritesBefore(Live(g.resources[r].imageUses, surviving), order, i, j)
    {
      var uses, live := g.resources[r].imageUses, Live(g.resources[r].imageUses, surviving);
      LiveSurvives(uses, surviving);
      var use := LiveUse(uses, surviving, j);
      ReadsAreInitialised(g, order, surviving, r, use);
      var i := LivePosition(uses, surviving, 0);
      assert WritesBefore(live, order, i, j);
    }
  }

  lemma {:induction false} StepSource(r: nat, initial: Layout, live: seq<Use<ImageAccess>>, b: ImageBarrier) returns (k: nat)
    requires b in ImageSteps(r, initial, live)
    ensures k < |live| && b in ImageStep(r, initial, live[..k], live[k])
  {
    var before := live[..|live| - 1];
    if b in ImageStep(r, initial, before, live[|live| - 1]) {
      k := |live| - 1;
    } else {
      k := StepSource(r, initial, before, b);
      assert before[..k] == live[..k];
    }
  }

  // In use order a pass uses an image once.
  lemma OneUsePerPass(uses: seq<Use<ImageAccess>>, order: seq<nat>, n: nat, i: nat, j: nat)
    requires IsPermutation(order, n) && UsesInRange(uses, n) && RunsInOrder(uses, order)
    requires i < |uses| && j < |uses| && uses[i].pass == uses[j].pass
    ensures i == j
  {
    PermutationCovers(order, n, uses[i].pass);
  }

  /** No barrier before a reading use starts from the undefined layout. */
  lemma NoUndefinedBeforeRead(g: Graph, order: seq<nat>, surviving: seq<bool>, r: nat, j: nat, b: ImageBarrier)
    requires WellFormed(g) && Swept(g, order, surviving) && UseOrdered(g, order) && FirstUseDefines(g)
    requires ResourcesInRange(g.resources, |g.passes|)
    requires r < |g.resources| && g.resources[r].Image? && j < |g.resources[r].imageUses|
    requires g.resources[r].imageUses[j].isRead && surviving[g.resources[r].imageUses[j].pass]
    requires b in ImageBarriersOf(r, g.resources[r], surviving) && b.beforePass == g.resources[r].imageUses[j].pass
    ensures b.oldLayout != Undefined
  {
    var uses, initial := g.resources[r].imageUses, g.resources[r].initialLayout;
    var live, at := Live(uses, surviving), LiveIndices(uses, surviving);
    LiveAtIndices(uses, surviving);
    var k := StepSource(r, initial, live, b);
    StepFacts(r, initial, live[..k], live[k], b);
    if initial == Undefined {
      ImagesRunInOrder(g, order);
      OneUsePerPass(uses, order, |g.passes|, at[k], j);
      ReadsAreInitialised(g, order, surviving, r, j);
      LaterIndexIsNotFirst(at, 0, j);
    }
  }

  lemma StepFacts(r: nat, initial: Layout, before: seq<Use<ImageAccess>>, use: Use<ImageAccess>, b: ImageBarrier)
    requires b in ImageStep(r, initial, before, use)
    ensures b.beforePass == use.pass && b.oldLayout == LayoutAfter(initial, before)
    ensures initial != Undefined || before != [] ==> b.oldLayout != Undefined
  {
  }

  // An index that precedes another in an increasing list is not alone there.
  lemma LaterIndexIsNotFirst(at: seq<nat>, first: nat, j: nat)
    requires first in at && first < j && forall k, m :: 0 <= k < m < |at| ==> at[k] < at[m]
    ensures at[0] != j
  {
  }
}
