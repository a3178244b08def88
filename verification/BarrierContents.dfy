/** What the emitted barriers are, told by the declared uses: which there are, what each waits for and what
    waits for it. */
module BarrierContents {
  import opened GraphModel
  import opened PassOrder
  import opened Culling
  import opened Barriers
  import opened BarrierReplay
  import opened BarrierSync

  // ------------------------------------------------------------------
  // Surviving uses by their declared positions
  // ------------------------------------------------------------------

  ghost predicate Survives<A>(uses: seq<Use<A>>, surviving: seq<bool>, u: int) {
    0 <= u < |uses| && uses[u].pass < |surviving| && surviving[uses[u].pass]
  }

  ghost predicate IsFirst<A>(uses: seq<Use<A>>, surviving: seq<bool>, u: int) {
    Survives(uses, surviving, u) && forall w :: w < u ==> !Survives(uses, surviving, w)
  }

  // `v` is the last surviving use before `u`.
  ghost predicate Precedes<A>(uses: seq<Use<A>>, surviving: seq<bool>, v: int, u: int) {
    && v < u && Survives(uses, surviving, v) && Survives(uses, surviving, u)
    && forall w :: v < w < u ==> !Survives(uses, surviving, w)
  }

  ghost predicate IsLast<A>(uses: seq<Use<A>>, surviving: seq<bool>, u: int) {
    Survives(uses, surviving, u) && forall w :: w > u ==> !Survives(uses, surviving, w)
  }

  // The surviving uses in their list and in the declarations.
  lemma Neighbours<A>(uses: seq<Use<A>>, surviving: seq<bool>, k: nat)
    requires UsesInRange(uses, |surviving|) && k < |LiveIndices(uses, surviving)|
    ensures var at := LiveIndices(uses, surviving);
      && Survives(uses, surviving, at[k])
      && (k == 0 ==> IsFirst(uses, surviving, at[k]))
      && (k > 0 ==> Precedes(uses, surviving, at[k - 1], at[k]))
      && (k == |at| - 1 ==> IsLast(uses, surviving, at[k]))
  {
    hide LiveIndices;
    var at := LiveIndices(uses, surviving);
    forall w | Survives(uses, surviving, w)
      ensures w < at[k] ==> k > 0 && w <= at[k - 1]
      ensures w > at[k] ==> k < |at| - 1
    {
      NotBetween(uses, surviving, k, w);
    }
  }

  lemma NotBetween<A>(uses: seq<Use<A>>, surviving: seq<bool>, k: nat, w: int)
    requires UsesInRange(uses, |surviving|) && k < |LiveIndices(uses, surviving)| && Survives(uses, surviving, w)
    ensures var at := LiveIndices(uses, surviving);
      (w < at[k] ==> k > 0 && w <= at[k - 1]) && (w > at[k] ==> k < |at| - 1)
  {
    hide LiveIndices;
    var at := LiveIndices(uses, surviving);
    var m := PositionOf(uses, surviving, w);
    assert m < k ==> m == k - 1 || at[m] < at[k - 1];
  }

  lemma PositionOf<A>(uses: seq<Use<A>>, surviving: seq<bool>, u: int) returns (k: nat)
    requires UsesInRange(uses, |surviving|) && Survives(uses, surviving, u)
    ensures k < |LiveIndices(uses, surviving)| && LiveIndices(uses, surviving)[k] == u
  {
    var at := LiveIndices(uses, surviving);
    assert u in at;
    k :| 0 <= k < |at| && at[k] == u;
  }

  lemma OnePredecessor<A>(uses: seq<Use<A>>, surviving: seq<bool>, v: int, w: int, u: int)
    requires Precedes(uses, surviving, v, u) && Precedes(uses, surviving, w, u)
    ensures v == w
  {
  }

  // ------------------------------------------------------------------
  // Image barriers
  // ------------------------------------------------------------------

  // The barrier of the u-th use: a first use that changes the layout waits for nothing, a later one that
  // changes it or is half of a hazard waits for the use before it.
  ghost predicate ImageBarrierFor(r: nat, initial: Layout, uses: seq<Use<ImageAccess>>, surviving: seq<bool>, u: int, b: ImageBarrier) {
    && Survives(uses, surviving, u)
    && b.resource == r && b.beforePass == uses[u].pass
    && b.dst == ImageScope(uses[u].access) && b.newLayout == ImageLayout(uses[u].access)
    && if IsFirst(uses, surviving, u) then
         b.oldLayout == initial && b.newLayout != initial && b.src == Scope({TopOfPipe}, {})
       else
         exists v :: ImageFollows(uses, surviving, v, u, b)
  }

  ghost predicate ImageFollows(uses: seq<Use<ImageAccess>>, surviving: seq<bool>, v: int, u: int, b: ImageBarrier) {
    && Precedes(uses, surviving, v, u)
    && b.oldLayout == ImageLayout(uses[v].access) && b.src == ImageScope(uses[v].access)
    && (b.newLayout != b.oldLayout || !uses[v].isRead || !uses[u].isRead)
  }

  // The k-th entry of the list of surviving uses brings the barrier of the use it stands for.
  lemma StepIs(r: nat, initial: Layout, uses: seq<Use<ImageAccess>>, surviving: seq<bool>, k: nat, b: ImageBarrier)
    requires UsesInRange(uses, |surviving|) && k < |Live(uses, surviving)| == |LiveIndices(uses, surviving)|
    ensures var live := Live(uses, surviving);
      b in ImageStep(r, initial, live[..k], live[k]) <==>
      ImageBarrierFor(r, initial, uses, surviving, LiveIndices(uses, surviving)[k], b)
  {
    hide Live, ImageScope, ImageLayout, LiveIndices;
    var live, at := Live(uses, surviving), LiveIndices(uses, surviving);
    LiveAtIndices(uses, surviving);
    Neighbours(uses, surviving, k);
    if k > 0 {
      assert live[..k][k - 1] == live[k - 1];
      assert !IsFirst(uses, surviving, at[k]) by { assert Survives(uses, surviving, at[k - 1]); }
      if v :| ImageFollows(uses, surviving, v, at[k], b) {
        OnePredecessor(uses, surviving, v, at[k - 1], at[k]);
      }
      assert b in ImageStep(r, initial, live[..k], live[k]) ==> ImageFollows(uses, surviving, at[k - 1], at[k], b);
    }
  }

  lemma {:induction false} InSteps(r: nat, initial: Layout, live: seq<Use<ImageAccess>>, b: ImageBarrier)
    ensures b in ImageSteps(r, initial, live) <==> exists k :: 0 <= k < |live| && b in ImageStep(r, initial, live[..k], live[k])
  {
    hide ImageStep;
    if live != [] {
      var before := live[..|live| - 1];
      InSteps(r, initial, before, b);
      assert forall k :: 0 <= k < |before| ==> before[..k] == live[..k] && before[k] == live[k];
      if k :| 0 <= k < |live| && b in ImageStep(r, initial, live[..k], live[k]) {
        assert k < |before| ==> b in ImageStep(r, initial, before[..k], before[k]);
      }
    }
  }

  lemma StepsAre(r: nat, initial: Layout, uses: seq<Use<ImageAccess>>, surviving: seq<bool>, b: ImageBarrier)
    requires UsesInRange(uses, |surviving|)
    ensures b in ImageSteps(r, initial, Live(uses, surviving)) <==> exists u :: ImageBarrierFor(r, initial, uses, surviving, u, b)
  {
    hide Live, ImageSteps, ImageStep, LiveIndices;
    var live, at := Live(uses, surviving), LiveIndices(uses, surviving);
    LiveAtIndices(uses, surviving);
    InSteps(r, initial, live, b);
    if k: nat :| k < |live| && b in ImageStep(r, initial, live[..k], live[k]) {
      StepIs(r, initial, uses, surviving, k, b);
    }
    if u :| ImageBarrierFor(r, initial, uses, surviving, u, b) {
      var k := PositionOf(uses, surviving, u);
      StepIs(r, initial, uses, surviving, k, b);
    }
  }

  // The closing barrier of a presented image: it waits for the last surviving use, if there is one.
  ghost predicate ClosingBarrier(r: nat, resource: Resource, surviving: seq<bool>, b: ImageBarrier)
    requires resource.Image?
  {
    var uses := resource.imageUses;
    && resource.presented && uses != [] && b.resource == r && b.beforePass == INVALID_ID
    && b.dst == Scope({AllCommands}, {MemoryRead, MemoryWrite}) && b.newLayout == PresentSrc
    && (forall u :: IsLast(uses, surviving, u) ==>
          b.src == ImageScope(uses[u].access) && b.oldLayout == ImageLayout(uses[u].access))
    && ((forall u :: !Survives(uses, surviving, u)) ==> b.src == Scope({}, {}) && b.oldLayout == resource.initialLayout)
  }

  lemma PresentStepIs(r: nat, resource: Resource, surviving: seq<bool>, b: ImageBarrier)
    requires resource.Image? && UsesInRange(resource.imageUses, |surviving|) && resource.presented && resource.imageUses != []
    ensures b == PresentStep(r, resource.initialLayout, Live(resource.imageUses, surviving)) <==> ClosingBarrier(r, resource, surviving, b)
  {
    hide Live, ImageScope, ImageLayout, LiveIndices;
    var uses := resource.imageUses;
    var live, at := Live(uses, surviving), LiveIndices(uses, surviving);
    LiveAtIndices(uses, surviving);
    if at == [] {
      assert forall u :: !Survives(uses, surviving, u);
    } else {
      Neighbours(uses, surviving, |at| - 1);
      assert forall u :: IsLast(uses, surviving, u) ==> u == at[|at| - 1];
    }
  }

  lemma {:induction false} OfResource(resources: seq<Resource>, surviving: seq<bool>, r: nat, b: ImageBarrier)
    requires ResourcesInRange(resources, |surviving|) && r < |resources| && b.resource == r
    ensures b in AllImageBarriers(resources, surviving) <==> b in ImageBarriersOf(r, resources[r], surviving)
  {
    hide ImageBarriersOf;
    var n := |resources| - 1;
    BarriersOfResource(n, resources[n], surviving);
    if r < n {
      OfResource(resources[..n], surviving, r, b);
    } else {
      BarriersBelow(resources[..n], surviving);
    }
  }

  /** The image barriers, exactly: those of the surviving uses and the closing ones of presented images. */
  lemma ImageBarriersAre(g: Graph, surviving: seq<bool>, r: nat, b: ImageBarrier)
    requires ResourcesInRange(g.resources, |surviving|) && r < |g.resources| && g.resources[r].Image? && b.resource == r
    ensures b in AllImageBarriers(g.resources, surviving) <==>
      || (exists u :: ImageBarrierFor(r, g.resources[r].initialLayout, g.resources[r].imageUses, surviving, u, b))
      || ClosingBarrier(r, g.resources[r], surviving, b)
  {
    hide Live, ImageSteps, PresentStep, ImageBarrierFor, AllImageBarriers;
    var resource := g.resources[r];
    OfResource(g.resources, surviving, r, b);
    StepsAre(r, resource.initialLayout, resource.imageUses, surviving, b);
    if resource.imageUses == [] {
      NoLiveUses(resource.imageUses, surviving);
      NoImageSteps(r, resource.initialLayout);
    } else if resource.presented {
      PresentStepIs(r, resource, surviving, b);
    }
  }

  lemma NoLiveUses<A>(uses: seq<Use<A>>, surviving: seq<bool>)
    requires uses == []
    ensures UsesInRange(uses, |surviving|) && Live(uses, surviving) == []
  {
  }

  // ------------------------------------------------------------------
  // The present transition
  // ------------------------------------------------------------------

  // How many of the barriers close an image.
  ghost function Closings(barriers: seq<ImageBarrier>, r: nat): nat {
    if barriers == [] then 0
    else
      var b := barriers[|barriers| - 1];
      Closings(barriers[..|barriers| - 1], r) + if b.resource == r && b.beforePass == INVALID_ID then 1 else 0
  }

  lemma {:induction false} ClosingsConcat(a: seq<ImageBarrier>, b: seq<ImageBarrier>, r: nat)
    ensures Closings(a + b, r) == Closings(a, r) + Closings(b, r)
  {
    if b == [] {
      assert a + b == a;
    } else {
      ClosingsConcat(a, b[..|b| - 1], r);
      assert (a + b)[..|a + b| - 1] == a + b[..|b| - 1];
    }
  }

  lemma {:induction false} NoClosings(barriers: seq<ImageBarrier>, r: nat)
    requires forall i :: 0 <= i < |barriers| ==> barriers[i].resource != r || barriers[i].beforePass != INVALID_ID
    ensures Closings(barriers, r) == 0
  {
    if barriers != [] {
      NoClosings(barriers[..|barriers| - 1], r);
    }
  }

  lemma ClosingsOfResource(r: nat, resource: Resource, surviving: seq<bool>)
    requires resource.Image? ==> UsesInRange(resource.imageUses, |surviving|)
    requires |surviving| <= MAX_PASS_COUNT
    ensures Closings(ImageBarriersOf(r, resource, surviving), r) == if IsPresented(resource) && resource.imageUses != [] then 1 else 0
  {
    hide Live, ImageSteps, PresentStep;
    if resource.Image? && resource.imageUses != [] {
      var live := Live(resource.imageUses, surviving);
      LiveSurvives(resource.imageUses, surviving);
      var steps, present := ImageSteps(r, resource.initialLayout, live), PresentStep(r, resource.initialLayout, live);
      StepsElsewhere(r, resource.initialLayout, live, INVALID_ID);
      NoClosings(steps, r);
      ClosingsConcat(steps, [present], r);
      OneClosing(r, resource.initialLayout, live);
    }
  }

  lemma OneClosing(r: nat, initial: Layout, live: seq<Use<ImageAccess>>)
    ensures Closings([PresentStep(r, initial, live)], r) == 1
  {
    assert [PresentStep(r, initial, live)][..0] == [];
  }

  lemma {:induction false} ClosingsOfAll(resources: seq<Resource>, surviving: seq<bool>, r: nat)
    requires ResourcesInRange(resources, |surviving|) && r < |resources| && |surviving| <= MAX_PASS_COUNT
    ensures Closings(AllImageBarriers(resources, surviving), r) ==
      if IsPresented(resources[r]) && resources[r].imageUses != [] then 1 else 0
  {
    hide ImageBarriersOf, Closings;
    var n := |resources| - 1;
    var first, second := AllImageBarriers(resources[..n], surviving), ImageBarriersOf(n, resources[n], surviving);
    ClosingsConcat(first, second, r);
    BarriersOfResource(n, resources[n], surviving);
    if r < n {
      ClosingsOfAll(resources[..n], surviving, r);
      NoClosings(second, r);
    } else {
      BarriersBelow(resources[..n], surviving);
      NoClosings(first, r);
      ClosingsOfResource(n, resources[n], surviving);
    }
  }

  /** A presented image has exactly one closing barrier; if a use survives, it waits for the scope of the last
      one, makes it visible to all commands and leaves the present layout. */
  lemma PresentTransition(g: Graph, surviving: seq<bool>, r: nat, u: nat) returns (b: ImageBarrier)
    requires ResourcesInRange(g.resources, |surviving|) && |surviving| <= MAX_PASS_COUNT
    requires r < |g.resources| && IsPresented(g.resources[r]) && IsLast(g.resources[r].imageUses, surviving, u)
    ensures Closings(AllImageBarriers(g.resources, surviving), r) == 1
    ensures b in AllImageBarriers(g.resources, surviving) && b.resource == r && b.beforePass == INVALID_ID
    ensures b.src == ImageScope(g.resources[r].imageUses[u].access) && b.oldLayout == ImageLayout(g.resources[r].imageUses[u].access)
    ensures b.dst == Scope({AllCommands}, {MemoryRead, MemoryWrite}) && b.newLayout == PresentSrc
  {
    hide AllImageBarriers, Live, ImageBarrierFor;
    var resource := g.resources[r];
    ClosingsOfAll(g.resources, surviving, r);
    b := PresentStep(r, resource.initialLayout, Live(resource.imageUses, surviving));
    PresentStepIs(r, resource, surviving, b);
    ImageBarriersAre(g, surviving, r, b);
  }

  /** Every surviving write of a presented image is linked, step by step, to the last surviving use, and that
      to the present transition. */
  lemma WriteReachesPresent(g: Graph, surviving: seq<bool>, r: nat, i: nat) returns (chain: seq<nat>, b: ImageBarrier)
    requires ResourcesInRange(g.resources, |surviving|) && |surviving| <= MAX_PASS_COUNT
    requires r < |g.resources| && IsPresented(g.resources[r]) && Survives(g.resources[r].imageUses, surviving, i)
    ensures chain != [] && IsLast(g.resources[r].imageUses, surviving, chain[|chain| - 1])
    ensures Chained(g.resources[r].imageUses, surviving,
                    (u, v) => ImageLink(AllImageBarriers(g.resources, surviving), r, u, v), i, chain[|chain| - 1], chain)
    ensures b in AllImageBarriers(g.resources, surviving) && b.resource == r && b.beforePass == INVALID_ID
    ensures b.src == ImageScope(g.resources[r].imageUses[chain[|chain| - 1]].access) && b.newLayout == PresentSrc
  {
    hide AllImageBarriers, Live, ImageLink, LiveIndices;
    var uses := g.resources[r].imageUses;
    var live, at := Live(uses, surviving), LiveIndices(uses, surviving);
    LiveAtIndices(uses, surviving);
    var a := PositionOf(uses, surviving, i);
    Neighbours(uses, surviving, |at| - 1);
    forall k | 0 <= k < |live| - 1
      ensures ImageLink(AllImageBarriers(g.resources, surviving), r, live[k], live[k + 1])
    {
      ImageNeighboursLinked(g, surviving, r, k);
    }
    chain := ChainBetween(uses, surviving, (u, v) => ImageLink(AllImageBarriers(g.resources, surviving), r, u, v), a, |at| - 1);
    b := PresentTransition(g, surviving, r, at[|at| - 1]);
  }

  // ------------------------------------------------------------------
  // Buffer barriers
  // ------------------------------------------------------------------

  // A use of a buffer waits for the use before it if either writes or their scopes differ; the first waits for none.
  ghost predicate BufferBarrierFor(r: nat, uses: seq<Use<BufferAccess>>, surviving: seq<bool>, v: int, u: int, b: BufferBarrier) {
    && Precedes(uses, surviving, v, u)
    && b == BufferBarrier(uses[u].pass, r, BufferScope(uses[v].access), BufferScope(uses[u].access))
    && (!uses[v].isRead || !uses[u].isRead || b.src != b.dst)
  }

  lemma BufferStepIs(r: nat, uses: seq<Use<BufferAccess>>, surviving: seq<bool>, k: nat, b: BufferBarrier)
    requires UsesInRange(uses, |surviving|) && k < |Live(uses, surviving)| == |LiveIndices(uses, surviving)|
    ensures var live := Live(uses, surviving);
      b in BufferStep(r, live[..k], live[k]) <==>
      exists v :: BufferBarrierFor(r, uses, surviving, v, LiveIndices(uses, surviving)[k], b)
  {
    hide Live, BufferScope, LiveIndices;
    var live, at := Live(uses, surviving), LiveIndices(uses, surviving);
    LiveAtIndices(uses, surviving);
    Neighbours(uses, surviving, k);
    if k > 0 {
      assert live[..k][k - 1] == live[k - 1];
      if v :| BufferBarrierFor(r, uses, surviving, v, at[k], b) {
        OnePredecessor(uses, surviving, v, at[k - 1], at[k]);
      }
      assert b in BufferStep(r, live[..k], live[k]) ==> BufferBarrierFor(r, uses, surviving, at[k - 1], at[k], b);
    }
  }

  lemma {:induction false} InBufferSteps(r: nat, live: seq<Use<BufferAccess>>, b: BufferBarrier)
    ensures b in BufferSteps(r, live) <==> exists k :: 0 <= k < |live| && b in BufferStep(r, live[..k], live[k])
  {
    hide BufferStep;
    if live != [] {
      var before := live[..|live| - 1];
      InBufferSteps(r, before, b);
      assert forall k :: 0 <= k < |before| ==> before[..k] == live[..k] && before[k] == live[k];
      if k :| 0 <= k < |live| && b in BufferStep(r, live[..k], live[k]) {
        assert k < |before| ==> b in BufferStep(r, before[..k], before[k]);
      }
    }
  }

  lemma {:induction false} BufferStepsOf(r: nat, live: seq<Use<BufferAccess>>)
    ensures forall i :: 0 <= i < |BufferSteps(r, live)| ==> BufferSteps(r, live)[i].resource == r
  {
    if live != [] {
      BufferStepsOf(r, live[..|live| - 1]);
    }
  }

  lemma {:induction false} OfBuffer(resources: seq<Resource>, surviving: seq<bool>, r: nat, b: BufferBarrier)
    requires ResourcesInRange(resources, |surviving|) && r < |resources| && b.resource == r
    ensures b in AllBufferBarriers(resources, surviving) <==> b in BufferBarriersOf(r, resources[r], surviving)
  {
    hide BufferBarriersOf;
    var n := |resources| - 1;
    BufferBarriersIndexed(n, resources[n], surviving);
    if r < n {
      OfBuffer(resources[..n], surviving, r, b);
    } else {
      BufferBarriersBelow(resources[..n], surviving);
    }
  }

  lemma BufferBarriersIndexed(r: nat, resource: Resource, surviving: seq<bool>)
    requires resource.Buffer? ==> UsesInRange(resource.bufferUses, |surviving|)
    ensures forall i :: 0 <= i < |BufferBarriersOf(r, resource, surviving)| ==> BufferBarriersOf(r, resource, surviving)[i].resource == r
  {
    if resource.Buffer? {
      BufferStepsOf(r, Live(resource.bufferUses, surviving));
    }
  }

  lemma {:induction false} BufferBarriersBelow(resources: seq<Resource>, surviving: seq<bool>)
    requires ResourcesInRange(resources, |surviving|)
    ensures forall i :: 0 <= i < |AllBufferBarriers(resources, surviving)| ==>
      AllBufferBarriers(resources, surviving)[i].resource < |resources|
  {
    if resources != [] {
      BufferBarriersBelow(resources[..|resources| - 1], surviving);
      BufferBarriersIndexed(|resources| - 1, resources[|resources| - 1], surviving);
    }
  }

  /** The buffer barriers, exactly: those of the surviving uses that follow another in a hazard or another scope. */
  lemma BufferBarriersAre(g: Graph, surviving: seq<bool>, r: nat, b: BufferBarrier)
    requires ResourcesInRange(g.resources, |surviving|) && r < |g.resources| && g.resources[r].Buffer? && b.resource == r
    ensures b in AllBufferBarriers(g.resources, surviving) <==>
      exists v, u :: BufferBarrierFor(r, g.resources[r].bufferUses, surviving, v, u, b)
  {
    hide Live, BufferSteps, BufferStep, LiveIndices, AllBufferBarriers;
    var uses := g.resources[r].bufferUses;
    var live, at := Live(uses, surviving), LiveIndices(uses, surviving);
    OfBuffer(g.resources, surviving, r, b);
    LiveAtIndices(uses, surviving);
    InBufferSteps(r, live, b);
    if k: nat :| k < |live| && b in BufferStep(r, live[..k], live[k]) {
      BufferStepIs(r, uses, surviving, k, b);
    }
    if v, u :| BufferBarrierFor(r, uses, surviving, v, u, b) {
      var k := PositionOf(uses, surviving, u);
      BufferStepIs(r, uses, surviving, k, b);
    }
  }
}
