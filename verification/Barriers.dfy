/** Image and buffer barriers: what is emitted for the surviving uses of each resource. */
module Barriers {
  import opened GraphModel
  import opened PassOrder
  import opened Culling

  datatype ImageBarrier = ImageBarrier(beforePass: nat, resource: nat, src: Scope, dst: Scope,
                                       oldLayout: Layout, newLayout: Layout)

  datatype BufferBarrier = BufferBarrier(beforePass: nat, resource: nat, src: Scope, dst: Scope)

  // ------------------------------------------------------------------
  // Surviving uses
  // ------------------------------------------------------------------

  ghost predicate UsesInRange<A>(uses: seq<Use<A>>, n: nat) {
    forall i :: 0 <= i < |uses| ==> uses[i].pass < n
  }

  ghost function Live<A>(uses: seq<Use<A>>, surviving: seq<bool>): seq<Use<A>>
    requires UsesInRange(uses, |surviving|)
  {
    if uses == [] then []
    else
      var before := Live(uses[..|uses| - 1], surviving);
      var use := uses[|uses| - 1];
      if surviving[use.pass] then before + [use] else before
  }

  ghost function LiveIndices<A>(uses: seq<Use<A>>, surviving: seq<bool>): (at: seq<nat>)
    requires UsesInRange(uses, |surviving|)
    ensures forall k :: 0 <= k < |at| ==> at[k] < |uses| && surviving[uses[at[k]].pass]
    ensures forall k, m :: 0 <= k < m < |at| ==> at[k] < at[m]
    ensures forall i :: 0 <= i < |uses| && surviving[uses[i].pass] ==> i in at
  {
    if uses == [] then []
    else
      var before := LiveIndices(uses[..|uses| - 1], surviving);
      if surviving[uses[|uses| - 1].pass] then before + [|uses| - 1] else before
  }

  lemma {:induction false} LiveAtIndices<A>(uses: seq<Use<A>>, surviving: seq<bool>)
    requires UsesInRange(uses, |surviving|)
    ensures |Live(uses, surviving)| == |LiveIndices(uses, surviving)|
    ensures forall k :: 0 <= k < |Live(uses, surviving)| ==>
      Live(uses, surviving)[k] == uses[LiveIndices(uses, surviving)[k]]
  {
    if uses != [] {
      LiveAtIndices(uses[..|uses| - 1], surviving);
    }
  }

  // ------------------------------------------------------------------
  // What is emitted for one resource
  // ------------------------------------------------------------------

  ghost function LayoutAfter(initial: Layout, executed: seq<Use<ImageAccess>>): Layout {
    if executed == [] then initial else ImageLayout(executed[|executed| - 1].access)
  }

  // The barrier, if any, before the use that follows `before`.
  ghost function ImageStep(r: nat, initial: Layout, before: seq<Use<ImageAccess>>, use: Use<ImageAccess>): seq<ImageBarrier> {
    var current, next := LayoutAfter(initial, before), ImageLayout(use.access);
    if before == [] then
      if next != current then
        [ImageBarrier(use.pass, r, Scope({TopOfPipe}, {}), ImageScope(use.access), current, next)]
      else []
    else
      var last := before[|before| - 1];
      if next != current || !last.isRead || !use.isRead then
        [ImageBarrier(use.pass, r, ImageScope(last.access), ImageScope(use.access), current, next)]
      else []
  }

  ghost function ImageSteps(r: nat, initial: Layout, live: seq<Use<ImageAccess>>): seq<ImageBarrier> {
    if live == [] then []
    else
      var before := live[..|live| - 1];
      ImageSteps(r, initial, before) + ImageStep(r, initial, before, live[|live| - 1])
  }

  ghost function PresentStep(r: nat, initial: Layout, live: seq<Use<ImageAccess>>): ImageBarrier {
    var src := if live == [] then Scope({}, {}) else ImageScope(live[|live| - 1].access);
    ImageBarrier(INVALID_ID, r, src, Scope({AllCommands}, {MemoryRead, MemoryWrite}),
                 LayoutAfter(initial, live), PresentSrc)
  }

  ghost function ImageBarriersOf(r: nat, resource: Resource, surviving: seq<bool>): seq<ImageBarrier>
    requires resource.Image? ==> UsesInRange(resource.imageUses, |surviving|)
  {
    if resource.Buffer? || resource.imageUses == [] then []
    else
      var live := Live(resource.imageUses, surviving);
      var steps := ImageSteps(r, resource.initialLayout, live);
      if resource.presented then steps + [PresentStep(r, resource.initialLayout, live)] else steps
  }

  ghost function BufferStep(r: nat, before: seq<Use<BufferAccess>>, use: Use<BufferAccess>): seq<BufferBarrier> {
    if before == [] then []
    else
      var last := before[|before| - 1];
      var src, dst := BufferScope(last.access), BufferScope(use.access);
      if !last.isRead || !use.isRead || src != dst then [BufferBarrier(use.pass, r, src, dst)] else []
  }

  ghost function BufferSteps(r: nat, live: seq<Use<BufferAccess>>): seq<BufferBarrier> {
    if live == [] then []
    else
      var before := live[..|live| - 1];
      BufferSteps(r, before) + BufferStep(r, before, live[|live| - 1])
  }

  ghost function BufferBarriersOf(r: nat, resource: Resource, surviving: seq<bool>): seq<BufferBarrier>
    requires resource.Buffer? ==> UsesInRange(resource.bufferUses, |surviving|)
  {
    if resource.Image? then [] else BufferSteps(r, Live(resource.bufferUses, surviving))
  }

  ghost predicate ResourcesInRange(resources: seq<Resource>, n: nat) {
    forall r :: 0 <= r < |resources| ==>
      match resources[r]
      case Image(_, _, _, uses) => UsesInRange(uses, n)
      case Buffer(_, uses) => UsesInRange(uses, n)
  }

  lemma WellFormedInRange(g: Graph)
    requires WellFormed(g)
    ensures ResourcesInRange(g.resources, |g.passes|)
  {
    forall r | 0 <= r < |g.resources|
      ensures match g.resources[r]
              case Image(_, _, _, uses) => UsesInRange(uses, |g.passes|)
              case Buffer(_, uses) => UsesInRange(uses, |g.passes|)
    {
      match g.resources[r] {
        case Image(_, _, _, uses) =>
          assert forall i :: 0 <= i < |uses| ==> Touches(g.resources[r])[i].pass == uses[i].pass;
        case Buffer(_, uses) =>
          assert forall i :: 0 <= i < |uses| ==> Touches(g.resources[r])[i].pass == uses[i].pass;
      }
    }
  }

  ghost function AllImageBarriers(resources: seq<Resource>, surviving: seq<bool>): seq<ImageBarrier>
    requires ResourcesInRange(resources, |surviving|)
  {
    if resources == [] then []
    else
      var n := |resources| - 1;
      AllImageBarriers(resources[..n], surviving) + ImageBarriersOf(n, resources[n], surviving)
  }

  ghost function AllBufferBarriers(resources: seq<Resource>, surviving: seq<bool>): seq<BufferBarrier>
    requires ResourcesInRange(resources, |surviving|)
  {
    if resources == [] then []
    else
      var n := |resources| - 1;
      AllBufferBarriers(resources[..n], surviving) + BufferBarriersOf(n, resources[n], surviving)
  }

  // ------------------------------------------------------------------
  // The emitting loops
  // ------------------------------------------------------------------

  lemma NothingLive<A>(uses: seq<Use<A>>, surviving: seq<bool>)
    requires UsesInRange(uses, |surviving|)
    ensures Live(uses[..0], surviving) == []
  {
  }

  lemma NoBufferSteps(r: nat)
    ensures BufferSteps(r, []) == []
  {
  }

  lemma NoImageSteps(r: nat, initial: Layout)
    ensures ImageSteps(r, initial, []) == []
  {
  }

  lemma LiveExtends<A>(uses: seq<Use<A>>, surviving: seq<bool>, u: nat)
    requires UsesInRange(uses, |surviving|) && u < |uses|
    ensures Live(uses[..u + 1], surviving) ==
      if surviving[uses[u].pass] then Live(uses[..u], surviving) + [uses[u]] else Live(uses[..u], surviving)
  {
    assert uses[..u + 1][..u] == uses[..u];
  }

  lemma StepsExtend(r: nat, initial: Layout, before: seq<Use<ImageAccess>>, use: Use<ImageAccess>)
    ensures ImageSteps(r, initial, before + [use]) == ImageSteps(r, initial, before) + ImageStep(r, initial, before, use)
  {
    assert (before + [use])[..|before|] == before;
  }

  method EmitImageBarriers(r: nat, resource: Resource, surviving: seq<bool>) returns (out: seq<ImageBarrier>)
    requires resource.Image? && UsesInRange(resource.imageUses, |surviving|)
    ensures out == ImageBarriersOf(r, resource, surviving)
  {
    hide Live, ImageSteps;
    out := [];
    var uses, initial := resource.imageUses, resource.initialLayout;
    if uses == [] { return; }
    NothingLive(uses, surviving);
    NoImageSteps(r, initial);
    var currentLayout, previous := initial, Scope({}, {});
    var previousWasWrite, havePrevious := true, false;
    ghost var live: seq<Use<ImageAccess>> := [];
    for u := 0 to |uses|
      invariant live == Live(uses[..u], surviving)
      invariant out == ImageSteps(r, initial, live)
      invariant currentLayout == LayoutAfter(initial, live)
      invariant havePrevious <==> live != []
      invariant havePrevious ==>
        previous == ImageScope(live[|live| - 1].access) && previousWasWrite == !live[|live| - 1].isRead
      invariant !havePrevious ==> previous == Scope({}, {})
    {
      var use := uses[u];
      LiveExtends(uses, surviving, u);
      if !surviving[use.pass] {
        continue;
      }
      var next := ImageLayout(use.access);
      var needsBarrier := if havePrevious then next != currentLayout || previousWasWrite || !use.isRead
                          else next != currentLayout;
      StepsExtend(r, initial, live, use);
      if needsBarrier {
        var src := if havePrevious then previous else Scope({TopOfPipe}, {});
        var barrier := ImageBarrier(use.pass, r, src, ImageScope(use.access), currentLayout, next);
        assert ImageStep(r, initial, live, use) == [barrier];
        out := out + [barrier];
      }
      currentLayout := next;
      previous, previousWasWrite, havePrevious := ImageScope(use.access), !use.isRead, true;
      live := live + [use];
    }
    assert uses[..|uses|] == uses;
    if resource.presented {
      out := out + [ImageBarrier(INVALID_ID, r, previous, Scope({AllCommands}, {MemoryRead, MemoryWrite}),
                                 currentLayout, PresentSrc)];
    }
  }

  lemma BufferStepsExtend(r: nat, before: seq<Use<BufferAccess>>, use: Use<BufferAccess>)
    ensures BufferSteps(r, before + [use]) == BufferSteps(r, before) + BufferStep(r, before, use)
  {
    assert (before + [use])[..|before|] == before;
  }

  method EmitBufferBarriers(r: nat, resource: Resource, surviving: seq<bool>) returns (out: seq<BufferBarrier>)
    requires resource.Buffer? && UsesInRange(resource.bufferUses, |surviving|)
    ensures out == BufferBarriersOf(r, resource, surviving)
  {
    hide Live, BufferSteps;
    out := [];
    var uses := resource.bufferUses;
    NothingLive(uses, surviving);
    NoBufferSteps(r);
    var previous := Scope({}, {});
    var previousWasWrite, havePrevious := true, false;
    ghost var live: seq<Use<BufferAccess>> := [];
    for u := 0 to |uses|
      invariant live == Live(uses[..u], surviving)
      invariant out == BufferSteps(r, live)
      invariant havePrevious <==> live != []
      invariant havePrevious ==>
        previous == BufferScope(live[|live| - 1].access) && previousWasWrite == !live[|live| - 1].isRead
    {
      var use := uses[u];
      LiveExtends(uses, surviving, u);
      if !surviving[use.pass] {
        continue;
      }
      BufferStepsExtend(r, live, use);
      var next := BufferScope(use.access);
      if havePrevious && (previousWasWrite || !use.isRead || next != previous) {
        out := out + [BufferBarrier(use.pass, r, previous, next)];
      }
      previous, previousWasWrite, havePrevious := next, !use.isRead, true;
      live := live + [use];
    }
    assert uses[..|uses|] == uses;
  }

  method EmitBarriers(g: Graph, surviving: seq<bool>) returns (images: seq<ImageBarrier>, buffers: seq<BufferBarrier>)
    requires ResourcesInRange(g.resources, |surviving|)
    ensures images == AllImageBarriers(g.resources, surviving)
    ensures buffers == AllBufferBarriers(g.resources, surviving)
  {
    images, buffers := [], [];
    for r := 0 to |g.resources|
      invariant images == AllImageBarriers(g.resources[..r], surviving)
      invariant buffers == AllBufferBarriers(g.resources[..r], surviving)
    {
      assert g.resources[..r + 1][..r] == g.resources[..r];
      match g.resources[r] {
        case Image(_, _, _, _) =>
          var emitted := EmitImageBarriers(r, g.resources[r], surviving);
          images := images + emitted;
          assert BufferBarriersOf(r, g.resources[r], surviving) == [];
        case Buffer(_, _) =>
          var emitted := EmitBufferBarriers(r, g.resources[r], surviving);
          buffers := buffers + emitted;
          assert ImageBarriersOf(r, g.resources[r], surviving) == [];
      }
    }
    assert g.resources[..|g.resources|] == g.resources;
  }
}
