/** The render graph object: its declarations, and Compile, which puts the stages together. */
module RenderGraph {
  import opened GraphModel
  import opened PassOrder
  import opened Culling
  import opened Barriers
  import opened BarrierReplay
  import opened BarrierSync
  import opened Lifetimes
  import opened Attachments
  import opened Options

  datatype CompileError =
    | NoPasses
    | NoResources
    | PresentedUnused(resource: string)
    | ReadBeforeWrite(resource: string)
    | SelfHazard(pass: string)
    | CyclicGraph

  datatype CompiledPass = CompiledPass(passId: nat, name: string, culled: bool, orderIndex: nat)

  datatype CompileResult =
    | Failed(error: CompileError)
    | Compiled(passes: seq<CompiledPass>, imageBarriers: seq<ImageBarrier>, bufferBarriers: seq<BufferBarrier>,
               lifetimes: seq<Lifetime>, attachments: seq<Attachment>)

  // ------------------------------------------------------------------
  // Validation
  // ------------------------------------------------------------------

  ghost function DeclarationError(r: Resource): Option<CompileError> {
    if r.Buffer? then None
    else if r.presented && r.imageUses == [] then Some(PresentedUnused(r.name))
    else if r.imageUses != [] && r.initialLayout == Undefined && r.imageUses[0].isRead then Some(ReadBeforeWrite(r.name))
    else None
  }

  ghost predicate FirstError(g: Graph, r: nat, error: Option<CompileError>) {
    && r < |g.resources| && DeclarationError(g.resources[r]) == error
    && forall i :: 0 <= i < r ==> DeclarationError(g.resources[i]).None?
  }

  // Reports the first resource with an unusable declaration.
  method Validate(g: Graph) returns (error: Option<CompileError>)
    ensures error.None? <==> PresentedAreUsed(g) && FirstUseDefines(g)
    ensures error.Some? ==> exists r :: FirstError(g, r, error)
  {
    for r := 0 to |g.resources|
      invariant forall i :: 0 <= i < r ==> DeclarationError(g.resources[i]).None?
    {
      var resource := g.resources[r];
      if resource.Image? {
        if resource.presented && resource.imageUses == [] {
          error := Some(PresentedUnused(resource.name));
          assert FirstError(g, r, error);
          return;
        }
        if resource.imageUses != [] && resource.initialLayout == Undefined && resource.imageUses[0].isRead {
          error := Some(ReadBeforeWrite(resource.name));
          assert FirstError(g, r, error);
          return;
        }
      }
    }
    return None;
  }

  // ------------------------------------------------------------------
  // Ordering edges
  // ------------------------------------------------------------------

  ghost function TouchEdges(t: seq<Touch>): seq<Edge> {
    if |t| < 2 then []
    else
      var before := TouchEdges(t[..|t| - 1]);
      var previous, current := t[|t| - 2], t[|t| - 1];
      if previous.isRead && current.isRead then before else before + [Edge(previous.pass, current.pass)]
  }

  ghost function ResourceEdges(resources: seq<Resource>): seq<Edge> {
    if resources == [] then []
    else ResourceEdges(resources[..|resources| - 1]) + TouchEdges(Touches(resources[|resources| - 1]))
  }

  method BuildUseEdges<A>(uses: seq<Use<A>>) returns (edges: seq<Edge>)
    ensures edges == TouchEdges(TouchesOf(uses))
  {
    edges := [];
    ghost var t := TouchesOf(uses);
    if |uses| == 0 { return; }
    for u := 1 to |uses|
      invariant edges == TouchEdges(t[..u])
    {
      assert t[..u + 1][..u] == t[..u];
      var previous, current := uses[u - 1], uses[u];
      if previous.isRead && current.isRead {
        continue;
      }
      edges := edges + [Edge(previous.pass, current.pass)];
    }
    assert t[..|uses|] == t;
  }

  method BuildEdges(g: Graph) returns (edges: seq<Edge>)
    ensures edges == ResourceEdges(g.resources)
  {
    edges := [];
    for r := 0 to |g.resources|
      invariant edges == ResourceEdges(g.resources[..r])
    {
      assert g.resources[..r + 1][..r] == g.resources[..r];
      var more;
      match g.resources[r] {
        case Image(_, _, _, uses) => more := BuildUseEdges(uses);
        case Buffer(_, uses) => more := BuildUseEdges(uses);
      }
      edges := edges + more;
    }
    assert g.resources[..|g.resources|] == g.resources;
  }

  ghost predicate HazardAt(t: seq<Touch>, u: nat, a: nat, b: nat) {
    1 <= u < |t| && t[u - 1].pass == a && t[u].pass == b && !(t[u - 1].isRead && t[u].isRead)
  }

  // Two consecutive uses of a resource by `a` and `b`, at least one of them a write.
  ghost predicate ConsecutiveHazard(t: seq<Touch>, a: nat, b: nat) {
    exists u :: HazardAt(t, u, a, b)
  }

  lemma {:induction false} TouchEdgesAre(t: seq<Touch>, a: nat, b: nat)
    ensures HasEdge(TouchEdges(t), a, b) <==> ConsecutiveHazard(t, a, b)
  {
    if |t| >= 2 {
      var rest := t[..|t| - 1];
      TouchEdgesAre(rest, a, b);
      assert forall u :: 0 <= u < |rest| ==> (HazardAt(t, u, a, b) <==> HazardAt(rest, u, a, b));
      if HazardAt(t, |t| - 1, a, b) {
        assert TouchEdges(t)[|TouchEdges(t)| - 1] == Edge(a, b);
      }
    }
  }

  ghost predicate SomeHazard(resources: seq<Resource>, a: nat, b: nat) {
    exists r :: 0 <= r < |resources| && ConsecutiveHazard(Touches(resources[r]), a, b)
  }

  /** The edges join consecutive conflicting uses of one resource, and nothing else. */
  lemma {:induction false} EdgesAreHazards(resources: seq<Resource>, a: nat, b: nat)
    ensures HasEdge(ResourceEdges(resources), a, b) <==> SomeHazard(resources, a, b)
  {
    if resources != [] {
      var n := |resources| - 1;
      EdgesAreHazards(resources[..n], a, b);
      TouchEdgesAre(Touches(resources[n]), a, b);
      SomeHazardSplits(resources, a, b);
    }
  }

  lemma SomeHazardSplits(resources: seq<Resource>, a: nat, b: nat)
    requires resources != []
    ensures SomeHazard(resources, a, b) <==>
      SomeHazard(resources[..|resources| - 1], a, b) || ConsecutiveHazard(Touches(resources[|resources| - 1]), a, b)
  {
    var rest := resources[..|resources| - 1];
    assert forall r :: 0 <= r < |rest| ==> rest[r] == resources[r];
  }

  lemma EdgesInRange(g: Graph)
    requires WellFormed(g)
    ensures InRange(ResourceEdges(g.resources), |g.passes|)
  {
    var edges := ResourceEdges(g.resources);
    forall i | 0 <= i < |edges|
      ensures edges[i].from < |g.passes| && edges[i].to < |g.passes|
    {
      assert HasEdge(edges, edges[i].from, edges[i].to);
      EdgesAreHazards(g.resources, edges[i].from, edges[i].to);
    }
  }

  lemma PassOrderedEdgesClimb(g: Graph)
    requires PassOrdered(g)
    ensures forall i :: 0 <= i < |ResourceEdges(g.resources)| ==>
      ResourceEdges(g.resources)[i].from < ResourceEdges(g.resources)[i].to
  {
    var edges := ResourceEdges(g.resources);
    forall i | 0 <= i < |edges|
      ensures edges[i].from < edges[i].to
    {
      assert HasEdge(edges, edges[i].from, edges[i].to);
      EdgesAreHazards(g.resources, edges[i].from, edges[i].to);
    }
  }

  ghost predicate FirstSelfEdge(edges: seq<Edge>, i: nat) {
    && i < |edges| && edges[i].from == edges[i].to
    && forall j :: 0 <= j < i ==> edges[j].from != edges[j].to
  }

  method FindSelfEdge(edges: seq<Edge>) returns (at: Option<nat>)
    ensures at.None? <==> NoSelfEdge(edges)
    ensures at.Some? ==> FirstSelfEdge(edges, at.value)
  {
    for i := 0 to |edges|
      invariant forall j :: 0 <= j < i ==> edges[j].from != edges[j].to
    {
      if edges[i].from == edges[i].to {
        assert HasEdge(edges, edges[i].from, edges[i].from);
        return Some(i);
      }
    }
    return None;
  }

  // ------------------------------------------------------------------
  // Numbering
  // ------------------------------------------------------------------

  // Survivors are numbered along the order; culled passes carry the invalid index.
  ghost predicate Numbered(g: Graph, order: seq<nat>, surviving: seq<bool>, passes: seq<CompiledPass>)
    requires IsPermutation(order, |g.passes|) && |surviving| == |g.passes|
  {
    && |passes| == |g.passes|
    && (forall p :: 0 <= p < |passes| ==> EntryFor(g, surviving, passes, p))
    && (forall k :: 0 <= k < |Kept(order, surviving)| ==>
          Kept(order, surviving)[k] < |passes| && passes[Kept(order, surviving)[k]].orderIndex == k)
  }

  lemma {:induction false} KeptMembers(order: seq<nat>, surviving: seq<bool>)
    requires forall i :: 0 <= i < |order| ==> order[i] < |surviving|
    ensures forall k :: 0 <= k < |Kept(order, surviving)| ==>
      Kept(order, surviving)[k] < |surviving| && surviving[Kept(order, surviving)[k]] && Kept(order, surviving)[k] in order
  {
    if order != [] {
      KeptMembers(order[..|order| - 1], surviving);
      assert forall p :: p in order[..|order| - 1] ==> p in order;
    }
  }

  ghost predicate NumberedUpTo(g: Graph, order: seq<nat>, surviving: seq<bool>, out: seq<CompiledPass>, i: nat)
    requires IsPermutation(order, |g.passes|) && |surviving| == |g.passes| && i <= |order|
  {
    && |out| == |g.passes|
    && (forall j :: 0 <= j < i ==> EntryFor(g, surviving, out, order[j]))
    && (forall k :: 0 <= k < |Kept(order[..i], surviving)| ==>
          Kept(order[..i], surviving)[k] < |out| && out[Kept(order[..i], surviving)[k]].orderIndex == k)
  }

  ghost predicate EntryFor(g: Graph, surviving: seq<bool>, out: seq<CompiledPass>, p: nat)
    requires |out| == |g.passes| == |surviving|
  {
    && p < |out| && out[p].passId == p && out[p].name == g.passes[p].name && out[p].culled == !surviving[p]
    && (!surviving[p] ==> out[p].orderIndex == INVALID_ID)
  }

  lemma KeptExtends(order: seq<nat>, surviving: seq<bool>, i: nat)
    requires i < |order| && forall j :: 0 <= j < |order| ==> order[j] < |surviving|
    ensures Kept(order[..i + 1], surviving) ==
      if surviving[order[i]] then Kept(order[..i], surviving) + [order[i]] else Kept(order[..i], surviving)
  {
    assert order[..i + 1][..i] == order[..i];
  }

  lemma NumberOneMore(g: Graph, order: seq<nat>, surviving: seq<bool>, out: seq<CompiledPass>, i: nat, entry: CompiledPass)
    requires IsPermutation(order, |g.passes|) && |surviving| == |g.passes| && i < |order|
    requires NumberedUpTo(g, order, surviving, out, i)
    requires entry == CompiledPass(order[i], g.passes[order[i]].name, !surviving[order[i]],
                                   if surviving[order[i]] then |Kept(order[..i], surviving)| else INVALID_ID)
    ensures NumberedUpTo(g, order, surviving, out[order[i] := entry], i + 1)
  {
    var out', pass := out[order[i] := entry], order[i];
    forall j | 0 <= j < i + 1
      ensures EntryFor(g, surviving, out', order[j])
    {
      if j < i { assert EntryFor(g, surviving, out, order[j]); }
    }
    KeptExtends(order, surviving, i);
    NotYetKept(order, surviving, i);
  }

  lemma NotYetKept(order: seq<nat>, surviving: seq<bool>, i: nat)
    requires Distinct(order) && i < |order| && forall j :: 0 <= j < |order| ==> order[j] < |surviving|
    ensures forall k :: 0 <= k < |Kept(order[..i], surviving)| ==> Kept(order[..i], surviving)[k] != order[i]
  {
    KeptMembers(order[..i], surviving);
    assert forall j :: 0 <= j < i ==> order[..i][j] == order[j];
  }

  method NumberPasses(g: Graph, order: seq<nat>, surviving: seq<bool>) returns (passes: seq<CompiledPass>)
    requires IsPermutation(order, |g.passes|) && |surviving| == |g.passes|
    ensures Numbered(g, order, surviving, passes)
  {
    passes := seq(|g.passes|, _ => CompiledPass(INVALID_ID, "", false, 0));
    var orderIndex := 0;
    for i := 0 to |order|
      invariant orderIndex == |Kept(order[..i], surviving)|
      invariant NumberedUpTo(g, order, surviving, passes, i)
    {
      var pass, culled := order[i], !surviving[order[i]];
      var entry := CompiledPass(pass, g.passes[pass].name, culled, if culled then INVALID_ID else orderIndex);
      NumberOneMore(g, order, surviving, passes, i, entry);
      KeptExtends(order, surviving, i);
      passes := passes[pass := entry];
      if !culled {
        orderIndex := orderIndex + 1;
      }
    }
    assert order[..|order|] == order;
    forall p | 0 <= p < |passes|
      ensures EntryFor(g, surviving, passes, p)
    {
      PermutationCovers(order, |g.passes|, p);
    }
  }

  // The recorder walks the compiled passes by id and skips the culled ones.
  function RecordedOrder(passes: seq<CompiledPass>): seq<nat> {
    if passes == [] then []
    else
      var before := RecordedOrder(passes[..|passes| - 1]);
      var last := passes[|passes| - 1];
      if last.culled then before else before + [last.passId]
  }

  lemma {:induction false} RecordedIsKept(g: Graph, passes: seq<CompiledPass>, order: seq<nat>, surviving: seq<bool>, n: nat)
    requires n <= |passes| == |order| == |surviving| == |g.passes|
    requires forall p :: 0 <= p < |order| ==> order[p] == p
    requires forall p :: 0 <= p < |passes| ==> EntryFor(g, surviving, passes, p)
    ensures RecordedOrder(passes[..n]) == Kept(order[..n], surviving)
    decreases n
  {
    if n > 0 {
      RecordedIsKept(g, passes, order, surviving, n - 1);
      assert EntryFor(g, surviving, passes, n - 1);
      assert passes[..n][..n - 1] == passes[..n - 1] && order[..n][..n - 1] == order[..n - 1];
    }
  }

  lemma {:induction false} KeptPosition(order: seq<nat>, surviving: seq<bool>, k: nat) returns (i: nat)
    requires forall j :: 0 <= j < |order| ==> order[j] < |surviving|
    requires k < |Kept(order, surviving)|
    ensures i < |order| && order[i] == Kept(order, surviving)[k] && surviving[order[i]]
    ensures Kept(order[..i], surviving) == Kept(order, surviving)[..k]
  {
    var n := |order| - 1;
    var before := Kept(order[..n], surviving);
    if k < |before| {
      i := KeptPosition(order[..n], surviving, k);
      assert order[..n][..i] == order[..i];
    } else {
      i := n;
    }
  }

  // Recording pass by pass: every barrier fits, every image is in its layout, presented images end presentable.
  ghost predicate RecordsCleanly(g: Graph, passes: seq<CompiledPass>, barriers: seq<ImageBarrier>) {
    var recorded := RecordedOrder(passes);
    && (forall k :: 0 <= k < |recorded| ==> CleanBefore(g, barriers, recorded[..k], recorded[k]))
    && EndsPresentable(g, barriers, recorded)
  }

  // Walking the passes by id.
  ghost function Ids(n: nat): (ids: seq<nat>)
    ensures |ids| == n && forall i :: 0 <= i < n ==> ids[i] == i
  {
    seq(n, i => i)
  }

  lemma {:induction false} KeptPrefix(order: seq<nat>, surviving: seq<bool>, i: nat)
    requires i < |order| && (forall j :: 0 <= j < |order| ==> order[j] < |surviving|) && surviving[order[i]]
    ensures var k := |Kept(order[..i], surviving)|;
      k < |Kept(order, surviving)| && Kept(order, surviving)[k] == order[i] && Kept(order, surviving)[..k] == Kept(order[..i], surviving)
  {
    var n := |order| - 1;
    if i < n {
      KeptPrefix(order[..n], surviving, i);
      assert order[..n][..i] == order[..i];
    }
  }

  // Recording the survivors in some order is replaying that order.
  lemma CleanByPosition(g: Graph, order: seq<nat>, surviving: seq<bool>, barriers: seq<ImageBarrier>)
    requires IsPermutation(order, |surviving|)
    ensures var kept := Kept(order, surviving);
      (forall k :: 0 <= k < |kept| ==> CleanBefore(g, barriers, kept[..k], kept[k])) <==>
      (forall i :: 0 <= i < |order| && surviving[order[i]] ==> CleanBefore(g, barriers, Kept(order[..i], surviving), order[i]))
  {
    hide CleanBefore, Kept;
    var kept := Kept(order, surviving);
    if forall k :: 0 <= k < |kept| ==> CleanBefore(g, barriers, kept[..k], kept[k]) {
      forall i | 0 <= i < |order| && surviving[order[i]]
        ensures CleanBefore(g, barriers, Kept(order[..i], surviving), order[i])
      {
        KeptPrefix(order, surviving, i);
      }
    }
    if forall i :: 0 <= i < |order| && surviving[order[i]] ==> CleanBefore(g, barriers, Kept(order[..i], surviving), order[i]) {
      forall k | 0 <= k < |kept|
        ensures CleanBefore(g, barriers, kept[..k], kept[k])
      {
        var i := KeptPosition(order, surviving, k);
      }
    }
  }

  lemma IdsArePermutation(n: nat)
    ensures IsPermutation(Ids(n), n)
  {
  }

  lemma RecordingIsReplay(g: Graph, order: seq<nat>, surviving: seq<bool>, passes: seq<CompiledPass>)
    requires ResourcesInRange(g.resources, |g.passes|) && IsPermutation(order, |g.passes|) && |surviving| == |g.passes|
    requires Numbered(g, order, surviving, passes)
    ensures IsPermutation(Ids(|g.passes|), |g.passes|) && RecordedOrder(passes) == Kept(Ids(|g.passes|), surviving)
    ensures RecordsCleanly(g, passes, AllImageBarriers(g.resources, surviving)) <==> ReplaysCleanly(g, Ids(|g.passes|), surviving)
  {
    hide CleanBefore, EndsPresentable;
    var ids := Ids(|g.passes|);
    IdsArePermutation(|g.passes|);
    RecordedIsKept(g, passes, ids, surviving, |passes|);
    assert passes[..|passes|] == passes && ids[..|passes|] == ids;
    CleanByPosition(g, ids, surviving, AllImageBarriers(g.resources, surviving));
  }

  /** The frame recorded from a compiled graph finds every image in the layout it needs exactly when, in id
      order, the surviving uses of each pass agree with the layouts that the uses run before leave. */
  lemma RecordsCleanlyWhen(g: Graph, order: seq<nat>, surviving: seq<bool>, passes: seq<CompiledPass>)
    requires WellFormed(g) && ResourcesInRange(g.resources, |g.passes|) && PresentedAreUsed(g)
    requires IsPermutation(order, |g.passes|) && |surviving| == |g.passes|
    requires Numbered(g, order, surviving, passes)
    ensures RecordsCleanly(g, passes, AllImageBarriers(g.resources, surviving)) <==> LayoutsAgree(g, Ids(|g.passes|), surviving)
  {
    hide RecordsCleanly, LayoutsAgree, ReplaysCleanly;
    RecordingIsReplay(g, order, surviving, passes);
    ReplaysCleanlyWhen(g, Ids(|g.passes|), surviving);
  }

  // Some pass recorded before the k-th writes the image.
  ghost predicate WrittenEarlier(uses: seq<Use<ImageAccess>>, recorded: seq<nat>, k: nat)
    requires k <= |recorded|
  {
    exists m, i :: 0 <= m < k && MadeBy(uses, recorded[m], i) && !uses[i].isRead
  }

  ghost predicate ImageRecordsInitialised(uses: seq<Use<ImageAccess>>, recorded: seq<nat>) {
    forall k, j :: 0 <= k < |recorded| && MadeBy(uses, recorded[k], j) && uses[j].isRead ==> WrittenEarlier(uses, recorded, k)
  }

  // Recording pass by pass: no image that starts undefined is read by a pass before another has written it.
  ghost predicate RecordsInitialised(g: Graph, passes: seq<CompiledPass>) {
    forall r :: 0 <= r < |g.resources| && g.resources[r].Image? && g.resources[r].initialLayout == Undefined ==>
      ImageRecordsInitialised(g.resources[r].imageUses, RecordedOrder(passes))
  }

  lemma RecordedWriteRuns(uses: seq<Use<ImageAccess>>, surviving: seq<bool>, ids: seq<nat>, j: nat)
    requires UsesInRange(uses, |surviving|) && ids == Ids(|surviving|) && j < |Live(uses, surviving)|
    requires ImageRecordsInitialised(uses, Kept(ids, surviving)) && Live(uses, surviving)[j].isRead
    ensures exists i :: WritesBefore(Live(uses, surviving), ids, i, j)
  {
    hide Live, Kept, RunsBefore;
    var live, kept := Live(uses, surviving), Kept(ids, surviving);
    LiveSurvives(uses, surviving);
    var p := live[j].pass;
    var use := LiveUse(uses, surviving, j);
    KeptPrefix(ids, surviving, p);
    var k := |Kept(ids[..p], surviving)|;
    assert MadeBy(uses, kept[k], use);
    var m, i :| 0 <= m < k && MadeBy(uses, kept[m], i) && !uses[i].isRead;
    KeptMembers(ids[..p], surviving);
    assert kept[m] == kept[..k][m];
    var at := LivePosition(uses, surviving, i);
    IdsRunInOrder(|surviving|, kept[m], p);
    assert WritesBefore(live, ids, at, j);
  }

  lemma IdsRunInOrder(n: nat, p: nat, q: nat)
    requires p < n && q < n
    ensures RunsBefore(Ids(n), p, q) <==> p < q
  {
    assert Ids(n)[p] == p && Ids(n)[q] == q;
  }

  lemma RunningWriteIsRecorded(uses: seq<Use<ImageAccess>>, surviving: seq<bool>, ids: seq<nat>, k: nat, j: int)
    requires UsesInRange(uses, |surviving|) && ids == Ids(|surviving|) && k < |Kept(ids, surviving)|
    requires ReadsBehindWrites(Live(uses, surviving), ids) && MadeBy(uses, Kept(ids, surviving)[k], j) && uses[j].isRead
    ensures WrittenEarlier(uses, Kept(ids, surviving), k)
  {
    hide Live, Kept, RunsBefore;
    var live, kept := Live(uses, surviving), Kept(ids, surviving);
    LiveSurvives(uses, surviving);
    var p := KeptPosition(ids, surviving, k);
    var at := LivePosition(uses, surviving, j);
    var w :| WritesBefore(live, ids, w, at);
    var q := live[w].pass;
    var i := LiveUse(uses, surviving, w);
    IdsRunInOrder(|surviving|, q, p);
    KeptPrefix(ids[..p], surviving, q);
    var m := |Kept(ids[..p][..q], surviving)|;
    assert kept[m] == kept[..k][m] == q;
    assert MadeBy(uses, kept[m], i);
  }

  lemma ImageInitialisedWhen(uses: seq<Use<ImageAccess>>, surviving: seq<bool>, ids: seq<nat>)
    requires UsesInRange(uses, |surviving|) && ids == Ids(|surviving|)
    ensures ImageRecordsInitialised(uses, Kept(ids, surviving)) <==> ReadsBehindWrites(Live(uses, surviving), ids)
  {
    hide Live, Kept, WritesBefore, WrittenEarlier;
    var live, kept := Live(uses, surviving), Kept(ids, surviving);
    if ImageRecordsInitialised(uses, kept) {
      forall j | 0 <= j < |live| && live[j].isRead
        ensures exists i :: WritesBefore(live, ids, i, j)
      {
        RecordedWriteRuns(uses, surviving, ids, j);
      }
    }
    if ReadsBehindWrites(live, ids) {
      forall k, j | 0 <= k < |kept| && MadeBy(uses, kept[k], j) && uses[j].isRead
        ensures WrittenEarlier(uses, kept, k)
      {
        RunningWriteIsRecorded(uses, surviving, ids, k, j);
      }
    }
  }

  /** The frame recorded from a compiled graph reads an image that starts undefined only behind a write exactly
      when, in id order, the first surviving pass to use such an image does not read it. */
  lemma RecordsInitialisedWhen(g: Graph, order: seq<nat>, surviving: seq<bool>, passes: seq<CompiledPass>)
    requires ResourcesInRange(g.resources, |g.passes|) && IsPermutation(order, |g.passes|) && |surviving| == |g.passes|
    requires Numbered(g, order, surviving, passes)
    ensures RecordsInitialised(g, passes) <==> FrameFirstOnlyWrites(g, Ids(|g.passes|), surviving)
  {
    hide FrameFirstOnlyWrites, ImageRecordsInitialised, ReadsBehindWrites, Live, Kept;
    var ids := Ids(|g.passes|);
    IdsArePermutation(|g.passes|);
    FrameIsInitialisedWhen(g, ids, surviving);
    RecordedIsKept(g, passes, ids, surviving, |passes|);
    assert passes[..|passes|] == passes && ids[..|passes|] == ids;
    forall r | 0 <= r < |g.resources| && g.resources[r].Image?
      ensures var uses := g.resources[r].imageUses;
        ImageRecordsInitialised(uses, RecordedOrder(passes)) <==> ReadsBehindWrites(Live(uses, surviving), ids)
    {
      ImageInitialisedWhen(g.resources[r].imageUses, surviving, ids);
    }
  }

  lemma PassOrderedRecordsCleanly(g: Graph, order: seq<nat>, surviving: seq<bool>, passes: seq<CompiledPass>)
    requires WellFormed(g) && PassOrdered(g) && ResourcesInRange(g.resources, |g.passes|) && PresentedAreUsed(g)
    requires IsPermutation(order, |g.passes|) && |surviving| == |g.passes|
    requires forall i :: 0 <= i < |order| ==> order[i] == i
    requires Numbered(g, order, surviving, passes)
    ensures RecordedOrder(passes) == Kept(order, surviving)
    ensures RecordsCleanly(g, passes, AllImageBarriers(g.resources, surviving))
  {
    hide RecordsCleanly, ReplaysCleanly;
    assert order == Ids(|g.passes|);
    RecordingIsReplay(g, order, surviving, passes);
    PassOrderedIsUseOrdered(g, order);
    ReplayIsConsistent(g, order, surviving);
  }

  lemma PassOrderedRecordsInitialised(g: Graph, order: seq<nat>, surviving: seq<bool>, passes: seq<CompiledPass>)
    requires WellFormed(g) && PassOrdered(g) && ResourcesInRange(g.resources, |g.passes|) && FirstUseDefines(g)
    requires Swept(g, order, surviving) && Numbered(g, order, surviving, passes)
    requires forall i :: 0 <= i < |order| ==> order[i] == i
    ensures RecordsInitialised(g, passes)
  {
    assert order == Ids(|g.passes|);
    hide RecordsInitialised, FrameReadsBehindWrites, FrameFirstOnlyWrites, PassOrdered, FirstUseDefines, WellFormed;
    PassOrderedIsUseOrdered(g, order);
    InOrderIsInitialised(g, order, surviving);
    FrameIsInitialisedWhen(g, order, surviving);
    RecordsInitialisedWhen(g, order, surviving, passes);
  }

  // ------------------------------------------------------------------
  // The object
  // ------------------------------------------------------------------

  datatype ALResult = S_OK | E_INVALIDARG | E_INVALIDCALL

  ghost predicate Declarable(g: Graph) {
    g.passes != [] && g.resources != [] && PresentedAreUsed(g) && FirstUseDefines(g)
  }

  ghost predicate Compilable(g: Graph) {
    Declarable(g) && Acyclic(ResourceEdges(g.resources))
  }

  // Why a graph is refused: the first check that fails, at the first resource or edge that fails it.
  ghost predicate RefusedWith(g: Graph, error: CompileError) {
    match error
    case NoPasses => g.passes == []
    case NoResources => g.passes != [] && g.resources == []
    case PresentedUnused(_) => g.passes != [] && g.resources != [] && exists r :: FirstError(g, r, Some(error))
    case ReadBeforeWrite(_) => g.passes != [] && g.resources != [] && exists r :: FirstError(g, r, Some(error))
    case SelfHazard(name) => Declarable(g) && exists i :: HazardNamed(g, i, name)
    case CyclicGraph => Declarable(g) && NoSelfEdge(ResourceEdges(g.resources)) && !Acyclic(ResourceEdges(g.resources))
  }

  ghost predicate HazardNamed(g: Graph, i: nat, name: string) {
    var edges := ResourceEdges(g.resources);
    FirstSelfEdge(edges, i) && edges[i].from < |g.passes| && g.passes[edges[i].from].name == name
  }

  // What a successful compilation returns, for the order and the survivors it settled on.
  ghost predicate IsCompilation(g: Graph, order: seq<nat>, surviving: seq<bool>, result: CompileResult)
    requires WellFormed(g)
  {
    var edges, n := ResourceEdges(g.resources), |g.passes|;
    && result.Compiled?
    && IsTopological(order, edges, n)
    && (forall other :: IsTopological(other, edges, n) ==> order == other || LexicographicallyBefore(order, other))
    && Swept(g, order, surviving)
    && Numbered(g, order, surviving, result.passes)
    && ResourcesInRange(g.resources, n)
    && result.imageBarriers == AllImageBarriers(g.resources, surviving)
    && result.bufferBarriers == AllBufferBarriers(g.resources, surviving)
    && AreLifetimes(g.resources, surviving, result.lifetimes)
    && result.attachments == AttachmentsOf(g.resources, surviving)
  }

  // Only the operations of the u-th use changed, which is the first attachment write of the image by the pass.
  ghost predicate SetAt(before: seq<Resource>, image: nat, pass: nat, ops: Ops, u: nat, after: seq<Resource>) {
    && image < |before| && before[image].Image? && u < |before[image].imageUses|
    && Attaches(before[image].imageUses[u], pass)
    && (forall k :: 0 <= k < u ==> !Attaches(before[image].imageUses[k], pass))
    && after == before[image := before[image].(imageUses := before[image].imageUses[u := before[image].imageUses[u].(ops := ops)])]
  }

  class RenderGraphAL {
    var resources: seq<Resource>
    var passes: seq<Pass>

    ghost function Declared(): Graph
      reads this
    {
      Graph(resources, passes)
    }

    ghost predicate Valid()
      reads this
    {
      WellFormed(Declared())
    }

    constructor ()
      ensures Valid() && Declared() == Graph([], [])
    {
      resources, passes := [], [];
    }

    method AddResource(resource: Resource) returns (id: nat)
      requires Valid() && Touches(resource) == []
      modifies this`resources
      ensures Valid()
      ensures |old(resources)| >= MAX_RESOURCE_COUNT ==> id == INVALID_ID && resources == old(resources)
      ensures |old(resources)| < MAX_RESOURCE_COUNT ==> id == |old(resources)| && resources == old(resources) + [resource]
    {
      if |resources| >= MAX_RESOURCE_COUNT {
        return INVALID_ID;
      }
      resources := resources + [resource];
      id := |resources| - 1;
    }

    method AddPass(name: string) returns (id: nat)
      requires Valid()
      modifies this`passes
      ensures Valid()
      ensures |old(passes)| >= MAX_PASS_COUNT ==> id == INVALID_ID && passes == old(passes)
      ensures |old(passes)| < MAX_PASS_COUNT ==> id == |old(passes)| && passes == old(passes) + [Pass(name, false)]
    {
      if |passes| >= MAX_PASS_COUNT {
        return INVALID_ID;
      }
      passes := passes + [Pass(name, false)];
      id := |passes| - 1;
    }

    // PassReadsImage and PassWritesImage differ in the flag only.
    method DeclareImageUse(pass: nat, resource: nat, isRead: bool, access: ImageAccess) returns (result: ALResult)
      requires Valid()
      modifies this`resources
      ensures Valid()
      ensures result == S_OK <==> pass < |passes| && resource < |old(resources)| && old(resources)[resource].Image?
      ensures result == S_OK ==>
        var before := old(resources)[resource];
        resources == old(resources)[resource := before.(imageUses := before.imageUses + [Use(pass, isRead, access, LOAD_OPS)])]
      ensures result != S_OK ==> resources == old(resources)
    {
      if pass >= |passes| || resource >= |resources| || !resources[resource].Image? {
        return E_INVALIDARG;
      }
      var before := resources[resource];
      var after := before.(imageUses := before.imageUses + [Use(pass, isRead, access, LOAD_OPS)]);
      assert Touches(after) == Touches(before) + [Touch(pass, isRead)];
      resources := resources[resource := after];
      result := S_OK;
    }

    method DeclareBufferUse(pass: nat, resource: nat, isRead: bool, access: BufferAccess) returns (result: ALResult)
      requires Valid()
      modifies this`resources
      ensures Valid()
      ensures result == S_OK <==> pass < |passes| && resource < |old(resources)| && old(resources)[resource].Buffer?
      ensures result == S_OK ==>
        var before := old(resources)[resource];
        resources == old(resources)[resource := before.(bufferUses := before.bufferUses + [Use(pass, isRead, access, LOAD_OPS)])]
      ensures result != S_OK ==> resources == old(resources)
    {
      if pass >= |passes| || resource >= |resources| || resources[resource].Image? {
        return E_INVALIDARG;
      }
      var before := resources[resource];
      var after := before.(bufferUses := before.bufferUses + [Use(pass, isRead, access, LOAD_OPS)]);
      assert Touches(after) == Touches(before) + [Touch(pass, isRead)];
      resources := resources[resource := after];
      result := S_OK;
    }

    method MarkPassCullable(pass: nat)
      requires Valid()
      modifies this`passes
      ensures Valid()
      ensures passes == if pass < |old(passes)| then old(passes)[pass := old(passes)[pass].(cullable := true)] else old(passes)
    {
      if pass < |passes| {
        passes := passes[pass := passes[pass].(cullable := true)];
      }
    }

    // Sets what happens when the first attachment write of the image by the pass begins.
    method SetAttachmentClear(pass: nat, image: nat, ops: Ops) returns (result: ALResult)
      requires Valid()
      modifies this`resources
      ensures Valid()
      ensures result == E_INVALIDARG <==> pass >= |passes| || image >= |old(resources)| || !old(resources)[image].Image?
      ensures result == E_INVALIDCALL ==> image < |old(resources)| && old(resources)[image].Image?
      ensures result == E_INVALIDCALL ==> forall use :: use in old(resources)[image].imageUses ==> !Attaches(use, pass)
      ensures result == S_OK ==> exists u :: SetAt(old(resources), image, pass, ops, u, resources)
      ensures result != S_OK ==> resources == old(resources)
    {
      if pass >= |passes| || image >= |resources| || !resources[image].Image? {
        return E_INVALIDARG;
      }
      var uses := resources[image].imageUses;
      for u := 0 to |uses|
        invariant forall k :: 0 <= k < u ==> !Attaches(uses[k], pass)
      {
        if uses[u].pass == pass && !uses[u].isRead && (uses[u].access == ColorAttachment || uses[u].access == DepthAttachment) {
          ghost var before := resources;
          var after := resources[image].(imageUses := uses[u := uses[u].(ops := ops)]);
          assert Touches(after) == Touches(resources[image]);
          resources := resources[image := after];
          assert SetAt(before, image, pass, ops, u, resources);
          return S_OK;
        }
      }
      result := E_INVALIDCALL;
    }

    method MarkPresented(image: nat) returns (result: ALResult)
      requires Valid()
      modifies this`resources
      ensures Valid()
      ensures result == S_OK <==> image < |old(resources)| && old(resources)[image].Image?
      ensures result == S_OK ==> resources == old(resources)[image := old(resources)[image].(presented := true)]
      ensures result != S_OK ==> resources == old(resources)
    {
      if image >= |resources| || !resources[image].Image? {
        return E_INVALIDARG;
      }
      var before := resources[image];
      var after := before.(presented := true);
      assert Touches(after) == Touches(before);
      resources := resources[image := after];
      result := S_OK;
    }

    /** Compilation succeeds exactly for the graphs it should, with the least order that respects the
        edges; in a pass-ordered graph that order is the ids themselves, and recording is clean. */
    method Compile() returns (result: CompileResult, ghost order: seq<nat>, ghost surviving: seq<bool>)
      requires Valid()
      ensures result.Compiled? <==> Compilable(Declared())
      ensures result.Compiled? ==> IsCompilation(Declared(), order, surviving, result)
      ensures result.Compiled? && PassOrdered(Declared()) ==>
        (forall i :: 0 <= i < |order| ==> order[i] == i) &&
        RecordsCleanly(Declared(), result.passes, result.imageBarriers) && RecordsInitialised(Declared(), result.passes)
      ensures result.Compiled? ==>
        (RecordsCleanly(Declared(), result.passes, result.imageBarriers) <==> LayoutsAgree(Declared(), Ids(|passes|), surviving))
      ensures result.Compiled? ==>
        (RecordsInitialised(Declared(), result.passes) <==> FrameFirstOnlyWrites(Declared(), Ids(|passes|), surviving))
      ensures result.Failed? ==> RefusedWith(Declared(), result.error)
    {
      order, surviving := [], [];
      if passes == [] { return Failed(NoPasses), [], []; }
      if resources == [] { return Failed(NoResources), [], []; }
      var g := Graph(resources, passes);
      var error := Validate(g);
      if error.Some? { return Failed(error.value), [], []; }
      var edges := BuildEdges(g);
      EdgesInRange(g);
      var selfEdge := FindSelfEdge(edges);
      if selfEdge.Some? {
        ghost var p := edges[selfEdge.value].from;
        assert HasEdge(edges, p, p);
        assert IsCycle(edges, [p, p]);
        assert HazardNamed(g, selfEdge.value, passes[edges[selfEdge.value].from].name);
        return Failed(SelfHazard(passes[edges[selfEdge.value].from].name)), [], [];
      }
      var sorted := OrderPasses(|passes|, edges);
      CompleteIffAcyclic(edges, |passes|, sorted);
      if |sorted| != |passes| { return Failed(CyclicGraph), [], []; }
      forall other | IsTopological(other, edges, |passes|)
        ensures sorted == other || LexicographicallyBefore(sorted, other)
      {
        GreedyIsLeast(edges, |passes|, sorted, other);
      }
      var kept := CullPasses(g, sorted);
      var numbered := NumberPasses(g, sorted, kept);
      WellFormedInRange(g);
      var images, buffers := EmitBarriers(g, kept);
      var lifetimes := FindLifetimes(resources, kept);
      var attachments := FindAttachments(resources, kept);
      result, order, surviving := Compiled(numbered, images, buffers, lifetimes, attachments), sorted, kept;
      RecordsCleanlyWhen(g, sorted, kept, numbered);
      RecordsInitialisedWhen(g, sorted, kept, numbered);
      if PassOrdered(g) {
        PassOrderedEdgesClimb(g);
        UpwardEdgesKeepIdOrder(edges, |passes|, sorted, |passes|);
        PassOrderedRecordsCleanly(g, sorted, kept, numbered);
        PassOrderedRecordsInitialised(g, sorted, kept, numbered);
      }
    }
  }

  // ------------------------------------------------------------------
  // Beyond pass-ordered graphs
  // ------------------------------------------------------------------

  const UNORDERED_GRAPH := Graph(
    [Image("shadow", Undefined, false,
           [Use(1, false, ColorAttachment, LOAD_OPS), Use(2, true, ImageShaderRead, LOAD_OPS), Use(0, true, ImageShaderRead, LOAD_OPS)])],
    [Pass("late", false), Pass("draw", false), Pass("first", false)])

  const UNORDERED_USES := UNORDERED_GRAPH.resources[0].imageUses

  lemma UnorderedEdges()
    ensures ResourceEdges(UNORDERED_GRAPH.resources) == [Edge(1, 2)]
    ensures IsTopological([0, 1, 2], [Edge(1, 2)], 3)
  {
    var t := Touches(UNORDERED_GRAPH.resources[0]);
    assert t == [Touch(1, false), Touch(2, true), Touch(0, true)];
    assert t[..2] == [Touch(1, false), Touch(2, true)];
    assert TouchEdges(t[..2][..1]) == [];
    assert TouchEdges(t[..2]) == [Edge(1, 2)];
    assert UNORDERED_GRAPH.resources[..0] == [];
  }

  lemma UnorderedLive(surviving: seq<bool>)
    requires surviving == [true, true, true]
    ensures UsesInRange(UNORDERED_USES, 3) && Live(UNORDERED_USES, surviving) == UNORDERED_USES
  {
    hide Live;
    var uses := UNORDERED_USES;
    NothingLive(uses, surviving);
    LiveExtends(uses, surviving, 0);
    LiveExtends(uses, surviving, 1);
    LiveExtends(uses, surviving, 2);
    assert uses[..3] == uses;
  }

  lemma UnorderedSurvive(order: seq<nat>, surviving: seq<bool>)
    requires Swept(UNORDERED_GRAPH, order, surviving) && order == [0, 1, 2]
    ensures surviving == [true, true, true]
  {
    assert JudgedAlive(UNORDERED_GRAPH, order, surviving, 0);
    assert JudgedAlive(UNORDERED_GRAPH, order, surviving, 1);
    assert JudgedAlive(UNORDERED_GRAPH, order, surviving, 2);
  }

  lemma UnorderedOrder(order: seq<nat>, surviving: seq<bool>, result: CompileResult)
    requires IsCompilation(UNORDERED_GRAPH, order, surviving, result)
    ensures Compilable(UNORDERED_GRAPH) && order == [0, 1, 2] && surviving == [true, true, true]
  {
    hide Swept, Numbered, AllImageBarriers, AllBufferBarriers, AreLifetimes, ResourceEdges, IsTopological;
    UnorderedEdges();
    TopologicalHasNoCycle([Edge(1, 2)], 3, [0, 1, 2]);
    UnorderedIsIdentity(order);
    UnorderedSurvive(order, surviving);
  }

  lemma UnorderedIsIdentity(order: seq<nat>)
    requires IsTopological(order, [Edge(1, 2)], 3) && (order == [0, 1, 2] || LexicographicallyBefore(order, [0, 1, 2]))
    ensures order == [0, 1, 2]
  {
    if order != [0, 1, 2] {
      NothingBeforeIdentity(order, [0, 1, 2]);
    }
  }

  lemma NothingBeforeIdentity(order: seq<nat>, identity: seq<nat>)
    requires IsPermutation(order, |identity|) && forall i :: 0 <= i < |identity| ==> identity[i] == i
    ensures !LexicographicallyBefore(order, identity)
  {
    forall k | 0 <= k < |order| && order[..k] == identity[..k]
      ensures order[k] >= k
    {
      forall v: nat | v < k
        ensures Fixed(order, v)
      {
        assert order[..k][v] == identity[..k][v];
      }
      assert Fixed(order, order[k]) || order[k] >= k;
    }
  }

  ghost predicate Fixed(order: seq<nat>, v: nat) {
    v < |order| && order[v] == v
  }

  /** Edges join only consecutive uses, so declarations out of pass order can compile into a frame whose
      first pass reads an image in the wrong layout, and before anything has written it. */
  lemma UnorderedUsesCanMisread(order: seq<nat>, surviving: seq<bool>, result: CompileResult)
    requires IsCompilation(UNORDERED_GRAPH, order, surviving, result)
    ensures Compilable(UNORDERED_GRAPH) && order == [0, 1, 2] && RecordedOrder(result.passes) == order
    ensures ResourcesInRange(UNORDERED_GRAPH.resources, 3) && !PassAgrees(UNORDERED_GRAPH, order, surviving, 0)
    ensures !CleanBefore(UNORDERED_GRAPH, result.imageBarriers, [], 0)
    ensures !RecordsCleanly(UNORDERED_GRAPH, result.passes, result.imageBarriers) && !RecordsInitialised(UNORDERED_GRAPH, result.passes)
    ensures UNORDERED_USES[2].pass == 0 && UNORDERED_USES[2].isRead && UNORDERED_GRAPH.resources[0].initialLayout == Undefined
    ensures forall i :: !WrittenFirst(UNORDERED_USES, surviving, order, i, 2)
  {
    hide CleanBefore, PassAgrees, EndsPresentable;
    UnorderedOrder(order, surviving, result);
    UnorderedRecorded(order, surviving, result);
    FirstPassMisreads(order, surviving);
    assert order[1] == UNORDERED_USES[0].pass && MadeBy(UNORDERED_USES, order[0], 2);
    assert order[..0] == [] && !WrittenEarlier(UNORDERED_USES, order, 0);
  }

  lemma FirstPassMisreads(order: seq<nat>, surviving: seq<bool>)
    requires order == [0, 1, 2] && surviving == [true, true, true]
    requires WellFormed(UNORDERED_GRAPH) && ResourcesInRange(UNORDERED_GRAPH.resources, 3)
    ensures !PassAgrees(UNORDERED_GRAPH, order, surviving, 0)
    ensures !CleanBefore(UNORDERED_GRAPH, AllImageBarriers(UNORDERED_GRAPH.resources, surviving), [], 0)
  {
    hide CleanBefore, UseAgrees;
    UnorderedLive(surviving);
    FirstUseDisagrees(order);
    PassCleanWhen(UNORDERED_GRAPH, order, surviving, 0);
    assert order[..0] == [];
  }

  lemma UnorderedRecorded(order: seq<nat>, surviving: seq<bool>, result: CompileResult)
    requires IsCompilation(UNORDERED_GRAPH, order, surviving, result) && order == [0, 1, 2] && surviving == [true, true, true]
    ensures RecordedOrder(result.passes) == order
    ensures ResourcesInRange(UNORDERED_GRAPH.resources, 3)
    ensures result.imageBarriers == AllImageBarriers(UNORDERED_GRAPH.resources, surviving)
  {
    hide RecordedOrder, Kept, Swept, IsTopological;
    RecordedIsKept(UNORDERED_GRAPH, result.passes, order, surviving, 3);
    assert order[..3] == order && result.passes[..3] == result.passes;
    AllKept(order, surviving);
  }

  lemma {:induction false} AllKept(order: seq<nat>, surviving: seq<bool>)
    requires forall i :: 0 <= i < |order| ==> order[i] < |surviving| && surviving[order[i]]
    ensures Kept(order, surviving) == order
  {
    if order != [] {
      AllKept(order[..|order| - 1], surviving);
    }
  }

  // Nothing has run before the first pass, but its use is declared behind two others.
  lemma FirstUseDisagrees(order: seq<nat>)
    requires order == [0, 1, 2]
    ensures !UseAgrees(Undefined, UNORDERED_USES, order, 0)
  {
    hide Agrees;
    assert order[..0] == [];
    assert MadeBy(UNORDERED_USES, order[0], 2);
    assert UNORDERED_USES[..2][1] == UNORDERED_USES[1];
    AgreesOnce(Undefined, UNORDERED_USES, order[0], Undefined);
  }
}
