/** Replaying the image barriers of a compiled graph, in whatever order its passes run.

    The barriers of an image follow its surviving uses in declaration order. They fit an
    execution exactly when each pass finds the layouts that they name (LayoutsAgree);
    running the uses as they were declared (UseOrdered) is enough.
*/
module BarrierReplay {
  import opened GraphModel
  import opened PassOrder
  import opened Culling
  import opened Barriers
  import opened Options

  // ------------------------------------------------------------------
  // Execution order of uses
  // ------------------------------------------------------------------

  ghost predicate RunsBefore(order: seq<nat>, p: nat, q: nat) {
    forall a, b :: 0 <= a < |order| && 0 <= b < |order| && order[a] == p && order[b] == q ==> a < b
  }

  // Each resource's uses run in the order in which they were declared.
  ghost predicate UseOrdered(g: Graph, order: seq<nat>) {
    forall r, i, j :: 0 <= r < |g.resources| && 0 <= i < j < |Touches(g.resources[r])| ==>
      RunsBefore(order, Touches(g.resources[r])[i].pass, Touches(g.resources[r])[j].pass)
  }

  lemma PassOrderedIsUseOrdered(g: Graph, order: seq<nat>)
    requires PassOrdered(g) && forall i :: 0 <= i < |order| ==> order[i] == i
    ensures UseOrdered(g, order)
  {
  }

  // The same statement about a list of uses.
  ghost predicate RunsInOrder<A>(uses: seq<Use<A>>, order: seq<nat>) {
    forall i, j :: 0 <= i < j < |uses| ==> RunsBefore(order, uses[i].pass, uses[j].pass)
  }

  lemma LiveRunsInOrder<A>(uses: seq<Use<A>>, surviving: seq<bool>, order: seq<nat>)
    requires UsesInRange(uses, |surviving|) && RunsInOrder(uses, order)
    ensures RunsInOrder(Live(uses, surviving), order)
    ensures forall k :: 0 <= k < |Live(uses, surviving)| ==>
      Live(uses, surviving)[k].pass < |surviving| && surviving[Live(uses, surviving)[k].pass]
  {
    LiveAtIndices(uses, surviving);
  }

  // ------------------------------------------------------------------
  // Replaying the image barriers
  // ------------------------------------------------------------------

  datatype Tracked = Mismatch | Tracked(layouts: seq<Layout>)

  // The recorder emits the barriers of a pass in list order; each must find its old layout.
  ghost function Apply(barriers: seq<ImageBarrier>, pass: nat, layouts: seq<Layout>): Tracked {
    if barriers == [] then Tracked(layouts)
    else
      var b := barriers[|barriers| - 1];
      match Apply(barriers[..|barriers| - 1], pass, layouts)
      case Mismatch => Mismatch
      case Tracked(now) =>
        if b.beforePass != pass then Tracked(now)
        else if b.resource < |now| && now[b.resource] == b.oldLayout then Tracked(now[b.resource := b.newLayout])
        else Mismatch
  }

  ghost function Replay(barriers: seq<ImageBarrier>, passes: seq<nat>, layouts: seq<Layout>): Tracked {
    if passes == [] then Tracked(layouts)
    else
      match Replay(barriers, passes[..|passes| - 1], layouts)
      case Mismatch => Mismatch
      case Tracked(now) => Apply(barriers, passes[|passes| - 1], now)
  }

  lemma {:induction false} ApplyConcat(a: seq<ImageBarrier>, b: seq<ImageBarrier>, pass: nat, layouts: seq<Layout>)
    ensures Apply(a + b, pass, layouts) ==
      match Apply(a, pass, layouts) case Mismatch => Mismatch case Tracked(now) => Apply(b, pass, now)
  {
    if b == [] {
      assert a + b == a;
    } else {
      assert (a + b)[..|a + b| - 1] == a + b[..|b| - 1];
      ApplyConcat(a, b[..|b| - 1], pass, layouts);
    }
  }

  lemma {:induction false} ApplyOther(barriers: seq<ImageBarrier>, pass: nat, layouts: seq<Layout>)
    requires forall i :: 0 <= i < |barriers| ==> barriers[i].beforePass != pass
    ensures Apply(barriers, pass, layouts) == Tracked(layouts)
  {
    if barriers != [] {
      ApplyOther(barriers[..|barriers| - 1], pass, layouts);
    }
  }

  // ------------------------------------------------------------------
  // One image before one pass
  // ------------------------------------------------------------------

  // The i-th use, if it is made by `p`, comes with a barrier: the layout changes or either side writes.
  ghost predicate HasBarrier(initial: Layout, live: seq<Use<ImageAccess>>, p: nat, i: int) {
    && MadeBy(live, p, i)
    && (LayoutAfter(initial, live[..i]) != ImageLayout(live[i].access) || (i > 0 && (!live[i - 1].isRead || !live[i].isRead)))
  }

  ghost predicate MadeBy<A>(live: seq<Use<A>>, p: nat, i: int) {
    0 <= i < |live| && live[i].pass == p
  }

  // Where the barriers before `p` take an image found in a layout, if they all fit.
  ghost function Carried(initial: Layout, live: seq<Use<ImageAccess>>, p: nat, found: Layout): Option<Layout> {
    if live == [] then Some(found)
    else
      var n := |live| - 1;
      match Carried(initial, live[..n], p, found)
      case None => None
      case Some(now) =>
        if !HasBarrier(initial, live, p, n) then Some(now)
        else if now == LayoutAfter(initial, live[..n]) then Some(ImageLayout(live[n].access))
        else None
  }

  lemma ApplyStep(r: nat, initial: Layout, live: seq<Use<ImageAccess>>, p: nat, layouts: seq<Layout>)
    requires live != [] && r < |layouts|
    ensures var n := |live| - 1;
      Apply(ImageStep(r, initial, live[..n], live[n]), p, layouts) ==
        if !HasBarrier(initial, live, p, n) then Tracked(layouts)
        else if layouts[r] == LayoutAfter(initial, live[..n]) then Tracked(layouts[r := ImageLayout(live[n].access)])
        else Mismatch
  {
    var n := |live| - 1;
    var step := ImageStep(r, initial, live[..n], live[n]);
    if step != [] {
      assert step[..0] == [];
    }
  }

  lemma {:induction false} ApplyIsCarried(r: nat, initial: Layout, live: seq<Use<ImageAccess>>, p: nat, layouts: seq<Layout>)
    requires r < |layouts|
    ensures Apply(ImageSteps(r, initial, live), p, layouts) ==
      match Carried(initial, live, p, layouts[r]) case None => Mismatch case Some(now) => Tracked(layouts[r := now])
  {
    hide HasBarrier, LayoutAfter, ImageStep;
    if live == [] {
      assert layouts[r := layouts[r]] == layouts;
    } else {
      var n := |live| - 1;
      ApplyIsCarried(r, initial, live[..n], p, layouts);
      ApplyConcat(ImageSteps(r, initial, live[..n]), ImageStep(r, initial, live[..n], live[n]), p, layouts);
      if Carried(initial, live[..n], p, layouts[r]).Some? {
        ApplyStep(r, initial, live, p, layouts[r := Carried(initial, live[..n], p, layouts[r]).value]);
      }
    }
  }

  ghost predicate BarrierBefore(initial: Layout, live: seq<Use<ImageAccess>>, p: nat, m: int) {
    exists i :: 0 <= i < m && HasBarrier(initial, live, p, i)
  }

  // The pass's uses need one layout.
  ghost predicate NeedsOnly(live: seq<Use<ImageAccess>>, p: nat, layout: Layout) {
    forall i :: MadeBy(live, p, i) ==> ImageLayout(live[i].access) == layout
  }

  // A use suits an image found in a layout: the first barrier of the pass names that layout, the later ones
  // the layout of the use itself, and without any barrier the image is already in it.
  ghost predicate Suits(initial: Layout, live: seq<Use<ImageAccess>>, p: nat, found: Layout, i: int)
    requires MadeBy(live, p, i)
  {
    var declared, needed := LayoutAfter(initial, live[..i]), ImageLayout(live[i].access);
    if BarrierBefore(initial, live, p, i) then declared == needed
    else if HasBarrier(initial, live, p, i) then declared == found
    else found == needed || BarrierBefore(initial, live, p, |live|)
  }

  ghost predicate Agrees(initial: Layout, live: seq<Use<ImageAccess>>, p: nat, found: Layout) {
    && (forall i, j :: MadeBy(live, p, i) && MadeBy(live, p, j) ==> ImageLayout(live[i].access) == ImageLayout(live[j].access))
    && (forall i :: MadeBy(live, p, i) ==> Suits(initial, live, p, found, i))
  }

  // What is left of Suits for the first uses of the pass.
  ghost predicate BarriersSuit(initial: Layout, live: seq<Use<ImageAccess>>, p: nat, found: Layout, needed: Layout, m: nat)
    requires m <= |live|
  {
    forall i :: 0 <= i < m ==> BarrierSuits(initial, live, p, found, needed, i)
  }

  ghost predicate BarrierSuits(initial: Layout, live: seq<Use<ImageAccess>>, p: nat, found: Layout, needed: Layout, i: int)
    requires 0 <= i < |live|
  {
    HasBarrier(initial, live, p, i) ==> LayoutAfter(initial, live[..i]) == if BarrierBefore(initial, live, p, i) then needed else found
  }

  lemma PrefixBarrier(initial: Layout, live: seq<Use<ImageAccess>>, p: nat, m: nat)
    requires m < |live|
    ensures HasBarrier(initial, live[..m + 1], p, m) <==> HasBarrier(initial, live, p, m)
    ensures live[..m + 1][..m] == live[..m]
  {
    assert live[..m + 1][..m] == live[..m];
  }

  lemma {:induction false} CarriedWhen(initial: Layout, live: seq<Use<ImageAccess>>, p: nat, found: Layout, needed: Layout, m: nat)
    requires m <= |live| && NeedsOnly(live, p, needed)
    ensures Carried(initial, live[..m], p, found) ==
      if !BarriersSuit(initial, live, p, found, needed, m) then None
      else if BarrierBefore(initial, live, p, m) then Some(needed) else Some(found)
    decreases m
  {
    hide LayoutAfter, HasBarrier, BarriersSuit, BarrierBefore, Carried, NeedsOnly, MadeBy;
    if m == 0 {
      CarriedNowhere(initial, live, p, found, needed);
    } else {
      CarriedWhen(initial, live, p, found, needed, m - 1);
      CarriedOn(initial, live, p, found, m - 1);
      OneMoreBarrier(initial, live, p, found, needed, m - 1);
    }
  }

  lemma CarriedNowhere(initial: Layout, live: seq<Use<ImageAccess>>, p: nat, found: Layout, needed: Layout)
    ensures Carried(initial, live[..0], p, found) == Some(found)
    ensures BarriersSuit(initial, live, p, found, needed, 0) && !BarrierBefore(initial, live, p, 0)
  {
  }

  lemma OneMoreBarrier(initial: Layout, live: seq<Use<ImageAccess>>, p: nat, found: Layout, needed: Layout, m: nat)
    requires m < |live| && NeedsOnly(live, p, needed)
    ensures BarrierBefore(initial, live, p, m + 1) <==> BarrierBefore(initial, live, p, m) || HasBarrier(initial, live, p, m)
    ensures BarriersSuit(initial, live, p, found, needed, m + 1) <==>
      BarriersSuit(initial, live, p, found, needed, m) && BarrierSuits(initial, live, p, found, needed, m)
    ensures HasBarrier(initial, live, p, m) ==> ImageLayout(live[m].access) == needed
  {
    OneMoreBefore(initial, live, p, m);
    assert HasBarrier(initial, live, p, m) ==> MadeBy(live, p, m);
    hide BarrierSuits, HasBarrier, BarrierBefore;
  }

  lemma OneMoreBefore(initial: Layout, live: seq<Use<ImageAccess>>, p: nat, m: nat)
    ensures BarrierBefore(initial, live, p, m + 1) <==> BarrierBefore(initial, live, p, m) || HasBarrier(initial, live, p, m)
  {
    hide HasBarrier;
  }

  lemma CarriedOn(initial: Layout, live: seq<Use<ImageAccess>>, p: nat, found: Layout, m: nat)
    requires m < |live|
    ensures Carried(initial, live[..m + 1], p, found) ==
      match Carried(initial, live[..m], p, found)
      case None => None
      case Some(now) =>
        if !HasBarrier(initial, live, p, m) then Some(now)
        else if now == LayoutAfter(initial, live[..m]) then Some(ImageLayout(live[m].access))
        else None
  {
    PrefixBarrier(initial, live, p, m);
    assert live[..m + 1][m] == live[m];
  }

  /** The barriers before a pass take an image to the one layout its uses need exactly if they agree with how
      it is found. */
  lemma AgreesWhenCarried(initial: Layout, live: seq<Use<ImageAccess>>, p: nat, found: Layout)
    ensures Agrees(initial, live, p, found) <==>
      Carried(initial, live, p, found).Some? && NeedsOnly(live, p, Carried(initial, live, p, found).value)
  {
    hide LayoutAfter, Carried, HasBarrier, Suits, BarriersSuit, BarrierBefore;
    assert live[..|live|] == live;
    if i :| MadeBy(live, p, i) {
      var needed := ImageLayout(live[i].access);
      if NeedsOnly(live, p, needed) {
        CarriedWhen(initial, live, p, found, needed, |live|);
        SuitsWhen(initial, live, p, found, needed, i);
      }
    } else {
      NothingToSuit(initial, live, p, found);
      CarriedWhen(initial, live, p, found, found, |live|);
    }
  }

  lemma NothingToSuit(initial: Layout, live: seq<Use<ImageAccess>>, p: nat, found: Layout)
    requires forall i :: !MadeBy(live, p, i)
    ensures NeedsOnly(live, p, found) && !BarrierBefore(initial, live, p, |live|)
    ensures BarriersSuit(initial, live, p, found, found, |live|)
  {
  }

  lemma SuitsWhen(initial: Layout, live: seq<Use<ImageAccess>>, p: nat, found: Layout, needed: Layout, use: int)
    requires NeedsOnly(live, p, needed) && MadeBy(live, p, use)
    ensures (forall i :: MadeBy(live, p, i) ==> Suits(initial, live, p, found, i)) <==>
      BarriersSuit(initial, live, p, found, needed, |live|) && (BarrierBefore(initial, live, p, |live|) || found == needed)
  {
    hide LayoutAfter;
    if forall i :: MadeBy(live, p, i) ==> Suits(initial, live, p, found, i) {
      assert Suits(initial, live, p, found, use);
      forall i | 0 <= i < |live|
        ensures BarrierSuits(initial, live, p, found, needed, i)
      {
        assert MadeBy(live, p, i) ==> Suits(initial, live, p, found, i);
      }
    }
    if BarriersSuit(initial, live, p, found, needed, |live|) && (BarrierBefore(initial, live, p, |live|) || found == needed) {
      forall i | MadeBy(live, p, i)
        ensures Suits(initial, live, p, found, i)
      {
        BarrierSuitsUse(initial, live, p, found, needed, i);
      }
    }
  }

  lemma BarrierSuitsUse(initial: Layout, live: seq<Use<ImageAccess>>, p: nat, found: Layout, needed: Layout, i: int)
    requires NeedsOnly(live, p, needed) && MadeBy(live, p, i)
    requires BarriersSuit(initial, live, p, found, needed, |live|) && (BarrierBefore(initial, live, p, |live|) || found == needed)
    ensures Suits(initial, live, p, found, i)
  {
    hide LayoutAfter, BarrierBefore;
    assert BarrierSuits(initial, live, p, found, needed, i);
  }

  // A pass that makes one use of the image agrees if its declared predecessor leaves the layout found.
  lemma AgreesOnce(initial: Layout, live: seq<Use<ImageAccess>>, p: nat, found: Layout)
    requires forall i, j :: MadeBy(live, p, i) && MadeBy(live, p, j) ==> i == j
    ensures Agrees(initial, live, p, found) <==> forall i :: MadeBy(live, p, i) ==> found == LayoutAfter(initial, live[..i])
  {
    hide LayoutAfter;
    if i :| MadeBy(live, p, i) {
      assert forall j :: MadeBy(live, p, j) ==> j == i;
      assert BarrierBefore(initial, live, p, |live|) <==> HasBarrier(initial, live, p, i);
      assert !BarrierBefore(initial, live, p, i);
    }
  }

  // ------------------------------------------------------------------
  // The uses as they run
  // ------------------------------------------------------------------

  ghost function UsesBy<A>(live: seq<Use<A>>, p: nat): seq<Use<A>> {
    if live == [] then []
    else
      var before, last := UsesBy(live[..|live| - 1], p), live[|live| - 1];
      if last.pass == p then before + [last] else before
  }

  // The surviving uses of the passes `done`, in the order in which those passes ran.
  ghost function RunUses<A>(live: seq<Use<A>>, done: seq<nat>): seq<Use<A>> {
    if done == [] then [] else RunUses(live, done[..|done| - 1]) + UsesBy(live, done[|done| - 1])
  }

  ghost predicate DistinctPasses<A>(uses: seq<Use<A>>) {
    forall i, j :: 0 <= i < j < |uses| ==> uses[i].pass != uses[j].pass
  }

  lemma {:induction false} NoUsesBy<A>(live: seq<Use<A>>, p: nat)
    requires forall i :: 0 <= i < |live| ==> live[i].pass != p
    ensures UsesBy(live, p) == []
  {
    if live != [] {
      NoUsesBy(live[..|live| - 1], p);
    }
  }

  lemma {:induction false} OneUseBy<A>(live: seq<Use<A>>, i: nat)
    requires DistinctPasses(live) && i < |live|
    ensures UsesBy(live, live[i].pass) == [live[i]]
  {
    var n := |live| - 1;
    if i < n {
      OneUseBy(live[..n], i);
    } else {
      NoUsesBy(live[..n], live[n].pass);
    }
  }

  lemma {:induction false} LastUseBy<A>(live: seq<Use<A>>, p: nat, i: int) returns (j: nat)
    requires MadeBy(live, p, i)
    ensures UsesBy(live, p) != [] && MadeBy(live, p, j) && UsesBy(live, p)[|UsesBy(live, p)| - 1] == live[j]
  {
    var n := |live| - 1;
    if live[n].pass == p {
      j := n;
    } else {
      j := LastUseBy(live[..n], p, i);
    }
  }

  lemma RunOneMore<A>(live: seq<Use<A>>, order: seq<nat>, k: nat)
    requires k < |order|
    ensures RunUses(live, order[..k + 1]) == RunUses(live, order[..k]) + UsesBy(live, order[k])
  {
    assert order[..k + 1][..k] == order[..k];
  }

  ghost function RunLayout(resource: Resource, surviving: seq<bool>, done: seq<nat>): Layout
    requires resource.Image? ==> UsesInRange(resource.imageUses, |surviving|)
  {
    match resource
    case Image(_, initial, _, uses) => LayoutAfter(initial, RunUses(Live(uses, surviving), done))
    case Buffer(_, _) => Undefined
  }

  ghost function InitialLayouts(g: Graph): seq<Layout> {
    seq(|g.resources|, r requires 0 <= r < |g.resources| =>
      if g.resources[r].Image? then g.resources[r].initialLayout else Undefined)
  }

  // The layout of every image once the passes `done` have run, if none found a wrong one.
  ghost function RunLayouts(g: Graph, surviving: seq<bool>, done: seq<nat>): seq<Layout>
    requires ResourcesInRange(g.resources, |surviving|)
  {
    seq(|g.resources|, r requires 0 <= r < |g.resources| => RunLayout(g.resources[r], surviving, done))
  }

  // ------------------------------------------------------------------
  // Where execution agrees with the declarations
  // ------------------------------------------------------------------

  // The k-th pass agrees with how it finds an image: in the layout that the last surviving use to run leaves.
  ghost predicate UseAgrees(initial: Layout, live: seq<Use<ImageAccess>>, order: seq<nat>, k: nat)
    requires k < |order|
  {
    Agrees(initial, live, order[k], LayoutAfter(initial, RunUses(live, order[..k])))
  }

  ghost predicate PassAgrees(g: Graph, order: seq<nat>, surviving: seq<bool>, k: nat)
    requires ResourcesInRange(g.resources, |surviving|) && k < |order|
  {
    forall r :: 0 <= r < |g.resources| && g.resources[r].Image? ==>
      UseAgrees(g.resources[r].initialLayout, Live(g.resources[r].imageUses, surviving), order, k)
  }

  // The last surviving use that runs and the last one declared leave presented images in the same layout.
  ghost predicate EndAgrees(g: Graph, order: seq<nat>, surviving: seq<bool>)
    requires ResourcesInRange(g.resources, |surviving|)
  {
    forall r :: 0 <= r < |g.resources| && IsPresented(g.resources[r]) ==>
      var initial, live := g.resources[r].initialLayout, Live(g.resources[r].imageUses, surviving);
      LayoutAfter(initial, RunUses(live, order)) == LayoutAfter(initial, live)
  }

  ghost predicate LayoutsAgree(g: Graph, order: seq<nat>, surviving: seq<bool>)
    requires ResourcesInRange(g.resources, |surviving|)
  {
    (forall k :: 0 <= k < |order| ==> PassAgrees(g, order, surviving, k)) && EndAgrees(g, order, surviving)
  }

  // ------------------------------------------------------------------
  // Agreement is enough
  // ------------------------------------------------------------------

  lemma LayoutAfterMore(initial: Layout, before: seq<Use<ImageAccess>>, more: seq<Use<ImageAccess>>)
    requires more != []
    ensures LayoutAfter(initial, before + more) == ImageLayout(more[|more| - 1].access)
  {
    assert (before + more)[|before + more| - 1] == more[|more| - 1];
  }

  lemma ApplyLive(r: nat, initial: Layout, live: seq<Use<ImageAccess>>, order: seq<nat>, k: nat, layouts: seq<Layout>)
    requires k < |order| && UseAgrees(initial, live, order, k)
    requires r < |layouts| && layouts[r] == LayoutAfter(initial, RunUses(live, order[..k]))
    ensures Apply(ImageSteps(r, initial, live), order[k], layouts) ==
      Tracked(layouts[r := LayoutAfter(initial, RunUses(live, order[..k + 1]))])
  {
    hide Apply, ImageSteps, LayoutAfter, RunUses, UsesBy, Agrees;
    AgreesWhenCarried(initial, live, order[k], layouts[r]);
    ApplyIsCarried(r, initial, live, order[k], layouts);
    CarriedIsRun(initial, live, order, k);
  }

  // Where the barriers take the image is where the pass leaves it.
  lemma CarriedIsRun(initial: Layout, live: seq<Use<ImageAccess>>, order: seq<nat>, k: nat)
    requires k < |order|
    requires var carried := Carried(initial, live, order[k], LayoutAfter(initial, RunUses(live, order[..k])));
      carried.Some? && NeedsOnly(live, order[k], carried.value)
    ensures Carried(initial, live, order[k], LayoutAfter(initial, RunUses(live, order[..k]))) ==
      Some(LayoutAfter(initial, RunUses(live, order[..k + 1])))
  {
    hide LayoutAfter, RunUses, UsesBy, Carried;
    var before, found := RunUses(live, order[..k]), LayoutAfter(initial, RunUses(live, order[..k]));
    RunOneMore(live, order, k);
    if i :| MadeBy(live, order[k], i) {
      var j := LastUseBy(live, order[k], i);
      LayoutAfterMore(initial, before, UsesBy(live, order[k]));
    } else {
      assert forall i :: 0 <= i < |live| ==> MadeBy(live, order[k], i) || live[i].pass != order[k];
      NoUsesBy(live, order[k]);
      assert before + [] == before;
      NothingToSuit(initial, live, order[k], found);
      CarriedWhen(initial, live, order[k], found, found, |live|);
      assert live[..|live|] == live;
    }
  }

  lemma {:induction false} StepsElsewhere(r: nat, initial: Layout, live: seq<Use<ImageAccess>>, pass: nat)
    requires forall i :: 0 <= i < |live| ==> live[i].pass != pass
    ensures forall i :: 0 <= i < |ImageSteps(r, initial, live)| ==> ImageSteps(r, initial, live)[i].beforePass != pass
  {
    if live != [] {
      StepsElsewhere(r, initial, live[..|live| - 1], pass);
    }
  }

  // The closing barrier of a presented image does not fire before a pass.
  lemma ApplyWithoutPresent(r: nat, resource: Resource, surviving: seq<bool>, pass: nat, layouts: seq<Layout>)
    requires resource.Image? && UsesInRange(resource.imageUses, |surviving|) && pass != INVALID_ID
    ensures Apply(ImageBarriersOf(r, resource, surviving), pass, layouts) ==
      Apply(ImageSteps(r, resource.initialLayout, Live(resource.imageUses, surviving)), pass, layouts)
  {
    var live := Live(resource.imageUses, surviving);
    if resource.imageUses != [] {
      var steps, present := ImageSteps(r, resource.initialLayout, live), [PresentStep(r, resource.initialLayout, live)];
      ApplyConcat(steps, present, pass, layouts);
      match Apply(steps, pass, layouts) {
        case Mismatch =>
        case Tracked(now) => ApplyOther(present, pass, now);
      }
    }
  }

  // The resource's own barriers before `pass` take it from one layout to another and touch nothing else.
  ghost predicate Moves(r: nat, resource: Resource, surviving: seq<bool>, pass: nat, before: Layout, after: Layout)
    requires resource.Image? ==> UsesInRange(resource.imageUses, |surviving|)
  {
    forall layouts: seq<Layout> :: r < |layouts| && layouts[r] == before ==>
      Apply(ImageBarriersOf(r, resource, surviving), pass, layouts) == Tracked(layouts[r := after])
  }

  lemma MoveOne(r: nat, resource: Resource, surviving: seq<bool>, pass: nat, before: seq<Layout>, after: seq<Layout>)
    requires resource.Image? ==> UsesInRange(resource.imageUses, |surviving|)
    requires r < |before| == |after| && Moves(r, resource, surviving, pass, before[r], after[r])
    ensures Apply(ImageBarriersOf(r, resource, surviving), pass, after[..r] + before[r..]) ==
      Tracked(after[..r + 1] + before[r + 1..])
  {
    hide Apply, ImageBarriersOf;
    var now := after[..r] + before[r..];
    assert now[r] == before[r];
    assert now[r := after[r]] == after[..r + 1] + before[r + 1..];
  }

  lemma {:induction false} ApplyAll(resources: seq<Resource>, surviving: seq<bool>, pass: nat, before: seq<Layout>, after: seq<Layout>)
    requires ResourcesInRange(resources, |surviving|) && |resources| <= |before| == |after|
    requires forall r :: 0 <= r < |resources| ==> Moves(r, resources[r], surviving, pass, before[r], after[r])
    ensures Apply(AllImageBarriers(resources, surviving), pass, before) ==
      Tracked(after[..|resources|] + before[|resources|..])
  {
    if resources == [] {
      assert after[..0] + before[0..] == before;
    } else {
      var n := |resources| - 1;
      ApplyAll(resources[..n], surviving, pass, before, after);
      ApplyConcat(AllImageBarriers(resources[..n], surviving), ImageBarriersOf(n, resources[n], surviving), pass, before);
      MoveOne(n, resources[n], surviving, pass, before, after);
    }
  }

  lemma ApplyBeforePass(g: Graph, order: seq<nat>, surviving: seq<bool>, k: nat)
    requires ResourcesInRange(g.resources, |surviving|) && k < |order| && order[k] != INVALID_ID
    requires PassAgrees(g, order, surviving, k)
    ensures Apply(AllImageBarriers(g.resources, surviving), order[k], RunLayouts(g, surviving, order[..k])) ==
      Tracked(RunLayouts(g, surviving, order[..k + 1]))
  {
    hide Apply, AllImageBarriers, ImageBarriersOf, UseAgrees, Live;
    var before, after := RunLayouts(g, surviving, order[..k]), RunLayouts(g, surviving, order[..k + 1]);
    forall r | 0 <= r < |g.resources|
      ensures Moves(r, g.resources[r], surviving, order[k], before[r], after[r])
    {
      forall layouts: seq<Layout> | r < |layouts| && layouts[r] == before[r]
        ensures Apply(ImageBarriersOf(r, g.resources[r], surviving), order[k], layouts) == Tracked(layouts[r := after[r]])
      {
        ApplyResource(r, g.resources[r], surviving, order, k, layouts);
      }
    }
    ApplyAll(g.resources, surviving, order[k], before, after);
    assert after[..|g.resources|] + before[|g.resources|..] == after;
  }

  // The barriers of one resource, applied before the k-th pass, bring it to where that pass needs it.
  lemma ApplyResource(r: nat, resource: Resource, surviving: seq<bool>, order: seq<nat>, k: nat, layouts: seq<Layout>)
    requires k < |order| && order[k] != INVALID_ID
    requires resource.Image? ==> UsesInRange(resource.imageUses, |surviving|)
    requires resource.Image? ==> UseAgrees(resource.initialLayout, Live(resource.imageUses, surviving), order, k)
    requires r < |layouts| && layouts[r] == RunLayout(resource, surviving, order[..k])
    ensures Apply(ImageBarriersOf(r, resource, surviving), order[k], layouts) ==
      Tracked(layouts[r := RunLayout(resource, surviving, order[..k + 1])])
  {
    hide Live, ImageSteps, UseAgrees, RunUses;
    if resource.Buffer? {
      assert layouts[r := layouts[r]] == layouts;
    } else {
      ApplyLive(r, resource.initialLayout, Live(resource.imageUses, surviving), order, k, layouts);
      ApplyWithoutPresent(r, resource, surviving, order[k], layouts);
    }
  }

  lemma {:induction false} ReplayTo(g: Graph, order: seq<nat>, surviving: seq<bool>, k: nat)
    requires WellFormed(g) && ResourcesInRange(g.resources, |g.passes|) && |surviving| == |g.passes|
    requires IsPermutation(order, |g.passes|) && k <= |order|
    requires forall j :: 0 <= j < k ==> PassAgrees(g, order, surviving, j)
    ensures Replay(AllImageBarriers(g.resources, surviving), Kept(order[..k], surviving), InitialLayouts(g)) ==
      Tracked(RunLayouts(g, surviving, order[..k]))
    decreases k
  {
    hide PassAgrees, AllImageBarriers, Apply;
    if k == 0 {
      assert order[..0] == [];
      assert InitialLayouts(g) == RunLayouts(g, surviving, []);
    } else {
      ReplayTo(g, order, surviving, k - 1);
      ReplayOneMore(g, order, surviving, k);
    }
  }

  lemma ReplayOneMore(g: Graph, order: seq<nat>, surviving: seq<bool>, k: nat)
    requires WellFormed(g) && ResourcesInRange(g.resources, |g.passes|) && |surviving| == |g.passes|
    requires IsPermutation(order, |g.passes|) && 0 < k <= |order| && PassAgrees(g, order, surviving, k - 1)
    requires Replay(AllImageBarriers(g.resources, surviving), Kept(order[..k - 1], surviving), InitialLayouts(g)) ==
      Tracked(RunLayouts(g, surviving, order[..k - 1]))
    ensures Replay(AllImageBarriers(g.resources, surviving), Kept(order[..k], surviving), InitialLayouts(g)) ==
      Tracked(RunLayouts(g, surviving, order[..k]))
  {
    hide Apply, AllImageBarriers, RunLayouts, InitialLayouts, PassAgrees;
    assert order[..k][..k - 1] == order[..k - 1];
    if surviving[order[k - 1]] {
      ApplyBeforePass(g, order, surviving, k - 1);
      var kept := Kept(order[..k], surviving);
      assert kept[..|kept| - 1] == Kept(order[..k - 1], surviving);
    } else {
      CulledPassMovesNothing(g, order, surviving, k - 1);
    }
  }

  // A culled pass makes no surviving use.
  lemma CulledPassMovesNothing(g: Graph, order: seq<nat>, surviving: seq<bool>, k: nat)
    requires ResourcesInRange(g.resources, |surviving|)
    requires k < |order| && order[k] < |surviving| && !surviving[order[k]]
    ensures RunLayouts(g, surviving, order[..k + 1]) == RunLayouts(g, surviving, order[..k])
    ensures PassAgrees(g, order, surviving, k)
  {
    hide Live, RunUses, UsesBy, LayoutAfter;
    forall r | 0 <= r < |g.resources|
      ensures RunLayout(g.resources[r], surviving, order[..k + 1]) == RunLayout(g.resources[r], surviving, order[..k])
      ensures g.resources[r].Image? ==>
        UseAgrees(g.resources[r].initialLayout, Live(g.resources[r].imageUses, surviving), order, k)
    {
      if g.resources[r].Image? {
        var live := Live(g.resources[r].imageUses, surviving);
        LiveSurvives(g.resources[r].imageUses, surviving);
        assert forall i :: !MadeBy(live, order[k], i);
        NoUsesBy(live, order[k]);
        RunOneMore(live, order, k);
        assert RunUses(live, order[..k]) + [] == RunUses(live, order[..k]);
      }
    }
  }

  // After the barriers before a pass, each image it uses is in the layout that use needs.
  lemma UseFindsLayout(g: Graph, order: seq<nat>, surviving: seq<bool>, k: nat, r: nat, i: nat)
    requires ResourcesInRange(g.resources, |surviving|) && k < |order| && order[k] < |surviving| && surviving[order[k]]
    requires PassAgrees(g, order, surviving, k)
    requires r < |g.resources| && g.resources[r].Image? && i < |g.resources[r].imageUses|
    requires g.resources[r].imageUses[i].pass == order[k]
    ensures RunLayouts(g, surviving, order[..k + 1])[r] == ImageLayout(g.resources[r].imageUses[i].access)
  {
    hide Live, RunUses, UsesBy, LayoutAfter;
    var uses, initial := g.resources[r].imageUses, g.resources[r].initialLayout;
    var live := Live(uses, surviving);
    var j := LivePosition(uses, surviving, i);
    assert MadeBy(live, order[k], j);
    assert UseAgrees(initial, live, order, k);
    RunOneMore(live, order, k);
    var last := LastUseBy(live, order[k], j);
    LayoutAfterMore(initial, RunUses(live, order[..k]), UsesBy(live, order[k]));
  }

  lemma LivePosition<A>(uses: seq<Use<A>>, surviving: seq<bool>, i: nat) returns (j: nat)
    requires UsesInRange(uses, |surviving|) && i < |uses| && surviving[uses[i].pass]
    ensures j < |Live(uses, surviving)| && Live(uses, surviving)[j] == uses[i]
  {
    var at := LiveIndices(uses, surviving);
    LiveAtIndices(uses, surviving);
    assert i in at;
    j :| 0 <= j < |at| && at[j] == i;
  }

  ghost predicate PresentedAreUsed(g: Graph) {
    forall r :: 0 <= r < |g.resources| && IsPresented(g.resources[r]) ==> g.resources[r].imageUses != []
  }

  ghost function PresentedLayouts(g: Graph, layouts: seq<Layout>): (out: seq<Layout>)
    requires |layouts| == |g.resources|
    ensures |out| == |layouts|
  {
    seq(|layouts|, r requires 0 <= r < |layouts| => if IsPresented(g.resources[r]) then PresentSrc else layouts[r])
  }

  lemma ApplyBeforePresent(g: Graph, order: seq<nat>, surviving: seq<bool>)
    requires ResourcesInRange(g.resources, |surviving|) && |surviving| <= MAX_PASS_COUNT
    requires PresentedAreUsed(g) && EndAgrees(g, order, surviving)
    ensures Apply(AllImageBarriers(g.resources, surviving), INVALID_ID, RunLayouts(g, surviving, order)) ==
      Tracked(PresentedLayouts(g, RunLayouts(g, surviving, order)))
  {
    hide Apply, AllImageBarriers, ImageBarriersOf, Live, RunUses;
    var before := RunLayouts(g, surviving, order);
    var after := PresentedLayouts(g, before);
    forall r | 0 <= r < |g.resources|
      ensures Moves(r, g.resources[r], surviving, INVALID_ID, before[r], after[r])
    {
      forall layouts: seq<Layout> | r < |layouts| && layouts[r] == before[r]
        ensures Apply(ImageBarriersOf(r, g.resources[r], surviving), INVALID_ID, layouts) == Tracked(layouts[r := after[r]])
      {
        PresentResource(r, g.resources[r], surviving, layouts);
      }
    }
    ApplyAll(g.resources, surviving, INVALID_ID, before, after);
    assert after[..|g.resources|] + before[|g.resources|..] == after;
  }

  // The closing barrier of a presented image fires, and needs the layout that the last declared use leaves.
  lemma PresentResource(r: nat, resource: Resource, surviving: seq<bool>, layouts: seq<Layout>)
    requires resource.Image? ==> UsesInRange(resource.imageUses, |surviving|) && |surviving| <= MAX_PASS_COUNT
    requires r < |layouts| && (IsPresented(resource) ==> resource.imageUses != [])
    ensures !IsPresented(resource) ==> Apply(ImageBarriersOf(r, resource, surviving), INVALID_ID, layouts) == Tracked(layouts)
    ensures !IsPresented(resource) ==> layouts == layouts[r := layouts[r]]
    ensures IsPresented(resource) ==>
      Apply(ImageBarriersOf(r, resource, surviving), INVALID_ID, layouts) ==
      if layouts[r] == LayoutAfter(resource.initialLayout, Live(resource.imageUses, surviving)) then Tracked(layouts[r := PresentSrc])
      else Mismatch
  {
    hide Apply, Live, ImageSteps, LayoutAfter, PresentStep;
    assert layouts[r := layouts[r]] == layouts;
    if resource.Buffer? || resource.imageUses == [] {
      ApplyOther([], INVALID_ID, layouts);
    } else {
      var live := Live(resource.imageUses, surviving);
      LiveSurvives(resource.imageUses, surviving);
      var steps, present := ImageSteps(r, resource.initialLayout, live), PresentStep(r, resource.initialLayout, live);
      StepsElsewhere(r, resource.initialLayout, live, INVALID_ID);
      ApplyOther(steps, INVALID_ID, layouts);
      ApplyConcat(steps, [present], INVALID_ID, layouts);
      ApplyPresent(r, resource.initialLayout, live, layouts);
    }
  }

  lemma LiveSurvives<A>(uses: seq<Use<A>>, surviving: seq<bool>)
    requires UsesInRange(uses, |surviving|)
    ensures forall k :: 0 <= k < |Live(uses, surviving)| ==>
      Live(uses, surviving)[k].pass < |surviving| && surviving[Live(uses, surviving)[k].pass]
  {
    LiveAtIndices(uses, surviving);
  }

  lemma ApplyPresent(r: nat, initial: Layout, live: seq<Use<ImageAccess>>, layouts: seq<Layout>)
    requires r < |layouts|
    ensures Apply([PresentStep(r, initial, live)], INVALID_ID, layouts) ==
      if layouts[r] == LayoutAfter(initial, live) then Tracked(layouts[r := PresentSrc]) else Mismatch
  {
    assert [PresentStep(r, initial, live)][..0] == [];
  }

  // Every image the pass uses is in the layout that use needs.
  ghost predicate ReadyFor(g: Graph, p: nat, layouts: seq<Layout>) {
    && |layouts| == |g.resources|
    && forall r, i ::
         (0 <= r < |g.resources| && g.resources[r].Image? && 0 <= i < |g.resources[r].imageUses| && g.resources[r].imageUses[i].pass == p)
         ==> layouts[r] == ImageLayout(g.resources[r].imageUses[i].access)
  }

  // After the passes `ran`, the barriers before `p` find their old layouts and make `p` ready.
  ghost predicate CleanBefore(g: Graph, barriers: seq<ImageBarrier>, ran: seq<nat>, p: nat) {
    match Replay(barriers, ran, InitialLayouts(g))
    case Mismatch => false
    case Tracked(now) =>
      match Apply(barriers, p, now)
      case Mismatch => false
      case Tracked(ready) => ReadyFor(g, p, ready)
  }

  // After the passes `ran`, the closing barriers leave every presented image ready to present.
  ghost predicate EndsPresentable(g: Graph, barriers: seq<ImageBarrier>, ran: seq<nat>) {
    match Replay(barriers, ran, InitialLayouts(g))
    case Mismatch => false
    case Tracked(now) =>
      match Apply(barriers, INVALID_ID, now)
      case Mismatch => false
      case Tracked(shown) =>
        |shown| == |g.resources| && forall r :: 0 <= r < |g.resources| && IsPresented(g.resources[r]) ==> shown[r] == PresentSrc
  }

  // ------------------------------------------------------------------
  // Agreement is needed
  // ------------------------------------------------------------------

  // Barriers of one resource depend on its layout only, and change nothing else.
  lemma {:induction false} ApplyLocal(barriers: seq<ImageBarrier>, r: nat, pass: nat, a: seq<Layout>, b: seq<Layout>)
    requires |a| == |b| && r < |a| && a[r] == b[r] && forall i :: 0 <= i < |barriers| ==> barriers[i].resource == r
    ensures Apply(barriers, pass, a).Mismatch? <==> Apply(barriers, pass, b).Mismatch?
    ensures Apply(barriers, pass, a).Tracked? ==>
      var x, y := Apply(barriers, pass, a).layouts, Apply(barriers, pass, b).layouts;
      |x| == |y| == |a| && x[r] == y[r] && forall j :: 0 <= j < |a| && j != r ==> x[j] == a[j]
  {
    if barriers != [] {
      ApplyLocal(barriers[..|barriers| - 1], r, pass, a, b);
    }
  }

  lemma {:induction false} ApplyUntouched(barriers: seq<ImageBarrier>, j: nat, pass: nat, layouts: seq<Layout>)
    requires j < |layouts| && forall i :: 0 <= i < |barriers| ==> barriers[i].resource != j
    ensures var after := Apply(barriers, pass, layouts);
      after.Tracked? ==> |after.layouts| == |layouts| && after.layouts[j] == layouts[j]
  {
    if barriers != [] {
      ApplyUntouched(barriers[..|barriers| - 1], j, pass, layouts);
    }
  }

  lemma {:induction false} StepsOfResource(r: nat, initial: Layout, live: seq<Use<ImageAccess>>)
    ensures forall i :: 0 <= i < |ImageSteps(r, initial, live)| ==> ImageSteps(r, initial, live)[i].resource == r
  {
    if live != [] {
      StepsOfResource(r, initial, live[..|live| - 1]);
    }
  }

  lemma BarriersOfResource(r: nat, resource: Resource, surviving: seq<bool>)
    requires resource.Image? ==> UsesInRange(resource.imageUses, |surviving|)
    ensures forall i :: 0 <= i < |ImageBarriersOf(r, resource, surviving)| ==> ImageBarriersOf(r, resource, surviving)[i].resource == r
  {
    if resource.Image? {
      StepsOfResource(r, resource.initialLayout, Live(resource.imageUses, surviving));
    }
  }

  lemma {:induction false} BarriersBelow(resources: seq<Resource>, surviving: seq<bool>)
    requires ResourcesInRange(resources, |surviving|)
    ensures forall i :: 0 <= i < |AllImageBarriers(resources, surviving)| ==>
      AllImageBarriers(resources, surviving)[i].resource < |resources|
  {
    if resources != [] {
      BarriersBelow(resources[..|resources| - 1], surviving);
      BarriersOfResource(|resources| - 1, resources[|resources| - 1], surviving);
    }
  }

  // What all barriers do to one resource, its own barriers do alone.
  lemma {:induction false} ApplyProjects(resources: seq<Resource>, surviving: seq<bool>, pass: nat, layouts: seq<Layout>, r: nat)
    requires ResourcesInRange(resources, |surviving|) && r < |resources| <= |layouts|
    requires Apply(AllImageBarriers(resources, surviving), pass, layouts).Tracked?
    ensures var all, own := Apply(AllImageBarriers(resources, surviving), pass, layouts), Apply(ImageBarriersOf(r, resources[r], surviving), pass, layouts);
      own.Tracked? && |own.layouts| == |all.layouts| == |layouts| && own.layouts[r] == all.layouts[r]
    decreases |resources|
  {
    hide Apply, ImageBarriersOf;
    var n := |resources| - 1;
    var first, second := AllImageBarriers(resources[..n], surviving), ImageBarriersOf(n, resources[n], surviving);
    ApplyConcat(first, second, pass, layouts);
    BarriersBelow(resources[..n], surviving);
    BarriersOfResource(n, resources[n], surviving);
    ApplyUntouched(first, n, pass, layouts);
    var middle := Apply(first, pass, layouts).layouts;
    if r < n {
      ApplyProjects(resources[..n], surviving, pass, layouts, r);
      ApplyUntouched(second, r, pass, middle);
    } else {
      ApplyLocal(second, n, pass, layouts, middle);
    }
  }

  lemma LiveUse<A>(uses: seq<Use<A>>, surviving: seq<bool>, i: nat) returns (j: nat)
    requires UsesInRange(uses, |surviving|) && i < |Live(uses, surviving)|
    ensures j < |uses| && uses[j] == Live(uses, surviving)[i]
  {
    LiveAtIndices(uses, surviving);
    j := LiveIndices(uses, surviving)[i];
  }

  // A pass that disagrees finds a barrier that does not fit, or an image in a wrong layout.
  lemma DisagreementShows(g: Graph, order: seq<nat>, surviving: seq<bool>, k: nat)
    requires ResourcesInRange(g.resources, |surviving|) && k < |order| && order[k] != INVALID_ID
    requires !PassAgrees(g, order, surviving, k)
    ensures var after := Apply(AllImageBarriers(g.resources, surviving), order[k], RunLayouts(g, surviving, order[..k]));
      after.Mismatch? || !ReadyFor(g, order[k], after.layouts)
  {
    hide Apply, AllImageBarriers, ImageBarriersOf, Live, RunUses, LayoutAfter, Agrees;
    var layouts := RunLayouts(g, surviving, order[..k]);
    var after := Apply(AllImageBarriers(g.resources, surviving), order[k], layouts);
    if after.Tracked? {
      var r :| 0 <= r < |g.resources| && g.resources[r].Image? &&
        !UseAgrees(g.resources[r].initialLayout, Live(g.resources[r].imageUses, surviving), order, k);
      ApplyProjects(g.resources, surviving, order[k], layouts, r);
      var j := ResourceDisagrees(r, g.resources[r], surviving, order[k], layouts);
      assert g.resources[r].imageUses[j].pass == order[k];
    }
  }

  lemma ResourceDisagrees(r: nat, resource: Resource, surviving: seq<bool>, p: nat, layouts: seq<Layout>) returns (j: nat)
    requires resource.Image? && UsesInRange(resource.imageUses, |surviving|) && r < |layouts| && p != INVALID_ID
    requires !Agrees(resource.initialLayout, Live(resource.imageUses, surviving), p, layouts[r])
    requires Apply(ImageBarriersOf(r, resource, surviving), p, layouts).Tracked?
    ensures var after := Apply(ImageBarriersOf(r, resource, surviving), p, layouts).layouts;
      j < |resource.imageUses| && resource.imageUses[j].pass == p && r < |after| &&
      after[r] != ImageLayout(resource.imageUses[j].access)
  {
    hide Apply, ImageBarriersOf, Live, LayoutAfter, ImageSteps, Agrees, Carried;
    var initial, live := resource.initialLayout, Live(resource.imageUses, surviving);
    ApplyWithoutPresent(r, resource, surviving, p, layouts);
    ApplyIsCarried(r, initial, live, p, layouts);
    AgreesWhenCarried(initial, live, p, layouts[r]);
    var i :| MadeBy(live, p, i) && ImageLayout(live[i].access) != Carried(initial, live, p, layouts[r]).value;
    j := LiveUse(resource.imageUses, surviving, i);
  }

  lemma PassCleanWhen(g: Graph, order: seq<nat>, surviving: seq<bool>, k: nat)
    requires WellFormed(g) && ResourcesInRange(g.resources, |g.passes|) && |surviving| == |g.passes|
    requires IsPermutation(order, |g.passes|) && k < |order| && surviving[order[k]]
    requires forall j :: 0 <= j < k ==> PassAgrees(g, order, surviving, j)
    ensures CleanBefore(g, AllImageBarriers(g.resources, surviving), Kept(order[..k], surviving), order[k]) <==>
      PassAgrees(g, order, surviving, k)
  {
    hide Apply, AllImageBarriers, PassAgrees;
    ReplayTo(g, order, surviving, k);
    if PassAgrees(g, order, surviving, k) {
      ApplyBeforePass(g, order, surviving, k);
      var ready := RunLayouts(g, surviving, order[..k + 1]);
      forall r, i | 0 <= r < |g.resources| && g.resources[r].Image? && 0 <= i < |g.resources[r].imageUses| && g.resources[r].imageUses[i].pass == order[k]
        ensures ready[r] == ImageLayout(g.resources[r].imageUses[i].access)
      {
        UseFindsLayout(g, order, surviving, k, r, i);
      }
    } else {
      DisagreementShows(g, order, surviving, k);
    }
  }

  lemma EndCleanWhen(g: Graph, order: seq<nat>, surviving: seq<bool>)
    requires WellFormed(g) && ResourcesInRange(g.resources, |g.passes|) && |surviving| == |g.passes|
    requires IsPermutation(order, |g.passes|) && PresentedAreUsed(g)
    requires forall k :: 0 <= k < |order| ==> PassAgrees(g, order, surviving, k)
    ensures EndsPresentable(g, AllImageBarriers(g.resources, surviving), Kept(order, surviving)) <==> EndAgrees(g, order, surviving)
  {
    hide Apply, AllImageBarriers, ImageBarriersOf, PassAgrees, Live, RunUses, LayoutAfter;
    ReplayTo(g, order, surviving, |order|);
    assert order[..|order|] == order;
    if EndAgrees(g, order, surviving) {
      ApplyBeforePresent(g, order, surviving);
    } else {
      var r :| 0 <= r < |g.resources| && IsPresented(g.resources[r]) &&
        LayoutAfter(g.resources[r].initialLayout, RunUses(Live(g.resources[r].imageUses, surviving), order)) !=
        LayoutAfter(g.resources[r].initialLayout, Live(g.resources[r].imageUses, surviving));
      var layouts := RunLayouts(g, surviving, order);
      PresentResource(r, g.resources[r], surviving, layouts);
      if Apply(AllImageBarriers(g.resources, surviving), INVALID_ID, layouts).Tracked? {
        ApplyProjects(g.resources, surviving, INVALID_ID, layouts, r);
      }
    }
  }

  // Every barrier before every surviving pass fits and makes it ready, and presented images end presentable.
  ghost predicate ReplaysCleanly(g: Graph, order: seq<nat>, surviving: seq<bool>)
    requires ResourcesInRange(g.resources, |surviving|) && IsPermutation(order, |surviving|)
  {
    && (forall k :: 0 <= k < |order| && surviving[order[k]] ==>
          CleanBefore(g, AllImageBarriers(g.resources, surviving), Kept(order[..k], surviving), order[k]))
    && EndsPresentable(g, AllImageBarriers(g.resources, surviving), Kept(order, surviving))
  }

  lemma {:induction false} CleanPassesAgree(g: Graph, order: seq<nat>, surviving: seq<bool>, k: nat)
    requires WellFormed(g) && ResourcesInRange(g.resources, |g.passes|) && |surviving| == |g.passes|
    requires IsPermutation(order, |g.passes|) && k <= |order| && ReplaysCleanly(g, order, surviving)
    ensures forall j :: 0 <= j < k ==> PassAgrees(g, order, surviving, j)
  {
    hide CleanBefore, EndsPresentable, PassAgrees;
    if k > 0 {
      CleanPassesAgree(g, order, surviving, k - 1);
      if surviving[order[k - 1]] {
        PassCleanWhen(g, order, surviving, k - 1);
      } else {
        CulledPassMovesNothing(g, order, surviving, k - 1);
      }
    }
  }

  /** For every graph and passes run in any order: all barriers fit, all uses find their layouts and presented
      images end presentable exactly when the surviving uses of each pass agree with the layout left by the
      use that ran before, and likewise the end of each presented image. A pass that uses an image once
      agrees exactly if the use declared before it leaves the same layout as the one that ran before it. */
  lemma ReplaysCleanlyWhen(g: Graph, order: seq<nat>, surviving: seq<bool>)
    requires WellFormed(g) && ResourcesInRange(g.resources, |g.passes|) && PresentedAreUsed(g)
    requires IsPermutation(order, |g.passes|) && |surviving| == |g.passes|
    ensures ReplaysCleanly(g, order, surviving) <==> LayoutsAgree(g, order, surviving)
  {
    hide CleanBefore, EndsPresentable, PassAgrees;
    if LayoutsAgree(g, order, surviving) {
      forall k | 0 <= k < |order| && surviving[order[k]]
        ensures CleanBefore(g, AllImageBarriers(g.resources, surviving), Kept(order[..k], surviving), order[k])
      {
        PassCleanWhen(g, order, surviving, k);
      }
      EndCleanWhen(g, order, surviving);
    }
    if ReplaysCleanly(g, order, surviving) {
      CleanPassesAgree(g, order, surviving, |order|);
      EndCleanWhen(g, order, surviving);
    }
  }

  // ------------------------------------------------------------------
  // Uses that run as declared
  // ------------------------------------------------------------------

  // How many surviving uses have run once the passes `done` have.
  ghost function Executed<A>(live: seq<Use<A>>, done: seq<nat>): (e: nat)
    ensures e <= |live|
    ensures forall i :: 0 <= i < e ==> live[i].pass in done
    ensures e < |live| ==> live[e].pass !in done
  {
    if live == [] || live[0].pass !in done then 0
    else 1 + Executed(live[1..], done)
  }

  lemma ExecutedIs<A>(live: seq<Use<A>>, done: seq<nat>, e: nat)
    requires e <= |live| && (forall i :: 0 <= i < e ==> live[i].pass in done)
    requires e < |live| ==> live[e].pass !in done
    ensures Executed(live, done) == e
  {
  }

  lemma EarlierUseHasRun<A>(live: seq<Use<A>>, order: seq<nat>, n: nat, k: nat, i: nat, j: nat)
    requires IsPermutation(order, n) && UsesInRange(live, n) && RunsInOrder(live, order) && k < n
    requires i < j < |live| && live[j].pass == order[k]
    ensures live[i].pass in order[..k]
  {
    PermutationCovers(order, n, live[i].pass);
    assert RunsBefore(order, live[i].pass, live[j].pass);
    var a :| 0 <= a < |order| && order[a] == live[i].pass;
    assert a < k;
    assert order[..k][a] == live[i].pass;
  }

  lemma LaterUseHasNotRun<A>(live: seq<Use<A>>, order: seq<nat>, k: nat, i: nat, j: nat)
    requires RunsInOrder(live, order) && k < |order|
    requires i < j < |live| && live[i].pass == order[k]
    ensures live[j].pass !in order[..k]
  {
    assert RunsBefore(order, live[i].pass, live[j].pass);
    forall b | 0 <= b < k
      ensures order[..k][b] != live[j].pass
    {
      assert order[..k][b] == order[b];
    }
  }

  // The use a pass makes is the next one to run.
  lemma NextUse<A>(live: seq<Use<A>>, order: seq<nat>, n: nat, k: nat, i: nat)
    requires IsPermutation(order, n) && UsesInRange(live, n) && RunsInOrder(live, order) && k < n
    requires i < |live| && live[i].pass == order[k]
    ensures i == Executed(live, order[..k]) && Executed(live, order[..k + 1]) == i + 1
  {
    var done, e := order[..k], Executed(live, order[..k]);
    assert order[..k + 1] == done + [order[k]];
    assert live[i].pass !in done by {
      forall b | 0 <= b < k
        ensures done[b] != order[k]
      {
        assert done[b] == order[b];
      }
    }
    if e < i { EarlierUseHasRun(live, order, n, k, e, i); }
    if i + 1 < |live| {
      LaterUseHasNotRun(live, order, k, i, i + 1);
      assert RunsBefore(order, live[i].pass, live[i + 1].pass);
    }
    ExecutedIs(live, order[..k + 1], i + 1);
  }

  // A pass without a use of this resource advances nothing.
  lemma NoUse<A>(live: seq<Use<A>>, order: seq<nat>, k: nat)
    requires k < |order| && forall i :: 0 <= i < |live| ==> live[i].pass != order[k]
    ensures Executed(live, order[..k + 1]) == Executed(live, order[..k])
  {
    assert order[..k + 1] == order[..k] + [order[k]];
    ExecutedIs(live, order[..k + 1], Executed(live, order[..k]));
  }

  ghost predicate ImageRunsInOrder(g: Graph, order: seq<nat>) {
    forall r :: 0 <= r < |g.resources| && g.resources[r].Image? ==> RunsInOrder(g.resources[r].imageUses, order)
  }

  lemma ImagesRunInOrder(g: Graph, order: seq<nat>)
    requires UseOrdered(g, order)
    ensures ImageRunsInOrder(g, order)
  {
    forall r | 0 <= r < |g.resources| && g.resources[r].Image?
      ensures RunsInOrder(g.resources[r].imageUses, order)
    {
      var uses := g.resources[r].imageUses;
      assert forall i :: 0 <= i < |uses| ==> Touches(g.resources[r])[i].pass == uses[i].pass;
    }
  }

  lemma AllHaveRun<A>(live: seq<Use<A>>, order: seq<nat>, n: nat)
    requires IsPermutation(order, n) && UsesInRange(live, n)
    ensures Executed(live, order) == |live|
  {
    forall i | 0 <= i < |live|
      ensures live[i].pass in order
    {
      PermutationCovers(order, n, live[i].pass);
    }
    ExecutedIs(live, order, |live|);
  }

  // What has run is what was declared first.
  lemma {:induction false} RunIsPrefix<A>(live: seq<Use<A>>, order: seq<nat>, n: nat, k: nat)
    requires IsPermutation(order, n) && UsesInRange(live, n) && RunsInOrder(live, order) && k <= n
    ensures RunUses(live, order[..k]) == live[..Executed(live, order[..k])]
    decreases k
  {
    assert |order| == n;
    hide *;
    if k == 0 {
      assert order[..0] == [];
      NothingRan(live);
    } else {
      RunIsPrefix(live, order, n, k - 1);
      var p := order[k - 1];
      if i :| MadeBy(live, p, i) {
        UseRuns(live, order, n, k - 1, i);
      } else {
        NothingRuns(live, order, k - 1);
      }
    }
  }

  lemma UseRuns<A>(live: seq<Use<A>>, order: seq<nat>, n: nat, k: nat, i: int)
    requires IsPermutation(order, n) && UsesInRange(live, n) && RunsInOrder(live, order) && k < n && MadeBy(live, order[k], i)
    requires RunUses(live, order[..k]) == live[..Executed(live, order[..k])]
    ensures RunUses(live, order[..k + 1]) == live[..Executed(live, order[..k + 1])]
  {
    hide RunUses, UsesBy, Executed;
    NextUse(live, order, n, k, i);
    InOrderIsDistinct(live, order, n);
    OneUseBy(live, i);
    RunOneMore(live, order, k);
    assert live[..i] + [live[i]] == live[..i + 1];
  }

  lemma NothingRuns<A>(live: seq<Use<A>>, order: seq<nat>, k: nat)
    requires k < |order| && forall i :: !MadeBy(live, order[k], i)
    requires RunUses(live, order[..k]) == live[..Executed(live, order[..k])]
    ensures RunUses(live, order[..k + 1]) == live[..Executed(live, order[..k + 1])]
  {
    hide RunUses, UsesBy, Executed;
    assert forall i :: 0 <= i < |live| ==> MadeBy(live, order[k], i) || live[i].pass != order[k];
    NoUse(live, order, k);
    NoUsesBy(live, order[k]);
    RunOneMore(live, order, k);
    assert RunUses(live, order[..k]) + [] == RunUses(live, order[..k]);
  }

  lemma NothingRan<A>(live: seq<Use<A>>)
    ensures RunUses(live, []) == [] && live[..Executed(live, [])] == []
  {
  }

  lemma InOrderIsDistinct<A>(uses: seq<Use<A>>, order: seq<nat>, n: nat)
    requires IsPermutation(order, n) && UsesInRange(uses, n) && RunsInOrder(uses, order)
    ensures DistinctPasses(uses)
  {
    forall i, j | 0 <= i < j < |uses|
      ensures uses[i].pass != uses[j].pass
    {
      PermutationCovers(order, n, uses[i].pass);
      assert RunsBefore(order, uses[i].pass, uses[j].pass);
    }
  }

  lemma InOrderAgrees(g: Graph, order: seq<nat>, surviving: seq<bool>)
    requires WellFormed(g) && ResourcesInRange(g.resources, |g.passes|) && |surviving| == |g.passes|
    requires IsPermutation(order, |g.passes|) && ImageRunsInOrder(g, order)
    ensures LayoutsAgree(g, order, surviving)
  {
    hide Live, RunUses, Executed, LayoutAfter, UseAgrees;
    forall r | 0 <= r < |g.resources| && g.resources[r].Image?
      ensures var live := Live(g.resources[r].imageUses, surviving);
        RunUses(live, order) == live &&
        forall k :: 0 <= k < |order| ==> UseAgrees(g.resources[r].initialLayout, live, order, k)
    {
      ResourceAgrees(g.resources[r].initialLayout, g.resources[r].imageUses, order, surviving);
    }
  }

  lemma ResourceAgrees(initial: Layout, uses: seq<Use<ImageAccess>>, order: seq<nat>, surviving: seq<bool>)
    requires UsesInRange(uses, |surviving|) && IsPermutation(order, |surviving|) && RunsInOrder(uses, order)
    ensures var live := Live(uses, surviving);
      RunUses(live, order) == live && forall k :: 0 <= k < |order| ==> UseAgrees(initial, live, order, k)
  {
    hide Live, RunUses, Executed, LayoutAfter, RunsInOrder;
    var live := Live(uses, surviving);
    LiveRunsInOrder(uses, surviving, order);
    AllHaveRun(live, order, |surviving|);
    RunIsPrefix(live, order, |surviving|, |order|);
    assert order[..|order|] == order && live[..|live|] == live;
    InOrderIsDistinct(live, order, |surviving|);
    forall k | 0 <= k < |order|
      ensures UseAgrees(initial, live, order, k)
    {
      forall i | MadeBy(live, order[k], i)
        ensures RunUses(live, order[..k]) == live[..i]
      {
        NextUse(live, order, |surviving|, k, i);
        RunIsPrefix(live, order, |surviving|, k);
      }
      AgreesOnce(initial, live, order[k], LayoutAfter(initial, RunUses(live, order[..k])));
    }
  }

  /** Replaying the barriers before each surviving pass, when the uses of each image run as declared: no
      barrier finds another layout than the one it names, every use finds the layout its access needs, and
      presented images end ready to present. */
  lemma ReplayIsConsistent(g: Graph, order: seq<nat>, surviving: seq<bool>)
    requires WellFormed(g) && ResourcesInRange(g.resources, |g.passes|) && PresentedAreUsed(g)
    requires IsPermutation(order, |g.passes|) && |surviving| == |g.passes| && UseOrdered(g, order)
    ensures ReplaysCleanly(g, order, surviving)
  {
    hide LayoutsAgree, ReplaysCleanly;
    ImagesRunInOrder(g, order);
    InOrderAgrees(g, order, surviving);
    ReplaysCleanlyWhen(g, order, surviving);
  }
}
