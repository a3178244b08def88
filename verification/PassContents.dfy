/** Which passes survive, what lifetimes say and what is refused, told by the declared uses alone. */
module PassContents {
  import opened GraphModel
  import opened Options
  import opened PassOrder
  import opened Barriers
  import opened BarrierReplay
  import opened Culling
  import opened Lifetimes
  import opened RenderGraph

  // ------------------------------------------------------------------
  // Survivors
  // ------------------------------------------------------------------

  // Some declared use of the resource is by the pass, as a read or as a write.
  ghost predicate UsedAs(r: Resource, pass: nat, isRead: bool) {
    match r
    case Image(_, _, _, uses) => exists u :: 0 <= u < |uses| && uses[u].pass == pass && uses[u].isRead == isRead
    case Buffer(_, uses) => exists u :: 0 <= u < |uses| && uses[u].pass == pass && uses[u].isRead == isRead
  }

  lemma TouchIsUse(r: Resource, pass: nat, isRead: bool)
    ensures Touch(pass, isRead) in Touches(r) <==> UsedAs(r, pass, isRead)
  {
    var t := Touches(r);
    if Touch(pass, isRead) in t {
      var u :| 0 <= u < |t| && t[u] == Touch(pass, isRead);
      match r {
        case Image(_, _, _, uses) => assert uses[u].pass == pass && uses[u].isRead == isRead;
        case Buffer(_, uses) => assert uses[u].pass == pass && uses[u].isRead == isRead;
      }
    }
    if UsedAs(r, pass, isRead) {
      match r {
        case Image(_, _, _, uses) =>
          var u :| 0 <= u < |uses| && uses[u].pass == pass && uses[u].isRead == isRead;
          assert t[u] == Touch(pass, isRead);
        case Buffer(_, uses) =>
          var u :| 0 <= u < |uses| && uses[u].pass == pass && uses[u].isRead == isRead;
          assert t[u] == Touch(pass, isRead);
      }
    }
  }

  // The pass writes an image that is presented.
  ghost predicate WritesScreen(g: Graph, p: nat) {
    exists r :: 0 <= r < |g.resources| && g.resources[r].Image? && g.resources[r].presented && UsedAs(g.resources[r], p, false)
  }

  // The pass writes something that another one reads.
  ghost predicate WritesFor(g: Graph, p: nat, q: nat) {
    p != q && exists r :: 0 <= r < |g.resources| && UsedAs(g.resources[r], p, false) && UsedAs(g.resources[r], q, true)
  }

  lemma RootsAre(g: Graph, p: nat)
    requires p < |g.passes|
    ensures IsRoot(g, p) <==> !g.passes[p].cullable || WritesScreen(g, p)
  {
    hide Touches, UsedAs;
    forall r | 0 <= r < |g.resources|
      ensures Writes(g.resources[r], p) <==> UsedAs(g.resources[r], p, false)
    {
      TouchIsUse(g.resources[r], p, false);
    }
  }

  lemma FeedsAre(g: Graph, p: nat, q: nat)
    ensures Feeds(g, p, q) <==> WritesFor(g, p, q)
  {
    hide Touches, UsedAs;
    forall r | 0 <= r < |g.resources|
      ensures Writes(g.resources[r], p) <==> UsedAs(g.resources[r], p, false)
      ensures Reads(g.resources[r], q) <==> UsedAs(g.resources[r], q, true)
    {
      TouchIsUse(g.resources[r], p, false);
      TouchIsUse(g.resources[r], q, true);
    }
  }

  /** A pass survives exactly when it may not be culled, or writes an image that is presented, or writes something
      that a survivor behind it in the order reads. */
  lemma SurvivesExactly(g: Graph, order: seq<nat>, surviving: seq<bool>, i: nat)
    requires Swept(g, order, surviving) && i < |order|
    ensures order[i] < |g.passes| && order[i] < |surviving|
    ensures surviving[order[i]] <==>
      || !g.passes[order[i]].cullable
      || WritesScreen(g, order[i])
      || exists j :: i < j < |order| && surviving[order[j]] && WritesFor(g, order[i], order[j])
  {
    hide IsRoot, Feeds, WritesScreen, WritesFor;
    RootsAre(g, order[i]);
    forall j | i < j < |order|
      ensures Feeds(g, order[i], order[j]) <==> WritesFor(g, order[i], order[j])
    {
      FeedsAre(g, order[i], order[j]);
    }
    assert surviving[order[i]] <==> JudgedAlive(g, order, surviving, i);
  }

  // ------------------------------------------------------------------
  // Lifetimes
  // ------------------------------------------------------------------

  // The first and the last of the uses by surviving passes.
  ghost predicate FirstAndLast<A>(uses: seq<Use<A>>, surviving: seq<bool>, i: int, j: int) {
    && 0 <= i <= j < |uses| && Survives(uses, surviving, i) && Survives(uses, surviving, j)
    && forall k :: 0 <= k < |uses| && Survives(uses, surviving, k) ==> i <= k <= j
  }

  ghost predicate Survives<A>(uses: seq<Use<A>>, surviving: seq<bool>, i: int) {
    0 <= i < |uses| && uses[i].pass < |surviving| && surviving[uses[i].pass]
  }

  // What the lifetime of a resource with these uses says.
  ghost predicate LifetimeIs<A>(uses: seq<Use<A>>, surviving: seq<bool>, lifetime: Lifetime) {
    && (lifetime.used <==> exists i :: Survives(uses, surviving, i))
    && (!lifetime.used ==> lifetime.firstPass == lifetime.lastPass == 0xFFFF_FFFF)
    && forall i, j :: FirstAndLast(uses, surviving, i, j) ==>
         lifetime.firstPass == uses[i].pass && lifetime.lastPass == uses[j].pass
  }

  lemma LiveEnds<A>(uses: seq<Use<A>>, surviving: seq<bool>, r: nat, isImage: bool)
    requires UsesInRange(uses, |surviving|)
    ensures LifetimeIs(uses, surviving, LifetimeFrom(r, isImage, Live(uses, surviving)))
  {
    var at := LiveIndices(uses, surviving);
    LiveAtIndices(uses, surviving);
    if at != [] {
      assert Survives(uses, surviving, at[0]);
    }
    if i :| Survives(uses, surviving, i) {
      assert i in at;
    }
    forall i, j | FirstAndLast(uses, surviving, i, j)
      ensures at != [] && at[0] == i && at[|at| - 1] == j
    {
      assert i in at && j in at;
      assert Survives(uses, surviving, at[0]) && Survives(uses, surviving, at[|at| - 1]);
    }
  }

  /** The lifetime of a resource, in any graph: it names the resource and its kind, is used exactly when a surviving
      pass uses it, and holds the passes of the first and the last such use in declaration order. */
  lemma LifetimesAre(r: nat, resource: Resource, surviving: seq<bool>)
    requires resource.Image? ==> UsesInRange(resource.imageUses, |surviving|)
    requires resource.Buffer? ==> UsesInRange(resource.bufferUses, |surviving|)
    ensures var lifetime := LifetimeOf(r, resource, surviving);
      && lifetime.resource == r && lifetime.isImage == resource.Image?
      && match resource
         case Image(_, _, _, uses) => LifetimeIs(uses, surviving, lifetime)
         case Buffer(_, uses) => LifetimeIs(uses, surviving, lifetime)
  {
    hide Live, LifetimeIs;
    match resource {
      case Image(_, _, _, uses) => LiveEnds(uses, surviving, r, true);
      case Buffer(_, uses) => LiveEnds(uses, surviving, r, false);
    }
  }

  // ------------------------------------------------------------------
  // Refusals
  // ------------------------------------------------------------------

  /** The first resource with an unusable declaration decides the error and gives it its name: an image to present
      that nothing uses, or one of undefined contents whose first use reads it. */
  lemma FirstErrorNames(g: Graph, r: nat, name: string)
    requires r < |g.resources|
    ensures FirstError(g, r, Some(PresentedUnused(name))) ==>
      g.resources[r].Image? && g.resources[r].presented && g.resources[r].imageUses == [] && g.resources[r].name == name
    ensures FirstError(g, r, Some(ReadBeforeWrite(name))) ==>
      && g.resources[r].Image? && g.resources[r].initialLayout == Undefined && g.resources[r].imageUses != []
      && g.resources[r].imageUses[0].isRead && g.resources[r].name == name
    ensures FirstError(g, r, Some(PresentedUnused(name))) || FirstError(g, r, Some(ReadBeforeWrite(name))) ==>
      forall i :: 0 <= i < r && g.resources[i].Image? ==>
        && !(g.resources[i].presented && g.resources[i].imageUses == [])
        && !(g.resources[i].initialLayout == Undefined && g.resources[i].imageUses != [] && g.resources[i].imageUses[0].isRead)
  {
    if FirstError(g, r, Some(PresentedUnused(name))) || FirstError(g, r, Some(ReadBeforeWrite(name))) {
      forall i | 0 <= i < r && g.resources[i].Image?
        ensures !(g.resources[i].presented && g.resources[i].imageUses == [])
        ensures !(g.resources[i].initialLayout == Undefined && g.resources[i].imageUses != [] && g.resources[i].imageUses[0].isRead)
      {
        assert DeclarationError(g.resources[i]).None?;
      }
    }
  }
}
