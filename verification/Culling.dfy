/** Dead-pass culling: the reverse sweep, what it computes, and why it is safe. */
module Culling {
  import opened GraphModel
  import opened PassOrder

  // A pass that may not be dropped whatever the others do.
  ghost predicate IsRoot(g: Graph, p: nat)
    requires p < |g.passes|
  {
    !g.passes[p].cullable ||
    exists r :: 0 <= r < |g.resources| && IsPresented(g.resources[r]) && Writes(g.resources[r], p)
  }

  // `p` writes something that the different pass `q` reads.
  ghost predicate Feeds(g: Graph, p: nat, q: nat) {
    p != q && exists r :: 0 <= r < |g.resources| && Writes(g.resources[r], p) && Reads(g.resources[r], q)
  }

  // ------------------------------------------------------------------
  // The sweep
  // ------------------------------------------------------------------

  ghost predicate HasReason(g: Graph, p: nat, surviving: seq<bool>)
    requires p < |g.passes| == |surviving|
  {
    IsRoot(g, p) || exists q :: 0 <= q < |surviving| && surviving[q] && Feeds(g, p, q)
  }

  method WritesPresented(r: Resource, p: nat) returns (found: bool)
    ensures found <==> IsPresented(r) && Writes(r, p)
  {
    if r.Image? && r.presented {
      for u := 0 to |r.imageUses|
        invariant Touch(p, false) !in Touches(r)[..u]
      {
        if !r.imageUses[u].isRead && r.imageUses[u].pass == p {
          assert Touches(r)[u] == Touch(p, false);
          return true;
        }
        assert Touches(r)[..u + 1] == Touches(r)[..u] + [Touches(r)[u]];
      }
      assert Touches(r)[..|r.imageUses|] == Touches(r);
    }
    return false;
  }

  ghost predicate FeedsAt(t: seq<Touch>, p: nat, surviving: seq<bool>, w: nat, q: nat) {
    && w < |t| && t[w] == Touch(p, false)
    && q < |t| && t[q].pass != p && t[q].isRead && t[q].pass < |surviving| && surviving[t[q].pass]
  }

  // The nested scan for a write by `p` and a read by another surviving pass.
  method FeedsSurvivor<A>(uses: seq<Use<A>>, p: nat, surviving: seq<bool>) returns (found: bool)
    requires forall i :: 0 <= i < |uses| ==> uses[i].pass < |surviving|
    ensures found <==> exists w, q :: FeedsAt(TouchesOf(uses), p, surviving, w, q)
  {
    ghost var t := TouchesOf(uses);
    for w := 0 to |uses|
      invariant forall i, q :: 0 <= i < w ==> !FeedsAt(t, p, surviving, i, q)
    {
      if uses[w].pass != p || uses[w].isRead {
        continue;
      }
      for q := 0 to |uses|
        invariant forall j :: 0 <= j < q ==> !FeedsAt(t, p, surviving, w, j)
      {
        if uses[q].pass == p || !uses[q].isRead || !surviving[uses[q].pass] {
          continue;
        }
        assert FeedsAt(t, p, surviving, w, q);
        return true;
      }
    }
    return false;
  }

  ghost predicate ResourceGivesReason(r: Resource, p: nat, surviving: seq<bool>) {
    (IsPresented(r) && Writes(r, p)) ||
    (Writes(r, p) && exists q :: 0 <= q < |surviving| && q != p && surviving[q] && Reads(r, q))
  }

  lemma FeedsIsReason(r: Resource, p: nat, surviving: seq<bool>)
    ensures (exists w, q :: FeedsAt(Touches(r), p, surviving, w, q)) <==>
      Writes(r, p) && exists q :: 0 <= q < |surviving| && q != p && surviving[q] && Reads(r, q)
  {
    var t := Touches(r);
    if exists w, q :: FeedsAt(t, p, surviving, w, q) {
      var w: nat, q: nat :| FeedsAt(t, p, surviving, w, q);
      assert t[q] == Touch(t[q].pass, true);
      assert Reads(r, t[q].pass);
    }
    if Writes(r, p) {
      var w :| 0 <= w < |t| && t[w] == Touch(p, false);
      forall q | 0 <= q < |surviving| && q != p && surviving[q] && Reads(r, q)
        ensures exists i :: FeedsAt(t, p, surviving, w, i)
      {
        var i :| 0 <= i < |t| && t[i] == Touch(q, true);
        assert FeedsAt(t, p, surviving, w, i);
      }
    }
  }

  method ReasonInResource(r: Resource, p: nat, surviving: seq<bool>) returns (found: bool)
    requires forall i :: 0 <= i < |Touches(r)| ==> Touches(r)[i].pass < |surviving|
    ensures found <==> ResourceGivesReason(r, p, surviving)
  {
    found := WritesPresented(r, p);
    if found { return; }
    FeedsIsReason(r, p, surviving);
    match r {
      case Image(_, _, _, uses) =>
        assert forall i :: 0 <= i < |uses| ==> Touches(r)[i] == Touch(uses[i].pass, uses[i].isRead);
        found := FeedsSurvivor(uses, p, surviving);
      case Buffer(_, uses) =>
        assert forall i :: 0 <= i < |uses| ==> Touches(r)[i] == Touch(uses[i].pass, uses[i].isRead);
        found := FeedsSurvivor(uses, p, surviving);
    }
  }

  method HasReasonToSurvive(g: Graph, p: nat, surviving: seq<bool>) returns (keep: bool)
    requires WellFormed(g) && p < |g.passes| == |surviving|
    ensures keep <==> HasReason(g, p, surviving)
  {
    if !g.passes[p].cullable { return true; }
    for r := 0 to |g.resources|
      invariant forall i :: 0 <= i < r ==> !ResourceGivesReason(g.resources[i], p, surviving)
    {
      var found := ReasonInResource(g.resources[r], p, surviving);
      if found { return true; }
    }
    return false;
  }

  // What the sweep leaves: each pass was judged by the survivors after it in the order.
  ghost predicate Swept(g: Graph, order: seq<nat>, surviving: seq<bool>) {
    && IsPermutation(order, |g.passes|)
    && |surviving| == |g.passes|
    && forall i :: 0 <= i < |order| ==> (surviving[order[i]] <==> JudgedAlive(g, order, surviving, i))
  }

  ghost predicate JudgedAlive(g: Graph, order: seq<nat>, surviving: seq<bool>, i: nat)
    requires IsPermutation(order, |g.passes|) && |surviving| == |g.passes| && i < |order|
  {
    IsRoot(g, order[i]) || exists j :: i < j < |order| && surviving[order[j]] && Feeds(g, order[i], order[j])
  }

  method CullPasses(g: Graph, order: seq<nat>) returns (surviving: seq<bool>)
    requires WellFormed(g) && IsPermutation(order, |g.passes|)
    ensures Swept(g, order, surviving)
  {
    surviving := seq(|g.passes|, _ => false);
    for i := |order| downto 0
      invariant |surviving| == |g.passes|
      invariant forall k :: 0 <= k < i ==> !surviving[order[k]]
      invariant forall k :: i <= k < |order| ==> (surviving[order[k]] <==> JudgedAlive(g, order, surviving, k))
    {
      var pass := order[i];
      var keep := HasReasonToSurvive(g, pass, surviving);
      forall q | 0 <= q < |surviving| && surviving[q]
        ensures exists j :: i < j < |order| && order[j] == q
      {
        PermutationCovers(order, |g.passes|, q);
        var j :| 0 <= j < |order| && order[j] == q;
        assert j != i;
      }
      ghost var before := surviving;
      if keep {
        surviving := surviving[pass := true];
      }
      assert forall k :: i < k < |order| ==> surviving[order[k]] == before[order[k]];
      assert forall k :: i < k < |order| ==> (JudgedAlive(g, order, surviving, k) <==> JudgedAlive(g, order, before, k));
    }
  }

  // ------------------------------------------------------------------
  // The sweep computes the least set of passes worth keeping
  // ------------------------------------------------------------------

  // Positions in the order, each feeding the next, ending at a root.
  ghost predicate KeepingChain(g: Graph, order: seq<nat>, chain: seq<nat>)
    requires IsPermutation(order, |g.passes|)
  {
    && |chain| > 0
    && (forall k :: 0 <= k < |chain| ==> chain[k] < |order|)
    && IsRoot(g, order[chain[|chain| - 1]])
    && forall k :: 0 <= k < |chain| - 1 ==> chain[k] < chain[k + 1] && Feeds(g, order[chain[k]], order[chain[k + 1]])
  }

  lemma {:induction false} SurvivorHasChain(g: Graph, order: seq<nat>, surviving: seq<bool>, i: nat) returns (chain: seq<nat>)
    requires Swept(g, order, surviving) && i < |order| && surviving[order[i]]
    ensures KeepingChain(g, order, chain) && chain[0] == i
    decreases |order| - i
  {
    assert JudgedAlive(g, order, surviving, i);
    if IsRoot(g, order[i]) {
      chain := [i];
    } else {
      var j :| i < j < |order| && surviving[order[j]] && Feeds(g, order[i], order[j]);
      var rest := SurvivorHasChain(g, order, surviving, j);
      chain := PrependPosition(g, order, i, rest);
    }
  }

  lemma PrependPosition(g: Graph, order: seq<nat>, i: nat, rest: seq<nat>) returns (chain: seq<nat>)
    requires IsPermutation(order, |g.passes|) && KeepingChain(g, order, rest)
    requires i < rest[0] && Feeds(g, order[i], order[rest[0]])
    ensures KeepingChain(g, order, chain) && chain[0] == i
  {
    chain := [i] + rest;
  }

  lemma {:induction false} ChainSurvives(g: Graph, order: seq<nat>, surviving: seq<bool>, chain: seq<nat>)
    requires Swept(g, order, surviving) && KeepingChain(g, order, chain)
    ensures surviving[order[chain[0]]]
    decreases |chain|
  {
    if |chain| > 1 {
      var rest := chain[1..];
      assert KeepingChain(g, order, rest) by {
        forall k | 0 <= k < |rest| - 1
          ensures rest[k] < rest[k + 1] && Feeds(g, order[rest[k]], order[rest[k + 1]])
        {
          assert rest[k] == chain[k + 1] && rest[k + 1] == chain[k + 2];
        }
      }
      ChainSurvives(g, order, surviving, rest);
      assert Feeds(g, order[chain[0]], order[chain[1]]);
    }
    assert JudgedAlive(g, order, surviving, chain[0]);
  }

  /** A pass survives exactly when a chain of uses leads from it to a root. */
  lemma SurvivesIffChain(g: Graph, order: seq<nat>, surviving: seq<bool>, i: nat)
    requires Swept(g, order, surviving) && i < |order|
    ensures surviving[order[i]] <==> exists chain :: KeepingChain(g, order, chain) && chain[0] == i
  {
    if surviving[order[i]] {
      var chain := SurvivorHasChain(g, order, surviving, i);
    }
    forall chain | KeepingChain(g, order, chain) && chain[0] == i
      ensures surviving[order[i]]
    {
      ChainSurvives(g, order, surviving, chain);
    }
  }

  // ------------------------------------------------------------------
  // Culling preserves what the frame computes
  // ------------------------------------------------------------------

  // The contents a pass sees of the resources it declared to read.
  function ReadView<V>(g: Graph, contents: seq<V>, p: nat): map<nat, V>
    requires |contents| == |g.resources|
  {
    map r: nat | r < |g.resources| && Reads(g.resources[r], p) :: contents[r]
  }

  // Any pass: each written resource becomes some function of the contents read and of its own prior content.
  type Shader<!V> = (nat, nat, map<nat, V>, V) -> V

  function RunPass<V>(g: Graph, shade: Shader<V>, contents: seq<V>, p: nat): (after: seq<V>)
    requires |contents| == |g.resources|
    ensures |after| == |g.resources|
  {
    var view := ReadView(g, contents, p);
    seq(|contents|, r requires 0 <= r < |contents| =>
      if Writes(g.resources[r], p) then shade(p, r, view, contents[r]) else contents[r])
  }

  function Run<V>(g: Graph, shade: Shader<V>, contents: seq<V>, passes: seq<nat>): (after: seq<V>)
    requires |contents| == |g.resources|
    ensures |after| == |g.resources|
  {
    if passes == [] then contents
    else RunPass(g, shade, Run(g, shade, contents, passes[..|passes| - 1]), passes[|passes| - 1])
  }

  // The order with the culled passes removed.
  function Kept(order: seq<nat>, surviving: seq<bool>): (kept: seq<nat>)
    requires forall i :: 0 <= i < |order| ==> order[i] < |surviving|
  {
    if order == [] then []
    else
      var kept := Kept(order[..|order| - 1], surviving);
      var p := order[|order| - 1];
      if surviving[p] then kept + [p] else kept
  }

  // Resources that a culled pass among the first `k` would have written.
  ghost predicate Tainted(g: Graph, order: seq<nat>, surviving: seq<bool>, k: nat, r: nat)
    requires Swept(g, order, surviving) && k <= |order| && r < |g.resources|
  {
    exists i :: 0 <= i < k && !surviving[order[i]] && Writes(g.resources[r], order[i])
  }

  // Nobody who survives reads a tainted resource, and no presented image is one.
  lemma TaintIsUnseen(g: Graph, order: seq<nat>, surviving: seq<bool>, k: nat, r: nat)
    requires Swept(g, order, surviving) && k <= |order| && r < |g.resources| && Tainted(g, order, surviving, k, r)
    ensures !IsPresented(g.resources[r])
    ensures forall j :: k <= j < |order| && surviving[order[j]] ==> !Reads(g.resources[r], order[j])
  {
    var i :| 0 <= i < k && !surviving[order[i]] && Writes(g.resources[r], order[i]);
    assert !JudgedAlive(g, order, surviving, i);
    forall j | k <= j < |order| && surviving[order[j]]
      ensures !Reads(g.resources[r], order[j])
    {
      assert !Feeds(g, order[i], order[j]);
    }
  }

  ghost predicate Agree<V(!new)>(g: Graph, order: seq<nat>, surviving: seq<bool>, k: nat, full: seq<V>, culled: seq<V>)
    requires Swept(g, order, surviving) && k <= |order| && |full| == |culled| == |g.resources|
  {
    forall r :: 0 <= r < |g.resources| && !Tainted(g, order, surviving, k, r) ==> full[r] == culled[r]
  }

  lemma SameView<V(!new)>(g: Graph, order: seq<nat>, surviving: seq<bool>, k: nat, full: seq<V>, culled: seq<V>)
    requires Swept(g, order, surviving) && k < |order| && |full| == |culled| == |g.resources|
    requires Agree(g, order, surviving, k, full, culled) && surviving[order[k]]
    ensures ReadView(g, full, order[k]) == ReadView(g, culled, order[k])
  {
    forall r | 0 <= r < |g.resources| && Reads(g.resources[r], order[k])
      ensures full[r] == culled[r]
    {
      if Tainted(g, order, surviving, k, r) {
        TaintIsUnseen(g, order, surviving, k, r);
      }
    }
  }

  lemma {:induction false} RunsAgree<V(!new)>(g: Graph, shade: Shader<V>, contents: seq<V>, order: seq<nat>, surviving: seq<bool>, k: nat)
    requires Swept(g, order, surviving) && k <= |order| && |contents| == |g.resources|
    ensures Agree(g, order, surviving, k, Run(g, shade, contents, order[..k]),
                  Run(g, shade, contents, Kept(order[..k], surviving)))
    decreases k
  {
    if k > 0 {
      RunsAgree(g, shade, contents, order, surviving, k - 1);
      var p := order[k - 1];
      var full := Run(g, shade, contents, order[..k - 1]);
      var culled := Run(g, shade, contents, Kept(order[..k - 1], surviving));
      var full' := Run(g, shade, contents, order[..k]);
      var culled' := Run(g, shade, contents, Kept(order[..k], surviving));
      assert order[..k][..k - 1] == order[..k - 1];
      assert full' == RunPass(g, shade, full, p);
      if surviving[p] {
        SameView(g, order, surviving, k - 1, full, culled);
        var kept := Kept(order[..k], surviving);
        assert kept[..|kept| - 1] == Kept(order[..k - 1], surviving);
        assert culled' == RunPass(g, shade, culled, p);
      }
      forall r | 0 <= r < |g.resources| && !Tainted(g, order, surviving, k, r)
        ensures full'[r] == culled'[r]
      {
        assert !Tainted(g, order, surviving, k - 1, r);
        assert surviving[p] || !Writes(g.resources[r], p);
      }
    }
  }

  /** Dropping the culled passes changes nothing that a surviving pass reads and nothing that is
      presented, whatever the passes compute, for every graph and order. */
  lemma CullingPreservesMeaning<V(!new)>(g: Graph, shade: Shader<V>, contents: seq<V>, order: seq<nat>, surviving: seq<bool>)
    requires Swept(g, order, surviving) && |contents| == |g.resources|
    ensures forall k :: 0 <= k < |order| && surviving[order[k]] ==>
      ReadView(g, Run(g, shade, contents, order[..k]), order[k]) ==
      ReadView(g, Run(g, shade, contents, Kept(order[..k], surviving)), order[k])
    ensures forall r :: 0 <= r < |g.resources| && IsPresented(g.resources[r]) ==>
      Run(g, shade, contents, order)[r] == Run(g, shade, contents, Kept(order, surviving))[r]
  {
    forall k | 0 <= k < |order| && surviving[order[k]]
      ensures ReadView(g, Run(g, shade, contents, order[..k]), order[k]) ==
              ReadView(g, Run(g, shade, contents, Kept(order[..k], surviving)), order[k])
    {
      RunsAgree(g, shade, contents, order, surviving, k);
      SameView(g, order, surviving, k, Run(g, shade, contents, order[..k]),
               Run(g, shade, contents, Kept(order[..k], surviving)));
    }
    RunsAgree(g, shade, contents, order, surviving, |order|);
    assert order[..|order|] == order;
    forall r | 0 <= r < |g.resources| && IsPresented(g.resources[r])
      ensures Run(g, shade, contents, order)[r] == Run(g, shade, contents, Kept(order, surviving))[r]
    {
      if Tainted(g, order, surviving, |order|, r) {
        TaintIsUnseen(g, order, surviving, |order|, r);
      }
    }
  }
}
