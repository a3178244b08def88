/** Ordering the passes of a render graph: Kahn's algorithm, with the ready passes
    taken lowest id first.

    The method OrderPasses keeps the counters and adjacency lists of the program.
    It is proved to produce a greedy order, and the lemmas then say what a greedy
    order is worth: it is complete exactly when the edges have no cycle, and a
    complete one is the lexicographically least topological order.
*/
module PassOrder {

  datatype Edge = Edge(from: nat, to: nat)

  predicate InRange(edges: seq<Edge>, n: nat) {
    forall i :: 0 <= i < |edges| ==> edges[i].from < n && edges[i].to < n
  }

  ghost predicate HasEdge(edges: seq<Edge>, a: nat, b: nat) {
    Edge(a, b) in edges
  }

  ghost function Elems(s: seq<nat>): set<nat> {
    set x | x in s
  }

  // ------------------------------------------------------------------
  // What an order, and a cycle, is
  // ------------------------------------------------------------------

  ghost predicate Distinct(s: seq<nat>) {
    forall i, j :: 0 <= i < j < |s| ==> s[i] != s[j]
  }

  ghost predicate IsPermutation(order: seq<nat>, n: nat) {
    |order| == n && Distinct(order) && forall i :: 0 <= i < |order| ==> order[i] < n
  }

  ghost predicate Respects(order: seq<nat>, edges: seq<Edge>) {
    forall i, j :: 0 <= i < |order| && 0 <= j < |order| && HasEdge(edges, order[i], order[j]) ==> i < j
  }

  ghost predicate IsTopological(order: seq<nat>, edges: seq<Edge>, n: nat) {
    IsPermutation(order, n) && Respects(order, edges)
  }

  // A closed walk along at least one edge; a self-loop is one of length one.
  ghost predicate IsCycle(edges: seq<Edge>, walk: seq<nat>) {
    && |walk| >= 2
    && walk[0] == walk[|walk| - 1]
    && forall i :: 0 <= i < |walk| - 1 ==> HasEdge(edges, walk[i], walk[i + 1])
  }

  ghost predicate Acyclic(edges: seq<Edge>) {
    forall walk :: !IsCycle(edges, walk)
  }

  // A pass may run next when every pass with an edge into it has run.
  ghost predicate Available(edges: seq<Edge>, n: nat, done: set<nat>, p: nat) {
    p < n && p !in done && forall q :: HasEdge(edges, q, p) ==> q in done
  }

  ghost predicate IsLeastAvailable(edges: seq<Edge>, n: nat, done: set<nat>, p: nat) {
    Available(edges, n, done, p) && forall q :: Available(edges, n, done, q) ==> p <= q
  }

  ghost predicate Greedy(edges: seq<Edge>, n: nat, order: seq<nat>) {
    forall i :: 0 <= i < |order| ==> IsLeastAvailable(edges, n, Elems(order[..i]), order[i])
  }

  ghost predicate Stuck(edges: seq<Edge>, n: nat, order: seq<nat>) {
    forall p :: !Available(edges, n, Elems(order), p)
  }

  // ------------------------------------------------------------------
  // The counters Kahn's algorithm keeps
  // ------------------------------------------------------------------

  // Edges into `p` whose source is not in `done`, counted with multiplicity.
  ghost function InDegree(edges: seq<Edge>, done: set<nat>, p: nat): nat {
    if edges == [] then 0
    else
      var e := edges[|edges| - 1];
      InDegree(edges[..|edges| - 1], done, p) + if e.to == p && e.from !in done then 1 else 0
  }

  ghost function Successors(edges: seq<Edge>, p: nat): seq<nat> {
    if edges == [] then []
    else
      var e := edges[|edges| - 1];
      var before := Successors(edges[..|edges| - 1], p);
      if e.from == p then before + [e.to] else before
  }

  ghost function Count(s: seq<nat>, x: nat): nat {
    if s == [] then 0 else Count(s[..|s| - 1], x) + if s[|s| - 1] == x then 1 else 0
  }

  lemma {:induction false} InDegreeZero(edges: seq<Edge>, done: set<nat>, p: nat)
    ensures InDegree(edges, done, p) == 0 <==> forall q :: HasEdge(edges, q, p) ==> q in done
  {
    if edges != [] {
      var rest, e := edges[..|edges| - 1], edges[|edges| - 1];
      InDegreeZero(rest, done, p);
      assert edges == rest + [e];
      assert forall q :: HasEdge(edges, q, p) <==> HasEdge(rest, q, p) || e == Edge(q, p);
    }
  }

  // Finishing `p` takes one off the counter of `q` for each of p's edges into q.
  lemma {:induction false} InDegreeStep(edges: seq<Edge>, done: set<nat>, p: nat, q: nat)
    requires p !in done
    ensures InDegree(edges, done + {p}, q) + Count(Successors(edges, p), q) == InDegree(edges, done, q)
  {
    if edges != [] {
      var rest, e := edges[..|edges| - 1], edges[|edges| - 1];
      InDegreeStep(rest, done, p, q);
      if e.from == p {
        var all := Successors(edges, p);
        assert all[..|all| - 1] == Successors(rest, p);
        assert Count(all, q) == Count(Successors(rest, p), q) + if e.to == q then 1 else 0;
      }
    }
  }

  lemma {:induction false} SuccessorsAreEdges(edges: seq<Edge>, p: nat, k: nat)
    requires k < |Successors(edges, p)|
    ensures HasEdge(edges, p, Successors(edges, p)[k])
  {
    var rest, e := edges[..|edges| - 1], edges[|edges| - 1];
    if k < |Successors(rest, p)| {
      SuccessorsAreEdges(rest, p, k);
    }
  }

  lemma {:induction false} CountPrefix(s: seq<nat>, k: nat, x: nat)
    requires k <= |s|
    ensures Count(s[..k], x) <= Count(s, x)
    ensures k < |s| && s[k] == x ==> Count(s[..k], x) < Count(s, x)
    decreases |s| - k
  {
    if k < |s| {
      CountPrefix(s, k + 1, x);
      assert s[..k + 1][..k] == s[..k];
    } else {
      assert s[..k] == s;
    }
  }

  // ------------------------------------------------------------------
  // The algorithm
  // ------------------------------------------------------------------

  method CountEdges(n: nat, edges: seq<Edge>) returns (inDegree: array<nat>, outgoing: array<seq<nat>>)
    requires InRange(edges, n)
    ensures fresh(inDegree) && fresh(outgoing) && inDegree.Length == n && outgoing.Length == n
    ensures forall p :: 0 <= p < n ==> inDegree[p] == InDegree(edges, {}, p)
    ensures forall p :: 0 <= p < n ==> outgoing[p] == Successors(edges, p)
  {
    inDegree := new nat[n](_ => 0);
    outgoing := new seq<nat>[n](_ => []);
    for k := 0 to |edges|
      invariant forall p :: 0 <= p < n ==> inDegree[p] == InDegree(edges[..k], {}, p)
      invariant forall p :: 0 <= p < n ==> outgoing[p] == Successors(edges[..k], p)
    {
      var edge := edges[k];
      inDegree[edge.to] := inDegree[edge.to] + 1;
      outgoing[edge.from] := outgoing[edge.from] + [edge.to];
      assert edges[..k + 1][..k] == edges[..k];
    }
    assert edges[..|edges|] == edges;
  }

  // A non-empty set of naturals has a least member.
  lemma {:induction false} LeastOf(s: set<nat>) returns (p: nat)
    requires s != {}
    ensures p in s && forall q :: q in s ==> p <= q
  {
    p :| p in s;
    if s != {p} {
      var least := LeastOf(s - {p});
      assert forall q :: q in s ==> q == p || q in s - {p};
      if least < p { p := least; }
    }
  }

  // The ready heap is a set: no pass is pushed twice, and the top is the least id.
  method PopLeast(ready: set<nat>) returns (p: nat, rest: set<nat>)
    requires ready != {}
    ensures p in ready && (forall q :: q in ready ==> p <= q)
    ensures rest == ready - {p}
  {
    ghost var least := LeastOf(ready);
    p :| p in ready && forall q | q in ready :: p <= q;
    rest := ready - {p};
  }

  ghost predicate Tracks(edges: seq<Edge>, n: nat, done: set<nat>, inDegree: seq<nat>, ready: set<nat>) {
    && |inDegree| == n
    && (forall p :: 0 <= p < n ==> inDegree[p] == InDegree(edges, done, p))
    && (forall p :: 0 <= p < n && p in done ==> inDegree[p] == 0)
    && (forall p :: p in ready <==> Available(edges, n, done, p))
  }

  lemma {:induction false} CountPositive(s: seq<nat>, x: nat)
    ensures Count(s, x) > 0 <==> x in s
  {
    if s != [] {
      CountPositive(s[..|s| - 1], x);
      assert s == s[..|s| - 1] + [s[|s| - 1]];
    }
  }

  // Lowering the counters of a finished pass's successors; those that reach zero become ready.
  method LowerSuccessors(successors: seq<nat>, inDegree: array<nat>, ready: set<nat>) returns (ready': set<nat>)
    requires forall q :: q in successors ==> q < inDegree.Length
    requires forall q :: 0 <= q < inDegree.Length ==> Count(successors, q) <= inDegree[q]
    modifies inDegree
    ensures forall q :: 0 <= q < inDegree.Length ==> inDegree[q] + Count(successors, q) == old(inDegree[q])
    ensures forall q :: q in ready' <==> q in ready || (q in successors && inDegree[q] == 0)
  {
    ready' := ready;
    for k := 0 to |successors|
      invariant forall q :: q in successors[..k] ==> q in successors
      invariant forall q :: 0 <= q < inDegree.Length ==> inDegree[q] + Count(successors[..k], q) == old(inDegree[q])
      invariant forall q :: q in ready' <==> q in ready || (q in successors[..k] && inDegree[q] == 0)
    {
      var next := successors[k];
      assert next in successors;
      CountPrefix(successors, k, next);
      assert successors[..k + 1] == successors[..k] + [next];
      assert inDegree[next] > 0;
      inDegree[next] := inDegree[next] - 1;
      if inDegree[next] == 0 {
        ready' := ready' + {next};
      }
    }
    assert successors[..|successors|] == successors;
  }

  lemma SuccessorsBounded(edges: seq<Edge>, n: nat, done: set<nat>, pass: nat)
    requires InRange(edges, n) && pass !in done
    ensures forall q :: q in Successors(edges, pass) ==> q < n
    ensures forall q: nat :: Count(Successors(edges, pass), q) <= InDegree(edges, done, q)
  {
    forall k | 0 <= k < |Successors(edges, pass)|
      ensures Successors(edges, pass)[k] < n
    {
      SuccessorsAreEdges(edges, pass, k);
    }
    forall q: nat
      ensures Count(Successors(edges, pass), q) <= InDegree(edges, done, q)
    {
      InDegreeStep(edges, done, pass, q);
    }
  }

  lemma FinishTracks(n: nat, edges: seq<Edge>, done: set<nat>, pass: nat, before: seq<nat>, after: seq<nat>,
                     ready: set<nat>, ready': set<nat>)
    requires InRange(edges, n) && NoSelfEdge(edges)
    requires Tracks(edges, n, done, before, ready + {pass}) && pass !in ready && |after| == n
    requires forall q :: 0 <= q < n ==> after[q] + Count(Successors(edges, pass), q) == before[q]
    requires forall q :: q in ready' <==> q in ready || (q in Successors(edges, pass) && q < n && after[q] == 0)
    ensures Tracks(edges, n, done + {pass}, after, ready')
  {
    var done', successors := done + {pass}, Successors(edges, pass);
    assert Available(edges, n, done, pass);
    forall q | 0 <= q < n
      ensures after[q] == InDegree(edges, done', q)
      ensures q in done' ==> after[q] == 0
      ensures q in ready' <==> Available(edges, n, done', q)
    {
      InDegreeStep(edges, done, pass, q);
      InDegreeZero(edges, done, q);
      InDegreeZero(edges, done', q);
      CountPositive(successors, q);
      if q in successors {
        var k :| 0 <= k < |successors| && successors[k] == q;
        SuccessorsAreEdges(edges, pass, k);
      }
    }
  }

  // No edge from a pass to itself: the check that precedes the counting.
  ghost predicate NoSelfEdge(edges: seq<Edge>) {
    forall p :: !HasEdge(edges, p, p)
  }

  method OrderPasses(n: nat, edges: seq<Edge>) returns (order: seq<nat>)
    requires InRange(edges, n) && NoSelfEdge(edges)
    ensures Greedy(edges, n, order) && Stuck(edges, n, order)
  {
    var inDegree, outgoing := CountEdges(n, edges);
    var ready: set<nat> := set p: nat | p < n && inDegree[p] == 0;
    order := [];
    assert Elems(order) == {};
    forall p | 0 <= p < n
      ensures inDegree[p] == 0 <==> Available(edges, n, {}, p)
    {
      InDegreeZero(edges, {}, p);
    }
    while ready != {}
      invariant Greedy(edges, n, order) && Distinct(order) && forall p :: p in order ==> p < n
      invariant Tracks(edges, n, Elems(order), inDegree[..], ready)
      invariant forall p :: 0 <= p < n ==> outgoing[p] == Successors(edges, p)
      decreases n - |order|
    {
      var pass, rest := PopLeast(ready);
      assert ready == rest + {pass};
      ghost var done := Elems(order);
      assert IsLeastAvailable(edges, n, done, pass);
      ghost var before := inDegree[..];
      SuccessorsBounded(edges, n, done, pass);
      ready := LowerSuccessors(outgoing[pass], inDegree, rest);
      FinishTracks(n, edges, done, pass, before, inDegree[..], rest, ready);
      GreedyExtends(edges, n, order, pass);
      order := order + [pass];
      assert Elems(order) == done + {pass};
      DistinctBounded(order, n);
    }
  }

  lemma GreedyExtends(edges: seq<Edge>, n: nat, order: seq<nat>, pass: nat)
    requires Greedy(edges, n, order) && IsLeastAvailable(edges, n, Elems(order), pass)
    ensures Greedy(edges, n, order + [pass])
  {
    var longer := order + [pass];
    forall i | 0 <= i < |longer|
      ensures IsLeastAvailable(edges, n, Elems(longer[..i]), longer[i])
    {
      assert longer[..i] == order[..i];
      assert order[..|order|] == order;
    }
  }

  // ------------------------------------------------------------------
  // Counting
  // ------------------------------------------------------------------

  lemma {:induction false} BoundedCard(s: set<nat>, n: nat)
    requires forall x :: x in s ==> x < n
    ensures |s| <= n
  {
    if n == 0 {
      assert s == {};
    } else {
      BoundedCard(s - {n - 1}, n - 1);
      assert s <= (s - {n - 1}) + {n - 1};
    }
  }

  lemma {:induction false} DistinctCard(s: seq<nat>)
    requires Distinct(s)
    ensures |Elems(s)| == |s|
  {
    if s != [] {
      var rest, x := s[..|s| - 1], s[|s| - 1];
      DistinctCard(rest);
      assert s == rest + [x];
      assert Elems(s) == Elems(rest) + {x} && x !in Elems(rest);
    }
  }

  lemma DistinctBounded(s: seq<nat>, n: nat)
    requires Distinct(s) && forall i :: 0 <= i < |s| ==> s[i] < n
    ensures |s| <= n
  {
    DistinctCard(s);
    BoundedCard(Elems(s), n);
  }

  // A permutation of 0..n-1 leaves nothing out.
  lemma PermutationCovers(order: seq<nat>, n: nat, p: nat)
    requires IsPermutation(order, n) && p < n
    ensures p in order
  {
    if p !in order {
      var longer := order + [p];
      assert Distinct(longer);
      DistinctBounded(longer, n);
    }
  }

  // ------------------------------------------------------------------
  // A greedy order is a topological order as far as it goes
  // ------------------------------------------------------------------

  lemma GreedyIsDistinct(edges: seq<Edge>, n: nat, order: seq<nat>)
    requires Greedy(edges, n, order)
    ensures Distinct(order) && (forall i :: 0 <= i < |order| ==> order[i] < n) && |order| <= n
  {
    forall i, j | 0 <= i < j < |order|
      ensures order[i] != order[j]
    {
      assert IsLeastAvailable(edges, n, Elems(order[..j]), order[j]);
      assert order[..j][i] == order[i];
    }
    forall i | 0 <= i < |order|
      ensures order[i] < n
    {
      assert IsLeastAvailable(edges, n, Elems(order[..i]), order[i]);
    }
    DistinctBounded(order, n);
  }

  lemma GreedyRespects(edges: seq<Edge>, n: nat, order: seq<nat>)
    requires Greedy(edges, n, order)
    ensures Respects(order, edges)
  {
    GreedyIsDistinct(edges, n, order);
    forall i, j | 0 <= i < |order| && 0 <= j < |order| && HasEdge(edges, order[i], order[j])
      ensures i < j
    {
      assert IsLeastAvailable(edges, n, Elems(order[..j]), order[j]);
      assert order[i] in Elems(order[..j]);
      var k :| 0 <= k < j && order[..j][k] == order[i];
      assert order[k] == order[i];
    }
  }

  // ------------------------------------------------------------------
  // Complete exactly when acyclic
  // ------------------------------------------------------------------

  // Walking an edge backwards, `steps` times, from any pass that never became available.
  lemma {:induction false} WalkBack(edges: seq<Edge>, n: nat, order: seq<nat>, p: nat, steps: nat) returns (walk: seq<nat>)
    requires InRange(edges, n) && Stuck(edges, n, order) && p < n && p !in order
    ensures |walk| == steps + 1
    ensures forall i :: 0 <= i < |walk| ==> walk[i] < n && walk[i] !in order
    ensures forall i :: 0 <= i < |walk| - 1 ==> HasEdge(edges, walk[i], walk[i + 1])
    decreases steps
  {
    if steps == 0 {
      walk := [p];
    } else {
      var tail := WalkBack(edges, n, order, p, steps - 1);
      assert !Available(edges, n, Elems(order), tail[0]);
      var q :| HasEdge(edges, q, tail[0]) && q !in Elems(order);
      walk := [q] + tail;
    }
  }

  lemma {:induction false} RepeatsWhenLong(s: seq<nat>, n: nat) returns (i: nat, j: nat)
    requires |s| > n && forall k :: 0 <= k < |s| ==> s[k] < n
    ensures i < j < |s| && s[i] == s[j]
  {
    if Distinct(s) {
      DistinctBounded(s, n);
    }
    i, j :| 0 <= i < j < |s| && s[i] == s[j];
  }

  lemma StuckHasCycle(edges: seq<Edge>, n: nat, order: seq<nat>) returns (walk: seq<nat>)
    requires InRange(edges, n) && Greedy(edges, n, order) && Stuck(edges, n, order) && |order| != n
    ensures IsCycle(edges, walk)
  {
    GreedyIsDistinct(edges, n, order);
    var p := MissingPass(order, n);
    var long := WalkBack(edges, n, order, p, n);
    var i, j := RepeatsWhenLong(long, n);
    walk := long[i..j + 1];
  }

  lemma {:induction false} MissingPass(order: seq<nat>, n: nat) returns (p: nat)
    requires Distinct(order) && |order| < n
    ensures p < n && p !in order
  {
    DistinctCard(order);
    if Below(n) <= Elems(order) {
      SubsetCard(Below(n), Elems(order));
    }
    p :| p in Below(n) && p !in Elems(order);
  }

  ghost function Below(n: nat): (s: set<nat>)
    ensures |s| == n && forall x: nat :: x in s <==> x < n
  {
    if n == 0 then {} else Below(n - 1) + {n - 1}
  }

  lemma {:induction false} SubsetCard(a: set<nat>, b: set<nat>)
    requires a <= b
    ensures |a| <= |b|
  {
    if a != {} {
      var x :| x in a;
      SubsetCard(a - {x}, b - {x});
    }
  }

  lemma {:induction false} PositionsClimb(edges: seq<Edge>, n: nat, order: seq<nat>, walk: seq<nat>, k: nat) returns (first: nat, last: nat)
    requires InRange(edges, n) && IsTopological(order, edges, n)
    requires 1 <= k < |walk| && forall i :: 0 <= i < |walk| - 1 ==> HasEdge(edges, walk[i], walk[i + 1])
    ensures first < last < |order| && order[first] == walk[0] && order[last] == walk[k]
    decreases k
  {
    assert HasEdge(edges, walk[k - 1], walk[k]);
    PermutationCovers(order, n, walk[k]);
    PermutationCovers(order, n, walk[k - 1]);
    last :| 0 <= last < |order| && order[last] == walk[k];
    var mid: nat :| mid < |order| && order[mid] == walk[k - 1];
    assert mid < last;
    if k == 1 {
      first := mid;
    } else {
      var before: nat;
      first, before := PositionsClimb(edges, n, order, walk, k - 1);
      assert before == mid;
    }
  }

  lemma TopologicalHasNoCycle(edges: seq<Edge>, n: nat, order: seq<nat>)
    requires InRange(edges, n) && IsTopological(order, edges, n)
    ensures Acyclic(edges)
  {
    forall walk
      ensures !IsCycle(edges, walk)
    {
      if IsCycle(edges, walk) {
        var first, last := PositionsClimb(edges, n, order, walk, |walk| - 1);
      }
    }
  }

  /** The order is complete, and then topological, exactly when there is no cycle. */
  lemma CompleteIffAcyclic(edges: seq<Edge>, n: nat, order: seq<nat>)
    requires InRange(edges, n) && Greedy(edges, n, order) && Stuck(edges, n, order)
    ensures |order| == n <==> Acyclic(edges)
    ensures |order| == n ==> IsTopological(order, edges, n)
  {
    GreedyIsDistinct(edges, n, order);
    GreedyRespects(edges, n, order);
    if |order| == n {
      TopologicalHasNoCycle(edges, n, order);
    } else {
      var walk := StuckHasCycle(edges, n, order);
    }
  }

  // ------------------------------------------------------------------
  // The least order
  // ------------------------------------------------------------------

  ghost predicate LexicographicallyBefore(a: seq<nat>, b: seq<nat>) {
    exists k :: 0 <= k < |a| && k < |b| && a[..k] == b[..k] && a[k] < b[k]
  }

  lemma TopologicalNextIsAvailable(edges: seq<Edge>, n: nat, order: seq<nat>, k: nat)
    requires InRange(edges, n) && IsTopological(order, edges, n) && k < n
    ensures Available(edges, n, Elems(order[..k]), order[k])
  {
    forall q | HasEdge(edges, q, order[k])
      ensures q in Elems(order[..k])
    {
      PermutationCovers(order, n, q);
      var i :| 0 <= i < |order| && order[i] == q;
      assert i < k;
      assert order[..k][i] == q;
    }
  }

  ghost function FirstDifference(a: seq<nat>, b: seq<nat>): (k: nat)
    requires |a| == |b| && a != b
    ensures k < |a| && a[..k] == b[..k] && a[k] != b[k]
  {
    if a[0] != b[0] then 0
    else
      assert a == [a[0]] + a[1..] && b == [b[0]] + b[1..];
      var k := FirstDifference(a[1..], b[1..]);
      assert a[..k + 1] == [a[0]] + a[1..][..k] && b[..k + 1] == [b[0]] + b[1..][..k];
      k + 1
  }

  /** No topological order of the same edges comes before the one produced. */
  lemma GreedyIsLeast(edges: seq<Edge>, n: nat, order: seq<nat>, other: seq<nat>)
    requires InRange(edges, n) && Greedy(edges, n, order) && |order| == n
    requires IsTopological(other, edges, n)
    ensures order == other || LexicographicallyBefore(order, other)
  {
    if order != other {
      var k := FirstDifference(order, other);
      TopologicalNextIsAvailable(edges, n, other, k);
      assert IsLeastAvailable(edges, n, Elems(order[..k]), order[k]);
      assert order[k] <= other[k];
    }
  }

  /** When every edge goes from a lower to a higher id, passes run in id order. */
  lemma {:induction false} UpwardEdgesKeepIdOrder(edges: seq<Edge>, n: nat, order: seq<nat>, k: nat)
    requires InRange(edges, n) && Greedy(edges, n, order) && Stuck(edges, n, order)
    requires forall i :: 0 <= i < |edges| ==> edges[i].from < edges[i].to
    requires k <= n
    ensures |order| >= k && forall i :: 0 <= i < k ==> order[i] == i
    decreases k
  {
    if k > 0 {
      UpwardEdgesKeepIdOrder(edges, n, order, k - 1);
      var done := Elems(order[..k - 1]);
      assert forall x :: x in done <==> 0 <= x < k - 1 by {
        forall x | 0 <= x < k - 1
          ensures x in done
        {
          assert order[..k - 1][x] == x;
        }
      }
      assert Available(edges, n, done, k - 1);
      assert |order| != k - 1 by {
        assert order[..|order|] == order;
      }
      assert IsLeastAvailable(edges, n, done, order[k - 1]);
    }
  }
}
