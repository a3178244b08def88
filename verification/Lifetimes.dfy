/** Resource lifetimes: the passes of the first and the last surviving use, in declaration order. */
module Lifetimes {
  import opened GraphModel
  import opened PassOrder
  import opened Barriers
  import opened BarrierReplay

  datatype Lifetime = Lifetime(resource: nat, isImage: bool, used: bool, firstPass: nat, lastPass: nat)

  ghost function LifetimeFrom<A>(r: nat, isImage: bool, live: seq<Use<A>>): Lifetime {
    if live == [] then Lifetime(r, isImage, false, INVALID_ID, INVALID_ID)
    else Lifetime(r, isImage, true, live[0].pass, live[|live| - 1].pass)
  }

  ghost function LifetimeOf(r: nat, resource: Resource, surviving: seq<bool>): Lifetime
    requires resource.Image? ==> UsesInRange(resource.imageUses, |surviving|)
    requires resource.Buffer? ==> UsesInRange(resource.bufferUses, |surviving|)
  {
    match resource
    case Image(_, _, _, uses) => LifetimeFrom(r, true, Live(uses, surviving))
    case Buffer(_, uses) => LifetimeFrom(r, false, Live(uses, surviving))
  }

  method FindLifetime<A>(r: nat, isImage: bool, uses: seq<Use<A>>, surviving: seq<bool>) returns (lifetime: Lifetime)
    requires UsesInRange(uses, |surviving|) && |surviving| <= MAX_PASS_COUNT
    ensures lifetime == LifetimeFrom(r, isImage, Live(uses, surviving))
  {
    hide Live;
    var used: bool, firstPass: nat, lastPass: nat := false, INVALID_ID, INVALID_ID;
    ghost var live: seq<Use<A>> := [];
    NothingLive(uses, surviving);
    for u := 0 to |uses|
      invariant live == Live(uses[..u], surviving)
      invariant Lifetime(r, isImage, used, firstPass, lastPass) == LifetimeFrom(r, isImage, live)
      invariant used ==> firstPass < INVALID_ID
    {
      LiveExtends(uses, surviving, u);
      if surviving[uses[u].pass] {
        live := live + [uses[u]];
        used := true;
        if firstPass == INVALID_ID {
          firstPass := uses[u].pass;
        }
        lastPass := uses[u].pass;
      }
    }
    assert uses[..|uses|] == uses;
    lifetime := Lifetime(r, isImage, used, firstPass, lastPass);
  }

  // One lifetime for each resource.
  ghost predicate AreLifetimes(resources: seq<Resource>, surviving: seq<bool>, lifetimes: seq<Lifetime>)
    requires ResourcesInRange(resources, |surviving|)
  {
    |lifetimes| == |resources| && forall r :: 0 <= r < |resources| ==> lifetimes[r] == LifetimeOf(r, resources[r], surviving)
  }

  method FindLifetimes(resources: seq<Resource>, surviving: seq<bool>) returns (lifetimes: seq<Lifetime>)
    requires ResourcesInRange(resources, |surviving|) && |surviving| <= MAX_PASS_COUNT
    ensures AreLifetimes(resources, surviving, lifetimes)
  {
    lifetimes := [];
    for r := 0 to |resources|
      invariant |lifetimes| == r
      invariant forall k :: 0 <= k < r ==> lifetimes[k] == LifetimeOf(k, resources[k], surviving)
    {
      var lifetime;
      match resources[r] {
        case Image(_, _, _, uses) => lifetime := FindLifetime(r, true, uses, surviving);
        case Buffer(_, uses) => lifetime := FindLifetime(r, false, uses, surviving);
      }
      lifetimes := lifetimes + [lifetime];
    }
  }

  // No surviving use runs before the first pass of the lifetime or after the last one.
  ghost predicate Covers<A>(lifetime: Lifetime, live: seq<Use<A>>, order: seq<nat>) {
    forall i :: 0 <= i < |live| ==>
      && (live[i].pass == lifetime.firstPass || RunsBefore(order, lifetime.firstPass, live[i].pass))
      && (live[i].pass == lifetime.lastPass || RunsBefore(order, live[i].pass, lifetime.lastPass))
  }

  /** When the surviving uses run as declared, the lifetime covers them. */
  lemma LifetimeCovers<A>(r: nat, isImage: bool, live: seq<Use<A>>, order: seq<nat>)
    requires RunsInOrder(live, order)
    ensures Covers(LifetimeFrom(r, isImage, live), live, order)
  {
  }

  /** In a pass-ordered graph the lifetime is the smallest interval of ids that holds every surviving use. */
  lemma LifetimeIsInterval<A>(r: nat, isImage: bool, uses: seq<Use<A>>, surviving: seq<bool>)
    requires UsesInRange(uses, |surviving|)
    requires forall i, j :: 0 <= i < j < |uses| ==> uses[i].pass < uses[j].pass
    ensures var live, lifetime := Live(uses, surviving), LifetimeFrom(r, isImage, Live(uses, surviving));
      && (lifetime.used <==> exists i :: 0 <= i < |uses| && surviving[uses[i].pass])
      && (forall i :: 0 <= i < |uses| && surviving[uses[i].pass] ==> lifetime.firstPass <= uses[i].pass <= lifetime.lastPass)
      && (lifetime.used ==> exists i, j :: Ends(uses, surviving, lifetime, i, j))
  {
    var at := LiveIndices(uses, surviving);
    LiveAtIndices(uses, surviving);
    if at != [] {
      assert Ends(uses, surviving, LifetimeFrom(r, isImage, Live(uses, surviving)), at[0], at[|at| - 1]);
    }
    forall i | 0 <= i < |uses| && surviving[uses[i].pass]
      ensures at != [] && uses[at[0]].pass <= uses[i].pass <= uses[at[|at| - 1]].pass
    {
      assert i in at;
      var k :| 0 <= k < |at| && at[k] == i;
      assert at[0] <= at[k] <= at[|at| - 1];
    }
  }

  // The ends of the lifetime are passes of surviving uses.
  ghost predicate Ends<A>(uses: seq<Use<A>>, surviving: seq<bool>, lifetime: Lifetime, i: nat, j: nat) {
    && i < |uses| && uses[i].pass < |surviving| && surviving[uses[i].pass] && uses[i].pass == lifetime.firstPass
    && j < |uses| && uses[j].pass < |surviving| && surviving[uses[j].pass] && uses[j].pass == lifetime.lastPass
  }
}
