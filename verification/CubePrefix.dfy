/** Aligning the active dimensions of two sets, and looking at a set through its first dimensions only, as is needed
    for the stump that widening an empty set leaves. */
module CubePrefix {
  import opened Intervals
  import opened CubeTrees
  import opened NormalForm
  import opened CubeCells
  import opened CubeDims
  import opened CubeContain

  ghost predicate AgreeBelow(p: Point, q: Point, a: nat) {
    |p| == |q| && forall d: nat :: d < a && d < |p| ==> p[d] == q[d]
  }

  lemma {:induction false} HoldsPrefix(t: Tree, pre: seq<nat>, act: seq<nat>, p: Point)
    requires pre <= act && Holds(t, act, p)
    ensures Holds(t, pre, p)
    decreases |act|
  {
    if pre != [] {
      hide Has, Canonical;
      var k :| k in t.layers && Has(k, p[act[0]]) && Holds(t.layers[k], act[1..], p);
      HoldsPrefix(t.layers[k], pre[1..], act[1..], p);
    }
  }

  /** A prefix of a point's path can be completed to a point. */
  lemma {:induction false} Complete(t: Tree, pre: seq<nat>, act: seq<nat>, dims: seq<Dimension>, p: Point)
    returns (q: Point)
    requires pre <= act && Good(t, act, dims) && InSpace(dims, p) && Holds(t, pre, p)
    ensures InSpace(dims, q) && Holds(t, act, q)
    ensures forall d: nat :: d < |p| && d !in act[|pre|..] ==> p[d] == q[d]
    decreases |act|
  {
    if pre == [] {
      q := Witness(t, act, dims, Leaf, p);
      assert act[|pre|..] == act;
    } else {
      var k :| k in t.layers && Has(k, p[act[0]]) && Holds(t.layers[k], pre[1..], p);
      GoodLayer(t, act, dims, k);
      OrderedTail(act, |dims|);
      assert act[1..][|pre[1..]|..] == act[|pre|..];
      q := Complete(t.layers[k], pre[1..], act[1..], dims, p);
      hide Good, Canonical;
      assert q[act[0]] == p[act[0]];
    }
  }

  /** `u` has a point that agrees with p on every dimension before a. */
  ghost predicate CompletesTo(u: Tree, act: seq<nat>, a: nat, p: Point, dims: seq<Dimension>) {
    exists q :: InSpace(dims, q) && AgreeBelow(p, q, a) && Holds(u, act, q)
  }

  lemma BeforeMember(act: seq<nat>, a: nat, n: nat)
    requires Ordered(act, n)
    ensures forall d: nat :: d in Before(act, a) <==> d in act && d < a
    ensures Before(act, a) <= act && forall d: nat :: d in act[|Before(act, a)|..] ==> d >= a
    decreases |act|
  {
    if act != [] && act[0] < a {
      OrderedTail(act, n);
      BeforeMember(act[1..], a, n);
      HeadLeast(act, n);
      assert Before(act, a) == [act[0]] + Before(act[1..], a);
      assert act[|Before(act, a)|..] == act[1..][|Before(act[1..], a)|..];
    } else if act != [] {
      HeadLeast(act, n);
    }
  }

  lemma PrefixReaches(u: Tree, act: seq<nat>, a: nat, dims: seq<Dimension>, p: Point)
    requires Good(u, act, dims) && InSpace(dims, p)
    ensures Holds(u, Before(act, a), p) <==> CompletesTo(u, act, a, p, dims)
  {
    BeforeMember(act, a, |dims|);
    var pre := Before(act, a);
    if Holds(u, pre, p) {
      var q := Complete(u, pre, act, dims, p);
      assert AgreeBelow(p, q, a);
    }
    if CompletesTo(u, act, a, p, dims) {
      var q :| InSpace(dims, q) && AgreeBelow(p, q, a) && Holds(u, act, q);
      HoldsPrefix(u, pre, act, q);
      Frame(u, pre, p, q);
    }
  }

  /** A tree that stops before its last active dimension holds nothing. */
  lemma {:induction false} StumpHoldsNothing(t: Tree, pre: seq<nat>, act: seq<nat>, dims: seq<Dimension>, p: Point)
    requires pre <= act && |pre| < |act| && Canon(t, pre, dims, Node(map[]))
    ensures !Holds(t, act, p)
    decreases |act|
  {
    if pre != [] {
      OpenTree(t, pre, dims, Node(map[]));
      forall k | k in t.layers ensures !Holds(t.layers[k], act[1..], p) {
        assert Canon(t.layers[k], pre[1..], dims, Node(map[]));
        StumpHoldsNothing(t.layers[k], pre[1..], act[1..], dims, p);
      }
    }
  }

  // ----- _set_active_dimensions and _prepare_common_active_dimensions -----

  /** The members of a set of dimensions, in the order of all dimensions. */
  method InOrder(names: set<nat>, n: nat) returns (r: seq<nat>)
    requires forall d :: d in names ==> d < n
    ensures Ordered(r, n) && forall d: nat :: d in r <==> d in names
  {
    r := [];
    for d := 0 to n
      invariant Ordered(r, d)
      invariant forall x: nat :: x in r <==> x < d && x in names
    {
      if d in names { r := r + [d]; }
    }
    forall x: nat | x in names ensures x < n {}
  }

  function Members(a: seq<nat>): set<nat> { set d | d in a }

  method SetActiveDimensions(t: Tree, act: seq<nat>, names: set<nat>, dims: seq<Dimension>)
    returns (r: Tree, act': seq<nat>)
    requires Ordered(act, |dims|) && NonEmptyDomains(dims) && Canon(t, act, dims, Leaf)
    requires forall d :: d in names ==> d < |dims|
    ensures Ordered(act', |dims|) && forall d: nat :: d in act' <==> d in act || d in names
    ensures Live(t, act) ==> Canon(r, act', dims, Leaf) && Same(t, act, r, act', dims)
    ensures !Live(t, act) ==> act != [] && Canon(r, Before(act', act[0]), dims, Node(map[]))
    ensures !Live(t, act) ==> forall p :: InSpace(dims, p) ==> Holds(r, Before(act', act[0]), p)
  {
    if names <= Members(act) {
      r, act' := t, act;
      SetActiveSame(t, act, dims);
      return;
    }
    forall d: nat | d in act ensures d < |dims| {}
    act' := InOrder(Members(act) + names, |dims|);
    if act == [] {
      r := CubeTree(Domains(dims, act'));
      EntireSpace(dims, act');
      hide Canon, Canonical, Has, Domains, CubeTree;
      assert Same(t, act, r, act', dims);
    } else {
      hide Canon, Canonical, Has, Holds, Same, InSpace, Before;
      r := Widen(t, act, act', dims);
    }
  }

  lemma SetActiveSame(t: Tree, act: seq<nat>, dims: seq<Dimension>)
    requires Canon(t, act, dims, Leaf)
    ensures Same(t, act, t, act, dims)
    ensures !Live(t, act) ==> act != [] && Before(act, act[0]) == [] && Canon(t, [], dims, Node(map[]))
    ensures forall p :: Holds(t, [], p)
  {
  }

  lemma MembersOf(a: seq<nat>, b: seq<nat>)
    ensures forall d: nat :: d in Members(a + b) <==> d in a || d in b
    ensures Members(b) == Members(a + b) <==> forall d: nat :: d in a ==> d in b
  {
    if Members(b) == Members(a + b) {
      forall d: nat | d in a ensures d in b { assert d in Members(a + b); }
    }
  }

  method PrepareCommon(t: Tree, actT: seq<nat>, u: Tree, actU: seq<nat>, dims: seq<Dimension>)
    returns (t': Tree, u': Tree, act: seq<nat>)
    requires Ordered(actT, |dims|) && NonEmptyDomains(dims) && Canon(t, actT, dims, Leaf) && Good(u, actU, dims)
    ensures Ordered(act, |dims|) && Merge(act, actT, actU) && Good(u', act, dims) && Same(u, actU, u', act, dims)
    ensures Live(t, actT) ==> Canon(t', act, dims, Leaf) && Same(t, actT, t', act, dims)
    ensures !Live(t, actT) ==> actT != [] && Canon(t', Before(act, actT[0]), dims, Node(map[]))
    ensures !Live(t, actT) ==> forall p :: InSpace(dims, p) ==> Holds(t', Before(act, actT[0]), p)
  {
    if actT == actU {
      SetActiveSame(t, actT, dims);
      return t, u, actT;
    }
    forall d: nat | d in actT || d in actU ensures d < |dims| {}
    var required := Members(actT + actU);
    MembersOf(actT, actU);
    assert Canon(u, actU, dims, Leaf) && Live(u, actU);
    hide Canon, Canonical, Has, Holds, InSpace, Before, Live;
    t', act := SetActiveDimensions(t, actT, required, dims);
    if Members(actU) == required {
      u' := u;
      OrderedUnique(actU, act, |dims|);
    } else {
      var actO;
      u', actO := SetActiveDimensions(u, actU, required, dims);
      OrderedUnique(actO, act, |dims|);
      CanonShape(u', act, dims, Leaf);
      SameIsLive(u, actU, Leaf, u', act, dims);
    }
  }
}
