/** Uniqueness of the reduced canonical form. */
module NormalForm {
  import opened Intervals
  import opened CubeTrees

  /** Every layer of the i-th active dimension allows its whole domain. */
  ghost predicate FullAt(t: Tree, act: seq<nat>, i: nat, dims: seq<Dimension>)
    requires i < |act|
    decreases i
  {
    t.Node? ==>
      if i == 0 then forall k :: k in t.layers ==> k == Domain(dims, act[0])
      else forall k :: k in t.layers ==> FullAt(t.layers[k], act[1..], i - 1, dims)
  }

  /** Minimal active dimensions. An empty set is never reduced in this sense. */
  ghost predicate Reduced(t: Tree, act: seq<nat>, dims: seq<Dimension>) {
    forall i: nat :: i < |act| ==> !FullAt(t, act, i, dims)
  }

  ghost predicate SameAfterMove(t: Tree, act: seq<nat>, p: Point, d: nat, y: int) {
    d < |p| ==> (Holds(t, act, p) <==> Holds(t, act, p[d := y]))
  }

  /** Membership does not depend on coordinate d. */
  ghost predicate Free(t: Tree, act: seq<nat>, d: nat, dims: seq<Dimension>) {
    forall p, y {:trigger SameAfterMove(t, act, p, d, y)} ::
      InSpace(dims, p) && Has(Domain(dims, d), y) ==> SameAfterMove(t, act, p, d, y)
  }

  lemma MoveWithin(dims: seq<Dimension>, p: Point, d: nat, y: int)
    requires InSpace(dims, p) && d < |dims| && Has(Domain(dims, d), y)
    ensures InSpace(dims, p[d := y])
  {
  }

  lemma {:induction false} FullIsFree(t: Tree, act: seq<nat>, i: nat, dims: seq<Dimension>, bot: Tree)
    requires Ordered(act, |dims|) && i < |act| && Canon(t, act, dims, bot) && FullAt(t, act, i, dims)
    ensures Free(t, act, act[i], dims)
    decreases i, 1
  {
    forall p, y | InSpace(dims, p) && Has(Domain(dims, act[i]), y)
      ensures SameAfterMove(t, act, p, act[i], y)
    {
      var q := p[act[i] := y];
      forall k | k in t.layers
        ensures Section(k, t.layers[k], act, p) <==> Section(k, t.layers[k], act, q)
      {
        if i == 0 {
          FullHead(t.layers[k], k, act, dims, p, y);
        } else {
          OpenTree(t, act, dims, bot);
          OpenLayer(t.layers, act, dims, bot, k);
          FullLayer(t.layers[k], act, i, dims, bot, k, p, y);
        }
      }
    }
  }

  lemma {:induction false} FullLayer(s: Tree, act: seq<nat>, i: nat, dims: seq<Dimension>, bot: Tree,
                                     k: IntervalSet, p: Point, y: int)
    requires Ordered(act, |dims|) && 0 < i < |act| && Canon(s, act[1..], dims, bot) && FullAt(s, act[1..], i - 1, dims)
    requires InSpace(dims, p) && Has(Domain(dims, act[i]), y)
    ensures Section(k, s, act, p) <==> Section(k, s, act, p[act[i] := y])
    decreases i, 0
  {
    hide Canon, Layers, Holds, Has, Canonical, Live, FullAt, KeysApart;
    OrderedTail(act, |dims|);
    assert act[1..][i - 1] == act[i] && act[0] != act[i];
    FullIsFree(s, act[1..], i - 1, dims, bot);
    assert SameAfterMove(s, act[1..], p, act[i], y);
  }

  lemma FullHead(s: Tree, k: IntervalSet, act: seq<nat>, dims: seq<Dimension>, p: Point, y: int)
    requires act != [] && Ordered(act, |dims|) && k == Domain(dims, act[0]) && InSpace(dims, p) && Has(k, y)
    ensures Section(k, s, act, p) <==> Section(k, s, act, p[act[0] := y])
  {
    OrderedTail(act, |dims|);
    Frame(s, act[1..], p, p[act[0] := y]);
  }

  /** If the first coordinate does not matter, a layer that holds one value holds them all. */
  lemma {:induction false} FreeHead(t: Tree, act: seq<nat>, dims: seq<Dimension>, bot: Tree, k: IntervalSet, y: int)
    requires act != [] && Ordered(act, |dims|) && NonEmptyDomains(dims)
    requires Canon(t, act, dims, bot) && Free(t, act, act[0], dims)
    requires k in t.layers && Has(Domain(dims, act[0]), y)
    ensures Has(k, y)
  {
    OrderedTail(act, |dims|);
    var base := SomePoint(dims);
    var q := Witness(t.layers[k], act[1..], dims, bot, base);
    var x := SomeValue(k);
    MovedPoint(t, act, dims, k, x, y, q);
    var l :| l in t.layers && Has(l, q[act[0] := y][act[0]]);
    SameSections(t, act, dims, k, x, l, y);
    UniqueTree(t.layers[k], t.layers[l], act[1..], dims, bot);
  }

  /** A point of the section at x is still a point when its first coordinate is moved to y. */
  lemma MovedPoint(t: Tree, act: seq<nat>, dims: seq<Dimension>, k: IntervalSet, x: int, y: int, q: Point)
    requires act != [] && Ordered(act, |dims|) && t.Node? && KeysApart(t.layers)
    requires Free(t, act, act[0], dims) && InSpace(dims, q)
    requires k in t.layers && Has(k, x) && Has(Domain(dims, act[0]), x) && Has(Domain(dims, act[0]), y)
    ensures Holds(t.layers[k], act[1..], q) ==> Holds(t, act, q[act[0] := y])
  {
    OrderedTail(act, |dims|);
    var p := q[act[0] := x];
    MoveWithin(dims, q, act[0], x);
    Frame(t.layers[k], act[1..], q, p);
    Pick(t.layers, act, k, p);
    assert SameAfterMove(t, act, p, act[0], y);
    assert p[act[0] := y] == q[act[0] := y];
  }

  lemma SameSections(t: Tree, act: seq<nat>, dims: seq<Dimension>, k: IntervalSet, x: int, l: IntervalSet, y: int)
    requires act != [] && Ordered(act, |dims|) && t.Node? && KeysApart(t.layers)
    requires Free(t, act, act[0], dims)
    requires k in t.layers && Has(k, x) && Has(Domain(dims, act[0]), x)
    requires l in t.layers && Has(l, y) && Has(Domain(dims, act[0]), y)
    ensures Same(t.layers[k], act[1..], t.layers[l], act[1..], dims)
  {
    forall p | InSpace(dims, p)
      ensures Holds(t.layers[k], act[1..], p) <==> Holds(t.layers[l], act[1..], p)
    {
      SectionPart(t, act, dims, k, x, l, y, p);
      SectionPart(t, act, dims, l, y, k, x, p);
    }
  }

  lemma SectionPart(t: Tree, act: seq<nat>, dims: seq<Dimension>,
                    k: IntervalSet, x: int, l: IntervalSet, y: int, q: Point)
    requires act != [] && Ordered(act, |dims|) && t.Node? && KeysApart(t.layers)
    requires Free(t, act, act[0], dims) && InSpace(dims, q)
    requires k in t.layers && Has(k, x) && Has(Domain(dims, act[0]), x)
    requires l in t.layers && Has(l, y) && Has(Domain(dims, act[0]), y)
    ensures Holds(t.layers[k], act[1..], q) ==> Holds(t.layers[l], act[1..], q)
  {
    OrderedTail(act, |dims|);
    MovedPoint(t, act, dims, k, x, y, q);
    var p := q[act[0] := y];
    Pick(t.layers, act, l, p);
    Frame(t.layers[l], act[1..], q, p);
  }

  lemma FreeHeadIsFull(t: Tree, act: seq<nat>, dims: seq<Dimension>, bot: Tree, k: IntervalSet)
    requires act != [] && Ordered(act, |dims|) && NonEmptyDomains(dims)
    requires Canon(t, act, dims, bot) && Free(t, act, act[0], dims) && k in t.layers
    ensures k == Domain(dims, act[0])
  {
    forall y | Has(Domain(dims, act[0]), y) ensures Has(k, y) { FreeHead(t, act, dims, bot, k, y); }
    assert Within(k, Domain(dims, act[0]));
    Intervals.Unique(k, Domain(dims, act[0]));
  }

  lemma {:induction false} FreeIsFull(t: Tree, act: seq<nat>, i: nat, dims: seq<Dimension>, bot: Tree)
    requires Ordered(act, |dims|) && NonEmptyDomains(dims) && i < |act|
    requires Canon(t, act, dims, bot) && Free(t, act, act[i], dims)
    ensures FullAt(t, act, i, dims)
    decreases i, 1
  {
    forall k | k in t.layers
      ensures if i == 0 then k == Domain(dims, act[0]) else FullAt(t.layers[k], act[1..], i - 1, dims)
    {
      if i == 0 { FreeHeadIsFull(t, act, dims, bot, k); } else { FreeLayerIsFull(t, act, i, dims, bot, k); }
    }
  }

  lemma {:induction false} FreeLayerIsFull(t: Tree, act: seq<nat>, i: nat, dims: seq<Dimension>, bot: Tree,
                                           k: IntervalSet)
    requires Ordered(act, |dims|) && NonEmptyDomains(dims) && 0 < i < |act|
    requires Canon(t, act, dims, bot) && Free(t, act, act[i], dims) && k in t.layers
    ensures FullAt(t.layers[k], act[1..], i - 1, dims)
    decreases i, 0
  {
    hide *;
    OpenTree(t, act, dims, bot);
    OpenLayer(t.layers, act, dims, bot, k);
    FreeBelow(t, act, i, dims, k);
    assert act[1..][i - 1] == act[i];
    FreeIsFull(t.layers[k], act[1..], i - 1, dims, bot);
  }

  lemma FreeBelow(t: Tree, act: seq<nat>, i: nat, dims: seq<Dimension>, k: IntervalSet)
    requires Ordered(act, |dims|) && 0 < i < |act| && t.Node? && KeysApart(t.layers)
    requires k in t.layers && k != [] && Within(k, Domain(dims, act[0])) && Free(t, act, act[i], dims)
    ensures Free(t.layers[k], act[1..], act[i], dims)
  {
    OrderedTail(act, |dims|);
    var x := SomeValue(k);
    forall p, y | InSpace(dims, p) && Has(Domain(dims, act[i]), y)
      ensures SameAfterMove(t.layers[k], act[1..], p, act[i], y)
    {
      var q := p[act[0] := x];
      MoveWithin(dims, p, act[0], x);
      Frame(t.layers[k], act[1..], p, q);
      Frame(t.layers[k], act[1..], p[act[i] := y], q[act[i] := y]);
      Pick(t.layers, act, k, q);
      Pick(t.layers, act, k, q[act[i] := y]);
      assert SameAfterMove(t, act, q, act[i], y);
    }
  }

  lemma FreeIsSemantic(t: Tree, actT: seq<nat>, u: Tree, actU: seq<nat>, d: nat, dims: seq<Dimension>)
    requires Same(t, actT, u, actU, dims) && d < |dims| && Free(t, actT, d, dims)
    ensures Free(u, actU, d, dims)
  {
    forall p, y | InSpace(dims, p) && Has(Domain(dims, d), y)
      ensures SameAfterMove(u, actU, p, d, y)
    {
      MoveWithin(dims, p, d, y);
      assert SameAfterMove(t, actT, p, d, y);
    }
  }

  lemma InactiveIsFree(t: Tree, act: seq<nat>, d: nat, dims: seq<Dimension>)
    requires d !in act
    ensures Free(t, act, d, dims)
  {
    forall p, y | InSpace(dims, p) && d < |p| && Has(Domain(dims, d), y)
      ensures SameAfterMove(t, act, p, d, y)
    {
      Frame(t, act, p, p[d := y]);
    }
  }

  /** A dimension is active in the reduced form exactly when membership depends on it. */
  lemma ActiveIffNeeded(t: Tree, act: seq<nat>, dims: seq<Dimension>, bot: Tree, d: nat)
    requires Ordered(act, |dims|) && NonEmptyDomains(dims) && d < |dims|
    requires Canon(t, act, dims, bot) && Reduced(t, act, dims)
    ensures d in act <==> !Free(t, act, d, dims)
  {
    if d !in act {
      InactiveIsFree(t, act, d, dims);
    } else if Free(t, act, d, dims) {
      var i: nat :| i < |act| && act[i] == d;
      FreeIsFull(t, act, i, dims, bot);
      assert false;
    }
  }

  lemma Member(b: seq<nat>)
    ensures b == [] || exists d :: d in b
  {
    if b != [] { assert b[0] in b; }
  }

  lemma {:induction false} OrderedUnique(a: seq<nat>, b: seq<nat>, n: nat)
    requires Ordered(a, n) && Ordered(b, n) && forall d :: d in a <==> d in b
    ensures a == b
    decreases |a|
  {
    if a == [] {
      Member(b);
    } else {
      assert a[0] in b && b != [] && b[0] in a;
      OrderedTail(a, n);
      OrderedTail(b, n);
      forall d ensures d in a[1..] <==> d in b[1..] {
        assert d in a <==> d == a[0] || d in a[1..];
        assert d in b <==> d == b[0] || d in b[1..];
      }
      OrderedUnique(a[1..], b[1..], n);
      assert a == [a[0]] + a[1..] && b == [b[0]] + b[1..];
    }
  }

  /** Two reduced canonical sets hold the same points exactly when their active dimensions and
      their layers are equal. */
  lemma EqualIffSamePoints(t: Tree, actT: seq<nat>, u: Tree, actU: seq<nat>, dims: seq<Dimension>)
    requires Ordered(actT, |dims|) && Ordered(actU, |dims|) && NonEmptyDomains(dims)
    requires Canon(t, actT, dims, Leaf) && Reduced(t, actT, dims)
    requires Canon(u, actU, dims, Leaf) && Reduced(u, actU, dims)
    ensures actT == actU && t == u <==> Same(t, actT, u, actU, dims)
  {
    if Same(t, actT, u, actU, dims) {
      forall d
        ensures d in actT <==> d in actU
      {
        if 0 <= d < |dims| {
          ActiveIffNeeded(t, actT, dims, Leaf, d);
          ActiveIffNeeded(u, actU, dims, Leaf, d);
          if Free(t, actT, d, dims) { FreeIsSemantic(t, actT, u, actU, d, dims); }
          if Free(u, actU, d, dims) { FreeIsSemantic(u, actU, t, actT, d, dims); }
        }
      }
      OrderedUnique(actT, actU, |dims|);
      UniqueTree(t, u, actT, dims, Leaf);
    }
  }
}
