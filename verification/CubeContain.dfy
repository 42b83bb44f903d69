/** contained_in: inclusion of two canonical sets whose active dimensions may differ. */
module CubeContain {
  import opened Intervals
  import opened CubeTrees
  import opened NormalForm
  import opened CubeCells
  import CubeDims

  ghost predicate Inside(t: Tree, actT: seq<nat>, u: Tree, actU: seq<nat>, dims: seq<Dimension>) {
    forall p :: InSpace(dims, p) && Holds(t, actT, p) ==> Holds(u, actU, p)
  }

  ghost predicate Everything(t: Tree, act: seq<nat>, dims: seq<Dimension>) {
    forall p :: InSpace(dims, p) ==> Holds(t, act, p)
  }

  ghost predicate Good(t: Tree, act: seq<nat>, dims: seq<Dimension>) {
    Ordered(act, |dims|) && NonEmptyDomains(dims) && Canon(t, act, dims, Leaf) && Live(t, act)
  }

  /** Inclusion of the points that one layer contributes. */
  ghost predicate LayerInside(k: IntervalSet, s: Tree, actT: seq<nat>, u: Tree, actU: seq<nat>, dims: seq<Dimension>)
    requires actT != []
  {
    forall p :: InSpace(dims, p) && Section(k, s, actT, p) ==> Holds(u, actU, p)
  }

  lemma GoodLayer(t: Tree, act: seq<nat>, dims: seq<Dimension>, k: IntervalSet)
    requires act != [] && Good(t, act, dims) && t.Node? && k in t.layers
    ensures k != [] && Within(k, Domain(dims, act[0])) && Good(t.layers[k], act[1..], dims) && KeysApart(t.layers)
  {
    OpenTree(t, act, dims, Leaf);
    OpenLayer(t.layers, act, dims, Leaf, k);
  }

  /** Any point of a sub-tree, moved to a value of its layer, is a point of the tree. */
  lemma Lift(t: Tree, act: seq<nat>, dims: seq<Dimension>, k: IntervalSet, x: int, p: Point) returns (q: Point)
    requires act != [] && Good(t, act, dims) && t.Node? && k in t.layers && Has(k, x)
    requires InSpace(dims, p)
    ensures q == p[act[0] := x] && InSpace(dims, q)
    ensures Holds(t, act, q) <==> Holds(t.layers[k], act[1..], p)
    ensures Section(k, t.layers[k], act, q) <==> Holds(t.layers[k], act[1..], p)
  {
    GoodLayer(t, act, dims, k);
    OrderedTail(act, |dims|);
    q := p[act[0] := x];
    hide Canon, Has, Canonical, Holds, Good;
    MoveWithin(dims, p, act[0], x);
    Frame(t.layers[k], act[1..], p, q);
    Pick(t.layers, act, k, q);
  }

  /** _is_sub_elem_entire_sub_space. */
  method IsEntire(t: Tree, act: seq<nat>, dims: seq<Dimension>) returns (b: bool)
    requires Good(t, act, dims)
    ensures b <==> Everything(t, act, dims)
  {
    var full := CubeDims.CubeTree(CubeDims.Domains(dims, act));
    b := full == t;
    CubeDims.EntireSpace(dims, act);
    if Everything(t, act, dims) { UniqueTree(full, t, act, dims, Leaf); }
  }

  // ----- case 1: the first dimension is active in the left set only -----

  lemma OnlyLeft(t: Tree, actT: seq<nat>, u: Tree, actU: seq<nat>, dims: seq<Dimension>)
    requires actT != [] && Good(t, actT, dims) && Good(u, actU, dims) && actT[0] !in actU
    ensures t.Node?
    ensures Inside(t, actT, u, actU, dims) <==>
              forall k :: k in t.layers ==> Inside(t.layers[k], actT[1..], u, actU, dims)
  {
    OpenTree(t, actT, dims, Leaf);
    if Inside(t, actT, u, actU, dims) {
      forall k | k in t.layers ensures Inside(t.layers[k], actT[1..], u, actU, dims) {
        GoodLayer(t, actT, dims, k);
        var x := SomeValue(k);
        hide Canon, Has, Canonical, Holds, Good;
        forall p | InSpace(dims, p) && Holds(t.layers[k], actT[1..], p) ensures Holds(u, actU, p) {
          var q := Lift(t, actT, dims, k, x, p);
          Frame(u, actU, p, q);
        }
      }
    }
  }

  lemma OnlyLeftLast(t: Tree, actT: seq<nat>, u: Tree, actU: seq<nat>, dims: seq<Dimension>)
    requires |actT| == 1 && Good(t, actT, dims) && Good(u, actU, dims) && actT[0] !in actU
    ensures Inside(t, actT, u, actU, dims) <==> Everything(u, actU, dims)
  {
    OpenTree(t, actT, dims, Leaf);
    if Inside(t, actT, u, actU, dims) {
      var k :| k in t.layers;
      GoodLayer(t, actT, dims, k);
      var x := SomeValue(k);
      forall p | InSpace(dims, p) ensures Holds(u, actU, p) {
        var q := Lift(t, actT, dims, k, x, p);
        Frame(u, actU, p, q);
      }
    }
  }

  // ----- case 2: the first dimension is active in the right set only -----

  /** The left set has a point with any wanted coordinate in a dimension it does not use. */
  lemma FreeCoordinate(t: Tree, act: seq<nat>, dims: seq<Dimension>, d: nat, y: int) returns (p: Point)
    requires Good(t, act, dims) && d !in act && d < |dims| && Has(Domain(dims, d), y)
    ensures InSpace(dims, p) && Holds(t, act, p) && p[d] == y
  {
    var base := SomePoint(dims);
    var q := Witness(t, act, dims, Leaf, base);
    p := q[d := y];
    MoveWithin(dims, q, d, y);
    Frame(t, act, q, p);
  }

  lemma OnlyRightLast(t: Tree, actT: seq<nat>, u: Tree, actU: seq<nat>, dims: seq<Dimension>)
    requires |actU| == 1 && Good(t, actT, dims) && Good(u, actU, dims) && actU[0] !in actT
    ensures Inside(t, actT, u, actU, dims) <==> Everything(u, actU, dims)
  {
    OrderedTail(actU, |dims|);
    if Inside(t, actT, u, actU, dims) {
      forall p | InSpace(dims, p) ensures Holds(u, actU, p) {
        var q := FreeCoordinate(t, actT, dims, actU[0], p[actU[0]]);
        Frame(u, actU, q, p);
      }
    }
  }

  lemma OnlyRight(t: Tree, actT: seq<nat>, u: Tree, actU: seq<nat>, dims: seq<Dimension>)
    requires actU != [] && Good(t, actT, dims) && Good(u, actU, dims) && actU[0] !in actT
    ensures u.Node?
    ensures Inside(t, actT, u, actU, dims) <==>
              (forall l :: l in u.layers ==> Inside(t, actT, u.layers[l], actU[1..], dims)) &&
              (forall x :: Has(Domain(dims, actU[0]), x) ==> Covers(u.layers, x))
  {
    OpenTree(u, actU, dims, Leaf);
    OrderedTail(actU, |dims|);
    if Inside(t, actT, u, actU, dims) {
      forall l | l in u.layers ensures Inside(t, actT, u.layers[l], actU[1..], dims) {
        OnlyRightLayer(t, actT, u, actU, dims, l);
      }
      forall x | Has(Domain(dims, actU[0]), x) ensures Covers(u.layers, x) {
        var p := FreeCoordinate(t, actT, dims, actU[0], x);
        assert Holds(u, actU, p);
      }
    }
    if (forall l :: l in u.layers ==> Inside(t, actT, u.layers[l], actU[1..], dims)) &&
       (forall x :: Has(Domain(dims, actU[0]), x) ==> Covers(u.layers, x)) {
      hide Canon, Canonical, Good, Layers;
      forall p | InSpace(dims, p) && Holds(t, actT, p) ensures Holds(u, actU, p) {
        assert Covers(u.layers, p[actU[0]]);
        var l :| l in u.layers && Has(l, p[actU[0]]);
      }
    }
  }

  lemma OnlyRightLayer(t: Tree, actT: seq<nat>, u: Tree, actU: seq<nat>, dims: seq<Dimension>, l: IntervalSet)
    requires actU != [] && Good(t, actT, dims) && Good(u, actU, dims) && actU[0] !in actT
    requires u.Node? && l in u.layers && Inside(t, actT, u, actU, dims)
    ensures Inside(t, actT, u.layers[l], actU[1..], dims)
  {
    GoodLayer(u, actU, dims, l);
    var x := SomeValue(l);
    hide Canon, Has, Canonical, Holds, Good;
    forall p | InSpace(dims, p) && Holds(t, actT, p) ensures Holds(u.layers[l], actU[1..], p) {
      var q := Lift(u, actU, dims, l, x, p);
      Frame(t, actT, p, q);
    }
  }

  // ----- case 3: the first dimension is active in both -----

  lemma BothLayers(t: Tree, actT: seq<nat>, u: Tree, actU: seq<nat>, dims: seq<Dimension>)
    requires actT != [] && Good(t, actT, dims)
    ensures t.Node?
    ensures Inside(t, actT, u, actU, dims) <==>
              forall k :: k in t.layers ==> LayerInside(k, t.layers[k], actT, u, actU, dims)
  {
    OpenTree(t, actT, dims, Leaf);
    hide Canon, Has, Canonical, Layers, Good;
    if Inside(t, actT, u, actU, dims) {
      forall k | k in t.layers ensures LayerInside(k, t.layers[k], actT, u, actU, dims) {
        forall p | InSpace(dims, p) && Section(k, t.layers[k], actT, p) ensures Holds(u, actU, p) {
          assert Holds(t, actT, p);
        }
      }
    }
    if forall k :: k in t.layers ==> LayerInside(k, t.layers[k], actT, u, actU, dims) {
      forall p | InSpace(dims, p) && Holds(t, actT, p) ensures Holds(u, actU, p) {
        var k :| k in t.layers && Has(k, p[actT[0]]) && Holds(t.layers[k], actT[1..], p);
        assert LayerInside(k, t.layers[k], actT, u, actU, dims);
        assert Section(k, t.layers[k], actT, p);
      }
    }
  }

  /** An overlapping pair that is not included refutes the layer. */
  lemma PairRefutes(t: Tree, actT: seq<nat>, k: IntervalSet, u: Tree, actU: seq<nat>, l: IntervalSet, x: int,
                    dims: seq<Dimension>)
    requires actT != [] && actU != [] && actT[0] == actU[0] && Good(t, actT, dims) && Good(u, actU, dims)
    requires t.Node? && u.Node? && k in t.layers && l in u.layers && Has(k, x) && Has(l, x)
    ensures LayerInside(k, t.layers[k], actT, u, actU, dims) ==>
                Inside(t.layers[k], actT[1..], u.layers[l], actU[1..], dims)
  {
    hide Canon, Has, Canonical, Holds, Good, Section;
    if LayerInside(k, t.layers[k], actT, u, actU, dims) {
      forall p | InSpace(dims, p) && Holds(t.layers[k], actT[1..], p) ensures Holds(u.layers[l], actU[1..], p) {
        var q := Lift(t, actT, dims, k, x, p);
        var q' := Lift(u, actU, dims, l, x, p);
      }
    }
  }

  /** A value of the layer outside every layer of the right set refutes it. */
  lemma UncoveredRefutes(t: Tree, actT: seq<nat>, k: IntervalSet, u: Tree, actU: seq<nat>, x: int, dims: seq<Dimension>)
    requires actT != [] && actU != [] && actT[0] == actU[0] && Good(t, actT, dims)
    requires t.Node? && u.Node? && k in t.layers && Has(k, x) && !Covers(u.layers, x)
    ensures !LayerInside(k, t.layers[k], actT, u, actU, dims)
  {
    GoodLayer(t, actT, dims, k);
    var base := SomePoint(dims);
    var p := Witness(t.layers[k], actT[1..], dims, Leaf, base);
    var q := Lift(t, actT, dims, k, x, p);
    OrderedTail(actT, |dims|);
    OutsideLayers(u.layers, actU, q);
  }

  /** The pairs visited so far are included. */
  ghost predicate PairsInside(k: IntervalSet, s: Tree, actT: seq<nat>, done: LayerMap, actU: seq<nat>,
                              dims: seq<Dimension>)
    requires actT != [] && actU != []
  {
    forall l, x :: l in done && Has(l, x) && Has(k, x) ==> Inside(s, actT[1..], done[l], actU[1..], dims)
  }

  lemma CoveredInside(k: IntervalSet, s: Tree, actT: seq<nat>, u: Tree, done: LayerMap, actU: seq<nat>,
                      dims: seq<Dimension>)
    requires actT != [] && actU != [] && actT[0] == actU[0] && u.Node?
    requires (forall l :: l in done ==> l in u.layers && u.layers[l] == done[l])
    requires PairsInside(k, s, actT, done, actU, dims) && IsRest([], k, done)
    ensures LayerInside(k, s, actT, u, actU, dims)
  {
    forall p | InSpace(dims, p) && Section(k, s, actT, p) ensures Holds(u, actU, p) {
      var x := p[actT[0]];
      assert !Has([], x);
      var l :| l in done && Has(l, x);
      assert Inside(s, actT[1..], done[l], actU[1..], dims);
    }
  }

  lemma PairsNext(k: IntervalSet, s: Tree, actT: seq<nat>, done: LayerMap, actU: seq<nat>, dims: seq<Dimension>,
                  l: IntervalSet, v: Tree)
    requires actT != [] && actU != [] && PairsInside(k, s, actT, done, actU, dims) && l !in done
    requires (forall x :: !(Has(k, x) && Has(l, x))) || Inside(s, actT[1..], v, actU[1..], dims)
    ensures PairsInside(k, s, actT, done[l := v], actU, dims)
  {
    hide Has, Canonical, Inside;
  }

  // ----- the code -----

  ghost predicate Merge(all: seq<nat>, a: seq<nat>, b: seq<nat>) {
    forall d: nat :: d in all <==> d in a || d in b
  }

  /** Where the first of all active dimensions stands, and what the lists look like behind it. */
  lemma MergeHead(all: seq<nat>, a: seq<nat>, b: seq<nat>, n: nat)
    requires Ordered(all, n) && Ordered(a, n) && Ordered(b, n) && Merge(all, a, b) && a != [] && b != []
    ensures all != [] && Ordered(all[1..], n) && Ordered(a[1..], n) && Ordered(b[1..], n)
    ensures all[0] !in b ==> a[0] == all[0] && a[0] !in b && Merge(all[1..], a[1..], b)
    ensures all[0] !in a ==> b[0] == all[0] && b[0] !in a && Merge(all[1..], a, b[1..])
    ensures all[0] in a && all[0] in b ==> a[0] == all[0] && b[0] == all[0] && Merge(all[1..], a[1..], b[1..])
  {
    assert a[0] in a && b[0] in b;
    assert a[0] in all && b[0] in all;
    assert all[0] in all;
    OrderedTail(all, n);
    OrderedTail(a, n);
    OrderedTail(b, n);
    HeadLeast(all, n);
    HeadLeast(a, n);
    HeadLeast(b, n);
  }

  lemma HeadLeast(a: seq<nat>, n: nat)
    requires a != [] && Ordered(a, n)
    ensures forall d: nat :: d in a <==> d == a[0] || d in a[1..]
    ensures forall d :: d in a ==> a[0] <= d
  {
  }

  method ContainedInAux(t: Tree, actT: seq<nat>, u: Tree, actU: seq<nat>, all: seq<nat>, dims: seq<Dimension>)
    returns (res: bool)
    requires Good(t, actT, dims) && Good(u, actU, dims) && actT != [] && actU != []
    requires Ordered(all, |dims|) && Merge(all, actT, actU)
    ensures res <==> Inside(t, actT, u, actU, dims)
    decreases |all|, 2
  {
    MergeHead(all, actT, actU, |dims|);
    var current := all[0];
    OpenGood(t, actT, u, actU, dims);
    hide Good, Inside, Everything, Merge, Holds, Canon;
    if current !in actU {
      if |actT| == 1 {
        // The source also returns True when no other active dimension is left; the right set always has one.
        OnlyLeftLast(t, actT, u, actU, dims);
        res := IsEntire(u, actU, dims);
      } else {
        OnlyLeft(t, actT, u, actU, dims);
        res := AllSubsInside(t, actT, u, actU, all, dims);
      }
    } else if current !in actT {
      if |actU| == 1 {
        OnlyRightLast(t, actT, u, actU, dims);
        res := IsEntire(u, actU, dims);
      } else {
        OnlyRight(t, actT, u, actU, dims);
        res := InsideAllSubs(t, actT, u, actU, all, dims);
      }
    } else if |actT| == 1 && |actU| == 1 {
      res := LastInside(t, actT, u, actU, dims);
    } else {
      res := LayersInside(t, actT, u, actU, all, dims);
    }
  }

  lemma OpenGood(t: Tree, actT: seq<nat>, u: Tree, actU: seq<nat>, dims: seq<Dimension>)
    requires actT != [] && actU != [] && Good(t, actT, dims) && Good(u, actU, dims)
    ensures t.Node? && u.Node? && t.layers != map[] && u.layers != map[]
    ensures Ordered(actT, |dims|) && Ordered(actU, |dims|)
  {
  }

  /** Case 1 (b). */
  method AllSubsInside(t: Tree, actT: seq<nat>, u: Tree, actU: seq<nat>, all: seq<nat>, dims: seq<Dimension>)
    returns (res: bool)
    requires Good(t, actT, dims) && Good(u, actU, dims) && |actT| > 1 && actU != [] && t.Node?
    requires all != [] && Ordered(all[1..], |dims|) && Merge(all[1..], actT[1..], actU)
    ensures res <==> forall k :: k in t.layers ==> Inside(t.layers[k], actT[1..], u, actU, dims)
    decreases |all|, 1
  {
    res := true;
    var todo := t.layers.Keys;
    hide Good, Inside, Merge, Canonical;
    while todo != {}
      invariant todo <= t.layers.Keys
      invariant res <==> forall k :: k in t.layers && k !in todo ==> Inside(t.layers[k], actT[1..], u, actU, dims)
      decreases |todo|
    {
      var k :| k in todo;
      GoodLayer(t, actT, dims, k);
      var inside := ContainedInAux(t.layers[k], actT[1..], u, actU, all[1..], dims);
      res := res && inside;
      todo := todo - {k};
    }
  }

  /** Case 2 (b). */
  method InsideAllSubs(t: Tree, actT: seq<nat>, u: Tree, actU: seq<nat>, all: seq<nat>, dims: seq<Dimension>)
    returns (res: bool)
    requires Good(t, actT, dims) && Good(u, actU, dims) && actT != [] && |actU| > 1 && u.Node?
    requires all != [] && Ordered(all[1..], |dims|) && Merge(all[1..], actT, actU[1..])
    ensures res <==> (forall l :: l in u.layers ==> Inside(t, actT, u.layers[l], actU[1..], dims)) &&
                     (forall x :: Has(Domain(dims, actU[0]), x) ==> Covers(u.layers, x))
    decreases |all|, 1
  {
    var covered: IntervalSet := [];
    var todo := u.layers.Keys;
    ghost var done: LayerMap := map[];
    assert forall x :: Has(covered, x) <==> Covers(done, x);
    hide Good, Inside, Merge, Canonical, Has, Covers;
    while todo != {}
      invariant Visited(done, u.layers, todo)
      invariant forall l :: l in done ==> Inside(t, actT, u.layers[l], actU[1..], dims)
      invariant forall x :: Has(covered, x) <==> Covers(done, x)
      decreases |todo|
    {
      var l :| l in todo;
      GoodLayer(u, actU, dims, l);
      VisitNext(done, u.layers, todo, l);
      AddCovers(done, l, u.layers[l]);
      var inside := ContainedInAux(t, actT, u.layers[l], actU[1..], all[1..], dims);
      if !inside { return false; }
      covered := Union(covered, l);
      todo, done := todo - {l}, done[l := u.layers[l]];
    }
    VisitEnd(done, u.layers);
    CoversWithin(u, actU, dims);
    res := covered == Domain(dims, actU[0]);
    if forall x :: Has(Domain(dims, actU[0]), x) ==> Covers(u.layers, x) {
      Intervals.Unique(covered, Domain(dims, actU[0]));
    }
  }

  lemma CoversWithin(u: Tree, act: seq<nat>, dims: seq<Dimension>)
    requires act != [] && Good(u, act, dims) && u.Node?
    ensures forall x :: Covers(u.layers, x) ==> Has(Domain(dims, act[0]), x)
  {
    OpenTree(u, act, dims, Leaf);
    hide Canon, Has, Canonical;
    forall x | Covers(u.layers, x) ensures Has(Domain(dims, act[0]), x) {
      var k :| k in u.layers && Has(k, x);
      assert Within(k, Domain(dims, act[0]));
    }
  }

  /** Case 3 (a): a canonical set with one active dimension has one layer. */
  method LastInside(t: Tree, actT: seq<nat>, u: Tree, actU: seq<nat>, dims: seq<Dimension>) returns (res: bool)
    requires Good(t, actT, dims) && Good(u, actU, dims) && |actT| == 1 && actT == actU
    ensures res <==> Inside(t, actT, u, actU, dims)
  {
    OneLayer(t, actT, dims);
    OneLayer(u, actU, dims);
    hide Good, Inside, Holds, Canon, Canonical, Has;
    var k :| k in t.layers;
    var l :| l in u.layers;
    LastMeaning(t, u, actT, k, l, dims);
    res := Contained(k, l);
  }

  lemma OneLayer(t: Tree, act: seq<nat>, dims: seq<Dimension>)
    requires |act| == 1 && Good(t, act, dims)
    ensures t.Node? && t.layers != map[] && forall k :: k in t.layers ==> t == Node(map[k := Leaf])
  {
    OpenTree(t, act, dims, Leaf);
    forall k | k in t.layers ensures t == Node(map[k := Leaf]) {
      assert t.layers[k] == Leaf;
      forall l | l in t.layers ensures l == k { assert t.layers[l] == t.layers[k]; }
      assert t.layers == map[k := Leaf];
    }
  }

  lemma LastMeaning(t: Tree, u: Tree, act: seq<nat>, k: IntervalSet, l: IntervalSet, dims: seq<Dimension>)
    requires |act| == 1 && Good(t, act, dims) && t == Node(map[k := Leaf]) && u == Node(map[l := Leaf])
    ensures Inside(t, act, u, act, dims) <==> forall x :: Has(k, x) ==> Has(l, x)
  {
    assert k in t.layers;
    GoodLayer(t, act, dims, k);
    OrderedTail(act, |dims|);
    if Inside(t, act, u, act, dims) {
      var base := SomePoint(dims);
      forall x | Has(k, x) ensures Has(l, x) {
        var q := Lift(t, act, dims, k, x, base);
        assert Holds(u, act, q);
      }
    }
  }

  /** Inclusion of the sub-cubes of one overlapping pair of layers. */
  method PairInside(s: Tree, actS: seq<nat>, v: Tree, actV: seq<nat>, all: seq<nat>, dims: seq<Dimension>)
    returns (res: bool)
    requires Good(s, actS, dims) && Good(v, actV, dims) && (actS != [] || actV != [])
    requires Ordered(all, |dims|) && Merge(all, actS, actV)
    ensures res <==> Inside(s, actS, v, actV, dims)
    decreases |all|, 3
  {
    if actS != [] && actV != [] {
      res := ContainedInAux(s, actS, v, actV, all, dims);
    } else if actS == [] {
      res := IsEntire(v, actV, dims);
    } else {
      res := true;
    }
  }

  /** One layer of the left set against all layers of the right one: `refuted` is the early return of False,
      `counted` adds to the number of layers that are contained. */
  method LayerCovered(t: Tree, actT: seq<nat>, k: IntervalSet, u: Tree, actU: seq<nat>, all: seq<nat>,
                      dims: seq<Dimension>)
    returns (refuted: bool, counted: bool)
    requires Good(t, actT, dims) && Good(u, actU, dims) && actT != [] && actU != [] && actT[0] == actU[0]
    requires |actT| > 1 || |actU| > 1
    requires all != [] && Ordered(all[1..], |dims|) && Merge(all[1..], actT[1..], actU[1..])
    requires t.Node? && u.Node? && k in t.layers
    ensures counted <==> LayerInside(k, t.layers[k], actT, u, actU, dims)
    ensures refuted ==> !counted
    decreases |all|, 0
  {
    var s := t.layers[k];
    var current := k;
    var todo := u.layers.Keys;
    ghost var done: LayerMap := map[];
    assert IsRest(current, k, done) && PairsInside(k, s, actT, done, actU, dims);
    GoodLayer(t, actT, dims, k);
    OpenTree(u, actU, dims, Leaf);
    hide Good, Canon, Holds, Inside, Merge, Canonical, Has, Covers, PairsInside, LayerInside, Layers, IsRest, Visited;
    while todo != {}
      invariant Visited(done, u.layers, todo) && IsRest(current, k, done) && current != []
      invariant PairsInside(k, s, actT, done, actU, dims)
      decreases |todo|
    {
      var l :| l in todo;
      var v := u.layers[l];
      VisitNext(done, u.layers, todo, l);
      GoodLayer(u, actU, dims, l);
      var common := Intersection(current, l);
      var remaining := Difference(current, common);
      RestNext(current, remaining, common, k, done, l, v);
      if common != [] {
        var x := CommonValue(common, current, l, k, done);
        PairRefutes(t, actT, k, u, actU, l, x, dims);
        var inside := PairInside(s, actT[1..], v, actU[1..], all[1..], dims);
        if !inside { return true, false; }
        PairsNext(k, s, actT, done, actU, dims, l, v);
        if remaining == [] {
          VisitedSame(done[l := v], u.layers, todo - {l});
          CoveredInside(k, s, actT, u, done[l := v], actU, dims);
          return false, true;
        }
        current := remaining;
      } else {
        NoCommonPair(current, k, u.layers, done, l, todo);
        PairsNext(k, s, actT, done, actU, dims, l, v);
      }
      todo, done := todo - {l}, done[l := v];
    }
    VisitEnd(done, u.layers);
    var x := SomeValue(current);
    RestValue(current, k, done, x);
    UncoveredRefutes(t, actT, k, u, actU, x, dims);
    return false, false;
  }

  lemma RestValue(rem: IntervalSet, k: IntervalSet, done: LayerMap, x: int)
    requires IsRest(rem, k, done) && Has(rem, x)
    ensures Has(k, x) && !Covers(done, x)
  {
  }

  lemma RestNext(current: IntervalSet, remaining: IntervalSet, common: IntervalSet, k: IntervalSet, done: LayerMap,
                 l: IntervalSet, v: Tree)
    requires IsRest(current, k, done) && IsCommon(common, current, l)
    requires forall x :: Has(remaining, x) <==> Has(current, x) && !Has(common, x)
    ensures IsRest(remaining, k, done[l := v]) && (common == [] ==> IsRest(current, k, done[l := v]))
  {
    AddCovers(done, l, v);
    hide Canonical, Covers;
    if common == [] {
      forall x ensures !(Has(current, x) && Has(l, x)) { assert !Has(common, x); }
    }
  }

  lemma CommonValue(common: IntervalSet, current: IntervalSet, l: IntervalSet, k: IntervalSet, done: LayerMap)
    returns (x: int)
    requires common != [] && IsCommon(common, current, l) && IsRest(current, k, done)
    ensures Has(k, x) && Has(l, x)
  {
    x := SomeValue(common);
  }

  lemma VisitedSame(done: LayerMap, m: LayerMap, todo: set<IntervalSet>)
    requires Visited(done, m, todo)
    ensures forall l :: l in done ==> l in m && m[l] == done[l]
  {
  }

  /** The layers already visited are apart from l, so nothing of k is lost by looking at the rest only. */
  lemma NoCommonPair(current: IntervalSet, k: IntervalSet, m: LayerMap, done: LayerMap, l: IntervalSet,
                     todo: set<IntervalSet>)
    requires KeysApart(m) && Visited(done, m, todo) && l in todo
    requires IsRest(current, k, done) && IsCommon([], current, l)
    ensures forall x :: !(Has(k, x) && Has(l, x))
  {
    hide Canonical;
    forall x
      ensures !(Has(k, x) && Has(l, x))
    {
      assert !Has([], x);
      if Covers(done, x) {
        var d :| d in done && Has(d, x);
        assert Apart(d, l);
      }
    }
  }

  /** Case 3 (b). */
  method LayersInside(t: Tree, actT: seq<nat>, u: Tree, actU: seq<nat>, all: seq<nat>, dims: seq<Dimension>)
    returns (res: bool)
    requires Good(t, actT, dims) && Good(u, actU, dims) && actT != [] && actU != [] && actT[0] == actU[0]
    requires |actT| > 1 || |actU| > 1
    requires all != [] && Ordered(all[1..], |dims|) && Merge(all[1..], actT[1..], actU[1..])
    requires t.Node? && u.Node?
    ensures res <==> Inside(t, actT, u, actU, dims)
    decreases |all|, 1
  {
    var count := 0;
    var todo := t.layers.Keys;
    ghost var done: LayerMap := map[];
    BothLayers(t, actT, u, actU, dims);
    hide Good, Canon, Holds, Inside, Merge, Canonical, Has, LayerInside;
    while todo != {}
      invariant Visited(done, t.layers, todo) && count <= |done|
      invariant count == |done| <==> forall k :: k in done ==> LayerInside(k, t.layers[k], actT, u, actU, dims)
      decreases |todo|
    {
      var k :| k in todo;
      VisitNext(done, t.layers, todo, k);
      var refuted, counted := LayerCovered(t, actT, k, u, actU, all, dims);
      if refuted { return false; }
      if counted { count := count + 1; }
      todo, done := todo - {k}, done[k := t.layers[k]];
    }
    VisitEnd(done, t.layers);
    res := count == |t.layers|;
  }
}
