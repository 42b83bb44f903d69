/** Widening and narrowing the active dimensions of a tree. Widening puts the whole domain under every new dimension;
    an empty set becomes a stump over the dimensions before its first. Narrowing drops dimensions on which every
    layer allows the whole domain. Both keep the points. */
module CubeDims {
  import opened Intervals
  import opened CubeTrees
  import opened NormalForm

  ghost predicate Subset(a: seq<nat>, b: seq<nat>) {
    forall d :: d in a ==> d in b
  }

  lemma SubsetTail(a: seq<nat>, b: seq<nat>, n: nat)
    requires a != [] && b != [] && Ordered(a, n) && Ordered(b, n) && Subset(a, b)
    ensures a[0] == b[0] ==> Subset(a[1..], b[1..])
    ensures a[0] != b[0] ==> Subset(a, b[1..]) && b[0] < a[0] && b[0] !in a
    ensures |a| <= |b|
    decreases |b|
  {
    assert a[0] in b;
    OrderedTail(a, n);
    OrderedTail(b, n);
    if a[0] == b[0] {
      forall d | d in a[1..] ensures d in b[1..] { assert d in a && d != b[0]; }
      if |a| > 1 { assert a[1] in a[1..]; SubsetTail(a[1..], b[1..], n); }
    } else {
      assert a[0] in b[1..] && b[0] < a[0];
      forall d | d in a ensures d in b[1..] { assert a[0] <= d && d in b; }
      SubsetTail(a, b[1..], n);
    }
  }

  /** The cube of one value set for every dimension in the list. */
  function CubeTree(cube: seq<IntervalSet>): Tree {
    if cube == [] then Leaf else Node(map[cube[0] := CubeTree(cube[1..])])
  }

  ghost predicate InCube(cube: seq<IntervalSet>, act: seq<nat>, p: Point) {
    |cube| == |act| && forall i :: 0 <= i < |act| ==> act[i] < |p| && Has(cube[i], p[act[i]])
  }

  lemma {:induction false} CubeTreeHolds(cube: seq<IntervalSet>, act: seq<nat>, p: Point)
    requires |cube| == |act|
    ensures Holds(CubeTree(cube), act, p) <==> InCube(cube, act, p)
    decreases |act|
  {
    if act != [] {
      hide Has, Canonical;
      CubeTreeHolds(cube[1..], act[1..], p);
      assert forall i :: 0 <= i < |act| - 1 ==> cube[1..][i] == cube[i + 1] && act[1..][i] == act[i + 1];
      assert InCube(cube, act, p) <==> act[0] < |p| && Has(cube[0], p[act[0]]) && InCube(cube[1..], act[1..], p) by {
        if act[0] < |p| && Has(cube[0], p[act[0]]) && InCube(cube[1..], act[1..], p) {
          forall i | 0 <= i < |act| ensures act[i] < |p| && Has(cube[i], p[act[i]]) {
            if i > 0 { assert cube[1..][i - 1] == cube[i] && act[1..][i - 1] == act[i]; }
          }
        }
        if InCube(cube, act, p) {
          forall i | 0 <= i < |act| - 1 ensures act[1..][i] < |p| && Has(cube[1..][i], p[act[1..][i]]) {
            assert act[i + 1] < |p| && Has(cube[i + 1], p[act[i + 1]]);
          }
        }
      }
    }
  }

  lemma {:induction false} CubeTreeCanon(cube: seq<IntervalSet>, act: seq<nat>, dims: seq<Dimension>)
    requires |cube| == |act|
    requires forall i :: 0 <= i < |act| ==> cube[i] != [] && Within(cube[i], Domain(dims, act[i]))
    ensures Canon(CubeTree(cube), act, dims, Leaf) && Live(CubeTree(cube), act)
    decreases |act|
  {
    if act != [] {
      assert cube[0] != [] && Within(cube[0], Domain(dims, act[0]));
      hide Has, Canonical, Within;
      forall i | 0 <= i < |act| - 1 ensures cube[1..][i] != [] && Within(cube[1..][i], Domain(dims, act[1..][i])) {
        assert cube[1..][i] == cube[i + 1] && act[1..][i] == act[i + 1];
      }
      CubeTreeCanon(cube[1..], act[1..], dims);
      assert cube[0] in CubeTree(cube).layers;
    }
  }

  function Domains(dims: seq<Dimension>, act: seq<nat>): (r: seq<IntervalSet>)
    ensures |r| == |act|
  {
    seq(|act|, i requires 0 <= i < |act| => Domain(dims, act[i]))
  }

  /** The cube of all domains is canonical and holds every point. */
  lemma EntireSpace(dims: seq<Dimension>, act: seq<nat>)
    requires Ordered(act, |dims|) && NonEmptyDomains(dims)
    ensures Canon(CubeTree(Domains(dims, act)), act, dims, Leaf) && Live(CubeTree(Domains(dims, act)), act)
    ensures forall p :: InSpace(dims, p) ==> Holds(CubeTree(Domains(dims, act)), act, p)
  {
    CubeTreeCanon(Domains(dims, act), act, dims);
    forall p | InSpace(dims, p) ensures Holds(CubeTree(Domains(dims, act)), act, p) {
      CubeTreeHolds(Domains(dims, act), act, p);
    }
  }

  /** Membership of one layer is independent of the layer's own coordinate. */
  lemma SameLayers(m: LayerMap, m': LayerMap, act: seq<nat>, act': seq<nat>, dims: seq<Dimension>)
    requires act != [] && act' != [] && act[0] == act'[0] && m.Keys == m'.Keys
    requires forall k :: k in m ==> Same(m[k], act[1..], m'[k], act'[1..], dims)
    ensures Same(Node(m), act, Node(m'), act', dims)
  {
    hide Has, Canonical, InSpace;
    forall p | InSpace(dims, p)
      ensures Holds(Node(m), act, p) <==> Holds(Node(m'), act', p)
    {
      forall k | k in m ensures Holds(m[k], act[1..], p) <==> Holds(m'[k], act'[1..], p) {
        assert Same(m[k], act[1..], m'[k], act'[1..], dims);
      }
    }
  }

  lemma SameIsLive(t: Tree, act: seq<nat>, bot: Tree, u: Tree, act': seq<nat>, dims: seq<Dimension>)
    requires Ordered(act, |dims|) && NonEmptyDomains(dims) && Canon(t, act, dims, bot) && Live(t, act)
    requires Same(t, act, u, act', dims) && (act' == [] || u.Node?)
    ensures Live(u, act')
  {
    var base := SomePoint(dims);
    var p := Witness(t, act, dims, bot, base);
    assert Holds(u, act', p);
  }

  /** Replacing every sub-tree by one with the same points, over other dimensions, keeps the canonical form. */
  lemma MapLayers(m: LayerMap, m': LayerMap, act: seq<nat>, act': seq<nat>, dims: seq<Dimension>, bot: Tree)
    requires act != [] && act' != [] && act[0] == act'[0] && Ordered(act, |dims|) && NonEmptyDomains(dims)
    requires Layers(m, act, dims, bot) && SubTreesDistinct(m) && m.Keys == m'.Keys
    requires forall k :: k in m ==> Canon(m'[k], act'[1..], dims, bot)
    requires forall k :: k in m ==> Same(m[k], act[1..], m'[k], act'[1..], dims)
    ensures Canon(Node(m'), act', dims, bot) && Same(Node(m), act, Node(m'), act', dims)
  {
    hide Has, Canonical, Holds, InSpace, Same, Canon, Apart, Within;
    SameLayers(m, m', act, act', dims);
    MapLive(m, m', act, act', dims, bot);
    MapDistinct(m, m', act, act', dims, bot);
    MapCanon(m', act', dims, bot);
  }

  lemma MapLive(m: LayerMap, m': LayerMap, act: seq<nat>, act': seq<nat>, dims: seq<Dimension>, bot: Tree)
    requires act != [] && act' != [] && Ordered(act, |dims|) && NonEmptyDomains(dims)
    requires Layers(m, act, dims, bot) && m.Keys == m'.Keys
    requires forall k :: k in m ==> Same(m[k], act[1..], m'[k], act'[1..], dims)
    requires forall k :: k in m ==> Canon(m'[k], act'[1..], dims, bot)
    ensures forall k :: k in m' ==> Live(m'[k], act'[1..])
  {
    OrderedTail(act, |dims|);
    hide Has, Canonical, Holds, InSpace, Same, Canon, Apart, Within;
    forall k | k in m'
      ensures Live(m'[k], act'[1..])
    {
      CanonShape(m'[k], act'[1..], dims, bot);
      SameIsLive(m[k], act[1..], bot, m'[k], act'[1..], dims);
    }
  }

  lemma MapDistinct(m: LayerMap, m': LayerMap, act: seq<nat>, act': seq<nat>, dims: seq<Dimension>, bot: Tree)
    requires act != [] && act' != [] && Ordered(act, |dims|) && NonEmptyDomains(dims)
    requires Layers(m, act, dims, bot) && m.Keys == m'.Keys
    requires forall k :: k in m ==> Same(m[k], act[1..], m'[k], act'[1..], dims)
    requires SubTreesDistinct(m)
    ensures SubTreesDistinct(m')
  {
    OrderedTail(act, |dims|);
    hide Has, Canonical, Holds, InSpace, Same, Canon, Apart, Within;
    forall k, l | k in m' && l in m' && m'[k] == m'[l]
      ensures k == l
    {
      SameTwice(m[k], m[l], m'[k], act[1..], act'[1..], dims, bot);
    }
  }

  /** The sub-trees outside `todo` have been replaced. */
  ghost predicate MapState(m: LayerMap, all: LayerMap, todo: set<IntervalSet>, act: seq<nat>, act': seq<nat>,
                           dims: seq<Dimension>, bot: Tree)
    requires act != [] && act' != []
  {
    && todo <= all.Keys && m.Keys == all.Keys - todo
    && forall k :: k in m ==> Canon(m[k], act'[1..], dims, bot) && Same(all[k], act[1..], m[k], act'[1..], dims)
  }

  lemma MapNext(m: LayerMap, all: LayerMap, todo: set<IntervalSet>, act: seq<nat>, act': seq<nat>,
                dims: seq<Dimension>, bot: Tree, k: IntervalSet)
    requires act != [] && act' != [] && MapState(m, all, todo, act, act', dims, bot) && k in todo
    ensures k in all && |todo - {k}| < |todo|
    ensures forall sub :: Canon(sub, act'[1..], dims, bot) && Same(all[k], act[1..], sub, act'[1..], dims)
              ==> MapState(m[k := sub], all, todo - {k}, act, act', dims, bot)
  {
    hide Has, Canonical, Canon, Same;
  }

  lemma MapEnd(m: LayerMap, all: LayerMap, act: seq<nat>, act': seq<nat>, dims: seq<Dimension>, bot: Tree)
    requires act != [] && act' != [] && act[0] == act'[0] && Ordered(act, |dims|) && NonEmptyDomains(dims)
    requires Layers(all, act, dims, bot) && SubTreesDistinct(all)
    requires MapState(m, all, {}, act, act', dims, bot)
    ensures m.Keys == all.Keys
    ensures Canon(Node(m), act', dims, bot) && Same(Node(all), act, Node(m), act', dims)
  {
    hide Has, Canonical, Canon, Same, Layers, SubTreesDistinct, Ordered, NonEmptyDomains;
    assert m.Keys == all.Keys;
    MapLayers(all, m, act, act', dims, bot);
  }

  lemma CanonShape(t: Tree, act: seq<nat>, dims: seq<Dimension>, bot: Tree)
    requires Canon(t, act, dims, bot)
    ensures act == [] || t.Node?
  {
  }

  lemma MapCanon(m: LayerMap, act: seq<nat>, dims: seq<Dimension>, bot: Tree)
    requires act != [] && Layers(m, act, dims, bot) && SubTreesDistinct(m)
    ensures Canon(Node(m), act, dims, bot)
  {
  }

  lemma SameTwice(t: Tree, u: Tree, v: Tree, act: seq<nat>, act': seq<nat>, dims: seq<Dimension>, bot: Tree)
    requires Ordered(act, |dims|) && NonEmptyDomains(dims) && Canon(t, act, dims, bot) && Canon(u, act, dims, bot)
    requires Same(t, act, v, act', dims) && Same(u, act, v, act', dims)
    ensures t == u
  {
    hide Has, Canonical, Holds, InSpace, Canon;
    UniqueTree(t, u, act, dims, bot);
  }

  /** A new first dimension that allows its whole domain. */
  lemma WrapLayer(t: Tree, act: seq<nat>, u: Tree, act': seq<nat>, dims: seq<Dimension>, bot: Tree)
    requires act' != [] && Ordered(act', |dims|) && NonEmptyDomains(dims)
    requires Canon(u, act'[1..], dims, bot) && Live(u, act'[1..]) && Same(t, act, u, act'[1..], dims)
    ensures Canon(Node(map[Domain(dims, act'[0]) := u]), act', dims, bot)
    ensures Same(t, act, Node(map[Domain(dims, act'[0]) := u]), act', dims)
  {
    var m := map[Domain(dims, act'[0]) := u];
    OrderedTail(act', |dims|);
    assert Within(Domain(dims, act'[0]), Domain(dims, act'[0]));
    hide Has, Canonical, Within;
    forall p | InSpace(dims, p)
      ensures Holds(t, act, p) <==> Holds(Node(m), act', p)
    {
      assert Has(Domain(dims, act'[0]), p[act'[0]]);
    }
  }

  /** The elements of a sorted list below a. */
  function Before(act: seq<nat>, a: nat): (r: seq<nat>)
    ensures r <= act
  {
    if act == [] || act[0] >= a then [] else [act[0]] + Before(act[1..], a)
  }

  lemma FullIsLive(t: Tree, act: seq<nat>, dims: seq<Dimension>)
    requires NonEmptyDomains(dims) && forall p :: InSpace(dims, p) ==> Holds(t, act, p)
    ensures Live(t, act)
  {
    var p := SomePoint(dims);
    assert Holds(t, act, p);
  }

  /** build_new_active_dimensions. A set without layers becomes a chain of full layers that ends in a
      node without layers, one layer for each new dimension before its own first one. */
  method Widen(t: Tree, act: seq<nat>, new': seq<nat>, dims: seq<Dimension>) returns (r: Tree)
    requires act != [] && Ordered(act, |dims|) && Ordered(new', |dims|) && Subset(act, new') && NonEmptyDomains(dims)
    requires Canon(t, act, dims, Leaf)
    ensures Live(t, act) ==> Canon(r, new', dims, Leaf) && Same(t, act, r, new', dims)
    ensures !Live(t, act) ==> Canon(r, Before(new', act[0]), dims, Node(map[]))
    ensures !Live(t, act) ==> forall p :: InSpace(dims, p) ==> Holds(r, Before(new', act[0]), p)
    decreases |new'|, 1
  {
    WidenCases(t, act, new', dims);
    hide *;
    if act == new' {
      r := t;
    } else if act[0] == new'[0] {
      if |act| > 1 { r := WidenLayers(t, act, new', dims); } else { r := WidenLast(t, act, new', dims); }
    } else {
      var sub := Widen(t, act, new'[1..], dims);
      r := Node(map[Domain(dims, new'[0]) := sub]);
      if Live(t, act) {
        WidenHead(t, act, sub, new', dims);
      } else {
        ChainHead(sub, Before(new'[1..], act[0]), new'[0], dims);
      }
    }
  }

  lemma WidenCases(t: Tree, act: seq<nat>, new': seq<nat>, dims: seq<Dimension>)
    requires act != [] && Ordered(act, |dims|) && Ordered(new', |dims|) && Subset(act, new')
    requires Canon(t, act, dims, Leaf)
    ensures new' != [] && Ordered(new'[1..], |dims|) && (act == new' ==> Same(t, act, t, new', dims))
    ensures if act[0] == new'[0]
            then
              && Subset(act[1..], new'[1..]) && (|act| == 1 ==> |new'| > 1 || act == new')
              && (!Live(t, act) ==> t == Node(map[]) && Canon(t, Before(new', act[0]), dims, Node(map[])))
              && forall p :: Holds(t, Before(new', act[0]), p)
            else
              && Subset(act, new'[1..]) && Before(new', act[0]) == [new'[0]] + Before(new'[1..], act[0])
              && Ordered(Before(new', act[0]), |dims|)
  {
    assert act[0] in new';
    SubsetTail(act, new', |dims|);
    hide Canon, Holds, Has, Canonical;
    assert act[0] == new'[0] ==> Before(new', act[0]) == [];
    PrefixOrdered(Before(new', act[0]), new', |dims|);
  }

  lemma PrefixOrdered(a: seq<nat>, b: seq<nat>, n: nat)
    requires a <= b && Ordered(b, n)
    ensures Ordered(a, n)
  {
  }

  lemma WidenHead(t: Tree, act: seq<nat>, sub: Tree, new': seq<nat>, dims: seq<Dimension>)
    requires act != [] && Ordered(act, |dims|) && new' != [] && Ordered(new', |dims|) && NonEmptyDomains(dims)
    requires Canon(t, act, dims, Leaf) && Live(t, act)
    requires Canon(sub, new'[1..], dims, Leaf) && Same(t, act, sub, new'[1..], dims)
    ensures Canon(Node(map[Domain(dims, new'[0]) := sub]), new', dims, Leaf)
    ensures Same(t, act, Node(map[Domain(dims, new'[0]) := sub]), new', dims)
  {
    hide Has, Canonical, Holds, InSpace, Canon, Layers;
    CanonShape(sub, new'[1..], dims, Leaf);
    SameIsLive(t, act, Leaf, sub, new'[1..], dims);
    WrapLayer(t, act, sub, new', dims, Leaf);
  }

  lemma ChainHead(sub: Tree, pre: seq<nat>, d: nat, dims: seq<Dimension>)
    requires Ordered([d] + pre, |dims|) && NonEmptyDomains(dims)
    requires Canon(sub, pre, dims, Node(map[])) && forall p :: InSpace(dims, p) ==> Holds(sub, pre, p)
    ensures Canon(Node(map[Domain(dims, d) := sub]), [d] + pre, dims, Node(map[]))
    ensures forall p :: InSpace(dims, p) ==> Holds(Node(map[Domain(dims, d) := sub]), [d] + pre, p)
  {
    assert ([d] + pre)[1..] == pre && ([d] + pre)[0] == d;
    hide Has, Canonical, Holds, InSpace, Canon, Layers;
    FullIsLive(sub, pre, dims);
    WrapLayer(sub, pre, sub, [d] + pre, dims, Node(map[]));
  }

  /** Case "same first dimension": every sub-cube is widened. */
  method WidenLayers(t: Tree, act: seq<nat>, new': seq<nat>, dims: seq<Dimension>) returns (r: Tree)
    requires |act| > 1 && Ordered(act, |dims|) && new' != [] && Ordered(new', |dims|) && NonEmptyDomains(dims)
    requires act[0] == new'[0] && Subset(act[1..], new'[1..]) && Canon(t, act, dims, Leaf)
    ensures Canon(r, new', dims, Leaf) && Same(t, act, r, new', dims) && (t == Node(map[]) ==> r == t)
    decreases |new'|, 0
  {
    OpenTree(t, act, dims, Leaf);
    OrderedTail(act, |dims|);
    OrderedTail(new', |dims|);
    var m: LayerMap := map[];
    var todo := t.layers.Keys;
    assert MapState(m, t.layers, todo, act, new', dims, Leaf);
    hide Has, Canonical, Holds, InSpace, Canon, Layers, SubTreesDistinct, Same, MapState;
    while todo != {}
      invariant MapState(m, t.layers, todo, act, new', dims, Leaf)
      decreases |todo|
    {
      var k :| k in todo;
      MapNext(m, t.layers, todo, act, new', dims, Leaf, k);
      OpenLayer(t.layers, act, dims, Leaf, k);
      var sub := Widen(t.layers[k], act[1..], new'[1..], dims);
      m := m[k := sub];
      todo := todo - {k};
    }
    r := Node(m);
    MapEnd(m, t.layers, act, new', dims, Leaf);
    assert Node(t.layers) == t;
  }

  /** Case "last dimension": one full sub-cube under every layer. */
  method WidenLast(t: Tree, act: seq<nat>, new': seq<nat>, dims: seq<Dimension>) returns (r: Tree)
    requires |act| == 1 && |new'| > 1 && act[0] == new'[0] && Ordered(new', |dims|) && NonEmptyDomains(dims)
    requires Canon(t, act, dims, Leaf)
    ensures Canon(r, new', dims, Leaf) && Same(t, act, r, new', dims) && (t == Node(map[]) ==> r == t)
    decreases |new'|, 0
  {
    OpenTree(t, act, dims, Leaf);
    OrderedTail(new', |dims|);
    var first := [new'[1]];
    var domain := Domain(dims, new'[1]);
    EntireSpace(dims, first);
    assert Domains(dims, first) == [domain] && CubeTree([domain][1..]) == Leaf;
    assert CubeTree([domain]) == Node(map[domain := Leaf]);
    assert new'[1] in new'[1..];
    hide Has, Canonical, InSpace, Canon, Layers, SubTreesDistinct;
    var sub := Widen(Node(map[domain := Leaf]), first, new'[1..], dims);
    var m := map k | k in t.layers :: sub;
    forall k | k in t.layers ensures Same(t.layers[k], act[1..], m[k], new'[1..], dims) {
    }
    hide Same, Holds;
    MapLayers(t.layers, m, act, new', dims, Leaf);
    r := Node(m);
    assert Node(t.layers) == t;
  }

  // ----- removing dimensions that allow everything -----

  lemma {:induction false} AllFullHolds(t: Tree, act: seq<nat>, dims: seq<Dimension>, bot: Tree)
    requires Ordered(act, |dims|) && Canon(t, act, dims, bot) && Live(t, act)
    requires forall i: nat :: i < |act| ==> FullAt(t, act, i, dims)
    ensures forall p :: InSpace(dims, p) ==> Holds(t, act, p)
    decreases |act|
  {
    if act != [] {
      var k :| k in t.layers;
      assert FullAt(t, act, 0, dims);
      OpenTree(t, act, dims, bot);
      OpenLayer(t.layers, act, dims, bot, k);
      forall i: nat | i < |act[1..]| ensures FullAt(t.layers[k], act[1..], i, dims) {
        assert FullAt(t, act, i + 1, dims);
      }
      AllFullHolds(t.layers[k], act[1..], dims, bot);
      hide Has, Canonical, Canon, Layers;
      forall p | InSpace(dims, p) ensures Holds(t, act, p) {
        assert Has(k, p[act[0]]) && Holds(t.layers[k], act[1..], p);
      }
    }
  }

  /** What _remove_some_active_dimensions assumes: the dimensions of `pre` missing in `newPre` allow everything.
      Behind the two prefixes the lists of active dimensions are the same. */
  ghost predicate Narrowable(t: Tree, act: seq<nat>, new': seq<nat>, pre: seq<nat>, newPre: seq<nat>,
                             dims: seq<Dimension>) {
    && Ordered(act, |dims|) && new' != [] && pre <= act && newPre <= new' && act[|pre|..] == new'[|newPre|..]
    && Ordered(newPre, |dims|) && Subset(newPre, pre) && NonEmptyDomains(dims)
    && Canon(t, pre, dims, Below(pre, act)) && Live(t, pre)
    && forall i: nat :: i < |pre| && pre[i] !in newPre ==> FullAt(t, pre, i, dims)
  }

  lemma NarrowDone(t: Tree, act: seq<nat>, pre: seq<nat>, newPre: seq<nat>, dims: seq<Dimension>)
    requires Narrowable(t, act, act, pre, newPre, dims)
    ensures pre == newPre
  {
    assert |pre| == |act| - |act[|pre|..]| && |newPre| == |act| - |act[|newPre|..]|;
    assert pre == act[..|pre|] && newPre == act[..|newPre|];
  }

  lemma NarrowHeads(t: Tree, act: seq<nat>, new': seq<nat>, pre: seq<nat>, newPre: seq<nat>, dims: seq<Dimension>)
    requires Narrowable(t, act, new', pre, newPre, dims) && act != new'
    ensures pre != [] && act != [] && pre[0] == act[0]
    ensures act[0] == new'[0] <==> newPre != [] && pre[0] == newPre[0]
    ensures newPre != [] ==> newPre[0] == new'[0]
    ensures act[0] != new'[0] ==> pre[0] !in newPre && |act| > 1
  {
    if newPre == [] {
      assert new' == act[|pre|..] && new'[0] == act[|pre|];
    } else {
      assert newPre[0] in newPre && newPre[0] in pre;
      SubsetTail(newPre, pre, |dims|);
    }
    if |act| == 1 { assert pre == act && act[|pre|..] == []; assert new' == newPre; assert new'[0] in pre; }
  }

  lemma NarrowBelow(t: Tree, act: seq<nat>, new': seq<nat>, pre: seq<nat>, newPre: seq<nat>, dims: seq<Dimension>,
                    k: IntervalSet)
    requires Narrowable(t, act, new', pre, newPre, dims) && pre != [] && newPre != [] && pre[0] == newPre[0]
    requires |new'| > 1 && t.Node? && k in t.layers
    ensures Narrowable(t.layers[k], act[1..], new'[1..], pre[1..], newPre[1..], dims)
  {
    OpenTree(t, pre, dims, Below(pre, act));
    OpenLayer(t.layers, pre, dims, Below(pre, act), k);
    FullBelow(t, pre, newPre, dims, k);
    hide Has, Canonical, Canon, FullAt, Layers, Holds, Within, Apart, KeysApart, Live;
    NarrowLists(act, new', pre, newPre, |dims|);
  }

  lemma NarrowLists(act: seq<nat>, new': seq<nat>, pre: seq<nat>, newPre: seq<nat>, n: nat)
    requires Ordered(act, n) && pre != [] && newPre != [] && |new'| > 1 && pre <= act && newPre <= new'
    requires act[|pre|..] == new'[|newPre|..] && Ordered(newPre, n) && Subset(newPre, pre) && pre[0] == newPre[0]
    ensures Ordered(act[1..], n) && new'[1..] != [] && pre[1..] <= act[1..] && newPre[1..] <= new'[1..]
    ensures act[1..][|pre[1..]|..] == new'[1..][|newPre[1..]|..]
    ensures Ordered(newPre[1..], n) && Subset(newPre[1..], pre[1..])
    ensures Below(pre[1..], act[1..]) == Below(pre, act)
  {
    SubsetTail(newPre, pre, n);
    assert act[1..][|pre[1..]|..] == act[|pre|..] && new'[1..][|newPre[1..]|..] == new'[|newPre|..];
  }

  lemma FullBelow(t: Tree, pre: seq<nat>, newPre: seq<nat>, dims: seq<Dimension>, k: IntervalSet)
    requires pre != [] && newPre != [] && pre[0] == newPre[0] && Ordered(pre, |dims|)
    requires t.Node? && k in t.layers
    requires forall i: nat :: i < |pre| && pre[i] !in newPre ==> FullAt(t, pre, i, dims)
    ensures forall i: nat :: i < |pre[1..]| && pre[1..][i] !in newPre[1..] ==> FullAt(t.layers[k], pre[1..], i, dims)
  {
    forall i: nat | i < |pre[1..]| && pre[1..][i] !in newPre[1..]
      ensures FullAt(t.layers[k], pre[1..], i, dims)
    {
      assert pre[i + 1] !in newPre;
      assert FullAt(t, pre, i + 1, dims);
    }
  }

  lemma NarrowToLast(t: Tree, act: seq<nat>, new': seq<nat>, pre: seq<nat>, newPre: seq<nat>, dims: seq<Dimension>,
                     k: IntervalSet)
    requires Narrowable(t, act, new', pre, newPre, dims) && pre != [] && newPre != [] && pre[0] == newPre[0]
    requires |new'| == 1 && t.Node? && k in t.layers
    ensures Below(pre, act) == Leaf && newPre[1..] == [] && Same(t.layers[k], pre[1..], Leaf, [], dims)
  {
    assert newPre == new' && act[|pre|..] == [];
    OpenTree(t, pre, dims, Leaf);
    OpenLayer(t.layers, pre, dims, Leaf, k);
    forall i: nat | i < |pre[1..]| ensures FullAt(t.layers[k], pre[1..], i, dims) {
      assert pre[i + 1] !in newPre;
      assert FullAt(t, pre, i + 1, dims);
    }
    AllFullHolds(t.layers[k], pre[1..], dims, Leaf);
  }

  /** A full first dimension has one layer, and dropping it changes nothing. */
  lemma NarrowDrop(t: Tree, act: seq<nat>, new': seq<nat>, pre: seq<nat>, newPre: seq<nat>, dims: seq<Dimension>)
    returns (u: Tree)
    requires Narrowable(t, act, new', pre, newPre, dims) && pre != [] && pre[0] !in newPre && |act| > 1
    ensures t == Node(map[Domain(dims, pre[0]) := u]) && u.Node?
    ensures Narrowable(u, act[1..], new', pre[1..], newPre, dims) && Same(t, pre, u, pre[1..], dims)
  {
    var k :| k in t.layers;
    u := t.layers[k];
    OpenTree(t, pre, dims, Below(pre, act));
    OpenLayer(t.layers, pre, dims, Below(pre, act), k);
    OrderedTail(act, |dims|);
    assert FullAt(t, pre, 0, dims);
    assert t.layers == map[k := u];
    CanonShape(u, pre[1..], dims, Below(pre, act));
    assert pre[1..] == [] ==> u == Below(pre, act);
    assert act[1..][|pre[1..]|..] == act[|pre|..];
    forall d | d in newPre ensures d in pre[1..] { assert d in pre; }
    forall i: nat | i < |pre[1..]| && pre[1..][i] !in newPre
      ensures FullAt(u, pre[1..], i, dims)
    {
      assert FullAt(t, pre, i + 1, dims);
    }
  }

  /** All layers of all sub-cubes in one dictionary. */
  method MergeSubLayers(m: LayerMap) returns (r: LayerMap)
    ensures forall k, u: Tree :: m == map[k := u] && u.Node? ==> r == u.layers
  {
    r := map[];
    var todo := m.Keys;
    while todo != {}
      invariant todo <= m.Keys
      invariant forall k, u: Tree :: m == map[k := u] && u.Node? ==> if k in todo then r == map[] else r == u.layers
      decreases |todo|
    {
      var k :| k in todo;
      if m[k].Node? { r := r + m[k].layers; }
      todo := todo - {k};
    }
  }

  /** _remove_some_active_dimensions. */
  method Narrow(t: Tree, act: seq<nat>, new': seq<nat>, dims: seq<Dimension>, ghost pre: seq<nat>,
                ghost newPre: seq<nat>)
    returns (r: Tree)
    requires Narrowable(t, act, new', pre, newPre, dims)
    ensures Canon(r, newPre, dims, Below(pre, act)) && Same(t, pre, r, newPre, dims)
    decreases |act|, 1
  {
    assert Ordered(act, |dims|) && new' != [] && Canon(t, pre, dims, Below(pre, act));
    if act == new' {
      NarrowDone(t, act, pre, newPre, dims);
      return t;
    }
    NarrowHeads(t, act, new', pre, newPre, dims);
    OpenTree(t, pre, dims, Below(pre, act));
    hide *;
    if act[0] == new'[0] {
      r := NarrowLayers(t, act, new', dims, pre, newPre);
    } else {
      ghost var u := NarrowDrop(t, act, new', pre, newPre, dims);
      var layers := MergeSubLayers(t.layers);
      assert Node(layers) == u;
      r := Narrow(Node(layers), act[1..], new', dims, pre[1..], newPre);
    }
  }

  method NarrowLayers(t: Tree, act: seq<nat>, new': seq<nat>, dims: seq<Dimension>, ghost pre: seq<nat>,
                      ghost newPre: seq<nat>)
    returns (r: Tree)
    requires Narrowable(t, act, new', pre, newPre, dims) && pre != [] && newPre != [] && pre[0] == newPre[0] && t.Node?
    ensures Canon(r, newPre, dims, Below(pre, act)) && Same(t, pre, r, newPre, dims)
    decreases |act|, 0
  {
    ghost var bot := Below(pre, act);
    OpenTree(t, pre, dims, bot);
    assert Ordered(pre, |dims|) && NonEmptyDomains(dims) && act != [];
    var m: LayerMap := map[];
    var todo := t.layers.Keys;
    assert MapState(m, t.layers, todo, pre, newPre, dims, bot);
    hide *;
    while todo != {}
      invariant MapState(m, t.layers, todo, pre, newPre, dims, bot)
      decreases |todo|
    {
      var k :| k in todo;
      MapNext(m, t.layers, todo, pre, newPre, dims, bot, k);
      var sub := Leaf;
      if |new'| > 1 {
        NarrowBelow(t, act, new', pre, newPre, dims, k);
        sub := Narrow(t.layers[k], act[1..], new'[1..], dims, pre[1..], newPre[1..]);
        BelowTail(pre, act);
      } else {
        NarrowToLast(t, act, new', pre, newPre, dims, k);
      }
      m := m[k := sub];
      todo := todo - {k};
    }
    r := Node(m);
    MapEnd(m, t.layers, pre, newPre, dims, bot);
    assert Node(t.layers) == t;
  }

  lemma BelowTail(pre: seq<nat>, act: seq<nat>)
    requires pre != [] && act != []
    ensures Below(pre[1..], act[1..]) == Below(pre, act)
  {
  }
}
