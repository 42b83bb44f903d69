/** reduce_active_dimensions: the minimal list of active dimensions. The keys of every level are collected, and the
    dimensions whose only key is the whole domain are dropped; what stays active is then needed. */
module CubeReduce {
  import opened Intervals
  import opened CubeTrees
  import opened NormalForm
  import opened CubeDims

  /** Every node above the last active dimension is a node. */
  ghost predicate Shaped(t: Tree, act: seq<nat>)
    decreases |act|
  {
    act != [] ==> t.Node? && (|act| > 1 ==> forall k :: k in t.layers ==> Shaped(t.layers[k], act[1..]))
  }

  lemma {:induction false} CanonShaped(t: Tree, pre: seq<nat>, act: seq<nat>, dims: seq<Dimension>)
    requires pre <= act && Canon(t, pre, dims, Below(pre, act))
    ensures Shaped(t, act)
    decreases |act|
  {
    if act != [] {
      if pre != [] {
        OpenTree(t, pre, dims, Below(pre, act));
        forall k | k in t.layers ensures Shaped(t.layers[k], act[1..]) {
          assert Canon(t.layers[k], pre[1..], dims, Below(pre, act));
          BelowTail(pre, act);
          CanonShaped(t.layers[k], pre[1..], act[1..], dims);
        }
      }
    }
  }

  /** All keys of the i-th active dimension, over all sub-cubes. */
  ghost function KeysAt(t: Tree, i: nat): set<IntervalSet>
    decreases i, 0
  {
    if !t.Node? then {} else if i == 0 then t.layers.Keys else KeysBelow(t.layers, i - 1)
  }

  ghost function KeysBelow(m: LayerMap, j: nat): set<IntervalSet>
    decreases j, 1
  {
    set k, x | k in m && x in KeysAt(m[k], j) :: x
  }

  lemma KeysBelowAdd(m: LayerMap, j: nat, k: IntervalSet, s: Tree)
    requires k !in m
    ensures KeysBelow(m[k := s], j) == KeysBelow(m, j) + KeysAt(s, j)
  {
    hide Canonical, KeysAt;
    var all := m[k := s];
    forall x | x in KeysBelow(m, j) ensures x in KeysBelow(all, j) {
      var l :| l in m && x in KeysAt(m[l], j);
      assert l in all && all[l] == m[l];
    }
    forall x | x in KeysAt(s, j) ensures x in KeysBelow(all, j) {
      assert k in all && all[k] == s;
    }
    forall x | x in KeysBelow(all, j) ensures x in KeysBelow(m, j) + KeysAt(s, j) {
      var l :| l in all && x in KeysAt(all[l], j);
      assert l == k || l in m;
    }
  }

  lemma {:induction false} FullIffKeys(t: Tree, act: seq<nat>, i: nat, dims: seq<Dimension>, bot: Tree)
    requires Ordered(act, |dims|) && i < |act| && Canon(t, act, dims, bot) && Live(t, act)
    ensures FullAt(t, act, i, dims) <==> KeysAt(t, i) == {Domain(dims, act[i])}
    decreases i
  {
    OpenTree(t, act, dims, bot);
    var some :| some in t.layers;
    if i > 0 {
      forall k | k in t.layers
        ensures FullAt(t.layers[k], act[1..], i - 1, dims) <==> KeysAt(t.layers[k], i - 1) == {Domain(dims, act[i])}
      {
        OpenLayer(t.layers, act, dims, bot, k);
        assert act[1..][i - 1] == act[i];
        FullIffKeys(t.layers[k], act[1..], i - 1, dims, bot);
      }
      KeysEverywhere(t.layers, act, i, dims, bot);
    }
  }

  lemma KeysEverywhere(m: LayerMap, act: seq<nat>, i: nat, dims: seq<Dimension>, bot: Tree)
    requires 0 < i < |act| && Ordered(act, |dims|) && Layers(m, act, dims, bot) && m != map[]
    ensures KeysBelow(m, i - 1) == {Domain(dims, act[i])} <==>
            forall k :: k in m ==> KeysAt(m[k], i - 1) == {Domain(dims, act[i])}
  {
    hide Has, Canonical, KeysAt, Canon;
    forall k | k in m
      ensures KeysAt(m[k], i - 1) != {}
    {
      OpenLayer(m, act, dims, bot, k);
      KeysExist(m[k], act[1..], i - 1, dims, bot);
    }
    UnionSingleton(m, i - 1, Domain(dims, act[i]));
  }

  lemma UnionSingleton(m: LayerMap, j: nat, d: IntervalSet)
    requires m != map[] && forall k :: k in m ==> KeysAt(m[k], j) != {}
    ensures KeysBelow(m, j) == {d} <==> forall k :: k in m ==> KeysAt(m[k], j) == {d}
  {
    hide Has, Canonical, KeysAt;
    if KeysBelow(m, j) == {d} {
      forall k | k in m ensures KeysAt(m[k], j) == {d} {
        forall x | x in KeysAt(m[k], j) ensures x == d { assert x in KeysBelow(m, j); }
        var x :| x in KeysAt(m[k], j);
      }
    }
    if forall k :: k in m ==> KeysAt(m[k], j) == {d} {
      var some :| some in m;
      assert d in KeysAt(m[some], j);
      forall x | x in KeysBelow(m, j) ensures x == d {
        var k :| k in m && x in KeysAt(m[k], j);
      }
    }
  }

  lemma {:induction false} KeysExist(t: Tree, act: seq<nat>, i: nat, dims: seq<Dimension>, bot: Tree)
    requires Ordered(act, |dims|) && i < |act| && Canon(t, act, dims, bot) && Live(t, act)
    ensures KeysAt(t, i) != {}
    decreases i
  {
    OpenTree(t, act, dims, bot);
    var k :| k in t.layers;
    hide Has, Canonical, Canon, Layers, Holds;
    if i > 0 {
      OpenLayer(t.layers, act, dims, bot, k);
      KeysExist(t.layers[k], act[1..], i - 1, dims, bot);
      KeysAbove(t.layers, k, i - 1);
    }
  }

  lemma KeysAbove(m: LayerMap, k: IntervalSet, j: nat)
    requires k in m && KeysAt(m[k], j) != {}
    ensures KeysBelow(m, j) != {}
  {
    hide KeysAt, Canonical;
    var x :| x in KeysAt(m[k], j);
    assert x in KeysBelow(m, j);
  }

  lemma {:induction false} NoKeysBelow(t: Tree, act: seq<nat>, i: nat, dims: seq<Dimension>, bot: Tree)
    requires |act| <= i && Canon(t, act, dims, bot) && bot == Node(map[])
    ensures KeysAt(t, i) == {}
    decreases i
  {
    if act != [] {
      OpenTree(t, act, dims, bot);
      forall k | k in t.layers ensures KeysAt(t.layers[k], i - 1) == {} {
        NoKeysBelow(t.layers[k], act[1..], i - 1, dims, bot);
      }
    } else if i > 0 {
      assert KeysBelow(t.layers, i - 1) == {};
    }
  }

  // ----- the code -----

  function ValuesOf(v: map<nat, set<IntervalSet>>, d: nat): set<IntervalSet> {
    if d in v then v[d] else {}
  }

  /** The values of the dimensions of b outside `todo` have been added. */
  ghost predicate Added(r: map<nat, set<IntervalSet>>, a: map<nat, set<IntervalSet>>, b: map<nat, set<IntervalSet>>,
                        todo: set<nat>) {
    forall d: nat :: ValuesOf(r, d) == if d in todo then ValuesOf(a, d) else ValuesOf(a, d) + ValuesOf(b, d)
  }

  method MergeValues(a: map<nat, set<IntervalSet>>, b: map<nat, set<IntervalSet>>)
    returns (r: map<nat, set<IntervalSet>>)
    ensures forall d: nat :: ValuesOf(r, d) == ValuesOf(a, d) + ValuesOf(b, d)
  {
    r := a;
    var todo := b.Keys;
    hide Canonical;
    while todo != {}
      invariant todo <= b.Keys && Added(r, a, b, todo)
      decreases |todo|
    {
      var d :| d in todo;
      assert ValuesOf(r, d) == ValuesOf(a, d);
      r := if d !in r then r[d := b[d]] else r[d := r[d] + b[d]];
      todo := todo - {d};
    }
  }

  /** The values recorded for the dimensions behind the first one are the keys of the sub-cubes seen so far. */
  ghost predicate Collected(v: map<nat, set<IntervalSet>>, t: Tree, act: seq<nat>, done: LayerMap)
    requires t.Node?
  {
    forall i: nat :: i < |act| ==> ValuesOf(v, act[i]) == if i == 0 then t.layers.Keys else KeysBelow(done, i - 1)
  }

  /** _get_values_sets_per_active_dimension. */
  method LevelValues(t: Tree, act: seq<nat>, ghost n: nat) returns (v: map<nat, set<IntervalSet>>)
    requires act != [] && Ordered(act, n) && Shaped(t, act)
    ensures forall i: nat :: i < |act| ==> ValuesOf(v, act[i]) == KeysAt(t, i)
    ensures forall d: nat :: d !in act ==> ValuesOf(v, d) == {}
    decreases |act|
  {
    v := map[act[0] := t.layers.Keys];
    if |act| == 1 { return; }
    var todo := t.layers.Keys;
    ghost var done: LayerMap := map[];
    OrderedTail(act, n);
    assert Collected(v, t, act, done);
    assert forall k :: k in t.layers ==> Shaped(t.layers[k], act[1..]);
    hide Canonical, KeysBelow, Shaped, Collected;
    while todo != {}
      invariant Visited(done, t.layers, todo) && Collected(v, t, act, done)
      invariant forall d: nat :: d !in act ==> ValuesOf(v, d) == {}
      decreases |todo|
    {
      var k :| k in todo;
      VisitNext(done, t.layers, todo, k);
      var sub := LevelValues(t.layers[k], act[1..], n);
      var merged := MergeValues(v, sub);
      CollectNext(v, sub, merged, t, act, done, k, n);
      v := merged;
      todo, done := todo - {k}, done[k := t.layers[k]];
    }
    VisitEnd(done, t.layers);
    CollectEnd(v, t, act);
  }

  lemma CollectEnd(v: map<nat, set<IntervalSet>>, t: Tree, act: seq<nat>)
    requires t.Node? && Collected(v, t, act, t.layers)
    ensures forall i: nat :: i < |act| ==> ValuesOf(v, act[i]) == KeysAt(t, i)
  {
  }

  lemma CollectNext(v: map<nat, set<IntervalSet>>, sub: map<nat, set<IntervalSet>>, merged: map<nat, set<IntervalSet>>,
                    t: Tree, act: seq<nat>, done: LayerMap, k: IntervalSet, n: nat)
    requires act != [] && Ordered(act, n) && t.Node? && k in t.layers && k !in done && Collected(v, t, act, done)
    requires forall i: nat :: i < |act[1..]| ==> ValuesOf(sub, act[1..][i]) == KeysAt(t.layers[k], i)
    requires forall d: nat :: d !in act[1..] ==> ValuesOf(sub, d) == {}
    requires forall d: nat :: ValuesOf(merged, d) == ValuesOf(v, d) + ValuesOf(sub, d)
    requires forall d: nat :: d !in act ==> ValuesOf(v, d) == {}
    ensures Collected(merged, t, act, done[k := t.layers[k]])
    ensures forall d: nat :: d !in act ==> ValuesOf(merged, d) == {}
  {
    OrderedTail(act, n);
    hide Canonical, KeysAt, KeysBelow;
    forall i: nat | i < |act|
      ensures ValuesOf(merged, act[i]) == if i == 0 then t.layers.Keys else KeysBelow(done[k := t.layers[k]], i - 1)
    {
      if i > 0 {
        assert act[1..][i - 1] == act[i];
        KeysBelowAdd(done, i - 1, k, t.layers[k]);
      }
    }
    forall d: nat | d !in act ensures d !in act[1..] {}
  }

  /** The dimensions of the list outside a set, in order. */
  ghost function Keep(act: seq<nat>, drop: set<nat>): seq<nat> {
    if act == [] then [] else (if act[0] in drop then [] else [act[0]]) + Keep(act[1..], drop)
  }

  lemma {:induction false} KeepMember(act: seq<nat>, drop: set<nat>, n: nat)
    requires Ordered(act, n)
    ensures Ordered(Keep(act, drop), n) && forall d: nat :: d in Keep(act, drop) <==> d in act && d !in drop
  {
    if act != [] {
      OrderedTail(act, n);
      KeepMember(act[1..], drop, n);
      assert forall d: nat :: d in act <==> d == act[0] || d in act[1..];
      if act[0] !in drop {
        var tail := Keep(act[1..], drop);
        assert Keep(act, drop) == [act[0]] + tail;
        forall j | 0 <= j < |tail| ensures act[0] < tail[j] { assert tail[j] in tail; }
      }
    }
  }

  lemma {:induction false} KeepConcat(a: seq<nat>, b: seq<nat>, drop: set<nat>)
    requires forall d :: d in b ==> d !in drop
    ensures Keep(a + b, drop) == Keep(a, drop) + b
  {
    if a == [] {
      assert a + b == b;
      if b != [] {
        assert b[0] in b && [b[0]] + b[1..] == b;
        assert b[1..] == [] + b[1..];
        KeepConcat([], b[1..], drop);
      }
    } else {
      assert (a + b)[1..] == a[1..] + b && (a + b)[0] == a[0];
      KeepConcat(a[1..], b, drop);
    }
  }

  /** _get_dimensions_subset_by_order, for the active dimensions that are not to be reduced. */
  method KeptDimensions(act: seq<nat>, drop: set<nat>, n: nat) returns (r: seq<nat>)
    requires Ordered(act, n)
    ensures r == Keep(act, drop)
  {
    r := [];
    for d := 0 to n
      invariant Ordered(r, d)
      invariant forall x: nat :: x in r <==> x < d && x in act && x !in drop
    {
      if d in act && d !in drop { r := r + [d]; }
    }
    KeepMember(act, drop, n);
    forall d: nat | d in act ensures d < n {}
    OrderedUnique(r, Keep(act, drop), n);
  }

  /** The dimensions on which all sub-cubes allow the whole domain. */
  method FullDimensions(t: Tree, act: seq<nat>, dims: seq<Dimension>) returns (drop: set<nat>)
    requires act != [] && Ordered(act, |dims|) && Shaped(t, act)
    ensures forall d: nat :: d in drop ==> d in act
    ensures forall i: nat :: i < |act| ==> (act[i] in drop <==> KeysAt(t, i) == {Domain(dims, act[i])})
  {
    var values := LevelValues(t, act, |dims|);
    drop := set d | d in values && values[d] == {Domain(dims, d)};
    hide Canonical, KeysAt, Shaped;
    forall d: nat | d in drop ensures d in act { assert ValuesOf(values, d) != {}; }
    forall i: nat | i < |act|
      ensures act[i] in drop <==> KeysAt(t, i) == {Domain(dims, act[i])}
    {
      assert ValuesOf(values, act[i]) == KeysAt(t, i);
    }
  }

  lemma DroppedIsFull(t: Tree, act: seq<nat>, dims: seq<Dimension>, pre: seq<nat>, drop: set<nat>)
    requires Ordered(act, |dims|) && pre <= act && pre != [] && Canon(t, pre, dims, Below(pre, act)) && Live(t, pre)
    requires forall i: nat :: i < |act| ==> (act[i] in drop <==> KeysAt(t, i) == {Domain(dims, act[i])})
    ensures forall i: nat :: i < |pre| ==> (pre[i] in drop <==> FullAt(t, pre, i, dims))
    ensures forall d :: d in act[|pre|..] ==> d !in drop
  {
    hide Canonical, Has, KeysAt, FullAt, Canon;
    forall i: nat | i < |pre| ensures pre[i] in drop <==> FullAt(t, pre, i, dims) {
      assert act[i] == pre[i];
      FullIffKeys(t, pre, i, dims, Below(pre, act));
    }
    forall d | d in act[|pre|..] ensures d !in drop {
      var j: nat :| j < |act[|pre|..]| && act[|pre|..][j] == d;
      assert act[|pre| + j] == d;
      NoKeysBelow(t, pre, |pre| + j, dims, Below(pre, act));
    }
  }

  /** What is kept of the prefix. */
  lemma KeptPrefix(act: seq<nat>, pre: seq<nat>, drop: set<nat>, n: nat)
    requires Ordered(act, n) && pre <= act && forall d :: d in act[|pre|..] ==> d !in drop
    ensures Keep(act, drop) == Keep(pre, drop) + act[|pre|..]
    ensures Ordered(Keep(pre, drop), n) && forall d: nat :: d in Keep(pre, drop) <==> d in pre && d !in drop
  {
    PrefixOrdered(pre, act, n);
    KeepMember(pre, drop, n);
    assert act == pre + act[|pre|..];
    KeepConcat(pre, act[|pre|..], drop);
  }

  /** reduce_active_dimensions on a set with layers. The result keeps the points; its active dimensions are
      exactly those the set depends on, and none are left when it is everything. */
  method Reduce(t: Tree, act: seq<nat>, dims: seq<Dimension>, ghost pre: seq<nat>)
    returns (r: Tree, new': seq<nat>, ghost newPre: seq<nat>)
    requires Ordered(act, |dims|) && NonEmptyDomains(dims) && pre <= act && pre != []
    requires Canon(t, pre, dims, Below(pre, act)) && Live(t, pre)
    ensures Ordered(new', |dims|) && (new' == [] ==> r == Leaf && pre == act)
    ensures newPre <= new' && Below(newPre, new') == Below(pre, act) && new' == newPre + act[|pre|..]
    ensures Canon(r, newPre, dims, Below(pre, act)) && Same(t, pre, r, newPre, dims)
    ensures forall i: nat :: i < |newPre| ==> !FullAt(r, newPre, i, dims)
  {
    CanonShaped(t, pre, act, dims);
    var drop := FullDimensions(t, act, dims);
    DroppedIsFull(t, act, dims, pre, drop);
    new' := KeptDimensions(act, drop, |dims|);
    newPre := Keep(pre, drop);
    KeptPrefix(act, pre, drop, |dims|);
    KeepMember(act, drop, |dims|);
    hide Canon, Has, Canonical, Holds, FullAt, Same, KeysAt, Keep, Shaped;
    if new' == [] {
      r := Leaf;
      ReducedToAll(t, act, dims, pre, drop);
    } else {
      ReduceNarrowable(t, act, new', pre, newPre, drop, dims);
      r := Narrow(t, act, new', dims, pre, newPre);
    }
    ReducedBelow(act, new', pre, newPre);
    NoneFull(t, pre, r, newPre, drop, dims, Below(pre, act));
  }

  lemma ReducedBelow(act: seq<nat>, new': seq<nat>, pre: seq<nat>, newPre: seq<nat>)
    requires pre <= act && new' == newPre + act[|pre|..]
    ensures newPre <= new' && Below(newPre, new') == Below(pre, act)
  {
  }

  lemma ReducedToAll(t: Tree, act: seq<nat>, dims: seq<Dimension>, pre: seq<nat>, drop: set<nat>)
    requires Ordered(act, |dims|) && pre <= act && Canon(t, pre, dims, Below(pre, act)) && Live(t, pre)
    requires Keep(pre, drop) + act[|pre|..] == []
    requires forall d: nat :: d in Keep(pre, drop) <==> d in pre && d !in drop
    requires forall i: nat :: i < |pre| ==> (pre[i] in drop <==> FullAt(t, pre, i, dims))
    ensures pre == act && Canon(Leaf, [], dims, Below(pre, act)) && Same(t, pre, Leaf, [], dims) &&
            Keep(pre, drop) == []
  {
    assert pre == act;
    hide Canonical, Has, KeysAt, FullAt, Keep;
    forall i: nat | i < |pre| ensures FullAt(t, pre, i, dims) { assert pre[i] in pre; }
    AllFullHolds(t, pre, dims, Leaf);
  }

  lemma ReduceNarrowable(t: Tree, act: seq<nat>, new': seq<nat>, pre: seq<nat>, newPre: seq<nat>, drop: set<nat>,
                         dims: seq<Dimension>)
    requires Ordered(act, |dims|) && NonEmptyDomains(dims) && pre <= act && new' != []
    requires Canon(t, pre, dims, Below(pre, act)) && Live(t, pre)
    requires new' == newPre + act[|pre|..] && Ordered(newPre, |dims|)
    requires forall d: nat :: d in newPre <==> d in pre && d !in drop
    requires forall i: nat :: i < |pre| ==> (pre[i] in drop <==> FullAt(t, pre, i, dims))
    ensures Narrowable(t, act, new', pre, newPre, dims)
  {
    hide Canonical, Has, KeysAt, FullAt, Canon;
    forall i: nat | i < |pre| && pre[i] !in newPre ensures FullAt(t, pre, i, dims) { assert pre[i] in pre; }
  }

  /** A dimension that is kept is needed, before and after. */
  lemma NoneFull(t: Tree, pre: seq<nat>, r: Tree, newPre: seq<nat>, drop: set<nat>, dims: seq<Dimension>, bot: Tree)
    requires Ordered(pre, |dims|) && Ordered(newPre, |dims|) && NonEmptyDomains(dims)
    requires Canon(t, pre, dims, bot) && Canon(r, newPre, dims, bot) && Same(t, pre, r, newPre, dims)
    requires forall d: nat :: d in newPre ==> d in pre && d !in drop
    requires forall i: nat :: i < |pre| ==> (pre[i] in drop <==> FullAt(t, pre, i, dims))
    ensures forall i: nat :: i < |newPre| ==> !FullAt(r, newPre, i, dims)
  {
    hide Canonical, Has, FullAt, Canon, Same, Holds, Free;
    forall i: nat | i < |newPre|
      ensures !FullAt(r, newPre, i, dims)
    {
      assert newPre[i] in newPre;
      var j: nat :| j < |pre| && pre[j] == newPre[i];
      if FullAt(r, newPre, i, dims) {
        FullIsFree(r, newPre, i, dims, bot);
        SameFlip(t, pre, r, newPre, dims);
        FreeIsSemantic(r, newPre, t, pre, newPre[i], dims);
        FreeIsFull(t, pre, j, dims, bot);
      }
    }
  }

  lemma SameFlip(t: Tree, actT: seq<nat>, u: Tree, actU: seq<nat>, dims: seq<Dimension>)
    requires Same(t, actT, u, actU, dims)
    ensures Same(u, actU, t, actT, dims)
  {
  }
}
