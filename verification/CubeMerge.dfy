/** `_apply_layer_elements_union`: pairs of a layers dictionary with the same sub-cube become one pair, whose key is
    the union of theirs. This re-establishes the canonical form after every operator. */
module CubeMerge {
  import opened Intervals
  import opened CubeTrees

  /** `u` holds exactly the values of the keys that `m` maps to `s`. */
  ghost predicate IsGroup(u: IntervalSet, s: Tree, m: LayerMap) {
    forall x :: Has(u, x) <==> exists k :: k in m && m[k] == s && Has(k, x)
  }

  /** `r` has the groups of the sub-trees of `m`, and no other pairs. */
  ghost predicate Merged(r: LayerMap, m: LayerMap) {
    && (forall u :: u in r ==> IsGroup(u, r[u], m) && r[u] in m.Values)
    && (forall k :: k in m ==> m[k] in r.Values)
  }

  lemma GroupKey(r: LayerMap, m: LayerMap, u: IntervalSet, x: int) returns (k: IntervalSet)
    requires Merged(r, m) && u in r && Has(u, x)
    ensures k in m && m[k] == r[u] && Has(k, x)
  {
    assert IsGroup(u, r[u], m);
    k :| k in m && m[k] == r[u] && Has(k, x);
  }

  lemma GroupApart(r: LayerMap, m: LayerMap, u: IntervalSet, v: IntervalSet)
    requires Merged(r, m) && KeysApart(m) && u in r && v in r && u != v
    ensures Apart(u, v) && r[u] != r[v]
  {
    assert IsGroup(u, r[u], m) && IsGroup(v, r[v], m);
    hide Has, Canonical;
    if r[u] == r[v] {
      Intervals.Unique(u, v);
    }
    forall x
      ensures !(Has(u, x) && Has(v, x))
    {
      if Has(u, x) && Has(v, x) {
        var k := GroupKey(r, m, u, x);
        var l := GroupKey(r, m, v, x);
      }
    }
  }

  lemma GroupLayer(r: LayerMap, m: LayerMap, u: IntervalSet, act: seq<nat>, dims: seq<Dimension>, bot: Tree)
    requires act != [] && Merged(r, m) && Layers(m, act, dims, bot) && u in r
    ensures u != [] && Within(u, Domain(dims, act[0]))
    ensures Canon(r[u], act[1..], dims, bot) && Live(r[u], act[1..])
  {
    var k :| k in m && m[k] == r[u];
    var x := SomeValue(k);
    assert IsGroup(u, r[u], m);
    assert Has(u, x);
    forall y | Has(u, y)
      ensures Has(Domain(dims, act[0]), y)
    {
      var l := GroupKey(r, m, u, y);
      assert Within(l, Domain(dims, act[0]));
    }
  }

  /** Merging re-establishes the canonical form and keeps the points. */
  lemma MergedCanon(r: LayerMap, m: LayerMap, act: seq<nat>, dims: seq<Dimension>, bot: Tree)
    requires act != [] && Merged(r, m) && Layers(m, act, dims, bot)
    ensures Canon(Node(r), act, dims, bot)
    ensures forall p :: Holds(Node(r), act, p) <==> Holds(Node(m), act, p)
  {
    MergedLayers(r, m, act, dims, bot);
  }

  lemma MergedLayers(r: LayerMap, m: LayerMap, act: seq<nat>, dims: seq<Dimension>, bot: Tree)
    requires act != [] && Merged(r, m) && Layers(m, act, dims, bot)
    ensures Layers(r, act, dims, bot) && SubTreesDistinct(r)
  {
    hide Merged, IsGroup, Canon, Has, Canonical, Apart, Within;
    forall u | u in r
      ensures u != [] && Within(u, Domain(dims, act[0]))
      ensures Canon(r[u], act[1..], dims, bot) && Live(r[u], act[1..])
    {
      GroupLayer(r, m, u, act, dims, bot);
    }
    forall u, v | u in r && v in r && u != v
      ensures Apart(u, v) && r[u] != r[v]
    {
      GroupApart(r, m, u, v);
    }
  }

  /** The equivalence classes collected so far: under each sub-tree the keys that map to it. */
  ghost predicate Classes(classes: map<Tree, seq<IntervalSet>>, done: LayerMap) {
    && (forall s :: s in classes ==> classes[s] != [] && forall i :: 0 <= i < |classes[s]| ==>
          classes[s][i] in done && done[classes[s][i]] == s)
    && (forall k :: k in done ==> done[k] in classes && k in classes[done[k]])
  }

  lemma NextClass(classes: map<Tree, seq<IntervalSet>>, done: LayerMap, k: IntervalSet, s: Tree)
    requires Classes(classes, done) && k !in done
    ensures Classes(classes[s := if s in classes then classes[s] + [k] else [k]], done[k := s])
  {
    var next := if s in classes then classes[s] + [k] else [k];
    assert next[|next| - 1] == k;
    forall l | l in done && done[l] == s ensures l in next {
      assert l in classes[s];
    }
  }

  method Classify(m: LayerMap) returns (classes: map<Tree, seq<IntervalSet>>)
    ensures Classes(classes, m)
  {
    classes := map[];
    var todo := m.Keys;
    ghost var done: LayerMap := map[];
    hide Has, Canonical;
    while todo != {}
      invariant Visited(done, m, todo) && Classes(classes, done)
      decreases |todo|
    {
      var k :| k in todo;
      VisitNext(done, m, todo, k);
      var s := m[k];
      NextClass(classes, done, k, s);
      classes := classes[s := if s in classes then classes[s] + [k] else [k]];
      todo, done := todo - {k}, done[k := s];
    }
    VisitEnd(done, m);
  }

  method UnionOf(list: seq<IntervalSet>) returns (u: IntervalSet)
    requires list != []
    ensures forall x :: Has(u, x) <==> exists i :: 0 <= i < |list| && Has(list[i], x)
  {
    u := list[0];
    for i := 1 to |list|
      invariant forall x :: Has(u, x) <==> exists j :: 0 <= j < i && Has(list[j], x)
    {
      u := Union(u, list[i]);
    }
  }

  lemma ClassIsGroup(classes: map<Tree, seq<IntervalSet>>, m: LayerMap, s: Tree, u: IntervalSet)
    requires Classes(classes, m) && s in classes
    requires forall x :: Has(u, x) <==> exists i :: 0 <= i < |classes[s]| && Has(classes[s][i], x)
    ensures IsGroup(u, s, m) && s in m.Values
  {
    assert classes[s][0] in m && m[classes[s][0]] == s;
    forall x
      ensures Has(u, x) <==> exists k :: k in m && m[k] == s && Has(k, x)
    {
      if Has(u, x) {
        var i :| 0 <= i < |classes[s]| && Has(classes[s][i], x);
        assert classes[s][i] in m;
      }
      if exists k :: k in m && m[k] == s && Has(k, x) {
        var k :| k in m && m[k] == s && Has(k, x);
        assert k in classes[s];
      }
    }
  }

  /** The merging loop has dealt with every class outside `todo`. */
  ghost predicate Merging(r: LayerMap, m: LayerMap, all: set<Tree>, todo: set<Tree>) {
    && (forall u :: u in r ==> IsGroup(u, r[u], m) && r[u] in m.Values && r[u] !in todo)
    && (forall s :: s in all && s !in todo ==> s in r.Values)
  }

  lemma NextGroup(r: LayerMap, m: LayerMap, all: set<Tree>, todo: set<Tree>, u: IntervalSet, s: Tree)
    requires KeysApart(m) && (forall k :: k in m ==> k != [])
    requires Merging(r, m, all, todo) && s in todo && IsGroup(u, s, m) && s in m.Values
    ensures Merging(r[u := s], m, all, todo - {s})
  {
    FreshGroup(r, m, u, s);
    hide IsGroup;
    var next := r[u := s];
    assert next[u] == s;
    forall t | t in all && t !in todo - {s} ensures t in next.Values {
      if t != s {
        var v :| v in r && r[v] == t;
        assert next[v] == t;
      }
    }
  }

  lemma FreshGroup(r: LayerMap, m: LayerMap, u: IntervalSet, s: Tree)
    requires KeysApart(m) && (forall k :: k in m ==> k != [])
    requires (u in r ==> IsGroup(u, r[u], m) && r[u] != s) && IsGroup(u, s, m) && s in m.Values
    ensures u !in r
  {
    var k :| k in m && m[k] == s;
    var x := SomeValue(k);
    hide Has, Canonical;
    assert Has(u, x);
    assert u in r ==> exists l :: l in m && m[l] == r[u] && Has(l, x);
  }

  method MergeEqual(m: LayerMap) returns (r: LayerMap)
    requires KeysApart(m) && (forall k :: k in m ==> k != [])
    ensures Merged(r, m)
  {
    var classes := Classify(m);
    r := map[];
    var todo := classes.Keys;
    while todo != {}
      invariant todo <= classes.Keys && Merging(r, m, classes.Keys, todo)
      decreases |todo|
    {
      var s :| s in todo;
      var u := UnionOf(classes[s]);
      ClassIsGroup(classes, m, s, u);
      NextGroup(r, m, classes.Keys, todo, u, s);
      r := r[u := s];
      todo := todo - {s};
    }
  }
}
