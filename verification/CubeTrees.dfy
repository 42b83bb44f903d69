/** The layer trees of hyper-cube sets. */
module CubeTrees {
  // Every node maps pairwise disjoint interval sets of one dimension to sub-trees over the remaining active
  // dimensions.

  import opened Intervals

  datatype Dimension = Dimension(name: string, domain: IntervalSet)

  /** `Leaf` is the empty interval set the source stores below the last active dimension. */
  datatype Tree = Leaf | Node(layers: LayerMap)

  type LayerMap = map<IntervalSet, Tree>

  /** One coordinate for every dimension, active or not. */
  type Point = seq<int>

  function Domain(dims: seq<Dimension>, d: nat): IntervalSet {
    if d < |dims| then dims[d].domain else []
  }

  ghost predicate InSpace(dims: seq<Dimension>, p: Point) {
    |p| == |dims| && forall d: nat :: d < |p| ==> Has(Domain(dims, d), p[d])
  }

  ghost predicate NonEmptyDomains(dims: seq<Dimension>) {
    forall d: nat :: d < |dims| ==> Domain(dims, d) != []
  }

  /** Active dimensions are positions in the list of all dimensions, in its order. */
  ghost predicate Ordered(act: seq<nat>, n: nat) {
    (forall i, j :: 0 <= i < j < |act| ==> act[i] < act[j]) && forall i :: 0 <= i < |act| ==> act[i] < n
  }

  ghost predicate Apart(k: IntervalSet, l: IntervalSet) {
    forall x :: !(Has(k, x) && Has(l, x))
  }

  ghost predicate Within(k: IntervalSet, domain: IntervalSet) {
    forall x :: Has(k, x) ==> Has(domain, x)
  }

  /** Membership: inactive dimensions allow everything. */
  ghost predicate Holds(t: Tree, act: seq<nat>, p: Point)
    decreases |act|
  {
    act == [] || (t.Node? && act[0] < |p| &&
                  exists k :: k in t.layers && Has(k, p[act[0]]) && Holds(t.layers[k], act[1..], p))
  }

  /** The points that one layer contributes. */
  ghost predicate Section(k: IntervalSet, s: Tree, act: seq<nat>, p: Point)
    requires act != []
  {
    act[0] < |p| && Has(k, p[act[0]]) && Holds(s, act[1..], p)
  }

  predicate Live(t: Tree, act: seq<nat>) {
    act == [] || (t.Node? && t.layers != map[])
  }

  ghost predicate KeysApart(m: LayerMap) {
    forall k, l :: k in m && l in m && k != l ==> Apart(k, l)
  }

  ghost predicate SubTreesDistinct(m: LayerMap) {
    forall k, l :: k in m && l in m && m[k] == m[l] ==> k == l
  }

  /** What every layers dictionary satisfies before equal sub-cubes are merged. */
  ghost predicate Layers(m: LayerMap, act: seq<nat>, dims: seq<Dimension>, bot: Tree)
    requires act != []
    decreases |act|, 0
  {
    && (forall k :: k in m ==> k != [] && Within(k, Domain(dims, act[0])))
    && (forall k :: k in m ==> Canon(m[k], act[1..], dims, bot) && Live(m[k], act[1..]))
    && KeysApart(m)
  }

  /** The canonical form at every depth. `bot` is what stands below the last dimension of `act`:
      `Leaf`, or a node without layers where only a prefix of the active dimensions is looked at. */
  ghost predicate Canon(t: Tree, act: seq<nat>, dims: seq<Dimension>, bot: Tree)
    decreases |act|, 1
  {
    if act == [] then t == bot
    else
      t.Node? && Layers(t.layers, act, dims, bot) && SubTreesDistinct(t.layers)
  }

  /** What stands below a prefix of the active dimensions. */
  ghost function Below(pre: seq<nat>, act: seq<nat>): Tree {
    if |pre| == |act| then Leaf else Node(map[])
  }

  ghost predicate Same(t: Tree, actT: seq<nat>, u: Tree, actU: seq<nat>, dims: seq<Dimension>) {
    forall p :: InSpace(dims, p) ==> (Holds(t, actT, p) <==> Holds(u, actU, p))
  }

  lemma OrderedTail(act: seq<nat>, n: nat)
    requires act != [] && Ordered(act, n)
    ensures Ordered(act[1..], n) && act[0] !in act[1..] && act[0] < n
  {
  }

  lemma OpenTree(t: Tree, act: seq<nat>, dims: seq<Dimension>, bot: Tree)
    requires act != [] && Canon(t, act, dims, bot)
    ensures t.Node? && Layers(t.layers, act, dims, bot) && KeysApart(t.layers)
  {
  }

  lemma OpenLayer(m: LayerMap, act: seq<nat>, dims: seq<Dimension>, bot: Tree, k: IntervalSet)
    requires act != [] && Ordered(act, |dims|) && Layers(m, act, dims, bot) && k in m
    ensures k != [] && Within(k, Domain(dims, act[0]))
    ensures Ordered(act[1..], |dims|) && Canon(m[k], act[1..], dims, bot) && Live(m[k], act[1..])
    ensures forall l :: l in m && l != k ==> Apart(k, l) && Apart(l, k)
  {
  }

  lemma {:induction false} Frame(t: Tree, act: seq<nat>, p: Point, q: Point)
    requires |p| == |q| && forall d :: d in act && d < |p| ==> p[d] == q[d]
    ensures Holds(t, act, p) <==> Holds(t, act, q)
    decreases |act|
  {
    if act != [] && t.Node? && act[0] < |p| {
      forall k | k in t.layers
        ensures Holds(t.layers[k], act[1..], p) <==> Holds(t.layers[k], act[1..], q)
      {
        Frame(t.layers[k], act[1..], p, q);
      }
    }
  }

  /** At most one layer decides a point. */
  lemma Pick(m: LayerMap, act: seq<nat>, k: IntervalSet, p: Point)
    requires act != [] && KeysApart(m) && k in m && act[0] < |p| && Has(k, p[act[0]])
    ensures Holds(Node(m), act, p) <==> Holds(m[k], act[1..], p)
  {
    forall l | l in m && Has(l, p[act[0]]) ensures l == k {}
  }

  lemma {:induction false} Witness(t: Tree, act: seq<nat>, dims: seq<Dimension>, bot: Tree, base: Point)
    returns (p: Point)
    requires Ordered(act, |dims|) && Canon(t, act, dims, bot) && Live(t, act) && InSpace(dims, base)
    ensures InSpace(dims, p) && Holds(t, act, p)
    ensures forall d: nat :: d < |dims| && d !in act ==> p[d] == base[d]
    decreases |act|
  {
    if act == [] { return base; }
    var k :| k in t.layers;
    OpenTree(t, act, dims, bot);
    OpenLayer(t.layers, act, dims, bot, k);
    var q := Witness(t.layers[k], act[1..], dims, bot, base);
    p := WitnessAbove(t, act, dims, k, q);
  }

  lemma WitnessAbove(t: Tree, act: seq<nat>, dims: seq<Dimension>, k: IntervalSet, q: Point) returns (p: Point)
    requires act != [] && Ordered(act, |dims|) && t.Node? && KeysApart(t.layers)
    requires k in t.layers && k != [] && Within(k, Domain(dims, act[0]))
    requires InSpace(dims, q) && Holds(t.layers[k], act[1..], q)
    ensures InSpace(dims, p) && Holds(t, act, p)
    ensures forall d: nat :: d < |dims| && d != act[0] ==> p[d] == q[d]
  {
    OrderedTail(act, |dims|);
    var x := SomeValue(k);
    p := q[act[0] := x];
    Frame(t.layers[k], act[1..], q, p);
    Pick(t.layers, act, k, p);
  }

  lemma {:induction false} LiveHolds(t: Tree, act: seq<nat>, dims: seq<Dimension>, bot: Tree) returns (p: Point)
    requires Ordered(act, |dims|) && Canon(t, act, dims, bot) && Live(t, act)
    ensures |p| == |dims| && Holds(t, act, p)
    decreases |act|
  {
    if act == [] {
      p := seq(|dims|, _ => 0);
    } else {
      var k :| k in t.layers;
      OpenTree(t, act, dims, bot);
      OpenLayer(t.layers, act, dims, bot, k);
      var q := LiveHolds(t.layers[k], act[1..], dims, bot);
      var x := SomeValue(k);
      p := q[act[0] := x];
      hide Canon, Layers, Has, Canonical;
      Frame(t.layers[k], act[1..], q, p);
      Pick(t.layers, act, k, p);
    }
  }

  lemma SomeValue(k: IntervalSet) returns (x: int)
    requires k != []
    ensures Has(k, x)
  {
    x := k[0].start;
    assert k[0].Contains(x);
  }

  lemma {:induction false} SomePoint(dims: seq<Dimension>) returns (p: Point)
    requires NonEmptyDomains(dims)
    ensures InSpace(dims, p)
    decreases |dims|
  {
    p := seq(|dims|, i requires 0 <= i < |dims| && Domain(dims, i) != [] => Domain(dims, i)[0].start);
    forall d: nat | d < |dims|
      ensures Has(Domain(dims, d), p[d])
    {
      assert Domain(dims, d)[0].Contains(p[d]);
    }
  }

  /** Where layers of two equal sets overlap, the sub-trees are equal. */
  lemma {:induction false} SameSection(t: Tree, u: Tree, act: seq<nat>, dims: seq<Dimension>, bot: Tree,
                                       k: IntervalSet, l: IntervalSet, x: int)
    requires act != [] && Ordered(act, |dims|) && Canon(t, act, dims, bot) && Canon(u, act, dims, bot)
    requires NonEmptyDomains(dims) && Same(t, act, u, act, dims)
    requires k in t.layers && l in u.layers && Has(k, x) && Has(l, x)
    ensures t.layers[k] == u.layers[l]
    decreases |act|, 0
  {
    OrderedTail(act, |dims|);
    forall p | InSpace(dims, p)
      ensures Holds(t.layers[k], act[1..], p) <==> Holds(u.layers[l], act[1..], p)
    {
      var q := p[act[0] := x];
      assert InSpace(dims, q);
      Frame(t.layers[k], act[1..], p, q);
      Frame(u.layers[l], act[1..], p, q);
      Pick(t.layers, act, k, q);
      Pick(u.layers, act, l, q);
    }
    UniqueTree(t.layers[k], u.layers[l], act[1..], dims, bot);
  }

  /** Some layer of u overlaps any layer of t, and it is the same layer. */
  lemma {:induction false} LayerMatch(t: Tree, u: Tree, act: seq<nat>, dims: seq<Dimension>, bot: Tree,
                                      k: IntervalSet, x: int) returns (l: IntervalSet)
    requires act != [] && Ordered(act, |dims|) && Canon(t, act, dims, bot) && Canon(u, act, dims, bot)
    requires NonEmptyDomains(dims) && Same(t, act, u, act, dims)
    requires k in t.layers && Has(k, x)
    ensures l in u.layers && Has(l, x) && t.layers[k] == u.layers[l]
    decreases |act|, 1
  {
    OrderedTail(act, |dims|);
    var base := SomePoint(dims);
    var q := Witness(t.layers[k], act[1..], dims, bot, base);
    var p := q[act[0] := x];
    Frame(t.layers[k], act[1..], q, p);
    Pick(t.layers, act, k, p);
    assert InSpace(dims, p);
    assert Holds(u, act, p);
    l :| l in u.layers && Has(l, x) && Holds(u.layers[l], act[1..], p);
    SameSection(t, u, act, dims, bot, k, l, x);
  }

  lemma {:induction false} KeysMatch(t: Tree, u: Tree, act: seq<nat>, dims: seq<Dimension>, bot: Tree,
                                     k: IntervalSet)
    requires act != [] && Ordered(act, |dims|) && Canon(t, act, dims, bot) && Canon(u, act, dims, bot)
    requires NonEmptyDomains(dims) && Same(t, act, u, act, dims)
    requires k in t.layers
    ensures k in u.layers && t.layers[k] == u.layers[k]
    decreases |act|, 2
  {
    var x := SomeValue(k);
    var l := LayerMatch(t, u, act, dims, bot, k, x);
    forall y
      ensures Has(k, y) <==> Has(l, y)
    {
      if Has(k, y) { var l' := LayerMatch(t, u, act, dims, bot, k, y); }
      if Has(l, y) { var k' := LayerMatch(u, t, act, dims, bot, l, y); }
    }
    Intervals.Unique(k, l);
  }

  /** The normal form is unique: canonical trees over the same dimensions that hold the same points
      are the same tree. */
  lemma {:induction false} UniqueTree(t: Tree, u: Tree, act: seq<nat>, dims: seq<Dimension>, bot: Tree)
    requires Ordered(act, |dims|) && Canon(t, act, dims, bot) && Canon(u, act, dims, bot)
    requires NonEmptyDomains(dims) && Same(t, act, u, act, dims)
    ensures t == u
    decreases |act|, 3
  {
    if act != [] {
      forall k | k in t.layers
        ensures k in u.layers && t.layers[k] == u.layers[k]
      {
        KeysMatch(t, u, act, dims, bot, k);
      }
      forall k | k in u.layers
        ensures k in t.layers
      {
        KeysMatch(u, t, act, dims, bot, k);
      }
      assert t.layers == u.layers;
    }
  }

  /** `m` restricted to the keys already visited. */
  ghost predicate Visited(done: LayerMap, m: LayerMap, todo: set<IntervalSet>) {
    todo <= m.Keys && done.Keys == m.Keys - todo && forall k :: k in done ==> done[k] == m[k]
  }

  lemma VisitNext(done: LayerMap, m: LayerMap, todo: set<IntervalSet>, l: IntervalSet)
    requires Visited(done, m, todo) && l in todo
    ensures todo <= m.Keys && l !in done && |todo - {l}| < |todo| && Visited(done[l := m[l]], m, todo - {l})
    ensures todo - {l} == {} ==> done[l := m[l]] == m
  {
  }

  lemma VisitEnd(done: LayerMap, m: LayerMap)
    requires Visited(done, m, {})
    ensures done == m
  {
  }
}
