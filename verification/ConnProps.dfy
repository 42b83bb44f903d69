/** ConnectivityProperties: reordering the dimensions of a set, and projecting it on one dimension. */
module ConnProps {
  import opened Wrappers
  import opened Intervals
  import opened CubeTrees
  import opened CubeList
  import opened HyperCube
  import opened CubeDims
  import NormalForm
  import CubeContain

  /** A map from new to old positions that uses every old position once. */
  ghost predicate IsPermutation(perm: seq<nat>, n: nat) {
    && |perm| == n && (forall j :: 0 <= j < n ==> perm[j] < n)
    && (forall i, j :: 0 <= i < j < n ==> perm[i] != perm[j])
    && (forall d: nat :: d < n ==> d in perm)
  }

  ghost predicate IsMap(perm: seq<nat>, n: nat) {
    forall j :: 0 <= j < |perm| ==> perm[j] < n
  }

  /** _reorder_list_by_map */
  method ReorderList<T>(orig: seq<T>, newToOld: seq<nat>) returns (res: seq<T>)
    requires |newToOld| == |orig| && IsMap(newToOld, |orig|)
    ensures res == Reordered(orig, newToOld)
  {
    res := [];
    for i := 0 to |orig|
      invariant |res| == i && forall j :: 0 <= j < i ==> res[j] == orig[newToOld[j]]
    {
      res := res + [orig[newToOld[i]]];
    }
  }

  function Reordered<T>(orig: seq<T>, newToOld: seq<nat>): (r: seq<T>)
    requires IsMap(newToOld, |orig|)
    ensures |r| == |newToOld| && forall j :: 0 <= j < |r| ==> r[j] == orig[newToOld[j]]
  {
    seq(|newToOld|, j requires 0 <= j < |newToOld| => orig[newToOld[j]])
  }

  lemma ReorderedSpace(dims: seq<Dimension>, perm: seq<nat>, p: Point)
    requires IsPermutation(perm, |dims|) && |p| == |dims|
    ensures InSpace(Reordered(dims, perm), Reordered(p, perm)) <==> InSpace(dims, p)
  {
    hide Has, Canonical;
    var q := Reordered(p, perm);
    var new' := Reordered(dims, perm);
    if InSpace(new', q) {
      forall d: nat | d < |p| ensures Has(Domain(dims, d), p[d]) {
        assert d in perm;
        var j :| 0 <= j < |perm| && perm[j] == d;
        assert Has(Domain(new', j), q[j]);
      }
    }
    if InSpace(dims, p) {
      forall j: nat | j < |q| ensures Has(Domain(new', j), q[j]) {
        assert Has(Domain(dims, perm[j]), p[perm[j]]);
      }
    }
  }

  lemma ReorderedDomains(dims: seq<Dimension>, perm: seq<nat>)
    requires IsPermutation(perm, |dims|) && NonEmptyDomains(dims)
    ensures NonEmptyDomains(Reordered(dims, perm))
  {
    hide Canonical;
    forall j: nat | j < |dims| ensures Domain(Reordered(dims, perm), j) != [] {
      assert Domain(dims, perm[j]) != [];
    }
  }

  /** The active dimensions in the new order, and where each of them stood. */
  ghost predicate ActiveMap(newActive: seq<nat>, activeMap: seq<nat>, active: seq<nat>, perm: seq<nat>, upTo: nat) {
    && Ordered(newActive, upTo) && |activeMap| == |newActive| && upTo <= |perm|
    && (forall i :: 0 <= i < |newActive| ==> activeMap[i] < |active| && active[activeMap[i]] == perm[newActive[i]])
    && (forall j :: 0 <= j < upTo && perm[j] in active ==> j in newActive)
  }

  method IndexIn(d: nat, s: seq<nat>) returns (i: nat)
    requires d in s
    ensures i < |s| && s[i] == d
  {
    i := 0;
    while s[i] != d
      invariant i < |s| && d !in s[..i]
      decreases |s| - i
    {
      assert s == s[..i] + [s[i]] + s[i + 1..];
      i := i + 1;
    }
  }

  lemma ReorderedCube(cube: Cube, active: seq<nat>, newActive: seq<nat>, activeMap: seq<nat>, perm: seq<nat>,
                      p: Point, n: nat)
    requires IsPermutation(perm, n) && |p| == n && Ordered(active, n) && |cube| == |active|
    requires ActiveMap(newActive, activeMap, active, perm, n) && IsMap(activeMap, |cube|)
    ensures InCube(cube, active, p) <==> InCube(Reordered(cube, activeMap), newActive, Reordered(p, perm))
  {
    hide Has, Canonical;
    var newCube, q := Reordered(cube, activeMap), Reordered(p, perm);
    if InCube(cube, active, p) {
      forall i | 0 <= i < |newActive| ensures newActive[i] < |q| && Has(newCube[i], q[newActive[i]]) {
        assert Has(cube[activeMap[i]], p[active[activeMap[i]]]);
      }
    }
    if InCube(newCube, newActive, q) {
      forall a | 0 <= a < |active| ensures active[a] < |p| && Has(cube[a], p[active[a]]) {
        assert active[a] in perm;
        var j :| 0 <= j < |perm| && perm[j] == active[a];
        var i :| 0 <= i < |newActive| && newActive[i] == j;
        assert active[activeMap[i]] == active[a];
        assert Has(newCube[i], q[newActive[i]]);
      }
    }
  }

  /** The first part of _reorder_by_dim_list. */
  method ReorderActive(active: seq<nat>, perm: seq<nat>) returns (newActive: seq<nat>, activeMap: seq<nat>)
    requires Ordered(active, |perm|)
    ensures ActiveMap(newActive, activeMap, active, perm, |perm|)
  {
    newActive, activeMap := [], [];
    for j := 0 to |perm|
      invariant ActiveMap(newActive, activeMap, active, perm, j)
    {
      if perm[j] in active {
        var index := IndexIn(perm[j], active);
        activeMap := activeMap + [index];
        newActive := newActive + [j];
      }
    }
  }

  /** A tree over the new order holds the points of the first `count` cubes. */
  ghost predicate Added(t: Tree, act: seq<nat>, cubes: seq<Cube>, count: nat, active: seq<nat>, dims: seq<Dimension>,
                        perm: seq<nat>)
    requires IsPermutation(perm, |dims|) && count <= |cubes|
  {
    forall p :: InSpace(dims, p) ==>
      (Holds(t, act, Reordered(p, perm)) <==> exists i :: 0 <= i < count && InCube(cubes[i], active, p))
  }

  /** A cube and its reordered form hold the same points, up to the order of coordinates. */
  ghost predicate SameCube(cube: Cube, active: seq<nat>, newCube: Cube, newActive: seq<nat>, dims: seq<Dimension>,
                           perm: seq<nat>)
    requires IsPermutation(perm, |dims|)
  {
    forall p :: InSpace(dims, p) ==>
      InSpace(Reordered(dims, perm), Reordered(p, perm)) &&
      (InCube(cube, active, p) <==> InCube(newCube, newActive, Reordered(p, perm)))
  }

  lemma CubeReordered(cube: Cube, active: seq<nat>, newActive: seq<nat>, activeMap: seq<nat>, dims: seq<Dimension>,
                      perm: seq<nat>)
    requires IsPermutation(perm, |dims|) && Ordered(active, |dims|) && |cube| == |active| && IsMap(activeMap, |cube|)
    requires ActiveMap(newActive, activeMap, active, perm, |dims|)
    ensures SameCube(cube, active, Reordered(cube, activeMap), newActive, dims, perm)
  {
    forall p | InSpace(dims, p)
      ensures InSpace(Reordered(dims, perm), Reordered(p, perm))
      ensures InCube(cube, active, p) <==> InCube(Reordered(cube, activeMap), newActive, Reordered(p, perm))
    {
      ReorderedSpace(dims, perm, p);
      ReorderedCube(cube, active, newActive, activeMap, perm, p, |dims|);
    }
  }

  lemma AddedNext(t: Tree, act: seq<nat>, t': Tree, act': seq<nat>, cubes: seq<Cube>, k: nat, active: seq<nat>,
                  newCube: Cube, newActive: seq<nat>, dims: seq<Dimension>, perm: seq<nat>)
    requires IsPermutation(perm, |dims|) && k < |cubes| && newCube != []
    requires SameCube(cubes[k], active, newCube, newActive, dims, perm)
    requires Added(t, act, cubes, k, active, dims, perm)
    requires forall q :: InSpace(Reordered(dims, perm), q) ==>
               (Holds(t', act', q) <==> (Holds(t, act, q) || (newCube != [] && InCube(newCube, newActive, q))))
    ensures Added(t', act', cubes, k + 1, active, dims, perm)
  {
    assert forall p :: InSpace(dims, p) ==> |p| == |dims|;
    hide InSpace, InCube, Holds;
    forall p | InSpace(dims, p)
      ensures Holds(t', act', Reordered(p, perm)) <==> exists i :: 0 <= i < k + 1 && InCube(cubes[i], active, p)
    {
      assert Holds(t, act, Reordered(p, perm)) <==> exists i :: 0 <= i < k && InCube(cubes[i], active, p);
      assert InCube(newCube, newActive, Reordered(p, perm)) <==> InCube(cubes[k], active, p);
    }
  }

  /** The loop of _reorder_by_dim_list. */
  method AddReordered(cubes: seq<Cube>, active: seq<nat>, newDims: seq<Dimension>, newActive: seq<nat>,
                      activeMap: seq<nat>, ghost dims: seq<Dimension>, ghost perm: seq<nat>) returns (res: HyperCubeSet)
    requires IsPermutation(perm, |dims|) && dims != [] && NonEmptyDomains(dims) && newDims == Reordered(dims, perm)
    requires active != [] && Ordered(active, |dims|)
    requires forall i :: 0 <= i < |cubes| ==> GoodCube(cubes[i], active, dims)
    requires ActiveMap(newActive, activeMap, active, perm, |dims|)
    ensures fresh(res) && res.Valid() && res.dims == newDims
    ensures Added(res.AsTree(), res.active, cubes, |cubes|, active, dims, perm)
    ensures cubes == [] ==> res.AllActive()
  {
    ReorderedDomains(dims, perm);
    ActiveMapLength(newActive, activeMap, active, perm, |dims|);
    res := new HyperCubeSet(newDims, false);
    assert forall p :: res.HasPoint(p) <==> Holds(res.AsTree(), res.active, p);
    assert Added(res.AsTree(), res.active, cubes, 0, active, dims, perm);
    hide InSpace, InCube, ActiveMap, GoodCube, Normal, Holds, IsPermutation, CubeIn;
    for k := 0 to |cubes|
      invariant res.dims == newDims && res.Valid() && fresh(res)
      invariant Added(res.AsTree(), res.active, cubes, k, active, dims, perm)
      invariant k == 0 ==> res.AllActive()
    {
      var newCube := ReorderList(cubes[k], activeMap);
      ghost var t, act := res.AsTree(), res.active;
      res.AddCube(newCube, newActive);
      CubeReordered(cubes[k], active, newActive, activeMap, dims, perm);
      AddedNext(t, act, res.AsTree(), res.active, cubes, k, active, newCube, newActive, dims, perm);
    }
  }

  /** _reorder_by_dim_list. The entire space has no active dimensions, so its one cube is longer than the map of
      their positions: None is the IndexError. */
  method ReorderByDimList(self: HyperCubeSet, perm: seq<nat>) returns (r: Option<HyperCubeSet>)
    requires self.Valid() && IsPermutation(perm, |self.dims|)
    ensures r.None? <==> self.IsAll()
    ensures r.Some? ==> fresh(r.value) && r.value.Valid() && r.value.dims == Reordered(self.dims, perm)
    ensures r.Some? ==> forall p :: InSpace(self.dims, p) ==>
                (r.value.HasPoint(Reordered(p, perm)) <==> self.HasPoint(p))
    ensures !self.NonEmpty() ==> r.value.AllActive()
  {
    if self.IsAll() { return None; }
    var newDims := ReorderList(self.dims, perm);
    var newActive, activeMap := ReorderActive(self.active, perm);
    var cubes := self.Cubes();
    assert !self.NonEmpty() ==> self.CubeCount() == 0 by {
      if !self.NonEmpty() { NoCubes(self.AsTree(), self.active, self.dims); }
    }
    hide InSpace, InCube, ActiveMap, GoodCube, Holds, IsPermutation, Normal, CountCubes;
    var res := AddReordered(cubes, self.active, newDims, newActive, activeMap, self.dims, perm);
    r := Some(res);
  }

  function Elements(s: seq<nat>): set<nat> { set x | x in s }

  lemma {:induction false} DistinctLength(s: seq<nat>)
    requires forall i, j :: 0 <= i < j < |s| ==> s[i] != s[j]
    ensures |Elements(s)| == |s|
  {
    if s == [] {
      assert Elements(s) == {};
    } else {
      var rest := s[..|s| - 1];
      var last := s[|s| - 1];
      assert s == rest + [last];
      assert last !in rest;
      DistinctLength(rest);
      assert Elements(s) == Elements(rest) + {last};
    }
  }

  /** No active dimension is lost. */
  lemma ActiveMapLength(newActive: seq<nat>, activeMap: seq<nat>, active: seq<nat>, perm: seq<nat>, n: nat)
    requires IsPermutation(perm, n) && Ordered(active, n) && ActiveMap(newActive, activeMap, active, perm, n)
    ensures |activeMap| == |active| && |newActive| == |active|
  {
    var image := seq(|newActive|, i requires 0 <= i < |newActive| => perm[newActive[i]]);
    forall i, j | 0 <= i < j < |image| ensures image[i] != image[j] {
      assert newActive[i] < newActive[j];
    }
    DistinctLength(image);
    DistinctLength(active);
    forall d: nat ensures d in image <==> d in active {
      if d in image {
        var i :| 0 <= i < |image| && image[i] == d;
        assert active[activeMap[i]] == d;
      }
      if d in active {
        assert d in perm;
        var j :| 0 <= j < |perm| && perm[j] == d;
        var i :| 0 <= i < |newActive| && newActive[i] == j;
        assert image[i] == d;
      }
    }
    assert Elements(image) == Elements(active);
  }

  // ----- switching source and destination -----

  function SwapMap(i: nat, j: nat, n: nat): (r: seq<nat>)
    requires i < n && j < n
    ensures |r| == n
  {
    seq(n, k => if k == i then j else if k == j then i else k)
  }

  lemma SwapIsPermutation(i: nat, j: nat, n: nat)
    requires i < n && j < n
    ensures IsPermutation(SwapMap(i, j, n), n)
  {
    forall d: nat | d < n ensures d in SwapMap(i, j, n) {
      assert SwapMap(i, j, n)[if d == i then j else if d == j then i else d] == d;
    }
  }

  lemma SwapTwiceIsIdentity<T>(s: seq<T>, i: nat, j: nat)
    requires i < |s| && j < |s|
    ensures Reordered(Reordered(s, SwapMap(i, j, |s|)), SwapMap(j, i, |s|)) == s
  {
  }

  ghost predicate DistinctNames(dims: seq<Dimension>) {
    forall i, j :: 0 <= i < j < |dims| ==> dims[i].name != dims[j].name
  }

  /** list.index */
  method IndexOf(dims: seq<Dimension>, name: string) returns (i: nat)
    requires exists k :: 0 <= k < |dims| && dims[k].name == name
    ensures i < |dims| && dims[i].name == name
  {
    ghost var k :| 0 <= k < |dims| && dims[k].name == name;
    i := 0;
    while dims[i].name != name
      invariant i <= k
      decreases |dims| - i
    {
      i := i + 1;
    }
  }

  const SRC := "src_peers"
  const DST := "dst_peers"

  ghost predicate HasPeers(dims: seq<Dimension>) {
    && DistinctNames(dims)
    && (exists i :: 0 <= i < |dims| && dims[i].name == SRC)
    && (exists i :: 0 <= i < |dims| && dims[i].name == DST)
  }

  ghost predicate IsSwitch(i: nat, j: nat, dims: seq<Dimension>) {
    i < |dims| && j < |dims| && dims[i].name == SRC && dims[j].name == DST
  }

  /** reorder_by_switching_src_dst_peers */
  method SwitchSrcDst(self: HyperCubeSet) returns (r: Option<HyperCubeSet>, ghost i: nat, ghost j: nat)
    requires self.Valid() && HasPeers(self.dims)
    ensures IsSwitch(i, j, self.dims)
    ensures r.None? <==> self.IsAll()
    ensures r.Some? ==> fresh(r.value) && r.value.Valid()
    ensures r.Some? ==> r.value.dims == Reordered(self.dims, SwapMap(i, j, |self.dims|))
    ensures r.Some? ==> forall p :: InSpace(self.dims, p) ==>
              (r.value.HasPoint(Reordered(p, SwapMap(i, j, |p|))) <==> self.HasPoint(p))
    ensures !self.NonEmpty() ==> r.value.AllActive()
  {
    var src := IndexOf(self.dims, SRC);
    var dst := IndexOf(self.dims, DST);
    var n := |self.dims|;
    SwapIsPermutation(src, dst, n);
    i, j := src, dst;
    hide InSpace, Normal, Holds;
    r := ReorderByDimList(self, SwapMap(src, dst, n));
    forall p | InSpace(self.dims, p) ensures |p| == n {}
  }

  /** Switching twice gives back an equal set; only the entire space cannot be switched. */
  method SwitchTwice(self: HyperCubeSet) returns (r: Option<HyperCubeSet>, equal: bool)
    requires self.Valid() && HasPeers(self.dims)
    ensures r.None? <==> self.IsAll()
    ensures r.Some? ==> r.value.Valid() && r.value.dims == self.dims && equal
    ensures r.Some? && self.NonEmpty() ==> r.value.active == self.active && r.value.layers == self.layers
  {
    if self.IsAll() { return None, false; }
    var once;
    ghost var i, j;
    once, i, j := SwitchSrcDst(self);
    ghost var n, dims := |self.dims|, self.dims;
    SwitchedPeers(dims, i, j);
    SwitchNotAll(self, once.value, i, j);
    ghost var k, l;
    r, k, l := SwitchSrcDst(once.value);
    SwapTwiceIsIdentity(dims, i, j);
    hide InSpace, Normal, Holds;
    forall p | InSpace(dims, p) ensures r.value.HasPoint(p) <==> self.HasPoint(p) {
      SwapIsPermutation(i, j, n);
      ReorderedSpace(dims, SwapMap(i, j, n), p);
      SwapTwiceIsIdentity(p, i, j);
    }
    equal := r.value.Equals(self);
    EqualFields(r.value, self);
  }

  lemma EqualFields(a: HyperCubeSet, b: HyperCubeSet)
    requires a.Valid() && b.Valid() && a.dims == b.dims
    requires forall p :: InSpace(a.dims, p) ==> (a.HasPoint(p) <==> b.HasPoint(p))
    ensures b.NonEmpty() ==> a.active == b.active && a.layers == b.layers
  {
    EmptyIffNoPoint(a.AsTree(), a.active, a.dims);
    EmptyIffNoPoint(b.AsTree(), b.active, b.dims);
    if b.NonEmpty() {
      NormalForm.EqualIffSamePoints(a.AsTree(), a.active, b.AsTree(), b.active, a.dims);
    }
  }

  lemma SwitchedPeers(dims: seq<Dimension>, i: nat, j: nat)
    requires HasPeers(dims) && IsSwitch(i, j, dims)
    ensures HasPeers(Reordered(dims, SwapMap(i, j, |dims|)))
    ensures IsSwitch(j, i, Reordered(dims, SwapMap(i, j, |dims|)))
  {
    var new' := Reordered(dims, SwapMap(i, j, |dims|));
    assert new'[j].name == SRC && new'[i].name == DST;
  }

  lemma SwitchNotAll(self: HyperCubeSet, once: HyperCubeSet, i: nat, j: nat)
    requires self.Valid() && once.Valid() && !self.IsAll() && i < |self.dims| && j < |self.dims|
    requires forall p :: InSpace(self.dims, p) ==>
                 (once.HasPoint(Reordered(p, SwapMap(i, j, |self.dims|))) <==> self.HasPoint(p))
    ensures !once.IsAll()
  {
    if once.IsAll() {
      forall p | InSpace(self.dims, p) ensures self.HasPoint(p) {
        assert once.HasPoint(Reordered(p, SwapMap(i, j, |p|)));
      }
      if !self.NonEmpty() {
        EmptyIffNoPoint(self.AsTree(), self.active, self.dims);
        var q := SomePoint(self.dims);
        assert false;
      }
      EverythingIsAll(self.AsTree(), self.active, self.dims);
    }
  }

  /** The tree stands for the same set with the coordinates i and j exchanged. */
  ghost predicate Exchanged(self: HyperCubeSet, i: nat, j: nat, t: Tree, act: seq<nat>)
    requires i < |self.dims| && j < |self.dims|
    reads self
  {
    && Normal(t, act, Reordered(self.dims, SwapMap(i, j, |self.dims|)))
    && forall p :: InSpace(self.dims, p) ==>
                     (Holds(t, act, Reordered(p, SwapMap(i, j, |p|))) <==> self.HasPoint(p))
  }

  /** No representation of the set in the other order has fewer cubes. */
  ghost predicate AtMostSwitched(self: HyperCubeSet, i: nat, j: nat, count: nat)
    requires i < |self.dims| && j < |self.dims|
    reads self
  {
    forall t, act :: Exchanged(self, i, j, t, act) ==> count <= CountCubes(t, act)
  }

  /** All such trees have the same number of cubes. */
  lemma ExchangedCount(self: HyperCubeSet, i: nat, j: nat, t: Tree, act: seq<nat>, u: Tree, act': seq<nat>)
    requires self.Valid() && HasPeers(self.dims) && IsSwitch(i, j, self.dims)
    requires Exchanged(self, i, j, t, act) && Exchanged(self, i, j, u, act')
    ensures CountCubes(t, act) == CountCubes(u, act')
  {
    var n, dims := |self.dims|, self.dims;
    var sdims := Reordered(dims, SwapMap(i, j, n));
    hide Normal, Holds, InSpace, HasPeers;
    forall q | InSpace(sdims, q) ensures Holds(t, act, q) <==> Holds(u, act', q) {
      ExchangeBack(dims, i, j, q);
    }
    EmptyIffNoPoint(t, act, sdims);
    EmptyIffNoPoint(u, act', sdims);
    SameCount(t, act, u, act', sdims);
  }

  lemma NoCubes(t: Tree, act: seq<nat>, dims: seq<Dimension>)
    requires Normal(t, act, dims) && !Live(t, act)
    ensures CountCubes(t, act) == 0
  {
    assert Paths(t, |act|) == {};
  }

  lemma SameCount(t: Tree, act: seq<nat>, u: Tree, act': seq<nat>, dims: seq<Dimension>)
    requires Normal(t, act, dims) && Normal(u, act', dims) && (Live(t, act) <==> Live(u, act'))
    requires Same(t, act, u, act', dims)
    ensures CountCubes(t, act) == CountCubes(u, act')
  {
    if Live(t, act) {
      NormalForm.EqualIffSamePoints(t, act, u, act', dims);
    } else {
      NoCubes(t, act, dims);
      NoCubes(u, act', dims);
    }
  }

  /** Every point of the exchanged space comes from the point with the coordinates changed back. */
  lemma ExchangeBack(dims: seq<Dimension>, i: nat, j: nat, q: Point)
    requires i < |dims| && j < |dims| && InSpace(Reordered(dims, SwapMap(i, j, |dims|)), q)
    ensures |q| == |dims| && InSpace(dims, Reordered(q, SwapMap(i, j, |q|)))
    ensures Reordered(Reordered(q, SwapMap(i, j, |q|)), SwapMap(i, j, |q|)) == q
  {
    var p := Reordered(q, SwapMap(i, j, |q|));
    forall d: nat | d < |p| ensures Has(Domain(dims, d), p[d]) {
      var e: nat := SwapMap(i, j, |q|)[d];
      assert Has(Domain(Reordered(dims, SwapMap(i, j, |dims|)), e), q[e]);
    }
  }

  /** minimize: the order of source and destination with fewer cubes, which is the given one if they are as many. */
  method Minimize(self: HyperCubeSet) returns (r: Option<HyperCubeSet>, ghost i: nat, ghost j: nat)
    requires self.Valid() && HasPeers(self.dims)
    ensures IsSwitch(i, j, self.dims) && (r.None? <==> self.IsAll())
    ensures r.Some? ==> r.value.Valid() && r.value.CubeCount() <= self.CubeCount()
    ensures r.Some? ==> AtMostSwitched(self, i, j, r.value.CubeCount())
    ensures r.Some? ==> (r.value == self <==> AtMostSwitched(self, i, j, self.CubeCount()))
    ensures r.Some? && r.value != self ==>
              r.value.dims == Reordered(self.dims, SwapMap(i, j, |self.dims|)) &&
              forall p :: InSpace(self.dims, p) ==>
                (r.value.HasPoint(Reordered(p, SwapMap(i, j, |p|))) <==> self.HasPoint(p))
  {
    r, i, j := SwitchSrcDst(self);
    if r.Some? {
      var mine := self.Cubes();
      var others := r.value.Cubes();
      hide Normal, InSpace, Holds, HasPeers, CountCubes, InCube, GoodCube;
      assert Exchanged(self, i, j, r.value.AsTree(), r.value.active);
      assert |others| == CountCubes(r.value.AsTree(), r.value.active) && |mine| == self.CubeCount();
      forall t, act | Exchanged(self, i, j, t, act) ensures CountCubes(t, act) == |others| {
        ExchangedCount(self, i, j, r.value.AsTree(), r.value.active, t, act);
      }
      if |mine| <= |others| { r := Some(self); }
    }
  }

  // ----- projection -----

  /** `x` is the d-th coordinate of some point. */
  ghost predicate Projects(self: HyperCubeSet, d: nat, x: int)
    reads self
  {
    exists p :: InSpace(self.dims, p) && self.HasPoint(p) && d < |p| && p[d] == x
  }

  /** project_on_one_dimension. For an inactive dimension it returns the domain, which is wrong exactly for a set
      without points. */
  method ProjectOnOneDimension(self: HyperCubeSet, d: nat) returns (res: IntervalSet)
    requires self.Valid() && d < |self.dims|
    ensures self.NonEmpty() || d in self.active <==> forall x :: Has(res, x) <==> Projects(self, d, x)
  {
    if d !in self.active {
      res := Domain(self.dims, d);
      InactiveProjection(self, d);
      return;
    }
    var i := IndexIn(d, self.active);
    res := [];
    var cubes := self.Cubes();
    hide Has, Canonical, InCube, GoodCube, Normal, InSpace;
    for k := 0 to |cubes|
      invariant forall x :: Has(res, x) <==> exists c :: 0 <= c < k && i < |cubes[c]| && Has(cubes[c][i], x)
    {
      res := Union(res, cubes[k][i]);
    }
    CubesProject(self, d, i, cubes);
  }

  lemma InactiveProjection(self: HyperCubeSet, d: nat)
    requires self.Valid() && d < |self.dims| && d !in self.active
    ensures self.NonEmpty() <==> forall x :: Has(Domain(self.dims, d), x) <==> Projects(self, d, x)
  {
    var dims := self.dims;
    if self.NonEmpty() {
      forall x ensures Has(Domain(dims, d), x) <==> Projects(self, d, x) {
        if Has(Domain(dims, d), x) {
          var p := CubeContain.FreeCoordinate(self.AsTree(), self.active, dims, d, x);
          assert self.HasPoint(p);
        }
      }
    } else {
      EmptyHoldsNothing(self.AsTree(), self.active);
      var x := SomeValue(Domain(dims, d));
      assert Has(Domain(dims, d), x) && !Projects(self, d, x);
    }
  }

  lemma CubesProject(self: HyperCubeSet, d: nat, i: nat, cubes: seq<Cube>)
    requires self.Valid() && d < |self.dims| && i < |self.active| && self.active[i] == d
    requires forall c :: 0 <= c < |cubes| ==> GoodCube(cubes[c], self.active, self.dims)
    requires forall p :: InSpace(self.dims, p) ==>
               (self.HasPoint(p) <==> exists c :: 0 <= c < |cubes| && InCube(cubes[c], self.active, p))
    ensures forall x :: Projects(self, d, x) <==> exists c :: 0 <= c < |cubes| && i < |cubes[c]| && Has(cubes[c][i], x)
  {
    NormalParts(self.AsTree(), self.active, self.dims);
    hide Has, Canonical, Normal, Holds, InSpace, GoodCube, InCube;
    forall x
      ensures Projects(self, d, x) <==> exists c :: 0 <= c < |cubes| && i < |cubes[c]| && Has(cubes[c][i], x)
    {
      if Projects(self, d, x) {
        var p :| InSpace(self.dims, p) && self.HasPoint(p) && d < |p| && p[d] == x;
        var c :| 0 <= c < |cubes| && InCube(cubes[c], self.active, p);
      }
      if exists c :: 0 <= c < |cubes| && i < |cubes[c]| && Has(cubes[c][i], x) {
        var c :| 0 <= c < |cubes| && i < |cubes[c]| && Has(cubes[c][i], x);
        var p := CubePoint(cubes[c], self.active, self.dims, i, x);
        assert self.HasPoint(p);
      }
    }
  }

  /** A cube has a point with any wanted value in one of its dimensions. */
  lemma CubePoint(cube: Cube, act: seq<nat>, dims: seq<Dimension>, i: nat, x: int) returns (p: Point)
    requires GoodCube(cube, act, dims) && Ordered(act, |dims|) && NonEmptyDomains(dims) && i < |act| && i < |cube| &&
             Has(cube[i], x)
    ensures InSpace(dims, p) && InCube(cube, act, p) && act[i] < |p| && p[act[i]] == x
  {
    CubeTreeCanon(cube, act, dims);
    var base := SomePoint(dims);
    var q := Witness(CubeTree(cube), act, dims, Leaf, base);
    CubeTreeHolds(cube, act, q);
    p := q[act[i] := x];
    assert Within(cube[i], Domain(dims, act[i]));
    assert Has(Domain(dims, act[i]), x);
    NormalForm.MoveWithin(dims, q, act[i], x);
    assert |q| == |dims| && |cube| == |act|;
    hide Canon, Holds, Canonical, CubeTree, Within, Has, InSpace, GoodCube;
    forall a | 0 <= a < |act| ensures act[a] < |p| && Has(cube[a], p[act[a]]) {
      if a != i { assert act[a] != act[i] by { if a < i { assert act[a] < act[i]; } else { assert act[i] < act[a]; } } }
    }
  }
}
