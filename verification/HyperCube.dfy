/** CanonicalHyperCubeSet, the mutable set of points. */
module HyperCube {
  // The object keeps a canonical layer tree over a minimal list of active dimensions.

  import opened Wrappers
  import opened Intervals
  import opened CubeTrees
  import opened NormalForm
  import opened CubeCells
  import opened CubeDims
  import opened CubeReduce
  import opened CubeContain
  import opened CubePrefix
  import opened CubeList
  import CubeOps

  /** The normal form of a set: canonical at every depth and, unless empty, over minimal active dimensions. */
  ghost predicate Normal(t: Tree, act: seq<nat>, dims: seq<Dimension>) {
    && dims != [] && NonEmptyDomains(dims) && Ordered(act, |dims|)
    && Canon(t, act, dims, Leaf) && (Live(t, act) ==> Reduced(t, act, dims))
  }

  /** The points of r, from those of t and u. */
  ghost predicate Combined(op: Op, r: Tree, actR: seq<nat>, t: Tree, actT: seq<nat>, u: Tree, actU: seq<nat>,
                           dims: seq<Dimension>) {
    forall p :: InSpace(dims, p) ==> (Holds(r, actR, p) <==> Apply(op, Holds(t, actT, p), Holds(u, actU, p)))
  }

  /** all_dimensions_list, as positions. */
  function AllDimensions(n: nat): (r: seq<nat>)
    ensures |r| == n && Ordered(r, n) && (n > 0 ==> r[0] == 0) && forall d: nat :: d in r <==> d < n
  {
    var r: seq<nat> := seq(n, i => i);
    assert forall d: nat :: d in r <==> d < n by {
      forall d: nat ensures d in r <==> d < n { assert d < n ==> r[d] == d; }
    }
    r
  }

  lemma EmptyIsNormal(dims: seq<Dimension>, act: seq<nat>)
    requires dims != [] && NonEmptyDomains(dims) && act != [] && Ordered(act, |dims|)
    ensures Normal(Node(map[]), act, dims) && !Live(Node(map[]), act) && forall p :: !Holds(Node(map[]), act, p)
  {
  }

  /** A live tree that stops before its last active dimension is not in normal form: it looks non-empty
      but holds no point. */
  lemma StumpIsNotNormal(t: Tree, pre: seq<nat>, act: seq<nat>, dims: seq<Dimension>)
    requires pre <= act && pre != [] && |pre| < |act| && Ordered(act, |dims|) && NonEmptyDomains(dims)
    requires Canon(t, pre, dims, Node(map[])) && Live(t, pre)
    ensures !Normal(t, act, dims)
  {
    if Normal(t, act, dims) {
      var base := SomePoint(dims);
      var p := Witness(t, act, dims, Leaf, base);
      StumpHoldsNothing(t, pre, act, dims, p);
    }
  }

  lemma GoodWitness(u: Tree, act: seq<nat>, dims: seq<Dimension>) returns (p: Point)
    requires Good(u, act, dims)
    ensures InSpace(dims, p) && Holds(u, act, p)
  {
    var base := SomePoint(dims);
    p := Witness(u, act, dims, Leaf, base);
  }

  lemma StumpLive(r: Tree, pre: seq<nat>, dims: seq<Dimension>)
    requires Ordered(pre, |dims|) && NonEmptyDomains(dims) && Canon(r, pre, dims, Node(map[]))
    ensures pre != [] ==> (Live(r, pre) <==> exists p :: InSpace(dims, p) && Holds(r, pre, p))
    ensures !(pre != [] && Live(r, pre)) ==> r == Node(map[])
  {
    if pre != [] {
      if Live(r, pre) {
        var base := SomePoint(dims);
        var p := Witness(r, pre, dims, Node(map[]), base);
      }
    }
  }

  /** When an empty set is widened for `-=`, what is left has layers exactly if the other set does not reach
      every combination of the dimensions before the first active one. */
  lemma SubStump(r: Tree, t': Tree, u': Tree, act: seq<nat>, a: nat, u: Tree, actU: seq<nat>, dims: seq<Dimension>)
    requires Ordered(act, |dims|) && NonEmptyDomains(dims) && a in act && Good(u', act, dims) &&
             Same(u, actU, u', act, dims)
    requires Canon(r, Before(act, a), dims, Node(map[]))
    requires forall p :: InSpace(dims, p) ==> Holds(t', Before(act, a), p)
    requires Before(act, a) != [] ==> OpMeaning(Sub, r, t', u', Before(act, a))
    ensures |Before(act, a)| < |act|
    ensures Before(act, a) != [] && Live(r, Before(act, a)) <==>
              !(forall p :: InSpace(dims, p) ==> CompletesTo(u, actU, a, p, dims))
    ensures !(Before(act, a) != [] && Live(r, Before(act, a))) ==> r == Node(map[])
    ensures Before(act, a) != [] ==> exists p :: InSpace(dims, p) && !Holds(r, Before(act, a), p)
  {
    var pre := Before(act, a);
    BeforeMember(act, a, |dims|);
    assert |pre| == |act| ==> pre == act && a in pre;
    PrefixOrdered(pre, act, |dims|);
    forall p | InSpace(dims, p)
      ensures Holds(u', pre, p) <==> CompletesTo(u, actU, a, p, dims)
    {
      PrefixReaches(u', act, a, dims, p);
    }
    StumpLive(r, pre, dims);
    var w := GoodWitness(u', act, dims);
    HoldsPrefix(u', pre, act, w);
    hide Canon, Has, Canonical, Good, CompletesTo, Before, Live;
  }

  /** With no dimension before the first one, there is nothing to reach. */
  lemma AlwaysCompletes(u: Tree, act: seq<nat>, dims: seq<Dimension>)
    requires Normal(u, act, dims) && Live(u, act)
    ensures forall p :: InSpace(dims, p) ==> CompletesTo(u, act, 0, p, dims)
  {
    NormalParts(u, act, dims);
    var q := GoodWitness(u, act, dims);
    forall p | InSpace(dims, p) ensures CompletesTo(u, act, 0, p, dims) { assert AgreeBelow(p, q, 0); }
  }

  lemma FirstOfMerge(act: seq<nat>, a: seq<nat>, b: seq<nat>, n: nat)
    requires Merge(act, a, b) && Ordered(act, n) && a != [] && a[0] == 0
    ensures act != [] && act[0] == 0
  {
    assert 0 in act;
  }

  class HyperCubeSet {
    const dims: seq<Dimension>
    var layers: map<IntervalSet, Tree>
    var active: seq<nat>

    function AsTree(): Tree
      reads this
    { if active == [] then Leaf else Node(layers) }

    ghost predicate Valid()
      reads this
    {
      (active == [] ==> layers == map[]) && Normal(AsTree(), active, dims)
    }

    /** Membership of a point of the space. */
    ghost predicate HasPoint(p: Point)
      reads this
    { Holds(AsTree(), active, p) }

    predicate IsAll()
      reads this
    { active == [] }

    ghost predicate AllActive()
      reads this
    { forall d: nat :: d in active <==> d < |dims| }

    /** __bool__ */
    predicate NonEmpty()
      reads this
    { active == [] || layers != map[] }

    constructor (dims: seq<Dimension>, allowAll: bool)
      requires dims != [] && NonEmptyDomains(dims)
      ensures this.dims == dims && Valid() && (if allowAll then IsAll() else AllActive())
      ensures forall p :: HasPoint(p) <==> allowAll
    {
      this.dims := dims;
      layers := map[];
      active := if allowAll then [] else AllDimensions(|dims|);
      new;
      EmptyIsNormal(dims, AllDimensions(|dims|));
    }

    constructor Copy(other: HyperCubeSet)
      ensures dims == other.dims && layers == other.layers && active == other.active
    {
      dims := other.dims;
      layers := other.layers;
      active := other.active;
    }

    method OverrideByOther(other: HyperCubeSet)
      modifies this
      ensures layers == old(other.layers) && active == old(other.active)
    {
      layers := other.layers;
      active := other.active;
    }

    method SetAll()
      requires dims != [] && NonEmptyDomains(dims)
      modifies this
      ensures Valid() && IsAll()
    {
      active := [];
      layers := map[];
    }

    method Clear()
      requires dims != [] && NonEmptyDomains(dims)
      modifies this
      ensures Valid() && !NonEmpty() && active[0] == 0 && AllActive() && forall p :: !HasPoint(p)
    {
      layers := map[];
      active := AllDimensions(|dims|);
      EmptyIsNormal(dims, AllDimensions(|dims|));
    }

    /** reduce_active_dimensions. The set may be a stump, canonical over the prefix `pre` only. */
    method ReduceActiveDimensions(ghost pre: seq<nat>) returns (ghost newPre: seq<nat>)
      requires active != [] && Ordered(active, |dims|) && NonEmptyDomains(dims) && dims != []
      requires pre <= active && Canon(Node(layers), pre, dims, Below(pre, active))
      modifies this
      ensures old(layers) == map[] ==> layers == map[] && active == old(active)
      ensures old(layers) != map[] ==> active == newPre + old(active)[|pre|..]
      ensures pre == old(active) ==> Valid() && Same(old(AsTree()), pre, AsTree(), active, dims)
      ensures pre == old(active) && old(layers) != map[] ==> NonEmpty()
      ensures pre != old(active) && old(layers) != map[] ==>
                newPre <= active && newPre != active && Canon(Node(layers), newPre, dims, Node(map[])) &&
                Same(Node(old(layers)), pre, Node(layers), newPre, dims) && active != [] && Ordered(active, |dims|) &&
                Reduced(Node(layers), newPre, dims)
    {
      newPre := pre;
      if !NonEmpty() { return; }
      var r, act;
      r, act, newPre := Reduce(Node(layers), active, dims, pre);
      ReducedIsNormal(Node(layers), active, dims, pre, r, act, newPre);
      layers := if act == [] then map[] else r.layers;
      active := act;
    }

    /** Making dimensions active and reducing again gives back an equal set in normal form: the very same
        representation, unless the set is empty. An empty set stays empty, over the dimensions from its first active
        one on. */
    method WidenAndReduce(names: set<nat>)
      requires Valid() && forall d :: d in names ==> d < |dims|
      modifies this
      ensures Valid() && forall p :: InSpace(dims, p) ==> (HasPoint(p) <==> old(HasPoint(p)))
      ensures old(NonEmpty()) ==> active == old(active) && layers == old(layers)
      ensures old(!NonEmpty()) ==>
                !NonEmpty() &&
                forall d: nat :: d in active <==> (d in old(active) || d in names) && d >= old(active)[0]
    {
      ghost var t0, a0 := AsTree(), active;
      NormalParts(t0, a0, dims);
      hide Holds, InSpace, Has, Canonical;
      var t, act := SetActiveDimensions(AsTree(), active, names, dims);
      if act == [] { return; }
      if NonEmpty() {
        OpenTree(t, act, dims, Leaf);
        layers, active := t.layers, act;
        assert Node(layers) == t;
        ghost var newPre := ReduceActiveDimensions(act);
        assert Same(t0, a0, AsTree(), active, dims);
        ghost var p := GoodWitness(t0, a0, dims);
        EmptyHoldsNothing(AsTree(), active);
        EqualIffSamePoints(t0, a0, AsTree(), active, dims);
      } else {
        EmptyHoldsNothing(t0, a0);
        ReduceWidenedEmpty(t, act, a0[0]);
        EmptyHoldsNothing(AsTree(), active);
      }
    }

    /** What widening leaves of an empty set is a stump that allows everything; reducing takes all of it away. */
    method ReduceWidenedEmpty(t: Tree, act: seq<nat>, ghost first: nat)
      requires dims != [] && NonEmptyDomains(dims) && Ordered(act, |dims|) && first in act
      requires Canon(t, Before(act, first), dims, Node(map[]))
      requires forall p :: InSpace(dims, p) ==> Holds(t, Before(act, first), p)
      modifies this
      ensures Valid() && !NonEmpty() && forall d: nat :: d in active <==> d in act && d >= first
    {
      ghost var pre := Before(act, first);
      FromFirst(act, first, |dims|);
      assert t.Node? && (t.layers == map[] ==> pre == []) by { EmptyIsHead(t, pre, dims); }
      hide Canon, Has, Holds, Before;
      layers, active := t.layers, act;
      assert Node(layers) == t;
      ghost var newPre := ReduceActiveDimensions(pre);
      if t.layers != map[] {
        PrefixOrdered(newPre, active, |dims|);
        StumpVanishes(t, pre, Node(layers), newPre, dims);
      }
      assert active == act[|pre|..];
      EmptyIsNormal(dims, active);
    }

    /** `&=` */
    method IAnd(other: HyperCubeSet)
      requires Valid() && other.Valid() && dims == other.dims
      modifies this
      ensures Valid()
      ensures forall p :: InSpace(dims, p) ==> (HasPoint(p) <==> old(HasPoint(p)) && old(other.HasPoint(p)))
      ensures old(other.IsAll()) ==> active == old(active) && layers == old(layers)
      ensures !old(other.IsAll()) && !(old(NonEmpty()) && old(other.NonEmpty())) ==> !NonEmpty() && AllActive()
      ensures !NonEmpty() && old(NonEmpty()) && old(other.NonEmpty()) ==> Merge(active, old(active), old(other.active))
    {
      ghost var t0, a0, u0, b0 := AsTree(), active, other.AsTree(), other.active;
      EmptyHoldsNothing(t0, a0);
      EmptyHoldsNothing(u0, b0);
      if other.IsAll() {
        return;
      }
      if !other.NonEmpty() || !NonEmpty() {
        Clear();
        return;
      }
      if IsAll() {
        OverrideByOther(other);
        return;
      }
      var t, u, act := PrepareCommon(AsTree(), active, other.AsTree(), other.active, dims);
      ActiveNonEmpty(act, a0, b0);
      var r := CubeOps.AndAux(t, u, act, dims);
      ghost var r0 := r;
      SetReduced(r, act);
      assert Combined(And, AsTree(), active, t0, a0, u0, b0, dims);
    }

    /** `|=` */
    method IOr(other: HyperCubeSet)
      requires Valid() && other.Valid() && dims == other.dims
      modifies this
      ensures Valid()
      ensures forall p :: InSpace(dims, p) ==> (HasPoint(p) <==> old(HasPoint(p)) || old(other.HasPoint(p)))
      ensures !NonEmpty() ==> active == old(active)
    {
      ghost var t0, a0, u0, b0 := AsTree(), active, other.AsTree(), other.active;
      EmptyHoldsNothing(t0, a0);
      EmptyHoldsNothing(u0, b0);
      if other.IsAll() || IsAll() {
        SetAll();
        return;
      }
      if !other.NonEmpty() {
        return;
      }
      if !NonEmpty() {
        OverrideByOther(other);
        return;
      }
      var t, u, act := PrepareCommon(AsTree(), active, other.AsTree(), other.active, dims);
      ActiveNonEmpty(act, a0, b0);
      var r := CubeOps.OrAux(t, u, act, dims);
      ghost var w := GoodWitness(t0, a0, dims);
      SetReduced(r, act);
      EmptyHoldsNothing(AsTree(), active);
      assert Combined(Or, AsTree(), active, t0, a0, u0, b0, dims);
    }

    /** The end of every operator: take over the result and reduce its active dimensions. */
    method SetReduced(r: Tree, act: seq<nat>)
      requires act != [] && Ordered(act, |dims|) && NonEmptyDomains(dims) && dims != [] && Canon(r, act, dims, Leaf)
      modifies this
      ensures Valid() && Same(r, act, AsTree(), active, dims) && (!NonEmpty() ==> active == act)
    {
      OpenTree(r, act, dims, Leaf);
      layers := r.layers;
      active := act;
      assert Node(layers) == r;
      ghost var newPre := ReduceActiveDimensions(act);
    }

    /** `-=`. Unlike `&=` and `|=` it does not look whether this set is empty. The points are right in every
        case, but an empty set stays in normal form exactly if `other` reaches every combination of the
        dimensions before this set's first active one. A set that is empty because it was made so, or cleared, has all
        dimensions active; it stays a proper empty set, with the first dimension active, whatever is taken away. */
    method ISub(other: HyperCubeSet)
      requires Valid() && other.Valid() && dims == other.dims
      modifies this
      ensures forall p :: InSpace(dims, p) ==> (HasPoint(p) <==> old(HasPoint(p)) && !old(other.HasPoint(p)))
      ensures Valid() <==> old(NonEmpty()) || old(!other.NonEmpty()) ||
                           forall p :: InSpace(dims, p) ==>
                             CompletesTo(old(other.AsTree()), old(other.active), old(active)[0], p, dims)
      ensures old(!NonEmpty()) && old(active)[0] == 0 ==> Valid() && !NonEmpty() && active[0] == 0
      ensures old(other.IsAll()) ==> Valid() && !NonEmpty() && AllActive()
      ensures old(!other.NonEmpty()) ==> active == old(active) && layers == old(layers)
      ensures Valid() && !NonEmpty() && old(other.NonEmpty()) && !old(other.IsAll()) ==>
                Merge(active, old(active), old(other.active))
    {
      EmptyHoldsNothing(AsTree(), active);
      EmptyHoldsNothing(other.AsTree(), other.active);
      hide CompletesTo, Normal, Holds, InSpace;
      if other.IsAll() {
        Clear();
      }
      if other.NonEmpty() {
        Subtract(other);
      }
    }

    /** The part of `-=` behind its guards. */
    method Subtract(other: HyperCubeSet)
      requires Valid() && other.Valid() && dims == other.dims && other.NonEmpty() && !(IsAll() && other.IsAll())
      modifies this
      ensures forall p :: InSpace(dims, p) ==> (HasPoint(p) <==> old(HasPoint(p)) && !old(other.HasPoint(p)))
      ensures Valid() <==> old(NonEmpty()) ||
                           forall p :: InSpace(dims, p) ==>
                             CompletesTo(old(other.AsTree()), old(other.active), old(active)[0], p, dims)
      ensures Valid() && !NonEmpty() ==> Merge(active, old(active), old(other.active))
      ensures old(!NonEmpty()) && old(active)[0] == 0 ==> Valid() && !NonEmpty() && active[0] == 0
    {
      ghost var t0, a0, u0, b0, nonEmpty := AsTree(), active, other.AsTree(), other.active, NonEmpty();
      NormalParts(t0, a0, dims);
      EmptyHoldsNothing(t0, a0);
      hide Canon, Holds, Normal, CompletesTo, InSpace, Below, Same, Ordered, NonEmptyDomains, Merge;
      var r, act, pre := SubtractTree(AsTree(), active, other.AsTree(), other.active, dims);
      layers := r.layers;
      active := act;
      assert Node(layers) == r && AsTree() == r;
      ghost var newPre := ReduceActiveDimensions(pre);
      if nonEmpty {
      } else {
        AfterStump(r, pre, AsTree(), active, newPre, act, dims);
        if a0[0] == 0 {
          AlwaysCompletes(u0, b0, dims);
          FirstOfMerge(act, a0, b0, |dims|);
        }
      }
      assert Combined(Sub, AsTree(), active, t0, a0, u0, b0, dims);
    }

    /** `==` decides equality of the point sets. */
    method Equals(other: HyperCubeSet) returns (b: bool)
      requires Valid() && other.Valid()
      ensures b <==> dims == other.dims && forall p :: InSpace(dims, p) ==> (HasPoint(p) <==> other.HasPoint(p))
    {
      if dims != other.dims { return false; }
      EmptyIffNoPoint(AsTree(), active, dims);
      EmptyIffNoPoint(other.AsTree(), other.active, dims);
      if !NonEmpty() && !other.NonEmpty() { return true; }
      b := active == other.active && layers == other.layers;
      if NonEmpty() && other.NonEmpty() {
        EqualIffSamePoints(AsTree(), active, other.AsTree(), other.active, dims);
      }
    }

    /** `contained_in` decides inclusion of the point sets. */
    method ContainedIn(other: HyperCubeSet) returns (b: bool)
      requires Valid() && other.Valid() && dims == other.dims
      ensures b <==> forall p :: InSpace(dims, p) && HasPoint(p) ==> other.HasPoint(p)
    {
      EmptyIffNoPoint(AsTree(), active, dims);
      EmptyIffNoPoint(other.AsTree(), other.active, dims);
      EmptyHoldsNothing(other.AsTree(), other.active);
      if other.IsAll() || !NonEmpty() { return true; }
      if !other.NonEmpty() { return false; }
      if IsAll() {
        if forall p :: InSpace(dims, p) && HasPoint(p) ==> other.HasPoint(p) {
          EverythingIsAll(other.AsTree(), other.active, dims);
        }
        return false;
      }
      b := ContainedInTree(AsTree(), active, other.AsTree(), other.active, dims);
    }

    /** `in`, for a list of coordinates; None is the exception for a list that is too short. */
    method ContainsItem(item: seq<int>) returns (r: Option<bool>)
      requires Valid()
      ensures r == if |item| < |dims| then None else Some(HasPoint(item))
    {
      if |item| < |dims| { return None; }
      if IsAll() { return Some(true); }
      var t := AsTree();
      var act := active;
      ghost var ok := true;
      while act != []
        invariant Ordered(act, |dims|) && Canon(t, act, dims, Leaf)
        invariant HasPoint(item) <==> Holds(t, act, item)
        decreases |act|
      {
        var k, found := FindLayer(t.layers, item[act[0]]);
        StepInto(t, act, dims, item, k, found);
        if !found { return Some(false); }
        t, act := t.layers[k], act[1..];
      }
      return Some(true);
    }

    // ----- cubes -----

    /** create_from_cube */
    constructor FromCube(dims: seq<Dimension>, cube: Cube, cubeDims: seq<nat>)
      requires dims != [] && NonEmptyDomains(dims) && CubeIn(cube, cubeDims, dims)
      ensures this.dims == dims && Valid() && (NonEmpty() <==> [] !in cube) && (!NonEmpty() ==> AllActive())
      ensures forall p :: InSpace(dims, p) ==> (HasPoint(p) <==> InCube(cube, cubeDims, p))
    {
      this.dims := dims;
      layers := map[];
      active := [];
      new;
      var resCube, resDims, isEmpty := ReduceCube(cube, cubeDims, dims);
      if isEmpty {
        Clear();
      } else if resCube == [] {
        SetAll();
      } else {
        layers := CubeTree(resCube).layers;
        active := resDims;
        CubeIsNormal(resCube, resDims, dims);
      }
    }

    /** add_cube. An empty list is ignored, although it would stand for the whole space. */
    method AddCube(cube: Cube, cubeDims: seq<nat>)
      requires Valid() && CubeIn(cube, cubeDims, dims)
      modifies this
      ensures Valid()
      ensures forall p :: InSpace(dims, p) ==>
                (HasPoint(p) <==> old(HasPoint(p)) || (cube != [] && InCube(cube, cubeDims, p)))
    {
      if cube == [] { return; }
      if [] in cube {
        return;
      }
      var cubeSet := new HyperCubeSet.FromCube(dims, cube, cubeDims);
      var res := new HyperCubeSet.Copy(this);
      res.IOr(cubeSet);
      OverrideByOther(res);
    }

    /** add_hole. It shares the missing guard of `-=`. */
    method AddHole(cube: Cube, cubeDims: seq<nat>)
      requires Valid() && CubeIn(cube, cubeDims, dims)
      modifies this
      ensures forall p :: InSpace(dims, p) ==>
                (HasPoint(p) <==> old(HasPoint(p)) && !(cube != [] && InCube(cube, cubeDims, p)))
      ensures Valid() <==> old(NonEmpty()) || cube == [] || [] in cube ||
                           forall p :: InSpace(dims, p) ==> CubeCompletes(cube, cubeDims, old(active)[0], p, dims)
      ensures old(!NonEmpty()) && old(active)[0] == 0 ==> Valid() && !NonEmpty() && active[0] == 0
    {
      if cube == [] { return; }
      if [] in cube {
        return;
      }
      var cubeSet := new HyperCubeSet.FromCube(dims, cube, cubeDims);
      var res := new HyperCubeSet.Copy(this);
      hide CompletesTo, CubeCompletes, InCube, Holds, Normal;
      res.ISub(cubeSet);
      OverrideByOther(res);
    }

    /** The dimensions of the cubes in the list: all of them for the entire space. */
    function CubeDimensions(): seq<nat>
      reads this
    { if active == [] then AllDimensions(|dims|) else active }

    /** The number of cubes. */
    ghost function CubeCount(): nat
      reads this
    { CountCubes(AsTree(), active) }

    /** The cubes of the set, as `for cube in self` visits them: a disjoint exact cover. */
    method Cubes() returns (res: seq<Cube>)
      requires Valid()
      ensures |res| == CubeCount()
      ensures Ordered(CubeDimensions(), |dims|)
      ensures forall i :: 0 <= i < |res| ==> GoodCube(res[i], CubeDimensions(), dims)
      ensures forall p :: InSpace(dims, p) ==>
                  (HasPoint(p) <==> exists i :: 0 <= i < |res| && InCube(res[i], CubeDimensions(), p))
      ensures forall i, j, p :: 0 <= i < j < |res| ==>
                  !(InCube(res[i], CubeDimensions(), p) && InCube(res[j], CubeDimensions(), p))
    {
      if IsAll() {
        res := [Domains(dims, CubeDimensions())];
        forall p | InSpace(dims, p) ensures exists i :: 0 <= i < |res| && InCube(res[i], CubeDimensions(), p) {
          assert InCube(res[0], CubeDimensions(), p);
        }
      } else {
        CanonDepth(AsTree(), active, dims, Leaf);
        res := CubesFromLayers(AsTree(), |active|);
        ListSize(res, Paths(AsTree(), |active|));
        CubesMean(AsTree(), active, dims, res);
      }
    }
  }

  ghost function CountCubes(t: Tree, act: seq<nat>): nat { if act == [] then 1 else |Paths(t, |act|)| }

  /** The arguments add_cube expects: one value set inside its domain for every listed dimension. */
  ghost predicate CubeIn(cube: Cube, cubeDims: seq<nat>, dims: seq<Dimension>) {
    |cube| == |cubeDims| && Ordered(cubeDims, |dims|) &&
    forall i :: 0 <= i < |cube| ==> Within(cube[i], Domain(dims, cubeDims[i]))
  }

  ghost predicate CubeCompletes(cube: Cube, cubeDims: seq<nat>, a: nat, p: Point, dims: seq<Dimension>) {
    exists q :: InSpace(dims, q) && AgreeBelow(p, q, a) && InCube(cube, cubeDims, q)
  }

  lemma CubeIsNormal(cube: Cube, act: seq<nat>, dims: seq<Dimension>)
    requires dims != [] && NonEmptyDomains(dims) && Ordered(act, |dims|) && cube != [] && GoodCube(cube, act, dims)
    requires forall i :: 0 <= i < |act| ==> cube[i] != Domain(dims, act[i])
    ensures CubeTree(cube).Node? && CubeTree(cube).layers != map[] && Normal(CubeTree(cube), act, dims)
    ensures forall p :: Holds(CubeTree(cube), act, p) <==> InCube(cube, act, p)
  {
    CubeTreeCanon(cube, act, dims);
    forall p ensures Holds(CubeTree(cube), act, p) <==> InCube(cube, act, p) { CubeTreeHolds(cube, act, p); }
    forall i: nat | i < |act| ensures !FullAt(CubeTree(cube), act, i, dims) { CubeTreeReduced(cube, act, i, dims); }
  }

  lemma CubesMean(t: Tree, act: seq<nat>, dims: seq<Dimension>, res: seq<Cube>)
    requires Canon(t, act, dims, Leaf) && Lists(res, Paths(t, |act|))
    ensures forall i :: 0 <= i < |res| ==> GoodCube(res[i], act, dims)
    ensures forall p :: InSpace(dims, p) ==>
                (Holds(t, act, p) <==> exists i :: 0 <= i < |res| && InCube(res[i], act, p))
    ensures forall i, j, p :: 0 <= i < j < |res| ==> !(InCube(res[i], act, p) && InCube(res[j], act, p))
  {
    hide Canon, Holds, Has, Canonical, InCube, Paths, GoodCube, InSpace;
    forall i | 0 <= i < |res| ensures GoodCube(res[i], act, dims) {
      assert res[i] in res;
      PathsWithin(t, act, dims, Leaf, res[i]);
    }
    forall p | InSpace(dims, p)
      ensures Holds(t, act, p) <==> exists i :: 0 <= i < |res| && InCube(res[i], act, p)
    {
      PathsCover(t, act, p);
      if Holds(t, act, p) {
        var c :| c in Paths(t, |act|) && InCube(c, act, p);
        assert c in res;
      }
      if exists i :: 0 <= i < |res| && InCube(res[i], act, p) {
        var i :| 0 <= i < |res| && InCube(res[i], act, p);
        assert res[i] in res;
      }
    }
    forall i, j, p | 0 <= i < j < |res| ensures !(InCube(res[i], act, p) && InCube(res[j], act, p)) {
      if InCube(res[i], act, p) && InCube(res[j], act, p) {
        assert res[i] in res && res[j] in res;
        PathsApart(t, act, dims, Leaf, p, res[i], res[j]);
      }
    }
  }

  /** sub_aux after aligning the dimensions. From an empty set it leaves a stump over `pre`. */
  method SubtractTree(t0: Tree, a0: seq<nat>, u0: Tree, b0: seq<nat>, dims: seq<Dimension>)
    returns (r: Tree, act: seq<nat>, ghost pre: seq<nat>)
    requires Normal(t0, a0, dims) && Normal(u0, b0, dims) && Live(u0, b0) && (a0 != [] || b0 != [])
    ensures act != [] && Ordered(act, |dims|) && pre <= act && Canon(r, pre, dims, Below(pre, act)) && r.Node?
    ensures Merge(act, a0, b0)
    ensures Live(t0, a0) ==> pre == act && Combined(Sub, r, act, t0, a0, u0, b0, dims)
    ensures !Live(t0, a0) ==> a0 != [] && |pre| < |act| && Below(pre, act) == Node(map[])
    ensures !Live(t0, a0) && pre != [] ==> exists p :: InSpace(dims, p) && !Holds(r, pre, p)
    ensures !Live(t0, a0) ==>
              (r.layers == map[] <==> forall p :: InSpace(dims, p) ==> CompletesTo(u0, b0, a0[0], p, dims))
  {
    NormalParts(t0, a0, dims);
    NormalParts(u0, b0, dims);
    hide Canon, Holds, Normal, CompletesTo, InSpace, Before, Below, Same, OpMeaning, Ordered, NonEmptyDomains, Good;
    hide Combined;
    var t, u;
    t, u, act := PrepareCommon(t0, a0, u0, b0, dims);
    ActiveNonEmpty(act, a0, b0);
    pre := if Live(t0, a0) then act else Before(act, a0[0]);
    SubPrefix(act, pre, Live(t0, a0), a0, b0, |dims|);
    GoodParts(u, act, dims);
    r := CubeOps.SubAux(t, u, act, dims, pre);
    RootIsNode(r, pre, act, dims);
    if Live(t0, a0) {
      Subtracted(r, act, t, u, t0, a0, u0, b0, dims);
    } else {
      SubStump(r, t, u, act, a0[0], u0, b0, dims);
    }
  }

  lemma GoodParts(t: Tree, act: seq<nat>, dims: seq<Dimension>)
    requires Good(t, act, dims)
    ensures Ordered(act, |dims|) && NonEmptyDomains(dims) && Canon(t, act, dims, Leaf) && Live(t, act)
  {
  }

  lemma RootIsNode(r: Tree, pre: seq<nat>, act: seq<nat>, dims: seq<Dimension>)
    requires act != [] && Canon(r, pre, dims, Below(pre, act))
    ensures r.Node?
  {
  }

  lemma Subtracted(r: Tree, act: seq<nat>, t: Tree, u: Tree, t0: Tree, a0: seq<nat>, u0: Tree, b0: seq<nat>,
                   dims: seq<Dimension>)
    requires OpMeaning(Sub, r, t, u, act) && Same(t0, a0, t, act, dims) && Same(u0, b0, u, act, dims)
    ensures Combined(Sub, r, act, t0, a0, u0, b0, dims)
  {
    hide Holds, InSpace;
  }

  /** Inclusion of two sets that are neither empty nor everything. */
  method ContainedInTree(t: Tree, actT: seq<nat>, u: Tree, actU: seq<nat>, dims: seq<Dimension>) returns (b: bool)
    requires Normal(t, actT, dims) && Live(t, actT) && actT != []
    requires Normal(u, actU, dims) && Live(u, actU) && actU != []
    ensures b <==> Inside(t, actT, u, actU, dims)
  {
    NormalParts(t, actT, dims);
    NormalParts(u, actU, dims);
    MembersOf(actT, actU);
    forall d: nat | d in actT || d in actU ensures d < |dims| {}
    hide Normal, Canon, Holds, Good, Inside;
    var all := InOrder(Members(actT + actU), |dims|);
    b := ContainedInAux(t, actT, u, actU, all, dims);
  }

  lemma NormalParts(t: Tree, act: seq<nat>, dims: seq<Dimension>)
    requires Normal(t, act, dims)
    ensures Ordered(act, |dims|) && NonEmptyDomains(dims) && dims != [] && Canon(t, act, dims, Leaf)
    ensures Live(t, act) ==> Good(t, act, dims)
  {
  }

  /** The layer whose key holds a value. */
  method FindLayer(m: LayerMap, x: int) returns (k: IntervalSet, found: bool)
    ensures found ==> k in m && Has(k, x)
    ensures !found ==> !Covers(m, x)
  {
    k, found := [], false;
    var todo := m.Keys;
    hide Has, Canonical;
    while todo != {}
      invariant todo <= m.Keys && forall l :: l in m && l !in todo ==> !Has(l, x)
      decreases |todo|
    {
      k :| k in todo;
      found := Contains(x, k);
      if found { return; }
      todo := todo - {k};
    }
    found := false;
  }

  lemma StepInto(t: Tree, act: seq<nat>, dims: seq<Dimension>, item: Point, k: IntervalSet, found: bool)
    requires act != [] && Ordered(act, |dims|) && Canon(t, act, dims, Leaf) && |item| >= |dims| && t.Node?
    requires found ==> k in t.layers && Has(k, item[act[0]])
    requires !found ==> !Covers(t.layers, item[act[0]])
    ensures found ==> (Holds(t, act, item) <==> Holds(t.layers[k], act[1..], item))
    ensures found ==> Ordered(act[1..], |dims|) && Canon(t.layers[k], act[1..], dims, Leaf)
    ensures !found ==> !Holds(t, act, item)
  {
    OpenTree(t, act, dims, Leaf);
    if found {
      OpenLayer(t.layers, act, dims, Leaf, k);
      Pick(t.layers, act, k, item);
    } else {
      OutsideLayers(t.layers, act, item);
    }
  }

  lemma EmptyIffNoPoint(t: Tree, act: seq<nat>, dims: seq<Dimension>)
    requires Normal(t, act, dims)
    ensures !Live(t, act) <==> forall p :: InSpace(dims, p) ==> !Holds(t, act, p)
  {
    if Live(t, act) {
      var p := GoodWitness(t, act, dims);
    }
  }

  lemma EverythingIsAll(t: Tree, act: seq<nat>, dims: seq<Dimension>)
    requires Normal(t, act, dims) && Live(t, act) && forall p :: InSpace(dims, p) ==> Holds(t, act, p)
    ensures act == []
  {
    EqualIffSamePoints(t, act, Leaf, [], dims);
  }

  lemma FromFirst(act: seq<nat>, first: nat, n: nat)
    requires Ordered(act, n) && first in act
    ensures var pre := Before(act, first);
            && pre <= act && |pre| < |act| && Ordered(act[|pre|..], n) && Below(pre, act) == Node(map[])
            && forall d: nat :: d in act[|pre|..] <==> d in act && d >= first
  {
    var pre := Before(act, first);
    BeforeMember(act, first, n);
    hide Before;
    var rest := act[|pre|..];
    assert act == pre + rest;
    assert |pre| == |act| ==> pre == act;
    forall d: nat ensures d in rest <==> d in act && d >= first {
      assert d in act <==> d in pre || d in rest;
      assert d in pre <==> d in act && d < first;
    }
  }

  /** A stump without layers has nothing above it, if it allows some point. */
  lemma EmptyIsHead(t: Tree, pre: seq<nat>, dims: seq<Dimension>)
    requires NonEmptyDomains(dims) && Canon(t, pre, dims, Node(map[]))
    requires forall p :: InSpace(dims, p) ==> Holds(t, pre, p)
    ensures t.Node? && (t.layers == map[] ==> pre == [])
  {
    var p := SomePoint(dims);
    assert Holds(t, pre, p);
  }

  /** A reduced stump that allows everything is a node without layers. */
  lemma StumpVanishes(t: Tree, pre: seq<nat>, r: Tree, newPre: seq<nat>, dims: seq<Dimension>)
    requires Ordered(newPre, |dims|) && NonEmptyDomains(dims) && Canon(r, newPre, dims, Node(map[]))
    requires Same(t, pre, r, newPre, dims) && Reduced(r, newPre, dims)
    requires forall p :: InSpace(dims, p) ==> Holds(t, pre, p)
    ensures newPre == [] && r == Node(map[])
  {
    if newPre != [] {
      forall p, y | InSpace(dims, p) && Has(Domain(dims, newPre[0]), y)
        ensures SameAfterMove(r, newPre, p, newPre[0], y)
      {
        MoveWithin(dims, p, newPre[0], y);
      }
      FreeIsFull(r, newPre, 0, dims, Node(map[]));
      assert false;
    }
  }

  /** The prefix that sub_aux is proved for. */
  lemma SubPrefix(act: seq<nat>, pre: seq<nat>, nonEmpty: bool, a: seq<nat>, b: seq<nat>, n: nat)
    requires CubeContain.Merge(act, a, b) && Ordered(act, n)
    requires nonEmpty ==> pre == act
    requires !nonEmpty ==> a != [] && pre == Before(act, a[0])
    ensures pre <= act && (nonEmpty ==> Below(pre, act) == Leaf)
    ensures !nonEmpty ==> a[0] in act && |pre| < |act| && Below(pre, act) == Node(map[])
  {
    if !nonEmpty {
      assert a[0] in a;
      BeforeMember(act, a[0], n);
      assert |pre| == |act| ==> pre == act;
    }
  }

  /** A stump that has layers is not in normal form even after its active dimensions are reduced. */
  lemma AfterStump(r: Tree, pre: seq<nat>, r': Tree, act': seq<nat>, newPre: seq<nat>, act: seq<nat>,
                   dims: seq<Dimension>)
    requires act != [] && Ordered(act, |dims|) && NonEmptyDomains(dims) && dims != []
    requires pre <= act && |pre| < |act| && Canon(r, pre, dims, Node(map[]))
    requires pre != [] ==> exists p :: InSpace(dims, p) && !Holds(r, pre, p)
    requires r.Node? && (r.layers == map[] ==> r' == r && act' == act)
    requires r.layers != map[] ==> newPre <= act' && newPre != act' && Ordered(act', |dims|)
    requires r.layers != map[] ==> Canon(r', newPre, dims, Node(map[])) && Same(r, pre, r', newPre, dims)
    ensures Normal(r', act', dims) <==> r.layers == map[]
    ensures forall p :: !Holds(r', act', p)
  {
    if r.layers == map[] {
      EmptyIsNormal(dims, act);
    } else {
      var p :| InSpace(dims, p) && !Holds(r, pre, p);
      assert !Holds(r', newPre, p);
      PrefixOrdered(pre, act, |dims|);
      SameIsLive(r, pre, Node(map[]), r', newPre, dims);
      StumpIsNotNormal(r', newPre, act', dims);
      forall p ensures !Holds(r', act', p) { StumpHoldsNothing(r', newPre, act', dims, p); }
    }
  }

  lemma EmptyHoldsNothing(t: Tree, act: seq<nat>)
    ensures act == [] ==> forall p :: Holds(t, act, p)
    ensures !Live(t, act) ==> forall p :: !Holds(t, act, p)
  {
  }

  lemma ActiveNonEmpty(act: seq<nat>, a: seq<nat>, b: seq<nat>)
    requires CubeContain.Merge(act, a, b) && (a != [] || b != [])
    ensures act != []
  {
    if a != [] { assert a[0] in a; } else { assert b[0] in b; }
  }

  lemma ReducedIsNormal(t: Tree, act: seq<nat>, dims: seq<Dimension>, pre: seq<nat>, r: Tree, act': seq<nat>,
                        newPre: seq<nat>)
    requires NonEmptyDomains(dims) && dims != [] && pre <= act && Ordered(act', |dims|)
    requires (act' == [] ==> r == Leaf && pre == act) && newPre <= act' && Below(newPre, act') == Below(pre, act)
    requires Canon(r, newPre, dims, Below(pre, act)) && forall i: nat :: i < |newPre| ==> !FullAt(r, newPre, i, dims)
    requires Ordered(pre, |dims|) && Canon(t, pre, dims, Below(pre, act)) && Live(t, pre)
    requires Same(t, pre, r, newPre, dims)
    ensures act' != [] ==> r.Node?
    ensures pre == act ==> newPre == act' && Normal(r, act', dims) && Live(r, act')
    ensures pre != act ==> newPre != act' && act' != [] && Below(pre, act) == Node(map[])
  {
    assert pre == act <==> Below(pre, act) == Leaf;
    assert newPre == act' <==> Below(newPre, act') == Leaf;
    if pre == act { SameIsLive(t, pre, Leaf, r, newPre, dims); }
  }

  /** The condition of `-=` can fail: over two dimensions with the values 0 and 1, an empty set whose only active
      dimension is the second one, minus the set where the first coordinate is 0. */
  lemma EmptyMinusExample()
    ensures var domain: IntervalSet := [Interval(0, 1)];
            var key: IntervalSet := [Interval(0, 0)];
            var dims := [Dimension("x", domain), Dimension("y", domain)];
            var other := Node(map[key := Leaf]);
            && Normal(Node(map[]), [1], dims) && !Live(Node(map[]), [1])
            && Normal(other, [0], dims) && Live(other, [0])
            && InSpace(dims, [1, 0]) && !CompletesTo(other, [0], 1, [1, 0], dims)
  {
    var domain: IntervalSet := [Interval(0, 1)];
    var key: IntervalSet := [Interval(0, 0)];
    var dims := [Dimension("x", domain), Dimension("y", domain)];
    assert domain[0].Contains(0) && domain[0].Contains(1) && key[0].Contains(0);
    EmptyIsNormal(dims, [1]);
    assert CubeTree([key][1..]) == Leaf && CubeTree([key]) == Node(map[key := Leaf]);
    CubeIsNormal([key], [0], dims);
    forall q | InSpace(dims, q) && AgreeBelow([1, 0], q, 1) ensures !Holds(CubeTree([key]), [0], q) {
      assert q[0] == [1, 0][0];
    }
  }
}
