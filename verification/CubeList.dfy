/** The list of cubes of a set, and building a set from a cube. */
module CubeList {
  import opened Intervals
  import opened CubeTrees
  import opened NormalForm
  import opened CubeDims

  type Cube = seq<IntervalSet>

  /** One cube for every path from the root to the last active dimension. */
  ghost function Paths(t: Tree, n: nat): set<Cube>
    decreases n, 0
  {
    if n == 0 then {[]} else if t.Leaf? then {} else PathsBelow(t.layers, n - 1)
  }

  ghost function PathsBelow(m: LayerMap, n: nat): set<Cube>
    decreases n, 1
  {
    set k, rest | k in m && rest in Paths(m[k], n) :: [k] + rest
  }

  lemma PathParts(m: LayerMap, n: nat, c: Cube)
    ensures c in PathsBelow(m, n) <==> c != [] && c[0] in m && c[1..] in Paths(m[c[0]], n)
  {
    hide Paths, Canonical;
    if c in PathsBelow(m, n) {
      var k, rest :| k in m && rest in Paths(m[k], n) && c == [k] + rest;
      assert c[1..] == rest;
    }
    if c != [] && c[0] in m && c[1..] in Paths(m[c[0]], n) {
      assert c == [c[0]] + c[1..];
    }
  }

  lemma {:induction false} PathLength(t: Tree, n: nat, c: Cube)
    requires c in Paths(t, n)
    ensures |c| == n
    decreases n
  {
    if n > 0 {
      PathParts(t.layers, n - 1, c);
      PathLength(t.layers[c[0]], n - 1, c[1..]);
    }
  }

  lemma InCubeParts(c: Cube, act: seq<nat>, p: Point)
    requires c != [] && act != []
    ensures InCube(c, act, p) <==> act[0] < |p| && Has(c[0], p[act[0]]) && InCube(c[1..], act[1..], p)
  {
    hide Has, Canonical;
    if InCube(c, act, p) {
      forall i | 0 <= i < |act[1..]| ensures act[1..][i] < |p| && Has(c[1..][i], p[act[1..][i]]) {
        assert act[i + 1] < |p| && Has(c[i + 1], p[act[i + 1]]);
      }
    }
    if act[0] < |p| && Has(c[0], p[act[0]]) && InCube(c[1..], act[1..], p) {
      forall i | 0 <= i < |act| ensures act[i] < |p| && Has(c[i], p[act[i]]) {
        if i > 0 { assert act[1..][i - 1] < |p| && Has(c[1..][i - 1], p[act[1..][i - 1]]); }
      }
    }
  }

  /** The cubes cover exactly the points of the set. */
  lemma {:induction false} PathsCover(t: Tree, act: seq<nat>, p: Point)
    ensures Holds(t, act, p) <==> exists c :: c in Paths(t, |act|) && InCube(c, act, p)
    decreases |act|
  {
    if act == [] {
      assert [] in Paths(t, 0) && InCube([], act, p);
    } else if t.Node? {
      hide Has, Canonical;
      if Holds(t, act, p) {
        var k: IntervalSet :| k in t.layers && Has(k, p[act[0]]) && Holds(t.layers[k], act[1..], p);
        PathsCover(t.layers[k], act[1..], p);
        var rest :| rest in Paths(t.layers[k], |act| - 1) && InCube(rest, act[1..], p);
        var c := [k] + rest;
        assert c[0] == k && c[1..] == rest;
        PathParts(t.layers, |act| - 1, c);
        InCubeParts(c, act, p);
      }
      if exists c :: c in Paths(t, |act|) && InCube(c, act, p) {
        var c :| c in Paths(t, |act|) && InCube(c, act, p);
        PathParts(t.layers, |act| - 1, c);
        InCubeParts(c, act, p);
        PathsCover(t.layers[c[0]], act[1..], p);
      }
    }
  }

  /** No point lies in two cubes. */
  lemma {:induction false} PathsApart(t: Tree, act: seq<nat>, dims: seq<Dimension>, bot: Tree, p: Point, c: Cube,
                                      d: Cube)
    requires Canon(t, act, dims, bot)
    requires c in Paths(t, |act|) && d in Paths(t, |act|) && InCube(c, act, p) && InCube(d, act, p)
    ensures c == d
    decreases |act|
  {
    PathLength(t, |act|, c);
    PathLength(t, |act|, d);
    if act != [] {
      PathParts(t.layers, |act| - 1, c);
      PathParts(t.layers, |act| - 1, d);
      InCubeParts(c, act, p);
      InCubeParts(d, act, p);
      OpenTree(t, act, dims, bot);
      assert c[0] == d[0] by { assert c[0] != d[0] ==> Apart(c[0], d[0]); }
      PathsApart(t.layers[c[0]], act[1..], dims, bot, p, c[1..], d[1..]);
      assert c == [c[0]] + c[1..] && d == [d[0]] + d[1..];
    }
  }

  lemma {:induction false} PathsWithin(t: Tree, act: seq<nat>, dims: seq<Dimension>, bot: Tree, c: Cube)
    requires Canon(t, act, dims, bot) && c in Paths(t, |act|)
    ensures GoodCube(c, act, dims)
    decreases |act|
  {
    if act == [] {
      PathLength(t, |act|, c);
    } else {
      hide *;
      PathStart(t, |act|, c);
      OpenTree(t, act, dims, bot);
      KeyWithin(t.layers, act, dims, bot, c[0]);
      PathsWithin(t.layers[c[0]], act[1..], dims, bot, c[1..]);
      GoodCons(c, act, dims);
    }
  }

  lemma PathStart(t: Tree, n: nat, c: Cube)
    requires n > 0 && c in Paths(t, n)
    ensures t.Node? && c != [] && c[0] in t.layers && c[1..] in Paths(t.layers[c[0]], n - 1)
  {
    PathParts(t.layers, n - 1, c);
  }

  lemma KeyWithin(m: LayerMap, act: seq<nat>, dims: seq<Dimension>, bot: Tree, k: IntervalSet)
    requires act != [] && Layers(m, act, dims, bot) && k in m
    ensures k != [] && Within(k, Domain(dims, act[0])) && Canon(m[k], act[1..], dims, bot)
  {
  }

  lemma GoodCons(c: Cube, act: seq<nat>, dims: seq<Dimension>)
    requires act != [] && c != [] && GoodCube(c[1..], act[1..], dims) && c[0] != [] &&
             Within(c[0], Domain(dims, act[0]))
    ensures GoodCube(c, act, dims)
  {
    hide Has, Canonical, Within;
    forall i | 0 <= i < |act| ensures c[i] != [] && Within(c[i], Domain(dims, act[i])) {
      if i > 0 { assert c[1..][i - 1] == c[i] && act[1..][i - 1] == act[i]; }
    }
  }

  /** A cube with a non-empty value set inside its domain for every listed dimension. */
  ghost predicate GoodCube(c: Cube, act: seq<nat>, dims: seq<Dimension>) {
    |c| == |act| && forall i :: 0 <= i < |act| ==> c[i] != [] && Within(c[i], Domain(dims, act[i]))
  }

  ghost predicate NoDuplicates(s: seq<Cube>) {
    forall i, j :: 0 <= i < j < |s| ==> s[i] != s[j]
  }

  /** The list enumerates the set, each element once. */
  ghost predicate Lists(s: seq<Cube>, cubes: set<Cube>) {
    NoDuplicates(s) && forall c :: c in s <==> c in cubes
  }

  lemma {:induction false} ListSize(s: seq<Cube>, cubes: set<Cube>)
    requires Lists(s, cubes)
    ensures |s| == |cubes|
    decreases |s|
  {
    hide Canonical;
    if s == [] {
      assert cubes == {};
    } else {
      var last := s[|s| - 1];
      var rest := s[..|s| - 1];
      assert s == rest + [last];
      assert last !in rest;
      ListSize(rest, cubes - {last});
    }
  }

  /** `k` in front of every sub-cube. */
  method Prefixed(k: IntervalSet, sub: seq<Cube>) returns (r: seq<Cube>)
    ensures |r| == |sub| && forall i :: 0 <= i < |r| ==> r[i] == [k] + sub[i]
  {
    r := [];
    for i := 0 to |sub|
      invariant |r| == i && forall j :: 0 <= j < i ==> r[j] == [k] + sub[j]
    {
      r := r + [[k] + sub[i]];
    }
  }

  lemma PrefixedLists(k: IntervalSet, sub: seq<Cube>, row: seq<Cube>, cubes: set<Cube>)
    requires Lists(sub, cubes) && |row| == |sub| && forall i :: 0 <= i < |row| ==> row[i] == [k] + sub[i]
    ensures NoDuplicates(row) && forall c :: c in row <==> c != [] && c[0] == k && c[1..] in cubes
  {
    hide Canonical;
    forall i, j | 0 <= i < j < |row| ensures row[i] != row[j] {
      assert row[i][1..] == sub[i] && row[j][1..] == sub[j];
    }
    forall c
      ensures c in row <==> c != [] && c[0] == k && c[1..] in cubes
    {
      if c in row {
        var i :| 0 <= i < |row| && row[i] == c;
        assert c[1..] == sub[i] && sub[i] in sub;
      }
      if c != [] && c[0] == k && c[1..] in cubes {
        var i :| 0 <= i < |sub| && sub[i] == c[1..];
        assert c == [k] + c[1..] && row[i] == c;
      }
    }
  }

  lemma AppendRow(res: seq<Cube>, done: LayerMap, row: seq<Cube>, k: IntervalSet, s: Tree, n: nat)
    requires Lists(res, PathsBelow(done, n)) && k !in done
    requires NoDuplicates(row) && forall c :: c in row <==> c != [] && c[0] == k && c[1..] in Paths(s, n)
    ensures Lists(res + row, PathsBelow(done[k := s], n))
  {
    hide Canonical, Paths, PathsBelow;
    forall c
      ensures c in res + row <==> c in PathsBelow(done[k := s], n)
    {
      PathParts(done, n, c);
      PathParts(done[k := s], n, c);
    }
    forall i, j | 0 <= i < j < |res + row| ensures (res + row)[i] != (res + row)[j] {
      if i < |res| <= j {
        assert res[i] in res && row[j - |res|] in row;
        PathParts(done, n, res[i]);
      }
    }
  }

  /** _get_cubes_list_from_layers. */
  method CubesFromLayers(t: Tree, n: nat) returns (res: seq<Cube>)
    requires n > 0 && Depth(t, n)
    ensures Lists(res, Paths(t, n))
    decreases n
  {
    res := [];
    var todo := t.layers.Keys;
    ghost var done: LayerMap := map[];
    assert Lists(res, PathsBelow(done, n - 1));
    hide Canonical, Paths, PathsBelow, Lists, NoDuplicates;
    while todo != {}
      invariant Visited(done, t.layers, todo) && Lists(res, PathsBelow(done, n - 1))
      decreases |todo|
    {
      var k :| k in todo;
      VisitNext(done, t.layers, todo, k);
      var sub := [[]];
      if n > 1 { sub := CubesFromLayers(t.layers[k], n - 1); } else { NoPath(t.layers[k]); }
      var row := Prefixed(k, sub);
      PrefixedLists(k, sub, row, Paths(t.layers[k], n - 1));
      AppendRow(res, done, row, k, t.layers[k], n - 1);
      res := res + row;
      todo, done := todo - {k}, done[k := t.layers[k]];
    }
    VisitEnd(done, t.layers);
    PathsOf(t, n);
  }

  lemma NoPath(t: Tree)
    ensures Lists([[]], Paths(t, 0))
  {
  }

  lemma PathsOf(t: Tree, n: nat)
    requires n > 0 && t.Node?
    ensures Paths(t, n) == PathsBelow(t.layers, n - 1)
  {
  }

  ghost predicate Depth(t: Tree, n: nat)
    decreases n
  {
    n > 0 ==> t.Node? && (n > 1 ==> forall k :: k in t.layers ==> Depth(t.layers[k], n - 1))
  }

  lemma {:induction false} CanonDepth(t: Tree, act: seq<nat>, dims: seq<Dimension>, bot: Tree)
    requires Canon(t, act, dims, bot)
    ensures Depth(t, |act|)
    decreases |act|
  {
    if act != [] {
      OpenTree(t, act, dims, bot);
      forall k | k in t.layers ensures Depth(t.layers[k], |act| - 1) {
        assert Canon(t.layers[k], act[1..], dims, bot);
        CanonDepth(t.layers[k], act[1..], dims, bot);
      }
    }
  }

  // ----- a set from one cube -----

  lemma {:induction false} CubeTreeReduced(cube: Cube, act: seq<nat>, i: nat, dims: seq<Dimension>)
    requires |cube| == |act| && i < |act|
    ensures FullAt(CubeTree(cube), act, i, dims) <==> cube[i] == Domain(dims, act[i])
    decreases i
  {
    var t := CubeTree(cube);
    assert t.layers.Keys == {cube[0]} && t.layers[cube[0]] == CubeTree(cube[1..]);
    if i > 0 {
      assert cube[1..][i - 1] == cube[i] && act[1..][i - 1] == act[i];
      CubeTreeReduced(cube[1..], act[1..], i - 1, dims);
    }
  }

  /** _reduce_cube: drop the dimensions on which the cube is the whole domain. */
  method ReduceCube(cube: Cube, cubeDims: seq<nat>, dims: seq<Dimension>)
    returns (resCube: Cube, resDims: seq<nat>, isEmpty: bool)
    requires |cube| == |cubeDims| && Ordered(cubeDims, |dims|)
    requires forall i :: 0 <= i < |cube| ==> Within(cube[i], Domain(dims, cubeDims[i]))
    ensures isEmpty <==> [] in cube
    ensures !isEmpty ==> GoodCube(resCube, resDims, dims) && Ordered(resDims, |dims|)
    ensures !isEmpty ==> forall i :: 0 <= i < |resDims| ==> resCube[i] != Domain(dims, resDims[i])
    ensures !isEmpty ==> forall p :: InSpace(dims, p) ==> (InCube(resCube, resDims, p) <==> InCube(cube, cubeDims, p))
  {
    resCube, resDims, isEmpty := [], [], false;
    hide Has, Canonical, Within;
    for i := 0 to |cube|
      invariant [] !in cube[..i] && !isEmpty
      invariant GoodCube(resCube, resDims, dims) && Ordered(resDims, |dims|)
      invariant i < |cube| ==> forall j :: 0 <= j < |resDims| ==> resDims[j] < cubeDims[i]
      invariant forall j :: 0 <= j < |resDims| ==> resCube[j] != Domain(dims, resDims[j])
      invariant forall p :: InSpace(dims, p) ==> (InCube(resCube, resDims, p) <==> InCube(cube[..i], cubeDims[..i], p))
    {
      assert cube[..i + 1] == cube[..i] + [cube[i]];
      if cube[i] == [] { return [], [], true; }
      ReduceStep(cube, cubeDims, i, resCube, resDims, dims);
      if Domain(dims, cubeDims[i]) != cube[i] {
        resCube := resCube + [cube[i]];
        resDims := resDims + [cubeDims[i]];
      }
    }
    assert cube[..|cube|] == cube && cubeDims[..|cube|] == cubeDims;
  }

  lemma ReduceStep(cube: Cube, cubeDims: seq<nat>, i: nat, resCube: Cube, resDims: seq<nat>, dims: seq<Dimension>)
    requires |cube| == |cubeDims| && i < |cube| && Ordered(cubeDims, |dims|) && |resCube| == |resDims|
    requires forall p :: InSpace(dims, p) ==> (InCube(resCube, resDims, p) <==> InCube(cube[..i], cubeDims[..i], p))
    ensures var drop := Domain(dims, cubeDims[i]) == cube[i];
            forall p :: InSpace(dims, p) ==>
              (InCube(if drop then resCube else resCube + [cube[i]],
                      if drop then resDims else resDims + [cubeDims[i]], p)
               <==> InCube(cube[..i + 1], cubeDims[..i + 1], p))
  {
    hide Has, Canonical;
    assert cube[..i + 1] == cube[..i] + [cube[i]] && cubeDims[..i + 1] == cubeDims[..i] + [cubeDims[i]];
    forall p | InSpace(dims, p)
      ensures InCube(cube[..i] + [cube[i]], cubeDims[..i] + [cubeDims[i]], p) <==>
              InCube(cube[..i], cubeDims[..i], p) && Has(cube[i], p[cubeDims[i]])
      ensures InCube(resCube + [cube[i]], resDims + [cubeDims[i]], p) <==>
              InCube(resCube, resDims, p) && Has(cube[i], p[cubeDims[i]])
      ensures Domain(dims, cubeDims[i]) == cube[i] ==> Has(cube[i], p[cubeDims[i]])
    {
      InCubeSnoc(cube[..i], cubeDims[..i], cube[i], cubeDims[i], p);
      InCubeSnoc(resCube, resDims, cube[i], cubeDims[i], p);
    }
  }

  lemma InCubeSnoc(c: Cube, act: seq<nat>, k: IntervalSet, d: nat, p: Point)
    requires |c| == |act|
    ensures InCube(c + [k], act + [d], p) <==> InCube(c, act, p) && d < |p| && Has(k, p[d])
  {
    hide Has, Canonical;
    if InCube(c + [k], act + [d], p) {
      assert (c + [k])[|c|] == k && (act + [d])[|c|] == d;
      forall i | 0 <= i < |act| ensures act[i] < |p| && Has(c[i], p[act[i]]) {
        assert (c + [k])[i] == c[i] && (act + [d])[i] == act[i];
      }
    }
  }
}
