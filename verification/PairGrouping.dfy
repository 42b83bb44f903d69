/** Cubes of a set of pairs, and the ways to group pairs of namespaces. A list of cubes puts each source, or each
    destination, into one cube; grouping the keys of a map by value keeps the relation it stands for. */
module PairGrouping {
  import opened Peers
  import opened FWRules

  /** One cube: every peer of `src` with every peer of `dst`. */
  datatype Cube = Cube(src: set<Peer>, dst: set<Peer>)
  {
    function Pairs(): set<Pair> { Product(src, dst) }

    function Swapped(): Cube { Cube(dst, src) }
  }

  /** The cubes are disjoint and cover the set. */
  ghost predicate CubeList(cubes: seq<Cube>, pairs: set<Pair>) {
    && (forall i :: 0 <= i < |cubes| ==> cubes[i].Pairs() <= pairs && cubes[i].src != {} && cubes[i].dst != {})
    && (forall p :: p in pairs ==> exists i :: 0 <= i < |cubes| && p in cubes[i].Pairs())
    && (forall i, j :: 0 <= i < j < |cubes| ==> cubes[i].Pairs() !! cubes[j].Pairs())
  }

  function Targets(pairs: set<Pair>, s: Peer): (r: set<Peer>)
    ensures forall d :: d in r <==> (s, d) in pairs
  {
    set p | p in pairs && p.0 == s :: p.1
  }

  function Sources(pairs: set<Pair>): (r: set<Peer>)
    ensures forall s :: s in r <==> exists d :: (s, d) in pairs
  {
    var r := set p | p in pairs :: p.0;
    assert forall p :: p in pairs ==> p == (p.0, p.1);
    r
  }

  function Swap(pairs: set<Pair>): (r: set<Pair>)
    ensures forall p :: p in r <==> (p.1, p.0) in pairs
  {
    var r := set p | p in pairs :: (p.1, p.0);
    assert forall p: Pair :: (p.1, p.0) in pairs ==> p == ((p.1, p.0).1, (p.1, p.0).0);
    r
  }

  function DimOf(c: Cube, isSrc: bool): set<Peer> { if isSrc then c.src else c.dst }

  function DimPeer(p: Pair, isSrc: bool): Peer { if isSrc then p.0 else p.1 }

  /** The peers paired with `other`, which is a destination if `isSrc`. */
  function Row(pairs: set<Pair>, other: Peer, isSrc: bool): set<Peer> {
    Targets(if isSrc then Swap(pairs) else pairs, other)
  }

  /** A cube list in which each peer of the other dimension is in one cube only, with its whole row. */
  ghost predicate Rows(cubes: seq<Cube>, pairs: set<Pair>, isSrc: bool) {
    && CubeList(cubes, pairs)
    && forall i, o :: 0 <= i < |cubes| && o in DimOf(cubes[i], !isSrc) ==>
           DimOf(cubes[i], isSrc) == Row(pairs, o, isSrc)
  }

  lemma RowsCover(cubes: seq<Cube>, pairs: set<Pair>, isSrc: bool)
    requires Rows(cubes, pairs, isSrc)
    ensures CubeList(cubes, pairs)
  {
  }

  ghost predicate SourceCubes(cubes: seq<Cube>, done: set<Peer>, pairs: set<Pair>) {
    && (forall i :: 0 <= i < |cubes| ==> cubes[i].src != {} && cubes[i].dst != {} && cubes[i].src <= done)
    && (forall i, s :: 0 <= i < |cubes| && s in cubes[i].src ==> Targets(pairs, s) == cubes[i].dst)
    && (forall s :: s in done ==> exists i :: 0 <= i < |cubes| && s in cubes[i].src)
    && (forall i, j :: 0 <= i < j < |cubes| ==> cubes[i].src !! cubes[j].src && cubes[i].dst != cubes[j].dst)
  }

  lemma SourceCubesMore(cubes: seq<Cube>, done: set<Peer>, pairs: set<Pair>, c: Cube)
    requires SourceCubes(cubes, done, pairs) && c.src != {} && c.dst != {} && c.src !! done
    requires forall s :: s in c.src ==> Targets(pairs, s) == c.dst
    requires forall s :: s in done ==> Targets(pairs, s) != c.dst
    ensures SourceCubes(cubes + [c], done + c.src, pairs)
  {
    var next := cubes + [c];
    hide Targets;
    forall s | s in done + c.src ensures exists i :: 0 <= i < |next| && s in next[i].src {
      SourceFound(cubes, done, c, s);
    }
    forall i | 0 <= i < |cubes| ensures cubes[i].src !! c.src && cubes[i].dst != c.dst {
      CubeDiffers(cubes, done, pairs, c, i);
    }
  }

  lemma SourceFound(cubes: seq<Cube>, done: set<Peer>, c: Cube, s: Peer)
    requires s in done ==> exists i :: 0 <= i < |cubes| && s in cubes[i].src
    requires s in done + c.src
    ensures exists i :: 0 <= i < |cubes + [c]| && s in (cubes + [c])[i].src
  {
    if s in c.src {
      assert s in (cubes + [c])[|cubes|].src;
    } else {
      var i :| 0 <= i < |cubes| && s in cubes[i].src;
      assert s in (cubes + [c])[i].src;
    }
  }

  lemma CubeDiffers(cubes: seq<Cube>, done: set<Peer>, pairs: set<Pair>, c: Cube, i: nat)
    requires SourceCubes(cubes, done, pairs) && i < |cubes| && c.src !! done
    requires forall s :: s in done ==> Targets(pairs, s) != c.dst
    ensures cubes[i].src !! c.src && cubes[i].dst != c.dst
  {
    hide Targets;
    assert cubes[i].src != {};
    var s :| s in cubes[i].src;
    assert Targets(pairs, s) == cubes[i].dst && s in done;
  }

  lemma CubesApart(a: Cube, b: Cube)
    requires a.src !! b.src
    ensures a.Pairs() !! b.Pairs()
  {
  }

  lemma SourceCubeWithin(c: Cube, pairs: set<Pair>)
    requires forall s :: s in c.src ==> Targets(pairs, s) == c.dst
    ensures c.Pairs() <= pairs
  {
    forall p | p in c.Pairs() ensures p in pairs {
      assert p.1 in Targets(pairs, p.0) && p == (p.0, p.1);
    }
  }

  lemma InSources(pairs: set<Pair>, p: Pair)
    requires p in pairs
    ensures p.0 in Sources(pairs) && p.1 in Targets(pairs, p.0)
  {
    assert p == (p.0, p.1);
  }

  lemma SourceCubesCover(cubes: seq<Cube>, pairs: set<Pair>)
    requires SourceCubes(cubes, Sources(pairs), pairs)
    ensures CubeList(cubes, pairs)
  {
    hide Targets, Sources, Cube.Pairs;
    forall i | 0 <= i < |cubes| ensures cubes[i].Pairs() <= pairs { SourceCubeWithin(cubes[i], pairs); }
    forall p | p in pairs ensures exists i :: 0 <= i < |cubes| && p in cubes[i].Pairs() {
      InSources(pairs, p);
      var i :| 0 <= i < |cubes| && p.0 in cubes[i].src;
      InPairs(cubes[i], p);
    }
    forall i, j | 0 <= i < j < |cubes| ensures cubes[i].Pairs() !! cubes[j].Pairs() {
      CubesApart(cubes[i], cubes[j]);
    }
  }

  /** The different rows of a set of pairs. */
  ghost function RowSets(pairs: set<Pair>): set<set<Peer>> { set s | s in Sources(pairs) :: Targets(pairs, s) }

  ghost function Dsts(cubes: seq<Cube>): set<set<Peer>> { set i | 0 <= i < |cubes| :: cubes[i].dst }

  lemma {:induction false} DistinctCount(cubes: seq<Cube>)
    requires forall i, j :: 0 <= i < j < |cubes| ==> cubes[i].dst != cubes[j].dst
    ensures |Dsts(cubes)| == |cubes|
    decreases |cubes|
  {
    if cubes != [] {
      var last := |cubes| - 1;
      DistinctCount(cubes[..last]);
      assert Dsts(cubes) == Dsts(cubes[..last]) + {cubes[last].dst};
    }
  }

  lemma RowOfCube(cubes: seq<Cube>, pairs: set<Pair>, i: nat)
    requires SourceCubes(cubes, Sources(pairs), pairs) && i < |cubes|
    ensures cubes[i].dst in RowSets(pairs)
  {
    hide Targets;
    assert cubes[i].src != {};
    var s :| s in cubes[i].src;
    assert s in Sources(pairs) && Targets(pairs, s) == cubes[i].dst;
  }

  lemma CubeOfRow(cubes: seq<Cube>, pairs: set<Pair>, row: set<Peer>)
    requires SourceCubes(cubes, Sources(pairs), pairs) && row in RowSets(pairs)
    ensures row in Dsts(cubes)
  {
    hide Targets, Sources;
    var s :| s in Sources(pairs) && Targets(pairs, s) == row;
    var i :| 0 <= i < |cubes| && s in cubes[i].src;
    assert cubes[i].dst == row;
  }

  lemma CubesDiffer(cubes: seq<Cube>, done: set<Peer>, pairs: set<Pair>)
    requires SourceCubes(cubes, done, pairs)
    ensures forall i, j :: 0 <= i < j < |cubes| ==> cubes[i].dst != cubes[j].dst
  {
    hide Targets;
  }

  lemma DstsAreRows(cubes: seq<Cube>, pairs: set<Pair>, row: set<Peer>)
    requires SourceCubes(cubes, Sources(pairs), pairs)
    ensures row in Dsts(cubes) <==> row in RowSets(pairs)
  {
    hide SourceCubes, RowSets;
    if row in Dsts(cubes) {
      var i :| 0 <= i < |cubes| && cubes[i].dst == row;
      RowOfCube(cubes, pairs, i);
    }
    if row in RowSets(pairs) { CubeOfRow(cubes, pairs, row); }
  }

  /** There are as many cubes as different rows. */
  lemma SourceCubesCount(cubes: seq<Cube>, pairs: set<Pair>)
    requires SourceCubes(cubes, Sources(pairs), pairs)
    ensures |cubes| == |RowSets(pairs)|
  {
    CubesDiffer(cubes, Sources(pairs), pairs);
    DistinctCount(cubes);
    hide *;
    assert Dsts(cubes) == RowSets(pairs) by {
      forall row { DstsAreRows(cubes, pairs, row); }
    }
  }

  lemma InPairs(c: Cube, p: Pair)
    ensures p in c.Pairs() <==> p.0 in c.src && p.1 in c.dst
  {
  }

  /** The cubes of a set in canonical form: sources with the same destinations are in one cube. */
  method CubesBySource(pairs: set<Pair>) returns (cubes: seq<Cube>)
    ensures SourceCubes(cubes, Sources(pairs), pairs) && Rows(cubes, pairs, false) && |cubes| == |RowSets(pairs)|
  {
    var todo := Sources(pairs);
    cubes := [];
    assert SourceCubes(cubes, Sources(pairs) - todo, pairs);
    while todo != {}
      invariant todo <= Sources(pairs)
      invariant SourceCubes(cubes, Sources(pairs) - todo, pairs)
      invariant forall a, b :: a in todo && b in Sources(pairs) - todo ==> Targets(pairs, a) != Targets(pairs, b)
      decreases todo
    {
      hide SourceCubes, CubeList;
      var s :| s in todo;
      var dst := Targets(pairs, s);
      var same := set x | x in todo && Targets(pairs, x) == dst;
      assert s in same && s in Sources(pairs);
      var d :| (s, d) in pairs;
      assert d in dst;
      SourceCubesMore(cubes, Sources(pairs) - todo, pairs, Cube(same, dst));
      assert Sources(pairs) - todo + same == Sources(pairs) - (todo - same);
      cubes := cubes + [Cube(same, dst)];
      todo := todo - same;
    }
    assert Sources(pairs) - todo == Sources(pairs);
    hide SourceCubes, CubeList;
    SourceCubesCover(cubes, pairs);
    SourceCubesCount(cubes, pairs);
  }

  lemma SwappedCover(cubes: seq<Cube>, pairs: set<Pair>, swapped: seq<Cube>)
    requires CubeList(cubes, Swap(pairs)) && |swapped| == |cubes|
    requires forall i :: 0 <= i < |cubes| ==> swapped[i] == cubes[i].Swapped()
    ensures CubeList(swapped, pairs)
  {
    forall i, p | 0 <= i < |swapped| && p in swapped[i].Pairs() ensures p in pairs {
      assert (p.1, p.0) in cubes[i].Pairs();
      assert p == (p.0, p.1);
    }
    forall p | p in pairs ensures exists i :: 0 <= i < |swapped| && p in swapped[i].Pairs() {
      assert p == (p.0, p.1) && (p.1, p.0) in Swap(pairs);
      var i :| 0 <= i < |cubes| && (p.1, p.0) in cubes[i].Pairs();
      assert p in swapped[i].Pairs();
    }
    forall i, j | 0 <= i < j < |swapped| ensures swapped[i].Pairs() !! swapped[j].Pairs() {
      forall p | p in swapped[i].Pairs() ensures p !in swapped[j].Pairs() {
        assert (p.1, p.0) in cubes[i].Pairs() && (p.1, p.0) !in cubes[j].Pairs();
      }
    }
  }

  lemma SwappedRows(cubes: seq<Cube>, pairs: set<Pair>, swapped: seq<Cube>)
    requires Rows(cubes, Swap(pairs), false) && |swapped| == |cubes|
    requires forall i :: 0 <= i < |cubes| ==> swapped[i] == cubes[i].Swapped()
    ensures Rows(swapped, pairs, true)
  {
    SwappedCover(cubes, pairs, swapped);
    hide CubeList, Targets, Swap;
    forall i, o | 0 <= i < |swapped| && o in DimOf(swapped[i], !true)
      ensures DimOf(swapped[i], true) == Row(pairs, o, true)
    {
      assert o in DimOf(cubes[i], !false);
      assert DimOf(cubes[i], false) == Row(Swap(pairs), o, false);
    }
  }

  /** The cubes after the source and destination dimensions changed places, read back as source and destination. */
  method CubesByTarget(pairs: set<Pair>) returns (cubes: seq<Cube>)
    ensures Rows(cubes, pairs, true) && |cubes| == |RowSets(Swap(pairs))|
  {
    var back := CubesBySource(Swap(pairs));
    hide CubeList, SourceCubes, Rows, RowSets;
    cubes := [];
    for i := 0 to |back|
      invariant |cubes| == i && forall j :: 0 <= j < i ==> cubes[j] == back[j].Swapped()
    {
      cubes := cubes + [back[i].Swapped()];
    }
    SwappedRows(back, pairs, cubes);
  }

  /** The cubes of the order of the dimensions with fewer cubes. */
  ghost predicate FewestCubes(cubes: seq<Cube>, pairs: set<Pair>) {
    if |RowSets(pairs)| <= |RowSets(Swap(pairs))| then Rows(cubes, pairs, false) && |cubes| == |RowSets(pairs)|
    else Rows(cubes, pairs, true) && |cubes| == |RowSets(Swap(pairs))|
  }

  /** minimize */
  method MinimizedCubes(pairs: set<Pair>) returns (cubes: seq<Cube>)
    ensures CubeList(cubes, pairs) && FewestCubes(cubes, pairs)
  {
    cubes := CubesBySource(pairs);
    var other := CubesByTarget(pairs);
    if |cubes| > |other| { cubes := other; }
  }

  lemma NoCubesFewest()
    ensures FewestCubes([], {})
  {
    assert RowSets({}) == {} && Swap({}) == {};
  }

  // ----- two ways to pair sets of namespaces -----

  /** `back` holds the same pairs as `m`, the other way round. */
  ghost predicate Inverse<A(!new), B(!new)>(m: map<A, set<B>>, back: map<B, set<A>>) {
    forall a, b :: b in Entry(m, a) <==> a in Entry(back, b)
  }

  lemma InverseMore<A(!new), B(!new)>(m: map<A, set<B>>, back: map<B, set<A>>, a: A, b: B)
    requires Inverse(m, back)
    ensures Inverse(m[a := Entry(m, a) + {b}], back[b := Entry(back, b) + {a}])
  {
    var m', back' := m[a := Entry(m, a) + {b}], back[b := Entry(back, b) + {a}];
    forall x, y ensures y in Entry(m', x) <==> x in Entry(back', y) {
      EntryUpdate(m, a, Entry(m, a) + {b}, x);
      EntryUpdate(back, b, Entry(back, b) + {a}, y);
      assert y in Entry(m, x) <==> x in Entry(back, y);
    }
  }

  /** The keys with the same value, under that value. */
  method KeysByValue<A(==), B>(m: map<A, set<B>>) returns (r: map<set<B>, set<A>>)
    ensures forall v, a :: a in Entry(r, v) <==> a in m && m[a] == v
    ensures forall v :: v in r ==> r[v] != {}
    ensures r.Keys == m.Values
  {
    var todo := m.Keys;
    r := map[];
    while todo != {}
      invariant todo <= m.Keys
      invariant forall v, a :: a in Entry(r, v) <==> (a in m && a !in todo && m[a] == v)
      invariant forall v :: v in r ==> r[v] != {}
      decreases todo
    {
      var a :| a in todo;
      todo := todo - {a};
      forall v { EntryUpdate(r, m[a], Entry(r, m[a]) + {a}, v); }
      r := r[m[a] := Entry(r, m[a]) + {a}];
    }
    forall v ensures v in r.Keys <==> v in m.Values {
      if v in m.Values {
        var a :| a in m && m[a] == v;
        assert a in Entry(r, v);
      }
      if v in r {
        var a :| a in r[v];
        assert a in Entry(r, v);
      }
    }
  }
}
