/** Drawing the connectivity graph with fewer edges: joining opposite edges, and bicliques. */
module ConnectivityGraph {

  datatype Node = Node(name: string, ns: string)

  type Edge = (Node, Node)

  function Reverse(e: Edge): Edge { (e.1, e.0) }

  // ----- undirected edges -----

  /** Lexicographic order, as Python compares strings. */
  predicate StringLess(a: string, b: string) {
    if b == "" then false
    else if a == "" then true
    else a[0] < b[0] || (a[0] == b[0] && StringLess(a[1..], b[1..]))
  }

  predicate Less(a: Node, b: Node) {
    StringLess(a.name, b.name) || (a.name == b.name && StringLess(a.ns, b.ns))
  }

  lemma {:induction false} StringOrder(a: string, b: string)
    ensures a == b ==> !StringLess(a, b)
    ensures a != b ==> (StringLess(a, b) <==> !StringLess(b, a))
    decreases |a|
  {
    if a != "" && b != "" {
      StringOrder(a[1..], b[1..]);
      assert a == [a[0]] + a[1..] && b == [b[0]] + b[1..];
    }
  }

  lemma NodeOrder(a: Node, b: Node)
    ensures a == b ==> !Less(a, b)
    ensures a != b ==> (Less(a, b) <==> !Less(b, a))
  {
    StringOrder(a.name, b.name);
    StringOrder(a.ns, b.ns);
  }

  datatype Graph = Graph(undirected: set<Edge>, directed: set<Edge>)
  {
    /** The connections that the graph shows: an undirected edge is one in both directions. */
    predicate Shows(e: Edge) { e in directed || e in undirected || Reverse(e) in undirected }

    /** Undirected edges are kept once, the larger node first. */
    ghost predicate Oriented() { forall e :: e in undirected ==> Less(e.1, e.0) }

    /** Oriented, and every pair of opposite edges is joined. */
    ghost predicate Joined() {
      && Oriented()
      && (forall e :: e in directed ==> e.0 != e.1 && Reverse(e) !in directed)
      && (forall e :: e in directed ==> e !in undirected && Reverse(e) !in undirected)
    }
  }

  /** reformat_graph */
  function ReformatGraph(g: Graph, allowUndirected: bool): Graph {
    if allowUndirected then
      var undirected := (set e | e in g.directed && Reverse(e) in g.directed) + g.undirected;
      Graph((set e | e in undirected && Less(e.1, e.0)), g.directed - undirected)
    else
      Graph({}, g.directed + g.undirected + set e | e in g.undirected :: Reverse(e))
  }

  lemma ReverseTwice(e: Edge)
    ensures Reverse(Reverse(e)) == e
  {
  }

  /** Joining opposite edges loses the self-loops and nothing else. */
  lemma JoiningShows(g: Graph, e: Edge)
    requires g.Oriented()
    ensures ReformatGraph(g, true).Shows(e) <==> g.Shows(e) && e.0 != e.1
  {
    var both := (set x | x in g.directed && Reverse(x) in g.directed) + g.undirected;
    var h := ReformatGraph(g, true);
    forall x: Edge { NodeOrder(x.0, x.1); }
    ReverseTwice(e);
    assert e in both && e.0 != e.1 ==> e in h.undirected || Reverse(e) in h.undirected;
  }

  lemma JoiningJoins(g: Graph)
    requires g.Oriented() && forall e :: e in g.directed ==> Reverse(e) !in g.undirected
    ensures ReformatGraph(g, true).Joined()
  {
    var h := ReformatGraph(g, true);
    forall e | e in h.directed
      ensures e.0 != e.1 && Reverse(e) !in h.directed && e !in h.undirected && Reverse(e) !in h.undirected
    {
      ReverseTwice(e);
    }
  }

  /** To undirected edges and back to directed ones: the identity exactly when there are no self-loops. */
  lemma ThereAndBack(directed: set<Edge>)
    ensures var back := ReformatGraph(ReformatGraph(Graph({}, directed), true), false);
            && back.undirected == {}
            && back.directed == (set e | e in directed && e.0 != e.1)
            && (back == Graph({}, directed) <==> forall e :: e in directed ==> e.0 != e.1)
  {
    var g := Graph({}, directed);
    var h := ReformatGraph(g, true);
    var back := ReformatGraph(h, false);
    forall e ensures e in back.directed <==> e in directed && e.0 != e.1 {
      JoiningShows(g, e);
      ReverseTwice(e);
      assert h.Shows(e) <==> e in back.directed by { ShowsDirected(h, e); }
    }
  }

  lemma ShowsDirected(h: Graph, e: Edge)
    ensures e in ReformatGraph(h, false).directed <==> h.Shows(e)
  {
    if Reverse(e) in h.undirected { ReverseTwice(e); }
  }

  /** A joined graph comes back as it was from its directed form. */
  lemma JoinedComesBack(g: Graph)
    requires g.Joined()
    ensures ReformatGraph(ReformatGraph(g, false), true) == g
  {
    var d := ReformatGraph(g, false);
    var back := ReformatGraph(d, true);
    forall x: Edge { NodeOrder(x.0, x.1); }
    forall e ensures e in back.undirected <==> e in g.undirected {
      ShowsDirected(g, e);
      ShowsDirected(g, Reverse(e));
      ReverseTwice(e);
    }
    forall e ensures e in back.directed <==> e in g.directed {
      ShowsDirected(g, e);
      ShowsDirected(g, Reverse(e));
      ReverseTwice(e);
    }
  }

  // ----- bicliques -----

  datatype Biclique = Biclique(src: set<Node>, dst: set<Node>)
  {
    function Rank(): int { |src| * |dst| - |src| - |dst| }

    function Edges(): (r: set<Edge>)
      ensures forall e :: e in r <==> e.0 in src && e.1 in dst
    {
      set a, b | a in src && b in dst :: (a, b)
    }
  }

  function Targets(edges: set<Edge>, s: Node): (r: set<Node>)
    ensures forall d :: d in r <==> (s, d) in edges
  {
    set e | e in edges && e.0 == s :: e.1
  }

  function Sources(edges: set<Edge>): (r: set<Node>)
    ensures forall e :: e in edges ==> e.0 in r
    ensures forall s :: s in r ==> Targets(edges, s) != {}
  {
    var r := set e | e in edges :: e.0;
    assert forall e :: e in edges ==> e.1 in Targets(edges, e.0) by {
      assert forall e: Edge :: e == (e.0, e.1);
    }
    r
  }

  /** The biclique of all sources that have every destination of `s`. */
  function BicliqueOf(edges: set<Edge>, s: Node): Biclique {
    Biclique((set x | x in Sources(edges) && Targets(edges, x) >= Targets(edges, s)), Targets(edges, s))
  }

  lemma BicliqueWithin(edges: set<Edge>, s: Node)
    requires s in Sources(edges)
    ensures BicliqueOf(edges, s).Edges() <= edges
    ensures s in BicliqueOf(edges, s).src && BicliqueOf(edges, s).dst != {}
  {
    forall e | e in BicliqueOf(edges, s).Edges() ensures e in edges {
      assert e.1 in Targets(edges, e.0) && e == (e.0, e.1);
    }
  }

  /** Sources that all have every destination of the source `s`: together with these they are a biclique. */
  ghost predicate Shared(edges: set<Edge>, s: Node, src: set<Node>) {
    s in Sources(edges) && forall x, d :: x in src && (s, d) in edges ==> (x, d) in edges
  }

  /** The number of edges saved by drawing `rows` times `columns` edges through a new node. */
  function Saving(rows: nat, columns: nat): int { rows * columns - (rows + columns) }

  /** The biclique is in the graph, and none that shares the destinations of a source saves more edges. */
  ghost predicate SavesMost(edges: set<Edge>, b: Biclique) {
    && b.src != {} && b.dst != {} && (forall x, d :: x in b.src && d in b.dst ==> (x, d) in edges)
    && forall s, src :: Shared(edges, s, src) ==>
                          Saving(|src|, |Targets(edges, s)|) <= Saving(|b.src|, |b.dst|)
  }

  lemma SharedSaves(edges: set<Edge>, s: Node, src: set<Node>)
    requires Shared(edges, s, src)
    ensures Saving(|src|, |Targets(edges, s)|) <= BicliqueOf(edges, s).Rank()
  {
    var dst, all := Targets(edges, s), BicliqueOf(edges, s).src;
    forall x | x in src ensures x in all {
      var d :| d in dst;
      assert (x, d) in edges;
    }
    SubsetSize(src, all);
    MoreRows(|src|, |all|, |dst|);
  }

  lemma MoreRows(rows: nat, more: nat, columns: nat)
    requires rows <= more && columns >= 1
    ensures Saving(rows, columns) <= Saving(more, columns)
  {
    assert (more - rows) * (columns - 1) >= 0;
    assert (more - rows) * (columns - 1) == more * columns - rows * columns - more + rows;
  }

  lemma SubsetSize(a: set<Node>, b: set<Node>)
    requires a <= b
    ensures |a| <= |b|
  {
    assert b == a + (b - a);
  }

  /** Steps 1 to 3: of the bicliques that share the destinations of a source, one that saves the most edges. */
  method BestBiclique(edges: set<Edge>) returns (best: Biclique)
    requires edges != {}
    ensures SavesMost(edges, best) && best.Rank() == Saving(|best.src|, |best.dst|)
  {
    var e :| e in edges;
    var sources := Sources(edges);
    best := BicliqueOf(edges, e.0);
    var todo := sources;
    while todo != {}
      invariant todo <= sources && exists s :: s in sources && best == BicliqueOf(edges, s)
      invariant forall s :: s in sources - todo ==> BicliqueOf(edges, s).Rank() <= best.Rank()
      decreases todo
    {
      hide BicliqueOf, Sources, Biclique.Rank;
      var s :| s in todo;
      todo := todo - {s};
      var b := BicliqueOf(edges, s);
      if b.Rank() > best.Rank() { best := b; }
    }
    MaximalRank(edges, best);
  }

  lemma MaximalRank(edges: set<Edge>, best: Biclique)
    requires exists s :: s in Sources(edges) && best == BicliqueOf(edges, s)
    requires forall s :: s in Sources(edges) ==> BicliqueOf(edges, s).Rank() <= best.Rank()
    ensures SavesMost(edges, best) && best.Rank() == Saving(|best.src|, |best.dst|)
  {
    var t :| t in Sources(edges) && best == BicliqueOf(edges, t);
    BicliqueWithin(edges, t);
    forall x, d | x in best.src && d in best.dst ensures (x, d) in edges { assert (x, d) in best.Edges(); }
    hide BicliqueOf, Targets;
    forall s, src | Shared(edges, s, src)
      ensures Saving(|src|, |Targets(edges, s)|) <= Saving(|best.src|, |best.dst|)
    {
      SharedSaves(edges, s, src);
    }
  }

  lemma OneRowMore(rows: int, columns: int)
    ensures rows * columns == (rows - 1) * columns + columns
  {
  }

  lemma {:induction false} ProductSize(b: Biclique)
    ensures |b.Edges()| == |b.src| * |b.dst|
    decreases |b.src|
  {
    if b.src == {} {
      assert b.Edges() == {};
    } else {
      var s :| s in b.src;
      var less := Biclique(b.src - {s}, b.dst);
      ProductSize(less);
      RowSize(s, b.dst);
      var row := Biclique({s}, b.dst).Edges();
      assert b.Edges() == less.Edges() + row && less.Edges() !! row;
      OneRowMore(|b.src|, |b.dst|);
    }
  }

  lemma {:induction false} RowSize(s: Node, dst: set<Node>)
    ensures |Biclique({s}, dst).Edges()| == |dst|
    decreases |dst|
  {
    if dst == {} {
      assert Biclique({s}, dst).Edges() == {};
    } else {
      var d :| d in dst;
      RowSize(s, dst - {d});
      var less := Biclique({s}, dst - {d}).Edges();
      assert Biclique({s}, dst).Edges() == less + {(s, d)} && (s, d) !in less;
    }
  }

  /** The edges between the biclique and its new node. */
  function Spokes(b: Biclique, n: Node): (r: set<Edge>)
    ensures forall e :: e in r <==> (e.1 == n && e.0 in b.src) || (e.0 == n && e.1 in b.dst)
  {
    (set s | s in b.src :: (s, n)) + set d | d in b.dst :: (n, d)
  }

  lemma {:induction false} InSpokes(src: set<Node>, n: Node)
    ensures |set s | s in src :: (s, n)| == |src|
    decreases |src|
  {
    if src != {} {
      var x :| x in src;
      InSpokes(src - {x}, n);
      var all, less := set s | s in src :: (s, n), set s | s in src - {x} :: (s, n);
      assert all == less + {(x, n)} && (x, n) !in less;
    }
  }

  lemma {:induction false} OutSpokes(dst: set<Node>, n: Node)
    ensures |set d | d in dst :: (n, d)| == |dst|
    decreases |dst|
  {
    if dst != {} {
      var x :| x in dst;
      OutSpokes(dst - {x}, n);
      var all, less := set d | d in dst :: (n, d), set d | d in dst - {x} :: (n, d);
      assert all == less + {(n, x)} && (n, x) !in less;
    }
  }

  lemma SpokesSize(b: Biclique, n: Node)
    ensures |Spokes(b, n)| <= |b.src| + |b.dst|
  {
    InSpokes(b.src, n);
    OutSpokes(b.dst, n);
    var i, o := set s | s in b.src :: (s, n), set d | d in b.dst :: (n, d);
    assert |i + o| <= |i| + |o| by { assert |i + o| == |i| + |o| - |i * o|; }
  }

  // ----- fresh names -----

  function Digit(n: nat): char
    requires n < 10
  {
    "0123456789"[n]
  }

  /** str(n) */
  function Decimal(n: nat): string { if n < 10 then [Digit(n)] else Decimal(n / 10) + [Digit(n % 10)] }

  lemma DigitsDiffer(a: nat, b: nat)
    requires a < 10 && b < 10 && Digit(a) == Digit(b)
    ensures a == b
  {
    var digits := "0123456789";
    assert digits[0] == '0' && digits[1] == '1' && digits[2] == '2' && digits[3] == '3' && digits[4] == '4';
    assert digits[5] == '5' && digits[6] == '6' && digits[7] == '7' && digits[8] == '8' && digits[9] == '9';
  }

  lemma DecimalSize(n: nat)
    ensures |Decimal(n)| >= 1 && Decimal(n)[|Decimal(n)| - 1] == Digit(n % 10)
    ensures n >= 10 ==> |Decimal(n)| > 1 && Decimal(n)[..|Decimal(n)| - 1] == Decimal(n / 10)
  {
    if n >= 10 { DecimalSize(n / 10); }
  }

  lemma {:induction false} DecimalsDiffer(a: nat, b: nat)
    requires Decimal(a) == Decimal(b)
    ensures a == b
    decreases a
  {
    DecimalSize(a);
    DecimalSize(b);
    DigitsDiffer(a % 10, b % 10);
    if a >= 10 && b >= 10 { DecimalsDiffer(a / 10, b / 10); }
  }

  /** The name of the n-th biclique node. */
  function BicliqueNode(connStr: string, n: nat): Node { Node("biclique_" + connStr + Decimal(n), "") }

  lemma NamesDiffer(connStr: string, a: nat, b: nat)
    requires BicliqueNode(connStr, a) == BicliqueNode(connStr, b)
    ensures a == b
  {
    var p := "biclique_" + connStr;
    assert (p + Decimal(a))[|p|..] == Decimal(a) && (p + Decimal(b))[|p|..] == Decimal(b);
    DecimalsDiffer(a, b);
  }

  /** No node of the graph has the name of a biclique. */
  ghost predicate FreshNames(edges: set<Edge>, connStr: string) {
    forall e, n: nat :: e in edges ==> e.0 != BicliqueNode(connStr, n) && e.1 != BicliqueNode(connStr, n)
  }

  // ----- the greedy loop -----

  /** Two edges through a biclique node stand for an edge. */
  ghost predicate Through(edges: set<Edge>, nodes: seq<Node>, e: Edge) {
    exists k :: 0 <= k < |nodes| && (e.0, nodes[k]) in edges && (nodes[k], e.1) in edges
  }

  /** The nodes have the numbered names, and no later name is in use. */
  ghost predicate Numbered(connStr: string, spokes: set<Edge>, nodes: seq<Node>) {
    && (forall k :: 0 <= k < |nodes| ==> nodes[k] == BicliqueNode(connStr, k))
    && (forall e, n: nat :: e in spokes && n >= |nodes| ==>
                              e.0 != BicliqueNode(connStr, n) && e.1 != BicliqueNode(connStr, n))
  }

  /** The remaining edges and the bicliques stand for the original edges, with at least one edge less drawn for each
      biclique. */
  ghost predicate Drawn(original: set<Edge>, left: set<Edge>, spokes: set<Edge>, nodes: seq<Node>) {
    && left <= original
    && (forall e :: e in original <==> e in left || Through(spokes, nodes, e))
    && |left| + |spokes| + |nodes| <= |original|
  }

  lemma ThroughMore(original: set<Edge>, connStr: string, spokes: set<Edge>, nodes: seq<Node>, b: Biclique, e: Edge)
    requires Numbered(connStr, spokes, nodes) && FreshNames(original, connStr) && b.Edges() <= original
    requires b.src != {} && b.dst != {}
    ensures var n := BicliqueNode(connStr, |nodes|);
            Through(spokes + Spokes(b, n), nodes + [n], e) <==> Through(spokes, nodes, e) || e in b.Edges()
  {
    var n := BicliqueNode(connStr, |nodes|);
    var spokes', nodes' := spokes + Spokes(b, n), nodes + [n];
    BicliqueNodesFresh(original, connStr, b);
    forall k | 0 <= k < |nodes| ensures nodes[k] != n && nodes[k] !in b.src && nodes[k] !in b.dst {
      if nodes[k] == n { NamesDiffer(connStr, k, |nodes|); }
    }
    hide BicliqueNode, FreshNames, Biclique.Edges, Spokes;
    if Through(spokes, nodes, e) {
      var k :| 0 <= k < |nodes| && (e.0, nodes[k]) in spokes && (nodes[k], e.1) in spokes;
      assert nodes'[k] == nodes[k];
    }
    if e in b.Edges() {
      assert nodes'[|nodes|] == n && (e.0, n) in spokes' && (n, e.1) in spokes';
    }
    if Through(spokes', nodes', e) {
      var k :| 0 <= k < |nodes'| && (e.0, nodes'[k]) in spokes' && (nodes'[k], e.1) in spokes';
      if k < |nodes| { assert nodes'[k] == nodes[k]; }
    }
  }

  lemma BicliqueNodesFresh(original: set<Edge>, connStr: string, b: Biclique)
    requires FreshNames(original, connStr) && b.Edges() <= original && b.src != {} && b.dst != {}
    ensures forall n: nat :: BicliqueNode(connStr, n) !in b.src && BicliqueNode(connStr, n) !in b.dst
  {
    hide BicliqueNode;
    var s :| s in b.src;
    var d :| d in b.dst;
    assert forall x :: x in b.src ==> (x, d) in b.Edges();
    assert forall x :: x in b.dst ==> (s, x) in b.Edges();
  }

  /** The biclique takes away more edges than it adds. */
  lemma SizeStep(left: set<Edge>, spokes: set<Edge>, b: Biclique, n: Node)
    requires b.Edges() <= left && b.Rank() >= 1
    ensures |left - b.Edges()| + |spokes + Spokes(b, n)| + 1 <= |left| + |spokes|
    ensures |left - b.Edges()| < |left|
  {
    ProductSize(b);
    SpokesSize(b, n);
    SumSize(spokes, Spokes(b, n));
    RemovedSize(left, b.Edges());
  }

  lemma RemovedSize(left: set<Edge>, gone: set<Edge>)
    requires gone <= left
    ensures |left - gone| == |left| - |gone|
  {
    assert left == (left - gone) + gone;
  }

  lemma DrawnMore(original: set<Edge>, connStr: string, left: set<Edge>, spokes: set<Edge>, nodes: seq<Node>,
                  b: Biclique)
    requires Numbered(connStr, spokes, nodes) && FreshNames(original, connStr) && Drawn(original, left, spokes, nodes)
    requires b.Edges() <= left && b.src != {} && b.dst != {} && b.Rank() >= 1
    ensures var n := BicliqueNode(connStr, |nodes|);
            Drawn(original, left - b.Edges(), spokes + Spokes(b, n), nodes + [n])
    ensures |left - b.Edges()| < |left|
  {
    var n := BicliqueNode(connStr, |nodes|);
    forall e { ThroughMore(original, connStr, spokes, nodes, b, e); }
    SizeStep(left, spokes, b, n);
    hide BicliqueNode, FreshNames, Biclique.Edges, Spokes, Through, Biclique.Rank;
  }

  lemma SumSize(a: set<Edge>, b: set<Edge>)
    ensures |a + b| <= |a| + |b|
  {
    assert |a + b| == |a| + |b| - |a * b|;
  }

  lemma NumberedMore(original: set<Edge>, connStr: string, spokes: set<Edge>, nodes: seq<Node>, b: Biclique)
    requires Numbered(connStr, spokes, nodes) && FreshNames(original, connStr)
    requires b.Edges() <= original && b.src != {} && b.dst != {}
    ensures var n := BicliqueNode(connStr, |nodes|); Numbered(connStr, spokes + Spokes(b, n), nodes + [n])
  {
    var n := BicliqueNode(connStr, |nodes|);
    BicliqueNodesFresh(original, connStr, b);
    forall e, k: nat | e in spokes + Spokes(b, n) && k >= |nodes| + 1
      ensures e.0 != BicliqueNode(connStr, k) && e.1 != BicliqueNode(connStr, k)
    {
      if BicliqueNode(connStr, k) == n { NamesDiffer(connStr, k, |nodes|); }
    }
  }

  /** The edges left after taking away bicliques. */
  ghost function LeftAfter(edges: set<Edge>, taken: seq<Biclique>): set<Edge> {
    if taken == [] then edges
    else LeftAfter(edges, taken[..|taken| - 1]) - taken[|taken| - 1].Edges()
  }

  /** Each biclique taken saves the most edges at its time, at least one. */
  ghost predicate Greedy(edges: set<Edge>, taken: seq<Biclique>) {
    forall i :: 0 <= i < |taken| ==>
                  SavesMost(LeftAfter(edges, taken[..i]), taken[i]) && Saving(|taken[i].src|, |taken[i].dst|) >= 1
  }

  /** Each biclique is drawn through its node. */
  ghost predicate DrawnThrough(taken: seq<Biclique>, spokes: set<Edge>, nodes: seq<Node>) {
    |taken| == |nodes| &&
    forall e :: e in spokes <==> exists i :: 0 <= i < |taken| && e in Spokes(taken[i], nodes[i])
  }

  lemma LeftAfterMore(edges: set<Edge>, taken: seq<Biclique>, b: Biclique)
    ensures LeftAfter(edges, taken + [b]) == LeftAfter(edges, taken) - b.Edges()
  {
    hide Biclique.Edges;
    assert (taken + [b])[..|taken|] == taken;
  }

  lemma GreedyMore(edges: set<Edge>, taken: seq<Biclique>, b: Biclique)
    requires Greedy(edges, taken)
    requires SavesMost(LeftAfter(edges, taken), b) && Saving(|b.src|, |b.dst|) >= 1
    ensures Greedy(edges, taken + [b])
    ensures LeftAfter(edges, taken + [b]) == LeftAfter(edges, taken) - b.Edges()
  {
    hide SavesMost, Saving, LeftAfter, Biclique.Edges;
    LeftAfterMore(edges, taken, b);
    var taken' := taken + [b];
    assert taken'[..|taken|] == taken;
    forall i | 0 <= i < |taken'|
      ensures SavesMost(LeftAfter(edges, taken'[..i]), taken'[i]) && Saving(|taken'[i].src|, |taken'[i].dst|) >= 1
    {
      if i < |taken| { assert taken'[..i] == taken[..i] && taken'[i] == taken[i]; }
    }
  }

  lemma DrawnThroughMore(taken: seq<Biclique>, spokes: set<Edge>, nodes: seq<Node>, b: Biclique, n: Node)
    requires DrawnThrough(taken, spokes, nodes)
    ensures DrawnThrough(taken + [b], spokes + Spokes(b, n), nodes + [n])
  {
    var taken', nodes', spokes' := taken + [b], nodes + [n], spokes + Spokes(b, n);
    hide Spokes;
    forall e ensures e in spokes' <==> exists i :: 0 <= i < |taken'| && e in Spokes(taken'[i], nodes'[i]) {
      if e in spokes {
        var i :| 0 <= i < |taken| && e in Spokes(taken[i], nodes[i]);
        assert e in Spokes(taken'[i], nodes'[i]);
      }
      if e in Spokes(b, n) { assert e in Spokes(taken'[|taken|], nodes'[|taken|]); }
      if i :| 0 <= i < |taken'| && e in Spokes(taken'[i], nodes'[i]) {
        if i < |taken| { assert e in Spokes(taken[i], nodes[i]); }
      }
    }
  }

  /** _creates_bicliqued_graph: ends because every biclique takes edges away. Every step saves the most edges; in what
      is left, drawing any sources with the destinations they share through a node would save none. */
  method CreateBicliquedGraph(edges: set<Edge>, connStr: string)
    returns (left: set<Edge>, spokes: set<Edge>, nodes: seq<Node>, ghost taken: seq<Biclique>)
    requires FreshNames(edges, connStr)
    ensures Drawn(edges, left, spokes, nodes) && Numbered(connStr, spokes, nodes)
    ensures left == LeftAfter(edges, taken) && Greedy(edges, taken) && DrawnThrough(taken, spokes, nodes)
    ensures forall s, src :: Shared(left, s, src) ==> |src| * |Targets(left, s)| <= |src| + |Targets(left, s)|
  {
    left, spokes, nodes, taken := edges, {}, [], [];
    while left != {}
      invariant Drawn(edges, left, spokes, nodes) && Numbered(connStr, spokes, nodes)
      invariant left == LeftAfter(edges, taken) && Greedy(edges, taken) && DrawnThrough(taken, spokes, nodes)
      decreases |left|
    {
      hide Drawn, Numbered, FreshNames, BicliqueNode, Biclique.Rank, Greedy, DrawnThrough, Spokes, Shared, Targets;
      hide LeftAfter;
      var best := BestBiclique(left);
      if best.Rank() < 1 { return; }
      assert best.Edges() <= left;
      DrawnWithin(edges, left, spokes, nodes);
      DrawnMore(edges, connStr, left, spokes, nodes, best);
      NumberedMore(edges, connStr, spokes, nodes, best);
      var node := BicliqueNode(connStr, |nodes|);
      GreedyMore(edges, taken, best);
      DrawnThroughMore(taken, spokes, nodes, best, node);
      left, taken := left - best.Edges(), taken + [best];
      nodes := nodes + [node];
      spokes := spokes + Spokes(best, node);
    }
    assert Sources(left) == {};
  }

  lemma DrawnWithin(original: set<Edge>, left: set<Edge>, spokes: set<Edge>, nodes: seq<Node>)
    requires Drawn(original, left, spokes, nodes)
    ensures left <= original
  {
  }
}
