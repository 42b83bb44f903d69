/** From all connections to firewall rules and back. */
module MinimizeFWRules {
  import opened Peers
  import opened FWRules
  import opened LabelGrouping
  import opened PairGrouping
  import opened MinimizeCs
  import opened MinimizeCsFwRules

  datatype ConnCube = ConnCube(src: set<Peer>, dst: set<Peer>, conns: set<Conn>)

  predicate InConnCube(cube: ConnCube, c: Connection) { c.src in cube.src && c.dst in cube.dst && c.conn in cube.conns }

  ghost predicate InCubes(cubes: seq<ConnCube>, c: Connection) {
    exists i :: 0 <= i < |cubes| && InConnCube(cubes[i], c)
  }

  ghost predicate Covers(cubes: seq<ConnCube>, props: set<Connection>) {
    forall c :: c in props <==> InCubes(cubes, c)
  }

  /** The connections of a map from pairs of peers to their connections. */
  ghost predicate InPeersMap(m: map<set<Pair>, set<Conn>>, keys: set<set<Pair>>, c: Connection) {
    exists k :: k in keys && k in m && c.Ends() in k && c.conn in m[k]
  }

  /** The connections of a map from connections to pairs of peers. */
  ghost predicate InPropsMap(m: map<set<Conn>, set<Pair>>, c: Connection) {
    exists k :: k in m && c.conn in k && c.Ends() in m[k]
  }

  lemma InCubesMore(cubes: seq<ConnCube>, i: nat, c: Connection)
    requires i < |cubes|
    ensures InCubes(cubes[..i + 1], c) <==> InCubes(cubes[..i], c) || InConnCube(cubes[i], c)
  {
    hide InConnCube;
    var next := cubes[..i + 1];
    if InCubes(cubes[..i], c) {
      var j :| 0 <= j < i && InConnCube(cubes[..i][j], c);
      assert next[j] == cubes[..i][j];
    }
    if InConnCube(cubes[i], c) { assert InConnCube(next[i], c); }
    if InCubes(next, c) {
      var j :| 0 <= j < i + 1 && InConnCube(next[j], c);
      assert j < i ==> cubes[..i][j] == next[j];
    }
  }

  lemma InPeersMapKeys(m: map<set<Pair>, set<Conn>>, keys: set<set<Pair>>, k: set<Pair>, c: Connection)
    requires k in m
    ensures InPeersMap(m, keys + {k}, c) <==> InPeersMap(m, keys, c) || (c.Ends() in k && c.conn in m[k])
  {
  }

  function CubePairs(cube: ConnCube): set<Pair> { Product(cube.src, cube.dst) }

  /** Under each set of pairs of a cube, the connections of all the cubes with these pairs. */
  ghost predicate ByPeers(cubes: seq<ConnCube>, m: map<set<Pair>, set<Conn>>) {
    && (forall i :: 0 <= i < |cubes| ==> CubePairs(cubes[i]) in m)
    && (forall k :: k in m ==> exists i :: 0 <= i < |cubes| && CubePairs(cubes[i]) == k)
    && (forall k, x :: k in m ==>
                         (x in m[k] <==>
                          exists i :: 0 <= i < |cubes| && CubePairs(cubes[i]) == k && x in cubes[i].conns))
  }

  lemma ByPeersMore(cubes: seq<ConnCube>, i: nat, m: map<set<Pair>, set<Conn>>)
    requires i < |cubes| && ByPeers(cubes[..i], m)
    ensures var k := CubePairs(cubes[i]); ByPeers(cubes[..i + 1], m[k := Entry(m, k) + cubes[i].conns])
  {
    var next, k := cubes[..i + 1], CubePairs(cubes[i]);
    var m' := m[k := Entry(m, k) + cubes[i].conns];
    hide CubePairs;
    assert forall j :: 0 <= j < i ==> next[j] == cubes[..i][j];
    assert next[i] == cubes[i];
    forall q | q in m' ensures exists j :: 0 <= j < |next| && CubePairs(next[j]) == q {
      if q == k { assert CubePairs(next[i]) == q; } else {
        var j :| 0 <= j < i && CubePairs(cubes[..i][j]) == q;
        assert CubePairs(next[j]) == q;
      }
    }
    forall q, x | q in m'
      ensures x in m'[q] <==> exists j :: 0 <= j < |next| && CubePairs(next[j]) == q && x in next[j].conns
    {
      if q in m && x in m[q] {
        var j :| 0 <= j < i && CubePairs(cubes[..i][j]) == q && x in cubes[..i][j].conns;
        assert CubePairs(next[j]) == q && x in next[j].conns;
      } else if q == k && x in cubes[i].conns {
        assert CubePairs(next[i]) == q && x in next[i].conns;
      }
    }
  }

  /** All connectivity properties relating to the same pairs of peers. */
  method PeersToProps(cubes: seq<ConnCube>) returns (m: map<set<Pair>, set<Conn>>)
    ensures forall c :: InPeersMap(m, m.Keys, c) <==> InCubes(cubes, c)
    ensures ByPeers(cubes, m)
  {
    m := map[];
    for i := 0 to |cubes|
      invariant ByPeers(cubes[..i], m)
    {
      hide ByPeers;
      var peers := Product(cubes[i].src, cubes[i].dst);
      ByPeersMore(cubes, i, m);
      m := m[peers := Entry(m, peers) + cubes[i].conns];
    }
    assert cubes[..|cubes|] == cubes;
    forall c { ByPeersMeans(cubes, m, c); }
  }

  lemma ByPeersMeans(cubes: seq<ConnCube>, m: map<set<Pair>, set<Conn>>, c: Connection)
    requires ByPeers(cubes, m)
    ensures InPeersMap(m, m.Keys, c) <==> InCubes(cubes, c)
  {
    if InPeersMap(m, m.Keys, c) {
      var k :| k in m && c.Ends() in k && c.conn in m[k];
      var i :| 0 <= i < |cubes| && CubePairs(cubes[i]) == k && c.conn in cubes[i].conns;
      assert InConnCube(cubes[i], c);
    }
    if InCubes(cubes, c) {
      var i :| 0 <= i < |cubes| && InConnCube(cubes[i], c);
      assert CubePairs(cubes[i]) in m && c.Ends() in CubePairs(cubes[i]);
    }
  }

  /** Under each set of connections, the pairs of peers that have just these. */
  ghost predicate ByConns(peersToProps: map<set<Pair>, set<Conn>>, keys: set<set<Pair>>, m: map<set<Conn>, set<Pair>>)
    requires keys <= peersToProps.Keys
  {
    && (forall q :: q in keys ==> peersToProps[q] in m)
    && (forall k :: k in m ==> exists q :: q in keys && peersToProps[q] == k)
    && (forall k, p :: k in m ==> (p in m[k] <==> exists q :: q in keys && peersToProps[q] == k && p in q))
  }

  lemma ByConnsMore(peersToProps: map<set<Pair>, set<Conn>>, keys: set<set<Pair>>, m: map<set<Conn>, set<Pair>>,
                    q: set<Pair>)
    requires keys <= peersToProps.Keys && q in peersToProps && ByConns(peersToProps, keys, m)
    ensures var k := peersToProps[q]; ByConns(peersToProps, keys + {q}, m[k := Entry(m, k) + q])
  {
    var k := peersToProps[q];
    var m' := m[k := Entry(m, k) + q];
    forall j | j in m' ensures exists r :: r in keys + {q} && peersToProps[r] == j {
      if j != k {
        var r :| r in keys && peersToProps[r] == j;
        assert r in keys + {q};
      }
    }
    forall j, p | j in m' ensures p in m'[j] <==> exists r :: r in keys + {q} && peersToProps[r] == j && p in r {
      if j in m && p in m[j] {
        var r :| r in keys && peersToProps[r] == j && p in r;
        assert r in keys + {q};
      }
    }
  }

  /** All pairs of peers relating to the same connectivity properties. */
  method PropsToPeers(peersToProps: map<set<Pair>, set<Conn>>) returns (m: map<set<Conn>, set<Pair>>)
    ensures forall c :: InPropsMap(m, c) <==> InPeersMap(peersToProps, peersToProps.Keys, c)
    ensures ByConns(peersToProps, peersToProps.Keys, m)
  {
    m := map[];
    var todo := peersToProps.Keys;
    ghost var done: set<set<Pair>> := {};
    while todo != {}
      invariant done + todo == peersToProps.Keys && ByConns(peersToProps, done, m)
      decreases todo
    {
      hide ByConns;
      var peers :| peers in todo;
      OneMore(peersToProps.Keys, done, todo, peers);
      ByConnsMore(peersToProps, done, m, peers);
      todo := todo - {peers};
      var conns := peersToProps[peers];
      m := m[conns := Entry(m, conns) + peers];
      done := done + {peers};
    }
    assert done == peersToProps.Keys;
    forall c { ByConnsMeans(peersToProps, m, c); }
  }

  lemma ByConnsMeans(peersToProps: map<set<Pair>, set<Conn>>, m: map<set<Conn>, set<Pair>>, c: Connection)
    requires ByConns(peersToProps, peersToProps.Keys, m)
    ensures InPropsMap(m, c) <==> InPeersMap(peersToProps, peersToProps.Keys, c)
  {
    if InPropsMap(m, c) {
      var k :| k in m && c.conn in k && c.Ends() in m[k];
      var q :| q in peersToProps && peersToProps[q] == k && c.Ends() in q;
    }
    if InPeersMap(peersToProps, peersToProps.Keys, c) {
      var q :| q in peersToProps && c.Ends() in q && c.conn in peersToProps[q];
      assert c.Ends() in m[peersToProps[q]];
    }
  }

  /** The pairs of peers of the strictly larger properties. */
  ghost predicate Containing(m: map<set<Conn>, set<Pair>>, props: set<Conn>, p: Pair) {
    exists other :: other in m && other != props && props <= other && p in m[other]
  }

  ghost function AllContaining(m: map<set<Conn>, set<Pair>>, props: set<Conn>): (r: set<Pair>)
    ensures forall p :: p in r <==> Containing(m, props, p)
  {
    set other, p | other in m && other != props && props <= other && p in m[other] :: p
  }

  /** One entry of _build_props_containment_map. */
  method ContainingPairs(m: map<set<Conn>, set<Pair>>, props: set<Conn>) returns (pairs: set<Pair>)
    ensures forall p :: p in pairs <==> Containing(m, props, p)
    ensures pairs == AllContaining(m, props)
  {
    pairs := {};
    var todo := m.Keys;
    while todo != {}
      invariant todo <= m.Keys
      invariant forall p :: p in pairs <==>
                            exists other :: other in m.Keys - todo && other != props && props <= other && p in m[other]
      decreases todo
    {
      var other :| other in todo;
      todo := todo - {other};
      if other != props && props <= other { pairs := pairs + m[other]; }
    }
  }

  /** The rules of every set of connections. */
  type RuleMap = map<set<Conn>, seq<Rule>>

  ghost predicate RulesAllow(info: ClusterInfo, rules: RuleMap, c: Connection) {
    exists k :: k in rules && c.conn in k && Allows(info, rules[k], c.Ends())
  }

  /** What one entry of the rule map has to satisfy. */
  ghost predicate RulesOk(info: ClusterInfo, m: map<set<Conn>, set<Pair>>, props: set<Conn>, rules: seq<Rule>)
    requires props in m
  {
    && (forall p :: p in m[props] ==> Allows(info, rules, p))
    && (forall p :: Allows(info, rules, p) ==>
                      p in m[props] || Containing(m, props, p) || (p.0 == p.1 && IsClusterEP(p.0)))
  }

  /** The rules of an entry are compact with regard to its own pairs and those of larger sets of connections. */
  ghost predicate CompactFor(info: ClusterInfo, single: bool, m: map<set<Conn>, set<Pair>>, props: set<Conn>,
                             peerCount: nat, rules: seq<Rule>)
    requires props in m
  {
    Compact(info, single, m[props], Base(m[props], AllContaining(m, props), peerCount), rules)
  }

  /** All pairs of the pods of two namespaces have at least these connections, and one has just these. */
  ghost predicate BetweenNamespaces(info: ClusterInfo, m: map<set<Conn>, set<Pair>>, props: set<Conn>,
                                    n1: Namespace, n2: Namespace)
    requires props in m
  {
    && n1.Namespace? && n2.Namespace?
    && (forall a, b :: a in info.NsPods(n1) && b in info.NsPods(n2) ==>
                         (a, b) in m[props] || Containing(m, props, (a, b)))
    && (exists a, b :: a in info.NsPods(n1) && b in info.NsPods(n2) && (a, b) in m[props])
  }

  /** Such namespaces are said as a whole by some rule. */
  ghost predicate NamespacesSaid(info: ClusterInfo, m: map<set<Conn>, set<Pair>>, props: set<Conn>, rules: seq<Rule>)
    requires props in m
  {
    forall n1, n2 :: BetweenNamespaces(info, m, props, n1, n2) ==>
      exists r :: r in rules && r.src.NsElement? && r.dst.NsElement? && n1 in r.src.nsInfo && n2 in r.dst.nsInfo
  }

  lemma BetweenIsWhole(info: ClusterInfo, m: map<set<Conn>, set<Pair>>, props: set<Conn>, n1: Namespace, n2: Namespace,
                       base: set<Pair>)
    requires props in m && BetweenNamespaces(info, m, props, n1, n2)
    requires forall p :: p in m[props] || Containing(m, props, p) ==> p in base
    ensures WholePair(info, base, m[props], n1, n2)
  {
    hide Containing;
    var a, b :| a in info.NsPods(n1) && b in info.NsPods(n2) && (a, b) in m[props];
    assert (a, b) in NsProduct(info, n1, n2) * m[props];
    forall p | p in NsProduct(info, n1, n2) ensures p in base { assert p == (p.0, p.1); }
  }

  lemma BaseHolds(peerProps: set<Pair>, containing: set<Pair>, peerCount: nat)
    ensures peerProps + containing <= Base(peerProps, containing, peerCount)
  {
  }

  lemma CompactSaysNamespaces(info: ClusterInfo, single: bool, m: map<set<Conn>, set<Pair>>, props: set<Conn>,
                              peerCount: nat, rules: seq<Rule>)
    requires props in m && CompactFor(info, single, m, props, peerCount, rules)
    ensures NamespacesSaid(info, m, props, rules)
  {
    var base := Base(m[props], AllContaining(m, props), peerCount);
    BaseHolds(m[props], AllContaining(m, props), peerCount);
    assert forall p :: p in m[props] || Containing(m, props, p) ==> p in base;
    hide AllContaining, Containing, Base, BetweenNamespaces, WholePair, FirstWay, WholeNs, IsRest, RestSaid;
    forall n1, n2 | BetweenNamespaces(info, m, props, n1, n2) ensures BothNamespaces(rules, n1, n2) {
      BetweenIsWhole(info, m, props, n1, n2, base);
    }
  }

  /** The pair has at least these connections. */
  ghost predicate HasConns(m: map<set<Conn>, set<Pair>>, props: set<Conn>, a: Peer, b: Peer)
    requires props in m
  {
    (a, b) in m[props] || Containing(m, props, (a, b))
  }

  /** The rule allows the pair. */
  predicate RuleFor(info: ClusterInfo, r: Rule, a: Peer, b: Peer) {
    a in r.src.PeerSet(info) && b in r.dst.PeerSet(info)
  }

  /** A peer that has the connections with all pods of a namespace: they are said as a namespace. */
  ghost predicate DestinationsSaid(info: ClusterInfo, m: map<set<Conn>, set<Pair>>, props: set<Conn>, rules: seq<Rule>)
    requires props in m
  {
    forall a, b ::
      && (a, b) in m[props] && b.Pod?
      && (forall x :: x in info.NsPods(NamespaceOf(b)) ==> HasConns(m, props, a, x))
      ==> exists r :: r in rules && RuleFor(info, r, a, b) && r.dst.NsElement?
  }

  /** All pods of a namespace have the connections with a peer: they are said as a namespace, unless the peer is. */
  ghost predicate SourcesSaid(info: ClusterInfo, m: map<set<Conn>, set<Pair>>, props: set<Conn>, rules: seq<Rule>)
    requires props in m
  {
    forall a, b ::
      && (a, b) in m[props] && a.Pod?
      && (forall x :: x in info.NsPods(NamespaceOf(a)) ==> HasConns(m, props, x, b))
      ==> exists r :: r in rules && RuleFor(info, r, a, b) && (r.src.NsElement? || r.dst.NsElement?)
  }

  /** A DNS entry is said by itself, unless the sources are said as a namespace. */
  ghost predicate DnsSaid(info: ClusterInfo, m: map<set<Conn>, set<Pair>>, props: set<Conn>, rules: seq<Rule>)
    requires props in m
  {
    forall a, b :: (a, b) in m[props] && b.DNSEntry? ==>
                     exists r :: r in rules && RuleFor(info, r, a, b) && (r.dst == DNSElement(b) || r.src.NsElement?)
  }

  predicate FullBlock(e: Element) { e.IPBlockElement? && IsFullIpBlock(e.addresses) }

  /** The addresses on the given side that have the connections with a peer. */
  ghost predicate AddressesWith(m: map<set<Conn>, set<Pair>>, props: set<Conn>, other: Peer, isSrc: bool,
                                block: set<Peer>)
    requires props in m
  {
    forall x :: x in block <==>
                x.Address? && (if isSrc then HasConns(m, props, x, other) else HasConns(m, props, other, x))
  }

  /** Addresses that form a full IP block are said as such, unless the peer is said as a namespace. */
  ghost predicate BlocksSaid(info: ClusterInfo, m: map<set<Conn>, set<Pair>>, props: set<Conn>, rules: seq<Rule>)
    requires props in m
  {
    forall a, b, full ::
      (a, b) in m[props] && b.Address? && IsFullIpBlock(full) && AddressesWith(m, props, a, false, full)
      ==> exists r :: r in rules && RuleFor(info, r, a, b) && (FullBlock(r.dst) || r.src.NsElement?)
  }

  /** Likewise for sources, unless the destination is said as a namespace, a full IP block or a DNS entry. */
  ghost predicate SourceBlocksSaid(info: ClusterInfo, m: map<set<Conn>, set<Pair>>, props: set<Conn>, rules: seq<Rule>)
    requires props in m
  {
    forall a, b, full ::
      (a, b) in m[props] && a.Address? && IsFullIpBlock(full) && AddressesWith(m, props, b, true, full)
      ==> exists r :: && r in rules && RuleFor(info, r, a, b)
                      && (FullBlock(r.src) || r.dst.NsElement? || ExternalElement(r.dst))
  }

  /** Pairs of two whole namespaces are said by both. */
  lemma WholeSaid(info: ClusterInfo, single: bool, props: set<Pair>, base: set<Pair>, rules: seq<Rule>,
                  a: Peer, b: Peer)
    requires Compact(info, single, props, base, rules) && KnowsPairs(info, props)
    requires (a, b) in props && WholeNs(info, base, (a, b))
    ensures exists r :: r in rules && RuleFor(info, r, a, b) && r.src.NsElement? && r.dst.NsElement?
  {
    hide Compact;
    var p := (a, b);
    assert info.Knows(p.0) && info.Knows(p.1);
    assert p in NsProduct(info, NamespaceOf(a), NamespaceOf(b)) * props;
    assert WholePair(info, base, props, NamespaceOf(a), NamespaceOf(b));
    hide WholePair, WholeNs, KnowsPairs;
    WholeOfCompact(info, single, props, base, rules, a, b);
    var r :| r in rules && r.src.NsElement? && r.dst.NsElement? &&
             NamespaceOf(a) in r.src.nsInfo && NamespaceOf(b) in r.dst.nsInfo;
    assert RuleFor(info, r, a, b);
  }

  lemma WholeOfCompact(info: ClusterInfo, single: bool, props: set<Pair>, base: set<Pair>, rules: seq<Rule>,
                       a: Peer, b: Peer)
    requires Compact(info, single, props, base, rules)
    requires WholePair(info, base, props, NamespaceOf(a), NamespaceOf(b))
    ensures BothNamespaces(rules, NamespaceOf(a), NamespaceOf(b))
  {
    hide WholePair, BothNamespaces, FirstWay, WholeNs, IsRest, RestSaid;
  }

  lemma FirstWayOfCompact(info: ClusterInfo, single: bool, props: set<Pair>, base: set<Pair>, rules: seq<Rule>, p: Pair)
    requires Compact(info, single, props, base, rules) && p in props && !WholeNs(info, base, p)
    ensures FirstWay(info, base, rules, p)
  {
    hide WholePair, BothNamespaces, FirstWay, WholeNs, IsRest, RestSaid;
  }

  /** A namespace covered as a whole beside a peer. */
  lemma NamespaceBeside(info: ClusterInfo, base: set<Pair>, isSrc: bool, p: Pair)
    requires WellKeyed(info) && p in base && DimPeer(p, isSrc).Pod? && !WholeNs(info, base, p)
    requires DimPeer(p, isSrc) in info.NsPods(NamespaceOf(DimPeer(p, isSrc)))
    requires forall x :: x in info.NsPods(NamespaceOf(DimPeer(p, isSrc))) ==>
                           (if isSrc then (x, p.1) else (p.0, x)) in base
    ensures WithNamespace(info, NotWhole(info, base), if isSrc then SrcNamespaces(base) else SrcNamespaces(Swap(base)),
                          isSrc, p)
  {
    var n := NamespaceOf(DimPeer(p, isSrc));
    NamespacesSeen(base, p);
    forall x | x in info.NsPods(n) ensures x in Row(NotWhole(info, base), DimPeer(p, !isSrc), isSrc) {
      var q := if isSrc then (x, p.1) else (p.0, x);
      assert NamespaceOf(x) == n && NsKey(q) == NsKey(p);
      assert x.Pod? && q in NotWhole(info, base);
      InRow(NotWhole(info, base), q, isSrc);
    }
  }

  lemma DestinationSaid(info: ClusterInfo, single: bool, props: set<Pair>, base: set<Pair>, rules: seq<Rule>,
                        a: Peer, b: Peer)
    requires WellKeyed(info) && Compact(info, single, props, base, rules) && KnowsPairs(info, props) && props <= base
    requires (a, b) in props && b.Pod? && forall x :: x in info.NsPods(NamespaceOf(b)) ==> (a, x) in base
    ensures exists r :: r in rules && RuleFor(info, r, a, b) && r.dst.NsElement?
  {
    var p := (a, b);
    assert info.Knows(p.0) && info.Knows(p.1);
    if WholeNs(info, base, p) {
      WholeSaid(info, single, props, base, rules, a, b);
    } else {
      NamespaceBeside(info, base, false, p);
      FirstWayOfCompact(info, single, props, base, rules, p);
      NamespaceRuleFor(info, rules, false, p);
    }
  }

  lemma SourceSaid(info: ClusterInfo, single: bool, props: set<Pair>, base: set<Pair>, rules: seq<Rule>,
                   a: Peer, b: Peer)
    requires WellKeyed(info) && Compact(info, single, props, base, rules) && KnowsPairs(info, props) && props <= base
    requires (a, b) in props && a.Pod? && forall x :: x in info.NsPods(NamespaceOf(a)) ==> (x, b) in base
    ensures exists r :: r in rules && RuleFor(info, r, a, b) && (r.src.NsElement? || r.dst.NsElement?)
  {
    var p := (a, b);
    assert info.Knows(p.0) && info.Knows(p.1);
    if WholeNs(info, base, p) {
      WholeSaid(info, single, props, base, rules, a, b);
    } else {
      NamespaceBeside(info, base, true, p);
      FirstWayOfCompact(info, single, props, base, rules, p);
      var isSrc := !WithNamespace(info, NotWhole(info, base), SrcNamespaces(Swap(base)), false, p);
      NamespaceRuleFor(info, rules, isSrc, p);
    }
  }

  /** Self-connections are those of pods, so that beside an address just the connections themselves are covered. */
  lemma AddressBase(m: map<set<Conn>, set<Pair>>, props: set<Conn>, peerCount: nat, p: Pair)
    requires props in m && (p.0.Address? || p.1.Address?)
    ensures p in Base(m[props], AllContaining(m, props), peerCount) <==> HasConns(m, props, p.0, p.1)
  {
    assert p == (p.0, p.1);
  }

  /** A full block beside a peer is covered as one, and no way with namespaces comes before it. */
  lemma BlockIsExternal(info: ClusterInfo, base: set<Pair>, isSrc: bool, p: Pair, full: set<Peer>)
    requires WellKeyed(info) && p in base && DimPeer(p, isSrc).Address? && IsFullIpBlock(full)
    requires forall x :: x in full <==> x.Address? && (if isSrc then (x, p.1) else (p.0, x)) in base
    ensures WithExternal(NotWhole(info, base), isSrc, p)
  {
    var o := DimPeer(p, !isSrc);
    var row := Row(NotWhole(info, base), o, isSrc);
    forall x ensures x in Addresses(row) <==> x in full {
      if x.Address? {
        var q := if isSrc then (x, o) else (o, x);
        InRow(NotWhole(info, base), q, isSrc);
        assert !WholeNs(info, base, q);
      }
    }
    assert Addresses(row) == full;
  }

  lemma NoNamespaceOf(info: ClusterInfo, covered: set<Pair>, base: set<Pair>, isSrc: bool, p: Pair)
    requires WellKeyed(info) && !DimPeer(p, isSrc).Pod?
    ensures !WithNamespace(info, covered, SrcNamespaces(base), isSrc, p)
  {
    NamespacesOfPods(base);
    hide SrcNamespaces;
    forall n | n in SrcNamespaces(base) ensures DimPeer(p, isSrc) !in info.NsPods(n) {
      assert DimPeer(p, isSrc) in info.NsPods(n) ==> NamespaceOf(DimPeer(p, isSrc)) == n;
    }
  }

  lemma ExternalRuleIs(info: ClusterInfo, rules: seq<Rule>, isSrc: bool, p: Pair)
    requires ExternalRule(info, rules, isSrc, p)
    ensures exists r :: r in rules && RuleFor(info, r, p.0, p.1) && ExternalElement(RuleSide(r, isSrc)) &&
                        (DimPeer(p, isSrc).Address? ==> FullBlock(RuleSide(r, isSrc)))
  {
    var r :| && r in rules && p.0 in r.src.PeerSet(info) && p.1 in r.dst.PeerSet(info)
             && ExternalElement(RuleSide(r, isSrc));
    assert RuleFor(info, r, p.0, p.1);
  }

  lemma BlockSaid(info: ClusterInfo, single: bool, props: set<Pair>, base: set<Pair>, rules: seq<Rule>,
                  a: Peer, b: Peer, full: set<Peer>)
    requires WellKeyed(info) && Compact(info, single, props, base, rules) && props <= base
    requires (a, b) in props && b.Address? && IsFullIpBlock(full)
    requires forall x :: x in full <==> x.Address? && (a, x) in base
    ensures exists r :: r in rules && RuleFor(info, r, a, b) && (FullBlock(r.dst) || r.src.NsElement?)
  {
    var p := (a, b);
    BlockIsExternal(info, base, false, p, full);
    assert !WholeNs(info, base, p);
    hide Compact, WithNamespace, WithExternal, NotWhole, WholeNs, NamespaceRule, ExternalRule, IsFullIpBlock;
    FirstWayOfCompact(info, single, props, base, rules, p);
    NoNamespaceOf(info, NotWhole(info, base), Swap(base), false, p);
    if NamespaceRule(info, rules, true, p) {
      NamespaceRuleFor(info, rules, true, p);
    } else {
      ExternalRuleIs(info, rules, false, p);
    }
  }

  lemma SourceBlockSaid(info: ClusterInfo, single: bool, props: set<Pair>, base: set<Pair>, rules: seq<Rule>,
                        a: Peer, b: Peer, full: set<Peer>)
    requires WellKeyed(info) && Compact(info, single, props, base, rules) && props <= base
    requires (a, b) in props && a.Address? && IsFullIpBlock(full)
    requires forall x :: x in full <==> x.Address? && (x, b) in base
    ensures exists r :: && r in rules && RuleFor(info, r, a, b)
                        && (FullBlock(r.src) || r.dst.NsElement? || ExternalElement(r.dst))
  {
    var p := (a, b);
    BlockIsExternal(info, base, true, p, full);
    assert !WholeNs(info, base, p);
    hide Compact, WithNamespace, WithExternal, NotWhole, WholeNs, NamespaceRule, ExternalRule, IsFullIpBlock;
    FirstWayOfCompact(info, single, props, base, rules, p);
    NoNamespaceOf(info, NotWhole(info, base), base, true, p);
    if NamespaceRule(info, rules, false, p) {
      NamespaceRuleFor(info, rules, false, p);
    } else if ExternalRule(info, rules, false, p) {
      ExternalRuleIs(info, rules, false, p);
    } else {
      ExternalRuleIs(info, rules, true, p);
    }
  }

  lemma NoNamespaceOfDns(info: ClusterInfo, covered: set<Pair>, base: set<Pair>, p: Pair)
    requires WellKeyed(info) && p.1.DNSEntry?
    ensures !WithNamespace(info, covered, SrcNamespaces(Swap(base)), false, p) && WithExternal(covered, false, p)
  {
    NoNamespaceOf(info, covered, Swap(base), false, p);
  }

  lemma NamespaceRuleFor(info: ClusterInfo, rules: seq<Rule>, isSrc: bool, p: Pair)
    requires NamespaceRule(info, rules, isSrc, p)
    ensures exists r :: r in rules && RuleFor(info, r, p.0, p.1) && RuleSide(r, isSrc).NsElement?
  {
    var r :| r in rules && p.0 in r.src.PeerSet(info) && p.1 in r.dst.PeerSet(info) && RuleSide(r, isSrc).NsElement?;
    assert RuleFor(info, r, p.0, p.1);
  }

  lemma ExternalRuleFor(info: ClusterInfo, rules: seq<Rule>, p: Pair)
    requires ExternalRule(info, rules, false, p) && p.1.DNSEntry?
    ensures exists r :: r in rules && RuleFor(info, r, p.0, p.1) && r.dst == DNSElement(p.1)
  {
    var r :| && r in rules && p.0 in r.src.PeerSet(info) && p.1 in r.dst.PeerSet(info)
             && ExternalElement(RuleSide(r, false));
    if r.dst.IPBlockElement? { FullBlockIsAddresses(r.dst.addresses); }
    assert RuleFor(info, r, p.0, p.1);
  }

  lemma DnsElementSaid(info: ClusterInfo, single: bool, props: set<Pair>, base: set<Pair>, rules: seq<Rule>,
                       a: Peer, b: Peer)
    requires WellKeyed(info) && Compact(info, single, props, base, rules)
    requires (a, b) in props && b.DNSEntry?
    ensures exists r :: r in rules && RuleFor(info, r, a, b) && (r.dst == DNSElement(b) || r.src.NsElement?)
  {
    var p := (a, b);
    assert !WholeNs(info, base, p);
    hide Compact, WithNamespace, WithExternal, NotWhole, WholeNs, NamespaceRule, ExternalRule, WellKeyed;
    FirstWayOfCompact(info, single, props, base, rules, p);
    NoNamespaceOfDns(info, NotWhole(info, base), base, p);
    if NamespaceRule(info, rules, true, p) {
      NamespaceRuleFor(info, rules, true, p);
    } else {
      ExternalRuleFor(info, rules, p);
    }
  }

  /** The laws for one entry, from its compactness. */
  lemma CompactSaysDestinations(info: ClusterInfo, single: bool, m: map<set<Conn>, set<Pair>>, props: set<Conn>,
                                base: set<Pair>, rules: seq<Rule>)
    requires WellKeyed(info) && props in m && KnowsPairs(info, m[props]) && m[props] <= base
    requires Compact(info, single, m[props], base, rules) && forall a, b :: HasConns(m, props, a, b) ==> (a, b) in base
    ensures DestinationsSaid(info, m, props, rules)
  {
    hide Compact, WellKeyed, KnowsPairs, RuleFor, HasConns;
    forall a, b | && (a, b) in m[props] && b.Pod?
                  && (forall x :: x in info.NsPods(NamespaceOf(b)) ==> HasConns(m, props, a, x))
      ensures exists r :: r in rules && RuleFor(info, r, a, b) && r.dst.NsElement?
    {
      DestinationSaid(info, single, m[props], base, rules, a, b);
    }
  }

  lemma CompactSaysSources(info: ClusterInfo, single: bool, m: map<set<Conn>, set<Pair>>, props: set<Conn>,
                           base: set<Pair>, rules: seq<Rule>)
    requires WellKeyed(info) && props in m && KnowsPairs(info, m[props]) && m[props] <= base
    requires Compact(info, single, m[props], base, rules) && forall a, b :: HasConns(m, props, a, b) ==> (a, b) in base
    ensures SourcesSaid(info, m, props, rules)
  {
    hide Compact, WellKeyed, KnowsPairs, RuleFor, HasConns;
    forall a, b | && (a, b) in m[props] && a.Pod?
                  && (forall x :: x in info.NsPods(NamespaceOf(a)) ==> HasConns(m, props, x, b))
      ensures exists r :: r in rules && RuleFor(info, r, a, b) && (r.src.NsElement? || r.dst.NsElement?)
    {
      SourceSaid(info, single, m[props], base, rules, a, b);
    }
  }

  lemma CompactSaysDns(info: ClusterInfo, single: bool, m: map<set<Conn>, set<Pair>>, props: set<Conn>,
                       base: set<Pair>, rules: seq<Rule>)
    requires WellKeyed(info) && props in m && Compact(info, single, m[props], base, rules)
    ensures DnsSaid(info, m, props, rules)
  {
    hide Compact, WellKeyed, RuleFor;
    forall a, b | (a, b) in m[props] && b.DNSEntry?
      ensures exists r :: r in rules && RuleFor(info, r, a, b) && (r.dst == DNSElement(b) || r.src.NsElement?)
    {
      DnsElementSaid(info, single, m[props], base, rules, a, b);
    }
  }

  lemma CompactSaysBlocks(info: ClusterInfo, single: bool, m: map<set<Conn>, set<Pair>>, props: set<Conn>,
                          peerCount: nat, rules: seq<Rule>)
    requires WellKeyed(info) && props in m && CompactFor(info, single, m, props, peerCount, rules)
    ensures BlocksSaid(info, m, props, rules) && SourceBlocksSaid(info, m, props, rules)
  {
    var base := Base(m[props], AllContaining(m, props), peerCount);
    BaseHolds(m[props], AllContaining(m, props), peerCount);
    hide Compact, WellKeyed, RuleFor, HasConns, IsFullIpBlock, Base, AllContaining, Containing;
    forall a, b, full | && (a, b) in m[props] && b.Address? && IsFullIpBlock(full)
                        && AddressesWith(m, props, a, false, full)
      ensures exists r :: r in rules && RuleFor(info, r, a, b) && (FullBlock(r.dst) || r.src.NsElement?)
    {
      forall x: Peer | x.Address? ensures (a, x) in base <==> x in full { AddressBase(m, props, peerCount, (a, x)); }
      BlockSaid(info, single, m[props], base, rules, a, b, full);
    }
    forall a, b, full | && (a, b) in m[props] && a.Address? && IsFullIpBlock(full)
                        && AddressesWith(m, props, b, true, full)
      ensures exists r :: && r in rules && RuleFor(info, r, a, b)
                          && (FullBlock(r.src) || r.dst.NsElement? || ExternalElement(r.dst))
    {
      forall x: Peer | x.Address? ensures (x, b) in base <==> x in full { AddressBase(m, props, peerCount, (x, b)); }
      SourceBlockSaid(info, single, m[props], base, rules, a, b, full);
    }
  }

  lemma CompactSays(info: ClusterInfo, single: bool, m: map<set<Conn>, set<Pair>>, props: set<Conn>, peerCount: nat,
                    rules: seq<Rule>)
    requires WellKeyed(info) && props in m && KnowsPairs(info, m[props])
    requires CompactFor(info, single, m, props, peerCount, rules)
    ensures && DestinationsSaid(info, m, props, rules) && SourcesSaid(info, m, props, rules)
            && DnsSaid(info, m, props, rules) && BlocksSaid(info, m, props, rules)
            && SourceBlocksSaid(info, m, props, rules)
  {
    var base := Base(m[props], AllContaining(m, props), peerCount);
    BaseHolds(m[props], AllContaining(m, props), peerCount);
    hide Compact, WellKeyed, KnowsPairs, DestinationsSaid, SourcesSaid, DnsSaid, BlocksSaid, SourceBlocksSaid;
    CompactSaysBlocks(info, single, m, props, peerCount, rules);
    forall a, b | HasConns(m, props, a, b) ensures (a, b) in base {}
    CompactSaysDestinations(info, single, m, props, base, rules);
    CompactSaysSources(info, single, m, props, base, rules);
    CompactSaysDns(info, single, m, props, base, rules);
  }

  /** Namespaces, DNS entries and full IP blocks are said as such wherever the connections allow it. */
  ghost predicate SaidAsWhole(info: ClusterInfo, m: map<set<Conn>, set<Pair>>, props: set<Conn>, rules: seq<Rule>)
    requires props in m
  {
    && NamespacesSaid(info, m, props, rules) && DestinationsSaid(info, m, props, rules)
    && SourcesSaid(info, m, props, rules) && DnsSaid(info, m, props, rules)
    && BlocksSaid(info, m, props, rules) && SourceBlocksSaid(info, m, props, rules)
  }

  /** What Compute promises is what an entry has to satisfy. */
  lemma EntryOk(info: ClusterInfo, single: bool, m: map<set<Conn>, set<Pair>>, props: set<Conn>, peerCount: nat,
                rules: seq<Rule>)
    requires props in m && CompactFor(info, single, m, props, peerCount, rules)
    requires forall p :: p in m[props] ==> Allows(info, rules, p)
    requires forall p :: Allows(info, rules, p) ==> p in Allowed(m[props], AllContaining(m, props))
    requires WellKeyed(info) && KnowsPairs(info, m[props])
    ensures RulesOk(info, m, props, rules) && SaidAsWhole(info, m, props, rules)
  {
    hide Allows, CompactFor, RulesOk, WellKeyed, KnowsPairs, NamespacesSaid, DestinationsSaid, SourcesSaid, DnsSaid;
    hide BlocksSaid, SourceBlocksSaid, Containing, PeersIn, AllContaining, Allowed;
    CompactSaysNamespaces(info, single, m, props, peerCount, rules);
    CompactSays(info, single, m, props, peerCount, rules);
    AllowedIsOk(info, m, props, rules);
  }

  lemma AllowedIsOk(info: ClusterInfo, m: map<set<Conn>, set<Pair>>, props: set<Conn>, rules: seq<Rule>)
    requires props in m
    requires forall p :: p in m[props] ==> Allows(info, rules, p)
    requires forall p :: Allows(info, rules, p) ==> p in Allowed(m[props], AllContaining(m, props))
    ensures RulesOk(info, m, props, rules)
  {
    hide Allows, Containing, PeersIn;
  }

  ghost predicate KnowsMap(info: ClusterInfo, m: map<set<Conn>, set<Pair>>) {
    forall k :: k in m && k != {} ==> KnowsPairs(info, m[k])
  }

  lemma MapKnown(info: ClusterInfo, m: map<set<Conn>, set<Pair>>)
    requires forall c :: InPropsMap(m, c) ==> info.Knows(c.src) && info.Knows(c.dst)
    ensures KnowsMap(info, m)
  {
    forall k, p | k in m && k != {} && p in m[k] ensures info.Knows(p.0) && info.Knows(p.1) {
      var conn :| conn in k;
      var c := Connection(p.0, p.1, conn);
      assert c.Ends() == p && InPropsMap(m, c);
    }
  }

  /** minimize_firewall_rules. `count` is the number of peer objects in a set of pairs. */
  method MinimizeFirewallRules(info: ClusterInfo, single: bool, m: map<set<Conn>, set<Pair>>, count: set<Pair> -> nat)
    returns (rules: RuleMap)
    requires WellKeyed(info) && KnowsMap(info, m)
    ensures rules.Keys == m.Keys - {{}}
    ensures forall k :: k in rules ==> RulesOk(info, m, k, rules[k])
    ensures forall k :: k in rules ==> CompactFor(info, single, m, k, count(m[k]), rules[k])
    ensures forall k :: k in rules ==> SaidAsWhole(info, m, k, rules[k])
  {
    var minimizer := new MinimizeCsFwRules(info, single);
    rules := map[];
    var todo := m.Keys;
    while todo != {}
      invariant todo <= m.Keys && minimizer.info == info && minimizer.single == single && fresh(minimizer)
      invariant forall k :: k in rules <==> k in m && k !in todo && k != {}
      invariant forall k :: k in rules ==> EntryDone(info, single, m, k, count, rules[k])
      decreases todo
    {
      hide *;
      var props :| props in todo;
      todo := todo - {props};
      if props == {} { continue; }
      var containing := ContainingPairs(m, props);
      KnownEntry(info, m, props);
      var found := minimizer.Compute(m[props], containing, count(m[props]));
      EntryIsDone(info, single, m, props, count, found);
      rules := rules[props := found];
    }
    AllKeys(m, rules);
  }

  lemma AllKeys(m: map<set<Conn>, set<Pair>>, rules: RuleMap)
    requires forall k :: k in rules <==> k in m && k != {}
    ensures rules.Keys == m.Keys - {{}}
  {
  }

  ghost predicate EntryDone(info: ClusterInfo, single: bool, m: map<set<Conn>, set<Pair>>, props: set<Conn>,
                            count: set<Pair> -> nat, rules: seq<Rule>)
  {
    && props in m && RulesOk(info, m, props, rules)
    && CompactFor(info, single, m, props, count(m[props]), rules) && SaidAsWhole(info, m, props, rules)
  }

  lemma KnownEntry(info: ClusterInfo, m: map<set<Conn>, set<Pair>>, props: set<Conn>)
    requires KnowsMap(info, m) && props in m && props != {}
    ensures KnowsPairs(info, m[props] + AllContaining(m, props)) && KnowsPairs(info, m[props])
  {
  }

  lemma EntryIsDone(info: ClusterInfo, single: bool, m: map<set<Conn>, set<Pair>>, props: set<Conn>,
                    count: set<Pair> -> nat, rules: seq<Rule>)
    requires props in m
    requires Compact(info, single, m[props], Base(m[props], AllContaining(m, props), count(m[props])), rules)
    requires forall p :: p in m[props] ==> Allows(info, rules, p)
    requires forall p :: Allows(info, rules, p) ==> p in Allowed(m[props], AllContaining(m, props))
    requires WellKeyed(info) && KnowsPairs(info, m[props])
    ensures EntryDone(info, single, m, props, count, rules)
  {
    hide Compact, Allows, Allowed, RulesOk, SaidAsWhole, WellKeyed, KnowsPairs;
    EntryOk(info, single, m, props, count(m[props]), rules);
  }

  lemma RulesExact(info: ClusterInfo, m: map<set<Conn>, set<Pair>>, rules: RuleMap, c: Connection)
    requires rules.Keys == m.Keys - {{}} && forall k :: k in rules ==> RulesOk(info, m, k, rules[k])
    ensures InPropsMap(m, c) ==> RulesAllow(info, rules, c)
    ensures RulesAllow(info, rules, c) ==> InPropsMap(m, c) || (c.src == c.dst && IsClusterEP(c.src))
  {
    hide Allows;
    if InPropsMap(m, c) {
      var k :| k in m && c.conn in k && c.Ends() in m[k];
      assert k in rules && RulesOk(info, m, k, rules[k]);
    }
    if RulesAllow(info, rules, c) {
      var k :| k in rules && c.conn in k && Allows(info, rules[k], c.Ends());
      assert RulesOk(info, m, k, rules[k]);
      if Containing(m, k, c.Ends()) {
        var other :| other in m && other != k && k <= other && c.Ends() in m[other];
      }
    }
  }

  /** get_minimized_firewall_rules_from_props: the rules allow every given connection, and nothing else except
      connections of a pod to itself. For each set of connections they are compact. */
  method MinimizedFirewallRules(cubes: seq<ConnCube>, info: ClusterInfo, single: bool, count: set<Pair> -> nat)
    returns (rules: RuleMap, ghost byPeers: map<set<Pair>, set<Conn>>, ghost m: map<set<Conn>, set<Pair>>)
    requires WellKeyed(info) && forall c :: InCubes(cubes, c) ==> info.Knows(c.src) && info.Knows(c.dst)
    ensures forall c :: InCubes(cubes, c) ==> RulesAllow(info, rules, c)
    ensures forall c :: RulesAllow(info, rules, c) ==> InCubes(cubes, c) || (c.src == c.dst && IsClusterEP(c.src))
    ensures ByPeers(cubes, byPeers) && ByConns(byPeers, byPeers.Keys, m) && rules.Keys == m.Keys - {{}}
    ensures forall k :: k in rules ==> CompactFor(info, single, m, k, count(m[k]), rules[k])
    ensures forall k :: k in rules ==> SaidAsWhole(info, m, k, rules[k])
  {
    hide WellKeyed, InCubes, RulesAllow, InPeersMap, RulesOk, InPropsMap, ByPeers, ByConns, CompactFor, SaidAsWhole;
    var peersToProps := PeersToProps(cubes);
    var propsToPeers := PropsToPeers(peersToProps);
    MapKnown(info, propsToPeers);
    rules := MinimizeFirewallRules(info, single, propsToPeers, count);
    forall c { RulesExact(info, propsToPeers, rules, c); }
    byPeers, m := peersToProps, propsToPeers;
  }

  /** fw_rules_to_conn_props */
  method FwRulesToConnProps(info: ClusterInfo, rules: RuleMap) returns (res: set<Connection>)
    ensures forall c :: c in res <==> RulesAllow(info, rules, c)
  {
    res := {};
    var todo := rules.Keys;
    while todo != {}
      invariant todo <= rules.Keys
      invariant forall c :: c in res <==>
                            exists k :: k in rules.Keys - todo && c.conn in k && Allows(info, rules[k], c.Ends())
      decreases todo
    {
      hide Allows;
      var k :| k in todo;
      todo := todo - {k};
      var pairs := PairsOfRules(info, rules[k]);
      var more := ConnectionsOf(pairs, k);
      res := res + more;
    }
  }

  function ConnectionsOf(pairs: set<Pair>, conns: set<Conn>): (r: set<Connection>)
    ensures forall c :: c in r <==> c.Ends() in pairs && c.conn in conns
  {
    var r := set p, x | p in pairs && x in conns :: Connection(p.0, p.1, x);
    assert forall c: Connection :: c == Connection(c.Ends().0, c.Ends().1, c.conn);
    r
  }

  method PairsOfRules(info: ClusterInfo, rules: seq<Rule>) returns (pairs: set<Pair>)
    ensures forall p :: p in pairs <==> Allows(info, rules, p)
  {
    pairs := {};
    for i := 0 to |rules|
      invariant forall p :: p in pairs <==> Allows(info, rules[..i], p)
    {
      hide Allows;
      var more := Product(rules[i].src.PeerSet(info), rules[i].dst.PeerSet(info));
      assert rules[..i + 1] == rules[..i] + [rules[i]];
      forall p ensures p in pairs + more <==> Allows(info, rules[..i + 1], p) {
        AllowsConcat(info, rules[..i], [rules[i]], p);
        AllowsOne(info, rules[i], p);
      }
      pairs := pairs + more;
    }
    assert rules[..|rules|] == rules;
  }

  lemma AllowsOne(info: ClusterInfo, r: Rule, p: Pair)
    ensures Allows(info, [r], p) <==> p.0 in r.src.PeerSet(info) && p.1 in r.dst.PeerSet(info)
  {
    assert [r][0] == r;
  }

  // ----- the check of the debug mode -----

  datatype Verdict = Equivalent | OnlyAutoConns | Different

  /** A dimension is active when the set of connections depends on it; `peers` is the domain of both peer dimensions. */
  predicate SrcActive(props: set<Connection>, peers: set<Peer>) {
    exists c, p :: c in props && p in peers && c.(src := p) !in props
  }

  predicate DstActive(props: set<Connection>, peers: set<Peer>) {
    exists c, p :: c in props && p in peers && c.(dst := p) !in props
  }

  /** A set of self-connections depends on both ends as soon as there are two peers, but not with a single one. */
  lemma AutoIsActive(props: set<Connection>, peers: set<Peer>, a: Peer)
    requires props != {} && a in peers && forall c :: c in props ==> c.src == c.dst
    ensures peers != {a} ==> SrcActive(props, peers) && DstActive(props, peers)
    ensures peers == {a} && (forall c :: c in props ==> c.src in peers) ==> !SrcActive(props, peers)
  {
    var c :| c in props;
    if peers != {a} {
      var b :| b in peers && b != a;
      var p := if c.src == a then b else a;
      assert c.(src := p) !in props && c.(dst := p) !in props;
    }
  }

  /** are_auto_conns: both peer dimensions are active, and in every cube the source and the destination are the same
      single peer. */
  method AreAutoConns(cubes: seq<ConnCube>, srcActive: bool, dstActive: bool) returns (r: bool)
    requires forall i :: 0 <= i < |cubes| ==> cubes[i].src != {} && cubes[i].dst != {} && cubes[i].conns != {}
    ensures r <==> srcActive && dstActive && forall c :: InCubes(cubes, c) ==> c.src == c.dst
  {
    if !srcActive || !dstActive { return false; }
    for i := 0 to |cubes|
      invariant forall c :: InCubes(cubes[..i], c) ==> c.src == c.dst
    {
      if cubes[i].src != cubes[i].dst || |cubes[i].src| != 1 {
        var c := NotAuto(cubes[i]);
        assert InCubes(cubes, c);
        return false;
      }
      forall c | InCubes(cubes[..i + 1], c) ensures c.src == c.dst {
        InCubesMore(cubes, i, c);
        if InConnCube(cubes[i], c) { SingleValue(cubes[i].src, c.src, c.dst); }
      }
    }
    assert cubes[..|cubes|] == cubes;
    r := true;
  }

  lemma SingleValue(s: set<Peer>, a: Peer, b: Peer)
    requires |s| == 1 && a in s && b in s
    ensures a == b
  {
    assert |s - {a}| == 0;
    assert b !in s - {a};
  }

  /** A cube that is not a single peer with itself holds a connection between two different peers. */
  lemma NotAuto(cube: ConnCube) returns (c: Connection)
    requires cube.src != {} && cube.dst != {} && cube.conns != {}
    requires cube.src != cube.dst || |cube.src| != 1
    ensures InConnCube(cube, c) && c.src != c.dst
  {
    var x :| x in cube.conns;
    var a :| a in cube.src;
    if b :| b in cube.dst && b != a {
      c := Connection(a, b, x);
    } else {
      assert cube.dst == {a} && cube.src != {a};
      var b :| b in cube.src && b != a;
      c := Connection(b, a, x);
    }
  }

  /** Some cube list of a finite set; any other serves as well. */
  method CubesOfConns(props: set<Connection>) returns (cubes: seq<ConnCube>)
    ensures Covers(cubes, props)
    ensures forall i :: 0 <= i < |cubes| ==> cubes[i].src != {} && cubes[i].dst != {} && cubes[i].conns != {}
  {
    var todo := props;
    cubes := [];
    while todo != {}
      invariant todo <= props && Covers(cubes, props - todo)
      invariant forall i :: 0 <= i < |cubes| ==> cubes[i].src != {} && cubes[i].dst != {} && cubes[i].conns != {}
      decreases todo
    {
      var c :| c in todo;
      var next := cubes + [ConnCube({c.src}, {c.dst}, {c.conn})];
      forall d ensures InCubes(next, d) <==> d in props - (todo - {c}) {
        assert next[..|cubes|] == cubes && next[..|cubes| + 1] == next;
        InCubesMore(next, |cubes|, d);
      }
      cubes := next;
      todo := todo - {c};
    }
    assert props - todo == props;
  }

  ghost predicate OnlyAuto(props: set<Connection>) { forall c :: c in props ==> c.src == c.dst }

  /** compare_conn_props. With one peer in all, which could only be connected to itself, any difference counts. */
  method CompareConnProps(props1: set<Connection>, props2: set<Connection>, peers: set<Peer>) returns (v: Verdict)
    requires peers != {}
    ensures v == Equivalent <==> props1 == props2
    ensures |peers| > 1 ==> (v == Different <==> !OnlyAuto((props1 - props2) + (props2 - props1)))
    ensures |peers| == 1 && (forall c :: c in props1 + props2 ==> c.src in peers && c.dst in peers) ==>
              (v == Different <==> props1 != props2)
  {
    if props1 == props2 { return Equivalent; }
    var diff := (props1 - props2) + (props2 - props1);
    var cubes := CubesOfConns(diff);
    var auto := AreAutoConns(cubes, SrcActive(diff, peers), DstActive(diff, peers));
    v := if auto then OnlyAutoConns else Different;
    assert auto <==> SrcActive(diff, peers) && DstActive(diff, peers) && OnlyAuto(diff);
    assert diff != {};
    hide SrcActive, DstActive;
    DiffActive(diff, peers);
  }

  lemma DiffActive(props: set<Connection>, peers: set<Peer>)
    requires props != {} && peers != {}
    ensures |peers| > 1 && OnlyAuto(props) ==> SrcActive(props, peers) && DstActive(props, peers)
    ensures |peers| == 1 && (forall c :: c in props ==> c.src in peers && c.dst in peers) ==> !SrcActive(props, peers)
  {
    var a :| a in peers;
    if peers != {a} {
      assert |peers - {a}| > 0;
    }
    if OnlyAuto(props) {
      AutoIsActive(props, peers, a);
    } else if |peers| == 1 {
      assert peers == {a} by { if b :| b in peers && b != a { SingleValue(peers, a, b); } }
    }
  }

  /** compare_fw_rules_to_conn_props */
  method CompareFwRulesToConnProps(info: ClusterInfo, rules: RuleMap, props: set<Connection>, peers: set<Peer>)
    returns (v: Verdict)
    requires peers != {}
    ensures v == Equivalent <==> forall c :: c in props <==> RulesAllow(info, rules, c)
    ensures |peers| > 1 ==>
              (v == Different <==> exists c: Connection :: (c in props) != RulesAllow(info, rules, c) && c.src != c.dst)
  {
    hide RulesAllow;
    var props2 := FwRulesToConnProps(info, rules);
    v := CompareConnProps(props, props2, peers);
    var diff := (props - props2) + (props2 - props);
    assert forall c :: c in diff <==> (c in props) != RulesAllow(info, rules, c);
    assert props == props2 <==> forall c :: c in props <==> RulesAllow(info, rules, c);
  }

  /** The rules made from a set of connections always pass the check: they never differ in more than connections of
      a pod to itself. */
  method RulesPassCheck(props: set<Connection>, info: ClusterInfo, single: bool, count: set<Pair> -> nat,
                        peers: set<Peer>)
    returns (v: Verdict)
    requires WellKeyed(info) && forall c :: c in props ==> info.Knows(c.src) && info.Knows(c.dst)
    requires peers != {}
    ensures |peers| > 1 ==> v != Different
  {
    hide WellKeyed, InCubes, RulesAllow, ByPeers, ByConns, CompactFor, SaidAsWhole;
    var cubes := CubesOfConns(props);
    assert forall c :: InCubes(cubes, c) <==> c in props;
    var rules;
    ghost var byPeers, m;
    rules, byPeers, m := MinimizedFirewallRules(cubes, info, single, count);
    v := CompareFwRulesToConnProps(info, rules, props, peers);
  }
}
