/** The class that minimizes the rules of one set of connections, stage by stage. */
module MinimizeCsFwRules {
  import opened Peers
  import opened FWRules
  import opened LabelGrouping
  import opened PairGrouping
  import opened MinimizeCs

  // ----- what the stages collect from the cubes -----

  /** The pair belongs to a peer that is covered together with all pods of some namespace of the set. */
  ghost predicate WithNamespace(info: ClusterInfo, covered: set<Pair>, nsSet: set<Namespace>, isSrc: bool, p: Pair) {
    exists n :: n in nsSet && DimPeer(p, isSrc) in info.NsPods(n) &&
      info.NsPods(n) <= Row(covered, DimPeer(p, !isSrc), isSrc)
  }

  /** The pair belongs to a peer that is covered together with a full IP block, or its peer is a DNS entry. */
  predicate WithExternal(covered: set<Pair>, isSrc: bool, p: Pair) {
    var dim, row := DimPeer(p, isSrc), Row(covered, DimPeer(p, !isSrc), isSrc);
    dim.DNSEntry? || (dim.Address? && IsFullIpBlock(Addresses(row)))
  }

  predicate External(k: set<Peer>, row: set<Peer>) {
    (k == Addresses(row) && IsFullIpBlock(k)) || exists d :: d in row && d.DNSEntry? && k == {d}
  }

  ghost predicate NsMapSound(info: ClusterInfo, covered: set<Pair>, nsSet: set<Namespace>,
                             m: map<set<Namespace>, set<Peer>>, isSrc: bool) {
    forall k, n, o :: k in m && n in k && o in m[k] ==>
                        n in nsSet && info.NsPods(n) <= Row(covered, o, isSrc) && info.Knows(o)
  }

  ghost predicate Filed(info: ClusterInfo, m: map<set<Namespace>, set<Peer>>, n: Namespace, o: Peer) {
    exists k :: k in m && n in k && o in m[k]
  }

  ghost predicate NsMapFull(info: ClusterInfo, covered: set<Pair>, withoutNs: set<Pair>, nsSet: set<Namespace>,
                            seen: set<Peer>, m: map<set<Namespace>, set<Peer>>, isSrc: bool) {
    forall p, n :: p in withoutNs && n in nsSet && DimPeer(p, !isSrc) in seen && DimPeer(p, isSrc) in info.NsPods(n) ==>
                     (info.NsPods(n) <= Row(covered, DimPeer(p, !isSrc), isSrc) ==>
                       Filed(info, m, n, DimPeer(p, !isSrc)))
  }

  /** The namespaces whose pods are all in `dim` and that help with a waiting pair of `other`. */
  predicate Helps(info: ClusterInfo, withoutNs: set<Pair>, dim: set<Peer>, other: set<Peer>, n: Namespace,
                  isSrc: bool) {
    info.NsPods(n) <= dim && Oriented(info.NsPods(n), other, isSrc) * withoutNs != {}
  }

  lemma FiledMore(info: ClusterInfo, m: map<set<Namespace>, set<Peer>>, k: set<Namespace>, other: set<Peer>,
                  n: Namespace, o: Peer)
    ensures Filed(info, m, n, o) || (n in k && o in other) ==> Filed(info, m[k := Entry(m, k) + other], n, o)
  {
    var m' := m[k := Entry(m, k) + other];
    if Filed(info, m, n, o) {
      var j :| j in m && n in j && o in m[j];
      assert j in m' && o in m'[j];
    } else if n in k && o in other {
      assert k in m' && o in m'[k];
    }
  }

  lemma HelpsPair(info: ClusterInfo, withoutNs: set<Pair>, dim: set<Peer>, other: set<Peer>, n: Namespace, isSrc: bool,
                  p: Pair)
    requires p in withoutNs && DimPeer(p, isSrc) in info.NsPods(n) && DimPeer(p, !isSrc) in other &&
             info.NsPods(n) <= dim
    ensures Helps(info, withoutNs, dim, other, n, isSrc)
  {
    assert p in Oriented(info.NsPods(n), other, isSrc) * withoutNs;
  }

  lemma NsMapFullMore(info: ClusterInfo, covered: set<Pair>, withoutNs: set<Pair>, nsSet: set<Namespace>,
                      seen: set<Peer>, m: map<set<Namespace>, set<Peer>>, isSrc: bool,
                      dim: set<Peer>, other: set<Peer>, found: set<Namespace>)
    requires NsMapFull(info, covered, withoutNs, nsSet, seen, m, isSrc)
    requires forall o :: o in other ==> Row(covered, o, isSrc) == dim
    requires forall n :: n in found <==> n in nsSet && Helps(info, withoutNs, dim, other, n, isSrc)
    ensures NsMapFull(info, covered, withoutNs, nsSet, seen + other,
                      if found != {} then m[found := Entry(m, found) + other] else m, isSrc)
  {
    var m' := if found != {} then m[found := Entry(m, found) + other] else m;
    hide Row, Helps, Filed, DimPeer;
    forall p, n | p in withoutNs && n in nsSet && DimPeer(p, !isSrc) in seen + other &&
                  DimPeer(p, isSrc) in info.NsPods(n) && info.NsPods(n) <= Row(covered, DimPeer(p, !isSrc), isSrc)
      ensures Filed(info, m', n, DimPeer(p, !isSrc))
    {
      FiledMore(info, m, found, other, n, DimPeer(p, !isSrc));
      if DimPeer(p, !isSrc) in other { HelpsPair(info, withoutNs, dim, other, n, isSrc, p); }
    }
  }

  lemma NsMapSoundMore(info: ClusterInfo, covered: set<Pair>, nsSet: set<Namespace>, m: map<set<Namespace>, set<Peer>>,
                       isSrc: bool, dim: set<Peer>, other: set<Peer>, found: set<Namespace>)
    requires NsMapSound(info, covered, nsSet, m, isSrc) && info.KnowsAll(other)
    requires forall o :: o in other ==> Row(covered, o, isSrc) == dim
    requires forall n :: n in found ==> n in nsSet && info.NsPods(n) <= dim
    ensures NsMapSound(info, covered, nsSet, m[found := Entry(m, found) + other], isSrc)
  {
    hide Row;
  }

  lemma CubeKnown(info: ClusterInfo, covered: set<Pair>, cubes: seq<Cube>, i: nat, isSrc: bool)
    requires CubeList(cubes, covered) && KnowsPairs(info, covered) && i < |cubes|
    ensures info.KnowsAll(DimOf(cubes[i], isSrc))
  {
    assert cubes[i].Pairs() <= covered;
    var s :| s in cubes[i].src;
    var d :| d in cubes[i].dst;
    forall p | p in cubes[i].src ensures info.Knows(p) { assert (p, d) in cubes[i].Pairs(); }
    forall p | p in cubes[i].dst ensures info.Knows(p) { assert (s, p) in cubes[i].Pairs(); }
  }

  /** The other peers of the first cubes. */
  function Seen(cubes: seq<Cube>, isSrc: bool): set<Peer> {
    if cubes == [] then {} else Seen(cubes[..|cubes| - 1], isSrc) + DimOf(cubes[|cubes| - 1], !isSrc)
  }

  lemma SeenMore(cubes: seq<Cube>, i: nat, isSrc: bool)
    requires i < |cubes|
    ensures Seen(cubes[..i + 1], isSrc) == Seen(cubes[..i], isSrc) + DimOf(cubes[i], !isSrc)
  {
    assert cubes[..i + 1][..i] == cubes[..i];
  }

  lemma {:induction false} SeenAt(cubes: seq<Cube>, i: nat, isSrc: bool)
    requires i < |cubes|
    ensures DimOf(cubes[i], !isSrc) <= Seen(cubes, isSrc)
    decreases |cubes|
  {
    if i < |cubes| - 1 { SeenAt(cubes[..|cubes| - 1], i, isSrc); }
  }

  lemma SeenAll(cubes: seq<Cube>, pairs: set<Pair>, isSrc: bool)
    requires CubeList(cubes, pairs)
    ensures forall p :: p in pairs ==> DimPeer(p, !isSrc) in Seen(cubes, isSrc)
  {
    hide Seen;
    forall p | p in pairs ensures DimPeer(p, !isSrc) in Seen(cubes, isSrc) {
      var i :| 0 <= i < |cubes| && p in cubes[i].Pairs();
      SeenAt(cubes, i, isSrc);
    }
  }

  /** The pairs that the entries of `keys` stand for. */
  ghost predicate TakenNs(info: ClusterInfo, m: map<set<Namespace>, set<Peer>>, keys: set<set<Namespace>>, isSrc: bool,
                          p: Pair) {
    exists k :: k in keys && k in m && DimPeer(p, isSrc) in NsSetPods(info, k) && DimPeer(p, !isSrc) in m[k]
  }

  lemma InRow(covered: set<Pair>, p: Pair, isSrc: bool)
    ensures p in covered <==> DimPeer(p, isSrc) in Row(covered, DimPeer(p, !isSrc), isSrc)
  {
    assert p == (p.0, p.1);
  }

  lemma OrientedPairs(info: ClusterInfo, dim: BaseElem, other: BaseElem, isSrc: bool)
    ensures PairsOf(info, OrientedElem(dim, other, isSrc)) ==
                Oriented(BasePeers(info, dim), BasePeers(info, other), isSrc)
  {
  }

  // ----- full IP blocks and DNS entries -----

  ghost predicate PeerMapSound(info: ClusterInfo, covered: set<Pair>, m: map<set<Peer>, set<Peer>>, isSrc: bool) {
    && (forall k :: k in m ==> info.KnowsAll(k))
    && (forall k, o :: k in m && o in m[k] ==> External(k, Row(covered, o, isSrc)) && info.Knows(o))
  }

  ghost predicate FiledPeer(m: map<set<Peer>, set<Peer>>, d: Peer, o: Peer) {
    exists k :: k in m && d in k && o in m[k]
  }

  ghost predicate Extends(m: map<set<Peer>, set<Peer>>, m': map<set<Peer>, set<Peer>>) {
    forall d, o :: FiledPeer(m, d, o) ==> FiledPeer(m', d, o)
  }

  lemma FiledPeerMore(m: map<set<Peer>, set<Peer>>, k: set<Peer>, other: set<Peer>, d: Peer, o: Peer)
    ensures FiledPeer(m[k := Entry(m, k) + other], d, o) <==> FiledPeer(m, d, o) || (d in k && o in other)
  {
    var m' := m[k := Entry(m, k) + other];
    if FiledPeer(m, d, o) {
      var j :| j in m && d in j && o in m[j];
      assert j in m' && o in m'[j];
    }
    if d in k && o in other {
      assert k in m' && o in m'[k];
    }
  }

  ghost predicate PeerMapFull(covered: set<Pair>, withoutNs: set<Pair>, seen: set<Peer>, m: map<set<Peer>, set<Peer>>,
                              isSrc: bool) {
    forall p :: p in withoutNs && DimPeer(p, !isSrc) in seen && WithExternal(covered, isSrc, p) ==>
                  FiledPeer(m, DimPeer(p, isSrc), DimPeer(p, !isSrc))
  }

  /** Every entry takes a waiting pair. */
  ghost predicate Needed(m: map<set<Peer>, set<Peer>>, withoutNs: set<Pair>, isSrc: bool) {
    forall k :: k in m ==> Oriented(k, m[k], isSrc) * withoutNs != {}
  }

  lemma NeededMore(m: map<set<Peer>, set<Peer>>, withoutNs: set<Pair>, isSrc: bool, k: set<Peer>, other: set<Peer>)
    requires Needed(m, withoutNs, isSrc) && Oriented(k, other, isSrc) * withoutNs != {}
    ensures Needed(m[k := Entry(m, k) + other], withoutNs, isSrc)
  {
    var p :| p in Oriented(k, other, isSrc) * withoutNs;
    assert p in Oriented(k, Entry(m, k) + other, isSrc) * withoutNs;
    hide Oriented;
  }

  lemma ExternalInRow(k: set<Peer>, row: set<Peer>)
    requires External(k, row)
    ensures k <= row
  {
  }

  lemma PeerMapProduct(info: ClusterInfo, covered: set<Pair>, m: map<set<Peer>, set<Peer>>, isSrc: bool, k: set<Peer>)
    requires PeerMapSound(info, covered, m, isSrc) && k in m
    ensures Oriented(k, m[k], isSrc) <= covered && info.KnowsAll(k) && info.KnowsAll(m[k])
  {
    hide External, Row;
    forall p | p in Oriented(k, m[k], isSrc) ensures p in covered {
      ExternalInRow(k, Row(covered, DimPeer(p, !isSrc), isSrc));
      InRow(covered, p, isSrc);
    }
  }

  ghost predicate TakenPeer(m: map<set<Peer>, set<Peer>>, keys: set<set<Peer>>, isSrc: bool, p: Pair) {
    exists k :: k in keys && k in m && DimPeer(p, isSrc) in k && DimPeer(p, !isSrc) in m[k]
  }

  lemma TakenPeerMore(m: map<set<Peer>, set<Peer>>, done: set<set<Peer>>, k: set<Peer>, isSrc: bool, p: Pair)
    requires k in m
    ensures TakenPeer(m, done + {k}, isSrc, p) <==> TakenPeer(m, done, isSrc, p) || p in Oriented(k, m[k], isSrc)
  {
  }

  lemma TakenPeerAll(info: ClusterInfo, covered: set<Pair>, withoutNs: set<Pair>, seen: set<Peer>,
                     m: map<set<Peer>, set<Peer>>, isSrc: bool, p: Pair)
    requires PeerMapSound(info, covered, m, isSrc) && PeerMapFull(covered, withoutNs, seen, m, isSrc)
    requires p in withoutNs && DimPeer(p, !isSrc) in seen
    ensures TakenPeer(m, m.Keys, isSrc, p) <==> WithExternal(covered, isSrc, p)
  {
    hide Row, IsFullIpBlock;
    if TakenPeer(m, m.Keys, isSrc, p) {
      var k :| k in m && DimPeer(p, isSrc) in k && DimPeer(p, !isSrc) in m[k];
      assert External(k, Row(covered, DimPeer(p, !isSrc), isSrc));
    }
    if WithExternal(covered, isSrc, p) {
      assert FiledPeer(m, DimPeer(p, isSrc), DimPeer(p, !isSrc));
    }
  }

  // ----- the namespace stage as a whole -----

  function SrcNamespaces(pairs: set<Pair>): set<Namespace> {
    set s | s in Sources(pairs) && s.Pod? :: NamespaceOf(s)
  }

  lemma SourcesPair(pairs: set<Pair>, p: Pair)
    requires p in pairs
    ensures p.0 in Sources(pairs) && p.1 in Sources(Swap(pairs))
  {
    assert p == (p.0, p.1) && (p.1, p.0) in Swap(pairs);
  }

  /** IP blocks, host endpoints and DNS entries. */
  function WithoutNamespace(peers: set<Peer>): set<Peer> { set s | s in peers && !s.Pod? }

  lemma WithoutNamespacePair(pairs: set<Pair>, p: Pair)
    requires p in pairs
    ensures p.0 in WithoutNamespace(Sources(pairs)) <==> !p.0.Pod?
    ensures p.1 in WithoutNamespace(Sources(Swap(pairs))) <==> !p.1.Pod?
  {
    SourcesPair(pairs, p);
  }

  lemma NamespacesSeen(pairs: set<Pair>, p: Pair)
    requires p in pairs
    ensures p.0.Pod? ==> NamespaceOf(p.0) in SrcNamespaces(pairs)
    ensures p.1.Pod? ==> NamespaceOf(p.1) in SrcNamespaces(Swap(pairs))
  {
    SourcesPair(pairs, p);
  }

  lemma NamespacesOfPods(pairs: set<Pair>)
    ensures forall n :: n in SrcNamespaces(pairs) ==> n.Namespace?
  {
  }

  /** All pairs of the pods of two namespaces are covered, and one of them is at hand. */
  ghost predicate WholePair(info: ClusterInfo, base: set<Pair>, peerProps: set<Pair>, a: Namespace, b: Namespace) {
    a.Namespace? && b.Namespace? && Whole(info, base, (a, b)) && NsProduct(info, a, b) * peerProps != {}
  }

  lemma WholePairSeen(info: ClusterInfo, base: set<Pair>, peerProps: set<Pair>, a: Namespace, b: Namespace)
    requires WellKeyed(info) && WholePair(info, base, peerProps, a, b)
    ensures a in SrcNamespaces(base) && b in SrcNamespaces(Swap(base))
  {
    var p :| p in NsProduct(info, a, b) * peerProps;
    NamespacesSeen(base, p);
    assert NamespaceOf(p.0) == a && NamespaceOf(p.1) == b;
  }

  lemma ScannedPairs(info: ClusterInfo, base: set<Pair>, peerProps: set<Pair>, done: set<NsPair>,
                     m: map<Namespace, set<Namespace>>, withoutNs: set<Pair>, covered: set<Pair>,
                     a: Namespace, b: Namespace)
    requires WellKeyed(info) && Scanned(info, base, peerProps, done, m, withoutNs, covered)
    requires forall k: NsPair :: k in done <==> k.0 in SrcNamespaces(base) && k.1 in SrcNamespaces(Swap(base))
    ensures b in Entry(m, a) <==> WholePair(info, base, peerProps, a, b)
  {
    NamespacesOfPods(base);
    NamespacesOfPods(Swap(base));
    if WholePair(info, base, peerProps, a, b) { WholePairSeen(info, base, peerProps, a, b); }
    hide SrcNamespaces, Whole, NsProduct, WellKeyed;
    assert (a, b) in done <==> a in SrcNamespaces(base) && b in SrcNamespaces(Swap(base));
  }

  lemma OrientedSplit(dim: set<Peer>, all: set<Peer>, ips: set<Peer>, isSrc: bool)
    requires ips <= all
    ensures Oriented(dim, all, isSrc) == Oriented(dim, all - ips, isSrc) + Oriented(dim, ips, isSrc)
  {
  }

  lemma MinusSame(a: set<Pair>, b: set<Pair>)
    ensures a == a - b <==> b * a == {}
  {
    if a == a - b {
      forall p | p in a ensures p !in b { assert p in a - b; }
    } else if b * a == {} {
      forall p | p in a ensures p in a - b { assert p !in b * a; }
    }
  }

  lemma NsStageDone(info: ClusterInfo, base: set<Pair>, peerProps: set<Pair>, done: set<NsPair>,
                    m: map<Namespace, set<Namespace>>, es: set<BasePair>, found: set<Pair>, withoutNs: set<Pair>,
                    covered: set<Pair>)
    requires KnowsPairs(info, base) && peerProps <= base
    requires Scanned(info, base, peerProps, done, m, found, covered)
    requires forall p :: p in base && p.0.Pod? && p.1.Pod? ==> NsKey(p) in done
    requires forall k: NsPair :: k in done ==> k.0.Namespace? && k.1.Namespace?
    requires forall p :: p in withoutNs <==> p in found || (p in peerProps && !(p.0.Pod? && p.1.Pod?))
    requires forall p :: Emitted(info, es, p) <==> InNs(info, p) && NsKey(p).1 in Entry(m, NsKey(p).0)
    ensures NsGrouped(info, base, peerProps, es, withoutNs, covered)
  {
    forall p | p in base && p.0.Pod? && p.1.Pod? ensures InNs(info, p) { assert info.Knows(p.0) && info.Knows(p.1); }
    forall p | InNs(info, p) && NsKey(p) in done ensures p.0.Pod? && p.1.Pod? { assert NsKey(p).0.Namespace?; }
    hide KnowsPairs, Emitted;
    forall p | Emitted(info, es, p) ensures p in base && WholeNs(info, base, p) {
      assert (NsKey(p).0, NsKey(p).1) == NsKey(p);
      assert p in NsProduct(info, NsKey(p).0, NsKey(p).1);
    }
    forall p | p in peerProps && WholeNs(info, base, p) ensures Emitted(info, es, p) {
      assert (NsKey(p).0, NsKey(p).1) == NsKey(p);
      assert p in NsProduct(info, NsKey(p).0, NsKey(p).1) * peerProps;
    }
  }

  /** The pairs that are not said in terms of whole namespaces, full IP blocks or DNS entries. */
  ghost predicate Leftover(info: ClusterInfo, base: set<Pair>, covered: set<Pair>, p: Pair) {
    !WholeNs(info, base, p) && StillWaits(info, covered, SrcNamespaces(base), SrcNamespaces(Swap(base)), p)
  }

  ghost predicate StillWaits(info: ClusterInfo, covered: set<Pair>, srcNs: set<Namespace>, dstNs: set<Namespace>,
                             p: Pair) {
    && !WithNamespace(info, covered, dstNs, false, p) && !WithNamespace(info, covered, srcNs, true, p)
    && !WithExternal(covered, false, p) && !WithExternal(covered, true, p)
  }

  // ----- how pairs are said -----

  predicate IsExternal(ps: set<Peer>) { IsFullIpBlock(ps) || exists d :: d in ps && d.DNSEntry? && ps == {d} }

  /** The operand on the given side of an emitted pair. */
  function Side(e: BasePair, isSrc: bool): BaseElem { if isSrc then e.0 else e.1 }

  /** The pair was emitted by whole namespaces on the given side. */
  ghost predicate ByNamespaces(info: ClusterInfo, es: set<BasePair>, isSrc: bool, p: Pair) {
    exists e :: e in es && p in PairsOf(info, e) && Side(e, isSrc).Namespaces?
  }

  /** The pair was emitted by a full IP block or a DNS entry on the given side. */
  ghost predicate ByExternal(info: ClusterInfo, es: set<BasePair>, isSrc: bool, p: Pair) {
    exists e :: e in es && p in PairsOf(info, e) && Side(e, isSrc).Peers? && IsExternal(Side(e, isSrc).peers)
  }

  lemma EmittedBy(info: ClusterInfo, es: set<BasePair>, es': set<BasePair>, isSrc: bool, p: Pair)
    requires es <= es'
    ensures ByNamespaces(info, es, isSrc, p) ==> ByNamespaces(info, es', isSrc, p)
    ensures ByExternal(info, es, isSrc, p) ==> ByExternal(info, es', isSrc, p)
  {
    hide PairsOf, IsExternal;
  }

  /** What the first stage that can say a pair, does: namespaces as destinations, then as sources, then the full IP
      block or a DNS entry as destination, then as source. */
  ghost predicate FirstSays(info: ClusterInfo, covered: set<Pair>, srcNs: set<Namespace>, dstNs: set<Namespace>,
                            es: set<BasePair>, p: Pair) {
    if WithNamespace(info, covered, dstNs, false, p) then ByNamespaces(info, es, false, p)
    else if WithNamespace(info, covered, srcNs, true, p) then ByNamespaces(info, es, true, p)
    else if WithExternal(covered, false, p) then ByExternal(info, es, false, p)
    else WithExternal(covered, true, p) ==> ByExternal(info, es, true, p)
  }

  // ----- what may be said -----

  /** A pod with itself. */
  function SelfPairs(peers: set<Peer>): (r: set<Pair>)
    ensures forall p :: p in r <==> p.0 == p.1 && IsClusterEP(p.0) && p.0 in peers
  {
    set x | x in peers && IsClusterEP(x) :: (x, x)
  }

  function PeersIn(pairs: set<Pair>): set<Peer> { Sources(pairs) + Sources(Swap(pairs)) }

  /** What may be said without saying too much: the pairs themselves, the pairs of containing connections, and
      connections of a pod to itself. */
  function Allowed(peerProps: set<Pair>, containing: set<Pair>): set<Pair> {
    peerProps + containing + SelfPairs(PeersIn(peerProps))
  }

  // ----- what the rules look like -----

  /** The rules hold every combination of a source element with a destination element. */
  ghost predicate Says(info: ClusterInfo, single: bool, src: BaseElem, dst: BaseElem, rules: seq<Rule>) {
    exists a, b :: ElementsFor(info, src, single, a) && ElementsFor(info, dst, single, b) && HasProduct(a, b, rules)
  }

  ghost predicate HasProduct(a: seq<Element>, b: seq<Element>, rules: seq<Rule>) {
    forall x, y :: x in a && y in b ==> Rule(x, y) in rules
  }

  lemma ProductSays(info: ClusterInfo, single: bool, src: BaseElem, dst: BaseElem, a: seq<Element>, b: seq<Element>,
                    rules: seq<Rule>)
    requires ElementsFor(info, src, single, a) && ElementsFor(info, dst, single, b) && ProductRules(a, b, rules)
    ensures Says(info, single, src, dst, rules)
  {
    hide ElementsFor;
    assert HasProduct(a, b, rules);
  }

  lemma SaysMore(info: ClusterInfo, single: bool, src: BaseElem, dst: BaseElem, rules: seq<Rule>, all: seq<Rule>)
    requires Says(info, single, src, dst, rules) && forall r :: r in rules ==> r in all
    ensures Says(info, single, src, dst, all)
  {
    hide ElementsFor;
    var a, b :| ElementsFor(info, src, single, a) && ElementsFor(info, dst, single, b) && HasProduct(a, b, rules);
    assert HasProduct(a, b, all);
  }

  lemma SaysConcat(info: ClusterInfo, single: bool, src: BaseElem, dst: BaseElem, rules: seq<Rule>, more: seq<Rule>)
    requires Says(info, single, src, dst, rules) || Says(info, single, src, dst, more)
    ensures Says(info, single, src, dst, rules + more)
  {
    hide Says;
    if Says(info, single, src, dst, rules) { SaysMore(info, single, src, dst, rules, rules + more); }
    else { SaysMore(info, single, src, dst, more, rules + more); }
  }

  ghost predicate CubesSaid(info: ClusterInfo, single: bool, cubes: seq<Cube>, rules: seq<Rule>) {
    forall i :: 0 <= i < |cubes| ==> Says(info, single, Peers(cubes[i].src), Peers(cubes[i].dst), rules)
  }

  lemma CubesSaidMore(info: ClusterInfo, single: bool, cubes: seq<Cube>, i: nat, rules: seq<Rule>, more: seq<Rule>)
    requires i < |cubes| && CubesSaid(info, single, cubes[..i], rules)
    requires Says(info, single, Peers(cubes[i].src), Peers(cubes[i].dst), more)
    ensures CubesSaid(info, single, cubes[..i + 1], rules + more)
  {
    hide Says;
    var next := cubes[..i + 1];
    forall j | 0 <= j < |next| ensures Says(info, single, Peers(next[j].src), Peers(next[j].dst), rules + more) {
      if j < i { assert next[j] == cubes[..i][j]; }
      SaysConcat(info, single, Peers(next[j].src), Peers(next[j].dst), rules, more);
    }
  }

  lemma CubesSaidConcat(info: ClusterInfo, single: bool, cubes: seq<Cube>, rules: seq<Rule>, more: seq<Rule>)
    requires CubesSaid(info, single, cubes, rules) || CubesSaid(info, single, cubes, more)
    ensures CubesSaid(info, single, cubes, rules + more)
  {
    hide Says;
    forall i | 0 <= i < |cubes|
      ensures Says(info, single, Peers(cubes[i].src), Peers(cubes[i].dst), rules + more)
    {
      SaysConcat(info, single, Peers(cubes[i].src), Peers(cubes[i].dst), rules, more);
    }
  }

  lemma NoCubes(info: ClusterInfo, single: bool)
    ensures CubesSaid(info, single, [], []) && RulesFor(info, [], {})
    ensures Rows([], {}, true) && Rows([], {}, false)
  {
  }

  /** The rules allow exactly the pairs. */
  ghost predicate RulesFor(info: ClusterInfo, rules: seq<Rule>, pairs: set<Pair>) {
    forall p :: Allows(info, rules, p) <==> p in pairs
  }

  lemma RulesForMore(info: ClusterInfo, rules: seq<Rule>, more: seq<Rule>, done: set<Pair>, pairs: set<Pair>)
    requires RulesFor(info, rules, done) && forall p :: Allows(info, more, p) <==> p in pairs
    ensures RulesFor(info, rules + more, done + pairs)
  {
    hide Allows;
    forall p { AllowsConcat(info, rules, more, p); }
  }

  lemma RulesForEach(info: ClusterInfo, rules: seq<Rule>, pairs: set<Pair>)
    requires RulesFor(info, rules, pairs)
    ensures forall p :: Allows(info, rules, p) <==> p in pairs
  {
  }

  function SrcAddresses(pairs: set<Pair>): set<Pair> { set p | p in pairs && p.0.Address? }

  function DstAddresses(pairs: set<Pair>): set<Pair> { set p | p in pairs && p.1.Address? }

  /** The pairs left are said by cubes: those from addresses by destination, then those to addresses by source, and
      the others by the order with fewer cubes. */
  ghost predicate RestSaid(info: ClusterInfo, single: bool, waiting: set<Pair>, rules: seq<Rule>) {
    exists a, b, c ::
      && Rows(a, SrcAddresses(waiting), true)
      && Rows(b, DstAddresses(waiting - SrcAddresses(waiting)), false)
      && FewestCubes(c, waiting - SrcAddresses(waiting) - DstAddresses(waiting - SrcAddresses(waiting)))
      && CubesSaid(info, single, a + b + c, rules)
  }

  lemma RestSaidBy(info: ClusterInfo, single: bool, waiting: set<Pair>, a: seq<Cube>, b: seq<Cube>, c: seq<Cube>,
                   rules: seq<Rule>)
    requires Rows(a, SrcAddresses(waiting), true)
    requires Rows(b, DstAddresses(waiting - SrcAddresses(waiting)), false)
    requires FewestCubes(c, waiting - SrcAddresses(waiting) - DstAddresses(waiting - SrcAddresses(waiting)))
    requires CubesSaid(info, single, a + b + c, rules)
    ensures RestSaid(info, single, waiting, rules)
  {
    hide Says, Rows, FewestCubes, SrcAddresses, DstAddresses, CubesSaid;
  }

  lemma AddressesWithin(waiting: set<Pair>)
    ensures SrcAddresses(waiting) <= waiting
    ensures DstAddresses(waiting - SrcAddresses(waiting)) <= waiting - SrcAddresses(waiting)
  {
  }

  lemma ThreeParts(all: set<Pair>, a: set<Pair>, b: set<Pair>)
    requires a <= all && b <= all - a
    ensures all == a + b + (all - a - b)
  {
  }

  lemma NothingMore<T>(s: set<T>)
    ensures s + {} == s && {} + s == s && s - {} == s
  {
  }

  lemma OneMore<T>(all: set<T>, done: set<T>, todo: set<T>, k: T)
    requires done + todo == all && k in todo
    ensures (done + {k}) + (todo - {k}) == all
  {
  }

  lemma CubesSaidBoth(info: ClusterInfo, single: bool, a: seq<Cube>, b: seq<Cube>, rules: seq<Rule>)
    requires CubesSaid(info, single, a, rules) && CubesSaid(info, single, b, rules)
    ensures CubesSaid(info, single, a + b, rules)
  {
    hide Says;
  }

  /** Some rule says both namespaces. */
  ghost predicate BothNamespaces(rules: seq<Rule>, a: Namespace, b: Namespace) {
    exists r :: r in rules && r.src.NsElement? && r.dst.NsElement? && a in r.src.nsInfo && b in r.dst.nsInfo
  }

  predicate ExternalElement(e: Element) {
    (e.DNSElement? && e.entry.DNSEntry?) || (e.IPBlockElement? && IsFullIpBlock(e.addresses))
  }

  function RuleSide(r: Rule, isSrc: bool): Element { if isSrc then r.src else r.dst }

  /** Some rule for the pair says namespaces on the given side. */
  ghost predicate NamespaceRule(info: ClusterInfo, rules: seq<Rule>, isSrc: bool, p: Pair) {
    exists r :: r in rules && p.0 in r.src.PeerSet(info) && p.1 in r.dst.PeerSet(info) && RuleSide(r, isSrc).NsElement?
  }

  /** Some rule for the pair says a full IP block or a DNS entry on the given side. */
  ghost predicate ExternalRule(info: ClusterInfo, rules: seq<Rule>, isSrc: bool, p: Pair) {
    exists r :: r in rules && p.0 in r.src.PeerSet(info) && p.1 in r.dst.PeerSet(info) &&
                ExternalElement(RuleSide(r, isSrc))
  }

  /** The covered pairs that are not said by two namespaces. */
  function NotWhole(info: ClusterInfo, base: set<Pair>): set<Pair> { set p | p in base && !WholeNs(info, base, p) }

  /** A pair that is not in two whole namespaces is said by the first way there is: its source with a namespace, a
      namespace with its destination, its source with a full IP block or DNS entry, or such with its destination. */
  ghost predicate FirstWay(info: ClusterInfo, base: set<Pair>, rules: seq<Rule>, p: Pair) {
    var covered := NotWhole(info, base);
    if WithNamespace(info, covered, SrcNamespaces(Swap(base)), false, p) then NamespaceRule(info, rules, false, p)
    else if WithNamespace(info, covered, SrcNamespaces(base), true, p) then NamespaceRule(info, rules, true, p)
    else if WithExternal(covered, false, p) then ExternalRule(info, rules, false, p)
    else WithExternal(covered, true, p) ==> ExternalRule(info, rules, true, p)
  }

  /** The pairs that none of these ways can say. */
  ghost predicate IsRest(info: ClusterInfo, props: set<Pair>, base: set<Pair>, rest: set<Pair>) {
    forall p :: p in rest <==> p in props && Leftover(info, base, NotWhole(info, base), p)
  }

  /** The rules are as compact as the covered pairs allow: two namespaces all of whose pairs are covered are said by
      one rule, other pairs by the first way there is, and what is left by the fewest cubes. */
  ghost predicate Compact(info: ClusterInfo, single: bool, props: set<Pair>, base: set<Pair>, rules: seq<Rule>) {
    && (forall a, b :: WholePair(info, base, props, a, b) ==> BothNamespaces(rules, a, b))
    && (forall p :: p in props && !WholeNs(info, base, p) ==> FirstWay(info, base, rules, p))
    && exists rest :: IsRest(info, props, base, rest) && RestSaid(info, single, rest, rules)
  }

  /** An emitted pair of namespaces becomes a rule. */
  lemma NamespacesRule(info: ClusterInfo, single: bool, es: set<BasePair>, a: Namespace, b: Namespace, rules: seq<Rule>,
                       all: seq<Rule>)
    requires Relates(es, a, b) && forall e :: e in es ==> Says(info, single, e.0, e.1, rules)
    requires forall r :: r in rules ==> r in all
    ensures BothNamespaces(all, a, b)
  {
    var e :| e in es && e.0.Namespaces? && e.1.Namespaces? && a in e.0.nss && b in e.1.nss;
    var x, y :| ElementsFor(info, e.0, single, x) && ElementsFor(info, e.1, single, y) && HasProduct(x, y, rules);
    var u, v := NsElement(e.0.nss), NsElement(e.1.nss);
    assert x == [u] && y == [v];
    assert u in x && v in y;
    assert Rule(u, v) in all;
  }

  /** A rule for a pair with a given element on one side. */
  lemma PairRule(info: ClusterInfo, single: bool, e: BasePair, isSrc: bool, p: Pair, x: Element, rules: seq<Rule>)
    requires p in PairsOf(info, e)
    requires forall s :: ElementsFor(info, Side(e, isSrc), single, s) ==> x in s
    requires DimPeer(p, isSrc) in x.PeerSet(info) && Says(info, single, e.0, e.1, rules)
    ensures exists r ::
              r in rules && p.0 in r.src.PeerSet(info) && p.1 in r.dst.PeerSet(info) && RuleSide(r, isSrc) == x
  {
    var a: seq<Element>, b: seq<Element> :|
      ElementsFor(info, e.0, single, a) && ElementsFor(info, e.1, single, b) && HasProduct(a, b, rules);
    assert Denotes(info, a, p.0) && Denotes(info, b, p.1);
    hide ElementsFor, Element.PeerSet, BasePeers;
    if isSrc {
      var j :| 0 <= j < |b| && p.1 in b[j].PeerSet(info);
      assert Rule(x, b[j]) in rules;
    } else {
      var j :| 0 <= j < |a| && p.0 in a[j].PeerSet(info);
      assert Rule(a[j], x) in rules;
    }
  }

  lemma NamespacePeers(info: ClusterInfo, b: BaseElem)
    requires b.Namespaces?
    ensures NsElement(b.nss).PeerSet(info) == BasePeers(info, b)
  {
  }

  lemma NamespaceSays(info: ClusterInfo, single: bool, es: set<BasePair>, isSrc: bool, p: Pair, rules: seq<Rule>,
                      all: seq<Rule>)
    requires ByNamespaces(info, es, isSrc, p) && forall e :: e in es ==> Says(info, single, e.0, e.1, rules)
    requires forall r :: r in rules ==> r in all
    ensures NamespaceRule(info, all, isSrc, p)
  {
    var e :| e in es && p in PairsOf(info, e) && Side(e, isSrc).Namespaces?;
    var x := NsElement(Side(e, isSrc).nss);
    forall s | ElementsFor(info, Side(e, isSrc), single, s) ensures x in s { assert s == [x] && x in [x]; }
    assert DimPeer(p, isSrc) in BasePeers(info, Side(e, isSrc));
    NamespacePeers(info, Side(e, isSrc));
    hide Says, ElementsFor, PairsOf;
    PairRule(info, single, e, isSrc, p, x, rules);
  }

  lemma ExternalSays(info: ClusterInfo, single: bool, es: set<BasePair>, isSrc: bool, p: Pair, rules: seq<Rule>,
                     all: seq<Rule>)
    requires ByExternal(info, es, isSrc, p) && forall e :: e in es ==> Says(info, single, e.0, e.1, rules)
    requires forall r :: r in rules ==> r in all
    ensures ExternalRule(info, all, isSrc, p)
  {
    var e :| e in es && p in PairsOf(info, e) && Side(e, isSrc).Peers? && IsExternal(Side(e, isSrc).peers);
    assert DimPeer(p, isSrc) in Side(e, isSrc).peers;
    var x := ExternalOf(Side(e, isSrc).peers, DimPeer(p, isSrc));
    ExternalIsElement(info, Side(e, isSrc).peers, DimPeer(p, isSrc));
    forall s | ElementsFor(info, Side(e, isSrc), single, s) ensures x in s {}
    hide Says, ElementsFor, PairsOf, IsFullIpBlock;
    PairRule(info, single, e, isSrc, p, x, rules);
  }

  function ExternalOf(ps: set<Peer>, p: Peer): Element {
    if p.DNSEntry? then DNSElement(p) else IPBlockElement(Addresses(ps))
  }

  lemma FullBlockIsAddresses(ps: set<Peer>)
    requires IsFullIpBlock(ps)
    ensures forall p :: p in ps ==> p.Address?
    ensures Addresses(ps) == ps
  {
  }

  lemma ExternalIsElement(info: ClusterInfo, ps: set<Peer>, p: Peer)
    requires IsExternal(ps) && p in ps
    ensures ExternalElement(ExternalOf(ps, p)) && p in ExternalOf(ps, p).PeerSet(info)
    ensures p.DNSEntry? || (p.Address? && Addresses(ps) != {})
  {
    if IsFullIpBlock(ps) { FullBlockIsAddresses(ps); }
  }

  lemma RestSaidMore(info: ClusterInfo, single: bool, waiting: set<Pair>, rules: seq<Rule>, all: seq<Rule>)
    requires RestSaid(info, single, waiting, rules) && forall r :: r in rules ==> r in all
    ensures RestSaid(info, single, waiting, all)
  {
    hide Says, Rows, FewestCubes, SrcAddresses, DstAddresses;
    var a: seq<Cube>, b: seq<Cube>, c: seq<Cube> :|
      && Rows(a, SrcAddresses(waiting), true)
      && Rows(b, DstAddresses(waiting - SrcAddresses(waiting)), false)
      && FewestCubes(c, waiting - SrcAddresses(waiting) - DstAddresses(waiting - SrcAddresses(waiting)))
      && CubesSaid(info, single, a + b + c, rules);
    var cubes := a + b + c;
    forall i | 0 <= i < |cubes| ensures Says(info, single, Peers(cubes[i].src), Peers(cubes[i].dst), all) {
      SaysMore(info, single, Peers(cubes[i].src), Peers(cubes[i].dst), rules, all);
    }
  }

  lemma FirstWayOf(info: ClusterInfo, single: bool, base: set<Pair>, es: set<BasePair>, p: Pair, rules: seq<Rule>,
                   all: seq<Rule>)
    requires FirstSays(info, NotWhole(info, base), SrcNamespaces(base), SrcNamespaces(Swap(base)), es, p)
    requires forall e :: e in es ==> Says(info, single, e.0, e.1, rules)
    requires forall r :: r in rules ==> r in all
    ensures FirstWay(info, base, all, p)
  {
    hide Says, NotWhole, SrcNamespaces, WithNamespace, WithExternal, ByNamespaces, ByExternal, NamespaceRule;
    hide ExternalRule;
    forall isSrc | ByNamespaces(info, es, isSrc, p) { NamespaceSays(info, single, es, isSrc, p, rules, all); }
    forall isSrc | ByExternal(info, es, isSrc, p) { ExternalSays(info, single, es, isSrc, p, rules, all); }
  }

  lemma IsCompact(info: ClusterInfo, single: bool, props: set<Pair>, base: set<Pair>, covered: set<Pair>,
                  ns: set<BasePair>, es: set<BasePair>, waiting: set<Pair>,
                  whole: seq<Rule>, rest: seq<Rule>, based: seq<Rule>)
    requires forall p :: p in covered <==> p in base && !WholeNs(info, base, p)
    requires forall a, b :: Relates(ns, a, b) <==> WholePair(info, base, props, a, b)
    requires forall e :: e in ns ==> Says(info, single, e.0, e.1, whole)
    requires forall e :: e in es ==> Says(info, single, e.0, e.1, based)
    requires forall p :: p in props && !WholeNs(info, base, p) ==>
                           FirstSays(info, covered, SrcNamespaces(base), SrcNamespaces(Swap(base)), es, p)
    requires forall p :: p in waiting <==> p in props && Leftover(info, base, covered, p)
    requires RestSaid(info, single, waiting, rest)
    ensures Compact(info, single, props, base, whole + rest + based)
  {
    var all := whole + rest + based;
    assert covered == NotWhole(info, base);
    hide Says, Relates, WholePair, WholeNs, RestSaid, Leftover, BothNamespaces, SrcNamespaces, WithNamespace;
    hide WithExternal, ByNamespaces, ByExternal, NamespaceRule, ExternalRule, FirstSays, FirstWay, NotWhole;
    forall a, b | WholePair(info, base, props, a, b) ensures BothNamespaces(all, a, b) {
      NamespacesRule(info, single, ns, a, b, whole, all);
    }
    forall p | p in props && !WholeNs(info, base, p) ensures FirstWay(info, base, all, p) {
      assert FirstSays(info, covered, SrcNamespaces(base), SrcNamespaces(Swap(base)), es, p);
      FirstWayOf(info, single, base, es, p, based, all);
    }
    RestSaidMore(info, single, waiting, rest, all);
    assert IsRest(info, props, base, waiting);
  }

  /** What is covered: connections of a pod to itself are added only for fewer than 500 peers. */
  function Base(peerProps: set<Pair>, containing: set<Pair>, peerCount: nat): set<Pair> {
    if peerCount < AUTO_CONNECTIONS_LIMIT then Allowed(peerProps, containing) else peerProps + containing
  }

  class MinimizeCsFwRules {
    const info: ClusterInfo
    const single: bool
    var peerProps: set<Pair>
    var nsSetPairs: set<BasePair>
    var baseElemPairs: set<BasePair>
    var withoutNs: set<Pair>
    var covered: set<Pair>

    constructor (info: ClusterInfo, single: bool)
      ensures this.info == info && this.single == single
    {
      this.info, this.single := info, single;
      peerProps, nsSetPairs, baseElemPairs, withoutNs, covered := {}, {}, {}, {}, {};
    }

    ghost predicate Stage(allowed: set<Pair>)
      reads this
    {
      Grouped(info, allowed, peerProps, nsSetPairs + baseElemPairs, withoutNs, covered)
    }

    /** _compute_covered_peer_props. `peerCount` is the number of peer objects, in which an IP block counts once. */
    method ComputeCovered(containing: set<Pair>, peerCount: nat)
      modifies this`covered
      ensures peerCount < AUTO_CONNECTIONS_LIMIT ==> covered == Allowed(peerProps, containing)
      ensures peerCount >= AUTO_CONNECTIONS_LIMIT ==> covered == peerProps + containing
    {
      covered := peerProps + containing;
      if peerCount < AUTO_CONNECTIONS_LIMIT {
        var todo := PeersIn(peerProps);
        ghost var done := {};
        while todo != {}
          invariant done + todo == PeersIn(peerProps)
          invariant covered == peerProps + containing + SelfPairs(done)
          decreases todo
        {
          var pod :| pod in todo;
          todo := todo - {pod};
          if IsClusterEP(pod) { covered := covered + {(pod, pod)}; }
          assert SelfPairs(done + {pod}) == SelfPairs(done) + if IsClusterEP(pod) then {(pod, pod)} else {};
          done := done + {pod};
        }
        assert done == PeersIn(peerProps);
      }
    }

    /** One cell of the nested loop over source and destination namespaces. */
    method ScanNsPair(src: Namespace, dst: Namespace, m: map<Namespace, set<Namespace>>,
                      back: map<Namespace, set<Namespace>>, ghost done: set<NsPair>, ghost base: set<Pair>)
      returns (m': map<Namespace, set<Namespace>>, back': map<Namespace, set<Namespace>>)
      requires WellKeyed(info) && Scanned(info, base, peerProps, done, m, withoutNs, covered) && Inverse(m, back)
      requires (src, dst) !in done
      modifies this`withoutNs, this`covered
      ensures Scanned(info, base, peerProps, done + {(src, dst)}, m', withoutNs, covered) && Inverse(m', back')
    {
      StillWhole(info, base, peerProps, done, m, withoutNs, covered, src, dst);
      hide Scanned, Inverse, NsProduct, WellKeyed, Whole;
      m', back' := m, back;
      var nsProduct := NsProduct(info, src, dst);
      if nsProduct <= covered {
        ScannedWhole(info, base, peerProps, done, m, withoutNs, covered, src, dst);
        covered := covered - nsProduct;
        if nsProduct * peerProps != {} {
          InverseMore(m, back, src, dst);
          m' := m[src := Entry(m, src) + {dst}];
          back' := back[dst := Entry(back, dst) + {src}];
        }
      } else {
        ScannedPart(info, base, peerProps, done, m, withoutNs, covered, src, dst);
        withoutNs := withoutNs + nsProduct * peerProps;
      }
    }

    method ScanRow(src: Namespace, dstNs: set<Namespace>, m: map<Namespace, set<Namespace>>,
                   back: map<Namespace, set<Namespace>>, ghost done: set<NsPair>, ghost base: set<Pair>)
      returns (m': map<Namespace, set<Namespace>>, back': map<Namespace, set<Namespace>>, ghost done': set<NsPair>)
      requires WellKeyed(info) && Scanned(info, base, peerProps, done, m, withoutNs, covered) && Inverse(m, back)
      requires forall b :: (src, b) !in done
      modifies this`withoutNs, this`covered
      ensures Scanned(info, base, peerProps, done', m', withoutNs, covered) && Inverse(m', back')
      ensures forall k: NsPair :: k in done' <==> k in done || (k.0 == src && k.1 in dstNs)
    {
      m', back', done' := m, back, done;
      var todo := dstNs;
      while todo != {}
        invariant todo <= dstNs && Scanned(info, base, peerProps, done', m', withoutNs, covered) && Inverse(m', back')
        invariant forall k: NsPair :: k in done' <==> k in done || (k.0 == src && k.1 in dstNs - todo)
        decreases todo
      {
        hide Scanned, Inverse, WellKeyed;
        var dst :| dst in todo;
        todo := todo - {dst};
        m', back' := ScanNsPair(src, dst, m', back', done', base);
        done' := done' + {(src, dst)};
      }
    }

    /** _compute_full_ns_grouping: the nested loops, then the more compact of the two groupings. */
    method FullNsGrouping(srcNs: set<Namespace>, dstNs: set<Namespace>)
      returns (ghost m: map<Namespace, set<Namespace>>, ghost back: map<Namespace, set<Namespace>>,
               ghost done: set<NsPair>)
      requires WellKeyed(info) && withoutNs == {}
      modifies this`withoutNs, this`covered, this`nsSetPairs
      ensures forall k: NsPair :: k in done <==> k.0 in srcNs && k.1 in dstNs
      ensures Scanned(info, old(covered), peerProps, done, m, withoutNs, covered) && AllNamespaces(nsSetPairs)
      ensures forall a, b :: Relates(nsSetPairs, a, b) <==> b in Entry(m, a)
      ensures Inverse(m, back) && |nsSetPairs| == Least(|m.Values|, |back.Values|)
    {
      var srcToDst: map<Namespace, set<Namespace>>, dstToSrc: map<Namespace, set<Namespace>> := map[], map[];
      ghost var base := covered;
      done := {};
      var todo := srcNs;
      assert Scanned(info, base, peerProps, done, srcToDst, withoutNs, covered);
      assert Inverse(srcToDst, dstToSrc);
      while todo != {}
        invariant todo <= srcNs && Scanned(info, base, peerProps, done, srcToDst, withoutNs, covered)
        invariant Inverse(srcToDst, dstToSrc)
        invariant forall k: NsPair :: k in done <==> k.0 in srcNs - todo && k.1 in dstNs
        decreases todo
      {
        hide Scanned, Inverse, Relates, WellKeyed;
        var src :| src in todo;
        todo := todo - {src};
        srcToDst, dstToSrc, done := ScanRow(src, dstNs, srcToDst, dstToSrc, done, base);
      }
      hide Scanned, Inverse, Relates, WellKeyed, AllNamespaces;
      nsSetPairs := PairNsSets(srcToDst, dstToSrc);
      m, back := srcToDst, dstToSrc;
    }

    /** The pairs with an IP block, a host endpoint or a DNS entry are not in any namespace. */
    method AddPairsWithoutNs()
      modifies this`withoutNs
      ensures forall p :: p in withoutNs <==> p in old(withoutNs) || (p in peerProps && !(p.0.Pod? && p.1.Pod?))
    {
      hide WithoutNamespace;
      var src, dst := WithoutNamespace(Sources(peerProps)), WithoutNamespace(Sources(Swap(peerProps)));
      forall p | p in peerProps { WithoutNamespacePair(peerProps, p); }
      withoutNs := withoutNs + set p | p in peerProps && (p.0 in src || p.1 in dst);
    }

    method NamespaceStage()
      requires WellKeyed(info) && withoutNs == {} && peerProps <= covered && KnowsPairs(info, covered)
      modifies this`withoutNs, this`covered, this`nsSetPairs
      ensures NsGrouped(info, old(covered), peerProps, nsSetPairs, withoutNs, covered) && AllNamespaces(nsSetPairs)
      ensures forall a, b :: Relates(nsSetPairs, a, b) <==> WholePair(info, old(covered), peerProps, a, b)
    {
      ghost var base := covered;
      NamespacesOfPods(base);
      NamespacesOfPods(Swap(base));
      hide SrcNamespaces, Sources, Swap, Emitted, AllNamespaces, Relates, WellKeyed, KnowsPairs, Scanned, InNs;
      ghost var m, back, done := FullNsGrouping(SrcNamespaces(covered), SrcNamespaces(Swap(covered)));
      ghost var found := withoutNs;
      AddPairsWithoutNs();
      forall p ensures Emitted(info, nsSetPairs, p) <==> InNs(info, p) && NsKey(p).1 in Entry(m, NsKey(p).0) {
        NsSetsDenote(info, m, nsSetPairs, p);
      }
      forall a, b ensures b in Entry(m, a) <==> WholePair(info, base, peerProps, a, b) {
        ScannedPairs(info, base, peerProps, done, m, found, covered, a, b);
      }
      hide Entry, WholePair;
      forall p | p in base { NamespacesSeen(base, p); }
      NsStageDone(info, base, peerProps, done, m, nsSetPairs, found, withoutNs, covered);
    }

    method NamespacesIn(dim: set<Peer>, other: set<Peer>, nsSet: set<Namespace>, isSrc: bool)
      returns (found: set<Namespace>)
      ensures forall n :: n in found <==> n in nsSet && Helps(info, withoutNs, dim, other, n, isSrc)
    {
      var todo := nsSet;
      found := {};
      while todo != {}
        invariant todo <= nsSet
        invariant forall n :: n in found <==> (n in nsSet - todo && Helps(info, withoutNs, dim, other, n, isSrc))
        decreases todo
      {
        var ns :| ns in todo;
        todo := todo - {ns};
        if info.NsPods(ns) <= dim {
          if Oriented(info.NsPods(ns), other, isSrc) * withoutNs != {} { found := found + {ns}; }
        }
      }
    }

    /** One cube: its other peers are filed under the namespaces that help. */
    method CollectNsCube(cube: Cube, nsSet: set<Namespace>, isSrc: bool, m: map<set<Namespace>, set<Peer>>,
                         ghost seen: set<Peer>)
      returns (m': map<set<Namespace>, set<Peer>>)
      requires NsMapSound(info, covered, nsSet, m, isSrc) && {} !in m
      requires NsMapFull(info, covered, withoutNs, nsSet, seen, m, isSrc)
      requires info.KnowsAll(DimOf(cube, !isSrc))
      requires forall o :: o in DimOf(cube, !isSrc) ==> Row(covered, o, isSrc) == DimOf(cube, isSrc)
      ensures NsMapSound(info, covered, nsSet, m', isSrc) && {} !in m'
      ensures NsMapFull(info, covered, withoutNs, nsSet, seen + DimOf(cube, !isSrc), m', isSrc)
    {
      hide NsMapSound, NsMapFull, Row;
      var dim, other := DimOf(cube, isSrc), DimOf(cube, !isSrc);
      var found := NamespacesIn(dim, other, nsSet, isSrc);
      NsMapFullMore(info, covered, withoutNs, nsSet, seen, m, isSrc, dim, other, found);
      m' := m;
      if found != {} {
        NsMapSoundMore(info, covered, nsSet, m, isSrc, dim, other, found);
        m' := m[found := Entry(m, found) + other];
      }
    }

    method CollectNs(cubes: seq<Cube>, nsSet: set<Namespace>, isSrc: bool) returns (m: map<set<Namespace>, set<Peer>>)
      requires Rows(cubes, covered, isSrc) && KnowsPairs(info, covered)
      ensures NsMapSound(info, covered, nsSet, m, isSrc) && {} !in m
      ensures NsMapFull(info, covered, withoutNs, nsSet, Seen(cubes, isSrc), m, isSrc)
    {
      m := map[];
      assert NsMapSound(info, covered, nsSet, m, isSrc) && NsMapFull(info, covered, withoutNs, nsSet, {}, m, isSrc);
      for i := 0 to |cubes|
        invariant NsMapSound(info, covered, nsSet, m, isSrc) && {} !in m
        invariant NsMapFull(info, covered, withoutNs, nsSet, Seen(cubes[..i], isSrc), m, isSrc)
      {
        hide NsMapSound, NsMapFull, CubeList, KnowsPairs, Row;
        CubeKnown(info, covered, cubes, i, !isSrc);
        SeenMore(cubes, i, isSrc);
        m := CollectNsCube(cubes[i], nsSet, isSrc, m, Seen(cubes[..i], isSrc));
      }
      assert cubes[..|cubes|] == cubes;
    }

    /** Emits the product unless no waiting pair is in it. */
    method EmitIfNeeded(nss: set<Namespace>, part: set<Peer>, isSrc: bool, ghost allowed: set<Pair>)
      requires Stage(allowed) && Oriented(NsSetPods(info, nss), part, isSrc) <= allowed && info.KnowsAll(part)
      modifies this`withoutNs, this`baseElemPairs
      ensures Stage(allowed) && withoutNs == old(withoutNs) - Oriented(NsSetPods(info, nss), part, isSrc)
      ensures baseElemPairs == old(baseElemPairs) + (
                                 if Oriented(NsSetPods(info, nss), part, isSrc) * old(withoutNs) == {} then {}
                                 else {OrientedElem(Namespaces(nss), Peers(part), isSrc)})
      ensures Helpful(old(baseElemPairs), baseElemPairs, old(withoutNs))
      ensures forall p :: p in old(withoutNs) && p !in withoutNs ==> ByNamespaces(info, baseElemPairs, isSrc, p)
    {
      hide Grouped, Oriented;
      var e := OrientedElem(Namespaces(nss), Peers(part), isSrc);
      OrientedPairs(info, Namespaces(nss), Peers(part), isSrc);
      var updated := withoutNs - Oriented(NsSetPods(info, nss), part, isSrc);
      MinusSame(withoutNs, Oriented(NsSetPods(info, nss), part, isSrc));
      if withoutNs != updated {
        Emit(info, allowed, peerProps, nsSetPairs + baseElemPairs, withoutNs, covered, e);
        assert nsSetPairs + (baseElemPairs + {e}) == nsSetPairs + baseElemPairs + {e};
        withoutNs := updated;
        baseElemPairs := baseElemPairs + {e};
        assert e in baseElemPairs && Side(e, isSrc).Namespaces?;
      }
    }

    lemma NsEntryAllowed(m: map<set<Namespace>, set<Peer>>, nss: set<Namespace>, isSrc: bool, nsSet: set<Namespace>,
                         allowed: set<Pair>)
      requires Stage(allowed) && NsMapSound(info, covered, nsSet, m, isSrc) && nss in m && nss != {}
      ensures Oriented(NsSetPods(info, nss), m[nss], isSrc) <= allowed && info.KnowsAll(m[nss])
      ensures forall part :: part <= m[nss] ==> info.KnowsAll(part)
    {
    }

    /** IP blocks are emitted apart from the other peers. */
    method EmitNs(m: map<set<Namespace>, set<Peer>>, nss: set<Namespace>, isSrc: bool, ghost nsSet: set<Namespace>,
                  ghost allowed: set<Pair>)
      requires Stage(allowed) && NsMapSound(info, covered, nsSet, m, isSrc) && nss in m && nss != {}
      modifies this`withoutNs, this`baseElemPairs
      ensures Stage(allowed) && withoutNs == old(withoutNs) - Oriented(NsSetPods(info, nss), m[nss], isSrc)
      ensures Helpful(old(baseElemPairs), baseElemPairs, old(withoutNs))
      ensures forall p :: p in old(withoutNs) && p !in withoutNs ==> ByNamespaces(info, baseElemPairs, isSrc, p)
    {
      var ips := Addresses(m[nss]);
      OrientedSplit(NsSetPods(info, nss), m[nss], ips, isSrc);
      NsEntryAllowed(m, nss, isSrc, nsSet, allowed);
      hide *;
      EmitIfNeeded(nss, m[nss] - ips, isSrc, allowed);
      ghost var between, waiting := baseElemPairs, withoutNs;
      EmitIfNeeded(nss, ips, isSrc, allowed);
      HelpfulMore(old(baseElemPairs), between, baseElemPairs, old(withoutNs), waiting);
      StillBy(between, baseElemPairs, waiting, isSrc);
    }

    /** Each new pair took at least one waiting pair. */
    ghost predicate Helpful(before: set<BasePair>, after: set<BasePair>, waiting: set<Pair>) {
      before <= after && forall e :: e in after - before ==> PairsOf(info, e) * waiting != {}
    }

    lemma HelpfulMore(a: set<BasePair>, b: set<BasePair>, c: set<BasePair>, waiting: set<Pair>, later: set<Pair>)
      requires Helpful(a, b, waiting) && Helpful(b, c, later) && later <= waiting
      ensures Helpful(a, c, waiting)
    {
      hide PairsOf;
    }

    /** What was emitted by namespaces stays so. */
    lemma StillBy(before: set<BasePair>, after: set<BasePair>, waiting: set<Pair>, isSrc: bool)
      requires Helpful(before, after, waiting) || before <= after
      ensures forall p :: ByNamespaces(info, before, isSrc, p) ==> ByNamespaces(info, after, isSrc, p)
      ensures forall p :: ByExternal(info, before, isSrc, p) ==> ByExternal(info, after, isSrc, p)
    {
      hide ByNamespaces, ByExternal;
      forall p { EmittedBy(info, before, after, isSrc, p); }
    }

    method CubesOf(isSrc: bool) returns (cubes: seq<Cube>)
      ensures Rows(cubes, covered, isSrc)
    {
      if isSrc { cubes := CubesByTarget(covered); } else { cubes := CubesBySource(covered); }
    }

    /** _compute_partial_ns_grouping: exactly the pairs of peers covered with a whole namespace stop waiting. */
    method PartialNsGrouping(nsSet: set<Namespace>, isSrc: bool, ghost allowed: set<Pair>)
      requires Stage(allowed)
      modifies this`withoutNs, this`baseElemPairs
      ensures Stage(allowed) && Helpful(old(baseElemPairs), baseElemPairs, old(withoutNs))
      ensures forall p :: p in withoutNs <==>
                          p in old(withoutNs) && !WithNamespace(info, covered, nsSet, isSrc, p)
      ensures forall p :: p in old(withoutNs) && p !in withoutNs ==> ByNamespaces(info, baseElemPairs, isSrc, p)
    {
      var cubes := CubesOf(isSrc);
      SeenAll(cubes, covered, isSrc);
      hide Stage, NsMapSound, NsMapFull, KnowsPairs, Rows, WithNamespace, Seen;
      var m := CollectNs(cubes, nsSet, isSrc);
      hide PairsOf, TakenNs, Oriented;
      EmitAllNs(m, isSrc, nsSet, allowed);
    }

    method EmitAllNs(m: map<set<Namespace>, set<Peer>>, isSrc: bool, ghost nsSet: set<Namespace>,
                     ghost allowed: set<Pair>)
      requires Stage(allowed) && NsMapSound(info, covered, nsSet, m, isSrc) && {} !in m
      modifies this`withoutNs, this`baseElemPairs
      ensures Stage(allowed) && Helpful(old(baseElemPairs), baseElemPairs, old(withoutNs))
      ensures forall p :: p in withoutNs <==> p in old(withoutNs) && !TakenNs(info, m, m.Keys, isSrc, p)
      ensures forall p :: p in old(withoutNs) && p !in withoutNs ==> ByNamespaces(info, baseElemPairs, isSrc, p)
    {
      var todo := m.Keys;
      ghost var done := {};
      while todo != {}
        invariant done + todo == m.Keys && Stage(allowed) && withoutNs <= old(withoutNs)
        invariant Helpful(old(baseElemPairs), baseElemPairs, old(withoutNs))
        invariant forall p :: p in withoutNs <==> p in old(withoutNs) && !TakenNs(info, m, done, isSrc, p)
        invariant forall p :: p in old(withoutNs) && p !in withoutNs ==> ByNamespaces(info, baseElemPairs, isSrc, p)
        decreases todo
      {
        hide Stage, NsMapSound, TakenNs, Oriented, Helpful, ByNamespaces;
        var nss :| nss in todo;
        todo := todo - {nss};
        ghost var before, waiting := baseElemPairs, withoutNs;
        EmitNs(m, nss, isSrc, nsSet, allowed);
        HelpfulMore(old(baseElemPairs), before, baseElemPairs, old(withoutNs), waiting);
        StillBy(before, baseElemPairs, waiting, isSrc);
        done := done + {nss};
      }
      assert done == m.Keys;
    }

    /** _add_to_map_if_covered */
    method AddIfCovered(dim: set<Peer>, other: set<Peer>, isSrc: bool, m: map<set<Peer>, set<Peer>>)
      returns (m': map<set<Peer>, set<Peer>>)
      requires PeerMapSound(info, covered, m, isSrc) && info.KnowsAll(dim) && info.KnowsAll(other)
      requires forall o :: o in other ==> External(dim, Row(covered, o, isSrc))
      requires Needed(m, withoutNs, isSrc)
      ensures PeerMapSound(info, covered, m', isSrc) && Extends(m, m') && Needed(m', withoutNs, isSrc)
      ensures forall p :: p in withoutNs && DimPeer(p, isSrc) in dim && DimPeer(p, !isSrc) in other ==>
                            FiledPeer(m', DimPeer(p, isSrc), DimPeer(p, !isSrc))
    {
      hide External, Row, FiledPeer;
      m' := m;
      if Oriented(dim, other, isSrc) * withoutNs != {} {
        NeededMore(m, withoutNs, isSrc, dim, other);
        m' := m[dim := Entry(m, dim) + other];
        forall d, o { FiledPeerMore(m, dim, other, d, o); }
      } else {
        forall p | p in withoutNs ensures !(DimPeer(p, isSrc) in dim && DimPeer(p, !isSrc) in other) {
          assert p !in Oriented(dim, other, isSrc) * withoutNs;
        }
      }
    }

    /** The full IP block and the DNS entries of one cube. */
    method AddExternals(dim: set<Peer>, other: set<Peer>, isSrc: bool, m: map<set<Peer>, set<Peer>>,
                        ghost seen: set<Peer>)
      returns (m': map<set<Peer>, set<Peer>>)
      requires PeerMapSound(info, covered, m, isSrc) && info.KnowsAll(other)
      requires PeerMapFull(covered, withoutNs, seen, m, isSrc) && withoutNs <= covered && Needed(m, withoutNs, isSrc)
      requires forall o :: o in other ==> Row(covered, o, isSrc) == dim
      ensures PeerMapSound(info, covered, m', isSrc) && PeerMapFull(covered, withoutNs, seen + other, m', isSrc)
      ensures Needed(m', withoutNs, isSrc)
    {
      hide PeerMapSound, Oriented, IsFullIpBlock, Row, FiledPeer, Needed;
      m' := m;
      var ips := Addresses(dim);
      if IsFullIpBlock(ips) { m' := AddIfCovered(ips, other, isSrc, m'); }
      var todo := set p | p in dim && p.DNSEntry?;
      ghost var done := {};
      while todo != {}
        invariant done + todo == set p | p in dim && p.DNSEntry?
        invariant PeerMapSound(info, covered, m', isSrc) && Extends(m, m') && Needed(m', withoutNs, isSrc)
        invariant IsFullIpBlock(ips) ==>
                    forall p :: p in withoutNs && DimPeer(p, isSrc) in ips && DimPeer(p, !isSrc) in other ==>
                                  FiledPeer(m', DimPeer(p, isSrc), DimPeer(p, !isSrc))
        invariant forall p :: p in withoutNs && DimPeer(p, isSrc) in done && DimPeer(p, !isSrc) in other ==>
                                FiledPeer(m', DimPeer(p, isSrc), DimPeer(p, !isSrc))
        decreases todo
      {
        var entry :| entry in todo;
        todo := todo - {entry};
        m' := AddIfCovered({entry}, other, isSrc, m');
        done := done + {entry};
      }
      forall p | p in withoutNs && DimPeer(p, !isSrc) in seen + other && WithExternal(covered, isSrc, p)
        ensures FiledPeer(m', DimPeer(p, isSrc), DimPeer(p, !isSrc))
      {
        InRow(covered, p, isSrc);
      }
    }

    method CollectExternals(cubes: seq<Cube>, isSrc: bool) returns (m: map<set<Peer>, set<Peer>>)
      requires Rows(cubes, covered, isSrc) && KnowsPairs(info, covered) && withoutNs <= covered
      ensures PeerMapSound(info, covered, m, isSrc) && PeerMapFull(covered, withoutNs, Seen(cubes, isSrc), m, isSrc)
      ensures Needed(m, withoutNs, isSrc)
    {
      m := map[];
      assert PeerMapSound(info, covered, m, isSrc) && PeerMapFull(covered, withoutNs, {}, m, isSrc);
      for i := 0 to |cubes|
        invariant PeerMapSound(info, covered, m, isSrc) && Needed(m, withoutNs, isSrc)
        invariant PeerMapFull(covered, withoutNs, Seen(cubes[..i], isSrc), m, isSrc)
      {
        hide Needed, PeerMapSound, PeerMapFull, CubeList, KnowsPairs, Row;
        CubeKnown(info, covered, cubes, i, !isSrc);
        SeenMore(cubes, i, isSrc);
        m := AddExternals(DimOf(cubes[i], isSrc), DimOf(cubes[i], !isSrc), isSrc, m, Seen(cubes[..i], isSrc));
      }
      assert cubes[..|cubes|] == cubes;
    }

    lemma ExternalKey(m: map<set<Peer>, set<Peer>>, k: set<Peer>, isSrc: bool, p: Pair)
      requires PeerMapSound(info, covered, m, isSrc) && k in m && p in Oriented(k, m[k], isSrc)
      ensures IsExternal(k)
    {
      hide IsFullIpBlock, Row;
      assert DimPeer(p, !isSrc) in m[k];
      assert External(k, Row(covered, DimPeer(p, !isSrc), isSrc));
    }

    method EmitExternal(m: map<set<Peer>, set<Peer>>, k: set<Peer>, isSrc: bool, ghost allowed: set<Pair>)
      requires Stage(allowed) && PeerMapSound(info, covered, m, isSrc) && k in m
      modifies this`withoutNs, this`baseElemPairs
      ensures Stage(allowed) && withoutNs == old(withoutNs) - Oriented(k, m[k], isSrc)
      ensures baseElemPairs == old(baseElemPairs) + {OrientedElem(Peers(k), Peers(m[k]), isSrc)}
      ensures forall p :: p in old(withoutNs) && p !in withoutNs ==> ByExternal(info, baseElemPairs, isSrc, p)
    {
      PeerMapProduct(info, covered, m, isSrc, k);
      var e := OrientedElem(Peers(k), Peers(m[k]), isSrc);
      OrientedPairs(info, Peers(k), Peers(m[k]), isSrc);
      assert Oriented(k, m[k], isSrc) <= allowed && Usual(info, e.0) && Usual(info, e.1);
      hide Grouped, PeerMapSound, KnowsPairs, Oriented, PairsOf;
      Emit(info, allowed, peerProps, nsSetPairs + baseElemPairs, withoutNs, covered, e);
      assert nsSetPairs + (baseElemPairs + {e}) == nsSetPairs + baseElemPairs + {e};
      forall p | p in Oriented(k, m[k], isSrc) ensures IsExternal(k) { ExternalKey(m, k, isSrc, p); }
      withoutNs := withoutNs - Oriented(k, m[k], isSrc);
      baseElemPairs := baseElemPairs + {e};
      assert e in baseElemPairs && Side(e, isSrc) == Peers(k);
    }

    /** _compute_full_ipblock_and_dns_grouping: exactly the pairs with a DNS entry, or with an address where the peer is
        covered with a full IP block, stop waiting. */
    method FullIpBlockAndDnsGrouping(isSrc: bool, ghost allowed: set<Pair>)
      requires Stage(allowed)
      modifies this`withoutNs, this`baseElemPairs
      ensures Stage(allowed) && Helpful(old(baseElemPairs), baseElemPairs, old(withoutNs))
      ensures forall p :: p in withoutNs <==> p in old(withoutNs) && !WithExternal(covered, isSrc, p)
      ensures forall p :: p in old(withoutNs) && p !in withoutNs ==> ByExternal(info, baseElemPairs, isSrc, p)
    {
      var cubes := CubesOf(isSrc);
      SeenAll(cubes, covered, isSrc);
      hide Stage, PeerMapSound, PeerMapFull, KnowsPairs, Rows, WithExternal, Seen;
      var m := CollectExternals(cubes, isSrc);
      forall p | p in withoutNs {
        TakenPeerAll(info, covered, withoutNs, Seen(cubes, isSrc), m, isSrc, p);
      }
      hide TakenPeer, Oriented, Needed, ByExternal, Helpful;
      EmitAllExternal(m, isSrc, allowed);
    }

    /** The entries in `done` were emitted, starting from the pairs `start` and with `all` waiting. */
    ghost predicate ExternalTaken(m: map<set<Peer>, set<Peer>>, done: set<set<Peer>>, isSrc: bool,
                                  start: set<BasePair>, all: set<Pair>, es: set<BasePair>, waiting: set<Pair>) {
      && Helpful(start, es, all) && waiting <= all
      && (forall p :: p in waiting <==> p in all && !TakenPeer(m, done, isSrc, p))
      && (forall p :: p in all && p !in waiting ==> ByExternal(info, es, isSrc, p))
    }

    lemma ExternalTakenMore(m: map<set<Peer>, set<Peer>>, done: set<set<Peer>>, isSrc: bool,
                            start: set<BasePair>, all: set<Pair>, es: set<BasePair>, waiting: set<Pair>, k: set<Peer>)
      requires ExternalTaken(m, done, isSrc, start, all, es, waiting) && k in m && Needed(m, all, isSrc)
      requires var es' := es + {OrientedElem(Peers(k), Peers(m[k]), isSrc)};
               forall p :: p in waiting && p in Oriented(k, m[k], isSrc) ==> ByExternal(info, es', isSrc, p)
      ensures ExternalTaken(m, done + {k}, isSrc, start, all, es + {OrientedElem(Peers(k), Peers(m[k]), isSrc)},
                            waiting - Oriented(k, m[k], isSrc))
    {
      var es' := es + {OrientedElem(Peers(k), Peers(m[k]), isSrc)};
      HelpfulExternal(m, k, isSrc, start, es, all);
      var left := waiting - Oriented(k, m[k], isSrc);
      hide TakenPeer, ByExternal, Helpful, Oriented, Needed;
      forall p ensures p in left <==> p in all && !TakenPeer(m, done + {k}, isSrc, p) {
        TakenPeerMore(m, done, k, isSrc, p);
      }
      forall p | p in all && p !in left ensures ByExternal(info, es', isSrc, p) {
        if p !in waiting { EmittedBy(info, es, es', isSrc, p); }
      }
    }

    lemma HelpfulExternal(m: map<set<Peer>, set<Peer>>, k: set<Peer>, isSrc: bool, start: set<BasePair>,
                          before: set<BasePair>, waiting: set<Pair>)
      requires Needed(m, waiting, isSrc) && k in m && Helpful(start, before, waiting)
      ensures Helpful(start, before + {OrientedElem(Peers(k), Peers(m[k]), isSrc)}, waiting)
    {
      OrientedPairs(info, Peers(k), Peers(m[k]), isSrc);
      hide PairsOf, Oriented;
    }

    method EmitAllExternal(m: map<set<Peer>, set<Peer>>, isSrc: bool, ghost allowed: set<Pair>)
      requires Stage(allowed) && PeerMapSound(info, covered, m, isSrc) && Needed(m, withoutNs, isSrc)
      modifies this`withoutNs, this`baseElemPairs
      ensures Stage(allowed)
      ensures ExternalTaken(m, m.Keys, isSrc, old(baseElemPairs), old(withoutNs), baseElemPairs, withoutNs)
    {
      var todo := m.Keys;
      ghost var done: set<set<Peer>> := {};
      while todo != {}
        invariant done + todo == m.Keys && Stage(allowed)
        invariant ExternalTaken(m, done, isSrc, old(baseElemPairs), old(withoutNs), baseElemPairs, withoutNs)
        decreases todo
      {
        hide *;
        var k :| k in todo;
        OneMore(m.Keys, done, todo, k);
        todo := todo - {k};
        ghost var before, waiting := baseElemPairs, withoutNs;
        EmitExternal(m, k, isSrc, allowed);
        ExternalTakenMore(m, done, isSrc, old(baseElemPairs), old(withoutNs), before, waiting, k);
        done := done + {k};
      }
      assert done == m.Keys;
    }

    /** _compute_basic_grouping. `base` is what was covered before the namespace stage. */
    method BasicGrouping(containing: set<Pair>, peerCount: nat) returns (ghost base: set<Pair>)
      requires nsSetPairs == {} && baseElemPairs == {} && withoutNs == {}
      requires WellKeyed(info) && KnowsPairs(info, peerProps + containing)
      modifies this`covered, this`nsSetPairs, this`baseElemPairs, this`withoutNs
      ensures base == Base(peerProps, containing, peerCount)
      ensures peerProps + containing <= base <= Allowed(peerProps, containing) && Stage(base)
      ensures forall a, b :: Relates(nsSetPairs, a, b) <==> WholePair(info, base, peerProps, a, b)
      ensures forall p :: p in peerProps && !WholeNs(info, base, p) ==>
                            FirstSays(info, covered, SrcNamespaces(base), SrcNamespaces(Swap(base)), baseElemPairs, p)
      ensures forall e :: e in baseElemPairs ==> PairsOf(info, e) * peerProps != {}
      ensures forall p :: p in covered <==> p in base && !WholeNs(info, base, p)
      ensures forall p :: p in withoutNs <==> p in peerProps && Leftover(info, base, covered, p)
    {
      ComputeCovered(containing, peerCount);
      base := covered;
      assert KnowsPairs(info, covered);
      hide PeersIn, SelfPairs, WellKeyed, KnowsPairs, NsGrouped, StillWaits;
      var srcNs, dstNs := SrcNamespaces(covered), SrcNamespaces(Swap(covered));
      NamespaceStage();
      NsGroupedGrouped(info, base, peerProps, nsSetPairs, withoutNs, covered);
      assert nsSetPairs + baseElemPairs == nsSetPairs;
      hide Stage, Grouped, WholeNs, Allowed, AllNamespaces, Emitted, SrcNamespaces, FirstSays, WholePair, Relates;
      ghost var waiting := withoutNs;
      hide PairsOf, Helpful;
      PartialStages(srcNs, dstNs, base);
      HelpfulToAll(baseElemPairs, waiting);
    }

    lemma HelpfulToAll(es: set<BasePair>, waiting: set<Pair>)
      requires Helpful({}, es, waiting) && waiting <= peerProps
      ensures forall e :: e in es ==> PairsOf(info, e) * peerProps != {}
    {
      hide PairsOf;
      forall e | e in es ensures PairsOf(info, e) * peerProps != {} {
        assert e in es - {};
        var p :| p in PairsOf(info, e) * waiting;
        assert p in PairsOf(info, e) * peerProps;
      }
    }

    method PartialStages(srcNs: set<Namespace>, dstNs: set<Namespace>, ghost base: set<Pair>)
      requires Stage(base)
      modifies this`baseElemPairs, this`withoutNs
      ensures Stage(base)
      ensures forall p :: p in withoutNs <==> p in old(withoutNs) && StillWaits(info, covered, srcNs, dstNs, p)
      ensures forall p :: p in old(withoutNs) ==> FirstSays(info, covered, srcNs, dstNs, baseElemPairs, p)
      ensures Helpful(old(baseElemPairs), baseElemPairs, old(withoutNs))
    {
      hide Stage, WithNamespace, WithExternal, ByNamespaces, ByExternal, Helpful;
      ghost var start, all := baseElemPairs, withoutNs;
      PartialNsGrouping(dstNs, false, base);
      ghost var es, waiting := baseElemPairs, withoutNs;
      if withoutNs != {} { PartialNsGrouping(srcNs, true, base); }
      NextStage(start, es, baseElemPairs, all, waiting);
      es, waiting := baseElemPairs, withoutNs;
      if withoutNs != {} { FullIpBlockAndDnsGrouping(false, base); }
      NextStage(start, es, baseElemPairs, all, waiting);
      es, waiting := baseElemPairs, withoutNs;
      if withoutNs != {} { FullIpBlockAndDnsGrouping(true, base); }
      NextStage(start, es, baseElemPairs, all, waiting);
    }

    /** A further stage, if it was needed. */
    lemma NextStage(start: set<BasePair>, before: set<BasePair>, after: set<BasePair>, all: set<Pair>,
                    waiting: set<Pair>)
      requires Helpful(start, before, all) && waiting <= all
      requires before == after || Helpful(before, after, waiting)
      ensures Helpful(start, after, all)
      ensures forall p, isSrc :: ByNamespaces(info, before, isSrc, p) ==> ByNamespaces(info, after, isSrc, p)
      ensures forall p, isSrc :: ByExternal(info, before, isSrc, p) ==> ByExternal(info, after, isSrc, p)
    {
      if before != after { HelpfulMore(start, before, after, all, waiting); }
      StillBy(before, after, waiting, true);
      StillBy(before, after, waiting, false);
    }

    /** _create_fw_rules_from_base_elements */
    method RulesFromElements(src: BaseElem, dst: BaseElem) returns (rules: seq<Rule>)
      requires WellKeyed(info) && Usual(info, src) && Usual(info, dst)
      ensures forall p :: Allows(info, rules, p) <==> p in PairsOf(info, (src, dst))
      ensures Says(info, single, src, dst, rules)
    {
      var srcElems := ElementsOf(info, src, single);
      var dstElems := ElementsOf(info, dst, single);
      hide ElementsFor;
      rules := RulesOf(info, srcElems, dstElems);
      ProductSays(info, single, src, dst, srcElems, dstElems, rules);
    }

    /** _create_fw_rules_from_base_elements_list */
    method RulesFromPairs(es: set<BasePair>) returns (rules: seq<Rule>)
      requires WellKeyed(info) && forall e :: e in es ==> Usual(info, e.0) && Usual(info, e.1)
      ensures forall p :: Allows(info, rules, p) <==> Emitted(info, es, p)
      ensures forall e :: e in es ==> Says(info, single, e.0, e.1, rules)
    {
      var todo := es;
      ghost var done := {};
      rules := [];
      while todo != {}
        invariant done + todo == es
        invariant forall p :: Allows(info, rules, p) <==> Emitted(info, done, p)
        invariant forall e :: e in done ==> Says(info, single, e.0, e.1, rules)
        decreases todo
      {
        hide WellKeyed, Usual, PairsOf, Allows, Emitted, Says;
        var e :| e in todo;
        todo := todo - {e};
        var more := RulesFromElements(e.0, e.1);
        forall p ensures Allows(info, rules + more, p) <==> Emitted(info, done + {e}, p) {
          AllowsConcat(info, rules, more, p);
          EmittedMore(info, done, e, p);
          assert e == (e.0, e.1);
        }
        forall x | x in done { SaysConcat(info, single, x.0, x.1, rules, more); }
        SaysConcat(info, single, e.0, e.1, rules, more);
        rules := rules + more;
        done := done + {e};
      }
      assert done == es;
    }

    /** _create_fw_rules_from_peer_props_aux */
    method RulesFromCubes(cubes: seq<Cube>, ghost pairs: set<Pair>) returns (rules: seq<Rule>)
      requires WellKeyed(info) && CubeList(cubes, pairs) && KnowsPairs(info, pairs)
      ensures forall p :: Allows(info, rules, p) <==> p in pairs
      ensures CubesSaid(info, single, cubes, rules)
    {
      rules := [];
      for i := 0 to |cubes|
        invariant forall p :: Allows(info, rules, p) <==> InSome(cubes[..i], p)
        invariant CubesSaid(info, single, cubes[..i], rules)
      {
        hide WellKeyed, CubeList, KnowsPairs, Allows, PairsOf, Says;
        CubeKnown(info, pairs, cubes, i, true);
        CubeKnown(info, pairs, cubes, i, false);
        var more := RulesFromElements(Peers(cubes[i].src), Peers(cubes[i].dst));
        forall p ensures Allows(info, rules + more, p) <==> InSome(cubes[..i + 1], p) {
          AllowsConcat(info, rules, more, p);
          InSomeMore(cubes, i, p);
          CubePairs(info, cubes[i], p);
        }
        CubesSaidMore(info, single, cubes, i, rules, more);
        rules := rules + more;
      }
      assert cubes[..|cubes|] == cubes;
      forall p { InSomeCube(cubes, pairs, p); }
    }

    /** The rules of one more group of cubes. */
    method AddRules(cubes: seq<Cube>, ghost pairs: set<Pair>, rules: seq<Rule>, ghost earlier: seq<Cube>,
                    ghost done: set<Pair>)
      returns (all: seq<Rule>)
      requires WellKeyed(info) && CubeList(cubes, pairs) && KnowsPairs(info, pairs)
      requires CubesSaid(info, single, earlier, rules) && RulesFor(info, rules, done)
      ensures CubesSaid(info, single, earlier + cubes, all) && RulesFor(info, all, done + pairs)
    {
      hide *;
      var more := RulesFromCubes(cubes, pairs);
      all := rules + more;
      RulesForMore(info, rules, more, done, pairs);
      CubesSaidConcat(info, single, earlier, rules, more);
      CubesSaidConcat(info, single, cubes, rules, more);
      CubesSaidBoth(info, single, earlier, cubes, all);
    }

    /** The rules of the pairs with an IP block on one side, if there are any, by the peers of the other side. */
    method AddressRules(pairs: set<Pair>, isSrc: bool, rules: seq<Rule>, ghost earlier: seq<Cube>,
                        ghost done: set<Pair>)
      returns (all: seq<Rule>, ghost cubes: seq<Cube>)
      requires WellKeyed(info) && KnowsPairs(info, pairs)
      requires CubesSaid(info, single, earlier, rules) && RulesFor(info, rules, done)
      ensures Rows(cubes, pairs, isSrc)
      ensures CubesSaid(info, single, earlier + cubes, all) && RulesFor(info, all, done + pairs)
    {
      NoCubes(info, single);
      NothingMore(done);
      hide *;
      if pairs == {} {
        assert earlier + [] == earlier;
        return rules, [];
      }
      var found;
      if isSrc { found := CubesByTarget(pairs); } else { found := CubesBySource(pairs); }
      RowsCover(found, pairs, isSrc);
      all := AddRules(found, pairs, rules, earlier, done);
      cubes := found;
    }

    /** _create_fw_rules_from_peer_props: pairs with IP blocks first. The waiting pairs are consumed on the way. */
    method RulesFromPeerProps() returns (rules: seq<Rule>)
      requires WellKeyed(info) && KnowsPairs(info, withoutNs)
      modifies this`withoutNs
      ensures forall p :: Allows(info, rules, p) <==> p in old(withoutNs)
      ensures RestSaid(info, single, old(withoutNs), rules)
    {
      ghost var start := withoutNs;
      KnownParts(start);
      AddressesWithin(start);
      NoCubes(info, single);
      var srcIps := SrcAddresses(withoutNs);
      withoutNs := withoutNs - srcIps;
      var dstIps := DstAddresses(withoutNs);
      withoutNs := withoutNs - dstIps;
      ThreeParts(start, srcIps, dstIps);
      NothingMore(srcIps + dstIps);
      hide *;
      ghost var srcCubes, dstCubes, cubes;
      rules, srcCubes := AddressRules(srcIps, true, [], [], {});
      NothingMore(srcIps);
      assert [] + srcCubes == srcCubes;
      rules, dstCubes := AddressRules(dstIps, false, rules, srcCubes, srcIps);
      rules, cubes := OtherRules(withoutNs, rules, srcCubes + dstCubes, srcIps + dstIps);
      RulesForEach(info, rules, start);
      RestSaidBy(info, single, start, srcCubes, dstCubes, cubes, rules);
    }

    /** The rules of the rest of the peers, if any are left. */
    method OtherRules(pairs: set<Pair>, rules: seq<Rule>, ghost earlier: seq<Cube>, ghost done: set<Pair>)
      returns (all: seq<Rule>, ghost cubes: seq<Cube>)
      requires WellKeyed(info) && KnowsPairs(info, pairs)
      requires CubesSaid(info, single, earlier, rules) && RulesFor(info, rules, done)
      ensures FewestCubes(cubes, pairs)
      ensures CubesSaid(info, single, earlier + cubes, all) && RulesFor(info, all, done + pairs)
    {
      NoCubesFewest();
      NothingMore(done);
      hide *;
      if pairs == {} {
        assert earlier + [] == earlier;
        return rules, [];
      }
      var found := MinimizedCubes(pairs);
      all := AddRules(found, pairs, rules, earlier, done);
      cubes := found;
    }

    lemma KnownParts(pairs: set<Pair>)
      requires KnowsPairs(info, pairs)
      ensures forall part :: part <= pairs ==> KnowsPairs(info, part)
      ensures SrcAddresses(pairs) <= pairs && DstAddresses(pairs - SrcAddresses(pairs)) <= pairs
    {
    }

    /** compute_minimized_fw_rules_per_prop: the rules allow every pair of the connections at hand, and nothing but
        those, pairs of containing connections, and a pod with itself; and they are compact. */
    method Compute(props: set<Pair>, containing: set<Pair>, peerCount: nat) returns (rules: seq<Rule>)
      requires WellKeyed(info) && KnowsPairs(info, props + containing)
      modifies this
      ensures forall p :: p in props ==> Allows(info, rules, p)
      ensures forall p :: Allows(info, rules, p) ==> p in Allowed(props, containing)
      ensures Compact(info, single, props, Base(props, containing, peerCount), rules)
    {
      peerProps, nsSetPairs, baseElemPairs, withoutNs, covered := props, {}, {}, {}, {};
      ghost var base := BasicGrouping(containing, peerCount);
      ghost var waiting := withoutNs;
      ghost var es := nsSetPairs + baseElemPairs;
      hide WellKeyed, Stage, Grouped, Sound, KnowsPairs, Emitted, Allows, Allowed, Usual, Base, Relates, WholePair;
      hide FirstSays, WholeNs, Leftover, Says, RestSaid, PairsOf, Compact, SrcNamespaces;
      var whole := RulesFromPairs(nsSetPairs);
      var rest := RulesFromPeerProps();
      var based := RulesFromPairs(baseElemPairs);
      rules := whole + rest + based;
      forall p ensures Allows(info, rules, p) <==> Emitted(info, es, p) || p in waiting {
        AllowsConcat(info, whole + rest, based, p);
        AllowsConcat(info, whole, rest, p);
      }
      IsCompact(info, single, props, base, covered, nsSetPairs, baseElemPairs, waiting, whole, rest, based);
    }
  }

  ghost predicate InSome(cubes: seq<Cube>, p: Pair) { exists i :: 0 <= i < |cubes| && p in cubes[i].Pairs() }

  lemma InSomeMore(cubes: seq<Cube>, i: nat, p: Pair)
    requires i < |cubes|
    ensures InSome(cubes[..i + 1], p) <==> InSome(cubes[..i], p) || p in cubes[i].Pairs()
  {
    hide Cube.Pairs;
    var next := cubes[..i + 1];
    assert next == cubes[..i] + [cubes[i]];
    if p in cubes[i].Pairs() { assert next[i] == cubes[i]; }
    if InSome(cubes[..i], p) {
      var j :| 0 <= j < i && p in cubes[..i][j].Pairs();
      assert next[j] == cubes[..i][j];
    }
    if InSome(next, p) {
      var j :| 0 <= j < i + 1 && p in next[j].Pairs();
      assert j < i ==> cubes[..i][j] == next[j];
    }
  }

  lemma CubePairs(info: ClusterInfo, c: Cube, p: Pair)
    ensures p in PairsOf(info, (Peers(c.src), Peers(c.dst))) <==> p in c.Pairs()
  {
  }

  lemma InSomeCube(cubes: seq<Cube>, pairs: set<Pair>, p: Pair)
    requires CubeList(cubes, pairs)
    ensures InSome(cubes, p) <==> p in pairs
  {
    hide Cube.Pairs;
  }
}
