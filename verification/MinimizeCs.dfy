/** Minimizing the rules of one set of connections: what every stage keeps, and the stage that groups whole namespaces.
    Sets of (source, destination) pairs are the peer parts of hyper-cube sets; the operators on them are exact, as the
    module HyperCube shows. */
module MinimizeCs {
  import opened Peers
  import opened FWRules
  import opened LabelGrouping
  import opened PairGrouping

  const AUTO_CONNECTIONS_LIMIT := 500

  type BasePair = (BaseElem, BaseElem)

  function PairsOf(info: ClusterInfo, e: BasePair): set<Pair> {
    Product(BasePeers(info, e.0), BasePeers(info, e.1))
  }

  function NsProduct(info: ClusterInfo, src: Namespace, dst: Namespace): set<Pair> {
    Product(info.NsPods(src), info.NsPods(dst))
  }

  /** The product with `dim` on the source side or on the destination side. */
  function Oriented(dim: set<Peer>, other: set<Peer>, isSrc: bool): set<Pair> {
    if isSrc then Product(dim, other) else Product(other, dim)
  }

  function OrientedElem(dim: BaseElem, other: BaseElem, isSrc: bool): BasePair {
    if isSrc then (dim, other) else (other, dim)
  }

  function AllAddresses(version: int): set<Peer> {
    set n | 0 <= n < (if version == 4 then 0x1_0000_0000 else 0x1_0000_0000_0000_0000_0000_0000_0000_0000) ::
      Address(version, n)
  }

  predicate IsFullIpBlock(ips: set<Peer>) {
    ips == AllAddresses(4) + AllAddresses(6) || ips == AllAddresses(4) || ips == AllAddresses(6)
  }

  ghost predicate Emitted(info: ClusterInfo, es: set<BasePair>, p: Pair) {
    exists e :: e in es && p in PairsOf(info, e)
  }

  /** The element can be turned into rule elements. */
  ghost predicate Usual(info: ClusterInfo, b: BaseElem) { b.Peers? ==> info.KnowsAll(b.peers) }

  ghost predicate KnowsPairs(info: ClusterInfo, ps: set<Pair>) {
    forall p :: p in ps ==> info.Knows(p.0) && info.Knows(p.1)
  }

  ghost predicate Sound(info: ClusterInfo, allowed: set<Pair>, es: set<BasePair>) {
    forall e :: e in es ==> PairsOf(info, e) <= allowed && Usual(info, e.0) && Usual(info, e.1)
  }

  /** Nothing that was emitted still waits. */
  ghost predicate Settled(info: ClusterInfo, es: set<BasePair>, withoutNs: set<Pair>) {
    forall e :: e in es ==> PairsOf(info, e) !! withoutNs
  }

  /** What every stage keeps: nothing outside `allowed` is emitted, and each pair is emitted or else still waits in
      `withoutNs`. */
  ghost predicate Grouped(info: ClusterInfo, allowed: set<Pair>, peerProps: set<Pair>, es: set<BasePair>,
                          withoutNs: set<Pair>, covered: set<Pair>) {
    && covered <= allowed && withoutNs <= peerProps && withoutNs <= covered && KnowsPairs(info, allowed)
    && Sound(info, allowed, es) && Settled(info, es, withoutNs)
    && forall p :: p in peerProps ==> p in withoutNs || Emitted(info, es, p)
  }

  lemma EmittedMore(info: ClusterInfo, es: set<BasePair>, e: BasePair, p: Pair)
    ensures Emitted(info, es + {e}, p) <==> Emitted(info, es, p) || p in PairsOf(info, e)
  {
    assert e in es + {e};
  }

  lemma Emit(info: ClusterInfo, allowed: set<Pair>, peerProps: set<Pair>, es: set<BasePair>, withoutNs: set<Pair>,
             covered: set<Pair>, e: BasePair)
    requires Grouped(info, allowed, peerProps, es, withoutNs, covered)
    requires PairsOf(info, e) <= allowed && Usual(info, e.0) && Usual(info, e.1)
    ensures Grouped(info, allowed, peerProps, es + {e}, withoutNs - PairsOf(info, e), covered)
  {
    hide PairsOf, Emitted, Usual;
    forall p { EmittedMore(info, es, e, p); }
  }

  // ----- pairs of whole namespaces -----

  type NsPair = (Namespace, Namespace)

  function NsKey(p: Pair): NsPair { (NamespaceOf(p.0), NamespaceOf(p.1)) }

  predicate InNs(info: ClusterInfo, p: Pair) { p in NsProduct(info, NamespaceOf(p.0), NamespaceOf(p.1)) }

  /** All pairs of the two namespaces are covered. */
  predicate Whole(info: ClusterInfo, base: set<Pair>, k: NsPair) { NsProduct(info, k.0, k.1) <= base }

  /** The state after the pairs of namespaces in `done` have been looked at, starting from `base` as covered. */
  ghost predicate Scanned(info: ClusterInfo, base: set<Pair>, peerProps: set<Pair>, done: set<NsPair>,
                          m: map<Namespace, set<Namespace>>, withoutNs: set<Pair>, covered: set<Pair>) {
    && (forall p :: p in withoutNs <==>
                      p in peerProps && InNs(info, p) && NsKey(p) in done && !Whole(info, base, NsKey(p)))
    && (forall p :: p in covered <==> p in base && !(InNs(info, p) && NsKey(p) in done && Whole(info, base, NsKey(p))))
    && (forall a, b :: b in Entry(m, a) <==>
                       (a, b) in done && Whole(info, base, (a, b)) && NsProduct(info, a, b) * peerProps != {})
  }

  lemma KeyOf(info: ClusterInfo, src: Namespace, dst: Namespace, p: Pair)
    requires WellKeyed(info)
    ensures p in NsProduct(info, src, dst) <==> InNs(info, p) && NsKey(p) == (src, dst)
  {
  }

  /** Other pairs of namespaces took nothing from this product. */
  lemma StillWhole(info: ClusterInfo, base: set<Pair>, peerProps: set<Pair>, done: set<NsPair>,
                   m: map<Namespace, set<Namespace>>, withoutNs: set<Pair>, covered: set<Pair>,
                   src: Namespace, dst: Namespace)
    requires WellKeyed(info) && Scanned(info, base, peerProps, done, m, withoutNs, covered) && (src, dst) !in done
    ensures NsProduct(info, src, dst) <= covered <==> Whole(info, base, (src, dst))
  {
    forall p { KeyOf(info, src, dst, p); }
    hide NsProduct, InNs, NsKey;
  }

  lemma ScannedWhole(info: ClusterInfo, base: set<Pair>, peerProps: set<Pair>, done: set<NsPair>,
                     m: map<Namespace, set<Namespace>>, withoutNs: set<Pair>, covered: set<Pair>,
                     src: Namespace, dst: Namespace)
    requires WellKeyed(info) && Scanned(info, base, peerProps, done, m, withoutNs, covered) && (src, dst) !in done
    requires Whole(info, base, (src, dst))
    ensures Scanned(info, base, peerProps, done + {(src, dst)},
                    if NsProduct(info, src, dst) * peerProps != {} then m[src := Entry(m, src) + {dst}] else m,
                    withoutNs, covered - NsProduct(info, src, dst))
  {
    forall x { EntryUpdate(m, src, Entry(m, src) + {dst}, x); }
    forall p { KeyOf(info, src, dst, p); }
    hide NsProduct, InNs, NsKey, Whole;
  }

  lemma ScannedPart(info: ClusterInfo, base: set<Pair>, peerProps: set<Pair>, done: set<NsPair>,
                    m: map<Namespace, set<Namespace>>, withoutNs: set<Pair>, covered: set<Pair>,
                    src: Namespace, dst: Namespace)
    requires WellKeyed(info) && Scanned(info, base, peerProps, done, m, withoutNs, covered) && (src, dst) !in done
    requires !Whole(info, base, (src, dst))
    ensures Scanned(info, base, peerProps, done + {(src, dst)}, m, withoutNs + NsProduct(info, src, dst) * peerProps,
                    covered)
  {
    forall p { KeyOf(info, src, dst, p); }
    hide NsProduct, InNs, NsKey, Whole;
  }

  ghost predicate Relates(es: set<BasePair>, a: Namespace, b: Namespace) {
    exists e :: e in es && e.0.Namespaces? && e.1.Namespaces? && a in e.0.nss && b in e.1.nss
  }

  lemma RelatesMore(es: set<BasePair>, src: set<Namespace>, dst: set<Namespace>, a: Namespace, b: Namespace)
    ensures Relates(es + {(Namespaces(src), Namespaces(dst))}, a, b) <==> Relates(es, a, b) || (a in src && b in dst)
  {
    assert (Namespaces(src), Namespaces(dst)) in es + {(Namespaces(src), Namespaces(dst))};
  }

  ghost predicate AllNamespaces(es: set<BasePair>) { forall e :: e in es ==> e.0.Namespaces? && e.1.Namespaces? }

  /** One pair of sets for every entry; `flip`: the keys are sets of sources. */
  method PairsFrom(grouped: map<set<Namespace>, set<Namespace>>, flip: bool) returns (es: set<BasePair>)
    ensures AllNamespaces(es) && |es| == |grouped|
    ensures forall a, b :: Relates(es, a, b) <==>
                           exists k :: k in grouped &&
                                       (if flip then a in k && b in grouped[k] else b in k && a in grouped[k])
  {
    var todo := grouped.Keys;
    es := {};
    while todo != {}
      invariant todo <= grouped.Keys && AllNamespaces(es) && |es| + |todo| == |grouped.Keys|
      invariant forall e :: e in es ==> SideOf(e, flip) !in todo
      invariant forall a, b :: Relates(es, a, b) <==>
                               exists k :: k in grouped.Keys - todo &&
                                           (if flip then a in k && b in grouped[k] else b in k && a in grouped[k])
      decreases todo
    {
      var k :| k in todo;
      todo := todo - {k};
      var src, dst := if flip then k else grouped[k], if flip then grouped[k] else k;
      forall a, b { RelatesMore(es, src, dst, a, b); }
      assert SideOf((Namespaces(src), Namespaces(dst)), flip) == k;
      es := es + {(Namespaces(src), Namespaces(dst))};
    }
  }

  function SideOf(e: BasePair, src: bool): set<Namespace> {
    if src then (if e.0.Namespaces? then e.0.nss else {}) else if e.1.Namespaces? then e.1.nss else {}
  }

  function Least(a: nat, b: nat): nat { if a <= b then a else b }

  /** Sources first or destinations first, whichever is more compact: both denote the pairs of the map. There are as
      many pairs of sets as different rows, or as different columns if these are fewer. */
  method PairNsSets(m: map<Namespace, set<Namespace>>, back: map<Namespace, set<Namespace>>) returns (es: set<BasePair>)
    requires Inverse(m, back)
    ensures AllNamespaces(es) && forall a, b :: Relates(es, a, b) <==> b in Entry(m, a)
    ensures |es| == Least(|m.Values|, |back.Values|)
  {
    var byDst := KeysByValue(m);
    var bySrc := KeysByValue(back);
    hide Relates, AllNamespaces;
    assert |byDst| == |byDst.Keys| && |bySrc| == |bySrc.Keys|;
    if |byDst| <= |bySrc| {
      es := PairsFrom(byDst, false);
      forall a, b ensures Relates(es, a, b) <==> b in Entry(m, a) { ByDstDenotes(m, byDst, a, b); }
    } else {
      es := PairsFrom(bySrc, true);
      forall a, b ensures Relates(es, a, b) <==> b in Entry(m, a) {
        ByDstDenotes(back, bySrc, b, a);
        assert b in Entry(m, a) <==> a in Entry(back, b);
      }
    }
  }

  lemma ByDstDenotes(m: map<Namespace, set<Namespace>>, grouped: map<set<Namespace>, set<Namespace>>,
                     a: Namespace, b: Namespace)
    requires forall v, x :: x in Entry(grouped, v) <==> x in m && m[x] == v
    ensures (exists k :: k in grouped && b in k && a in grouped[k]) <==> b in Entry(m, a)
  {
    if b in Entry(m, a) {
      assert a in Entry(grouped, m[a]);
    }
    if k :| k in grouped && b in k && a in grouped[k] {
      assert a in Entry(grouped, k);
    }
  }

  lemma NsPairsOf(info: ClusterInfo, src: set<Namespace>, dst: set<Namespace>, p: Pair)
    ensures p in PairsOf(info, (Namespaces(src), Namespaces(dst))) <==>
            exists a, b :: a in src && b in dst && p in NsProduct(info, a, b)
  {
    if p in PairsOf(info, (Namespaces(src), Namespaces(dst))) {
      var a :| a in src && p.0 in info.NsPods(a);
      var b :| b in dst && p.1 in info.NsPods(b);
      assert p in NsProduct(info, a, b);
    }
  }

  /** What the sets of namespaces that were put together stand for. */
  lemma NsSetsDenote(info: ClusterInfo, m: map<Namespace, set<Namespace>>, es: set<BasePair>, p: Pair)
    requires WellKeyed(info) && AllNamespaces(es) && forall a, b :: Relates(es, a, b) <==> b in Entry(m, a)
    ensures Emitted(info, es, p) <==> InNs(info, p) && NsKey(p).1 in Entry(m, NsKey(p).0)
  {
    if Emitted(info, es, p) {
      var e :| e in es && p in PairsOf(info, e);
      assert e == (Namespaces(e.0.nss), Namespaces(e.1.nss));
      NsPairsOf(info, e.0.nss, e.1.nss, p);
      var a, b :| a in e.0.nss && b in e.1.nss && p in NsProduct(info, a, b);
      KeyOf(info, a, b, p);
      assert Relates(es, a, b);
    }
    if InNs(info, p) && NsKey(p).1 in Entry(m, NsKey(p).0) {
      var a, b := NsKey(p).0, NsKey(p).1;
      assert Relates(es, a, b);
      var e :| e in es && e.0.Namespaces? && e.1.Namespaces? && a in e.0.nss && b in e.1.nss;
      KeyOf(info, a, b, p);
      NsPairsOf(info, e.0.nss, e.1.nss, p);
    }
  }

  /** A pair of pods whose namespaces are covered as a whole. */
  predicate WholeNs(info: ClusterInfo, base: set<Pair>, p: Pair) {
    p.0.Pod? && p.1.Pod? && Whole(info, base, NsKey(p))
  }

  /** The result of the namespace stage: exactly the pairs of whole namespaces are emitted and no longer covered. */
  ghost predicate NsGrouped(info: ClusterInfo, base: set<Pair>, peerProps: set<Pair>, es: set<BasePair>,
                            withoutNs: set<Pair>, covered: set<Pair>) {
    && (forall p :: p in withoutNs <==> p in peerProps && !WholeNs(info, base, p))
    && (forall p :: p in covered <==> p in base && !WholeNs(info, base, p))
    && (forall p :: Emitted(info, es, p) ==> p in base && WholeNs(info, base, p))
    && (forall p :: p in peerProps && WholeNs(info, base, p) ==> Emitted(info, es, p))
  }

  lemma NsGroupedGrouped(info: ClusterInfo, base: set<Pair>, peerProps: set<Pair>, es: set<BasePair>,
                         withoutNs: set<Pair>, covered: set<Pair>)
    requires NsGrouped(info, base, peerProps, es, withoutNs, covered) && AllNamespaces(es)
    requires peerProps <= base && KnowsPairs(info, base)
    ensures Grouped(info, base, peerProps, es, withoutNs, covered)
  {
    hide WholeNs, PairsOf;
    forall e, p | e in es && p in PairsOf(info, e) ensures p in base && p !in withoutNs {
      assert Emitted(info, es, p);
    }
  }
}
