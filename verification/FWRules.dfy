/** Firewall rules and the peers they stand for. A rule has an element for its source and one for its destination:
    namespaces, label expressions, sets of peers, IP blocks or DNS entries. */
module FWRules {
  import opened Peers

  /** `nsDict`: the pods of each namespace; `labels`: the pods with a key and value; `values`: the values of a key in
      a namespace. A missing entry is an empty set. */
  datatype ClusterInfo = ClusterInfo(
    nsDict: map<Namespace, set<Peer>>,
    labels: map<(string, string), set<Peer>>,
    values: map<(string, Namespace), set<string>>,
    allowedLabels: set<string>)
  {
    function NsPods(ns: Namespace): set<Peer> { Entry(nsDict, ns) }

    function Labelled(key: string, value: string): set<Peer> {
      Entry(labels, (key, value))
    }

    function Values(key: string, ns: Namespace): set<string> {
      Entry(values, (key, ns))
    }

    /** The cluster knows the pod under its own namespace. */
    predicate Knows(p: Peer) { IsClusterEP(p) ==> p in NsPods(NamespaceOf(p)) }

    ghost predicate KnowsAll(ps: set<Peer>) { forall p :: p in ps ==> Knows(p) }
  }

  function Entry<K, V>(d: map<K, set<V>>, k: K): set<V> { if k in d then d[k] else {} }

  lemma EntryUpdate<K, V>(d: map<K, set<V>>, k: K, v: set<V>, x: K)
    ensures x == k ==> Entry(d[k := v], x) == v
    ensures x != k ==> Entry(d[k := v], x) == Entry(d, x)
  {
  }

  function NsSetPods(info: ClusterInfo, nss: set<Namespace>): (r: set<Peer>)
    ensures forall p :: p in r <==> exists ns :: ns in nss && p in info.NsPods(ns)
  {
    set ns, p | ns in nss && p in info.NsPods(ns) :: p
  }

  function LabelPods(info: ClusterInfo, key: string, values: set<string>, pods: set<Peer>): (r: set<Peer>)
    ensures forall p :: p in r <==> p in pods && exists v :: v in values && p in info.Labelled(key, v)
  {
    set v, p | v in values && p in info.Labelled(key, v) && p in pods :: p
  }

  datatype Element =
    | NsElement(nsInfo: set<Namespace>)
    | PodLabelsElement(key: string, values: set<string>, nsInfo: set<Namespace>)
    | PeerSetElement(peers: set<Peer>)
    | IPBlockElement(addresses: set<Peer>)
    | DNSElement(entry: Peer)
  {
    /** get_peer_set */
    function PeerSet(info: ClusterInfo): set<Peer> {
      match this
      case NsElement(nss) => NsSetPods(info, nss)
      case PodLabelsElement(k, vs, nss) => LabelPods(info, k, vs, NsSetPods(info, nss))
      case PeerSetElement(ps) => ps
      case IPBlockElement(a) => a
      case DNSElement(d) => {d}
    }
  }

  /** A rule for some connections, which are left to the caller. */
  datatype Rule = Rule(src: Element, dst: Element)

  ghost predicate Denotes(info: ClusterInfo, es: seq<Element>, p: Peer) {
    exists i :: 0 <= i < |es| && p in es[i].PeerSet(info)
  }

  ghost predicate Allows(info: ClusterInfo, rules: seq<Rule>, p: Pair) {
    exists i :: 0 <= i < |rules| && p.0 in rules[i].src.PeerSet(info) && p.1 in rules[i].dst.PeerSet(info)
  }

  lemma DenotesConcat(info: ClusterInfo, a: seq<Element>, b: seq<Element>, p: Peer)
    ensures Denotes(info, a + b, p) <==> Denotes(info, a, p) || Denotes(info, b, p)
  {
    if Denotes(info, a, p) {
      var i :| 0 <= i < |a| && p in a[i].PeerSet(info);
      assert (a + b)[i] == a[i];
    }
    if Denotes(info, b, p) {
      var i :| 0 <= i < |b| && p in b[i].PeerSet(info);
      assert (a + b)[|a| + i] == b[i];
    }
  }

  lemma DenotesOne(info: ClusterInfo, e: Element, p: Peer)
    ensures Denotes(info, [e], p) <==> p in e.PeerSet(info)
  {
    assert [e][0] == e;
  }

  lemma AllowsConcat(info: ClusterInfo, a: seq<Rule>, b: seq<Rule>, p: Pair)
    ensures Allows(info, a + b, p) <==> Allows(info, a, p) || Allows(info, b, p)
  {
    if Allows(info, a, p) {
      var i :| 0 <= i < |a| && p.0 in a[i].src.PeerSet(info) && p.1 in a[i].dst.PeerSet(info);
      assert (a + b)[i] == a[i];
    }
    if Allows(info, b, p) {
      var i :| 0 <= i < |b| && p.0 in b[i].src.PeerSet(info) && p.1 in b[i].dst.PeerSet(info);
      assert (a + b)[|a| + i] == b[i];
    }
  }

  /** The rules are those from a source element to a destination element. */
  ghost predicate ProductRules(src: seq<Element>, dst: seq<Element>, rules: seq<Rule>) {
    && (forall a, b :: a in src && b in dst ==> Rule(a, b) in rules)
    && (forall r :: r in rules ==> r.src in src && r.dst in dst)
  }

  /** One rule for every source element and every destination element. */
  method RulesOf(info: ClusterInfo, src: seq<Element>, dst: seq<Element>) returns (rules: seq<Rule>)
    ensures ProductRules(src, dst, rules)
    ensures forall p :: Allows(info, rules, p) <==> Denotes(info, src, p.0) && Denotes(info, dst, p.1)
  {
    rules := [];
    for i := 0 to |src|
      invariant ProductRules(src[..i], dst, rules)
    {
      var row := RulesFrom(src[i], dst);
      assert src[..i + 1] == src[..i] + [src[i]];
      rules := rules + row;
    }
    assert src[..|src|] == src;
    forall p { ProductAllows(info, src, dst, rules, p); }
  }

  lemma ProductAllows(info: ClusterInfo, src: seq<Element>, dst: seq<Element>, rules: seq<Rule>, p: Pair)
    requires ProductRules(src, dst, rules)
    ensures Allows(info, rules, p) <==> Denotes(info, src, p.0) && Denotes(info, dst, p.1)
  {
    hide Element.PeerSet;
    if Denotes(info, src, p.0) && Denotes(info, dst, p.1) {
      var i :| 0 <= i < |src| && p.0 in src[i].PeerSet(info);
      var j :| 0 <= j < |dst| && p.1 in dst[j].PeerSet(info);
      assert Rule(src[i], dst[j]) in rules;
    }
    if Allows(info, rules, p) {
      var i :| 0 <= i < |rules| && p.0 in rules[i].src.PeerSet(info) && p.1 in rules[i].dst.PeerSet(info);
      assert rules[i] in rules;
    }
  }

  method RulesFrom(src: Element, dst: seq<Element>) returns (rules: seq<Rule>)
    ensures |rules| == |dst| && forall j :: 0 <= j < |dst| ==> rules[j] == Rule(src, dst[j])
  {
    rules := [];
    for i := 0 to |dst|
      invariant |rules| == i && forall j :: 0 <= j < i ==> rules[j] == Rule(src, dst[j])
    {
      rules := rules + [Rule(src, dst[i])];
    }
  }
}
