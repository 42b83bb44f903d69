/** The translation between sets of peers and interval sets of indices. */
module PeerIndices {
  import opened Wrappers
  import opened Intervals
  import opened IpAddresses
  import P = Peers

  const MAX_NUM_OF_PODS := 10000
  const MIN_POD_INDEX := MAX_IPV6_INDEX + GAP_WIDTH
  const MAX_POD_INDEX := MIN_POD_INDEX + MAX_NUM_OF_PODS - 1

  /** A set of peers as the source holds it: IP blocks, and the other peers. */
  datatype PeerSet = PeerSet(blocks: seq<IpSet>, others: set<P.Peer>)

  ghost predicate InBlocks(blocks: seq<IpSet>, i: int) {
    exists k :: 0 <= k < |blocks| && Has(Indices(blocks[k]), i)
  }

  ghost predicate OneVersion(block: IpSet, v: Version) {
    block != [] && forall i :: 0 <= i < |block| ==> block[i].start.version == v
  }

  /** The canonical form of the IP blocks of a set: none is empty, each has one version, and no two have the same. */
  ghost predicate CanonicalBlocks(blocks: seq<IpSet>) {
    && |blocks| <= 2
    && (forall k :: 0 <= k < |blocks| ==> OneVersion(blocks[k], V4) || OneVersion(blocks[k], V6))
    && (|blocks| == 2 ==> OneVersion(blocks[0], V4) && OneVersion(blocks[1], V6))
  }

  predicate IsIpv4Index(i: int) { MIN_IPV4_INDEX <= i <= MAX_IPV4_INDEX }

  predicate IsIpv6Index(i: int) { MIN_IPV6_INDEX <= i <= MAX_IPV6_INDEX }

  predicate IsPodIndex(i: int) { MIN_POD_INDEX <= i <= MAX_POD_INDEX }

  /** All indices are in one of the three regions. */
  ghost predicate InRegions(s: IntervalSet) {
    forall i :: Has(s, i) ==> IsIpv4Index(i) || IsIpv6Index(i) || IsPodIndex(i)
  }

  /** The gaps keep every interval within one region. */
  lemma OneRegion(s: IntervalSet, k: nat)
    requires InRegions(s) && k < |s|
    ensures || (IsIpv4Index(s[k].start) && IsIpv4Index(s[k].end))
            || (IsIpv6Index(s[k].start) && IsIpv6Index(s[k].end))
            || (IsPodIndex(s[k].start) && IsPodIndex(s[k].end))
  {
    forall i | s[k].Contains(i) ensures Has(s, i) {}
    assert s[k].Contains(s[k].start) && s[k].Contains(s[k].end);
    if IsIpv4Index(s[k].start) {
      assert !s[k].Contains(MAX_IPV4_INDEX + 1);
    } else if IsIpv6Index(s[k].start) {
      assert !s[k].Contains(MAX_IPV6_INDEX + 1);
    }
  }

  lemma InOneRegion(s: IntervalSet, k: nat)
    requires InRegions(s) && k < |s|
    ensures s[k].start <= s[k].end && Has(s, s[k].end)
    ensures s[k].end <= MAX_IPV4_INDEX ==> forall i :: s[k].Contains(i) ==> i <= MAX_IPV4_INDEX
    ensures MAX_IPV4_INDEX < s[k].end <= MAX_IPV6_INDEX ==>
              forall i :: s[k].Contains(i) ==> MAX_IPV4_INDEX < i <= MAX_IPV6_INDEX
    ensures s[k].end > MAX_IPV6_INDEX ==> forall i :: s[k].Contains(i) ==> i >= MIN_POD_INDEX
  {
    OneRegion(s, k);
    assert s[k].Contains(s[k].end);
  }

  class BasePeerSet {
    var orderedPeerList: seq<P.Peer>
    var peerToIndex: map<P.Peer, nat>

    /** The map is the inverse of the list, which holds no addresses. */
    ghost predicate Valid()
      reads this
    {
      && |orderedPeerList| <= MAX_NUM_OF_PODS
      && (forall p :: p in orderedPeerList ==> !p.Address?)
      && (forall p :: p in peerToIndex ==> peerToIndex[p] < |orderedPeerList| && orderedPeerList[peerToIndex[p]] == p)
      && (forall i :: 0 <= i < |orderedPeerList| ==>
                        orderedPeerList[i] in peerToIndex && peerToIndex[orderedPeerList[i]] == i)
    }

    constructor ()
      ensures Valid() && orderedPeerList == []
    { orderedPeerList, peerToIndex := [], map[]; }

    /** Registers a peer once, unless it is an address; the indices of the others stay. */
    method AddPeer(peer: P.Peer)
      requires Valid() && (peer.Address? || peer in peerToIndex || |orderedPeerList| < MAX_NUM_OF_PODS)
      modifies this
      ensures Valid() && (peer in peerToIndex <==> !peer.Address?)
      ensures orderedPeerList == old(orderedPeerList) + if peer.Address? || peer in old(peerToIndex) then [] else [peer]
      ensures forall p :: p in old(peerToIndex) ==> p in peerToIndex && peerToIndex[p] == old(peerToIndex)[p]
    {
      if !peer.Address? && peer !in peerToIndex {
        peerToIndex := peerToIndex[peer := |orderedPeerList|];
        orderedPeerList := orderedPeerList + [peer];
      }
    }

    ghost predicate Registered(others: set<P.Peer>)
      reads this
    {
      forall p :: p in others ==> p in peerToIndex
    }

    ghost predicate PodIndexOf(others: set<P.Peer>, i: int)
      reads this
    {
      0 <= i - MIN_POD_INDEX < |orderedPeerList| && orderedPeerList[i - MIN_POD_INDEX] in others
    }

    /** The index belongs to a peer of the set. */
    ghost predicate HasIndex(ps: PeerSet, i: int)
      reads this
    {
      InBlocks(ps.blocks, i) || PodIndexOf(ps.others, i)
    }

    method AddBlock(res: CanonicalIntervalSet, block: IpSet)
      modifies res
      ensures forall i :: Has(res.intervals, i) <==> Has(old(res.intervals), i) || Has(Indices(block), i)
    {
      ghost var n := Indices(block);
      for j := 0 to |block|
        invariant forall i :: Has(res.intervals, i) <==> Has(old(res.intervals), i) || Has(n[..j], i)
      {
        HasSnoc(n, j);
        assert block[j].Pure() && n[j] == block[j].Indices();
        hide Has;
        var cidr := block[j];
        if cidr.start.version.V4? {
          res.AddInterval(Interval(MIN_IPV4_INDEX + cidr.start.number, MIN_IPV4_INDEX + cidr.end.number));
        } else {
          res.AddInterval(Interval(MIN_IPV6_INDEX + cidr.start.number, MIN_IPV6_INDEX + cidr.end.number));
        }
      }
      assert n[..|n|] == n;
    }

    /** get_peer_interval_of: the indices of the peers and of the addresses. */
    method GetPeerIntervalOf(ps: PeerSet) returns (r: IntervalSet)
      requires Valid() && Registered(ps.others)
      ensures forall i :: Has(r, i) <==> HasIndex(ps, i)
    {
      var res := new CanonicalIntervalSet();
      for k := 0 to |ps.blocks|
        invariant fresh(res) && forall i :: Has(res.intervals, i) <==> InBlocks(ps.blocks[..k], i)
      {
        hide Has, InBlocks;
        AddBlock(res, ps.blocks[k]);
      }
      assert ps.blocks[..|ps.blocks|] == ps.blocks;
      var todo := ps.others;
      hide Has, InBlocks;
      while todo != {}
        invariant fresh(res) && todo <= ps.others
        invariant forall i :: Has(res.intervals, i) <==> InBlocks(ps.blocks, i) || PodIndexOf(ps.others - todo, i)
        decreases todo
      {
        var peer :| peer in todo;
        todo := todo - {peer};
        var index := MIN_POD_INDEX + peerToIndex[peer];
        res.AddInterval(Interval(index, index));
      }
      assert ps.others - todo == ps.others;
      r := res.intervals;
    }

    /** The list position that an index is read as: indices behind the last peer mean the last peer. */
    function Clamped(i: int): int
      reads this
    {
      if i - MIN_POD_INDEX <= |orderedPeerList| - 1 then i - MIN_POD_INDEX else |orderedPeerList| - 1
    }

    ghost predicate Named(s: seq<Interval>, p: P.Peer)
      reads this
    {
      orderedPeerList != [] && exists i :: Has(s, i) && i >= MIN_POD_INDEX && orderedPeerList[Clamped(i)] == p
    }

    /** The peers of one pod interval. */
    method PodsOf(interval: Interval) returns (pods: set<P.Peer>)
      requires interval.start <= interval.end && IsPodIndex(interval.start) && orderedPeerList != []
      ensures forall p :: p in pods <==> Named([interval], p)
    {
      pods := {};
      var last := |orderedPeerList| - 1;
      var from := if interval.start - MIN_POD_INDEX <= last then interval.start - MIN_POD_INDEX else last;
      var to := if interval.end - MIN_POD_INDEX <= last then interval.end - MIN_POD_INDEX else last;
      for ind := from to to + 1
        invariant forall p :: p in pods <==> exists k :: from <= k < ind && orderedPeerList[k] == p
      {
        pods := pods + {orderedPeerList[ind]};
      }
      HasOne(interval);
      forall p ensures p in pods <==> Named([interval], p) {
        if p in pods {
          var k :| from <= k <= to && orderedPeerList[k] == p;
          var i := if k == from then interval.start else k + MIN_POD_INDEX;
          assert Has([interval], i) && Clamped(i) == k;
        }
      }
    }

    lemma NamedMore(s: seq<Interval>, k: nat, p: P.Peer)
      requires k < |s|
      ensures Named(s[..k + 1], p) <==> Named(s[..k], p) || Named([s[k]], p)
    {
      HasSnoc(s, k);
      HasOne(s[k]);
      hide Has;
    }

    /** There is a pod index although no peer is registered. */
    ghost predicate NoSuchPeer(s: IntervalSet)
      reads this
    {
      orderedPeerList == [] && exists i :: Has(s, i) && i >= MIN_POD_INDEX
    }

    /** get_peer_set_by_indices: blocks in canonical form, and the peers the pod indices are read as. None is the index
        error when there is no last peer to read an index as. */
    method GetPeerSetByIndices(s: IntervalSet) returns (r: Option<PeerSet>)
      requires Valid() && InRegions(s)
      ensures r.None? <==> NoSuchPeer(s)
      ensures r.Some? ==> CanonicalBlocks(r.value.blocks)
      ensures r.Some? ==> forall i :: InBlocks(r.value.blocks, i) <==> Has(s, i) && i <= MAX_IPV6_INDEX
      ensures r.Some? ==> forall p :: p in r.value.others <==> Named(s, p)
    {
      var peers: set<P.Peer> := {};
      var ipv4block := new IpBlock();
      var ipv6block := new IpBlock();
      forall p ensures !Named(s[..0], p) {}
      for k := 0 to |s|
        invariant fresh(ipv4block) && fresh(ipv6block) && ipv4block != ipv6block
        invariant forall i :: Has(Indices(ipv4block.intervals), i) <==> Has(s[..k], i) && i <= MAX_IPV4_INDEX
        invariant forall i :: Has(Indices(ipv6block.intervals), i) <==>
                              Has(s[..k], i) && MAX_IPV4_INDEX < i <= MAX_IPV6_INDEX
        invariant forall p :: p in peers <==> Named(s[..k], p)
        invariant orderedPeerList == [] ==> forall i :: Has(s[..k], i) ==> i < MIN_POD_INDEX
      {
        OneRegion(s, k);
        InOneRegion(s, k);
        HasSnoc(s, k);
        forall p { NamedMore(s, k, p); }
        hide Has, Named, InRegions, Interval.Contains;
        var interval := s[k];
        if interval.end <= MAX_IPV4_INDEX {
          ipv4block.AddInterval(IpRange(V4, MIN_IPV4_INDEX, interval));
        } else if interval.end <= MAX_IPV6_INDEX {
          ipv6block.AddInterval(IpRange(V6, MIN_IPV6_INDEX, interval));
        } else {
          if orderedPeerList == [] { return None; }
          var pods := PodsOf(interval);
          peers := peers + pods;
        }
      }
      assert s[..|s|] == s;
      r := Some(PeerSet(NonEmpty(ipv4block.intervals) + NonEmpty(ipv6block.intervals), peers));
      hide Has, InBlocks, Named, CanonicalBlocks;
      TwoBlocks(ipv4block.intervals, ipv6block.intervals);
    }

    /** Blocks and registered peers come back: the same addresses, in canonical form, and the same peers. Blocks that
        are in canonical form come back as they are. */
    method PeersRoundTrip(ps: PeerSet) returns (back: PeerSet)
      requires Valid() && Registered(ps.others)
      ensures back.others == ps.others && CanonicalBlocks(back.blocks)
      ensures forall i :: InBlocks(back.blocks, i) <==> InBlocks(ps.blocks, i)
      ensures CanonicalBlocks(ps.blocks) ==> back == ps
    {
      var s := GetPeerIntervalOf(ps);
      forall i | Has(s, i) ensures IsIpv4Index(i) || IsIpv6Index(i) || (IsPodIndex(i) && orderedPeerList != []) {
        BlocksRegions(ps.blocks, i);
      }
      var r := GetPeerSetByIndices(s);
      back := r.value;
      forall i { BlocksRegions(ps.blocks, i); }
      hide Has, InBlocks, CanonicalBlocks;
      forall p ensures Named(s, p) <==> p in ps.others {
        if p in ps.others {
          assert Has(s, MIN_POD_INDEX + peerToIndex[p]) && Clamped(MIN_POD_INDEX + peerToIndex[p]) == peerToIndex[p];
        }
      }
      if CanonicalBlocks(ps.blocks) { BlocksUnique(back.blocks, ps.blocks); }
    }

    ghost predicate ClampedFrom(s: IntervalSet, i: int)
      reads this
    {
      exists j :: Has(s, j) && j >= MIN_POD_INDEX && i == MIN_POD_INDEX + Clamped(j)
    }

    lemma PodsComeBack(s: IntervalSet, others: set<P.Peer>, i: int)
      requires Valid() && !NoSuchPeer(s) && forall p :: p in others <==> Named(s, p)
      ensures PodIndexOf(others, i) <==> ClampedFrom(s, i)
    {
      hide Has;
      if PodIndexOf(others, i) {
        var p := orderedPeerList[i - MIN_POD_INDEX];
        assert Named(s, p);
        var j :| Has(s, j) && j >= MIN_POD_INDEX && orderedPeerList[Clamped(j)] == p;
        assert peerToIndex[p] == Clamped(j);
      }
      if ClampedFrom(s, i) {
        var j :| Has(s, j) && j >= MIN_POD_INDEX && i == MIN_POD_INDEX + Clamped(j);
        assert Named(s, orderedPeerList[Clamped(j)]);
      }
    }

    /** All pod indices belong to registered peers. */
    ghost predicate RegisteredIndices(s: IntervalSet)
      reads this
    {
      forall i :: Has(s, i) && i >= MIN_POD_INDEX ==> i - MIN_POD_INDEX < |orderedPeerList|
    }

    lemma SameWhenRegistered(s: IntervalSet, back: IntervalSet)
      requires InRegions(s) && !NoSuchPeer(s)
      requires forall i :: Has(back, i) <==> (i <= MAX_IPV6_INDEX && Has(s, i)) || ClampedFrom(s, i)
      ensures back == s <==> RegisteredIndices(s)
    {
      hide Has;
      if RegisteredIndices(s) {
        forall i ensures Has(back, i) <==> Has(s, i) {
          if Has(s, i) && i > MAX_IPV6_INDEX {
            assert IsPodIndex(i) && i == MIN_POD_INDEX + Clamped(i);
          }
        }
        Unique(back, s);
      } else {
        var i :| Has(s, i) && i >= MIN_POD_INDEX && i - MIN_POD_INDEX >= |orderedPeerList|;
        assert !ClampedFrom(s, i);
      }
    }

    /** Indices come back exactly when all pod indices are registered; others come back as the last peer, or are an
        error if there is none. */
    method IndicesRoundTrip(s: IntervalSet) returns (back: Option<IntervalSet>)
      requires Valid() && InRegions(s)
      ensures back == Some(s) <==> RegisteredIndices(s)
      ensures back.None? <==> NoSuchPeer(s)
      ensures back.Some? ==>
                forall i :: Has(back.value, i) <==> (i <= MAX_IPV6_INDEX && Has(s, i)) || ClampedFrom(s, i)
    {
      hide Has, Valid, InBlocks, ClampedFrom, PodIndexOf, Named, RegisteredIndices, InRegions, NoSuchPeer;
      var r := GetPeerSetByIndices(s);
      if r.None? {
        NoneRegistered(s);
        return None;
      }
      NamedRegistered(s, r.value.others);
      var indices := GetPeerIntervalOf(r.value);
      forall i { PodsComeBack(s, r.value.others, i); }
      SameWhenRegistered(s, indices);
      back := Some(indices);
    }

    lemma NoneRegistered(s: IntervalSet)
      requires NoSuchPeer(s)
      ensures !RegisteredIndices(s)
    {
      hide Has;
    }

    lemma NamedRegistered(s: IntervalSet, others: set<P.Peer>)
      requires Valid() && forall p :: p in others <==> Named(s, p)
      ensures Registered(others)
    {
      hide Has;
    }
  }

  /** The addresses of an interval of indices of one version. */
  function IpRange(v: Version, min: int, interval: Interval): (r: IpInterval)
    requires Address(v, interval.start - min).Valid() && Address(v, interval.end - min).Valid()
    ensures r.start.version == v && r.end.version == v
    ensures min == (if v.V4? then MIN_IPV4_INDEX else MIN_IPV6_INDEX) ==> r.Indices() == interval
  {
    IpInterval(Address(v, interval.start - min), Address(v, interval.end - min))
  }

  function NonEmpty(b: IpSet): seq<IpSet> { if b == [] then [] else [b] }

  /** Blocks without indices of the other version, in canonical form together. */
  lemma TwoBlocks(a: IpSet, b: IpSet)
    requires forall i :: Has(Indices(a), i) ==> i <= MAX_IPV4_INDEX
    requires forall i :: Has(Indices(b), i) ==> i > MAX_IPV4_INDEX
    ensures CanonicalBlocks(NonEmpty(a) + NonEmpty(b))
    ensures forall i :: InBlocks(NonEmpty(a) + NonEmpty(b), i) <==> Has(Indices(a), i) || Has(Indices(b), i)
  {
    VersionByIndex(a);
    VersionByIndex(b);
    hide Has, OneVersion;
    forall i { InEither(a, b, i); }
  }

  lemma InEither(a: IpSet, b: IpSet, i: int)
    ensures InBlocks(NonEmpty(a) + NonEmpty(b), i) <==> Has(Indices(a), i) || Has(Indices(b), i)
  {
    var bs := NonEmpty(a) + NonEmpty(b);
    if Has(Indices(a), i) { assert bs[0] == a; }
    if Has(Indices(b), i) { assert bs[|bs| - 1] == b; }
  }

  lemma BlocksRegions(blocks: seq<IpSet>, i: int)
    ensures InBlocks(blocks, i) ==> IsIpv4Index(i) || IsIpv6Index(i)
  {
    if InBlocks(blocks, i) {
      var k :| 0 <= k < |blocks| && Has(Indices(blocks[k]), i);
    }
  }

  // ----- blocks in canonical form -----

  lemma RangeIndex(s: IpSet, i: nat)
    requires i < |s|
    ensures Has(Indices(s), s[i].start.Index())
    ensures s[i].start.version.V4? <==> s[i].start.Index() <= MAX_IPV4_INDEX
  {
    assert Indices(s)[i].Contains(s[i].start.Index());
  }

  /** A block without IPv6 indices has version 4, and the other way round. */
  lemma VersionByIndex(b: IpSet)
    ensures b != [] && (forall i :: Has(Indices(b), i) ==> i <= MAX_IPV4_INDEX) ==> OneVersion(b, V4)
    ensures b != [] && (forall i :: Has(Indices(b), i) ==> i > MAX_IPV4_INDEX) ==> OneVersion(b, V6)
  {
    hide Has;
    forall i | 0 <= i < |b| { RangeIndex(b, i); }
  }

  /** The block of one version. */
  ghost function Part(blocks: seq<IpSet>, v: Version): IpSet {
    if blocks != [] && OneVersion(blocks[0], v) then blocks[0]
    else if |blocks| > 1 && OneVersion(blocks[1], v) then blocks[1]
    else []
  }

  lemma OneVersionIndex(b: IpSet, v: Version, i: int)
    requires OneVersion(b, v) && Has(Indices(b), i)
    ensures v.V4? <==> i <= MAX_IPV4_INDEX
  {
    var j :| 0 <= j < |b| && Indices(b)[j].Contains(i);
    assert b[j].Pure();
  }

  lemma VersionsDiffer(b: IpSet)
    requires OneVersion(b, V4) || OneVersion(b, V6)
    ensures b != [] && !(OneVersion(b, V4) && OneVersion(b, V6))
  {
    assert OneVersion(b, b[0].start.version);
  }

  /** Blocks in canonical form are the block of version 4, if any, and then that of version 6. */
  lemma PartsMake(blocks: seq<IpSet>)
    requires CanonicalBlocks(blocks)
    ensures blocks == NonEmpty(Part(blocks, V4)) + NonEmpty(Part(blocks, V6))
    ensures Part(blocks, V4) != [] ==> OneVersion(Part(blocks, V4), V4)
    ensures Part(blocks, V6) != [] ==> OneVersion(Part(blocks, V6), V6)
  {
    forall k | 0 <= k < |blocks| { VersionsDiffer(blocks[k]); }
    hide OneVersion;
  }

  lemma PartIndices(blocks: seq<IpSet>, v: Version, i: int)
    requires CanonicalBlocks(blocks)
    ensures Has(Indices(Part(blocks, v)), i) <==> InBlocks(blocks, i) && (v.V4? <==> i <= MAX_IPV4_INDEX)
  {
    PartsMake(blocks);
    var a, b := Part(blocks, V4), Part(blocks, V6);
    InEither(a, b, i);
    if Has(Indices(a), i) { OneVersionIndex(a, V4, i); }
    if Has(Indices(b), i) { OneVersionIndex(b, V6, i); }
  }

  lemma SameIndicesSameBlock(a: IpSet, b: IpSet)
    requires forall i :: Has(Indices(a), i) <==> Has(Indices(b), i)
    ensures a == b
  {
    Unique(Indices(a), Indices(b));
    hide Has, Canonical;
    forall k | 0 <= k < |a| ensures a[k] == b[k] {
      assert Indices(a)[k] == a[k].Indices() && Indices(b)[k] == b[k].Indices();
      OrderIsIndexOrder(a[k].start, b[k].start);
      OrderIsIndexOrder(a[k].end, b[k].end);
    }
  }

  /** Blocks in canonical form are determined by their addresses. */
  lemma BlocksUnique(a: seq<IpSet>, b: seq<IpSet>)
    requires CanonicalBlocks(a) && CanonicalBlocks(b) && forall i :: InBlocks(a, i) <==> InBlocks(b, i)
    ensures a == b
  {
    hide Has, InBlocks, CanonicalBlocks, Part, OneVersion;
    forall v: Version ensures Part(a, v) == Part(b, v) {
      forall i ensures Has(Indices(Part(a, v)), i) <==> Has(Indices(Part(b, v)), i) {
        PartIndices(a, v, i);
        PartIndices(b, v, i);
      }
      SameIndicesSameBlock(Part(a, v), Part(b, v));
    }
    PartsMake(a);
    PartsMake(b);
  }
}
