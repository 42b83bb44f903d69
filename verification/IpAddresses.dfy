/** IP addresses, and interval sets over them. */
module IpAddresses {
  // Plus and minus saturate; all IPv4 addresses are below all IPv6 addresses. Every operation is shown to do what the
  // same operation does on integer indices, in which a gap separates the two versions.

  import opened Intervals

  const MAX_IPV4 := 0xffff_ffff
  const MAX_IPV6 := 0xffff_ffff_ffff_ffff_ffff_ffff_ffff_ffff
  const GAP_WIDTH := 5
  const MIN_IPV4_INDEX := 0
  const MAX_IPV4_INDEX := MIN_IPV4_INDEX + MAX_IPV4
  const MIN_IPV6_INDEX := MAX_IPV4_INDEX + GAP_WIDTH
  const MAX_IPV6_INDEX := MIN_IPV6_INDEX + MAX_IPV6

  datatype Version = V4 | V6

  datatype Address = Address(version: Version, number: int)
  {
    predicate Valid() { 0 <= number <= if version.V4? then MAX_IPV4 else MAX_IPV6 }

    predicate Lt(other: Address) {
      if version == other.version then number < other.number else version.V4?
    }

    predicate Le(other: Address) {
      if version == other.version then number <= other.number else version.V4?
    }

    /** Out of range, the address stays as it is. */
    function Plus(n: int): Address {
      var r := Address(version, number + n);
      if r.Valid() then r else this
    }

    function Index(): int { number + if version.V4? then MIN_IPV4_INDEX else MIN_IPV6_INDEX }
  }

  type IpAddress = a: Address | a.Valid() witness Address(V4, 0)

  lemma OrderIsIndexOrder(a: IpAddress, b: IpAddress)
    ensures a.Lt(b) <==> a.Index() < b.Index()
    ensures a.Le(b) <==> a.Index() <= b.Index()
    ensures a == b <==> a.Index() == b.Index()
  {
  }

  /** Saturating makes no difference to "lower without touching", "higher without touching" and "next to". */
  lemma SaturationHarmless(a: IpAddress, b: IpAddress)
    ensures a.Lt(b.Plus(-1)) <==> a.Index() < b.Index() - 1
    ensures b.Plus(1).Lt(a) <==> a.Index() > b.Index() + 1
    ensures b.Lt(a) ==> (a == b.Plus(1) <==> a.Index() == b.Index() + 1)
  {
  }

  function Min(a: IpAddress, b: IpAddress): IpAddress { if b.Lt(a) then b else a }

  function Max(a: IpAddress, b: IpAddress): IpAddress { if a.Lt(b) then b else a }

  datatype IpInterval = IpInterval(start: IpAddress, end: IpAddress)
  {
    /** A range of addresses of one version. */
    predicate Pure() { start.version == end.version && start.number <= end.number }

    function Indices(): Interval { Interval(start.Index(), end.Index()) }

    predicate Overlaps(other: IpInterval) { start.Le(other.end) && other.start.Le(end) }

    predicate Touches(other: IpInterval) {
      if other.end.Lt(start) then start == other.end.Plus(1)
      else if end.Lt(other.start) then other.start == end.Plus(1)
      else false
    }

    predicate IsSubset(other: IpInterval) { other.start.Le(start) && end.Le(other.end) }

    /** The `-` of two intervals. */
    function Sub(other: IpInterval): seq<IpInterval> {
      if !Overlaps(other) then [this]
      else if IsSubset(other) then []
      else if start.Lt(other.start) && other.end.Lt(end) then
        [IpInterval(start, other.start.Plus(-1)), IpInterval(other.end.Plus(1), end)]
      else if start.Lt(other.start) then [IpInterval(start, Min(end, other.start.Plus(-1)))]
      else [IpInterval(Max(start, other.end.Plus(1)), end)]
    }
  }

  function Indices(s: seq<IpInterval>): (r: seq<Interval>)
    ensures |r| == |s| && forall i :: 0 <= i < |s| ==> r[i] == s[i].Indices()
  {
    seq(|s|, i requires 0 <= i < |s| => s[i].Indices())
  }

  ghost predicate AllPure(s: seq<IpInterval>) { forall i :: 0 <= i < |s| ==> s[i].Pure() }

  /** The list of an IpBlock: ranges of one version each, sorted, none overlapping or touching. */
  ghost predicate CanonicalIp(s: seq<IpInterval>) { AllPure(s) && Canonical(Indices(s)) }

  type IpSet = s: seq<IpInterval> | CanonicalIp(s) witness []

  /** Ranges of different versions neither overlap nor touch. */
  lemma NeverAcrossVersions(a: IpInterval, b: IpInterval)
    requires a.Pure() && b.Pure() && a.start.version != b.start.version
    ensures !a.Overlaps(b) && !a.Touches(b)
  {
  }

  lemma SameRelations(a: IpInterval, b: IpInterval)
    ensures a.Overlaps(b) <==> a.Indices().Overlaps(b.Indices())
    ensures a.Touches(b) <==> a.Indices().Touches(b.Indices())
    ensures a.IsSubset(b) <==> a.Indices().IsSubset(b.Indices())
  {
  }

  lemma SameSub(a: IpInterval, b: IpInterval)
    requires a.Pure() && b.Pure()
    ensures Indices(a.Sub(b)) == a.Indices().Sub(b.Indices()) && AllPure(a.Sub(b))
  {
    SameRelations(a, b);
    hide Has, Canonical;
  }

  lemma Ascending(s: IpSet)
    ensures forall i, j :: 0 <= i <= j < |s| ==> s[i].end.Le(s[j].end) && s[i].start.Le(s[j].start)
  {
    forall i, j | 0 <= i <= j < |s| ensures s[i].end.Le(s[j].end) && s[i].start.Le(s[j].start) {
      assert Indices(s)[i] == s[i].Indices() && Indices(s)[j] == s[j].Indices();
    }
  }

  lemma IndicesConcat(a: seq<IpInterval>, b: seq<IpInterval>)
    ensures Indices(a + b) == Indices(a) + Indices(b)
  {
  }

  /** The list update of add_interval over addresses. */
  function AddAtIp(s: seq<IpInterval>, left: int, right: int, toAdd: IpInterval): seq<IpInterval>
    requires -1 <= left < |s| && -1 <= right < |s| && left + 1 <= if right >= 0 then right else |s|
  {
    if left >= 0 && right >= 0 && right - left == 1 then s[..left + 1] + [toAdd] + s[left + 1..]
    else if left == -1 && right == 0 then [] + [toAdd] + s
    else if right == -1 && left == |s| - 1 then s + [toAdd] + []
    else
      var l := left + 1;
      var r := if right >= 0 then right - 1 else |s| - 1;
      s[..l] + [MergedIp(s[l], s[r], toAdd)] + s[r + 1..]
  }

  function MergedIp(left: IpInterval, right: IpInterval, toAdd: IpInterval): IpInterval {
    var leftOverlaps := left.Overlaps(toAdd) || left.Touches(toAdd);
    var rightOverlaps := right.Overlaps(toAdd) || right.Touches(toAdd);
    IpInterval(if leftOverlaps then Min(toAdd.start, left.start) else toAdd.start,
               if rightOverlaps then Max(toAdd.end, right.end) else toAdd.end)
  }

  lemma SameMerged(left: IpInterval, right: IpInterval, toAdd: IpInterval)
    requires left.Pure() && right.Pure() && toAdd.Pure()
    ensures MergedIp(left, right, toAdd).Indices() == Merged(left.Indices(), right.Indices(), toAdd.Indices())
    ensures MergedIp(left, right, toAdd).Pure()
  {
    SameRelations(left, toAdd);
    SameRelations(right, toAdd);
  }

  lemma SpliceIp(s: seq<IpInterval>, l: nat, r: nat, n: IpInterval)
    requires l <= r <= |s| && AllPure(s) && n.Pure()
    ensures Indices(s[..l] + [n] + s[r..]) == Indices(s)[..l] + [n.Indices()] + Indices(s)[r..]
    ensures AllPure(s[..l] + [n] + s[r..])
  {
  }

  lemma SameAddAt(s: IpSet, left: int, right: int, toAdd: IpInterval)
    requires s != [] && toAdd.Pure() && -1 <= left < |s| && -1 <= right < |s|
    requires Lower(Indices(s), left + 1, toAdd.Indices())
    requires Higher(Indices(s), if right >= 0 then right else |s|, toAdd.Indices())
    requires left + 1 <= if right >= 0 then right else |s|
    requires Reaches(Indices(s), left + 1, if right >= 0 then right else |s|, toAdd.Indices())
    ensures Indices(AddAtIp(s, left, right, toAdd)) == AddAt(Indices(s), left, right, toAdd.Indices())
    ensures AllPure(AddAtIp(s, left, right, toAdd))
  {
    hide Has, Canonical, Lower, Higher, Reaches, Address.Index, Address.Lt, Address.Le, MergedIp, Merged;
    hide IpInterval.Indices;
    hide IpInterval.Pure;
    if left >= 0 && right >= 0 && right - left == 1 {
      SpliceIp(s, left + 1, left + 1, toAdd);
    } else if left == -1 && right == 0 {
      SpliceIp(s, 0, 0, toAdd);
      assert s[..0] == [] && s[0..] == s;
    } else if right == -1 && left == |s| - 1 {
      SpliceIp(s, |s|, |s|, toAdd);
      assert s[..|s|] == s && s[|s|..] == [];
    } else {
      var l := left + 1;
      var r := if right >= 0 then right - 1 else |s| - 1;
      SameMerged(s[l], s[r], toAdd);
      SpliceIp(s, l, r + 1, MergedIp(s[l], s[r], toAdd));
    }
  }

  lemma LtTransitive(b: IpAddress)
    ensures forall x: IpAddress, y: IpAddress :: x.Le(y) && y.Lt(b) ==> x.Lt(b)
    ensures forall x: IpAddress, y: IpAddress :: x.Le(y) && b.Lt(x) ==> b.Lt(y)
  {
  }

  /** The binary search from the left. */
  method LastBelow(s: seq<IpInterval>, bound: IpAddress) returns (r: int)
    requires forall i, j :: 0 <= i <= j < |s| && s[j].end.Lt(bound) ==> s[i].end.Lt(bound)
    ensures -1 <= r < |s|
    ensures forall i :: 0 <= i < |s| ==> (s[i].end.Lt(bound) <==> i <= r)
  {
    hide *;
    if s == [] { return -1; }
    var low, high := 0, |s|;
    while low != high
      invariant 0 <= low <= high <= |s|
      invariant forall i :: 0 <= i < low ==> s[i].end.Lt(bound)
      invariant forall i :: high <= i < |s| ==> !s[i].end.Lt(bound)
      invariant low > 0 ==> low < |s| && s[low].end.Lt(bound)
      decreases high - low
    {
      var mid := (low + high) / 2;
      if s[mid].end.Lt(bound) {
        if mid == |s| - 1 || !s[mid + 1].end.Lt(bound) {
          return mid;
        }
        low := mid + 1;
      } else {
        high := mid;
      }
    }
    if low == |s| { low := low - 1; }
    if !s[low].end.Lt(bound) { return -1; }
    return low;
  }

  /** The binary search from the right; -1 when no interval is above. */
  method FirstAbove(s: seq<IpInterval>, bound: IpAddress) returns (r: int)
    requires forall i, j :: 0 <= i <= j < |s| && bound.Lt(s[i].start) ==> bound.Lt(s[j].start)
    ensures -1 <= r < |s|
    ensures forall i :: 0 <= i < |s| ==> (bound.Lt(s[i].start) <==> r != -1 && r <= i)
  {
    hide *;
    if s == [] { return -1; }
    var low, high := 0, |s|;
    while low != high
      invariant 0 <= low <= high <= |s|
      invariant forall i :: 0 <= i < low ==> !bound.Lt(s[i].start)
      invariant forall i :: high <= i < |s| ==> bound.Lt(s[i].start)
      invariant high < |s| ==> high > 0 && bound.Lt(s[high - 1].start)
      decreases high - low
    {
      var mid := (low + high) / 2;
      if bound.Lt(s[mid].start) {
        if mid == 0 || !bound.Lt(s[mid - 1].start) {
          return mid;
        }
        high := mid;
      } else {
        low := mid + 1;
      }
    }
    if low == |s| { low := low - 1; }
    if !bound.Lt(s[low].start) { return -1; }
    return low;
  }

  /** The first i intervals without the hole. */
  ghost predicate HoleDone(newSet: seq<IpInterval>, s: IpSet, i: nat, h: Interval)
    requires i <= |s|
  {
    && CanonicalIp(newSet)
    && (newSet != [] ==> i > 0 && Indices(newSet)[|newSet| - 1].end <= Indices(s)[i - 1].end)
    && (forall x :: Has(Indices(newSet), x) <==> Has(Indices(s)[..i], x) && !h.Contains(x))
  }

  /** The piece cut out of one interval, with the facts about it on indices. */
  lemma PieceOf(s: IpSet, i: nat, hole: IpInterval) returns (piece: IntervalSet)
    requires i < |s| && hole.Pure()
    ensures piece == Indices(s[i].Sub(hole)) && AllPure(s[i].Sub(hole))
    ensures forall x :: Has(piece, x) <==> Indices(s)[i].Contains(x) && !hole.Indices().Contains(x)
  {
    SameSub(s[i], hole);
    piece := s[i].Indices().Sub(hole.Indices());
  }

  lemma HoleStepIp(newSet: seq<IpInterval>, s: IpSet, i: nat, hole: IpInterval)
    requires i < |s| && hole.Pure() && HoleDone(newSet, s, i, hole.Indices())
    ensures HoleDone(newSet + s[i].Sub(hole), s, i + 1, hole.Indices())
  {
    var piece := PieceOf(s, i, hole);
    IndicesConcat(newSet, s[i].Sub(hole));
    hide Has, Canonical, IpInterval.Pure, IpInterval.Sub, Interval.Sub, IpInterval.Indices, Interval.Contains;
    HoleStep(Indices(newSet), Indices(s), i, hole.Indices(), piece);
  }

  class IpBlock {
    var intervals: IpSet

    constructor ()
      ensures intervals == []
    { intervals := []; }

    /** The last interval that is lower than `interval` without overlapping or touching it. */
    method FindIntervalLeft(interval: IpInterval) returns (r: int)
      ensures -1 <= r < |intervals|
      ensures forall i :: 0 <= i <= r ==> Indices(intervals)[i].end < interval.Indices().start - 1
      ensures forall i :: r < i < |intervals| ==> Indices(intervals)[i].end >= interval.Indices().start - 1
    {
      Ascending(intervals);
      LtTransitive(interval.start.Plus(-1));
      r := LastBelow(intervals, interval.start.Plus(-1));
      forall i | 0 <= i < |intervals| { SaturationHarmless(intervals[i].end, interval.start); }
    }

    /** The first interval that is higher than `interval` without overlapping or touching it; -1 when there is none. */
    method FindIntervalRight(interval: IpInterval) returns (r: int)
      ensures -1 <= r < |intervals|
      ensures r == -1 ==> forall i :: 0 <= i < |intervals| ==> Indices(intervals)[i].start <= interval.Indices().end + 1
      ensures r != -1 ==> forall i :: 0 <= i < r ==> Indices(intervals)[i].start <= interval.Indices().end + 1
      ensures r != -1 ==> forall i :: r <= i < |intervals| ==> Indices(intervals)[i].start > interval.Indices().end + 1
    {
      Ascending(intervals);
      LtTransitive(interval.end.Plus(1));
      r := FirstAbove(intervals, interval.end.Plus(1));
      forall i | 0 <= i < |intervals| { SaturationHarmless(intervals[i].start, interval.end); }
    }

    /** The same values as on indices; the list stays canonical and no range mixes the versions. */
    method AddInterval(toAdd: IpInterval)
      requires toAdd.Pure()
      modifies this
      ensures forall x :: Has(Indices(intervals), x) <==> Has(old(Indices(intervals)), x) || toAdd.Indices().Contains(x)
    {
      if intervals == [] {
        HasOne(toAdd.Indices());
        assert Indices([toAdd]) == [toAdd.Indices()];
        intervals := [toAdd];
      } else {
        var left := FindIntervalLeft(toAdd);
        var right := FindIntervalRight(toAdd);
        InReach(Indices(intervals), toAdd.Indices(), left + 1, if right >= 0 then right else |intervals|);
        SameAddAt(intervals, left, right, toAdd);
        intervals := AddAtIp(intervals, left, right, toAdd);
      }
    }

    /** Removes the addresses of `hole`, which may lie anywhere. */
    method AddHole(hole: IpInterval)
      requires hole.Pure()
      modifies this
      ensures forall x :: Has(Indices(intervals), x) <==> Has(old(Indices(intervals)), x) && !hole.Indices().Contains(x)
    {
      var newSet: seq<IpInterval> := [];
      ghost var n, h := Indices(intervals), hole.Indices();
      assert HoleDone(newSet, intervals, 0, h);
      for i := 0 to |intervals|
        invariant intervals == old(intervals) && HoleDone(newSet, intervals, i, h)
      {
        hide HoleDone, CanonicalIp, IpInterval.Pure, IpInterval.Sub;
        HoleStepIp(newSet, intervals, i, hole);
        newSet := newSet + intervals[i].Sub(hole);
      }
      assert n[..|n|] == n;
      intervals := newSet;
    }
  }
}
