/** Canonical sets of integer intervals. */
module Intervals {
  // A set is a sorted list of intervals, no two of which overlap or touch. Values of the list are `IntervalSet`; the
  // mutable object of the source is the class CanonicalIntervalSet below.

  datatype Interval = Interval(start: int, end: int) {
    predicate Contains(x: int) { start <= x <= end }

    /** "Up to one interval": the source returns a list so that `&`, `|` and `-` share a type. */
    function And(other: Interval): (r: seq<Interval>)
      requires start <= end && other.start <= other.end
      ensures Canonical(r) && |r| <= 1
      ensures forall x :: Has(r, x) <==> Contains(x) && other.Contains(x)
    {
      var maxStart := if start < other.start then other.start else start;
      var minEnd := if other.end < end then other.end else end;
      if minEnd < maxStart then [] else HasOne(Interval(maxStart, minEnd)); [Interval(maxStart, minEnd)]
    }

    /** Up to two intervals; canonical because the removed middle part is not empty. */
    function Sub(other: Interval): (r: seq<Interval>)
      requires start <= end && other.start <= other.end
      ensures Canonical(r) && |r| <= 2
      ensures forall x :: Has(r, x) <==> Contains(x) && !other.Contains(x)
    {
      if !Overlaps(other) then HasOne(this); [this]
      else if IsSubset(other) then []
      else if start < other.start && end > other.end then
        HasTwo(Interval(start, other.start - 1), Interval(other.end + 1, end));
        [Interval(start, other.start - 1), Interval(other.end + 1, end)]
      else if start < other.start then
        var r := Interval(start, if end < other.start - 1 then end else other.start - 1);
        HasOne(r); [r]
      else
        var r := Interval(if start < other.end + 1 then other.end + 1 else start, end);
        HasOne(r); [r]
    }

    predicate Overlaps(other: Interval) { other.end >= start && other.start <= end }

    predicate Touches(other: Interval) {
      if start > other.end then start == other.end + 1
      else if other.start > end then other.start == end + 1
      else false
    }

    predicate IsSubset(other: Interval) { other.start <= start && other.end >= end }
  }

  predicate Canonical(s: seq<Interval>) {
    && (forall i :: 0 <= i < |s| ==> s[i].start <= s[i].end)
    && (forall i, j :: 0 <= i < j < |s| ==> s[i].end + 1 < s[j].start)
  }

  /** The set of integers a list of intervals denotes. */
  predicate Has(s: seq<Interval>, x: int) {
    exists i :: 0 <= i < |s| && s[i].Contains(x)
  }

  type IntervalSet = s: seq<Interval> | Canonical(s) witness []

  lemma HasOne(i: Interval)
    ensures forall x :: Has([i], x) <==> i.Contains(x)
  {
    forall x | i.Contains(x) ensures Has([i], x) { assert [i][0].Contains(x); }
  }

  lemma HasTwo(i: Interval, j: Interval)
    ensures forall x :: Has([i, j], x) <==> i.Contains(x) || j.Contains(x)
  {
    forall x | i.Contains(x) ensures Has([i, j], x) { assert [i, j][0].Contains(x); }
    forall x | j.Contains(x) ensures Has([i, j], x) { assert [i, j][1].Contains(x); }
  }

  lemma HasConcat(a: seq<Interval>, b: seq<Interval>)
    ensures forall x :: Has(a + b, x) <==> Has(a, x) || Has(b, x)
  {
    forall x
      ensures Has(a + b, x) <==> Has(a, x) || Has(b, x)
    {
      if Has(a, x) {
        var i :| 0 <= i < |a| && a[i].Contains(x);
        assert (a + b)[i].Contains(x);
      }
      if Has(b, x) {
        var i :| 0 <= i < |b| && b[i].Contains(x);
        assert (a + b)[|a| + i].Contains(x);
      }
    }
  }

  lemma HasSnoc(a: seq<Interval>, i: nat)
    requires i < |a|
    ensures forall x :: Has(a[..i + 1], x) <==> Has(a[..i], x) || a[i].Contains(x)
  {
    assert a[..i + 1] == a[..i] + [a[i]];
    HasConcat(a[..i], [a[i]]);
    HasOne(a[i]);
  }

  /** Same values, same list: the representation is unique. */
  lemma {:induction false} Unique(a: IntervalSet, b: IntervalSet)
    requires forall x :: Has(a, x) <==> Has(b, x)
    ensures a == b
  {
    if a == [] {
      if b != [] { assert b[0].Contains(b[0].start); assert Has(b, b[0].start); }
    } else {
      FirstAgrees(a, b);
      FirstAgrees(b, a);
      TailOf(a);
      TailOf(b);
      Unique(a[1..], b[1..]);
      assert a == [a[0]] + a[1..];
      assert b == [b[0]] + b[1..];
    }
  }

  lemma FirstAgrees(a: IntervalSet, b: IntervalSet)
    requires a != [] && forall x :: Has(a, x) <==> Has(b, x)
    ensures b != [] && b[0].start <= a[0].start
    ensures b[0].start == a[0].start ==> b[0].end <= a[0].end
  {
    assert a[0].Contains(a[0].start);
    assert Has(a, a[0].start);
    if b[0].start == a[0].start && b[0].end > a[0].end {
      assert b[0].Contains(a[0].end + 1);
      assert Has(b, a[0].end + 1);
    }
  }

  lemma TailOf(a: IntervalSet)
    requires a != []
    ensures Canonical(a[1..])
    ensures forall x :: Has(a[1..], x) <==> Has(a, x) && x > a[0].end
  {
    assert a == [a[0]] + a[1..];
    HasConcat([a[0]], a[1..]);
    HasOne(a[0]);
  }

  /** Inclusion needs only one candidate interval: the first that is not strictly lower. */
  lemma CoveredByOne(i: Interval, b: IntervalSet)
    requires i.start <= i.end
    requires forall x :: i.Contains(x) ==> Has(b, x)
    ensures exists k :: 0 <= k < |b| && i.IsSubset(b[k])
  {
    assert Has(b, i.start);
    var k :| 0 <= k < |b| && b[k].Contains(i.start);
    assert b[k].end < i.end ==> i.Contains(b[k].end + 1) && !Has(b, b[k].end + 1);
  }

  class CanonicalIntervalSet {
    var intervals: IntervalSet

    constructor ()
      ensures intervals == []
    { intervals := []; }

    constructor Copy(s: IntervalSet)
      ensures intervals == s
    { intervals := s; }

    /** The last interval that is lower than `interval` without overlapping or touching it. */
    method FindIntervalLeft(interval: Interval) returns (r: int)
      ensures -1 <= r < |intervals|
      ensures forall i :: 0 <= i <= r ==> intervals[i].end < interval.start - 1
      ensures forall i :: r < i < |intervals| ==> intervals[i].end >= interval.start - 1
    {
      if intervals == [] { return -1; }
      var low, high := 0, |intervals|;
      while low != high
        invariant 0 <= low <= high <= |intervals|
        invariant forall i :: 0 <= i < low ==> intervals[i].end < interval.start - 1
        invariant forall i :: high <= i < |intervals| ==> intervals[i].end >= interval.start - 1
        invariant low > 0 ==> low < |intervals| && intervals[low].end < interval.start - 1
        decreases high - low
      {
        var mid := (low + high) / 2;
        if intervals[mid].end < interval.start - 1 {
          if mid == |intervals| - 1 || intervals[mid + 1].end >= interval.start - 1 {
            return mid;
          }
          low := mid + 1;
        } else {
          high := mid;
        }
      }
      if low == |intervals| { low := low - 1; }
      if intervals[low].end >= interval.start - 1 { return -1; }
      return low;
    }

    /** The first interval that is higher than `interval` without overlapping or touching it;
        -1 when there is none. */
    method FindIntervalRight(interval: Interval) returns (r: int)
      ensures -1 <= r < |intervals|
      ensures r == -1 ==> forall i :: 0 <= i < |intervals| ==> intervals[i].start <= interval.end + 1
      ensures r != -1 ==> forall i :: 0 <= i < r ==> intervals[i].start <= interval.end + 1
      ensures r != -1 ==> forall i :: r <= i < |intervals| ==> intervals[i].start > interval.end + 1
    {
      if intervals == [] { return -1; }
      var low, high := 0, |intervals|;
      while low != high
        invariant 0 <= low <= high <= |intervals|
        invariant forall i :: 0 <= i < low ==> intervals[i].start <= interval.end + 1
        invariant forall i :: high <= i < |intervals| ==> intervals[i].start > interval.end + 1
        invariant high < |intervals| ==> high > 0 && intervals[high - 1].start > interval.end + 1
        decreases high - low
      {
        var mid := (low + high) / 2;
        if intervals[mid].start > interval.end + 1 {
          if mid == 0 || intervals[mid - 1].start <= interval.end + 1 {
            return mid;
          }
          high := mid;
        } else {
          low := mid + 1;
        }
      }
      if low == |intervals| { low := low - 1; }
      if intervals[low].start <= interval.end + 1 { return -1; }
      return low;
    }

    /** Adds an interval, merging it with every interval it overlaps or touches. */
    method AddInterval(toAdd: Interval)
      requires toAdd.start <= toAdd.end
      modifies this
      ensures forall x :: Has(intervals, x) <==> Has(old(intervals), x) || toAdd.Contains(x)
    {
      if intervals == [] {
        HasOne(toAdd);
        intervals := [toAdd];
      } else {
        var left := FindIntervalLeft(toAdd);
        var right := FindIntervalRight(toAdd);
        InReach(intervals, toAdd, left + 1, if right >= 0 then right else |intervals|);
        intervals := AddAt(intervals, left, right, toAdd);
      }
    }

    /** Removes the values of `hole`. */
    method AddHole(hole: Interval)
      requires hole.start <= hole.end
      modifies this
      ensures forall x :: Has(intervals, x) <==> Has(old(intervals), x) && !hole.Contains(x)
    {
      var newSet: IntervalSet := [];
      for i := 0 to |intervals|
        invariant intervals == old(intervals)
        invariant newSet != [] ==> i > 0 && newSet[|newSet| - 1].end <= intervals[i - 1].end
        invariant forall x :: Has(newSet, x) <==> Has(intervals[..i], x) && !hole.Contains(x)
      {
        var piece := intervals[i].Sub(hole);
        HoleStep(newSet, intervals, i, hole, piece);
        newSet := newSet + piece;
      }
      assert intervals[..|intervals|] == intervals;
      intervals := newSet;
    }

    /** `|=`: adds the intervals of `other` one by one. */
    method IOr(other: IntervalSet)
      modifies this
      ensures forall x :: Has(intervals, x) <==> Has(old(intervals), x) || Has(other, x)
    {
      for i := 0 to |other|
        invariant forall x :: Has(intervals, x) <==> Has(old(intervals), x) || Has(other[..i], x)
      {
        HasSnoc(other, i);
        AddInterval(other[i]);
      }
      assert other[..|other|] == other;
    }

    /** `-=`: removes the intervals of `other` one by one. */
    method ISub(other: IntervalSet)
      modifies this
      ensures forall x :: Has(intervals, x) <==> Has(old(intervals), x) && !Has(other, x)
    {
      for i := 0 to |other|
        invariant forall x :: Has(intervals, x) <==> Has(old(intervals), x) && !Has(other[..i], x)
      {
        HasSnoc(other, i);
        AddHole(other[i]);
      }
      assert other[..|other|] == other;
    }

    /** `&=`: all pairwise intersections, in order. */
    method IAnd(other: IntervalSet)
      modifies this
      ensures forall x :: Has(intervals, x) <==> Has(old(intervals), x) && Has(other, x)
    {
      var newSet: IntervalSet := [];
      for i := 0 to |intervals|
        invariant intervals == old(intervals)
        invariant newSet != [] ==> i > 0 && newSet[|newSet| - 1].end <= intervals[i - 1].end
        invariant forall x :: Has(newSet, x) <==> Has(intervals[..i], x) && Has(other, x)
      {
        HasSnoc(intervals, i);
        for j := 0 to |other|
          invariant intervals == old(intervals)
          invariant newSet != [] ==> BoundedBy(newSet[|newSet| - 1].end, intervals, i, other, j)
          invariant forall x :: Has(newSet, x) <==>
                      (Has(intervals[..i], x) && Has(other, x)) || (intervals[i].Contains(x) && Has(other[..j], x))
        {
          var piece := intervals[i].And(other[j]);
          AndStep(newSet, intervals, i, other, j, piece);
          newSet := newSet + piece;
        }
        assert other[..|other|] == other;
      }
      assert intervals[..|intervals|] == intervals;
      intervals := newSet;
    }

    /** Inclusion by one binary search per interval. */
    method ContainedIn(other: CanonicalIntervalSet) returns (r: bool)
      ensures r <==> forall x :: Has(intervals, x) ==> Has(other.intervals, x)
    {
      if |intervals| == 1 && |other.intervals| == 1 {
        r := intervals[0].IsSubset(other.intervals[0]);
        InclusionOf(intervals, 0, other.intervals, 0);
        return;
      }
      for i := 0 to |intervals|
        invariant forall k, x :: 0 <= k < i && intervals[k].Contains(x) ==> Has(other.intervals, x)
      {
        var left := other.FindIntervalLeft(intervals[i]);
        if left == |other.intervals| - 1 {
          NotCovered(intervals, i, other.intervals, -1);
          return false;
        }
        if !intervals[i].IsSubset(other.intervals[left + 1]) {
          NotCovered(intervals, i, other.intervals, left + 1);
          return false;
        }
      }
      return true;
    }
  }

  /** Where a piece cut out of `i` lies. */
  lemma PieceBounds(piece: IntervalSet, i: Interval)
    requires forall x :: Has(piece, x) ==> i.Contains(x)
    ensures forall k :: 0 <= k < |piece| ==> i.start <= piece[k].start && piece[k].end <= i.end
  {
    forall k | 0 <= k < |piece|
      ensures i.start <= piece[k].start && piece[k].end <= i.end
    {
      assert piece[k].Contains(piece[k].start) && piece[k].Contains(piece[k].end);
      assert Has(piece, piece[k].start) && Has(piece, piece[k].end);
    }
  }

  ghost predicate BoundedBy(e: int, a: IntervalSet, i: nat, b: IntervalSet, j: nat)
    requires i < |a| && j <= |b|
  {
    (i > 0 && e <= a[i - 1].end) || (j > 0 && e <= a[i].end && e <= b[j - 1].end)
  }

  lemma ConcatCanonical(a: IntervalSet, b: IntervalSet)
    requires a != [] && b != [] ==> a[|a| - 1].end + 1 < b[0].start
    ensures Canonical(a + b)
    ensures b != [] ==> (a + b)[|a + b| - 1] == b[|b| - 1]
    ensures b == [] ==> a + b == a
    ensures forall x :: Has(a + b, x) <==> Has(a, x) || Has(b, x)
  {
    HasConcat(a, b);
    forall i, j | 0 <= i < j < |a + b|
      ensures (a + b)[i].end + 1 < (a + b)[j].start
    {
      if i < |a| <= j {
        assert a[i].end <= a[|a| - 1].end && b[0].start <= b[j - |a|].start;
      }
    }
  }

  /** One step of cutting a hole out of a list. */
  lemma HoleStep(done: IntervalSet, a: IntervalSet, i: nat, hole: Interval, piece: IntervalSet)
    requires i < |a|
    requires forall x :: Has(piece, x) <==> a[i].Contains(x) && !hole.Contains(x)
    requires done != [] ==> i > 0 && done[|done| - 1].end <= a[i - 1].end
    requires forall x :: Has(done, x) <==> Has(a[..i], x) && !hole.Contains(x)
    ensures Canonical(done + piece)
    ensures done + piece != [] ==> (done + piece)[|done + piece| - 1].end <= a[i].end
    ensures forall x :: Has(done + piece, x) <==> Has(a[..i + 1], x) && !hole.Contains(x)
  {
    HasSnoc(a, i);
    PieceBounds(piece, a[i]);
    ConcatCanonical(done, piece);
  }

  /** One step of the pairwise intersection. */
  lemma AndStep(done: IntervalSet, a: IntervalSet, i: nat, b: IntervalSet, j: nat, piece: IntervalSet)
    requires i < |a| && j < |b|
    requires forall x :: Has(piece, x) <==> a[i].Contains(x) && b[j].Contains(x)
    requires done != [] ==> BoundedBy(done[|done| - 1].end, a, i, b, j)
    requires forall x :: Has(done, x) <==> (Has(a[..i], x) && Has(b, x)) || (a[i].Contains(x) && Has(b[..j], x))
    ensures Canonical(done + piece)
    ensures done + piece != [] ==> BoundedBy((done + piece)[|done + piece| - 1].end, a, i, b, j + 1)
    ensures forall x :: Has(done + piece, x) <==>
              (Has(a[..i], x) && Has(b, x)) || (a[i].Contains(x) && Has(b[..j + 1], x))
  {
    HasSnoc(b, j);
    PieceBounds(piece, a[i]);
    PieceBounds(piece, b[j]);
    ConcatCanonical(done, piece);
  }

  ghost predicate Lower(s: IntervalSet, l: nat, i: Interval) {
    forall k :: 0 <= k < l && k < |s| ==> s[k].end < i.start - 1
  }

  ghost predicate Higher(s: IntervalSet, r: nat, i: Interval) {
    forall k :: r <= k < |s| ==> s[k].start > i.end + 1
  }

  ghost predicate Reaches(s: IntervalSet, l: nat, r: nat, i: Interval) {
    forall k :: l <= k < r && k < |s| ==> s[k].end >= i.start - 1 && s[k].start <= i.end + 1
  }

  /** The two searches leave exactly the intervals l..r that overlap or touch. */
  lemma InReach(s: IntervalSet, i: Interval, l: nat, r: nat)
    requires l <= |s| && r <= |s| && i.start <= i.end
    requires Lower(s, l, i) && forall k :: l <= k < |s| ==> s[k].end >= i.start - 1
    requires Higher(s, r, i) && forall k :: 0 <= k < r ==> s[k].start <= i.end + 1
    ensures l <= r && Reaches(s, l, r, i)
  {
    if r < |s| { assert s[r].start > i.end + 1 && s[r].end >= i.start - 1; }
  }

  /** The list update of add_interval, given the results of the two searches. */
  function AddAt(s: IntervalSet, left: int, right: int, toAdd: Interval): (result: IntervalSet)
    requires s != [] && toAdd.start <= toAdd.end && -1 <= left < |s| && -1 <= right < |s|
    requires Lower(s, left + 1, toAdd) && Higher(s, if right >= 0 then right else |s|, toAdd)
    requires left + 1 <= if right >= 0 then right else |s|
    requires Reaches(s, left + 1, if right >= 0 then right else |s|, toAdd)
    ensures forall x :: Has(result, x) <==> Has(s, x) || toAdd.Contains(x)
  {
    if left >= 0 && right >= 0 && right - left == 1 then Splice(s, left + 1, left + 1, toAdd, toAdd)
    else if left == -1 && right == 0 then Splice(s, 0, 0, toAdd, toAdd)
    else if right == -1 && left == |s| - 1 then Splice(s, |s|, |s|, toAdd, toAdd)
    else
      var l := left + 1;
      var r := if right >= 0 then right - 1 else |s| - 1;
      Splice(s, l, r + 1, toAdd, Merged(s[l], s[r], toAdd))
  }

  /** `toAdd` merged with the first and the last of the intervals in its reach. */
  function Merged(left: Interval, right: Interval, toAdd: Interval): Interval {
    var leftOverlaps := left.Overlaps(toAdd) || left.Touches(toAdd);
    var rightOverlaps := right.Overlaps(toAdd) || right.Touches(toAdd);
    Interval(if leftOverlaps && left.start < toAdd.start then left.start else toAdd.start,
             if rightOverlaps && right.end > toAdd.end then right.end else toAdd.end)
  }

  /** `del` and `insert` on the list: the intervals l..r, all those within reach of `toAdd`, are replaced
      by one interval `n` that joins them with it. */
  function Splice(s: IntervalSet, l: nat, r: nat, ghost toAdd: Interval, n: Interval): (result: IntervalSet)
    requires l <= r <= |s| && toAdd.start <= toAdd.end
    requires Lower(s, l, toAdd) && Reaches(s, l, r, toAdd) && Higher(s, r, toAdd)
    requires n.start == if l < r && s[l].start < toAdd.start then s[l].start else toAdd.start
    requires n.end == if l < r && s[r - 1].end > toAdd.end then s[r - 1].end else toAdd.end
    ensures forall x :: Has(result, x) <==> Has(s, x) || toAdd.Contains(x)
  {
    SpliceValues(s, l, r, toAdd, n);
    s[..l] + [n] + s[r..]
  }

  lemma SpliceValues(s: IntervalSet, l: nat, r: nat, toAdd: Interval, n: Interval)
    requires l <= r <= |s| && toAdd.start <= toAdd.end
    requires Reaches(s, l, r, toAdd)
    requires n.start == if l < r && s[l].start < toAdd.start then s[l].start else toAdd.start
    requires n.end == if l < r && s[r - 1].end > toAdd.end then s[r - 1].end else toAdd.end
    ensures forall x :: Has(s[..l] + [n] + s[r..], x) <==> Has(s, x) || toAdd.Contains(x)
  {
    Joined(s[l..r], toAdd, n);
    HasOne(n);
    assert s == s[..l] + s[l..r] + s[r..];
    hide Has, Canonical, Reaches, Interval.Contains;
    HasThree(s[..l], [n], s[r..]);
    HasThree(s[..l], s[l..r], s[r..]);
  }

  lemma HasThree(a: seq<Interval>, b: seq<Interval>, c: seq<Interval>)
    ensures forall x :: Has(a + b + c, x) <==> Has(a, x) || Has(b, x) || Has(c, x)
  {
    HasConcat(a + b, c);
    HasConcat(a, b);
    hide Has;
  }

  /** The hull of `toAdd` and the intervals in reach of it holds their values and no other. */
  lemma Joined(m: seq<Interval>, toAdd: Interval, n: Interval)
    requires Canonical(m) && toAdd.start <= toAdd.end
    requires forall k :: 0 <= k < |m| ==> m[k].end >= toAdd.start - 1 && m[k].start <= toAdd.end + 1
    requires n.start == if m != [] && m[0].start < toAdd.start then m[0].start else toAdd.start
    requires n.end == if m != [] && m[|m| - 1].end > toAdd.end then m[|m| - 1].end else toAdd.end
    ensures forall x :: n.Contains(x) <==> Has(m, x) || toAdd.Contains(x)
  {
    forall x
      ensures n.Contains(x) <==> Has(m, x) || toAdd.Contains(x)
    {
      if n.Contains(x) && !toAdd.Contains(x) {
        assert m[0].Contains(x) || m[|m| - 1].Contains(x);
      }
    }
  }

  lemma InclusionOf(a: IntervalSet, i: nat, b: IntervalSet, k: nat)
    requires |a| == 1 && i == 0 && |b| == 1 && k == 0
    ensures a[i].IsSubset(b[k]) <==> forall x :: Has(a, x) ==> Has(b, x)
  {
    assert a == [a[0]] && b == [b[0]];
    HasOne(a[0]);
    HasOne(b[0]);
    assert a[0].Contains(a[0].start) && a[0].Contains(a[0].end);
    if forall x :: Has(a, x) ==> Has(b, x) {
      assert Has(b, a[0].start) && Has(b, a[0].end);
    }
  }

  /** When the candidate does not contain a[i], some value of a[i] is missing from b. */
  lemma NotCovered(a: IntervalSet, i: nat, b: IntervalSet, k: int)
    requires i < |a|
    requires k == -1 ==> forall m :: 0 <= m < |b| ==> b[m].end < a[i].start - 1
    requires k != -1 ==> 0 <= k < |b| && !a[i].IsSubset(b[k])
    requires k != -1 ==> forall m :: 0 <= m < k ==> b[m].end < a[i].start - 1
    requires k != -1 ==> forall m :: k <= m < |b| ==> b[m].end >= a[i].start - 1
    ensures !(forall x :: Has(a, x) ==> Has(b, x))
  {
    if forall x :: Has(a, x) ==> Has(b, x) {
      CoveredByOne(a[i], b);
    }
  }

  // The operators on values: each works on a copy, as `&`, `|`, `-` and `in` do.

  method Intersection(a: IntervalSet, b: IntervalSet) returns (r: IntervalSet)
    ensures forall x :: Has(r, x) <==> Has(a, x) && Has(b, x)
  {
    var res := new CanonicalIntervalSet.Copy(a);
    res.IAnd(b);
    r := res.intervals;
  }

  method Union(a: IntervalSet, b: IntervalSet) returns (r: IntervalSet)
    ensures forall x :: Has(r, x) <==> Has(a, x) || Has(b, x)
  {
    var res := new CanonicalIntervalSet.Copy(a);
    res.IOr(b);
    r := res.intervals;
  }

  method Difference(a: IntervalSet, b: IntervalSet) returns (r: IntervalSet)
    ensures forall x :: Has(r, x) <==> Has(a, x) && !Has(b, x)
  {
    var res := new CanonicalIntervalSet.Copy(a);
    res.ISub(b);
    r := res.intervals;
  }

  method Contained(a: IntervalSet, b: IntervalSet) returns (r: bool)
    ensures r <==> forall x :: Has(a, x) ==> Has(b, x)
  {
    var left := new CanonicalIntervalSet.Copy(a);
    var right := new CanonicalIntervalSet.Copy(b);
    r := left.ContainedIn(right);
  }

  method Contains(item: int, b: IntervalSet) returns (r: bool)
    ensures r <==> Has(b, item)
  {
    var res := new CanonicalIntervalSet();
    res.AddInterval(Interval(item, item));
    r := Contained(res.intervals, b);
    assert Interval(item, item).Contains(item);
  }
}
