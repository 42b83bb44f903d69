/** Longest-match splitting of Ingress paths. */
module PathSplitter {
  // Languages are sets of path strings; '.' stands for itself.

  datatype PathType = Exact | Prefix

  datatype Entry = Entry(path: string, kind: PathType)

  predicate AllowedChar(c: char) {
    'a' <= c <= 'z' || 'A' <= c <= 'Z' || '0' <= c <= '9' || c == '_' || c == '.' || c == '/' || c == '-'
  }

  /** validate_path_value */
  predicate ValidPath(s: string) { s != "" && s[0] == '/' && forall i :: 0 <= i < |s| ==> AllowedChar(s[i]) }

  predicate EndsWithSlash(s: string) { s != "" && s[|s| - 1] == '/' }

  function WithoutSlash(s: string): string { if EndsWithSlash(s) then s[..|s| - 1] else s }

  /** The end of parse_ingress_path, then the start of the splitting: a Prefix path loses one trailing slash, and the
      empty Prefix path is the root. */
  function Parsed(raw: Entry): (e: Entry)
    ensures ValidPath(raw.path) ==> ValidPath(e.path)
  {
    if raw.kind.Exact? then raw
    else
      var p := WithoutSlash(raw.path);
      Entry(if p == "" then "/" else p, Prefix)
  }

  /** The language of a parsed entry; get_path_prefix_dfa drops a trailing slash once more. */
  predicate InLanguage(e: Entry, s: string) {
    if e.kind.Exact? then s == e.path
    else if e.path == "/" then ValidPath(s)
    else
      var q := WithoutSlash(e.path);
      s == q || (q + "/" <= s && forall i :: |q| < i < |s| ==> AllowedChar(s[i]))
  }

  /** path.startswith(start) */
  predicate StartsWith(path: string, start: string) { start <= path }

  /** A language from which others were subtracted. */
  datatype Language = Language(base: Entry, removed: seq<Entry>)
  {
    ghost predicate Accepts(s: string) {
      InLanguage(base, s) && forall k :: 0 <= k < |removed| ==> !InLanguage(removed[k], s)
    }
  }

  /** What is left of entry i: a Prefix entry gives way to every entry whose path extends its own. */
  ghost predicate InResult(es: seq<Entry>, i: nat, s: string)
    requires i < |es|
  {
    && InLanguage(es[i], s)
    && (es[i].kind.Prefix? ==>
          forall j :: 0 <= j < |es| && j != i && StartsWith(es[j].path, es[i].path) ==> !InLanguage(es[j], s))
  }

  /** segregate_longest_paths_and_make_dfa, on parsed entries. */
  method SegregateLongestPaths(es: seq<Entry>) returns (res: seq<Language>)
    ensures |res| == |es|
    ensures forall i, s :: 0 <= i < |es| ==> (res[i].Accepts(s) <==> InResult(es, i, s))
  {
    res := [];
    for i := 0 to |es|
      invariant |res| == i
      invariant forall k, s :: 0 <= k < i ==> (res[k].Accepts(s) <==> InResult(es, k, s))
    {
      var dfa := Language(es[i], []);
      if es[i].kind.Prefix? {
        for j := 0 to |es|
          invariant dfa.base == es[i]
          invariant forall e :: e in dfa.removed <==>
                                exists k :: 0 <= k < j && k != i && StartsWith(es[k].path, es[i].path) && es[k] == e
        {
          if i != j && StartsWith(es[j].path, es[i].path) {
            dfa := Language(dfa.base, dfa.removed + [es[j]]);
          }
        }
      }
      forall s ensures dfa.Accepts(s) <==> InResult(es, i, s) { AcceptsResult(es, i, dfa, s); }
      res := res + [dfa];
    }
  }

  lemma AcceptsResult(es: seq<Entry>, i: nat, dfa: Language, s: string)
    requires i < |es| && dfa.base == es[i] && (es[i].kind.Exact? ==> dfa.removed == [])
    requires es[i].kind.Prefix? ==>
               forall e :: e in dfa.removed <==>
                           exists k :: 0 <= k < |es| && k != i && StartsWith(es[k].path, es[i].path) && es[k] == e
    ensures dfa.Accepts(s) <==> InResult(es, i, s)
  {
    hide InLanguage, StartsWith;
    if es[i].kind.Prefix? {
      if dfa.Accepts(s) {
        forall j | 0 <= j < |es| && j != i && StartsWith(es[j].path, es[i].path) ensures !InLanguage(es[j], s) {
          assert es[j] in dfa.removed;
        }
      }
      if InResult(es, i, s) {
        forall k | 0 <= k < |dfa.removed| ensures !InLanguage(dfa.removed[k], s) {
          assert dfa.removed[k] in dfa.removed;
        }
      }
    }
  }

  // ----- matching element by element -----

  /** The elements of a path, between the slashes. */
  function PathElements(s: string): (r: seq<string>)
    ensures r != []
  {
    if s == "" then [""]
    else
      var rest := PathElements(s[1..]);
      if s[0] == '/' then [""] + rest else [[s[0]] + rest[0]] + rest[1..]
  }

  /** The elements of q are the first of s exactly if s is q, or goes on behind it with a slash. */
  lemma {:induction false} ElementsPrefix(q: string, s: string)
    ensures PathElements(q) <= PathElements(s) <==> s == q || q + "/" <= s
    decreases |q|
  {
    if q == "" {
      assert PathElements(s)[0] == "" <==> s == "" || s[0] == '/';
    } else if s == "" {
      assert PathElements(s) == [""];
    } else {
      ElementsPrefix(q[1..], s[1..]);
      var a, b := PathElements(q[1..]), PathElements(s[1..]);
      SamePrefix(q, s);
      if q[0] == '/' && s[0] == '/' {
        HeadPrefix("", "", a, b);
      } else if q[0] != '/' && s[0] != '/' {
        HeadPrefix([q[0]] + a[0], [s[0]] + b[0], a[1..], b[1..]);
        HeadPrefix(a[0], b[0], a[1..], b[1..]);
        assert a == [a[0]] + a[1..] && b == [b[0]] + b[1..];
        assert ([q[0]] + a[0])[1..] == a[0] && ([s[0]] + b[0])[1..] == b[0];
      } else {
        assert PathElements(q)[0] != PathElements(s)[0];
      }
    }
  }

  lemma HeadPrefix(x: string, y: string, a: seq<string>, b: seq<string>)
    ensures [x] + a <= [y] + b <==> x == y && a <= b
  {
    var u, v := [x] + a, [y] + b;
    assert u[0] == x && v[0] == y && u[1..] == a && v[1..] == b;
    if u <= v {
      assert u == v[..|u|] && v[..|u|][1..] == b[..|a|];
    }
    if x == y && a <= b {
      assert v[..|u|] == [y] + b[..|a|];
    }
  }

  lemma SamePrefix(q: string, s: string)
    requires q != "" && s != ""
    ensures s == q || q + "/" <= s <==> q[0] == s[0] && (s[1..] == q[1..] || q[1..] + "/" <= s[1..])
  {
    assert q == [q[0]] + q[1..] && s == [s[0]] + s[1..];
    assert q + "/" == [q[0]] + (q[1..] + "/");
  }

  /** A Prefix path accepts exactly the valid paths that begin with its elements, whatever valid characters follow. */
  lemma PrefixByElements(e: Entry, s: string)
    requires e.kind.Prefix? && ValidPath(e.path)
    ensures InLanguage(e, s) <==> ValidPath(s) && PathElements(WithoutSlash(e.path)) <= PathElements(s)
  {
    var q := WithoutSlash(e.path);
    ElementsPrefix(q, s);
    if e.path == "/" {
      assert q == "";
      assert ValidPath(s) ==> "" + "/" <= s;
    } else if q + "/" <= s {
      assert forall i :: 0 <= i < |q| ==> s[i] == e.path[i];
      assert s[|q|] == '/';
    }
  }

  // ----- longest match -----

  ghost predicate AllParsed(es: seq<Entry>) { forall i :: 0 <= i < |es| ==> ValidPath(es[i].path) }

  /** No other entry is equal to entry i. */
  ghost predicate Once(es: seq<Entry>, i: nat)
    requires i < |es|
  {
    forall j :: 0 <= j < |es| && j != i ==> es[j] != es[i]
  }

  predicate Better(a: Entry, b: Entry) {
    |b.path| < |a.path| || (|b.path| == |a.path| && a.kind.Exact? && b.kind.Prefix?)
  }

  /** The entry a request path should go to: the longest that matches, Exact before Prefix. */
  ghost predicate Wins(es: seq<Entry>, i: nat, s: string)
    requires i < |es|
  {
    InLanguage(es[i], s) && forall j :: 0 <= j < |es| && j != i && InLanguage(es[j], s) ==> Better(es[i], es[j])
  }

  /** A Prefix entry that still ends with a slash meets an Exact entry for the same path without it. */
  predicate Clash(a: Entry, b: Entry) {
    a.kind.Prefix? && a.path != "/" && EndsWithSlash(a.path) && b.kind.Exact? && b.path == WithoutSlash(a.path)
  }

  predicate NoClash(es: seq<Entry>) { forall i, j :: 0 <= i < |es| && 0 <= j < |es| ==> !Clash(es[i], es[j]) }

  predicate ExactOnce(es: seq<Entry>) {
    forall i, j :: 0 <= i < j < |es| && es[i].kind.Exact? ==> es[i] != es[j]
  }

  /** A matching path is a prefix of the request, except for the Prefix entry that matches without its slash. */
  lemma PathOfMatch(e: Entry, s: string)
    requires ValidPath(e.path) && InLanguage(e, s)
    ensures e.path <= s || (e.kind.Prefix? && e.path != "/" && EndsWithSlash(e.path) && s == WithoutSlash(e.path))
  {
  }

  /** Two entries that match the same request: the Prefix entry gives way, or they clash. */
  lemma GivesWay(a: Entry, b: Entry, s: string)
    requires ValidPath(a.path) && ValidPath(b.path) && a != b && InLanguage(a, s) && InLanguage(b, s)
    ensures || (a.kind.Prefix? && StartsWith(b.path, a.path)) || (b.kind.Prefix? && StartsWith(a.path, b.path))
            || Clash(a, b) || Clash(b, a)
  {
    PathOfMatch(a, s);
    PathOfMatch(b, s);
  }

  /** Equal Prefix entries take everything from each other. */
  lemma DuplicatesLost(es: seq<Entry>, i: nat, j: nat, s: string)
    requires i < |es| && j < |es| && i != j && es[i] == es[j] && es[i].kind.Prefix?
    ensures !InResult(es, i, s) && !InResult(es, j, s)
  {
    hide InLanguage;
  }

  // Disjointness.

  ghost predicate PairwiseDisjoint(es: seq<Entry>) {
    forall i, j, s :: 0 <= i < j < |es| ==> !(InResult(es, i, s) && InResult(es, j, s))
  }

  /** Equal Exact entries, or a clash of a Prefix entry that is not lost to its own copies. */
  ghost predicate Overlap(es: seq<Entry>, i: nat, j: nat)
    requires i < |es| && j < |es|
  {
    (i != j && es[i] == es[j] && es[i].kind.Exact?) || (Clash(es[i], es[j]) && Once(es, i))
  }

  ghost predicate NoOverlap(es: seq<Entry>) {
    forall i, j :: 0 <= i < |es| && 0 <= j < |es| ==> !Overlap(es, i, j)
  }

  /** In a clash both entries keep the Exact path. */
  lemma ClashOverlaps(es: seq<Entry>, i: nat, j: nat)
    requires i < |es| && j < |es| && AllParsed(es) && Clash(es[i], es[j]) && Once(es, i)
    ensures InResult(es, i, es[j].path) && InResult(es, j, es[j].path)
  {
    var q := es[j].path;
    forall k | 0 <= k < |es| && k != i && StartsWith(es[k].path, es[i].path) ensures !InLanguage(es[k], q) {
      assert es[k] != es[i] && |es[k].path| >= |q| + 1;
    }
  }

  /** Two entries that keep the same request overlap. */
  lemma KeptTwice(es: seq<Entry>, i: nat, j: nat, s: string)
    requires i < |es| && j < |es| && i != j && AllParsed(es) && InResult(es, i, s) && InResult(es, j, s)
    ensures Overlap(es, i, j) || Overlap(es, j, i)
  {
    hide InLanguage, ValidPath, Clash;
    if es[i] != es[j] {
      GivesWay(es[i], es[j], s);
      forall k | 0 <= k < |es| && k != i && es[i].kind.Prefix? ensures es[k] != es[i] {
        if es[k] == es[i] { DuplicatesLost(es, i, k, s); }
      }
      forall k | 0 <= k < |es| && k != j && es[j].kind.Prefix? ensures es[k] != es[j] {
        if es[k] == es[j] { DuplicatesLost(es, j, k, s); }
      }
      ClashKinds(es[i], es[j]);
    } else if es[i].kind.Prefix? {
      DuplicatesLost(es, i, j, s);
    }
  }

  lemma ClashKinds(a: Entry, b: Entry)
    ensures Clash(a, b) ==> a.kind.Prefix? && b.kind.Exact?
    ensures Clash(b, a) ==> b.kind.Prefix? && a.kind.Exact?
  {
  }

  /** The resulting languages are disjoint exactly when no Exact entry is repeated and no Prefix entry that occurs once
      clashes. */
  lemma DisjointIffNoOverlap(es: seq<Entry>)
    requires AllParsed(es)
    ensures PairwiseDisjoint(es) <==> NoOverlap(es)
  {
    hide InLanguage, ValidPath;
    if NoOverlap(es) {
      forall i, j, s | 0 <= i < j < |es| ensures !(InResult(es, i, s) && InResult(es, j, s)) {
        if InResult(es, i, s) && InResult(es, j, s) { KeptTwice(es, i, j, s); }
      }
    } else {
      var i, j :| 0 <= i < |es| && 0 <= j < |es| && Overlap(es, i, j);
      OverlapKept(es, i, j);
      assert i != j;
    }
  }

  lemma OverlapKept(es: seq<Entry>, i: nat, j: nat)
    requires i < |es| && j < |es| && AllParsed(es) && Overlap(es, i, j)
    ensures i != j && InResult(es, i, es[j].path) && InResult(es, j, es[j].path)
  {
    ClashKinds(es[i], es[j]);
    hide ValidPath;
    if Clash(es[i], es[j]) { ClashOverlaps(es, i, j); }
  }

  // Longest match.

  /** The winner keeps the request, clash or not. */
  lemma WinnerKeeps(es: seq<Entry>, i: nat, s: string)
    requires i < |es| && Wins(es, i, s)
    ensures InResult(es, i, s)
  {
    hide InLanguage;
    if es[i].kind.Prefix? {
      forall j | 0 <= j < |es| && j != i && StartsWith(es[j].path, es[i].path) ensures !InLanguage(es[j], s) {
      }
    }
  }

  /** Without a clash and without repeated Exact entries, an entry that keeps the request is the winner. */
  lemma KeeperWins(es: seq<Entry>, i: nat, s: string)
    requires i < |es| && AllParsed(es) && NoClash(es) && ExactOnce(es) && InResult(es, i, s)
    ensures Wins(es, i, s)
  {
    hide InLanguage, ValidPath;
    forall j | 0 <= j < |es| && j != i && InLanguage(es[j], s) ensures Better(es[i], es[j]) {
      if es[j] == es[i] {
        if es[i].kind.Prefix? { DuplicatesLost(es, i, j, s); }
      } else {
        GivesWay(es[i], es[j], s);
      }
    }
  }

  ghost predicate GoesToLongest(es: seq<Entry>) {
    forall i, s :: 0 <= i < |es| ==> (InResult(es, i, s) <==> Wins(es, i, s))
  }

  /** An entry keeps exactly the requests it wins, if and only if no entries clash and no Exact entry is repeated. */
  lemma LongestMatch(es: seq<Entry>)
    requires AllParsed(es)
    ensures GoesToLongest(es) <==> NoClash(es) && ExactOnce(es)
  {
    hide ValidPath;
    if NoClash(es) && ExactOnce(es) {
      forall i, s | 0 <= i < |es| ensures InResult(es, i, s) <==> Wins(es, i, s) {
        if Wins(es, i, s) { WinnerKeeps(es, i, s); }
        if InResult(es, i, s) { KeeperWins(es, i, s); }
      }
    } else if NoClash(es) {
      var i, j :| 0 <= i < j < |es| && es[i].kind.Exact? && es[i] == es[j];
      assert InResult(es, i, es[i].path) && !Wins(es, i, es[i].path);
    } else {
      var i, j :| 0 <= i < |es| && 0 <= j < |es| && Clash(es[i], es[j]);
      assert InResult(es, j, es[j].path) && InLanguage(es[i], es[j].path) && !Better(es[j], es[i]);
      assert !Wins(es, j, es[j].path);
    }
  }

  // Nothing is lost.

  /** Of the first n entries some best one matches; others that match are equal to it or worse. */
  lemma {:induction false} BestOf(es: seq<Entry>, n: nat, s: string) returns (b: int)
    requires n <= |es| && AllParsed(es)
    ensures -1 <= b < n
    ensures b == -1 ==> forall j :: 0 <= j < n ==> !InLanguage(es[j], s)
    ensures b >= 0 ==> InLanguage(es[b], s)
    ensures b >= 0 ==> forall j :: 0 <= j < n && InLanguage(es[j], s) ==> es[j] == es[b] || Better(es[b], es[j])
    decreases n
  {
    hide InLanguage, ValidPath;
    if n == 0 { return -1; }
    var c := BestOf(es, n - 1, s);
    if !InLanguage(es[n - 1], s) { return c; }
    if c == -1 { return n - 1; }
    if es[n - 1] != es[c] { NeverTied(es[n - 1], es[c], s); }
    return if Better(es[n - 1], es[c]) then n - 1 else c;
  }

  /** Of two different entries that match the same request one is better. */
  lemma NeverTied(a: Entry, b: Entry, s: string)
    requires ValidPath(a.path) && ValidPath(b.path) && a != b && InLanguage(a, s) && InLanguage(b, s)
    ensures Better(a, b) || Better(b, a)
  {
    PathOfMatch(a, s);
    PathOfMatch(b, s);
  }

  ghost predicate Matched(es: seq<Entry>, s: string) { exists i :: 0 <= i < |es| && InLanguage(es[i], s) }

  ghost predicate Kept(es: seq<Entry>, s: string) { exists i :: 0 <= i < |es| && InResult(es, i, s) }

  function Slashed(e: Entry): Entry { Entry(e.path + "/", Prefix) }

  /** Every repeated Prefix entry has a longer one with the same language beside it. Repeated entries that end with a
      slash never have, so that longer one occurs once. */
  predicate RepeatsCovered(es: seq<Entry>) {
    forall i, j :: 0 <= i < j < |es| && es[i] == es[j] && es[i].kind.Prefix? ==>
                     !EndsWithSlash(es[i].path) && Slashed(es[i]) in es
  }

  lemma SlashedOnce(es: seq<Entry>, i: nat, j: nat, k: nat)
    requires RepeatsCovered(es) && i < j < |es| && es[i] == es[j] && es[i].kind.Prefix?
    requires k < |es| && es[k] == Slashed(es[i])
    ensures Once(es, k)
  {
    assert EndsWithSlash(es[k].path);
    forall l | 0 <= l < |es| && es[l] == es[k] ensures l == k {}
  }

  lemma SlashedSame(e: Entry, s: string)
    requires e.kind.Prefix? && !EndsWithSlash(e.path) && ValidPath(e.path) && InLanguage(e, s)
    ensures InLanguage(Slashed(e), s)
  {
    assert WithoutSlash(e.path + "/") == e.path;
  }

  /** The best match, if it is a Prefix entry, is not repeated. */
  lemma BestIsOnce(es: seq<Entry>, b: nat, j: nat, s: string)
    requires RepeatsCovered(es) && b < |es| && j < |es| && b != j && es[j] == es[b] && es[b].kind.Prefix?
    requires ValidPath(es[b].path) && InLanguage(es[b], s)
    ensures exists k :: 0 <= k < |es| && InLanguage(es[k], s) && es[k] != es[b] && !Better(es[b], es[k])
  {
    hide InLanguage, ValidPath;
    var low, high := if b < j then b else j, if b < j then j else b;
    assert low < high && es[low] == es[high];
    SlashedSame(es[b], s);
    var k :| 0 <= k < |es| && es[k] == Slashed(es[b]);
    assert InLanguage(es[k], s) && |es[k].path| == |es[b].path| + 1;
  }

  lemma MatchedIsKept(es: seq<Entry>, s: string)
    requires AllParsed(es) && RepeatsCovered(es) && Matched(es, s)
    ensures Kept(es, s)
  {
    var b := BestOf(es, |es|, s);
    hide InLanguage, ValidPath;
    if es[b].kind.Prefix? {
      forall j | 0 <= j < |es| && j != b ensures es[j] != es[b] {
        if es[j] == es[b] { BestIsOnce(es, b, j, s); }
      }
      assert Wins(es, b, s);
      WinnerKeeps(es, b, s);
    }
    assert InResult(es, b, s);
  }

  // A request that only a repeated Prefix entry could keep: a long name below it.

  function MaxPath(es: seq<Entry>): (n: nat)
    ensures forall e :: e in es ==> |e.path| <= n
  {
    if es == [] then 0
    else
      var rest := MaxPath(es[1..]);
      if |es[0].path| > rest then |es[0].path| else rest
  }

  function Base(path: string): string { if EndsWithSlash(path) then path else path + "/" }

  function LongName(path: string, n: nat): string { Base(path) + seq(n + 2, _ => 'a') }

  lemma LongNameMatches(e: Entry, n: nat)
    requires e.kind.Prefix? && ValidPath(e.path)
    ensures InLanguage(e, LongName(e.path, n))
  {
    var s := LongName(e.path, n);
    assert Base(e.path) <= s;
    if e.path == "/" {
      assert s[0] == '/';
    } else {
      var q := WithoutSlash(e.path);
      assert q + "/" == Base(e.path);
    }
  }

  /** Whatever else matches the long name has a path that this entry's path extends. */
  lemma LongNameOthers(e: Entry, x: Entry, n: nat)
    requires e.kind.Prefix? && ValidPath(e.path) && ValidPath(x.path) && |x.path| <= n && |e.path| <= n
    requires InLanguage(x, LongName(e.path, n)) && (EndsWithSlash(e.path) || x != Slashed(e))
    ensures x.kind.Prefix? && StartsWith(e.path, x.path)
  {
    var s := LongName(e.path, n);
    PathOfMatch(x, s);
    var base := Base(e.path);
    assert base <= s && x.path <= s;
    if x.path != "/" {
      var q := WithoutSlash(x.path);
      assert q + "/" <= s && s[|q|] == '/';
      assert forall i :: |base| <= i < |s| ==> s[i] == 'a';
      assert |q| < |base|;
      assert x.path == s[..|x.path|] && base == s[..|base|];
      assert |x.path| <= |base| && (|x.path| == |base| ==> x.path == base);
    }
    assert x.path == s[..|x.path|] && e.path == s[..|e.path|];
  }

  lemma LongNameLost(es: seq<Entry>, i: nat, j: nat)
    requires AllParsed(es) && i < j < |es| && es[i] == es[j] && es[i].kind.Prefix?
    requires EndsWithSlash(es[i].path) || Slashed(es[i]) !in es
    ensures var s := LongName(es[i].path, MaxPath(es)); Matched(es, s) && !Kept(es, s)
  {
    var n := MaxPath(es);
    var s := LongName(es[i].path, n);
    LongNameMatches(es[i], n);
    assert es[i] in es;
    hide InLanguage, ValidPath, LongName;
    forall k | 0 <= k < |es| ensures !InResult(es, k, s) {
      if InLanguage(es[k], s) {
        assert es[k] in es;
        LongNameOthers(es[i], es[k], n);
        assert InLanguage(es[if k == i then j else i], s);
      }
    }
  }

  /** Every matched request is kept, if and only if each repeated Prefix entry has its path with a slash beside it. */
  lemma UnionKept(es: seq<Entry>)
    requires AllParsed(es)
    ensures (forall s :: Matched(es, s) <==> Kept(es, s)) <==> RepeatsCovered(es)
  {
    hide InLanguage, ValidPath;
    if RepeatsCovered(es) {
      forall s ensures Matched(es, s) <==> Kept(es, s) {
        if Matched(es, s) { MatchedIsKept(es, s); }
      }
    } else {
      var i, j :| 0 <= i < j < |es| && es[i] == es[j] && es[i].kind.Prefix? &&
                  (EndsWithSlash(es[i].path) || Slashed(es[i]) !in es);
      LongNameLost(es, i, j);
    }
  }

  /** A matched request has a winner exactly if the best matching entry occurs once. */
  lemma WinnerExists(es: seq<Entry>, s: string) returns (b: nat)
    requires AllParsed(es) && Matched(es, s)
    ensures b < |es| && InLanguage(es[b], s)
    ensures forall j :: 0 <= j < |es| && InLanguage(es[j], s) ==> es[j] == es[b] || Better(es[b], es[j])
    ensures (exists i :: 0 <= i < |es| && Wins(es, i, s)) <==> Once(es, b)
    ensures Once(es, b) ==> Wins(es, b, s)
  {
    b := BestOf(es, |es|, s);
    hide InLanguage, ValidPath;
    if Once(es, b) {
      assert Wins(es, b, s);
    } else {
      var j :| 0 <= j < |es| && j != b && es[j] == es[b];
      forall i | 0 <= i < |es| ensures !Wins(es, i, s) {
        assert i != b ==> es[b] == es[i] || Better(es[b], es[i]) || !InLanguage(es[i], s);
      }
    }
  }

  // ----- entries as written -----

  /** Entries as written become equal exactly if they are Prefix paths and one is the other with a slash; the shorter
      of them does not end with a slash itself unless it is the root. */
  lemma ParsedEqual(a: Entry, b: Entry)
    requires ValidPath(a.path) && ValidPath(b.path)
    ensures Parsed(a) == Parsed(b) <==> a == b || SlashApart(a, b) || SlashApart(b, a)
  {
    hide ValidPath;
    if a.kind.Prefix? && b.kind.Prefix? {
      SlashCut(a.path);
      SlashCut(b.path);
      if Parsed(a) == Parsed(b) { ParsedApart(a, b); }
    }
  }

  lemma ParsedApart(a: Entry, b: Entry)
    requires a.kind.Prefix? && b.kind.Prefix? && ValidPath(a.path) && ValidPath(b.path) && Parsed(a) == Parsed(b)
    ensures a == b || SlashApart(a, b) || SlashApart(b, a)
  {
    SlashCut(a.path);
    SlashCut(b.path);
    hide EndsWithSlash, WithoutSlash, ValidPath;
    var p, q := WithoutSlash(a.path), WithoutSlash(b.path);
    if p == q {
    } else if p == "" {
      assert a.path == "/" && q == "/" && b.path == "//";
    } else {
      assert b.path == "/" && p == "/" && a.path == "//";
    }
  }

  lemma SlashCut(p: string)
    requires ValidPath(p)
    ensures p == WithoutSlash(p) + if EndsWithSlash(p) then "/" else ""
    ensures WithoutSlash(p) == "" ==> p == "/"
    ensures EndsWithSlash("/") && WithoutSlash("/") == ""
    ensures EndsWithSlash(p + "/") && WithoutSlash(p + "/") == p
  {
  }

  predicate SlashApart(a: Entry, b: Entry) {
    a.kind.Prefix? && b == Slashed(a) && (EndsWithSlash(a.path) ==> a.path == "/")
  }

  /** `/a` and `/a/`, both Prefix: the request `/a` is matched by both and kept by neither. */
  lemma TrailingSlashExample()
    ensures var es := [Parsed(Entry("/a", Prefix)), Parsed(Entry("/a/", Prefix))];
            Matched(es, "/a") && !Kept(es, "/a")
  {
    var raw := "/a/";
    assert raw[..2] == "/a";
    var es := [Parsed(Entry("/a", Prefix)), Parsed(Entry("/a/", Prefix))];
    assert es[0] == Entry("/a", Prefix) && es[1] == es[0];
    assert InLanguage(es[0], "/a");
    DuplicatesLost(es, 0, 1, "/a");
  }

  /** Entries as written clash only if a Prefix path ends with two slashes. */
  lemma ClashNeedsTwoSlashes(a: Entry, b: Entry)
    requires ValidPath(a.path) && ValidPath(b.path) && Clash(Parsed(a), Parsed(b))
    ensures a.kind.Prefix? && |a.path| > 2 && a.path[|a.path| - 2..] == "//" && a.path == b.path + "//"
  {
  }

  lemma DoubleSlashExample()
    ensures var es := [Parsed(Entry("/a//", Prefix)), Parsed(Entry("/a", Exact))];
            InResult(es, 0, "/a") && InResult(es, 1, "/a")
  {
    var raw := "/a//";
    assert raw[..3] == "/a/" && WithoutSlash(raw) == "/a/" && WithoutSlash("/a/") == "/a";
    var es := [Parsed(Entry("/a//", Prefix)), Parsed(Entry("/a", Exact))];
    assert es[0] == Entry("/a/", Prefix) && es[1] == Entry("/a", Exact);
    ClashOverlaps(es, 0, 1);
  }
}
