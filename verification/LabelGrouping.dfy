/** Grouping a set of pods by label expressions, and turning a set of peers into rule elements. */
module LabelGrouping {
  import opened Peers
  import opened FWRules

  /** "`key` in `values`" within the namespace `ns`, and the pods it stands for. */
  datatype LabelOption = LabelOption(key: string, values: set<string>, ns: Namespace, pods: set<Peer>)

  /** The pods of the namespace, each known under its own namespace only. */
  ghost predicate WellKeyed(info: ClusterInfo) {
    forall ns, p :: p in info.NsPods(ns) ==> NamespaceOf(p) == ns
  }

  /** ns_dict of the cluster info: every peer that is not an IP block is under its namespace, and nowhere else. */
  method MakeNsDict(peers: set<Peer>, info: ClusterInfo) returns (r: ClusterInfo)
    ensures r == info.(nsDict := r.nsDict)
    ensures forall ns, p :: p in r.NsPods(ns) <==> p in peers && !p.Address? && NamespaceOf(p) == ns
    ensures WellKeyed(r) && r.KnowsAll(peers)
  {
    var d: map<Namespace, set<Peer>> := map[];
    var todo := peers;
    while todo != {}
      invariant todo <= peers
      invariant forall ns, p :: p in Entry(d, ns) <==> (p in peers - todo && !p.Address? && NamespaceOf(p) == ns)
      decreases todo
    {
      var peer :| peer in todo;
      todo := todo - {peer};
      if !peer.Address? {
        var ns := NamespaceOf(peer);
        forall x { EntryUpdate(d, ns, Entry(d, ns) + {peer}, x); }
        d := d[ns := Entry(d, ns) + {peer}];
      }
    }
    r := info.(nsDict := d);
    forall ns, p ensures p in r.NsPods(ns) <==> p in peers && !p.Address? && NamespaceOf(p) == ns {
      assert r.NsPods(ns) == Entry(d, ns);
    }
  }

  /** The pods with the value: all of them may be used for grouping, and at least one has to be grouped. */
  predicate ValueCovered(all: set<Peer>, pods: set<Peer>, extra: set<Peer>) {
    all != {} && all <= pods + extra && all * pods != {}
  }

  /** In a namespace: every pod with the value is available, and one of them has to be grouped. */
  lemma ValueUsable(info: ClusterInfo, key: string, v: string, ns: Namespace, pods: set<Peer>, extra: set<Peer>)
    ensures ValueCovered(info.Labelled(key, v) * info.NsPods(ns), pods, extra) <==>
              && (forall p :: p in info.NsPods(ns) && p in info.Labelled(key, v) ==> p in pods || p in extra)
              && (exists p :: p in info.NsPods(ns) && p in info.Labelled(key, v) && p in pods)
  {
    var all := info.Labelled(key, v) * info.NsPods(ns);
    hide Entry;
    if p :| p in info.NsPods(ns) && p in info.Labelled(key, v) && p in pods { assert p in all * pods; }
    if ValueCovered(all, pods, extra) {
      var p :| p in all * pods;
      forall q | q in info.NsPods(ns) && q in info.Labelled(key, v) ensures q in pods || q in extra {
        assert q in all;
      }
    }
  }

  ghost predicate Usable(info: ClusterInfo, ns: Namespace, pods: set<Peer>, extra: set<Peer>, o: LabelOption) {
    && o.ns == ns
    && o.pods == LabelPods(info, o.key, o.values, info.NsPods(ns))
    && o.pods <= pods + extra
    && o.pods * pods != {}
  }

  lemma LabelPodsMore(info: ClusterInfo, key: string, values: set<string>, v: string, pods: set<Peer>)
    ensures LabelPods(info, key, values + {v}, pods) ==
            LabelPods(info, key, values, pods) + info.Labelled(key, v) * pods
  {
  }

  ghost predicate Collected(info: ClusterInfo, key: string, ns: Namespace, pods: set<Peer>, extra: set<Peer>,
                            seen: set<string>, values: set<string>, covered: set<Peer>) {
    && (forall v :: v in values <==> v in seen && ValueCovered(info.Labelled(key, v) * info.NsPods(ns), pods, extra))
    && covered == LabelPods(info, key, values, info.NsPods(ns))
  }

  lemma CollectedMore(info: ClusterInfo, key: string, ns: Namespace, pods: set<Peer>, extra: set<Peer>,
                      seen: set<string>, values: set<string>, covered: set<Peer>, v: string)
    requires Collected(info, key, ns, pods, extra, seen, values, covered)
    ensures var all := info.Labelled(key, v) * info.NsPods(ns);
            if ValueCovered(all, pods, extra)
            then Collected(info, key, ns, pods, extra, seen + {v}, values + {v}, covered + all)
            else Collected(info, key, ns, pods, extra, seen + {v}, values, covered)
  {
    LabelPodsMore(info, key, values, v, info.NsPods(ns));
    hide ValueCovered, LabelPods, Entry;
  }

  /** The values of a key that may be used for grouping. */
  ghost function ValuesCovered(info: ClusterInfo, key: string, ns: Namespace, pods: set<Peer>, extra: set<Peer>)
    : (r: set<string>)
    ensures forall v :: v in r <==>
                        v in info.Values(key, ns) && ValueCovered(info.Labelled(key, v) * info.NsPods(ns), pods, extra)
  {
    set v | v in info.Values(key, ns) && ValueCovered(info.Labelled(key, v) * info.NsPods(ns), pods, extra)
  }

  /** The grouping by all these values. */
  ghost function OptionOf(info: ClusterInfo, key: string, ns: Namespace, pods: set<Peer>, extra: set<Peer>)
    : (r: LabelOption)
    ensures r.key == key
  {
    var values := ValuesCovered(info, key, ns, pods, extra);
    LabelOption(key, values, ns, LabelPods(info, key, values, info.NsPods(ns)))
  }

  /** The values of the key whose pods are all available. */
  method CoveredValues(info: ClusterInfo, key: string, ns: Namespace, pods: set<Peer>, extra: set<Peer>)
    returns (values: set<string>, covered: set<Peer>)
    ensures LabelOption(key, values, ns, covered) == OptionOf(info, key, ns, pods, extra)
  {
    var todo := info.Values(key, ns);
    ghost var seen := {};
    values, covered := {}, {};
    assert Collected(info, key, ns, pods, extra, seen, values, covered);
    while todo != {}
      invariant seen + todo == info.Values(key, ns)
      invariant Collected(info, key, ns, pods, extra, seen, values, covered)
      decreases todo
    {
      hide Collected, LabelPods, Entry;
      var v :| v in todo;
      todo := todo - {v};
      var all := info.Labelled(key, v) * info.NsPods(ns);
      var fromPods := all * (pods + extra);
      assert all == fromPods <==> all <= pods + extra;
      CollectedMore(info, key, ns, pods, extra, seen, values, covered, v);
      if all != {} && all == fromPods && all * pods != {} {
        values := values + {v};
        covered := covered + fromPods;
      }
      seen := seen + {v};
    }
    assert seen == info.Values(key, ns);
    assert values == ValuesCovered(info, key, ns, pods, extra);
  }

  /** A label to group by: allowed, with a usable value, and with enough pods. `single`: one pod is enough. */
  ghost predicate Qualifies(info: ClusterInfo, key: string, ns: Namespace, pods: set<Peer>, extra: set<Peer>,
                            single: bool) {
    && key in info.allowedLabels
    && OptionOf(info, key, ns, pods, extra).values != {}
    && |OptionOf(info, key, ns, pods, extra).pods| >= if single then 1 else 2
  }

  lemma QualifiesIf(info: ClusterInfo, key: string, ns: Namespace, pods: set<Peer>, extra: set<Peer>, single: bool)
    requires key in info.allowedLabels
    ensures var o := OptionOf(info, key, ns, pods, extra);
            Qualifies(info, key, ns, pods, extra, single) <==> o.values != {} && |o.pods| >= if single then 1 else 2
  {
  }

  lemma TwoOrMore(s: set<Peer>)
    ensures |s| >= 1 <==> s != {}
    ensures |s| >= 2 <==> exists p, q :: p in s && q in s && p != q
  {
    if p :| p in s {
      assert |s - {p}| == |s| - 1;
      if q :| q in s - {p} { assert p in s && q in s && p != q; } else { assert s == {p}; }
    }
  }

  /** A label to group by stands for one pod at least, or for two if single pods are ignored. */
  lemma QualifiesMeans(info: ClusterInfo, key: string, ns: Namespace, pods: set<Peer>, extra: set<Peer>, single: bool)
    ensures var o := OptionOf(info, key, ns, pods, extra).pods;
            Qualifies(info, key, ns, pods, extra, single) <==>
              key in info.allowedLabels && o != {} && (single || exists p, q :: p in o && q in o && p != q)
  {
    var o := OptionOf(info, key, ns, pods, extra);
    if o.values != {} {
      OptionUsable(info, key, ns, pods, extra);
      TwoOrMore(o.pods);
    } else {
      assert o.pods == {};
    }
  }

  ghost predicate KeysDiffer(options: seq<LabelOption>) {
    forall i, j :: 0 <= i < j < |options| ==> options[i].key != options[j].key
  }

  /** The options of the keys outside `todo`. */
  ghost predicate OptionsFor(info: ClusterInfo, ns: Namespace, pods: set<Peer>, extra: set<Peer>, single: bool,
                             todo: set<string>, options: seq<LabelOption>) {
    && KeysDiffer(options)
    && forall o :: o in options <==>
                     o.key !in todo && Qualifies(info, o.key, ns, pods, extra, single) &&
                     o == OptionOf(info, o.key, ns, pods, extra)
  }

  lemma OptionsMore(info: ClusterInfo, ns: Namespace, pods: set<Peer>, extra: set<Peer>, single: bool,
                    todo: set<string>, options: seq<LabelOption>, key: string)
    requires key in todo && OptionsFor(info, ns, pods, extra, single, todo, options)
    ensures OptionsFor(info, ns, pods, extra, single, todo - {key},
                       if Qualifies(info, key, ns, pods, extra, single)
                       then options + [OptionOf(info, key, ns, pods, extra)] else options)
  {
    hide Qualifies, OptionOf;
    if Qualifies(info, key, ns, pods, extra, single) {
      KeysDifferMore(options, OptionOf(info, key, ns, pods, extra));
    }
  }

  lemma KeysDifferMore(options: seq<LabelOption>, o: LabelOption)
    requires KeysDiffer(options) && forall x :: x in options ==> x.key != o.key
    ensures KeysDiffer(options + [o])
  {
  }

  /** The valid groupings: exactly one for every label that qualifies. */
  method RepOptions(info: ClusterInfo, ns: Namespace, pods: set<Peer>, extra: set<Peer>, single: bool)
    returns (options: seq<LabelOption>)
    ensures forall o :: o in options ==> Usable(info, ns, pods, extra, o)
    ensures OptionsFor(info, ns, pods, extra, single, {}, options)
  {
    var todo := info.allowedLabels;
    options := [];
    assert OptionsFor(info, ns, pods, extra, single, todo, options);
    hide *;
    while todo != {}
      invariant todo <= info.allowedLabels
      invariant OptionsFor(info, ns, pods, extra, single, todo, options)
      decreases todo
    {
      var key :| key in todo;
      OptionsMore(info, ns, pods, extra, single, todo, options, key);
      todo := todo - {key};
      var values, covered := CoveredValues(info, key, ns, pods, extra);
      QualifiesIf(info, key, ns, pods, extra, single);
      if values != {} && |covered| >= (if single then 1 else 2) {
        options := options + [LabelOption(key, values, ns, covered)];
      }
    }
    OptionsUsable(info, ns, pods, extra, single, options);
  }

  lemma OptionsUsable(info: ClusterInfo, ns: Namespace, pods: set<Peer>, extra: set<Peer>, single: bool,
                      options: seq<LabelOption>)
    requires OptionsFor(info, ns, pods, extra, single, {}, options)
    ensures forall o :: o in options ==> Usable(info, ns, pods, extra, o)
  {
    forall o | o in options ensures Usable(info, ns, pods, extra, o) {
      OptionUsable(info, o.key, ns, pods, extra);
    }
  }

  /** The pods of usable values may all be used, and one of them has to be grouped. */
  lemma OptionUsable(info: ClusterInfo, key: string, ns: Namespace, pods: set<Peer>, extra: set<Peer>)
    requires OptionOf(info, key, ns, pods, extra).values != {}
    ensures Usable(info, ns, pods, extra, OptionOf(info, key, ns, pods, extra))
  {
    var o := OptionOf(info, key, ns, pods, extra);
    var v :| v in o.values;
    var p :| p in info.Labelled(key, v) * info.NsPods(ns) && p in pods;
    assert p in o.pods;
    forall q | q in o.pods ensures q in pods + extra {
      var w :| w in o.values && q in info.Labelled(key, w);
      assert q in info.Labelled(key, w) * info.NsPods(ns);
    }
  }

  ghost predicate BySize(s: seq<LabelOption>) {
    forall i, j :: 0 <= i < j < |s| ==> |s[i].pods| >= |s[j].pods|
  }

  /** sorted(..., reverse=True): larger groupings first. */
  method SortedBySize(options: seq<LabelOption>) returns (r: seq<LabelOption>)
    ensures multiset(r) == multiset(options) && BySize(r)
  {
    r := [];
    for i := 0 to |options|
      invariant multiset(r) == multiset(options[..i]) && BySize(r)
    {
      assert options[..i + 1] == options[..i] + [options[i]];
      r := Inserted(r, options[i]);
    }
    assert options[..|options|] == options;
  }

  method Inserted(s: seq<LabelOption>, o: LabelOption) returns (r: seq<LabelOption>)
    requires BySize(s)
    ensures multiset(r) == multiset(s) + multiset{o} && BySize(r)
  {
    var k := 0;
    while k < |s| && |s[k].pods| >= |o.pods|
      invariant 0 <= k <= |s|
      invariant forall i :: 0 <= i < k ==> |s[i].pods| >= |o.pods|
    {
      k := k + 1;
    }
    InsertSorted(s, k, o);
    InsertMultiset(s, k, o);
    r := s[..k] + [o] + s[k..];
  }

  lemma InsertMultiset(s: seq<LabelOption>, k: nat, o: LabelOption)
    requires k <= |s|
    ensures multiset(s[..k] + [o] + s[k..]) == multiset(s) + multiset{o}
  {
    assert s == s[..k] + s[k..];
  }

  lemma InsertSorted(s: seq<LabelOption>, k: nat, o: LabelOption)
    requires k <= |s| && BySize(s)
    requires forall i :: 0 <= i < k ==> |s[i].pods| >= |o.pods|
    requires k < |s| ==> |s[k].pods| < |o.pods|
    ensures BySize(s[..k] + [o] + s[k..])
  {
    var r := s[..k] + [o] + s[k..];
    forall i, j | 0 <= i < j < |r| ensures |r[i].pods| >= |r[j].pods| {
      assert i < k ==> r[i] == s[i];
      assert i > k ==> r[i] == s[i - 1];
      assert j < k ==> r[j] == s[j];
      assert j > k ==> r[j] == s[j - 1] && |s[j - 1].pods| <= |s[k].pods|;
    }
  }

  ghost predicate Chose(chosen: seq<LabelOption>, p: Peer) {
    exists i :: 0 <= i < |chosen| && p in chosen[i].pods
  }

  lemma ChoseConcat(a: seq<LabelOption>, b: seq<LabelOption>, p: Peer)
    ensures Chose(a + b, p) <==> Chose(a, p) || Chose(b, p)
  {
    if Chose(a, p) {
      var i :| 0 <= i < |a| && p in a[i].pods;
      assert (a + b)[i] == a[i];
    }
    if Chose(b, p) {
      var i :| 0 <= i < |b| && p in b[i].pods;
      assert (a + b)[|a| + i] == b[i];
    }
  }

  /** No pod of the set is in two of the groupings. */
  ghost predicate Separate(chosen: seq<LabelOption>, pods: set<Peer>) {
    forall i, j :: 0 <= i < j < |chosen| ==> chosen[i].pods * chosen[j].pods * pods == {}
  }

  /** The choice splits `pods` into the chosen groupings and what remains. */
  ghost predicate Splits(chosen: seq<LabelOption>, remaining: set<Peer>, pods: set<Peer>) {
    && remaining <= pods
    && (forall p :: p in pods ==> (p in remaining <==> !Chose(chosen, p)))
    && Separate(chosen, pods)
  }

  lemma SplitsMore(chosen: seq<LabelOption>, remaining: set<Peer>, pods: set<Peer>, o: LabelOption)
    requires Splits(chosen, remaining, pods) && o.pods * pods <= remaining
    ensures Splits(chosen + [o], remaining - o.pods, pods)
  {
    var next := chosen + [o];
    forall p | p in pods ensures p in remaining - o.pods <==> !Chose(next, p) {
      ChoseConcat(chosen, [o], p);
      assert p in o.pods ==> p in [o][0].pods;
    }
    forall i, j | 0 <= i < j < |next| ensures next[i].pods * next[j].pods * pods == {} {
      if j == |chosen| {
        forall p | p in chosen[i].pods && p in pods ensures p !in remaining {
          assert Chose(chosen, p);
        }
      }
    }
  }

  /** Some peer is in all three sets. */
  ghost predicate Meet(a: set<Peer>, b: set<Peer>, c: set<Peer>) { a * b * c != {} }

  lemma MeetMore(a: set<Peer>, b: set<Peer>, c: set<Peer>, more: set<Peer>)
    requires Meet(a, b, c) && c <= more
    ensures Meet(a, b, more)
  {
    var p :| p in a * b * c;
    assert p in a * b * more;
  }

  /** A chosen grouping shares one of the pods with the other and is as large. */
  ghost predicate Takes(c: LabelOption, o: LabelOption, pods: set<Peer>) {
    |c.pods| >= |o.pods| && Meet(c.pods, o.pods, pods)
  }

  /** An option meets one that was chosen from the first n. */
  ghost predicate Met(options: seq<LabelOption>, chosen: seq<LabelOption>, i: nat, pods: set<Peer>, n: nat)
    requires i < |options| && n <= |options|
  {
    exists j :: 0 <= j < n && options[j] in chosen && options[j].pods * options[i].pods * pods != {}
  }

  /** An option with a pod that does not remain meets one that was chosen. */
  lemma TakenIsMet(options: seq<LabelOption>, chosen: seq<LabelOption>, remaining: set<Peer>, pods: set<Peer>, i: nat,
                   n: nat)
    requires i < |options| && n <= |options| && Splits(chosen, remaining, pods)
    requires forall o :: o in chosen ==> o in options[..n]
    requires !(options[i].pods * pods <= remaining)
    ensures Met(options, chosen, i, pods, n)
  {
    var p :| p in options[i].pods * pods && p !in remaining;
    assert Chose(chosen, p);
    var c :| 0 <= c < |chosen| && p in chosen[c].pods;
    assert chosen[c] in chosen;
    var j :| 0 <= j < n && options[..n][j] == chosen[c];
    assert p in options[j].pods * options[i].pods * pods;
  }

  /** The greedy choice: an option is left out only if it shares a pod with an earlier option that was chosen. */
  method Choose(options: seq<LabelOption>, pods: set<Peer>) returns (chosen: seq<LabelOption>, remaining: set<Peer>)
    requires forall o :: o in options ==> o.pods * pods != {}
    ensures Splits(chosen, remaining, pods)
    ensures forall o :: o in chosen ==> o in options
    ensures forall i :: 0 <= i < |options| ==> options[i] in chosen || Met(options, chosen, i, pods, i)
  {
    assert AllMet(options, [], pods, 0);
    chosen, remaining := [], pods;
    var i := 0;
    while i < |options|
      invariant 0 <= i <= |options|
      invariant Splits(chosen, remaining, pods)
      invariant forall o :: o in chosen ==> o in options[..i]
      invariant AllMet(options, chosen, pods, i)
    {
      hide Splits, Met, AllMet;
      var o := options[i];
      assert options[..i + 1] == options[..i] + [o];
      if o.pods * pods <= remaining {
        SplitsMore(chosen, remaining, pods, o);
        AllMetChosen(options, chosen, pods, i);
        chosen := chosen + [o];
        remaining := remaining - o.pods;
      } else {
        TakenIsMet(options, chosen, remaining, pods, i, i);
        AllMetSkipped(options, chosen, pods, i);
      }
      i := i + 1;
      if remaining == {} { break; }
    }
    forall k | i <= k < |options| ensures Met(options, chosen, k, pods, k) {
      assert options[k] in options;
      assert forall o :: o in options[..i] ==> o in options[..k];
      TakenIsMet(options, chosen, remaining, pods, k, k);
    }
  }

  /** Each of the first n options is chosen or meets an earlier one that is. */
  ghost predicate AllMet(options: seq<LabelOption>, chosen: seq<LabelOption>, pods: set<Peer>, n: nat)
    requires n <= |options|
  {
    forall j :: 0 <= j < n ==> options[j] in chosen || Met(options, chosen, j, pods, j)
  }

  lemma AllMetChosen(options: seq<LabelOption>, chosen: seq<LabelOption>, pods: set<Peer>, i: nat)
    requires i < |options| && AllMet(options, chosen, pods, i)
    ensures AllMet(options, chosen + [options[i]], pods, i + 1)
  {
    hide Met;
    var next := chosen + [options[i]];
    assert next[|chosen|] == options[i];
    forall j | 0 <= j < i ensures options[j] in next || Met(options, next, j, pods, j) {
      MetMore(options, chosen, options[i], j, pods);
    }
  }

  lemma AllMetSkipped(options: seq<LabelOption>, chosen: seq<LabelOption>, pods: set<Peer>, i: nat)
    requires i < |options| && AllMet(options, chosen, pods, i) && Met(options, chosen, i, pods, i)
    ensures AllMet(options, chosen, pods, i + 1)
  {
    hide Met;
  }

  lemma MetMore(options: seq<LabelOption>, chosen: seq<LabelOption>, o: LabelOption, j: nat, pods: set<Peer>)
    requires j < |options| && (options[j] in chosen || Met(options, chosen, j, pods, j))
    ensures options[j] in chosen + [o] || Met(options, chosen + [o], j, pods, j)
  {
  }

  lemma UsableMeets(info: ClusterInfo, ns: Namespace, pods: set<Peer>, extra: set<Peer>, o: LabelOption)
    requires Usable(info, ns, pods, extra, o)
    ensures o.pods * pods != {}
  {
  }

  /** A label that qualifies is used, unless another one is used that shares a pod to be grouped with it and stands for
      at least as many pods. */
  ghost predicate UsesLabels(info: ClusterInfo, chosen: seq<LabelOption>, ns: Namespace, pods: set<Peer>,
                             extra: set<Peer>, single: bool) {
    forall key :: Qualifies(info, key, ns, pods, extra, single) ==>
                    exists c :: c in chosen && c.ns == ns && Takes(c, OptionOf(info, key, ns, pods, extra), pods)
  }

  /** _get_pods_grouping_by_labels */
  method GroupInNamespace(info: ClusterInfo, pods: set<Peer>, ns: Namespace, extra: set<Peer>, single: bool)
    returns (chosen: seq<LabelOption>, remaining: set<Peer>)
    ensures Splits(chosen, remaining, pods)
    ensures forall o :: o in chosen ==> Usable(info, ns, pods, extra, o)
    ensures UsesLabels(info, chosen, ns, pods, extra, single)
  {
    var options := RepOptions(info, ns, pods, extra, single);
    var sorted := SortedBySize(options);
    hide Qualifies, OptionOf, Usable, Takes, Splits;
    forall o ensures o in sorted <==> o in options {
      assert o in sorted <==> o in multiset(sorted);
      assert o in options <==> o in multiset(options);
    }
    forall o | o in options ensures o.pods * pods != {} { UsableMeets(info, ns, pods, extra, o); }
    chosen, remaining := Choose(sorted, pods);
    forall key | Qualifies(info, key, ns, pods, extra, single)
      ensures exists c :: c in chosen && c.ns == ns && Takes(c, OptionOf(info, key, ns, pods, extra), pods)
    {
      var o := OptionOf(info, key, ns, pods, extra);
      assert o in sorted;
      var i :| 0 <= i < |sorted| && sorted[i] == o;
      MetTakes(sorted, chosen, i, pods);
      var c :| c in chosen && Takes(c, o, pods);
      UsableNs(info, ns, pods, extra, c);
    }
  }

  lemma UsableNs(info: ClusterInfo, ns: Namespace, pods: set<Peer>, extra: set<Peer>, o: LabelOption)
    requires Usable(info, ns, pods, extra, o)
    ensures o.ns == ns
  {
  }

  lemma MetTakes(sorted: seq<LabelOption>, chosen: seq<LabelOption>, i: nat, pods: set<Peer>)
    requires BySize(sorted) && i < |sorted| && sorted[i].pods * pods != {}
    requires sorted[i] in chosen || Met(sorted, chosen, i, pods, i)
    ensures exists c :: c in chosen && Takes(c, sorted[i], pods)
  {
    if sorted[i] in chosen {
      assert sorted[i].pods * sorted[i].pods * pods == sorted[i].pods * pods;
      assert Takes(sorted[i], sorted[i], pods);
    } else {
      var j :| 0 <= j < i && sorted[j] in chosen && sorted[j].pods * sorted[i].pods * pods != {};
      assert Takes(sorted[j], sorted[i], pods);
    }
  }

  /** The grouping as the caller uses it: each label expression stands for pods of its own namespace, all of them in
      `pods` or `extra`. */
  ghost predicate Grouping(info: ClusterInfo, chosen: seq<LabelOption>, pods: set<Peer>, extra: set<Peer>) {
    forall o :: o in chosen ==> o.pods == LabelPods(info, o.key, o.values, info.NsPods(o.ns)) && o.pods <= pods + extra
  }

  lemma UsesLabelsMore(info: ClusterInfo, a: seq<LabelOption>, b: seq<LabelOption>, ns: Namespace, pods: set<Peer>,
                       extra: set<Peer>, single: bool)
    requires UsesLabels(info, a, ns, pods, extra, single) || UsesLabels(info, b, ns, pods, extra, single)
    ensures UsesLabels(info, a + b, ns, pods, extra, single)
  {
    hide Qualifies, OptionOf, Takes;
    forall key | Qualifies(info, key, ns, pods, extra, single)
      ensures exists c :: c in a + b && c.ns == ns && Takes(c, OptionOf(info, key, ns, pods, extra), pods)
    {
      var s := if UsesLabels(info, a, ns, pods, extra, single) then a else b;
      var c :| c in s && c.ns == ns && Takes(c, OptionOf(info, key, ns, pods, extra), pods);
      assert c in a + b;
    }
  }

  lemma NothingToGroup(info: ClusterInfo, chosen: seq<LabelOption>, ns: Namespace, pods: set<Peer>, extra: set<Peer>,
                       single: bool)
    requires pods == {}
    ensures UsesLabels(info, chosen, ns, pods, extra, single)
  {
    forall key | Qualifies(info, key, ns, pods, extra, single) ensures false {
      OptionUsable(info, key, ns, pods, extra);
    }
  }

  /** _get_pods_grouping_by_labels_main: the groupings and the remaining pods split the set, namespace by
      namespace. */
  method GroupByLabels(info: ClusterInfo, pods: set<Peer>, extra: set<Peer>, single: bool)
    returns (chosen: seq<LabelOption>, remaining: set<Peer>)
    requires WellKeyed(info) && (forall p :: p in pods ==> p in info.NsPods(NamespaceOf(p)))
    ensures Splits(chosen, remaining, pods) && Grouping(info, chosen, pods, extra)
    ensures forall ns :: UsesLabels(info, chosen, ns, pods * info.NsPods(ns), extra * info.NsPods(ns), single)
  {
    var todo := set p | p in pods :: NamespaceOf(p);
    ghost var all := todo;
    chosen, remaining := [], {};
    while todo != {}
      invariant todo <= all
      invariant Splits(chosen, remaining, Of(pods, all - todo)) && Grouping(info, chosen, pods, extra)
      invariant forall o :: o in chosen ==> o.ns in all - todo
      invariant forall ns :: ns in all - todo ==>
                               UsesLabels(info, chosen, ns, pods * info.NsPods(ns), extra * info.NsPods(ns), single)
      decreases todo
    {
      hide UsesLabels;
      var ns :| ns in todo;
      var podsPerNs := pods * info.NsPods(ns);
      var extraPerNs := extra * info.NsPods(ns);
      assert podsPerNs == Of(pods, {ns});
      var more, left := GroupInNamespace(info, podsPerNs, ns, extraPerNs, single);
      SplitsApart(info, chosen, remaining, more, left, pods, extra, all - todo, ns);
      UsesLabelsMore(info, chosen, more, ns, podsPerNs, extraPerNs, single);
      forall n | n in all - todo
        ensures UsesLabels(info, chosen + more, n, pods * info.NsPods(n), extra * info.NsPods(n), single)
      {
        UsesLabelsMore(info, chosen, more, n, pods * info.NsPods(n), extra * info.NsPods(n), single);
      }
      todo := todo - {ns};
      chosen := chosen + more;
      remaining := remaining + left;
    }
    assert Of(pods, all - todo) == pods;
    forall ns | ns !in all
      ensures UsesLabels(info, chosen, ns, pods * info.NsPods(ns), extra * info.NsPods(ns), single)
    {
      NothingToGroup(info, chosen, ns, pods * info.NsPods(ns), extra * info.NsPods(ns), single);
    }
  }

  function Of(pods: set<Peer>, nss: set<Namespace>): set<Peer> {
    set p | p in pods && NamespaceOf(p) in nss
  }

  lemma SplitsApart(info: ClusterInfo, a: seq<LabelOption>, left: set<Peer>, b: seq<LabelOption>, left': set<Peer>,
                    pods: set<Peer>, extra: set<Peer>, done: set<Namespace>, ns: Namespace)
    requires WellKeyed(info) && ns !in done
    requires Splits(a, left, Of(pods, done)) && Grouping(info, a, pods, extra)
    requires forall o :: o in a ==> o.ns in done
    requires Splits(b, left', Of(pods, {ns}))
    requires forall o :: o in b ==> Usable(info, ns, Of(pods, {ns}), extra * info.NsPods(ns), o)
    ensures Splits(a + b, left + left', Of(pods, done + {ns})) && Grouping(info, a + b, pods, extra)
  {
    var c := a + b;
    forall o | o in c ensures o.pods == LabelPods(info, o.key, o.values, info.NsPods(o.ns)) && o.pods <= pods + extra {
      assert o in a || o in b;
    }
    assert forall o, p :: o in a && p in o.pods ==> NamespaceOf(p) in done;
    assert forall o, p :: o in b && p in o.pods ==> NamespaceOf(p) == ns;
    forall p | p in Of(pods, done + {ns}) ensures p in left + left' <==> !Chose(c, p) {
      ChoseConcat(a, b, p);
      if NamespaceOf(p) == ns {
        assert p in Of(pods, {ns}) && p !in left && !Chose(a, p);
      } else {
        assert p in Of(pods, done) && p !in left' && !Chose(b, p);
      }
    }
    forall i, j | 0 <= i < j < |c| ensures c[i].pods * c[j].pods * Of(pods, done + {ns}) == {} {
      if j < |a| {
        assert a[i].pods * a[j].pods * Of(pods, done) == {};
        assert forall p :: p in a[i].pods && p in Of(pods, done + {ns}) ==> p in Of(pods, done);
      } else if i >= |a| {
        assert b[i - |a|].pods * b[j - |a|].pods * Of(pods, {ns}) == {};
        assert forall p :: p in b[i - |a|].pods && p in Of(pods, done + {ns}) ==> p in Of(pods, {ns});
      } else {
        assert c[i] in a && c[j] in b;
      }
    }
  }

  /** Every label that qualifies in a namespace is used by an element, or an element with another label stands for at
      least as many pods and shares a pod with it. */
  ghost predicate SaysLabels(info: ClusterInfo, res: seq<Element>, pods: set<Peer>, single: bool) {
    forall ns, key :: Qualifies(info, key, ns, pods * info.NsPods(ns), {}, single) ==>
                        exists e :: e in res && LabelTakes(info, e, ns, key, pods)
  }

  ghost predicate LabelTakes(info: ClusterInfo, e: Element, ns: Namespace, key: string, pods: set<Peer>) {
    var o := OptionOf(info, key, ns, pods * info.NsPods(ns), {});
    && e.PodLabelsElement? && e.nsInfo == {ns}
    && |e.PeerSet(info)| >= |o.pods| && Meet(e.PeerSet(info), o.pods, pods)
  }

  lemma SaysLabelsMore(info: ClusterInfo, a: seq<Element>, b: seq<Element>, pods: set<Peer>, single: bool)
    requires SaysLabels(info, a, pods, single)
    ensures SaysLabels(info, a + b, pods, single)
  {
    hide Qualifies, LabelTakes;
    forall ns, key | Qualifies(info, key, ns, pods * info.NsPods(ns), {}, single)
      ensures exists e :: e in a + b && LabelTakes(info, e, ns, key, pods)
    {
      var e :| e in a && LabelTakes(info, e, ns, key, pods);
      assert e in a + b;
    }
  }

  function LabelElement(o: LabelOption): Element { PodLabelsElement(o.key, o.values, {o.ns}) }

  lemma LabelElementPods(info: ClusterInfo, c: LabelOption)
    requires c.pods == LabelPods(info, c.key, c.values, info.NsPods(c.ns))
    ensures LabelElement(c).PeerSet(info) == c.pods
  {
    assert NsSetPods(info, {c.ns}) == info.NsPods(c.ns);
  }

  lemma OptionSays(info: ClusterInfo, c: LabelOption, ns: Namespace, key: string, pods: set<Peer>)
    requires c.ns == ns && c.pods == LabelPods(info, c.key, c.values, info.NsPods(ns))
    requires Takes(c, OptionOf(info, key, ns, pods * info.NsPods(ns), {}), pods * info.NsPods(ns))
    ensures LabelTakes(info, LabelElement(c), ns, key, pods)
  {
    LabelElementPods(info, c);
    var o := OptionOf(info, key, ns, pods * info.NsPods(ns), {});
    MeetMore(c.pods, o.pods, pods * info.NsPods(ns), pods);
    hide OptionOf, LabelPods, Element.PeerSet, Meet;
  }

  /** From the options chosen to their elements. */
  lemma ChosenSay(info: ClusterInfo, chosen: seq<LabelOption>, res: seq<Element>, pods: set<Peer>, single: bool)
    requires Grouping(info, chosen, pods, {})
    requires forall ns :: UsesLabels(info, chosen, ns, pods * info.NsPods(ns), {} * info.NsPods(ns), single)
    requires |res| == |chosen| && forall i :: 0 <= i < |chosen| ==> res[i] == LabelElement(chosen[i])
    ensures SaysLabels(info, res, pods, single)
  {
    hide Qualifies, OptionOf, Takes, LabelTakes, LabelPods;
    forall ns, key | Qualifies(info, key, ns, pods * info.NsPods(ns), {}, single)
      ensures exists e :: e in res && LabelTakes(info, e, ns, key, pods)
    {
      assert {} * info.NsPods(ns) == {};
      assert UsesLabels(info, chosen, ns, pods * info.NsPods(ns), {} * info.NsPods(ns), single);
      var c :| c in chosen && c.ns == ns &&
               Takes(c, OptionOf(info, key, ns, pods * info.NsPods(ns), {}), pods * info.NsPods(ns));
      OptionSays(info, c, ns, key, pods);
      var i :| 0 <= i < |chosen| && chosen[i] == c;
      assert res[i] == LabelElement(c);
    }
  }

  /** Label elements, and at the end at most one set of peers for the rest. */
  ghost predicate LabelsThenRest(res: seq<Element>) {
    forall i :: 0 <= i < |res| ==> res[i].PodLabelsElement? || (res[i].PeerSetElement? && i == |res| - 1)
  }

  /** _create_fw_elements_by_pods_grouping_by_labels: the elements stand for exactly the pods. */
  method ElementsByLabels(info: ClusterInfo, pods: set<Peer>, single: bool) returns (res: seq<Element>)
    requires WellKeyed(info) && (forall p :: p in pods ==> p in info.NsPods(NamespaceOf(p)))
    ensures forall p :: Denotes(info, res, p) <==> p in pods
    ensures SaysLabels(info, res, pods, single) && LabelsThenRest(res)
  {
    var chosen, remaining := GroupByLabels(info, pods, {}, single);
    res := [];
    hide UsesLabels, SaysLabels, Qualifies;
    for i := 0 to |chosen|
      invariant |res| == i && forall j :: 0 <= j < i ==> res[j] == LabelElement(chosen[j])
      invariant forall p :: Denotes(info, res, p) <==> Chose(chosen[..i], p)
    {
      var o := chosen[i];
      var e := PodLabelsElement(o.key, o.values, {o.ns});
      assert o in chosen && chosen[..i + 1] == chosen[..i] + [o];
      assert NsSetPods(info, {o.ns}) == info.NsPods(o.ns);
      forall p ensures Denotes(info, res + [e], p) <==> Chose(chosen[..i + 1], p) {
        DenotesConcat(info, res, [e], p);
        DenotesOne(info, e, p);
        ChoseConcat(chosen[..i], [o], p);
        assert Chose([o], p) <==> p in [o][0].pods;
      }
      res := res + [e];
    }
    assert chosen[..|chosen|] == chosen;
    ChosenSay(info, chosen, res, pods, single);
    forall p ensures Denotes(info, res, p) || p in remaining <==> p in pods {
      if Chose(chosen, p) {
        var i :| 0 <= i < |chosen| && p in chosen[i].pods;
        assert chosen[i] in chosen;
      }
    }
    if remaining != {} {
      var e := PeerSetElement(remaining);
      forall p ensures Denotes(info, res + [e], p) <==> Denotes(info, res, p) || p in remaining {
        DenotesConcat(info, res, [e], p);
        DenotesOne(info, e, p);
      }
      SaysLabelsMore(info, res, [e], pods, single);
      res := res + [e];
    }
  }

  /** The operands of a rule: a set of namespaces, or a set of peers. */
  datatype BaseElem = Namespaces(nss: set<Namespace>) | Peers(peers: set<Peer>)

  function BasePeers(info: ClusterInfo, b: BaseElem): set<Peer> {
    match b
    case Namespaces(nss) => NsSetPods(info, nss)
    case Peers(ps) => ps
  }

  function ClusterPeers(peers: set<Peer>): set<Peer> { set p | p in peers && IsClusterEP(p) }

  function Addresses(peers: set<Peer>): set<Peer> { set p | p in peers && p.Address? }

  /** What the elements of an operand are: the namespaces themselves, or labels for the pods, one IP block for all
      addresses and an element for each DNS entry. */
  ghost predicate ElementsFor(info: ClusterInfo, base: BaseElem, single: bool, res: seq<Element>) {
    && (forall p :: Denotes(info, res, p) <==> p in BasePeers(info, base))
    && (base.Namespaces? ==> res == [NsElement(base.nss)])
    && (base.Peers? ==>
          && SaysLabels(info, res, ClusterPeers(base.peers), single)
          && (Addresses(base.peers) != {} ==> IPBlockElement(Addresses(base.peers)) in res)
          && (forall d :: d in base.peers && d.DNSEntry? ==> DNSElement(d) in res)
          && (forall e :: e in res ==> !e.NsElement?))
  }

  /** _create_fw_elements_from_base_element: the pods of a set namespace by namespace, then one IP block and the DNS
      entries. The loop over the namespaces ends because the cluster knows every pod. */
  method ElementsOf(info: ClusterInfo, base: BaseElem, single: bool) returns (res: seq<Element>)
    requires WellKeyed(info) && (base.Peers? ==> info.KnowsAll(base.peers))
    ensures forall p :: Denotes(info, res, p) <==> p in BasePeers(info, base)
    ensures ElementsFor(info, base, single, res)
  {
    if base.Namespaces? {
      res := [NsElement(base.nss)];
      forall p { DenotesOne(info, NsElement(base.nss), p); }
      return;
    }
    var pods := ClusterPeers(base.peers);
    var others := base.peers - pods;
    hide SaysLabels;
    res := PodElements(info, pods, single);
    var more := OtherElements(info, others);
    forall p ensures Denotes(info, res + more, p) <==> p in base.peers {
      DenotesConcat(info, res, more, p);
    }
    SaysLabelsMore(info, res, more, pods, single);
    assert Addresses(others) == Addresses(base.peers);
    res := res + more;
  }

  /** The labels that qualify in the namespaces looked at. */
  ghost predicate SaysLabelsIn(info: ClusterInfo, res: seq<Element>, pods: set<Peer>, todo: set<Peer>, single: bool) {
    forall ns, key :: todo * info.NsPods(ns) == {} && Qualifies(info, key, ns, pods * info.NsPods(ns), {}, single) ==>
                        exists e :: e in res && LabelTakes(info, e, ns, key, pods)
  }

  lemma NamespacesApart(info: ClusterInfo, todo: set<Peer>, ns: Namespace, n: Namespace)
    requires WellKeyed(info) && n != ns
    ensures (todo - todo * info.NsPods(ns)) * info.NsPods(n) == todo * info.NsPods(n)
  {
    forall p | p in info.NsPods(n) ensures p !in info.NsPods(ns) {
      assert NamespaceOf(p) == n;
    }
  }

  /** One more namespace. */
  lemma SaysNamespace(info: ClusterInfo, res: seq<Element>, more: seq<Element>, pods: set<Peer>, todo: set<Peer>,
                      ns: Namespace, single: bool)
    requires WellKeyed(info) && SaysLabelsIn(info, res, pods, todo, single)
    requires todo * info.NsPods(ns) == pods * info.NsPods(ns)
    requires SaysLabels(info, more, todo * info.NsPods(ns), single)
    ensures SaysLabelsIn(info, res + more, pods, todo - todo * info.NsPods(ns), single)
  {
    var left := todo - todo * info.NsPods(ns);
    hide WellKeyed, SaysLabels, Qualifies, LabelTakes, ClusterInfo.NsPods;
    forall n, key | left * info.NsPods(n) == {} && Qualifies(info, key, n, pods * info.NsPods(n), {}, single)
      ensures exists e :: e in res + more && LabelTakes(info, e, n, key, pods)
    {
      if n == ns {
        SaysOwn(info, more, pods, ns, key, single);
        var e :| e in more && LabelTakes(info, e, ns, key, pods);
        assert e in res + more;
      } else {
        NamespacesApart(info, todo, ns, n);
        var e :| e in res && LabelTakes(info, e, n, key, pods);
        assert e in res + more;
      }
    }
  }

  lemma SaysOwn(info: ClusterInfo, more: seq<Element>, pods: set<Peer>, ns: Namespace, key: string, single: bool)
    requires SaysLabels(info, more, pods * info.NsPods(ns), single)
    requires Qualifies(info, key, ns, pods * info.NsPods(ns), {}, single)
    ensures exists e :: e in more && LabelTakes(info, e, ns, key, pods)
  {
    var own := pods * info.NsPods(ns);
    assert own * info.NsPods(ns) == own;
    hide Qualifies, OptionOf, Element.PeerSet;
    var e :| e in more && LabelTakes(info, e, ns, key, own);
    var o := OptionOf(info, key, ns, own, {});
    MeetMore(e.PeerSet(info), o.pods, own, pods);
    assert LabelTakes(info, e, ns, key, pods);
  }

  method PodElements(info: ClusterInfo, pods: set<Peer>, single: bool) returns (res: seq<Element>)
    requires WellKeyed(info) && info.KnowsAll(pods) && (forall p :: p in pods ==> IsClusterEP(p))
    ensures forall p :: Denotes(info, res, p) <==> p in pods
    ensures SaysLabels(info, res, pods, single) && forall e :: e in res ==> e.PodLabelsElement? || e.PeerSetElement?
  {
    var todo := pods;
    res := [];
    NothingLeft(info, pods, single);
    while todo != {}
      invariant todo <= pods && forall p :: Denotes(info, res, p) <==> p in pods - todo
      invariant forall ns :: todo * info.NsPods(ns) == pods * info.NsPods(ns) || todo * info.NsPods(ns) == {}
      invariant SaysLabelsIn(info, res, pods, todo, single)
      invariant forall e :: e in res ==> e.PodLabelsElement? || e.PeerSetElement?
      decreases todo
    {
      hide SaysLabels, SaysLabelsIn;
      var first :| first in todo;
      var ns := NamespaceOf(first);
      var nsPods := todo * info.NsPods(ns);
      assert first in nsPods;
      var more := ElementsByLabels(info, nsPods, single);
      forall p ensures Denotes(info, res + more, p) <==> p in pods - (todo - nsPods) {
        DenotesConcat(info, res, more, p);
      }
      SaysNamespace(info, res, more, pods, todo, ns, single);
      OtherNamespaces(info, pods, todo, ns);
      res := res + more;
      todo := todo - nsPods;
    }
    forall ns ensures todo * info.NsPods(ns) == {} {}
  }

  lemma OtherNamespaces(info: ClusterInfo, pods: set<Peer>, todo: set<Peer>, ns: Namespace)
    requires WellKeyed(info) && todo <= pods
    requires forall n :: todo * info.NsPods(n) == pods * info.NsPods(n) || todo * info.NsPods(n) == {}
    ensures forall n :: var left := todo - todo * info.NsPods(ns);
                        left * info.NsPods(n) == pods * info.NsPods(n) || left * info.NsPods(n) == {}
  {
    var left := todo - todo * info.NsPods(ns);
    forall n ensures left * info.NsPods(n) == pods * info.NsPods(n) || left * info.NsPods(n) == {} {
      if n == ns {
        assert left * info.NsPods(n) == {};
      } else {
        NamespacesApart(info, todo, ns, n);
      }
    }
  }

  /** Before the first namespace is looked at, none qualifies without pods. */
  lemma NothingLeft(info: ClusterInfo, pods: set<Peer>, single: bool)
    ensures SaysLabelsIn(info, [], pods, pods, single)
  {
    forall ns, key | pods * info.NsPods(ns) == {} && Qualifies(info, key, ns, pods * info.NsPods(ns), {}, single)
      ensures false
    {
      OptionUsable(info, key, ns, pods * info.NsPods(ns), {});
    }
  }

  method OtherElements(info: ClusterInfo, others: set<Peer>) returns (res: seq<Element>)
    requires forall p :: p in others ==> !IsClusterEP(p)
    ensures forall p :: Denotes(info, res, p) <==> p in others
    ensures Addresses(others) != {} ==> IPBlockElement(Addresses(others)) in res
    ensures forall d :: d in others && d.DNSEntry? ==> DNSElement(d) in res
    ensures forall e :: e in res ==> e.IPBlockElement? || e.DNSElement?
  {
    var block := Addresses(others);
    res := if block == {} then [] else [IPBlockElement(block)];
    forall p ensures Denotes(info, res, p) <==> p in block {
      if block != {} { DenotesOne(info, IPBlockElement(block), p); }
    }
    var todo := others - block;
    while todo != {}
      invariant todo <= others - block && forall p :: Denotes(info, res, p) <==> p in others - todo
      invariant block != {} ==> IPBlockElement(block) in res
      invariant forall d :: d in others - todo && d.DNSEntry? ==> DNSElement(d) in res
      invariant forall e :: e in res ==> e.IPBlockElement? || e.DNSElement?
      decreases todo
    {
      var d :| d in todo;
      todo := todo - {d};
      forall p ensures Denotes(info, res + [DNSElement(d)], p) <==> p in others - todo {
        DenotesConcat(info, res, [DNSElement(d)], p);
        DenotesOne(info, DNSElement(d), p);
      }
      res := res + [DNSElement(d)];
    }
  }
}
