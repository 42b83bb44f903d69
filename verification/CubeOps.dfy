/** The recursive operators `_and_aux`, `or_aux` and `sub_aux` over trees with the same active dimensions: nested
    loops over the layers of both operands that shrink what remains of a layer, and a merge at the end. */
module CubeOps {
  import opened Intervals
  import opened CubeTrees
  import opened CubeCells
  import CubeMerge

  lemma LastDimension(act: seq<nat>, dims: seq<Dimension>)
    requires |act| == 1
    ensures forall t, p :: Holds(t, act[1..], p)
    ensures forall t :: Live(t, act[1..])
    ensures forall t :: Canon(t, act[1..], dims, Leaf) <==> t == Leaf
  {
  }

  lemma DeadMeaning(op: Op, s: Tree, t: Tree, sub: Tree, act: seq<nat>)
    requires !Live(sub, act) && OpMeaning(op, sub, s, t, act)
    ensures forall p :: !Apply(op, Holds(s, act, p), Holds(t, act, p))
  {
    forall p ensures !Apply(op, Holds(s, act, p), Holds(t, act, p)) {
      assert !Holds(sub, act, p);
    }
  }

  lemma StartRow(op: Op, k: IntervalSet, s: Tree, act: seq<nat>, dims: seq<Dimension>, bot: Tree)
    requires act != []
    ensures Layers(map[], act, dims, bot) && RowKeys(map[], k, map[]) && Meaning(op, map[], k, s, map[], act)
    ensures IsRest(k, k, map[])
  {
  }

  lemma StartAll(op: Op, b: LayerMap, act: seq<nat>, dims: seq<Dimension>, bot: Tree)
    requires act != []
    ensures Layers(map[], act, dims, bot) && AllMeaning(op, map[], map[], b, act)
  {
  }

  /** Merging equal sub-cubes finishes the result. */
  method Finish(res: LayerMap, act: seq<nat>, ghost dims: seq<Dimension>, ghost bot: Tree) returns (r: Tree)
    requires act != [] && Layers(res, act, dims, bot)
    ensures Canon(r, act, dims, bot)
    ensures forall p :: Holds(r, act, p) <==> Holds(Node(res), act, p)
  {
    var merged := CubeMerge.MergeEqual(res);
    CubeMerge.MergedCanon(merged, res, act, dims, bot);
    r := Node(merged);
  }

  lemma Disjoint(k: IntervalSet, l: IntervalSet)
    requires IsCommon([], k, l)
    ensures forall x :: !(Has(k, x) && Has(l, x))
  {
    forall x ensures !(Has(k, x) && Has(l, x)) { assert !Has([], x); }
  }

  lemma FirstRowStep(b: Tree, done: LayerMap, todo: set<IntervalSet>, l: IntervalSet, act: seq<nat>,
                     dims: seq<Dimension>, bot: Tree)
    requires act != [] && Ordered(act, |dims|) && b.Node? && Layers(b.layers, act, dims, bot)
    requires Visited(done, b.layers, todo) && l in todo
    ensures l in b.layers && l !in done && ApartFrom(done, l) && |todo - {l}| < |todo|
    ensures Visited(done[l := b.layers[l]], b.layers, todo - {l})
    ensures l != [] && Within(l, Domain(dims, act[0])) && Ordered(act[1..], |dims|)
    ensures Canon(b.layers[l], act[1..], dims, bot) && Live(b.layers[l], act[1..])
  {
    hide Canon, Has, Canonical;
    VisitNext(done, b.layers, todo, l);
    OpenLayer(b.layers, act, dims, bot, l);
  }

  // ----- intersection -----

  /** One pair of layers, k -> s of the left operand and l -> t of the right one. */
  method AndCell(row: LayerMap, k: IntervalSet, s: Tree, l: IntervalSet, t: Tree, act: seq<nat>,
                 dims: seq<Dimension>, ghost done: LayerMap) returns (row': LayerMap)
    requires act != [] && Ordered(act[1..], |dims|) && Within(k, Domain(dims, act[0]))
    requires Canon(s, act[1..], dims, Leaf) && Canon(t, act[1..], dims, Leaf)
    requires l !in done && ApartFrom(done, l)
    requires Layers(row, act, dims, Leaf) && RowKeys(row, k, done) && Meaning(And, row, k, s, done, act)
    ensures Layers(row', act, dims, Leaf) && RowKeys(row', k, done[l := t]) &&
            Meaning(And, row', k, s, done[l := t], act)
    decreases |act|, 0
  {
    hide Canon, Layers, Holds, Has, Canonical, Meaning, RowKeys, ApartFrom;
    row' := row;
    SkipKeys(row, k, done, l, t);
    var common := Intersection(k, l);
    if common == [] {
      Disjoint(k, l);
      SkipMeaning(And, row, k, s, done, l, t, act);
      return;
    }
    var sub := Leaf;
    if |act| > 1 { sub := AndAux(s, t, act[1..], dims); } else { LastDimension(act, dims); }
    if Live(sub, act[1..]) {
      PutKeys(row, k, done, l, t, common, sub, act, dims, Leaf);
      PutMeaning(And, row, k, s, done, l, t, common, sub, act);
      row' := row[common := sub];
    } else {
      DeadMeaning(And, s, t, sub, act[1..]);
      SkipMeaning(And, row, k, s, done, l, t, act);
    }
  }

  method AndRow(k: IntervalSet, s: Tree, b: Tree, act: seq<nat>, dims: seq<Dimension>) returns (row: LayerMap)
    requires act != [] && Ordered(act, |dims|) && Canon(b, act, dims, Leaf)
    requires Within(k, Domain(dims, act[0])) && Canon(s, act[1..], dims, Leaf)
    ensures Layers(row, act, dims, Leaf) && RowMeaning(And, row, k, s, b.layers, act)
    ensures forall c :: c in row ==> Within(c, k)
    decreases |act|, 1
  {
    row := map[];
    var todo := b.layers.Keys;
    ghost var done: LayerMap := map[];
    OpenTree(b, act, dims, Leaf);
    StartRow(And, k, s, act, dims, Leaf);
    hide Canon, Holds, Has, Canonical, Meaning, RowKeys, RowMeaning, ApartFrom, Covers;
    while todo != {}
      invariant Visited(done, b.layers, todo)
      invariant Layers(row, act, dims, Leaf) && RowKeys(row, k, done) && Meaning(And, row, k, s, done, act)
      decreases |todo|
    {
      var l :| l in todo;
      FirstRowStep(b, done, todo, l, act, dims, Leaf);
      row := AndCell(row, k, s, l, b.layers[l], act, dims, done);
      todo, done := todo - {l}, done[l := b.layers[l]];
    }
    VisitEnd(done, b.layers);
  }

  method AndAux(a: Tree, b: Tree, act: seq<nat>, dims: seq<Dimension>) returns (r: Tree)
    requires act != [] && Ordered(act, |dims|) && Canon(a, act, dims, Leaf) && Canon(b, act, dims, Leaf)
    ensures Canon(r, act, dims, Leaf) && OpMeaning(And, r, a, b, act)
    decreases |act|
  {
    var res: LayerMap := map[];
    var todo := a.layers.Keys;
    ghost var done: LayerMap := map[];
    OpenTree(a, act, dims, Leaf);
    OpenTree(b, act, dims, Leaf);
    StartAll(And, b.layers, act, dims, Leaf);
    hide Canon, Holds, Has, Canonical, AllMeaning, RowMeaning, ApartFrom, Covers;
    while todo != {}
      invariant Visited(done, a.layers, todo)
      invariant Layers(res, act, dims, Leaf) && AllMeaning(And, res, done, b.layers, act) && KeysCovered(res, done)
      decreases |todo|
    {
      var k :| k in todo;
      FirstRowStep(a, done, todo, k, act, dims, Leaf);
      var row := AndRow(k, a.layers[k], b, act, dims);
      JoinRow(And, res, done, row, k, a.layers[k], b.layers, act, dims, Leaf);
      res := res + row;
      todo, done := todo - {k}, done[k := a.layers[k]];
    }
    VisitEnd(done, a.layers);
    r := Finish(res, act, dims, Leaf);
    assert Node(a.layers) == a && Node(b.layers) == b;
  }

  // ----- union -----

  lemma RestStep(rem: IntervalSet, rem': IntervalSet, k: IntervalSet, done: LayerMap, l: IntervalSet, t: Tree)
    requires IsRest(rem, k, done)
    requires forall x :: Has(rem', x) <==> Has(rem, x) && !(Has(k, x) && Has(l, x))
    ensures IsRest(rem', k, done[l := t])
  {
    AddCovers(done, l, t);
  }

  method OrCell(row: LayerMap, k: IntervalSet, s: Tree, remSelf: IntervalSet, l: IntervalSet, t: Tree,
                remOther: IntervalSet,
                act: seq<nat>, dims: seq<Dimension>, ghost done: LayerMap, ghost doneSelf: LayerMap)
    returns (row': LayerMap, remSelf': IntervalSet, remOther': IntervalSet)
    requires act != [] && Ordered(act[1..], |dims|) && Within(k, Domain(dims, act[0]))
    requires Canon(s, act[1..], dims, Leaf) && Canon(t, act[1..], dims, Leaf)
    requires Live(s, act[1..]) && Live(t, act[1..])
    requires l !in done && ApartFrom(done, l)
    requires Layers(row, act, dims, Leaf) && RowKeys(row, k, done) && Meaning(Or, row, k, s, done, act)
    requires IsRest(remSelf, k, done) && IsRest(remOther, l, doneSelf)
    ensures Layers(row', act, dims, Leaf) && RowKeys(row', k, done[l := t]) &&
            Meaning(Or, row', k, s, done[l := t], act)
    ensures IsRest(remSelf', k, done[l := t]) && IsRest(remOther', l, doneSelf[k := s])
    decreases |act|, 0
  {
    hide Canon, Layers, Holds, Has, Canonical, Meaning, RowKeys, ApartFrom, Covers;
    row', remSelf', remOther' := row, remSelf, remOther;
    var common := Intersection(k, l);
    if common == [] {
      Disjoint(k, l);
      SkipKeys(row, k, done, l, t);
      SkipMeaning(Or, row, k, s, done, l, t, act);
      RestStep(remSelf, remSelf', k, done, l, t);
      RestStep(remOther, remOther', l, doneSelf, k, s);
      return;
    }
    remOther' := Difference(remOther, common);
    remSelf' := Difference(remSelf, common);
    RestStep(remSelf, remSelf', k, done, l, t);
    RestStep(remOther, remOther', l, doneSelf, k, s);
    var sub := Leaf;
    if |act| > 1 {
      sub := OrAux(s, t, act[1..], dims);
      UnionIsLive(sub, s, t, act[1..], dims);
    } else {
      LastDimension(act, dims);
    }
    PutKeys(row, k, done, l, t, common, sub, act, dims, Leaf);
    PutMeaning(Or, row, k, s, done, l, t, common, sub, act);
    row' := row[common := sub];
  }

  lemma UnionIsLive(r: Tree, s: Tree, t: Tree, act: seq<nat>, dims: seq<Dimension>)
    requires act != [] && Ordered(act, |dims|) && Canon(s, act, dims, Leaf) && Live(s, act) &&
             OpMeaning(Or, r, s, t, act)
    ensures Live(r, act)
  {
    var p := LiveHolds(s, act, dims, Leaf);
    assert Holds(r, act, p);
  }

  /** What is left of each layer of the right operand, outside the left layers `done`. */
  ghost predicate Others(others: map<IntervalSet, IntervalSet>, b: LayerMap, done: LayerMap) {
    others.Keys == b.Keys && forall l :: l in b ==> IsRest(others[l], l, done)
  }

  /** Only the right layers outside `todo` have been cut by the new left layer. */
  ghost predicate OthersHalf(others: map<IntervalSet, IntervalSet>, b: LayerMap, todo: set<IntervalSet>,
                             before: LayerMap, after: LayerMap) {
    others.Keys == b.Keys && forall l :: l in b ==> IsRest(others[l], l, if l in todo then before else after)
  }

  lemma OthersNext(others: map<IntervalSet, IntervalSet>, b: LayerMap, todo: set<IntervalSet>,
                   before: LayerMap, after: LayerMap, l: IntervalSet)
    requires OthersHalf(others, b, todo, before, after) && l in todo && l in b
    ensures l in others && IsRest(others[l], l, before)
    ensures forall rest :: IsRest(rest, l, after) ==> OthersHalf(others[l := rest], b, todo - {l}, before, after)
  {
    hide IsRest;
  }

  method OrRow(k: IntervalSet, s: Tree, b: Tree, others: map<IntervalSet, IntervalSet>, act: seq<nat>,
               dims: seq<Dimension>,
               ghost doneSelf: LayerMap) returns (row: LayerMap, others': map<IntervalSet, IntervalSet>)
    requires act != [] && Ordered(act, |dims|) && Canon(b, act, dims, Leaf)
    requires Within(k, Domain(dims, act[0])) && Canon(s, act[1..], dims, Leaf) && Live(s, act[1..])
    requires Others(others, b.layers, doneSelf)
    ensures Layers(row, act, dims, Leaf) && RowMeaning(Or, row, k, s, b.layers, act)
    ensures forall c :: c in row ==> Within(c, k)
    ensures Others(others', b.layers, doneSelf[k := s])
    decreases |act|, 1
  {
    row, others' := map[], others;
    var remaining := k;
    var todo := b.layers.Keys;
    ghost var done: LayerMap := map[];
    OpenTree(b, act, dims, Leaf);
    StartRow(Or, k, s, act, dims, Leaf);
    assert OthersHalf(others', b.layers, todo, doneSelf, doneSelf[k := s]);
    hide Canon, Layers, Holds, Has, Canonical, Meaning, RowKeys, RowMeaning, ApartFrom, Covers, IsRest, OthersHalf;
    hide Visited;
    while todo != {}
      invariant Visited(done, b.layers, todo) && OthersHalf(others', b.layers, todo, doneSelf, doneSelf[k := s])
      invariant Layers(row, act, dims, Leaf) && RowKeys(row, k, done) && Meaning(Or, row, k, s, done, act)
      invariant IsRest(remaining, k, done)
      decreases |todo|
    {
      var l :| l in todo;
      FirstRowStep(b, done, todo, l, act, dims, Leaf);
      OthersNext(others', b.layers, todo, doneSelf, doneSelf[k := s], l);
      var rest;
      row, remaining, rest := OrCell(row, k, s, remaining, l, b.layers[l], others'[l], act, dims, done, doneSelf);
      others' := others'[l := rest];
      todo, done := todo - {l}, done[l := b.layers[l]];
    }
    VisitEnd(done, b.layers);
    PutRest(Or, row, k, s, b.layers, remaining, act, dims, Leaf);
    if remaining != [] { row := row[remaining := s]; }
  }

  /** The left layers are done, and the layers `doneOther` of the right operand outside them. */
  ghost predicate OtherMeaning(res: LayerMap, a: LayerMap, b: LayerMap, doneOther: LayerMap, act: seq<nat>)
    requires act != []
  {
    forall p :: Holds(Node(res), act, p) <==>
      act[0] < |p| && if Covers(a, p[act[0]]) then Holds(Node(a), act, p) || Holds(Node(b), act, p)
                      else Holds(Node(doneOther), act, p)
  }

  ghost predicate KeysOfBoth(res: LayerMap, a: LayerMap, doneOther: LayerMap) {
    forall c, x :: c in res && Has(c, x) ==> Covers(a, x) || Covers(doneOther, x)
  }

  lemma OtherStep(res: LayerMap, a: LayerMap, b: LayerMap, doneOther: LayerMap, l: IntervalSet, t: Tree,
                  rest: IntervalSet, act: seq<nat>, dims: seq<Dimension>)
    requires act != [] && OtherMeaning(res, a, b, doneOther, act) && KeysOfBoth(res, a, doneOther)
    requires Layers(res, act, dims, Leaf) && l !in doneOther && ApartFrom(doneOther, l) && IsRest(rest, l, a)
    requires Within(l, Domain(dims, act[0])) && Canon(t, act[1..], dims, Leaf) && Live(t, act[1..])
    ensures rest != [] ==> rest !in res && Layers(res[rest := t], act, dims, Leaf)
    ensures rest != [] ==> OtherMeaning(res[rest := t], a, b, doneOther[l := t], act)
    ensures rest != [] ==> KeysOfBoth(res[rest := t], a, doneOther[l := t])
    ensures rest == [] ==> OtherMeaning(res, a, b, doneOther[l := t], act) && KeysOfBoth(res, a, doneOther[l := t])
  {
    hide Holds, Canon, Has, Canonical, Covers, Layers, OtherMeaning, KeysOfBoth, IsRest, ApartFrom, Live, Within;
    OtherKeys(res, a, doneOther, l, t, rest);
    if rest == [] {
      OtherNone(res, a, b, doneOther, l, t, rest, act);
    } else {
      RestWithin(rest, l, a, Domain(dims, act[0]));
      RestApart(res, a, doneOther, l, rest);
      AddLayer(res, act, dims, Leaf, rest, t);
      OtherPut(res, a, b, doneOther, l, t, rest, act);
    }
  }

  lemma RestWithin(rest: IntervalSet, l: IntervalSet, a: LayerMap, domain: IntervalSet)
    requires IsRest(rest, l, a) && Within(l, domain)
    ensures Within(rest, domain)
  {
    hide Has, Canonical, Covers;
  }

  lemma OtherKeys(res: LayerMap, a: LayerMap, doneOther: LayerMap, l: IntervalSet, t: Tree, rest: IntervalSet)
    requires KeysOfBoth(res, a, doneOther) && IsRest(rest, l, a)
    ensures KeysOfBoth(res, a, doneOther[l := t]) && KeysOfBoth(res[rest := t], a, doneOther[l := t])
  {
    AddCovers(doneOther, l, t);
    hide Has, Canonical, Covers;
  }

  lemma OtherNone(res: LayerMap, a: LayerMap, b: LayerMap, doneOther: LayerMap, l: IntervalSet, t: Tree,
                  rest: IntervalSet, act: seq<nat>)
    requires act != [] && OtherMeaning(res, a, b, doneOther, act)
    requires l !in doneOther && rest == [] && IsRest(rest, l, a)
    ensures OtherMeaning(res, a, b, doneOther[l := t], act)
  {
    forall x | Has(l, x) ensures Covers(a, x) { assert !Has(rest, x); }
    hide Holds, Canon, Has, Canonical, Covers;
    AddSection(doneOther, act, l, t);
  }

  lemma OtherPut(res: LayerMap, a: LayerMap, b: LayerMap, doneOther: LayerMap, l: IntervalSet, t: Tree,
                 rest: IntervalSet, act: seq<nat>)
    requires act != [] && OtherMeaning(res, a, b, doneOther, act)
    requires l !in doneOther && rest !in res && IsRest(rest, l, a)
    ensures OtherMeaning(res[rest := t], a, b, doneOther[l := t], act)
  {
    hide Holds, Canon, Has, Canonical, Covers;
    AddSection(doneOther, act, l, t);
    AddSection(res, act, rest, t);
  }

  lemma RestApart(res: LayerMap, a: LayerMap, doneOther: LayerMap, l: IntervalSet, rest: IntervalSet)
    requires KeysOfBoth(res, a, doneOther) && ApartFrom(doneOther, l) && IsRest(rest, l, a)
    ensures ApartFrom(res, rest)
  {
    forall c, x | c in res && Has(c, x) && Has(rest, x)
      ensures false
    {
    }
  }

  lemma OthersEnd(res: LayerMap, a: LayerMap, b: LayerMap, act: seq<nat>)
    requires act != [] && OtherMeaning(res, a, b, b, act)
    ensures OpMeaning(Or, Node(res), Node(a), Node(b), act)
  {
    hide Has, Canonical;
    forall p
      ensures Holds(Node(res), act, p) <==> Holds(Node(a), act, p) || Holds(Node(b), act, p)
    {
      if act[0] < |p| && !Covers(a, p[act[0]]) { OutsideLayers(a, act, p); }
    }
  }

  /** At first all of each right key is left over. */
  method AllOthers(b: LayerMap) returns (others: map<IntervalSet, IntervalSet>)
    ensures Others(others, b, map[])
  {
    hide Has, Canonical;
    others := map l | l in b :: l;
  }

  method OrAux(a: Tree, b: Tree, act: seq<nat>, dims: seq<Dimension>) returns (r: Tree)
    requires act != [] && Ordered(act, |dims|) && Canon(a, act, dims, Leaf) && Canon(b, act, dims, Leaf)
    ensures Canon(r, act, dims, Leaf) && OpMeaning(Or, r, a, b, act)
    decreases |act|
  {
    var res: LayerMap := map[];
    OpenTree(a, act, dims, Leaf);
    OpenTree(b, act, dims, Leaf);
    var others := AllOthers(b.layers);
    var todo := a.layers.Keys;
    ghost var done: LayerMap := map[];
    StartAll(Or, b.layers, act, dims, Leaf);
    hide Canon, Holds, Has, Canonical, AllMeaning, RowMeaning, ApartFrom, Covers, OtherMeaning, KeysOfBoth, IsRest;
    hide Others;
    hide Layers, KeysCovered, Visited;
    while todo != {}
      invariant Visited(done, a.layers, todo) && Others(others, b.layers, done)
      invariant Layers(res, act, dims, Leaf) && AllMeaning(Or, res, done, b.layers, act) && KeysCovered(res, done)
      decreases |todo|
    {
      var k :| k in todo;
      FirstRowStep(a, done, todo, k, act, dims, Leaf);
      var row;
      row, others := OrRow(k, a.layers[k], b, others, act, dims, done);
      JoinRow(Or, res, done, row, k, a.layers[k], b.layers, act, dims, Leaf);
      res := res + row;
      todo, done := todo - {k}, done[k := a.layers[k]];
    }
    VisitEnd(done, a.layers);
    res := OrOthers(res, a, b, others, act, dims);
    r := Finish(res, act, dims, Leaf);
    assert Node(a.layers) == a && Node(b.layers) == b;
  }

  /** The second loop: what the left operand left over of the right one. */
  method OrOthers(res0: LayerMap, ghost a: Tree, b: Tree, others: map<IntervalSet, IntervalSet>, act: seq<nat>,
                  dims: seq<Dimension>) returns (res: LayerMap)
    requires act != [] && Ordered(act, |dims|) && a.Node? && b.Node? && Layers(b.layers, act, dims, Leaf)
    requires Others(others, b.layers, a.layers)
    requires Layers(res0, act, dims, Leaf) && AllMeaning(Or, res0, a.layers, b.layers, act) &&
             KeysCovered(res0, a.layers)
    ensures Layers(res, act, dims, Leaf) && OpMeaning(Or, Node(res), Node(a.layers), Node(b.layers), act)
  {
    res := res0;
    var todo := b.layers.Keys;
    ghost var done: LayerMap := map[];
    hide Canon, Holds, Has, Canonical, AllMeaning, ApartFrom, Covers, OtherMeaning, KeysOfBoth, IsRest;
    while todo != {}
      invariant Visited(done, b.layers, todo)
      invariant Layers(res, act, dims, Leaf) && OtherMeaning(res, a.layers, b.layers, done, act)
      invariant KeysOfBoth(res, a.layers, done)
      decreases |todo|
    {
      var l :| l in todo;
      FirstRowStep(b, done, todo, l, act, dims, Leaf);
      var rest := others[l];
      OtherStep(res, a.layers, b.layers, done, l, b.layers[l], rest, act, dims);
      if rest != [] { res := res[rest := b.layers[l]]; }
      todo, done := todo - {l}, done[l := b.layers[l]];
    }
    VisitEnd(done, b.layers);
    OthersEnd(res, a.layers, b.layers, act);
  }

  // ----- difference -----
  // The left operand may be a tree that is canonical only over a prefix `pre` of the active dimensions, with
  // nodes without layers below: that is what widening an empty set makes. `pre == act` is the ordinary case.

  lemma PrefixTail(pre: seq<nat>, act: seq<nat>)
    requires pre != [] && pre <= act
    ensures act != [] && pre[0] == act[0] && pre[1..] <= act[1..] && Below(pre[1..], act[1..]) == Below(pre, act)
    ensures |pre| == 1 && |act| > 1 ==> pre[1..] == [] && Below(pre, act) == Node(map[])
  {
  }

  method SubCell(row: LayerMap, k: IntervalSet, s: Tree, remSelf: IntervalSet, l: IntervalSet, t: Tree,
                 act: seq<nat>, dims: seq<Dimension>, ghost pre: seq<nat>, ghost done: LayerMap)
    returns (row': LayerMap, remSelf': IntervalSet)
    requires pre != [] && pre <= act && Ordered(act[1..], |dims|) && Within(k, Domain(dims, act[0]))
    requires Canon(s, pre[1..], dims, Below(pre, act)) && Canon(t, act[1..], dims, Leaf)
    requires l !in done && ApartFrom(done, l)
    requires Layers(row, pre, dims, Below(pre, act)) && RowKeys(row, k, done) && Meaning(Sub, row, k, s, done, pre)
    requires IsRest(remSelf, k, done)
    ensures Layers(row', pre, dims, Below(pre, act)) && RowKeys(row', k, done[l := t])
    ensures Meaning(Sub, row', k, s, done[l := t], pre) && IsRest(remSelf', k, done[l := t])
    decreases |act|, 0
  {
    PrefixTail(pre, act);
    hide Canon, Layers, Holds, Has, Canonical, Meaning, RowKeys, ApartFrom, Covers, Below;
    row', remSelf' := row, remSelf;
    SkipKeys(row, k, done, l, t);
    var common := Intersection(k, l);
    if common == [] {
      Disjoint(k, l);
      SkipMeaning(Sub, row, k, s, done, l, t, pre);
      RestStep(remSelf, remSelf', k, done, l, t);
      return;
    }
    remSelf' := Difference(remSelf, common);
    RestStep(remSelf, remSelf', k, done, l, t);
    if |act| == 1 {
      SkipMeaning(Sub, row, k, s, done, l, t, pre);
      return;
    }
    var sub := SubAux(s, t, act[1..], dims, pre[1..]);
    if Live(sub, act[1..]) {
      PutKeys(row, k, done, l, t, common, sub, pre, dims, Below(pre, act));
      PutMeaning(Sub, row, k, s, done, l, t, common, sub, pre);
      row' := row[common := sub];
    } else {
      if |pre| != 1 { DeadMeaning(Sub, s, t, sub, pre[1..]); }
      SkipMeaning(Sub, row, k, s, done, l, t, pre);
    }
  }

  method SubRow(k: IntervalSet, s: Tree, b: Tree, act: seq<nat>, dims: seq<Dimension>, ghost pre: seq<nat>)
    returns (row: LayerMap)
    requires pre != [] && pre <= act && Ordered(act, |dims|) && Canon(b, act, dims, Leaf)
    requires Within(k, Domain(dims, act[0])) && Canon(s, pre[1..], dims, Below(pre, act)) && Live(s, pre[1..])
    ensures Layers(row, pre, dims, Below(pre, act)) && RowMeaning(Sub, row, k, s, b.layers, pre)
    ensures forall c :: c in row ==> Within(c, k)
    decreases |act|, 1
  {
    row := map[];
    var remaining := k;
    var todo := b.layers.Keys;
    ghost var done: LayerMap := map[];
    OpenTree(b, act, dims, Leaf);
    StartRow(Sub, k, s, pre, dims, Below(pre, act));
    hide Canon, Layers, Holds, Has, Canonical, Meaning, RowKeys, RowMeaning, ApartFrom, Covers, IsRest, Below, Visited;
    while todo != {}
      invariant Visited(done, b.layers, todo)
      invariant Layers(row, pre, dims, Below(pre, act)) && RowKeys(row, k, done) && Meaning(Sub, row, k, s, done, pre)
      invariant IsRest(remaining, k, done)
      decreases |todo|
    {
      var l :| l in todo;
      FirstRowStep(b, done, todo, l, act, dims, Leaf);
      row, remaining := SubCell(row, k, s, remaining, l, b.layers[l], act, dims, pre, done);
      todo, done := todo - {l}, done[l := b.layers[l]];
    }
    VisitEnd(done, b.layers);
    PutRest(Sub, row, k, s, b.layers, remaining, pre, dims, Below(pre, act));
    if remaining != [] { row := row[remaining := s]; }
  }

  method SubAux(a: Tree, b: Tree, act: seq<nat>, dims: seq<Dimension>, ghost pre: seq<nat>) returns (r: Tree)
    requires act != [] && pre <= act && Ordered(act, |dims|)
    requires Canon(a, pre, dims, Below(pre, act)) && Canon(b, act, dims, Leaf)
    ensures Canon(r, pre, dims, Below(pre, act))
    ensures pre != [] ==> OpMeaning(Sub, r, a, b, pre)
    decreases |act|
  {
    var res: LayerMap := map[];
    var todo := a.layers.Keys;
    ghost var done: LayerMap := map[];
    OpenTree(b, act, dims, Leaf);
    if pre != [] {
      PrefixTail(pre, act);
      OpenTree(a, pre, dims, Below(pre, act));
      StartAll(Sub, b.layers, pre, dims, Below(pre, act));
    }
    assert SubState(res, done, a, b, todo, act, dims, pre);
    hide Canon, Layers, Holds, Has, Canonical, AllMeaning, RowMeaning, ApartFrom, Covers, Below, Visited, SubState;
    while todo != {}
      invariant SubState(res, done, a, b, todo, act, dims, pre)
      decreases |todo|
    {
      var k :| k in todo;
      var row := SubRow(k, a.layers[k], b, act, dims, pre);
      SubNext(res, done, a, b, todo, act, dims, pre, k, row);
      res := res + row;
      todo, done := todo - {k}, done[k := a.layers[k]];
    }
    var merged := CubeMerge.MergeEqual(res);
    r := Node(merged);
    SubEnd(res, done, a, b, act, dims, pre, merged);
  }

  /** The rows of the left layers outside `todo` are in `res`; an operand without layers has none. */
  ghost predicate SubState(res: LayerMap, done: LayerMap, a: Tree, b: Tree, todo: set<IntervalSet>, act: seq<nat>,
                           dims: seq<Dimension>, pre: seq<nat>) {
    && a.Node? && b.Node?
    && (pre == [] ==> todo == {} && res == map[])
    && (pre != [] ==>
          && Visited(done, a.layers, todo) && Layers(res, pre, dims, Below(pre, act))
          && AllMeaning(Sub, res, done, b.layers, pre) && KeysCovered(res, done))
  }

  lemma SubNext(res: LayerMap, done: LayerMap, a: Tree, b: Tree, todo: set<IntervalSet>, act: seq<nat>,
                dims: seq<Dimension>, pre: seq<nat>, k: IntervalSet, row: LayerMap)
    requires SubState(res, done, a, b, todo, act, dims, pre) && k in todo
    requires pre != [] && pre <= act && Ordered(act, |dims|) && Canon(a, pre, dims, Below(pre, act)) && k in a.layers
    requires Layers(row, pre, dims, Below(pre, act)) && RowMeaning(Sub, row, k, a.layers[k], b.layers, pre)
    requires forall c :: c in row ==> Within(c, k)
    ensures SubState(res + row, done[k := a.layers[k]], a, b, todo - {k}, act, dims, pre)
  {
    OpenTree(a, pre, dims, Below(pre, act));
    hide Canon, Has, Canonical, Below, Holds, Layers, AllMeaning, RowMeaning, Covers, KeysCovered;
    FirstRowStep(a, done, todo, k, pre, dims, Below(pre, act));
    JoinRow(Sub, res, done, row, k, a.layers[k], b.layers, pre, dims, Below(pre, act));
  }

  lemma SubEnd(res: LayerMap, done: LayerMap, a: Tree, b: Tree, act: seq<nat>, dims: seq<Dimension>, pre: seq<nat>,
               merged: LayerMap)
    requires SubState(res, done, a, b, {}, act, dims, pre) && act != [] && pre <= act
    requires CubeMerge.Merged(merged, res)
    ensures Canon(Node(merged), pre, dims, Below(pre, act))
    ensures pre != [] ==> OpMeaning(Sub, Node(merged), a, b, pre)
  {
    if pre == [] {
      assert merged == map[];
    } else {
      hide Canon, Has, Canonical, Below, Holds, Layers, AllMeaning, Covers;
      CubeMerge.MergedCanon(merged, res, pre, dims, Below(pre, act));
      VisitEnd(done, a.layers);
      assert Node(a.layers) == a && Node(b.layers) == b;
    }
  }
}
