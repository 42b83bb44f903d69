/** What one step of the nested loops over two layers dictionaries contributes, for any of the three set operators:
    the common part of two layers, what remains of a layer, and how rows of different layers fit together. */
module CubeCells {
  import opened Intervals
  import opened CubeTrees

  datatype Op = And | Or | Sub

  /** Membership in the result, from membership in the operands. */
  predicate Apply(op: Op, a: bool, b: bool) {
    match op
    case And => a && b
    case Or => a || b
    case Sub => a && !b
  }

  ghost predicate Covers(m: LayerMap, x: int) {
    exists k :: k in m && Has(k, x)
  }

  /** `row` holds the operator applied to layer k -> s and the layers `done` of the other operand,
      where the latter have a layer at all. */
  ghost predicate Meaning(op: Op, row: LayerMap, k: IntervalSet, s: Tree, done: LayerMap, act: seq<nat>)
    requires act != []
  {
    forall p :: Holds(Node(row), act, p) <==>
      act[0] < |p| && Has(k, p[act[0]]) && Covers(done, p[act[0]]) &&
      Apply(op, Holds(s, act[1..], p), Holds(Node(done), act, p))
  }

  /** The same once the part of k outside every layer of the other operand is added. */
  ghost predicate RowMeaning(op: Op, row: LayerMap, k: IntervalSet, s: Tree, b: LayerMap, act: seq<nat>)
    requires act != []
  {
    forall p :: Holds(Node(row), act, p) <==>
      act[0] < |p| && Has(k, p[act[0]]) && Apply(op, Holds(s, act[1..], p), Holds(Node(b), act, p))
  }

  /** All rows of the layers `done` of the left operand. */
  ghost predicate AllMeaning(op: Op, res: LayerMap, done: LayerMap, b: LayerMap, act: seq<nat>)
    requires act != []
  {
    forall p :: Holds(Node(res), act, p) <==>
      act[0] < |p| && Covers(done, p[act[0]]) && Apply(op, Holds(Node(done), act, p), Holds(Node(b), act, p))
  }

  ghost predicate OpMeaning(op: Op, r: Tree, a: Tree, b: Tree, act: seq<nat>) {
    forall p :: Holds(r, act, p) <==> Apply(op, Holds(a, act, p), Holds(b, act, p))
  }

  /** Every key made so far lies in k and in the keys of `done`. */
  ghost predicate RowKeys(row: LayerMap, k: IntervalSet, done: LayerMap) {
    forall c, x :: c in row && Has(c, x) ==> Has(k, x) && Covers(done, x)
  }

  ghost predicate KeysCovered(res: LayerMap, done: LayerMap) {
    forall c, x :: c in res && Has(c, x) ==> Covers(done, x)
  }

  ghost predicate IsCommon(common: IntervalSet, k: IntervalSet, l: IntervalSet) {
    forall x :: Has(common, x) <==> Has(k, x) && Has(l, x)
  }

  /** `rem` is what is left of k outside the keys of `done`. */
  ghost predicate IsRest(rem: IntervalSet, k: IntervalSet, done: LayerMap) {
    forall x :: Has(rem, x) <==> Has(k, x) && !Covers(done, x)
  }

  ghost predicate ApartFrom(done: LayerMap, l: IntervalSet) {
    forall d :: d in done ==> Apart(d, l)
  }

  lemma AddSection(m: LayerMap, act: seq<nat>, k: IntervalSet, s: Tree)
    requires act != [] && k !in m
    ensures forall p :: Holds(Node(m[k := s]), act, p) <==> Holds(Node(m), act, p) || Section(k, s, act, p)
  {
    hide Has, Canonical;
    forall p
      ensures Holds(Node(m[k := s]), act, p) <==> Holds(Node(m), act, p) || Section(k, s, act, p)
    {
      if Holds(Node(m), act, p) {
        var l :| l in m && Has(l, p[act[0]]) && Holds(m[l], act[1..], p);
        assert m[k := s][l] == m[l];
      }
      if Section(k, s, act, p) { assert m[k := s][k] == s; }
    }
  }

  lemma AddCovers(m: LayerMap, k: IntervalSet, s: Tree)
    ensures forall x :: Covers(m[k := s], x) <==> Covers(m, x) || Has(k, x)
  {
    hide Has, Canonical;
    forall x
      ensures Covers(m[k := s], x) <==> Covers(m, x) || Has(k, x)
    {
      if Covers(m, x) {
        var l :| l in m && Has(l, x);
        assert l in m[k := s];
      }
      if Has(k, x) { assert k in m[k := s]; }
    }
  }

  lemma OutsideLayers(m: LayerMap, act: seq<nat>, p: Point)
    requires act != [] && act[0] < |p| && !Covers(m, p[act[0]])
    ensures !Holds(Node(m), act, p)
  {
  }

  lemma AddLayer(m: LayerMap, act: seq<nat>, dims: seq<Dimension>, bot: Tree, k: IntervalSet, s: Tree)
    requires act != [] && Layers(m, act, dims, bot)
    requires k != [] && Within(k, Domain(dims, act[0])) && Canon(s, act[1..], dims, bot) && Live(s, act[1..])
    requires ApartFrom(m, k)
    ensures k !in m && Layers(m[k := s], act, dims, bot)
  {
    hide Canon, Has, Canonical, Live, Within, ApartFrom, KeysApart;
    KeyIsNew(m, k);
    KeysStayApart(m, k, s);
  }

  lemma KeyIsNew(m: LayerMap, k: IntervalSet)
    requires ApartFrom(m, k) && k != []
    ensures k !in m
  {
    var x := SomeValue(k);
    hide Has, Canonical;
  }

  lemma KeysStayApart(m: LayerMap, k: IntervalSet, s: Tree)
    requires KeysApart(m) && ApartFrom(m, k)
    ensures KeysApart(m[k := s])
  {
    hide Has, Canonical;
  }

  lemma PutKeys(row: LayerMap, k: IntervalSet, done: LayerMap, l: IntervalSet, t: Tree,
                common: IntervalSet, sub: Tree, act: seq<nat>, dims: seq<Dimension>, bot: Tree)
    requires act != [] && Layers(row, act, dims, bot) && RowKeys(row, k, done) && ApartFrom(done, l)
    requires common != [] && IsCommon(common, k, l) && Within(k, Domain(dims, act[0]))
    requires Canon(sub, act[1..], dims, bot) && Live(sub, act[1..])
    ensures common !in row && Layers(row[common := sub], act, dims, bot)
    ensures RowKeys(row[common := sub], k, done[l := t])
  {
    hide Canon, Layers, Canonical, Has;
    forall c | c in row ensures Apart(c, common) {
      forall x ensures !(Has(c, x) && Has(common, x)) {}
    }
    AddLayer(row, act, dims, bot, common, sub);
    AddCovers(done, l, t);
  }

  lemma SkipKeys(row: LayerMap, k: IntervalSet, done: LayerMap, l: IntervalSet, t: Tree)
    requires RowKeys(row, k, done)
    ensures RowKeys(row, k, done[l := t])
  {
    AddCovers(done, l, t);
  }

  lemma PutMeaning(op: Op, row: LayerMap, k: IntervalSet, s: Tree, done: LayerMap, l: IntervalSet, t: Tree,
                   common: IntervalSet, sub: Tree, act: seq<nat>)
    requires act != [] && Meaning(op, row, k, s, done, act) && ApartFrom(done, l) && l !in done && common !in row
    requires IsCommon(common, k, l) && OpMeaning(op, sub, s, t, act[1..])
    ensures Meaning(op, row[common := sub], k, s, done[l := t], act)
  {
    hide Has, Canonical, Holds, Canon;
    AddSection(done, act, l, t);
    AddSection(row, act, common, sub);
    AddCovers(done, l, t);
    forall p
      ensures Holds(Node(row[common := sub]), act, p) <==>
              act[0] < |p| && Has(k, p[act[0]]) && Covers(done[l := t], p[act[0]]) &&
              Apply(op, Holds(s, act[1..], p), Holds(Node(done[l := t]), act, p))
    {
      if act[0] < |p| && Has(l, p[act[0]]) {
        OutsideLayers(done, act, p);
      }
    }
  }

  lemma SkipMeaning(op: Op, row: LayerMap, k: IntervalSet, s: Tree, done: LayerMap, l: IntervalSet, t: Tree,
                    act: seq<nat>)
    requires act != [] && Meaning(op, row, k, s, done, act) && ApartFrom(done, l) && l !in done
    requires (forall x :: !(Has(k, x) && Has(l, x))) ||
             forall p :: !Apply(op, Holds(s, act[1..], p), Holds(t, act[1..], p))
    ensures Meaning(op, row, k, s, done[l := t], act)
  {
    hide Has, Canonical, Holds, Canon;
    AddSection(done, act, l, t);
    AddCovers(done, l, t);
    forall p
      ensures Holds(Node(row), act, p) <==>
              act[0] < |p| && Has(k, p[act[0]]) && Covers(done[l := t], p[act[0]]) &&
              Apply(op, Holds(s, act[1..], p), Holds(Node(done[l := t]), act, p))
    {
      if act[0] < |p| && Has(l, p[act[0]]) {
        OutsideLayers(done, act, p);
      }
    }
  }

  /** The part of k outside every layer of the other operand keeps its sub-tree. */
  lemma PutRest(op: Op, row: LayerMap, k: IntervalSet, s: Tree, b: LayerMap, rem: IntervalSet, act: seq<nat>,
                dims: seq<Dimension>, bot: Tree)
    requires act != [] && Layers(row, act, dims, bot) && RowKeys(row, k, b) && Meaning(op, row, k, s, b, act)
    requires op != And && IsRest(rem, k, b) && Within(k, Domain(dims, act[0]))
    requires Canon(s, act[1..], dims, bot) && Live(s, act[1..])
    ensures rem == [] ==> RowMeaning(op, row, k, s, b, act)
    ensures rem != [] ==>
              rem !in row && Layers(row[rem := s], act, dims, bot) && RowMeaning(op, row[rem := s], k, s, b, act)
    ensures rem != [] ==> forall c :: c in row[rem := s] ==> Within(c, k)
  {
    hide Canon, Layers, Canonical, Holds;
    if rem != [] {
      hide Has;
      forall c | c in row ensures Apart(c, rem) {
        forall x ensures !(Has(c, x) && Has(rem, x)) {}
      }
      AddLayer(row, act, dims, bot, rem, s);
      AddSection(row, act, rem, s);
    }
    forall p | act[0] < |p| && !Covers(b, p[act[0]])
      ensures !Holds(Node(b), act, p)
    {
      OutsideLayers(b, act, p);
    }
  }

  /** Rows of different left layers have no values in common. */
  lemma JoinRow(op: Op, res: LayerMap, done: LayerMap, row: LayerMap, k: IntervalSet, s: Tree, b: LayerMap,
                act: seq<nat>, dims: seq<Dimension>, bot: Tree)
    requires act != [] && k !in done && ApartFrom(done, k)
    requires Layers(res, act, dims, bot) && AllMeaning(op, res, done, b, act)
    requires KeysCovered(res, done)
    requires Layers(row, act, dims, bot) && RowMeaning(op, row, k, s, b, act)
    requires forall c :: c in row ==> Within(c, k)
    ensures Layers(res + row, act, dims, bot) && AllMeaning(op, res + row, done[k := s], b, act)
    ensures KeysCovered(res + row, done[k := s])
  {
    LayersNonEmpty(row, act, dims, bot);
    hide *;
    forall c, d | c in res && d in row
      ensures c != d && Apart(c, d)
    {
      JoinApart(res, done, k, c, d);
    }
    JoinLayers(res, row, act, dims, bot);
    JoinMeaning(op, res, done, row, k, s, b, act);
  }

  lemma LayersNonEmpty(m: LayerMap, act: seq<nat>, dims: seq<Dimension>, bot: Tree)
    requires act != [] && Layers(m, act, dims, bot)
    ensures forall k :: k in m ==> k != []
  {
  }

  lemma JoinApart(res: LayerMap, done: LayerMap, k: IntervalSet, c: IntervalSet, d: IntervalSet)
    requires ApartFrom(done, k) && KeysCovered(res, done) && c in res && Within(d, k) && d != []
    ensures Apart(c, d) && c != d
  {
    var x := SomeValue(d);
    hide Has, Canonical;
  }

  lemma JoinLayers(res: LayerMap, row: LayerMap, act: seq<nat>, dims: seq<Dimension>, bot: Tree)
    requires act != [] && Layers(res, act, dims, bot) && Layers(row, act, dims, bot)
    requires forall c, d :: c in res && d in row ==> Apart(c, d)
    ensures Layers(res + row, act, dims, bot)
  {
    hide Canon, Has, Canonical;
  }

  lemma JoinMeaning(op: Op, res: LayerMap, done: LayerMap, row: LayerMap, k: IntervalSet, s: Tree, b: LayerMap,
                    act: seq<nat>)
    requires act != [] && k !in done && ApartFrom(done, k)
    requires AllMeaning(op, res, done, b, act) && RowMeaning(op, row, k, s, b, act)
    requires forall p :: Holds(Node(res + row), act, p) <==> Holds(Node(res), act, p) || Holds(Node(row), act, p)
    ensures AllMeaning(op, res + row, done[k := s], b, act)
  {
    hide Has, Canonical, Holds;
    AddSection(done, act, k, s);
    AddCovers(done, k, s);
    forall p
      ensures Holds(Node(res + row), act, p) <==>
              act[0] < |p| && Covers(done[k := s], p[act[0]]) &&
              Apply(op, Holds(Node(done[k := s]), act, p), Holds(Node(b), act, p))
    {
      if act[0] < |p| && Has(k, p[act[0]]) {
        OutsideLayers(done, act, p);
      }
    }
  }
}
