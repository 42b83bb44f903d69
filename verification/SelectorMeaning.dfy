/** Selector expressions as written, with any redundant brackets and spaces, and what they mean. */
module SelectorMeaning {
  import opened Wrappers
  import opened SelectorText
  import opened Selector

  datatype OrExpr = OrOne(first: AndExpr) | OrMore(first: AndExpr, others: OrExpr)

  datatype AndExpr = AndOne(first: Unary) | AndMore(first: Unary, others: AndExpr)

  /** `left` and `right` are the spaces around. */
  datatype Unary =
    | Not(left: string, operand: Unary)
    | Brackets(left: string, body: OrExpr, right: string)
    | Word(left: string, text: string, right: string)

  function ShowOr(o: OrExpr): string {
    match o
    case OrOne(a) => ShowAnd(a)
    case OrMore(a, rest) => ShowAnd(a) + ['|', '|'] + ShowOr(rest)
  }

  function ShowAnd(a: AndExpr): string {
    match a
    case AndOne(u) => ShowUnary(u)
    case AndMore(u, rest) => ShowUnary(u) + ['&', '&'] + ShowAnd(rest)
  }

  function ShowUnary(u: Unary): string {
    match u
    case Not(l, v) => l + ['!'] + ShowUnary(v)
    case Brackets(l, o, r) => l + ['('] + ShowOr(o) + [')'] + r
    case Word(l, w, r) => l + w + r
  }

  predicate Spaces(s: string) { forall i :: 0 <= i < |s| ==> IsSpace(s[i]) }

  /** Brackets are balanced and never close before they open. */
  ghost predicate Nested(s: string) {
    Depth(s) == 0 && forall i :: 0 <= i <= |s| ==> Depth(s[..i]) >= 0
  }

  /** An expression without operators; it may contain brackets, as `has(key)` does. */
  ghost predicate ValidWord(w: string) {
    && w != "" && !IsSpace(w[0]) && !IsSpace(w[|w| - 1]) && w[0] != '(' && w[0] != '!'
    && '|' !in w && '&' !in w && Nested(w)
  }

  /** The peers of an expression without operators: only one that mentions global peers selects any of them. */
  predicate ValidAtom(w: string, env: Env) {
    w in env.atoms && env.atoms[w] <= if MentionsGlobal(w) then Universe(env) else LocalPeers(env)
  }

  ghost predicate ValidOr(o: OrExpr, env: Env) {
    match o
    case OrOne(a) => ValidAnd(a, env)
    case OrMore(a, rest) => ValidAnd(a, env) && ValidOr(rest, env)
  }

  ghost predicate ValidAnd(a: AndExpr, env: Env) {
    match a
    case AndOne(u) => ValidUnary(u, env)
    case AndMore(u, rest) => ValidUnary(u, env) && ValidAnd(rest, env)
  }

  ghost predicate ValidUnary(u: Unary, env: Env) {
    match u
    case Not(l, v) => Spaces(l) && ValidUnary(v, env)
    case Brackets(l, o, r) => Spaces(l) && Spaces(r) && ValidOr(o, env)
    case Word(l, w, r) => Spaces(l) && Spaces(r) && ValidWord(w) && ValidAtom(w, env)
  }

  /** The peers a selector is about. */
  function Universe(env: Env): set<Peer> { if env.isNamespace then env.allPeers else env.nsPods }

  /** Those among them that are selected without mentioning global peers. */
  function LocalPeers(env: Env): set<Peer> { if env.isNamespace then env.localPeers else env.nsPods }

  /** Some expression without operators mentions the global peers. */
  predicate GlobalOr(o: OrExpr) {
    match o
    case OrOne(a) => GlobalAnd(a)
    case OrMore(a, rest) => GlobalAnd(a) || GlobalOr(rest)
  }

  predicate GlobalAnd(a: AndExpr) {
    match a
    case AndOne(u) => GlobalUnary(u)
    case AndMore(u, rest) => GlobalUnary(u) || GlobalAnd(rest)
  }

  predicate GlobalUnary(u: Unary) {
    match u
    case Not(_, v) => GlobalUnary(v)
    case Brackets(_, o, _) => GlobalOr(o)
    case Word(_, w, _) => MentionsGlobal(w)
  }

  /** The boolean meaning, for one peer: '!' binds tighter than '&&', and '&&' tighter than '||'. The one
      exception are the global peers: a negation selects them only if it mentions them. */
  predicate TruthOr(o: OrExpr, env: Env, x: Peer) {
    match o
    case OrOne(a) => TruthAnd(a, env, x)
    case OrMore(a, rest) => TruthAnd(a, env, x) || TruthOr(rest, env, x)
  }

  predicate TruthAnd(a: AndExpr, env: Env, x: Peer) {
    match a
    case AndOne(u) => TruthUnary(u, env, x)
    case AndMore(u, rest) => TruthUnary(u, env, x) && TruthAnd(rest, env, x)
  }

  predicate TruthUnary(u: Unary, env: Env, x: Peer) {
    match u
    case Not(_, v) => !TruthUnary(v, env, x) && (x in LocalPeers(env) || GlobalUnary(v))
    case Brackets(_, o, _) => TruthOr(o, env, x)
    case Word(_, w, _) => w in env.atoms && x in env.atoms[w]
  }

  // ----- brackets stay nested -----

  lemma NestedConcat(a: string, b: string)
    requires Nested(a) && Nested(b)
    ensures Nested(a + b)
  {
    DepthConcat(a, b);
    forall i | 0 <= i <= |a + b|
      ensures Depth((a + b)[..i]) >= 0
    {
      if i <= |a| {
        assert (a + b)[..i] == a[..i];
      } else {
        assert (a + b)[..i] == a + b[..i - |a|];
        DepthConcat(a, b[..i - |a|]);
      }
    }
  }

  lemma {:induction false} NoBrackets(s: string)
    requires '(' !in s && ')' !in s
    ensures Nested(s)
    decreases |s|
  {
    if s != "" {
      var t := s[..|s| - 1];
      NoBrackets(t);
      assert Step(s[|s| - 1]) == 0;
      forall i | 0 <= i <= |s| ensures Depth(s[..i]) >= 0 {
        if i < |s| { assert s[..i] == t[..i]; } else { assert s[..i] == s; }
      }
    }
  }

  lemma SpacesNested(s: string)
    requires Spaces(s)
    ensures Nested(s)
  {
    NoBrackets(s);
  }

  lemma EnclosedDepth(x: string, i: nat)
    requires Nested(x) && 0 < i <= |x| + 1
    ensures Depth((['('] + x + [')'])[..i]) > 0
  {
    var s := ['('] + x + [')'];
    assert s[..i] == ['('] + x[..i - 1];
    DepthConcat(['('], x[..i - 1]);
    assert ['('][..0] == "";
  }

  lemma EnclosedNested(x: string)
    requires Nested(x)
    ensures Nested(['('] + x + [')'])
  {
    var s := ['('] + x + [')'];
    DepthConcat(['('] + x, [')']);
    DepthConcat(['('], x);
    assert ['('][..0] == "" && [')'][..0] == "";
    forall i | 0 <= i <= |s| ensures Depth(s[..i]) >= 0 {
      if 0 < i <= |x| + 1 { EnclosedDepth(x, i); } else if i == 0 { assert s[..0] == ""; } else { assert s[..i] == s; }
    }
  }

  // ----- operators outside brackets -----

  /** The doubled character occurs only inside brackets, and the text does not end with it. */
  ghost predicate Tight(s: string, c: char) {
    && (s != "" ==> s[|s| - 1] != c)
    && forall i :: 0 <= i && i + 1 < |s| && s[i] == c && s[i + 1] == c ==> Depth(s[..i]) > 0
  }

  lemma TightConcat(a: string, b: string, c: char)
    requires Nested(a) && Tight(a, c) && Tight(b, c)
    ensures Tight(a + b, c)
  {
    var s := a + b;
    forall i | 0 <= i && i + 1 < |s| && s[i] == c && s[i + 1] == c
      ensures Depth(s[..i]) > 0
    {
      if i + 1 < |a| {
        assert a[i] == c && a[i + 1] == c && s[..i] == a[..i];
      } else {
        assert i >= |a|;
        assert b[i - |a|] == c && b[i - |a| + 1] == c && s[..i] == a + b[..i - |a|];
        DepthConcat(a, b[..i - |a|]);
      }
    }
  }

  lemma TightEnclosed(x: string, c: char)
    requires Nested(x) && c != '(' && c != ')'
    ensures Tight(['('] + x + [')'], c)
  {
    var s := ['('] + x + [')'];
    forall i | 0 <= i && i + 1 < |s| && s[i] == c && s[i + 1] == c
      ensures Depth(s[..i]) > 0
    {
      EnclosedDepth(x, i);
    }
  }

  lemma TightIsSealed(s: string, c: char)
    requires Nested(s) && Tight(s, c)
    ensures Sealed("", s, c)
  {
    assert "" + s == s;
    forall i | 0 <= i && i + 1 < |s| && s[i] == c && s[i + 1] == c ensures Depth("" + s[..i]) != 0 {
      assert "" + s[..i] == s[..i];
    }
  }

  lemma {:induction false} OrNested(o: OrExpr, env: Env)
    requires ValidOr(o, env)
    ensures Nested(ShowOr(o))
    decreases o
  {
    AndNested(o.first, env);
    if o.OrMore? {
      OrNested(o.others, env);
      NoBrackets(['|', '|']);
      NestedConcat(ShowAnd(o.first), ['|', '|']);
      NestedConcat(ShowAnd(o.first) + ['|', '|'], ShowOr(o.others));
    }
  }

  /** '||' never stands outside brackets in a conjunction. */
  lemma {:induction false} AndNested(a: AndExpr, env: Env)
    requires ValidAnd(a, env)
    ensures Nested(ShowAnd(a)) && Tight(ShowAnd(a), '|')
    decreases a
  {
    UnaryNested(a.first, env);
    if a.AndMore? {
      AndNested(a.others, env);
      NoBrackets(['&', '&']);
      NestedConcat(ShowUnary(a.first), ['&', '&']);
      TightConcat(ShowUnary(a.first), ['&', '&'], '|');
      NestedConcat(ShowUnary(a.first) + ['&', '&'], ShowAnd(a.others));
      TightConcat(ShowUnary(a.first) + ['&', '&'], ShowAnd(a.others), '|');
    }
  }

  lemma {:induction false} UnaryNested(u: Unary, env: Env)
    requires ValidUnary(u, env)
    ensures Nested(ShowUnary(u)) && Tight(ShowUnary(u), '|') && Tight(ShowUnary(u), '&')
    decreases u
  {
    match u
    case Not(l, v) =>
      UnaryNested(v, env);
      NotTight(l, ShowUnary(v), '|');
      NotTight(l, ShowUnary(v), '&');
    case Brackets(l, o, r) =>
      OrNested(o, env);
      BracketsTight(l, ShowOr(o), r, '|');
      BracketsTight(l, ShowOr(o), r, '&');
    case Word(l, w, r) =>
      WordTight(l, w, r, '|');
      WordTight(l, w, r, '&');
  }

  lemma NotTight(l: string, x: string, c: char)
    requires Spaces(l) && Nested(x) && Tight(x, c) && (c == '|' || c == '&')
    ensures Nested(l + ['!'] + x) && Tight(l + ['!'] + x, c)
  {
    SpacesNested(l);
    NoBrackets(['!']);
    NestedConcat(l, ['!']);
    NestedConcat(l + ['!'], x);
    TightConcat(l + ['!'], x, c);
  }

  lemma BracketsTight(l: string, x: string, r: string, c: char)
    requires Spaces(l) && Spaces(r) && Nested(x) && (c == '|' || c == '&')
    ensures Nested(l + ['('] + x + [')'] + r) && Tight(l + ['('] + x + [')'] + r, c)
  {
    var m := ['('] + x + [')'];
    SpacesNested(l);
    SpacesNested(r);
    EnclosedNested(x);
    NestedConcat(l, m);
    NestedConcat(l + m, r);
    assert l + ['('] + x + [')'] + r == l + m + r;
    TightEnclosed(x, c);
    TightConcat(l, m, c);
    TightConcat(l + m, r, c);
  }

  lemma WordTight(l: string, w: string, r: string, c: char)
    requires Spaces(l) && Spaces(r) && Nested(w) && c !in w && (c == '|' || c == '&')
    ensures Nested(l + w + r) && Tight(l + w + r, c)
  {
    SpacesNested(l);
    SpacesNested(r);
    NestedConcat(l, w);
    NestedConcat(l + w, r);
  }

  // ----- splitting finds the operands -----

  function OrTexts(o: OrExpr): (r: seq<string>)
    ensures |r| > 0 && (o.OrMore? ==> |r| > 1)
  {
    match o
    case OrOne(a) => [ShowAnd(a)]
    case OrMore(a, rest) => [ShowAnd(a)] + OrTexts(rest)
  }

  function AndTexts(a: AndExpr): (r: seq<string>)
    ensures |r| > 0 && (a.AndMore? ==> |r| > 1)
  {
    match a
    case AndOne(u) => [ShowUnary(u)]
    case AndMore(u, rest) => [ShowUnary(u)] + AndTexts(rest)
  }

  lemma {:induction false} SplitOr(o: OrExpr, env: Env)
    requires ValidOr(o, env)
    ensures Split(ShowOr(o), '|') == OrTexts(o)
    decreases o
  {
    AndNested(o.first, env);
    TightIsSealed(ShowAnd(o.first), '|');
    assert "" + ShowAnd(o.first) == ShowAnd(o.first);
    if o.OrOne? {
      KeepSealed("", ShowAnd(o.first), '|');
    } else {
      SplitSealed("", ShowAnd(o.first), '|', ShowOr(o.others));
      SplitOr(o.others, env);
    }
  }

  lemma {:induction false} SplitAnd(a: AndExpr, env: Env)
    requires ValidAnd(a, env)
    ensures Split(ShowAnd(a), '&') == AndTexts(a)
    decreases a
  {
    UnaryNested(a.first, env);
    TightIsSealed(ShowUnary(a.first), '&');
    assert "" + ShowUnary(a.first) == ShowUnary(a.first);
    if a.AndOne? {
      KeepSealed("", ShowUnary(a.first), '&');
    } else {
      SplitSealed("", ShowUnary(a.first), '&', ShowAnd(a.others));
      SplitAnd(a.others, env);
    }
  }

  // ----- trimming -----

  lemma {:induction false} TrimLeftConcat(a: string, b: string)
    requires TrimLeft(a) != ""
    ensures TrimLeft(a + b) == TrimLeft(a) + b
    decreases |a|
  {
    if IsSpace(a[0]) {
      assert (a + b)[1..] == a[1..] + b;
      TrimLeftConcat(a[1..], b);
    }
  }

  lemma {:induction false} TrimRightConcat(a: string, b: string)
    requires TrimRight(b) != ""
    ensures TrimRight(a + b) == a + TrimRight(b)
    decreases |b|
  {
    if IsSpace(b[|b| - 1]) {
      assert (a + b)[..|a + b| - 1] == a + b[..|b| - 1];
      TrimRightConcat(a, b[..|b| - 1]);
    }
  }

  lemma {:induction false} TrimLeftSpaces(l: string, x: string)
    requires Spaces(l) && x != "" && !IsSpace(x[0])
    ensures TrimLeft(l + x) == x
    decreases |l|
  {
    if l == "" {
      assert l + x == x;
    } else {
      assert (l + x)[1..] == l[1..] + x;
      TrimLeftSpaces(l[1..], x);
    }
  }

  lemma {:induction false} TrimRightSpaces(x: string, r: string)
    requires Spaces(r) && x != "" && !IsSpace(x[|x| - 1])
    ensures TrimRight(x + r) == x
    decreases |r|
  {
    if r == "" {
      assert x + r == x;
    } else {
      assert (x + r)[..|x + r| - 1] == x + r[..|r| - 1];
      TrimRightSpaces(x, r[..|r| - 1]);
    }
  }

  function TrimLeftUnary(u: Unary): Unary { u.(left := "") }

  function TrimLeftAnd(a: AndExpr): AndExpr { a.(first := TrimLeftUnary(a.first)) }

  function TrimLeftOr(o: OrExpr): OrExpr { o.(first := TrimLeftAnd(o.first)) }

  function TrimRightUnary(u: Unary): Unary {
    match u
    case Not(l, v) => Not(l, TrimRightUnary(v))
    case Brackets(l, o, _) => Brackets(l, o, "")
    case Word(l, w, _) => Word(l, w, "")
  }

  function TrimRightAnd(a: AndExpr): AndExpr {
    match a
    case AndOne(u) => AndOne(TrimRightUnary(u))
    case AndMore(u, rest) => AndMore(u, TrimRightAnd(rest))
  }

  function TrimRightOr(o: OrExpr): OrExpr {
    match o
    case OrOne(a) => OrOne(TrimRightAnd(a))
    case OrMore(a, rest) => OrMore(a, TrimRightOr(rest))
  }

  lemma ShowTrimLeftUnary(u: Unary, env: Env)
    requires ValidUnary(u, env)
    ensures TrimLeft(ShowUnary(u)) == ShowUnary(TrimLeftUnary(u)) && ShowUnary(TrimLeftUnary(u)) != ""
    ensures GlobalUnary(TrimLeftUnary(u)) == GlobalUnary(u)
    ensures ValidUnary(TrimLeftUnary(u), env) &&
            forall x :: TruthUnary(TrimLeftUnary(u), env, x) == TruthUnary(u, env, x)
  {
    match u
    case Not(l, v) =>
      var x := ['!'] + ShowUnary(v);
      assert ShowUnary(u) == l + x && ShowUnary(TrimLeftUnary(u)) == x;
      TrimLeftSpaces(l, x);
    case Brackets(l, o, r) =>
      var x := ['('] + ShowOr(o) + [')'] + r;
      assert ShowUnary(u) == l + x && ShowUnary(TrimLeftUnary(u)) == x;
      TrimLeftSpaces(l, x);
    case Word(l, w, r) =>
      var x := w + r;
      assert ShowUnary(u) == l + x && ShowUnary(TrimLeftUnary(u)) == x;
      TrimLeftSpaces(l, x);
  }

  lemma ShowTrimLeftAnd(a: AndExpr, env: Env)
    requires ValidAnd(a, env)
    ensures TrimLeft(ShowAnd(a)) == ShowAnd(TrimLeftAnd(a)) && ShowAnd(TrimLeftAnd(a)) != ""
    ensures GlobalAnd(TrimLeftAnd(a)) == GlobalAnd(a)
    ensures ValidAnd(TrimLeftAnd(a), env) && forall x :: TruthAnd(TrimLeftAnd(a), env, x) == TruthAnd(a, env, x)
  {
    ShowTrimLeftUnary(a.first, env);
    if a.AndMore? {
      TrimLeftConcat(ShowUnary(a.first), ['&', '&'] + ShowAnd(a.others));
      assert ShowAnd(a) == ShowUnary(a.first) + (['&', '&'] + ShowAnd(a.others));
      assert ShowAnd(TrimLeftAnd(a)) == ShowUnary(TrimLeftUnary(a.first)) + (['&', '&'] + ShowAnd(a.others));
    }
  }

  lemma ShowTrimLeftOr(o: OrExpr, env: Env)
    requires ValidOr(o, env)
    ensures TrimLeft(ShowOr(o)) == ShowOr(TrimLeftOr(o))
    ensures GlobalOr(TrimLeftOr(o)) == GlobalOr(o)
    ensures ValidOr(TrimLeftOr(o), env) && forall x :: TruthOr(TrimLeftOr(o), env, x) == TruthOr(o, env, x)
  {
    ShowTrimLeftAnd(o.first, env);
    if o.OrMore? {
      TrimLeftConcat(ShowAnd(o.first), ['|', '|'] + ShowOr(o.others));
      assert ShowOr(o) == ShowAnd(o.first) + (['|', '|'] + ShowOr(o.others));
      assert ShowOr(TrimLeftOr(o)) == ShowAnd(TrimLeftAnd(o.first)) + (['|', '|'] + ShowOr(o.others));
    }
  }

  lemma {:induction false} ShowTrimRightUnary(u: Unary, env: Env)
    requires ValidUnary(u, env)
    ensures TrimRight(ShowUnary(u)) == ShowUnary(TrimRightUnary(u)) && ShowUnary(TrimRightUnary(u)) != ""
    ensures GlobalUnary(TrimRightUnary(u)) == GlobalUnary(u)
    ensures ValidUnary(TrimRightUnary(u), env) &&
            forall x :: TruthUnary(TrimRightUnary(u), env, x) == TruthUnary(u, env, x)
    decreases u
  {
    match u
    case Not(l, v) =>
      ShowTrimRightUnary(v, env);
      TrimRightConcat(l + ['!'], ShowUnary(v));
    case Brackets(l, o, r) =>
      var x := l + ['('] + ShowOr(o) + [')'];
      assert ShowUnary(TrimRightUnary(u)) == x + "" == x;
      TrimRightSpaces(x, r);
    case Word(l, w, r) =>
      assert ShowUnary(TrimRightUnary(u)) == l + w + "" == l + w;
      TrimRightSpaces(l + w, r);
  }

  lemma {:induction false} ShowTrimRightAnd(a: AndExpr, env: Env)
    requires ValidAnd(a, env)
    ensures TrimRight(ShowAnd(a)) == ShowAnd(TrimRightAnd(a)) && ShowAnd(TrimRightAnd(a)) != ""
    ensures GlobalAnd(TrimRightAnd(a)) == GlobalAnd(a)
    ensures ValidAnd(TrimRightAnd(a), env) && forall x :: TruthAnd(TrimRightAnd(a), env, x) == TruthAnd(a, env, x)
    decreases a
  {
    if a.AndOne? {
      ShowTrimRightUnary(a.first, env);
    } else {
      ShowTrimRightAnd(a.others, env);
      TrimRightConcat(ShowUnary(a.first) + ['&', '&'], ShowAnd(a.others));
    }
  }

  lemma {:induction false} ShowTrimRightOr(o: OrExpr, env: Env)
    requires ValidOr(o, env)
    ensures TrimRight(ShowOr(o)) == ShowOr(TrimRightOr(o)) && ShowOr(TrimRightOr(o)) != ""
    ensures GlobalOr(TrimRightOr(o)) == GlobalOr(o)
    ensures ValidOr(TrimRightOr(o), env) && forall x :: TruthOr(TrimRightOr(o), env, x) == TruthOr(o, env, x)
    decreases o
  {
    if o.OrOne? {
      ShowTrimRightAnd(o.first, env);
    } else {
      ShowTrimRightOr(o.others, env);
      TrimRightConcat(ShowAnd(o.first) + ['|', '|'], ShowOr(o.others));
    }
  }

  function TrimOr(o: OrExpr): OrExpr { TrimRightOr(TrimLeftOr(o)) }

  lemma ShowTrimOr(o: OrExpr, env: Env)
    requires ValidOr(o, env)
    ensures Trim(ShowOr(o)) == ShowOr(TrimOr(o)) && 0 < |ShowOr(TrimOr(o))| <= |ShowOr(o)|
    ensures GlobalOr(TrimOr(o)) == GlobalOr(o)
    ensures ValidOr(TrimOr(o), env) && forall x :: TruthOr(TrimOr(o), env, x) == TruthOr(o, env, x)
  {
    ShowTrimLeftOr(o, env);
    ShowTrimRightOr(TrimLeftOr(o), env);
  }

  // ----- removing brackets around the whole expression -----

  predicate IsBrackets(o: OrExpr) {
    o.OrOne? && o.first.AndOne? && o.first.first.Brackets?
  }

  lemma FirstValid(o: OrExpr, env: Env)
    requires ValidOr(o, env)
    ensures ValidUnary(o.first.first, env)
  {
    assert ValidAnd(o.first, env);
  }

  lemma OnlyUnary(o: OrExpr, env: Env)
    requires o.OrOne? && o.first.AndOne?
    ensures ShowOr(o) == ShowUnary(o.first.first) && GlobalOr(o) == GlobalUnary(o.first.first)
    ensures forall x :: TruthOr(o, env, x) == TruthUnary(o.first.first, env, x)
  {
    assert ShowOr(o) == ShowAnd(o.first);
    forall x ensures TruthOr(o, env, x) == TruthUnary(o.first.first, env, x) {
      assert TruthOr(o, env, x) == TruthAnd(o.first, env, x);
    }
  }

  lemma BracketsBody(t: OrExpr, env: Env)
    requires ValidOr(t, env) && IsBrackets(t)
    ensures ValidOr(t.first.first.body, env) && |ShowOr(t.first.first.body)| < |ShowOr(t)|
    ensures GlobalOr(t.first.first.body) == GlobalOr(t)
    ensures forall x :: TruthOr(t.first.first.body, env, x) == TruthOr(t, env, x)
  {
    FirstValid(t, env);
    OnlyUnary(t, env);
  }

  /** The expression without enclosing brackets and without outer spaces. */
  ghost function Core(o: OrExpr, env: Env): (r: OrExpr)
    requires ValidOr(o, env)
    ensures ValidOr(r, env) && |ShowOr(r)| <= |ShowOr(o)|
    decreases |ShowOr(o)|
  {
    ShowTrimOr(o, env);
    var t := TrimOr(o);
    if IsBrackets(t) then BracketsBody(t, env); Core(t.first.first.body, env) else t
  }

  lemma {:induction false} CoreMeaning(o: OrExpr, env: Env)
    requires ValidOr(o, env)
    ensures GlobalOr(Core(o, env)) == GlobalOr(o)
    ensures forall x :: TruthOr(Core(o, env), env, x) == TruthOr(o, env, x)
    ensures !IsBrackets(Core(o, env)) && exists p :: ValidOr(p, env) && Core(o, env) == TrimOr(p)
    decreases |ShowOr(o)|
  {
    ShowTrimOr(o, env);
    var t := TrimOr(o);
    if IsBrackets(t) { BracketsBody(t, env); CoreMeaning(t.first.first.body, env); }
  }

  lemma BracketsEnclosed(x: string)
    requires Nested(x)
    ensures Enclosed(['('] + x + [')']) && (['('] + x + [')'])[1..|x| + 1] == x
  {
    forall i | 0 < i < |x| + 2 ensures Depth((['('] + x + [')'])[..i]) != 0 { EnclosedDepth(x, i); }
  }

  /** Text that begins with a bracketed operand and goes on behind it is not enclosed. */
  lemma NotEnclosed(x: string, rest: string)
    requires Nested(x) && rest != ""
    ensures !Enclosed(['('] + x + [')'] + rest)
  {
    var s := ['('] + x + [')'] + rest;
    EnclosedNested(x);
    assert s[..|x| + 2] == ['('] + x + [')'];
  }

  /** What follows the first operand. */
  function AfterFirst(o: OrExpr): string {
    (if o.first.AndMore? then ['&', '&'] + ShowAnd(o.first.others) else "") +
    (if o.OrMore? then ['|', '|'] + ShowOr(o.others) else "")
  }

  lemma CoreNotEnclosed(o: OrExpr, env: Env)
    requires ValidOr(o, env) && !IsBrackets(o) && o.first.first.left == ""
    ensures !Enclosed(ShowOr(o))
  {
    FirstValid(o, env);
    var u := o.first.first;
    match u
    case Not(l, v) => assert ShowUnary(u)[0] == '!';
    case Word(l, w, r) => assert ShowUnary(u)[0] == w[0];
    case Brackets(l, b, r) =>
      OrNested(b, env);
      assert ShowOr(o) == ['('] + ShowOr(b) + [')'] + (r + AfterFirst(o));
      NotEnclosed(ShowOr(b), r + AfterFirst(o));
  }

  /** _strip_selector leaves the core. */
  lemma {:induction false} UnwrapCore(o: OrExpr, env: Env)
    requires ValidOr(o, env)
    ensures Unwrap(Trim(ShowOr(o))) == ShowOr(Core(o, env))
    decreases |ShowOr(o)|
  {
    ShowTrimOr(o, env);
    var t := TrimOr(o);
    var s := ShowOr(t);
    if IsBrackets(t) {
      var b := t.first.first.body;
      BracketsBody(t, env);
      OnlyUnary(t, env);
      OrNested(b, env);
      assert s == ['('] + ShowOr(b) + [')'];
      BracketsEnclosed(ShowOr(b));
      UnwrapCore(b, env);
    } else {
      CoreNotEnclosed(t, env);
    }
  }

  // ----- the value -----

  ghost function Selected(o: OrExpr, env: Env): set<Peer> {
    set x | x in Universe(env) && TruthOr(o, env, x)
  }

  lemma StrippedIsCore(o: OrExpr, env: Env)
    requires ValidOr(o, env)
    ensures Stripped(ShowOr(o)) == Some(ShowOr(Core(o, env)))
  {
    ShowTrimOr(o, env);
    OrNested(TrimOr(o), env);
    UnwrapCore(o, env);
  }

  // ----- global() in the text is global() in the expression -----

  /** An occurrence over the border of two texts. */
  ghost predicate Straddles(a: string, b: string, i: nat) { i < |a| < i + |GLOBAL| && GlobalAt(a + b, i) }

  lemma JoinGlobal(a: string, b: string)
    requires forall i: nat :: !Straddles(a, b, i)
    ensures MentionsGlobal(a + b) <==> MentionsGlobal(a) || MentionsGlobal(b)
  {
    var s := a + b;
    if MentionsGlobal(s) {
      var i :| 0 <= i < |s| && GlobalAt(s, i);
      assert !Straddles(a, b, i);
      if i + |GLOBAL| <= |a| {
        assert a[i..i + |GLOBAL|] == s[i..i + |GLOBAL|];
        assert GlobalAt(a, i);
      } else {
        assert b[i - |a|..i - |a| + |GLOBAL|] == s[i..i + |GLOBAL|];
        assert GlobalAt(b, i - |a|);
      }
    }
    if MentionsGlobal(a) {
      var i :| 0 <= i < |a| && GlobalAt(a, i);
      assert s[i..i + |GLOBAL|] == a[i..i + |GLOBAL|];
      assert GlobalAt(s, i);
    }
    if MentionsGlobal(b) {
      var i :| 0 <= i < |b| && GlobalAt(b, i);
      assert s[|a| + i..|a| + i + |GLOBAL|] == b[i..i + |GLOBAL|];
      assert GlobalAt(s, |a| + i);
    }
  }

  lemma StraddleChars(a: string, b: string, i: nat)
    requires Straddles(a, b, i)
    ensures b != "" && a[|a| - 1] == GLOBAL[|a| - 1 - i] && b[0] == GLOBAL[|a| - i]
    ensures a[|a| - 1] in GLOBAL && b[0] in GLOBAL
  {
    var s := a + b;
    assert s[i..i + |GLOBAL|][|a| - 1 - i] == s[|a| - 1] == a[|a| - 1];
    assert s[i..i + |GLOBAL|][|a| - i] == s[|a|] == b[0];
  }

  /** A character that does not occur in the text looked for keeps two texts apart. */
  lemma Separator(a: string, b: string)
    requires a == "" || b == "" || a[|a| - 1] !in GLOBAL || b[0] !in GLOBAL
    ensures MentionsGlobal(a + b) <==> MentionsGlobal(a) || MentionsGlobal(b)
  {
    forall i: nat ensures !Straddles(a, b, i) {
      if Straddles(a, b, i) { StraddleChars(a, b, i); }
    }
    JoinGlobal(a, b);
  }

  lemma MentionHasG(s: string)
    requires MentionsGlobal(s)
    ensures 'g' in s
  {
    var i :| 0 <= i < |s| && GlobalAt(s, i);
    assert s[i..i + |GLOBAL|][0] == GLOBAL[0] == 'g';
  }

  lemma NoMention(s: string)
    requires 'g' !in s
    ensures !MentionsGlobal(s)
  {
    if MentionsGlobal(s) { MentionHasG(s); }
  }

  lemma NestedEnd(x: string)
    requires Nested(x) && x != ""
    ensures x[|x| - 1] != '('
  {
    assert Depth(x[..|x| - 1]) >= 0;
  }

  /** Brackets around an expression make no difference. */
  lemma GlobalInBrackets(x: string, r: string)
    requires Nested(x) && Spaces(r)
    ensures MentionsGlobal(['('] + x + [')'] + r) <==> MentionsGlobal(x)
  {
    var y := [')'] + r;
    NoMention(y);
    forall i: nat ensures !Straddles(x, y, i) {
      if Straddles(x, y, i) {
        StraddleChars(x, y, i);
        NestedEnd(x);
      }
    }
    JoinGlobal(x, y);
    forall i: nat ensures !Straddles(['('], x + y, i) {
      if Straddles(['('], x + y, i) { StraddleChars(['('], x + y, i); }
    }
    JoinGlobal(['('], x + y);
    NoMention(['(']);
    assert ['('] + x + [')'] + r == ['('] + (x + y);
  }

  lemma {:induction false} GlobalShownUnary(u: Unary, env: Env)
    requires ValidUnary(u, env)
    ensures MentionsGlobal(ShowUnary(u)) <==> GlobalUnary(u)
    decreases u
  {
    match u
    case Not(l, v) =>
      GlobalShownUnary(v, env);
      NoMention(l + ['!']);
      Separator(l + ['!'], ShowUnary(v));
    case Brackets(l, o, r) =>
      GlobalShownOr(o, env);
      OrNested(o, env);
      GlobalInBrackets(ShowOr(o), r);
      NoMention(l);
      Separator(l, ['('] + ShowOr(o) + [')'] + r);
      assert ShowUnary(u) == l + (['('] + ShowOr(o) + [')'] + r);
    case Word(l, w, r) =>
      NoMention(l);
      NoMention(r);
      Separator(l, w);
      Separator(l + w, r);
  }

  lemma {:induction false} GlobalShownAnd(a: AndExpr, env: Env)
    requires ValidAnd(a, env)
    ensures MentionsGlobal(ShowAnd(a)) <==> GlobalAnd(a)
    decreases a
  {
    GlobalShownUnary(a.first, env);
    if a.AndMore? {
      GlobalShownAnd(a.others, env);
      NoMention(['&', '&']);
      Separator(ShowUnary(a.first), ['&', '&']);
      Separator(ShowUnary(a.first) + ['&', '&'], ShowAnd(a.others));
    }
  }

  /** The text of an expression mentions the global peers exactly if one of its words does. */
  lemma {:induction false} GlobalShownOr(o: OrExpr, env: Env)
    requires ValidOr(o, env)
    ensures MentionsGlobal(ShowOr(o)) <==> GlobalOr(o)
    decreases o
  {
    GlobalShownAnd(o.first, env);
    if o.OrMore? {
      GlobalShownOr(o.others, env);
      NoMention(['|', '|']);
      Separator(ShowAnd(o.first), ['|', '|']);
      Separator(ShowAnd(o.first) + ['|', '|'], ShowOr(o.others));
    }
  }

  // ----- the value, by recursion -----

  /** Evaluating the text of a selector gives the peers for which the expression is true, whatever brackets and spaces
      it was written with. */
  lemma {:induction false} EvalIsMeaning(o: OrExpr, env: Env)
    requires ValidOr(o, env) && env.Valid()
    ensures Eval(ShowOr(o), env) == Some(Selected(o, env))
    decreases |ShowOr(o)|, 2
  {
    StrippedIsCore(o, env);
    CoreMeaning(o, env);
    var k := Core(o, env);
    var t := ShowOr(k);
    var limit := |ShowOr(o)|;
    assert Selected(o, env) == Selected(k, env);
    SplitOr(k, env);
    if k.OrMore? {
      PartsShorter(t, '|');
      EvalAnyIs(k, env, limit, limit);
    } else {
      SplitAnd(k.first, env);
      if k.first.AndMore? {
        PartsShorter(t, '&');
        GlobalShownOr(o, env);
        EvalAllIs(k.first, env.Start(ShowOr(o)), env, limit, limit);
      } else {
        var p :| ValidOr(p, env) && k == TrimOr(p);
        ShowTrimOr(p, env);
        EvalUnaryIs(o, k, env);
      }
    }
  }

  lemma {:induction false} EvalUnaryIs(o: OrExpr, k: OrExpr, env: Env)
    requires ValidOr(o, env) && env.Valid() && ValidOr(k, env) && |ShowOr(k)| <= |ShowOr(o)|
    requires k.OrOne? && k.first.AndOne? && k.first.first.left == "" && !IsBrackets(k)
    requires k.first.first.Word? ==> k.first.first.right == ""
    requires Stripped(ShowOr(o)) == Some(ShowOr(k)) && GlobalOr(o) == GlobalOr(k)
    requires ShowOr(k) != "" && Split(ShowOr(k), '|') == [ShowOr(k)] && Split(ShowOr(k), '&') == [ShowOr(k)]
    ensures Eval(ShowOr(o), env) == Some(Selected(k, env))
    decreases |ShowOr(o)|, 1
  {
    FirstValid(k, env);
    var u := k.first.first;
    assert u.Not? || u.Word?;
    if u.Not? {
      GlobalShownOr(o, env);
      NotSelected(k, env, ShowOr(o));
      hide *;
      EvalIsMeaning(OrOne(AndOne(u.operand)), env);
    } else {
      WordSelected(k, env);
    }
  }

  lemma NotSelected(k: OrExpr, env: Env, s: string)
    requires env.Valid() && MentionsGlobal(s) == GlobalOr(k)
    requires k.OrOne? && k.first.AndOne? && k.first.first.Not? && k.first.first.left == "" &&
             ValidUnary(k.first.first, env)
    ensures var inner := OrOne(AndOne(k.first.first.operand));
            && ValidOr(inner, env) && |ShowOr(inner)| < |ShowOr(k)|
            && ShowOr(k) != "" && ShowOr(k)[0] == '!' && ShowOr(k)[1..] == ShowOr(inner)
            && env.ToNegate(s) - Selected(inner, env) == Selected(k, env)
  {
    var inner := OrOne(AndOne(k.first.first.operand));
    OnlyUnary(k, env);
    OnlyUnary(inner, env);
    assert ShowOr(k) == ['!'] + ShowUnary(k.first.first.operand);
    assert ValidAnd(inner.first, env);
  }

  lemma WordSelected(k: OrExpr, env: Env)
    requires env.Valid() && k.OrOne? && k.first.AndOne? && k.first.first.Word? && ValidUnary(k.first.first, env)
    requires k.first.first.left == "" && k.first.first.right == ""
    ensures ShowOr(k) != "" && ShowOr(k)[0] != '!' && Atom(ShowOr(k), env) == Some(Selected(k, env))
  {
    OnlyUnary(k, env);
    assert ShowOr(k) == k.first.first.text;
    assert Selected(k, env) == env.atoms[k.first.first.text];
  }

  lemma {:induction false} EvalAnyIs(o: OrExpr, env: Env, limit: nat, bound: nat)
    requires ValidOr(o, env) && env.Valid()
    requires forall i :: 0 <= i < |OrTexts(o)| ==> |OrTexts(o)[i]| < limit
    requires limit <= bound
    ensures EvalAny(OrTexts(o), env, limit) == Some(Selected(o, env))
    decreases bound, 1, o
  {
    var first := OrOne(o.first);
    assert OrTexts(o)[0] == ShowOr(first);
    EvalIsMeaning(first, env);
    if o.OrMore? {
      assert OrTexts(o)[1..] == OrTexts(o.others);
      forall i | 0 <= i < |OrTexts(o.others)| ensures |OrTexts(o.others)[i]| < limit {
        assert OrTexts(o)[i + 1] == OrTexts(o.others)[i];
      }
      EvalAnyIs(o.others, env, limit, bound);
      assert Selected(first, env) + Selected(o.others, env) == Selected(o, env);
    } else {
      assert OrTexts(o)[1..] == [];
      assert Selected(first, env) + {} == Selected(o, env);
    }
  }

  lemma AndTruth(a: AndExpr, env: Env)
    requires a.AndMore?
    ensures forall x :: TruthOr(OrOne(a), env, x) ==
                        (TruthOr(OrOne(AndOne(a.first)), env, x) && TruthOr(OrOne(a.others), env, x))
  {
    OnlyUnary(OrOne(AndOne(a.first)), env);
    forall x ensures TruthOr(OrOne(a), env, x) == (TruthUnary(a.first, env, x) && TruthOr(OrOne(a.others), env, x)) {
      assert TruthOr(OrOne(a), env, x) == TruthAnd(a, env, x);
      assert TruthOr(OrOne(a.others), env, x) == TruthAnd(a.others, env, x);
    }
  }

  lemma {:induction false} EvalAllIs(a: AndExpr, start: set<Peer>, env: Env, limit: nat, bound: nat)
    requires ValidAnd(a, env) && env.Valid()
    requires forall i :: 0 <= i < |AndTexts(a)| ==> |AndTexts(a)[i]| < limit
    requires limit <= bound && LocalPeers(env) <= start && (GlobalAnd(a) ==> Universe(env) <= start)
    ensures EvalAll(AndTexts(a), start, env, limit) == Some(Selected(OrOne(a), env))
    decreases bound, 1, a
  {
    var first := OrOne(AndOne(a.first));
    assert AndTexts(a)[0] == ShowOr(first);
    EvalIsMeaning(first, env);
    if a.AndMore? {
      assert AndTexts(a)[1..] == AndTexts(a.others);
      forall i | 0 <= i < |AndTexts(a.others)| ensures |AndTexts(a.others)[i]| < limit {
        assert AndTexts(a)[i + 1] == AndTexts(a.others)[i];
      }
      EvalAllIs(a.others, start, env, limit, bound);
      AndTruth(a, env);
      assert Selected(first, env) * Selected(OrOne(a.others), env) == Selected(OrOne(a), env);
    } else {
      assert AndTexts(a)[1..] == [];
      if !GlobalAnd(a) { LocalUnlessGlobal(a, env); }
      assert Selected(first, env) * start == Selected(OrOne(a), env);
    }
  }

  /** Without mentioning global peers none of them is selected. */
  lemma LocalUnlessGlobal(a: AndExpr, env: Env)
    requires ValidAnd(a, env) && !GlobalAnd(a)
    ensures forall x :: TruthAnd(a, env, x) ==> x in LocalPeers(env)
  {
    LocalUnary(a.first, env);
  }

  lemma {:induction false} LocalUnary(u: Unary, env: Env)
    requires ValidUnary(u, env) && !GlobalUnary(u)
    ensures forall x :: TruthUnary(u, env, x) ==> x in LocalPeers(env)
    decreases u
  {
    if u.Brackets? { LocalOr(u.body, env); }
  }

  lemma {:induction false} LocalOr(o: OrExpr, env: Env)
    requires ValidOr(o, env) && !GlobalOr(o)
    ensures forall x :: TruthOr(o, env, x) ==> x in LocalPeers(env)
    decreases o
  {
    LocalUnary(o.first.first, env);
    if o.OrMore? { LocalOr(o.others, env); }
  }

  lemma NotTruth(u: Unary, env: Env, x: Peer)
    ensures TruthAnd(AndOne(Not("", u)), env, x) <==>
              !TruthUnary(u, env, x) && (x in LocalPeers(env) || GlobalUnary(u))
    ensures TruthOr(OrOne(AndOne(Not("", u))), env, x) == TruthAnd(AndOne(Not("", u)), env, x)
  {
    assert TruthAnd(AndOne(Not("", u)), env, x) == TruthUnary(Not("", u), env, x);
  }

  /** `!(a && b)` and `!a || !b` agree on a peer, unless it is a global one selected by the only operand that mentions
      global peers. This can happen in namespace selectors only. */
  lemma DeMorgan(a: Unary, b: Unary, env: Env, x: Peer)
    requires ValidUnary(a, env) && ValidUnary(b, env)
    ensures var outer := Not("", Brackets("", OrOne(AndMore(a, AndOne(b))), ""));
            var inner := OrMore(AndOne(Not("", a)), OrOne(AndOne(Not("", b))));
            TruthUnary(outer, env, x) == TruthOr(inner, env, x) <==>
              || x in LocalPeers(env) || GlobalUnary(a) == GlobalUnary(b)
              || !TruthUnary(if GlobalUnary(a) then a else b, env, x)
  {
    var both := AndMore(a, AndOne(b));
    var brackets := Brackets("", OrOne(both), "");
    assert TruthAnd(both, env, x) == (TruthUnary(a, env, x) && TruthUnary(b, env, x));
    assert TruthUnary(brackets, env, x) == TruthOr(OrOne(both), env, x) == TruthAnd(both, env, x);
    assert GlobalUnary(brackets) == GlobalOr(OrOne(both)) == GlobalAnd(both) == (GlobalUnary(a) || GlobalUnary(b));
    NotTruth(a, env, x);
    NotTruth(b, env, x);
    if !GlobalUnary(a) { LocalUnary(a, env); }
    if !GlobalUnary(b) { LocalUnary(b, env); }
  }
}
