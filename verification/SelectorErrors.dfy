/** Which selector texts are errors. */
module SelectorErrors {
  // Evaluation succeeds on the texts of expressions and on no others.

  import opened Wrappers
  import opened SelectorText
  import opened Selector
  import opened SelectorMeaning

  // ----- brackets -----

  /** The number of occurrences of a character. */
  function Count(s: string, c: char): nat {
    if s == "" then 0 else Count(s[..|s| - 1], c) + if s[|s| - 1] == c then 1 else 0
  }

  lemma {:induction false} DepthCounts(s: string)
    ensures Depth(s) == Count(s, '(') - Count(s, ')')
    decreases |s|
  {
    if s != "" { DepthCounts(s[..|s| - 1]); }
  }

  lemma {:induction false} TrimLeftParts(s: string) returns (l: string)
    ensures s == l + TrimLeft(s) && Spaces(l)
    decreases |s|
  {
    if s != "" && IsSpace(s[0]) {
      var k := TrimLeftParts(s[1..]);
      l := [s[0]] + k;
      assert TrimLeft(s) == TrimLeft(s[1..]);
      assert l + TrimLeft(s) == [s[0]] + s[1..] == s;
    } else {
      l := "";
    }
  }

  lemma {:induction false} TrimRightParts(s: string) returns (r: string)
    ensures s == TrimRight(s) + r && Spaces(r)
    decreases |s|
  {
    if s != "" && IsSpace(s[|s| - 1]) {
      var k := TrimRightParts(s[..|s| - 1]);
      r := k + [s[|s| - 1]];
      assert s == s[..|s| - 1] + [s[|s| - 1]];
    } else {
      r := "";
    }
  }

  lemma TrimParts(s: string) returns (l: string, r: string)
    ensures s == l + Trim(s) + r && Spaces(l) && Spaces(r)
  {
    l := TrimLeftParts(s);
    r := TrimRightParts(TrimLeft(s));
    assert l + (Trim(s) + r) == l + Trim(s) + r;
  }

  lemma TrimDepth(s: string)
    ensures Depth(Trim(s)) == Depth(s)
  {
    var l, r := TrimParts(s);
    SpacesNested(l);
    SpacesNested(r);
    DepthConcat(l + Trim(s), r);
    DepthConcat(l, Trim(s));
  }

  /** Unequal numbers of brackets are an error, wherever they stand. */
  lemma UnequalBrackets(s: string, env: Env)
    requires Count(s, '(') != Count(s, ')')
    ensures Eval(s, env) == None
  {
    DepthCounts(s);
    TrimDepth(s);
  }

  // ----- splitting loses nothing -----

  function JoinAll(pieces: seq<string>, c: char): string {
    if pieces == [] then ""
    else if |pieces| == 1 then pieces[0]
    else pieces[0] + [c, c] + JoinAll(pieces[1..], c)
  }

  lemma JoinCons(p: string, rest: seq<string>, c: char)
    requires rest != []
    ensures JoinAll([p] + rest, c) == p + [c, c] + JoinAll(rest, c)
  {
    assert ([p] + rest)[1..] == rest;
  }

  lemma {:induction false} SplitAllJoins(s: string, c: char)
    ensures JoinAll(SplitAll(s, c), c) == s
    decreases |s|
  {
    var i := FirstAt(s, c);
    if i < |s| {
      SplitAllJoins(s[i + 2..], c);
      JoinCons(s[..i], SplitAll(s[i + 2..], c), c);
      assert s == s[..i] + [c, c] + s[i + 2..];
    }
  }

  lemma OperatorDepth(a: string, c: char, b: string)
    requires c != '(' && c != ')'
    ensures Depth(a + [c, c] + b) == Depth(a) + Depth(b)
  {
    DepthConcat(a + [c, c], b);
    DepthConcat(a, [c, c]);
    NoBrackets([c, c]);
  }

  lemma {:induction false} RejoinJoins(pieces: seq<string>, c: char, current: string)
    requires pieces != [] && c != '(' && c != ')' && Depth(current + JoinAll(pieces, c)) == 0
    ensures Rejoin(pieces, c, current) != [] && JoinAll(Rejoin(pieces, c, current), c) == current + JoinAll(pieces, c)
    decreases |pieces|
  {
    var joined, rest := current + pieces[0], pieces[1..];
    if |pieces| == 1 {
      assert Rejoin(rest, c, "") == [];
    } else {
      assert current + JoinAll(pieces, c) == joined + [c, c] + JoinAll(rest, c);
      OperatorDepth(joined, c, JoinAll(rest, c));
      if Depth(joined) == 0 {
        assert "" + JoinAll(rest, c) == JoinAll(rest, c);
        RejoinJoins(rest, c, "");
        JoinCons(joined, Rejoin(rest, c, ""), c);
      } else {
        RejoinJoins(rest, c, joined + [c, c]);
      }
    }
  }

  lemma SplitJoins(s: string, c: char)
    requires c != '(' && c != ')' && Depth(s) == 0
    ensures Split(s, c) != [] && JoinAll(Split(s, c), c) == s
  {
    SplitAllJoins(s, c);
    assert "" + s == s;
    RejoinJoins(SplitAll(s, c), c, "");
  }

  // ----- success -----

  lemma {:induction false} AnySucceeds(parts: seq<string>, env: Env, limit: nat)
    requires forall i :: 0 <= i < |parts| ==> |parts[i]| < limit
    ensures EvalAny(parts, env, limit).Some? <==> forall p :: p in parts ==> Eval(p, env).Some?
    decreases |parts|
  {
    if parts != [] {
      AnySucceeds(parts[1..], env, limit);
      assert EvalAny(parts, env, limit).Some? <==> Eval(parts[0], env).Some? && EvalAny(parts[1..], env, limit).Some?;
      hide Eval;
      assert parts == [parts[0]] + parts[1..];
      assert forall p :: p in parts <==> p == parts[0] || p in parts[1..];
    }
  }

  lemma {:induction false} AllSucceeds(parts: seq<string>, start: set<Peer>, env: Env, limit: nat)
    requires forall i :: 0 <= i < |parts| ==> |parts[i]| < limit
    ensures EvalAll(parts, start, env, limit).Some? <==> forall p :: p in parts ==> Eval(p, env).Some?
    decreases |parts|
  {
    if parts != [] {
      AllSucceeds(parts[1..], start, env, limit);
      assert EvalAll(parts, start, env, limit).Some? <==>
             Eval(parts[0], env).Some? && EvalAll(parts[1..], start, env, limit).Some?;
      hide Eval;
      assert parts == [parts[0]] + parts[1..];
      assert forall p :: p in parts <==> p == parts[0] || p in parts[1..];
    }
  }

  /** Evaluating a text without outer spaces and enclosing brackets succeeds. */
  ghost predicate Succeeds(t: string, env: Env) {
    if |Split(t, '|')| != 1 then forall p :: p in Split(t, '|') ==> Eval(p, env).Some?
    else if |Split(t, '&')| != 1 then forall p :: p in Split(t, '&') ==> Eval(p, env).Some?
    else if t == "" then false
    else if t[0] == '!' then Eval(t[1..], env).Some?
    else Split(t, '&')[0] in env.atoms
  }

  lemma EvalSucceeds(s: string, env: Env)
    ensures Eval(s, env).Some? <==> Stripped(s).Some? && Succeeds(Stripped(s).value, env)
  {
    if Stripped(s).Some? {
      var t := Stripped(s).value;
      if |Split(t, '|')| != 1 {
        PartsShorter(t, '|');
        SplitSome(t, '|', |s|);
        AnySucceeds(Split(t, '|'), env, |s|);
      } else if |Split(t, '&')| != 1 {
        PartsShorter(t, '&');
        SplitSome(t, '&', |s|);
        AllSucceeds(Split(t, '&'), env.Start(s), env, |s|);
      }
    }
  }

  lemma SplitSome(t: string, c: char, limit: nat)
    requires |Split(t, c)| != 1 && |t| <= limit
    ensures forall i :: 0 <= i < |Split(t, c)| ==> |Split(t, c)[i]| < limit
  {
    PartsShorter(t, c);
  }

  // ----- putting expressions together -----

  function AppendOr(a: OrExpr, b: OrExpr): OrExpr {
    match a
    case OrOne(x) => OrMore(x, b)
    case OrMore(x, rest) => OrMore(x, AppendOr(rest, b))
  }

  function AppendAnd(a: AndExpr, b: AndExpr): AndExpr {
    match a
    case AndOne(u) => AndMore(u, b)
    case AndMore(u, rest) => AndMore(u, AppendAnd(rest, b))
  }

  /** The text of `a`, then the operator, then the text of `b`: it takes the last operand of `a` and the first of
      `b`. */
  function GlueAnd(a: OrExpr, b: OrExpr): OrExpr {
    match a
    case OrMore(x, rest) => OrMore(x, GlueAnd(rest, b))
    case OrOne(x) => b.(first := AppendAnd(x, b.first))
  }

  lemma {:induction false} ShowAppendOr(a: OrExpr, b: OrExpr, env: Env)
    requires ValidOr(a, env) && ValidOr(b, env)
    ensures ShowOr(AppendOr(a, b)) == ShowOr(a) + ['|', '|'] + ShowOr(b) && ValidOr(AppendOr(a, b), env)
    decreases a
  {
    if a.OrMore? {
      ShowAppendOr(a.others, b, env);
      Regroup(ShowAnd(a.first), ['|', '|'], ShowOr(a.others), ['|', '|'], ShowOr(b));
    }
  }

  lemma Regroup(a: string, o: string, b: string, p: string, c: string)
    ensures a + o + (b + p + c) == (a + o + b) + p + c
  {
  }

  lemma {:induction false} ShowAppendAnd(a: AndExpr, b: AndExpr, env: Env)
    requires ValidAnd(a, env) && ValidAnd(b, env)
    ensures ShowAnd(AppendAnd(a, b)) == ShowAnd(a) + ['&', '&'] + ShowAnd(b) && ValidAnd(AppendAnd(a, b), env)
    decreases a
  {
    if a.AndMore? {
      ShowAppendAnd(a.others, b, env);
      Regroup(ShowUnary(a.first), ['&', '&'], ShowAnd(a.others), ['&', '&'], ShowAnd(b));
    }
  }

  lemma {:induction false} ShowGlueAnd(a: OrExpr, b: OrExpr, env: Env)
    requires ValidOr(a, env) && ValidOr(b, env)
    ensures ShowOr(GlueAnd(a, b)) == ShowOr(a) + ['&', '&'] + ShowOr(b) && ValidOr(GlueAnd(a, b), env)
    decreases a
  {
    match a
    case OrMore(x, rest) =>
      ShowGlueAnd(rest, b, env);
      Regroup(ShowAnd(x), ['|', '|'], ShowOr(rest), ['&', '&'], ShowOr(b));
    case OrOne(x) =>
      ShowAppendAnd(x, b.first, env);
      if b.OrMore? { Regroup(ShowAnd(x), ['&', '&'], ShowAnd(b.first), ['|', '|'], ShowOr(b.others)); }
  }

  /** The first operand is replaced. */
  function WithFirst(o: OrExpr, u: Unary): OrExpr { o.(first := o.first.(first := u)) }

  lemma ShowWithFirst(o: OrExpr, u: Unary, x: string, env: Env)
    requires ValidOr(o, env) && ValidUnary(u, env) && ShowUnary(u) == x + ShowUnary(o.first.first)
    ensures ShowOr(WithFirst(o, u)) == x + ShowOr(o) && ValidOr(WithFirst(o, u), env)
  {
    assert ValidAnd(o.first, env);
    var a := o.first.(first := u);
    assert ShowAnd(a) == x + ShowAnd(o.first) && ValidAnd(a, env) by {
      if o.first.AndMore? {
        assert ShowAnd(a) == (x + ShowUnary(o.first.first)) + ['&', '&'] + ShowAnd(o.first.others);
      }
    }
    if o.OrMore? { assert ShowOr(WithFirst(o, u)) == (x + ShowAnd(o.first)) + ['|', '|'] + ShowOr(o.others); }
  }

  lemma PadLeft(l: string, o: OrExpr, env: Env) returns (r: OrExpr)
    requires Spaces(l) && ValidOr(o, env)
    ensures ShowOr(r) == l + ShowOr(o) && ValidOr(r, env)
  {
    FirstValid(o, env);
    var u := o.first.first;
    var v := u.(left := l + u.left);
    match u {
      case Not(k, w) => assert ShowUnary(v) == l + (k + ['!'] + ShowUnary(w));
      case Brackets(k, b, e) => assert ShowUnary(v) == l + (k + ['('] + ShowOr(b) + [')'] + e);
      case Word(k, w, e) => assert ShowUnary(v) == l + (k + w + e);
    }
    ShowWithFirst(o, v, l, env);
    r := WithFirst(o, v);
  }

  function PadUnary(u: Unary, r: string): Unary {
    match u
    case Not(l, v) => Not(l, PadUnary(v, r))
    case Brackets(l, o, e) => Brackets(l, o, e + r)
    case Word(l, w, e) => Word(l, w, e + r)
  }

  function PadAnd(a: AndExpr, r: string): AndExpr {
    match a
    case AndOne(u) => AndOne(PadUnary(u, r))
    case AndMore(u, rest) => AndMore(u, PadAnd(rest, r))
  }

  function PadOr(o: OrExpr, r: string): OrExpr {
    match o
    case OrOne(a) => OrOne(PadAnd(a, r))
    case OrMore(a, rest) => OrMore(a, PadOr(rest, r))
  }

  lemma {:induction false} ShowPadUnary(u: Unary, r: string, env: Env)
    requires Spaces(r) && ValidUnary(u, env)
    ensures ShowUnary(PadUnary(u, r)) == ShowUnary(u) + r && ValidUnary(PadUnary(u, r), env)
    decreases u
  {
    match u
    case Not(l, v) =>
      ShowPadUnary(v, r, env);
      assert l + ['!'] + (ShowUnary(v) + r) == l + ['!'] + ShowUnary(v) + r;
    case Brackets(l, o, e) => assert l + ['('] + ShowOr(o) + [')'] + (e + r) == l + ['('] + ShowOr(o) + [')'] + e + r;
    case Word(l, w, e) => assert l + w + (e + r) == l + w + e + r;
  }

  lemma {:induction false} ShowPadAnd(a: AndExpr, r: string, env: Env)
    requires Spaces(r) && ValidAnd(a, env)
    ensures ShowAnd(PadAnd(a, r)) == ShowAnd(a) + r && ValidAnd(PadAnd(a, r), env)
    decreases a
  {
    if a.AndOne? { ShowPadUnary(a.first, r, env); } else { ShowPadAnd(a.others, r, env); }
  }

  lemma {:induction false} ShowPadOr(o: OrExpr, r: string, env: Env)
    requires Spaces(r) && ValidOr(o, env)
    ensures ShowOr(PadOr(o, r)) == ShowOr(o) + r && ValidOr(PadOr(o, r), env)
    decreases o
  {
    if o.OrOne? { ShowPadAnd(o.first, r, env); } else { ShowPadOr(o.others, r, env); }
  }

  lemma Pad(l: string, o: OrExpr, r: string, env: Env) returns (p: OrExpr)
    requires Spaces(l) && Spaces(r) && ValidOr(o, env)
    ensures ShowOr(p) == l + ShowOr(o) + r && ValidOr(p, env)
  {
    var k := PadLeft(l, o, env);
    ShowPadOr(k, r, env);
    p := PadOr(k, r);
  }

  // ----- reading a text -----

  /** All expressions without operators are such, and select what they may. */
  ghost predicate ValidAtoms(env: Env) { forall w :: w in env.atoms ==> ValidWord(w) && ValidAtom(w, env) }

  /** Every part that evaluates is the text of an expression; so is the whole. */
  lemma {:induction false} ReadParts(parts: seq<string>, c: char, limit: nat, env: Env) returns (o: OrExpr)
    requires ValidAtoms(env) && parts != [] && (c == '|' || c == '&')
    requires forall p :: p in parts ==> |p| < limit && Eval(p, env).Some?
    ensures ValidOr(o, env) && ShowOr(o) == JoinAll(parts, c)
    decreases limit, 0, |parts|
  {
    assert parts[0] in parts;
    var first := Read(parts[0], env);
    if |parts| == 1 { return first; }
    assert forall p :: p in parts[1..] ==> p in parts;
    var rest := ReadParts(parts[1..], c, limit, env);
    if c == '|' {
      ShowAppendOr(first, rest, env);
      o := AppendOr(first, rest);
    } else {
      ShowGlueAnd(first, rest, env);
      o := GlueAnd(first, rest);
    }
  }

  /** A text that evaluates is the text of an expression. */
  lemma {:induction false} Read(s: string, env: Env) returns (o: OrExpr)
    requires ValidAtoms(env) && Eval(s, env).Some?
    ensures ValidOr(o, env) && ShowOr(o) == s
    decreases |s|, 2
  {
    EvalSucceeds(s, env);
    var l, r := TrimParts(s);
    var k;
    if Enclosed(Trim(s)) {
      var inner := Trim(s)[1..|Trim(s)| - 1];
      InnerSame(s, inner);
      EvalSucceeds(inner, env);
      var body := Read(inner, env);
      k := OrOne(AndOne(Brackets("", body, "")));
      BracketsShow(body, env);
      assert Trim(s) == ['('] + inner + [')'];
    } else {
      k := ReadCore(Trim(s), |s|, env);
    }
    o := Pad(l, k, r, env);
  }

  lemma BracketsShow(body: OrExpr, env: Env)
    requires ValidOr(body, env)
    ensures var k := OrOne(AndOne(Brackets("", body, "")));
            ValidOr(k, env) && ShowOr(k) == ['('] + ShowOr(body) + [')']
  {
    var u := Brackets("", body, "");
    assert ValidAnd(AndOne(u), env);
    assert ShowOr(OrOne(AndOne(u))) == ShowAnd(AndOne(u)) == ShowUnary(u);
  }

  /** Enclosing brackets make no difference to what is evaluated. */
  lemma InnerSame(s: string, inner: string)
    requires Stripped(s).Some? && Enclosed(Trim(s)) && inner == Trim(s)[1..|Trim(s)| - 1]
    ensures |inner| < |s| && Stripped(inner) == Stripped(s)
  {
    var t := Trim(s);
    assert |t| > 1 by { assert t[0] != t[|t| - 1]; }
    assert t == ['('] + inner + [')'];
    DepthConcat(['('] + inner, [')']);
    DepthConcat(['('], inner);
    assert ['('][..0] == "" && [')'][..0] == "";
    TrimDepth(inner);
  }

  lemma {:induction false} ReadCore(t: string, limit: nat, env: Env) returns (k: OrExpr)
    requires ValidAtoms(env) && Succeeds(t, env) && Depth(t) == 0 && |t| <= limit
    ensures ValidOr(k, env) && ShowOr(k) == t
    decreases limit, 1
  {
    SplitJoins(t, '|');
    SplitJoins(t, '&');
    if |Split(t, '|')| != 1 {
      PartsBelow(t, '|', limit);
      k := ReadParts(Split(t, '|'), '|', limit, env);
    } else if |Split(t, '&')| != 1 {
      PartsBelow(t, '&', limit);
      k := ReadParts(Split(t, '&'), '&', limit, env);
    } else if t[0] == '!' {
      var inner := Read(t[1..], env);
      FirstValid(inner, env);
      var u := Not("", inner.first.first);
      assert ShowUnary(u) == ['!'] + ShowUnary(inner.first.first);
      ShowWithFirst(inner, u, ['!'], env);
      k := WithFirst(inner, u);
      assert t == ['!'] + t[1..];
    } else {
      assert Split(t, '&')[0] == t;
      var u := Word("", t, "");
      k := OrOne(AndOne(u));
      assert ValidUnary(u, env) && ValidAnd(AndOne(u), env);
      assert ShowOr(k) == ShowAnd(AndOne(u)) == ShowUnary(u);
      assert "" + t + "" == t;
    }
  }

  lemma PartsBelow(t: string, c: char, limit: nat)
    requires |Split(t, c)| != 1 && |t| <= limit
    ensures forall p :: p in Split(t, c) ==> |p| < limit
  {
    SplitSome(t, c, limit);
  }

  /** A text evaluates exactly if it is the text of an expression, with any brackets and spaces; every other text is an
      error. */
  lemma ErrorOrExpression(s: string, env: Env)
    requires env.Valid() && ValidAtoms(env)
    ensures Eval(s, env).Some? <==> exists o :: ValidOr(o, env) && ShowOr(o) == s
  {
    if Eval(s, env).Some? { var o := Read(s, env); }
    if o :| ValidOr(o, env) && ShowOr(o) == s { EvalIsMeaning(o, env); }
  }
}
