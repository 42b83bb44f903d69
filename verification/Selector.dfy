/** Evaluating a Calico label selector: '||' is split first, then '&&', then a leading '!'. */
module Selector {
  import opened Wrappers
  import opened SelectorText

  type Peer = nat

  const GLOBAL := "global()"

  predicate GlobalAt(s: string, i: nat) { i + |GLOBAL| <= |s| && s[i..i + |GLOBAL|] == GLOBAL }

  /** 'global()' in s */
  predicate MentionsGlobal(s: string) { exists i :: 0 <= i < |s| && GlobalAt(s, i) }

  /** The kind of selector, and what the peer container answers: all peers, those that are not global, the pods of the
      namespace, and the peers of each expression without operators. Any other text is a syntax error. */
  datatype Env = Env(isNamespace: bool, allPeers: set<Peer>, localPeers: set<Peer>, nsPods: set<Peer>,
                     atoms: map<string, set<Peer>>)
  {
    predicate Valid() { nsPods <= allPeers && localPeers <= allPeers }

    /** The peers a conjunction starts from. A namespace selector includes global peers only if it mentions them. */
    function Start(s: string): set<Peer> { if !isNamespace || MentionsGlobal(s) then allPeers else localPeers }

    /** The peers a negation subtracts from. */
    function ToNegate(s: string): set<Peer> { if isNamespace then Start(s) else nsPods }
  }

  /** None is any of the errors: unequal brackets, a missing expression or an invalid one. */
  type Outcome = Option<set<Peer>>

  ghost function Eval(s: string, env: Env): Outcome
    decreases |s|, 1
  {
    match Stripped(s)
    case None => None
    case Some(t) =>
      if |Split(t, '|')| != 1 then PartsShorter(t, '|'); EvalAny(Split(t, '|'), env, |s|)
      else if |Split(t, '&')| != 1 then PartsShorter(t, '&'); EvalAll(Split(t, '&'), env.Start(s), env, |s|)
      else if t == "" then None
      else if t[0] == '!' then
        var r := Eval(t[1..], env);
        if r.None? then None else Some(env.ToNegate(s) - r.value)
      else Atom(Split(t, '&')[0], env)
  }

  function Atom(t: string, env: Env): Outcome {
    if t in env.atoms then Some(env.atoms[t]) else None
  }

  /** The union over the parts. */
  ghost function EvalAny(parts: seq<string>, env: Env, limit: nat): Outcome
    requires forall i :: 0 <= i < |parts| ==> |parts[i]| < limit
    decreases limit, 0, |parts|
  {
    if parts == [] then Some({})
    else
      var first := Eval(parts[0], env);
      var rest := EvalAny(parts[1..], env, limit);
      if first.None? || rest.None? then None else Some(first.value + rest.value)
  }

  /** The intersection over the parts, starting from the given peers. */
  ghost function EvalAll(parts: seq<string>, start: set<Peer>, env: Env, limit: nat): Outcome
    requires forall i :: 0 <= i < |parts| ==> |parts[i]| < limit
    decreases limit, 0, |parts|
  {
    if parts == [] then Some(start)
    else
      var first := Eval(parts[0], env);
      var rest := EvalAll(parts[1..], start, env, limit);
      if first.None? || rest.None? then None else Some(first.value * rest.value)
  }

  function Join(union: bool, acc: set<Peer>, rest: Outcome): Outcome {
    if rest.None? then None else Some(if union then acc + rest.value else acc * rest.value)
  }

  lemma JoinUnion(acc: set<Peer>, part: set<Peer>, rest: Outcome)
    ensures rest.Some? ==> acc + (part + rest.value) == (acc + part) + rest.value && {} + rest.value == rest.value
  {
  }

  lemma JoinIntersection(acc: set<Peer>, part: set<Peer>, rest: Outcome)
    ensures rest.Some? ==> acc * (part * rest.value) == (acc * part) * rest.value
    ensures rest.Some? && rest.value <= acc ==> acc * rest.value == rest.value
  {
  }

  /** _recursive_parse_label_selector */
  method Evaluate(s: string, env: Env) returns (r: Outcome)
    ensures r == Eval(s, env)
    decreases |s|, 1
  {
    var stripped := StripSelector(s);
    if stripped.None? { return None; }
    var t := stripped.value;
    var parts := SplitSelector(t, '|');
    if |parts| != 1 {
      PartsShorter(t, '|');
      r := EvaluateAny(parts, env, |s|);
      return;
    }
    parts := SplitSelector(t, '&');
    if |parts| != 1 {
      PartsShorter(t, '&');
      r := EvaluateAll(parts, env.Start(s), env, |s|);
      return;
    }
    if t == "" { return None; }
    if t[0] == '!' {
      var inner := Evaluate(t[1..], env);
      return if inner.None? then None else Some(env.ToNegate(s) - inner.value);
    }
    r := Atom(parts[0], env);
  }

  method EvaluateAny(parts: seq<string>, env: Env, ghost limit: nat) returns (r: Outcome)
    requires forall i :: 0 <= i < |parts| ==> |parts[i]| < limit
    ensures r == EvalAny(parts, env, limit)
    decreases limit, 0
  {
    var res: set<Peer> := {};
    assert parts[0..] == parts;
    JoinUnion(res, {}, EvalAny(parts, env, limit));
    hide Eval;
    for i := 0 to |parts|
      invariant EvalAny(parts, env, limit) == Join(true, res, EvalAny(parts[i..], env, limit))
    {
      assert parts[i..][1..] == parts[i + 1..];
      var part := Evaluate(parts[i], env);
      if part.None? { return None; }
      JoinUnion(res, part.value, EvalAny(parts[i + 1..], env, limit));
      res := res + part.value;
    }
    r := Some(res);
  }

  method EvaluateAll(parts: seq<string>, start: set<Peer>, env: Env, ghost limit: nat) returns (r: Outcome)
    requires forall i :: 0 <= i < |parts| ==> |parts[i]| < limit
    ensures r == EvalAll(parts, start, env, limit)
    decreases limit, 0
  {
    var res := start;
    assert parts[0..] == parts;
    EvalAllWithin(parts, start, env, limit);
    JoinIntersection(res, {}, EvalAll(parts, start, env, limit));
    hide Eval;
    for i := 0 to |parts|
      invariant res <= start
      invariant EvalAll(parts, start, env, limit) == Join(false, res, EvalAll(parts[i..], start, env, limit))
    {
      assert parts[i..][1..] == parts[i + 1..];
      var part := Evaluate(parts[i], env);
      if part.None? { return None; }
      JoinIntersection(res, part.value, EvalAll(parts[i + 1..], start, env, limit));
      res := res * part.value;
    }
    EvalNone(parts[|parts|..], res, start, env, limit);
    r := Some(res);
  }

  lemma EvalNone(parts: seq<string>, res: set<Peer>, start: set<Peer>, env: Env, limit: nat)
    requires parts == [] && res <= start
    ensures EvalAll(parts, start, env, limit) == Some(start) && res * start == res
  {
  }

  lemma {:induction false} EvalAllWithin(parts: seq<string>, start: set<Peer>, env: Env, limit: nat)
    requires forall i :: 0 <= i < |parts| ==> |parts[i]| < limit
    ensures var r := EvalAll(parts, start, env, limit); r.Some? ==> r.value <= start
    decreases |parts|
  {
    if parts != [] { EvalAllWithin(parts[1..], start, env, limit); }
  }
}
