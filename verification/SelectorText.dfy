/** The string work of the Calico selector parser. */
module SelectorText {
  // Trimming, removing enclosing brackets, and splitting by an operator that stands outside all brackets.

  import opened Wrappers

  predicate IsSpace(c: char) {
    c == ' ' || c == '\t' || c == '\n' || c == '\r' || c == '\U{0B}' || c == '\U{0C}'
  }

  function TrimLeft(s: string): (r: string)
    ensures |r| <= |s|
  {
    if s != "" && IsSpace(s[0]) then TrimLeft(s[1..]) else s
  }

  function TrimRight(s: string): (r: string)
    ensures |r| <= |s|
  {
    if s != "" && IsSpace(s[|s| - 1]) then TrimRight(s[..|s| - 1]) else s
  }

  /** str.strip */
  function Trim(s: string): (r: string)
    ensures |r| <= |s|
  {
    TrimRight(TrimLeft(s))
  }

  function Step(c: char): int {
    if c == '(' then 1 else if c == ')' then -1 else 0
  }

  /** The number of opening minus the number of closing brackets. */
  function Depth(s: string): int {
    if s == "" then 0 else Depth(s[..|s| - 1]) + Step(s[|s| - 1])
  }

  lemma {:induction false} DepthConcat(a: string, b: string)
    ensures Depth(a + b) == Depth(a) + Depth(b)
    decreases |b|
  {
    if b == "" {
      assert a + b == a;
    } else {
      assert (a + b)[..|a + b| - 1] == a + b[..|b| - 1];
      DepthConcat(a, b[..|b| - 1]);
    }
  }

  lemma DepthSnoc(s: string, i: nat)
    requires i < |s|
    ensures Depth(s[..i + 1]) == Depth(s[..i]) + Step(s[i])
  {
    assert s[..i + 1][..i] == s[..i];
  }

  // ----- brackets around the whole text -----

  /** No proper non-empty prefix is balanced, so the first and the last character belong together. */
  ghost predicate Enclosed(s: string) {
    s != "" && s[0] == '(' && s[|s| - 1] == ')' && forall i :: 0 < i < |s| ==> Depth(s[..i]) != 0
  }

  ghost function Unwrap(s: string): (r: string)
    ensures |r| <= |s|
    decreases |s|
  {
    if Enclosed(s) then Unwrap(Trim(s[1..|s| - 1])) else s
  }

  /** None is the syntax error for unequal numbers of brackets. */
  ghost function Stripped(s: string): (r: Option<string>)
    ensures r.Some? ==> |r.value| <= |s|
  {
    if Depth(Trim(s)) != 0 then None else Some(Unwrap(Trim(s)))
  }

  /** The inner loop of _strip_selector. */
  method CountBrackets(s: string) returns (doNotRemove: bool)
    requires s != ""
    ensures doNotRemove <==> exists i :: 0 < i < |s| && Depth(s[..i]) == 0
  {
    var brackets := 0;
    doNotRemove := false;
    for i := 0 to |s| - 1
      invariant brackets == Depth(s[..i])
      invariant doNotRemove <==> exists j :: 0 < j <= i && Depth(s[..j]) == 0
    {
      DepthSnoc(s, i);
      if s[i] == '(' { brackets := brackets + 1; }
      if s[i] == ')' { brackets := brackets - 1; }
      if brackets == 0 { doNotRemove := true; }
    }
  }

  /** _strip_selector */
  method StripSelector(s: string) returns (r: Option<string>)
    ensures r == Stripped(s)
  {
    var t := Trim(s);
    if Depth(t) != 0 { return None; }
    while t != "" && t[0] == '(' && t[|t| - 1] == ')'
      invariant Unwrap(t) == Unwrap(Trim(s))
      decreases |t|
    {
      var doNotRemove := CountBrackets(t);
      if doNotRemove { break; }
      assert Enclosed(t);
      t := Trim(t[1..|t| - 1]);
    }
    r := Some(t);
  }

  // ----- splitting -----

  /** Where the doubled operator character first occurs, or the length. */
  function FirstAt(s: string, c: char): (i: nat)
    ensures i <= |s|
    ensures i < |s| ==> i + 1 < |s| && s[i] == c && s[i + 1] == c
    ensures forall j :: 0 <= j < i && j + 1 < |s| ==> !(s[j] == c && s[j + 1] == c)
  {
    if |s| < 2 then |s|
    else if s[0] == c && s[1] == c then 0
    else 1 + FirstAt(s[1..], c)
  }

  /** str.split with the operator `cc`. */
  function SplitAll(s: string, c: char): (r: seq<string>)
    ensures r != []
    decreases |s|
  {
    var i := FirstAt(s, c);
    if i == |s| then [s] else [s[..i]] + SplitAll(s[i + 2..], c)
  }

  /** Pieces are joined again until their brackets are balanced. */
  function Rejoin(pieces: seq<string>, c: char, current: string): seq<string> {
    if pieces == [] then []
    else
      var joined := current + pieces[0];
      if Depth(joined) == 0 then [joined] + Rejoin(pieces[1..], c, "") else Rejoin(pieces[1..], c, joined + [c, c])
  }

  function Split(s: string, c: char): seq<string> {
    Rejoin(SplitAll(s, c), c, "")
  }

  /** _split_selector */
  method SplitSelector(s: string, c: char) returns (r: seq<string>)
    ensures r == Split(s, c)
  {
    var pieces := SplitAll(s, c);
    var current := "";
    r := [];
    for i := 0 to |pieces|
      invariant r + Rejoin(pieces[i..], c, current) == Split(s, c)
    {
      assert pieces[i..][1..] == pieces[i + 1..];
      current := current + pieces[i];
      if Depth(current) == 0 {
        r := r + [current];
        current := "";
      } else {
        current := current + [c, c];
      }
    }
  }

  function Total(pieces: seq<string>): nat {
    if pieces == [] then 0 else |pieces[0]| + 2 + Total(pieces[1..])
  }

  lemma {:induction false} SplitTotal(s: string, c: char)
    ensures Total(SplitAll(s, c)) == |s| + 2
    decreases |s|
  {
    var i := FirstAt(s, c);
    if i < |s| {
      SplitTotal(s[i + 2..], c);
      assert SplitAll(s, c)[1..] == SplitAll(s[i + 2..], c);
    }
  }

  lemma {:induction false} RejoinTotal(pieces: seq<string>, c: char, current: string)
    ensures Total(Rejoin(pieces, c, current)) <= |current| + Total(pieces)
    decreases |pieces|
  {
    if pieces != [] {
      var joined := current + pieces[0];
      if Depth(joined) == 0 {
        RejoinTotal(pieces[1..], c, "");
        assert Rejoin(pieces, c, current)[1..] == Rejoin(pieces[1..], c, "");
      } else {
        RejoinTotal(pieces[1..], c, joined + [c, c]);
      }
    }
  }

  lemma {:induction false} TotalBound(pieces: seq<string>, i: nat)
    requires i < |pieces|
    ensures |pieces[i]| + 2 * |pieces| <= Total(pieces)
    decreases |pieces|
  {
    TotalLeast(pieces[1..]);
    if i > 0 { TotalBound(pieces[1..], i - 1); }
  }

  lemma {:induction false} TotalLeast(pieces: seq<string>)
    ensures 2 * |pieces| <= Total(pieces)
    decreases |pieces|
  {
    if pieces != [] { TotalLeast(pieces[1..]); }
  }

  /** A proper split makes every part shorter, so the recursion over the parts ends. */
  lemma PartsShorter(s: string, c: char)
    ensures forall i :: 0 <= i < |Split(s, c)| && |Split(s, c)| > 1 ==> |Split(s, c)[i]| < |s|
  {
    SplitTotal(s, c);
    RejoinTotal(SplitAll(s, c), c, "");
    forall i | 0 <= i < |Split(s, c)| && |Split(s, c)| > 1 ensures |Split(s, c)[i]| < |s| {
      TotalBound(Split(s, c), i);
    }
  }

  /** The doubled character occurs only inside brackets of `current + y`, which is balanced as a whole. */
  ghost predicate Sealed(current: string, y: string, c: char) {
    && Depth(current + y) == 0
    && (y != "" ==> y[|y| - 1] != c)
    && forall i :: 0 <= i && i + 1 < |y| && y[i] == c && y[i + 1] == c ==> Depth(current + y[..i]) != 0
  }

  lemma FirstAtIs(s: string, c: char, i: nat)
    requires i + 1 < |s| && s[i] == c && s[i + 1] == c
    requires forall j :: 0 <= j < i ==> !(s[j] == c && s[j + 1] == c)
    ensures FirstAt(s, c) == i
  {
  }

  lemma SplitAllAt(s: string, c: char, i: nat)
    requires i + 1 < |s| && FirstAt(s, c) == i
    ensures SplitAll(s, c) == [s[..i]] + SplitAll(s[i + 2..], c)
  {
  }

  lemma RejoinCons(p: string, rest: seq<string>, c: char, current: string)
    ensures Rejoin([p] + rest, c, current) ==
            if Depth(current + p) == 0 then [current + p] + Rejoin(rest, c, "")
            else Rejoin(rest, c, current + p + [c, c])
  {
    assert ([p] + rest)[1..] == rest;
  }

  lemma SealedHere(current: string, y: string, c: char)
    requires Sealed(current, y, c)
    ensures Depth(current + y) == 0 && (y != "" ==> y[|y| - 1] != c)
  {
  }

  /** A sealed text in front of the operator is split off in one piece. */
  lemma {:induction false} SplitSealed(current: string, y: string, c: char, rest: string)
    requires Sealed(current, y, c)
    ensures Rejoin(SplitAll(y + [c, c] + rest, c), c, current) == [current + y] + Split(rest, c)
    decreases |y|
  {
    hide Depth, Sealed, SplitAll, Rejoin, FirstAt;
    var s := y + [c, c] + rest;
    var i := FirstAt(y, c);
    SealedHere(current, y, c);
    FirstAtIs(s, c, i);
    SplitAllAt(s, c, i);
    RejoinCons(s[..i], SplitAll(s[i + 2..], c), c, current);
    assert s[..i] == y[..i];
    if i < |y| {
      SealedTail(current, y, c, i);
      assert s[i + 2..] == y[i + 2..] + [c, c] + rest;
      SplitSealed(current + y[..i] + [c, c], y[i + 2..], c, rest);
      Cut(current, y, i, c);
    } else {
      assert y[..i] == y && s[i + 2..] == rest;
    }
  }

  lemma Cut(current: string, y: string, i: nat, c: char)
    requires i + 1 < |y| && y[i] == c && y[i + 1] == c
    ensures current + y[..i] + [c, c] + y[i + 2..] == current + y
  {
    assert y == y[..i] + [c, c] + y[i + 2..];
  }

  lemma SealedTail(current: string, y: string, c: char, i: nat)
    requires Sealed(current, y, c) && i + 1 < |y| && y[i] == c && y[i + 1] == c
    ensures Depth(current + y[..i]) != 0
    ensures Sealed(current + y[..i] + [c, c], y[i + 2..], c)
  {
    var current' := current + y[..i] + [c, c];
    var y' := y[i + 2..];
    Cut(current, y, i, c);
    forall j | 0 <= j && j + 1 < |y'| && y'[j] == c && y'[j + 1] == c
      ensures Depth(current' + y'[..j]) != 0
    {
      assert y[i + 2 + j] == c && y[i + 2 + j + 1] == c;
      assert current' + y'[..j] == current + y[..i + 2 + j] by { assert y[..i + 2 + j] == y[..i] + [c, c] + y'[..j]; }
    }
  }

  /** A sealed text on its own is not split at all. */
  lemma {:induction false} KeepSealed(current: string, y: string, c: char)
    requires Sealed(current, y, c)
    ensures Rejoin(SplitAll(y, c), c, current) == [current + y]
    decreases |y|
  {
    hide Depth, Sealed, SplitAll, Rejoin, FirstAt;
    var i := FirstAt(y, c);
    SealedHere(current, y, c);
    if i < |y| {
      SplitAllAt(y, c, i);
      RejoinCons(y[..i], SplitAll(y[i + 2..], c), c, current);
      SealedTail(current, y, c, i);
      KeepSealed(current + y[..i] + [c, c], y[i + 2..], c);
      Cut(current, y, i, c);
    } else {
      WholePiece(y, c);
      RejoinCons(y, [], c, current);
      NothingToRejoin(c);
      assert [y] + [] == [y];
    }
  }

  lemma WholePiece(y: string, c: char)
    requires FirstAt(y, c) == |y|
    ensures SplitAll(y, c) == [y]
  {
  }

  lemma NothingToRejoin(c: char)
    ensures Rejoin([], c, "") == []
  {
  }
}
