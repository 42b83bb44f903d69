/** The policies of a layer, folded with first-match priority, and the connections the layer allows. */
module NetworkLayer {
  import opened Peers

  /** What a policy says about one direction. A policy that captures no peer says nothing. */
  datatype Effect = Effect(captured: set<Peer>, allowed: set<Connection>, denied: set<Connection>,
                           pass: set<Connection>)
  {
    predicate Mentions(c: Connection) { captured != {} && (c in allowed || c in denied || c in pass) }

    predicate Unambiguous() { allowed !! denied && allowed !! pass && denied !! pass }
  }

  /** A policy, with its kind of action for the condition on captured peers. */
  datatype Policy = Policy(ingress: Effect, egress: Effect, isAllow: bool)
  {
    function Of(isIngress: bool): Effect { if isIngress then ingress else egress }
  }

  /** The position of the first policy that mentions the connection, or the number of policies. */
  function FirstMatch(policies: seq<Policy>, isIngress: bool, c: Connection): (i: nat)
    ensures i <= |policies| && (i < |policies| ==> policies[i].Of(isIngress).Mentions(c))
    ensures forall j :: 0 <= j < i ==> !policies[j].Of(isIngress).Mentions(c)
  {
    if policies == [] then 0
    else
      var n := |policies| - 1;
      var i := FirstMatch(policies[..n], isIngress, c);
      if i < n || policies[n].Of(isIngress).Mentions(c) then i else n + 1
  }

  /** What the first policy that mentions the connection says about it. */
  predicate FirstAllows(policies: seq<Policy>, isIngress: bool, c: Connection) {
    var i := FirstMatch(policies, isIngress, c);
    i < |policies| && c in policies[i].Of(isIngress).allowed
  }

  predicate FirstDenies(policies: seq<Policy>, isIngress: bool, c: Connection) {
    var i := FirstMatch(policies, isIngress, c);
    i < |policies| && c in policies[i].Of(isIngress).denied
  }

  predicate FirstPasses(policies: seq<Policy>, isIngress: bool, c: Connection) {
    var i := FirstMatch(policies, isIngress, c);
    i < |policies| && c in policies[i].Of(isIngress).pass
  }

  /** Some policy with the condition captures the peer. */
  ghost predicate Captured(policies: seq<Policy>, isIngress: bool, cond: Policy -> bool, p: Peer) {
    exists i :: 0 <= i < |policies| && cond(policies[i]) && p in policies[i].Of(isIngress).captured
  }

  lemma FirstMore(policies: seq<Policy>, isIngress: bool, n: nat, c: Connection)
    requires n < |policies|
    ensures var i := FirstMatch(policies[..n], isIngress, c);
            FirstMatch(policies[..n + 1], isIngress, c) ==
              if i < n || policies[n].Of(isIngress).Mentions(c) then i else n + 1
  {
    assert policies[..n + 1][..n] == policies[..n];
  }

  lemma CapturedMore(policies: seq<Policy>, isIngress: bool, cond: Policy -> bool, n: nat, p: Peer)
    requires n < |policies|
    ensures Captured(policies[..n + 1], isIngress, cond, p) <==>
            Captured(policies[..n], isIngress, cond, p) ||
              (cond(policies[n]) && p in policies[n].Of(isIngress).captured)
  {
    var next := policies[..n + 1];
    if Captured(policies[..n], isIngress, cond, p) {
      var i :| 0 <= i < n && cond(policies[..n][i]) && p in policies[..n][i].Of(isIngress).captured;
      assert next[i] == policies[..n][i];
    }
    if Captured(next, isIngress, cond, p) {
      var i :| 0 <= i < n + 1 && cond(next[i]) && p in next[i].Of(isIngress).captured;
      assert i < n ==> policies[..n][i] == next[i];
    }
    assert next[n] == policies[n];
  }

  /** The accumulated sets say about every connection what its first policy says. */
  ghost predicate FirstMatches(policies: seq<Policy>, isIngress: bool,
                               allowed: set<Connection>, denied: set<Connection>, pass: set<Connection>) {
    forall c ::
      && (c in allowed <==> FirstAllows(policies, isIngress, c))
      && (c in denied <==> FirstDenies(policies, isIngress, c))
      && (c in pass <==> FirstPasses(policies, isIngress, c))
  }

  ghost predicate CapturedIs(policies: seq<Policy>, isIngress: bool, cond: Policy -> bool, captured: set<Peer>) {
    forall p :: p in captured <==> Captured(policies, isIngress, cond, p)
  }

  /** One turn of the loop, for a policy that captures something. */
  lemma FoldStep(policies: seq<Policy>, isIngress: bool, n: nat,
                 allowed: set<Connection>, denied: set<Connection>, pass: set<Connection>)
    requires n < |policies| && FirstMatches(policies[..n], isIngress, allowed, denied, pass)
    requires policies[n].Of(isIngress).captured != {}
    ensures var e := policies[n].Of(isIngress);
            FirstMatches(policies[..n + 1], isIngress,
                         allowed + (e.allowed - denied - pass), denied + (e.denied - allowed - pass),
                         pass + (e.pass - denied - allowed))
  {
    var e := policies[n].Of(isIngress);
    var a := allowed + (e.allowed - denied - pass);
    var d := denied + (e.denied - allowed - pass);
    var p := pass + (e.pass - denied - allowed);
    forall c
      ensures (c in a <==> FirstAllows(policies[..n + 1], isIngress, c)) &&
              (c in d <==> FirstDenies(policies[..n + 1], isIngress, c)) &&
              (c in p <==> FirstPasses(policies[..n + 1], isIngress, c))
    {
      FoldStepAt(policies, isIngress, n, allowed, denied, pass, c);
    }
  }

  lemma FoldStepAt(policies: seq<Policy>, isIngress: bool, n: nat,
                   allowed: set<Connection>, denied: set<Connection>, pass: set<Connection>, c: Connection)
    requires n < |policies| && FirstMatches(policies[..n], isIngress, allowed, denied, pass)
    requires policies[n].Of(isIngress).captured != {}
    ensures var e := policies[n].Of(isIngress);
            && (c in allowed + (e.allowed - denied - pass) <==> FirstAllows(policies[..n + 1], isIngress, c))
            && (c in denied + (e.denied - allowed - pass) <==> FirstDenies(policies[..n + 1], isIngress, c))
            && (c in pass + (e.pass - denied - allowed) <==> FirstPasses(policies[..n + 1], isIngress, c))
  {
    FirstMore(policies, isIngress, n, c);
    var i := FirstMatch(policies[..n], isIngress, c);
    assert c in allowed <==> FirstAllows(policies[..n], isIngress, c);
    assert c in denied <==> FirstDenies(policies[..n], isIngress, c);
    assert c in pass <==> FirstPasses(policies[..n], isIngress, c);
    if i < n {
      assert policies[..n + 1][i] == policies[..n][i] == policies[i];
    } else {
      assert policies[..n + 1][n] == policies[n];
    }
  }

  lemma SkipStep(policies: seq<Policy>, isIngress: bool, n: nat, cond: Policy -> bool, captured: set<Peer>,
                 allowed: set<Connection>, denied: set<Connection>, pass: set<Connection>)
    requires n < |policies| && FirstMatches(policies[..n], isIngress, allowed, denied, pass)
    requires CapturedIs(policies[..n], isIngress, cond, captured)
    requires policies[n].Of(isIngress).captured == {}
    ensures FirstMatches(policies[..n + 1], isIngress, allowed, denied, pass)
    ensures CapturedIs(policies[..n + 1], isIngress, cond, captured)
  {
    forall c
      ensures (c in allowed <==> FirstAllows(policies[..n + 1], isIngress, c)) &&
              (c in denied <==> FirstDenies(policies[..n + 1], isIngress, c)) &&
              (c in pass <==> FirstPasses(policies[..n + 1], isIngress, c))
    {
      FirstMore(policies, isIngress, n, c);
      assert c in allowed <==> FirstAllows(policies[..n], isIngress, c);
      assert c in denied <==> FirstDenies(policies[..n], isIngress, c);
      assert c in pass <==> FirstPasses(policies[..n], isIngress, c);
      var i := FirstMatch(policies[..n], isIngress, c);
      assert i < n ==> policies[..n + 1][i] == policies[..n][i];
    }
    forall p { CapturedMore(policies, isIngress, cond, n, p); }
  }

  lemma CaptureStep(policies: seq<Policy>, isIngress: bool, n: nat, cond: Policy -> bool, captured: set<Peer>)
    requires n < |policies| && CapturedIs(policies[..n], isIngress, cond, captured)
    ensures CapturedIs(policies[..n + 1], isIngress, cond,
                       if cond(policies[n]) then captured + policies[n].Of(isIngress).captured else captured)
  {
    forall p { CapturedMore(policies, isIngress, cond, n, p); }
  }

  class PolicyConnections {
    var captured: set<Peer>
    var allowedConns: set<Connection>
    var deniedConns: set<Connection>
    var passConns: set<Connection>
    var allAllowedConns: set<Connection>

    constructor ()
      ensures captured == {} && allowedConns == {} && deniedConns == {} && passConns == {} && allAllowedConns == {}
    {
      captured, allowedConns, deniedConns, passConns, allAllowedConns := {}, {}, {}, {}, {};
    }

    /** The body of the loop over the policies. */
    method Fold(e: Effect, counts: bool)
      modifies this
      ensures captured == old(captured) + if counts then e.captured else {}
      ensures allowedConns == old(allowedConns) + (e.allowed - old(deniedConns) - old(passConns))
      ensures deniedConns == old(deniedConns) + (e.denied - old(allowedConns) - old(passConns))
      ensures passConns == old(passConns) + (e.pass - old(deniedConns) - old(allowedConns))
      ensures allAllowedConns == old(allAllowedConns)
    {
      if counts { captured := captured + e.captured; }
      var denied := e.denied - allowedConns;
      denied := denied - passConns;
      var allowed := e.allowed - deniedConns;
      allowed := allowed - passConns;
      var pass := e.pass - deniedConns;
      pass := pass - allowedConns;
      allowedConns := allowedConns + allowed;
      deniedConns := deniedConns + denied;
      passConns := passConns + pass;
    }
  }

  /** collect_policies_conns_optimized */
  method CollectPoliciesConns(policies: seq<Policy>, isIngress: bool, cond: Policy -> bool)
    returns (res: PolicyConnections)
    ensures fresh(res) && res.allAllowedConns == {}
    ensures FirstMatches(policies, isIngress, res.allowedConns, res.deniedConns, res.passConns)
    ensures CapturedIs(policies, isIngress, cond, res.captured)
  {
    res := new PolicyConnections();
    assert FirstMatches(policies[..0], isIngress, {}, {}, {}) && CapturedIs(policies[..0], isIngress, cond, {});
    for n := 0 to |policies|
      invariant fresh(res) && res.allAllowedConns == {}
      invariant FirstMatches(policies[..n], isIngress, res.allowedConns, res.deniedConns, res.passConns)
      invariant CapturedIs(policies[..n], isIngress, cond, res.captured)
    {
      hide FirstMatches, CapturedIs;
      var e := policies[n].Of(isIngress);
      if e.captured != {} {
        FoldStep(policies, isIngress, n, res.allowedConns, res.deniedConns, res.passConns);
        CaptureStep(policies, isIngress, n, cond, res.captured);
        res.Fold(e, cond(policies[n]));
      } else {
        SkipStep(policies, isIngress, n, cond, res.captured, res.allowedConns, res.deniedConns, res.passConns);
      }
    }
    assert policies[..|policies|] == policies;
  }

  ghost predicate AllUnambiguous(policies: seq<Policy>) {
    forall i :: 0 <= i < |policies| ==> policies[i].ingress.Unambiguous() && policies[i].egress.Unambiguous()
  }

  /** With unambiguous policies the three accumulated sets are disjoint. */
  lemma FoldDisjoint(policies: seq<Policy>, isIngress: bool,
                     allowed: set<Connection>, denied: set<Connection>, pass: set<Connection>)
    requires FirstMatches(policies, isIngress, allowed, denied, pass) && AllUnambiguous(policies)
    ensures allowed !! denied && allowed !! pass && denied !! pass
  {
    forall c ensures !(c in allowed && c in denied) && !(c in allowed && c in pass) && !(c in denied && c in pass) {
      var i := FirstMatch(policies, isIngress, c);
      if i < |policies| {
        assert policies[i].Of(isIngress).Unambiguous();
      }
    }
  }

  // ----- the K8s and Calico layer -----

  /** Which of the connections are wanted; allowed connections need all allowed ones. */
  datatype Filter = Filter(calcAllowed: bool, calcDenied: bool, calcAllAllowed: bool)
  {
    predicate Valid() { calcAllowed ==> calcAllAllowed }
  }

  /** The peers of the cluster: `peers` are pods and host endpoints, `dns` the DNS entries, `ips` all addresses. */
  datatype Container = Container(peers: set<Peer>, dns: set<Peer>, ips: set<Peer>)
  {
    predicate Valid() {
      && (forall p :: p in peers ==> IsClusterEP(p)) && (forall p :: p in dns ==> p.DNSEntry?)
      && (forall p :: p in ips ==> p.Address?)
    }

    function All(): set<Peer> { peers + dns + ips }

    /** Every connection of the given kind, between these peers. `conns` is the domain of the other dimensions. */
    function Between(src: set<Peer>, dst: set<Peer>, conns: set<Conn>): (r: set<Connection>)
      ensures forall c :: c in r <==> c.src in src && c.dst in dst && c.conn in conns
    {
      set a, b, x | a in src && b in dst && x in conns :: Connection(a, b, x)
    }
  }

  function NoHostEndpoints(ps: set<Peer>): set<Peer> { set p | p in ps && !p.HostEP? }

  /** The captured side of a connection. */
  function Side(c: Connection, isIngress: bool): Peer { if isIngress then c.dst else c.src }

  function OtherSide(c: Connection, isIngress: bool): Peer { if isIngress then c.src else c.dst }

  predicate Any(policy: Policy) { true }

  ghost predicate InDefault(k: Container, conns: set<Conn>, isIngress: bool, c: Connection) {
    && Side(c, isIngress) in k.peers + k.dns && !Side(c, isIngress).HostEP?
    && OtherSide(c, isIngress) in k.All() && c.conn in conns
  }

  /** Allowed by the first policy, or passed by it to the default profile, which allows pods everything. */
  ghost predicate AllowedOneWay(policies: seq<Policy>, k: Container, conns: set<Conn>, isIngress: bool, c: Connection) {
    || FirstAllows(policies, isIngress, c)
    || (FirstPasses(policies, isIngress, c) && InDefault(k, conns, isIngress, c) &&
        Captured(policies, isIngress, Any, Side(c, isIngress)))
  }

  /** Allowed, or not captured at all. */
  ghost predicate AllAllowedOneWay(policies: seq<Policy>, k: Container, conns: set<Conn>, isIngress: bool,
                                   c: Connection) {
    || AllowedOneWay(policies, k, conns, isIngress, c)
    || (InDefault(k, conns, isIngress, c) && !Captured(policies, isIngress, Any, Side(c, isIngress)))
  }

  function DefaultConns(k: Container, conns: set<Conn>, isIngress: bool, side: set<Peer>): (r: set<Connection>)
    ensures forall c :: c in r <==> Side(c, isIngress) in side && OtherSide(c, isIngress) in k.All() && c.conn in conns
  {
    if isIngress then k.Between(k.All(), side, conns) else k.Between(side, k.All(), conns)
  }

  /** K8sCalicoNetworkLayer._allowed_xgress_conns */
  method AllowedXgressConns(policies: seq<Policy>, k: Container, conns: set<Conn>, isIngress: bool, filter: Filter)
    returns (res: PolicyConnections)
    ensures fresh(res)
    ensures CapturedIs(policies, isIngress, Any, res.captured)
    ensures forall c :: c in res.allowedConns <==> AllowedOneWay(policies, k, conns, isIngress, c)
    ensures forall c :: c in res.deniedConns <==> FirstDenies(policies, isIngress, c)
    ensures forall c :: c in res.passConns <==> FirstPasses(policies, isIngress, c)
    ensures if filter.calcAllAllowed
            then forall c :: c in res.allAllowedConns <==> AllAllowedOneWay(policies, k, conns, isIngress, c)
            else res.allAllowedConns == {}
  {
    res := CollectPoliciesConns(policies, isIngress, Any);
    hide Captured, FirstAllows, FirstDenies, FirstPasses;
    var noHep := NoHostEndpoints(k.peers + k.dns);
    var notCaptured := noHep - res.captured;
    if notCaptured != {} && filter.calcAllAllowed {
      res.allAllowedConns := res.allAllowedConns + DefaultConns(k, conns, isIngress, notCaptured);
    }
    var captured := noHep * res.captured;
    if captured != {} && res.passConns != {} {
      res.allowedConns := res.allowedConns + res.passConns * DefaultConns(k, conns, isIngress, captured);
    }
    forall c ensures c in res.allowedConns <==> AllowedOneWay(policies, k, conns, isIngress, c) {
      assert Side(c, isIngress) in res.captured <==> Captured(policies, isIngress, Any, Side(c, isIngress));
      assert Side(c, isIngress) in captured <==> Side(c, isIngress) in noHep && Side(c, isIngress) in res.captured;
      assert c in res.passConns <==> FirstPasses(policies, isIngress, c);
    }
    if filter.calcAllAllowed {
      res.allAllowedConns := res.allAllowedConns + res.allowedConns;
      forall c ensures c in res.allAllowedConns <==> AllAllowedOneWay(policies, k, conns, isIngress, c) {
        assert Side(c, isIngress) in res.captured <==> Captured(policies, isIngress, Any, Side(c, isIngress));
        assert Side(c, isIngress) in notCaptured <==>
               Side(c, isIngress) in noHep && Side(c, isIngress) !in res.captured;
      }
    }
  }

  /** What one direction says about any connection: ingress has nothing to say about destinations outside the cluster,
      and egress nothing about sources outside it. */
  ghost predicate Permits(policies: seq<Policy>, k: Container, conns: set<Conn>, isIngress: bool, c: Connection) {
    || AllAllowedOneWay(policies, k, conns, isIngress, c)
    || (OtherSide(c, isIngress) in k.peers && Side(c, isIngress) in k.ips && c.conn in conns)
  }

  /** NetworkLayer.allowed_connections */
  method AllowedConnections(policies: seq<Policy>, k: Container, conns: set<Conn>, filter: Filter)
    returns (res: PolicyConnections)
    requires filter.Valid()
    ensures fresh(res) && res.passConns == {}
    ensures forall p :: p in res.captured <==> Captured(policies, true, Any, p) || Captured(policies, false, Any, p)
    ensures if filter.calcAllAllowed
            then forall c :: c in res.allAllowedConns <==>
                             Permits(policies, k, conns, true, c) && Permits(policies, k, conns, false, c)
            else res.allAllowedConns == {}
    ensures if filter.calcDenied
            then forall c :: c in res.deniedConns <==> FirstDenies(policies, true, c) || FirstDenies(policies, false, c)
            else res.deniedConns == {}
    ensures if filter.calcAllowed
            then forall c :: c in res.allowedConns <==>
                             (AllowedOneWay(policies, k, conns, true, c) && Permits(policies, k, conns, false, c)) ||
                             (AllowedOneWay(policies, k, conns, false, c) && Permits(policies, k, conns, true, c))
            else res.allowedConns == {}
  {
    res := new PolicyConnections();
    var ingress := AllowedXgressConns(policies, k, conns, true, filter);
    var egress := AllowedXgressConns(policies, k, conns, false, filter);
    hide AllowedOneWay, AllAllowedOneWay, Captured, FirstDenies, FirstPasses;
    if filter.calcAllAllowed {
      ingress.allAllowedConns := ingress.allAllowedConns + k.Between(k.peers, k.ips, conns);
      egress.allAllowedConns := egress.allAllowedConns + k.Between(k.ips, k.peers, conns);
      res.allAllowedConns := ingress.allAllowedConns * egress.allAllowedConns;
    }
    res.captured := ingress.captured + egress.captured;
    if filter.calcDenied {
      res.deniedConns := ingress.deniedConns + egress.deniedConns;
    }
    if filter.calcAllowed {
      res.allowedConns := (ingress.allowedConns * egress.allAllowedConns) +
                          (egress.allowedConns * ingress.allAllowedConns);
    }
  }

  // ----- what the layer decides, policy by policy -----

  /** No policy captures the peer. */
  ghost predicate Uncaptured(policies: seq<Policy>, isIngress: bool, p: Peer) {
    forall j :: 0 <= j < |policies| ==> p !in policies[j].Of(isIngress).captured
  }

  /** A peer of the cluster or a DNS entry: its direction permits a connection if no policy captures the peer, or the
      first policy that mentions the connection allows it or passes it. Host endpoints have no default, so that for
      them only an allowing policy counts. */
  lemma PermitsInside(policies: seq<Policy>, k: Container, conns: set<Conn>, isIngress: bool, c: Connection)
    requires k.Valid() && Side(c, isIngress) in k.peers + k.dns && OtherSide(c, isIngress) in k.All() && c.conn in conns
    ensures var i := FirstMatch(policies, isIngress, c);
            Permits(policies, k, conns, isIngress, c) <==>
              || (i < |policies| && c in policies[i].Of(isIngress).allowed)
              || (!Side(c, isIngress).HostEP? &&
                  (Uncaptured(policies, isIngress, Side(c, isIngress)) ||
                   (i < |policies| && c in policies[i].Of(isIngress).pass)))
  {
    CapturedBySome(policies, isIngress, Side(c, isIngress));
    hide Captured, Uncaptured;
  }

  lemma CapturedBySome(policies: seq<Policy>, isIngress: bool, p: Peer)
    ensures Captured(policies, isIngress, Any, p) <==> !Uncaptured(policies, isIngress, p)
  {
    if !Uncaptured(policies, isIngress, p) {
      var j :| 0 <= j < |policies| && p in policies[j].Of(isIngress).captured;
      assert Any(policies[j]);
    }
  }

  /** An address: its direction permits a connection with a peer of the cluster, or one that a policy allows. */
  lemma PermitsOutside(policies: seq<Policy>, k: Container, conns: set<Conn>, isIngress: bool, c: Connection)
    requires k.Valid() && Side(c, isIngress) in k.ips && c.conn in conns
    ensures var i := FirstMatch(policies, isIngress, c);
            Permits(policies, k, conns, isIngress, c) <==>
              OtherSide(c, isIngress) in k.peers || (i < |policies| && c in policies[i].Of(isIngress).allowed)
  {
    hide Captured;
  }

  /** From a peer of the cluster to an address, only the egress policies of the peer count. */
  lemma ToAddress(policies: seq<Policy>, k: Container, conns: set<Conn>, c: Connection)
    requires k.Valid() && c.src in k.peers && c.dst in k.ips && c.conn in conns
    ensures var i := FirstMatch(policies, false, c);
            Permits(policies, k, conns, true, c) && Permits(policies, k, conns, false, c) <==>
              || (i < |policies| && c in policies[i].egress.allowed)
              || (!c.src.HostEP? && (Uncaptured(policies, false, c.src) ||
                                     (i < |policies| && c in policies[i].egress.pass)))
  {
    PermitsOutside(policies, k, conns, true, c);
    PermitsInside(policies, k, conns, false, c);
    hide Permits, Uncaptured;
  }

  /** From an address to a peer of the cluster, only the ingress policies of the peer count. */
  lemma FromAddress(policies: seq<Policy>, k: Container, conns: set<Conn>, c: Connection)
    requires k.Valid() && c.src in k.ips && c.dst in k.peers && c.conn in conns
    ensures var i := FirstMatch(policies, true, c);
            Permits(policies, k, conns, true, c) && Permits(policies, k, conns, false, c) <==>
              || (i < |policies| && c in policies[i].ingress.allowed)
              || (!c.dst.HostEP? && (Uncaptured(policies, true, c.dst) ||
                                     (i < |policies| && c in policies[i].ingress.pass)))
  {
    PermitsOutside(policies, k, conns, false, c);
    PermitsInside(policies, k, conns, true, c);
    hide Permits, Uncaptured;
  }

  /** Without policies everything is allowed between pods, DNS entries and addresses, except from an address to an
      address or between an address and a DNS entry; nothing is allowed from or to a host endpoint. */
  method WithoutPolicies(k: Container, conns: set<Conn>) returns (res: PolicyConnections)
    requires k.Valid()
    ensures forall c: Connection :: c.src in k.All() && c.dst in k.All() && c.conn in conns ==>
              (c in res.allAllowedConns <==>
                 && !c.src.HostEP? && !c.dst.HostEP?
                 && (c.src in k.ips ==> c.dst in k.peers) && (c.dst in k.ips ==> c.src in k.peers))
    ensures res.allowedConns == {} && res.deniedConns == {} && res.captured == {}
  {
    res := AllowedConnections([], k, conns, Filter(true, true, true));
    forall c: Connection | c.src in k.All() && c.dst in k.All() && c.conn in conns
      ensures c in res.allAllowedConns <==>
                && !c.src.HostEP? && !c.dst.HostEP?
                && (c.src in k.ips ==> c.dst in k.peers) && (c.dst in k.ips ==> c.src in k.peers)
    {
      if c.dst in k.ips { PermitsOutside([], k, conns, true, c); } else { PermitsInside([], k, conns, true, c); }
      if c.src in k.ips { PermitsOutside([], k, conns, false, c); } else { PermitsInside([], k, conns, false, c); }
    }
  }

  /** What the layer counts as allowed by policies in one direction: the first policy that mentions the connection
      allows it, or passes it where a captured pod's default takes it up. */
  lemma AllowedInside(policies: seq<Policy>, k: Container, conns: set<Conn>, isIngress: bool, c: Connection)
    requires k.Valid() && Side(c, isIngress) in k.peers + k.dns && OtherSide(c, isIngress) in k.All() && c.conn in conns
    ensures var i := FirstMatch(policies, isIngress, c);
            AllowedOneWay(policies, k, conns, isIngress, c) <==>
              || (i < |policies| && c in policies[i].Of(isIngress).allowed)
              || (i < |policies| && c in policies[i].Of(isIngress).pass && !Side(c, isIngress).HostEP? &&
                  !Uncaptured(policies, isIngress, Side(c, isIngress)))
  {
    CapturedBySome(policies, isIngress, Side(c, isIngress));
    hide Captured, Uncaptured;
  }

  /** A policy speaks only about connections of peers that it captures, and captures peers of the cluster only. */
  ghost predicate SpeaksOfCaptured(policies: seq<Policy>, isIngress: bool) {
    forall i :: 0 <= i < |policies| ==>
      var e := policies[i].Of(isIngress);
      && (forall p :: p in e.captured ==> IsClusterEP(p))
      && (e.captured != {} ==> forall c :: c in e.allowed + e.denied + e.pass ==> Side(c, isIngress) in e.captured)
  }

  lemma DeniedIsCaptured(policies: seq<Policy>, isIngress: bool, c: Connection)
    requires SpeaksOfCaptured(policies, isIngress) && FirstDenies(policies, isIngress, c)
    ensures Captured(policies, isIngress, Any, Side(c, isIngress)) && IsClusterEP(Side(c, isIngress))
  {
    var i := FirstMatch(policies, isIngress, c);
    assert Any(policies[i]) &&
           c in policies[i].Of(isIngress).allowed + policies[i].Of(isIngress).denied + policies[i].Of(isIngress).pass;
  }

  /** What a direction denies it does not permit. */
  lemma DeniedNotPermitted(policies: seq<Policy>, k: Container, conns: set<Conn>, isIngress: bool, c: Connection)
    requires k.Valid() && AllUnambiguous(policies) && SpeaksOfCaptured(policies, isIngress)
    ensures FirstDenies(policies, isIngress, c) ==> !Permits(policies, k, conns, isIngress, c)
  {
    if FirstDenies(policies, isIngress, c) {
      DeniedIsCaptured(policies, isIngress, c);
      var i := FirstMatch(policies, isIngress, c);
      assert policies[i].Of(isIngress).Unambiguous();
    }
  }

  /** No connection is both denied and allowed by the layer as a whole, and what the policies allow is among what is
      allowed by the layer. */
  method LayerIsConsistent(policies: seq<Policy>, k: Container, conns: set<Conn>) returns (res: PolicyConnections)
    requires k.Valid() && AllUnambiguous(policies)
    requires SpeaksOfCaptured(policies, true) && SpeaksOfCaptured(policies, false)
    ensures res.deniedConns !! res.allAllowedConns && res.allowedConns <= res.allAllowedConns
  {
    res := AllowedConnections(policies, k, conns, Filter(true, true, true));
    forall c ensures !(c in res.deniedConns && c in res.allAllowedConns) {
      DeniedNotPermitted(policies, k, conns, true, c);
      DeniedNotPermitted(policies, k, conns, false, c);
    }
  }
}
