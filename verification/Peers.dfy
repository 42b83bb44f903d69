/** Peers and the connections between them. */
module Peers {
  // A set of IP blocks is the set of its addresses, so that two sets of peers are equal exactly when they mean the
  // same.

  datatype Namespace = NoNamespace | Namespace(name: string)

  datatype Peer =
    | Pod(ns: string, name: string)
    | HostEP(name: string)
    | Address(version: int, number: nat)
    | DNSEntry(name: string)

  type Pair = (Peer, Peer)

  predicate IsClusterEP(p: Peer) { p.Pod? || p.HostEP? }

  function NamespaceOf(p: Peer): Namespace { if p.Pod? then Namespace(p.ns) else NoNamespace }

  function Product(src: set<Peer>, dst: set<Peer>): (r: set<Pair>)
    ensures forall p :: p in r <==> p.0 in src && p.1 in dst
  {
    set a, b | a in src && b in dst :: (a, b)
  }

  /** A point in the dimensions other than the peers: protocol, ports, methods and so on. */
  type Conn = seq<nat>

  datatype Connection = Connection(src: Peer, dst: Peer, conn: Conn)
  {
    function Ends(): Pair { (src, dst) }
  }
}
