/** The kernel state the client changes: the IPv4 route table and the kill-switch chain.
    Every command appends the state it leaves to a ghost history. */
module Kernel {
  import opened Prelude
  import opened Words
  import opened Ipv4

  type Dev = string

  datatype Prefix = Prefix(addr: Ip, len: nat)
  datatype Hop = Hop(via: Option<Ip>, dev: Dev)
  type RouteTable = map<Prefix, Hop>

  /** Whether a deletion that names `hop` is about the route with hop `r`. */
  predicate Selects(hop: Hop, r: Hop) {
    r.dev == hop.dev && (hop.via.Some? ==> r.via == hop.via)
  }

  datatype Rule = ReturnLoopback | ReturnDev(dev: Dev) | ReturnServer(ip: Ip, port: nat) | ReturnEstablished | Reject

  /** `chain` is the dedicated chain, if it exists; `jumps` counts its entries in OUTPUT. */
  datatype NetState = NetState(routes: RouteTable, chain: Option<seq<Rule>>, jumps: nat)

  /** On a reliable kernel, commands fail only for what they find there. */
  class Kernel {
    const reliable: bool
    var net: NetState
    ghost var history: seq<NetState>

    constructor (net: NetState, reliable: bool)
      ensures this.net == net && history == [net] && this.reliable == reliable
    {
      this.net, this.reliable := net, reliable;
      history := [net];
    }

    /** `ip route replace`: may fail, changing nothing. */
    method RouteReplace(p: Prefix, hop: Hop) returns (ok: bool)
      modifies this
      ensures net == if ok then old(net).(routes := old(net).routes[p := hop]) else old(net)
      ensures reliable ==> ok
      ensures history == old(history) + [net]
    {
      ok := *;
      ok := ok || reliable;
      if ok {
        net := net.(routes := net.routes[p := hop]);
      }
      history := history + [net];
    }

    /** `ip route del`: removes the route exactly when it is there with that device and, where one is
        given, that gateway. */
    method RouteDel(p: Prefix, hop: Hop)
      modifies this
      ensures net == if p in old(net).routes && Selects(hop, old(net).routes[p])
                     then old(net).(routes := old(net).routes - {p}) else old(net)
      ensures history == old(history) + [net]
    {
      if p in net.routes && Selects(hop, net.routes[p]) {
        net := net.(routes := net.routes - {p});
      }
      history := history + [net];
    }

    /** `iptables -N`: fails if the chain exists, and may fail otherwise. */
    method NewChain()
      modifies this
      ensures net == old(net) || (old(net).chain.None? && net == old(net).(chain := Some([])))
      ensures reliable ==> net.chain.Some?
      ensures history == old(history) + [net]
    {
      var ok: bool := *;
      if (ok || reliable) && net.chain.None? {
        net := net.(chain := Some([]));
      }
      history := history + [net];
    }

    /** `iptables -F`. */
    method FlushChain()
      modifies this
      ensures net == old(net) || (old(net).chain.Some? && net == old(net).(chain := Some([])))
      ensures reliable ==> net.chain == if old(net).chain.Some? then Some([]) else None
      ensures history == old(history) + [net]
    {
      var ok: bool := *;
      if (ok || reliable) && net.chain.Some? {
        net := net.(chain := Some([]));
      }
      history := history + [net];
    }

    /** `iptables -A`. */
    method AppendRule(rule: Rule) returns (ok: bool)
      modifies this
      ensures ok ==> old(net).chain.Some? && net == old(net).(chain := Some(old(net).chain.value + [rule]))
      ensures !ok ==> net == old(net)
      ensures reliable && old(net).chain.Some? ==> ok
      ensures history == old(history) + [net]
    {
      ok := *;
      ok := (ok || reliable) && net.chain.Some?;
      if ok {
        net := net.(chain := Some(net.chain.value + [rule]));
      }
      history := history + [net];
    }

    /** `iptables -I OUTPUT 1 -j`. */
    method InsertJump() returns (ok: bool)
      modifies this
      ensures ok ==> old(net).chain.Some? && net == old(net).(jumps := old(net).jumps + 1)
      ensures !ok ==> net == old(net)
      ensures reliable && old(net).chain.Some? ==> ok
      ensures history == old(history) + [net]
    {
      ok := *;
      ok := (ok || reliable) && net.chain.Some?;
      if ok {
        net := net.(jumps := net.jumps + 1);
      }
      history := history + [net];
    }

    /** `iptables -C OUTPUT -j`. */
    method HasJump() returns (yes: bool)
      ensures yes == (net.jumps > 0)
    {
      yes := net.jumps > 0;
    }

    /** `iptables -D OUTPUT -j`: removes one jump if there is one. */
    method DeleteJump()
      modifies this
      ensures net == old(net).(jumps := if old(net).jumps > 0 then old(net).jumps - 1 else 0)
      ensures history == old(history) + [net]
    {
      net := net.(jumps := if net.jumps > 0 then net.jumps - 1 else 0);
      history := history + [net];
    }

    /** `iptables -X`: needs an empty, unreferenced chain. */
    method DeleteChain()
      modifies this
      ensures net == old(net) || (old(net).chain == Some([]) && old(net).jumps == 0 && net == old(net).(chain := None))
      ensures reliable && old(net).chain == Some([]) && old(net).jumps == 0 ==> net.chain == None
      ensures history == old(history) + [net]
    {
      var ok: bool := *;
      if (ok || reliable) && net.chain == Some([]) && net.jumps == 0 {
        net := net.(chain := None);
      }
      history := history + [net];
    }
  }

  // ---- route lookup ----

  /** Stored prefixes have their host bits clear. */
  predicate Canonical(routes: RouteTable) {
    forall p | p in routes :: p.len <= 32 && NetworkAddr(p.addr, p.len) == p.addr
  }

  predicate Matches(p: Prefix, dst: Ip) {
    p.len <= 32 && SameLeadingBits(p.addr, dst, p.len)
  }

  /** The length of the longest matching prefix no longer than `len`, or -1. */
  function BestLen(routes: RouteTable, dst: Ip, len: nat): (best: int)
    requires len <= 32
    ensures -1 <= best <= len
  {
    if Prefix(NetworkAddr(dst, len), len) in routes then len
    else if len == 0 then -1
    else BestLen(routes, dst, len - 1)
  }

  function Lookup(routes: RouteTable, dst: Ip): Option<Hop> {
    var best := BestLen(routes, dst, 32);
    BestIsThere(routes, dst, 32);
    if best < 0 then None else Some(routes[Prefix(NetworkAddr(dst, best), best)])
  }

  lemma {:induction false} BestIsThere(routes: RouteTable, dst: Ip, len: nat)
    requires len <= 32
    ensures var best := BestLen(routes, dst, len);
            best >= 0 ==> Prefix(NetworkAddr(dst, best), best) in routes
  {
    if Prefix(NetworkAddr(dst, len), len) in routes || len == 0 {
    } else {
      BestIsThere(routes, dst, len - 1);
    }
  }

  lemma CanonicalMatch(p: Prefix, dst: Ip)
    requires p.len <= 32 && NetworkAddr(p.addr, p.len) == p.addr
    ensures Matches(p, dst) <==> p.addr == NetworkAddr(dst, p.len)
  {
    NetworkMembership(p.addr, dst, p.len);
    NetworkMembership(dst, dst, p.len);
  }

  lemma {:induction false} BestIsLongest(routes: RouteTable, dst: Ip, len: nat, p: Prefix)
    requires len <= 32 && p in routes && p.len <= len && p.addr == NetworkAddr(dst, p.len)
    ensures BestLen(routes, dst, len) >= p.len
  {
    if Prefix(NetworkAddr(dst, len), len) in routes {
    } else {
      BestIsLongest(routes, dst, len - 1, p);
    }
  }

  /** Lookup is longest-prefix match: it answers with a matching route and no matching route is
      longer. */
  lemma LookupIsLongestMatch(routes: RouteTable, dst: Ip, p: Prefix)
    requires Canonical(routes) && p in routes && Matches(p, dst)
    ensures var best := BestLen(routes, dst, 32);
            && p.len <= best
            && Prefix(NetworkAddr(dst, best), best) in routes && Matches(Prefix(NetworkAddr(dst, best), best), dst)
            && Lookup(routes, dst) == Some(routes[Prefix(NetworkAddr(dst, best), best)])
            && (p.len == best ==> Lookup(routes, dst) == Some(routes[p]))
  {
    var best := BestLen(routes, dst, 32);
    CanonicalMatch(p, dst);
    BestIsLongest(routes, dst, 32, p);
    BestIsThere(routes, dst, 32);
    CanonicalMatch(Prefix(NetworkAddr(dst, best), best), dst);
  }

  /** There is an answer exactly when some route matches. */
  lemma LookupNeedsAMatch(routes: RouteTable, dst: Ip)
    requires Canonical(routes)
    ensures Lookup(routes, dst) == None <==> forall p :: p in routes ==> !Matches(p, dst)
  {
    var best := BestLen(routes, dst, 32);
    if best >= 0 {
      BestIsThere(routes, dst, 32);
      CanonicalMatch(Prefix(NetworkAddr(dst, best), best), dst);
    } else {
      forall p | p in routes
        ensures !Matches(p, dst)
      {
        if Matches(p, dst) {
          LookupIsLongestMatch(routes, dst, p);
        }
      }
    }
  }

  // ---- the full-tunnel routes ----

  const LOW_HALF: Prefix := Prefix(0, 1)
  const HIGH_HALF: Prefix := Prefix(0x8000_0000, 1)

  function HostRoute(ip: Ip): Prefix {
    Prefix(ip, 32)
  }

  function FullTunnel(routes: RouteTable, server: Ip, via: Hop, tun: Dev): RouteTable {
    routes[HostRoute(server) := via][LOW_HALF := Hop(None, tun)][HIGH_HALF := Hop(None, tun)]
  }

  lemma HalvesCoverEverything(dst: Ip)
    ensures NetworkAddr(dst, 32) == dst
    ensures Prefix(NetworkAddr(dst, 1), 1) == LOW_HALF || Prefix(NetworkAddr(dst, 1), 1) == HIGH_HALF
  {
    WholeAddress(dst, 32);
    EitherHalf(dst, 1, 31);
  }

  lemma WholeAddress(dst: Ip, len: nat)
    requires len == 32
    ensures NetworkAddr(dst, len) == dst
  {
    NetworkMembership(dst, dst, len);
  }

  lemma EitherHalf(dst: Ip, len: nat, k: nat)
    requires len == 1 && k == 31
    ensures NetworkAddr(dst, len) == 0 || NetworkAddr(dst, len) == 0x8000_0000
  {
    NetworkMembership(dst, dst, len);
    UpOfPower31();
    TopBit(dst, k, 0x8000_0000);
  }

  lemma UpOfPower31()
    ensures Up(1, 31) == 0x8000_0000 && Up(0, 31) == 0
  {
    assert Up(1, 8) == 0x100 && Up(0, 8) == 0;
    assert Up(1, 16) == 0x1_0000 && Up(0, 16) == 0;
    assert Up(1, 24) == 0x100_0000 && Up(0, 24) == 0;
  }

  lemma {:induction false} TopBit(x: nat, k: nat, power: nat)
    requires x < 2 * power && power == Up(1, k)
    ensures Shr(x, k) == 0 || Shr(x, k) == 1
  {
    if k == 0 {
    } else {
      TopBit(x / 2, k - 1, power / 2);
    }
  }

  /** Adding the two /1 routes lifts a best length below 1 to 1 and leaves longer ones alone. */
  lemma {:induction false} BestWithHalves(routes: RouteTable, more: RouteTable, dst: Ip, len: nat)
    requires 1 <= len <= 32 && Prefix(NetworkAddr(dst, 1), 1) in more
    requires forall k :: 2 <= k <= len ==> (Prefix(NetworkAddr(dst, k), k) in routes <==> Prefix(NetworkAddr(dst, k), k) in more)
    ensures BestLen(more, dst, len) == if BestLen(routes, dst, len) <= 1 then 1 else BestLen(routes, dst, len)
  {
    if len == 1 {
    } else if Prefix(NetworkAddr(dst, len), len) in routes {
    } else {
      BestWithHalves(routes, more, dst, len - 1);
    }
  }

  /** After the full-tunnel routes are installed the server is reached through the saved gateway,
      every destination that had at best a route of length 0 or 1 goes into the tunnel, and every
      other destination keeps its route. */
  lemma FullTunnelLookup(routes: RouteTable, server: Ip, via: Hop, tun: Dev, dst: Ip)
    ensures Lookup(FullTunnel(routes, server, via, tun), dst) ==
            if dst == server then Some(via)
            else if BestLen(routes, dst, 32) <= 1 then Some(Hop(None, tun))
            else Lookup(routes, dst)
  {
    var more := FullTunnel(routes, server, via, tun);
    HalvesCoverEverything(dst);
    if dst != server {
      forall k | 2 <= k <= 32
        ensures Prefix(NetworkAddr(dst, k), k) in routes <==> Prefix(NetworkAddr(dst, k), k) in more
      {
      }
      BestWithHalves(routes, more, dst, 32);
      BestIsThere(routes, dst, 32);
    }
  }
}
