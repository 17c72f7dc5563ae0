/** The client's route lifecycle: install, teardown, re-enable and drop, with the kill switch.
    Install commands may fail at any point; deletions of what is there succeed. */
module Routes {
  import opened Prelude
  import opened Ipv4
  import opened Kernel
  import Toggle

  datatype Endpoint = V4(ip: Ip, port: nat) | V6

  datatype Opts = Opts(redirectAll: bool, killSwitch: bool)

  // ---- the kill switch ----

  datatype Packet = Packet(dev: Dev, dst: Ip, udp: bool, port: nat, established: bool)

  predicate RuleMatches(r: Rule, p: Packet) {
    match r
    case ReturnLoopback => p.dev == "lo"
    case ReturnDev(dev) => p.dev == dev
    case ReturnServer(ip, port) => p.dst == ip && p.udp && p.port == port
    case ReturnEstablished => p.established
    case Reject => true
  }

  /** Whether the chain rejects the packet; falling off its end returns to OUTPUT. */
  predicate Rejects(chain: seq<Rule>, p: Packet) {
    chain != [] && if RuleMatches(chain[0], p) then chain[0].Reject? else Rejects(chain[1..], p)
  }

  predicate Excepted(tun: Dev, ip: Ip, port: nat, p: Packet) {
    p.dev == "lo" || p.dev == tun || (p.dst == ip && p.udp && p.port == port)
  }

  predicate OurRule(r: Rule, tun: Dev, ip: Ip, port: nat) {
    r == ReturnLoopback || r == ReturnDev(tun) || r == ReturnServer(ip, port) || r == ReturnEstablished || r == Reject
  }

  /** Rules of one kill switch, where nothing is rejected before the three exceptions. */
  ghost predicate GoodChain(chain: seq<Rule>, tun: Dev, ip: Ip, port: nat) {
    && (forall r :: r in chain ==> OurRule(r, tun, ip, port))
    && (forall i :: 0 <= i < |chain| && chain[i].Reject? ==> ExceptionsWithin(chain[..i], tun, ip, port))
  }

  predicate ExceptionsWithin(chain: seq<Rule>, tun: Dev, ip: Ip, port: nat) {
    ReturnLoopback in chain && ReturnDev(tun) in chain && ReturnServer(ip, port) in chain
  }

  lemma {:induction false} ReturnBeforeReject(chain: seq<Rule>, p: Packet, r: Rule, k: nat)
    requires k < |chain| && chain[k] == r && !r.Reject? && RuleMatches(r, p)
    requires forall i :: 0 <= i < k ==> !chain[i].Reject?
    ensures !Rejects(chain, p)
  {
    if k == 0 || RuleMatches(chain[0], p) {
    } else {
      ReturnBeforeReject(chain[1..], p, r, k - 1);
    }
  }

  lemma {:induction false} NoRejectNoRejection(chain: seq<Rule>, p: Packet)
    requires Reject !in chain
    ensures !Rejects(chain, p)
  {
    if chain == [] {
    } else {
      NoRejectNoRejection(chain[1..], p);
    }
  }

  lemma {:induction false} NothingMatchesBeforeReject(chain: seq<Rule>, tun: Dev, ip: Ip, port: nat, p: Packet)
    requires (forall r :: r in chain ==> OurRule(r, tun, ip, port)) && Reject in chain
    requires !Excepted(tun, ip, port, p) && !p.established
    ensures Rejects(chain, p)
  {
    if chain[0].Reject? {
    } else {
      assert OurRule(chain[0], tun, ip, port);
      assert Reject in chain[1..];
      NothingMatchesBeforeReject(chain[1..], tun, ip, port, p);
    }
  }

  lemma FirstReject(chain: seq<Rule>) returns (k: nat)
    requires Reject in chain
    ensures k < |chain| && chain[k].Reject? && forall i :: 0 <= i < k ==> !chain[i].Reject?
  {
    k := 0;
    while !chain[k].Reject?
      invariant k < |chain| && Reject in chain[k..]
      invariant forall i :: 0 <= i < k ==> !chain[i].Reject?
      decreases |chain| - k
    {
      assert chain[k..] == [chain[k]] + chain[k + 1..];
      k := k + 1;
    }
  }

  /** A kill-switch chain lets out loopback, the tunnel and UDP to the server at every stage of its
      construction; without its final rule it rejects nothing at all, and with it every other packet
      that is not part of an established flow. */
  lemma KillSwitchMeaning(chain: seq<Rule>, tun: Dev, ip: Ip, port: nat, p: Packet)
    requires GoodChain(chain, tun, ip, port)
    ensures Excepted(tun, ip, port, p) ==> !Rejects(chain, p)
    ensures Reject !in chain ==> !Rejects(chain, p)
    ensures Reject in chain && !Excepted(tun, ip, port, p) && !p.established ==> Rejects(chain, p)
  {
    if Reject !in chain {
      NoRejectNoRejection(chain, p);
    } else if Excepted(tun, ip, port, p) {
      var k := FirstReject(chain);
      var r := if p.dev == "lo" then ReturnLoopback else if p.dev == tun then ReturnDev(tun) else ReturnServer(ip, port);
      assert r in chain[..k];
      var j :| 0 <= j < k && chain[j] == r;
      ReturnBeforeReject(chain, p, r, j);
    } else if !p.established {
      NothingMatchesBeforeReject(chain, tun, ip, port, p);
    }
  }

  /** A finished chain rejects exactly the packets that are neither excepted nor established. */
  ghost predicate Finished(chain: seq<Rule>, tun: Dev, ip: Ip, port: nat) {
    forall p: Packet :: Rejects(chain, p) <==> !Excepted(tun, ip, port, p) && !p.established
  }

  lemma ChainIsFinished(exceptions: seq<Rule>, chain: seq<Rule>, tun: Dev, ip: Ip, port: nat)
    requires GoodChain(chain, tun, ip, port) && Reject !in exceptions
    requires chain == exceptions + [ReturnEstablished] + [Reject]
    ensures Finished(chain, tun, ip, port)
  {
    forall p: Packet
      ensures Rejects(chain, p) <==> !Excepted(tun, ip, port, p) && !p.established
    {
      KillSwitchMeaning(chain, tun, ip, port, p);
      if p.established {
        assert forall i :: 0 <= i < |exceptions| ==> chain[i] in exceptions;
        ReturnBeforeReject(chain, p, ReturnEstablished, |exceptions|);
      }
    }
  }

  // ---- what every kernel state of a client's life satisfies ----

  predicate TunnelUp(routes: RouteTable, tun: Dev) {
    && LOW_HALF in routes && routes[LOW_HALF] == Hop(None, tun)
    && HIGH_HALF in routes && routes[HIGH_HALF] == Hop(None, tun)
  }

  predicate TunnelDown(routes: RouteTable) {
    LOW_HALF !in routes && HIGH_HALF !in routes
  }

  /** An active kill switch implies a complete chain and both full-tunnel routes. */
  ghost predicate Safe(s: NetState, tun: Dev, ip: Ip, port: nat) {
    && (s.chain.Some? ==> GoodChain(s.chain.value, tun, ip, port))
    && (s.jumps > 0 ==> s.chain.Some? && Reject in s.chain.value && TunnelUp(s.routes, tun))
  }

  function OurPrefixes(server: Ip): set<Prefix> {
    {HostRoute(server), LOW_HALF, HIGH_HALF}
  }

  /** Everything but our three prefixes is as it was at first, and the /1 prefixes, when present,
      point into the tunnel. */
  ghost predicate OnlyOurs(routes: RouteTable, base: RouteTable, server: Ip, tun: Dev) {
    && routes - OurPrefixes(server) == base
    && (LOW_HALF in routes ==> routes[LOW_HALF] == Hop(None, tun))
    && (HIGH_HALF in routes ==> routes[HIGH_HALF] == Hop(None, tun))
  }

  /** What a client that started on `base` may leave if it crashes. */
  ghost predicate Sound(s: NetState, base: RouteTable, tun: Dev, ip: Ip, port: nat) {
    Safe(s, tun, ip, port) && OnlyOurs(s.routes, base, ip, tun) && s.jumps <= 1
  }

  ghost predicate AllSound(history: seq<NetState>, base: RouteTable, tun: Dev, ip: Ip, port: nat) {
    forall s :: s in history ==> Sound(s, base, tun, ip, port)
  }

  predicate SameAt(a: RouteTable, b: RouteTable, p: Prefix) {
    (p in a <==> p in b) && (p in a ==> a[p] == b[p])
  }

  /** The state of the kernel in which nothing of an earlier client is left. */
  ghost predicate Pristine(s: NetState, tun: Dev, ip: Ip, port: nat) {
    OurPrefixes(ip) !! s.routes.Keys && s.jumps == 0 && Safe(s, tun, ip, port)
  }

  /** How many jumps are left of `jumps` after `dropped` kill switches came and went. */
  function JumpsLeft(jumps: nat, dropped: nat): nat {
    if jumps <= dropped then 0 else jumps - dropped
  }

  lemma ChainGrows(chain: seq<Rule>, r: Rule, tun: Dev, ip: Ip, port: nat)
    requires GoodChain(chain, tun, ip, port) && OurRule(r, tun, ip, port)
    requires r.Reject? ==> ExceptionsWithin(chain, tun, ip, port)
    ensures GoodChain(chain + [r], tun, ip, port)
  {
    var longer := chain + [r];
    forall i | 0 <= i < |longer| && longer[i].Reject?
      ensures ExceptionsWithin(longer[..i], tun, ip, port)
    {
      if i < |chain| {
        assert longer[..i] == chain[..i];
      } else {
        assert longer[..i] == chain;
      }
    }
  }

  // ---- the client's routes ----

  class ClientRoutes {
    var serverHost: Option<Ip>
    var viaGateway: Option<Ip>
    var viaDev: Option<Dev>
    const redirectAll: bool
    const tunName: Dev
    var killSwitch: bool
    const kernel: Kernel
    /** The endpoint the caller passes to every operation. */
    const ip: Ip
    const port: nat
    /** The kernel before this client touched it, and whether anything of ours was left in it. */
    ghost const start: NetState
    ghost const clean: bool
    /** Kill switches installed and dropped again. */
    ghost var dropped: nat

    /** One of the two /1 prefixes: ours, gone, or what the client found there. */
    ghost predicate HalfOk(p: Prefix)
      reads kernel
    {
      if redirectAll then
        p in kernel.net.routes ==> kernel.net.routes[p] == Hop(None, tunName) || SameAt(kernel.net.routes, start.routes, p)
      else SameAt(kernel.net.routes, start.routes, p)
    }

    /** What holds whatever the client found. */
    ghost predicate Tracked()
      reads this, kernel
    {
      && kernel.net.routes - OurPrefixes(ip) == start.routes - OurPrefixes(ip)
      && (if serverHost.None? then HostRoute(ip) in kernel.net.routes ==> SameAt(kernel.net.routes, start.routes, HostRoute(ip))
          else serverHost == Some(ip) && viaGateway.Some? && viaDev.Some?
               && HostRoute(ip) in kernel.net.routes
               && kernel.net.routes[HostRoute(ip)] == Hop(viaGateway, viaDev.value))
      && HalfOk(LOW_HALF) && HalfOk(HIGH_HALF)
      && (killSwitch ==> redirectAll && kernel.net.jumps > 0)
      && (JumpsLeft(start.jumps, dropped) > 0 || !killSwitch ==> kernel.net.jumps == JumpsLeft(start.jumps, dropped))
      && kernel.net.jumps <= JumpsLeft(start.jumps, dropped) + 1
    }

    /** What holds besides when it found nothing of ours. */
    ghost predicate Clean()
      reads this, kernel
    {
      && Pristine(start, tunName, ip, port)
      && AllSound(kernel.history, start.routes, tunName, ip, port)
      && Sound(kernel.net, start.routes, tunName, ip, port)
      && (HIGH_HALF in kernel.net.routes ==> LOW_HALF in kernel.net.routes)
    }

    ghost predicate Valid()
      reads this, kernel
    {
      Tracked() && (clean ==> Clean())
    }

    /** On a reliable kernel, where the chain stands: with the kill switch it is there and complete,
        before the first one it is as found, and after one was dropped it is gone. */
    ghost predicate Tidy()
      reads this, kernel
    {
      && kernel.reliable && start.jumps <= 1
      && if killSwitch then Complete()
         else kernel.net.chain == if dropped == 0 then start.chain else None
    }

    ghost predicate Complete()
      reads kernel
    {
      && kernel.net.chain.Some? && GoodChain(kernel.net.chain.value, tunName, ip, port)
      && Reject in kernel.net.chain.value && Finished(kernel.net.chain.value, tunName, ip, port)
    }

    /** What an observer of the race sees: full-tunnel routes and kill switch. */
    predicate Tunnel()
      reads kernel
    {
      TunnelUp(kernel.net.routes, tunName)
    }

    /** Of the /1 routes, at most one that was there at first and is not on our device. */
    ghost predicate Cleared(p: Prefix)
      reads kernel
    {
      p in kernel.net.routes ==> SameAt(kernel.net.routes, start.routes, p) && kernel.net.routes[p].dev != tunName
    }

    /** The empty state at the start of an installation. */
    constructor (endpoint: Endpoint, tunName: Dev, redirectAll: bool, kernel: Kernel)
      requires endpoint.V4?
      ensures Valid() && this.kernel == kernel && start == kernel.net && !killSwitch && serverHost == None && dropped == 0
      ensures ip == endpoint.ip && port == endpoint.port
      ensures this.tunName == tunName && this.redirectAll == redirectAll
      ensures clean == (Pristine(kernel.net, tunName, ip, port) && AllSound(kernel.history, kernel.net.routes, tunName, ip, port))
    {
      serverHost, viaGateway, viaDev, killSwitch := None, None, None, false;
      this.redirectAll, this.tunName, this.kernel := redirectAll, tunName, kernel;
      start, ip, port, dropped := kernel.net, endpoint.ip, endpoint.port, 0;
      clean := Pristine(kernel.net, tunName, endpoint.ip, endpoint.port)
               && AllSound(kernel.history, kernel.net.routes, tunName, endpoint.ip, endpoint.port);
      new;
      if clean {
        assert kernel.net.routes - OurPrefixes(ip) == kernel.net.routes;
      }
    }

    method InstallHostRoute(gateway: Ip, dev: Dev) returns (ok: bool)
      requires Valid() && serverHost == None && !killSwitch
      modifies this`serverHost, this`viaGateway, this`viaDev, kernel
      ensures Valid()
      ensures ok == serverHost.Some?
      ensures ok ==> viaGateway == Some(gateway) && viaDev == Some(dev)
      ensures (kernel.reliable ==> ok) && kernel.net.chain == old(kernel.net.chain)
    {
      ok := kernel.RouteReplace(HostRoute(ip), Hop(Some(gateway), dev));
      if ok {
        serverHost, viaGateway, viaDev := Some(ip), Some(gateway), Some(dev);
      }
    }

    /** The two full-tunnel routes; the second is not tried when the first fails. */
    method InstallHalves() returns (ok: bool)
      requires Valid() && redirectAll
      modifies kernel
      ensures Valid()
      ensures ok ==> Tunnel()
      ensures !ok && clean ==> Tunnel() == old(Tunnel())
      ensures (kernel.reliable ==> ok) && kernel.net.chain == old(kernel.net.chain)
    {
      ok := kernel.RouteReplace(LOW_HALF, Hop(None, tunName));
      if !ok {
        return;
      }
      ok := kernel.RouteReplace(HIGH_HALF, Hop(None, tunName));
    }

    method AppendOurRule(r: Rule) returns (ok: bool)
      requires Valid() && !killSwitch && OurRule(r, tunName, ip, port)
      requires r.Reject? ==> kernel.net.chain.Some? ==> ExceptionsWithin(kernel.net.chain.value, tunName, ip, port)
      modifies kernel
      ensures Valid() && kernel.net.routes == old(kernel.net.routes)
      ensures ok ==> old(kernel.net.chain).Some? && kernel.net.chain == Some(old(kernel.net.chain.value) + [r])
      ensures ok && GoodChain(old(kernel.net.chain.value), tunName, ip, port) ==> GoodChain(kernel.net.chain.value, tunName, ip, port)
      ensures !ok ==> kernel.net == old(kernel.net)
      ensures |kernel.history| == |old(kernel.history)| + 1
      ensures kernel.reliable && old(kernel.net.chain).Some? ==> ok
    {
      if kernel.net.chain.Some? && GoodChain(kernel.net.chain.value, tunName, ip, port) {
        ChainGrows(kernel.net.chain.value, r, tunName, ip, port);
      }
      ok := kernel.AppendRule(r);
    }

    /** An empty chain if the first two commands work, then the three exceptions. */
    method BuildExceptions() returns (ok: bool)
      requires Valid() && !killSwitch
      modifies kernel
      ensures Valid() && kernel.net.routes == old(kernel.net.routes)
      ensures ok ==> kernel.net.chain.Some? && ExceptionsWithin(kernel.net.chain.value, tunName, ip, port)
      ensures kernel.reliable ==> ok && GoodChain(kernel.net.chain.value, tunName, ip, port) && Reject !in kernel.net.chain.value
    {
      EmptyChain();
      ok := AppendOurRule(ReturnLoopback);
      if !ok {
        return;
      }
      ok := AppendOurRule(ReturnDev(tunName));
      if !ok {
        return;
      }
      ok := AppendOurRule(ReturnServer(ip, port));
    }

    method EmptyChain()
      requires Valid() && !killSwitch
      modifies kernel
      ensures Valid() && kernel.net.routes == old(kernel.net.routes)
      ensures kernel.reliable ==> kernel.net.chain == Some([])
    {
      kernel.NewChain();
      kernel.FlushChain();
    }

    /** The optional rule for established flows, tried in two spellings, then the final REJECT: the
        first is missing only after both spellings failed. */
    method CompleteChain() returns (ok: bool)
      requires Valid() && !killSwitch
      requires kernel.net.chain.Some? && ExceptionsWithin(kernel.net.chain.value, tunName, ip, port)
      modifies kernel
      ensures Valid() && kernel.net.routes == old(kernel.net.routes)
      ensures ok ==> kernel.net.chain.Some? && Reject in kernel.net.chain.value
      ensures kernel.reliable ==> ok
      ensures ok ==> || kernel.net.chain.value == old(kernel.net.chain.value) + [ReturnEstablished] + [Reject]
                     || (kernel.net.chain.value == old(kernel.net.chain.value) + [Reject]
                         && |kernel.history| == |old(kernel.history)| + 3)
      ensures (kernel.reliable && GoodChain(old(kernel.net.chain.value), tunName, ip, port)
               && Reject !in old(kernel.net.chain.value)) ==> Complete()
    {
      ghost var exceptions := kernel.net.chain.value;
      var ignored := AppendOurRule(ReturnEstablished);
      if !ignored {
        ignored := AppendOurRule(ReturnEstablished);
      }
      ok := AppendOurRule(Reject);
      if kernel.reliable && GoodChain(exceptions, tunName, ip, port) && Reject !in exceptions {
        ChainIsFinished(exceptions, kernel.net.chain.value, tunName, ip, port);
      }
    }

    /** The jump from OUTPUT, unless one is there already. */
    method JumpToChain() returns (ok: bool)
      requires Valid() && !killSwitch && redirectAll && Tunnel()
      requires kernel.net.chain.Some? && Reject in kernel.net.chain.value
      modifies this`killSwitch, kernel
      ensures Valid() && kernel.net.routes == old(kernel.net.routes) && kernel.net.chain == old(kernel.net.chain)
      ensures ok == killSwitch && (kernel.reliable ==> ok)
    {
      ok := true;
      var present := kernel.HasJump();
      if !present {
        ok := kernel.InsertJump();
      }
      killSwitch := ok;
    }

    /** Builds the chain, then jumps to it. On failure nothing built so far is undone, but no jump
        is added. On a reliable kernel the chain is complete whatever an earlier client left. */
    method InstallKillSwitch() returns (ok: bool)
      requires Valid() && !killSwitch && redirectAll && Tunnel()
      modifies this`killSwitch, kernel
      ensures Valid() && kernel.net.routes == old(kernel.net.routes)
      ensures ok == killSwitch
      ensures kernel.reliable ==> ok && Complete()
    {
      ok := BuildExceptions();
      if !ok {
        return;
      }
      ok := CompleteChain();
      if !ok {
        return;
      }
      ok := JumpToChain();
    }

    method DropKillSwitch()
      requires Valid()
      modifies this`killSwitch, this`dropped, kernel
      ensures Valid() && !killSwitch && kernel.net.routes == old(kernel.net.routes)
      ensures dropped == old(dropped) + (if old(killSwitch) then 1 else 0)
      ensures old(Tidy()) ==> Tidy()
    {
      if killSwitch {
        killSwitch, dropped := false, dropped + 1;
        kernel.DeleteJump();
        kernel.FlushChain();
        kernel.DeleteChain();
      }
    }

    method DeleteHalves()
      requires Valid() && !killSwitch
      modifies kernel
      ensures Valid() && kernel.net.chain == old(kernel.net.chain)
      ensures redirectAll ==> Cleared(LOW_HALF) && Cleared(HIGH_HALF)
      ensures clean ==> TunnelDown(kernel.net.routes)
      ensures SameAt(kernel.net.routes, old(kernel.net.routes), HostRoute(ip))
    {
      if redirectAll {
        kernel.RouteDel(LOW_HALF, Hop(None, tunName));
        kernel.RouteDel(HIGH_HALF, Hop(None, tunName));
      }
    }

    /** `off`: kill switch first, then the full-tunnel routes; the host route stays. */
    method Teardown()
      requires Valid()
      modifies this`killSwitch, this`dropped, kernel
      ensures Valid() && !killSwitch
      ensures redirectAll ==> Cleared(LOW_HALF) && Cleared(HIGH_HALF)
      ensures clean ==> TunnelDown(kernel.net.routes)
      ensures SameAt(kernel.net.routes, old(kernel.net.routes), HostRoute(ip))
      ensures dropped == old(dropped) + (if old(killSwitch) then 1 else 0)
      ensures old(Tidy()) ==> Tidy()
    {
      DropKillSwitch();
      DeleteHalves();
    }

    /** `on`: both routes first, then the kill switch if wanted. `ok` is false when a route could
        not be installed, `warned` true when the kill switch could not. */
    method ReenableWithKs(wantKillSwitch: bool) returns (ok: bool, warned: bool)
      requires Valid()
      modifies this`killSwitch, kernel
      ensures Valid() && (warned ==> ok)
      ensures redirectAll && ok ==> Tunnel()
      ensures redirectAll && !ok && clean ==> Tunnel() == old(Tunnel())
      ensures killSwitch ==
                (old(killSwitch) || (ok && !warned && wantKillSwitch && redirectAll && viaDev.Some?))
      ensures (kernel.reliable ==> ok && !warned) && (old(Tidy()) ==> Tidy())
    {
      ok, warned := true, false;
      if redirectAll {
        ok := InstallHalves();
        if !ok {
          return;
        }
      }
      if wantKillSwitch && redirectAll && !killSwitch {
        if viaDev.Some? {
          var installed := InstallKillSwitch();
          warned := !installed;
        }
      }
    }

    /** A hook thread, under the lock: what it leaves is the effect the race model gives it. */
    method RunHook(on: bool, wantKillSwitch: bool) returns (outcome: Toggle.Outcome)
      requires Valid()
      modifies this`killSwitch, this`dropped, kernel
      ensures Valid()
      ensures !on || kernel.reliable ==> outcome.AllWorked?
      ensures redirectAll && viaDev.Some? && (clean || !outcome.RoutesFailed?) ==>
                (Tunnel(), killSwitch) == Toggle.Effect(wantKillSwitch, old(Tunnel()), old(killSwitch), on, outcome)
      ensures killSwitch ==> old(killSwitch) || wantKillSwitch
      ensures dropped == old(dropped) + (if !on && old(killSwitch) then 1 else 0)
      ensures old(Tidy()) ==> Tidy()
    {
      if on {
        var ok, warned := ReenableWithKs(wantKillSwitch);
        outcome := if !ok then Toggle.RoutesFailed else if warned then Toggle.KillSwitchFailed else Toggle.AllWorked;
      } else {
        Teardown();
        outcome := Toggle.AllWorked;
      }
    }

    /** Drop: everything of ours is removed, and on a clean start the table is what it was. */
    method TeardownAll()
      requires Valid()
      modifies this, kernel
      ensures Valid() && !killSwitch && serverHost == None
      ensures old(serverHost).Some? ==> viaGateway == None && viaDev == None
      ensures clean ==> kernel.net.routes == start.routes && kernel.net.jumps == 0
      ensures redirectAll ==> Cleared(LOW_HALF) && Cleared(HIGH_HALF)
      ensures if old(serverHost).Some? then HostRoute(ip) !in kernel.net.routes
              else SameAt(kernel.net.routes, old(kernel.net.routes), HostRoute(ip))
      ensures dropped == old(dropped) + (if old(killSwitch) then 1 else 0)
      ensures old(Tidy()) ==> Tidy()
    {
      Teardown();
      if serverHost.Some? && viaGateway.Some? && viaDev.Some? {
        kernel.RouteDel(HostRoute(serverHost.value), Hop(viaGateway, viaDev.value));
        serverHost, viaGateway, viaDev := None, None, None;
      }
    }
  }

  predicate FullyInstalled(routes: RouteTable, before: RouteTable, server: Ip, route: (Ip, Dev), tun: Dev) {
    routes == FullTunnel(before, server, Hop(Some(route.0), route.1), tun)
  }

  lemma ThreeRoutesMore(routes: RouteTable, before: RouteTable, server: Ip, route: (Ip, Dev), tun: Dev)
    requires routes - OurPrefixes(server) == before - OurPrefixes(server) && TunnelUp(routes, tun)
    requires HostRoute(server) in routes && routes[HostRoute(server)] == Hop(Some(route.0), route.1)
    ensures FullyInstalled(routes, before, server, route, tun)
  {
    var full := FullTunnel(before, server, Hop(Some(route.0), route.1), tun);
    forall p
      ensures p in routes <==> p in full
      ensures p in routes ==> routes[p] == full[p]
    {
      if p !in OurPrefixes(server) {
        assert p in routes - OurPrefixes(server) <==> p in before - OurPrefixes(server);
        assert p in routes ==> (routes - OurPrefixes(server))[p] == routes[p];
      }
    }
  }

  /** Installs everything, or fails and drops the partial state. `route` is the default route that
      was found, if any. Nothing is assumed of what the kernel already holds. */
  method Install(kernel: Kernel, endpoint: Endpoint, tun: Dev, opts: Opts, route: Option<(Ip, Dev)>)
      returns (c: ClientRoutes, installed: bool)
    requires endpoint.V4?
    modifies kernel
    ensures fresh(c) && c.Valid() && c.kernel == kernel && c.start == old(kernel.net)
    ensures c.ip == endpoint.ip && c.port == endpoint.port && c.tunName == tun && c.redirectAll == opts.redirectAll
    ensures c.clean == old(Pristine(kernel.net, tun, endpoint.ip, endpoint.port)
                           && AllSound(kernel.history, kernel.net.routes, tun, endpoint.ip, endpoint.port))
    ensures c.dropped == 0 && (c.killSwitch ==> opts.killSwitch && opts.redirectAll && installed)
    ensures installed ==> && route.Some? && c.serverHost.Some? && c.viaDev.Some?
                          && HostRoute(endpoint.ip) in kernel.net.routes
                          && kernel.net.routes[HostRoute(endpoint.ip)] == Hop(Some(route.value.0), route.value.1)
    ensures installed && opts.redirectAll ==>
              c.Tunnel() && FullyInstalled(kernel.net.routes, old(kernel.net.routes), endpoint.ip, route.value, tun)
    ensures !installed ==> c.serverHost == None && (c.clean ==> kernel.net.routes == old(kernel.net.routes))
    ensures !installed && opts.redirectAll ==> c.Cleared(LOW_HALF) && c.Cleared(HIGH_HALF)
    ensures route.None? ==> SameAt(kernel.net.routes, old(kernel.net.routes), HostRoute(endpoint.ip))
    ensures kernel.reliable ==> installed == route.Some? && (c.killSwitch <==> installed && opts.killSwitch && opts.redirectAll)
    ensures kernel.reliable && old(kernel.net.jumps) <= 1 ==> c.Tidy()
  {
    c := new ClientRoutes(endpoint, tun, opts.redirectAll, kernel);
    installed := false;
    if route.None? {
      c.TeardownAll();
      return;
    }
    var ok := c.InstallHostRoute(route.value.0, route.value.1);
    if ok && opts.redirectAll {
      ok := c.InstallHalves();
    }
    if !ok {
      c.TeardownAll();
      return;
    }
    installed := true;
    if opts.killSwitch && opts.redirectAll {
      var ignored := c.InstallKillSwitch();
    }
    if opts.redirectAll {
      ThreeRoutesMore(kernel.net.routes, c.start.routes, endpoint.ip, route.value, tun);
    }
  }

  /** A client's whole life: install, any sequence of on/off, drop, on whatever the kernel holds and
      whichever commands fail. The guarantees of a clean start: the route table is restored, no jump
      is left, and at every intermediate kernel state an active kill switch had a complete chain and
      both full-tunnel routes. On any start: foreign prefixes are untouched, the /1 routes on our
      device are gone if the full tunnel is configured, and one leftover jump goes with each kill
      switch that came and went. */
  method Lifetime(kernel: Kernel, endpoint: Endpoint, tun: Dev, opts: Opts, route: Option<(Ip, Dev)>, toggles: seq<bool>)
      returns (ghost dropped: nat)
    requires endpoint.V4?
    modifies kernel
    ensures old(Pristine(kernel.net, tun, endpoint.ip, endpoint.port)
                && AllSound(kernel.history, kernel.net.routes, tun, endpoint.ip, endpoint.port)) ==>
              && kernel.net.routes == old(kernel.net.routes) && kernel.net.jumps == 0
              && AllSound(kernel.history, old(kernel.net.routes), tun, endpoint.ip, endpoint.port)
              && (kernel.reliable && old(kernel.net.chain).None? ==> kernel.net == old(kernel.net))
    ensures Leaves(old(kernel.net), kernel.net, endpoint.ip, tun, opts, kernel.reliable, route.Some?, dropped)
  {
    var c, installed := Install(kernel, endpoint, tun, opts, route);
    if !installed {
      return 0;
    }
    var i := 0;
    while i < |toggles|
      invariant 0 <= i <= |toggles|
      invariant c.Valid() && c.serverHost.Some?
      invariant c.killSwitch || c.dropped > 0 ==> opts.killSwitch && opts.redirectAll
      invariant kernel.reliable && opts.killSwitch && opts.redirectAll ==> c.killSwitch || c.dropped > 0
      invariant kernel.reliable && c.start.jumps <= 1 ==> c.Tidy()
      modifies c, kernel
    {
      var outcome := c.RunHook(toggles[i], opts.killSwitch);
      i := i + 1;
    }
    c.TeardownAll();
    dropped := c.dropped;
  }

  /** What a whole life makes of the kernel state it found. */
  ghost predicate Leaves(before: NetState, after: NetState, ip: Ip, tun: Dev, opts: Opts, reliable: bool, routed: bool, dropped: nat) {
    && after.routes - OurPrefixes(ip) == before.routes - OurPrefixes(ip)
    && (if opts.redirectAll then HalfGone(before.routes, after.routes, LOW_HALF, tun) && HalfGone(before.routes, after.routes, HIGH_HALF, tun)
        else SameAt(after.routes, before.routes, LOW_HALF) && SameAt(after.routes, before.routes, HIGH_HALF))
    && (HostRoute(ip) in after.routes ==> SameAt(after.routes, before.routes, HostRoute(ip)))
    && (!routed ==> SameAt(after.routes, before.routes, HostRoute(ip)))
    && (reliable && routed ==> HostRoute(ip) !in after.routes)
    && after.jumps == JumpsLeft(before.jumps, dropped)
    && (dropped > 0 ==> opts.killSwitch && opts.redirectAll && routed)
    && (reliable ==> (dropped > 0 <==> opts.killSwitch && opts.redirectAll && routed))
    && (reliable && before.jumps <= 1 ==> after.chain == if dropped == 0 then before.chain else None)
  }

  predicate HalfGone(before: RouteTable, after: RouteTable, p: Prefix, tun: Dev) {
    p in after ==> SameAt(after, before, p) && after[p].dev != tun
  }

  /** A client crashed in some state `crashed` of its life, which every state in the history of a
      clean start is an example of, and is started again with any options. The crash may have taken
      the tunnel device and with it the two /1 routes. With commands that succeed, a leftover jump
      is removed exactly when the new client installs a kill switch itself, leftover /1 routes exactly
      when it is a full tunnel, and the host route exactly when a default route is found; a full
      tunnel that finds one gives the table back as it was before the first client. */
  method Restart(kernel: Kernel, ghost crashed: NetState, ghost base: RouteTable, endpoint: Endpoint, tun: Dev,
                 opts: Opts, route: Option<(Ip, Dev)>, toggles: seq<bool>)
    requires endpoint.V4? && OurPrefixes(endpoint.ip) !! base.Keys && kernel.reliable
    requires Sound(crashed, base, tun, endpoint.ip, endpoint.port)
    requires kernel.net == crashed || kernel.net == crashed.(routes := crashed.routes - {LOW_HALF, HIGH_HALF})
    modifies kernel
    ensures var ours := opts.killSwitch && opts.redirectAll && route.Some?;
            && (kernel.net.jumps == 0 <==> crashed.jumps == 0 || ours)
            && kernel.net.chain == if ours then None else crashed.chain
    ensures forall p :: p == LOW_HALF || p == HIGH_HALF ==>
              (p in kernel.net.routes <==> p in old(kernel.net.routes) && !opts.redirectAll)
    ensures HostRoute(endpoint.ip) in kernel.net.routes <==> HostRoute(endpoint.ip) in crashed.routes && route.None?
    ensures kernel.net.routes - OurPrefixes(endpoint.ip) == base
    ensures opts.redirectAll && route.Some? ==> kernel.net.routes == base
  {
    ghost var dropped := Lifetime(kernel, endpoint, tun, opts, route, toggles);
  }
}
