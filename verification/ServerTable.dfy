/** The server's session table: two maps kept mutually inverse by every operation on them. */
module ServerTable {
  import opened Prelude
  import opened Replay
  import opened Crypto
  import opened Ipv4
  import opened Config
  import RateLimit

  datatype Addr = Addr(ip: nat, port: nat)

  datatype LiveSession = LiveSession(
    session: SessionState, peerAddr: Addr, tunnelIp: Ip, lastSeen: nat, established: nat)

  datatype Table = Table(byIndex: map<U32, LiveSession>, byIp: map<Ip, U32>)

  datatype HandshakeError = RateLimited | NoiseFailed | UnknownPeer | IndexCollision

  /** What becomes of a data frame. */
  datatype Verdict = Ignored | UnknownSession | DecryptFailed | Keepalive | PolicyDrop | Forward(packet: Bytes)

  /** What becomes of a packet read from the TUN device. */
  datatype Uplink = NoRoute | EncryptFailed | Transmit(to: Addr, frame: Bytes)

  /** The two maps are mutually inverse, every session sits at its own index, and none at 0. */
  ghost predicate Consistent(t: Table) {
    && (forall i :: i in t.byIndex ==>
          && i != 0
          && t.byIndex[i].session.index == i
          && t.byIndex[i].tunnelIp in t.byIp
          && t.byIp[t.byIndex[i].tunnelIp] == i)
    && (forall ip :: ip in t.byIp ==> t.byIp[ip] in t.byIndex && t.byIndex[t.byIp[ip]].tunnelIp == ip)
  }

  // ---- the operations as functions of the table ----

  /** Drops whatever session the address has. */
  function Evict(t: Table, ip: Ip): Table {
    if ip in t.byIp then Table(t.byIndex - {t.byIp[ip]}, t.byIp - {ip}) else t
  }

  /** The last phase of a handshake. The peer's old session is gone even when the index collides. */
  function Install(t: Table, peers: map<PubKey, Ip>, index: U32, session: SessionState, src: Addr, now: nat)
    : (Table, Result<U32, HandshakeError>)
  {
    if session.remote !in peers then (t, Err(UnknownPeer))
    else
      var ip := peers[session.remote];
      var t1 := Evict(t, ip);
      if index in t1.byIndex then (t1, Err(IndexCollision))
      else (Table(t1.byIndex[index := LiveSession(session, src, ip, now, now)], t1.byIp[ip := index]), Ok(index))
  }

  predicate Stale(l: LiveSession, now: nat, idle: nat) {
    now > l.lastSeen + idle
  }

  function Reap(t: Table, now: nat, idle: nat): Table {
    Table(
      map i | i in t.byIndex && !Stale(t.byIndex[i], now, idle) :: t.byIndex[i],
      map ip | ip in t.byIp && !ReapedIp(t, ip, now, idle) :: t.byIp[ip])
  }

  /** The (index, tunnel address) pairs the reaper collects before removing anything. */
  function StaleEntries(t: Table, now: nat, idle: nat): set<(U32, Ip)> {
    set i | i in t.byIndex && Stale(t.byIndex[i], now, idle) :: (i, t.byIndex[i].tunnelIp)
  }

  ghost function WithoutIndices(t: Table, gone: set<(U32, Ip)>): map<U32, LiveSession> {
    map i | i in t.byIndex && (i, t.byIndex[i].tunnelIp) !in gone :: t.byIndex[i]
  }

  ghost function WithoutIps(t: Table, gone: set<(U32, Ip)>): map<Ip, U32> {
    map ip | ip in t.byIp && (t.byIp[ip], ip) !in gone :: t.byIp[ip]
  }

  lemma EntriesAreLive(t: Table, now: nat, idle: nat, entry: (U32, Ip))
    ensures entry in StaleEntries(t, now, idle) <==>
            entry.0 in t.byIndex && t.byIndex[entry.0].tunnelIp == entry.1 && Stale(t.byIndex[entry.0], now, idle)
  {
  }

  lemma RemoveOneEntry(t: Table, gone: set<(U32, Ip)>, entry: (U32, Ip))
    requires entry.0 in t.byIndex && t.byIndex[entry.0].tunnelIp == entry.1
    ensures WithoutIndices(t, gone + {entry}) == WithoutIndices(t, gone) - {entry.0}
    ensures var ips := WithoutIps(t, gone);
            WithoutIps(t, gone + {entry}) == if entry.1 in ips && ips[entry.1] == entry.0 then ips - {entry.1} else ips
  {
  }

  lemma ReapRemovesEntries(t: Table, now: nat, idle: nat)
    ensures WithoutIndices(t, StaleEntries(t, now, idle)) == Reap(t, now, idle).byIndex
    ensures WithoutIps(t, StaleEntries(t, now, idle)) == Reap(t, now, idle).byIp
  {
    forall i | i in t.byIndex {
      EntriesAreLive(t, now, idle, (i, t.byIndex[i].tunnelIp));
    }
    forall ip | ip in t.byIp {
      EntriesAreLive(t, now, idle, (t.byIp[ip], ip));
    }
  }

  predicate ReapedIp(t: Table, ip: Ip, now: nat, idle: nat)
    requires ip in t.byIp
  {
    var i := t.byIp[ip];
    i in t.byIndex && Stale(t.byIndex[i], now, idle) && t.byIndex[i].tunnelIp == ip
  }

  /** The forwarding policy on a decrypted payload. */
  function Police(plain: Bytes, tunnelIp: Ip): Verdict {
    if plain == [] then Keepalive
    else if !IsIpv4(plain) then PolicyDrop
    else if Source(plain) != Some(tunnelIp) then PolicyDrop
    else Forward(plain)
  }

  /** UDP to TUN, for a datagram that is not a handshake. */
  function Deliver(a: Aead, t: Table, packet: Bytes, src: Addr, now: nat): (Table, Verdict) {
    if |packet| < HEADER then (t, Ignored)
    else
      var index := FrameIndex(packet);
      if index !in t.byIndex then (t, UnknownSession)
      else
        var live := t.byIndex[index];
        var (s, r) := DecryptStep(a, live.session, packet, MAX_MESSAGE);
        match r
        case Err(_) => (t.(byIndex := t.byIndex[index := live.(session := s)]), DecryptFailed)
        case Ok(plain) =>
          (t.(byIndex := t.byIndex[index := live.(session := s, peerAddr := src, lastSeen := now)]),
           Police(plain, live.tunnelIp))
  }

  /** TUN to UDP. */
  function Route(a: Aead, t: Table, packet: Bytes, now: nat): (Table, Uplink) {
    match Destination(packet)
    case None => (t, NoRoute)
    case Some(dst) =>
      if dst !in t.byIp || t.byIp[dst] !in t.byIndex then (t, NoRoute)
      else
        var index := t.byIp[dst];
        var live := t.byIndex[index];
        var (s, r) := EncryptStep(a, live.session, packet, MAX_MESSAGE);
        match r
        case Err(_) => (t.(byIndex := t.byIndex[index := live.(session := s)]), EncryptFailed)
        case Ok(frame) =>
          (t.(byIndex := t.byIndex[index := live.(session := s, lastSeen := now)]), Transmit(live.peerAddr, frame))
  }

  // ---- each operation keeps the maps inverse ----

  lemma EvictKeepsConsistent(t: Table, ip: Ip)
    requires Consistent(t)
    ensures Consistent(Evict(t, ip)) && ip !in Evict(t, ip).byIp
    ensures forall i :: i in Evict(t, ip).byIndex <==> i in t.byIndex && t.byIndex[i].tunnelIp != ip
    ensures forall i :: i in Evict(t, ip).byIndex ==> Evict(t, ip).byIndex[i] == t.byIndex[i]
  {
  }

  /** A handshake leaves exactly the other peers' sessions, plus its own unless it failed;
      an unknown peer changes nothing, and a collision costs the peer its old session. */
  lemma InstallKeepsConsistent(t: Table, peers: map<PubKey, Ip>, index: U32, session: SessionState, src: Addr, now: nat)
    requires Consistent(t) && session.index == index != 0
    ensures var (t', r) := Install(t, peers, index, session, src, now);
            && Consistent(t')
            && (if r.Ok? then r.value == index else r.error == UnknownPeer || r.error == IndexCollision)
            && (r == Err(UnknownPeer) <==> session.remote !in peers)
            && (r == Err(UnknownPeer) ==> t' == t)
            && (r == Err(IndexCollision) <==>
                  session.remote in peers && index in t.byIndex && t.byIndex[index].tunnelIp != peers[session.remote])
            && (session.remote in peers ==>
                  forall i :: i in t'.byIndex <==>
                    (r.Ok? && i == index) || (i in t.byIndex && t.byIndex[i].tunnelIp != peers[session.remote]))
            && (r.Ok? ==> t'.byIndex[index] == LiveSession(session, src, peers[session.remote], now, now))
            && (forall i :: i in t'.byIndex && !(r.Ok? && i == index) ==> i in t.byIndex && t'.byIndex[i] == t.byIndex[i])
  {
    if session.remote in peers {
      EvictKeepsConsistent(t, peers[session.remote]);
    }
  }

  /** On a consistent table the reaper removes exactly the stale sessions, from both maps. */
  lemma ReapKeepsConsistent(t: Table, now: nat, idle: nat)
    requires Consistent(t)
    ensures Consistent(Reap(t, now, idle))
    ensures forall i :: i in Reap(t, now, idle).byIndex <==> i in t.byIndex && now <= t.byIndex[i].lastSeen + idle
    ensures forall i :: i in Reap(t, now, idle).byIndex ==> Reap(t, now, idle).byIndex[i] == t.byIndex[i]
    ensures forall ip :: ip in Reap(t, now, idle).byIp <==>
              ip in t.byIp && !Stale(t.byIndex[t.byIp[ip]], now, idle)
  {
  }

  /** Replacing a session in place, identity unchanged. */
  lemma UpdateKeepsConsistent(t: Table, i: U32, l: LiveSession)
    requires Consistent(t) && i in t.byIndex && l.session.index == i && l.tunnelIp == t.byIndex[i].tunnelIp
    ensures Consistent(t.(byIndex := t.byIndex[i := l]))
  {
  }

  /** The three ways a data frame can touch the table. */
  lemma DeliverCases(a: Aead, t: Table, packet: Bytes, src: Addr, now: nat)
    ensures var (t', v) := Deliver(a, t, packet, src, now);
            if |packet| < HEADER || FrameIndex(packet) !in t.byIndex then t' == t && (v.Ignored? || v.UnknownSession?)
            else
              var i, n := FrameIndex(packet), FrameNonce(packet);
              var live, seen := t.byIndex[i], t.byIndex[i].session.accepted;
              if v.DecryptFailed? then t' == Touched(t, i, seen) || t' == Touched(t, i, seen + {n})
              else
                && Admits(seen, n) && !v.Ignored? && !v.UnknownSession?
                && t' == Followed(t, i, n, src, now)
                && (v.Forward? ==> Source(v.packet) == Some(live.tunnelIp))
  {
  }

  function Touched(t: Table, i: U32, accepted: set<nat>): Table
    requires i in t.byIndex
  {
    t.(byIndex := t.byIndex[i := t.byIndex[i].(session := t.byIndex[i].session.(accepted := accepted))])
  }

  function Followed(t: Table, i: U32, nonce: nat, src: Addr, now: nat): Table
    requires i in t.byIndex
  {
    var live := t.byIndex[i];
    var s := live.session.(accepted := live.session.accepted + {nonce});
    t.(byIndex := t.byIndex[i := live.(session := s, peerAddr := src, lastSeen := now)])
  }

  function Counted(t: Table, i: U32, now: nat): Table
    requires i in t.byIndex && t.byIndex[i].session.sendNonce < U64_MAX && t.byIndex[i].session.cipherNonce < U64_MAX
  {
    var live := t.byIndex[i];
    var s := live.session.(sendNonce := live.session.sendNonce + 1, cipherNonce := live.session.cipherNonce + 1);
    t.(byIndex := t.byIndex[i := live.(session := s, lastSeen := now)])
  }

  lemma RouteCases(a: Aead, t: Table, packet: Bytes, now: nat)
    requires forall i :: i in t.byIndex ==> t.byIndex[i].session.sendNonce == t.byIndex[i].session.cipherNonce
    ensures var (t', u) := Route(a, t, packet, now);
            var d := Destination(packet);
            if d.None? || d.value !in t.byIp || t.byIp[d.value] !in t.byIndex then t' == t && u.NoRoute?
            else
              var i := t.byIp[d.value];
              if u.EncryptFailed? then t' == t
              else
                && u.Transmit? && u.to == t.byIndex[i].peerAddr
                && t.byIndex[i].session.cipherNonce < U64_MAX && t' == Counted(t, i, now)
  {
    var d := Destination(packet);
    if d.Some? && d.value in t.byIp && t.byIp[d.value] in t.byIndex {
      var i := t.byIp[d.value];
      assert t.byIndex[i := t.byIndex[i]] == t.byIndex;
    }
  }

  /** Whether the session decrypts the frame: its nonce is admissible and not the reserved one, and
      the cipher opens it. */
  predicate Opens(a: Aead, s: SessionState, packet: Bytes)
    requires |packet| >= HEADER
  {
    && |packet| >= 28 && |packet| <= 12 + 16 + 65535 && FrameIndex(packet) == s.index
    && Admits(s.accepted, FrameNonce(packet)) && FrameNonce(packet) < U64_MAX
    && a.open(s.recvKey, FrameNonce(packet), packet[12..]).Some?
  }

  /** What every datagram does to the table. A frame of a live session marks its nonce whether it is
      then decrypted or not, and moves the session's address and time only if it is; nothing else of
      the session and nothing of any other changes. */
  lemma DeliverEffect(a: Aead, t: Table, packet: Bytes, src: Addr, now: nat)
    requires Consistent(t)
    ensures var (t', v) := Deliver(a, t, packet, src, now);
            if |packet| < 12 then t' == t && v == Ignored
            else if FrameIndex(packet) !in t.byIndex then t' == t && v == UnknownSession
            else
              var i, n := FrameIndex(packet), FrameNonce(packet);
              var live, live' := t.byIndex[i], t'.byIndex[i];
              && t'.byIp == t.byIp && t'.byIndex.Keys == t.byIndex.Keys
              && (forall j :: j in t.byIndex && j != i ==> t'.byIndex[j] == t.byIndex[j])
              && live'.session.accepted == (if |packet| < 28 then live.session.accepted else Record(live.session.accepted, n))
              && live' == live.(session := live.session.(accepted := live'.session.accepted),
                                peerAddr := if Opens(a, live.session, packet) then src else live.peerAddr,
                                lastSeen := if Opens(a, live.session, packet) then now else live.lastSeen)
              && (v == DecryptFailed <==> !Opens(a, live.session, packet))
              && (Opens(a, live.session, packet) ==>
                    v == Police(a.open(live.session.recvKey, n, packet[12..]).value, live.tunnelIp))
  {
    if |packet| >= HEADER && FrameIndex(packet) in t.byIndex {
      assert t.byIndex[FrameIndex(packet)].session.index == FrameIndex(packet);
      DecryptOutcome(a, t.byIndex[FrameIndex(packet)].session, packet, MAX_MESSAGE);
    }
  }

  /** What the policy makes of a decrypted payload: an empty one is a keepalive, an IPv4 packet from
      the peer's own address goes to the TUN unchanged, and everything else is dropped. */
  lemma PolicyMeans(plain: Bytes, tunnelIp: Ip)
    ensures Police(plain, tunnelIp) == Keepalive <==> |plain| == 0
    ensures Police(plain, tunnelIp) == Forward(plain) <==> Source(plain) == Some(tunnelIp)
    ensures Police(plain, tunnelIp) == PolicyDrop <==> |plain| > 0 && Source(plain) != Some(tunnelIp)
  {
  }

  /** A TUN packet is sealed under the one session that owns its destination and sent to that
      session's address; it is dropped exactly when no session does or that one cannot encrypt. */
  lemma RouteUsesTheOwner(a: Aead, t: Table, packet: Bytes, now: nat, i: U32)
    requires Consistent(t) && i in t.byIndex && Destination(packet) == Some(t.byIndex[i].tunnelIp)
    ensures var owner := t.byIndex[i];
            var r := EncryptStep(a, owner.session, packet, MAX_MESSAGE).1;
            Route(a, t, packet, now).1 == if r.Ok? then Transmit(owner.peerAddr, r.value) else EncryptFailed
    ensures forall j :: j in t.byIndex && j != i ==> t.byIndex[j].tunnelIp != t.byIndex[i].tunnelIp
  {
  }

  /** What every TUN packet does to the table. Sent, it costs its owner one number and is the frame
      sealed under it, to the owner's address; otherwise nothing changes. */
  lemma RouteEffect(a: Aead, t: Table, packet: Bytes, now: nat, i: U32)
    requires Consistent(t) && i in t.byIndex && Destination(packet) == Some(t.byIndex[i].tunnelIp)
    requires t.byIndex[i].session.sendNonce == t.byIndex[i].session.cipherNonce
    ensures var (t', u) := Route(a, t, packet, now);
            var live, s := t.byIndex[i], t.byIndex[i].session;
            if |packet| <= 65507 && s.cipherNonce < U64_MAX then
              && u == Transmit(live.peerAddr, Frame(i, s.cipherNonce, a.seal(s.sendKey, s.cipherNonce, packet)))
              && t' == t.(byIndex := t.byIndex[i := live.(
                   session := s.(sendNonce := s.cipherNonce + 1, cipherNonce := s.cipherNonce + 1), lastSeen := now)])
            else u == EncryptFailed && t' == t
  {
    EncryptOutcome(a, t.byIndex[i].session, packet, MAX_MESSAGE);
    assert t.byIndex[i := t.byIndex[i]] == t.byIndex;
  }

  lemma RouteNeedsAnOwner(a: Aead, t: Table, packet: Bytes, now: nat)
    requires Consistent(t)
    ensures Route(a, t, packet, now).1 == NoRoute <==>
            forall i :: i in t.byIndex ==> Destination(packet) != Some(t.byIndex[i].tunnelIp)
    ensures Route(a, t, packet, now).1 == NoRoute ==> Route(a, t, packet, now).0 == t
  {
    var d := Destination(packet);
    if d.Some? && d.value in t.byIp {
      assert t.byIndex[t.byIp[d.value]].tunnelIp == d.value;
    }
  }

  /** A genuine frame is forwarded exactly when the window admits it and its inner source is the
      session's own tunnel address; only then, or as a keepalive or policy drop, does the session
      follow the sender's address. */
  lemma GenuineFrameDelivered(a: Aead, t: Table, i: U32, nonce: U64, plain: Bytes, src: Addr, now: nat)
    requires a.Lawful() && Consistent(t) && i in t.byIndex && Fits(plain, MAX_MESSAGE) && nonce != U64_MAX
    ensures var live := t.byIndex[i];
            var frame := Frame(i, nonce, a.seal(live.session.recvKey, nonce, plain));
            var (t', v) := Deliver(a, t, frame, src, now);
            && (v == Forward(plain) <==>
                  Admits(live.session.accepted, nonce) && plain != [] && Source(plain) == Some(live.tunnelIp))
            && t'.byIndex[i].peerAddr == if Admits(live.session.accepted, nonce) then src else live.peerAddr
  {
    GenuineFrameOpens(a, t.byIndex[i].session, nonce, plain, MAX_MESSAGE);
    FrameRoundTrip(i, nonce, a.seal(t.byIndex[i].session.recvKey, nonce, plain));
  }

  // ---- index allocation ----

  function NonzeroBelow(n: nat): set<nat> {
    if n <= 1 then {} else NonzeroBelow(n - 1) + {n - 1}
  }

  lemma {:induction false} NonzeroCount(n: nat)
    requires n >= 1
    ensures |NonzeroBelow(n)| == n - 1
    ensures forall i :: i in NonzeroBelow(n) ==> 0 < i < n
  {
    if n == 1 {
    } else {
      NonzeroCount(n - 1);
    }
  }

  /** Fewer than 2^32-1 sessions leave a nonzero index free. */
  lemma FreeIndexExists(used: set<U32>) returns (free: U32)
    requires |used| < U32_LIMIT - 1
    ensures free != 0 && free !in used
  {
    var all := NonzeroBelow(U32_LIMIT);
    NonzeroCount(U32_LIMIT);
    if all <= used {
      CardinalityMonotone(all, used);
      assert false;
    }
    free :| free in all && free !in used;
  }

  // ---- the state behind the lock ----

  class State {
    var byIndex: map<U32, LiveSession>
    var byIp: map<Ip, U32>
    const peers: map<PubKey, Ip>
    const rate: RateLimit.RateLimit

    function View(): Table
      reads this
    {
      Table(byIndex, byIp)
    }

    constructor (peers: map<PubKey, Ip>, rate: RateLimit.RateLimit)
      ensures View() == Table(map[], map[]) && this.peers == peers && this.rate == rate
    {
      byIndex, byIp := map[], map[];
      this.peers, this.rate := peers, rate;
    }

    /** Any nonzero index not in use, as a random draw may give. */
    method AllocIndex() returns (index: U32)
      requires |byIndex| < U32_LIMIT - 1
      ensures index != 0 && index !in byIndex
    {
      ghost var free := FreeIndexExists(byIndex.Keys);
      index :| index != 0 && index !in byIndex;
    }

    method InstallSession(index: U32, session: SessionState, src: Addr, now: nat) returns (r: Result<U32, HandshakeError>)
      modifies this
      ensures (View(), r) == Install(old(View()), peers, index, session, src, now)
    {
      if session.remote !in peers {
        return Err(UnknownPeer);
      }
      var tunnelIp := peers[session.remote];
      if tunnelIp in byIp {
        var oldIndex := byIp[tunnelIp];
        byIp := byIp - {tunnelIp};
        byIndex := byIndex - {oldIndex};
      }
      if index in byIndex {
        return Err(IndexCollision);
      }
      byIp := byIp[tunnelIp := index];
      byIndex := byIndex[index := LiveSession(session, src, tunnelIp, now, now)];
      return Ok(index);
    }

    /** One reaper tick: collect the stale sessions, then remove them one at a time. */
    method ReapTick(now: nat, idle: nat)
      requires rate.Valid()
      modifies this, rate
      ensures rate.Valid() && rate.calls == old(rate.calls) + [RateLimit.Call.Gc(now)]
      ensures View() == Reap(old(View()), now, idle)
      ensures rate.hits == RateLimit.GcStep(rate.limits, old(rate.hits), now)
    {
      rate.Gc(now);
      RemoveEntries(StaleEntries(View(), now, idle), now, idle);
    }

    method RemoveEntries(entries: set<(U32, Ip)>, now: nat, idle: nat)
      requires entries == StaleEntries(View(), now, idle)
      modifies this
      ensures View() == Reap(old(View()), now, idle)
    {
      ghost var t := View();
      var stale := entries;
      ghost var gone: set<(U32, Ip)> := {};
      assert byIndex == WithoutIndices(t, gone) && byIp == WithoutIps(t, gone);
      while stale != {}
        invariant stale + gone == entries && byIndex == WithoutIndices(t, gone) && byIp == WithoutIps(t, gone)
        decreases |stale|
      {
        var entry :| entry in stale;
        EntriesAreLive(t, now, idle, entry);
        RemoveOneEntry(t, gone, entry);
        stale, gone := stale - {entry}, gone + {entry};
        byIndex := byIndex - {entry.0};
        if entry.1 in byIp && byIp[entry.1] == entry.0 {
          byIp := byIp - {entry.1};
        }
      }
      assert gone == entries;
      ReapRemovesEntries(t, now, idle);
    }

    method OnDatagram(a: Aead, packet: Bytes, src: Addr, now: nat) returns (v: Verdict)
      modifies this
      ensures (View(), v) == Deliver(a, old(View()), packet, src, now)
    {
      if |packet| < 12 {
        return Ignored;
      }
      var index := FrameIndex(packet);
      if index !in byIndex {
        return UnknownSession;
      }
      var live := byIndex[index];
      var (s, r) := DecryptStep(a, live.session, packet, MAX_MESSAGE);
      byIndex := byIndex[index := live.(session := s)];
      if r.Err? {
        return DecryptFailed;
      }
      byIndex := byIndex[index := byIndex[index].(peerAddr := src, lastSeen := now)];
      assert byIndex == old(byIndex)[index := live.(session := s, peerAddr := src, lastSeen := now)];
      var plain := r.value;
      if |plain| == 0 {
        return Keepalive;
      }
      if !IsIpv4(plain) {
        return PolicyDrop;
      }
      var packetSource := Source(plain);
      if packetSource.None? || packetSource.value != live.tunnelIp {
        return PolicyDrop;
      }
      return Forward(plain);
    }

    method OnTunPacket(a: Aead, packet: Bytes, now: nat) returns (u: Uplink)
      modifies this
      ensures (View(), u) == Route(a, old(View()), packet, now)
    {
      var dst := Destination(packet);
      if dst.None? || dst.value !in byIp {
        return NoRoute;
      }
      var index := byIp[dst.value];
      if index !in byIndex {
        return NoRoute;
      }
      var live := byIndex[index];
      var (s, r) := EncryptStep(a, live.session, packet, MAX_MESSAGE);
      byIndex := byIndex[index := live.(session := s)];
      if r.Err? {
        return EncryptFailed;
      }
      byIndex := byIndex[index := byIndex[index].(lastSeen := now)];
      assert byIndex == old(byIndex)[index := live.(session := s, lastSeen := now)];
      return Transmit(live.peerAddr, r.value);
    }
  }
}
