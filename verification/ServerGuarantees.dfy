/** What holds of the server in every run. */
module ServerGuarantees {
  import opened Prelude
  import opened Replay
  import opened Crypto
  import opened Ipv4
  import opened Config
  import opened ServerTable
  import opened ServerRun
  import RateLimit

  // ---- what holds in every run ----

  /** However steps interleave, the two maps stay mutually inverse, every session sits at its own
      nonzero index, and each belongs to a configured peer at that peer's address. */
  lemma TableStaysInverse(c: Setup, es: seq<Event>, states: seq<Server>, i: nat)
    requires IsRun(c, es, states) && i <= |es|
    ensures Consistent(states[i].table)
    ensures forall k :: k in states[i].table.byIndex ==>
              var l := states[i].table.byIndex[k];
              l.session.remote in c.peers && c.peers[l.session.remote] == l.tunnelIp
  {
    RunKeepsInv(c, es, states, i);
    var t := states[i].table;
    forall k | k in t.byIndex
      ensures LiveOk(c, states[i].trace, states[i].ids, t.byIndex[k])
    {
    }
  }

  lemma {:induction false} IndicesInjectIntoPeers(m: map<U32, LiveSession>, peers: set<PubKey>)
    requires forall k :: k in m ==> m[k].session.remote in peers
    requires forall i, j :: i in m && j in m && m[i].session.remote == m[j].session.remote ==> i == j
    ensures |m| <= |peers|
  {
    if m == map[] {
    } else {
      var k :| k in m;
      IndicesInjectIntoPeers(m - {k}, peers - {m[k].session.remote});
      assert m.Keys == (m - {k}).Keys + {k};
    }
  }

  /** Each public key has at most one live session, so there are no more sessions than peers and,
      below 2^32-1 peers, index allocation always has a free choice. */
  lemma OneSessionPerPeer(c: Setup, es: seq<Event>, states: seq<Server>, i: nat) returns (free: U32)
    requires IsRun(c, es, states) && i <= |es| && |c.peers| <= U32_LIMIT - 2
    ensures var m := states[i].table.byIndex;
            && (forall j, k :: j in m && k in m && m[j].session.remote == m[k].session.remote ==> j == k)
            && |m| <= |c.peers|
            && free != 0 && free !in m
  {
    TableStaysInverse(c, es, states, i);
    var m := states[i].table.byIndex;
    forall j, k | j in m && k in m && m[j].session.remote == m[k].session.remote
      ensures j == k
    {
      assert m[j].tunnelIp == m[k].tunnelIp;
    }
    IndicesInjectIntoPeers(m, c.peers.Keys);
    free := FreeIndexExists(m.Keys);
  }

  /** With the peer list the configuration accepted, different live sessions belong to different
      keys at different addresses, all inside the tunnel network. */
  lemma AcceptedPeersStayApart(c: Setup, peers: seq<Peer>, serverIp: Ip, prefix: nat,
                               es: seq<Event>, states: seq<Server>, i: nat, j: U32, k: U32)
    requires prefix <= 32 && Accepted(peers, serverIp, prefix) && Parsed(peers)
    requires c.peers == PeerTable(peers, |peers|)
    requires IsRun(c, es, states) && i <= |es|
    requires j in states[i].table.byIndex && k in states[i].table.byIndex
    ensures var m := states[i].table.byIndex;
            && WellPlaced(m[j].tunnelIp, serverIp, prefix)
            && (j == k <==> m[j].session.remote == m[k].session.remote)
            && (j == k <==> m[j].tunnelIp == m[k].tunnelIp)
  {
    TableStaysInverse(c, es, states, i);
    AcceptedTableIsInjective(peers, serverIp, prefix);
  }

  function HandshakesIn(es: seq<Event>, i: nat): nat
    requires i <= |es|
  {
    if i == 0 then 0
    else HandshakesIn(es, i - 1) + (if es[i - 1].Udp? && IsHandshake(es[i - 1].packet) then 1 else 0)
  }

  /** Every type-1 datagram ends in exactly one of the two counters once it is fully processed. */
  lemma HandshakeAccounting(c: Setup, es: seq<Event>, states: seq<Server>, i: nat)
    requires IsRun(c, es, states) && i <= |es|
    ensures states[i].handshakesOk + states[i].handshakesFail + |states[i].pending| == HandshakesIn(es, i)
  {
    RunKeepsInv(c, es, states, i);
    ReceivedHandshakes(c, es, states, i);
  }

  lemma {:induction false} ReceivedHandshakes(c: Setup, es: seq<Event>, states: seq<Server>, i: nat)
    requires IsRun(c, es, states) && i <= |es|
    ensures states[i].received == HandshakesIn(es, i)
  {
    if i == 0 {
    } else {
      ReceivedHandshakes(c, es, states, i - 1);
      StepReceives(c, states[i - 1], es[i - 1]);
    }
  }

  lemma StepReceives(c: Setup, s: Server, e: Event)
    requires Possible(s, e)
    ensures Step(c, s, e).received == s.received + (if e.Udp? && IsHandshake(e.packet) then 1 else 0)
  {
  }

  function EstablishedIn(trace: seq<Note>): nat {
    if trace == [] then 0 else EstablishedIn(trace[..|trace| - 1]) + (if trace[|trace| - 1].Established? then 1 else 0)
  }

  lemma EstablishedInExtend(trace: seq<Note>, n: Option<Note>)
    ensures EstablishedIn(Extend(trace, n)) == EstablishedIn(trace) + (if n.Some? && n.value.Established? then 1 else 0)
  {
    if n.Some? {
      assert (trace + [n.value])[..|trace|] == trace;
    }
  }

  lemma OkIsEstablished(c: Setup, s: Server, e: Event)
    requires Possible(s, e)
    ensures var n := NoteOf(c, s, e);
            Step(c, s, e).handshakesOk == s.handshakesOk + (if n.Some? && n.value.Established? then 1 else 0)
  {
  }

  lemma StepCountsEstablished(c: Setup, s: Server, e: Event)
    requires Possible(s, e) && s.handshakesOk == EstablishedIn(s.trace)
    ensures Step(c, s, e).handshakesOk == EstablishedIn(Step(c, s, e).trace)
  {
    StepRecords(c, s, e);
    OkIsEstablished(c, s, e);
    EstablishedInExtend(s.trace, NoteOf(c, s, e));
  }

  /** In every run the first counter is the number of sessions established, so the second is the
      number of handshakes that ended without one. */
  lemma {:induction false} CountersTellSuccess(c: Setup, es: seq<Event>, states: seq<Server>, i: nat)
    requires IsRun(c, es, states) && i <= |es|
    ensures states[i].handshakesOk == EstablishedIn(states[i].trace)
    ensures states[i].handshakesFail == HandshakesIn(es, i) - |states[i].pending| - EstablishedIn(states[i].trace)
  {
    HandshakeAccounting(c, es, states, i);
    if i == 0 {
    } else {
      CountersTellSuccess(c, es, states, i - 1);
      StepCountsEstablished(c, states[i - 1], es[i - 1]);
    }
  }

  /** What the insertion phase answers. */
  lemma InstallOutcome(t: Table, peers: map<PubKey, Ip>, index: U32, session: SessionState, src: Addr, now: nat)
    requires Consistent(t) && session.index == index != 0
    ensures var (t', r) := Install(t, peers, index, session, src, now);
            r == if session.remote !in peers then Err(UnknownPeer)
                 else if index in t.byIndex && t.byIndex[index].tunnelIp != peers[session.remote] then Err(IndexCollision)
                 else Ok(index)
    ensures var (t', r) := Install(t, peers, index, session, src, now);
            r.Ok? ==> index in t'.byIndex && t'.byIndex[index] == LiveSession(session, src, peers[session.remote], now, now)
  {
    InstallKeepsConsistent(t, peers, index, session, src, now);
  }

  /** How the last phase of a handshake ends: established at the source its datagram came from,
      collided when the chosen index went to another peer meanwhile, or refused as unknown. */
  lemma FinishEffect(c: Setup, s: Server, h: nat, id: nat, remote: PubKey, now: nat)
    requires Inv(c, s) && Possible(s, Finish(h, Authenticated(id, remote), now))
    ensures var s', index := Step(c, s, Finish(h, Authenticated(id, remote), now)), s.pending[h].index;
            var t := s.table.byIndex;
            var known := remote in c.peers;
            var blocked := known && index in t && t[index].tunnelIp != c.peers[remote];
            && s'.trace == s.trace + (if !known then [] else if blocked then [Collided]
                                      else [Established(id, remote, s.pending[h].src, now)])
            && s'.handshakesOk == s.handshakesOk + (if known && !blocked then 1 else 0)
            && s'.handshakesFail == s.handshakesFail + (if known && !blocked then 0 else 1)
            && (known && !blocked ==>
                  && index in s'.table.byIndex
                  && s'.table.byIndex[index] ==
                     LiveSession(ResponderSession(index, remote, id), s.pending[h].src, c.peers[remote], now, now))
            && s' == s.(table := s'.table, trace := s'.trace, pending := s.pending - {h}, ids := s.ids + {id},
                        handshakesOk := s'.handshakesOk, handshakesFail := s'.handshakesFail)
  {
    var p := s.pending[h];
    InstallOutcome(s.table, c.peers, p.index, ResponderSession(p.index, remote, id), p.src, now);
  }

  /** A handshake datagram is one limiter call of its source, whether the server is enabled or not;
      allowed, it is under way from that source, and otherwise it has failed. */
  lemma HandshakeArrives(c: Setup, s: Server, h: nat, src: Addr, packet: Bytes, now: nat)
    requires packet != [] && packet[0] == 1 && h !in s.pending
    ensures var s' := Step(c, s, Udp(h, src, packet, now));
            var (ok, hits) := RateLimit.AllowStep(c.limits, s.hits, src.ip, now);
            s' == s.(hits := hits, received := s.received + 1,
                     pending := if ok then s.pending[h := Begun(src)] else s.pending,
                     handshakesFail := s.handshakesFail + (if ok then 0 else 1))
  {
  }

  /** Where the latest handshake datagram named `h` came from. */
  function BegunFrom(es: seq<Event>, i: nat, h: nat): Option<Addr>
    requires i <= |es|
  {
    if i == 0 then None
    else
      var e := es[i - 1];
      if e.Udp? && e.h == h && IsHandshake(e.packet) then Some(e.src) else BegunFrom(es, i - 1, h)
  }

  lemma StepKeepsSource(c: Setup, s: Server, e: Event, h: nat)
    requires Possible(s, e) && h in Step(c, s, e).pending
    ensures var src := Step(c, s, e).pending[h].src;
            if e.Udp? && e.h == h && IsHandshake(e.packet) then src == e.src
            else h in s.pending && src == s.pending[h].src
  {
  }

  /** In every run a handshake in flight remembers the source of its own datagram. */
  lemma {:induction false} PendingKeepsItsSource(c: Setup, es: seq<Event>, states: seq<Server>, i: nat, h: nat)
    requires IsRun(c, es, states) && i <= |es| && h in states[i].pending
    ensures BegunFrom(es, i, h) == Some(states[i].pending[h].src)
  {
    if i == 0 {
    } else {
      StepKeepsSource(c, states[i - 1], es[i - 1], h);
      if h in states[i - 1].pending {
        PendingKeepsItsSource(c, es, states, i - 1, h);
      }
    }
  }

  /** The last setting of the data-plane flag, which is on at first. */
  function FlagAfter(es: seq<Event>, i: nat): bool
    requires i <= |es|
  {
    if i == 0 then true else if es[i - 1].SetEnabled? then es[i - 1].on else FlagAfter(es, i - 1)
  }

  lemma {:induction false} FlagIsLastSetting(c: Setup, es: seq<Event>, states: seq<Server>, i: nat)
    requires IsRun(c, es, states) && i <= |es|
    ensures states[i].enabled == FlagAfter(es, i)
  {
    if i == 0 {
    } else {
      FlagIsLastSetting(c, es, states, i - 1);
    }
  }

  /** In every run, while the last setting is off, data frames and TUN packets change nothing. */
  lemma DisabledServerIsQuiet(c: Setup, es: seq<Event>, states: seq<Server>, i: nat)
    requires IsRun(c, es, states) && i < |es| && !FlagAfter(es, i)
    ensures es[i].Tun? || (es[i].Udp? && !IsHandshake(es[i].packet)) ==> states[i + 1] == states[i]
  {
    FlagIsLastSetting(c, es, states, i);
  }

  lemma OpenedNoteIs(a: Aead, t: Table, packet: Bytes, src: Addr, now: nat)
    requires Consistent(t) && |packet| >= 12 && FrameIndex(packet) in t.byIndex
    ensures var i, n := FrameIndex(packet), FrameNonce(packet);
            var l := t.byIndex[i];
            OpenedNote(t, packet, src, now, Deliver(a, t, packet, src, now).1) ==
            if Opens(a, l.session, packet)
            then Some(Opened(l.session.recvKey, n, i, l.session.remote, src, now,
                             Police(a.open(l.session.recvKey, n, packet[12..]).value, l.tunnelIp)))
            else None
  {
    DeliverEffect(a, t, packet, src, now);
  }

  /** What an enabled server records of a data frame: an opening exactly when the session decrypts
      it, with the frame's own number and source, and the policy's verdict on the plaintext. */
  lemma DataIsRecorded(c: Setup, s: Server, h: nat, src: Addr, packet: Bytes, now: nat)
    requires Inv(c, s) && s.enabled && |packet| >= 12 && packet[0] != 1 && FrameIndex(packet) in s.table.byIndex
    ensures var i, n := FrameIndex(packet), FrameNonce(packet);
            var l := s.table.byIndex[i];
            var s' := Step(c, s, Udp(h, src, packet, now));
            s'.trace == if Opens(c.aead, l.session, packet)
                        then var plain := c.aead.open(l.session.recvKey, n, packet[12..]).value;
                             s.trace + [Opened(l.session.recvKey, n, i, l.session.remote, src, now, Police(plain, l.tunnelIp))]
                        else s.trace
  {
    OpenedNoteIs(c.aead, s.table, packet, src, now);
  }

  /** An empty datagram, one too short to be a frame and one that names no live session change nothing. */
  lemma StrayDatagramIsIgnored(c: Setup, s: Server, h: nat, src: Addr, packet: Bytes, now: nat)
    requires packet != [] ==> packet[0] != 1 && (|packet| < 12 || FrameIndex(packet) !in s.table.byIndex)
    ensures Step(c, s, Udp(h, src, packet, now)) == s
  {
  }

  /** What an enabled server records of a TUN packet with an owner: an emission under the owner's
      next number to the owner's address, exactly when it fits and the numbers are not exhausted. */
  lemma EmissionIsRecorded(c: Setup, s: Server, packet: Bytes, now: nat, i: U32)
    requires Inv(c, s) && s.enabled && i in s.table.byIndex && Destination(packet) == Some(s.table.byIndex[i].tunnelIp)
    ensures var l := s.table.byIndex[i];
            var s' := Step(c, s, Tun(packet, now));
            s'.trace == if |packet| <= 65507 && l.session.cipherNonce < U64_MAX
                        then s.trace + [Emitted(l.session.sendKey, l.session.cipherNonce, l.session.remote, packet, l.peerAddr, now)]
                        else s.trace
  {
    SyncedCounters(c, s);
    RouteEffect(c.aead, s.table, packet, now, i);
  }

  /** Every packet written to the TUN device carries the tunnel address of the peer whose handshake
      made the key that opened it, every TUN packet sent is sealed under a key made with the peer
      its destination belongs to, and no frame of a session whose index ends in byte 1 is opened. */
  lemma ForwardingIsolation(c: Setup, es: seq<Event>, states: seq<Server>, i: nat, n: Note)
    requires IsRun(c, es, states) && i <= |es| && n in states[i].trace
    ensures match n
            case Opened(key, _, index, remote, _, _, v) =>
              && HandshookWith(states[i].trace, key.id, remote) && remote in c.peers && index % 256 != 1
              && (v.Forward? ==> Source(v.packet) == Some(c.peers[remote]))
            case Emitted(key, _, remote, packet, _, _) =>
              && HandshookWith(states[i].trace, key.id, remote) && remote in c.peers
              && Destination(packet) == Some(c.peers[remote])
            case _ => true
  {
    RunKeepsInv(c, es, states, i);
    assert NoteOk(c, states[i].trace, states[i].ids, n);
  }

  /** Over the whole run and all sessions, no (key, nonce) pair is opened twice or sealed twice. */
  lemma NoNonceTwice(c: Setup, es: seq<Event>, states: seq<Server>, i: nat)
    requires IsRun(c, es, states) && i <= |es|
    ensures UsesDistinct(states[i].trace)
  {
    RunKeepsInv(c, es, states, i);
  }

  /** A live session is always reached at the source of its handshake or of the latest frame that
      was decrypted under its keys. */
  lemma AuthenticatedRoaming(c: Setup, es: seq<Event>, states: seq<Server>, i: nat, k: U32)
    requires IsRun(c, es, states) && i <= |es| && k in states[i].table.byIndex
    ensures var l := states[i].table.byIndex[k];
            LastSource(states[i].trace, l.session.recvKey.id) == Some(l.peerAddr)
  {
    RunKeepsInv(c, es, states, i);
    assert LiveOk(c, states[i].trace, states[i].ids, states[i].table.byIndex[k]);
  }

  /** Every emission went to the source of its handshake or of the latest frame opened before it. */
  ghost predicate SentWhereProved(trace: seq<Note>) {
    trace != [] ==>
      var before, n := trace[..|trace| - 1], trace[|trace| - 1];
      SentWhereProved(before) && (n.Emitted? ==> LastSource(before, n.key.id) == Some(n.to))
  }

  lemma EmissionGoesToLastSource(c: Setup, s: Server, packet: Bytes, now: nat)
    requires Inv(c, s)
    ensures var n := EmittedNote(s.table, packet, now, Route(c.aead, s.table, packet, now).1);
            n.Some? ==> LastSource(s.trace, n.value.key.id) == Some(n.value.to)
  {
    var d := Destination(packet);
    if d.Some? && d.value in s.table.byIp {
      assert LiveOk(c, s.trace, s.ids, s.table.byIndex[s.table.byIp[d.value]]);
    }
  }

  lemma SentWhereProvedExtend(trace: seq<Note>, n: Option<Note>)
    requires SentWhereProved(trace)
    requires n.Some? && n.value.Emitted? ==> LastSource(trace, n.value.key.id) == Some(n.value.to)
    ensures SentWhereProved(Extend(trace, n))
  {
    if n.Some? {
      assert (trace + [n.value])[..|trace|] == trace;
    }
  }

  lemma StepSendsWhereProved(c: Setup, s: Server, e: Event)
    requires Inv(c, s) && Possible(s, e) && SentWhereProved(s.trace)
    ensures SentWhereProved(Step(c, s, e).trace)
  {
    StepRecords(c, s, e);
    if e.Tun? && s.enabled {
      EmissionGoesToLastSource(c, s, e.packet, e.now);
    }
    OnlyTunEmits(c, s, e);
    SentWhereProvedExtend(s.trace, NoteOf(c, s, e));
  }

  lemma {:induction false} RunSendsWhereProved(c: Setup, es: seq<Event>, states: seq<Server>, i: nat)
    requires IsRun(c, es, states) && i <= |es|
    ensures SentWhereProved(states[i].trace)
  {
    if i == 0 {
    } else {
      RunSendsWhereProved(c, es, states, i - 1);
      RunKeepsInv(c, es, states, i - 1);
      StepSendsWhereProved(c, states[i - 1], es[i - 1]);
    }
  }

  lemma {:induction false} ProvedAt(trace: seq<Note>, p: nat)
    requires SentWhereProved(trace) && p < |trace| && trace[p].Emitted?
    ensures LastSource(trace[..p], trace[p].key.id) == Some(trace[p].to)
  {
    if p < |trace| - 1 {
      var before := trace[..|trace| - 1];
      ProvedAt(before, p);
      assert before[..p] == trace[..p];
    }
  }

  /** Over the whole run, every packet the server sends for a peer goes to the source of that
      handshake or of the latest frame decrypted under its keys before: an unauthenticated source
      address never attracts one. */
  lemma EmissionsFollowThePeer(c: Setup, es: seq<Event>, states: seq<Server>, i: nat, p: nat)
    requires IsRun(c, es, states) && i <= |es| && p < |states[i].trace| && states[i].trace[p].Emitted?
    ensures var trace := states[i].trace;
            LastSource(trace[..p], trace[p].key.id) == Some(trace[p].to)
  {
    RunSendsWhereProved(c, es, states, i);
    ProvedAt(states[i].trace, p);
  }

  /** What a genuine frame of the session at index `k` does when it arrives. If the low byte of `k`
      is the handshake type byte it is taken for a handshake: it uses up a limiter call of its
      source, and either starts a handshake or counts as a failed one. Otherwise it is opened exactly
      when the window admits its nonce. */
  lemma GenuineFrameStep(c: Setup, s: Server, k: U32, nonce: U64, plain: Bytes, h: nat, src: Addr, now: nat)
    requires c.aead.Lawful() && Consistent(s.table) && s.enabled
    requires k in s.table.byIndex && Fits(plain, MAX_MESSAGE) && nonce != U64_MAX && h !in s.pending
    ensures var l := s.table.byIndex[k];
            var s' := Step(c, s, Udp(h, src, Frame(k, nonce, c.aead.seal(l.session.recvKey, nonce, plain)), now));
            var (ok, hits) := RateLimit.AllowStep(c.limits, s.hits, src.ip, now);
            if k % 256 == 1 then
              s' == s.(hits := hits, received := s.received + 1,
                       pending := if ok then s.pending[h := Begun(src)] else s.pending,
                       handshakesFail := s.handshakesFail + (if ok then 0 else 1))
            else if Admits(l.session.accepted, nonce) then
              s' == s.(table := Followed(s.table, k, nonce, src, now),
                       trace := s.trace + [Opened(l.session.recvKey, nonce, k, l.session.remote, src, now, Police(plain, l.tunnelIp))])
            else s' == s
  {
    var l := s.table.byIndex[k];
    var ct := c.aead.seal(l.session.recvKey, nonce, plain);
    FrameLooksLikeHandshake(k, nonce, ct);
    FrameRoundTrip(k, nonce, ct);
    if k % 256 != 1 {
      GenuineFrameOpens(c.aead, l.session, nonce, plain, MAX_MESSAGE);
      assert s.table.byIndex[k := l] == s.table.byIndex;
    }
  }

  /** In every run, a genuine frame of a live session is opened exactly when the low byte of its
      index is not the handshake type byte and the window admits its nonce. */
  lemma GenuineFrameIsOpened(c: Setup, es: seq<Event>, states: seq<Server>, i: nat,
                             k: U32, nonce: U64, plain: Bytes, h: nat, src: Addr, now: nat)
    requires c.aead.Lawful() && IsRun(c, es, states) && i <= |es| && states[i].enabled
    requires k in states[i].table.byIndex && Fits(plain, MAX_MESSAGE) && nonce != U64_MAX && h !in states[i].pending
    ensures var s, l := states[i], states[i].table.byIndex[k];
            var frame := Frame(k, nonce, c.aead.seal(l.session.recvKey, nonce, plain));
            var s' := Step(c, s, Udp(h, src, frame, now));
            && s'.trace == (if k % 256 != 1 && Admits(l.session.accepted, nonce)
                            then s.trace + [Opened(l.session.recvKey, nonce, k, l.session.remote, src, now, Police(plain, l.tunnelIp))]
                            else s.trace)
            && (k % 256 == 1 <==> s'.received == s.received + 1)
  {
    RunKeepsInv(c, es, states, i);
    GenuineFrameStep(c, states[i], k, nonce, plain, h, src, now);
  }

  /** A reaper tick removes exactly the sessions whose keys were last established, opened under or
      sealed under more than the idle limit ago. */
  lemma IdleReaping(c: Setup, es: seq<Event>, states: seq<Server>, i: nat, now: nat, k: U32)
    requires IsRun(c, es, states) && i <= |es| && k in states[i].table.byIndex
    ensures var s, id := states[i], states[i].table.byIndex[k].session.recvKey.id;
            LastActive(s.trace, id).Some? &&
            (k in Step(c, s, Tick(now)).table.byIndex <==> now <= LastActive(s.trace, id).value + c.idle)
  {
    RunKeepsInv(c, es, states, i);
    assert LiveOk(c, states[i].trace, states[i].ids, states[i].table.byIndex[k]);
  }

  // ---- the rate limiter in the server ----

  /** The limiter call an event makes: one per type-1 datagram, one collection per reaper tick. */
  function CallOf(e: Event): Option<RateLimit.Call> {
    match e
    case Udp(_, src, packet, now) => if IsHandshake(packet) then Some(RateLimit.Allow(src.ip, now)) else None
    case Tick(now) => Some(RateLimit.Gc(now))
    case _ => None
  }

  function CallsOf(es: seq<Event>, i: nat): seq<RateLimit.Call>
    requires i <= |es|
  {
    if i == 0 then []
    else
      var before, call := CallsOf(es, i - 1), CallOf(es[i - 1]);
      if call.Some? then before + [call.value] else before
  }

  /** When handshakes from `ip` were let past the limiter. */
  ghost function AdmittedTimes(es: seq<Event>, states: seq<Server>, i: nat, ip: nat): seq<nat>
    requires |states| == |es| + 1 && i <= |es|
  {
    if i == 0 then []
    else
      var before, e := AdmittedTimes(es, states, i - 1, ip), es[i - 1];
      if e.Udp? && IsHandshake(e.packet) && e.src.ip == ip && e.h in states[i].pending then before + [e.now] else before
  }

  /** A step does to the stored logs what its limiter call does, and lets a handshake begin exactly
      when that call allows it. */
  lemma StepMakesItsCall(c: Setup, s: Server, e: Event)
    requires Possible(s, e)
    ensures Step(c, s, e).hits == match CallOf(e) case None => s.hits case Some(call) => RateLimit.HitsStep(c.limits, s.hits, call)
    ensures e.Udp? && IsHandshake(e.packet) ==>
              (e.h in Step(c, s, e).pending <==> RateLimit.AllowStep(c.limits, s.hits, e.src.ip, e.now).0)
  {
  }

  lemma OrderedPrefix(calls: seq<RateLimit.Call>, more: seq<RateLimit.Call>)
    requires calls <= more && RateLimit.Ordered(more)
    ensures RateLimit.Ordered(calls)
  {
  }

  lemma {:induction false} LimiterFollowsCalls(c: Setup, es: seq<Event>, states: seq<Server>, i: nat, ip: nat)
    requires IsRun(c, es, states) && i <= |es|
    requires 1 <= c.limits.max < U32_LIMIT && RateLimit.Ordered(CallsOf(es, i))
    ensures var calls := CallsOf(es, i);
            && states[i].hits == RateLimit.HitsAfter(c.limits, calls, |calls|)
            && AdmittedTimes(es, states, i, ip) == RateLimit.History(c.limits, calls, |calls|, ip)
  {
    if i == 0 {
    } else {
      var before, e := CallsOf(es, i - 1), es[i - 1];
      OrderedPrefix(before, CallsOf(es, i));
      LimiterFollowsCalls(c, es, states, i - 1, ip);
      StepMakesItsCall(c, states[i - 1], e);
      assert states[i] == Step(c, states[i - 1], e);
      if CallOf(e).Some? {
        RateLimit.OneMoreCall(c.limits, before, CallOf(e).value, ip);
      }
    }
  }

  /** In every server run with a nondecreasing clock, at most k * max handshakes from one address
      get past the limiter in any half-open interval of k windows. */
  lemma HandshakeRateBound(c: Setup, es: seq<Event>, states: seq<Server>, ip: nat, from: nat, k: nat)
    requires IsRun(c, es, states) && 1 <= c.limits.max < U32_LIMIT && RateLimit.Ordered(CallsOf(es, |es|))
    ensures RateLimit.CountIn(AdmittedTimes(es, states, |es|, ip), from, k * c.limits.window) <= k * c.limits.max
  {
    LimiterFollowsCalls(c, es, states, |es|, ip);
    RateLimit.RateBound(c.limits, CallsOf(es, |es|), ip, from, k);
  }

  // ---- index collisions ----

  /** Handshakes are run one at a time, as the single downlink task does. */
  ghost predicate OneAtATime(es: seq<Event>, states: seq<Server>)
    requires |states| == |es| + 1
  {
    forall i :: 0 <= i < |es| && es[i].Udp? && IsHandshake(es[i].packet) ==> states[i].pending == map[]
  }

  ghost predicate ChoiceStillFree(s: Server) {
    && (forall g, h :: g in s.pending && h in s.pending ==> g == h)
    && (forall h :: h in s.pending && s.pending[h].Chosen? ==> s.pending[h].index !in s.table.byIndex)
    && Collided !in s.trace
  }

  lemma StepKeepsChoiceFree(c: Setup, s: Server, e: Event)
    requires Inv(c, s) && Possible(s, e) && ChoiceStillFree(s)
    requires e.Udp? && IsHandshake(e.packet) ==> s.pending == map[]
    ensures ChoiceStillFree(Step(c, s, e))
  {
    match e
    case Udp(h, src, packet, now) =>
      if IsHandshake(packet) {
        BeginKeepsChoiceFree(c, s, h, src, now);
      } else if packet != [] && s.enabled {
        DataKeepsChoiceFree(c, s, src, packet, now);
      }
    case ChooseIndex(h, index) => ChooseKeepsChoiceFree(c, s, h, index);
    case Finish(h, Authenticated(id, remote), now) => FinishKeepsChoiceFree(c, s, h, id, remote, now);
    case Finish(h, Failed, now) =>
    case Tick(now) => TickKeepsChoiceFree(c, s, now);
    case Tun(packet, now) => TunKeepsChoiceFree(c, s, packet, now);
    case SetEnabled(on) =>
  }

  lemma BeginKeepsChoiceFree(c: Setup, s: Server, h: nat, src: Addr, now: nat)
    requires ChoiceStillFree(s) && s.pending == map[]
    ensures ChoiceStillFree(OnHandshake(c, s, h, src, now))
  {
  }

  lemma ChooseKeepsChoiceFree(c: Setup, s: Server, h: nat, index: U32)
    requires ChoiceStillFree(s) && Possible(s, ChooseIndex(h, index))
    ensures ChoiceStillFree(Step(c, s, ChooseIndex(h, index)))
  {
  }

  lemma TickKeepsChoiceFree(c: Setup, s: Server, now: nat)
    requires ChoiceStillFree(s)
    ensures ChoiceStillFree(Step(c, s, Tick(now)))
  {
  }

  lemma DataKeepsChoiceFree(c: Setup, s: Server, src: Addr, packet: Bytes, now: nat)
    requires ChoiceStillFree(s)
    ensures ChoiceStillFree(OnData(c, s, src, packet, now))
  {
    DeliverKeepsIndices(c.aead, s.table, packet, src, now);
  }

  lemma TunKeepsChoiceFree(c: Setup, s: Server, packet: Bytes, now: nat)
    requires Inv(c, s) && ChoiceStillFree(s)
    ensures ChoiceStillFree(OnTun(c, s, packet, now))
  {
    SyncedCounters(c, s);
    RouteKeepsIndices(c.aead, s.table, packet, now);
  }

  lemma DeliverKeepsIndices(a: Aead, t: Table, packet: Bytes, src: Addr, now: nat)
    ensures Deliver(a, t, packet, src, now).0.byIndex.Keys == t.byIndex.Keys
  {
    DeliverCases(a, t, packet, src, now);
  }

  lemma RouteKeepsIndices(a: Aead, t: Table, packet: Bytes, now: nat)
    requires forall i :: i in t.byIndex ==> t.byIndex[i].session.sendNonce == t.byIndex[i].session.cipherNonce
    ensures Route(a, t, packet, now).0.byIndex.Keys == t.byIndex.Keys
  {
    RouteCases(a, t, packet, now);
  }

  lemma FinishKeepsChoiceFree(c: Setup, s: Server, h: nat, id: nat, remote: PubKey, now: nat)
    requires Inv(c, s) && Possible(s, Finish(h, Authenticated(id, remote), now)) && ChoiceStillFree(s)
    ensures ChoiceStillFree(Step(c, s, Finish(h, Authenticated(id, remote), now)))
  {
    var index := s.pending[h].index;
    InstallKeepsConsistent(s.table, c.peers, index, ResponderSession(index, remote, id), s.pending[h].src, now);
  }

  lemma SyncedCounters(c: Setup, s: Server)
    requires Inv(c, s)
    ensures forall i :: i in s.table.byIndex ==> s.table.byIndex[i].session.sendNonce == s.table.byIndex[i].session.cipherNonce
  {
    forall i | i in s.table.byIndex
      ensures LiveOk(c, s.trace, s.ids, s.table.byIndex[i])
    {
    }
  }

  /** With handshakes run one at a time, whatever the reaper and the uplink do between their lock
      sections, the chosen index is still free at insertion and the collision branch is never taken. */
  lemma {:induction false} CollisionUnreachable(c: Setup, es: seq<Event>, states: seq<Server>, i: nat)
    requires IsRun(c, es, states) && i <= |es| && OneAtATime(es, states)
    ensures ChoiceStillFree(states[i])
  {
    if i == 0 {
    } else {
      CollisionUnreachable(c, es, states, i - 1);
      RunKeepsInv(c, es, states, i - 1);
      StepKeepsChoiceFree(c, states[i - 1], es[i - 1]);
    }
  }

  lemma RunExtends(c: Setup, es: seq<Event>, states: seq<Server>, e: Event)
    requires IsRun(c, es, states) && Possible(states[|es|], e)
    ensures IsRun(c, es + [e], states + [Step(c, states[|es|], e)])
  {
  }

  /** A first handshake from a new address gets through the limiter and may choose any free index. */
  lemma BeginAndChoose(c: Setup, es: seq<Event>, states: seq<Server>, h: nat, src: Addr, index: U32)
      returns (es': seq<Event>, states': seq<Server>)
    requires IsRun(c, es, states) && c.limits.max >= 1
    requires var s := states[|es|];
             h !in s.pending && src.ip !in s.hits && index != 0 && index !in s.table.byIndex
    ensures IsRun(c, es', states')
    ensures var s, s' := states[|es|], states'[|es'|];
            && s'.pending == s.pending[h := Chosen(src, index)]
            && s'.hits.Keys == s.hits.Keys + {src.ip}
            && s'.table == s.table && s'.ids == s.ids && s'.trace == s.trace && s'.enabled == s.enabled
  {
    var e1, e2 := Udp(h, src, [1], 0), ChooseIndex(h, index);
    RunExtends(c, es, states, e1);
    var s1 := Step(c, states[|es|], e1);
    assert s1.pending == states[|es|].pending[h := Begun(src)];
    RunExtends(c, es + [e1], states + [s1], e2);
    es', states' := es + [e1] + [e2], states + [s1] + [Step(c, s1, e2)];
  }

  lemma FinishFirst(c: Setup, es: seq<Event>, states: seq<Server>, h: nat, src: Addr, index: U32, id: nat, remote: PubKey)
      returns (es': seq<Event>, states': seq<Server>)
    requires IsRun(c, es, states) && remote in c.peers && index != 0
    requires var s := states[|es|];
             h in s.pending && s.pending[h] == Chosen(src, index) && id !in s.ids && s.table == Table(map[], map[])
    ensures IsRun(c, es', states')
    ensures var s, s' := states[|es|], states'[|es'|];
            && s'.pending == s.pending - {h} && s'.ids == s.ids + {id} && s'.enabled == s.enabled
            && Consistent(s'.table)
            && index in s'.table.byIndex && s'.table.byIndex[index].tunnelIp == c.peers[remote]
  {
    var s, e := states[|es|], Finish(h, Authenticated(id, remote), 0);
    InstallKeepsConsistent(s.table, c.peers, index, ResponderSession(index, remote, id), src, 0);
    RunExtends(c, es, states, e);
    es', states' := es + [e], states + [Step(c, s, e)];
  }

  /** Nothing keeps an index whose low byte is the handshake type byte from being allocated. */
  lemma LookalikeIndexReachable(c: Setup, remote: PubKey) returns (es: seq<Event>, states: seq<Server>, k: U32)
    requires c.limits.max >= 1 && remote in c.peers
    ensures IsRun(c, es, states) && states[|es|].enabled
    ensures k in states[|es|].table.byIndex && k % 256 == 1
  {
    k := 257;
    es, states := BeginAndChoose(c, [], [Start], 0, Addr(1, 1), k);
    es, states := FinishFirst(c, es, states, 0, Addr(1, 1), k, 0, remote);
  }

  lemma FinishSecond(c: Setup, es: seq<Event>, states: seq<Server>, h: nat, src: Addr, index: U32, id: nat, remote: PubKey)
      returns (es': seq<Event>, states': seq<Server>)
    requires IsRun(c, es, states) && remote in c.peers && index != 0
    requires var s := states[|es|];
             && h in s.pending && s.pending[h] == Chosen(src, index) && id !in s.ids && Consistent(s.table)
             && index in s.table.byIndex && s.table.byIndex[index].tunnelIp != c.peers[remote]
    ensures IsRun(c, es', states') && Collided in states'[|es'|].trace
  {
    var s, e := states[|es|], Finish(h, Authenticated(id, remote), 0);
    InstallKeepsConsistent(s.table, c.peers, index, ResponderSession(index, remote, id), src, 0);
    RunExtends(c, es, states, e);
    es', states' := es + [e], states + [Step(c, s, e)];
    assert states'[|es'|].trace == s.trace + [Collided];
  }

  /** With two handshakes in flight the same index can be chosen twice: the later one is refused. */
  lemma CollisionReachable(c: Setup, first: PubKey, second: PubKey) returns (es: seq<Event>, states: seq<Server>)
    requires c.limits.max >= 1 && first in c.peers && second in c.peers && c.peers[first] != c.peers[second]
    ensures IsRun(c, es, states) && Collided in states[|es|].trace
  {
    var a, b := Addr(1, 1), Addr(2, 2);
    es, states := BeginAndChoose(c, [], [Start], 0, a, 7);
    es, states := BeginAndChoose(c, es, states, 1, b, 7);
    es, states := FinishFirst(c, es, states, 0, a, 7, 0, first);
    es, states := FinishSecond(c, es, states, 1, b, 7, 1, second);
  }
}
