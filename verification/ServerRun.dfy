/** The server as a state machine over interleaved steps: datagrams, the phases of any number of
    handshakes in flight, reaper ticks, TUN packets and toggles. */
module ServerRun {
  import opened Prelude
  import opened Replay
  import opened Crypto
  import opened Ipv4
  import opened Config
  import opened ServerTable
  import RateLimit

  datatype Setup = Setup(aead: Aead, peers: map<PubKey, Ip>, limits: RateLimit.Limits, idle: nat)

  /** A handshake between lock sections: past the rate limiter, then holding a chosen index. */
  datatype Phase = Begun(src: Addr) | Chosen(src: Addr, index: U32)

  /** How the Noise exchange of a handshake ends; `id` names the fresh pair of transport keys. */
  datatype Noise = Failed | Authenticated(id: nat, remote: PubKey)

  /** What an observer with the keys would record. */
  datatype Note =
    | Established(id: nat, remote: PubKey, src: Addr, at: nat)
    | Opened(key: Key, nonce: nat, index: U32, remote: PubKey, src: Addr, at: nat, verdict: Verdict)
    | Emitted(key: Key, nonce: nat, remote: PubKey, packet: Bytes, to: Addr, at: nat)
    | Collided

  datatype Server = Server(
    table: Table,
    hits: RateLimit.Hits,
    pending: map<nat, Phase>,
    enabled: bool,
    ids: set<nat>,
    trace: seq<Note>,
    received: nat,
    handshakesOk: nat,
    handshakesFail: nat)

  datatype Event =
    | Udp(h: nat, src: Addr, packet: Bytes, now: nat)
    | ChooseIndex(h: nat, index: U32)
    | Finish(h: nat, outcome: Noise, now: nat)
    | Tick(now: nat)
    | Tun(packet: Bytes, now: nat)
    | SetEnabled(on: bool)

  const Start: Server := Server(Table(map[], map[]), map[], map[], true, {}, [], 0, 0, 0)

  predicate IsHandshake(packet: Bytes) {
    packet != [] && packet[0] == 1
  }

  predicate Possible(s: Server, e: Event) {
    match e
    case Udp(h, _, packet, _) => IsHandshake(packet) ==> h !in s.pending
    case ChooseIndex(h, index) => h in s.pending && s.pending[h].Begun? && index != 0 && index !in s.table.byIndex
    case Finish(h, Failed, _) => h in s.pending
    case Finish(h, Authenticated(id, _), _) => h in s.pending && s.pending[h].Chosen? && id !in s.ids
    case _ => true
  }

  function OnHandshake(c: Setup, s: Server, h: nat, src: Addr, now: nat): Server {
    var (ok, hits) := RateLimit.AllowStep(c.limits, s.hits, src.ip, now);
    var s1 := s.(hits := hits, received := s.received + 1);
    if ok then s1.(pending := s.pending[h := Begun(src)]) else s1.(handshakesFail := s.handshakesFail + 1)
  }

  function Extend(trace: seq<Note>, n: Option<Note>): seq<Note> {
    if n.None? then trace else trace + [n.value]
  }

  /** Recorded when a data frame was decrypted, whatever the forwarding policy then says. */
  function OpenedNote(t: Table, packet: Bytes, src: Addr, now: nat, v: Verdict): Option<Note> {
    if (v.Keepalive? || v.PolicyDrop? || v.Forward?) && |packet| >= HEADER && FrameIndex(packet) in t.byIndex then
      var session := t.byIndex[FrameIndex(packet)].session;
      Some(Opened(session.recvKey, FrameNonce(packet), FrameIndex(packet), session.remote, src, now, v))
    else None
  }

  /** Recorded when a TUN packet was sealed and sent. */
  function EmittedNote(t: Table, packet: Bytes, now: nat, u: Uplink): Option<Note> {
    var d := Destination(packet);
    if u.Transmit? && d.Some? && d.value in t.byIp && t.byIp[d.value] in t.byIndex then
      var session := t.byIndex[t.byIp[d.value]].session;
      Some(Emitted(session.sendKey, session.cipherNonce, session.remote, packet, u.to, now))
    else None
  }

  function FinishNote(r: Result<U32, HandshakeError>, id: nat, remote: PubKey, src: Addr, now: nat): Option<Note> {
    match r
    case Ok(_) => Some(Established(id, remote, src, now))
    case Err(IndexCollision) => Some(Collided)
    case Err(_) => None
  }

  function OnData(c: Setup, s: Server, src: Addr, packet: Bytes, now: nat): Server {
    var (t, v) := Deliver(c.aead, s.table, packet, src, now);
    s.(table := t, trace := Extend(s.trace, OpenedNote(s.table, packet, src, now, v)))
  }

  function OnTun(c: Setup, s: Server, packet: Bytes, now: nat): Server {
    var (t, u) := Route(c.aead, s.table, packet, now);
    s.(table := t, trace := Extend(s.trace, EmittedNote(s.table, packet, now, u)))
  }

  function OnFinish(c: Setup, s: Server, h: nat, src: Addr, index: U32, id: nat, remote: PubKey, now: nat): Server {
    var (t, r) := Install(s.table, c.peers, index, ResponderSession(index, remote, id), src, now);
    s.(table := t, pending := s.pending - {h}, ids := s.ids + {id},
       trace := Extend(s.trace, FinishNote(r, id, remote, src, now)),
       handshakesOk := s.handshakesOk + (if r.Ok? then 1 else 0),
       handshakesFail := s.handshakesFail + (if r.Ok? then 0 else 1))
  }

  function Step(c: Setup, s: Server, e: Event): Server
    requires Possible(s, e)
  {
    match e
    case Udp(h, src, packet, now) =>
      if packet == [] then s
      else if packet[0] == 1 then OnHandshake(c, s, h, src, now)
      else if !s.enabled then s
      else OnData(c, s, src, packet, now)
    case ChooseIndex(h, index) => s.(pending := s.pending[h := Chosen(s.pending[h].src, index)])
    case Finish(h, Failed, _) => s.(pending := s.pending - {h}, handshakesFail := s.handshakesFail + 1)
    case Finish(h, Authenticated(id, remote), now) =>
      OnFinish(c, s, h, s.pending[h].src, s.pending[h].index, id, remote, now)
    case Tick(now) =>
      s.(table := Reap(s.table, now, c.idle), hits := RateLimit.GcStep(c.limits, s.hits, now))
    case Tun(packet, now) => if s.enabled then OnTun(c, s, packet, now) else s
    case SetEnabled(on) => s.(enabled := on)
  }

  /** What a step records. */
  function NoteOf(c: Setup, s: Server, e: Event): Option<Note>
    requires Possible(s, e)
  {
    match e
    case Udp(h, src, packet, now) =>
      if packet == [] || packet[0] == 1 || !s.enabled then None
      else OpenedNote(s.table, packet, src, now, Deliver(c.aead, s.table, packet, src, now).1)
    case Finish(h, Authenticated(id, remote), now) =>
      var p := s.pending[h];
      FinishNote(Install(s.table, c.peers, p.index, ResponderSession(p.index, remote, id), p.src, now).1, id, remote, p.src, now)
    case Tun(packet, now) =>
      if s.enabled then EmittedNote(s.table, packet, now, Route(c.aead, s.table, packet, now).1) else None
    case _ => None
  }

  lemma StepRecords(c: Setup, s: Server, e: Event)
    requires Possible(s, e)
    ensures Step(c, s, e).trace == Extend(s.trace, NoteOf(c, s, e))
  {
  }

  lemma OnlyTunEmits(c: Setup, s: Server, e: Event)
    requires Possible(s, e)
    ensures var n := NoteOf(c, s, e);
            n.Some? && n.value.Emitted? ==>
              e.Tun? && s.enabled && n == EmittedNote(s.table, e.packet, e.now, Route(c.aead, s.table, e.packet, e.now).1)
  {
  }

  /** The states after each prefix of a run. */
  ghost predicate IsRun(c: Setup, es: seq<Event>, states: seq<Server>) {
    && |states| == |es| + 1
    && states[0] == Start
    && forall i :: 0 <= i < |es| ==> Possible(states[i], es[i]) && states[i + 1] == Step(c, states[i], es[i])
  }

  // ---- the invariant ----

  function IdOf(n: Note): Option<nat> {
    match n
    case Established(id, _, _, _) => Some(id)
    case Opened(key, _, _, _, _, _, _) => Some(key.id)
    case Emitted(key, _, _, _, _, _) => Some(key.id)
    case Collided => None
  }

  /** The (key, nonce) pair a note consumes. */
  function UseOf(n: Note): Option<(Key, nat)> {
    match n
    case Opened(key, nonce, _, _, _, _, _) => Some((key, nonce))
    case Emitted(key, nonce, _, _, _, _) => Some((key, nonce))
    case _ => None
  }

  /** The source of handshake `id`, or of the latest frame opened under its keys since. */
  function LastSource(trace: seq<Note>, id: nat): Option<Addr> {
    if trace == [] then None
    else match trace[|trace| - 1]
      case Established(id', _, src, _) => if id' == id then Some(src) else LastSource(trace[..|trace| - 1], id)
      case Opened(key, _, _, _, src, _, _) => if key.id == id then Some(src) else LastSource(trace[..|trace| - 1], id)
      case _ => LastSource(trace[..|trace| - 1], id)
  }

  lemma LastSourceAppend(trace: seq<Note>, n: Note, id: nat)
    ensures LastSource(trace + [n], id) ==
            if n.Established? && n.id == id then Some(n.src)
            else if n.Opened? && n.key.id == id then Some(n.src)
            else LastSource(trace, id)
  {
    assert (trace + [n])[..|trace|] == trace;
  }

  /** When the keys `id` were last established, opened under or sealed under. */
  function LastActive(trace: seq<Note>, id: nat): Option<nat> {
    if trace == [] then None
    else if IdOf(trace[|trace| - 1]) == Some(id) then Some(trace[|trace| - 1].at)
    else LastActive(trace[..|trace| - 1], id)
  }

  lemma LastActiveAppend(trace: seq<Note>, n: Note, id: nat)
    ensures LastActive(trace + [n], id) == if IdOf(n) == Some(id) then Some(n.at) else LastActive(trace, id)
  {
    assert (trace + [n])[..|trace|] == trace;
  }

  predicate HandshookWith(trace: seq<Note>, id: nat, remote: PubKey) {
    exists n | n in trace :: n.Established? && n.id == id && n.remote == remote
  }

  /** Isolation, as seen from one note. */
  predicate NoteOk(c: Setup, trace: seq<Note>, ids: set<nat>, n: Note) {
    match n
    case Established(id, remote, _, _) => id in ids && remote in c.peers
    case Opened(key, _, index, remote, _, _, verdict) =>
      && key.id in ids && key.fromInitiator
      && remote in c.peers && HandshookWith(trace, key.id, remote)
      && index % 256 != 1
      && (verdict.Forward? ==> Source(verdict.packet) == Some(c.peers[remote]))
    case Emitted(key, _, remote, packet, _, _) =>
      && key.id in ids && !key.fromInitiator
      && remote in c.peers && HandshookWith(trace, key.id, remote)
      && Destination(packet) == Some(c.peers[remote])
    case Collided => true
  }

  ghost predicate UsesDistinct(trace: seq<Note>) {
    forall i, j :: 0 <= i < j < |trace| && UseOf(trace[i]).Some? ==> UseOf(trace[i]) != UseOf(trace[j])
  }

  ghost predicate TraceOk(c: Setup, trace: seq<Note>, ids: set<nat>) {
    UsesDistinct(trace) && forall n :: n in trace ==> NoteOk(c, trace, ids, n)
  }

  /** A live session: its keys are fresh, its counters agree, everything opened or sealed under its
      keys is accounted for, and its address is the source of its handshake or of its latest opened
      frame. */
  ghost predicate LiveOk(c: Setup, trace: seq<Note>, ids: set<nat>, l: LiveSession) {
    var ss, id := l.session, l.session.recvKey.id;
    && id in ids && ss.recvKey == Key(id, true) && ss.sendKey == Key(id, false)
    && ss.remote in c.peers && c.peers[ss.remote] == l.tunnelIp && HandshookWith(trace, id, ss.remote)
    && ss.sendNonce == ss.cipherNonce
    && (forall n :: n in trace && n.Opened? && n.key == ss.recvKey ==> n.nonce in ss.accepted)
    && (forall n :: n in trace && n.Emitted? && n.key == ss.sendKey ==> n.nonce < ss.cipherNonce)
    && LastSource(trace, id) == Some(l.peerAddr) && LastActive(trace, id) == Some(l.lastSeen)
  }

  ghost predicate AllLiveOk(c: Setup, t: Table, trace: seq<Note>, ids: set<nat>) {
    && (forall i :: i in t.byIndex ==> LiveOk(c, trace, ids, t.byIndex[i]))
    && (forall i, j :: i in t.byIndex && j in t.byIndex && i != j ==>
          t.byIndex[i].session.recvKey.id != t.byIndex[j].session.recvKey.id)
  }

  predicate PendingOk(pending: map<nat, Phase>) {
    forall h :: h in pending && pending[h].Chosen? ==> pending[h].index != 0
  }

  ghost predicate CoreInv(c: Setup, t: Table, trace: seq<Note>, ids: set<nat>) {
    Consistent(t) && AllLiveOk(c, t, trace, ids) && TraceOk(c, trace, ids)
  }

  ghost predicate Inv(c: Setup, s: Server) {
    CoreInv(c, s.table, s.trace, s.ids) && Accounted(s)
  }

  // ---- extending the trace ----

  lemma NoteOkStays(c: Setup, trace: seq<Note>, ids: set<nat>, more: set<nat>, n: Note, m: Note)
    requires NoteOk(c, trace, ids, m) && ids <= more
    ensures NoteOk(c, trace + [n], more, m)
  {
    if m.Opened? || m.Emitted? {
      HandshookStays(trace, n, m.key.id, m.remote);
    }
  }

  lemma HandshookStays(trace: seq<Note>, n: Note, id: nat, remote: PubKey)
    requires HandshookWith(trace, id, remote)
    ensures HandshookWith(trace + [n], id, remote)
  {
    var e :| e in trace && e.Established? && e.id == id && e.remote == remote;
    assert e in trace + [n];
  }

  lemma TraceExtends(c: Setup, trace: seq<Note>, ids: set<nat>, more: set<nat>, n: Note)
    requires TraceOk(c, trace, ids) && ids <= more && NoteOk(c, trace + [n], more, n)
    requires UseOf(n).Some? ==> forall m :: m in trace ==> UseOf(m) != UseOf(n)
    ensures TraceOk(c, trace + [n], more)
  {
    forall m | m in trace + [n]
      ensures NoteOk(c, trace + [n], more, m)
    {
      if m in trace {
        NoteOkStays(c, trace, ids, more, n, m);
      }
    }
    forall i, j | 0 <= i < j < |trace + [n]| && UseOf((trace + [n])[i]).Some?
      ensures UseOf((trace + [n])[i]) != UseOf((trace + [n])[j])
    {
      assert trace[i] in trace;
    }
  }

  /** A session is not affected by notes about other keys. */
  lemma LiveUnaffected(c: Setup, trace: seq<Note>, ids: set<nat>, more: set<nat>, n: Note, l: LiveSession)
    requires LiveOk(c, trace, ids, l) && ids <= more && IdOf(n) != Some(l.session.recvKey.id)
    ensures LiveOk(c, trace + [n], more, l)
  {
    LastSourceAppend(trace, n, l.session.recvKey.id);
    LastActiveAppend(trace, n, l.session.recvKey.id);
    HandshookStays(trace, n, l.session.recvKey.id, l.session.remote);
  }

  lemma AllUnaffected(c: Setup, t: Table, trace: seq<Note>, ids: set<nat>, more: set<nat>, n: Note)
    requires AllLiveOk(c, t, trace, ids) && ids <= more
    requires forall i :: i in t.byIndex ==> IdOf(n) != Some(t.byIndex[i].session.recvKey.id)
    ensures AllLiveOk(c, t, trace + [n], more)
  {
    forall i | i in t.byIndex
      ensures LiveOk(c, trace + [n], more, t.byIndex[i])
    {
      LiveUnaffected(c, trace, ids, more, n, t.byIndex[i]);
    }
  }

  /** One session uses its key once more; the others are unaffected. */
  lemma OneSessionMoves(c: Setup, t: Table, trace: seq<Note>, ids: set<nat>, n: Note, i: U32, l: LiveSession)
    requires AllLiveOk(c, t, trace, ids) && i in t.byIndex
    requires IdOf(n) == Some(t.byIndex[i].session.recvKey.id) == Some(l.session.recvKey.id)
    requires LiveOk(c, trace + [n], ids, l)
    ensures AllLiveOk(c, t.(byIndex := t.byIndex[i := l]), trace + [n], ids)
  {
    forall j | j in t.byIndex && j != i
      ensures LiveOk(c, trace + [n], ids, t.byIndex[j])
    {
      LiveUnaffected(c, trace, ids, ids, n, t.byIndex[j]);
    }
  }

  lemma FrameFirstByte(packet: Bytes)
    requires |packet| >= 4
    ensures FrameIndex(packet) % 256 == packet[0]
  {
    assert packet[..4][1..] == packet[1..4];
  }

  // ---- each step ----

  /** Decrypting a frame under its session's key: the nonce was new to every note. */
  lemma OpenedSessionOk(c: Setup, trace: seq<Note>, ids: set<nat>, live: LiveSession, n: Note, now: nat)
    requires LiveOk(c, trace, ids, live) && TraceOk(c, trace, ids)
    requires n.Opened? && n.key == live.session.recvKey && n.remote == live.session.remote
    requires Admits(live.session.accepted, n.nonce) && n.index % 256 != 1 && n.at == now
    requires n.verdict.Forward? ==> Source(n.verdict.packet) == Some(live.tunnelIp)
    ensures var s' := live.session.(accepted := live.session.accepted + {n.nonce});
            LiveOk(c, trace + [n], ids, live.(session := s', peerAddr := n.src, lastSeen := now))
    ensures TraceOk(c, trace + [n], ids)
  {
    LastSourceAppend(trace, n, live.session.recvKey.id);
    LastActiveAppend(trace, n, live.session.recvKey.id);
    HandshookStays(trace, n, live.session.recvKey.id, live.session.remote);
    forall m | m in trace
      ensures UseOf(m) != UseOf(n)
    {
      assert NoteOk(c, trace, ids, m);
    }
    TraceExtends(c, trace, ids, ids, n);
  }

  /** Sealing under a session's key: its counter was never used before. */
  lemma EmittedSessionOk(c: Setup, trace: seq<Note>, ids: set<nat>, live: LiveSession, n: Note, now: nat)
    requires LiveOk(c, trace, ids, live) && TraceOk(c, trace, ids)
    requires n.Emitted? && n.key == live.session.sendKey && n.remote == live.session.remote
    requires n.nonce == live.session.cipherNonce < U64_MAX && n.at == now
    requires Destination(n.packet) == Some(live.tunnelIp)
    ensures var s' := live.session.(sendNonce := live.session.sendNonce + 1, cipherNonce := live.session.cipherNonce + 1);
            LiveOk(c, trace + [n], ids, live.(session := s', lastSeen := now))
    ensures TraceOk(c, trace + [n], ids)
  {
    LastSourceAppend(trace, n, live.session.recvKey.id);
    LastActiveAppend(trace, n, live.session.recvKey.id);
    HandshookStays(trace, n, live.session.recvKey.id, live.session.remote);
    forall m | m in trace
      ensures UseOf(m) != UseOf(n)
    {
      assert NoteOk(c, trace, ids, m);
    }
    TraceExtends(c, trace, ids, ids, n);
  }

  /** The session at index `i` becomes `l` and note `n` is recorded. */
  lemma MoveKeepsCore(c: Setup, t: Table, trace: seq<Note>, ids: set<nat>, n: Note, i: U32, l: LiveSession)
    requires CoreInv(c, t, trace, ids) && i in t.byIndex
    requires l.session.index == i && l.tunnelIp == t.byIndex[i].tunnelIp
    requires IdOf(n) == Some(t.byIndex[i].session.recvKey.id) == Some(l.session.recvKey.id)
    requires LiveOk(c, trace + [n], ids, l) && TraceOk(c, trace + [n], ids)
    ensures CoreInv(c, t.(byIndex := t.byIndex[i := l]), trace + [n], ids)
  {
    UpdateKeepsConsistent(t, i, l);
    OneSessionMoves(c, t, trace, ids, n, i, l);
  }

  /** A frame that fails to decrypt may mark its nonce, and nothing else. */
  lemma TouchKeepsCore(c: Setup, t: Table, trace: seq<Note>, ids: set<nat>, i: U32, accepted: set<nat>)
    requires CoreInv(c, t, trace, ids) && i in t.byIndex && t.byIndex[i].session.accepted <= accepted
    ensures CoreInv(c, Touched(t, i, accepted), trace, ids)
  {
    var l := Touched(t, i, accepted).byIndex[i];
    UpdateKeepsConsistent(t, i, l);
    AcceptingMoreKeepsLive(c, trace, ids, t.byIndex[i], accepted);
    ReplaceKeepsLive(c, t, trace, ids, i, l);
  }

  lemma AcceptingMoreKeepsLive(c: Setup, trace: seq<Note>, ids: set<nat>, l: LiveSession, accepted: set<nat>)
    requires LiveOk(c, trace, ids, l) && l.session.accepted <= accepted
    ensures LiveOk(c, trace, ids, l.(session := l.session.(accepted := accepted)))
  {
  }

  lemma ReplaceKeepsLive(c: Setup, t: Table, trace: seq<Note>, ids: set<nat>, i: U32, l: LiveSession)
    requires AllLiveOk(c, t, trace, ids) && i in t.byIndex
    requires LiveOk(c, trace, ids, l) && l.session.recvKey.id == t.byIndex[i].session.recvKey.id
    ensures AllLiveOk(c, t.(byIndex := t.byIndex[i := l]), trace, ids)
  {
  }

  lemma DataKeepsCore(c: Setup, t: Table, trace: seq<Note>, ids: set<nat>, src: Addr, packet: Bytes, now: nat)
    requires CoreInv(c, t, trace, ids) && packet != [] && packet[0] != 1
    ensures var (t', v) := Deliver(c.aead, t, packet, src, now);
            CoreInv(c, t', Extend(trace, OpenedNote(t, packet, src, now, v)), ids)
  {
    var (t', v) := Deliver(c.aead, t, packet, src, now);
    DeliverCases(c.aead, t, packet, src, now);
    var note := OpenedNote(t, packet, src, now, v);
    if |packet| >= HEADER && FrameIndex(packet) in t.byIndex {
      var i, x := FrameIndex(packet), FrameNonce(packet);
      var live := t.byIndex[i];
      if v.DecryptFailed? {
        assert note == None;
        TouchKeepsCore(c, t, trace, ids, i, t'.byIndex[i].session.accepted);
        assert CoreInv(c, t', trace, ids);
      } else {
        FrameFirstByte(packet);
        var n := Opened(live.session.recvKey, x, i, live.session.remote, src, now, v);
        OpenedSessionOk(c, trace, ids, live, n, now);
        MoveKeepsCore(c, t, trace, ids, n, i, Followed(t, i, x, src, now).byIndex[i]);
        assert note == Some(n);
        assert CoreInv(c, t', trace + [n], ids);
      }
    } else {
      assert note == None;
    }
  }

  lemma TunKeepsCore(c: Setup, t: Table, trace: seq<Note>, ids: set<nat>, packet: Bytes, now: nat)
    requires CoreInv(c, t, trace, ids)
    ensures var (t', u) := Route(c.aead, t, packet, now);
            CoreInv(c, t', Extend(trace, EmittedNote(t, packet, now, u)), ids)
  {
    var (t', u) := Route(c.aead, t, packet, now);
    RouteCases(c.aead, t, packet, now);
    if u.Transmit? {
      var i := t.byIp[Destination(packet).value];
      var live := t.byIndex[i];
      var n := Emitted(live.session.sendKey, live.session.cipherNonce, live.session.remote, packet, u.to, now);
      EmittedSessionOk(c, trace, ids, live, n, now);
      MoveKeepsCore(c, t, trace, ids, n, i, Counted(t, i, now).byIndex[i]);
    }
  }

  lemma SubtableKeepsLive(c: Setup, t: Table, t': Table, trace: seq<Note>, ids: set<nat>)
    requires AllLiveOk(c, t, trace, ids)
    requires forall i :: i in t'.byIndex ==> i in t.byIndex && t'.byIndex[i] == t.byIndex[i]
    ensures AllLiveOk(c, t', trace, ids)
  {
  }

  lemma LiveWithMoreIds(c: Setup, t: Table, trace: seq<Note>, ids: set<nat>, more: set<nat>)
    requires AllLiveOk(c, t, trace, ids) && TraceOk(c, trace, ids) && ids <= more
    ensures AllLiveOk(c, t, trace, more) && TraceOk(c, trace, more)
  {
  }

  lemma FinishKeepsCore(c: Setup, t: Table, trace: seq<Note>, ids: set<nat>,
                        src: Addr, index: U32, id: nat, remote: PubKey, now: nat)
    requires CoreInv(c, t, trace, ids) && index != 0 && id !in ids
    ensures var (t', r) := Install(t, c.peers, index, ResponderSession(index, remote, id), src, now);
            CoreInv(c, t', Extend(trace, FinishNote(r, id, remote, src, now)), ids + {id})
  {
    var (t', r) := Install(t, c.peers, index, ResponderSession(index, remote, id), src, now);
    InstallKeepsConsistent(t, c.peers, index, ResponderSession(index, remote, id), src, now);
    InstallAnswers(t, c.peers, index, ResponderSession(index, remote, id), src, now);
    OutcomeKeepsCore(c, t, t', r, trace, ids, src, index, id, remote, now);
  }

  lemma OutcomeKeepsCore(c: Setup, t: Table, t': Table, r: Result<U32, HandshakeError>, trace: seq<Note>, ids: set<nat>,
                         src: Addr, index: U32, id: nat, remote: PubKey, now: nat)
    requires CoreInv(c, t, trace, ids) && Consistent(t') && id !in ids
    requires r.Ok? ==> && remote in c.peers && index in t'.byIndex
                       && t'.byIndex[index] == LiveSession(ResponderSession(index, remote, id), src, c.peers[remote], now, now)
    requires forall i :: i in t'.byIndex && !(r.Ok? && i == index) ==> i in t.byIndex && t'.byIndex[i] == t.byIndex[i]
    ensures CoreInv(c, t', Extend(trace, FinishNote(r, id, remote, src, now)), ids + {id})
  {
    if r.Ok? {
      InstalledKeepsCore(c, t, t', trace, ids, src, index, id, remote, now);
    } else {
      FailedFinishKeepsCore(c, t, t', trace, ids, id);
    }
  }

  lemma InstallAnswers(t: Table, peers: map<PubKey, Ip>, index: U32, session: SessionState, src: Addr, now: nat)
    ensures var (t', r) := Install(t, peers, index, session, src, now);
            r.Ok? ==> session.remote in peers && index in t'.byIndex
  {
  }

  lemma InstalledKeepsCore(c: Setup, t: Table, t': Table, trace: seq<Note>, ids: set<nat>,
                           src: Addr, index: U32, id: nat, remote: PubKey, now: nat)
    requires CoreInv(c, t, trace, ids) && Consistent(t') && id !in ids && remote in c.peers && index in t'.byIndex
    requires t'.byIndex[index] == LiveSession(ResponderSession(index, remote, id), src, c.peers[remote], now, now)
    requires forall i :: i in t'.byIndex && i != index ==> i in t.byIndex && t'.byIndex[i] == t.byIndex[i]
    ensures CoreInv(c, t', trace + [Established(id, remote, src, now)], ids + {id})
  {
    var n := Established(id, remote, src, now);
    TraceExtends(c, trace, ids, ids + {id}, n);
    forall i | i in t'.byIndex
      ensures LiveOk(c, trace + [n], ids + {id}, t'.byIndex[i])
      ensures i != index ==> t'.byIndex[i].session.recvKey.id in ids
    {
      if i == index {
        NewSessionOk(c, trace, ids, index, id, remote, src, now);
      } else {
        LiveUnaffected(c, trace, ids, ids + {id}, n, t.byIndex[i]);
      }
    }
  }

  lemma FailedFinishKeepsCore(c: Setup, t: Table, t': Table, trace: seq<Note>, ids: set<nat>, id: nat)
    requires CoreInv(c, t, trace, ids) && Consistent(t')
    requires forall i :: i in t'.byIndex ==> i in t.byIndex && t'.byIndex[i] == t.byIndex[i]
    ensures CoreInv(c, t', trace, ids + {id}) && CoreInv(c, t', trace + [Collided], ids + {id})
  {
    SubtableKeepsLive(c, t, t', trace, ids);
    LiveWithMoreIds(c, t', trace, ids, ids + {id});
    AllUnaffected(c, t', trace, ids, ids + {id}, Collided);
    TraceExtends(c, trace, ids, ids + {id}, Collided);
  }

  lemma NewSessionOk(c: Setup, trace: seq<Note>, ids: set<nat>, index: U32, id: nat, remote: PubKey, src: Addr, now: nat)
    requires TraceOk(c, trace, ids) && id !in ids && remote in c.peers
    ensures LiveOk(c, trace + [Established(id, remote, src, now)], ids + {id},
                   LiveSession(ResponderSession(index, remote, id), src, c.peers[remote], now, now))
  {
    var n := Established(id, remote, src, now);
    LastSourceAppend(trace, n, id);
    LastActiveAppend(trace, n, id);
    assert n in trace + [n];
    forall m | m in trace + [n]
      ensures m.Opened? ==> m.key.id != id
      ensures m.Emitted? ==> m.key.id != id
    {
      if m in trace {
        assert NoteOk(c, trace, ids, m);
      }
    }
  }

  lemma RemovePending(pending: map<nat, Phase>, h: nat)
    requires h in pending
    ensures |pending - {h}| == |pending| - 1
  {
    assert pending.Keys == (pending - {h}).Keys + {h};
  }

  lemma AddPending(pending: map<nat, Phase>, h: nat, p: Phase)
    ensures |pending[h := p]| == if h in pending then |pending| else |pending| + 1
  {
    assert pending[h := p].Keys == pending.Keys + {h};
  }

  lemma StepKeepsCore(c: Setup, s: Server, e: Event)
    requires Inv(c, s) && Possible(s, e)
    ensures var s' := Step(c, s, e);
            CoreInv(c, s'.table, s'.trace, s'.ids)
  {
    match e
    case Udp(h, src, packet, now) =>
      if packet != [] && packet[0] != 1 && s.enabled {
        DataKeepsCore(c, s.table, s.trace, s.ids, src, packet, now);
      }
    case Finish(h, Authenticated(id, remote), now) =>
      FinishKeepsCore(c, s.table, s.trace, s.ids, s.pending[h].src, s.pending[h].index, id, remote, now);
    case Tick(now) =>
      ReapKeepsConsistent(s.table, now, c.idle);
      SubtableKeepsLive(c, s.table, Reap(s.table, now, c.idle), s.trace, s.ids);
    case Tun(packet, now) =>
      TunKeepsCore(c, s.table, s.trace, s.ids, packet, now);
    case _ =>
  }

  /** Every type-1 datagram is either still in progress or was counted exactly once. */
  predicate Accounted(s: Server) {
    PendingOk(s.pending) && s.handshakesOk + s.handshakesFail + |s.pending| == s.received
  }

  lemma FinishIsCounted(c: Setup, s: Server, h: nat, outcome: Noise, now: nat)
    requires Accounted(s) && Possible(s, Finish(h, outcome, now))
    ensures Accounted(Step(c, s, Finish(h, outcome, now)))
  {
    RemovePending(s.pending, h);
  }

  lemma StepKeepsCounts(c: Setup, s: Server, e: Event)
    requires Accounted(s) && Possible(s, e)
    ensures Accounted(Step(c, s, e))
  {
    match e
    case Udp(h, src, packet, now) => AddPending(s.pending, h, Begun(src));
    case ChooseIndex(h, index) => AddPending(s.pending, h, Chosen(s.pending[h].src, index));
    case Finish(h, outcome, now) => FinishIsCounted(c, s, h, outcome, now);
    case _ =>
  }

  lemma {:induction false} RunKeepsInv(c: Setup, es: seq<Event>, states: seq<Server>, i: nat)
    requires IsRun(c, es, states) && i <= |es|
    ensures Inv(c, states[i])
  {
    if i == 0 {
    } else {
      RunKeepsInv(c, es, states, i - 1);
      StepKeepsCore(c, states[i - 1], es[i - 1]);
      StepKeepsCounts(c, states[i - 1], es[i - 1]);
    }
  }
}
