/** The server together with the peers it made keys with. Peers seal and open with those keys; the
    network in between delivers any bytes at any time, and only the cipher, ideal on what has been
    sealed so far, limits what it can achieve. */
module EndToEnd {
  import opened Prelude
  import opened Replay
  import opened Crypto
  import opened Ipv4
  import opened Config
  import opened ServerTable
  import opened ServerRun
  import Channel
  import ServerGuarantees

  /** `peers[id]` is the initiator's end of handshake `id`; `table` is everything sealed so far. */
  datatype World = World(server: Server, peers: map<nat, Channel.End>, table: set<Channel.Sealing>)

  /** A peer joins with whatever index the handshake response carried, which is not authenticated. */
  datatype Move =
    | AtServer(e: Event)
    | Joins(id: nat, index: U32, serverKey: PubKey)
    | PeerSends(id: nat, plaintext: Bytes, room: nat)
    | PeerReceives(id: nat, packet: Bytes)

  const Beginning: World := World(Start, map[], {})

  /** What a server step seals. */
  function SealedIn(n: Option<Note>): set<Channel.Sealing> {
    match n
    case Some(Emitted(key, nonce, _, packet, _, _)) => {Channel.Sealing(key, nonce, packet)}
    case _ => {}
  }

  /** The cipher is ideal on this datagram under the key of the session it names. */
  predicate UnforgedThere(c: Setup, w: World, packet: Bytes) {
    var live := w.server.table.byIndex;
    |packet| >= HEADER && FrameIndex(packet) in live ==>
      Channel.Unforged(c.aead, w.table, live[FrameIndex(packet)].session.recvKey, packet)
  }

  predicate Allowed(c: Setup, w: World, m: Move) {
    match m
    case AtServer(e) => Possible(w.server, e) && (e.Udp? ==> UnforgedThere(c, w, e.packet))
    case Joins(id, _, _) => id in w.server.ids && id !in w.peers
    case PeerSends(id, _, room) => id in w.peers && room <= MAX_MESSAGE
    case PeerReceives(id, packet) =>
      id in w.peers && Channel.Unforged(c.aead, w.table, w.peers[id].session.recvKey, packet)
  }

  function Sends(a: Aead, w: World, id: nat, plaintext: Bytes, room: nat): World
    requires id in w.peers
  {
    var p := w.peers[id];
    var (s, r) := EncryptStep(a, p.session, plaintext, room);
    if r.Err? then w.(peers := w.peers[id := p.(session := s)])
    else w.(peers := w.peers[id := p.(session := s, sent := p.sent + [plaintext])],
            table := w.table + {Channel.Sealing(p.session.sendKey, p.session.cipherNonce, plaintext)})
  }

  function Receives(a: Aead, w: World, id: nat, packet: Bytes): World
    requires id in w.peers
  {
    var p := w.peers[id];
    var (s, r) := DecryptStep(a, p.session, packet, MAX_MESSAGE);
    if r.Err? then w.(peers := w.peers[id := p.(session := s)])
    else w.(peers := w.peers[id := p.(session := s, got := p.got + [Channel.Delivery(FrameNonce(packet), r.value)])])
  }

  function After(c: Setup, w: World, m: Move): World
    requires Allowed(c, w, m)
  {
    match m
    case AtServer(e) => w.(server := Step(c, w.server, e), table := w.table + SealedIn(NoteOf(c, w.server, e)))
    case Joins(id, index, serverKey) =>
      w.(peers := w.peers[id := Channel.End(InitiatorSession(index, serverKey, id), [], [])])
    case PeerSends(id, plaintext, room) => Sends(c.aead, w, id, plaintext, room)
    case PeerReceives(id, packet) => Receives(c.aead, w, id, packet)
  }

  ghost predicate IsHistory(c: Setup, ms: seq<Move>, ws: seq<World>) {
    && |ws| == |ms| + 1
    && ws[0] == Beginning
    && forall i :: 0 <= i < |ms| ==> Allowed(c, ws[i], ms[i]) && ws[i + 1] == After(c, ws[i], ms[i])
  }

  // ---- what was sent under a key ----

  /** The packets the server sealed for handshake `id`, in order. */
  function EmittedUnder(trace: seq<Note>, id: nat): seq<Bytes> {
    if trace == [] then []
    else
      var before, n := EmittedUnder(trace[..|trace| - 1], id), trace[|trace| - 1];
      if n.Emitted? && n.key.id == id then before + [n.packet] else before
  }

  lemma EmittedUnderExtend(trace: seq<Note>, n: Option<Note>, id: nat)
    ensures EmittedUnder(Extend(trace, n), id) ==
            if n.Some? && n.value.Emitted? && n.value.key.id == id then EmittedUnder(trace, id) + [n.value.packet]
            else EmittedUnder(trace, id)
  {
    if n.Some? {
      assert (trace + [n.value])[..|trace|] == trace;
    }
  }

  lemma {:induction false} NothingEmitted(trace: seq<Note>, id: nat)
    requires forall n :: n in trace && n.Emitted? ==> n.key.id != id
    ensures EmittedUnder(trace, id) == []
  {
    if trace == [] {
    } else {
      assert trace[|trace| - 1] in trace;
      NothingEmitted(trace[..|trace| - 1], id);
    }
  }

  /** A packet the server may seal as the mth of its key. */
  predicate Sealable(n: Note, m: nat) {
    n.Emitted? && !n.key.fromInitiator && n.nonce == m < U64_MAX && Fits(n.packet, MAX_MESSAGE)
  }

  /** Every emission is sealed under its number among those of its key. */
  predicate Numbered(trace: seq<Note>) {
    trace != [] ==>
      var before, n := trace[..|trace| - 1], trace[|trace| - 1];
      Numbered(before) && (n.Emitted? ==> Sealable(n, |EmittedUnder(before, n.key.id)|))
  }

  lemma {:induction false} NthEmission(trace: seq<Note>, id: nat, m: nat) returns (n: Note)
    requires Numbered(trace) && m < |EmittedUnder(trace, id)|
    ensures n in trace && Sealable(n, m) && n.key.id == id && n.packet == EmittedUnder(trace, id)[m]
  {
    var before := trace[..|trace| - 1];
    n := trace[|trace| - 1];
    if m < |EmittedUnder(before, id)| {
      n := NthEmission(before, id, m);
    }
  }

  /** All plaintexts sealed under a key, in order. */
  function Sent(peers: map<nat, Channel.End>, trace: seq<Note>, key: Key): seq<Bytes> {
    if !key.fromInitiator then EmittedUnder(trace, key.id)
    else if key.id in peers then peers[key.id].sent
    else []
  }

  predicate Nth(s: seq<Bytes>, n: nat, p: Bytes) {
    n < |s| && s[n] == p
  }

  ghost predicate Grows(peers: map<nat, Channel.End>, trace: seq<Note>, peers': map<nat, Channel.End>, trace': seq<Note>) {
    forall key: Key :: Sent(peers, trace, key) <= Sent(peers', trace', key)
  }

  // ---- the invariant ----

  /** What the server did with a frame is what its policy says of the plaintext sealed at its nonce. */
  predicate NoteTrue(c: Setup, sent: seq<Bytes>, n: Note) {
    n.Opened? ==> n.nonce < |sent| && n.remote in c.peers && n.verdict == Police(sent[n.nonce], c.peers[n.remote])
  }

  ghost predicate NotesTrue(c: Setup, peers: map<nat, Channel.End>, trace: seq<Note>, notes: seq<Note>) {
    forall n :: n in notes && n.Opened? ==> NoteTrue(c, Sent(peers, trace, n.key), n)
  }

  ghost predicate TableTrue(peers: map<nat, Channel.End>, trace: seq<Note>, table: set<Channel.Sealing>) {
    forall x :: x in table ==> Nth(Sent(peers, trace, x.key), x.nonce, x.plaintext)
  }

  /** Everything sent is in the table. */
  ghost predicate TableFull(peers: map<nat, Channel.End>, trace: seq<Note>, table: set<Channel.Sealing>) {
    forall key: Key, m :: 0 <= m < |Sent(peers, trace, key)| ==> Channel.Sealing(key, m, Sent(peers, trace, key)[m]) in table
  }

  /** A peer's counters agree, and it delivered distinct packets of the server, each at its number. */
  ghost predicate PeerTrue(p: Channel.End, id: nat, emitted: seq<Bytes>) {
    && p.session.sendKey == Key(id, true) && p.session.recvKey == Key(id, false)
    && p.session.sendNonce == p.session.cipherNonce == |p.sent|
    && (forall x :: x in p.sent ==> Fits(x, MAX_MESSAGE))
    && (forall i :: 0 <= i < |p.got| ==> p.got[i].nonce in p.session.accepted)
    && (forall i :: 0 <= i < |p.got| ==> Nth(emitted, p.got[i].nonce, p.got[i].plaintext))
    && (forall i, j :: 0 <= i < j < |p.got| ==> p.got[i].nonce != p.got[j].nonce)
  }

  ghost predicate PeersTrue(peers: map<nat, Channel.End>, trace: seq<Note>) {
    forall id :: id in peers ==> PeerTrue(peers[id], id, EmittedUnder(trace, id))
  }

  ghost predicate LiveCounted(t: Table, trace: seq<Note>) {
    forall k :: k in t.byIndex ==> t.byIndex[k].session.cipherNonce == |EmittedUnder(trace, t.byIndex[k].session.recvKey.id)|
  }

  ghost predicate WorldInv(c: Setup, w: World) {
    && Inv(c, w.server)
    && LiveCounted(w.server.table, w.server.trace) && Numbered(w.server.trace)
    && NotesTrue(c, w.peers, w.server.trace, w.server.trace)
    && TableTrue(w.peers, w.server.trace, w.table) && TableFull(w.peers, w.server.trace, w.table)
    && PeersTrue(w.peers, w.server.trace)
  }

  // ---- more is sent ----

  lemma GrowthKeepsTruth(c: Setup, peers: map<nat, Channel.End>, trace: seq<Note>, table: set<Channel.Sealing>,
                         peers': map<nat, Channel.End>, trace': seq<Note>)
    requires Grows(peers, trace, peers', trace')
    requires NotesTrue(c, peers, trace, trace) && TableTrue(peers, trace, table)
    ensures NotesTrue(c, peers', trace', trace) && TableTrue(peers', trace', table)
  {
    forall n | n in trace && n.Opened?
      ensures NoteTrue(c, Sent(peers', trace', n.key), n)
    {
      assert Sent(peers, trace, n.key) <= Sent(peers', trace', n.key);
      assert NoteTrue(c, Sent(peers, trace, n.key), n);
    }
    forall x | x in table
      ensures Nth(Sent(peers', trace', x.key), x.nonce, x.plaintext)
    {
      assert Sent(peers, trace, x.key) <= Sent(peers', trace', x.key);
      assert Nth(Sent(peers, trace, x.key), x.nonce, x.plaintext);
    }
  }

  lemma TraceGrows(peers: map<nat, Channel.End>, trace: seq<Note>, n: Option<Note>)
    ensures Grows(peers, trace, peers, Extend(trace, n))
  {
    forall key: Key
      ensures Sent(peers, trace, key) <= Sent(peers, Extend(trace, n), key)
    {
      EmittedUnderExtend(trace, n, key.id);
    }
  }

  lemma PeersStayTrue(peers: map<nat, Channel.End>, trace: seq<Note>, n: Option<Note>)
    requires PeersTrue(peers, trace)
    ensures PeersTrue(peers, Extend(trace, n))
  {
    forall id | id in peers
      ensures PeerTrue(peers[id], id, EmittedUnder(Extend(trace, n), id))
    {
      PeerStaysTrue(peers[id], id, trace, n);
    }
  }

  lemma PeerStaysTrue(p: Channel.End, id: nat, trace: seq<Note>, n: Option<Note>)
    requires PeerTrue(p, id, EmittedUnder(trace, id))
    ensures PeerTrue(p, id, EmittedUnder(Extend(trace, n), id))
  {
    EmittedUnderExtend(trace, n, id);
    MoreEmitted(p, id, EmittedUnder(trace, id), EmittedUnder(Extend(trace, n), id));
  }

  lemma MoreEmitted(p: Channel.End, id: nat, emitted: seq<Bytes>, more: seq<Bytes>)
    requires PeerTrue(p, id, emitted) && emitted <= more
    ensures PeerTrue(p, id, more)
  {
    forall i | 0 <= i < |p.got|
      ensures Nth(more, p.got[i].nonce, p.got[i].plaintext)
    {
      assert Nth(emitted, p.got[i].nonce, p.got[i].plaintext);
    }
  }

  // ---- the server's steps ----

  lemma SameCounts(t: Table, trace: seq<Note>, t': Table, n: Option<Note>)
    requires LiveCounted(t, trace) && (n.Some? ==> !n.value.Emitted?)
    requires forall k :: k in t'.byIndex ==>
               k in t.byIndex && t'.byIndex[k].session.cipherNonce == t.byIndex[k].session.cipherNonce
               && t'.byIndex[k].session.recvKey == t.byIndex[k].session.recvKey
    ensures LiveCounted(t', Extend(trace, n))
  {
    forall k | k in t'.byIndex
      ensures t'.byIndex[k].session.cipherNonce == |EmittedUnder(Extend(trace, n), t'.byIndex[k].session.recvKey.id)|
    {
      EmittedUnderExtend(trace, n, t'.byIndex[k].session.recvKey.id);
    }
  }

  lemma DataKeepsCounted(c: Setup, s: Server, src: Addr, packet: Bytes, now: nat)
    requires LiveCounted(s.table, s.trace)
    ensures LiveCounted(OnData(c, s, src, packet, now).table, OnData(c, s, src, packet, now).trace)
  {
    var (t, v) := Deliver(c.aead, s.table, packet, src, now);
    DeliverCases(c.aead, s.table, packet, src, now);
    SameCounts(s.table, s.trace, t, OpenedNote(s.table, packet, src, now, v));
  }

  /** The emission, if there is one, carries the number of packets emitted under its key before. */
  lemma EmissionIsNumbered(c: Setup, s: Server, packet: Bytes, now: nat)
    requires Inv(c, s) && LiveCounted(s.table, s.trace)
    ensures var n := EmittedNote(s.table, packet, now, Route(c.aead, s.table, packet, now).1);
            n.Some? ==> Sealable(n.value, |EmittedUnder(s.trace, n.value.key.id)|)
  {
    var d := Destination(packet);
    if d.Some? && d.value in s.table.byIp {
      assert LiveOk(c, s.trace, s.ids, s.table.byIndex[s.table.byIp[d.value]]);
    }
  }

  lemma TunKeepsCounted(c: Setup, s: Server, packet: Bytes, now: nat)
    requires Inv(c, s) && LiveCounted(s.table, s.trace)
    ensures LiveCounted(OnTun(c, s, packet, now).table, OnTun(c, s, packet, now).trace)
  {
    var (t, u) := Route(c.aead, s.table, packet, now);
    ServerGuarantees.SyncedCounters(c, s);
    RouteCases(c.aead, s.table, packet, now);
    var n := EmittedNote(s.table, packet, now, u);
    if n.None? {
      assert t == s.table;
    } else {
      var i := s.table.byIp[Destination(packet).value];
      forall k | k in t.byIndex
        ensures t.byIndex[k].session.cipherNonce == |EmittedUnder(Extend(s.trace, n), t.byIndex[k].session.recvKey.id)|
      {
        assert LiveOk(c, s.trace, s.ids, s.table.byIndex[i]);
        EmittedUnderExtend(s.trace, n, t.byIndex[k].session.recvKey.id);
      }
    }
  }

  lemma FreshIdEmittedNothing(c: Setup, trace: seq<Note>, ids: set<nat>, id: nat)
    requires TraceOk(c, trace, ids) && id !in ids
    ensures EmittedUnder(trace, id) == []
  {
    forall n | n in trace && n.Emitted?
      ensures n.key.id != id
    {
      assert NoteOk(c, trace, ids, n);
    }
    NothingEmitted(trace, id);
  }

  lemma FinishKeepsCounted(c: Setup, s: Server, h: nat, id: nat, remote: PubKey, now: nat)
    requires Inv(c, s) && Possible(s, Finish(h, Authenticated(id, remote), now)) && LiveCounted(s.table, s.trace)
    ensures var s' := Step(c, s, Finish(h, Authenticated(id, remote), now));
            LiveCounted(s'.table, s'.trace)
  {
    var p := s.pending[h];
    var session := ResponderSession(p.index, remote, id);
    var (t, r) := Install(s.table, c.peers, p.index, session, p.src, now);
    InstallKeepsConsistent(s.table, c.peers, p.index, session, p.src, now);
    FreshIdEmittedNothing(c, s.trace, s.ids, id);
    var n := FinishNote(r, id, remote, p.src, now);
    forall k | k in t.byIndex
      ensures t.byIndex[k].session.cipherNonce == |EmittedUnder(Extend(s.trace, n), t.byIndex[k].session.recvKey.id)|
    {
      EmittedUnderExtend(s.trace, n, t.byIndex[k].session.recvKey.id);
    }
  }

  lemma StepKeepsCounted(c: Setup, s: Server, e: Event)
    requires Inv(c, s) && Possible(s, e) && LiveCounted(s.table, s.trace)
    ensures LiveCounted(Step(c, s, e).table, Step(c, s, e).trace)
  {
    match e
    case Udp(h, src, packet, now) =>
      if packet != [] && packet[0] != 1 && s.enabled {
        DataKeepsCounted(c, s, src, packet, now);
      }
    case Finish(h, Authenticated(id, remote), now) => FinishKeepsCounted(c, s, h, id, remote, now);
    case Tick(now) => SameCounts(s.table, s.trace, Reap(s.table, now, c.idle), None);
    case Tun(packet, now) => TunKeepsCounted(c, s, packet, now);
    case _ =>
  }

  lemma NumberedExtend(trace: seq<Note>, n: Option<Note>)
    requires Numbered(trace)
    requires n.Some? && n.value.Emitted? ==> Sealable(n.value, |EmittedUnder(trace, n.value.key.id)|)
    ensures Numbered(Extend(trace, n))
  {
    if n.Some? {
      assert (trace + [n.value])[..|trace|] == trace;
    }
  }

  lemma StepKeepsNumbered(c: Setup, s: Server, e: Event)
    requires Inv(c, s) && Possible(s, e) && LiveCounted(s.table, s.trace) && Numbered(s.trace)
    ensures Numbered(Step(c, s, e).trace)
    ensures var n := NoteOf(c, s, e);
            n.Some? && n.value.Emitted? ==> Sealable(n.value, |EmittedUnder(s.trace, n.value.key.id)|)
  {
    StepRecords(c, s, e);
    if e.Tun? && s.enabled {
      EmissionIsNumbered(c, s, e.packet, e.now);
    }
    OnlyTunEmits(c, s, e);
    NumberedExtend(s.trace, NoteOf(c, s, e));
  }

  /** What the server opens was sealed by the peer, and its verdict is about that plaintext. */
  lemma OpeningIsTrue(c: Setup, w: World, e: Event)
    requires WorldInv(c, w) && Allowed(c, w, AtServer(e))
    ensures var n := NoteOf(c, w.server, e);
            n.Some? && n.value.Opened? ==> NoteTrue(c, Sent(w.peers, w.server.trace, n.value.key), n.value)
  {
    var n := NoteOf(c, w.server, e);
    if n.Some? && n.value.Opened? {
      var t, i := w.server.table, FrameIndex(e.packet);
      assert LiveOk(c, w.server.trace, w.server.ids, t.byIndex[i]);
      var r := DecryptStep(c.aead, t.byIndex[i].session, e.packet, MAX_MESSAGE).1;
      assert r.Ok?;
      assert Channel.Sealing(n.value.key, n.value.nonce, r.value) in w.table;
    }
  }

  lemma ServerStepKeepsWorld(c: Setup, w: World, e: Event)
    requires WorldInv(c, w) && Allowed(c, w, AtServer(e))
    ensures WorldInv(c, After(c, w, AtServer(e)))
  {
    var s, n := w.server, NoteOf(c, w.server, e);
    var w' := After(c, w, AtServer(e));
    StepKeepsCore(c, s, e);
    StepKeepsCounts(c, s, e);
    StepKeepsCounted(c, s, e);
    StepKeepsNumbered(c, s, e);
    StepRecords(c, s, e);
    OpeningIsTrue(c, w, e);
    TraceGrows(w.peers, s.trace, n);
    PeersStayTrue(w.peers, s.trace, n);
    GrowthKeepsTruth(c, w.peers, s.trace, w.table, w.peers, w'.server.trace);
    RecordedIsTrue(c, w.peers, s.trace, w.table, n);
    RecordedIsFull(w.peers, s.trace, w.table, n);
  }

  lemma RecordedIsFull(peers: map<nat, Channel.End>, trace: seq<Note>, table: set<Channel.Sealing>, n: Option<Note>)
    requires TableFull(peers, trace, table)
    requires n.Some? && n.value.Emitted? ==> Sealable(n.value, |EmittedUnder(trace, n.value.key.id)|)
    ensures TableFull(peers, Extend(trace, n), table + SealedIn(n))
  {
    forall key: Key, m | 0 <= m < |Sent(peers, Extend(trace, n), key)|
      ensures Channel.Sealing(key, m, Sent(peers, Extend(trace, n), key)[m]) in table + SealedIn(n)
    {
      EmittedUnderExtend(trace, n, key.id);
      if m < |Sent(peers, trace, key)| {
        assert Channel.Sealing(key, m, Sent(peers, trace, key)[m]) in table;
      }
    }
  }

  /** The new note and the new sealing are true too. */
  lemma RecordedIsTrue(c: Setup, peers: map<nat, Channel.End>, trace: seq<Note>, table: set<Channel.Sealing>, n: Option<Note>)
    requires NotesTrue(c, peers, Extend(trace, n), trace) && TableTrue(peers, Extend(trace, n), table)
    requires n.Some? && n.value.Opened? ==> NoteTrue(c, Sent(peers, trace, n.value.key), n.value)
    requires n.Some? && n.value.Emitted? ==> Sealable(n.value, |EmittedUnder(trace, n.value.key.id)|)
    ensures NotesTrue(c, peers, Extend(trace, n), Extend(trace, n))
    ensures TableTrue(peers, Extend(trace, n), table + SealedIn(n))
  {
    if n.Some? && (n.value.Opened? || n.value.Emitted?) {
      EmittedUnderExtend(trace, n, n.value.key.id);
    }
  }

  // ---- the peers' moves ----

  lemma JoinKeepsWorld(c: Setup, w: World, id: nat, index: U32, serverKey: PubKey)
    requires WorldInv(c, w) && Allowed(c, w, Joins(id, index, serverKey))
    ensures WorldInv(c, After(c, w, Joins(id, index, serverKey)))
  {
    var w' := After(c, w, Joins(id, index, serverKey));
    assert forall key: Key :: Sent(w'.peers, w.server.trace, key) == Sent(w.peers, w.server.trace, key);
    GrowthKeepsTruth(c, w.peers, w.server.trace, w.table, w'.peers, w.server.trace);
  }

  /** A peer's end changes, nothing more sent. */
  lemma PeerMoves(c: Setup, w: World, id: nat, p: Channel.End)
    requires WorldInv(c, w) && id in w.peers && p.sent == w.peers[id].sent
    requires PeerTrue(p, id, EmittedUnder(w.server.trace, id))
    ensures WorldInv(c, w.(peers := w.peers[id := p]))
  {
    var peers := w.peers[id := p];
    assert forall key: Key :: Sent(peers, w.server.trace, key) == Sent(w.peers, w.server.trace, key);
    GrowthKeepsTruth(c, w.peers, w.server.trace, w.table, peers, w.server.trace);
  }

  /** A peer seals one more plaintext under its next number. */
  lemma PeerSeals(c: Setup, w: World, id: nat, p: Channel.End, plaintext: Bytes)
    requires WorldInv(c, w) && id in w.peers && p.sent == w.peers[id].sent + [plaintext]
    requires PeerTrue(p, id, EmittedUnder(w.server.trace, id))
    ensures var x := Channel.Sealing(Key(id, true), |w.peers[id].sent|, plaintext);
            WorldInv(c, w.(peers := w.peers[id := p], table := w.table + {x}))
  {
    var peers, trace := w.peers[id := p], w.server.trace;
    var x := Channel.Sealing(Key(id, true), |w.peers[id].sent|, plaintext);
    assert Grows(w.peers, trace, peers, trace);
    GrowthKeepsTruth(c, w.peers, trace, w.table, peers, trace);
    assert Sent(peers, trace, x.key) == p.sent;
    SealKeepsFull(w.peers, trace, w.table, id, p, plaintext);
  }

  lemma SealKeepsFull(peers: map<nat, Channel.End>, trace: seq<Note>, table: set<Channel.Sealing>, id: nat, p: Channel.End, plaintext: Bytes)
    requires TableFull(peers, trace, table) && id in peers && p.sent == peers[id].sent + [plaintext]
    ensures TableFull(peers[id := p], trace, table + {Channel.Sealing(Key(id, true), |peers[id].sent|, plaintext)})
  {
    var x := Channel.Sealing(Key(id, true), |peers[id].sent|, plaintext);
    var peers' := peers[id := p];
    forall key: Key, m | 0 <= m < |Sent(peers', trace, key)|
      ensures Channel.Sealing(key, m, Sent(peers', trace, key)[m]) in table + {x}
    {
      if m < |Sent(peers, trace, key)| {
        assert Channel.Sealing(key, m, Sent(peers, trace, key)[m]) in table;
      }
    }
  }

  lemma SendingStaysTrue(a: Aead, p: Channel.End, id: nat, emitted: seq<Bytes>, plaintext: Bytes, room: nat)
    requires PeerTrue(p, id, emitted) && room <= MAX_MESSAGE
    ensures var (s, r) := EncryptStep(a, p.session, plaintext, room);
            PeerTrue(p.(session := s, sent := if r.Ok? then p.sent + [plaintext] else p.sent), id, emitted)
  {
  }

  lemma ReceivingStaysTrue(a: Aead, p: Channel.End, id: nat, emitted: seq<Bytes>, packet: Bytes)
    requires PeerTrue(p, id, emitted)
    requires var r := DecryptStep(a, p.session, packet, MAX_MESSAGE).1;
             r.Ok? ==> Nth(emitted, FrameNonce(packet), r.value)
    ensures var (s, r) := DecryptStep(a, p.session, packet, MAX_MESSAGE);
            PeerTrue(p.(session := s, got := if r.Ok? then p.got + [Channel.Delivery(FrameNonce(packet), r.value)] else p.got), id, emitted)
  {
  }

  lemma SendKeepsWorld(c: Setup, w: World, id: nat, plaintext: Bytes, room: nat)
    requires WorldInv(c, w) && Allowed(c, w, PeerSends(id, plaintext, room))
    ensures WorldInv(c, After(c, w, PeerSends(id, plaintext, room)))
  {
    var p, p' := w.peers[id], After(c, w, PeerSends(id, plaintext, room)).peers[id];
    SendingStaysTrue(c.aead, p, id, EmittedUnder(w.server.trace, id), plaintext, room);
    if EncryptStep(c.aead, p.session, plaintext, room).1.Ok? {
      PeerSeals(c, w, id, p', plaintext);
    } else {
      PeerMoves(c, w, id, p');
    }
  }

  lemma OpenedIsNth(c: Setup, w: World, id: nat, packet: Bytes)
    requires WorldInv(c, w) && Allowed(c, w, PeerReceives(id, packet))
    ensures var r := DecryptStep(c.aead, w.peers[id].session, packet, MAX_MESSAGE).1;
            r.Ok? ==> Nth(EmittedUnder(w.server.trace, id), FrameNonce(packet), r.value)
  {
    assert PeerTrue(w.peers[id], id, EmittedUnder(w.server.trace, id));
    var r := DecryptStep(c.aead, w.peers[id].session, packet, MAX_MESSAGE).1;
    if r.Ok? {
      assert Channel.Sealing(Key(id, false), FrameNonce(packet), r.value) in w.table;
    }
  }

  lemma ReceiveKeepsWorld(c: Setup, w: World, id: nat, packet: Bytes)
    requires WorldInv(c, w) && Allowed(c, w, PeerReceives(id, packet))
    ensures WorldInv(c, After(c, w, PeerReceives(id, packet)))
  {
    var p, p' := w.peers[id], After(c, w, PeerReceives(id, packet)).peers[id];
    OpenedIsNth(c, w, id, packet);
    ReceivingStaysTrue(c.aead, p, id, EmittedUnder(w.server.trace, id), packet);
    PeerMoves(c, w, id, p');
  }

  lemma {:induction false} HistoryKeepsInv(c: Setup, ms: seq<Move>, ws: seq<World>, i: nat)
    requires IsHistory(c, ms, ws) && i <= |ms|
    ensures WorldInv(c, ws[i])
  {
    if i == 0 {
    } else {
      HistoryKeepsInv(c, ms, ws, i - 1);
      match ms[i - 1]
      case AtServer(e) => ServerStepKeepsWorld(c, ws[i - 1], e);
      case Joins(id, index, serverKey) => JoinKeepsWorld(c, ws[i - 1], id, index, serverKey);
      case PeerSends(id, plaintext, room) => SendKeepsWorld(c, ws[i - 1], id, plaintext, room);
      case PeerReceives(id, packet) => ReceiveKeepsWorld(c, ws[i - 1], id, packet);
    }
  }

  // ---- end to end ----

  /** Whatever the server opens at nonce n is the nth plaintext the peer at the other end of that
      handshake has already sealed; the server treats it as its policy says of that plaintext, so
      what it writes to the TUN is that plaintext, from that peer's own tunnel address; and it opens
      no other frame with that number. */
  lemma PeerToTun(c: Setup, ms: seq<Move>, ws: seq<World>, i: nat, p: nat)
    requires IsHistory(c, ms, ws) && i <= |ms| && p < |ws[i].server.trace| && ws[i].server.trace[p].Opened?
    ensures var w, n := ws[i], ws[i].server.trace[p];
            && n.key == Key(n.key.id, true) && n.remote in c.peers && HandshookWith(w.server.trace, n.key.id, n.remote)
            && n.key.id in w.peers && n.nonce < |w.peers[n.key.id].sent|
            && var plain := w.peers[n.key.id].sent[n.nonce];
            && n.verdict == Police(plain, c.peers[n.remote])
            && (n.verdict.Forward? ==> n.verdict.packet == plain && Source(plain) == Some(c.peers[n.remote]))
            && forall q :: 0 <= q < |w.server.trace| && q != p && w.server.trace[q].Opened? ==>
                 !(w.server.trace[q].key == n.key && w.server.trace[q].nonce == n.nonce)
  {
    HistoryKeepsInv(c, ms, ws, i);
    var trace := ws[i].server.trace;
    var n := trace[p];
    assert n in trace;
    assert NoteOk(c, trace, ws[i].server.ids, n) && NoteTrue(c, Sent(ws[i].peers, trace, n.key), n);
    forall q | 0 <= q < |trace| && q != p && trace[q].Opened?
      ensures !(trace[q].key == n.key && trace[q].nonce == n.nonce)
    {
      assert UseOf(trace[p]).Some? && UseOf(trace[q]).Some?;
    }
  }

  /** Whatever a peer delivers at nonce n is the nth packet the server has already sent to it from
      its TUN, one destined to the tunnel address of the peer that handshake was made with; and the
      peer delivers none twice. */
  lemma TunToPeer(c: Setup, ms: seq<Move>, ws: seq<World>, i: nat, id: nat, j: nat) returns (n: Note)
    requires IsHistory(c, ms, ws) && i <= |ms| && id in ws[i].peers && j < |ws[i].peers[id].got|
    ensures var w, d := ws[i], ws[i].peers[id].got[j];
            && n in w.server.trace && n.Emitted? && n.key == Key(id, false) && n.nonce == d.nonce && n.packet == d.plaintext
            && Nth(EmittedUnder(w.server.trace, id), d.nonce, d.plaintext)
            && n.remote in c.peers && HandshookWith(w.server.trace, id, n.remote)
            && Destination(d.plaintext) == Some(c.peers[n.remote])
            && forall k :: 0 <= k < |w.peers[id].got| && k != j ==> w.peers[id].got[k].nonce != d.nonce
  {
    HistoryKeepsInv(c, ms, ws, i);
    var w, d := ws[i], ws[i].peers[id].got[j];
    assert PeerTrue(w.peers[id], id, EmittedUnder(w.server.trace, id));
    assert Nth(EmittedUnder(w.server.trace, id), d.nonce, d.plaintext);
    n := NthEmission(w.server.trace, id, d.nonce);
    assert NoteOk(c, w.server.trace, w.server.ids, n);
  }

  /** And nothing genuine is lost but to the window and the type byte: when the mth frame of a peer
      that was told its index faithfully reaches the enabled server while the session lives, the
      server opens it to the peer's mth plaintext exactly when the window admits m and the low byte
      of the index is not the handshake type byte. */
  lemma PeerFrameArrives(c: Setup, ms: seq<Move>, ws: seq<World>, i: nat, id: nat, m: nat, h: nat, src: Addr, now: nat)
    requires c.aead.Lawful() && IsHistory(c, ms, ws) && i <= |ms|
    requires var w := ws[i];
             && id in w.peers && m < |w.peers[id].sent| && w.server.enabled && h !in w.server.pending
             && var k := w.peers[id].session.index;
             k in w.server.table.byIndex && w.server.table.byIndex[k].session.recvKey == Key(id, true)
    ensures var w := ws[i];
            var k, plain := w.peers[id].session.index, w.peers[id].sent[m];
            && m < U64_MAX
            && var l := w.server.table.byIndex[k];
            var frame := Frame(k, m, c.aead.seal(Key(id, true), m, plain));
            && Allowed(c, w, AtServer(Udp(h, src, frame, now)))
            && Step(c, w.server, Udp(h, src, frame, now)).trace ==
            if k % 256 != 1 && Admits(l.session.accepted, m)
            then w.server.trace + [Opened(Key(id, true), m, k, l.session.remote, src, now, Police(plain, l.tunnelIp))]
            else w.server.trace
  {
    HistoryKeepsInv(c, ms, ws, i);
    var w := ws[i];
    assert PeerTrue(w.peers[id], id, EmittedUnder(w.server.trace, id));
    var k, plain := w.peers[id].session.index, w.peers[id].sent[m];
    assert plain in w.peers[id].sent;
    SealedFrameIsUnforged(c, w, Key(id, true), k, m);
    FrameRoundTrip(k, m, c.aead.seal(Key(id, true), m, plain));
    ServerGuarantees.GenuineFrameStep(c, w.server, k, m, plain, h, src, now);
  }

  lemma SealedFrameIsUnforged(c: Setup, w: World, key: Key, k: U32, m: U64)
    requires c.aead.Lawful() && WorldInv(c, w) && m < |Sent(w.peers, w.server.trace, key)|
    ensures Channel.Unforged(c.aead, w.table, key, Frame(k, m, c.aead.seal(key, m, Sent(w.peers, w.server.trace, key)[m])))
  {
    FrameRoundTrip(k, m, c.aead.seal(key, m, Sent(w.peers, w.server.trace, key)[m]));
  }

  /** The other way: the mth packet the server sealed for handshake `id`, in a frame with the index
      that peer holds, may arrive there and is delivered exactly when the peer's window admits m. */
  lemma ServerFrameArrives(c: Setup, ms: seq<Move>, ws: seq<World>, i: nat, id: nat, m: nat)
    requires c.aead.Lawful() && IsHistory(c, ms, ws) && i <= |ms|
    requires id in ws[i].peers && m < |EmittedUnder(ws[i].server.trace, id)|
    ensures var w := ws[i];
            var p, packet := w.peers[id], EmittedUnder(w.server.trace, id)[m];
            && m < U64_MAX
            && var frame := Frame(p.session.index, m, c.aead.seal(Key(id, false), m, packet));
            && Allowed(c, w, PeerReceives(id, frame))
            && After(c, w, PeerReceives(id, frame)).peers[id].got ==
               if Admits(p.session.accepted, m) then p.got + [Channel.Delivery(m, packet)] else p.got
  {
    HistoryKeepsInv(c, ms, ws, i);
    var w := ws[i];
    var p, packet := w.peers[id], EmittedUnder(w.server.trace, id)[m];
    assert PeerTrue(p, id, EmittedUnder(w.server.trace, id));
    var n := NthEmission(w.server.trace, id, m);
    SealedFrameIsUnforged(c, w, Key(id, false), p.session.index, m);
    FrameRoundTrip(p.session.index, m, c.aead.seal(Key(id, false), m, packet));
    GenuineFrameOpens(c.aead, p.session, m, packet, MAX_MESSAGE);
  }

  // ---- it happens ----

  lemma OneMoreMove(c: Setup, ms: seq<Move>, ws: seq<World>, m: Move) returns (ms': seq<Move>, ws': seq<World>)
    requires IsHistory(c, ms, ws) && Allowed(c, ws[|ms|], m)
    ensures IsHistory(c, ms', ws') && ms' == ms + [m] && ws'[|ms'|] == After(c, ws[|ms|], m)
  {
    ms', ws' := ms + [m], ws + [After(c, ws[|ms|], m)];
  }

  /** What a peer's send does: what fits is the next it has sent, sealed under that number into the
      frame that goes out, and in the table. */
  lemma SendEffect(c: Setup, w: World, id: nat, plaintext: Bytes, room: nat)
    requires WorldInv(c, w) && Allowed(c, w, PeerSends(id, plaintext, room))
    ensures var p, m := w.peers[id], |w.peers[id].sent|;
            var w', r := After(c, w, PeerSends(id, plaintext, room)), EncryptStep(c.aead, p.session, plaintext, room).1;
            && (r.Ok? <==> |plaintext| <= 65519 && |plaintext| + 28 <= room && m < U64_MAX)
            && w'.server == w.server && w'.peers.Keys == w.peers.Keys
            && w'.peers[id].sent == (if r.Ok? then p.sent + [plaintext] else p.sent)
            && w'.peers[id].got == p.got
            && (r.Ok? ==> && r.value == Frame(p.session.index, m, c.aead.seal(Key(id, true), m, plaintext))
                          && w'.table == w.table + {Channel.Sealing(Key(id, true), m, plaintext)})
  {
    assert PeerTrue(w.peers[id], id, EmittedUnder(w.server.trace, id));
    EncryptOutcome(c.aead, w.peers[id].session, plaintext, room);
  }

  lemma Greeted(c: Setup, src: Addr) returns (ms: seq<Move>, ws: seq<World>)
    requires c.limits.max >= 1
    ensures IsHistory(c, ms, ws)
    ensures var w := ws[|ms|];
            && w.peers == map[] && w.table == {}
            && w.server == Start.(hits := w.server.hits, received := 1, pending := map[0 := Chosen(src, 2)])
  {
    ms, ws := [], [Beginning];
    ServerGuarantees.HandshakeArrives(c, Start, 0, src, [1], 0);
    ms, ws := OneMoreMove(c, ms, ws, AtServer(Udp(0, src, [1], 0)));
    assert map[][0 := Begun(src)] == map[0 := Begun(src)];
    ms, ws := OneMoreMove(c, ms, ws, AtServer(ChooseIndex(0, 2)));
    assert map[0 := Begun(src)][0 := Chosen(src, 2)] == map[0 := Chosen(src, 2)];
  }

  /** What a peer's receipt does: a frame of its session marks its nonce whatever becomes of it, and is
      delivered exactly when the nonce was admissible, not the reserved one, and the cipher opens it. */
  lemma ReceiveEffect(c: Setup, w: World, id: nat, packet: Bytes)
    requires Allowed(c, w, PeerReceives(id, packet))
    ensures var p, p' := w.peers[id], After(c, w, PeerReceives(id, packet)).peers[id];
            && p'.sent == p.sent
            && (if !Channel.Heeded(p.session.index, packet) then p' == p
                else
                  var m, plain := FrameNonce(packet), c.aead.open(p.session.recvKey, FrameNonce(packet), packet[12..]);
                  && p'.session == p.session.(accepted := Record(p.session.accepted, m))
                  && p'.got == if Admits(p.session.accepted, m) && m != U64_MAX && plain.Some? && |packet| <= 65563
                               then p.got + [Channel.Delivery(m, plain.value)] else p.got)
  {
    DecryptOutcome(c.aead, w.peers[id].session, packet, MAX_MESSAGE);
  }

  /** The server's half of the connection. */
  predicate SessionUp(c: Setup, s: Server, remote: PubKey, src: Addr)
    requires remote in c.peers
  {
    && s.enabled && s.pending == map[] && s.trace == [Established(0, remote, src, 0)] && 0 in s.ids
    && 2 in s.table.byIndex
    && s.table.byIndex[2] == LiveSession(ResponderSession(2, remote, 0), src, c.peers[remote], 0, 0)
  }

  lemma FinishBringsUp(c: Setup, s: Server, remote: PubKey, src: Addr)
    requires Inv(c, s) && remote in c.peers
    requires s == Start.(hits := s.hits, received := 1, pending := map[0 := Chosen(src, 2)])
    ensures Possible(s, Finish(0, Authenticated(0, remote), 0))
    ensures SessionUp(c, Step(c, s, Finish(0, Authenticated(0, remote), 0)), remote, src)
  {
    ServerGuarantees.FinishEffect(c, s, 0, 0, remote, 0);
    assert s.pending - {0} == map[];
  }

  /** A handshake runs through and both ends hold the session. */
  lemma Connected(c: Setup, remote: PubKey, serverKey: PubKey, src: Addr) returns (ms: seq<Move>, ws: seq<World>)
    requires c.limits.max >= 1 && remote in c.peers
    ensures IsHistory(c, ms, ws) && SessionUp(c, ws[|ms|].server, remote, src)
    ensures ws[|ms|].peers == map[0 := Channel.End(InitiatorSession(2, serverKey, 0), [], [])]
  {
    ms, ws := Greeted(c, src);
    HistoryKeepsInv(c, ms, ws, |ms|);
    FinishBringsUp(c, ws[|ms|].server, remote, src);
    ms, ws := OneMoreMove(c, ms, ws, AtServer(Finish(0, Authenticated(0, remote), 0)));
    ms, ws := OneMoreMove(c, ms, ws, Joins(0, 2, serverKey));
  }

  lemma PeerHasSent(c: Setup, remote: PubKey, src: Addr, plain: Bytes) returns (ms: seq<Move>, ws: seq<World>)
    requires c.limits.max >= 1 && remote in c.peers && |plain| <= 65507
    ensures IsHistory(c, ms, ws) && SessionUp(c, ws[|ms|].server, remote, src)
    ensures 0 in ws[|ms|].peers && ws[|ms|].peers[0].sent == [plain] && ws[|ms|].peers[0].session.index == 2
  {
    ms, ws := Connected(c, remote, 0, src);
    HistoryKeepsInv(c, ms, ws, |ms|);
    SendEffect(c, ws[|ms|], 0, plain, MAX_MESSAGE);
    ms, ws := OneMoreMove(c, ms, ws, PeerSends(0, plain, MAX_MESSAGE));
  }

  /** For every configured peer and every packet from its own address that fits, there is a history in
      which the peer sends it and the server writes it to the TUN: the guarantees are not empty. */
  lemma PacketCrosses(c: Setup, remote: PubKey, src: Addr, plain: Bytes) returns (ms: seq<Move>, ws: seq<World>)
    requires c.aead.Lawful() && c.limits.max >= 1 && remote in c.peers
    requires |plain| <= 65507 && Source(plain) == Some(c.peers[remote])
    ensures IsHistory(c, ms, ws)
    ensures Opened(Key(0, true), 0, 2, remote, src, 0, Forward(plain)) in ws[|ms|].server.trace
  {
    ms, ws := PeerHasSent(c, remote, src, plain);
    PeerFrameArrives(c, ms, ws, |ms|, 0, 0, 0, src, 0);
    PolicyMeans(plain, c.peers[remote]);
    var frame := Frame(2, 0, c.aead.seal(Key(0, true), 0, plain));
    ms, ws := OneMoreMove(c, ms, ws, AtServer(Udp(0, src, frame, 0)));
  }

  lemma FirstEmission(c: Setup, s: Server, remote: PubKey, src: Addr, packet: Bytes)
    requires Inv(c, s) && remote in c.peers && SessionUp(c, s, remote, src)
    requires |packet| <= 65507 && Destination(packet) == Some(c.peers[remote])
    ensures EmittedUnder(Step(c, s, Tun(packet, 0)).trace, 0) == [packet]
  {
    ServerGuarantees.EmissionIsRecorded(c, s, packet, 0, 2);
    NothingEmitted(s.trace, 0);
    EmittedUnderExtend(s.trace, Some(Emitted(Key(0, false), 0, remote, packet, src, 0)), 0);
  }

  lemma ServerHasSent(c: Setup, remote: PubKey, src: Addr, packet: Bytes) returns (ms: seq<Move>, ws: seq<World>)
    requires c.limits.max >= 1 && remote in c.peers
    requires |packet| <= 65507 && Destination(packet) == Some(c.peers[remote])
    ensures IsHistory(c, ms, ws) && EmittedUnder(ws[|ms|].server.trace, 0) == [packet]
    ensures ws[|ms|].peers == map[0 := Channel.End(InitiatorSession(2, 0, 0), [], [])]
  {
    ms, ws := Connected(c, remote, 0, src);
    HistoryKeepsInv(c, ms, ws, |ms|);
    FirstEmission(c, ws[|ms|].server, remote, src, packet);
    ms, ws := OneMoreMove(c, ms, ws, AtServer(Tun(packet, 0)));
  }

  /** And the other way: a TUN packet for the peer's address reaches that peer. */
  lemma PacketReturns(c: Setup, remote: PubKey, src: Addr, packet: Bytes) returns (ms: seq<Move>, ws: seq<World>)
    requires c.aead.Lawful() && c.limits.max >= 1 && remote in c.peers
    requires |packet| <= 65507 && Destination(packet) == Some(c.peers[remote])
    ensures IsHistory(c, ms, ws) && 0 in ws[|ms|].peers
    ensures ws[|ms|].peers[0].got == [Channel.Delivery(0, packet)]
  {
    ms, ws := ServerHasSent(c, remote, src, packet);
    ServerFrameArrives(c, ms, ws, |ms|, 0, 0);
    ms, ws := OneMoreMove(c, ms, ws, PeerReceives(0, Frame(2, 0, c.aead.seal(Key(0, false), 0, packet))));
  }
}
