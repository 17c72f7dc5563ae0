/** Two sessions joined by a network that drops, duplicates, reorders and injects packets.
    The network is any source of byte strings; only the cipher limits what it can achieve. */
module Channel {
  import opened Prelude
  import opened Replay
  import opened Crypto

  datatype Sealing = Sealing(key: Key, nonce: nat, plaintext: Bytes)
  datatype Delivery = Delivery(nonce: nat, plaintext: Bytes)

  /** One endpoint, with everything it has sealed (in order) and everything it has delivered. */
  datatype End = End(session: SessionState, sent: seq<Bytes>, got: seq<Delivery>)

  datatype Net = Net(initiator: End, responder: End, table: set<Sealing>) {
    function At(initiatorSide: bool): End {
      if initiatorSide then initiator else responder
    }

    function With(initiatorSide: bool, e: End): Net {
      if initiatorSide then this.(initiator := e) else this.(responder := e)
    }
  }

  datatype Event = Send(side: bool, plaintext: Bytes, room: nat)
                 | Arrive(side: bool, packet: Bytes, room: nat)

  /** The cipher is ideal on this ciphertext: it opens only to something sealed under the same
      key and nonce. */
  predicate Unforged(a: Aead, table: set<Sealing>, key: Key, packet: Bytes) {
    |packet| >= HEADER ==>
      match a.open(key, FrameNonce(packet), packet[HEADER..])
      case None => true
      case Some(p) => Sealing(key, FrameNonce(packet), p) in table
  }

  predicate Possible(a: Aead, n: Net, e: Event) {
    e.Arrive? ==> Unforged(a, n.table, n.At(e.side).session.recvKey, e.packet)
  }

  function Step(a: Aead, n: Net, e: Event): Net {
    var end := n.At(e.side);
    match e
    case Send(side, plaintext, room) =>
      var (s, r) := EncryptStep(a, end.session, plaintext, room);
      if r.Err? then n.With(side, end.(session := s))
      else n.With(side, end.(session := s, sent := end.sent + [plaintext]))
            .(table := n.table + {Sealing(end.session.sendKey, end.session.cipherNonce, plaintext)})
    case Arrive(side, packet, room) =>
      var (s, r) := DecryptStep(a, end.session, packet, room);
      if r.Err? then n.With(side, end.(session := s))
      else n.With(side, end.(session := s, got := end.got + [Delivery(FrameNonce(packet), r.value)]))
  }

  /** The state a completed handshake leaves. */
  function Paired(index: U32, id: nat, initiatorKey: nat, responderKey: nat): Net {
    Net(End(InitiatorSession(index, responderKey, id), [], []), End(ResponderSession(index, initiatorKey, id), [], []), {})
  }

  function Run(a: Aead, n: Net, es: seq<Event>): Net {
    if es == [] then n else Step(a, Run(a, n, es[..|es| - 1]), es[|es| - 1])
  }

  predicate Feasible(a: Aead, n: Net, es: seq<Event>) {
    es != [] ==> Feasible(a, n, es[..|es| - 1]) && Possible(a, Run(a, n, es[..|es| - 1]), es[|es| - 1])
  }

  // ---- what every step keeps ----

  /** Deliveries at `e` are pairwise distinct messages of `peer`, each the one sealed at its nonce. */
  ghost predicate DeliveredFrom(e: End, peer: End) {
    && (forall i :: 0 <= i < |e.got| ==>
          && e.got[i].nonce < |peer.sent|
          && peer.sent[e.got[i].nonce] == e.got[i].plaintext)
    && (forall i, j :: 0 <= i < j < |e.got| ==> e.got[i].nonce != e.got[j].nonce)
  }

  ghost predicate EndInv(e: End, peer: End, table: set<Sealing>) {
    && e.session.sendKey == peer.session.recvKey
    && e.session.sendNonce == e.session.cipherNonce == |e.sent|
    && (forall t :: t in table && t.key == e.session.sendKey ==> t.nonce < |e.sent| && e.sent[t.nonce] == t.plaintext)
    && (forall i :: 0 <= i < |e.got| ==> e.got[i].nonce in e.session.accepted)
    && DeliveredFrom(e, peer)
  }

  ghost predicate Inv(n: Net) {
    && n.initiator.session.sendKey != n.responder.session.sendKey
    && n.initiator.session.index == n.responder.session.index
    && EndInv(n.initiator, n.responder, n.table)
    && EndInv(n.responder, n.initiator, n.table)
  }

  /** `e` after sealing one more message, its session now `s`. */
  function Sender(e: End, s: SessionState, plaintext: Bytes): End {
    e.(session := s, sent := e.sent + [plaintext])
  }

  lemma SenderKeepsInv(e: End, peer: End, table: set<Sealing>, s: SessionState, plaintext: Bytes)
    requires EndInv(e, peer, table) && |e.sent| + 1 < U64_LIMIT
    requires s == e.session.(sendNonce := |e.sent| + 1, cipherNonce := |e.sent| + 1)
    ensures EndInv(Sender(e, s, plaintext), peer, table + {Sealing(e.session.sendKey, |e.sent|, plaintext)})
  {
  }

  lemma ReceiverKeepsInv(e: End, peer: End, table: set<Sealing>, s: SessionState, plaintext: Bytes)
    requires EndInv(peer, e, table) && e.session.sendKey != peer.session.sendKey
    requires s.recvKey == e.session.recvKey
    ensures EndInv(peer, Sender(e, s, plaintext), table + {Sealing(e.session.sendKey, |e.sent|, plaintext)})
  {
  }

  lemma SendKeepsInv(a: Aead, n: Net, side: bool, plaintext: Bytes, room: nat)
    requires Inv(n)
    ensures Inv(Step(a, n, Send(side, plaintext, room)))
  {
    var e, peer := n.At(side), n.At(!side);
    var (s, r) := EncryptStep(a, e.session, plaintext, room);
    if r.Ok? {
      SenderKeepsInv(e, peer, n.table, s, plaintext);
      ReceiverKeepsInv(e, peer, n.table, s, plaintext);
    } else {
      assert Step(a, n, Send(side, plaintext, room)) == n;
    }
  }

  lemma ArriveKeepsInv(a: Aead, n: Net, side: bool, packet: Bytes, room: nat)
    requires Inv(n) && Possible(a, n, Arrive(side, packet, room))
    ensures Inv(Step(a, n, Arrive(side, packet, room)))
  {
    var e, peer := n.At(side), n.At(!side);
    var (s, r) := DecryptStep(a, e.session, packet, room);
    if r.Ok? {
      assert Sealing(e.session.recvKey, FrameNonce(packet), r.value) in n.table;
      var e' := e.(session := s, got := e.got + [Delivery(FrameNonce(packet), r.value)]);
      assert EndInv(e', peer, n.table);
    }
  }

  lemma {:induction false} RunKeepsInv(a: Aead, n: Net, es: seq<Event>)
    requires Inv(n) && Feasible(a, n, es)
    ensures Inv(Run(a, n, es))
  {
    if es == [] {
    } else {
      var before, e := Run(a, n, es[..|es| - 1]), es[|es| - 1];
      RunKeepsInv(a, n, es[..|es| - 1]);
      match e
      case Send(side, plaintext, room) => SendKeepsInv(a, before, side, plaintext, room);
      case Arrive(side, packet, room) => ArriveKeepsInv(a, before, side, packet, room);
    }
  }

  /** In every run each endpoint delivers only what its peer encrypted, each encryption at most
      once, and the plaintext delivered at nonce n is the peer's nth. */
  lemma ChannelSafety(a: Aead, index: U32, id: nat, initiatorKey: nat, responderKey: nat, es: seq<Event>)
    requires Feasible(a, Paired(index, id, initiatorKey, responderKey), es)
    ensures var n := Run(a, Paired(index, id, initiatorKey, responderKey), es);
            DeliveredFrom(n.initiator, n.responder) && DeliveredFrom(n.responder, n.initiator)
  {
    RunKeepsInv(a, Paired(index, id, initiatorKey, responderKey), es);
  }

  /** What a send does: what fits is the next message of that end, sealed under its number, and in the
      table; the other end and everything delivered stay as they are. */
  lemma SendEffect(a: Aead, n: Net, side: bool, plaintext: Bytes, room: nat)
    requires Inv(n)
    ensures var n', e := Step(a, n, Send(side, plaintext, room)), n.At(side);
            var e', m := n'.At(side), |e.sent|;
            var fits := |plaintext| <= 65519 && |plaintext| + 28 <= room && m < U64_MAX;
            && n'.At(!side) == n.At(!side) && e'.got == e.got
            && e'.sent == (if fits then e.sent + [plaintext] else e.sent)
            && e'.session == (if fits then e.session.(sendNonce := m + 1, cipherNonce := m + 1) else e.session)
            && n'.table == (if fits then n.table + {Sealing(e.session.sendKey, m, plaintext)} else n.table)
  {
    EncryptOutcome(a, n.At(side).session, plaintext, room);
  }

  /** What an arrival does: a packet of this session marks its nonce whatever becomes of it, and is
      delivered exactly when the nonce was admissible, not the reserved one, and the cipher opens it. */
  lemma ArriveEffect(a: Aead, n: Net, side: bool, packet: Bytes, room: nat)
    ensures var n', e := Step(a, n, Arrive(side, packet, room)), n.At(side);
            var e' := n'.At(side);
            && n'.At(!side) == n.At(!side) && n'.table == n.table && e'.sent == e.sent
            && (if !Heeded(e.session.index, packet) then e' == e
                else
                  var m, plain := FrameNonce(packet), a.open(e.session.recvKey, FrameNonce(packet), packet[12..]);
                  && e'.session == e.session.(accepted := Record(e.session.accepted, m))
                  && e'.got == if Admits(e.session.accepted, m) && m != U64_MAX && plain.Some? && |packet| <= 28 + room
                               then e.got + [Delivery(m, plain.value)] else e.got)
  {
    DecryptOutcome(a, n.At(side).session, packet, room);
  }

  /** In every run the session's counter is the transport's, so the nth frame an endpoint emits
      carries n in its header and is sealed under n; the counter never wraps. */
  lemma FramesAreNumbered(a: Aead, index: U32, id: nat, ik: nat, rk: nat, es: seq<Event>,
                          side: bool, plaintext: Bytes, room: nat)
    requires Feasible(a, Paired(index, id, ik, rk), es)
    ensures var e := Run(a, Paired(index, id, ik, rk), es).At(side);
            var (_, r) := EncryptStep(a, e.session, plaintext, room);
            && |e.sent| < U64_LIMIT
            && (r.Ok? <==> Fits(plaintext, room) && |e.sent| < U64_MAX)
            && (r.Ok? ==> r.value == Frame(e.session.index, |e.sent|, a.seal(e.session.sendKey, |e.sent|, plaintext)))
  {
    RunKeepsInv(a, Paired(index, id, ik, rk), es);
  }

  /** In every run, the arrival of the peer's mth frame delivers the peer's mth plaintext exactly
      when the window admits m. */
  lemma GenuineArrival(a: Aead, index: U32, id: nat, ik: nat, rk: nat, es: seq<Event>, side: bool, m: nat, room: nat)
    requires a.Lawful() && Feasible(a, Paired(index, id, ik, rk), es)
    requires var sent := Run(a, Paired(index, id, ik, rk), es).At(!side).sent;
             m < |sent| && room >= |sent[m]|
    ensures var n := Run(a, Paired(index, id, ik, rk), es);
            var e, peer := n.At(side), n.At(!side);
            m < U64_MAX &&
            var frame := Frame(peer.session.index, m, a.seal(peer.session.sendKey, m, peer.sent[m]));
            var got' := Step(a, n, Arrive(side, frame, room)).At(side).got;
            got' == if Admits(e.session.accepted, m) then e.got + [Delivery(m, peer.sent[m])] else e.got
  {
    var n := Run(a, Paired(index, id, ik, rk), es);
    RunKeepsInv(a, Paired(index, id, ik, rk), es);
    var e, peer := n.At(side), n.At(!side);
    GenuineFrameOpens(a, e.session, m, peer.sent[m], room);
    FrameRoundTrip(e.session.index, m, a.seal(peer.session.sendKey, m, peer.sent[m]));
  }

  // ---- reordering and duplication ----

  function GenuineFrame(a: Aead, s: SessionState, nonce: U64, plaintext: Bytes): Bytes {
    Frame(s.index, nonce, a.seal(s.recvKey, nonce, plaintext))
  }

  /** The receiving session after the first `i` packets of any stream. */
  function Receive(a: Aead, s: SessionState, packets: seq<Bytes>, i: nat): SessionState
    requires i <= |packets|
  {
    if i == 0 then s
    else DecryptStep(a, Receive(a, s, packets, i - 1), packets[i - 1], MAX_MESSAGE).0
  }

  /** Whether the packet is long enough and names this session: all that is looked at before its
      nonce is. */
  predicate Heeded(index: U32, packet: Bytes) {
    |packet| >= HEADER + TAG && FrameIndex(packet) == index
  }

  /** The nonces of the heeded packets among the first `i`, genuine or not. */
  function Heard(index: U32, packets: seq<Bytes>, i: nat): seq<nat>
    requires i <= |packets|
  {
    if i == 0 then []
    else
      var before := Heard(index, packets, i - 1);
      if Heeded(index, packets[i - 1]) then before + [FrameNonce(packets[i - 1])] else before
  }

  /** Whatever arrives on a fresh session, the window is exactly that of the nonces heard. */
  lemma {:induction false} ReceiveTracksNonces(a: Aead, s: SessionState, packets: seq<Bytes>, i: nat)
    requires s.accepted == {} && i <= |packets|
    ensures var heard := Heard(s.index, packets, i);
            Receive(a, s, packets, i) == s.(accepted := AcceptedBefore(heard, |heard|))
  {
    if i == 0 {
    } else {
      ReceiveTracksNonces(a, s, packets, i - 1);
      if Heeded(s.index, packets[i - 1]) {
        AcceptedAppend(Heard(s.index, packets, i - 1), FrameNonce(packets[i - 1]));
      }
    }
  }

  /** After any stream of packets, genuine, forged, duplicated or of other sessions, a genuine frame
      is decrypted exactly when the window of all nonces heard admits its own. */
  lemma GenuineAfterAnyStream(a: Aead, s: SessionState, packets: seq<Bytes>, i: nat, nonce: U64, plaintext: Bytes)
    requires a.Lawful() && s.accepted == {} && i <= |packets| && |plaintext| <= MAX_PAYLOAD
    ensures var heard := Heard(s.index, packets, i);
            DecryptStep(a, Receive(a, s, packets, i), GenuineFrame(a, s, nonce, plaintext), MAX_MESSAGE).1 ==
            if !Admits(AcceptedBefore(heard, |heard|), nonce) then Err(Replayed)
            else if nonce == U64_MAX then Err(Exhausted)
            else Ok(plaintext)
  {
    ReceiveTracksNonces(a, s, packets, i);
    GenuineFrameOpens(a, Receive(a, s, packets, i), nonce, plaintext, MAX_MESSAGE);
  }

  function GenuineStream(a: Aead, s: SessionState, nonces: seq<U64>, plaintexts: seq<Bytes>): seq<Bytes>
    requires |nonces| == |plaintexts|
  {
    seq(|nonces|, j requires 0 <= j < |nonces| => GenuineFrame(a, s, nonces[j], plaintexts[j]))
  }

  lemma {:induction false} GenuineStreamIsHeard(a: Aead, s: SessionState, nonces: seq<U64>, plaintexts: seq<Bytes>, i: nat)
    requires a.Lawful() && |nonces| == |plaintexts| && i <= |nonces|
    ensures Heard(s.index, GenuineStream(a, s, nonces, plaintexts), i) == nonces[..i]
  {
    if i == 0 {
    } else {
      GenuineStreamIsHeard(a, s, nonces, plaintexts, i - 1);
      FrameRoundTrip(s.index, nonces[i - 1], a.seal(s.recvKey, nonces[i - 1], plaintexts[i - 1]));
    }
  }

  /** A stream of genuine frames, mildly reordered and with any duplicates: every frame is
      decrypted on its first arrival and refused as a replay afterwards. */
  lemma ReorderedStreamIsDelivered(a: Aead, s: SessionState, nonces: seq<U64>, plaintexts: seq<Bytes>, i: nat)
    requires a.Lawful() && s.accepted == {} && |nonces| == |plaintexts| && i < |nonces|
    requires forall p :: p in plaintexts ==> |p| <= MAX_PAYLOAD
    requires forall n :: n in nonces ==> n != U64_MAX
    requires MildlyReordered(nonces)
    ensures var before := Receive(a, s, GenuineStream(a, s, nonces, plaintexts), i);
            DecryptStep(a, before, GenuineFrame(a, s, nonces[i], plaintexts[i]), MAX_MESSAGE).1
            == if FirstAt(nonces, i) then Ok(plaintexts[i]) else Err(Replayed)
  {
    assert nonces[i] in nonces && plaintexts[i] in plaintexts;
    assert Admits(AcceptedBefore(nonces[..i], i), nonces[i]) == FirstAt(nonces, i) by {
      AcceptedPrefix(nonces[..i], nonces, i);
      MildReorderingIsTolerated(nonces, i);
    }
    GenuineStreamIsHeard(a, s, nonces, plaintexts, i);
    GenuineAfterAnyStream(a, s, GenuineStream(a, s, nonces, plaintexts), i, nonces[i], plaintexts[i]);
  }

  /** The window moves before the ciphertext is looked at. After any frame of this session's index
      with an admissible nonce m, refused or not and the reserved nonce included, a genuine frame is
      decrypted exactly when it would have been before, is not m itself, and lies less than WINDOW
      below m. */
  lemma RejectedFrameMovesWindow(a: Aead, s: SessionState, bad: Bytes, nonce: U64, plaintext: Bytes)
    requires a.Lawful() && |plaintext| <= MAX_PAYLOAD && |bad| >= HEADER + TAG
    requires FrameIndex(bad) == s.index && Admits(s.accepted, FrameNonce(bad))
    ensures var m := FrameNonce(bad);
            var frame := GenuineFrame(a, s, nonce, plaintext);
            var before := DecryptStep(a, s, frame, MAX_MESSAGE).1;
            var after := DecryptStep(a, DecryptStep(a, s, bad, MAX_MESSAGE).0, frame, MAX_MESSAGE).1;
            after.Ok? <==> before.Ok? && nonce != m && m < nonce + WINDOW
  {
    var s' := DecryptStep(a, s, bad, MAX_MESSAGE).0;
    GenuineFrameOpens(a, s, nonce, plaintext, MAX_MESSAGE);
    GenuineFrameOpens(a, s', nonce, plaintext, MAX_MESSAGE);
  }

  /** Such a loss happens: on a fresh session one frame at nonce WINDOW that does not open is refused,
      and the genuine frame at nonce 0, decrypted without it, is then refused as a replay. */
  lemma RefusedFrameCostsGenuineOne(a: Aead, s: SessionState, body: Bytes, plaintext: Bytes)
    requires a.Lawful() && s.accepted == {} && |plaintext| <= MAX_PAYLOAD
    requires TAG <= |body| <= MAX_MESSAGE && a.open(s.recvKey, WINDOW, body) == None
    ensures var bad, genuine := Frame(s.index, WINDOW, body), GenuineFrame(a, s, 0, plaintext);
            var (s', r) := DecryptStep(a, s, bad, MAX_MESSAGE);
            && r == Err(Rejected)
            && DecryptStep(a, s, genuine, MAX_MESSAGE).1 == Ok(plaintext)
            && DecryptStep(a, s', genuine, MAX_MESSAGE).1 == Err(Replayed)
  {
    FrameRoundTrip(s.index, WINDOW, body);
    var s' := DecryptStep(a, s, Frame(s.index, WINDOW, body), MAX_MESSAGE).0;
    GenuineFrameOpens(a, s, 0, plaintext, MAX_MESSAGE);
    GenuineFrameOpens(a, s', 0, plaintext, MAX_MESSAGE);
  }

  /** And the worst one: after any frame with the reserved nonce 2^64-1, which never opens, only
      genuine frames within WINDOW of the very top still do. */
  lemma ReservedNonceClosesWindow(a: Aead, s: SessionState, body: Bytes, nonce: U64, plaintext: Bytes)
    requires a.Lawful() && s.accepted == {} && |plaintext| <= MAX_PAYLOAD && TAG <= |body| <= MAX_MESSAGE
    ensures var (s', r) := DecryptStep(a, s, Frame(s.index, U64_MAX, body), MAX_MESSAGE);
            && r == Err(Exhausted)
            && (DecryptStep(a, s', GenuineFrame(a, s, nonce, plaintext), MAX_MESSAGE).1.Ok? <==>
                  U64_MAX - WINDOW < nonce < U64_MAX)
  {
    FrameRoundTrip(s.index, U64_MAX, body);
    GenuineFrameOpens(a, s, nonce, plaintext, MAX_MESSAGE);
    RejectedFrameMovesWindow(a, s, Frame(s.index, U64_MAX, body), nonce, plaintext);
  }
}
