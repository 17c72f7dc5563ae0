/** The data channel's session: explicit-nonce frames over an authenticated cipher. */
module Crypto {
  import opened Prelude
  import opened Replay

  const MAX_MESSAGE: nat := 65535
  const MAX_PAYLOAD: nat := 65519
  const TAG: nat := 16
  const HEADER: nat := 12

  /** A transport key: one per handshake and direction. */
  datatype Key = Key(id: nat, fromInitiator: bool)

  /** The authenticated cipher, as two functions of key, nonce and text. */
  datatype Aead = Aead(seal: (Key, nat, Bytes) -> Bytes, open: (Key, nat, Bytes) -> Option<Bytes>) {
    ghost predicate Lawful() {
      && (forall k: Key, n: nat, p: Bytes :: |seal(k, n, p)| == |p| + TAG && open(k, n, seal(k, n, p)) == Some(p))
      && (forall k: Key, n: nat, c: Bytes :: open(k, n, c).Some? ==> |c| == |open(k, n, c).value| + TAG)
    }
  }

  datatype CryptError = PayloadTooLarge | BufferTooSmall | PacketTooShort | IndexMismatch
                      | Replayed | Exhausted | Rejected

  // ---- wire format ----

  /** [index: u32 LE][nonce: u64 LE][ciphertext] */
  function Frame(index: U32, nonce: U64, ciphertext: Bytes): (packet: Bytes)
    ensures |packet| == HEADER + |ciphertext|
  {
    ToLe(index, 4) + ToLe(nonce, 8) + ciphertext
  }

  function FrameIndex(packet: Bytes): U32
    requires |packet| >= 4
  {
    FromLeBound(packet[..4]);
    PowersOf256();
    FromLe(packet[..4])
  }

  function FrameNonce(packet: Bytes): U64
    requires |packet| >= HEADER
  {
    FromLeBound(packet[4..12]);
    PowersOf256();
    FromLe(packet[4..12])
  }

  lemma FrameRoundTrip(index: U32, nonce: U64, ciphertext: Bytes)
    ensures FrameIndex(Frame(index, nonce, ciphertext)) == index
    ensures FrameNonce(Frame(index, nonce, ciphertext)) == nonce
    ensures Frame(index, nonce, ciphertext)[HEADER..] == ciphertext
  {
    var f := Frame(index, nonce, ciphertext);
    assert f[..4] == ToLe(index, 4) && f[4..12] == ToLe(nonce, 8);
    PowersOf256();
    LeRoundTrip(index, 4);
    LeRoundTrip(nonce, 8);
  }

  /** The bytes of a frame: four of index and eight of nonce, least significant first, and then the
      ciphertext. */
  lemma FrameLayout(index: U32, nonce: U64, ciphertext: Bytes, k: nat)
    ensures var f := Frame(index, nonce, ciphertext);
            && |f| == 12 + |ciphertext|
            && (k < 4 ==> f[k] == Digit(index, k))
            && (k < 8 ==> f[4 + k] == Digit(nonce, k))
            && (k < |ciphertext| ==> f[12 + k] == ciphertext[k])
  {
    if k < 4 {
      LeDigit(index, 4, k);
    }
    if k < 8 {
      LeDigit(nonce, 8, k);
    }
  }

  /** A data frame starts with the handshake type byte 1 exactly when the low byte of its
      session index is 1. */
  lemma FrameLooksLikeHandshake(index: U32, nonce: U64, ciphertext: Bytes)
    ensures Frame(index, nonce, ciphertext)[0] == 1 <==> index % 256 == 1
  {
    assert ToLe(index, 4)[0] == index % 256;
  }

  // ---- the session as a value ----

  /** `cipherNonce` is the transport's own sending counter, `sendNonce` the session's copy of it;
      `remote` is the peer's static key, learnt in the handshake. */
  datatype SessionState = SessionState(
    index: U32,
    remote: nat,
    sendKey: Key,
    recvKey: Key,
    sendNonce: U64,
    cipherNonce: U64,
    accepted: set<nat>)

  predicate Fits(plaintext: Bytes, room: nat) {
    |plaintext| <= MAX_PAYLOAD && HEADER + |plaintext| + TAG <= room
  }

  function EncryptStep(a: Aead, s: SessionState, plaintext: Bytes, room: nat): (SessionState, Result<Bytes, CryptError>) {
    if |plaintext| > MAX_PAYLOAD then (s, Err(PayloadTooLarge))
    else if !Fits(plaintext, room) then (s, Err(BufferTooSmall))
    else if s.cipherNonce == U64_MAX then (s, Err(Exhausted))
    else (
      s.(sendNonce := (s.sendNonce + 1) % U64_LIMIT, cipherNonce := s.cipherNonce + 1),
      Ok(Frame(s.index, s.sendNonce, a.seal(s.sendKey, s.cipherNonce, plaintext))))
  }

  /** The nonce is recorded before the ciphertext is verified. */
  function DecryptStep(a: Aead, s: SessionState, packet: Bytes, room: nat): (SessionState, Result<Bytes, CryptError>) {
    if |packet| < HEADER + TAG then (s, Err(PacketTooShort))
    else if FrameIndex(packet) != s.index then (s, Err(IndexMismatch))
    else
      var nonce := FrameNonce(packet);
      if !Admits(s.accepted, nonce) then (s, Err(Replayed))
      else (s.(accepted := s.accepted + {nonce}), ReadResult(a, s.recvKey, nonce, packet[HEADER..], room))
  }

  /** The transport refuses the reserved nonce 2^64-1. */
  function ReadResult(a: Aead, key: Key, nonce: U64, ciphertext: Bytes, room: nat): Result<Bytes, CryptError> {
    if room + TAG < |ciphertext| then Err(BufferTooSmall)
    else if nonce == U64_MAX then Err(Exhausted)
    else match a.open(key, nonce, ciphertext)
      case None => Err(Rejected)
      case Some(p) => Ok(p)
  }

  /** How every encryption ends: what fits is sealed under the next number while there is one, and a
      refusal changes nothing. */
  lemma EncryptOutcome(a: Aead, s: SessionState, plaintext: Bytes, room: nat)
    requires s.sendNonce == s.cipherNonce
    ensures var (s', r) := EncryptStep(a, s, plaintext, room);
            var n := s.cipherNonce;
            && (r == Err(PayloadTooLarge) <==> |plaintext| > 65519)
            && (r == Err(BufferTooSmall) <==> |plaintext| <= 65519 && room < |plaintext| + 28)
            && (r == Err(Exhausted) <==> |plaintext| <= 65519 && |plaintext| + 28 <= room && n == U64_MAX)
            && (r.Err? ==> s' == s && r.error in {PayloadTooLarge, BufferTooSmall, Exhausted})
            && (r.Ok? ==> r.value == Frame(s.index, n, a.seal(s.sendKey, n, plaintext))
                          && s' == s.(sendNonce := n + 1, cipherNonce := n + 1))
  {
  }

  /** How every decryption ends. A frame of this session marks its nonce whatever becomes of it, and
      nothing else of the session changes. */
  lemma DecryptOutcome(a: Aead, s: SessionState, packet: Bytes, room: nat)
    ensures var (s', r) := DecryptStep(a, s, packet, room);
            if |packet| < 28 then s' == s && r == Err(PacketTooShort)
            else if FrameIndex(packet) != s.index then s' == s && r == Err(IndexMismatch)
            else
              var n, plain := FrameNonce(packet), a.open(s.recvKey, FrameNonce(packet), packet[12..]);
              && s' == s.(accepted := Record(s.accepted, n))
              && (r == Err(Replayed) <==> !Admits(s.accepted, n))
              && (r.Ok? <==> Admits(s.accepted, n) && n != U64_MAX && plain.Some? && |packet| <= 28 + room)
              && (r.Ok? ==> r.value == plain.value)
  {
  }

  /** What one side seals the other opens, header included, when the window admits the nonce. */
  lemma GenuineFrameOpens(a: Aead, s: SessionState, nonce: U64, plaintext: Bytes, room: nat)
    requires a.Lawful() && room >= |plaintext|
    ensures DecryptStep(a, s, Frame(s.index, nonce, a.seal(s.recvKey, nonce, plaintext)), room)
            == (s.(accepted := Record(s.accepted, nonce)),
                if !Admits(s.accepted, nonce) then Err(Replayed)
                else if nonce == U64_MAX then Err(Exhausted)
                else Ok(plaintext))
  {
    FrameRoundTrip(s.index, nonce, a.seal(s.recvKey, nonce, plaintext));
  }

  // ---- the imperative session ----

  /** The cipher transport produced by a handshake. */
  class Transport {
    const remote: nat
    const sendKey: Key
    const recvKey: Key
    var sendN: U64
    var recvN: U64

    constructor (remote: nat, sendKey: Key, recvKey: Key)
      ensures this.remote == remote && this.sendKey == sendKey && this.recvKey == recvKey
      ensures sendN == 0 && recvN == 0
    {
      this.remote, this.sendKey, this.recvKey := remote, sendKey, recvKey;
      sendN, recvN := 0, 0;
    }

    /** Seals into `out[off..]` and advances the counter, only on success. */
    method WriteMessage(a: Aead, plaintext: Bytes, out: array<Byte>, off: nat) returns (r: Result<nat, CryptError>)
      requires a.Lawful() && off <= out.Length
      modifies this, out
      ensures recvN == old(recvN) && out[..off] == old(out[..off])
      ensures r.Ok? <==> |plaintext| + TAG <= MAX_MESSAGE && off + |plaintext| + TAG <= out.Length && old(sendN) != U64_MAX
      ensures r.Err? ==> sendN == old(sendN) && out[..] == old(out[..])
      ensures r.Err? && off + |plaintext| + TAG <= out.Length && |plaintext| + TAG <= MAX_MESSAGE ==> r.error == Exhausted
      ensures r.Ok? ==> && sendN == old(sendN) + 1
                        && r.value == |plaintext| + TAG
                        && out[off..off + r.value] == a.seal(sendKey, old(sendN), plaintext)
    {
      if |plaintext| + TAG > MAX_MESSAGE || off + |plaintext| + TAG > out.Length {
        return Err(BufferTooSmall);
      }
      if sendN == U64_MAX {
        return Err(Exhausted);
      }
      var c := a.seal(sendKey, sendN, plaintext);
      forall i | 0 <= i < |c| {
        out[off + i] := c[i];
      }
      sendN := sendN + 1;
      return Ok(|c|);
    }

    method SetReceivingNonce(nonce: U64)
      modifies this`recvN
      ensures recvN == nonce
    {
      recvN := nonce;
    }

    method ReadMessage(a: Aead, ciphertext: Bytes, out: array<Byte>) returns (r: Result<nat, CryptError>)
      requires a.Lawful() && |ciphertext| >= TAG
      modifies this`recvN, out
      ensures r.Err? ==> recvN == old(recvN) && out[..] == old(out[..])
      ensures var spec := ReadResult(a, recvKey, old(recvN), ciphertext, out.Length);
              match r
              case Err(e) => spec == Err(e)
              case Ok(n) => n <= out.Length && spec == Ok(out[..n]) && recvN == old(recvN) + 1
    {
      if out.Length + TAG < |ciphertext| {
        return Err(BufferTooSmall);
      }
      if recvN == U64_MAX {
        return Err(Exhausted);
      }
      var plain := a.open(recvKey, recvN, ciphertext);
      if plain.None? {
        return Err(Rejected);
      }
      var p := plain.value;
      forall i | 0 <= i < |p| {
        out[i] := p[i];
      }
      recvN := recvN + 1;
      assert out[..|p|] == p;
      return Ok(|p|);
    }
  }

  class Session {
    const index: U32
    const transport: Transport
    var sendNonce: U64
    const replay: ReplayWindow

    ghost predicate Valid()
      reads this, transport, replay, replay.bitmap
    {
      replay.Valid() && sendNonce == transport.sendN
    }

    ghost function State(): SessionState
      reads this, transport, replay
    {
      SessionState(index, transport.remote, transport.sendKey, transport.recvKey,
                   sendNonce, transport.sendN, replay.accepted)
    }

    /** A session fresh from a handshake. */
    constructor (index: U32, transport: Transport)
      requires transport.sendN == 0
      ensures Valid() && this.transport == transport
      ensures State() == NewSession(index, transport.remote, transport.sendKey, transport.recvKey)
      ensures fresh(replay) && fresh(replay.bitmap)
    {
      this.index, this.transport := index, transport;
      sendNonce := 0;
      replay := new ReplayWindow();
    }

    method Encrypt(a: Aead, plaintext: Bytes, out: array<Byte>) returns (r: Result<nat, CryptError>)
      requires Valid() && a.Lawful() && out as object != replay.bitmap
      modifies this`sendNonce, transport, out
      ensures Valid()
      ensures var (s, wire) := EncryptStep(a, old(State()), plaintext, out.Length);
              && State() == s
              && match r
                 case Err(e) => wire == Err(e)
                 case Ok(n) => n <= out.Length && wire == Ok(out[..n])
    {
      if |plaintext| > MAX_PAYLOAD {
        return Err(PayloadTooLarge);
      }
      if out.Length < 12 + |plaintext| + 16 {
        return Err(BufferTooSmall);
      }
      var nonce := sendNonce;
      var header := ToLe(index, 4) + ToLe(nonce, 8);
      forall i | 0 <= i < 12 {
        out[i] := header[i];
      }
      assert out[..12] == header;
      var n := transport.WriteMessage(a, plaintext, out, 12);
      if n.Err? {
        return n;
      }
      sendNonce := (sendNonce + 1) % U64_LIMIT;
      assert out[..12 + n.value] == out[..12] + out[12..12 + n.value];
      return Ok(12 + n.value);
    }

    method Decrypt(a: Aead, packet: Bytes, out: array<Byte>) returns (r: Result<nat, CryptError>)
      requires Valid() && a.Lawful() && out as object != replay.bitmap
      modifies transport, replay, replay.bitmap, out
      ensures Valid()
      ensures var (s, plain) := DecryptStep(a, old(State()), packet, out.Length);
              && State() == s
              && match r
                 case Err(e) => plain == Err(e)
                 case Ok(n) => n <= out.Length && plain == Ok(out[..n])
    {
      if |packet| < 12 + 16 {
        return Err(PacketTooShort);
      }
      var packetIndex := FrameIndex(packet);
      if packetIndex != index {
        return Err(IndexMismatch);
      }
      var nonce := FrameNonce(packet);
      var isFresh := replay.CheckAndUpdate(nonce);
      if !isFresh {
        return Err(Replayed);
      }
      transport.SetReceivingNonce(nonce);
      r := transport.ReadMessage(a, packet[12..], out);
    }
  }

  function NewSession(index: U32, remote: nat, sendKey: Key, recvKey: Key): SessionState {
    SessionState(index, remote, sendKey, recvKey, 0, 0, {})
  }

  /** The session each side of handshake `id` is left with. */
  function InitiatorSession(index: U32, remote: nat, id: nat): SessionState {
    NewSession(index, remote, Key(id, true), Key(id, false))
  }

  function ResponderSession(index: U32, remote: nat, id: nat): SessionState {
    NewSession(index, remote, Key(id, false), Key(id, true))
  }
}
