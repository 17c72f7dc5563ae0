/** Handshake messages: type byte, session index, and the pair of sessions they leave behind.
    What Noise itself computes is a parameter: reading a message yields the shared transport keys,
    named by `id`, and the peer's static key, or nothing. */
module Handshake {
  import opened Prelude
  import opened Crypto
  import Channel

  datatype Shared = Shared(id: nat, remote: nat)

  datatype Fault = WrongType | ZeroIndex | TooShort | NoiseRejected

  function InitMessage(noise: Bytes): Bytes {
    [1] + noise
  }

  /** HandshakeResponder::finish; `reply` is the Noise answer to a message that was read. */
  function Respond(msg: Bytes, index: U32, read: Bytes -> Option<Shared>, reply: Bytes)
    : Result<(SessionState, Bytes), Fault>
  {
    if msg == [] || msg[0] != 1 then Err(WrongType)
    else if index == 0 then Err(ZeroIndex)
    else match read(msg[1..])
      case None => Err(NoiseRejected)
      case Some(s) => Ok((ResponderSession(index, s.remote, s.id), [2] + ToLe(index, 4) + reply))
  }

  /** HandshakeInitiator::finish. */
  function Complete(msg: Bytes, read: Bytes -> Option<Shared>): Result<SessionState, Fault> {
    if msg == [] || msg[0] != 2 then Err(WrongType)
    else if |msg| < 5 then Err(TooShort)
    else
      FromLeBound(msg[1..5]);
      PowersOf256();
      match read(msg[5..])
      case None => Err(NoiseRejected)
      case Some(s) => Ok(InitiatorSession(FromLe(msg[1..5]), s.remote, s.id))
  }

  /** Exactly which messages the responder takes, and what it makes of them: the type byte must be 1,
      the index it was given nonzero, and Noise must accept the rest. */
  lemma RespondMeans(msg: Bytes, index: U32, read: Bytes -> Option<Shared>, reply: Bytes)
    ensures var r := Respond(msg, index, read, reply);
            && (r == Err(WrongType) <==> |msg| == 0 || msg[0] != 1)
            && (r == Err(ZeroIndex) <==> |msg| > 0 && msg[0] == 1 && index == 0)
            && (r == Err(NoiseRejected) <==> |msg| > 0 && msg[0] == 1 && index != 0 && read(msg[1..]) == None)
            && (r.Err? ==> r.error != TooShort)
            && (r.Ok? ==> && r.value.0.index == index && r.value.0.remote == read(msg[1..]).value.remote
                          && r.value.0.sendKey == Key(read(msg[1..]).value.id, false)
                          && r.value.0.recvKey == Key(read(msg[1..]).value.id, true)
                          && |r.value.1| == 5 + |reply| && r.value.1[0] == 2)
  {
  }

  /** Exactly which messages the initiator takes: the type byte must be 2, four bytes of index must
      follow, and Noise must accept the rest; the session gets that index, whatever it is. */
  lemma CompleteMeans(msg: Bytes, read: Bytes -> Option<Shared>)
    ensures var r := Complete(msg, read);
            && (r == Err(WrongType) <==> |msg| == 0 || msg[0] != 2)
            && (r == Err(TooShort) <==> 0 < |msg| < 5 && msg[0] == 2)
            && (r == Err(NoiseRejected) <==> |msg| >= 5 && msg[0] == 2 && read(msg[5..]) == None)
            && (r.Err? ==> r.error != ZeroIndex)
            && (r.Ok? ==> && r.value.index == LeastFirst(msg[1], msg[2], msg[3], msg[4])
                          && r.value.remote == read(msg[5..]).value.remote
                          && r.value.sendKey == Key(read(msg[5..]).value.id, true)
                          && r.value.recvKey == Key(read(msg[5..]).value.id, false))
  {
    if |msg| >= 5 {
      FourBytes(msg[1..5]);
    }
  }

  /** The number whose bytes these are, least significant first. */
  function LeastFirst(a: nat, b: nat, c: nat, d: nat): nat {
    a + 0x100 * b + 0x1_0000 * c + 0x100_0000 * d
  }

  lemma FourBytes(b: Bytes)
    requires |b| == 4
    ensures FromLe(b) == LeastFirst(b[0], b[1], b[2], b[3])
  {
    assert FromLe(b[1..][1..][1..]) == b[3];
    assert FromLe(b[1..][1..]) == LeastFirst(b[2], b[3], 0, 0);
    assert FromLe(b[1..]) == LeastFirst(b[1], b[2], b[3], 0);
  }

  /** Neither side takes the other kind of message, so no message makes both a session. */
  lemma MessagesAreNotConfused(hello: Bytes, index: U32, read: Bytes -> Option<Shared>, reply: Bytes, other: Bytes -> Option<Shared>)
    ensures Complete(InitMessage(hello), other) == Err(WrongType)
    ensures var r := Respond(InitMessage(hello), index, read, reply);
            r.Ok? ==> Respond(r.value.1, index, other, reply) == Err(WrongType)
  {
  }

  /** When each side's Noise accepts the other's message and both derive the same keys, the two
      sessions carry the index the responder chose and mirror each other's keys: exactly the state
      from which the channel's guarantees start. */
  lemma HandshakePairsSessions(index: U32, id: nat, initiatorKey: nat, responderKey: nat, hello: Bytes, reply: Bytes,
                               responderReads: Bytes -> Option<Shared>, initiatorReads: Bytes -> Option<Shared>)
    requires index != 0
    requires responderReads(hello) == Some(Shared(id, initiatorKey))
    requires initiatorReads(reply) == Some(Shared(id, responderKey))
    ensures var responded := Respond(InitMessage(hello), index, responderReads, reply);
            && responded.Ok?
            && var completed := Complete(responded.value.1, initiatorReads);
            && completed.Ok?
            && Channel.Paired(index, id, initiatorKey, responderKey) ==
               Channel.Net(Channel.End(completed.value, [], []), Channel.End(responded.value.0, [], []), {})
  {
    assert InitMessage(hello)[1..] == hello;
    var response := [2] + ToLe(index, 4) + reply;
    assert response[1..5] == ToLe(index, 4) && response[5..] == reply;
    PowersOf256();
    LeRoundTrip(index, 4);
  }
}
