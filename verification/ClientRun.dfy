/** The client's session slot: uplink, keepalive and rekeying share one session under a lock. */
module ClientRun {
  import opened Prelude
  import opened Crypto
  import Channel

  type Sealing = Channel.Sealing

  /** The keepalive task's buffer. */
  const KEEPALIVE_ROOM: nat := 64

  datatype Slot = Slot(session: SessionState, established: nat, lastRx: nat, lastTx: nat)

  // ---- what each task does to the slot under the lock ----

  function SealStep(a: Aead, slot: Slot, plain: Bytes, room: nat, now: nat): (Slot, Result<Bytes, CryptError>) {
    var (s, r) := EncryptStep(a, slot.session, plain, room);
    (if r.Ok? then slot.(session := s, lastTx := now) else slot.(session := s), r)
  }

  function OpenStep(a: Aead, slot: Slot, packet: Bytes, now: nat): (Slot, Result<Bytes, CryptError>) {
    var (s, r) := DecryptStep(a, slot.session, packet, MAX_MESSAGE);
    (if r.Ok? then slot.(session := s, lastRx := now) else slot.(session := s), r)
  }

  function ReplaceStep(session: SessionState, now: nat): Slot {
    Slot(session, now, now, now)
  }

  // ---- whole client runs ----

  datatype Event =
    | Uplink(plain: Bytes, now: nat)
    | Keepalive(now: nat)
    | Downlink(packet: Bytes, now: nat)
    | Rekeyed(index: U32, id: nat, now: nat)

  /** `ids` are the handshakes completed so far; `sealed` is everything ever sealed, in order. */
  datatype Client = Client(slot: Slot, server: nat, ids: set<nat>, sealed: seq<Sealing>)

  function Start(index: U32, server: nat, id: nat, now: nat): Client {
    Client(ReplaceStep(InitiatorSession(index, server, id), now), server, {id}, [])
  }

  /** Every handshake yields keys not seen before. */
  predicate Possible(c: Client, e: Event) {
    e.Rekeyed? ==> e.id !in c.ids
  }

  function SealAndLog(a: Aead, c: Client, plain: Bytes, room: nat, now: nat): Client {
    var (slot, r) := SealStep(a, c.slot, plain, room, now);
    c.(slot := slot,
       sealed := if r.Ok? then c.sealed + [Channel.Sealing(c.slot.session.sendKey, c.slot.session.cipherNonce, plain)] else c.sealed)
  }

  function Rekey(c: Client, index: U32, id: nat, now: nat): Client {
    c.(slot := ReplaceStep(InitiatorSession(index, c.server, id), now), ids := c.ids + {id})
  }

  function Step(a: Aead, c: Client, e: Event): Client {
    match e
    case Uplink(plain, now) => SealAndLog(a, c, plain, MAX_MESSAGE, now)
    case Keepalive(now) => SealAndLog(a, c, [], KEEPALIVE_ROOM, now)
    case Downlink(packet, now) => c.(slot := OpenStep(a, c.slot, packet, now).0)
    case Rekeyed(index, id, now) => Rekey(c, index, id, now)
  }

  ghost predicate IsRun(a: Aead, first: Client, es: seq<Event>, states: seq<Client>) {
    && |states| == |es| + 1
    && states[0] == first
    && forall i :: 0 <= i < |es| ==> Possible(states[i], es[i]) && states[i + 1] == Step(a, states[i], es[i])
  }

  /** No (key, nonce) pair was used twice. */
  ghost predicate NoneTwice(sealed: seq<Sealing>) {
    forall i, j :: 0 <= i < j < |sealed| ==> sealed[i].key != sealed[j].key || sealed[i].nonce != sealed[j].nonce
  }

  ghost predicate Inv(c: Client) {
    var s := c.slot.session;
    && s.sendNonce == s.cipherNonce
    && s.sendKey.id in c.ids
    && (forall i :: 0 <= i < |c.sealed| ==> c.sealed[i].key.id in c.ids)
    && (forall i :: 0 <= i < |c.sealed| && c.sealed[i].key == s.sendKey ==> c.sealed[i].nonce < s.cipherNonce)
    && NoneTwice(c.sealed)
  }

  lemma SealKeepsInv(a: Aead, c: Client, plain: Bytes, room: nat, now: nat)
    requires Inv(c)
    ensures Inv(SealAndLog(a, c, plain, room, now))
  {
  }

  lemma RekeyKeepsInv(c: Client, index: U32, id: nat, now: nat)
    requires Inv(c) && id !in c.ids
    ensures Inv(Rekey(c, index, id, now))
    ensures forall i :: 0 <= i < |c.sealed| ==> c.sealed[i].key != Rekey(c, index, id, now).slot.session.sendKey
  {
  }

  lemma {:induction false} RunKeepsInv(a: Aead, index: U32, server: nat, id: nat, t0: nat,
                                       es: seq<Event>, states: seq<Client>, i: nat)
    requires IsRun(a, Start(index, server, id, t0), es, states) && i <= |es|
    ensures Inv(states[i])
  {
    if i == 0 {
    } else {
      RunKeepsInv(a, index, server, id, t0, es, states, i - 1);
      match es[i - 1]
      case Uplink(plain, now) => SealKeepsInv(a, states[i - 1], plain, MAX_MESSAGE, now);
      case Keepalive(now) => SealKeepsInv(a, states[i - 1], [], KEEPALIVE_ROOM, now);
      case _ =>
    }
  }

  /** What a seal puts on record is the key and number its frame was really sealed under. */
  lemma SealIsRecorded(a: Aead, c: Client, plain: Bytes, room: nat, now: nat)
    requires Inv(c)
    ensures var s, (slot, r) := c.slot.session, SealStep(a, c.slot, plain, room, now);
            var c' := SealAndLog(a, c, plain, room, now);
            && c'.slot == slot && c'.ids == c.ids && c'.server == c.server
            && (r.Ok? ==> && r.value == Frame(s.index, s.cipherNonce, a.seal(s.sendKey, s.cipherNonce, plain))
                          && c'.sealed == c.sealed + [Channel.Sealing(s.sendKey, s.cipherNonce, plain)])
            && (r.Err? ==> c' == c)
            && (r.Ok? <==> |plain| <= 65519 && |plain| + 28 <= room && s.cipherNonce < U64_MAX)
  {
    EncryptOutcome(a, c.slot.session, plain, room);
  }

  // ---- the timestamps ----

  /** When the session in use was established: at the start or by the latest re-handshake. */
  function EstablishedAt(t0: nat, es: seq<Event>, i: nat): nat
    requires i <= |es|
  {
    if i == 0 then t0 else if es[i - 1].Rekeyed? then es[i - 1].now else EstablishedAt(t0, es, i - 1)
  }

  /** When the client last sent: the latest event that added to the record, or the establishment. */
  ghost function LastSent(t0: nat, es: seq<Event>, states: seq<Client>, i: nat): nat
    requires i <= |es| && |states| == |es| + 1
  {
    if i == 0 then t0
    else if es[i - 1].Rekeyed? || |states[i].sealed| > |states[i - 1].sealed| then es[i - 1].now
    else LastSent(t0, es, states, i - 1)
  }

  /** The latest datagram that the session then in use decrypted, or the establishment. */
  ghost function LastHeard(a: Aead, t0: nat, es: seq<Event>, states: seq<Client>, i: nat): nat
    requires i <= |es| && |states| == |es| + 1
  {
    if i == 0 then t0
    else if es[i - 1].Rekeyed? || (es[i - 1].Downlink? && DecryptStep(a, states[i - 1].slot.session, es[i - 1].packet, MAX_MESSAGE).1.Ok?)
    then es[i - 1].now
    else LastHeard(a, t0, es, states, i - 1)
  }

  lemma {:induction false} TimesTell(a: Aead, index: U32, server: nat, id: nat, t0: nat,
                                     es: seq<Event>, states: seq<Client>, i: nat)
    requires IsRun(a, Start(index, server, id, t0), es, states) && i <= |es|
    ensures var slot := states[i].slot;
            && slot.established == EstablishedAt(t0, es, i)
            && slot.lastTx == LastSent(t0, es, states, i)
            && slot.lastRx == LastHeard(a, t0, es, states, i)
  {
    if i == 0 {
    } else {
      TimesTell(a, index, server, id, t0, es, states, i - 1);
      RunKeepsInv(a, index, server, id, t0, es, states, i - 1);
      match es[i - 1]
      case Uplink(plain, now) => SealIsRecorded(a, states[i - 1], plain, MAX_MESSAGE, now);
      case Keepalive(now) => SealIsRecorded(a, states[i - 1], [], KEEPALIVE_ROOM, now);
      case _ =>
    }
  }

  /** What each event does: an uplink packet and a keepalive are sealed, the one as it came and the
      other empty; only a re-handshake changes the key. */
  lemma EventEffect(a: Aead, c: Client, e: Event)
    requires Inv(c) && Possible(c, e)
    ensures var c', s := Step(a, c, e), c.slot.session;
            match e
            case Uplink(plain, _) =>
              c'.sealed == c.sealed + (if |plain| <= 65507 && s.cipherNonce < U64_MAX
                                       then [Channel.Sealing(s.sendKey, s.cipherNonce, plain)] else [])
            case Keepalive(_) =>
              c'.sealed == c.sealed + (if s.cipherNonce < U64_MAX then [Channel.Sealing(s.sendKey, s.cipherNonce, [])] else [])
            case Downlink(packet, _) =>
              c'.sealed == c.sealed && c'.slot.session == DecryptStep(a, s, packet, MAX_MESSAGE).0
            case Rekeyed(index, id, _) =>
              c'.sealed == c.sealed && c'.slot.session == InitiatorSession(index, c.server, id) && c'.ids == c.ids + {id}
  {
    match e
    case Uplink(plain, now) => SealIsRecorded(a, c, plain, MAX_MESSAGE, now);
    case Keepalive(now) => SealIsRecorded(a, c, [], KEEPALIVE_ROOM, now);
    case _ =>
  }

  /** In every client run no (key, nonce) pair is sealed twice, though uplink and keepalive share
      the session and rekeying replaces it at any moment. */
  lemma NonceUniqueness(a: Aead, index: U32, server: nat, id: nat, t0: nat, es: seq<Event>, states: seq<Client>, i: nat)
    requires IsRun(a, Start(index, server, id, t0), es, states) && i <= |es|
    ensures NoneTwice(states[i].sealed)
  {
    RunKeepsInv(a, index, server, id, t0, es, states, i);
  }

  /** In every client run the session's counter equals the transport's and never wraps, and a
      keepalive is refused only once the counter is exhausted. */
  lemma CountersStayInStep(a: Aead, index: U32, server: nat, id: nat, t0: nat,
                           es: seq<Event>, states: seq<Client>, i: nat, plain: Bytes, room: nat, now: nat)
    requires IsRun(a, Start(index, server, id, t0), es, states) && i <= |es|
    ensures var s := states[i].slot.session;
            var (s', r) := EncryptStep(a, s, plain, room);
            && s.sendNonce == s.cipherNonce
            && (r.Ok? ==> s'.sendNonce == s.sendNonce + 1 == s'.cipherNonce)
            && (SealStep(a, states[i].slot, [], KEEPALIVE_ROOM, now).1.Err? <==> s.sendNonce == U64_MAX)
  {
    RunKeepsInv(a, index, server, id, t0, es, states, i);
  }

  // ---- the slot as an object ----

  class SessionSlot {
    var session: Session
    var established: nat
    var lastRx: nat
    var lastTx: nat
    const server: nat
    /** The handshakes completed and everything sealed so far. */
    ghost var ids: set<nat>
    ghost var sealed: seq<Sealing>

    /** In particular no pair was sealed under twice, whichever sessions the slot has held. */
    ghost predicate Valid()
      reads this, session, session.transport, session.replay, session.replay.bitmap
    {
      session.Valid() && Inv(View())
    }

    ghost function View(): Client
      reads this, session, session.transport, session.replay
    {
      Client(Slot(session.State(), established, lastRx, lastTx), server, ids, sealed)
    }

    constructor (session: Session, server: nat, id: nat, now: nat)
      requires session.Valid() && session.State() == InitiatorSession(session.index, server, id)
      ensures Valid() && this.session == session && View() == Start(session.index, server, id, now)
    {
      this.session, this.server := session, server;
      established, lastRx, lastTx := now, now, now;
      ids, sealed := {id}, [];
    }

    method Seal(a: Aead, plain: Bytes, out: array<Byte>, now: nat) returns (r: Result<nat, CryptError>)
      requires Valid() && a.Lawful() && out as object != session.replay.bitmap
      modifies this`lastTx, this`sealed, session`sendNonce, session.transport, out
      ensures Valid() && View() == SealAndLog(a, old(View()), plain, out.Length, now)
      ensures var wire := SealStep(a, old(View()).slot, plain, out.Length, now).1;
              match r
              case Err(e) => wire == Err(e)
              case Ok(n) => n <= out.Length && wire == Ok(out[..n])
    {
      SealKeepsInv(a, View(), plain, out.Length, now);
      ghost var before := session.State();
      r := session.Encrypt(a, plain, out);
      if r.Ok? {
        lastTx := now;
        sealed := sealed + [Channel.Sealing(before.sendKey, before.cipherNonce, plain)];
      }
    }

    method Open(a: Aead, packet: Bytes, out: array<Byte>, now: nat) returns (r: Result<nat, CryptError>)
      requires Valid() && a.Lawful() && out as object != session.replay.bitmap && out.Length == MAX_MESSAGE
      modifies this`lastRx, session.transport, session.replay, session.replay.bitmap, out
      ensures Valid()
      ensures var (slot, plain) := OpenStep(a, old(View()).slot, packet, now);
              && View() == old(View()).(slot := slot)
              && match r
                 case Err(e) => plain == Err(e)
                 case Ok(n) => n <= out.Length && plain == Ok(out[..n])
    {
      r := session.Decrypt(a, packet, out);
      if r.Ok? {
        lastRx := now;
      }
    }

    /** A completed re-handshake takes the slot over: everything sealed so far stays on record, and
        nothing was ever sealed under the key now in use. */
    method Replace(newSession: Session, id: nat, now: nat)
      requires Valid() && newSession.Valid() && id !in ids
      requires newSession.State() == InitiatorSession(newSession.index, server, id)
      modifies this`session, this`established, this`lastRx, this`lastTx, this`ids
      ensures Valid() && session == newSession && View() == Rekey(old(View()), newSession.index, id, now)
      ensures forall i :: 0 <= i < |sealed| ==> sealed[i].key != session.State().sendKey
    {
      RekeyKeepsInv(View(), newSession.index, id, now);
      session := newSession;
      established := now;
      lastRx := now;
      lastTx := now;
      ids := ids + {id};
    }
  }
}
