# SoulVPN verification model

A Dafny model of the stateful cores of SoulVPN, with proofs about them:

- the anti-replay window, the data-channel session and the channel between two sessions (`src/crypto.rs`);
- the server's session table, handshake phases, reaper, forwarding steps and handshake rate limiter (`src/server.rs`, `src/config.rs`, `src/packet.rs`);
- the client's session slot, route lifecycle, kill switch, DNS backup and on/off race (`src/client.rs`, `src/route.rs`, `src/control.rs`).

`dafny verify dfyconfig.toml` checks the whole project.

## Layout

| file | content |
|---|---|
| `Prelude.dfy`, `Words.dfy` | little-endian bytes; 64-bit words as bounded naturals with `<<`, `>>`, `\|`, `&` and their bit laws |
| `Replay.dfy` | the 1024-bit window as a class over an array of sixteen words, refined to a set of accepted nonces |
| `Crypto.dfy`, `Handshake.dfy`, `Channel.dfy` | frames, the session class, handshake framing, and two sessions over an adversarial network |
| `RateLimit.dfy` | the pruned log against a log that forgets nothing, and the rate bound |
| `Ipv4.dfy`, `Config.dfy` | header fields, masks and networks, peer-list validation |
| `ServerTable.dfy`, `ServerRun.dfy`, `ServerGuarantees.dfy` | the two session maps and their operations; the server as interleaved steps and its invariant; what every run guarantees |
| `EndToEnd.dfy` | the server together with its peers and the network between them |
| `ClientRun.dfy` | uplink, keepalive and rekeying over one shared session |
| `Kernel.dfy`, `Routes.dfy` | route table, lookup and firewall chain; install, teardown, re-enable and drop |
| `Toggle.dfy`, `Dns.dfy` | concurrent on/off requests; resolv.conf across failing operations and crashes |

## How to read it

Code that updates state is a class whose methods are proved equal to functions on values
(`Session.Encrypt` and `EncryptStep`, `State.RemoveEntries` and `Reap`, ...); the whole-run theorems are about
those functions. In `Kernel.dfy` each command is a method that may fail, and intermediate states are kept in a ghost
history, so a contract speaks of every intermediate state and every failure path; `reliable` says where a promise
needs commands to succeed. In `Dns.dfy` a schedule says in advance which file operation fails and before which one the
client crashes, and the theorems hold for every schedule.

The cipher is an ideal AEAD: two functions `seal` and `open` with `open(k, n, seal(k, n, p)) = p`, that refuse nonce
2^64-1 and advance the sending counter only on success. `Channel.Unforged` says that a packet opens only to something
that was sealed under the same key and nonce; the network may otherwise deliver any bytes at any time. Keys are named
by the handshake that made them, and different handshakes make different keys. In `EndToEnd.dfy` what was sealed is
itself part of the state, built up by the peers and the server as they seal.

Where a natural stronger claim does not hold of the code, the model follows the code and states the exact condition:

- A frame marks its nonce before it is verified (`src/crypto.rs:191-197`). `RejectedFrameMovesWindow` gives exactly
  which genuine frames still get through afterwards; `RefusedFrameCostsGenuineOne` is a concrete loss and
  `ReservedNonceClosesWindow` the largest one.
- A data frame whose session index ends in byte 1 is dispatched as a handshake (`src/server.rs:226-243`), and index
  allocation does not avoid such indices (`LookalikeIndexReachable`). `GenuineFrameStep` says exactly what becomes of a
  genuine frame either way.
- On an index collision the peer's previous session is already gone (`src/server.rs:409-416`);
  `InstallKeepsConsistent` states it. `CollisionReachable` shows that two handshakes in flight can collide,
  `CollisionUnreachable` that handshakes run one at a time cannot.
- After concurrent on/off requests the client follows the last hook to run, not the last request
  (`src/client.rs:82-99`). `Toggle.Certain` is the exact condition, on what is in flight when a request is made:
  when it holds the request wins in every interleaving (`LastRequestWins`), and when it does not, some interleaving
  ends at the opposite (`UncertainRequestMayLose`; `LastRequestMayLose` is a concrete one).
- A client that crashes leaves its kill switch behind, and a restarted one without `kill_switch` never removes it
  (`src/route.rs:103-111`, `src/route.rs:118-128`); `Restart` says exactly what stays.
- A DNS restore deletes the backup even when copying it back failed (`src/route.rs:435-441`). `Dns.Loses` is the exact
  condition on the faults a restore meets; `LivesPreserve` gives it for any number of lives and
  `FailedCopyLosesOriginal` a life that loses the original.

## Model

| member | source | states |
|---|---|---|
| `Prelude.LeRoundTrip` | src/crypto.rs:172-173 | an index or nonce that fits its field is read back as written |
| `Words.ShlIsMultiplication` | src/crypto.rs:122 | shifting a word left multiplies by a power of two modulo 2^64 |
| `Words.MaskTestsBit` | src/crypto.rs:128-135 | masking with `1 << b` is nonzero exactly when bit b is set |
| `Words.MaskSetsBits` | src/crypto.rs:137-143 | or-ing `1 << b` sets bit b and no other bit, and stays a 64-bit word |
| `Replay.CarriedWordBit` | src/crypto.rs:120-124 | each bit of a carried word comes from the right place of that word or of the word below |
| `Replay.TwoPhaseShift` | src/crypto.rs:110-125 | the word move followed by the bit carry moves every bit up by the whole shift, for every shift amount including multiples of 64 |
| `Replay.MoveWords` | src/crypto.rs:112-117 | the descending in-place loop moves each old word up and clears the rest |
| `Replay.CarryBits` | src/crypto.rs:118-125 | the ascending in-place loop combines each old word with the carry of the old word below |
| `Replay.ShiftLeft` | src/crypto.rs:102-126 | for every bitmap and shift, bit j afterwards is old bit j - shift, clear below the shift |
| `Replay.TestBit` | src/crypto.rs:128-135 | reports the bit at a window offset; offsets past the bitmap are clear |
| `Replay.SetBit` | src/crypto.rs:137-143 | sets that offset and changes no other |
| `Replay.AdvanceKeepsTrack` | src/crypto.rs:78-88 | opening the window to a higher nonce keeps bit k meaning "highest - k was accepted" |
| `Replay.MarkKeepsTrack` | src/crypto.rs:89-98 | so does marking an older nonce |
| `Replay.StaleOrSeen` | src/crypto.rs:89-96 | a nonce too old or already marked is one the set specification refuses |
| `Replay.AdmitsByHighest` | src/crypto.rs:77-99 | the specification is "never accepted before and nonce + 1024 > highest accepted" |
| `Replay.ReplayWindow.constructor` | src/crypto.rs:65-73 | nothing accepted at first, nonce 0 included |
| `Replay.ReplayWindow.CheckAndUpdate` | src/crypto.rs:77-99 | returns true exactly when the set specification admits the nonce, and records exactly then |
| `Replay.NeverAcceptedTwice` | src/crypto.rs:77-99 | for every nonce sequence, no nonce is accepted twice |
| `Replay.MildReorderingIsTolerated` | src/crypto.rs:77-99 | when first arrivals lie less than 1024 below the maximum so far, exactly the first arrivals are accepted, whatever duplicates are added |
| `Crypto.FrameRoundTrip` | src/crypto.rs:171-173 | index, nonce and ciphertext of a frame are recovered from its bytes |
| `Crypto.FrameLayout` | src/crypto.rs:171-173 | every byte of a frame: index and nonce least significant byte first, then the ciphertext |
| `Crypto.FrameLooksLikeHandshake` | src/server.rs:226-250 | a data frame starts with the handshake type byte exactly when its index is 1 modulo 256 |
| `Crypto.GenuineFrameOpens` | src/crypto.rs:182-198 | a peer's frame decrypts to the peer's plaintext exactly when the window admits its nonce and it is not the reserved one; the nonce is recorded in any case |
| `Crypto.EncryptOutcome` | src/crypto.rs:163-180 | exactly which error each plaintext and buffer meets, that an error changes nothing, and what a success emits and counts |
| `Crypto.DecryptOutcome` | src/crypto.rs:182-198 | exactly how each packet ends, and that any frame of this session marks its nonce whatever becomes of it |
| `Crypto.Transport.WriteMessage` | src/crypto.rs:174-177 | seals under the current counter and advances it only on success; refuses counter 2^64-1 |
| `Crypto.Transport.ReadMessage` | src/crypto.rs:194-197 | opens under the receiving nonce that was set |
| `Crypto.Session.constructor` | src/crypto.rs:154-161 | counters at zero, empty window |
| `Crypto.Session.Encrypt` | src/crypto.rs:163-180 | output bytes, errors and new state for every plaintext and buffer size; the session's counter stays the transport's |
| `Crypto.Session.Decrypt` | src/crypto.rs:182-198 | result, errors and new state for every packet, the window marked before verification |
| `Handshake.HandshakePairsSessions` | src/crypto.rs:236-281 | when Noise accepts both messages, init and response framing leave two sessions with the responder's index and mirrored keys |
| `Handshake.RespondMeans` | src/crypto.rs:265-281 | exactly which init messages and indices yield a session, which error the others meet, and what the session is |
| `Handshake.CompleteMeans` | src/crypto.rs:236-247 | exactly which responses yield a session, which error the others meet, and that the index is taken from the message |
| `Handshake.MessagesAreNotConfused` | src/crypto.rs:236-269 | neither side takes the other kind of message |
| `Channel.SendKeepsInv` | src/crypto.rs:163-180 | a send by either side keeps the channel invariant |
| `Channel.ArriveKeepsInv` | src/crypto.rs:182-198 | any packet arriving anywhere keeps the channel invariant |
| `Channel.SendEffect` | src/crypto.rs:163-180 | what a send changes: what fits is the end's next message, sealed under its number |
| `Channel.ArriveEffect` | src/crypto.rs:182-198 | what an arrival changes: the nonce marked in any case, the plaintext delivered exactly when it is admissible and opens |
| `Channel.ChannelSafety` | src/crypto.rs:163-198 | in every run, deliveries map injectively to the peer's encryptions and the plaintext at nonce n is the peer's nth |
| `Channel.FramesAreNumbered` | src/crypto.rs:171-178 | in every run the nth frame carries n and is sealed under n, and the counter never wraps |
| `Channel.GenuineArrival` | src/crypto.rs:182-198 | in every run the peer's mth frame is delivered on arrival exactly when the window admits m, in any buffer that holds the plaintext |
| `Channel.GenuineAfterAnyStream` | src/crypto.rs:182-198 | after any stream of packets, genuine or not, a genuine frame is decrypted exactly when the window of all nonces heard admits its own |
| `Channel.ReorderedStreamIsDelivered` | src/crypto.rs:182-198 | every frame of a mildly reordered, duplicated stream is decrypted once, on first arrival |
| `Channel.RejectedFrameMovesWindow` | src/crypto.rs:182-198 | which genuine frames still decrypt after any frame whose nonce was admitted, refused or not, the reserved nonce included |
| `Channel.RefusedFrameCostsGenuineOne` | src/crypto.rs:191-197 | on a fresh session one refused frame at nonce 1024 costs the genuine frame at nonce 0 |
| `Channel.ReservedNonceClosesWindow` | src/crypto.rs:191-197 | after a frame with nonce 2^64-1 only genuine nonces in the topmost window still decrypt |
| `RateLimit.RateLimit.constructor` | src/server.rs:38-44 | whatever is configured, the limits are ones the rate bounds hold for, and configured values of at least one are kept |
| `RateLimit.RateLimit.Allow` | src/server.rs:46-55 | allowed exactly when the full history of calls shows fewer than `max` in the last window; the stored logs stay those the calls leave, length narrowed to 32 bits as in the code |
| `RateLimit.RateLimit.Gc` | src/server.rs:57-61 | after a collection exactly the addresses with a call allowed in the last window are stored, and what is stored still shows, at any later time, what the full history shows |
| `RateLimit.AllowKeepsTrack` | src/server.rs:46-55 | a call decides as the full history would and keeps the pruned log equivalent to it |
| `RateLimit.GcKeepsTrack` | src/server.rs:57-61 | collection is not observable later |
| `RateLimit.RecentCounts` | src/server.rs:49-49 | what survives pruning is the number of entries in the last window |
| `RateLimit.StoredAfterAllow` | src/server.rs:46-55 | after a call the stored log is exactly the recent part of the full history |
| `RateLimit.StoredAfterGc` | src/server.rs:57-61 | after a collection an address is stored exactly when the full history has a call of it in the last window |
| `RateLimit.DecidesLikeFullHistory` | src/server.rs:46-61 | for every nondecreasing clock and interleaving, decisions are those of a limiter that never prunes |
| `RateLimit.RefusedOnlyWhenFull` | src/server.rs:50-52 | a call is refused exactly when the history has exactly `max` calls in the last window; stored logs never exceed `max` |
| `RateLimit.HistoryIsAllowedCalls` | src/server.rs:46-55 | the full history consists of exactly the allowed calls |
| `RateLimit.OneWindowBound` | src/server.rs:46-55 | at most `max` allowed in any half-open interval of one window |
| `RateLimit.RateBound` | src/server.rs:46-61 | at most k * max allowed in any half-open interval of k windows |
| `Ipv4.FieldsAreInNetworkOrder` | src/packet.rs:6-26 | source and destination are the network-order fields at octets 12 and 16 of section 3.1 of RFC 791 |
| `Ipv4.AddressInDigits` | src/packet.rs:14-16 | the first octet of an address is the most significant |
| `Ipv4.VersionIsHighNibble` | src/packet.rs:6-8 | a packet is IPv4 exactly when its first octet has version 4 in the high half and it has twenty octets |
| `Ipv4.HeaderIsRead` | src/packet.rs:6-26 | from a header of section 3.1 of RFC 791 both addresses are read back; from a shorter packet or another version none is |
| `Ipv4.NetworkMembership` | src/config.rs:303-317 | masking compares the leading bits; the network address keeps them and clears the rest |
| `Config.ValidatePeers` | src/config.rs:137-164 | accepts exactly the lists without a fault, otherwise reports the first fault of the first faulty peer |
| `Config.FaultMeans` | src/config.rs:142-164 | which fault each peer meets, in the order of the checks |
| `Config.AcceptedMeans` | src/config.rs:142-164 | accepted means parsed, pairwise distinct, inside the network and at neither reserved address |
| `Config.BuildPeers` | src/server.rs:101-107 | the runtime table of a list that parses, otherwise the error of the first peer that does not |
| `Config.AcceptedTableIsInjective` | src/config.rs:142-164 | an accepted list gives an injective key-to-address table with one entry per peer |
| `ServerTable.InstallKeepsConsistent` | src/server.rs:402-428 | both maps stay inverse; who keeps a session, on success, unknown peer and collision |
| `ServerTable.ReapKeepsConsistent` | src/server.rs:180-194 | the reaper removes exactly the stale sessions from both maps |
| `ServerTable.RouteUsesTheOwner` | src/server.rs:326-345 | a TUN packet goes out under the one session owning its destination, to that session's address |
| `ServerTable.RouteNeedsAnOwner` | src/server.rs:326-335 | it is dropped for want of a route exactly when no session owns its destination |
| `ServerTable.RouteEffect` | src/server.rs:326-345 | a TUN packet that fits goes out as the frame sealed under its owner's next number, to the owner's address; any other changes nothing |
| `ServerTable.DeliverEffect` | src/server.rs:247-301 | every datagram's verdict and effect: a frame of a live session marks its nonce whatever becomes of it, and moves address and time only if decrypted |
| `ServerTable.PolicyMeans` | src/server.rs:264-289 | an empty payload is a keepalive, an IPv4 packet from the peer's own address is forwarded unchanged, everything else is dropped |
| `ServerTable.GenuineFrameDelivered` | src/server.rs:250-297 | when a genuine frame is forwarded, and when the session follows its source address |
| `ServerTable.FreeIndexExists` | src/server.rs:71-79 | with fewer than 2^32-1 sessions a nonzero index is free |
| `ServerTable.State.AllocIndex` | src/server.rs:71-79 | returns a nonzero index not in use |
| `ServerTable.State.InstallSession` | src/server.rs:402-428 | the new table and result of the insertion phase, on every path |
| `ServerTable.State.ReapTick` | src/server.rs:178-194 | collects rate-limiter garbage and removes the stale sessions |
| `ServerTable.State.RemoveEntries` | src/server.rs:182-194 | removing the collected pairs one by one, in any order, gives the reaped table |
| `ServerTable.State.OnDatagram` | src/server.rs:247-301 | table and verdict for every datagram, address updated only after decryption |
| `ServerTable.State.OnTunPacket` | src/server.rs:326-350 | table and transmission for every TUN packet |
| `ServerRun.DataKeepsCore` | src/server.rs:243-301 | a data frame keeps the server invariant |
| `ServerRun.TunKeepsCore` | src/server.rs:314-350 | a TUN packet keeps it |
| `ServerRun.FinishKeepsCore` | src/server.rs:397-429 | the last handshake phase keeps it, on success, unknown peer and collision |
| `ServerRun.RunKeepsInv` | src/server.rs:205-437 | every state of every interleaving satisfies it |
| `ServerGuarantees.TableStaysInverse` | src/server.rs:376-429 | in every run the two maps are mutual inverses, each key equals its session's index, no key is 0, each session sits at its peer's address |
| `ServerGuarantees.OneSessionPerPeer` | src/server.rs:397-429 | in every run each public key has at most one session, sessions are no more than peers, and a free index exists |
| `ServerGuarantees.AcceptedPeersStayApart` | src/config.rs:137-164 | with an accepted peer list, different sessions have different keys and different addresses in the tunnel network |
| `ServerGuarantees.HandshakeAccounting` | src/server.rs:226-241 | in every run accepted plus failed plus pending handshakes are the type-1 datagrams received |
| `ServerGuarantees.CountersTellSuccess` | src/server.rs:226-241 | in every run the first counter is the number of sessions established and the second the handshakes that ended without one |
| `ServerGuarantees.HandshakeArrives` | src/server.rs:376-381 | a handshake datagram is one limiter call of its source, whether the server is enabled or not, and is then under way or failed |
| `ServerGuarantees.FinishEffect` | src/server.rs:397-434 | how the last phase ends: established at its datagram's source, collided, or unknown, and which counter it adds to |
| `ServerGuarantees.PendingKeepsItsSource` | src/server.rs:226-241 | in every run a handshake in flight remembers the source of its own datagram |
| `ServerGuarantees.DisabledServerIsQuiet` | src/server.rs:244-246 | in every run, while the data plane is switched off, data frames and TUN packets change nothing |
| `ServerGuarantees.DataIsRecorded` | src/server.rs:247-295 | an enabled server opens a data frame exactly when its session decrypts it, with the policy's verdict on the plaintext |
| `ServerGuarantees.StrayDatagramIsIgnored` | src/server.rs:222-253 | an empty datagram, a short one and one that names no live session change nothing |
| `ServerGuarantees.EmissionIsRecorded` | src/server.rs:326-345 | it sends a TUN packet exactly when it fits and numbers are left, under the owner's next number |
| `ServerGuarantees.ForwardingIsolation` | src/server.rs:256-295 | in every run, what reaches the TUN has the source address of the peer whose key opened it, and what leaves it is sealed for the peer owning its destination |
| `ServerGuarantees.NoNonceTwice` | src/server.rs:256-345 | over a whole server run no (key, nonce) is opened twice or sealed twice |
| `ServerGuarantees.AuthenticatedRoaming` | src/server.rs:257-261 | a live session's address is the source of its handshake or of its latest decrypted frame |
| `ServerGuarantees.EmissionsFollowThePeer` | src/server.rs:336-345 | over a whole run every packet sent for a peer goes to the source of that handshake or of the latest frame decrypted under its keys before |
| `ServerGuarantees.GenuineFrameStep` | src/server.rs:226-301 | the whole next state: a genuine frame with index 1 modulo 256 is a limiter call that starts or fails a handshake; any other is opened exactly when the window admits it and otherwise changes nothing |
| `ServerGuarantees.GenuineFrameIsOpened` | src/server.rs:226-257 | so in every run a genuine frame is opened exactly when its index is not 1 modulo 256 and the window admits it |
| `ServerGuarantees.LookalikeIndexReachable` | src/server.rs:71-79 | a run with a live session whose index is 1 modulo 256 |
| `ServerGuarantees.IdleReaping` | src/server.rs:178-194 | in every run a reaper tick removes a session exactly when its keys were last established, opened under or sealed under longer ago than the idle limit |
| `ServerGuarantees.LimiterFollowsCalls` | src/server.rs:376-381 | in every run the server's stored logs and admitted handshakes are those of the limiter that keeps everything |
| `ServerGuarantees.HandshakeRateBound` | src/server.rs:376-381 | in every run with a nondecreasing clock, at most k * max handshakes of one address get past the limiter in k windows |
| `ServerGuarantees.CollisionUnreachable` | src/server.rs:392-416 | with handshakes one at a time, the chosen index is still free at insertion |
| `ServerGuarantees.CollisionReachable` | src/server.rs:413-416 | with two in flight a collision can occur |
| `EndToEnd.ServerStepKeepsWorld` | src/server.rs:205-350 | every server step keeps the end-to-end invariant, against a network limited only by what was sealed before |
| `EndToEnd.HistoryKeepsInv` | src/server.rs:205-350 | so does every interleaving of server steps, handshakes, peers sending and peers receiving |
| `EndToEnd.PeerToTun` | src/server.rs:247-295 | whatever the server opens at nonce n is the nth plaintext the peer had already sealed, treated as the policy says of it, and opened once; what reaches the TUN is that plaintext, from that peer's address |
| `EndToEnd.TunToPeer` | src/server.rs:314-345 | whatever a peer delivers at nonce n is the nth packet the server had already sealed for it, one destined to its address, and delivered once |
| `EndToEnd.PeerFrameArrives` | src/server.rs:226-295 | the arrival of a peer's mth frame is opened to its mth plaintext exactly when the window admits m and the index is not 1 modulo 256 |
| `EndToEnd.ServerFrameArrives` | src/client.rs:166-185 | the arrival of the server's mth frame delivers its mth packet exactly when the peer's window admits m |
| `EndToEnd.SendEffect` | src/client.rs:137-155 | what a peer's send changes: what fits is the next it has sent, sealed under that number |
| `EndToEnd.ReceiveEffect` | src/client.rs:181-185 | what a peer's receipt changes, decrypted or not |
| `EndToEnd.PacketCrosses` | src/server.rs:205-295 | for every configured peer and every packet from its address that fits, a history in which it reaches the TUN |
| `EndToEnd.PacketReturns` | src/server.rs:314-345 | and one in which a TUN packet for that address reaches the peer |
| `ClientRun.SessionSlot.Seal` | src/client.rs:137-155 | sealing through the slot, for the uplink and the keepalive; never twice under one (key, nonce) |
| `ClientRun.SessionSlot.Open` | src/client.rs:181-185 | opening through the slot |
| `ClientRun.SessionSlot.Replace` | src/client.rs:247-252 | after a re-handshake the slot seals under a key nothing was sealed under, whatever sessions it held before |
| `ClientRun.NonceUniqueness` | src/client.rs:137-155 | in every client run no (key, nonce) pair is sealed twice |
| `ClientRun.CountersStayInStep` | src/crypto.rs:171-178 | in every client run the two counters agree and never wrap; keepalives fail only on exhaustion |
| `ClientRun.SealIsRecorded` | src/client.rs:137-155 | a seal emits the frame of the key, number and plaintext it puts on record |
| `ClientRun.TimesTell` | src/client.rs:247-252 | in every run the three timestamps are the times of the latest seal, decryption and (re-)handshake |
| `ClientRun.EventEffect` | src/client.rs:137-280 | an uplink packet is sealed as it came, a keepalive empty, a datagram only opened, and only a re-handshake changes the key |
| `Kernel.LookupIsLongestMatch` | src/route.rs:76-80 | lookup is longest-prefix match as in section 5.2.4.3 of RFC 1812 |
| `Kernel.LookupNeedsAMatch` | src/route.rs:76-80 | and answers exactly when some route matches |
| `Kernel.FullTunnelLookup` | src/route.rs:61-80 | after installation: the server through the saved gateway, destinations with at best a /1 or default route into the tunnel, all others unchanged |
| `Routes.KillSwitchMeaning` | src/route.rs:312-364 | a chain passes loopback, the tunnel and UDP to the server at every stage of its construction, rejects nothing while unfinished, and once finished rejects everything else not established |
| `Routes.ClientRoutes.InstallHalves` | src/route.rs:131-143 | both /1 routes, the second only after the first |
| `Routes.ClientRoutes.InstallKillSwitch` | src/route.rs:302-371 | on every failure path no jump is left; with succeeding commands the chain rejects exactly the packets that are neither excepted nor of an established flow |
| `Routes.ClientRoutes.CompleteChain` | src/route.rs:327-362 | the rule for established flows precedes the final one and is missing only after both its spellings failed |
| `Routes.ClientRoutes.Teardown` | src/route.rs:118-128 | kill switch and /1 routes gone, host route kept |
| `Routes.ClientRoutes.ReenableWithKs` | src/route.rs:157-168 | exactly when the routes and the kill switch are up afterwards; both as wanted when commands succeed |
| `Routes.ClientRoutes.RunHook` | src/client.rs:82-99 | for every failure of its commands, what a hook leaves of routes and kill switch is the effect the race model gives it |
| `Routes.ClientRoutes.TeardownAll` | src/route.rs:170-208 | on a clean start the IPv4 route table is what it was and no kill switch is left; on any start our /1 routes and host route are gone |
| `Routes.Install` | src/route.rs:37-115 | the full-tunnel IPv4 table on success, on a clean start the initial table on failure; with succeeding commands it fails exactly without a default route and the chain is complete whatever was left |
| `Routes.Lifetime` | src/client.rs:57-99 | over any install, on/off sequence and drop with failing commands, from a clean start: table restored, and in every intermediate state an active kill switch has a complete chain and both /1 routes; with succeeding commands the firewall is restored too. From any start: exactly what is left, a leftover jump going with each kill switch that came and went |
| `Routes.Restart` | src/route.rs:118-208 | after a crash in any state of a life, what a restarted client leaves: a leftover jump is removed exactly when it installs a kill switch itself, leftover /1 routes exactly when it is a full tunnel, the host route exactly when a default route is found |
| `Toggle.StepKeepsInv` | src/control.rs:120-136 | every handler and hook step keeps the race invariant |
| `Toggle.ToggleAgreement` | src/client.rs:82-99 | in every interleaving, with no hook pending, flag, routes and kill switch agree with the last hook to finish |
| `Toggle.KillSwitchNeedsTunnel` | src/route.rs:118-168 | at every point of the race the kill switch is up only with the tunnel |
| `Toggle.LastRequestWins` | src/control.rs:120-136 | a request made when nothing in flight can still run against it wins in every interleaving: the flag, and with working commands the routes and the kill switch |
| `Toggle.UncertainRequestMayLose` | src/client.rs:82-99 | a request made otherwise can lose: from every reachable state some interleaving without further requests ends at the opposite flag |
| `Toggle.LastRequestMayLose` | src/client.rs:82-99 | a run in which the last request was `on` and the client ends off |
| `Dns.InstallPreserves` | src/route.rs:412-427 | an installation keeps the original wherever it fails or crashes, and once done has it in the backup |
| `Dns.BodyNamesServers` | src/route.rs:421-424 | the managed file is its title and one line per configured server, and names exactly those servers, in order |
| `Dns.InstallEffect` | src/route.rs:412-427 | without faults the live file is saved and the body written; with any, the live file is untouched or the body |
| `Dns.RestoreEffect` | src/route.rs:429-442 | without faults the backup is put back and removed, or without one nothing happens |
| `Dns.Install` | src/route.rs:412-427 | the two files and the outcome, for every fault and crash |
| `Dns.DnsGuard.Restore` | src/route.rs:429-442 | the two files afterwards, for every fault and crash |
| `Dns.RestorePreserves` | src/route.rs:435-441 | a restore keeps the original exactly when the faults it meets do not remove a backup left uncopied over another live file |
| `Dns.Lives` | src/client.rs:57-68 | the files after any number of lives under any schedule of faults and crashes |
| `Dns.LivesPreserve` | src/route.rs:411-448 | over any number of lives and any faults and crashes, the original is the backup or, without one, the live file, exactly as long as no restore met the losing faults |
| `Dns.OriginalIsKeptOrGone` | src/route.rs:411-448 | unless a managed file happens to equal it, a lost original is in neither file ever after |
| `Dns.CrashesAreHarmless` | src/route.rs:411-448 | crashes alone, anywhere, never cost the original, and a life without a crash then ends with it live and no backup |
| `Dns.NextLifeRecovers` | src/route.rs:411-448 | whatever the last life left, crashed or not, one without faults gives the original back |
| `Dns.FailedCopyLosesOriginal` | src/route.rs:435-441 | a first life whose backup cannot be read back loses the original |

## Left out

- Cryptography inside Noise, X25519 and base64, which is library code: an ideal AEAD and handshake outcomes stand in.
- Sockets, TUN devices, task scheduling, logging, process spawning and command syntax; commands are steps on route tables and rule lists.
- Command-line, monitor, statistics formatting, TOML and JSON parsing, mode and key-file checks, MTU checks.
- Reading the default route from command output (`src/route.rs:452-479`): installation takes the parsed gateway and device, or their absence, as a parameter.
- Timers: when keepalive, rekey and reaping become due is any moment of a run; that a re-handshake gets its response or a random draw ends is not claimed by the code.
- Statistics set after the lock is released (`src/server.rs:431-434`) and byte counters; the two handshake counters are modelled.
- The server's live sessions are values in the table's maps, as the Rust map owns them; the array-based window they contain is the one proved in `Replay.dfy`, represented by its set of accepted nonces.
- ServerTable.State.AllocIndex: a random draw is any free index, and the retry loop is not modelled; it ends only with probability one.
- IPv6 endpoints, the IPv6 blackhole and the NAT guard, whose partial failures the code does not undo.
- Routes.Lifetime: assumes that deleting a route or jump that is present succeeds and that nobody else edits the tables; a clean start, which restoration needs, is one where our prefixes are absent, no jump to the chain exists and the chain, if there is one, is ours.
- Routes.Restart: the same endpoint and device name as before the crash, and commands that succeed; with failing commands `Routes.Lifetime` says what is left.
- Dns.LivesPreserve: assumes the file existed at first, that single reads and writes are atomic, and that nobody else edits the two files.
- Routes.Install: the IPv6 and DNS steps between the routes and the kill switch are not part of it; neither can fail the installation or touches IPv4 routes. The DNS step is `Dns.Install`.
- Routes.ClientRoutes.TeardownAll: likewise does not drop the IPv6 and DNS guards; `Dns.DnsGuard.Restore` is the latter's drop.
- Handshake.HandshakePairsSessions: that both sides derive the same keys is assumed of Noise; the type byte, the index and its place in the message are the repository's own.
- EndToEnd.PeerToTun: assumes the AEAD is ideal on every packet that arrives; a peer is one end of one handshake, so a rekeyed client is several.
- Channel.ChannelSafety: assumes the AEAD is ideal on every packet that arrives, and that the two directions have different keys.
- Equal prefixes with different metrics, policy routing and multipath: a table maps each prefix to one next hop.
