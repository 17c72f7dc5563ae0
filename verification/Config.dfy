/** Validation of the server's peer list and the key-to-address table built from it. */
module Config {
  import opened Prelude
  import opened Ipv4

  type PubKey = nat

  /** A configured peer; a field that does not parse is None. */
  datatype Peer = Peer(publicKey: Option<PubKey>, allowedIp: Option<Ip>)

  datatype Fault = NoPeers | BadIp | BadKey | DuplicateIp | DuplicateKey | OutsideNetwork | IsServer | IsNetwork

  predicate IpListed(peers: seq<Peer>, n: nat, ip: Option<Ip>)
    requires n <= |peers|
  {
    exists j :: 0 <= j < n && peers[j].allowedIp == ip
  }

  predicate KeyListed(peers: seq<Peer>, n: nat, key: Option<PubKey>)
    requires n <= |peers|
  {
    exists j :: 0 <= j < n && peers[j].publicKey == key
  }

  /** The first check that peer `i` fails, given the peers listed before it. */
  function FaultAt(peers: seq<Peer>, i: nat, serverIp: Ip, prefix: nat): Option<Fault>
    requires i < |peers| && prefix <= 32
  {
    var p, network := peers[i], NetworkAddr(serverIp, prefix);
    if p.allowedIp.None? then Some(BadIp)
    else if p.publicKey.None? then Some(BadKey)
    else if IpListed(peers, i, p.allowedIp) then Some(DuplicateIp)
    else if KeyListed(peers, i, p.publicKey) then Some(DuplicateKey)
    else if !InNetwork(p.allowedIp.value, network, prefix) then Some(OutsideNetwork)
    else if p.allowedIp.value == serverIp then Some(IsServer)
    else if p.allowedIp.value == network then Some(IsNetwork)
    else None
  }

  /** Which fault is reported of a peer, in the order in which they are looked for: an address or a key
      that does not parse, an address or a key listed before, an address outside the server's network,
      the server's own address, the network's. */
  lemma FaultMeans(peers: seq<Peer>, i: nat, serverIp: Ip, prefix: nat)
    requires i < |peers| && prefix <= 32
    ensures var f, p := FaultAt(peers, i, serverIp, prefix), peers[i];
            var ipTwice := exists j :: 0 <= j < i && peers[j].allowedIp == p.allowedIp;
            var keyTwice := exists j :: 0 <= j < i && peers[j].publicKey == p.publicKey;
            && (f == Some(BadIp) <==> p.allowedIp == None)
            && (f == Some(BadKey) <==> p.allowedIp.Some? && p.publicKey == None)
            && (p.allowedIp.Some? && p.publicKey.Some? ==>
                  var ip := p.allowedIp.value;
                  && (f == Some(DuplicateIp) <==> ipTwice)
                  && (f == Some(DuplicateKey) <==> !ipTwice && keyTwice)
                  && (f == Some(OutsideNetwork) <==> !ipTwice && !keyTwice && !SameLeadingBits(ip, serverIp, prefix))
                  && (f == Some(IsServer) <==> !ipTwice && !keyTwice && ip == serverIp)
                  && (f == Some(IsNetwork) <==> !ipTwice && !keyTwice && ip != serverIp && ip == NetworkAddr(serverIp, prefix))
                  && (f == None <==> !ipTwice && !keyTwice && WellPlaced(ip, serverIp, prefix)))
            && f != Some(NoPeers)
  {
    NetworkMembership(serverIp, serverIp, prefix);
    if peers[i].allowedIp.Some? {
      NetworkMembership(peers[i].allowedIp.value, NetworkAddr(serverIp, prefix), prefix);
    }
  }

  /** The first fault of the whole list. */
  predicate FirstFault(peers: seq<Peer>, i: nat, f: Fault, serverIp: Ip, prefix: nat)
    requires prefix <= 32
  {
    i < |peers| && FaultAt(peers, i, serverIp, prefix) == Some(f) && Accepted(peers[..i], serverIp, prefix)
  }

  method ValidatePeers(peers: seq<Peer>, serverIp: Ip, prefix: nat) returns (r: Result<(), Fault>)
    requires prefix <= 32
    ensures r.Ok? <==> peers != [] && Accepted(peers, serverIp, prefix)
    ensures r.Err? && peers == [] ==> r.error == NoPeers
    ensures r.Err? && peers != [] ==> exists i :: FirstFault(peers, i, r.error, serverIp, prefix)
  {
    if peers == [] {
      return Err(NoPeers);
    }
    var network := NetworkAddr(serverIp, prefix);
    var seenIps: set<Ip> := {};
    var seenKeys: set<PubKey> := {};
    var i := 0;
    while i < |peers|
      invariant 0 <= i <= |peers|
      invariant Accepted(peers[..i], serverIp, prefix)
      invariant forall ip :: ip in seenIps <==> IpListed(peers, i, Some(ip))
      invariant forall k :: k in seenKeys <==> KeyListed(peers, i, Some(k))
    {
      var p := peers[i];
      var fault := None;
      if p.allowedIp.None? {
        fault := Some(BadIp);
      } else if p.publicKey.None? {
        fault := Some(BadKey);
      } else if p.allowedIp.value in seenIps {
        fault := Some(DuplicateIp);
      } else if p.publicKey.value in seenKeys {
        fault := Some(DuplicateKey);
      } else if !InNetwork(p.allowedIp.value, network, prefix) {
        fault := Some(OutsideNetwork);
      } else if p.allowedIp.value == serverIp {
        fault := Some(IsServer);
      } else if p.allowedIp.value == network {
        fault := Some(IsNetwork);
      }
      assert fault == FaultAt(peers, i, serverIp, prefix);
      if fault.Some? {
        assert FirstFault(peers, i, fault.value, serverIp, prefix);
        FaultRefuses(peers, i, serverIp, prefix);
        return Err(fault.value);
      }
      AcceptOneMore(peers, i, serverIp, prefix);
      SeenOneMore(peers, i);
      seenIps, seenKeys := seenIps + {p.allowedIp.value}, seenKeys + {p.publicKey.value};
      i := i + 1;
    }
    assert peers[..i] == peers;
    return Ok(());
  }

  lemma FaultRefuses(peers: seq<Peer>, i: nat, serverIp: Ip, prefix: nat)
    requires prefix <= 32 && i < |peers| && FaultAt(peers, i, serverIp, prefix).Some?
    ensures !Accepted(peers, serverIp, prefix)
  {
    assert !Faultless(peers, i, serverIp, prefix);
  }

  lemma SeenOneMore(peers: seq<Peer>, i: nat)
    requires i < |peers|
    ensures forall ip :: IpListed(peers, i + 1, ip) <==> IpListed(peers, i, ip) || ip == peers[i].allowedIp
    ensures forall k :: KeyListed(peers, i + 1, k) <==> KeyListed(peers, i, k) || k == peers[i].publicKey
  {
    forall ip
      ensures IpListed(peers, i + 1, ip) <==> IpListed(peers, i, ip) || ip == peers[i].allowedIp
    {
      if IpListed(peers, i, ip) {
        var j :| 0 <= j < i && peers[j].allowedIp == ip;
        assert 0 <= j < i + 1 && peers[j].allowedIp == ip;
      }
      if ip == peers[i].allowedIp {
        assert 0 <= i < i + 1 && peers[i].allowedIp == ip;
      }
    }
    forall k
      ensures KeyListed(peers, i + 1, k) <==> KeyListed(peers, i, k) || k == peers[i].publicKey
    {
      if KeyListed(peers, i, k) {
        var j :| 0 <= j < i && peers[j].publicKey == k;
        assert 0 <= j < i + 1 && peers[j].publicKey == k;
      }
      if k == peers[i].publicKey {
        assert 0 <= i < i + 1 && peers[i].publicKey == k;
      }
    }
  }

  /** A fault at a peer depends only on the peers up to it. */
  lemma FaultIsLocal(peers: seq<Peer>, n: nat, i: nat, serverIp: Ip, prefix: nat)
    requires prefix <= 32 && i < n <= |peers|
    ensures FaultAt(peers[..n], i, serverIp, prefix) == FaultAt(peers, i, serverIp, prefix)
  {
    assert IpListed(peers[..n], i, peers[i].allowedIp) == IpListed(peers, i, peers[i].allowedIp);
    assert KeyListed(peers[..n], i, peers[i].publicKey) == KeyListed(peers, i, peers[i].publicKey);
  }

  lemma AcceptOneMore(peers: seq<Peer>, i: nat, serverIp: Ip, prefix: nat)
    requires prefix <= 32 && i < |peers|
    requires Accepted(peers[..i], serverIp, prefix) && FaultAt(peers, i, serverIp, prefix) == None
    ensures Accepted(peers[..i + 1], serverIp, prefix)
  {
    var longer := peers[..i + 1];
    forall j | 0 <= j < |longer|
      ensures Faultless(longer, j, serverIp, prefix)
    {
      FaultIsLocal(peers, i + 1, j, serverIp, prefix);
      if j < i {
        assert Faultless(peers[..i], j, serverIp, prefix);
        FaultIsLocal(peers, i, j, serverIp, prefix);
      }
    }
  }

  predicate Accepted(peers: seq<Peer>, serverIp: Ip, prefix: nat)
    requires prefix <= 32
  {
    forall i :: 0 <= i < |peers| ==> Faultless(peers, i, serverIp, prefix)
  }

  predicate Faultless(peers: seq<Peer>, i: nat, serverIp: Ip, prefix: nat)
    requires prefix <= 32 && i < |peers|
  {
    FaultAt(peers, i, serverIp, prefix) == None
  }

  predicate Parsed(peers: seq<Peer>) {
    forall i :: 0 <= i < |peers| ==> peers[i].publicKey.Some? && peers[i].allowedIp.Some?
  }

  predicate DistinctPeers(peers: seq<Peer>) {
    forall i, j :: 0 <= i < j < |peers| ==>
      peers[i].allowedIp != peers[j].allowedIp && peers[i].publicKey != peers[j].publicKey
  }

  /** In the server's network, but neither the server's nor the network's own address. */
  predicate WellPlaced(ip: Ip, serverIp: Ip, prefix: nat)
    requires prefix <= 32
  {
    SameLeadingBits(ip, serverIp, prefix) && ip != serverIp && ip != NetworkAddr(serverIp, prefix)
  }

  predicate AllWellPlaced(peers: seq<Peer>, serverIp: Ip, prefix: nat)
    requires prefix <= 32 && Parsed(peers)
  {
    forall i :: 0 <= i < |peers| ==> WellPlaced(peers[i].allowedIp.value, serverIp, prefix)
  }

  /** An accepted list is exactly one whose peers parse, are pairwise distinct in address and key,
      and sit in the server's network at neither the server's nor the network's own address. */
  lemma AcceptedMeans(peers: seq<Peer>, serverIp: Ip, prefix: nat)
    requires prefix <= 32
    ensures Accepted(peers, serverIp, prefix) <==>
            Parsed(peers) && DistinctPeers(peers) && AllWellPlaced(peers, serverIp, prefix)
  {
    if Accepted(peers, serverIp, prefix) {
      forall i | 0 <= i < |peers|
        ensures peers[i].publicKey.Some? && peers[i].allowedIp.Some? && WellPlaced(peers[i].allowedIp.value, serverIp, prefix)
      {
        assert Faultless(peers, i, serverIp, prefix);
        PlacementCheck(peers[i].allowedIp.value, serverIp, prefix);
      }
      forall i, j | 0 <= i < j < |peers|
        ensures peers[i].allowedIp != peers[j].allowedIp && peers[i].publicKey != peers[j].publicKey
      {
        assert Faultless(peers, j, serverIp, prefix);
        assert !IpListed(peers, j, peers[j].allowedIp) && !KeyListed(peers, j, peers[j].publicKey);
      }
    }
    if Parsed(peers) && DistinctPeers(peers) && AllWellPlaced(peers, serverIp, prefix) {
      forall i | 0 <= i < |peers|
        ensures Faultless(peers, i, serverIp, prefix)
      {
        assert WellPlaced(peers[i].allowedIp.value, serverIp, prefix);
        PlacementCheck(peers[i].allowedIp.value, serverIp, prefix);
        assert !IpListed(peers, i, peers[i].allowedIp) && !KeyListed(peers, i, peers[i].publicKey);
      }
    }
  }

  lemma PlacementCheck(ip: Ip, serverIp: Ip, prefix: nat)
    requires prefix <= 32
    ensures WellPlaced(ip, serverIp, prefix) <==>
            && InNetwork(ip, NetworkAddr(serverIp, prefix), prefix)
            && ip != serverIp && ip != NetworkAddr(serverIp, prefix)
  {
    NetworkMembership(serverIp, serverIp, prefix);
    NetworkMembership(ip, NetworkAddr(serverIp, prefix), prefix);
  }

  // ---- the runtime table ----

  function PeerTable(peers: seq<Peer>, n: nat): map<PubKey, Ip>
    requires n <= |peers| && Parsed(peers)
  {
    if n == 0 then map[]
    else PeerTable(peers, n - 1)[peers[n - 1].publicKey.value := peers[n - 1].allowedIp.value]
  }

  /** The first peer that does not parse, its key being looked at first. */
  predicate FirstUnparsed(peers: seq<Peer>, i: nat, f: Fault) {
    && i < |peers| && Parsed(peers[..i])
    && (if peers[i].publicKey == None then f == BadKey else peers[i].allowedIp == None && f == BadIp)
  }

  method BuildPeers(peers: seq<Peer>) returns (r: Result<map<PubKey, Ip>, Fault>)
    ensures r.Ok? <==> Parsed(peers)
    ensures r.Ok? ==> r.value == PeerTable(peers, |peers|)
    ensures r.Err? ==> exists i :: FirstUnparsed(peers, i, r.error)
  {
    var table: map<PubKey, Ip> := map[];
    var i := 0;
    while i < |peers|
      invariant 0 <= i <= |peers|
      invariant Parsed(peers[..i])
      invariant table == PeerTable(peers[..i], i)
    {
      if peers[i].publicKey.None? {
        assert FirstUnparsed(peers, i, BadKey);
        return Err(BadKey);
      }
      if peers[i].allowedIp.None? {
        assert FirstUnparsed(peers, i, BadIp);
        return Err(BadIp);
      }
      table := table[peers[i].publicKey.value := peers[i].allowedIp.value];
      i := i + 1;
      TablePrefix(peers[..i], peers[..i - 1], i - 1);
    }
    assert peers[..i] == peers;
    return Ok(table);
  }

  lemma {:induction false} TablePrefix(a: seq<Peer>, b: seq<Peer>, n: nat)
    requires Parsed(a) && Parsed(b) && n <= |a| && n <= |b| && a[..n] == b[..n]
    ensures PeerTable(a, n) == PeerTable(b, n)
  {
    if n == 0 {
    } else {
      assert a[n - 1] == a[..n][n - 1] && b[n - 1] == b[..n][n - 1];
      assert a[..n - 1] == a[..n][..n - 1] && b[..n - 1] == b[..n][..n - 1];
      TablePrefix(a, b, n - 1);
    }
  }

  ghost predicate Injective(table: map<PubKey, Ip>) {
    forall a, b :: a in table && b in table && table[a] == table[b] ==> a == b
  }

  predicate Lists(peers: seq<Peer>, n: nat, p: Peer)
    requires n <= |peers|
  {
    exists i :: 0 <= i < n && peers[i] == p
  }

  /** Every entry of the table is a listed peer. */
  ghost predicate AllListed(peers: seq<Peer>, n: nat, t: map<PubKey, Ip>)
    requires n <= |peers|
  {
    forall k :: k in t ==> Lists(peers, n, Peer(Some(k), Some(t[k])))
  }

  lemma OnePeerMore(peers: seq<Peer>, n: nat, t: map<PubKey, Ip>, k: PubKey, ip: Ip)
    requires n < |peers| && AllListed(peers, n, t) && peers[n] == Peer(Some(k), Some(ip))
    requires forall i :: 0 <= i < n ==> peers[i].publicKey != Some(k)
    ensures k !in t && AllListed(peers, n + 1, t[k := ip]) && |t[k := ip]| == |t| + 1
  {
    forall j | j in t
      ensures j != k
    {
      assert Lists(peers, n, Peer(Some(j), Some(t[j])));
    }
    var t' := t[k := ip];
    assert t'.Keys == t.Keys + {k};
    forall j | j in t'
      ensures Lists(peers, n + 1, Peer(Some(j), Some(t'[j])))
    {
      if j == k {
        assert peers[n] == Peer(Some(j), Some(t'[j]));
      } else {
        var i :| 0 <= i < n && peers[i] == Peer(Some(j), Some(t[j]));
      }
    }
  }

  lemma {:induction false} TableHolds(peers: seq<Peer>, n: nat)
    requires n <= |peers| && Parsed(peers) && DistinctPeers(peers)
    ensures |PeerTable(peers, n)| == n && AllListed(peers, n, PeerTable(peers, n))
    ensures forall i :: 0 <= i < n ==> peers[i].publicKey.value in PeerTable(peers, n)
  {
    if n == 0 {
    } else {
      TableHolds(peers, n - 1);
      OnePeerMore(peers, n - 1, PeerTable(peers, n - 1), peers[n - 1].publicKey.value, peers[n - 1].allowedIp.value);
    }
  }

  /** The table of an accepted list has one entry per peer, gives different keys different
      addresses, and keeps every address inside the tunnel network. */
  lemma AcceptedTableIsInjective(peers: seq<Peer>, serverIp: Ip, prefix: nat)
    requires prefix <= 32 && Accepted(peers, serverIp, prefix)
    ensures Parsed(peers) && |PeerTable(peers, |peers|)| == |peers|
    ensures Injective(PeerTable(peers, |peers|))
    ensures forall k :: k in PeerTable(peers, |peers|) ==> WellPlaced(PeerTable(peers, |peers|)[k], serverIp, prefix)
  {
    AcceptedMeans(peers, serverIp, prefix);
    TableHolds(peers, |peers|);
    var t := PeerTable(peers, |peers|);
    forall a, b | a in t && b in t && t[a] == t[b]
      ensures a == b
    {
      assert Lists(peers, |peers|, Peer(Some(a), Some(t[a]))) && Lists(peers, |peers|, Peer(Some(b), Some(t[b])));
      var i :| 0 <= i < |peers| && peers[i] == Peer(Some(a), Some(t[a]));
      var j :| 0 <= j < |peers| && peers[j] == Peer(Some(b), Some(t[b]));
    }
  }
}
