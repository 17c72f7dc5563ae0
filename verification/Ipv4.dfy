/** IPv4 addresses, networks and the header fields the forwarding policy reads. */
module Ipv4 {
  import opened Prelude
  import opened Words

  type Ip = U32

  // ---- header fields ----

  /** The number written by `octets`, most significant first. */
  function FromOctets(octets: Bytes): nat {
    if octets == [] then 0 else 256 * FromOctets(octets[..|octets| - 1]) + octets[|octets| - 1]
  }

  function ToOctets(n: nat, len: nat): (octets: Bytes)
    ensures |octets| == len
  {
    if len == 0 then [] else ToOctets(n / 256, len - 1) + [n % 256]
  }

  lemma {:induction false} OctetsRoundTrip(n: nat, len: nat)
    requires n < Pow256(len)
    ensures FromOctets(ToOctets(n, len)) == n
  {
    if len == 0 {
    } else {
      OctetsRoundTrip(n / 256, len - 1);
      assert ToOctets(n, len)[..len - 1] == ToOctets(n / 256, len - 1);
    }
  }

  lemma {:induction false} OctetsDetermined(octets: Bytes)
    ensures FromOctets(octets) < Pow256(|octets|) && ToOctets(FromOctets(octets), |octets|) == octets
  {
    if octets == [] {
    } else {
      var init := octets[..|octets| - 1];
      OctetsDetermined(init);
      assert octets == init + [octets[|octets| - 1]];
    }
  }

  predicate IsIpv4(packet: Bytes) {
    |packet| >= 20 && packet[0] / 16 == 4
  }

  function Address(a: Byte, b: Byte, c: Byte, d: Byte): Ip {
    OctetsDetermined([a, b, c, d]);
    PowersOf256();
    FromOctets([a, b, c, d])
  }

  function Source(packet: Bytes): Option<Ip> {
    if !IsIpv4(packet) then None else Some(Address(packet[12], packet[13], packet[14], packet[15]))
  }

  function Destination(packet: Bytes): Option<Ip> {
    if !IsIpv4(packet) then None else Some(Address(packet[16], packet[17], packet[18], packet[19]))
  }

  lemma AddressIs(octets: Bytes, ip: Ip)
    requires |octets| == 4
    ensures FromOctets(octets) == ip <==> octets == ToOctets(ip, 4)
  {
    PowersOf256();
    OctetsRoundTrip(ip, 4);
    OctetsDetermined(octets);
  }

  /** The addresses read are exactly the network-order fields at octets 12 and 16. */
  lemma FieldsAreInNetworkOrder(packet: Bytes, ip: Ip)
    ensures Source(packet) == Some(ip) <==> IsIpv4(packet) && packet[12..16] == ToOctets(ip, 4)
    ensures Destination(packet) == Some(ip) <==> IsIpv4(packet) && packet[16..20] == ToOctets(ip, 4)
  {
    if IsIpv4(packet) {
      assert packet[12..16] == [packet[12], packet[13], packet[14], packet[15]];
      assert packet[16..20] == [packet[16], packet[17], packet[18], packet[19]];
      AddressIs(packet[12..16], ip);
      AddressIs(packet[16..20], ip);
    }
  }

  lemma OctetAppended(octets: Bytes, x: Byte)
    ensures FromOctets(octets + [x]) == 256 * FromOctets(octets) + x
  {
    assert (octets + [x])[..|octets|] == octets;
  }

  /** The first octet is the most significant. */
  lemma AddressInDigits(a: Byte, b: Byte, c: Byte, d: Byte)
    ensures Address(a, b, c, d) == 0x100_0000 * a + 0x1_0000 * b + 0x100 * c + d
  {
    OctetAppended([], a);
    OctetAppended([a], b);
    OctetAppended([a, b], c);
    OctetAppended([a, b, c], d);
    assert [] + [a] == [a] && [a] + [b] == [a, b] && [a, b] + [c] == [a, b, c] && [a, b, c] + [d] == [a, b, c, d];
  }

  /** The version is the high half of the first octet, and a header has twenty octets. */
  lemma VersionIsHighNibble(packet: Bytes, version: nat, ihl: nat)
    requires packet != [] && packet[0] == 16 * version + ihl && ihl < 16
    ensures IsIpv4(packet) <==> version == 4 && |packet| >= 20
  {
  }

  /** From a packet laid out as in section 3.1 of RFC 791 both addresses are read back; from one that
      is shorter or of another version none is. */
  lemma HeaderIsRead(version: nat, ihl: nat, middle: Bytes, src: Ip, dst: Ip, rest: Bytes)
    requires version < 16 && ihl < 16 && |middle| == 11
    ensures var packet := [16 * version + ihl] + middle + ToOctets(src, 4) + ToOctets(dst, 4) + rest;
            && Source(packet) == (if version == 4 then Some(src) else None)
            && Destination(packet) == (if version == 4 then Some(dst) else None)
    ensures forall short: Bytes :: |short| < 20 ==> Source(short) == None && Destination(short) == None
  {
    var packet := [16 * version + ihl] + middle + ToOctets(src, 4) + ToOctets(dst, 4) + rest;
    assert packet[12..16] == ToOctets(src, 4) && packet[16..20] == ToOctets(dst, 4);
    VersionIsHighNibble(packet, version, ihl);
    FieldsAreInNetworkOrder(packet, src);
    FieldsAreInNetworkOrder(packet, dst);
  }

  // ---- networks ----

  /** 32-bit `w << s`. */
  function Shl32(w: U32, s: nat): U32
    decreases s
  {
    if s == 0 then w else Shl32(2 * w % U32_LIMIT, s - 1)
  }

  /** `u32::MAX << (32 - prefix)`. */
  function Mask(prefix: nat): U32
    requires 0 < prefix <= 32
  {
    Shl32(U32_LIMIT - 1, 32 - prefix)
  }

  function NetworkAddr(ip: Ip, prefix: nat): Ip
    requires prefix <= 32
  {
    if prefix == 0 then 0
    else
      MaskedIs(ip, prefix);
      And(ip, Mask(prefix))
  }

  predicate InNetwork(ip: Ip, network: Ip, prefix: nat)
    requires prefix <= 32
  {
    prefix == 0 || And(ip, Mask(prefix)) == And(network, Mask(prefix))
  }

  /** Agreement on the leading `prefix` bits. */
  predicate SameLeadingBits(a: Ip, b: Ip, prefix: nat)
    requires prefix <= 32
  {
    Shr(a, 32 - prefix) == Shr(b, 32 - prefix)
  }

  /** `y` followed by `k` zero bits. */
  function Up(y: nat, k: nat): nat {
    if k == 0 then y else 2 * Up(y, k - 1)
  }

  lemma {:induction false} UpAdds(a: nat, b: nat, k: nat)
    ensures Up(a + b, k) == Up(a, k) + Up(b, k)
  {
    if k == 0 {
    } else {
      UpAdds(a, b, k - 1);
    }
  }

  lemma {:induction false} UpOfPower(m: nat, k: nat)
    ensures Up(Pow2(m), k) == Pow2(m + k)
  {
    if k == 0 {
    } else {
      UpOfPower(m, k - 1);
    }
  }

  lemma {:induction false} ShrUndoesUp(y: nat, k: nat)
    ensures Shr(Up(y, k), k) == y
  {
    if k == 0 {
    } else {
      ShrUndoesUp(y, k - 1);
    }
  }

  lemma {:induction false} UpOfShrIsBelow(x: nat, k: nat)
    ensures Up(Shr(x, k), k) <= x
  {
    if k == 0 {
    } else {
      UpOfShrIsBelow(x / 2, k - 1);
    }
  }

  /** Shifting the ones of `m` leading bits left by `s` drops `s` of them. */
  lemma {:induction false} OnesShifted(w: U32, m: nat, j: nat, s: nat)
    requires m + j == 32 && s <= m && w == Up(Pow2(m) - 1, j)
    ensures Shl32(w, s) == Up(Pow2(m - s) - 1, j + s)
    decreases s
  {
    if s == 0 {
    } else {
      var next := Up(Pow2(m - 1) - 1, j + 1);
      OneLeadingOne(w, m, j, next);
      DropTopBit(2 * w, next);
      OnesShifted(next, m - 1, j + 1, s - 1);
    }
  }

  lemma OneLeadingOne(w: U32, m: nat, j: nat, next: nat)
    requires m + j == 32 && m > 0 && w == Up(Pow2(m) - 1, j) && next == Up(Pow2(m - 1) - 1, j + 1)
    ensures 2 * w == next + U32_LIMIT && next < U32_LIMIT
  {
    UpAdds(Pow2(m - 1) - 1, Pow2(m - 1), j + 1);
    UpOfPower(m - 1, j + 1);
    Pow2Of32();
    UpBelow(m - 1, j + 1);
  }

  lemma DropTopBit(w: nat, low: nat)
    requires low < U32_LIMIT && w == low + U32_LIMIT
    ensures w % U32_LIMIT == low
  {
  }

  lemma Pow2Of32()
    ensures Pow2(32) == U32_LIMIT
  {
    assert Pow2(8) == 256;
    PowerSplit(8, 8);
    assert Pow2(16) == 0x1_0000;
    PowerSplit(16, 16);
  }

  lemma {:induction false} UpBelow(m: nat, k: nat)
    ensures Up(Pow2(m) - 1, k) < Pow2(m + k)
  {
    if k == 0 {
    } else {
      UpBelow(m, k - 1);
    }
  }

  lemma {:induction false} AndWithOnes(x: nat, n: nat)
    requires x < Pow2(n)
    ensures And(x, Pow2(n) - 1) == x
  {
    if n == 0 || x == 0 {
    } else {
      AndWithOnes(x / 2, n - 1);
      assert (Pow2(n) - 1) / 2 == Pow2(n - 1) - 1;
    }
  }

  /** Masking with leading ones clears the other bits. */
  lemma {:induction false} AndWithLeadingOnes(x: nat, n: nat, k: nat)
    requires x < Pow2(n + k)
    ensures And(x, Up(Pow2(n) - 1, k)) == Up(Shr(x, k), k)
  {
    if k == 0 {
      AndWithOnes(x, n);
    } else {
      AndWithLeadingOnes(x / 2, n, k - 1);
      var m := Up(Pow2(n) - 1, k - 1);
      AndDoubled(x, m);
    }
  }

  lemma AndDoubled(x: nat, m: nat)
    ensures And(x, 2 * m) == 2 * And(x / 2, m)
  {
  }

  lemma MaskedIs(ip: Ip, prefix: nat)
    requires 0 < prefix <= 32
    ensures And(ip, Mask(prefix)) == Up(Shr(ip, 32 - prefix), 32 - prefix) <= ip
  {
    Pow2Of32();
    OnesShifted(U32_LIMIT - 1, 32, 0, 32 - prefix);
    AndWithLeadingOnes(ip, prefix, 32 - prefix);
    UpOfShrIsBelow(ip, 32 - prefix);
  }

  lemma {:induction false} ShrToZero(x: nat, n: nat)
    requires x < Pow2(n)
    ensures Shr(x, n) == 0
  {
    if n == 0 {
    } else {
      ShrToZero(x / 2, n - 1);
    }
  }

  /** Membership by masking is agreement on the leading bits; the network address is the member
      whose remaining bits are zero. */
  lemma NetworkMembership(ip: Ip, network: Ip, prefix: nat)
    requires prefix <= 32
    ensures InNetwork(ip, network, prefix) <==> SameLeadingBits(ip, network, prefix)
    ensures SameLeadingBits(NetworkAddr(ip, prefix), ip, prefix)
    ensures NetworkAddr(ip, prefix) == Up(Shr(ip, 32 - prefix), 32 - prefix)
  {
    var k := 32 - prefix;
    if prefix == 0 {
      Pow2Of32();
      ShrToZero(ip, 32);
      ShrToZero(network, 32);
      ShrUndoesUp(0, 32);
      UpOfShrIsBelow(0, 32);
    } else {
      MaskedIs(ip, prefix);
      MaskedIs(network, prefix);
      ShrUndoesUp(Shr(ip, k), k);
      ShrUndoesUp(Shr(network, k), k);
    }
  }
}
