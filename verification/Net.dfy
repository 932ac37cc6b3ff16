/** IPv4 address arithmetic as the program does it: addresses are byte slices, NextIP goes through
    an integer and back (net.go), and a host subnet's router, management port and node-allow ACL
    each compute their address their own way (master.go, management-port.go, policy_common.go). */
module Net {
  import opened Acl
  import opened Arith

  type Byte = n: int | 0 <= n < 256

  const MAX_IPV4: nat := 0x1_0000_0000

  // ------------------------------------------------------- bytes and integers

  function FourBytes(v: nat): seq<Byte>
    requires v < MAX_IPV4
  {
    [v / 0x100_0000, v / 0x1_0000 % 256, v / 256 % 256, v % 256]
  }

  /** big.Int.SetBytes: big-endian, any length. */
  function FromBytes(b: seq<Byte>): nat { if b == [] then 0 else FromBytes(b[..|b| - 1]) * 256 + b[|b| - 1] }

  /** big.Int.Bytes: big-endian without leading zeros; zero has no bytes at all. */
  function ToBytes(v: nat): seq<Byte> { if v == 0 then [] else ToBytes(v / 256) + [v % 256] }

  /** net.IP.To4: four bytes, or the last four of a mapped sixteen-byte address. */
  function To4(ip: seq<Byte>): Option<seq<Byte>> {
    if |ip| == 4 then Some(ip)
    else if |ip| == 16 && (forall i | 0 <= i < 10 :: ip[i] == 0) && ip[10] == 255 && ip[11] == 255 then Some(ip[12..])
    else None
  }

  /** net.IP.To16 of an address To4 gave up on; nil stands for no bytes. */
  function To16(ip: seq<Byte>): seq<Byte> { if |ip| == 16 then ip else [] }

  function IpToInt(ip: seq<Byte>): nat { if To4(ip).Some? then FromBytes(To4(ip).value) else FromBytes(To16(ip)) }

  function NextIP(ip: seq<Byte>): seq<Byte> { ToBytes(IpToInt(ip) + 1) }

  lemma FromFour(a: Byte, b: Byte, c: Byte, d: Byte)
    ensures FromBytes([a, b, c, d]) == a * 0x100_0000 + b * 0x1_0000 + c * 256 + d
  {
    assert [a, b, c, d][..3] == [a, b, c] && [a, b, c][..2] == [a, b] && [a, b][..1] == [a] && [a][..0] == [];
    assert FromBytes([a]) == a;
    assert FromBytes([a, b]) == a * 256 + b;
    assert FromBytes([a, b, c]) == (a * 256 + b) * 256 + c;
  }

  /** Byte by byte, an address is its high part times 256 plus its last byte. */
  lemma Quotients(v: nat)
    ensures v / 0x1_0000 == v / 256 / 256 && v / 0x100_0000 == v / 256 / 256 / 256
  {
  }

  lemma FourBytesRoundTrip(v: nat)
    requires v < MAX_IPV4
    ensures FromBytes(FourBytes(v)) == v
  {
    var w := v / 256;
    var u := w / 256;
    Quotients(v);
    DivMod(v, 256);
    DivMod(w, 256);
    DivMod(u, 256);
    FromFour(u / 256, u % 256, w % 256, v % 256);
  }

  lemma {:induction false} ToBytesRoundTrip(v: nat)
    ensures FromBytes(ToBytes(v)) == v
  {
    if v > 0 {
      ToBytesRoundTrip(v / 256);
      assert ToBytes(v)[..|ToBytes(v)| - 1] == ToBytes(v / 256);
    }
  }

  /** The integer gives a four-byte address back exactly when its first octet is not zero. */
  lemma ToBytesIsFour(v: nat)
    ensures |ToBytes(v)| == 4 <==> 0x100_0000 <= v < MAX_IPV4
    ensures 0x100_0000 <= v < MAX_IPV4 ==> ToBytes(v) == FourBytes(v)
  {
    var a, b, c := v / 256, v / 0x1_0000, v / 0x100_0000;
    assert v / 256 / 256 == b && b / 256 == c;
    LengthOne(c);
    assert |ToBytes(v)| == 4 <==> v > 0 && |ToBytes(a)| == 3;
    assert |ToBytes(a)| == 3 <==> a > 0 && |ToBytes(b)| == 2;
    assert |ToBytes(b)| == 2 <==> b > 0 && |ToBytes(c)| == 1;
    if 0x100_0000 <= v < MAX_IPV4 {
      assert ToBytes(c) == [c];
      assert ToBytes(b) == [c, b % 256];
      assert ToBytes(a) == [c, b % 256, a % 256];
    }
  }

  lemma LengthOne(c: nat)
    ensures |ToBytes(c)| == 1 <==> 0 < c < 256
    ensures 0 < c < 256 ==> ToBytes(c) == [c]
  {
  }

  predicate IsIPv4(ip: seq<Byte>, v: nat) { v < MAX_IPV4 && To4(ip) == Some(FourBytes(v)) }

  /** NextIP of an IPv4 address is the next address exactly when that address has a nonzero first
      octet; below 1.0.0.0 the result has too few bytes, and after 255.255.255.255 too many. */
  lemma NextIPExact(ip: seq<Byte>, v: nat)
    requires IsIPv4(ip, v)
    ensures |NextIP(ip)| == 4 <==> 0x100_0000 <= v + 1 < MAX_IPV4
    ensures 0x100_0000 <= v + 1 < MAX_IPV4 ==> NextIP(ip) == FourBytes(v + 1)
  {
    FourBytesRoundTrip(v);
    ToBytesIsFour(v + 1);
  }

  /** Of a sixteen-byte address that is not a mapped one NextIP is the next number, of bytes of any
      other length the number one. */
  lemma NextIPOther(ip: seq<Byte>)
    requires To4(ip).None?
    ensures FromBytes(NextIP(ip)) == if |ip| == 16 then FromBytes(ip) + 1 else 1
  {
    ToBytesRoundTrip(IpToInt(ip) + 1);
  }

  // ------------------------------------------------------- prefixes

  lemma Pow2Is(n: nat)
    ensures n == 2 ==> Pow2(n) == 4
    ensures n == 32 ==> Pow2(n) == MAX_IPV4
  {
    if n == 32 {
      assert Pow2(8) == 256;
      Pow2Sum(8, 8);
      Pow2Sum(16, 16);
    }
  }

  type Prefix = n: nat | n <= 32

  datatype Cidr = Cidr(ip: nat, prefix: Prefix)

  function Size(c: Cidr): (s: nat)
    ensures s > 0
  {
    Pow2Positive(32 - c.prefix);
    Pow2(32 - c.prefix)
  }

  /** A canonical IPv4 prefix: the host bits are zero. */
  predicate Canonical(c: Cidr) { c.ip < MAX_IPV4 && c.ip % Size(c) == 0 }

  /** IPNet.Contains: the bits under the mask agree. */
  predicate Contains(c: Cidr, ip: nat) { ip / Size(c) == c.ip / Size(c) }

  predicate InRange(c: Cidr, ip: nat) { c.ip <= ip < c.ip + Size(c) }

  lemma QuotientRange(x: nat, b: nat, s: nat)
    requires s > 0 && b % s == 0
    ensures x / s == b / s <==> b <= x < b + s
  {
    DivMod(b, s);
    DivMod(x, s);
    if b <= x < b + s {
      DivUnique(x, s, b / s, x - b);
    }
  }

  /** Containment is membership in the address range. */
  lemma ContainsIsRange(c: Cidr, ip: nat)
    requires Canonical(c)
    ensures Contains(c, ip) <==> InRange(c, ip)
  {
    QuotientRange(ip, c.ip, Size(c));
  }

  // ------------------------------------------------------- the per-node address plan

  /** ip[3] = ip[3] + 2 on the four bytes; the sum of bytes wraps. */
  function AddTwoToLastByte(ip: seq<Byte>): seq<Byte>
    requires |ip| == 4
  {
    ip[3 := (ip[3] as int + 2) % 256]
  }

  lemma LastByteCarry(v: nat)
    requires v < MAX_IPV4 && v % 4 == 0
    ensures v + 2 < MAX_IPV4 && AddTwoToLastByte(FourBytes(v)) == FourBytes(v + 2)
  {
    DivMod(v, 256);
    DivMod(v, 4);
    var q, r := v / 256, v % 256;
    assert r % 4 == 0 by {
      assert r == v - 256 * q;
    }
    DivUnique(v + 2, 256, q, r + 2);
    Quotients(v);
    Quotients(v + 2);
  }

  lemma AlignedToFour(c: Cidr)
    requires Canonical(c) && c.prefix <= 30
    ensures c.ip % 4 == 0 && Size(c) >= 4
  {
    Pow2Is(2);
    Pow2Sum(2, 30 - c.prefix);
    Pow2Positive(30 - c.prefix);
    var s, k := Size(c), Pow2(30 - c.prefix);
    DivMod(c.ip, s);
    MulSwap(c.ip / s, k, 4);
    DivUnique(c.ip, 4, c.ip / s * k, 0);
  }

  /** The address plan of a host subnet with a nonzero first octet and a prefix of at most 30:
      the router port gets base + 1 and the management port base + 2, both inside the subnet, and
      the node-allow ACL's byte addition names the management port. */
  lemma AddressPlanAgrees(c: Cidr, ip: seq<Byte>)
    requires Canonical(c) && c.prefix <= 30 && c.ip >= 0x100_0000 && IsIPv4(ip, c.ip)
    ensures c.ip + 2 < MAX_IPV4
    ensures NextIP(ip) == FourBytes(c.ip + 1) && NextIP(NextIP(ip)) == FourBytes(c.ip + 2)
    ensures AddTwoToLastByte(To4(ip).value) == NextIP(NextIP(ip))
    ensures Contains(c, c.ip + 1) && Contains(c, c.ip + 2)
  {
    AlignedToFour(c);
    NextIPExact(ip, c.ip);
    NextIPExact(NextIP(ip), c.ip + 1);
    LastByteCarry(c.ip);
    ContainsIsRange(c, c.ip + 1);
    ContainsIsRange(c, c.ip + 2);
  }

  /** In a /31 or /32 the management port's address lies outside the subnet. */
  lemma LongPrefixHasNoRoom(c: Cidr)
    requires Canonical(c)
    ensures Contains(c, c.ip + 2) <==> c.prefix <= 30
  {
    ContainsIsRange(c, c.ip + 2);
    if c.prefix <= 30 {
      AlignedToFour(c);
    } else {
      assert Pow2(0) == 1 && Pow2(1) == 2;
    }
  }

  // ------------------------------------------------------- overlapping prefixes

  /** Some address lies in both ranges. */
  ghost predicate Meet(a: Cidr, b: Cidr) { exists x: nat :: InRange(a, x) && InRange(b, x) }

  /** Whether one prefix contains the other's base address. */
  predicate Overlap(a: Cidr, b: Cidr) { Contains(a, b.ip) || Contains(b, a.ip) }

  /** A range that meets a longer prefix's range contains that prefix's base. */
  lemma LongerIsInside(a: Cidr, b: Cidr, x: nat)
    requires Canonical(a) && Canonical(b) && a.prefix <= b.prefix && InRange(a, x) && InRange(b, x)
    ensures Contains(a, b.ip)
  {
    ContainsIsRange(a, x);
    ContainsIsRange(b, x);
    Pow2Sum(32 - b.prefix, b.prefix - a.prefix);
    Pow2Positive(b.prefix - a.prefix);
    DivDiv(x, Size(b), Pow2(b.prefix - a.prefix));
    DivDiv(b.ip, Size(b), Pow2(b.prefix - a.prefix));
  }

  /** The overlap test is exact for canonical prefixes: it holds when and only when some address
      lies in both ranges. */
  lemma OverlapIsMeeting(a: Cidr, b: Cidr)
    requires Canonical(a) && Canonical(b)
    ensures Overlap(a, b) <==> Meet(a, b)
  {
    ContainsIsRange(a, b.ip);
    ContainsIsRange(b, a.ip);
    if Contains(a, b.ip) {
      assert InRange(a, b.ip) && InRange(b, b.ip);
    }
    if Contains(b, a.ip) {
      assert InRange(a, a.ip) && InRange(b, a.ip);
    }
    if x: nat :| InRange(a, x) && InRange(b, x) {
      if a.prefix <= b.prefix {
        LongerIsInside(a, b, x);
      } else {
        LongerIsInside(b, a, x);
      }
    }
  }

  /** One entry of the cluster-subnet flag after splitting at slashes: how many fields it has, and
      what the address and length fields parse to. ParseCIDR yields masked, canonical prefixes. */
  datatype Entry = Entry(fields: nat, cidr: Option<Cidr>, length: Option<nat>)

  datatype ClusterNet = ClusterNet(cidr: Cidr, hostSubnetLength: nat)

  predicate WellFormed(e: Entry) { (e.fields == 2 || (e.fields == 3 && e.length.Some?)) && e.cidr.Some? }

  function NetOf(e: Entry): ClusterNet
    requires WellFormed(e)
  {
    ClusterNet(e.cidr.value, if e.fields == 3 then e.length.value else 24)
  }

  predicate ParsedOk(e: Entry) { e.cidr.Some? ==> Canonical(e.cidr.value) }

  /** cidrsOverlap: whether the prefix meets any of the list. */
  method CidrsOverlap(cidr: Cidr, list: seq<ClusterNet>) returns (r: bool)
    requires Canonical(cidr) && forall i | 0 <= i < |list| :: Canonical(list[i].cidr)
    ensures r <==> exists i | 0 <= i < |list| :: Meet(cidr, list[i].cidr)
  {
    var i := 0;
    while i < |list|
      invariant 0 <= i <= |list|
      invariant forall j | 0 <= j < i :: !Meet(cidr, list[j].cidr)
    {
      OverlapIsMeeting(cidr, list[i].cidr);
      if Contains(cidr, list[i].cidr.ip) || Contains(list[i].cidr, cidr.ip) {
        return true;
      }
      i := i + 1;
    }
    return false;
  }

  /** parseClusterSubnetEntries accepts exactly the lists of well-formed entries whose ranges are
      pairwise disjoint, and returns the entries in order. */
  method ParseClusterSubnetEntries(entries: seq<Entry>) returns (r: Option<seq<ClusterNet>>)
    requires forall i | 0 <= i < |entries| :: ParsedOk(entries[i])
    ensures r.Some? <==> (forall i | 0 <= i < |entries| :: WellFormed(entries[i]))
                         && (forall i, j | 0 <= i < j < |entries| && WellFormed(entries[i]) && WellFormed(entries[j]) ::
                               !Meet(entries[j].cidr.value, entries[i].cidr.value))
    ensures r.Some? ==> |r.value| == |entries|
                        && forall i | 0 <= i < |entries| :: WellFormed(entries[i]) && r.value[i] == NetOf(entries[i])
    ensures r.Some? ==> forall i | 0 <= i < |entries| ::
                          && entries[i].cidr == Some(r.value[i].cidr)
                          && (entries[i].fields == 2 ==> r.value[i].hostSubnetLength == 24)
                          && (entries[i].fields == 3 ==> entries[i].length == Some(r.value[i].hostSubnetLength))
  {
    var list: seq<ClusterNet> := [];
    var i := 0;
    while i < |entries|
      invariant 0 <= i <= |entries| && |list| == i
      invariant forall j | 0 <= j < i :: WellFormed(entries[j]) && list[j] == NetOf(entries[j])
      invariant forall j | 0 <= j < i :: Canonical(list[j].cidr)
      invariant forall j, k | 0 <= j < k < i :: !Meet(entries[k].cidr.value, entries[j].cidr.value)
    {
      var e := entries[i];
      if e.fields == 3 {
        if e.length.None? {
          return None;
        }
      } else if e.fields != 2 {
        return None;
      }
      if e.cidr.None? {
        return None;
      }
      var overlap := CidrsOverlap(e.cidr.value, list);
      if overlap {
        ghost var j :| 0 <= j < |list| && Meet(e.cidr.value, list[j].cidr);
        assert Meet(entries[i].cidr.value, entries[j].cidr.value);
        return None;
      }
      assert forall j | 0 <= j < i :: !Meet(e.cidr.value, list[j].cidr);
      list := list + [NetOf(e)];
      i := i + 1;
    }
    return Some(list);
  }
}
