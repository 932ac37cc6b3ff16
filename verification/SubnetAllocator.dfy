/** The node subnet allocator (vendored netutils/subnet_allocator.go): blocks of one size carved
    out of a network, numbered with their bits rotated, handed out round-robin. */
module SubnetAllocator {
  import opened Acl
  import opened Arith
  import opened Net

  datatype Alloc = Alloc(network: Cidr, hostBits: nat, next: nat, used: set<Cidr>)

  predicate Valid(a: Alloc) { Canonical(a.network) && 1 <= a.hostBits <= 32 - a.network.prefix }

  function SubnetBits(a: Alloc): nat
    requires Valid(a)
  {
    32 - a.network.prefix - a.hostBits
  }

  function NumSubnets(a: Alloc): (n: nat)
    requires Valid(a)
    ensures n > 0
  {
    Pow2Positive(SubnetBits(a));
    Pow2(SubnetBits(a))
  }

  // ------------------------------------------------------- 32-bit shifts and masks of ones

  function Shl(x: nat, k: nat): nat { x * Pow2(k) % MAX_IPV4 }

  function Shr(x: nat, k: nat): nat {
    Pow2Positive(k);
    DivNat(x, Pow2(k));
    x / Pow2(k)
  }

  /** x & (1<<k - 1). */
  function Low(x: nat, k: nat): nat {
    Pow2Positive(k);
    x % Pow2(k)
  }

  /** x & ((1<<width - 1) << lo). */
  function Field(x: nat, lo: nat, width: nat): nat { Low(Shr(x, lo), width) * Pow2(lo) }

  /** The subnet number crosses into a higher octet than the host number ends in. */
  predicate Rotates(a: Alloc)
    requires Valid(a)
  {
    a.hostBits % 8 != 0 && (a.hostBits - 1) / 8 != (a.hostBits + SubnetBits(a) - 1) / 8
  }

  function LeftShift(a: Alloc): nat
    requires Valid(a)
  {
    if Rotates(a) then 8 - a.hostBits % 8 else 0
  }

  lemma RotationFits(a: Alloc)
    requires Valid(a)
    ensures LeftShift(a) <= SubnetBits(a)
  {
  }

  /** Bitwise or. */
  function Or(x: nat, y: nat): nat {
    if x == 0 && y == 0 then 0 else 2 * Or(x / 2, y / 2) + (if x % 2 == 1 || y % 2 == 1 then 1 else 0)
  }

  lemma {:induction false} OrZero(x: nat)
    ensures Or(x, 0) == x
  {
    if x > 0 {
      OrZero(x / 2);
    }
  }

  /** Numbers that share no bits, because one ends where the other begins, are added. */
  lemma {:induction false} OrIsSum(x: nat, y: nat, k: nat)
    requires y < Pow2(k) && exists q: nat :: x == q * Pow2(k)
    ensures Or(x, y) == x + y
    decreases k
  {
    if k == 0 {
      OrZero(x);
    } else {
      var q: nat :| x == q * Pow2(k);
      Halve(q, Pow2(k - 1), x);
      assert x / 2 == q * Pow2(k - 1);
      OrIsSum(x / 2, y / 2, k - 1);
    }
  }

  lemma Halve(q: nat, s: nat, x: nat)
    requires x == q * (2 * s)
    ensures x % 2 == 0 && x / 2 == q * s
  {
    MulSwap(q, s, 2);
  }

  /** The base address of the n-th subnet. */
  function GenIp(a: Alloc, n: nat): nat
    requires Valid(a)
  {
    var shifted := Shl(n, a.hostBits);
    if Rotates(a) then
      RotationFits(a);
      Or(Or(a.network.ip, Low(Shl(shifted, LeftShift(a)), 32 - a.network.prefix)),
         Field(Shr(shifted, SubnetBits(a) - LeftShift(a)), a.hostBits, LeftShift(a)))
    else Or(a.network.ip, shifted)
  }

  // ------------------------------------------------------- the numbering is a bijection

  /** Rotating an s-bit number left by l. */
  function Rotate(n: nat, l: nat, r: nat): nat { Low(n, r) * Pow2(l) + Shr(n, r) }

  lemma RotateRange(n: nat, l: nat, r: nat)
    requires n < Pow2(l + r)
    ensures Rotate(n, l, r) < Pow2(l + r) && Shr(n, r) < Pow2(l)
  {
    Pow2Sum(l, r);
    Pow2Positive(l);
    Pow2Positive(r);
    QuotientBound(n, Pow2(l), Pow2(r));
    DivMod(n, Pow2(r));
    DigitBound(n % Pow2(r), Pow2(r), n / Pow2(r), Pow2(l));
  }

  /** Rotating back undoes it. */
  lemma RotateBack(n: nat, l: nat, r: nat)
    requires n < Pow2(l + r)
    ensures Rotate(Rotate(n, l, r), r, l) == n
  {
    RotateRange(n, l, r);
    Pow2Positive(l);
    Pow2Positive(r);
    DivUnique(Rotate(n, l, r), Pow2(l), Low(n, r), Shr(n, r));
    DivMod(n, Pow2(r));
  }

  function Order(a: Alloc, n: nat): nat
    requires Valid(a)
  {
    RotationFits(a);
    if Rotates(a) then Rotate(n, LeftShift(a), SubnetBits(a) - LeftShift(a)) else n
  }

  lemma Fits(n: nat, h: nat, s: nat, p: nat)
    requires p + h + s == 32 && n < Pow2(s)
    ensures n * Pow2(h) < MAX_IPV4 && Shl(n, h) == n * Pow2(h)
  {
    Pow2Positive(h);
    Pow2Positive(p);
    Pow2Is(32);
    Pow2Sum(h, s);
    Pow2Sum(h + s, p);
    FitsIn(n, Pow2(h), Pow2(s), Pow2(p), MAX_IPV4);
  }

  lemma FitsIn(n: nat, h: nat, s: nat, p: nat, m: nat)
    requires n < s && h > 0 && p > 0 && m == (h * s) * p
    ensures n * h < m && n * h % m == n * h
  {
    DigitBound(n, s, 0, h);
    MulSize(p, h * s);
    DivUnique(n * h, m, 0, n * h);
  }

  lemma LowOfShl(n: nat, h: nat, l: nat, r: nat, p: nat)
    requires p + h + l + r == 32 && n < Pow2(l + r)
    ensures Low(Shl(n * Pow2(h), l), 32 - p) == Low(n, r) * Pow2(l) * Pow2(h)
  {
    Pow2Positive(r);
    Pow2Positive(p);
    Pow2Positive(h + l);
    Pow2Is(32);
    Pow2Sum(h, l);
    Pow2Sum(h + l, r);
    Pow2Sum(32 - p, p);
    LowOfProduct(n, Pow2(h), Pow2(l), Pow2(r), Pow2(p), MAX_IPV4);
  }

  lemma LowOfProduct(n: nat, h: nat, l: nat, r: nat, p: nat, m: nat)
    requires h * l > 0 && r > 0 && p > 0 && m == ((h * l) * r) * p
    ensures (h * l) * r > 0 && m > 0 && n * h * l % m % ((h * l) * r) == n % r * l * h
  {
    MulPositive(h * l, r);
    MulPositive((h * l) * r, p);
    ModMod(n * h * l, (h * l) * r, p);
    LowDigit(n, h * l, r);
    Regroup(n, h, l);
    Regroup(n % r, l, h);
    MulSwap(1, h, l);
  }

  lemma Regroup(n: nat, a: nat, b: nat)
    ensures n * a * b == n * (a * b)
  {
  }

  lemma FieldOfShr(n: nat, h: nat, l: nat, r: nat)
    requires n < Pow2(l + r)
    ensures Field(Shr(n * Pow2(h), r), h, l) == Shr(n, r) * Pow2(h)
  {
    Pow2Positive(h);
    Pow2Positive(r);
    Pow2Positive(l);
    ShiftDown(n, Pow2(h), Pow2(r));
    RotateRange(n, l, r);
    DivUnique(n / Pow2(r), Pow2(l), 0, n / Pow2(r));
  }

  /** The network address is a multiple of the size of its host and subnet part. */
  lemma BaseAligned(a: Alloc) returns (q: nat)
    requires Valid(a)
    ensures a.network.ip == q * Pow2(a.hostBits + SubnetBits(a))
  {
    DivMod(a.network.ip, Size(a.network));
    DivNat(a.network.ip, Size(a.network));
    q := a.network.ip / Size(a.network);
  }

  /** The rotated subnet bits fill the gap between the network and the host bits. */
  lemma RotatedOr(base: nat, q: nat, n: nat, h: nat, l: nat, r: nat)
    requires base == q * Pow2(h + l + r) && n < Pow2(l + r)
    ensures Or(Or(base, Low(n, r) * Pow2(l) * Pow2(h)), Shr(n, r) * Pow2(h))
         == base + Low(n, r) * Pow2(l) * Pow2(h) + Shr(n, r) * Pow2(h)
  {
    var left, right := Low(n, r) * Pow2(l) * Pow2(h), Shr(n, r) * Pow2(h);
    Pow2Positive(h);
    Pow2Positive(r);
    Pow2Positive(h + l);
    Pow2Sum(l, h);
    Pow2Sum(h + l, r);
    RotateRange(n, l, r);
    DivMod(n, Pow2(r));
    Regroup(Low(n, r), Pow2(l), Pow2(h));
    DigitBound(Low(n, r), Pow2(r), 0, Pow2(h + l));
    OrIsSum(base, left, h + l + r);
    MulSwap(q, Pow2(r), Pow2(h + l));
    MulAdd(q * Pow2(r), Low(n, r), Pow2(h + l));
    assert base + left == (q * Pow2(r) + Low(n, r)) * Pow2(h + l);
    DigitBound(Shr(n, r), Pow2(l), 0, Pow2(h));
    MulSwap(1, Pow2(l), Pow2(h));
    OrIsSum(base + left, right, h + l);
  }

  /** The shifted and masked parts of a subnet number, or-ed into the network address. */
  lemma RotatedNumber(base: nat, q: nat, n: nat, h: nat, l: nat, r: nat, p: nat)
    requires base == q * Pow2(h + l + r) && n < Pow2(l + r) && p + h + l + r == 32
    ensures Or(Or(base, Low(Shl(Shl(n, h), l), 32 - p)), Field(Shr(Shl(n, h), r), h, l))
         == base + Rotate(n, l, r) * Pow2(h)
  {
    Fits(n, h, l + r, p);
    LowOfShl(n, h, l, r, p);
    FieldOfShr(n, h, l, r);
    RotatedOr(base, q, n, h, l, r);
    MulAdd(Low(n, r) * Pow2(l), Shr(n, r), Pow2(h));
  }

  lemma RotatedGenIp(a: Alloc, n: nat, q: nat)
    requires Valid(a) && n < NumSubnets(a) && Rotates(a) && a.network.ip == q * Pow2(a.hostBits + SubnetBits(a))
    ensures Order(a, n) < NumSubnets(a)
    ensures GenIp(a, n) == a.network.ip + Order(a, n) * Pow2(a.hostBits)
  {
    RotationFits(a);
    var l, r := LeftShift(a), SubnetBits(a) - LeftShift(a);
    RotateRange(n, l, r);
    RotatedNumber(a.network.ip, q, n, a.hostBits, l, r, a.network.prefix);
  }

  lemma PlainGenIp(a: Alloc, n: nat, q: nat)
    requires Valid(a) && n < NumSubnets(a) && !Rotates(a) && a.network.ip == q * Pow2(a.hostBits + SubnetBits(a))
    ensures GenIp(a, n) == a.network.ip + n * Pow2(a.hostBits)
  {
    var h, s := a.hostBits, SubnetBits(a);
    Fits(n, h, s, a.network.prefix);
    Pow2Sum(h, s);
    Pow2Positive(h);
    DigitBound(n, Pow2(s), 0, Pow2(h));
    OrIsSum(a.network.ip, n * Pow2(h), h + s);
  }

  /** The shifts and masks compute the base of the rotated number's block. */
  lemma GenIpIs(a: Alloc, n: nat)
    requires Valid(a) && n < NumSubnets(a)
    ensures Order(a, n) < NumSubnets(a)
    ensures GenIp(a, n) == a.network.ip + Order(a, n) * Pow2(a.hostBits)
  {
    var q := BaseAligned(a);
    if Rotates(a) {
      RotatedGenIp(a, n, q);
    } else {
      PlainGenIp(a, n, q);
    }
  }

  function Block(a: Alloc, n: nat): Cidr
    requires Valid(a)
  {
    Cidr(GenIp(a, n), 32 - a.hostBits)
  }

  /** A block of the allocator's size, aligned, inside its network. */
  predicate IsBlock(a: Alloc, c: Cidr)
    requires Valid(a)
  {
    Canonical(c) && c.prefix == 32 - a.hostBits && Contains(a.network, c.ip)
  }

  // ------------------------------------------------------- blocks

  lemma NetworkSize(a: Alloc)
    requires Valid(a)
    ensures Size(a.network) == Pow2(a.hostBits) * NumSubnets(a) && a.network.ip + Size(a.network) <= MAX_IPV4
    ensures Pow2(a.hostBits) > 0 && a.network.ip % Pow2(a.hostBits) == 0
  {
    var h, s, p := Pow2(a.hostBits), NumSubnets(a), a.network.prefix;
    Pow2Sum(a.hostBits, SubnetBits(a));
    Pow2Sum(32 - p, p);
    Pow2Is(32);
    Pow2Positive(a.hostBits);
    Pow2Positive(p);
    BaseFits(a.network.ip, h, s, Pow2(p), MAX_IPV4);
  }

  lemma BaseFits(base: nat, h: nat, s: nat, p: nat, m: nat)
    requires h > 0 && s > 0 && p > 0 && m == (h * s) * p && base < m && h * s > 0 && base % (h * s) == 0
    ensures base + h * s <= m && base % h == 0
  {
    var w := h * s;
    DivMod(base, w);
    DivNat(base, w);
    MulSwap(base / w, s, h);
    DivUnique(base, h, base / w * s, 0);
    QuotientBound(base, p, w);
    MulAdd(base / w, 1, w);
    MulAdd(base / w + 1, p - base / w - 1, w);
    MulNonNegative(p - base / w - 1, w);
  }

  /** What is handed out is a block: aligned, of the right length, inside the network. */
  lemma BlockIsBlock(a: Alloc, n: nat)
    requires Valid(a) && n < NumSubnets(a)
    ensures IsBlock(a, Block(a, n))
  {
    var h := Pow2(a.hostBits);
    GenIpIs(a, n);
    NetworkSize(a);
    DivMod(a.network.ip, h);
    DivNat(a.network.ip, h);
    var o := Order(a, n);
    MulAdd(a.network.ip / h, o, h);
    DivUnique(GenIp(a, n), h, a.network.ip / h + o, 0);
    DigitBound(o, NumSubnets(a), 0, h);
    MulNonNegative(o, h);
    ContainsIsRange(a.network, GenIp(a, n));
  }

  lemma OrderInjective(a: Alloc, m: nat, n: nat)
    requires Valid(a) && m < NumSubnets(a) && n < NumSubnets(a) && Order(a, m) == Order(a, n)
    ensures m == n
  {
    if Rotates(a) {
      RotationFits(a);
      RotateBack(m, LeftShift(a), SubnetBits(a) - LeftShift(a));
      RotateBack(n, LeftShift(a), SubnetBits(a) - LeftShift(a));
    }
  }

  lemma SameMultiple(o: nat, p: nat, k: nat)
    requires o * Pow2(k) == p * Pow2(k)
    ensures o == p
  {
    Pow2Positive(k);
    DivUnique(o * Pow2(k), Pow2(k), o, 0);
    DivUnique(p * Pow2(k), Pow2(k), p, 0);
  }

  lemma BlockInjective(a: Alloc, m: nat, n: nat)
    requires Valid(a) && m < NumSubnets(a) && n < NumSubnets(a) && Block(a, m) == Block(a, n)
    ensures m == n
  {
    GenIpIs(a, m);
    GenIpIs(a, n);
    SameMultiple(Order(a, m), Order(a, n), a.hostBits);
    OrderInjective(a, m, n);
  }

  lemma OrderOnto(a: Alloc, o: nat) returns (n: nat)
    requires Valid(a) && o < NumSubnets(a)
    ensures n < NumSubnets(a) && Order(a, n) == o
  {
    n := o;
    if Rotates(a) {
      RotationFits(a);
      var l, r := LeftShift(a), SubnetBits(a) - LeftShift(a);
      n := Rotate(o, r, l);
      RotateRange(o, r, l);
      RotateBack(o, r, l);
    }
  }

  lemma BlockNumber(ip: nat, base: nat, h: nat, num: nat) returns (o: nat)
    requires h > 0 && ip % h == 0 && base % h == 0 && base <= ip < base + h * num
    ensures o < num && ip == base + o * h
  {
    DivMod(base, h);
    DivMod(ip, h);
    var d := ip / h - base / h;
    MulAdd(d, base / h, h);
    MulSize(-d, h);
    MulAdd(d, -d, h);
    o := d;
    DivUnique(ip - base, h, o, 0);
    QuotientBound(ip - base, num, h);
  }

  /** Every block of the network has a number. */
  lemma BlockOnto(a: Alloc, c: Cidr) returns (n: nat)
    requires Valid(a) && IsBlock(a, c)
    ensures n < NumSubnets(a) && Block(a, n) == c
  {
    NetworkSize(a);
    ContainsIsRange(a.network, c.ip);
    var o := BlockNumber(c.ip, a.network.ip, Pow2(a.hostBits), NumSubnets(a));
    n := OrderOnto(a, o);
    GenIpIs(a, n);
  }

  /** Two blocks of one size are the same or disjoint. */
  lemma SameSizeDisjoint(c: Cidr, d: Cidr)
    requires Canonical(c) && Canonical(d) && c.prefix == d.prefix && Meet(c, d)
    ensures c == d
  {
    var x: nat :| InRange(c, x) && InRange(d, x);
    ContainsIsRange(c, x);
    ContainsIsRange(d, x);
    DivMod(c.ip, Size(c));
    DivMod(d.ip, Size(d));
  }

  // ------------------------------------------------------- operations

  datatype NewError = ZeroHostBits | TooManyHostBits

  /** NewSubnetAllocator; `inUse` are the parsed subnets, masked as ParseCIDR does. */
  method NewSubnetAllocator(network: Cidr, hostBits: nat, inUse: seq<Cidr>) returns (r: Option<Alloc>)
    requires Canonical(network)
    ensures r.Some? <==> 1 <= hostBits <= 32 - network.prefix
    ensures r.Some? ==> Valid(r.value) && r.value.network == network && r.value.hostBits == hostBits
                        && r.value.next == 0
                        && r.value.used == set c | c in inUse && Contains(network, c.ip)
  {
    if hostBits == 0 || hostBits > 32 - network.prefix {
      return None;
    }
    var used: set<Cidr> := {};
    var i := 0;
    while i < |inUse|
      invariant 0 <= i <= |inUse| && used == set c | c in inUse[..i] && Contains(network, c.ip)
    {
      assert inUse[..i + 1] == inUse[..i] + [inUse[i]];
      if Contains(network, inUse[i].ip) {
        used := used + {inUse[i]};
      }
      i := i + 1;
    }
    assert inUse[..i] == inUse;
    return Some(Alloc(network, hostBits, 0, used));
  }

  /** Every block of the network is in use. */
  ghost predicate Full(a: Alloc)
    requires Valid(a)
  {
    forall c | IsBlock(a, c) :: c in a.used
  }

  lemma FullIsAllNumbers(a: Alloc)
    requires Valid(a)
    ensures Full(a) <==> forall n: nat | n < NumSubnets(a) :: Block(a, n) in a.used
  {
    if Full(a) {
      forall n: nat | n < NumSubnets(a) ensures Block(a, n) in a.used {
        BlockIsBlock(a, n);
      }
    }
    if forall n: nat | n < NumSubnets(a) :: Block(a, n) in a.used {
      forall c | IsBlock(a, c) ensures c in a.used {
        var n := BlockOnto(a, c);
        assert Block(a, n) in a.used;
      }
    }
  }

  /** The number tried in the i-th turn of the scan. */
  function Turn(a: Alloc, i: nat): (n: nat)
    requires Valid(a)
    ensures n < NumSubnets(a)
  {
    (i + a.next) % NumSubnets(a)
  }

  predicate Tried(a: Alloc, i: nat)
    requires Valid(a)
  {
    Block(a, Turn(a, i)) in a.used
  }

  /** GetNetwork scans the numbers once around, starting at `next`: it hands out the first free
      block of that order, or none exactly when every block of the network is in use. */
  method GetNetwork(a: Alloc) returns (r: Option<Cidr>, a': Alloc)
    requires Valid(a)
    ensures a'.network == a.network && a'.hostBits == a.hostBits
    ensures r.None? <==> Full(a)
    ensures r.None? ==> a' == a.(next := 0)
    ensures r.Some? ==> IsBlock(a, r.value) && r.value !in a.used && a'.used == a.used + {r.value}
    ensures r.Some? ==> exists i: nat ::
                          Turn(a, i) + 1 == a'.next && r.value == Block(a, Turn(a, i))
                          && forall j: nat | j < i :: Tried(a, j)
  {
    var num := NumSubnets(a);
    var i: nat := 0;
    while i < num
      invariant 0 <= i <= num
      invariant forall j: nat | j < i :: Tried(a, j)
    {
      var n := Turn(a, i);
      var subnet := Block(a, n);
      if subnet !in a.used {
        BlockIsBlock(a, n);
        return Some(subnet), a.(used := a.used + {subnet}, next := n + 1);
      }
      i := i + 1;
    }
    OnceAround(a);
    FullIsAllNumbers(a);
    return None, a.(next := 0);
  }

  lemma TurnHits(from: nat, num: nat, n: nat) returns (j: nat)
    requires n < num
    ensures j < num && (j + from) % num == n
  {
    DivMod(from, num);
    DivNat(from, num);
    var q, s := from / num, from % num;
    MulAdd(q, 1, num);
    if n >= s {
      j := n - s;
      DivUnique(j + from, num, q, n);
    } else {
      j := n + num - s;
      DivUnique(j + from, num, q + 1, n);
    }
  }

  /** Starting anywhere, one turn around visits every number. */
  lemma OnceAround(a: Alloc)
    requires Valid(a) && forall j: nat | j < NumSubnets(a) :: Tried(a, j)
    ensures forall n: nat | n < NumSubnets(a) :: Block(a, n) in a.used
  {
    forall n: nat | n < NumSubnets(a) ensures Block(a, n) in a.used {
      var j := TurnHits(a.next, NumSubnets(a), n);
      assert Tried(a, j);
    }
  }

  /** ReleaseNetwork succeeds exactly for an allocated subnet of the network, and frees it. */
  method ReleaseNetwork(a: Alloc, c: Cidr) returns (ok: bool, a': Alloc)
    requires Valid(a)
    ensures ok <==> Contains(a.network, c.ip) && c in a.used
    ensures a' == if ok then a.(used := a.used - {c}) else a
  {
    if !Contains(a.network, c.ip) || c !in a.used {
      return false, a;
    }
    return true, a.(used := a.used - {c});
  }
}
