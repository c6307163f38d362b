/** Addresses and prefixes, as far as the models need net/netip: an address is
    absent, a 32-bit IPv4 value or a 128-bit IPv6 value. */
module Net {
  const LIMIT32: nat := 0x1_0000_0000
  const LIMIT128: nat := 0x1_00000000_00000000_00000000_00000000

  type U32 = n: nat | n < 0x1_0000_0000
  type U128 = n: nat | n < 0x1_00000000_00000000_00000000_00000000

  datatype Addr = NoAddr | V4(v4: U32) | V6(v6: U128)

  // A prefix as ParsePrefix leaves it: the address keeps its host bits until Masked.
  datatype Prefix = Prefix(addr: Addr, bits: nat) {
    predicate Valid() {
      match addr
      case NoAddr => false
      case V4(_) => bits <= 32
      case V6(_) => bits <= 128
    }
  }

  function Pow2(n: nat): (r: nat)
    ensures r > 0
  {
    if n == 0 then 1 else 2 * Pow2(n - 1)
  }

  function Width(a: Addr): nat {
    match a
    case NoAddr => 0
    case V4(_) => 32
    case V6(_) => 128
  }

  function Value(a: Addr): nat {
    match a
    case NoAddr => 0
    case V4(v) => v
    case V6(v) => v
  }

  // How many addresses share one prefix of this length.
  function Block(p: Prefix): (r: nat)
    requires p.Valid()
    ensures r > 0
  {
    Pow2(Width(p.addr) - p.bits)
  }

  // An IPv4-mapped IPv6 address stands for the IPv4 address inside it.
  predicate Is4In6(a: Addr) {
    a.V6? && a.v6 / LIMIT32 == 0xFFFF
  }

  function Unmap(a: Addr): Addr {
    if Is4In6(a) then V4(a.v6 % LIMIT32) else a
  }

  predicate IsUnspecified(a: Addr) {
    a == V4(0) || a == V6(0)
  }

  // The successor of an address; the last address of a family has none.
  function Next(a: Addr): Addr {
    match a
    case NoAddr => NoAddr
    case V4(v) => if v + 1 < LIMIT32 then V4(v + 1) else NoAddr
    case V6(v) => if v + 1 < LIMIT128 then V6(v + 1) else NoAddr
  }

  predicate SameFamily(a: Addr, b: Addr) {
    (a.V4? && b.V4?) || (a.V6? && b.V6?)
  }

  predicate Contains(p: Prefix, a: Addr) {
    p.Valid() && SameFamily(p.addr, a) && Value(a) / Block(p) == Value(p.addr) / Block(p)
  }

  function Masked(p: Prefix): (r: Prefix)
    requires p.Valid()
    ensures r.Valid() && r.bits == p.bits && SameFamily(r.addr, p.addr)
  {
    var v := Value(p.addr) - Value(p.addr) % Block(p);
    ModBound(Value(p.addr), Block(p));
    Prefix(if p.addr.V4? then V4(v) else V6(v), p.bits)
  }

  // A prefix without its host bits, where it has any.
  function Canonical(p: Prefix): Prefix { if p.Valid() then Masked(p) else p }

  lemma ModBound(v: nat, d: nat)
    requires d > 0
    ensures 0 <= v - v % d <= v
  {
  }

  lemma DivMonotone(x: nat, y: nat, d: nat)
    requires x <= y && d > 0
    ensures x / d <= y / d
  {
    var e := x / d - y / d;
    assert x == d * (x / d) + x % d;
    assert y == d * (y / d) + y % d;
    assert d * e == d * (x / d) - d * (y / d);
    MulSign(d, e);
  }

  lemma MulSign(d: int, e: int)
    requires d > 0
    ensures e >= 1 ==> d * e >= d
    ensures e <= -1 ==> d * e <= -d
  {
  }

  lemma MaskedQuotient(v: nat, d: nat)
    requires d > 0
    ensures v - v % d == d * (v / d)
    ensures (v - v % d) / d == v / d
  {
    var q := v / d;
    assert v == d * q + v % d;
    DivUnique(d * q, d, q, 0);
  }

  // Euclid's quotient is the only one.
  lemma DivUnique(m: int, d: int, q: int, r: int)
    requires d > 0 && m == d * q + r && 0 <= r < d
    ensures m / d == q && m % d == r
  {
    var e := m / d - q;
    assert d * e == r - m % d by {
      assert m == d * (m / d) + m % d;
      assert d * (m / d) == d * q + d * e;
    }
    MulSign(d, e);
  }

  // A prefix that holds both ends of an IPv4 range holds everything between them.
  lemma ContainsBetween(p: Prefix, lo: U32, mid: U32, hi: U32)
    requires Contains(p, V4(lo)) && Contains(p, V4(hi)) && lo <= mid <= hi
    ensures Contains(p, V4(mid))
  {
    DivMonotone(lo, mid, Block(p));
    DivMonotone(mid, hi, Block(p));
  }

  lemma MaskedContains(p: Prefix, a: Addr)
    requires p.Valid()
    ensures Contains(Masked(p), a) <==> Contains(p, a)
  {
    MaskedQuotient(Value(p.addr), Block(p));
  }

  lemma MaskedTwice(p: Prefix)
    requires p.Valid()
    ensures Masked(Masked(p)) == Masked(p)
  {
    MaskedQuotient(Value(p.addr), Block(p));
    MaskedQuotient(Value(Masked(p).addr), Block(p));
  }

  // Two masked prefixes of one length that share an address are the same prefix.
  lemma MaskedDisjoint(p: Prefix, q: Prefix, a: Addr)
    requires p.Valid() && q.Valid() && p.bits == q.bits
    requires Contains(Masked(p), a) && Contains(Masked(q), a)
    ensures Masked(p) == Masked(q)
  {
    MaskedContains(p, a);
    MaskedContains(q, a);
    MaskedQuotient(Value(p.addr), Block(p));
    MaskedQuotient(Value(q.addr), Block(q));
  }

  // ----- the ends of a subnet -----

  lemma PowAdd(m: nat, n: nat)
    ensures Pow2(m + n) == Pow2(m) * Pow2(n)
  {
    if m > 0 {
      PowAdd(m - 1, n);
    }
  }

  lemma Pow32()
    ensures Pow2(32) == LIMIT32
  {
    assert Pow2(4) == 16;
    PowAdd(4, 4);
    PowAdd(8, 8);
    PowAdd(16, 16);
  }

  // The network address, where there is one.
  function NetworkOf(p: Prefix): Addr {
    if p.Valid() then Masked(p).addr else NoAddr
  }

  // The last address of an IPv4 subnet; other families have none.
  function BroadcastOf(p: Prefix): Addr {
    if p.Valid() && p.addr.V4? then
      LastFits(p);
      V4(Value(Masked(p).addr) + Block(p) - 1)
    else NoAddr
  }

  lemma InBlock(v: nat, d: nat, q: nat)
    requires d > 0
    ensures v / d == q <==> d * q <= v < d * q + d
  {
    if d * q <= v < d * q + d { DivUnique(v, d, q, v - d * q); }
  }

  lemma BlockFits(v: nat, d: nat, n: nat)
    requires d > 0 && v < d * n
    ensures d * (v / d) + d <= d * n
  {
    var q := v / d;
    InBlock(v, d, q);
    var e := n - q;
    assert d * e == d * n - d * q;
    MulSign(d, e);
    assert e == 0 ==> d * e == 0;
  }

  lemma LastFits(p: Prefix)
    requires p.Valid() && p.addr.V4?
    ensures Value(Masked(p).addr) + Block(p) <= LIMIT32
  {
    Pow32();
    PowAdd(32 - p.bits, p.bits);
    MaskedQuotient(p.addr.v4, Block(p));
    BlockFits(p.addr.v4, Block(p), Pow2(p.bits));
  }

  // An IPv4 subnet is exactly the run from its network to its broadcast address.
  lemma SubnetIsInterval(p: Prefix, v: U32)
    requires p.Valid() && p.addr.V4?
    ensures Contains(p, V4(v)) <==> NetworkOf(p).v4 <= v <= BroadcastOf(p).v4
  {
    LastFits(p);
    MaskedQuotient(p.addr.v4, Block(p));
    InBlock(v, Block(p), p.addr.v4 / Block(p));
  }
}
