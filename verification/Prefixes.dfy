/** CIDR prefixes: masking, membership and containment as arithmetic on addresses. */
module Prefixes {
  import opened Addresses
  import opened Sorting

  /** A valid `netip.Prefix`; host bits of the address may be set. */
  datatype Prefix = Prefix(addr: Addr, bits: nat)

  function Width(a: Addr): nat { if a.V4? then 32 else 128 }

  function Number(a: Addr): nat {
    match a
    case NoAddr => 0
    case V4(n) => n
    case V6(n, _) => n
  }

  predicate ValidPrefix(p: Prefix) {
    IsValid(p.addr) && p.bits <= Width(p.addr) && (p.addr.V6? ==> p.addr.zone == "")
  }

  function Pow2(n: nat): (r: nat)
    ensures r > 0
  {
    if n == 0 then 1 else 2 * Pow2(n - 1)
  }

  /** How many addresses share the network part. */
  function Block(p: Prefix): (r: nat)
    requires ValidPrefix(p)
    ensures r > 0
  {
    Pow2(Width(p.addr) - p.bits)
  }

  /** Membership: same kind of address, no zone, and equal top bits. */
  predicate Contains(p: Prefix, a: Addr)
    requires ValidPrefix(p)
  {
    && IsValid(a) && a.V4? == p.addr.V4? && (a.V6? ==> a.zone == "")
    && Number(a) / Block(p) == Number(p.addr) / Block(p)
  }

  /** n rounded down to a multiple of d. */
  function Network(n: nat, d: nat): (r: nat)
    requires d > 0
    ensures r <= n < r + d
  {
    DivMulLe(n, d);
    n / d * d
  }

  /** The prefix with its host bits cleared. */
  function Masked(p: Prefix): (m: Prefix)
    requires ValidPrefix(p)
    ensures ValidPrefix(m) && m.bits == p.bits
  {
    var n := Network(Number(p.addr), Block(p));
    if p.addr.V4? then Prefix(V4(n), p.bits) else Prefix(V6(n, ""), p.bits)
  }

  predicate PrefixContainsPrefix(container: Prefix, target: Prefix)
    requires ValidPrefix(container) && ValidPrefix(target)
  {
    Contains(container, target.addr) && container.bits <= target.bits
  }

  // ---------------------------------------------------------------------------
  // Division facts, each proved away from the rest

  lemma DivMulLe(n: nat, d: nat)
    requires d > 0
    ensures n / d * d <= n < n / d * d + d
  {
  }

  lemma DivUnique(n: nat, d: nat, q: int)
    requires d > 0 && q * d <= n < (q + 1) * d
    ensures n / d == q
  {
    DivMulLe(n, d);
    var k := n / d;
    if k < q { MulLe(k + 1, q, d); }
    if k > q { MulLe(q + 1, k, d); }
  }

  lemma MulLe(a: int, b: int, d: nat)
    requires a <= b
    ensures a * d <= b * d
  {
  }

  lemma DivDiv(n: nat, a: nat, b: nat)
    requires a > 0 && b > 0
    ensures a * b > 0 && n / (a * b) == n / a / b
  {
    var q := n / a / b;
    DivMulLe(n, a);
    DivMulLe(n / a, b);
    MulLe(q * b, n / a, a);
    MulLe(n / a + 1, (q + 1) * b, a);
    assert q * b * a == q * (a * b);
    assert (q + 1) * b * a == (q + 1) * (a * b);
    DivUnique(n, a * b, q);
  }

  lemma {:induction false} Pow2Add(m: nat, n: nat)
    ensures Pow2(m + n) == Pow2(m) * Pow2(n)
  {
    if m > 0 { Pow2Add(m - 1, n); }
  }

  lemma Pow2Strict(m: nat, n: nat)
    requires m < n
    ensures Pow2(m) * 2 <= Pow2(n)
  {
    Pow2Add(m + 1, n - m - 1);
    MulLe(1, Pow2(n - m - 1), Pow2(m + 1));
  }

  lemma NetworkQuotient(n: nat, d: nat, k: nat)
    requires d > 0 && k < d
    ensures (Network(n, d) + k) / d == n / d
    ensures Network(Network(n, d) + k, d) == Network(n, d)
  {
    var q := n / d;
    assert (q + 1) * d == q * d + d;
    DivUnique(q * d + k, d, q);
  }

  lemma NetworkBound(n: nat, d: nat, k: nat)
    requires d > 0 && n < d * k
    ensures Network(n, d) + d <= d * k
  {
    var q := n / d;
    DivMulLe(n, d);
    if q >= k { MulLe(k, q, d); }
    MulLe(q + 1, k, d);
    assert (q + 1) * d == q * d + d;
  }

  lemma FarApart(lo: nat, hi: nat, d: nat)
    requires d > 0 && lo + d <= hi
    ensures lo / d != hi / d
  {
    DivMulLe(lo, d);
    DivMulLe(hi, d);
  }

  // ---------------------------------------------------------------------------
  // Containment is inclusion of address sets

  /** Masking changes no membership, and is idempotent. */
  lemma MaskedSameSet(p: Prefix, a: Addr)
    requires ValidPrefix(p)
    ensures Contains(Masked(p), a) <==> Contains(p, a)
    ensures Masked(Masked(p)) == Masked(p)
  {
    hide Network;
    NetworkQuotient(Number(p.addr), Block(p), 0);
  }

  lemma ContainsTransitive(c: Prefix, t: Prefix, a: Addr)
    requires ValidPrefix(c) && ValidPrefix(t)
    requires PrefixContainsPrefix(c, t) && Contains(t, a)
    ensures Contains(c, a)
  {
    var k := t.bits - c.bits;
    Pow2Add(Width(t.addr) - t.bits, k);
    DivDiv(Number(a), Block(t), Pow2(k));
    DivDiv(Number(t.addr), Block(t), Pow2(k));
    assert Block(c) == Block(t) * Pow2(k);
  }

  lemma Pow2Four()
    ensures Pow2(4) == 16
  {
  }

  lemma Pow2Square(n: nat, v: nat)
    requires Pow2(n) == v
    ensures Pow2(2 * n) == v * v
  {
    Pow2Add(n, n);
  }

  lemma Pow2Values()
    ensures Pow2(32) == 0x1_0000_0000
    ensures Pow2(128) == 0x1_0000_0000_0000_0000_0000_0000_0000_0000
  {
    hide Pow2;
    Pow2Four();
    Pow2Square(4, 16);
    Pow2Square(8, 0x100);
    Pow2Square(16, 0x1_0000);
    Pow2Square(32, 0x1_0000_0000);
    Pow2Square(64, 0x1_0000_0000_0000_0000);
  }

  lemma NumberInRange(a: Addr)
    ensures Number(a) < Pow2(Width(a))
    ensures Pow2(32) == 0x1_0000_0000 && Pow2(128) == 0x1_0000_0000_0000_0000_0000_0000_0000_0000
  {
    hide Pow2;
    Pow2Values();
  }

  lemma LastInRange(t: Prefix)
    requires ValidPrefix(t)
    ensures Network(Number(t.addr), Block(t)) + Block(t) <= Pow2(Width(t.addr))
  {
    hide Network;
    NumberInRange(t.addr);
    Pow2Add(Width(t.addr) - t.bits, t.bits);
    hide Pow2;
    NetworkBound(Number(t.addr), Block(t), Pow2(t.bits));
  }

  /** The last address of t: its network part followed by ones. */
  function Last(t: Prefix): (a: Addr)
    requires ValidPrefix(t)
  {
    LastInRange(t);
    NumberInRange(t.addr);
    var n := Network(Number(t.addr), Block(t)) + Block(t) - 1;
    if t.addr.V4? then V4(n) else V6(n, "")
  }

  lemma EndsContained(t: Prefix)
    requires ValidPrefix(t)
    ensures Contains(t, Last(t)) && Contains(t, Masked(t).addr)
    ensures Number(Last(t)) == Number(Masked(t).addr) + Block(t) - 1
  {
    hide Network;
    NetworkQuotient(Number(t.addr), Block(t), 0);
    NetworkQuotient(Number(t.addr), Block(t), Block(t) - 1);
  }

  /** Where the test fails, some address of the target lies outside the container. */
  lemma Outsider(c: Prefix, t: Prefix) returns (a: Addr)
    requires ValidPrefix(c) && ValidPrefix(t) && !PrefixContainsPrefix(c, t)
    ensures Contains(t, a) && !Contains(c, a)
  {
    hide Last, Masked, Pow2;
    if !Contains(c, t.addr) { return t.addr; }
    EndsContained(t);
    Pow2Strict(Width(c.addr) - c.bits, Width(t.addr) - t.bits);
    FarApart(Number(Masked(t).addr), Number(Last(t)), Block(c));
    return if Contains(c, Last(t)) then Masked(t).addr else Last(t);
  }

  /** prefixContainsPrefix decides inclusion of the two address sets. */
  lemma ContainmentIsInclusion(c: Prefix, t: Prefix)
    requires ValidPrefix(c) && ValidPrefix(t)
    ensures PrefixContainsPrefix(c, t) <==> forall a :: Contains(t, a) ==> Contains(c, a)
  {
    if PrefixContainsPrefix(c, t) {
      forall a | Contains(t, a) ensures Contains(c, a) { ContainsTransitive(c, t, a); }
    } else {
      var a := Outsider(c, t);
    }
  }

  // ---------------------------------------------------------------------------
  // The order of `netip.Prefix.Compare`

  type Cidr = p: Prefix | ValidPrefix(p) witness Prefix(V4(0), 0)

  /** By family, then masked address, then length, then unmasked address. */
  predicate PrefixLe(p: Cidr, q: Cidr) {
    if Width(p.addr) != Width(q.addr) then Width(p.addr) < Width(q.addr)
    else if Number(Masked(p).addr) != Number(Masked(q).addr) then Number(Masked(p).addr) < Number(Masked(q).addr)
    else if p.bits != q.bits then p.bits < q.bits
    else Number(p.addr) <= Number(q.addr)
  }

  lemma PrefixOrdering()
    ensures Ordering(PrefixLe)
  {
    hide Masked;
  }

  lemma PrefixAntisymmetric(p: Cidr, q: Cidr)
    requires PrefixLe(p, q) && PrefixLe(q, p)
    ensures p == q
  {
    hide Masked;
  }

  // ---------------------------------------------------------------------------
  // Masking and families

  /** Masking a prefix that is not IPv4-mapped does not make it so. */
  lemma MaskedFamily(f: Family, p: Cidr)
    requires Canonical(p.addr) && Matches(f, p.addr)
    ensures Matches(f, Masked(p).addr) && Canonical(Masked(p).addr)
  {
    if p.addr.V6? {
      var n, m := p.addr.bits6, Masked(p).addr.bits6;
      Pow2Values();
      if p.bits >= 96 {
        var k := p.bits - 96;
        Pow2Add(128 - p.bits, k);
        NetworkQuotient(n, Block(p), 0);
        DivDiv(n, Block(p), Pow2(k));
        DivDiv(m, Block(p), Pow2(k));
      } else {
        var k := 96 - p.bits;
        Pow2Add(32, k);
        MultipleIsEven(n / Block(p), Pow2(k - 1));
      }
    }
  }

  /** A multiple of 2^33 has an even quotient by 2^32, so it is not 0xffff. */
  lemma MultipleIsEven(q: nat, h: nat)
    ensures (q * (0x1_0000_0000 * (2 * h))) / 0x1_0000_0000 != 0xffff
  {
    var r := q * h;
    assert q * (0x1_0000_0000 * (2 * h)) == (2 * r) * 0x1_0000_0000;
  }

  // ---------------------------------------------------------------------------
  // Bit by bit

  /** Bit k of a w-bit number, the most significant first. */
  predicate BitAt(n: nat, w: nat, k: nat)
    requires k < w
  {
    n / Pow2(w - 1 - k) % 2 == 1
  }

  /** Bit k of an address of the prefix's family. */
  predicate AddrBit(a: Addr, k: nat)
    requires k < Width(a)
  {
    BitAt(Number(a), Width(a), k)
  }

  /** Two numbers have the same first b of w bits. */
  predicate SameBits(n: nat, m: nat, w: nat, b: nat)
    requires b <= w
  {
    forall k :: 0 <= k < b ==> BitAt(n, w, k) == BitAt(m, w, k)
  }

  lemma SameBitsStep(n: nat, m: nat, w: nat, b: nat)
    requires b < w
    ensures SameBits(n, m, w, b + 1) <==> SameBits(n, m, w, b) && BitAt(n, w, b) == BitAt(m, w, b)
  {
    hide BitAt;
  }

  lemma QuotientStep(n: nat, m: nat, d: nat)
    requires d > 0
    ensures n / d == m / d <==> n / (d * 2) == m / (d * 2) && (n / d % 2 == 1 <==> m / d % 2 == 1)
  {
    DivDiv(n, d, 2);
    DivDiv(m, d, 2);
    LastBit(n / d, m / d);
  }

  lemma LastBit(x: nat, y: nat)
    ensures x == y <==> x / 2 == y / 2 && (x % 2 == 1 <==> y % 2 == 1)
  {
  }

  lemma Pow2Twice(n: nat)
    ensures Pow2(n + 1) == Pow2(n) * 2
  {
  }

  /** They do exactly when they agree down to the block of the rest. */
  lemma {:induction false} QuotientBits(n: nat, m: nat, w: nat, b: nat)
    requires b <= w && n < Pow2(w) && m < Pow2(w)
    ensures n / Pow2(w - b) == m / Pow2(w - b) <==> SameBits(n, m, w, b)
  {
    if b == 0 {
      SmallQuotient(n, Pow2(w));
      SmallQuotient(m, Pow2(w));
    } else {
      QuotientBits(n, m, w, b - 1);
      QuotientStep(n, m, Pow2(w - b));
      Pow2Twice(w - b);
      SameBitsStep(n, m, w, b - 1);
      BitIs(n, w, b - 1);
      BitIs(m, w, b - 1);
      hide *;
    }
  }

  lemma SmallQuotient(n: nat, d: nat)
    requires n < d
    ensures n / d == 0
  {
    DivUnique(n, d, 0);
  }

  lemma BitIs(n: nat, w: nat, k: nat)
    requires k < w
    ensures BitAt(n, w, k) <==> n / Pow2(w - (k + 1)) % 2 == 1
  {
  }

  lemma NumberFits(a: Addr)
    requires IsValid(a)
    ensures Number(a) < Pow2(Width(a))
  {
    Pow2Values();
  }

  /** A prefix contains the unzoned addresses of its family that have its first bits. */
  lemma ContainsBits(p: Prefix, a: Addr)
    requires ValidPrefix(p)
    ensures Contains(p, a) <==>
      && IsValid(a) && (a.V4? <==> p.addr.V4?) && (a.V6? ==> a.zone == "")
      && forall k :: 0 <= k < p.bits ==> AddrBit(a, k) == AddrBit(p.addr, k)
  {
    if IsValid(a) && (a.V4? <==> p.addr.V4?) {
      NumberFits(a);
      NumberFits(p.addr);
      QuotientBits(Number(a), Number(p.addr), Width(a), p.bits);
      assert Block(p) == Pow2(Width(a) - p.bits);
      hide BitAt, Pow2, Block, Number;
      SameAddrBits(a, p.addr, p.bits);
    }
  }

  lemma SameAddrBits(a: Addr, b: Addr, n: nat)
    requires Width(a) == Width(b) && n <= Width(a)
    ensures SameBits(Number(a), Number(b), Width(a), n) <==>
      forall k :: 0 <= k < n ==> AddrBit(a, k) == AddrBit(b, k)
  {
    hide BitAt;
    assert forall k :: 0 <= k < n ==>
      AddrBit(a, k) == BitAt(Number(a), Width(a), k) && AddrBit(b, k) == BitAt(Number(b), Width(a), k);
  }

  /** The masked prefix has the first bits of the prefix and no others. */
  lemma MaskedBits(p: Prefix, k: nat)
    requires ValidPrefix(p) && k < Width(p.addr)
    ensures Width(Masked(p).addr) == Width(p.addr)
    ensures AddrBit(Masked(p).addr, k) <==> k < p.bits && AddrBit(p.addr, k)
  {
    var m := Masked(p);
    if k < p.bits {
      MaskedSameSet(p, m.addr);
      MaskedSameSet(m, m.addr);
      ContainsBits(m, m.addr);
      assert Contains(m, m.addr);
      ContainsBits(p, m.addr);
    } else {
      MaskedTail(Number(p.addr), Width(p.addr), p.bits, k);
    }
  }

  lemma MaskedTail(n: nat, w: nat, b: nat, k: nat)
    requires b <= k < w
    ensures !BitAt(Network(n, Pow2(w - b)), w, k)
  {
    BitIs(Network(n, Pow2(w - b)), w, k);
    Pow2Add(k - b, w - (k + 1));
    Pow2Twice(w - (k + 1) + (k - b));
    hide Pow2, BitAt;
    EvenMultiple(n / Pow2(w - b), Pow2(k - b), Pow2(w - (k + 1)));
  }

  lemma EvenMultiple(q: nat, h: nat, d: nat)
    requires d > 0
    ensures q * (h * d * 2) / d % 2 == 0
  {
    var r := q * h;
    assert q * (h * d * 2) == (2 * r) * d;
    TwiceQuotient(r, d);
  }

  lemma TwiceQuotient(r: nat, d: nat)
    requires d > 0
    ensures (2 * r) * d / d == 2 * r
  {
    DivUnique((2 * r) * d, d, 2 * r);
  }

  /** Unmapping keeps the last 32 bits of a mapped address and every other address as it is. */
  lemma UnmapBits(a: Addr, k: nat)
    requires k < 32
    ensures if Is4In6(a) then Unmap(a).V4? && (AddrBit(Unmap(a), k) <==> AddrBit(a, 96 + k)) else Unmap(a) == a
  {
    if Is4In6(a) {
      Pow2Values();
      LowBits(a.bits6, 32, 128, k);
    }
  }

  lemma LowBits(n: nat, w: nat, wide: nat, k: nat)
    requires k < w <= wide
    ensures BitAt(n % Pow2(w), w, k) <==> BitAt(n, wide, wide - w + k)
  {
    var j := w - (k + 1);
    BitIs(n % Pow2(w), w, k);
    BitIs(n, wide, wide - w + k);
    Pow2Add(k + 1, j);
    Pow2Twice(k);
    hide BitAt, Pow2;
    LowQuotient(n, Pow2(k), Pow2(j));
  }

  lemma LowQuotient(n: nat, h: nat, d: nat)
    requires h > 0 && d > 0
    ensures (h * 2) * d > 0 && n % ((h * 2) * d) / d % 2 == n / d % 2
  {
    Positive(h * 2, d);
    var m := (h * 2) * d;
    Euclid(n, m);
    LowQuotientOf(n, n / m, n % m, h, d);
  }

  lemma Positive(a: nat, b: nat)
    requires a > 0 && b > 0
    ensures a * b > 0
  {
  }

  lemma Euclid(n: nat, m: nat)
    requires m > 0
    ensures n == n / m * m + n % m
  {
  }

  lemma LowQuotientOf(n: nat, q: nat, r: nat, h: nat, d: nat)
    requires d > 0 && n == q * ((h * 2) * d) + r
    ensures r / d % 2 == n / d % 2
  {
    var e := q * h;
    assert q * ((h * 2) * d) == (2 * e) * d;
    ShiftQuotient(2 * e, r, d);
    EvenShift(e, r / d);
  }

  lemma EvenShift(e: nat, s: nat)
    ensures (2 * e + s) % 2 == s % 2
  {
  }

  lemma ShiftQuotient(q: nat, r: nat, d: nat)
    requires d > 0
    ensures (q * d + r) / d == q + r / d
  {
    DivMulLe(r, d);
    assert (q + r / d) * d == q * d + r / d * d;
    assert (q + r / d + 1) * d == q * d + r / d * d + d;
    DivUnique(q * d + r, d, q + r / d);
  }
}
