/** IPv6 host-ID derivation on the bytes of an address. */
module HostBits {
  /** `netip.Addr.As16` of an IPv6 address without a zone. */
  type Octets = s: seq<bv8> | |s| == 16 witness [0, 0, 0, 0, 0, 0, 0, 0, 0, 0, 0, 0, 0, 0, 0, 0]

  type Mac = s: seq<bv8> | |s| == 6 witness [0, 0, 0, 0, 0, 0]

  // ---------------------------------------------------------------------------
  // Bits, the most significant first

  function Weight(j: nat): bv8
    requires j < 8
  {
    if j == 0 then 0x80 else if j == 1 then 0x40 else if j == 2 then 0x20 else if j == 3 then 0x10
    else if j == 4 then 0x08 else if j == 5 then 0x04 else if j == 6 then 0x02 else 0x01
  }

  predicate BitOf(b: bv8, j: nat)
    requires j < 8
  {
    b & Weight(j) != 0
  }

  predicate Bit(s: Octets, k: nat)
    requires k < 128
  {
    BitOf(s[k / 8], k % 8)
  }

  predicate MacBit(mac: Mac, k: nat)
    requires k < 48
  {
    BitOf(mac[k / 8], k % 8)
  }

  /** The n most significant bits. */
  function TopMask(n: nat): bv8
    requires n <= 8
  {
    if n == 0 then 0 else if n == 1 then 0x80 else if n == 2 then 0xC0 else if n == 3 then 0xE0
    else if n == 4 then 0xF0 else if n == 5 then 0xF8 else if n == 6 then 0xFC else if n == 7 then 0xFE else 0xFF
  }

  lemma MaskBits(b: bv8, n: nat, j: nat)
    requires n <= 8 && j < 8
    ensures BitOf(b & TopMask(n), j) <==> j < n && BitOf(b, j)
  {
    assert TopMask(n) & Weight(j) == if j < n then Weight(j) else 0;
    AndAssociates(b, TopMask(n), Weight(j));
    hide TopMask, Weight;
  }

  lemma AndAssociates(a: bv8, b: bv8, c: bv8)
    ensures (a & b) & c == a & (b & c) && a & 0 == 0
  {
  }

  lemma OrBits(a: bv8, b: bv8, j: nat)
    requires j < 8
    ensures BitOf(a | b, j) <==> BitOf(a, j) || BitOf(b, j)
  {
    hide Weight;
  }

  lemma ZeroBits(j: nat)
    requires j < 8
    ensures !BitOf(0, j)
  {
    hide Weight;
  }

  /** A byte is its bits. */
  lemma ByteByBits(a: bv8, b: bv8)
    requires forall j :: 0 <= j < 8 ==> BitOf(a, j) == BitOf(b, j)
    ensures a == b
  {
    assert BitOf(a, 0) == BitOf(b, 0) && BitOf(a, 1) == BitOf(b, 1) && BitOf(a, 2) == BitOf(b, 2)
      && BitOf(a, 3) == BitOf(b, 3);
    assert BitOf(a, 4) == BitOf(b, 4) && BitOf(a, 5) == BitOf(b, 5) && BitOf(a, 6) == BitOf(b, 6)
      && BitOf(a, 7) == BitOf(b, 7);
  }

  /** An address is its bits. */
  lemma OctetsByBits(s: Octets, t: Octets)
    requires forall k :: 0 <= k < 128 ==> Bit(s, k) == Bit(t, k)
    ensures s == t
  {
    forall i | 0 <= i < 16 ensures s[i] == t[i] {
      forall j | 0 <= j < 8 ensures BitOf(s[i], j) == BitOf(t[i], j) {
        assert (8 * i + j) / 8 == i && (8 * i + j) % 8 == j;
        assert Bit(s, 8 * i + j) == Bit(t, 8 * i + j);
      }
      ByteByBits(s[i], t[i]);
    }
  }

  // ---------------------------------------------------------------------------
  // Masking and combining

  datatype Entry = Entry(addr: Octets, prefixLen: nat)

  /** The IPv4-mapped addresses. */
  predicate Mapped(s: Octets) {
    (forall i :: 0 <= i < 10 ==> s[i] == 0) && s[10] == 0xFF && s[11] == 0xFF
  }

  /** What a raw IPv6 entry must be. */
  predicate ValidEntry(e: Entry) {
    e.prefixLen <= 128 && !Mapped(e.addr)
  }

  /** How many of byte i's bits a prefix of length n covers. */
  function Covered(n: nat, i: nat): (r: nat)
    ensures r <= 8
  {
    if n <= 8 * i then 0 else if n >= 8 * i + 8 then 8 else n - 8 * i
  }

  /** `netip.Prefix.Masked`: the first n bits. */
  function KeepTop(s: Octets, n: nat): Octets {
    seq(16, i requires 0 <= i < 16 => s[i] & TopMask(Covered(n, i)))
  }

  lemma KeepTopBits(s: Octets, n: nat, k: nat)
    requires k < 128
    ensures Bit(KeepTop(s, n), k) <==> k < n && Bit(s, k)
  {
    var i, j := k / 8, k % 8;
    MaskBits(s[i], Covered(n, i), j);
    hide TopMask, BitOf;
  }

  /** combine. */
  function Combined(e: Entry, host: Octets): Octets {
    seq(16, i requires 0 <= i < 16 => KeepTop(e.addr, e.prefixLen)[i] | host[i])
  }

  method Combine(e: Entry, host: Octets) returns (r: Octets)
    ensures r == Combined(e, host)
  {
    hide KeepTop;
    var masked := KeepTop(e.addr, e.prefixLen);
    var combined := new bv8[16](i requires 0 <= i < 16 => masked[i]);
    for i := 0 to 16
      invariant forall k :: 0 <= k < i ==> combined[k] == masked[k] | host[k]
      invariant forall k :: i <= k < 16 ==> combined[k] == masked[k]
    {
      combined[i] := combined[i] | host[i];
    }
    r := combined[..];
  }

  lemma CombinedBits(e: Entry, host: Octets, k: nat)
    requires k < 128
    ensures Bit(Combined(e, host), k) <==> (k < e.prefixLen && Bit(e.addr, k)) || Bit(host, k)
  {
    KeepTopBits(e.addr, e.prefixLen, k);
    OrBits(KeepTop(e.addr, e.prefixLen)[k / 8], host[k / 8], k % 8);
    hide KeepTop, BitOf;
  }

  // ---------------------------------------------------------------------------
  // Literals

  /** `bits.LeadingZeros8`. */
  function LeadingZeros(b: bv8): (n: nat)
    ensures n <= 8
  {
    if b & 0x80 != 0 then 0 else if b & 0x40 != 0 then 1 else if b & 0x20 != 0 then 2 else if b & 0x10 != 0 then 3
    else if b & 0x08 != 0 then 4 else if b & 0x04 != 0 then 5 else if b & 0x02 != 0 then 6 else if b & 0x01 != 0 then 7
    else 8
  }

  lemma LeadingZerosBits(b: bv8)
    ensures forall j :: 0 <= j < LeadingZeros(b) ==> !BitOf(b, j)
    ensures LeadingZeros(b) < 8 ==> BitOf(b, LeadingZeros(b))
    ensures b != 0 ==> LeadingZeros(b) < 8
  {
  }

  function MaxPrefixLenFrom(s: Octets, i: nat): nat
    requires i <= 16
    decreases 16 - i
  {
    if i == 16 then 128 else if s[i] != 0 then i * 8 + LeadingZeros(s[i]) else MaxPrefixLenFrom(s, i + 1)
  }

  /** literalMaxPrefixLen. */
  method LiteralMaxPrefixLen(literal: Octets) returns (n: nat)
    ensures n == MaxPrefixLenFrom(literal, 0)
  {
    hide LeadingZeros;
    for i := 0 to 16
      invariant MaxPrefixLenFrom(literal, 0) == MaxPrefixLenFrom(literal, i)
    {
      if literal[i] != 0 { return i * 8 + LeadingZeros(literal[i]); }
    }
    return 128;
  }

  lemma {:induction false} FirstSetBit(s: Octets, i: nat)
    requires i <= 16
    ensures var n := MaxPrefixLenFrom(s, i);
      && 8 * i <= n <= 128
      && (forall k :: 8 * i <= k < n ==> !Bit(s, k))
      && (n < 128 ==> Bit(s, n))
    decreases 16 - i
  {
    if i < 16 {
      var n := MaxPrefixLenFrom(s, i);
      LeadingZerosBits(s[i]);
      hide LeadingZeros, BitOf;
      if s[i] == 0 {
        FirstSetBit(s, i + 1);
        forall k | 8 * i <= k < n ensures !Bit(s, k) {
          if k < 8 * i + 8 { assert k / 8 == i; ZeroBits(k % 8); }
        }
      } else {
        forall k | 8 * i <= k < n ensures !Bit(s, k) { assert k / 8 == i && k % 8 == k - 8 * i; }
        assert n / 8 == i && n % 8 == n - 8 * i;
      }
    }
  }

  /** The literal has no set bit among the first n. */
  predicate ClearUpTo(s: Octets, n: nat) {
    forall k :: 0 <= k < n && k < 128 ==> !Bit(s, k)
  }

  /** The bound is tight: prefixes up to it avoid every set bit, longer ones do not. */
  lemma LiteralBoundTight(literal: Octets, n: nat)
    requires n <= 128
    ensures n <= MaxPrefixLenFrom(literal, 0) <==> ClearUpTo(literal, n)
  {
    FirstSetBit(literal, 0);
    hide MaxPrefixLenFrom, Bit;
  }

  // ---------------------------------------------------------------------------
  // MAC addresses: Modified EUI-64, section 2.5.1 and Appendix A of RFC 4291

  /** macHost. */
  method MacHost(mac: Mac) returns (r: Octets)
    ensures r == MacHostOctets(mac)
  {
    var host := new bv8[16](_ => 0);
    host[8] := mac[0] ^ 0x02;
    host[9] := mac[1];
    host[10] := mac[2];
    host[11] := 0xff;
    host[12] := 0xfe;
    host[13] := mac[3];
    host[14] := mac[4];
    host[15] := mac[5];
    r := host[..];
  }

  function MacHostOctets(mac: Mac): Octets {
    [0, 0, 0, 0, 0, 0, 0, 0, mac[0] ^ 0x02, mac[1], mac[2], 0xff, 0xfe, mac[3], mac[4], mac[5]]
  }

  /** Bit j of the interface identifier: the company half with its universal/local bit inverted, FFFE, the vendor
      half. */
  predicate InterfaceBit(mac: Mac, j: nat)
    requires j < 64
  {
    if j == 6 then !MacBit(mac, 6)
    else if j < 24 then MacBit(mac, j)
    else if j < 40 then j != 39
    else MacBit(mac, j - 16)
  }

  lemma FlipBits(b: bv8, j: nat)
    requires j < 8
    ensures BitOf(b ^ 0x02, j) <==> if j == 6 then !BitOf(b, 6) else BitOf(b, j)
  {
  }

  lemma FillerBits(j: nat)
    requires j < 8
    ensures BitOf(0xff, j) && (BitOf(0xfe, j) <==> j != 7)
  {
  }

  lemma MacBitAt(mac: Mac, b: nat, j: nat)
    requires b < 6 && j < 8
    ensures MacBit(mac, 8 * b + j) <==> BitOf(mac[b], j)
  {
    hide BitOf;
    assert (8 * b + j) / 8 == b && (8 * b + j) % 8 == j;
  }

  lemma MacHostByte(mac: Mac, i: nat, j: nat)
    requires 8 <= i < 16 && j < 8
    ensures BitOf(MacHostOctets(mac)[i], j) <==> InterfaceBit(mac, 8 * (i - 8) + j)
  {
    hide BitOf, MacBit;
    if i == 8 {
      FlipBits(mac[0], j);
      MacBitAt(mac, 0, j);
      MacBitAt(mac, 0, 6);
    } else if i < 11 {
      MacBitAt(mac, i - 8, j);
    } else if i < 13 {
      FillerBits(j);
    } else {
      MacBitAt(mac, i - 10, j);
    }
  }

  lemma MacHostBits(mac: Mac, k: nat)
    requires k < 128
    ensures Bit(MacHostOctets(mac), k) <==> k >= 64 && InterfaceBit(mac, k - 64)
  {
    var i, j := k / 8, k % 8;
    if i < 8 {
      assert MacHostOctets(mac)[i] == 0;
      ZeroBits(j);
    } else {
      MacHostByte(mac, i, j);
      assert 8 * (i - 8) + j == k - 64;
      hide BitOf, InterfaceBit, MacHostOctets;
    }
  }

  /** Different MACs never share a host ID. */
  lemma MacHostInjective(a: Mac, b: Mac)
    requires MacHostOctets(a) == MacHostOctets(b)
    ensures a == b
  {
    var x, y := MacHostOctets(a), MacHostOctets(b);
    assert x[8] == y[8] && x[9] == y[9] && x[10] == y[10] && x[13] == y[13] && x[14] == y[14] && x[15] == y[15];
    XorInjective(a[0], b[0]);
  }

  lemma XorInjective(a: bv8, b: bv8)
    requires a ^ 0x02 == b ^ 0x02
    ensures a == b
  {
  }

  // ---------------------------------------------------------------------------
  // Derive

  datatype Derivation = Preserve | Literal(literal: Octets) | MAC(mac: Mac)

  datatype Kind = LiteralPrefixTooLong | MACPrefixTooLong | MACPrefixTooShort

  datatype Outcome =
    | Target(addr: Octets)
    | Incompatible(kind: Kind, bound: nat)

  function Derive(e: Entry, d: Derivation): Outcome
    requires ValidEntry(e)
  {
    match d
    case Preserve => Target(e.addr)
    case Literal(literal) =>
      var bound := MaxPrefixLenFrom(literal, 0);
      if e.prefixLen > bound then Incompatible(LiteralPrefixTooLong, bound) else Target(Combined(e, literal))
    case MAC(mac) =>
      if e.prefixLen > 64 then Incompatible(MACPrefixTooLong, 64)
      else if e.prefixLen < 64 then Incompatible(MACPrefixTooShort, 64)
      else Target(Combined(e, MacHostOctets(mac)))
  }

  /** The derivation fits the prefix: its host bits lie below it, and a MAC fills them all. */
  predicate Fits(e: Entry, d: Derivation) {
    match d
    case Preserve => true
    case Literal(literal) => ClearUpTo(literal, e.prefixLen)
    case MAC(_) => e.prefixLen == 64
  }

  /** The host bit the derivation asks for. */
  predicate HostBit(e: Entry, d: Derivation, k: nat)
    requires k < 128
  {
    match d
    case Preserve => Bit(e.addr, k)
    case Literal(literal) => Bit(literal, k)
    case MAC(mac) => k >= 64 && InterfaceBit(mac, k - 64)
  }

  /** t has the entry's prefix and the derivation's host bits. */
  ghost predicate Derived(e: Entry, d: Derivation, t: Octets) {
    forall k :: 0 <= k < 128 ==> (Bit(t, k) <==> if k < e.prefixLen then Bit(e.addr, k) else HostBit(e, d, k))
  }

  lemma CombinedDerived(e: Entry, d: Derivation, host: Octets)
    requires e.prefixLen <= 128 && !d.Preserve? && ClearUpTo(host, e.prefixLen)
    requires forall k :: 0 <= k < 128 ==> Bit(host, k) == HostBit(e, d, k)
    ensures Derived(e, d, Combined(e, host))
  {
    hide Bit, HostBit, Combined;
    forall k | 0 <= k < 128
      ensures Bit(Combined(e, host), k) <==> if k < e.prefixLen then Bit(e.addr, k) else HostBit(e, d, k)
    {
      CombinedBits(e, host, k);
    }
  }

  lemma MacHostClear(mac: Mac)
    ensures ClearUpTo(MacHostOctets(mac), 64)
    ensures forall k :: 0 <= k < 128 ==> (Bit(MacHostOctets(mac), k) <==> k >= 64 && InterfaceBit(mac, k - 64))
  {
    hide Bit, InterfaceBit, MacHostOctets;
    forall k | 0 <= k < 128 ensures Bit(MacHostOctets(mac), k) <==> k >= 64 && InterfaceBit(mac, k - 64) {
      MacHostBits(mac, k);
    }
  }

  lemma DerivedUnique(e: Entry, d: Derivation, s: Octets, t: Octets)
    requires Derived(e, d, s) && Derived(e, d, t)
    ensures s == t
  {
    hide Bit, HostBit;
    OctetsByBits(s, t);
  }

  /** Derive gives the one address with the entry's prefix and the derivation's host bits, exactly when it fits. */
  lemma DeriveCorrect(e: Entry, d: Derivation, t: Octets)
    requires ValidEntry(e)
    ensures Derive(e, d) == Target(t) <==> Fits(e, d) && Derived(e, d, t)
    ensures Derive(e, d).Incompatible? <==> !Fits(e, d)
  {
    hide Bit, Combined, MacHostOctets, InterfaceBit, MaxPrefixLenFrom, ClearUpTo, Mapped;
    match d
    case Preserve =>
      assert Derived(e, d, e.addr);
      if Derived(e, d, t) { DerivedUnique(e, d, e.addr, t); }
    case Literal(literal) =>
      LiteralBoundTight(literal, e.prefixLen);
      if Fits(e, d) {
        CombinedDerived(e, d, literal);
        if Derived(e, d, t) { DerivedUnique(e, d, Combined(e, literal), t); }
      }
    case MAC(mac) =>
      if Fits(e, d) {
        MacHostClear(mac);
        CombinedDerived(e, d, MacHostOctets(mac));
        if Derived(e, d, t) { DerivedUnique(e, d, Combined(e, MacHostOctets(mac)), t); }
      }
  }

  /** A reported bound is what the prefix length has to meet. */
  lemma IncompatibleBound(e: Entry, d: Derivation, n: nat)
    requires ValidEntry(e) && Derive(e, d).Incompatible? && n <= 128
    ensures var problem := Derive(e, d);
      match problem.kind {
        case LiteralPrefixTooLong => e.prefixLen > problem.bound && (Fits(Entry(e.addr, n), d) <==> n <= problem.bound)
        case MACPrefixTooLong => e.prefixLen > problem.bound && (Fits(Entry(e.addr, n), d) <==> n == problem.bound)
        case MACPrefixTooShort => e.prefixLen < problem.bound && (Fits(Entry(e.addr, n), d) <==> n == problem.bound)
      }
  {
    if d.Literal? { LiteralBoundTight(d.literal, n); }
    hide MaxPrefixLenFrom, ClearUpTo;
  }
}
