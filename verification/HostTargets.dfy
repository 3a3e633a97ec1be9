/** Which derived targets are canonical addresses: the link from host-ID derivation to what SetIPs is given. */
module HostTargets {
  import opened Sorting
  import opened Addresses
  import opened HostBits
  import opened HostDomains
  import Reconcile

  // ---------------------------------------------------------------------------
  // The IPv4-mapped block ::ffff:0:0/96, bit by bit

  const MAPPED_PREFIX: Octets := [0, 0, 0, 0, 0, 0, 0, 0, 0, 0, 0xFF, 0xFF, 0, 0, 0, 0]

  /** s and t have the same bits from lo to hi. */
  predicate Agree(s: Octets, t: Octets, lo: nat, hi: nat) {
    forall k :: lo <= k < hi && k < 128 ==> Bit(s, k) == Bit(t, k)
  }

  lemma MappedBits(s: Octets)
    ensures Mapped(s) <==> Agree(s, MAPPED_PREFIX, 0, 96)
  {
    if Mapped(s) {
      forall k | 0 <= k < 96 ensures Bit(s, k) == Bit(MAPPED_PREFIX, k) { SameByte(s, k / 8); }
    }
    if Agree(s, MAPPED_PREFIX, 0, 96) {
      forall i | 0 <= i < 12 ensures s[i] == MAPPED_PREFIX[i] { AgreeByte(s, MAPPED_PREFIX, i); }
    }
  }

  lemma SameByte(s: Octets, i: nat)
    requires Mapped(s) && i < 12
    ensures s[i] == MAPPED_PREFIX[i]
  {
  }

  lemma AgreeByte(s: Octets, t: Octets, i: nat)
    requires i < 16 && Agree(s, t, 8 * i, 8 * i + 8)
    ensures s[i] == t[i]
  {
    forall j | 0 <= j < 8 ensures BitOf(s[i], j) == BitOf(t[i], j) {
      assert (8 * i + j) / 8 == i && (8 * i + j) % 8 == j;
      assert Bit(s, 8 * i + j) == Bit(t, 8 * i + j);
    }
    ByteByBits(s[i], t[i]);
  }

  /** Bits 64 to 95 of a MAC's host ID are those of the block exactly for the addresses 02:00:FF:xx:xx:xx. */
  predicate MappedMac(mac: Mac) {
    mac[0] == 0x02 && mac[1] == 0 && mac[2] == 0xFF
  }

  lemma MappedMacBits(mac: Mac)
    ensures Agree(MacHostOctets(mac), MAPPED_PREFIX, 64, 96) <==> MappedMac(mac)
  {
    var host := MacHostOctets(mac);
    assert (mac[0] ^ 0x02 == 0) == (mac[0] == 0x02);
    if Agree(host, MAPPED_PREFIX, 64, 96) {
      AgreeByte(host, MAPPED_PREFIX, 8);
      AgreeByte(host, MAPPED_PREFIX, 9);
      AgreeByte(host, MAPPED_PREFIX, 10);
    }
    if MappedMac(mac) {
      forall k | 64 <= k < 96 ensures Bit(host, k) == Bit(MAPPED_PREFIX, k) {
        assert host[8] == 0 && host[9] == 0 && host[10] == 0xFF && host[11] == 0xFF;
        assert host[k / 8] == MAPPED_PREFIX[k / 8];
      }
    }
  }

  // ---------------------------------------------------------------------------
  // When a derivation leads into the block

  /** The observed prefix lies around the block, and the host bits select it. */
  predicate LeadsToMapped(e: Entry, d: Derivation) {
    && e.prefixLen < 96 && Agree(e.addr, MAPPED_PREFIX, 0, e.prefixLen)
    && match d
       case Preserve => false
       case Literal(literal) => Agree(literal, MAPPED_PREFIX, e.prefixLen, 96)
       case MAC(mac) => MappedMac(mac)
  }

  /** A derived target is IPv4-mapped exactly when its entry and host ID together lead there. */
  lemma TargetMapped(e: Entry, d: Derivation, t: Octets)
    requires ValidEntry(e) && Derive(e, d) == Target(t)
    ensures Mapped(t) <==> LeadsToMapped(e, d)
  {
    DeriveCorrect(e, d, t);
    MappedBits(t);
    MappedBits(e.addr);
    hide Bit, Mapped, Derive, InterfaceBit;
    match d
    case Preserve => assert t == e.addr by { DerivedUnique(e, d, e.addr, t); }
    case Literal(literal) => DerivedSplit(e, d, t, literal);
    case MAC(mac) =>
      MacHostClear(mac);
      MappedMacBits(mac);
      DerivedSplit(e, d, t, MacHostOctets(mac));
  }

  /** Below its length the target is the observed prefix, from there on it is the host ID. */
  lemma DerivedSplit(e: Entry, d: Derivation, t: Octets, host: Octets)
    requires ValidEntry(e) && Derived(e, d, t)
    requires forall k :: e.prefixLen <= k < 128 ==> Bit(host, k) == HostBit(e, d, k)
    ensures Agree(t, MAPPED_PREFIX, 0, 96) <==>
      e.prefixLen < 96 && Agree(e.addr, MAPPED_PREFIX, 0, e.prefixLen) && Agree(host, MAPPED_PREFIX, e.prefixLen, 96)
  {
    MappedBits(e.addr);
    hide Bit, HostBit, Mapped;
    if Agree(t, MAPPED_PREFIX, 0, 96) {
      forall k | 0 <= k < e.prefixLen && k < 96 ensures Bit(e.addr, k) == Bit(MAPPED_PREFIX, k) {
        assert Bit(t, k) == Bit(MAPPED_PREFIX, k);
      }
    }
  }

  /** A prefix with a set bit among its first 80, as every global unicast prefix has, never leads there. */
  lemma OrdinaryPrefix(e: Entry, d: Derivation, k: nat)
    requires ValidEntry(e) && k < e.prefixLen && k < 80 && Bit(e.addr, k)
    ensures !LeadsToMapped(e, d)
  {
    assert MAPPED_PREFIX[k / 8] == 0;
    ZeroBits(k % 8);
    assert !Bit(MAPPED_PREFIX, k);
    hide Bit;
  }

  /** Entry ::ff00:0:1/88 and host ID ::ff:0:2, both accepted, give ::ffff:0:2. */
  lemma MappedTarget() returns (e: Entry, d: Derivation, t: Octets)
    ensures e == Entry([0, 0, 0, 0, 0, 0, 0, 0, 0, 0, 0xFF, 0, 0, 0, 0, 1], 88)
    ensures d == Literal([0, 0, 0, 0, 0, 0, 0, 0, 0, 0, 0, 0xFF, 0, 0, 0, 2])
    ensures ValidEntry(e) && Derive(e, d) == Target(t) && Mapped(t)
  {
    var literal: Octets := [0, 0, 0, 0, 0, 0, 0, 0, 0, 0, 0, 0xFF, 0, 0, 0, 2];
    e, d := Entry([0, 0, 0, 0, 0, 0, 0, 0, 0, 0, 0xFF, 0, 0, 0, 0, 1], 88), Literal(literal);
    t := Combined(e, literal);
    FirstSetAt88(literal);
    assert Derive(e, d) == Target(t);
    SameBytesAgree(e.addr, MAPPED_PREFIX, 0, 11);
    SameBytesAgree(literal, MAPPED_PREFIX, 11, 12);
    TargetMapped(e, d, t);
  }

  lemma SameBytesAgree(s: Octets, t: Octets, lo: nat, hi: nat)
    requires lo <= hi <= 16 && s[lo..hi] == t[lo..hi]
    ensures Agree(s, t, 8 * lo, 8 * hi)
  {
    forall k | 8 * lo <= k < 8 * hi ensures Bit(s, k) == Bit(t, k) {
      assert s[lo..hi][k / 8 - lo] == t[lo..hi][k / 8 - lo];
    }
  }

  lemma FirstSetAt88(s: Octets)
    requires (forall i :: 0 <= i < 11 ==> s[i] == 0) && s[11] == 0xFF
    ensures MaxPrefixLenFrom(s, 0) == 88
  {
    FirstSetBit(s, 0);
    assert Bit(s, 88) by { assert s[88 / 8] == 0xFF; }
    forall k | 0 <= k < 88 ensures !Bit(s, k) { ZeroBits(k % 8); }
  }

  // ---------------------------------------------------------------------------
  // From bytes to addresses

  /** The number the bytes spell, the most significant first. */
  function Value(s: seq<bv8>): nat {
    if |s| == 0 then 0 else Value(s[..|s| - 1]) * 256 + s[|s| - 1] as nat
  }

  function Pow256(n: nat): nat {
    if n == 0 then 1 else 256 * Pow256(n - 1)
  }

  lemma {:induction false} ValueBound(s: seq<bv8>)
    ensures Value(s) < Pow256(|s|)
  {
    if |s| > 0 { ValueBound(s[..|s| - 1]); }
  }

  lemma {:induction false} ValueInjective(s: seq<bv8>, t: seq<bv8>)
    requires |s| == |t| && Value(s) == Value(t)
    ensures s == t
  {
    if |s| > 0 {
      var a, b := s[|s| - 1], t[|t| - 1];
      LastDigit(Value(s[..|s| - 1]), a, Value(t[..|t| - 1]), b);
      ValueInjective(s[..|s| - 1], t[..|t| - 1]);
      assert s == s[..|s| - 1] + [a] && t == t[..|t| - 1] + [b];
    }
  }

  lemma LastDigit(x: nat, a: bv8, y: nat, b: bv8)
    requires x * 256 + a as nat == y * 256 + b as nat
    ensures x == y && a == b
  {
    assert x == y;
    assert a as nat == b as nat;
    assert a as nat as bv8 == b as nat as bv8;
  }

  lemma {:induction false} ValueSplit(s: seq<bv8>, t: seq<bv8>)
    ensures Value(s + t) == Value(s) * Pow256(|t|) + Value(t)
  {
    if |t| == 0 {
      assert s + t == s;
    } else {
      var init, last := t[..|t| - 1], t[|t| - 1];
      ValueSplit(s, init);
      assert (s + t)[..|s + t| - 1] == s + init;
      Distribute(Value(s), Pow256(|init|), Value(init), last as nat);
    }
  }

  lemma Distribute(a: nat, p: nat, b: nat, c: nat)
    ensures (a * p + b) * 256 + c == a * (256 * p) + (b * 256 + c)
  {
  }

  lemma {:induction false} ZeroValue(n: nat)
    ensures Value(seq(n, _ => 0 as bv8)) == 0
  {
    if n > 0 {
      ZeroValue(n - 1);
      assert seq(n, _ => 0 as bv8)[..n - 1] == seq(n - 1, _ => 0 as bv8);
    }
  }

  lemma Powers()
    ensures Pow256(4) == 0x1_0000_0000 && Pow256(16) == 0x1_0000_0000_0000_0000_0000_0000_0000_0000
  {
    assert Pow256(4) == 0x1_0000_0000;
    assert Pow256(8) == 0x1_0000_0000_0000_0000;
    assert Pow256(12) == 0x1_0000_0000_0000_0000_0000_0000;
  }

  /** `netip.AddrFrom16`. */
  function ToAddr(s: Octets): Addr {
    ValueBound(s);
    Powers();
    V6(Value(s), "")
  }

  const FFFF: seq<bv8> := [0, 0, 0, 0, 0, 0, 0, 0, 0, 0, 0xFF, 0xFF]

  lemma FFFFValue()
    ensures Value(FFFF) == 0xffff
  {
    var zeros := seq(10, _ => 0 as bv8);
    ZeroValue(10);
    ValueSplit(zeros, [0xFF, 0xFF]);
    assert FFFF == zeros + [0xFF, 0xFF];
    assert [0xFF as bv8, 0xFF][..1] == [0xFF] && Value([0xFF as bv8]) == 0xFF;
  }

  lemma MappedAddr(s: Octets)
    ensures Is4In6(ToAddr(s)) <==> Mapped(s)
  {
    var high, low := s[..12], s[12..];
    assert s == high + low;
    ValueSplit(high, low);
    ValueBound(low);
    Powers();
    assert Value(s) / 0x1_0000_0000 == Value(high);
    FFFFValue();
    if Value(high) == 0xffff { ValueInjective(high, FFFF); }
    assert Mapped(s) <==> high == FFFF;
  }

  lemma ToAddrInjective(s: Octets, t: Octets)
    requires ToAddr(s) == ToAddr(t)
    ensures s == t
  {
    ValueInjective(s, t);
  }

  function Addrs(list: seq<Octets>): (r: seq<Addr>)
    ensures |r| == |list|
  {
    seq(|list|, i requires 0 <= i < |list| => ToAddr(list[i]))
  }

  lemma AddrsAreTargets(list: seq<Octets>)
    requires Distinct(list)
    ensures Reconcile.TargetSet(Addrs(list)) <==> forall t :: t in list ==> !Mapped(t)
  {
    hide ToAddr, Mapped;
    var rs := Addrs(list);
    forall i, j | 0 <= i < j < |rs| ensures rs[i] != rs[j] {
      if rs[i] == rs[j] { ToAddrInjective(list[i], list[j]); }
    }
    forall i | 0 <= i < |rs| ensures Canonical(rs[i]) <==> !Mapped(list[i]) { CanonicalIff(list[i]); }
    if Reconcile.TargetSet(rs) {
      forall t | t in list ensures !Mapped(t) {
        var i :| 0 <= i < |list| && list[i] == t;
        assert rs[i] in rs;
      }
    }
  }

  lemma CanonicalIff(s: Octets)
    ensures Canonical(ToAddr(s)) <==> !Mapped(s)
  {
    MappedAddr(s);
  }

  /** A domain's derived targets are what SetIPs may be given exactly when none of its derivations leads to the
      block. */
  lemma DerivedTargetSet(list: seq<Octets>, entries: seq<Entry>, ders: seq<Derivation>)
    requires TargetList(list, entries, ders)
    ensures Reconcile.TargetSet(Addrs(list)) <==>
      forall e, d, t :: DerivesTo(e, d, entries, ders, t) ==> !LeadsToMapped(e, d)
  {
    hide OctetsLe, Derive, ValidEntry, Mapped, LeadsToMapped, Reconcile.TargetSet;
    AddrsAreTargets(list);
    forall e, d, t | DerivesTo(e, d, entries, ders, t) ensures Mapped(t) <==> LeadsToMapped(e, d) {
      TargetMapped(e, d, t);
    }
    if t :| t in list && Mapped(t) {
      var e, d :| DerivesTo(e, d, entries, ders, t);
    }
  }
}
