/** Host-ID derivation for every domain: all targets, or every problem in groups. */
module HostDomains {
  import opened Domains
  import opened Sorting
  import opened HostBits

  // ---------------------------------------------------------------------------
  // Orders

  /** `bytes.Compare`, and `netip.Addr.Compare` on unzoned IPv6 addresses. */
  predicate BytesLe(a: seq<bv8>, b: seq<bv8>) {
    if |a| == 0 then true
    else if |b| == 0 then false
    else if a[0] != b[0] then a[0] < b[0]
    else BytesLe(a[1..], b[1..])
  }

  lemma {:induction false} BytesTotal(a: seq<bv8>, b: seq<bv8>)
    ensures BytesLe(a, b) || BytesLe(b, a)
  {
    if |a| > 0 && |b| > 0 { BytesTotal(a[1..], b[1..]); }
  }

  lemma {:induction false} BytesAntisymmetric(a: seq<bv8>, b: seq<bv8>)
    requires BytesLe(a, b) && BytesLe(b, a)
    ensures a == b
  {
    if |a| > 0 && |b| > 0 {
      BytesAntisymmetric(a[1..], b[1..]);
      assert a == [a[0]] + a[1..] && b == [b[0]] + b[1..];
    }
  }

  lemma {:induction false} BytesTransitive(a: seq<bv8>, b: seq<bv8>, c: seq<bv8>)
    requires BytesLe(a, b) && BytesLe(b, c)
    ensures BytesLe(a, c)
  {
    if |a| > 0 && |b| > 0 && |c| > 0 && a[0] == b[0] && b[0] == c[0] { BytesTransitive(a[1..], b[1..], c[1..]); }
  }

  predicate OctetsLe(a: Octets, b: Octets) { BytesLe(a, b) }

  function Rank(d: Derivation): nat {
    match d
    case Preserve => 0
    case Literal(_) => 1
    case MAC(_) => 2
  }

  /** Compare on derivations: by kind, then by bytes. */
  predicate DerivationLe(a: Derivation, b: Derivation) {
    if Rank(a) != Rank(b) then Rank(a) < Rank(b)
    else
      match a
      case Preserve => true
      case Literal(literal) => BytesLe(literal, b.literal)
      case MAC(mac) => BytesLe(mac, b.mac)
  }

  function Network(e: Entry): Octets { KeepTop(e.addr, e.prefixLen) }

  /** `netip.Prefix.Compare`: by masked address, then length, then unmasked address. */
  predicate EntryLe(a: Entry, b: Entry) {
    if Network(a) != Network(b) then BytesLe(Network(a), Network(b))
    else if a.prefixLen != b.prefixLen then a.prefixLen < b.prefixLen
    else BytesLe(a.addr, b.addr)
  }

  /** CompareDomain: by ASCII name. */
  predicate DomainLe(a: Domain, b: Domain) { StringLe(DnsName(a), DnsName(b)) }

  lemma OctetsOrdering()
    ensures Ordering(OctetsLe)
  {
    forall a: Octets, b: Octets ensures OctetsLe(a, b) || OctetsLe(b, a) { BytesTotal(a, b); }
    forall a: Octets, b: Octets, c: Octets | OctetsLe(a, b) && OctetsLe(b, c)
      ensures OctetsLe(a, c) { BytesTransitive(a, b, c); }
  }

  lemma OctetsNoTies(s: seq<Octets>)
    ensures NoTies(OctetsLe, s)
  {
    forall a, b | a in s && b in s && OctetsLe(a, b) && OctetsLe(b, a) ensures a == b { BytesAntisymmetric(a, b); }
  }

  lemma DerivationTotal(a: Derivation, b: Derivation)
    ensures DerivationLe(a, b) || DerivationLe(b, a)
  {
    if a.Literal? && b.Literal? { BytesTotal(a.literal, b.literal); }
    if a.MAC? && b.MAC? { BytesTotal(a.mac, b.mac); }
  }

  lemma DerivationTransitive(a: Derivation, b: Derivation, c: Derivation)
    requires DerivationLe(a, b) && DerivationLe(b, c)
    ensures DerivationLe(a, c)
  {
    if a.Literal? && b.Literal? && c.Literal? { BytesTransitive(a.literal, b.literal, c.literal); }
    if a.MAC? && b.MAC? && c.MAC? { BytesTransitive(a.mac, b.mac, c.mac); }
  }

  lemma DerivationAntisymmetric(a: Derivation, b: Derivation)
    requires DerivationLe(a, b) && DerivationLe(b, a)
    ensures a == b
  {
    if a.Literal? && b.Literal? { BytesAntisymmetric(a.literal, b.literal); }
    if a.MAC? && b.MAC? { BytesAntisymmetric(a.mac, b.mac); }
  }

  lemma DerivationOrdering(s: seq<Derivation>)
    ensures Ordering(DerivationLe) && NoTies(DerivationLe, s)
  {
    hide DerivationLe;
    forall a, b ensures DerivationLe(a, b) || DerivationLe(b, a) { DerivationTotal(a, b); }
    forall a, b, c | DerivationLe(a, b) && DerivationLe(b, c)
      ensures DerivationLe(a, c) { DerivationTransitive(a, b, c); }
    forall a, b | a in s && b in s && DerivationLe(a, b) && DerivationLe(b, a)
      ensures a == b { DerivationAntisymmetric(a, b); }
  }

  lemma EntryTotal(a: Entry, b: Entry)
    ensures EntryLe(a, b) || EntryLe(b, a)
  {
    hide KeepTop, BytesLe;
    BytesTotal(Network(a), Network(b));
    BytesTotal(a.addr, b.addr);
  }

  lemma EntryTransitive(a: Entry, b: Entry, c: Entry)
    requires EntryLe(a, b) && EntryLe(b, c)
    ensures EntryLe(a, c)
  {
    hide KeepTop, BytesLe, Network;
    var x, y, z := Network(a), Network(b), Network(c);
    if x != y && y != z {
      BytesTransitive(x, y, z);
      if x == z { BytesAntisymmetric(x, y); }
    }
    if x == y && y == z && a.prefixLen == b.prefixLen == c.prefixLen { BytesTransitive(a.addr, b.addr, c.addr); }
  }

  lemma EntryAntisymmetric(a: Entry, b: Entry)
    requires EntryLe(a, b) && EntryLe(b, a)
    ensures a == b
  {
    hide KeepTop, BytesLe;
    if Network(a) != Network(b) { BytesAntisymmetric(Network(a), Network(b)); }
    if Network(a) == Network(b) && a.prefixLen == b.prefixLen { BytesAntisymmetric(a.addr, b.addr); }
  }

  lemma EntryOrdering(s: seq<Entry>)
    ensures Ordering(EntryLe) && NoTies(EntryLe, s)
  {
    hide EntryLe;
    forall a, b ensures EntryLe(a, b) || EntryLe(b, a) { EntryTotal(a, b); }
    forall a, b, c | EntryLe(a, b) && EntryLe(b, c) ensures EntryLe(a, c) { EntryTransitive(a, b, c); }
    forall a, b | a in s && b in s && EntryLe(a, b) && EntryLe(b, a) ensures a == b { EntryAntisymmetric(a, b); }
  }

  lemma DomainOrdering()
    ensures Ordering(DomainLe)
  {
    forall a, b ensures DomainLe(a, b) || DomainLe(b, a) { StringTotal(DnsName(a), DnsName(b)); }
    forall a, b, c | DomainLe(a, b) && DomainLe(b, c) ensures DomainLe(a, c) {
      StringTransitive(DnsName(a), DnsName(b), DnsName(c));
    }
  }

  // ---------------------------------------------------------------------------
  // What is derived

  datatype Triple = Triple(domain: Domain, entry: Entry, derivation: Derivation)

  type Policies = map<Domain, seq<Derivation>>

  predicate Asked(t: Triple, domains: seq<Domain>, policies: Policies, entries: seq<Entry>) {
    t.domain in domains && t.entry in entries && t.domain in policies && t.derivation in policies[t.domain]
  }

  datatype Key = Key(kind: Kind, bound: nat)

  /** The derivation fails with the key's kind and bound. */
  predicate Blames(t: Triple, key: Key) {
    ValidEntry(t.entry) && Derive(t.entry, t.derivation) == Incompatible(key.kind, key.bound)
  }

  predicate AllValid(ts: seq<Triple>) {
    forall i :: 0 <= i < |ts| ==> ValidEntry(ts[i].entry)
  }

  function EntryTriples(d: Domain, e: Entry, ders: seq<Derivation>): seq<Triple> {
    if |ders| == 0 then [] else EntryTriples(d, e, ders[..|ders| - 1]) + [Triple(d, e, ders[|ders| - 1])]
  }

  function DomainTriples(d: Domain, entries: seq<Entry>, ders: seq<Derivation>): seq<Triple> {
    if |entries| == 0 then []
    else DomainTriples(d, entries[..|entries| - 1], ders) + EntryTriples(d, entries[|entries| - 1], ders)
  }

  /** Every triple, in the order of the loops. */
  function AllTriples(domains: seq<Domain>, policies: Policies, entries: seq<Entry>): seq<Triple>
    requires forall d :: d in domains ==> d in policies
  {
    if |domains| == 0 then []
    else
      var d := domains[|domains| - 1];
      AllTriples(domains[..|domains| - 1], policies, entries) + DomainTriples(d, entries, policies[d])
  }

  lemma {:induction false} EntryTriplesAre(d: Domain, e: Entry, ders: seq<Derivation>, t: Triple)
    ensures t in EntryTriples(d, e, ders) <==> t.domain == d && t.entry == e && t.derivation in ders
  {
    if |ders| > 0 {
      EntryTriplesAre(d, e, ders[..|ders| - 1], t);
      assert ders == ders[..|ders| - 1] + [ders[|ders| - 1]];
    }
  }

  lemma {:induction false} DomainTriplesAre(d: Domain, entries: seq<Entry>, ders: seq<Derivation>, t: Triple)
    ensures t in DomainTriples(d, entries, ders) <==> t.domain == d && t.entry in entries && t.derivation in ders
  {
    hide EntryTriples;
    if |entries| > 0 {
      var n, last := entries[..|entries| - 1], entries[|entries| - 1];
      DomainTriplesAre(d, n, ders, t);
      EntryTriplesAre(d, last, ders, t);
      assert entries == n + [last];
      assert t.entry in entries <==> t.entry in n || t.entry == last;
    }
  }

  lemma {:induction false} AllTriplesAre(domains: seq<Domain>, policies: Policies, entries: seq<Entry>, t: Triple)
    requires forall d :: d in domains ==> d in policies
    ensures t in AllTriples(domains, policies, entries) <==> Asked(t, domains, policies, entries)
  {
    if |domains| > 0 {
      var last := domains[|domains| - 1];
      AllTriplesAre(domains[..|domains| - 1], policies, entries, t);
      DomainTriplesAre(last, entries, policies[last], t);
      assert domains == domains[..|domains| - 1] + [last];
    }
  }

  // ---------------------------------------------------------------------------
  // Collecting targets and problems

  /** The addresses derived, in order. */
  function AddrsOf(ts: seq<Triple>): seq<Octets>
    requires AllValid(ts)
  {
    if |ts| == 0 then []
    else
      var before, last := AddrsOf(ts[..|ts| - 1]), ts[|ts| - 1];
      match Derive(last.entry, last.derivation)
      case Target(addr) => before + [addr]
      case Incompatible(_, _) => before
  }

  datatype Builder = Builder(domains: set<Domain>, derivations: seq<Derivation>, observed: seq<Entry>)

  function Record(builders: map<Key, Builder>, t: Triple): map<Key, Builder>
    requires ValidEntry(t.entry)
  {
    match Derive(t.entry, t.derivation)
    case Target(_) => builders
    case Incompatible(kind, bound) =>
      var key := Key(kind, bound);
      var b := if key in builders then builders[key] else Builder({}, [], []);
      builders[key := Builder(b.domains + {t.domain}, b.derivations + [t.derivation], b.observed + [t.entry])]
  }

  function RecordAll(ts: seq<Triple>): map<Key, Builder>
    requires AllValid(ts)
  {
    if |ts| == 0 then map[] else Record(RecordAll(ts[..|ts| - 1]), ts[|ts| - 1])
  }

  /** The triples that fail with a key. */
  function Blamed(ts: seq<Triple>, key: Key): seq<Triple> {
    if |ts| == 0 then []
    else
      var before, last := Blamed(ts[..|ts| - 1], key), ts[|ts| - 1];
      if Blames(last, key) then before + [last] else before
  }

  function DerivationsOf(ts: seq<Triple>): seq<Derivation> { seq(|ts|, i requires 0 <= i < |ts| => ts[i].derivation) }

  function EntriesOf(ts: seq<Triple>): seq<Entry> { seq(|ts|, i requires 0 <= i < |ts| => ts[i].entry) }

  function DomainsOf(ts: seq<Triple>): seq<Domain> { seq(|ts|, i requires 0 <= i < |ts| => ts[i].domain) }

  lemma {:induction false} BlamedAre(ts: seq<Triple>, key: Key, t: Triple)
    ensures t in Blamed(ts, key) <==> t in ts && Blames(t, key)
  {
    hide Blames;
    if |ts| > 0 {
      BlamedAre(ts[..|ts| - 1], key, t);
      assert ts == ts[..|ts| - 1] + [ts[|ts| - 1]];
    }
  }

  /** A key has a builder exactly when a triple fails with it, and the builder holds all such triples. */
  lemma {:induction false} RecordAllSpec(ts: seq<Triple>, key: Key)
    requires AllValid(ts)
    ensures key in RecordAll(ts) <==> Blamed(ts, key) != []
    ensures key in RecordAll(ts) ==>
              var b, blamed := RecordAll(ts)[key], Blamed(ts, key);
              && b.derivations == DerivationsOf(blamed) && b.observed == EntriesOf(blamed)
              && (forall d :: d in b.domains <==> d in DomainsOf(blamed))
  {
    hide Derive, ValidEntry;
    if |ts| > 0 {
      var n, last := ts[..|ts| - 1], ts[|ts| - 1];
      RecordAllSpec(n, key);
      if Blames(last, key) {
        assert DerivationsOf(Blamed(ts, key)) == DerivationsOf(Blamed(n, key)) + [last.derivation];
        assert EntriesOf(Blamed(ts, key)) == EntriesOf(Blamed(n, key)) + [last.entry];
        assert DomainsOf(Blamed(ts, key)) == DomainsOf(Blamed(n, key)) + [last.domain];
      }
    }
  }

  lemma {:induction false} AddrsOfAre(ts: seq<Triple>, a: Octets)
    requires AllValid(ts)
    ensures a in AddrsOf(ts) <==>
      exists t :: t in ts && ValidEntry(t.entry) && Derive(t.entry, t.derivation) == Target(a)
  {
    hide Derive, ValidEntry;
    if |ts| > 0 {
      AddrsOfAre(ts[..|ts| - 1], a);
      assert ts == ts[..|ts| - 1] + [ts[|ts| - 1]];
    }
  }

  // ---------------------------------------------------------------------------
  // The loops

  datatype ProblemGroup = ProblemGroup(
    kind: Kind, bound: nat, domains: seq<Domain>, derivations: seq<Derivation>, observed: seq<Entry>)

  datatype DerivedDomains = Targets(targets: map<Domain, seq<Octets>>) | Problems(groups: seq<ProblemGroup>)

  function KeyOf(g: ProblemGroup): Key { Key(g.kind, g.bound) }

  function KindRank(k: Kind): nat {
    match k
    case LiteralPrefixTooLong => 0
    case MACPrefixTooLong => 1
    case MACPrefixTooShort => 2
  }

  predicate GroupLe(a: ProblemGroup, b: ProblemGroup) {
    if a.kind != b.kind then KindRank(a.kind) <= KindRank(b.kind) else a.bound <= b.bound
  }

  predicate DistinctKeys(gs: seq<ProblemGroup>) {
    forall i, j :: 0 <= i < j < |gs| ==> KeyOf(gs[i]) != KeyOf(gs[j])
  }

  /** g lists exactly the members of the triples that fail with its key. */
  ghost predicate GroupOf(g: ProblemGroup, ts: seq<Triple>) {
    var blamed := Blamed(ts, KeyOf(g));
    && SortedSet(DomainLe, g.domains, DomainsOf(blamed))
    && SortedSet(DerivationLe, g.derivations, DerivationsOf(blamed))
    && SortedSet(EntryLe, g.observed, EntriesOf(blamed))
  }

  lemma RecordSnoc(ts: seq<Triple>, t: Triple)
    requires AllValid(ts) && ValidEntry(t.entry)
    ensures AllValid(ts + [t]) && RecordAll(ts + [t]) == Record(RecordAll(ts), t)
  {
    hide ValidEntry, Record;
    assert (ts + [t])[..|ts|] == ts;
  }

  lemma AddrsSnoc(ts: seq<Triple>, t: Triple)
    requires AllValid(ts) && ValidEntry(t.entry)
    ensures AllValid(ts + [t])
    ensures AddrsOf(ts + [t]) ==
      AddrsOf(ts) + match Derive(t.entry, t.derivation) { case Target(addr) => [addr] case _ => [] }
  {
    hide ValidEntry, Derive;
    assert (ts + [t])[..|ts|] == ts;
  }

  lemma EntrySnoc(d: Domain, e: Entry, ders: seq<Derivation>, k: nat)
    requires k < |ders|
    ensures EntryTriples(d, e, ders[..k + 1]) == EntryTriples(d, e, ders[..k]) + [Triple(d, e, ders[k])]
  {
    assert ders[..k + 1][..k] == ders[..k];
  }

  lemma DomainSnoc(d: Domain, entries: seq<Entry>, ders: seq<Derivation>, j: nat)
    requires j < |entries|
    ensures DomainTriples(d, entries[..j + 1], ders) ==
      DomainTriples(d, entries[..j], ders) + EntryTriples(d, entries[j], ders)
  {
    assert entries[..j + 1][..j] == entries[..j];
  }

  /** The innermost loop: one domain and entry. */
  method DeriveEntry(d: Domain, e: Entry, ders: seq<Derivation>, builders: map<Key, Builder>, addrs: seq<Octets>,
                     ghost before: seq<Triple>, ghost mine: seq<Triple>)
    returns (next: map<Key, Builder>, longer: seq<Octets>)
    requires ValidEntry(e) && AllValid(before) && AllValid(mine)
    requires builders == RecordAll(before + mine) && addrs == AddrsOf(mine)
    ensures AllValid(mine + EntryTriples(d, e, ders))
    ensures next == RecordAll(before + (mine + EntryTriples(d, e, ders)))
      && longer == AddrsOf(mine + EntryTriples(d, e, ders))
  {
    hide ValidEntry, Derive, RecordAll, AddrsOf;
    next, longer := builders, addrs;
    assert mine + EntryTriples(d, e, ders[..0]) == mine;
    for k := 0 to |ders|
      invariant AllValid(mine + EntryTriples(d, e, ders[..k]))
      invariant next == RecordAll(before + (mine + EntryTriples(d, e, ders[..k])))
      invariant longer == AddrsOf(mine + EntryTriples(d, e, ders[..k]))
    {
      ghost var done, t := mine + EntryTriples(d, e, ders[..k]), Triple(d, e, ders[k]);
      EntrySnoc(d, e, ders, k);
      assert mine + EntryTriples(d, e, ders[..k + 1]) == done + [t];
      assert before + (done + [t]) == (before + done) + [t];
      RecordSnoc(before + done, t);
      AddrsSnoc(done, t);
      match Derive(e, ders[k]) {
        case Target(addr) =>
          longer := longer + [addr];
        case Incompatible(kind, bound) =>
          var key := Key(kind, bound);
          var b := if key in next then next[key] else Builder({}, [], []);
          next := next[key := Builder(b.domains + {d}, b.derivations + [ders[k]], b.observed + [e])];
      }
    }
    assert ders[..|ders|] == ders;
  }

  /** One domain: its targets in strictly increasing order, and the problems recorded. */
  method DeriveDomain(d: Domain, entries: seq<Entry>, ders: seq<Derivation>, builders: map<Key, Builder>,
                      ghost before: seq<Triple>)
    returns (targets: seq<Octets>, next: map<Key, Builder>)
    requires (forall i :: 0 <= i < |entries| ==> ValidEntry(entries[i])) && AllValid(before)
      && builders == RecordAll(before)
    ensures AllValid(DomainTriples(d, entries, ders))
    ensures next == RecordAll(before + DomainTriples(d, entries, ders))
    ensures SortedSet(OctetsLe, targets, AddrsOf(DomainTriples(d, entries, ders)))
  {
    hide ValidEntry, Derive, RecordAll, AddrsOf, EntryTriples;
    next := builders;
    var addrs: seq<Octets> := [];
    assert before + [] == before;
    NoAddrs();
    for j := 0 to |entries|
      invariant AllValid(DomainTriples(d, entries[..j], ders))
      invariant next == RecordAll(before + DomainTriples(d, entries[..j], ders))
      invariant addrs == AddrsOf(DomainTriples(d, entries[..j], ders))
    {
      DomainSnoc(d, entries, ders, j);
      next, addrs := DeriveEntry(d, entries[j], ders, next, addrs, before, DomainTriples(d, entries[..j], ders));
    }
    assert entries[..|entries|] == entries;
    OctetsOrdering();
    OctetsNoTies(addrs);
    SortCompact(OctetsLe, addrs);
    targets := Compact(Sort(OctetsLe, addrs));
  }

  lemma NoAddrs()
    ensures AddrsOf([]) == []
  {
  }

  /** The domains of a builder, in the arbitrary order a map gives them. */
  method ListDomains(s: set<Domain>) returns (ds: seq<Domain>)
    ensures Distinct(ds) && forall d :: d in ds <==> d in s
  {
    ds := [];
    var remaining := s;
    while remaining != {}
      invariant remaining <= s && Distinct(ds)
      invariant forall d :: d in ds <==> d in s && d !in remaining
    {
      var d :| d in remaining;
      remaining := remaining - {d};
      ds := ds + [d];
    }
  }

  method BuildGroup(key: Key, b: Builder, ghost ts: seq<Triple>) returns (g: ProblemGroup)
    requires AllValid(ts) && key in RecordAll(ts) && b == RecordAll(ts)[key]
    ensures KeyOf(g) == key && GroupOf(g, ts)
  {
    hide RecordAll, DomainLe, DerivationLe, EntryLe, Sort, Compact, SortedBy, Ordering, NoTies;
    RecordAllSpec(ts, key);
    var ds := ListDomains(b.domains);
    DomainsSort(ds);
    DerivationOrdering(b.derivations);
    SortCompact(DerivationLe, b.derivations);
    EntryOrdering(b.observed);
    SortCompact(EntryLe, b.observed);
    g := ProblemGroup(key.kind, key.bound, Sort(DomainLe, ds), Compact(Sort(DerivationLe, b.derivations)),
                      Compact(Sort(EntryLe, b.observed)));
  }

  lemma DomainsSort(ds: seq<Domain>)
    requires Distinct(ds)
    ensures SortedSet(DomainLe, Sort(DomainLe, ds), ds)
  {
    DomainOrdering();
    SortSorts(DomainLe, ds);
    SortElements(DomainLe, ds);
    MultisetDistinct(ds, Sort(DomainLe, ds));
    hide Sort, DomainLe;
  }

  lemma GroupOrdering()
    ensures Ordering(GroupLe)
  {
  }

  lemma SortGroups(gs: seq<ProblemGroup>)
    requires DistinctKeys(gs)
    ensures var sorted := Sort(GroupLe, gs);
      SortedBy(GroupLe, sorted) && DistinctKeys(sorted) && forall g :: g in sorted <==> g in gs
  {
    GroupOrdering();
    SortSorts(GroupLe, gs);
    SortElements(GroupLe, gs);
    assert Distinct(gs);
    MultisetDistinct(gs, Sort(GroupLe, gs));
    var sorted := Sort(GroupLe, gs);
    hide Sort, GroupLe;
    forall i, j | 0 <= i < j < |sorted| ensures KeyOf(sorted[i]) != KeyOf(sorted[j]) {
      assert sorted[i] in sorted && sorted[j] in sorted;
      var k :| 0 <= k < |gs| && gs[k] == sorted[i];
      var l :| 0 <= l < |gs| && gs[l] == sorted[j];
      assert k != l;
    }
  }

  method BuildGroups(builders: map<Key, Builder>, ghost ts: seq<Triple>) returns (groups: seq<ProblemGroup>)
    requires AllValid(ts) && builders == RecordAll(ts)
    ensures SortedBy(GroupLe, groups) && DistinctKeys(groups)
    ensures forall g :: g in groups ==> KeyOf(g) in builders && GroupOf(g, ts)
    ensures forall key :: key in builders ==> exists g :: g in groups && KeyOf(g) == key
  {
    hide RecordAll, GroupOf, GroupLe;
    var gs: seq<ProblemGroup> := [];
    var remaining := builders.Keys;
    while remaining != {}
      invariant remaining <= builders.Keys && DistinctKeys(gs)
      invariant forall g :: g in gs ==> KeyOf(g) in builders && KeyOf(g) !in remaining && GroupOf(g, ts)
      invariant forall key :: key in builders && key !in remaining ==> exists g :: g in gs && KeyOf(g) == key
    {
      var key :| key in remaining;
      remaining := remaining - {key};
      var g := BuildGroup(key, builders[key], ts);
      ghost var was := gs;
      gs := gs + [g];
      assert forall x :: x in gs <==> x in was || x == g;
    }
    SortGroups(gs);
    groups := Sort(GroupLe, gs);
  }

  /** The targets of one domain: its addresses, strictly increasing. */
  ghost predicate TargetList(list: seq<Octets>, entries: seq<Entry>, ders: seq<Derivation>) {
    && SortedBy(OctetsLe, list) && Distinct(list)
    && forall a :: a in list <==> exists e, x :: DerivesTo(e, x, entries, ders, a)
  }

  predicate DerivesTo(e: Entry, x: Derivation, entries: seq<Entry>, ders: seq<Derivation>, a: Octets) {
    e in entries && x in ders && ValidEntry(e) && Derive(e, x) == Target(a)
  }

  lemma TargetsExact(list: seq<Octets>, d: Domain, entries: seq<Entry>, ders: seq<Derivation>)
    requires AllValid(DomainTriples(d, entries, ders))
    requires SortedSet(OctetsLe, list, AddrsOf(DomainTriples(d, entries, ders)))
    ensures TargetList(list, entries, ders)
  {
    hide Derive, ValidEntry, DomainTriples, AddrsOf, OctetsLe;
    var ts := DomainTriples(d, entries, ders);
    forall a ensures a in list <==> exists e, x :: DerivesTo(e, x, entries, ders, a) {
      AddrsOfAre(ts, a);
      if a in list {
        var t :| t in ts && ValidEntry(t.entry) && Derive(t.entry, t.derivation) == Target(a);
        DomainTriplesAre(d, entries, ders, t);
        assert DerivesTo(t.entry, t.derivation, entries, ders, a);
      }
      forall e, x | DerivesTo(e, x, entries, ders, a) ensures a in list {
        DomainTriplesAre(d, entries, ders, Triple(d, e, x));
      }
    }
  }

  /** g lists exactly the domains, derivations and entries of the asked triples that fail with its key. */
  ghost predicate GroupExact(g: ProblemGroup, domains: seq<Domain>, policies: Policies, entries: seq<Entry>) {
    && SortedBy(DomainLe, g.domains) && Distinct(g.domains)
    && SortedBy(DerivationLe, g.derivations) && Distinct(g.derivations)
    && SortedBy(EntryLe, g.observed) && Distinct(g.observed)
    && (forall d :: d in g.domains <==>
      exists t: Triple :: t.domain == d && Asked(t, domains, policies, entries) && Blames(t, KeyOf(g)))
    && (forall x :: x in g.derivations <==>
      exists t: Triple :: t.derivation == x && Asked(t, domains, policies, entries) && Blames(t, KeyOf(g)))
    && (forall e :: e in g.observed <==>
      exists t: Triple :: t.entry == e && Asked(t, domains, policies, entries) && Blames(t, KeyOf(g)))
  }

  lemma BlamedAsked(domains: seq<Domain>, policies: Policies, entries: seq<Entry>, key: Key, t: Triple)
    requires forall d :: d in domains ==> d in policies
    ensures t in Blamed(AllTriples(domains, policies, entries), key) <==>
      Asked(t, domains, policies, entries) && Blames(t, key)
  {
    BlamedAre(AllTriples(domains, policies, entries), key, t);
    AllTriplesAre(domains, policies, entries, t);
  }

  lemma GroupsExact(g: ProblemGroup, domains: seq<Domain>, policies: Policies, entries: seq<Entry>)
    requires forall d :: d in domains ==> d in policies
    requires GroupOf(g, AllTriples(domains, policies, entries))
    ensures GroupExact(g, domains, policies, entries)
  {
    hide AllTriples, Blamed, Asked, Blames, SortedBy, Distinct, DomainLe, DerivationLe, EntryLe;
    var blamed := Blamed(AllTriples(domains, policies, entries), KeyOf(g));
    forall t: Triple ensures t in blamed <==> Asked(t, domains, policies, entries) && Blames(t, KeyOf(g)) {
      BlamedAsked(domains, policies, entries, KeyOf(g), t);
    }
    BlamedMembers(blamed);
  }

  lemma BlamedMembers(ts: seq<Triple>)
    ensures forall d :: d in DomainsOf(ts) <==> exists t :: t in ts && t.domain == d
    ensures forall x :: x in DerivationsOf(ts) <==> exists t :: t in ts && t.derivation == x
    ensures forall e :: e in EntriesOf(ts) <==> exists t :: t in ts && t.entry == e
  {
    forall t | t in ts ensures t.domain in DomainsOf(ts) && t.derivation in DerivationsOf(ts)
      && t.entry in EntriesOf(ts) {
      var i :| 0 <= i < |ts| && ts[i] == t;
      assert DomainsOf(ts)[i] == t.domain && DerivationsOf(ts)[i] == t.derivation && EntriesOf(ts)[i] == t.entry;
    }
  }

  /** Every domain's entry in the map is its target list. */
  ghost predicate TargetMap(targets: map<Domain, seq<Octets>>, domains: seq<Domain>, policies: Policies,
                            entries: seq<Entry>) {
    && (forall d :: d in targets <==> d in domains)
    && (forall d :: d in targets ==> d in policies && TargetList(targets[d], entries, policies[d]))
  }

  lemma TargetMapSnoc(targets: map<Domain, seq<Octets>>, list: seq<Octets>, domains: seq<Domain>, i: nat,
                      policies: Policies, entries: seq<Entry>)
    requires i < |domains| && domains[i] in policies && TargetMap(targets, domains[..i], policies, entries)
    requires TargetList(list, entries, policies[domains[i]])
    ensures TargetMap(targets[domains[i] := list], domains[..i + 1], policies, entries)
  {
    hide TargetList;
    assert domains[..i + 1] == domains[..i] + [domains[i]];
  }

  /** The loop over domains: all targets, and all problems. */
  method Collect(domains: seq<Domain>, policies: Policies, entries: seq<Entry>)
    returns (targets: map<Domain, seq<Octets>>, builders: map<Key, Builder>)
    requires forall d :: d in domains ==> d in policies
    requires forall i :: 0 <= i < |entries| ==> ValidEntry(entries[i])
    ensures TargetMap(targets, domains, policies, entries)
    ensures AllValid(AllTriples(domains, policies, entries))
      && builders == RecordAll(AllTriples(domains, policies, entries))
  {
    hide ValidEntry, RecordAll, DomainTriples, TargetList, SortedSet, AllTriples, AllValid;
    targets, builders := map[], map[];
    NoTriples(policies, entries);
    assert domains[..0] == [];
    NoRecords();
    for i := 0 to |domains|
      invariant AllValid(AllTriples(domains[..i], policies, entries))
      invariant builders == RecordAll(AllTriples(domains[..i], policies, entries))
      invariant TargetMap(targets, domains[..i], policies, entries)
    {
      var d := domains[i];
      ghost var before := AllTriples(domains[..i], policies, entries);
      var list, next := DeriveDomain(d, entries, policies[d], builders, before);
      TargetsExact(list, d, entries, policies[d]);
      TargetMapSnoc(targets, list, domains, i, policies, entries);
      AllSnoc(domains, policies, entries, i);
      ValidConcat(before, DomainTriples(d, entries, policies[d]));
      targets, builders := targets[d := list], next;
    }
    assert domains[..|domains|] == domains;
  }

  lemma NoTriples(policies: Policies, entries: seq<Entry>)
    ensures AllTriples([], policies, entries) == [] && AllValid([])
  {
  }

  lemma ValidConcat(a: seq<Triple>, b: seq<Triple>)
    requires AllValid(a) && AllValid(b)
    ensures AllValid(a + b)
  {
    hide ValidEntry;
  }

  /** Targets for all domains if nothing fails; otherwise every failure, grouped by kind and bound, and no targets. */
  method DeriveDomains(domains: seq<Domain>, policies: Policies, entries: seq<Entry>) returns (r: DerivedDomains)
    requires forall d :: d in domains ==> d in policies && |policies[d]| > 0
    requires forall i :: 0 <= i < |entries| ==> ValidEntry(entries[i])
    ensures r.Targets? <==> forall t: Triple, key :: Asked(t, domains, policies, entries) ==> !Blames(t, key)
    ensures r.Targets? ==> TargetMap(r.targets, domains, policies, entries)
    ensures r.Problems? ==>
      && SortedBy(GroupLe, r.groups) && DistinctKeys(r.groups)
      && (forall g :: g in r.groups ==> GroupExact(g, domains, policies, entries))
      && (forall t: Triple, key ::
        Asked(t, domains, policies, entries) && Blames(t, key) ==> exists g :: g in r.groups && KeyOf(g) == key)
  {
    hide ValidEntry, RecordAll, AllTriples, GroupLe, GroupOf, GroupExact, TargetMap, Asked, Blames, SortedBy,
         DistinctKeys;
    var targets, builders := Collect(domains, policies, entries);
    BuildersBlame(domains, policies, entries);
    forall t: Triple, key | Asked(t, domains, policies, entries) && Blames(t, key) ensures key in builders {
    }
    if |builders| == 0 {
      assert forall key :: key !in builders;
      return Targets(targets);
    }
    ghost var failing :| failing in builders;
    var groups := BuildGroups(builders, AllTriples(domains, policies, entries));
    forall g | g in groups ensures GroupExact(g, domains, policies, entries) {
      GroupsExact(g, domains, policies, entries);
    }
    r := Problems(groups);
  }

  lemma NoRecords()
    ensures RecordAll([]) == map[]
  {
  }

  lemma AllSnoc(domains: seq<Domain>, policies: Policies, entries: seq<Entry>, i: nat)
    requires i < |domains| && forall d :: d in domains ==> d in policies
    ensures AllTriples(domains[..i + 1], policies, entries)
         == AllTriples(domains[..i], policies, entries) + DomainTriples(domains[i], entries, policies[domains[i]])
  {
    assert domains[..i + 1][..i] == domains[..i];
  }

  /** There is a builder for a key exactly when something asked fails with it. */
  lemma BuildersBlame(domains: seq<Domain>, policies: Policies, entries: seq<Entry>)
    requires forall d :: d in domains ==> d in policies
    requires AllValid(AllTriples(domains, policies, entries))
    ensures var builders := RecordAll(AllTriples(domains, policies, entries));
      forall key :: key in builders <==> exists t: Triple :: Asked(t, domains, policies, entries) && Blames(t, key)
  {
    hide Asked, Blames, AllTriples, RecordAll, Blamed;
    var ts := AllTriples(domains, policies, entries);
    forall key ensures key in RecordAll(ts) <==>
      exists t: Triple :: Asked(t, domains, policies, entries) && Blames(t, key) {
      RecordAllSpec(ts, key);
      var blamed := Blamed(ts, key);
      forall t ensures t in blamed <==> Asked(t, domains, policies, entries) && Blames(t, key) {
        BlamedAsked(domains, policies, entries, key, t);
      }
      if |blamed| > 0 { assert blamed[0] in blamed; }
    }
  }
}
