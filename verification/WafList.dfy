/** Reconciliation of one WAF list: ranges per family, created before anything is deleted. */
module WafList {
  import opened Results
  import opened Addresses
  import opened Sorting
  import opened Prefixes
  import Reconcile

  type ID = string
  datatype Item = Item(prefix: Cidr, comment: string)
  datatype ListedItem = ListedItem(id: ID, prefix: Cidr, comment: string)
  datatype CreateItem = CreateItem(prefix: Cidr, comment: string)
  type Items = map<ID, Item>
  type Selector = string -> bool

  /** A family in scope; its targets may be unavailable for this run. */
  datatype Targets = Targets(available: bool, prefixes: seq<Cidr>)
  type Plan = map<Family, Targets>

  // ---------------------------------------------------------------------------
  // What a list state means

  predicate Managed(sel: Selector, items: Items, id: ID) {
    id in items && sel(items[id].comment)
  }

  /** The family is in scope and its targets are known. */
  predicate Usable(plan: Plan, f: Family) {
    f in plan && plan[f].available
  }

  /** The known targets of a family. */
  function TargetsOf(plan: Plan, f: Family): seq<Cidr> {
    if Usable(plan, f) then plan[f].prefixes else []
  }

  predicate CoversSome(p: Cidr, targets: seq<Cidr>) {
    exists i :: 0 <= i < |targets| && PrefixContainsPrefix(p, targets[i])
  }

  /** Managed item id of family f covers one of the family's targets. */
  predicate Useful(sel: Selector, items: Items, plan: Plan, f: Family, id: ID) {
    Managed(sel, items, id) && Usable(plan, f) && Matches(f, items[id].prefix.addr)
    && CoversSome(items[id].prefix, TargetsOf(plan, f))
  }

  /** Some managed item of family f covers target t. */
  ghost predicate Covered(sel: Selector, items: Items, f: Family, t: Cidr) {
    exists id :: Managed(sel, items, id) && Matches(f, items[id].prefix.addr)
      && PrefixContainsPrefix(items[id].prefix, t)
  }

  ghost predicate AllCovered(sel: Selector, items: Items, plan: Plan) {
    forall f, t :: t in TargetsOf(plan, f) ==> Covered(sel, items, f, t)
  }

  /** Every managed item of a usable family covers some target. */
  ghost predicate NoStale(sel: Selector, items: Items, plan: Plan) {
    forall f, id :: Usable(plan, f) && Managed(sel, items, id) && Matches(f, items[id].prefix.addr) ==>
      CoversSome(items[id].prefix, TargetsOf(plan, f))
  }

  ghost predicate Converged(sel: Selector, items: Items, plan: Plan) {
    AllCovered(sel, items, plan) && NoStale(sel, items, plan)
  }

  /** Items this run must leave alone: unmanaged, of a family without usable targets, or already useful. */
  predicate Protected(sel: Selector, items: Items, plan: Plan, id: ID) {
    id in items &&
    (!sel(items[id].comment)
     || (forall f :: Usable(plan, f) ==> !Matches(f, items[id].prefix.addr))
     || (exists f :: Useful(sel, items, plan, f, id)))
  }

  /** A later state of the same run: protected items stand, nothing foreign appears. */
  ghost predicate SafeAfter(sel: Selector, before: Items, now: Items, plan: Plan) {
    && (forall id :: Protected(sel, before, plan, id) ==> id in now && now[id] == before[id])
    && (forall id :: id in now && id in before ==> now[id] == before[id])
    && (forall id :: id in now && id !in before ==> exists f :: Useful(sel, now, plan, f, id))
  }

  /** Safety in the caller's terms: a covered target stays covered. */
  lemma SafeKeepsCover(sel: Selector, before: Items, now: Items, plan: Plan, f: Family, t: Cidr)
    requires SafeAfter(sel, before, now, plan)
    requires t in TargetsOf(plan, f) && Covered(sel, before, f, t)
    ensures Covered(sel, now, f, t)
  {
    hide PrefixContainsPrefix, Matches;
    var id :| Managed(sel, before, id) && Matches(f, before[id].prefix.addr)
              && PrefixContainsPrefix(before[id].prefix, t);
    var i :| 0 <= i < |TargetsOf(plan, f)| && TargetsOf(plan, f)[i] == t;
    assert Useful(sel, before, plan, f, id);
    assert Protected(sel, before, plan, id);
  }

  // ---------------------------------------------------------------------------
  // The remote list

  ghost predicate Lists(sel: Selector, items: Items, rs: seq<ListedItem>) {
    && (forall i :: 0 <= i < |rs| ==>
      Managed(sel, items, rs[i].id) && items[rs[i].id] == Item(rs[i].prefix, rs[i].comment))
    && (forall id :: Managed(sel, items, id) ==> exists i :: 0 <= i < |rs| && rs[i].id == id)
  }

  /** Old items stand, and every new one was asked for. */
  ghost predicate SomeCreated(before: Items, cs: seq<CreateItem>, now: Items) {
    && (forall id :: id in before ==> id in now && now[id] == before[id])
    && (forall id :: id in now && id !in before ==> CreateItem(now[id].prefix, now[id].comment) in cs)
  }

  ghost predicate AllCreated(before: Items, cs: seq<CreateItem>, now: Items) {
    && SomeCreated(before, cs, now)
    && (forall c :: c in cs ==> exists id :: id in now && now[id] == Item(c.prefix, c.comment))
  }

  ghost predicate SomeDeleted(before: Items, ids: seq<ID>, now: Items) {
    && (forall id :: id in now ==> id in before && now[id] == before[id])
    && (forall id :: id in before && id !in ids ==> id in now)
  }

  /** One more item under an unused ID. */
  lemma CreateOne(before: Items, cs: seq<CreateItem>, i: nat, now: Items, id: ID)
    requires i < |cs| && SomeCreated(before, cs, now) && id !in now
    ensures var next := now[id := Item(cs[i].prefix, cs[i].comment)];
      SomeCreated(before, cs, next) && (AllCreated(before, cs[..i], now) ==> AllCreated(before, cs[..i + 1], next))
  {
    var next := now[id := Item(cs[i].prefix, cs[i].comment)];
    assert cs[i] == CreateItem(next[id].prefix, next[id].comment);
    if AllCreated(before, cs[..i], now) {
      assert cs[..i + 1] == cs[..i] + [cs[i]];
      forall c | c in cs[..i + 1] ensures exists k :: k in next && next[k] == Item(c.prefix, c.comment) {
        if c in cs[..i] {
          var k :| k in now && now[k] == Item(c.prefix, c.comment);
          assert next[k] == now[k];
        } else {
          assert next[id] == Item(c.prefix, c.comment);
        }
      }
    }
  }

  /** The API handle of one list. A failed bulk operation may have taken effect in part. */
  class WafHandle {
    var items: Items
    const selector: Selector

    constructor (items: Items, selector: Selector)
      ensures this.items == items && this.selector == selector
    {
      this.items, this.selector := items, selector;
    }

    method ListItems() returns (rs: seq<ListedItem>, ok: bool)
      ensures ok ==> Lists(selector, items, rs)
    {
      rs, ok := [], *;
      var rest := items.Keys;
      while rest != {}
        invariant rest <= items.Keys
        invariant forall i :: 0 <= i < |rs| ==>
          Managed(selector, items, rs[i].id) && items[rs[i].id] == Item(rs[i].prefix, rs[i].comment)
        invariant forall id :: Managed(selector, items, id) && id !in rest ==>
          exists i :: 0 <= i < |rs| && rs[i].id == id
        decreases |rest|
      {
        var id :| id in rest;
        rest := rest - {id};
        if selector(items[id].comment) {
          ghost var before := rs;
          rs := rs + [ListedItem(id, items[id].prefix, items[id].comment)];
          assert rs[|before|].id == id && forall i :: 0 <= i < |before| ==> rs[i] == before[i];
        }
      }
    }

    method CreateItems(cs: seq<CreateItem>) returns (ok: bool)
      modifies this
      ensures SomeCreated(old(items), cs, items)
      ensures ok ==> AllCreated(old(items), cs, items)
    {
      if |cs| == 0 { return true; }
      var heard: bool := *;
      ok := heard;
      for i := 0 to |cs|
        invariant SomeCreated(old(items), cs, items)
        invariant ok ==> AllCreated(old(items), cs[..i], items)
      {
        hide SomeCreated, AllCreated;
        var id: ID, reached: bool := *, *;
        if reached && id !in items {
          CreateOne(old(items), cs, i, items, id);
          items := items[id := Item(cs[i].prefix, cs[i].comment)];
        } else {
          ok := false;
        }
      }
      assert cs[..|cs|] == cs;
    }

    method DeleteItems(ids: seq<ID>) returns (ok: bool)
      modifies this
      ensures SomeDeleted(old(items), ids, items)
      ensures ok ==> forall id :: id in ids ==> id !in items
    {
      if |ids| == 0 { return true; }
      var heard: bool := *;
      ok := heard;
      for i := 0 to |ids|
        invariant SomeDeleted(old(items), ids, items)
        invariant ok ==> forall j :: 0 <= j < i ==> ids[j] !in items
      {
        var reached: bool := *;
        if reached {
          items := items - {ids[i]};
        } else {
          ok := false;
        }
      }
    }
  }

  // ---------------------------------------------------------------------------
  // Planning one family

  predicate Stale(f: Family, targets: seq<Cidr>, r: ListedItem) {
    Matches(f, r.prefix.addr) && !CoversSome(r.prefix, targets)
  }

  predicate ListedCover(f: Family, rs: seq<ListedItem>, t: Cidr) {
    exists i :: 0 <= i < |rs| && Matches(f, rs[i].prefix.addr) && PrefixContainsPrefix(rs[i].prefix, t)
  }

  /** The first loop of a family's plan: which targets are covered and which items are stale. */
  method Classify(f: Family, rs: seq<ListedItem>, targets: seq<Cidr>)
    returns (covered: set<Cidr>, stale: seq<ListedItem>)
    ensures forall t :: t in covered <==> t in targets && ListedCover(f, rs, t)
    ensures forall r :: r in stale <==> r in rs && Stale(f, targets, r)
    ensures multiset(stale) <= multiset(rs)
  {
    hide Matches, PrefixContainsPrefix;
    covered, stale := {}, [];
    for i := 0 to |rs|
      invariant forall t :: t in covered <==> t in targets && ListedCover(f, rs[..i], t)
      invariant forall r :: r in stale <==> r in rs[..i] && Stale(f, targets, r)
      invariant multiset(stale) <= multiset(rs[..i])
    {
      var hits, hit := HitBy(rs[i].prefix, targets);
      CoverStep(f, rs, i);
      if Matches(f, rs[i].prefix.addr) {
        covered := covered + hits;
        if !hit { stale := stale + [rs[i]]; }
      }
      assert rs[..i + 1] == rs[..i] + [rs[i]];
    }
    assert rs[..|rs|] == rs;
  }

  /** The innermost loop: the targets one item covers. */
  method HitBy(p: Cidr, targets: seq<Cidr>) returns (hits: set<Cidr>, hit: bool)
    ensures forall t :: t in hits <==> t in targets && PrefixContainsPrefix(p, t)
    ensures hit <==> CoversSome(p, targets)
  {
    hide PrefixContainsPrefix;
    hits, hit := {}, false;
    for i := 0 to |targets|
      invariant forall t :: t in hits <==> t in targets[..i] && PrefixContainsPrefix(p, t)
      invariant hit <==> exists j :: 0 <= j < i && PrefixContainsPrefix(p, targets[j])
    {
      if PrefixContainsPrefix(p, targets[i]) {
        hits, hit := hits + {targets[i]}, true;
      }
    }
  }

  lemma CoverStep(f: Family, rs: seq<ListedItem>, i: nat)
    requires i < |rs|
    ensures forall t: Cidr :: ListedCover(f, rs[..i + 1], t) <==>
      ListedCover(f, rs[..i], t) || (Matches(f, rs[i].prefix.addr) && PrefixContainsPrefix(rs[i].prefix, t))
  {
    hide Matches, PrefixContainsPrefix;
    assert rs[..i + 1] == rs[..i] + [rs[i]];
    forall t: Cidr | ListedCover(f, rs[..i], t) ensures ListedCover(f, rs[..i + 1], t) {
      var j :| 0 <= j < i && Matches(f, rs[..i][j].prefix.addr) && PrefixContainsPrefix(rs[..i][j].prefix, t);
      assert rs[..i + 1][j] == rs[..i][j];
    }
    forall t: Cidr | Matches(f, rs[i].prefix.addr) && PrefixContainsPrefix(rs[i].prefix, t)
      ensures ListedCover(f, rs[..i + 1], t)
    {
      assert rs[..i + 1][i] == rs[i];
    }
  }

  /** A stale item with whose comment all others agree. */
  ghost predicate AgreedListed(f: Family, rs: seq<ListedItem>, targets: seq<Cidr>, r: ListedItem) {
    r in rs && Stale(f, targets, r) && forall q :: q in rs && Stale(f, targets, q) ==> q.comment == r.comment
  }

  /** The comment of every stale item, or the fallback when there is none or they differ. */
  ghost predicate Inherits(f: Family, rs: seq<ListedItem>, targets: seq<Cidr>, fallback: string, comment: string) {
    if exists r :: AgreedListed(f, rs, targets, r)
    then forall r :: r in rs && Stale(f, targets, r) ==> comment == r.comment
    else comment == fallback
  }

  lemma ScalarInherits(f: Family, rs: seq<ListedItem>, targets: seq<Cidr>, fallback: string,
                       deletes: seq<ListedItem>, values: seq<string>)
    requires forall r :: r in deletes <==> r in rs && Stale(f, targets, r)
    requires |values| == |deletes| && forall i :: 0 <= i < |deletes| ==> values[i] == deletes[i].comment
    ensures Inherits(f, rs, targets, fallback, Reconcile.ResolveScalar(fallback, values))
  {
    hide Stale, AgreedListed;
    assert forall i :: 0 <= i < |deletes| ==> deletes[i] in deletes;
    if |values| > 0 && forall i :: 0 <= i < |values| ==> values[i] == values[0] {
      AllAgree(f, rs, targets, deletes, values[0]);
    } else {
      forall r ensures !AgreedListed(f, rs, targets, r) { SomeDisagree(f, rs, targets, deletes, values, r); }
    }
  }

  lemma AllAgree(f: Family, rs: seq<ListedItem>, targets: seq<Cidr>, deletes: seq<ListedItem>, comment: string)
    requires forall r :: r in deletes <==> r in rs && Stale(f, targets, r)
    requires |deletes| > 0 && forall i :: 0 <= i < |deletes| ==> deletes[i].comment == comment
    ensures AgreedListed(f, rs, targets, deletes[0])
    ensures forall r :: r in rs && Stale(f, targets, r) ==> comment == r.comment
  {
    hide Stale;
    assert deletes[0] in deletes;
    forall q | q in deletes ensures q.comment == comment {
      var i :| 0 <= i < |deletes| && deletes[i] == q;
    }
  }

  lemma SomeDisagree(f: Family, rs: seq<ListedItem>, targets: seq<Cidr>, deletes: seq<ListedItem>, values: seq<string>,
                     r: ListedItem)
    requires forall r :: r in deletes <==> r in rs && Stale(f, targets, r)
    requires |values| == |deletes| && forall i :: 0 <= i < |deletes| ==> values[i] == deletes[i].comment
    requires |values| == 0 || exists i :: 0 <= i < |values| && values[i] != values[0]
    ensures !AgreedListed(f, rs, targets, r)
  {
    hide Stale;
    if |values| > 0 {
      var i :| 0 <= i < |values| && values[i] != values[0];
      assert deletes[i] in deletes && deletes[0] in deletes;
    }
  }

  method PlanFamily(f: Family, rs: seq<ListedItem>, targets: seq<Cidr>, fallback: string)
    returns (creates: seq<Cidr>, comment: string, deletes: seq<ListedItem>)
    ensures forall p :: p in creates <==> exists t :: t in targets && !ListedCover(f, rs, t) && p == Masked(t)
    ensures SortedBy(PrefixLe, creates) && Distinct(creates)
    ensures forall r :: r in deletes <==> r in rs && Stale(f, targets, r)
    ensures multiset(deletes) <= multiset(rs)
    ensures Inherits(f, rs, targets, fallback, comment)
  {
    hide Stale, ListedCover, Masked, Inherits;
    var covered;
    covered, deletes := Classify(f, rs, targets);
    creates := [];
    for i := 0 to |targets|
      invariant forall p :: p in creates <==> exists t :: t in targets[..i] && t !in covered && p == Masked(t)
    {
      assert targets[..i + 1] == targets[..i] + [targets[i]];
      if targets[i] !in covered {
        creates := creates + [Masked(targets[i])];
      }
    }
    assert targets[..|targets|] == targets;
    SortCompactPrefixes(creates);
    creates := Compact(Sort(PrefixLe, creates));
    var comments := seq(|deletes|, i requires 0 <= i < |deletes| => deletes[i].comment);
    comment := Reconcile.ResolveScalar(fallback, comments);
    ScalarInherits(f, rs, targets, fallback, deletes, comments);
  }

  lemma SortCompactPrefixes(s: seq<Cidr>)
    ensures SortedSet(PrefixLe, Compact(Sort(PrefixLe, s)), s)
  {
    hide PrefixLe, Sort, Compact, SortedSet;
    PrefixOrdering();
    forall p, q | p in s && q in s && PrefixLe(p, q) && PrefixLe(q, p) ensures p == q { PrefixAntisymmetric(p, q); }
    SortCompact(PrefixLe, s);
  }

  // ---------------------------------------------------------------------------
  // The whole list

  /** What a caller of SetWAFList promises about its targets. */
  predicate ValidPlan(plan: Plan) {
    forall f: Family :: forall i :: 0 <= i < |TargetsOf(plan, f)| ==>
      Canonical(TargetsOf(plan, f)[i].addr) && Matches(f, TargetsOf(plan, f)[i].addr)
  }

  /** cs creates, in scope, exactly the masked uncovered targets of the usable families. */
  ghost predicate CreatesMissing(sel: Selector, rs: seq<ListedItem>, plan: Plan, cs: seq<CreateItem>) {
    && (forall c :: c in cs ==> sel(c.comment))
    && (forall c :: c in cs ==>
      exists f, t :: t in TargetsOf(plan, f) && !ListedCover(f, rs, t) && c.prefix == Masked(t))
    && (forall f, t :: t in TargetsOf(plan, f) && !ListedCover(f, rs, t) ==>
        exists c :: c in cs && c.prefix == Masked(t))
  }

  /** c creates the masked form of an uncovered target, with its family's inherited comment. */
  ghost predicate FromTarget(f: Family, rs: seq<ListedItem>, plan: Plan, fallback: string, c: CreateItem) {
    && (exists t :: t in TargetsOf(plan, f) && !ListedCover(f, rs, t) && c.prefix == Masked(t))
    && Inherits(f, rs, TargetsOf(plan, f), fallback, c.comment)
  }

  ghost predicate Annotated(rs: seq<ListedItem>, plan: Plan, fallback: string, cs: seq<CreateItem>) {
    forall c :: c in cs ==> exists f :: FromTarget(f, rs, plan, fallback, c)
  }

  /** ids names exactly the stale items of the usable families. */
  ghost predicate DeletesStale(rs: seq<ListedItem>, plan: Plan, ds: seq<ListedItem>) {
    forall r :: r in ds <==> r in rs && exists f :: Usable(plan, f) && Stale(f, TargetsOf(plan, f), r)
  }

  /** By prefix, then comment (or ID), as the two final sorts compare. */
  predicate CreateLe(a: CreateItem, b: CreateItem) {
    if a.prefix == b.prefix then StringLe(a.comment, b.comment) else PrefixLe(a.prefix, b.prefix)
  }

  predicate ListedLe(a: ListedItem, b: ListedItem) {
    if a.prefix == b.prefix then StringLe(a.id, b.id) else PrefixLe(a.prefix, b.prefix)
  }

  lemma ItemOrderings()
    ensures Ordering(CreateLe) && Ordering(ListedLe)
  {
    hide PrefixLe, StringLe;
    PrefixOrdering();
    StringOrdering();
    forall a: CreateItem, b: CreateItem, c: CreateItem | CreateLe(a, b) && CreateLe(b, c) ensures CreateLe(a, c) {
      if a.prefix == c.prefix && a.prefix != b.prefix { PrefixAntisymmetric(a.prefix, b.prefix); }
    }
    forall a: ListedItem, b: ListedItem, c: ListedItem | ListedLe(a, b) && ListedLe(b, c) ensures ListedLe(a, c) {
      if a.prefix == c.prefix && a.prefix != b.prefix { PrefixAntisymmetric(a.prefix, b.prefix); }
    }
  }

  /** Plan each family, then merge the plans in a fixed family order and sort them. */
  method PlanList(sel: Selector, ghost items: Items, rs: seq<ListedItem>, plan: Plan, fallback: string)
    returns (cs: seq<CreateItem>, ds: seq<ListedItem>)
    requires Lists(sel, items, rs) && sel(fallback)
    ensures CreatesMissing(sel, rs, plan, cs) && DeletesStale(rs, plan, ds)
    ensures Annotated(rs, plan, fallback, cs)
    ensures SortedBy(CreateLe, cs) && SortedBy(ListedLe, ds)
    ensures ValidPlan(plan) ==> OnePerPrefix(cs)
    ensures multiset(ds) <= multiset(rs)
  {
    hide OnePerPrefix, ValidPlan, Matches, PrefixContainsPrefix, Masked, Stale, ListedCover, Annotated,
         CreatesMissing, DeletesStale, FamilyPlan;
    var create4, delete4 := PlanUsable(IP4, rs, plan, fallback);
    var create6, delete6 := PlanUsable(IP6, rs, plan, fallback);
    cs, ds := create4 + create6, delete4 + delete6;
    MergePlans(sel, items, rs, plan, fallback, create4, create6, delete4, delete6);
    ghost var cs0, ds0 := cs, ds;
    if ValidPlan(plan) { MergedPrefixes(rs, plan, fallback, create4, create6, delete4, delete6); }
    MergedCounts(rs, plan, fallback, create4, create6, delete4, delete6);
    ItemOrderings();
    SortElements(CreateLe, cs);
    SortElements(ListedLe, ds);
    SortSorts(CreateLe, cs);
    SortSorts(ListedLe, ds);
    cs, ds := Sort(CreateLe, cs), Sort(ListedLe, ds);
    SameCreates(sel, rs, plan, fallback, cs0, cs);
    SameDeletes(rs, plan, ds0, ds);
    SamePrefixes(cs0, cs);
  }

  lemma SamePrefixes(a: seq<CreateItem>, b: seq<CreateItem>)
    requires multiset(a) == multiset(b)
    ensures OnePerPrefix(a) ==> OnePerPrefix(b)
  {
    SameElements(a, b);
    if OnePerPrefix(a) { MultisetDistinct(a, b); }
  }

  /** The families' prefixes differ. */
  lemma MergedPrefixes(rs: seq<ListedItem>, plan: Plan, fallback: string,
                       create4: seq<CreateItem>, create6: seq<CreateItem>, delete4: seq<ListedItem>,
                       delete6: seq<ListedItem>)
    requires ValidPlan(plan)
    requires FamilyPlan(IP4, rs, plan, fallback, create4, delete4)
    requires FamilyPlan(IP6, rs, plan, fallback, create6, delete6)
    ensures OnePerPrefix(create4 + create6)
  {
    var cs := create4 + create6;
    forall c | c in create4
      ensures Matches(IP4, c.prefix.addr) { CreatedFamily(IP4, rs, plan, fallback, create4, delete4, c); }
    forall c | c in create6
      ensures Matches(IP6, c.prefix.addr) { CreatedFamily(IP6, rs, plan, fallback, create6, delete6, c); }
    forall c, d | c in create4 && d in create6 ensures c.prefix != d.prefix { MatchesOne(IP4, IP6, c.prefix.addr); }
    hide Matches, FamilyPlan, ValidPlan;
    OnePerPrefixParts(rs, plan, fallback, create4, create6, delete4, delete6);
    DistinctConcat(create4, create6);
  }

  lemma OnePerPrefixParts(rs: seq<ListedItem>, plan: Plan, fallback: string,
                          create4: seq<CreateItem>, create6: seq<CreateItem>, delete4: seq<ListedItem>,
                          delete6: seq<ListedItem>)
    requires FamilyPlan(IP4, rs, plan, fallback, create4, delete4)
    requires FamilyPlan(IP6, rs, plan, fallback, create6, delete6)
    ensures OnePerPrefix(create4) && OnePerPrefix(create6)
  {
  }

  lemma DistinctConcat<T>(a: seq<T>, b: seq<T>)
    requires Distinct(a) && Distinct(b) && forall x, y :: x in a && y in b ==> x != y
    ensures Distinct(a + b)
  {
    var s := a + b;
    forall i, j | 0 <= i < j < |s| ensures s[i] != s[j] {
      if i < |a| <= j { assert s[i] in a && s[j] in b; }
    }
  }

  lemma CreatedFamily(f: Family, rs: seq<ListedItem>, plan: Plan, fallback: string, cs: seq<CreateItem>,
                      ds: seq<ListedItem>, c: CreateItem)
    requires ValidPlan(plan) && FamilyPlan(f, rs, plan, fallback, cs, ds) && c in cs
    ensures Matches(f, c.prefix.addr)
  {
    hide Matches, Canonical, Masked, ListedCover, Inherits, Stale, Usable;
    assert FromTarget(f, rs, plan, fallback, c);
    hide FamilyPlan, OnePerPrefix;
    FromTargetFamily(f, rs, plan, fallback, c);
  }

  lemma FromTargetFamily(f: Family, rs: seq<ListedItem>, plan: Plan, fallback: string, c: CreateItem)
    requires ValidPlan(plan) && FromTarget(f, rs, plan, fallback, c)
    ensures Matches(f, c.prefix.addr)
  {
    hide Matches, Canonical, Masked, ListedCover, Inherits, Stale, Usable, TargetsOf;
    var t :| t in TargetsOf(plan, f) && !ListedCover(f, rs, t) && c.prefix == Masked(t);
    var i :| 0 <= i < |TargetsOf(plan, f)| && TargetsOf(plan, f)[i] == t;
    MaskedFamily(f, t);
  }

  /** No listed item is deleted more often than it is listed. */
  lemma MergedCounts(rs: seq<ListedItem>, plan: Plan, fallback: string,
                     create4: seq<CreateItem>, create6: seq<CreateItem>, delete4: seq<ListedItem>,
                     delete6: seq<ListedItem>)
    requires FamilyPlan(IP4, rs, plan, fallback, create4, delete4)
    requires FamilyPlan(IP6, rs, plan, fallback, create6, delete6)
    ensures multiset(delete4 + delete6) <= multiset(rs)
  {
    forall r ensures !(r in delete4 && r in delete6) {
      if r in delete4 && r in delete6 { MatchesOne(IP4, IP6, r.prefix.addr); }
    }
    assert multiset(delete4) <= multiset(rs) && multiset(delete6) <= multiset(rs);
    hide FamilyPlan;
    forall r ensures multiset(delete4 + delete6)[r] <= multiset(rs)[r] {
      assert r in delete4 <==> r in multiset(delete4);
      assert r in delete6 <==> r in multiset(delete6);
      assert multiset(delete4 + delete6) == multiset(delete4) + multiset(delete6);
    }
  }

  lemma SameDeletes(rs: seq<ListedItem>, plan: Plan, a: seq<ListedItem>, b: seq<ListedItem>)
    requires DeletesStale(rs, plan, a) && forall r :: r in a <==> r in b
    ensures DeletesStale(rs, plan, b)
  {
    hide Usable, Stale;
  }

  lemma SameCreates(sel: Selector, rs: seq<ListedItem>, plan: Plan, fallback: string,
                    a: seq<CreateItem>, b: seq<CreateItem>)
    requires CreatesMissing(sel, rs, plan, a) && Annotated(rs, plan, fallback, a) && forall c :: c in a <==> c in b
    ensures CreatesMissing(sel, rs, plan, b) && Annotated(rs, plan, fallback, b)
  {
    hide Usable, ListedCover, Masked, FromTarget;
    forall f, t | t in TargetsOf(plan, f) && !ListedCover(f, rs, t)
      ensures exists c :: c in b && c.prefix == Masked(t)
    {
      var c :| c in a && c.prefix == Masked(t);
      assert c in b;
    }
  }

  /** One family's share of the plan. */
  ghost predicate FamilyPlan(f: Family, rs: seq<ListedItem>, plan: Plan, fallback: string,
                             cs: seq<CreateItem>, ds: seq<ListedItem>) {
    && (!Usable(plan, f) ==> cs == [] && ds == [])
    && (Usable(plan, f) ==>
      && (forall c :: c in cs ==> FromTarget(f, rs, plan, fallback, c))
      && (forall t :: t in TargetsOf(plan, f) && !ListedCover(f, rs, t) ==>
        exists c :: c in cs && c.prefix == Masked(t))
      && (forall r :: r in ds <==> r in rs && Stale(f, TargetsOf(plan, f), r)))
    && OnePerPrefix(cs) && multiset(ds) <= multiset(rs)
  }

  /** No prefix is created twice. */
  ghost predicate OnePerPrefix(cs: seq<CreateItem>) {
    Distinct(cs) && forall c, d :: c in cs && d in cs && c.prefix == d.prefix ==> c == d
  }

  method PlanUsable(f: Family, rs: seq<ListedItem>, plan: Plan, fallback: string)
    returns (cs: seq<CreateItem>, ds: seq<ListedItem>)
    ensures FamilyPlan(f, rs, plan, fallback, cs, ds)
  {
    hide Masked, Stale, ListedCover, Inherits, PrefixLe;
    if f !in plan || !plan[f].available { return [], []; }
    var creates, comment, deletes := PlanFamily(f, rs, TargetsOf(plan, f), fallback);
    cs, ds := [], deletes;
    for i := 0 to |creates|
      invariant |cs| == i && forall j :: 0 <= j < i ==> cs[j] == CreateItem(creates[j], comment)
    {
      cs := cs + [CreateItem(creates[i], comment)];
    }
    WithComment(creates, comment, cs);
    hide OnePerPrefix;
    forall t | t in TargetsOf(plan, f) && !ListedCover(f, rs, t) ensures exists c :: c in cs && c.prefix == Masked(t) {
      assert Masked(t) in creates;
      assert CreateItem(Masked(t), comment) in cs;
    }
    forall c | c in cs ensures exists t :: t in TargetsOf(plan, f) && !ListedCover(f, rs, t) && c.prefix == Masked(t) {
      assert c.prefix in creates;
    }
  }

  /** One item per prefix, all with the comment. */
  lemma WithComment(creates: seq<Cidr>, comment: string, cs: seq<CreateItem>)
    requires Distinct(creates) && |cs| == |creates|
    requires forall j :: 0 <= j < |cs| ==> cs[j] == CreateItem(creates[j], comment)
    ensures OnePerPrefix(cs)
    ensures forall c :: c in cs <==> c.prefix in creates && c.comment == comment
  {
    forall p | p in creates ensures CreateItem(p, comment) in cs {
      var j :| 0 <= j < |creates| && creates[j] == p;
      assert cs[j] in cs;
    }
    forall c | c in cs ensures c.prefix in creates && c.comment == comment {
      var j :| 0 <= j < |cs| && cs[j] == c;
    }
  }

  lemma MergePlans(sel: Selector, items: Items, rs: seq<ListedItem>, plan: Plan, fallback: string,
                   create4: seq<CreateItem>, create6: seq<CreateItem>, delete4: seq<ListedItem>,
                   delete6: seq<ListedItem>)
    requires Lists(sel, items, rs) && sel(fallback)
    requires FamilyPlan(IP4, rs, plan, fallback, create4, delete4)
    requires FamilyPlan(IP6, rs, plan, fallback, create6, delete6)
    ensures CreatesMissing(sel, rs, plan, create4 + create6) && DeletesStale(rs, plan, delete4 + delete6)
    ensures Annotated(rs, plan, fallback, create4 + create6)
  {
    hide Matches, PrefixContainsPrefix, Masked, Stale, ListedCover, TargetsOf, Usable, FamilyPlan, FromTarget;
    var cs := create4 + create6;
    forall c | c in cs
      ensures sel(c.comment)
      ensures exists f :: FromTarget(f, rs, plan, fallback, c)
      ensures exists f, t :: t in TargetsOf(plan, f) && !ListedCover(f, rs, t) && c.prefix == Masked(t)
    {
      if c in create4 { CreateOrigin(sel, items, rs, plan, fallback, IP4, create4, delete4, c); }
      if c in create6 { CreateOrigin(sel, items, rs, plan, fallback, IP6, create6, delete6, c); }
    }
    forall f, t | t in TargetsOf(plan, f) && !ListedCover(f, rs, t)
      ensures exists c :: c in cs && c.prefix == Masked(t)
    {
      var own := if f == IP4 then create4 else create6;
      assert FamilyPlan(f, rs, plan, fallback, own, if f == IP4 then delete4 else delete6);
      var c := CreateFor(rs, plan, fallback, f, own, if f == IP4 then delete4 else delete6, t);
      assert c in cs;
    }
    MergeDeletes(rs, plan, fallback, create4, create6, delete4, delete6);
  }

  lemma CreateOrigin(sel: Selector, items: Items, rs: seq<ListedItem>, plan: Plan, fallback: string, f: Family,
                     cs: seq<CreateItem>, ds: seq<ListedItem>, c: CreateItem)
    requires Lists(sel, items, rs) && sel(fallback) && FamilyPlan(f, rs, plan, fallback, cs, ds) && c in cs
    ensures sel(c.comment) && FromTarget(f, rs, plan, fallback, c)
    ensures exists t :: t in TargetsOf(plan, f) && !ListedCover(f, rs, t) && c.prefix == Masked(t)
  {
    hide Masked, Stale, ListedCover;
    ListedInScope(sel, items, rs);
    assert FromTarget(f, rs, plan, fallback, c);
  }

  lemma CreateFor(rs: seq<ListedItem>, plan: Plan, fallback: string, f: Family,
                  cs: seq<CreateItem>, ds: seq<ListedItem>, t: Cidr) returns (c: CreateItem)
    requires FamilyPlan(f, rs, plan, fallback, cs, ds) && t in TargetsOf(plan, f) && !ListedCover(f, rs, t)
    ensures c in cs && c.prefix == Masked(t)
  {
    hide Matches, PrefixContainsPrefix, Masked, Stale, ListedCover;
    c :| c in cs && c.prefix == Masked(t);
  }

  lemma MergeDeletes(rs: seq<ListedItem>, plan: Plan, fallback: string,
                     create4: seq<CreateItem>, create6: seq<CreateItem>, delete4: seq<ListedItem>,
                     delete6: seq<ListedItem>)
    requires FamilyPlan(IP4, rs, plan, fallback, create4, delete4)
    requires FamilyPlan(IP6, rs, plan, fallback, create6, delete6)
    ensures DeletesStale(rs, plan, delete4 + delete6)
  {
    hide Matches, PrefixContainsPrefix, Masked, Stale, ListedCover;
    var ds := delete4 + delete6;
    forall r ensures r in ds <==> r in rs && exists f :: Usable(plan, f) && Stale(f, TargetsOf(plan, f), r) {
      if r in ds {
        var f := if r in delete4 then IP4 else IP6;
        assert Usable(plan, f) && Stale(f, TargetsOf(plan, f), r);
      }
      if f :| r in rs && Usable(plan, f) && Stale(f, TargetsOf(plan, f), r) {
        var own := if f == IP4 then delete4 else delete6;
        assert r in own;
      }
    }
  }

  lemma ListedInScope(sel: Selector, items: Items, rs: seq<ListedItem>)
    requires Lists(sel, items, rs)
    ensures forall r :: r in rs ==> sel(r.comment)
  {
  }

  /** A listing covers a target exactly when the list does. */
  lemma ListedCoverIff(sel: Selector, items: Items, rs: seq<ListedItem>, f: Family, t: Cidr)
    requires Lists(sel, items, rs)
    ensures ListedCover(f, rs, t) <==> Covered(sel, items, f, t)
  {
    hide Matches, PrefixContainsPrefix;
    if Covered(sel, items, f, t) {
      var id :| Managed(sel, items, id) && Matches(f, items[id].prefix.addr)
                && PrefixContainsPrefix(items[id].prefix, t);
      var i :| 0 <= i < |rs| && rs[i].id == id;
      assert Matches(f, rs[i].prefix.addr) && PrefixContainsPrefix(rs[i].prefix, t);
    }
    if ListedCover(f, rs, t) {
      var i :| 0 <= i < |rs| && Matches(f, rs[i].prefix.addr) && PrefixContainsPrefix(rs[i].prefix, t);
      assert Managed(sel, items, rs[i].id);
    }
  }

  lemma NothingToCreateIff(sel: Selector, items: Items, rs: seq<ListedItem>, plan: Plan, cs: seq<CreateItem>)
    requires Lists(sel, items, rs) && CreatesMissing(sel, rs, plan, cs)
    ensures cs == [] <==> AllCovered(sel, items, plan)
  {
    hide Lists, Matches, PrefixContainsPrefix, Masked, ListedCover, Usable, TargetsOf, Covered;
    forall f, t ensures ListedCover(f, rs, t) <==> Covered(sel, items, f, t) { ListedCoverIff(sel, items, rs, f, t); }
    if cs != [] {
      assert cs[0] in cs;
      var f, t :| t in TargetsOf(plan, f) && !ListedCover(f, rs, t) && cs[0].prefix == Masked(t);
    }
  }

  lemma NothingToDeleteIff(sel: Selector, items: Items, rs: seq<ListedItem>, plan: Plan, ds: seq<ListedItem>)
    requires Lists(sel, items, rs) && DeletesStale(rs, plan, ds)
    ensures ds == [] <==> NoStale(sel, items, plan)
  {
    hide Matches, PrefixContainsPrefix, CoversSome, Usable, TargetsOf;
    if ds == [] {
      forall f, id | Usable(plan, f) && Managed(sel, items, id) && Matches(f, items[id].prefix.addr)
        ensures CoversSome(items[id].prefix, TargetsOf(plan, f))
      {
        var i :| 0 <= i < |rs| && rs[i].id == id;
        assert rs[i] in rs && rs[i] !in ds;
        assert !Stale(f, TargetsOf(plan, f), rs[i]);
      }
    } else {
      assert ds[0] in ds;
      var f :| Usable(plan, f) && Stale(f, TargetsOf(plan, f), ds[0]);
      assert Managed(sel, items, ds[0].id);
    }
  }

  /** The plan is empty exactly when the list already is as wanted. */
  lemma EmptyPlanIff(sel: Selector, items: Items, rs: seq<ListedItem>, plan: Plan, cs: seq<CreateItem>,
                     ds: seq<ListedItem>)
    requires Lists(sel, items, rs)
    requires CreatesMissing(sel, rs, plan, cs) && DeletesStale(rs, plan, ds)
    ensures cs == [] && ds == [] <==> Converged(sel, items, plan)
  {
    hide AllCovered, NoStale, Lists, CreatesMissing, DeletesStale;
    NothingToCreateIff(sel, items, rs, plan, cs);
    NothingToDeleteIff(sel, items, rs, plan, ds);
  }

  /** A created item is useful: it covers the target it was made for. */
  lemma CreatedIsUseful(sel: Selector, items: Items, plan: Plan, f: Family, t: Cidr, id: ID)
    requires ValidPlan(plan) && t in TargetsOf(plan, f)
    requires Managed(sel, items, id) && items[id].prefix == Masked(t)
    ensures Useful(sel, items, plan, f, id) && Covered(sel, items, f, t)
  {
    var i :| 0 <= i < |TargetsOf(plan, f)| && TargetsOf(plan, f)[i] == t;
    MaskedFamily(f, t);
    MaskedSameSet(t, t.addr);
    assert PrefixContainsPrefix(Masked(t), t);
  }

  lemma ProtectedPresent(sel: Selector, items: Items, plan: Plan, id: ID)
    requires Protected(sel, items, plan, id)
    ensures id in items
  {
  }

  lemma PlannedIsUseful(sel: Selector, now: Items, rs: seq<ListedItem>, plan: Plan, cs: seq<CreateItem>, id: ID)
    returns (f: Family)
    requires ValidPlan(plan) && CreatesMissing(sel, rs, plan, cs)
    requires id in now && CreateItem(now[id].prefix, now[id].comment) in cs
    ensures Useful(sel, now, plan, f, id)
  {
    hide Matches, PrefixContainsPrefix, Masked, CoversSome, ListedCover, ValidPlan, Canonical, Useful, Usable,
         TargetsOf;
    var c, t := CreateItem(now[id].prefix, now[id].comment), now[id].prefix;
    assert c in cs;
    f, t :| t in TargetsOf(plan, f) && !ListedCover(f, rs, t) && c.prefix == Masked(t);
    CreatedIsUseful(sel, now, plan, f, t, id);
  }

  lemma CreateIsSafe(sel: Selector, before: Items, now: Items, rs: seq<ListedItem>, plan: Plan, cs: seq<CreateItem>)
    requires ValidPlan(plan) && CreatesMissing(sel, rs, plan, cs) && SomeCreated(before, cs, now)
    ensures SafeAfter(sel, before, now, plan)
  {
    hide CreatesMissing, ValidPlan, Useful, Protected;
    forall id | Protected(sel, before, plan, id) ensures id in before { ProtectedPresent(sel, before, plan, id); }
    forall id | id in now && id !in before ensures exists f :: Useful(sel, now, plan, f, id) {
      var f := PlannedIsUseful(sel, now, rs, plan, cs, id);
    }
  }

  lemma CreateCoversOne(sel: Selector, before: Items, now: Items, rs: seq<ListedItem>, plan: Plan, cs: seq<CreateItem>,
                        f: Family, t: Cidr)
    requires ValidPlan(plan) && CreatesMissing(sel, rs, plan, cs) && AllCreated(before, cs, now)
    requires t in TargetsOf(plan, f) && !ListedCover(f, rs, t)
    ensures Covered(sel, now, f, t)
  {
    hide Matches, PrefixContainsPrefix, Masked, CoversSome, ListedCover, ValidPlan, Canonical, TargetsOf,
         SomeCreated, Covered;
    var c :| c in cs && c.prefix == Masked(t);
    var id :| id in now && now[id] == Item(c.prefix, c.comment);
    CreatedIsUseful(sel, now, plan, f, t, id);
  }

  lemma CreateCovers(sel: Selector, before: Items, now: Items, rs: seq<ListedItem>, plan: Plan, cs: seq<CreateItem>)
    requires ValidPlan(plan) && Lists(sel, before, rs)
    requires CreatesMissing(sel, rs, plan, cs) && AllCreated(before, cs, now)
    ensures AllCovered(sel, now, plan)
  {
    assert SomeCreated(before, cs, now);
    hide Lists, CreatesMissing, AllCreated, Covered, ListedCover, ValidPlan, SafeAfter, SomeCreated;
    CreateIsSafe(sel, before, now, rs, plan, cs);
    forall f, t | t in TargetsOf(plan, f) ensures Covered(sel, now, f, t) {
      ListedCoverIff(sel, before, rs, f, t);
      if Covered(sel, before, f, t) {
        SafeKeepsCover(sel, before, now, plan, f, t);
      } else {
        CreateCoversOne(sel, before, now, rs, plan, cs, f, t);
      }
    }
  }

  ghost predicate AreIds(ds: seq<ListedItem>, ids: seq<ID>) {
    |ids| == |ds| && forall i :: 0 <= i < |ds| ==> ids[i] == ds[i].id
  }

  /** Deleting stale items, all or some, is safe and uncovers nothing. */
  lemma DeleteIsSafe(sel: Selector, before: Items, mid: Items, now: Items, rs: seq<ListedItem>, plan: Plan,
                     cs: seq<CreateItem>, ds: seq<ListedItem>, ids: seq<ID>)
    requires Lists(sel, before, rs) && DeletesStale(rs, plan, ds) && AreIds(ds, ids)
    requires SafeAfter(sel, before, mid, plan) && SomeDeleted(mid, ids, now)
    ensures SafeAfter(sel, before, now, plan)
    ensures SafeAfter(sel, mid, now, plan)
  {
    hide Matches, PrefixContainsPrefix, CoversSome, ListedCover, Usable;
    forall id | id in ids ensures id in before && !Protected(sel, before, plan, id) {
      var i :| 0 <= i < |ds| && ids[i] == id;
      StaleIsUnprotected(sel, before, rs, plan, ds, ds[i]);
    }
    forall id | Protected(sel, mid, plan, id) ensures id in now && now[id] == mid[id] {
      if id in ids && id in before { assert mid[id] == before[id]; SameProtection(sel, before, mid, plan, id); }
    }
    forall id | id in now && id !in before ensures exists f :: Useful(sel, now, plan, f, id) {
      var f :| Useful(sel, mid, plan, f, id);
      assert Useful(sel, now, plan, f, id);
    }
  }

  lemma SameProtection(sel: Selector, a: Items, b: Items, plan: Plan, id: ID)
    requires id in a && id in b && a[id] == b[id]
    ensures Protected(sel, a, plan, id) <==> Protected(sel, b, plan, id)
  {
    hide Matches, CoversSome, Usable;
    assert forall f :: Useful(sel, a, plan, f, id) <==> Useful(sel, b, plan, f, id);
  }

  lemma StaleIsUnprotected(sel: Selector, items: Items, rs: seq<ListedItem>, plan: Plan, ds: seq<ListedItem>,
                           r: ListedItem)
    requires Lists(sel, items, rs) && DeletesStale(rs, plan, ds) && r in ds
    ensures r.id in items && !Protected(sel, items, plan, r.id)
  {
    hide PrefixContainsPrefix, CoversSome, Usable;
    var f :| Usable(plan, f) && Stale(f, TargetsOf(plan, f), r);
    assert Managed(sel, items, r.id);
    forall g ensures !Useful(sel, items, plan, g, r.id) {
      if g != f { MatchesOne(f, g, r.prefix.addr); }
    }
  }

  lemma MatchesOne(f: Family, g: Family, a: Addr)
    requires f != g
    ensures !(Matches(f, a) && Matches(g, a))
  {
  }

  lemma DeleteConverges(sel: Selector, before: Items, mid: Items, now: Items, rs: seq<ListedItem>, plan: Plan,
                        ds: seq<ListedItem>, ids: seq<ID>)
    requires Lists(sel, before, rs) && DeletesStale(rs, plan, ds) && AreIds(ds, ids)
    requires SafeAfter(sel, before, now, plan) && SafeAfter(sel, mid, now, plan)
    requires AllCovered(sel, mid, plan)
    requires forall id :: id in ids ==> id !in now
    ensures Converged(sel, now, plan)
  {
    hide Matches, PrefixContainsPrefix, CoversSome;
    forall r | r in ds ensures r.id !in now {
      var j :| 0 <= j < |ds| && ds[j] == r;
      assert ids[j] == r.id;
    }
    forall f, t | t in TargetsOf(plan, f) ensures Covered(sel, now, f, t) {
      SafeKeepsCover(sel, mid, now, plan, f, t);
    }
    forall f, id | Usable(plan, f) && Managed(sel, now, id) && Matches(f, now[id].prefix.addr)
      ensures CoversSome(now[id].prefix, TargetsOf(plan, f))
    {
      if id in before {
        assert now[id] == before[id] && Managed(sel, before, id);
        var i :| 0 <= i < |rs| && rs[i].id == id;
        assert rs[i] !in ds;
        assert rs[i] in rs && !Stale(f, TargetsOf(plan, f), rs[i]);
      } else {
        var g :| Useful(sel, now, plan, g, id);
        if g != f { MatchesOne(f, g, now[id].prefix.addr); }
      }
    }
  }

  /** p is the target's own network: its length, its first bits, and no others. */
  predicate NetworkOf(p: Cidr, t: Cidr) {
    && p.bits == t.bits && Width(p.addr) == Width(t.addr)
    && forall k :: 0 <= k < Width(p.addr) ==> (AddrBit(p.addr, k) <==> k < t.bits && AddrBit(t.addr, k))
  }

  /** A managed item of the family that covers none of its targets. */
  predicate StaleItem(sel: Selector, items: Items, plan: Plan, f: Family, id: ID) {
    Managed(sel, items, id) && Matches(f, items[id].prefix.addr) && !CoversSome(items[id].prefix, TargetsOf(plan, f))
  }

  /** A stale item with whose comment all others agree. */
  ghost predicate AgreedItem(sel: Selector, items: Items, plan: Plan, f: Family, id: ID) {
    && StaleItem(sel, items, plan, f, id)
    && forall other :: StaleItem(sel, items, plan, f, other) ==> items[other].comment == items[id].comment
  }

  /** The comment all stale items of the family bear, or the fallback when there is none or two differ. */
  ghost predicate FamilyComment(sel: Selector, items: Items, plan: Plan, f: Family, fallback: string, comment: string) {
    if exists id :: AgreedItem(sel, items, plan, f, id)
    then forall id :: StaleItem(sel, items, plan, f, id) ==> comment == items[id].comment
    else comment == fallback
  }

  /** The item is the network of a target nothing covered, with the family's comment. */
  ghost predicate Wanted(sel: Selector, items: Items, plan: Plan, fallback: string, f: Family, t: Cidr, item: Item) {
    && t in TargetsOf(plan, f) && !Covered(sel, items, f, t)
    && NetworkOf(item.prefix, t) && FamilyComment(sel, items, plan, f, fallback, item.comment)
  }

  lemma MaskedIsNetwork(t: Cidr)
    ensures NetworkOf(Masked(t), t)
  {
    hide AddrBit, Masked;
    forall k | 0 <= k < Width(t.addr)
      ensures Width(Masked(t).addr) == Width(t.addr)
        && (AddrBit(Masked(t).addr, k) <==> k < t.bits && AddrBit(t.addr, k))
    {
      MaskedBits(t, k);
    }
    assert Width(t.addr) > 0;
    MaskedBits(t, 0);
  }

  lemma ListedStale(sel: Selector, items: Items, rs: seq<ListedItem>, plan: Plan, f: Family, r: ListedItem)
    requires Lists(sel, items, rs) && r in rs && Stale(f, TargetsOf(plan, f), r)
    ensures StaleItem(sel, items, plan, f, r.id) && items[r.id].comment == r.comment
  {
    hide Matches, CoversSome, TargetsOf;
  }

  lemma StaleListed(sel: Selector, items: Items, rs: seq<ListedItem>, plan: Plan, f: Family, id: ID)
    returns (r: ListedItem)
    requires Lists(sel, items, rs) && StaleItem(sel, items, plan, f, id)
    ensures r in rs && Stale(f, TargetsOf(plan, f), r) && r.id == id && r.comment == items[id].comment
  {
    hide Matches, CoversSome, TargetsOf;
    var i :| 0 <= i < |rs| && rs[i].id == id;
    r := rs[i];
  }

  lemma CommentInherited(sel: Selector, items: Items, rs: seq<ListedItem>, plan: Plan, f: Family,
                         fallback: string, comment: string)
    requires Lists(sel, items, rs) && Inherits(f, rs, TargetsOf(plan, f), fallback, comment)
    ensures FamilyComment(sel, items, plan, f, fallback, comment)
  {
    hide Lists, Stale, TargetsOf, Matches, CoversSome;
    var targets := TargetsOf(plan, f);
    forall r | r in rs && Stale(f, targets, r)
      ensures StaleItem(sel, items, plan, f, r.id) && items[r.id].comment == r.comment
    {
      ListedStale(sel, items, rs, plan, f, r);
    }
    if id :| AgreedItem(sel, items, plan, f, id) {
      var r := StaleListed(sel, items, rs, plan, f, id);
      assert AgreedListed(f, rs, targets, r);
      forall other | StaleItem(sel, items, plan, f, other) ensures comment == items[other].comment {
        var q := StaleListed(sel, items, rs, plan, f, other);
      }
    } else {
      forall r | r in rs && Stale(f, targets, r)
        ensures exists q :: q in rs && Stale(f, targets, q) && q.comment != r.comment
      {
        assert !AgreedItem(sel, items, plan, f, r.id);
        var other :| StaleItem(sel, items, plan, f, other) && items[other].comment != items[r.id].comment;
        var q := StaleListed(sel, items, rs, plan, f, other);
      }
    }
  }

  /** Whatever was created was wanted. */
  lemma CreatedWanted(sel: Selector, before: Items, now: Items, rs: seq<ListedItem>, plan: Plan, fallback: string,
                      cs: seq<CreateItem>, id: ID)
    requires Lists(sel, before, rs) && Annotated(rs, plan, fallback, cs) && SomeCreated(before, cs, now)
    requires id in now && id !in before
    ensures exists f, t :: Wanted(sel, before, plan, fallback, f, t, now[id])
  {
    hide Lists, ListedCover, Masked, Inherits, FamilyComment, NetworkOf, Covered, TargetsOf;
    var c := CreateItem(now[id].prefix, now[id].comment);
    assert c in cs;
    var f :| FromTarget(f, rs, plan, fallback, c);
    var t :| t in TargetsOf(plan, f) && !ListedCover(f, rs, t) && c.prefix == Masked(t);
    ListedCoverIff(sel, before, rs, f, t);
    MaskedIsNetwork(t);
    CommentInherited(sel, before, rs, plan, f, fallback, c.comment);
    assert Wanted(sel, before, plan, fallback, f, t, now[id]);
  }

  lemma AllWanted(sel: Selector, before: Items, now: Items, rs: seq<ListedItem>, plan: Plan, fallback: string,
                  cs: seq<CreateItem>)
    requires Lists(sel, before, rs) && Annotated(rs, plan, fallback, cs) && SomeCreated(before, cs, now)
    ensures OnlyWanted(sel, before, now, plan, fallback)
  {
    hide Lists, Annotated, SomeCreated, Wanted;
    forall id | id in now && id !in before ensures exists f, t :: Wanted(sel, before, plan, fallback, f, t, now[id]) {
      CreatedWanted(sel, before, now, rs, plan, fallback, cs, id);
    }
  }

  ghost predicate OnlyWanted(sel: Selector, before: Items, now: Items, plan: Plan, fallback: string) {
    forall id :: id in now && id !in before ==> exists f, t :: Wanted(sel, before, plan, fallback, f, t, now[id])
  }

  lemma DeletedOnly(before: Items, ids: seq<ID>, now: Items)
    requires SomeDeleted(before, ids, now)
    ensures forall id :: id in now ==> id in before && now[id] == before[id]
  {
  }

  /** Reconciles the list. `mid` is the list between creating and deleting. */
  method SetWAFList(handle: WafHandle, plan: Plan, fallback: string) returns (code: ResponseCode, ghost mid: Items)
    requires ValidPlan(plan) && handle.selector(fallback)
    modifies handle
    ensures SafeAfter(handle.selector, old(handle.items), mid, plan)
    ensures SafeAfter(handle.selector, old(handle.items), handle.items, plan)
    ensures forall id :: id in old(handle.items) ==> id in mid
    ensures OnlyWanted(handle.selector, old(handle.items), mid, plan, fallback)
    ensures forall id :: id in handle.items ==> id in mid && handle.items[id] == mid[id]
    ensures mid != handle.items ==> AllCovered(handle.selector, mid, plan)
    ensures code != Failed ==> Converged(handle.selector, handle.items, plan)
    ensures code == Noop ==> handle.items == old(handle.items)
    ensures Converged(handle.selector, old(handle.items), plan) ==>
      code != Updated && handle.items == mid == old(handle.items)
  {
    hide SafeAfter, AllCovered, Converged, CreatesMissing, DeletesStale, Lists, ValidPlan, SomeCreated, SomeDeleted,
         AllCreated, NoStale, OnlyWanted, Annotated, OnePerPrefix;
    ghost var sel, before := handle.selector, handle.items;
    mid := before;
    NothingIsSafe(sel, before, plan);
    NothingNew(sel, before, plan, fallback);
    var rs, ok := handle.ListItems();
    if !ok { return Failed, mid; }
    var cs, ds := PlanList(handle.selector, before, rs, plan, fallback);
    EmptyPlanIff(sel, before, rs, plan, cs, ds);
    if |cs| == 0 && |ds| == 0 { return Noop, mid; }
    var created := handle.CreateItems(cs);
    mid := handle.items;
    CreateIsSafe(sel, before, mid, rs, plan, cs);
    CreatedKeeps(before, cs, mid);
    AllWanted(sel, before, mid, rs, plan, fallback, cs);
    if !created { return Failed, mid; }
    CreateCovers(sel, before, mid, rs, plan, cs);
    var ids: seq<ID> := [];
    for i := 0 to |ds|
      invariant |ids| == i && forall j :: 0 <= j < i ==> ids[j] == ds[j].id
    {
      ids := ids + [ds[i].id];
    }
    var deleted := handle.DeleteItems(ids);
    DeleteIsSafe(sel, before, mid, handle.items, rs, plan, cs, ds, ids);
    DeletedOnly(mid, ids, handle.items);
    if !deleted { return Failed, mid; }
    DeleteConverges(sel, before, mid, handle.items, rs, plan, ds, ids);
    return Updated, mid;
  }

  lemma NothingNew(sel: Selector, items: Items, plan: Plan, fallback: string)
    ensures OnlyWanted(sel, items, items, plan, fallback)
  {
  }

  lemma NothingIsSafe(sel: Selector, items: Items, plan: Plan)
    ensures SafeAfter(sel, items, items, plan)
  {
  }

  lemma CreatedKeeps(before: Items, cs: seq<CreateItem>, now: Items)
    requires SomeCreated(before, cs, now)
    ensures forall id :: id in before ==> id in now
  {
  }
}
