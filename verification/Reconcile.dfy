/** Which calls bring the managed records of one domain and record type to a target set of addresses. */
module Reconcile {
  import opened Addresses
  import opened Sorting
  import Tags

  type ID = string

  datatype Params = Params(ttl: int, proxied: bool, comment: string, tags: seq<string>)

  /** A record as the updater sees it. */
  datatype Record = Record(id: ID, ip: Addr, params: Params)

  /** A record as the server stores it; NoAddr is content that does not parse. */
  datatype Entry = Entry(ip: Addr, params: Params)

  /** The server's records of one domain and record type. */
  type Zone = map<ID, Entry>

  /** The comment selector of one updater instance. */
  type Selector = string -> bool

  predicate Managed(sel: Selector, zone: Zone, id: ID) {
    id in zone && sel(zone[id].params.comment)
  }

  datatype Call =
    | Update(id: ID, ip: Addr, params: Params)
    | Create(ip: Addr, params: Params)
    | Delete(id: ID)

  /** How the server answered: the zone lookup failed, the result is unknown, or the call is confirmed. */
  datatype Outcome = ZoneUnknown | Unconfirmed(applied: bool) | Confirmed

  /** `stored` is the metadata the server kept for a write and `newId` the ID it gave a created record;
      `expired` says that the cache entry expired before the call looked at it. */
  datatype Event = Event(outcome: Outcome, expired: bool, newId: ID, stored: Params)

  predicate Applied(ev: Event) {
    ev.outcome.Confirmed? || (ev.outcome.Unconfirmed? && ev.outcome.applied)
  }

  /** New IDs are fresh, and only existing records can be updated. */
  predicate Possible(zone: Zone, call: Call, ev: Event) {
    Applied(ev) ==>
      match call
      case Update(id, _, _) => id in zone
      case Create(_, _) => ev.newId !in zone
      case Delete(_) => true
  }

  function Effect(zone: Zone, call: Call, ev: Event): Zone {
    if !Applied(ev) then zone
    else
      match call
      case Update(id, ip, _) => zone[id := Entry(ip, ev.stored)]
      case Create(ip, _) => zone[ev.newId := Entry(ip, ev.stored)]
      case Delete(id) => zone - {id}
  }

  /** The server keeps a written comment inside the scope it was sent for. */
  predicate KeepsScope(sel: Selector, call: Call, ev: Event) {
    match call
    case Update(_, _, p) => sel(p.comment) == sel(ev.stored.comment)
    case Create(_, p) => sel(p.comment) == sel(ev.stored.comment)
    case Delete(_) => true
  }

  // ---------------------------------------------------------------------------
  // Listings, targets and covers

  predicate DistinctIds(rs: seq<Record>) {
    forall i, j :: 0 <= i < j < |rs| ==> rs[i].id != rs[j].id
  }

  function IdsOf(rs: seq<Record>): (ids: seq<ID>)
    ensures |ids| == |rs|
  {
    seq(|rs|, i requires 0 <= i < |rs| => rs[i].id)
  }

  predicate HasId(rs: seq<Record>, id: ID) {
    exists i :: 0 <= i < |rs| && rs[i].id == id
  }

  /** rs says the truth about ID, address and scope of every record it lists. */
  predicate Truthful(sel: Selector, zone: Zone, rs: seq<Record>) {
    forall i :: 0 <= i < |rs| ==>
      Managed(sel, zone, rs[i].id) && zone[rs[i].id].ip == rs[i].ip && sel(rs[i].params.comment)
  }

  /** rs lists exactly the managed records of the zone, each once. */
  ghost predicate Exact(sel: Selector, zone: Zone, rs: seq<Record>) {
    && DistinctIds(rs)
    && Truthful(sel, zone, rs)
    && (forall id :: Managed(sel, zone, id) ==> HasId(rs, id))
  }

  /** What a caller of SetIPs promises about its targets. */
  predicate TargetSet(targets: seq<Addr>) {
    Distinct(targets) && forall t :: t in targets ==> Canonical(t)
  }

  ghost predicate Covers(sel: Selector, zone: Zone, t: Addr) {
    exists id :: Managed(sel, zone, id) && Unmap(zone[id].ip) == t
  }

  /** The managed addresses are exactly the targets. */
  ghost predicate ExactCover(sel: Selector, zone: Zone, targets: seq<Addr>) {
    && (forall id :: Managed(sel, zone, id) ==> Unmap(zone[id].ip) in targets)
    && (forall t :: t in targets ==> Covers(sel, zone, t))
  }

  /** Both zones hold the same managed records. */
  ghost predicate SameView(sel: Selector, a: Zone, b: Zone) {
    forall id :: (Managed(sel, a, id) || Managed(sel, b, id)) ==> id in a && id in b && a[id] == b[id]
  }

  // ---------------------------------------------------------------------------
  // The plan

  predicate Keeps(targets: seq<Addr>, r: Record) {
    IsValid(Unmap(r.ip)) && Unmap(r.ip) in targets
  }

  function Outdated(targets: seq<Addr>, rs: seq<Record>): seq<Record> {
    if |rs| == 0 then []
    else
      var rest := Outdated(targets, rs[..|rs| - 1]);
      if Keeps(targets, rs[|rs| - 1]) then rest else rest + [rs[|rs| - 1]]
  }

  predicate Listed(rs: seq<Record>, t: Addr) {
    exists i :: 0 <= i < |rs| && Unmap(rs[i].ip) == t
  }

  function Unmatched(targets: seq<Addr>, rs: seq<Record>): seq<Addr> {
    if |targets| == 0 then []
    else
      var rest := Unmatched(targets[..|targets| - 1], rs);
      if Listed(rs, targets[|targets| - 1]) then rest else rest + [targets[|targets| - 1]]
  }

  /** The value all sources agree on, or the fallback. */
  function ResolveScalar<T(==)>(fallback: T, values: seq<T>): T {
    if |values| > 0 && forall i :: 0 <= i < |values| ==> values[i] == values[0] then values[0] else fallback
  }

  function TTLOf(r: Record): int { r.params.ttl }
  function ProxiedOf(r: Record): bool { r.params.proxied }
  function CommentOf(r: Record): string { r.params.comment }
  function TagsOf(r: Record): seq<string> { r.params.tags }

  function Column<T>(f: Record -> T, rs: seq<Record>): seq<T> {
    seq(|rs|, i requires 0 <= i < |rs| => f(rs[i]))
  }

  /** p is the metadata resolved from the outdated records. */
  ghost predicate IsResolved(fallback: Params, outdated: seq<Record>, p: Params) {
    && p.ttl == ResolveScalar(fallback.ttl, Column(TTLOf, outdated))
    && p.proxied == ResolveScalar(fallback.proxied, Column(ProxiedOf, outdated))
    && p.comment == ResolveScalar(fallback.comment, Column(CommentOf, outdated))
    && Tags.IsInherited(Column(TagsOf, outdated), p.tags)
  }

  predicate SameParams(a: Params, b: Params) {
    a.ttl == b.ttl && a.proxied == b.proxied && a.comment == b.comment && Tags.KeySet(a.tags) == Tags.KeySet(b.tags)
  }

  /** The records whose metadata is (or is not) already p, in listing order. */
  function Select(p: Params, rs: seq<Record>, same: bool): seq<Record> {
    if |rs| == 0 then []
    else
      var rest := Select(p, rs[..|rs| - 1], same);
      if SameParams(rs[|rs| - 1].params, p) == same then rest + [rs[|rs| - 1]] else rest
  }

  predicate RecordLe(a: Record, b: Record) { StringLe(a.id, b.id) }

  /** The order in which outdated records are recycled and then deleted. */
  function Ordered(p: Params, outdated: seq<Record>): seq<Record> {
    Sort(RecordLe, Select(p, outdated, true)) + Sort(RecordLe, Select(p, outdated, false))
  }

  function PlanLength(unmatched: seq<Addr>, queue: seq<Record>): nat {
    if |unmatched| > |queue| then |unmatched| else |queue|
  }

  /** Recycle while both last, then create what is missing or delete what is left. */
  function PlanCall(unmatched: seq<Addr>, queue: seq<Record>, p: Params, k: nat): Call
    requires k < PlanLength(unmatched, queue)
  {
    if k < |unmatched| then
      if k < |queue| then Update(queue[k].id, unmatched[k], p) else Create(unmatched[k], p)
    else Delete(queue[k].id)
  }

  /** Everything SetIPs decides from one listing. */
  ghost predicate Planned(targets: seq<Addr>, rs: seq<Record>, fallback: Params,
                          unmatched: seq<Addr>, queue: seq<Record>, p: Params) {
    && unmatched == Unmatched(targets, rs)
    && IsResolved(fallback, Outdated(targets, rs), p)
    && queue == Ordered(p, Outdated(targets, rs))
  }

  // ---------------------------------------------------------------------------
  // Members of the plan's parts

  lemma {:induction false} OutdatedCount(targets: seq<Addr>, rs: seq<Record>, r: Record)
    ensures multiset(Outdated(targets, rs))[r] == if Keeps(targets, r) then 0 else multiset(rs)[r]
  {
    if |rs| > 0 {
      assert rs == rs[..|rs| - 1] + [rs[|rs| - 1]];
      OutdatedCount(targets, rs[..|rs| - 1], r);
    }
  }

  lemma {:induction false} SelectCount(p: Params, rs: seq<Record>, same: bool, r: Record)
    ensures multiset(Select(p, rs, same))[r] == if SameParams(r.params, p) == same then multiset(rs)[r] else 0
  {
    hide SameParams;
    if |rs| > 0 {
      assert rs == rs[..|rs| - 1] + [rs[|rs| - 1]];
      SelectCount(p, rs[..|rs| - 1], same, r);
    }
  }

  lemma {:induction false} UnmatchedMembers(targets: seq<Addr>, rs: seq<Record>)
    ensures forall t :: t in Unmatched(targets, rs) <==> t in targets && !Listed(rs, t)
    ensures Distinct(targets) ==> Distinct(Unmatched(targets, rs))
  {
    if |targets| > 0 {
      assert targets == targets[..|targets| - 1] + [targets[|targets| - 1]];
      UnmatchedMembers(targets[..|targets| - 1], rs);
    }
  }

  lemma RecordOrdering(rs: seq<Record>)
    ensures Ordering(RecordLe)
    ensures DistinctIds(rs) ==> NoTies(RecordLe, rs)
  {
    StringOrdering();
    forall a: Record, b: Record, c: Record | RecordLe(a, b) && RecordLe(b, c) ensures RecordLe(a, c) {
      StringTransitive(a.id, b.id, c.id);
    }
    forall a: Record, b: Record ensures RecordLe(a, b) || RecordLe(b, a) { StringTotal(a.id, b.id); }
    if DistinctIds(rs) {
      forall a, b | a in rs && b in rs && RecordLe(a, b) && RecordLe(b, a) ensures a == b {
        StringAntisymmetric(a.id, b.id);
      }
    }
  }

  /** Ordering the outdated records loses and duplicates none. */
  lemma OrderedPermutes(p: Params, outdated: seq<Record>)
    ensures multiset(Ordered(p, outdated)) == multiset(outdated)
    ensures |Ordered(p, outdated)| == |outdated|
  {
    RecordOrdering(outdated);
    var yes, no := Select(p, outdated, true), Select(p, outdated, false);
    SortSorts(RecordLe, yes);
    SortSorts(RecordLe, no);
    hide SameParams, Sort;
    forall r ensures multiset(yes + no)[r] == multiset(outdated)[r] {
      SelectCount(p, outdated, true, r);
      SelectCount(p, outdated, false, r);
    }
    assert multiset(Ordered(p, outdated)) == multiset(outdated);
    assert |multiset(Ordered(p, outdated))| == |Ordered(p, outdated)|;
    assert |multiset(outdated)| == |outdated|;
  }

  lemma DistinctIdsPermutation(a: seq<Record>, b: seq<Record>)
    requires DistinctIds(a) && multiset(b) <= multiset(a)
    ensures DistinctIds(b)
  {
    assert Distinct(a);
    forall i, j | 0 <= i < j < |b| ensures b[i].id != b[j].id {
      assert b[i] in multiset(a) && b[j] in multiset(a);
      assert b[i] in a && b[j] in a;
      if b[i] == b[j] {
        assert b == b[..i] + [b[i]] + b[i + 1..j] + [b[j]] + b[j + 1..];
        assert multiset(b)[b[i]] >= 2;
        DistinctCount(a, b[i]);
      }
    }
  }

  /** The queue holds exactly the listed records that satisfy no target, each once. */
  lemma QueueMembers(targets: seq<Addr>, rs: seq<Record>, p: Params)
    requires DistinctIds(rs)
    ensures var queue := Ordered(p, Outdated(targets, rs));
      && DistinctIds(queue)
      && (forall r :: r in queue <==> r in rs && !Keeps(targets, r))
  {
    var outdated := Outdated(targets, rs);
    var queue := Ordered(p, outdated);
    OrderedPermutes(p, outdated);
    hide Ordered, Keeps;
    assert multiset(outdated) <= multiset(rs) by {
      forall r ensures multiset(outdated)[r] <= multiset(rs)[r] { OutdatedCount(targets, rs, r); }
    }
    DistinctIdsPermutation(rs, queue);
    forall r ensures r in queue <==> r in rs && !Keeps(targets, r) {
      OutdatedCount(targets, rs, r);
      assert r in queue <==> r in multiset(queue);
      assert r in rs <==> r in multiset(rs);
    }
  }

  // ---------------------------------------------------------------------------
  // The listing's order is irrelevant

  lemma ResolveScalarElements<T>(fallback: T, a: seq<T>, b: seq<T>)
    requires forall x :: x in a <==> x in b
    ensures ResolveScalar(fallback, a) == ResolveScalar(fallback, b)
  {
    if |a| > 0 {
      assert a[0] in b;
      assert b[0] in a;
      assert forall i :: 0 <= i < |b| ==> b[i] in a;
      assert forall i :: 0 <= i < |a| ==> a[i] in b;
    }
  }

  lemma ColumnElements<T>(f: Record -> T, a: seq<Record>, b: seq<Record>)
    requires forall r :: r in a ==> r in b
    ensures forall x :: x in Column(f, a) ==> x in Column(f, b)
  {
    forall x | x in Column(f, a) ensures x in Column(f, b) {
      var i :| 0 <= i < |a| && f(a[i]) == x;
      assert a[i] in b;
      var j :| 0 <= j < |b| && b[j] == a[i];
      assert Column(f, b)[j] == x;
    }
  }

  lemma ResolveColumn<T>(f: Record -> T, fallback: T, a: seq<Record>, b: seq<Record>)
    requires forall r :: r in a <==> r in b
    ensures ResolveScalar(fallback, Column(f, a)) == ResolveScalar(fallback, Column(f, b))
  {
    ColumnElements(f, a, b);
    ColumnElements(f, b, a);
    ResolveScalarElements(fallback, Column(f, a), Column(f, b));
  }

  /** Metadata resolution is determined, and independent of the order of its sources. */
  lemma ResolutionUnique(fallback: Params, a: seq<Record>, b: seq<Record>, p: Params, q: Params)
    requires multiset(a) == multiset(b)
    requires IsResolved(fallback, a, p) && IsResolved(fallback, b, q)
    ensures p == q
  {
    hide ResolveScalar, Column, Tags.Lists;
    SameElements(a, b);
    ResolveColumn(TTLOf, fallback.ttl, a, b);
    ResolveColumn(ProxiedOf, fallback.proxied, a, b);
    ResolveColumn(CommentOf, fallback.comment, a, b);
    ColumnElements(TagsOf, a, b);
    ColumnElements(TagsOf, b, a);
    assert Tags.Shape(Column(TagsOf, a)) == Tags.Shape(Column(TagsOf, b));
    Tags.ResolveOrderIndependent(Column(TagsOf, a), Column(TagsOf, b), q.tags);
    Tags.ListsUnique(Tags.TagsOf(Column(TagsOf, a)), Tags.InheritedKeys(Column(TagsOf, a)), p.tags, q.tags);
  }

  lemma {:induction false} UnmatchedPermutation(targets: seq<Addr>, a: seq<Record>, b: seq<Record>)
    requires forall r :: r in a <==> r in b
    ensures Unmatched(targets, a) == Unmatched(targets, b)
  {
    if |targets| > 0 {
      var t := targets[|targets| - 1];
      UnmatchedPermutation(targets[..|targets| - 1], a, b);
      assert Listed(a, t) <==> exists r :: r in a && Unmap(r.ip) == t;
      assert Listed(b, t) <==> exists r :: r in b && Unmap(r.ip) == t;
    }
  }

  /** SetIPs decides the same calls for every permutation of a listing with distinct IDs. */
  lemma PlanOrderIndependent(targets: seq<Addr>, fallback: Params,
                             a: seq<Record>, unmatched: seq<Addr>, queue: seq<Record>, p: Params,
                             b: seq<Record>, unmatched': seq<Addr>, queue': seq<Record>, p': Params)
    requires DistinctIds(a) && multiset(a) == multiset(b)
    requires Planned(targets, a, fallback, unmatched, queue, p)
    requires Planned(targets, b, fallback, unmatched', queue', p')
    ensures unmatched == unmatched' && p == p' && queue == queue'
  {
    hide Keeps, SameParams, IsResolved, Sort;
    var oa, ob := Outdated(targets, a), Outdated(targets, b);
    SameElements(a, b);
    UnmatchedPermutation(targets, a, b);
    assert multiset(oa) == multiset(ob) by {
      forall r ensures multiset(oa)[r] == multiset(ob)[r] {
        OutdatedCount(targets, a, r);
        OutdatedCount(targets, b, r);
      }
    }
    ResolutionUnique(fallback, oa, ob, p, p');
    assert multiset(oa) <= multiset(a) by {
      forall r ensures multiset(oa)[r] <= multiset(a)[r] { OutdatedCount(targets, a, r); }
    }
    DistinctIdsPermutation(a, oa);
    SortedSelection(p, oa, ob, true);
    SortedSelection(p, oa, ob, false);
  }

  lemma SortedSelection(p: Params, a: seq<Record>, b: seq<Record>, same: bool)
    requires DistinctIds(a) && multiset(a) == multiset(b)
    ensures Sort(RecordLe, Select(p, a, same)) == Sort(RecordLe, Select(p, b, same))
  {
    hide SameParams, Sort;
    var sa, sb := Select(p, a, same), Select(p, b, same);
    forall r ensures multiset(sa)[r] == multiset(sb)[r] && multiset(sa)[r] <= multiset(a)[r] {
      SelectCount(p, a, same, r);
      SelectCount(p, b, same, r);
    }
    assert multiset(sa) == multiset(sb) && multiset(sa) <= multiset(a);
    DistinctIdsPermutation(a, sa);
    RecordOrdering(sa);
    SortPermutation(RecordLe, sa, sb);
  }
}
