/** What SetIPs does to the records, in terms of the listing alone: which are recycled, in which order, as what. */
module Recycling {
  import opened Results
  import opened Addresses
  import opened Sorting
  import opened Reconcile
  import opened Execution
  import opened Cache
  import Tags

  // ---------------------------------------------------------------------------
  // The decision

  /** r already has the metadata p: TTL, proxy status, comment, and tags up to spelling. */
  predicate Bears(r: Record, p: Params) {
    r.params.ttl == p.ttl && r.params.proxied == p.proxied && r.params.comment == p.comment
    && Tags.KeySet(r.params.tags) == Tags.KeySet(p.tags)
  }

  /** Records that already bear p come first; within either group the IDs increase. */
  ghost predicate MatchingFirst(queue: seq<Record>, p: Params) {
    && (forall i, j :: 0 <= i < j < |queue| && Bears(queue[j], p) ==> Bears(queue[i], p))
    && (forall i, j :: 0 <= i < j < |queue| && Bears(queue[i], p) == Bears(queue[j], p) ==>
      Precedes(queue[i].id, queue[j].id))
  }

  ghost predicate IncreasingIds(rs: seq<Record>) {
    forall i, j :: 0 <= i < j < |rs| ==> Precedes(rs[i].id, rs[j].id)
  }

  /** The members of part stand in it as they do in all. */
  ghost predicate InOrder(all: seq<Addr>, part: seq<Addr>) {
    forall i, j, a, b :: 0 <= i < j < |part| && 0 <= a < |all| && 0 <= b < |all| ==>
      all[a] == part[i] && all[b] == part[j] ==> a < b
  }

  /** Scalars are those all records of the queue share, or the fallback's if there are none or two differ. */
  ghost predicate ScalarsSettled(fallback: Params, queue: seq<Record>, p: Params) {
    && (if queue != [] && forall r, s :: r in queue && s in queue ==> r.params.ttl == s.params.ttl
        then forall r :: r in queue ==> p.ttl == r.params.ttl else p.ttl == fallback.ttl)
    && (if queue != [] && forall r, s :: r in queue && s in queue ==> r.params.proxied == s.params.proxied
        then forall r :: r in queue ==> p.proxied == r.params.proxied else p.proxied == fallback.proxied)
    && (if queue != [] && forall r, s :: r in queue && s in queue ==> r.params.comment == s.params.comment
        then forall r :: r in queue ==> p.comment == r.params.comment else p.comment == fallback.comment)
  }

  /** Tags are those all records of the queue share up to spelling, each once, spelt as in one of them. */
  ghost predicate TagsSettled(queue: seq<Record>, p: Params) {
    && (forall k :: k in Tags.KeySet(p.tags) <==>
      queue != [] && forall r :: r in queue ==> k in Tags.KeySet(r.params.tags))
    && (forall i, j :: 0 <= i < j < |p.tags| ==> Tags.CanonicalKey(p.tags[i]) != Tags.CanonicalKey(p.tags[j]))
    && (forall t :: t in p.tags ==> exists r :: r in queue && t in r.params.tags)
  }

  /** The targets no listed record has, in their order; and the listed records that have no target. */
  ghost predicate Divides(targets: seq<Addr>, listing: seq<Record>, unmatched: seq<Addr>, queue: seq<Record>) {
    && (forall t :: t in unmatched <==> t in targets && forall r :: r in listing ==> Unmap(r.ip) != t)
    && InOrder(targets, unmatched)
    && (forall r :: r in queue <==> r in listing && Unmap(r.ip) !in targets)
    && DistinctIds(queue)
  }

  ghost predicate Decides(targets: seq<Addr>, listing: seq<Record>, fallback: Params,
                          unmatched: seq<Addr>, queue: seq<Record>, p: Params) {
    && Divides(targets, listing, unmatched, queue)
    && MatchingFirst(queue, p) && ScalarsSettled(fallback, queue, p) && TagsSettled(queue, p)
  }

  lemma {:induction false} SelectBears(p: Params, rs: seq<Record>, same: bool)
    ensures forall r :: r in Select(p, rs, same) ==> r in rs && Bears(r, p) == same
  {
    hide Tags.KeySet;
    if |rs| > 0 { SelectBears(p, rs[..|rs| - 1], same); }
  }

  lemma SortedIds(rs: seq<Record>)
    requires DistinctIds(rs)
    ensures var sorted := Sort(RecordLe, rs);
      && (forall r :: r in sorted <==> r in rs)
      && IncreasingIds(sorted)
  {
    hide Sort, Precedes, StringLe;
    var sorted := Sort(RecordLe, rs);
    RecordOrdering(rs);
    SortSorts(RecordLe, rs);
    SortElements(RecordLe, rs);
    DistinctIdsPermutation(rs, sorted);
    forall i, j | 0 <= i < j < |sorted| ensures Precedes(sorted[i].id, sorted[j].id) {
      assert RecordLe(sorted[i], sorted[j]);
      StringLeMeans(sorted[i].id, sorted[j].id);
    }
  }

  lemma OrderedMatchingFirst(p: Params, outdated: seq<Record>)
    requires DistinctIds(outdated)
    ensures MatchingFirst(Ordered(p, outdated), p)
  {
    hide Tags.KeySet, Precedes, Bears, Sort, IncreasingIds, MatchingFirst;
    var yes, no := Select(p, outdated, true), Select(p, outdated, false);
    SelectBears(p, outdated, true);
    SelectBears(p, outdated, false);
    SelectDistinct(p, outdated, true);
    SelectDistinct(p, outdated, false);
    SortedIds(yes);
    SortedIds(no);
    hide Select;
    TwoGroups(Sort(RecordLe, yes), Sort(RecordLe, no), p);
  }

  lemma TwoGroups(yes: seq<Record>, no: seq<Record>, p: Params)
    requires (forall r :: r in yes ==> Bears(r, p)) && (forall r :: r in no ==> !Bears(r, p))
    requires IncreasingIds(yes) && IncreasingIds(no)
    ensures MatchingFirst(yes + no, p)
  {
    hide Precedes, Bears;
    var queue := yes + no;
    assert forall i :: 0 <= i < |queue| ==> queue[i] == if i < |yes| then yes[i] else no[i - |yes|];
    assert forall i :: 0 <= i < |yes| ==> yes[i] in yes;
    assert forall i :: 0 <= i < |no| ==> no[i] in no;
  }

  lemma SelectDistinct(p: Params, rs: seq<Record>, same: bool)
    requires DistinctIds(rs)
    ensures DistinctIds(Select(p, rs, same))
  {
    hide Select;
    forall r ensures multiset(Select(p, rs, same))[r] <= multiset(rs)[r] { SelectCount(p, rs, same, r); }
    DistinctIdsPermutation(rs, Select(p, rs, same));
  }

  lemma SettledScalar<T(!new)>(fallback: T, f: Record -> T, queue: seq<Record>)
    ensures var v := ResolveScalar(fallback, Column(f, queue));
      if queue != [] && forall r, s :: r in queue && s in queue ==> f(r) == f(s)
      then forall r :: r in queue ==> v == f(r) else v == fallback
  {
    var values := Column(f, queue);
    assert forall i :: 0 <= i < |queue| ==> queue[i] in queue && values[i] == f(queue[i]);
  }

  lemma ResolvedScalars(fallback: Params, queue: seq<Record>, p: Params)
    requires IsResolved(fallback, queue, p)
    ensures ScalarsSettled(fallback, queue, p)
  {
    hide ResolveScalar, Column, Tags.IsInherited;
    SettledScalar(fallback.ttl, TTLOf, queue);
    SettledScalar(fallback.proxied, ProxiedOf, queue);
    SettledScalar(fallback.comment, CommentOf, queue);
    assert forall r: Record ::
      TTLOf(r) == r.params.ttl && ProxiedOf(r) == r.params.proxied && CommentOf(r) == r.params.comment;
  }

  lemma ResolvedTags(fallback: Params, queue: seq<Record>, p: Params)
    requires IsResolved(fallback, queue, p)
    ensures TagsSettled(queue, p)
  {
    hide ResolveScalar, Tags.CanonicalKey, StringLe;
    var sets := Column(TagsOf, queue);
    ColumnTags(queue);
    hide Column;
    forall t | t in p.tags ensures exists r :: r in queue && t in r.params.tags {
      InheritedTag(sets, p.tags, t);
      var x :| x in sets && t in x;
    }
    forall k ensures k in Tags.KeySet(p.tags) <==> k in Tags.InheritedKeys(sets) { InheritedKey(sets, p.tags, k); }
    forall k ensures k in Tags.InheritedKeys(sets) <==>
      queue != [] && forall r :: r in queue ==> k in Tags.KeySet(r.params.tags) {
      SharedKey(queue, sets, k);
    }
  }

  lemma ColumnTags(queue: seq<Record>)
    ensures forall x :: x in Column(TagsOf, queue) <==> exists r :: r in queue && x == r.params.tags
  {
    var sets := Column(TagsOf, queue);
    forall r | r in queue ensures r.params.tags in sets {
      var i :| 0 <= i < |queue| && queue[i] == r;
      assert sets[i] == TagsOf(queue[i]);
    }
    forall x | x in sets ensures exists r :: r in queue && x == r.params.tags {
      var i :| 0 <= i < |sets| && sets[i] == x;
      assert sets[i] == TagsOf(queue[i]) && queue[i] in queue;
    }
  }

  lemma InheritedTag(sets: seq<seq<string>>, tags: seq<string>, t: string)
    requires Tags.IsInherited(sets, tags) && t in tags
    ensures exists x :: x in sets && t in x
  {
    hide Tags.CanonicalKey, Tags.InheritedKeys;
    var i :| 0 <= i < |tags| && tags[i] == t;
    assert Tags.IsLeast(Tags.TagsOf(sets), Tags.CanonicalKey(tags[i]), tags[i]);
  }

  lemma InheritedKey(sets: seq<seq<string>>, tags: seq<string>, k: string)
    requires Tags.IsInherited(sets, tags)
    ensures k in Tags.KeySet(tags) <==> k in Tags.InheritedKeys(sets)
  {
    hide Tags.CanonicalKey, Tags.InheritedKeys, Tags.IsLeast;
    if k in Tags.KeySet(tags) {
      var t :| t in tags && Tags.CanonicalKey(t) == k;
      var i :| 0 <= i < |tags| && tags[i] == t;
      assert Tags.CanonicalKey(tags[i]) in Tags.InheritedKeys(sets);
    }
    if k in Tags.InheritedKeys(sets) {
      var i :| 0 <= i < |tags| && Tags.CanonicalKey(tags[i]) == k;
      assert tags[i] in tags;
    }
  }

  lemma SharedKey(queue: seq<Record>, sets: seq<seq<string>>, k: string)
    requires forall x :: x in sets <==> exists r :: r in queue && x == r.params.tags
    ensures k in Tags.InheritedKeys(sets) <==> queue != [] && forall r :: r in queue ==> k in Tags.KeySet(r.params.tags)
  {
    hide Tags.CanonicalKey;
    assert forall r :: r in queue ==> r.params.tags in sets;
    if queue != [] && forall r :: r in queue ==> k in Tags.KeySet(r.params.tags) {
      assert queue[0] in queue && queue[0].params.tags in sets;
      var t :| t in queue[0].params.tags && Tags.CanonicalKey(t) == k;
      assert t in Tags.TagsOf(sets);
    }
  }

  /** IsResolved looks at which records there are, not at their order. */
  lemma ResolvedPermutes(fallback: Params, a: seq<Record>, b: seq<Record>, p: Params)
    requires IsResolved(fallback, a, p) && forall r :: r in a <==> r in b
    ensures IsResolved(fallback, b, p)
  {
    hide ResolveScalar, Column, Tags.Lists;
    ResolveColumn(TTLOf, fallback.ttl, a, b);
    ResolveColumn(ProxiedOf, fallback.proxied, a, b);
    ResolveColumn(CommentOf, fallback.comment, a, b);
    ColumnElements(TagsOf, a, b);
    ColumnElements(TagsOf, b, a);
    assert Tags.Shape(Column(TagsOf, a)) == Tags.Shape(Column(TagsOf, b));
    Tags.ResolveOrderIndependent(Column(TagsOf, a), Column(TagsOf, b), p.tags);
  }

  lemma {:induction false} UnmatchedInOrder(targets: seq<Addr>, rs: seq<Record>)
    requires Distinct(targets)
    ensures InOrder(targets, Unmatched(targets, rs))
  {
    hide Listed;
    if |targets| > 0 {
      var init, last := targets[..|targets| - 1], targets[|targets| - 1];
      UnmatchedInOrder(init, rs);
      UnmatchedMembers(init, rs);
      assert targets == init + [last];
      InOrderSnoc(init, Unmatched(init, rs), last);
    }
  }

  lemma InOrderSnoc(all: seq<Addr>, part: seq<Addr>, t: Addr)
    requires Distinct(all + [t]) && InOrder(all, part) && forall x :: x in part ==> x in all
    ensures InOrder(all + [t], part) && InOrder(all + [t], part + [t])
  {
    var longer, more := all + [t], part + [t];
    forall a | 0 <= a < |longer| ensures longer[a] == if a < |all| then all[a] else t {}
    forall i | 0 <= i < |part| ensures part[i] in all && part[i] != t {
      assert part[i] in part;
      var a :| 0 <= a < |all| && all[a] == part[i];
      assert longer[a] != longer[|all|];
    }
    assert forall a :: 0 <= a < |all| ==> longer[a] != longer[|all|];
    forall i, j, a, b | 0 <= i < j < |more| && 0 <= a < |longer| && 0 <= b < |longer|
        && longer[a] == more[i] && longer[b] == more[j]
      ensures a < b
    {
      assert more[i] == part[i] && longer[a] != t;
    }
  }

  lemma PlannedDivides(targets: seq<Addr>, listing: seq<Record>, unmatched: seq<Addr>, queue: seq<Record>, p: Params)
    requires DistinctIds(listing) && TargetSet(targets)
    requires unmatched == Unmatched(targets, listing) && queue == Ordered(p, Outdated(targets, listing))
    ensures Divides(targets, listing, unmatched, queue)
  {
    hide Ordered, Outdated, Unmatched, Unmap, Canonical, IsValid;
    UnmatchedMembers(targets, listing);
    UnmatchedInOrder(targets, listing);
    QueueMembers(targets, listing, p);
    forall r: Record ensures Keeps(targets, r) <==> Unmap(r.ip) in targets {
      if Unmap(r.ip) in targets { TargetsAreValid(targets, Unmap(r.ip)); }
    }
    hide Keeps;
    forall t ensures Listed(listing, t) <==> exists r :: r in listing && Unmap(r.ip) == t {
      if r :| r in listing && Unmap(r.ip) == t {
        var i :| 0 <= i < |listing| && listing[i] == r;
      }
    }
  }

  /** What SetIPs plans from a listing, told without its loops. */
  lemma PlannedDecides(targets: seq<Addr>, listing: seq<Record>, fallback: Params,
                       unmatched: seq<Addr>, queue: seq<Record>, p: Params)
    requires DistinctIds(listing) && TargetSet(targets)
    requires Planned(targets, listing, fallback, unmatched, queue, p)
    ensures Decides(targets, listing, fallback, unmatched, queue, p)
  {
    hide Ordered, Outdated, Unmatched, IsResolved, ScalarsSettled, TagsSettled, MatchingFirst, TargetSet, Divides;
    var outdated := Outdated(targets, listing);
    PlannedDivides(targets, listing, unmatched, queue, p);
    OutdatedDistinct(targets, listing);
    OrderedMatchingFirst(p, outdated);
    OrderedPermutes(p, outdated);
    SameElements(outdated, queue);
    ResolvedPermutes(fallback, outdated, queue, p);
    ResolvedScalars(fallback, queue, p);
    ResolvedTags(fallback, queue, p);
  }

  lemma OutdatedDistinct(targets: seq<Addr>, rs: seq<Record>)
    requires DistinctIds(rs)
    ensures DistinctIds(Outdated(targets, rs))
  {
    hide Outdated, Keeps;
    forall r ensures multiset(Outdated(targets, rs))[r] <= multiset(rs)[r] { OutdatedCount(targets, rs, r); }
    DistinctIdsPermutation(rs, Outdated(targets, rs));
  }

  // ---------------------------------------------------------------------------
  // The effect

  /** Recycle from the front of the queue, then create what is missing or delete what is left. */
  ghost predicate Issues(unmatched: seq<Addr>, queue: seq<Record>, p: Params, steps: seq<Step>) {
    forall k :: 0 <= k < |steps| ==> Issued(unmatched, queue, p, k, steps[k].call)
  }

  predicate Issued(unmatched: seq<Addr>, queue: seq<Record>, p: Params, k: nat, call: Call) {
    if k < |unmatched| && k < |queue| then call == Update(queue[k].id, unmatched[k], p)
    else if k < |unmatched| then call == Create(unmatched[k], p)
    else k < |queue| && call == Delete(queue[k].id)
  }

  /** What the server kept of each write is what it keeps of the metadata sent. */
  ghost predicate StoredBy(stores: Params -> Params, steps: seq<Step>) {
    forall k :: 0 <= k < |steps| && Applied(steps[k].ev) && !steps[k].call.Delete? ==>
      steps[k].ev.stored == stores(steps[k].call.params)
  }

  /** All that changed is: recycled and created records have a missing target and the settled metadata,
      and some records of the queue are gone. */
  ghost predicate OnlyRecycled(before: Zone, now: Zone, stores: Params -> Params,
                               unmatched: seq<Addr>, queue: seq<Record>, p: Params) {
    && (forall id :: id in now && (id !in before || now[id] != before[id]) ==>
      now[id].ip in unmatched && now[id].params == stores(p))
    && (forall id :: id in before && (id !in now || now[id] != before[id]) ==> HasId(queue, id))
  }

  /** Record k of the queue has been dealt with: it now is target k, or it is gone. */
  ghost predicate Settled(now: Zone, stores: Params -> Params, unmatched: seq<Addr>, queue: seq<Record>, p: Params,
                          k: nat)
    requires k < |queue|
  {
    if k < |unmatched| then queue[k].id in now && now[queue[k].id] == Entry(unmatched[k], stores(p))
    else queue[k].id !in now
  }

  lemma {:induction false} RunOnlyRecycles(zone: Zone, steps: seq<Step>, stores: Params -> Params,
                                           unmatched: seq<Addr>, queue: seq<Record>, p: Params)
    requires Feasible(zone, steps) && Issues(unmatched, queue, p, steps) && StoredBy(stores, steps)
    ensures OnlyRecycled(zone, Run(zone, steps), stores, unmatched, queue, p)
    decreases |steps|
  {
    if |steps| > 0 {
      hide *;
      var n := |steps| - 1;
      FeasiblePrefix(zone, steps, n);
      IssuesPrefix(zone, steps, stores, unmatched, queue, p);
      RunOnlyRecycles(zone, steps[..n], stores, unmatched, queue, p);
      RecycleStep(zone, Run(zone, steps[..n]), steps[n], n, stores, unmatched, queue, p);
    }
  }

  lemma RecycleStep(zone: Zone, mid: Zone, step: Step, n: nat, stores: Params -> Params,
                    unmatched: seq<Addr>, queue: seq<Record>, p: Params)
    requires Issued(unmatched, queue, p, n, step.call) && Possible(mid, step.call, step.ev)
    requires step.call.Delete? || !Applied(step.ev) || step.ev.stored == stores(step.call.params)
    requires OnlyRecycled(zone, mid, stores, unmatched, queue, p)
    ensures OnlyRecycled(zone, Effect(mid, step.call, step.ev), stores, unmatched, queue, p)
  {
    if !step.call.Create? { assert queue[n].id == step.call.id && HasId(queue, step.call.id); }
  }

  /** Confirmed calls deal with the queue from the front. */
  lemma {:induction false} RunSettles(zone: Zone, steps: seq<Step>, stores: Params -> Params,
                                      unmatched: seq<Addr>, queue: seq<Record>, p: Params, k: nat)
    requires Feasible(zone, steps) && Issues(unmatched, queue, p, steps) && StoredBy(stores, steps)
    requires DistinctIds(queue) && k < |queue| && k < |steps| && forall j :: 0 <= j < |steps| ==>
      steps[j].ev.outcome.Confirmed?
    ensures Settled(Run(zone, steps), stores, unmatched, queue, p, k)
    decreases |steps|
  {
    hide *;
    var n := |steps| - 1;
    var init, last := steps[..n], steps[n];
    FeasiblePrefix(zone, steps, n);
    IssuesPrefix(zone, steps, stores, unmatched, queue, p);
    if k < n { RunSettles(zone, init, stores, unmatched, queue, p, k); }
    SettleStep(Run(zone, init), last, n, stores, unmatched, queue, p, k);
  }

  /** The last step of a run, and the run before it. */
  lemma IssuesPrefix(zone: Zone, steps: seq<Step>, stores: Params -> Params,
                     unmatched: seq<Addr>, queue: seq<Record>, p: Params)
    requires |steps| > 0 && Feasible(zone, steps) && Issues(unmatched, queue, p, steps) && StoredBy(stores, steps)
    ensures var n, last := |steps| - 1, steps[|steps| - 1];
      && Issues(unmatched, queue, p, steps[..n]) && StoredBy(stores, steps[..n])
      && Run(zone, steps) == Effect(Run(zone, steps[..n]), last.call, last.ev)
      && Possible(Run(zone, steps[..n]), last.call, last.ev)
      && Issued(unmatched, queue, p, n, last.call)
      && (last.call.Delete? || !Applied(last.ev) || last.ev.stored == stores(last.call.params))
  {
    hide Possible, Effect, Applied, Issued;
  }

  /** Call n settles record n and leaves the settled ones so. */
  lemma SettleStep(mid: Zone, step: Step, n: nat, stores: Params -> Params,
                   unmatched: seq<Addr>, queue: seq<Record>, p: Params, k: nat)
    requires DistinctIds(queue) && k < |queue| && k <= n && step.ev.outcome.Confirmed?
      && Possible(mid, step.call, step.ev)
    requires Issued(unmatched, queue, p, n, step.call)
    requires step.call.Delete? || !Applied(step.ev) || step.ev.stored == stores(step.call.params)
    requires k < n ==> Settled(mid, stores, unmatched, queue, p, k)
    ensures Settled(Effect(mid, step.call, step.ev), stores, unmatched, queue, p, k)
  {
    if k < n && n < |queue| { assert queue[k].id != queue[n].id; }
  }

  /** A completed plan has dealt with the whole queue. */
  lemma PlanSettles(zone: Zone, steps: seq<Step>, stores: Params -> Params,
                    unmatched: seq<Addr>, queue: seq<Record>, p: Params)
    requires Feasible(zone, steps) && Issues(unmatched, queue, p, steps) && StoredBy(stores, steps)
    requires DistinctIds(queue) && |queue| <= |steps| && forall j :: 0 <= j < |steps| ==> steps[j].ev.outcome.Confirmed?
    ensures forall k :: 0 <= k < |queue| ==> Settled(Run(zone, steps), stores, unmatched, queue, p, k)
  {
    hide Settled, Run, Feasible, Issues, StoredBy;
    forall k | 0 <= k < |queue| ensures Settled(Run(zone, steps), stores, unmatched, queue, p, k) {
      RunSettles(zone, steps, stores, unmatched, queue, p, k);
    }
  }

  lemma PlanIssues(unmatched: seq<Addr>, queue: seq<Record>, p: Params, steps: seq<Step>)
    requires |steps| <= PlanLength(unmatched, queue)
    requires forall k :: 0 <= k < |steps| ==> steps[k].call == PlanCall(unmatched, queue, p, k)
    ensures Issues(unmatched, queue, p, steps)
  {
  }

  // ---------------------------------------------------------------------------
  // What the cache remembers of metadata

  /** Every cached record bears what the server stores for it, or, as created ones may, what it was asked to store. */
  ghost predicate Remembers(stores: Params -> Params, zone: Zone, cache: Option<seq<Record>>) {
    cache.Some? ==> forall r :: r in cache.value ==>
      r.id in zone && (zone[r.id].params == r.params || zone[r.id].params == stores(r.params))
  }

  /** Regular-mode calls keep it so. */
  lemma RememberStep(sel: Selector, stores: Params -> Params, zone: Zone, cache: Option<seq<Record>>, call: Call,
                     ev: Event)
    requires Coherent(sel, zone, cache) && Remembers(stores, zone, cache) && Possible(zone, call, ev)
    requires ev.outcome.Confirmed? && !call.Delete? ==> ev.stored == stores(call.params)
    ensures Remembers(stores, Effect(zone, call, ev), CacheAfter(sel, cache, call, ev, RegularDeletion))
  {
    var zone', after := Effect(zone, call, ev), CacheAfter(sel, cache, call, ev, RegularDeletion);
    if after.Some? && ev.outcome.Confirmed? {
      match call
      case Delete(id) => RemoveIdMembers(cache.value, id);
      case Update(id, ip, _) =>
        if sel(ev.stored.comment) {
          UpsertMembers(cache.value, Record(id, ip, ev.stored));
        } else {
          RemoveIdMembers(cache.value, id);
        }
      case Create(_, _) =>
    }
  }

  // ---------------------------------------------------------------------------
  // What the loops of SetIPs carry along

  lemma StoredExtends(stores: Params -> Params, steps: seq<Step>, step: Step)
    requires StoredBy(stores, steps)
    requires Applied(step.ev) && !step.call.Delete? ==> step.ev.stored == stores(step.call.params)
    ensures StoredBy(stores, steps + [step])
  {
    assert forall k :: 0 <= k < |steps| ==> (steps + [step])[k] == steps[k];
  }

  /** Every cached record, then, is one the server remembers. */
  lemma FreshRemembers(sel: Selector, stores: Params -> Params, zone: Zone, rs: seq<Record>)
    requires forall r :: r in rs ==> r.id in zone && zone[r.id].params == r.params
    ensures Remembers(stores, zone, Some(rs))
  {
  }
}
