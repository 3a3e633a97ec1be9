/** The reconciler: SetIPs and FinalDelete against one API handle. */
module Setter {
  import opened Results
  import opened Addresses
  import opened Sorting
  import opened Reconcile
  import opened Execution
  import opened Cache
  import opened Handle
  import opened Recycling
  import Tags

  /** The listed records of one target, in listing order. */
  function MatchesOf(rs: seq<Record>, t: Addr): seq<Record> {
    if |rs| == 0 then []
    else
      var rest := MatchesOf(rs[..|rs| - 1], t);
      if Unmap(rs[|rs| - 1].ip) == t then rest + [rs[|rs| - 1]] else rest
  }

  lemma {:induction false} MatchesListed(rs: seq<Record>, t: Addr)
    ensures MatchesOf(rs, t) != [] <==> Listed(rs, t)
  {
    if |rs| > 0 {
      var init := rs[..|rs| - 1];
      MatchesListed(init, t);
      assert forall i :: 0 <= i < |init| ==> init[i] == rs[i];
    }
  }

  /** Only targets with a listed record have an entry. */
  ghost predicate Buckets(targets: seq<Addr>, rs: seq<Record>, matched: map<Addr, seq<Record>>) {
    && (forall t :: t in matched ==> IsValid(t) && t in targets && matched[t] != [] && matched[t] == MatchesOf(rs, t))
    && (forall t :: t in targets && IsValid(t) && t !in matched ==> MatchesOf(rs, t) == [])
  }

  lemma BucketStep(targets: seq<Addr>, rs: seq<Record>, n: nat, matched: map<Addr, seq<Record>>)
    requires n < |rs| && Buckets(targets, rs[..n], matched)
    ensures var r, ip := rs[n], Unmap(rs[n].ip);
      Buckets(targets, rs[..n + 1],
        if Keeps(targets, r) then matched[ip := (if ip in matched then matched[ip] else []) + [r]] else matched)
  {
    hide Unmap, IsValid;
    assert rs[..n + 1][..n] == rs[..n];
  }

  method PartitionRecords(targets: seq<Addr>, a: array<Record>, n: nat)
    returns (matched: map<Addr, seq<Record>>, unmatched: seq<Addr>, outdated: seq<Record>)
    requires n <= a.Length && TargetSet(targets)
    ensures Buckets(targets, a[..n], matched)
    ensures unmatched == Unmatched(targets, a[..n])
    ensures outdated == Outdated(targets, a[..n])
  {
    hide Unmap, Canonical, IsValid;
    ghost var rs := a[..n];
    matched, outdated := map[], [];
    for i := 0 to n
      invariant Buckets(targets, rs[..i], matched)
      invariant outdated == Outdated(targets, rs[..i])
    {
      BucketStep(targets, rs, i, matched);
      assert rs[..i + 1][..i] == rs[..i];
      hide Buckets;
      var r, ip := a[i], Unmap(a[i].ip);
      if Keeps(targets, r) {
        matched := matched[ip := (if ip in matched then matched[ip] else []) + [r]];
      } else {
        outdated := outdated + [r];
      }
    }
    assert rs[..n] == rs;
    unmatched := [];
    for i := 0 to |targets|
      invariant unmatched == Unmatched(targets[..i], rs)
    {
      assert targets[..i + 1][..i] == targets[..i];
      TargetsAreValid(targets, targets[i]);
      MatchesListed(rs, targets[i]);
      if targets[i] !in matched {
        unmatched := unmatched + [targets[i]];
      }
    }
    assert targets[..|targets|] == targets;
  }

  predicate RecordsAlreadyUpToDate(targets: seq<Addr>, matched: map<Addr, seq<Record>>, outdated: seq<Record>) {
    outdated == [] && forall t :: t in targets ==> t in matched && matched[t] != []
  }

  method ResolveScalarValue<T(==)>(fallback: T, values: seq<T>) returns (value: T, ambiguous: bool)
    ensures value == ResolveScalar(fallback, values)
    ensures ambiguous <==> exists i :: 0 <= i < |values| && values[i] != values[0]
  {
    if |values| == 0 { return fallback, false; }
    for i := 1 to |values|
      invariant forall j :: 0 <= j < i ==> values[j] == values[0]
    {
      if values[i] != values[0] { return fallback, true; }
    }
    return values[0], false;
  }

  method ReconcileAndSortRecords(fallback: Params, records: seq<Record>) returns (p: Params, queue: seq<Record>)
    ensures IsResolved(fallback, records, p)
    ensures queue == Ordered(p, records)
    ensures ScalarsSettled(fallback, records, p) && TagsSettled(records, p)
    ensures DistinctIds(records) ==> MatchingFirst(queue, p)
  {
    var ttl, _ := ResolveScalarValue(fallback.ttl, Column(TTLOf, records));
    var proxied, _ := ResolveScalarValue(fallback.proxied, Column(ProxiedOf, records));
    var comment, _ := ResolveScalarValue(fallback.comment, Column(CommentOf, records));
    var tags := Tags.Resolve(Column(TagsOf, records));
    p := Params(ttl, proxied, comment, tags.inherited);
    ResolvedScalars(fallback, records, p);
    ResolvedTags(fallback, records, p);
    if DistinctIds(records) { OrderedMatchingFirst(p, records); }
    hide ResolveScalar, Tags.IsInherited, Tags.KeySet, ScalarsSettled, TagsSettled, MatchingFirst, DistinctIds;
    var matching: seq<Record>, nonMatching: seq<Record> := [], [];
    for i := 0 to |records|
      invariant matching == Select(p, records[..i], true)
      invariant nonMatching == Select(p, records[..i], false)
    {
      assert records[..i + 1][..i] == records[..i];
      var sameTags := Tags.Equal(records[i].params.tags, p.tags);
      if records[i].params.ttl == p.ttl && records[i].params.proxied == p.proxied
         && records[i].params.comment == p.comment && sameTags {
        matching := matching + [records[i]];
      } else {
        nonMatching := nonMatching + [records[i]];
      }
    }
    assert records[..|records|] == records;
    queue := Sort(RecordLe, matching) + Sort(RecordLe, nonMatching);
  }

  /** What the configuration and the API promise: written comments stay in the instance's scope. */
  ghost predicate ScopePreserving(sel: Selector, stores: Params -> Params) {
    forall p: Params :: sel(p.comment) == sel(stores(p).comment)
  }

  /** The early return of SetIPs is taken exactly when the managed addresses already are the targets. */
  lemma UpToDateIffCovered(sel: Selector, zone: Zone, targets: seq<Addr>, rs: seq<Record>,
                           matched: map<Addr, seq<Record>>, outdated: seq<Record>)
    requires Exact(sel, zone, rs) && TargetSet(targets)
    requires Buckets(targets, rs, matched) && outdated == Outdated(targets, rs)
    ensures RecordsAlreadyUpToDate(targets, matched, outdated) <==> ExactCover(sel, zone, targets)
  {
    hide Canonical, Unmap, IsValid, Buckets;
    forall t | t in targets ensures t in matched && matched[t] != [] <==> Covers(sel, zone, t) {
      TargetsAreValid(targets, t);
      BucketOf(targets, rs, matched, t);
      ListedIffCovered(sel, zone, rs, t);
    }
    OutdatedEmpty(targets, rs);
    if outdated == [] {
      forall id | Managed(sel, zone, id) ensures Unmap(zone[id].ip) in targets {
        var i :| 0 <= i < |rs| && rs[i].id == id;
        assert Keeps(targets, rs[i]);
      }
    }
    if ExactCover(sel, zone, targets) {
      forall i | 0 <= i < |rs| ensures Keeps(targets, rs[i]) {
        assert Managed(sel, zone, rs[i].id);
        TargetsAreValid(targets, Unmap(rs[i].ip));
      }
    }
  }

  lemma BucketOf(targets: seq<Addr>, rs: seq<Record>, matched: map<Addr, seq<Record>>, t: Addr)
    requires Buckets(targets, rs, matched) && t in targets && IsValid(t)
    ensures t in matched && matched[t] != [] <==> Listed(rs, t)
  {
    MatchesListed(rs, t);
  }

  lemma {:induction false} OutdatedEmpty(targets: seq<Addr>, rs: seq<Record>)
    ensures Outdated(targets, rs) == [] <==> forall i :: 0 <= i < |rs| ==> Keeps(targets, rs[i])
  {
    hide Keeps;
    if |rs| > 0 {
      OutdatedEmpty(targets, rs[..|rs| - 1]);
      assert forall i :: 0 <= i < |rs| - 1 ==> rs[..|rs| - 1][i] == rs[i];
    }
  }

  lemma PlanCallAt(unmatched: seq<Addr>, queue: seq<Record>, p: Params, k: nat)
    requires k < PlanLength(unmatched, queue)
    ensures k < |unmatched| && k < |queue| ==>
      PlanCall(unmatched, queue, p, k) == Update(queue[k].id, unmatched[k], p)
    ensures k < |unmatched| && k >= |queue| ==> PlanCall(unmatched, queue, p, k) == Create(unmatched[k], p)
    ensures k >= |unmatched| ==> PlanCall(unmatched, queue, p, k) == Delete(queue[k].id)
  {
  }

  /** Without a zone nothing was sent, so the event's metadata means nothing. */
  lemma StoredIrrelevant(sel: Selector, zone: Zone, cache: Option<seq<Record>>, call: Call, ev: Event, p: Params)
    requires ev.outcome.ZoneUnknown?
    ensures var ev' := ev.(stored := p);
      && Possible(zone, call, ev') && Effect(zone, call, ev') == Effect(zone, call, ev)
      && CacheAfter(sel, cache, call, ev', RegularDeletion) == CacheAfter(sel, cache, call, ev, RegularDeletion)
  {
  }

  lemma NothingStored(stores: Params -> Params, zone: Zone)
    ensures StoredBy(stores, []) && Remembers(stores, zone, None) && Run(zone, []) == zone
  {
  }

  /** A run of the plan, told by its effect on the records. */
  lemma RunDecided(sel: Selector, zone: Zone, targets: seq<Addr>, listing: seq<Record>, fallback: Params,
                   unmatched: seq<Addr>, queue: seq<Record>, p: Params, stores: Params -> Params, steps: seq<Step>)
    requires Exact(sel, zone, listing) && TargetSet(targets)
    requires Planned(targets, listing, fallback, unmatched, queue, p)
    requires Follows(sel, zone, unmatched, queue, p, steps) && StoredBy(stores, steps)
    ensures Decides(targets, listing, fallback, unmatched, queue, p) && Issues(unmatched, queue, p, steps)
    ensures OnlyRecycled(zone, Run(zone, steps), stores, unmatched, queue, p)
    ensures |steps| == PlanLength(unmatched, queue) && (steps != [] ==> steps[|steps| - 1].ev.outcome.Confirmed?) ==>
      forall k :: 0 <= k < |queue| ==> Settled(Run(zone, steps), stores, unmatched, queue, p, k)
  {
    assert DistinctIds(listing);
    hide Exact, Planned, Decides, OnlyRecycled, Settled, StoredBy, TargetSet, Issues, Run, PlanCall, Feasible;
    PlannedDecides(targets, listing, fallback, unmatched, queue, p);
    QueueDistinct(targets, listing, fallback, unmatched, queue, p);
    PlanIssues(unmatched, queue, p, steps);
    RunOnlyRecycles(zone, steps, stores, unmatched, queue, p);
    if |steps| == PlanLength(unmatched, queue) && (steps != [] ==> steps[|steps| - 1].ev.outcome.Confirmed?) {
      PlanSettles(zone, steps, stores, unmatched, queue, p);
    }
  }

  lemma QueueDistinct(targets: seq<Addr>, listing: seq<Record>, fallback: Params,
                      unmatched: seq<Addr>, queue: seq<Record>, p: Params)
    requires Decides(targets, listing, fallback, unmatched, queue, p)
    ensures DistinctIds(queue)
  {
  }

  class Reconciler {
    const handle: CloudflareHandle
    const server: Server

    constructor (handle: CloudflareHandle)
      ensures this.handle == handle && server == handle.server
    {
      this.handle, server := handle, handle.server;
    }

    ghost function Sel(): Selector { handle.selector }

    ghost predicate Valid()
      reads this, handle
    {
      handle.Valid() && handle.server == server
    }

    /** The cache entry, if present, lists exactly the managed records and remembers their metadata. */
    ghost predicate Sound()
      requires Valid()
      reads this, handle, handle.data, server
    {
      Coherent(Sel(), server.records, handle.View()) && Remembers(server.stores, server.records, handle.View())
    }

    /** Where a run of the plan stands after `steps`, all confirmed. */
    ghost predicate OnTrack(zone: Zone, targets: seq<Addr>, unmatched: seq<Addr>, queue: seq<Record>, p: Params,
                            steps: seq<Step>)
      reads this, handle, handle.data, server
    {
      && Valid() && Sound()
      && Follows(Sel(), zone, unmatched, queue, p, steps) && StoredBy(server.stores, steps)
      && (|steps| > 0 ==> steps[|steps| - 1].ev.outcome.Confirmed?)
      && server.records == Run(zone, steps)
      && Reached(Sel(), server.records, targets, unmatched, queue, |steps|)
    }

    /** Issue call number |steps| of the plan. */
    method IssueCall(ghost zone: Zone, ghost targets: seq<Addr>, ghost unmatched: seq<Addr>, ghost queue: seq<Record>,
                     p: Params, call: Call, ghost steps: seq<Step>)
      returns (ok: bool, ghost after: seq<Step>)
      requires OnTrack(zone, targets, unmatched, queue, p, steps) && WellFormed(targets, unmatched, queue)
      requires |steps| < PlanLength(unmatched, queue) && call == PlanCall(unmatched, queue, p, |steps|)
      requires Sel()(p.comment) && ScopePreserving(Sel(), server.stores)
      modifies handle, handle.data, server
      ensures Valid() && Sound() && (handle.data == old(handle.data) || fresh(handle.data))
      ensures |after| == |steps| + 1 && after[..|steps|] == steps && after[|steps|].call == call
      ensures ok <==> after[|steps|].ev.outcome.Confirmed?
      ensures Follows(Sel(), zone, unmatched, queue, p, after) && StoredBy(server.stores, after)
      ensures server.records == Run(zone, after)
      ensures ok ==> OnTrack(zone, targets, unmatched, queue, p, after)
    {
      hide Reached, WellFormed, Exact, SameView, Effect, CacheAfter, Coherent, Possible, Run, Follows, Remembers,
           StoredBy, UpdatedEntries;
      ghost var before := server.records;
      ghost var ev: Event;
      match call {
        case Update(id, ip, desired) => ok, ev := handle.UpdateRecord(id, ip, desired);
        case Create(ip, desired) =>
          var newId;
          newId, ok, ev := handle.CreateRecord(ip, desired);
        case Delete(id) => ok, ev := handle.DeleteRecord(id, RegularDeletion);
      }
      if ev.outcome.ZoneUnknown? {
        StoredIrrelevant(Sel(), before, old(handle.View()), call, ev, p);
        ev := ev.(stored := p);
      }
      after := steps + [Step(call, ev)];
      assert KeepsScope(Sel(), call, ev);
      CacheStepIff(Sel(), before, old(handle.View()), call, ev);
      RememberStep(Sel(), server.stores, before, old(handle.View()), call, ev);
      FollowsExtends(Sel(), zone, unmatched, queue, p, steps, call, ev);
      StoredExtends(server.stores, steps, Step(call, ev));
      if ok { PlanAdvances(Sel(), before, targets, unmatched, queue, p, |steps|, ev); }
    }

    /** Reconciles the managed records with the targets. The ghost results witness the run:
        the listing it decided on, the plan, and the calls it made. */
    method SetIPs(targets: seq<Addr>, fallback: Params)
      returns (code: ResponseCode, ghost listing: seq<Record>, ghost unmatched: seq<Addr>, ghost queue: seq<Record>,
               ghost p: Params, ghost steps: seq<Step>)
      requires Valid() && Sound() && TargetSet(targets)
      requires Sel()(fallback.comment) && ScopePreserving(Sel(), server.stores)
      modifies handle, handle.data, server
      ensures Valid() && Sound() && (handle.data == old(handle.data) || fresh(handle.data))
      ensures server.records == Run(old(server.records), steps)
      ensures steps != [] || code == Updated ==>
        && Exact(Sel(), old(server.records), listing)
        && Planned(targets, listing, fallback, unmatched, queue, p) && Sel()(p.comment)
        && Follows(Sel(), old(server.records), unmatched, queue, p, steps)
      ensures steps != [] ==>
        && Decides(targets, listing, fallback, unmatched, queue, p) && Issues(unmatched, queue, p, steps)
        && Remembers(server.stores, old(server.records), Some(listing))
        && OnlyRecycled(old(server.records), server.records, server.stores, unmatched, queue, p)
      ensures code != Failed ==> ExactCover(Sel(), server.records, targets)
      ensures code == Updated ==>
        && |steps| == PlanLength(unmatched, queue) > 0 && steps[|steps| - 1].ev.outcome.Confirmed?
        && forall k :: 0 <= k < |queue| ==> Settled(server.records, server.stores, unmatched, queue, p, k)
      ensures code == Noop ==> steps == []
      ensures code == Failed && steps != [] ==> !steps[|steps| - 1].ev.outcome.Confirmed?
    {
      hide Exact, Unmatched, Outdated, Ordered, Reached, IsResolved, ExactCover, Canonical, Unmap, Follows, Buckets,
           Remembers, Decides, Issues, OnlyRecycled, Settled, StoredBy, Run;
      NothingStored(server.stores, server.records);
      listing, unmatched, queue, p, steps := [], [], [], fallback, [];
      var rs, n, cached, ok := handle.ListRecords();
      if !ok { return Failed, [], [], [], fallback, []; }
      ghost var zone := server.records;
      listing := rs[..n];
      if !cached { FreshRemembers(Sel(), server.stores, zone, listing); }
      assert Exact(Sel(), zone, listing);
      var matched, unmatchedTargets, outdated := PartitionRecords(targets, rs, n);
      UpToDateIffCovered(Sel(), zone, targets, listing, matched, outdated);
      if RecordsAlreadyUpToDate(targets, matched, outdated) {
        return Noop, listing, unmatched, queue, p, steps;
      }
      hide RecordsAlreadyUpToDate;
      var params, sorted := ReconcileAndSortRecords(fallback, outdated);
      unmatched, queue, p := unmatchedTargets, sorted, params;
      PlanStarts(Sel(), zone, targets, fallback, listing, unmatched, queue, p);
      ResolvedInScope(Sel(), zone, listing, targets, fallback, p);
      EmptyFollows(Sel(), zone, unmatched, queue, p);
      if PlanLength(unmatched, queue) == 0 { PlanCompletes(Sel(), zone, targets, unmatched, queue); }
      code, steps := CarryOut(zone, targets, unmatchedTargets, sorted, params);
      RunDecided(Sel(), zone, targets, listing, fallback, unmatched, queue, p, server.stores, steps);
    }

    /** The two stages of SetIPs: satisfy the uncovered targets, then delete what is left. */
    method CarryOut(ghost zone: Zone, ghost targets: seq<Addr>, unmatched: seq<Addr>, queue: seq<Record>, p: Params)
      returns (code: ResponseCode, ghost steps: seq<Step>)
      requires OnTrack(zone, targets, unmatched, queue, p, []) && WellFormed(targets, unmatched, queue)
      requires PlanLength(unmatched, queue) > 0
      requires Sel()(p.comment) && ScopePreserving(Sel(), server.stores)
      modifies handle, handle.data, server
      ensures Valid() && Sound() && (handle.data == old(handle.data) || fresh(handle.data))
      ensures Follows(Sel(), zone, unmatched, queue, p, steps) && StoredBy(server.stores, steps)
      ensures server.records == Run(zone, steps) && steps != []
      ensures code == Updated || code == Failed
      ensures code == Updated ==>
        && |steps| == PlanLength(unmatched, queue) && steps[|steps| - 1].ev.outcome.Confirmed?
        && ExactCover(Sel(), server.records, targets)
      ensures code == Failed ==> !steps[|steps| - 1].ev.outcome.Confirmed?
    {
      hide Reached, WellFormed, Follows, Exact, ExactCover, PlanCall, Run, StoredBy, Remembers;
      steps := [];
      var mutated := false;
      var rest := queue;
      for k := 0 to |unmatched|
        invariant handle.data == old(handle.data) || fresh(handle.data)
        invariant |steps| == k && OnTrack(zone, targets, unmatched, queue, p, steps)
        invariant rest == queue[if k < |queue| then k else |queue|..]
        invariant k > 0 ==> mutated
      {
        mutated := true;
        var issued, call;
        if |rest| > 0 {
          var recycled := rest[0];
          rest := rest[1..];
          call := Update(recycled.id, unmatched[k], p);
        } else {
          call := Create(unmatched[k], p);
        }
        PlanCallAt(unmatched, queue, p, k);
        issued, steps := IssueCall(zone, targets, unmatched, queue, p, call, steps);
        if !issued { return Failed, steps; }
      }
      for k := 0 to |rest|
        invariant handle.data == old(handle.data) || fresh(handle.data)
        invariant |steps| == |unmatched| + k && OnTrack(zone, targets, unmatched, queue, p, steps)
        invariant |unmatched| + k > 0 ==> mutated
      {
        mutated := true;
        PlanCallAt(unmatched, queue, p, |unmatched| + k);
        var issued;
        issued, steps := IssueCall(zone, targets, unmatched, queue, p, Delete(rest[k].id), steps);
        if !issued { return Failed, steps; }
      }
      PlanCompletes(Sel(), server.records, targets, unmatched, queue);
      return if mutated then Updated else Noop, steps;
    }

    /** Deletes every managed record; keeps going after a failure unless the context is done. The ghost results
        witness the run: the listing it worked from and the calls it made. */
    method FinalDelete() returns (code: ResponseCode, ghost listing: seq<Record>, ghost steps: seq<Step>)
      requires Valid() && Superset(Sel(), server.records, handle.View())
      modifies handle, handle.data, server
      ensures Valid() && Superset(Sel(), server.records, handle.View())
      ensures code != Failed || steps != [] ==>
        DistinctIds(listing) && (old(handle.View()) == Some(listing) || Exact(Sel(), old(server.records), listing))
      ensures Sweeps(old(server.records), IdsOf(listing), steps) && server.records == Run(old(server.records), steps)
      ensures |steps| < |listing| ==> code == Failed && (steps != [] ==> !Answered(steps[|steps| - 1]))
      ensures code == Noop ==> listing == []
      ensures code == Updated ==> steps != [] && forall k :: 0 <= k < |steps| ==> Answered(steps[k])
      ensures code == Failed ==> listing == [] || exists k :: 0 <= k < |steps| && !Answered(steps[k])
      ensures OnlyManagedRemoved(Sel(), old(server.records), server.records)
      ensures code != Failed ==> forall id :: !Managed(Sel(), server.records, id)
    {
      hide Superset, Exact, Sweeps, Run, OnlyManagedRemoved, Managed, DistinctIds;
      NothingSwept(Sel(), server.records);
      var rs, n, cached, ok := handle.ListRecords();
      if !ok {
        NoEntry(Sel(), server.records);
        return Failed, [], [];
      }
      ghost var zone := server.records;
      listing := rs[..n];
      if !cached { ExactIsSuperset(Sel(), zone, listing); }
      SupersetIds(Sel(), zone, listing);
      var ids: seq<ID> := [];
      for i := 0 to n
        invariant ids == IdsOf(listing[..i])
      {
        ids := ids + [rs[i].id];
        assert listing[..i + 1] == listing[..i] + [rs[i]];
      }
      assert listing[..n] == listing;
      if |ids| == 0 { return Noop, listing, []; }
      code, steps := DeleteAll(ids);
    }

    method DeleteAll(ids: seq<ID>) returns (code: ResponseCode, ghost steps: seq<Step>)
      requires Valid() && Superset(Sel(), server.records, handle.View())
      requires forall id :: id in ids && id in server.records ==> Managed(Sel(), server.records, id)
      requires forall id :: Managed(Sel(), server.records, id) ==> id in ids
      modifies handle, handle.data, server
      ensures Valid() && Superset(Sel(), server.records, handle.View())
      ensures Sweeps(old(server.records), ids, steps) && server.records == Run(old(server.records), steps)
      ensures |steps| < |ids| ==> code == Failed && steps != [] && !Answered(steps[|steps| - 1])
      ensures code == if forall k :: 0 <= k < |steps| ==> Answered(steps[k]) then Updated else Failed
      ensures OnlyManagedRemoved(Sel(), old(server.records), server.records)
      ensures code != Failed ==> forall id :: !Managed(Sel(), server.records, id)
    {
      hide Superset, Sweeps, Run, Effect, CacheAfter;
      ghost var zone := server.records;
      steps := [];
      NothingSwept(Sel(), zone);
      var allOk := true;
      for i := 0 to |ids|
        invariant Valid() && (handle.data == old(handle.data) || fresh(handle.data))
        invariant Superset(Sel(), server.records, handle.View())
        invariant |steps| == i && Sweeps(zone, ids, steps) && server.records == Run(zone, steps)
        invariant allOk <==> forall k :: 0 <= k < i ==> Answered(steps[k])
      {
        ghost var before, view := server.records, handle.View();
        var done, ev := handle.DeleteRecord(ids[i], FinalDeletion);
        FinalDeleteKeepsSuperset(Sel(), before, view, ids[i], ev);
        SweepStep(zone, ids, steps, ev);
        ghost var earlier := steps;
        steps := steps + [Step(Delete(ids[i]), ev)];
        assert steps[i].ev == ev && forall k :: 0 <= k < i ==> steps[k] == earlier[k];
        if !done {
          allOk := false;
          var contextDone: bool := *;
          if contextDone {
            SweptOnly(Sel(), zone, ids, steps);
            return Failed, steps;
          }
        }
      }
      SweptOnly(Sel(), zone, ids, steps);
      if !allOk { return Failed, steps; }
      AllSwept(Sel(), zone, ids, steps);
      return Updated, steps;
    }
  }

  predicate Answered(step: Step) { step.ev.outcome.Confirmed? }

  /** The steps delete the given IDs in order, as far as they go. */
  ghost predicate Sweeps(zone: Zone, ids: seq<ID>, steps: seq<Step>) {
    |steps| <= |ids| && Feasible(zone, steps) && forall k :: 0 <= k < |steps| ==> steps[k].call == Delete(ids[k])
  }

  lemma NothingSwept(sel: Selector, zone: Zone)
    ensures Run(zone, []) == zone && OnlyManagedRemoved(sel, zone, zone) && forall ids :: Sweeps(zone, ids, [])
  {
  }

  lemma SweepStep(zone: Zone, ids: seq<ID>, steps: seq<Step>, ev: Event)
    requires |steps| < |ids| && Sweeps(zone, ids, steps)
    ensures var call := Delete(ids[|steps|]);
      && Sweeps(zone, ids, steps + [Step(call, ev)])
      && Run(zone, steps + [Step(call, ev)]) == Effect(Run(zone, steps), call, ev)
  {
    var call := Delete(ids[|steps|]);
    FeasibleExtends(zone, steps, call, ev);
    assert (steps + [Step(call, ev)])[..|steps|] == steps;
  }

  lemma {:induction false} SweptOnly(sel: Selector, zone: Zone, ids: seq<ID>, steps: seq<Step>)
    requires Sweeps(zone, ids, steps)
    requires forall id :: id in ids && id in zone ==> Managed(sel, zone, id)
    ensures OnlyManagedRemoved(sel, zone, Run(zone, steps))
    decreases |steps|
  {
    hide Feasible;
    if |steps| > 0 {
      var init, last := steps[..|steps| - 1], steps[|steps| - 1];
      FeasiblePrefix(zone, steps, |steps| - 1);
      SweptOnly(sel, zone, ids, init);
      assert last.call == Delete(ids[|steps| - 1]) && ids[|steps| - 1] in ids;
    }
  }

  /** Confirmed deletes of all IDs leave none of them. */
  lemma {:induction false} SweptGone(zone: Zone, ids: seq<ID>, steps: seq<Step>, j: nat)
    requires Sweeps(zone, ids, steps) && j < |steps| && Answered(steps[j])
    ensures ids[j] !in Run(zone, steps)
    decreases |steps|
  {
    var init, last := steps[..|steps| - 1], steps[|steps| - 1];
    assert last.call == Delete(ids[|steps| - 1]);
    if j < |steps| - 1 {
      FeasiblePrefix(zone, steps, |steps| - 1);
      SweptGone(zone, ids, init, j);
    }
  }

  lemma AllSwept(sel: Selector, zone: Zone, ids: seq<ID>, steps: seq<Step>)
    requires Sweeps(zone, ids, steps) && |steps| == |ids| && forall k :: 0 <= k < |steps| ==> Answered(steps[k])
    requires forall id :: Managed(sel, zone, id) ==> id in ids
    requires OnlyManagedRemoved(sel, zone, Run(zone, steps))
    ensures forall id :: !Managed(sel, Run(zone, steps), id)
  {
    hide Sweeps, Run;
    forall id | Managed(sel, zone, id) ensures id !in Run(zone, steps) {
      var j :| 0 <= j < |ids| && ids[j] == id;
      SweptGone(zone, ids, steps, j);
    }
  }

  lemma NoEntry(sel: Selector, zone: Zone)
    ensures Superset(sel, zone, None)
  {
  }

  lemma SupersetIds(sel: Selector, zone: Zone, rs: seq<Record>)
    requires Superset(sel, zone, Some(rs))
    ensures DistinctIds(rs)
    ensures forall id :: id in IdsOf(rs) && id in zone ==> Managed(sel, zone, id)
    ensures forall id :: Managed(sel, zone, id) ==> id in IdsOf(rs)
  {
    forall id | Managed(sel, zone, id) ensures id in IdsOf(rs) {
      var j :| 0 <= j < |rs| && rs[j].id == id;
      assert IdsOf(rs)[j] == id;
    }
  }

  /** Nothing changed but that some managed records are gone. */
  ghost predicate OnlyManagedRemoved(sel: Selector, before: Zone, now: Zone) {
    && (forall id :: id in now ==> id in before && now[id] == before[id])
    && (forall id :: id in before && !Managed(sel, before, id) ==> id in now)
  }
}
