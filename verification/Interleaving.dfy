/** Any number of updater instances on one domain, their API calls arbitrarily interleaved. */
module Interleaving {
  import opened Results
  import opened Addresses
  import opened Reconcile
  import opened Execution
  import opened Cache

  /** Between operations, inside a SetIPs with k calls of its plan confirmed, inside a FinalDelete after so many
      calls, or past one. */
  datatype Phase =
    | Idle
    | Running(targets: seq<Addr>, unmatched: seq<Addr>, queue: seq<Record>, p: Params, k: nat)
    | Deleting(ids: seq<ID>, done: nat, allOk: bool)
    | Retired

  datatype Instance = Instance(sel: Selector, fallback: Params, cache: Option<seq<Record>>, phase: Phase)

  /** used holds every ID a record ever had. */
  datatype World = World(zone: Zone, used: set<ID>, instances: seq<Instance>)

  datatype Action =
    | Begin(i: nat, targets: seq<Addr>, listing: seq<Record>)  // SetIPs lists the records, from the cache or the server
    | Issue(i: nat, ev: Event)                                 // SetIPs makes its next call
    | Finish(i: nat)                                           // SetIPs returns Noop or Updated
    | BeginFinal(i: nat, listing: seq<Record>)                 // FinalDelete lists the records
    | IssueFinal(i: nat, ev: Event)                            // FinalDelete deletes the next one
    | EndFinal(i: nat)                                         // FinalDelete returns
    | Expire(i: nat)                                           // a cache entry expires
    | Outside(zone: Zone)                                      // someone else writes out-of-scope records

  predicate HasNext(phase: Phase) {
    match phase
    case Running(_, unmatched, queue, _, k) => k < PlanLength(unmatched, queue)
    case Deleting(ids, done, _) => done < |ids|
    case _ => false
  }

  function NextCall(phase: Phase): Call
    requires HasNext(phase)
  {
    match phase
    case Running(_, unmatched, queue, p, k) => PlanCall(unmatched, queue, p, k)
    case Deleting(ids, done, _) => Delete(ids[done])
  }

  /** Instance x of the zone takes action a and becomes x'; the zone becomes zone'. */
  ghost predicate InstanceStep(zone: Zone, x: Instance, a: Action, zone': Zone, x': Instance) {
    match a
    case Begin(_, targets, listing) =>
      && x.phase.Idle? && x'.phase.Running? && zone' == zone && TargetSet(targets)
      && (x.cache == Some(listing) || Exact(x.sel, zone, listing))
      && Planned(targets, listing, x.fallback, x'.phase.unmatched, x'.phase.queue, x'.phase.p)
      && x'.phase.targets == targets && x'.phase.k == 0
      && x' == x.(cache := Some(listing), phase := x'.phase)
    case Issue(_, ev) =>
      && x.phase.Running? && HasNext(x.phase)
      && Possible(zone, NextCall(x.phase), ev) && KeepsScope(x.sel, NextCall(x.phase), ev)
      && zone' == Effect(zone, NextCall(x.phase), ev)
      && x' == x.(cache := CacheAfter(x.sel, x.cache, NextCall(x.phase), ev, RegularDeletion),
                  phase := if ev.outcome.Confirmed? then x.phase.(k := x.phase.k + 1) else Idle)
    case Finish(_) =>
      && x.phase.Running? && x.phase.k == PlanLength(x.phase.unmatched, x.phase.queue)
      && zone' == zone && x' == x.(phase := Idle)
    case BeginFinal(_, listing) =>
      && (x.phase.Idle? || x.phase.Retired?) && zone' == zone
      && (x.cache == Some(listing) || Exact(x.sel, zone, listing))
      && x' == x.(cache := Some(listing), phase := Deleting(IdsOf(listing), 0, true))
    case IssueFinal(_, ev) =>
      && x.phase.Deleting? && HasNext(x.phase)
      && zone' == Effect(zone, NextCall(x.phase), ev)
      && x' == x.(cache := CacheAfter(x.sel, x.cache, NextCall(x.phase), ev, FinalDeletion),
                  phase := x.phase.(done := x.phase.done + 1, allOk := x.phase.allOk && ev.outcome.Confirmed?))
    case EndFinal(_) =>
      && x.phase.Deleting? && (HasNext(x.phase) ==> !x.phase.allOk) && zone' == zone && x' == x.(phase := Retired)
    case Expire(_) => zone' == zone && x' == x.(cache := None)
    case Outside(_) => false
  }

  /** One action; no record ever gets an ID that another has had. */
  ghost predicate Next(w: World, a: Action, w': World) {
    && |w'.instances| == |w.instances|
    && (forall id :: id in w'.zone ==> id in w.zone || id !in w.used) && w'.used == w.used + w'.zone.Keys
    && match a
       case Outside(zone) =>
         && w'.zone == zone && w'.instances == w.instances
         && forall j :: 0 <= j < |w.instances| ==> SameView(w.instances[j].sel, w.zone, zone)
       case _ =>
         && a.i < |w.instances|
         && InstanceStep(w.zone, w.instances[a.i], a, w'.zone, w'.instances[a.i])
         && forall j :: 0 <= j < |w.instances| && j != a.i ==> w'.instances[j] == w.instances[j]
  }

  ghost predicate Disjoint(a: Selector, b: Selector) {
    forall c :: !(a(c) && b(c))
  }

  /** What the README asks of instances that share a domain, and the configuration check of each. */
  ghost predicate Separated(instances: seq<Instance>) {
    && (forall i, j :: 0 <= i < j < |instances| ==> Disjoint(instances[i].sel, instances[j].sel))
    && (forall i :: 0 <= i < |instances| ==> instances[i].sel(instances[i].fallback.comment))
  }

  /** Every ID a cached listing names has been some record's. */
  predicate Known(used: set<ID>, cache: Option<seq<Record>>) {
    cache.Some? ==> forall r :: r in cache.value ==> r.id in used
  }

  /** The IDs to delete are old, name no foreign record and miss no managed one; the confirmed ones are gone. */
  ghost predicate Clearing(sel: Selector, zone: Zone, used: set<ID>, ids: seq<ID>, k: nat, allOk: bool) {
    && k <= |ids|
    && (forall id :: id in ids ==> id in used && (id in zone ==> Managed(sel, zone, id)))
    && (forall id :: Managed(sel, zone, id) ==> id in ids)
    && (allOk ==> forall id :: id in ids[..k] ==> id !in zone)
  }

  ghost predicate InstanceInv(zone: Zone, used: set<ID>, x: Instance) {
    && Superset(x.sel, zone, x.cache) && Known(used, x.cache)
    && (x.phase.Idle? || x.phase.Running? ==> Coherent(x.sel, zone, x.cache))
    && (x.phase.Running? ==>
      && WellFormed(x.phase.targets, x.phase.unmatched, x.phase.queue) && x.sel(x.phase.p.comment)
      && Reached(x.sel, zone, x.phase.targets, x.phase.unmatched, x.phase.queue, x.phase.k))
    && (x.phase.Deleting? ==> Clearing(x.sel, zone, used, x.phase.ids, x.phase.done, x.phase.allOk))
  }

  ghost predicate Inv(w: World) {
    && Separated(w.instances) && w.zone.Keys <= w.used
    && forall i :: 0 <= i < |w.instances| ==> InstanceInv(w.zone, w.used, w.instances[i])
  }

  /** The instances before their first action. */
  ghost predicate Initial(w: World) {
    && Separated(w.instances) && w.zone.Keys <= w.used
    && forall i :: 0 <= i < |w.instances| ==> w.instances[i].cache == None && w.instances[i].phase == Idle
  }

  /** What a zone can become without a disjoint instance noticing. */
  ghost predicate Unnoticed(sel: Selector, zone: Zone, used: set<ID>, zone': Zone) {
    SameView(sel, zone, zone') && forall id :: id in zone' ==> id in zone || id !in used
  }

  lemma SupersetKept(sel: Selector, zone: Zone, used: set<ID>, zone': Zone, cache: Option<seq<Record>>)
    requires Superset(sel, zone, cache) && Known(used, cache) && Unnoticed(sel, zone, used, zone')
    ensures Superset(sel, zone', cache)
  {
    if cache.Some? {
      forall i | 0 <= i < |cache.value| && cache.value[i].id in zone' ensures Managed(sel, zone', cache.value[i].id) {
        assert cache.value[i] in cache.value;
      }
      forall id | Managed(sel, zone', id) ensures HasId(cache.value, id) { assert Managed(sel, zone, id); }
    }
  }

  lemma ClearingKept(sel: Selector, zone: Zone, used: set<ID>, zone': Zone, ids: seq<ID>, k: nat, allOk: bool)
    requires Clearing(sel, zone, used, ids, k, allOk) && Unnoticed(sel, zone, used, zone')
    ensures Clearing(sel, zone', used + zone'.Keys, ids, k, allOk)
  {
    forall id | Managed(sel, zone', id) ensures id in ids { assert Managed(sel, zone, id); }
    if allOk {
      forall id | id in ids[..k] ensures id !in zone' { assert id in ids; }
    }
  }

  lemma ViewKeepsInv(zone: Zone, used: set<ID>, zone': Zone, x: Instance)
    requires InstanceInv(zone, used, x) && Unnoticed(x.sel, zone, used, zone')
    ensures InstanceInv(zone', used + zone'.Keys, x)
  {
    hide Superset, Clearing, Exact, Reached;
    SupersetKept(x.sel, zone, used, zone', x.cache);
    if x.cache.Some? && Exact(x.sel, zone, x.cache.value) { ExactRespectsView(x.sel, zone, zone', x.cache.value); }
    if x.phase.Running? {
      ReachedRespectsView(x.sel, zone, zone', x.phase.targets, x.phase.unmatched, x.phase.queue, x.phase.k);
    }
    if x.phase.Deleting? { ClearingKept(x.sel, zone, used, zone', x.phase.ids, x.phase.done, x.phase.allOk); }
  }

  /** An exact listing is a superset, and its IDs are in use. */
  lemma ExactIsKnown(sel: Selector, zone: Zone, used: set<ID>, rs: seq<Record>)
    requires Exact(sel, zone, rs) && zone.Keys <= used
    ensures Superset(sel, zone, Some(rs)) && Known(used, Some(rs))
  {
    ExactIsSuperset(sel, zone, rs);
    hide Superset;
    forall r | r in rs ensures r.id in used {
      var i :| 0 <= i < |rs| && rs[i] == r;
      assert Managed(sel, zone, rs[i].id);
    }
  }

  lemma FinalStarts(sel: Selector, zone: Zone, used: set<ID>, rs: seq<Record>)
    requires Superset(sel, zone, Some(rs)) && Known(used, Some(rs))
    ensures Clearing(sel, zone, used, IdsOf(rs), 0, true)
  {
    forall id | id in IdsOf(rs) ensures id in used && (id in zone ==> Managed(sel, zone, id)) {
      var i :| 0 <= i < |rs| && IdsOf(rs)[i] == id;
      assert rs[i] in rs;
    }
    forall id | Managed(sel, zone, id) ensures id in IdsOf(rs) {
      var i :| 0 <= i < |rs| && rs[i].id == id;
      assert IdsOf(rs)[i] == id;
    }
  }

  lemma FinalAdvances(sel: Selector, zone: Zone, used: set<ID>, ids: seq<ID>, k: nat, allOk: bool, ev: Event)
    requires Clearing(sel, zone, used, ids, k, allOk) && k < |ids|
    ensures var zone' := Effect(zone, Delete(ids[k]), ev);
      Clearing(sel, zone', used + zone'.Keys, ids, k + 1, allOk && ev.outcome.Confirmed?)
  {
    var zone' := Effect(zone, Delete(ids[k]), ev);
    assert ids[..k + 1] == ids[..k] + [ids[k]];
    forall id | Managed(sel, zone', id) ensures id in ids { assert Managed(sel, zone, id); }
  }

  /** Removing an ID, or the entry, keeps the IDs known. */
  lemma KnownAfterDelete(sel: Selector, used: set<ID>, more: set<ID>, cache: Option<seq<Record>>, id: ID, ev: Event)
    requires Known(used, cache)
    ensures Known(used + more, CacheAfter(sel, cache, Delete(id), ev, FinalDeletion))
  {
    if cache.Some? { RemoveIdMembers(cache.value, id); }
  }

  /** A listing taken from the cache or from the server. */
  lemma ListingKnown(zone: Zone, used: set<ID>, x: Instance, listing: seq<Record>)
    requires InstanceInv(zone, used, x) && zone.Keys <= used
    requires x.cache == Some(listing) || Exact(x.sel, zone, listing)
    ensures Superset(x.sel, zone, Some(listing)) && Known(used, Some(listing))
    ensures x.phase.Idle? ==> Exact(x.sel, zone, listing)
  {
    hide Superset, Exact, Known;
    if Exact(x.sel, zone, listing) { ExactIsKnown(x.sel, zone, used, listing); }
  }

  lemma OwnStepKeepsInv(zone: Zone, used: set<ID>, x: Instance, a: Action, zone': Zone, x': Instance)
    requires InstanceInv(zone, used, x) && x.sel(x.fallback.comment) && zone.Keys <= used
    requires InstanceStep(zone, x, a, zone', x')
    ensures InstanceInv(zone', used + zone'.Keys, x') && x'.sel == x.sel && x'.fallback == x.fallback
  {
    match a
    case Begin(_, targets, listing) => BeginKeepsInv(zone, used, x, a, zone', x');
    case Issue(_, ev) => IssueKeepsInv(zone, used, x, a, zone', x');
    case BeginFinal(_, listing) =>
      hide Reached, WellFormed, Exact, Superset, Known, Clearing;
      ListingKnown(zone, used, x, listing);
      FinalStarts(x.sel, zone, used, listing);
      UsedGrows(zone, used, zone', x');
    case IssueFinal(_, ev) => FinalIssueKeepsInv(zone, used, x, a, zone', x');
    case Expire(_) =>
      hide Reached, WellFormed, Exact, Superset, Known, Clearing;
      UsedGrows(zone, used, zone', x);
      NoCache(x.sel, zone, used + zone'.Keys);
    case _ =>
      hide Reached, WellFormed, Exact, Superset, Clearing;
      UsedGrows(zone, used, zone', x);
  }

  lemma FinalIssueKeepsInv(zone: Zone, used: set<ID>, x: Instance, a: Action, zone': Zone, x': Instance)
    requires InstanceInv(zone, used, x) && InstanceStep(zone, x, a, zone', x') && a.IssueFinal?
    ensures InstanceInv(zone', used + zone'.Keys, x')
  {
    hide Exact, Superset, Known, Clearing, CacheAfter, Effect;
    var ph, id := x.phase, x.phase.ids[x.phase.done];
    FinalDeleteKeepsSuperset(x.sel, zone, x.cache, id, a.ev);
    KnownAfterDelete(x.sel, used, zone'.Keys, x.cache, id, a.ev);
    FinalAdvances(x.sel, zone, used, ph.ids, ph.done, ph.allOk, a.ev);
  }

  lemma NoCache(sel: Selector, zone: Zone, used: set<ID>)
    ensures Superset(sel, zone, None) && Known(used, None)
  {
  }

  lemma UsedGrows(zone: Zone, used: set<ID>, zone': Zone, x: Instance)
    requires InstanceInv(zone, used, x)
    ensures InstanceInv(zone, used + zone'.Keys, x)
  {
    hide Reached, WellFormed, Exact, Superset;
  }

  lemma BeginKeepsInv(zone: Zone, used: set<ID>, x: Instance, a: Action, zone': Zone, x': Instance)
    requires InstanceInv(zone, used, x) && x.sel(x.fallback.comment) && zone.Keys <= used
    requires InstanceStep(zone, x, a, zone', x') && a.Begin?
    ensures InstanceInv(zone', used + zone'.Keys, x')
  {
    hide Reached, WellFormed, Exact, Superset, Known, Planned, TargetSet;
    var ph := x'.phase;
    ListingKnown(zone, used, x, a.listing);
    PlanStarts(x.sel, zone, a.targets, x.fallback, a.listing, ph.unmatched, ph.queue, ph.p);
    ResolvedComment(x.sel, zone, a.targets, a.listing, x.fallback, ph.unmatched, ph.queue, ph.p);
    UsedGrows(zone, used, zone', x');
  }

  lemma IssueKeepsInv(zone: Zone, used: set<ID>, x: Instance, a: Action, zone': Zone, x': Instance)
    requires InstanceInv(zone, used, x) && zone.Keys <= used
    requires InstanceStep(zone, x, a, zone', x') && a.Issue?
    ensures InstanceInv(zone', used + zone'.Keys, x')
  {
    hide Reached, WellFormed, Exact, Superset, Known, CacheAfter, Effect, KeepsScope, Possible, PlanCall;
    var ph := x.phase;
    CacheStepIff(x.sel, zone, x.cache, NextCall(ph), a.ev);
    if a.ev.outcome.Confirmed? {
      PlanAdvances(x.sel, zone, ph.targets, ph.unmatched, ph.queue, ph.p, ph.k, a.ev);
    }
    if x'.cache.Some? {
      ExactIsKnown(x.sel, zone', used + zone'.Keys, x'.cache.value);
    } else {
      NoCache(x.sel, zone', used + zone'.Keys);
    }
  }

  lemma ResolvedComment(sel: Selector, zone: Zone, targets: seq<Addr>, rs: seq<Record>, fallback: Params,
                        unmatched: seq<Addr>, queue: seq<Record>, p: Params)
    requires Exact(sel, zone, rs) && sel(fallback.comment)
    requires Planned(targets, rs, fallback, unmatched, queue, p)
    ensures sel(p.comment)
  {
    ResolvedInScope(sel, zone, rs, targets, fallback, p);
  }

  /** The next call of an instance touches nothing outside its scope, or names a record that is gone. */
  lemma NextActsInScope(zone: Zone, used: set<ID>, x: Instance)
    requires InstanceInv(zone, used, x) && HasNext(x.phase)
    ensures var call := NextCall(x.phase); ActsInScope(x.sel, zone, call) || (call.Delete? && call.id !in zone)
  {
    var ph := x.phase;
    if ph.Running? {
      hide Reached;
      PlanActsInScope(x.sel, zone, ph.targets, ph.unmatched, ph.queue, ph.p, ph.k);
    } else {
      assert ph.ids[ph.done] in ph.ids;
    }
  }

  /** No instance's step is visible to another, whatever the server answers. */
  lemma OthersUnaffected(w: World, a: Action, w': World, j: nat)
    requires Inv(w) && Next(w, a, w') && j < |w.instances| && (a.Outside? || a.i != j)
    ensures SameView(w.instances[j].sel, w.zone, w'.zone)
  {
    hide InstanceInv, Planned, Exact, CacheAfter, TargetSet, PlanCall;
    if a.Issue? || a.IssueFinal? {
      var x, other := w.instances[a.i], w.instances[j].sel;
      NextActsInScope(w.zone, w.used, x);
      assert Disjoint(x.sel, other) || Disjoint(other, x.sel);
      if ActsInScope(x.sel, w.zone, NextCall(x.phase)) {
        DisjointViewUnchanged(x.sel, other, w.zone, NextCall(x.phase), a.ev);
      } else {
        assert w'.zone == w.zone;
      }
    }
  }

  /** Every action of every instance, and of anyone outside, preserves the invariant. */
  lemma InvInductive(w: World, a: Action, w': World)
    requires Inv(w) && Next(w, a, w')
    ensures Inv(w')
  {
    hide InstanceInv, InstanceStep, SameView;
    if !a.Outside? {
      OwnStepKeepsInv(w.zone, w.used, w.instances[a.i], a, w'.zone, w'.instances[a.i]);
    }
    forall j | 0 <= j < |w.instances|
      ensures InstanceInv(w'.zone, w'.used, w'.instances[j])
      ensures w'.instances[j].sel == w.instances[j].sel && w'.instances[j].fallback == w.instances[j].fallback
    {
      if a.Outside? || a.i != j {
        OthersUnaffected(w, a, w', j);
        ViewKeepsInv(w.zone, w.used, w'.zone, w.instances[j]);
      }
    }
  }

  // ---------------------------------------------------------------------------
  // Whole runs

  /** ws[0] leads through the actions to the last world. */
  ghost predicate Behaviour(ws: seq<World>, acts: seq<Action>) {
    && |ws| == |acts| + 1
    && forall n :: 0 <= n < |acts| ==> Next(ws[n], acts[n], ws[n + 1])
  }

  /** In every world of every run, every present cache is exact and every running plan is on track. */
  lemma {:induction false} RunInvariant(ws: seq<World>, acts: seq<Action>, n: nat)
    requires Behaviour(ws, acts) && Initial(ws[0]) && n < |ws|
    ensures Inv(ws[n])
  {
    hide Next, Separated, InstanceInv;
    if n == 0 {
      InitialInv(ws[0]);
    } else {
      RunInvariant(ws, acts, n - 1);
      InvInductive(ws[n - 1], acts[n - 1], ws[n]);
    }
  }

  lemma InitialInv(w: World)
    requires Initial(w)
    ensures Inv(w)
  {
  }

  /** Whenever SetIPs returns Noop or Updated, the instance's managed records have exactly its targets. */
  lemma Convergence(ws: seq<World>, acts: seq<Action>, n: nat)
    requires Behaviour(ws, acts) && Initial(ws[0]) && n < |acts| && acts[n].Finish?
    ensures acts[n].i < |ws[n].instances|
    ensures var x := ws[n].instances[acts[n].i];
      x.phase.Running? && ExactCover(x.sel, ws[n + 1].zone, x.phase.targets)
  {
    hide Reached, Separated, WellFormed, Exact, ExactCover;
    RunInvariant(ws, acts, n);
    assert Next(ws[n], acts[n], ws[n + 1]);
    var x := ws[n].instances[acts[n].i];
    assert InstanceInv(ws[n].zone, ws[n].used, x);
    PlanCompletes(x.sel, ws[n].zone, x.phase.targets, x.phase.unmatched, x.phase.queue);
  }

  /** Over any stretch of a run in which instance j does nothing, its records stay exactly as they were. */
  lemma {:induction false} Isolation(ws: seq<World>, acts: seq<Action>, j: nat, from: nat, to: nat)
    requires Behaviour(ws, acts) && Initial(ws[0]) && from <= to < |ws| && j < |ws[0].instances|
    requires forall n :: from <= n < to ==> acts[n].Outside? || acts[n].i != j
    ensures |ws[from].instances| == |ws[to].instances| == |ws[0].instances|
    ensures ws[to].instances[j] == ws[from].instances[j]
    ensures SameView(ws[0].instances[j].sel, ws[from].zone, ws[to].zone)
  {
    hide InstanceStep, Inv, Initial, SameView;
    InstancesPersist(ws, acts, j, from);
    if from == to {
      SameViewReflexive(ws[0].instances[j].sel, ws[to].zone);
    } else {
      Isolation(ws, acts, j, from, to - 1);
      RunInvariant(ws, acts, to - 1);
      assert Next(ws[to - 1], acts[to - 1], ws[to]);
      OthersUnaffected(ws[to - 1], acts[to - 1], ws[to], j);
      SameViewTransitive(ws[0].instances[j].sel, ws[from].zone, ws[to - 1].zone, ws[to].zone);
    }
  }

  lemma SameViewReflexive(sel: Selector, a: Zone)
    ensures SameView(sel, a, a)
  {
  }

  lemma SameViewTransitive(sel: Selector, a: Zone, b: Zone, c: Zone)
    requires SameView(sel, a, b) && SameView(sel, b, c)
    ensures SameView(sel, a, c)
  {
  }

  lemma {:induction false} InstancesPersist(ws: seq<World>, acts: seq<Action>, j: nat, n: nat)
    requires Behaviour(ws, acts) && n < |ws| && j < |ws[0].instances|
    ensures |ws[n].instances| == |ws[0].instances| && ws[n].instances[j].sel == ws[0].instances[j].sel
  {
    if n > 0 {
      InstancesPersist(ws, acts, j, n - 1);
      hide Planned, Exact, Effect, CacheAfter, SameView, Possible, KeepsScope, TargetSet;
      assert Next(ws[n - 1], acts[n - 1], ws[n]);
    }
  }

  ghost predicate NoneManaged(sel: Selector, zone: Zone) {
    forall id :: !Managed(sel, zone, id)
  }

  /** When a FinalDelete returns with every call confirmed, none of the instance's records is left. */
  lemma FinalPassClears(ws: seq<World>, acts: seq<Action>, n: nat)
    requires Behaviour(ws, acts) && Initial(ws[0]) && n < |acts| && acts[n].EndFinal?
    ensures acts[n].i < |ws[n].instances|
    ensures var x := ws[n].instances[acts[n].i];
      x.phase.Deleting? && (x.phase.allOk ==> NoneManaged(x.sel, ws[n + 1].zone))
  {
    hide Separated, Superset, Known, IdsOf;
    RunInvariant(ws, acts, n);
    assert Next(ws[n], acts[n], ws[n + 1]);
    var x := ws[n].instances[acts[n].i];
    assert InstanceInv(ws[n].zone, ws[n].used, x);
    if x.phase.allOk { assert x.phase.ids[..x.phase.done] == x.phase.ids; }
  }

  /** No instance updates or deletes another's record, not even at its own shutdown, and what it writes is its own. */
  lemma CallsStayInScope(ws: seq<World>, acts: seq<Action>, n: nat, j: nat, id: ID)
    requires Behaviour(ws, acts) && Initial(ws[0]) && n < |acts| && (acts[n].Issue? || acts[n].IssueFinal?)
    requires j < |ws[n].instances| && j != acts[n].i
    ensures var other := ws[n].instances[j].sel;
      && (Managed(other, ws[n].zone, id) ==> id in ws[n + 1].zone && ws[n + 1].zone[id] == ws[n].zone[id])
      && (id in ws[n + 1].zone && (id !in ws[n].zone || ws[n + 1].zone[id] != ws[n].zone[id]) ==>
          Managed(ws[n].instances[acts[n].i].sel, ws[n + 1].zone, id))
  {
    hide InstanceInv, Separated, CacheAfter, PlanCall;
    RunInvariant(ws, acts, n);
    assert Next(ws[n], acts[n], ws[n + 1]);
    OthersUnaffected(ws[n], acts[n], ws[n + 1], j);
    var x := ws[n].instances[acts[n].i];
    NextActsInScope(ws[n].zone, ws[n].used, x);
    if ActsInScope(x.sel, ws[n].zone, NextCall(x.phase)) {
      ScopeIsolation(x.sel, ws[n].zone, NextCall(x.phase), acts[n].ev);
    }
  }

  /** Reusing IDs would break it: after a stale delete, the ID names another instance's record. */
  lemma ReuseWouldBreak() returns (sel: Selector, other: Selector, zone: Zone, cache: Option<seq<Record>>, id: ID)
    ensures Disjoint(sel, other) && Superset(sel, map[], cache) && cache.Some? && HasId(cache.value, id)
    ensures Managed(other, zone, id) && !Superset(sel, zone, cache)
  {
    var mine, theirs := Params(1, false, "m", []), Params(1, false, "t", []);
    sel, other, id := c => c == "m", c => c == "t", "a";
    zone := map[id := Entry(V4(2), theirs)];
    cache := Some([Record(id, V4(1), mine)]);
    assert cache.value[0].id == id && cache.value[0].id in zone;
  }

  /** A finished instance's cover lasts until its own next call, whatever the others do. */
  lemma CoverLasts(ws: seq<World>, acts: seq<Action>, n: nat, to: nat)
    requires Behaviour(ws, acts) && Initial(ws[0]) && n < |acts| && acts[n].Finish? && n < to < |ws|
    requires forall m :: n < m < to ==> acts[m].Outside? || acts[m].i != acts[n].i
    ensures acts[n].i < |ws[n].instances|
    ensures var x := ws[n].instances[acts[n].i];
      x.phase.Running? && ExactCover(x.sel, ws[to].zone, x.phase.targets)
  {
    hide Inv, InstanceInv, Initial;
    var j := acts[n].i;
    assert Next(ws[n], acts[n], ws[n + 1]);
    InstancesLength(ws, acts, n);
    Convergence(ws, acts, n);
    InstancesPersist(ws, acts, j, n);
    Isolation(ws, acts, j, n + 1, to);
    CoverRespectsView(ws[n].instances[j].sel, ws[n + 1].zone, ws[to].zone, ws[n].instances[j].phase.targets);
  }

  lemma {:induction false} InstancesLength(ws: seq<World>, acts: seq<Action>, n: nat)
    requires Behaviour(ws, acts) && n < |ws|
    ensures |ws[n].instances| == |ws[0].instances|
  {
    if n > 0 {
      InstancesLength(ws, acts, n - 1);
      assert Next(ws[n - 1], acts[n - 1], ws[n]);
    }
  }

  lemma CoverRespectsView(sel: Selector, a: Zone, b: Zone, targets: seq<Addr>)
    requires SameView(sel, a, b) && ExactCover(sel, a, targets)
    ensures ExactCover(sel, b, targets)
  {
    hide Unmap;
    forall t | t in targets ensures Covers(sel, b, t) {
      var id :| Managed(sel, a, id) && Unmap(a[id].ip) == t;
      assert Managed(sel, b, id);
    }
    forall id | Managed(sel, b, id) ensures Unmap(b[id].ip) in targets { assert Managed(sel, a, id); }
  }
}
