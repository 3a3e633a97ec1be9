/** Executing a plan against the server: progress, safety at every prefix, and optimality. */
module Execution {
  import opened Addresses
  import opened Sorting
  import opened Reconcile

  datatype Step = Step(call: Call, ev: Event)

  /** The zone after a sequence of calls by one instance. */
  function Run(zone: Zone, steps: seq<Step>): Zone {
    if |steps| == 0 then zone
    else
      var last := steps[|steps| - 1];
      Effect(Run(zone, steps[..|steps| - 1]), last.call, last.ev)
  }

  /** Every step was possible when it was taken. */
  ghost predicate Feasible(zone: Zone, steps: seq<Step>) {
    forall k :: 0 <= k < |steps| ==> Possible(Run(zone, steps[..k]), steps[k].call, steps[k].ev)
  }

  lemma FeasiblePrefix(zone: Zone, steps: seq<Step>, n: nat)
    requires n <= |steps| && Feasible(zone, steps)
    ensures Feasible(zone, steps[..n])
  {
    forall k | 0 <= k < n ensures Possible(Run(zone, steps[..n][..k]), steps[k].call, steps[k].ev) {
      assert steps[..n][..k] == steps[..k];
    }
  }

  // ---------------------------------------------------------------------------
  // Progress: what k confirmed calls of the plan have achieved

  /** Some pending target is t. */
  predicate Pending(unmatched: seq<Addr>, k: nat, t: Addr) {
    exists j :: k <= j < |unmatched| && unmatched[j] == t
  }

  /** Record id still waits in the queue. */
  predicate Queued(queue: seq<Record>, k: nat, id: ID) {
    exists j :: k <= j < |queue| && queue[j].id == id
  }

  ghost predicate Reached(sel: Selector, zone: Zone, targets: seq<Addr>,
                          unmatched: seq<Addr>, queue: seq<Record>, k: nat) {
    && (forall id :: Managed(sel, zone, id) ==> Unmap(zone[id].ip) in targets || Queued(queue, k, id))
    && (forall t :: t in targets ==> Covers(sel, zone, t) || Pending(unmatched, k, t))
    && (forall j :: k <= j < |queue| ==>
      Managed(sel, zone, queue[j].id) && Unmap(zone[queue[j].id].ip) !in targets)
  }

  /** The plan's parts, apart from the listing they came from. */
  ghost predicate WellFormed(targets: seq<Addr>, unmatched: seq<Addr>, queue: seq<Record>) {
    && TargetSet(targets)
    && DistinctIds(queue)
    && Distinct(unmatched)
    && (forall t :: t in unmatched ==> t in targets)
  }

  lemma ListedIffCovered(sel: Selector, zone: Zone, rs: seq<Record>, t: Addr)
    requires Exact(sel, zone, rs)
    ensures Listed(rs, t) <==> Covers(sel, zone, t)
  {
    if Covers(sel, zone, t) {
      var id :| Managed(sel, zone, id) && Unmap(zone[id].ip) == t;
      assert HasId(rs, id);
    }
    if Listed(rs, t) {
      var i :| 0 <= i < |rs| && Unmap(rs[i].ip) == t;
      assert Managed(sel, zone, rs[i].id);
    }
  }

  lemma PlanStarts(sel: Selector, zone: Zone, targets: seq<Addr>, fallback: Params, rs: seq<Record>,
                   unmatched: seq<Addr>, queue: seq<Record>, p: Params)
    requires Exact(sel, zone, rs) && TargetSet(targets)
    requires Planned(targets, rs, fallback, unmatched, queue, p)
    ensures WellFormed(targets, unmatched, queue)
    ensures Reached(sel, zone, targets, unmatched, queue, 0)
  {
    hide Ordered, IsResolved, Outdated, Unmatched, Unmap, Canonical, IsValid;
    UnmatchedMembers(targets, rs);
    QueueMembers(targets, rs, p);
    forall id | Managed(sel, zone, id) && Unmap(zone[id].ip) !in targets ensures Queued(queue, 0, id) {
      var i :| 0 <= i < |rs| && rs[i].id == id;
      assert rs[i] in rs && !Keeps(targets, rs[i]);
      assert rs[i] in queue;
    }
    forall t | t in targets ensures Covers(sel, zone, t) || Pending(unmatched, 0, t) {
      ListedIffCovered(sel, zone, rs, t);
      if t in unmatched {
        var j :| 0 <= j < |unmatched| && unmatched[j] == t;
      }
    }
    forall j | 0 <= j < |queue|
      ensures Managed(sel, zone, queue[j].id) && Unmap(zone[queue[j].id].ip) !in targets
    {
      assert queue[j] in queue;
      var i :| 0 <= i < |rs| && rs[i] == queue[j];
      assert !Keeps(targets, rs[i]);
      if Unmap(rs[i].ip) in targets { TargetsAreValid(targets, Unmap(rs[i].ip)); }
    }
  }

  /** Resolved metadata keeps the comment in scope: it is an outdated managed record's, or the fallback. */
  lemma ResolvedInScope(sel: Selector, zone: Zone, rs: seq<Record>, targets: seq<Addr>, fallback: Params, p: Params)
    requires Exact(sel, zone, rs) && sel(fallback.comment)
    requires IsResolved(fallback, Outdated(targets, rs), p)
    ensures sel(p.comment)
  {
    hide Unmap, Keeps;
    var outdated := Outdated(targets, rs);
    if p.comment != fallback.comment {
      var comments := Column(CommentOf, outdated);
      assert |comments| > 0 && p.comment == comments[0];
      assert |comments| == |outdated| && comments[0] == CommentOf(outdated[0]);
      OutdatedCount(targets, rs, outdated[0]);
      assert outdated[0] in multiset(outdated);
      assert outdated[0] in multiset(rs);
      assert outdated[0] in rs;
    }
  }

  lemma TargetsAreValid(targets: seq<Addr>, a: Addr)
    requires TargetSet(targets) && a in targets
    ensures IsValid(a) && Unmap(a) == a
  {
    assert Canonical(a);
  }

  /** One confirmed call of the plan moves it one step on. */
  lemma PlanAdvances(sel: Selector, zone: Zone, targets: seq<Addr>, unmatched: seq<Addr>, queue: seq<Record>,
                     p: Params, k: nat, ev: Event)
    requires WellFormed(targets, unmatched, queue)
    requires Reached(sel, zone, targets, unmatched, queue, k) && k < PlanLength(unmatched, queue)
    requires sel(p.comment) && ev.outcome.Confirmed?
    requires var call := PlanCall(unmatched, queue, p, k);
      Possible(zone, call, ev) && KeepsScope(sel, call, ev)
    ensures var call := PlanCall(unmatched, queue, p, k);
      Reached(sel, Effect(zone, call, ev), targets, unmatched, queue, k + 1)
  {
    hide Unmap, Canonical;
    var call := PlanCall(unmatched, queue, p, k);
    var zone' := Effect(zone, call, ev);
    if k < |unmatched| {
      assert unmatched[k] in unmatched && unmatched[k] in targets;
      TargetsAreValid(targets, unmatched[k]);
      var id := if k < |queue| then queue[k].id else ev.newId;
      assert zone' == zone[id := Entry(unmatched[k], ev.stored)];
      assert Managed(sel, zone', id) && Covers(sel, zone', unmatched[k]);
      assert k < |queue| ==> Unmap(zone[id].ip) !in targets;
      WriteAdvances(sel, zone, zone', targets, unmatched, queue, k, id);
    } else {
      var id := queue[k].id;
      DeleteAdvances(sel, zone, zone', targets, unmatched, queue, k, id);
    }
  }

  lemma WriteAdvances(sel: Selector, zone: Zone, zone': Zone, targets: seq<Addr>,
                      unmatched: seq<Addr>, queue: seq<Record>, k: nat, id: ID)
    requires WellFormed(targets, unmatched, queue)
    requires Reached(sel, zone, targets, unmatched, queue, k) && k < |unmatched|
    requires id in zone' && zone'.Keys == zone.Keys + {id}
    requires forall i :: i in zone && i != id ==> zone'[i] == zone[i]
    requires Managed(sel, zone', id) && Unmap(zone'[id].ip) == unmatched[k] && unmatched[k] in targets
    requires if k < |queue| then id == queue[k].id else id !in zone
    ensures Reached(sel, zone', targets, unmatched, queue, k + 1)
  {
    hide Unmap, Canonical;
    forall i | Managed(sel, zone', i) ensures Unmap(zone'[i].ip) in targets || Queued(queue, k + 1, i) {
      if i != id { assert Managed(sel, zone, i); }
    }
    forall t | t in targets ensures Covers(sel, zone', t) || Pending(unmatched, k + 1, t) {
      if Pending(unmatched, k, t) {
        var j :| k <= j < |unmatched| && unmatched[j] == t;
        assert j == k ==> Covers(sel, zone', t);
      } else {
        var i :| Managed(sel, zone, i) && Unmap(zone[i].ip) == t;
        assert i != id;
        assert Managed(sel, zone', i);
      }
    }
  }

  lemma DeleteAdvances(sel: Selector, zone: Zone, zone': Zone, targets: seq<Addr>,
                       unmatched: seq<Addr>, queue: seq<Record>, k: nat, id: ID)
    requires WellFormed(targets, unmatched, queue)
    requires Reached(sel, zone, targets, unmatched, queue, k) && |unmatched| <= k < |queue|
    requires id == queue[k].id && zone' == zone - {id}
    ensures Reached(sel, zone', targets, unmatched, queue, k + 1)
  {
    hide Unmap, Canonical;
    forall i | Managed(sel, zone', i) ensures Unmap(zone'[i].ip) in targets || Queued(queue, k + 1, i) {
      assert Managed(sel, zone, i);
    }
    forall t | t in targets ensures Covers(sel, zone', t) {
      assert !Pending(unmatched, k, t);
      var i :| Managed(sel, zone, i) && Unmap(zone[i].ip) == t;
      assert Managed(sel, zone', i);
    }
  }

  /** A plan carried out to its end leaves exactly the targets. */
  lemma PlanCompletes(sel: Selector, zone: Zone, targets: seq<Addr>, unmatched: seq<Addr>, queue: seq<Record>)
    requires Reached(sel, zone, targets, unmatched, queue, PlanLength(unmatched, queue))
    ensures ExactCover(sel, zone, targets)
  {
    var k := PlanLength(unmatched, queue);
    assert forall id :: !Queued(queue, k, id);
    assert forall t :: !Pending(unmatched, k, t);
  }

  /** An up-to-date listing means the plan is empty, and conversely. */
  lemma EmptyPlan(sel: Selector, zone: Zone, targets: seq<Addr>, unmatched: seq<Addr>, queue: seq<Record>)
    requires Reached(sel, zone, targets, unmatched, queue, 0)
    requires forall t :: t in unmatched ==> t in targets && !Covers(sel, zone, t)
    ensures PlanLength(unmatched, queue) == 0 <==> ExactCover(sel, zone, targets)
  {
    if PlanLength(unmatched, queue) == 0 {
      PlanCompletes(sel, zone, targets, unmatched, queue);
    } else if |unmatched| > 0 {
      assert unmatched[0] in unmatched;
    } else {
      assert Managed(sel, zone, queue[0].id);
    }
  }

  // ---------------------------------------------------------------------------
  // Isolation: what one instance's calls leave alone

  /** The call writes inside the scope, or touches a record inside it. */
  predicate ActsInScope(sel: Selector, zone: Zone, call: Call) {
    match call
    case Update(id, _, p) => Managed(sel, zone, id) && sel(p.comment)
    case Create(_, p) => sel(p.comment)
    case Delete(id) => Managed(sel, zone, id)
  }

  lemma PlanActsInScope(sel: Selector, zone: Zone, targets: seq<Addr>, unmatched: seq<Addr>, queue: seq<Record>,
                        p: Params, k: nat)
    requires Reached(sel, zone, targets, unmatched, queue, k) && k < PlanLength(unmatched, queue)
    requires sel(p.comment)
    ensures ActsInScope(sel, zone, PlanCall(unmatched, queue, p, k))
  {
  }

  /** Whatever the answer, records outside the scope keep their place and content, and new ones are in scope. */
  lemma ScopeIsolation(sel: Selector, zone: Zone, call: Call, ev: Event)
    requires ActsInScope(sel, zone, call) && Possible(zone, call, ev) && KeepsScope(sel, call, ev)
    ensures var zone' := Effect(zone, call, ev);
      && (forall id :: id in zone && !Managed(sel, zone, id) ==> id in zone' && zone'[id] == zone[id])
      && (forall id :: id in zone' && !Managed(sel, zone', id) ==> id in zone && zone[id] == zone'[id])
  {
  }

  /** A disjoint selector sees nothing of it. */
  lemma DisjointViewUnchanged(sel: Selector, other: Selector, zone: Zone, call: Call, ev: Event)
    requires forall c :: !(sel(c) && other(c))
    requires ActsInScope(sel, zone, call) && Possible(zone, call, ev) && KeepsScope(sel, call, ev)
    ensures SameView(other, zone, Effect(zone, call, ev))
  {
    ScopeIsolation(sel, zone, call, ev);
  }

  lemma ReachedRespectsView(sel: Selector, a: Zone, b: Zone, targets: seq<Addr>,
                            unmatched: seq<Addr>, queue: seq<Record>, k: nat)
    requires SameView(sel, a, b) && Reached(sel, a, targets, unmatched, queue, k)
    ensures Reached(sel, b, targets, unmatched, queue, k)
  {
    hide Unmap;
    forall t | t in targets ensures Covers(sel, b, t) || Pending(unmatched, k, t) {
      if Covers(sel, a, t) {
        var id :| Managed(sel, a, id) && Unmap(a[id].ip) == t;
        assert Managed(sel, b, id);
      }
    }
    forall id | Managed(sel, b, id) ensures Unmap(b[id].ip) in targets || Queued(queue, k, id) {
      assert Managed(sel, a, id);
    }
  }

  lemma ExactRespectsView(sel: Selector, a: Zone, b: Zone, rs: seq<Record>)
    requires SameView(sel, a, b) && Exact(sel, a, rs)
    ensures Exact(sel, b, rs)
  {
    forall id | Managed(sel, b, id) ensures HasId(rs, id) { assert Managed(sel, a, id); }
  }

  // ---------------------------------------------------------------------------
  // Safety at every prefix of a run, including one cut by a failed call

  /** The steps take the plan's calls in order, and only the last may be unconfirmed. */
  ghost predicate Follows(sel: Selector, zone: Zone, unmatched: seq<Addr>, queue: seq<Record>, p: Params,
                          steps: seq<Step>) {
    && |steps| <= PlanLength(unmatched, queue)
    && Feasible(zone, steps)
    && (forall k :: 0 <= k < |steps| ==>
      steps[k].call == PlanCall(unmatched, queue, p, k) && KeepsScope(sel, steps[k].call, steps[k].ev))
    && (forall k :: 0 <= k < |steps| - 1 ==> steps[k].ev.outcome.Confirmed?)
  }

  lemma FollowsPrefix(sel: Selector, zone: Zone, unmatched: seq<Addr>, queue: seq<Record>, p: Params,
                      steps: seq<Step>, n: nat)
    requires n <= |steps| && Follows(sel, zone, unmatched, queue, p, steps)
    ensures Follows(sel, zone, unmatched, queue, p, steps[..n])
  {
    FeasiblePrefix(zone, steps, n);
  }

  lemma EmptyFollows(sel: Selector, zone: Zone, unmatched: seq<Addr>, queue: seq<Record>, p: Params)
    ensures Follows(sel, zone, unmatched, queue, p, []) && Run(zone, []) == zone
  {
  }

  lemma FeasibleExtends(zone: Zone, steps: seq<Step>, call: Call, ev: Event)
    requires Feasible(zone, steps) && Possible(Run(zone, steps), call, ev)
    ensures Feasible(zone, steps + [Step(call, ev)])
    ensures Run(zone, steps + [Step(call, ev)]) == Effect(Run(zone, steps), call, ev)
  {
    hide Possible, Effect;
    var after := steps + [Step(call, ev)];
    assert after[..|steps|] == steps;
    forall k | 0 <= k < |after| ensures Possible(Run(zone, after[..k]), after[k].call, after[k].ev) {
      if k < |steps| { assert after[..k] == steps[..k]; }
    }
  }

  lemma FollowsExtends(sel: Selector, zone: Zone, unmatched: seq<Addr>, queue: seq<Record>, p: Params,
                       steps: seq<Step>, call: Call, ev: Event)
    requires Follows(sel, zone, unmatched, queue, p, steps)
    requires |steps| > 0 ==> steps[|steps| - 1].ev.outcome.Confirmed?
    requires |steps| < PlanLength(unmatched, queue) && call == PlanCall(unmatched, queue, p, |steps|)
    requires Possible(Run(zone, steps), call, ev) && KeepsScope(sel, call, ev)
    ensures Follows(sel, zone, unmatched, queue, p, steps + [Step(call, ev)])
    ensures Run(zone, steps + [Step(call, ev)]) == Effect(Run(zone, steps), call, ev)
  {
    hide Possible, KeepsScope, PlanCall, Effect, Feasible, Run;
    FeasibleExtends(zone, steps, call, ev);
  }

  lemma {:induction false} RunReaches(sel: Selector, zone: Zone, targets: seq<Addr>,
                                      unmatched: seq<Addr>, queue: seq<Record>, p: Params, steps: seq<Step>)
    requires WellFormed(targets, unmatched, queue) && sel(p.comment)
    requires Reached(sel, zone, targets, unmatched, queue, 0)
    requires Follows(sel, zone, unmatched, queue, p, steps)
    requires |steps| > 0 ==> steps[|steps| - 1].ev.outcome.Confirmed?
    ensures Reached(sel, Run(zone, steps), targets, unmatched, queue, |steps|)
  {
    if |steps| > 0 {
      var n := |steps| - 1;
      FollowsPrefix(sel, zone, unmatched, queue, p, steps, n);
      RunReaches(sel, zone, targets, unmatched, queue, p, steps[..n]);
      hide Reached, WellFormed;
      PlanAdvances(sel, Run(zone, steps[..n]), targets, unmatched, queue, p, n, steps[n].ev);
    }
  }

  /** A record the run's calls never name keeps its place and content. */
  lemma {:induction false} UntouchedStays(zone: Zone, steps: seq<Step>, id: ID)
    requires id in zone && Feasible(zone, steps) && id !in Touched(steps)
    ensures id in Run(zone, steps) && Run(zone, steps)[id] == zone[id]
  {
    if |steps| > 0 {
      var n := |steps| - 1;
      FeasiblePrefix(zone, steps, n);
      UntouchedStays(zone, steps[..n], id);
      assert Possible(Run(zone, steps[..n]), steps[n].call, steps[n].ev);
    }
  }

  lemma {:induction false} TouchedByPlan(sel: Selector, zone: Zone, unmatched: seq<Addr>, queue: seq<Record>,
                                         p: Params, steps: seq<Step>, id: ID)
    requires Follows(sel, zone, unmatched, queue, p, steps) && !Queued(queue, 0, id)
    ensures id !in Touched(steps)
  {
    if |steps| > 0 {
      var n := |steps| - 1;
      FollowsPrefix(sel, zone, unmatched, queue, p, steps, n);
      TouchedByPlan(sel, zone, unmatched, queue, p, steps[..n], id);
      assert steps[n].call == PlanCall(unmatched, queue, p, n);
    }
  }

  /** Every target covered at the start stays covered by the same untouched record. */
  lemma CoveredStaysCovered(sel: Selector, zone: Zone, targets: seq<Addr>, unmatched: seq<Addr>, queue: seq<Record>,
                            p: Params, steps: seq<Step>, id: ID)
    requires Reached(sel, zone, targets, unmatched, queue, 0)
    requires Follows(sel, zone, unmatched, queue, p, steps)
    requires Managed(sel, zone, id) && Unmap(zone[id].ip) in targets
    ensures id in Run(zone, steps) && Run(zone, steps)[id] == zone[id]
  {
    hide Unmap;
    TouchedByPlan(sel, zone, unmatched, queue, p, steps, id);
    UntouchedStays(zone, steps, id);
  }

  /** No delete is issued before every target is covered. */
  lemma DeletesComeLast(sel: Selector, zone: Zone, targets: seq<Addr>, unmatched: seq<Addr>, queue: seq<Record>,
                        p: Params, steps: seq<Step>, t: Addr)
    requires WellFormed(targets, unmatched, queue) && sel(p.comment)
    requires Reached(sel, zone, targets, unmatched, queue, 0)
    requires Follows(sel, zone, unmatched, queue, p, steps)
    requires |steps| > 0 && steps[|steps| - 1].call.Delete? && t in targets
    ensures Covers(sel, Run(zone, steps[..|steps| - 1]), t)
    ensures Covers(sel, Run(zone, steps), t)
  {
    hide Unmap, WellFormed;
    var n := |steps| - 1;
    FollowsPrefix(sel, zone, unmatched, queue, p, steps, n);
    RunReaches(sel, zone, targets, unmatched, queue, p, steps[..n]);
    var before := Run(zone, steps[..n]);
    assert steps[n].call == PlanCall(unmatched, queue, p, n) == Delete(queue[n].id);
    assert !Pending(unmatched, n, t);
    var id :| Managed(sel, before, id) && Unmap(before[id].ip) == t;
    assert id != queue[n].id;
    assert Managed(sel, Run(zone, steps), id);
  }

  /** A name that has managed records never loses them all while there are targets. */
  lemma NeverEmptied(sel: Selector, zone: Zone, targets: seq<Addr>, unmatched: seq<Addr>, queue: seq<Record>,
                     p: Params, steps: seq<Step>, id: ID) returns (alive: ID)
    requires WellFormed(targets, unmatched, queue) && sel(p.comment)
    requires Reached(sel, zone, targets, unmatched, queue, 0)
    requires Follows(sel, zone, unmatched, queue, p, steps)
    requires Managed(sel, zone, id) && |targets| > 0
    ensures Managed(sel, Run(zone, steps), alive)
  {
    hide Unmap;
    if Unmap(zone[id].ip) in targets {
      CoveredStaysCovered(sel, zone, targets, unmatched, queue, p, steps, id);
      alive := id;
    } else if i :| Managed(sel, zone, i) && Unmap(zone[i].ip) in targets {
      CoveredStaysCovered(sel, zone, targets, unmatched, queue, p, steps, i);
      alive := i;
    } else {
      assert Queued(queue, 0, id);
      assert targets[0] in targets && Pending(unmatched, 0, targets[0]);
      alive := queue[0].id;
      FirstRecycled(sel, zone, unmatched, queue, p, steps);
    }
  }

  lemma {:induction false} FirstRecycled(sel: Selector, zone: Zone, unmatched: seq<Addr>, queue: seq<Record>,
                                         p: Params, steps: seq<Step>)
    requires |unmatched| > 0 && |queue| > 0 && DistinctIds(queue) && sel(p.comment)
    requires Managed(sel, zone, queue[0].id)
    requires Follows(sel, zone, unmatched, queue, p, steps)
    ensures Managed(sel, Run(zone, steps), queue[0].id)
  {
    if |steps| > 0 {
      var n := |steps| - 1;
      FollowsPrefix(sel, zone, unmatched, queue, p, steps, n);
      FirstRecycled(sel, zone, unmatched, queue, p, steps[..n]);
      assert Possible(Run(zone, steps[..n]), steps[n].call, steps[n].ev);
      assert steps[n].call == PlanCall(unmatched, queue, p, n);
      assert KeepsScope(sel, steps[n].call, steps[n].ev);
    }
  }

  // ---------------------------------------------------------------------------
  // Optimality

  /** The addresses written by some step. */
  function Written(steps: seq<Step>): set<Addr> {
    if |steps| == 0 then {}
    else
      var last := steps[|steps| - 1].call;
      Written(steps[..|steps| - 1]) + if last.Delete? then {} else {Unmap(last.ip)}
  }

  /** The existing records named by some step. */
  function Touched(steps: seq<Step>): set<ID> {
    if |steps| == 0 then {}
    else
      var last := steps[|steps| - 1].call;
      Touched(steps[..|steps| - 1]) + if last.Create? then {} else {last.id}
  }

  lemma {:induction false} AtMostOneEach(steps: seq<Step>)
    ensures |Written(steps)| <= |steps| && |Touched(steps)| <= |steps|
  {
    hide Unmap;
    if |steps| > 0 { AtMostOneEach(steps[..|steps| - 1]); }
  }

  /** A record after any run is either an untouched old one or holds a written address. */
  lemma {:induction false} Provenance(zone: Zone, steps: seq<Step>, id: ID)
    requires Feasible(zone, steps) && id in Run(zone, steps)
    ensures Unmap(Run(zone, steps)[id].ip) in Written(steps) || (id in zone && Run(zone, steps)[id] == zone[id])
  {
    hide Unmap;
    if |steps| > 0 {
      var n := |steps| - 1;
      FeasiblePrefix(zone, steps, n);
      var before, last := Run(zone, steps[..n]), steps[n];
      assert Possible(before, last.call, last.ev);
      if id in before && before[id] == Run(zone, steps)[id] {
        Provenance(zone, steps[..n], id);
        assert Written(steps[..n]) <= Written(steps);
      } else {
        assert Run(zone, steps)[id].ip == last.call.ip;
      }
    }
  }

  /** No sequence of calls that reaches an exact cover is shorter than the plan. */
  lemma PlanIsShortest(sel: Selector, zone: Zone, targets: seq<Addr>, fallback: Params, rs: seq<Record>,
                       unmatched: seq<Addr>, queue: seq<Record>, p: Params, steps: seq<Step>)
    requires Exact(sel, zone, rs) && TargetSet(targets)
    requires Planned(targets, rs, fallback, unmatched, queue, p)
    requires Feasible(zone, steps) && ExactCover(sel, Run(zone, steps), targets)
    ensures |steps| >= PlanLength(unmatched, queue)
  {
    hide Unmap, Ordered, Outdated, IsResolved, Canonical;
    PlanStarts(sel, zone, targets, fallback, rs, unmatched, queue, p);
    AtMostOneEach(steps);
    AllWritten(sel, zone, targets, rs, unmatched, steps);
    AllTouched(sel, zone, targets, unmatched, queue, steps);
    DistinctLength(unmatched);
    var ids := seq(|queue|, i requires 0 <= i < |queue| => queue[i].id);
    DistinctLength(ids);
    SubsetSize((set t | t in unmatched), Written(steps));
    SubsetSize((set i | i in ids), Touched(steps));
  }

  lemma SubsetSize<T>(a: set<T>, b: set<T>)
    requires a <= b
    ensures |a| <= |b|
  {
    assert b == a + (b - a);
  }

  lemma AllWritten(sel: Selector, zone: Zone, targets: seq<Addr>, rs: seq<Record>, unmatched: seq<Addr>,
                   steps: seq<Step>)
    requires Exact(sel, zone, rs) && unmatched == Unmatched(targets, rs)
    requires Feasible(zone, steps) && ExactCover(sel, Run(zone, steps), targets)
    ensures forall t :: t in unmatched ==> t in Written(steps)
  {
    hide Unmap;
    UnmatchedMembers(targets, rs);
    forall t | t in unmatched ensures t in Written(steps) {
      var end := Run(zone, steps);
      assert Covers(sel, end, t);
      var id :| Managed(sel, end, id) && Unmap(end[id].ip) == t;
      Provenance(zone, steps, id);
      if id in zone && end[id] == zone[id] {
        assert Managed(sel, zone, id) && Covers(sel, zone, t);
        ListedIffCovered(sel, zone, rs, t);
      }
    }
  }

  lemma AllTouched(sel: Selector, zone: Zone, targets: seq<Addr>, unmatched: seq<Addr>, queue: seq<Record>,
                   steps: seq<Step>)
    requires Reached(sel, zone, targets, unmatched, queue, 0)
    requires Feasible(zone, steps) && ExactCover(sel, Run(zone, steps), targets)
    ensures forall j :: 0 <= j < |queue| ==> queue[j].id in Touched(steps)
  {
    hide Unmap;
    forall j | 0 <= j < |queue| ensures queue[j].id in Touched(steps) {
      var id := queue[j].id;
      assert Managed(sel, zone, id);
      if id !in Touched(steps) {
        UntouchedStays(zone, steps, id);
      }
    }
  }

  /** How many of the first n calls of a plan recycle a record. */
  function Recycled(unmatched: seq<Addr>, queue: seq<Record>, p: Params, n: nat): nat
    requires n <= PlanLength(unmatched, queue)
  {
    if n == 0 then 0
    else Recycled(unmatched, queue, p, n - 1) + if PlanCall(unmatched, queue, p, n - 1).Update? then 1 else 0
  }

  /** A completed plan recycles as many records as possible. */
  lemma {:induction false} RecyclesAll(unmatched: seq<Addr>, queue: seq<Record>, p: Params, n: nat)
    requires n <= PlanLength(unmatched, queue)
    ensures Recycled(unmatched, queue, p, n) ==
            if n <= |unmatched| && n <= |queue| then n
            else if |unmatched| <= |queue| then |unmatched| else |queue|
  {
    if n > 0 { RecyclesAll(unmatched, queue, p, n - 1); }
  }
}
