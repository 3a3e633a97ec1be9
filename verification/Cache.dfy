/** What each API call does to a cached listing, and when the cache stays exact. */
module Cache {
  import opened Results
  import opened Addresses
  import opened Reconcile

  datatype DeletionMode = RegularDeletion | FinalDeletion

  function RemoveId(rs: seq<Record>, id: ID): seq<Record> {
    if |rs| == 0 then []
    else if rs[|rs| - 1].id == id then RemoveId(rs[..|rs| - 1], id)
    else RemoveId(rs[..|rs| - 1], id) + [rs[|rs| - 1]]
  }

  /** Index of the first record with the ID, or |rs|. */
  function FindId(rs: seq<Record>, id: ID): (k: nat)
    ensures k <= |rs|
    ensures k < |rs| ==> rs[k].id == id
    ensures forall j :: 0 <= j < k ==> rs[j].id != id
  {
    if |rs| == 0 || rs[0].id == id then 0 else 1 + FindId(rs[1..], id)
  }

  /** Overwrite the record with the new record's ID in place, or put the new one in front. */
  function Upsert(rs: seq<Record>, r: Record): seq<Record> {
    var k := FindId(rs, r.id);
    if k < |rs| then rs[k := r] else [r] + rs
  }

  /** The cache entry after a call. */
  function CacheAfter(sel: Selector, cache: Option<seq<Record>>, call: Call, ev: Event, mode: DeletionMode)
    : Option<seq<Record>>
  {
    if ev.expired || cache.None? then None
    else
      match ev.outcome
      case ZoneUnknown => cache
      case Unconfirmed(_) => if call.Delete? && mode.FinalDeletion? then cache else None
      case Confirmed =>
        match call
        case Delete(id) => Some(RemoveId(cache.value, id))
        case Update(id, ip, _) =>
          if sel(ev.stored.comment) then Some(Upsert(cache.value, Record(id, ip, ev.stored)))
          else Some(RemoveId(cache.value, id))
        case Create(ip, p) =>
          if sel(p.comment) then Some([Record(ev.newId, ip, p)] + cache.value) else cache
  }

  /** A present cache entry lists exactly the managed records. */
  ghost predicate Coherent(sel: Selector, zone: Zone, cache: Option<seq<Record>>) {
    cache.Some? ==> Exact(sel, zone, cache.value)
  }

  /** A present cache entry misses no managed record and names no foreign one. */
  ghost predicate Superset(sel: Selector, zone: Zone, cache: Option<seq<Record>>) {
    cache.Some? ==>
      && DistinctIds(cache.value)
      && (forall i :: 0 <= i < |cache.value| && cache.value[i].id in zone ==> Managed(sel, zone, cache.value[i].id))
      && (forall id :: Managed(sel, zone, id) ==> HasId(cache.value, id))
  }

  lemma ExactIsSuperset(sel: Selector, zone: Zone, rs: seq<Record>)
    requires Exact(sel, zone, rs)
    ensures Superset(sel, zone, Some(rs))
  {
  }

  lemma {:induction false} RemoveIdMembers(rs: seq<Record>, id: ID)
    ensures forall r :: r in RemoveId(rs, id) <==> r in rs && r.id != id
    ensures DistinctIds(rs) ==> DistinctIds(RemoveId(rs, id))
    ensures forall i :: HasId(RemoveId(rs, id), i) <==> HasId(rs, i) && i != id
  {
    if |rs| > 0 {
      var n := |rs| - 1;
      assert rs == rs[..n] + [rs[n]];
      RemoveIdMembers(rs[..n], id);
      var rest := RemoveId(rs[..n], id);
      forall i ensures HasId(RemoveId(rs, id), i) <==> HasId(rs, i) && i != id {
        HasIdMember(rs, i);
        HasIdMember(RemoveId(rs, id), i);
        HasIdMember(rest, i);
        HasIdMember(rs[..n], i);
      }
      if DistinctIds(rs) {
        forall j | 0 <= j < |rest| ensures rest[j].id != rs[n].id {
          assert rest[j] in rest && rest[j] in rs[..n];
        }
      }
    }
  }

  lemma HasIdMember(rs: seq<Record>, id: ID)
    ensures HasId(rs, id) <==> exists r :: r in rs && r.id == id
  {
  }

  /** The record is there, and all others are as before. */
  lemma UpsertMembers(rs: seq<Record>, r: Record)
    requires DistinctIds(rs)
    ensures forall q :: q in Upsert(rs, r) <==> q == r || (q in rs && q.id != r.id)
  {
    var k, after := FindId(rs, r.id), Upsert(rs, r);
    forall q | q in rs && q.id != r.id ensures q in after {
      var i :| 0 <= i < |rs| && rs[i] == q;
      assert after[if k < |rs| then i else i + 1] == q;
    }
    assert after[if k < |rs| then k else 0] == r;
  }

  lemma ExactRemove(sel: Selector, zone: Zone, zone': Zone, rs: seq<Record>, id: ID)
    requires Exact(sel, zone, rs)
    requires forall i :: i != id ==> (i in zone <==> i in zone') && (i in zone ==> zone[i] == zone'[i])
    requires !Managed(sel, zone', id)
    ensures Exact(sel, zone', RemoveId(rs, id))
  {
    RemoveIdMembers(rs, id);
    var rest := RemoveId(rs, id);
    forall i | 0 <= i < |rest|
      ensures Managed(sel, zone', rest[i].id) && zone'[rest[i].id].ip == rest[i].ip && sel(rest[i].params.comment)
    {
      assert rest[i] in rest && rest[i] in rs;
    }
  }

  lemma ExactUpsert(sel: Selector, zone: Zone, zone': Zone, rs: seq<Record>, r: Record)
    requires Exact(sel, zone, rs)
    requires forall i :: i != r.id ==> (i in zone <==> i in zone') && (i in zone ==> zone[i] == zone'[i])
    requires Managed(sel, zone', r.id) && zone'[r.id].ip == r.ip && sel(r.params.comment)
    ensures Exact(sel, zone', Upsert(rs, r))
  {
    var k, after := FindId(rs, r.id), Upsert(rs, r);
    assert Truthful(sel, zone', after) by {
      forall i | 0 <= i < |after|
        ensures Managed(sel, zone', after[i].id) && zone'[after[i].id].ip == after[i].ip && sel(after[i].params.comment)
      {
        if after[i] != r { assert after[i] == rs[if k < |rs| then i else i - 1] && after[i].id != r.id; }
      }
    }
    hide Truthful;
    forall i | Managed(sel, zone', i) ensures HasId(after, i) {
      if i == r.id {
        assert after[if k < |rs| then k else 0].id == i;
      } else {
        assert Managed(sel, zone, i);
        var j :| 0 <= j < |rs| && rs[j].id == i;
        assert after[if k < |rs| then j else j + 1].id == i;
      }
    }
  }

  /** Created records need the server to keep the scope of the comment; everything else keeps the cache exact. */
  lemma CacheStepIff(sel: Selector, zone: Zone, cache: Option<seq<Record>>, call: Call, ev: Event)
    requires Coherent(sel, zone, cache) && Possible(zone, call, ev)
    ensures Coherent(sel, Effect(zone, call, ev), CacheAfter(sel, cache, call, ev, RegularDeletion))
            <==> (call.Create? && ev.outcome.Confirmed? && !ev.expired && cache.Some? ==> KeepsScope(sel, call, ev))
  {
    var zone' := Effect(zone, call, ev);
    if ev.expired || cache.None? || !ev.outcome.Confirmed? {
    } else {
      match call
      case Delete(id) => ExactRemove(sel, zone, zone', cache.value, id);
      case Update(id, ip, _) =>
        if sel(ev.stored.comment) {
          ExactUpsert(sel, zone, zone', cache.value, Record(id, ip, ev.stored));
        } else {
          ExactRemove(sel, zone, zone', cache.value, id);
        }
      case Create(ip, p) => CreateStepIff(sel, zone, cache.value, ip, p, ev);
    }
  }

  lemma CreateStepIff(sel: Selector, zone: Zone, rs: seq<Record>, ip: Addr, p: Params, ev: Event)
    requires Exact(sel, zone, rs) && ev.outcome.Confirmed? && !ev.expired && ev.newId !in zone
    ensures var call := Create(ip, p);
      Coherent(sel, Effect(zone, call, ev), CacheAfter(sel, Some(rs), call, ev, RegularDeletion))
      <==> KeepsScope(sel, call, ev)
  {
    var zone' := Effect(zone, Create(ip, p), ev);
    var r := Record(ev.newId, ip, p);
    assert forall j :: 0 <= j < |rs| ==> rs[j].id != ev.newId;
    assert zone'[ev.newId] == Entry(ip, ev.stored);
    if sel(p.comment) {
      assert Upsert(rs, r) == [r] + rs;
      assert ([r] + rs)[0].id == ev.newId;
      if sel(ev.stored.comment) { ExactUpsert(sel, zone, zone', rs, r); }
    } else if sel(ev.stored.comment) {
      assert Managed(sel, zone', ev.newId);
    } else {
      forall id | Managed(sel, zone', id) ensures HasId(rs, id) { assert Managed(sel, zone, id); }
    }
  }

  /** Final-mode deletes, confirmed or not, leave a superset. */
  lemma FinalDeleteKeepsSuperset(sel: Selector, zone: Zone, cache: Option<seq<Record>>, id: ID, ev: Event)
    requires Superset(sel, zone, cache)
    ensures Superset(sel, Effect(zone, Delete(id), ev), CacheAfter(sel, cache, Delete(id), ev, FinalDeletion))
  {
    var zone' := Effect(zone, Delete(id), ev);
    if cache.Some? && !ev.expired {
      RemoveIdMembers(cache.value, id);
      assert forall i :: Managed(sel, zone', i) ==> Managed(sel, zone, i);
      var rest := RemoveId(cache.value, id);
      forall i | 0 <= i < |rest| && rest[i].id in zone' ensures Managed(sel, zone', rest[i].id) {
        assert rest[i] in rest && rest[i] in cache.value;
      }
    }
  }

  /** They leave it inexact exactly when a managed record is deleted unconfirmed and its entry is still there. */
  lemma FinalDeleteStepIff(sel: Selector, zone: Zone, cache: Option<seq<Record>>, id: ID, ev: Event)
    requires Coherent(sel, zone, cache)
    ensures Coherent(sel, Effect(zone, Delete(id), ev), CacheAfter(sel, cache, Delete(id), ev, FinalDeletion))
            <==> !(ev.outcome == Unconfirmed(true) && !ev.expired && cache.Some? && Managed(sel, zone, id))
  {
    var zone' := Effect(zone, Delete(id), ev);
    if cache.Some? && !ev.expired && Applied(ev) {
      if ev.outcome.Confirmed? {
        ExactRemove(sel, zone, zone', cache.value, id);
      } else if Managed(sel, zone, id) {
        var i :| 0 <= i < |cache.value| && cache.value[i].id == id;
        assert !Managed(sel, zone', cache.value[i].id);
      } else {
        assert forall i :: Managed(sel, zone', i) <==> Managed(sel, zone, i);
      }
    }
  }

  /** The exception is real: a delete that was applied but not confirmed. */
  lemma FinalDeleteCanGoStale() returns (sel: Selector, zone: Zone, cache: Option<seq<Record>>, id: ID, ev: Event)
    ensures Coherent(sel, zone, cache) && Possible(zone, Delete(id), ev)
    ensures !Coherent(sel, Effect(zone, Delete(id), ev), CacheAfter(sel, cache, Delete(id), ev, FinalDeletion))
  {
    var p := Params(1, false, "", []);
    sel := c => true;
    id := "a";
    zone := map[id := Entry(V4(1), p)];
    cache := Some([Record(id, V4(1), p)]);
    ev := Event(Unconfirmed(true), false, "", p);
    assert cache.value[0].id == id;
  }
}
