/** The API handle of one domain and record type: its server and its cached, in-place edited listing. */
module Handle {
  import opened Results
  import opened Addresses
  import opened Reconcile
  import opened Cache

  /** raw lists every record of the zone once, in some order. */
  ghost predicate Enumerates(zone: Zone, raw: seq<(ID, Entry)>) {
    && (forall i, j :: 0 <= i < j < |raw| ==> raw[i].0 != raw[j].0)
    && (forall i :: 0 <= i < |raw| ==> raw[i].0 in zone && zone[raw[i].0] == raw[i].1)
    && (forall id :: id in zone ==> exists i :: 0 <= i < |raw| && raw[i].0 == id)
  }

  /** The remote API. Any call may go unanswered, with or without having taken effect. */
  class Server {
    var records: Zone
    /** What the server keeps of the metadata written to it. */
    const stores: Params -> Params

    constructor (records: Zone, stores: Params -> Params)
      ensures this.records == records && this.stores == stores
    {
      this.records := records;
      this.stores := stores;
    }

    method List() returns (raw: seq<(ID, Entry)>, ok: bool)
      ensures ok ==> Enumerates(records, raw)
    {
      raw, ok := [], *;
      var rest := records.Keys;
      while rest != {}
        invariant rest <= records.Keys
        invariant forall i, j :: 0 <= i < j < |raw| ==> raw[i].0 != raw[j].0
        invariant forall i :: 0 <= i < |raw| ==>
          raw[i].0 in records && raw[i].0 !in rest && records[raw[i].0] == raw[i].1
        invariant forall id :: id in records && id !in rest ==> exists i :: 0 <= i < |raw| && raw[i].0 == id
        decreases |rest|
      {
        var id :| id in rest;
        ghost var before := raw;
        raw := raw + [(id, records[id])];
        assert raw[|before|].0 == id && forall i :: 0 <= i < |before| ==> raw[i] == before[i];
        rest := rest - {id};
      }
    }

    /** A mutation: `ok` says that the server confirmed it. */
    method Send(call: Call) returns (ok: bool, newId: ID, kept: Params, ghost ev: Event)
      modifies this`records
      ensures Possible(old(records), call, ev) && records == Effect(old(records), call, ev)
      ensures if ok then ev.outcome.Confirmed? else ev.outcome.Unconfirmed?
      ensures !ev.expired && newId == ev.newId && kept == ev.stored
      ensures !call.Delete? ==> kept == stores(call.params)
    {
      var reached: bool, heard: bool := *, *;
      newId := *;
      kept := if call.Delete? then Params(0, false, "", []) else stores(call.params);
      var possible := match call
        case Update(id, _, _) => id in records
        case Create(_, _) => newId !in records
        case Delete(_) => true;
      var applied := reached && possible;
      ok := applied && heard;
      ev := Event(if ok then Confirmed else Unconfirmed(applied), false, newId, kept);
      if applied {
        match call
        case Update(id, ip, _) => records := records[id := Entry(ip, kept)];
        case Create(ip, _) => records := records[newId := Entry(ip, kept)];
        case Delete(id) => records := records - {id};
      }
    }
  }

  const ZERO_RECORD := Record("", NoAddr, Params(0, false, "", []))

  /** `slices.DeleteFunc` by ID on a[..n]: compacts in place, clears the tail and returns the new length. */
  method DeleteInPlace(a: array<Record>, n: nat, id: ID) returns (m: nat)
    requires n <= a.Length
    modifies a
    ensures m <= n && a[..m] == RemoveId(old(a[..n]), id)
    ensures forall k :: m <= k < n ==> a[k] == ZERO_RECORD
    ensures a[n..] == old(a[n..])
  {
    m := 0;
    for j := 0 to n
      invariant m <= j
      invariant a[n..] == old(a[n..])
      invariant a[..m] == RemoveId(old(a[..n])[..j], id)
      invariant forall k :: j <= k < n ==> a[k] == old(a[k])
    {
      assert old(a[..n])[..j + 1][..j] == old(a[..n])[..j];
      if a[j].id != id {
        ghost var kept := a[..m];
        a[m] := a[j];
        assert a[..m] == kept;
        m := m + 1;
        assert a[..m] == kept + [old(a[j])];
      }
    }
    assert old(a[..n])[..n] == old(a[..n]);
    ghost var kept := a[..m];
    for k := m to n
      invariant a[..m] == kept && a[n..] == old(a[n..])
      invariant forall i :: m <= i < k ==> a[i] == ZERO_RECORD
    {
      a[k] := ZERO_RECORD;
    }
  }

  /** The records of a raw listing whose comment is in scope, in its order. */
  function InScope(sel: Selector, raw: seq<(ID, Entry)>): seq<Record> {
    if |raw| == 0 then []
    else
      var rest, last := InScope(sel, raw[..|raw| - 1]), raw[|raw| - 1];
      if sel(last.1.params.comment) then rest + [Record(last.0, last.1.ip, last.1.params)] else rest
  }

  lemma {:induction false} InScopeMembers(sel: Selector, raw: seq<(ID, Entry)>)
    ensures forall r :: r in InScope(sel, raw) <==> sel(r.params.comment) && (r.id, Entry(r.ip, r.params)) in raw
  {
    if |raw| > 0 {
      assert raw == raw[..|raw| - 1] + [raw[|raw| - 1]];
      InScopeMembers(sel, raw[..|raw| - 1]);
    }
  }

  lemma {:induction false} InScopeDistinct(sel: Selector, raw: seq<(ID, Entry)>)
    requires forall i, j :: 0 <= i < j < |raw| ==> raw[i].0 != raw[j].0
    ensures DistinctIds(InScope(sel, raw))
  {
    if |raw| > 0 {
      InScopeDistinct(sel, raw[..|raw| - 1]);
      var rest := InScope(sel, raw[..|raw| - 1]);
      InScopeMembers(sel, raw[..|raw| - 1]);
      forall j | 0 <= j < |rest| ensures rest[j].id != raw[|raw| - 1].0 {
        assert rest[j] in rest;
      }
    }
  }

  lemma InScopeExact(sel: Selector, zone: Zone, raw: seq<(ID, Entry)>)
    requires Enumerates(zone, raw)
    ensures Exact(sel, zone, InScope(sel, raw))
  {
    var rs := InScope(sel, raw);
    InScopeMembers(sel, raw);
    InScopeDistinct(sel, raw);
    forall i | 0 <= i < |rs|
      ensures Managed(sel, zone, rs[i].id) && zone[rs[i].id].ip == rs[i].ip && sel(rs[i].params.comment)
    {
      assert rs[i] in rs;
    }
    forall id | Managed(sel, zone, id) ensures HasId(rs, id) {
      var i :| 0 <= i < |raw| && raw[i].0 == id;
      assert raw[i] == (id, zone[id]);
      assert Record(id, zone[id].ip, zone[id].params) in rs;
    }
  }

  lemma InScopeEntries(sel: Selector, zone: Zone, raw: seq<(ID, Entry)>)
    requires Enumerates(zone, raw)
    ensures forall r :: r in InScope(sel, raw) ==> r.id in zone && zone[r.id] == Entry(r.ip, r.params)
  {
    InScopeMembers(sel, raw);
  }

  /** The filtering loop of ListRecords; fails on managed content that is no address. */
  method FilterManaged(sel: Selector, raw: seq<(ID, Entry)>) returns (managed: seq<Record>, ok: bool)
    ensures ok ==> managed == InScope(sel, raw)
    ensures ok <==> forall r :: r in InScope(sel, raw) ==> IsValid(r.ip)
  {
    managed := [];
    for i := 0 to |raw|
      invariant managed == InScope(sel, raw[..i])
      invariant forall r :: r in managed ==> IsValid(r.ip)
    {
      assert raw[..i + 1][..i] == raw[..i];
      if sel(raw[i].1.params.comment) {
        var r := Record(raw[i].0, raw[i].1.ip, raw[i].1.params);
        if r.ip.NoAddr? {
          InScopeMembers(sel, raw);
          assert (r.id, Entry(r.ip, r.params)) == raw[i];
          return managed, false;
        }
        managed := managed + [r];
      }
    }
    assert raw[..|raw|] == raw;
    ok := true;
  }

  /** The entry of one record is what the server now has of it, or gone with its scope; all others are as they were. */
  ghost predicate UpdatedEntries(sel: Selector, before: seq<Record>, id: ID, entry: Entry, now: seq<Record>) {
    forall r :: r in now <==>
      if r.id == id then sel(entry.params.comment) && r == Record(id, entry.ip, entry.params) else r in before
  }

  lemma UpdateEntries(sel: Selector, cache: Option<seq<Record>>, id: ID, ip: Addr, p: Params, ev: Event)
    requires ev.outcome.Confirmed?
    ensures var after := CacheAfter(sel, cache, Update(id, ip, p), ev, RegularDeletion);
      after.Some? ==>
        && cache.Some?
        && (DistinctIds(cache.value) ==> UpdatedEntries(sel, cache.value, id, Entry(ip, ev.stored), after.value))
  {
    if cache.Some? && DistinctIds(cache.value) {
      UpsertMembers(cache.value, Record(id, ip, ev.stored));
      RemoveIdMembers(cache.value, id);
    }
  }

  class CloudflareHandle {
    const server: Server
    const selector: Selector
    /** The cache entry: a slice header into `data`, or nothing. */
    var present: bool
    var data: array<Record>
    var len: nat

    ghost predicate Valid()
      reads this
    {
      len <= data.Length
    }

    ghost function View(): Option<seq<Record>>
      requires Valid()
      reads this, data
    {
      if present then Some(data[..len]) else None
    }

    constructor (server: Server, selector: Selector)
      ensures Valid() && View() == None && fresh(data)
      ensures this.server == server && this.selector == selector
    {
      this.server, this.selector := server, selector;
      present, data, len := false, new Record[0], 0;
    }

    /** Look the entry up; it may have expired. */
    method Get() returns (hit: bool, ghost expired: bool)
      modifies this`present
      ensures hit == present == (old(present) && !expired)
    {
      var gone: bool := *;
      expired := gone;
      if gone { present := false; }
      hit := present;
    }

    /** The returned slice rs[..n] aliases the cache entry. */
    method ListRecords() returns (rs: array<Record>, n: nat, cached: bool, ok: bool)
      requires Valid()
      modifies this
      ensures Valid() && (data == old(data) || fresh(data))
      ensures ok ==> present && rs == data && n == len
      ensures ok && cached ==> View() == old(View())
      ensures ok && !cached ==> Exact(selector, server.records, rs[..n])
      ensures ok && !cached ==>
        forall r :: r in rs[..n] ==> r.id in server.records && server.records[r.id] == Entry(r.ip, r.params)
      ensures !ok ==> View() == None
    {
      rs, n, cached, ok := data, 0, false, false;
      var hit, _ := Get();
      if hit { return data, len, true, true; }
      var zoneKnown: bool := *;
      if !zoneKnown { return; }
      var raw, listed := server.List();
      if !listed { return; }
      var managed, parsed := FilterManaged(selector, raw);
      if !parsed { return; }
      InScopeExact(selector, server.records, raw);
      InScopeEntries(selector, server.records, raw);
      data := new Record[|managed|](i requires 0 <= i < |managed| => managed[i]);
      len, present := |managed|, true;
      assert data[..len] == managed;
      return data, len, false, true;
    }

    method DeleteRecord(id: ID, mode: DeletionMode) returns (ok: bool, ghost ev: Event)
      requires Valid()
      modifies this, data, server
      ensures Valid() && (data == old(data) || fresh(data))
      ensures ok <==> ev.outcome.Confirmed?
      ensures Possible(old(server.records), Delete(id), ev)
      ensures server.records == Effect(old(server.records), Delete(id), ev)
      ensures View() == CacheAfter(selector, old(View()), Delete(id), ev, mode)
      ensures !ok ==> View() == if ev.outcome.ZoneUnknown? || mode.FinalDeletion? then old(View()) else None
      ensures ok && View().Some? ==>
        && old(View()).Some?
        && forall r :: r in View().value <==> r in old(View()).value && r.id != id
    {
      ghost var listed := View();
      if listed.Some? { RemoveIdMembers(listed.value, id); }
      ok, ev := false, Event(ZoneUnknown, false, "", Params(0, false, "", []));
      var zoneKnown: bool := *;
      if !zoneKnown { return; }
      var newId, kept;
      ok, newId, kept, ev := server.Send(Delete(id));
      if !ok {
        if mode.RegularDeletion? { present := false; }
        return;
      }
      var hit, expired := Get();
      ev := ev.(expired := expired);
      if hit {
        len := DeleteInPlace(data, len, id);
      }
    }

    method UpdateRecord(id: ID, ip: Addr, desired: Params) returns (ok: bool, ghost ev: Event)
      requires Valid()
      modifies this, data, server
      ensures Valid() && (data == old(data) || fresh(data))
      ensures ok <==> ev.outcome.Confirmed?
      ensures ev.outcome.ZoneUnknown? || ev.stored == server.stores(desired)
      ensures Possible(old(server.records), Update(id, ip, desired), ev)
      ensures server.records == Effect(old(server.records), Update(id, ip, desired), ev)
      ensures View() == CacheAfter(selector, old(View()), Update(id, ip, desired), ev, RegularDeletion)
      ensures !ok ==> View() == if ev.outcome.ZoneUnknown? then old(View()) else None
      ensures ok && View().Some? ==>
        && old(View()).Some? && id in server.records && server.records[id].ip == ip
        && (DistinctIds(old(View()).value) ==>
            UpdatedEntries(selector, old(View()).value, id, server.records[id], View().value))
    {
      ok, ev := false, Event(ZoneUnknown, false, "", Params(0, false, "", []));
      var zoneKnown: bool := *;
      if !zoneKnown { return; }
      var newId, kept;
      ok, newId, kept, ev := server.Send(Update(id, ip, desired));
      if !ok {
        present := false;
        return;
      }
      var hit, expired := Get();
      ev := ev.(expired := expired);
      UpdateEntries(selector, old(View()), id, ip, desired, ev);
      if !hit { return; }
      if !selector(kept.comment) {
        len := DeleteInPlace(data, len, id);
        return;
      }
      var updated := Record(id, ip, kept);
      for i := 0 to len
        invariant forall j :: 0 <= j < i ==> data[j].id != id
      {
        if data[i].id == id {
          assert FindId(data[..len], id) == i;
          data[i] := updated;
          return;
        }
      }
      Prepend(updated);
    }

    method CreateRecord(ip: Addr, desired: Params) returns (newId: ID, ok: bool, ghost ev: Event)
      requires Valid()
      modifies this, data, server
      ensures Valid() && (data == old(data) || fresh(data))
      ensures ok <==> ev.outcome.Confirmed?
      ensures ok ==> newId == ev.newId
      ensures ev.outcome.ZoneUnknown? || ev.stored == server.stores(desired)
      ensures Possible(old(server.records), Create(ip, desired), ev)
      ensures server.records == Effect(old(server.records), Create(ip, desired), ev)
      ensures View() == CacheAfter(selector, old(View()), Create(ip, desired), ev, RegularDeletion)
      ensures !ok ==> View() == if ev.outcome.ZoneUnknown? then old(View()) else None
      ensures ok && View().Some? ==>
        && old(View()).Some?
        && forall r :: r in View().value <==>
          r in old(View()).value || (selector(desired.comment) && r == Record(newId, ip, desired))
    {
      newId, ok, ev := "", false, Event(ZoneUnknown, false, "", Params(0, false, "", []));
      var zoneKnown: bool := *;
      if !zoneKnown { return; }
      var kept;
      ok, newId, kept, ev := server.Send(Create(ip, desired));
      if !ok {
        present := false;
        return;
      }
      var hit, expired := Get();
      ev := ev.(expired := expired);
      if hit && selector(desired.comment) {
        Prepend(Record(newId, ip, desired));
      }
    }

    /** `append([]Record{r}, old...)`: a new array, leaving the old one to whoever still holds it. */
    method Prepend(r: Record)
      requires Valid()
      modifies this`data, this`len
      ensures Valid() && fresh(data)
      ensures data[..len] == [r] + old(data[..len])
    {
      var before := data[..len];
      var grown := new Record[|before| + 1](i requires 0 <= i <= |before| => if i == 0 then r else before[i - 1]);
      assert grown[..] == [r] + before;
      data, len := grown, len + 1;
    }
  }
}
