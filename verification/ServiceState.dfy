/** The agent's service state: per family two kernel maps with a user-space
    cache each, and one id counter shared by both families. */
module ServiceState {
  import opened NetTypes
  import opened BpfMaps
  import opened ServiceSpec
  import opened ServiceTable

  class ServiceEndpoint<SK(==), EV> {
    var serviceCache: map<SK, ServiceValue>
    const serviceMap: BpfMap<SK, ServiceValue>
    var endpointCache: map<EndpointKey, EV>
    const endpointMap: BpfMap<EndpointKey, EV>

    ghost function Repr(): set<object> {
      {this, serviceMap, endpointMap}
    }

    ghost predicate Valid()
      reads this
    {
      serviceMap as object != endpointMap
    }

    /** What the agent believes is stored. */
    ghost function CacheView(): Tables<SK, EV>
      reads this
    {
      Tables(serviceCache, endpointCache)
    }

    /** What is stored, and what readers see. */
    ghost function MapView(): Tables<SK, EV>
      reads Repr()
    {
      Tables(serviceMap.entries, endpointMap.entries)
    }

    /** How many operations on the two maps have failed. */
    ghost function Faults(): nat
      reads serviceMap, endpointMap
    {
      serviceMap.faults + endpointMap.faults
    }

    /** The writes chosen from the cache reached both views, up to `done`. */
    ghost predicate Advanced(cache: Tables<SK, EV>, stored: Tables<SK, EV>, script: seq<Write<SK, EV>>, done: nat)
      reads Repr()
    {
      && done <= |script|
      && CacheView() == PerformAll(cache, script[..done])
      && MapView() == PerformAll(stored, script[..done])
    }

    /** The maps may hold anything; the caches start empty, so they agree with
        the maps only if those are empty too. */
    constructor (serviceMap: BpfMap<SK, ServiceValue>, endpointMap: BpfMap<EndpointKey, EV>)
      requires serviceMap as object != endpointMap
      ensures Valid() && this.serviceMap == serviceMap && this.endpointMap == endpointMap
      ensures CacheView() == Tables(map[], map[])
      ensures MapView() == Tables(serviceMap.entries, endpointMap.entries)
      ensures Faults() == serviceMap.faults + endpointMap.faults
    {
      this.serviceMap := serviceMap;
      this.endpointMap := endpointMap;
      serviceCache := map[];
      endpointCache := map[];
    }

    /** Performs the first `done` writes of the update, on maps and caches alike,
        and stops at the first failure; succeeds exactly when the list fits a u16
        count and no map operation failed. */
    method Update(key: SK, value: seq<EV>, id: Id) returns (r: Result<Id>, ghost done: nat)
      requires Valid()
      modifies Repr()
      ensures Advanced(old(CacheView()), old(MapView()), UpdateWrites(old(CacheView()), key, value, id), done)
      ensures r.Ok? <==> |value| <= 65535 && done == |UpdateWrites(old(CacheView()), key, value, id)|
      ensures Faults() >= old(Faults()) && (r.Ok? <==> |value| <= 65535 && Faults() == old(Faults()))
      ensures r.Ok? ==> r.value == AnswerId(old(CacheView()), key, id)
    {
      if |value| > MAX_ENDPOINTS {
        return Err, 0;
      }
      if key !in serviceCache {
        r, done := InsertNewService(key, value, id);
        return;
      }
      var current := serviceCache[key];
      var updated := ServiceValue(current.id, |value|);
      ghost var puts := EndpointPuts<SK, EV>(current.id, value);
      ghost var drops := EndpointDrops<SK, EV>(current.id, |value|, current.count);
      var ok;
      ok, done := InsertEndpoints(updated, value);
      if !ok {
        assert (puts + drops)[..done] == puts[..done];
        return Err, done;
      }
      assert puts[..done] == puts;
      if current.count > updated.count {
        ghost var dropped;
        ok, dropped := DeleteEndpoints(updated, updated.count, current.count);
        done := done + dropped;
        assert (puts + drops)[..done] == puts + drops[..dropped];
        PerformAllConcat(old(CacheView()), puts, drops[..dropped]);
        PerformAllConcat(old(MapView()), puts, drops[..dropped]);
        if !ok {
          return Err, done;
        }
      }
      assert (puts + drops)[..done] == puts + drops[..done - |puts|];
      r := Ok(current.id);
    }

    /** Deletes the endpoints up to the recorded count, then the service. */
    method Remove(key: SK) returns (ok: bool, ghost done: nat)
      requires Valid()
      modifies Repr()
      ensures Advanced(old(CacheView()), old(MapView()), RemoveWrites(old(CacheView()), key), done)
      ensures ok <==> done == |RemoveWrites(old(CacheView()), key)|
      ensures Faults() >= old(Faults()) && (ok <==> Faults() == old(Faults()))
    {
      if key !in serviceCache {
        return true, 0;
      }
      var service := serviceCache[key];
      ghost var drops := EndpointDrops<SK, EV>(service.id, 0, service.count);
      ok, done := DeleteEndpoints(service, 0, service.count);
      assert (drops + [DropService(key)])[..done] == drops[..done];
      if !ok {
        return;
      }
      ok := serviceMap.Delete(key);
      if !ok {
        return;
      }
      serviceCache := serviceCache - {key};
      assert drops[..done] == drops;
      assert drops + [DropService(key)] == (drops + [DropService(key)])[..done + 1];
      done := done + 1;
    }

    method InsertNewService(key: SK, value: seq<EV>, id: Id) returns (r: Result<Id>, ghost done: nat)
      requires Valid()
      modifies Repr()
      ensures Advanced(old(CacheView()), old(MapView()), InsertWrites(key, value, id), done)
      ensures r.Ok? <==> |value| <= 65535 && done == |InsertWrites(key, value, id)|
      ensures Faults() >= old(Faults()) && (r.Ok? <==> |value| <= 65535 && Faults() == old(Faults()))
      ensures r.Ok? ==> r.value == Increment(id)
    {
      done := 0;
      if |value| > MAX_ENDPOINTS {
        return Err, 0;
      }
      ghost var script := InsertWrites(key, value, id);
      assert |script| == |value| + 1 && script[0] == PutService(key, ServiceValue(id, |value|));
      var service := ServiceValue(id, |value|);
      var ok := serviceMap.Update(key, service);
      if !ok {
        return Err, 0;
      }
      serviceCache := serviceCache[key := service];
      PerformNext(old(CacheView()), script, 0);
      PerformNext(old(MapView()), script, 0);
      hide PerformAll, InsertWrites;
      done := 1;
      for position := 0 to |value|
        invariant done == position + 1 && Faults() == old(Faults())
        invariant Advanced(old(CacheView()), old(MapView()), script, done)
      {
        var at := EndpointKey(id, position);
        ok := endpointMap.Update(at, value[position]);
        if !ok {
          return Err, done;
        }
        endpointCache := endpointCache[at := value[position]];
        InsertWriteAt(key, value, id, position);
        PerformNext(old(CacheView()), script, done);
        PerformNext(old(MapView()), script, done);
        done := done + 1;
      }
      r := Ok(Increment(id));
    }

    /** A list that outnumbers the u16 positions is written as far as positions
        go and then fails. */
    method InsertEndpoints(service: ServiceValue, endpoints: seq<EV>) returns (ok: bool, ghost done: nat)
      requires Valid()
      modifies Repr()
      ensures Advanced(old(CacheView()), old(MapView()), EndpointPuts(service.id, endpoints), done)
      ensures ok <==> |endpoints| <= 65536 && done == |EndpointPuts<SK, EV>(service.id, endpoints)|
      ensures Faults() >= old(Faults()) && (ok <==> |endpoints| <= 65536 && Faults() == old(Faults()))
    {
      ghost var script := EndpointPuts<SK, EV>(service.id, endpoints);
      done := 0;
      for position := 0 to |endpoints|
        invariant done == position <= POSITIONS && Faults() == old(Faults())
        invariant Advanced(old(CacheView()), old(MapView()), script, done)
      {
        if position >= POSITIONS {
          return false, done;
        }
        var at := EndpointKey(service.id, position);
        ok := endpointMap.Update(at, endpoints[position]);
        if !ok {
          return;
        }
        endpointCache := endpointCache[at := endpoints[position]];
        PerformNext(old(CacheView()), script, done);
        PerformNext(old(MapView()), script, done);
        done := done + 1;
      }
      ok := true;
    }

    /** An empty range deletes nothing. */
    method DeleteEndpoints(service: ServiceValue, from: u16, to: u16) returns (ok: bool, ghost done: nat)
      requires Valid()
      modifies Repr()
      ensures Advanced(old(CacheView()), old(MapView()), EndpointDrops(service.id, from, to), done)
      ensures ok <==> done == |EndpointDrops<SK, EV>(service.id, from, to)|
      ensures Faults() >= old(Faults()) && (ok <==> Faults() == old(Faults()))
    {
      ghost var script := EndpointDrops<SK, EV>(service.id, from, to);
      done := 0;
      var position := from;
      while position < to
        invariant from <= position && (from <= to ==> position <= to) && done == position - from
        invariant Faults() == old(Faults())
        invariant Advanced(old(CacheView()), old(MapView()), script, done)
      {
        var at := EndpointKey(service.id, position);
        ok := endpointMap.Delete(at);
        if !ok {
          return;
        }
        endpointCache := endpointCache - {at};
        PerformNext(old(CacheView()), script, done);
        PerformNext(old(MapView()), script, done);
        done := done + 1;
        position := position + 1;
      }
      ok := true;
    }
  }

  /** Reads one family's list per service, skipping positions without an
      endpoint entry. */
  method Gather<SK(==), EV>(services: map<SK, ServiceValue>, endpoints: map<EndpointKey, EV>)
    returns (lists: map<SK, seq<EV>>)
    ensures lists == map k | k in services :: Observe(Tables(services, endpoints), k)
  {
    lists := map[];
    var rest := services.Keys;
    while rest != {}
      invariant rest <= services.Keys
      invariant lists == map k | k in services && k !in rest :: Observe(Tables(services, endpoints), k)
      decreases rest
    {
      var k :| k in rest;
      var service := services[k];
      var found: seq<EV> := [];
      for position := 0 to service.count
        invariant found + Collect(endpoints, service.id, position, service.count)
               == Observe(Tables(services, endpoints), k)
      {
        var at := EndpointKey(service.id, position);
        if at in endpoints {
          found := found + [endpoints[at]];
        }
      }
      assert found == Observe(Tables(services, endpoints), k);
      lists := lists[k := found];
      rest := rest - {k};
    }
  }

  class ServiceEndpointState {
    const v4: ServiceEndpoint<ServiceKeyV4, EndpointValueV4>
    const v6: ServiceEndpoint<ServiceKeyV6, EndpointValueV6>
    var id: Id

    ghost function Repr(): set<object> {
      {this} + v4.Repr() + v6.Repr()
    }

    /** Both families' caches equal their kernel maps. */
    ghost predicate Valid()
      reads Repr()
    {
      && this !in v4.Repr() && this !in v6.Repr() && v4.Repr() !! v6.Repr()
      && v4.Valid() && v6.Valid()
      && v4.CacheView() == v4.MapView() && v6.CacheView() == v6.MapView()
    }

    ghost function View(): State
      reads Repr()
    {
      State(v4.MapView(), v6.MapView(), id)
    }

    /** How many operations on the four maps have failed. */
    ghost function Faults(): nat
      reads v4.Repr(), v6.Repr()
    {
      v4.Faults() + v6.Faults()
    }

    constructor (v4: ServiceEndpoint<ServiceKeyV4, EndpointValueV4>, v6: ServiceEndpoint<ServiceKeyV6, EndpointValueV6>)
      requires v4.Valid() && v6.Valid() && v4.Repr() !! v6.Repr()
      ensures this.v4 == v4 && this.v6 == v6 && id == 128
      ensures Valid() <==> v4.CacheView() == v4.MapView() && v6.CacheView() == v6.MapView()
    {
      this.v4 := v4;
      this.v6 := v6;
      id := FIRST_ID;
    }

    method Update(key: ServiceKey, value: seq<EndpointValue>) returns (ok: bool, ghost done: nat)
      requires Valid()
      modifies Repr()
      ensures Valid()
      ensures done <= WriteCount(old(View()), Op.Update(key, value))
      ensures View() == Step(old(View()), Op.Update(key, value), done)
      ensures ok <==> !Rejected(Op.Update(key, value)) && done == WriteCount(old(View()), Op.Update(key, value))
      ensures Faults() >= old(Faults())
      ensures ok <==> !Rejected(Op.Update(key, value)) && Faults() == old(Faults())
    {
      var currentId := id;
      var r: Result<Id>;
      match key {
        case V4(k) => r, done := v4.Update(k, OnlyV4(value), currentId);
        case V6(k) => r, done := v6.Update(k, OnlyV6(value), currentId);
      }
      if r.Err? {
        return false, done;
      }
      if r.value > currentId {
        id := Increment(id);
      }
      ok := true;
    }

    method Remove(key: ServiceKey) returns (ok: bool, ghost done: nat)
      requires Valid()
      modifies Repr()
      ensures Valid()
      ensures done <= WriteCount(old(View()), Op.Remove(key))
      ensures View() == Step(old(View()), Op.Remove(key), done)
      ensures ok <==> done == WriteCount(old(View()), Op.Remove(key))
      ensures Faults() >= old(Faults()) && (ok <==> Faults() == old(Faults()))
    {
      match key {
        case V4(k) => ok, done := v4.Remove(k);
        case V6(k) => ok, done := v6.Remove(k);
      }
    }

    /** The table read from the caches. */
    method StateFromCache() returns (table: map<ServiceKey, seq<EndpointValue>>)
      requires Valid()
      ensures table == ObservedTable(View())
    {
      var lists4 := Gather(v4.serviceCache, v4.endpointCache);
      var lists6 := Gather(v6.serviceCache, v6.endpointCache);
      table := Join(View(), lists4, lists6);
    }

    /** The table read from the kernel maps; equal to the one read from the
        caches whenever the four map reads succeed, and only they can fail. */
    method StateFromMap() returns (r: Result<map<ServiceKey, seq<EndpointValue>>>)
      requires Valid()
      modifies v4.serviceMap`faults, v4.endpointMap`faults, v6.serviceMap`faults, v6.endpointMap`faults
      ensures Valid() && View() == old(View())
      ensures r.Ok? ==> r.value == ObservedTable(View())
      ensures Faults() >= old(Faults()) && (r.Ok? <==> Faults() == old(Faults()))
    {
      var services4 := v4.serviceMap.GetState();
      if services4.Err? { return Err; }
      var endpoints4 := v4.endpointMap.GetState();
      if endpoints4.Err? { return Err; }
      var lists4 := Gather(services4.value, endpoints4.value);
      var services6 := v6.serviceMap.GetState();
      if services6.Err? { return Err; }
      var endpoints6 := v6.endpointMap.GetState();
      if endpoints6.Err? { return Err; }
      var lists6 := Gather(services6.value, endpoints6.value);
      var table := Join(View(), lists4, lists6);
      r := Ok(table);
    }
  }

  /** Puts both families' lists into one table. */
  method Join(
      ghost s: State,
      lists4: map<ServiceKeyV4, seq<EndpointValueV4>>, lists6: map<ServiceKeyV6, seq<EndpointValueV6>>)
    returns (table: map<ServiceKey, seq<EndpointValue>>)
    requires lists4 == map k | k in s.v4.services :: Observe(s.v4, k)
    requires lists6 == map k | k in s.v6.services :: Observe(s.v6, k)
    ensures table == ObservedTable(s)
  {
    var keys := (set k | k in lists4 :: V4(k)) + (set k | k in lists6 :: V6(k));
    table := map key | key in keys :: match key case V4(k) => Wrap4(lists4[k]) case V6(k) => Wrap6(lists6[k]);
  }

  /** Over empty maps the state starts empty, with caches equal to maps. */
  method NewOverEmptyMaps() returns (state: ServiceEndpointState)
    ensures state.Valid() && fresh(state.Repr())
    ensures state.View() == EMPTY && state.Faults() == 0
  {
    var services4 := new BpfMap<ServiceKeyV4, ServiceValue>();
    var endpoints4 := new BpfMap<EndpointKey, EndpointValueV4>();
    var services6 := new BpfMap<ServiceKeyV6, ServiceValue>();
    var endpoints6 := new BpfMap<EndpointKey, EndpointValueV6>();
    var v4 := new ServiceEndpoint(services4, endpoints4);
    var v6 := new ServiceEndpoint(services6, endpoints6);
    state := new ServiceEndpointState(v4, v6);
  }
}
