/** The two flat maps and the shared counter refine a plain map from keys to
    lists, each list cut at the length recorded when its key was inserted. */
module ServiceRefinement {
  import opened NetTypes
  import opened ServiceTable
  import opened ServiceSpec

  /** A key's last supplied list and the length recorded at its insertion. */
  datatype Entry<EV> = Entry(list: seq<EV>, recorded: nat) {
    function Visible(): seq<EV> {
      if |list| <= recorded then list else list[..recorded]
    }
  }

  // ---------- One family ----------

  function Updated<SK, EV>(a: map<SK, Entry<EV>>, key: SK, eps: seq<EV>): map<SK, Entry<EV>> {
    if |eps| > MAX_ENDPOINTS then a
    else a[key := Entry(eps, if key in a then a[key].recorded else |eps|)]
  }

  /** `t` stores exactly the lists of `a`, and nothing at ids not yet issued. */
  ghost predicate Refines<SK(!new), EV>(t: Tables<SK, EV>, a: map<SK, Entry<EV>>, id: Id) {
    && t.services.Keys == a.Keys
    && (forall k :: k in a ==> t.services[k].id < id && t.services[k].count == a[k].recorded)
    && (forall k, l :: k in a && l in a && k != l ==> t.services[k].id != t.services[l].id)
    && (forall k :: k in a ==> Stored(t.endpoints, t.services[k].id, a[k]))
    && (forall e :: e in t.endpoints ==> e.id < id)
  }

  ghost predicate Stored<EV>(endpoints: map<EndpointKey, EV>, id: Id, entry: Entry<EV>) {
    && entry.recorded <= MAX_ENDPOINTS && |entry.list| <= MAX_ENDPOINTS
    && forall i: u16 ::
      && (i < |entry.list| ==> EndpointKey(id, i) in endpoints && endpoints[EndpointKey(id, i)] == entry.list[i])
      && (|entry.list| <= i < entry.recorded ==> EndpointKey(id, i) !in endpoints)
  }

  /** `t'` is `t` with the list `eps` written under `id`. */
  ghost predicate Filled<SK, EV>(t: Tables<SK, EV>, t': Tables<SK, EV>, id: Id, eps: seq<EV>) {
    && t'.services == t.services
    && (forall e :: e in t'.endpoints <==> e in t.endpoints || (e.id == id && e.position < |eps|))
    && (forall e :: e in t'.endpoints ==>
          t'.endpoints[e] == if e.id == id && e.position < |eps| then eps[e.position] else t.endpoints[e])
  }

  lemma FilledOneMore<SK, EV>(t: Tables<SK, EV>, t': Tables<SK, EV>, id: Id, eps: seq<EV>, n: nat)
    requires |eps| == n + 1 <= MAX_ENDPOINTS && Filled(t, t', id, eps[..n])
    ensures Filled(t, Perform(t', PutEndpoint(EndpointKey(id, n), eps[n])), id, eps)
  {}

  lemma {:induction false} PutsEffect<SK, EV>(t: Tables<SK, EV>, id: Id, eps: seq<EV>)
    requires |eps| <= MAX_ENDPOINTS
    ensures Filled(t, PerformAll(t, EndpointPuts(id, eps)), id, eps)
  {
    if eps != [] {
      hide PerformAll, Filled;
      var n, ws := |eps| - 1, EndpointPuts<SK, EV>(id, eps);
      PutsEffect(t, id, eps[..n]);
      PerformNext(t, ws, n);
      assert ws[..n] == EndpointPuts(id, eps[..n]) && ws[..n + 1] == ws;
      FilledOneMore(t, PerformAll(t, ws[..n]), id, eps, n);
    }
  }

  lemma {:induction false} DropsEffect<SK, EV>(t: Tables<SK, EV>, id: Id, lo: u16, hi: u16)
    ensures var t' := PerformAll(t, EndpointDrops(id, lo, hi));
      && t'.services == t.services
      && (forall e :: e in t'.endpoints <==> e in t.endpoints && !(e.id == id && lo <= e.position < hi))
      && (forall e :: e in t'.endpoints ==> t'.endpoints[e] == t.endpoints[e])
    decreases hi
  {
    if lo < hi {
      DropsEffect(t, id, lo, hi - 1);
      assert EndpointDrops<SK, EV>(id, lo, hi)[..hi - 1 - lo] == EndpointDrops(id, lo, hi - 1);
    }
  }

  /** The entries after the first `done` writes of an update, one by one.  A key
      that is absent gets its service entry and then its endpoints; of one that
      is present, position by position, the endpoints are overwritten and those
      from the new length up to the recorded one deleted. */
  lemma UpdateLeavesExactly<SK, EV>(t: Tables<SK, EV>, key: SK, eps: seq<EV>, next: Id, done: nat)
    requires done <= |UpdateWrites(t, key, eps, next)|
    ensures var t' := PerformAll(t, UpdateWrites(t, key, eps, next)[..done]);
      if |eps| > 65535 then |UpdateWrites(t, key, eps, next)| == 0 && t' == t
      else if key !in t.services then
        && |UpdateWrites(t, key, eps, next)| == |eps| + 1
        && t'.services == (if done == 0 then t.services else t.services[key := ServiceValue(next, |eps|)])
        && (forall e :: e in t'.endpoints <==> e in t.endpoints || (e.id == next && e.position < done - 1))
        && (forall e :: e in t'.endpoints ==>
              t'.endpoints[e] == if e.id == next && e.position < done - 1 then eps[e.position] else t.endpoints[e])
      else
        var ServiceValue(id, count) := t.services[key];
        && |UpdateWrites(t, key, eps, next)| == (if |eps| < count then count else |eps|)
        && t'.services == t.services
        && (forall e :: e in t'.endpoints <==>
              if e.id == id && e.position < done then e.position < |eps| else e in t.endpoints)
        && (forall e :: e in t'.endpoints ==>
              t'.endpoints[e] == if e.id == id && e.position < done then eps[e.position] else t.endpoints[e])
  {
    if |eps| <= 65535 && key !in t.services {
      InsertLeaves(t, key, eps, next, done);
    } else if |eps| <= 65535 {
      OverwriteLeaves(t, key, eps, next, done);
    }
  }

  lemma InsertLeaves<SK, EV>(t: Tables<SK, EV>, key: SK, eps: seq<EV>, next: Id, done: nat)
    requires |eps| <= 65535 && key !in t.services && done <= |eps| + 1
    ensures var service := ServiceValue(next, |eps|);
      if done == 0 then PerformAll(t, UpdateWrites(t, key, eps, next)[..done]) == t
      else Filled(t.(services := t.services[key := service]), PerformAll(t, UpdateWrites(t, key, eps, next)[..done]),
                  next, eps[..done - 1])
  {
    if done > 0 {
      var put, puts := PutService(key, ServiceValue(next, |eps|)), EndpointPuts<SK, EV>(next, eps[..done - 1]);
      assert UpdateWrites(t, key, eps, next)[..done] == [put] + puts;
      PerformAllConcat(t, [put], puts);
      PerformOne(t, put);
      PutsEffect(Perform(t, put), next, eps[..done - 1]);
    }
  }

  lemma OverwriteLeaves<SK, EV>(t: Tables<SK, EV>, key: SK, eps: seq<EV>, next: Id, done: nat)
    requires |eps| <= 65535 && key in t.services && done <= |UpdateWrites(t, key, eps, next)|
    ensures var id, t' := t.services[key].id, PerformAll(t, UpdateWrites(t, key, eps, next)[..done]);
      && t'.services == t.services
      && (forall e :: e in t'.endpoints <==>
            if e.id == id && e.position < done then e.position < |eps| else e in t.endpoints)
      && (forall e :: e in t'.endpoints ==>
            t'.endpoints[e] == if e.id == id && e.position < done then eps[e.position] else t.endpoints[e])
  {
    var id, count := t.services[key].id, t.services[key].count;
    var ws := UpdateWrites(t, key, eps, next);
    hide PerformAll;
    if done <= |eps| {
      assert ws[..done] == EndpointPuts(id, eps[..done]);
      PutsEffect(t, id, eps[..done]);
    } else {
      var puts, drops := EndpointPuts<SK, EV>(id, eps), EndpointDrops<SK, EV>(id, |eps|, done);
      assert ws[..done] == puts + drops;
      PerformAllConcat(t, puts, drops);
      PutsEffect(t, id, eps);
      DropsEffect(PerformAll(t, puts), id, |eps|, done);
    }
  }

  /** The entries after the first `done` writes of a removal: the endpoints go
      from position 0 up, the service entry last. */
  lemma RemoveLeavesExactly<SK, EV>(t: Tables<SK, EV>, key: SK, done: nat)
    requires done <= |RemoveWrites(t, key)|
    ensures var t' := PerformAll(t, RemoveWrites(t, key)[..done]);
      if key !in t.services then |RemoveWrites(t, key)| == 0 && t' == t
      else
        var ServiceValue(id, count) := t.services[key];
        && |RemoveWrites(t, key)| == count + 1
        && t'.services == (if done <= count then t.services else t.services - {key})
        && (forall e :: e in t'.endpoints <==>
              e in t.endpoints && !(e.id == id && e.position < count && e.position < done))
        && (forall e :: e in t'.endpoints ==> t'.endpoints[e] == t.endpoints[e])
  {
    if key in t.services {
      var ServiceValue(id, count) := t.services[key];
      var drops := EndpointDrops<SK, EV>(id, 0, if done <= count then done else count);
      DropsEffect(t, id, 0, if done <= count then done else count);
      if done <= count {
        assert RemoveWrites(t, key)[..done] == drops;
      } else {
        var all := PerformAll(t, drops);
        assert RemoveWrites(t, key)[..done] == drops + [DropService(key)];
        PerformAllConcat(t, drops, [DropService(key)]);
        PerformOne(all, DropService(key));
      }
    }
  }

  /** Endpoint entries under other ids do not matter to a stored list. */
  lemma StoredFrame<EV>(m: map<EndpointKey, EV>, m': map<EndpointKey, EV>, id: Id, entry: Entry<EV>, other: Id)
    requires Stored(m, id, entry) && id != other
    requires forall e: EndpointKey :: e.id != other ==> (e in m <==> e in m')
    requires forall e: EndpointKey :: e.id != other && e in m' ==> m'[e] == m[e]
    ensures Stored(m', id, entry)
  {}

  lemma InsertEffect<SK, EV>(t: Tables<SK, EV>, id: Id, key: SK, eps: seq<EV>)
    requires key !in t.services && |eps| <= MAX_ENDPOINTS
    ensures var service := ServiceValue(id, |eps|);
      Filled(t.(services := t.services[key := service]), PerformAll(t, UpdateWrites(t, key, eps, id)), id, eps)
  {
    var put := PutService(key, ServiceValue(id, |eps|));
    PerformAllConcat(t, [put], EndpointPuts(id, eps));
    PerformOne(t, put);
    PutsEffect(Perform(t, put), id, eps);
  }

  lemma FilledStored<SK, EV>(
      t: Tables<SK, EV>, t': Tables<SK, EV>, id: Id, eps: seq<EV>, entry: Entry<EV>, other: Id)
    requires |eps| <= MAX_ENDPOINTS && Filled(t, t', id, eps)
    ensures Stored(t'.endpoints, id, Entry(eps, |eps|))
    ensures id != other && Stored(t.endpoints, other, entry) ==> Stored(t'.endpoints, other, entry)
  {
    if id != other && Stored(t.endpoints, other, entry) {
      StoredFrame(t.endpoints, t'.endpoints, other, entry, id);
    }
  }

  lemma FilledRefines<SK(!new), EV>(
      t: Tables<SK, EV>, t': Tables<SK, EV>, a: map<SK, Entry<EV>>, id: Id, key: SK, eps: seq<EV>)
    requires Refines(t, a, id) && key !in a && |eps| <= MAX_ENDPOINTS && id < 0xFFFF
    requires Filled(t.(services := t.services[key := ServiceValue(id, |eps|)]), t', id, eps)
    ensures Refines(t', a[key := Entry(eps, |eps|)], id + 1)
  {
    hide Stored;
    var t1 := t.(services := t.services[key := ServiceValue(id, |eps|)]);
    forall k | k in a
      ensures t'.services[k] == t.services[k] && Stored(t'.endpoints, t'.services[k].id, a[k])
    {
      hide Filled;
      FilledStored(t1, t', id, eps, a[k], t.services[k].id);
      assert t'.services == t1.services by { FilledServices(t1, t', id, eps); }
    }
    FilledStored(t1, t', id, eps, Entry(eps, |eps|), id);
  }

  lemma FilledServices<SK, EV>(t: Tables<SK, EV>, t': Tables<SK, EV>, id: Id, eps: seq<EV>)
    requires Filled(t, t', id, eps)
    ensures t'.services == t.services
  {}

  lemma InsertRefines<SK(!new), EV>(t: Tables<SK, EV>, a: map<SK, Entry<EV>>, id: Id, key: SK, eps: seq<EV>)
    requires Refines(t, a, id) && key !in a && |eps| <= MAX_ENDPOINTS && id < 0xFFFF
    ensures Refines(PerformAll(t, UpdateWrites(t, key, eps, id)), Updated(a, key, eps), id + 1)
  {
    assert key !in t.services;
    hide PerformAll, UpdateWrites, Filled, Refines;
    InsertEffect(t, id, key, eps);
    FilledRefines(t, PerformAll(t, UpdateWrites(t, key, eps, id)), a, id, key, eps);
  }

  lemma OverwriteRefines<SK(!new), EV>(t: Tables<SK, EV>, a: map<SK, Entry<EV>>, id: Id, key: SK, eps: seq<EV>)
    requires Refines(t, a, id) && key in a && |eps| <= MAX_ENDPOINTS
    ensures Refines(PerformAll(t, UpdateWrites(t, key, eps, id)), Updated(a, key, eps), id)
  {
    var service := t.services[key];
    var t1 := PerformAll(t, EndpointPuts(service.id, eps));
    var t' := PerformAll(t1, EndpointDrops(service.id, |eps|, service.count));
    PerformAllConcat(t, EndpointPuts(service.id, eps), EndpointDrops(service.id, |eps|, service.count));
    PutsEffect(t, service.id, eps);
    DropsEffect(t1, service.id, |eps|, service.count);
    forall k | k in a && k != key
      ensures Stored(t'.endpoints, t'.services[k].id, a[k])
    {
      StoredFrame(t.endpoints, t'.endpoints, t.services[k].id, a[k], service.id);
    }
    assert Stored(t'.endpoints, service.id, Entry(eps, a[key].recorded));
  }

  lemma RemoveRefines<SK(!new), EV>(t: Tables<SK, EV>, a: map<SK, Entry<EV>>, id: Id, key: SK)
    requires Refines(t, a, id)
    ensures Refines(PerformAll(t, RemoveWrites(t, key)), a - {key}, id)
  {
    if key in a {
      var service := t.services[key];
      var drops := EndpointDrops<SK, EV>(service.id, 0, service.count);
      assert (drops + [DropService(key)])[..|drops|] == drops;
      DropsEffect(t, service.id, 0, service.count);
      var t' := PerformAll(t, drops);
      forall k | k in a && k != key
        ensures Stored(t'.endpoints, t'.services[k].id, a[k])
      {
        StoredFrame(t.endpoints, t'.endpoints, t.services[k].id, a[k], service.id);
      }
    }
  }

  lemma {:induction false} CollectStored<EV>(endpoints: map<EndpointKey, EV>, id: Id, entry: Entry<EV>, from: u16)
    requires Stored(endpoints, id, entry)
    ensures Collect(endpoints, id, from, entry.recorded)
         == if from <= |entry.Visible()| then entry.Visible()[from..] else []
    decreases entry.recorded - from
  {
    if from < entry.recorded {
      CollectStored(endpoints, id, entry, from + 1);
    }
  }

  lemma ObserveRefines<SK(!new), EV>(t: Tables<SK, EV>, a: map<SK, Entry<EV>>, id: Id, key: SK)
    requires Refines(t, a, id) && key in a
    ensures Observe(t, key) == a[key].Visible()
  {
    CollectStored(t.endpoints, t.services[key].id, a[key], 0);
  }

  // ---------- Both families ----------

  datatype Model = Model(v4: map<ServiceKeyV4, Entry<EndpointValueV4>>, v6: map<ServiceKeyV6, Entry<EndpointValueV6>>)

  function ModelStep(m: Model, op: Op): Model {
    match op
    case Update(V4(k), value) => m.(v4 := Updated(m.v4, k, OnlyV4(value)))
    case Update(V6(k), value) => m.(v6 := Updated(m.v6, k, OnlyV6(value)))
    case Remove(V4(k)) => m.(v4 := m.v4 - {k})
    case Remove(V6(k)) => m.(v6 := m.v6 - {k})
  }

  ghost predicate StateRefines(s: State, m: Model) {
    Refines(s.v4, m.v4, s.id) && Refines(s.v6, m.v6, s.id)
  }

  /** Every insertion of the run finds the counter below its last value. */
  predicate IdsAvailable(s: State, ops: seq<Op>)
    decreases |ops|
  {
    ops == [] || ((Inserts(s, ops[0]) ==> s.id < 0xFFFF) && IdsAvailable(FullStep(s, ops[0]), ops[1..]))
  }

  /** A run in which no map write fails. */
  function Run(s: State, ops: seq<Op>): State
    decreases |ops|
  {
    if ops == [] then s else Run(FullStep(s, ops[0]), ops[1..])
  }

  function ModelRun(m: Model, ops: seq<Op>): Model
    decreases |ops|
  {
    if ops == [] then m else ModelRun(ModelStep(m, ops[0]), ops[1..])
  }

  lemma StepRefines(s: State, m: Model, op: Op)
    requires StateRefines(s, m) && (Inserts(s, op) ==> s.id < 0xFFFF)
    ensures StateRefines(FullStep(s, op), ModelStep(m, op))
  {
    match op
    case Update(V4(k), value) => FamilyUpdateRefines(s.v4, m.v4, s.id, k, OnlyV4(value));
    case Update(V6(k), value) => FamilyUpdateRefines(s.v6, m.v6, s.id, k, OnlyV6(value));
    case Remove(V4(k)) =>
      RemoveRefines(s.v4, m.v4, s.id, k);
      assert RemoveWrites(s.v4, k)[..|RemoveWrites(s.v4, k)|] == RemoveWrites(s.v4, k);
    case Remove(V6(k)) =>
      RemoveRefines(s.v6, m.v6, s.id, k);
      assert RemoveWrites(s.v6, k)[..|RemoveWrites(s.v6, k)|] == RemoveWrites(s.v6, k);
  }

  lemma FamilyUpdateRefines<SK(!new), EV>(t: Tables<SK, EV>, a: map<SK, Entry<EV>>, id: Id, key: SK, eps: seq<EV>)
    requires Refines(t, a, id) && (key !in a && |eps| <= MAX_ENDPOINTS ==> id < 0xFFFF)
    ensures var ws := UpdateWrites(t, key, eps, id);
      && Refines(PerformAll(t, ws[..|ws|]), Updated(a, key, eps), NextId(t, key, eps, id, |ws|))
      && NextId(t, key, eps, id, |ws|) >= id
  {
    var ws := UpdateWrites(t, key, eps, id);
    assert ws[..|ws|] == ws;
    if |eps| <= MAX_ENDPOINTS {
      if key in a {
        OverwriteRefines(t, a, id, key, eps);
      } else {
        InsertRefines(t, a, id, key, eps);
      }
    }
  }

  lemma {:induction false} RunRefines(s: State, m: Model, ops: seq<Op>)
    requires StateRefines(s, m) && IdsAvailable(s, ops)
    ensures StateRefines(Run(s, ops), ModelRun(m, ops))
    decreases |ops|
  {
    if ops != [] {
      StepRefines(s, m, ops[0]);
      RunRefines(FullStep(s, ops[0]), ModelStep(m, ops[0]), ops[1..]);
    }
  }

  // ---------- Per-key history ----------

  /** The endpoints of `value` that belong to the family of `key`. */
  function SameFamily(key: ServiceKey, value: seq<EndpointValue>): seq<EndpointValue> {
    match key
    case V4(_) => Wrap4(OnlyV4(value))
    case V6(_) => Wrap6(OnlyV6(value))
  }

  /** What one operation does to what is known of one key; operations on other
      keys do nothing to it. */
  function KeyStep(before: Option<Entry<EndpointValue>>, op: Op, key: ServiceKey): Option<Entry<EndpointValue>> {
    if op.key != key then before
    else match op
      case Remove(_) => None
      case Update(_, value) =>
        var eps := SameFamily(key, value);
        if |eps| > MAX_ENDPOINTS then before
        else if before.Some? then Some(Entry(eps, before.value.recorded))
        else Some(Entry(eps, |eps|))
  }

  /** The last list supplied for `key` since it was last inserted, with the
      length of the list that inserted it; None when it is not present. */
  function History(before: Option<Entry<EndpointValue>>, ops: seq<Op>, key: ServiceKey): Option<Entry<EndpointValue>>
    decreases |ops|
  {
    if ops == [] then before else History(KeyStep(before, ops[0], key), ops[1..], key)
  }

  function Lookup(m: Model, key: ServiceKey): Option<Entry<EndpointValue>> {
    match key
    case V4(k) => if k in m.v4 then Some(Entry(Wrap4(m.v4[k].list), m.v4[k].recorded)) else None
    case V6(k) => if k in m.v6 then Some(Entry(Wrap6(m.v6[k].list), m.v6[k].recorded)) else None
  }

  lemma {:induction false} LookupRun(m: Model, ops: seq<Op>, key: ServiceKey)
    ensures Lookup(ModelRun(m, ops), key) == History(Lookup(m, key), ops, key)
    decreases |ops|
  {
    if ops != [] {
      LookupRun(ModelStep(m, ops[0]), ops[1..], key);
    }
  }

  lemma ObservedRefines(s: State, m: Model, key: ServiceKey)
    requires StateRefines(s, m)
    ensures Has(s, key) <==> Lookup(m, key).Some?
    ensures Has(s, key) ==> Observed(s, key) == Lookup(m, key).value.Visible()
  {
    if Has(s, key) {
      match key
      case V4(k) => ObserveRefines(s.v4, m.v4, s.id, k);
      case V6(k) => ObserveRefines(s.v6, m.v6, s.id, k);
    }
  }

  /** From any refined state, a run without failed writes shows under each key
      what the key's own operations made of what was known of it before. */
  lemma RunShowsHistoryFrom(s: State, m: Model, ops: seq<Op>, key: ServiceKey)
    requires StateRefines(s, m) && IdsAvailable(s, ops)
    ensures var history := History(Lookup(m, key), ops, key);
      && (Has(Run(s, ops), key) <==> history.Some?)
      && (Has(Run(s, ops), key) ==> Observed(Run(s, ops), key) == history.value.Visible())
  {
    RunRefines(s, m, ops);
    LookupRun(m, ops, key);
    ObservedRefines(Run(s, ops), ModelRun(m, ops), key);
  }

  const NOTHING := Model(map[], map[])

  /** Main refinement: after any run without failed writes from empty maps,
      exactly the keys added and not since removed are present, and each shows
      its last list cut at the length recorded when it was inserted. */
  lemma RunShowsHistory(ops: seq<Op>, key: ServiceKey)
    requires IdsAvailable(EMPTY, ops)
    ensures Has(Run(EMPTY, ops), key) <==> History(None, ops, key).Some?
    ensures Has(Run(EMPTY, ops), key) ==> Observed(Run(EMPTY, ops), key) == History(None, ops, key).value.Visible()
  {
    RunShowsHistoryFrom(EMPTY, NOTHING, ops, key);
  }

  /** Each operation advances the counter by at most one, so a run cannot
      exhaust ids that outnumber its operations. */
  lemma {:induction false} EnoughIds(s: State, m: Model, ops: seq<Op>)
    requires StateRefines(s, m) && s.id + |ops| <= 0xFFFF
    ensures IdsAvailable(s, ops)
    decreases |ops|
  {
    if ops != [] {
      StepRefines(s, m, ops[0]);
      EnoughIds(FullStep(s, ops[0]), ModelStep(m, ops[0]), ops[1..]);
    }
  }

  lemma {:induction false} RunConcat(s: State, a: seq<Op>, b: seq<Op>)
    ensures Run(s, a + b) == Run(Run(s, a), b)
    decreases |a|
  {
    if a == [] {
      assert a + b == b;
    } else {
      assert (a + b)[1..] == a[1..] + b;
      RunConcat(FullStep(s, a[0]), a[1..], b);
    }
  }

  lemma {:induction false} HistoryConcat(before: Option<Entry<EndpointValue>>, a: seq<Op>, b: seq<Op>, key: ServiceKey)
    ensures History(before, a + b, key) == History(History(before, a, key), b, key)
    decreases |a|
  {
    if a == [] {
      assert a + b == b;
    } else {
      assert (a + b)[1..] == a[1..] + b;
      HistoryConcat(KeyStep(before, a[0], key), a[1..], b, key);
    }
  }

  /** The table shows a key's last list exactly when that list has not outgrown
      the length recorded at insertion. */
  lemma LastListShownExactly(ops: seq<Op>, key: ServiceKey)
    requires IdsAvailable(EMPTY, ops) && Has(Run(EMPTY, ops), key)
    ensures History(None, ops, key).Some?
    ensures var entry := History(None, ops, key).value;
      Observed(Run(EMPTY, ops), key) == entry.list <==> |entry.list| <= entry.recorded
  {
    RunShowsHistory(ops, key);
  }

  /** A service that starts with one backend and gains a second keeps showing
      one: the stored count is never rewritten. */
  lemma GrowthNotShown(k: ServiceKeyV4, a: EndpointValueV4, b: EndpointValueV4)
    ensures var ops := [Update(V4(k), [E4(a)]), Update(V4(k), [E4(a), E4(b)])];
      && IdsAvailable(EMPTY, ops)
      && Has(Run(EMPTY, ops), V4(k))
      && Observed(Run(EMPTY, ops), V4(k)) == [E4(a)]
  {
    hide Observed, Run, IdsAvailable;
    var first, second := Update(V4(k), [E4(a)]), Update(V4(k), [E4(a), E4(b)]);
    var ops := [first, second];
    assert Wrap4([a]) == [E4(a)] && Wrap4([a, b]) == [E4(a), E4(b)];
    FilterKeepsFamily4([a]);
    FilterKeepsFamily4([a, b]);
    assert ops[1..] == [second] && [second][1..] == [];
    assert History(Some(Entry([E4(a)], 1)), [second], V4(k)) == Some(Entry([E4(a), E4(b)], 1));
    assert History(None, ops, V4(k)) == Some(Entry([E4(a), E4(b)], 1));
    EnoughIds(EMPTY, NOTHING, ops);
    RunShowsHistory(ops, V4(k));
  }

  /** An update never changes what another key shows, nor whether it is present. */
  lemma OtherKeysUnchanged(s: State, m: Model, op: Op, key: ServiceKey)
    requires StateRefines(s, m) && (Inserts(s, op) ==> s.id < 0xFFFF) && key != op.key
    ensures Has(FullStep(s, op), key) == Has(s, key)
    ensures Has(s, key) ==> Observed(FullStep(s, op), key) == Observed(s, key)
  {
    StepRefines(s, m, op);
    ObservedRefines(s, m, key);
    ObservedRefines(FullStep(s, op), ModelStep(m, op), key);
  }
}
