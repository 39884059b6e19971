/** Identifiers over runs in which any map write may fail. */
module ServiceIds {
  import opened NetTypes
  import opened ServiceTable
  import opened ServiceSpec
  import opened ServiceRefinement

  ghost predicate TableIds<SK(!new), EV>(t: Tables<SK, EV>, id: Id) {
    && (forall k :: k in t.services ==> t.services[k].id < id)
    && (forall k, l :: k in t.services && l in t.services && k != l ==> t.services[k].id != t.services[l].id)
    && (forall e :: e in t.endpoints ==> e.id < id)
  }

  /** No id is used by services of both families. */
  ghost predicate Apart<SK4(!new), EV4, SK6(!new), EV6>(t4: Tables<SK4, EV4>, t6: Tables<SK6, EV6>) {
    forall k, l :: k in t4.services && l in t6.services ==> t4.services[k].id != t6.services[l].id
  }

  /** Every id in use is below the counter and belongs to one live key; no
      endpoint entry sits at an id that is still to be issued. */
  ghost predicate IdsSound(s: State) {
    TableIds(s.v4, s.id) && TableIds(s.v6, s.id) && Apart(s.v4, s.v6)
  }

  /** The guard that fails: an insertion that wrote its service entry and then
      lost an endpoint write, or ran at the last counter value. */
  predicate BadInsert(s: State, op: Op, done: nat) {
    Inserts(s, op) && done > 0 && (done < WriteCount(s, op) || s.id == 0xFFFF)
  }

  /** All writes are endpoint writes under `id`. */
  ghost predicate EndpointWritesAt<SK, EV>(ws: seq<Write<SK, EV>>, id: Id) {
    forall i :: 0 <= i < |ws| ==> (ws[i].PutEndpoint? || ws[i].DropEndpoint?) && ws[i].at.id == id
  }

  lemma {:induction false} EndpointWritesEffect<SK, EV>(t: Tables<SK, EV>, ws: seq<Write<SK, EV>>, id: Id)
    requires EndpointWritesAt(ws, id)
    ensures PerformAll(t, ws).services == t.services
    ensures forall e :: e in PerformAll(t, ws).endpoints ==> e in t.endpoints || e.id == id
  {
    if ws != [] {
      EndpointWritesEffect(t, ws[..|ws| - 1], id);
    }
  }

  /** Which service entries a prefix of an update leaves, and under which id
      its endpoint writes fell. */
  lemma UpdateEffect<SK, EV>(t: Tables<SK, EV>, key: SK, eps: seq<EV>, id: Id, done: nat)
    requires done <= |UpdateWrites(t, key, eps, id)|
    ensures var t' := PerformAll(t, UpdateWrites(t, key, eps, id)[..done]);
      var at := if key in t.services then t.services[key].id else id;
      && t'.services == (if key in t.services || done == 0 then t.services
                         else t.services[key := ServiceValue(id, |eps|)])
      && (done == 0 ==> t' == t)
      && (forall e :: e in t'.endpoints ==> e in t.endpoints || e.id == at)
  {
    var ws := UpdateWrites(t, key, eps, id);
    if key in t.services || done == 0 {
      EndpointWritesEffect(t, ws[..done], if key in t.services then t.services[key].id else id);
    } else {
      var head := ws[..1];
      assert ws[..done] == head + ws[1..done];
      PerformAllConcat(t, head, ws[1..done]);
      assert head == [PutService(key, ServiceValue(id, |eps|))];
      PerformOne(t, head[0]);
      EndpointWritesEffect(PerformAll(t, head), ws[1..done], id);
    }
  }

  lemma RemoveEffect<SK, EV>(t: Tables<SK, EV>, key: SK, done: nat)
    requires done <= |RemoveWrites(t, key)|
    ensures var t' := PerformAll(t, RemoveWrites(t, key)[..done]);
      && t'.services == (if done == |RemoveWrites(t, key)| then t.services - {key} else t.services)
      && (forall e :: e in t'.endpoints ==> e in t.endpoints || (key in t.services && e.id == t.services[key].id))
  {
    if key in t.services {
      hide PerformAll;
      var ws := RemoveWrites(t, key);
      var n := |ws| - 1;
      var drops := if done < n then done else n;
      EndpointWritesEffect(t, ws[..drops], t.services[key].id);
      if done == |ws| {
        PerformNext(t, ws, n);
      }
    }
  }

  lemma UpdateIds<SK(!new), EV>(t: Tables<SK, EV>, key: SK, eps: seq<EV>, id: Id, done: nat)
    requires TableIds(t, id) && done <= |UpdateWrites(t, key, eps, id)|
    ensures var t' := PerformAll(t, UpdateWrites(t, key, eps, id)[..done]);
      var id' := NextId(t, key, eps, id, done);
      var bad := key !in t.services && done > 0 && (done < |UpdateWrites(t, key, eps, id)| || id == 0xFFFF);
      && (TableIds(t', id') <==> !bad)
      && id' >= id
      && (forall k :: k in t'.services ==>
            (k in t.services && t'.services[k] == t.services[k]) || (k == key && t'.services[k].id == id))
  {
    UpdateEffect(t, key, eps, id, done);
    var t' := PerformAll(t, UpdateWrites(t, key, eps, id)[..done]);
    if key !in t.services && done > 0 {
      assert t'.services[key].id == id;
    }
  }

  lemma RemoveIds<SK(!new), EV>(t: Tables<SK, EV>, key: SK, id: Id, done: nat)
    requires TableIds(t, id) && done <= |RemoveWrites(t, key)|
    ensures var t' := PerformAll(t, RemoveWrites(t, key)[..done]);
      && TableIds(t', id)
      && (forall k :: k in t'.services ==> k in t.services && t'.services[k] == t.services[k])
  {
    RemoveEffect(t, key, done);
  }

  /** The ids stay sound after any operation, however many of its writes were
      performed, except exactly after a bad insertion. */
  lemma IdsKeptExactly(s: State, op: Op, done: nat)
    requires IdsSound(s) && done <= WriteCount(s, op)
    ensures IdsSound(Step(s, op, done)) <==> !BadInsert(s, op, done)
  {
    hide PerformAll;
    var s' := Step(s, op, done);
    match op
    case Update(V4(k), value) =>
      UpdateIds(s.v4, k, OnlyV4(value), s.id, done);
      assert Apart(s'.v4, s'.v6);
    case Update(V6(k), value) =>
      UpdateIds(s.v6, k, OnlyV6(value), s.id, done);
      assert Apart(s'.v4, s'.v6);
    case Remove(V4(k)) => RemoveIds(s.v4, k, s.id, done);
    case Remove(V6(k)) => RemoveIds(s.v6, k, s.id, done);
  }

  // ---------- Runs ----------

  /** One call and the number of its writes that were performed. */
  datatype Call = Call(op: Op, done: nat)

  predicate IsRun(s: State, calls: seq<Call>)
    decreases |calls|
  {
    calls != [] ==>
      && calls[0].done <= WriteCount(s, calls[0].op)
      && IsRun(Step(s, calls[0].op, calls[0].done), calls[1..])
  }

  predicate NoBadInsert(s: State, calls: seq<Call>)
    requires IsRun(s, calls)
    decreases |calls|
  {
    calls != [] ==>
      && !BadInsert(s, calls[0].op, calls[0].done)
      && NoBadInsert(Step(s, calls[0].op, calls[0].done), calls[1..])
  }

  function Final(s: State, calls: seq<Call>): State
    requires IsRun(s, calls)
    decreases |calls|
  {
    if calls == [] then s else Final(Step(s, calls[0].op, calls[0].done), calls[1..])
  }

  /** The ids the insertions of a run write into service entries, in order. */
  function Issued(s: State, calls: seq<Call>): seq<Id>
    requires IsRun(s, calls)
    decreases |calls|
  {
    if calls == [] then [] else
      var head := if Inserts(s, calls[0].op) && calls[0].done > 0 then [s.id] else [];
      head + Issued(Step(s, calls[0].op, calls[0].done), calls[1..])
  }

  /** Over every run without a bad insertion, whatever else fails, ids stay
      sound, and the issued ids strictly increase below the counter, so no id
      is ever issued twice. */
  lemma {:induction false} IdsNeverReissued(s: State, calls: seq<Call>)
    requires IdsSound(s) && IsRun(s, calls) && NoBadInsert(s, calls)
    ensures IdsSound(Final(s, calls)) && s.id <= Final(s, calls).id
    ensures Issued(s, calls) != [] ==> Issued(s, calls)[0] == s.id
    ensures forall i :: 0 <= i < |Issued(s, calls)| ==> s.id <= Issued(s, calls)[i] < Final(s, calls).id
    ensures forall i, j :: 0 <= i < j < |Issued(s, calls)| ==> Issued(s, calls)[i] < Issued(s, calls)[j]
    decreases |calls|
  {
    if calls == [] {
      return;
    }
    var Call(op, done) := calls[0];
    FirstCall(s, calls);
    hide Step, WriteCount, IdsSound, BadInsert, Inserts, Issued, Final, IsRun, NoBadInsert;
    var s' := Step(s, op, done);
    IdsKeptExactly(s, op, done);
    CounterStep(s, op, done);
    IdsNeverReissued(s', calls[1..]);
    var head := if Inserts(s, op) && done > 0 then [s.id] else [];
    OneMoreId(s.id, s'.id, Final(s', calls[1..]).id, head, Issued(s', calls[1..]));
  }

  lemma FirstCall(s: State, calls: seq<Call>)
    requires calls != [] && IsRun(s, calls) && NoBadInsert(s, calls)
    ensures var Call(op, done) := calls[0];
      && done <= WriteCount(s, op) && !BadInsert(s, op, done)
      && (Inserts(s, op) && done > 0 ==> done == WriteCount(s, op) && s.id < 0xFFFF)
      && (Inserts(s, op) && done == 0 ==> done < WriteCount(s, op))
      && var s' := Step(s, op, done);
      && IsRun(s', calls[1..]) && NoBadInsert(s', calls[1..])
      && Final(s, calls) == Final(s', calls[1..])
      && Issued(s, calls) == (if Inserts(s, op) && done > 0 then [s.id] else []) + Issued(s', calls[1..])
  {}

  /** An id in front of later ones: it is the counter, which then advances, or
      the counter stays. */
  lemma OneMoreId(from: Id, next: Id, below: Id, head: seq<Id>, later: seq<Id>)
    requires next <= below && if head == [] then next == from else head == [from] && next == from + 1
    requires later != [] ==> later[0] == next
    requires forall i :: 0 <= i < |later| ==> next <= later[i] < below
    requires forall i, j :: 0 <= i < j < |later| ==> later[i] < later[j]
    ensures var ids := head + later;
      && (ids != [] ==> ids[0] == from)
      && (forall i :: 0 <= i < |ids| ==> from <= ids[i] < below)
      && (forall i, j :: 0 <= i < j < |ids| ==> ids[i] < ids[j])
  {
    var ids := head + later;
    forall j | |head| <= j < |ids|
      ensures ids[j] == later[j - |head|]
    {
    }
  }

  /** From empty maps the first id issued is 128. */
  lemma IdsFromEmpty(calls: seq<Call>)
    requires IsRun(EMPTY, calls) && NoBadInsert(EMPTY, calls)
    ensures IdsSound(Final(EMPTY, calls))
    ensures Issued(EMPTY, calls) != [] ==> Issued(EMPTY, calls)[0] == 128
    ensures forall i :: 0 <= i < |Issued(EMPTY, calls)| ==> 128 <= Issued(EMPTY, calls)[i] < Final(EMPTY, calls).id
    ensures forall i, j :: 0 <= i < j < |Issued(EMPTY, calls)| ==> Issued(EMPTY, calls)[i] != Issued(EMPTY, calls)[j]
  {
    IdsNeverReissued(EMPTY, calls);
  }

  lemma CounterStep(s: State, op: Op, done: nat)
    requires IdsSound(s) && done <= WriteCount(s, op)
    ensures Step(s, op, done).id
         == if Inserts(s, op) && done == WriteCount(s, op) && s.id < 0xFFFF then s.id + 1 else s.id
  {
    match op
    case Update(V4(k), value) =>
    case Update(V6(k), value) =>
    case Remove(_) =>
  }

  // ---------- What a bad insertion does ----------

  /** An insertion that wrote its service entry, complete or not. */
  predicate Inserted(s: State, op: Op, done: nat) {
    Inserts(s, op) && 0 < done <= WriteCount(s, op)
  }

  lemma InsertionLeaves(s: State, op: Op, done: nat)
    requires Inserted(s, op, done)
    ensures var s' := Step(s, op, done);
      && Has(s', op.key) && ServiceOf(s', op.key) == ServiceValue(s.id, |SameFamily(op.key, op.value)|)
      && (forall key :: Has(s, key) ==> Has(s', key) && ServiceOf(s', key) == ServiceOf(s, key))
      && (s'.id == s.id <==> BadInsert(s, op, done))
  {
    match op
    case Update(V4(k), value) => UpdateEffect(s.v4, k, OnlyV4(value), s.id, done);
    case Update(V6(k), value) => UpdateEffect(s.v6, k, OnlyV6(value), s.id, done);
  }

  /** In any state, for either family and any lists: the insertion after one
      that wrote its service entry gets the same id exactly if that one was
      bad. */
  lemma IdReissuedExactly(s: State, first: Op, done: nat, second: Op, done': nat)
    requires Inserted(s, first, done) && Inserted(Step(s, first, done), second, done')
    ensures var s' := Step(Step(s, first, done), second, done');
      && Has(s', first.key) && Has(s', second.key)
      && (ServiceOf(s', first.key).id == ServiceOf(s', second.key).id <==> BadInsert(s, first, done))
  {
    InsertionLeaves(s, first, done);
    InsertionLeaves(Step(s, first, done), second, done');
  }

  lemma {:induction false} CollectPrefix<EV>(
      endpoints: map<EndpointKey, EV>, id: Id, from: u16, count: u16, eps: seq<EV>, n: nat)
    requires from <= n <= count && n <= |eps|
    requires forall i :: 0 <= i < n ==> EndpointKey(id, i) in endpoints && endpoints[EndpointKey(id, i)] == eps[i]
    ensures eps[from..n] <= Collect(endpoints, id, from, count)
    decreases n - from
  {
    if from < n {
      CollectPrefix(endpoints, id, from + 1, count, eps, n);
      assert eps[from..n] == [eps[from]] + eps[from + 1..n];
    }
  }

  /** A service whose id is issued to another one of its family shows the other
      one's list, as far as both lists go. */
  lemma TakenOver<SK, EV>(t: Tables<SK, EV>, key: SK, other: SK, eps: seq<EV>, id: Id)
    requires key in t.services && t.services[key].id == id && other !in t.services && |eps| <= MAX_ENDPOINTS
    ensures var t' := PerformAll(t, UpdateWrites(t, other, eps, id));
      var n := if t.services[key].count <= |eps| then t.services[key].count else |eps|;
      key in t'.services && eps[..n] <= Observe(t', key)
  {
    InsertEffect(t, id, other, eps);
    var t' := PerformAll(t, UpdateWrites(t, other, eps, id));
    var count := t.services[key].count;
    CollectPrefix(t'.endpoints, id, 0, count, eps, if count <= |eps| then count else |eps|);
  }

  lemma NextIdTakenOver(s: State, key: ServiceKey, op: Op)
    requires Has(s, key) && ServiceOf(s, key).id == s.id && Inserts(s, op) && key.V4? == op.key.V4?
    ensures Has(FullStep(s, op), key)
    ensures var count, list := ServiceOf(s, key).count, SameFamily(op.key, op.value);
      (if count <= |list| then list[..count] else list) <= Observed(FullStep(s, op), key)
  {
    match (key, op.key)
    case (V4(k), V4(l)) =>
      var eps := OnlyV4(op.value);
      var ws := UpdateWrites(s.v4, l, eps, s.id);
      assert ws[..|ws|] == ws;
      TakenOver(s.v4, k, l, eps, s.id);
    case (V6(k), V6(l)) =>
      var eps := OnlyV6(op.value);
      var ws := UpdateWrites(s.v6, l, eps, s.id);
      assert ws[..|ws|] == ws;
      TakenOver(s.v6, k, l, eps, s.id);
  }

  /** After a bad insertion the next one gets the same id, and if it is of the
      same family the first service shows the second one's list as far as both
      go.  Losing the first endpoint write makes any insertion of a non-empty
      list bad. */
  lemma FailedInsertReissuesId(s: State, first: Op, done: nat, second: Op)
    requires BadInsert(s, first, done) && done <= WriteCount(s, first)
    requires Inserts(Step(s, first, done), second)
    ensures SameFamily(first.key, first.value) != [] ==> BadInsert(s, first, 1)
    ensures var s' := FullStep(Step(s, first, done), second);
      var a, b := SameFamily(first.key, first.value), SameFamily(second.key, second.value);
      && Has(s', first.key) && Has(s', second.key)
      && ServiceOf(s', first.key).id == ServiceOf(s', second.key).id
      && (first.key.V4? == second.key.V4? ==>
            (if |a| <= |b| then b[..|a|] else b) <= Observed(s', first.key))
  {
    var s1 := Step(s, first, done);
    IdReissuedExactly(s, first, done, second, WriteCount(s1, second));
    InsertionLeaves(s, first, done);
    if first.key.V4? == second.key.V4? {
      NextIdTakenOver(s1, first.key, second);
    }
  }

  /** At the last counter value it happens without any failed write: the
      counter wraps, stays behind the answered id, and the id is issued again. */
  lemma LastIdReissued(s: State, first: Op, second: Op)
    requires s.id == 0xFFFF && Inserts(s, first) && Inserts(FullStep(s, first), second)
    ensures BadInsert(s, first, WriteCount(s, first))
    ensures var s' := FullStep(FullStep(s, first), second);
      && Has(s', first.key) && Has(s', second.key)
      && ServiceOf(s', first.key).id == ServiceOf(s', second.key).id
  {
    var s1 := FullStep(s, first);
    IdReissuedExactly(s, first, WriteCount(s, first), second, WriteCount(s1, second));
  }

  /** A service without backends that comes and goes `n` times. */
  function Cycles(k: ServiceKeyV4, n: nat): seq<Call> {
    if n == 0 then [] else [Call(Update(V4(k), []), 1), Call(Remove(V4(k)), 1)] + Cycles(k, n - 1)
  }

  /** Every counter value up to the last is reached from empty maps without a
      failed write: one service coming and going takes a new id each time. */
  lemma CountersReached(k: ServiceKeyV4, n: nat)
    requires n <= 65407
    ensures IsRun(EMPTY, Cycles(k, n)) && NoBadInsert(EMPTY, Cycles(k, n))
    ensures Final(EMPTY, Cycles(k, n)) == EMPTY.(id := 128 + n)
  {
    CyclesAdvance(128, k, n);
  }

  lemma {:induction false} CyclesAdvance(id: Id, k: ServiceKeyV4, n: nat)
    requires id + n <= 0xFFFF
    ensures var s := EMPTY.(id := id);
      IsRun(s, Cycles(k, n)) && NoBadInsert(s, Cycles(k, n)) && Final(s, Cycles(k, n)) == EMPTY.(id := id + n)
    decreases n
  {
    if n > 0 {
      var s := EMPTY.(id := id);
      OneCycle(s, k);
      CyclesAdvance(id + 1, k, n - 1);
      var s1 := Step(s, Update(V4(k), []), 1);
      var calls := Cycles(k, n);
      assert calls[1..][1..] == Cycles(k, n - 1);
      assert calls[1..][0] == Call(Remove(V4(k)), 1);
      assert Final(s, calls) == Final(s1, calls[1..]);
    }
  }

  lemma OneCycle(s: State, k: ServiceKeyV4)
    requires s == EMPTY.(id := s.id) && s.id < 0xFFFF
    ensures WriteCount(s, Update(V4(k), [])) == 1
    ensures var s1 := Step(s, Update(V4(k), []), 1);
      && WriteCount(s1, Remove(V4(k))) == 1
      && Step(s1, Remove(V4(k)), 1) == EMPTY.(id := s.id + 1)
  {
    var claim: Write<ServiceKeyV4, EndpointValueV4> := PutService(k, ServiceValue(s.id, 0));
    var drop: Write<ServiceKeyV4, EndpointValueV4> := DropService(k);
    assert OnlyV4([]) == [];
    assert UpdateWrites(s.v4, k, [], s.id)[..1] == [claim];
    PerformOne(s.v4, claim);
    var s1 := Step(s, Update(V4(k), []), 1);
    assert s1.v4 == Tables(map[k := ServiceValue(s.id, 0)], map[]);
    assert RemoveWrites(s1.v4, k)[..1] == [drop];
    PerformOne(s1.v4, drop);
  }
}
