/** The controller that feeds generated lists into the service state. */
module Reconcile {
  import opened NetTypes
  import opened Sequences
  import opened ServiceTable
  import opened ServiceSpec
  import opened ServiceState
  import opened ServiceRefinement
  import opened MeshEndpoints

  const MESH_SERVICE := "mesh-cni.dev/multi-cluster"

  datatype Action = AwaitChange | Requeue(milliseconds: nat)

  datatype Resource =
    | ServiceResource(service: Service)
    | MeshEndpointResource(
        name: string, namespace: Option<string>, labels: map<string, string>, deleting: bool, spec: MeshEndpointSpec)
  {
    function Namespace(): Option<string> {
      if ServiceResource? then service.namespace else namespace
    }

    function Labels(): map<string, string> {
      if ServiceResource? then service.labels else labels
    }

    predicate Deleting() {
      if ServiceResource? then service.deleting else deleting
    }
  }

  /** Local copies of cluster objects, by namespace and name. */
  datatype Stores = Stores(
    services: map<(string, string), Service>,
    slices: seq<EndpointSlice>,
    meshEndpoints: map<(string, string), MeshEndpointSpec>)

  predicate IsCurrent(k: Resource, stores: Stores) {
    var ns := if k.Namespace().Some? then k.Namespace().value else "";
    match k
    case ServiceResource(service) =>
      (ns, service.name) in stores.services && stores.services[(ns, service.name)].spec == service.spec
    case MeshEndpointResource(name, _, _, _, spec) =>
      (ns, name) in stores.meshEndpoints && stores.meshEndpoints[(ns, name)] == spec
  }

  function SpecFor(k: Resource, stores: Stores, parse: Parser): MeshEndpointSpec {
    match k
    case ServiceResource(service) => SpecOf(stores.slices, service, parse)
    case MeshEndpointResource(_, _, _, _, spec) => spec
  }

  function PairsFor(k: Resource, stores: Stores, parse: Parser): seq<Pair> {
    Pairs(SpecFor(k, stores, parse).serviceIps, SpecFor(k, stores, parse).mappings)
  }

  type Lists = map<ServiceKey, seq<EndpointValue>>

  function Removes(order: seq<ServiceKey>): (ops: seq<Op>)
    ensures |ops| == |order|
  {
    seq(|order|, i requires 0 <= i < |order| => Remove(order[i]))
  }

  function Updates(lists: Lists, order: seq<ServiceKey>): (ops: seq<Op>)
    requires forall k :: k in order ==> k in lists
    ensures |ops| == |order|
  {
    seq(|order|, i requires 0 <= i < |order| => Update(order[i], lists[order[i]]))
  }

  /** The operations a pass performs before its updates. */
  function Head(order: seq<ServiceKey>, deleting: bool): seq<Op> {
    if deleting then Removes(order) else []
  }

  /** `order` lists every key once, in some order. */
  ghost predicate Orders(order: seq<ServiceKey>, lists: Lists) {
    Distinct(order) && forall k :: k in order <==> k in lists
  }

  /** The operations of one pass: the removals if the resource is being
      deleted, and in either case all updates. */
  ghost predicate IsPass(ops: seq<Op>, lists: Lists, deleting: bool) {
    exists removed, updated ::
      && Orders(removed, lists) && Orders(updated, lists)
      && ops == Head(removed, deleting) + Updates(lists, updated)
  }

  predicate HasLabel(labels: map<string, string>, name: string, value: string) {
    name in labels && labels[name] == value
  }

  predicate Skipped(k: Resource, stores: Stores) {
    k.Namespace().None? || HasLabel(k.Labels(), MESH_SERVICE, "true") || !IsCurrent(k, stores)
  }

  /** A Service is skipped without a namespace, with the multi-cluster label
      set, or unless the local copy stored under its namespace and name has its
      spec; else the pairs come from its cluster addresses and the join. */
  lemma ServiceExactly(service: Service, stores: Stores, parse: Parser)
    ensures var k := ServiceResource(service);
      && (Skipped(k, stores) <==>
            service.namespace.None?
            || ("mesh-cni.dev/multi-cluster" in service.labels
                && service.labels["mesh-cni.dev/multi-cluster"] == "true")
            || (service.namespace.value, service.name) !in stores.services
            || stores.services[(service.namespace.value, service.name)].spec != service.spec)
      && k.Deleting() == service.deleting
      && PairsFor(k, stores, parse)
         == Pairs(ServiceIps(service, parse), SpecOf(stores.slices, service, parse).mappings)
  {}

  /** The same for a MeshEndpoint, whose pairs come from its own spec. */
  lemma MeshEndpointExactly(
      name: string, namespace: Option<string>, labels: map<string, string>, deleting: bool, spec: MeshEndpointSpec,
      stores: Stores, parse: Parser)
    ensures var k := MeshEndpointResource(name, namespace, labels, deleting, spec);
      && (Skipped(k, stores) <==>
            namespace.None?
            || ("mesh-cni.dev/multi-cluster" in labels && labels["mesh-cni.dev/multi-cluster"] == "true")
            || (namespace.value, name) !in stores.meshEndpoints
            || stores.meshEndpoints[(namespace.value, name)] != spec)
      && k.Deleting() == deleting
      && PairsFor(k, stores, parse) == Pairs(spec.serviceIps, spec.mappings)
  {}

  method GenerateServicePairs(k: Resource, stores: Stores, parse: Parser) returns (lists: Lists)
    ensures Groups(lists, PairsFor(k, stores, parse))
  {
    var spec;
    match k {
      case ServiceResource(service) => spec := GenerateMeshEndpointSpec(stores.slices, service, parse);
      case MeshEndpointResource(_, _, _, _, s) => spec := s;
    }
    lists := GenerateBpfServiceEndpoints(spec);
  }

  /** `after` is the state after the first `n` operations and, if one is left,
      those `done` writes of the next that came before it failed. */
  predicate RanUntil(s: State, ops: seq<Op>, n: nat, done: nat, after: State) {
    && n <= |ops|
    && if n == |ops| then after == Run(s, ops) else
         var stopped := Run(s, ops[..n]);
         && done <= WriteCount(stopped, ops[n]) && (done < WriteCount(stopped, ops[n]) || Rejected(ops[n]))
         && after == Step(stopped, ops[n], done)
  }

  lemma RanFurther(s: State, head: seq<Op>, tail: seq<Op>, n: nat, done: nat, after: State)
    requires RanUntil(Run(s, head), tail, n, done, after)
    ensures RanUntil(s, head + tail, |head| + n, done, after)
  {
    hide Run, Step, WriteCount;
    RunConcat(s, head, tail);
    RunConcat(s, head, tail[..n]);
    assert (head + tail)[..|head| + n] == head + tail[..n];
  }

  lemma RanHead(s: State, head: seq<Op>, tail: seq<Op>, n: nat, done: nat, after: State)
    requires RanUntil(s, head, n, done, after) && n < |head|
    ensures RanUntil(s, head + tail, n, done, after)
  {
    assert (head + tail)[..n] == head[..n];
  }

  lemma StoppedAt(s: State, head: seq<Op>, ops: seq<Op>, done: nat)
    requires |head| < |ops| && ops[..|head|] == head
    requires var next := ops[|head|];
      done <= WriteCount(Run(s, head), next) && (done < WriteCount(Run(s, head), next) || Rejected(next))
    ensures RanUntil(s, ops, |head|, done, Step(Run(s, head), ops[|head|], done))
  {}

  lemma OneMoreOp(s: State, ops: seq<Op>, op: Op)
    ensures Run(s, ops + [op]) == FullStep(Run(s, ops), op)
  {
    RunConcat(s, ops, [op]);
    assert [op][1..] == [];
  }

  /** `order` and then `key` begin some listing of all keys. */
  lemma CompleteOrder(order: seq<ServiceKey>, key: ServiceKey, lists: Lists) returns (full: seq<ServiceKey>)
    requires Distinct(order + [key]) && forall k :: k in order + [key] ==> k in lists
    ensures Orders(full, lists) && |order| < |full| && full[..|order|] == order && full[|order|] == key
    ensures Removes(full)[..|order|] == Removes(order) && Updates(lists, full)[..|order|] == Updates(lists, order)
    decreases lists.Keys - set k | k in order
  {
    full := order + [key];
    assert key in lists.Keys - (set k | k in order) && key !in lists.Keys - (set k | k in full);
    if next :| next in lists && next !in full {
      hide Orders;
      var longer := CompleteOrder(full, next, lists);
      assert longer[..|order|] == full[..|order|];
      full := longer;
    }
    assert forall k :: k in full ==> k in lists;
    SameBegin(order, full, lists);
  }

  lemma SameBegin(order: seq<ServiceKey>, full: seq<ServiceKey>, lists: Lists)
    requires |order| <= |full| && full[..|order|] == order && forall k :: k in full ==> k in lists
    ensures (forall k :: k in order ==> k in lists)
    ensures Removes(full)[..|order|] == Removes(order) && Updates(lists, full)[..|order|] == Updates(lists, order)
  {}

  /** Removes every key; a failed call is the one after the first `n`. */
  method RemoveAll(state: ServiceEndpointState, lists: Lists)
    returns (ok: bool, ghost order: seq<ServiceKey>, ghost n: nat, ghost done: nat)
    requires state.Valid()
    modifies state.Repr()
    ensures state.Valid() && Orders(order, lists) && (ok <==> n == |order|)
    ensures RanUntil(old(state.View()), Removes(order), n, done, state.View())
    ensures state.Faults() >= old(state.Faults()) && (ok <==> state.Faults() == old(state.Faults()))
  {
    ghost var s := state.View();
    order, n, done := [], 0, 0;
    var rest := lists.Keys;
    while rest != {}
      invariant state.Valid()
      invariant rest <= lists.Keys && Distinct(order)
      invariant forall k :: k in order <==> k in lists && k !in rest
      invariant n == |order| && state.View() == Run(s, Removes(order)) && state.Faults() == old(state.Faults())
      decreases rest
    {
      var key :| key in rest;
      ok, done := state.Remove(key);
      if !ok {
        ghost var full := CompleteOrder(order, key, lists);
        StoppedAt(s, Removes(order), Removes(full), done);
        order := full;
        return;
      }
      OneMoreOp(s, Removes(order), Remove(key));
      assert Removes(order + [key]) == Removes(order) + [Remove(key)];
      order, n := order + [key], n + 1;
      rest := rest - {key};
    }
    ok := true;
  }

  /** No list outnumbers a u16 count. */
  predicate AllFit(lists: Lists) {
    forall key :: key in lists ==> !Rejected(Update(key, lists[key]))
  }

  /** Updates every key; a failed call is the one after the first `n`. */
  method UpdateAll(state: ServiceEndpointState, lists: Lists)
    returns (ok: bool, ghost order: seq<ServiceKey>, ghost n: nat, ghost done: nat)
    requires state.Valid()
    modifies state.Repr()
    ensures state.Valid() && Orders(order, lists) && (ok <==> n == |order|)
    ensures RanUntil(old(state.View()), Updates(lists, order), n, done, state.View())
    ensures state.Faults() >= old(state.Faults())
    ensures ok <==> AllFit(lists) && state.Faults() == old(state.Faults())
  {
    ghost var s := state.View();
    order, n, done := [], 0, 0;
    var rest := lists.Keys;
    while rest != {}
      invariant state.Valid()
      invariant rest <= lists.Keys && Distinct(order)
      invariant forall k :: k in order <==> k in lists && k !in rest
      invariant n == |order| && state.View() == Run(s, Updates(lists, order)) && state.Faults() == old(state.Faults())
      invariant forall k :: k in order ==> !Rejected(Update(k, lists[k]))
      decreases rest
    {
      var key :| key in rest;
      ok, done := state.Update(key, lists[key]);
      if !ok {
        ghost var full := CompleteOrder(order, key, lists);
        StoppedAt(s, Updates(lists, order), Updates(lists, full), done);
        order := full;
        return;
      }
      OneMoreOp(s, Updates(lists, order), Update(key, lists[key]));
      assert Updates(lists, order + [key]) == Updates(lists, order) + [Update(key, lists[key])];
      order, n := order + [key], n + 1;
      rest := rest - {key};
    }
    ok := true;
  }

  /** Removals that stopped begin a pass. */
  lemma RemovalsStopped(s: State, lists: Lists, order: seq<ServiceKey>, n: nat, done: nat, after: State)
    returns (ops: seq<Op>)
    requires Orders(order, lists) && n < |order| && RanUntil(s, Removes(order), n, done, after)
    ensures IsPass(ops, lists, true) && n < |ops| && RanUntil(s, ops, n, done, after)
  {
    hide RanUntil, Run;
    ops := Removes(order) + Updates(lists, order);
    assert ops == Head(order, true) + Updates(lists, order);
    RanHead(s, Removes(order), Updates(lists, order), n, done, after);
  }

  /** Updates after complete removals are, or begin, a pass. */
  lemma UpdatesFollowed(
      s: State, lists: Lists, deleting: bool, removed: seq<ServiceKey>, updated: seq<ServiceKey>,
      n: nat, done: nat, after: State)
    returns (ops: seq<Op>)
    requires Orders(removed, lists) && Orders(updated, lists)
    requires RanUntil(Run(s, Head(removed, deleting)), Updates(lists, updated), n, done, after)
    ensures IsPass(ops, lists, deleting) && |ops| == |Head(removed, deleting)| + |updated|
    ensures RanUntil(s, ops, |Head(removed, deleting)| + n, done, after)
  {
    hide RanUntil, Run;
    ops := Head(removed, deleting) + Updates(lists, updated);
    RanFurther(s, Head(removed, deleting), Updates(lists, updated), n, done, after);
  }

  /** The first loop, for a resource that is being deleted. */
  method RemovePhase(state: ServiceEndpointState, lists: Lists, deleting: bool)
    returns (ok: bool, ghost order: seq<ServiceKey>, ghost n: nat, ghost done: nat)
    requires state.Valid()
    modifies state.Repr()
    ensures state.Valid() && (deleting ==> Orders(order, lists)) && (ok <==> n == |Head(order, deleting)|)
    ensures RanUntil(old(state.View()), Head(order, deleting), n, done, state.View())
    ensures state.Faults() >= old(state.Faults()) && (ok <==> state.Faults() == old(state.Faults()))
  {
    ok, order, n, done := true, [], 0, 0;
    if deleting {
      ok, order, n, done := RemoveAll(state, lists);
    }
  }

  /** The two loops of a pass; a failed pass ran the first `n` operations of a
      whole pass and stopped within the next. */
  method ApplyPass(state: ServiceEndpointState, lists: Lists, deleting: bool)
    returns (ok: bool, ghost ops: seq<Op>, ghost n: nat, ghost done: nat)
    requires state.Valid()
    modifies state.Repr()
    ensures state.Valid() && IsPass(ops, lists, deleting) && (ok <==> n == |ops|)
    ensures RanUntil(old(state.View()), ops, n, done, state.View())
    ensures state.Faults() >= old(state.Faults())
    ensures ok <==> AllFit(lists) && state.Faults() == old(state.Faults())
  {
    hide RanUntil, IsPass, Orders, Run, Updates;
    ghost var s := state.View();
    ghost var removed, updated;
    ok, removed, n, done := RemovePhase(state, lists, deleting);
    if !ok {
      ops := RemovalsStopped(s, lists, removed, n, done, state.View());
      return;
    }
    ok, updated, n, done := UpdateAll(state, lists);
    removed := if deleting then removed else updated;
    ops := UpdatesFollowed(s, lists, deleting, removed, updated, n, done, state.View());
    n := |Head(removed, deleting)| + n;
  }

  /** One pass of the controller.  It skips the resource and changes nothing,
      or runs a whole pass of its generated lists; a failure leaves the state
      after the operations of such a pass that completed and the writes of the
      next one that were performed. */
  method ReconcileResource(k: Resource, stores: Stores, parse: Parser, state: ServiceEndpointState)
    returns (r: Result<Action>, ghost lists: Lists, ghost ops: seq<Op>, ghost n: nat, ghost done: nat)
    requires state.Valid()
    modifies state.Repr()
    ensures state.Valid()
    ensures k.Namespace().None? ==> r.Err?
    ensures Skipped(k, stores) ==> state.View() == old(state.View())
    ensures Skipped(k, stores) && k.Namespace().Some? ==>
      r == Ok(if HasLabel(k.Labels(), "mesh-cni.dev/multi-cluster", "true") then AwaitChange else Requeue(200))
    ensures !Skipped(k, stores) ==>
      && r == (if n == |ops| then Ok(AwaitChange) else Err)
      && Groups(lists, PairsFor(k, stores, parse))
      && IsPass(ops, lists, k.Deleting())
      && RanUntil(old(state.View()), ops, n, done, state.View())
      && (r.Ok? <==> (forall key :: key in lists ==> |lists[key]| <= 65535) && state.Faults() == old(state.Faults()))
    ensures state.Faults() >= old(state.Faults())
  {
    lists, ops, n, done := map[], [], 0, 0;
    if k.Namespace().None? {
      return Err, lists, ops, n, done;
    }
    if HasLabel(k.Labels(), MESH_SERVICE, "true") {
      return Ok(AwaitChange), lists, ops, n, done;
    }
    if !IsCurrent(k, stores) {
      return Ok(Requeue(200)), lists, ops, n, done;
    }
    var pairs := GenerateServicePairs(k, stores, parse);
    lists := pairs;
    var ok;
    ok, ops, n, done := ApplyPass(state, pairs, k.Deleting());
    GeneratedFits(k, stores, parse, pairs);
    r := if ok then Ok(AwaitChange) else Err;
  }

  // ---------- What a pass leaves behind ----------

  /** Every list fits its key's family and the u16 count. */
  ghost predicate Fits(lists: Lists) {
    forall key :: key in lists ==>
      && (forall e :: e in lists[key] ==> SameFamilyAndProtocol(key, e))
      && !Rejected(Update(key, lists[key]))
  }

  lemma {:induction false} AllV4(list: seq<EndpointValue>)
    requires forall e :: e in list ==> e.E4?
    ensures Wrap4(OnlyV4(list)) == list
  {
    if list != [] {
      AllV4(list[..|list| - 1]);
    }
  }

  lemma {:induction false} AllV6(list: seq<EndpointValue>)
    requires forall e :: e in list ==> e.E6?
    ensures Wrap6(OnlyV6(list)) == list
  {
    if list != [] {
      AllV6(list[..|list| - 1]);
    }
  }

  /** The family filter in the update drops nothing from a generated list. */
  lemma FilterDropsNothing(key: ServiceKey, list: seq<EndpointValue>)
    requires forall e :: e in list ==> SameFamilyAndProtocol(key, e)
    ensures SameFamily(key, list) == list
  {
    if key.V4? {
      AllV4(list);
    } else {
      AllV6(list);
    }
  }

  lemma {:induction false} UpdatesOfOthers(
      before: Option<Entry<EndpointValue>>, lists: Lists, order: seq<ServiceKey>, key: ServiceKey)
    requires (forall k :: k in order ==> k in lists) && key !in order
    ensures History(before, Updates(lists, order), key) == before
  {
    if order != [] {
      assert Updates(lists, order)[1..] == Updates(lists, order[1..]);
      UpdatesOfOthers(before, lists, order[1..], key);
    }
  }

  /** In a series of updates of distinct keys only a key's own update counts. */
  lemma {:induction false} UpdatesOfKey(
      before: Option<Entry<EndpointValue>>, lists: Lists, order: seq<ServiceKey>, key: ServiceKey)
    requires (forall k :: k in order ==> k in lists) && Distinct(order) && key in order
    ensures History(before, Updates(lists, order), key) == KeyStep(before, Update(key, lists[key]), key)
  {
    assert Updates(lists, order)[1..] == Updates(lists, order[1..]);
    if order[0] == key {
      UpdatesOfOthers(KeyStep(before, Update(key, lists[key]), key), lists, order[1..], key);
    } else {
      UpdatesOfKey(before, lists, order[1..], key);
    }
  }

  lemma {:induction false} RemovesOfOrder(before: Option<Entry<EndpointValue>>, order: seq<ServiceKey>, key: ServiceKey)
    ensures History(before, Removes(order), key) == if key in order then None else before
    decreases |order|
  {
    if order != [] {
      assert Removes(order)[1..] == Removes(order[1..]);
      RemovesOfOrder(KeyStep(before, Remove(order[0]), key), order[1..], key);
    }
  }

  /** What a pass makes of one key, whatever the order of its operations. */
  function AfterPass(
      before: Option<Entry<EndpointValue>>, lists: Lists, deleting: bool, key: ServiceKey): Option<Entry<EndpointValue>>
  {
    if key !in lists then before
    else if before.None? || deleting then Some(Entry(lists[key], |lists[key]|))
    else Some(Entry(lists[key], before.value.recorded))
  }

  lemma PassHistory(before: Option<Entry<EndpointValue>>, lists: Lists, deleting: bool, ops: seq<Op>, key: ServiceKey)
    requires IsPass(ops, lists, deleting) && Fits(lists)
    ensures History(before, ops, key) == AfterPass(before, lists, deleting, key)
  {
    var removed, updated :|
      && Orders(removed, lists) && Orders(updated, lists)
      && ops == Head(removed, deleting) + Updates(lists, updated);
    var head := Head(removed, deleting);
    HistoryConcat(before, head, Updates(lists, updated), key);
    RemovesOfOrder(before, removed, key);
    var middle := History(before, head, key);
    if key in lists {
      UpdatesOfKey(middle, lists, updated, key);
      FilterDropsNothing(key, lists[key]);
      FittingLength(key, lists[key]);
    } else {
      UpdatesOfOthers(middle, lists, updated, key);
    }
  }

  lemma FittingLength(key: ServiceKey, list: seq<EndpointValue>)
    ensures |SameFamily(key, list)| > MAX_ENDPOINTS <==> Rejected(Update(key, list))
  {}

  /** A pass with failure-free writes shows, under every key, what the pass
      makes of that key alone. */
  lemma PassShows(s: State, m: Model, lists: Lists, deleting: bool, ops: seq<Op>, key: ServiceKey)
    requires StateRefines(s, m) && IdsAvailable(s, ops) && IsPass(ops, lists, deleting) && Fits(lists)
    ensures var after := AfterPass(Lookup(m, key), lists, deleting, key);
      && (Has(Run(s, ops), key) <==> after.Some?)
      && (after.Some? ==> Observed(Run(s, ops), key) == after.value.Visible())
  {
    RunShowsHistoryFrom(s, m, ops, key);
    PassHistory(Lookup(m, key), lists, deleting, ops, key);
  }

  /** The order in which a pass visits its keys is not observable: ids may
      differ, the table does not. */
  lemma OrderNotObservable(s: State, m: Model, lists: Lists, deleting: bool, a: seq<Op>, b: seq<Op>)
    requires StateRefines(s, m) && Fits(lists)
    requires IsPass(a, lists, deleting) && IdsAvailable(s, a)
    requires IsPass(b, lists, deleting) && IdsAvailable(s, b)
    ensures ObservedTable(Run(s, a)) == ObservedTable(Run(s, b))
  {
    hide StateRefines, Fits, IsPass, IdsAvailable, Run, Observed, Has;
    forall key: ServiceKey
      ensures Has(Run(s, a), key) == Has(Run(s, b), key)
      ensures Has(Run(s, a), key) ==> Observed(Run(s, a), key) == Observed(Run(s, b), key)
    {
      PassShows(s, m, lists, deleting, a, key);
      PassShows(s, m, lists, deleting, b, key);
    }
  }

  lemma RepeatedPassOnKey(s: State, m: Model, lists: Lists, a: seq<Op>, b: seq<Op>, key: ServiceKey)
    requires StateRefines(s, m) && Fits(lists)
    requires IsPass(a, lists, false) && IdsAvailable(s, a)
    requires IsPass(b, lists, false) && IdsAvailable(Run(s, a), b)
    ensures Has(Run(Run(s, a), b), key) == Has(Run(s, a), key)
    ensures Has(Run(s, a), key) ==> Observed(Run(Run(s, a), b), key) == Observed(Run(s, a), key)
  {
    RunRefines(s, m, a);
    LookupRun(m, a, key);
    PassHistory(Lookup(m, key), lists, false, a, key);
    PassShows(s, m, lists, false, a, key);
    PassShows(Run(s, a), ModelRun(m, a), lists, false, b, key);
  }

  /** Repeating a pass of a resource that is not being deleted changes nothing
      that can be observed. */
  lemma RepeatedPassNotObservable(s: State, m: Model, lists: Lists, a: seq<Op>, b: seq<Op>)
    requires StateRefines(s, m) && Fits(lists)
    requires IsPass(a, lists, false) && IdsAvailable(s, a)
    requires IsPass(b, lists, false) && IdsAvailable(Run(s, a), b)
    ensures ObservedTable(Run(Run(s, a), b)) == ObservedTable(Run(s, a))
  {
    hide StateRefines, Fits, IsPass, IdsAvailable, Run, Observed, Has;
    forall key: ServiceKey
      ensures Has(Run(Run(s, a), b), key) == Has(Run(s, a), key)
      ensures Has(Run(s, a), key) ==> Observed(Run(Run(s, a), b), key) == Observed(Run(s, a), key)
    {
      RepeatedPassOnKey(s, m, lists, a, b, key);
    }
  }

  /** The list a reader finds under `key`, empty if it is absent. */
  function Shown(s: State, key: ServiceKey): seq<EndpointValue> {
    if Has(s, key) then Observed(s, key) else []
  }

  /** From any state that a failure-free run can leave, a pass of a resource that
      is not being deleted makes a key show what was generated for it, nothing
      if the key was not generated, exactly when the list has not outgrown a
      length recorded before or, for a key not generated, nothing was shown. */
  lemma PassConvergesExactly(s: State, m: Model, lists: Lists, ops: seq<Op>, key: ServiceKey)
    requires StateRefines(s, m) && IdsAvailable(s, ops) && Fits(lists) && IsPass(ops, lists, false)
    ensures Shown(Run(s, ops), key) == (if key in lists then lists[key] else []) <==>
      if key in lists then Has(s, key) ==> |lists[key]| <= ServiceOf(s, key).count else Shown(s, key) == []
  {
    PassShows(s, m, lists, false, ops, key);
    ObservedRefines(s, m, key);
  }

  /** A key whose last ready backend is gone gets no list, and the pass leaves
      its old backends in place. */
  lemma LastBackendStays(key: ServiceKey, list: seq<EndpointValue>, insertion: seq<Op>, ops: seq<Op>)
    requires Fits(map[key := list]) && IsPass(insertion, map[key := list], false) && IsPass(ops, map[], false)
    ensures IdsAvailable(EMPTY, insertion) && Shown(Run(EMPTY, insertion), key) == list
    ensures Shown(Run(Run(EMPTY, insertion), ops), key) == list
  {
    var lists: Lists := map[key := list];
    PassHasIdsExactly(lists, insertion);
    PassShows(EMPTY, NOTHING, lists, false, insertion, key);
    RunRefines(EMPTY, NOTHING, insertion);
    EmptyPass(ops);
  }

  lemma EmptyPass(ops: seq<Op>)
    requires IsPass(ops, map[], false)
    ensures ops == []
  {
    var none: Lists := map[];
    var removed, updated :|
      Orders(removed, none) && Orders(updated, none) && ops == Head(removed, false) + Updates(none, updated);
    OrderLength(updated, none.Keys);
  }

  /** A pass of a resource that is being deleted takes no key away, neither its
      own nor any other: the keys present afterwards are exactly those present
      before and those of its lists, each of which shows its whole list. */
  lemma DeletionLeavesKeys(s: State, m: Model, lists: Lists, ops: seq<Op>, key: ServiceKey)
    requires StateRefines(s, m) && IdsAvailable(s, ops) && Fits(lists) && IsPass(ops, lists, true)
    ensures Has(Run(s, ops), key) <==> Has(s, key) || key in lists
    ensures Has(Run(s, ops), key) ==>
      Observed(Run(s, ops), key) == if key in lists then lists[key] else Observed(s, key)
  {
    PassShows(s, m, lists, true, ops, key);
    ObservedRefines(s, m, key);
  }

  // ---------- Ids for a pass ----------

  /** Updates of keys that are not present each take one id. */
  lemma {:induction false} FreshUpdatesIds(s: State, m: Model, lists: Lists, order: seq<ServiceKey>)
    requires StateRefines(s, m) && Fits(lists) && Distinct(order)
    requires forall k :: k in order ==> k in lists && !Has(s, k)
    ensures IdsAvailable(s, Updates(lists, order)) <==> s.id + |order| <= 0xFFFF
    decreases |order|
  {
    if order != [] && s.id < 0xFFFF {
      var op, rest := Update(order[0], lists[order[0]]), order[1..];
      assert Updates(lists, order)[1..] == Updates(lists, rest);
      StepRefines(s, m, op);
      forall k | k in rest
        ensures !Has(FullStep(s, op), k)
      {
        OtherKeysUnchanged(s, m, op, k);
      }
      InsertTakesId(s, op);
      FreshUpdatesIds(FullStep(s, op), ModelStep(m, op), lists, rest);
    }
  }

  lemma InsertTakesId(s: State, op: Op)
    requires Inserts(s, op) && s.id < 0xFFFF
    ensures FullStep(s, op).id == s.id + 1
  {}

  lemma {:induction false} OrderLength(order: seq<ServiceKey>, keys: set<ServiceKey>)
    requires Distinct(order) && forall k :: k in order <==> k in keys
    ensures |order| == |keys|
    decreases |order|
  {
    if order == [] {
      assert keys == {};
    } else {
      OrderLength(order[1..], keys - {order[0]});
    }
  }

  /** A pass into an empty table finds an id for every key exactly when it has
      at most 65407 keys. */
  lemma PassHasIdsExactly(lists: Lists, ops: seq<Op>)
    requires IsPass(ops, lists, false) && Fits(lists)
    ensures IdsAvailable(EMPTY, ops) <==> |lists| <= 65407
  {
    var removed, updated :|
      Orders(removed, lists) && Orders(updated, lists) && ops == Head(removed, false) + Updates(lists, updated);
    assert ops == Updates(lists, updated);
    FreshUpdatesIds(EMPTY, NOTHING, lists, updated);
    OrderLength(updated, lists.Keys);
  }

  // ---------- End to end ----------

  /** A generated list fits exactly when it has at most 65535 entries. */
  lemma GeneratedFits(k: Resource, stores: Stores, parse: Parser, lists: Lists)
    requires Groups(lists, PairsFor(k, stores, parse))
    ensures AllFit(lists) <==> forall key :: key in lists ==> |lists[key]| <= 65535
    ensures AllFit(lists) ==> Fits(lists)
  {
    forall key | key in lists
      ensures forall e :: e in lists[key] ==> SameFamilyAndProtocol(key, e)
      ensures Rejected(Update(key, lists[key])) <==> |lists[key]| > 65535
    {
      GroupedListsFit(SpecFor(k, stores, parse), lists, key);
      FilterDropsNothing(key, lists[key]);
      FittingLength(key, lists[key]);
    }
  }

  /** End to end: a successful pass of a service that is not being deleted,
      into an empty table, leaves a table that is exactly the generated one. */
  lemma ServicePassIsExact(k: Resource, stores: Stores, parse: Parser, lists: Lists, ops: seq<Op>)
    requires Groups(lists, PairsFor(k, stores, parse)) && IsPass(ops, lists, false)
    requires (forall key :: key in lists ==> |lists[key]| <= 65535) && |lists| <= 65407
    ensures ObservedTable(Run(EMPTY, ops)) == lists
  {
    hide Groups, Fits, IsPass, IdsAvailable, Run, Observed, Has;
    GeneratedFits(k, stores, parse, lists);
    PassHasIdsExactly(lists, ops);
    forall key: ServiceKey
      ensures Has(Run(EMPTY, ops), key) <==> key in lists
      ensures key in lists ==> Observed(Run(EMPTY, ops), key) == lists[key]
    {
      PassShows(EMPTY, NOTHING, lists, false, ops, key);
    }
  }

  /** ... and each key shows the backends mapped for its port and protocol, in
      generation order, once for each time the service lists its address. */
  lemma ServiceKeysShowBackends(
      service: Service, stores: Stores, parse: Parser, lists: Lists, ops: seq<Op>, key: ServiceKey)
    requires Groups(lists, PairsFor(ServiceResource(service), stores, parse)) && IsPass(ops, lists, false)
    requires (forall key :: key in lists ==> |lists[key]| <= 65535) && |lists| <= 65407
    ensures var ips := ServiceIps(service, parse);
      var backends := BackendsFor(SpecOf(stores.slices, service, parse).mappings, key);
      var shown := AddressOf(key) in ips && backends != [];
      && (key in ObservedTable(Run(EMPTY, ops)) <==> shown)
      && (shown ==> ObservedTable(Run(EMPTY, ops))[key] == Repeat(backends, multiset(ips)[AddressOf(key)]))
      && (shown && Distinct(ips) ==> ObservedTable(Run(EMPTY, ops))[key] == backends)
  {
    var k := ServiceResource(service);
    var ips, ms := ServiceIps(service, parse), SpecOf(stores.slices, service, parse).mappings;
    ServicePassIsExact(k, stores, parse, lists, ops);
    EndpointsForKey(ips, ms, key);
    RepeatEmpty(BackendsFor(ms, key), multiset(ips)[AddressOf(key)]);
    AbsentHasNone(PairsFor(k, stores, parse), key);
  }

  /** ... and, from the stored objects: an endpoint is shown under a key exactly
      when they are generated from the service and a slice it owns. */
  lemma ServiceShowsExactly(
      service: Service, stores: Stores, parse: Parser, lists: Lists, ops: seq<Op>, key: ServiceKey, e: EndpointValue)
    requires Groups(lists, PairsFor(ServiceResource(service), stores, parse)) && IsPass(ops, lists, false)
    requires (forall key :: key in lists ==> |lists[key]| <= 65535) && |lists| <= 65407
    ensures var table := ObservedTable(Run(EMPTY, ops));
      (key in table && e in table[key]) <==> Generated(stores.slices, service, parse, key, e)
  {
    hide IsPass, Run, Pairs, EndpointsFor, Generated;
    var ps := PairsFor(ServiceResource(service), stores, parse);
    ServicePassIsExact(ServiceResource(service), stores, parse, lists, ops);
    InEndpointsFor(ps, key, e);
    AbsentHasNone(ps, key);
    GeneratedExactly(stores.slices, service, parse, key, e);
  }

  /** The service keys of a resource. */
  function KeysFor(k: Resource, stores: Stores, parse: Parser): set<ServiceKey> {
    set p | p in PairsFor(k, stores, parse) :: p.0
  }

  lemma GroupedKeys(k: Resource, stores: Stores, parse: Parser, lists: Lists)
    requires Groups(lists, PairsFor(k, stores, parse))
    ensures lists.Keys == KeysFor(k, stores, parse) && |lists| == |KeysFor(k, stores, parse)|
  {
    assert lists.Keys == KeysFor(k, stores, parse);
  }

  /** An agent that starts on empty maps, reconciles one resource that is not
      skipped or being deleted and reports its table.  It succeeds unless a map
      operation fails or a list outnumbers a u16 count, and then, with at most
      65407 service keys, the table is the generated one. */
  method FirstPass(k: Resource, stores: Stores, parse: Parser)
    returns (r: Result<Action>, table: map<ServiceKey, seq<EndpointValue>>, ghost faults: nat)
    ensures !Skipped(k, stores) ==>
      (r.Ok? <==> faults == 0
                  && forall key :: key in KeysFor(k, stores, parse) ==>
                       |EndpointsFor(PairsFor(k, stores, parse), key)| <= 65535)
    ensures r.Ok? && !Skipped(k, stores) && !k.Deleting() && |KeysFor(k, stores, parse)| <= 65407 ==>
      Groups(table, PairsFor(k, stores, parse))
  {
    var state := NewOverEmptyMaps();
    hide IsPass, Observed;
    ghost var lists, ops, n, done;
    r, lists, ops, n, done := ReconcileResource(k, stores, parse, state);
    faults := state.Faults();
    table := state.StateFromCache();
    if !Skipped(k, stores) {
      GroupedKeys(k, stores, parse, lists);
      if r.Ok? && !k.Deleting() && |KeysFor(k, stores, parse)| <= 65407 {
        ServicePassIsExact(k, stores, parse, lists, ops);
      }
    }
  }
}
