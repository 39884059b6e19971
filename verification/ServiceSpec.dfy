/** The service state as a value, and one operation of the agent on it. */
module ServiceSpec {
  import opened NetTypes
  import opened Sequences
  import opened ServiceTable

  type Tables4 = Tables<ServiceKeyV4, EndpointValueV4>
  type Tables6 = Tables<ServiceKeyV6, EndpointValueV6>

  const FIRST_ID: Id := 128

  datatype State = State(v4: Tables4, v6: Tables6, id: Id)

  const EMPTY := State(Tables(map[], map[]), Tables(map[], map[]), FIRST_ID)

  datatype Op = Update(key: ServiceKey, value: seq<EndpointValue>) | Remove(key: ServiceKey)

  /** `id += 1` on a u16 in a release build, where overflow wraps. */
  function Increment(id: Id): Id {
    if id == 0xFFFF then 0 else id + 1
  }

  /** The id an update of `key` answers with when it succeeds. */
  function AnswerId<SK, EV>(t: Tables<SK, EV>, key: SK, next: Id): Id {
    if key in t.services then t.services[key].id else Increment(next)
  }

  /** The counter after an update that performed `done` of its writes.  The
      agent advances it when the answered id is above it. */
  function NextId<SK, EV>(t: Tables<SK, EV>, key: SK, eps: seq<EV>, id: Id, done: nat): Id {
    if |eps| <= MAX_ENDPOINTS && done == |UpdateWrites(t, key, eps, id)| && AnswerId(t, key, id) > id
    then Increment(id) else id
  }

  function AsV4(e: EndpointValue): Option<EndpointValueV4> {
    if e.E4? then Some(e.e4) else None
  }

  function AsV6(e: EndpointValue): Option<EndpointValueV6> {
    if e.E6? then Some(e.e6) else None
  }

  function OnlyV4(value: seq<EndpointValue>): seq<EndpointValueV4> {
    FilterMap(AsV4, value)
  }

  function OnlyV6(value: seq<EndpointValue>): seq<EndpointValueV6> {
    FilterMap(AsV6, value)
  }

  /** The number of kernel-map writes `op` performs when none fails. */
  function WriteCount(s: State, op: Op): nat {
    match op
    case Update(V4(k), value) => |UpdateWrites(s.v4, k, OnlyV4(value), s.id)|
    case Update(V6(k), value) => |UpdateWrites(s.v6, k, OnlyV6(value), s.id)|
    case Remove(V4(k)) => |RemoveWrites(s.v4, k)|
    case Remove(V6(k)) => |RemoveWrites(s.v6, k)|
  }

  /** The list does not fit a u16 count; the call fails before any write. */
  predicate Rejected(op: Op) {
    match op
    case Update(V4(_), value) => |OnlyV4(value)| > MAX_ENDPOINTS
    case Update(V6(_), value) => |OnlyV6(value)| > MAX_ENDPOINTS
    case Remove(_) => false
  }

  /** The state after the first `done` writes of `op`, the next one having
      failed if any is left. */
  function Step(s: State, op: Op, done: nat): State
    requires done <= WriteCount(s, op)
  {
    match op
    case Update(V4(k), value) =>
      var eps := OnlyV4(value);
      s.(v4 := PerformAll(s.v4, UpdateWrites(s.v4, k, eps, s.id)[..done]), id := NextId(s.v4, k, eps, s.id, done))
    case Update(V6(k), value) =>
      var eps := OnlyV6(value);
      s.(v6 := PerformAll(s.v6, UpdateWrites(s.v6, k, eps, s.id)[..done]), id := NextId(s.v6, k, eps, s.id, done))
    case Remove(V4(k)) => s.(v4 := PerformAll(s.v4, RemoveWrites(s.v4, k)[..done]))
    case Remove(V6(k)) => s.(v6 := PerformAll(s.v6, RemoveWrites(s.v6, k)[..done]))
  }

  /** `op` without a failed write. */
  function FullStep(s: State, op: Op): State {
    Step(s, op, WriteCount(s, op))
  }

  predicate Has(s: State, key: ServiceKey) {
    match key
    case V4(k) => k in s.v4.services
    case V6(k) => k in s.v6.services
  }

  /** The entry of a service that is present, in its family's table. */
  function ServiceOf(s: State, key: ServiceKey): ServiceValue
    requires Has(s, key)
  {
    match key
    case V4(k) => s.v4.services[k]
    case V6(k) => s.v6.services[k]
  }

  /** Whether `op` takes a new id. */
  predicate Inserts(s: State, op: Op) {
    op.Update? && !Rejected(op) && !Has(s, op.key)
  }

  function Wrap4(eps: seq<EndpointValueV4>): seq<EndpointValue> {
    seq(|eps|, i requires 0 <= i < |eps| => E4(eps[i]))
  }

  function Wrap6(eps: seq<EndpointValueV6>): seq<EndpointValue> {
    seq(|eps|, i requires 0 <= i < |eps| => E6(eps[i]))
  }

  /** The filter keeps exactly the elements of the family, unchanged and in
      order. */
  lemma FilterPicks4(value: seq<EndpointValue>) returns (at: seq<nat>)
    ensures |at| == |OnlyV4(value)|
    ensures forall j :: 0 <= j < |at| ==> at[j] < |value| && value[at[j]] == E4(OnlyV4(value)[j])
    ensures forall j, k :: 0 <= j < k < |at| ==> at[j] < at[k]
    ensures forall i :: 0 <= i < |value| && value[i].E4? ==> i in at
  {
    at := Picked(AsV4, value);
  }

  lemma FilterPicks6(value: seq<EndpointValue>) returns (at: seq<nat>)
    ensures |at| == |OnlyV6(value)|
    ensures forall j :: 0 <= j < |at| ==> at[j] < |value| && value[at[j]] == E6(OnlyV6(value)[j])
    ensures forall j, k :: 0 <= j < k < |at| ==> at[j] < at[k]
    ensures forall i :: 0 <= i < |value| && value[i].E6? ==> i in at
  {
    at := Picked(AsV6, value);
  }

  /** Filtering a list made for one family drops nothing. */
  lemma {:induction false} FilterKeepsFamily4(eps: seq<EndpointValueV4>)
    ensures OnlyV4(Wrap4(eps)) == eps
  {
    if eps != [] {
      var n := |eps| - 1;
      FilterKeepsFamily4(eps[..n]);
      assert Wrap4(eps)[..n] == Wrap4(eps[..n]);
    }
  }

  lemma {:induction false} FilterKeepsFamily6(eps: seq<EndpointValueV6>)
    ensures OnlyV6(Wrap6(eps)) == eps
  {
    if eps != [] {
      var n := |eps| - 1;
      FilterKeepsFamily6(eps[..n]);
      assert Wrap6(eps)[..n] == Wrap6(eps[..n]);
    }
  }

  /** The list a reader of the maps sees under `key`. */
  function Observed(s: State, key: ServiceKey): seq<EndpointValue>
    requires Has(s, key)
  {
    match key
    case V4(k) => Wrap4(Observe(s.v4, k))
    case V6(k) => Wrap6(Observe(s.v6, k))
  }

  function Keys(s: State): (keys: set<ServiceKey>)
    ensures forall key :: key in keys <==> Has(s, key)
  {
    (set k | k in s.v4.services :: V4(k)) + (set k | k in s.v6.services :: V6(k))
  }

  /** The whole table as a reader of the maps sees it. */
  function ObservedTable(s: State): map<ServiceKey, seq<EndpointValue>> {
    map key | key in Keys(s) :: Observed(s, key)
  }
}
