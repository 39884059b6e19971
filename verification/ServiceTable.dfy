/** The two flat maps that hold `key -> list of endpoints` for one address
    family, and the sequence of single map writes each operation performs. */
module ServiceTable {
  import opened NetTypes

  /** The longest list whose count fits, and the number of positions. */
  const MAX_ENDPOINTS := 0xFFFF
  const POSITIONS := 0x1_0000

  datatype Tables<SK, EV> = Tables(services: map<SK, ServiceValue>, endpoints: map<EndpointKey, EV>)

  /** One atomic kernel-map write. */
  datatype Write<SK, EV> =
    | PutService(key: SK, service: ServiceValue)
    | DropService(key: SK)
    | PutEndpoint(at: EndpointKey, endpoint: EV)
    | DropEndpoint(at: EndpointKey)

  function Perform<SK, EV>(t: Tables<SK, EV>, w: Write<SK, EV>): Tables<SK, EV> {
    match w
    case PutService(key, service) => t.(services := t.services[key := service])
    case DropService(key) => t.(services := t.services - {key})
    case PutEndpoint(at, endpoint) => t.(endpoints := t.endpoints[at := endpoint])
    case DropEndpoint(at) => t.(endpoints := t.endpoints - {at})
  }

  function PerformAll<SK, EV>(t: Tables<SK, EV>, ws: seq<Write<SK, EV>>): Tables<SK, EV> {
    if ws == [] then t else Perform(PerformAll(t, ws[..|ws| - 1]), ws[|ws| - 1])
  }

  lemma {:induction false} PerformAllConcat<SK, EV>(t: Tables<SK, EV>, a: seq<Write<SK, EV>>, b: seq<Write<SK, EV>>)
    ensures PerformAll(t, a + b) == PerformAll(PerformAll(t, a), b)
  {
    if b == [] {
      assert a + b == a;
    } else {
      assert (a + b)[..|a + b| - 1] == a + b[..|b| - 1];
      PerformAllConcat(t, a, b[..|b| - 1]);
    }
  }

  lemma PerformNext<SK, EV>(t: Tables<SK, EV>, ws: seq<Write<SK, EV>>, n: nat)
    requires n < |ws|
    ensures PerformAll(t, ws[..n + 1]) == Perform(PerformAll(t, ws[..n]), ws[n])
  {
    assert ws[..n + 1][..n] == ws[..n];
  }

  lemma PerformOne<SK, EV>(t: Tables<SK, EV>, w: Write<SK, EV>)
    ensures PerformAll(t, [w]) == Perform(t, w)
  {
    assert [w][..0] == [];
  }

  /** Writes of a list of endpoints at positions 0, 1, ... under one id, as far
      as u16 positions go. */
  function EndpointPuts<SK, EV>(id: Id, eps: seq<EV>): (ws: seq<Write<SK, EV>>)
    ensures |ws| == if |eps| <= POSITIONS then |eps| else POSITIONS
    ensures forall i :: 0 <= i < |ws| ==> ws[i] == PutEndpoint(EndpointKey(id, i), eps[i])
  {
    seq(if |eps| <= POSITIONS then |eps| else POSITIONS,
        i requires 0 <= i < |eps| && i < POSITIONS => PutEndpoint(EndpointKey(id, i), eps[i]))
  }

  /** Deletes of positions `lo`, ..., `hi - 1` under one id. */
  function EndpointDrops<SK, EV>(id: Id, lo: u16, hi: u16): (ws: seq<Write<SK, EV>>)
    ensures |ws| == if lo <= hi then hi - lo else 0
    ensures forall i :: 0 <= i < |ws| ==> ws[i] == DropEndpoint(EndpointKey(id, lo + i))
  {
    if lo <= hi then seq(hi - lo, i requires 0 <= i < hi - lo => DropEndpoint(EndpointKey(id, lo + i))) else []
  }

  /** The service entry, then its endpoints; nothing if the list does not fit. */
  function InsertWrites<SK, EV>(key: SK, eps: seq<EV>, next: Id): seq<Write<SK, EV>> {
    if |eps| > MAX_ENDPOINTS then []
    else [PutService(key, ServiceValue(next, |eps|))] + EndpointPuts(next, eps)
  }

  lemma InsertWriteAt<SK, EV>(key: SK, eps: seq<EV>, next: Id, n: nat)
    requires n < |eps| <= MAX_ENDPOINTS
    ensures |InsertWrites(key, eps, next)| == |eps| + 1
    ensures InsertWrites(key, eps, next)[n + 1] == PutEndpoint(EndpointKey(next, n), eps[n])
  {}

  /** All writes of an update.  For a key that is present the new count is
      computed by the code but never stored, so no service write appears. */
  function UpdateWrites<SK, EV>(t: Tables<SK, EV>, key: SK, eps: seq<EV>, next: Id): seq<Write<SK, EV>> {
    if |eps| > MAX_ENDPOINTS then []
    else if key in t.services then
      var service := t.services[key];
      EndpointPuts(service.id, eps) + EndpointDrops(service.id, |eps|, service.count)
    else InsertWrites(key, eps, next)
  }

  function RemoveWrites<SK, EV>(t: Tables<SK, EV>, key: SK): seq<Write<SK, EV>> {
    if key !in t.services then []
    else EndpointDrops(t.services[key].id, 0, t.services[key].count) + [DropService(key)]
  }

  /** The endpoints found at positions `from`, ..., `count - 1`, in order;
      positions without an entry are skipped. */
  function Collect<EV>(endpoints: map<EndpointKey, EV>, id: Id, from: u16, count: u16): seq<EV>
    decreases count - from
  {
    if from >= count then []
    else
      var key := EndpointKey(id, from);
      (if key in endpoints then [endpoints[key]] else []) + Collect(endpoints, id, from + 1, count)
  }

  /** What a reader of both maps sees under `key`. */
  function Observe<SK, EV>(t: Tables<SK, EV>, key: SK): seq<EV>
    requires key in t.services
  {
    Collect(t.endpoints, t.services[key].id, 0, t.services[key].count)
  }
}
