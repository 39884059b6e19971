/** The socket-connect program: reads the service map, then the endpoint map,
    and rewrites the destination in place. */
module Connect4 {
  import opened NetTypes
  import opened ByteOrder
  import opened ServiceTable
  import opened ServiceSpec
  import opened ServiceRefinement

  const AF_INET: u32 := 2

  /** The socket address the kernel hands over; the address and the port are
      held in network byte order. */
  class SockAddr {
    const userFamily: u32
    const protocol: u32
    var userIp4: u32
    var userPort: u32

    constructor (family: u32, protocol: u32, ip: u32, port: u32)
      ensures userFamily == family && this.protocol == protocol && userIp4 == ip && userPort == port
    {
      userFamily, this.protocol, userIp4, userPort := family, protocol, ip, port;
    }

    /** The destination in host order; None when the protocol number does not
        fit one byte. */
    function Destination(): Option<ServiceKeyV4>
      reads this
    {
      Decode(userIp4, userPort, protocol)
    }
  }

  function Decode(ip: u32, port: u32, protocol: u32): Option<ServiceKeyV4> {
    if protocol < 0x100 then Some(ServiceKeyV4(SwapU32(ip), SwapU16(port % 0x1_0000), protocol)) else None
  }

  /** What is written in network byte order for an endpoint decodes to it. */
  lemma EncodedDecodes(e: EndpointValueV4, protocol: u32)
    requires protocol < 0x100
    ensures Decode(SwapU32(e.ip), SwapU16(e.port), protocol) == Some(ServiceKeyV4(e.ip, e.port, protocol))
  {
    SwapU32Twice(e.ip);
    SwapU16Twice(e.port);
  }

  datatype Outcome = Allow | Deny | Rewrite(to: EndpointValueV4)

  /** The random word is cut to 16 bits and reduced to a position. */
  function Position(rand: u32, count: u16): u16
    requires count > 0
  {
    (rand % 0x1_0000) % count
  }

  lemma PositionDrawn(rand: u32, count: u16)
    requires count > 0
    ensures Position(rand, count) == rand % 65536 % count
  {}

  function Decide(t: Tables4, key: ServiceKeyV4, rand: u32): Outcome {
    if key !in t.services then Allow
    else
      var service := t.services[key];
      if service.count == 0 then Deny
      else
        var at := EndpointKey(service.id, Position(rand, service.count));
        if at in t.endpoints then Rewrite(t.endpoints[at]) else Allow
  }

  /** Answers 1 to allow and 0 to deny.  Only sockets of family 2 with a protocol
      number of one byte are looked up; address and port are the bytes the
      kernel hands over, highest first, and those of the endpoint drawn are
      written back in the same order. */
  method TryConnect4(ctx: SockAddr, t: Tables4, rand: u32) returns (verdict: int)
    modifies ctx
    ensures
      if ctx.userFamily != 2 || ctx.protocol > 255 then verdict == 1 && unchanged(ctx) else
        var ip, port := LittleBytes(4, old(ctx.userIp4)), LittleBytes(2, old(ctx.userPort) % 65536);
        var key := ServiceKeyV4(
          16777216 * ip[0] + 65536 * ip[1] + 256 * ip[2] + ip[3], 256 * port[0] + port[1], ctx.protocol);
        if key !in t.services then verdict == 1 && unchanged(ctx)
        else if t.services[key].count == 0 then verdict == 0 && unchanged(ctx)
        else
          var at := EndpointKey(t.services[key].id, rand % 65536 % t.services[key].count);
          if at !in t.endpoints then verdict == 1 && unchanged(ctx)
          else
            var newIp, newPort := LittleBytes(4, ctx.userIp4), LittleBytes(2, ctx.userPort);
            && verdict == 1 && ctx.userPort < 65536
            && 16777216 * newIp[0] + 65536 * newIp[1] + 256 * newIp[2] + newIp[3] == t.endpoints[at].ip
            && 256 * newPort[0] + newPort[1] == t.endpoints[at].port
    ensures var key := old(ctx.Destination());
      var outcome := if ctx.userFamily == AF_INET && key.Some? then Decide(t, key.value, rand) else Allow;
      && verdict == (if outcome.Deny? then 0 else 1)
      && (!outcome.Rewrite? ==> ctx.userIp4 == old(ctx.userIp4) && ctx.userPort == old(ctx.userPort))
      && (outcome.Rewrite? ==> ctx.userPort < 0x1_0000)
      && (outcome.Rewrite? ==>
            ctx.Destination() == Some(ServiceKeyV4(outcome.to.ip, outcome.to.port, ctx.protocol)))
  {
    hide SwapU32, SwapU16, LittleBytes, Position, Power256;
    if ctx.userFamily != AF_INET {
      return 1;
    }
    NetworkOrder(ctx.userIp4, ctx.userPort % 0x1_0000);
    var key := ctx.Destination();
    if key.None? {
      return 1;
    }
    if key.value !in t.services {
      return 1;
    }
    var service := t.services[key.value];
    if service.count == 0 {
      return 0;
    }
    var position := Position(rand, service.count);
    PositionDrawn(rand, service.count);
    var at := EndpointKey(service.id, position);
    if at !in t.endpoints {
      return 1;
    }
    var endpoint := t.endpoints[at];
    SwapU32Twice(endpoint.ip);
    SwapU16Twice(endpoint.port);
    ctx.userIp4 := SwapU32(endpoint.ip);
    ctx.userPort := SwapU16(endpoint.port);
    NetworkOrder(ctx.userIp4, ctx.userPort);
    verdict := 1;
  }

  /** The outcome that a key's history calls for: deny exactly when the
      recorded count is 0, the element at the drawn position of the last list
      otherwise, and no change at a position the list has shrunk below. */
  predicate CalledFor(history: Option<Entry<EndpointValue>>, rand: u32, outcome: Outcome) {
    if history.None? then outcome == Allow
    else
      var entry := history.value;
      && entry.recorded <= MAX_ENDPOINTS
      && if entry.recorded == 0 then outcome == Deny
         else
           var position := Position(rand, entry.recorded);
           if position < |entry.list| then outcome.Rewrite? && E4(outcome.to) == entry.list[position]
           else outcome == Allow
  }

  /** On every state a run without failed writes leaves, connect decides what
      the lists supplied for its own key call for. */
  lemma DecideOnRun(ops: seq<Op>, k: ServiceKeyV4, rand: u32)
    requires IdsAvailable(EMPTY, ops)
    ensures CalledFor(History(None, ops, V4(k)), rand, Decide(Run(EMPTY, ops).v4, k, rand))
  {
    var s, m := Run(EMPTY, ops), ModelRun(NOTHING, ops);
    RunRefines(EMPTY, NOTHING, ops);
    LookupRun(NOTHING, ops, V4(k));
    if k in m.v4 {
      assert Stored(s.v4.endpoints, s.v4.services[k].id, m.v4[k]);
    }
  }

  lemma PositionReached(i: nat, count: u16)
    requires i < count
    ensures Position(i, count) == i
  {
    RemainderOfSmaller(i, count);
  }

  lemma RemainderOfSmaller(i: nat, n: nat)
    requires i < n
    ensures i % n == i
  {
    var q := i / n;
    assert i == q * n + i % n;
    ScaleAtMost(if q > 0 then 1 else 0, q, n);
  }

  /** Every endpoint the table shows under a key is reached by some random word. */
  lemma EveryObservedReached(ops: seq<Op>, k: ServiceKeyV4, i: nat) returns (rand: u32)
    requires IdsAvailable(EMPTY, ops) && Has(Run(EMPTY, ops), V4(k))
    requires i < |Observed(Run(EMPTY, ops), V4(k))|
    ensures var outcome := Decide(Run(EMPTY, ops).v4, k, rand);
      outcome.Rewrite? && E4(outcome.to) == Observed(Run(EMPTY, ops), V4(k))[i]
  {
    RunShowsHistory(ops, V4(k));
    var history := History(None, ops, V4(k));
    DecideOnRun(ops, k, 0);
    rand := i;
    PositionReached(i, history.value.recorded);
    DecideOnRun(ops, k, rand);
  }
}
