/** Connection tracking: the packet program and the periodic cleanup share one
    table of last-seen times.  Each packet and each cleanup is one atomic step. */
module Conntrack {
  import opened NetTypes

  const TCP_TIMEOUT_NS: u64 := 60 * 60 * 12 * 1_000_000_000
  const UDP_TIMEOUT_NS: u64 := 60 * 1_000_000_000

  datatype Key = Key(srcIp: u32, dstIp: u32, srcPort: u16, dstPort: u16, proto: u8) {
    function Reverse(): Key {
      Key(dstIp, srcIp, dstPort, srcPort, proto)
    }
  }

  datatype Transport =
    | TcpSegment(srcPort: u16, dstPort: u16, syn: bool, ack: bool)
    | UdpDatagram(srcPort: u16, dstPort: u16)
    | OtherTransport

  /** A packet with the identities its addresses resolve to. */
  datatype Packet = Packet(src: u32, dst: u32, srcId: Option<IdentityId>, dstId: Option<IdentityId>, l4: Transport)

  type Entries = map<Key, u64>

  function TimeoutOf(proto: u8): u64 {
    if proto == 6 then TCP_TIMEOUT_NS else UDP_TIMEOUT_NS
  }

  function SaturatingSub(a: u64, b: u64): u64 {
    if a < b then 0 else a - b
  }

  predicate Expired(key: Key, lastSeen: u64, now: u64) {
    SaturatingSub(now, lastSeen) > TimeoutOf(key.proto)
  }

  /** Both addresses have identities and the transport is tracked. */
  predicate Tracked(p: Packet) {
    p.srcId.Some? && p.dstId.Some? && !p.l4.OtherTransport?
  }

  function KeyOf(p: Packet): Key
    requires Tracked(p)
  {
    match p.l4
    case TcpSegment(sp, dp, _, _) => Key(p.src, p.dst, sp, dp, 6)
    case UdpDatagram(sp, dp) => Key(p.src, p.dst, sp, dp, 17)
  }

  /** A TCP flow may only start with a SYN that is not an answer. */
  predicate MayStart(p: Packet) {
    p.l4.UdpDatagram? || (p.l4.TcpSegment? && p.l4.syn && !p.l4.ack)
  }

  /** The entry the packet touches: its own direction if present, else the
      other one if present, else a new one if it may start a flow. */
  function Touched(t: Entries, p: Packet): Option<Key> {
    if !Tracked(p) then None
    else if KeyOf(p) in t then Some(KeyOf(p))
    else if KeyOf(p).Reverse() in t then Some(KeyOf(p).Reverse())
    else if MayStart(p) then Some(KeyOf(p))
    else None
  }

  /** What an insert may do to an LRU map: nothing if it fails, else store the
      entry and evict others. */
  function Stored(t: Entries, key: Key, now: u64, ok: bool, evicted: set<Key>): Entries {
    if ok then (t - evicted)[key := now] else t
  }

  function PacketStep(t: Entries, p: Packet, now: u64, ok: bool, evicted: set<Key>): Entries {
    var touched := Touched(t, p);
    if touched.Some? then Stored(t, touched.value, now, ok, evicted) else t
  }

  function Fresh(t: Entries, now: u64): Entries {
    map k | k in t && !Expired(k, t[k], now) :: t[k]
  }

  /** The kernel's table; `faults` counts the operations on it that failed. */
  class ConntrackMap {
    var entries: Entries
    ghost var faults: nat

    method Insert(key: Key, now: u64) returns (ghost ok: bool, ghost evicted: set<Key>)
      modifies this
      ensures entries == Stored(old(entries), key, now, ok, evicted)
      ensures faults == old(faults) + if ok then 0 else 1
    {
      ok, evicted := false, {};
      if * {
        faults := faults + 1;
        return;
      }
      var dropped: set<Key> := *;
      ok, evicted := true, dropped;
      entries := (entries - dropped)[key := now];
    }

    method Remove(key: Key) returns (ok: bool)
      modifies this
      ensures entries == if ok then old(entries) - {key} else old(entries)
      ensures faults == old(faults) + if ok then 0 else 1
    {
      if * {
        faults := faults + 1;
        return false;
      }
      entries := entries - {key};
      ok := true;
    }

    /** Reads one entry while iterating over the table. */
    method ReadEntry(key: Key) returns (r: Result<u64>)
      requires key in entries
      modifies this`faults
      ensures r.Ok? ==> r.value == entries[key]
      ensures faults == old(faults) + if r.Ok? then 0 else 1
    {
      if * {
        faults := faults + 1;
        return Err;
      }
      r := Ok(entries[key]);
    }

    /** One packet; `ok` says whether the insert it made, if any, was stored. */
    method HandleIpv4(p: Packet, now: u64) returns (ghost ok: bool, ghost evicted: set<Key>)
      modifies this
      ensures entries == PacketStep(old(entries), p, now, ok, evicted)
      ensures faults == old(faults) + if ok then 0 else 1
    {
      ok, evicted := true, {};
      if p.srcId.None? || p.dstId.None? {
        return;
      }
      var key, mayInsert;
      match p.l4 {
        case TcpSegment(sp, dp, syn, ack) =>
          key, mayInsert := Key(p.src, p.dst, sp, dp, 6), syn && !ack;
        case UdpDatagram(sp, dp) =>
          key, mayInsert := Key(p.src, p.dst, sp, dp, 17), true;
        case OtherTransport =>
          return;
      }
      var reverse := Key(p.dst, p.src, key.dstPort, key.srcPort, key.proto);
      if key in entries {
        ok, evicted := Insert(key, now);
        return;
      }
      if reverse in entries {
        ok, evicted := Insert(reverse, now);
        return;
      }
      if mayInsert {
        ok, evicted := Insert(key, now);
      }
    }

    /** Collects the expired keys, then removes them; a failed read or removal
        ends the pass.  A finished pass keeps exactly the entries last seen within
        12 hours, for TCP, or 60 seconds, for every other protocol; an ended one
        has only removed others. */
    method CleanupMap(now: u64) returns (ok: bool)
      modifies this
      ensures ok ==> entries == Fresh(old(entries), now)
      ensures ok ==> forall k :: k in entries <==>
        k in old(entries) &&
        (now <= old(entries)[k] || now - old(entries)[k] <= if k.proto == 6 then 43_200_000_000_000 else 60_000_000_000)
      ensures entries.Keys <= old(entries).Keys && forall k :: k in entries ==> entries[k] == old(entries)[k]
      ensures forall k :: k in old(entries) && k !in entries ==> Expired(k, old(entries)[k], now)
      ensures faults >= old(faults) && (ok <==> faults == old(faults))
    {
      var expired: seq<Key> := [];
      var rest := entries.Keys;
      while rest != {}
        invariant rest <= entries.Keys && faults == old(faults) && entries == old(entries)
        invariant forall k :: k in expired <==> k in entries && k !in rest && Expired(k, entries[k], now)
        decreases rest
      {
        var k :| k in rest;
        var entry := ReadEntry(k);
        if entry.Err? {
          return false;
        }
        if SaturatingSub(now, entry.value) > TimeoutOf(k.proto) {
          expired := expired + [k];
        }
        rest := rest - {k};
      }
      for i := 0 to |expired|
        invariant faults == old(faults)
        invariant entries == map k | k in old(entries) && k !in expired[..i] :: old(entries)[k]
      {
        ok := Remove(expired[i]);
        if !ok {
          return;
        }
      }
      assert expired[..|expired|] == expired;
      ok := true;
    }
  }

  // ---------- Runs ----------

  /** What can happen to the table.  `CutCleanup` is a pass that ended early
      after removing the given expired entries. */
  datatype Event =
    | Seen(p: Packet, at: u64, ok: bool, evicted: set<Key>)
    | Evict(keys: set<Key>)
    | Cleanup(at: u64)
    | CutCleanup(at: u64, removed: set<Key>)

  function Apply(t: Entries, e: Event): Entries {
    match e
    case Seen(p, at, ok, evicted) => PacketStep(t, p, at, ok, evicted)
    case Evict(keys) => t - keys
    case Cleanup(at) => Fresh(t, at)
    case CutCleanup(at, removed) => map k | k in t && !(k in removed && Expired(k, t[k], at)) :: t[k]
  }

  /** The table after a run that finds the entries `start` in it. */
  function TableFrom(start: Entries, es: seq<Event>): Entries {
    if es == [] then start else Apply(TableFrom(start, es[..|es| - 1]), es[|es| - 1])
  }

  /** The table after a run from an empty one. */
  function Table(es: seq<Event>): Entries {
    TableFrom(map[], es)
  }

  lemma {:induction false} OneOfBoth(es: seq<Event>, k: Key)
    requires k in Table(es) && k.Reverse() in Table(es)
    ensures k.Reverse() == k
  {
    var front := es[..|es| - 1];
    if k in Table(front) && k.Reverse() in Table(front) {
      OneOfBoth(front, k);
    }
  }

  /** A flow is never tracked in both directions: over every run, an entry from
      `a`:`x` to `b`:`y` and one from `b`:`y` to `a`:`x` are not both present
      unless they are the same. */
  lemma OneDirectionOnly(es: seq<Event>, a: u32, b: u32, x: u16, y: u16, proto: u8)
    requires Key(a, b, x, y, proto) in Table(es) && Key(b, a, y, x, proto) in Table(es)
    ensures a == b && x == y
  {
    OneOfBoth(es, Key(a, b, x, y, proto));
  }

  /** A stored SYN without ACK between two addresses with identities, sent the
      way the entry points. */
  predicate OpensTcp(e: Event, k: Key) {
    && e.Seen? && e.ok && e.p.src == k.srcIp && e.p.dst == k.dstIp && e.p.srcId.Some? && e.p.dstId.Some?
    && e.p.l4 == TcpSegment(k.srcPort, k.dstPort, true, false)
  }

  /** Every TCP entry points the way of an earlier opening segment (SYN without
      ACK) between two addresses with identities. */
  lemma {:induction false} TcpEntriesPointAsOpened(es: seq<Event>, k: Key)
    requires k in Table(es) && k.proto == 6
    ensures exists i :: 0 <= i < |es| && OpensTcp(es[i], k)
  {
    var front := es[..|es| - 1];
    if k in Table(front) {
      TcpEntriesPointAsOpened(front, k);
      var i :| 0 <= i < |front| && OpensTcp(front[i], k);
      assert es[i] == front[i];
    } else {
      assert OpensTcp(es[|es| - 1], k);
    }
  }

  /** The transport of a packet from port `from` to port `to`. */
  predicate Carries(l4: Transport, proto: u8, from: u16, to: u16) {
    || (proto == 6 && l4.TcpSegment? && l4.srcPort == from && l4.dstPort == to)
    || (proto == 17 && l4.UdpDatagram? && l4.srcPort == from && l4.dstPort == to)
  }

  /** A stored opening packet from `s`:`sp` to `d`:`dp`, TCP or UDP, enters its
      flow into an empty table; without both identities nothing does. */
  lemma OpeningEnters(
      s: u32, d: u32, sp: u16, dp: u16, ids: (Option<IdentityId>, Option<IdentityId>), l4: Transport, proto: u8,
      now: u64, evicted: set<Key>)
    requires Carries(l4, proto, sp, dp)
    ensures PacketStep(map[], Packet(s, d, ids.0, ids.1, l4), now, true, evicted)
         == if ids.0.Some? && ids.1.Some? && (proto == 6 ==> l4.syn && !l4.ack)
            then map[Key(s, d, sp, dp, proto) := now] else map[]
  {}

  /** While a flow from `s`:`sp` to `d`:`dp` is tracked, a packet of either
      direction sets its time and enters nothing else, whatever its flags. */
  lemma EitherDirectionRefreshes(
      es: seq<Event>, s: u32, d: u32, sp: u16, dp: u16, proto: u8, p: Packet, now: u64, evicted: set<Key>)
    requires Key(s, d, sp, dp, proto) in Table(es) && p.srcId.Some? && p.dstId.Some?
    requires (p.src == s && p.dst == d && Carries(p.l4, proto, sp, dp))
          || (p.src == d && p.dst == s && Carries(p.l4, proto, dp, sp))
    ensures PacketStep(Table(es), p, now, true, evicted) == (Table(es) - evicted)[Key(s, d, sp, dp, proto) := now]
  {
    var k := Key(s, d, sp, dp, proto);
    if k.Reverse() in Table(es) {
      OneDirectionOnly(es, s, d, sp, dp, proto);
    }
  }

  // ---------- Time ----------

  function TimeOf(e: Event, before: u64): u64 {
    if e.Evict? then before else e.at
  }

  function Clock(es: seq<Event>): u64 {
    if es == [] then 0 else TimeOf(es[|es| - 1], Clock(es[..|es| - 1]))
  }

  /** The clock never goes back. */
  predicate Monotonic(es: seq<Event>) {
    es == [] || (Monotonic(es[..|es| - 1]) && Clock(es[..|es| - 1]) <= Clock(es))
  }

  lemma {:induction false} SeenInThePast(es: seq<Event>)
    requires Monotonic(es)
    ensures forall k :: k in Table(es) ==> Table(es)[k] <= Clock(es)
  {
    if es != [] {
      var front := es[..|es| - 1];
      SeenInThePast(front);
      assert Table(es) == Apply(Table(front), es[|es| - 1]);
    }
  }

  /** While an entry lives its last-seen time never decreases. */
  lemma LastSeenNeverDecreases(es: seq<Event>, e: Event, k: Key)
    requires Monotonic(es + [e]) && k in Table(es) && k in Table(es + [e])
    ensures Table(es)[k] <= Table(es + [e])[k]
  {
    assert (es + [e])[..|es|] == es;
    SeenInThePast(es);
  }

  // ---------- Staleness ----------

  function LastCleanup(es: seq<Event>): Option<u64> {
    if es == [] then None
    else if es[|es| - 1].Cleanup? then Some(es[|es| - 1].at)
    else LastCleanup(es[..|es| - 1])
  }

  lemma {:induction false} SurvivedLastCleanup(start: Entries, es: seq<Event>)
    requires Monotonic(es) && LastCleanup(es).Some?
    ensures LastCleanup(es).value <= Clock(es)
    ensures forall k :: k in TableFrom(start, es) ==>
      LastCleanup(es).value <= TableFrom(start, es)[k] + TimeoutOf(k.proto)
  {
    var front := es[..|es| - 1];
    if !es[|es| - 1].Cleanup? {
      SurvivedLastCleanup(start, front);
    }
  }

  /** The first event is a cleanup, and every event happens at most `gap`
      after the cleanup before it. */
  predicate OnSchedule(es: seq<Event>, gap: u64) {
    es == [] ||
      var front := es[..|es| - 1];
      && OnSchedule(front, gap)
      && if LastCleanup(front).None? then es[|es| - 1].Cleanup? else Clock(es) - LastCleanup(front).value <= gap
  }

  /** Staleness bound: whatever the table held at the start, with cleanups on
      schedule no entry is ever older than its timeout plus the gap between
      cleanups. */
  lemma StalenessBound(start: Entries, es: seq<Event>, gap: u64, k: Key)
    requires Monotonic(es) && OnSchedule(es, gap) && es != [] && k in TableFrom(start, es)
    ensures Clock(es) - TableFrom(start, es)[k] <= TimeoutOf(k.proto) + gap
  {
    ScheduleHasCleanup(es, gap);
    SurvivedLastCleanup(start, es);
  }

  lemma {:induction false} ScheduleHasCleanup(es: seq<Event>, gap: u64)
    requires OnSchedule(es, gap) && es != []
    ensures LastCleanup(es).Some? && Clock(es) - LastCleanup(es).value <= gap
  {
    var front := es[..|es| - 1];
    if front != [] {
      ScheduleHasCleanup(front, gap);
    }
  }

  /** At the agent's interval of 300 seconds: 12 hours and 5 minutes for TCP, 6 minutes for
      every other protocol. */
  lemma StalenessAtInterval(start: Entries, es: seq<Event>, k: Key)
    requires Monotonic(es) && OnSchedule(es, 300_000_000_000) && es != [] && k in TableFrom(start, es)
    ensures Clock(es) - TableFrom(start, es)[k] <= (if k.proto == 6 then 43_500 else 360) * 1_000_000_000
  {
    StalenessBound(start, es, 300_000_000_000, k);
  }

  // ---------- No flow is cut short ----------

  /** A packet between two addresses with identities that travels between the
      two ends of `k`, either way. */
  predicate OfFlow(e: Event, k: Key) {
    && e.Seen? && e.p.srcId.Some? && e.p.dstId.Some?
    && ((e.p.src == k.srcIp && e.p.dst == k.dstIp && Carries(e.p.l4, k.proto, k.srcPort, k.dstPort))
        || (e.p.src == k.dstIp && e.p.dst == k.srcIp && Carries(e.p.l4, k.proto, k.dstPort, k.srcPort)))
  }

  /** When the flow of `k` was last seen in either direction. */
  function FlowSeen(es: seq<Event>, k: Key): Option<u64> {
    if es == [] then None
    else if OfFlow(es[|es| - 1], k) then Some(es[|es| - 1].at)
    else FlowSeen(es[..|es| - 1], k)
  }

  /** Every entry holds the time its flow was last seen. */
  ghost predicate UpToDate(es: seq<Event>) {
    forall k :: k in Table(es) ==> FlowSeen(es, k) == Some(Table(es)[k])
  }

  /** A packet that found its entry but failed to store the new time. */
  predicate LostRefresh(t: Entries, e: Event) {
    && e.Seen? && !e.ok && Tracked(e.p)
    && Touched(t, e.p).Some? && Touched(t, e.p).value in t && t[Touched(t, e.p).value] != e.at
  }

  /** Entries stay up to date over every event except exactly a lost refresh. */
  lemma UpToDateKeptExactly(es: seq<Event>, e: Event)
    requires UpToDate(es)
    ensures UpToDate(es + [e]) <==> !LostRefresh(Table(es), e)
  {
    var all := es + [e];
    assert all[..|es|] == es;
    if LostRefresh(Table(es), e) {
      var k := Touched(Table(es), e.p).value;
      assert k in Table(all) && FlowSeen(all, k) == Some(e.at);
    } else {
      forall k | k in Table(all)
        ensures FlowSeen(all, k) == Some(Table(all)[k])
      {
        if OfFlow(e, k) && k in Table(es) && k.Reverse() in Table(es) {
          OneOfBoth(es, k);
        }
      }
    }
  }

  predicate NoLostRefresh(es: seq<Event>) {
    es == [] || (NoLostRefresh(es[..|es| - 1]) && !LostRefresh(Table(es[..|es| - 1]), es[|es| - 1]))
  }

  lemma {:induction false} UpToDateOnRun(es: seq<Event>)
    requires NoLostRefresh(es)
    ensures UpToDate(es)
  {
    if es != [] {
      var front := es[..|es| - 1];
      UpToDateOnRun(front);
      UpToDateKeptExactly(front, es[|es| - 1]);
      assert front + [es[|es| - 1]] == es;
    }
  }

  /** A cleanup, finished or cut short, only removes entries whose flow has not
      been seen in either direction within its timeout. */
  lemma NoFlowCutShort(es: seq<Event>, e: Event, k: Key)
    requires NoLostRefresh(es) && (e.Cleanup? || e.CutCleanup?)
    requires k in Table(es) && k !in Table(es + [e])
    ensures FlowSeen(es, k).Some?
    ensures e.at > FlowSeen(es, k).value + if k.proto == 6 then 43_200_000_000_000 else 60_000_000_000
  {
    assert (es + [e])[..|es|] == es;
    UpToDateOnRun(es);
  }

  /** A cleanup at `at` removes the entry of `k` although its flow was seen
      within its timeout. */
  predicate CutShort(es: seq<Event>, at: u64, k: Key) {
    && Clock(es) <= at && k in Table(es) && k !in Table(es + [Cleanup(at)])
    && FlowSeen(es, k).Some?
    && at <= FlowSeen(es, k).value + if k.proto == 6 then 43_200_000_000_000 else 60_000_000_000
  }

  /** A flow has been seen no earlier than its entry says. */
  lemma {:induction false} SeenBounds(es: seq<Event>, k: Key)
    requires Monotonic(es) && k in Table(es)
    ensures FlowSeen(es, k).Some? && Table(es)[k] <= FlowSeen(es, k).value <= Clock(es)
  {
    var front := es[..|es| - 1];
    SeenInThePast(front);
    if k in Table(front) {
      SeenBounds(front, k);
    }
  }

  /** Some cleanup can cut `k` short exactly when its entry lags its flow and
      the flow was seen within its timeout. */
  lemma LagCutsShort(es: seq<Event>, k: Key)
    requires Monotonic(es) && Clock(es) + TCP_TIMEOUT_NS < 0xFFFF_FFFF_FFFF_FFFF
    requires k in Table(es)
    ensures FlowSeen(es, k).Some?
    ensures (exists at :: CutShort(es, at, k))
       <==> (Table(es)[k] < FlowSeen(es, k).value && Clock(es) - FlowSeen(es, k).value <= TimeoutOf(k.proto))
  {
    SeenBounds(es, k);
    var seen, due := FlowSeen(es, k).value, Table(es)[k] + TimeoutOf(k.proto) + 1;
    forall at: u64
      ensures Table(es + [Cleanup(at)]) == Fresh(Table(es), at)
    {
      assert (es + [Cleanup(at)])[..|es|] == es;
    }
    if Table(es)[k] < seen && Clock(es) - seen <= TimeoutOf(k.proto) {
      assert CutShort(es, if Clock(es) < due then due else Clock(es), k);
    }
  }

  /** The exact condition of the property: where entries are up to date, an
      event makes it possible that a later cleanup cuts a flow short if and
      only if it is a lost refresh, TCP and UDP alike. */
  lemma LostRefreshCutsExactly(es: seq<Event>, e: Event)
    requires UpToDate(es) && Monotonic(es + [e])
    requires Clock(es + [e]) + TCP_TIMEOUT_NS < 0xFFFF_FFFF_FFFF_FFFF
    ensures LostRefresh(Table(es), e) <==> exists at, k :: CutShort(es + [e], at, k)
  {
    var all := es + [e];
    assert all[..|es|] == es;
    UpToDateKeptExactly(es, e);
    if LostRefresh(Table(es), e) {
      var k := Touched(Table(es), e.p).value;
      assert k in Table(all) && FlowSeen(all, k) == Some(e.at);
      SeenBounds(all, k);
      LagCutsShort(all, k);
    } else {
      forall at, k | CutShort(all, at, k)
        ensures false
      {
        LagCutsShort(all, k);
      }
    }
  }

  /** Any flow from `s`:`sp` to `d`:`dp`, TCP or UDP, is cut short by some
      cleanup once the refresh of its second packet, of either direction, is
      lost. */
  lemma LostRefreshCutsFlow(
      s: u32, d: u32, sp: u16, dp: u16, proto: u8, opening: Packet, later: Packet, first: u64, second: u64)
    requires opening.src == s && opening.dst == d && opening.srcId.Some? && opening.dstId.Some?
    requires Carries(opening.l4, proto, sp, dp) && (proto == 6 ==> opening.l4.syn && !opening.l4.ack)
    requires later.srcId.Some? && later.dstId.Some?
    requires (later.src == s && later.dst == d && Carries(later.l4, proto, sp, dp))
          || (later.src == d && later.dst == s && Carries(later.l4, proto, dp, sp))
    requires first < second && second + TCP_TIMEOUT_NS < 0xFFFF_FFFF_FFFF_FFFF
    ensures exists at ::
      CutShort([Seen(opening, first, true, {}), Seen(later, second, false, {})], at, Key(s, d, sp, dp, proto))
  {
    var k := Key(s, d, sp, dp, proto);
    var one, two := [Seen(opening, first, true, {})], [Seen(opening, first, true, {}), Seen(later, second, false, {})];
    assert one[..0] == [] && two[..1] == one;
    assert Clock(one) == TimeOf(one[0], Clock([])) && Monotonic([]);
    assert Table(one) == Apply(Table([]), one[0]) && Monotonic(one);
    assert Table(one) == map[k := first];
    assert Table(two) == Apply(Table(one), two[1]) && Clock(two) == second;
    LagCutsShort(two, k);
  }
}
