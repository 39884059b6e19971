/** The write-through cache in front of the identity tries, and the
    longest-prefix lookup of the packet program. */
module IdentityLookup {
  import opened NetTypes
  import opened ByteOrder

  /** A trie key: prefix length and an address in network byte order. */
  datatype LpmKey = LpmKey(prefixLen: nat, data: nat)
  /** The same in host byte order, as the cache keeps it. */
  datatype Network = Network(addr: nat, prefix: nat)

  /** Number of bytes of an address: 4 or 16. */
  type Width = x: nat | x == 4 || x == 16 witness 4

  /** `addr` without its `drop` lowest bits. */
  function HighBits(addr: nat, drop: nat): nat
    decreases drop
  {
    if drop == 0 then addr else HighBits(addr / 2, drop - 1)
  }

  /** The `drop` lowest bits of `addr` are zero. */
  predicate LowBitsClear(addr: nat, drop: nat)
    decreases drop
  {
    drop == 0 || (addr % 2 == 0 && LowBitsClear(addr / 2, drop - 1))
  }

  lemma {:induction false} HighBitsDecide(a: nat, b: nat, drop: nat)
    requires LowBitsClear(a, drop) && LowBitsClear(b, drop) && HighBits(a, drop) == HighBits(b, drop)
    ensures a == b
    decreases drop
  {
    if drop > 0 {
      HighBitsDecide(a / 2, b / 2, drop - 1);
    }
  }

  predicate ValidNetwork(w: Width, net: Network) {
    net.addr < Power256(w) && net.prefix <= 8 * w
  }

  predicate ValidKey(w: Width, key: LpmKey) {
    key.data < Power256(w) && key.prefixLen <= 8 * w
  }

  function NetworkToKey(w: Width, net: Network): LpmKey {
    LpmKey(net.prefix, SwapBytes(w, net.addr))
  }

  function KeyToNetwork(w: Width, key: LpmKey): (net: Network)
    ensures ValidKey(w, key) ==> ValidNetwork(w, net)
  {
    assert key.data < Power256(w) ==> SwapBytes(w, key.data) < Power256(w) by {
      if key.data < Power256(w) { SwapBytesBounded(w, key.data); }
    }
    Network(SwapBytes(w, key.data), key.prefixLen)
  }

  /** Encoding a network as a trie key and decoding it gives it back, and
      conversely; the key keeps the prefix length and holds the bytes of the
      address in the opposite order. */
  lemma KeyRoundTrips(w: Width, net: Network, key: LpmKey)
    ensures ValidNetwork(w, net) ==>
      && NetworkToKey(w, net).prefixLen == net.prefix
      && forall i :: 0 <= i < w ==>
           LittleBytes(w, NetworkToKey(w, net).data)[i] == LittleBytes(w, net.addr)[w - 1 - i]
    ensures ValidNetwork(w, net) ==>
      ValidKey(w, NetworkToKey(w, net)) && KeyToNetwork(w, NetworkToKey(w, net)) == net
    ensures ValidKey(w, key) ==>
      ValidNetwork(w, KeyToNetwork(w, key)) && NetworkToKey(w, KeyToNetwork(w, key)) == key
  {
    hide SwapBytes, LittleBytes, Power256;
    if ValidNetwork(w, net) {
      SwapTwice(w, net.addr);
      SwapBytesBounded(w, net.addr);
      forall i | 0 <= i < w
        ensures LittleBytes(w, NetworkToKey(w, net).data)[i] == LittleBytes(w, net.addr)[w - 1 - i]
      {
        SwapReversesBytes(w, net.addr, i);
      }
    }
    if ValidKey(w, key) {
      SwapTwice(w, key.data);
      SwapBytesBounded(w, key.data);
    }
  }

  /** A node of the trie: a prefix length and that many leading bits. */
  datatype Node = Node(length: nat, bits: nat)

  type Trie = map<Node, IdentityId>
  type Cache = map<Network, IdentityId>

  function Leading(w: Width, addr: nat, length: nat): Node
    requires length <= 8 * w
  {
    Node(length, HighBits(addr, 8 * w - length))
  }

  /** The trie tells networks apart by their prefix bits only. */
  function NodeOf(w: Width, net: Network): Node
    requires net.prefix <= 8 * w
  {
    Leading(w, net.addr, net.prefix)
  }

  /** The kernel's lookup: the longest stored prefix of `addr`, tried from
      `length` downwards. */
  function Lookup(trie: Trie, w: Width, addr: nat, length: nat): Option<IdentityId>
    requires length <= 8 * w
    decreases length
  {
    if Leading(w, addr, length) in trie then Some(trie[Leading(w, addr, length)])
    else if length == 0 then None
    else Lookup(trie, w, addr, length - 1)
  }

  // ---------- The write-through cache ----------

  datatype State = State(cache: Cache, trie: Trie)

  predicate Skips(s: State, net: Network, id: IdentityId) {
    net in s.cache && s.cache[net] == id
  }

  /** An update; `ok` says whether the trie write, if one is made, succeeds. */
  function UpdateStep(s: State, w: Width, net: Network, id: IdentityId, ok: bool): State
    requires net.prefix <= 8 * w
  {
    if Skips(s, net, id) || !ok then s
    else State(s.cache[net := id], s.trie[NodeOf(w, net) := id])
  }

  function DeleteStep(s: State, w: Width, net: Network, ok: bool): State
    requires net.prefix <= 8 * w
  {
    if ok then State(s.cache - {net}, s.trie - {NodeOf(w, net)}) else s
  }

  /** The kernel's trie; `faults` counts the operations on it that failed. */
  class TrieMap {
    const width: Width
    var nodes: Trie
    ghost var faults: nat

    constructor (width: Width)
      ensures this.width == width && nodes == map[] && faults == 0
    {
      this.width, nodes, faults := width, map[], 0;
    }

    method Update(key: LpmKey, value: IdentityId) returns (ok: bool)
      requires ValidKey(width, key)
      modifies this
      ensures nodes == if ok then old(nodes)[NodeOf(width, KeyToNetwork(width, key)) := value] else old(nodes)
      ensures faults == old(faults) + if ok then 0 else 1
    {
      if * {
        faults := faults + 1;
        return false;
      }
      nodes := nodes[NodeOf(width, KeyToNetwork(width, key)) := value];
      ok := true;
    }

    method Delete(key: LpmKey) returns (ok: bool)
      requires ValidKey(width, key)
      modifies this
      ensures nodes == if ok then old(nodes) - {NodeOf(width, KeyToNetwork(width, key))} else old(nodes)
      ensures faults == old(faults) + if ok then 0 else 1
    {
      if * {
        faults := faults + 1;
        return false;
      }
      nodes := nodes - {NodeOf(width, KeyToNetwork(width, key))};
      ok := true;
    }
  }

  /** The state of one family; the IPv4 and IPv6 classes differ in width only. */
  class IpBpfState {
    var cache: Cache
    const bpfMap: TrieMap

    ghost function View(): State
      reads this, bpfMap
    {
      State(cache, bpfMap.nodes)
    }

    constructor (width: Width)
      ensures fresh(bpfMap) && bpfMap.width == width && View() == State(map[], map[])
    {
      bpfMap := new TrieMap(width);
      cache := map[];
    }

    method Update(key: LpmKey, value: IdentityId) returns (ok: bool)
      requires ValidKey(bpfMap.width, key)
      modifies this, bpfMap
      ensures View() == UpdateStep(old(View()), bpfMap.width, KeyToNetwork(bpfMap.width, key), value, ok)
      ensures bpfMap.faults == old(bpfMap.faults) + if ok then 0 else 1
      ensures Skips(old(View()), KeyToNetwork(bpfMap.width, key), value) ==> ok
    {
      var network := KeyToNetwork(bpfMap.width, key);
      if network in cache && cache[network] == value {
        return true;
      }
      ok := bpfMap.Update(key, value);
      if ok {
        cache := cache[network := value];
      }
    }

    method Delete(key: LpmKey) returns (ok: bool)
      requires ValidKey(bpfMap.width, key)
      modifies this, bpfMap
      ensures View() == DeleteStep(old(View()), bpfMap.width, KeyToNetwork(bpfMap.width, key), ok)
      ensures bpfMap.faults == old(bpfMap.faults) + if ok then 0 else 1
    {
      ok := bpfMap.Delete(key);
      if ok {
        cache := cache - {KeyToNetwork(bpfMap.width, key)};
      }
    }
  }

  // ---------- Agreement ----------

  /** Every cached network is stored under its node with its id, and every node
      belongs to a cached network. */
  ghost predicate Agree(s: State, w: Width) {
    && (forall net :: net in s.cache ==> ValidNetwork(w, net))
    && (forall net :: net in s.cache ==> NodeOf(w, net) in s.trie && s.trie[NodeOf(w, net)] == s.cache[net])
    && (forall node :: node in s.trie ==> exists net :: net in s.cache && NodeOf(w, net) == node)
  }

  /** Another cached network that the trie cannot tell from `net`. */
  ghost predicate Clashes(s: State, w: Width, net: Network, other: Network)
    requires ValidNetwork(w, net)
  {
    other in s.cache && other != net && ValidNetwork(w, other) && NodeOf(w, other) == NodeOf(w, net)
  }

  /** The update would overwrite a clashing network's node with another id. */
  ghost predicate Overwrites(s: State, w: Width, net: Network, id: IdentityId)
    requires ValidNetwork(w, net)
  {
    exists other :: Clashes(s, w, net, other) && s.cache[other] != id
  }

  lemma UpdateKeepsAgreement(s: State, w: Width, net: Network, id: IdentityId)
    requires Agree(s, w) && ValidNetwork(w, net) && !Overwrites(s, w, net, id)
    ensures Agree(State(s.cache[net := id], s.trie[NodeOf(w, net) := id]), w)
  {
    var s' := State(s.cache[net := id], s.trie[NodeOf(w, net) := id]);
    forall other | other in s'.cache
      ensures NodeOf(w, other) in s'.trie && s'.trie[NodeOf(w, other)] == s'.cache[other]
    {
      assert other == net || Clashes(s, w, net, other) || NodeOf(w, other) != NodeOf(w, net);
    }
    forall node | node in s'.trie
      ensures exists other :: other in s'.cache && NodeOf(w, other) == node
    {
      if node == NodeOf(w, net) {
        assert net in s'.cache;
      } else {
        var other :| other in s.cache && NodeOf(w, other) == node;
        assert other in s'.cache;
      }
    }
  }

  /** An update keeps the agreement except exactly when it overwrites the node
      of a clashing network with another id. */
  lemma UpdateAgreesExactly(s: State, w: Width, net: Network, id: IdentityId, ok: bool)
    requires Agree(s, w) && ValidNetwork(w, net)
    ensures Agree(UpdateStep(s, w, net, id, ok), w) <==> !(ok && Overwrites(s, w, net, id))
  {
    if ok && !Skips(s, net, id) {
      if Overwrites(s, w, net, id) {
        var other :| Clashes(s, w, net, other) && s.cache[other] != id;
        var s' := UpdateStep(s, w, net, id, ok);
        assert other in s'.cache && s'.trie[NodeOf(w, other)] == id;
      } else {
        UpdateKeepsAgreement(s, w, net, id);
      }
    }
  }

  lemma DeleteKeepsAgreement(s: State, w: Width, net: Network)
    requires Agree(s, w) && ValidNetwork(w, net) && !exists other :: Clashes(s, w, net, other)
    ensures Agree(State(s.cache - {net}, s.trie - {NodeOf(w, net)}), w)
  {
    var s' := State(s.cache - {net}, s.trie - {NodeOf(w, net)});
    forall other | other in s'.cache
      ensures NodeOf(w, other) in s'.trie && s'.trie[NodeOf(w, other)] == s'.cache[other]
    {
      assert !Clashes(s, w, net, other);
    }
    forall node | node in s'.trie
      ensures exists other :: other in s'.cache && NodeOf(w, other) == node
    {
      var other :| other in s.cache && NodeOf(w, other) == node;
      assert other in s'.cache;
    }
  }

  /** A delete keeps the agreement except exactly when the trie node it removes
      also serves a clashing network. */
  lemma DeleteAgreesExactly(s: State, w: Width, net: Network, ok: bool)
    requires Agree(s, w) && ValidNetwork(w, net)
    ensures Agree(DeleteStep(s, w, net, ok), w) <==> !(ok && exists other :: Clashes(s, w, net, other))
  {
    if ok {
      if exists other :: Clashes(s, w, net, other) {
        var other :| Clashes(s, w, net, other);
        var s' := DeleteStep(s, w, net, ok);
        assert other in s'.cache && NodeOf(w, other) !in s'.trie;
      } else {
        DeleteKeepsAgreement(s, w, net);
      }
    }
  }

  predicate Contains(w: Width, net: Network, addr: nat) {
    net.prefix <= 8 * w && NodeOf(w, net) == Leading(w, addr, net.prefix)
  }

  function Power2(n: nat): (p: nat)
    ensures p > 0
  {
    if n == 0 then 1 else 2 * Power2(n - 1)
  }

  /** Without its low bits an address is the number of its aligned block. */
  lemma {:induction false} HighBitsNumberBlock(addr: nat, drop: nat, block: nat)
    ensures HighBits(addr, drop) == block <==> InBlock(addr, block, Power2(drop))
    decreases drop
  {
    if drop > 0 {
      HighBitsNumberBlock(addr / 2, drop - 1, block);
      var p := Power2(drop - 1);
      DoubleBlock(block, p);
      HalfInBlock(addr, block * p, p);
    }
  }

  lemma DoubleBlock(block: nat, p: nat)
    ensures block * (2 * p) == 2 * (block * p)
  {}

  lemma HalfInBlock(addr: nat, start: nat, p: nat)
    ensures start <= addr / 2 < start + p <==> 2 * start <= addr < 2 * start + 2 * p
  {}

  /** The address is in the block of that number among those of `size`. */
  predicate InBlock(addr: nat, block: nat, size: nat) {
    block * size <= addr < block * size + size
  }

  /** A network contains the addresses of its own aligned block of
      2^(host bits), and no others. */
  lemma ContainsExactly(w: Width, net: Network, addr: nat)
    requires net.prefix <= 8 * w
    ensures var size := Power2(8 * w - net.prefix);
      Contains(w, net, addr) <==> exists block: nat :: InBlock(net.addr, block, size) && InBlock(addr, block, size)
  {
    var drop := 8 * w - net.prefix;
    var size, block := Power2(drop), HighBits(net.addr, drop);
    assert Contains(w, net, addr) <==> HighBits(addr, drop) == block;
    hide InBlock, HighBits, Power2, Contains;
    HighBitsNumberBlock(net.addr, drop, block);
    HighBitsNumberBlock(addr, drop, block);
    if other: nat :| InBlock(net.addr, other, size) && InBlock(addr, other, size) {
      HighBitsNumberBlock(net.addr, drop, other);
      HighBitsNumberBlock(addr, drop, other);
      assert Contains(w, net, addr);
    }
  }

  /** `net` is a cached network containing `addr` and none with a longer prefix
      (up to `length`) does. */
  ghost predicate LongestMatch(cache: Cache, w: Width, addr: nat, length: nat, net: Network) {
    && net in cache && net.prefix <= length && Contains(w, net, addr)
    && forall other :: other in cache && net.prefix < other.prefix <= length ==> !Contains(w, other, addr)
  }

  /** While cache and trie agree, the kernel's lookup answers with the id of
      the longest cached network containing the address. */
  lemma {:induction false} LookupIsLongestMatch(s: State, w: Width, addr: nat, length: nat)
    requires Agree(s, w) && length <= 8 * w
    ensures match Lookup(s.trie, w, addr, length)
      case Some(id) => exists net :: LongestMatch(s.cache, w, addr, length, net) && s.cache[net] == id
      case None => forall net :: net in s.cache && net.prefix <= length ==> !Contains(w, net, addr)
    decreases length
  {
    var node := Leading(w, addr, length);
    if node in s.trie {
      var net :| net in s.cache && NodeOf(w, net) == node;
      assert LongestMatch(s.cache, w, addr, length, net);
    } else {
      forall net | net in s.cache && net.prefix == length
        ensures !Contains(w, net, addr)
      {
        assert NodeOf(w, net) in s.trie;
      }
      if length > 0 {
        LookupIsLongestMatch(s, w, addr, length - 1);
        if Lookup(s.trie, w, addr, length - 1).Some? {
          var id := Lookup(s.trie, w, addr, length - 1).value;
          var net :| LongestMatch(s.cache, w, addr, length - 1, net) && s.cache[net] == id;
          assert LongestMatch(s.cache, w, addr, length, net);
        }
      }
    }
  }

  // ---------- Runs ----------

  datatype Call = Update(net: Network, id: IdentityId, ok: bool) | Delete(net: Network, ok: bool)

  /** What a call makes of the ids written. */
  function Recorded(cache: Cache, call: Call): Cache {
    match call
    case Update(net, id, ok) => if ok then cache[net := id] else cache
    case Delete(net, ok) => if ok then cache - {net} else cache
  }

  /** The last id successfully written for each network and not deleted since;
      an update that is skipped succeeds. */
  function Written(calls: seq<Call>): Cache {
    if calls == [] then map[] else Recorded(Written(calls[..|calls| - 1]), calls[|calls| - 1])
  }

  predicate AllValid(w: Width, calls: seq<Call>) {
    forall i :: 0 <= i < |calls| ==> ValidNetwork(w, calls[i].net)
  }

  function CallStep(s: State, w: Width, call: Call): State
    requires ValidNetwork(w, call.net)
  {
    match call
    case Update(net, id, ok) => UpdateStep(s, w, net, id, ok)
    case Delete(net, ok) => DeleteStep(s, w, net, ok)
  }

  function Run(w: Width, calls: seq<Call>): State
    requires AllValid(w, calls)
  {
    if calls == [] then State(map[], map[]) else CallStep(Run(w, calls[..|calls| - 1]), w, calls[|calls| - 1])
  }

  /** No bits are set below the prefix; every host address with a full-length
      prefix, all the callers write, is such a network. */
  predicate Canonical(w: Width, net: Network) {
    ValidNetwork(w, net) && LowBitsClear(net.addr, 8 * w - net.prefix)
  }

  lemma CanonicalNodesDiffer(w: Width, a: Network, b: Network)
    requires Canonical(w, a) && Canonical(w, b) && NodeOf(w, a) == NodeOf(w, b)
    ensures a == b
  {
    HighBitsDecide(a.addr, b.addr, 8 * w - a.prefix);
  }

  /** All are networks of the width and no two share a trie node. */
  ghost predicate Separate(w: Width, nets: iset<Network>) {
    && (forall net :: net in nets ==> ValidNetwork(w, net))
    && (forall a, b :: a in nets && b in nets && a != b ==> NodeOf(w, a) != NodeOf(w, b))
  }

  /** The networks without host bits. */
  ghost function WithoutHostBits(w: Width): iset<Network> {
    iset net | Canonical(w, net)
  }

  lemma WithoutHostBitsSeparate(w: Width)
    ensures Separate(w, WithoutHostBits(w))
  {
    forall a, b | a in WithoutHostBits(w) && b in WithoutHostBits(w) && a != b
      ensures NodeOf(w, a) != NodeOf(w, b)
    {
      if NodeOf(w, a) == NodeOf(w, b) {
        CanonicalNodesDiffer(w, a, b);
      }
    }
  }

  ghost predicate Within(calls: seq<Call>, nets: iset<Network>) {
    forall i :: 0 <= i < |calls| ==> calls[i].net in nets
  }

  lemma SeparateNeverClash(s: State, w: Width, nets: iset<Network>, net: Network)
    requires Separate(w, nets) && net in nets && forall other :: other in s.cache ==> other in nets
    ensures forall other :: !Clashes(s, w, net, other)
  {}

  lemma CanonicalNeverClash(s: State, w: Width, net: Network)
    requires Canonical(w, net) && forall other :: other in s.cache ==> Canonical(w, other)
    ensures forall other :: !Clashes(s, w, net, other)
  {
    WithoutHostBitsSeparate(w);
    SeparateNeverClash(s, w, WithoutHostBits(w), net);
  }

  lemma CallRecorded(s: State, w: Width, call: Call)
    requires ValidNetwork(w, call.net)
    ensures CallStep(s, w, call).cache == Recorded(s.cache, call)
  {}

  lemma CallAgrees(s: State, w: Width, nets: iset<Network>, call: Call)
    requires Separate(w, nets) && call.net in nets && Agree(s, w) && forall net :: net in s.cache ==> net in nets
    ensures ValidNetwork(w, call.net) && Agree(CallStep(s, w, call), w)
  {
    hide Agree, Clashes, Overwrites, UpdateStep, DeleteStep;
    SeparateNeverClash(s, w, nets, call.net);
    NoClashNoOverwrite(s, w, call.net);
    if call.Update? {
      UpdateAgreesExactly(s, w, call.net, call.id, call.ok);
    } else {
      DeleteAgreesExactly(s, w, call.net, call.ok);
    }
  }

  lemma NoClashNoOverwrite(s: State, w: Width, net: Network)
    requires ValidNetwork(w, net) && forall other :: !Clashes(s, w, net, other)
    ensures forall id :: !Overwrites(s, w, net, id)
  {}

  lemma {:induction false} RunAgrees(w: Width, nets: iset<Network>, calls: seq<Call>)
    requires Separate(w, nets) && Within(calls, nets)
    ensures AllValid(w, calls) && Agree(Run(w, calls), w) && Run(w, calls).cache == Written(calls)
    ensures forall net :: net in Written(calls) ==> net in nets
  {
    if calls != [] {
      ValidWithin(w, nets, calls);
      hide Agree, Separate, CallStep;
      var s, last := Run(w, calls[..|calls| - 1]), calls[|calls| - 1];
      RunAgrees(w, nets, calls[..|calls| - 1]);
      CallAgrees(s, w, nets, last);
      CallRecorded(s, w, last);
    }
  }

  lemma ValidWithin(w: Width, nets: iset<Network>, calls: seq<Call>)
    requires Separate(w, nets) && Within(calls, nets)
    ensures AllValid(w, calls)
  {}

  /** The calls on a set of networks keep cache and trie in agreement, whatever
      fails, exactly when no two of these networks share a trie node. */
  lemma RunsAgreeExactly(w: Width, nets: iset<Network>)
    requires forall net :: net in nets ==> ValidNetwork(w, net)
    ensures (forall calls :: Within(calls, nets) ==> AllValid(w, calls) && Agree(Run(w, calls), w))
       <==> Separate(w, nets)
  {
    if Separate(w, nets) {
      forall calls | Within(calls, nets)
        ensures AllValid(w, calls) && Agree(Run(w, calls), w)
      {
        RunAgrees(w, nets, calls);
      }
    } else {
      var a, b :| a in nets && b in nets && a != b && NodeOf(w, a) == NodeOf(w, b);
      var calls := [Update(a, 0, true), Update(b, 1, true)];
      assert Within(calls, nets);
      SharedNodeDisagrees(w, a, b);
    }
  }

  lemma SharedNodeDisagrees(w: Width, a: Network, b: Network)
    requires ValidNetwork(w, a) && ValidNetwork(w, b) && a != b && NodeOf(w, a) == NodeOf(w, b)
    ensures var calls := [Update(a, 0, true), Update(b, 1, true)];
      AllValid(w, calls) && !Agree(Run(w, calls), w)
  {
    var first, second := Update(a, 0, true), Update(b, 1, true);
    assert [] + [first] == [first] && [first] + [second] == [first, second];
    RunSnoc(w, [], first);
    RunSnoc(w, [first], second);
    var s := Run(w, [first, second]);
    assert a in s.cache && s.cache[a] == 0 && s.trie[NodeOf(w, a)] == 1;
  }

  /** Over every run from empty maps on networks of which no two share a node,
      whatever writes fail, the lookup of an address answers with the id last
      written, and not deleted since, for the longest such network containing
      it.  Networks without host bits are such a set. */
  lemma LookupShowsWritten(w: Width, nets: iset<Network>, calls: seq<Call>, addr: nat)
    requires Separate(w, nets) && Within(calls, nets)
    ensures AllValid(w, calls)
    ensures match Lookup(Run(w, calls).trie, w, addr, 8 * w)
      case Some(id) => exists net :: LongestMatch(Written(calls), w, addr, 8 * w, net) && Written(calls)[net] == id
      case None => forall net :: net in Written(calls) ==> !Contains(w, net, addr)
  {
    RunAgrees(w, nets, calls);
    LookupIsLongestMatch(Run(w, calls), w, addr, 8 * w);
  }

  predicate AllHosts(w: Width, calls: seq<Call>) {
    forall i :: 0 <= i < |calls| ==> ValidNetwork(w, calls[i].net) && calls[i].net.prefix == 8 * w
  }

  lemma {:induction false} WrittenHosts(w: Width, calls: seq<Call>)
    requires AllHosts(w, calls)
    ensures forall net :: net in Written(calls) ==> net.prefix == 8 * w
  {
    if calls != [] {
      WrittenHosts(w, calls[..|calls| - 1]);
    }
  }

  /** With full-length prefixes only, the lookup is a plain map from addresses
      to ids. */
  lemma HostLookupIsPlainMap(w: Width, calls: seq<Call>, addr: nat)
    requires AllHosts(w, calls)
    ensures Lookup(Run(w, calls).trie, w, addr, 8 * w)
         == if Network(addr, 8 * w) in Written(calls) then Some(Written(calls)[Network(addr, 8 * w)]) else None
  {
    WithoutHostBitsSeparate(w);
    LookupShowsWritten(w, WithoutHostBits(w), calls, addr);
    WrittenHosts(w, calls);
    forall net | net in Written(calls)
      ensures Contains(w, net, addr) <==> net == Network(addr, 8 * w)
    {
    }
  }

  /** Two networks that share a node make the skip unsound: writing back the
      first one's id is skipped while the trie holds the second's. */
  lemma SharedNodeLosesUpdate(w: Width, a: Network, b: Network, x: IdentityId, y: IdentityId)
    requires ValidNetwork(w, a) && ValidNetwork(w, b) && a != b && NodeOf(w, a) == NodeOf(w, b)
    ensures var calls := [Update(a, x, true), Update(b, y, true), Update(a, x, true)];
      AllValid(w, calls) && Written(calls)[a] == x && Run(w, calls).trie == map[NodeOf(w, a) := y]
  {
    var first, second := Update(a, x, true), Update(b, y, true);
    assert [] + [first] == [first] && [first] + [second] == [first, second];
    assert [first, second] + [first] == [first, second, first];
    RunSnoc(w, [], first);
    RunSnoc(w, [first], second);
    RunSnoc(w, [first, second], first);
    assert Run(w, [first, second]).cache[a] == x;
  }

  /** Such networks exist as soon as host bits are allowed. */
  lemma HostBitsShareNode(w: Width)
    ensures var a, b := Network(0, 8 * w - 1), Network(1, 8 * w - 1);
      && ValidNetwork(w, a) && ValidNetwork(w, b) && Canonical(w, a) && !Canonical(w, b)
      && NodeOf(w, a) == NodeOf(w, b)
  {
    Widths();
    assert HighBits(0, 1) == HighBits(1, 1) == 0;
  }

  lemma RunSnoc(w: Width, calls: seq<Call>, call: Call)
    requires AllValid(w, calls) && ValidNetwork(w, call.net)
    ensures AllValid(w, calls + [call]) && Run(w, calls + [call]) == CallStep(Run(w, calls), w, call)
    ensures call.Update? && call.ok ==> Written(calls + [call]) == Written(calls)[call.net := call.id]
  {
    assert (calls + [call])[..|calls|] == calls;
  }

  // ---------- Both families ----------

  /** What the agent keeps true by writing host addresses only. */
  ghost predicate Sound(s: State, w: Width) {
    Agree(s, w) && forall net :: net in s.cache ==> Canonical(w, net)
  }

  function HostNetwork(w: Width, addr: nat): Network {
    Network(addr, 8 * w)
  }

  lemma HostUpdateSound(s: State, w: Width, addr: nat, id: IdentityId, ok: bool)
    requires Sound(s, w) && addr < Power256(w)
    ensures Sound(UpdateStep(s, w, HostNetwork(w, addr), id, ok), w)
  {
    CanonicalNeverClash(s, w, HostNetwork(w, addr));
    UpdateAgreesExactly(s, w, HostNetwork(w, addr), id, ok);
  }

  /** The update of a host address changes what that address resolves to and
      nothing else. */
  lemma HostUpdate(s: State, w: Width, addr: nat, id: IdentityId, ok: bool, a: nat)
    requires Sound(s, w) && addr < Power256(w)
    ensures var s' := UpdateStep(s, w, HostNetwork(w, addr), id, ok);
      Lookup(s'.trie, w, a, 8 * w)
        == if a == addr && (ok || Skips(s, HostNetwork(w, addr), id)) then Some(id) else Lookup(s.trie, w, a, 8 * w)
  {
    if a != addr {
      LookupElsewhere(s.trie, s.trie[NodeOf(w, HostNetwork(w, addr)) := id], w, addr, a, 8 * w);
    }
  }

  lemma HostDeleteSound(s: State, w: Width, addr: nat, ok: bool)
    requires Sound(s, w) && addr < Power256(w)
    ensures Sound(DeleteStep(s, w, HostNetwork(w, addr), ok), w)
  {
    hide Agree, Canonical;
    HostIsCanonical(w, addr);
    CanonicalNeverClash(s, w, HostNetwork(w, addr));
    DeleteAgreesExactly(s, w, HostNetwork(w, addr), ok);
  }

  lemma HostIsCanonical(w: Width, addr: nat)
    requires addr < Power256(w)
    ensures Canonical(w, HostNetwork(w, addr)) && ValidNetwork(w, HostNetwork(w, addr))
  {}

  /** The removal of a host address leaves every other address alone. */
  lemma HostDelete(s: State, w: Width, addr: nat, ok: bool, a: nat)
    requires addr < Power256(w) && a != addr
    ensures Lookup(DeleteStep(s, w, HostNetwork(w, addr), ok).trie, w, a, 8 * w) == Lookup(s.trie, w, a, 8 * w)
  {
    if ok {
      hide Lookup;
      LookupElsewhere(s.trie, s.trie - {NodeOf(w, HostNetwork(w, addr))}, w, addr, a, 8 * w);
    }
  }

  /** Only the lookup of `addr` itself meets the host node of `addr`. */
  lemma {:induction false} LookupElsewhere(trie: Trie, trie': Trie, w: Width, addr: nat, a: nat, length: nat)
    requires a != addr && length <= 8 * w
    requires var own := NodeOf(w, HostNetwork(w, addr)); trie - {own} == trie' - {own}
    ensures Lookup(trie', w, a, length) == Lookup(trie, w, a, length)
    decreases length
  {
    var own, node := NodeOf(w, HostNetwork(w, addr)), Leading(w, a, length);
    assert node != own;
    assert node in trie <==> node in trie - {own};
    assert node in trie' <==> node in trie' - {own};
    if node in trie {
      assert (trie - {own})[node] == (trie' - {own})[node];
    }
    if length > 0 {
      LookupElsewhere(trie, trie', w, addr, a, length - 1);
    }
  }

  class IpNetworkState {
    const v4: IpBpfState
    const v6: IpBpfState

    ghost function Repr(): set<object> {
      {v4, v4.bpfMap, v6, v6.bpfMap}
    }

    ghost predicate Wired()
      reads Repr()
    {
      v4 != v6 && v4.bpfMap != v6.bpfMap && v4.bpfMap.width == 4 && v6.bpfMap.width == 16
    }

    ghost predicate Valid()
      reads Repr()
    {
      Wired() && Sound(v4.View(), 4) && Sound(v6.View(), 16)
    }

    /** How many operations on the two tries have failed. */
    ghost function Faults(): nat
      reads Repr()
    {
      v4.bpfMap.faults + v6.bpfMap.faults
    }

    /** What the packet program resolves an address to. */
    ghost function Resolve(ip: IpAddr): Option<IdentityId>
      requires Wired()
      reads Repr()
    {
      match ip
      case Ip4(bits) => Lookup(v4.bpfMap.nodes, 4, bits, 32)
      case Ip6(bits) => Lookup(v6.bpfMap.nodes, 16, bits, 128)
    }

    constructor ()
      ensures Valid() && fresh(Repr())
      ensures forall ip :: Resolve(ip) == None
    {
      v4 := new IpBpfState(4);
      v6 := new IpBpfState(16);
      new;
      LookupInEmpty(4, 32);
      LookupInEmpty(16, 128);
    }

    /** Writes one network of either family, of any prefix length. */
    method Update(ip: IpAddr, prefix: nat, id: IdentityId) returns (ok: bool)
      requires Wired() && prefix <= if ip.Ip4? then 32 else 128
      modifies Repr()
      ensures Wired() && Faults() == old(Faults()) + if ok then 0 else 1
      ensures ip.Ip4? ==>
        && v4.View() == UpdateStep(old(v4.View()), 4, Network(ip.bits4, prefix), id, ok)
        && (Skips(old(v4.View()), Network(ip.bits4, prefix), id) ==> ok)
        && v6.View() == old(v6.View())
      ensures ip.Ip6? ==>
        && v6.View() == UpdateStep(old(v6.View()), 16, Network(ip.bits6, prefix), id, ok)
        && (Skips(old(v6.View()), Network(ip.bits6, prefix), id) ==> ok)
        && v4.View() == old(v4.View())
    {
      Widths();
      match ip {
        case Ip4(bits) =>
          KeyRoundTrips(4, Network(bits, prefix), LpmKey(0, 0));
          ok := v4.Update(NetworkToKey(4, Network(bits, prefix)), id);
        case Ip6(bits) =>
          KeyRoundTrips(16, Network(bits, prefix), LpmKey(0, 0));
          ok := v6.Update(NetworkToKey(16, Network(bits, prefix)), id);
      }
    }

    /** Gives a host address an identity.  After a success the address resolves
        to it, also when the write was skipped as equal; after a failure to what
        it did before; every other address resolves as before in either case. */
    method UpdateHost(ip: IpAddr, id: IdentityId) returns (ok: bool)
      requires Valid()
      modifies Repr()
      ensures Valid()
      ensures forall other ::
        Resolve(other) == if ok && other == ip then Some(id) else old(Resolve(other))
      ensures Faults() == old(Faults()) + if ok then 0 else 1
    {
      hide UpdateStep, Lookup, Skips, Sound;
      Widths();
      ghost var s4, s6 := v4.View(), v6.View();
      ok := Update(ip, if ip.Ip4? then 32 else 128, id);
      match ip {
        case Ip4(bits) =>
          HostUpdateSound(s4, 4, bits, id, ok);
          forall a: u32 { HostUpdate(s4, 4, bits, id, ok, a); }
        case Ip6(bits) =>
          HostUpdateSound(s6, 16, bits, id, ok);
          forall a: u128 { HostUpdate(s6, 16, bits, id, ok, a); }
      }
    }

    /** Takes a host address back out.  After a success no host entry of the
        address is left in cache or trie; the other family is untouched, and
        every other address resolves as before. */
    method Delete(ip: IpAddr) returns (ok: bool)
      requires Valid()
      modifies Repr()
      ensures Valid()
      ensures ip.Ip4? ==>
        && v4.View() == DeleteStep(old(v4.View()), 4, HostNetwork(4, ip.bits4), ok)
        && v6.View() == old(v6.View())
      ensures ip.Ip6? ==>
        && v6.View() == DeleteStep(old(v6.View()), 16, HostNetwork(16, ip.bits6), ok)
        && v4.View() == old(v4.View())
      ensures forall other :: other != ip ==> Resolve(other) == old(Resolve(other))
      ensures Faults() == old(Faults()) + if ok then 0 else 1
    {
      hide DeleteStep, Lookup, Sound, NetworkToKey, KeyToNetwork;
      Widths();
      ghost var s4, s6 := v4.View(), v6.View();
      match ip {
        case Ip4(bits) =>
          KeyRoundTrips(4, HostNetwork(4, bits), LpmKey(0, 0));
          ok := v4.Delete(NetworkToKey(4, HostNetwork(4, bits)));
          HostDeleteSound(s4, 4, bits, ok);
          forall a: u32 | a != bits { HostDelete(s4, 4, bits, ok, a); }
        case Ip6(bits) =>
          KeyRoundTrips(16, HostNetwork(16, bits), LpmKey(0, 0));
          ok := v6.Delete(NetworkToKey(16, HostNetwork(16, bits)));
          HostDeleteSound(s6, 16, bits, ok);
          forall a: u128 | a != bits { HostDelete(s6, 16, bits, ok, a); }
      }
    }
  }

  lemma {:induction false} LookupInEmpty(w: Width, length: nat)
    requires length <= 8 * w
    ensures forall a: nat :: Lookup(map[], w, a, length) == None
    decreases length
  {
    if length > 0 {
      LookupInEmpty(w, length - 1);
    }
  }
}
