/** The policy map behind its write-through cache. */
module PolicyCache {
  import opened NetTypes
  import opened BpfMaps

  datatype PolicyKey = PolicyKey(srcId: IdentityId, dstId: IdentityId, dstPort: u16, proto: u8)
  datatype PolicyValue = PolicyValue(action: u8)

  class PolicyBpfState {
    var cache: map<PolicyKey, PolicyValue>
    const bpfMap: BpfMap<PolicyKey, PolicyValue>

    /** The cache equals the kernel map. */
    ghost predicate Valid()
      reads this, bpfMap
    {
      cache == bpfMap.entries
    }

    constructor (bpfMap: BpfMap<PolicyKey, PolicyValue>)
      ensures this.bpfMap == bpfMap && cache == map[]
    {
      this.bpfMap, cache := bpfMap, map[];
    }

    /** Fills the cache from whatever the pinned map holds; one failed read
        fails the whole load, and nothing else does. */
    method Load() returns (ok: bool)
      requires cache == map[]
      modifies this, bpfMap`faults
      ensures ok ==> Valid()
      ensures bpfMap.faults == old(bpfMap.faults) + if ok then 0 else 1
    {
      var rest := bpfMap.entries.Keys;
      while rest != {}
        invariant rest <= bpfMap.entries.Keys && bpfMap.faults == old(bpfMap.faults)
        invariant cache == map k | k in bpfMap.entries && k !in rest :: bpfMap.entries[k]
        decreases rest
      {
        var k :| k in rest;
        var entry := bpfMap.ReadEntry(k);
        if entry.Err? {
          return false;
        }
        cache := cache[k := entry.value];
        rest := rest - {k};
      }
      ok := true;
    }

    /** After a success the kernel map holds the value, also when the write was
        skipped; after a failure nothing has changed. */
    method Update(key: PolicyKey, value: PolicyValue) returns (ok: bool)
      requires Valid()
      modifies this, bpfMap
      ensures Valid()
      ensures bpfMap.entries == if ok then old(bpfMap.entries)[key := value] else old(bpfMap.entries)
      ensures bpfMap.faults == old(bpfMap.faults) + if ok then 0 else 1
      ensures key in old(bpfMap.entries) && old(bpfMap.entries)[key] == value ==> ok
    {
      if key in cache && cache[key] == value {
        assert bpfMap.entries == bpfMap.entries[key := value];
        return true;
      }
      ok := bpfMap.Update(key, value);
      if ok {
        cache := cache[key := value];
      }
    }

    method Delete(key: PolicyKey) returns (ok: bool)
      requires Valid()
      modifies this, bpfMap
      ensures Valid()
      ensures bpfMap.entries == if ok then old(bpfMap.entries) - {key} else old(bpfMap.entries)
      ensures bpfMap.faults == old(bpfMap.faults) + if ok then 0 else 1
    {
      ok := bpfMap.Delete(key);
      if ok {
        cache := cache - {key};
      }
    }
  }
}
