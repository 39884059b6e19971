/** Kernel maps as the agent sees them. */
module BpfMaps {
  import opened NetTypes

  /** A map whose every operation may fail, and then changes no entry.
      `faults` counts the operations that failed.  Deleting an absent key
      succeeds.  The in-memory map of the repository is the case in which no
      operation fails. */
  class BpfMap<K(==), V> {
    var entries: map<K, V>
    ghost var faults: nat

    constructor ()
      ensures entries == map[] && faults == 0
    {
      entries, faults := map[], 0;
    }

    method Update(key: K, value: V) returns (ok: bool)
      modifies this
      ensures entries == if ok then old(entries)[key := value] else old(entries)
      ensures faults == old(faults) + if ok then 0 else 1
    {
      if * {
        faults := faults + 1;
        return false;
      }
      entries := entries[key := value];
      ok := true;
    }

    method Delete(key: K) returns (ok: bool)
      modifies this
      ensures entries == if ok then old(entries) - {key} else old(entries)
      ensures faults == old(faults) + if ok then 0 else 1
    {
      if * {
        faults := faults + 1;
        return false;
      }
      entries := entries - {key};
      ok := true;
    }

    /** Reads one entry while iterating over the map. */
    method ReadEntry(key: K) returns (r: Result<V>)
      requires key in entries
      modifies this`faults
      ensures r.Ok? ==> r.value == entries[key]
      ensures faults == old(faults) + if r.Ok? then 0 else 1
    {
      if * {
        faults := faults + 1;
        return Err;
      }
      r := Ok(entries[key]);
    }

    /** Reads the whole map entry by entry; one failed read fails the call. */
    method GetState() returns (r: Result<map<K, V>>)
      modifies this`faults
      ensures r.Ok? ==> r.value == entries
      ensures faults == old(faults) + if r.Ok? then 0 else 1
    {
      var copy: map<K, V> := map[];
      var rest := entries.Keys;
      while rest != {}
        invariant rest <= entries.Keys && faults == old(faults)
        invariant copy == map k | k in entries && k !in rest :: entries[k]
        decreases rest
      {
        var k :| k in rest;
        var entry := ReadEntry(k);
        if entry.Err? {
          return Err;
        }
        copy := copy[k := entry.value];
        rest := rest - {k};
      }
      r := Ok(copy);
    }
  }
}
