/** When operations succeed on maps that refuse to delete an absent key, as
    kernel maps do and the in-memory map does not. */
module ServiceStrictDelete {
  import opened NetTypes
  import opened ServiceTable
  import opened ServiceSpec
  import opened ServiceRefinement

  /** The map behind `w` does not refuse it. */
  predicate Accepted<SK, EV>(t: Tables<SK, EV>, w: Write<SK, EV>) {
    match w
    case PutService(_, _) => true
    case DropService(key) => key in t.services
    case PutEndpoint(_, _) => true
    case DropEndpoint(at) => at in t.endpoints
  }

  /** No write of the series is refused when its turn comes. */
  ghost predicate AllAccepted<SK, EV>(t: Tables<SK, EV>, ws: seq<Write<SK, EV>>) {
    forall i :: 0 <= i < |ws| ==> Accepted(PerformAll(t, ws[..i]), ws[i])
  }

  ghost predicate AllPresent<SK, EV>(t: Tables<SK, EV>, id: Id, lo: u16, hi: u16) {
    forall p: u16 :: lo <= p < hi ==> EndpointKey(id, p) in t.endpoints
  }

  lemma AcceptedConcat<SK, EV>(t: Tables<SK, EV>, a: seq<Write<SK, EV>>, b: seq<Write<SK, EV>>)
    ensures AllAccepted(t, a + b) <==> AllAccepted(t, a) && AllAccepted(PerformAll(t, a), b)
  {
    forall i | 0 <= i < |a|
      ensures (a + b)[..i] == a[..i]
    {
    }
    forall i | 0 <= i < |b|
      ensures PerformAll(t, (a + b)[..|a| + i]) == PerformAll(PerformAll(t, a), b[..i])
    {
      assert (a + b)[..|a| + i] == a + b[..i];
      PerformAllConcat(t, a, b[..i]);
    }
    if AllAccepted(t, a + b) {
      forall i | 0 <= i < |b|
        ensures Accepted(PerformAll(PerformAll(t, a), b[..i]), b[i])
      {
        assert (a + b)[|a| + i] == b[i];
      }
    }
  }

  lemma DropsAccepted<SK, EV>(t: Tables<SK, EV>, id: Id, lo: u16, hi: u16)
    ensures AllAccepted(t, EndpointDrops<SK, EV>(id, lo, hi)) <==> AllPresent(t, id, lo, hi)
  {
    var ws := EndpointDrops<SK, EV>(id, lo, hi);
    forall p: u16 | lo <= p < hi
      ensures Accepted(PerformAll(t, ws[..p - lo]), ws[p - lo]) <==> EndpointKey(id, p) in t.endpoints
    {
      assert ws[..p - lo] == EndpointDrops(id, lo, p);
      DropsEffect(t, id, lo, p);
    }
    if AllPresent(t, id, lo, hi) {
      forall i | 0 <= i < |ws|
        ensures Accepted(PerformAll(t, ws[..i]), ws[i])
      {
        assert EndpointKey(id, lo + i) in t.endpoints;
        assert lo + i - lo == i;
      }
    }
  }

  /** A removal succeeds exactly when every position below the recorded count
      still holds an endpoint. */
  lemma RemovalAccepted<SK, EV>(t: Tables<SK, EV>, key: SK)
    requires key in t.services
    ensures AllAccepted(t, RemoveWrites(t, key)) <==> AllPresent(t, t.services[key].id, 0, t.services[key].count)
  {
    var service := t.services[key];
    var drops := EndpointDrops<SK, EV>(service.id, 0, service.count);
    var last: Write<SK, EV> := DropService(key);
    AcceptedConcat(t, drops, [last]);
    DropsAccepted(t, service.id, 0, service.count);
    DropsEffect(t, service.id, 0, service.count);
    assert [last][..0] == [];
  }

  lemma OverwriteAccepted<SK, EV>(t: Tables<SK, EV>, key: SK, eps: seq<EV>, id: Id)
    requires key in t.services && |eps| <= MAX_ENDPOINTS
    ensures AllAccepted(t, UpdateWrites(t, key, eps, id))
       <==> AllPresent(t, t.services[key].id, |eps|, t.services[key].count)
  {
    var service := t.services[key];
    var puts := EndpointPuts<SK, EV>(service.id, eps);
    AcceptedConcat(t, puts, EndpointDrops(service.id, |eps|, service.count));
    DropsAccepted(PerformAll(t, puts), service.id, |eps|, service.count);
    PutsEffect(t, service.id, eps);
  }

  // ---------- Both families ----------

  /** `op` runs to its end on such maps. */
  ghost predicate Succeeds(s: State, op: Op) {
    match op
    case Update(V4(k), value) => !Rejected(op) && AllAccepted(s.v4, UpdateWrites(s.v4, k, OnlyV4(value), s.id))
    case Update(V6(k), value) => !Rejected(op) && AllAccepted(s.v6, UpdateWrites(s.v6, k, OnlyV6(value), s.id))
    case Remove(V4(k)) => AllAccepted(s.v4, RemoveWrites(s.v4, k))
    case Remove(V6(k)) => AllAccepted(s.v6, RemoveWrites(s.v6, k))
  }

  lemma StoredPresent<SK(!new), EV>(
      t: Tables<SK, EV>, a: map<SK, Entry<EV>>, id: Id, key: SK, lo: u16)
    requires Refines(t, a, id) && key in a
    ensures AllPresent(t, t.services[key].id, lo, t.services[key].count)
       <==> a[key].recorded <= |a[key].list| || a[key].recorded <= lo
  {
    var service, entry := t.services[key], a[key];
    assert Stored(t.endpoints, service.id, entry);
    if |entry.list| < entry.recorded && lo < entry.recorded {
      assert EndpointKey(service.id, if lo <= |entry.list| then |entry.list| else lo) !in t.endpoints;
    }
  }

  lemma FamilySucceeds<SK(!new), EV>(t: Tables<SK, EV>, a: map<SK, Entry<EV>>, id: Id, key: SK, eps: seq<EV>)
    requires Refines(t, a, id) && |eps| <= MAX_ENDPOINTS
    ensures AllAccepted(t, UpdateWrites(t, key, eps, id))
       <==> key !in a || a[key].recorded <= |a[key].list| || a[key].recorded <= |eps|
    ensures AllAccepted(t, RemoveWrites(t, key)) <==> key !in a || a[key].recorded <= |a[key].list|
  {
    if key in a {
      OverwriteAccepted(t, key, eps, id);
      RemovalAccepted(t, key);
      StoredPresent(t, a, id, key, |eps|);
      StoredPresent(t, a, id, key, 0);
    }
  }

  /** After any run whose calls all succeeded, a removal succeeds exactly when
      the key's last list covers the length recorded at its insertion; an update
      succeeds exactly when its list fits and that list or the last one does. */
  lemma SucceedsExactly(ops: seq<Op>, op: Op)
    requires IdsAvailable(EMPTY, ops)
    ensures var entry := History(None, ops, op.key);
      Succeeds(Run(EMPTY, ops), op) <==>
      match op
      case Remove(key) => entry.Some? ==> entry.value.recorded <= |entry.value.list|
      case Update(key, value) =>
        && !Rejected(op)
        && (entry.Some? ==>
              entry.value.recorded <= |entry.value.list| || entry.value.recorded <= |SameFamily(key, value)|)
  {
    var s, m := Run(EMPTY, ops), ModelRun(NOTHING, ops);
    RunRefines(EMPTY, NOTHING, ops);
    LookupRun(NOTHING, ops, op.key);
    match op
    case Remove(V4(k)) => FamilySucceeds(s.v4, m.v4, s.id, k, []);
    case Remove(V6(k)) => FamilySucceeds(s.v6, m.v6, s.id, k, []);
    case Update(V4(k), value) =>
      if !Rejected(op) { FamilySucceeds(s.v4, m.v4, s.id, k, OnlyV4(value)); }
    case Update(V6(k), value) =>
      if !Rejected(op) { FamilySucceeds(s.v6, m.v6, s.id, k, OnlyV6(value)); }
  }

  /** A service inserted with two backends and updated to one cannot be removed. */
  lemma ShrunkNotRemoved(k: ServiceKeyV4, a: EndpointValueV4, b: EndpointValueV4)
    ensures var ops := [Update(V4(k), [E4(a), E4(b)]), Update(V4(k), [E4(a)])];
      && IdsAvailable(EMPTY, ops)
      && (forall i :: 0 <= i < |ops| ==> Succeeds(Run(EMPTY, ops[..i]), ops[i]))
      && !Succeeds(Run(EMPTY, ops), Remove(V4(k)))
  {
    var first, second := Update(V4(k), [E4(a), E4(b)]), Update(V4(k), [E4(a)]);
    var ops := [first, second];
    assert Wrap4([a]) == [E4(a)] && Wrap4([a, b]) == [E4(a), E4(b)];
    FilterKeepsFamily4([a]);
    FilterKeepsFamily4([a, b]);
    EnoughIds(EMPTY, NOTHING, ops);
    assert ops[1..] == [second] && ops[..0] == [] && ops[..1] == [first] && [first][1..] == [] && [second][1..] == [];
    assert History(None, [first], V4(k)) == Some(Entry([E4(a), E4(b)], 2));
    assert History(Some(Entry([E4(a), E4(b)], 2)), [second], V4(k)) == Some(Entry([E4(a)], 2));
    EnoughIds(EMPTY, NOTHING, [first]);
    SucceedsExactly([], first);
    SucceedsExactly([first], second);
    SucceedsExactly(ops, Remove(V4(k)));
  }

  /** Attempts to remove `key`, each ended before its last write. */
  ghost predicate Attempts<SK, EV>(t: Tables<SK, EV>, key: SK, cuts: seq<nat>)
    decreases |cuts|
  {
    cuts != [] ==>
      && cuts[0] < |RemoveWrites(t, key)|
      && Attempts(PerformAll(t, RemoveWrites(t, key)[..cuts[0]]), key, cuts[1..])
  }

  function AfterAttempts<SK, EV>(t: Tables<SK, EV>, key: SK, cuts: seq<nat>): Tables<SK, EV>
    requires Attempts(t, key, cuts)
    decreases |cuts|
  {
    if cuts == [] then t
    else AfterAttempts(PerformAll(t, RemoveWrites(t, key)[..cuts[0]]), key, cuts[1..])
  }

  /** A refused removal is refused however often it is tried again. */
  lemma {:induction false} RefusedAgain<SK, EV>(t: Tables<SK, EV>, key: SK, cuts: seq<nat>)
    requires key in t.services && !AllAccepted(t, RemoveWrites(t, key)) && Attempts(t, key, cuts)
    ensures var t' := AfterAttempts(t, key, cuts);
      key in t'.services && !AllAccepted(t', RemoveWrites(t', key))
    decreases |cuts|
  {
    if cuts != [] {
      var service := t.services[key];
      var drops := EndpointDrops<SK, EV>(service.id, 0, service.count);
      var t1 := PerformAll(t, RemoveWrites(t, key)[..cuts[0]]);
      assert RemoveWrites(t, key)[..cuts[0]] == EndpointDrops(service.id, 0, cuts[0]);
      DropsEffect(t, service.id, 0, cuts[0]);
      RemovalAccepted(t, key);
      RemovalAccepted(t1, key);
      RefusedAgain(t1, key, cuts[1..]);
    }
  }
}
