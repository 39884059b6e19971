/** Exactly when lookup safety is lost: a bad event is what lets some later run,
    itself without bad events, rewrite a lookup to an endpoint nobody supplied
    for its key. */
module ServiceMisrouting {
  import opened NetTypes
  import opened ServiceTable
  import opened ServiceSpec
  import opened Connect4
  import opened ServiceInterleaving

  /** Some continuation without bad events makes a rewrite that no started
      update supplied. */
  ghost predicate CanGoAstray(w: World) {
    exists es :: GoesAstray(w, es)
  }

  ghost predicate GoesAstray(w: World, es: seq<Event>) {
    IsRun(w, es) && NoneBad(w, es) && !(After(w, es).rewrites <= After(w, es).supplied)
  }

  lemma AstrayCons(w: World, e: Event, es: seq<Event>)
    requires Enabled(w, e) && !Bad(w, e) && GoesAstray(Fire(w, e), es)
    ensures GoesAstray(w, [e] + es)
  {
    assert ([e] + es)[1..] == es;
  }

  lemma AstrayNow(w: World, s: Supply)
    requires s in w.rewrites && s !in w.supplied
    ensures GoesAstray(w, [])
  {}

  /** Both reads of `k`, at position 0, find an endpoint nobody supplied for it. */
  lemma ReadsGoAstray(w: World, r: nat, k: ServiceKeyV4)
    requires r !in w.readers && k in w.s.v4.services && w.s.v4.services[k].count > 0
    requires var at := EndpointKey(w.s.v4.services[k].id, 0);
      at in w.s.v4.endpoints && (k, w.s.v4.endpoints[at]) !in w.supplied
    ensures GoesAstray(w, [ReadService(r, k, 0), ReadEndpoint(r)])
  {
    var service := w.s.v4.services[k];
    var w1 := Fire(w, ReadService(r, k, 0));
    PositionReached(0, service.count);
    assert w1.readers[r] == Reader(k, service, 0);
    AstrayNow(Fire(w1, ReadEndpoint(r)), (k, w.s.v4.endpoints[EndpointKey(service.id, 0)]));
    AstrayCons(w1, ReadEndpoint(r), []);
    assert [ReadEndpoint(r)] + [] == [ReadEndpoint(r)];
    AstrayCons(w, ReadService(r, k, 0), [ReadEndpoint(r)]);
    assert [ReadService(r, k, 0)] + [ReadEndpoint(r)] == [ReadService(r, k, 0), ReadEndpoint(r)];
  }

  /** The id of `k` is about to be issued again. */
  predicate Reissuable(w: World, k: ServiceKeyV4) {
    w.job.Idle? && k in w.s.v4.services && w.s.v4.services[k].id == w.s.id
  }

  /** Starting the insertion of a new service with one backend. */
  lemma StartInsertion(w: World, l: ServiceKeyV4, b: EndpointValueV4)
    requires w.job.Idle? && l !in w.s.v4.services
    ensures var w' := Fire(w, Start(Update(V4(l), [E4(b)])));
      && w'.s == w.s && w'.readers == w.readers && w'.supplied == w.supplied + {(l, b)}
      && w'.job == Job4(l, true, Increment(w.s.id),
           [PutService(l, ServiceValue(w.s.id, 1)), PutEndpoint(EndpointKey(w.s.id, 0), b)])
  {
    hide OnlyV4;
    assert Wrap4([b]) == [E4(b)];
    FilterKeepsFamily4([b]);
    assert OnlyV4([E4(b)]) == [b];
  }

  /** A new service takes the id over and its first backend lands under `k`. */
  lemma TakeoverGoesAstray(w: World, k: ServiceKeyV4, l: ServiceKeyV4, b: EndpointValueV4, r: nat)
    requires Reissuable(w, k) && w.s.v4.services[k].count > 0
    requires l !in w.s.v4.services && (k, b) !in w.supplied && r !in w.readers
    ensures CanGoAstray(w)
  {
    var start := Start(Update(V4(l), [E4(b)]));
    var lookup := [ReadService(r, k, 0), ReadEndpoint(r)];
    StartInsertion(w, l, b);
    var w1 := Fire(w, start);
    var w2 := Fire(w1, Perform);
    var w3 := Fire(w2, Perform);
    assert w2.job.todo4 == [PutEndpoint(EndpointKey(w.s.id, 0), b)];
    ReadsGoAstray(w3, r, k);
    AstrayCons(w2, Perform, lookup);
    AstrayCons(w1, Perform, [Perform] + lookup);
    AstrayCons(w, start, [Perform] + ([Perform] + lookup));
  }

  /** A backend already sits under the id about to be issued: a new service
      shows it before its own backend is written. */
  lemma LeftoverGoesAstray(w: World, l: ServiceKeyV4, b: EndpointValueV4, r: nat)
    requires w.job.Idle? && l !in w.s.v4.services && (l, b) !in w.supplied && r !in w.readers
    requires EndpointKey(w.s.id, 0) in w.s.v4.endpoints && w.s.v4.endpoints[EndpointKey(w.s.id, 0)] == b
    ensures CanGoAstray(w)
  {
    var other := b.(port := if b.port == 0 then 1 else 0);
    var start := Start(Update(V4(l), [E4(other)]));
    var lookup := [ReadService(r, l, 0), ReadEndpoint(r)];
    StartInsertion(w, l, other);
    var w1 := Fire(w, start);
    var w2 := Fire(w1, Perform);
    ReadsGoAstray(w2, r, l);
    AstrayCons(w1, Perform, lookup);
    AstrayCons(w, start, [Perform] + lookup);
  }

  /** An empty service with a reissuable id receives a backend, which a new
      service under the same id then shows. */
  lemma EmptyTakeoverGoesAstray(w: World, k: ServiceKeyV4, l: ServiceKeyV4, b: EndpointValueV4, r: nat)
    requires Reissuable(w, k) && w.s.v4.services[k].count == 0
    requires l !in w.s.v4.services && (l, b) !in w.supplied && r !in w.readers
    ensures CanGoAstray(w)
  {
    var update := Start(Update(V4(k), [E4(b)]));
    assert Wrap4([b]) == [E4(b)];
    FilterKeepsFamily4([b]);
    var w1 := Fire(w, update);
    assert w1.job == Job4(k, false, w.s.id, [PutEndpoint(EndpointKey(w.s.id, 0), b)]);
    var w2 := Fire(w1, Perform);
    var w3 := Fire(w2, Finish);
    LeftoverGoesAstray(w3, l, b, r);
    var es :| GoesAstray(w3, es);
    AstrayCons(w2, Finish, es);
    AstrayCons(w1, Perform, [Finish] + es);
    AstrayCons(w, update, [Perform] + ([Finish] + es));
  }

  /** The exact condition of lookup safety.  After any run from empty maps
      without bad events, an event is bad if and only if it makes it possible
      that later events, none of them bad, rewrite a lookup to an endpoint that
      no started update supplied for its key.  The run needs a key that is not
      in use, a backend no update has supplied yet, and a connect program. */
  lemma MisroutesExactly(past: seq<Event>, e: Event, l: ServiceKeyV4, b: EndpointValueV4, r: nat)
    requires IsRun(Initial(), past) && NoneBad(Initial(), past)
    requires Enabled(After(Initial(), past), e)
    requires l !in After(Initial(), past).s.v4.services
    requires forall k :: (k, b) !in After(Initial(), past).supplied
    requires r !in After(Initial(), past).readers
    ensures Bad(After(Initial(), past), e) <==> CanGoAstray(Fire(After(Initial(), past), e))
  {
    var w := After(Initial(), past);
    RunKeeps(Initial(), past);
    if Bad(w, e) {
      BadGoesAstray(w, e, l, b, r);
    } else if CanGoAstray(Fire(w, e)) {
      var es :| GoesAstray(Fire(w, e), es);
      InvKeptExactly(w, e);
      RunKeeps(Fire(w, e), es);
    }
  }

  lemma BadGoesAstray(w: World, e: Event, l: ServiceKeyV4, b: EndpointValueV4, r: nat)
    requires Inv(w) && Enabled(w, e) && Bad(w, e)
    requires l !in w.s.v4.services && r !in w.readers && forall k :: (k, b) !in w.supplied
    ensures CanGoAstray(Fire(w, e))
  {
    var w', k := Fire(w, e), w.job.key;
    assert Reissuable(w', k);
    if w'.s.v4.services[k].count > 0 {
      TakeoverGoesAstray(w', k, l, b, r);
    } else {
      EmptyTakeoverGoesAstray(w', k, l, b, r);
    }
  }
}
