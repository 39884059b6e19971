/** The agent's single map writes interleaved with the two unlocked reads of
    any number of connect programs.  Any write may fail. */
module ServiceInterleaving {
  import opened NetTypes
  import opened ServiceTable
  import opened ServiceSpec
  import opened Connect4

  type Write4 = Write<ServiceKeyV4, EndpointValueV4>
  type Write6 = Write<ServiceKeyV6, EndpointValueV6>
  type Supply = (ServiceKeyV4, EndpointValueV4)

  /** The call that holds the state lock: the id it will answer with and the
      writes it still has to perform. */
  datatype Job =
    | Idle
    | Job4(key: ServiceKeyV4, inserting: bool, answer: Id, todo4: seq<Write4>)
    | Job6(answer: Id, todo6: seq<Write6>)

  /** A connect program between its two reads: it copied a service entry with
      a positive count and drew a random word. */
  datatype Reader = Reader(key: ServiceKeyV4, service: ServiceValue, rand: u32)

  /** `owner`, `supplied` and `rewrites` only record what has happened: for
      which key an id was last written, which endpoints started updates
      supplied for a key, and which rewrites connect programs made. */
  datatype World = World(
    s: State, job: Job, readers: map<nat, Reader>,
    owner: map<Id, ServiceKeyV4>, supplied: set<Supply>, rewrites: set<Supply>)

  datatype Event =
    | Start(op: Op)
    | Perform
    | Fail
    | Finish
    | ReadService(reader: nat, key: ServiceKeyV4, rand: u32)
    | ReadEndpoint(reader: nat)

  function Initial(): World {
    World(EMPTY, Idle, map[], map[], {}, {})
  }

  function StartJob(s: State, op: Op): Job {
    match op
    case Update(V4(k), value) =>
      Job4(k, Inserts(s, op), if Rejected(op) then s.id else AnswerId(s.v4, k, s.id),
           UpdateWrites(s.v4, k, OnlyV4(value), s.id))
    case Update(V6(k), value) =>
      Job6(if Rejected(op) then s.id else AnswerId(s.v6, k, s.id), UpdateWrites(s.v6, k, OnlyV6(value), s.id))
    case Remove(V4(k)) => Job4(k, false, s.id, RemoveWrites(s.v4, k))
    case Remove(V6(k)) => Job6(s.id, RemoveWrites(s.v6, k))
  }

  function Supplied(op: Op): set<Supply> {
    match op
    case Update(V4(k), value) => set e | e in OnlyV4(value) :: (k, e)
    case _ => {}
  }

  predicate Writing(job: Job) {
    (job.Job4? && job.todo4 != []) || (job.Job6? && job.todo6 != [])
  }

  predicate Enabled(w: World, e: Event) {
    match e
    case Start(_) => w.job.Idle?
    case Perform => Writing(w.job)
    case Fail => Writing(w.job)
    case Finish => !w.job.Idle? && !Writing(w.job)
    case ReadService(r, _, _) => r !in w.readers
    case ReadEndpoint(r) => r in w.readers && w.readers[r].service.count > 0
  }

  function Fire(w: World, e: Event): World
    requires Enabled(w, e)
  {
    match e
    case Start(op) => w.(job := StartJob(w.s, op), supplied := w.supplied + Supplied(op))
    case Perform =>
      if w.job.Job4? then
        var next := w.job.todo4[0];
        w.(s := w.s.(v4 := ServiceTable.Perform(w.s.v4, next)),
           job := w.job.(todo4 := w.job.todo4[1..]),
           owner := if next.PutService? then w.owner[next.service.id := next.key] else w.owner)
      else
        w.(s := w.s.(v6 := ServiceTable.Perform(w.s.v6, w.job.todo6[0])), job := w.job.(todo6 := w.job.todo6[1..]))
    case Fail => w.(job := Idle)
    case Finish => w.(s := w.s.(id := if w.job.answer > w.s.id then Increment(w.s.id) else w.s.id), job := Idle)
    case ReadService(r, key, rand) =>
      if key in w.s.v4.services && w.s.v4.services[key].count > 0
      then w.(readers := w.readers[r := Reader(key, w.s.v4.services[key], rand)])
      else w
    case ReadEndpoint(r) =>
      var reader := w.readers[r];
      var at := EndpointKey(reader.service.id, Position(reader.rand, reader.service.count));
      w.(readers := w.readers - {r},
         rewrites := if at in w.s.v4.endpoints then w.rewrites + {(reader.key, w.s.v4.endpoints[at])} else w.rewrites)
  }

  // ---------- Invariant ----------

  /** An insertion that has not written its service entry yet. */
  predicate Claiming(job: Job) {
    job.Job4? && job.inserting && job.todo4 != [] && job.todo4[0].PutService?
  }

  /** An insertion that has written its service entry. */
  predicate Claimed(job: Job) {
    job.Job4? && job.inserting && !Claiming(job)
  }

  /** Ids with an owner have been issued, or are being issued now. */
  ghost predicate IdsIssued(w: World) {
    forall id :: id in w.owner ==> id < w.s.id || (id == w.s.id && Claimed(w.job))
  }

  ghost predicate TablesOwned(w: World) {
    && (forall k :: k in w.s.v4.services ==>
          w.s.v4.services[k].id in w.owner && w.owner[w.s.v4.services[k].id] == k)
    && (forall e :: e in w.s.v4.endpoints ==>
          e.id in w.owner && (w.owner[e.id], w.s.v4.endpoints[e]) in w.supplied)
  }

  ghost predicate ReadersOwned(w: World) {
    forall r :: r in w.readers ==>
      && w.readers[r].service.count > 0
      && w.readers[r].service.id in w.owner && w.owner[w.readers[r].service.id] == w.readers[r].key
  }

  /** What the write at the head of a V4 job, and those behind it, may be. */
  ghost predicate TodoOwned(w: World) {
    w.job.Job4? ==>
      && (w.job.inserting ==> w.job.answer == Increment(w.s.id))
      && (!w.job.inserting ==> w.job.answer <= w.s.id)
      && (Claiming(w.job) ==>
            && w.job.todo4[0].key == w.job.key && w.job.todo4[0].service.id == w.s.id
            && |w.job.todo4| == 1 + w.job.todo4[0].service.count)
      && (Claimed(w.job) ==> w.s.id in w.owner && w.owner[w.s.id] == w.job.key && EntryWritten(w))
      && forall i :: 0 <= i < |w.job.todo4| ==> WriteOwned(w, i, w.job.todo4[i])
  }

  /** The inserted service's entry is there, under the id being issued, and
      counts at least the endpoints still to be written. */
  predicate EntryWritten(w: World)
    requires w.job.Job4?
  {
    && w.job.key in w.s.v4.services
    && w.s.v4.services[w.job.key].id == w.s.id
    && |w.job.todo4| <= w.s.v4.services[w.job.key].count
  }

  ghost predicate WriteOwned(w: World, i: nat, write: Write4)
    requires w.job.Job4?
  {
    match write
    case PutService(_, _) => i == 0 && w.job.inserting
    case PutEndpoint(at, e) =>
      && (w.job.key, e) in w.supplied
      && if w.job.inserting then at.id == w.s.id else at.id in w.owner && w.owner[at.id] == w.job.key
    case DropService(_) => !w.job.inserting
    case DropEndpoint(_) => true
  }

  ghost predicate Inv(w: World) {
    && IdsIssued(w) && TablesOwned(w) && ReadersOwned(w) && TodoOwned(w)
    && w.rewrites <= w.supplied
  }

  /** The events after which an id can be issued again: an insertion that
      wrote its service entry fails on an endpoint, or finishes at the last
      counter value. */
  predicate Bad(w: World, e: Event) {
    Claimed(w.job) && (e.Fail? || (e.Finish? && w.s.id == 0xFFFF))
  }

  lemma StartKeeps(w: World, op: Op)
    requires Inv(w) && w.job.Idle?
    ensures Inv(Fire(w, Start(op)))
  {
    var w' := Fire(w, Start(op));
    match op {
      case Update(V4(k), value) =>
        forall i | 0 <= i < |w'.job.todo4|
          ensures WriteOwned(w', i, w'.job.todo4[i])
        {
        }
      case Remove(V4(k)) =>
        forall i | 0 <= i < |w'.job.todo4|
          ensures WriteOwned(w', i, w'.job.todo4[i])
        {
        }
      case _ =>
    }
  }

  lemma PerformKeeps(w: World)
    requires Inv(w) && Writing(w.job)
    ensures Inv(Fire(w, Perform))
  {
    var w' := Fire(w, Perform);
    if w.job.Job4? {
      assert WriteOwned(w, 0, w.job.todo4[0]);
      forall i | 0 <= i < |w'.job.todo4|
        ensures WriteOwned(w', i, w'.job.todo4[i])
      {
        assert WriteOwned(w, i + 1, w.job.todo4[i + 1]);
      }
    }
  }

  lemma ReadEndpointKeeps(w: World, r: nat)
    requires Inv(w) && Enabled(w, ReadEndpoint(r))
    ensures Inv(Fire(w, ReadEndpoint(r)))
  {
    var w' := Fire(w, ReadEndpoint(r));
    if w.job.Job4? {
      forall i | 0 <= i < |w'.job.todo4|
        ensures WriteOwned(w', i, w'.job.todo4[i])
      {
        assert WriteOwned(w, i, w.job.todo4[i]);
      }
    }
  }

  lemma ReadServiceKeeps(w: World, e: Event)
    requires Inv(w) && Enabled(w, e) && e.ReadService?
    ensures Inv(Fire(w, e))
  {
    var w' := Fire(w, e);
    if w.job.Job4? {
      forall i | 0 <= i < |w'.job.todo4|
        ensures WriteOwned(w', i, w'.job.todo4[i])
      {
        assert WriteOwned(w, i, w.job.todo4[i]);
      }
    }
  }

  /** Every event keeps the invariant, except exactly the bad ones. */
  lemma InvKeptExactly(w: World, e: Event)
    requires Inv(w) && Enabled(w, e)
    ensures Inv(Fire(w, e)) <==> !Bad(w, e)
  {
    match e
    case Start(op) => StartKeeps(w, op);
    case Perform => PerformKeeps(w);
    case Fail =>
    case Finish =>
    case ReadService(_, _, _) => ReadServiceKeeps(w, e);
    case ReadEndpoint(r) => ReadEndpointKeeps(w, r);
  }

  // ---------- Runs ----------

  predicate IsRun(w: World, es: seq<Event>)
    decreases |es|
  {
    es == [] || (Enabled(w, es[0]) && IsRun(Fire(w, es[0]), es[1..]))
  }

  predicate NoneBad(w: World, es: seq<Event>)
    requires IsRun(w, es)
    decreases |es|
  {
    es == [] || (!Bad(w, es[0]) && NoneBad(Fire(w, es[0]), es[1..]))
  }

  function After(w: World, es: seq<Event>): World
    requires IsRun(w, es)
    decreases |es|
  {
    if es == [] then w else After(Fire(w, es[0]), es[1..])
  }

  lemma {:induction false} RunKeeps(w: World, es: seq<Event>)
    requires Inv(w) && IsRun(w, es) && NoneBad(w, es)
    ensures Inv(After(w, es))
    decreases |es|
  {
    if es != [] {
      InvKeptExactly(w, es[0]);
      RunKeeps(Fire(w, es[0]), es[1..]);
    }
  }

  /** Lookup safety: from empty maps, however map writes, failed writes and
      both reads of any number of connect programs interleave, every rewrite
      made for a key leads to an endpoint that a started update supplied for
      that key, as long as no event is bad. */
  lemma RewritesAreSupplied(es: seq<Event>)
    requires IsRun(Initial(), es) && NoneBad(Initial(), es)
    ensures After(Initial(), es).rewrites <= After(Initial(), es).supplied
  {
    RunKeeps(Initial(), es);
  }

  /** Every endpoint entry that can be read through a service entry, at any
      position, was supplied for that service's key: what a grown and then
      removed service leaves behind is never read through another entry. */
  lemma ReadableWereSupplied(es: seq<Event>, k: ServiceKeyV4, at: EndpointKey)
    requires IsRun(Initial(), es) && NoneBad(Initial(), es)
    requires k in After(Initial(), es).s.v4.services && at in After(Initial(), es).s.v4.endpoints
    requires After(Initial(), es).s.v4.services[k].id == at.id
    ensures (k, After(Initial(), es).s.v4.endpoints[at]) in After(Initial(), es).supplied
  {
    RunKeeps(Initial(), es);
  }

  lemma RunCons(w: World, e: Event, es: seq<Event>)
    requires Enabled(w, e) && IsRun(Fire(w, e), es)
    ensures IsRun(w, [e] + es) && After(w, [e] + es) == After(Fire(w, e), es)
  {
    assert ([e] + es)[1..] == es;
  }

  /** With a bad event the property fails: after one failed endpoint write in
      an insertion, connecting to that service leads to another service's
      backend. */
  lemma FailedInsertMisroutes(k: ServiceKeyV4, l: ServiceKeyV4, a: EndpointValueV4, b: EndpointValueV4)
    returns (es: seq<Event>)
    requires k != l && a != b
    ensures IsRun(Initial(), es)
    ensures (k, b) in After(Initial(), es).rewrites && (k, b) !in After(Initial(), es).supplied
  {
    var first, second := Start(Update(V4(k), [E4(a)])), Start(Update(V4(l), [E4(b)]));
    assert Wrap4([a]) == [E4(a)] && Wrap4([b]) == [E4(b)];
    FilterKeepsFamily4([a]);
    FilterKeepsFamily4([b]);
    var w0 := Initial();
    var w1 := Fire(w0, first);
    assert w1.supplied == {(k, a)};
    var w2 := Fire(w1, Perform);
    assert w2.job.todo4 == [PutEndpoint(EndpointKey(FIRST_ID, 0), a)];
    var w3 := Fire(w2, Fail);
    var w4 := Fire(w3, second);
    assert w4.supplied == {(k, a), (l, b)};
    var w5 := Fire(w4, Perform);
    assert w5.job.todo4 == [PutEndpoint(EndpointKey(FIRST_ID, 0), b)];
    var w6 := Fire(w5, Perform);
    var read, lookup := ReadService(0, k, 0), ReadEndpoint(0);
    var w7 := Fire(w6, read);
    PositionReached(0, 1);
    assert w7.readers[0] == Reader(k, ServiceValue(FIRST_ID, 1), 0);
    assert EndpointKey(FIRST_ID, 0) in w7.s.v4.endpoints;
    var w8 := Fire(w7, lookup);
    RunCons(w7, lookup, []);
    RunCons(w6, read, [lookup]);
    RunCons(w5, Perform, [read, lookup]);
    RunCons(w4, Perform, [Perform, read, lookup]);
    RunCons(w3, second, [Perform, Perform, read, lookup]);
    RunCons(w2, Fail, [second, Perform, Perform, read, lookup]);
    RunCons(w1, Perform, [Fail, second, Perform, Perform, read, lookup]);
    RunCons(w0, first, [Perform, Fail, second, Perform, Perform, read, lookup]);
    es := [first] + [Perform, Fail, second, Perform, Perform, read, lookup];
  }

  // ---------- The calls of the agent are runs of this system ----------

  function Performs(n: nat): seq<Event> {
    if n == 0 then [] else [Perform] + Performs(n - 1)
  }

  lemma {:induction false} RunConcat(w: World, a: seq<Event>, b: seq<Event>)
    requires IsRun(w, a) && IsRun(After(w, a), b)
    ensures IsRun(w, a + b) && After(w, a + b) == After(After(w, a), b)
    decreases |a|
  {
    if a == [] {
      assert a + b == b;
    } else {
      RunConcat(Fire(w, a[0]), a[1..], b);
      assert a + b == [a[0]] + (a[1..] + b);
      RunCons(w, a[0], a[1..] + b);
    }
  }

  /** `n` performed writes leave the table after the first `n` writes of the
      job, and the rest of the job. */
  lemma {:induction false} Performs4Run(w: World, n: nat)
    requires w.job.Job4? && n <= |w.job.todo4|
    ensures IsRun(w, Performs(n))
    ensures var w' := After(w, Performs(n));
      && w'.job == w.job.(todo4 := w.job.todo4[n..])
      && w'.s == w.s.(v4 := PerformAll(w.s.v4, w.job.todo4[..n]))
    decreases n
  {
    if n > 0 {
      var todo := w.job.todo4;
      Performs4Run(Fire(w, Perform), n - 1);
      RunCons(w, Perform, Performs(n - 1));
      FirstThenRest(w.s.v4, todo, n);
      assert todo[1..][n - 1..] == todo[n..];
    }
  }

  lemma {:induction false} Performs6Run(w: World, n: nat)
    requires w.job.Job6? && n <= |w.job.todo6|
    ensures IsRun(w, Performs(n))
    ensures var w' := After(w, Performs(n));
      && w'.job == w.job.(todo6 := w.job.todo6[n..])
      && w'.s == w.s.(v6 := PerformAll(w.s.v6, w.job.todo6[..n]))
    decreases n
  {
    if n > 0 {
      var todo := w.job.todo6;
      Performs6Run(Fire(w, Perform), n - 1);
      RunCons(w, Perform, Performs(n - 1));
      FirstThenRest(w.s.v6, todo, n);
      assert todo[1..][n - 1..] == todo[n..];
    }
  }

  lemma FirstThenRest<SK, EV>(t: Tables<SK, EV>, ws: seq<Write<SK, EV>>, n: nat)
    requires 0 < n <= |ws|
    ensures PerformAll(t, ws[..n]) == PerformAll(ServiceTable.Perform(t, ws[0]), ws[1..][..n - 1])
  {
    assert ws[..n] == [ws[0]] + ws[1..][..n - 1];
    PerformAllConcat(t, [ws[0]], ws[1..][..n - 1]);
    PerformOne(t, ws[0]);
  }

  function WritesLeft(job: Job): nat {
    match job
    case Idle => 0
    case Job4(_, _, _, todo) => |todo|
    case Job6(_, todo) => |todo|
  }

  /** The events of a job that performs `n` more writes and then ends. */
  function EndEvents(job: Job, n: nat): seq<Event> {
    Performs(n) + [if n < WritesLeft(job) then Fail else Finish]
  }

  /** The state such a job leaves. */
  function EndState(s: State, job: Job, n: nat): State
    requires n <= WritesLeft(job)
  {
    match job
    case Idle => s
    case Job4(_, _, answer, todo) =>
      State(PerformAll(s.v4, todo[..n]), s.v6, if n == |todo| && answer > s.id then Increment(s.id) else s.id)
    case Job6(answer, todo) =>
      State(s.v4, PerformAll(s.v6, todo[..n]), if n == |todo| && answer > s.id then Increment(s.id) else s.id)
  }

  lemma JobEnds(w: World, n: nat)
    requires !w.job.Idle? && n <= WritesLeft(w.job)
    ensures IsRun(w, EndEvents(w.job, n))
    ensures After(w, EndEvents(w.job, n)).s == EndState(w.s, w.job, n)
    ensures After(w, EndEvents(w.job, n)).job.Idle?
  {
    var last := if n < WritesLeft(w.job) then Fail else Finish;
    if w.job.Job4? {
      Performs4Run(w, n);
    } else {
      Performs6Run(w, n);
    }
    var w' := After(w, Performs(n));
    assert Writing(w'.job) <==> n < WritesLeft(w.job);
    RunCons(w', last, []);
    assert [last] + [] == [last];
    RunConcat(w, Performs(n), [last]);
  }

  lemma StartedJobEnds(s: State, op: Op, done: nat)
    requires done <= WriteCount(s, op)
    ensures WritesLeft(StartJob(s, op)) == WriteCount(s, op)
    ensures EndState(s, StartJob(s, op), done) == Step(s, op, done)
  {}

  /** Undisturbed, one call of the agent that performs `done` writes is a run of
      this system that ends in exactly the state the agent's method ends in. */
  lemma CallIsRun(w: World, op: Op, done: nat)
    requires w.job.Idle? && done <= WriteCount(w.s, op)
    ensures var es := [Start(op)] + EndEvents(StartJob(w.s, op), done);
      IsRun(w, es) && After(w, es).s == Step(w.s, op, done) && After(w, es).job.Idle?
  {
    var w1 := Fire(w, Start(op));
    StartedJobEnds(w.s, op, done);
    JobEnds(w1, done);
    RunCons(w, Start(op), EndEvents(w1.job, done));
  }

  /** Undisturbed, the two reads rewrite to what `Decide` says for the tables
      at that moment, and make no rewrite when it allows or denies. */
  lemma ReadsDecide(w: World, r: nat, key: ServiceKeyV4, rand: u32)
    requires r !in w.readers
    ensures var read := ReadService(r, key, rand);
      var outcome := Decide(w.s.v4, key, rand);
      if Enabled(Fire(w, read), ReadEndpoint(r)) then
        var w' := Fire(Fire(w, read), ReadEndpoint(r));
        !outcome.Deny? && w'.rewrites == w.rewrites + (if outcome.Rewrite? then {(key, outcome.to)} else {})
      else
        !outcome.Rewrite? && Fire(w, read) == w
  {
    if key in w.s.v4.services && w.s.v4.services[key].count > 0 {
      assert Fire(w, ReadService(r, key, rand)).readers[r] == Reader(key, w.s.v4.services[key], rand);
    }
  }
}
