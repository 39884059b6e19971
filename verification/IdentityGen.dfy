/** Generating the identities the pods of a namespace need, and giving a pod's
    addresses its identity. */
module IdentityGen {
  import opened NetTypes
  import opened Sequences
  import opened IdentityLookup

  type Labels = map<string, string>

  const REMOVED_LABELS := ["controller-revision-hash", "pod-template-hash", "pod-template-generation"]

  datatype Namespace = Namespace(name: string, labels: Labels)
  datatype Pod = Pod(namespace: Option<string>, labels: Labels, hostNetwork: bool, ips: seq<string>)
  datatype Identity = Identity(name: string, namespaceLabels: Labels, podLabels: Labels, id: IdentityId)

  /** Stored identities by namespace and name. */
  type Identities = map<(string, string), Identity>

  /** The name of an identity: a hash of both label maps. */
  type Hash = (Labels, Labels) -> string

  function Sanitized(labels: Labels): Labels {
    map k | k in labels && k !in REMOVED_LABELS :: labels[k]
  }

  /** Every label but these three is kept, with its value. */
  method SanitizePodLabels(labels: Labels) returns (r: Labels)
    ensures r == Sanitized(labels)
    ensures forall k :: k in r <==>
      && k in labels
      && k != "controller-revision-hash" && k != "pod-template-hash" && k != "pod-template-generation"
    ensures forall k :: k in r ==> r[k] == labels[k]
  {
    r := labels;
    for i := 0 to |REMOVED_LABELS|
      invariant r == map k | k in labels && k !in REMOVED_LABELS[..i] :: labels[k]
    {
      r := r - {REMOVED_LABELS[i]};
    }
    assert REMOVED_LABELS[..|REMOVED_LABELS|] == REMOVED_LABELS;
    CleanedAlikeExactly(labels, labels);
  }

  /** Whatever is in the three labels does not matter and everything else does:
      two pods have the same cleaned labels exactly if they agree on all others. */
  lemma CleanedAlikeExactly(a: Labels, b: Labels)
    ensures Sanitized(a) == Sanitized(b) <==>
      forall k :: k == "controller-revision-hash" || k == "pod-template-hash" || k == "pod-template-generation"
                  || (k !in a && k !in b) || (k in a && k in b && a[k] == b[k])
  {
    forall k
      ensures k in REMOVED_LABELS <==>
        k == "controller-revision-hash" || k == "pod-template-hash" || k == "pod-template-generation"
      ensures k in Sanitized(a) <==> k in a && k !in REMOVED_LABELS
      ensures k in Sanitized(b) <==> k in b && k !in REMOVED_LABELS
    {
    }
    if Sanitized(a) == Sanitized(b) {
      forall k | k in a && k in b && k !in REMOVED_LABELS
        ensures a[k] == b[k]
      {
        assert Sanitized(a)[k] == Sanitized(b)[k];
      }
    }
  }

  function NameOf(ns: Namespace, pod: Pod, hash: Hash): string {
    hash(ns.labels, Sanitized(pod.labels))
  }

  /** Pods of one namespace that agree on every label but the three get the same
      name, and with an injective hash only those do. */
  lemma SameNameExactly(ns: Namespace, a: Pod, b: Pod, hash: Hash)
    ensures var alike := forall k ::
        k == "controller-revision-hash" || k == "pod-template-hash" || k == "pod-template-generation"
        || (k !in a.labels && k !in b.labels) || (k in a.labels && k in b.labels && a.labels[k] == b.labels[k]);
      && (alike ==> NameOf(ns, a, hash) == NameOf(ns, b, hash))
      && (Injective(hash) ==> (alike <==> NameOf(ns, a, hash) == NameOf(ns, b, hash)))
  {
    CleanedAlikeExactly(a.labels, b.labels);
  }

  predicate InNamespace(pod: Pod, ns: Namespace) {
    pod.namespace == Some(ns.name)
  }

  predicate UsesId(store: Identities, id: IdentityId) {
    exists key :: key in store && store[key].id == id
  }

  /** An identity generated for this name: its labels hash to the name and no
      stored identity uses its id. */
  predicate Generated(identity: Identity, name: string, store: Identities, ns: Namespace, hash: Hash) {
    && identity.name == name && identity.namespaceLabels == ns.labels
    && hash(ns.labels, identity.podLabels) == name
    && !UsesId(store, identity.id)
  }

  /** No stored identity has this name, so the pass generates one. */
  predicate New(name: string, store: Identities, ns: Namespace) {
    (ns.name, name) !in store
  }

  /** The stored identity of this name if there is one, else a generated one. */
  predicate Wanted(identity: Identity, name: string, store: Identities, ns: Namespace, hash: Hash) {
    if (ns.name, name) in store then identity == store[(ns.name, name)]
    else Generated(identity, name, store, ns, hash)
  }

  /** From `from` on, the random source draws an id that is not used. */
  ghost predicate UnusedFrom(draws: nat -> IdentityId, store: Identities, from: nat) {
    exists n :: from <= n && !UsesId(store, draws(n))
  }

  /** The first draw from `from` on whose id is not used, if there is one. */
  ghost function NextUnused(draws: nat -> IdentityId, store: Identities, from: nat): (n: nat)
    ensures from <= n
    ensures UnusedFrom(draws, store, from) ==>
      !UsesId(store, draws(n)) && forall m :: from <= m < n ==> UsesId(store, draws(m))
  {
    if !UnusedFrom(draws, store, from) then from else
      var hit :| from <= hit && !UsesId(store, draws(hit));
      FirstUnused(draws, store, from, hit)
  }

  ghost function FirstUnused(draws: nat -> IdentityId, store: Identities, from: nat, hit: nat): (n: nat)
    requires from <= hit && !UsesId(store, draws(hit))
    ensures from <= n && !UsesId(store, draws(n)) && forall m :: from <= m < n ==> UsesId(store, draws(m))
    decreases hit - from
  {
    if UsesId(store, draws(from)) then FirstUnused(draws, store, from + 1, hit) else from
  }

  method DrawUnused(store: Identities, draws: nat -> IdentityId, from: nat) returns (candidate: IdentityId, next: nat)
    requires UnusedFrom(draws, store, from)
    ensures next == NextUnused(draws, store, from) + 1 && candidate == draws(next - 1)
    ensures !UsesId(store, candidate) && forall n :: from <= n < next - 1 ==> UsesId(store, draws(n))
  {
    var used: set<IdentityId> := {};
    var rest := store.Keys;
    while rest != {}
      invariant rest <= store.Keys
      invariant forall id :: id in used <==> exists key :: key in store && key !in rest && store[key].id == id
      decreases rest
    {
      var key :| key in rest;
      used := used + {store[key].id};
      rest := rest - {key};
    }
    assert forall id :: id in used <==> UsesId(store, id);
    ghost var hit := NextUnused(draws, store, from);
    next := from;
    while true
      invariant from <= next <= hit
      invariant forall n :: from <= n < next ==> UsesId(store, draws(n))
      decreases hit - next
    {
      candidate := draws(next);
      next := next + 1;
      if candidate !in used {
        return;
      }
    }
  }

  method GetOrGenerateIdentity(
      store: Identities, ns: Namespace, pod: Pod, hash: Hash, draws: nat -> IdentityId, from: nat)
    returns (identity: Identity, next: nat)
    requires forall key :: key in store ==> store[key].name == key.1
    requires New(NameOf(ns, pod, hash), store, ns) ==> UnusedFrom(draws, store, from)
    ensures var cleaned := map k |
        && k in pod.labels
        && k != "controller-revision-hash" && k != "pod-template-hash" && k != "pod-template-generation"
        :: pod.labels[k];
      identity.name == hash(ns.labels, cleaned)
    ensures identity.name == NameOf(ns, pod, hash) && Wanted(identity, NameOf(ns, pod, hash), store, ns, hash)
    ensures next == if New(identity.name, store, ns) then NextUnused(draws, store, from) + 1 else from
    ensures New(identity.name, store, ns) ==>
      identity.podLabels == Sanitized(pod.labels) && identity.id == draws(NextUnused(draws, store, from))
  {
    var podLabels := SanitizePodLabels(pod.labels);
    var name := hash(ns.labels, podLabels);
    assert podLabels == map k |
        && k in pod.labels
        && k != "controller-revision-hash" && k != "pod-template-hash" && k != "pod-template-generation"
        :: pod.labels[k];
    if (ns.name, name) in store {
      return store[(ns.name, name)], from;
    }
    var id;
    id, next := DrawUnused(store, draws, from);
    identity := Identity(name, ns.labels, podLabels, id);
  }

  /** The API server's identities; any call may fail, and `faults` counts those
      that did. */
  class IdentityApi {
    var identities: Identities
    ghost var faults: nat

    method Patch(namespace: string, identity: Identity) returns (ok: bool)
      modifies this
      ensures identities == if ok then old(identities)[(namespace, identity.name) := identity] else old(identities)
      ensures faults == old(faults) + if ok then 0 else 1
    {
      if * {
        faults := faults + 1;
        return false;
      }
      identities := identities[(namespace, identity.name) := identity];
      ok := true;
    }

    method Delete(namespace: string, name: string) returns (ok: bool)
      modifies this
      ensures identities == if ok then old(identities) - {(namespace, name)} else old(identities)
      ensures faults == old(faults) + if ok then 0 else 1
    {
      if * {
        faults := faults + 1;
        return false;
      }
      identities := identities - {(namespace, name)};
      ok := true;
    }
  }

  /** Some pod of the namespace needs an identity of this name. */
  predicate Needed(name: string, pods: seq<Pod>, ns: Namespace, hash: Hash) {
    exists i :: 0 <= i < |pods| && InNamespace(pods[i], ns) && NameOf(ns, pods[i], hash) == name
  }

  /** What a pass makes of the stored identities: exactly the needed ones stay
      in the namespace, the others elsewhere are untouched, what was there keeps
      its content and id, and what is new was generated. */
  ghost predicate Converged(before: Identities, after: Identities, pods: seq<Pod>, ns: Namespace, hash: Hash) {
    && (forall key :: key in after <==> if key.0 == ns.name then Needed(key.1, pods, ns, hash) else key in before)
    && (forall key :: key in after ==>
          if key.0 == ns.name then Wanted(after[key], key.1, before, ns, hash) else after[key] == before[key])
  }

  /** What a pass reads: the controller's copy of the identities, the namespace,
      the pods in the order they are visited, and the random source. */
  datatype Pass = Pass(store: Identities, ns: Namespace, pods: seq<Pod>, hash: Hash, draws: nat -> IdentityId) {
    function NameAt(i: nat): string
      requires i < |pods|
    {
      NameOf(ns, pods[i], hash)
    }

    /** The pod is of the namespace and its name is not stored, so it takes an
        id from the random source. */
    predicate TakesDraw(i: nat)
      requires i < |pods|
    {
      InNamespace(pods[i], ns) && New(NameAt(i), store, ns)
    }

    /** Where the random source stands after the first `i` pods. */
    ghost function Cursor(i: nat): nat
      requires i <= |pods|
    {
      if i == 0 then 0
      else if TakesDraw(i - 1) then NextUnused(draws, store, Cursor(i - 1)) + 1
      else Cursor(i - 1)
    }

    /** The id drawn for a pod that takes one. */
    ghost function DrawFor(i: nat): IdentityId
      requires i < |pods|
    {
      draws(NextUnused(draws, store, Cursor(i)))
    }

    /** Every search for an unused id that the pass makes comes to an end. */
    ghost predicate SearchesEnd() {
      forall i :: 0 <= i < |pods| && TakesDraw(i) ==> UnusedFrom(draws, store, Cursor(i))
    }

    /** The identity the pass has for a pod. */
    ghost function IdentityFor(i: nat): Identity
      requires i < |pods|
    {
      if New(NameAt(i), store, ns)
      then Identity(NameAt(i), ns.labels, Sanitized(pods[i].labels), DrawFor(i))
      else store[(ns.name, NameAt(i))]
    }

    predicate Names(i: nat, name: string)
      requires i < |pods|
    {
      InNamespace(pods[i], ns) && NameAt(i) == name
    }

    /** The last of the first `n` pods that needs an identity of this name. */
    function LastOf(name: string, n: nat): (last: Option<nat>)
      requires n <= |pods|
      ensures last.Some? ==> last.value < n && Names(last.value, name)
      ensures forall i :: 0 <= i < n && Names(i, name) ==> last.Some? && i <= last.value
    {
      if n == 0 then None else if Names(n - 1, name) then Some(n - 1) else LastOf(name, n - 1)
    }

    /** The last pod of a new name. */
    predicate LastOfNew(i: nat)
      requires i < |pods|
    {
      TakesDraw(i) && LastOf(NameAt(i), |pods|) == Some(i)
    }

    /** The identities of the first `n` pods, those of the namespace, in order. */
    ghost function Desired(n: nat): seq<Identity>
      requires n <= |pods|
    {
      if n == 0 then []
      else Desired(n - 1) + if InNamespace(pods[n - 1], ns) then [IdentityFor(n - 1)] else []
    }
  }

  method CollectDesired(p: Pass) returns (names: set<string>, desired: seq<Identity>)
    requires forall key :: key in p.store ==> p.store[key].name == key.1
    requires p.SearchesEnd()
    ensures desired == p.Desired(|p.pods|)
    ensures forall name :: name in names <==> p.LastOf(name, |p.pods|).Some?
  {
    names, desired := {}, [];
    var next := 0;
    for i := 0 to |p.pods|
      invariant desired == p.Desired(i) && next == p.Cursor(i)
      invariant forall name :: name in names <==> p.LastOf(name, i).Some?
    {
      if InNamespace(p.pods[i], p.ns) {
        var identity;
        identity, next := GetOrGenerateIdentity(p.store, p.ns, p.pods[i], p.hash, p.draws, next);
        names := names + {identity.name};
        desired := desired + [identity];
      }
    }
  }

  lemma NeededHasLast(p: Pass, name: string)
    ensures Needed(name, p.pods, p.ns, p.hash) <==> p.LastOf(name, |p.pods|).Some?
  {
    if Needed(name, p.pods, p.ns, p.hash) {
      var i :| 0 <= i < |p.pods| && InNamespace(p.pods[i], p.ns) && NameOf(p.ns, p.pods[i], p.hash) == name;
      assert p.Names(i, name);
    }
  }

  /** What a pass has for a pod is stored under its name already, or generated. */
  lemma IdentityIsWanted(p: Pass, i: nat)
    requires forall key :: key in p.store ==> p.store[key].name == key.1
    requires p.SearchesEnd() && i < |p.pods| && InNamespace(p.pods[i], p.ns)
    ensures p.IdentityFor(i).name == p.NameAt(i)
    ensures Wanted(p.IdentityFor(i), p.NameAt(i), p.store, p.ns, p.hash)
  {
    if p.TakesDraw(i) {
      assert UnusedFrom(p.draws, p.store, p.Cursor(i));
    }
  }

  /** The identities after patching these, in order. */
  function PatchAll(identities: Identities, ns: Namespace, desired: seq<Identity>): Identities {
    if desired == [] then identities else
      var last := desired[|desired| - 1];
      PatchAll(identities, ns, desired[..|desired| - 1])[(ns.name, last.name) := last]
  }

  /** Patches the desired identities in order, up to the first failure. */
  method PatchDesired(api: IdentityApi, ns: Namespace, desired: seq<Identity>) returns (ok: bool, ghost done: nat)
    modifies api
    ensures done <= |desired| && (ok <==> done == |desired|)
    ensures api.identities == PatchAll(old(api.identities), ns, desired[..done])
    ensures api.faults == old(api.faults) + if ok then 0 else 1
  {
    done := 0;
    for i := 0 to |desired|
      invariant done == i && api.identities == PatchAll(old(api.identities), ns, desired[..i])
      invariant api.faults == old(api.faults)
    {
      ok := api.Patch(ns.name, desired[i]);
      if !ok {
        return;
      }
      assert desired[..i + 1][..i] == desired[..i];
      done := done + 1;
    }
    ok := true;
  }

  lemma PatchOneMore(identities: Identities, ns: Namespace, desired: seq<Identity>, last: Identity)
    ensures PatchAll(identities, ns, desired + [last])
         == PatchAll(identities, ns, desired)[(ns.name, last.name) := last]
  {
    assert (desired + [last])[..|desired|] == desired;
  }

  /** `after` holds under each name of the first `n` pods what the pass has for
      the last of them, and everything else as it was. */
  ghost predicate HoldsLastOf(before: Identities, after: Identities, p: Pass, n: nat, key: (string, string))
    requires n <= |p.pods|
  {
    var last := if key.0 == p.ns.name then p.LastOf(key.1, n) else None;
    && (key in after <==> last.Some? || key in before)
    && (key in after ==> after[key] == if last.Some? then p.IdentityFor(last.value) else before[key])
  }

  lemma HoldsOneMore(before: Identities, after: Identities, p: Pass, n: nat, key: (string, string))
    requires n < |p.pods| && HoldsLastOf(before, after, p, n, key)
    ensures HoldsLastOf(before,
      if InNamespace(p.pods[n], p.ns) then after[(p.ns.name, p.NameAt(n)) := p.IdentityFor(n)] else after,
      p, n + 1, key)
  {
    assert key == (key.0, key.1);
  }

  /** The patches leave under every needed name the identity of its last pod,
      and everything else as it was. */
  lemma {:induction false} PatchedExactly(before: Identities, p: Pass, n: nat, key: (string, string))
    requires forall k :: k in p.store ==> p.store[k].name == k.1
    requires p.SearchesEnd() && n <= |p.pods|
    ensures HoldsLastOf(before, PatchAll(before, p.ns, p.Desired(n)), p, n, key)
  {
    if n > 0 {
      PatchedExactly(before, p, n - 1, key);
      HoldsOneMore(before, PatchAll(before, p.ns, p.Desired(n - 1)), p, n - 1, key);
      if InNamespace(p.pods[n - 1], p.ns) {
        IdentityIsWanted(p, n - 1);
        PatchOneMore(before, p.ns, p.Desired(n - 1), p.IdentityFor(n - 1));
      } else {
        assert p.Desired(n) == p.Desired(n - 1);
      }
    }
  }

  /** The first patches are those for the first pods. */
  lemma {:induction false} FirstPatches(p: Pass, n: nat, done: nat) returns (m: nat)
    requires n <= |p.pods| && done <= |p.Desired(n)|
    ensures m <= n && p.Desired(n)[..done] == p.Desired(m)
  {
    m := n;
    if n > 0 && done <= |p.Desired(n - 1)| {
      m := FirstPatches(p, n - 1, done);
      assert p.Desired(n)[..done] == p.Desired(n - 1)[..done];
    }
  }

  /** Deletes what the copy knows of the namespace and no pod needs.  Even a
      failure deletes nothing else. */
  method DeleteUnneeded(api: IdentityApi, ns: Namespace, names: set<string>, store: Identities) returns (ok: bool)
    modifies api
    ensures forall key :: key in api.identities ==>
      key in old(api.identities) && api.identities[key] == old(api.identities)[key]
    ensures forall key :: key in old(api.identities) && key !in api.identities ==> Unneeded(key, ns, names, store)
    ensures ok ==> forall key :: key in api.identities ==> !Unneeded(key, ns, names, store)
    ensures api.faults == old(api.faults) + if ok then 0 else 1
  {
    var rest := store.Keys;
    while rest != {}
      invariant rest <= store.Keys && api.faults == old(api.faults)
      invariant forall key :: key in api.identities ==>
        key in old(api.identities) && api.identities[key] == old(api.identities)[key]
      invariant forall key :: key in old(api.identities) && key !in api.identities ==> Unneeded(key, ns, names, store)
      invariant forall key :: key in api.identities && key !in rest ==> !Unneeded(key, ns, names, store)
      decreases rest
    {
      var key :| key in rest;
      if key.0 == ns.name && key.1 !in names {
        ok := api.Delete(ns.name, key.1);
        if !ok {
          return;
        }
        assert key == (ns.name, key.1);
      }
      rest := rest - {key};
    }
    ok := true;
  }

  predicate Unneeded(key: (string, string), ns: Namespace, names: set<string>, store: Identities) {
    key in store && key.0 == ns.name && key.1 !in names
  }

  /** What a successful pass makes of the API server's identities, given the
      controller's possibly outdated copy: needed names are patched with what
      the copy holds or with generated identities, unneeded names the copy
      knows are deleted, and everything else is untouched. */
  ghost predicate Passed(
    before: Identities, after: Identities, store: Identities, pods: seq<Pod>, ns: Namespace, hash: Hash)
  {
    && (forall key :: key in after <==>
          (key.0 == ns.name && Needed(key.1, pods, ns, hash)) || (key in before && !(key.0 == ns.name && key in store)))
    && (forall key :: key in after ==>
          if key.0 == ns.name && Needed(key.1, pods, ns, hash) then Wanted(after[key], key.1, store, ns, hash)
          else after[key] == before[key])
  }

  /** What a pass that may have failed part-way leaves: everything is as it was
      or is a needed name with what the whole pass would write there; only
      unneeded names the copy knows are gone, and none of them before every
      needed name was written. */
  ghost predicate PartlyPassed(
    before: Identities, after: Identities, store: Identities, pods: seq<Pod>, ns: Namespace, hash: Hash)
  {
    && (forall key :: key in after ==>
          (key in before && after[key] == before[key]) || HasNeeded(after, key, store, pods, ns, hash))
    && (forall key :: key in before && key !in after ==>
          && key.0 == ns.name && key in store && !Needed(key.1, pods, ns, hash)
          && forall name :: Needed(name, pods, ns, hash) ==> HasNeeded(after, (ns.name, name), store, pods, ns, hash))
  }

  ghost predicate HasNeeded(
    after: Identities, key: (string, string), store: Identities, pods: seq<Pod>, ns: Namespace, hash: Hash)
  {
    key in after && key.0 == ns.name && Needed(key.1, pods, ns, hash) && Wanted(after[key], key.1, store, ns, hash)
  }

  /** Every needed name holds the identity of its last pod. */
  ghost predicate HoldsLast(after: Identities, p: Pass) {
    forall name :: p.LastOf(name, |p.pods|).Some? ==>
      (p.ns.name, name) in after && after[(p.ns.name, name)] == p.IdentityFor(p.LastOf(name, |p.pods|).value)
  }

  /** A pass whose patches failed part-way. */
  lemma FailedPatches(before: Identities, after: Identities, p: Pass, done: nat)
    requires forall key :: key in p.store ==> p.store[key].name == key.1
    requires p.SearchesEnd() && done <= |p.Desired(|p.pods|)|
    requires after == PatchAll(before, p.ns, p.Desired(|p.pods|)[..done])
    ensures PartlyPassed(before, after, p.store, p.pods, p.ns, p.hash)
  {
    var m := FirstPatches(p, |p.pods|, done);
    forall key: (string, string)
      ensures key in before ==> key in after
      ensures key in after ==>
        (key in before && after[key] == before[key]) || HasNeeded(after, key, p.store, p.pods, p.ns, p.hash)
    {
      PatchedExactly(before, p, m, key);
      if key.0 == p.ns.name && p.LastOf(key.1, m).Some? {
        var i := p.LastOf(key.1, m).value;
        assert p.Names(i, key.1);
        NeededHasLast(p, key.1);
        IdentityIsWanted(p, i);
      }
    }
  }

  /** `patched` holds under a needed name what the pass has for its last pod,
      and is as before elsewhere. */
  ghost predicate PatchedAt(before: Identities, patched: Identities, p: Pass, key: (string, string)) {
    if key.0 == p.ns.name && Needed(key.1, p.pods, p.ns, p.hash) then
      && key in patched && Wanted(patched[key], key.1, p.store, p.ns, p.hash)
      && p.LastOf(key.1, |p.pods|).Some? && patched[key] == p.IdentityFor(p.LastOf(key.1, |p.pods|).value)
    else
      (key in patched <==> key in before) && (key in patched ==> patched[key] == before[key])
  }

  lemma PatchedNeeded(before: Identities, patched: Identities, p: Pass, key: (string, string))
    requires forall k :: k in p.store ==> p.store[k].name == k.1
    requires p.SearchesEnd() && patched == PatchAll(before, p.ns, p.Desired(|p.pods|))
    ensures PatchedAt(before, patched, p, key)
  {
    PatchedExactly(before, p, |p.pods|, key);
    NeededHasLast(p, key.1);
    if p.LastOf(key.1, |p.pods|).Some? {
      IdentityIsWanted(p, p.LastOf(key.1, |p.pods|).value);
    }
  }

  /** `after` is `patched` without some of the unneeded identities of the copy. */
  ghost predicate SomeDeleted(patched: Identities, after: Identities, p: Pass) {
    && (forall key :: key in after ==> key in patched && after[key] == patched[key])
    && (forall key :: key in patched && key !in after ==>
          key in p.store && key.0 == p.ns.name && !Needed(key.1, p.pods, p.ns, p.hash))
  }

  lemma PartlyDeleted(before: Identities, patched: Identities, after: Identities, p: Pass)
    requires (forall key :: PatchedAt(before, patched, p, key)) && SomeDeleted(patched, after, p)
    ensures PartlyPassed(before, after, p.store, p.pods, p.ns, p.hash)
  {
    forall key | key in after
      ensures (key in before && after[key] == before[key]) || HasNeeded(after, key, p.store, p.pods, p.ns, p.hash)
    {
      assert PatchedAt(before, patched, p, key);
    }
    forall name | Needed(name, p.pods, p.ns, p.hash)
      ensures HasNeeded(after, (p.ns.name, name), p.store, p.pods, p.ns, p.hash)
    {
      assert PatchedAt(before, patched, p, (p.ns.name, name));
    }
    forall key | key in before && key !in after
      ensures key.0 == p.ns.name && key in p.store && !Needed(key.1, p.pods, p.ns, p.hash)
    {
      assert PatchedAt(before, patched, p, key);
    }
  }

  lemma WhollyDeleted(before: Identities, patched: Identities, after: Identities, p: Pass)
    requires (forall key :: PatchedAt(before, patched, p, key)) && SomeDeleted(patched, after, p)
    requires forall key :: key in after && key in p.store && key.0 == p.ns.name ==> Needed(key.1, p.pods, p.ns, p.hash)
    ensures Passed(before, after, p.store, p.pods, p.ns, p.hash) && HoldsLast(after, p)
  {
    forall key: (string, string)
      ensures key in after <==>
        (key.0 == p.ns.name && Needed(key.1, p.pods, p.ns, p.hash))
        || (key in before && !(key.0 == p.ns.name && key in p.store))
      ensures key in after ==>
        if key.0 == p.ns.name && Needed(key.1, p.pods, p.ns, p.hash) then
          Wanted(after[key], key.1, p.store, p.ns, p.hash)
        else after[key] == before[key]
    {
      assert PatchedAt(before, patched, p, key);
    }
    forall name | p.LastOf(name, |p.pods|).Some?
      ensures (p.ns.name, name) in after
      ensures after[(p.ns.name, name)] == p.IdentityFor(p.LastOf(name, |p.pods|).value)
    {
      NeededHasLast(p, name);
      assert PatchedAt(before, patched, p, (p.ns.name, name));
    }
  }

  /** The namespace holds exactly the identities its pods need, as a converged
      store does. */
  ghost predicate Settled(store: Identities, pods: seq<Pod>, ns: Namespace, hash: Hash) {
    forall name :: (ns.name, name) in store <==> Needed(name, pods, ns, hash)
  }

  lemma SettledUnchanged(before: Identities, after: Identities, pods: seq<Pod>, ns: Namespace, hash: Hash)
    requires Settled(before, pods, ns, hash) && PartlyPassed(before, after, before, pods, ns, hash)
    ensures after == before
  {
    forall key: (string, string)
      ensures key in after <==> key in before
      ensures key in after ==> after[key] == before[key]
    {
      assert key == (key.0, key.1);
    }
  }

  /** Every pod of the namespace has an identity under its name, and one that
      was not stored before carries the labels the name is the hash of. */
  ghost predicate ServesPods(after: Identities, p: Pass) {
    forall pod :: pod in p.pods && pod.namespace == Some(p.ns.name) ==>
      var key := (p.ns.name, NameOf(p.ns, pod, p.hash));
      && key in after
      && (key !in p.store ==>
            after[key].namespaceLabels == p.ns.labels && p.hash(p.ns.labels, after[key].podLabels) == key.1)
  }

  lemma PassedServesPods(before: Identities, after: Identities, p: Pass)
    requires Passed(before, after, p.store, p.pods, p.ns, p.hash)
    ensures ServesPods(after, p)
  {
    forall pod | pod in p.pods && pod.namespace == Some(p.ns.name)
      ensures Needed(NameOf(p.ns, pod, p.hash), p.pods, p.ns, p.hash)
    {
      var i :| 0 <= i < |p.pods| && p.pods[i] == pod;
      assert InNamespace(p.pods[i], p.ns);
    }
  }

  /** One pass over a namespace, successful or not.  With a current copy a
      success converges, and where there is nothing to do nothing changes. */
  method ReconcileNamespace(api: IdentityApi, p: Pass) returns (ok: bool)
    requires forall key :: key in p.store ==> p.store[key].name == key.1
    requires p.SearchesEnd()
    modifies api
    ensures PartlyPassed(old(api.identities), api.identities, p.store, p.pods, p.ns, p.hash)
    ensures ok ==> Passed(old(api.identities), api.identities, p.store, p.pods, p.ns, p.hash)
    ensures ok && p.store == old(api.identities) ==>
      Converged(old(api.identities), api.identities, p.pods, p.ns, p.hash)
    ensures p.store == old(api.identities) && Settled(old(api.identities), p.pods, p.ns, p.hash) ==>
      api.identities == old(api.identities)
    ensures ok ==> HoldsLast(api.identities, p)
    ensures api.faults == old(api.faults) + if ok then 0 else 1
    ensures forall key :: key in api.identities && (key in old(api.identities) ==>
                            api.identities[key] != old(api.identities)[key]) ==>
      exists pod :: pod in p.pods && pod.namespace == Some(key.0) && key.0 == p.ns.name
                    && NameOf(p.ns, pod, p.hash) == key.1
    ensures ok ==> ServesPods(api.identities, p)
  {
    hide ServesPods;
    ghost var before := api.identities;
    var names, desired := CollectDesired(p);
    ghost var done;
    ok, done := PatchDesired(api, p.ns, desired);
    if !ok {
      FailedPatches(before, api.identities, p, done);
      if p.store == before && Settled(before, p.pods, p.ns, p.hash) {
        SettledUnchanged(before, api.identities, p.pods, p.ns, p.hash);
      }
      return;
    }
    assert desired[..done] == desired;
    ghost var patched := api.identities;
    forall key {
      PatchedNeeded(before, patched, p, key);
    }
    forall name {
      NeededHasLast(p, name);
    }
    ok := DeleteUnneeded(api, p.ns, names, p.store);
    PartlyDeleted(before, patched, api.identities, p);
    if p.store == before && Settled(before, p.pods, p.ns, p.hash) {
      SettledUnchanged(before, api.identities, p.pods, p.ns, p.hash);
    }
    if ok {
      WhollyDeleted(before, patched, api.identities, p);
      PassedServesPods(before, api.identities, p);
      if p.store == before {
        CurrentCopyConverges(before, api.identities, p.pods, p.ns, p.hash);
      }
    }
  }

  /** With a current copy, a successful pass converges. */
  lemma CurrentCopyConverges(before: Identities, after: Identities, pods: seq<Pod>, ns: Namespace, hash: Hash)
    requires Passed(before, after, before, pods, ns, hash)
    ensures Converged(before, after, pods, ns, hash)
  {
    forall key: (string, string)
      ensures key in after <==> if key.0 == ns.name then Needed(key.1, pods, ns, hash) else key in before
      ensures key in after ==>
        if key.0 == ns.name then Wanted(after[key], key.1, before, ns, hash) else after[key] == before[key]
    {
      assert key == (key.0, key.1);
    }
  }

  // ---------- Distinct ids ----------

  ghost predicate DistinctIds(store: Identities) {
    forall a, b :: a in store && b in store && a != b ==> store[a].id != store[b].id
  }

  /** No two new names get the same id from the random source. */
  ghost predicate DrawsApart(p: Pass) {
    forall i, j :: 0 <= i < j < |p.pods| && p.LastOfNew(i) && p.LastOfNew(j) ==> p.DrawFor(i) != p.DrawFor(j)
  }

  /** After a pass with a current copy the ids of all identities are pairwise
      distinct exactly when the ids that the random source gives the last pods
      of the new names are. */
  lemma IdsDistinctExactly(after: Identities, p: Pass)
    requires DistinctIds(p.store) && Converged(p.store, after, p.pods, p.ns, p.hash) && HoldsLast(after, p)
    ensures DistinctIds(after) <==> DrawsApart(p)
  {
    if DistinctIds(after) {
      forall i, j | 0 <= i < j < |p.pods| && p.LastOfNew(i) && p.LastOfNew(j)
        ensures p.DrawFor(i) != p.DrawFor(j)
      {
        assert (p.ns.name, p.NameAt(i)) != (p.ns.name, p.NameAt(j));
      }
    } else {
      var k, l :| k in after && l in after && k != l && after[k].id == after[l].id;
      KeptOrNew(p.store, after, p.pods, p.ns, p.hash, k);
      KeptOrNew(p.store, after, p.pods, p.ns, p.hash, l);
      assert k !in p.store && l !in p.store;
      var i := LastPodOf(after, p, k);
      var j := LastPodOf(after, p, l);
      assert i != j && p.DrawFor(i) == p.DrawFor(j);
    }
  }

  /** The last pod that needs an identity new in `after`. */
  lemma LastPodOf(after: Identities, p: Pass, key: (string, string)) returns (i: nat)
    requires Converged(p.store, after, p.pods, p.ns, p.hash) && HoldsLast(after, p)
    requires key in after && key !in p.store
    ensures i < |p.pods| && p.LastOfNew(i) && key == (p.ns.name, p.NameAt(i)) && after[key].id == p.DrawFor(i)
  {
    KeptOrNew(p.store, after, p.pods, p.ns, p.hash, key);
    NeededHasLast(p, key.1);
    i := p.LastOf(key.1, |p.pods|).value;
    assert key == (p.ns.name, key.1);
  }

  lemma KeptOrNew(
      before: Identities, after: Identities, pods: seq<Pod>, ns: Namespace, hash: Hash, key: (string, string))
    requires Converged(before, after, pods, ns, hash) && key in after
    ensures key in before ==> after[key] == before[key]
    ensures key !in before ==> key.0 == ns.name && Needed(key.1, pods, ns, hash) && !UsesId(before, after[key].id)
  {
    assert key == (key.0, key.1);
  }

  /** Later pods draw at later places of the random source. */
  lemma {:induction false} CursorGrows(p: Pass, i: nat, j: nat)
    requires i < j <= |p.pods|
    ensures p.Cursor(j) >= p.Cursor(i)
    ensures p.TakesDraw(i) ==> p.Cursor(j) > NextUnused(p.draws, p.store, p.Cursor(i))
    decreases j
  {
    if i < j - 1 {
      CursorGrows(p, i, j - 1);
    }
  }

  /** A source that never repeats itself keeps the ids distinct. */
  lemma DistinctDrawsSuffice(after: Identities, p: Pass)
    requires DistinctIds(p.store) && Converged(p.store, after, p.pods, p.ns, p.hash) && HoldsLast(after, p)
    requires forall m, n :: m != n ==> p.draws(m) != p.draws(n)
    ensures DistinctIds(after)
  {
    forall i, j | 0 <= i < j < |p.pods| && p.LastOfNew(i) && p.LastOfNew(j)
      ensures p.DrawFor(i) != p.DrawFor(j)
    {
      CursorGrows(p, i, j);
    }
    IdsDistinctExactly(after, p);
  }

  /** Two new names whose last pods are given the same id share it. */
  lemma RepeatedDrawCollides(after: Identities, p: Pass, i: nat, j: nat)
    requires HoldsLast(after, p) && i < j < |p.pods|
    requires p.LastOfNew(i) && p.LastOfNew(j) && p.DrawFor(i) == p.DrawFor(j)
    ensures p.NameAt(i) != p.NameAt(j)
    ensures after[(p.ns.name, p.NameAt(i))].id == after[(p.ns.name, p.NameAt(j))].id && !DistinctIds(after)
  {
    assert (p.ns.name, p.NameAt(i)) != (p.ns.name, p.NameAt(j));
  }

  /** Two pods of different labels meet such a source in an empty store as soon
      as its first two draws are equal. */
  lemma TwoPodsCollide(after: Identities, ns: Namespace, a: Pod, b: Pod, hash: Hash, draws: nat -> IdentityId)
    requires InNamespace(a, ns) && InNamespace(b, ns) && NameOf(ns, a, hash) != NameOf(ns, b, hash)
    requires draws(0) == draws(1) && HoldsLast(after, Pass(map[], ns, [a, b], hash, draws))
    ensures Pass(map[], ns, [a, b], hash, draws).SearchesEnd() && !DistinctIds(after)
  {
    var p := Pass(map[], ns, [a, b], hash, draws);
    assert !UsesId(p.store, draws(0)) && !UsesId(p.store, draws(1)) && !UsesId(p.store, draws(2));
    assert UnusedFrom(draws, p.store, 0) && UnusedFrom(draws, p.store, 1);
    assert p.Cursor(0) == 0 && p.Cursor(1) == 1;
    RepeatedDrawCollides(after, p, 0, 1);
  }

  // ---------- What a converged store means for pods ----------

  /** The identity's labels are the pod's, cleaned, and the namespace's. */
  predicate LabelsMatch(identity: Identity, pod: Pod, ns: Namespace) {
    identity.podLabels == Sanitized(pod.labels) && ns.labels == identity.namespaceLabels
  }

  ghost predicate Injective(hash: Hash) {
    forall a, b, c, d :: hash(a, b) == hash(c, d) ==> a == c && b == d
  }

  /** Every stored identity is named by the hash of its labels. */
  ghost predicate WellNamed(store: Identities, hash: Hash) {
    forall key :: key in store ==>
      store[key].name == key.1 && hash(store[key].namespaceLabels, store[key].podLabels) == key.1
  }

  lemma ConvergedStaysWellNamed(before: Identities, after: Identities, pods: seq<Pod>, ns: Namespace, hash: Hash)
    requires Converged(before, after, pods, ns, hash) && WellNamed(before, hash)
    ensures WellNamed(after, hash)
  {
    forall key | key in after
      ensures after[key].name == key.1 && hash(after[key].namespaceLabels, after[key].podLabels) == key.1
    {
      assert key == (key.0, key.1);
    }
  }

  /** Among the identities of its namespace each pod matches exactly one: the
      one stored under its name. */
  lemma PodsMatchExactlyOne(
      before: Identities, after: Identities, pods: seq<Pod>, ns: Namespace, hash: Hash, i: nat)
    requires Converged(before, after, pods, ns, hash) && WellNamed(before, hash) && Injective(hash)
    requires i < |pods| && InNamespace(pods[i], ns)
    ensures forall name ::
      (ns.name, name) in after && LabelsMatch(after[(ns.name, name)], pods[i], ns)
      <==> name == NameOf(ns, pods[i], hash)
  {
    ConvergedStaysWellNamed(before, after, pods, ns, hash);
    var own := NameOf(ns, pods[i], hash);
    assert Needed(own, pods, ns, hash);
    assert (ns.name, own) in after;
    forall name | (ns.name, name) in after
      ensures LabelsMatch(after[(ns.name, name)], pods[i], ns) <==> name == own
    {
      assert hash(after[(ns.name, name)].namespaceLabels, after[(ns.name, name)].podLabels) == name;
    }
  }

  // ---------- Giving a pod's addresses its identity ----------

  datatype Entry = Entry(namespace: string, identity: Identity)

  /** The first entry of the namespace whose labels match, in store order. */
  function FirstMatch(entries: seq<Entry>, pod: Pod, ns: Namespace): Option<Identity> {
    if entries == [] then None
    else if entries[0].namespace == ns.name && LabelsMatch(entries[0].identity, pod, ns) then Some(entries[0].identity)
    else FirstMatch(entries[1..], pod, ns)
  }

  /** The match is the first entry of the pod's namespace whose namespace labels
      are those of the namespace and whose pod labels are the pod's without the
      three of the controllers. */
  lemma {:induction false} FirstMatchExactly(entries: seq<Entry>, pod: Pod, ns: Namespace, identity: Identity)
    ensures FirstMatch(entries, pod, ns) == Some(identity) <==> MatchesFirst(entries, pod, ns, identity)
  {
    if entries != [] {
      FirstMatchExactly(entries[1..], pod, ns, identity);
      CleanedTo(entries[0].identity.podLabels, pod.labels);
      assert IsMatch(entries[0], pod, ns)
        <==> entries[0].namespace == ns.name && LabelsMatch(entries[0].identity, pod, ns);
      hide IsMatch, LabelsMatch;
      if IsMatch(entries[0], pod, ns) {
        assert MatchesFirst(entries, pod, ns, entries[0].identity);
      } else {
        MatchesFirstOfRest(entries, pod, ns, identity);
      }
    }
  }

  ghost predicate MatchesFirst(entries: seq<Entry>, pod: Pod, ns: Namespace, identity: Identity) {
    exists i ::
      && 0 <= i < |entries| && entries[i].identity == identity && IsMatch(entries[i], pod, ns)
      && forall j :: 0 <= j < i ==> !IsMatch(entries[j], pod, ns)
  }

  lemma MatchesFirstOfRest(entries: seq<Entry>, pod: Pod, ns: Namespace, identity: Identity)
    requires entries != [] && !IsMatch(entries[0], pod, ns)
    ensures MatchesFirst(entries, pod, ns, identity) <==> MatchesFirst(entries[1..], pod, ns, identity)
  {
    hide IsMatch;
    var rest := entries[1..];
    if MatchesFirst(rest, pod, ns, identity) {
      var i :| 0 <= i < |rest| && rest[i].identity == identity && IsMatch(rest[i], pod, ns)
        && (forall j :: 0 <= j < i ==> !IsMatch(rest[j], pod, ns));
      assert entries[i + 1] == rest[i];
      assert forall j :: 0 <= j < i + 1 ==> j == 0 || entries[j] == rest[j - 1];
    }
    if MatchesFirst(entries, pod, ns, identity) {
      var i :| 0 <= i < |entries| && entries[i].identity == identity && IsMatch(entries[i], pod, ns)
        && (forall j :: 0 <= j < i ==> !IsMatch(entries[j], pod, ns));
      assert entries[i] == rest[i - 1];
      assert forall j :: 0 <= j < i - 1 ==> rest[j] == entries[j + 1];
    }
  }

  ghost predicate IsMatch(e: Entry, pod: Pod, ns: Namespace) {
    && e.namespace == ns.name && e.identity.namespaceLabels == ns.labels
    && (forall k :: k in e.identity.podLabels <==>
          k in pod.labels
          && k != "controller-revision-hash" && k != "pod-template-hash" && k != "pod-template-generation")
    && (forall k :: k in e.identity.podLabels ==> e.identity.podLabels[k] == pod.labels[k])
  }

  lemma CleanedTo(cleaned: Labels, labels: Labels)
    ensures cleaned == Sanitized(labels) <==>
      && (forall k :: k in cleaned <==>
            k in labels
            && k != "controller-revision-hash" && k != "pod-template-hash" && k != "pod-template-generation")
      && forall k :: k in cleaned ==> cleaned[k] == labels[k]
  {
    forall k
      ensures k in REMOVED_LABELS <==>
        k == "controller-revision-hash" || k == "pod-template-hash" || k == "pod-template-generation"
    {
    }
    if (forall k :: k in cleaned <==> k in Sanitized(labels)) && forall k :: k in cleaned ==> cleaned[k] == labels[k] {
      assert cleaned == Sanitized(labels);
    }
  }

  /** `entries` lists the stored identities, in some order. */
  ghost predicate Lists(entries: seq<Entry>, store: Identities) {
    && (forall i :: 0 <= i < |entries| ==>
          (entries[i].namespace, entries[i].identity.name) in store
          && store[(entries[i].namespace, entries[i].identity.name)] == entries[i].identity)
    && (forall key :: key in store ==> Entry(key.0, store[key]) in entries)
  }

  lemma {:induction false} FirstMatchIsAMatch(entries: seq<Entry>, pod: Pod, ns: Namespace)
    ensures match FirstMatch(entries, pod, ns)
      case Some(identity) => Entry(ns.name, identity) in entries && LabelsMatch(identity, pod, ns)
      case None => forall identity :: Entry(ns.name, identity) in entries ==> !LabelsMatch(identity, pod, ns)
  {
    if entries != [] {
      FirstMatchIsAMatch(entries[1..], pod, ns);
      assert forall e :: e in entries <==> e == entries[0] || e in entries[1..];
    }
  }

  /** After a pass, whatever the order of the store, the first match of a pod is
      the identity stored under its name. */
  lemma FirstMatchIsOwn(
      before: Identities, after: Identities, pods: seq<Pod>, ns: Namespace, hash: Hash, i: nat, entries: seq<Entry>)
    requires Converged(before, after, pods, ns, hash) && WellNamed(before, hash) && Injective(hash)
    requires i < |pods| && InNamespace(pods[i], ns) && Lists(entries, after)
    ensures (ns.name, NameOf(ns, pods[i], hash)) in after
    ensures FirstMatch(entries, pods[i], ns) == Some(after[(ns.name, NameOf(ns, pods[i], hash))])
  {
    var own := NameOf(ns, pods[i], hash);
    PodsMatchExactlyOne(before, after, pods, ns, hash, i);
    FirstMatchIsAMatch(entries, pods[i], ns);
    assert Entry(ns.name, after[(ns.name, own)]) in entries;
  }

  /** The identity a pod's addresses are to get; None when its namespace is not
      known, it is on the host network or no identity matches. */
  function IdentityFor(pod: Pod, namespaces: map<string, Namespace>, entries: seq<Entry>): Option<Identity> {
    if pod.namespace.None? || pod.namespace.value !in namespaces || pod.hostNetwork then None
    else FirstMatch(entries, pod, namespaces[pod.namespace.value])
  }

  /** After a success every address of a pod that is not on the host network
      resolves to the id of its first matching identity.  No other address ever
      resolves differently, and after a failure the pod's own ones resolve as
      before or to that id. */
  method ReconcilePod(
      pod: Pod, namespaces: map<string, Namespace>, entries: seq<Entry>, state: IpNetworkState,
      parse: string -> Option<IpAddr>)
    returns (ok: bool)
    requires state.Valid()
    modifies state.Repr()
    ensures state.Valid()
    ensures state.Faults() >= old(state.Faults())
    ensures ok <==>
      && pod.namespace.Some? && pod.namespace.value in namespaces
      && (pod.hostNetwork
          || (FirstMatch(entries, pod, namespaces[pod.namespace.value]).Some? && state.Faults() == old(state.Faults())))
    ensures ok && !pod.hostNetwork ==>
      var identity := IdentityFor(pod, namespaces, entries);
      && identity.Some?
      && forall ip :: ip in FilterMap(parse, pod.ips) ==> state.Resolve(ip) == Some(identity.value.id)
    ensures var identity := IdentityFor(pod, namespaces, entries);
      forall ip :: state.Resolve(ip) != old(state.Resolve(ip)) ==>
        ip in FilterMap(parse, pod.ips) && identity.Some? && state.Resolve(ip) == Some(identity.value.id)
  {
    if pod.namespace.None? || pod.namespace.value !in namespaces {
      return false;
    }
    var ns := namespaces[pod.namespace.value];
    if pod.hostNetwork {
      return true;
    }
    var found := FirstMatch(entries, pod, ns);
    if found.None? {
      return false;
    }
    ok := UpdateAll(FilterMap(parse, pod.ips), found.value.id, state);
  }

  /** The loop of `ReconcilePod`. */
  method UpdateAll(ips: seq<IpAddr>, id: IdentityId, state: IpNetworkState) returns (ok: bool)
    requires state.Valid()
    modifies state.Repr()
    ensures state.Valid()
    ensures ok ==> forall ip :: ip in ips ==> state.Resolve(ip) == Some(id)
    ensures state.Faults() == old(state.Faults()) + if ok then 0 else 1
    ensures forall ip :: state.Resolve(ip) != old(state.Resolve(ip)) ==> ip in ips && state.Resolve(ip) == Some(id)
  {
    hide Lookup, Sound, Agree;
    for i := 0 to |ips|
      invariant state.Valid() && state.Faults() == old(state.Faults())
      invariant forall j :: 0 <= j < i ==> state.Resolve(ips[j]) == Some(id)
      invariant forall ip :: state.Resolve(ip) != old(state.Resolve(ip)) ==> ip in ips && state.Resolve(ip) == Some(id)
    {
      ok := state.UpdateHost(ips[i], id);
      if !ok {
        return;
      }
    }
    ok := true;
  }
}
