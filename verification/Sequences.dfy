/** Ordered comprehensions over sequences: what the generator loops build. */
module Sequences {
  import opened NetTypes

  /** The values `f` gives for the elements of `s`, in order. */
  function FilterMap<A, B>(f: A -> Option<B>, s: seq<A>): seq<B> {
    if s == [] then [] else
      var last := f(s[|s| - 1]);
      FilterMap(f, s[..|s| - 1]) + if last.Some? then [last.value] else []
  }

  /** The lists `f` gives for the elements of `s`, one after the other. */
  function FlatMap<A, B>(f: A -> seq<B>, s: seq<A>): seq<B> {
    if s == [] then [] else FlatMap(f, s[..|s| - 1]) + f(s[|s| - 1])
  }

  predicate Distinct<T(==)>(s: seq<T>) {
    forall i, j :: 0 <= i < j < |s| ==> s[i] != s[j]
  }

  lemma FilterMapStep<A, B>(f: A -> Option<B>, s: seq<A>, i: nat)
    requires i < |s|
    ensures FilterMap(f, s[..i + 1]) == FilterMap(f, s[..i]) + if f(s[i]).Some? then [f(s[i]).value] else []
  {
    assert s[..i + 1][..i] == s[..i];
  }

  lemma FlatMapStep<A, B>(f: A -> seq<B>, s: seq<A>, i: nat)
    requires i < |s|
    ensures FlatMap(f, s[..i + 1]) == FlatMap(f, s[..i]) + f(s[i])
  {
    assert s[..i + 1][..i] == s[..i];
  }

  lemma {:induction false} FilterMapConcat<A, B>(f: A -> Option<B>, a: seq<A>, b: seq<A>)
    ensures FilterMap(f, a + b) == FilterMap(f, a) + FilterMap(f, b)
  {
    if b == [] {
      assert a + b == a;
    } else {
      assert (a + b)[..|a + b| - 1] == a + b[..|b| - 1];
      FilterMapConcat(f, a, b[..|b| - 1]);
    }
  }

  lemma {:induction false} FlatMapConcat<A, B>(f: A -> seq<B>, a: seq<A>, b: seq<A>)
    ensures FlatMap(f, a + b) == FlatMap(f, a) + FlatMap(f, b)
  {
    if b == [] {
      assert a + b == a;
    } else {
      assert (a + b)[..|a + b| - 1] == a + b[..|b| - 1];
      FlatMapConcat(f, a, b[..|b| - 1]);
    }
  }

  lemma {:induction false} InFilterMap<A, B>(f: A -> Option<B>, s: seq<A>, y: B)
    ensures y in FilterMap(f, s) <==> exists x :: x in s && f(x) == Some(y)
  {
    if s != [] {
      InFilterMap(f, s[..|s| - 1], y);
      assert forall x :: x in s <==> x in s[..|s| - 1] || x == s[|s| - 1];
    }
  }

  /** The places of the elements for which `f` gives a value. */
  lemma {:induction false} Picked<A, B>(f: A -> Option<B>, s: seq<A>) returns (at: seq<nat>)
    ensures |at| == |FilterMap(f, s)|
    ensures forall j :: 0 <= j < |at| ==> at[j] < |s| && f(s[at[j]]) == Some(FilterMap(f, s)[j])
    ensures forall j, k :: 0 <= j < k < |at| ==> at[j] < at[k]
    ensures forall i :: 0 <= i < |s| && f(s[i]).Some? ==> i in at
  {
    at := [];
    if s != [] {
      at := Picked(f, s[..|s| - 1]);
      if f(s[|s| - 1]).Some? {
        at := at + [|s| - 1];
        assert at[|at| - 1] == |s| - 1;
      }
    }
  }

  lemma {:induction false} InFlatMap<A, B>(f: A -> seq<B>, s: seq<A>, y: B)
    ensures y in FlatMap(f, s) <==> exists x :: x in s && y in f(x)
  {
    if s != [] {
      InFlatMap(f, s[..|s| - 1], y);
      assert forall x :: x in s <==> x in s[..|s| - 1] || x == s[|s| - 1];
    }
  }

  // ---------- Positions ----------

  lemma {:induction false} FilterMapSpan<A, B>(f: A -> Option<B>, s: seq<A>, i: nat, j: nat)
    requires i < j <= |s|
    ensures |FilterMap(f, s[..i])| + (if f(s[i]).Some? then 1 else 0) <= |FilterMap(f, s[..j])|
    decreases j
  {
    FilterMapStep(f, s, j - 1);
    if i < j - 1 {
      FilterMapSpan(f, s, i, j - 1);
    }
  }

  lemma {:induction false} FlatMapSpan<A, B>(f: A -> seq<B>, s: seq<A>, i: nat, j: nat)
    requires i < j <= |s|
    ensures |FlatMap(f, s[..i])| + |f(s[i])| <= |FlatMap(f, s[..j])|
    decreases j
  {
    FlatMapStep(f, s, j - 1);
    if i < j - 1 {
      FlatMapSpan(f, s, i, j - 1);
    }
  }

  /** Where the value of the element at `i` stands. */
  lemma FilterMapAt<A, B>(f: A -> Option<B>, s: seq<A>, i: nat)
    requires i < |s| && f(s[i]).Some?
    ensures |FilterMap(f, s[..i])| < |FilterMap(f, s)|
    ensures FilterMap(f, s)[|FilterMap(f, s[..i])|] == f(s[i]).value
  {
    FilterMapStep(f, s, i);
    FilterMapConcat(f, s[..i + 1], s[i + 1..]);
    assert s == s[..i + 1] + s[i + 1..];
  }

  /** Where the `j`-th value of the list for the element at `i` stands. */
  lemma FlatMapAt<A, B>(f: A -> seq<B>, s: seq<A>, i: nat, j: nat)
    requires i < |s| && j < |f(s[i])|
    ensures |FlatMap(f, s[..i])| + j < |FlatMap(f, s)|
    ensures FlatMap(f, s)[|FlatMap(f, s[..i])| + j] == f(s[i])[j]
  {
    FlatMapStep(f, s, i);
    FlatMapConcat(f, s[..i + 1], s[i + 1..]);
    assert s == s[..i + 1] + s[i + 1..];
  }

  /** The element whose value stands at `n`. */
  lemma {:induction false} FilterMapFrom<A, B>(f: A -> Option<B>, s: seq<A>, n: nat) returns (i: nat)
    requires n < |FilterMap(f, s)|
    ensures i < |s| && f(s[i]).Some? && n == |FilterMap(f, s[..i])|
  {
    i := |s| - 1;
    if n < |FilterMap(f, s[..i])| {
      var last := i;
      i := FilterMapFrom(f, s[..last], n);
      assert s[..last][..i] == s[..i];
    }
  }

  /** The element and the position in its list that give what stands at `n`. */
  lemma {:induction false} FlatMapFrom<A, B>(f: A -> seq<B>, s: seq<A>, n: nat) returns (i: nat, j: nat)
    requires n < |FlatMap(f, s)|
    ensures i < |s| && j < |f(s[i])| && n == |FlatMap(f, s[..i])| + j
  {
    i := |s| - 1;
    if n < |FlatMap(f, s[..i])| {
      var last := i;
      i, j := FlatMapFrom(f, s[..last], n);
      assert s[..last][..i] == s[..i];
    } else {
      j := n - |FlatMap(f, s[..i])|;
    }
  }
}
