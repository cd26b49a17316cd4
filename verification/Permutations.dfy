/** Replacing each element of a list by a list of elements, and what this keeps of multisets. */
module Permutations {

  ghost function FlatMap<A(!new), B(!new)>(f: A -> seq<B>, s: seq<A>): seq<B> {
    if s == [] then [] else f(s[0]) + FlatMap(f, s[1..])
  }

  lemma {:induction false} FlatMapConcat<A(!new), B(!new)>(f: A -> seq<B>, a: seq<A>, b: seq<A>)
    ensures FlatMap(f, a + b) == FlatMap(f, a) + FlatMap(f, b)
  {
    if a == [] {
      assert a + b == b;
    } else {
      assert (a + b)[1..] == a[1..] + b;
      FlatMapConcat(f, a[1..], b);
    }
  }

  /** Take the first element of a list out of a permutation of it. */
  lemma TakeFirst<A(!new)>(a: seq<A>, b: seq<A>) returns (before: seq<A>, after: seq<A>)
    requires a != [] && multiset(a) == multiset(b)
    ensures b == before + ([a[0]] + after)
    ensures multiset(a[1..]) == multiset(before + after)
  {
    var x := a[0];
    assert x in multiset(b);
    var k :| 0 <= k < |b| && b[k] == x;
    before, after := b[..k], b[k + 1..];
    assert a == [x] + a[1..];
    MultisetOf([x], a[1..]);
    assert b == before + ([x] + after);
    MultisetOf(before, [x] + after);
    MultisetOf([x], after);
    MultisetOf(before, after);
    SameRest(x, multiset(a[1..]), multiset(before), multiset(after));
  }

  lemma MultisetOf<A>(a: seq<A>, b: seq<A>)
    ensures multiset(a + b) == multiset(a) + multiset(b)
  {
  }

  lemma SameRest<A>(x: A, m: multiset<A>, p: multiset<A>, q: multiset<A>)
    requires multiset{x} + m == p + (multiset{x} + q)
    ensures m == p + q
  {
    assert m == multiset{x} + m - multiset{x};
    assert p + q == p + (multiset{x} + q) - multiset{x};
  }

  /** Permuting the input permutes the output. */
  lemma {:induction false} FlatMapPermutes<A(!new), B(!new)>(f: A -> seq<B>, a: seq<A>, b: seq<A>)
    requires multiset(a) == multiset(b)
    ensures multiset(FlatMap(f, a)) == multiset(FlatMap(f, b))
  {
    if a == [] {
      assert |multiset(a)| == |multiset(b)|;
    } else {
      var before, after := TakeFirst(a, b);
      FlatMapPermutes(f, a[1..], before + after);
      FlatMapConcat(f, before, after);
      FlatMapConcat(f, before, [a[0]] + after);
      assert ([a[0]] + after)[1..] == after;
      var x, y, z := f(a[0]), FlatMap(f, before), FlatMap(f, after);
      assert FlatMap(f, b) == y + (x + z);
      assert multiset(y + (x + z)) == multiset(x) + multiset(y + z);
    }
  }

  lemma {:induction false} FlatMapPointwise<A(!new), B(!new)>(f: A -> seq<B>, g: A -> seq<B>, s: seq<A>)
    requires forall x :: multiset(f(x)) == multiset(g(x))
    ensures multiset(FlatMap(f, s)) == multiset(FlatMap(g, s))
  {
    if s != [] { FlatMapPointwise(f, g, s[1..]); }
  }

  function UpTo(n: nat): (s: seq<nat>)
    ensures |s| == n
    ensures forall i :: 0 <= i < n ==> s[i] == i
  {
    seq(n, i => i)
  }

  ghost function Restrict(s: seq<nat>, keep: seq<nat>): seq<nat> {
    if s == [] then [] else (if s[0] in keep then [s[0]] else []) + Restrict(s[1..], keep)
  }

  predicate Distinct(s: seq<nat>) {
    forall i, j :: 0 <= i < j < |s| ==> s[i] != s[j]
  }

  lemma {:induction false} DistinctCount(s: seq<nat>, x: nat)
    requires Distinct(s)
    ensures multiset(s)[x] == if x in s then 1 else 0
  {
    if s != [] {
      assert s == [s[0]] + s[1..];
      DistinctCount(s[1..], x);
      forall k | 0 <= k < |s[1..]| ensures s[1..][k] != s[0] {
        assert s[1..][k] == s[k + 1];
      }
    }
  }

  lemma {:induction false} RestrictCount(s: seq<nat>, keep: seq<nat>, x: nat)
    ensures multiset(Restrict(s, keep))[x] == if x in keep then multiset(s)[x] else 0
  {
    if s != [] {
      assert s == [s[0]] + s[1..];
      RestrictCount(s[1..], keep, x);
    }
  }

  lemma {:induction false} FlatMapRestrict<B(!new)>(f: nat -> seq<B>, s: seq<nat>, keep: seq<nat>)
    requires forall x :: x in s && x !in keep ==> f(x) == []
    ensures FlatMap(f, s) == FlatMap(f, Restrict(s, keep))
  {
    if s != [] {
      FlatMapRestrict(f, s[1..], keep);
      FlatMapConcat(f, if s[0] in keep then [s[0]] else [], Restrict(s[1..], keep));
      assert [s[0]][1..] == [];
      assert FlatMap(f, [s[0]]) == f(s[0]) + FlatMap(f, []);
    }
  }

  /** Visiting only some positions, each once, loses nothing when the others give nothing. */
  lemma VisitSome<B(!new)>(f: nat -> seq<B>, n: nat, visited: seq<nat>)
    requires Distinct(visited) && forall x :: x in visited ==> x < n
    requires forall x: nat :: x < n && x !in visited ==> f(x) == []
    ensures multiset(FlatMap(f, visited)) == multiset(FlatMap(f, UpTo(n)))
  {
    var all := UpTo(n);
    FlatMapRestrict(f, all, visited);
    var some := Restrict(all, visited);
    var m: multiset<nat>, m': multiset<nat> := multiset(some), multiset(visited);
    forall x: nat ensures m[x] == m'[x] {
      RestrictCount(all, visited, x);
      DistinctCount(visited, x);
      DistinctCount(all, x);
      if x in visited { assert all[x] == x; }
    }
    assert m == m';
    FlatMapPermutes(f, some, visited);
  }
}
