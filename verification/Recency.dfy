/** What a least-recently-used cache is: a map, and its entries in order of use, latest first. */
module Recency {

  function Without<K(==), V>(s: seq<(K, V)>, key: K): (r: seq<(K, V)>)
    ensures forall e :: e in r ==> e in s && e.0 != key
  {
    if s == [] then [] else (if s[0].0 == key then [] else [s[0]]) + Without(s[1..], key)
  }

  predicate HasKey<K(==), V>(s: seq<(K, V)>, key: K) {
    exists i :: 0 <= i < |s| && s[i].0 == key
  }

  ghost predicate DistinctKeys<K, V>(s: seq<(K, V)>) {
    forall i, j :: 0 <= i < j < |s| ==> s[i].0 != s[j].0
  }

  function AsMap<K(==), V>(s: seq<(K, V)>): map<K, V> {
    if s == [] then map[] else AsMap(s[1..])[s[0].0 := s[0].1]
  }

  /** The entries a visitor sees: up to the first it turns down, that one included. */
  function Visited<K, V>(s: seq<(K, V)>, func: (K, V) -> bool): seq<(K, V)> {
    if s == [] then []
    else if func(s[0].0, s[0].1) then [s[0]] + Visited(s[1..], func)
    else [s[0]]
  }

  function Reversed<T>(s: seq<T>): (r: seq<T>)
    ensures |r| == |s| && forall i :: 0 <= i < |r| ==> r[i] == s[|s| - 1 - i]
  {
    if s == [] then [] else Reversed(s[1..]) + [s[0]]
  }

  /** The visitor said yes to the first `i` entries. */
  ghost predicate Accepts<K, V>(s: seq<(K, V)>, i: nat, func: (K, V) -> bool)
    requires i <= |s|
  {
    forall j {:trigger s[j]} :: 0 <= j < i ==> func(s[j].0, s[j].1)
  }

  lemma {:induction false} VisitedUpTo<K, V>(s: seq<(K, V)>, i: nat, func: (K, V) -> bool)
    requires i <= |s| && Accepts(s, i, func)
    requires i < |s| ==> !func(s[i].0, s[i].1)
    ensures Visited(s, func) == if i < |s| then s[..i] + [s[i]] else s
  {
    if i > 0 {
      VisitedUpTo(s[1..], i - 1, func);
      if i < |s| { assert s[..i] == [s[0]] + s[1..][..i - 1]; }
    }
  }

  /** A visitor that never says no sees the entries, and backwards their exact reverse. */
  lemma VisitsAreReverses<K, V>(s: seq<(K, V)>, func: (K, V) -> bool)
    requires forall i :: 0 <= i < |s| ==> func(s[i].0, s[i].1)
    ensures Visited(s, func) == s && Visited(Reversed(s), func) == Reversed(Visited(s, func))
  {
    VisitedUpTo(s, |s|, func);
    VisitedUpTo(Reversed(s), |s|, func);
  }

  lemma KeyOfTail<K, V>(s: seq<(K, V)>, key: K)
    requires s != []
    ensures HasKey(s, key) <==> s[0].0 == key || HasKey(s[1..], key)
  {
    if HasKey(s[1..], key) {
      var i :| 0 <= i < |s[1..]| && s[1..][i].0 == key;
      assert s[i + 1].0 == key;
    }
    if HasKey(s, key) && s[0].0 != key {
      var i :| 0 <= i < |s| && s[i].0 == key;
      assert s[1..][i - 1].0 == key;
    }
  }

  lemma HeadIsAlone<K, V>(s: seq<(K, V)>)
    requires s != [] && DistinctKeys(s)
    ensures DistinctKeys(s[1..]) && !HasKey(s[1..], s[0].0)
  {
    forall i | 0 <= i < |s[1..]| ensures s[1..][i].0 != s[0].0 {
      assert s[1..][i] == s[i + 1];
    }
  }

  lemma {:induction false} WithoutAt<K, V>(s: seq<(K, V)>, i: nat)
    requires DistinctKeys(s) && i < |s|
    ensures Without(s, s[i].0) == s[..i] + s[i + 1..]
  {
    HeadIsAlone(s);
    if i == 0 {
      WithoutNone(s[1..], s[0].0);
    } else {
      var rest := s[1..];
      WithoutAt(rest, i - 1);
      assert Without(s, s[i].0) == [s[0]] + Without(rest, rest[i - 1].0);
      Rejoined(s, i);
    }
  }

  lemma Rejoined<T>(s: seq<T>, i: nat)
    requires 0 < i < |s|
    ensures [s[0]] + (s[1..][..i - 1] + s[1..][i..]) == s[..i] + s[i + 1..]
  {
  }

  lemma {:induction false} WithoutNone<K, V>(s: seq<(K, V)>, key: K)
    requires !HasKey(s, key)
    ensures Without(s, key) == s
  {
    if s != [] {
      KeyOfTail(s, key);
      WithoutNone(s[1..], key);
    }
  }

  lemma {:induction false} WithoutKeepsDistinct<K, V>(s: seq<(K, V)>, key: K)
    requires DistinctKeys(s)
    ensures DistinctKeys(Without(s, key)) && !HasKey(Without(s, key), key)
  {
    if HasKey(s, key) {
      var i :| 0 <= i < |s| && s[i].0 == key;
      WithoutAt(s, i);
    } else {
      WithoutNone(s, key);
    }
  }

  lemma {:induction false} AsMapAt<K, V>(s: seq<(K, V)>, i: nat)
    requires DistinctKeys(s) && i < |s|
    ensures s[i].0 in AsMap(s) && AsMap(s)[s[i].0] == s[i].1
  {
    if i > 0 { AsMapAt(s[1..], i - 1); }
  }

  lemma {:induction false} AsMapKeys<K, V>(s: seq<(K, V)>, key: K)
    ensures key in AsMap(s) <==> HasKey(s, key)
  {
    if s != [] {
      AsMapKeys(s[1..], key);
      KeyOfTail(s, key);
    }
  }

  lemma {:induction false} AsMapWithout<K, V>(s: seq<(K, V)>, key: K)
    ensures AsMap(Without(s, key)) == AsMap(s) - {key}
  {
    if s != [] {
      AsMapWithout(s[1..], key);
      var rest := Without(s[1..], key);
      if s[0].0 != key {
        assert Without(s, key)[1..] == rest;
      } else {
        assert Without(s, key) == rest;
      }
    }
  }

  /** As many keys as entries. */
  lemma {:induction false} AsMapSize<K, V>(s: seq<(K, V)>)
    requires DistinctKeys(s)
    ensures |AsMap(s)| == |s|
  {
    if s != [] {
      AsMapSize(s[1..]);
      HeadIsAlone(s);
      AsMapKeys(s[1..], s[0].0);
      assert AsMap(s).Keys == AsMap(s[1..]).Keys + {s[0].0};
    }
  }

  // ---------- runs ----------

  datatype Call<K, V> = Get(key: K) | Put(key: K, value: V) | Remove(key: K)

  /** One call on the entries. */
  function Apply<K(==), V>(s: seq<(K, V)>, c: Call<K, V>): seq<(K, V)> {
    match c
    case Get(key) => if key in AsMap(s) then [(key, AsMap(s)[key])] + Without(s, key) else s
    case Put(key, value) => [(key, value)] + Without(s, key)
    case Remove(key) => Without(s, key)
  }

  function Run<K(==), V>(calls: seq<Call<K, V>>): seq<(K, V)> {
    if calls == [] then [] else Apply(Run(calls[..|calls| - 1]), calls[|calls| - 1])
  }

  function ApplyMap<K(==), V>(m: map<K, V>, c: Call<K, V>): map<K, V> {
    match c
    case Get(_) => m
    case Put(key, value) => m[key := value]
    case Remove(key) => m - {key}
  }

  /** The plain map the calls describe. */
  function RunMap<K(==), V>(calls: seq<Call<K, V>>): map<K, V> {
    if calls == [] then map[] else ApplyMap(RunMap(calls[..|calls| - 1]), calls[|calls| - 1])
  }

  /** When a key was last asked for or put, or -1. */
  function LastUse<K(==), V>(calls: seq<Call<K, V>>, key: K): int {
    if calls == [] then -1
    else
      var c := calls[|calls| - 1];
      if c.key == key && !c.Remove? then |calls| - 1 else LastUse(calls[..|calls| - 1], key)
  }

  lemma {:induction false} LastUseBound<K, V>(calls: seq<Call<K, V>>, key: K)
    ensures -1 <= LastUse(calls, key) < |calls|
  {
    if calls != [] { LastUseBound(calls[..|calls| - 1], key); }
  }

  ghost predicate ByRecency<K, V>(calls: seq<Call<K, V>>, s: seq<(K, V)>) {
    forall i, j :: 0 <= i < j < |s| ==> LastUse(calls, s[i].0) > LastUse(calls, s[j].0)
  }

  lemma ApplyIsMap<K, V>(s: seq<(K, V)>, c: Call<K, V>)
    requires DistinctKeys(s)
    ensures DistinctKeys(Apply(s, c))
    ensures AsMap(Apply(s, c)) == ApplyMap(AsMap(s), c)
  {
    WithoutKeepsDistinct(s, c.key);
    AsMapWithout(s, c.key);
    if c.Put? {
      InFront((c.key, c.value), Without(s, c.key));
    } else if c.Get? && c.key in AsMap(s) {
      InFront((c.key, AsMap(s)[c.key]), Without(s, c.key));
    }
  }

  lemma InFront<K, V>(e: (K, V), rest: seq<(K, V)>)
    requires DistinctKeys(rest) && !HasKey(rest, e.0)
    ensures DistinctKeys([e] + rest) && AsMap([e] + rest) == AsMap(rest)[e.0 := e.1]
  {
    assert ([e] + rest)[1..] == rest;
  }

  /** Over every run of calls the entries hold each key once, are the map the calls describe, and
      stand in order of last use. */
  lemma {:induction false} RunRefines<K, V>(calls: seq<Call<K, V>>)
    ensures DistinctKeys(Run(calls)) && AsMap(Run(calls)) == RunMap(calls)
    ensures ByRecency(calls, Run(calls))
  {
    if calls != [] {
      var before, c := calls[..|calls| - 1], calls[|calls| - 1];
      RunRefines(before);
      ApplyIsMap(Run(before), c);
      ApplyKeepsOrder(before, Run(before), c);
      assert before + [c] == calls;
    }
  }

  lemma LastUseStep<K, V>(before: seq<Call<K, V>>, c: Call<K, V>, key: K)
    ensures LastUse(before + [c], key) == if c.key == key && !c.Remove? then |before| else LastUse(before, key)
    ensures LastUse(before, key) < |before|
  {
    LastUseBound(before, key);
    assert (before + [c])[..|before|] == before;
  }

  lemma ApplyKeepsOrder<K, V>(before: seq<Call<K, V>>, s: seq<(K, V)>, c: Call<K, V>)
    requires DistinctKeys(s) && ByRecency(before, s)
    ensures ByRecency(before + [c], Apply(s, c))
  {
    WithoutKeepsOrder(before, s, c.key);
    AsMapKeys(s, c.key);
    var rest := Without(s, c.key);
    UnusedKeepOrder(before, rest, c);
    if c.Get? && c.key !in AsMap(s) {
      WithoutNone(s, c.key);
    } else if c.Get? {
      LastUseStep(before, c, c.key);
      UsedInFront(before + [c], (c.key, AsMap(s)[c.key]), rest);
    } else if c.Put? {
      LastUseStep(before, c, c.key);
      UsedInFront(before + [c], (c.key, c.value), rest);
    }
  }

  lemma UsedInFront<K, V>(calls: seq<Call<K, V>>, e: (K, V), rest: seq<(K, V)>)
    requires ByRecency(calls, rest)
    requires forall i :: 0 <= i < |rest| ==> LastUse(calls, rest[i].0) < LastUse(calls, e.0)
    ensures ByRecency(calls, [e] + rest)
  {
  }

  /** Entries the call does not name keep their order, behind one it uses. */
  lemma UnusedKeepOrder<K, V>(before: seq<Call<K, V>>, rest: seq<(K, V)>, c: Call<K, V>)
    requires ByRecency(before, rest) && forall i :: 0 <= i < |rest| ==> rest[i].0 != c.key
    ensures ByRecency(before + [c], rest)
    ensures forall i :: 0 <= i < |rest| ==> LastUse(before + [c], rest[i].0) < |before|
  {
    forall i | 0 <= i < |rest|
      ensures LastUse(before + [c], rest[i].0) == LastUse(before, rest[i].0) < |before|
    {
      LastUseStep(before, c, rest[i].0);
    }
  }

  lemma {:induction false} WithoutKeepsOrder<K, V>(calls: seq<Call<K, V>>, s: seq<(K, V)>, key: K)
    requires DistinctKeys(s) && ByRecency(calls, s)
    ensures ByRecency(calls, Without(s, key))
  {
    if HasKey(s, key) {
      var i :| 0 <= i < |s| && s[i].0 == key;
      WithoutAt(s, i);
      CutKeepsOrder(calls, s, i);
    } else {
      WithoutNone(s, key);
    }
  }

  lemma CutKeepsOrder<K, V>(calls: seq<Call<K, V>>, s: seq<(K, V)>, i: nat)
    requires ByRecency(calls, s) && i < |s|
    ensures ByRecency(calls, s[..i] + s[i + 1..])
  {
    var r := s[..i] + s[i + 1..];
    forall a, b | 0 <= a < b < |r| ensures LastUse(calls, r[a].0) > LastUse(calls, r[b].0) {
      assert r[a] == s[if a < i then a else a + 1] && r[b] == s[if b < i then b else b + 1];
    }
  }
}
