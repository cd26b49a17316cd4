/** How two cells compare in the source: `TupleCell::compare` and the comparators under it. */
module TupleCells {

  import opened Expressions

  const TWO31 := 0x8000_0000
  const TWO32 := 0x1_0000_0000

  // ---------- numbers ----------

  /** An `int` result, wrapped around. */
  function Wrap32(n: int): int { (n + TWO31) % TWO32 - TWO31 }

  predicate IsInt32(n: int) { -TWO31 <= n < TWO31 }

  /** `compare_int` subtracts. */
  function CompareInts(i: int, j: int): int { Wrap32(i - j) }

  /** `compare_float` */
  function CompareFloats(a: real, b: real): int {
    if a - b > EPSILON then 1 else if a - b < -EPSILON then -1 else 0
  }

  /** The sign of `c` is that of `i` against `j`. */
  predicate Orders(c: int, i: int, j: int) { (c < 0 <==> i < j) && (c == 0 <==> i == j) }

  /** The difference orders two integers exactly when it fits an `int` itself. */
  lemma IntsOrdered(i: int, j: int)
    requires IsInt32(i) && IsInt32(j)
    ensures Orders(CompareInts(i, j), i, j) <==> IsInt32(i - j)
  {
    var n := i - j;
    if n >= TWO31 {
      assert Wrap32(n) == n - TWO32;
    } else if n < -TWO31 {
      assert Wrap32(n) == n + TWO32;
    }
  }

  /** So the largest integer passes as less than -1. */
  lemma FarIntsExample()
    ensures CompareInts(TWO31 - 1, -1) < 0
  {
  }

  /** Numbers no further apart than the epsilon are equal, others in order. */
  lemma FloatsOrdered(a: real, b: real)
    ensures CompareFloats(a, b) == 0 <==> -EPSILON <= a - b <= EPSILON
    ensures CompareFloats(a, b) != 0 ==> (CompareFloats(a, b) < 0 <==> a < b)
    ensures CompareFloats(b, a) == -CompareFloats(a, b)
  {
  }

  // ---------- strings ----------

  function Code(c: char): int { c as int }

  /** A byte read as `char`, which is signed. */
  function SignedByte(c: char): int { if Code(c) >= 128 then Code(c) - 256 else Code(c) }

  /** `strncmp` on the first `n` bytes: the first difference decides, and a NUL ends both. */
  function Strncmp(a: string, b: string, n: nat): int
    requires n <= |a| && n <= |b|
    decreases n
  {
    if n == 0 then 0
    else if a[0] != b[0] then Code(a[0]) - Code(b[0])
    else if a[0] == '\0' then 0
    else Strncmp(a[1..], b[1..], n - 1)
  }

  /** `compare_string` */
  function CompareStrings(a: string, b: string): int {
    var n := if |a| <= |b| then |a| else |b|;
    var result := Strncmp(a, b, n);
    if result != 0 then result
    else if |a| > n then SignedByte(a[n])
    else if |b| > n then -SignedByte(b[n])
    else 0
  }

  /** The order of a dictionary, on bytes. */
  predicate LexLess(a: string, b: string) {
    b != [] && (a == [] || Code(a[0]) < Code(b[0]) || (a[0] == b[0] && LexLess(a[1..], b[1..])))
  }

  /** Bytes of a C string. */
  predicate IsCString(s: string) { forall i :: 0 <= i < |s| ==> 0 < Code(s[i]) < 256 }

  /** One is the start of the other, which goes on with a byte from 128 on. */
  predicate GoesOnHigh(a: string, b: string) {
    (a < b && Code(b[|a|]) >= 128) || (b < a && Code(a[|b|]) >= 128)
  }

  /** Strings compare as in a dictionary exactly unless one is the start of the other and the other
      goes on with a byte that is negative as a `char`. */
  lemma {:induction false} StringsOrdered(a: string, b: string)
    requires IsCString(a) && IsCString(b)
    ensures (CompareStrings(a, b) < 0 <==> LexLess(a, b)) && (CompareStrings(a, b) == 0 <==> a == b)
            <==> !GoesOnHigh(a, b)
  {
    if a != [] && b != [] && a[0] == b[0] {
      StringsOrdered(a[1..], b[1..]);
      SameStart(a, b);
    }
  }

  /** What comes after a common NUL is not looked at. */
  lemma {:induction false} StopsAtNul(start: string, a: string, b: string)
    ensures Strncmp(start + "\0" + a, start + "\0" + b, |start| + 1 + if |a| <= |b| then |a| else |b|) == 0
  {
    if start != [] {
      assert (start + "\0" + a)[1..] == start[1..] + "\0" + a;
      assert (start + "\0" + b)[1..] == start[1..] + "\0" + b;
      StopsAtNul(start[1..], a, b);
    }
  }

  lemma SameStart(a: string, b: string)
    requires IsCString(a) && IsCString(b) && a != [] && b != [] && a[0] == b[0]
    ensures CompareStrings(a, b) == CompareStrings(a[1..], b[1..])
    ensures a == b <==> a[1..] == b[1..]
    ensures GoesOnHigh(a, b) <==> GoesOnHigh(a[1..], b[1..])
  {
    assert a == [a[0]] + a[1..] && b == [b[0]] + b[1..];
  }

  // ---------- cells ----------

  /** `TupleCell::compare`: numbers with numbers, strings with strings, anything else is -1. */
  function Compare(l: Cell, r: Cell): int {
    match (l, r)
    case (Ints(i), Ints(j)) => CompareInts(i, j)
    case (Floats(a), Floats(b)) => CompareFloats(a, b)
    case (Chars(a), Chars(b)) => CompareStrings(a, b)
    case (Booleans(a), Booleans(b)) => CompareInts(if a then 1 else 0, if b then 1 else 0)
    case (Ints(i), Floats(b)) => CompareFloats(i as real, b)
    case (Floats(a), Ints(j)) => CompareFloats(a, j as real)
    case _ => -1
  }

  /** Comparing equal does not depend on the order. */
  lemma EqualBothWays(l: Cell, r: Cell)
    ensures Compare(l, r) == 0 <==> Compare(r, l) == 0
  {
    match (l, r)
    case (Ints(i), Ints(j)) => WrapMirrored(i - j);
    case (Booleans(a), Booleans(b)) => WrapMirrored((if a then 1 else 0) - (if b then 1 else 0));
    case (Chars(a), Chars(b)) => StringsMirrored(a, b);
    case _ =>
  }

  /** A number counts as true exactly when it does not compare equal to 0, but for the epsilon
      itself, which does both; a C string exactly when it does not compare equal to the empty one. */
  lemma TrueIsNotZero(env: Env, i: int, f: real, s: string)
    requires IsInt32(i) && IsCString(s)
    ensures GetBoolean(env, Chars(s)) <==> Compare(Chars(s), Chars("")) != 0
    ensures GetBoolean(env, Ints(i)) <==> Compare(Ints(i), Ints(0)) != 0
    ensures GetBoolean(env, Floats(f)) <==> Compare(Floats(f), Ints(0)) != 0 || f == EPSILON || f == -EPSILON
  {
  }

  lemma WrapMirrored(n: int)
    ensures Wrap32(n) == 0 <==> Wrap32(-n) == 0
  {
  }

  lemma {:induction false} StrncmpMirrored(a: string, b: string, n: nat)
    requires n <= |a| && n <= |b|
    ensures Strncmp(a, b, n) == -Strncmp(b, a, n)
    decreases n
  {
    if n > 0 && a[0] == b[0] { StrncmpMirrored(a[1..], b[1..], n - 1); }
  }

  lemma StringsMirrored(a: string, b: string)
    ensures CompareStrings(a, b) == -CompareStrings(b, a)
  {
    StrncmpMirrored(a, b, if |a| <= |b| then |a| else |b|);
  }
}
