/** The compression function of MD5 against the schedule of RFC 1321 and two of its test vectors. */
module Md5Vectors {

  import opened Md5

  // ---------- the schedule of section 3.4 of RFC 1321 ----------

  function RoundOf(j: nat): Round {
    if j < 16 then FF else if j < 32 then GG else if j < 48 then HH else II
  }

  /** The message word of line `j`. */
  function WordOf(j: nat): nat {
    (if j < 16 then j else if j < 32 then 5 * j + 1 else if j < 48 then 3 * j + 5 else 7 * j) % 16
  }

  /** The four shifts of a round, over and over. */
  function ShiftOf(j: nat): nat {
    var i := j % 4;
    match RoundOf(j)
    case FF => 7 + 5 * i
    case GG => 5 + i * (i + 7) / 2
    case HH => 4 + 6 * i + i % 2
    case II => 6 + i * (i + 7) / 2
  }

  predicate IsLine(l: Line, j: nat) {
    l.round == RoundOf(j) && l.k == WordOf(j) && l.shift as nat == ShiftOf(j)
  }

  predicate OnSchedule(q: nat)
    requires q < 16
  {
    && IsLine(QuadAt(q).first, 4 * q) && IsLine(QuadAt(q).second, 4 * q + 1)
    && IsLine(QuadAt(q).third, 4 * q + 2) && IsLine(QuadAt(q).fourth, 4 * q + 3)
  }

  lemma Quad0OnSchedule()
    ensures OnSchedule(0)
  {
  }

  lemma Quad1OnSchedule()
    ensures OnSchedule(1)
  {
  }

  lemma Quad2OnSchedule()
    ensures OnSchedule(2)
  {
  }

  lemma Quad3OnSchedule()
    ensures OnSchedule(3)
  {
  }

  lemma Quad4OnSchedule()
    ensures OnSchedule(4)
  {
  }

  lemma Quad5OnSchedule()
    ensures OnSchedule(5)
  {
  }

  lemma Quad6OnSchedule()
    ensures OnSchedule(6)
  {
  }

  lemma Quad7OnSchedule()
    ensures OnSchedule(7)
  {
  }

  lemma Quad8OnSchedule()
    ensures OnSchedule(8)
  {
  }

  lemma Quad9OnSchedule()
    ensures OnSchedule(9)
  {
  }

  lemma Quad10OnSchedule()
    ensures OnSchedule(10)
  {
  }

  lemma Quad11OnSchedule()
    ensures OnSchedule(11)
  {
  }

  lemma Quad12OnSchedule()
    ensures OnSchedule(12)
  {
  }

  lemma Quad13OnSchedule()
    ensures OnSchedule(13)
  {
  }

  lemma Quad14OnSchedule()
    ensures OnSchedule(14)
  {
  }

  lemma Quad15OnSchedule()
    ensures OnSchedule(15)
  {
  }

  /** Each of the 64 lines has the round, the message word and the shift of its place. */
  lemma Schedule(q: nat)
    requires q < 16
    ensures OnSchedule(q)
  {
    match q
    case 0 => Quad0OnSchedule();
    case 1 => Quad1OnSchedule();
    case 2 => Quad2OnSchedule();
    case 3 => Quad3OnSchedule();
    case 4 => Quad4OnSchedule();
    case 5 => Quad5OnSchedule();
    case 6 => Quad6OnSchedule();
    case 7 => Quad7OnSchedule();
    case 8 => Quad8OnSchedule();
    case 9 => Quad9OnSchedule();
    case 10 => Quad10OnSchedule();
    case 11 => Quad11OnSchedule();
    case 12 => Quad12OnSchedule();
    case 13 => Quad13OnSchedule();
    case 14 => Quad14OnSchedule();
    case _ => Quad15OnSchedule();
  }

  /** Each round reads every word of the block once. */
  lemma EveryWordOnce(i: nat, j: nat)
    requires i < j < 64 && RoundOf(i) == RoundOf(j)
    ensures WordOf(i) != WordOf(j)
  {
    var d := j - i;
    NoMultiple(d);
    match RoundOf(i)
    case FF => DifferentRests(i, j);
    case GG => DifferentRests(5 * i + 1, 5 * j + 1);
    case HH => DifferentRests(3 * i + 5, 3 * j + 5);
    case II => DifferentRests(7 * i, 7 * j);
  }

  /** No odd factor of the schedule takes a distance within a round to a multiple of 16. */
  lemma NoMultiple(d: nat)
    requires 0 < d < 16
    ensures d % 16 != 0 && 5 * d % 16 != 0 && 3 * d % 16 != 0 && 7 * d % 16 != 0
  {
  }

  lemma DifferentRests(a: nat, b: nat)
    requires a <= b && (b - a) % 16 != 0
    ensures a % 16 != b % 16
  {
  }

  // ---------- rotation and the four functions, bit by bit ----------

  /** On the shifts of the schedule `RotateLeft` turns the word. */
  lemma RotateTurns(x: bv32)
    ensures RotateLeft(x, 7) == x.RotateLeft(7)
    ensures RotateLeft(x, 12) == x.RotateLeft(12)
    ensures RotateLeft(x, 17) == x.RotateLeft(17)
    ensures RotateLeft(x, 22) == x.RotateLeft(22)
    ensures RotateLeft(x, 5) == x.RotateLeft(5)
    ensures RotateLeft(x, 9) == x.RotateLeft(9)
    ensures RotateLeft(x, 14) == x.RotateLeft(14)
    ensures RotateLeft(x, 20) == x.RotateLeft(20)
    ensures RotateLeft(x, 4) == x.RotateLeft(4)
    ensures RotateLeft(x, 11) == x.RotateLeft(11)
    ensures RotateLeft(x, 16) == x.RotateLeft(16)
    ensures RotateLeft(x, 23) == x.RotateLeft(23)
    ensures RotateLeft(x, 6) == x.RotateLeft(6)
    ensures RotateLeft(x, 10) == x.RotateLeft(10)
    ensures RotateLeft(x, 15) == x.RotateLeft(15)
    ensures RotateLeft(x, 21) == x.RotateLeft(21)
  {
  }

  /** The first two functions choose between words bit by bit, by `x` and by `z`. */
  lemma FirstChooses(x: bv32, y: bv32, z: bv32)
    ensures Mix(FF, x, y, z) & x == y & x && Mix(FF, x, y, z) & !x == z & !x
  {
  }

  lemma SecondChooses(x: bv32, y: bv32, z: bv32)
    ensures Mix(GG, x, y, z) & z == x & z && Mix(GG, x, y, z) & !z == y & !z
  {
  }

  /** The third is the parity of the bits, the fourth flips `y` where `x` is set or `z` is not. */
  lemma ThirdIsParity(x: bv32, y: bv32, z: bv32)
    ensures Mix(HH, x, y, z) ^ x == y ^ z
  {
  }

  lemma FourthFlips(x: bv32, y: bv32, z: bv32)
    ensures Mix(II, x, y, z) ^ y == x | !z
  {
  }

  // ---------- the test vectors of appendix A.5 of RFC 1321 ----------

  const START := Registers(0x67452301, 0xefcdab89, 0x98badcfe, 0x10325476)

  /** A quad, by the four words it computes. */
  lemma QuadGives(q: Quad, r: Registers, x: seq<bv32>, a: bv32, b: bv32, c: bv32, d: bv32)
    requires |x| == 16
    requires NewWord(q.first, r, x[q.first.k]) == a
    requires NewWord(q.second, Registers(r.d, a, r.b, r.c), x[q.second.k]) == b
    requires NewWord(q.third, Registers(r.c, b, a, r.b), x[q.third.k]) == c
    requires NewWord(q.fourth, Registers(r.b, c, b, a), x[q.fourth.k]) == d
    ensures RunQuad(q, r, x) == Registers(a, d, c, b)
  {
  }

  predicate After(n: nat, x: seq<bv32>, r: Registers) {
    n <= 16 && |x| == 16 && RunQuads(Quads()[..n], START, x) == r
  }

  lemma OneMore(n: nat, x: seq<bv32>, r: Registers, r': Registers)
    requires n < 16 && After(n, x, r) && RunQuad(QuadAt(n), r, x) == r'
    ensures After(n + 1, x, r')
  {
    assert Quads()[..n + 1][..n] == Quads()[..n];
  }

  /** The padded block of the empty message. */
  predicate IsEmptyBlock(x: seq<bv32>) {
    x == [0x80, 0, 0, 0, 0, 0, 0, 0, 0, 0, 0, 0, 0, 0, 0, 0]
  }

  lemma EmptyQuad0(x: seq<bv32>)
    requires IsEmptyBlock(x)
    ensures RunQuad(QuadAt(0), START, x)
         == Registers(0xa5202774, 0x1b163203, 0xe7f06b23, 0xf59592dd)
  {
    QuadGives(QuadAt(0), START, x,
              0xa5202774, 0xf59592dd, 0xe7f06b23, 0x1b163203);
  }

  lemma EmptyQuad1(x: seq<bv32>)
    requires IsEmptyBlock(x)
    ensures RunQuad(QuadAt(1), Registers(0xa5202774, 0x1b163203, 0xe7f06b23, 0xf59592dd), x)
         == Registers(0x32033344, 0x9bc13ce9, 0xf5b158db, 0x2f35d494)
  {
    QuadGives(QuadAt(1), Registers(0xa5202774, 0x1b163203, 0xe7f06b23, 0xf59592dd), x,
              0x32033344, 0x2f35d494, 0xf5b158db, 0x9bc13ce9);
  }

  lemma EmptyQuad2(x: seq<bv32>)
    requires IsEmptyBlock(x)
    ensures RunQuad(QuadAt(2), Registers(0x32033344, 0x9bc13ce9, 0xf5b158db, 0x2f35d494), x)
         == Registers(0x3893b991, 0x70768a29, 0xe1ef0576, 0xfce4a312)
  {
    QuadGives(QuadAt(2), Registers(0x32033344, 0x9bc13ce9, 0xf5b158db, 0x2f35d494), x,
              0x3893b991, 0xfce4a312, 0xe1ef0576, 0x70768a29);
  }

  lemma EmptyQuad3(x: seq<bv32>)
    requires IsEmptyBlock(x)
    ensures RunQuad(QuadAt(3), Registers(0x3893b991, 0x70768a29, 0xe1ef0576, 0xfce4a312), x)
         == Registers(0xf56c7cf1, 0xd6819c6a, 0x5aa53f75, 0x374943a7)
  {
    QuadGives(QuadAt(3), Registers(0x3893b991, 0x70768a29, 0xe1ef0576, 0xfce4a312), x,
              0xf56c7cf1, 0x374943a7, 0x5aa53f75, 0xd6819c6a);
  }

  lemma EmptyQuad4(x: seq<bv32>)
    requires IsEmptyBlock(x)
    ensures RunQuad(QuadAt(4), Registers(0xf56c7cf1, 0xd6819c6a, 0x5aa53f75, 0x374943a7), x)
         == Registers(0x1c7d7513, 0xbd782e17, 0xc095f13a, 0x7bd57a3a)
  {
    QuadGives(QuadAt(4), Registers(0xf56c7cf1, 0xd6819c6a, 0x5aa53f75, 0x374943a7), x,
              0x1c7d7513, 0x7bd57a3a, 0xc095f13a, 0xbd782e17);
  }

  lemma EmptyQuad5(x: seq<bv32>)
    requires IsEmptyBlock(x)
    ensures RunQuad(QuadAt(5), Registers(0x1c7d7513, 0xbd782e17, 0xc095f13a, 0x7bd57a3a), x)
         == Registers(0x3d1e3e6c, 0xe422531a, 0xeb41643e, 0x68b7b3e3)
  {
    QuadGives(QuadAt(5), Registers(0x1c7d7513, 0xbd782e17, 0xc095f13a, 0x7bd57a3a), x,
              0x3d1e3e6c, 0x68b7b3e3, 0xeb41643e, 0xe422531a);
  }

  lemma EmptyQuad6(x: seq<bv32>)
    requires IsEmptyBlock(x)
    ensures RunQuad(QuadAt(6), Registers(0x3d1e3e6c, 0xe422531a, 0xeb41643e, 0x68b7b3e3), x)
         == Registers(0x306ec122, 0xa0572807, 0xa3c663da, 0xd28c77c2)
  {
    QuadGives(QuadAt(6), Registers(0x3d1e3e6c, 0xe422531a, 0xeb41643e, 0x68b7b3e3), x,
              0x306ec122, 0xd28c77c2, 0xa3c663da, 0xa0572807);
  }

  lemma EmptyQuad7(x: seq<bv32>)
    requires IsEmptyBlock(x)
    ensures RunQuad(QuadAt(7), Registers(0x306ec122, 0xa0572807, 0xa3c663da, 0xd28c77c2), x)
         == Registers(0x13707036, 0xa2205f1f, 0x1c31c384, 0xae7813db)
  {
    QuadGives(QuadAt(7), Registers(0x306ec122, 0xa0572807, 0xa3c663da, 0xd28c77c2), x,
              0x13707036, 0xae7813db, 0x1c31c384, 0xa2205f1f);
  }

  lemma EmptyQuad8(x: seq<bv32>)
    requires IsEmptyBlock(x)
    ensures RunQuad(QuadAt(8), Registers(0x13707036, 0xa2205f1f, 0x1c31c384, 0xae7813db), x)
         == Registers(0xdf63eaa1, 0x4b6669, 0x12f3e755, 0xc3689f5b)
  {
    QuadGives(QuadAt(8), Registers(0x13707036, 0xa2205f1f, 0x1c31c384, 0xae7813db), x,
              0xdf63eaa1, 0xc3689f5b, 0x12f3e755, 0x4b6669);
  }

  lemma EmptyQuad9(x: seq<bv32>)
    requires IsEmptyBlock(x)
    ensures RunQuad(QuadAt(9), Registers(0xdf63eaa1, 0x4b6669, 0x12f3e755, 0xc3689f5b), x)
         == Registers(0x5f7a9b2e, 0xc5dc8c15, 0x91ca4cb7, 0xabc34e16)
  {
    QuadGives(QuadAt(9), Registers(0xdf63eaa1, 0x4b6669, 0x12f3e755, 0xc3689f5b), x,
              0x5f7a9b2e, 0xabc34e16, 0x91ca4cb7, 0xc5dc8c15);
  }

  lemma EmptyQuad10(x: seq<bv32>)
    requires IsEmptyBlock(x)
    ensures RunQuad(QuadAt(10), Registers(0x5f7a9b2e, 0xc5dc8c15, 0x91ca4cb7, 0xabc34e16), x)
         == Registers(0x4497169d, 0xfe32453, 0xfd95f243, 0x76fd93d4)
  {
    QuadGives(QuadAt(10), Registers(0x5f7a9b2e, 0xc5dc8c15, 0x91ca4cb7, 0xabc34e16), x,
              0x4497169d, 0x76fd93d4, 0xfd95f243, 0xfe32453);
  }

  lemma EmptyQuad11(x: seq<bv32>)
    requires IsEmptyBlock(x)
    ensures RunQuad(QuadAt(11), Registers(0x4497169d, 0xfe32453, 0xfd95f243, 0x76fd93d4), x)
         == Registers(0x3f55edfd, 0xca7d2dbd, 0x68d84ea2, 0x22a31f54)
  {
    QuadGives(QuadAt(11), Registers(0x4497169d, 0xfe32453, 0xfd95f243, 0x76fd93d4), x,
              0x3f55edfd, 0x22a31f54, 0x68d84ea2, 0xca7d2dbd);
  }

  lemma EmptyQuad12(x: seq<bv32>)
    requires IsEmptyBlock(x)
    ensures RunQuad(QuadAt(12), Registers(0x3f55edfd, 0xca7d2dbd, 0x68d84ea2, 0x22a31f54), x)
         == Registers(0x93aa2577, 0x561e0689, 0xcd85b8cb, 0x1688dc85)
  {
    QuadGives(QuadAt(12), Registers(0x3f55edfd, 0xca7d2dbd, 0x68d84ea2, 0x22a31f54), x,
              0x93aa2577, 0x1688dc85, 0xcd85b8cb, 0x561e0689);
  }

  lemma EmptyQuad13(x: seq<bv32>)
    requires IsEmptyBlock(x)
    ensures RunQuad(QuadAt(13), Registers(0x93aa2577, 0x561e0689, 0xcd85b8cb, 0x1688dc85), x)
         == Registers(0x5625a114, 0x1e77fa61, 0x392ad0d0, 0x3450f42b)
  {
    QuadGives(QuadAt(13), Registers(0x93aa2577, 0x561e0689, 0xcd85b8cb, 0x1688dc85), x,
              0x5625a114, 0x3450f42b, 0x392ad0d0, 0x1e77fa61);
  }

  lemma EmptyQuad14(x: seq<bv32>)
    requires IsEmptyBlock(x)
    ensures RunQuad(QuadAt(14), Registers(0x5625a114, 0x1e77fa61, 0x392ad0d0, 0x3450f42b), x)
         == Registers(0x474a9c8c, 0x30130182, 0x36594b14, 0xdfce00bc)
  {
    QuadGives(QuadAt(14), Registers(0x5625a114, 0x1e77fa61, 0x392ad0d0, 0x3450f42b), x,
              0x474a9c8c, 0xdfce00bc, 0x36594b14, 0x30130182);
  }

  lemma EmptyQuad15(x: seq<bv32>)
    requires IsEmptyBlock(x)
    ensures RunQuad(QuadAt(15), Registers(0x474a9c8c, 0x30130182, 0x36594b14, 0xdfce00bc), x)
         == Registers(0x7246fad3, 0x14e45506, 0xff4ea3eb, 0x6e10a476)
  {
    QuadGives(QuadAt(15), Registers(0x474a9c8c, 0x30130182, 0x36594b14, 0xdfce00bc), x,
              0x7246fad3, 0x6e10a476, 0xff4ea3eb, 0x14e45506);
  }

  /** The padded block of "abc". */
  predicate IsAbcBlock(x: seq<bv32>) {
    x == [0x80636261, 0, 0, 0, 0, 0, 0, 0, 0, 0, 0, 0, 0, 0, 0x18, 0]
  }

  lemma AbcQuad0(x: seq<bv32>)
    requires IsAbcBlock(x)
    ensures RunQuad(QuadAt(0), START, x)
         == Registers(0xd6d117b4, 0x7ad956f2, 0x2f6fbd72, 0x344a8432)
  {
    QuadGives(QuadAt(0), START, x,
              0xd6d117b4, 0x344a8432, 0x2f6fbd72, 0x7ad956f2);
  }

  lemma AbcQuad1(x: seq<bv32>)
    requires IsAbcBlock(x)
    ensures RunQuad(QuadAt(1), Registers(0xd6d117b4, 0x7ad956f2, 0x2f6fbd72, 0x344a8432), x)
         == Registers(0xc73741ef, 0x928d99f6, 0x207dc67b, 0x8bac3051)
  {
    QuadGives(QuadAt(1), Registers(0xd6d117b4, 0x7ad956f2, 0x2f6fbd72, 0x344a8432), x,
              0xc73741ef, 0x8bac3051, 0x207dc67b, 0x928d99f6);
  }

  lemma AbcQuad2(x: seq<bv32>)
    requires IsAbcBlock(x)
    ensures RunQuad(QuadAt(2), Registers(0xc73741ef, 0x928d99f6, 0x207dc67b, 0x8bac3051), x)
         == Registers(0x854b3712, 0x5ed49596, 0x3020401c, 0x74e2f284)
  {
    QuadGives(QuadAt(2), Registers(0xc73741ef, 0x928d99f6, 0x207dc67b, 0x8bac3051), x,
              0x854b3712, 0x74e2f284, 0x3020401c, 0x5ed49596);
  }

  lemma AbcQuad3(x: seq<bv32>)
    requires IsAbcBlock(x)
    ensures RunQuad(QuadAt(3), Registers(0x854b3712, 0x5ed49596, 0x3020401c, 0x74e2f284), x)
         == Registers(0xdda9b9a6, 0x72aff2e0, 0xe396856b, 0xa1051895)
  {
    QuadGives(QuadAt(3), Registers(0x854b3712, 0x5ed49596, 0x3020401c, 0x74e2f284), x,
              0xdda9b9a6, 0xa1051895, 0xe396856b, 0x72aff2e0);
  }

  lemma AbcQuad4(x: seq<bv32>)
    requires IsAbcBlock(x)
    ensures RunQuad(QuadAt(4), Registers(0xdda9b9a6, 0x72aff2e0, 0xe396856b, 0xa1051895), x)
         == Registers(0x3e9e9126, 0xb5b204e4, 0xe25e1652, 0x4a1d804e)
  {
    QuadGives(QuadAt(4), Registers(0xdda9b9a6, 0x72aff2e0, 0xe396856b, 0xa1051895), x,
              0x3e9e9126, 0x4a1d804e, 0xe25e1652, 0xb5b204e4);
  }

  lemma AbcQuad5(x: seq<bv32>)
    requires IsAbcBlock(x)
    ensures RunQuad(QuadAt(5), Registers(0x3e9e9126, 0xb5b204e4, 0xe25e1652, 0x4a1d804e), x)
         == Registers(0x59a8ffda, 0x47092c07, 0xabfc7920, 0x6d002f1e)
  {
    QuadGives(QuadAt(5), Registers(0x3e9e9126, 0xb5b204e4, 0xe25e1652, 0x4a1d804e), x,
              0x59a8ffda, 0x6d002f1e, 0xabfc7920, 0x47092c07);
  }

  lemma AbcQuad6(x: seq<bv32>)
    requires IsAbcBlock(x)
    ensures RunQuad(QuadAt(6), Registers(0x59a8ffda, 0x47092c07, 0xabfc7920, 0x6d002f1e), x)
         == Registers(0xb7f268cf, 0x786acb8f, 0xfe1623b1, 0x9388eff)
  {
    QuadGives(QuadAt(6), Registers(0x59a8ffda, 0x47092c07, 0xabfc7920, 0x6d002f1e), x,
              0xb7f268cf, 0x9388eff, 0xfe1623b1, 0x786acb8f);
  }

  lemma AbcQuad7(x: seq<bv32>)
    requires IsAbcBlock(x)
    ensures RunQuad(QuadAt(7), Registers(0xb7f268cf, 0x786acb8f, 0xfe1623b1, 0x9388eff), x)
         == Registers(0x790a77fb, 0x726342d3, 0xa62884aa, 0x9f47e4f8)
  {
    QuadGives(QuadAt(7), Registers(0xb7f268cf, 0x786acb8f, 0xfe1623b1, 0x9388eff), x,
              0x790a77fb, 0x9f47e4f8, 0xa62884aa, 0x726342d3);
  }

  lemma AbcQuad8(x: seq<bv32>)
    requires IsAbcBlock(x)
    ensures RunQuad(QuadAt(8), Registers(0x790a77fb, 0x726342d3, 0xa62884aa, 0x9f47e4f8), x)
         == Registers(0xb3707ebf, 0x3b0875c7, 0x8d212ff5, 0x60127b2e)
  {
    QuadGives(QuadAt(8), Registers(0x790a77fb, 0x726342d3, 0xa62884aa, 0x9f47e4f8), x,
              0xb3707ebf, 0x60127b2e, 0x8d212ff5, 0x3b0875c7);
  }

  lemma AbcQuad9(x: seq<bv32>)
    requires IsAbcBlock(x)
    ensures RunQuad(QuadAt(9), Registers(0xb3707ebf, 0x3b0875c7, 0x8d212ff5, 0x60127b2e), x)
         == Registers(0x21b117b9, 0x5a2f5ea5, 0x3575227e, 0x6e7429d5)
  {
    QuadGives(QuadAt(9), Registers(0xb3707ebf, 0x3b0875c7, 0x8d212ff5, 0x60127b2e), x,
              0x21b117b9, 0x6e7429d5, 0x3575227e, 0x5a2f5ea5);
  }

  lemma AbcQuad10(x: seq<bv32>)
    requires IsAbcBlock(x)
    ensures RunQuad(QuadAt(10), Registers(0x21b117b9, 0x5a2f5ea5, 0x3575227e, 0x6e7429d5), x)
         == Registers(0x11de1779, 0x4c6124f4, 0x31c465ca, 0xfadcaa38)
  {
    QuadGives(QuadAt(10), Registers(0x21b117b9, 0x5a2f5ea5, 0x3575227e, 0x6e7429d5), x,
              0x11de1779, 0xfadcaa38, 0x31c465ca, 0x4c6124f4);
  }

  lemma AbcQuad11(x: seq<bv32>)
    requires IsAbcBlock(x)
    ensures RunQuad(QuadAt(11), Registers(0x11de1779, 0x4c6124f4, 0x31c465ca, 0xfadcaa38), x)
         == Registers(0x7f2e507b, 0x7beb9700, 0x8fae6399, 0x99d9679d)
  {
    QuadGives(QuadAt(11), Registers(0x11de1779, 0x4c6124f4, 0x31c465ca, 0xfadcaa38), x,
              0x7f2e507b, 0x99d9679d, 0x8fae6399, 0x7beb9700);
  }

  lemma AbcQuad12(x: seq<bv32>)
    requires IsAbcBlock(x)
    ensures RunQuad(QuadAt(12), Registers(0x7f2e507b, 0x7beb9700, 0x8fae6399, 0x99d9679d), x)
         == Registers(0x7b201df8, 0x8bf025c4, 0xb298cefd, 0xf4e8e96e)
  {
    QuadGives(QuadAt(12), Registers(0x7f2e507b, 0x7beb9700, 0x8fae6399, 0x99d9679d), x,
              0x7b201df8, 0xf4e8e96e, 0xb298cefd, 0x8bf025c4);
  }

  lemma AbcQuad13(x: seq<bv32>)
    requires IsAbcBlock(x)
    ensures RunQuad(QuadAt(13), Registers(0x7b201df8, 0x8bf025c4, 0xb298cefd, 0xf4e8e96e), x)
         == Registers(0x6cc5e8a, 0x3bfa2c27, 0x7d632dd0, 0x5b0d97aa)
  {
    QuadGives(QuadAt(13), Registers(0x7b201df8, 0x8bf025c4, 0xb298cefd, 0xf4e8e96e), x,
              0x6cc5e8a, 0x5b0d97aa, 0x7d632dd0, 0x3bfa2c27);
  }

  lemma AbcQuad14(x: seq<bv32>)
    requires IsAbcBlock(x)
    ensures RunQuad(QuadAt(14), Registers(0x6cc5e8a, 0x3bfa2c27, 0x7d632dd0, 0x5b0d97aa), x)
         == Registers(0x7f81cc35, 0x7327d604, 0x4f9dbe3f, 0x94454ab)
  {
    QuadGives(QuadAt(14), Registers(0x6cc5e8a, 0x3bfa2c27, 0x7d632dd0, 0x5b0d97aa), x,
              0x7f81cc35, 0x94454ab, 0x4f9dbe3f, 0x7327d604);
  }

  lemma AbcQuad15(x: seq<bv32>)
    requires IsAbcBlock(x)
    ensures RunQuad(QuadAt(15), Registers(0x7f81cc35, 0x7327d604, 0x4f9dbe3f, 0x94454ab), x)
         == Registers(0x310ade8f, 0xc08226b3, 0xe484b9d8, 0x624d8cb2)
  {
    QuadGives(QuadAt(15), Registers(0x7f81cc35, 0x7327d604, 0x4f9dbe3f, 0x94454ab), x,
              0x310ade8f, 0x624d8cb2, 0xe484b9d8, 0xc08226b3);
  }

  // ---------- the digests ----------

  /** A word read as a bit-vector. */
  lemma WordBits(w: Word, bits: bv32)
    requires w == bits as int
    ensures w as bv32 == bits
  {
  }

  lemma {:induction false} DecodeAt(bs: seq<Byte>, k: nat)
    requires |bs| % 4 == 0 && 4 * k + 4 <= |bs|
    ensures DecodeWords(bs)[k] == DecodeWord(bs[4 * k..4 * k + 4])
  {
    if k > 0 {
      DecodeAt(bs[4..], k - 1);
      TailSlice(bs, 4 * (k - 1));
    }
  }

  lemma TailSlice(bs: seq<Byte>, i: nat)
    requires i + 8 <= |bs|
    ensures bs[4..][i..i + 4] == bs[i + 4..i + 8]
  {
  }

  /** A block of which only the first word and the low byte of the bit length are not zero. */
  predicate IsShort(block: Block, first: bv32, length: bv32) {
    && DecodeWord(block[..4]) == first as int && block[56] == length as int
    && forall i :: 4 <= i < 64 && i != 56 ==> block[i] == 0
  }

  function ShortBits(first: bv32, length: bv32, k: nat): bv32 {
    if k == 0 then first else if k == 14 then length else 0
  }

  lemma ShortWord(block: Block, first: bv32, length: bv32, k: nat)
    requires IsShort(block, first, length) && k < 16
    ensures DecodeWords(block)[k] == ShortBits(first, length, k) as int
  {
    DecodeAt(block, k);
    if k > 0 {
      Slice(block, 4 * k);
      if k == 14 {
        assert block[56] == length as int && block[57] == 0 && block[58] == 0 && block[59] == 0;
      } else {
        assert block[4 * k] == 0 && block[4 * k + 1] == 0 && block[4 * k + 2] == 0 && block[4 * k + 3] == 0;
      }
    }
  }

  lemma Slice(bs: seq<Byte>, i: nat)
    requires i + 4 <= |bs|
    ensures bs[i..i + 4] == [bs[i], bs[i + 1], bs[i + 2], bs[i + 3]]
  {
  }

  lemma ShortBlock(block: Block, first: bv32, length: bv32)
    requires IsShort(block, first, length)
    ensures Bits(DecodeWords(block)) == [first, 0, 0, 0, 0, 0, 0, 0, 0, 0, 0, 0, 0, 0, length, 0]
  {
    forall k | 0 <= k < 16 ensures Bits(DecodeWords(block))[k] == ShortBits(first, length, k) {
      ShortWord(block, first, length, k);
      WordBits(DecodeWords(block)[k], ShortBits(first, length, k));
    }
  }

  lemma StartIsInit()
    ensures START == Registers(INIT.a as bv32, INIT.b as bv32, INIT.c as bv32, INIT.d as bv32)
  {
    WordBits(INIT.a, START.a);
    WordBits(INIT.b, START.b);
    WordBits(INIT.c, START.c);
    WordBits(INIT.d, START.d);
  }

  lemma OneBlock(f: Compress, block: Block)
    ensures Fold(f, INIT, block) == f(INIT, block)
  {
    assert block[..64] == block && block[64..] == [];
  }

  lemma TransformGives(block: Block, r: Registers)
    requires After(16, Bits(DecodeWords(block)), r)
    ensures Transform(INIT, block) == AddRegisters(INIT, r)
  {
    StartIsInit();
    assert Quads()[..16] == Quads();
  }

  /** The length of a message of less than 32 bytes. */
  lemma ShortLength(n: nat)
    requires n < 32
    ensures EncodeWords(LengthWords(n)) == [8 * n, 0, 0, 0, 0, 0, 0, 0]
  {
    var ws := LengthWords(n);
    assert ws == [8 * n, 0] && ws[1..] == [0] && ws[1..][1..] == [];
    assert EncodeWord(8 * n) == [8 * n, 0, 0, 0] && EncodeWord(0) == [0, 0, 0, 0];
    assert EncodeWords(ws) == EncodeWord(8 * n) + EncodeWords(ws[1..]);
    assert EncodeWords(ws[1..]) == EncodeWord(0) + EncodeWords([]);
  }

  lemma FourWords(s: State)
    ensures EncodeWords(StateWords(s)) == EncodeWord(s.a) + EncodeWord(s.b) + EncodeWord(s.c) + EncodeWord(s.d)
  {
    var ws := StateWords(s);
    assert ws[1..] == [s.b, s.c, s.d] && ws[1..][1..] == [s.c, s.d] && ws[1..][1..][1..] == [s.d];
    assert ws[1..][1..][1..][1..] == [];
    assert EncodeWords(ws) == EncodeWord(s.a) + EncodeWords(ws[1..]);
    assert EncodeWords(ws[1..]) == EncodeWord(s.b) + EncodeWords(ws[1..][1..]);
    assert EncodeWords(ws[1..][1..]) == EncodeWord(s.c) + EncodeWords(ws[1..][1..][1..]);
    assert EncodeWords(ws[1..][1..][1..]) == EncodeWord(s.d) + EncodeWords([]);
  }

  lemma DigestOf(f: Compress, message: seq<Byte>, s: State)
    requires |Padded(message)| == 64 && f(INIT, Padded(message)) == s
    ensures Digest(f, message) == EncodeWords(StateWords(s))
  {
    OneBlock(f, Padded(message));
  }

  lemma EmptyBlock()
    ensures |Padded([])| == 64 && IsEmptyBlock(Bits(DecodeWords(Padded([]))))
  {
    var p := Padded([]);
    assert EncodeWords(LengthWords(0)) == [0, 0, 0, 0, 0, 0, 0, 0] by { ShortLength(0); }
    ShortBlock(p, 0x80, 0);
  }

  lemma EmptyRuns(x: seq<bv32>)
    requires IsEmptyBlock(x)
    ensures After(16, x, Registers(0x7246fad3, 0x14e45506, 0xff4ea3eb, 0x6e10a476))
  {
    assert Quads()[..0] == [];
    EmptyQuad0(x);
    OneMore(0, x, START,
            Registers(0xa5202774, 0x1b163203, 0xe7f06b23, 0xf59592dd));
    EmptyQuad1(x);
    OneMore(1, x, Registers(0xa5202774, 0x1b163203, 0xe7f06b23, 0xf59592dd),
            Registers(0x32033344, 0x9bc13ce9, 0xf5b158db, 0x2f35d494));
    EmptyQuad2(x);
    OneMore(2, x, Registers(0x32033344, 0x9bc13ce9, 0xf5b158db, 0x2f35d494),
            Registers(0x3893b991, 0x70768a29, 0xe1ef0576, 0xfce4a312));
    EmptyQuad3(x);
    OneMore(3, x, Registers(0x3893b991, 0x70768a29, 0xe1ef0576, 0xfce4a312),
            Registers(0xf56c7cf1, 0xd6819c6a, 0x5aa53f75, 0x374943a7));
    EmptyQuad4(x);
    OneMore(4, x, Registers(0xf56c7cf1, 0xd6819c6a, 0x5aa53f75, 0x374943a7),
            Registers(0x1c7d7513, 0xbd782e17, 0xc095f13a, 0x7bd57a3a));
    EmptyQuad5(x);
    OneMore(5, x, Registers(0x1c7d7513, 0xbd782e17, 0xc095f13a, 0x7bd57a3a),
            Registers(0x3d1e3e6c, 0xe422531a, 0xeb41643e, 0x68b7b3e3));
    EmptyQuad6(x);
    OneMore(6, x, Registers(0x3d1e3e6c, 0xe422531a, 0xeb41643e, 0x68b7b3e3),
            Registers(0x306ec122, 0xa0572807, 0xa3c663da, 0xd28c77c2));
    EmptyQuad7(x);
    OneMore(7, x, Registers(0x306ec122, 0xa0572807, 0xa3c663da, 0xd28c77c2),
            Registers(0x13707036, 0xa2205f1f, 0x1c31c384, 0xae7813db));
    EmptyQuad8(x);
    OneMore(8, x, Registers(0x13707036, 0xa2205f1f, 0x1c31c384, 0xae7813db),
            Registers(0xdf63eaa1, 0x4b6669, 0x12f3e755, 0xc3689f5b));
    EmptyQuad9(x);
    OneMore(9, x, Registers(0xdf63eaa1, 0x4b6669, 0x12f3e755, 0xc3689f5b),
            Registers(0x5f7a9b2e, 0xc5dc8c15, 0x91ca4cb7, 0xabc34e16));
    EmptyQuad10(x);
    OneMore(10, x, Registers(0x5f7a9b2e, 0xc5dc8c15, 0x91ca4cb7, 0xabc34e16),
            Registers(0x4497169d, 0xfe32453, 0xfd95f243, 0x76fd93d4));
    EmptyQuad11(x);
    OneMore(11, x, Registers(0x4497169d, 0xfe32453, 0xfd95f243, 0x76fd93d4),
            Registers(0x3f55edfd, 0xca7d2dbd, 0x68d84ea2, 0x22a31f54));
    EmptyQuad12(x);
    OneMore(12, x, Registers(0x3f55edfd, 0xca7d2dbd, 0x68d84ea2, 0x22a31f54),
            Registers(0x93aa2577, 0x561e0689, 0xcd85b8cb, 0x1688dc85));
    EmptyQuad13(x);
    OneMore(13, x, Registers(0x93aa2577, 0x561e0689, 0xcd85b8cb, 0x1688dc85),
            Registers(0x5625a114, 0x1e77fa61, 0x392ad0d0, 0x3450f42b));
    EmptyQuad14(x);
    OneMore(14, x, Registers(0x5625a114, 0x1e77fa61, 0x392ad0d0, 0x3450f42b),
            Registers(0x474a9c8c, 0x30130182, 0x36594b14, 0xdfce00bc));
    EmptyQuad15(x);
    OneMore(15, x, Registers(0x474a9c8c, 0x30130182, 0x36594b14, 0xdfce00bc),
            Registers(0x7246fad3, 0x14e45506, 0xff4ea3eb, 0x6e10a476));
  }

  lemma EmptyTransform(block: Block)
    requires IsEmptyBlock(Bits(DecodeWords(block)))
    ensures Transform(INIT, block) == AddRegisters(INIT, Registers(0x7246fad3, 0x14e45506, 0xff4ea3eb, 0x6e10a476))
  {
    EmptyRuns(Bits(DecodeWords(block)));
    TransformGives(block, Registers(0x7246fad3, 0x14e45506, 0xff4ea3eb, 0x6e10a476));
  }

  lemma BytesOf(w: Word, b0: Byte, b1: Byte, b2: Byte, b3: Byte)
    requires w == b0 as int + 0x100 * b1 + 0x1_0000 * b2 + 0x100_0000 * b3
    ensures EncodeWord(w) == [b0, b1, b2, b3]
  {
    var b := [b0, b1, b2, b3];
    EncodeDecodeWord(b);
    assert DecodeWord(b) == w;
  }

  lemma EmptyState()
    ensures AddRegisters(INIT, Registers(0x7246fad3, 0x14e45506, 0xff4ea3eb, 0x6e10a476))
         == State(0xd98c1dd4, 0x4b2008f, 0x980980e9, 0x7e42f8ec)
  {
  }

  lemma EmptySum()
    ensures EncodeWords(StateWords(AddRegisters(INIT, Registers(0x7246fad3, 0x14e45506, 0xff4ea3eb, 0x6e10a476)))) == [
              0xd4, 0x1d, 0x8c, 0xd9, 0x8f, 0x00, 0xb2, 0x04,
              0xe9, 0x80, 0x09, 0x98, 0xec, 0xf8, 0x42, 0x7e]
  {
    EmptyState();
    FourWords(AddRegisters(INIT, Registers(0x7246fad3, 0x14e45506, 0xff4ea3eb, 0x6e10a476)));
    BytesOf(0xd98c1dd4, 0xd4, 0x1d, 0x8c, 0xd9);
    BytesOf(0x4b2008f, 0x8f, 0x00, 0xb2, 0x04);
    BytesOf(0x980980e9, 0xe9, 0x80, 0x09, 0x98);
    BytesOf(0x7e42f8ec, 0xec, 0xf8, 0x42, 0x7e);
  }

  lemma EmptyDigest()
    ensures Digest(Transform, []) == [
              0xd4, 0x1d, 0x8c, 0xd9, 0x8f, 0x00, 0xb2, 0x04,
              0xe9, 0x80, 0x09, 0x98, 0xec, 0xf8, 0x42, 0x7e]
  {
    EmptyBlock();
    EmptyTransform(Padded([]));
    DigestOf(Transform, [], AddRegisters(INIT, Registers(0x7246fad3, 0x14e45506, 0xff4ea3eb, 0x6e10a476)));
    EmptySum();
  }

  lemma AbcBlock()
    ensures |Padded([0x61, 0x62, 0x63])| == 64 && IsAbcBlock(Bits(DecodeWords(Padded([0x61, 0x62, 0x63]))))
  {
    var p := Padded([0x61, 0x62, 0x63]);
    assert EncodeWords(LengthWords(3)) == [24, 0, 0, 0, 0, 0, 0, 0] by { ShortLength(3); }
    ShortBlock(p, 0x80636261, 24);
  }

  lemma AbcRuns(x: seq<bv32>)
    requires IsAbcBlock(x)
    ensures After(16, x, Registers(0x310ade8f, 0xc08226b3, 0xe484b9d8, 0x624d8cb2))
  {
    assert Quads()[..0] == [];
    AbcQuad0(x);
    OneMore(0, x, START,
            Registers(0xd6d117b4, 0x7ad956f2, 0x2f6fbd72, 0x344a8432));
    AbcQuad1(x);
    OneMore(1, x, Registers(0xd6d117b4, 0x7ad956f2, 0x2f6fbd72, 0x344a8432),
            Registers(0xc73741ef, 0x928d99f6, 0x207dc67b, 0x8bac3051));
    AbcQuad2(x);
    OneMore(2, x, Registers(0xc73741ef, 0x928d99f6, 0x207dc67b, 0x8bac3051),
            Registers(0x854b3712, 0x5ed49596, 0x3020401c, 0x74e2f284));
    AbcQuad3(x);
    OneMore(3, x, Registers(0x854b3712, 0x5ed49596, 0x3020401c, 0x74e2f284),
            Registers(0xdda9b9a6, 0x72aff2e0, 0xe396856b, 0xa1051895));
    AbcQuad4(x);
    OneMore(4, x, Registers(0xdda9b9a6, 0x72aff2e0, 0xe396856b, 0xa1051895),
            Registers(0x3e9e9126, 0xb5b204e4, 0xe25e1652, 0x4a1d804e));
    AbcQuad5(x);
    OneMore(5, x, Registers(0x3e9e9126, 0xb5b204e4, 0xe25e1652, 0x4a1d804e),
            Registers(0x59a8ffda, 0x47092c07, 0xabfc7920, 0x6d002f1e));
    AbcQuad6(x);
    OneMore(6, x, Registers(0x59a8ffda, 0x47092c07, 0xabfc7920, 0x6d002f1e),
            Registers(0xb7f268cf, 0x786acb8f, 0xfe1623b1, 0x9388eff));
    AbcQuad7(x);
    OneMore(7, x, Registers(0xb7f268cf, 0x786acb8f, 0xfe1623b1, 0x9388eff),
            Registers(0x790a77fb, 0x726342d3, 0xa62884aa, 0x9f47e4f8));
    AbcQuad8(x);
    OneMore(8, x, Registers(0x790a77fb, 0x726342d3, 0xa62884aa, 0x9f47e4f8),
            Registers(0xb3707ebf, 0x3b0875c7, 0x8d212ff5, 0x60127b2e));
    AbcQuad9(x);
    OneMore(9, x, Registers(0xb3707ebf, 0x3b0875c7, 0x8d212ff5, 0x60127b2e),
            Registers(0x21b117b9, 0x5a2f5ea5, 0x3575227e, 0x6e7429d5));
    AbcQuad10(x);
    OneMore(10, x, Registers(0x21b117b9, 0x5a2f5ea5, 0x3575227e, 0x6e7429d5),
            Registers(0x11de1779, 0x4c6124f4, 0x31c465ca, 0xfadcaa38));
    AbcQuad11(x);
    OneMore(11, x, Registers(0x11de1779, 0x4c6124f4, 0x31c465ca, 0xfadcaa38),
            Registers(0x7f2e507b, 0x7beb9700, 0x8fae6399, 0x99d9679d));
    AbcQuad12(x);
    OneMore(12, x, Registers(0x7f2e507b, 0x7beb9700, 0x8fae6399, 0x99d9679d),
            Registers(0x7b201df8, 0x8bf025c4, 0xb298cefd, 0xf4e8e96e));
    AbcQuad13(x);
    OneMore(13, x, Registers(0x7b201df8, 0x8bf025c4, 0xb298cefd, 0xf4e8e96e),
            Registers(0x6cc5e8a, 0x3bfa2c27, 0x7d632dd0, 0x5b0d97aa));
    AbcQuad14(x);
    OneMore(14, x, Registers(0x6cc5e8a, 0x3bfa2c27, 0x7d632dd0, 0x5b0d97aa),
            Registers(0x7f81cc35, 0x7327d604, 0x4f9dbe3f, 0x94454ab));
    AbcQuad15(x);
    OneMore(15, x, Registers(0x7f81cc35, 0x7327d604, 0x4f9dbe3f, 0x94454ab),
            Registers(0x310ade8f, 0xc08226b3, 0xe484b9d8, 0x624d8cb2));
  }

  lemma AbcTransform(block: Block)
    requires IsAbcBlock(Bits(DecodeWords(block)))
    ensures Transform(INIT, block) == AddRegisters(INIT, Registers(0x310ade8f, 0xc08226b3, 0xe484b9d8, 0x624d8cb2))
  {
    AbcRuns(Bits(DecodeWords(block)));
    TransformGives(block, Registers(0x310ade8f, 0xc08226b3, 0xe484b9d8, 0x624d8cb2));
  }

  lemma AbcState()
    ensures AddRegisters(INIT, Registers(0x310ade8f, 0xc08226b3, 0xe484b9d8, 0x624d8cb2))
         == State(0x98500190, 0xb04fd23c, 0x7d3f96d6, 0x727fe128)
  {
  }

  lemma AbcSum()
    ensures EncodeWords(StateWords(AddRegisters(INIT, Registers(0x310ade8f, 0xc08226b3, 0xe484b9d8, 0x624d8cb2)))) == [
              0x90, 0x01, 0x50, 0x98, 0x3c, 0xd2, 0x4f, 0xb0,
              0xd6, 0x96, 0x3f, 0x7d, 0x28, 0xe1, 0x7f, 0x72]
  {
    AbcState();
    FourWords(AddRegisters(INIT, Registers(0x310ade8f, 0xc08226b3, 0xe484b9d8, 0x624d8cb2)));
    BytesOf(0x98500190, 0x90, 0x01, 0x50, 0x98);
    BytesOf(0xb04fd23c, 0x3c, 0xd2, 0x4f, 0xb0);
    BytesOf(0x7d3f96d6, 0xd6, 0x96, 0x3f, 0x7d);
    BytesOf(0x727fe128, 0x28, 0xe1, 0x7f, 0x72);
  }

  lemma AbcDigest()
    ensures Digest(Transform, [0x61, 0x62, 0x63]) == [
              0x90, 0x01, 0x50, 0x98, 0x3c, 0xd2, 0x4f, 0xb0,
              0xd6, 0x96, 0x3f, 0x7d, 0x28, 0xe1, 0x7f, 0x72]
  {
    AbcBlock();
    AbcTransform(Padded([0x61, 0x62, 0x63]));
    DigestOf(Transform, [0x61, 0x62, 0x63], AddRegisters(INIT, Registers(0x310ade8f, 0xc08226b3, 0xe484b9d8, 0x624d8cb2)));
    AbcSum();
  }
}
