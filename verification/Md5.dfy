/** MD5: the buffered update against the digest of the whole padded message (RFC 1321).

    Words and bytes are integers with their C widths; only the compression function works on
    bit-vectors. */
module Md5 {

  import opened Wrappers

  const TWO32 := 0x1_0000_0000

  type Byte = x: int | 0 <= x < 256
  type Word = x: int | 0 <= x < 0x1_0000_0000

  // ---------- words and bytes ----------

  function LowByte(w: nat): Byte { w % 256 }

  function EncodeWord(w: Word): (bs: seq<Byte>)
    ensures |bs| == 4
  {
    var n: int := w;
    [LowByte(n), LowByte(n / 0x100), LowByte(n / 0x1_0000), LowByte(n / 0x100_0000)]
  }

  function DecodeWord(b: seq<Byte>): Word
    requires |b| == 4
  {
    var b0: int, b1: int, b2: int, b3: int := b[0], b[1], b[2], b[3];
    b0 + 0x100 * b1 + 0x1_0000 * b2 + 0x100_0000 * b3
  }

  /** `Encode`, four bytes a word, low byte first. */
  function EncodeWords(ws: seq<Word>): (bs: seq<Byte>)
    ensures |bs| == 4 * |ws|
  {
    if ws == [] then [] else EncodeWord(ws[0]) + EncodeWords(ws[1..])
  }

  /** `Decode`. */
  function DecodeWords(bs: seq<Byte>): (ws: seq<Word>)
    requires |bs| % 4 == 0
    ensures 4 * |ws| == |bs|
  {
    if bs == [] then [] else [DecodeWord(bs[..4])] + DecodeWords(bs[4..])
  }

  lemma DigitsOf(n: int)
    requires 0 <= n < TWO32
    ensures n == n % 256 + 0x100 * (n / 0x100 % 256) + 0x1_0000 * (n / 0x1_0000 % 256) + 0x100_0000 * (n / 0x100_0000 % 256)
  {
    var a := n / 0x100;
    var b := a / 0x100;
    assert n / 0x1_0000 == b;
    assert n / 0x100_0000 == b / 0x100;
  }

  lemma {:induction false} DecodeEncode(ws: seq<Word>)
    ensures DecodeWords(EncodeWords(ws)) == ws
  {
    if ws != [] {
      assert EncodeWords(ws)[..4] == EncodeWord(ws[0]) && EncodeWords(ws)[4..] == EncodeWords(ws[1..]);
      DigitsOf(ws[0]);
      assert DecodeWord(EncodeWord(ws[0])) == ws[0];
      DecodeEncode(ws[1..]);
    }
  }

  lemma {:induction false} EncodeDecode(bs: seq<Byte>)
    requires |bs| % 4 == 0
    ensures EncodeWords(DecodeWords(bs)) == bs
  {
    if bs != [] {
      EncodeDecodeWord(bs[..4]);
      EncodeDecode(bs[4..]);
      assert bs == bs[..4] + bs[4..];
    }
  }

  lemma LastDigit(b: int, m: int)
    requires 0 <= b < 256 && 0 <= m
    ensures (b + 256 * m) / 256 == m && (b + 256 * m) % 256 == b
  {
  }

  lemma EncodeDecodeWord(b: seq<Byte>)
    requires |b| == 4
    ensures EncodeWord(DecodeWord(b)) == b
  {
    var b0: int, b1: int, b2: int, b3: int := b[0], b[1], b[2], b[3];
    var m2 := b2 + 256 * b3;
    var m1 := b1 + 256 * m2;
    var n := b0 + 256 * m1;
    LastDigit(b0, m1);
    LastDigit(b1, m2);
    LastDigit(b2, b3);
    assert n / 0x1_0000 == n / 256 / 256;
    assert n / 0x100_0000 == n / 256 / 256 / 256;
    assert DecodeWord(b) == n;
    assert EncodeWord(n) == [LowByte(n), LowByte(m1), LowByte(m2), LowByte(b3)];
  }

  // ---------- the compression function ----------

  datatype Round = FF | GG | HH | II

  /** One line of `MD5Transform`: the round, the message word, the shift and the constant. */
  datatype Line = Line(round: Round, k: WordIndex, shift: Shift, ac: bv32)

  type WordIndex = k: nat | k < 16
  type Shift = n: bv6 | n <= 32

  /** The register names come back round after four lines. */
  datatype Quad = Quad(first: Line, second: Line, third: Line, fourth: Line)

  function QuadAt(q: nat): Quad
    requires q < 16
  {
    match q
    case 0 =>
      Quad(Line(FF, 0, 7, 0xd76aa478), Line(FF, 1, 12, 0xe8c7b756),
           Line(FF, 2, 17, 0x242070db), Line(FF, 3, 22, 0xc1bdceee))
    case 1 =>
      Quad(Line(FF, 4, 7, 0xf57c0faf), Line(FF, 5, 12, 0x4787c62a),
           Line(FF, 6, 17, 0xa8304613), Line(FF, 7, 22, 0xfd469501))
    case 2 =>
      Quad(Line(FF, 8, 7, 0x698098d8), Line(FF, 9, 12, 0x8b44f7af),
           Line(FF, 10, 17, 0xffff5bb1), Line(FF, 11, 22, 0x895cd7be))
    case 3 =>
      Quad(Line(FF, 12, 7, 0x6b901122), Line(FF, 13, 12, 0xfd987193),
           Line(FF, 14, 17, 0xa679438e), Line(FF, 15, 22, 0x49b40821))
    case 4 =>
      Quad(Line(GG, 1, 5, 0xf61e2562), Line(GG, 6, 9, 0xc040b340),
           Line(GG, 11, 14, 0x265e5a51), Line(GG, 0, 20, 0xe9b6c7aa))
    case 5 =>
      Quad(Line(GG, 5, 5, 0xd62f105d), Line(GG, 10, 9, 0x2441453),
           Line(GG, 15, 14, 0xd8a1e681), Line(GG, 4, 20, 0xe7d3fbc8))
    case 6 =>
      Quad(Line(GG, 9, 5, 0x21e1cde6), Line(GG, 14, 9, 0xc33707d6),
           Line(GG, 3, 14, 0xf4d50d87), Line(GG, 8, 20, 0x455a14ed))
    case 7 =>
      Quad(Line(GG, 13, 5, 0xa9e3e905), Line(GG, 2, 9, 0xfcefa3f8),
           Line(GG, 7, 14, 0x676f02d9), Line(GG, 12, 20, 0x8d2a4c8a))
    case 8 =>
      Quad(Line(HH, 5, 4, 0xfffa3942), Line(HH, 8, 11, 0x8771f681),
           Line(HH, 11, 16, 0x6d9d6122), Line(HH, 14, 23, 0xfde5380c))
    case 9 =>
      Quad(Line(HH, 1, 4, 0xa4beea44), Line(HH, 4, 11, 0x4bdecfa9),
           Line(HH, 7, 16, 0xf6bb4b60), Line(HH, 10, 23, 0xbebfbc70))
    case 10 =>
      Quad(Line(HH, 13, 4, 0x289b7ec6), Line(HH, 0, 11, 0xeaa127fa),
           Line(HH, 3, 16, 0xd4ef3085), Line(HH, 6, 23, 0x4881d05))
    case 11 =>
      Quad(Line(HH, 9, 4, 0xd9d4d039), Line(HH, 12, 11, 0xe6db99e5),
           Line(HH, 15, 16, 0x1fa27cf8), Line(HH, 2, 23, 0xc4ac5665))
    case 12 =>
      Quad(Line(II, 0, 6, 0xf4292244), Line(II, 7, 10, 0x432aff97),
           Line(II, 14, 15, 0xab9423a7), Line(II, 5, 21, 0xfc93a039))
    case 13 =>
      Quad(Line(II, 12, 6, 0x655b59c3), Line(II, 3, 10, 0x8f0ccc92),
           Line(II, 10, 15, 0xffeff47d), Line(II, 1, 21, 0x85845dd1))
    case 14 =>
      Quad(Line(II, 8, 6, 0x6fa87e4f), Line(II, 15, 10, 0xfe2ce6e0),
           Line(II, 6, 15, 0xa3014314), Line(II, 13, 21, 0x4e0811a1))
    case _ =>
      Quad(Line(II, 4, 6, 0xf7537e82), Line(II, 11, 10, 0xbd3af235),
           Line(II, 2, 15, 0x2ad7d2bb), Line(II, 9, 21, 0xeb86d391))
  }

  datatype Registers = Registers(a: bv32, b: bv32, c: bv32, d: bv32)

  function Mix(round: Round, x: bv32, y: bv32, z: bv32): bv32 {
    match round
    case FF => (x & y) | (!x & z)
    case GG => (x & z) | (y & !z)
    case HH => x ^ y ^ z
    case II => y ^ (x | !z)
  }

  function RotateLeft(x: bv32, n: Shift): bv32 {
    (x << n) | (x >> (32 - n))
  }

  /** What a line computes from the registers and its message word. */
  function NewWord(l: Line, r: Registers, word: bv32): bv32 {
    r.b + RotateLeft(r.a + Mix(l.round, r.b, r.c, r.d) + word + l.ac, l.shift)
  }

  /** Each line puts it into `a`; the names then rotate, as the arguments of the lines do. */
  function RunLine(l: Line, r: Registers, x: seq<bv32>): Registers
    requires |x| == 16
  {
    Registers(r.d, NewWord(l, r, x[l.k]), r.b, r.c)
  }

  function RunQuad(q: Quad, r: Registers, x: seq<bv32>): Registers
    requires |x| == 16
  {
    RunLine(q.fourth, RunLine(q.third, RunLine(q.second, RunLine(q.first, r, x), x), x), x)
  }

  function RunQuads(quads: seq<Quad>, r: Registers, x: seq<bv32>): Registers
    requires |x| == 16
  {
    if quads == [] then r else
    var before := quads[..|quads| - 1];
    RunQuad(quads[|quads| - 1], RunQuads(before, r, x), x)
  }

  /** The 64 lines. */
  function Quads(): (quads: seq<Quad>)
    ensures |quads| == 16
  {
    seq(16, q requires 0 <= q < 16 => QuadAt(q))
  }

  function Bits(ws: seq<Word>): (bits: seq<bv32>)
    ensures |bits| == |ws|
  {
    seq(|ws|, i requires 0 <= i < |ws| => ws[i] as bv32)
  }

  datatype State = State(a: Word, b: Word, c: Word, d: Word)

  type Block = b: seq<Byte> | |b| == 64 witness seq(64, i => 0)

  function AddRegisters(state: State, r: Registers): State {
    State((state.a + r.a as int) % TWO32, (state.b + r.b as int) % TWO32,
          (state.c + r.c as int) % TWO32, (state.d + r.d as int) % TWO32)
  }

  /** `MD5Transform` */
  function Transform(state: State, block: Block): State {
    var r := Registers(state.a as bv32, state.b as bv32, state.c as bv32, state.d as bv32);
    AddRegisters(state, RunQuads(Quads(), r, Bits(DecodeWords(block))))
  }

  /** The buffering does not depend on what is done with a block: it is proved for any function in
      the place of `Transform`. */
  type Compress = (State, Block) -> State

  const INIT := State(0x67452301, 0xefcdab89, 0x98badcfe, 0x10325476)

  // ---------- the digest of a whole message ----------

  /** The compression function over all full blocks; a rest of less than a block is not looked at. */
  function Fold(f: Compress, state: State, bytes: seq<Byte>): State
    decreases |bytes|
  {
    if |bytes| < 64 then state else Fold(f, f(state, bytes[..64]), bytes[64..])
  }

  function Zeros(n: nat): (bs: seq<Byte>)
    ensures |bs| == n
  {
    seq(n, i => 0)
  }

  /** The length in bits, modulo 2^64, low word first. */
  function LengthWords(n: nat): (ws: seq<Word>)
    ensures |ws| == 2
  {
    [8 * n % TWO32, 8 * n / TWO32 % TWO32]
  }

  /** How many zero bytes bring the message, its 0x80 and the zeros to 56 modulo 64. */
  function ZeroCount(n: nat): (k: nat)
    ensures (n + 1 + k) % 64 == 56 && k < 64
  {
    (119 - n % 64) % 64
  }

  lemma PaddedLength(n: nat)
    ensures (n + (1 + ZeroCount(n)) + 8) % 64 == 0
  {
    var x := n + 1 + ZeroCount(n);
    var q := x / 64;
    assert x == 64 * q + 56;
    assert x + 8 == 64 * (q + 1);
  }

  /** Steps 1 and 2 of section 3 of RFC 1321. */
  function Padded(message: seq<Byte>): (bs: seq<Byte>)
    ensures |bs| % 64 == 0
  {
    PaddedLength(|message|);
    message + ([0x80] + Zeros(ZeroCount(|message|))) + EncodeWords(LengthWords(|message|))
  }

  function StateWords(s: State): seq<Word> { [s.a, s.b, s.c, s.d] }

  /** Steps 3 to 5. */
  function Digest(f: Compress, message: seq<Byte>): seq<Byte> {
    EncodeWords(StateWords(Fold(f, INIT, Padded(message))))
  }

  lemma {:induction false} FoldConcat(f: Compress, state: State, a: seq<Byte>, b: seq<Byte>)
    requires |a| % 64 == 0
    ensures Fold(f, state, a + b) == Fold(f, Fold(f, state, a), b)
    decreases |a|
  {
    if |a| == 0 {
      assert a + b == b;
    } else {
      assert (a + b)[..64] == a[..64] && (a + b)[64..] == a[64..] + b;
      FoldConcat(f, f(state, a[..64]), a[64..], b);
    }
  }

  // ---------- the 64-bit count in two words ----------

  /** `count[0] += len << 3` with its carry, `count[1] += len >> 29`. */
  function AddCount(count: seq<Word>, len: nat): (r: seq<Word>)
    requires |count| == 2 && len < TWO32
    ensures |r| == 2
  {
    var low := 8 * len % TWO32;
    var c0 := (count[0] + low) % TWO32;
    var carry := if c0 < low then 1 else 0;
    [c0, (count[1] + carry + len / 0x2000_0000) % TWO32]
  }

  /** The two words hold the bit length of everything fed in, modulo 2^64. */
  lemma CountIsLength(n: nat, len: nat)
    requires len < TWO32
    ensures AddCount(LengthWords(n), len) == LengthWords(n + len)
  {
    var a, b := 8 * n, 8 * len;
    var a0, a1 := a % TWO32, a / TWO32;
    var b0, b1 := b % TWO32, b / TWO32;
    assert b1 == len / 0x2000_0000;
    assert a + b == (a0 + b0) + TWO32 * (a1 + b1);
    var carry := if a0 + b0 >= TWO32 then 1 else 0;
    assert (a0 + b0) % TWO32 == a0 + b0 - TWO32 * carry;
    SplitSum(a0 + b0 - TWO32 * carry, a1 + b1 + carry);
    assert (a + b) % TWO32 == a0 + b0 - TWO32 * carry && (a + b) / TWO32 == a1 + b1 + carry;
    assert (a1 % TWO32 + carry + b1) % TWO32 == (a1 + b1 + carry) % TWO32 by { ModAdd(a1, carry + b1); }
  }

  lemma SplitSum(low: nat, high: nat)
    requires low < TWO32
    ensures (low + TWO32 * high) % TWO32 == low && (low + TWO32 * high) / TWO32 == high
  {
  }

  lemma ModAdd(x: nat, y: nat)
    ensures (x % TWO32 + y) % TWO32 == (x + y) % TWO32
  {
    var q := x / TWO32;
    assert x + y == (x % TWO32 + y) + TWO32 * q;
    ModShift(x % TWO32 + y, q);
  }

  lemma ModShift(x: nat, q: nat)
    ensures (x + TWO32 * q) % TWO32 == x % TWO32
  {
    var r := x / TWO32;
    SplitSum(x % TWO32, r + q);
    assert x + TWO32 * q == x % TWO32 + TWO32 * (r + q);
  }

  /** The buffer position is read off the low word alone. */
  lemma IndexIsPosition(n: nat)
    ensures LengthWords(n)[0] / 8 % 64 == n % 64
  {
    var q := n / 0x2000_0000;
    var m := n - 0x2000_0000 * q;
    SplitSum(8 * m, q);
    assert 8 * n == 8 * m + TWO32 * q;
    assert LengthWords(n)[0] == 8 * m;
    assert 8 * m / 8 == m;
    assert n == m + 64 * (0x80_0000 * q);
    SameResidue(m, 0x80_0000 * q);
  }

  lemma SameResidue(m: nat, k: nat)
    ensures (m + 64 * k) % 64 == m % 64
  {
    var q := m / 64;
    assert m + 64 * k == m % 64 + 64 * (q + k);
  }

  // ---------- when the block loop runs past its input ----------

  /** The start of the last block the loop looks at, for input of length `len` when `index` bytes
      are buffered. */
  function LastStart(index: nat, len: nat): nat
    requires index < 64 && 64 - index <= len
  {
    len - (len + index) % 64
  }

  /** `i + 63` leaves the 32 bits of `unsigned int` at the end of the loop. */
  predicate Overruns(index: nat, len: nat)
    requires index < 64
  {
    64 - index <= len && LastStart(index, len) + 63 >= TWO32
  }

  /** With one byte buffered, an input of 2^32 - 1 bytes makes the loop read past its end; with an
      empty buffer the same input does not, nor does any input up to 2^32 - 64. */
  lemma OverrunExample()
    ensures Overruns(1, TWO32 - 1) && !Overruns(0, TWO32 - 1)
    ensures forall index, len :: 0 <= index < 64 && 0 <= len <= TWO32 - 64 ==> !Overruns(index, len)
  {
    assert LastStart(1, TWO32 - 1) == TWO32 - 1;
    assert LastStart(0, TWO32 - 1) == TWO32 - 64;
  }

  /** The loop's test in 32 bits: there is a full block left, or the sum wrapped. */
  predicate LoopTest(i: nat, len: nat) { (i + 63) % TWO32 < len }

  lemma LoopTestMeans(i: nat, len: nat)
    requires i <= len < TWO32
    ensures LoopTest(i, len) <==> i + 64 <= len || i + 63 >= TWO32
  {
  }

  // ---------- what a context stands for ----------

  /** The state is the fold of the full blocks of the message, the buffer starts with the rest. */
  ghost predicate Represents(f: Compress, state: State, count: seq<Word>, buf: seq<Byte>, message: seq<Byte>) {
    && |buf| == 64
    && count == LengthWords(|message|)
    && var full := |message| / 64 * 64;
       && state == Fold(f, INIT, message[..full])
       && buf[..|message| - full] == message[full..]
  }

  /** One more block. */
  lemma FoldNext(f: Compress, bytes: seq<Byte>, n: nat)
    requires n % 64 == 0 && n + 64 <= |bytes|
    ensures Fold(f, INIT, bytes[..n + 64]) == f(Fold(f, INIT, bytes[..n]), bytes[n..n + 64])
  {
    var block := bytes[n..n + 64];
    assert bytes[..n + 64] == bytes[..n] + block;
    FoldConcat(f, INIT, bytes[..n], block);
    assert block[..64] == block && block[64..] == [];
    assert Fold(f, f(Fold(f, INIT, bytes[..n]), block), []) == f(Fold(f, INIT, bytes[..n]), block);
  }

  /** The buffer, filled up from the input, is the next block of the message. */
  lemma BufferedBlock(f: Compress, message: seq<Byte>, input: seq<Byte>, buf: seq<Byte>)
    requires var index := |message| % 64; |buf| == 64 && 64 - index <= |input|
    requires var index := |message| % 64; buf[..index] == message[|message| - index..] && buf[index..] == input[..64 - index]
    ensures var index := |message| % 64;
            f(Fold(f, INIT, message[..|message| - index]), buf) == Fold(f, INIT, (message + input)[..|message| + (64 - index)])
  {
    var index := |message| % 64;
    var all := message + input;
    var full := |message| - index;
    assert all[..full] == message[..full];
    assert all[full..full + 64] == message[full..] + input[..64 - index];
    assert buf == buf[..index] + buf[index..];
    FoldNext(f, all, full);
  }

  lemma InputBlock(f: Compress, message: seq<Byte>, input: seq<Byte>, i: nat)
    requires i + 64 <= |input| && (|message| + i) % 64 == 0
    ensures f(Fold(f, INIT, (message + input)[..|message| + i]), input[i..i + 64])
         == Fold(f, INIT, (message + input)[..|message| + (i + 64)])
  {
    var all := message + input;
    assert all[|message| + i..|message| + i + 64] == input[i..i + 64];
    FoldNext(f, all, |message| + i);
  }

  lemma SameBlocks(n: nat, len: nat)
    requires n % 64 + len < 64
    ensures (n + len) / 64 * 64 == n - n % 64 && n / 64 * 64 == n - n % 64 && (n + len) % 64 == n % 64 + len
  {
  }

  /** Input too short for a block is only buffered. */
  lemma OnlyBuffered(f: Compress, state: State, count: seq<Word>, buf: seq<Byte>, buf': seq<Byte>, message: seq<Byte>, input: seq<Byte>)
    requires Represents(f, state, count, buf, message) && |buf'| == 64
    requires var index := |message| % 64;
             |input| < 64 - index && buf'[..index] == buf[..index] && buf'[index..index + |input|] == input
    ensures Represents(f, state, LengthWords(|message + input|), buf', message + input)
  {
    var index := |message| % 64;
    var full := |message| - index;
    SameBlocks(|message|, |input|);
    assert (message + input)[..full] == message[..full];
    assert buf'[..index + |input|] == buf'[..index] + buf'[index..index + |input|];
    assert (message + input)[full..] == message[full..] + input;
  }

  /** After the blocks, the rest of the input is at the front of the buffer. */
  lemma RestBuffered(f: Compress, state: State, buf: seq<Byte>, message: seq<Byte>, input: seq<Byte>, i: nat)
    requires |buf| == 64 && i <= |input| < i + 64 && (|message| + i) % 64 == 0
    requires state == Fold(f, INIT, (message + input)[..|message| + i])
    requires buf[..|input| - i] == input[i..]
    ensures Represents(f, state, LengthWords(|message + input|), buf, message + input)
  {
    var all := message + input;
    assert |all| / 64 * 64 == |message| + i;
    assert all[|message| + i..] == input[i..];
  }

  // ---------- the context ----------

  class Context {
    const f: Compress
    var state: State
    var count: seq<Word>
    const buffer: array<Byte>
    /** Everything fed in so far. */
    ghost var message: seq<Byte>

    ghost predicate Valid()
      reads this, buffer
    {
      buffer.Length == 64 && Represents(f, state, count, buffer[..], message)
    }

    /** `MD5Init` */
    constructor (f: Compress)
      ensures Valid() && message == [] && fresh(buffer) && this.f == f
    {
      this.f := f;
      state := INIT;
      count := [0, 0];
      buffer := new Byte[64](i => 0);
      message := [];
    }

    /** The number of bytes buffered, read off the count. */
    method Index() returns (index: nat)
      requires Valid()
      ensures index == |message| % 64
    {
      IndexIsPosition(|message|);
      index := count[0] / 8 % 64;
    }

    /** `MD5_memcpy` into the buffer. */
    method CopyIn(index: nat, input: seq<Byte>, from: nat, len: nat)
      requires buffer.Length == 64 && index + len <= 64 && from + len <= |input|
      modifies buffer
      ensures buffer[..index] == old(buffer[..index])
      ensures buffer[index..index + len] == input[from..from + len]
    {
      for i := 0 to len
        invariant buffer[..index] == old(buffer[..index])
        invariant buffer[index..index + i] == input[from..from + i]
      {
        buffer[index + i] := input[from + i];
        assert buffer[index..index + i + 1] == buffer[index..index + i] + [input[from + i]];
        assert input[from..from + i + 1] == input[from..from + i] + [input[from + i]];
      }
    }

    /** The block loop of `MD5Update`. `ok` is false when it would read past the input. */
    method TransformBlocks(input: seq<Byte>, start: nat) returns (ok: bool, i: nat)
      requires start <= |input| < TWO32 && (|message| + start) % 64 == 0
      requires start == 64 - |message| % 64
      requires state == Fold(f, INIT, (message + input)[..|message| + start])
      modifies this`state
      ensures ok <==> !Overruns(|message| % 64, |input|)
      ensures ok ==> i <= |input| < i + 64 && (|message| + i) % 64 == 0
                     && state == Fold(f, INIT, (message + input)[..|message| + i])
    {
      i := start;
      LoopTestMeans(i, |input|);
      while LoopTest(i, |input|)
        invariant start <= i <= |input| && (|message| + i) % 64 == 0
        invariant LoopTest(i, |input|) <==> i + 64 <= |input| || i + 63 >= TWO32
        invariant state == Fold(f, INIT, (message + input)[..|message| + i])
        decreases |input| - i
      {
        if i + 64 > |input| {
          EndOfLoop(|message|, |input|, i);
          return false, i;
        }
        InputBlock(f, message, input, i);
        SameResidue(|message| + i, 1);
        state := f(state, input[i..i + 64]);
        i := i + 64;
        LoopTestMeans(i, |input|);
      }
      EndOfLoop(|message|, |input|, i);
      ok := true;
    }

    /** `MD5Update`. `ok` is false when the block loop would read past the input, which it does
        exactly when `i + 63` overruns. */
    method Update(input: seq<Byte>) returns (ok: bool)
      requires Valid() && |input| < TWO32
      modifies this, buffer
      ensures ok <==> !Overruns(old(|message|) % 64, |input|)
      ensures ok ==> Valid() && message == old(message) + input
    {
      CountIsLength(|message|, |input|);
      var index := Index();
      var partLen := 64 - index;
      if |input| >= partLen {
        ok := FillAndTransform(index, input);
        count := AddCount(count, |input|);
      } else {
        KeepInBuffer(index, input);
        count := AddCount(count, |input|);
        ok := true;
      }
      message := message + input;
    }

    /** The branch of `MD5Update` for an input too short to complete the block. */
    method KeepInBuffer(index: nat, input: seq<Byte>)
      requires Valid() && index == |message| % 64 && |input| < 64 - index
      modifies buffer
      ensures Represents(f, state, LengthWords(|message + input|), buffer[..], message + input)
    {
      ghost var buf := buffer[..];
      CopyIn(index, input, 0, |input|);
      assert input[0..|input|] == input;
      assert buffer[..index] == buf[..index];
      OnlyBuffered(f, state, count, buf, buffer[..], message, input);
    }

    /** The buffered block is filled up and goes through. */
    method CompleteBlock(index: nat, input: seq<Byte>)
      requires Valid() && index == |message| % 64 && 64 - index <= |input|
      modifies this`state, buffer
      ensures (|message| + (64 - index)) % 64 == 0
      ensures state == Fold(f, INIT, (message + input)[..|message| + (64 - index)])
    {
      ghost var buf := buffer[..];
      CopyIn(index, input, 0, 64 - index);
      assert buffer[..index] == buf[..index];
      BufferedBlock(f, message, input, buffer[..]);
      state := f(state, buffer[..]);
    }

    /** The branch of `MD5Update` that completes the buffered block. */
    method FillAndTransform(index: nat, input: seq<Byte>) returns (ok: bool)
      requires Valid() && index == |message| % 64 && 64 - index <= |input| < TWO32
      modifies this`state, buffer
      ensures ok <==> !Overruns(index, |input|)
      ensures ok ==> Represents(f, state, LengthWords(|message + input|), buffer[..], message + input)
    {
      CompleteBlock(index, input);
      var i;
      ok, i := TransformBlocks(input, 64 - index);
      if !ok { return; }
      CopyIn(0, input, i, |input| - i);
      assert input[i..i + (|input| - i)] == input[i..];
      RestBuffered(f, state, buffer[..], message, input, i);
    }

    /** `MD5Final`: pad to 56 modulo 64, append the length, read the digest off the state. */
    method Final() returns (digest: seq<Byte>)
      requires Valid()
      modifies this, buffer
      ensures digest == Digest(f, old(message))
      ensures state == State(0, 0, 0, 0) && count == [0, 0] && buffer[..] == Zeros(64)
    {
      ghost var m := message;
      PadAndLength();
      FoldAll(m, message);
      digest := EncodeWords(StateWords(state));
      Zeroize();
    }

    /** The first bytes of the table of padding. */
    static method PaddingOf(len: nat) returns (padding: seq<Byte>)
      requires 1 <= len <= 64
      ensures padding == [0x80] + Zeros(len - 1)
    {
      var table: seq<Byte> := [0x80] + Zeros(63);
      padding := table[..len];
    }

    /** What `MD5Final` feeds in: the padding and the length. */
    method PadAndLength()
      requires Valid()
      modifies this, buffer
      ensures Valid()
      ensures message == old(message) + ([0x80] + Zeros(ZeroCount(|old(message)|)))
                         + EncodeWords(LengthWords(|old(message)|))
    {
      var bits := EncodeWords(count);
      var index := Index();
      var padLen := if index < 56 then 56 - index else 120 - index;
      var padding := PaddingOf(padLen);
      assert padding == [0x80] + Zeros(ZeroCount(|message|));
      var ok := Update(padding);
      ok := Update(bits);
    }

    method Zeroize()
      requires buffer.Length == 64
      modifies this, buffer
      ensures state == State(0, 0, 0, 0) && count == [0, 0] && buffer[..] == Zeros(64)
    {
      state, count := State(0, 0, 0, 0), [0, 0];
      for i := 0 to 64
        invariant buffer[..i] == Zeros(i) && state == State(0, 0, 0, 0) && count == [0, 0]
      {
        buffer[i] := 0;
        assert buffer[..i + 1] == buffer[..i] + [0];
      }
    }
  }

  lemma FoldAll(message: seq<Byte>, fed: seq<Byte>)
    requires fed == message + ([0x80] + Zeros(ZeroCount(|message|))) + EncodeWords(LengthWords(|message|))
    ensures fed == Padded(message) && fed[..|fed| / 64 * 64] == fed
  {
    assert |Padded(message)| % 64 == 0;
  }

  /** Where the loop stops, or should have, decides the overrun. */
  lemma EndOfLoop(n: nat, len: nat, i: nat)
    requires 64 - n % 64 <= i <= len < i + 64 && (n + i) % 64 == 0
    ensures Overruns(n % 64, len) <==> i + 63 >= TWO32
  {
    var q := n / 64;
    var p := (n + i) / 64;
    var k := len - i;
    assert n % 64 + i == 64 * (p - q);
    assert len + n % 64 == k + 64 * (p - q);
    SameResidue(k, p - q);
  }

  // ---------- any split into chunks ----------

  function Joined(chunks: seq<seq<Byte>>): seq<Byte> {
    if chunks == [] then [] else chunks[0] + Joined(chunks[1..])
  }

  /** No chunk overruns, given the bytes that came before. */
  predicate NoOverrun(before: nat, chunks: seq<seq<Byte>>)
    decreases |chunks|
  {
    chunks == [] ||
    (!Overruns(before % 64, |chunks[0]|) && NoOverrun(before + |chunks[0]|, chunks[1..]))
  }

  lemma ChunkStep(before: seq<Byte>, chunks: seq<seq<Byte>>, i: nat)
    requires i < |chunks|
    ensures before + Joined(chunks[i..]) == before + chunks[i] + Joined(chunks[i + 1..])
    ensures NoOverrun(|before|, chunks[i..]) ==
            (!Overruns(|before| % 64, |chunks[i]|) && NoOverrun(|before + chunks[i]|, chunks[i + 1..]))
  {
    assert chunks[i..][1..] == chunks[i + 1..];
    var c, rest := chunks[i], Joined(chunks[i + 1..]);
    assert Joined(chunks[i..]) == c + rest;
    assert before + (c + rest) == before + c + rest;
  }

  /** `MD5Init`, an `MD5Update` per chunk, `MD5Final`: the digest of the message as a whole,
      however it is cut, unless a chunk overruns. */
  method DigestChunks(f: Compress, chunks: seq<seq<Byte>>) returns (digest: Option<seq<Byte>>)
    requires forall c :: c in chunks ==> |c| < TWO32
    ensures digest == if NoOverrun(0, chunks) then Some(Digest(f, Joined(chunks))) else None
  {
    var context := new Context(f);
    for i := 0 to |chunks|
      invariant context.Valid() && context.f == f && fresh(context) && fresh(context.buffer)
      invariant context.message + Joined(chunks[i..]) == Joined(chunks)
      invariant NoOverrun(|context.message|, chunks[i..]) == NoOverrun(0, chunks)
    {
      ChunkStep(context.message, chunks, i);
      assert chunks[i] in chunks;
      var ok := context.Update(chunks[i]);
      if !ok { return None; }
    }
    assert chunks[|chunks|..] == [];
    assert context.message + [] == context.message;
    var d := context.Final();
    return Some(d);
  }

  /** `MD5Buffer`: one chunk never overruns. */
  method DigestBuffer(buffer: seq<Byte>) returns (digest: seq<Byte>)
    requires |buffer| < TWO32
    ensures digest == Digest(Transform, buffer)
  {
    assert Joined([buffer]) == buffer by { assert [buffer][1..] == [] && buffer + [] == buffer; }
    assert NoOverrun(0, [buffer]) by {
      assert [buffer][1..] == [];
      if 64 <= |buffer| { EmptyNeverOverruns(|buffer|); }
    }
    var d := DigestChunks(Transform, [buffer]);
    digest := d.value;
  }

  lemma EmptyNeverOverruns(len: nat)
    requires 64 <= len < TWO32
    ensures !Overruns(0, len)
  {
    assert LastStart(0, len) % 64 == 0 && LastStart(0, len) <= len;
  }
}
