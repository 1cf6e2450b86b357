/** The MD5 message digest of RFC 1321: the padding of sections 3.1 and 3.2, the processing of
    sections 3.3 and 3.4, the output of section 3.5. */
module Md5Standard {
  import opened Memory
  import opened WordBits
  import opened Words

  datatype State = State(a: Word, b: Word, c: Word, d: Word)

  const INITIAL := State(0x67452301, 0xefcdab89, 0x98badcfe, 0x10325476)

  function F(x: Word, y: Word, z: Word): Word { (x & y) | (!x & z) }

  function G(x: Word, y: Word, z: Word): Word { (x & z) | (y & !z) }

  function H(x: Word, y: Word, z: Word): Word { x ^ y ^ z }

  function I(x: Word, y: Word, z: Word): Word { y ^ (x | !z) }

  /** The auxiliary function of a round. */
  function Auxiliary(round: nat, x: Word, y: Word, z: Word): Word
    requires round < 4
  {
    if round == 0 then F(x, y, z) else if round == 1 then G(x, y, z) else if round == 2 then H(x, y, z) else I(x, y, z)
  }

  /** [abcd k s i]: a = b + ((a + f(b, c, d) + X[k] + T[i]) <<< s). */
  function Operation(round: nat, a: Word, b: Word, c: Word, d: Word, x: Word, s: Word, t: Word): Word
    requires round < 4 && s <= 32
  {
    Add(b, RotateLeft(Add(a, Add(Add(Auxiliary(round, b, c, d), x), t)), s))
  }

  /** The word of the block that step `i` uses. */
  function Index(i: nat): (k: nat)
    requires i < 64
    ensures k < 16
  {
    match i
    case 0 => 0 case 1 => 1 case 2 => 2 case 3 => 3
    case 4 => 4 case 5 => 5 case 6 => 6 case 7 => 7
    case 8 => 8 case 9 => 9 case 10 => 10 case 11 => 11
    case 12 => 12 case 13 => 13 case 14 => 14 case 15 => 15
    case 16 => 1 case 17 => 6 case 18 => 11 case 19 => 0
    case 20 => 5 case 21 => 10 case 22 => 15 case 23 => 4
    case 24 => 9 case 25 => 14 case 26 => 3 case 27 => 8
    case 28 => 13 case 29 => 2 case 30 => 7 case 31 => 12
    case 32 => 5 case 33 => 8 case 34 => 11 case 35 => 14
    case 36 => 1 case 37 => 4 case 38 => 7 case 39 => 10
    case 40 => 13 case 41 => 0 case 42 => 3 case 43 => 6
    case 44 => 9 case 45 => 12 case 46 => 15 case 47 => 2
    case 48 => 0 case 49 => 7 case 50 => 14 case 51 => 5
    case 52 => 12 case 53 => 3 case 54 => 10 case 55 => 1
    case 56 => 8 case 57 => 15 case 58 => 6 case 59 => 13
    case 60 => 4 case 61 => 11 case 62 => 2 case _ => 9
  }

  /** In order in the first round, then in strides of 5, 3 and 7. */
  lemma IndexStrides(i: nat)
    requires i < 64
    ensures Index(i) == if i < 16 then i
                        else if i < 32 then (5 * i + 1) % 16
                        else if i < 48 then (3 * i + 5) % 16
                        else 7 * i % 16
  {
  }

  /** The rotation of step `i`. */
  function Shift(i: nat): (s: Word)
    requires i < 64
    ensures s <= 32
  {
    var k := i % 4;
    if i < 16 then (if k == 0 then 7 else if k == 1 then 12 else if k == 2 then 17 else 22)
    else if i < 32 then (if k == 0 then 5 else if k == 1 then 9 else if k == 2 then 14 else 20)
    else if i < 48 then (if k == 0 then 4 else if k == 1 then 11 else if k == 2 then 16 else 23)
    else (if k == 0 then 6 else if k == 1 then 10 else if k == 2 then 15 else 21)
  }

  /** The table T of section 3.4, counted from 0. */
  function Constant(i: nat): Word
    requires i < 64
  {
    if i < 16 then T1(i) else if i < 32 then T2(i - 16) else if i < 48 then T3(i - 32) else T4(i - 48)
  }

  function T1(i: nat): Word
    requires i < 16
  {
    match i
    case 0 => 0xd76aa478 case 1 => 0xe8c7b756 case 2 => 0x242070db case 3 => 0xc1bdceee
    case 4 => 0xf57c0faf case 5 => 0x4787c62a case 6 => 0xa8304613 case 7 => 0xfd469501
    case 8 => 0x698098d8 case 9 => 0x8b44f7af case 10 => 0xffff5bb1 case 11 => 0x895cd7be
    case 12 => 0x6b901122 case 13 => 0xfd987193 case 14 => 0xa679438e case _ => 0x49b40821
  }

  function T2(i: nat): Word
    requires i < 16
  {
    match i
    case 0 => 0xf61e2562 case 1 => 0xc040b340 case 2 => 0x265e5a51 case 3 => 0xe9b6c7aa
    case 4 => 0xd62f105d case 5 => 0x02441453 case 6 => 0xd8a1e681 case 7 => 0xe7d3fbc8
    case 8 => 0x21e1cde6 case 9 => 0xc33707d6 case 10 => 0xf4d50d87 case 11 => 0x455a14ed
    case 12 => 0xa9e3e905 case 13 => 0xfcefa3f8 case 14 => 0x676f02d9 case _ => 0x8d2a4c8a
  }

  function T3(i: nat): Word
    requires i < 16
  {
    match i
    case 0 => 0xfffa3942 case 1 => 0x8771f681 case 2 => 0x6d9d6122 case 3 => 0xfde5380c
    case 4 => 0xa4beea44 case 5 => 0x4bdecfa9 case 6 => 0xf6bb4b60 case 7 => 0xbebfbc70
    case 8 => 0x289b7ec6 case 9 => 0xeaa127fa case 10 => 0xd4ef3085 case 11 => 0x04881d05
    case 12 => 0xd9d4d039 case 13 => 0xe6db99e5 case 14 => 0x1fa27cf8 case _ => 0xc4ac5665
  }

  function T4(i: nat): Word
    requires i < 16
  {
    match i
    case 0 => 0xf4292244 case 1 => 0x432aff97 case 2 => 0xab9423a7 case 3 => 0xfc93a039
    case 4 => 0x655b59c3 case 5 => 0x8f0ccc92 case 6 => 0xffeff47d case 7 => 0x85845dd1
    case 8 => 0x6fa87e4f case 9 => 0xfe2ce6e0 case 10 => 0xa3014314 case 11 => 0x4e0811a1
    case 12 => 0xf7537e82 case 13 => 0xbd3af235 case 14 => 0x2ad7d2bb case _ => 0xeb86d391
  }

  /** Step `i`: the roles of the four words move on by one. */
  function Step(x: seq<Word>, i: nat, s: State): State
    requires |x| == 16 && i < 64
  {
    State(s.d, Operation(i / 16, s.a, s.b, s.c, s.d, x[Index(i)], Shift(i), Constant(i)), s.b, s.c)
  }

  function Steps(x: seq<Word>, n: nat, s: State): State
    requires |x| == 16 && n <= 64
  {
    if n == 0 then s else Step(x, n - 1, Steps(x, n - 1, s))
  }

  function BlockWords(block: seq<Byte>): (x: seq<Word>)
    requires |block| == 64
    ensures |x| == 16
  {
    seq(16, i requires 0 <= i < 16 => WordAt(block, 4 * i))
  }

  /** Section 3.4: one block. */
  function Compress(s: State, block: seq<Byte>): State
    requires |block| == 64
  {
    var e := Steps(BlockWords(block), 64, s);
    State(Add(s.a, e.a), Add(s.b, e.b), Add(s.c, e.c), Add(s.d, e.d))
  }

  /** The state after the first `n` blocks of a message. */
  function Folded(m: seq<Byte>, n: nat): State
    requires 64 * n <= |m|
  {
    if n == 0 then INITIAL else Compress(Folded(m, n - 1), m[64 * (n - 1)..64 * n])
  }

  /** A 32-bit number, low-order byte first. */
  function NumberBytes(n: nat): (r: seq<Byte>)
    requires n < 0x1_0000_0000
    ensures |r| == 4
  {
    [(n % 256) as Byte, (n / 0x100 % 256) as Byte, (n / 0x1_0000 % 256) as Byte, (n / 0x100_0000 % 256) as Byte]
  }

  /** Section 3.2: the length in bits as 64 bits, low-order word first, modulo 2^64. */
  function LengthBytes(m: seq<Byte>): (r: seq<Byte>)
    ensures |r| == 8
  {
    var bits := 8 * |m|;
    NumberBytes(bits % 0x1_0000_0000) + NumberBytes(bits / 0x1_0000_0000 % 0x1_0000_0000)
  }

  /** Section 3.1: one to 64 bytes of padding, up to 56 modulo 64. */
  function PadLength(n: nat): (k: nat)
    ensures 1 <= k <= 64 && (n + k) % 64 == 56
  {
    if n % 64 < 56 then 56 - n % 64 else 120 - n % 64
  }

  function Padding(k: nat): (r: seq<Byte>)
    requires 1 <= k
    ensures |r| == k
  {
    [0x80] + seq(k - 1, _ => 0)
  }

  lemma PaddedWhole(n: nat, k: nat)
    requires (n + k) % 64 == 56
    ensures (n + k + 8) % 64 == 0
  {
  }

  function Padded(m: seq<Byte>): (r: seq<Byte>)
    ensures |r| == |m| + PadLength(|m|) + 8 && |r| % 64 == 0
  {
    var k := PadLength(|m|);
    PaddedWhole(|m|, k);
    m + Padding(k) + LengthBytes(m)
  }

  /** Section 3.5: A, B, C, D, each with its low-order byte first. */
  function Output(s: State): (r: seq<Byte>)
    ensures |r| == 16
  {
    WordBytes(s.a) + WordBytes(s.b) + WordBytes(s.c) + WordBytes(s.d)
  }

  function Digest(m: seq<Byte>): (r: seq<Byte>)
    ensures |r| == 16
  {
    Output(Folded(Padded(m), |Padded(m)| / 64))
  }

  // ---- lemmas ----

  /** The state after some blocks does not depend on what follows them. */
  lemma {:induction false} FoldedPrefix(m: seq<Byte>, more: seq<Byte>, n: nat)
    requires 64 * n <= |m|
    ensures Folded(m + more, n) == Folded(m, n)
  {
    hide Compress;
    if n > 0 {
      FoldedPrefix(m, more, n - 1);
      assert (m + more)[64 * (n - 1)..64 * n] == m[64 * (n - 1)..64 * n];
    }
  }

  /** Four steps in the source's order: a, d, c and b are replaced in turn. */
  function Quad(x: seq<Word>, q: nat, s: State): State
    requires |x| == 16 && q < 16
  {
    var r, i := q / 4, 4 * q;
    var a := Operation(r, s.a, s.b, s.c, s.d, x[Index(i)], Shift(i), Constant(i));
    var d := Operation(r, s.d, a, s.b, s.c, x[Index(i + 1)], Shift(i + 1), Constant(i + 1));
    var c := Operation(r, s.c, d, a, s.b, x[Index(i + 2)], Shift(i + 2), Constant(i + 2));
    var b := Operation(r, s.b, c, d, a, x[Index(i + 3)], Shift(i + 3), Constant(i + 3));
    State(a, b, c, d)
  }

  lemma StepsNext(x: seq<Word>, n: nat, s: State)
    requires |x| == 16 && n < 64
    ensures Steps(x, n + 1, s) == Step(x, n, Steps(x, n, s))
  {
  }

  lemma QuadIsFourSteps(x: seq<Word>, q: nat, s: State)
    requires |x| == 16 && q < 16
    ensures Steps(x, 4 * q + 4, s) == Quad(x, q, Steps(x, 4 * q, s))
  {
    hide Operation, Index, Shift, Constant, Steps;
    StepsNext(x, 4 * q, s);
    StepsNext(x, 4 * q + 1, s);
    StepsNext(x, 4 * q + 2, s);
    StepsNext(x, 4 * q + 3, s);
  }

  lemma FoldedNext(m: seq<Byte>, n: nat)
    requires 64 * n + 64 <= |m|
    ensures Folded(m, n + 1) == Compress(Folded(m, n), m[64 * n..64 * n + 64])
  {
    hide Compress;
  }

  lemma FoldedNone(m: seq<Byte>)
    ensures Folded(m, 0) == INITIAL
  {
  }
}
