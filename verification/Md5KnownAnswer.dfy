/** The digest of "abc", as RFC 1321 gives it in its test suite (section A.5), step by step. */
module Md5KnownAnswer {
  import opened Memory
  import opened Md5Standard
  import opened WordBits
  import opened Words

  const ABC: seq<Byte> := [0x61, 0x62, 0x63]

  function AbcWord(k: nat): Word
  {
    if k == 0 then 0x80636261 else if k == 14 then 24 else 0
  }

  /** The words of the only block of the padded message. */
  function AbcWords(): (x: seq<Word>)
    ensures |x| == 16
  {
    seq(16, k requires 0 <= k < 16 => AbcWord(k))
  }

  predicate Reached(n: nat, s: State)
    requires n <= 64
  {
    Steps(AbcWords(), n, INITIAL) == s
  }

  /** Step `n` uses word `x` of the block, rotation `s` and constant `t`. */
  predicate Uses(n: nat, x: Word, s: Word, t: Word)
    requires n < 64
  {
    && x == AbcWord((if n < 16 then n else if n < 32 then 5 * n + 1 else if n < 48 then 3 * n + 5 else 7 * n) % 16)
    && s == Shift(n) && t == Constant(n)
  }

  lemma StepTo(n: nat, a: Word, b: Word, c: Word, d: Word, x: Word, s: Word, t: Word, e: Word)
    requires n < 64 && Reached(n, State(a, b, c, d)) && Uses(n, x, s, t)
    requires s <= 32 && Operation(n / 16, a, b, c, d, x, s, t) == e
    ensures Reached(n + 1, State(d, e, b, c))
  {
    hide Operation, Index, Shift, Constant, AbcWord;
    IndexStrides(n);
  }

  lemma Uses0()
    ensures Uses(0, 0x80636261, 7, 0xd76aa478)
    ensures Uses(1, 0, 12, 0xe8c7b756)
    ensures Uses(2, 0, 17, 0x242070db)
    ensures Uses(3, 0, 22, 0xc1bdceee)
    ensures Uses(4, 0, 7, 0xf57c0faf)
    ensures Uses(5, 0, 12, 0x4787c62a)
    ensures Uses(6, 0, 17, 0xa8304613)
    ensures Uses(7, 0, 22, 0xfd469501)
  {
  }

  lemma Uses8()
    ensures Uses(8, 0, 7, 0x698098d8)
    ensures Uses(9, 0, 12, 0x8b44f7af)
    ensures Uses(10, 0, 17, 0xffff5bb1)
    ensures Uses(11, 0, 22, 0x895cd7be)
    ensures Uses(12, 0, 7, 0x6b901122)
    ensures Uses(13, 0, 12, 0xfd987193)
    ensures Uses(14, 24, 17, 0xa679438e)
    ensures Uses(15, 0, 22, 0x49b40821)
  {
  }

  lemma Uses16()
    ensures Uses(16, 0, 5, 0xf61e2562)
    ensures Uses(17, 0, 9, 0xc040b340)
    ensures Uses(18, 0, 14, 0x265e5a51)
    ensures Uses(19, 0x80636261, 20, 0xe9b6c7aa)
    ensures Uses(20, 0, 5, 0xd62f105d)
    ensures Uses(21, 0, 9, 0x02441453)
    ensures Uses(22, 0, 14, 0xd8a1e681)
    ensures Uses(23, 0, 20, 0xe7d3fbc8)
  {
  }

  lemma Uses24()
    ensures Uses(24, 0, 5, 0x21e1cde6)
    ensures Uses(25, 24, 9, 0xc33707d6)
    ensures Uses(26, 0, 14, 0xf4d50d87)
    ensures Uses(27, 0, 20, 0x455a14ed)
    ensures Uses(28, 0, 5, 0xa9e3e905)
    ensures Uses(29, 0, 9, 0xfcefa3f8)
    ensures Uses(30, 0, 14, 0x676f02d9)
    ensures Uses(31, 0, 20, 0x8d2a4c8a)
  {
  }

  lemma Uses32()
    ensures Uses(32, 0, 4, 0xfffa3942)
    ensures Uses(33, 0, 11, 0x8771f681)
    ensures Uses(34, 0, 16, 0x6d9d6122)
    ensures Uses(35, 24, 23, 0xfde5380c)
    ensures Uses(36, 0, 4, 0xa4beea44)
    ensures Uses(37, 0, 11, 0x4bdecfa9)
    ensures Uses(38, 0, 16, 0xf6bb4b60)
    ensures Uses(39, 0, 23, 0xbebfbc70)
  {
  }

  lemma Uses40()
    ensures Uses(40, 0, 4, 0x289b7ec6)
    ensures Uses(41, 0x80636261, 11, 0xeaa127fa)
    ensures Uses(42, 0, 16, 0xd4ef3085)
    ensures Uses(43, 0, 23, 0x04881d05)
    ensures Uses(44, 0, 4, 0xd9d4d039)
    ensures Uses(45, 0, 11, 0xe6db99e5)
    ensures Uses(46, 0, 16, 0x1fa27cf8)
    ensures Uses(47, 0, 23, 0xc4ac5665)
  {
  }

  lemma Uses48()
    ensures Uses(48, 0x80636261, 6, 0xf4292244)
    ensures Uses(49, 0, 10, 0x432aff97)
    ensures Uses(50, 24, 15, 0xab9423a7)
    ensures Uses(51, 0, 21, 0xfc93a039)
    ensures Uses(52, 0, 6, 0x655b59c3)
    ensures Uses(53, 0, 10, 0x8f0ccc92)
    ensures Uses(54, 0, 15, 0xffeff47d)
    ensures Uses(55, 0, 21, 0x85845dd1)
  {
  }

  lemma Uses56()
    ensures Uses(56, 0, 6, 0x6fa87e4f)
    ensures Uses(57, 0, 10, 0xfe2ce6e0)
    ensures Uses(58, 0, 15, 0xa3014314)
    ensures Uses(59, 0, 21, 0x4e0811a1)
    ensures Uses(60, 0, 6, 0xf7537e82)
    ensures Uses(61, 0, 10, 0xbd3af235)
    ensures Uses(62, 0, 15, 0x2ad7d2bb)
    ensures Uses(63, 0, 21, 0xeb86d391)
  {
  }

  lemma Round1()
    requires Reached(0, State(0x67452301, 0xefcdab89, 0x98badcfe, 0x10325476))
    ensures Reached(16, State(0xdda9b9a6, 0x72aff2e0, 0xe396856b, 0xa1051895))
  {
    hide Reached, Uses;
    Uses0();
    Uses8();
    StepTo(0, 0x67452301, 0xefcdab89, 0x98badcfe, 0x10325476, 0x80636261, 7, 0xd76aa478, 0xd6d117b4);
    StepTo(1, 0x10325476, 0xd6d117b4, 0xefcdab89, 0x98badcfe, 0, 12, 0xe8c7b756, 0x344a8432);
    StepTo(2, 0x98badcfe, 0x344a8432, 0xd6d117b4, 0xefcdab89, 0, 17, 0x242070db, 0x2f6fbd72);
    StepTo(3, 0xefcdab89, 0x2f6fbd72, 0x344a8432, 0xd6d117b4, 0, 22, 0xc1bdceee, 0x7ad956f2);
    StepTo(4, 0xd6d117b4, 0x7ad956f2, 0x2f6fbd72, 0x344a8432, 0, 7, 0xf57c0faf, 0xc73741ef);
    StepTo(5, 0x344a8432, 0xc73741ef, 0x7ad956f2, 0x2f6fbd72, 0, 12, 0x4787c62a, 0x8bac3051);
    StepTo(6, 0x2f6fbd72, 0x8bac3051, 0xc73741ef, 0x7ad956f2, 0, 17, 0xa8304613, 0x207dc67b);
    StepTo(7, 0x7ad956f2, 0x207dc67b, 0x8bac3051, 0xc73741ef, 0, 22, 0xfd469501, 0x928d99f6);
    StepTo(8, 0xc73741ef, 0x928d99f6, 0x207dc67b, 0x8bac3051, 0, 7, 0x698098d8, 0x854b3712);
    StepTo(9, 0x8bac3051, 0x854b3712, 0x928d99f6, 0x207dc67b, 0, 12, 0x8b44f7af, 0x74e2f284);
    StepTo(10, 0x207dc67b, 0x74e2f284, 0x854b3712, 0x928d99f6, 0, 17, 0xffff5bb1, 0x3020401c);
    StepTo(11, 0x928d99f6, 0x3020401c, 0x74e2f284, 0x854b3712, 0, 22, 0x895cd7be, 0x5ed49596);
    StepTo(12, 0x854b3712, 0x5ed49596, 0x3020401c, 0x74e2f284, 0, 7, 0x6b901122, 0xdda9b9a6);
    StepTo(13, 0x74e2f284, 0xdda9b9a6, 0x5ed49596, 0x3020401c, 0, 12, 0xfd987193, 0xa1051895);
    StepTo(14, 0x3020401c, 0xa1051895, 0xdda9b9a6, 0x5ed49596, 24, 17, 0xa679438e, 0xe396856b);
    StepTo(15, 0x5ed49596, 0xe396856b, 0xa1051895, 0xdda9b9a6, 0, 22, 0x49b40821, 0x72aff2e0);
  }

  lemma Round2()
    requires Reached(16, State(0xdda9b9a6, 0x72aff2e0, 0xe396856b, 0xa1051895))
    ensures Reached(32, State(0x790a77fb, 0x726342d3, 0xa62884aa, 0x9f47e4f8))
  {
    hide Reached, Uses;
    Uses16();
    Uses24();
    StepTo(16, 0xdda9b9a6, 0x72aff2e0, 0xe396856b, 0xa1051895, 0, 5, 0xf61e2562, 0x3e9e9126);
    StepTo(17, 0xa1051895, 0x3e9e9126, 0x72aff2e0, 0xe396856b, 0, 9, 0xc040b340, 0x4a1d804e);
    StepTo(18, 0xe396856b, 0x4a1d804e, 0x3e9e9126, 0x72aff2e0, 0, 14, 0x265e5a51, 0xe25e1652);
    StepTo(19, 0x72aff2e0, 0xe25e1652, 0x4a1d804e, 0x3e9e9126, 0x80636261, 20, 0xe9b6c7aa, 0xb5b204e4);
    StepTo(20, 0x3e9e9126, 0xb5b204e4, 0xe25e1652, 0x4a1d804e, 0, 5, 0xd62f105d, 0x59a8ffda);
    StepTo(21, 0x4a1d804e, 0x59a8ffda, 0xb5b204e4, 0xe25e1652, 0, 9, 0x02441453, 0x6d002f1e);
    StepTo(22, 0xe25e1652, 0x6d002f1e, 0x59a8ffda, 0xb5b204e4, 0, 14, 0xd8a1e681, 0xabfc7920);
    StepTo(23, 0xb5b204e4, 0xabfc7920, 0x6d002f1e, 0x59a8ffda, 0, 20, 0xe7d3fbc8, 0x47092c07);
    StepTo(24, 0x59a8ffda, 0x47092c07, 0xabfc7920, 0x6d002f1e, 0, 5, 0x21e1cde6, 0xb7f268cf);
    StepTo(25, 0x6d002f1e, 0xb7f268cf, 0x47092c07, 0xabfc7920, 24, 9, 0xc33707d6, 0x09388eff);
    StepTo(26, 0xabfc7920, 0x09388eff, 0xb7f268cf, 0x47092c07, 0, 14, 0xf4d50d87, 0xfe1623b1);
    StepTo(27, 0x47092c07, 0xfe1623b1, 0x09388eff, 0xb7f268cf, 0, 20, 0x455a14ed, 0x786acb8f);
    StepTo(28, 0xb7f268cf, 0x786acb8f, 0xfe1623b1, 0x09388eff, 0, 5, 0xa9e3e905, 0x790a77fb);
    StepTo(29, 0x09388eff, 0x790a77fb, 0x786acb8f, 0xfe1623b1, 0, 9, 0xfcefa3f8, 0x9f47e4f8);
    StepTo(30, 0xfe1623b1, 0x9f47e4f8, 0x790a77fb, 0x786acb8f, 0, 14, 0x676f02d9, 0xa62884aa);
    StepTo(31, 0x786acb8f, 0xa62884aa, 0x9f47e4f8, 0x790a77fb, 0, 20, 0x8d2a4c8a, 0x726342d3);
  }

  lemma Round3()
    requires Reached(32, State(0x790a77fb, 0x726342d3, 0xa62884aa, 0x9f47e4f8))
    ensures Reached(48, State(0x7f2e507b, 0x7beb9700, 0x8fae6399, 0x99d9679d))
  {
    hide Reached, Uses;
    Uses32();
    Uses40();
    StepTo(32, 0x790a77fb, 0x726342d3, 0xa62884aa, 0x9f47e4f8, 0, 4, 0xfffa3942, 0xb3707ebf);
    StepTo(33, 0x9f47e4f8, 0xb3707ebf, 0x726342d3, 0xa62884aa, 0, 11, 0x8771f681, 0x60127b2e);
    StepTo(34, 0xa62884aa, 0x60127b2e, 0xb3707ebf, 0x726342d3, 0, 16, 0x6d9d6122, 0x8d212ff5);
    StepTo(35, 0x726342d3, 0x8d212ff5, 0x60127b2e, 0xb3707ebf, 24, 23, 0xfde5380c, 0x3b0875c7);
    StepTo(36, 0xb3707ebf, 0x3b0875c7, 0x8d212ff5, 0x60127b2e, 0, 4, 0xa4beea44, 0x21b117b9);
    StepTo(37, 0x60127b2e, 0x21b117b9, 0x3b0875c7, 0x8d212ff5, 0, 11, 0x4bdecfa9, 0x6e7429d5);
    StepTo(38, 0x8d212ff5, 0x6e7429d5, 0x21b117b9, 0x3b0875c7, 0, 16, 0xf6bb4b60, 0x3575227e);
    StepTo(39, 0x3b0875c7, 0x3575227e, 0x6e7429d5, 0x21b117b9, 0, 23, 0xbebfbc70, 0x5a2f5ea5);
    StepTo(40, 0x21b117b9, 0x5a2f5ea5, 0x3575227e, 0x6e7429d5, 0, 4, 0x289b7ec6, 0x11de1779);
    StepTo(41, 0x6e7429d5, 0x11de1779, 0x5a2f5ea5, 0x3575227e, 0x80636261, 11, 0xeaa127fa, 0xfadcaa38);
    StepTo(42, 0x3575227e, 0xfadcaa38, 0x11de1779, 0x5a2f5ea5, 0, 16, 0xd4ef3085, 0x31c465ca);
    StepTo(43, 0x5a2f5ea5, 0x31c465ca, 0xfadcaa38, 0x11de1779, 0, 23, 0x04881d05, 0x4c6124f4);
    StepTo(44, 0x11de1779, 0x4c6124f4, 0x31c465ca, 0xfadcaa38, 0, 4, 0xd9d4d039, 0x7f2e507b);
    StepTo(45, 0xfadcaa38, 0x7f2e507b, 0x4c6124f4, 0x31c465ca, 0, 11, 0xe6db99e5, 0x99d9679d);
    StepTo(46, 0x31c465ca, 0x99d9679d, 0x7f2e507b, 0x4c6124f4, 0, 16, 0x1fa27cf8, 0x8fae6399);
    StepTo(47, 0x4c6124f4, 0x8fae6399, 0x99d9679d, 0x7f2e507b, 0, 23, 0xc4ac5665, 0x7beb9700);
  }

  lemma Round4()
    requires Reached(48, State(0x7f2e507b, 0x7beb9700, 0x8fae6399, 0x99d9679d))
    ensures Reached(64, State(0x310ade8f, 0xc08226b3, 0xe484b9d8, 0x624d8cb2))
  {
    hide Reached, Uses;
    Uses48();
    Uses56();
    StepTo(48, 0x7f2e507b, 0x7beb9700, 0x8fae6399, 0x99d9679d, 0x80636261, 6, 0xf4292244, 0x7b201df8);
    StepTo(49, 0x99d9679d, 0x7b201df8, 0x7beb9700, 0x8fae6399, 0, 10, 0x432aff97, 0xf4e8e96e);
    StepTo(50, 0x8fae6399, 0xf4e8e96e, 0x7b201df8, 0x7beb9700, 24, 15, 0xab9423a7, 0xb298cefd);
    StepTo(51, 0x7beb9700, 0xb298cefd, 0xf4e8e96e, 0x7b201df8, 0, 21, 0xfc93a039, 0x8bf025c4);
    StepTo(52, 0x7b201df8, 0x8bf025c4, 0xb298cefd, 0xf4e8e96e, 0, 6, 0x655b59c3, 0x06cc5e8a);
    StepTo(53, 0xf4e8e96e, 0x06cc5e8a, 0x8bf025c4, 0xb298cefd, 0, 10, 0x8f0ccc92, 0x5b0d97aa);
    StepTo(54, 0xb298cefd, 0x5b0d97aa, 0x06cc5e8a, 0x8bf025c4, 0, 15, 0xffeff47d, 0x7d632dd0);
    StepTo(55, 0x8bf025c4, 0x7d632dd0, 0x5b0d97aa, 0x06cc5e8a, 0, 21, 0x85845dd1, 0x3bfa2c27);
    StepTo(56, 0x06cc5e8a, 0x3bfa2c27, 0x7d632dd0, 0x5b0d97aa, 0, 6, 0x6fa87e4f, 0x7f81cc35);
    StepTo(57, 0x5b0d97aa, 0x7f81cc35, 0x3bfa2c27, 0x7d632dd0, 0, 10, 0xfe2ce6e0, 0x094454ab);
    StepTo(58, 0x7d632dd0, 0x094454ab, 0x7f81cc35, 0x3bfa2c27, 0, 15, 0xa3014314, 0x4f9dbe3f);
    StepTo(59, 0x3bfa2c27, 0x4f9dbe3f, 0x094454ab, 0x7f81cc35, 0, 21, 0x4e0811a1, 0x7327d604);
    StepTo(60, 0x7f81cc35, 0x7327d604, 0x4f9dbe3f, 0x094454ab, 0, 6, 0xf7537e82, 0x310ade8f);
    StepTo(61, 0x094454ab, 0x310ade8f, 0x7327d604, 0x4f9dbe3f, 0, 10, 0xbd3af235, 0x624d8cb2);
    StepTo(62, 0x4f9dbe3f, 0x624d8cb2, 0x310ade8f, 0x7327d604, 0, 15, 0x2ad7d2bb, 0xe484b9d8);
    StepTo(63, 0x7327d604, 0xe484b9d8, 0x624d8cb2, 0x310ade8f, 0, 21, 0xeb86d391, 0xc08226b3);
  }

  // ---- the padded message ----

  lemma Bits24()
    ensures NumberBytes(24) == [24, 0, 0, 0] && NumberBytes(0) == [0, 0, 0, 0]
  {
  }

  lemma LengthOfAbc()
    ensures LengthBytes(ABC) == [24, 0, 0, 0, 0, 0, 0, 0]
  {
    hide NumberBytes;
    Bits24();
  }

  lemma PaddedIs()
    ensures Padded(ABC) == ABC + Padding(53) + [24, 0, 0, 0, 0, 0, 0, 0]
  {
    hide Padding, LengthBytes;
    LengthOfAbc();
  }

  lemma OneBlock()
    ensures |Padded(ABC)| == 64
    ensures Padded(ABC)[..4] == [0x61, 0x62, 0x63, 0x80] && Padded(ABC)[56] == 24
    ensures forall i :: 4 <= i < 64 && i != 56 ==> Padded(ABC)[i] == 0
  {
    hide Padded;
    PaddedIs();
  }

  lemma AbcWordIs(k: nat)
    requires k < 16
    ensures WordAt(Padded(ABC), 4 * k) == AbcWord(k)
  {
    hide Padded;
    OneBlock();
    var m := Padded(ABC);
    if k == 0 {
      assert m[0] == 0x61 && m[1] == 0x62 && m[2] == 0x63 && m[3] == 0x80;
    }
  }

  lemma BlockIsAbc()
    ensures BlockWords(Padded(ABC)[..64]) == AbcWords()
  {
    hide Padded, AbcWord, WordOf;
    forall k | 0 <= k < 16
      ensures BlockWords(Padded(ABC)[..64])[k] == AbcWords()[k]
    {
      AbcWordIs(k);
    }
  }

  // ---- the digest ----

  lemma Started()
    ensures Reached(0, State(0x67452301, 0xefcdab89, 0x98badcfe, 0x10325476))
  {
  }

  lemma AllRounds()
    ensures Reached(64, State(0x310ade8f, 0xc08226b3, 0xe484b9d8, 0x624d8cb2))
  {
    Started();
    hide Reached;
    Round1();
    Round2();
    Round3();
    Round4();
  }

  lemma Final()
    ensures Folded(Padded(ABC), 1) == State(0x98500190, 0xb04fd23c, 0x7d3f96d6, 0x727fe128)
  {
    hide Padded, AbcWords, Steps, BlockWords;
    OneBlock();
    BlockIsAbc();
    AllRounds();
    FoldedNone(Padded(ABC));
    FoldedNext(Padded(ABC), 0);
  }

  /** "abc" has the digest 900150983cd24fb0d6963f7d28e17f72. */
  lemma KnownAnswer()
    ensures Digest(ABC) == [0x90, 0x01, 0x50, 0x98, 0x3c, 0xd2, 0x4f, 0xb0,
                            0xd6, 0x96, 0x3f, 0x7d, 0x28, 0xe1, 0x7f, 0x72]
  {
    hide Padded, Folded;
    OneBlock();
    Final();
  }
}
