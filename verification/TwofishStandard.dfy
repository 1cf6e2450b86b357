/** Twofish on an expanded key, as its paper describes it: sixteen rounds of a Feistel network over four words with
    one-bit rotations, between two whitening steps. */
module TwofishStandard {
  import opened Memory
  import opened WordBits
  import opened Words

  const ROUNDS: nat := 16

  /** An expanded key: the key-dependent S-boxes, the whitening subkeys and the round subkeys. */
  datatype Context = Context(sBox: seq<seq<Word>>, white: seq<Word>, rs: seq<Word>)

  predicate Wf(t: Context)
  {
    && |t.sBox| == 4 && |t.white| == 8 && |t.rs| == 2 * ROUNDS
    && forall i :: 0 <= i < 4 ==> |t.sBox[i]| == 256
  }

  datatype Quad = Quad(a: Word, b: Word, c: Word, d: Word)

  function Rol1(x: Word): Word { (x << 1) + (x >> 31) }

  function Ror1(x: Word): Word { (x >> 1) + (x << 31) }

  function Rol8(x: Word): Word { (x << 8) | (x >> 24) }

  function Index(x: Word, i: nat): (n: nat)
    requires i < 4
    ensures n < 256
  {
    ByteOf(x, i) as nat
  }

  /** g. */
  function G(t: Context, x: Word): Word
    requires Wf(t)
  {
    Xor(Xor(Xor(t.sBox[0][Index(x, 0)], t.sBox[1][Index(x, 1)]), t.sBox[2][Index(x, 2)]), t.sBox[3][Index(x, 3)])
  }

  function Sum(x: Word, y: Word, k: Word): Word { x + y + k }

  function Hadamard(x: Word, y: Word, k: Word): Word { x + 2 * y + k }

  /** The two outputs of the round function: a pseudo-Hadamard transform of g(a) and g(ROL(b, 8)), and the subkeys. */
  function F0(t: Context, r: nat, a: Word, b: Word): Word
    requires Wf(t) && r < ROUNDS
  {
    Sum(G(t, a), G(t, Rol8(b)), t.rs[2 * r])
  }

  function F1(t: Context, r: nat, a: Word, b: Word): Word
    requires Wf(t) && r < ROUNDS
  {
    Hadamard(G(t, a), G(t, Rol8(b)), t.rs[2 * r + 1])
  }

  /** Round `r`, with the exchange of the halves at its end. */
  function Round(t: Context, r: nat, q: Quad): Quad
    requires Wf(t) && r < ROUNDS
  {
    Quad(Ror1(Xor(q.c, F0(t, r, q.a, q.b))), Xor(Rol1(q.d), F1(t, r, q.a, q.b)), q.a, q.b)
  }

  function Rounds(t: Context, q: Quad, n: nat): Quad
    requires Wf(t) && n <= ROUNDS
  {
    if n == 0 then q else Round(t, n - 1, Rounds(t, q, n - 1))
  }

  function RoundBack(t: Context, r: nat, q: Quad): Quad
    requires Wf(t) && r < ROUNDS
  {
    Quad(Xor(Rol1(q.c), F0(t, r, q.a, q.b)), Ror1(Xor(q.d, F1(t, r, q.a, q.b))), q.a, q.b)
  }

  /** The rounds in reverse order, from the last one on. */
  function RoundsBack(t: Context, q: Quad, n: nat): Quad
    requires Wf(t) && n <= ROUNDS
  {
    if n == 0 then q else RoundBack(t, ROUNDS - n, RoundsBack(t, q, n - 1))
  }

  function Exchanged(q: Quad): Quad
  {
    Quad(q.c, q.d, q.a, q.b)
  }

  function Whitened(t: Context, q: Quad, at: nat): Quad
    requires Wf(t) && at <= 4
  {
    Quad(Xor(q.a, t.white[at]), Xor(q.b, t.white[at + 1]), Xor(q.c, t.white[at + 2]), Xor(q.d, t.white[at + 3]))
  }

  /** Whitening, sixteen rounds, the last exchange undone, whitening. */
  function Encipher(t: Context, q: Quad): Quad
    requires Wf(t)
  {
    Whitened(t, Exchanged(Rounds(t, Whitened(t, q, 0), ROUNDS)), 4)
  }

  function Decipher(t: Context, q: Quad): Quad
    requires Wf(t)
  {
    Whitened(t, Exchanged(RoundsBack(t, Whitened(t, q, 4), ROUNDS)), 0)
  }

  // ---- deciphering undoes enciphering ----

  lemma RotateBack(x: Word)
    ensures Rol1(Ror1(x)) == x && Ror1(Rol1(x)) == x
  {
  }

  lemma RoundUndone(t: Context, r: nat, q: Quad)
    requires Wf(t) && r < ROUNDS
    ensures RoundBack(t, r, Exchanged(Round(t, r, q))) == Exchanged(q)
  {
    hide F0, F1, Rol1, Ror1, Xor;
    var f0, f1 := F0(t, r, q.a, q.b), F1(t, r, q.a, q.b);
    RotateBack(Xor(q.c, f0));
    RotateBack(q.d);
    XorTwice(q.c, f0);
    XorTwice(Rol1(q.d), f1);
  }

  lemma {:induction false} RoundsUndone(t: Context, q: Quad, n: nat)
    requires Wf(t) && n <= ROUNDS
    ensures RoundsBack(t, Exchanged(Rounds(t, q, ROUNDS)), n) == Exchanged(Rounds(t, q, ROUNDS - n))
  {
    hide Round, RoundBack, Exchanged;
    if n > 0 {
      RoundsUndone(t, q, n - 1);
      RoundUndone(t, ROUNDS - n, Rounds(t, q, ROUNDS - n));
    }
  }

  lemma WhitenedTwice(t: Context, q: Quad, at: nat)
    requires Wf(t) && at <= 4
    ensures Whitened(t, Whitened(t, q, at), at) == q
  {
    hide Xor;
    XorTwice(q.a, t.white[at]);
    XorTwice(q.b, t.white[at + 1]);
    XorTwice(q.c, t.white[at + 2]);
    XorTwice(q.d, t.white[at + 3]);
  }

  /** For all S-boxes, whitening and round subkeys, and every block. */
  lemma DecipherUndoes(t: Context, q: Quad)
    requires Wf(t)
    ensures Decipher(t, Encipher(t, q)) == q
  {
    hide Round, RoundBack, Whitened;
    var w := Whitened(t, q, 0);
    var e := Rounds(t, w, ROUNDS);
    WhitenedTwice(t, Exchanged(e), 4);
    RoundsUndone(t, w, ROUNDS);
    assert Rounds(t, w, 0) == w;
    WhitenedTwice(t, q, 0);
  }

  /** The rotation inside g taken into the order of the boxes. */
  lemma RotatedIndices(x: Word)
    ensures Index(Rol8(x), 0) == Index(x, 3) && Index(Rol8(x), 1) == Index(x, 0)
    ensures Index(Rol8(x), 2) == Index(x, 1) && Index(Rol8(x), 3) == Index(x, 2)
  {
  }

  // ---- what the parts of the round function are ----

  lemma Rotations(x: Word)
    ensures Rol1(x) == RotateLeft(x, 1) && Ror1(x) == RotateLeft(x, 31) && Rol8(x) == RotateLeft(x, 8)
  {
  }

  /** g joins one entry of each box, chosen by one byte each, by exclusive or. */
  lemma GBits(t: Context, x: Word, i: Word)
    requires Wf(t) && i < 32
    ensures BitAt(G(t, x), i)
            == (BitAt(t.sBox[0][Index(x, 0)], i)
                != (BitAt(t.sBox[1][Index(x, 1)], i)
                    != (BitAt(t.sBox[2][Index(x, 2)], i) != BitAt(t.sBox[3][Index(x, 3)], i))))
  {
    hide BitAt, Index, Xor;
    var e0, e1 := t.sBox[0][Index(x, 0)], t.sBox[1][Index(x, 1)];
    var e2, e3 := t.sBox[2][Index(x, 2)], t.sBox[3][Index(x, 3)];
    XorAt(e0, e1, i);
    XorAt(Xor(e0, e1), e2, i);
    XorAt(Xor(Xor(e0, e1), e2), e3, i);
  }

  /** The first index is the least significant byte. */
  lemma IndexOf(b0: Byte, b1: Byte, b2: Byte, b3: Byte)
    ensures var x := WordOf(b0, b1, b2, b3);
            && Index(x, 0) == b0 as nat && Index(x, 1) == b1 as nat
            && Index(x, 2) == b2 as nat && Index(x, 3) == b3 as nat
  {
    hide WordOf, ByteOf;
    var x := WordOf(b0, b1, b2, b3);
    BytesRoundTrip(b0, b1, b2, b3);
    assert WordBytes(x)[0] == b0 && WordBytes(x)[1] == b1 && WordBytes(x)[2] == b2 && WordBytes(x)[3] == b3;
  }

  lemma SumOfOne(x: Word, k: Word)
    ensures Sum(x, 0, k) == Add(x, k) && Sum(0, x, k) == Add(x, k) && Hadamard(x, 0, k) == Add(x, k)
  {
  }

  lemma HadamardDoubles(y: Word, k: Word)
    ensures Hadamard(0, y, k) == Sum(y, y, k)
  {
  }

  lemma SumsOfFiveAndSeven()
    ensures Sum(5, 7, 0x100) == 0x10c && Hadamard(5, 7, 0x100) == 0x113
  {
  }

  /** If one of the two values of g is zero the other reaches both outputs, the second one doubled in the second output;
      of two that are not, 5 and 7, the first counts once in both and the second once and twice. */
  lemma TransformOf(t: Context, r: nat, a: Word, b: Word)
    requires Wf(t) && r < ROUNDS
    ensures var g0, g1, k0, k1 := G(t, a), G(t, Rol8(b)), t.rs[2 * r], t.rs[2 * r + 1];
            && (g1 == 0 ==> F0(t, r, a, b) == Add(g0, k0) && F1(t, r, a, b) == Add(g0, k1))
            && (g0 == 0 ==> F0(t, r, a, b) == Add(g1, k0) && F1(t, r, a, b) == Sum(g1, g1, k1))
            && (g0 == 5 && g1 == 7 && k0 == k1 == 0x100 ==> F0(t, r, a, b) == 0x10c && F1(t, r, a, b) == 0x113)
  {
    hide G, Rol8, Sum, Hadamard, Add;
    var g0, g1, k0, k1 := G(t, a), G(t, Rol8(b)), t.rs[2 * r], t.rs[2 * r + 1];
    SumOfOne(g0, k0);
    SumOfOne(g0, k1);
    SumOfOne(g1, k0);
    HadamardDoubles(g1, k1);
    SumsOfFiveAndSeven();
  }

  // ---- what is left without S-boxes and round subkeys ----

  ghost predicate ZeroRoundKeys(t: Context)
    requires Wf(t)
  {
    && (forall i, j :: 0 <= i < 4 && 0 <= j < 256 ==> t.sBox[i][j] == 0)
    && (forall i :: 0 <= i < 2 * ROUNDS ==> t.rs[i] == 0)
  }

  /** `n` rotations by one bit. */
  function Rols(x: Word, n: nat): Word { if n == 0 then x else Rol1(Rols(x, n - 1)) }

  function Rors(x: Word, n: nat): Word { if n == 0 then x else Ror1(Rors(x, n - 1)) }

  lemma XorZero(a: Word)
    ensures Xor(0, a) == Xor(a, 0) == a
  {
  }

  lemma ZeroG(t: Context, x: Word)
    requires Wf(t) && ZeroRoundKeys(t)
    ensures G(t, x) == 0
  {
    hide Index, Xor;
    XorZero(0);
  }

  lemma ZeroSums()
    ensures Sum(0, 0, 0) == 0 && Hadamard(0, 0, 0) == 0
  {
  }

  lemma ZeroRound(t: Context, r: nat, q: Quad)
    requires Wf(t) && r < ROUNDS && ZeroRoundKeys(t)
    ensures Round(t, r, q) == Quad(Ror1(q.c), Rol1(q.d), q.a, q.b)
  {
    hide G, Rol1, Ror1, Rol8, Xor, Sum, Hadamard;
    ZeroG(t, q.a);
    ZeroG(t, Rol8(q.b));
    ZeroSums();
    XorZero(q.c);
    XorZero(Rol1(q.d));
  }

  lemma {:induction false} ZeroRounds(t: Context, q: Quad, n: nat)
    requires Wf(t) && ZeroRoundKeys(t) && n <= ROUNDS / 2
    ensures Rounds(t, q, 2 * n) == Quad(Rors(q.a, n), Rols(q.b, n), Rors(q.c, n), Rols(q.d, n))
  {
    hide Round, Rol1, Ror1, ZeroRoundKeys;
    if n > 0 {
      ZeroRounds(t, q, n - 1);
      var e := Rounds(t, q, 2 * n - 2);
      ZeroRound(t, 2 * n - 2, e);
      ZeroRound(t, 2 * n - 1, Round(t, 2 * n - 2, e));
      assert Rounds(t, q, 2 * n - 1) == Round(t, 2 * n - 2, e);
    }
  }

  /** With nothing in the round function, whitening is left, eight rotations by one bit, to the right for the first and
      third word and to the left for the others, and the exchange of the halves. */
  lemma WhiteningOnly(t: Context, q: Quad)
    requires Wf(t) && ZeroRoundKeys(t)
    ensures Encipher(t, q)
            == Quad(Xor(Rors(Xor(q.c, t.white[2]), 8), t.white[4]), Xor(Rols(Xor(q.d, t.white[3]), 8), t.white[5]),
                    Xor(Rors(Xor(q.a, t.white[0]), 8), t.white[6]), Xor(Rols(Xor(q.b, t.white[1]), 8), t.white[7]))
  {
    hide Rounds, Rols, Rors, Xor, ZeroRoundKeys;
    ZeroRounds(t, Whitened(t, q, 0), 8);
  }
}
