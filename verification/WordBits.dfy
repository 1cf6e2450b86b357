/** The bits of a 32-bit word one by one. */
module WordBits {
  import opened Words

  function OneBit(i: Word): Word
    requires i < 32
  {
    1 << i
  }

  function Masked(w: Word, m: Word): Word { w & m }

  /** Bit `i` of a word, counted from the low-order one. */
  predicate BitAt(w: Word, i: Word)
    requires i < 32
  {
    Masked(w, OneBit(i)) != 0
  }

  predicate Single(m: Word)
  {
    m != 0 && m & (m - 1) == 0
  }

  lemma OneBitSingle(i: Word)
    requires i < 32
    ensures Single(OneBit(i))
  {
  }

  lemma AllOrNothing(w: Word, m: Word)
    requires Single(m)
    ensures m != 0 && (Masked(w, m) == 0 || Masked(w, m) == m)
  {
  }

  /** A bit is there or it is not. */
  lemma BitIs(w: Word, i: Word)
    requires i < 32
    ensures OneBit(i) != 0 && Masked(w, OneBit(i)) == if BitAt(w, i) then OneBit(i) else 0
  {
    hide OneBit, Single, Masked;
    OneBitSingle(i);
    AllOrNothing(w, OneBit(i));
  }

  lemma XorMasked(a: Word, b: Word, m: Word)
    ensures Masked(Xor(a, b), m) == Xor(Masked(a, m), Masked(b, m))
  {
  }

  lemma XorOfBits(m: Word)
    ensures Xor(0, 0) == Xor(m, m) == 0 && Xor(0, m) == Xor(m, 0) == m
  {
  }

  /** Exclusive or, bit by bit. */
  lemma XorAt(a: Word, b: Word, i: Word)
    requires i < 32
    ensures BitAt(Xor(a, b), i) == (BitAt(a, i) != BitAt(b, i))
  {
    hide OneBit, Masked, Xor;
    BitIs(a, i);
    BitIs(b, i);
    XorMasked(a, b, OneBit(i));
    XorOfBits(OneBit(i));
  }

  // ---- rotation ----

  function RotateLeft(x: Word, n: Word): Word
    requires n <= 32
  {
    (x << n) | (x >> (32 - n))
  }

  function Up(m: Word, n: Word): Word
    requires n <= 32
  {
    m << n
  }

  function Down(m: Word, n: Word): Word
    requires n <= 32
  {
    m >> n
  }

  lemma RotatedUp(x: Word, n: Word, m: Word)
    requires n <= 32
    ensures Masked(RotateLeft(x, n), m << n) == Masked(x, m) << n
  {
  }

  lemma RotatedRound(x: Word, n: Word, m: Word)
    requires n <= 32
    ensures Masked(RotateLeft(x, n), m >> (32 - n)) == Masked(x, m) >> (32 - n)
  {
  }

  lemma OneBitUp(i: Word, n: Word)
    requires i < 32 && n <= 32 && i + n < 32
    ensures Up(OneBit(i), n) == OneBit(i + n)
  {
  }

  lemma OneBitRound(i: Word, n: Word)
    requires i < 32 && n <= 32 && i + n >= 32
    ensures Down(OneBit(i), 32 - n) == OneBit(i + n - 32)
  {
  }

  lemma MaskedUp(x: Word, n: Word, m: Word)
    requires n <= 32
    ensures Masked(RotateLeft(x, n), Up(m, n)) == Up(Masked(x, m), n)
  {
    hide RotateLeft, Masked;
    RotatedUp(x, n, m);
  }

  lemma MaskedRound(x: Word, n: Word, m: Word)
    requires n <= 32
    ensures Masked(RotateLeft(x, n), Down(m, 32 - n)) == Down(Masked(x, m), 32 - n)
  {
    hide RotateLeft, Masked;
    RotatedRound(x, n, m);
  }

  lemma NothingMoves(n: Word)
    requires n <= 32
    ensures Up(0, n) == Down(0, n) == 0
  {
  }

  /** A rotation by `n` moves bit `i` to `i + n`, counted modulo 32. */
  lemma RotationMoves(x: Word, n: Word, i: Word)
    requires n <= 32 && i < 32
    ensures BitAt(RotateLeft(x, n), if i + n < 32 then i + n else i + n - 32) == BitAt(x, i)
  {
    hide OneBit, RotateLeft, Masked, Up, Down;
    BitIs(x, i);
    if i + n < 32 {
      OneBitUp(i, n);
      MaskedUp(x, n, OneBit(i));
      NothingMoves(n);
      BitIs(x, i + n);
    } else {
      OneBitRound(i, n);
      MaskedRound(x, n, OneBit(i));
      NothingMoves(32 - n);
      BitIs(x, i + n - 32);
    }
  }
}
