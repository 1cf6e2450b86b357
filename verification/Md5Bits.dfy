/** The functions of sections 3.3 and 3.4 of RFC 1321, bit by bit. */
module Md5Bits {
  import opened Md5Standard
  import opened Memory
  import opened WordBits
  import opened Words

  // The functions on the bits of a mask, first with the operators, then with them named.

  lemma FOperators(x: Word, y: Word, z: Word, m: Word)
    ensures x & m == 0 ==> F(x, y, z) & m == z & m
    ensures x & m == m ==> F(x, y, z) & m == y & m
  {
  }

  lemma FMasked(x: Word, y: Word, z: Word, m: Word)
    ensures Masked(x, m) == 0 ==> Masked(F(x, y, z), m) == Masked(z, m)
    ensures Masked(x, m) == m ==> Masked(F(x, y, z), m) == Masked(y, m)
  {
    hide F;
    FOperators(x, y, z, m);
  }

  lemma GOperators(x: Word, y: Word, z: Word, m: Word)
    ensures z & m == 0 ==> G(x, y, z) & m == y & m
    ensures z & m == m ==> G(x, y, z) & m == x & m
  {
  }

  lemma GMasked(x: Word, y: Word, z: Word, m: Word)
    ensures Masked(z, m) == 0 ==> Masked(G(x, y, z), m) == Masked(y, m)
    ensures Masked(z, m) == m ==> Masked(G(x, y, z), m) == Masked(x, m)
  {
    hide G;
    GOperators(x, y, z, m);
  }

  lemma HOperators(x: Word, y: Word, z: Word, m: Word)
    ensures H(x, y, z) & m == (x & m) ^ ((y & m) ^ (z & m))
  {
  }

  lemma HMasked(x: Word, y: Word, z: Word, m: Word)
    ensures Masked(H(x, y, z), m) == Xor(Masked(x, m), Xor(Masked(y, m), Masked(z, m)))
  {
    hide H;
    HOperators(x, y, z, m);
  }

  lemma IOperators(x: Word, y: Word, z: Word, m: Word)
    ensures Masked(I(x, y, z), m) == Masked(y, m) ^ (Masked(x, m) | (Masked(z, m) ^ m))
  {
  }

  function Or(a: Word, b: Word): Word { a | b }

  lemma IMasked(x: Word, y: Word, z: Word, m: Word)
    ensures Masked(I(x, y, z), m) == Xor(Masked(y, m), Or(Masked(x, m), Xor(Masked(z, m), m)))
  {
    hide Md5Standard.I, Masked;
    IOperators(x, y, z, m);
  }

  lemma OrOfBits(m: Word)
    ensures Or(0, 0) == 0 && Or(0, m) == Or(m, 0) == Or(m, m) == m
  {
  }

  /** F chooses: where x has the bit it is y's, elsewhere z's. */
  lemma FChooses(x: Word, y: Word, z: Word, i: Word)
    requires i < 32
    ensures BitAt(F(x, y, z), i) == if BitAt(x, i) then BitAt(y, i) else BitAt(z, i)
  {
    hide OneBit, Masked, F;
    BitIs(x, i);
    FMasked(x, y, z, OneBit(i));
  }

  /** G chooses by z: where z has the bit it is x's, elsewhere y's. */
  lemma GChooses(x: Word, y: Word, z: Word, i: Word)
    requires i < 32
    ensures BitAt(G(x, y, z), i) == if BitAt(z, i) then BitAt(x, i) else BitAt(y, i)
  {
    hide OneBit, Masked, G;
    BitIs(z, i);
    GMasked(x, y, z, OneBit(i));
  }

  /** H is the parity of the three bits. */
  lemma HIsParity(x: Word, y: Word, z: Word, i: Word)
    requires i < 32
    ensures BitAt(H(x, y, z), i) == (BitAt(x, i) != (BitAt(y, i) != BitAt(z, i)))
  {
    hide OneBit, Masked, Xor, H;
    BitIs(x, i);
    BitIs(y, i);
    BitIs(z, i);
    HMasked(x, y, z, OneBit(i));
    XorOfBits(OneBit(i));
  }

  /** I turns y's bit over where x has the bit or z has not. */
  lemma ITurnsOver(x: Word, y: Word, z: Word, i: Word)
    requires i < 32
    ensures BitAt(I(x, y, z), i) == (BitAt(y, i) != (BitAt(x, i) || !BitAt(z, i)))
  {
    hide OneBit, Masked, Xor, Or, Md5Standard.I;
    BitIs(x, i);
    BitIs(y, i);
    BitIs(z, i);
    IMasked(x, y, z, OneBit(i));
    XorOfBits(OneBit(i));
    OrOfBits(OneBit(i));
  }

  /** Section 3.3: the words of the initial buffer, low-order bytes first. */
  lemma InitialBytes()
    ensures Output(INITIAL) == [0x01, 0x23, 0x45, 0x67, 0x89, 0xab, 0xcd, 0xef,
                                0xfe, 0xdc, 0xba, 0x98, 0x76, 0x54, 0x32, 0x10]
  {
  }
}
