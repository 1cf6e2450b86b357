/** The bits of a byte, counted from the left as in BaseLib/CipherDes.cpp. */
module ByteBits {
  import opened Memory

  function Value(b: bool): nat { if b then 1 else 0 }

  /** BYTEBIT: the mask of bit `m`. */
  function ByteBit(m: nat): Byte
    requires m < 8
  {
    if m == 0 then 0x80 else if m == 1 then 0x40 else if m == 2 then 0x20 else if m == 3 then 0x10
    else if m == 4 then 0x08 else if m == 5 then 0x04 else if m == 6 then 0x02 else 0x01
  }

  function Bit(b: Byte, m: nat): bool
    requires m < 8
  {
    b & ByteBit(m) != 0
  }

  /** The bits of an index below 256, and of one below 16. */
  function NumberBit(n: nat, m: nat): bool
    requires n < 256 && m < 8
  {
    Bit(n as Byte, m)
  }

  function NibbleBit(n: nat, m: nat): bool
    requires n < 16 && m < 4
  {
    NumberBit(n, m + 4)
  }

  function HighNibble(b: Byte): (n: nat)
    ensures n < 16
  {
    (b >> 4) as nat
  }

  function LowNibble(b: Byte): (n: nat)
    ensures n < 16
  {
    (b & 0x0f) as nat
  }

  /** A number below 16 as a byte. */
  function NibbleByte(n: nat): Byte
    requires n < 16
  {
    if n == 0 then 0 else if n == 1 then 1 else if n == 2 then 2 else if n == 3 then 3
    else if n == 4 then 4 else if n == 5 then 5 else if n == 6 then 6 else if n == 7 then 7
    else if n == 8 then 8 else if n == 9 then 9 else if n == 10 then 10 else if n == 11 then 11
    else if n == 12 then 12 else if n == 13 then 13 else if n == 14 then 14 else 15
  }

  /** Two nibbles in one byte. */
  function Pack(a: nat, b: nat): Byte
    requires a < 16 && b < 16
  {
    (NibbleByte(a) << 4) | (0x0f & NibbleByte(b))
  }

  lemma NibbleByteValue(n: nat)
    requires n < 16
    ensures NibbleByte(n) as nat == n && NibbleByte(n) < 16
  {
  }

  lemma PackNibbles(x: Byte, y: Byte)
    requires x < 16 && y < 16
    ensures ((x << 4) | (0x0f & y)) >> 4 == x && ((x << 4) | (0x0f & y)) & 0x0f == y
  {
  }

  lemma PackValue(a: nat, b: nat)
    requires a < 16 && b < 16
    ensures HighNibble(Pack(a, b)) == a && LowNibble(Pack(a, b)) == b
  {
    hide NibbleByte;
    NibbleByteValue(a);
    NibbleByteValue(b);
    PackNibbles(NibbleByte(a), NibbleByte(b));
  }

  function Or(a: Byte, b: Byte): Byte { a | b }

  lemma OrBit(a: Byte, b: Byte, m: nat)
    requires m < 8
    ensures Bit(Or(a, b), m) == (Bit(a, m) || Bit(b, m))
  {
  }

  lemma XorBit(a: Byte, b: Byte, m: nat)
    requires m < 8
    ensures Bit(XorByte(a, b), m) == (Bit(a, m) != Bit(b, m))
  {
  }

  lemma OneBit(m: nat, n: nat)
    requires m < 8 && n < 8
    ensures Bit(ByteBit(m), n) == (m == n)
  {
  }

  lemma ZeroBit(m: nat)
    requires m < 8
    ensures !Bit(0, m)
  {
  }

  lemma NibblesSplit(b: Byte)
    ensures b as nat == 16 * HighNibble(b) + LowNibble(b)
  {
  }

  /** A nibble is the number its bits spell. */
  lemma NibbleValues(b: Byte)
    ensures HighNibble(b) == 8 * Value(Bit(b, 0)) + 4 * Value(Bit(b, 1)) + 2 * Value(Bit(b, 2)) + Value(Bit(b, 3))
    ensures LowNibble(b) == 8 * Value(Bit(b, 4)) + 4 * Value(Bit(b, 5)) + 2 * Value(Bit(b, 6)) + Value(Bit(b, 7))
  {
  }

  lemma ByteRoundTrip(b: Byte)
    ensures (b as nat) as Byte == b
  {
  }

  lemma NibbleShift(b: Byte, m: nat)
    requires m < 4
    ensures Bit(b >> 4, m + 4) == Bit(b, m) && Bit(b & 0x0f, m + 4) == Bit(b, m + 4)
  {
  }

  /** A byte used as an index, and its two nibbles. */
  lemma ByteAsNumber(b: Byte, m: nat)
    requires m < 8
    ensures NumberBit(b as nat, m) == Bit(b, m)
    ensures m < 4 ==> NibbleBit(HighNibble(b), m) == Bit(b, m)
    ensures 4 <= m ==> NibbleBit(LowNibble(b), m - 4) == Bit(b, m)
  {
    hide Bit;
    ByteRoundTrip(b);
    ByteRoundTrip(b >> 4);
    ByteRoundTrip(b & 0x0f);
    NibbleShift(b, if m < 4 then m else m - 4);
  }

  lemma SameByte(a: Byte, b: Byte)
    requires forall m :: 0 <= m < 8 ==> Bit(a, m) == Bit(b, m)
    ensures a == b
  {
    assert Bit(a, 0) == Bit(b, 0) && Bit(a, 1) == Bit(b, 1) && Bit(a, 2) == Bit(b, 2) && Bit(a, 3) == Bit(b, 3);
    assert Bit(a, 4) == Bit(b, 4) && Bit(a, 5) == Bit(b, 5) && Bit(a, 6) == Bit(b, 6) && Bit(a, 7) == Bit(b, 7);
  }
}
