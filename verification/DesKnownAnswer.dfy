/** The algorithm of FIPS 46-3 on one of the published validation sets, number by number (NBS Special Publication
    500-20). */
module DesKnownAnswer {
  import opened ByteBits
  import opened CipherBase
  import opened DesBits
  import opened DesBoxes
  import opened DesCipher
  import opened DesRefinement
  import opened DesStandard
  import opened Memory

  // ---- blocks and keys as numbers ----

  function Four(w: bv32): (s: seq<Byte>)
    ensures |s| == 4
  {
    [((w >> 24) & 0xff) as bv8, ((w >> 16) & 0xff) as bv8, ((w >> 8) & 0xff) as bv8, (w & 0xff) as bv8]
  }

  function Six(w: bv48): (s: seq<Byte>)
    ensures |s| == 6
  {
    [((w >> 40) & 0xff) as bv8, ((w >> 32) & 0xff) as bv8, ((w >> 24) & 0xff) as bv8,
     ((w >> 16) & 0xff) as bv8, ((w >> 8) & 0xff) as bv8, (w & 0xff) as bv8]
  }

  function Seven(w: bv56): (s: seq<Byte>)
    ensures |s| == 7
  {
    [((w >> 48) & 0xff) as bv8, ((w >> 40) & 0xff) as bv8, ((w >> 32) & 0xff) as bv8, ((w >> 24) & 0xff) as bv8,
     ((w >> 16) & 0xff) as bv8, ((w >> 8) & 0xff) as bv8, (w & 0xff) as bv8]
  }

  // ---- the two selections of every round, bit by bit ----

  function Gather(b0: bool, b1: bool, b2: bool, b3: bool, b4: bool, b5: bool, b6: bool, b7: bool): Byte
  {
    (if b0 then 0x80 else 0) | (if b1 then 0x40 else 0) | (if b2 then 0x20 else 0) | (if b3 then 0x10 else 0)
    | (if b4 then 0x08 else 0) | (if b5 then 0x04 else 0) | (if b6 then 0x02 else 0) | (if b7 then 0x01 else 0)
  }

  lemma Gathered(b0: bool, b1: bool, b2: bool, b3: bool, b4: bool, b5: bool, b6: bool, b7: bool, m: nat)
    requires m < 8
    ensures Bit(Gather(b0, b1, b2, b3, b4, b5, b6, b7), m)
            == if m == 0 then b0 else if m == 1 then b1 else if m == 2 then b2 else if m == 3 then b3
               else if m == 4 then b4 else if m == 5 then b5 else if m == 6 then b6 else b7
  {
  }

  /** The permutation P. */
  function Permuted(c: seq<Byte>): (r: seq<Byte>)
    requires |c| == 4
    ensures |r| == 4
  {
    [Gather(c[1] & 0x01 != 0, c[0] & 0x02 != 0, c[2] & 0x10 != 0, c[2] & 0x08 != 0,
            c[3] & 0x08 != 0, c[1] & 0x10 != 0, c[3] & 0x10 != 0, c[2] & 0x80 != 0),
     Gather(c[0] & 0x80 != 0, c[1] & 0x02 != 0, c[2] & 0x02 != 0, c[3] & 0x40 != 0,
            c[0] & 0x08 != 0, c[2] & 0x40 != 0, c[3] & 0x02 != 0, c[1] & 0x40 != 0),
     Gather(c[0] & 0x40 != 0, c[0] & 0x01 != 0, c[2] & 0x01 != 0, c[1] & 0x04 != 0,
            c[3] & 0x01 != 0, c[3] & 0x20 != 0, c[0] & 0x20 != 0, c[1] & 0x80 != 0),
     Gather(c[2] & 0x20 != 0, c[1] & 0x08 != 0, c[3] & 0x04 != 0, c[0] & 0x04 != 0,
            c[2] & 0x04 != 0, c[1] & 0x20 != 0, c[0] & 0x10 != 0, c[3] & 0x80 != 0)]
  }

  /** Permuted choice 2. */
  function Chosen(c: seq<Byte>): (r: seq<Byte>)
    requires |c| == 7
    ensures |r| == 6
  {
    [Gather(c[1] & 0x04 != 0, c[2] & 0x80 != 0, c[1] & 0x20 != 0, c[2] & 0x01 != 0,
            c[0] & 0x80 != 0, c[0] & 0x08 != 0, c[0] & 0x20 != 0, c[3] & 0x10 != 0),
     Gather(c[1] & 0x02 != 0, c[0] & 0x04 != 0, c[2] & 0x08 != 0, c[1] & 0x40 != 0,
            c[2] & 0x02 != 0, c[2] & 0x20 != 0, c[1] & 0x10 != 0, c[0] & 0x10 != 0),
     Gather(c[3] & 0x40 != 0, c[0] & 0x01 != 0, c[1] & 0x01 != 0, c[0] & 0x02 != 0,
            c[3] & 0x20 != 0, c[2] & 0x10 != 0, c[1] & 0x08 != 0, c[0] & 0x40 != 0),
     Gather(c[5] & 0x80 != 0, c[6] & 0x10 != 0, c[3] & 0x02 != 0, c[4] & 0x08 != 0,
            c[5] & 0x02 != 0, c[6] & 0x02 != 0, c[3] & 0x04 != 0, c[4] & 0x01 != 0),
     Gather(c[6] & 0x20 != 0, c[5] & 0x08 != 0, c[4] & 0x80 != 0, c[5] & 0x01 != 0,
            c[5] & 0x10 != 0, c[6] & 0x80 != 0, c[4] & 0x02 != 0, c[6] & 0x01 != 0),
     Gather(c[4] & 0x40 != 0, c[6] & 0x08 != 0, c[5] & 0x04 != 0, c[5] & 0x40 != 0,
            c[6] & 0x40 != 0, c[4] & 0x10 != 0, c[3] & 0x08 != 0, c[3] & 0x01 != 0)]
  }

  lemma Masks(b: Byte)
    ensures Bit(b, 0) == (b & 0x80 != 0) && Bit(b, 1) == (b & 0x40 != 0) && Bit(b, 2) == (b & 0x20 != 0)
    ensures Bit(b, 3) == (b & 0x10 != 0) && Bit(b, 4) == (b & 0x08 != 0) && Bit(b, 5) == (b & 0x04 != 0)
    ensures Bit(b, 6) == (b & 0x02 != 0) && Bit(b, 7) == (b & 0x01 != 0)
  {
  }

  lemma PermutedByte0(c: seq<Byte>, m: nat)
    requires |c| == 4 && m < 8
    ensures var q := Permutation()[m] - 1; Bit(Permuted(c)[0], m) == Bit(c[q / 8], q % 8)
  {
    hide Gather, Bit;
    Masks(c[0]);
    Masks(c[1]);
    Masks(c[2]);
    Masks(c[3]);
    Gathered(c[1] & 0x01 != 0, c[0] & 0x02 != 0, c[2] & 0x10 != 0, c[2] & 0x08 != 0,
             c[3] & 0x08 != 0, c[1] & 0x10 != 0, c[3] & 0x10 != 0, c[2] & 0x80 != 0, m);
  }

  lemma PermutedByte1(c: seq<Byte>, m: nat)
    requires |c| == 4 && m < 8
    ensures var q := Permutation()[8 + m] - 1; Bit(Permuted(c)[1], m) == Bit(c[q / 8], q % 8)
  {
    hide Gather, Bit;
    Masks(c[0]);
    Masks(c[1]);
    Masks(c[2]);
    Masks(c[3]);
    Gathered(c[0] & 0x80 != 0, c[1] & 0x02 != 0, c[2] & 0x02 != 0, c[3] & 0x40 != 0,
             c[0] & 0x08 != 0, c[2] & 0x40 != 0, c[3] & 0x02 != 0, c[1] & 0x40 != 0, m);
  }

  lemma PermutedByte2(c: seq<Byte>, m: nat)
    requires |c| == 4 && m < 8
    ensures var q := Permutation()[16 + m] - 1; Bit(Permuted(c)[2], m) == Bit(c[q / 8], q % 8)
  {
    hide Gather, Bit;
    Masks(c[0]);
    Masks(c[1]);
    Masks(c[2]);
    Masks(c[3]);
    Gathered(c[0] & 0x40 != 0, c[0] & 0x01 != 0, c[2] & 0x01 != 0, c[1] & 0x04 != 0,
             c[3] & 0x01 != 0, c[3] & 0x20 != 0, c[0] & 0x20 != 0, c[1] & 0x80 != 0, m);
  }

  /** The byte and the bit that the last eight places of P take. */
  lemma LastOfP(m: nat)
    requires m < 8
    ensures var q := Permutation()[24 + m] - 1;
            && q / 8 == (if m == 0 then 2 else if m == 1 then 1 else if m == 2 then 3 else if m == 3 then 0
                         else if m == 4 then 2 else if m == 5 then 1 else if m == 6 then 0 else 3)
            && q % 8 == (if m == 0 then 2 else if m == 1 then 4 else if m == 2 || m == 3 || m == 4 then 5
                         else if m == 5 then 2 else if m == 6 then 3 else 0)
  {
  }

  lemma PermutedByte3(c: seq<Byte>, m: nat)
    requires |c| == 4 && m < 8
    ensures var q := Permutation()[24 + m] - 1; Bit(Permuted(c)[3], m) == Bit(c[q / 8], q % 8)
  {
    LastOfP(m);
    hide Gather, Permutation, Bit;
    Masks(c[0]);
    Masks(c[1]);
    Masks(c[2]);
    Masks(c[3]);
    Gathered(c[2] & 0x20 != 0, c[1] & 0x08 != 0, c[3] & 0x04 != 0, c[0] & 0x04 != 0,
             c[2] & 0x04 != 0, c[1] & 0x20 != 0, c[0] & 0x10 != 0, c[3] & 0x80 != 0, m);
  }

  lemma ChosenByte0(c: seq<Byte>, m: nat)
    requires |c| == 7 && m < 8
    ensures var q := Choice2()[m] - 1; Bit(Chosen(c)[0], m) == Bit(c[q / 8], q % 8)
  {
    hide Gather, Bit;
    Masks(c[0]);
    Masks(c[1]);
    Masks(c[2]);
    Masks(c[3]);
    Gathered(c[1] & 0x04 != 0, c[2] & 0x80 != 0, c[1] & 0x20 != 0, c[2] & 0x01 != 0,
             c[0] & 0x80 != 0, c[0] & 0x08 != 0, c[0] & 0x20 != 0, c[3] & 0x10 != 0, m);
  }

  lemma ChosenByte1(c: seq<Byte>, m: nat)
    requires |c| == 7 && m < 8
    ensures var q := Choice2()[8 + m] - 1; Bit(Chosen(c)[1], m) == Bit(c[q / 8], q % 8)
  {
    hide Gather, Bit;
    Masks(c[0]);
    Masks(c[1]);
    Masks(c[2]);
    Gathered(c[1] & 0x02 != 0, c[0] & 0x04 != 0, c[2] & 0x08 != 0, c[1] & 0x40 != 0,
             c[2] & 0x02 != 0, c[2] & 0x20 != 0, c[1] & 0x10 != 0, c[0] & 0x10 != 0, m);
  }

  lemma ChosenByte2(c: seq<Byte>, m: nat)
    requires |c| == 7 && m < 8
    ensures var q := Choice2()[16 + m] - 1; Bit(Chosen(c)[2], m) == Bit(c[q / 8], q % 8)
  {
    hide Gather, Bit;
    Masks(c[0]);
    Masks(c[1]);
    Masks(c[2]);
    Masks(c[3]);
    Gathered(c[3] & 0x40 != 0, c[0] & 0x01 != 0, c[1] & 0x01 != 0, c[0] & 0x02 != 0,
             c[3] & 0x20 != 0, c[2] & 0x10 != 0, c[1] & 0x08 != 0, c[0] & 0x40 != 0, m);
  }

  lemma ChosenByte3(c: seq<Byte>, m: nat)
    requires |c| == 7 && m < 8
    ensures var q := Choice2()[24 + m] - 1; Bit(Chosen(c)[3], m) == Bit(c[q / 8], q % 8)
  {
    hide Gather, Bit;
    Masks(c[3]);
    Masks(c[4]);
    Masks(c[5]);
    Masks(c[6]);
    Gathered(c[5] & 0x80 != 0, c[6] & 0x10 != 0, c[3] & 0x02 != 0, c[4] & 0x08 != 0,
             c[5] & 0x02 != 0, c[6] & 0x02 != 0, c[3] & 0x04 != 0, c[4] & 0x01 != 0, m);
  }

  lemma ChosenByte4(c: seq<Byte>, m: nat)
    requires |c| == 7 && m < 8
    ensures var q := Choice2()[32 + m] - 1; Bit(Chosen(c)[4], m) == Bit(c[q / 8], q % 8)
  {
    hide Gather, Bit;
    Masks(c[4]);
    Masks(c[5]);
    Masks(c[6]);
    Gathered(c[6] & 0x20 != 0, c[5] & 0x08 != 0, c[4] & 0x80 != 0, c[5] & 0x01 != 0,
             c[5] & 0x10 != 0, c[6] & 0x80 != 0, c[4] & 0x02 != 0, c[6] & 0x01 != 0, m);
  }

  lemma ChosenByte5(c: seq<Byte>, m: nat)
    requires |c| == 7 && m < 8
    ensures var q := Choice2()[40 + m] - 1; Bit(Chosen(c)[5], m) == Bit(c[q / 8], q % 8)
  {
    hide Gather, Bit;
    Masks(c[3]);
    Masks(c[4]);
    Masks(c[5]);
    Masks(c[6]);
    Gathered(c[4] & 0x40 != 0, c[6] & 0x08 != 0, c[5] & 0x04 != 0, c[5] & 0x40 != 0,
             c[6] & 0x40 != 0, c[4] & 0x10 != 0, c[3] & 0x08 != 0, c[3] & 0x01 != 0, m);
  }

  lemma PermutedAt(c: seq<Byte>, k: nat)
    requires |c| == 4 && k < 32
    ensures var q := Permutation()[k] - 1; Bit(Permuted(c)[k / 8], k % 8) == Bit(c[q / 8], q % 8)
  {
    hide Permuted, Permutation, Bit;
    if k < 8 { PermutedByte0(c, k); } else if k < 16 { PermutedByte1(c, k - 8); }
    else if k < 24 { PermutedByte2(c, k - 16); } else { PermutedByte3(c, k - 24); }
  }

  lemma PermutedIs(c: seq<Byte>)
    requires |c| == 4
    ensures BitsOf(Permuted(c)) == Select(Permutation(), BitsOf(c))
  {
    hide Permuted, Permutation, Bit;
    forall k | 0 <= k < 32
      ensures BitsOf(Permuted(c))[k] == Select(Permutation(), BitsOf(c))[k]
    {
      PermutedAt(c, k);
    }
  }

  lemma ChosenAt(c: seq<Byte>, k: nat)
    requires |c| == 7 && k < 48
    ensures var q := Choice2()[k] - 1; Bit(Chosen(c)[k / 8], k % 8) == Bit(c[q / 8], q % 8)
  {
    hide Chosen, Choice2, Bit;
    if k < 8 { ChosenByte0(c, k); } else if k < 16 { ChosenByte1(c, k - 8); }
    else if k < 24 { ChosenByte2(c, k - 16); } else if k < 32 { ChosenByte3(c, k - 24); }
    else if k < 40 { ChosenByte4(c, k - 32); } else { ChosenByte5(c, k - 40); }
  }

  lemma ChosenIs(c: seq<Byte>)
    requires |c| == 7
    ensures BitsOf(Chosen(c)) == Select(Choice2(), BitsOf(c))
  {
    hide Chosen, Choice2, Bit;
    forall k | 0 <= k < 48
      ensures BitsOf(Chosen(c))[k] == Select(Choice2(), BitsOf(c))[k]
    {
      ChosenAt(c, k);
    }
  }

  // ---- the key schedule ----

  function Joined(a: Byte, b: Byte): Byte { (a << 1) | (b >> 7) }

  function JoinedTwice(a: Byte, b: Byte, c: Byte): Byte { ((b << 1) & 0xee) | ((a >> 3) & 0x10) | (c >> 7) }

  function JoinedBack(a: Byte, b: Byte): Byte { (b << 1) | ((a >> 3) & 0x01) }

  /** Both halves of 28 bits shifted left by one, in a circle. */
  function Turned(s: seq<Byte>): (r: seq<Byte>)
    requires |s| == 7
    ensures |r| == 7
  {
    [Joined(s[0], s[1]), Joined(s[1], s[2]), Joined(s[2], s[3]), JoinedTwice(s[0], s[3], s[4]),
     Joined(s[4], s[5]), Joined(s[5], s[6]), JoinedBack(s[3], s[6])]
  }

  lemma JoinedBits(a: Byte, b: Byte, m: nat)
    requires m < 8
    ensures Bit(Joined(a, b), m) == if m < 7 then Bit(a, m + 1) else Bit(b, 0)
  {
  }

  lemma JoinedTwiceBits(a: Byte, b: Byte, c: Byte, m: nat)
    requires m < 8
    ensures Bit(JoinedTwice(a, b, c), m) == if m == 3 then Bit(a, 0) else if m == 7 then Bit(c, 0) else Bit(b, m + 1)
  {
  }

  lemma JoinedBackBits(a: Byte, b: Byte, m: nat)
    requires m < 8
    ensures Bit(JoinedBack(a, b), m) == if m == 7 then Bit(a, 4) else Bit(b, m + 1)
  {
  }

  lemma TurnedAt(s: seq<Byte>, k: nat)
    requires |s| == 7 && k < 56
    ensures var l := if k == 27 then 0 else if k == 55 then 28 else k + 1;
            Bit(Turned(s)[k / 8], k % 8) == Bit(s[l / 8], l % 8)
  {
    hide Bit, Joined, JoinedTwice, JoinedBack;
    var b, m := k / 8, k % 8;
    if b == 3 {
      JoinedTwiceBits(s[0], s[3], s[4], m);
    } else if b == 6 {
      JoinedBackBits(s[3], s[6], m);
    } else {
      JoinedBits(s[b], s[b + 1], m);
    }
  }

  lemma TurnedIs(s: seq<Byte>)
    requires |s| == 7
    ensures BitsOf(Turned(s)) == ShiftLeft(BitsOf(s)[..28], 1) + ShiftLeft(BitsOf(s)[28..], 1)
  {
    hide Turned, Bit;
    forall k | 0 <= k < 56
      ensures BitsOf(Turned(s))[k] == (ShiftLeft(BitsOf(s)[..28], 1) + ShiftLeft(BitsOf(s)[28..], 1))[k]
    {
      TurnedAt(s, k);
    }
  }

  // ---- the selection functions ----

  /** The entry of selection function `k` for the six bits of `v`. */
  function Looked(k: nat, v: Byte): (d: bv64)
    requires k < 8
    ensures d < 16
  {
    var s: bv8 := (15 - ((v >> 1) & 15)) << 2;
    (HexRow(k, (if v & 32 != 0 then 2 else 0) + (if v & 1 != 0 then 1 else 0)) >> s) & 15
  }

  function ShiftTo(c: nat): bv8
    requires c < 16
  {
    if c == 0 then 60 else if c == 1 then 56 else if c == 2 then 52 else if c == 3 then 48
    else if c == 4 then 44 else if c == 5 then 40 else if c == 6 then 36 else if c == 7 then 32
    else if c == 8 then 28 else if c == 9 then 24 else if c == 10 then 20 else if c == 11 then 16
    else if c == 12 then 12 else if c == 13 then 8 else if c == 14 then 4 else 0
  }

  lemma ShiftIs(v: Byte, c: nat)
    requires v < 64
    requires c == 8 * Value(v & 16 != 0) + 4 * Value(v & 8 != 0) + 2 * Value(v & 4 != 0) + Value(v & 2 != 0)
    ensures (15 - ((v >> 1) & 15)) << 2 == ShiftTo(c)
  {
  }

  function Shifted(w: bv64, s: bv8): bv64
    requires s < 64
  {
    (w >> s) & 15
  }

  lemma FirstShifts(w: bv64)
    ensures Shifted(w, 60) == Digit(w, 0) && Shifted(w, 56) == Digit(w, 1)
    ensures Shifted(w, 52) == Digit(w, 2) && Shifted(w, 48) == Digit(w, 3)
    ensures Shifted(w, 44) == Digit(w, 4) && Shifted(w, 40) == Digit(w, 5)
    ensures Shifted(w, 36) == Digit(w, 6) && Shifted(w, 32) == Digit(w, 7)
  {
  }

  lemma LastShifts(w: bv64)
    ensures Shifted(w, 28) == Digit(w, 8) && Shifted(w, 24) == Digit(w, 9)
    ensures Shifted(w, 20) == Digit(w, 10) && Shifted(w, 16) == Digit(w, 11)
    ensures Shifted(w, 12) == Digit(w, 12) && Shifted(w, 8) == Digit(w, 13)
    ensures Shifted(w, 4) == Digit(w, 14) && Shifted(w, 0) == Digit(w, 15)
  {
  }

  lemma DigitAt(w: bv64, c: nat)
    requires c < 16
    ensures ShiftTo(c) < 64 && Shifted(w, ShiftTo(c)) == Digit(w, c)
  {
    hide Shifted, Digit;
    FirstShifts(w);
    LastShifts(w);
  }

  lemma ShiftedDigit(w: bv64, v: Byte, c: nat)
    requires v < 64
    requires c == 8 * Value(v & 16 != 0) + 4 * Value(v & 8 != 0) + 2 * Value(v & 4 != 0) + Value(v & 2 != 0)
    ensures (w >> ((15 - ((v >> 1) & 15)) << 2)) & 15 == Digit(w, c)
  {
    hide ShiftTo, Digit;
    ShiftIs(v, c);
    DigitAt(w, c);
    assert Shifted(w, ShiftTo(c)) == (w >> ShiftTo(c)) & 15;
  }

  function SixBits(v: Byte): Bits
  {
    [v & 32 != 0, v & 16 != 0, v & 8 != 0, v & 4 != 0, v & 2 != 0, v & 1 != 0]
  }

  lemma LookedIs(k: nat, v: Byte)
    requires k < 8 && v < 64
    ensures BoxEntry(k, SixBits(v)) == Looked(k, v) as int
  {
    hide HexRow, Digit, BoxEntry, BoxAt;
    var b := SixBits(v);
    EntryOf(k, b);
    EntryIs(k, RowOf(b), ColumnOf(b));
    ShiftedDigit(HexRow(k, RowOf(b)), v, ColumnOf(b));
  }

  /** Group `j` of six bits among the 24 of three bytes. */
  function Group(a: Byte, b: Byte, c: Byte, j: nat): (v: Byte)
    requires j < 4
    ensures v < 64
  {
    if j == 0 then a >> 2 else if j == 1 then ((a & 3) << 4) | (b >> 4)
    else if j == 2 then ((b & 15) << 2) | (c >> 6) else c & 63
  }

  lemma OuterGroups(a: Byte, b: Byte, c: Byte)
    ensures SixBits(Group(a, b, c, 0)) == [Bit(a, 0), Bit(a, 1), Bit(a, 2), Bit(a, 3), Bit(a, 4), Bit(a, 5)]
    ensures SixBits(Group(a, b, c, 3)) == [Bit(c, 2), Bit(c, 3), Bit(c, 4), Bit(c, 5), Bit(c, 6), Bit(c, 7)]
  {
  }

  lemma InnerGroups(a: Byte, b: Byte, c: Byte)
    ensures SixBits(Group(a, b, c, 1)) == [Bit(a, 6), Bit(a, 7), Bit(b, 0), Bit(b, 1), Bit(b, 2), Bit(b, 3)]
    ensures SixBits(Group(a, b, c, 2)) == [Bit(b, 4), Bit(b, 5), Bit(b, 6), Bit(b, 7), Bit(c, 0), Bit(c, 1)]
  {
  }

  function GroupOf(s: seq<Byte>, k: nat): (v: Byte)
    requires |s| == 6 && k < 8
    ensures v < 64
  {
    if k < 4 then Group(s[0], s[1], s[2], k) else Group(s[3], s[4], s[5], k - 4)
  }

  lemma EightAt(s: seq<Byte>, i: nat)
    requires i < |s|
    ensures var x, b := BitsOf(s), s[i];
            && x[8 * i] == Bit(b, 0) && x[8 * i + 1] == Bit(b, 1) && x[8 * i + 2] == Bit(b, 2)
            && x[8 * i + 3] == Bit(b, 3) && x[8 * i + 4] == Bit(b, 4) && x[8 * i + 5] == Bit(b, 5)
            && x[8 * i + 6] == Bit(b, 6) && x[8 * i + 7] == Bit(b, 7)
  {
    hide Bit;
  }

  lemma SixSlice(x: Bits, at: nat)
    requires at + 6 <= |x|
    ensures x[at..at + 6] == [x[at], x[at + 1], x[at + 2], x[at + 3], x[at + 4], x[at + 5]]
  {
  }

  lemma FourSlice(x: Bits, at: nat)
    requires at + 4 <= |x|
    ensures x[at..at + 4] == [x[at], x[at + 1], x[at + 2], x[at + 3]]
  {
  }

  lemma FirstGroups(s: seq<Byte>)
    requires |s| == 6
    ensures var x := BitsOf(s);
            && x[0..6] == SixBits(GroupOf(s, 0)) && x[6..12] == SixBits(GroupOf(s, 1))
            && x[12..18] == SixBits(GroupOf(s, 2)) && x[18..24] == SixBits(GroupOf(s, 3))
  {
    hide Bit, Group, SixBits, BitsOf;
    var x := BitsOf(s);
    EightAt(s, 0);
    EightAt(s, 1);
    EightAt(s, 2);
    SixSlice(x, 0);
    SixSlice(x, 6);
    SixSlice(x, 12);
    SixSlice(x, 18);
    OuterGroups(s[0], s[1], s[2]);
    InnerGroups(s[0], s[1], s[2]);
  }

  lemma LastGroups(s: seq<Byte>)
    requires |s| == 6
    ensures var x := BitsOf(s);
            && x[24..30] == SixBits(GroupOf(s, 4)) && x[30..36] == SixBits(GroupOf(s, 5))
            && x[36..42] == SixBits(GroupOf(s, 6)) && x[42..48] == SixBits(GroupOf(s, 7))
  {
    hide Bit, Group, SixBits, BitsOf;
    var x := BitsOf(s);
    EightAt(s, 3);
    EightAt(s, 4);
    EightAt(s, 5);
    SixSlice(x, 24);
    SixSlice(x, 30);
    SixSlice(x, 36);
    SixSlice(x, 42);
    OuterGroups(s[3], s[4], s[5]);
    InnerGroups(s[3], s[4], s[5]);
  }

  lemma GroupAt(s: seq<Byte>, k: nat)
    requires |s| == 6 && k < 8
    ensures BitsOf(s)[6 * k..6 * k + 6] == SixBits(GroupOf(s, k))
  {
    hide BitsOf, GroupOf, SixBits;
    FirstGroups(s);
    LastGroups(s);
  }

  function NibbleWord(b: Byte, high: bool): (d: bv64)
    ensures d < 16
  {
    (if high then b >> 4 else b & 15) as bv64
  }

  lemma NibbleWordBits(b: Byte)
    ensures FourBits(NibbleWord(b, true) as int) == [Bit(b, 0), Bit(b, 1), Bit(b, 2), Bit(b, 3)]
    ensures FourBits(NibbleWord(b, false) as int) == [Bit(b, 4), Bit(b, 5), Bit(b, 6), Bit(b, 7)]
  {
    hide FourBits;
    DigitBits(NibbleWord(b, true));
    DigitBits(NibbleWord(b, false));
  }

  lemma NibblesOf(c: seq<Byte>, i: nat)
    requires |c| == 4 && i < 4
    ensures var x := BitsOf(c);
            && x[8 * i..8 * i + 4] == FourBits(NibbleWord(c[i], true) as int)
            && x[8 * i + 4..8 * i + 8] == FourBits(NibbleWord(c[i], false) as int)
  {
    hide Bit, NibbleWord, FourBits, BitsOf;
    EightAt(c, i);
    FourSlice(BitsOf(c), 8 * i);
    FourSlice(BitsOf(c), 8 * i + 4);
    NibbleWordBits(c[i]);
  }

  lemma NibbleAt(c: seq<Byte>, k: nat)
    requires |c| == 4 && k < 8
    ensures BitsOf(c)[4 * k..4 * k + 4] == FourBits(NibbleWord(c[k / 2], k % 2 == 0) as int)
  {
    hide BitsOf, NibbleWord, FourBits;
    NibblesOf(c, k / 2);
  }

  /** The selection functions take six bytes to four. */
  predicate SubTo(s0: Byte, s1: Byte, s2: Byte, s3: Byte, s4: Byte, s5: Byte, c0: Byte, c1: Byte, c2: Byte, c3: Byte)
  {
    && Looked(0, s0 >> 2) == (c0 >> 4) as bv64 && Looked(1, ((s0 & 3) << 4) | (s1 >> 4)) == (c0 & 15) as bv64
    && Looked(2, ((s1 & 15) << 2) | (s2 >> 6)) == (c1 >> 4) as bv64 && Looked(3, s2 & 63) == (c1 & 15) as bv64
    && Looked(4, s3 >> 2) == (c2 >> 4) as bv64 && Looked(5, ((s3 & 3) << 4) | (s4 >> 4)) == (c2 & 15) as bv64
    && Looked(6, ((s4 & 15) << 2) | (s5 >> 6)) == (c3 >> 4) as bv64 && Looked(7, s5 & 63) == (c3 & 15) as bv64
  }

  predicate Substituted(s: seq<Byte>, c: seq<Byte>)
    requires |s| == 6 && |c| == 4
  {
    SubTo(s[0], s[1], s[2], s[3], s[4], s[5], c[0], c[1], c[2], c[3])
  }

  lemma LookedAt(s: seq<Byte>, c: seq<Byte>, k: nat)
    requires |s| == 6 && |c| == 4 && k < 8 && Substituted(s, c)
    ensures Looked(k, GroupOf(s, k)) == NibbleWord(c[k / 2], k % 2 == 0)
  {
    hide Looked;
  }

  lemma SubAt(s: seq<Byte>, c: seq<Byte>, k: nat)
    requires |s| == 6 && |c| == 4 && k < 8 && Substituted(s, c)
    ensures BitsOf(c)[4 * k..4 * k + 4] == FourBits(BoxEntry(k, BitsOf(s)[6 * k..6 * k + 6]))
  {
    hide BoxEntry, FourBits, BitsOf, Looked, NibbleWord, GroupOf, SixBits, Substituted;
    LookedAt(s, c, k);
    GroupAt(s, k);
    NibbleAt(c, k);
    LookedIs(k, GroupOf(s, k));
  }

  lemma {:induction false} SubUpto(s: seq<Byte>, c: seq<Byte>, n: nat)
    requires |s| == 6 && |c| == 4 && n <= 8 && Substituted(s, c)
    ensures BitsOf(c)[..4 * n] == Boxes(BitsOf(s), n)
  {
    hide BoxEntry, FourBits, BitsOf, Substituted;
    if n > 0 {
      SubUpto(s, c, n - 1);
      SubAt(s, c, n - 1);
      var x := BitsOf(c);
      assert x[..4 * n] == x[..4 * (n - 1)] + x[4 * (n - 1)..4 * (n - 1) + 4];
    }
  }

  // ---- one validation set ----

  const KEY: seq<Byte> := [0x07, 0xa7, 0x13, 0x70, 0x45, 0xda, 0x2a, 0x16]
  const PLAIN: seq<Byte> := [0x3b, 0xdd, 0x11, 0x90, 0x49, 0x37, 0x28, 0x02]
  const CIPHER: seq<Byte> := [0xdf, 0xd6, 0x4a, 0x81, 0x5c, 0xaf, 0x1a, 0x0f]

  /** `w` holds the two halves of the key after `i` iterations. */
  predicate Halves(i: nat, w: bv56)
    requires i <= 16
  {
    var cd := Select(Choice1(), BitsOf(KEY));
    HalfAfter(cd[..28], i) + HalfAfter(cd[28..], i) == BitsOf(Seven(w))
  }

  predicate KeyIs(i: nat, k: bv48)
    requires 1 <= i <= 16
  {
    RoundKey(BitsOf(KEY), i) == BitsOf(Six(k))
  }

  lemma HalvesOf(i: nat, w: bv56)
    requires i <= 16 && Halves(i, w)
    ensures var cd := Select(Choice1(), BitsOf(KEY));
            BitsOf(Seven(w))[..28] == HalfAfter(cd[..28], i) && BitsOf(Seven(w))[28..] == HalfAfter(cd[28..], i)
  {
    hide HalfAfter, Select, Choice1, BitsOf, Seven;
  }

  lemma ShiftedTwice(h: Bits)
    requires |h| == 28
    ensures ShiftLeft(ShiftLeft(h, 1), 1) == ShiftLeft(h, 2)
  {
  }

  function TurnedBy(s: seq<Byte>, n: nat): (r: seq<Byte>)
    requires |s| == 7
    ensures |r| == 7
  {
    if n == 1 then Turned(s) else Turned(Turned(s))
  }

  lemma TurnedByIs(s: seq<Byte>, n: nat)
    requires |s| == 7 && 1 <= n <= 2
    ensures BitsOf(TurnedBy(s, n)) == ShiftLeft(BitsOf(s)[..28], n) + ShiftLeft(BitsOf(s)[28..], n)
  {
    hide BitsOf, Turned, ShiftLeft;
    TurnedIs(s);
    if n == 2 {
      TurnedIs(Turned(s));
      var x := BitsOf(Turned(s));
      assert x[..28] == ShiftLeft(BitsOf(s)[..28], 1) && x[28..] == ShiftLeft(BitsOf(s)[28..], 1);
      ShiftedTwice(BitsOf(s)[..28]);
      ShiftedTwice(BitsOf(s)[28..]);
    }
  }

  /** Iteration `i` of the key schedule, with `n` shifts, leads from `w` to `v` and selects `k`. */
  lemma KeyTo(i: nat, w: bv56, n: nat, v: bv56, k: bv48)
    requires i < 16 && Halves(i, w) && n == SHIFTS[i]
    requires TurnedBy(Seven(w), n) == Seven(v) && Chosen(Seven(v)) == Six(k)
    ensures Halves(i + 1, v) && KeyIs(i + 1, k)
  {
    hide BitsOf, TurnedBy, Chosen, Seven, Six, Select, Choice1, Choice2, ShiftLeft;
    ShiftsSmall(i);
    HalvesOf(i, w);
    TurnedByIs(Seven(w), n);
    ChosenIs(Seven(v));
  }

  lemma ShiftsSmall(i: nat)
    requires i < 16
    ensures 1 <= SHIFTS[i] <= 2
  {
  }

  function Mixed(e: seq<Byte>, k: seq<Byte>): (r: seq<Byte>)
    requires |e| == |k| == 6
    ensures |r| == 6
  {
    [XorByte(e[0], k[0]), XorByte(e[1], k[1]), XorByte(e[2], k[2]),
     XorByte(e[3], k[3]), XorByte(e[4], k[4]), XorByte(e[5], k[5])]
  }

  function Added(l: seq<Byte>, f: seq<Byte>): (r: seq<Byte>)
    requires |l| == |f| == 4
    ensures |r| == 4
  {
    [XorByte(l[0], f[0]), XorByte(l[1], f[1]), XorByte(l[2], f[2]), XorByte(l[3], f[3])]
  }

  /** The block after `i` iterations. */
  predicate Reached(i: nat, l: bv32, r: bv32)
    requires i <= 16
  {
    Iterations(Schedule(BitsOf(KEY)), i, Select(InitialPermutation(), BitsOf(PLAIN))) == BitsOf(Four(l) + Four(r))
  }

  lemma MixedIs(e: seq<Byte>, k: seq<Byte>)
    requires |e| == |k| == 6
    ensures BitsOf(Mixed(e, k)) == Xor(BitsOf(e), BitsOf(k))
  {
    hide BitsOf, Xor, XorByte;
    BitsOfXor(e, k, Mixed(e, k));
  }

  lemma AddedIs(l: seq<Byte>, f: seq<Byte>)
    requires |l| == |f| == 4
    ensures BitsOf(Added(l, f)) == Xor(BitsOf(l), BitsOf(f))
  {
    hide BitsOf, Xor, XorByte;
    BitsOfXor(l, f, Added(l, f));
  }

  lemma BoxesAre(s: seq<Byte>, c: seq<Byte>)
    requires |s| == 6 && |c| == 4 && Substituted(s, c)
    ensures Boxes(BitsOf(s), 8) == BitsOf(c)
  {
    hide BitsOf, Boxes, Substituted;
    SubUpto(s, c, 8);
    assert BitsOf(c)[..32] == BitsOf(c);
  }

  lemma FunctionOf(r: Bits, key: Bits, m: Bits)
    requires |r| == 32 && |key| == 48 && m == Xor(Select(Expansion(), r), key)
    ensures CipherFunction(r, key) == Select(Permutation(), Boxes(m, 8))
  {
    hide Select, Expansion, Xor, Boxes, Permutation, InRange;
  }

  lemma FunctionIs(r: seq<Byte>, k: seq<Byte>, c: seq<Byte>)
    requires |r| == 4 && |k| == 6 && |c| == 4 && Substituted(Mixed(Expand(r), k), c)
    ensures CipherFunction(BitsOf(r), BitsOf(k)) == BitsOf(Permuted(c))
  {
    hide BitsOf, Substituted, Expand, Expansion, Permutation, Permuted, Boxes, Select, Xor, Mixed;
    hide CipherFunction, InRange;
    var e := Expand(r);
    ExpandIsExpansion(r);
    MixedIs(e, k);
    BoxesAre(Mixed(e, k), c);
    PermutedIs(c);
    FunctionOf(BitsOf(r), BitsOf(k), BitsOf(Mixed(e, k)));
  }

  lemma IterateHalves(l: seq<Byte>, r: seq<Byte>, key: Bits, f: seq<Byte>)
    requires |l| == |r| == |f| == 4 && |key| == 48 && CipherFunction(BitsOf(r), key) == BitsOf(f)
    ensures Iterate(BitsOf(l + r), key) == BitsOf(r + Added(l, f))
  {
    hide BitsOf, CipherFunction, Xor, Added;
    BitsOfConcat(l, r);
    BitsOfConcat(r, Added(l, f));
    AddedIs(l, f);
    var x := BitsOf(l + r);
    assert x[..32] == BitsOf(l) && x[32..] == BitsOf(r);
  }

  predicate SubWords(e: bv48, c: bv32)
  {
    SubTo(((e >> 40) & 0xff) as bv8, ((e >> 32) & 0xff) as bv8, ((e >> 24) & 0xff) as bv8,
          ((e >> 16) & 0xff) as bv8, ((e >> 8) & 0xff) as bv8, (e & 0xff) as bv8,
          ((c >> 24) & 0xff) as bv8, ((c >> 16) & 0xff) as bv8, ((c >> 8) & 0xff) as bv8, (c & 0xff) as bv8)
  }

  lemma SubWordsAre(e: bv48, c: bv32)
    requires SubWords(e, c)
    ensures Substituted(Six(e), Four(c))
  {
    hide SubTo;
  }

  lemma IterationsNext(key: Bits, i: nat, x: Bits)
    requires |key| == |x| == 64 && i < 16
    ensures Iterations(Schedule(key), i + 1, x) == Iterate(Iterations(Schedule(key), i, x), RoundKey(key, i + 1))
  {
    hide RoundKey, Iterate;
  }

  /** Iteration `i` with key `k`: the expansion joined with the key is `e`, the selection functions
      give `c`, and the new right half is `q`. */
  lemma RoundTo(i: nat, l: bv32, r: bv32, k: bv48, e: bv48, c: bv32, q: bv32)
    requires i < 16 && Reached(i, l, r) && KeyIs(i + 1, k)
    requires Mixed(Expand(Four(r)), Six(k)) == Six(e) && SubWords(e, c)
    requires Added(Four(l), Permuted(Four(c))) == Four(q)
    ensures Reached(i + 1, r, q)
  {
    hide BitsOf, SubWords, Substituted, Expand, Permuted, Four, Six, Mixed, Added, Select, InitialPermutation, InRange;
    hide CipherFunction, Xor, RoundKey, Iterate, Iterations, Schedule;
    SubWordsAre(e, c);
    FunctionIs(Four(r), Six(k), Four(c));
    IterateHalves(Four(l), Four(r), BitsOf(Six(k)), Permuted(Four(c)));
    IterationsNext(BitsOf(KEY), i, Select(InitialPermutation(), BitsOf(PLAIN)));
  }

  // ---- the key ----

  lemma KeyByte0(m: nat)
    requires m < 8
    ensures var q := Choice1()[m] - 1; Bit(KEY[q / 8], q % 8) == Bit(0x22, m)
  {
  }

  lemma KeyByte1(m: nat)
    requires m < 8
    ensures var q := Choice1()[8 + m] - 1; Bit(KEY[q / 8], q % 8) == Bit(0x38, m)
  {
  }

  lemma KeyByte2(m: nat)
    requires m < 8
    ensures var q := Choice1()[16 + m] - 1; Bit(KEY[q / 8], q % 8) == Bit(0x4a, m)
  {
  }

  lemma KeyByte3(m: nat)
    requires m < 8
    ensures var q := Choice1()[24 + m] - 1; Bit(KEY[q / 8], q % 8) == Bit(0xae, m)
  {
  }

  lemma KeyByte4(m: nat)
    requires m < 8
    ensures var q := Choice1()[32 + m] - 1; Bit(KEY[q / 8], q % 8) == Bit(0x79, m)
  {
  }

  lemma KeyByte5(m: nat)
    requires m < 8
    ensures var q := Choice1()[40 + m] - 1; Bit(KEY[q / 8], q % 8) == Bit(0x36, m)
  {
  }

  lemma KeyByte6(m: nat)
    requires m < 8
    ensures var q := Choice1()[48 + m] - 1; Bit(KEY[q / 8], q % 8) == Bit(0x0c, m)
  {
  }

  lemma KeyAt(k: nat)
    requires k < 56
    ensures var q := Choice1()[k] - 1; Bit(KEY[q / 8], q % 8) == Bit(Seven(0x22384aae79360c)[k / 8], k % 8)
  {
    hide Choice1, Bit;
    var b := Seven(0x22384aae79360c);
    assert b == [0x22, 0x38, 0x4a, 0xae, 0x79, 0x36, 0x0c];
    if k < 8 { KeyByte0(k); } else if k < 16 { KeyByte1(k - 8); } else if k < 24 { KeyByte2(k - 16); }
    else if k < 32 { KeyByte3(k - 24); } else if k < 40 { KeyByte4(k - 32); } else if k < 48 { KeyByte5(k - 40); }
    else { KeyByte6(k - 48); }
  }

  lemma KeyStart()
    ensures Halves(0, 0x22384aae79360c)
  {
    hide Choice1, Bit, Seven;
    var cd, w := Select(Choice1(), BitsOf(KEY)), BitsOf(Seven(0x22384aae79360c));
    forall k | 0 <= k < 56
      ensures cd[k] == w[k]
    {
      KeyAt(k);
    }
    assert cd[..28] + cd[28..] == cd;
  }

  lemma Keys1()
    requires Halves(0, 0x22384aae79360c)
    ensures Halves(2, 0x88e12a89e4d833)
    ensures KeyIs(1, 0x7052854263f6) && KeyIs(2, 0x2c3c20c4e993)
  {
    hide Halves, KeyIs;
    KeyTo(0, 0x22384aae79360c, 1, 0x4470954cf26c19, 0x7052854263f6);
    KeyTo(1, 0x4470954cf26c19, 1, 0x88e12a89e4d833, 0x2c3c20c4e993);
  }

  lemma Keys2()
    requires Halves(2, 0x88e12a89e4d833)
    ensures Halves(4, 0x8e12a88e4d8339)
    ensures KeyIs(3, 0xc22c5827265d) && KeyIs(4, 0x4ce610fb91c2)
  {
    hide Halves, KeyIs;
    KeyTo(2, 0x88e12a89e4d833, 2, 0x2384aa279360ce, 0xc22c5827265d);
    KeyTo(3, 0x2384aa279360ce, 2, 0x8e12a88e4d8339, 0x4ce610fb91c2);
  }

  lemma Keys3()
    requires Halves(4, 0x8e12a88e4d8339)
    ensures Halves(6, 0xe12a8884d8339e)
    ensures KeyIs(5, 0x469d0a04c72f) && KeyIs(6, 0x6aa0435e3cc4)
  {
    hide Halves, KeyIs;
    KeyTo(4, 0x8e12a88e4d8339, 2, 0x384aa229360ce7, 0x469d0a04c72f);
    KeyTo(5, 0x384aa229360ce7, 2, 0xe12a8884d8339e, 0x6aa0435e3cc4);
  }

  lemma Keys4()
    requires Halves(6, 0xe12a8884d8339e)
    ensures Halves(8, 0x12a888ed8339e4)
    ensures KeyIs(7, 0x29cc0ae8c1f9) && KeyIs(8, 0x60219a03fe0b)
  {
    hide Halves, KeyIs;
    KeyTo(6, 0xe12a8884d8339e, 2, 0x84aa223360ce79, 0x29cc0ae8c1f9);
    KeyTo(7, 0x84aa223360ce79, 2, 0x12a888ed8339e4, 0x60219a03fe0b);
  }

  lemma Keys5()
    requires Halves(8, 0x12a888ed8339e4)
    ensures Halves(10, 0x9544470c19cf26)
    ensures KeyIs(9, 0x1252e4281f5b) && KeyIs(10, 0x9859409fd036)
  {
    hide Halves, KeyIs;
    KeyTo(8, 0x12a888ed8339e4, 1, 0x255111cb0673c9, 0x1252e4281f5b);
    KeyTo(9, 0x255111cb0673c9, 2, 0x9544470c19cf26, 0x9859409fd036);
  }

  lemma Keys6()
    requires Halves(10, 0x9544470c19cf26)
    ensures Halves(12, 0x544470919cf26c)
    ensures KeyIs(11, 0x00636d454fe0) && KeyIs(12, 0x81550598a85d)
  {
    hide Halves, KeyIs;
    KeyTo(10, 0x9544470c19cf26, 2, 0x55111c20673c9b, 0x00636d454fe0);
    KeyTo(11, 0x55111c20673c9b, 2, 0x544470919cf26c, 0x81550598a85d);
  }

  lemma Keys7()
    requires Halves(12, 0x544470919cf26c)
    ensures Halves(14, 0x44470959cf26c1)
    ensures KeyIs(13, 0x410be1e3d694) && KeyIs(14, 0x91f0a11927ab)
  {
    hide Halves, KeyIs;
    KeyTo(12, 0x544470919cf26c, 2, 0x5111c25673c9b0, 0x410be1e3d694);
    KeyTo(13, 0x5111c25673c9b0, 2, 0x44470959cf26c1, 0x91f0a11927ab);
  }

  lemma Keys8()
    requires Halves(14, 0x44470959cf26c1)
    ensures Halves(16, 0x22384aae79360c)
    ensures KeyIs(15, 0x9107c2be5805) && KeyIs(16, 0x222a1a3b08e6)
  {
    hide Halves, KeyIs;
    KeyTo(14, 0x44470959cf26c1, 2, 0x111c25573c9b06, 0x9107c2be5805);
    KeyTo(15, 0x111c25573c9b06, 1, 0x22384aae79360c, 0x222a1a3b08e6);
  }

  // ---- the block ----

  lemma PlainByte0(m: nat)
    requires m < 8
    ensures var q := InitialPermutation()[m] - 1; Bit(PLAIN[q / 8], q % 8) == Bit(0x12, m)
  {
  }

  lemma PlainByte1(m: nat)
    requires m < 8
    ensures var q := InitialPermutation()[8 + m] - 1; Bit(PLAIN[q / 8], q % 8) == Bit(0x2f, m)
  {
  }

  lemma PlainByte2(m: nat)
    requires m < 8
    ensures var q := InitialPermutation()[16 + m] - 1; Bit(PLAIN[q / 8], q % 8) == Bit(0x22, m)
  {
  }

  lemma PlainByte3(m: nat)
    requires m < 8
    ensures var q := InitialPermutation()[24 + m] - 1; Bit(PLAIN[q / 8], q % 8) == Bit(0x37, m)
  {
  }

  lemma PlainByte4(m: nat)
    requires m < 8
    ensures var q := InitialPermutation()[32 + m] - 1; Bit(PLAIN[q / 8], q % 8) == Bit(0x0a, m)
  {
  }

  lemma PlainByte5(m: nat)
    requires m < 8
    ensures var q := InitialPermutation()[40 + m] - 1; Bit(PLAIN[q / 8], q % 8) == Bit(0x61, m)
  {
  }

  lemma PlainByte6(m: nat)
    requires m < 8
    ensures var q := InitialPermutation()[48 + m] - 1; Bit(PLAIN[q / 8], q % 8) == Bit(0x53, m)
  {
  }

  lemma PlainByte7(m: nat)
    requires m < 8
    ensures var q := InitialPermutation()[56 + m] - 1; Bit(PLAIN[q / 8], q % 8) == Bit(0xa1, m)
  {
  }

  lemma PlainLeft(k: nat)
    requires k < 32
    ensures var q := InitialPermutation()[k] - 1; Bit(PLAIN[q / 8], q % 8) == Bit(Four(0x122f2237)[k / 8], k % 8)
  {
    hide InitialPermutation, Bit;
    assert Four(0x122f2237) == [0x12, 0x2f, 0x22, 0x37];
    if k < 8 {
      PlainByte0(k);
    } else if k < 16 {
      PlainByte1(k - 8);
    } else if k < 24 {
      PlainByte2(k - 16);
    } else {
      PlainByte3(k - 24);
    }
  }

  lemma PlainRight(k: nat)
    requires k < 32
    ensures var q := InitialPermutation()[32 + k] - 1; Bit(PLAIN[q / 8], q % 8) == Bit(Four(0x0a6153a1)[k / 8], k % 8)
  {
    hide InitialPermutation, Bit;
    assert Four(0x0a6153a1) == [0x0a, 0x61, 0x53, 0xa1];
    if k < 8 {
      PlainByte4(k);
    } else if k < 16 {
      PlainByte5(k - 8);
    } else if k < 24 {
      PlainByte6(k - 16);
    } else {
      PlainByte7(k - 24);
    }
  }

  lemma PlainAt(k: nat)
    requires k < 64
    ensures var q := InitialPermutation()[k] - 1;
            Bit(PLAIN[q / 8], q % 8) == Bit((Four(0x122f2237) + Four(0x0a6153a1))[k / 8], k % 8)
  {
    hide InitialPermutation, Bit, Four;
    if k < 32 {
      PlainLeft(k);
    } else {
      PlainRight(k - 32);
    }
  }

  lemma BlockStart()
    ensures Reached(0, 0x122f2237, 0x0a6153a1)
  {
    hide InitialPermutation, Bit, Four;
    var x, w := Select(InitialPermutation(), BitsOf(PLAIN)), BitsOf(Four(0x122f2237) + Four(0x0a6153a1));
    forall k | 0 <= k < 64
      ensures x[k] == w[k]
    {
      PlainAt(k);
    }
    IterationsStart(Schedule(BitsOf(KEY)), x);
  }

  lemma Rounds1()
    requires Reached(0, 0x122f2237, 0x0a6153a1)
    requires KeyIs(1, 0x7052854263f6) && KeyIs(2, 0x2c3c20c4e993)
    ensures Reached(2, 0xaa04b5a3, 0x6e1f5a64)
  {
    hide Reached, KeyIs;
    RoundTo(0, 0x122f2237, 0x0a6153a1, 0x7052854263f6, 0xf51187e81ef4, 0x6ce53a2a, 0xaa04b5a3);
    RoundTo(1, 0x0a6153a1, 0xaa04b5a3, 0x2c3c20c4e993, 0xf97c299e5494, 0x0aba72c3, 0x6e1f5a64);
  }

  lemma Rounds2()
    requires Reached(2, 0xaa04b5a3, 0x6e1f5a64)
    requires KeyIs(3, 0xc22c5827265d) && KeyIs(4, 0x4ce610fb91c2)
    ensures Reached(4, 0xfc3e571b, 0xb17b447d)
  {
    hide Reached, KeyIs;
    RoundTo(2, 0xaa04b5a3, 0x6e1f5a64, 0xc22c5827265d, 0xf7eca6886555, 0x6f102f56, 0xfc3e571b);
    RoundTo(3, 0x6e1f5a64, 0xfc3e571b, 0x4ce610fb91c2, 0xb367ecd17935, 0x2617ceb9, 0xb17b447d);
  }

  lemma Rounds3()
    requires Reached(4, 0xfc3e571b, 0xb17b447d)
    requires KeyIs(5, 0x469d0a04c72f) && KeyIs(6, 0x6aa0435e3cc4)
    ensures Reached(6, 0x8a1c585f, 0x70b73ccf)
  {
    hide Reached, KeyIs;
    RoundTo(4, 0xfc3e571b, 0xb17b447d, 0x469d0a04c72f, 0x9cb6fca444d4, 0x22b81a33, 0x8a1c585f);
    RoundTo(5, 0xb17b447d, 0x8a1c585f, 0x6aa0435e3cc4, 0xafe0bb713e3b, 0x9f07e105, 0x70b73ccf);
  }

  lemma Rounds4()
    requires Reached(6, 0x8a1c585f, 0x70b73ccf)
    requires KeyIs(7, 0x29cc0ae8c1f9) && KeyIs(8, 0x60219a03fe0b)
    ensures Reached(8, 0x4d96f32f, 0x91f5bcb8)
  {
    hide Reached, KeyIs;
    RoundTo(6, 0x8a1c585f, 0x70b73ccf, 0x29cc0ae8c1f9, 0x93d9a47757a7, 0xee998117, 0x4d96f32f);
    RoundTo(7, 0x70b73ccf, 0x4d96f32f, 0x60219a03fe0b, 0xc59d37799755, 0x562b9086, 0x91f5bcb8);
  }

  lemma Rounds5()
    requires Reached(8, 0x4d96f32f, 0x91f5bcb8)
    requires KeyIs(9, 0x1252e4281f5b) && KeyIs(10, 0x9859409fd036)
    ensures Reached(10, 0xa75b561b, 0xf410a6f0)
  {
    hide Reached, KeyIs;
    RoundTo(8, 0x4d96f32f, 0x91f5bcb8, 0x1252e4281f5b, 0x586d4ff78aaa, 0xcee3513c, 0xa75b561b);
    RoundTo(9, 0x91f5bcb8, 0xa75b561b, 0x9859409fd036, 0x48b3b63510c1, 0xa25ed601, 0xf410a6f0);
  }

  lemma Rounds6()
    requires Reached(10, 0xa75b561b, 0xf410a6f0)
    requires KeyIs(11, 0x00636d454fe0) && KeyIs(12, 0x81550598a85d)
    ensures Reached(12, 0x274b99dd, 0xd5fe6a5f)
  {
    hide Reached, KeyIs;
    RoundTo(10, 0xa75b561b, 0xf410a6f0, 0x00636d454fe0, 0x7ae3cc159841, 0x71a92061, 0x274b99dd);
    RoundTo(11, 0xf410a6f0, 0x274b99dd, 0x81550598a85d, 0x11bf525796a7, 0xd922f6a7, 0xd5fe6a5f);
  }

  lemma Rounds7()
    requires Reached(12, 0x274b99dd, 0xd5fe6a5f)
    requires KeyIs(13, 0x410be1e3d694) && KeyIs(14, 0x91f0a11927ab)
    ensures Reached(14, 0x3b196f8c, 0x0a2a9eff)
  {
    hide Reached, KeyIs;
    RoundTo(12, 0x274b99dd, 0xd5fe6a5f, 0x410be1e3d694, 0xabb41dd6946b, 0x651e09ea, 0x3b196f8c);
    RoundTo(13, 0xd5fe6a5f, 0x3b196f8c, 0x91f0a11927ab, 0x8e9853acdbf3, 0xc317e97c, 0x0a2a9eff);
  }

  lemma Rounds8()
    requires Reached(14, 0x3b196f8c, 0x0a2a9eff)
    requires KeyIs(15, 0x9107c2be5805) && KeyIs(16, 0x222a1a3b08e6)
    ensures Reached(16, 0x2b20f5e7, 0x1753b3a9)
  {
    hide Reached, KeyIs;
    RoundTo(14, 0x3b196f8c, 0x0a2a9eff, 0x9107c2be5805, 0x144697f18ffb, 0x784c0ec5, 0x2b20f5e7);
    RoundTo(15, 0x0a2a9eff, 0x2b20f5e7, 0x222a1a3b08e6, 0xb7431b41b7e8, 0x1cfa8b69, 0x1753b3a9);
  }

  const LAST: seq<Byte> := [0x17, 0x53, 0xb3, 0xa9, 0x2b, 0x20, 0xf5, 0xe7]

  lemma CipherByte0(m: nat)
    requires m < 8
    ensures var q := FinalPermutation()[m] - 1; Bit(LAST[q / 8], q % 8) == Bit(0xdf, m)
  {
  }

  lemma CipherByte1(m: nat)
    requires m < 8
    ensures var q := FinalPermutation()[8 + m] - 1; Bit(LAST[q / 8], q % 8) == Bit(0xd6, m)
  {
  }

  lemma CipherByte2(m: nat)
    requires m < 8
    ensures var q := FinalPermutation()[16 + m] - 1; Bit(LAST[q / 8], q % 8) == Bit(0x4a, m)
  {
  }

  lemma CipherByte3(m: nat)
    requires m < 8
    ensures var q := FinalPermutation()[24 + m] - 1; Bit(LAST[q / 8], q % 8) == Bit(0x81, m)
  {
  }

  lemma CipherByte4(m: nat)
    requires m < 8
    ensures var q := FinalPermutation()[32 + m] - 1; Bit(LAST[q / 8], q % 8) == Bit(0x5c, m)
  {
  }

  lemma CipherByte5(m: nat)
    requires m < 8
    ensures var q := FinalPermutation()[40 + m] - 1; Bit(LAST[q / 8], q % 8) == Bit(0xaf, m)
  {
  }

  lemma CipherByte6(m: nat)
    requires m < 8
    ensures var q := FinalPermutation()[48 + m] - 1; Bit(LAST[q / 8], q % 8) == Bit(0x1a, m)
  {
  }

  lemma CipherByte7(m: nat)
    requires m < 8
    ensures var q := FinalPermutation()[56 + m] - 1; Bit(LAST[q / 8], q % 8) == Bit(0x0f, m)
  {
  }

  lemma CipherLeft(k: nat)
    requires k < 32
    ensures var q := FinalPermutation()[k] - 1; Bit(LAST[q / 8], q % 8) == Bit(CIPHER[k / 8], k % 8)
  {
    hide FinalPermutation, Bit;
    if k < 8 {
      CipherByte0(k);
    } else if k < 16 {
      CipherByte1(k - 8);
    } else if k < 24 {
      CipherByte2(k - 16);
    } else {
      CipherByte3(k - 24);
    }
  }

  lemma CipherRight(k: nat)
    requires k < 32
    ensures var q := FinalPermutation()[32 + k] - 1; Bit(LAST[q / 8], q % 8) == Bit(CIPHER[4 + k / 8], k % 8)
  {
    hide FinalPermutation, Bit;
    if k < 8 {
      CipherByte4(k);
    } else if k < 16 {
      CipherByte5(k - 8);
    } else if k < 24 {
      CipherByte6(k - 16);
    } else {
      CipherByte7(k - 24);
    }
  }

  lemma CipherAt(k: nat)
    requires k < 64
    ensures var q := FinalPermutation()[k] - 1; Bit(LAST[q / 8], q % 8) == Bit(CIPHER[k / 8], k % 8)
  {
    hide FinalPermutation, Bit;
    if k < 32 {
      CipherLeft(k);
    } else {
      CipherRight(k - 32);
    }
  }

  lemma LastBits()
    ensures SwapHalves(BitsOf(Four(0x2b20f5e7) + Four(0x1753b3a9))) == BitsOf(LAST)
  {
    hide BitsOf;
    BitsOfConcat(Four(0x2b20f5e7), Four(0x1753b3a9));
    BitsOfConcat(Four(0x1753b3a9), Four(0x2b20f5e7));
    assert Four(0x1753b3a9) + Four(0x2b20f5e7) == LAST;
  }

  lemma FinalBits()
    ensures Select(FinalPermutation(), BitsOf(LAST)) == BitsOf(CIPHER)
  {
    hide FinalPermutation, Bit;
    var x, w := Select(FinalPermutation(), BitsOf(LAST)), BitsOf(CIPHER);
    forall k | 0 <= k < 64
      ensures x[k] == w[k]
    {
      CipherAt(k);
    }
  }

  lemma AllKeys()
    ensures KeyIs(1, 0x7052854263f6) && KeyIs(2, 0x2c3c20c4e993)
    ensures KeyIs(3, 0xc22c5827265d) && KeyIs(4, 0x4ce610fb91c2)
    ensures KeyIs(5, 0x469d0a04c72f) && KeyIs(6, 0x6aa0435e3cc4)
    ensures KeyIs(7, 0x29cc0ae8c1f9) && KeyIs(8, 0x60219a03fe0b)
    ensures KeyIs(9, 0x1252e4281f5b) && KeyIs(10, 0x9859409fd036)
    ensures KeyIs(11, 0x00636d454fe0) && KeyIs(12, 0x81550598a85d)
    ensures KeyIs(13, 0x410be1e3d694) && KeyIs(14, 0x91f0a11927ab)
    ensures KeyIs(15, 0x9107c2be5805) && KeyIs(16, 0x222a1a3b08e6)
  {
    hide Halves, KeyIs;
    KeyStart();
    Keys1();
    Keys2();
    Keys3();
    Keys4();
    Keys5();
    Keys6();
    Keys7();
    Keys8();
  }

  lemma AllRounds()
    ensures Reached(16, 0x2b20f5e7, 0x1753b3a9)
  {
    hide Reached, KeyIs;
    AllKeys();
    BlockStart();
    Rounds1();
    Rounds2();
    Rounds3();
    Rounds4();
    Rounds5();
    Rounds6();
    Rounds7();
    Rounds8();
  }

  /** Key 07A7137045DA2A16 takes 3BDD119049372802 to DFD64A815CAF1A0F. */
  lemma KnownAnswer()
    ensures Encipher(Schedule(BitsOf(KEY)), BitsOf(PLAIN)) == BitsOf(CIPHER)
  {
    hide Iterations, Select, BitsOf, Four, FinalPermutation, InitialPermutation, Schedule, SwapHalves;
    AllRounds();
    LastBits();
    FinalBits();
  }

  lemma KeyFolds()
    ensures KeyLength(KEY + [0], 0) == 8 && Folded(KEY + [0], 8) == KEY
  {
    hide XorByte;
    var key := KEY + [0];
    KeyLengthIs(key, 0, 8);
    forall j | 0 <= j < 8
      ensures Folded(key, 8)[j] == KEY[j]
    {
      ColumnFirst(key, 8, j);
      ZeroXor(KEY[j]);
    }
  }

  lemma ZeroXor(b: Byte)
    ensures XorByte(0, b) == b
  {
  }

  /** The object gives the same answer for the key as a terminated string. */
  method ObjectAnswers() returns (y: seq<Byte>)
    ensures y == CIPHER
  {
    hide BitsOf, Schedule, Encipher, Folded, KeyLength, PermTable, PairTable, Perm32Table, CipherDes.RoundKeys;
    var c := new CipherDes();
    KeyFolds();
    assert 0 in KEY + [0];
    var rc := c.SetKey(Some(KEY + [0]), 8);
    KnownAnswer();
    y := c.EnDes(PLAIN);
    SameBits(y, CIPHER);
  }
}
