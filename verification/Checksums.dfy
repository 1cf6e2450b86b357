/** The checksum of BaseLib/Encoder.cpp: its table is that of a cyclic redundancy check, and which changes it shows. */
module Checksums {
  import opened Memory
  import opened PacketCipher

  /** One turn of the shift register of the check with the polynomial x^8 + x^5 + x^4 + 1, low-order bit first. */
  function Turn(b: Byte): Byte
  {
    if b & 1 != 0 then (b >> 1) ^ 0x8c else b >> 1
  }

  function TwoTurns(b: Byte): Byte { Turn(Turn(b)) }

  function FourTurns(b: Byte): Byte { TwoTurns(TwoTurns(b)) }

  /** The remainder of a byte. */
  function Crc(b: Byte): Byte { FourTurns(FourTurns(b)) }

  lemma TurnLinear(a: Byte, b: Byte)
    ensures Turn(XorByte(a, b)) == XorByte(Turn(a), Turn(b))
    ensures Turn(a) == Turn(b) ==> a == b
  {
  }

  lemma TwoTurnsLinear(a: Byte, b: Byte)
    ensures TwoTurns(XorByte(a, b)) == XorByte(TwoTurns(a), TwoTurns(b))
    ensures TwoTurns(a) == TwoTurns(b) ==> a == b
  {
    hide Turn, XorByte;
    TurnLinear(a, b);
    TurnLinear(Turn(a), Turn(b));
  }

  lemma FourTurnsLinear(a: Byte, b: Byte)
    ensures FourTurns(XorByte(a, b)) == XorByte(FourTurns(a), FourTurns(b))
    ensures FourTurns(a) == FourTurns(b) ==> a == b
  {
    hide TwoTurns, XorByte;
    TwoTurnsLinear(a, b);
    TwoTurnsLinear(TwoTurns(a), TwoTurns(b));
  }

  lemma CrcLinear(a: Byte, b: Byte)
    ensures Crc(XorByte(a, b)) == XorByte(Crc(a), Crc(b))
    ensures Crc(a) == Crc(b) ==> a == b
  {
    hide FourTurns, XorByte;
    FourTurnsLinear(a, b);
    FourTurnsLinear(FourTurns(a), FourTurns(b));
  }

  // ---- the table ----

  /** A row: the remainder of the high digit combined with those of the low ones. */
  function Line(k: Byte): (r: seq<Byte>)
    ensures |r| == 16
  {
    [k ^ 0, k ^ 94, k ^ 188, k ^ 226, k ^ 97, k ^ 63, k ^ 221, k ^ 131,
     k ^ 194, k ^ 156, k ^ 126, k ^ 32, k ^ 163, k ^ 253, k ^ 31, k ^ 65]
  }

  lemma Rows1()
    ensures |CHECKSUM_TBL| == 16
    ensures CHECKSUM_TBL[0] == Line(0)
    ensures CHECKSUM_TBL[1] == Line(157)
    ensures CHECKSUM_TBL[2] == Line(35)
    ensures CHECKSUM_TBL[3] == Line(190)
  {
  }

  lemma Rows2()
    ensures |CHECKSUM_TBL| == 16
    ensures CHECKSUM_TBL[4] == Line(70)
    ensures CHECKSUM_TBL[5] == Line(219)
    ensures CHECKSUM_TBL[6] == Line(101)
    ensures CHECKSUM_TBL[7] == Line(248)
  {
  }

  lemma Rows3()
    ensures |CHECKSUM_TBL| == 16
    ensures CHECKSUM_TBL[8] == Line(140)
    ensures CHECKSUM_TBL[9] == Line(17)
    ensures CHECKSUM_TBL[10] == Line(175)
    ensures CHECKSUM_TBL[11] == Line(50)
  {
  }

  lemma Rows4()
    ensures |CHECKSUM_TBL| == 16
    ensures CHECKSUM_TBL[12] == Line(202)
    ensures CHECKSUM_TBL[13] == Line(87)
    ensures CHECKSUM_TBL[14] == Line(233)
    ensures CHECKSUM_TBL[15] == Line(116)
  {
  }

  lemma HighRemainders(h: Byte)
    requires h < 16
    ensures CHECKSUM_TBL[h as nat] == Line(Crc(h << 4))
  {
    hide Line;
    Rows1();
    Rows2();
    Rows3();
    Rows4();
  }

  lemma FirstRemainders(k: Byte, c: Byte)
    requires c < 5
    ensures Line(k)[c as nat] == XorByte(k, Crc(c))
  {
  }

  lemma MiddleRemainders(k: Byte, c: Byte)
    requires 5 <= c < 11
    ensures Line(k)[c as nat] == XorByte(k, Crc(c))
  {
  }

  lemma LastRemainders(k: Byte, c: Byte)
    requires 11 <= c < 16
    ensures Line(k)[c as nat] == XorByte(k, Crc(c))
  {
  }

  lemma LowRemainders(k: Byte, c: Byte)
    requires c < 16
    ensures Line(k)[c as nat] == XorByte(k, Crc(c))
  {
    hide Line, Crc, XorByte;
    if c < 5 {
      FirstRemainders(k, c);
    } else if c < 11 {
      MiddleRemainders(k, c);
    } else {
      LastRemainders(k, c);
    }
  }

  lemma Digits(x: Byte)
    ensures x >> 4 < 16 && x & 15 < 16 && XorByte((x >> 4) << 4, x & 15) == x
  {
  }

  /** Every entry is the remainder of its index. */
  lemma EntryIsCrc(x: Byte)
    ensures Entry(x) == Crc(x)
  {
    hide Line, Crc, XorByte;
    var h, c := x >> 4, x & 15;
    Digits(x);
    HighRemainders(h);
    LowRemainders(Crc(h << 4), c);
    CrcLinear(h << 4, c);
  }

  /** The table is linear, and no two entries are equal. */
  lemma EntryLinear(a: Byte, b: Byte)
    ensures Entry(XorByte(a, b)) == XorByte(Entry(a), Entry(b))
    ensures Entry(a) == Entry(b) ==> a == b
  {
    hide Entry, Crc, XorByte;
    EntryIsCrc(a);
    EntryIsCrc(b);
    EntryIsCrc(XorByte(a, b));
    CrcLinear(a, b);
  }

  // ---- changes ----

  lemma XorByteInjective(a: Byte, b: Byte, c: Byte)
    ensures XorByte(a, c) == XorByte(b, c) ==> a == b
    ensures XorByte(c, a) == XorByte(c, b) ==> a == b
  {
  }

  /** From different sums, or over different bytes, a step leads to different sums. */
  lemma StepInjective(sum: Byte, sum': Byte, b: Byte, b': Byte)
    ensures SumStep(sum, b) == SumStep(sum', b) ==> sum == sum'
    ensures SumStep(sum, b) == SumStep(sum, b') ==> b == b'
  {
    hide Entry, XorByte;
    EntryLinear(XorByte(sum, b), XorByte(sum', b));
    EntryLinear(XorByte(sum, b), XorByte(sum, b'));
    XorByteInjective(sum, sum', b);
    XorByteInjective(b, b', sum);
  }

  /** The position of the byte that step `k` takes in. */
  function Taken(n: nat, k: nat): (i: nat)
    requires k < n / 4 + n % 4
    ensures i < n
  {
    if k < n / 4 then 4 * k else n - n % 4 + k - n / 4
  }

  lemma ChecksumNext(s: seq<Byte>, k: nat)
    requires k < |s| / 4 + |s| % 4
    ensures Checksum(s, k + 1) == SumStep(Checksum(s, k), s[Taken(|s|, k)])
  {
    hide SumStep;
    ChecksumSteps(s, k);
  }

  /** Whether a byte is taken in at all: the lowest one of a whole word, or one left over. */
  predicate Covered(n: nat, i: nat)
  {
    i % 4 == 0 || i >= n - n % 4
  }

  /** The step that takes in a covered byte. */
  function StepOf(n: nat, i: nat): (k: nat)
    requires i < n && Covered(n, i)
    ensures k < n / 4 + n % 4 && Taken(n, k) == i
  {
    if i < n - n % 4 then i / 4 else i - (n - n % 4) + n / 4
  }

  lemma TakenIsCovered(n: nat, k: nat)
    requires k < n / 4 + n % 4
    ensures Covered(n, Taken(n, k)) && StepOf(n, Taken(n, k)) == k
  {
  }

  /** The checksum after `k` steps over `s` with byte `i` changed. */
  lemma {:induction false} ChecksumChanged(s: seq<Byte>, i: nat, b: Byte, k: nat)
    requires i < |s| && k <= |s| / 4 + |s| % 4
    ensures Checksum(s[i := b], k) == Checksum(s, k)
            <==> b == s[i] || !(Covered(|s|, i) && StepOf(|s|, i) < k)
  {
    hide SumStep, Covered, Taken, StepOf;
    if k > 0 {
      var t, j := s[i := b], Taken(|s|, k - 1);
      ChecksumChanged(s, i, b, k - 1);
      ChecksumNext(s, k - 1);
      ChecksumNext(t, k - 1);
      TakenIsCovered(|s|, k - 1);
      StepInjective(Checksum(s, k - 1), Checksum(t, k - 1), s[j], t[j]);
      StepInjective(Checksum(s, k - 1), Checksum(t, k - 1), t[j], s[j]);
    }
  }

  /** A single changed byte is noticed exactly when it is covered. */
  lemma ChangeNoticed(s: seq<Byte>, i: nat, b: Byte)
    requires i < |s|
    ensures var n := |s| / 4 + |s| % 4;
            Checksum(s[i := b], n) == Checksum(s, n) <==> b == s[i] || !Covered(|s|, i)
  {
    hide Checksum;
    ChecksumChanged(s, i, b, |s| / 4 + |s| % 4);
    if Covered(|s|, i) {
      assert StepOf(|s|, i) < |s| / 4 + |s| % 4;
    }
  }
}
