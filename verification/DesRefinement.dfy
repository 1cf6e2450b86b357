/** How the precomputed tables of BaseLib/CipherDes.cpp stand for the bit operations of FIPS 46-3. */
module DesRefinement {
  import opened ByteBits
  import opened Memory
  import opened DesStandard
  import opened DesBits

  // ---- permutations as masks joined by OR ----

  /** What nibble `i` of the input, holding `j`, contributes to the output of permutation `p`. */
  function NibbleMask(p: seq<int>, i: nat, j: nat): (r: Bits)
    requires InRange(p, 64) && j < 16
    ensures |r| == |p|
  {
    seq(|p|, k requires 0 <= k < |p| => (p[k] - 1) / 4 == i && NibbleBit(j, (p[k] - 1) % 4))
  }

  /** The same for byte `i` of a permutation of 32 bits. */
  function ByteMask(p: seq<int>, i: nat, j: nat): (r: Bits)
    requires InRange(p, 32) && j < 256
    ensures |r| == |p|
  {
    seq(|p|, k requires 0 <= k < |p| => (p[k] - 1) / 8 == i && NumberBit(j, (p[k] - 1) % 8))
  }

  function OrBits(a: Bits, b: Bits): (r: Bits)
    requires |a| == |b|
    ensures |r| == |a|
  {
    seq(|a|, k requires 0 <= k < |a| => a[k] || b[k])
  }

  function OrAll(s: seq<Byte>, t: seq<Byte>): (r: seq<Byte>)
    requires |s| == |t|
    ensures |r| == |s|
  {
    seq(|s|, k requires 0 <= k < |s| => Or(s[k], t[k]))
  }

  /** The output of permutation `p` when only the first `n` input bits have been looked at. */
  function Taken(p: seq<int>, x: Bits, n: nat): (r: Bits)
    requires InRange(p, |x|)
    ensures |r| == |p|
  {
    seq(|p|, k requires 0 <= k < |p| => p[k] - 1 < n && x[p[k] - 1])
  }

  lemma BitsOfOr(s: seq<Byte>, t: seq<Byte>)
    requires |s| == |t|
    ensures BitsOf(OrAll(s, t)) == OrBits(BitsOf(s), BitsOf(t))
  {
    hide Bit, Or;
    forall k | 0 <= k < 8 * |s|
      ensures BitsOf(OrAll(s, t))[k] == OrBits(BitsOf(s), BitsOf(t))[k]
    {
      OrBit(s[k / 8], t[k / 8], k % 8);
    }
  }

  lemma BitsOfZeros(n: nat)
    ensures BitsOf(Zeros(n)) == seq(8 * n, _ => false)
  {
    hide Bit;
    forall k | 0 <= k < 8 * n
      ensures !BitsOf(Zeros(n))[k]
    {
      ZeroBit(k % 8);
    }
  }

  lemma TakenNone(p: seq<int>, x: Bits)
    requires InRange(p, |x|)
    ensures Taken(p, x, 0) == seq(|p|, _ => false)
  {
  }

  lemma TakenAll(p: seq<int>, x: Bits)
    requires InRange(p, |x|)
    ensures Taken(p, x, |x|) == Select(p, x)
  {
  }

  lemma TakeNibble(p: seq<int>, x: Bits, i: nat, j: nat)
    requires InRange(p, 64) && |x| == 64 && i < 16 && j < 16
    requires forall m :: 0 <= m < 4 ==> NibbleBit(j, m) == x[4 * i + m]
    ensures OrBits(Taken(p, x, 4 * i), NibbleMask(p, i, j)) == Taken(p, x, 4 * i + 4)
  {
    hide NibbleBit;
    forall k | 0 <= k < |p|
      ensures OrBits(Taken(p, x, 4 * i), NibbleMask(p, i, j))[k] == Taken(p, x, 4 * i + 4)[k]
    {
      var l := p[k] - 1;
      if l / 4 == i {
        assert l == 4 * i + l % 4;
      }
    }
  }

  lemma TakeByte(p: seq<int>, x: Bits, i: nat, j: nat)
    requires InRange(p, 32) && |x| == 32 && i < 4 && j < 256
    requires forall m :: 0 <= m < 8 ==> NumberBit(j, m) == x[8 * i + m]
    ensures OrBits(Taken(p, x, 8 * i), ByteMask(p, i, j)) == Taken(p, x, 8 * i + 8)
  {
    hide NumberBit;
    forall k | 0 <= k < |p|
      ensures OrBits(Taken(p, x, 8 * i), ByteMask(p, i, j))[k] == Taken(p, x, 8 * i + 8)[k]
    {
      var l := p[k] - 1;
      if l / 8 == i {
        assert l == 8 * i + l % 8;
      }
    }
  }

  /** One step of permute: both nibbles of byte `b`. */
  lemma PermuteStep(p: seq<int>, s: seq<Byte>, b: nat, out: seq<Byte>, high: seq<Byte>, low: seq<Byte>)
    requires InRange(p, 64) && |p| == 64 && |s| == 8 && b < 8 && |out| == |high| == |low| == 8
    requires BitsOf(out) == Taken(p, BitsOf(s), 8 * b)
    requires BitsOf(high) == NibbleMask(p, 2 * b, HighNibble(s[b]))
    requires BitsOf(low) == NibbleMask(p, 2 * b + 1, LowNibble(s[b]))
    ensures BitsOf(OrAll(out, OrAll(high, low))) == Taken(p, BitsOf(s), 8 * b + 8)
  {
    hide Bit, Taken, NibbleMask, NibbleBit, NumberBit, HighNibble, LowNibble, OrAll;
    var x := BitsOf(s);
    forall m | 0 <= m < 4
      ensures NibbleBit(HighNibble(s[b]), m) == x[4 * (2 * b) + m]
      ensures NibbleBit(LowNibble(s[b]), m) == x[4 * (2 * b + 1) + m]
    {
      ByteAsNumber(s[b], m);
      ByteAsNumber(s[b], m + 4);
      assert (8 * b + m) / 8 == b && (8 * b + 4 + m) / 8 == b;
    }
    TakeNibble(p, x, 2 * b, HighNibble(s[b]));
    TakeNibble(p, x, 2 * b + 1, LowNibble(s[b]));
    BitsOfOr(high, low);
    BitsOfOr(out, OrAll(high, low));
    OrAssociative(BitsOf(out), BitsOf(high), BitsOf(low));
  }

  lemma OrAssociative(a: Bits, b: Bits, c: Bits)
    requires |a| == |b| == |c|
    ensures OrBits(a, OrBits(b, c)) == OrBits(OrBits(a, b), c)
  {
  }

  /** One step of perm32. */
  lemma Perm32Step(p: seq<int>, s: seq<Byte>, b: nat, out: seq<Byte>, mask: seq<Byte>)
    requires InRange(p, 32) && |p| == 32 && |s| == 4 && b < 4 && |out| == |mask| == 4
    requires BitsOf(out) == Taken(p, BitsOf(s), 8 * b)
    requires BitsOf(mask) == ByteMask(p, b, s[b] as nat)
    ensures BitsOf(OrAll(out, mask)) == Taken(p, BitsOf(s), 8 * b + 8)
  {
    hide Bit, Taken, ByteMask, NumberBit, OrAll;
    var x, v := BitsOf(s), s[b] as nat;
    forall m | 0 <= m < 8
      ensures NumberBit(v, m) == x[8 * b + m]
    {
      ByteAsNumber(s[b], m);
      assert (8 * b + m) / 8 == b;
    }
    TakeByte(p, x, b, v);
    BitsOfOr(out, mask);
  }

  // ---- building a mask bit by bit ----

  /** The mask with only its first `n` bits decided. */
  function Upto(mask: Bits, n: nat): (r: Bits)
    ensures |r| == |mask|
  {
    seq(|mask|, k requires 0 <= k < |mask| => k < n && mask[k])
  }

  function WithBit(row: seq<Byte>, k: nat): (r: seq<Byte>)
    requires k < 8 * |row|
    ensures |r| == |row|
  {
    row[k / 8 := Or(row[k / 8], ByteBit(k % 8))]
  }

  lemma SetBit(row: seq<Byte>, k: nat)
    requires k < 8 * |row|
    ensures BitsOf(WithBit(row, k)) == BitsOf(row)[k := true]
  {
    hide Bit, Or, ByteBit;
    forall n | 0 <= n < 8 * |row|
      ensures BitsOf(WithBit(row, k))[n] == BitsOf(row)[k := true][n]
    {
      if n / 8 == k / 8 {
        OrBit(row[k / 8], ByteBit(k % 8), n % 8);
        OneBit(k % 8, n % 8);
      }
    }
  }

  lemma UptoNext(mask: Bits, row: seq<Byte>, k: nat)
    requires |mask| == 8 * |row| && k < |mask|
    requires BitsOf(row) == Upto(mask, k)
    ensures mask[k] ==> BitsOf(WithBit(row, k)) == Upto(mask, k + 1)
    ensures !mask[k] ==> BitsOf(row) == Upto(mask, k + 1)
  {
    hide WithBit, BitsOf;
    SetBit(row, k);
  }

  lemma UptoNone(mask: Bits)
    requires |mask| % 8 == 0
    ensures BitsOf(Zeros(|mask| / 8)) == Upto(mask, 0)
  {
    hide BitsOf;
    BitsOfZeros(|mask| / 8);
  }

  lemma UptoAll(mask: Bits)
    ensures Upto(mask, |mask|) == mask
  {
  }

  // ---- the expansion by shifts and masks ----

  function Expand0(a: Byte, b: Byte): Byte
  {
    ((a & 0x01) << 7) | ((b & 0xf8) >> 1) | ((b & 0x18) >> 3)
  }

  function Expand1(a: Byte, b: Byte): Byte
  {
    ((a & 0x07) << 5) | ((b & 0x80) >> 3) | ((a & 0x01) << 3) | ((b & 0xe0) >> 5)
  }

  function Expand2(a: Byte, b: Byte): Byte
  {
    ((a & 0x18) << 3) | ((a & 0x1f) << 1) | ((b & 0x80) >> 7)
  }

  lemma Expand0Bits(a: Byte, b: Byte)
    ensures var e := Expand0(a, b);
            && Bit(e, 0) == Bit(a, 7) && Bit(e, 1) == Bit(b, 0) && Bit(e, 2) == Bit(b, 1) && Bit(e, 3) == Bit(b, 2)
            && Bit(e, 4) == Bit(b, 3) && Bit(e, 5) == Bit(b, 4) && Bit(e, 6) == Bit(b, 3) && Bit(e, 7) == Bit(b, 4)
  {
  }

  lemma Expand1Bits(a: Byte, b: Byte)
    ensures var e := Expand1(a, b);
            && Bit(e, 0) == Bit(a, 5) && Bit(e, 1) == Bit(a, 6) && Bit(e, 2) == Bit(a, 7) && Bit(e, 3) == Bit(b, 0)
            && Bit(e, 4) == Bit(a, 7) && Bit(e, 5) == Bit(b, 0) && Bit(e, 6) == Bit(b, 1) && Bit(e, 7) == Bit(b, 2)
  {
  }

  lemma Expand2Bits(a: Byte, b: Byte)
    ensures var e := Expand2(a, b);
            && Bit(e, 0) == Bit(a, 3) && Bit(e, 1) == Bit(a, 4) && Bit(e, 2) == Bit(a, 3) && Bit(e, 3) == Bit(a, 4)
            && Bit(e, 4) == Bit(a, 5) && Bit(e, 5) == Bit(a, 6) && Bit(e, 6) == Bit(a, 7) && Bit(e, 7) == Bit(b, 0)
  {
  }

  lemma Expand0Bit(a: Byte, b: Byte, m: nat)
    requires m < 8
    ensures Bit(Expand0(a, b), m) == if m == 0 then Bit(a, 7) else if m < 6 then Bit(b, m - 1) else Bit(b, m - 3)
  {
    hide Bit, Expand0;
    Expand0Bits(a, b);
  }

  lemma Expand1Bit(a: Byte, b: Byte, m: nat)
    requires m < 8
    ensures Bit(Expand1(a, b), m)
            == if m < 3 then Bit(a, m + 5)
               else if m == 3 then Bit(b, 0)
               else if m == 4 then Bit(a, 7)
               else Bit(b, m - 5)
  {
    hide Bit, Expand1;
    Expand1Bits(a, b);
  }

  lemma Expand2Bit(a: Byte, b: Byte, m: nat)
    requires m < 8
    ensures Bit(Expand2(a, b), m) == if m < 2 then Bit(a, m + 3) else if m < 7 then Bit(a, m + 1) else Bit(b, 0)
  {
    hide Bit, Expand2;
    Expand2Bits(a, b);
  }

  lemma EightBits(e: Byte)
    ensures BitsOf([e]) == [Bit(e, 0), Bit(e, 1), Bit(e, 2), Bit(e, 3), Bit(e, 4), Bit(e, 5), Bit(e, 6), Bit(e, 7)]
  {
    hide Bit;
  }

  /** expand: 32 bits to 48 by shifts and masks. */
  function Expand(r: seq<Byte>): (e: seq<Byte>)
    requires |r| == 4
    ensures |e| == 6
  {
    [Expand0(r[3], r[0]), Expand1(r[0], r[1]), Expand2(r[1], r[2]),
     Expand0(r[1], r[2]), Expand1(r[2], r[3]), Expand2(r[3], r[0])]
  }

  lemma ERowsAt(r: nat, c: nat)
    requires r < 8 && c < 6
    ensures |E| == 8 && |E[r]| == 6 && E[r][c] - 1 == (4 * r + c + 31) % 32
  {
  }

  /** The bit of the input that bit `m` of byte `j` of the expansion comes from. */
  function Origin(j: nat, m: nat): (l: nat)
    requires j < 6 && m < 8
    ensures l < 32
  {
    var k := 8 * j + m;
    (4 * (k / 6) + k % 6 + 31) % 32
  }

  lemma Origins(j: nat, m: nat)
    requires j < 3 && m < 8
    ensures j == 0 ==> Origin(j, m) == if m == 0 then 31 else if m < 6 then m - 1 else m - 3
    ensures j == 1 ==> Origin(j, m) == if m < 3 then m + 5 else if m == 3 then 8 else if m == 4 then 7 else m + 3
    ensures j == 2 ==> Origin(j, m) == if m < 2 then m + 11 else if m < 7 then m + 9 else 16
  {
  }

  lemma OriginTurned(j: nat, m: nat)
    requires j < 3 && m < 8
    ensures Origin(j + 3, m) == (Origin(j, m) + 16) % 32
  {
    var k := 8 * j + m;
    assert 8 * (j + 3) + m == 6 * 4 + k;
    assert (6 * 4 + k) / 6 == 4 + k / 6 && (6 * 4 + k) % 6 == k % 6;
  }

  /** The E table takes output bit `k` from there. */
  lemma ExpansionAt(k: nat)
    requires k < 48
    ensures Expansion()[k] - 1 == Origin(k / 8, k % 8)
  {
    ERowsAt(k / 6, k % 6);
  }

  lemma ExpandFirst(r: seq<Byte>, j: nat, m: nat)
    requires |r| == 4 && j < 3 && m < 8
    ensures Bit(Expand(r)[j], m) == Bit(r[Origin(j, m) / 8], Origin(j, m) % 8)
  {
    hide Expand0, Expand1, Expand2, Bit, Origin;
    Origins(j, m);
    if j == 0 { Expand0Bit(r[3], r[0], m); }
    else if j == 1 { Expand1Bit(r[0], r[1], m); }
    else { Expand2Bit(r[1], r[2], m); }
  }

  /** The second half of the expansion is the first half of the block with its halves exchanged. */
  lemma ExpandBit(r: seq<Byte>, j: nat, m: nat)
    requires |r| == 4 && j < 6 && m < 8
    ensures Bit(Expand(r)[j], m) == Bit(r[Origin(j, m) / 8], Origin(j, m) % 8)
  {
    hide Expand0, Expand1, Expand2, Bit, Origin;
    if j < 3 {
      ExpandFirst(r, j, m);
    } else {
      var turned := r[2..] + r[..2];
      ExpandFirst(turned, j - 3, m);
      OriginTurned(j - 3, m);
      assert Expand(turned)[j - 3] == Expand(r)[j];
    }
  }

  /** The shifts and masks are the E table. */
  lemma ExpandIsExpansion(r: seq<Byte>)
    requires |r| == 4
    ensures BitsOf(Expand(r)) == Select(Expansion(), BitsOf(r))
  {
    hide Expand, Bit, Expansion, Origin;
    forall k | 0 <= k < 48
      ensures BitsOf(Expand(r))[k] == Select(Expansion(), BitsOf(r))[k]
    {
      ExpandBit(r, k / 8, k % 8);
      ExpansionAt(k);
      assert 8 * (k / 8) + k % 8 == k;
    }
  }

  // ---- the selection functions by pairs ----

  /** getcomp: the entry of selection function `k` for the six-bit number `v`. */
  function GetComp(k: nat, v: nat): (n: nat)
    requires k < 8 && v < 64
    ensures n < 16
  {
    var i := v / 32 % 2 * 2 + v % 2;
    var j := v % 32 / 2;
    BoxAt(k, i, j)
  }

  function Number6(b: Bits): (v: nat)
    requires |b| == 6
    ensures v < 64
  {
    32 * Value(b[0]) + 16 * Value(b[1]) + 8 * Value(b[2]) + 4 * Value(b[3]) + 2 * Value(b[4]) + Value(b[5])
  }

  lemma GetCompIsBox(k: nat, b: Bits)
    requires k < 8 && |b| == 6
    ensures GetComp(k, Number6(b)) == BoxEntry(k, b)
  {
    hide BoxAt;
    var v := Number6(b);
    assert v / 32 % 2 == Value(b[0]) && v % 2 == Value(b[5]);
  }

  lemma PackBits(a: nat, b: nat)
    requires a < 16 && b < 16
    ensures BitsOf([Pack(a, b)]) == FourBits(a) + FourBits(b)
  {
    hide Bit, BitsOf, Pack, HighNibble, LowNibble, FourBits;
    var e := Pack(a, b);
    PackValue(a, b);
    NibbleValues(e);
    NibbleBits(a, Bit(e, 0), Bit(e, 1), Bit(e, 2), Bit(e, 3));
    NibbleBits(b, Bit(e, 4), Bit(e, 5), Bit(e, 6), Bit(e, 7));
    EightBits(e);
    FourAndFour(Bit(e, 0), Bit(e, 1), Bit(e, 2), Bit(e, 3), Bit(e, 4), Bit(e, 5), Bit(e, 6), Bit(e, 7));
  }

  lemma FourAndFour(a: bool, b: bool, c: bool, d: bool, e: bool, f: bool, g: bool, h: bool)
    ensures [a, b, c, d, e, f, g, h] == [a, b, c, d] + [e, f, g, h]
  {
  }

  lemma NibbleBits(n: nat, b0: bool, b1: bool, b2: bool, b3: bool)
    requires n < 16 && n == 8 * Value(b0) + 4 * Value(b1) + 2 * Value(b2) + Value(b3)
    ensures FourBits(n) == [b0, b1, b2, b3]
  {
  }

  /** The index of a pair of selection functions: twelve consecutive bits. */
  function Index(b: Bits): (v: nat)
    requires |b| == 12
    ensures v < 4096
  {
    64 * Number6(b[..6]) + Number6(b[6..])
  }

  function FirstIndex(a: Byte, b: Byte): (v: nat)
    ensures v < 4096
  {
    a as nat * 16 + HighNibble(b)
  }

  function SecondIndex(a: Byte, b: Byte): (v: nat)
    ensures v < 4096
  {
    LowNibble(a) * 256 + b as nat
  }

  function FourAt(x: Bits, at: nat): nat
    requires at + 4 <= |x|
  {
    8 * Value(x[at]) + 4 * Value(x[at + 1]) + 2 * Value(x[at + 2]) + Value(x[at + 3])
  }

  lemma Number6At(x: Bits, at: nat)
    requires at + 6 <= |x|
    ensures Number6(x[at..at + 6]) == 32 * Value(x[at]) + 16 * Value(x[at + 1]) + 8 * Value(x[at + 2])
                                      + 4 * Value(x[at + 3]) + 2 * Value(x[at + 4]) + Value(x[at + 5])
  {
    hide Value;
  }

  /** Twelve bits as an index are three nibbles. */
  lemma IndexAt(x: Bits, at: nat)
    requires at + 12 <= |x|
    ensures Index(x[at..at + 12]) == 256 * FourAt(x, at) + 16 * FourAt(x, at + 4) + FourAt(x, at + 8)
  {
    hide Value, Number6;
    SliceOfSlice(x, at, at + 12, 0, 6);
    SliceOfSlice(x, at, at + 12, 6, 12);
    assert x[at..at + 12][..6] == x[at..at + 12][0..6] && x[at..at + 12][6..] == x[at..at + 12][6..12];
    Number6At(x, at);
    Number6At(x, at + 6);
  }

  lemma FourFrom(x: Bits, at: nat, b: Byte, m: nat)
    requires at + 4 <= |x| && (m == 0 || m == 4)
    requires x[at] == Bit(b, m) && x[at + 1] == Bit(b, m + 1) && x[at + 2] == Bit(b, m + 2)
    requires x[at + 3] == Bit(b, m + 3)
    ensures FourAt(x, at) == if m == 0 then HighNibble(b) else LowNibble(b)
  {
    hide Bit, HighNibble, LowNibble, Value;
    NibbleValues(b);
    if m == 0 {
      assert x[at] == Bit(b, 0) && x[at + 1] == Bit(b, 1) && x[at + 2] == Bit(b, 2) && x[at + 3] == Bit(b, 3);
    } else {
      assert x[at] == Bit(b, 4) && x[at + 1] == Bit(b, 5) && x[at + 2] == Bit(b, 6) && x[at + 3] == Bit(b, 7);
    }
  }

  lemma NibblesOfPair(a: Byte, b: Byte)
    ensures var x := BitsOf([a, b]);
            && FourAt(x, 0) == HighNibble(a) && FourAt(x, 4) == LowNibble(a)
            && FourAt(x, 8) == HighNibble(b) && FourAt(x, 12) == LowNibble(b)
  {
    hide Bit, HighNibble, LowNibble, BitsOf, FourAt;
    var x := BitsOf([a, b]);
    PairBits(a, b);
    FourFrom(x, 0, a, 0);
    FourFrom(x, 4, a, 4);
    FourFrom(x, 8, b, 0);
    FourFrom(x, 12, b, 4);
  }

  lemma Indices(a: Byte, b: Byte)
    ensures FirstIndex(a, b) == Index(BitsOf([a, b])[0..12])
    ensures SecondIndex(a, b) == Index(BitsOf([a, b])[4..16])
  {
    hide HighNibble, LowNibble, BitsOf, Index, FourAt;
    NibblesSplit(a);
    NibblesSplit(b);
    NibblesOfPair(a, b);
    IndexAt(BitsOf([a, b]), 0);
    IndexAt(BitsOf([a, b]), 4);
  }

  lemma PairBits(a: Byte, b: Byte)
    ensures forall m :: 0 <= m < 16 ==> BitsOf([a, b])[m] == if m < 8 then Bit(a, m) else Bit(b, m - 8)
  {
    hide Bit;
  }

  /** The entry for index `v` in row `i` of the table of pairs. */
  function Compression(i: nat, v: nat): Byte
    requires i < 4 && v < 4096
  {
    Pack(GetComp(2 * i, v / 64), GetComp(2 * i + 1, v % 64))
  }

  lemma CompressionIsBoxes(i: nat, b: Bits)
    requires i < 4 && |b| == 12
    ensures BitsOf([Compression(i, Index(b))])
            == FourBits(BoxEntry(2 * i, b[..6])) + FourBits(BoxEntry(2 * i + 1, b[6..]))
  {
    hide Number6, BoxEntry, GetComp, FourBits, BitsOf, Pack;
    var v := Index(b);
    assert v / 64 == Number6(b[..6]) && v % 64 == Number6(b[6..]);
    GetCompIsBox(2 * i, b[..6]);
    GetCompIsBox(2 * i + 1, b[6..]);
    PackBits(GetComp(2 * i, v / 64), GetComp(2 * i + 1, v % 64));
  }

  /** contract: 48 bits to 32 through the table of pairs. */
  function Contract(s: seq<Byte>): (c: seq<Byte>)
    requires |s| == 6
    ensures |c| == 4
  {
    [Compression(0, FirstIndex(s[0], s[1])), Compression(1, SecondIndex(s[1], s[2])),
     Compression(2, FirstIndex(s[3], s[4])), Compression(3, SecondIndex(s[4], s[5]))]
  }

  lemma ContractByte(s: seq<Byte>, i: nat)
    requires |s| == 6 && i < 4
    ensures var x := BitsOf(s);
            BitsOf([Contract(s)[i]])
            == FourBits(BoxEntry(2 * i, x[12 * i..12 * i + 6]))
               + FourBits(BoxEntry(2 * i + 1, x[12 * i + 6..12 * i + 12]))
  {
    hide Compression, FirstIndex, SecondIndex, BoxEntry, FourBits, BitsOf, Index;
    var x := BitsOf(s);
    var b := x[12 * i..12 * i + 12];
    var at := 3 * (i / 2) + i % 2;
    Indices(s[at], s[at + 1]);
    BitsOfSlice(s, at, at + 2);
    assert s[at..at + 2] == [s[at], s[at + 1]];
    var y := BitsOf([s[at], s[at + 1]]);
    assert b == if i % 2 == 0 then y[0..12] else y[4..16] by {
      if i % 2 == 0 {
        assert 8 * at == 12 * i;
        SliceOfSlice(x, 8 * at, 8 * at + 16, 0, 12);
      } else {
        assert 8 * at + 4 == 12 * i;
        SliceOfSlice(x, 8 * at, 8 * at + 16, 4, 16);
      }
    }
    CompressionIsBoxes(i, b);
    assert b[..6] == x[12 * i..12 * i + 6] && b[6..] == x[12 * i + 6..12 * i + 12];
  }

  lemma BoxesTwo(x: Bits, i: nat)
    requires |x| == 48 && i < 4
    ensures Boxes(x, 2 * i + 2) == Boxes(x, 2 * i)
                                   + (FourBits(BoxEntry(2 * i, x[12 * i..12 * i + 6]))
                                      + FourBits(BoxEntry(2 * i + 1, x[12 * i + 6..12 * i + 12])))
  {
    hide BoxEntry, FourBits;
    assert Boxes(x, 2 * i + 2) == Boxes(x, 2 * i + 1) + FourBits(BoxEntry(2 * i + 1, x[12 * i + 6..12 * i + 12]));
    ConcatAssociative(Boxes(x, 2 * i), FourBits(BoxEntry(2 * i, x[12 * i..12 * i + 6])),
                      FourBits(BoxEntry(2 * i + 1, x[12 * i + 6..12 * i + 12])));
  }

  lemma {:induction false} ContractPrefix(s: seq<Byte>, i: nat)
    requires |s| == 6 && i <= 4
    ensures BitsOf(Contract(s)[..i]) == Boxes(BitsOf(s), 2 * i)
  {
    hide Contract, BitsOf, BoxEntry, FourBits;
    if i == 0 {
      assert BitsOf([]) == [];
    } else {
      ContractPrefix(s, i - 1);
      ContractByte(s, i - 1);
      BoxesTwo(BitsOf(s), i - 1);
      BitsOfConcat(Contract(s)[..i - 1], [Contract(s)[i - 1]]);
      assert Contract(s)[..i] == Contract(s)[..i - 1] + [Contract(s)[i - 1]];
    }
  }

  /** The table of pairs is the eight selection functions. */
  lemma ContractIsBoxes(s: seq<Byte>)
    requires |s| == 6
    ensures BitsOf(Contract(s)) == Boxes(BitsOf(s), 8)
  {
    hide Contract, BitsOf, Boxes;
    ContractPrefix(s, 4);
    assert Contract(s)[..4] == Contract(s);
  }

  // ---- the key schedule ----

  /** The bit of `cd` the source picks for place `j` in iteration `i`, counted from 0. */
  function RotatedPlace(i: nat, j: nat): (l: nat)
    requires i < 16 && j < 56
    ensures l < 56
  {
    ShiftsAddUp(i);
    var l := j + TOTROT[i];
    if l < (if j < 28 then 28 else 56) then l else l - 28
  }

  lemma RotatedHalves(cd: Bits, i: nat, j: nat)
    requires |cd| == 56 && i < 16 && j < 56
    ensures (HalfAfter(cd[..28], i + 1) + HalfAfter(cd[28..], i + 1))[j] == cd[RotatedPlace(i, j)]
  {
    hide HalfAfter;
    if j < 28 {
      HalfIsRotated(cd[..28], i + 1, j);
    } else {
      HalfIsRotated(cd[28..], i + 1, j - 28);
    }
  }

  /** The source's one rotation by the total is the schedule of FIPS 46-3. */
  lemma RoundKeyIsRotated(key: Bits, i: nat, mpcr: Bits)
    requires |key| == 64 && i < 16 && |mpcr| == 56
    requires forall j :: 0 <= j < 56 ==> mpcr[j] == Select(Choice1(), key)[RotatedPlace(i, j)]
    ensures Select(Choice2(), mpcr) == RoundKey(key, i + 1)
  {
    hide Select, Choice1, Choice2, HalfAfter, RotatedPlace;
    var cd := Select(Choice1(), key);
    var r := HalfAfter(cd[..28], i + 1) + HalfAfter(cd[28..], i + 1);
    forall j | 0 <= j < 56
      ensures mpcr[j] == r[j]
    {
      RotatedHalves(cd, i, j);
    }
    assert mpcr == r;
  }
}
