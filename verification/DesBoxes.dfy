/** The selection functions of FIPS 46-3 as they are printed in hexadecimal, and criteria they were designed to meet. */
module DesBoxes {
  import opened ByteBits
  import opened DesRefinement
  import opened DesStandard

  /** Row `r` of selection function `k`, one digit to an entry. */
  function HexRow(k: nat, r: nat): bv64
    requires k < 8 && r < 4
  {
    if k == 0 then
      if r == 0 then 0xe4d1_2fb8_3a6c_5907 else if r == 1 then 0x0f74_e2d1_a6cb_9538
      else if r == 2 then 0x41e8_d62b_fc97_3a50 else 0xfc82_4917_5b3e_a06d
    else if k == 1 then
      if r == 0 then 0xf18e_6b34_972d_c05a else if r == 1 then 0x3d47_f28e_c01a_69b5
      else if r == 2 then 0x0e7b_a4d1_58c6_932f else 0xd8a1_3f42_b67c_05e9
    else if k == 2 then
      if r == 0 then 0xa09e_63f5_1dc7_b428 else if r == 1 then 0xd709_346a_285e_cbf1
      else if r == 2 then 0xd649_8f30_b12c_5ae7 else 0x1ad0_6987_4fe3_b52c
    else if k == 3 then
      if r == 0 then 0x7de3_069a_1285_bc4f else if r == 1 then 0xd8b5_6f03_472c_1ae9
      else if r == 2 then 0xa690_cb7d_f13e_5284 else 0x3f06_a1d8_945b_c72e
    else if k == 4 then
      if r == 0 then 0x2c41_7ab6_853f_d0e9 else if r == 1 then 0xeb2c_47d1_50fa_3986
      else if r == 2 then 0x421b_ad78_f9c5_630e else 0xb8c7_1e2d_6f09_a453
    else if k == 5 then
      if r == 0 then 0xc1af_9268_0d34_e75b else if r == 1 then 0xaf42_7c95_61de_0b38
      else if r == 2 then 0x9ef5_28c3_704a_1db6 else 0x432c_95fa_be17_608d
    else if k == 6 then
      if r == 0 then 0x4b2e_f08d_3c97_5a61 else if r == 1 then 0xd0b7_491a_e35c_2f86
      else if r == 2 then 0x14bd_c37e_af68_0592 else 0x6bd8_14a7_950f_e23c
    else
      if r == 0 then 0xd284_6fb1_a93e_50c7 else if r == 1 then 0x1fd8_a374_c56b_0e92
      else if r == 2 then 0x7b41_9ce2_06ad_f358 else 0x21e7_4a8d_fc90_356b
  }

  /** Digit `c` of a row. */
  function Digit(w: bv64, c: nat): (d: bv64)
    requires c < 16
    ensures d < 16
  {
    if c == 0 then ((w >> 60) & 0xf) else if c == 1 then ((w >> 56) & 0xf)
    else if c == 2 then ((w >> 52) & 0xf) else if c == 3 then ((w >> 48) & 0xf)
    else if c == 4 then ((w >> 44) & 0xf) else if c == 5 then ((w >> 40) & 0xf)
    else if c == 6 then ((w >> 36) & 0xf) else if c == 7 then ((w >> 32) & 0xf)
    else if c == 8 then ((w >> 28) & 0xf) else if c == 9 then ((w >> 24) & 0xf)
    else if c == 10 then ((w >> 20) & 0xf) else if c == 11 then ((w >> 16) & 0xf)
    else if c == 12 then ((w >> 12) & 0xf) else if c == 13 then ((w >> 8) & 0xf)
    else if c == 14 then ((w >> 4) & 0xf) else w & 0xf
  }

  function Number(w: bv64, c: nat): int
    requires c < 16
  {
    Digit(w, c) as int
  }

  function Digits(w: bv64): (s: seq<int>)
    ensures |s| == 16
  {
    [((w >> 60) & 0xf) as int, ((w >> 56) & 0xf) as int, ((w >> 52) & 0xf) as int, ((w >> 48) & 0xf) as int,
     ((w >> 44) & 0xf) as int, ((w >> 40) & 0xf) as int, ((w >> 36) & 0xf) as int, ((w >> 32) & 0xf) as int,
     ((w >> 28) & 0xf) as int, ((w >> 24) & 0xf) as int, ((w >> 20) & 0xf) as int, ((w >> 16) & 0xf) as int,
     ((w >> 12) & 0xf) as int, ((w >> 8) & 0xf) as int, ((w >> 4) & 0xf) as int, ((w >> 0) & 0xf) as int]
  }

  lemma WrittenOut(w: bv64)
    ensures Digit(w, 0) == (w >> 60) & 0xf && Digit(w, 1) == (w >> 56) & 0xf
    ensures Digit(w, 2) == (w >> 52) & 0xf && Digit(w, 3) == (w >> 48) & 0xf
    ensures Digit(w, 4) == (w >> 44) & 0xf && Digit(w, 5) == (w >> 40) & 0xf
    ensures Digit(w, 6) == (w >> 36) & 0xf && Digit(w, 7) == (w >> 32) & 0xf
    ensures Digit(w, 8) == (w >> 28) & 0xf && Digit(w, 9) == (w >> 24) & 0xf
    ensures Digit(w, 10) == (w >> 20) & 0xf && Digit(w, 11) == (w >> 16) & 0xf
    ensures Digit(w, 12) == (w >> 12) & 0xf && Digit(w, 13) == (w >> 8) & 0xf
    ensures Digit(w, 14) == (w >> 4) & 0xf && Digit(w, 15) == (w >> 0) & 0xf
  {
  }

  lemma FirstInOrder(w: bv64)
    ensures Digits(w)[0] == Number(w, 0) && Digits(w)[1] == Number(w, 1)
    ensures Digits(w)[2] == Number(w, 2) && Digits(w)[3] == Number(w, 3)
    ensures Digits(w)[4] == Number(w, 4) && Digits(w)[5] == Number(w, 5)
    ensures Digits(w)[6] == Number(w, 6) && Digits(w)[7] == Number(w, 7)
  {
    hide Digit;
    WrittenOut(w);
  }

  lemma LastInOrder(w: bv64)
    ensures Digits(w)[8] == Number(w, 8) && Digits(w)[9] == Number(w, 9)
    ensures Digits(w)[10] == Number(w, 10) && Digits(w)[11] == Number(w, 11)
    ensures Digits(w)[12] == Number(w, 12) && Digits(w)[13] == Number(w, 13)
    ensures Digits(w)[14] == Number(w, 14) && Digits(w)[15] == Number(w, 15)
  {
    hide Digit;
    WrittenOut(w);
  }

  lemma DigitsAt(w: bv64, c: nat)
    requires c < 16
    ensures Digits(w)[c] == Number(w, c)
  {
    hide Number, Digits;
    FirstInOrder(w);
    LastInOrder(w);
  }

  lemma Box1(r: nat)
    requires r < 4
    ensures |SI| == 8 && |SI[0]| == 4 && SI[0][r] == Digits(HexRow(0, r))
  {
  }

  lemma Box2(r: nat)
    requires r < 4
    ensures |SI| == 8 && |SI[1]| == 4 && SI[1][r] == Digits(HexRow(1, r))
  {
  }

  lemma Box3(r: nat)
    requires r < 4
    ensures |SI| == 8 && |SI[2]| == 4 && SI[2][r] == Digits(HexRow(2, r))
  {
  }

  lemma Box4(r: nat)
    requires r < 4
    ensures |SI| == 8 && |SI[3]| == 4 && SI[3][r] == Digits(HexRow(3, r))
  {
  }

  lemma Box5(r: nat)
    requires r < 4
    ensures |SI| == 8 && |SI[4]| == 4 && SI[4][r] == Digits(HexRow(4, r))
  {
  }

  lemma Box6(r: nat)
    requires r < 4
    ensures |SI| == 8 && |SI[5]| == 4 && SI[5][r] == Digits(HexRow(5, r))
  {
  }

  lemma Box7(r: nat)
    requires r < 4
    ensures |SI| == 8 && |SI[6]| == 4 && SI[6][r] == Digits(HexRow(6, r))
  {
  }

  lemma Box8(r: nat)
    requires r < 4
    ensures |SI| == 8 && |SI[7]| == 4 && SI[7][r] == Digits(HexRow(7, r))
  {
  }

  /** The rows of FIPS 46-3 in hexadecimal are the source's table. */
  lemma EntryIs(k: nat, row: nat, column: nat)
    requires k < 8 && row < 4 && column < 16
    ensures BoxAt(k, row, column) == Digit(HexRow(k, row), column) as int
  {
    hide HexRow, Digit, Digits;
    DigitsAt(HexRow(k, row), column);
    if k == 0 { Box1(row); } else if k == 1 { Box2(row); } else if k == 2 { Box3(row); }
    else if k == 3 { Box4(row); } else if k == 4 { Box5(row); } else if k == 5 { Box6(row); }
    else if k == 6 { Box7(row); } else { Box8(row); }
  }

  // ---- the entries of a row ----

  lemma Distinct1(r: nat, c: nat, d: nat)
    requires r < 4 && c < d < 16
    ensures |SI| == 8 && |SI[0]| == 4 && |SI[0][r]| == 16 && SI[0][r][c] != SI[0][r][d]
  {
  }

  lemma Distinct2(r: nat, c: nat, d: nat)
    requires r < 4 && c < d < 16
    ensures |SI| == 8 && |SI[1]| == 4 && |SI[1][r]| == 16 && SI[1][r][c] != SI[1][r][d]
  {
  }

  lemma Distinct3(r: nat, c: nat, d: nat)
    requires r < 4 && c < d < 16
    ensures |SI| == 8 && |SI[2]| == 4 && |SI[2][r]| == 16 && SI[2][r][c] != SI[2][r][d]
  {
  }

  lemma Distinct4(r: nat, c: nat, d: nat)
    requires r < 4 && c < d < 16
    ensures |SI| == 8 && |SI[3]| == 4 && |SI[3][r]| == 16 && SI[3][r][c] != SI[3][r][d]
  {
  }

  lemma Distinct5(r: nat, c: nat, d: nat)
    requires r < 4 && c < d < 16
    ensures |SI| == 8 && |SI[4]| == 4 && |SI[4][r]| == 16 && SI[4][r][c] != SI[4][r][d]
  {
  }

  lemma Distinct6(r: nat, c: nat, d: nat)
    requires r < 4 && c < d < 16
    ensures |SI| == 8 && |SI[5]| == 4 && |SI[5][r]| == 16 && SI[5][r][c] != SI[5][r][d]
  {
  }

  lemma Distinct7(r: nat, c: nat, d: nat)
    requires r < 4 && c < d < 16
    ensures |SI| == 8 && |SI[6]| == 4 && |SI[6][r]| == 16 && SI[6][r][c] != SI[6][r][d]
  {
  }

  lemma Distinct8(r: nat, c: nat, d: nat)
    requires r < 4 && c < d < 16
    ensures |SI| == 8 && |SI[7]| == 4 && |SI[7][r]| == 16 && SI[7][r][c] != SI[7][r][d]
  {
  }

  /** Each row is a permutation of 0 to 15: its sixteen entries, all below 16, are distinct. */
  lemma RowIsPermutation(k: nat, row: nat, c: nat, d: nat)
    requires k < 8 && row < 4 && c < 16 && d < 16
    ensures BoxAt(k, row, c) == BoxAt(k, row, d) <==> c == d
  {
    if c != d {
      var a, b := if c < d then c else d, if c < d then d else c;
      if k == 0 { Distinct1(row, a, b); } else if k == 1 { Distinct2(row, a, b); }
      else if k == 2 { Distinct3(row, a, b); } else if k == 3 { Distinct4(row, a, b); }
      else if k == 4 { Distinct5(row, a, b); } else if k == 5 { Distinct6(row, a, b); }
      else if k == 6 { Distinct7(row, a, b); } else { Distinct8(row, a, b); }
    }
  }

  // ---- flipped input bits ----

  /** In how many places two entries differ. */
  function Differences(a: Bits, b: Bits): nat
    requires |a| == |b| == 4
  {
    Value(a[0] != b[0]) + Value(a[1] != b[1]) + Value(a[2] != b[2]) + Value(a[3] != b[3])
  }

  lemma DigitBits(x: bv64)
    requires x < 16
    ensures FourBits(x as int) == [x & 8 != 0, x & 4 != 0, x & 2 != 0, x & 1 != 0]
  {
    DigitValue(x);
    NibbleBits(x as int, x & 8 != 0, x & 4 != 0, x & 2 != 0, x & 1 != 0);
  }

  lemma DigitValue(x: bv64)
    requires x < 16
    ensures x as int == 8 * Value(x & 8 != 0) + 4 * Value(x & 4 != 0) + 2 * Value(x & 2 != 0) + Value(x & 1 != 0)
  {
  }

  /** Each digit of one row differs from that of the other in at least two bits. */
  predicate Apart(v: bv64, w: bv64)
  {
    var d := v ^ w;
    var a, b := d & 0x1111_1111_1111_1111, (d >> 1) & 0x1111_1111_1111_1111;
    var c, e := (d >> 2) & 0x1111_1111_1111_1111, (d >> 3) & 0x1111_1111_1111_1111;
    (a & b) | (a & c) | (a & e) | (b & c) | (b & e) | (c & e) == 0x1111_1111_1111_1111
  }

  predicate ApartDigits(x: bv64, y: bv64)
  {
    var d := x ^ y;
    || (d & 1 != 0 && d & 2 != 0) || (d & 1 != 0 && d & 4 != 0) || (d & 1 != 0 && d & 8 != 0)
    || (d & 2 != 0 && d & 4 != 0) || (d & 2 != 0 && d & 8 != 0) || (d & 4 != 0 && d & 8 != 0)
  }

  lemma ApartBits(x: bv64, y: bv64)
    requires x < 16 && y < 16 && ApartDigits(x, y)
    ensures Differences(FourBits(x as int), FourBits(y as int)) >= 2
  {
    hide FourBits;
    DigitBits(x);
    DigitBits(y);
  }

  lemma UpperApart(v: bv64, w: bv64)
    requires Apart(v, w)
    ensures ApartDigits((v >> 60) & 0xf, (w >> 60) & 0xf)
    ensures ApartDigits((v >> 56) & 0xf, (w >> 56) & 0xf)
    ensures ApartDigits((v >> 52) & 0xf, (w >> 52) & 0xf)
    ensures ApartDigits((v >> 48) & 0xf, (w >> 48) & 0xf)
    ensures ApartDigits((v >> 44) & 0xf, (w >> 44) & 0xf)
    ensures ApartDigits((v >> 40) & 0xf, (w >> 40) & 0xf)
    ensures ApartDigits((v >> 36) & 0xf, (w >> 36) & 0xf)
    ensures ApartDigits((v >> 32) & 0xf, (w >> 32) & 0xf)
  {
  }

  lemma LowerApart(v: bv64, w: bv64)
    requires Apart(v, w)
    ensures ApartDigits((v >> 28) & 0xf, (w >> 28) & 0xf)
    ensures ApartDigits((v >> 24) & 0xf, (w >> 24) & 0xf)
    ensures ApartDigits((v >> 20) & 0xf, (w >> 20) & 0xf)
    ensures ApartDigits((v >> 16) & 0xf, (w >> 16) & 0xf)
    ensures ApartDigits((v >> 12) & 0xf, (w >> 12) & 0xf)
    ensures ApartDigits((v >> 8) & 0xf, (w >> 8) & 0xf)
    ensures ApartDigits((v >> 4) & 0xf, (w >> 4) & 0xf)
    ensures ApartDigits((v >> 0) & 0xf, (w >> 0) & 0xf)
  {
  }

  lemma ApartAt(v: bv64, w: bv64, c: nat)
    requires c < 16 && Apart(v, w)
    ensures ApartDigits(Digit(v, c), Digit(w, c))
  {
    hide Apart, ApartDigits, Digit;
    WrittenOut(v);
    WrittenOut(w);
    UpperApart(v, w);
    LowerApart(v, w);
  }

  lemma ApartSymmetric(v: bv64, w: bv64)
    requires Apart(v, w)
    ensures Apart(w, v)
  {
  }

  lemma FirstBit(k: nat, r: nat)
    requires k < 8 && r < 2
    ensures Apart(HexRow(k, r), HexRow(k, r + 2))
  {
  }

  lemma LastBit(k: nat, r: nat)
    requires k < 8 && (r == 0 || r == 2)
    ensures Apart(HexRow(k, r), HexRow(k, r + 1))
  {
  }

  /** `n` with the binary digit of value `m` flipped. */
  function Flipped(n: nat, m: nat): nat
    requires m > 0
  {
    if n / m % 2 == 0 then n + m else n - m
  }

  /** A row with every digit and its neighbour at distance `m` exchanged. */
  function Exchanged(w: bv64, m: nat): bv64
  {
    if m == 1 then ((w >> 4) & 0x0f0f_0f0f_0f0f_0f0f) | ((w << 4) & 0xf0f0_f0f0_f0f0_f0f0)
    else if m == 2 then ((w >> 8) & 0x00ff_00ff_00ff_00ff) | ((w << 8) & 0xff00_ff00_ff00_ff00)
    else if m == 4 then ((w >> 16) & 0x0000_ffff_0000_ffff) | ((w << 16) & 0xffff_0000_ffff_0000)
    else (w >> 32) | (w << 32)
  }

  lemma Exchanged1(w: bv64)
    ensures Digit(Exchanged(w, 1), 0) == Digit(w, 1) && Digit(Exchanged(w, 1), 1) == Digit(w, 0)
    ensures Digit(Exchanged(w, 1), 2) == Digit(w, 3) && Digit(Exchanged(w, 1), 3) == Digit(w, 2)
    ensures Digit(Exchanged(w, 1), 4) == Digit(w, 5) && Digit(Exchanged(w, 1), 5) == Digit(w, 4)
    ensures Digit(Exchanged(w, 1), 6) == Digit(w, 7) && Digit(Exchanged(w, 1), 7) == Digit(w, 6)
    ensures Digit(Exchanged(w, 1), 8) == Digit(w, 9) && Digit(Exchanged(w, 1), 9) == Digit(w, 8)
    ensures Digit(Exchanged(w, 1), 10) == Digit(w, 11) && Digit(Exchanged(w, 1), 11) == Digit(w, 10)
    ensures Digit(Exchanged(w, 1), 12) == Digit(w, 13) && Digit(Exchanged(w, 1), 13) == Digit(w, 12)
    ensures Digit(Exchanged(w, 1), 14) == Digit(w, 15) && Digit(Exchanged(w, 1), 15) == Digit(w, 14)
  {
    hide Digit;
    WrittenOut(w);
    WrittenOut(Exchanged(w, 1));
  }

  lemma Exchanged2(w: bv64)
    ensures Digit(Exchanged(w, 2), 0) == Digit(w, 2) && Digit(Exchanged(w, 2), 1) == Digit(w, 3)
    ensures Digit(Exchanged(w, 2), 2) == Digit(w, 0) && Digit(Exchanged(w, 2), 3) == Digit(w, 1)
    ensures Digit(Exchanged(w, 2), 4) == Digit(w, 6) && Digit(Exchanged(w, 2), 5) == Digit(w, 7)
    ensures Digit(Exchanged(w, 2), 6) == Digit(w, 4) && Digit(Exchanged(w, 2), 7) == Digit(w, 5)
    ensures Digit(Exchanged(w, 2), 8) == Digit(w, 10) && Digit(Exchanged(w, 2), 9) == Digit(w, 11)
    ensures Digit(Exchanged(w, 2), 10) == Digit(w, 8) && Digit(Exchanged(w, 2), 11) == Digit(w, 9)
    ensures Digit(Exchanged(w, 2), 12) == Digit(w, 14) && Digit(Exchanged(w, 2), 13) == Digit(w, 15)
    ensures Digit(Exchanged(w, 2), 14) == Digit(w, 12) && Digit(Exchanged(w, 2), 15) == Digit(w, 13)
  {
    hide Digit;
    WrittenOut(w);
    WrittenOut(Exchanged(w, 2));
  }

  lemma Exchanged4(w: bv64)
    ensures Digit(Exchanged(w, 4), 0) == Digit(w, 4) && Digit(Exchanged(w, 4), 1) == Digit(w, 5)
    ensures Digit(Exchanged(w, 4), 2) == Digit(w, 6) && Digit(Exchanged(w, 4), 3) == Digit(w, 7)
    ensures Digit(Exchanged(w, 4), 4) == Digit(w, 0) && Digit(Exchanged(w, 4), 5) == Digit(w, 1)
    ensures Digit(Exchanged(w, 4), 6) == Digit(w, 2) && Digit(Exchanged(w, 4), 7) == Digit(w, 3)
    ensures Digit(Exchanged(w, 4), 8) == Digit(w, 12) && Digit(Exchanged(w, 4), 9) == Digit(w, 13)
    ensures Digit(Exchanged(w, 4), 10) == Digit(w, 14) && Digit(Exchanged(w, 4), 11) == Digit(w, 15)
    ensures Digit(Exchanged(w, 4), 12) == Digit(w, 8) && Digit(Exchanged(w, 4), 13) == Digit(w, 9)
    ensures Digit(Exchanged(w, 4), 14) == Digit(w, 10) && Digit(Exchanged(w, 4), 15) == Digit(w, 11)
  {
    hide Digit;
    WrittenOut(w);
    WrittenOut(Exchanged(w, 4));
  }

  lemma Exchanged8(w: bv64)
    ensures Digit(Exchanged(w, 8), 0) == Digit(w, 8) && Digit(Exchanged(w, 8), 1) == Digit(w, 9)
    ensures Digit(Exchanged(w, 8), 2) == Digit(w, 10) && Digit(Exchanged(w, 8), 3) == Digit(w, 11)
    ensures Digit(Exchanged(w, 8), 4) == Digit(w, 12) && Digit(Exchanged(w, 8), 5) == Digit(w, 13)
    ensures Digit(Exchanged(w, 8), 6) == Digit(w, 14) && Digit(Exchanged(w, 8), 7) == Digit(w, 15)
    ensures Digit(Exchanged(w, 8), 8) == Digit(w, 0) && Digit(Exchanged(w, 8), 9) == Digit(w, 1)
    ensures Digit(Exchanged(w, 8), 10) == Digit(w, 2) && Digit(Exchanged(w, 8), 11) == Digit(w, 3)
    ensures Digit(Exchanged(w, 8), 12) == Digit(w, 4) && Digit(Exchanged(w, 8), 13) == Digit(w, 5)
    ensures Digit(Exchanged(w, 8), 14) == Digit(w, 6) && Digit(Exchanged(w, 8), 15) == Digit(w, 7)
  {
    hide Digit;
    WrittenOut(w);
    WrittenOut(Exchanged(w, 8));
  }

  lemma NeighboursAt(w: bv64, m: nat, c: nat)
    requires c < 16 && (m == 1 || m == 2)
    ensures Flipped(c, m) < 16 && Digit(Exchanged(w, m), c) == Digit(w, Flipped(c, m))
  {
    hide Exchanged, Digit;
    if m == 1 {
      Exchanged1(w);
    } else {
      Exchanged2(w);
    }
  }

  lemma ExchangedAt(w: bv64, m: nat, c: nat)
    requires c < 16 && (m == 1 || m == 2 || m == 4 || m == 8)
    ensures Flipped(c, m) < 16 && Digit(Exchanged(w, m), c) == Digit(w, Flipped(c, m))
  {
    hide Exchanged, Digit;
    if m == 4 {
      Exchanged4(w);
    } else if m == 8 {
      Exchanged8(w);
    } else {
      hide Flipped;
      NeighboursAt(w, m, c);
    }
  }

  lemma OnceLeft(k: nat, r: nat)
    requires k < 4 && r < 4
    ensures Apart(HexRow(k, r), Exchanged(HexRow(k, r), 1))
  {
  }

  lemma TwiceLeft(k: nat, r: nat)
    requires k < 4 && r < 4
    ensures Apart(HexRow(k, r), Exchanged(HexRow(k, r), 2))
  {
  }

  lemma FoursLeft(k: nat, r: nat)
    requires k < 4 && r < 4
    ensures Apart(HexRow(k, r), Exchanged(HexRow(k, r), 4))
  {
  }

  lemma EightsLeft(k: nat, r: nat)
    requires k < 4 && r < 4
    ensures Apart(HexRow(k, r), Exchanged(HexRow(k, r), 8))
  {
  }

  lemma OnceRight(k: nat, r: nat)
    requires 4 <= k < 8 && r < 4
    ensures Apart(HexRow(k, r), Exchanged(HexRow(k, r), 1))
  {
  }

  lemma TwiceRight(k: nat, r: nat)
    requires 4 <= k < 8 && r < 4
    ensures Apart(HexRow(k, r), Exchanged(HexRow(k, r), 2))
  {
  }

  lemma FoursRight(k: nat, r: nat)
    requires 4 <= k < 8 && r < 4
    ensures Apart(HexRow(k, r), Exchanged(HexRow(k, r), 4))
  {
  }

  lemma EightsRight(k: nat, r: nat)
    requires 4 <= k < 8 && r < 4
    ensures Apart(HexRow(k, r), Exchanged(HexRow(k, r), 8))
  {
  }

  lemma InnerBits(k: nat, r: nat, m: nat)
    requires k < 8 && r < 4 && (m == 1 || m == 2 || m == 4 || m == 8)
    ensures Apart(HexRow(k, r), Exchanged(HexRow(k, r), m))
  {
    hide Apart, HexRow, Exchanged;
    if k < 4 {
      OnceLeft(k, r);
      TwiceLeft(k, r);
      FoursLeft(k, r);
      EightsLeft(k, r);
    } else {
      OnceRight(k, r);
      TwiceRight(k, r);
      FoursRight(k, r);
      EightsRight(k, r);
    }
  }

  lemma MiddleLeft(k: nat, r: nat)
    requires k < 4 && r < 4
    ensures Apart(HexRow(k, r), Exchanged(Exchanged(HexRow(k, r), 2), 4))
  {
  }

  lemma MiddleRight(k: nat, r: nat)
    requires 4 <= k < 8 && r < 4
    ensures Apart(HexRow(k, r), Exchanged(Exchanged(HexRow(k, r), 2), 4))
  {
  }

  lemma MiddleBits(k: nat, r: nat)
    requires k < 8 && r < 4
    ensures Apart(HexRow(k, r), Exchanged(Exchanged(HexRow(k, r), 2), 4))
  {
    hide Apart, HexRow, Exchanged;
    if k < 4 {
      MiddleLeft(k, r);
    } else {
      MiddleRight(k, r);
    }
  }

  /** Two entries differ in at least two bits. */
  predicate FarApart(k: nat, row: nat, column: nat, row': nat, column': nat)
    requires k < 8 && row < 4 && column < 16 && row' < 4 && column' < 16
  {
    Differences(FourBits(BoxAt(k, row, column)), FourBits(BoxAt(k, row', column'))) >= 2
  }

  lemma FarFrom(k: nat, row: nat, column: nat, row': nat, column': nat, w: bv64)
    requires k < 8 && row < 4 && column < 16 && row' < 4 && column' < 16
    requires Apart(HexRow(k, row), w) && Digit(w, column) == Digit(HexRow(k, row'), column')
    ensures FarApart(k, row, column, row', column')
  {
    hide HexRow, Digit, Apart, ApartDigits, FourBits, Differences, BoxAt;
    EntryIs(k, row, column);
    EntryIs(k, row', column');
    ApartAt(HexRow(k, row), w, column);
    ApartBits(Digit(HexRow(k, row), column), Digit(w, column));
  }

  lemma FarRows(k: nat, row: nat, column: nat, m: nat)
    requires k < 8 && row < 4 && column < 16 && (m == 1 || m == 2)
    ensures Flipped(row, m) < 4 && FarApart(k, row, column, Flipped(row, m), column)
  {
    hide HexRow, Digit, Apart, FarApart;
    var other := Flipped(row, m);
    var low := if row < other then row else other;
    if m == 2 {
      FirstBit(k, low);
      ApartSymmetric(HexRow(k, low), HexRow(k, low + 2));
    } else {
      LastBit(k, low);
      ApartSymmetric(HexRow(k, low), HexRow(k, low + 1));
    }
    FarFrom(k, row, column, other, column, HexRow(k, other));
  }

  lemma FarColumns(k: nat, row: nat, column: nat, m: nat)
    requires k < 8 && row < 4 && column < 16 && (m == 1 || m == 2 || m == 4 || m == 8)
    ensures Flipped(column, m) < 16 && FarApart(k, row, column, row, Flipped(column, m))
  {
    hide HexRow, Digit, Apart, FarApart, Exchanged, Flipped;
    InnerBits(k, row, m);
    ExchangedAt(HexRow(k, row), m, column);
    FarFrom(k, row, column, row, Flipped(column, m), Exchanged(HexRow(k, row), m));
  }

  function RowOf(b: Bits): (r: nat)
    requires |b| == 6
    ensures r < 4
  {
    2 * Value(b[0]) + Value(b[5])
  }

  function ColumnOf(b: Bits): (c: nat)
    requires |b| == 6
    ensures c < 16
  {
    8 * Value(b[1]) + 4 * Value(b[2]) + 2 * Value(b[3]) + Value(b[4])
  }

  lemma EntryOf(k: nat, b: Bits)
    requires k < 8 && |b| == 6
    ensures BoxEntry(k, b) == BoxAt(k, RowOf(b), ColumnOf(b))
  {
    hide BoxAt;
  }

  lemma OuterFlipped(b: Bits, i: nat)
    requires |b| == 6 && (i == 0 || i == 5)
    ensures RowOf(b[i := !b[i]]) == Flipped(RowOf(b), if i == 0 then 2 else 1) && ColumnOf(b[i := !b[i]]) == ColumnOf(b)
  {
  }

  lemma InnerFlipped(b: Bits, i: nat)
    requires |b| == 6 && 1 <= i <= 4
    ensures RowOf(b[i := !b[i]]) == RowOf(b)
    ensures ColumnOf(b[i := !b[i]])
            == Flipped(ColumnOf(b), if i == 1 then 8 else if i == 2 then 4 else if i == 3 then 2 else 1)
  {
  }

  /** Flipping one of the six input bits changes at least two output bits. */
  lemma OneBitFlipped(k: nat, b: Bits, i: nat)
    requires k < 8 && |b| == 6 && i < 6
    ensures Differences(FourBits(BoxEntry(k, b)), FourBits(BoxEntry(k, b[i := !b[i]]))) >= 2
  {
    hide BoxAt, BoxEntry, FourBits, Differences, RowOf, ColumnOf, Flipped;
    EntryOf(k, b);
    EntryOf(k, b[i := !b[i]]);
    if i == 0 || i == 5 {
      OuterFlipped(b, i);
      FarRows(k, RowOf(b), ColumnOf(b), if i == 0 then 2 else 1);
    } else {
      InnerFlipped(b, i);
      FarColumns(k, RowOf(b), ColumnOf(b), if i == 1 then 8 else if i == 2 then 4 else if i == 3 then 2 else 1);
    }
  }

  /** So does flipping the middle two together. */
  lemma MiddleBitsFlipped(k: nat, b: Bits)
    requires k < 8 && |b| == 6
    ensures Differences(FourBits(BoxEntry(k, b)), FourBits(BoxEntry(k, b[2 := !b[2]][3 := !b[3]]))) >= 2
  {
    hide BoxAt, FourBits, Differences, HexRow, Digit, Apart, Exchanged;
    var row := 2 * Value(b[0]) + Value(b[5]);
    var column := 8 * Value(b[1]) + 4 * Value(b[2]) + 2 * Value(b[3]) + Value(b[4]);
    var w := Exchanged(HexRow(k, row), 2);
    MiddleBits(k, row);
    ExchangedAt(w, 4, column);
    ExchangedAt(HexRow(k, row), 2, Flipped(column, 4));
    FarFrom(k, row, column, row, Flipped(Flipped(column, 4), 2), Exchanged(w, 4));
  }
}
