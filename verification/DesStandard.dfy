/** The Data Encryption Standard of FIPS 46-3 on bits, with the tables of
    BaseLib/CipherDes.cpp written in rows. */
module DesStandard {
  import opened ByteBits

  type Bits = seq<bool>

  const IP: seq<seq<int>> := [
    [58, 50, 42, 34, 26, 18, 10, 2],
    [60, 52, 44, 36, 28, 20, 12, 4],
    [62, 54, 46, 38, 30, 22, 14, 6],
    [64, 56, 48, 40, 32, 24, 16, 8],
    [57, 49, 41, 33, 25, 17, 9, 1],
    [59, 51, 43, 35, 27, 19, 11, 3],
    [61, 53, 45, 37, 29, 21, 13, 5],
    [63, 55, 47, 39, 31, 23, 15, 7]]

  const FP: seq<seq<int>> := [
    [40, 8, 48, 16, 56, 24, 64, 32],
    [39, 7, 47, 15, 55, 23, 63, 31],
    [38, 6, 46, 14, 54, 22, 62, 30],
    [37, 5, 45, 13, 53, 21, 61, 29],
    [36, 4, 44, 12, 52, 20, 60, 28],
    [35, 3, 43, 11, 51, 19, 59, 27],
    [34, 2, 42, 10, 50, 18, 58, 26],
    [33, 1, 41, 9, 49, 17, 57, 25]]

  /** The E bit-selection table. The source has it only as shifts and masks. */
  const E: seq<seq<int>> := [
    [32, 1, 2, 3, 4, 5],
    [4, 5, 6, 7, 8, 9],
    [8, 9, 10, 11, 12, 13],
    [12, 13, 14, 15, 16, 17],
    [16, 17, 18, 19, 20, 21],
    [20, 21, 22, 23, 24, 25],
    [24, 25, 26, 27, 28, 29],
    [28, 29, 30, 31, 32, 1]]

  const P32: seq<seq<int>> := [
    [16, 7, 20, 21],
    [29, 12, 28, 17],
    [1, 15, 23, 26],
    [5, 18, 31, 10],
    [2, 8, 24, 14],
    [32, 27, 3, 9],
    [19, 13, 30, 6],
    [22, 11, 4, 25]]

  /** Permuted choice 1 and permuted choice 2. */
  const PCT: seq<seq<int>> := [
    [57, 49, 41, 33, 25, 17, 9],
    [1, 58, 50, 42, 34, 26, 18],
    [10, 2, 59, 51, 43, 35, 27],
    [19, 11, 3, 60, 52, 44, 36],
    [63, 55, 47, 39, 31, 23, 15],
    [7, 62, 54, 46, 38, 30, 22],
    [14, 6, 61, 53, 45, 37, 29],
    [21, 13, 5, 28, 20, 12, 4]]

  const PCK: seq<seq<int>> := [
    [14, 17, 11, 24, 1, 5],
    [3, 28, 15, 6, 21, 10],
    [23, 19, 12, 4, 26, 8],
    [16, 7, 27, 20, 13, 2],
    [41, 52, 31, 37, 47, 55],
    [30, 40, 51, 45, 33, 48],
    [44, 49, 39, 56, 34, 53],
    [46, 42, 50, 36, 29, 32]]

  /** The number of left shifts in each iteration of the key schedule. */
  const SHIFTS: seq<nat> := [1, 1, 2, 2, 2, 2, 2, 2, 1, 2, 2, 2, 2, 2, 2, 1]

  /** The source's table of the shifts added up. */
  const TOTROT: seq<nat> := [1, 2, 4, 6, 8, 10, 12, 14, 15, 17, 19, 21, 23, 25, 27, 28]

  const SI: seq<seq<seq<int>>> := [
    [
      [14, 4, 13, 1, 2, 15, 11, 8, 3, 10, 6, 12, 5, 9, 0, 7],
      [0, 15, 7, 4, 14, 2, 13, 1, 10, 6, 12, 11, 9, 5, 3, 8],
      [4, 1, 14, 8, 13, 6, 2, 11, 15, 12, 9, 7, 3, 10, 5, 0],
      [15, 12, 8, 2, 4, 9, 1, 7, 5, 11, 3, 14, 10, 0, 6, 13]],
    [
      [15, 1, 8, 14, 6, 11, 3, 4, 9, 7, 2, 13, 12, 0, 5, 10],
      [3, 13, 4, 7, 15, 2, 8, 14, 12, 0, 1, 10, 6, 9, 11, 5],
      [0, 14, 7, 11, 10, 4, 13, 1, 5, 8, 12, 6, 9, 3, 2, 15],
      [13, 8, 10, 1, 3, 15, 4, 2, 11, 6, 7, 12, 0, 5, 14, 9]],
    [
      [10, 0, 9, 14, 6, 3, 15, 5, 1, 13, 12, 7, 11, 4, 2, 8],
      [13, 7, 0, 9, 3, 4, 6, 10, 2, 8, 5, 14, 12, 11, 15, 1],
      [13, 6, 4, 9, 8, 15, 3, 0, 11, 1, 2, 12, 5, 10, 14, 7],
      [1, 10, 13, 0, 6, 9, 8, 7, 4, 15, 14, 3, 11, 5, 2, 12]],
    [
      [7, 13, 14, 3, 0, 6, 9, 10, 1, 2, 8, 5, 11, 12, 4, 15],
      [13, 8, 11, 5, 6, 15, 0, 3, 4, 7, 2, 12, 1, 10, 14, 9],
      [10, 6, 9, 0, 12, 11, 7, 13, 15, 1, 3, 14, 5, 2, 8, 4],
      [3, 15, 0, 6, 10, 1, 13, 8, 9, 4, 5, 11, 12, 7, 2, 14]],
    [
      [2, 12, 4, 1, 7, 10, 11, 6, 8, 5, 3, 15, 13, 0, 14, 9],
      [14, 11, 2, 12, 4, 7, 13, 1, 5, 0, 15, 10, 3, 9, 8, 6],
      [4, 2, 1, 11, 10, 13, 7, 8, 15, 9, 12, 5, 6, 3, 0, 14],
      [11, 8, 12, 7, 1, 14, 2, 13, 6, 15, 0, 9, 10, 4, 5, 3]],
    [
      [12, 1, 10, 15, 9, 2, 6, 8, 0, 13, 3, 4, 14, 7, 5, 11],
      [10, 15, 4, 2, 7, 12, 9, 5, 6, 1, 13, 14, 0, 11, 3, 8],
      [9, 14, 15, 5, 2, 8, 12, 3, 7, 0, 4, 10, 1, 13, 11, 6],
      [4, 3, 2, 12, 9, 5, 15, 10, 11, 14, 1, 7, 6, 0, 8, 13]],
    [
      [4, 11, 2, 14, 15, 0, 8, 13, 3, 12, 9, 7, 5, 10, 6, 1],
      [13, 0, 11, 7, 4, 9, 1, 10, 14, 3, 5, 12, 2, 15, 8, 6],
      [1, 4, 11, 13, 12, 3, 7, 14, 10, 15, 6, 8, 0, 5, 9, 2],
      [6, 11, 13, 8, 1, 4, 10, 7, 9, 5, 0, 15, 14, 2, 3, 12]],
    [
      [13, 2, 8, 4, 6, 15, 11, 1, 10, 9, 3, 14, 5, 0, 12, 7],
      [1, 15, 13, 8, 10, 3, 7, 4, 12, 5, 6, 11, 0, 14, 9, 2],
      [7, 11, 4, 1, 9, 12, 14, 2, 0, 6, 10, 13, 15, 3, 5, 8],
      [2, 1, 14, 7, 4, 10, 8, 13, 15, 12, 9, 0, 3, 5, 6, 11]]]

  predicate InRange(p: seq<int>, max: int)
  {
    forall k :: 0 <= k < |p| ==> 1 <= p[k] <= max
  }

  predicate Rows(t: seq<seq<int>>, columns: nat, max: int)
  {
    forall r :: 0 <= r < |t| ==> |t[r]| == columns && InRange(t[r], max)
  }

  // The tables as lists, row by row.

  function InitialPermutation(): (p: seq<int>)
    ensures |p| == 64 && InRange(p, 64)
  {
    IPRows();
    seq(64, k requires 0 <= k < 64 => IP[k / 8][k % 8])
  }

  lemma IPRows()
    ensures |IP| == 8 && Rows(IP, 8, 64)
  {
  }

  function FinalPermutation(): (p: seq<int>)
    ensures |p| == 64 && InRange(p, 64)
  {
    FPRows();
    seq(64, k requires 0 <= k < 64 => FP[k / 8][k % 8])
  }

  lemma FPRows()
    ensures |FP| == 8 && Rows(FP, 8, 64)
  {
  }

  function Expansion(): (p: seq<int>)
    ensures |p| == 48 && InRange(p, 32)
  {
    ERows();
    seq(48, k requires 0 <= k < 48 => E[k / 6][k % 6])
  }

  lemma ERows()
    ensures |E| == 8 && Rows(E, 6, 32)
  {
  }

  function Permutation(): (p: seq<int>)
    ensures |p| == 32 && InRange(p, 32)
  {
    P32Rows();
    seq(32, k requires 0 <= k < 32 => P32[k / 4][k % 4])
  }

  lemma P32Rows()
    ensures |P32| == 8 && Rows(P32, 4, 32)
  {
  }

  function Choice1(): (p: seq<int>)
    ensures |p| == 56 && InRange(p, 64)
  {
    PCTRows();
    seq(56, k requires 0 <= k < 56 => PCT[k / 7][k % 7])
  }

  lemma PCTRows()
    ensures |PCT| == 8 && Rows(PCT, 7, 64)
  {
  }

  function Choice2(): (p: seq<int>)
    ensures |p| == 48 && InRange(p, 56)
  {
    PCKRows();
    seq(48, k requires 0 <= k < 48 => PCK[k / 6][k % 6])
  }

  lemma PCKRows()
    ensures |PCK| == 8 && Rows(PCK, 6, 56)
  {
  }

  /** The initial permutation reads the block by columns, the even ones before the odd ones, each from
      its last row up. */
  lemma InitialAt(k: nat)
    requires k < 64
    ensures InitialPermutation()[k] == (if k < 32 then 58 else 49) + 2 * (k / 8) - 8 * (k % 8)
  {
    IPRows();
  }

  lemma FirstChoice(k: nat)
    requires k < 14
    ensures Choice1()[k] == 57 + k / 8 - 8 * (k % 8)
  {
    PCTRows();
  }

  lemma LeftChoice(k: nat)
    requires 14 <= k < 28
    ensures Choice1()[k] == 57 + k / 8 - 8 * (k % 8)
  {
    PCTRows();
  }

  lemma RightChoice(k: nat)
    requires k < 24
    ensures Choice1()[28 + k] == 63 - k / 8 - 8 * (k % 8)
  {
    PCTRows();
  }

  lemma LastChoice(k: nat)
    requires k < 4
    ensures Choice1()[52 + k] == 28 - 8 * k
  {
    PCTRows();
  }

  /** Permuted choice 1 reads the key by columns, each from its last row up: the first three and half of
      the fourth, then the seventh down to the fifth and the rest of the fourth. The eighth is not read. */
  lemma Choice1At(k: nat)
    requires k < 56
    ensures k < 28 ==> Choice1()[k] == 57 + k / 8 - 8 * (k % 8)
    ensures 28 <= k < 52 ==> Choice1()[k] == 63 - (k - 28) / 8 - 8 * ((k - 28) % 8)
    ensures 52 <= k ==> Choice1()[k] == 28 - 8 * (k - 52)
  {
    hide Choice1, InRange;
    if k < 14 {
      FirstChoice(k);
    } else if k < 28 {
      LeftChoice(k);
    } else if k < 52 {
      RightChoice(k - 28);
    } else {
      LastChoice(k - 52);
    }
  }

  // ---- the algorithm ----

  /** Output bit `k` is input bit `p[k]`; bits are counted from 1. */
  function Select(p: seq<int>, x: Bits): (r: Bits)
    requires InRange(p, |x|)
    ensures |r| == |p|
  {
    seq(|p|, k requires 0 <= k < |p| => x[p[k] - 1])
  }

  function Xor(a: Bits, b: Bits): (r: Bits)
    requires |a| == |b|
    ensures |r| == |a|
  {
    seq(|a|, k requires 0 <= k < |a| => a[k] != b[k])
  }

  /** The entry of selection function `k` for six bits: the outer two choose the row, the inner
      four the column. */
  function BoxEntry(k: nat, b: Bits): (n: nat)
    requires k < 8 && |b| == 6
    ensures n < 16
  {
    var row := 2 * Value(b[0]) + Value(b[5]);
    var column := 8 * Value(b[1]) + 4 * Value(b[2]) + 2 * Value(b[3]) + Value(b[4]);
    BoxAt(k, row, column)
  }

  function BoxAt(k: nat, row: nat, column: nat): (n: nat)
    requires k < 8 && row < 4 && column < 16
    ensures n < 16
  {
    BoxesInRange(k, row, column);
    SI[k][row][column]
  }

  lemma BoxesInRange(k: nat, row: nat, column: nat)
    requires k < 8 && row < 4 && column < 16
    ensures |SI| == 8 && |SI[k]| == 4 && |SI[k][row]| == 16 && 0 <= SI[k][row][column] < 16
  {
  }

  function FourBits(n: nat): (r: Bits)
    requires n < 16
    ensures |r| == 4
  {
    [n / 8 % 2 == 1, n / 4 % 2 == 1, n / 2 % 2 == 1, n % 2 == 1]
  }

  /** The eight selection functions on 48 bits. */
  function Boxes(x: Bits, k: nat): (r: Bits)
    requires |x| == 48 && k <= 8
    ensures |r| == 4 * k
  {
    if k == 0 then [] else Boxes(x, k - 1) + FourBits(BoxEntry(k - 1, x[6 * (k - 1)..6 * k]))
  }

  /** The cipher function f(R, K). */
  function CipherFunction(r: Bits, key: Bits): (f: Bits)
    requires |r| == 32 && |key| == 48
    ensures |f| == 32
  {
    Select(Permutation(), Boxes(Xor(Select(Expansion(), r), key), 8))
  }

  predicate Keys(keys: seq<Bits>)
  {
    |keys| == 16 && forall i :: 0 <= i < 16 ==> |keys[i]| == 48
  }

  /** One iteration on a block of two halves: L' = R, R' = L xor f(R, K). */
  function Iterate(x: Bits, key: Bits): (r: Bits)
    requires |x| == 64 && |key| == 48
    ensures |r| == 64
  {
    x[32..] + Xor(x[..32], CipherFunction(x[32..], key))
  }

  function Iterations(keys: seq<Bits>, n: nat, x: Bits): (r: Bits)
    requires Keys(keys) && n <= 16 && |x| == 64
    ensures |r| == 64
  {
    if n == 0 then x else Iterate(Iterations(keys, n - 1, x), keys[n - 1])
  }

  function SwapHalves(x: Bits): (r: Bits)
    requires |x| == 64
    ensures |r| == 64
  {
    x[32..] + x[..32]
  }

  function Encipher(keys: seq<Bits>, x: Bits): (r: Bits)
    requires Keys(keys) && |x| == 64
    ensures |r| == 64
  {
    Select(FinalPermutation(), SwapHalves(Iterations(keys, 16, Select(InitialPermutation(), x))))
  }

  function Reversed(keys: seq<Bits>): (r: seq<Bits>)
    requires Keys(keys)
    ensures Keys(r)
  {
    seq(16, i requires 0 <= i < 16 => keys[15 - i])
  }

  /** Deciphering is the same algorithm with the keys in reverse order. */
  function Decipher(keys: seq<Bits>, x: Bits): (r: Bits)
    requires Keys(keys) && |x| == 64
    ensures |r| == 64
  {
    Encipher(Reversed(keys), x)
  }

  // ---- deciphering undoes enciphering ----

  lemma FinalUndoesInitial(r: nat, c: nat)
    requires r < 8 && c < 8
    ensures |IP| == |FP| == 8 && |FP[r]| == 8 && |IP[r]| == 8
    ensures var l := FP[r][c] - 1; 0 <= l < 64 && |IP[l / 8]| == 8 && IP[l / 8][l % 8] == 8 * r + c + 1
  {
  }

  lemma InitialUndoesFinal(r: nat, c: nat)
    requires r < 8 && c < 8
    ensures |IP| == |FP| == 8 && |FP[r]| == 8 && |IP[r]| == 8
    ensures var l := IP[r][c] - 1; 0 <= l < 64 && |FP[l / 8]| == 8 && FP[l / 8][l % 8] == 8 * r + c + 1
  {
  }

  /** The final permutation is the inverse of the initial one, from both sides. */
  lemma PermutationsInverse(x: Bits)
    requires |x| == 64
    ensures Select(FinalPermutation(), Select(InitialPermutation(), x)) == x
    ensures Select(InitialPermutation(), Select(FinalPermutation(), x)) == x
  {
    forall k | 0 <= k < 64
      ensures InitialPermutation()[FinalPermutation()[k] - 1] == k + 1
      ensures FinalPermutation()[InitialPermutation()[k] - 1] == k + 1
    {
      FinalUndoesInitial(k / 8, k % 8);
      InitialUndoesFinal(k / 8, k % 8);
    }
  }

  lemma XorTwice(a: Bits, b: Bits)
    requires |a| == |b|
    ensures Xor(Xor(a, b), b) == a
  {
  }

  lemma SwapTwice(x: Bits)
    requires |x| == 64
    ensures SwapHalves(SwapHalves(x)) == x
  {
  }

  /** Whatever f is, an iteration applied to the swapped result of the same iteration gives back
      the swapped argument. */
  lemma IterateBack(x: Bits, key: Bits)
    requires |x| == 64 && |key| == 48
    ensures Iterate(SwapHalves(Iterate(x, key)), key) == SwapHalves(x)
  {
    hide CipherFunction, Xor;
    var f := CipherFunction(x[32..], key);
    var y := SwapHalves(Iterate(x, key));
    assert y[32..] == x[32..] && y[..32] == Xor(x[..32], f);
    XorTwice(x[..32], f);
  }

  lemma {:induction false} IterationsBack(keys: seq<Bits>, n: nat, x: Bits)
    requires Keys(keys) && n <= 16 && |x| == 64
    ensures Iterations(Reversed(keys), n, SwapHalves(Iterations(keys, 16, x)))
            == SwapHalves(Iterations(keys, 16 - n, x))
  {
    hide Iterate, SwapHalves;
    if n > 0 {
      IterationsBack(keys, n - 1, x);
      assert Reversed(keys)[n - 1] == keys[16 - n];
      IterateBack(Iterations(keys, 16 - n, x), keys[16 - n]);
    }
  }

  /** Deciphering undoes enciphering, for all sixteen keys and every block. */
  lemma DecipherUndoes(keys: seq<Bits>, x: Bits)
    requires Keys(keys) && |x| == 64
    ensures Decipher(keys, Encipher(keys, x)) == x
  {
    hide Select, InitialPermutation, FinalPermutation, Iterations, SwapHalves, Reversed;
    var y := Select(InitialPermutation(), x);
    PermutationsInverse(x);
    PermutationsInverse(SwapHalves(Iterations(keys, 16, y)));
    IterationsBack(keys, 16, y);
    IterationsStart(keys, y);
    SwapTwice(y);
  }

  lemma IterationsStart(keys: seq<Bits>, x: Bits)
    requires Keys(keys) && |x| == 64
    ensures Iterations(keys, 0, x) == x
  {
  }

  // ---- the key schedule ----

  function ShiftLeft(h: Bits, n: nat): (r: Bits)
    requires |h| == 28 && n <= 28
    ensures |r| == 28
  {
    h[n..] + h[..n]
  }

  /** One half of the key after `i` iterations. */
  function HalfAfter(h: Bits, i: nat): (r: Bits)
    requires |h| == 28 && i <= 16
    ensures |r| == 28
  {
    if i == 0 then h else ShiftLeft(HalfAfter(h, i - 1), SHIFTS[i - 1])
  }

  /** The key for iteration `i`, counted from 1. */
  function RoundKey(key: Bits, i: nat): (r: Bits)
    requires |key| == 64 && 1 <= i <= 16
    ensures |r| == 48
  {
    var cd := Select(Choice1(), key);
    Select(Choice2(), HalfAfter(cd[..28], i) + HalfAfter(cd[28..], i))
  }

  function Schedule(key: Bits): (keys: seq<Bits>)
    requires |key| == 64
    ensures Keys(keys)
  {
    seq(16, i requires 0 <= i < 16 => RoundKey(key, i + 1))
  }

  lemma ShiftsAddUp(i: nat)
    requires i < 16
    ensures TOTROT[i] == (if i == 0 then 0 else TOTROT[i - 1]) + SHIFTS[i] <= 28
  {
  }

  /** Shifting step by step is one rotation by the total. */
  lemma {:induction false} HalfIsRotated(h: Bits, i: nat, j: nat)
    requires |h| == 28 && i <= 16 && j < 28
    ensures var total := if i == 0 then 0 else TOTROT[i - 1];
            total <= 28 && HalfAfter(h, i)[j] == h[if j + total < 28 then j + total else j + total - 28]
  {
    if i > 0 {
      ShiftsAddUp(i - 1);
      var n := SHIFTS[i - 1];
      HalfIsRotated(h, i - 1, if j + n < 28 then j + n else j + n - 28);
    }
  }
}
