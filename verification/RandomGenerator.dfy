/** RandomGen of BaseLib/Encoder.cpp: a 250-word lagged generator seeded by a shift register. */
module RandomGenerator {
  import opened WordBits
  import opened Words

  function Half(w: bv32): bv32 { w >> 1 }

  predicate Odd(w: bv32) { w & 1 == 1 }

  lemma XorHalves(a: bv32, b: bv32)
    ensures Half(Xor(a, b)) == Xor(Half(a), Half(b))
    ensures Odd(Xor(a, b)) == (Odd(a) != Odd(b))
    ensures Xor(0, 0) == 0
  {
  }

  lemma HalfSmaller(w: bv32)
    ensures w != 0 ==> Half(w) < w
    ensures Half(0) == 0 && !Odd(0)
  {
  }

  const TABLE_SIZE: nat := 250

  /** What Generate depends on. */
  datatype Gen = Gen(table: seq<bv32>, index1: nat, index2: nat)

  predicate Wf(g: Gen)
  {
    |g.table| == TABLE_SIZE && g.index1 < TABLE_SIZE && g.index2 < TABLE_SIZE && g.index1 != g.index2
  }

  function Next(index: nat): nat
  {
    if index + 1 == TABLE_SIZE then 0 else index + 1
  }

  /** One call of Generate: the word it returns. */
  function Output(g: Gen): bv32
    requires Wf(g)
  {
    Xor(g.table[g.index1], g.table[g.index2])
  }

  /** One call of Generate: the state it leaves. */
  function Advance(g: Gen): (r: Gen)
    requires Wf(g)
    ensures Wf(r)
  {
    Gen(g.table[g.index1 := Output(g)], Next(g.index1), Next(g.index2))
  }

  function AdvanceBy(g: Gen, n: nat): (r: Gen)
    requires Wf(g)
    ensures Wf(r)
  {
    if n == 0 then g else Advance(AdvanceBy(g, n - 1))
  }

  // ---- the lagged sequence ----

  /** The sequence the generator is meant to produce, given its first 250 words. */
  function Lagged(first: seq<bv32>, n: nat): bv32
    requires |first| == TABLE_SIZE
  {
    if n < TABLE_SIZE then first[n] else Xor(Lagged(first, n - 250), Lagged(first, n - 147))
  }

  /** Where in the sequence the word at table index `j` stands after `n` calls. */
  function Position(n: nat, j: nat): (p: nat)
    requires j < TABLE_SIZE
  {
    var round := n - n % TABLE_SIZE;
    if j < n % TABLE_SIZE then round + TABLE_SIZE + j else round + j
  }

  lemma PositionStep(n: nat, j: nat)
    requires j < TABLE_SIZE
    ensures Position(n + 1, j) == if j == n % TABLE_SIZE then n + TABLE_SIZE else Position(n, j)
  {
    NextIndex(n);
  }

  lemma NextIndex(n: nat)
    ensures Next(n % TABLE_SIZE) == (n + 1) % TABLE_SIZE
  {
  }

  lemma TapPositions(n: nat)
    ensures Position(n, n % TABLE_SIZE) == n && Position(n, (n + 103) % TABLE_SIZE) == n + 103
  {
  }

  /** The table holds the last 250 words of the sequence, the cursors its two taps. */
  ghost predicate Tracks(g: Gen, first: seq<bv32>, n: nat)
    requires Wf(g) && |first| == TABLE_SIZE
  {
    && g.index1 == n % TABLE_SIZE && g.index2 == (n + 103) % TABLE_SIZE
    && forall j :: 0 <= j < TABLE_SIZE ==> g.table[j] == Lagged(first, Position(n, j))
  }

  lemma TracksOutput(g: Gen, first: seq<bv32>, n: nat)
    requires Wf(g) && |first| == TABLE_SIZE && Tracks(g, first, n)
    ensures Output(g) == Lagged(first, n + TABLE_SIZE)
  {
    hide Xor, Position;
    TapPositions(n);
  }

  lemma TracksAdvance(g: Gen, first: seq<bv32>, n: nat)
    requires Wf(g) && |first| == TABLE_SIZE && Tracks(g, first, n)
    ensures Tracks(Advance(g), first, n + 1)
  {
    TracksOutput(g, first, n);
    hide Output, Lagged, Position, Next;
    NextIndex(n);
    NextIndex(n + 103);
    forall j | 0 <= j < TABLE_SIZE
      ensures Advance(g).table[j] == Lagged(first, Position(n + 1, j))
    {
      PositionStep(n, j);
    }
  }

  /** After any number of calls the table is the last 250 words of the lagged sequence and the
      next output is its next word: x(n) = x(n - 250) xor x(n - 147) for ever. */
  lemma {:induction false} GeneratorIsLagged(first: seq<bv32>, n: nat)
    requires |first| == TABLE_SIZE
    ensures Tracks(AdvanceBy(Gen(first, 0, 103), n), first, n)
    ensures Output(AdvanceBy(Gen(first, 0, 103), n)) == Lagged(first, n + TABLE_SIZE)
  {
    hide Output, Lagged, Advance;
    if n > 0 {
      GeneratorIsLagged(first, n - 1);
      TracksAdvance(AdvanceBy(Gen(first, 0, 103), n - 1), first, n - 1);
    } else {
      InitialTracks(first);
    }
    TracksOutput(AdvanceBy(Gen(first, 0, 103), n), first, n);
  }

  lemma InitialTracks(first: seq<bv32>)
    requires |first| == TABLE_SIZE
    ensures Tracks(Gen(first, 0, 103), first, 0)
  {
  }

  // ---- linear independence over GF(2) ----

  /** Whether the number of set bits is odd. */
  function Parity(w: bv32): bool
    decreases w
  {
    HalfSmaller(w);
    if w == 0 then false else Odd(w) != Parity(Half(w))
  }

  lemma ParityStep(w: bv32)
    ensures Parity(w) == (Odd(w) != Parity(Half(w)))
  {
    HalfSmaller(0);
  }

  lemma {:induction false} ParityXor(a: bv32, b: bv32)
    ensures Parity(Xor(a, b)) == (Parity(a) != Parity(b))
    decreases a, b
  {
    hide Xor, Half, Odd;
    XorHalves(a, b);
    if a == 0 && b == 0 {
    } else {
      HalfSmaller(a);
      HalfSmaller(b);
      ParityXor(Half(a), Half(b));
      ParityStep(a);
      ParityStep(b);
      ParityStep(Xor(a, b));
    }
  }

  /** No linear functional but zero vanishes on the whole table: for every non-zero mask some
      word has an odd number of bits under it. */
  ghost predicate FullRank(table: seq<bv32>)
  {
    forall mask: bv32 :: mask != 0 ==> Detects(table, mask)
  }

  ghost predicate Detects(table: seq<bv32>, mask: bv32)
  {
    exists j :: 0 <= j < |table| && Parity(Masked(table[j], mask))
  }

  /** Replacing a word by its sum with another one is an invertible row operation. */
  lemma AdvanceKeepsRank(g: Gen)
    requires Wf(g) && FullRank(g.table)
    ensures FullRank(Advance(g).table)
  {
    hide Xor, Masked, Parity;
    var t := Advance(g).table;
    forall mask: bv32 | mask != 0
      ensures Detects(t, mask)
    {
      assert Detects(g.table, mask);
      var j :| 0 <= j < |g.table| && Parity(Masked(g.table[j], mask));
      var x, y := g.table[g.index1], g.table[g.index2];
      XorMasked(x, y, mask);
      ParityXor(Masked(x, mask), Masked(y, mask));
      if Parity(Masked(y, mask)) {
        assert t[g.index2] == y;
      } else if j != g.index1 {
        assert t[j] == g.table[j];
      } else {
        assert t[j] == Xor(x, y);
      }
    }
  }

  lemma {:induction false} RankForever(g: Gen, n: nat)
    requires Wf(g) && FullRank(g.table)
    ensures FullRank(AdvanceBy(g, n).table)
  {
    if n > 0 {
      RankForever(g, n - 1);
      AdvanceKeepsRank(AdvanceBy(g, n - 1));
    }
  }

  // ---- seeding ----

  /** One turn of the shift register in GenerateSimple. */
  function Shift(t: bv32): bv32
  {
    var bit := (t ^ (t >> 1) ^ (t >> 2) ^ (t >> 3) ^ (t >> 5) ^ (t >> 7)) & 1;
    (((t >> 1) | (t << 31)) & 0xffff_fffe) | bit
  }

  function ShiftBy(t: bv32, n: nat): bv32
  {
    if n == 0 then t else Shift(ShiftBy(t, n - 1))
  }

  lemma ShiftedDown(t: bv32, m: bv32)
    requires m & 3 == 0
    ensures Masked(Shift(t), Half(m)) == Half(Masked(t, m))
  {
  }

  lemma OneBitDown(i: bv32)
    requires 0 < i < 31
    ensures OneBit(i + 1) & 3 == 0 && Half(OneBit(i + 1)) == OneBit(i)
  {
  }

  /** The register turns to the right: every bit but the lowest moves down, the lowest to the top. */
  lemma ShiftMoves(t: bv32, i: bv32)
    requires 0 < i < 32
    ensures BitAt(Shift(t), i) == BitAt(t, if i < 31 then i + 1 else 0)
  {
    if i < 31 {
      hide OneBit, Shift, Masked, Half;
      OneBitDown(i);
      ShiftedDown(t, OneBit(i + 1));
      BitIs(t, i + 1);
      HalfSmaller(0);
    }
  }

  /** The bit that comes in at the bottom is the parity of six taps. */
  lemma ShiftTaps(t: bv32)
    ensures BitAt(Shift(t), 0)
            == (BitAt(t, 0) != (BitAt(t, 1) != (BitAt(t, 2) != (BitAt(t, 3) != (BitAt(t, 5) != BitAt(t, 7))))))
  {
  }

  lemma {:induction false} ShiftBySum(t: bv32, m: nat, n: nat)
    ensures ShiftBy(ShiftBy(t, m), n) == ShiftBy(t, m + n)
  {
    hide Shift;
    if n > 0 {
      ShiftBySum(t, m, n - 1);
    }
  }

  /** The bit planted at step `i` and the mask of that bit and all lower ones. */
  function Bit(i: nat): bv32
  {
    if i == 0 then 0x8000_0000 else Half(Bit(i - 1))
  }

  function Mask(i: nat): bv32
  {
    if i == 0 then 0xffff_ffff else Half(Mask(i - 1))
  }

  function Plant(w: bv32, mask: bv32, bit: bv32): bv32 { (w & mask) | bit }

  /** The table after `k` steps of the planting loop of GenerateSeeds. */
  function Planted(table: seq<bv32>, k: nat): (r: seq<bv32>)
    requires |table| == TABLE_SIZE && k <= 32
    ensures |r| == TABLE_SIZE
  {
    if k == 0 then table
    else
      var t := Planted(table, k - 1);
      t[3 + 7 * (k - 1) := Plant(t[3 + 7 * (k - 1)], Mask(k - 1), Bit(k - 1))]
  }

  /** The words GenerateSeeds draws, last index first, before planting. */
  function Drawn(seed: bv32): seq<bv32>
  {
    seq(TABLE_SIZE, n requires 0 <= n < TABLE_SIZE => ShiftBy(seed, 32 * (TABLE_SIZE - n)))
  }

  /** The register starts from the seed and turns 32 times for each word, from the last index down. */
  lemma DrawnInTurn(seed: bv32, n: nat)
    requires n < TABLE_SIZE
    ensures Drawn(seed)[n] == ShiftBy(if n + 1 == TABLE_SIZE then seed else Drawn(seed)[n + 1], 32)
  {
    hide Shift;
    if n + 1 < TABLE_SIZE {
      ShiftBySum(seed, 32 * (TABLE_SIZE - n - 1), 32);
    } else {
      assert 32 * (TABLE_SIZE - n) == 32;
    }
  }

  /** The generator for a seed. */
  function Seeded(seed: bv32): Gen
  {
    Gen(Planted(Drawn(seed), 32), 0, 103)
  }

  // ---- the planted words are a basis ----

  /** `k` is `b` and all lower bits. */
  predicate IsMaskOf(k: bv32, b: bv32) { k == b | (b - 1) }

  predicate Has(m: bv32, b: bv32) { m & b != 0 }

  predicate ClearBelow(m: bv32, b: bv32) { m & (b - 1) == 0 }

  /** The bits of `w` below `b`. */
  function Below(w: bv32, b: bv32): bv32 { w & (b - 1) }

  predicate Within(w: bv32, k: bv32) { w & k == w }

  lemma HalvePower(c: bv32)
    requires Single(c) && Half(c) != 0
    ensures Single(Half(c)) && !Odd(c)
  {
  }

  lemma HalveMask(k: bv32, c: bv32)
    requires Single(c) && IsMaskOf(k, c) && Half(c) != 0
    ensures IsMaskOf(Half(k), Half(c))
  {
  }

  lemma ClearOneMore(m: bv32, c: bv32)
    requires Single(c) && Half(c) != 0 && ClearBelow(m, Half(c)) && !Has(m, Half(c))
    ensures ClearBelow(m, c)
  {
  }

  lemma OneBitInCommon(w: bv32, m: bv32, b: bv32, k: bv32)
    requires Single(b) && IsMaskOf(k, b) && Within(w, k) && Has(w, b)
    requires Has(m, b) && ClearBelow(m, b)
    ensures Masked(w, m) == b
  {
  }

  lemma PlantShape(w: bv32, b: bv32, k: bv32)
    requires Single(b) && IsMaskOf(k, b)
    ensures Within(Plant(w, k, b), k) && Has(Plant(w, k, b), b) && Below(Plant(w, k, b), b) == Below(w, b)
  {
  }

  lemma TopBit(m: bv32)
    requires ClearBelow(m, 0x8000_0000) && !Has(m, 0x8000_0000)
    ensures m == 0
  {
  }

  lemma FirstBit()
    ensures Single(0x8000_0000) && IsMaskOf(0xffff_ffff, 0x8000_0000)
    ensures Odd(1) && Half(1) == 0 && !Odd(0) && forall m :: ClearBelow(m, 1)
  {
  }

  lemma LastBit()
    ensures Bit(31) == 1 && Bit(32) == 0
  {
    assert Bit(4) == 0x0800_0000 && Bit(8) == 0x0080_0000 && Bit(12) == 0x0008_0000;
    assert Bit(16) == 0x8000 && Bit(20) == 0x0800 && Bit(24) == 0x0080 && Bit(28) == 8;
  }

  lemma {:induction false} BitZeroStays(i: nat, k: nat)
    requires i <= k && Bit(i) == 0
    ensures Bit(k) == 0
    decreases k
  {
    if i < k {
      BitZeroStays(i, k - 1);
    }
  }

  lemma BitNotZero(i: nat)
    requires i <= 31
    ensures Bit(i) != 0
  {
    if Bit(i) == 0 {
      BitZeroStays(i, 31);
      LastBit();
    }
  }

  lemma {:induction false} BitIsSingle(i: nat)
    requires i <= 31
    ensures Single(Bit(i)) && IsMaskOf(Mask(i), Bit(i))
  {
    hide Single, IsMaskOf, Half;
    FirstBit();
    if i > 0 {
      BitNotZero(i);
      BitIsSingle(i - 1);
      HalvePower(Bit(i - 1));
      HalveMask(Mask(i - 1), Bit(i - 1));
    }
  }

  lemma {:induction false} BitParity(i: nat)
    requires i <= 31
    ensures Parity(Bit(i))
    decreases 31 - i
  {
    hide Single, Half, Odd, Parity;
    FirstBit();
    LastBit();
    ParityStep(Bit(i));
    if i < 31 {
      BitIsSingle(i);
      BitNotZero(i + 1);
      HalvePower(Bit(i));
      BitParity(i + 1);
    } else {
      ParityZero();
    }
  }

  lemma ParityZero()
    ensures !Parity(0)
  {
  }

  /** The lowest set bit of a mask. */
  lemma {:induction false} LowestBit(m: bv32, i: nat) returns (p: nat)
    requires m != 0 && i <= 31 && ClearBelow(m, Bit(i))
    ensures p <= i && Has(m, Bit(p)) && ClearBelow(m, Bit(p))
  {
    hide Has, ClearBelow, Single, Half;
    if Has(m, Bit(i)) {
      return i;
    }
    if i == 0 {
      TopBit(m);
    } else {
      BitIsSingle(i - 1);
      BitNotZero(i);
      ClearOneMore(m, Bit(i - 1));
      p := LowestBit(m, i - 1);
    }
  }

  lemma {:induction false} PlantedAt(table: seq<bv32>, k: nat, i: nat)
    requires |table| == TABLE_SIZE && i < k <= 32
    ensures Planted(table, k)[3 + 7 * i] == Plant(table[3 + 7 * i], Mask(i), Bit(i))
  {
    hide Plant;
    if i < k - 1 {
      PlantedAt(table, k - 1, i);
    } else {
      NotYetPlanted(table, k - 1, 3 + 7 * i);
    }
  }

  lemma {:induction false} NotYetPlanted(table: seq<bv32>, k: nat, n: nat)
    requires |table| == TABLE_SIZE && k <= 32 && 3 + 7 * k <= n < TABLE_SIZE
    ensures Planted(table, k)[n] == table[n]
  {
    hide Plant;
    if k > 0 {
      NotYetPlanted(table, k - 1, n);
    }
  }

  /** What planting does: in every seventh word from the fourth one the next lower bit is set and no higher one, and the
      lower ones stay as they were drawn. */
  lemma PlantedWord(table: seq<bv32>, i: nat)
    requires |table| == TABLE_SIZE && i < 32
    ensures var w, b, k := Planted(table, 32)[3 + 7 * i], Bit(i), Mask(i);
            Single(b) && IsMaskOf(k, b) && Within(w, k) && Has(w, b) && Below(w, b) == Below(table[3 + 7 * i], b)
  {
    hide Single, IsMaskOf, Within, Has, Below, Plant, Bit, Mask, Planted;
    PlantedAt(table, 32, i);
    BitIsSingle(i);
    PlantShape(table[3 + 7 * i], Bit(i), Mask(i));
  }

  /** The other words stay as they were drawn. */
  lemma {:induction false} NotPlanted(table: seq<bv32>, k: nat, n: nat)
    requires |table| == TABLE_SIZE && k <= 32 && n < TABLE_SIZE && n % 7 != 3
    ensures Planted(table, k)[n] == table[n]
  {
    hide Plant;
    if k > 0 {
      NotPlanted(table, k - 1, n);
    }
  }

  lemma PlantedFullRank(table: seq<bv32>)
    requires |table| == TABLE_SIZE
    ensures FullRank(Planted(table, 32))
  {
    hide Plant, Parity, Masked;
    var t := Planted(table, 32);
    forall mask: bv32 | mask != 0
      ensures Detects(t, mask)
    {
      PlantedDetects(table, mask);
    }
  }

  lemma PlantedDetects(table: seq<bv32>, mask: bv32)
    requires |table| == TABLE_SIZE && mask != 0
    ensures Detects(Planted(table, 32), mask)
  {
    hide Has, ClearBelow, Single, IsMaskOf, Within, Masked, Parity, Bit, Mask, Plant, Planted, Half, Odd;
    FirstBit();
    LastBit();
    var p := LowestBit(mask, 31);
    PlantedAt(table, 32, p);
    BitIsSingle(p);
    var w := Plant(table[3 + 7 * p], Mask(p), Bit(p));
    PlantShape(table[3 + 7 * p], Bit(p), Mask(p));
    OneBitInCommon(w, mask, Bit(p), Mask(p));
    BitParity(p);
  }

  /** In every state a seeded generator can reach its table spans all 32 dimensions. */
  lemma SeededRank(seed: bv32, n: nat)
    ensures FullRank(AdvanceBy(Seeded(seed), n).table)
  {
    hide FullRank;
    PlantedFullRank(Drawn(seed));
    RankForever(Seeded(seed), n);
  }

  /** From its seed on the generator continues the table it planted: x(n) = x(n - 250) xor x(n - 147). */
  lemma SeededIsLagged(seed: bv32, n: nat)
    ensures Output(AdvanceBy(Seeded(seed), n)) == Lagged(Planted(Drawn(seed), 32), n + TABLE_SIZE)
    ensures Seeded(seed).table == Planted(Drawn(seed), 32)
  {
    hide Output, Lagged, AdvanceBy, Planted;
    GeneratorIsLagged(Planted(Drawn(seed), 32), n);
  }

  // ---- the class ----

  class RandomGen {
    var m_nState: bv32
    var m_nIndex1: nat
    var m_nIndex2: nat
    var m_seed: bv32
    const m_table: array<bv32>

    ghost function Abs(): Gen
      reads this, m_table
    {
      Gen(m_table[..], m_nIndex1, m_nIndex2)
    }

    ghost predicate Valid()
      reads this, m_table
    {
      Wf(Abs())
    }

    constructor (seed: bv32)
      ensures Valid() && fresh(m_table) && Abs() == Seeded(seed) && m_seed == seed
    {
      m_table := new bv32[TABLE_SIZE];
      m_seed, m_nState := seed, seed;
      new;
      GenerateSeeds();
    }

    /** Reset starts the same sequence over. */
    method Reset()
      requires m_table.Length == TABLE_SIZE
      modifies this`m_nState, this`m_nIndex1, this`m_nIndex2, m_table
      ensures Valid() && Abs() == Seeded(m_seed)
    {
      m_nState := m_seed;
      GenerateSeeds();
    }

    /** operator=: the copy continues with the same words and shares nothing. */
    method Assign(other: RandomGen)
      requires m_table.Length == TABLE_SIZE && other.Valid() && m_table != other.m_table
      modifies this, m_table
      ensures Valid() && Abs() == old(other.Abs())
      ensures m_seed == old(other.m_seed) && m_nState == old(other.m_nState)
    {
      m_seed, m_nState := other.m_seed, other.m_nState;
      m_nIndex1, m_nIndex2 := other.m_nIndex1, other.m_nIndex2;
      for i := 0 to TABLE_SIZE
        invariant m_table[..i] == old(other.m_table[..i])
        invariant other.m_table[..] == old(other.m_table[..])
        modifies m_table
      {
        m_table[i] := other.m_table[i];
      }
      assert m_table[..TABLE_SIZE] == m_table[..] && old(other.m_table[..TABLE_SIZE]) == old(other.m_table[..]);
    }

    method Generate() returns (retval: bv32)
      requires Valid()
      modifies this`m_nIndex1, this`m_nIndex2, m_table
      ensures Valid() && Abs() == Advance(old(Abs())) && retval == Output(old(Abs()))
    {
      m_table[m_nIndex1] := m_table[m_nIndex1] ^ m_table[m_nIndex2];
      retval := m_table[m_nIndex1];
      m_nIndex1 := m_nIndex1 + 1;
      if m_nIndex1 == TABLE_SIZE {
        m_nIndex1 := 0;
      }
      m_nIndex2 := m_nIndex2 + 1;
      if m_nIndex2 == TABLE_SIZE {
        m_nIndex2 := 0;
      }
    }

    method GenerateSeeds()
      requires m_table.Length == TABLE_SIZE
      modifies this`m_nState, this`m_nIndex1, this`m_nIndex2, m_table
      ensures Valid() && Abs() == Seeded(old(m_nState))
    {
      hide Plant, Half;
      m_nIndex1 := 0;
      m_nIndex2 := 103;
      ghost var seed := m_nState;
      var n := TABLE_SIZE;
      while n > 0
        modifies this`m_nState, m_table
        invariant 0 <= n <= TABLE_SIZE
        invariant m_nState == ShiftBy(seed, 32 * (TABLE_SIZE - n))
        invariant forall j :: n <= j < TABLE_SIZE ==> m_table[j] == ShiftBy(seed, 32 * (TABLE_SIZE - j))
      {
        n := n - 1;
        m_table[n] := GenerateSimple(seed, 32 * (TABLE_SIZE - n - 1));
      }
      assert m_table[..] == Drawn(seed);
      PlantBasis(Drawn(seed));
    }

    /** The second loop of GenerateSeeds. */
    method PlantBasis(ghost drawn: seq<bv32>)
      requires m_table.Length == TABLE_SIZE && m_table[..] == drawn
      modifies m_table
      ensures m_table[..] == Planted(drawn, 32)
    {
      hide Plant;
      var n, msk, bit := 3, 0xffff_ffff, 0x8000_0000;
      ghost var k := 0;
      LastBit();
      while bit != 0
        invariant 0 <= k <= 32 && n == 3 + 7 * k && msk == Mask(k) && bit == Bit(k)
        invariant m_table[..] == Planted(drawn, k)
        decreases 32 - k
      {
        m_table[n] := Plant(m_table[n], msk, bit);
        msk := Half(msk);
        bit := Half(bit);
        n, k := n + 7, k + 1;
      }
      if k < 32 {
        BitNotZero(k);
      }
    }

    /** Thirty-two turns of the shift register; `done` turns since `seed` came before. */
    method GenerateSimple(ghost seed: bv32, ghost done: nat) returns (r: bv32)
      requires m_nState == ShiftBy(seed, done)
      modifies this`m_nState
      ensures r == m_nState == ShiftBy(seed, done + 32)
    {
      var temp := m_nState;
      for n := 0 to 32
        invariant temp == ShiftBy(seed, done + n)
      {
        var bit := (temp ^ (temp >> 1) ^ (temp >> 2) ^ (temp >> 3) ^ (temp >> 5) ^ (temp >> 7)) & 1;
        temp := (((temp >> 1) | (temp << 31)) & 0xffff_fffe) | bit;
      }
      m_nState := temp;
      return m_nState;
    }
  }
}
