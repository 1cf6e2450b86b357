/** The DES object of BaseLib/CipherDes.cpp: its tables, the two block transformations through them,
    the buffer loops and the padded interface. */
module DesCipher {
  import opened BlockMode
  import opened ByteBits
  import opened CipherBase
  import opened DesBits
  import opened DesRefinement
  import opened DesStandard
  import opened Memory

  // ---- tables of masks ----

  function Row(t: array3<Byte>, i: nat, j: nat): (r: seq<Byte>)
    requires i < t.Length0 && j < t.Length1
    reads t
    ensures |r| == t.Length2
    ensures forall k :: 0 <= k < t.Length2 ==> r[k] == t[i, j, k]
  {
    seq(t.Length2, k requires 0 <= k < t.Length2 reads t => t[i, j, k])
  }

  method Clear(t: array3<Byte>)
    modifies t
    ensures forall i: nat, j: nat :: i < t.Length0 && j < t.Length1 ==> Row(t, i, j) == Zeros(t.Length2)
  {
    for i := 0 to t.Length0
      invariant forall a, b, k :: 0 <= a < i && 0 <= b < t.Length1 && 0 <= k < t.Length2 ==> t[a, b, k] == 0
    {
      for j := 0 to t.Length1
        invariant forall a, b, k :: 0 <= a < i && 0 <= b < t.Length1 && 0 <= k < t.Length2 ==> t[a, b, k] == 0
        invariant forall b, k :: 0 <= b < j && 0 <= k < t.Length2 ==> t[i, b, k] == 0
      {
        for k := 0 to t.Length2
          invariant forall a, b, c :: 0 <= a < i && 0 <= b < t.Length1 && 0 <= c < t.Length2 ==> t[a, b, c] == 0
          invariant forall b, c :: 0 <= b < j && 0 <= c < t.Length2 ==> t[i, b, c] == 0
          invariant forall c :: 0 <= c < k ==> t[i, j, c] == 0
        {
          t[i, j, k] := 0;
        }
      }
    }
  }

  /** Sets bit `k` of one mask. */
  method OrInto(t: array3<Byte>, i: nat, j: nat, k: nat)
    requires i < t.Length0 && j < t.Length1 && k < 8 * t.Length2
    modifies t
    ensures Row(t, i, j) == WithBit(old(Row(t, i, j)), k)
    ensures forall a: nat, b: nat ::
              a < t.Length0 && b < t.Length1 && (a != i || b != j) ==> Row(t, a, b) == old(Row(t, a, b))
  {
    hide Or, ByteBit;
    t[i, j, k / 8] := Or(t[i, j, k / 8], ByteBit(k % 8));
  }

  /** The masks of a permutation of 64 bits by nibbles. */
  ghost predicate NibbleRow(perm: array3<Byte>, p: seq<int>, i: nat, j: nat)
    requires perm.Length0 == perm.Length1 == 16 && InRange(p, 64) && i < 16 && j < 16
    reads perm
  {
    BitsOf(Row(perm, i, j)) == NibbleMask(p, i, j)
  }

  ghost predicate PermTable(perm: array3<Byte>, p: seq<int>)
    reads perm
  {
    && perm.Length0 == perm.Length1 == 16 && perm.Length2 == 8
    && |p| == 64 && InRange(p, 64)
    && forall i: nat, j: nat :: i < 16 && j < 16 ==> NibbleRow(perm, p, i, j)
  }

  method FillNibble(perm: array3<Byte>, p: seq<int>, i: nat, j: nat)
    requires perm.Length0 == perm.Length1 == 16 && perm.Length2 == 8 && i < 16 && j < 16
    requires |p| == 64 && InRange(p, 64)
    requires BitsOf(Row(perm, i, j)) == BitsOf(Zeros(8))
    modifies perm
    ensures NibbleRow(perm, p, i, j)
    ensures forall a: nat, b: nat :: a < 16 && b < 16 && (a != i || b != j) ==> Row(perm, a, b) == old(Row(perm, a, b))
  {
    hide NibbleBit, Upto, WithBit, BitsOf, Zeros;
    ghost var mask := NibbleMask(p, i, j);
    UptoNone(mask);
    for k := 0 to 64
      invariant BitsOf(Row(perm, i, j)) == Upto(mask, k)
      invariant forall a: nat, b: nat ::
                  a < 16 && b < 16 && (a != i || b != j) ==> Row(perm, a, b) == old(Row(perm, a, b))
    {
      var l := p[k] - 1;
      UptoNext(mask, Row(perm, i, j), k);
      if l / 4 == i && NibbleBit(j, l % 4) {
        OrInto(perm, i, j, k);
      }
    }
    UptoAll(mask);
  }

  /** perminit, for any table of 64 places. */
  method PermInit(perm: array3<Byte>, p: seq<int>)
    requires perm.Length0 == perm.Length1 == 16 && perm.Length2 == 8
    requires |p| == 64 && InRange(p, 64)
    modifies perm
    ensures PermTable(perm, p)
  {
    hide Row, InRange, NibbleMask, BitsOf, Zeros;
    Clear(perm);
    for i := 0 to 16
      invariant forall a: nat, b: nat :: a < 16 && b < 16 ==>
        BitsOf(Row(perm, a, b)) == if a < i then NibbleMask(p, a, b) else BitsOf(Zeros(8))
    {
      for j := 0 to 16
        invariant forall a: nat, b: nat :: a < 16 && b < 16 ==>
          BitsOf(Row(perm, a, b)) == if a < i || (a == i && b < j) then NibbleMask(p, a, b) else BitsOf(Zeros(8))
      {
        FillNibble(perm, p, i, j);
      }
    }
  }

  method OrMasks(out: seq<Byte>, perm: array3<Byte>, j: nat, high: nat, low: nat) returns (r: seq<Byte>)
    requires perm.Length0 == perm.Length1 == 16 && perm.Length2 == 8
    requires |out| == 8 && j < 15 && high < 16 && low < 16
    ensures r == OrAll(out, OrAll(Row(perm, j, high), Row(perm, j + 1, low)))
  {
    hide Or;
    r := out;
    for i := 0 to 8
      invariant |r| == 8
      invariant forall k :: 0 <= k < i ==> r[k] == Or(out[k], Or(perm[j, high, k], perm[j + 1, low, k]))
      invariant forall k :: i <= k < 8 ==> r[k] == out[k]
    {
      r := r[i := Or(r[i], Or(perm[j, high, i], perm[j + 1, low, i]))];
    }
  }

  /** permute: with the table of any `p`, output bit `k` is input bit `p[k]`. */
  method Permute(inblock: seq<Byte>, perm: array3<Byte>, ghost p: seq<int>) returns (outblock: seq<Byte>)
    requires |inblock| == 8 && PermTable(perm, p)
    ensures |outblock| == 8
    ensures BitsOf(outblock) == Select(p, BitsOf(inblock))
  {
    hide BitsOf, Select, Taken, Row, InRange, NibbleMask, HighNibble, LowNibble, Zeros, OrAll;
    outblock := Zeros(8);
    BitsOfZeros(8);
    TakenNone(p, BitsOf(inblock));
    for ib := 0 to 8
      invariant |outblock| == 8
      invariant BitsOf(outblock) == Taken(p, BitsOf(inblock), 8 * ib)
    {
      var high, low := HighNibble(inblock[ib]), LowNibble(inblock[ib]);
      assert NibbleRow(perm, p, 2 * ib, high) && NibbleRow(perm, p, 2 * ib + 1, low);
      PermuteStep(p, inblock, ib, outblock, Row(perm, 2 * ib, high), Row(perm, 2 * ib + 1, low));
      outblock := OrMasks(outblock, perm, 2 * ib, high, low);
    }
    TakenAll(p, BitsOf(inblock));
  }

  /** The masks of the permutation of 32 bits by bytes. */
  ghost predicate ByteRow(t: array3<Byte>, i: nat, j: nat)
    requires t.Length0 == 4 && t.Length1 == 256 && i < 4 && j < 256
    reads t
  {
    BitsOf(Row(t, i, j)) == ByteMask(Permutation(), i, j)
  }

  ghost predicate Perm32Table(t: array3<Byte>)
    reads t
  {
    && t.Length0 == 4 && t.Length1 == 256 && t.Length2 == 4
    && forall i: nat, j: nat :: i < 4 && j < 256 ==> ByteRow(t, i, j)
  }

  method FillByte(t: array3<Byte>, i: nat, j: nat)
    requires t.Length0 == 4 && t.Length1 == 256 && t.Length2 == 4 && i < 4 && j < 256
    requires BitsOf(Row(t, i, j)) == BitsOf(Zeros(4))
    modifies t
    ensures ByteRow(t, i, j)
    ensures forall a: nat, b: nat :: a < 4 && b < 256 && (a != i || b != j) ==> Row(t, a, b) == old(Row(t, a, b))
  {
    hide NumberBit, Upto, WithBit, BitsOf, Zeros, Permutation;
    ghost var mask := ByteMask(Permutation(), i, j);
    UptoNone(mask);
    for k := 0 to 32
      invariant BitsOf(Row(t, i, j)) == Upto(mask, k)
      invariant forall a: nat, b: nat :: a < 4 && b < 256 && (a != i || b != j) ==> Row(t, a, b) == old(Row(t, a, b))
    {
      var l := Permutation()[k] - 1;
      UptoNext(mask, Row(t, i, j), k);
      if l / 8 == i && NumberBit(j, l % 8) {
        OrInto(t, i, j, k);
      }
    }
    UptoAll(mask);
  }

  /** p32init. */
  method Perm32Init(t: array3<Byte>)
    requires t.Length0 == 4 && t.Length1 == 256 && t.Length2 == 4
    modifies t
    ensures Perm32Table(t)
  {
    hide Row, ByteMask, BitsOf, Zeros, Permutation;
    Clear(t);
    for i := 0 to 4
      invariant forall a: nat, b: nat :: a < 4 && b < 256 ==>
        BitsOf(Row(t, a, b)) == if a < i then ByteMask(Permutation(), a, b) else BitsOf(Zeros(4))
    {
      for j := 0 to 256
        invariant forall a: nat, b: nat :: a < 4 && b < 256 ==>
          BitsOf(Row(t, a, b)) == if a < i || (a == i && b < j) then ByteMask(Permutation(), a, b) else BitsOf(Zeros(4))
      {
        FillByte(t, i, j);
      }
    }
  }

  method OrMask(out: seq<Byte>, t: array3<Byte>, j: nat, v: nat) returns (r: seq<Byte>)
    requires t.Length0 == 4 && t.Length1 == 256 && t.Length2 == 4
    requires |out| == 4 && j < 4 && v < 256
    ensures r == OrAll(out, Row(t, j, v))
  {
    hide Or;
    r := [Or(out[0], t[j, v, 0]), Or(out[1], t[j, v, 1]), Or(out[2], t[j, v, 2]), Or(out[3], t[j, v, 3])];
  }

  /** The table of pairs of selection functions. */
  ghost predicate PairTable(ms: array2<Byte>)
    reads ms
  {
    && ms.Length0 == 4 && ms.Length1 == 4096
    && forall i: nat, j: nat :: i < 4 && j < 4096 ==> ms[i, j] == Compression(i, j)
  }

  /** sinit. */
  method PairInit(ms: array2<Byte>)
    requires ms.Length0 == 4 && ms.Length1 == 4096
    modifies ms
    ensures PairTable(ms)
  {
    hide GetComp, Pack;
    for i := 0 to 4
      invariant forall a: nat, b: nat :: a < i && b < 4096 ==> ms[a, b] == Compression(a, b)
    {
      for j := 0 to 4096
        invariant forall a: nat, b: nat :: a < i && b < 4096 ==> ms[a, b] == Compression(a, b)
        invariant forall b: nat :: b < j ==> ms[i, b] == Compression(i, b)
      {
        ms[i, j] := Pack(GetComp(i * 2, j / 64), GetComp(i * 2 + 1, j % 64));
      }
    }
  }

  function KeyRow(mkn: array2<Byte>, i: nat): (r: seq<Byte>)
    requires i < mkn.Length0
    reads mkn
    ensures |r| == mkn.Length1
    ensures forall k :: 0 <= k < mkn.Length1 ==> r[k] == mkn[i, k]
  {
    seq(mkn.Length1, k requires 0 <= k < mkn.Length1 reads mkn => mkn[i, k])
  }

  /** A bit as the source stores it in mpc1m and mpcr. */
  function Flag(b: bool): Byte { if b then 1 else 0 }

  // ---- the user's key ----

  /** The number of bytes of a key string that count: up to the terminator, at most 40. */
  function KeyLength(key: seq<Byte>, i: nat): (n: nat)
    requires i <= 40 && i <= |key|
    ensures i <= n <= 40 && n <= |key|
    ensures n < 40 && n < |key| ==> key[n] == 0
    ensures forall k :: i <= k < n ==> key[k] != 0
    decreases 40 - i
  {
    if i == 40 || i == |key| || key[i] == 0 then i else KeyLength(key, i + 1)
  }

  /** The XOR of the bytes at `j`, `j + 8`, `j + 16`, ... among the first `n`. */
  function Column(key: seq<Byte>, n: nat, j: nat): Byte
    requires n <= |key|
  {
    if n == 0 then 0
    else if (n - 1) % 8 == j then XorByte(Column(key, n - 1, j), key[n - 1])
    else Column(key, n - 1, j)
  }

  function Folded(key: seq<Byte>, n: nat): (r: seq<Byte>)
    requires n <= |key|
    ensures |r| == 8
  {
    seq(8, j requires 0 <= j < 8 => Column(key, n, j))
  }

  lemma FoldNone(key: seq<Byte>)
    ensures Folded(key, 0) == Zeros(8)
  {
  }

  lemma FoldNext(key: seq<Byte>, n: nat)
    requires n < |key|
    ensures Folded(key, n + 1) == Folded(key, n)[n % 8 := XorByte(Folded(key, n)[n % 8], key[n])]
  {
    hide XorByte;
  }

  lemma {:induction false} ColumnFirst(key: seq<Byte>, n: nat, j: nat)
    requires n <= |key| && n <= 8 && j < 8
    ensures Column(key, n, j) == if j < n then XorByte(0, key[j]) else 0
  {
    hide XorByte;
    if n > 0 {
      ColumnFirst(key, n - 1, j);
    }
  }

  lemma {:induction false} ColumnSecond(key: seq<Byte>, n: nat, j: nat)
    requires n <= |key| && 8 <= n <= 16 && j < 8
    ensures Column(key, n, j) == if j + 8 < n then XorByte(XorByte(0, key[j]), key[j + 8]) else XorByte(0, key[j])
  {
    hide XorByte;
    if n == 8 {
      ColumnFirst(key, 8, j);
    } else {
      ColumnSecond(key, n - 1, j);
    }
  }

  lemma XorZero(a: Byte, b: Byte)
    ensures XorByte(XorByte(0, a), b) == 0 <==> a == b
  {
  }

  /** Folding cancels the first sixteen bytes of a key string exactly when the second eight are the first eight again.
      */
  lemma RepeatedKeyCancels(key: seq<Byte>)
    requires |key| >= 16
    ensures Folded(key, 16) == Zeros(8) <==> key[8..16] == key[..8]
  {
    hide XorByte;
    forall j | 0 <= j < 8
      ensures Column(key, 16, j) == 0 <==> key[8..16][j] == key[..8][j]
    {
      ColumnSecond(key, 16, j);
      XorZero(key[j], key[j + 8]);
    }
    if Folded(key, 16) == Zeros(8) {
      forall j | 0 <= j < 8
        ensures key[8..16][j] == key[..8][j]
      {
        assert Folded(key, 16)[j] == 0;
      }
    }
    if key[8..16] == key[..8] {
      forall j | 0 <= j < 8
        ensures Folded(key, 16)[j] == Zeros(8)[j]
      {
      }
    }
  }

  /** What SetKey makes of a terminated key string of sixteen bytes: the schedule of their folding, which is the one of
      the zero key if the string is eight bytes twice. */
  lemma RepeatedKeySchedule(key: seq<Byte>)
    requires |key| > 16 && key[16] == 0 && forall k :: 0 <= k < 16 ==> key[k] != 0
    ensures KeyLength(key, 0) == 16
    ensures Folded(key, KeyLength(key, 0)) == Zeros(8) <==> key[8..16] == key[..8]
    ensures key[8..16] == key[..8] ==> Schedule(BitsOf(Folded(key, KeyLength(key, 0)))) == Schedule(BitsOf(Zeros(8)))
  {
    hide Schedule, BitsOf, Folded;
    KeyLengthIs(key, 0, 16);
    RepeatedKeyCancels(key);
  }

  lemma {:induction false} KeyLengthIs(key: seq<Byte>, i: nat, n: nat)
    requires i <= n < 40 && n < |key| && key[n] == 0 && forall k :: i <= k < n ==> key[k] != 0
    ensures KeyLength(key, i) == n
    decreases n - i
  {
    if i < n {
      KeyLengthIs(key, i + 1, n);
    }
  }

  // ---- buffers of blocks ----

  function Process(keys: seq<Bits>, back: bool, x: Bits): (y: Bits)
    requires Keys(keys) && |x| == 64
    ensures |y| == 64
  {
    if back then Decipher(keys, x) else Encipher(keys, x)
  }

  predicate IsImage(keys: seq<Bits>, back: bool, x: seq<Byte>, y: seq<Byte>)
    requires Keys(keys)
  {
    |x| == 8 && |y| == 8 && BitsOf(y) == Process(keys, back, BitsOf(x))
  }

  /** The image of a block under the cipher, or back. */
  ghost function Image(keys: seq<Bits>, back: bool): Relation
    requires Keys(keys)
  {
    (x: seq<Byte>, y: seq<Byte>) => IsImage(keys, back, x, y)
  }

  /** Forwards is enciphering, back is deciphering. */
  lemma ImageIs(keys: seq<Bits>, x: seq<Byte>, y: seq<Byte>)
    requires Keys(keys)
    ensures Image(keys, false)(x, y) <==> |x| == |y| == 8 && BitsOf(y) == Encipher(keys, BitsOf(x))
    ensures Image(keys, true)(x, y) <==> |x| == |y| == 8 && BitsOf(y) == Decipher(keys, BitsOf(x))
  {
    hide BitsOf, Encipher, Decipher;
  }

  lemma ImagesUndone(keys: seq<Bits>)
    requires Keys(keys)
    ensures forall x, y, z :: Undoes(Image(keys, false), Image(keys, true), 8, x, y, z)
  {
    hide BitsOf, Encipher, Decipher, Keys;
    var rel, back := Image(keys, false), Image(keys, true);
    forall x, y, z
      ensures Undoes(rel, back, 8, x, y, z)
    {
      if |x| == |y| == |z| == 8 && rel(x, y) && back(y, z) {
        DecipherUndoes(keys, BitsOf(x));
        SameBits(z, x);
      }
    }
  }

  /** The length of the data with its padding: always one to eight bytes more. */
  function PaddedLength(n: int): (m: int)
    ensures n < m <= n + 8 && m % 8 == 0
  {
    n + 8 - n % 8
  }

  class CipherDes {
    const mpc1m: array<Byte>
    const mpcr: array<Byte>
    const miperm: array3<Byte>
    const mfperm: array3<Byte>
    const ms: array2<Byte>
    const mp32: array3<Byte>
    const mkn: array2<Byte>

    ghost predicate Shape()
    {
      && mpc1m.Length == 56 && mpcr.Length == 56 && mpc1m != mpcr
      && miperm.Length0 == miperm.Length1 == 16 && miperm.Length2 == 8
      && mfperm.Length0 == mfperm.Length1 == 16 && mfperm.Length2 == 8
      && ms.Length0 == 4 && ms.Length1 == 4096
      && mp32.Length0 == 4 && mp32.Length1 == 256 && mp32.Length2 == 4
      && mkn.Length0 == 16 && mkn.Length1 == 6
      && miperm != mfperm && miperm != mp32 && mfperm != mp32 && ms != mkn
    }

    /** The four tables that do not depend on the key are in place. */
    ghost predicate Ready()
      reads miperm, mfperm, ms, mp32
    {
      && Shape()
      && PermTable(miperm, InitialPermutation())
      && PermTable(mfperm, FinalPermutation())
      && PairTable(ms)
      && Perm32Table(mp32)
    }

    ghost function RoundKeys(): (keys: seq<Bits>)
      requires Shape()
      reads mkn
      ensures Keys(keys)
      ensures forall i :: 0 <= i < 16 ==> keys[i] == BitsOf(KeyRow(mkn, i))
    {
      seq(16, i requires 0 <= i < 16 reads mkn => BitsOf(KeyRow(mkn, i)))
    }

    constructor ()
      ensures Shape()
      ensures fresh(mpc1m) && fresh(mpcr) && fresh(miperm) && fresh(mfperm) && fresh(ms) && fresh(mp32) && fresh(mkn)
    {
      mpc1m := new Byte[56];
      mpcr := new Byte[56];
      miperm := new Byte[16, 16, 8];
      mfperm := new Byte[16, 16, 8];
      ms := new Byte[4, 4096];
      mp32 := new Byte[4, 256, 4];
      mkn := new Byte[16, 6];
    }

    // ---- the cipher function ----

    method Contract32(in48: seq<Byte>) returns (out32: seq<Byte>)
      requires |in48| == 6 && PairTable(ms)
      ensures |out32| == 4 && BitsOf(out32) == Boxes(BitsOf(in48), 8)
    {
      hide Compression, FirstIndex, SecondIndex, BitsOf, Boxes;
      out32 := [ms[0, FirstIndex(in48[0], in48[1])], ms[1, SecondIndex(in48[1], in48[2])],
                ms[2, FirstIndex(in48[3], in48[4])], ms[3, SecondIndex(in48[4], in48[5])]];
      assert out32 == Contract(in48);
      ContractIsBoxes(in48);
    }

    method Perm32(inblock: seq<Byte>) returns (outblock: seq<Byte>)
      requires |inblock| == 4 && Perm32Table(mp32)
      ensures |outblock| == 4 && BitsOf(outblock) == Select(Permutation(), BitsOf(inblock))
    {
      hide BitsOf, Select, Taken, ByteMask, Zeros, Permutation, OrAll, Row;
      ghost var p := Permutation();
      outblock := Zeros(4);
      BitsOfZeros(4);
      TakenNone(p, BitsOf(inblock));
      for j := 0 to 4
        invariant |outblock| == 4
        invariant BitsOf(outblock) == Taken(p, BitsOf(inblock), 8 * j)
      {
        var v := inblock[j] as nat;
        assert ByteRow(mp32, j, v);
        Perm32Step(p, inblock, j, outblock, Row(mp32, j, v));
        outblock := OrMask(outblock, mp32, j, v);
      }
      TakenAll(p, BitsOf(inblock));
    }

    /** f: the cipher function with the key selection of iteration `num`. */
    method F(right: seq<Byte>, num: nat) returns (fret: seq<Byte>)
      requires |right| == 4 && num < 16 && Ready()
      ensures |fret| == 4 && BitsOf(fret) == CipherFunction(BitsOf(right), RoundKeys()[num])
    {
      hide Expand, BitsOf, Boxes, Select, Expansion, Permutation, PermTable, PairTable, Perm32Table, XorByte, Xor;
      var bigright := Expand(right);
      ExpandIsExpansion(right);
      var result := [XorByte(bigright[0], mkn[num, 0]), XorByte(bigright[1], mkn[num, 1]),
                     XorByte(bigright[2], mkn[num, 2]), XorByte(bigright[3], mkn[num, 3]),
                     XorByte(bigright[4], mkn[num, 4]), XorByte(bigright[5], mkn[num, 5])];
      BitsOfXor(bigright, KeyRow(mkn, num), result);
      var preout := Contract32(result);
      fret := Perm32(preout);
    }

    /** iter. */
    method Iter(num: nat, inblock: seq<Byte>) returns (outblock: seq<Byte>)
      requires num < 16 && |inblock| == 8 && Ready()
      ensures |outblock| == 8 && BitsOf(outblock) == Iterate(BitsOf(inblock), RoundKeys()[num])
    {
      hide BitsOf, CipherFunction, PermTable, PairTable, Perm32Table, XorByte, Xor, RoundKeys;
      var fret := F(inblock[4..], num);
      var r := [XorByte(inblock[0], fret[0]), XorByte(inblock[1], fret[1]),
                XorByte(inblock[2], fret[2]), XorByte(inblock[3], fret[3])];
      outblock := inblock[4..] + r;
      BitsOfXor(inblock[..4], fret, r);
      BitsOfSlice(inblock, 0, 4);
      BitsOfSlice(inblock, 4, 8);
      BitsOfConcat(inblock[4..], r);
      assert inblock[4..8] == inblock[4..] && inblock[0..4] == inblock[..4];
      assert BitsOf(inblock)[32..64] == BitsOf(inblock)[32..] && BitsOf(inblock)[0..32] == BitsOf(inblock)[..32];
    }

    /** endes: the enciphering of FIPS 46-3. */
    method EnDes(inblock: seq<Byte>) returns (outblock: seq<Byte>)
      requires |inblock| == 8 && Ready()
      ensures |outblock| == 8 && BitsOf(outblock) == Encipher(RoundKeys(), BitsOf(inblock))
    {
      hide BitsOf, PermTable, PairTable, Perm32Table, Select, InitialPermutation, FinalPermutation, Iterate, RoundKeys;
      var iters := Permute(inblock, miperm, InitialPermutation());
      ghost var x := BitsOf(iters);
      for i := 0 to 16
        invariant |iters| == 8
        invariant BitsOf(iters) == Iterations(RoundKeys(), i, x)
      {
        iters := Iter(i, iters);
      }
      var swap := iters[4..] + iters[..4];
      SwapIsSwap(iters);
      outblock := Permute(swap, mfperm, FinalPermutation());
    }

    /** dedes: the same with the key selections in reverse order. */
    method DeDes(inblock: seq<Byte>) returns (outblock: seq<Byte>)
      requires |inblock| == 8 && Ready()
      ensures |outblock| == 8 && BitsOf(outblock) == Decipher(RoundKeys(), BitsOf(inblock))
    {
      hide BitsOf, PermTable, PairTable, Perm32Table, Select, InitialPermutation, FinalPermutation, Iterate, RoundKeys;
      var iters := Permute(inblock, miperm, InitialPermutation());
      ghost var x := BitsOf(iters);
      for i := 0 to 16
        invariant |iters| == 8
        invariant BitsOf(iters) == Iterations(Reversed(RoundKeys()), i, x)
      {
        iters := Iter(15 - i, iters);
      }
      var swap := iters[4..] + iters[..4];
      SwapIsSwap(iters);
      outblock := Permute(swap, mfperm, FinalPermutation());
    }

    static lemma SwapIsSwap(s: seq<Byte>)
      requires |s| == 8
      ensures BitsOf(s[4..] + s[..4]) == SwapHalves(BitsOf(s))
    {
      hide BitsOf;
      BitsOfConcat(s[4..], s[..4]);
      BitsOfSlice(s, 0, 4);
      BitsOfSlice(s, 4, 8);
      assert s[4..8] == s[4..] && s[0..4] == s[..4];
      assert BitsOf(s)[32..64] == BitsOf(s)[32..] && BitsOf(s)[0..32] == BitsOf(s)[..32];
    }

    // ---- buffers ----

    method ProcessBlock(buf: array<Byte>, at: nat, back: bool) returns (ghost y: seq<Byte>)
      requires at + 8 <= buf.Length && Ready()
      modifies buf
      ensures |y| == 8 && BitsOf(y) == Process(RoundKeys(), back, BitsOf(old(buf[..])[at..at + 8]))
      ensures buf[..] == Splice(old(buf[..]), at, y)
    {
      hide BitsOf, PermTable, PairTable, Perm32Table, Encipher, Decipher, RoundKeys;
      var block;
      if back {
        block := DeDes(buf[at..at + 8]);
      } else {
        block := EnDes(buf[at..at + 8]);
      }
      y := block;
      for i := 0 to 8
        invariant buf[..at] == old(buf[..at]) && buf[at + 8..] == old(buf[at + 8..])
        invariant buf[at..at + i] == block[..i]
      {
        buf[at + i] := block[i];
        assert buf[at..at + i + 1] == buf[at..at + i] + [block[i]];
      }
      assert buf[..] == buf[..at] + buf[at..at + 8] + buf[at + 8..];
      assert old(buf[..])[at..at + 8] == old(buf[at..at + 8]);
    }

    /** DesWriteBlock and DesReadBlock: the whole blocks among the first `len` bytes, in place. */
    method ProcessBlocks(buf: array<Byte>, len: int, back: bool)
      requires len <= buf.Length && Ready()
      modifies buf
      ensures Processed(Image(RoundKeys(), back), 8, old(buf[..]), buf[..], if len < 0 then 0 else len - len % 8)
    {
      hide PermTable, PairTable, Perm32Table, Process, RoundKeys, Processed, Splice, BitsOf;
      var mLen := len - len % 8;
      var outString := 0;
      ghost var keys, s := RoundKeys(), buf[..];
      NoBlocks(Image(keys, back), 8, s);
      while mLen > 0
        invariant Ready() && RoundKeys() == keys
        invariant mLen % 8 == 0 && outString == if len < 0 then 0 else len - len % 8 - mLen
        invariant 0 <= outString <= buf.Length && (len >= 0 ==> mLen >= 0)
        invariant Processed(Image(keys, back), 8, s, buf[..], outString)
        decreases mLen
      {
        ghost var before := buf[..];
        ghost var y := ProcessBlock(buf, outString, back);
        BlockDone(Image(keys, back), 8, s, before, outString, y);
        mLen, outString := mLen - 8, outString + 8;
      }
    }

    // ---- the key ----

    method ClearKeys()
      requires Shape()
      modifies mkn
      ensures forall i: nat :: i < 16 ==> KeyRow(mkn, i) == Zeros(6)
    {
      for i := 0 to 16
        invariant forall a, k :: 0 <= a < i && 0 <= k < 6 ==> mkn[a, k] == 0
      {
        for j := 0 to 6
          invariant forall a, k :: 0 <= a < i && 0 <= k < 6 ==> mkn[a, k] == 0
          invariant forall k :: 0 <= k < j ==> mkn[i, k] == 0
        {
          mkn[i, j] := 0;
        }
      }
    }

    method KeyOrInto(i: nat, k: nat)
      requires Shape() && i < 16 && k < 48
      modifies mkn
      ensures KeyRow(mkn, i) == WithBit(old(KeyRow(mkn, i)), k)
      ensures forall a: nat :: a < 16 && a != i ==> KeyRow(mkn, a) == old(KeyRow(mkn, a))
    {
      hide Or, ByteBit;
      mkn[i, k / 8] := Or(mkn[i, k / 8], ByteBit(k % 8));
    }

    /** Picks the 48 bits of one key selection out of the rotated 56. */
    method SelectKey(i: nat, ghost rotated: Bits)
      requires Shape() && i < 16 && |rotated| == 56
      requires forall j :: 0 <= j < 56 ==> mpcr[j] == Flag(rotated[j])
      requires BitsOf(KeyRow(mkn, i)) == BitsOf(Zeros(6))
      modifies mkn
      ensures BitsOf(KeyRow(mkn, i)) == Select(Choice2(), rotated)
      ensures forall a: nat :: a < 16 && a != i ==> KeyRow(mkn, a) == old(KeyRow(mkn, a))
    {
      hide Upto, WithBit, BitsOf, Zeros, Choice2, KeyRow;
      ghost var mask := Select(Choice2(), rotated);
      UptoNone(mask);
      for j := 0 to 48
        invariant BitsOf(KeyRow(mkn, i)) == Upto(mask, j)
        invariant forall a: nat :: a < 16 && a != i ==> KeyRow(mkn, a) == old(KeyRow(mkn, a))
      {
        UptoNext(mask, KeyRow(mkn, i), j);
        if mpcr[Choice2()[j] - 1] != 0 {
          KeyOrInto(i, j);
        }
      }
      UptoAll(mask);
    }

    /** The bits of the key in the order of permuted choice 1. */
    method ChooseBits(key64bit: seq<Byte>)
      requires Shape() && |key64bit| == 8
      modifies mpc1m
      ensures forall j :: 0 <= j < 56 ==> mpc1m[j] == Flag(Select(Choice1(), BitsOf(key64bit))[j])
    {
      hide Choice1, Bit, Flag, BitsOf, Select;
      for j := 0 to 56
        invariant forall k :: 0 <= k < j ==> mpc1m[k] == Flag(Select(Choice1(), BitsOf(key64bit))[k])
      {
        var l := Choice1()[j] - 1;
        KeyBit(key64bit, j);
        mpc1m[j] := Flag(Bit(key64bit[l / 8], l % 8));
      }
    }

    static lemma KeyBit(key64bit: seq<Byte>, j: nat)
      requires |key64bit| == 8 && j < 56
      ensures var l := Choice1()[j] - 1; Select(Choice1(), BitsOf(key64bit))[j] == Bit(key64bit[l / 8], l % 8)
    {
      hide Choice1, Bit;
    }

    method Rotate(i: nat, ghost cd: Bits) returns (ghost rotated: Bits)
      requires Shape() && i < 16 && |cd| == 56
      requires forall j :: 0 <= j < 56 ==> mpc1m[j] == Flag(cd[j])
      modifies mpcr
      ensures |rotated| == 56
      ensures forall j :: 0 <= j < 56 ==> rotated[j] == cd[RotatedPlace(i, j)]
      ensures forall j :: 0 <= j < 56 ==> mpcr[j] == Flag(rotated[j])
    {
      hide Flag;
      rotated := seq(56, j requires 0 <= j < 56 => cd[RotatedPlace(i, j)]);
      ShiftsAddUp(i);
      for j := 0 to 56
        invariant forall k :: 0 <= k < j ==> mpcr[k] == Flag(rotated[k])
      {
        var l := j + TOTROT[i];
        mpcr[j] := mpc1m[if l < (if j < 28 then 28 else 56) then l else l - 28];
      }
    }

    /** kinit: the key schedule of FIPS 46-3. */
    method KInit(key64bit: seq<Byte>)
      requires Shape() && |key64bit| == 8
      modifies mpc1m, mpcr, mkn
      ensures RoundKeys() == Schedule(BitsOf(key64bit))
    {
      hide BitsOf, Select, Choice1, Choice2, RoundKey, Zeros, KeyRow, RotatedPlace, Flag;
      ghost var key := BitsOf(key64bit);
      ghost var cd := Select(Choice1(), key);
      ChooseBits(key64bit);
      ClearKeys();
      for i := 0 to 16
        invariant forall j :: 0 <= j < 56 ==> mpc1m[j] == Flag(cd[j])
        invariant forall a: nat :: a < 16 ==>
                    BitsOf(KeyRow(mkn, a)) == if a < i then RoundKey(key, a + 1) else BitsOf(Zeros(6))
      {
        ghost var rotated := Rotate(i, cd);
        SelectKey(i, rotated);
        RoundKeyIsRotated(key, i, rotated);
      }
    }

    /** DesKeyInit: every table, and the schedule of the folded key string. */
    method DesKeyInit(keyValue: seq<Byte>)
      requires Shape() && (|keyValue| > 40 || 0 in keyValue)
      modifies mpc1m, mpcr, miperm, mfperm, ms, mp32, mkn
      ensures Ready()
      ensures RoundKeys() == Schedule(BitsOf(Folded(keyValue, KeyLength(keyValue, 0))))
    {
      hide BitsOf, Schedule, PermTable, PairTable, Perm32Table, RoundKeys, InitialPermutation;
      hide FinalPermutation, Folded, XorByte;
      var key := Zeros(8);
      FoldNone(keyValue);
      var i := 0;
      while keyValue[i] != 0 && i < 40
        invariant 0 <= i <= 40 && i < |keyValue|
        invariant forall k :: 0 <= k < i ==> keyValue[k] != 0
        invariant KeyLength(keyValue, 0) == KeyLength(keyValue, i)
        invariant |key| == 8 && key == Folded(keyValue, i)
        decreases 40 - i
      {
        FoldNext(keyValue, i);
        key := key[i % 8 := XorByte(key[i % 8], keyValue[i])];
        i := i + 1;
      }
      PermInit(miperm, InitialPermutation());
      PermInit(mfperm, FinalPermutation());
      KInit(key);
      PairInit(ms);
      Perm32Init(mp32);
    }

    /** The length is only compared with 40; the key is what comes before the terminator. */
    method SetKey(cipherKey: Option<seq<Byte>>, cipherKeyLength: int) returns (rc: int)
      requires Shape()
      requires cipherKey.Some? && cipherKeyLength <= 40 ==> |cipherKey.value| > 40 || 0 in cipherKey.value
      modifies mpc1m, mpcr, miperm, mfperm, ms, mp32, mkn
      ensures rc == if cipherKey.None? || cipherKeyLength > 40 then INVALID_KEY_LENGTH else CIPHER_SUCCESS
      ensures rc == CIPHER_SUCCESS ==> Ready()
      ensures rc == CIPHER_SUCCESS ==>
                RoundKeys() == Schedule(BitsOf(Folded(cipherKey.value, KeyLength(cipherKey.value, 0))))
      ensures rc != CIPHER_SUCCESS ==>
                unchanged(mpc1m) && unchanged(mpcr) && unchanged(miperm) && unchanged(mfperm) && unchanged(ms)
                && unchanged(mp32) && unchanged(mkn)
    {
      hide BitsOf, Schedule, PermTable, PairTable, Perm32Table, RoundKeys, InitialPermutation, FinalPermutation, Folded;
      if cipherKey.None? || cipherKeyLength > 40 {
        return INVALID_KEY_LENGTH;
      }
      DesKeyInit(cipherKey.value);
      return CIPHER_SUCCESS;
    }

    // ---- the padded interface ----

    /** Encrypt: the data and 1 to 8 zeros up to a whole number of blocks, enciphered block by block. A buffer given as
        both input and output is zeroed first, and zeros are enciphered. */
    method Encrypt(originalData: array?<Byte>, originalDataLength: int, encData: array?<Byte>, encDataSize: int)
      returns (rc: int)
      requires Ready()
      requires originalData != null ==> originalDataLength <= originalData.Length
      requires encData != null ==> encDataSize <= encData.Length
      modifies if encData == null then {} else {encData}
      ensures rc == if originalData == null then NULL_INPUTDATA
                    else if encData == null then NULL_OUTPUTDATA
                    else if originalDataLength < 0 then INVALID_INPUTDATA_LENGTH
                    else if encDataSize < PaddedLength(originalDataLength) then INVALID_OUTPUTDATA_SIZE
                    else PaddedLength(originalDataLength)
      ensures rc <= 0 && encData != null ==> encData[..] == old(encData[..])
      ensures rc > 0 ==> encData[encDataSize..] == old(encData[encDataSize..])
      ensures rc > 0 ==>
                Processed(Image(RoundKeys(), false), 8,
                          Filled(originalData == encData, old(originalData[..]), originalDataLength, encDataSize),
                          encData[..encDataSize], rc)
    {
      hide BitsOf, PermTable, PairTable, Perm32Table, RoundKeys, Processed, Image;
      if originalData == null {
        return NULL_INPUTDATA;
      }
      if encData == null {
        return NULL_OUTPUTDATA;
      }
      if originalDataLength < 0 {
        return INVALID_INPUTDATA_LENGTH;
      }
      if encDataSize < originalDataLength {
        return INVALID_OUTPUTDATA_SIZE;
      }
      var blockLen := 8 - originalDataLength % 8;
      var retLength := originalDataLength + blockLen;
      if retLength > encDataSize {
        return INVALID_OUTPUTDATA_SIZE;
      }
      FillFrom(encData, encDataSize, originalData, originalDataLength);
      ghost var filled := encData[..];
      ProcessBlocks(encData, retLength, false);
      ProcessedPrefix(Image(RoundKeys(), false), 8, filled, encData[..], retLength, encDataSize);
      return retLength;
    }

    /** Decrypt: the whole blocks of the data deciphered one by one, the rest copied, and zeros behind it; zeros are
        deciphered if input and output are the same buffer. */
    method Decrypt(originalData: array?<Byte>, originalDataLength: int, decData: array?<Byte>, decDataSize: int)
      returns (rc: int)
      requires Ready()
      requires originalData != null ==> 0 <= originalDataLength <= originalData.Length
      requires decData != null ==> decDataSize <= decData.Length
      modifies if decData == null then {} else {decData}
      ensures rc == if originalData == null then NULL_INPUTDATA
                    else if decData == null then NULL_OUTPUTDATA
                    else if decDataSize < originalDataLength then INVALID_INPUTDATA_LENGTH
                    else originalDataLength
      ensures rc < 0 && decData != null ==> decData[..] == old(decData[..])
      ensures rc >= 0 ==> decData[decDataSize..] == old(decData[decDataSize..])
      ensures rc >= 0 ==>
                Processed(Image(RoundKeys(), true), 8,
                          Filled(originalData == decData, old(originalData[..]), rc, decDataSize),
                          decData[..decDataSize], rc - rc % 8)
    {
      hide BitsOf, PermTable, PairTable, Perm32Table, RoundKeys, Processed, Image;
      if originalData == null {
        return NULL_INPUTDATA;
      }
      if decData == null {
        return NULL_OUTPUTDATA;
      }
      if originalDataLength > decDataSize {
        return INVALID_INPUTDATA_LENGTH;
      }
      FillFrom(decData, decDataSize, originalData, originalDataLength);
      ghost var filled := decData[..];
      ProcessBlocks(decData, originalDataLength, true);
      ProcessedPrefix(Image(RoundKeys(), true), 8, filled, decData[..],
                      originalDataLength - originalDataLength % 8, decDataSize);
      return originalDataLength;
    }

    /** Encrypting and then decrypting gives back the data, followed by the zeros of the padding. */
    method RoundTrip(data: array<Byte>, n: nat, enc: array<Byte>, encSize: nat, dec: array<Byte>, decSize: nat)
      requires Ready()
      requires n <= data.Length && encSize <= enc.Length && decSize <= dec.Length
      requires data != enc && enc != dec && data != dec
      requires PaddedLength(n) <= encSize && PaddedLength(n) <= decSize
      modifies enc, dec
      ensures dec[..decSize] == Padded(data[..], n, decSize)
    {
      hide BitsOf, PermTable, PairTable, Perm32Table, RoundKeys, Processed, Image, Padded, Undoes;
      var m := Encrypt(data, n, enc, encSize);
      var k := Decrypt(enc, m, dec, decSize);
      ImagesUndone(RoundKeys());
      PaddedRoundTrip(Image(RoundKeys(), false), Image(RoundKeys(), true), 8, data[..], n, m,
                      enc[..], encSize, dec[..decSize], decSize);
    }
  }
}
