/** Blowfish as BaseLib/CipherBlowfish.cpp computes it: rounds written out, in place, on a matrix of subkeys and
    S-boxes. The functions on the global tables and their _local versions differ only in which matrix they use. */
module CipherBlowfish {
  import opened BlockMode
  import opened BlowfishStandard
  import opened CipherBase
  import opened Memory
  import opened Words

  /** The words in hand after `k` rounds: `a` was updated last and carries its subkey already. */
  predicate InRound(t: Tables, h: Halves, k: nat, a: Word, b: Word)
    requires Wf(t) && k <= ROUNDS
  {
    var e := Rounds(t, h, k);
    a == Xor(e.left, t.p[k]) && b == e.right
  }

  lemma RoundDone(t: Tables, h: Halves, k: nat, a: Word, b: Word)
    requires Wf(t) && k < ROUNDS && InRound(t, h, k, b, a)
    ensures InRound(t, h, k + 1, Xor(a, Xor(F(t, b), t.p[k + 1])), b)
  {
    hide F, Xor;
    XorAssociates(a, F(t, b), t.p[k + 1]);
  }

  function CipherHalves(t: Tables, back: bool, h: Halves): Halves
    requires Wf(t)
  {
    if back then Decipher(t, h) else Encipher(t, h)
  }

  /** A block is two little-endian words. */
  function BlockHalves(x: seq<Byte>): Halves
    requires |x| == 8
  {
    Halves(WordAt(x, 0), WordAt(x, 4))
  }

  function HalvesBlock(h: Halves): (x: seq<Byte>)
    ensures |x| == 8
  {
    WordBytes(h.left) + WordBytes(h.right)
  }

  lemma BlockRoundTrip(h: Halves)
    ensures BlockHalves(HalvesBlock(h)) == h
  {
    hide WordOf, ByteOf;
    WordRoundTrip(h.left);
    WordRoundTrip(h.right);
  }

  lemma HalvesRoundTrip(x: seq<Byte>)
    requires |x| == 8
    ensures HalvesBlock(BlockHalves(x)) == x
  {
    hide WordOf, WordBytes;
    BytesRoundTrip(x[0], x[1], x[2], x[3]);
    BytesRoundTrip(x[4], x[5], x[6], x[7]);
  }

  predicate IsImage(t: Tables, back: bool, x: seq<Byte>, y: seq<Byte>)
    requires Wf(t)
  {
    |x| == 8 && y == HalvesBlock(CipherHalves(t, back, BlockHalves(x)))
  }

  ghost function Image(t: Tables, back: bool): Relation
    requires Wf(t)
  {
    (x: seq<Byte>, y: seq<Byte>) => IsImage(t, back, x, y)
  }

  /** Forwards is enciphering, back is deciphering, on two little-endian words. */
  lemma ImageIs(t: Tables, x: seq<Byte>, l: Word, r: Word)
    requires Wf(t) && |x| == 8
    ensures var h := Halves(WordAt(x, 0), WordAt(x, 4));
            && (Image(t, false)(x, WordBytes(l) + WordBytes(r)) <==> Halves(l, r) == Encipher(t, h))
            && (Image(t, true)(x, WordBytes(l) + WordBytes(r)) <==> Halves(l, r) == Decipher(t, h))
  {
    hide Encipher, Decipher, Wf, WordBytes, WordAt;
    var h, y := BlockHalves(x), HalvesBlock(Halves(l, r));
    BlockRoundTrip(Halves(l, r));
    BlockRoundTrip(Encipher(t, h));
    BlockRoundTrip(Decipher(t, h));
    hide BlockHalves;
    assert y == WordBytes(l) + WordBytes(r);
  }

  lemma ImagesUndone(t: Tables)
    requires Wf(t)
    ensures forall x, y, z :: Undoes(Image(t, false), Image(t, true), 8, x, y, z)
  {
    hide BlockHalves, HalvesBlock, Encipher, Decipher, Wf;
    var rel, back := Image(t, false), Image(t, true);
    forall x, y, z
      ensures Undoes(rel, back, 8, x, y, z)
    {
      if |x| == |y| == |z| == 8 && rel(x, y) && back(y, z) {
        var h := BlockHalves(x);
        BlockRoundTrip(Encipher(t, h));
        DecipherUndoes(t, h);
        HalvesRoundTrip(x);
      }
    }
  }

  // ---- the macros and table loops, on any pair of tables ----

  ghost predicate AreTables(P: array<Word>, S: array2<Word>)
  {
    P.Length == ROUNDS + 2 && S.Length0 == 4 && S.Length1 == 256
  }

  ghost function Boxes(S: array2<Word>): (s: seq<seq<Word>>)
    requires S.Length0 == 4 && S.Length1 == 256
    reads S
    ensures |s| == 4
    ensures forall i :: 0 <= i < 4 ==> |s[i]| == 256 && forall j :: 0 <= j < 256 ==> s[i][j] == S[i, j]
  {
    seq(4, i requires 0 <= i < 4 reads S => seq(256, j requires 0 <= j < 256 reads S => S[i, j]))
  }

  ghost function TablesOf(P: array<Word>, S: array2<Word>): (t: Tables)
    requires AreTables(P, S)
    reads P, S
    ensures Wf(t)
  {
    Tables(P[..], Boxes(S))
  }

  /** bf_F. */
  method BfF(P: array<Word>, S: array2<Word>, x: Word) returns (f: Word)
    requires AreTables(P, S)
    ensures f == F(TablesOf(P, S), x)
  {
    hide Quarter, Xor, Add;
    f := Add(Xor(Add(S[0, Quarter(x, 0)], S[1, Quarter(x, 1)]), S[2, Quarter(x, 2)]), S[3, Quarter(x, 3)]);
  }

  /** ROUND with subkey `n`, as round `k` of the cipher with the tables `t`. */
  method RoundWith(P: array<Word>, S: array2<Word>, a: Word, b: Word, n: nat, ghost t: Tables, ghost h: Halves,
                   ghost k: nat)
    returns (r: Word)
    requires AreTables(P, S) && n <= ROUNDS + 1 && k < ROUNDS
    requires Wf(t) && t.s == Boxes(S) && t.p[k + 1] == P[n]
    requires InRound(t, h, k, b, a)
    ensures InRound(t, h, k + 1, r, b)
  {
    hide F, Xor, InRound;
    RoundDone(t, h, k, a, b);
    SameBoxes(TablesOf(P, S), t, b);
    var f := BfF(P, S, b);
    r := Xor(a, Xor(f, P[n]));
  }

  lemma SameBoxes(t: Tables, u: Tables, x: Word)
    requires Wf(t) && Wf(u) && t.s == u.s
    ensures F(t, x) == F(u, x)
  {
  }

  lemma Started(t: Tables, h: Halves)
    requires Wf(t)
    ensures InRound(t, h, 0, Xor(h.left, t.p[0]), h.right)
  {
  }

  lemma Finished(t: Tables, h: Halves, a: Word, b: Word)
    requires Wf(t) && InRound(t, h, ROUNDS, a, b)
    ensures BlowfishStandard.Encipher(t, h) == Halves(Xor(b, t.p[ROUNDS + 1]), a)
  {
    hide Xor, Rounds;
  }

  method Load(P: array<Word>, S: array2<Word>, source: Tables)
    requires AreTables(P, S) && Wf(source)
    modifies P, S
    ensures TablesOf(P, S) == source
  {
    for i := 0 to ROUNDS + 2
      invariant P[..i] == source.p[..i]
    {
      P[i] := source.p[i];
    }
    for i := 0 to 4
      modifies S
      invariant forall a, b :: 0 <= a < i && 0 <= b < 256 ==> S[a, b] == source.s[a][b]
    {
      for j := 0 to 256
        modifies S
        invariant forall a, b :: 0 <= a < i && 0 <= b < 256 ==> S[a, b] == source.s[a][b]
        invariant forall b :: 0 <= b < j ==> S[i, b] == source.s[i][b]
      {
        S[i, j] := source.s[i][j];
      }
    }
    forall i | 0 <= i < 4
      ensures Boxes(S)[i] == source.s[i]
    {
    }
  }

  /** The remainder of C, with the sign of the dividend. */
  function Rem(a: int, b: int): int
    requires b != 0
  {
    if a >= 0 then a % Magnitude(b) else -(-a % Magnitude(b))
  }

  function Magnitude(n: int): (m: nat)
    ensures m == 0 <==> n == 0
  {
    if n < 0 then -n else n
  }

  /** The subkeys combined with the bytes of the key, taken in a circle. Dividing by a negative length goes round as
      dividing by the positive one does. */
  method MixKey(P: array<Word>, S: array2<Word>, key: seq<Byte>, keybytes: int, ghost source: Tables)
    requires AreTables(P, S) && Wf(source) && 0 < Magnitude(keybytes) == |key|
    requires TablesOf(P, S) == source
    modifies P
    ensures TablesOf(P, S) == Keyed(source, key)
  {
    hide Xor, WordOf, Boxes;
    var j := 0;
    for i := 0 to ROUNDS + 2
      invariant j == 4 * i % |key|
      invariant forall k :: 0 <= k < i ==> P[k] == Xor(source.p[k], KeyWord(key, k))
      invariant forall k :: i <= k < ROUNDS + 2 ==> P[k] == source.p[k]
    {
      ModuloOfSum(4 * i, 1, |key|);
      ModuloOfSum(4 * i, 2, |key|);
      ModuloOfSum(4 * i, 3, |key|);
      ModuloOfSum(4 * i, 4, |key|);
      var data := WordOf(key[Rem(j + 3, keybytes)], key[Rem(j + 2, keybytes)], key[Rem(j + 1, keybytes)], key[j]);
      P[i] := Xor(P[i], data);
      j := Rem(j + 4, keybytes);
    }
    assert P[..] == Keyed(source, key).p;
  }

  method StorePair(S: array2<Word>, i: nat, j: nat, l: Word, r: Word)
    requires S.Length0 == 4 && S.Length1 == 256 && i < 4 && j < 255
    modifies S
    ensures Boxes(S) == old(Boxes(S))[i := old(Boxes(S))[i][j := l][j + 1 := r]]
  {
    S[i, j] := l;
    S[i, j + 1] := r;
    forall k | 0 <= k < 4
      ensures Boxes(S)[k] == if k == i then old(Boxes(S))[i][j := l][j + 1 := r] else old(Boxes(S))[k]
    {
    }
  }

  lemma EntriesNext(c: Setup, i: nat, j: nat)
    requires Wf(c.t) && i < 4 && j < 255 && j % 2 == 0
    ensures var n := 128 * i + j / 2;
            && n < 512 && Entries(c, n + 1) == NextEntries(Entries(c, n), n)
  {
    hide NextEntries, Wf;
  }

  /** Blowfish_matrix, with the _local functions. */
  class BlowfishMatrix {
    const P: array<Word>
    const S: array2<Word>

    ghost predicate Shape()
    {
      AreTables(P, S)
    }

    ghost function Contents(): (t: Tables)
      requires Shape()
      reads P, S
      ensures Wf(t)
    {
      TablesOf(P, S)
    }

    constructor ()
      ensures Shape() && fresh(P) && fresh(S)
    {
      P := new Word[ROUNDS + 2](_ => 0);
      S := new Word[4, 256]((_, _) => 0);
    }

    /** Blowfish_encipher_local. */
    method Encipher(xl: Word, xr: Word) returns (l: Word, r: Word)
      requires Shape()
      ensures Halves(l, r) == BlowfishStandard.Encipher(Contents(), Halves(xl, xr))
    {
      hide Xor, InRound, F, Boxes, Wf;
      ghost var t, h := Contents(), Halves(xl, xr);
      var Xl, Xr := xl, xr;
      Xl := Xor(Xl, P[0]);
      Started(t, h);
      Xr := RoundWith(P, S, Xr, Xl, 1, t, h, 0);
      Xl := RoundWith(P, S, Xl, Xr, 2, t, h, 1);
      Xr := RoundWith(P, S, Xr, Xl, 3, t, h, 2);
      Xl := RoundWith(P, S, Xl, Xr, 4, t, h, 3);
      Xr := RoundWith(P, S, Xr, Xl, 5, t, h, 4);
      Xl := RoundWith(P, S, Xl, Xr, 6, t, h, 5);
      Xr := RoundWith(P, S, Xr, Xl, 7, t, h, 6);
      Xl := RoundWith(P, S, Xl, Xr, 8, t, h, 7);
      Xr := RoundWith(P, S, Xr, Xl, 9, t, h, 8);
      Xl := RoundWith(P, S, Xl, Xr, 10, t, h, 9);
      Xr := RoundWith(P, S, Xr, Xl, 11, t, h, 10);
      Xl := RoundWith(P, S, Xl, Xr, 12, t, h, 11);
      Xr := RoundWith(P, S, Xr, Xl, 13, t, h, 12);
      Xl := RoundWith(P, S, Xl, Xr, 14, t, h, 13);
      Xr := RoundWith(P, S, Xr, Xl, 15, t, h, 14);
      Xl := RoundWith(P, S, Xl, Xr, 16, t, h, 15);
      Finished(t, h, Xl, Xr);
      Xr := Xor(Xr, P[17]);
      l, r := Xr, Xl;
    }

    /** Blowfish_decipher_local. */
    method Decipher(xl: Word, xr: Word) returns (l: Word, r: Word)
      requires Shape()
      ensures Halves(l, r) == BlowfishStandard.Decipher(Contents(), Halves(xl, xr))
    {
      hide Xor, InRound, F, Boxes, Wf, BlowfishStandard.Encipher;
      ghost var t, h := Backwards(Contents()), Halves(xl, xr);
      var Xl, Xr := xl, xr;
      Xl := Xor(Xl, P[17]);
      Started(t, h);
      Xr := RoundWith(P, S, Xr, Xl, 16, t, h, 0);
      Xl := RoundWith(P, S, Xl, Xr, 15, t, h, 1);
      Xr := RoundWith(P, S, Xr, Xl, 14, t, h, 2);
      Xl := RoundWith(P, S, Xl, Xr, 13, t, h, 3);
      Xr := RoundWith(P, S, Xr, Xl, 12, t, h, 4);
      Xl := RoundWith(P, S, Xl, Xr, 11, t, h, 5);
      Xr := RoundWith(P, S, Xr, Xl, 10, t, h, 6);
      Xl := RoundWith(P, S, Xl, Xr, 9, t, h, 7);
      Xr := RoundWith(P, S, Xr, Xl, 8, t, h, 8);
      Xl := RoundWith(P, S, Xl, Xr, 7, t, h, 9);
      Xr := RoundWith(P, S, Xr, Xl, 6, t, h, 10);
      Xl := RoundWith(P, S, Xl, Xr, 5, t, h, 11);
      Xr := RoundWith(P, S, Xr, Xl, 4, t, h, 12);
      Xl := RoundWith(P, S, Xl, Xr, 3, t, h, 13);
      Xr := RoundWith(P, S, Xr, Xl, 2, t, h, 14);
      Xl := RoundWith(P, S, Xl, Xr, 1, t, h, 15);
      Finished(t, h, Xl, Xr);
      Xr := Xor(Xr, P[0]);
      l, r := Xr, Xl;
    }

    // ---- buffers ----

    method ProcessBlock(buf: array<Byte>, at: nat, back: bool) returns (ghost y: seq<Byte>)
      requires Shape() && at + 8 <= buf.Length
      modifies buf
      ensures |y| == 8 && IsImage(Contents(), back, old(buf[..])[at..at + 8], y)
      ensures buf[..] == Splice(old(buf[..]), at, y)
    {
      hide BlowfishStandard.Encipher, BlowfishStandard.Decipher, WordOf, WordBytes, Splice, Wf;
      ghost var before, x := buf[..], buf[..][at..at + 8];
      var l := LoadWord(buf, at);
      var r := LoadWord(buf, at + 4);
      assert l == WordAt(x, 0) && r == WordAt(x, 4) by {
        assert buf[at..at + 4] == x[0..4] && buf[at + 4..at + 8] == x[4..8];
      }
      if back {
        l, r := Decipher(l, r);
      } else {
        l, r := Encipher(l, r);
      }
      StoreWord(buf, at, l);
      StoreWord(buf, at + 4, r);
      y := WordBytes(l) + WordBytes(r);
      SpliceTwice(before, at, WordBytes(l), WordBytes(r));
    }

    /** BlowfishEncryptLocal and BlowfishDecryptLocal: the whole blocks among the first `length` bytes, in place. */
    method ProcessBlocks(buf: array<Byte>, length: int, back: bool) returns (processed: int)
      requires Shape() && length <= buf.Length
      modifies buf
      ensures processed == 8 * (length / 8)
      ensures Processed(Image(Contents(), back), 8, old(buf[..]), buf[..], if length < 0 then 0 else processed)
    {
      hide TablesOf, IsImage, Processed, Splice, Wf;
      var blockLength := length / 8;
      var at := 0;
      ghost var t, s := Contents(), buf[..];
      NoBlocks(Image(t, back), 8, s);
      var i := 0;
      while i < blockLength
        invariant 0 <= i && (i <= blockLength || (i == 0 && length < 0)) && at == 8 * i
        invariant Contents() == t && Wf(t)
        invariant Processed(Image(t, back), 8, s, buf[..], at)
        decreases blockLength - i
      {
        ghost var before := buf[..];
        ghost var y := ProcessBlock(buf, at, back);
        assert Image(t, back)(before[at..at + 8], y);
        BlockDone(Image(t, back), 8, s, before, at, y);
        at, i := at + 8, i + 1;
      }
      processed := blockLength * 8;
    }

    // ---- the key ----

    method ReplaceSubkeys(ghost c: Setup) returns (datal: Word, datar: Word)
      requires Shape() && c == Setup(Contents(), Halves(0, 0))
      modifies P
      ensures Setup(Contents(), Halves(datal, datar)) == Subkeys(c, ROUNDS / 2 + 1)
    {
      hide BlowfishStandard.Encipher, Wf;
      datal, datar := 0, 0;
      var i := 0;
      while i < ROUNDS + 2
        invariant 0 <= i <= ROUNDS + 2 && i % 2 == 0
        invariant Setup(Contents(), Halves(datal, datar)) == Subkeys(c, i / 2)
      {
        datal, datar := Encipher(datal, datar);
        P[i] := datal;
        P[i + 1] := datar;
        i := i + 2;
      }
    }

    method ReplacePair(i: nat, j: nat, l: Word, r: Word) returns (datal: Word, datar: Word)
      requires Shape() && i < 4 && j < 255 && j % 2 == 0
      modifies S
      ensures Setup(Contents(), Halves(datal, datar))
              == NextEntries(old(Setup(Contents(), Halves(l, r))), 128 * i + j / 2)
    {
      hide BlowfishStandard.Encipher, Wf, Boxes;
      assert (128 * i + j / 2) / 128 == i && 2 * ((128 * i + j / 2) % 128) == j;
      datal, datar := Encipher(l, r);
      StorePair(S, i, j, datal, datar);
    }

    method ReplaceEntries(ghost c: Setup, l: Word, r: Word)
      requires Shape() && c == Setup(Contents(), Halves(l, r))
      modifies S
      ensures Contents() == Entries(c, 512).t
    {
      hide NextEntries, Wf, TablesOf;
      var datal, datar := l, r;
      for i := 0 to 4
        invariant Setup(Contents(), Halves(datal, datar)) == Entries(c, 128 * i)
      {
        var j := 0;
        while j < 256
          invariant 0 <= j <= 256 && j % 2 == 0
          invariant Setup(Contents(), Halves(datal, datar)) == Entries(c, 128 * i + j / 2)
        {
          EntriesNext(c, i, j);
          datal, datar := ReplacePair(i, j, datal, datar);
          j := j + 2;
        }
      }
    }

    /** InitializeBlowfishLocal: the key schedule for as many key bytes as the magnitude of the length, whatever the
        matrix held before. A length of zero is divided by once the initial tables are in place. */
    method Initialize(source: Tables, key: seq<Byte>, keybytes: int) returns (ok: bool)
      requires Shape() && Wf(source) && Magnitude(keybytes) <= |key|
      modifies P, S
      ensures ok <==> keybytes != 0
      ensures Contents() == if ok then Scheduled(source, key[..Magnitude(keybytes)]) else source
    {
      hide Entries, Subkeys, Keyed, TablesOf, Wf;
      Load(P, S, source);
      if keybytes == 0 {
        return false;
      }
      MixKey(P, S, key[..Magnitude(keybytes)], keybytes, source);
      ghost var c := Setup(Contents(), Halves(0, 0));
      var datal, datar := ReplaceSubkeys(c);
      ReplaceEntries(Subkeys(c, ROUNDS / 2 + 1), datal, datar);
      return true;
    }
  }

  /** The buffer loops undo each other on whole blocks and leave the rest alone. */
  method BufferRoundTrip(m: BlowfishMatrix, buf: array<Byte>, length: nat)
    requires m.Shape() && length <= buf.Length
    modifies buf
    ensures buf[..] == old(buf[..])
  {
    hide Wf, Processed, TablesOf;
    ghost var t, s := m.Contents(), buf[..];
    var n := m.ProcessBlocks(buf, length, false);
    ghost var u := buf[..];
    n := m.ProcessBlocks(buf, length, true);
    ImagesUndone(t);
    ProcessedUndone(Image(t, false), Image(t, true), 8, s, u, buf[..], n);
  }

  /** A conversion to short. */
  function Short(n: int): int
  {
    var low := n % 0x1_0000;
    if low < 0x8000 then low else low - 0x1_0000
  }

  /** The short is zero, and is divided by, for the lengths 0, 65536 and the other multiples of 65536 and for no other
      one. A caller whose buffer is as long as the length says has enough key bytes. */
  lemma ShortIsZero(length: nat)
    ensures -0x8000 <= Short(length) < 0x8000 && (length - Short(length)) % 0x1_0000 == 0
    ensures Short(length) == 0 <==> length % 0x1_0000 == 0
    ensures Short(0) == 0 && Short(0x1_0000) == 0 && Short(40000) == -25536
    ensures Magnitude(Short(length)) <= length
  {
  }

  datatype Result = Returned(rc: int) | DividedByZero

  class CipherBlowfish {
    const mBlowfishmatrix: BlowfishMatrix

    ghost predicate Shape()
    {
      mBlowfishmatrix.Shape()
    }

    constructor ()
      ensures Shape() && fresh(mBlowfishmatrix) && fresh(mBlowfishmatrix.P) && fresh(mBlowfishmatrix.S)
    {
      var m := new BlowfishMatrix();
      mBlowfishmatrix := m;
    }

    /** SetKey. The length is cut to a short, whose magnitude says how many key bytes are used; the schedule divides by
        zero exactly when the length is a multiple of 65536. */
    method SetKey(source: Tables, cipherKey: Option<seq<Byte>>, cipherKeyLength: int) returns (r: Result)
      requires Shape() && Wf(source)
      requires cipherKey.Some? && cipherKeyLength >= 0 ==> Magnitude(Short(cipherKeyLength)) <= |cipherKey.value|
      modifies mBlowfishmatrix.P, mBlowfishmatrix.S
      ensures r == if cipherKey.None? then Returned(NULL_CIPHER_KEY)
                   else if cipherKeyLength < 0 then Returned(INVALID_KEY_LENGTH)
                   else if cipherKeyLength % 0x1_0000 == 0 then DividedByZero
                   else Returned(CIPHER_SUCCESS)
      ensures r == Returned(CIPHER_SUCCESS) ==>
                mBlowfishmatrix.Contents() == Scheduled(source, cipherKey.value[..Magnitude(Short(cipherKeyLength))])
      ensures r != Returned(CIPHER_SUCCESS) && r != DividedByZero ==>
                unchanged(mBlowfishmatrix.P) && unchanged(mBlowfishmatrix.S)
    {
      hide Scheduled, Wf, Short, TablesOf;
      if cipherKey.None? {
        return Returned(NULL_CIPHER_KEY);
      }
      if cipherKeyLength < 0 {
        return Returned(INVALID_KEY_LENGTH);
      }
      ShortIsZero(cipherKeyLength);
      var ok := mBlowfishmatrix.Initialize(source, cipherKey.value, Short(cipherKeyLength));
      return if ok then Returned(CIPHER_SUCCESS) else DividedByZero;
    }

    /** Decrypt: whole blocks deciphered, a remainder copied as it is, zeros behind it; the result counts the whole
        blocks only. */
    method Decrypt(originalData: array?<Byte>, originalDataLength: int, decData: array?<Byte>, decDataSize: int)
      returns (rc: int)
      requires Shape()
      requires originalData != null ==> originalDataLength <= originalData.Length
      requires decData != null ==> decDataSize <= decData.Length
      modifies if decData == null then {} else {decData}
      ensures rc == if originalData == null then NULL_INPUTDATA
                    else if decData == null then NULL_OUTPUTDATA
                    else if decDataSize < originalDataLength then INVALID_OUTPUTDATA_SIZE
                    else if originalDataLength <= 0 then INVALID_INPUTDATA_LENGTH
                    else 8 * (originalDataLength / 8)
      ensures rc < 0 && decData != null ==> decData[..] == old(decData[..])
      ensures rc >= 0 ==> decData[decDataSize..] == old(decData[decDataSize..])
      ensures rc >= 0 ==>
                Processed(Image(mBlowfishmatrix.Contents(), true), 8,
                          Filled(originalData == decData, old(originalData[..]), originalDataLength, decDataSize),
                          decData[..decDataSize], rc)
    {
      hide TablesOf, Processed, Image, Wf;
      if originalData == null {
        return NULL_INPUTDATA;
      }
      if decData == null {
        return NULL_OUTPUTDATA;
      }
      if decDataSize < originalDataLength {
        return INVALID_OUTPUTDATA_SIZE;
      }
      if originalDataLength <= 0 {
        return INVALID_INPUTDATA_LENGTH;
      }
      FillFrom(decData, decDataSize, originalData, originalDataLength);
      ghost var filled := decData[..];
      rc := mBlowfishmatrix.ProcessBlocks(decData, originalDataLength, true);
      ProcessedPrefix(Image(mBlowfishmatrix.Contents(), true), 8, filled, decData[..], rc, decDataSize);
    }
  }
}
