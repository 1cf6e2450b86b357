/** CipherTwofish of BaseLib/CipherTwofish.cpp from an expanded key on: the round macros, the two block
    transformations and the padded interface. */
module CipherTwofish {
  import opened BlockMode
  import opened CipherBase
  import opened Memory
  import opened TwofishStandard
  import opened Words

  function BlockQuad(x: seq<Byte>): Quad
    requires |x| == 16
  {
    Quad(WordAt(x, 0), WordAt(x, 4), WordAt(x, 8), WordAt(x, 12))
  }

  function QuadBlock(q: Quad): (x: seq<Byte>)
    ensures |x| == 16
  {
    WordBytes(q.a) + WordBytes(q.b) + WordBytes(q.c) + WordBytes(q.d)
  }

  lemma QuadRoundTrip(q: Quad)
    ensures BlockQuad(QuadBlock(q)) == q
  {
    hide WordOf, ByteOf;
    WordRoundTrip(q.a);
    WordRoundTrip(q.b);
    WordRoundTrip(q.c);
    WordRoundTrip(q.d);
  }

  lemma BlockRoundTrip(x: seq<Byte>)
    requires |x| == 16
    ensures QuadBlock(BlockQuad(x)) == x
  {
    hide WordOf, WordBytes;
    BytesRoundTrip(x[0], x[1], x[2], x[3]);
    BytesRoundTrip(x[4], x[5], x[6], x[7]);
    BytesRoundTrip(x[8], x[9], x[10], x[11]);
    BytesRoundTrip(x[12], x[13], x[14], x[15]);
  }

  function CipherQuad(t: Context, back: bool, q: Quad): Quad
    requires Wf(t)
  {
    if back then Decipher(t, q) else Encipher(t, q)
  }

  predicate IsImage(t: Context, back: bool, x: seq<Byte>, y: seq<Byte>)
    requires Wf(t)
  {
    |x| == 16 && y == QuadBlock(CipherQuad(t, back, BlockQuad(x)))
  }

  ghost function Image(t: Context, back: bool): Relation
    requires Wf(t)
  {
    (x: seq<Byte>, y: seq<Byte>) => IsImage(t, back, x, y)
  }

  /** Forwards is enciphering, back is deciphering, on four little-endian words. */
  lemma ImageIs(t: Context, x: seq<Byte>, a: Word, b: Word, c: Word, d: Word)
    requires Wf(t) && |x| == 16
    ensures var q := Quad(WordAt(x, 0), WordAt(x, 4), WordAt(x, 8), WordAt(x, 12));
            var y := WordBytes(a) + WordBytes(b) + WordBytes(c) + WordBytes(d);
            && (Image(t, false)(x, y) <==> Quad(a, b, c, d) == Encipher(t, q))
            && (Image(t, true)(x, y) <==> Quad(a, b, c, d) == Decipher(t, q))
  {
    hide Encipher, Decipher, Wf, WordBytes, WordAt;
    var q, y := BlockQuad(x), QuadBlock(Quad(a, b, c, d));
    QuadRoundTrip(Quad(a, b, c, d));
    QuadRoundTrip(Encipher(t, q));
    QuadRoundTrip(Decipher(t, q));
    hide BlockQuad;
    assert y == WordBytes(a) + WordBytes(b) + WordBytes(c) + WordBytes(d);
  }

  lemma ImagesUndone(t: Context)
    requires Wf(t)
    ensures forall x, y, z :: Undoes(Image(t, false), Image(t, true), 16, x, y, z)
  {
    hide BlockQuad, QuadBlock, Encipher, Decipher, Wf;
    var rel, back := Image(t, false), Image(t, true);
    forall x, y, z
      ensures Undoes(rel, back, 16, x, y, z)
    {
      if |x| == |y| == |z| == 16 && rel(x, y) && back(y, z) {
        var q := BlockQuad(x);
        QuadRoundTrip(Encipher(t, q));
        DecipherUndoes(t, q);
        BlockRoundTrip(x);
      }
    }
  }

  // ---- the macros ----

  /** INPACK. */
  function InPack(b0: Byte, b1: Byte, b2: Byte, b3: Byte, white: Word): Word
  {
    (b0 as bv32) ^ ((b1 as bv32) << 8) ^ ((b2 as bv32) << 16) ^ ((b3 as bv32) << 24) ^ white
  }

  lemma InPackIsWhitening(b0: Byte, b1: Byte, b2: Byte, b3: Byte, white: Word)
    ensures InPack(b0, b1, b2, b3, white) == Xor(WordOf(b0, b1, b2, b3), white)
  {
  }

  /** The two sums of ENCROUND, `x += y; y += x + k`, and of DECROUND, `x += y; y += x`. */
  function EncSum(x: Word, y: Word, k: Word): Word
  {
    var x' := x + y;
    y + (x' + k)
  }

  function DecSum(x: Word, y: Word, k: Word): Word
  {
    var x' := x + y;
    var y' := y + x';
    y' + k
  }

  lemma SumsAreHadamard(x: Word, y: Word, k: Word)
    ensures EncSum(x, y, k) == Hadamard(x, y, k) && DecSum(x, y, k) == Hadamard(x, y, k)
  {
  }

  class TwofishContext {
    const sBox: array2<Word>
    const white: array<Word>
    const rs: array<Word>

    ghost predicate Shape()
    {
      sBox.Length0 == 4 && sBox.Length1 == 256 && white.Length == 8 && rs.Length == 2 * ROUNDS
    }

    ghost function Boxes(): (s: seq<seq<Word>>)
      requires Shape()
      reads sBox
      ensures |s| == 4
      ensures forall i :: 0 <= i < 4 ==> |s[i]| == 256 && forall j :: 0 <= j < 256 ==> s[i][j] == sBox[i, j]
    {
      seq(4, i requires 0 <= i < 4 reads sBox => seq(256, j requires 0 <= j < 256 reads sBox => sBox[i, j]))
    }

    ghost function Contents(): (t: Context)
      requires Shape()
      reads sBox, white, rs
      ensures Wf(t)
    {
      Context(Boxes(), white[..], rs[..])
    }

    constructor ()
      ensures Shape() && fresh(sBox) && fresh(white) && fresh(rs)
    {
      sBox := new Word[4, 256]((_, _) => 0);
      white := new Word[8](_ => 0);
      rs := new Word[2 * ROUNDS](_ => 0);
    }

    /** G1. */
    method G1(a: Word) returns (g: Word)
      requires Shape()
      ensures g == G(Contents(), a)
    {
      hide Index, Xor;
      g := Xor(Xor(Xor(sBox[0, Index(a, 0)], sBox[1, Index(a, 1)]), sBox[2, Index(a, 2)]), sBox[3, Index(a, 3)]);
    }

    /** G2: the rotation of the word is in the order of the boxes. */
    method G2(b: Word) returns (g: Word)
      requires Shape()
      ensures g == G(Contents(), Rol8(b))
    {
      hide Index, Xor, Rol8;
      RotatedIndices(b);
      g := Xor(Xor(Xor(sBox[1, Index(b, 0)], sBox[2, Index(b, 1)]), sBox[3, Index(b, 2)]), sBox[0, Index(b, 3)]);
      LastFirst(sBox[1, Index(b, 0)], sBox[2, Index(b, 1)], sBox[3, Index(b, 2)], sBox[0, Index(b, 3)]);
    }

    static lemma LastFirst(a: Word, b: Word, c: Word, d: Word)
      ensures Xor(Xor(Xor(a, b), c), d) == Xor(Xor(Xor(d, a), b), c)
    {
      hide Xor;
      XorExchange(Xor(a, b), c, d);
      XorExchange(a, b, d);
      XorCommutes(a, d);
    }

    /** The four words of a block as they stand in the buffer before half-cycle `j`. */
    static function InPlace(e: seq<Word>, j: nat): Quad
      requires |e| == 4
    {
      if j == 2 then Quad(e[2], e[3], e[0], e[1]) else Quad(e[0], e[1], e[2], e[3])
    }

    method Pack(data: array<Byte>, at: nat, w: nat) returns (e: seq<Word>)
      requires Shape() && at + 16 <= data.Length && w <= 4
      ensures |e| == 4 && InPlace(e, 0) == Whitened(Contents(), BlockQuad(data[at..at + 16]), w)
    {
      hide InPack, Xor, WordOf, Boxes;
      e := [];
      for i := 0 to 4
        invariant |e| == i
        invariant forall k :: 0 <= k < i ==> e[k] == Xor(WordAt(data[at..at + 16], 4 * k), white[w + k])
      {
        var n := at + 4 * i;
        InPackIsWhitening(data[n], data[n + 1], data[n + 2], data[n + 3], white[w + i]);
        e := e + [InPack(data[n], data[n + 1], data[n + 2], data[n + 3], white[w + i])];
      }
    }

    method Unpack(e: seq<Word>, data: array<Byte>, at: nat, w: nat) returns (ghost y: seq<Byte>)
      requires Shape() && |e| == 4 && at + 16 <= data.Length && w <= 4
      modifies data
      ensures |y| == 16 && y == QuadBlock(Whitened(Contents(), Exchanged(InPlace(e, 0)), w))
      ensures data[..] == Splice(old(data[..]), at, y)
    {
      hide Xor, WordBytes, Splice, Boxes;
      var e2 := [Xor(e[2], white[w]), Xor(e[3], white[w + 1]), Xor(e[0], white[w + 2]), Xor(e[1], white[w + 3])];
      ghost var before := data[..];
      y := [];
      SpliceNothing(before, at);
      for i := 0 to 4
        invariant |y| == 4 * i && y == WordsBytes(e2, i)
        invariant data[..] == Splice(before, at, y)
      {
        SpliceTwice(before, at, y, WordBytes(e2[i]));
        StoreWord(data, at + 4 * i, e2[i]);
        y := y + WordBytes(e2[i]);
      }
      FourWords(e2);
    }

    /** The turn of the inner loop for `j`, as round `n` in place: ENCROUND or DECROUND. */
    method HalfCycle(e: seq<Word>, j: nat, n: nat, back: bool) returns (r: seq<Word>)
      requires Shape() && |e| == 4 && (j == 0 || j == 2) && n < ROUNDS
      ensures |r| == 4
      ensures InPlace(r, j + 2)
              == if back then RoundBack(Contents(), n, InPlace(e, j)) else Round(Contents(), n, InPlace(e, j))
    {
      hide G, Rol8, Rol1, Ror1, Xor, Sum, Hadamard, EncSum, DecSum, Boxes;
      var tempA := G1(e[j]);
      var tempB := G2(e[j + 1]);
      var c, d := e[2 - j], e[3 - j];
      SumsAreHadamard(tempA, tempB, rs[2 * n + 1]);
      if back {
        d := Xor(d, DecSum(tempA, tempB, rs[2 * n + 1]));
        d := Ror1(d);
        c := Rol1(c);
        c := Xor(c, Sum(tempA, tempB, rs[2 * n]));
      } else {
        c := Xor(c, Sum(tempA, tempB, rs[2 * n]));
        c := Ror1(c);
        d := Xor(Rol1(d), EncSum(tempA, tempB, rs[2 * n + 1]));
      }
      r := e[2 - j := c][3 - j := d];
    }

    /** EncryptByBlock. */
    method EncryptByBlock(originalData: array<Byte>, from: nat, outputData: array<Byte>, to: nat)
      returns (ghost y: seq<Byte>)
      requires Shape() && from + 16 <= originalData.Length && to + 16 <= outputData.Length
      modifies outputData
      ensures |y| == 16 && IsImage(Contents(), false, old(originalData[..])[from..from + 16], y)
      ensures outputData[..] == Splice(old(outputData[..]), to, y)
    {
      hide Round, Whitened, InPlace, BlockQuad, QuadBlock, Contents, Splice, Exchanged;
      var e := Pack(originalData, from, 0);
      assert originalData[from..from + 16] == originalData[..][from..from + 16];
      ghost var t, q := Contents(), InPlace(e, 0);
      for i := 0 to 8
        invariant outputData[..] == old(outputData[..])
        invariant |e| == 4 && InPlace(e, 0) == Rounds(t, q, 2 * i)
      {
        var j := 0;
        SamePlace(e);
        while j < 4
          invariant outputData[..] == old(outputData[..])
          invariant |e| == 4 && (j == 0 || j == 2 || j == 4)
          invariant InPlace(e, j) == Rounds(t, q, 2 * i + j / 2)
        {
          e := HalfCycle(e, j, 2 * i + j / 2, false);
          j := j + 2;
        }
        SamePlace(e);
      }
      y := Unpack(e, outputData, to, 4);
    }

    static lemma SamePlace(e: seq<Word>)
      requires |e| == 4
      ensures InPlace(e, 4) == InPlace(e, 0)
    {
    }

    /** DecryptByBlock: the rounds from the last to the first. */
    method DecryptByBlock(originalData: array<Byte>, from: nat, outputData: array<Byte>, to: nat)
      returns (ghost y: seq<Byte>)
      requires Shape() && from + 16 <= originalData.Length && to + 16 <= outputData.Length
      modifies outputData
      ensures |y| == 16 && IsImage(Contents(), true, old(originalData[..])[from..from + 16], y)
      ensures outputData[..] == Splice(old(outputData[..]), to, y)
    {
      hide RoundBack, Whitened, InPlace, BlockQuad, QuadBlock, Contents, Splice, Exchanged;
      var e := Pack(originalData, from, 4);
      assert originalData[from..from + 16] == originalData[..][from..from + 16];
      ghost var t, q := Contents(), InPlace(e, 0);
      var i := 8;
      while i > 0
        invariant 0 <= i <= 8 && outputData[..] == old(outputData[..])
        invariant |e| == 4 && InPlace(e, 0) == RoundsBack(t, q, 16 - 2 * i)
      {
        var j := 0;
        SamePlace(e);
        while j < 4
          invariant outputData[..] == old(outputData[..])
          invariant |e| == 4 && (j == 0 || j == 2 || j == 4)
          invariant InPlace(e, j) == RoundsBack(t, q, 16 - 2 * i + j / 2)
        {
          var k := 2 * i - 1 - j / 2;
          e := HalfCycle(e, j, k, true);
          j := j + 2;
        }
        SamePlace(e);
        i := i - 1;
      }
      y := Unpack(e, outputData, to, 0);
    }

    // ---- the padded interface ----

    /** The loops of Encrypt and Decrypt over the blocks of a local copy. */
    method ProcessBlocks(source: array<Byte>, buf: array<Byte>, loop: nat, back: bool)
      requires Shape() && source != buf && source.Length == buf.Length && 16 * loop <= buf.Length
      modifies buf
      ensures Images(Image(Contents(), back), 16, source[..], buf[..], 16 * loop)
    {
      hide IsImage, Contents, Images, Splice, Wf;
      var at := 0;
      ghost var t, s := Contents(), source[..];
      NoImages(Image(t, back), s, buf[..]);
      for i := 0 to loop
        invariant at == 16 * i && Contents() == t && Wf(t) && source[..] == s
        invariant Images(Image(t, back), 16, s, buf[..], at)
      {
        ghost var before, y := buf[..], [];
        if back {
          y := DecryptByBlock(source, at, buf, at);
        } else {
          y := EncryptByBlock(source, at, buf, at);
        }
        assert Image(t, back)(s[at..at + 16], y);
        ImageStored(Image(t, back), 16, s, before, at, y);
        at := at + 16;
      }
    }

    static lemma NoImages(rel: Relation, s: seq<Byte>, t: seq<Byte>)
      requires |s| == |t|
      ensures Images(rel, 16, s, t, 0)
    {
    }

    /** Encrypt: the data with zeros up to a whole number of blocks, enciphered; nothing else is written. */
    method Encrypt(originalData: array?<Byte>, originalDataLength: int, encData: array?<Byte>, encDataSize: int)
      returns (rc: int)
      requires Shape()
      requires originalData != null ==> 0 <= originalDataLength <= originalData.Length
      requires encData != null ==> encDataSize <= encData.Length
      modifies if encData == null then {} else {encData}
      ensures rc == if originalData == null then NULL_INPUTDATA
                    else if encData == null then NULL_OUTPUTDATA
                    else if encDataSize > BUFFER_SIZE - 1 || encDataSize < RoundedUp(originalDataLength)
                    then INVALID_OUTPUTDATA_SIZE
                    else RoundedUp(originalDataLength)
      ensures rc < 0 && encData != null ==> encData[..] == old(encData[..])
      ensures rc >= 0 ==> encData[rc..] == old(encData[rc..])
      ensures rc >= 0 ==>
                Images(Image(Contents(), false), 16,
                       Padded(old(originalData[..]), originalDataLength, rc), encData[..rc], rc)
    {
      hide Contents, Images, Wf, Padded, Image;
      if originalData == null {
        return NULL_INPUTDATA;
      }
      if encData == null {
        return NULL_OUTPUTDATA;
      }
      if encDataSize > BUFFER_SIZE - 1 || encDataSize < originalDataLength {
        return INVALID_OUTPUTDATA_SIZE;
      }
      if originalDataLength > BUFFER_SIZE - 1 {
        return INVALID_INPUTDATA_LENGTH;
      }
      var loop := originalDataLength / 16;
      if originalDataLength % 16 != 0 {
        loop := loop + 1;
      }
      if encDataSize < loop * 16 {
        return INVALID_OUTPUTDATA_SIZE;
      }
      CopyProcessed(originalData, originalDataLength, encData, loop, false);
      return loop * 16;
    }

    /** Decrypt: the whole blocks deciphered; nothing else is written. */
    method Decrypt(originalData: array?<Byte>, originalDataLength: int, decData: array?<Byte>, decDataSize: int)
      returns (rc: int)
      requires Shape()
      requires originalData != null ==> 0 <= originalDataLength <= originalData.Length
      requires decData != null ==> decDataSize <= decData.Length
      modifies if decData == null then {} else {decData}
      ensures rc == if originalData == null then NULL_INPUTDATA
                    else if decData == null then NULL_OUTPUTDATA
                    else if decDataSize > BUFFER_SIZE - 1 || decDataSize < originalDataLength
                      then INVALID_OUTPUTDATA_SIZE
                    else originalDataLength - originalDataLength % 16
      ensures rc < 0 && decData != null ==> decData[..] == old(decData[..])
      ensures rc >= 0 ==> decData[rc..] == old(decData[rc..])
      ensures rc >= 0 ==> Images(Image(Contents(), true), 16, old(originalData[..rc]), decData[..rc], rc)
    {
      hide Contents, Images, Wf, Padded, Image;
      if originalData == null {
        return NULL_INPUTDATA;
      }
      if decData == null {
        return NULL_OUTPUTDATA;
      }
      if decDataSize > BUFFER_SIZE - 1 || decDataSize < originalDataLength {
        return INVALID_OUTPUTDATA_SIZE;
      }
      if originalDataLength > BUFFER_SIZE - 1 {
        return INVALID_INPUTDATA_LENGTH;
      }
      var loop := originalDataLength / 16;
      WholeIsPrefix(originalData[..], originalDataLength, 16 * loop);
      CopyProcessed(originalData, originalDataLength, decData, loop, true);
      return 16 * loop;
    }

    /** The data in a zeroed local buffer, its blocks processed into another one, the result copied out. */
    method CopyProcessed(originalData: array<Byte>, originalDataLength: nat, outData: array<Byte>, loop: nat,
                         back: bool)
      requires Shape() && originalDataLength <= originalData.Length && originalDataLength <= BUFFER_SIZE - 1
      requires 16 * loop <= outData.Length && 16 * loop <= BUFFER_SIZE
      modifies outData
      ensures outData[16 * loop..] == old(outData[16 * loop..])
      ensures Images(Image(Contents(), back), 16,
                     PaddedTo(old(originalData[..]), originalDataLength, 16 * loop), outData[..16 * loop], 16 * loop)
    {
      hide Contents, Images, Wf, Padded, Image;
      var buf := new Byte[BUFFER_SIZE](_ => 0);
      var bufOriginData := new Byte[BUFFER_SIZE];
      FillFrom(bufOriginData, BUFFER_SIZE, originalData, originalDataLength);
      ProcessBlocks(bufOriginData, buf, loop, back);
      var m := 16 * loop;
      ghost var s := bufOriginData[..];
      CopyMemory(outData, 0, buf, 0, m);
      assert s == bufOriginData[..BUFFER_SIZE];
      PaddedCut(old(originalData[..]), originalDataLength, m, BUFFER_SIZE);
      assert outData[..m] == buf[..m] by {
        assert outData[..m] == outData[..][0..0 + m] && buf[..][0..m] == buf[..m];
      }
      ImagesKept(Image(Contents(), back), 16, s, buf[..], s[..m], buf[..m], m);
    }
  }

  /** The data with its padding, or its first `m` bytes. */
  function PaddedTo(data: seq<Byte>, n: nat, m: nat): (r: seq<Byte>)
    requires n <= |data|
    ensures |r| == m
  {
    if n <= m then Padded(data, n, m) else data[..m]
  }

  lemma PaddedCut(data: seq<Byte>, n: nat, m: nat, size: nat)
    requires n <= |data| && n <= size && m <= size
    ensures Padded(data, n, size)[..m] == PaddedTo(data, n, m)
  {
  }

  lemma WholeIsPrefix(data: seq<Byte>, n: nat, m: nat)
    requires m <= n <= |data|
    ensures PaddedTo(data, n, m) == data[..m]
  {
  }

  function RoundedUp(n: nat): (m: nat)
    ensures n <= m < n + 16 && m % 16 == 0
  {
    if n % 16 == 0 then n else n + 16 - n % 16
  }

  /** Encrypting and then decrypting gives back the data with zeros up to a multiple of 16. */
  method RoundTrip(c: TwofishContext, data: array<Byte>, n: nat, enc: array<Byte>, encSize: nat, dec: array<Byte>,
                   decSize: nat)
    requires c.Shape() && n <= data.Length && encSize <= enc.Length && decSize <= dec.Length && enc != dec
    requires RoundedUp(n) <= encSize <= BUFFER_SIZE - 1 && RoundedUp(n) <= decSize <= BUFFER_SIZE - 1
    modifies enc, dec
    ensures dec[..RoundedUp(n)] == Padded(old(data[..]), n, RoundedUp(n))
  {
    hide TwofishContext.Contents, Images, Wf, Padded, Image, Undoes, RoundedUp;
    var m := c.Encrypt(data, n, enc, encSize);
    var k := c.Decrypt(enc, m, dec, decSize);
    ghost var t, plain := c.Contents(), Padded(old(data[..]), n, m);
    ImagesUndone(t);
    ProcessedBack(Image(t, false), Image(t, true), 16, plain, enc[..m], dec[..m], m);
    assert plain[..m] == plain;
  }
}
