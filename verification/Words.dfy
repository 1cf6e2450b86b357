/** 32-bit words and their little-endian bytes. */
module Words {
  import opened Memory

  type Word = bv32

  // The machine operations, named so that proofs about their structure need not look inside.

  function Xor(a: Word, b: Word): Word { a ^ b }

  function Add(a: Word, b: Word): Word { a + b }

  lemma XorTwice(a: Word, b: Word)
    ensures Xor(Xor(a, b), b) == a
  {
  }

  lemma XorCommutes(a: Word, b: Word)
    ensures Xor(a, b) == Xor(b, a)
  {
  }

  lemma XorAssociates(a: Word, b: Word, c: Word)
    ensures Xor(Xor(a, b), c) == Xor(a, Xor(b, c))
  {
  }

  lemma XorExchange(a: Word, b: Word, c: Word)
    ensures Xor(Xor(a, b), c) == Xor(Xor(a, c), b)
  {
    hide Xor;
    XorAssociates(a, b, c);
    XorAssociates(a, c, b);
    XorCommutes(b, c);
  }

  /** Byte `i` of a little-endian word. */
  function ByteOf(w: Word, i: nat): Byte
    requires i < 4
  {
    if i == 0 then (w & 0xff) as Byte
    else if i == 1 then ((w >> 8) & 0xff) as Byte
    else if i == 2 then ((w >> 16) & 0xff) as Byte
    else ((w >> 24) & 0xff) as Byte
  }

  function WordOf(b0: Byte, b1: Byte, b2: Byte, b3: Byte): Word
  {
    (b0 as bv32) | ((b1 as bv32) << 8) | ((b2 as bv32) << 16) | ((b3 as bv32) << 24)
  }

  function WordBytes(w: Word): (r: seq<Byte>)
    ensures |r| == 4
  {
    [ByteOf(w, 0), ByteOf(w, 1), ByteOf(w, 2), ByteOf(w, 3)]
  }

  function WordAt(s: seq<Byte>, i: nat): Word
    requires i + 4 <= |s|
  {
    WordOf(s[i], s[i + 1], s[i + 2], s[i + 3])
  }

  lemma WordAtSlice(s: seq<Byte>, i: nat)
    requires i + 4 <= |s|
    ensures WordAt(s[i..i + 4], 0) == WordAt(s, i)
  {
  }

  /** The bytes of the first `n` words. */
  function WordsBytes(w: seq<Word>, n: nat): (y: seq<Byte>)
    requires n <= |w|
    ensures |y| == 4 * n
  {
    if n == 0 then [] else WordsBytes(w, n - 1) + WordBytes(w[n - 1])
  }

  lemma FourWords(w: seq<Word>)
    requires |w| == 4
    ensures WordsBytes(w, 4) == WordBytes(w[0]) + WordBytes(w[1]) + WordBytes(w[2]) + WordBytes(w[3])
  {
    hide WordBytes;
    assert WordsBytes(w, 1) == WordBytes(w[0]);
    assert WordsBytes(w, 2) == WordBytes(w[0]) + WordBytes(w[1]);
    assert WordsBytes(w, 3) == WordBytes(w[0]) + WordBytes(w[1]) + WordBytes(w[2]);
  }

  /** A word is its bytes and the bytes are the word's. */
  lemma WordRoundTrip(w: Word)
    ensures WordOf(ByteOf(w, 0), ByteOf(w, 1), ByteOf(w, 2), ByteOf(w, 3)) == w
  {
  }

  lemma BytesRoundTrip(b0: Byte, b1: Byte, b2: Byte, b3: Byte)
    ensures WordBytes(WordOf(b0, b1, b2, b3)) == [b0, b1, b2, b3]
  {
    var w := WordOf(b0, b1, b2, b3);
    assert ByteOf(w, 0) == b0 && ByteOf(w, 1) == b1 && ByteOf(w, 2) == b2 && ByteOf(w, 3) == b3;
  }

  /** A 32-bit load and a 32-bit store at a byte address. */
  method LoadWord(p: array<Byte>, a: nat) returns (w: Word)
    requires a + 4 <= p.Length
    ensures w == WordAt(p[a..a + 4], 0)
  {
    w := WordOf(p[a], p[a + 1], p[a + 2], p[a + 3]);
  }

  method StoreWord(p: array<Byte>, a: nat, w: Word)
    requires a + 4 <= p.Length
    modifies p
    ensures p[..] == Splice(old(p[..]), a, WordBytes(w))
  {
    hide ByteOf;
    p[a], p[a + 1], p[a + 2], p[a + 3] := ByteOf(w, 0), ByteOf(w, 1), ByteOf(w, 2), ByteOf(w, 3);
  }
}
