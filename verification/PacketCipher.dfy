/** Encrypt, Decrypt and the two directions of PacketEncoder (BaseLib/Encoder.cpp), on values. */
module PacketCipher {
  import opened Memory
  import opened Framing
  import opened RandomGenerator
  import opened Words

  const CHECKSUM_INITIAL_VALUE: Byte := 0x7F

  /** The source's table of 256 bytes, in rows of sixteen. */
  const CHECKSUM_TBL: seq<seq<Byte>> := [
    [0, 94, 188, 226, 97, 63, 221, 131, 194, 156, 126, 32, 163, 253, 31, 65],
    [157, 195, 33, 127, 252, 162, 64, 30, 95, 1, 227, 189, 62, 96, 130, 220],
    [35, 125, 159, 193, 66, 28, 254, 160, 225, 191, 93, 3, 128, 222, 60, 98],
    [190, 224, 2, 92, 223, 129, 99, 61, 124, 34, 192, 158, 29, 67, 161, 255],
    [70, 24, 250, 164, 39, 121, 155, 197, 132, 218, 56, 102, 229, 187, 89, 7],
    [219, 133, 103, 57, 186, 228, 6, 88, 25, 71, 165, 251, 120, 38, 196, 154],
    [101, 59, 217, 135, 4, 90, 184, 230, 167, 249, 27, 69, 198, 152, 122, 36],
    [248, 166, 68, 26, 153, 199, 37, 123, 58, 100, 134, 216, 91, 5, 231, 185],
    [140, 210, 48, 110, 237, 179, 81, 15, 78, 16, 242, 172, 47, 113, 147, 205],
    [17, 79, 173, 243, 112, 46, 204, 146, 211, 141, 111, 49, 178, 236, 14, 80],
    [175, 241, 19, 77, 206, 144, 114, 44, 109, 51, 209, 143, 12, 82, 176, 238],
    [50, 108, 142, 208, 83, 13, 239, 177, 240, 174, 76, 18, 145, 207, 45, 115],
    [202, 148, 118, 40, 171, 245, 23, 73, 8, 86, 180, 234, 105, 55, 213, 139],
    [87, 9, 235, 181, 54, 104, 138, 212, 149, 203, 41, 119, 244, 170, 72, 22],
    [233, 183, 85, 11, 136, 214, 52, 106, 43, 117, 151, 201, 74, 20, 246, 168],
    [116, 42, 200, 150, 21, 75, 169, 247, 182, 232, 10, 84, 215, 137, 107, 53]]

  lemma XorByteTwice(a: Byte, b: Byte)
    ensures XorByte(XorByte(a, b), b) == a
  {
  }

  /** Combining a word with the key combines its bytes with the key's bytes. */
  lemma WordXor(b0: Byte, b1: Byte, b2: Byte, b3: Byte, key: bv32)
    ensures var w := Xor(WordOf(b0, b1, b2, b3), key);
            && ByteOf(w, 0) == XorByte(b0, ByteOf(key, 0)) && ByteOf(w, 1) == XorByte(b1, ByteOf(key, 1))
            && ByteOf(w, 2) == XorByte(b2, ByteOf(key, 2)) && ByteOf(w, 3) == XorByte(b3, ByteOf(key, 3))
    ensures ByteOf(WordOf(b0, b1, b2, b3), 0) == b0
  {
  }

  // ---- the stream cipher ----

  /** The key byte used for byte `i` of `n`: whole words use the whole key, the bytes left over
      all use its lowest byte. */
  function KeyAt(key: bv32, n: nat, i: nat): Byte
  {
    ByteOf(key, if i < n - n % 4 then i % 4 else 0)
  }

  function Crypt(s: seq<Byte>, key: bv32): (r: seq<Byte>)
    ensures |r| == |s|
  {
    seq(|s|, i requires 0 <= i < |s| => XorByte(s[i], KeyAt(key, |s|, i)))
  }

  /** Decrypt undoes Encrypt for every length and key. */
  lemma CryptTwice(s: seq<Byte>, key: bv32)
    ensures Crypt(Crypt(s, key), key) == s
  {
    hide KeyAt, XorByte;
    forall i | 0 <= i < |s|
      ensures Crypt(Crypt(s, key), key)[i] == s[i]
    {
      XorByteTwice(s[i], KeyAt(key, |s|, i));
    }
  }

  lemma TableShape()
    ensures |CHECKSUM_TBL| == 16 && forall r :: 0 <= r < 16 ==> |CHECKSUM_TBL[r]| == 16
  {
  }

  /** Entry `x` of the table. */
  function Entry(x: Byte): Byte
  {
    TableShape();
    CHECKSUM_TBL[(x >> 4) as nat][(x & 15) as nat]
  }

  function SumStep(sum: Byte, b: Byte): Byte
  {
    Entry(XorByte(sum, b))
  }

  /** The checksum after `k` steps over plain bytes: one step for the lowest byte of every whole
      word, then one for every byte left over. */
  function Checksum(s: seq<Byte>, k: nat): Byte
    requires k <= |s| / 4 + |s| % 4
  {
    if k == 0 then CHECKSUM_INITIAL_VALUE
    else if k <= |s| / 4 then SumStep(Checksum(s, k - 1), s[4 * (k - 1)])
    else SumStep(Checksum(s, k - 1), s[|s| - |s| % 4 + k - 1 - |s| / 4])
  }

  lemma ChecksumSteps(s: seq<Byte>, k: nat)
    requires k <= |s| / 4 + |s| % 4
    ensures Checksum(s, 0) == CHECKSUM_INITIAL_VALUE
    ensures k < |s| / 4 ==> Checksum(s, k + 1) == SumStep(Checksum(s, k), s[4 * k])
    ensures |s| / 4 <= k < |s| / 4 + |s| % 4 ==>
              Checksum(s, k + 1) == SumStep(Checksum(s, k), s[4 * (|s| / 4) + k - |s| / 4])
  {
    hide SumStep;
  }

  lemma CryptWord(s: seq<Byte>, key: bv32, i: nat)
    requires 4 * i + 4 <= |s|
    ensures WordBytes(Xor(WordAt(s, 4 * i), key)) == Crypt(s, key)[4 * i..4 * i + 4]
    ensures ByteOf(WordAt(s, 4 * i), 0) == s[4 * i]
  {
    hide XorByte, Xor, WordOf, ByteOf;
    WordXor(s[4 * i], s[4 * i + 1], s[4 * i + 2], s[4 * i + 3], key);
    var c := Crypt(s, key);
    KeyInWord(key, |s|, i, 0);
    KeyInWord(key, |s|, i, 1);
    KeyInWord(key, |s|, i, 2);
    KeyInWord(key, |s|, i, 3);
    assert c[4 * i] == XorByte(s[4 * i], ByteOf(key, 0)) && c[4 * i + 1] == XorByte(s[4 * i + 1], ByteOf(key, 1));
    assert c[4 * i + 2] == XorByte(s[4 * i + 2], ByteOf(key, 2));
    assert c[4 * i + 3] == XorByte(s[4 * i + 3], ByteOf(key, 3));
    hide Crypt, KeyAt;
    assert c[4 * i..4 * i + 4] == [c[4 * i], c[4 * i + 1], c[4 * i + 2], c[4 * i + 3]];
  }

  lemma KeyInWord(key: bv32, n: nat, i: nat, j: nat)
    requires 4 * i + 4 <= n && j < 4
    ensures KeyAt(key, n, 4 * i + j) == ByteOf(key, j)
  {
  }

  lemma CryptRest(s: seq<Byte>, key: bv32, i: nat)
    requires |s| - |s| % 4 <= i < |s|
    ensures [XorByte(s[i], ByteOf(key, 0))] == Crypt(s, key)[i..i + 1]
  {
    hide XorByte, ByteOf;
  }

  /** The region at `at` is worked off from its start: `k` bytes of it are done. */
  function PartDone(before: seq<Byte>, at: nat, result: seq<Byte>, k: nat): seq<Byte>
    requires at + |result| <= |before| && k <= |result|
  {
    Splice(before, at, result[..k])
  }

  lemma PartStep(before: seq<Byte>, at: nat, result: seq<Byte>, k: nat, m: nat)
    requires at + |result| <= |before| && k + m <= |result|
    ensures Splice(PartDone(before, at, result, k), at + k, result[k..k + m]) == PartDone(before, at, result, k + m)
  {
  }

  lemma PartStart(before: seq<Byte>, at: nat, result: seq<Byte>)
    requires at + |result| <= |before|
    ensures PartDone(before, at, result, 0) == before
  {
  }

  lemma PartEnd(before: seq<Byte>, at: nat, result: seq<Byte>)
    requires at + |result| <= |before|
    ensures PartDone(before, at, result, |result|) == Splice(before, at, result)
  {
    assert result[..|result|] == result;
  }

  /** What has not been worked off still reads as before. */
  lemma PartRest(before: seq<Byte>, at: nat, result: seq<Byte>, k: nat, m: nat)
    requires at + |result| <= |before| && k + m <= |result|
    ensures PartDone(before, at, result, k)[at + k..at + k + m] == before[at..at + |result|][k..k + m]
  {
    var r := PartDone(before, at, result, k);
    assert forall i {:trigger r[i]} :: at + k <= i < at + k + m ==> r[i] == before[i];
    assert r[at + k..at + k + m] == before[at + k..at + k + m];
    SliceOfSlice(before, at, at + |result|, k, k + m);
  }

  method StoreByte(p: array<Byte>, a: nat, b: Byte)
    requires a < p.Length
    modifies p
    ensures p[..] == Splice(old(p[..]), a, [b])
  {
    p[a] := b;
  }

  /** One turn of the loop over whole words: the word's lowest byte before and after. */
  method CryptWordAt(p: array<Byte>, at: nat, i: nat, key: bv32, ghost before: seq<Byte>, ghost text: seq<Byte>)
    returns (was: Byte, now: Byte)
    requires at + |text| <= p.Length == |before| && text == before[at..at + |text|] && 4 * i + 4 <= |text|
    requires p[..] == PartDone(before, at, Crypt(text, key), 4 * i)
    modifies p
    ensures p[..] == PartDone(before, at, Crypt(text, key), 4 * i + 4)
    ensures was == text[4 * i] && now == Crypt(text, key)[4 * i]
  {
    hide XorByte, Xor, WordOf, ByteOf, WordAt, Crypt, Splice, PartDone;
    ghost var result := Crypt(text, key);
    PartRest(before, at, result, 4 * i, 4);
    PartStep(before, at, result, 4 * i, 4);
    CryptWord(text, key, i);
    WordAtSlice(text, 4 * i);
    assert p[at + 4 * i..at + 4 * i + 4] == text[4 * i..4 * i + 4];
    var w := LoadWord(p, at + 4 * i);
    was := ByteOf(w, 0);
    w := Xor(w, key);
    now := ByteOf(w, 0);
    assert now == WordBytes(w)[0] == result[4 * i..4 * i + 4][0];
    StoreWord(p, at + 4 * i, w);
  }

  /** One turn of the loop over the bytes left over; `k` is counted from the start. */
  method CryptByteAt(p: array<Byte>, at: nat, k: nat, key: bv32, ghost before: seq<Byte>, ghost text: seq<Byte>)
    returns (was: Byte, now: Byte)
    requires at + |text| <= p.Length == |before| && text == before[at..at + |text|]
    requires |text| - |text| % 4 <= k < |text|
    requires p[..] == PartDone(before, at, Crypt(text, key), k)
    modifies p
    ensures p[..] == PartDone(before, at, Crypt(text, key), k + 1)
    ensures was == text[k] && now == Crypt(text, key)[k]
  {
    hide XorByte, ByteOf, Crypt, Splice, PartDone;
    ghost var result := Crypt(text, key);
    PartRest(before, at, result, k, 1);
    PartStep(before, at, result, k, 1);
    CryptRest(text, key, k);
    assert p[at + k] == p[..][at + k..at + k + 1][0] && text[k] == text[k..k + 1][0];
    was := p[at + k];
    now := XorByte(was, ByteOf(key, 0));
    assert now == result[k..k + 1][0];
    StoreByte(p, at + k, now);
  }

  /** Encrypt: `nLength` bytes at `at` are combined with the key in place; the checksum is taken
      over the bytes before they change. */
  method Encrypt(p: array<Byte>, at: nat, nLength: nat, dwCipherKey: bv32) returns (length: nat, byCheckSum: Byte)
    requires at + nLength <= p.Length
    modifies p
    ensures p[..] == Splice(old(p[..]), at, Crypt(old(p[at..at + nLength]), dwCipherKey))
    ensures length == nLength
    ensures byCheckSum == Checksum(old(p[at..at + nLength]), nLength / 4 + nLength % 4)
  {
    hide Crypt, Splice, SumStep, PartDone, Checksum;
    ghost var before, text := p[..], p[at..at + nLength];
    ghost var result := Crypt(text, dwCipherKey);
    byCheckSum := CHECKSUM_INITIAL_VALUE;
    PartStart(before, at, result);
    ChecksumSteps(text, 0);
    var nRound := nLength / 4;
    for i := 0 to nRound
      invariant p[..] == PartDone(before, at, result, 4 * i)
      invariant byCheckSum == Checksum(text, i)
    {
      ChecksumSteps(text, i);
      var was, now := CryptWordAt(p, at, i, dwCipherKey, before, text);
      byCheckSum := SumStep(byCheckSum, was);
    }
    var nRest := nLength % 4;
    for i := 0 to nRest
      invariant p[..] == PartDone(before, at, result, 4 * nRound + i)
      invariant byCheckSum == Checksum(text, nRound + i)
    {
      ChecksumSteps(text, nRound + i);
      var was, now := CryptByteAt(p, at, 4 * nRound + i, dwCipherKey, before, text);
      byCheckSum := SumStep(byCheckSum, was);
    }
    PartEnd(before, at, result);
    return nLength, byCheckSum;
  }

  /** Decrypt: the same, with the checksum taken over the bytes after they have changed. */
  method Decrypt(p: array<Byte>, at: nat, nLength: nat, dwCipherKey: bv32) returns (length: nat, byCheckSum: Byte)
    requires at + nLength <= p.Length
    modifies p
    ensures p[..] == Splice(old(p[..]), at, Crypt(old(p[at..at + nLength]), dwCipherKey))
    ensures length == nLength
    ensures byCheckSum == Checksum(Crypt(old(p[at..at + nLength]), dwCipherKey), nLength / 4 + nLength % 4)
  {
    hide Crypt, Splice, SumStep, PartDone, Checksum;
    ghost var before, text := p[..], p[at..at + nLength];
    ghost var result := Crypt(text, dwCipherKey);
    byCheckSum := CHECKSUM_INITIAL_VALUE;
    PartStart(before, at, result);
    ChecksumSteps(result, 0);
    var nRound := nLength / 4;
    for i := 0 to nRound
      invariant p[..] == PartDone(before, at, result, 4 * i)
      invariant byCheckSum == Checksum(result, i)
    {
      ChecksumSteps(result, i);
      var was, now := CryptWordAt(p, at, i, dwCipherKey, before, text);
      byCheckSum := SumStep(byCheckSum, now);
    }
    var nRest := nLength % 4;
    for i := 0 to nRest
      invariant p[..] == PartDone(before, at, result, 4 * nRound + i)
      invariant byCheckSum == Checksum(result, nRound + i)
    {
      ChecksumSteps(result, nRound + i);
      var was, now := CryptByteAt(p, at, 4 * nRound + i, dwCipherKey, before, text);
      byCheckSum := SumStep(byCheckSum, now);
    }
    PartEnd(before, at, result);
    return nLength, byCheckSum;
  }

  // ---- headers and packets ----

  /** bEncrypt: the top bit of the header word. */
  predicate Encrypted(b1: Byte) { b1 & 0x80 != 0 }

  function SetEncrypted(b1: Byte): Byte { b1 | 0x80 }

  function ClearEncrypted(b1: Byte): Byte { b1 & 0x7f }

  /** The two generators of one direction. */
  datatype Keys = Keys(header: Gen, body: Gen)

  predicate WfKeys(k: Keys)
  {
    Wf(k.header) && Wf(k.body)
  }

  predicate HasBody(p: seq<Byte>)
  {
    |p| >= HEADER_SIZE && PacketSize(p) <= |p|
  }

  /** TxEncrypt on a header: it is combined with the key and marked, unless it is marked already. */
  function SealHeader(g: Gen, b0: Byte, b1: Byte): (Byte, Byte)
    requires Wf(g)
  {
    if Encrypted(b1) then (b0, b1)
    else
      var key := ByteOf(Output(g), 0);
      (XorByte(b0, key), SetEncrypted(XorByte(b1, key)))
  }

  /** RxDecrypt on a header: the reverse, if it is marked. */
  function OpenHeader(g: Gen, b0: Byte, b1: Byte): (Byte, Byte)
    requires Wf(g)
  {
    if !Encrypted(b1) then (b0, b1)
    else
      var key := ByteOf(Output(g), 0);
      (XorByte(b0, key), ClearEncrypted(XorByte(b1, key)))
  }

  /** The generators after one packet whose header was, or was not, combined with a key. */
  function Used(k: Keys, header: bool): (r: Keys)
    requires WfKeys(k)
    ensures WfKeys(r)
  {
    Keys(if header then Advance(k.header) else k.header, Advance(k.body))
  }

  function Body(p: seq<Byte>): seq<Byte>
    requires HasBody(p)
  {
    p[HEADER_SIZE..PacketSize(p)]
  }

  /** TxEncrypt: the body, then the header; bytes after the body stay as they are. */
  function Seal(k: Keys, p: seq<Byte>): (r: seq<Byte>)
    requires WfKeys(k) && HasBody(p)
    ensures |r| == |p|
  {
    var h := SealHeader(k.header, p[0], p[1]);
    [h.0, h.1] + Crypt(Body(p), Output(k.body)) + p[PacketSize(p)..]
  }

  /** RxDecrypt: the header, then as many bytes as it now announces. The code does not check
      that they are there. */
  function Opened(k: Keys, c: seq<Byte>): seq<Byte>
    requires WfKeys(k) && |c| >= HEADER_SIZE
  {
    var h := OpenHeader(k.header, c[0], c[1]);
    [h.0, h.1] + c[HEADER_SIZE..]
  }

  function Open(k: Keys, c: seq<Byte>): seq<Byte>
    requires WfKeys(k) && |c| >= HEADER_SIZE && HasBody(Opened(k, c))
  {
    var o := Opened(k, c);
    o[..HEADER_SIZE] + Crypt(Body(o), Output(k.body)) + o[PacketSize(o)..]
  }

  lemma HeaderBits(b0: Byte, b1: Byte, key: Byte)
    requires !Encrypted(b1)
    ensures Encrypted(SetEncrypted(XorByte(b1, key)))
    ensures ClearEncrypted(XorByte(SetEncrypted(XorByte(b1, key)), key)) == b1
    ensures XorByte(XorByte(b0, key), key) == b0
  {
  }

  lemma ClearNotEncrypted(b1: Byte)
    ensures !Encrypted(ClearEncrypted(b1))
  {
  }

  /** A header comes back exactly when it was not marked as encrypted before. */
  lemma HeaderRestored(g: Gen, b0: Byte, b1: Byte)
    requires Wf(g)
    ensures var h := SealHeader(g, b0, b1); OpenHeader(g, h.0, h.1) == (b0, b1) <==> !Encrypted(b1)
  {
    hide Encrypted, SetEncrypted, ClearEncrypted, XorByte, ByteOf, Output;
    var key := ByteOf(Output(g), 0);
    if !Encrypted(b1) {
      HeaderBits(b0, b1, key);
    } else {
      ClearNotEncrypted(XorByte(b1, key));
    }
  }

  /** A packet whose header was not marked comes back whole, header, body and what follows, and
      both ends have used the same generators. */
  lemma OpenSeal(k: Keys, p: seq<Byte>)
    requires WfKeys(k) && HasBody(p) && !Encrypted(p[1])
    ensures var c := Seal(k, p);
            && Opened(k, c)[..HEADER_SIZE] == p[..HEADER_SIZE]
            && HasBody(Opened(k, c)) && Open(k, c) == p
            && Encrypted(c[1])
  {
    hide Encrypted, SetEncrypted, ClearEncrypted, XorByte, ByteOf, Output, BodyLength, Crypt;
    var c, key := Seal(k, p), ByteOf(Output(k.header), 0);
    HeaderBits(p[0], p[1], key);
    var o := Opened(k, c);
    assert o[0] == p[0] && o[1] == p[1];
    assert PacketSize(o) == PacketSize(p);
    assert PacketSize(p) == HEADER_SIZE + |Body(p)|;
    assert c[HEADER_SIZE..] == Crypt(Body(p), Output(k.body)) + p[PacketSize(p)..];
    assert Body(o) == Crypt(Body(p), Output(k.body));
    CryptTwice(Body(p), Output(k.body));
    assert Open(k, c) == p[..HEADER_SIZE] + Body(p) + p[PacketSize(p)..];
  }
}
