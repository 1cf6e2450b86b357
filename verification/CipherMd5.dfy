/** CipherMD5 of BaseLib/CipherMD5.cpp: the streaming context and the wrapper around it. */
module CipherMd5 {
  import opened CipherBase
  import opened Md5Standard
  import opened Memory
  import opened WordBits
  import opened Words

  const S11: Word := 7
  const S12: Word := 12
  const S13: Word := 17
  const S14: Word := 22
  const S21: Word := 5
  const S22: Word := 9
  const S23: Word := 14
  const S24: Word := 20
  const S31: Word := 4
  const S32: Word := 11
  const S33: Word := 16
  const S34: Word := 23
  const S41: Word := 6
  const S42: Word := 10
  const S43: Word := 15
  const S44: Word := 21

  lemma AddCommutes(a: Word, b: Word)
    ensures Add(a, b) == Add(b, a)
  {
  }

  // The macros of the four rounds.

  function FF(a: Word, b: Word, c: Word, d: Word, x: Word, s: Word, ac: Word): (r: Word)
    requires s <= 32
    ensures r == Operation(0, a, b, c, d, x, s, ac)
  {
    hide Add, RotateLeft, F;
    var sum := Add(a, Add(Add(F(b, c, d), x), ac));
    AddCommutes(RotateLeft(sum, s), b);
    Add(RotateLeft(sum, s), b)
  }

  function GG(a: Word, b: Word, c: Word, d: Word, x: Word, s: Word, ac: Word): (r: Word)
    requires s <= 32
    ensures r == Operation(1, a, b, c, d, x, s, ac)
  {
    hide Add, RotateLeft, G;
    var sum := Add(a, Add(Add(G(b, c, d), x), ac));
    AddCommutes(RotateLeft(sum, s), b);
    Add(RotateLeft(sum, s), b)
  }

  function HH(a: Word, b: Word, c: Word, d: Word, x: Word, s: Word, ac: Word): (r: Word)
    requires s <= 32
    ensures r == Operation(2, a, b, c, d, x, s, ac)
  {
    hide Add, RotateLeft, H;
    var sum := Add(a, Add(Add(H(b, c, d), x), ac));
    AddCommutes(RotateLeft(sum, s), b);
    Add(RotateLeft(sum, s), b)
  }

  function II(a: Word, b: Word, c: Word, d: Word, x: Word, s: Word, ac: Word): (r: Word)
    requires s <= 32
    ensures r == Operation(3, a, b, c, d, x, s, ac)
  {
    hide Add, RotateLeft, I;
    var sum := Add(a, Add(Add(I(b, c, d), x), ac));
    AddCommutes(RotateLeft(sum, s), b);
    Add(RotateLeft(sum, s), b)
  }

  method Round1(a0: Word, b0: Word, c0: Word, d0: Word, x: seq<Word>, ghost s: State)
    returns (a: Word, b: Word, c: Word, d: Word)
    requires |x| == 16 && State(a0, b0, c0, d0) == Steps(x, 0, s)
    ensures State(a, b, c, d) == Steps(x, 16, s)
  {
    hide Operation, Steps, FF, GG, HH, II;
    a, b, c, d := a0, b0, c0, d0;
    a := FF(a, b, c, d, x[0], S11, 0xd76aa478);
    d := FF(d, a, b, c, x[1], S12, 0xe8c7b756);
    c := FF(c, d, a, b, x[2], S13, 0x242070db);
    b := FF(b, c, d, a, x[3], S14, 0xc1bdceee);
    QuadIsFourSteps(x, 0, s);
    assert State(a, b, c, d) == Steps(x, 4, s);
    a := FF(a, b, c, d, x[4], S11, 0xf57c0faf);
    d := FF(d, a, b, c, x[5], S12, 0x4787c62a);
    c := FF(c, d, a, b, x[6], S13, 0xa8304613);
    b := FF(b, c, d, a, x[7], S14, 0xfd469501);
    QuadIsFourSteps(x, 1, s);
    assert State(a, b, c, d) == Steps(x, 8, s);
    a := FF(a, b, c, d, x[8], S11, 0x698098d8);
    d := FF(d, a, b, c, x[9], S12, 0x8b44f7af);
    c := FF(c, d, a, b, x[10], S13, 0xffff5bb1);
    b := FF(b, c, d, a, x[11], S14, 0x895cd7be);
    QuadIsFourSteps(x, 2, s);
    assert State(a, b, c, d) == Steps(x, 12, s);
    a := FF(a, b, c, d, x[12], S11, 0x6b901122);
    d := FF(d, a, b, c, x[13], S12, 0xfd987193);
    c := FF(c, d, a, b, x[14], S13, 0xa679438e);
    b := FF(b, c, d, a, x[15], S14, 0x49b40821);
    QuadIsFourSteps(x, 3, s);
    assert State(a, b, c, d) == Steps(x, 16, s);
  }

  method Round2(a0: Word, b0: Word, c0: Word, d0: Word, x: seq<Word>, ghost s: State)
    returns (a: Word, b: Word, c: Word, d: Word)
    requires |x| == 16 && State(a0, b0, c0, d0) == Steps(x, 16, s)
    ensures State(a, b, c, d) == Steps(x, 32, s)
  {
    hide Operation, Steps, FF, GG, HH, II;
    a, b, c, d := a0, b0, c0, d0;
    a := GG(a, b, c, d, x[1], S21, 0xf61e2562);
    d := GG(d, a, b, c, x[6], S22, 0xc040b340);
    c := GG(c, d, a, b, x[11], S23, 0x265e5a51);
    b := GG(b, c, d, a, x[0], S24, 0xe9b6c7aa);
    QuadIsFourSteps(x, 4, s);
    assert State(a, b, c, d) == Steps(x, 20, s);
    a := GG(a, b, c, d, x[5], S21, 0xd62f105d);
    d := GG(d, a, b, c, x[10], S22, 0x2441453);
    c := GG(c, d, a, b, x[15], S23, 0xd8a1e681);
    b := GG(b, c, d, a, x[4], S24, 0xe7d3fbc8);
    QuadIsFourSteps(x, 5, s);
    assert State(a, b, c, d) == Steps(x, 24, s);
    a := GG(a, b, c, d, x[9], S21, 0x21e1cde6);
    d := GG(d, a, b, c, x[14], S22, 0xc33707d6);
    c := GG(c, d, a, b, x[3], S23, 0xf4d50d87);
    b := GG(b, c, d, a, x[8], S24, 0x455a14ed);
    QuadIsFourSteps(x, 6, s);
    assert State(a, b, c, d) == Steps(x, 28, s);
    a := GG(a, b, c, d, x[13], S21, 0xa9e3e905);
    d := GG(d, a, b, c, x[2], S22, 0xfcefa3f8);
    c := GG(c, d, a, b, x[7], S23, 0x676f02d9);
    b := GG(b, c, d, a, x[12], S24, 0x8d2a4c8a);
    QuadIsFourSteps(x, 7, s);
    assert State(a, b, c, d) == Steps(x, 32, s);
  }

  method Round3(a0: Word, b0: Word, c0: Word, d0: Word, x: seq<Word>, ghost s: State)
    returns (a: Word, b: Word, c: Word, d: Word)
    requires |x| == 16 && State(a0, b0, c0, d0) == Steps(x, 32, s)
    ensures State(a, b, c, d) == Steps(x, 48, s)
  {
    hide Operation, Steps, FF, GG, HH, II;
    a, b, c, d := a0, b0, c0, d0;
    a := HH(a, b, c, d, x[5], S31, 0xfffa3942);
    d := HH(d, a, b, c, x[8], S32, 0x8771f681);
    c := HH(c, d, a, b, x[11], S33, 0x6d9d6122);
    b := HH(b, c, d, a, x[14], S34, 0xfde5380c);
    QuadIsFourSteps(x, 8, s);
    assert State(a, b, c, d) == Steps(x, 36, s);
    a := HH(a, b, c, d, x[1], S31, 0xa4beea44);
    d := HH(d, a, b, c, x[4], S32, 0x4bdecfa9);
    c := HH(c, d, a, b, x[7], S33, 0xf6bb4b60);
    b := HH(b, c, d, a, x[10], S34, 0xbebfbc70);
    QuadIsFourSteps(x, 9, s);
    assert State(a, b, c, d) == Steps(x, 40, s);
    a := HH(a, b, c, d, x[13], S31, 0x289b7ec6);
    d := HH(d, a, b, c, x[0], S32, 0xeaa127fa);
    c := HH(c, d, a, b, x[3], S33, 0xd4ef3085);
    b := HH(b, c, d, a, x[6], S34, 0x4881d05);
    QuadIsFourSteps(x, 10, s);
    assert State(a, b, c, d) == Steps(x, 44, s);
    a := HH(a, b, c, d, x[9], S31, 0xd9d4d039);
    d := HH(d, a, b, c, x[12], S32, 0xe6db99e5);
    c := HH(c, d, a, b, x[15], S33, 0x1fa27cf8);
    b := HH(b, c, d, a, x[2], S34, 0xc4ac5665);
    QuadIsFourSteps(x, 11, s);
    assert State(a, b, c, d) == Steps(x, 48, s);
  }

  method Round4(a0: Word, b0: Word, c0: Word, d0: Word, x: seq<Word>, ghost s: State)
    returns (a: Word, b: Word, c: Word, d: Word)
    requires |x| == 16 && State(a0, b0, c0, d0) == Steps(x, 48, s)
    ensures State(a, b, c, d) == Steps(x, 64, s)
  {
    hide Operation, Steps, FF, GG, HH, II;
    a, b, c, d := a0, b0, c0, d0;
    a := II(a, b, c, d, x[0], S41, 0xf4292244);
    d := II(d, a, b, c, x[7], S42, 0x432aff97);
    c := II(c, d, a, b, x[14], S43, 0xab9423a7);
    b := II(b, c, d, a, x[5], S44, 0xfc93a039);
    QuadIsFourSteps(x, 12, s);
    assert State(a, b, c, d) == Steps(x, 52, s);
    a := II(a, b, c, d, x[12], S41, 0x655b59c3);
    d := II(d, a, b, c, x[3], S42, 0x8f0ccc92);
    c := II(c, d, a, b, x[10], S43, 0xffeff47d);
    b := II(b, c, d, a, x[1], S44, 0x85845dd1);
    QuadIsFourSteps(x, 13, s);
    assert State(a, b, c, d) == Steps(x, 56, s);
    a := II(a, b, c, d, x[8], S41, 0x6fa87e4f);
    d := II(d, a, b, c, x[15], S42, 0xfe2ce6e0);
    c := II(c, d, a, b, x[6], S43, 0xa3014314);
    b := II(b, c, d, a, x[13], S44, 0x4e0811a1);
    QuadIsFourSteps(x, 14, s);
    assert State(a, b, c, d) == Steps(x, 60, s);
    a := II(a, b, c, d, x[4], S41, 0xf7537e82);
    d := II(d, a, b, c, x[11], S42, 0xbd3af235);
    c := II(c, d, a, b, x[2], S43, 0x2ad7d2bb);
    b := II(b, c, d, a, x[9], S44, 0xeb86d391);
    QuadIsFourSteps(x, 15, s);
    assert State(a, b, c, d) == Steps(x, 64, s);
  }

  const LIMIT := 0x1_0000_0000

  method Decode(output: array<Word>, input: array<Byte>, at: nat)
    requires output.Length == 16 && at + 64 <= input.Length
    modifies output
    ensures output[..] == BlockWords(input[at..at + 64])
  {
    hide WordOf;
    for i := 0 to 16
      invariant forall k :: 0 <= k < i ==> output[k] == WordAt(input[at..at + 64], 4 * k)
    {
      var j := at + 4 * i;
      output[i] := WordOf(input[j], input[j + 1], input[j + 2], input[j + 3]);
    }
  }

  function StateOf(state: seq<Word>): State
    requires |state| == 4
  {
    State(state[0], state[1], state[2], state[3])
  }

  /** MD5Transform: the 64 steps written out are those of section 3.4 of RFC 1321. */
  method MD5Transform(state: array<Word>, block: array<Byte>, at: nat)
    requires state.Length == 4 && at + 64 <= block.Length
    modifies state
    ensures StateOf(state[..]) == Compress(old(StateOf(state[..])), block[at..at + 64])
  {
    hide Steps, BlockWords, Add;
    var x := new Word[16];
    Decode(x, block, at);
    ghost var s := StateOf(state[..]);
    StepsNone(x[..], s);
    var a, b, c, d := state[0], state[1], state[2], state[3];
    a, b, c, d := Round1(a, b, c, d, x[..], s);
    a, b, c, d := Round2(a, b, c, d, x[..], s);
    a, b, c, d := Round3(a, b, c, d, x[..], s);
    a, b, c, d := Round4(a, b, c, d, x[..], s);
    state[0] := Add(state[0], a);
    state[1] := Add(state[1], b);
    state[2] := Add(state[2], c);
    state[3] := Add(state[3], d);
  }

  lemma StepsNone(x: seq<Word>, s: State)
    requires |x| == 16
    ensures Steps(x, 0, s) == s
  {
  }

  lemma WordsBytesIsOutput(w: seq<Word>)
    requires |w| == 4
    ensures WordsBytes(w, 4) == Output(StateOf(w))
  {
    hide WordBytes, WordsBytes;
    FourWords(w);
  }

  /** Encode, for the digest. */
  method EncodeState(output: array<Byte>, input: array<Word>)
    requires output.Length >= 16 && input.Length == 4
    modifies output
    ensures output[..] == Splice(old(output[..]), 0, Output(StateOf(input[..])))
  {
    hide WordBytes, Splice, Output;
    ghost var before := output[..];
    SpliceNothing(before, 0);
    for i := 0 to 4
      invariant output[..] == Splice(before, 0, WordsBytes(input[..], i))
    {
      SpliceTwice(before, 0, WordsBytes(input[..], i), WordBytes(input[i]));
      StoreWord(output, 4 * i, input[i]);
    }
    WordsBytesIsOutput(input[..]);
  }

  method EncodeNumber(output: array<Byte>, j: nat, n: nat)
    requires j + 4 <= output.Length && n < LIMIT
    modifies output
    ensures output[..] == Splice(old(output[..]), j, NumberBytes(n))
  {
    hide NumberBytes;
    var b := NumberBytes(n);
    output[j], output[j + 1], output[j + 2], output[j + 3] := b[0], b[1], b[2], b[3];
  }

  /** Encode, for the bit count. */
  method EncodeCount(output: array<Byte>, low: nat, high: nat)
    requires output.Length == 8 && low < LIMIT && high < LIMIT
    modifies output
    ensures output[..] == NumberBytes(low) + NumberBytes(high)
  {
    hide NumberBytes;
    for i := 0 to 2
      invariant i > 0 ==> output[..][..4] == NumberBytes(low)
      invariant i > 1 ==> output[..] == NumberBytes(low) + NumberBytes(high)
    {
      EncodeNumber(output, 4 * i, if i == 0 then low else high);
    }
  }

  // ---- the loop guard ----

  /** The guard of Update's loop, in 32-bit arithmetic. */
  predicate Guard(i: nat, inputLen: nat)
  {
    (i + 63) % LIMIT < inputLen
  }

  /** What a caller must see to: the last block boundary in the input leaves room to add 63. */
  predicate Fits(partLen: nat, inputLen: nat)
    requires partLen <= 64
  {
    inputLen < partLen || inputLen - (inputLen - partLen) % 64 + 63 < LIMIT
  }

  /** At the last block boundary, where the loop has to stop, it goes on past the input exactly when
      the addition wraps. */
  lemma GuardStops(partLen: nat, inputLen: nat)
    requires 1 <= partLen <= 64 && partLen <= inputLen < LIMIT
    ensures Guard(inputLen - (inputLen - partLen) % 64, inputLen) <==> !Fits(partLen, inputLen)
  {
    var v := inputLen - (inputLen - partLen) % 64;
    if v + 63 >= LIMIT {
      assert (v + 63) % LIMIT == v + 63 - LIMIT;
    }
  }

  /** Such inputs exist, for example one of 2^32 - 1 bytes behind a single earlier byte: exactly when the buffer holds
      some bytes already. */
  lemma GuardRunsOn(partLen: nat)
    requires 1 <= partLen <= 64
    ensures !Fits(63, 0xffff_ffff) && Guard(0xffff_ffff, 0xffff_ffff)
    ensures (exists n: nat :: n < LIMIT && !Fits(partLen, n)) <==> partLen < 64
  {
    if partLen < 64 {
      var n := LIMIT - 64 + partLen;
      assert n - partLen == 64 * 0x3ff_ffff;
      assert !Fits(partLen, n);
    }
  }

  lemma GuardExact(partLen: nat, inputLen: nat, i: nat)
    requires 1 <= partLen <= 64 && partLen <= i <= inputLen < LIMIT && (i - partLen) % 64 == 0
    requires Fits(partLen, inputLen)
    ensures Guard(i, inputLen) <==> i + 64 <= inputLen
  {
    var v := inputLen - (inputLen - partLen) % 64;
    assert i <= v;
    assert (v - i) % 64 == 0;
  }

  /** Any input of at most 2^32 - 64 bytes fits, whatever came before it. */
  lemma ShortFits(partLen: nat, inputLen: nat)
    requires partLen <= 64 && inputLen <= LIMIT - 64
    ensures Fits(partLen, inputLen)
  {
  }

  // ---- the bit count ----

  predicate Counts(low: nat, high: nat, bytes: nat)
  {
    low < LIMIT && high < LIMIT && low + LIMIT * high == 8 * bytes % (LIMIT * LIMIT)
  }

  /** The count's low word after `n` more bytes, the carry seen from the wrapped sum, and the high word. */
  function LowAfter(low: nat, n: nat): (r: nat)
    ensures r < LIMIT
  {
    (low + 8 * n % LIMIT) % LIMIT
  }

  function CarryInto(low: nat, high: nat, n: nat): nat
  {
    if LowAfter(low, n) < 8 * n % LIMIT then (high + 1) % LIMIT else high
  }

  function HighAfter(low: nat, high: nat, n: nat): (r: nat)
    ensures r < LIMIT
  {
    (CarryInto(low, high, n) + n / 0x2000_0000) % LIMIT
  }

  lemma CarryIsExact(low: nat, n: nat)
    requires low < LIMIT && n < LIMIT
    ensures var carry := if LowAfter(low, n) < 8 * n % LIMIT then 1 else 0;
            low + 8 * n == LIMIT * (carry + n / 0x2000_0000) + LowAfter(low, n)
  {
    var shifted := 8 * n % LIMIT;
    assert 8 * n == LIMIT * (n / 0x2000_0000) + shifted;
    assert low + shifted < LIMIT ==> LowAfter(low, n) == low + shifted;
    assert low + shifted >= LIMIT ==> LowAfter(low, n) == low + shifted - LIMIT;
  }

  /** The 64-bit addition by halves. */
  lemma CountAdds(low: nat, high: nat, bytes: nat, n: nat)
    requires Counts(low, high, bytes) && n < LIMIT
    ensures Counts(LowAfter(low, n), HighAfter(low, high, n), bytes + n)
  {
    hide LowAfter;
    var carry := if LowAfter(low, n) < 8 * n % LIMIT then 1 else 0;
    var top := n / 0x2000_0000;
    CarryIsExact(low, n);
    assert HighAfter(low, high, n) == (high + carry + top) % LIMIT;
    Reduced(8 * bytes / (LIMIT * LIMIT), high + carry + top, LowAfter(low, n));
  }

  lemma Reduced(q: nat, whole: nat, sum: nat)
    requires sum < LIMIT
    ensures (LIMIT * LIMIT * q + LIMIT * whole + sum) % (LIMIT * LIMIT) == sum + LIMIT * (whole % LIMIT)
  {
    assert LIMIT * LIMIT * q + LIMIT * whole + sum
        == LIMIT * LIMIT * (q + whole / LIMIT) + (LIMIT * (whole % LIMIT) + sum);
  }

  lemma HighAndLow(n: nat, high: nat, low: nat)
    requires n == LIMIT * high + low && low < LIMIT
    ensures n / LIMIT == high && n % LIMIT == low
  {
  }

  lemma WordsOfCount(low: nat, high: nat, bytes: nat)
    requires Counts(low, high, bytes)
    ensures low == 8 * bytes % LIMIT && high == 8 * bytes / LIMIT % LIMIT
  {
    var q := 8 * bytes / (LIMIT * LIMIT);
    assert 8 * bytes == LIMIT * (LIMIT * q + high) + low;
    hide Counts;
    HighAndLow(8 * bytes, LIMIT * q + high, low);
    HighAndLow(LIMIT * q + high, q, high);
  }

  lemma LowOf(bytes: nat)
    ensures 8 * bytes % LIMIT == 8 * (bytes % 0x2000_0000)
  {
    assert 8 * bytes == LIMIT * (bytes / 0x2000_0000) + 8 * (bytes % 0x2000_0000);
  }

  lemma PartOfBlock(bytes: nat)
    ensures bytes % 0x2000_0000 % 64 == bytes % 64
  {
    assert bytes == 64 * (0x80_0000 * (bytes / 0x2000_0000)) + bytes % 0x2000_0000;
  }

  lemma CountIndex(low: nat, high: nat, bytes: nat)
    requires Counts(low, high, bytes)
    ensures low / 8 % 64 == bytes % 64
  {
    WordsOfCount(low, high, bytes);
    LowOf(bytes);
    PartOfBlock(bytes);
    hide Counts;
    assert low / 8 == bytes % 0x2000_0000;
  }

  lemma CountBytes(low: nat, high: nat, m: seq<Byte>)
    requires Counts(low, high, |m|)
    ensures NumberBytes(low) + NumberBytes(high) == LengthBytes(m)
  {
    hide NumberBytes;
    WordsOfCount(low, high, |m|);
  }

  // ---- the context ----

  /** MD5_CTX. */
  class Md5Context {
    const state: array<Word>
    const buffer: array<Byte>
    var count0: nat
    var count1: nat
    ghost var message: seq<Byte>

    ghost predicate Shape()
    {
      state.Length == 4 && buffer.Length == 64
    }

    /** The context holds exactly the message so far: the fold over its whole blocks, what is left over, and its
        length in bits. */
    ghost predicate Valid()
      reads this, state, buffer
    {
      var n, rest := |message| / 64, |message| % 64;
      && Shape()
      && StateOf(state[..]) == Folded(message, n)
      && buffer[..rest] == message[64 * n..]
      && Counts(count0, count1, |message|)
    }

    constructor ()
      ensures Valid() && message == []
      ensures fresh(state) && fresh(buffer)
    {
      state := new Word[4];
      buffer := new Byte[64];
      count0, count1, message := 0, 0, [];
      new;
      state[0], state[1], state[2], state[3] := INITIAL.a, INITIAL.b, INITIAL.c, INITIAL.d;
      FoldedNone([]);
    }

    /** The bit count after `inputLen` more bytes. */
    method AddCount(inputLen: nat)
      requires Shape() && inputLen < LIMIT && Counts(count0, count1, |message|)
      modifies this`count0, this`count1
      ensures Counts(count0, count1, |message| + inputLen)
    {
      hide Counts;
      CountAdds(count0, count1, |message|, inputLen);
      var shifted := 8 * inputLen % LIMIT;
      count0 := (count0 + shifted) % LIMIT;
      if count0 < shifted {
        count1 := (count1 + 1) % LIMIT;
      }
      count1 := (count1 + inputLen / 0x2000_0000) % LIMIT;
    }

    /** The blocks that lie wholly in the input. */
    method TransformAll(input: array<Byte>, partLen: nat, inputLen: nat, ghost total: seq<Byte>) returns (i: nat)
      requires Shape() && input != buffer && 1 <= partLen <= 64 && partLen <= inputLen <= input.Length
      requires inputLen < LIMIT
      requires Fits(partLen, inputLen)
      requires |total| >= inputLen && (|total| - inputLen + partLen) % 64 == 0
      requires total[|total| - inputLen..] == input[..inputLen]
      requires StateOf(state[..]) == Folded(total, (|total| - inputLen + partLen) / 64)
      modifies state
      ensures partLen <= i <= inputLen < i + 64 && (|total| - inputLen + i) % 64 == 0
      ensures StateOf(state[..]) == Folded(total, (|total| - inputLen + i) / 64)
    {
      hide Guard, Fits, Compress, Folded, StateOf;
      i := partLen;
      ghost var n := (|total| - inputLen + partLen) / 64;
      GuardExact(partLen, inputLen, i);
      while Guard(i, inputLen)
        invariant partLen <= i <= inputLen && (i - partLen) % 64 == 0
        invariant |total| - inputLen + i == 64 * n
        invariant Guard(i, inputLen) <==> i + 64 <= inputLen
        invariant StateOf(state[..]) == Folded(total, n)
        decreases inputLen - i
      {
        MD5Transform(state, input, i);
        InputBlock(total, input[..inputLen], i);
        assert input[i..i + 64] == input[..inputLen][i..i + 64];
        FoldedNext(total, n);
        i, n := i + 64, n + 1;
        GuardExact(partLen, inputLen, i);
      }
    }

    static lemma InputBlock(total: seq<Byte>, input: seq<Byte>, i: nat)
      requires |total| >= |input| && total[|total| - |input|..] == input && i + 64 <= |input|
      ensures total[|total| - |input| + i..|total| - |input| + i + 64] == input[i..i + 64]
    {
      SliceOfSlice(total, |total| - |input|, |total|, i, i + 64);
    }

    /** The block that straddles the old end of the message. */
    method FillBlock(input: array<Byte>, inputLen: nat, index: nat, ghost m: seq<Byte>)
      requires Shape() && input != buffer && inputLen <= input.Length
      requires index == |m| % 64 && index + inputLen >= 64 && buffer[..index] == m[64 * (|m| / 64)..]
      requires StateOf(state[..]) == Folded(m, |m| / 64)
      modifies state, buffer
      ensures StateOf(state[..]) == Folded(m + input[..inputLen], |m| / 64 + 1)
    {
      hide Compress, StateOf, Splice;
      var partLen := 64 - index;
      CopyMemory(buffer, index, input, 0, partLen);
      assert input[..][0..partLen] == input[..inputLen][..partLen];
      BufferFilled(m, input[..inputLen], old(buffer[..]), buffer[..]);
      MD5Transform(state, buffer, 0);
      assert buffer[0..64] == buffer[..];
      FoldedPrefix(m, input[..inputLen], |m| / 64);
      FoldedNext(m + input[..inputLen], |m| / 64);
    }

    /** What is left of the input, or all of it, goes to the buffer. */
    method KeepRest(input: array<Byte>, inputLen: nat, index: nat, i: nat, ghost m: seq<Byte>)
      requires Shape() && input != buffer && i <= inputLen <= input.Length && index + inputLen - i < 64
      requires
        || (index == |m| % 64 && i == 0 && buffer[..index] == m[64 * (|m| / 64)..])
        || (index == 0 && (|m| + i) % 64 == 0)
      modifies buffer
      ensures var total := m + input[..inputLen]; buffer[..|total| % 64] == total[64 * (|total| / 64)..]
    {
      hide Splice;
      CopyMemory(buffer, index, input, i, inputLen - i);
      assert input[..][i..inputLen] == input[..inputLen][i..];
      Remainder(m, input[..inputLen], old(buffer[..]), buffer[..], index, i);
    }

    /** Update: the context of the longer message. */
    method Update(input: array<Byte>, inputLen: nat)
      requires Valid() && input != buffer && inputLen <= input.Length && inputLen < LIMIT
      requires Fits(64 - |message| % 64, inputLen)
      modifies this, state, buffer
      ensures Valid() && message == old(message) + input[..inputLen]
    {
      hide Counts, Folded, StateOf, Fits;
      ghost var m := message;
      ghost var total := m + input[..inputLen];
      CountIndex(count0, count1, |m|);
      var index := count0 / 8 % 64;
      AddCount(inputLen);
      var partLen := 64 - index;
      var i: nat := 0;
      if inputLen >= partLen {
        FillBlock(input, inputLen, index, m);
        BlockBoundary(|m|, partLen);
        assert total[|total| - inputLen..] == input[..inputLen];
        i := TransformAll(input, partLen, inputLen, total);
        index := 0;
      } else {
        FoldedPrefix(m, input[..inputLen], |m| / 64);
      }
      LastBoundary(|m|, index, i, inputLen);
      KeepRest(input, inputLen, index, i, m);
      message := total;
    }

    static lemma BlockBoundary(n: nat, partLen: nat)
      requires partLen == 64 - n % 64
      ensures (n + partLen) % 64 == 0 && (n + partLen) / 64 == n / 64 + 1
    {
    }

    static lemma LastBoundary(n: nat, index: nat, i: nat, inputLen: nat)
      requires i <= inputLen && index + inputLen - i < 64
      requires (index == n % 64 && i == 0) || (index == 0 && (n + i) % 64 == 0)
      ensures (n + i) / 64 == (n + inputLen) / 64
    {
    }

    /** The buffer completed from the input is the block that straddles the old end. */
    static lemma BufferFilled(m: seq<Byte>, input: seq<Byte>, before: seq<Byte>, after: seq<Byte>)
      requires |before| == 64 && before[..|m| % 64] == m[64 * (|m| / 64)..] && |m| % 64 + |input| >= 64
      requires after == Splice(before, |m| % 64, input[..64 - |m| % 64])
      ensures after == (m + input)[64 * (|m| / 64)..64 * (|m| / 64) + 64]
    {
      var k := |m| % 64;
      assert 64 * (|m| / 64) == |m| - k;
      assert after == before[..k] + input[..64 - k];
    }

    static lemma RestOfTotal(n: nat, total: nat, rest: nat)
      requires n <= total && n % 64 == 0 && rest == total - n && rest < 64
      ensures total % 64 == rest && 64 * (total / 64) == n
    {
    }

    static lemma Remainder(m: seq<Byte>, input: seq<Byte>, before: seq<Byte>, after: seq<Byte>, index: nat, i: nat)
      requires |before| == 64 && i <= |input| && index + |input| - i < 64
      requires after == Splice(before, index, input[i..])
      requires
        || (index == |m| % 64 && i == 0 && before[..index] == m[64 * (|m| / 64)..])
        || (index == 0 && (|m| + i) % 64 == 0)
      ensures var total := m + input; var rest := |total| % 64;
              rest == index + |input| - i && after[..rest] == total[64 * (|total| / 64)..]
    {
      var total := m + input;
      var rest := index + |input| - i;
      if index == 0 && (|m| + i) % 64 == 0 {
        RestOfTotal(|m| + i, |total|, rest);
        assert after[..rest] == input[i..] == total[|m| + i..];
      } else {
        RestOfTotal(64 * (|m| / 64), |total|, rest);
        assert total[64 * (|m| / 64)..] == m[64 * (|m| / 64)..] + input;
        assert after[..rest] == before[..index] + input;
      }
    }

    /** Final: the digest of everything the context was given. */
    method Final(digest: array<Byte>)
      requires Valid() && digest.Length >= 16 && digest != buffer
      modifies this, state, buffer, digest
      ensures digest[..] == Splice(old(digest[..]), 0, Digest(old(message)))
    {
      hide Counts, Folded, StateOf, NumberBytes, Output, Fits;
      ghost var m, before := message, digest[..];
      var bits := new Byte[8];
      EncodeCountOf(bits);
      CountIndex(count0, count1, |m|);
      var index := count0 / 8 % 64;
      var padLen := if index < 56 then 56 - index else 120 - index;
      var padding := NewPadding();
      ShortFits(64 - |message| % 64, padLen);
      Update(padding, padLen);
      ShortFits(64 - |message| % 64, 8);
      Update(bits, 8);
      assert padding[..padLen] == Padding(PadLength(|m|));
      assert bits[..8] == LengthBytes(m);
      assert message == Padded(m);
      EncodeState(digest, state);
      assert digest[..] == Splice(before, 0, Digest(m));
    }

    method EncodeCountOf(bits: array<Byte>)
      requires Counts(count0, count1, |message|) && bits.Length == 8
      modifies bits
      ensures bits[..8] == LengthBytes(message)
    {
      EncodeCount(bits, count0, count1);
      CountBytes(count0, count1, message);
      assert bits[..8] == bits[..];
    }
  }

  /** PADDING. */
  method NewPadding() returns (p: array<Byte>)
    ensures fresh(p) && p.Length == 64 && forall k :: 1 <= k <= 64 ==> p[..k] == Padding(k)
  {
    p := new Byte[64](i => if i == 0 then 0x80 else 0);
  }

  /** What Encrypt returns, unless it copies or writes outside its buffers. */
  datatype Result = Returned(rc: int) | OutOfBounds

  /** Encrypt: the digest of up to 1023 bytes. The size of the output is only compared with 1023. The 16 bytes are
      written whatever it is, past its end exactly when it is below 16: the last two postconditions. They leave memory
      itself when the output has fewer bytes, as the copy of the input does for a negative length, which memcpy takes
      for a huge one. */
  method Encrypt(originalData: array?<Byte>, originalDataLength: int, encData: array?<Byte>, encDataSize: int)
    returns (r: Result)
    requires originalData != null ==> originalDataLength <= originalData.Length
    modifies if encData == null then {} else {encData}
    ensures r == if originalData == null then Returned(NULL_INPUTDATA)
                 else if encData == null then Returned(NULL_OUTPUTDATA)
                 else if encDataSize > BUFFER_SIZE - 1 then Returned(INVALID_OUTPUTDATA_SIZE)
                 else if originalDataLength > BUFFER_SIZE - 1 then Returned(INVALID_INPUTDATA_LENGTH)
                 else if originalDataLength < 0 || encData.Length < 16 then OutOfBounds
                 else Returned(16)
    ensures r.Returned? && r.rc < 0 && encData != null ==> encData[..] == old(encData[..])
    ensures r == Returned(16) ==>
              encData[..] == Splice(old(encData[..]), 0, Digest(old(originalData[..originalDataLength])))
    ensures r == Returned(16) && 16 <= encDataSize <= encData.Length ==>
              encData[encDataSize..] == old(encData[encDataSize..])
    ensures r == Returned(16) && 0 <= encDataSize < 16 ==>
              encData[encDataSize..16] == Digest(old(originalData[..originalDataLength]))[encDataSize..]
  {
    hide Digest, Splice;
    if originalData == null {
      return Returned(NULL_INPUTDATA);
    }
    if encData == null {
      return Returned(NULL_OUTPUTDATA);
    }
    if encDataSize > BUFFER_SIZE - 1 {
      return Returned(INVALID_OUTPUTDATA_SIZE);
    }
    if originalDataLength > BUFFER_SIZE - 1 {
      return Returned(INVALID_INPUTDATA_LENGTH);
    }
    if originalDataLength < 0 || encData.Length < 16 {
      return OutOfBounds;
    }
    var buf := new Byte[BUFFER_SIZE](_ => 0);
    CopyMemory(buf, 0, originalData, 0, originalDataLength);
    assert buf[..originalDataLength] == originalData[..originalDataLength] by {
      assert originalData[..][0..originalDataLength] == originalData[..originalDataLength];
      assert buf[..][0..originalDataLength] == buf[..originalDataLength];
    }
    ghost var data, before := originalData[..originalDataLength], encData[..];
    var md5Ctx := new Md5Context();
    ShortFits(64, originalDataLength);
    md5Ctx.Update(buf, originalDataLength);
    assert md5Ctx.message == data;
    md5Ctx.Final(encData);
    DigestPart(before, encData[..], Digest(data), if 0 <= encDataSize <= encData.Length then encDataSize else 0);
    return Returned(16);
  }

  lemma DigestPart(before: seq<Byte>, after: seq<Byte>, digest: seq<Byte>, size: nat)
    requires |digest| == 16 <= |before| && after == Splice(before, 0, digest) && size <= |before|
    ensures 16 <= size ==> after[size..] == before[size..]
    ensures size < 16 ==> after[size..16] == digest[size..]
  {
  }

  /** However a message is split into calls of Update, Final yields its digest. */
  method DigestInPieces(pieces: seq<seq<Byte>>, digest: array<Byte>)
    requires forall p :: p in pieces ==> |p| <= LIMIT - 64
    requires digest.Length >= 16
    modifies digest
    ensures digest[..] == Splice(old(digest[..]), 0, Digest(Flatten(pieces)))
  {
    hide Digest, Splice, Md5Context.Valid;
    var ctx := new Md5Context();
    for i := 0 to |pieces|
      invariant ctx.Valid() && fresh(ctx) && fresh(ctx.state) && fresh(ctx.buffer)
      invariant ctx.message == Flatten(pieces[..i])
      invariant digest[..] == old(digest[..])
    {
      var piece := pieces[i];
      assert piece in pieces;
      var input := new Byte[|piece|](k requires 0 <= k < |piece| => piece[k]);
      assert input[..|piece|] == piece;
      ShortFits(64 - |ctx.message| % 64, |piece|);
      ctx.Update(input, |piece|);
      FlattenSnoc(pieces[..i], piece);
      assert pieces[..i + 1] == pieces[..i] + [piece];
    }
    assert pieces[..|pieces|] == pieces;
    ctx.Final(digest);
  }
}
