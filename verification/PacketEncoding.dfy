/** PacketEncoder of BaseLib/Encoder.cpp: four generators, two for each direction. */
module PacketEncoding {
  import opened Memory
  import opened Framing
  import opened RandomGenerator
  import opened PacketCipher
  import opened Words

  const RX_RANDOM_SEED_HEADER: bv32 := 0xFFEECCBB
  const TX_RANDOM_SEED_HEADER: bv32 := 0xBBCCEEFF
  const RX_RANDOM_SEED_BODY: bv32 := 0xAABBCCDD
  const TX_RANDOM_SEED_BODY: bv32 := 0xDDBBCCAA

  /** The keys a fresh encoder sends with and receives with. */
  function TxKeys(bSeedSwap: bool): (k: Keys)
    ensures WfKeys(k)
  {
    if bSeedSwap then Keys(Seeded(RX_RANDOM_SEED_HEADER), Seeded(RX_RANDOM_SEED_BODY))
    else Keys(Seeded(TX_RANDOM_SEED_HEADER), Seeded(TX_RANDOM_SEED_BODY))
  }

  function RxKeys(bSeedSwap: bool): (k: Keys)
    ensures WfKeys(k)
  {
    if bSeedSwap then Keys(Seeded(TX_RANDOM_SEED_HEADER), Seeded(TX_RANDOM_SEED_BODY))
    else Keys(Seeded(RX_RANDOM_SEED_HEADER), Seeded(RX_RANDOM_SEED_BODY))
  }

  predicate Separate(a: RandomGen, b: RandomGen) { a != b && a.m_table != b.m_table }

  class PacketEncoder {
    const m_rxBodyKeyGenerator: RandomGen
    const m_txBodyKeyGenerator: RandomGen
    const m_rxHeaderKeyGenerator: RandomGen
    const m_txHeaderKeyGenerator: RandomGen

    ghost function Generators(): set<object>
    {
      {m_rxBodyKeyGenerator, m_txBodyKeyGenerator, m_rxHeaderKeyGenerator, m_txHeaderKeyGenerator,
       m_rxBodyKeyGenerator.m_table, m_txBodyKeyGenerator.m_table,
       m_rxHeaderKeyGenerator.m_table, m_txHeaderKeyGenerator.m_table}
    }

    ghost function Tx(): Keys
      reads Generators()
    {
      Keys(m_txHeaderKeyGenerator.Abs(), m_txBodyKeyGenerator.Abs())
    }

    ghost function Rx(): Keys
      reads Generators()
    {
      Keys(m_rxHeaderKeyGenerator.Abs(), m_rxBodyKeyGenerator.Abs())
    }

    ghost predicate Valid()
      reads Generators()
    {
      && WfKeys(Tx()) && WfKeys(Rx())
      && Separate(m_rxBodyKeyGenerator, m_txBodyKeyGenerator)
      && Separate(m_rxHeaderKeyGenerator, m_txHeaderKeyGenerator)
      && Separate(m_rxBodyKeyGenerator, m_rxHeaderKeyGenerator)
      && Separate(m_rxBodyKeyGenerator, m_txHeaderKeyGenerator)
      && Separate(m_txBodyKeyGenerator, m_rxHeaderKeyGenerator)
      && Separate(m_txBodyKeyGenerator, m_txHeaderKeyGenerator)
    }

    constructor (bSeedSwap: bool)
      ensures Valid() && fresh(Generators())
      ensures Tx() == TxKeys(bSeedSwap) && Rx() == RxKeys(bSeedSwap)
    {
      hide Seeded, Wf;
      if bSeedSwap {
        m_rxHeaderKeyGenerator := new RandomGen(TX_RANDOM_SEED_HEADER);
        m_txHeaderKeyGenerator := new RandomGen(RX_RANDOM_SEED_HEADER);
        m_rxBodyKeyGenerator := new RandomGen(TX_RANDOM_SEED_BODY);
        m_txBodyKeyGenerator := new RandomGen(RX_RANDOM_SEED_BODY);
      } else {
        m_rxHeaderKeyGenerator := new RandomGen(RX_RANDOM_SEED_HEADER);
        m_txHeaderKeyGenerator := new RandomGen(TX_RANDOM_SEED_HEADER);
        m_rxBodyKeyGenerator := new RandomGen(RX_RANDOM_SEED_BODY);
        m_txBodyKeyGenerator := new RandomGen(TX_RANDOM_SEED_BODY);
      }
    }

    /** TxEncrypt(void*): the header at `at`, unless it is marked as encrypted. */
    method TxEncryptHeader(a: array<Byte>, at: nat)
      requires Valid() && at + HEADER_SIZE <= a.Length
      modifies a, m_txHeaderKeyGenerator, m_txHeaderKeyGenerator.m_table
      ensures Valid() && Rx() == old(Rx()) && Tx().body == old(Tx().body)
      ensures Tx().header == HeaderUsed(old(Tx().header), !old(Encrypted(a[at + 1])))
      ensures a[..] == SpliceHeader(old(a[..]), at, old(SealHeader(Tx().header, a[at], a[at + 1])))
    {
      hide Encrypted, SetEncrypted, XorByte, ByteOf, Output, Advance, Wf;
      ghost var a0 := a[..];
      if !Encrypted(a[at + 1]) {
        var key := m_txHeaderKeyGenerator.Generate();
        MarkHeader(a, at, key);
      } else {
        SpliceSame(a0, at);
      }
    }

    /** RxDecrypt(void*): the header at `at`, if it is marked as encrypted. */
    method RxDecryptHeader(a: array<Byte>, at: nat)
      requires Valid() && at + HEADER_SIZE <= a.Length
      modifies a, m_rxHeaderKeyGenerator, m_rxHeaderKeyGenerator.m_table
      ensures Valid() && Tx() == old(Tx()) && Rx().body == old(Rx().body)
      ensures Rx().header == HeaderUsed(old(Rx().header), old(Encrypted(a[at + 1])))
      ensures a[..] == SpliceHeader(old(a[..]), at, old(OpenHeader(Rx().header, a[at], a[at + 1])))
    {
      hide Encrypted, ClearEncrypted, XorByte, ByteOf, Output, Advance, Wf;
      ghost var a0 := a[..];
      if Encrypted(a[at + 1]) {
        var key := m_rxHeaderKeyGenerator.Generate();
        UnmarkHeader(a, at, key);
      } else {
        SpliceSame(a0, at);
      }
    }

    /** TxEncrypt(Packet&) on the `size` bytes at `at`: first the body, then the header. */
    method TxEncrypt(a: array<Byte>, at: nat, size: nat) returns (rc: int, byCheckSum: Byte)
      requires Valid() && at + size <= a.Length && HasBody(a[at..at + size])
      modifies a, m_txHeaderKeyGenerator, m_txHeaderKeyGenerator.m_table
      modifies m_txBodyKeyGenerator, m_txBodyKeyGenerator.m_table
      ensures Valid() && Rx() == old(Rx())
      ensures rc == 0
      ensures var p := old(a[at..at + size]);
              && a[..] == Splice(old(a[..]), at, Seal(old(Tx()), p))
              && Tx() == Used(old(Tx()), !Encrypted(p[1]))
              && byCheckSum == BodySum(Body(p))
    {
      hide Encrypted, SealHeader, Output, Advance, Wf, Crypt, Seal, Checksum, Splice, BodyLength, PacketSize, Body;
      ghost var a0, p, k := a[..], a[at..at + size], Tx();
      SealParts(k, a0, at, p);
      var key := m_txBodyKeyGenerator.Generate();
      rc, byCheckSum := EncryptBody(a, at, size, key);
      if rc != 0 {
        return;
      }
      TxEncryptHeader(a, at);
    }

    /** RxDecrypt(Packet&) on the `size` bytes at `at`: first the header, then as much as it
        announces. */
    method RxDecrypt(a: array<Byte>, at: nat, size: nat) returns (rc: int, byCheckSum: Byte)
      requires Valid() && at + size <= a.Length && HEADER_SIZE <= size
      requires HasBody(Opened(Rx(), a[at..at + size]))
      modifies a, m_rxHeaderKeyGenerator, m_rxHeaderKeyGenerator.m_table
      modifies m_rxBodyKeyGenerator, m_rxBodyKeyGenerator.m_table
      ensures Valid() && Tx() == old(Tx())
      ensures rc == 0
      ensures var c := old(a[at..at + size]);
              && a[..] == Splice(old(a[..]), at, Open(old(Rx()), c))
              && Rx() == Used(old(Rx()), Encrypted(c[1]))
              && byCheckSum == BodySum(Body(Open(old(Rx()), c)))
    {
      hide Encrypted, OpenHeader, Output, Advance, Wf, Crypt, Open, Opened, Checksum, Splice, BodyLength;
      hide PacketSize, Body;
      ghost var a0, c, k := a[..], a[at..at + size], Rx();
      OpenedParts(k, a0, at, c);
      OpenParts(k, a0, at, c);
      RxDecryptHeader(a, at);
      ghost var a1 := a[..];
      var key := m_rxBodyKeyGenerator.Generate();
      assert a[..] == a1 && a[at..at + size] == a1[at..at + size] == Opened(k, c);
      rc, byCheckSum := DecryptBody(a, at, size, key);
    }
  }

  /** The body of the packet of `size` bytes at `at` is encrypted in place. */
  method EncryptBody(a: array<Byte>, at: nat, size: nat, key: bv32) returns (rc: int, byCheckSum: Byte)
    requires at + size <= a.Length && HasBody(a[at..at + size])
    modifies a
    ensures rc == 0
    ensures var p := old(a[at..at + size]);
            && at + HEADER_SIZE + |Body(p)| <= a.Length
            && a[..] == Splice(old(a[..]), at + HEADER_SIZE, Crypt(Body(p), key))
            && byCheckSum == BodySum(Body(p))
  {
    hide Crypt, Checksum, Splice, BodyLength;
    SliceHeader(a[..], at, size);
    assert a[at..at + size] == a[..][at..at + size];
    var pSize := BodyLength(a[at], a[at + 1]);
    SliceOfSlice(a[..], at, at + size, HEADER_SIZE, HEADER_SIZE + pSize);
    assert a[at + HEADER_SIZE..at + HEADER_SIZE + pSize] == Body(a[at..at + size]);
    var dSize;
    dSize, byCheckSum := Encrypt(a, at + HEADER_SIZE, pSize, key);
    rc := if pSize != dSize then 1 else 0;
  }

  method DecryptBody(a: array<Byte>, at: nat, size: nat, key: bv32) returns (rc: int, byCheckSum: Byte)
    requires at + size <= a.Length && HasBody(a[at..at + size])
    modifies a
    ensures rc == 0
    ensures var p := old(a[at..at + size]);
            && at + HEADER_SIZE + |Body(p)| <= a.Length
            && a[..] == Splice(old(a[..]), at + HEADER_SIZE, Crypt(Body(p), key))
            && byCheckSum == BodySum(Crypt(Body(p), key))
  {
    hide Crypt, Checksum, Splice, BodyLength;
    SliceHeader(a[..], at, size);
    assert a[at..at + size] == a[..][at..at + size];
    var pSize := BodyLength(a[at], a[at + 1]);
    SliceOfSlice(a[..], at, at + size, HEADER_SIZE, HEADER_SIZE + pSize);
    assert a[at + HEADER_SIZE..at + HEADER_SIZE + pSize] == Body(a[at..at + size]);
    var dSize;
    dSize, byCheckSum := Decrypt(a, at + HEADER_SIZE, pSize, key);
    rc := if pSize != dSize then 1 else 0;
  }

  /** The checksum of a whole body. */
  function BodySum(body: seq<Byte>): Byte
  {
    Checksum(body, |body| / 4 + |body| % 4)
  }

  lemma SliceHeader(s: seq<Byte>, at: nat, size: nat)
    requires at + size <= |s| && HEADER_SIZE <= size
    ensures s[at..at + size][0] == s[at] && s[at..at + size][1] == s[at + 1]
  {
  }

  /** Seal in two writes: the body, then the header. */
  lemma SealParts(k: Keys, s: seq<Byte>, at: nat, p: seq<Byte>)
    requires WfKeys(k) && HasBody(p) && at + |p| <= |s| && p == s[at..at + |p|]
    ensures at + HEADER_SIZE + |Body(p)| <= |s| && s[at + 1] == p[1]
    ensures var t := Splice(s, at + HEADER_SIZE, Crypt(Body(p), Output(k.body)));
            && t[at] == p[0] && t[at + 1] == p[1]
            && SpliceHeader(t, at, SealHeader(k.header, p[0], p[1])) == Splice(s, at, Seal(k, p))
  {
    hide SealHeader, Output, Crypt, BodyLength, Wf;
    var t := Splice(s, at + HEADER_SIZE, Crypt(Body(p), Output(k.body)));
    var u, v := SpliceHeader(t, at, SealHeader(k.header, p[0], p[1])), Splice(s, at, Seal(k, p));
    hide PacketSize;
    forall i | 0 <= i < |s|
      ensures u[i] == v[i]
    {
      if at <= i < at + |p| {
        assert v[i] == Seal(k, p)[i - at];
        assert s[i] == p[i - at];
      }
    }
  }

  lemma OpenedParts(k: Keys, s: seq<Byte>, at: nat, c: seq<Byte>)
    requires WfKeys(k) && HEADER_SIZE <= |c| && at + |c| <= |s| && c == s[at..at + |c|]
    ensures c[0] == s[at] && c[1] == s[at + 1]
    ensures SpliceHeader(s, at, OpenHeader(k.header, c[0], c[1])) == Splice(s, at, Opened(k, c))
  {
    hide OpenHeader;
    var u, v := SpliceHeader(s, at, OpenHeader(k.header, c[0], c[1])), Splice(s, at, Opened(k, c));
    forall i | 0 <= i < |s|
      ensures u[i] == v[i]
    {
      if at <= i < at + |c| {
        assert s[i] == c[i - at];
      }
    }
  }

  lemma OpenParts(k: Keys, s: seq<Byte>, at: nat, c: seq<Byte>)
    requires WfKeys(k) && HEADER_SIZE <= |c| && at + |c| <= |s| && HasBody(Opened(k, c))
    ensures var o := Opened(k, c);
            && |o| == |c|
            && at + PacketSize(o) <= |s|
            && |Open(k, c)| == |c| && HasBody(Open(k, c)) && Body(Open(k, c)) == Crypt(Body(o), Output(k.body))
            && Splice(Splice(s, at, o), at + HEADER_SIZE, Crypt(Body(o), Output(k.body))) == Splice(s, at, Open(k, c))
  {
    hide OpenHeader, Output, Crypt, BodyLength;
    var o, q := Opened(k, c), Open(k, c);
    assert q[0] == o[0] && q[1] == o[1];
    assert PacketSize(q) == PacketSize(o);
    SpliceInside(s, at, o, HEADER_SIZE, Crypt(Body(o), Output(k.body)));
    assert q == Splice(o, HEADER_SIZE, Crypt(Body(o), Output(k.body)));
  }

  lemma SpliceInside(s: seq<Byte>, at: nat, o: seq<Byte>, k: nat, b: seq<Byte>)
    requires at + |o| <= |s| && k + |b| <= |o|
    ensures Splice(Splice(s, at, o), at + k, b) == Splice(s, at, Splice(o, k, b))
  {
  }

  function HeaderUsed(g: Gen, used: bool): Gen
    requires Wf(g)
  {
    if used then Advance(g) else g
  }

  function SpliceHeader(s: seq<Byte>, at: nat, h: (Byte, Byte)): seq<Byte>
    requires at + HEADER_SIZE <= |s|
  {
    Splice(s, at, [h.0, h.1])
  }

  lemma SpliceSame(s: seq<Byte>, at: nat)
    requires at + HEADER_SIZE <= |s|
    ensures SpliceHeader(s, at, (s[at], s[at + 1])) == s
  {
  }

  lemma CryptHeader(h: seq<Byte>, key: bv32)
    requires |h| == HEADER_SIZE
    ensures Crypt(h, key) == [XorByte(h[0], ByteOf(key, 0)), XorByte(h[1], ByteOf(key, 0))]
  {
    hide XorByte, ByteOf;
  }

  /** Encrypt on the two header bytes, then bEncrypt = true. */
  method MarkHeader(a: array<Byte>, at: nat, key: bv32)
    requires at + HEADER_SIZE <= a.Length
    modifies a
    ensures a[..] == SpliceHeader(old(a[..]), at,
                                  old((XorByte(a[at], ByteOf(key, 0)),
                                       SetEncrypted(XorByte(a[at + 1], ByteOf(key, 0))))))
  {
    hide SetEncrypted, XorByte, ByteOf, Crypt;
    ghost var a0 := a[..];
    CryptHeader(a[at..at + HEADER_SIZE], key);
    var length, sum := Encrypt(a, at, HEADER_SIZE, key);
    ghost var a1 := a[..];
    assert a1[at..at + HEADER_SIZE] == [XorByte(a0[at], ByteOf(key, 0)), XorByte(a0[at + 1], ByteOf(key, 0))];
    assert a1[at] == a1[at..at + HEADER_SIZE][0] && a1[at + 1] == a1[at..at + HEADER_SIZE][1];
    a[at + 1] := SetEncrypted(a[at + 1]);
  }

  /** Decrypt on the two header bytes, then bEncrypt = false. */
  method UnmarkHeader(a: array<Byte>, at: nat, key: bv32)
    requires at + HEADER_SIZE <= a.Length
    modifies a
    ensures a[..] == SpliceHeader(old(a[..]), at,
                                  old((XorByte(a[at], ByteOf(key, 0)),
                                       ClearEncrypted(XorByte(a[at + 1], ByteOf(key, 0))))))
  {
    hide ClearEncrypted, XorByte, ByteOf, Crypt;
    ghost var a0 := a[..];
    CryptHeader(a[at..at + HEADER_SIZE], key);
    var length, sum := Decrypt(a, at, HEADER_SIZE, key);
    ghost var a1 := a[..];
    assert a1[at..at + HEADER_SIZE] == [XorByte(a0[at], ByteOf(key, 0)), XorByte(a0[at + 1], ByteOf(key, 0))];
    assert a1[at] == a1[at..at + HEADER_SIZE][0] && a1[at + 1] == a1[at..at + HEADER_SIZE][1];
    a[at + 1] := ClearEncrypted(a[at + 1]);
  }
}
