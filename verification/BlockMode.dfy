/** Buffers that a block cipher works through block by block, each block on its own. A cipher is known by the
    relation between a block and its image. */
module BlockMode {
  import opened Memory

  type Relation = (seq<Byte>, seq<Byte>) -> bool

  /** The blocks of `size` bytes that make up the first `n` bytes of `t` are the images of those of `s`. */
  predicate Images(rel: Relation, size: nat, s: seq<Byte>, t: seq<Byte>, n: nat)
    requires size > 0 && n <= |s| && |t| == |s|
  {
    n == 0 || (size <= n && rel(s[n - size..n], t[n - size..n]) && Images(rel, size, s, t, n - size))
  }

  /** `t` is `s` with its first `n` bytes processed block by block and the rest as it was. */
  predicate Processed(rel: Relation, size: nat, s: seq<Byte>, t: seq<Byte>, n: nat)
    requires size > 0 && n <= |s|
  {
    |t| == |s| && Images(rel, size, s, t, n) && t[n..] == s[n..]
  }

  predicate Undoes(rel: Relation, back: Relation, size: nat, x: seq<Byte>, y: seq<Byte>, z: seq<Byte>)
  {
    |x| == |y| == |z| == size && rel(x, y) && back(y, z) ==> z == x
  }

  lemma NoBlocks(rel: Relation, size: nat, s: seq<Byte>)
    requires size > 0
    ensures Processed(rel, size, s, s, 0)
  {
  }

  /** Images depend on the bytes they cover only. */
  lemma {:induction false} ImagesKept(rel: Relation, size: nat, s: seq<Byte>, t: seq<Byte>, s': seq<Byte>,
                                      t': seq<Byte>, n: nat)
    requires size > 0 && n <= |s| && |t| == |s| && n <= |s'| && |t'| == |s'|
    requires s[..n] == s'[..n] && t[..n] == t'[..n] && Images(rel, size, s, t, n)
    ensures Images(rel, size, s', t', n)
  {
    if n > 0 {
      assert s[n - size..n] == s[..n][n - size..n] && s'[n - size..n] == s'[..n][n - size..n];
      assert t[n - size..n] == t[..n][n - size..n] && t'[n - size..n] == t'[..n][n - size..n];
      assert s[..n - size] == s[..n][..n - size] && s'[..n - size] == s'[..n][..n - size];
      assert t[..n - size] == t[..n][..n - size] && t'[..n - size] == t'[..n][..n - size];
      ImagesKept(rel, size, s, t, s', t', n - size);
    }
  }

  /** One more block. */
  lemma BlockDone(rel: Relation, size: nat, s: seq<Byte>, t: seq<Byte>, n: nat, y: seq<Byte>)
    requires size > 0 && n + size <= |s| && Processed(rel, size, s, t, n)
    requires |y| == size && rel(t[n..n + size], y)
    ensures Processed(rel, size, s, Splice(t, n, y), n + size)
  {
    hide Images;
    var u := Splice(t, n, y);
    assert t[n..n + size] == t[n..][..size] == s[n..][..size] == s[n..n + size];
    assert u[..n] == t[..n];
    ImagesKept(rel, size, s, t, s, u, n);
    ImagesNext(rel, size, s, u, n);
    assert u[n + size..] == t[n + size..] == t[n..][size..] == s[n..][size..] == s[n + size..];
  }

  lemma ImagesNext(rel: Relation, size: nat, s: seq<Byte>, t: seq<Byte>, n: nat)
    requires size > 0 && n + size <= |s| && |t| == |s| && Images(rel, size, s, t, n)
    requires rel(s[n..n + size], t[n..n + size])
    ensures Images(rel, size, s, t, n + size)
  {
    assert n + size - size == n;
  }

  /** One more block stored in a second buffer. */
  lemma ImageStored(rel: Relation, size: nat, s: seq<Byte>, t: seq<Byte>, n: nat, y: seq<Byte>)
    requires size > 0 && n + size <= |s| && |t| == |s| && Images(rel, size, s, t, n)
    requires |y| == size && rel(s[n..n + size], y)
    ensures Images(rel, size, s, Splice(t, n, y), n + size)
  {
    hide Images;
    var u := Splice(t, n, y);
    assert u[..n] == t[..n];
    ImagesKept(rel, size, s, t, s, u, n);
    ImagesNext(rel, size, s, u, n);
  }

  /** If a relation undoes another on every block, it undoes it on every buffer. */
  lemma {:induction false} ProcessedBack(rel: Relation, back: Relation, size: nat, s: seq<Byte>, t: seq<Byte>,
                                         u: seq<Byte>, n: nat)
    requires size > 0 && n <= |s| && |t| == |s| && |u| == |s|
    requires forall x, y, z :: Undoes(rel, back, size, x, y, z)
    requires Images(rel, size, s, t, n) && Images(back, size, t, u, n)
    ensures u[..n] == s[..n]
  {
    if n > 0 {
      ProcessedBack(rel, back, size, s, t, u, n - size);
      assert Undoes(rel, back, size, s[n - size..n], t[n - size..n], u[n - size..n]);
      assert u[..n] == u[..n - size] + u[n - size..n] && s[..n] == s[..n - size] + s[n - size..n];
    }
  }

  lemma ProcessedUndone(rel: Relation, back: Relation, size: nat, s: seq<Byte>, t: seq<Byte>, u: seq<Byte>, n: nat)
    requires size > 0 && n <= |s|
    requires forall x, y, z :: Undoes(rel, back, size, x, y, z)
    requires Processed(rel, size, s, t, n) && Processed(back, size, t, u, n)
    ensures u == s
  {
    hide Images, Undoes;
    ProcessedBack(rel, back, size, s, t, u, n);
    assert u == u[..n] + u[n..] && s == s[..n] + s[n..];
  }

  /** The processed part of a buffer is all there is of it in a prefix that contains it. */
  lemma ProcessedPrefix(rel: Relation, size: nat, s: seq<Byte>, t: seq<Byte>, n: nat, m: nat)
    requires size > 0 && n <= m <= |s| && Processed(rel, size, s, t, n)
    ensures Processed(rel, size, s[..m], t[..m], n)
    ensures t[m..] == s[m..]
  {
    hide Images;
    assert s[..n] == s[..m][..n] && t[..n] == t[..m][..n];
    ImagesKept(rel, size, s, t, s[..m], t[..m], n);
    assert t[..m][n..] == t[n..][..m - n] && s[..m][n..] == s[n..][..m - n];
    assert t[m..] == t[n..][m - n..] && s[m..] == s[n..][m - n..];
  }

  // ---- padding with zeros ----

  /** `n` bytes of data and zeros behind them in a buffer of `size`. */
  function Padded(data: seq<Byte>, n: nat, size: nat): (r: seq<Byte>)
    requires n <= |data| && n <= size
    ensures |r| == size
  {
    data[..n] + Zeros(size - n)
  }

  /** Processing padded data up to `m` and processing the result back leaves the data and zeros. */
  lemma PaddedRoundTrip(rel: Relation, back: Relation, size: nat, data: seq<Byte>, n: nat, m: nat,
                        enc: seq<Byte>, encSize: nat, dec: seq<Byte>, decSize: nat)
    requires size > 0 && n <= |data| && n <= m && m <= encSize <= |enc| && m <= decSize == |dec|
    requires forall x, y, z :: Undoes(rel, back, size, x, y, z)
    requires Processed(rel, size, Padded(data, n, encSize), enc[..encSize], m)
    requires Processed(back, size, Padded(enc, m, decSize), dec, m)
    ensures dec == Padded(data, n, decSize)
  {
    hide Images, Undoes, Zeros, Padded;
    var plain, sealed := Padded(data, n, decSize), Padded(enc, m, decSize);
    PaddedParts(data, n, m, encSize, decSize);
    PaddedParts(enc, m, m, decSize, decSize);
    PaddedFront(enc, m, decSize);
    assert sealed[..m] == enc[..m] == enc[..encSize][..m];
    ImagesKept(rel, size, Padded(data, n, encSize), enc[..encSize], plain, sealed, m);
    ProcessedBack(rel, back, size, plain, sealed, dec, m);
    assert dec == dec[..m] + dec[m..] && plain == plain[..m] + plain[m..];
  }

  lemma PaddedParts(data: seq<Byte>, n: nat, m: nat, a: nat, b: nat)
    requires n <= |data| && n <= m && m <= a && m <= b
    ensures Padded(data, n, a)[..m] == Padded(data, n, b)[..m]
    ensures Padded(data, n, b)[m..] == Zeros(b - m)
  {
  }

  lemma PaddedFront(data: seq<Byte>, n: nat, size: nat)
    requires n <= |data| && n <= size
    ensures Padded(data, n, size)[..n] == data[..n]
  {
  }

  /** What ZeroMemory on the output and memcpy of the input leave there. A buffer used for both has lost its data. */
  function Filled(same: bool, data: seq<Byte>, n: nat, size: nat): (r: seq<Byte>)
    requires n <= |data| && n <= size
    ensures |r| == size
  {
    if same then Zeros(size) else Padded(data, n, size)
  }

  /** ZeroMemory and memcpy. */
  method FillFrom(dst: array<Byte>, size: nat, src: array<Byte>, n: nat)
    requires n <= size <= dst.Length && n <= src.Length
    modifies dst
    ensures dst[..size] == Filled(dst == src, old(src[..]), n, size)
    ensures dst[size..] == old(dst[size..])
  {
    for i := 0 to size
      invariant forall k :: 0 <= k < i ==> dst[k] == 0
      invariant dst[size..] == old(dst[size..])
      invariant dst != src ==> src[..] == old(src[..])
    {
      dst[i] := 0;
    }
    if dst != src {
      CopyMemory(dst, 0, src, 0, n);
    }
  }
}
