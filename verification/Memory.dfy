/** Bytes, byte sequences and the C library's memory copy, shared by every model. */
module Memory {

  type Byte = bv8

  function XorByte(a: Byte, b: Byte): Byte { a ^ b }

  /** The concatenation of a list of byte strings, in order. */
  function Flatten(chunks: seq<seq<Byte>>): seq<Byte>
  {
    if chunks == [] then [] else chunks[0] + Flatten(chunks[1..])
  }

  function Zeros(n: nat): (r: seq<Byte>)
    ensures |r| == n
  {
    seq(n, _ => 0)
  }

  lemma ConcatAssociative<T>(a: seq<T>, b: seq<T>, c: seq<T>)
    ensures a + (b + c) == a + b + c
  {
  }

  lemma SliceOfSlice<T>(s: seq<T>, a: nat, b: nat, k: nat, m: nat)
    requires a <= b <= |s| && k <= m <= b - a
    ensures s[a..b][k..m] == s[a + k..a + m]
  {
    forall i | 0 <= i < m - k
      ensures s[a..b][k..m][i] == s[a + k..a + m][i]
    {
      assert s[a..b][k + i] == s[a + k + i];
    }
  }

  lemma FlattenCons(x: seq<Byte>, a: seq<seq<Byte>>)
    ensures Flatten([x] + a) == x + Flatten(a)
  {
    assert ([x] + a)[1..] == a;
  }

  lemma FlattenHead(a: seq<seq<Byte>>)
    requires a != []
    ensures Flatten(a) == a[0] + Flatten(a[1..])
  {
  }

  lemma {:induction false} FlattenConcat(a: seq<seq<Byte>>, b: seq<seq<Byte>>)
    ensures Flatten(a + b) == Flatten(a) + Flatten(b)
  {
    if a == [] {
      assert a + b == b;
    } else {
      assert (a + b)[1..] == a[1..] + b;
      FlattenConcat(a[1..], b);
    }
  }

  lemma FlattenSnoc(a: seq<seq<Byte>>, x: seq<Byte>)
    ensures Flatten(a + [x]) == Flatten(a) + x
  {
    FlattenConcat(a, [x]);
    assert Flatten([x]) == x + Flatten([]);
  }

  /** `s` with the bytes from `at` on replaced by `bytes`. */
  function Splice(s: seq<Byte>, at: nat, bytes: seq<Byte>): (r: seq<Byte>)
    requires at + |bytes| <= |s|
    ensures |r| == |s|
    ensures forall i {:trigger r[i]} :: 0 <= i < |s| && !(at <= i < at + |bytes|) ==> r[i] == s[i]
    ensures r[at..at + |bytes|] == bytes
  {
    s[..at] + bytes + s[at + |bytes|..]
  }

  lemma SpliceNothing(s: seq<Byte>, at: nat)
    requires at <= |s|
    ensures Splice(s, at, []) == s
  {
  }

  lemma SpliceTwice(s: seq<Byte>, at: nat, a: seq<Byte>, b: seq<Byte>)
    requires at + |a| + |b| <= |s|
    ensures Splice(Splice(s, at, a), at + |a|, b) == Splice(s, at, a + b)
  {
  }

  /** memcpy: copies `n` bytes between two ranges that do not overlap. */
  method CopyMemory(dst: array<Byte>, d: nat, src: array<Byte>, s: nat, n: nat)
    requires d + n <= dst.Length && s + n <= src.Length
    requires dst == src ==> d + n <= s || s + n <= d
    modifies dst
    ensures dst[..] == Splice(old(dst[..]), d, old(src[..])[s..s + n])
  {
    for i := 0 to n
      invariant dst[..d] == old(dst[..d])
      invariant forall k :: d <= k < d + i ==> dst[k] == old(src[s + k - d])
      invariant dst[d + i..] == old(dst[d + i..])
      invariant forall k :: s <= k < s + n ==> src[k] == old(src[k])
    {
      assert dst[d + i] == dst[d + i..][0];
      dst[d + i] := src[s + i];
    }
    assert dst[d..d + n] == old(src[s..s + n]);
    assert dst[..] == dst[..d] + dst[d..d + n] + dst[d + n..];
  }
}
