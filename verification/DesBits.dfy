/** Byte strings as the bit strings of FIPS 46-3. */
module DesBits {
  import opened ByteBits
  import opened Memory
  import opened DesStandard

  function BitsOf(s: seq<Byte>): (r: Bits)
    ensures |r| == 8 * |s|
  {
    seq(8 * |s|, i requires 0 <= i < 8 * |s| => Bit(s[i / 8], i % 8))
  }

  /** Bytes are determined by their bits. */
  lemma SameBits(s: seq<Byte>, t: seq<Byte>)
    requires BitsOf(s) == BitsOf(t)
    ensures s == t
  {
    forall i | 0 <= i < |s|
      ensures s[i] == t[i]
    {
      forall m | 0 <= m < 8
        ensures Bit(s[i], m) == Bit(t[i], m)
      {
        assert BitsOf(s)[8 * i + m] == BitsOf(t)[8 * i + m];
      }
      SameByte(s[i], t[i]);
    }
  }

  lemma BitsOfSlice(s: seq<Byte>, i: nat, j: nat)
    requires i <= j <= |s|
    ensures BitsOf(s[i..j]) == BitsOf(s)[8 * i..8 * j]
  {
    hide Bit;
    forall k | 0 <= k < 8 * (j - i)
      ensures BitsOf(s[i..j])[k] == BitsOf(s)[8 * i..8 * j][k]
    {
      assert (8 * i + k) / 8 == i + k / 8 && (8 * i + k) % 8 == k % 8;
    }
  }

  lemma BitsOfConcat(s: seq<Byte>, t: seq<Byte>)
    ensures BitsOf(s + t) == BitsOf(s) + BitsOf(t)
  {
    hide Bit;
    forall k | 0 <= k < 8 * |s + t|
      ensures BitsOf(s + t)[k] == (BitsOf(s) + BitsOf(t))[k]
    {
      if k >= 8 * |s| {
        assert k / 8 == |s| + (k - 8 * |s|) / 8 && k % 8 == (k - 8 * |s|) % 8;
      }
    }
  }

  lemma BitsOfXor(s: seq<Byte>, t: seq<Byte>, u: seq<Byte>)
    requires |s| == |t| == |u|
    requires forall i :: 0 <= i < |s| ==> u[i] == XorByte(s[i], t[i])
    ensures BitsOf(u) == Xor(BitsOf(s), BitsOf(t))
  {
    hide Bit, XorByte;
    forall k | 0 <= k < 8 * |s|
      ensures BitsOf(u)[k] == Xor(BitsOf(s), BitsOf(t))[k]
    {
      XorBit(s[k / 8], t[k / 8], k % 8);
    }
  }
}
