/** Packets that lie in a ring with a tail, each readable as one contiguous block. */
module Views {
  import opened Memory
  import opened CircularQueue

  /** The packets start at `pos`, one after the other around the ring; each of them can be read
      without a break from its start, through the tail where it runs past the end. */
  predicate FramesAt(buf: seq<Byte>, q: nat, pos: nat, frames: seq<seq<Byte>>)
    requires pos < q <= |buf|
    decreases |frames|
  {
    frames == [] || (
      var n := |frames[0]|;
      && n <= q && pos + n <= |buf|
      && buf[pos..pos + n] == frames[0]
      && FramesAt(buf, q, Wrap(q, pos, n), frames[1..]))
  }

  /** Two buffers that agree on the `n` ring positions from `pos`, and on the tail if those
      positions go round, hold the same packets there. */
  lemma {:induction false} FramesKept(buf: seq<Byte>, buf': seq<Byte>, q: nat, pos: nat, frames: seq<seq<Byte>>, n: nat)
    requires pos < q <= |buf| == |buf'| && FramesAt(buf, q, pos, frames)
    requires |Flatten(frames)| <= n < q
    requires forall i {:trigger buf[i]} :: pos <= i < q && i < pos + n ==> buf'[i] == buf[i]
    requires forall i {:trigger buf[i]} :: 0 <= i < pos + n - q ==> buf'[i] == buf[i]
    requires q < pos + n ==> buf'[q..] == buf[q..]
    ensures FramesAt(buf', q, pos, frames)
    decreases |frames|
  {
    if frames != [] {
      var k := |frames[0]|;
      forall i | pos <= i < pos + k
        ensures buf'[i] == buf[i]
      {
        if q <= i {
          assert buf'[i] == buf'[q..][i - q] && buf[i] == buf[q..][i - q];
        }
      }
      assert buf'[pos..pos + k] == buf[pos..pos + k];
      FramesKept(buf, buf', q, Wrap(q, pos, k), frames[1..], n - k);
    }
  }

  /** A packet that can be read where the last one ends joins the list. */
  lemma {:induction false} FramesSnoc(buf: seq<Byte>, q: nat, pos: nat, frames: seq<seq<Byte>>, f: seq<Byte>)
    requires pos < q <= |buf| && FramesAt(buf, q, pos, frames)
    requires |Flatten(frames)| + |f| < q
    requires var w := Wrap(q, pos, |Flatten(frames)|); w + |f| <= |buf| && buf[w..w + |f|] == f
    ensures FramesAt(buf, q, pos, frames + [f])
    decreases |frames|
  {
    if frames == [] {
      assert frames + [f] == [f];
    } else {
      assert (frames + [f])[1..] == frames[1..] + [f] && (frames + [f])[0] == frames[0];
      FramesSnoc(buf, q, Wrap(q, pos, |frames[0]|), frames[1..], f);
    }
  }

  /** Nothing written at or after the push position, within the free space, is seen by the
      packets before it, even where the write runs into the tail. */
  lemma WriteAfterPush(buf: seq<Byte>, buf': seq<Byte>, q: nat, pop: nat, held: seq<Byte>, frames: seq<seq<Byte>>,
                       lo: nat, hi: nat)
    requires pop < q <= |buf| == |buf'| && |held| < q
    requires HoldsAt(buf, q, pop, held) && FramesAt(buf, q, pop, frames) && |Flatten(frames)| <= |held|
    requires Wrap(q, pop, |held|) <= lo <= hi < Wrap(q, pop, |held|) + q - |held|
    requires forall i {:trigger buf[i]} :: 0 <= i < |buf| && !(lo <= i < hi) ==> buf'[i] == buf[i]
    ensures HoldsAt(buf', q, pop, held) && FramesAt(buf', q, pop, frames)
  {
    forall i | 0 <= i < |held|
      ensures buf'[Wrap(q, pop, i)] == held[i]
    {
      assert buf[Wrap(q, pop, i)] == held[i];
    }
    assert q < pop + |held| ==> buf'[q..] == buf[q..];
    FramesKept(buf, buf', q, pop, frames, |held|);
  }

  /** Nothing written into the tail is seen by packets that end inside the ring. */
  lemma WriteTail(buf: seq<Byte>, buf': seq<Byte>, q: nat, pop: nat, held: seq<Byte>, frames: seq<seq<Byte>>)
    requires pop < q <= |buf| == |buf'| && |held| < q
    requires HoldsAt(buf, q, pop, held) && FramesAt(buf, q, pop, frames)
    requires pop + |Flatten(frames)| < q
    requires buf'[..q] == buf[..q]
    ensures HoldsAt(buf', q, pop, held) && FramesAt(buf', q, pop, frames)
  {
    forall i {:trigger buf[i]} | 0 <= i < q
      ensures buf'[i] == buf[i]
    {
      assert buf'[i] == buf'[..q][i] && buf[i] == buf[..q][i];
    }
    forall i | 0 <= i < |held|
      ensures buf'[Wrap(q, pop, i)] == held[i]
    {
      assert buf[Wrap(q, pop, i)] == held[i];
    }
    FramesKept(buf, buf', q, pop, frames, |Flatten(frames)|);
  }
}
