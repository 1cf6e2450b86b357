/** BaseLib/CircularQueue.h, instantiated with BYTE as NetBuffer does.
    The ring has queueSize positions followed by an extraSize tail, so that a block that
    starts inside the ring can stay contiguous past its end. */
module CircularQueue {
  import opened Memory

  /** The ring position `n` steps after `pos`, for a ring of `q` positions. */
  function Wrap(q: nat, pos: nat, n: nat): (r: nat)
    requires pos < q && n <= q
    ensures r < q
  {
    if pos + n < q then pos + n else pos + n - q
  }

  /** The arithmetic of GetCurSize and GetWorkRemainSize: the distance from one cursor to
      another, with one correction by the ring size. */
  function Distance(q: int, from: int, to: int): int
  {
    if to - from < 0 then to - from + q else to - from
  }

  /** GetPushAvailableSize: what may be written at the push position without running past the
      tail or filling the ring completely. */
  function Available(q: int, e: int, push: int, cur: int): (r: int)
    requires 0 <= push < q && 0 <= cur < q && 0 <= e
    ensures 0 <= r < q - cur
    ensures push + r <= q + e
    ensures r == q - cur - 1 || push + r == q + e
  {
    var free, linear := q - cur, q + e - push;
    if linear < free then linear else free - 1
  }

  /** The buffer after the push cursor has moved to `end`: what ran into the tail is repeated at
      the start of the ring. */
  function Pushed(buf: seq<Byte>, q: nat, end: nat): (r: seq<Byte>)
    requires q <= |buf| && end <= |buf| && end <= 2 * q
    ensures |r| == |buf|
    ensures forall i {:trigger r[i]} :: 0 <= i < |buf| ==> r[i] == if i < end - q then buf[q + i] else buf[i]
  {
    if end < q then buf else Splice(buf, 0, buf[q..end])
  }

  /** The bytes of the ring from `pos`, followed around its end. */
  predicate HoldsAt(buf: seq<Byte>, q: nat, pos: nat, bytes: seq<Byte>)
    requires pos < q <= |buf| && |bytes| <= q
  {
    forall i {:trigger bytes[i]} :: 0 <= i < |bytes| ==> buf[Wrap(q, pos, i)] == bytes[i]
  }

  lemma PushedCases(buf: seq<Byte>, q: nat, end: nat)
    requires q <= |buf| && end <= |buf| && end <= 2 * q
    ensures end < q ==> Pushed(buf, q, end) == buf
    ensures q <= end ==> Pushed(buf, q, end) == Splice(buf, 0, buf[q..end])
  {
  }

  /** Appending the block that stands at the push cursor: unless it reaches the end of the ring
      nothing moves, otherwise its overhang is copied from the tail to the start. */
  lemma PushHolds(buf: seq<Byte>, buf': seq<Byte>, q: nat, pop: nat, held: seq<Byte>, push: nat, block: seq<Byte>)
    requires pop < q <= |buf| == |buf'| && |held| + |block| < q
    requires HoldsAt(buf, q, pop, held) && push == Wrap(q, pop, |held|)
    requires push + |block| <= |buf| && block == buf[push..push + |block|]
    requires push + |block| <= 2 * q && buf' == Pushed(buf, q, push + |block|)
    ensures HoldsAt(buf', q, pop, held + block)
  {
    hide Pushed;
    forall i | 0 <= i < |held + block|
      ensures buf'[Wrap(q, pop, i)] == (held + block)[i]
    {
      if i < |held| {
        assert buf[Wrap(q, pop, i)] == held[i];
      } else {
        assert block[i - |held|] == buf[push + i - |held|];
      }
    }
  }

  /** Held bytes that do not reach the end of the ring stand in one piece. */
  lemma FrontBytes(buf: seq<Byte>, q: nat, pos: nat, held: seq<Byte>, n: nat)
    requires pos < q <= |buf| && |held| <= q && HoldsAt(buf, q, pos, held) && n <= |held| && pos + n <= q
    ensures buf[pos..pos + n] == held[..n]
  {
    forall i | 0 <= i < n
      ensures buf[pos..pos + n][i] == held[..n][i]
    {
      assert buf[Wrap(q, pos, i)] == held[i];
    }
  }

  lemma DropHolds(buf: seq<Byte>, q: nat, pop: nat, held: seq<Byte>, n: nat)
    requires pop < q <= |buf| && n <= |held| < q && HoldsAt(buf, q, pop, held)
    ensures HoldsAt(buf, q, Wrap(q, pop, n), held[n..])
  {
    forall i | 0 <= i < |held| - n
      ensures buf[Wrap(q, Wrap(q, pop, n), i)] == held[n..][i]
    {
      assert held[n..][i] == held[n + i];
    }
  }

  class CircularQueue {
    const queueSize: nat
    const extraSize: nat
    var pushPos: nat
    var popPos: nat
    var workPos: nat
    const queueBuffer: array<Byte>
    var loopCount: nat

    /** The bytes between the pop and the push position, oldest first. */
    ghost var pending: seq<Byte>

    ghost predicate Valid()
      reads this, queueBuffer
    {
      && 0 < extraSize <= queueSize
      && queueBuffer.Length == queueSize + extraSize
      && |pending| < queueSize
      && popPos < queueSize && workPos < queueSize
      && pushPos == Wrap(queueSize, popPos, |pending|)
      && HoldsAt(queueBuffer[..], queueSize, popPos, pending)
    }

    /** Create and Clear: an empty queue over a zeroed buffer. */
    constructor (queueSize: nat, extraSize: nat)
      requires 0 < extraSize <= queueSize
      ensures Valid() && fresh(queueBuffer)
      ensures this.queueSize == queueSize && this.extraSize == extraSize
      ensures pending == []
      ensures pushPos == popPos == workPos == 0
    {
      this.queueSize, this.extraSize := queueSize, extraSize;
      queueBuffer := new Byte[queueSize + extraSize](_ => 0);
      pushPos, popPos, workPos, loopCount := 0, 0, 0, 0;
      pending := [];
    }

    function GetCurSize(): (n: int)
      requires Valid()
      reads this, queueBuffer
      ensures n == |pending|
    {
      Distance(queueSize, popPos, pushPos)
    }

    /** The work position stands `worked` bytes after the pop position. The sending side never
        moves its work cursor, so this is not part of Valid. */
    ghost predicate WorkAt(worked: nat)
      requires Valid()
      reads this, queueBuffer
    {
      worked <= |pending| && workPos == Wrap(queueSize, popPos, worked)
    }

    function GetWorkRemainSize(): int
      requires Valid()
      reads this, queueBuffer
    {
      Distance(queueSize, workPos, pushPos)
    }

    function GetFreeSize(): (n: int)
      requires Valid()
      reads this, queueBuffer
      ensures n == queueSize - |pending|
    {
      queueSize - GetCurSize()
    }

    function GetPushAvailableSize(): (n: int)
      requires Valid()
      reads this, queueBuffer
      ensures n == Available(queueSize, extraSize, pushPos, |pending|)
    {
      var nFreeSize := GetFreeSize();
      var nLinearFreeSize := queueSize + extraSize - pushPos;
      if nLinearFreeSize < nFreeSize then nLinearFreeSize else nFreeSize - 1
    }

    /** Accepts `Size` bytes that were written at the push position. What ran into the tail is
        copied to the start of the ring; nothing else in the buffer moves. */
    method IncreasePushPos(Size: nat) returns (ok: bool)
      requires Valid()
      requires Size < GetFreeSize() ==> pushPos + Size <= queueSize + extraSize
      modifies this`pushPos, this`loopCount, this`pending, queueBuffer
      ensures Valid()
      ensures ok <==> Size < queueSize - |old(pending)|
      ensures !ok ==> pushPos == old(pushPos) && pending == old(pending) && queueBuffer[..] == old(queueBuffer[..])
      ensures ok ==> old(pushPos) + Size <= queueBuffer.Length <= 2 * queueSize
                     && pending == old(pending) + old(queueBuffer[..])[old(pushPos)..old(pushPos) + Size]
                     && queueBuffer[..] == Pushed(old(queueBuffer[..]), queueSize, old(pushPos) + Size)
                     && pushPos == Wrap(queueSize, old(pushPos), Size)
    {
      hide HoldsAt, Splice, Pushed;
      if GetFreeSize() <= Size {
        return false;
      }
      ghost var buf := queueBuffer[..];
      ghost var block := buf[pushPos..pushPos + Size];
      PushedCases(buf, queueSize, pushPos + Size);
      PushHolds(buf, Pushed(buf, queueSize, pushPos + Size), queueSize, popPos, pending, pushPos, block);
      pushPos := pushPos + Size;
      if pushPos >= queueSize {
        pushPos := pushPos - queueSize;
        CopyMemory(queueBuffer, 0, queueBuffer, queueSize, pushPos);
        loopCount := loopCount + 1;
      }
      pending := pending + block;
      return true;
    }

    /** Releases `Size` bytes. The code itself checks nothing. */
    method IncreasePopPos(Size: nat)
      requires Valid()
      requires Size <= |pending|
      modifies this`popPos, this`pending
      ensures Valid()
      ensures pending == old(pending)[Size..]
      ensures popPos == Wrap(queueSize, old(popPos), Size)
    {
      popPos := popPos + Size;
      if popPos >= queueSize {
        popPos := popPos - queueSize;
      }
      DropHolds(queueBuffer[..], queueSize, old(popPos), pending, Size);
      pending := pending[Size..];
    }

    /** Moves the work cursor over `Size` more bytes. */
    method IncreaseWorkPos(Size: nat, ghost worked: nat)
      requires Valid() && WorkAt(worked)
      requires worked + Size <= |pending|
      modifies this`workPos
      ensures Valid() && WorkAt(worked + Size)
    {
      workPos := workPos + Size;
      if workPos >= queueSize {
        workPos := workPos - queueSize;
      }
    }
  }
}
