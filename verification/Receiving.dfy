/** The receiving half of Connections with the kernel that fills its buffer and the
    NetworkProcessor that consumes it. Every method is one or more steps of ReceiveProtocol; the
    worker thread's methods let the processor run between any two of their own statements. */
module Receiving {
  import opened Memory
  import opened Framing
  import opened CircularQueue
  import P = ReceiveProtocol

  class Receiver {
    const maxPacketSize: nat
    const recvBuffer: CircularQueue

    /** IsStatus(CONNSTATUS_ACTIVE), and whether Disconnect was called. */
    var active: bool
    var disconnected: bool

    /** The receive handed to the kernel: its length, and how much the kernel has written. */
    var recvPosted: bool
    var wsabufLen: nat
    var delivered: nat

    /** NETEVENT_RECV messages not yet taken, and the packet the processor is attached to. */
    var events: nat
    var attached: bool
    var attachedSize: nat

    var packetRecvCount: nat

    /** Whether the ring was full when the latest receive was posted or refused, and whether RecvEx failed then. */
    ghost var wasFull: bool
    ghost var recvFailed: bool

    /** The history variables of ReceiveProtocol.State. */
    ghost var arriving: seq<Byte>
    ghost var received: seq<Byte>
    ghost var popped: seq<seq<Byte>>
    ghost var frames: seq<seq<Byte>>
    ghost var seen: seq<Byte>

    ghost function Abs(): P.State
      reads this, recvBuffer, recvBuffer.queueBuffer
    {
      P.State(recvBuffer.queueSize, recvBuffer.extraSize, recvBuffer.queueBuffer[..],
              recvBuffer.popPos, recvBuffer.pushPos, recvBuffer.workPos,
              recvPosted, wsabufLen, events, attached, seen,
              recvBuffer.pending, arriving, received, popped, frames)
    }

    ghost predicate Valid()
      reads this, recvBuffer, recvBuffer.queueBuffer
    {
      && P.Inv(Abs())
      && maxPacketSize == recvBuffer.extraSize
      && (recvPosted ==> delivered == |arriving|)
      && (attached ==> attachedSize == |seen|)
      && packetRecvCount == |popped| + |frames|
    }

    lemma BufferValid()
      requires Valid()
      ensures recvBuffer.Valid() && recvBuffer.WorkAt(|Flatten(frames)|)
      ensures recvBuffer.GetWorkRemainSize() == |P.Rest(Abs())| == |recvBuffer.pending| - |Flatten(frames)|
    {
    }

    /** Create: NetBuffer::Create ties the ring size to the packet limit. */
    constructor (maxPacketSize: nat, capacity: nat)
      requires HEADER_SIZE < maxPacketSize && 1 <= capacity
      ensures Valid() && fresh(recvBuffer) && fresh(recvBuffer.queueBuffer)
      ensures this.maxPacketSize == maxPacketSize
      ensures recvBuffer.queueSize == maxPacketSize * capacity && recvBuffer.extraSize == maxPacketSize
      ensures active && !disconnected && !recvPosted && !attached
      ensures received == [] && popped == frames == []
    {
      this.maxPacketSize := maxPacketSize;
      assert maxPacketSize <= maxPacketSize * capacity;
      recvBuffer := new CircularQueue(maxPacketSize * capacity, maxPacketSize);
      active, disconnected, recvPosted, wsabufLen, delivered := true, false, false, 0, 0;
      events, attached, attachedSize, packetRecvCount := 0, false, 0, 0;
      received, arriving, popped, frames, seen := [], [], [], [], [];
      new;
      P.InitialInv(Abs());
    }

    // ---- the kernel ----

    method WriteBytes(at: nat, bytes: seq<Byte>)
      requires at + |bytes| <= recvBuffer.queueBuffer.Length
      modifies recvBuffer.queueBuffer
      ensures recvBuffer.queueBuffer[..] == Splice(old(recvBuffer.queueBuffer[..]), at, bytes)
    {
      hide Splice;
      var src := new Byte[|bytes|](i requires 0 <= i < |bytes| => bytes[i]);
      assert src[..][0..|bytes|] == bytes;
      CopyMemory(recvBuffer.queueBuffer, at, src, 0, |bytes|);
    }

    method Deliver(bytes: seq<Byte>)
      requires Valid() && recvPosted && delivered + |bytes| <= wsabufLen
      modifies this`delivered, this`arriving, recvBuffer.queueBuffer
      ensures Valid() && Abs() == P.Deliver(old(Abs()), bytes)
    {
      hide P.Inv, Splice;
      ghost var s := Abs();
      P.DeliverKeeps(s, bytes);
      P.RoomToDeliver(s);
      WriteBytes(recvBuffer.pushPos + delivered, bytes);
      delivered := delivered + |bytes|;
      arriving := arriving + bytes;
      assert Abs() == P.Deliver(s, bytes);
    }

    // ---- the processor thread ----

    /** One NETEVENT_RECV message is taken and PopPacket attaches to the pop position; the
        length is read from the header there. PopPacket's own check cannot fail. */
    method PopPacket()
      requires Valid() && events > 0 && !attached
      modifies this`events, this`attached, this`attachedSize, this`seen
      ensures Valid() && Abs() == P.Attach(old(Abs()))
    {
      hide P.Inv;
      ghost var s := Abs();
      P.AttachKeeps(s);
      var p := recvBuffer.popPos;
      events := events - 1;
      attached := true;
      attachedSize := PacketSize(recvBuffer.queueBuffer[p..p + HEADER_SIZE]);
      seen := recvBuffer.queueBuffer[p..p + attachedSize];
      assert Abs() == P.Attach(s);
    }

    /** The length read again from the header at the pop position, and the packet there. */
    method FrontPacket() returns (n: nat, packet: seq<Byte>)
      requires P.Inv(Abs()) && recvBuffer.popPos + HEADER_SIZE <= recvBuffer.queueBuffer.Length
      requires recvBuffer.popPos + P.SizeAtPop(Abs()) <= recvBuffer.queueBuffer.Length
      ensures n == P.SizeAtPop(Abs())
      ensures packet == recvBuffer.queueBuffer[..][recvBuffer.popPos..recvBuffer.popPos + n]
    {
      hide P.Inv, PacketSize;
      var p := recvBuffer.popPos;
      assert recvBuffer.queueBuffer[p..p + HEADER_SIZE] == recvBuffer.queueBuffer[..][p..p + HEADER_SIZE];
      n := PacketSize(recvBuffer.queueBuffer[p..p + HEADER_SIZE]);
      packet := recvBuffer.queueBuffer[p..p + n];
    }

    /** After the dispatch the length is read again and the packet is released. */
    method ReleasePacket() returns (packet: seq<Byte>)
      requires Valid() && attached
      modifies this`attached, this`popped, this`frames, recvBuffer`popPos, recvBuffer`pending
      ensures Valid() && Abs() == P.Release(old(Abs()))
      ensures packet == old(seen)
    {
      hide P.Inv, P.Rest, P.SizeAtPop, CircularQueue.Valid, HoldsAt, Flatten;
      ghost var s := Abs();
      P.ReleaseKeeps(s);
      BufferValid();
      var n;
      n, packet := FrontPacket();
      recvBuffer.IncreasePopPos(n);
      attached := false;
      popped := popped + [packet];
      frames := frames[1..];
      assert Abs() == P.Release(s);
    }

    // ---- the worker thread ----

    /** The processor thread runs for as long as it likes, and any thread may close the
        connection. This stands between any two statements of the worker. */
    method Interfere()
      requires Valid()
      modifies this`active, this`events, this`attached, this`attachedSize, this`seen, this`popped, this`frames
      modifies recvBuffer`popPos, recvBuffer`pending
      ensures Valid() && P.Undisturbed(old(Abs()), Abs())
      ensures !old(active) ==> !active
    {
      hide P.Inv;
      ghost var s := Abs();
      if * {
        active := false;
      }
      var turns: nat := *;
      while turns > 0
        invariant Valid() && P.Undisturbed(s, Abs())
        invariant !old(active) ==> !active
      {
        ghost var t := Abs();
        if attached {
          P.ReleaseKeeps(t);
          P.ReleaseUndisturbed(t);
          var packet := ReleasePacket();
        } else if events > 0 {
          P.AttachKeeps(t);
          P.AttachUndisturbed(t);
          PopPacket();
        }
        turns := turns - 1;
      }
    }

    /** CopyMemory from the start of the ring to a place in the tail. */
    method CopyToTail(dst: nat, src: nat, n: nat)
      requires Valid() && !recvPosted
      requires dst == recvBuffer.queueSize + src && src + n <= maxPacketSize && 0 < src + n
      requires P.Contiguous(Abs(), dst - recvBuffer.workPos)
      requires dst - recvBuffer.workPos + n <= |P.Rest(Abs())|
      modifies recvBuffer.queueBuffer
      ensures Valid() && P.Undisturbed(old(Abs()), Abs())
      ensures P.Contiguous(Abs(), dst - recvBuffer.workPos + n)
    {
      hide P.Inv, P.Contiguous, P.Rest, P.Undisturbed, CircularQueue.Valid, HoldsAt, Flatten;
      ghost var s := Abs();
      P.TailRoom(s);
      P.MirrorExtends(s, src, n);
      CopyMemory(recvBuffer.queueBuffer, dst, recvBuffer.queueBuffer, src, n);
      assert Abs() == P.Mirror(s, src, n);
    }

    /** The first copy of MakeSureCompletedPacket makes a wrapped header readable. */
    method MirrorHeader() returns (nLinearSize: nat)
      requires Valid() && !recvPosted && HEADER_SIZE <= |P.Rest(Abs())|
      modifies recvBuffer.queueBuffer
      ensures Valid() && P.Undisturbed(old(Abs()), Abs()) && P.Contiguous(Abs(), HEADER_SIZE)
      ensures nLinearSize == recvBuffer.queueSize - recvBuffer.workPos
    {
      hide P.Inv, P.Contiguous, P.Rest, P.Undisturbed, CircularQueue.Valid, HoldsAt, Flatten;
      P.TailRoom(Abs());
      P.UndisturbedRefl(Abs());
      nLinearSize := recvBuffer.queueSize - recvBuffer.workPos;
      if nLinearSize < HEADER_SIZE {
        P.InsideRing(Abs(), nLinearSize);
        CopyToTail(recvBuffer.queueSize, 0, HEADER_SIZE - nLinearSize);
      } else {
        P.InsideRing(Abs(), HEADER_SIZE);
      }
    }

    /** The last step of MakeSureCompletedPacket: the wrapped part of a packet that is all there
        is copied behind what the header copy has already put into the tail. */
    method MirrorPacket(nLinearSize: nat, nPacketSize: nat)
      requires Valid() && !recvPosted
      requires nLinearSize == recvBuffer.queueSize - recvBuffer.workPos
      requires HEADER_SIZE <= nPacketSize < maxPacketSize && nPacketSize <= |P.Rest(Abs())|
      requires P.Contiguous(Abs(), HEADER_SIZE)
      modifies recvBuffer.queueBuffer
      ensures Valid() && P.Undisturbed(old(Abs()), Abs()) && P.Contiguous(Abs(), nPacketSize)
    {
      hide P.Inv, P.Contiguous, P.Rest, P.Undisturbed, CircularQueue.Valid, HoldsAt, Flatten;
      P.TailRoom(Abs());
      P.UndisturbedRefl(Abs());
      if nLinearSize < nPacketSize {
        if nLinearSize < HEADER_SIZE {
          CopyToTail(recvBuffer.workPos + HEADER_SIZE, HEADER_SIZE - nLinearSize, nPacketSize - HEADER_SIZE);
        } else {
          P.InsideRing(Abs(), nLinearSize);
          CopyToTail(recvBuffer.queueSize, 0, nPacketSize - nLinearSize);
        }
      } else {
        P.InsideRing(Abs(), nPacketSize);
      }
    }

    /** MakeSureCompletedPacket: 0 with the packet's length and the whole packet readable in one
        piece at the work position, 2 or 4 while the header or the body is incomplete, 3 for a
        packet that is too long. */
    method MakeSureCompletedPacket() returns (rc: int, PacketLength: nat)
      requires Valid() && !recvPosted
      modifies this`active, this`events, this`attached, this`attachedSize, this`seen, this`popped, this`frames
      modifies recvBuffer`popPos, recvBuffer`pending, recvBuffer.queueBuffer
      ensures Valid() && P.Undisturbed(old(Abs()), Abs())
      ensures !old(active) ==> !active
      ensures var rest := P.Rest(old(Abs()));
              match Classify(rest, maxPacketSize)
              case Pending => rc == (if |rest| < HEADER_SIZE then 2 else 4)
              case Oversize => rc == 3
              case Ready(n) => rc == 0 && PacketLength == n && P.Contiguous(Abs(), n)
    {
      hide P.Inv, P.Contiguous, P.Rest, P.Undisturbed, CircularQueue.Valid, HoldsAt, Flatten;
      ghost var s0, rest := Abs(), P.Rest(Abs());
      BufferValid();
      P.UndisturbedRefl(s0);
      if recvBuffer.GetWorkRemainSize() < HEADER_SIZE {
        return 2, 0;
      }
      Interfere();
      ghost var s1 := Abs();
      P.UndisturbedFacts(s0, s1);
      var nLinearSize := MirrorHeader();
      ghost var s2 := Abs();
      P.UndisturbedTrans(s0, s1, s2);
      Interfere();
      ghost var s3 := Abs();
      P.UndisturbedTrans(s0, s2, s3);
      P.UndisturbedFacts(s0, s3);
      P.ContiguousKept(s2, s3, HEADER_SIZE);
      P.ReadHeader(s3);
      var work := recvBuffer.workPos;
      var wPacketLen := BodyLength(recvBuffer.queueBuffer[work], recvBuffer.queueBuffer[work + 1]);
      var nPacketSize := HEADER_SIZE + wPacketLen;
      assert nPacketSize == PacketSize(rest);
      if nPacketSize >= maxPacketSize {
        return 3, 0;
      }
      BufferValid();
      if recvBuffer.GetWorkRemainSize() < nPacketSize {
        return 4, 0;
      }
      MirrorPacket(nLinearSize, nPacketSize);
      P.UndisturbedTrans(s0, s3, Abs());
      return 0, nPacketSize;
    }

    /** IncreaseWorkPos, the packet count and the NETEVENT_RECV message. The work position is
        the worker's own, so the processor sees the two as one step. */
    method Announce(nPacketSize: nat)
      requires Valid() && !recvPosted
      requires Classify(P.Rest(Abs()), maxPacketSize) == Ready(nPacketSize) && P.Contiguous(Abs(), nPacketSize)
      modifies this`events, this`frames, this`packetRecvCount, recvBuffer`workPos
      ensures Valid() && !recvPosted
      ensures var s := old(Abs());
              && P.Rest(Abs()) == P.Rest(s)[nPacketSize..] && received == s.received
              && popped + frames == s.popped + s.frames + [P.Rest(s)[..nPacketSize]]
    {
      hide P.Inv, P.Contiguous, P.Rest, CircularQueue.Valid, HoldsAt;
      ghost var s := Abs();
      BufferValid();
      P.AnnounceStream(s, nPacketSize);
      ghost var w := recvBuffer.workPos;
      P.ReadyIsShort(s, nPacketSize);
      recvBuffer.IncreaseWorkPos(nPacketSize, |Flatten(frames)|);
      frames := frames + [recvBuffer.queueBuffer[w..w + nPacketSize]];
      packetRecvCount := packetRecvCount + 1;
      events := events + 1;
      assert Abs() == P.Announce(s, nPacketSize);
    }

    /** The first step of CompleteRecv: IncreasePushPos accepts the bytes the kernel has written.
        It cannot fail: the space was there when the receive was posted and only grows. */
    method AcceptBytes() returns (ok: bool)
      requires Valid() && recvPosted
      modifies this`recvPosted, this`arriving, this`received
      modifies recvBuffer`pushPos, recvBuffer`loopCount, recvBuffer`pending, recvBuffer.queueBuffer
      ensures Valid() && Abs() == P.Complete(old(Abs())) && ok
    {
      hide P.Inv, P.Rest, CircularQueue.Valid, HoldsAt, Flatten;
      ghost var s := Abs();
      P.CompleteKeeps(s);
      P.CompleteRoom(s);
      BufferValid();
      hide Pushed, Wrap;
      ok := recvBuffer.IncreasePushPos(delivered);
      recvPosted := false;
      received := received + arriving;
      arriving := [];
      assert Abs() == P.Complete(s);
    }

    /** PostRecv. The length is the room in front of the ring at some time during the call. The room is read twice
        without a lock, so that the length can be zero although the later test succeeds: see
        ReceiveRaces.ZeroLengthPost. */
    method PostRecv(socketRc: int) returns (rc: int)
      requires Valid() && !recvPosted
      requires socketRc >= 0
      modifies this`active, this`disconnected, this`events, this`attached, this`attachedSize, this`seen
      modifies this`popped, this`frames
      modifies this`recvPosted, this`wsabufLen, this`delivered, this`arriving, this`wasFull, this`recvFailed
      modifies recvBuffer`popPos, recvBuffer`pending
      ensures Valid() && P.SameStream(old(Abs()), Abs())
      ensures !old(active) ==> !active
      ensures rc == 0 || rc == -1 || (rc == socketRc && recvFailed)
      ensures recvPosted ==>
                exists cur: nat :: cur <= |old(recvBuffer.pending)|
                  && |recvBuffer.pending| <= cur < recvBuffer.queueSize && recvBuffer.pushPos < recvBuffer.queueSize
                  && wsabufLen == Available(recvBuffer.queueSize, recvBuffer.extraSize, recvBuffer.pushPos, cur)
      ensures rc == 0 && active ==> recvPosted
      ensures recvPosted ==> rc == 0 && arriving == []
      ensures wasFull <==> |old(recvBuffer.pending)| == recvBuffer.queueSize - 1
      ensures rc == -1 ==> wasFull && disconnected
      ensures recvPosted && wsabufLen == 0 ==> wasFull && old(frames) != []
    {
      hide P.Inv, P.Rest, P.Undisturbed, P.SameStream, CircularQueue.Valid, HoldsAt, Flatten, Available;
      ghost var s0 := Abs();
      wasFull, recvFailed := |recvBuffer.pending| == recvBuffer.queueSize - 1, false;
      P.UndisturbedRefl(s0);
      P.UndisturbedSameStream(s0, s0);
      if !active {
        disconnected := true;
        return 0;
      }
      var len := ReadRoom();
      ghost var s1 := Abs();
      var again := ReadRoom();
      ghost var s2 := Abs();
      P.UndisturbedTrans(s0, s1, s2);
      P.UndisturbedSameStream(s0, s2);
      P.UndisturbedSameStream(s1, s2);
      P.RoomAfter(s0, s1, s2);
      if again <= 0 {
        disconnected := true;
        return -1;
      }
      rc := Submit(len, socketRc);
      recvFailed := rc != 0;
      P.SameStreamTrans(s0, s2, Abs());
      assert recvPosted ==> |recvBuffer.pending| <= |s1.pending|;
    }

    /** GetPushAvailableSize, which reads the cursors at some time during the call. */
    method ReadRoom() returns (len: nat)
      requires Valid()
      modifies this`active, this`events, this`attached, this`attachedSize, this`seen, this`popped, this`frames
      modifies recvBuffer`popPos, recvBuffer`pending
      ensures Valid() && P.Undisturbed(old(Abs()), Abs())
      ensures !old(active) ==> !active
      ensures recvBuffer.pushPos < recvBuffer.queueSize && |recvBuffer.pending| < recvBuffer.queueSize
      ensures len == Available(recvBuffer.queueSize, recvBuffer.extraSize, recvBuffer.pushPos, |recvBuffer.pending|)
    {
      hide P.Inv, P.Rest, P.Undisturbed, CircularQueue.Valid, HoldsAt, Flatten;
      ghost var s := Abs();
      Interfere();
      P.RoomFor(s, Abs());
      BufferValid();
      len := recvBuffer.GetPushAvailableSize();
    }

    /** The end of PostRecv: RecvEx is called with a length read earlier, and either fails or
        hands the buffer to the kernel. */
    method Submit(len: nat, socketRc: int) returns (rc: int)
      requires Valid() && !recvPosted
      requires |recvBuffer.pending| + len < recvBuffer.queueSize
      requires recvBuffer.pushPos + len <= recvBuffer.queueBuffer.Length
      modifies this`active, this`events, this`attached, this`attachedSize, this`seen, this`popped, this`frames
      modifies this`recvPosted, this`wsabufLen, this`delivered, this`arriving
      modifies recvBuffer`popPos, recvBuffer`pending
      ensures Valid() && P.SameStream(old(Abs()), Abs())
      ensures !old(active) ==> !active
      ensures rc == socketRc && recvPosted == (rc == 0)
      ensures |recvBuffer.pending| <= |old(recvBuffer.pending)|
      ensures recvPosted ==> arriving == [] && wsabufLen == len
    {
      hide P.Inv, P.Rest, P.Undisturbed, P.SameStream, CircularQueue.Valid, HoldsAt, Flatten;
      ghost var s0 := Abs();
      Interfere();
      ghost var s1 := Abs();
      P.UndisturbedSameStream(s0, s1);
      if socketRc != 0 {
        return socketRc;
      }
      P.PostKeeps(s1, len);
      P.PostSameStream(s0, s1, len);
      recvPosted, wsabufLen, delivered := true, len, 0;
      arriving := [];
      assert Abs() == P.Post(s1, len);
      return 0;
    }

    /** The packets announced so far, released or not. */
    ghost function Announced(): seq<seq<Byte>>
      reads this
    {
      popped + frames
    }

    /** The packet loop of CompleteRecv: it announces packets until none is complete. */
    method FramePackets() returns (rc: int)
      requires Valid() && !recvPosted
      modifies this`active, this`events, this`attached, this`attachedSize, this`seen, this`popped, this`frames
      modifies this`packetRecvCount, recvBuffer`popPos, recvBuffer`pending, recvBuffer`workPos, recvBuffer.queueBuffer
      ensures Valid() && received == old(received) && old(Announced()) <= Announced()
      ensures !old(active) ==> !active
      ensures rc == 2 || rc == 3 || rc == 4
      ensures Frame(received, maxPacketSize) == Frames(Announced(), P.Rest(Abs()), rc == 3)
    {
      hide P.Inv, P.Rest, P.Undisturbed, P.SameStream, P.Contiguous, CircularQueue.Valid, HoldsAt, Flatten;
      hide Classify, Frame;
      while true
        invariant Valid() && !recvPosted && received == old(received) && old(Announced()) <= Announced()
        invariant !old(active) ==> !active
        decreases |P.Rest(Abs())|
      {
        ghost var s := Abs();
        var PacketLength;
        rc, PacketLength := MakeSureCompletedPacket();
        P.UndisturbedSameStream(s, Abs());
        P.StreamFacts(s, Abs());
        if rc != 0 {
          assert !Classify(P.Rest(Abs()), maxPacketSize).Ready?;
          P.QuiescentFraming(Abs());
          return;
        }
        P.ReadyIsShort(Abs(), PacketLength);
        Announce(PacketLength);
      }
    }

    /** CompleteRecv for a completion that reports the bytes the kernel has written. Whatever was
        received so far, in however many pieces, the packets announced are exactly its framing. */
    method CompleteRecv(TransferedBytes: nat, socketRc: int) returns (rc: int)
      requires Valid() && recvPosted && TransferedBytes == delivered
      requires socketRc >= 0
      modifies this, recvBuffer, recvBuffer.queueBuffer
      ensures Valid() && received == old(received) + old(arriving)
      ensures old(Announced()) <= Announced() && (!old(active) ==> !active)
      ensures TransferedBytes == 0 ==> rc == 1 && !recvPosted && Announced() == old(Announced())
      ensures TransferedBytes > 0 ==>
                var f := Frame(received, maxPacketSize);
                && Announced() == f.packets && P.Rest(Abs()) == f.rest
                && (if f.oversize then rc == 3 && !recvPosted else rc in {0, -1, socketRc})
                && (rc == 0 && active ==> recvPosted)
                && (f.oversize || rc == 0 || rc == -1 || recvFailed)
      ensures recvPosted ==> rc == 0 && arriving == []
      ensures TransferedBytes == 0 ==> wasFull == old(wasFull)
      ensures rc == -1 || (recvPosted && wsabufLen == 0) ==> wasFull
    {
      hide P.Inv, P.Rest, P.Undisturbed, P.SameStream, P.Contiguous, CircularQueue.Valid, HoldsAt, Flatten;
      hide Classify, Frame;
      ghost var s := Abs();
      if 0 == TransferedBytes {
        P.CancelKeeps(s);
        recvPosted := false;
        assert Abs() == s.(posted := false);
        return 1;
      }
      Interfere();
      P.UndisturbedSameStream(s, Abs());
      P.StreamFacts(s, Abs());
      var ok := AcceptBytes();
      if !ok {
        return 2;
      }
      rc := FramePackets();
      if rc == 3 {
        return;
      }
      ghost var t := Abs();
      rc := PostRecv(socketRc);
      P.StreamFacts(t, Abs());
    }

    /** The kernel writes `bytes` in pieces, with the processor running in between. */
    method DeliverInPieces(bytes: seq<Byte>)
      requires Valid() && recvPosted && arriving == [] && |bytes| <= wsabufLen
      modifies this, recvBuffer, recvBuffer.queueBuffer
      ensures Valid() && recvPosted && arriving == bytes && delivered == |bytes|
      ensures received == old(received) && Announced() == old(Announced())
      ensures !old(active) ==> !active
      ensures wsabufLen == old(wsabufLen) && wasFull == old(wasFull)
    {
      hide P.Inv, P.Rest, P.Undisturbed, P.SameStream, CircularQueue.Valid, HoldsAt, Flatten;
      var done := 0;
      while done < |bytes|
        invariant Valid() && recvPosted && wsabufLen == old(wsabufLen) && wasFull == old(wasFull)
        invariant done <= |bytes| && arriving == bytes[..done]
        invariant received == old(received) && Announced() == old(Announced())
        invariant !old(active) ==> !active
      {
        ghost var s := Abs();
        Interfere();
        P.PostedFacts(s, Abs());
        var n :| 1 <= n <= |bytes| - done;
        Deliver(bytes[done..done + n]);
        assert bytes[..done + n] == bytes[..done] + bytes[done..done + n];
        done := done + n;
      }
      assert bytes[..done] == bytes;
    }

    /** The first receive of a connection: nothing is taken or announced by posting it. */
    method FirstRecv(socketRc: int) returns (rc: int)
      requires Valid() && !recvPosted && socketRc >= 0
      modifies this, recvBuffer`popPos, recvBuffer`pending
      ensures Valid() && received == old(received) && Announced() == old(Announced())
      ensures rc == 0 && active ==> recvPosted
      ensures recvPosted ==> rc == 0 && arriving == []
      ensures rc == 0 || rc == -1 || recvFailed
      ensures rc == -1 || (recvPosted && wsabufLen == 0) ==> wasFull
    {
      hide P.Inv, P.Rest, P.SameStream, CircularQueue.Valid, HoldsAt, Flatten, Valid;
      ghost var s := Abs();
      rc := PostRecv(socketRc);
      P.StreamFacts(s, Abs());
    }

    lemma InterferedFacts(s: P.State)
      requires P.Undisturbed(s, Abs())
      ensures received == s.received && popped + frames == s.popped + s.frames
      ensures recvPosted == s.posted && arriving == s.arriving
    {
      hide P.Rest;
    }

    /** The processor works off every message it has been sent. */
    method Drain()
      requires Valid()
      modifies this, recvBuffer, recvBuffer.queueBuffer
      ensures Valid() && popped == Announced() == old(Announced())
      ensures received == old(received) && active == old(active)
      ensures wasFull == old(wasFull) && recvFailed == old(recvFailed)
    {
      hide P.Inv, P.Rest, P.Undisturbed, P.SameStream, CircularQueue.Valid, HoldsAt, Flatten;
      while attached || events > 0
        invariant Valid() && Announced() == old(Announced())
        invariant received == old(received) && active == old(active)
        invariant wasFull == old(wasFull) && recvFailed == old(recvFailed)
        decreases |frames|, events
      {
        ghost var s := Abs();
        if attached {
          P.ReleaseKeeps(s);
          P.ReleaseUndisturbed(s);
          var packet := ReleasePacket();
        } else {
          P.AttachKeeps(s);
          P.AttachUndisturbed(s);
          PopPacket();
        }
        P.UndisturbedSameStream(s, Abs());
        P.StreamFacts(s, Abs());
      }
      P.NoMessagesNoPackets(Abs());
    }
  }

  /** How a connection ended: the input was used up, a packet was too long, another thread closed it, the ring was full
      when a receive was posted or refused, or RecvEx failed. */
  datatype Outcome = AllTaken | Oversized | Closed | RingFull | SocketError

  /** What holds of a connection between two receives, when `taken` bytes of the input have arrived; `cancelled` says
      that the latest one completed with no bytes. */
  ghost predicate InTurn(c: Receiver, input: seq<Byte>, taken: nat, rc: int, cancelled: bool)
    reads c, c.recvBuffer, c.recvBuffer.queueBuffer
  {
    && c.Valid() && taken <= |input| && c.received == input[..taken]
    && c.Announced() == Frame(input[..taken], c.maxPacketSize).packets
    && (c.recvPosted ==> rc == 0 && c.arriving == [])
    && (rc == 0 && c.active ==> c.recvPosted)
    && (Frame(input[..taken], c.maxPacketSize).oversize ==> rc == 3 && !c.recvPosted)
    && (rc == -1 || cancelled || (c.recvPosted && c.wsabufLen == 0) ==> c.wasFull)
    && (rc == 0 || rc == -1 || cancelled || c.recvFailed || Frame(input[..taken], c.maxPacketSize).oversize)
  }

  /** One receive: some of the input arrives, in pieces, and is completed. */
  method Turn(c: Receiver, input: seq<Byte>, taken: nat) returns (rc: int, now: nat, cancelled: bool)
    requires InTurn(c, input, taken, 0, false) && c.recvPosted && taken < |input|
    modifies c, c.recvBuffer, c.recvBuffer.queueBuffer
    ensures InTurn(c, input, now, rc, cancelled)
    ensures cancelled ==> rc == 1
    ensures taken < now || (now == taken && rc != 0)
  {
    hide P.Inv, P.Rest, P.SameStream, CircularQueue.Valid, HoldsAt, Flatten, Frame, Classify;
    hide Receiver.Valid, Receiver.Abs, Receiver.Announced;
    var room := if c.wsabufLen < |input| - taken then c.wsabufLen else |input| - taken;
    var n: nat :| n <= room && (0 < room ==> 0 < n);
    c.DeliverInPieces(input[taken..taken + n]);
    var socketRc: int :| socketRc >= 0;
    rc := c.CompleteRecv(n, socketRc);
    assert input[..taken + n] == input[..taken] + input[taken..taken + n];
    now, cancelled := taken + n, n == 0;
  }

  /** The processor takes some steps between two receives. */
  method ProcessorTurn(c: Receiver, ghost input: seq<Byte>, ghost taken: nat, ghost rc: int, ghost cancelled: bool)
    requires InTurn(c, input, taken, rc, cancelled)
    modifies c, c.recvBuffer, c.recvBuffer.queueBuffer
    ensures InTurn(c, input, taken, rc, cancelled)
  {
    hide P.Inv, P.Rest, P.SameStream, P.Undisturbed, CircularQueue.Valid, HoldsAt, Flatten, Frame;
    hide Receiver.Valid;
    ghost var s := c.Abs();
    c.Interfere();
    c.InterferedFacts(s);
  }

  /** A whole connection: the peer's bytes arrive in pieces and in receives of any size, while
      the processor pops packets at any time and any thread may close the connection. Whatever
      the pieces were, what is popped in the end is the framing of the bytes taken. */
  method Run(c: Receiver, input: seq<Byte>) returns (outcome: Outcome, taken: nat)
    requires c.Valid() && !c.recvPosted && c.received == [] && c.Announced() == []
    modifies c, c.recvBuffer, c.recvBuffer.queueBuffer
    ensures c.Valid() && taken <= |input| && c.received == input[..taken]
    ensures c.popped == Frame(input[..taken], c.maxPacketSize).packets
    ensures outcome == AllTaken ==> taken == |input|
    ensures outcome == Oversized <==> Frame(input[..taken], c.maxPacketSize).oversize
    ensures outcome == Closed ==> !c.active
    ensures outcome == RingFull ==> c.wasFull
    ensures outcome == SocketError ==> c.recvFailed
  {
    hide P.Inv, P.Rest, P.SameStream, CircularQueue.Valid, HoldsAt, Flatten, Receiver.Valid, Receiver.Abs;
    hide Receiver.Announced;
    taken := 0;
    assert Frame([], c.maxPacketSize) == Frames([], [], false);
    hide Frame, Classify;
    var socketRc: int :| socketRc >= 0;
    var rc := c.FirstRecv(socketRc);
    var cancelled := false;
    while rc == 0 && c.recvPosted && taken < |input|
      invariant InTurn(c, input, taken, rc, cancelled) && (cancelled ==> rc == 1)
      decreases |input| - taken, rc == 0
    {
      rc, taken, cancelled := Turn(c, input, taken);
    }
    c.Drain();
    outcome := if Frame(input[..taken], c.maxPacketSize).oversize then Oversized
               else if taken == |input| then AllTaken
               else if rc == 0 then Closed
               else if cancelled || rc == -1 then RingFull
               else SocketError;
  }
}
