/** The sending half of Connections: PushPacket, PostSend and CompleteSend. Each runs its steps
    under _mutexSend, so a method is one atomic step of the connection; only the connection's
    status can change inside it, and the socket decides whether a send succeeds. */
module Sending {
  import opened Memory
  import opened Framing
  import opened CircularQueue
  import opened Views
  import opened RandomGenerator
  import opened PacketCipher
  import opened PacketEncoding
  import opened SendHistory

  /** A packet of `used` bytes does not even fit an empty buffer whose cursors stand at `push`. */
  predicate Unsendable(q: nat, e: nat, push: nat, used: nat)
    requires push < q
  {
    Available(q, e, push, 0) <= used
  }

  /** Packets that always fit an empty buffer, wherever its cursors stand, are exactly those no
      longer than the tail. */
  lemma AlwaysFits(q: nat, e: nat, used: nat)
    requires 0 < e && e + 2 <= q
    ensures (forall push :: 0 <= push < q ==> !Unsendable(q, e, push, used)) <==> used <= e
  {
    if e < used {
      assert Unsendable(q, e, q - 1, used);
    }
  }

  class Sender {
    const maxSendPacketSize: nat
    const useSendQueue: bool
    const sendBuffer: CircularQueue
    const encoder: PacketEncoder?

    /** IsStatus(CONNSTATUS_ACTIVE), and whether Disconnect was called. */
    var active: bool
    var disconnected: bool
    var isSending: bool
    var sendQueue: seq<seq<Byte>>

    /** The sends handed to the socket and not completed, with the length of the latest. */
    var outstanding: nat
    var wsabufLen: nat
    var packetSendCount: nat

    /** Whether the latest SendEx failed. */
    ghost var failed: bool
    /** Bytes whose send has completed. */
    var wire: seq<Byte>
    /** Packets that entered the buffer; packets that were put into the queue. */
    ghost var entered: seq<Entry>
    ghost var queued: seq<seq<Byte>>
    ghost var firstEncoder: Encoder

    ghost function EncoderRepr(): set<object>
    {
      if encoder != null then encoder.Generators() else {}
    }

    ghost function EncoderNow(): Encoder
      reads EncoderRepr()
    {
      if encoder == null then NoEncoder else With(encoder.Tx())
    }

    /** The pending bytes from the pop position that lie in one piece: all of them, or all up to the end of the ring. */
    ghost function Window(): (n: nat)
      requires sendBuffer.Valid()
      reads sendBuffer, sendBuffer.queueBuffer
      ensures n <= |sendBuffer.pending| && sendBuffer.popPos + n <= sendBuffer.queueSize
      ensures n == |sendBuffer.pending| || sendBuffer.popPos + n == sendBuffer.queueSize
    {
      if sendBuffer.popPos + |sendBuffer.pending| >= sendBuffer.queueSize then sendBuffer.queueSize - sendBuffer.popPos
      else |sendBuffer.pending|
    }

    ghost predicate Ring()
      reads sendBuffer, sendBuffer.queueBuffer, EncoderRepr()
    {
      && sendBuffer.Valid()
      && sendBuffer !in EncoderRepr() && this !in EncoderRepr()
      && (encoder != null ==> encoder.Valid())
    }

    lemma BufferOk()
      requires Ring()
      ensures sendBuffer.Valid() && 0 < sendBuffer.extraSize
    {
    }

    lemma PositionOk()
      requires sendBuffer.Valid()
      ensures sendBuffer.pushPos < sendBuffer.queueSize
    {
    }

    /** Every packet is in one place: written to the socket, in the buffer or in the queue. What
        was handed to the socket is a prefix of the packets written, in the order they entered
        the buffer; each went through the encoder once, when it entered; queued packets keep
        their order. */
    ghost predicate Conserved()
      reads this`wire, this`entered, this`sendQueue, this`queued, this`packetSendCount, this`firstEncoder
      reads sendBuffer`pending, EncoderRepr()
    {
      && wire + sendBuffer.pending == Flatten(Bytes(entered))
      && WrittenInOrder(firstEncoder, entered, EncoderNow())
      && Filter(entered, true) + sendQueue == queued
      && packetSendCount == |entered|
      && (forall p :: p in sendQueue ==> HasBody(p))
      && (!useSendQueue ==> sendQueue == [])
    }

    /** At most one send is under way, over bytes that are in the buffer in one piece. */
    ghost predicate OneSend()
      reads this, sendBuffer
    {
      && outstanding <= 1
      && (outstanding == 1 ==>
            0 < wsabufLen <= |sendBuffer.pending| && sendBuffer.popPos + wsabufLen <= sendBuffer.queueSize)
    }

    /** While the connection is active `isSending` says whether a send is under way. If one is,
        the latest SendEx succeeded; unless the latest SendEx failed, one is whenever the buffer
        is not empty. */
    ghost predicate Driven()
      reads this, sendBuffer
    {
      && (outstanding == 1 ==> isSending && !failed)
      && (active && isSending ==> outstanding == 1)
      && (active && !failed && sendBuffer.pending != [] ==> isSending)
    }

    /** Nothing waits in the queue without a send under way that will drain it, unless the latest
        SendEx failed. */
    ghost predicate NotStalled()
      reads this
    {
      active && !failed && sendQueue != [] ==> isSending
    }

    ghost predicate Valid()
      reads this, sendBuffer, sendBuffer.queueBuffer, EncoderRepr()
    {
      Ring() && Conserved() && OneSend() && Driven()
    }

    constructor (maxPacketSize: nat, capacity: nat, maxSendPacketSize: nat, useSendQueue: bool, encoder: PacketEncoder?)
      requires 0 < maxPacketSize && 1 <= capacity
      requires encoder != null ==> encoder.Valid()
      ensures Valid() && NotStalled() && active && !failed && !disconnected
      ensures this.encoder == encoder && this.useSendQueue == useSendQueue
      ensures this.maxSendPacketSize == maxSendPacketSize
      ensures sendBuffer.queueSize == maxPacketSize * capacity && sendBuffer.extraSize == maxPacketSize
      ensures sendBuffer.pushPos == 0 && sendBuffer.pending == [] && sendQueue == [] && entered == [] && wire == []
      ensures queued == []
      ensures fresh(sendBuffer) && fresh(sendBuffer.queueBuffer)
    {
      hide HoldsAt, WrittenInOrder, Flatten, Bytes, Filter, HasBody, Wf;
      EmptyHistory(if encoder == null then NoEncoder else With(encoder.Tx()));
      this.maxSendPacketSize, this.useSendQueue, this.encoder := maxSendPacketSize, useSendQueue, encoder;
      assert maxPacketSize <= maxPacketSize * capacity;
      sendBuffer := new CircularQueue(maxPacketSize * capacity, maxPacketSize);
      active, disconnected, isSending, sendQueue := true, false, false, [];
      outstanding, wsabufLen, packetSendCount := 0, 0, 0;
      failed, wire, entered, queued := false, [], [], [];
      firstEncoder := if encoder == null then NoEncoder else With(encoder.Tx());
    }

    /** PostSend: everything in the buffer up to the end of the ring goes to the socket. */
    method PostSend(socketRc: int, mayClose: bool) returns (rc: int)
      requires Ring() && Conserved() && outstanding == 0 && sendBuffer.pending != []
      modifies this`active, this`disconnected, this`outstanding, this`wsabufLen, this`failed
      ensures Ring() && Conserved() && OneSend()
      ensures !old(active) ==> !active
      ensures !mayClose ==> active == old(active)
      ensures active ==> rc == socketRc && failed == (rc != 0) && outstanding == (if rc == 0 then 1 else 0)
      ensures !active ==> rc == 0 && outstanding == 0 && failed == old(failed)
      ensures active ==> disconnected == old(disconnected)
      ensures outstanding == 1 ==>
                wsabufLen == Window()
                && (wsabufLen == |sendBuffer.pending| || sendBuffer.popPos + wsabufLen == sendBuffer.queueSize)
    {
      hide HoldsAt, WrittenInOrder, Flatten, Filter;
      var yes := IsStatus(mayClose);
      if !yes {
        disconnected := true;
        return 0;
      }
      if sendBuffer.popPos + sendBuffer.GetCurSize() >= sendBuffer.queueSize {
        wsabufLen := sendBuffer.queueSize - sendBuffer.popPos;
      } else {
        wsabufLen := sendBuffer.GetCurSize();
      }
      if socketRc != 0 {
        failed := true;
        return socketRc;
      }
      failed := false;
      outstanding := outstanding + 1;
      return 0;
    }

    /** IsStatus(CONNSTATUS_ACTIVE): any thread may have closed the connection by now, if
        `mayClose` says that one of them might. */
    method IsStatus(mayClose: bool) returns (yes: bool)
      modifies this`active
      ensures yes == active && (!old(active) ==> !active) && (!mayClose ==> active == old(active))
    {
      var closed: bool := *;
      if mayClose && closed {
        active := false;
      }
      return active;
    }

    /** memcpy to the push position: nothing pending is touched. */
    method WriteBlock(bytes: seq<Byte>)
      requires Ring() && sendBuffer.pushPos + |bytes| <= sendBuffer.queueBuffer.Length
      requires |bytes| < sendBuffer.queueSize - |sendBuffer.pending|
      modifies sendBuffer.queueBuffer
      ensures Ring()
      ensures sendBuffer.queueBuffer[sendBuffer.pushPos..sendBuffer.pushPos + |bytes|] == bytes
    {
      ghost var buf := sendBuffer.queueBuffer[..];
      var src := new Byte[|bytes|](i requires 0 <= i < |bytes| => bytes[i]);
      assert src[..|bytes|] == bytes;
      CopyMemory(sendBuffer.queueBuffer, sendBuffer.pushPos, src, 0, |bytes|);
      WriteAfterPush(buf, sendBuffer.queueBuffer[..], sendBuffer.queueSize, sendBuffer.popPos, sendBuffer.pending, [],
                     sendBuffer.pushPos, sendBuffer.pushPos + |bytes|);
    }

    /** The packet that stands at the push position is encrypted there, if there is an encoder. */
    method EncryptBlock(size: nat) returns (rc: int)
      requires Ring() && sendBuffer.pushPos + size <= sendBuffer.queueBuffer.Length
      requires size < sendBuffer.queueSize - |sendBuffer.pending|
      requires HasBody(sendBuffer.queueBuffer[sendBuffer.pushPos..sendBuffer.pushPos + size])
      modifies sendBuffer.queueBuffer, EncoderRepr()
      ensures Ring() && rc == 0
      ensures WfEncoder(old(EncoderNow()))
      ensures var p := old(sendBuffer.queueBuffer[sendBuffer.pushPos..sendBuffer.pushPos + size]);
              && sendBuffer.queueBuffer[sendBuffer.pushPos..sendBuffer.pushPos + size] == Written(old(EncoderNow()), p)
              && EncoderNow() == After(old(EncoderNow()), p)
    {
      hide Seal, Used, Encrypted, Wf;
      if encoder == null {
        return 0;
      }
      ghost var buf := sendBuffer.queueBuffer[..];
      var byCheckSum;
      rc, byCheckSum := encoder.TxEncrypt(sendBuffer.queueBuffer, sendBuffer.pushPos, size);
      WriteAfterPush(buf, sendBuffer.queueBuffer[..], sendBuffer.queueSize, sendBuffer.popPos, sendBuffer.pending, [],
                     sendBuffer.pushPos, sendBuffer.pushPos + size);
    }

    /** The part of Conserved about the buffer, for an encoder that stands at `e`. */
    ghost predicate Recorded(e: Encoder)
      reads this, sendBuffer
    {
      && wire + sendBuffer.pending == Flatten(Bytes(entered))
      && WrittenInOrder(firstEncoder, entered, e)
      && packetSendCount == |entered|
    }

    lemma NextRecorded(e: Encoder, x: Entry)
      requires Recorded(e) && HasBody(x.plain) && WfEncoder(e) && x.written == Written(e, x.plain)
      ensures wire + (sendBuffer.pending + x.written) == Flatten(Bytes(entered + [x]))
      ensures WrittenInOrder(firstEncoder, entered + [x], After(e, x.plain))
    {
      hide Written, After, HasBody;
      WrittenSnoc(firstEncoder, entered, e, x);
      SnocEntry(entered, x);
      FlattenSnoc(Bytes(entered), x.written);
      ConcatAssociative(wire, sendBuffer.pending, x.written);
    }

    /** IncreasePushPos over the block that has been written for packet `p`. */
    method Commit(size: nat, ghost e: Encoder, ghost p: seq<Byte>, ghost waited: bool)
      requires Ring() && Recorded(e)
      requires HasBody(p) && WfEncoder(e) && size == |p| < sendBuffer.queueSize - |sendBuffer.pending|
      requires sendBuffer.pushPos + size <= sendBuffer.queueBuffer.Length
      requires sendBuffer.queueBuffer[..][sendBuffer.pushPos..sendBuffer.pushPos + size] == Written(e, p)
      modifies this`packetSendCount, this`entered
      modifies sendBuffer`pushPos, sendBuffer`loopCount, sendBuffer`pending, sendBuffer.queueBuffer
      ensures Ring() && Recorded(After(e, p))
      ensures entered == old(entered) + [Entry(p, Written(e, p), waited)]
      ensures sendBuffer.pending == old(sendBuffer.pending) + Written(e, p)
      ensures sendBuffer.pushPos == Wrap(sendBuffer.queueSize, old(sendBuffer.pushPos), size)
    {
      hide HoldsAt, Written, After, HasBody, Pushed, WrittenInOrder, Flatten, Bytes;
      ghost var x := Entry(p, Written(e, p), waited);
      NextRecorded(e, x);
      var ok := sendBuffer.IncreasePushPos(size);
      packetSendCount := packetSendCount + 1;
      entered := entered + [x];
    }

    /** PushPacket puts a packet that fits into the buffer and encrypts it there. */
    method EnterDirectly(p: seq<Byte>) returns (rc: int)
      requires Ring() && Conserved() && HasBody(p)
      requires |p| < Available(sendBuffer.queueSize, sendBuffer.extraSize, sendBuffer.pushPos, |sendBuffer.pending|)
      modifies this`packetSendCount, this`entered, EncoderRepr()
      modifies sendBuffer`pushPos, sendBuffer`loopCount, sendBuffer`pending, sendBuffer.queueBuffer
      ensures Ring() && Conserved() && rc == 0
      ensures WfEncoder(old(EncoderNow()))
      ensures entered == old(entered) + [Entry(p, Written(old(EncoderNow()), p), false)]
      ensures sendBuffer.pending == old(sendBuffer.pending) + Written(old(EncoderNow()), p)
      ensures sendBuffer.pushPos == Wrap(sendBuffer.queueSize, old(sendBuffer.pushPos), |p|)
    {
      hide HoldsAt, Written, After, HasBody, WrittenInOrder, Flatten, Bytes, Filter;
      ghost var e := EncoderNow();
      WriteBlock(p);
      rc := EncryptBlock(|p|);
      if rc != 0 {
        return 7;
      }
      Commit(|p|, e, p, false);
      SnocEntry(old(entered), Entry(p, Written(e, p), false));
    }

    /** CompleteSend encrypts the packet at the front of the queue where it is, copies it to the
        buffer and takes it from the queue. */
    method EnterFromQueue() returns (rc: int)
      requires Ring() && Conserved() && sendQueue != []
      requires |sendQueue[0]|
               < Available(sendBuffer.queueSize, sendBuffer.extraSize, sendBuffer.pushPos, |sendBuffer.pending|)
      modifies this`packetSendCount, this`entered, this`sendQueue, EncoderRepr()
      modifies sendBuffer`pushPos, sendBuffer`loopCount, sendBuffer`pending, sendBuffer.queueBuffer
      ensures Ring() && Conserved() && rc == 0
      ensures sendQueue == old(sendQueue)[1..]
      ensures HasBody(old(sendQueue)[0]) && WfEncoder(old(EncoderNow()))
      ensures entered == old(entered) + [Entry(old(sendQueue)[0], Written(old(EncoderNow()), old(sendQueue)[0]), true)]
      ensures sendBuffer.pending == old(sendBuffer.pending) + Written(old(EncoderNow()), old(sendQueue)[0])
      ensures sendBuffer.pushPos == Wrap(sendBuffer.queueSize, old(sendBuffer.pushPos), |old(sendQueue)[0]|)
    {
      hide HoldsAt, Written, After, HasBody, WrittenInOrder, Flatten, Bytes, Filter;
      ghost var e := EncoderNow();
      var p := sendQueue[0];
      var written;
      rc, written := EncryptPacket(p);
      if rc != 0 {
        return 1;
      }
      WriteBlock(written);
      Commit(|p|, e, p, true);
      SnocEntry(old(entered), Entry(p, Written(e, p), true));
      ghost var was := sendQueue;
      sendQueue := sendQueue[1..];
      assert was == [p] + sendQueue;
      ConcatAssociative(Filter(old(entered), true), [p], sendQueue);
    }

    /** TxEncrypt on a packet's own buffer. */
    method EncryptPacket(p: seq<Byte>) returns (rc: int, written: seq<Byte>)
      requires encoder != null ==> encoder.Valid()
      requires HasBody(p)
      modifies EncoderRepr()
      ensures encoder != null ==> encoder.Valid()
      ensures WfEncoder(old(EncoderNow()))
      ensures rc == 0 && written == Written(old(EncoderNow()), p) && EncoderNow() == After(old(EncoderNow()), p)
    {
      hide Seal, Used, Encrypted, Wf, HasBody;
      if encoder == null {
        return 0, p;
      }
      var buffer := new Byte[|p|](i requires 0 <= i < |p| => p[i]);
      assert buffer[0..0 + |p|] == p;
      var byCheckSum;
      rc, byCheckSum := encoder.TxEncrypt(buffer, 0, |p|);
      written := buffer[..];
    }

    /** A copy of the packet joins the end of the queue. */
    method Enqueue(p: seq<Byte>)
      requires Conserved() && HasBody(p) && useSendQueue
      modifies this`sendQueue, this`queued
      ensures Conserved()
      ensures sendQueue == old(sendQueue) + [p] && queued == old(queued) + [p]
    {
      hide WrittenInOrder, Flatten, Bytes, Filter, HasBody;
      ConcatAssociative(Filter(entered, true), sendQueue, [p]);
      sendQueue := sendQueue + [p];
      queued := queued + [p];
    }

    /** What becomes of a packet handed to PushPacket. */
    ghost predicate Refused(p: seq<Byte>, rc: int)
      requires Valid()
      reads this, sendBuffer, sendBuffer.queueBuffer, EncoderRepr()
    {
      || (rc == 1 && !active)
      || (rc == 2 && !HasBody(p))
      || (rc == 3 && HasBody(p) && PacketSize(p) > maxSendPacketSize)
      || (rc == 4 && Admissible(p) && !Fits(p) && !useSendQueue)
    }

    ghost predicate Admissible(p: seq<Byte>)
    {
      HasBody(p) && PacketSize(p) <= maxSendPacketSize
    }

    ghost predicate Fits(p: seq<Byte>)
      requires sendBuffer.Valid()
      reads sendBuffer, sendBuffer.queueBuffer
    {
      |p| < Available(sendBuffer.queueSize, sendBuffer.extraSize, sendBuffer.pushPos, |sendBuffer.pending|)
    }

    /** PushPacket: an admissible packet that fits goes into the buffer, and a send is started
        unless one is under way; one that does not fit waits in the queue, if there is one. A stall
        begins exactly when one is queued while no send is under way, and ends exactly when a
        packet enters the buffer. */
    method PushPacket(p: seq<Byte>, socketRc: int, mayClose: bool) returns (rc: int, ghost fate: Fate)
      requires Valid()
      modifies this, sendBuffer, sendBuffer.queueBuffer, EncoderRepr()
      ensures Valid() && wire == old(wire) && (!old(active) ==> !active) && (!mayClose ==> active == old(active))
      ensures sendBuffer.popPos == old(sendBuffer.popPos) && (active ==> disconnected == old(disconnected))
      ensures fate != Buffered ==> sendBuffer.pending == old(sendBuffer.pending) && outstanding == old(outstanding)
      ensures fate == Out ==>
                && (old(Refused(p, rc)) || (rc == 1 && !active))
                && entered == old(entered) && queued == old(queued)
                && isSending == old(isSending) && failed == old(failed)
      ensures fate == Waits ==>
                && rc == 0 && old(Admissible(p) && !Fits(p)) && useSendQueue
                && queued == old(queued) + [p] && sendQueue == old(sendQueue) + [p] && entered == old(entered)
                && isSending == old(isSending) && failed == old(failed) && sendBuffer.pushPos == old(sendBuffer.pushPos)
      ensures fate == Buffered ==>
                && old(Admissible(p) && Fits(p)) && queued == old(queued) && sendQueue == old(sendQueue)
                && WfEncoder(old(EncoderNow()))
                && entered == old(entered) + [Entry(p, Written(old(EncoderNow()), p), false)]
                && sendBuffer.pending == old(sendBuffer.pending) + Written(old(EncoderNow()), p)
                && sendBuffer.pushPos == Wrap(sendBuffer.queueSize, old(sendBuffer.pushPos), |p|)
                && (outstanding == 1 ==> wsabufLen == if old(isSending) then old(wsabufLen) else Window())
                && (outstanding == 1 && !old(isSending) ==>
                      wsabufLen == |sendBuffer.pending| || sendBuffer.popPos + wsabufLen == sendBuffer.queueSize)
                && (active ==> rc == (if old(isSending) then 0 else socketRc) && isSending == (rc == 0))
                && (active && !old(isSending) ==> failed == (rc != 0))
                && (old(isSending) ==> failed == old(failed))
      ensures old(NotStalled()) && active && !failed ==> (NotStalled() <==> fate != Waits || old(isSending))
      ensures !old(NotStalled()) && active ==> (NotStalled() <==> fate == Buffered)
      ensures fate == Waits && !old(isSending) && active && !failed ==>
                Unsendable(sendBuffer.queueSize, sendBuffer.extraSize, sendBuffer.pushPos, |p|)
    {
      hide HoldsAt, Written, After, WrittenInOrder, Flatten, Bytes, Filter, PacketSize, Wf, BodyLength;
      hide Conserved, Window, Available, CircularQueue.Valid;
      fate := Out;
      var yes := IsStatus(mayClose);
      if !yes {
        return 1, Out;
      }
      if !HasBody(p) {
        return 2, Out;
      }
      if PacketSize(p) > maxSendPacketSize {
        return 3, Out;
      }
      hide HasBody;
      BufferOk();
      if sendBuffer.GetPushAvailableSize() <= |p| {
        if !useSendQueue {
          return 4, Out;
        }
        Enqueue(p);
        return 0, Waits;
      }
      rc := BufferAndSend(p, socketRc, mayClose);
      return rc, Buffered;
    }

    /** The rest of PushPacket, for a packet that fits. */
    method BufferAndSend(p: seq<Byte>, socketRc: int, mayClose: bool) returns (rc: int)
      requires Valid() && HasBody(p) && Fits(p)
      modifies this, sendBuffer, sendBuffer.queueBuffer, EncoderRepr()
      ensures Valid() && wire == old(wire) && (!old(active) ==> !active) && (!mayClose ==> active == old(active))
      ensures queued == old(queued) && sendQueue == old(sendQueue) && (active ==> disconnected == old(disconnected))
      ensures WfEncoder(old(EncoderNow()))
      ensures entered == old(entered) + [Entry(p, Written(old(EncoderNow()), p), false)]
      ensures sendBuffer.pending == old(sendBuffer.pending) + Written(old(EncoderNow()), p)
      ensures sendBuffer.popPos == old(sendBuffer.popPos)
      ensures sendBuffer.pushPos == Wrap(sendBuffer.queueSize, old(sendBuffer.pushPos), |p|)
      ensures outstanding == 1 ==> wsabufLen == if old(isSending) then old(wsabufLen) else Window()
      ensures outstanding == 1 && !old(isSending) ==>
                wsabufLen == |sendBuffer.pending| || sendBuffer.popPos + wsabufLen == sendBuffer.queueSize
      ensures active ==> rc == (if old(isSending) then 0 else socketRc) && isSending == (rc == 0)
      ensures active && !old(isSending) ==> failed == (rc != 0)
      ensures old(isSending) ==> failed == old(failed)
    {
      assert |p| > 0;
      hide HoldsAt, Written, After, WrittenInOrder, Flatten, Bytes, Filter, PacketSize, Wf, BodyLength, HasBody;
      hide Conserved, Window, CircularQueue.Valid;
      rc := EnterDirectly(p);
      if rc != 0 {
        return 7;
      }
      hide Ring;
      rc := SendUnlessSending(socketRc, mayClose);
    }

    /** The end of PushPacket: a send is started unless one is under way. */
    method SendUnlessSending(socketRc: int, mayClose: bool) returns (rc: int)
      requires Ring() && Conserved() && OneSend() && sendBuffer.pending != []
      requires (outstanding == 1 ==> isSending && !failed) && (active && isSending ==> outstanding == 1)
      modifies this`active, this`disconnected, this`outstanding, this`wsabufLen, this`failed, this`isSending
      ensures Valid() && (!old(active) ==> !active) && (!mayClose ==> active == old(active))
      ensures active ==> rc == (if old(isSending) then 0 else socketRc) && isSending == (rc == 0)
      ensures active ==> disconnected == old(disconnected)
      ensures active && !old(isSending) ==> failed == (rc != 0)
      ensures old(isSending) ==> failed == old(failed)
      ensures outstanding == 1 && !old(isSending) ==>
                wsabufLen == Window()
                && (wsabufLen == |sendBuffer.pending| || sendBuffer.popPos + wsabufLen == sendBuffer.queueSize)
      ensures old(isSending) ==> outstanding == old(outstanding) && wsabufLen == old(wsabufLen)
    {
      hide HoldsAt, WrittenInOrder, Conserved, CircularQueue.Valid;
      rc := 0;
      if !isSending {
        rc := PostSend(socketRc, mayClose);
        if rc != 0 {
          return;
        }
        isSending := true;
      }
    }

    /** CompleteSend: the bytes sent leave the buffer, waiting packets follow as long as the next
        one fits, and the next send is started or sending stops. */
    method CompleteSend(TransferedBytes: nat, socketRc: int, mayClose: bool) returns (rc: int)
      requires Valid() && outstanding == 1 && TransferedBytes <= wsabufLen
      modifies this, sendBuffer, sendBuffer.queueBuffer, EncoderRepr()
      ensures Valid() && rc == 0 && (!old(active) ==> !active) && (!mayClose ==> active == old(active))
      ensures wire == old(wire) + old(sendBuffer.pending)[..TransferedBytes]
      ensures queued == old(queued) && old(entered) <= entered && Filter(entered, false) == old(Filter(entered, false))
      ensures sendBuffer.popPos == Wrap(sendBuffer.queueSize, old(sendBuffer.popPos), TransferedBytes)
      ensures old(sendBuffer.pending)[TransferedBytes..] <= sendBuffer.pending
      ensures old(sendQueue) == [] ==>
                sendQueue == [] && sendBuffer.pending == old(sendBuffer.pending)[TransferedBytes..]
                && sendBuffer.pushPos == old(sendBuffer.pushPos)
      ensures outstanding == 1 ==>
                wsabufLen == Window()
                && (wsabufLen == |sendBuffer.pending| || sendBuffer.popPos + wsabufLen == sendBuffer.queueSize)
      ensures failed ==> socketRc != 0 && disconnected
      ensures active && !failed ==> (isSending <==> sendBuffer.pending != [])
      ensures active && !failed && !NotStalled() ==>
                sendBuffer.pending == []
                && Unsendable(sendBuffer.queueSize, sendBuffer.extraSize, sendBuffer.pushPos, |sendQueue[0]|)
    {
      hide HoldsAt, Written, After, WrittenInOrder, Flatten, Bytes, Filter, HasBody, Wf, Conserved, CircularQueue.Valid;
      QueueUsed();
      outstanding := outstanding - 1;
      Release(TransferedBytes);
      if useSendQueue {
        rc := DrainQueue();
        if rc != 0 {
          return 1;
        }
      }
      SendOrStop(socketRc, mayClose);
      rc := 0;
    }

    /** The end of CompleteSend: the next send, or none. */
    method SendOrStop(socketRc: int, mayClose: bool)
      requires Ring() && Conserved() && outstanding == 0 && isSending && !failed
      modifies this`active, this`disconnected, this`outstanding, this`wsabufLen, this`failed, this`isSending
      ensures Valid() && (!old(active) ==> !active) && (!mayClose ==> active == old(active))
      ensures failed ==> socketRc != 0 && disconnected
      ensures active && !failed ==> (isSending <==> sendBuffer.pending != [])
      ensures outstanding == 1 ==>
                wsabufLen == Window()
                && (wsabufLen == |sendBuffer.pending| || sendBuffer.popPos + wsabufLen == sendBuffer.queueSize)
    {
      hide HoldsAt, WrittenInOrder, Conserved, CircularQueue.Valid;
      if sendBuffer.GetCurSize() != 0 {
        var rc := PostSend(socketRc, mayClose);
        if rc != 0 {
          isSending := false;
          disconnected := true;
        }
      } else {
        isSending := false;
      }
    }

    lemma QueueUsed()
      requires Conserved()
      ensures !useSendQueue ==> sendQueue == []
    {
    }

    /** The loop of CompleteSend over the queue. */
    method DrainQueue() returns (rc: int)
      requires Ring() && Conserved()
      modifies this`packetSendCount, this`entered, this`sendQueue, EncoderRepr()
      modifies sendBuffer`pushPos, sendBuffer`loopCount, sendBuffer`pending, sendBuffer.queueBuffer
      ensures Ring() && Conserved() && rc == 0
      ensures old(entered) <= entered && Filter(entered, false) == old(Filter(entered, false))
      ensures old(sendBuffer.pending) <= sendBuffer.pending
      ensures sendQueue != [] ==> !Fits(sendQueue[0])
      ensures old(sendQueue) == [] ==>
                && sendQueue == [] && sendBuffer.pending == old(sendBuffer.pending)
                && sendBuffer.pushPos == old(sendBuffer.pushPos)
    {
      hide HoldsAt, Written, After, WrittenInOrder, Flatten, Bytes, Filter, HasBody, Wf, Conserved;
      while sendQueue != []
        invariant Ring() && Conserved()
        invariant old(entered) <= entered && Filter(entered, false) == old(Filter(entered, false))
        invariant old(sendBuffer.pending) <= sendBuffer.pending
        invariant old(sendQueue) == [] ==>
                    && sendQueue == [] && sendBuffer.pending == old(sendBuffer.pending)
                    && sendBuffer.pushPos == old(sendBuffer.pushPos)
        decreases |sendQueue|
      {
        if sendBuffer.GetPushAvailableSize() <= |sendQueue[0]| {
          break;
        }
        ghost var was, e, p := entered, EncoderNow(), sendQueue[0];
        rc := EnterFromQueue();
        if rc != 0 {
          return 1;
        }
        SnocEntry(was, Entry(p, Written(e, p), true));
      }
      rc := 0;
    }

    /** IncreasePopPos for completed bytes, which stand in one piece at the pop position. */
    method Release(n: nat)
      requires Ring() && Conserved() && n <= |sendBuffer.pending| && sendBuffer.popPos + n <= sendBuffer.queueSize
      modifies this`wire, sendBuffer`popPos, sendBuffer`pending
      ensures Ring() && Conserved()
      ensures wire == old(wire) + old(sendBuffer.pending)[..n]
      ensures sendBuffer.pending == old(sendBuffer.pending)[n..]
      ensures sendBuffer.popPos == Wrap(sendBuffer.queueSize, old(sendBuffer.popPos), n)
    {
      hide HoldsAt, WrittenInOrder, Flatten, Bytes, Filter, HasBody;
      ghost var pending := sendBuffer.pending;
      FrontBytes(sendBuffer.queueBuffer[..], sendBuffer.queueSize, sendBuffer.popPos, pending, n);
      assert sendBuffer.queueBuffer[sendBuffer.popPos..sendBuffer.popPos + n] == pending[..n];
      wire := wire + sendBuffer.queueBuffer[sendBuffer.popPos..sendBuffer.popPos + n];
      sendBuffer.IncreasePopPos(n);
      assert pending == pending[..n] + pending[n..];
      ConcatAssociative(old(wire), pending[..n], pending[n..]);
    }
  }

  datatype Fate = Out | Waits | Buffered

  /** The packets with a certain fate, in order. */
  function Chosen(packets: seq<seq<Byte>>, fates: seq<Fate>, fate: Fate): seq<seq<Byte>>
    requires |fates| <= |packets|
  {
    if fates == [] then []
    else
      var n := |fates| - 1;
      Chosen(packets, fates[..n], fate) + (if fates[n] == fate then [packets[n]] else [])
  }

  lemma ChosenNext(packets: seq<seq<Byte>>, fates: seq<Fate>, fate: Fate, f: Fate)
    requires |fates| < |packets|
    ensures Chosen(packets, fates + [fate], f)
            == Chosen(packets, fates, f) + (if fate == f then [packets[|fates|]] else [])
  {
    assert (fates + [fate])[..|fates|] == fates;
  }

  /** The packets handed in so far, by what became of them: the buffered ones entered the buffer directly, the waiting
      ones entered it from the queue or are still there; the others are nowhere. */
  ghost predicate Accounted(c: Sender, packets: seq<seq<Byte>>, fates: seq<Fate>)
    reads c
  {
    && |fates| <= |packets|
    && Filter(c.entered, false) == Chosen(packets, fates, Buffered)
    && c.queued == Chosen(packets, fates, Waits)
  }

  /** An active connection with anything to send is sending if and only if the latest SendEx has not failed. */
  ghost predicate Sends(c: Sender)
    reads c, c.sendBuffer
  {
    c.active && (c.sendBuffer.pending != [] || c.sendQueue != []) ==> (c.isSending <==> !c.failed)
  }

  lemma DrivenSends(c: Sender)
    requires c.Driven() && c.NotStalled()
    ensures Sends(c)
  {
  }

  /** What a connection whose packets are no longer than the tail keeps from step to step. */
  ghost predicate Steady(c: Sender, packets: seq<seq<Byte>>, fates: seq<Fate>)
    reads c, c.sendBuffer, c.sendBuffer.queueBuffer, c.EncoderRepr()
  {
    && c.Valid() && c.NotStalled() && Accounted(c, packets, fates)
    && 0 < c.sendBuffer.extraSize && c.sendBuffer.extraSize + 2 <= c.sendBuffer.queueSize
    && (forall p :: p in packets ==> |p| <= c.sendBuffer.extraSize)
    && (forall p :: p in c.queued ==> |p| <= c.sendBuffer.extraSize)
  }

  /** The next packet is pushed. The socket may fail and other threads may close the connection. */
  method PushNext(c: Sender, packets: seq<seq<Byte>>, ghost fates: seq<Fate>, next: nat) returns (ghost fate: Fate)
    requires Steady(c, packets, fates) && next == |fates| < |packets|
    modifies c, c.sendBuffer, c.sendBuffer.queueBuffer, c.EncoderRepr()
    ensures Steady(c, packets, fates + [fate]) && c.wire == old(c.wire)
  {
    hide HoldsAt, WrittenInOrder, CircularQueue.Valid, Sender.Ring, Flatten, Bytes, Available, Chosen;
    var socketRc: int, mayClose: bool := *, *;
    ghost var was, e := c.entered, c.EncoderNow();
    var p := packets[next];
    assert p in packets;
    AlwaysFits(c.sendBuffer.queueSize, c.sendBuffer.extraSize, |p|);
    var rc;
    rc, fate := c.PushPacket(p, socketRc, mayClose);
    c.BufferOk();
    c.PositionOk();
    ChosenNext(packets, fates, fate, Buffered);
    ChosenNext(packets, fates, fate, Waits);
    if fate == Buffered {
      SnocEntry(was, Entry(p, Written(e, p), false));
    }
  }

  /** The send under way completes, wholly or in part. */
  method CompleteNext(c: Sender, packets: seq<seq<Byte>>, ghost fates: seq<Fate>)
    requires Steady(c, packets, fates) && c.outstanding == 1
    modifies c, c.sendBuffer, c.sendBuffer.queueBuffer, c.EncoderRepr()
    ensures Steady(c, packets, fates) && old(c.wire) <= c.wire
  {
    hide HoldsAt, WrittenInOrder, CircularQueue.Valid, Sender.Ring, Flatten, Bytes, Available, Chosen;
    var socketRc: int, mayClose: bool := *, *;
    var n :| 0 <= n <= c.wsabufLen;
    var rc := c.CompleteSend(n, socketRc, mayClose);
    c.BufferOk();
    c.PositionOk();
    if c.sendQueue != [] {
      assert c.sendQueue[0] in c.queued;
      AlwaysFits(c.sendBuffer.queueSize, c.sendBuffer.extraSize, |c.sendQueue[0]|);
    }
  }

  /** Every reachable state of a connection whose packets are no longer than the tail. Each packet is accounted for, and
      an active connection with anything to send is sending, unless the latest SendEx failed. */
  method Run(c: Sender, packets: seq<seq<Byte>>) returns (ghost fates: seq<Fate>)
    requires c.Valid() && c.NotStalled() && c.queued == [] && c.entered == []
    requires c.sendBuffer.extraSize + 2 <= c.sendBuffer.queueSize
    requires forall p :: p in packets ==> |p| <= c.sendBuffer.extraSize
    modifies c, c.sendBuffer, c.sendBuffer.queueBuffer, c.EncoderRepr()
    ensures c.Valid() && Sends(c) && Accounted(c, packets, fates)
  {
    hide HoldsAt, WrittenInOrder, CircularQueue.Valid, Sender.Ring, Flatten, Bytes, Sender.NotStalled;
    c.BufferOk();
    var next := 0;
    fates := [];
    var turns: nat := *;
    while turns > 0
      invariant Steady(c, packets, fates) && next == |fates|
    {
      if * {
        if next < |packets| {
          ghost var fate := PushNext(c, packets, fates, next);
          fates, next := fates + [fate], next + 1;
        }
      } else if c.outstanding == 1 {
        CompleteNext(c, packets, fates);
      }
      turns := turns - 1;
    }
    DrivenSends(c);
  }

  /** The bound on the used size is needed, and the check of the packet length does not give it: a packet of four bytes
      that announces three passes a limit of three, is put into the queue of an idle connection and stays there until
      another packet enters the buffer. */
  method StallWitness() returns (c: Sender)
    ensures c.Valid() && c.active && !c.failed
    ensures !c.NotStalled() && c.sendBuffer.pending == [] && c.outstanding == 0
  {
    hide HoldsAt, WrittenInOrder, Flatten, Bytes, Filter;
    c := new Sender(3, 2, 3, true, null);
    var p1, p2, p3: seq<Byte> := [1, 0, 7], [0, 0], [1, 0, 7, 7];
    assert HasBody(p1) && PacketSize(p1) == 3 && HasBody(p2) && PacketSize(p2) == 2 && HasBody(p3);
    assert PacketSize(p3) == 3;
    hide HasBody, PacketSize, BodyLength;
    var rc, fate := c.PushPacket(p1, 0, false);
    rc := c.CompleteSend(3, 0, false);
    rc, fate := c.PushPacket(p2, 0, false);
    rc := c.CompleteSend(2, 0, false);
    rc, fate := c.PushPacket(p3, 0, false);
  }

  /** PushPacket hands the error of SendEx to its caller and leaves the connection open: with every packet within the
      tail, the buffer and the queue both hold packets and nothing is being sent. */
  method FailedSendWitness() returns (c: Sender)
    ensures c.Valid() && c.active && c.failed && !c.disconnected
    ensures !c.isSending && c.outstanding == 0 && c.sendBuffer.extraSize == 8
    ensures |c.sendBuffer.pending| == 8 && c.sendQueue == [[5, 0, 1, 2, 3, 4, 5]]
  {
    hide HoldsAt, WrittenInOrder, Flatten, Bytes, Filter, Written;
    c := new Sender(8, 2, 8, true, null);
    var p1, p2: seq<Byte> := [6, 0, 1, 2, 3, 4, 5, 6], [5, 0, 1, 2, 3, 4, 5];
    assert HasBody(p1) && PacketSize(p1) == 8 && HasBody(p2) && PacketSize(p2) == 7;
    hide HasBody, PacketSize, BodyLength;
    var rc, fate := c.PushPacket(p1, 5, false);
    rc, fate := c.PushPacket(p2, 0, false);
  }

  /** Order is kept among the packets that wait and among those that do not, but not between the
      two: a short packet is buffered at once while a longer, earlier one is still waiting. */
  method OvertakingWitness() returns (c: Sender)
    ensures c.Valid() && c.active
    ensures |c.entered| == 2 && c.entered[1].plain == [0, 0] && c.sendQueue == [[5, 0, 1, 2, 3, 4, 5]]
  {
    hide HoldsAt, WrittenInOrder, Flatten, Bytes, Filter, Written;
    c := new Sender(8, 2, 8, true, null);
    var p1, p2, p3: seq<Byte> := [6, 0, 1, 2, 3, 4, 5, 6], [5, 0, 1, 2, 3, 4, 5], [0, 0];
    assert HasBody(p1) && PacketSize(p1) == 8 && HasBody(p2) && PacketSize(p2) == 7 && HasBody(p3);
    assert PacketSize(p3) == 2;
    hide HasBody, PacketSize, BodyLength;
    var rc, fate := c.PushPacket(p1, 0, false);
    rc, fate := c.PushPacket(p2, 0, false);
    rc, fate := c.PushPacket(p3, 0, false);
  }
}
