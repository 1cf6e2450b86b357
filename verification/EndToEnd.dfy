/** From one connection's PushPacket to another's PopPacket, without an encoder. */
module EndToEnd {
  import opened Memory
  import opened Framing
  import opened SendHistory
  import opened Sending
  import R = Receiving

  lemma {:induction false} ChosenIn(packets: seq<seq<Byte>>, fates: seq<Fate>, fate: Fate, p: seq<Byte>)
    requires |fates| <= |packets| && p in Chosen(packets, fates, fate)
    ensures p in packets
  {
    if fates != [] {
      var n := |fates| - 1;
      if p in Chosen(packets, fates[..n], fate) {
        ChosenIn(packets, fates[..n], fate, p);
      }
    }
  }

  /** Nothing enters the buffer that was not handed in. */
  lemma EnteredWasPushed(c: Sender, packets: seq<seq<Byte>>, fates: seq<Fate>, i: nat)
    requires c.Conserved() && Accounted(c, packets, fates) && i < |c.entered|
    ensures c.entered[i].plain in packets
  {
    hide WrittenInOrder, Flatten, Bytes, Filter, Chosen;
    var x := c.entered[i];
    EntryIn(c.entered, i);
    if x.waited {
      assert x.plain in Filter(c.entered, true) + c.sendQueue;
      ChosenIn(packets, fates, Waits, x.plain);
    } else {
      ChosenIn(packets, fates, Buffered, x.plain);
    }
  }

  /** Whatever part of the sender's bytes the receiver has seen frames to the first of the packets that entered the
      buffer, and to all of them when it has seen all. */
  lemma WireFrames(c: Sender, packets: seq<seq<Byte>>, fates: seq<Fate>, n: nat, maxSize: nat)
    requires c.Conserved() && c.encoder == null && Accounted(c, packets, fates) && n <= |c.wire|
    requires forall p :: p in packets ==> IsPacket(p, maxSize)
    ensures Frame(c.wire[..n], maxSize).packets <= Plain(c.entered) && !Frame(c.wire[..n], maxSize).oversize
    ensures n == |c.wire| && c.sendBuffer.pending == [] ==> Frame(c.wire, maxSize).packets == Plain(c.entered)
  {
    hide Flatten, Filter, Frame, IsPacket, ArePackets, Accounted;
    WrittenPlain(c.firstEncoder, c.entered);
    var ps := Plain(c.entered);
    forall i | 0 <= i < |ps|
      ensures IsPacket(ps[i], maxSize)
    {
      EnteredWasPushed(c, packets, fates, i);
    }
    ArePacketsAll(ps, maxSize);
    assert c.wire[..n] <= c.wire + c.sendBuffer.pending;
    ReceiverFrames(ps, c.wire[..n], maxSize);
    assert c.wire[..|c.wire|] == c.wire;
  }

  /** What holds of the two connections at every moment, when the receiver has taken `taken` bytes off the wire. */
  ghost predicate Joined(c: Sender, r: R.Receiver, packets: seq<seq<Byte>>, fates: seq<Fate>, taken: nat, rc: int,
                         cancelled: bool)
    reads c, c.sendBuffer, c.sendBuffer.queueBuffer, c.EncoderRepr(), r, r.recvBuffer, r.recvBuffer.queueBuffer
  {
    && c.encoder == null && Steady(c, packets, fates) && R.InTurn(r, c.wire, taken, rc, cancelled)
    && (cancelled ==> rc == 1)
    && c.sendBuffer != r.recvBuffer && c.sendBuffer.queueBuffer != r.recvBuffer.queueBuffer
  }

  /** The wire only grows, and what has been taken of it stays. */
  lemma WireGrows(r: R.Receiver, wire: seq<Byte>, longer: seq<Byte>, taken: nat, rc: int, cancelled: bool)
    requires R.InTurn(r, wire, taken, rc, cancelled) && wire <= longer
    ensures R.InTurn(r, longer, taken, rc, cancelled)
  {
    hide Frame, R.Receiver.Valid, R.Receiver.Announced;
    assert longer[..taken] == wire[..taken];
  }

  /** In every such state the packets popped are the first of those that entered the buffer, so are the ones announced,
      and none is too long; with nothing left on the way they are all of them. */
  lemma JoinedFrames(c: Sender, r: R.Receiver, packets: seq<seq<Byte>>, fates: seq<Fate>, taken: nat, rc: int,
                     cancelled: bool)
    requires Joined(c, r, packets, fates, taken, rc, cancelled)
    requires forall p :: p in packets ==> IsPacket(p, r.maxPacketSize)
    ensures c.Valid() && r.Valid() && Accounted(c, packets, fates) && Sends(c)
    ensures taken <= |c.wire| && r.received == c.wire[..taken]
    ensures r.popped <= r.Announced() <= Plain(c.entered) && !Frame(r.received, r.maxPacketSize).oversize
    ensures r.received == c.wire && c.sendBuffer.pending == [] ==> r.Announced() == Plain(c.entered)
  {
    hide Sender.Ring, Sender.OneSend, Frame, IsPacket, Accounted, Plain, R.Receiver.Valid;
    WireFrames(c, packets, fates, taken, r.maxPacketSize);
    WholeWire(c.wire, taken);
    DrivenSends(c);
  }

  lemma WholeWire(wire: seq<Byte>, taken: nat)
    requires taken <= |wire|
    ensures wire[..taken] == wire ==> taken == |wire|
  {
  }

  /** The sender takes a step: a packet is pushed, or the send under way completes. */
  method SenderTurn(c: Sender, r: R.Receiver, packets: seq<seq<Byte>>, ghost fates: seq<Fate>, next: nat, push: bool,
                    ghost taken: nat, ghost rc: int, ghost cancelled: bool)
    returns (ghost now: seq<Fate>)
    requires Joined(c, r, packets, fates, taken, rc, cancelled) && next == |fates|
    requires if push then next < |packets| else c.outstanding == 1
    modifies c, c.sendBuffer, c.sendBuffer.queueBuffer
    ensures Joined(c, r, packets, now, taken, rc, cancelled) && |now| == next + (if push then 1 else 0)
  {
    hide Steady, R.InTurn;
    ghost var wire := c.wire;
    now := fates;
    if push {
      ghost var fate := PushNext(c, packets, fates, next);
      now := fates + [fate];
    } else {
      CompleteNext(c, packets, fates);
    }
    WireGrows(r, wire, c.wire, taken, rc, cancelled);
  }

  /** The receiver takes a step: some of the bytes on the wire arrive and are completed, or the processor goes on. */
  method ReceiverTurn(c: Sender, r: R.Receiver, ghost packets: seq<seq<Byte>>, ghost fates: seq<Fate>, taken: nat,
                      rc: int,
                      cancelled: bool, receive: bool)
    returns (rc': int, now: nat, cancelled': bool)
    requires Joined(c, r, packets, fates, taken, rc, cancelled)
    requires receive ==> rc == 0 && r.recvPosted && taken < |c.wire|
    modifies r, r.recvBuffer, r.recvBuffer.queueBuffer
    ensures Joined(c, r, packets, fates, now, rc', cancelled')
  {
    hide Steady, R.InTurn;
    rc', now, cancelled' := rc, taken, cancelled;
    if receive {
      rc', now, cancelled' := R.Turn(r, c.wire, taken);
    } else {
      R.ProcessorTurn(r, c.wire, taken, rc, cancelled);
    }
    assert c.EncoderRepr() == {};
  }

  lemma SteadyAtStart(c: Sender, packets: seq<seq<Byte>>)
    requires c.Valid() && c.NotStalled() && c.queued == [] && c.entered == []
    requires c.sendBuffer.extraSize + 2 <= c.sendBuffer.queueSize
    requires forall p :: p in packets ==> |p| <= c.sendBuffer.extraSize
    ensures Steady(c, packets, []) && c.wire == []
  {
    hide Sender.Ring, Sender.OneSend, Sender.Driven, Sender.NotStalled;
    c.BufferOk();
  }

  /** The receiver's first receive is posted. */
  method FirstTurn(c: Sender, r: R.Receiver, packets: seq<seq<Byte>>) returns (rc: int)
    requires Steady(c, packets, []) && c.encoder == null && c.wire == []
    requires r.Valid() && !r.recvPosted && r.received == [] && r.Announced() == []
    requires c.sendBuffer != r.recvBuffer && c.sendBuffer.queueBuffer != r.recvBuffer.queueBuffer
    modifies r, r.recvBuffer, r.recvBuffer.queueBuffer
    ensures Joined(c, r, packets, [], 0, rc, false)
  {
    hide Steady, R.Receiver.Valid, R.Receiver.Announced;
    assert c.wire[..0] == [];
    assert Frame([], r.maxPacketSize) == Frames([], [], false);
    hide Frame;
    var socketRc: int :| socketRc >= 0;
    rc := r.FirstRecv(socketRc);
    assert c.EncoderRepr() == {};
  }

  /** Packets are pushed and sent while sends complete or fail, what is on the wire arrives in receives and pieces of
      any size, and the other side pops, in any order of these. At every moment, and so whenever this ends, the packets
      popped are the first of those that entered the sender's buffer, unchanged and in order, and all of them if nothing
      is on its way any more. */
  method SendAndReceive(c: Sender, r: R.Receiver, packets: seq<seq<Byte>>) returns (ghost fates: seq<Fate>)
    requires c.Valid() && c.NotStalled() && c.queued == [] && c.entered == [] && c.encoder == null
    requires c.sendBuffer.extraSize + 2 <= c.sendBuffer.queueSize
    requires r.Valid() && !r.recvPosted && r.received == [] && r.Announced() == []
    requires c.sendBuffer != r.recvBuffer && c.sendBuffer.queueBuffer != r.recvBuffer.queueBuffer
    requires forall p :: p in packets ==> IsPacket(p, r.maxPacketSize) && |p| <= c.sendBuffer.extraSize
    modifies c, c.sendBuffer, c.sendBuffer.queueBuffer
    modifies r, r.recvBuffer, r.recvBuffer.queueBuffer
    ensures c.Valid() && r.Valid() && Accounted(c, packets, fates) && Sends(c)
    ensures r.received <= c.wire && r.popped <= r.Announced() <= Plain(c.entered)
    ensures !Frame(r.received, r.maxPacketSize).oversize
    ensures r.received == c.wire && c.sendBuffer.pending == [] && r.frames == [] ==> r.popped == Plain(c.entered)
  {
    hide Sender.Ring, Sender.Conserved, Sender.OneSend, Sender.Driven, Sender.NotStalled, R.Receiver.Valid;
    hide Frame, IsPacket, Accounted, Plain;
    fates := [];
    var next: nat, taken: nat, cancelled := 0, 0, false;
    SteadyAtStart(c, packets);
    var rc := FirstTurn(c, r, packets);
    hide R.Receiver.Announced, Steady, R.InTurn;
    var turns: nat := *;
    while turns > 0
      invariant Joined(c, r, packets, fates, taken, rc, cancelled) && next == |fates|
    {
      var who: nat := *;
      if who == 0 && next < |packets| {
        fates := SenderTurn(c, r, packets, fates, next, true, taken, rc, cancelled);
        next := next + 1;
      } else if who == 1 && c.outstanding == 1 {
        fates := SenderTurn(c, r, packets, fates, next, false, taken, rc, cancelled);
      } else if who > 1 {
        var receive := who == 2 && rc == 0 && r.recvPosted && taken < |c.wire|;
        rc, taken, cancelled := ReceiverTurn(c, r, packets, fates, taken, rc, cancelled, receive);
      }
      turns := turns - 1;
    }
    JoinedFrames(c, r, packets, fates, taken, rc, cancelled);
  }
}
