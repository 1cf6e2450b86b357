/** The receiving protocol on values: the steps of the kernel, of the worker thread and of the
    processor thread on one ring, and the invariant that every interleaving of them keeps. */
module ReceiveProtocol {
  import opened Memory
  import opened Framing
  import opened CircularQueue
  import opened Views

  datatype State = State(
    q: nat, e: nat,                    // ring size; size of the tail and limit for a packet
    buf: seq<Byte>, pop: nat, push: nat, work: nat,
    posted: bool, len: nat,            // the receive handed to the kernel
    events: nat, attached: bool,       // messages not yet taken; the processor is at a packet
    seen: seq<Byte>,                   // what that packet read when it was attached
    pending: seq<Byte>,                // bytes between pop and push
    arriving: seq<Byte>,               // bytes of the posted receive written so far
    received: seq<Byte>,               // all bytes whose receive has completed
    popped: seq<seq<Byte>>,            // packets as they read when they were released
    frames: seq<seq<Byte>>)            // packets announced and not yet released

  predicate Shape(s: State)
  {
    && HEADER_SIZE < s.e <= s.q
    && |s.buf| == s.q + s.e
    && s.pop < s.q
    && |Flatten(s.frames)| <= |s.pending| < s.q
  }

  /** The cursors, the bytes between them, and the contiguous views of the announced packets. */
  predicate RingOk(s: State)
    requires Shape(s)
  {
    && s.push == Wrap(s.q, s.pop, |s.pending|)
    && s.work == Wrap(s.q, s.pop, |Flatten(s.frames)|)
    && HoldsAt(s.buf, s.q, s.pop, s.pending)
    && FramesAt(s.buf, s.q, s.pop, s.frames)
  }

  /** Nothing is lost, added or reordered, and every packet is one packet of the stream. */
  predicate HistoryOk(s: State)
    requires Shape(s)
  {
    && s.received == Flatten(s.popped) + s.pending
    && s.pending[..|Flatten(s.frames)|] == Flatten(s.frames)
    && ArePackets(s.popped, s.e)
    && ArePackets(s.frames, s.e)
  }

  predicate ConsumerOk(s: State)
  {
    && |s.frames| == s.events + (if s.attached then 1 else 0)
    && (s.attached ==> s.seen == s.frames[0])
  }

  predicate KernelOk(s: State)
    requires Shape(s)
  {
    s.posted ==>
      && |s.arriving| <= s.len
      && |s.pending| + s.len < s.q
      && s.push + s.len <= |s.buf|
      && s.buf[s.push..s.push + |s.arriving|] == s.arriving
  }

  predicate Inv(s: State)
  {
    Shape(s) && RingOk(s) && HistoryOk(s) && ConsumerOk(s) && KernelOk(s)
  }

  /** The bytes received but not yet framed. */
  function Rest(s: State): seq<Byte>
  {
    if |Flatten(s.frames)| <= |s.pending| then s.pending[|Flatten(s.frames)|..] else []
  }

  // ---- steps ----

  /** The kernel writes more bytes of the posted receive. */
  function Deliver(s: State, bytes: seq<Byte>): State
    requires s.push + |s.arriving| + |bytes| <= |s.buf|
  {
    s.(buf := Splice(s.buf, s.push + |s.arriving|, bytes), arriving := s.arriving + bytes)
  }

  /** IncreasePushPos for a completed receive: what ran into the tail goes to the start. */
  function Complete(s: State): State
    requires s.push < s.q <= |s.buf| && s.push + |s.arriving| <= |s.buf| <= 2 * s.q && |s.arriving| <= s.q
  {
    s.(buf := Pushed(s.buf, s.q, s.push + |s.arriving|),
       push := Wrap(s.q, s.push, |s.arriving|),
       posted := false,
       arriving := [],
       pending := s.pending + s.arriving,
       received := s.received + s.arriving)
  }

  /** MakeSureCompletedPacket copies `n` bytes from the start of the ring into the tail. */
  function Mirror(s: State, from: nat, n: nat): State
    requires from + n <= s.q && s.q + from + n <= |s.buf|
  {
    s.(buf := Splice(s.buf, s.q + from, s.buf[from..from + n]))
  }

  /** IncreaseWorkPos and the NETEVENT_RECV message for a packet of `n` bytes. */
  function Announce(s: State, n: nat): State
    requires s.work < s.q && n <= s.q && s.work + n <= |s.buf|
  {
    s.(work := Wrap(s.q, s.work, n),
       events := s.events + 1,
       frames := s.frames + [s.buf[s.work..s.work + n]])
  }

  /** PostRecv hands the kernel `len` bytes from the push position. */
  function Post(s: State, len: nat): State
  {
    s.(posted := true, len := len, arriving := [])
  }

  /** The length the processor reads from the header at the pop position. */
  function SizeAtPop(s: State): nat
    requires s.pop + HEADER_SIZE <= |s.buf|
  {
    PacketSize(s.buf[s.pop..s.pop + HEADER_SIZE])
  }

  /** One message is taken and PopPacket attaches to the bytes at the pop position. */
  function Attach(s: State): State
    requires s.events > 0 && s.pop + HEADER_SIZE <= |s.buf| && s.pop + SizeAtPop(s) <= |s.buf|
  {
    s.(events := s.events - 1, attached := true, seen := s.buf[s.pop..s.pop + SizeAtPop(s)])
  }

  /** After the dispatch the length is read again and IncreasePopPos releases the packet.
      What counts as popped is what stands in the buffer now. */
  function Release(s: State): State
    requires s.pop < s.q && s.pop + HEADER_SIZE <= |s.buf|
    requires s.pop + SizeAtPop(s) <= |s.buf| && SizeAtPop(s) <= s.q && SizeAtPop(s) <= |s.pending|
    requires s.frames != []
  {
    var n := SizeAtPop(s);
    s.(pop := Wrap(s.q, s.pop, n),
       attached := false,
       pending := s.pending[n..],
       popped := s.popped + [s.buf[s.pop..s.pop + n]],
       frames := s.frames[1..])
  }

  // ---- every step keeps the invariant ----

  lemma InitialInv(s: State)
    requires HEADER_SIZE < s.e <= s.q && |s.buf| == s.q + s.e
    requires s.pop == s.push == s.work == 0 && !s.posted && s.events == 0 && !s.attached
    requires s.pending == [] && s.received == [] && s.popped == s.frames == []
    ensures Inv(s)
  {
  }

  lemma DeliverKeeps(s: State, bytes: seq<Byte>)
    requires Inv(s) && s.posted && |s.arriving| + |bytes| <= s.len
    ensures Inv(Deliver(s, bytes))
  {
    hide HoldsAt, FramesAt, ArePackets, Flatten;
    var t := Deliver(s, bytes);
    var at := s.push + |s.arriving|;
    WriteAfterPush(s.buf, t.buf, s.q, s.pop, s.pending, s.frames, at, at + |bytes|);
    assert t.buf[s.push..at] == s.buf[s.push..at];
    assert t.buf[s.push..at + |bytes|] == t.buf[s.push..at] + t.buf[at..at + |bytes|];
  }

  lemma RoomToDeliver(s: State)
    requires Inv(s) && s.posted
    ensures s.push + s.len <= |s.buf| && |s.arriving| <= s.len
  {
  }

  lemma CompleteKeeps(s: State)
    requires Inv(s) && s.posted
    ensures Inv(Complete(s)) && Rest(Complete(s)) == Rest(s) + s.arriving
  {
    hide HoldsAt, FramesAt, ArePackets, Flatten;
    var t := Complete(s);
    PushHolds(s.buf, t.buf, s.q, s.pop, s.pending, s.push, s.arriving);
    FramesKept(s.buf, t.buf, s.q, s.pop, s.frames, |s.pending|);
    ConcatAssociative(Flatten(s.popped), s.pending, s.arriving);
  }

  lemma MirrorKeeps(s: State, from: nat, n: nat)
    requires Inv(s) && !s.posted && from + n <= s.e
    requires s.pop + |Flatten(s.frames)| < s.q
    ensures Inv(Mirror(s, from, n))
  {
    var t := Mirror(s, from, n);
    assert t.buf[..s.q] == s.buf[..s.q];
    WriteTail(s.buf, t.buf, s.q, s.pop, s.pending, s.frames);
  }

  lemma AnnounceRing(s: State, n: nat)
    requires Inv(s)
    requires n <= |Rest(s)| && s.work + n <= |s.buf| && s.buf[s.work..s.work + n] == Rest(s)[..n]
    ensures var t := Announce(s, n);
            Shape(t) && RingOk(t) && |Flatten(t.frames)| == |Flatten(s.frames)| + n
  {
    hide HoldsAt, FramesAt, ArePackets;
    FlattenSnoc(s.frames, Rest(s)[..n]);
    FramesSnoc(s.buf, s.q, s.pop, s.frames, Rest(s)[..n]);
  }

  lemma AnnounceHistory(s: State, f: seq<Byte>)
    requires |Flatten(s.frames)| + |f| <= |s.pending|
    requires f == s.pending[|Flatten(s.frames)|..][..|f|]
    requires s.pending[..|Flatten(s.frames)|] == Flatten(s.frames)
    ensures var t := s.frames + [f];
            && |Flatten(t)| <= |s.pending|
            && s.pending[..|Flatten(t)|] == Flatten(t)
            && s.pending[|Flatten(t)|..] == s.pending[|Flatten(s.frames)|..][|f|..]
  {
    FlattenSnoc(s.frames, f);
    assert s.pending[..|Flatten(s.frames)| + |f|] == s.pending[..|Flatten(s.frames)|] + f;
  }

  lemma AnnounceKeeps(s: State, n: nat)
    requires Inv(s) && !s.posted
    requires n <= |Rest(s)| && s.work + n <= |s.buf| && s.buf[s.work..s.work + n] == Rest(s)[..n]
    requires IsPacket(Rest(s)[..n], s.e)
    ensures Inv(Announce(s, n))
    ensures Rest(Announce(s, n)) == Rest(s)[n..]
  {
    hide RingOk, HoldsAt, FramesAt, Flatten, ArePackets, Wrap, IsPacket, PacketSize;
    AnnounceRing(s, n);
    AnnounceHistory(s, Rest(s)[..n]);
    ArePacketsSnoc(s.frames, Rest(s)[..n], s.e);
  }

  lemma PostKeeps(s: State, len: nat)
    requires Inv(s) && |s.pending| + len < s.q && s.push + len <= |s.buf|
    ensures Inv(Post(s, len))
  {
  }

  /** The processor always finds the oldest announced packet, whole and unbroken. */
  lemma FrontIntact(s: State)
    requires Inv(s) && s.frames != []
    ensures s.pop + |s.frames[0]| <= |s.buf| && s.buf[s.pop..s.pop + |s.frames[0]|] == s.frames[0]
    ensures s.pop + HEADER_SIZE <= |s.buf| && SizeAtPop(s) == |s.frames[0]| <= |s.pending|
  {
    var f := s.frames[0];
    assert s.buf[s.pop] == s.buf[s.pop..s.pop + |f|][0];
    assert s.buf[s.pop + 1] == s.buf[s.pop..s.pop + |f|][1];
  }

  lemma AttachKeeps(s: State)
    requires Inv(s) && s.events > 0 && !s.attached
    ensures s.pop + HEADER_SIZE <= |s.buf| && s.pop + SizeAtPop(s) <= |s.buf|
    ensures Inv(Attach(s))
  {
    FrontIntact(s);
  }

  lemma ReleaseKeeps(s: State)
    requires Inv(s) && s.attached
    ensures s.pop + HEADER_SIZE <= |s.buf| && s.pop + SizeAtPop(s) <= |s.buf|
    ensures SizeAtPop(s) <= s.q && SizeAtPop(s) <= |s.pending|
    ensures s.frames != [] && s.buf[s.pop..s.pop + SizeAtPop(s)] == s.seen
    ensures Inv(Release(s))
    ensures Rest(Release(s)) == Rest(s)
  {
    FrontIntact(s);
    ReleaseRing(s);
    ReleaseHistory(s);
    ReleaseKernel(s, Release(s));
    hide RingOk, HistoryOk, KernelOk, HoldsAt, FramesAt, ArePackets, PacketSize, SizeAtPop, Flatten, Rest;
  }

  lemma ReleaseRing(s: State)
    requires Inv(s) && s.frames != []
    requires s.pop + HEADER_SIZE <= |s.buf| && SizeAtPop(s) == |s.frames[0]| && s.pop + |s.frames[0]| <= |s.buf|
    requires |s.frames[0]| <= s.q && |s.frames[0]| <= |s.pending|
    ensures var t := Release(s); Shape(t) && RingOk(t)
  {
    hide SizeAtPop, ArePackets;
    assert Flatten(s.frames) == s.frames[0] + Flatten(s.frames[1..]);
    DropHolds(s.buf, s.q, s.pop, s.pending, |s.frames[0]|);
    hide HoldsAt;
  }

  lemma ReleaseHistory(s: State)
    requires Inv(s) && s.frames != []
    requires s.pop + HEADER_SIZE <= |s.buf| && SizeAtPop(s) == |s.frames[0]| && s.pop + |s.frames[0]| <= |s.buf|
    requires |s.frames[0]| <= s.q && |s.frames[0]| <= |s.pending|
    requires s.buf[s.pop..s.pop + |s.frames[0]|] == s.frames[0]
    ensures var t := Release(s); Shape(t) && HistoryOk(t) && Rest(t) == Rest(s)
  {
    hide SizeAtPop, RingOk, KernelOk, Flatten, ArePackets, IsPacket;
    var f := s.frames[0];
    FlattenHead(s.frames);
    ArePacketsTail(s.frames, s.e);
    PendingWithoutFront(s.pending, f, Flatten(s.frames[1..]));
    FlattenSnoc(s.popped, f);
    ConcatAssociative(Flatten(s.popped), f, s.pending[|f|..]);
    ArePacketsSnoc(s.popped, f, s.e);
  }

  lemma PendingWithoutFront(pending: seq<Byte>, f: seq<Byte>, g: seq<Byte>)
    requires |f + g| <= |pending| && pending[..|f + g|] == f + g
    ensures pending == f + pending[|f|..]
    ensures pending[|f|..][..|g|] == g
    ensures pending[|f|..][|g|..] == pending[|f + g|..]
  {
    assert pending == (f + g) + pending[|f + g|..];
  }

  lemma ReleaseKernel(s: State, t: State)
    requires Shape(s) && Shape(t) && KernelOk(s)
    requires t.buf == s.buf && t.q == s.q && t.push == s.push && t.posted == s.posted && t.len == s.len
    requires t.arriving == s.arriving && |t.pending| <= |s.pending|
    ensures KernelOk(t)
  {
  }

  // ---- what the invariant means for the stream ----

  lemma {:induction false} ArePacketsConcat(a: seq<seq<Byte>>, b: seq<seq<Byte>>, maxSize: nat)
    requires ArePackets(a, maxSize) && ArePackets(b, maxSize)
    ensures ArePackets(a + b, maxSize)
  {
    if a == [] {
      assert a + b == b;
    } else {
      assert (a + b)[1..] == a[1..] + b;
      ArePacketsConcat(a[1..], b, maxSize);
    }
  }

  /** In every reachable state the announced packets, popped or not, are the first packets of
      the stream received so far, however it was cut into receives. */
  lemma AnnouncedIsFraming(s: State)
    requires Inv(s)
    ensures var r := Frame(Rest(s), s.e);
            Frame(s.received, s.e) == Frames(s.popped + s.frames + r.packets, r.rest, r.oversize)
  {
    hide HoldsAt, FramesAt;
    ArePacketsConcat(s.popped, s.frames, s.e);
    FlattenConcat(s.popped, s.frames);
    assert s.pending == Flatten(s.frames) + Rest(s);
    ConcatAssociative(Flatten(s.popped), Flatten(s.frames), Rest(s));
    FrameComplete(s.popped + s.frames, Rest(s), s.e);
  }

  /** Between receives nothing whole is left unannounced: the announced packets are exactly the
      framing of everything received. */
  lemma QuiescentFraming(s: State)
    requires Inv(s) && !Classify(Rest(s), s.e).Ready?
    ensures Frame(s.received, s.e)
            == Frames(s.popped + s.frames, Rest(s), Classify(Rest(s), s.e).Oversize?)
  {
    hide Inv;
    AnnouncedIsFraming(s);
    assert s.popped + s.frames + [] == s.popped + s.frames;
  }

  /** Mirror safety: whatever has happened since the processor attached, its packet still reads,
      in one piece, as it did then, and is the next packet of the stream. */
  lemma AttachedIntact(s: State)
    requires Inv(s) && s.attached
    ensures s.pop + |s.seen| <= |s.buf| && s.buf[s.pop..s.pop + |s.seen|] == s.seen
    ensures IsPacket(s.seen, s.e)
    ensures |s.popped| < |Frame(s.received, s.e).packets|
            && Frame(s.received, s.e).packets[|s.popped|] == s.seen
  {
    FrontIntact(s);
    AnnouncedIsFraming(s);
  }

  // ---- what the worker thread may rely on while others run ----

  /** The worker's own view of the state is as it was: its cursors, the posted receive, the
      stream, the unframed rest and the packets announced so far. Space may have been freed. */
  predicate Undisturbed(s: State, t: State)
  {
    && t.q == s.q && t.e == s.e && t.push == s.push && t.work == s.work
    && t.posted == s.posted && t.len == s.len && t.arriving == s.arriving
    && t.received == s.received && Rest(t) == Rest(s)
    && t.popped + t.frames == s.popped + s.frames
    && |t.pending| <= |s.pending|
  }

  /** Both states tell the same story of the stream. */
  predicate SameStream(s: State, t: State)
  {
    && t.q == s.q && t.e == s.e
    && t.received == s.received && Rest(t) == Rest(s)
    && t.popped + t.frames == s.popped + s.frames
  }

  lemma UndisturbedSameStream(s: State, t: State)
    requires Undisturbed(s, t)
    ensures SameStream(s, t) && |t.pending| <= |s.pending|
    ensures t.posted == s.posted && t.push == s.push
  {
  }

  /** Space is freed only by releasing announced packets. */
  lemma FreedByRelease(s: State, t: State)
    requires Inv(s) && Inv(t) && Undisturbed(s, t) && |t.pending| < |s.pending|
    ensures s.frames != []
  {
    hide RingOk, HistoryOk, ConsumerOk, KernelOk;
  }

  lemma ReadyIsShort(s: State, n: nat)
    requires Classify(Rest(s), s.e) == Ready(n)
    ensures 0 < n <= |Rest(s)|
  {
  }

  lemma RoomFor(s: State, t: State)
    requires Inv(s) && Inv(t) && Undisturbed(s, t)
    ensures t.push < t.q && |t.pending| <= |s.pending| < t.q && |t.buf| == t.q + t.e
    ensures var len := Available(t.q, t.e, t.push, |t.pending|);
            && |t.pending| + len < t.q && t.push + len <= |t.buf|
            && (len == 0 ==> |s.pending| == s.q - 1)
  {
  }

  /** Two readings of the room, one after the other. The first one still fits after more pops. The second one is zero
      only if the ring was full, the first one alone only if a packet could be released as well. */
  lemma RoomAfter(s: State, t: State, u: State)
    requires Inv(s) && Inv(t) && Inv(u) && Undisturbed(s, t) && Undisturbed(t, u)
    ensures |u.pending| <= |t.pending| <= |s.pending| < s.q && t.push == u.push < t.q == u.q == s.q && t.e == u.e
    ensures var len, again := Available(t.q, t.e, t.push, |t.pending|), Available(u.q, u.e, u.push, |u.pending|);
            && |u.pending| + len < u.q && u.push + len <= |u.buf|
            && (again == 0 ==> |s.pending| == s.q - 1)
            && (len == 0 && again > 0 ==> |s.pending| == s.q - 1 && s.frames != [])
  {
    hide Inv, Rest;
    RoomFor(s, t);
    RoomFor(t, u);
    UndisturbedRefl(u);
    RoomFor(u, u);
    UndisturbedTrans(s, t, u);
    UndisturbedFacts(s, t);
    if |u.pending| < |s.pending| {
      FreedByRelease(s, u);
    }
  }

  lemma PostSameStream(s: State, t: State, len: nat)
    requires SameStream(s, t)
    ensures SameStream(s, Post(t, len))
  {
  }

  lemma PostedFacts(s: State, t: State)
    requires Undisturbed(s, t)
    ensures t.posted == s.posted && t.len == s.len && t.arriving == s.arriving
    ensures t.received == s.received && t.popped + t.frames == s.popped + s.frames
  {
  }

  lemma NoMessagesNoPackets(s: State)
    requires Inv(s) && s.events == 0 && !s.attached
    ensures s.frames == [] && s.popped == s.popped + s.frames
  {
  }

  lemma StreamFacts(s: State, t: State)
    requires SameStream(s, t)
    ensures t.received == s.received && Rest(t) == Rest(s) && t.e == s.e
    ensures t.popped + t.frames == s.popped + s.frames
  {
  }

  lemma SameStreamTrans(s: State, t: State, u: State)
    requires SameStream(s, t) && SameStream(t, u)
    ensures SameStream(s, u)
  {
  }

  /** The receive is taken back; `done` says whether the kernel wrote nothing, in which case
      there is nothing to push either. */
  lemma CancelKeeps(s: State)
    requires Inv(s)
    ensures Inv(s.(posted := false)) && SameStream(s, s.(posted := false))
  {
  }

  lemma CompleteRoom(s: State)
    requires Inv(s) && s.posted
    ensures |s.arriving| < s.q - |s.pending| && s.push + |s.arriving| <= |s.buf| == s.q + s.e <= 2 * s.q
    ensures s.buf[s.push..s.push + |s.arriving|] == s.arriving
    ensures s.push < s.q
  {
    assert s.buf[s.push..s.push + |s.arriving|] == s.arriving;
  }

  lemma AnnounceStream(s: State, n: nat)
    requires Inv(s) && !s.posted && Classify(Rest(s), s.e) == Ready(n) && Contiguous(s, n)
    ensures s.work < s.q && n <= s.q && s.work + n <= |s.buf|
    ensures var t := Announce(s, n);
            && Inv(t) && Rest(t) == Rest(s)[n..] && t.received == s.received && t.posted == s.posted
            && t.popped + t.frames == s.popped + s.frames + [Rest(s)[..n]]
  {
    hide FramesAt, HoldsAt, Flatten;
    TailRoom(s);
    ReadyPrefix(Rest(s), s.e);
    AnnounceKeeps(s, n);
    ConcatAssociative(s.popped, s.frames, [Rest(s)[..n]]);
  }

  lemma UndisturbedRefl(s: State)
    ensures Undisturbed(s, s)
  {
  }

  lemma UndisturbedTrans(s: State, t: State, u: State)
    requires Undisturbed(s, t) && Undisturbed(t, u)
    ensures Undisturbed(s, u)
  {
  }

  lemma UndisturbedFacts(s: State, t: State)
    requires Undisturbed(s, t)
    ensures Rest(t) == Rest(s) && t.q == s.q && t.work == s.work && t.posted == s.posted
  {
  }

  lemma ContiguousKept(s: State, t: State, k: nat)
    requires Undisturbed(s, t) && t.buf == s.buf && Contiguous(s, k)
    ensures Contiguous(t, k)
  {
  }

  lemma AttachUndisturbed(s: State)
    requires Inv(s) && s.events > 0 && !s.attached
    requires s.pop + HEADER_SIZE <= |s.buf| && s.pop + SizeAtPop(s) <= |s.buf|
    ensures Inv(Attach(s)) && Undisturbed(s, Attach(s))
  {
    AttachKeeps(s);
  }

  lemma ReleaseUndisturbed(s: State)
    requires Inv(s) && s.attached
    requires s.pop + HEADER_SIZE <= |s.buf| && s.pop + SizeAtPop(s) <= |s.buf|
    requires SizeAtPop(s) <= s.q && SizeAtPop(s) <= |s.pending| && s.frames != []
    ensures Inv(Release(s)) && Undisturbed(s, Release(s))
  {
    ReleaseKeeps(s);
    FrontIntact(s);
    assert s.frames == [s.frames[0]] + s.frames[1..];
    ConcatAssociative(s.popped, [s.frames[0]], s.frames[1..]);
  }

  /** The first `k` unframed bytes can be read in one piece from the work position. */
  predicate Contiguous(s: State, k: nat)
  {
    k <= |Rest(s)| && s.work + k <= |s.buf| && s.buf[s.work..s.work + k] == Rest(s)[..k]
  }

  lemma ReadHeader(s: State)
    requires Contiguous(s, HEADER_SIZE)
    ensures s.work + HEADER_SIZE <= |s.buf|
    ensures s.buf[s.work] == Rest(s)[0] && s.buf[s.work + 1] == Rest(s)[1]
  {
    var v := s.buf[s.work..s.work + HEADER_SIZE];
    assert v[0] == s.buf[s.work] && v[1] == s.buf[s.work + 1];
  }

  lemma RestAt(s: State, i: nat)
    requires Inv(s) && i < |Rest(s)|
    ensures s.work < s.q && i < s.q && s.buf[Wrap(s.q, s.work, i)] == Rest(s)[i]
  {
    hide FramesAt, ArePackets, HistoryOk, ConsumerOk, KernelOk, Flatten;
    assert Rest(s)[i] == s.pending[|Flatten(s.frames)| + i];
  }

  lemma InsideRing(s: State, k: nat)
    requires Inv(s) && k <= |Rest(s)| && s.work + k <= s.q
    ensures Contiguous(s, k)
  {
    hide FramesAt, HoldsAt;
    forall i | 0 <= i < k
      ensures s.buf[s.work..s.work + k][i] == Rest(s)[i]
    {
      RestAt(s, i);
    }
  }

  /** A packet that goes round the end of the ring is the first unreleased one that does. */
  lemma OnlyOneGoesRound(s: State, k: nat)
    requires Inv(s) && k <= |Rest(s)| && s.q < s.work + k
    ensures s.pop + |Flatten(s.frames)| < s.q
  {
  }

  lemma TailRoom(s: State)
    requires Inv(s)
    ensures s.work < s.q && HEADER_SIZE < s.e <= s.q && |s.buf| == s.q + s.e
  {
  }

  lemma MirrorRest(s: State, from: nat, n: nat)
    requires from + n <= s.q && s.q + from + n <= |s.buf|
    ensures Rest(Mirror(s, from, n)) == Rest(s)
  {
  }

  /** Copying the next wrapped bytes after those already mirrored extends the piece. */
  lemma MirrorExtends(s: State, from: nat, n: nat)
    requires Inv(s) && !s.posted && from + n <= s.e
    requires s.work < s.q && Contiguous(s, s.q - s.work + from)
    requires s.q - s.work + from + n <= |Rest(s)| && 0 < from + n
    ensures Inv(Mirror(s, from, n)) && Undisturbed(s, Mirror(s, from, n))
    ensures Contiguous(Mirror(s, from, n), s.q - s.work + from + n)
  {
    hide Inv, Rest, Flatten;
    TailRoom(s);
    var k, t := s.q - s.work + from, Mirror(s, from, n);
    OnlyOneGoesRound(s, k + n);
    MirrorKeeps(s, from, n);
    MirrorRest(s, from, n);
    hide Undisturbed, Mirror;
    forall i | 0 <= i < k + n
      ensures t.buf[s.work..s.work + k + n][i] == Rest(s)[i]
    {
      MirroredAt(s, from, n, i);
    }
  }

  lemma MirroredAt(s: State, from: nat, n: nat, i: nat)
    requires Inv(s) && from + n <= s.e
    requires s.work < s.q && Contiguous(s, s.q - s.work + from)
    requires i < s.q - s.work + from + n <= |Rest(s)|
    ensures s.q <= |s.buf| && s.q + from + n <= |s.buf| && s.work + i < |s.buf| && from + n <= s.q
    ensures |Mirror(s, from, n).buf| == |s.buf| && Mirror(s, from, n).buf[s.work + i] == Rest(s)[i]
  {
    hide Inv, Rest, Mirror;
    TailRoom(s);
    MirrorAt(s, from, n, s.work + i);
    var k := s.q - s.work + from;
    if i < k {
      assert s.buf[s.work..s.work + k][i] == Rest(s)[..k][i];
    } else {
      RestAt(s, i);
    }
  }

  lemma MirrorAt(s: State, from: nat, n: nat, j: nat)
    requires from + n <= s.q && s.q + from + n <= |s.buf| && j < s.q + from + n
    ensures |Mirror(s, from, n).buf| == |s.buf|
    ensures Mirror(s, from, n).buf[j] == if j < s.q + from then s.buf[j] else s.buf[j - s.q]
  {
    var t := Mirror(s, from, n);
    if s.q + from <= j {
      assert t.buf[s.q + from..s.q + from + n][j - s.q - from] == s.buf[from..from + n][j - s.q - from];
    }
  }
}
