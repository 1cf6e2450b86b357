/** What the worker thread may read of the ring while the processor thread is in the middle of releasing a packet. */
module ReceiveRaces {
  import opened Memory
  import opened Framing
  import opened CircularQueue
  import opened Views
  import opened ReceiveProtocol
  import opened ReceiveRuns

  // ---- the pop cursor between its two writes ----

  /** The size computed from a pop cursor that has been raised past the end of the ring and not yet corrected, for the
      state in which the release has taken place. */
  function TornSize(s: State): int
  {
    Distance(s.q, s.pop + s.q, s.push)
  }

  /** Releasing from any state: read between the two writes, the cursor gives the size after the release. This is why
      the release can be taken as one step. */
  lemma TornPopRead(s: State, size: nat)
    requires Inv(s) && size <= |s.pending| && s.q <= s.pop + size
    ensures Distance(s.q, s.pop + size, s.push) == |s.pending| - size
  {
    hide HistoryOk, ConsumerOk, KernelOk, HoldsAt, FramesAt, Flatten;
  }

  /** For as long as the correction is outstanding the size is right if and only if the bytes held do not go round the
      end of the ring. */
  lemma TornReadExact(s: State)
    requires Inv(s)
    ensures TornSize(s) == |s.pending| <==> s.pop <= s.push
  {
    hide HistoryOk, ConsumerOk, KernelOk, HoldsAt, FramesAt, Flatten;
  }

  /** The processor is about to release a packet that ends at the end of the ring or behind it. */
  predicate Crosses(s: State)
  {
    Enabled(s, Releasing) && s.q <= s.pop + SizeAtPop(s)
  }

  /** The size may be read wrong at `t`: the processor has raised the cursor at `s` and not corrected it, and the others
      have gone on to `t`. */
  ghost predicate TornWrong(s: State, t: State)
  {
    Crosses(s) && Leads(Others, Release(s), t) && TornSize(t) != |t.pending|
  }

  /** What holds while no receive is posted after the cursor was raised: the bytes held do not go round the end of the
      ring, even with those of a receive that was under way. */
  predicate InFront(s: State)
  {
    Inv(s) && s.pop <= s.push && (s.posted ==> s.push + s.len < s.q)
  }

  lemma CrossedInFront(s: State)
    requires Inv(s) && Crosses(s)
    ensures InFront(Release(s))
  {
    ReleaseKeeps(s);
    hide HistoryOk, ConsumerOk, HoldsAt, FramesAt, Flatten, SizeAtPop;
  }

  lemma InFrontKept(s: State, step: Step)
    requires InFront(s) && By(NoPosting, step) && Enabled(s, step)
    ensures InFront(Do(s, step))
  {
    hide Inv, Splice, Pushed, Rest, Contiguous, Classify;
    StepKeeps(s, step);
    if step.Completing? {
      RoomToDeliver(s);
    }
  }

  lemma {:induction false} StaysInFront(s: State, steps: seq<Step>)
    requires InFront(s) && Runs(NoPosting, s, steps)
    ensures InFront(After(NoPosting, s, steps))
    decreases |steps|
  {
    hide InFront, Enabled, Do;
    if steps != [] {
      InFrontKept(s, steps[0]);
      StaysInFront(Do(s, steps[0]), steps[1..]);
    }
  }

  /** Until the next receive is posted the size is right, whatever else the worker and the kernel do, completing a
      receive that was under way among it. */
  lemma TornWithoutPosting(s: State, t: State)
    requires Inv(s) && Crosses(s) && Leads(NoPosting, Release(s), t)
    ensures Inv(t) && TornSize(t) == |t.pending|
  {
    hide Inv, Leads, SizeAtPop;
    CrossedInFront(s);
    LeadsInFront(Release(s), t);
  }

  lemma LeadsInFront(s: State, t: State)
    requires InFront(s) && Leads(NoPosting, s, t)
    ensures Inv(t) && TornSize(t) == |t.pending|
  {
    hide Inv, Runs, After;
    var steps :| Runs(NoPosting, s, steps) && After(NoPosting, s, steps) == t;
    StaysInFront(s, steps);
    TornReadExact(t);
  }

  /** A packet can end behind the end of the ring rather than just at it. */
  predicate CanCross(e: nat, capacity: nat)
  {
    HEADER_SIZE + 1 < e || e * capacity % 2 == 1
  }

  /** If one can, a connection comes to a state in which it does, and a receive posted and completed before the
      correction makes the size wrong. */
  lemma TornGoesRound(e: nat, capacity: nat) returns (s: State, t: State)
    requires HEADER_SIZE < e && 1 <= capacity && CanCross(e, capacity)
    ensures Reachable(e, capacity, s) && TornWrong(s, t)
    ensures s.frames == [[0, 0]] && s.pop == s.q - 1 && |t.pending| == t.q - 1
  {
    hide Inv, Leads, Quiet, SizeAtPop, Classify, Rest;
    LastPosition(e, capacity);
    SmallPackets(e);
    var a := QuietAt(e, capacity, e * capacity - 1);
    s := Attached(a, [0, 0]);
    LeadsOn(Anyone, Start(e, capacity), a, s);
    ReleasedQuiet(s);
    var u := Release(s);
    QuietFacts(u);
    t := Arrives(Others, u, Zeros(u.q - 1));
    TornReadExact(t);
  }

  lemma LastPosition(e: nat, capacity: nat)
    requires HEADER_SIZE < e && 1 <= capacity && CanCross(e, capacity)
    ensures var at := e * capacity - 1; 2 <= at && (at % 2 == 0 || (3 < e && 3 <= at))
  {
    assert e <= e * capacity;
  }

  /** With nothing but packets of two bytes in a ring of even size, the pop cursor stays even. */
  predicate Even(s: State)
  {
    Inv(s) && s.e == HEADER_SIZE + 1 && s.q % 2 == 0 && s.pop % 2 == 0
  }

  lemma EvenKept(s: State, step: Step)
    requires Even(s) && Enabled(s, step)
    ensures Even(Do(s, step))
  {
    hide Inv, Rest, Contiguous, Classify, SizeAtPop, Splice, Pushed;
    StepKeeps(s, step);
    if step.Releasing? {
      PacketOfTwo(s);
      RingOf(s);
    }
  }

  lemma RingOf(s: State)
    requires Inv(s)
    ensures s.pop < s.q
  {
    hide RingOk, HistoryOk, ConsumerOk, KernelOk;
  }

  lemma PacketOfTwo(s: State)
    requires Inv(s) && Enabled(s, Releasing) && s.e == HEADER_SIZE + 1
    ensures SizeAtPop(s) == 2
  {
    FrontIntact(s);
    hide RingOk, KernelOk, ConsumerOk, SizeAtPop;
  }

  lemma {:induction false} StaysEven(s: State, steps: seq<Step>)
    requires Even(s) && Runs(Anyone, s, steps)
    ensures Even(After(Anyone, s, steps))
    decreases |steps|
  {
    hide Even, Enabled, Do;
    if steps != [] {
      EvenKept(s, steps[0]);
      StaysEven(Do(s, steps[0]), steps[1..]);
    }
  }

  /** The others never move the pop cursor. */
  lemma {:induction false} PopStays(s: State, steps: seq<Step>)
    requires Runs(Others, s, steps)
    ensures After(Others, s, steps).pop == s.pop
    decreases |steps|
  {
    if steps != [] {
      PopStays(Do(s, steps[0]), steps[1..]);
    }
  }

  lemma EvenCrossing(s: State)
    requires Even(s) && Crosses(s)
    ensures Inv(Release(s)) && Release(s).pop == 0
  {
    hide Inv, SizeAtPop;
    ReleaseKeeps(s);
    PacketOfTwo(s);
    RingOf(s);
  }

  lemma NeverWrong(e: nat, capacity: nat, s: State, t: State)
    requires HEADER_SIZE < e && 1 <= capacity && !CanCross(e, capacity)
    requires Reachable(e, capacity, s) && Crosses(s) && Leads(Others, Release(s), t)
    ensures TornSize(t) == |t.pending|
  {
    hide Inv, Leads, SizeAtPop, Even;
    ReachableEven(e, capacity, s);
    EvenCrossing(s);
    OthersLead(Release(s), t);
    TornReadExact(t);
  }

  lemma ReachableEven(e: nat, capacity: nat, s: State)
    requires HEADER_SIZE < e && 1 <= capacity && !CanCross(e, capacity) && Reachable(e, capacity, s)
    ensures Even(s)
  {
    hide Inv, Runs, After;
    StartInv(e, capacity);
    var steps :| Runs(Anyone, Start(e, capacity), steps) && After(Anyone, Start(e, capacity), steps) == s;
    StaysEven(Start(e, capacity), steps);
  }

  lemma OthersLead(s: State, t: State)
    requires Inv(s) && Leads(Others, s, t)
    ensures Inv(t) && t.pop == s.pop
  {
    hide Inv, Runs, After;
    var steps :| Runs(Others, s, steps) && After(Others, s, steps) == t;
    RunKeeps(Others, s, steps);
    PopStays(s, steps);
  }

  /** For which connections the size can ever be read wrong: those whose packets may have three bytes, or whose ring is
      of odd size. */
  lemma TornExactly(e: nat, capacity: nat)
    requires HEADER_SIZE < e && 1 <= capacity
    ensures (exists s, t :: Reachable(e, capacity, s) && TornWrong(s, t)) <==> CanCross(e, capacity)
  {
    hide Reachable, CanCross, Crosses, Leads;
    if CanCross(e, capacity) {
      var s, t := TornGoesRound(e, capacity);
    } else if s, t :| Reachable(e, capacity, s) && TornWrong(s, t) {
      NeverWrong(e, capacity, s, t);
    }
  }

  // ---- the free space read twice ----

  /** The processor's steps do not disturb the worker. */
  lemma {:induction false} ProcessorKeeps(s: State, steps: seq<Step>)
    requires Inv(s) && Runs(Processor, s, steps)
    ensures var t := After(Processor, s, steps); Inv(t) && Undisturbed(s, t)
    decreases |steps|
  {
    hide Inv, Undisturbed, Attach, Release, SizeAtPop;
    UndisturbedRefl(s);
    if steps != [] {
      if steps[0].Attaching? {
        AttachKeeps(s);
        AttachUndisturbed(s);
      } else {
        ReleaseKeeps(s);
        ReleaseUndisturbed(s);
      }
      var u := Do(s, steps[0]);
      ProcessorKeeps(u, steps[1..]);
      UndisturbedTrans(s, u, After(Processor, u, steps[1..]));
    }
  }

  lemma ProcessorLeads(s: State, t: State)
    requires Inv(s) && Leads(Processor, s, t)
    ensures Inv(t) && Undisturbed(s, t)
  {
    hide Inv, Undisturbed, Runs, After;
    var steps :| Runs(Processor, s, steps) && After(Processor, s, steps) == t;
    ProcessorKeeps(s, steps);
  }

  /** The oldest announced packet can be released, which frees its bytes. */
  lemma FirstReleased(s: State) returns (t: State)
    requires Inv(s) && s.frames != []
    ensures Leads(Processor, s, t) && |t.pending| < |s.pending|
  {
    hide RingOk, HistoryOk, KernelOk, SizeAtPop, Leads;
    LeadsSelf(Processor, s);
    var u := s;
    if !s.attached {
      AttachKeeps(s);
      Then(Processor, s, s, Attaching);
      u := Attach(s);
    }
    FrontIntact(u);
    FrontNotEmpty(u);
    ReleaseKeeps(u);
    Then(Processor, s, u, Releasing);
    t := Release(u);
  }

  lemma FrontNotEmpty(s: State)
    requires Inv(s) && s.frames != []
    ensures |s.frames[0]| >= HEADER_SIZE
  {
    hide RingOk, ConsumerOk, KernelOk;
  }

  /** Reading the room once for the length and once more for the test, with the processor running before and between,
      can yield the length zero and pass the test exactly when the ring is full and an announced packet has not been
      released yet. */
  lemma ZeroLengthPost(s: State)
    requires Inv(s) && !s.posted
    ensures (exists t, u :: Leads(Processor, s, t) && Leads(Processor, t, u) && Room(t) == 0 && Room(u) > 0)
            <==> |s.pending| == s.q - 1 && s.frames != []
  {
    hide Inv, Undisturbed, Available, Leads;
    RoomIsFree(s);
    if t, u :| Leads(Processor, s, t) && Leads(Processor, t, u) && Room(t) == 0 && Room(u) > 0 {
      ProcessorLeads(s, t);
      ProcessorLeads(t, u);
      UndisturbedTrans(s, t, u);
      RoomIsFree(t);
      RoomIsFree(u);
      SameRing(s, t);
      SameRing(t, u);
      FreedByRelease(s, u);
    }
    if |s.pending| == s.q - 1 && s.frames != [] {
      var u := FirstReleased(s);
      LeadsSelf(Processor, s);
      ProcessorLeads(s, u);
      RoomIsFree(u);
      SameRing(s, u);
    }
  }

  lemma SameRing(s: State, t: State)
    requires Undisturbed(s, t)
    ensures t.q == s.q && |t.pending| <= |s.pending|
  {
  }

  lemma RoomIsFree(s: State)
    requires Inv(s)
    ensures |s.pending| < s.q && (Room(s) == 0 <==> |s.pending| == s.q - 1)
  {
  }

  /** Packets of two zeros are announced as long as there is one. */
  lemma {:induction false} AnnounceZeros(s: State) returns (t: State)
    requires Inv(s) && !s.posted && Rest(s) == Zeros(|Rest(s)|) && s.work + |Rest(s)| < s.q
    ensures Leads(Anyone, s, t) && Inv(t) && !t.posted && Classify(Rest(t), t.e).Pending?
    ensures t.pending == s.pending && t.q == s.q && |t.frames| == |s.frames| + |Rest(s)| / 2
    decreases |Rest(s)|
  {
    hide Inv, Rest, Leads, Contiguous;
    TailRoom(s);
    ZerosClassified(Rest(s), s.e);
    if |Rest(s)| < 2 {
      LeadsSelf(Anyone, s);
      t := s;
    } else {
      InsideRing(s, 2);
      var a := Announce(s, 2);
      LeadsBy(Anyone, s, Announcing(2));
      AnnounceStream(s, 2);
      assert Rest(a) == Zeros(|Rest(a)|);
      t := AnnounceZeros(a);
      LeadsOn(Anyone, s, a, t);
    }
  }

  lemma ZerosClassified(bytes: seq<Byte>, e: nat)
    requires bytes == Zeros(|bytes|) && HEADER_SIZE < e
    ensures Classify(bytes, e) == if |bytes| < 2 then Pending else Ready(2)
  {
  }

  /** Every connection can come to such a state, where the next receive is about to be posted: the first receive fills
      the ring with packets of two bytes, and all of them are announced. */
  lemma FullWithPacket(e: nat, capacity: nat) returns (s: State)
    requires HEADER_SIZE < e && 1 <= capacity
    ensures Reachable(e, capacity, s) && Inv(s) && !s.posted && Classify(Rest(s), s.e).Pending?
    ensures |s.pending| == s.q - 1 && s.frames != []
  {
    hide Inv, Rest, Leads, Quiet;
    StartQuiet(e, capacity);
    var a := Start(e, capacity);
    QuietFacts(a);
    var b := Arrives(Anyone, a, Zeros(a.q - 1));
    s := AnnounceZeros(b);
    LeadsOn(Anyone, a, b, s);
  }
}
