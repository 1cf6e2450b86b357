/** The steps of ReceiveProtocol as runs from a fresh connection, and states that such runs reach. */
module ReceiveRuns {
  import opened Memory
  import opened Framing
  import opened CircularQueue
  import opened Views
  import opened ReceiveProtocol

  datatype Step =
    | Posting(len: nat) | Delivering(bytes: seq<Byte>) | Completing
    | Mirroring(from: nat, n: nat) | Announcing(n: nat) | Attaching | Releasing

  /** Whose steps a run is made of: anyone's, the processor's, the kernel's and the worker's, or theirs without a
      receive being posted. */
  datatype Who = Anyone | Processor | Others | NoPosting

  predicate By(who: Who, step: Step)
  {
    match who
    case Anyone => true
    case Processor => step.Attaching? || step.Releasing?
    case Others => !step.Attaching? && !step.Releasing?
    case NoPosting => !step.Attaching? && !step.Releasing? && !step.Posting?
  }

  /** The size PostRecv computes from one reading of the ring. */
  function Room(s: State): nat
  {
    if s.push < s.q && |s.pending| < s.q then Available(s.q, s.e, s.push, |s.pending|) else 0
  }

  /** When the code takes a step. A receive is posted when no whole packet is left to announce; one shorter than the
      room, from a reading that is out of date, differs from one that the kernel does not fill. */
  predicate Enabled(s: State, step: Step)
  {
    match step
    case Posting(len) => !s.posted && Classify(Rest(s), s.e).Pending? && len <= Room(s)
    case Delivering(bytes) => s.posted && |s.arriving| + |bytes| <= s.len && s.push + |s.arriving| + |bytes| <= |s.buf|
    case Completing =>
      && s.posted && s.arriving != []
      && s.push < s.q <= |s.buf| <= 2 * s.q && s.push + |s.arriving| <= |s.buf| && |s.arriving| <= s.q
    case Mirroring(from, n) =>
      && !s.posted && 0 < from + n <= s.e <= s.q && s.q + from + n <= |s.buf|
      && s.work < s.q && Contiguous(s, s.q - s.work + from) && s.q - s.work + from + n <= |Rest(s)|
    case Announcing(n) =>
      && !s.posted && Classify(Rest(s), s.e) == Ready(n) && Contiguous(s, n)
      && s.work < s.q && n <= s.q && s.work + n <= |s.buf|
    case Attaching =>
      && s.events > 0 && !s.attached
      && s.pop + HEADER_SIZE <= |s.buf| && s.pop + SizeAtPop(s) <= |s.buf|
    case Releasing =>
      && s.attached && s.pop < s.q && s.pop + HEADER_SIZE <= |s.buf|
      && s.pop + SizeAtPop(s) <= |s.buf| && SizeAtPop(s) <= s.q && SizeAtPop(s) <= |s.pending| && s.frames != []
  }

  function Do(s: State, step: Step): State
    requires Enabled(s, step)
  {
    match step
    case Posting(len) => Post(s, len)
    case Delivering(bytes) => Deliver(s, bytes)
    case Completing => Complete(s)
    case Mirroring(from, n) => Mirror(s, from, n)
    case Announcing(n) => Announce(s, n)
    case Attaching => Attach(s)
    case Releasing => Release(s)
  }

  predicate Runs(who: Who, s: State, steps: seq<Step>)
    decreases |steps|
  {
    steps == [] || (By(who, steps[0]) && Enabled(s, steps[0]) && Runs(who, Do(s, steps[0]), steps[1..]))
  }

  function After(who: Who, s: State, steps: seq<Step>): State
    requires Runs(who, s, steps)
    decreases |steps|
  {
    if steps == [] then s else After(who, Do(s, steps[0]), steps[1..])
  }

  ghost predicate Leads(who: Who, s: State, t: State)
  {
    exists steps :: Runs(who, s, steps) && After(who, s, steps) == t
  }

  /** NetBuffer::Create: a ring of `capacity` packets of the greatest size, and a tail for one. */
  function Start(e: nat, capacity: nat): State
  {
    State(e * capacity, e, Zeros(e * capacity + e), 0, 0, 0, false, 0, 0, false, [], [], [], [], [], [])
  }

  ghost predicate Reachable(e: nat, capacity: nat, s: State)
  {
    Leads(Anyone, Start(e, capacity), s)
  }

  // ---- runs ----

  lemma LeadsSelf(who: Who, s: State)
    ensures Leads(who, s, s)
  {
    assert Runs(who, s, []) && After(who, s, []) == s;
  }

  lemma LeadsBy(who: Who, s: State, step: Step)
    requires By(who, step) && Enabled(s, step)
    ensures Leads(who, s, Do(s, step))
  {
    hide Enabled, Do;
    assert [step][1..] == [];
    assert Runs(who, s, [step]) && After(who, s, [step]) == Do(s, step);
  }

  lemma {:induction false} RunsConcat(who: Who, s: State, a: seq<Step>, b: seq<Step>)
    requires Runs(who, s, a) && Runs(who, After(who, s, a), b)
    ensures Runs(who, s, a + b) && After(who, s, a + b) == After(who, After(who, s, a), b)
    decreases |a|
  {
    hide Enabled, Do;
    if a == [] {
      assert a + b == b;
    } else {
      RunsConcat(who, Do(s, a[0]), a[1..], b);
      assert (a + b)[1..] == a[1..] + b;
    }
  }

  lemma LeadsOn(who: Who, s: State, t: State, u: State)
    requires Leads(who, s, t) && Leads(who, t, u)
    ensures Leads(who, s, u)
  {
    hide Runs, After;
    var a :| Runs(who, s, a) && After(who, s, a) == t;
    var b :| Runs(who, t, b) && After(who, t, b) == u;
    RunsConcat(who, s, a, b);
  }

  lemma Then(who: Who, s: State, t: State, step: Step)
    requires Leads(who, s, t) && By(who, step) && Enabled(t, step)
    ensures Leads(who, s, Do(t, step))
  {
    hide Leads, Enabled, Do;
    LeadsBy(who, t, step);
    LeadsOn(who, s, t, Do(t, step));
  }

  // ---- the invariant over every run ----

  lemma StepKeeps(s: State, step: Step)
    requires Inv(s) && Enabled(s, step)
    ensures Inv(Do(s, step)) && Do(s, step).q == s.q && Do(s, step).e == s.e
  {
    hide Inv, Rest, Contiguous, Classify, SizeAtPop;
    match step
    case Posting(len) =>
      UndisturbedRefl(s);
      RoomFor(s, s);
      PostKeeps(s, len);
    case Delivering(bytes) => DeliverKeeps(s, bytes);
    case Completing => CompleteKeeps(s);
    case Mirroring(from, n) => MirrorExtends(s, from, n);
    case Announcing(n) => AnnounceStream(s, n);
    case Attaching => AttachKeeps(s);
    case Releasing => ReleaseKeeps(s);
  }

  lemma {:induction false} RunKeeps(who: Who, s: State, steps: seq<Step>)
    requires Inv(s) && Runs(who, s, steps)
    ensures var t := After(who, s, steps); Inv(t) && t.q == s.q && t.e == s.e
    decreases |steps|
  {
    hide Inv, Enabled, Do;
    if steps != [] {
      StepKeeps(s, steps[0]);
      RunKeeps(who, Do(s, steps[0]), steps[1..]);
    }
  }

  lemma StartInv(e: nat, capacity: nat)
    requires HEADER_SIZE < e && 1 <= capacity
    ensures Inv(Start(e, capacity)) && e <= e * capacity
  {
    assert e <= e * capacity;
    InitialInv(Start(e, capacity));
  }

  /** In every state that a connection can reach, the packets popped are the first ones of the framing of all bytes
      received, and the packet the processor is attached to is the next one. */
  lemma ReachableFrames(e: nat, capacity: nat, s: State)
    requires HEADER_SIZE < e && 1 <= capacity && Reachable(e, capacity, s)
    ensures Inv(s) && s.q == e * capacity && s.e == e
    ensures s.popped <= Frame(s.received, e).packets
    ensures s.attached ==> s.popped + [s.seen] <= Frame(s.received, e).packets
  {
    hide Inv, Runs, After, Frame, Rest;
    var steps :| Runs(Anyone, Start(e, capacity), steps) && After(Anyone, Start(e, capacity), steps) == s;
    StartInv(e, capacity);
    RunKeeps(Anyone, Start(e, capacity), steps);
    AnnouncedIsFraming(s);
    ConcatAssociative(s.popped, s.frames, Frame(Rest(s), e).packets);
    if s.attached {
      AttachedIntact(s);
    }
  }

  // ---- one packet at a time ----

  /** Everything received has been released. */
  predicate Quiet(s: State)
  {
    Inv(s) && !s.posted && s.pending == [] && s.frames == []
  }

  lemma QuietFacts(s: State)
    requires Quiet(s)
    ensures s.push == s.pop == s.work < s.q && Rest(s) == [] && !s.attached && s.events == 0
    ensures HEADER_SIZE < s.e <= s.q && |s.buf| == s.q + s.e && s.e - 1 <= Room(s)
    ensures Room(s) == s.q - 1 || s.push + Room(s) == s.q + s.e
  {
    hide HoldsAt;
  }

  /** A receive is posted in a quiet state and the kernel writes some bytes. */
  lemma Written(who: Who, s: State, bytes: seq<Byte>) returns (t: State)
    requires Quiet(s) && By(who, Posting(Room(s))) && |bytes| <= Room(s)
    ensures Leads(who, s, t) && Inv(t) && t.posted && t.arriving == bytes && |bytes| < s.q
    ensures t == Deliver(Post(s, Room(s)), bytes)
  {
    hide Inv, Classify, Leads, Available, Splice;
    QuietFacts(s);
    EmptyPending(s.e);
    UndisturbedRefl(s);
    RoomFor(s, s);
    var a := Post(s, Room(s));
    LeadsBy(who, s, Posting(Room(s)));
    PostKeeps(s, Room(s));
    t := Deliver(a, bytes);
    Then(who, s, a, Delivering(bytes));
    DeliverKeeps(a, bytes);
  }

  /** A whole receive of some bytes arrives in a quiet state. */
  lemma Arrives(who: Who, s: State, bytes: seq<Byte>) returns (t: State)
    requires Quiet(s) && By(who, Posting(Room(s))) && 0 < |bytes| <= Room(s)
    ensures Leads(who, s, t) && Inv(t) && !t.posted && !t.attached && t.events == 0 && t.frames == []
    ensures t.q == s.q && t.e == s.e && t.pop == t.work == s.pop < s.q
    ensures |bytes| < s.q && t.push == Wrap(s.q, s.pop, |bytes|)
    ensures t.pending == bytes == Rest(t) && t.popped == s.popped && Contiguous(t, |bytes|)
  {
    hide Inv, Pushed, Splice, Flatten, Leads, Available, Room, Contiguous;
    QuietFacts(s);
    var b := Written(who, s, bytes);
    CompleteRoom(b);
    Then(who, s, b, Completing);
    CompleteKeeps(b);
    t := Complete(b);
    assert s.pending + bytes == bytes && Rest(b) == [];
    ArrivedWhole(b);
  }

  /** The kernel wrote it in one piece. */
  lemma ArrivedWhole(b: State)
    requires Inv(b) && b.posted && Rest(b) == [] && b.work == b.push
    ensures b.push < b.q <= |b.buf| <= 2 * b.q && b.push + |b.arriving| <= |b.buf| && |b.arriving| <= b.q
    ensures Contiguous(Complete(b), |b.arriving|)
  {
    hide RingOk, HistoryOk, ConsumerOk, Flatten;
    CompleteRoom(b);
    CompleteKeeps(b);
    hide Inv, Rest, Splice, HoldsAt;
    var t := Complete(b);
    assert Rest(t) == b.arriving;
    forall i | 0 <= i < |b.arriving|
      ensures t.buf[t.work..t.work + |b.arriving|][i] == b.arriving[i]
    {
      assert b.buf[b.push..b.push + |b.arriving|][i] == b.arriving[i];
    }
  }

  lemma EmptyPending(e: nat)
    ensures Classify([], e) == Pending
  {
  }

  /** A packet arrives in a quiet state, is announced and attached. */
  lemma Attached(s: State, p: seq<Byte>) returns (t: State)
    requires Quiet(s) && IsPacket(p, s.e)
    ensures Leads(Anyone, s, t) && Inv(t) && t.attached && !t.posted
    ensures t.pending == p && t.frames == [p] && t.pop == s.pop && t.q == s.q && t.e == s.e
  {
    hide Inv, Leads, Quiet;
    QuietFacts(s);
    var a := Arrives(Anyone, s, p);
    assert p[..|p|] == p;
    var b := Announce(a, |p|);
    Then(Anyone, s, a, Announcing(|p|));
    AnnounceStream(a, |p|);
    AttachKeeps(b);
    Then(Anyone, s, b, Attaching);
    t := Attach(b);
  }

  lemma ReleasedQuiet(s: State)
    requires Inv(s) && s.attached && !s.posted && |s.frames| == 1 && s.pending == s.frames[0]
    ensures Enabled(s, Releasing) && SizeAtPop(s) == |s.frames[0]| && |s.frames[0]| < s.e
    ensures s.pop < s.q && |s.frames[0]| <= s.q
    ensures Quiet(Release(s)) && Release(s).pop == Wrap(s.q, s.pop, |s.frames[0]|)
    ensures Release(s).q == s.q && Release(s).e == s.e
  {
    FrontIntact(s);
    ReleaseKeeps(s);
    hide HoldsAt, FramesAt, Flatten, SizeAtPop;
  }

  lemma Passes(s: State, p: seq<Byte>) returns (t: State)
    requires Quiet(s) && IsPacket(p, s.e) && s.pop + |p| < s.q
    ensures Leads(Anyone, s, t) && Quiet(t) && t.q == s.q && t.e == s.e && t.pop == s.pop + |p|
  {
    hide Inv, Leads, Quiet, SizeAtPop;
    var a := Attached(s, p);
    ReleasedQuiet(a);
    Then(Anyone, s, a, Releasing);
    t := Release(a);
  }

  lemma SmallPackets(e: nat)
    ensures 2 < e ==> IsPacket([0, 0], e)
    ensures 3 < e ==> IsPacket([1, 0, 0], e)
  {
  }

  lemma StartQuiet(e: nat, capacity: nat)
    requires HEADER_SIZE < e && 1 <= capacity
    ensures Quiet(Start(e, capacity))
  {
    hide Inv;
    StartInv(e, capacity);
  }

  /** With packets of two and, where the limit allows them, three bytes, the cursors come to almost any position. */
  lemma {:induction false} QuietAt(e: nat, capacity: nat, at: nat) returns (s: State)
    requires HEADER_SIZE < e && 1 <= capacity && at < e * capacity
    requires at % 2 == 0 || (3 < e && 3 <= at)
    ensures Reachable(e, capacity, s) && Quiet(s) && s.q == e * capacity && s.e == e && s.pop == at
    decreases at
  {
    hide Leads, Quiet;
    SmallPackets(e);
    if at == 0 {
      s := Start(e, capacity);
      StartQuiet(e, capacity);
      LeadsSelf(Anyone, s);
    } else {
      var n := if at == 3 then 3 else 2;
      var a := QuietAt(e, capacity, at - n);
      s := Passes(a, if n == 3 then [1, 0, 0] else [0, 0]);
      LeadsOn(Anyone, Start(e, capacity), a, s);
    }
  }
}
