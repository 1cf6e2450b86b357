/** Two PacketEncoders that talk to each other: one built with the default seeds, its peer with
    the seeds swapped. Packets travel in order in both directions; any number may be under way. */
module EncoderLockstep {
  import opened Memory
  import opened Framing
  import opened RandomGenerator
  import opened PacketCipher
  import opened Words
  import opened PacketEncoding

  /** One direction: the sender's and the receiver's keys, what is under way, and what was sent
      and received so far, with the checksums that TxEncrypt and RxDecrypt computed. */
  datatype Direction = Direction(
    tx: Keys, rx: Keys, wire: seq<seq<Byte>>,
    sent: seq<seq<Byte>>, sentSums: seq<Byte>,
    got: seq<seq<Byte>>, gotSums: seq<Byte>)

  datatype Link = Link(ab: Direction, ba: Direction)

  datatype Step = SendAB(p: seq<Byte>) | SendBA(p: seq<Byte>) | ReceiveAB | ReceiveBA

  /** What the sender must hand in: a whole packet whose header is not marked as encrypted. */
  predicate Sendable(p: seq<Byte>)
  {
    HasBody(p) && !Encrypted(p[1])
  }

  function Send(d: Direction, p: seq<Byte>): Direction
    requires WfKeys(d.tx) && HasBody(p)
  {
    d.(tx := Used(d.tx, !Encrypted(p[1])), wire := d.wire + [Seal(d.tx, p)],
       sent := d.sent + [p], sentSums := d.sentSums + [BodySum(Body(p))])
  }

  /** RxDecrypt stays within the packet it is given. */
  predicate Receivable(d: Direction)
  {
    && d.wire != [] && WfKeys(d.rx)
    && |d.wire[0]| >= HEADER_SIZE && HasBody(Opened(d.rx, d.wire[0])) && HasBody(Open(d.rx, d.wire[0]))
  }

  function Receive(d: Direction): Direction
    requires Receivable(d)
  {
    var p := Open(d.rx, d.wire[0]);
    d.(rx := Used(d.rx, Encrypted(d.wire[0][1])), wire := d.wire[1..],
       got := d.got + [p], gotSums := d.gotSums + [BodySum(Body(p))])
  }

  /** `k` opens the packets under way, one after the other, to `plain`, and then stands at `k'`. */
  predicate InStep(k: Keys, wire: seq<seq<Byte>>, plain: seq<seq<Byte>>, k': Keys)
    decreases |wire|
  {
    && WfKeys(k) && |wire| == |plain|
    && (if wire == [] then k == k'
        else Sendable(plain[0]) && wire[0] == Seal(k, plain[0]) && InStep(Used(k, true), wire[1..], plain[1..], k'))
  }

  /** What arrived is what was sent first, with the same checksums; what is under way will open to
      the rest; and then the receiver's generators stand where the sender's stand. */
  predicate Synchronized(d: Direction)
  {
    && d.got <= d.sent && d.gotSums <= d.sentSums && |d.gotSums| == |d.got|
    && Summed(d.sent, d.sentSums)
    && InStep(d.rx, d.wire, d.sent[|d.got|..], d.tx)
  }

  /** Each packet has the checksum of its body. */
  predicate Summed(ps: seq<seq<Byte>>, sums: seq<Byte>)
  {
    |sums| == |ps| && forall i :: 0 <= i < |ps| ==> HasBody(ps[i]) && sums[i] == BodySum(Body(ps[i]))
  }

  lemma {:induction false} InStepSnoc(k: Keys, wire: seq<seq<Byte>>, plain: seq<seq<Byte>>, k': Keys, p: seq<Byte>)
    requires InStep(k, wire, plain, k') && WfKeys(k') && Sendable(p)
    ensures InStep(k, wire + [Seal(k', p)], plain + [p], Used(k', true))
    decreases |wire|
  {
    hide Seal, Used, Encrypted;
    var w, q := wire + [Seal(k', p)], plain + [p];
    if wire == [] {
      assert w[1..] == [] && q[1..] == [];
    } else {
      InStepSnoc(Used(k, true), wire[1..], plain[1..], k', p);
      assert w[1..] == wire[1..] + [Seal(k', p)] && q[1..] == plain[1..] + [p];
    }
  }

  lemma {:induction false} InStepWf(k: Keys, wire: seq<seq<Byte>>, plain: seq<seq<Byte>>, k': Keys)
    requires InStep(k, wire, plain, k')
    ensures WfKeys(k')
    decreases |wire|
  {
    if wire != [] {
      InStepWf(Used(k, true), wire[1..], plain[1..], k');
    }
  }

  lemma SendKeeps(d: Direction, p: seq<Byte>)
    requires Synchronized(d) && Sendable(p)
    ensures WfKeys(d.tx) && Synchronized(Send(d, p))
  {
    hide Seal, Used, Encrypted, HasBody, BodySum, Body;
    InStepWf(d.rx, d.wire, d.sent[|d.got|..], d.tx);
    InStepSnoc(d.rx, d.wire, d.sent[|d.got|..], d.tx, p);
    assert Send(d, p).sent[|d.got|..] == d.sent[|d.got|..] + [p];
  }

  /** The receiver never reads past a packet, and gets the oldest packet not yet received. */
  lemma ReceiveKeeps(d: Direction)
    requires Synchronized(d) && d.wire != []
    ensures Receivable(d) && Synchronized(Receive(d))
    ensures |d.got| < |d.sent| && Receive(d).got == d.got + [d.sent[|d.got|]]
    ensures Receive(d).gotSums == d.gotSums + [d.sentSums[|d.got|]]
  {
    hide Seal, Used, Encrypted, Open, Opened, BodySum, Body;
    var p := d.sent[|d.got|..][0];
    assert p == d.sent[|d.got|];
    OpenSeal(d.rx, p);
    assert d.sent[|d.got| + 1..] == d.sent[|d.got|..][1..];
    assert d.sent[..|d.got| + 1] == d.got + [p];
    assert d.sentSums[..|d.got| + 1] == d.gotSums + [BodySum(Body(p))];
  }

  /** A run: sends of sendable packets and receipts of packets under way, in any order. */
  ghost predicate Reachable(l: Link, steps: seq<Step>)
    decreases |steps|
  {
    if steps == [] then
      l == Link(Direction(TxKeys(false), RxKeys(true), [], [], [], [], []),
                Direction(TxKeys(true), RxKeys(false), [], [], [], [], []))
    else
      var before, last := steps[..|steps| - 1], steps[|steps| - 1];
      exists m :: Reachable(m, before) && Next(m, last, l)
  }

  predicate Next(m: Link, step: Step, l: Link)
  {
    match step
    case SendAB(p) => Sendable(p) && WfKeys(m.ab.tx) && l == m.(ab := Send(m.ab, p))
    case SendBA(p) => Sendable(p) && WfKeys(m.ba.tx) && l == m.(ba := Send(m.ba, p))
    case ReceiveAB => Receivable(m.ab) && l == m.(ab := Receive(m.ab))
    case ReceiveBA => Receivable(m.ba) && l == m.(ba := Receive(m.ba))
  }

  /** In every reachable state both directions are synchronized, and whatever is under way can
      be received. */
  lemma {:induction false} AlwaysSynchronized(l: Link, steps: seq<Step>)
    requires Reachable(l, steps)
    ensures Synchronized(l.ab) && Synchronized(l.ba)
    ensures l.ab.wire != [] ==> Receivable(l.ab)
    ensures l.ba.wire != [] ==> Receivable(l.ba)
    decreases |steps|
  {
    hide Sendable, Synchronized, Receivable, Send, Receive, Seal, Used, TxKeys, RxKeys;
    if steps == [] {
      FreshLinkSynchronized();
    } else {
      var before, last := steps[..|steps| - 1], steps[|steps| - 1];
      var m :| Reachable(m, before) && Next(m, last, l);
      AlwaysSynchronized(m, before);
      match last
      case SendAB(p) => SendKeeps(m.ab, p);
      case SendBA(p) => SendKeeps(m.ba, p);
      case ReceiveAB => ReceivableWire(m.ab); ReceiveKeeps(m.ab);
      case ReceiveBA => ReceivableWire(m.ba); ReceiveKeeps(m.ba);
    }
    if l.ab.wire != [] {
      ReceiveKeeps(l.ab);
    }
    if l.ba.wire != [] {
      ReceiveKeeps(l.ba);
    }
  }

  lemma ReceivableWire(d: Direction)
    requires Receivable(d)
    ensures d.wire != []
  {
  }

  lemma FreshLinkSynchronized()
    ensures Synchronized(Direction(TxKeys(false), RxKeys(true), [], [], [], [], []))
    ensures Synchronized(Direction(TxKeys(true), RxKeys(false), [], [], [], [], []))
  {
    hide Seeded, Wf;
  }

  /** Whenever nothing is under way everything sent has arrived unchanged, with equal checksums
      at both ends, and all four generator pairs stand in the same place. */
  lemma QuietLink(l: Link, steps: seq<Step>)
    requires Reachable(l, steps) && l.ab.wire == [] && l.ba.wire == []
    ensures l.ab.got == l.ab.sent && l.ba.got == l.ba.sent
    ensures l.ab.gotSums == l.ab.sentSums && l.ba.gotSums == l.ba.sentSums
    ensures l.ab.tx == l.ab.rx && l.ba.tx == l.ba.rx
  {
    hide Reachable, Synchronized, Receivable;
    AlwaysSynchronized(l, steps);
    QuietDirection(l.ab);
    QuietDirection(l.ba);
  }

  lemma QuietDirection(d: Direction)
    requires Synchronized(d) && d.wire == []
    ensures d.got == d.sent && d.gotSums == d.sentSums && d.tx == d.rx
  {
    assert d.sent[|d.got|..] == [];
  }
}
