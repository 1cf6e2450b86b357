/** What the sending half remembers about packets that entered its buffer. */
module SendHistory {
  import opened Memory
  import opened Framing
  import opened RandomGenerator
  import opened PacketCipher
  import opened EncoderLockstep

  /** One packet that entered the send buffer: as it was handed in, as it was written, and
      whether it had waited in the queue. */
  datatype Entry = Entry(plain: seq<Byte>, written: seq<Byte>, waited: bool)

  datatype Encoder = NoEncoder | With(keys: Keys)

  predicate WfEncoder(e: Encoder)
  {
    e.With? ==> WfKeys(e.keys)
  }

  /** What is written for a packet, and the encoder afterwards. */
  function Written(e: Encoder, p: seq<Byte>): (r: seq<Byte>)
    requires WfEncoder(e) && HasBody(p)
    ensures |r| == |p|
  {
    if e.With? then Seal(e.keys, p) else p
  }

  function After(e: Encoder, p: seq<Byte>): (r: Encoder)
    requires WfEncoder(e) && HasBody(p)
    ensures WfEncoder(r)
  {
    if e.With? then With(Used(e.keys, !Encrypted(p[1]))) else e
  }

  /** Starting from `e0`, every entry went through the encoder once, in this order, and the
      encoder now stands at `e`. */
  predicate WrittenInOrder(e0: Encoder, es: seq<Entry>, e: Encoder)
    decreases |es|
  {
    && WfEncoder(e0)
    && (if es == [] then e == e0
        else
          && HasBody(es[0].plain) && es[0].written == Written(e0, es[0].plain)
          && WrittenInOrder(After(e0, es[0].plain), es[1..], e))
  }

  function Plain(es: seq<Entry>): seq<seq<Byte>>
  {
    seq(|es|, i requires 0 <= i < |es| => es[i].plain)
  }

  function Bytes(es: seq<Entry>): seq<seq<Byte>>
  {
    seq(|es|, i requires 0 <= i < |es| => es[i].written)
  }

  /** The packets among the entries that had waited, or had not, in order. */
  function Filter(es: seq<Entry>, waited: bool): seq<seq<Byte>>
  {
    if es == [] then []
    else
      var init, last := es[..|es| - 1], es[|es| - 1];
      Filter(init, waited) + (if last.waited == waited then [last.plain] else [])
  }

  lemma EmptyHistory(e: Encoder)
    requires WfEncoder(e)
    ensures Flatten(Bytes([])) == [] && WrittenInOrder(e, [], e) && Filter([], true) == []
  {
  }

  lemma SnocEntry(es: seq<Entry>, x: Entry)
    ensures Plain(es + [x]) == Plain(es) + [x.plain]
    ensures Bytes(es + [x]) == Bytes(es) + [x.written]
    ensures Filter(es + [x], x.waited) == Filter(es, x.waited) + [x.plain]
    ensures Filter(es + [x], !x.waited) == Filter(es, !x.waited)
  {
    assert (es + [x])[..|es|] == es;
  }

  lemma {:induction false} WrittenSnoc(e0: Encoder, es: seq<Entry>, e: Encoder, x: Entry)
    requires WrittenInOrder(e0, es, e)
    requires HasBody(x.plain) && WfEncoder(e) && x.written == Written(e, x.plain)
    ensures WrittenInOrder(e0, es + [x], After(e, x.plain))
    decreases |es|
  {
    hide Written, After, HasBody;
    var fs := es + [x];
    if es == [] {
      assert fs[1..] == [];
    } else {
      assert fs[1..] == es[1..] + [x];
      WrittenSnoc(After(e0, es[0].plain), es[1..], e, x);
    }
  }

  /** A peer with the same keys opens what was written, entry by entry, to what was handed in. */
  lemma {:induction false} PeerOpens(e0: Encoder, es: seq<Entry>, e: Encoder)
    requires WrittenInOrder(e0, es, e) && e0.With?
    requires forall i :: 0 <= i < |es| ==> Sendable(es[i].plain)
    ensures e.With? && InStep(e0.keys, Bytes(es), Plain(es), e.keys)
    decreases |es|
  {
    hide Seal, Used, Encrypted;
    if es != [] {
      assert Sendable(es[0].plain);
      assert After(e0, es[0].plain) == With(Used(e0.keys, true));
      PeerOpens(After(e0, es[0].plain), es[1..], e);
      assert Bytes(es)[1..] == Bytes(es[1..]) && Plain(es)[1..] == Plain(es[1..]);
    }
  }

  /** Without an encoder every packet is written as it is. */
  lemma {:induction false} WrittenPlain(e0: Encoder, es: seq<Entry>)
    requires WrittenInOrder(e0, es, NoEncoder)
    ensures e0 == NoEncoder && Bytes(es) == Plain(es)
    decreases |es|
  {
    if es != [] {
      WrittenPlain(After(e0, es[0].plain), es[1..]);
      assert Bytes(es) == [es[0].written] + Bytes(es[1..]) && Plain(es) == [es[0].plain] + Plain(es[1..]);
    }
  }

  /** Every entry is found among those that had waited or among those that had not. */
  lemma {:induction false} EntryIn(es: seq<Entry>, i: nat)
    requires i < |es|
    ensures es[i].plain in Filter(es, es[i].waited)
  {
    if i < |es| - 1 {
      EntryIn(es[..|es| - 1], i);
    }
  }

  /** A receiver without an encoder, however much of the stream it has seen, has framed the first
      of the packets that were written, provided each of them is one packet below its limit. */
  lemma ReceiverFrames(ps: seq<seq<Byte>>, seen: seq<Byte>, maxSize: nat)
    requires ArePackets(ps, maxSize) && seen <= Flatten(ps)
    ensures Frame(seen, maxSize).packets <= ps && !Frame(seen, maxSize).oversize
    ensures seen == Flatten(ps) ==> Frame(seen, maxSize).packets == ps
  {
    var more := Flatten(ps)[|seen|..];
    assert seen + more == Flatten(ps) == Flatten(ps) + [];
    FrameComplete(ps, [], maxSize);
    assert ps + [] == ps;
    FrameExtends(seen, more, maxSize);
    FrameSound(seen, maxSize);
    var r := Frame(seen, maxSize);
    if r.oversize {
      OversizeStays(r.rest, more, maxSize);
    }
    if more == [] {
      assert seen == Flatten(ps);
    }
  }

  /** The sender admits packets up to its limit, a receiver with the same limit only shorter
      ones: a packet of exactly that size is sent and never framed. */
  lemma FramedIfShorter(p: seq<Byte>, maxSize: nat)
    requires |p| >= HEADER_SIZE && |p| == PacketSize(p)
    ensures Frame(p, maxSize).packets == [p] <==> |p| < maxSize
    ensures maxSize <= |p| ==> Frame(p, maxSize) == Frames([], p, true)
  {
    if |p| < maxSize {
      assert p[..|p|] == p && p[|p|..] == [];
      assert Frame([], maxSize).packets == [];
    }
  }

  lemma OversizeStays(s: seq<Byte>, more: seq<Byte>, maxSize: nat)
    requires Classify(s, maxSize) == Oversize
    ensures Frame(s + more, maxSize).oversize
  {
  }
}
