/** The packet format of Packet.h and the pure meaning of cutting a byte stream into packets. */
module Framing {
  import opened ByteBits
  import opened Memory

  /** sizeof(PACKETHEADER): one 16-bit word, a 15-bit body length and the encryption bit. */
  const HEADER_SIZE: nat := 2

  /** wPacketLen: the low fifteen bits of the little-endian header word. */
  function BodyLength(b0: Byte, b1: Byte): (n: nat)
    ensures n < 0x8000
  {
    (b0 as nat) + 256 * ((b1 & 0x7f) as nat)
  }

  /** HEADER_SIZE plus the body length announced by the header at the start of `s`. */
  function PacketSize(s: seq<Byte>): nat
    requires |s| >= HEADER_SIZE
  {
    HEADER_SIZE + BodyLength(s[0], s[1])
  }

  /** `p` is one whole packet, short enough for a receiver whose limit is `maxSize`. */
  predicate IsPacket(p: seq<Byte>, maxSize: nat)
  {
    |p| >= HEADER_SIZE && |p| == PacketSize(p) && |p| < maxSize
  }

  lemma LowSevenBits(b: Byte)
    requires b < 0x80
    ensures b & 0x7f == b
  {
  }

  lemma ByteBelow(m: nat)
    requires m < 128
    ensures (m as Byte) < 0x80
  {
  }

  lemma NumberKept(m: nat)
    requires m < 256
    ensures (m as Byte) as nat == m
  {
    hide Pack, HighNibble, LowNibble;
    var b := Pack(m / 16, m % 16);
    PackValue(m / 16, m % 16);
    NibblesSplit(b);
    ByteRoundTrip(b);
  }

  /** A length of fifteen bits, written with its low-order byte first, is read back. */
  lemma LengthRead(n: nat)
    requires n < 0x8000
    ensures BodyLength((n % 256) as Byte, (n / 256) as Byte) == n
  {
    ByteBelow(n / 256);
    LowSevenBits((n / 256) as Byte);
    NumberKept(n / 256);
    NumberKept(n % 256);
  }

  /** The sixteenth bit, which marks an encrypted packet, is no part of the length. */
  lemma MarkIgnored(b0: Byte, b1: Byte)
    ensures BodyLength(b0, b1 | 0x80) == BodyLength(b0, b1) == BodyLength(b0, b1 & 0x7f)
  {
    assert (b1 | 0x80) & 0x7f == b1 & 0x7f == (b1 & 0x7f) & 0x7f;
  }

  /** Behind two bytes that give its length a body is a packet for every receiver whose limit is larger. */
  lemma PacketOf(body: seq<Byte>, maxSize: nat)
    requires |body| < 0x8000
    ensures IsPacket([(|body| % 256) as Byte, (|body| / 256) as Byte] + body, maxSize) <==> |body| + 2 < maxSize
  {
    LengthRead(|body|);
  }

  predicate ArePackets(ps: seq<seq<Byte>>, maxSize: nat)
  {
    ps == [] || (IsPacket(ps[0], maxSize) && ArePackets(ps[1..], maxSize))
  }

  lemma {:induction false} ArePacketsAll(ps: seq<seq<Byte>>, maxSize: nat)
    requires forall i :: 0 <= i < |ps| ==> IsPacket(ps[i], maxSize)
    ensures ArePackets(ps, maxSize)
  {
    if ps != [] {
      ArePacketsAll(ps[1..], maxSize);
    }
  }

  /** Whether the bytes in hand hold no whole packet yet, start with one, or announce one
      that is too long. */
  datatype Head = Pending | Ready(size: nat) | Oversize

  function Classify(s: seq<Byte>, maxSize: nat): Head
  {
    if |s| < HEADER_SIZE then Pending
    else if PacketSize(s) >= maxSize then Oversize
    else if |s| < PacketSize(s) then Pending
    else Ready(PacketSize(s))
  }

  datatype Frames = Frames(packets: seq<seq<Byte>>, rest: seq<Byte>, oversize: bool)

  /** The meaning of a byte stream: its whole packets in order, the unfinished rest, and whether
      the rest announces a packet that is too long. */
  function Frame(s: seq<Byte>, maxSize: nat): (r: Frames)
    decreases |s|
  {
    match Classify(s, maxSize)
    case Pending => Frames([], s, false)
    case Oversize => Frames([], s, true)
    case Ready(n) =>
      var r := Frame(s[n..], maxSize);
      Frames([s[..n]] + r.packets, r.rest, r.oversize)
  }

  lemma ReadyPrefix(s: seq<Byte>, maxSize: nat)
    requires Classify(s, maxSize).Ready?
    ensures IsPacket(s[..Classify(s, maxSize).size], maxSize)
    ensures s == s[..Classify(s, maxSize).size] + s[Classify(s, maxSize).size..]
  {
    assert PacketSize(s[..Classify(s, maxSize).size]) == PacketSize(s);
  }

  lemma ArePacketsCons(p: seq<Byte>, ps: seq<seq<Byte>>, maxSize: nat)
    ensures ArePackets([p] + ps, maxSize) <==> IsPacket(p, maxSize) && ArePackets(ps, maxSize)
  {
    assert ([p] + ps)[1..] == ps;
  }

  lemma {:induction false} ArePacketsSnoc(ps: seq<seq<Byte>>, p: seq<Byte>, maxSize: nat)
    ensures ArePackets(ps + [p], maxSize) <==> ArePackets(ps, maxSize) && IsPacket(p, maxSize)
  {
    if ps == [] {
      assert ps + [p] == [p];
    } else {
      assert (ps + [p])[1..] == ps[1..] + [p];
      ArePacketsSnoc(ps[1..], p, maxSize);
    }
  }

  lemma ArePacketsTail(ps: seq<seq<Byte>>, maxSize: nat)
    requires ps != [] && ArePackets(ps, maxSize)
    ensures ArePackets(ps[1..], maxSize) && IsPacket(ps[0], maxSize)
  {
  }

  /** Framing loses nothing and invents nothing. */
  lemma {:induction false} FrameSound(s: seq<Byte>, maxSize: nat)
    ensures var r := Frame(s, maxSize);
            && s == Flatten(r.packets) + r.rest
            && ArePackets(r.packets, maxSize)
            && Classify(r.rest, maxSize) == (if r.oversize then Oversize else Pending)
    decreases |s|
  {
    var h := Classify(s, maxSize);
    if h.Ready? {
      var n := h.size;
      FrameSound(s[n..], maxSize);
      var r := Frame(s[n..], maxSize);
      ReadyPrefix(s, maxSize);
      FlattenCons(s[..n], r.packets);
      ConcatAssociative(s[..n], Flatten(r.packets), r.rest);
      ArePacketsCons(s[..n], r.packets, maxSize);
    }
  }

  lemma FrameCons(p: seq<Byte>, tail: seq<Byte>, maxSize: nat)
    requires IsPacket(p, maxSize)
    ensures var r := Frame(tail, maxSize);
            Frame(p + tail, maxSize) == Frames([p] + r.packets, r.rest, r.oversize)
  {
    var s := p + tail;
    assert s[..|p|] == p && s[|p|..] == tail;
    assert PacketSize(s) == PacketSize(p);
    assert Classify(s, maxSize) == Ready(|p|);
  }

  /** Framing is the only way to cut the stream: whole packets followed by a rest frame as
      those packets followed by the framing of the rest. */
  lemma {:induction false} FrameComplete(ps: seq<seq<Byte>>, rest: seq<Byte>, maxSize: nat)
    requires ArePackets(ps, maxSize)
    ensures var r := Frame(rest, maxSize);
            Frame(Flatten(ps) + rest, maxSize) == Frames(ps + r.packets, r.rest, r.oversize)
    decreases |ps|
  {
    if ps == [] {
      assert Flatten(ps) + rest == rest;
      assert ps + Frame(rest, maxSize).packets == Frame(rest, maxSize).packets;
    } else {
      var p, tail, r := ps[0], Flatten(ps[1..]) + rest, Frame(rest, maxSize);
      ConcatAssociative(p, Flatten(ps[1..]), rest);
      FrameComplete(ps[1..], rest, maxSize);
      FrameCons(p, tail, maxSize);
      assert ps == [p] + ps[1..];
      ConcatAssociative([p], ps[1..], r.packets);
    }
  }

  /** A longer stream frames to an extension of the shorter one's packets. */
  lemma FrameExtends(s: seq<Byte>, more: seq<Byte>, maxSize: nat)
    ensures var r := Frame(s, maxSize);
            var t := Frame(r.rest + more, maxSize);
            Frame(s + more, maxSize) == Frames(r.packets + t.packets, t.rest, t.oversize)
  {
    hide Classify;
    FrameSound(s, maxSize);
    var r := Frame(s, maxSize);
    ConcatAssociative(Flatten(r.packets), r.rest, more);
    FrameComplete(r.packets, r.rest + more, maxSize);
  }
}
