/** LinkArray_Static of BaseLib/LinkArray.h: an allocator that threads a list of live slots and a
    list of free slots through one array of buckets. */
module LinkArray {

  /** The two lists on values: live slots newest first, free slots next to be used first. */
  datatype Lists = Lists(live: seq<nat>, free: seq<nat>)

  function Without(s: seq<nat>, k: nat): seq<nat>
    requires k < |s|
  {
    s[..k] + s[k + 1..]
  }

  predicate Distinct(s: seq<nat>)
  {
    forall i, j :: 0 <= i < j < |s| ==> s[i] != s[j]
  }

  /** Every slot below `end` is in exactly one list, once. */
  predicate Partition(l: Lists, end: nat)
  {
    && Distinct(l.live + l.free)
    && |l.live| + |l.free| == end
    && (forall i :: 0 <= i < |l.live| ==> l.live[i] < end)
    && (forall i :: 0 <= i < |l.free| ==> l.free[i] < end)
  }

  // ---- operations on values ----

  datatype Op = Alloc | Remove(pos: nat)

  /** Alloc fails when `max` slots are live; Remove is applied to live slots only. */
  predicate Enabled(l: Lists, max: nat, op: Op)
  {
    match op
    case Alloc => |l.live| < max && l.free != []
    case Remove(pos) => pos in l.live
  }

  function IndexOf(s: seq<nat>, x: nat): (k: nat)
    requires x in s
    ensures k < |s| && s[k] == x
  {
    if s[0] == x then 0 else 1 + IndexOf(s[1..], x)
  }

  function Apply(l: Lists, max: nat, op: Op): Lists
    requires Enabled(l, max, op)
  {
    match op
    case Alloc => Lists([l.free[0]] + l.live, l.free[1..])
    case Remove(pos) => Lists(Without(l.live, IndexOf(l.live, pos)), l.free + [pos])
  }

  /** A run in which every operation listed succeeds; failed Allocs change nothing. */
  predicate Runs(l: Lists, max: nat, ops: seq<Op>)
    decreases |ops|
  {
    ops == [] || (Enabled(l, max, ops[0]) && Runs(Apply(l, max, ops[0]), max, ops[1..]))
  }

  function After(l: Lists, max: nat, ops: seq<Op>): Lists
    requires Runs(l, max, ops)
    decreases |ops|
  {
    if ops == [] then l else After(Apply(l, max, ops[0]), max, ops[1..])
  }

  function Allocs(ops: seq<Op>): nat
  {
    if ops == [] then 0 else (if ops[0].Alloc? then 1 else 0) + Allocs(ops[1..])
  }

  lemma ApplyKeepsPartition(l: Lists, max: nat, end: nat, op: Op)
    requires Partition(l, end) && Enabled(l, max, op)
    ensures Partition(Apply(l, max, op), end)
    ensures |l.live| <= max ==> |Apply(l, max, op).live| <= max
  {
    var m := Apply(l, max, op);
    var all := l.live + l.free;
    match op
    case Alloc =>
      forall i, j | 0 <= i < j < end
        ensures (m.live + m.free)[i] != (m.live + m.free)[j]
      {
        assert all[|l.live|] == l.free[0];
        assert i == 0 || (m.live + m.free)[i] == all[if i <= |l.live| then i - 1 else i];
        assert (m.live + m.free)[j] == all[if j <= |l.live| then j - 1 else j];
      }
    case Remove(pos) =>
      var k := IndexOf(l.live, pos);
      assert all[k] == pos;
      forall i, j | 0 <= i < j < end
        ensures (m.live + m.free)[i] != (m.live + m.free)[j]
      {
        assert (m.live + m.free)[i] == all[if i < k then i else i + 1];
        assert j == end - 1 || (m.live + m.free)[j] == all[if j < k then j else j + 1];
      }
  }

  /** A free slot comes nearer to the head by one with every Alloc and not at all with a Remove. */
  lemma {:induction false} FreeIsQueue(l: Lists, max: nat, ops: seq<Op>, k: nat)
    requires Runs(l, max, ops) && Allocs(ops) <= k < |l.free|
    ensures var m := After(l, max, ops);
            k - Allocs(ops) < |m.free| && m.free[k - Allocs(ops)] == l.free[k]
    decreases |ops|
  {
    if ops != [] {
      var m := Apply(l, max, ops[0]);
      match ops[0]
      case Alloc =>
        FreeIsQueue(m, max, ops[1..], k - 1);
      case Remove(pos) =>
        assert m.free[k] == l.free[k];
        FreeIsQueue(m, max, ops[1..], k);
    }
  }

  /** Delayed reuse: a slot that was just removed is handed out by exactly the `end - size`-th
      later Alloc, whatever is removed in between, and that is after at least `extra` others. */
  lemma ReuseIsDelayed(l: Lists, max: nat, extra: nat, pos: nat, ops: seq<Op>)
    requires Partition(l, max + extra) && |l.live| <= max && pos in l.live
    requires Runs(Apply(l, max, Remove(pos)), max, ops)
    ensures var m := Apply(l, max, Remove(pos));
            var size := |m.live|;
            && extra < max + extra - size
            && (Allocs(ops) < max + extra - size ==>
                  var n := After(m, max, ops);
                  && pos in n.free
                  && (n.free[0] == pos <==> Allocs(ops) == max + extra - size - 1))
  {
    hide Distinct, Runs, After, Allocs;
    var m := Apply(l, max, Remove(pos));
    ApplyKeepsPartition(l, max, max + extra, Remove(pos));
    var k := |m.free| - 1;
    if Allocs(ops) <= k {
      FreeIsQueue(m, max, ops, k);
      RunKeepsPartition(m, max, max + extra, ops);
      var n := After(m, max, ops);
      if Allocs(ops) < k {
        FreeDiffers(n, max + extra, 0, k - Allocs(ops));
      }
    }
  }

  lemma {:induction false} RunKeepsPartition(l: Lists, max: nat, end: nat, ops: seq<Op>)
    requires Partition(l, end) && Runs(l, max, ops)
    ensures Partition(After(l, max, ops), end)
    ensures |l.live| <= max ==> |After(l, max, ops).live| <= max
    decreases |ops|
  {
    if ops != [] {
      ApplyKeepsPartition(l, max, end, ops[0]);
      RunKeepsPartition(Apply(l, max, ops[0]), max, end, ops[1..]);
    }
  }

  // ---- the array ----

  datatype Bucket<T> = Bucket(prev: nat, next: nat, empty: bool, data: T)

  /** The slots of `s` are linked in this order, with the number of slots standing for
      no slot before the first and after the last, and all carry the flag. */
  predicate Chained<T>(a: seq<Bucket<T>>, s: seq<nat>, empty: bool)
  {
    forall i :: 0 <= i < |s| ==> LinkedAt(a, s, empty, i)
  }

  predicate LinkedAt<T>(a: seq<Bucket<T>>, s: seq<nat>, empty: bool, i: nat)
    requires i < |s|
  {
    && s[i] < |a|
    && a[s[i]].prev == (if i == 0 then |a| else s[i - 1])
    && a[s[i]].next == (if i + 1 == |s| then |a| else s[i + 1])
    && a[s[i]].empty == empty
  }

  /** The buckets hold the two lists, and their flags say which list they are in. */
  predicate Represents<T>(a: seq<Bucket<T>>, l: Lists)
  {
    Partition(l, |a|) && Chained(a, l.live, false) && Chained(a, l.free, true)
  }

  function First(s: seq<nat>, end: nat): nat
  {
    if s == [] then end else s[0]
  }

  function Last(s: seq<nat>, end: nat): nat
  {
    if s == [] then end else s[|s| - 1]
  }

  /** The slot `p` after Alloc has taken the head of the free list. */
  function AllocSlot<T>(a: seq<Bucket<T>>, l: Lists, p: nat): Bucket<T>
    requires p < |a| && l.free != []
  {
    if p == l.free[0] then a[p].(next := First(l.live, |a|), empty := false)
    else if |l.free| > 1 && p == l.free[1] then a[p].(prev := |a|)
    else if l.live != [] && p == l.live[0] then a[p].(prev := l.free[0])
    else a[p]
  }

  /** The slot `p` after Remove has moved live slot number `k` to the end of the free list. */
  function RemoveSlot<T>(a: seq<Bucket<T>>, l: Lists, k: nat, p: nat): Bucket<T>
    requires p < |a| && k < |l.live|
  {
    if p == l.live[k] then a[p].(prev := Last(l.free, |a|), next := |a|, empty := true)
    else if k + 1 < |l.live| && p == l.live[k + 1] then a[p].(prev := if k == 0 then |a| else l.live[k - 1])
    else if 0 < k && p == l.live[k - 1] then a[p].(next := if k + 1 == |l.live| then |a| else l.live[k + 1])
    else if l.free != [] && p == l.free[|l.free| - 1] then a[p].(next := l.live[k])
    else a[p]
  }

  lemma LiveDiffers(l: Lists, end: nat, i: nat, j: nat)
    requires Partition(l, end) && i < |l.live| && j < |l.live| && i != j
    ensures l.live[i] != l.live[j]
  {
    var all := l.live + l.free;
    assert all[i] == l.live[i] && all[j] == l.live[j];
  }

  lemma FreeDiffers(l: Lists, end: nat, i: nat, j: nat)
    requires Partition(l, end) && i < |l.free| && j < |l.free| && i != j
    ensures l.free[i] != l.free[j]
  {
    var all, n := l.live + l.free, |l.live|;
    assert all[n + i] == l.free[i] && all[n + j] == l.free[j];
  }

  lemma LiveNotFree(l: Lists, end: nat, i: nat, j: nat)
    requires Partition(l, end) && i < |l.live| && j < |l.free|
    ensures l.live[i] != l.free[j]
  {
    var all, n := l.live + l.free, |l.live|;
    assert all[i] == l.live[i] && all[n + j] == l.free[j];
  }

  ghost predicate AllocatedFrom<T>(a: seq<Bucket<T>>, a': seq<Bucket<T>>, l: Lists)
  {
    |a'| == |a| && l.free != [] && forall p {:trigger a'[p]} :: 0 <= p < |a| ==> a'[p] == AllocSlot(a, l, p)
  }

  lemma AllocLiveAt<T>(a: seq<Bucket<T>>, a': seq<Bucket<T>>, l: Lists, i: nat)
    requires Represents(a, l) && AllocatedFrom(a, a', l) && i <= |l.live|
    ensures LinkedAt(a', [l.free[0]] + l.live, false, i)
  {
    assert LinkedAt(a, l.free, true, 0);
    if i > 0 {
      assert LinkedAt(a, l.live, false, i - 1);
      LiveNotFree(l, |a|, i - 1, 0);
      if |l.free| > 1 {
        LiveNotFree(l, |a|, i - 1, 1);
      }
      if i > 1 {
        LiveDiffers(l, |a|, i - 1, 0);
      }
    }
  }

  lemma AllocFreeAt<T>(a: seq<Bucket<T>>, a': seq<Bucket<T>>, l: Lists, i: nat)
    requires Represents(a, l) && AllocatedFrom(a, a', l) && i + 1 < |l.free|
    ensures LinkedAt(a', l.free[1..], true, i)
  {
    assert LinkedAt(a, l.free, true, i + 1);
    FreeDiffers(l, |a|, i + 1, 0);
    if i > 0 {
      FreeDiffers(l, |a|, i + 1, 1);
    }
    if l.live != [] {
      LiveNotFree(l, |a|, 0, i + 1);
    }
  }

  lemma AllocRepresents<T>(a: seq<Bucket<T>>, a': seq<Bucket<T>>, l: Lists, max: nat)
    requires Represents(a, l) && AllocatedFrom(a, a', l) && Enabled(l, max, Alloc)
    ensures Represents(a', Apply(l, max, Alloc))
  {
    ApplyKeepsPartition(l, max, |a|, Alloc);
    hide Partition, LinkedAt, AllocatedFrom;
    var m := Apply(l, max, Alloc);
    forall i | 0 <= i < |m.live|
      ensures LinkedAt(a', m.live, false, i)
    {
      AllocLiveAt(a, a', l, i);
    }
    forall i | 0 <= i < |m.free|
      ensures LinkedAt(a', m.free, true, i)
    {
      AllocFreeAt(a, a', l, i);
    }
  }

  ghost predicate RemovedFrom<T>(a: seq<Bucket<T>>, a': seq<Bucket<T>>, l: Lists, k: nat)
  {
    |a'| == |a| && k < |l.live| && forall p {:trigger a'[p]} :: 0 <= p < |a| ==> a'[p] == RemoveSlot(a, l, k, p)
  }

  lemma RemoveLiveAt<T>(a: seq<Bucket<T>>, a': seq<Bucket<T>>, l: Lists, k: nat, i: nat)
    requires Represents(a, l) && RemovedFrom(a, a', l, k) && i + 1 < |l.live|
    ensures LinkedAt(a', Without(l.live, k), false, i)
  {
    var j := if i < k then i else i + 1;
    assert LinkedAt(a, l.live, false, j);
    LiveDiffers(l, |a|, j, k);
    if l.free != [] {
      LiveNotFree(l, |a|, j, |l.free| - 1);
    }
    if k + 1 < |l.live| && j != k + 1 {
      LiveDiffers(l, |a|, j, k + 1);
    }
    if 0 < k && j != k - 1 {
      LiveDiffers(l, |a|, j, k - 1);
    }
  }

  lemma RemoveFreeAt<T>(a: seq<Bucket<T>>, a': seq<Bucket<T>>, l: Lists, k: nat, i: nat)
    requires Represents(a, l) && RemovedFrom(a, a', l, k) && i <= |l.free|
    ensures LinkedAt(a', l.free + [l.live[k]], true, i)
  {
    assert LinkedAt(a, l.live, false, k);
    if i < |l.free| {
      assert LinkedAt(a, l.free, true, i);
      LiveNotFree(l, |a|, k, i);
      if k + 1 < |l.live| {
        LiveNotFree(l, |a|, k + 1, i);
      }
      if 0 < k {
        LiveNotFree(l, |a|, k - 1, i);
      }
      if i < |l.free| - 1 {
        FreeDiffers(l, |a|, i, |l.free| - 1);
      }
    }
  }

  lemma RemoveRepresents<T>(a: seq<Bucket<T>>, a': seq<Bucket<T>>, l: Lists, max: nat, pos: nat)
    requires Represents(a, l) && Enabled(l, max, Remove(pos)) && RemovedFrom(a, a', l, IndexOf(l.live, pos))
    ensures Represents(a', Apply(l, max, Remove(pos)))
  {
    ApplyKeepsPartition(l, max, |a|, Remove(pos));
    hide Partition, LinkedAt, RemovedFrom;
    var k, m := IndexOf(l.live, pos), Apply(l, max, Remove(pos));
    forall i | 0 <= i < |m.live|
      ensures LinkedAt(a', m.live, false, i)
    {
      RemoveLiveAt(a, a', l, k, i);
    }
    forall i | 0 <= i < |m.free|
      ensures LinkedAt(a', m.free, true, i)
    {
      RemoveFreeAt(a, a', l, k, i);
    }
  }

  // ---- counting ----

  /** The slots of an array of `n`. */
  function Slots(n: nat): set<nat>
  {
    if n == 0 then {} else Slots(n - 1) + {n - 1}
  }

  lemma {:induction false} SlotsCount(n: nat)
    ensures |Slots(n)| == n && forall p: nat :: p in Slots(n) <==> p < n
  {
    if n > 0 {
      SlotsCount(n - 1);
    }
  }

  function Elements(s: seq<nat>): set<nat>
  {
    set x | x in s
  }

  lemma {:induction false} DistinctCount(s: seq<nat>)
    requires Distinct(s)
    ensures |Elements(s)| == |s|
  {
    if s != [] {
      var t, x := s[..|s| - 1], s[|s| - 1];
      DistinctCount(t);
      assert s == t + [x];
      assert forall i :: 0 <= i < |t| ==> t[i] == s[i];
      assert x !in t;
      assert Elements(s) == Elements(t) + {x};
    }
  }

  lemma {:induction false} SubsetCount(a: set<nat>, b: set<nat>)
    requires a <= b
    ensures |a| <= |b| && (|a| == |b| ==> a == b)
  {
    if a == {} {
    } else {
      var x :| x in a;
      SubsetCount(a - {x}, b - {x});
    }
  }

  /** A slot of the array is live or free. */
  lemma Covered(l: Lists, end: nat, p: nat)
    requires Partition(l, end) && p < end
    ensures p in l.live || p in l.free
  {
    var all := l.live + l.free;
    DistinctCount(all);
    SlotsCount(end);
    assert forall x :: x in all ==> x in Slots(end);
    SubsetCount(Elements(all), Slots(end));
    assert p in Elements(all);
  }

  function UsedSlots<T>(a: seq<Bucket<T>>): set<nat>
  {
    set p | p in Slots(|a|) && p < |a| && !a[p].empty
  }

  /** However the lists run, the number of live slots can be read off the flags. */
  lemma LiveCount<T>(a: seq<Bucket<T>>, l: Lists)
    requires Represents(a, l)
    ensures |UsedSlots(a)| == |l.live|
  {
    SlotsCount(|a|);
    forall p: nat | p < |a|
      ensures !a[p].empty <==> p in l.live
    {
      Covered(l, |a|, p);
      if p in l.live {
        var i :| 0 <= i < |l.live| && l.live[i] == p;
        assert LinkedAt(a, l.live, false, i);
      } else {
        var i :| 0 <= i < |l.free| && l.free[i] == p;
        assert LinkedAt(a, l.free, true, i);
      }
    }
    assert UsedSlots(a) == Elements(l.live);
    assert Distinct(l.live) by {
      assert forall i :: 0 <= i < |l.live| ==> (l.live + l.free)[i] == l.live[i];
    }
    DistinctCount(l.live);
  }

  // ---- the class ----

  class LinkArrayStatic<T(0)> {
    const MAX_SIZE: nat
    const EXTRA_SIZE: nat
    const array_: array<Bucket<T>>
    var size: int
    var maxSize: int
    var begin: nat
    var rBegin: nat
    var emptyHead: nat
    var emptyTail: nat

    ghost var lists: Lists
    /** The largest number of slots that were ever live at once. */
    ghost var highWater: nat

    /** The object's fields describe the lists `l`. */
    ghost predicate Describes(l: Lists)
      reads this, array_
    {
      && array_.Length == MAX_SIZE + EXTRA_SIZE
      && Represents(array_[..], l)
      && size == |l.live| <= MAX_SIZE
      && begin == First(l.live, array_.Length) && rBegin == Last(l.live, array_.Length)
      && emptyHead == First(l.free, array_.Length) && emptyTail == Last(l.free, array_.Length)
    }

    ghost predicate Valid()
      reads this, array_
    {
      Describes(lists) && maxSize == highWater && |lists.live| <= highWater
    }

    /** Create with Precreate: every slot is free, in the order of the array. The first bucket's
        prev is a wrapped -1 until it is overwritten. */
    constructor Create(MaxSize: nat, ExtraSize: nat)
      requires 3 < MaxSize + ExtraSize < 0x1_0000_0000
      ensures Valid() && fresh(array_)
      ensures MAX_SIZE == MaxSize && EXTRA_SIZE == ExtraSize
      ensures lists == Lists([], seq(MaxSize + ExtraSize, i => i)) && highWater == 0
    {
      MAX_SIZE, EXTRA_SIZE := MaxSize, ExtraSize;
      var n := MaxSize + ExtraSize;
      array_ := new Bucket<T>[n];
      size, maxSize, begin, rBegin := 0, 0, n, n;
      emptyHead, emptyTail := 0, n - 1;
      lists, highWater := Lists([], seq(n, i => i)), 0;
      new;
      for pos := 0 to n
        modifies array_
        invariant forall p :: 0 <= p < pos ==> array_[p].empty && array_[p].next == p + 1
        invariant forall p :: 0 < p < pos ==> array_[p].prev == p - 1
      {
        array_[pos] := array_[pos].(empty := true, prev := if pos == 0 then 0xffff_ffff else pos - 1, next := pos + 1);
      }
      array_[0] := array_[0].(prev := n);
      array_[n - 1] := array_[n - 1].(next := n);
      forall i | 0 <= i < n
        ensures LinkedAt(array_[..], lists.free, true, i)
      {
      }
    }

    predicate IsEmpty()
      reads this
    {
      begin == array_.Length
    }

    function GetFreeSize(): int
      reads this
    {
      MAX_SIZE - size
    }

    /** Begin and Next walk the live slots, newest first; rBegin and Prev walk back. */
    function Begin(): (pos: nat)
      requires Valid()
      reads this, array_
      ensures pos == if lists.live == [] then array_.Length else lists.live[0]
    {
      begin
    }

    function RBegin(): (pos: nat)
      requires Valid()
      reads this, array_
      ensures pos == if lists.live == [] then array_.Length else lists.live[|lists.live| - 1]
    {
      rBegin
    }

    function Next(pos: nat, ghost i: nat): (next: nat)
      requires Valid() && i < |lists.live| && pos == lists.live[i]
      reads this, array_
      ensures next == if i + 1 == |lists.live| then array_.Length else lists.live[i + 1]
    {
      assert LinkedAt(array_[..], lists.live, false, i);
      array_[pos].next
    }

    function Prev(pos: nat, ghost i: nat): (prev: nat)
      requires Valid() && i < |lists.live| && pos == lists.live[i]
      reads this, array_
      ensures prev == if i == 0 then array_.Length else lists.live[i - 1]
    {
      assert LinkedAt(array_[..], lists.live, false, i);
      array_[pos].prev
    }

    /** The links of Alloc: the head of the free list becomes the head of the live list. */
    method LinkFront() returns (pos: nat)
      requires Describes(lists) && Enabled(lists, MAX_SIZE, Op.Alloc)
      modifies this`begin, this`rBegin, this`emptyHead, this`emptyTail, array_
      ensures var m := Apply(lists, MAX_SIZE, Op.Alloc);
              && Represents(array_[..], m)
              && begin == First(m.live, array_.Length) && rBegin == Last(m.live, array_.Length)
              && emptyHead == First(m.free, array_.Length) && emptyTail == Last(m.free, array_.Length)
      ensures pos == lists.free[0] && pos < array_.Length
      ensures forall p {:trigger array_[p]} :: 0 <= p < array_.Length ==> array_[p].data == old(array_[p].data)
    {
      hide Partition, Represents, Chained, LinkedAt, Apply, First, Last, AllocatedFrom;
      ghost var a, l := array_[..], lists;
      ListEnds(a, l);
      AllocSlotsDiffer(a, l, MAX_SIZE);
      AllocEnds(l, MAX_SIZE, array_.Length);
      pos := emptyHead;
      emptyHead := array_[pos].next;
      if emptyHead != array_.Length {
        array_[emptyHead] := array_[emptyHead].(prev := array_.Length);
      } else {
        emptyTail := array_.Length;
      }
      array_[pos] := array_[pos].(next := begin);
      if array_[pos].next != array_.Length {
        array_[array_[pos].next] := array_[array_[pos].next].(prev := pos);
      }
      begin := pos;
      if rBegin == array_.Length {
        rBegin := pos;
      }
      array_[pos] := array_[pos].(empty := false);
      ghost var a' := array_[..];
      assert forall p {:trigger a'[p]} :: 0 <= p < |a| ==> a'[p] == AllocSlot(a, l, p);
      hide AllocSlot;
      AllocatedAll(a, a', l);
      AllocRepresents(a, a', l, MAX_SIZE);
      forall p {:trigger array_[p]} | 0 <= p < array_.Length
        ensures array_[p].data == old(array_[p].data)
      {
        assert a'[p].data == a[p].data;
      }
    }

    /** Alloc: a slot is handed out as long as fewer than MAX_SIZE are live, always the one that
        has been free for longest. */
    method Alloc() returns (ok: bool, pos: nat)
      requires Valid()
      modifies this`size, this`maxSize, this`begin, this`rBegin, this`emptyHead, this`emptyTail
      modifies this`lists, this`highWater, array_
      ensures Valid()
      ensures ok <==> old(|lists.live|) < MAX_SIZE
      ensures !ok ==> lists == old(lists) && highWater == old(highWater) && array_[..] == old(array_[..])
      ensures ok ==>
                && Enabled(old(lists), MAX_SIZE, Op.Alloc) && lists == Apply(old(lists), MAX_SIZE, Op.Alloc)
                && pos == old(lists).free[0] && pos < array_.Length
                && highWater == (if |lists.live| > old(highWater) then |lists.live| else old(highWater))
      ensures forall p {:trigger array_[p]} :: 0 <= p < array_.Length ==> array_[p].data == old(array_[p].data)
    {
      hide Partition, Represents, Chained, LinkedAt, Apply, First, Last, AllocatedFrom;
      ListEnds(array_[..], lists);
      AllocSlotsDiffer(array_[..], lists, MAX_SIZE);
      if emptyTail == array_.Length || GetFreeSize() == 0 {
        return false, 0;
      }
      AllocEnds(lists, MAX_SIZE, array_.Length);
      pos := LinkFront();
      lists := Apply(lists, MAX_SIZE, Op.Alloc);
      size := size + 1;
      if size > maxSize {
        maxSize := size;
        highWater := size;
      }
      return true, pos;
    }

    /** Insert: Alloc, and the value goes into the slot. */
    method Insert(t: T) returns (pos: nat)
      requires Valid()
      modifies this`size, this`maxSize, this`begin, this`rBegin, this`emptyHead, this`emptyTail
      modifies this`lists, this`highWater, array_
      ensures Valid()
      ensures pos < array_.Length <==> old(|lists.live|) < MAX_SIZE
      ensures pos == array_.Length ==> lists == old(lists) && array_[..] == old(array_[..])
      ensures pos < array_.Length ==>
                && Enabled(old(lists), MAX_SIZE, Op.Alloc) && lists == Apply(old(lists), MAX_SIZE, Op.Alloc)
                && pos == old(lists).free[0] && array_[pos].data == t
                && (forall p {:trigger array_[p]} ::
                      0 <= p < array_.Length && p != pos ==> array_[p].data == old(array_[p].data))
    {
      hide Partition, Apply, First, Last;
      var ok;
      ok, pos := Alloc();
      if !ok {
        return array_.Length;
      }
      ghost var a := array_[..];
      array_[pos] := array_[pos].(data := t);
      SameLinks(a, array_[..], lists);
    }

    /** The first half of Remove's links: the neighbours of the slot are joined. */
    method Unlink(pos: nat)
      requires pos < array_.Length
      requires array_[pos].prev <= array_.Length && array_[pos].next <= array_.Length
      requires array_[pos].prev != pos && array_[pos].next != pos
      modifies this`begin, this`rBegin, array_
      ensures forall p {:trigger array_[p]} ::
                0 <= p < array_.Length ==> array_[p] == UnlinkSlot(old(array_[..]), pos, p)
      ensures begin == if old(array_[pos]).prev == array_.Length then old(array_[pos]).next else old(begin)
      ensures rBegin == if old(rBegin) == pos then old(array_[pos]).prev else old(rBegin)
    {
      if array_[pos].next != array_.Length {
        array_[array_[pos].next] := array_[array_[pos].next].(prev := array_[pos].prev);
      }
      if array_[pos].prev != array_.Length {
        array_[array_[pos].prev] := array_[array_[pos].prev].(next := array_[pos].next);
      } else {
        begin := array_[pos].next;
      }
      if rBegin == pos {
        rBegin := array_[pos].prev;
      }
    }

    /** The second half: the slot becomes the tail of the free list. */
    method AppendFree(pos: nat)
      requires pos < array_.Length && emptyTail <= array_.Length
      modifies this`emptyHead, this`emptyTail, array_
      ensures forall p {:trigger array_[p]} :: 0 <= p < array_.Length ==>
                array_[p] == AppendSlot(old(array_[..]), old(emptyTail), pos, p)
      ensures emptyHead == if old(emptyTail) == array_.Length then pos else old(emptyHead)
      ensures emptyTail == pos
    {
      array_[pos] := array_[pos].(prev := emptyTail);
      array_[pos] := array_[pos].(next := array_.Length);
      if array_[pos].prev != array_.Length {
        array_[array_[pos].prev] := array_[array_[pos].prev].(next := pos);
      } else {
        emptyHead := pos;
      }
      emptyTail := pos;
      array_[pos] := array_[pos].(empty := true);
    }

    /** Remove. It has a meaning for live slots, and does nothing when the position is no slot or
        no slot is live. The code does not check that the slot is live: if it is not, no lists at
        all describe the object any more, because the size no longer matches the flags. */
    method Remove(pos: nat) returns (ret: nat)
      requires Valid()
      modifies this`size, this`begin, this`rBegin, this`emptyHead, this`emptyTail, this`lists, array_
      ensures maxSize == highWater == old(highWater)
      ensures forall p {:trigger array_[p]} :: 0 <= p < array_.Length ==> array_[p].data == old(array_[p].data)
      ensures old(pos >= array_.Length || lists.live == []) ==>
                Valid() && ret == array_.Length && lists == old(lists) && array_[..] == old(array_[..])
      ensures old(pos in lists.live) ==>
                && Valid() && lists == Apply(old(lists), MAX_SIZE, Op.Remove(pos))
                && ret == (var i := IndexOf(old(lists).live, pos) + 1;
                           if i == |old(lists).live| then array_.Length else old(lists).live[i])
      ensures (exists l :: Describes(l)) <==> old(pos >= array_.Length || lists.live == [] || pos in lists.live)
    {
      hide Partition, Represents, Chained, First, Last, UnlinkSlot, AppendSlot, Apply, LinkedAt;
      ghost var a, l := array_[..], lists;
      ListEnds(a, l);
      LiveInside(a, l);
      if pos >= array_.Length || IsEmpty() {
        assert Describes(lists);
        return array_.Length;
      }
      NeighboursInside(a, l, pos);
      ret := array_[pos].next;
      Unlink(pos);
      ghost var b := array_[..];
      AppendFree(pos);
      ghost var a' := array_[..];
      size := size - 1;
      TwoHalves(a, b, a', l, pos, MAX_SIZE);
      if pos in l.live {
        RemoveEnds(l, MAX_SIZE, pos, |a|);
        RemoveSlotsDiffer(a, l, IndexOf(l.live, pos));
        lists := Apply(l, MAX_SIZE, Op.Remove(pos));
        assert Describes(lists);
      } else {
        forall m | Describes(m)
          ensures false
        {
          LiveCount(a', m);
        }
      }
    }
  }

  lemma LiveInside<T>(a: seq<Bucket<T>>, l: Lists)
    requires Represents(a, l)
    ensures forall p :: p in l.live ==> p < |a|
  {
  }

  /** What the two halves of Remove come to: for a live slot the lists as they should be, for any
      other slot unchanged flags. */
  lemma TwoHalves<T>(a: seq<Bucket<T>>, b: seq<Bucket<T>>, a': seq<Bucket<T>>, l: Lists, pos: nat, max: nat)
    requires Represents(a, l) && |a'| == |b| == |a| && pos < |a|
    requires forall p {:trigger b[p]} :: 0 <= p < |a| ==> b[p] == UnlinkSlot(a, pos, p)
    requires forall p {:trigger a'[p]} :: 0 <= p < |a| ==> a'[p] == AppendSlot(b, Last(l.free, |a|), pos, p)
    ensures forall p {:trigger a'[p]} :: 0 <= p < |a| ==> a'[p].data == a[p].data
    ensures pos in l.live ==>
              && Represents(a', Apply(l, max, Remove(pos)))
              && a[pos].prev == (var k := IndexOf(l.live, pos); if k == 0 then |a| else l.live[k - 1])
              && a[pos].next == (var k := IndexOf(l.live, pos); if k + 1 == |l.live| then |a| else l.live[k + 1])
    ensures pos !in l.live ==> |UsedSlots(a')| == |l.live|
  {
    hide Partition, Represents, Chained, Apply, LinkedAt;
    forall p {:trigger a'[p]} | 0 <= p < |a|
      ensures a'[p].data == a[p].data && a'[p].empty == (a[p].empty || p == pos)
    {
      assert b[p] == UnlinkSlot(a, pos, p);
    }
    hide UnlinkSlot, AppendSlot;
    NeighboursInside(a, l, pos);
    if pos in l.live {
      RemovedRepresents(a, b, a', l, pos, max);
    } else {
      LiveCount(a, l);
      SameFlagsSameCount(a, a');
    }
  }

  lemma RemovedRepresents<T>(a: seq<Bucket<T>>, b: seq<Bucket<T>>, a': seq<Bucket<T>>, l: Lists, pos: nat, max: nat)
    requires Represents(a, l) && |a'| == |b| == |a| && pos < |a| && pos in l.live
    requires forall p {:trigger b[p]} :: 0 <= p < |a| ==> b[p] == UnlinkSlot(a, pos, p)
    requires forall p {:trigger a'[p]} :: 0 <= p < |a| ==> a'[p] == AppendSlot(b, Last(l.free, |a|), pos, p)
    ensures Represents(a', Apply(l, max, Remove(pos)))
    ensures a[pos].prev == (var k := IndexOf(l.live, pos); if k == 0 then |a| else l.live[k - 1])
    ensures a[pos].next == (var k := IndexOf(l.live, pos); if k + 1 == |l.live| then |a| else l.live[k + 1])
  {
    hide Partition, Represents, Chained, Apply, UnlinkSlot, AppendSlot, RemoveSlot;
    var k := IndexOf(l.live, pos);
    RemoveSlotsDiffer(a, l, k);
    forall p {:trigger a'[p]} | 0 <= p < |a|
      ensures a'[p] == RemoveSlot(a, l, k, p)
    {
      assert b[p] == UnlinkSlot(a, pos, p);
      RemoveInTwo(a, b, l, k, p);
    }
    RemovedAll(a, a', l, k);
    RemoveRepresents(a, a', l, max, pos);
  }

  /** The effect of the two halves of Remove on one slot. */
  function UnlinkSlot<T>(a: seq<Bucket<T>>, pos: nat, p: nat): Bucket<T>
    requires pos < |a| && p < |a|
  {
    var b := if p == a[pos].next then a[p].(prev := a[pos].prev) else a[p];
    if p == a[pos].prev then b.(next := a[pos].next) else b
  }

  function AppendSlot<T>(a: seq<Bucket<T>>, tail: nat, pos: nat, p: nat): Bucket<T>
    requires p < |a|
  {
    var b := if p == pos then a[p].(prev := tail, next := |a|, empty := true) else a[p];
    if p == tail then b.(next := pos) else b
  }

  lemma RemoveInTwo<T>(a: seq<Bucket<T>>, b: seq<Bucket<T>>, l: Lists, k: nat, p: nat)
    requires Represents(a, l) && |b| == |a| && k < |l.live| && p < |a| && l.live[k] < |a|
    requires b[p] == UnlinkSlot(a, l.live[k], p)
    ensures AppendSlot(b, Last(l.free, |a|), l.live[k], p) == RemoveSlot(a, l, k, p)
  {
    hide Represents;
    RemoveSlotsDiffer(a, l, k);
    ListEnds(a, l);
  }

  lemma SameFlagsSameCount<T>(a: seq<Bucket<T>>, a': seq<Bucket<T>>)
    requires |a'| == |a| && forall p :: 0 <= p < |a| ==> a'[p].empty == a[p].empty
    ensures |UsedSlots(a')| == |UsedSlots(a)|
  {
    assert UsedSlots(a') == UsedSlots(a);
  }

  /** The neighbours of any slot are slots, or none. */
  lemma NeighboursInside<T>(a: seq<Bucket<T>>, l: Lists, pos: nat)
    requires Represents(a, l) && pos < |a|
    ensures a[pos].prev <= |a| && a[pos].next <= |a| && a[pos].prev != pos && a[pos].next != pos
    ensures a[pos].empty <==> pos !in l.live
  {
    Covered(l, |a|, pos);
    if pos in l.live {
      var i := IndexOf(l.live, pos);
      assert LinkedAt(a, l.live, false, i);
      if i > 0 {
        assert LinkedAt(a, l.live, false, i - 1);
        LiveDiffers(l, |a|, i - 1, i);
      }
      if i + 1 < |l.live| {
        assert LinkedAt(a, l.live, false, i + 1);
        LiveDiffers(l, |a|, i + 1, i);
      }
    } else {
      var i := IndexOf(l.free, pos);
      assert LinkedAt(a, l.free, true, i);
      if i > 0 {
        assert LinkedAt(a, l.free, true, i - 1);
        FreeDiffers(l, |a|, i - 1, i);
      }
      if i + 1 < |l.free| {
        assert LinkedAt(a, l.free, true, i + 1);
        FreeDiffers(l, |a|, i + 1, i);
      }
    }
  }

  lemma RemovedAll<T>(a: seq<Bucket<T>>, a': seq<Bucket<T>>, l: Lists, k: nat)
    requires |a'| == |a| && k < |l.live|
    requires forall p {:trigger a'[p]} :: 0 <= p < |a| ==> a'[p] == RemoveSlot(a, l, k, p)
    ensures RemovedFrom(a, a', l, k)
  {
  }

  lemma RemoveEnds(l: Lists, max: nat, pos: nat, end: nat)
    requires pos in l.live
    ensures var m, k := Apply(l, max, Remove(pos)), IndexOf(l.live, pos);
            && |m.live| == |l.live| - 1
            && First(m.live, end) == (if k > 0 then First(l.live, end) else if |l.live| == 1 then end else l.live[1])
            && Last(m.live, end)
               == (if k + 1 < |l.live| then Last(l.live, end) else if k == 0 then end else l.live[k - 1])
            && First(m.free, end) == (if l.free == [] then pos else First(l.free, end))
            && Last(m.free, end) == pos
  {
  }

  lemma RemoveSlotsDiffer<T>(a: seq<Bucket<T>>, l: Lists, k: nat)
    requires Represents(a, l) && k < |l.live|
    ensures LinkedAt(a, l.live, false, k)
    ensures k > 0 ==> l.live[0] != l.live[k] && l.live[k - 1] != l.live[k] && l.live[k - 1] < |a|
    ensures k + 1 < |l.live| ==>
              l.live[k + 1] != l.live[k] && l.live[k + 1] < |a| && l.live[|l.live| - 1] != l.live[k]
    ensures k > 0 && k + 1 < |l.live| ==> l.live[k - 1] != l.live[k + 1]
    ensures l.free != [] ==>
              var f := l.free[|l.free| - 1];
              && f != l.live[k] && (k > 0 ==> l.live[k - 1] != f) && (k + 1 < |l.live| ==> l.live[k + 1] != f)
  {
    assert LinkedAt(a, l.live, false, k);
    if k > 0 {
      LiveDiffers(l, |a|, 0, k);
      LiveDiffers(l, |a|, k - 1, k);
      assert LinkedAt(a, l.live, false, k - 1);
    }
    if k + 1 < |l.live| {
      LiveDiffers(l, |a|, k + 1, k);
      LiveDiffers(l, |a|, |l.live| - 1, k);
      assert LinkedAt(a, l.live, false, k + 1);
      if k > 0 {
        LiveDiffers(l, |a|, k - 1, k + 1);
      }
    }
    if l.free != [] {
      LiveNotFree(l, |a|, k, |l.free| - 1);
      if k > 0 {
        LiveNotFree(l, |a|, k - 1, |l.free| - 1);
      }
      if k + 1 < |l.live| {
        LiveNotFree(l, |a|, k + 1, |l.free| - 1);
      }
    }
  }

  lemma SameLinks<T>(a: seq<Bucket<T>>, a': seq<Bucket<T>>, l: Lists)
    requires Represents(a, l) && |a'| == |a|
    requires forall p :: 0 <= p < |a| ==>
               a'[p].prev == a[p].prev && a'[p].next == a[p].next && a'[p].empty == a[p].empty
    ensures Represents(a', l)
  {
    forall i | 0 <= i < |l.live|
      ensures LinkedAt(a', l.live, false, i)
    {
      assert LinkedAt(a, l.live, false, i);
    }
    forall i | 0 <= i < |l.free|
      ensures LinkedAt(a', l.free, true, i)
    {
      assert LinkedAt(a, l.free, true, i);
    }
  }

  lemma AllocatedAll<T>(a: seq<Bucket<T>>, a': seq<Bucket<T>>, l: Lists)
    requires |a'| == |a| && l.free != []
    requires forall p {:trigger a'[p]} :: 0 <= p < |a| ==> a'[p] == AllocSlot(a, l, p)
    ensures AllocatedFrom(a, a', l)
    ensures forall p {:trigger a'[p]} :: 0 <= p < |a| ==> a'[p].data == a[p].data
  {
  }

  lemma AllocEnds(l: Lists, max: nat, end: nat)
    requires Enabled(l, max, Alloc)
    ensures var m := Apply(l, max, Alloc);
            && |m.live| == |l.live| + 1
            && First(m.live, end) == l.free[0]
            && Last(m.live, end) == (if l.live == [] then l.free[0] else Last(l.live, end))
            && First(m.free, end) == (if |l.free| == 1 then end else l.free[1])
            && Last(m.free, end) == (if |l.free| == 1 then end else Last(l.free, end))
  {
  }

  /** What the cursors point at. */
  lemma ListEnds<T>(a: seq<Bucket<T>>, l: Lists)
    requires Represents(a, l)
    ensures |l.live| + |l.free| == |a|
    ensures if l.live == [] then First(l.live, |a|) == Last(l.live, |a|) == |a|
            else First(l.live, |a|) == l.live[0] < |a| && Last(l.live, |a|) == l.live[|l.live| - 1] < |a|
    ensures if l.free == [] then First(l.free, |a|) == Last(l.free, |a|) == |a|
            else First(l.free, |a|) == l.free[0] < |a| && Last(l.free, |a|) == l.free[|l.free| - 1] < |a|
    ensures l.free != [] ==> a[l.free[0]].next == if |l.free| == 1 then |a| else l.free[1]
    ensures |l.free| > 1 ==> l.free[1] < |a|
  {
    if l.live != [] {
      assert LinkedAt(a, l.live, false, 0) && LinkedAt(a, l.live, false, |l.live| - 1);
    }
    if l.free != [] {
      assert LinkedAt(a, l.free, true, 0) && LinkedAt(a, l.free, true, |l.free| - 1);
      if |l.free| > 1 {
        assert LinkedAt(a, l.free, true, 1);
      }
    }
  }

  lemma AllocSlotsDiffer<T>(a: seq<Bucket<T>>, l: Lists, max: nat)
    requires Represents(a, l) && |l.live| <= max <= |a|
    ensures |l.live| < max ==> l.free != []
    ensures |l.free| > 1 ==> l.free[0] != l.free[1]
    ensures l.live != [] && l.free != [] ==> l.live[0] != l.free[0]
    ensures l.live != [] && |l.free| > 1 ==> l.live[0] != l.free[1]
  {
    if |l.free| > 1 {
      FreeDiffers(l, |a|, 0, 1);
    }
    if l.live != [] && l.free != [] {
      LiveNotFree(l, |a|, 0, 0);
      if |l.free| > 1 {
        LiveNotFree(l, |a|, 0, 1);
      }
    }
  }
}
