/** The intrusive doubly linked list of BaseLib/LinkList.h: what its pointers stand for is a sequence of objects. */
module LinkList {

  class LinkObject {
    var prev: LinkObject?
    var next: LinkObject?

    constructor ()
      ensures prev == null && next == null
    {
      prev, next := null, null;
    }
  }

  type Items = seq<LinkObject>

  predicate Distinct(s: Items)
  {
    forall i, j :: 0 <= i < j < |s| ==> s[i] != s[j]
  }

  function Before(s: Items, i: int): LinkObject?
    requires i <= |s|
  {
    if i > 0 then s[i - 1] else null
  }

  function Behind(s: Items, i: int): LinkObject?
    requires -1 <= i
  {
    if i + 1 < |s| then s[i + 1] else null
  }

  predicate LinkedAt(s: Items, i: nat)
    requires i < |s|
    reads s[i]
  {
    s[i].prev == Before(s, i) && s[i].next == Behind(s, i)
  }

  predicate Linked(s: Items)
    reads s
  {
    forall i: nat :: i < |s| ==> LinkedAt(s, i)
  }

  /** Where an object stands. */
  ghost function Place(s: Items, x: LinkObject): (k: nat)
    requires x in s
    ensures k < |s| && s[k] == x
  {
    var k: nat :| k < |s| && s[k] == x;
    k
  }

  function Inserted(s: Items, k: nat, x: LinkObject): (r: Items)
    requires k <= |s|
    ensures |r| == |s| + 1
  {
    s[..k] + [x] + s[k..]
  }

  function Removed(s: Items, k: nat): (r: Items)
    requires k < |s|
    ensures |r| == |s| - 1
  {
    s[..k] + s[k + 1..]
  }

  lemma InsertedDistinct(s: Items, k: nat, x: LinkObject)
    requires Distinct(s) && k <= |s| && x !in s
    ensures Distinct(Inserted(s, k, x))
  {
  }

  lemma RemovedDistinct(s: Items, k: nat)
    requires Distinct(s) && k < |s|
    ensures Distinct(Removed(s, k)) && s[k] !in Removed(s, k)
  {
  }

  lemma InsertedEnds(s: Items, k: nat, x: LinkObject)
    requires k <= |s|
    ensures Behind(Inserted(s, k, x), -1) == if k == 0 then x else Behind(s, -1)
    ensures Before(Inserted(s, k, x), |s| + 1) == if k == |s| then x else Before(s, |s|)
    ensures k == 0 ==> Inserted(s, k, x) == [x] + s
    ensures k == |s| ==> Inserted(s, k, x) == s + [x]
  {
  }

  lemma RemovedEnds(s: Items, k: nat)
    requires k < |s|
    ensures Behind(Removed(s, k), -1) == if k == 0 then Behind(s, 0) else Behind(s, -1)
    ensures Before(Removed(s, k), |s| - 1) == if k == |s| - 1 then Before(s, k) else Before(s, |s|)
    ensures k == 0 ==> Removed(s, k) == s[1..]
    ensures k == |s| - 1 ==> Removed(s, k) == s[..k]
  {
  }

  /** The neighbours of place `k` are members. */
  lemma Neighbours(s: Items, k: nat)
    requires k <= |s|
    ensures Before(s, k) == null <==> k == 0
    ensures Behind(s, k - 1) == null <==> k == |s|
    ensures Before(s, k) != null ==> Before(s, k) in s
    ensures Behind(s, k - 1) != null ==> Behind(s, k - 1) in s
  {
  }

  lemma LinksOf(s: Items, x: LinkObject)
    requires Linked(s) && x in s
    ensures x.prev == Before(s, Place(s, x)) && x.next == Behind(s, Place(s, x))
  {
    assert LinkedAt(s, Place(s, x));
  }

  lemma Elsewhere(s: Items, i: nat, k: nat)
    requires Distinct(s) && i < |s| && k <= |s|
    ensures Before(s, k) == s[i] ==> i == k - 1
    ensures Behind(s, k - 1) == s[i] ==> i == k
  {
  }

  /** Place `i` is linked, except for the link between places `k - 1` and `k`. */
  predicate LinkedBut(s: Items, k: int, i: nat)
    requires i < |s|
    reads s[i]
  {
    (i != k ==> s[i].prev == Before(s, i)) && (i + 1 != k ==> s[i].next == Behind(s, i))
  }

  /** An insertion links the object both ways and its neighbours to it. */
  lemma InsertLinks(s: Items, k: nat, x: LinkObject)
    requires k <= |s| && x !in s
    requires forall i: nat :: i < |s| ==> LinkedBut(s, k, i)
    requires x.prev == Before(s, k) && x.next == Behind(s, k - 1)
    requires k > 0 ==> s[k - 1].next == x
    requires k < |s| ==> s[k].prev == x
    ensures Linked(Inserted(s, k, x))
  {
    var r := Inserted(s, k, x);
    forall i: nat | i < |r|
      ensures LinkedAt(r, i)
    {
      if i < k {
        assert LinkedBut(s, k, i);
      } else if i > k {
        assert LinkedBut(s, k, i - 1);
      }
    }
  }

  /** Place `i` is linked, except for what pointed at place `k`. */
  predicate LinkedAround(s: Items, k: int, i: nat)
    requires i < |s|
    reads s[i]
  {
    (i != k + 1 ==> s[i].prev == Before(s, i)) && (i + 1 != k ==> s[i].next == Behind(s, i))
  }

  /** A removal links the neighbours to each other. */
  lemma RemoveLinks(s: Items, k: nat)
    requires k < |s|
    requires forall i: nat :: i < |s| && i != k ==> LinkedAround(s, k, i)
    requires k > 0 ==> s[k - 1].next == Behind(s, k)
    requires k + 1 < |s| ==> s[k + 1].prev == Before(s, k)
    ensures Linked(Removed(s, k))
  {
    var r := Removed(s, k);
    forall i: nat | i < |r|
      ensures LinkedAt(r, i)
    {
      var j := if i < k then i else i + 1;
      assert r[i] == s[j] && LinkedAround(s, k, j);
    }
  }

  class LinkList {
    var head: LinkObject?
    var tail: LinkObject?
    var count: int
    var maxCount: int
    ghost var items: Items

    ghost predicate Valid()
      reads this, items
    {
      && Distinct(items) && Linked(items)
      && head == Behind(items, -1) && tail == Before(items, |items|)
      && count == |items| <= maxCount
    }

    constructor ()
      ensures Valid() && items == [] && maxCount == 0
    {
      head, tail, count, maxCount, items := null, null, 0, 0, [];
    }

    predicate IsEmpty()
      requires Valid()
      reads this, items
      ensures IsEmpty() <==> items == []
    {
      count == 0
    }

    /** The high-water mark after an insertion. */
    ghost function Mark(): (m: int)
      reads this
      ensures count + 1 <= m && maxCount <= m && (m == count + 1 || m == maxCount)
    {
      if count + 1 > maxCount then count + 1 else maxCount
    }

    method Append(x: LinkObject)
      requires Valid() && x !in items
      modifies this, items, x
      ensures Valid() && items == old(items) + [x] && maxCount == old(Mark())
    {
      hide Distinct, Inserted, Removed;
      ghost var s := items;
      Neighbours(s, |s|);
      Neighbours(s, 0);
      if head == null {
        head := x;
      }
      x.prev := tail;
      if tail != null {
        tail.next := x;
      }
      tail := x;
      x.next := null;
      count := count + 1;
      if count > maxCount {
        maxCount := count;
      }
      items := Inserted(s, |s|, x);
      InsertedDistinct(s, |s|, x);
      InsertedEnds(s, |s|, x);
      forall i: nat | i < |s|
        ensures LinkedBut(s, |s|, i)
      {
        assert old(LinkedAt(s, i)) && s[i] in s;
        Elsewhere(s, i, |s|);
      }
      InsertLinks(s, |s|, x);
    }

    method Prepend(x: LinkObject)
      requires Valid() && x !in items
      modifies this, items, x
      ensures Valid() && items == [x] + old(items) && maxCount == old(Mark())
    {
      hide Distinct, Inserted, Removed;
      ghost var s := items;
      Neighbours(s, |s|);
      Neighbours(s, 0);
      if tail == null {
        tail := x;
      }
      x.next := head;
      if head != null {
        head.prev := x;
      }
      head := x;
      x.prev := null;
      count := count + 1;
      if count > maxCount {
        maxCount := count;
      }
      items := Inserted(s, 0, x);
      InsertedDistinct(s, 0, x);
      InsertedEnds(s, 0, x);
      forall i: nat | i < |s|
        ensures LinkedBut(s, 0, i)
      {
        assert old(LinkedAt(s, i)) && s[i] in s;
        Elsewhere(s, i, 0);
      }
      InsertLinks(s, 0, x);
    }

    /** Before a member, or in front when no member is given. */
    method InsertBefore(base: LinkObject?, x: LinkObject)
      requires Valid() && x !in items && (base != null ==> base in items)
      modifies this, items, x
      ensures Valid() && maxCount == old(Mark())
      ensures items == Inserted(old(items), if base == null then 0 else Place(old(items), base), x)
    {
      hide Distinct, Inserted, Removed;
      if base == null {
        Prepend(x);
        InsertedEnds(old(items), 0, x);
      } else {
        ghost var s, k := items, Place(items, base);
        LinksOf(s, base);
        Neighbours(s, k);
        var pPrev := base.prev;
        x.next := base;
        x.prev := pPrev;
        base.prev := x;
        if pPrev == null {
          head := x;
        } else {
          pPrev.next := x;
        }
        count := count + 1;
        if count > maxCount {
          maxCount := count;
        }
        items := Inserted(s, k, x);
        InsertedDistinct(s, k, x);
        InsertedEnds(s, k, x);
        forall i: nat | i < |s|
          ensures LinkedBut(s, k, i)
        {
          assert old(LinkedAt(s, i)) && s[i] in s;
          Elsewhere(s, i, k);
        }
        InsertLinks(s, k, x);
      }
    }

    /** Behind a member, or at the end when no member is given. */
    method InsertAfter(base: LinkObject?, x: LinkObject)
      requires Valid() && x !in items && (base != null ==> base in items)
      modifies this, items, x
      ensures Valid() && maxCount == old(Mark())
      ensures items == Inserted(old(items), if base == null then |old(items)| else Place(old(items), base) + 1, x)
    {
      hide Distinct, Inserted, Removed;
      if base == null {
        Append(x);
        InsertedEnds(old(items), |old(items)|, x);
      } else {
        ghost var s, k := items, Place(items, base);
        ghost var at := k + 1;
        LinksOf(s, base);
        Neighbours(s, at);
        var pNext := base.next;
        x.prev := base;
        x.next := pNext;
        base.next := x;
        if pNext == null {
          tail := x;
        } else {
          pNext.prev := x;
        }
        count := count + 1;
        if count > maxCount {
          maxCount := count;
        }
        items := Inserted(s, at, x);
        InsertedDistinct(s, at, x);
        InsertedEnds(s, at, x);
        forall i: nat | i < |s|
          ensures LinkedBut(s, at, i)
        {
          assert old(LinkedAt(s, i)) && s[i] in s;
          Elsewhere(s, i, at);
        }
        InsertLinks(s, at, x);
      }
    }

    /** Takes a member out; it can be inserted again afterwards. */
    method Remove(x: LinkObject)
      requires Valid() && x in items
      modifies this, items
      ensures Valid() && items == Removed(old(items), Place(old(items), x)) && x !in items
      ensures x.prev == null && x.next == null && maxCount == old(maxCount)
    {
      hide Distinct, Inserted, Removed;
      ghost var s, k := items, Place(items, x);
      LinksOf(s, x);
      Neighbours(s, k);
      Neighbours(s, k + 1);
      Elsewhere(s, k, k);
      Elsewhere(s, k, k + 1);
      var pPrev := x.prev;
      var pNext := x.next;
      if pNext != null {
        pNext.prev := pPrev;
      } else {
        tail := pPrev;
      }
      if pPrev != null {
        pPrev.next := pNext;
      } else {
        head := pNext;
      }
      x.prev := null;
      x.next := null;
      count := count - 1;
      items := Removed(s, k);
      RemovedDistinct(s, k);
      RemovedEnds(s, k);
      forall i: nat | i < |s| && i != k
        ensures LinkedAround(s, k, i)
      {
        assert old(LinkedAt(s, i)) && s[i] in s;
        Elsewhere(s, i, k);
        Elsewhere(s, i, k + 1);
        Elsewhere(s, k, i + 1);
      }
      RemoveLinks(s, k);
    }

    /** Terminates with an empty list and no object linked to another. */
    method RemoveAll()
      requires Valid()
      modifies this, items
      ensures Valid() && items == [] && maxCount == old(maxCount)
      ensures forall x :: x in old(items) ==> x.prev == null && x.next == null
    {
      hide Distinct, Linked, Removed;
      ghost var s, n := items, 0;
      while count > 0
        invariant Valid() && maxCount == old(maxCount) && n <= |s| && items == s[n..]
        invariant forall i :: 0 <= i < n ==> s[i].prev == null && s[i].next == null
        decreases count
      {
        assert head == s[n];
        FirstPlace(items);
        RemovedEnds(items, 0);
        Passed(s, n);
        Remove(head);
        n := n + 1;
      }
    }

    static lemma Passed(s: Items, n: nat)
      requires Distinct(s) && n <= |s|
      ensures forall i :: 0 <= i < n ==> s[i] !in s[n..]
    {
    }

    static lemma FirstPlace(s: Items)
      requires Distinct(s) && s != []
      ensures Place(s, s[0]) == 0
    {
    }

    static lemma LastPlace(s: Items)
      requires Distinct(s) && s != []
      ensures Place(s, s[|s| - 1]) == |s| - 1
    {
    }

    /** Membership, found by walking from the head. */
    method Find(base: LinkObject?) returns (found: bool)
      requires Valid()
      ensures found <==> base != null && base in items
    {
      var cursor := head;
      ghost var n := 0;
      while cursor != null
        invariant 0 <= n <= |items| && cursor == Behind(items, n - 1)
        invariant base == null || base !in items[..n]
        decreases |items| - n
      {
        assert LinkedAt(items, n);
        if cursor == base {
          return true;
        }
        cursor := cursor.next;
        n := n + 1;
      }
      assert items[..n] == items;
      return false;
    }

    method PopFront() returns (x: LinkObject?)
      requires Valid()
      modifies this, items
      ensures Valid() && maxCount == old(maxCount)
      ensures old(items) == [] ==> x == null && items == []
      ensures old(items) != [] ==> x == old(items)[0] && items == old(items)[1..]
    {
      x := head;
      if x != null {
        FirstPlace(items);
        Remove(x);
      }
    }

    method PopBack() returns (x: LinkObject?)
      requires Valid()
      modifies this, items
      ensures Valid() && maxCount == old(maxCount)
      ensures old(items) == [] ==> x == null && items == []
      ensures old(items) != [] ==> x == old(items)[|old(items)| - 1] && items == old(items)[..|old(items)| - 1]
    {
      x := tail;
      if x != null {
        LastPlace(items);
        Remove(x);
      }
    }

    method Pop(front: bool := false) returns (x: LinkObject?)
      requires Valid()
      modifies this, items
      ensures Valid() && maxCount == old(maxCount)
      ensures (x, items) == Popped(old(items), front)
    {
      if front {
        x := PopFront();
      } else {
        x := PopBack();
      }
    }

    method Push(x: LinkObject, front: bool := true)
      requires Valid() && x !in items
      modifies this, items, x
      ensures Valid() && items == Pushed(old(items), x, front) && maxCount == old(Mark())
    {
      if front {
        Prepend(x);
      } else {
        Append(x);
      }
    }
  }

  // ---- queue and stack ----

  function Pushed(s: Items, x: LinkObject, front: bool): Items
  {
    if front then [x] + s else s + [x]
  }

  function Popped(s: Items, front: bool): (LinkObject?, Items)
  {
    if s == [] then (null, [])
    else if front then (s[0], s[1..])
    else (s[|s| - 1], s[..|s| - 1])
  }

  datatype Op = Push(x: LinkObject) | Pop

  /** The objects in the list after a run of default Push and Pop, and those popped on the way. */
  function Queue(s: Items, ops: seq<Op>): (r: (Items, Items))
    decreases |ops|
  {
    if ops == [] then (s, [])
    else
      match ops[0]
      case Push(x) => Queue(Pushed(s, x, true), ops[1..])
      case Pop =>
        var (x, rest) := Popped(s, false);
        var (end, out) := Queue(rest, ops[1..]);
        (end, (if s == [] then [] else [s[|s| - 1]]) + out)
  }

  function PushedBy(ops: seq<Op>): Items
  {
    if ops == [] then []
    else (match ops[0] case Push(x) => [x] case Pop => []) + PushedBy(ops[1..])
  }

  function Reversed(s: Items): (r: Items)
    ensures |r| == |s|
  {
    seq(|s|, i requires 0 <= i < |s| => s[|s| - 1 - i])
  }

  lemma ReversedPush(s: Items, x: LinkObject)
    ensures Reversed(Pushed(s, x, true)) == Reversed(s) + [x]
  {
  }

  lemma ReversedPop(s: Items)
    ensures s == [] ==> Popped(s, false).1 == []
    ensures s != [] ==> Reversed(s) == [s[|s| - 1]] + Reversed(Popped(s, false).1)
  {
  }

  lemma Regroup(a: Items, b: Items, c: Items, d: Items, e: Items)
    requires b + c == d + e
    ensures a + b + c == a + d + e
  {
    assert a + b + c == a + (b + c);
    assert a + d + e == a + (d + e);
  }

  /** With the default arguments the list is first in, first out: what was there and what is pushed comes out in order,
      whatever the mix of Push and Pop. */
  lemma {:induction false} DefaultIsFifo(s: Items, ops: seq<Op>)
    ensures Reversed(s) + PushedBy(ops) == Queue(s, ops).1 + Reversed(Queue(s, ops).0)
    decreases |ops|
  {
    hide Reversed, Pushed, Popped;
    if ops == [] {
    } else {
      match ops[0]
      case Push(x) =>
        var s' := Pushed(s, x, true);
        DefaultIsFifo(s', ops[1..]);
        ReversedPush(s, x);
        assert Reversed(s) + ([x] + PushedBy(ops[1..])) == Reversed(s) + [x] + PushedBy(ops[1..]);
      case Pop =>
        var rest := Popped(s, false).1;
        DefaultIsFifo(rest, ops[1..]);
        ReversedPop(s);
        var last := if s == [] then [] else [s[|s| - 1]];
        var q := Queue(rest, ops[1..]);
        assert PushedBy(ops) == PushedBy(ops[1..]);
        Regroup(last, Reversed(rest), PushedBy(ops[1..]), q.1, Reversed(q.0));
        assert Reversed(s) == last + Reversed(rest) by { EmptyReversed(); }
    }
  }

  lemma EmptyReversed()
    ensures Reversed([]) == []
  {
  }

  /** The same run with Push and Pop(true): the objects in the list afterwards, and those popped on the way. */
  function Stack(s: Items, ops: seq<Op>): (r: (Items, Items))
    decreases |ops|
  {
    if ops == [] then (s, [])
    else
      match ops[0]
      case Push(x) => Stack(Pushed(s, x, true), ops[1..])
      case Pop =>
        var (end, out) := Stack(Popped(s, true).1, ops[1..]);
        (end, (if s == [] then [] else [s[0]]) + out)
  }

  /** The run pops what it pushed, and `d` objects more that were there, and no others. */
  predicate Nested(ops: seq<Op>, d: nat)
    decreases |ops|
  {
    if ops == [] then d == 0
    else if ops[0].Push? then Nested(ops[1..], d + 1)
    else d > 0 && Nested(ops[1..], d - 1)
  }

  /** Such a run leaves what is below alone, and pops the same whatever it is. */
  lemma {:induction false} StackBase(top: Items, base: Items, ops: seq<Op>)
    requires Nested(ops, |top|)
    ensures Stack(top + base, ops) == (base, Stack(top, ops).1)
    decreases |ops|
  {
    if ops == [] {
      assert top + base == base;
    } else {
      match ops[0]
      case Push(x) =>
        StackBase([x] + top, base, ops[1..]);
        assert [x] + (top + base) == [x] + top + base;
      case Pop =>
        StackBase(top[1..], base, ops[1..]);
        assert (top + base)[1..] == top[1..] + base;
    }
  }

  lemma {:induction false} StackConcat(s: Items, a: seq<Op>, b: seq<Op>)
    ensures var mid := Stack(s, a); var end := Stack(mid.0, b);
            Stack(s, a + b) == (end.0, mid.1 + end.1)
    decreases |a|
  {
    hide Pushed, Popped;
    if a == [] {
      assert a + b == b;
      assert [] + Stack(s, b).1 == Stack(s, b).1;
    } else {
      assert (a + b)[0] == a[0] && (a + b)[1..] == a[1..] + b;
      match a[0]
      case Push(x) =>
        StackConcat(Pushed(s, x, true), a[1..], b);
      case Pop =>
        var rest, first := Popped(s, true).1, if s == [] then [] else [s[0]];
        StackConcat(rest, a[1..], b);
        var mid := Stack(rest, a[1..]);
        Join(first, mid.1, Stack(mid.0, b).1);
    }
  }

  lemma Join(a: Items, b: Items, c: Items)
    ensures a + (b + c) == a + b + c
  {
  }

  /** Pop(true) is last in, first out: after any run that pops exactly what it pushes itself, the next Pop gives back
      the object pushed before that run, and the list is as it was. */
  lemma FrontIsLifo(s: Items, x: LinkObject, ops: seq<Op>)
    requires Nested(ops, 0)
    ensures Stack(s, [Push(x)] + ops + [Pop]) == (s, Stack([], ops).1 + [x])
  {
    hide Nested;
    var run := [Push(x)] + ops + [Pop];
    var t := Pushed(s, x, true);
    assert run[0] == Push(x) && run[1..] == ops + [Pop];
    StackBase([], t, ops);
    assert [] + t == t;
    StackConcat(t, ops, [Pop]);
    OnePop(t);
    assert t[1..] == s;
  }

  lemma OnePop(t: Items)
    requires t != []
    ensures Stack(t, [Pop]) == (t[1..], [t[0]])
  {
    var run: seq<Op> := [Pop];
    assert run[0] == Pop && run[1..] == [];
    assert Stack(t[1..], []) == (t[1..], []);
    assert [t[0]] + [] == [t[0]];
  }

  function Pushes(xs: Items): seq<Op>
  {
    seq(|xs|, i requires 0 <= i < |xs| => Push(xs[i]))
  }

  function Pops(n: nat): seq<Op>
  {
    seq(n, _ => Pop)
  }

  /** Objects pushed one after the other come out in reverse order, and the list is as it was. */
  lemma {:induction false} PushesThenPops(s: Items, xs: Items)
    ensures Stack(s, Pushes(xs) + Pops(|xs|)) == (s, Reversed(xs))
    decreases |xs|
  {
    if xs == [] {
      assert Pushes(xs) + Pops(0) == [];
    } else {
      var run := Pushes(xs[1..]) + Pops(|xs| - 1);
      PushesThenPops([], xs[1..]);
      RunNested(xs[1..], 0);
      FrontIsLifo(s, xs[0], run);
      assert Pushes(xs) + Pops(|xs|) == [Push(xs[0])] + run + [Pop];
      assert Reversed(xs) == Reversed(xs[1..]) + [xs[0]];
    }
  }

  lemma {:induction false} RunNested(xs: Items, d: nat)
    ensures Nested(Pushes(xs) + Pops(|xs| + d), d)
    decreases |xs|
  {
    var run := Pushes(xs) + Pops(|xs| + d);
    if xs == [] {
      assert run == Pops(d);
      PopsNested(d);
    } else {
      RunNested(xs[1..], d + 1);
      assert run[0] == Push(xs[0]);
      assert run[1..] == Pushes(xs[1..]) + Pops(|xs[1..]| + (d + 1));
    }
  }

  lemma {:induction false} PopsNested(d: nat)
    ensures Nested(Pops(d), d)
  {
    if d > 0 {
      PopsNested(d - 1);
      assert Pops(d)[1..] == Pops(d - 1);
    }
  }
}
