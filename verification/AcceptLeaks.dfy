/** What becomes of the acceptor's bound when sessions whose AcceptEx failed are destroyed, and are so taken off the
    accepting count a second time. */
module AcceptLeaks {
  import opened AcceptProtocol

  /** What it takes to lose every bound. */
  predicate Leaks(c: Config)
  {
    c.max > 0 && ((c.min > 0 && c.post > 0) || (c.create > 0 && c.min >= 0 && c.post >= 0))
  }

  /** `a` sessions whose AcceptEx failed have been destroyed, and that is all there is. */
  function Drifted(a: nat): State
  {
    State(-(a as int), 0, 0, 0, 0, 0, 0, 0, a)
  }

  lemma DriftOn(c: Config, s: State)
    requires s.budget > 0 && s.unposted == 0
    ensures Reaches(c, s, s.(budget := 0, accepting := s.accepting - 1, twice := s.twice + 1))
  {
    hide Reaches;
    var t := Apply(c, s, FailAccept);
    ReachesBy(c, s, FailAccept);
    ReachesBy(c, t, DestroyUnposted);
    ReachesTrans(c, s, t, Apply(c, t, DestroyUnposted));
  }

  lemma {:induction false} DriftMany(c: Config, a: nat)
    requires Leaks(c) && a >= 1
    ensures Reaches(c, Start(c), Drifted(a))
  {
    hide Reaches;
    if a > 1 {
      DriftMany(c, a - 1);
      DriftOn(c, ReadDrifted(c, a - 1));
      ReadFirst(c, a - 1, Drifted(a));
      ReachesTrans(c, Start(c), Drifted(a - 1), Drifted(a));
    } else if c.create > 0 {
      DriftOn(c, Start(c));
    } else {
      ReachesBy(c, Start(c), GiveUp);
      DriftOn(c, ReadDrifted(c, 0));
      ReadFirst(c, 0, Drifted(1));
      ReachesTrans(c, Start(c), Drifted(0), Drifted(1));
    }
  }

  /** There the reading finds something to post, and more of it the more sessions were destroyed. */
  function ReadDrifted(c: Config, a: nat): (s: State)
    requires Leaks(c) && (a >= 1 || (c.min > 0 && c.post > 0))
    ensures s == Drifted(a).(budget := s.budget) && s.budget >= 1 && s.budget >= a
  {
    Apply(c, Drifted(a), Read)
  }

  lemma ReadFirst(c: Config, a: nat, t: State)
    requires Leaks(c) && (a >= 1 || (c.min > 0 && c.post > 0)) && Reaches(c, ReadDrifted(c, a), t)
    ensures Reaches(c, Drifted(a), t)
  {
    hide Reaches;
    ReachesBy(c, Drifted(a), Read);
    ReachesTrans(c, Drifted(a), ReadDrifted(c, a), t);
  }

  lemma {:induction false} PostMany(c: Config, s: State, n: nat)
    requires n <= s.budget
    ensures Reaches(c, s, s.(budget := s.budget - n, accepting := s.accepting + n, pending := s.pending + n))
    decreases n
  {
    hide Reaches;
    if n == 0 {
      ReachesSelf(c, s);
    } else {
      ReachesBy(c, s, Post);
      var t := Apply(c, s, Post);
      PostMany(c, t, n - 1);
      var m := n - 1;
      ReachesTrans(c, s, t, t.(budget := t.budget - m, accepting := t.accepting + m, pending := t.pending + m));
    }
  }

  lemma NoBound(c: Config, n: nat) returns (s: State)
    requires Leaks(c)
    ensures Reaches(c, Start(c), s) && s.pending >= n
  {
    hide Reaches, Leaks;
    var a := n + 1;
    DriftMany(c, a);
    var t := ReadDrifted(c, a);
    PostMany(c, t, n);
    s := t.(budget := t.budget - n, accepting := t.accepting + n, pending := t.pending + n);
    ReadFirst(c, a, s);
    ReachesTrans(c, Start(c), Drifted(a), s);
  }

  /** What holds of every run of a configuration that cannot lose its bound: the reading never finds anything to post.
      */
  predicate Kept(c: Config, s: State)
  {
    && s.accepting >= s.pending - s.twice && s.accepting + s.accepted == s.pending + s.connected + s.failed - s.twice
    && s.unposted + s.twice <= 1 && (s.unposted + s.twice == 1 ==> s.budget == 0)
    && (var all := s.pending + s.connected + s.failed + s.between + s.budget + s.unposted + s.twice;
        all <= c.max && (c.create <= 0 ==> all == 0))
  }

  lemma KeptOn(c: Config, s: State, op: Op)
    requires 0 <= c.max && !Leaks(c) && Kept(c, s) && Enabled(c, s, op)
    ensures Kept(c, Apply(c, s, op))
  {
  }

  lemma {:induction false} StaysKept(c: Config, s: State, ops: seq<Op>)
    requires 0 <= c.max && !Leaks(c) && Kept(c, s) && Runs(c, s, ops)
    ensures Kept(c, After(c, s, ops))
    decreases |ops|
  {
    hide Kept, Leaks, Apply, Enabled;
    if ops != [] {
      KeptOn(c, s, ops[0]);
      StaysKept(c, Apply(c, s, ops[0]), ops[1..]);
    }
  }

  lemma StartKept(c: Config)
    requires 0 <= c.max && c.create <= c.max
    ensures Kept(c, Start(c))
  {
  }

  ghost predicate CanHave(c: Config, n: nat)
  {
    exists s :: Reaches(c, Start(c), s) && s.pending >= n
  }

  /** With sessions destroyed after a failed AcceptEx there is no middle: either there is no bound on the accepts posted
      at once, or the maximum is never exceeded. */
  lemma LeaksExactly(c: Config)
    requires 0 <= c.max && c.create <= c.max
    ensures (forall n: nat :: CanHave(c, n)) <==> Leaks(c)
    ensures (forall s :: Reaches(c, Start(c), s) ==> s.pending + s.connected + s.failed + s.between <= c.max)
            <==> !Leaks(c)
  {
    hide Reaches, Leaks;
    if Leaks(c) {
      forall n: nat
        ensures CanHave(c, n)
      {
        var s := NoBound(c, n);
      }
      var s := NoBound(c, c.max + 1);
    } else {
      forall s | Reaches(c, Start(c), s)
        ensures s.pending + s.connected + s.failed + s.between <= c.max
      {
        MaximumKept(c, s);
      }
      assert !CanHave(c, c.max + 1);
    }
  }

  lemma MaximumKept(c: Config, s: State)
    requires 0 <= c.max && c.create <= c.max && !Leaks(c) && Reaches(c, Start(c), s)
    ensures s.pending + s.connected + s.failed + s.between <= c.max
  {
    hide Runs, After, Leaks;
    var ops :| Runs(c, Start(c), ops) && After(c, Start(c), ops) == s && Accept !in ops;
    StartKept(c);
    StaysKept(c, Start(c), ops);
  }
}
