/** When the acceptor stops accepting: what failed associations leave behind in the accepting count. */
module AcceptSilence {
  import opened AcceptProtocol

  function Failures(ops: seq<Op>): nat
  {
    if ops == [] then 0 else (if ops[0] == FailAssociate then 1 else 0) + Failures(ops[1..])
  }

  /** The accepting counter overstates the accepts that are posted by exactly the associations that ever failed, less
      the sessions taken off twice. */
  lemma {:induction false} DriftIsFailures(c: Config, s: State, ops: seq<Op>)
    requires Runs(c, s, ops)
    ensures var e := After(c, s, ops);
            e.accepting - e.pending == s.accepting - s.pending + Failures(ops) - (e.twice - s.twice)
    decreases |ops|
  {
    if ops != [] {
      DriftIsFailures(c, Apply(c, s, ops[0]), ops[1..]);
    }
  }

  /** With nothing posted and nothing left to post, the thread's next reading finds something to post exactly when fewer
      associations than the minimum have failed and the maximum and the posting limit leave room beyond them. */
  lemma RecoversExactly(c: Config, ops: seq<Op>)
    requires Runs(c, Start(c), ops)
    requires After(c, Start(c), ops).pending == 0 && After(c, Start(c), ops).budget == 0
    ensures var s := After(c, Start(c), ops); var drift := Failures(ops) - s.twice;
            Apply(c, s, Read).budget > 0 <==>
              drift < c.min && drift < c.post && s.connected + s.failed - s.twice < c.max
  {
    DriftIsFailures(c, Start(c), ops);
    SumIsTrue(c, Start(c), ops);
  }

  lemma {:induction false} SumIsTrue(c: Config, s: State, ops: seq<Op>)
    requires Runs(c, s, ops) && s.accepting + s.accepted == s.pending + s.connected + s.failed - s.twice
    ensures var e := After(c, s, ops); e.accepting + e.accepted == e.pending + e.connected + e.failed - e.twice
    decreases |ops|
  {
    if ops != [] {
      SumIsTrue(c, Apply(c, s, ops[0]), ops[1..]);
    }
  }

  /** Nothing is posted and nothing ever will be. What sessions of a failed AcceptEx will still be taken off the counts
      is taken off in advance. */
  predicate Deaf(c: Config, s: State)
  {
    && s.pending == 0 && s.budget == 0
    && s.accepting + s.accepted == s.connected + s.failed - s.twice
    && (var drift := s.accepting - s.unposted;
        drift >= c.min || drift >= c.post || c.max + s.twice + s.unposted <= 0)
  }

  lemma {:induction false} DeafForever(c: Config, s: State, ops: seq<Op>)
    requires Deaf(c, s) && Runs(c, s, ops)
    ensures Deaf(c, After(c, s, ops))
    decreases |ops|
  {
    if ops != [] {
      DeafForever(c, Apply(c, s, ops[0]), ops[1..]);
    }
  }

  /** As many failed associations as the minimum, with nothing else posted, and the acceptor never accepts again. */
  lemma FailuresDeafen(c: Config, ops: seq<Op>, more: seq<Op>)
    requires Runs(c, Start(c), ops) && Runs(c, After(c, Start(c), ops), more)
    requires After(c, Start(c), ops).pending == 0 && After(c, Start(c), ops).budget == 0
    requires Failures(ops) - After(c, Start(c), ops).twice - After(c, Start(c), ops).unposted >= c.min
    ensures After(c, After(c, Start(c), ops), more).pending == 0
  {
    DriftIsFailures(c, Start(c), ops);
    SumIsTrue(c, Start(c), ops);
    DeafForever(c, After(c, Start(c), ops), more);
  }

  /** No run from here ever posts an accept. */
  ghost predicate Silent(c: Config, s: State)
  {
    forall more :: Runs(c, s, more) ==> After(c, s, more).pending == 0
  }

  /** Everybody leaves: what is connected disconnects, what has failed is destroyed. */
  lemma {:induction false} EverybodyLeaves(c: Config, s: State) returns (t: State)
    requires s.accepting + s.accepted == s.connected + s.failed - s.twice && s.pending == 0 && s.budget == 0
    ensures Reaches(c, s, t)
    ensures t == State(s.accepting - s.unposted, s.unposted - s.accepting - s.twice - s.unposted, 0, 0, 0, 0, 0, 0,
                       s.twice + s.unposted)
    decreases 2 * s.between + s.connected + s.failed + s.unposted
  {
    hide Reaches;
    if s.between + s.connected + s.failed + s.unposted == 0 {
      ReachesSelf(c, s);
      t := s;
    } else {
      var op := if s.between > 0 then FinishAccept else if s.connected > 0 then Disconnect
                else if s.failed > 0 then DestroyFailed else DestroyUnposted;
      ReachesBy(c, s, op);
      t := EverybodyLeaves(c, Apply(c, s, op));
      ReachesTrans(c, s, Apply(c, s, op), t);
    }
  }

  /** With nothing posted and nothing left to post, the acceptor is silent for good exactly if the associations that
      failed, less the sessions of a failed AcceptEx, reach the minimum or the posting limit, or if the maximum with
      those sessions leaves no room even when everybody has left. */
  lemma SilentExactly(c: Config, ops: seq<Op>)
    requires Runs(c, Start(c), ops)
    requires After(c, Start(c), ops).pending == 0 && After(c, Start(c), ops).budget == 0
    ensures var s := After(c, Start(c), ops); var drift := Failures(ops) - s.twice - s.unposted;
            Silent(c, s) <==> drift >= c.min || drift >= c.post || c.max + s.twice + s.unposted <= 0
  {
    hide Reaches;
    var s := After(c, Start(c), ops);
    DriftIsFailures(c, Start(c), ops);
    SumIsTrue(c, Start(c), ops);
    if Deaf(c, s) {
      forall more | Runs(c, s, more)
        ensures After(c, s, more).pending == 0
      {
        DeafForever(c, s, more);
      }
    } else {
      var t := EverybodyLeaves(c, s);
      var u := Apply(c, t, Read);
      ReachesBy(c, t, Read);
      ReachesBy(c, u, Post);
      ReachesTrans(c, s, t, u);
      ReachesTrans(c, s, u, Apply(c, u, Post));
      NotSilent(c, s, Apply(c, u, Post));
    }
  }

  lemma NotSilent(c: Config, s: State, t: State)
    requires Reaches(c, s, t) && t.pending > 0
    ensures !Silent(c, s)
  {
  }

  /** `k` associations have failed and their sessions are gone. */
  function Gone(k: nat): State
  {
    State(k, -(k as int), 0, 0, 0, 0, 0, 0, 0)
  }

  lemma {:induction false} FailMany(c: Config, k: nat)
    requires k == 0 || (c.max > 0 && k <= c.min && k <= c.post)
    ensures Reaches(c, Start(c), Gone(k))
  {
    hide Reaches;
    if k == 0 {
      ReachesBy(c, Start(c), GiveUp);
    } else {
      FailMany(c, k - 1);
      var s := Apply(c, Gone(k - 1), Read);
      var t := Apply(c, s, Post);
      var u := Apply(c, t, GiveUp);
      var v := Apply(c, u, FailAssociate);
      ReachesBy(c, Gone(k - 1), Read);
      ReachesBy(c, s, Post);
      ReachesBy(c, t, GiveUp);
      ReachesBy(c, u, FailAssociate);
      ReachesBy(c, v, DestroyFailed);
      ReachesTrans(c, Start(c), Gone(k - 1), s);
      ReachesTrans(c, Start(c), s, t);
      ReachesTrans(c, Start(c), t, u);
      ReachesTrans(c, Start(c), u, v);
      ReachesTrans(c, Start(c), v, Gone(k));
    }
  }

  /** Every acceptor, whatever its limits, can fall silent for good with no session left: failed associations are
      enough. */
  lemma FallsSilent(c: Config)
    ensures exists ops :: Runs(c, Start(c), ops) && Silent(c, After(c, Start(c), ops))
                          && After(c, Start(c), ops) == Gone(Failures(ops))
  {
    hide Runs, After, Silent, Failures;
    var least := if c.min < c.post then c.min else c.post;
    var k: nat := if c.max <= 0 || least < 0 then 0 else least;
    FailMany(c, k);
    var ops :| Runs(c, Start(c), ops) && After(c, Start(c), ops) == Gone(k) && Accept !in ops;
    DriftIsFailures(c, Start(c), ops);
    SilentExactly(c, ops);
  }
}
