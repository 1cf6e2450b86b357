/** The counters of an Acceptor as a state machine over the steps that its lock makes atomic: the acceptor thread reads
    how many accepts to post and posts them one by one, worker threads complete them, sessions come and go. */
module AcceptProtocol {

  /** The four limits, and the number of worker threads that may be inside OnAccepted at a time. */
  datatype Config = Config(max: int, min: int, post: int, create: int, workers: nat)

  /** `accepting` and `accepted` are the counters. The rest is what they are meant to count: accepts posted and not
      completed, sessions connected, sessions whose Associate failed and that are not destroyed yet, workers between the
      two halves of OnAccepted; `budget`, what is left of the number the acceptor thread last read; and the sessions
      whose AcceptEx failed, those still there and those destroyed, which were taken off the accepting count twice. */
  datatype State = State(
    accepting: int, accepted: int, between: nat, budget: nat, pending: nat, connected: nat, failed: nat,
    unposted: nat, twice: nat)

  datatype Op =
    | Read | GiveUp | Post | FailAccept | Accept | StartAccept | FinishAccept | FailAssociate
    | DestroyFailed | DestroyUnposted | Lose | Disconnect

  /** `m` more accepts keep accepting and accepted within the maximum and accepting within the posting limit. */
  predicate HasRoom(c: Config, accepting: int, accepted: int, m: int)
  {
    accepting + accepted + m <= c.max && accepting + m <= c.post
  }

  /** GetReserveAcceptCount: when fewer than the minimum are accepting, the largest number there is
      room for. */
  function ReserveCount(c: Config, accepting: int, accepted: int): (n: int)
    ensures accepting >= c.min ==> n == 0
    ensures accepting < c.min ==>
              forall m :: HasRoom(c, accepting, accepted, m) <==> m <= n
  {
    if accepting < c.min then
      var acceptDiff := c.post - accepting;
      var available := c.max - (accepting + accepted);
      if available < acceptDiff then available else acceptDiff
    else 0
  }

  function Start(c: Config): State
  {
    State(0, 0, 0, if c.create > 0 then c.create else 0, 0, 0, 0, 0, 0)
  }

  predicate Enabled(c: Config, s: State, op: Op)
  {
    match op
    case Read => s.budget == 0
    case GiveUp => true
    case Post => s.budget > 0
    case FailAccept => s.budget > 0
    case Accept => s.pending > 0
    case StartAccept => s.pending > 0 && s.between < c.workers
    case FinishAccept => s.between > 0
    case FailAssociate => s.pending > 0
    case DestroyFailed => s.failed > 0
    case DestroyUnposted => s.unposted > 0
    case Lose => s.pending > 0
    case Disconnect => s.connected > 0
  }

  /** `Accept` is OnAccepted taken as one step, `StartAccept` and `FinishAccept` are its two locked halves. A session
      whose Associate failed counts as connected when it is destroyed, though OnAccepted never ran for it. A failed
      AcceptEx raises and lowers the count, which only the acceptor thread itself would read meanwhile, and ends the
      posting; the session counts as accepting once more when it is destroyed. */
  function Apply(c: Config, s: State, op: Op): State
    requires Enabled(c, s, op)
  {
    match op
    case Read =>
      var n := ReserveCount(c, s.accepting, s.accepted);
      s.(budget := if n > 0 then n else 0)
    case GiveUp => s.(budget := 0)
    case Post => s.(accepting := s.accepting + 1, pending := s.pending + 1, budget := s.budget - 1)
    case FailAccept => s.(budget := 0, unposted := s.unposted + 1)
    case Accept =>
      s.(accepting := s.accepting - 1, pending := s.pending - 1,
         accepted := s.accepted + 1, connected := s.connected + 1)
    case StartAccept => s.(accepting := s.accepting - 1, pending := s.pending - 1, between := s.between + 1)
    case FinishAccept => s.(accepted := s.accepted + 1, connected := s.connected + 1, between := s.between - 1)
    case FailAssociate => s.(pending := s.pending - 1, failed := s.failed + 1)
    case DestroyFailed => s.(failed := s.failed - 1, accepted := s.accepted - 1)
    case DestroyUnposted => s.(unposted := s.unposted - 1, accepting := s.accepting - 1, twice := s.twice + 1)
    case Lose => s.(accepting := s.accepting - 1, pending := s.pending - 1)
    case Disconnect => s.(connected := s.connected - 1, accepted := s.accepted - 1)
  }

  predicate Runs(c: Config, s: State, ops: seq<Op>)
    decreases |ops|
  {
    ops == [] || (Enabled(c, s, ops[0]) && Runs(c, Apply(c, s, ops[0]), ops[1..]))
  }

  function After(c: Config, s: State, ops: seq<Op>): State
    requires Runs(c, s, ops)
    decreases |ops|
  {
    if ops == [] then s else After(c, Apply(c, s, ops[0]), ops[1..])
  }

  lemma {:induction false} RunsConcat(c: Config, s: State, a: seq<Op>, b: seq<Op>)
    requires Runs(c, s, a) && Runs(c, After(c, s, a), b)
    ensures Runs(c, s, a + b) && After(c, s, a + b) == After(c, After(c, s, a), b)
    decreases |a|
  {
    hide Apply, Enabled;
    if a == [] {
      assert a + b == b;
    } else {
      RunsConcat(c, Apply(c, s, a[0]), a[1..], b);
      assert (a + b)[1..] == a[1..] + b;
    }
  }

  /** How many accepts a run posts. */
  function Posts(ops: seq<Op>): nat
  {
    if ops == [] then 0 else Posts(ops[..|ops| - 1]) + (if ops[|ops| - 1] == Post then 1 else 0)
  }

  lemma PostsSnoc(ops: seq<Op>, op: Op)
    ensures Posts(ops + [op]) == Posts(ops) + (if op == Post then 1 else 0)
  {
    assert (ops + [op])[..|ops|] == ops;
  }

  // ---- the bound ----

  function Limit(c: Config): int
  {
    (if c.max > 0 then c.max else 0) + c.workers
  }

  /** The two counters add up to the sessions there are, but for those taken off twice, and with what is under way they
      stay within the limit. */
  predicate Inv(c: Config, s: State)
  {
    && s.accepting + s.accepted == s.pending + s.connected + s.failed - s.twice
    && s.between <= c.workers
    && s.accepting + s.accepted + s.between + s.budget <= Limit(c)
  }

  lemma StartInv(c: Config)
    requires c.create <= c.max
    ensures Inv(c, Start(c))
  {
  }

  lemma StepKeeps(c: Config, s: State, op: Op)
    requires Inv(c, s) && Enabled(c, s, op)
    ensures Inv(c, Apply(c, s, op))
  {
  }

  lemma {:induction false} RunKeeps(c: Config, s: State, ops: seq<Op>)
    requires Inv(c, s) && Runs(c, s, ops)
    ensures Inv(c, After(c, s, ops))
    decreases |ops|
  {
    hide Inv, Apply, Enabled;
    if ops != [] {
      StepKeeps(c, s, ops[0]);
      RunKeeps(c, Apply(c, s, ops[0]), ops[1..]);
    }
  }

  /** However the threads interleave and whichever sessions fail or go: never more than one session over the maximum
      for each worker thread and each session taken off the count twice. With OnAccepted atomic, the case of no workers
      between its halves, and no failed AcceptEx, never more than the maximum. */
  lemma AcceptBound(c: Config, ops: seq<Op>)
    requires 0 <= c.max && c.create <= c.max && Runs(c, Start(c), ops)
    ensures var s := After(c, Start(c), ops);
            && s.accepting + s.accepted + s.between <= c.max + c.workers
            && s.pending + s.connected + s.failed + s.between <= c.max + c.workers + s.twice
  {
    StartInv(c);
    RunKeeps(c, Start(c), ops);
  }

  // ---- the bound is tight ----

  lemma OneStep(c: Config, s: State, op: Op)
    requires Enabled(c, s, op)
    ensures Runs(c, s, [op]) && After(c, s, [op]) == Apply(c, s, op)
  {
    assert [op][1..] == [];
  }

  /** One state leads to another by steps that the code takes, OnAccepted never being atomic. */
  ghost predicate Reaches(c: Config, s: State, t: State)
  {
    exists ops :: Runs(c, s, ops) && After(c, s, ops) == t && Accept !in ops
  }

  lemma ReachesBy(c: Config, s: State, op: Op)
    requires Enabled(c, s, op) && op != Accept
    ensures Reaches(c, s, Apply(c, s, op))
  {
    OneStep(c, s, op);
    assert Accept !in [op];
  }

  lemma ReachesTrans(c: Config, s: State, t: State, u: State)
    requires Reaches(c, s, t) && Reaches(c, t, u)
    ensures Reaches(c, s, u)
  {
    hide Runs, After;
    var a :| Runs(c, s, a) && After(c, s, a) == t && Accept !in a;
    var b :| Runs(c, t, b) && After(c, t, b) == u && Accept !in b;
    RunsConcat(c, s, a, b);
    assert Accept !in a + b;
  }

  /** `p` accepts posted, `k` sessions connected, `b` workers inside OnAccepted, and nothing left to post. */
  function Plain(p: nat, k: nat, b: nat): State
  {
    State(p, k, b, 0, p, k, 0, 0, 0)
  }

  /** What it takes to exceed the maximum. */
  predicate CanExceed(c: Config)
  {
    c.max > 0 && c.min > 0 && c.post > 0 && c.workers > 0
  }

  /** With room for one more by the counters, an accept is posted. */
  lemma PostOne(c: Config, k: nat, b: nat)
    requires CanExceed(c) && k < c.max
    ensures Reaches(c, Plain(0, k, b), Plain(1, k, b))
  {
    hide Reaches;
    var s := Plain(0, k, b);
    var t := Apply(c, s, Read);
    var u := Apply(c, t, Post);
    ReachesBy(c, s, Read);
    ReachesBy(c, t, Post);
    ReachesBy(c, u, GiveUp);
    ReachesTrans(c, s, t, u);
    ReachesTrans(c, s, u, Plain(1, k, b));
  }

  /** And a worker takes it up, without finishing. */
  lemma StartOne(c: Config, k: nat, b: nat)
    requires CanExceed(c) && k < c.max && b < c.workers
    ensures Reaches(c, Plain(0, k, b), Plain(0, k, b + 1))
  {
    hide Reaches;
    PostOne(c, k, b);
    ReachesBy(c, Plain(1, k, b), StartAccept);
    ReachesTrans(c, Plain(0, k, b), Plain(1, k, b), Plain(0, k, b + 1));
  }

  lemma {:induction false} ConnectMany(c: Config, k: nat)
    requires CanExceed(c) && k < c.max
    ensures Reaches(c, Start(c), Plain(0, k, 0))
  {
    hide Reaches;
    if k == 0 {
      ReachesBy(c, Start(c), GiveUp);
    } else {
      ConnectMany(c, k - 1);
      StartOne(c, k - 1, 0);
      ReachesBy(c, Plain(0, k - 1, 1), FinishAccept);
      ReachesTrans(c, Start(c), Plain(0, k - 1, 0), Plain(0, k - 1, 1));
      ReachesTrans(c, Start(c), Plain(0, k - 1, 1), Plain(0, k, 0));
    }
  }

  lemma {:induction false} StartMany(c: Config, k: nat, b: nat)
    requires CanExceed(c) && k < c.max && b <= c.workers
    ensures Reaches(c, Start(c), Plain(0, k, b))
  {
    hide Reaches;
    if b == 0 {
      ConnectMany(c, k);
    } else {
      StartMany(c, k, b - 1);
      StartOne(c, k, b - 1);
      ReachesTrans(c, Start(c), Plain(0, k, b - 1), Plain(0, k, b));
    }
  }

  lemma {:induction false} FinishMany(c: Config, p: nat, k: nat, b: nat)
    ensures Reaches(c, Plain(p, k, b), Plain(p, k + b, 0))
    decreases b
  {
    hide Reaches;
    if b == 0 {
      ReachesSelf(c, Plain(p, k, 0));
    } else {
      ReachesBy(c, Plain(p, k, b), FinishAccept);
      FinishMany(c, p, k + 1, b - 1);
      ReachesTrans(c, Plain(p, k, b), Plain(p, k + 1, b - 1), Plain(p, k + b, 0));
    }
  }

  lemma ReachesSelf(c: Config, s: State)
    ensures Reaches(c, s, s)
  {
    assert Runs(c, s, []) && After(c, s, []) == s && Accept !in [];
  }

  /** The bound is reached: one session short of the maximum, all workers take up accepts the counters no longer show,
      one more is posted, and they finish. */
  lemma BoundIsTight(c: Config)
    requires CanExceed(c)
    ensures Reaches(c, Start(c), Plain(1, c.max - 1 + c.workers, 0))
  {
    hide Reaches;
    var k, w := c.max - 1, c.workers;
    StartMany(c, k, w);
    PostOne(c, k, w);
    FinishMany(c, 1, k, w);
    ReachesTrans(c, Start(c), Plain(0, k, w), Plain(1, k, w));
    ReachesTrans(c, Start(c), Plain(1, k, w), Plain(1, k + w, 0));
  }

  /** What holds of every run of a configuration that lacks any of the four. */
  predicate Within(c: Config, s: State)
  {
    && s.twice == 0
    && s.accepting + s.accepted == s.pending + s.connected + s.failed && s.accepting >= s.pending
    && s.between <= c.workers
    && s.accepting + s.accepted + s.between + s.budget <= c.max
  }

  lemma WithinKeeps(c: Config, s: State, op: Op)
    requires 0 <= c.max && !CanExceed(c) && Within(c, s) && Enabled(c, s, op) && op != DestroyUnposted
    ensures Within(c, Apply(c, s, op))
  {
  }

  lemma {:induction false} TwiceGrows(c: Config, s: State, ops: seq<Op>)
    requires Runs(c, s, ops)
    ensures After(c, s, ops).twice >= s.twice
    decreases |ops|
  {
    if ops != [] {
      TwiceGrows(c, Apply(c, s, ops[0]), ops[1..]);
    }
  }

  lemma {:induction false} StaysWithin(c: Config, s: State, ops: seq<Op>)
    requires 0 <= c.max && !CanExceed(c) && Within(c, s) && Runs(c, s, ops) && After(c, s, ops).twice == 0
    ensures Within(c, After(c, s, ops))
    decreases |ops|
  {
    hide CanExceed;
    if ops != [] {
      TwiceGrows(c, Apply(c, s, ops[0]), ops[1..]);
      WithinKeeps(c, s, ops[0]);
      StaysWithin(c, Apply(c, s, ops[0]), ops[1..]);
    }
  }

  /** As long as no session is taken off the count twice, the acceptor can have more sessions than its maximum exactly
      if the maximum, the minimum, the posting limit and the number of workers are all positive; and then as many more
      as there are workers. */
  lemma ExceedsExactly(c: Config)
    requires 0 <= c.max && c.create <= c.max
    ensures (exists s :: Reaches(c, Start(c), s) && s.twice == 0 && s.pending + s.connected > c.max) <==> CanExceed(c)
  {
    hide Runs, After, Within, CanExceed;
    if CanExceed(c) {
      BoundIsTight(c);
      MoreThanMax(c);
    } else {
      forall s | Reaches(c, Start(c), s) && s.twice == 0
        ensures s.pending + s.connected <= c.max
      {
        var ops :| Runs(c, Start(c), ops) && After(c, Start(c), ops) == s && Accept !in ops;
        StartWithin(c);
        StaysWithin(c, Start(c), ops);
        WithinMax(c, s);
      }
    }
  }

  lemma MoreThanMax(c: Config)
    requires CanExceed(c)
    ensures c.max - 1 + c.workers >= 0
    ensures var s := Plain(1, c.max - 1 + c.workers, 0); s.pending + s.connected == c.max + c.workers > c.max
  {
  }

  lemma StartWithin(c: Config)
    requires 0 <= c.max && c.create <= c.max
    ensures Within(c, Start(c))
  {
  }

  lemma WithinMax(c: Config, s: State)
    requires Within(c, s)
    ensures s.pending + s.connected <= c.max
  {
  }

  // ---- if sessions are never destroyed ----

  function Accepts(ops: seq<Op>): nat
  {
    if ops == [] then 0 else (if ops[0] == Accept || ops[0] == FinishAccept then 1 else 0) + Accepts(ops[1..])
  }

  predicate NeverDestroyed(ops: seq<Op>)
  {
    forall op :: op in ops ==> op != DestroyFailed && op != DestroyUnposted && op != Lose && op != Disconnect
  }

  lemma {:induction false} ConnectedForGood(c: Config, s: State, ops: seq<Op>)
    requires Runs(c, s, ops) && NeverDestroyed(ops)
    ensures After(c, s, ops).connected == s.connected + Accepts(ops) && After(c, s, ops).twice == s.twice
    decreases |ops|
  {
    if ops != [] {
      assert ops[0] in ops && forall op :: op in ops[1..] ==> op in ops;
      ConnectedForGood(c, Apply(c, s, ops[0]), ops[1..]);
    }
  }

  /** Session::Release drops the last reference without deleting the object, so OnDisconnected may never run. The
      maximum is then a bound on the sessions accepted in the whole life of the acceptor. */
  lemma LifetimeBound(c: Config, ops: seq<Op>)
    requires 0 <= c.max && c.create <= c.max && Runs(c, Start(c), ops) && NeverDestroyed(ops)
    ensures Accepts(ops) <= c.max + c.workers
  {
    ConnectedForGood(c, Start(c), ops);
    AcceptBound(c, ops);
  }
}
