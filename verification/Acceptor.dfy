/** The Acceptor's counters and its thread (BaseLib/Acceptor.h, BaseLib/Acceptor.cpp). Between any two lock sections the
    other threads may take any number of steps. */
module Acceptor {
  import opened AcceptProtocol

  class Acceptor {
    const c: Config
    /** Whether the acceptor belongs to a network. */
    const hasNetwork: bool
    var acceptingCount: int
    var acceptedCount: int
    /** The sessions there are, as the threads find them. */
    var state: State
    ghost var history: seq<Op>

    /** The counters are those of a run of the protocol. */
    ghost predicate Valid()
      reads this
    {
      && Runs(c, Start(c), history) && state == After(c, Start(c), history)
      && acceptingCount == state.accepting && acceptedCount == state.accepted
    }

    constructor (c: Config, hasNetwork: bool)
      ensures Valid() && this.c == c && this.hasNetwork == hasNetwork && history == []
    {
      this.c, this.hasNetwork := c, hasNetwork;
      acceptingCount, acceptedCount := 0, 0;
      state, history := Start(c), [];
    }

    /** One more step of the run. */
    method Record(op: Op)
      requires Runs(c, Start(c), history) && state == After(c, Start(c), history) && Enabled(c, state, op)
      modifies this`state, this`history
      ensures Runs(c, Start(c), history) && state == After(c, Start(c), history)
      ensures history == old(history) + [op] && state == Apply(c, old(state), op)
    {
      hide Runs, After, Apply, Enabled;
      OneStep(c, state, op);
      RunsConcat(c, Start(c), history, [op]);
      state, history := Apply(c, state, op), history + [op];
    }

    // ---- the lock sections ----

    /** PostAccept raises the count before AcceptEx and lowers it again if that fails. */
    method PostAccept(acceptRc: int) returns (rc: int)
      requires Valid() && state.budget > 0
      modifies this
      ensures rc == acceptRc
      ensures var op := if rc == 0 then Post else FailAccept;
              Valid() && history == old(history) + [op] && state == Apply(c, old(state), op)
    {
      hide Runs, After, Posts;
      acceptingCount := acceptingCount + 1;
      if 0 != acceptRc {
        acceptingCount := acceptingCount - 1;
        Record(FailAccept);
        return acceptRc;
      }
      Record(Post);
      return 0;
    }

    method DecreaseCurAcceptingCount()
      requires Valid() && Enabled(c, state, StartAccept)
      modifies this
      ensures Valid() && history == old(history) + [StartAccept] && state == Apply(c, old(state), StartAccept)
    {
      hide Runs, After, Posts;
      acceptingCount := acceptingCount - 1;
      Record(StartAccept);
    }

    method IncreaseCurAcceptedCount()
      requires Valid() && state.between > 0
      modifies this
      ensures Valid() && history == old(history) + [FinishAccept] && state == Apply(c, old(state), FinishAccept)
    {
      hide Runs, After, Posts;
      acceptedCount := acceptedCount + 1;
      Record(FinishAccept);
    }

    /** OnDisconnected, as a session of one of four kinds is destroyed. */
    method OnDisconnected(isConnected: bool, op: Op)
      requires Valid() && Enabled(c, state, op)
      requires if isConnected then op == DestroyFailed || op == Disconnect else op == Lose || op == DestroyUnposted
      modifies this
      ensures Valid() && history == old(history) + [op] && state == Apply(c, old(state), op)
    {
      hide Runs, After, Posts;
      if isConnected {
        acceptedCount := acceptedCount - 1;
      } else {
        acceptingCount := acceptingCount - 1;
      }
      Record(op);
    }

    /** What the acceptor thread may post: nothing unless fewer than the minimum are accepting, and then as much as
        keeps the counters within the maximum and the posting limit, and no less. */
    method GetReserveAcceptCount() returns (n: int)
      requires Valid() && state.budget == 0
      modifies this`state, this`history
      ensures Valid() && history == old(history) + [Read] && state == Apply(c, old(state), Read)
      ensures state.budget == if n > 0 then n else 0
      ensures n > 0 ==>
                acceptingCount < c.min && acceptingCount + acceptedCount + n <= c.max && acceptingCount + n <= c.post
      ensures acceptingCount < c.min ==> !HasRoom(c, acceptingCount, acceptedCount, n + 1)
    {
      hide Runs, After, Posts;
      n := 0;
      if acceptingCount < c.min {
        var acceptDiff := c.post - acceptingCount;
        var availableAccept := c.max - (acceptingCount + acceptedCount);
        n := if availableAccept < acceptDiff then availableAccept else acceptDiff;
      }
      Record(Read);
    }

    // ---- the threads ----

    /** The steps of the acceptor thread. */
    predicate Mine(op: Op)
    {
      op == Read || op == GiveUp || op == Post || op == FailAccept
    }

    /** One step of another thread. */
    method Step(op: Op)
      requires Valid() && Enabled(c, state, op) && !Mine(op) && op != Accept
      modifies this
      ensures Valid() && history == old(history) + [op] && state == Apply(c, old(state), op)
    {
      hide Runs, After, Posts;
      if op == StartAccept {
        DecreaseCurAcceptingCount();
      } else if op == FinishAccept {
        IncreaseCurAcceptedCount();
      } else if op == FailAssociate {
        Record(FailAssociate);
      } else {
        OnDisconnected(op == DestroyFailed || op == Disconnect, op);
      }
    }

    /** Any number of steps of threads other than the acceptor thread, `mine` of the workers excepted. */
    method Interfere(mine: nat)
      requires Valid() && mine <= state.between
      modifies this
      ensures Valid() && mine <= state.between && state.budget == old(state).budget
      ensures old(history) <= history && Posts(history) == Posts(old(history))
    {
      hide Runs, After, Posts;
      var steps: nat :| steps >= 0;
      for i := 0 to steps
        invariant Valid() && mine <= state.between && state.budget == old(state).budget
        invariant old(history) <= history && Posts(history) == Posts(old(history))
      {
        var op: Op := *;
        if !Mine(op) && op != Accept && Enabled(c, state, op) && (op == FinishAccept ==> mine < state.between)
        {
          PostsSnoc(history, op);
          Step(op);
        }
      }
    }

    /** OnAccepted on a worker thread: the two halves are locked one by one. */
    method OnAccepted()
      requires Valid() && Enabled(c, state, StartAccept)
      modifies this
      ensures Valid() && state.budget == old(state).budget
      ensures old(history) + [StartAccept] <= history && |history| > |old(history)| + 1
      ensures history[|history| - 1] == FinishAccept
    {
      hide Runs, After, Posts;
      DecreaseCurAcceptingCount();
      Interfere(1);
      IncreaseCurAcceptedCount();
    }

    /** ReserveAccept: posts the accepts one by one; the result is zero exactly when there is a network and all of them
        were posted. It ends with an error, after those posted so far, when a session cannot be created or initialized
        or its AcceptEx fails. */
    method ReserveAccept(reserveCount: int) returns (rc: int)
      requires Valid() && state.budget == if reserveCount > 0 then reserveCount else 0
      modifies this
      ensures Valid() && state.budget == 0 && old(history) <= history
      ensures var posted := Posts(history) - Posts(old(history));
              var wanted := if reserveCount > 0 then reserveCount else 0;
              0 <= posted <= wanted && (rc == 0 <==> hasNetwork && posted == wanted)
      ensures !hasNetwork ==> rc == 1 && Posts(history) == Posts(old(history))
      ensures rc != 0 ==> history != [] && history[|history| - 1] in {GiveUp, FailAccept}
    {
      hide Runs, After, Posts;
      if !hasNetwork {
        PostsSnoc(history, GiveUp);
        Record(GiveUp);
        return 1;
      }
      var i := 0;
      while i < reserveCount
        invariant Valid() && (reserveCount > 0 ==> 0 <= i <= reserveCount && state.budget == reserveCount - i)
        invariant reserveCount <= 0 ==> state.budget == 0 && i == 0
        invariant Posts(history) == Posts(old(history)) + i
        invariant old(history) <= history
        decreases reserveCount - i
      {
        Interfere(0);
        var hasSession: bool, createRc: int, acceptRc: int := *, *, *;
        if !hasSession || 0 != createRc {
          PostsSnoc(history, GiveUp);
          Record(GiveUp);
          return if hasSession then createRc else 1;
        }
        PostsSnoc(history, if acceptRc == 0 then Post else FailAccept);
        rc := PostAccept(acceptRc);
        if 0 != rc {
          return;
        }
        i := i + 1;
      }
      return 0;
    }

    /** AcceptorThread::Run for any number of turns of its loop: the sessions pending and connected, and those on their
        way from the one to the other, stay within the maximum and one more for each worker. */
    method Run(turns: nat) returns (rc: int)
      requires Valid() && history == [] && 0 <= c.max && c.create <= c.max
      modifies this
      ensures Valid() && acceptingCount + acceptedCount + state.between <= c.max + c.workers
      ensures state.pending + state.connected + state.failed + state.between <= c.max + c.workers + state.twice
    {
      hide Runs, Enabled;
      rc := ReserveAccept(c.create);
      for i := 0 to turns
        invariant Valid() && state.budget == 0
      {
        Interfere(0);
        var acceptCount := GetReserveAcceptCount();
        if acceptCount > 0 {
          rc := ReserveAccept(acceptCount);
        }
      }
      AcceptBound(c, history);
    }
  }
}
