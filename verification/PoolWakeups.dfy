/**
  Sleeping workers. post, schedule and join notify after they have left the lock, a notification with
  nobody asleep is lost, and moving a task out of the backlog notifies nobody. No task is left behind
  all the same.
 */
module PoolWakeups {
  import opened Common
  import opened ThreadPool
  import opened PoolProtocol

  function Queued(pool: Core<Task>): nat {
    |pool.cont| + |pool.queue| + |pool.backlog|
  }

  /** The workers about to test the wait condition. */
  function Lookers(workers: map<nat, Worker>): set<nat> {
    set k | k in workers && workers[k] == Waiting
  }

  /** What holds while a worker sleeps: each queued task has a looker or a notification of its own on the way. */
  ghost predicate Enough(pool: Core<Task>, workers: map<nat, Worker>, owed: nat, broadcast: bool) {
    Queued(pool) <= owed + |Lookers(workers)| && (pool.stopping ==> broadcast)
  }

  ghost predicate Attended(s: State) {
    forall k <- s.workers :: s.workers[k] == Asleep ==> Enough(s.pool, s.workers, s.owed, s.broadcast)
  }

  function Looks(w: Worker): nat {
    if w == Waiting then 1 else 0
  }

  lemma LookersAfter(workers: map<nat, Worker>, k: nat, w: Worker)
    requires k in workers
    ensures |Lookers(workers[k := w])| == |Lookers(workers)| + Looks(w) - Looks(workers[k])
  {
    if w == Waiting {
      assert Lookers(workers[k := w]) == Lookers(workers) + {k};
    } else {
      assert Lookers(workers[k := w]) == Lookers(workers) - {k};
    }
  }

  /** One worker moves, and is not asleep afterwards. */
  lemma MoveAttended(s: State, k: nat, t: State)
    requires Attended(s) && k in s.workers && k in t.workers && t.workers == s.workers[k := t.workers[k]]
    requires t.workers[k] != Asleep && t.pool.stopping == s.pool.stopping && t.broadcast == s.broadcast
    requires Queued(t.pool) + s.owed + Looks(s.workers[k]) <= Queued(s.pool) + t.owed + Looks(t.workers[k])
             || Queued(t.pool) == 0
    ensures Attended(t)
  {
    LookersAfter(s.workers, k, t.workers[k]);
    forall j <- t.workers | t.workers[j] == Asleep ensures Enough(t.pool, t.workers, t.owed, t.broadcast) {
      assert s.workers[j] == Asleep;
    }
  }

  lemma TakeOneLess(pool: Core<Task>)
    requires pool.Ok() && !pool.Idle()
    ensures Queued(TakeLocked(pool).0) == Queued(pool) - 1 && TakeLocked(pool).0.stopping == pool.stopping
  {
    TakeIsFifo(pool);
    var d := TakeLocked(pool).0;
    assert |pool.Pending()| == |pool.queue| + |pool.backlog| && |d.Pending()| == |d.queue| + |d.backlog|;
  }

  lemma WorkerAttended(s: State, l: Label)
    requires Attended(s) && s.pool.Ok() && Enabled(s, l)
    requires l.Wake? || l.Notify? || l.Take? || l.RunTask? || l.Finish? || l.Exit?
    ensures Attended(Step(s, l))
  {
    if l.Take? {
      TakeOneLess(s.pool);
    }
    MoveAttended(s, l.k, Step(s, l));
  }

  lemma DozeAttended(s: State, k: nat)
    requires Enabled(s, Doze(k))
    ensures Attended(Step(s, Doze(k)))
  {
  }

  /** A task is accepted: one more queued, one more notification owed. */
  lemma AcceptAttended(s: State, l: Label)
    requires Attended(s) && Enabled(s, l) && (l.Post? || l.Enqueue?)
    ensures Attended(Step(s, l))
  {
    var t := Step(s, l);
    assert t.workers == s.workers && t.broadcast == s.broadcast && t.pool.stopping == s.pool.stopping;
    assert Queued(t.pool) - Queued(s.pool) == t.owed - s.owed;
  }

  lemma SignalAttended(s: State, l: Label)
    requires Attended(s) && Enabled(s, l) && (l.NotifyNobody? || l.NotifyAll? || l.Join? || l.JoinReturn?)
    ensures Attended(Step(s, l))
  {
  }

  /** The remaining steps are about slots. */
  lemma SlotAttended(s: State, l: Label)
    requires Attended(s) && Enabled(s, l)
    requires l.StartSchedule? || l.Register? || l.ReadToken? || l.SelfClaim? || l.ThrowClaim? || l.CancelClaim?
             || l.CancelResume?
    ensures Attended(Step(s, l))
  {
    var t := Step(s, l);
    assert t.pool == s.pool && t.workers == s.workers && t.owed == s.owed && t.broadcast == s.broadcast;
  }

  lemma StepAttended(s: State, l: Label)
    requires Attended(s) && s.pool.Ok() && Enabled(s, l)
    ensures Attended(Step(s, l))
  {
    if l.Doze? {
      DozeAttended(s, l.k);
    } else if l.Wake? || l.Notify? || l.Take? || l.RunTask? || l.Finish? || l.Exit? {
      WorkerAttended(s, l);
    } else if l.Post? || l.Enqueue? {
      AcceptAttended(s, l);
    } else if l.NotifyNobody? || l.NotifyAll? || l.Join? || l.JoinReturn? {
      SignalAttended(s, l);
    } else {
      SlotAttended(s, l);
    }
  }

  lemma {:induction false} RunAttended(s: State, trace: seq<Label>)
    requires Inv(s) && Attended(s) && Run(s, trace).Some?
    ensures Attended(Run(s, trace).value)
    decreases |trace|
  {
    if trace != [] {
      StepKeeps(s, trace[0]);
      StepAttended(s, trace[0]);
      RunAttended(Step(s, trace[0]), trace[1..]);
    }
  }

  lemma ReachableAttended(s: State)
    requires Reachable(s)
    ensures Attended(s)
  {
    var capacity: nat, workers: set<nat>, trace: seq<Label> :|
      workers != {} && Run(Init(capacity, workers), trace) == Some(s);
    RunAttended(Init(capacity, workers), trace);
  }

  /**
    While any worker sleeps, there are at least as many workers about to look and notifications on their
    way as there are tasks queued, continuations and backlog included; and once join was called, its
    notify_all is still to come.
   */
  lemma SleeperIsCovered(s: State, k: nat)
    requires Reachable(s) && k in s.workers && s.workers[k] == Asleep
    ensures |s.pool.cont| + |s.pool.queue| + |s.pool.backlog| <= s.owed + |Lookers(s.workers)|
    ensures s.pool.stopping ==> s.broadcast
  {
    ReachableAttended(s);
  }

  /** A queued task always has a worker that is awake, or a notification still to come. */
  lemma NoTaskForgotten(s: State)
    requires Reachable(s) && !s.pool.Idle()
    ensures s.owed > 0 || exists k <- s.workers :: s.workers[k] != Asleep && s.workers[k] != Exited
  {
    ReachableInv(s);
    if forall k <- s.workers :: s.workers[k] == Asleep || s.workers[k] == Exited {
      var k :| k in s.workers.Keys;
      assert s.workers[k] == Asleep;
      assert Lookers(s.workers) == {};
      SleeperIsCovered(s, k);
    }
  }

  /**
    When every worker is asleep or through and no notification is on its way, every accepted task and every queued
    continuation has run to its end exactly once; and if join was called, all workers are through, so the first
    caller of join is not left waiting.
   */
  lemma NothingLeftBehind(s: State)
    requires Reachable(s) && s.owed == 0 && !s.broadcast
    requires forall k <- s.workers :: s.workers[k] == Asleep || s.workers[k] == Exited
    ensures s.pool.Idle() && (s.pool.stopping ==> AllExited(s.workers))
    ensures NoDup(s.ran) && forall t :: t in s.ran <==> t in s.accepted || t in s.posted
    ensures forall t <- s.ran :: t in s.finished
  {
    if !s.pool.Idle() {
      NoTaskForgotten(s);
    }
    IdleDrained(s);
    forall k <- s.workers ensures s.pool.stopping ==> s.workers[k] == Exited {
      if s.workers[k] == Asleep {
        SleeperIsCovered(s, k);
      }
    }
  }
}
