/**
  Every interleaving of posts, schedule awaiters, cancellation callbacks, workers and join on one
  thread pool. A step is one lock section or one atomic exchange; each scheduled coroutine owns a
  slot whose `claimed` flag decides who resumes it. `accepted`/`taken` (and `posted`/`started` for
  continuations) log the tasks in order of arrival and of dequeue, `ran` logs each run of a task.
  A post names its continuation once. Notifications are sent outside the lock: `owed` counts the
  notify_one calls still to come, `broadcast` is whether join's notify_all is.
 */
module PoolProtocol {
  import opened Common
  import opened ThreadPool

  datatype Task = Sched(w: nat) | Cont(c: nat)

  datatype Claim = Free | BySelf | ByWorker | ByCanceller

  /** Where suspend_impl stands; Ready means the awaiting coroutine runs on by itself. */
  datatype Pc = Registering | Checking | Claiming | Enqueueing | Throwing | Suspended | Ready

  datatype Outcome = Pending | Normal | Cancelled | Threw

  datatype Slot = Slot(registered: bool, pc: Pc, claim: Claim, outcome: Outcome, resumes: nat)

  /** Waiting is awake or signalled, and about to test the wait condition; Asleep is inside the wait. */
  datatype Worker = Waiting | Asleep | Fetched(task: Task) | Ran(task: Task) | Exited

  /** A caller of join: the first one waits for the workers, the others do not. */
  datatype Joiner = Joining(first: bool) | Returned(first: bool)

  datatype State = State(pool: Core<Task>, slots: map<nat, Slot>, workers: map<nat, Worker>,
                         accepted: seq<Task>, taken: seq<Task>, posted: seq<Task>, started: seq<Task>,
                         ran: seq<Task>, finished: set<Task>, inlineRun: set<nat>, joiners: map<nat, Joiner>,
                         owed: nat, broadcast: bool)

  datatype Label =
    | Post(c: nat)
    | StartSchedule(w: nat)
    | Register(w: nat, ok: bool)
    | ReadToken(w: nat, cancelled: bool)
    | SelfClaim(w: nat)
    | Enqueue(w: nat)
    | ThrowClaim(w: nat)
    | CancelClaim(w: nat)
    | CancelResume(w: nat)
    | Doze(k: nat)
    | Wake(k: nat)
    | Notify(k: nat)
    | NotifyNobody
    | NotifyAll
    | Take(k: nat)
    | RunTask(k: nat)
    | Finish(k: nat)
    | Exit(k: nat)
    | Join(j: nat)
    | JoinReturn(j: nat)

  /** A pool with the given worker threads; the constructor starts at least one. */
  function Init(capacity: nat, workers: set<nat>): State {
    State(Fresh(capacity), map[], map k | k in workers :: Waiting, [], [], [], [], [], {}, {}, map[], 0, false)
  }

  predicate HasPc(s: State, w: nat, pc: Pc) {
    w in s.slots && s.slots[w].pc == pc
  }

  predicate Enabled(s: State, l: Label) {
    match l
    case Post(c) => Cont(c) !in s.posted && c !in s.inlineRun
    case StartSchedule(w) => w !in s.slots
    case Register(w, _) => HasPc(s, w, Registering)
    // a slot is not registered when its token is already cancelled, or when it has none
    case ReadToken(w, _) => HasPc(s, w, Checking)
    case SelfClaim(w) => HasPc(s, w, Claiming)
    case Enqueue(w) => HasPc(s, w, Enqueueing)
    case ThrowClaim(w) => HasPc(s, w, Throwing)
    case CancelClaim(w) => w in s.slots && s.slots[w].registered
    case CancelResume(w) => w in s.slots && s.slots[w].claim == ByCanceller && s.slots[w].outcome == Pending
    case Doze(k) => k in s.workers && s.workers[k] == Waiting && !s.pool.stopping && s.pool.Idle()
    // a wait may also end by itself
    case Wake(k) => k in s.workers && s.workers[k] == Asleep
    case Notify(k) => s.owed > 0 && k in s.workers && s.workers[k] == Asleep
    case NotifyNobody => s.owed > 0 && forall k <- s.workers :: s.workers[k] != Asleep
    case NotifyAll => s.broadcast
    case Take(k) => k in s.workers && s.workers[k] == Waiting && !s.pool.Idle()
    case RunTask(k) => k in s.workers && s.workers[k].Fetched?
    case Finish(k) => k in s.workers && s.workers[k].Ran?
    case Exit(k) => k in s.workers && s.workers[k] == Waiting && s.pool.stopping && s.pool.Idle()
    case Join(j) => j !in s.joiners
    case JoinReturn(j) => j in s.joiners && s.joiners[j].Joining? && (s.joiners[j].first ==> !s.broadcast && AllExited(s.workers))
  }

  predicate AllExited(workers: map<nat, Worker>) {
    forall k <- workers :: workers[k] == Exited
  }

  function Put(s: State, w: nat, slot: Slot): State {
    s.(slots := s.slots[w := slot])
  }

  function Resume(slot: Slot, who: Claim, outcome: Outcome): Slot {
    slot.(claim := who, outcome := outcome, resumes := slot.resumes + 1)
  }

  /** The pool task of a slot: resume it unless somebody claimed it first. */
  function RunSlot(slots: map<nat, Slot>, t: Task): map<nat, Slot> {
    if t.Sched? && t.w in slots && slots[t.w].claim == Free then slots[t.w := Resume(slots[t.w], ByWorker, Normal)]
    else slots
  }

  /** notify_all. */
  function Woken(workers: map<nat, Worker>): map<nat, Worker> {
    map k | k in workers :: if workers[k] == Asleep then Waiting else workers[k]
  }

  function Step(s: State, l: Label): State
    requires Enabled(s, l)
  {
    match l
    case Post(c) =>
      if s.pool.stopping then s.(inlineRun := s.inlineRun + {c})
      else s.(pool := PostLocked(s.pool, Cont(c)), posted := s.posted + [Cont(c)], owed := s.owed + 1)
    case StartSchedule(w) => Put(s, w, Slot(false, Registering, Free, Pending, 0))
    case Register(w, ok) => Put(s, w, s.slots[w].(registered := ok, pc := Checking))
    case ReadToken(w, c) => Put(s, w, s.slots[w].(pc := if c then Claiming else Enqueueing))
    case SelfClaim(w) =>
      var slot := s.slots[w];
      Put(s, w, if slot.claim == Free then Resume(slot, BySelf, Cancelled).(pc := Ready) else slot.(pc := Enqueueing))
    case Enqueue(w) =>
      var p := EnqueueLocked(s.pool, Sched(w));
      if p.None? then Put(s, w, s.slots[w].(pc := Throwing))
      else Put(s, w, s.slots[w].(pc := Suspended)).(pool := p.value, accepted := s.accepted + [Sched(w)], owed := s.owed + 1)
    case ThrowClaim(w) =>
      var slot := s.slots[w];
      Put(s, w, if slot.claim == Free then Resume(slot, BySelf, Threw).(pc := Ready) else slot.(pc := Suspended))
    case CancelClaim(w) =>
      if s.slots[w].claim != Free then s else Put(s, w, s.slots[w].(claim := ByCanceller))
    case CancelResume(w) => Put(s, w, Resume(s.slots[w], ByCanceller, Cancelled))
    case Doze(k) => s.(workers := s.workers[k := Asleep])
    case Wake(k) => s.(workers := s.workers[k := Waiting])
    case Notify(k) => s.(workers := s.workers[k := Waiting], owed := s.owed - 1)
    case NotifyNobody => s.(owed := s.owed - 1)
    case NotifyAll => s.(workers := Woken(s.workers), broadcast := false)
    case Take(k) =>
      var (p, t) := TakeLocked(s.pool);
      var u := s.(pool := p, workers := s.workers[k := Fetched(t)]);
      if s.pool.cont != [] then u.(started := s.started + [t]) else u.(taken := s.taken + [t])
    case RunTask(k) =>
      var t := s.workers[k].task;
      s.(workers := s.workers[k := Ran(t)], ran := s.ran + [t], slots := RunSlot(s.slots, t))
    case Finish(k) => s.(workers := s.workers[k := Waiting], finished := s.finished + {s.workers[k].task})
    case Exit(k) => s.(workers := s.workers[k := Exited])
    case Join(j) =>
      var (p, first) := StopLocked(s.pool);
      s.(pool := p, joiners := s.joiners[j := Joining(first)], broadcast := s.broadcast || first)
    case JoinReturn(j) => s.(joiners := s.joiners[j := Returned(s.joiners[j].first)])
  }

  function Run(s: State, trace: seq<Label>): (r: Option<State>)
    decreases |trace|
  {
    if trace == [] then Some(s)
    else if !Enabled(s, trace[0]) then None
    else Run(Step(s, trace[0]), trace[1..])
  }

  // ---------------------------------------------------------------- invariant

  /** Arrival logs are dequeue logs followed by what is still queued. */
  ghost predicate QueuesOk(pool: Core<Task>, accepted: seq<Task>, taken: seq<Task>, posted: seq<Task>, started: seq<Task>) {
    && pool.Ok()
    && accepted == taken + pool.Pending() && NoDup(accepted)
    && posted == started + pool.cont && NoDup(posted) && (forall t <- posted :: t.Cont?)
  }

  ghost predicate InHand(workers: map<nat, Worker>, t: Task) {
    exists k <- workers :: workers[k] == Fetched(t) || workers[k] == Ran(t)
  }

  /** Every dequeued task is in a worker's hands or finished, and finished means it ran. */
  ghost predicate WorkersOk(workers: map<nat, Worker>, taken: seq<Task>, started: seq<Task>, ran: seq<Task>, finished: set<Task>) {
    && (forall t :: t in taken || t in started ==> t in finished || InHand(workers, t))
    && (forall t <- finished :: t in ran)
    && (forall t <- ran :: t in taken || t in started)
    && (forall k <- workers :: workers[k].Ran? ==> workers[k].task in ran)
    && (forall k <- workers :: workers[k].Fetched? ==> workers[k].task in taken || workers[k].task in started)
  }

  predicate Holds(w: Worker) {
    w.Fetched? || w.Ran?
  }

  /** No task was run twice, no two workers hold one task, and a fetched task has not run yet. */
  ghost predicate OnceOk(workers: map<nat, Worker>, ran: seq<Task>) {
    && NoDup(ran)
    && (forall k <- workers :: workers[k].Fetched? ==> workers[k].task !in ran)
    && (forall j <- workers, k <- workers ::
          j != k && Holds(workers[j]) && Holds(workers[k]) ==> workers[j].task != workers[k].task)
  }

  /** One caller of join at most is the first, it exists once the pool is stopping, and it returns to exited workers. */
  ghost predicate JoinOk(joiners: map<nat, Joiner>, workers: map<nat, Worker>, stopping: bool) {
    && (forall i <- joiners, j <- joiners :: joiners[i].first && joiners[j].first ==> i == j)
    && (forall j <- joiners :: stopping)
    && (forall j <- joiners :: joiners[j] == Returned(true) ==> AllExited(workers))
  }

  ghost predicate ExitedOk(workers: map<nat, Worker>, pool: Core<Task>) {
    forall k <- workers :: workers[k] == Exited ==> pool.stopping && pool.Idle()
  }

  /** One slot, given whether its task was accepted and whether the task has run. */
  ghost predicate SlotOk(slot: Slot, accepted: bool, ran: bool) {
    && (accepted ==> slot.pc == Suspended)
    && (slot.pc == Registering ==> !slot.registered)
    && match slot.claim
       case Free =>
         slot.resumes == 0 && slot.outcome == Pending && slot.pc != Ready && (slot.pc == Suspended ==> accepted && !ran)
       case BySelf =>
         slot.resumes == 1 && slot.pc == Ready && (slot.outcome == Cancelled || slot.outcome == Threw)
       case ByWorker =>
         slot.resumes == 1 && slot.pc == Suspended && slot.outcome == Normal && ran
       case ByCanceller =>
         && slot.pc != Ready && slot.registered
         && ((slot.resumes == 0 && slot.outcome == Pending) || (slot.resumes == 1 && slot.outcome == Cancelled))
  }

  ghost predicate SlotsOk(slots: map<nat, Slot>, accepted: seq<Task>, ran: seq<Task>) {
    && (forall t <- accepted :: t.Sched? && t.w in slots)
    && (forall w <- slots :: SlotOk(slots[w], Sched(w) in accepted, Sched(w) in ran))
  }

  ghost predicate Inv(s: State) {
    && QueuesOk(s.pool, s.accepted, s.taken, s.posted, s.started)
    && WorkersOk(s.workers, s.taken, s.started, s.ran, s.finished)
    && OnceOk(s.workers, s.ran)
    && ExitedOk(s.workers, s.pool)
    && SlotsOk(s.slots, s.accepted, s.ran)
    && JoinOk(s.joiners, s.workers, s.pool.stopping)
  }

  lemma PutKeeps(s: State, w: nat, slot: Slot)
    requires SlotsOk(s.slots, s.accepted, s.ran)
    requires SlotOk(slot, Sched(w) in s.accepted, Sched(w) in s.ran)
    ensures SlotsOk(s.slots[w := slot], s.accepted, s.ran)
  {
  }

  lemma PostKeeps(s: State, c: nat)
    requires Inv(s) && Enabled(s, Post(c))
    ensures Inv(Step(s, Post(c)))
  {
    if !s.pool.stopping {
      assert s.posted + [Cont(c)] == s.started + (s.pool.cont + [Cont(c)]);
    }
  }

  /** A slot about to be enqueued has no task in the pool yet. */
  lemma NotYetAccepted(s: State, w: nat)
    requires Inv(s) && HasPc(s, w, Enqueueing)
    ensures Sched(w) !in s.accepted && Sched(w) !in s.ran
  {
    assert SlotOk(s.slots[w], Sched(w) in s.accepted, Sched(w) in s.ran);
    assert forall x <- s.started :: x in s.posted;
    assert forall x <- s.taken :: x in s.accepted;
  }

  lemma AcceptQueues(pool: Core<Task>, accepted: seq<Task>, taken: seq<Task>, posted: seq<Task>, started: seq<Task>, t: Task)
    requires QueuesOk(pool, accepted, taken, posted, started) && !pool.stopping && t !in accepted
    ensures QueuesOk(EnqueueLocked(pool, t).value, accepted + [t], taken, posted, started)
  {
    EnqueueIsFifo(pool, t);
    var p := EnqueueLocked(pool, t).value;
    assert taken + (pool.Pending() + [t]) == taken + pool.Pending() + [t];
  }

  lemma AcceptKeeps(s: State, w: nat)
    requires Inv(s) && HasPc(s, w, Enqueueing) && !s.pool.stopping
    ensures Inv(Step(s, Enqueue(w)))
  {
    NotYetAccepted(s, w);
    AcceptQueues(s.pool, s.accepted, s.taken, s.posted, s.started, Sched(w));
    AcceptKeepsSlots(s.slots, s.accepted, s.ran, w);
    var t := Step(s, Enqueue(w));
    assert ExitedOk(t.workers, t.pool);
  }

  lemma AcceptKeepsSlots(slots: map<nat, Slot>, accepted: seq<Task>, ran: seq<Task>, w: nat)
    requires SlotsOk(slots, accepted, ran) && w in slots && slots[w].pc == Enqueueing && Sched(w) !in ran
    ensures SlotsOk(slots[w := slots[w].(pc := Suspended)], accepted + [Sched(w)], ran)
  {
    var slots', accepted' := slots[w := slots[w].(pc := Suspended)], accepted + [Sched(w)];
    forall v <- slots' ensures SlotOk(slots'[v], Sched(v) in accepted', Sched(v) in ran) {
      assert SlotOk(slots[v], Sched(v) in accepted, Sched(v) in ran);
      assert Sched(v) in accepted' <==> Sched(v) in accepted || v == w;
    }
  }

  lemma HandsAfter(workers: map<nat, Worker>, k: nat, worker: Worker, t: Task)
    requires k in workers && InHand(workers, t)
    requires (workers[k].Fetched? || workers[k].Ran?) && workers[k].task == t ==>
               (worker.Fetched? || worker.Ran?) && worker.task == t
    ensures InHand(workers[k := worker], t)
  {
    var j :| j in workers && (workers[j] == Fetched(t) || workers[j] == Ran(t));
    assert j in workers[k := worker];
    if j == k {
      assert workers[k := worker][k] == Fetched(t) || workers[k := worker][k] == Ran(t);
    } else {
      assert workers[k := worker][j] == workers[j];
    }
  }

  lemma TakeKeepsWorkers(workers: map<nat, Worker>, taken: seq<Task>, started: seq<Task>, ran: seq<Task>,
                         finished: set<Task>, k: nat, t: Task, taken': seq<Task>, started': seq<Task>)
    requires WorkersOk(workers, taken, started, ran, finished) && k in workers && workers[k] == Waiting
    requires (taken' == taken + [t] && started' == started) || (taken' == taken && started' == started + [t])
    ensures WorkersOk(workers[k := Fetched(t)], taken', started', ran, finished)
  {
    var workers' := workers[k := Fetched(t)];
    assert forall x :: x in taken' || x in started' <==> x in taken || x in started || x == t;
    forall x | x in taken' || x in started' ensures x in finished || InHand(workers', x) {
      if x == t {
        assert k in workers' && workers'[k] == Fetched(t);
      } else if x !in finished {
        HandsAfter(workers, k, Fetched(t), x);
      }
    }
  }

  // ---------------------------------------------------------------- each task once

  lemma OnceAfterTake(workers: map<nat, Worker>, ran: seq<Task>, k: nat, t: Task)
    requires OnceOk(workers, ran) && k in workers && workers[k] == Waiting
    requires t !in ran && forall j <- workers :: Holds(workers[j]) ==> workers[j].task != t
    ensures OnceOk(workers[k := Fetched(t)], ran)
  {
  }

  lemma OnceAfterRun(workers: map<nat, Worker>, ran: seq<Task>, k: nat)
    requires OnceOk(workers, ran) && k in workers && workers[k].Fetched?
    ensures OnceOk(workers[k := Ran(workers[k].task)], ran + [workers[k].task])
  {
    var t := workers[k].task;
    assert forall x :: x in ran + [t] <==> x in ran || x == t;
  }

  lemma OnceAfterRest(workers: map<nat, Worker>, ran: seq<Task>, k: nat, w: Worker)
    requires OnceOk(workers, ran) && k in workers && !Holds(w)
    ensures OnceOk(workers[k := w], ran)
  {
  }

  /** While some worker is not through, no first join has returned. */
  lemma JoinAfterWork(joiners: map<nat, Joiner>, workers: map<nat, Worker>, stopping: bool, k: nat, w: Worker)
    requires JoinOk(joiners, workers, stopping) && k in workers && workers[k] != Exited
    ensures JoinOk(joiners, workers[k := w], stopping)
  {
    assert !AllExited(workers);
  }

  /** A task about to be taken was never dequeued before: no worker holds it and it has not run. */
  lemma TakenIsNew(s: State)
    requires Inv(s) && !s.pool.Idle()
    ensures var t := TakeLocked(s.pool).1;
            && t !in s.taken && t !in s.started && t !in s.ran
            && forall j <- s.workers :: Holds(s.workers[j]) ==> s.workers[j].task != t
  {
    var t := TakeLocked(s.pool).1;
    TakeIsFifo(s.pool);
    assert t !in s.taken && t !in s.started by { QueuedIsNew(s, t); }
  }

  lemma QueuedIsNew(s: State, t: Task)
    requires QueuesOk(s.pool, s.accepted, s.taken, s.posted, s.started) && (forall x <- s.accepted :: x.Sched?)
    requires if s.pool.cont != [] then t == s.pool.cont[0] else s.pool.Pending() != [] && t == s.pool.Pending()[0]
    ensures t !in s.taken && t !in s.started
  {
    if s.pool.cont != [] {
      assert s.posted[|s.started|] == t && t in s.posted;
      assert forall i :: 0 <= i < |s.started| ==> s.posted[i] == s.started[i];
      assert forall x <- s.taken :: x in s.accepted;
    } else {
      assert s.accepted[|s.taken|] == t && t in s.accepted;
      assert forall i :: 0 <= i < |s.taken| ==> s.accepted[i] == s.taken[i];
      assert forall x <- s.started :: x in s.posted;
    }
  }

  // ---------------------------------------------------------------- steps of a worker

  lemma TakeCont(pool: Core<Task>, accepted: seq<Task>, taken: seq<Task>, posted: seq<Task>, started: seq<Task>)
    requires QueuesOk(pool, accepted, taken, posted, started) && pool.cont != []
    ensures QueuesOk(TakeLocked(pool).0, accepted, taken, posted, started + [pool.cont[0]])
  {
    assert pool.cont == [pool.cont[0]] + pool.cont[1..];
    assert started + pool.cont == started + [pool.cont[0]] + pool.cont[1..];
  }

  lemma TakeSched(pool: Core<Task>, accepted: seq<Task>, taken: seq<Task>, posted: seq<Task>, started: seq<Task>)
    requires QueuesOk(pool, accepted, taken, posted, started) && pool.cont == [] && !pool.Idle()
    ensures QueuesOk(TakeLocked(pool).0, accepted, taken + [TakeLocked(pool).1], posted, started)
  {
    TakeIsFifo(pool);
    var (p, t) := TakeLocked(pool);
    assert taken + ([t] + p.Pending()) == taken + [t] + p.Pending();
  }

  lemma TakeQueues(s: State, k: nat)
    requires Inv(s) && Enabled(s, Take(k))
    ensures var t := Step(s, Take(k)); QueuesOk(t.pool, t.accepted, t.taken, t.posted, t.started)
  {
    if s.pool.cont != [] {
      TakeCont(s.pool, s.accepted, s.taken, s.posted, s.started);
    } else {
      TakeSched(s.pool, s.accepted, s.taken, s.posted, s.started);
    }
  }

  lemma TakeKeeps(s: State, k: nat)
    requires Inv(s) && Enabled(s, Take(k))
    ensures Inv(Step(s, Take(k)))
  {
    var t := Step(s, Take(k));
    var task := TakeLocked(s.pool).1;
    TakeQueues(s, k);
    assert ExitedOk(t.workers, t.pool);
    TakeKeepsWorkers(s.workers, s.taken, s.started, s.ran, s.finished, k, task, t.taken, t.started);
    TakenIsNew(s);
    OnceAfterTake(s.workers, s.ran, k, task);
    JoinAfterWork(s.joiners, s.workers, s.pool.stopping, k, Fetched(task));
  }

  lemma RunWorkers(workers: map<nat, Worker>, taken: seq<Task>, started: seq<Task>, ran: seq<Task>,
                   finished: set<Task>, k: nat)
    requires WorkersOk(workers, taken, started, ran, finished) && k in workers && workers[k].Fetched?
    ensures WorkersOk(workers[k := Ran(workers[k].task)], taken, started, ran + [workers[k].task], finished)
  {
    var t := workers[k].task;
    assert forall x :: x in ran + [t] <==> x in ran || x == t;
    forall x | x in taken || x in started ensures x in finished || InHand(workers[k := Ran(t)], x) {
      if x !in finished {
        HandsAfter(workers, k, Ran(t), x);
      }
    }
  }

  lemma RunTaskKeeps(s: State, k: nat)
    requires Inv(s) && Enabled(s, RunTask(k))
    ensures Inv(Step(s, RunTask(k)))
  {
    var task := s.workers[k].task;
    RunWorkers(s.workers, s.taken, s.started, s.ran, s.finished, k);
    assert task in s.accepted || task.Cont? by {
      assert forall x <- s.taken :: x in s.accepted;
      assert forall x <- s.started :: x in s.posted;
    }
    RunKeepsSlots(s.slots, s.accepted, s.ran, task);
    OnceAfterRun(s.workers, s.ran, k);
    JoinAfterWork(s.joiners, s.workers, s.pool.stopping, k, Ran(task));
  }

  lemma RunKeepsSlots(slots: map<nat, Slot>, accepted: seq<Task>, ran: seq<Task>, t: Task)
    requires SlotsOk(slots, accepted, ran) && (t in accepted || t.Cont?)
    ensures SlotsOk(RunSlot(slots, t), accepted, ran + [t])
  {
    forall v <- slots
      ensures SlotOk(RunSlot(slots, t)[v], Sched(v) in accepted, Sched(v) in ran + [t])
    {
      assert SlotOk(slots[v], Sched(v) in accepted, Sched(v) in ran);
    }
  }

  lemma FinishKeeps(s: State, k: nat)
    requires Inv(s) && Enabled(s, Finish(k))
    ensures Inv(Step(s, Finish(k)))
  {
    var task := s.workers[k].task;
    var t := Step(s, Finish(k));
    forall x | x in s.taken || x in s.started ensures x in t.finished || InHand(t.workers, x) {
      if x !in t.finished {
        HandsAfter(s.workers, k, Waiting, x);
      }
    }
    OnceAfterRest(s.workers, s.ran, k, Waiting);
    JoinAfterWork(s.joiners, s.workers, s.pool.stopping, k, Waiting);
  }

  lemma ExitKeeps(s: State, k: nat)
    requires Inv(s) && Enabled(s, Exit(k))
    ensures Inv(Step(s, Exit(k)))
  {
    var t := Step(s, Exit(k));
    forall x | x in s.taken || x in s.started ensures x in t.finished || InHand(t.workers, x) {
      if x !in t.finished {
        HandsAfter(s.workers, k, Exited, x);
      }
    }
    OnceAfterRest(s.workers, s.ran, k, Exited);
    JoinAfterWork(s.joiners, s.workers, s.pool.stopping, k, Exited);
  }

  /** Falling asleep and waking up. */
  lemma RestKeeps(s: State, l: Label)
    requires Inv(s) && Enabled(s, l) && (l.Doze? || l.Wake? || l.Notify?)
    ensures Inv(Step(s, l))
  {
    var w := Step(s, l).workers[l.k];
    forall x | x in s.taken || x in s.started ensures x in s.finished || InHand(s.workers[l.k := w], x) {
      if x !in s.finished {
        HandsAfter(s.workers, l.k, w, x);
      }
    }
    OnceAfterRest(s.workers, s.ran, l.k, w);
    JoinAfterWork(s.joiners, s.workers, s.pool.stopping, l.k, w);
  }

  lemma WokenHands(workers: map<nat, Worker>, t: Task)
    requires InHand(workers, t)
    ensures InHand(Woken(workers), t)
  {
    var j :| j in workers && (workers[j] == Fetched(t) || workers[j] == Ran(t));
    assert j in Woken(workers) && Woken(workers)[j] == workers[j];
  }

  lemma NotifyAllKeeps(s: State)
    requires Inv(s) && s.broadcast
    ensures Inv(Step(s, NotifyAll))
  {
    var workers := Woken(s.workers);
    forall x | x in s.taken || x in s.started ensures x in s.finished || InHand(workers, x) {
      if x !in s.finished {
        WokenHands(s.workers, x);
      }
    }
    assert WorkersOk(workers, s.taken, s.started, s.ran, s.finished);
    assert OnceOk(workers, s.ran);
    assert AllExited(s.workers) ==> workers == s.workers;
  }

  lemma JoinKeeps(s: State, l: Label)
    requires Inv(s) && Enabled(s, l) && (l.Join? || l.JoinReturn?)
    ensures Inv(Step(s, l))
  {
    var t := Step(s, l);
    assert JoinOk(t.joiners, t.workers, t.pool.stopping);
  }

  /** The steps that rewrite one slot and nothing else. */
  lemma SlotKeeps(s: State, l: Label)
    requires Inv(s) && Enabled(s, l)
    requires l.StartSchedule? || l.Register? || l.ReadToken? || l.SelfClaim? || l.ThrowClaim? || l.CancelClaim?
             || l.CancelResume? || (l.Enqueue? && s.pool.stopping)
    ensures Inv(Step(s, l))
  {
    var t := Step(s, l);
    if t != s {
      assert l.w in s.slots ==> SlotOk(s.slots[l.w], Sched(l.w) in s.accepted, Sched(l.w) in s.ran);
      assert t == Put(s, l.w, t.slots[l.w]);
      PutKeeps(s, l.w, t.slots[l.w]);
    }
  }

  lemma StepKeeps(s: State, l: Label)
    requires Inv(s) && Enabled(s, l)
    ensures Inv(Step(s, l))
  {
    if l.Post? {
      PostKeeps(s, l.c);
    } else if l.Enqueue? && !s.pool.stopping {
      AcceptKeeps(s, l.w);
    } else if l.Take? {
      TakeKeeps(s, l.k);
    } else if l.RunTask? {
      RunTaskKeeps(s, l.k);
    } else if l.Finish? {
      FinishKeeps(s, l.k);
    } else if l.Exit? {
      ExitKeeps(s, l.k);
    } else if l.Doze? || l.Wake? || l.Notify? {
      RestKeeps(s, l);
    } else if l.NotifyAll? {
      NotifyAllKeeps(s);
    } else if l.NotifyNobody? {
      assert Inv(s.(owed := s.owed - 1));
    } else if l.Join? || l.JoinReturn? {
      JoinKeeps(s, l);
    } else {
      SlotKeeps(s, l);
    }
  }

  lemma StepWorkers(s: State, l: Label)
    requires Enabled(s, l)
    ensures Step(s, l).workers.Keys == s.workers.Keys
  {
    var t := Step(s, l);
    if l.Doze? || l.Wake? || l.Notify? || l.Take? || l.RunTask? || l.Finish? || l.Exit? {
      assert t.workers == s.workers[l.k := t.workers[l.k]];
    } else if !l.NotifyAll? {
      assert t.workers == s.workers;
    }
  }

  lemma {:induction false} RunKeeps(s: State, trace: seq<Label>)
    requires Inv(s) && Run(s, trace).Some?
    ensures Inv(Run(s, trace).value) && Run(s, trace).value.workers.Keys == s.workers.Keys
    decreases |trace|
  {
    if trace != [] {
      StepKeeps(s, trace[0]);
      StepWorkers(s, trace[0]);
      RunKeeps(Step(s, trace[0]), trace[1..]);
    }
  }

  ghost predicate Reachable(s: State) {
    exists capacity: nat, workers: set<nat>, trace: seq<Label> ::
      workers != {} && Run(Init(capacity, workers), trace) == Some(s)
  }

  lemma ReachableInv(s: State)
    requires Reachable(s)
    ensures Inv(s) && s.workers.Keys != {}
  {
    var capacity: nat, workers: set<nat>, trace: seq<Label> :|
      workers != {} && Run(Init(capacity, workers), trace) == Some(s);
    assert Init(capacity, workers).workers.Keys == workers;
    RunKeeps(Init(capacity, workers), trace);
  }

  // ---------------------------------------------------------------- what every run promises

  /**
    The ready queue followed by the backlog is exactly the accepted tasks not yet dequeued, in
    arrival order; tasks are deferred only while the ready queue is exactly at capacity; no task is
    dequeued twice and tasks leave in arrival order.
   */
  lemma RefinesOneFifo(s: State)
    requires Reachable(s)
    ensures s.accepted == s.taken + s.pool.queue + s.pool.backlog
    ensures s.pool.backlog != [] ==> |s.pool.queue| == s.pool.capacity
    ensures NoDup(s.taken) && s.taken <= s.accepted
    ensures s.posted == s.started + s.pool.cont && NoDup(s.started)
  {
    ReachableInv(s);
    assert s.taken + s.pool.queue + s.pool.backlog == s.taken + s.pool.Pending();
    assert forall i :: 0 <= i < |s.taken| ==> s.taken[i] == s.accepted[i];
    assert forall i :: 0 <= i < |s.started| ==> s.started[i] == s.posted[i];
  }

  /** The worker's "ready queue empty but backlog not" refill is never needed. */
  lemma RefillNeverNeeded(s: State)
    requires Reachable(s) && s.pool.queue == []
    ensures s.pool.backlog == []
  {
    ReachableInv(s);
  }

  /** A worker ends only after join was called and with all three queues empty for good. */
  lemma WorkersExitDrained(s: State, k: nat)
    requires Reachable(s) && k in s.workers && s.workers[k] == Exited
    ensures s.pool.stopping && s.pool.Idle()
  {
    ReachableInv(s);
  }

  /** No task, scheduled or continuation, is run twice in any run. */
  lemma RunsAtMostOnce(s: State)
    requires Reachable(s)
    ensures NoDup(s.ran) && forall t <- s.ran :: t in s.accepted || t in s.posted
  {
    ReachableInv(s);
    assert forall t <- s.taken :: t in s.accepted;
    assert forall t <- s.started :: t in s.posted;
  }

  /** With empty queues and no worker holding a task, all that was queued has run to its end, exactly once. */
  lemma IdleDrained(s: State)
    requires Reachable(s) && s.pool.Idle() && forall k <- s.workers :: !Holds(s.workers[k])
    ensures s.taken == s.accepted && s.started == s.posted
    ensures NoDup(s.ran) && forall t :: t in s.ran <==> t in s.accepted || t in s.posted
    ensures forall t <- s.ran :: t in s.finished
  {
    ReachableInv(s);
    assert s.taken + [] == s.taken && s.started + [] == s.started;
    forall t | t in s.accepted || t in s.posted ensures t in s.finished {
      assert !InHand(s.workers, t);
    }
    RunsAtMostOnce(s);
  }

  /** With every worker through, each accepted task and each queued continuation has run to its end, exactly once. */
  lemma WorkersDrain(s: State)
    requires Reachable(s) && AllExited(s.workers)
    ensures s.taken == s.accepted && s.started == s.posted
    ensures NoDup(s.ran) && forall t :: t in s.ran <==> t in s.accepted || t in s.posted
    ensures forall t <- s.ran :: t in s.finished
  {
    assert s.pool.Idle() by {
      ReachableInv(s);
      var k :| k in s.workers.Keys;
      assert s.workers[k] == Exited;
    }
    IdleDrained(s);
  }

  /**
    When the first join has returned, in that state and ever after, every accepted task and every
    queued continuation has run to its end exactly once. There is only one first join.
   */
  lemma JoinDrains(s: State, j: nat)
    requires Reachable(s) && j in s.joiners && s.joiners[j] == Returned(true)
    ensures s.taken == s.accepted && s.started == s.posted
    ensures NoDup(s.ran) && forall t :: t in s.ran <==> t in s.accepted || t in s.posted
    ensures forall t <- s.ran :: t in s.finished
    ensures forall i <- s.joiners :: s.joiners[i].first ==> i == j
  {
    ReachableInv(s);
    WorkersDrain(s);
  }

  /** In any state of a stopping pool, another caller of join returns at once and leaves every queue as it was. */
  lemma LaterJoinReturnsAtOnce(s: State, j: nat)
    requires s.pool.stopping && j !in s.joiners
    ensures Enabled(s, Join(j)) && Enabled(Step(s, Join(j)), JoinReturn(j))
    ensures var u := Step(Step(s, Join(j)), JoinReturn(j));
            u.joiners[j] == Returned(false) && u.pool == s.pool && u.ran == s.ran && u.workers == s.workers
  {
  }

  lemma {:induction false} RunOn(s: State, trace: seq<Label>, l: Label)
    requires Run(s, trace).Some? && Enabled(Run(s, trace).value, l)
    ensures Run(s, trace + [l]) == Some(Step(Run(s, trace).value, l))
    decreases |trace|
  {
    var longer := trace + [l];
    if trace == [] {
      assert longer[0] == l && longer[1..] == [];
      assert Run(Step(s, l), []) == Some(Step(s, l));
    } else {
      assert longer[0] == trace[0] && longer[1..] == trace[1..] + [l];
      RunOn(Step(s, trace[0]), trace[1..], l);
    }
  }

  lemma ExtendReachable(s: State, l: Label)
    requires Reachable(s) && Enabled(s, l)
    ensures Reachable(Step(s, l))
  {
    var capacity: nat, workers: set<nat>, trace: seq<Label> :|
      workers != {} && Run(Init(capacity, workers), trace) == Some(s);
    RunOn(Init(capacity, workers), trace, l);
  }

  /** One task posted to a fresh pool of one worker. */
  lemma PostedOne() returns (s: State)
    ensures Reachable(s) && s.pool.cont == [Cont(0)] && s.ran == [] && s.joiners == map[]
  {
    var i := Init(1, {0});
    assert 0 in {0} && Run(i, []) == Some(i);
    ExtendReachable(i, Post(0));
    s := Step(i, Post(0));
    assert [] + [Cont(0)] == [Cont(0)];
  }

  /** So a join can have returned while a continuation has not run. */
  lemma LaterJoinReturnsEarly() returns (s: State)
    ensures Reachable(s) && 1 in s.joiners && s.joiners[1] == Returned(false)
    ensures s.pool.cont == [Cont(0)] && s.ran == []
  {
    var p := PostedOne();
    ExtendReachable(p, Join(0));
    var q := Step(p, Join(0));
    LaterJoinReturnsAtOnce(q, 1);
    ExtendReachable(q, Join(1));
    ExtendReachable(Step(q, Join(1)), JoinReturn(1));
    s := Step(Step(q, Join(1)), JoinReturn(1));
  }

  /** A scheduled coroutine is resumed at most once and ends in at most one way. */
  lemma ResumedAtMostOnce(s: State, w: nat)
    requires Reachable(s) && w in s.slots
    ensures s.slots[w].resumes <= 1
    ensures s.slots[w].resumes == 1 <==> s.slots[w].outcome != Pending
  {
    ReachableInv(s);
    assert SlotOk(s.slots[w], Sched(w) in s.accepted, Sched(w) in s.ran);
  }

  ghost predicate SameOutcome(slots: map<nat, Slot>, slots': map<nat, Slot>, w: nat) {
    w in slots && w in slots' && slots'[w].resumes == slots[w].resumes && slots'[w].outcome == slots[w].outcome
  }

  /** No later step changes how a resumed coroutine ended. */
  lemma OutcomeIsFinal(s: State, l: Label, w: nat)
    requires Inv(s) && Enabled(s, l) && w in s.slots && s.slots[w].resumes == 1
    ensures SameOutcome(s.slots, Step(s, l).slots, w)
  {
    SettledSlot(s, l, w) by {
      assert SlotOk(s.slots[w], Sched(w) in s.accepted, Sched(w) in s.ran);
    }
  }

  lemma SettledSlot(s: State, l: Label, w: nat)
    requires Enabled(s, l) && w in s.slots && s.slots[w].resumes == 1
    requires SlotOk(s.slots[w], Sched(w) in s.accepted, Sched(w) in s.ran)
    ensures SameOutcome(s.slots, Step(s, l).slots, w)
  {
    if !l.StartSchedule? && !l.Register? && !l.ReadToken? && !l.SelfClaim? && !l.Enqueue? && !l.ThrowClaim?
       && !l.CancelClaim? && !l.CancelResume? && !l.RunTask? {
      OtherSlots(s, l);
    }
  }

  lemma OtherSlots(s: State, l: Label)
    requires Enabled(s, l) && !l.StartSchedule? && !l.Register? && !l.ReadToken? && !l.SelfClaim? && !l.Enqueue?
    requires !l.ThrowClaim? && !l.CancelClaim? && !l.CancelResume? && !l.RunTask?
    ensures Step(s, l).slots == s.slots
  {
  }

  /**
    No resumption is lost: once the workers are through and nobody is inside suspend_impl or a
    cancellation callback, every scheduled coroutine has been resumed exactly once.
   */
  lemma NoLostResume(s: State, w: nat)
    requires Reachable(s) && w in s.slots && AllExited(s.workers)
    requires s.slots[w].pc == Suspended || s.slots[w].pc == Ready
    requires !Enabled(s, CancelResume(w))
    ensures s.slots[w].resumes == 1
  {
    ReachableInv(s);
    WorkersDrain(s);
    assert SlotOk(s.slots[w], Sched(w) in s.accepted, Sched(w) in s.ran);
  }
}
