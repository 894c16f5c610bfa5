/**
  Every interleaving of acquire, try_acquire, release, cancellation, close and live resize on
  one semaphore. A step is one lock section or one atomic exchange; the cancellation token may
  fire its callback at any moment after registration. Waiters are named by numbers.
 */
module SemaphoreProtocol {
  import opened Common
  import opened Semaphore

  /** Who won the exchange on a waiter's `claimed` flag. */
  datatype Claim = Free | BySelf | ByReleaser | ByCanceller | ByCloser

  /** Where suspend_impl stands; Ready means it returned false and the coroutine runs on. */
  datatype Pc = Registering | Checking | Locking(pre: bool) | Suspended | Ready

  /** Where cancel_waiter stands for this waiter. */
  datatype CancelPc = Idle | MustUnlink | MustResume | Finished

  datatype PermitState = NoPermit | InTransit | Held | Returned

  /**
    One acquire. `ticket` numbers the push onto the wait queue, `grant` the hand-over of a slot to
    a queued waiter; `posted` counts handles given to the executor and not yet run; `swept` marks
    membership in a closing thread's private list.
   */
  datatype Op = Op(registered: bool, pc: Pc, claim: Claim, cancelPc: CancelPc, permit: PermitState,
                   cancelled: bool, resumes: nat, ticket: Option<nat>, grant: Option<nat>,
                   posted: nat, swept: bool)

  datatype State = State(core: Core<nat>, ops: map<nat, Op>, nextTicket: nat, nextGrant: nat)

  datatype Label =
    | AcquirePlain(w: nat)
    | StartAcquire(w: nat)
    | Register(w: nat, ok: bool)
    | ReadToken(w: nat, pre: bool)
    | AcquireSection(w: nat)
    | CancelClaim(w: nat)
    | CancelUnlink(w: nat)
    | CancelResume(w: nat)
    | CloseSection
    | WakeSwept(w: nat)
    | TryAcquire(w: nat)
    | Release(w: nat)
    | Deliver(w: nat)
    | SetCapacity(n: int)

  const Fresh: Op := Op(false, Registering, Free, Idle, NoPermit, false, 0, None, None, 0, false)

  function Init(n: int): State {
    State(Core(n, n, false, []), map[], 0, 0)
  }

  function At(ops: map<nat, Op>, w: nat): Op {
    if w in ops then ops[w] else Fresh
  }

  function Put(s: State, w: nat, op: Op): State {
    s.(ops := s.ops[w := op])
  }

  /** Waiters whose `claimed` flag is set. */
  function ClaimedSet(ops: map<nat, Op>): set<nat> {
    set w | w in ops && ops[w].claim != Free
  }

  predicate Owns(op: Op) {
    op.permit == InTransit || op.permit == Held
  }

  /** Acquires that own a slot: a permit in hand, or one travelling to a claimed waiter. */
  function Owners(ops: map<nat, Op>): set<nat> {
    set w | w in ops && Owns(ops[w])
  }

  predicate Enabled(s: State, l: Label) {
    match l
    case AcquirePlain(w) => w !in s.ops
    case StartAcquire(w) => w !in s.ops
    case TryAcquire(w) => w !in s.ops
    case Register(w, _) => w in s.ops && s.ops[w].pc == Registering
    // registration is refused only by a token that is already cancelled
    case ReadToken(w, pre) => w in s.ops && s.ops[w].pc == Checking && (s.ops[w].registered || pre)
    case AcquireSection(w) => w in s.ops && s.ops[w].pc.Locking?
    case CancelClaim(w) => w in s.ops && s.ops[w].registered
    case CancelUnlink(w) => w in s.ops && s.ops[w].cancelPc == MustUnlink
    case CancelResume(w) => w in s.ops && s.ops[w].cancelPc == MustResume
    case CloseSection => true
    case WakeSwept(w) => w in s.ops && s.ops[w].swept
    case Release(w) => w in s.ops && s.ops[w].permit == Held
    case Deliver(w) => w in s.ops && s.ops[w].posted > 0
    case SetCapacity(_) => true
  }

  function Granted(op: Op, n: nat): Op {
    op.(claim := ByReleaser, permit := InTransit, posted := op.posted + 1, grant := Some(n))
  }

  /** A free slot: claim and post the oldest unclaimed waiter, or count the permit. */
  function GrantOne(s: State): State {
    var (core, next) := ReleaseLocked(s.core, ClaimedSet(s.ops));
    if next.None? then s.(core := core)
    else
      Put(s, next.value, Granted(At(s.ops, next.value), s.nextGrant)).(core := core, nextGrant := s.nextGrant + 1)
  }

  function GrantMany(s: State, n: nat): State
    decreases n
  {
    if n == 0 then s else GrantMany(GrantOne(s), n - 1)
  }

  /** suspend_impl's lock section with its effect on the waiter. */
  function Suspend(s: State, w: nat, pre: bool): State {
    var op := At(s.ops, w);
    var (core, d) := AcquireLocked(s.core, w, op.claim != Free, pre);
    match d
    case Fail => Put(s, w, op.(claim := BySelf, cancelled := true, resumes := op.resumes + 1, pc := Ready)).(core := core)
    case LostClaim => Put(s, w, op.(pc := Suspended)).(core := core)
    case Take =>
      Put(s, w, op.(claim := BySelf, permit := Held, resumes := op.resumes + 1, pc := Ready)).(core := core)
    case Enqueue =>
      Put(s, w, op.(pc := Suspended, ticket := Some(s.nextTicket))).(core := core, nextTicket := s.nextTicket + 1)
  }

  function Step(s: State, l: Label): State
    requires Enabled(s, l)
  {
    match l
    case AcquirePlain(w) => Suspend(s, w, false)
    case StartAcquire(w) => Put(s, w, Fresh)
    case Register(w, ok) => Put(s, w, s.ops[w].(registered := ok, pc := Checking))
    case ReadToken(w, pre) => Put(s, w, s.ops[w].(pc := Locking(pre)))
    case AcquireSection(w) => Suspend(s, w, s.ops[w].pc.pre)
    case CancelClaim(w) =>
      if s.ops[w].claim != Free then s
      else Put(s, w, s.ops[w].(claim := ByCanceller, cancelPc := MustUnlink))
    case CancelUnlink(w) =>
      Put(s, w, s.ops[w].(cancelPc := MustResume)).(core := s.core.(queue := RemoveFirst(s.core.queue, w)))
    case CancelResume(w) =>
      Put(s, w, s.ops[w].(cancelPc := Finished, cancelled := true, resumes := s.ops[w].resumes + 1))
    case CloseSection =>
      s.(core := s.core.(closed := true, queue := []),
         ops := map w | w in s.ops :: if w in s.core.queue then s.ops[w].(swept := true) else s.ops[w])
    case WakeSwept(w) =>
      var op := s.ops[w].(swept := false);
      Put(s, w, if op.claim != Free then op else op.(claim := ByCloser, cancelled := true, resumes := op.resumes + 1))
    case TryAcquire(w) =>
      if s.core.closed || s.core.permits <= 0 then s
      else Put(s, w, Fresh.(pc := Ready, claim := BySelf, permit := Held, resumes := 1))
           .(core := s.core.(permits := s.core.permits - 1))
    case Release(w) => GrantOne(Put(s, w, s.ops[w].(permit := Returned)))
    case Deliver(w) =>
      var op := s.ops[w];
      Put(s, w, op.(permit := Held, resumes := op.resumes + 1, posted := op.posted - 1))
    case SetCapacity(n) =>
      var delta := n - s.core.capacity;
      var t := s.(core := s.core.(capacity := n));
      if delta <= 0 then t.(core := t.core.(permits := s.core.permits + delta)) else GrantMany(t, delta)
  }

  /** The state after a whole trace, None when some step was not enabled. */
  function Run(s: State, trace: seq<Label>): (r: Option<State>)
    decreases |trace|
  {
    if trace == [] then Some(s)
    else if !Enabled(s, trace[0]) then None
    else Run(Step(s, trace[0]), trace[1..])
  }

  // ---------------------------------------------------------------- invariant

  /** Slots are conserved; `loose` counts slots a lock section still has to place. */
  ghost predicate Conserved(c: Core<nat>, ops: map<nat, Op>, loose: nat) {
    c.permits + |Owners(ops)| + loose == c.capacity
  }

  /** One operation on its own, given whether the wait queue mentions it. */
  ghost predicate OpOk(op: Op, queued: bool) {
    && (queued || op.swept ==> op.pc == Suspended && op.ticket.Some? && (op.claim == Free || op.claim == ByCanceller))
    && !(queued && op.swept)
    && (op.grant.Some? <==> op.claim == ByReleaser)
    && (op.pc == Registering ==> !op.registered)
    && (op.pc != Suspended ==> op.ticket.None?)
    && match op.claim
       case Free =>
         && op.resumes == 0 && op.permit == NoPermit && !op.cancelled && op.cancelPc == Idle && op.posted == 0
         && op.pc != Ready && (op.pc == Suspended ==> queued || op.swept)
       case BySelf =>
         && op.pc == Ready && op.resumes == 1 && op.posted == 0 && op.cancelPc == Idle
         && op.permit != InTransit && (op.cancelled <==> op.permit == NoPermit)
       case ByReleaser =>
         && op.pc == Suspended && op.ticket.Some? && !op.cancelled && op.cancelPc == Idle
         && (|| (op.posted == 1 && op.resumes == 0 && op.permit == InTransit)
             || (op.posted == 0 && op.resumes == 1 && (op.permit == Held || op.permit == Returned)))
       case ByCanceller =>
         && op.registered && op.pc != Ready && op.permit == NoPermit && op.posted == 0
         && (|| ((op.cancelPc == MustUnlink || op.cancelPc == MustResume) && op.resumes == 0 && !op.cancelled)
             || (op.cancelPc == Finished && op.resumes == 1 && op.cancelled))
       case ByCloser =>
         && op.pc == Suspended && op.ticket.Some? && op.permit == NoPermit && op.posted == 0
         && op.cancelPc == Idle && op.resumes == 1 && op.cancelled
  }

  ghost predicate OpsOk(ops: map<nat, Op>, q: seq<nat>, closed: bool) {
    && (forall w <- q :: w in ops)
    && (forall w <- ops :: OpOk(ops[w], w in q))
    && (forall w <- ops :: ops[w].swept ==> closed)
  }

  ghost predicate QueueOk(c: Core<nat>) {
    && (c.queue != [] ==> c.permits <= 0)
    && (c.closed ==> c.queue == [])
  }

  /** Along the queue, tickets increase. */
  ghost predicate QueueSorted(ops: map<nat, Op>, q: seq<nat>) {
    && (forall w <- q :: w in ops && ops[w].ticket.Some?)
    && (forall i, j :: 0 <= i < j < |q| ==> ops[q[i]].ticket.value < ops[q[j]].ticket.value)
  }

  ghost predicate Counted(op: Op, tickets: nat, grants: nat) {
    && (op.ticket.Some? ==> op.ticket.value < tickets)
    && (op.grant.Some? ==> op.ticket.Some? && op.grant.value < grants)
  }

  /** Grants are handed out in ticket order. */
  ghost predicate InOrder(a: Op, b: Op) {
    a.grant.Some? && a.ticket.Some? && b.grant.Some? && b.ticket.Some?
    ==> (a.grant.value < b.grant.value <==> a.ticket.value < b.ticket.value)
  }

  /** A granted waiter was pushed before one that still waits. */
  ghost predicate Older(a: Op, b: Op) {
    a.grant.Some? && a.ticket.Some? && b.ticket.Some? ==> a.ticket.value < b.ticket.value
  }

  /** Grants follow tickets, and nobody still waiting has an older ticket than a granted waiter. */
  ghost predicate GrantsSorted(ops: map<nat, Op>, q: seq<nat>, tickets: nat, grants: nat) {
    && (forall w <- ops :: Counted(ops[w], tickets, grants))
    && (forall v, w :: v in ops && w in ops ==> InOrder(ops[v], ops[w]))
    && (forall v, w :: v in ops && w in ops && (w in q || ops[w].swept) ==> Older(ops[v], ops[w]))
  }

  ghost predicate InvWith(s: State, loose: nat) {
    && Conserved(s.core, s.ops, loose)
    && OpsOk(s.ops, s.core.queue, s.core.closed)
    && QueueOk(s.core)
    && QueueSorted(s.ops, s.core.queue)
    && GrantsSorted(s.ops, s.core.queue, s.nextTicket, s.nextGrant)
  }

  ghost predicate Inv(s: State) {
    InvWith(s, 0)
  }

  lemma SortedHasNoDuplicates(ops: map<nat, Op>, q: seq<nat>)
    requires QueueSorted(ops, q)
    ensures NoDup(q)
  {
    forall i, j | 0 <= i < j < |q| ensures q[i] != q[j] {
      assert ops[q[i]].ticket.value < ops[q[j]].ticket.value;
    }
  }

  function Weight(op: Op): nat {
    if Owns(op) then 1 else 0
  }

  lemma OwnersAfterPut(ops: map<nat, Op>, w: nat, op: Op)
    ensures |Owners(ops[w := op])| == |Owners(ops)| + Weight(op) - (if w in ops then Weight(ops[w]) else 0)
  {
    if Owns(op) {
      assert Owners(ops[w := op]) == Owners(ops) + {w};
    } else {
      assert Owners(ops[w := op]) == Owners(ops) - {w};
    }
  }

  lemma OpsOkUpdate(ops: map<nat, Op>, q: seq<nat>, closed: bool, w: nat, op: Op)
    requires OpsOk(ops, q, closed)
    requires OpOk(op, w in q) && (op.swept ==> closed)
    ensures OpsOk(ops[w := op], q, closed)
  {
  }

  lemma SortedUpdate(ops: map<nat, Op>, q: seq<nat>, tickets: nat, grants: nat, w: nat, op: Op)
    requires QueueSorted(ops, q) && GrantsSorted(ops, q, tickets, grants)
    requires op.ticket == At(ops, w).ticket && op.grant == At(ops, w).grant
    requires op.swept ==> At(ops, w).swept
    ensures QueueSorted(ops[w := op], q) && GrantsSorted(ops[w := op], q, tickets, grants)
  {
    var ops' := ops[w := op];
    forall v <- ops' ensures Counted(ops'[v], tickets, grants) {
      assert v in ops ==> Counted(ops[v], tickets, grants);
    }
    forall u, v | u in ops' && v in ops' ensures InOrder(ops'[u], ops'[v]) {
      assert u in ops && v in ops ==> InOrder(ops[u], ops[v]);
    }
    forall u, v | u in ops' && v in ops' && (v in q || ops'[v].swept) ensures Older(ops'[u], ops'[v]) {
      assert u in ops && v in ops ==> Older(ops[u], ops[v]);
    }
  }

  /** A step that rewrites one operation in place, without moving it in the queue. */
  lemma UpdateKeeps(s: State, w: nat, op: Op, permits: int, loose: nat, loose': nat)
    requires InvWith(s, loose)
    requires OpOk(op, w in s.core.queue) && (op.swept ==> At(s.ops, w).swept)
    requires op.ticket == At(s.ops, w).ticket && op.grant == At(s.ops, w).grant
    requires s.core.queue != [] ==> permits <= 0
    requires permits + Weight(op) + loose' == s.core.permits + Weight(At(s.ops, w)) + loose
    ensures InvWith(Put(s, w, op).(core := s.core.(permits := permits)), loose')
  {
    OwnersAfterPut(s.ops, w, op);
    OpsOkUpdate(s.ops, s.core.queue, s.core.closed, w, op);
    SortedUpdate(s.ops, s.core.queue, s.nextTicket, s.nextGrant, w, op);
  }

  /** The same with the permit count as it was. */
  lemma UpdateOpKeeps(s: State, w: nat, op: Op, loose: nat, loose': nat)
    requires InvWith(s, loose)
    requires OpOk(op, w in s.core.queue) && (op.swept ==> At(s.ops, w).swept)
    requires op.ticket == At(s.ops, w).ticket && op.grant == At(s.ops, w).grant
    requires Weight(op) + loose' == Weight(At(s.ops, w)) + loose
    ensures InvWith(Put(s, w, op), loose')
  {
    OwnersAfterPut(s.ops, w, op);
    OpsOkUpdate(s.ops, s.core.queue, s.core.closed, w, op);
    SortedUpdate(s.ops, s.core.queue, s.nextTicket, s.nextGrant, w, op);
  }

  // ---------------------------------------------------------------- enqueue

  lemma PushOps(ops: map<nat, Op>, q: seq<nat>, closed: bool, w: nat, op: Op)
    requires OpsOk(ops, q, closed) && OpOk(op, true)
    ensures OpsOk(ops[w := op], q + [w], closed)
  {
    var ops', q' := ops[w := op], q + [w];
    forall v <- ops' ensures OpOk(ops'[v], v in q') {
      assert v in q' <==> v in q || v == w;
    }
  }

  lemma PushSorted(ops: map<nat, Op>, q: seq<nat>, tickets: nat, grants: nat, w: nat, op: Op)
    requires QueueSorted(ops, q) && GrantsSorted(ops, q, tickets, grants)
    requires At(ops, w).ticket.None? && At(ops, w).grant.None?
    requires op.ticket == Some(tickets) && op.grant.None? && !op.swept
    ensures QueueSorted(ops[w := op], q + [w]) && GrantsSorted(ops[w := op], q + [w], tickets + 1, grants)
  {
    var ops', q' := ops[w := op], q + [w];
    forall v <- ops' ensures Counted(ops'[v], tickets + 1, grants) {
      assert v in ops ==> Counted(ops[v], tickets, grants);
    }
    forall i, j | 0 <= i < j < |q'| ensures ops'[q'[i]].ticket.value < ops'[q'[j]].ticket.value {
      assert q'[i] == q[i] && q[i] in q && q[i] != w;
      assert Counted(ops[q[i]], tickets, grants);
      assert j < |q| ==> q'[j] == q[j] && q[j] in q;
    }
    forall u, v | u in ops' && v in ops' ensures InOrder(ops'[u], ops'[v]) {
      assert u in ops && v in ops ==> InOrder(ops[u], ops[v]);
    }
    forall u, v | u in ops' && v in ops' && (v in q' || ops'[v].swept) ensures Older(ops'[u], ops'[v]) {
      assert v in q' <==> v in q || v == w;
      assert u in ops ==> Counted(ops[u], tickets, grants);
      assert u in ops && v in ops && v != w ==> Older(ops[u], ops[v]);
    }
  }

  // ---------------------------------------------------------------- hand-over

  /** Dropping the head of the queue up to and including entry `k`, whose waiter becomes `op`. */
  lemma DropOps(ops: map<nat, Op>, q: seq<nat>, closed: bool, k: nat, op: Op)
    requires OpsOk(ops, q, closed) && NoDup(q) && k < |q|
    requires forall i :: 0 <= i < k ==> ops[q[i]].claim != Free
    requires OpOk(op, false) && !op.swept
    ensures OpsOk(ops[q[k] := op], q[k + 1..], closed)
  {
    var w := q[k];
    var ops', q' := ops[w := op], q[k + 1..];
    forall v <- q' ensures v in ops' { assert v in q; }
    assert forall i :: k < i < |q| ==> q[i] == q'[i - k - 1];
    forall v <- ops' ensures OpOk(ops'[v], v in q') {
      if v == w {
        assert v !in q';
      } else {
        assert OpOk(ops[v], v in q);
        if v in q && v !in q' {
          var i :| 0 <= i < |q| && q[i] == v;
          assert i < k;
        }
      }
    }
  }

  lemma DropSorted(ops: map<nat, Op>, q: seq<nat>, tickets: nat, grants: nat, k: nat, op: Op)
    requires QueueSorted(ops, q) && GrantsSorted(ops, q, tickets, grants) && k < |q|
    requires forall v <- ops :: !ops[v].swept
    requires ops[q[k]].grant.None?
    requires op.ticket == ops[q[k]].ticket && op.grant == Some(grants) && !op.swept
    ensures QueueSorted(ops[q[k] := op], q[k + 1..])
    ensures GrantsSorted(ops[q[k] := op], q[k + 1..], tickets, grants + 1)
  {
    var w := q[k];
    var ops', q' := ops[w := op], q[k + 1..];
    assert w in q;
    forall v <- q' ensures v in q && v in ops' { }
    forall v <- ops' ensures Counted(ops'[v], tickets, grants + 1) {
      assert Counted(ops[v], tickets, grants);
    }
    forall u, v | u in ops' && v in ops' ensures InOrder(ops'[u], ops'[v]) {
      assert InOrder(ops[u], ops[v]) && Counted(ops[u], tickets, grants) && Counted(ops[v], tickets, grants);
      assert v == w ==> Older(ops[u], ops[w]);
    }
    forall u, v | u in ops' && v in ops' && (v in q' || ops'[v].swept) ensures Older(ops'[u], ops'[v]) {
      assert v in q;
      assert Older(ops[u], ops[v]);
      var i :| 0 <= i < |q'| && q'[i] == v;
      assert v == q[k + 1 + i];
    }
  }

  /** What placing one slot does: the oldest unclaimed waiter leaves the queue with all before it. */
  lemma PopShape(ops: map<nat, Op>, q: seq<nat>) returns (k: nat)
    requires forall v <- q :: v in ops
    ensures k <= |q|
    ensures forall i :: 0 <= i < k ==> ops[q[i]].claim != Free
    ensures k < |q| ==> ops[q[k]].claim == Free
    ensures PopUnclaimed(q, ClaimedSet(ops)) == if k < |q| then Popped(q[k + 1..], Some(q[k])) else Popped([], None)
  {
    k := PopStopsAt(q, ClaimedSet(ops));
    assert k < |q| ==> q[k] in q;
  }

  /** A slot is placed: either a waiter now owns it or it is counted. */
  lemma GrantOneKeeps(s: State, loose: nat)
    requires InvWith(s, loose + 1)
    ensures InvWith(GrantOne(s), loose)
    ensures GrantOne(s).core.capacity == s.core.capacity
  {
    var c := s.core;
    var q := c.queue;
    var k := PopShape(s.ops, q);
    SortedHasNoDuplicates(s.ops, q);
    if k < |q| {
      var w := q[k];
      assert w in q;
      var op := Granted(s.ops[w], s.nextGrant);
      assert OpOk(s.ops[w], true);
      OwnersAfterPut(s.ops, w, op);
      DropOps(s.ops, q, c.closed, k, op);
      DropSorted(s.ops, q, s.nextTicket, s.nextGrant, k, op);
    } else {
      EmptyQueueOps(s.ops, q, c.closed);
      EmptyQueueSorted(s.ops, q, s.nextTicket, s.nextGrant);
    }
  }

  /** A queue of claimed entries only may be discarded. */
  lemma EmptyQueueOps(ops: map<nat, Op>, q: seq<nat>, closed: bool)
    requires OpsOk(ops, q, closed) && forall i :: 0 <= i < |q| ==> ops[q[i]].claim != Free
    ensures OpsOk(ops, [], closed)
  {
    forall v <- ops ensures OpOk(ops[v], false) {
      assert OpOk(ops[v], v in q);
    }
  }

  lemma EmptyQueueSorted(ops: map<nat, Op>, q: seq<nat>, tickets: nat, grants: nat)
    requires GrantsSorted(ops, q, tickets, grants)
    ensures QueueSorted(ops, []) && GrantsSorted(ops, [], tickets, grants)
  {
  }

  lemma {:induction false} GrantManyKeeps(s: State, n: nat)
    requires InvWith(s, n)
    ensures InvWith(GrantMany(s, n), 0)
    ensures GrantMany(s, n).core.capacity == s.core.capacity
    decreases n
  {
    if n > 0 {
      GrantOneKeeps(s, n - 1);
      GrantManyKeeps(GrantOne(s), n - 1);
    }
  }

  // ---------------------------------------------------------------- unlink and close

  /** Unlinking from a duplicate-free queue removes that entry and keeps the order of the others. */
  lemma UnlinkShape(q: seq<nat>, w: nat)
    requires NoDup(q)
    ensures var r := RemoveFirst(q, w);
            && (forall v :: v in r <==> v in q && v != w)
            && (r == q || exists k :: 0 <= k < |q| && q[k] == w && r == q[..k] + q[k + 1..])
  {
    if w in q {
      var k :| 0 <= k < |q| && q[k] == w;
      RemoveFirstAt(q, w, k);
    } else {
      RemoveFirstAbsent(q, w);
    }
  }

  lemma UnlinkOps(ops: map<nat, Op>, q: seq<nat>, closed: bool, w: nat)
    requires OpsOk(ops, q, closed) && NoDup(q) && w in ops && ops[w].claim == ByCanceller
    ensures OpsOk(ops, RemoveFirst(q, w), closed)
  {
    UnlinkShape(q, w);
    forall v <- ops ensures OpOk(ops[v], v in RemoveFirst(q, w)) {
      assert OpOk(ops[v], v in q);
    }
  }

  /** Leaving out one entry keeps the queue sorted. */
  lemma CutSorted(ops: map<nat, Op>, q: seq<nat>, k: nat)
    requires QueueSorted(ops, q) && k < |q|
    ensures QueueSorted(ops, q[..k] + q[k + 1..])
  {
    var r := q[..k] + q[k + 1..];
    forall v <- r ensures v in ops && ops[v].ticket.Some? { assert v in q; }
    forall i, j | 0 <= i < j < |r| ensures ops[r[i]].ticket.value < ops[r[j]].ticket.value {
      var i', j' := if i < k then i else i + 1, if j < k then j else j + 1;
      assert r[i] == q[i'] && r[j] == q[j'];
    }
  }

  lemma FewerQueued(ops: map<nat, Op>, q: seq<nat>, r: seq<nat>, tickets: nat, grants: nat)
    requires GrantsSorted(ops, q, tickets, grants) && forall v <- r :: v in q
    ensures GrantsSorted(ops, r, tickets, grants)
  {
  }

  lemma UnlinkSorted(ops: map<nat, Op>, q: seq<nat>, tickets: nat, grants: nat, w: nat)
    requires QueueSorted(ops, q) && GrantsSorted(ops, q, tickets, grants)
    ensures var r := RemoveFirst(q, w); QueueSorted(ops, r) && GrantsSorted(ops, r, tickets, grants)
  {
    SortedHasNoDuplicates(ops, q);
    UnlinkShape(q, w);
    var r := RemoveFirst(q, w);
    if r != q {
      var k :| 0 <= k < |q| && q[k] == w && r == q[..k] + q[k + 1..];
      CutSorted(ops, q, k);
    }
    FewerQueued(ops, q, r, tickets, grants);
  }

  function Swept(ops: map<nat, Op>, q: seq<nat>): map<nat, Op> {
    map w | w in ops :: if w in q then ops[w].(swept := true) else ops[w]
  }

  lemma CloseKeeps(s: State)
    requires Inv(s)
    ensures Inv(Step(s, CloseSection))
  {
    var t, q := Step(s, CloseSection), s.core.queue;
    assert t.ops == Swept(s.ops, q);
    assert Owners(t.ops) == Owners(s.ops);
    CloseOps(s.ops, q, s.core.closed);
    CloseSorted(s.ops, q, s.nextTicket, s.nextGrant);
  }

  lemma CloseOps(ops: map<nat, Op>, q: seq<nat>, closed: bool)
    requires OpsOk(ops, q, closed)
    ensures OpsOk(Swept(ops, q), [], true)
  {
    forall v <- ops ensures OpOk(Swept(ops, q)[v], false) {
      assert OpOk(ops[v], v in q);
    }
  }

  lemma CloseSorted(ops: map<nat, Op>, q: seq<nat>, tickets: nat, grants: nat)
    requires GrantsSorted(ops, q, tickets, grants)
    ensures GrantsSorted(Swept(ops, q), [], tickets, grants)
  {
    var ops' := Swept(ops, q);
    forall v <- ops' ensures Counted(ops'[v], tickets, grants) {
      assert Counted(ops[v], tickets, grants);
    }
    forall u, v | u in ops' && v in ops' ensures InOrder(ops'[u], ops'[v]) {
      assert InOrder(ops[u], ops[v]);
    }
    forall u, v | u in ops' && v in ops' && ops'[v].swept ensures Older(ops'[u], ops'[v]) {
      assert Older(ops[u], ops[v]);
    }
  }

  // ---------------------------------------------------------------- every step, every run

  /** A waiter about to enter its section is not queued. */
  lemma EntersFresh(s: State, w: nat)
    requires Inv(s) && (w !in s.ops || s.ops[w].pc.Locking?)
    ensures w !in s.core.queue && OpOk(At(s.ops, w), false) && !At(s.ops, w).swept && At(s.ops, w).ticket.None?
    ensures At(s.ops, w).claim == Free || At(s.ops, w).claim == ByCanceller
  {
    assert w in s.ops ==> OpOk(s.ops[w], w in s.core.queue);
  }

  lemma FailKeeps(s: State, w: nat)
    requires Inv(s) && w !in s.core.queue && OpOk(At(s.ops, w), false) && !At(s.ops, w).swept
    requires At(s.ops, w).claim == Free && !At(s.ops, w).pc.Suspended?
    ensures var op := At(s.ops, w);
            Inv(Put(s, w, op.(claim := BySelf, cancelled := true, resumes := op.resumes + 1, pc := Ready)))
  {
    var op := At(s.ops, w);
    UpdateOpKeeps(s, w, op.(claim := BySelf, cancelled := true, resumes := op.resumes + 1, pc := Ready), 0, 0);
  }

  lemma LostKeeps(s: State, w: nat)
    requires Inv(s) && w !in s.core.queue && OpOk(At(s.ops, w), false) && !At(s.ops, w).swept
    requires At(s.ops, w).claim == ByCanceller && !At(s.ops, w).pc.Suspended?
    ensures Inv(Put(s, w, At(s.ops, w).(pc := Suspended)))
  {
    UpdateOpKeeps(s, w, At(s.ops, w).(pc := Suspended), 0, 0);
  }

  lemma TakeKeeps(s: State, w: nat)
    requires Inv(s) && w !in s.core.queue && OpOk(At(s.ops, w), false) && !At(s.ops, w).swept
    requires At(s.ops, w).claim == Free && !At(s.ops, w).pc.Suspended? && s.core.permits > 0
    ensures var op := At(s.ops, w);
            Inv(Put(s, w, op.(claim := BySelf, permit := Held, resumes := op.resumes + 1, pc := Ready))
                .(core := s.core.(permits := s.core.permits - 1)))
  {
    var op := At(s.ops, w);
    UpdateKeeps(s, w, op.(claim := BySelf, permit := Held, resumes := op.resumes + 1, pc := Ready), s.core.permits - 1, 0, 0);
  }

  lemma SuspendKeeps(s: State, w: nat, pre: bool)
    requires Inv(s) && (w !in s.ops || s.ops[w].pc.Locking?)
    ensures Inv(Suspend(s, w, pre))
  {
    EntersFresh(s, w);
    match AcquireLocked(s.core, w, At(s.ops, w).claim != Free, pre).1
    case Fail => FailKeeps(s, w);
    case LostClaim => LostKeeps(s, w);
    case Take => TakeKeeps(s, w);
    case Enqueue => EnqueueKeeps(s, w);
  }

  lemma EnqueueKeeps(s: State, w: nat)
    requires Inv(s) && w !in s.core.queue && OpOk(At(s.ops, w), false) && At(s.ops, w).ticket.None?
    requires At(s.ops, w).claim == Free || At(s.ops, w).claim == ByCanceller
    requires !At(s.ops, w).swept && !s.core.closed && s.core.permits <= 0
    ensures var op := At(s.ops, w).(pc := Suspended, ticket := Some(s.nextTicket));
            Inv(Put(s, w, op).(core := s.core.(queue := s.core.queue + [w]), nextTicket := s.nextTicket + 1))
  {
    var op := At(s.ops, w).(pc := Suspended, ticket := Some(s.nextTicket));
    OwnersAfterPut(s.ops, w, op);
    PushOps(s.ops, s.core.queue, s.core.closed, w, op);
    PushSorted(s.ops, s.core.queue, s.nextTicket, s.nextGrant, w, op);
  }

  lemma UnlinkQueueKeeps(s: State, w: nat)
    requires Inv(s) && w in s.ops && s.ops[w].claim == ByCanceller
    ensures Inv(s.(core := s.core.(queue := RemoveFirst(s.core.queue, w))))
  {
    var q := s.core.queue;
    SortedHasNoDuplicates(s.ops, q);
    UnlinkOps(s.ops, q, s.core.closed, w);
    UnlinkSorted(s.ops, q, s.nextTicket, s.nextGrant, w);
  }

  lemma UnlinkMarked(s: State, w: nat)
    requires Inv(s) && w in s.ops && s.ops[w].cancelPc == MustUnlink
    ensures s.ops[w].claim == ByCanceller && Inv(Put(s, w, s.ops[w].(cancelPc := MustResume)))
  {
    assert OpOk(s.ops[w], w in s.core.queue);
    UpdateOpKeeps(s, w, s.ops[w].(cancelPc := MustResume), 0, 0);
  }

  lemma UnlinkKeeps(s: State, w: nat)
    requires Inv(s) && w in s.ops && s.ops[w].cancelPc == MustUnlink
    ensures Inv(Step(s, CancelUnlink(w)))
  {
    var t := Put(s, w, s.ops[w].(cancelPc := MustResume));
    var u := t.(core := t.core.(queue := RemoveFirst(t.core.queue, w)));
    assert Step(s, CancelUnlink(w)) == u;
    assert Inv(u) by {
      UnlinkMarked(s, w);
      UnlinkQueueKeeps(t, w);
    }
  }

  lemma ResizeKeeps(s: State, n: int)
    requires Inv(s)
    ensures Inv(Step(s, SetCapacity(n))) && Step(s, SetCapacity(n)).core.capacity == n
  {
    if n > s.core.capacity {
      GrantManyKeeps(s.(core := s.core.(capacity := n)), n - s.core.capacity);
    }
  }

  /** The steps that rewrite one operation and nothing else but the permit count. */
  lemma LocalKeeps(s: State, l: Label)
    requires Inv(s) && Enabled(s, l)
    requires l.StartAcquire? || l.Register? || l.ReadToken? || l.CancelClaim? || l.CancelResume? || l.WakeSwept?
             || l.TryAcquire? || l.Deliver?
    ensures Inv(Step(s, l))
  {
    var t := Step(s, l);
    if t != s {
      var w := l.w;
      assert w !in s.ops ==> w !in s.core.queue;
      assert w in s.ops ==> OpOk(s.ops[w], w in s.core.queue);
      UpdateKeeps(s, w, t.ops[w], t.core.permits, 0, 0);
      assert t == Put(s, w, t.ops[w]).(core := s.core.(permits := t.core.permits));
    }
  }

  /** The slot is given back and not yet placed. */
  lemma ReturnKeeps(s: State, w: nat)
    requires Inv(s) && w in s.ops && s.ops[w].permit == Held
    ensures InvWith(Put(s, w, s.ops[w].(permit := Returned)), 1)
  {
    assert OpOk(s.ops[w], w in s.core.queue);
    UpdateOpKeeps(s, w, s.ops[w].(permit := Returned), 0, 1);
  }

  lemma ReleaseKeeps(s: State, w: nat)
    requires Inv(s) && w in s.ops && s.ops[w].permit == Held
    ensures Inv(Step(s, Release(w)))
  {
    var t := Put(s, w, s.ops[w].(permit := Returned));
    assert Step(s, Release(w)) == GrantOne(t);
    assert InvWith(GrantOne(t), 0) by {
      ReturnKeeps(s, w);
      GrantOneKeeps(t, 0);
    }
  }

  lemma StepKeeps(s: State, l: Label)
    requires Inv(s) && Enabled(s, l)
    ensures Inv(Step(s, l))
  {
    match l
    case AcquirePlain(w) => SuspendKeeps(s, w, false);
    case AcquireSection(w) => SuspendKeeps(s, w, s.ops[w].pc.pre);
    case CancelUnlink(w) => UnlinkKeeps(s, w);
    case CloseSection => CloseKeeps(s);
    case Release(w) => ReleaseKeeps(s, w);
    case SetCapacity(n) => ResizeKeeps(s, n);
    case _ => LocalKeeps(s, l);
  }

  lemma {:induction false} RunKeeps(s: State, trace: seq<Label>)
    requires Inv(s) && Run(s, trace).Some?
    ensures Inv(Run(s, trace).value)
    decreases |trace|
  {
    if trace != [] {
      StepKeeps(s, trace[0]);
      RunKeeps(Step(s, trace[0]), trace[1..]);
    }
  }

  ghost predicate QueueKnown(s: State) {
    forall v <- s.core.queue :: v in s.ops
  }

  lemma GrantOneShape(s: State)
    requires QueueKnown(s)
    ensures var r := ReleaseLocked(s.core, ClaimedSet(s.ops)); var u := GrantOne(s);
            && u.core == r.0 && QueueKnown(u)
            && (r.1.None? ==> u.ops == s.ops && u.nextGrant == s.nextGrant)
            && (r.1.Some? ==>
                  && u.nextGrant == s.nextGrant + 1 && r.1.value in u.ops
                  && u.ops[r.1.value].grant == Some(s.nextGrant) && u.ops[r.1.value].claim != Free
                  && ClaimedSet(u.ops) == ClaimedSet(s.ops) + {r.1.value})
    ensures forall w :: w in s.ops && s.ops[w].claim != Free ==> w in GrantOne(s).ops && GrantOne(s).ops[w] == s.ops[w]
  {
    var k := PopShape(s.ops, s.core.queue);
    if k < |s.core.queue| {
      assert s.core.queue[k] in s.core.queue;
      assert forall v <- s.core.queue[k + 1..] :: v in s.core.queue;
    }
  }

  lemma {:induction false} GrantManyTouchesFree(s: State, n: nat, w: nat)
    requires QueueKnown(s) && w in s.ops && s.ops[w].claim != Free
    ensures w in GrantMany(s, n).ops && GrantMany(s, n).ops[w] == s.ops[w]
    decreases n
  {
    if n > 0 {
      GrantOneShape(s);
      GrantManyTouchesFree(GrantOne(s), n - 1, w);
    }
  }

  /** Growing in the protocol is the growth loop of the object, wake-ups in order included. */
  lemma {:induction false} GrantManyIsGrow(s: State, n: nat)
    requires QueueKnown(s)
    ensures var g := Grow(s.core, ClaimedSet(s.ops), n); var t := GrantMany(s, n);
            && t.core == g.0
            && forall j :: 0 <= j < |g.1| ==> At(t.ops, g.1[j]).grant == Some(s.nextGrant + j)
    decreases n
  {
    if n > 0 {
      GrantOneShape(s);
      var u, r := GrantOne(s), ReleaseLocked(s.core, ClaimedSet(s.ops)).1;
      GrantManyIsGrow(u, n - 1);
      if r.Some? {
        GrantManyTouchesFree(u, n - 1, r.value);
        var g, h := Grow(s.core, ClaimedSet(s.ops), n).1, Grow(u.core, ClaimedSet(u.ops), n - 1).1;
        assert g == [r.value] + h;
        forall j | 0 <= j < |g| ensures At(GrantMany(s, n).ops, g[j]).grant == Some(s.nextGrant + j) {
          if j > 0 { assert g[j] == h[j - 1]; }
        }
      }
    }
  }

  /** The machine's resize is the object's lock section, both ways, wake-ups in order included. */
  lemma {:induction false} ResizeIsSetCapacity(s: State, n: int)
    requires QueueKnown(s)
    ensures var r, t := SetCapacityLocked(s.core, ClaimedSet(s.ops), n), Step(s, SetCapacity(n));
            t.core == r.0 && forall j :: 0 <= j < |r.1| ==> At(t.ops, r.1[j]).grant == Some(s.nextGrant + j)
  {
    if n > s.core.capacity {
      GrantManyIsGrow(s.(core := s.core.(capacity := n)), n - s.core.capacity);
    }
  }

  /** States some interleaving reaches from a fresh semaphore of some capacity. */
  ghost predicate Reachable(s: State) {
    exists n: int, trace: seq<Label> :: Run(Init(n), trace) == Some(s)
  }

  lemma ReachableInv(s: State)
    requires Reachable(s)
    ensures Inv(s)
  {
    var n: int, trace: seq<Label> :| Run(Init(n), trace) == Some(s);
    assert Owners(Init(n).ops) == {};
    RunKeeps(Init(n), trace);
  }

  // ---------------------------------------------------------------- what every run promises

  /** Permits are conserved, so wait_drained's test holds exactly when no slot is out. */
  lemma PermitsConserved(s: State)
    requires Reachable(s)
    ensures s.core.permits + |Owners(s.ops)| == s.core.capacity
    ensures s.core.permits >= s.core.capacity <==> Owners(s.ops) == {}
  {
    ReachableInv(s);
  }

  /** A coroutine is resumed at most once and ends in exactly one way; cancellation costs no permit. */
  lemma ResumedAtMostOnce(s: State, w: nat)
    requires Reachable(s) && w in s.ops
    ensures var op := s.ops[w];
            && op.resumes <= 1
            && (op.resumes == 1 && op.cancelled ==> op.permit == NoPermit)
            && (op.resumes == 1 && !op.cancelled ==> op.permit == Held || op.permit == Returned)
            && (op.cancelled ==> w !in Owners(s.ops))
  {
    ReachableInv(s);
    assert OpOk(s.ops[w], w in s.core.queue);
  }

  ghost predicate SameOutcome(s: State, t: State, w: nat) {
    w in s.ops && w in t.ops && t.ops[w].resumes == s.ops[w].resumes && t.ops[w].cancelled == s.ops[w].cancelled
  }

  lemma ReleaseOutcome(s: State, v: nat, w: nat)
    requires Inv(s) && v in s.ops && s.ops[v].permit == Held && w in s.ops && s.ops[w].resumes == 1
    ensures SameOutcome(s, Step(s, Release(v)), w)
  {
    assert OpOk(s.ops[w], w in s.core.queue);
    var k := PopShape(s.ops[v := s.ops[v].(permit := Returned)], s.core.queue);
  }

  lemma ResizeOutcome(s: State, n: int, w: nat)
    requires Inv(s) && w in s.ops && s.ops[w].resumes == 1
    ensures SameOutcome(s, Step(s, SetCapacity(n)), w)
  {
    assert OpOk(s.ops[w], w in s.core.queue);
    if n > s.core.capacity {
      GrantManyTouchesFree(s.(core := s.core.(capacity := n)), n - s.core.capacity, w);
    }
  }

  /** The remaining steps rewrite one acquire: another one, or a field that does not count. */
  lemma LocalOutcome(s: State, l: Label, w: nat)
    requires Enabled(s, l) && !l.Release? && !l.SetCapacity? && w in s.ops && s.ops[w].resumes == 1
    requires OpOk(s.ops[w], w in s.core.queue)
    ensures SameOutcome(s, Step(s, l), w)
  {
  }

  /** No later step of anybody changes how a resumed acquire ended. */
  lemma OutcomeIsFinalStep(s: State, l: Label, w: nat)
    requires Inv(s) && Enabled(s, l) && w in s.ops && s.ops[w].resumes == 1
    ensures SameOutcome(s, Step(s, l), w)
  {
    match l
    case Release(v) => ReleaseOutcome(s, v, w);
    case SetCapacity(n) => ResizeOutcome(s, n, w);
    case _ => LocalOutcome(s, l, w);
  }

  lemma {:induction false} OutcomeIsFinal(s: State, trace: seq<Label>, w: nat)
    requires Inv(s) && Run(s, trace).Some? && w in s.ops && s.ops[w].resumes == 1
    ensures SameOutcome(s, Run(s, trace).value, w)
    decreases |trace|
  {
    if trace != [] {
      StepKeeps(s, trace[0]);
      OutcomeIsFinalStep(s, trace[0], w);
      OutcomeIsFinal(Step(s, trace[0]), trace[1..], w);
    }
  }

  /** Nothing is under way: no section half done, no handle posted, no wake-up or cancellation pending. */
  ghost predicate Quiet(s: State) {
    forall w <- s.ops ::
      && (s.ops[w].pc == Suspended || s.ops[w].pc == Ready)
      && s.ops[w].posted == 0 && !s.ops[w].swept
      && (s.ops[w].cancelPc == Idle || s.ops[w].cancelPc == Finished)
  }

  /**
    No wake-up is lost: when nothing is under way, every acquire that has not been resumed is an
    unclaimed queue entry, no permit is available, and somebody holds one unless the capacity is gone.
   */
  lemma NoLostWakeup(s: State, w: nat)
    requires Reachable(s) && Quiet(s) && w in s.ops && s.ops[w].resumes == 0
    ensures w in s.core.queue && s.ops[w].claim == Free && s.core.permits <= 0
    ensures s.core.capacity > 0 ==> Owners(s.ops) != {}
  {
    ReachableInv(s);
    assert OpOk(s.ops[w], w in s.core.queue);
  }

  /** A newcomer gets a permit only when nobody waits. */
  lemma NoOvertaking(s: State, l: Label)
    requires Reachable(s) && Enabled(s, l) && (l.AcquirePlain? || l.AcquireSection? || l.TryAcquire?)
    requires l.w in Owners(Step(s, l).ops)
    ensures s.core.queue == []
  {
    ReachableInv(s);
    assert l.w in s.ops ==> OpOk(s.ops[l.w], l.w in s.core.queue);
  }

  /** Slots reach queued waiters in exactly the order they were pushed, skipping only claimed ones. */
  lemma GrantsAreFifo(s: State, v: nat, w: nat)
    requires Reachable(s) && v in s.ops && w in s.ops && s.ops[v].grant.Some? && s.ops[w].ticket.Some?
    ensures s.ops[v].ticket.Some?
    ensures s.ops[w].grant.Some? ==>
              (s.ops[v].grant.value < s.ops[w].grant.value <==> s.ops[v].ticket.value < s.ops[w].ticket.value)
    ensures s.ops[w].ticket.value < s.ops[v].ticket.value ==> s.ops[w].claim != Free
  {
    ReachableInv(s);
    assert Counted(s.ops[v], s.nextTicket, s.nextGrant);
    assert InOrder(s.ops[v], s.ops[w]);
    assert OpOk(s.ops[w], w in s.core.queue);
    if s.ops[w].claim == Free {
      assert Older(s.ops[v], s.ops[w]);
    }
  }

  // ---------------------------------------------------------------- resizing and the capacity bound

  ghost predicate Shrinks(s: State, l: Label) {
    l.SetCapacity? && l.n < s.core.capacity
  }

  ghost predicate NeverShrinks(s: State, trace: seq<Label>)
    decreases |trace|
  {
    trace == [] || (Enabled(s, trace[0]) ==> !Shrinks(s, trace[0]) && NeverShrinks(Step(s, trace[0]), trace[1..]))
  }

  /** Slots out exceed the capacity exactly when the permit count is negative. */
  lemma OverCapacityIffNegative(s: State)
    requires Reachable(s)
    ensures |Owners(s.ops)| > s.core.capacity <==> s.core.permits < 0
  {
    ReachableInv(s);
  }

  lemma {:induction false} GrantManyPermits(s: State, n: nat)
    ensures s.core.permits <= GrantMany(s, n).core.permits <= s.core.permits + n
    decreases n
  {
    if n > 0 {
      GrantManyPermits(GrantOne(s), n - 1);
    }
  }

  /** A count that is not negative goes negative only by shrinking further than it reaches. */
  lemma StepPermits(s: State, l: Label)
    requires Enabled(s, l) && s.core.permits >= 0
    ensures Step(s, l).core.permits < 0 <==> l.SetCapacity? && l.n < s.core.capacity - s.core.permits
  {
    if l.SetCapacity? && l.n > s.core.capacity {
      GrantManyPermits(s.(core := s.core.(capacity := l.n)), l.n - s.core.capacity);
    }
  }

  /** From a state within capacity, the one step that leaves it is shrinking below what is out. */
  lemma StepOverrunsIff(s: State, l: Label)
    requires Reachable(s) && Enabled(s, l) && |Owners(s.ops)| <= s.core.capacity
    ensures var t := Step(s, l);
            |Owners(t.ops)| > t.core.capacity <==> l.SetCapacity? && l.n < |Owners(s.ops)|
  {
    ReachableInv(s);
    StepPermits(s, l);
    var t := Step(s, l);
    assert Conserved(t.core, t.ops, 0) by { StepKeeps(s, l); }
  }

  lemma {:induction false} NeverShrunkKeepsPermits(s: State, trace: seq<Label>)
    requires s.core.permits >= 0 && Run(s, trace).Some? && NeverShrinks(s, trace)
    ensures Run(s, trace).value.core.permits >= 0
    decreases |trace|
  {
    if trace != [] {
      StepPermits(s, trace[0]);
      NeverShrunkKeepsPermits(Step(s, trace[0]), trace[1..]);
    }
  }

  /** Without a shrink, no interleaving has more slots out than the capacity. */
  lemma WithinCapacity(n: nat, trace: seq<Label>)
    requires Run(Init(n), trace).Some? && NeverShrinks(Init(n), trace)
    ensures var s := Run(Init(n), trace).value; |Owners(s.ops)| <= s.core.capacity
  {
    NeverShrunkKeepsPermits(Init(n), trace);
    PermitsConserved(Run(Init(n), trace).value);
  }

  /** Somebody is queued whom nobody has claimed. */
  ghost predicate Waiting(ops: map<nat, Op>, q: seq<nat>) {
    exists v <- q :: At(ops, v).claim == Free
  }

  /** Somebody owns a slot who did not before. */
  ghost predicate Admits(ops: map<nat, Op>, ops': map<nat, Op>) {
    exists v :: v in Owners(ops') && v !in Owners(ops)
  }

  lemma GrantOneAdmits(s: State) returns (v: nat)
    requires QueueKnown(s)
    ensures Waiting(s.ops, s.core.queue) ==>
              && v in s.core.queue && v in s.ops && s.ops[v].claim == Free
              && v in GrantOne(s).ops && GrantOne(s).ops[v].claim != Free && Owns(GrantOne(s).ops[v])
              && GrantOne(s).core.permits == s.core.permits
    ensures !Waiting(s.ops, s.core.queue) ==>
              GrantOne(s).ops == s.ops && GrantOne(s).core == s.core.(queue := [], permits := s.core.permits + 1)
  {
    var q := s.core.queue;
    var k := PopShape(s.ops, q);
    v := 0;
    if k < |q| {
      v := q[k];
      assert v in q;
    } else {
      forall u <- q ensures At(s.ops, u).claim != Free {
        var i :| 0 <= i < |q| && q[i] == u;
      }
    }
  }

  lemma {:induction false} GrantManyIdle(s: State, n: nat)
    requires QueueKnown(s) && !Waiting(s.ops, s.core.queue)
    ensures GrantMany(s, n).ops == s.ops
    decreases n
  {
    if n > 0 {
      var _ := GrantOneAdmits(s);
      GrantManyIdle(GrantOne(s), n - 1);
    }
  }

  lemma GrantManyAdmitsIff(s: State, n: nat)
    requires OpsOk(s.ops, s.core.queue, s.core.closed) && n > 0
    ensures Admits(s.ops, GrantMany(s, n).ops) <==> Waiting(s.ops, s.core.queue)
  {
    if Waiting(s.ops, s.core.queue) {
      var v := GrantOneAdmits(s);
      assert v in Owners(GrantMany(s, n).ops) by {
        GrantOneShape(s);
        GrantManyTouchesFree(GrantOne(s), n - 1, v);
      }
      assert v !in Owners(s.ops) by { assert OpOk(s.ops[v], true); }
    } else {
      GrantManyIdle(s, n);
    }
  }

  /** Returning a slot changes no claim. */
  lemma ReturnedWaits(ops: map<nat, Op>, q: seq<nat>, w: nat, op: Op)
    requires w in ops && op.claim == ops[w].claim
    ensures Waiting(ops[w := op], q) <==> Waiting(ops, q)
  {
    var ops' := ops[w := op];
    assert forall v <- q :: At(ops', v).claim == At(ops, v).claim;
  }

  /** Whatever the count, a release admits somebody exactly when an unclaimed waiter is queued. */
  lemma ReleaseAdmitsIff(s: State, w: nat)
    requires OpsOk(s.ops, s.core.queue, s.core.closed) && Enabled(s, Release(w))
    ensures Admits(s.ops, Step(s, Release(w)).ops) <==> Waiting(s.ops, s.core.queue)
  {
    var t := Put(s, w, s.ops[w].(permit := Returned));
    ReturnedWaits(s.ops, s.core.queue, w, t.ops[w]);
    var v := GrantOneAdmits(t);
    if Waiting(s.ops, s.core.queue) {
      assert v in Owners(GrantOne(t).ops);
      assert v !in Owners(s.ops) by { assert OpOk(s.ops[v], true); }
    } else {
      assert Owners(t.ops) <= Owners(s.ops);
    }
  }

  /** An acquire finds no permit while the count is negative. */
  lemma NegativeSuspends(s: State, w: nat, pre: bool)
    requires s.core.permits < 0
    ensures var t := Suspend(s, w, pre); Owners(t.ops) <= Owners(s.ops)
  {
  }

  lemma OthersAdmitNobody(s: State, l: Label)
    requires Enabled(s, l) && !l.Release? && !(l.SetCapacity? && l.n > s.core.capacity) && s.core.permits < 0
    requires OpsOk(s.ops, s.core.queue, s.core.closed)
    ensures !Admits(s.ops, Step(s, l).ops)
  {
    if l.AcquirePlain? {
      NegativeSuspends(s, l.w, false);
    } else if l.AcquireSection? {
      NegativeSuspends(s, l.w, s.ops[l.w].pc.pre);
    } else {
      var t := Step(s, l);
      forall v | v in Owners(t.ops) ensures v in Owners(s.ops) {
        assert v in s.ops ==> OpOk(s.ops[v], v in s.core.queue);
      }
    }
  }

  /**
    "Nothing new is admitted until it recovers" fails in two branches, and exactly there: while the count
    is negative a step admits somebody if and only if it is a release, or a resize above the capacity,
    and an unclaimed waiter is queued.
   */
  lemma NegativeAdmitsIff(s: State, l: Label)
    requires Reachable(s) && Enabled(s, l) && s.core.permits < 0
    ensures Admits(s.ops, Step(s, l).ops)
            <==> (l.Release? || (l.SetCapacity? && l.n > s.core.capacity)) && Waiting(s.ops, s.core.queue)
  {
    ReachableInv(s);
    if l.Release? {
      ReleaseAdmitsIff(s, l.w);
    } else if l.SetCapacity? && l.n > s.core.capacity {
      GrantManyAdmitsIff(s.(core := s.core.(capacity := l.n)), l.n - s.core.capacity);
    } else {
      OthersAdmitNobody(s, l);
    }
  }

  // ---------------------------------------------------------------- what one acquire gets, and close

  /** An acquire about to enter its lock section, and whether it read its token cancelled. */
  predicate Entering(s: State, l: Label) {
    Enabled(s, l) && (l.AcquirePlain? || l.AcquireSection?)
  }

  predicate SawCancelled(s: State, l: Label)
    requires Entering(s, l)
  {
    l.AcquireSection? && s.ops[l.w].pc.pre
  }

  lemma SuspendGets(s: State, w: nat, pre: bool)
    requires OpOk(At(s.ops, w), false) && w !in s.core.queue && At(s.ops, w).pc != Ready && !Owns(At(s.ops, w))
    ensures var t, free, refused := Suspend(s, w, pre), At(s.ops, w).claim == Free, s.core.closed || pre;
            && w in t.ops
            && (Owns(t.ops[w]) <==> !refused && free && s.core.permits > 0)
            && (t.ops[w].pc == Ready && t.ops[w].cancelled <==> refused && free)
            && (w in t.core.queue <==> !refused && s.core.permits <= 0)
            && t.core.permits == s.core.permits - Weight(t.ops[w])
  {
  }

  lemma SuspendOthers(s: State, w: nat, pre: bool, v: nat)
    requires v != w
    ensures v in Suspend(s, w, pre).ops <==> v in s.ops
    ensures v in s.ops ==> Suspend(s, w, pre).ops[v] == s.ops[v]
    ensures v in Suspend(s, w, pre).core.queue <==> v in s.core.queue
  {
  }

  /**
    What the lock section of an acquire does, case by case: a permit if and only if the semaphore is open,
    no cancellation was read, nobody claimed the waiter and a permit is free; failure in place if and only if
    it is closed or a cancellation was read, and nobody claimed the waiter; a place in the queue
    if and only if it is open, no cancellation was read and no permit is free. Other acquires are untouched.
   */
  lemma AcquireGets(s: State, l: Label)
    requires Inv(s) && Entering(s, l)
    ensures var t, free := Step(s, l), At(s.ops, l.w).claim == Free;
            var refused := s.core.closed || SawCancelled(s, l);
            && l.w !in Owners(s.ops) && l.w !in s.core.queue && l.w in t.ops
            && (l.w in Owners(t.ops) <==> !refused && free && s.core.permits > 0)
            && (t.ops[l.w].pc == Ready && t.ops[l.w].cancelled <==> refused && free)
            && (l.w in t.core.queue <==> !refused && s.core.permits <= 0)
            && t.core.permits == s.core.permits - Weight(t.ops[l.w])
            && forall v <- s.ops :: v != l.w ==> v in t.ops && t.ops[v] == s.ops[v]
  {
    EntersFresh(s, l.w);
    var pre := SawCancelled(s, l);
    SuspendGets(s, l.w, pre);
    assert Step(s, l) == Suspend(s, l.w, pre);
    forall v <- s.ops | v != l.w ensures v in Step(s, l).ops && Step(s, l).ops[v] == s.ops[v] {
      SuspendOthers(s, l.w, pre, v);
    }
  }

  /** Closed for good, and an acquire without a permit stays without one. */
  ghost predicate Barred(s: State, t: State, w: nat) {
    && t.core.closed
    && (At(s.ops, w).permit == NoPermit ==> At(t.ops, w).permit == NoPermit)
    && (Owns(At(t.ops, w)) ==> Owns(At(s.ops, w)))
  }

  lemma {:induction false} ClosedGrants(s: State, n: nat)
    requires s.core.queue == []
    ensures GrantMany(s, n).ops == s.ops && GrantMany(s, n).core.closed == s.core.closed
    decreases n
  {
    if n > 0 {
      ClosedGrants(GrantOne(s), n - 1);
    }
  }

  lemma ClosedLocal(s: State, l: Label, w: nat)
    requires Enabled(s, l) && s.core.closed && !l.Release? && !l.SetCapacity? && !l.CloseSection? && !l.Deliver?
    ensures Barred(s, Step(s, l), w)
  {
  }

  lemma ClosedDeliver(s: State, v: nat, w: nat)
    requires Inv(s) && Enabled(s, Deliver(v)) && s.core.closed
    ensures Barred(s, Step(s, Deliver(v)), w)
  {
    assert OpOk(s.ops[v], v in s.core.queue);
  }

  lemma ClosedStep(s: State, l: Label, w: nat)
    requires Inv(s) && Enabled(s, l) && s.core.closed
    ensures Barred(s, Step(s, l), w)
  {
    if l.SetCapacity? {
      if l.n > s.core.capacity {
        ClosedGrants(s.(core := s.core.(capacity := l.n)), l.n - s.core.capacity);
      }
    } else if l.Release? {
      ClosedGrants(Put(s, l.w, s.ops[l.w].(permit := Returned)), 1);
    } else if l.Deliver? {
      ClosedDeliver(s, l.w, w);
    } else if !l.CloseSection? {
      ClosedLocal(s, l, w);
    }
  }

  lemma {:induction false} ClosedRun(s: State, trace: seq<Label>, w: nat)
    requires Inv(s) && s.core.closed && Run(s, trace).Some?
    ensures Barred(s, Run(s, trace).value, w)
    decreases |trace|
  {
    if trace != [] {
      StepKeeps(s, trace[0]);
      ClosedStep(s, trace[0], w);
      ClosedRun(Step(s, trace[0]), trace[1..], w);
    }
  }

  /**
    A closed semaphore admits nobody: along every run from a closed state nobody owns a slot who did not own one
    before, and an acquire that had no permit by then, those still to come included, never gets one.
   */
  lemma ClosedAdmitsNobody(s: State, trace: seq<Label>)
    requires Reachable(s) && s.core.closed && Run(s, trace).Some?
    ensures var t := Run(s, trace).value;
            && t.core.closed && Owners(t.ops) <= Owners(s.ops)
            && forall w <- t.ops :: At(s.ops, w).permit == NoPermit ==> t.ops[w].permit == NoPermit
  {
    ReachableInv(s);
    var t := Run(s, trace).value;
    ClosedRun(s, trace, 0);
    forall w <- t.ops
      ensures At(s.ops, w).permit == NoPermit ==> t.ops[w].permit == NoPermit
      ensures w in Owners(t.ops) ==> w in Owners(s.ops)
    {
      ClosedRun(s, trace, w);
    }
  }

  /** Close leaves nobody waiting: with nothing under way, every acquire has ended, by a permit or as cancelled. */
  lemma ClosedSettlesAll(s: State, w: nat)
    requires Reachable(s) && s.core.closed && Quiet(s) && w in s.ops
    ensures s.ops[w].resumes == 1 && (s.ops[w].cancelled <==> s.ops[w].permit == NoPermit)
  {
    ReachableInv(s);
    assert OpOk(s.ops[w], w in s.core.queue);
  }

  // ---------------------------------------------------------------- the drain wait

  /** wait_drained's test. */
  predicate Drained(s: State) {
    s.core.permits >= s.core.capacity
  }

  /** The branch of release_one that notifies the drain waiters: the permit is counted and completes the capacity. */
  ghost predicate Notifies(s: State, l: Label) {
    l.Release? && !Waiting(s.ops, s.core.queue) && s.core.permits + 1 >= s.core.capacity
  }

  lemma {:induction false} GrantManyCapacity(s: State, n: nat)
    ensures GrantMany(s, n).core.capacity == s.core.capacity
    decreases n
  {
    if n > 0 {
      GrantManyCapacity(GrantOne(s), n - 1);
    }
  }

  lemma ReleaseDrains(s: State, w: nat)
    requires QueueKnown(s) && Enabled(s, Release(w)) && !Drained(s)
    ensures Drained(Step(s, Release(w))) <==> Notifies(s, Release(w))
  {
    var t := Put(s, w, s.ops[w].(permit := Returned));
    ReturnedWaits(s.ops, s.core.queue, w, t.ops[w]);
    var _ := GrantOneAdmits(t);
  }

  /** The test turns true only by the step that notifies; no resize does it. */
  lemma DrainsIffNotifies(s: State, l: Label)
    requires Inv(s) && Enabled(s, l) && !Drained(s)
    ensures Drained(Step(s, l)) <==> Notifies(s, l)
  {
    if l.Release? {
      ReleaseDrains(s, l.w);
    } else if l.SetCapacity? && l.n > s.core.capacity {
      var t, n := s.(core := s.core.(capacity := l.n)), l.n - s.core.capacity;
      GrantManyPermits(t, n);
      GrantManyCapacity(t, n);
    }
  }

  ghost predicate Notified(s: State, trace: seq<Label>)
    decreases |trace|
  {
    trace != [] && Enabled(s, trace[0]) && (Notifies(s, trace[0]) || Notified(Step(s, trace[0]), trace[1..]))
  }

  /** So a drain wait that found slots out cannot miss the moment they are all back, whatever is resized meanwhile. */
  lemma {:induction false} DrainWaitIsWoken(s: State, trace: seq<Label>)
    requires Inv(s) && !Drained(s) && Run(s, trace).Some? && Drained(Run(s, trace).value)
    ensures Notified(s, trace)
    decreases |trace|
  {
    DrainsIffNotifies(s, trace[0]);
    if !Notifies(s, trace[0]) {
      StepKeeps(s, trace[0]);
      DrainWaitIsWoken(Step(s, trace[0]), trace[1..]);
    }
  }

  lemma {:induction false} RunAppend(s: State, a: seq<Label>, b: seq<Label>)
    requires Run(s, a).Some?
    ensures Run(s, a + b) == Run(Run(s, a).value, b)
    decreases |a|
  {
    if a == [] {
      assert a + b == b;
    } else {
      assert (a + b)[1..] == a[1..] + b;
      RunAppend(Step(s, a[0]), a[1..], b);
    }
  }

  lemma QueueUp(s: State, w: nat)
    requires w !in s.ops && !s.core.closed && s.core.permits <= 0 && s.core.queue == []
    ensures var t := Step(s, AcquirePlain(w));
            && t.core == s.core.(queue := [w]) && t.ops.Keys == s.ops.Keys + {w} && t.ops[w].claim == Free
  {
    assert [] + [w] == [w];
  }

  lemma GrowWakes(s: State, w: nat)
    requires s.core.queue == [w] && w in s.ops && s.ops[w].claim == Free && s.core.capacity == 0
    ensures var t := Step(s, SetCapacity(1));
            t.core == s.core.(capacity := 1, queue := []) && t.ops.Keys == s.ops.Keys
  {
    var t := s.(core := s.core.(capacity := 1));
    var k := PopShape(t.ops, t.core.queue);
    assert GrantMany(t, 1) == GrantMany(GrantOne(t), 0) == GrantOne(t);
  }

  /** One more slot than before, by shrinking to 0 and growing back to 1 while somebody queues. */
  lemma OverAdmitOnce(s: State, w: nat)
    requires w !in s.ops && !s.core.closed
    requires s.core.capacity == 1 && s.core.permits <= 0 && s.core.queue == []
    ensures var r := Run(s, [AcquirePlain(w), SetCapacity(0), SetCapacity(1)]);
            && r.Some? && r.value.ops.Keys == s.ops.Keys + {w} && r.value.core == s.core.(permits := s.core.permits - 1)
  {
    QueueUp(s, w);
    var s1 := Step(s, AcquirePlain(w));
    var s2 := Step(s1, SetCapacity(0));
    assert s2.core == s.core.(queue := [w], capacity := 0, permits := s.core.permits - 1) && s2.ops == s1.ops;
    GrowWakes(s2, w);
    ThreeSteps(s, AcquirePlain(w), SetCapacity(0), SetCapacity(1));
  }

  lemma ThreeSteps(s: State, a: Label, b: Label, c: Label)
    requires Enabled(s, a) && Enabled(Step(s, a), b) && Enabled(Step(Step(s, a), b), c)
    ensures Run(s, [a, b, c]) == Some(Step(Step(Step(s, a), b), c))
  {
    var t, u, v := Step(s, a), Step(Step(s, a), b), Step(Step(Step(s, a), b), c);
    assert [a, b, c][1..] == [b, c] && [b, c][1..] == [c] && [c][1..] == [];
    assert Run(v, []) == Some(v);
    assert Run(u, [c]) == Run(v, []);
    assert Run(t, [b, c]) == Run(u, [c]);
  }

  /** Reached from a fresh semaphore of capacity 1, never set above 1, with `k` slots more out than that. */
  ghost predicate Overrun(trace: seq<Label>, s: State, k: nat) {
    && (forall l <- trace :: l.SetCapacity? ==> l.n <= 1)
    && Run(Init(1), trace) == Some(s)
    && s.core == Core(0 - k as int, 1, false, []) && (forall w <- s.ops :: w <= k)
  }

  lemma OverrunStarts() returns (trace: seq<Label>, s: State)
    ensures Overrun(trace, s, 0)
  {
    trace := [AcquirePlain(0)];
    s := Step(Init(1), AcquirePlain(0));
    assert trace[1..] == [] && Run(s, []) == Some(s);
  }

  lemma OverrunGrows(before: seq<Label>, s: State, j: nat, k: nat) returns (trace: seq<Label>, t: State)
    requires Overrun(before, s, j) && k == j + 1
    ensures Overrun(trace, t, k)
  {
    OverAdmitOnce(s, k);
    var more := [AcquirePlain(k), SetCapacity(0), SetCapacity(1)];
    RunAppend(Init(1), before, more);
    trace, t := before + more, Run(s, more).value;
  }

  lemma {:induction false} OverrunReached(k: nat) returns (trace: seq<Label>, s: State)
    ensures Overrun(trace, s, k)
  {
    if k == 0 {
      trace, s := OverrunStarts();
    } else {
      var before, r := OverrunReached(k - 1);
      trace, s := OverrunGrows(before, r, k - 1, k);
    }
  }

  /**
    With shrinking there is no bound at all: for every k some run, in which the capacity is never
    set above 1, has k + 1 slots out at once.
   */
  lemma OverAdmissionUnbounded(k: nat) returns (trace: seq<Label>)
    ensures forall l <- trace :: l.SetCapacity? ==> l.n <= 1
    ensures var r := Run(Init(1), trace);
            r.Some? && |Owners(r.value.ops)| == k + 1 && r.value.core.capacity == 1
  {
    var s;
    trace, s := OverrunReached(k);
    PermitsConserved(s);
  }
}
