/**
  The asynchronous semaphore of src/core/semaphore.h: what its mutex guards, the lock
  sections as functions on that value, and the object whose methods are those sections.
  `W` stands for the identity of a waiter.
 */
module Semaphore {
  import opened Common

  /** The fields guarded by `m_`. */
  datatype Core<W> = Core(permits: int, capacity: int, closed: bool, queue: seq<W>)

  /** Result of looking for the first waiter nobody has claimed yet. */
  datatype Popped<W> = Popped(rest: seq<W>, next: Option<W>)

  /** The waiters of `queue` that nobody has claimed, in queue order. */
  function Unclaimed<W(==)>(queue: seq<W>, claimed: set<W>): (r: seq<W>)
    ensures forall w <- r :: w in queue && w !in claimed
    ensures forall w <- queue :: w !in claimed ==> w in r
  {
    if queue == [] then []
    else if queue[0] in claimed then Unclaimed(queue[1..], claimed)
    else
      var r := [queue[0]] + Unclaimed(queue[1..], claimed);
      assert queue == [queue[0]] + queue[1..];
      r
  }

  /** The popping loop shared by release_one and set_capacity: claimed entries are dropped. */
  function PopUnclaimed<W(==)>(queue: seq<W>, claimed: set<W>): (r: Popped<W>)
  {
    if queue == [] then Popped([], None)
    else if queue[0] in claimed then PopUnclaimed(queue[1..], claimed)
    else Popped(queue[1..], Some(queue[0]))
  }

  /** Popping yields the oldest unclaimed waiter and leaves exactly the entries behind it. */
  lemma {:induction false} PopUnclaimedIsOldest<W>(queue: seq<W>, claimed: set<W>)
    ensures var r := PopUnclaimed(queue, claimed); var u := Unclaimed(queue, claimed);
            && (r.next.None? <==> u == [])
            && (r.next.None? ==> r.rest == [])
            && (r.next.Some? ==> u == [r.next.value] + Unclaimed(r.rest, claimed))
            && (r.next.Some? ==> exists k :: 0 <= k < |queue| && queue[k] == r.next.value && r.rest == queue[k + 1..]
                                             && forall i :: 0 <= i < k ==> queue[i] in claimed)
  {
    if queue == [] {
    } else if queue[0] in claimed {
      PopUnclaimedIsOldest(queue[1..], claimed);
      var r := PopUnclaimed(queue[1..], claimed);
      if r.next.Some? {
        var k :| 0 <= k < |queue[1..]| && queue[1..][k] == r.next.value && r.rest == queue[1..][k + 1..]
                 && forall i :: 0 <= i < k ==> queue[1..][i] in claimed;
        assert queue[k + 1] == r.next.value && r.rest == queue[k + 2..];
        assert forall i :: 0 <= i < k + 1 ==> queue[i] in claimed by {
          forall i | 0 <= i < k + 1 ensures queue[i] in claimed {
            if i > 0 { assert queue[i] == queue[1..][i - 1]; }
          }
        }
      }
    } else {
      assert queue[0] == PopUnclaimed(queue, claimed).next.value;
    }
  }

  /** Where the loop stops: at the first unclaimed entry, or at the end. */
  lemma {:induction false} PopStopsAt<W>(queue: seq<W>, claimed: set<W>) returns (k: nat)
    ensures k <= |queue|
    ensures forall i :: 0 <= i < k ==> queue[i] in claimed
    ensures k < |queue| ==> queue[k] !in claimed
    ensures PopUnclaimed(queue, claimed) ==
            if k < |queue| then Popped(queue[k + 1..], Some(queue[k])) else Popped([], None)
  {
    if queue == [] || queue[0] !in claimed {
      k := 0;
    } else {
      var rest := queue[1..];
      var j := PopStopsAt(rest, claimed);
      k := j + 1;
      assert j < |rest| ==> rest[j] == queue[k] && rest[j + 1..] == queue[k + 1..];
      forall i | 0 <= i < k ensures queue[i] in claimed {
        assert i > 0 ==> queue[i] == rest[i - 1];
      }
    }
  }

  /**
    The loop may be treated as one step although cancellation claims waiters without the lock: a
    claim of `c` that lands after the entries of `skipped` were popped leaves the loop with the
    result it would have had if the claim had come first.
   */
  lemma {:induction false} ClaimDuringLoopCommutes<W>(skipped: seq<W>, rest: seq<W>, claimed: set<W>, c: W)
    requires forall w <- skipped :: w in claimed
    ensures PopUnclaimed(rest, claimed + {c}) == PopUnclaimed(skipped + rest, claimed + {c})
  {
    if skipped == [] {
      assert skipped + rest == rest;
    } else {
      assert (skipped + rest)[1..] == skipped[1..] + rest;
      assert skipped[0] in claimed;
      ClaimDuringLoopCommutes(skipped[1..], rest, claimed, c);
    }
  }

  /** One slot becomes free: it goes to the oldest unclaimed waiter, else back to the count. */
  function ReleaseLocked<W(==)>(c: Core<W>, claimed: set<W>): (r: (Core<W>, Option<W>))
  {
    var p := PopUnclaimed(c.queue, claimed);
    if p.next.Some? then (c.(queue := p.rest), p.next)
    else (c.(queue := p.rest, permits := c.permits + 1), None)
  }

  /** The growth loop of set_capacity: `n` free slots in a row, and the waiters woken. */
  function Grow<W(==)>(c: Core<W>, claimed: set<W>, n: nat): (r: (Core<W>, seq<W>))
    decreases n
  {
    if n == 0 then (c, [])
    else
      var (d, next) := ReleaseLocked(c, claimed);
      var (e, woken) := Grow(d, if next.Some? then claimed + {next.value} else claimed, n - 1);
      (e, (if next.Some? then [next.value] else []) + woken)
  }

  /** The lock section of set_capacity. */
  function SetCapacityLocked<W(==)>(c: Core<W>, claimed: set<W>, n: int): (r: (Core<W>, seq<W>))
  {
    var delta := n - c.capacity;
    var d := c.(capacity := n);
    if delta <= 0 then (d.(permits := c.permits + delta), []) else Grow(d, claimed, delta)
  }

  /** What suspend_impl's lock section decides. */
  datatype Decision = Fail | LostClaim | Take | Enqueue

  /** The lock section of suspend_impl; `claimed` is the waiter's own flag on entry. */
  function AcquireLocked<W>(c: Core<W>, w: W, claimed: bool, preCancelled: bool): (r: (Core<W>, Decision))
  {
    if c.closed || preCancelled then (c, if claimed then LostClaim else Fail)
    else if c.permits > 0 then
      if claimed then (c, LostClaim) else (c.(permits := c.permits - 1), Take)
    else (c.(queue := c.queue + [w]), Enqueue)
  }

  /** Unclaimed waiters ignore claims on waiters that are not queued. */
  lemma {:induction false} UnclaimedIgnoresOthers<W>(queue: seq<W>, claimed: set<W>, w: W)
    requires w !in queue
    ensures Unclaimed(queue, claimed + {w}) == Unclaimed(queue, claimed)
  {
    if queue != [] {
      UnclaimedIgnoresOthers(queue[1..], claimed, w);
    }
  }

  /** One free slot consumes the head of the unclaimed waiters, or becomes a permit. */
  lemma {:induction false} OneSlot<W>(c: Core<W>, claimed: set<W>)
    requires NoDup(c.queue)
    ensures var (d, next) := ReleaseLocked(c, claimed); var u := Unclaimed(c.queue, claimed);
            && NoDup(d.queue) && d.capacity == c.capacity && d.closed == c.closed
            && (next.Some? <==> u != [])
            && (next.Some? ==> next.value == u[0] && Unclaimed(d.queue, claimed + {u[0]}) == u[1..] && d.permits == c.permits)
            && (next.None? ==> d.queue == [] && d.permits == c.permits + 1)
  {
    PopUnclaimedIsOldest(c.queue, claimed);
    var (d, next) := ReleaseLocked(c, claimed);
    if next.Some? {
      var k :| 0 <= k < |c.queue| && c.queue[k] == next.value && d.queue == c.queue[k + 1..];
      assert next.value !in d.queue;
      UnclaimedIgnoresOthers(d.queue, claimed, next.value);
    }
  }

  /**
    Growing by `n` wakes exactly the first min(n, waiting) unclaimed waiters in queue order and
    turns the remaining slots into permits.
   */
  lemma {:induction false} GrowIsFifo<W>(c: Core<W>, claimed: set<W>, n: nat)
    requires NoDup(c.queue)
    ensures var u := Unclaimed(c.queue, claimed); var k := if n <= |u| then n else |u|;
            var (d, woken) := Grow(c, claimed, n);
            && woken == u[..k]
            && d.permits == c.permits + (n - k)
            && d.capacity == c.capacity && d.closed == c.closed
            && (n > |u| ==> d.queue == [])
    decreases n
  {
    if n > 0 {
      OneSlot(c, claimed);
      var (d, next) := ReleaseLocked(c, claimed);
      GrowIsFifo(d, if next.Some? then claimed + {next.value} else claimed, n - 1);
    }
  }

  /** Shared state of one suspended acquire. */
  class Waiter {
    var claimed: bool
    var cancelled: bool

    constructor ()
      ensures !claimed && !cancelled
    {
      claimed, cancelled := false, false;
    }

    /** claimed.exchange(true): true when somebody else was first. */
    method Claim() returns (was: bool)
      modifies this`claimed
      ensures claimed && was == old(claimed)
    {
      was := claimed;
      claimed := true;
    }
  }

  class AsyncSemaphore {
    var permits: int
    var capacity: int
    var closed: bool
    var waiters: seq<Waiter>

    ghost function View(): Core<Waiter>
      reads this
    {
      Core(permits, capacity, closed, waiters)
    }

    ghost function Claimed(): set<Waiter>
      reads this, waiters
    {
      set w | w in waiters && w.claimed
    }

    constructor (n: int)
      ensures View() == Core(n, n, false, [])
    {
      permits, capacity, closed, waiters := n, n, false, [];
    }

    /** The `while (!waiters_.empty())` loop of release_one and set_capacity. */
    method PopFirstUnclaimed() returns (next: Waiter?)
      modifies this`waiters, waiters
      ensures View() == old(View()).(queue := PopUnclaimed(old(waiters), old(Claimed())).rest)
      ensures PopUnclaimed(old(waiters), old(Claimed())).next == if next == null then None else Some(next)
      ensures next != null ==> next in old(waiters) && next.claimed && !old(next.claimed)
      ensures forall w <- old(waiters) :: w.cancelled == old(w.cancelled)
      ensures forall w <- old(waiters) :: w != next ==> w.claimed == old(w.claimed)
    {
      ghost var c := Claimed();
      next := null;
      while waiters != []
        invariant forall w <- waiters :: w in old(waiters)
        invariant View() == old(View()).(queue := waiters)
        invariant forall w <- old(waiters) :: w.claimed == old(w.claimed) && w.cancelled == old(w.cancelled)
        invariant PopUnclaimed(waiters, c) == PopUnclaimed(old(waiters), c)
        decreases |waiters|
      {
        var w := waiters[0];
        assert w in waiters;
        waiters := waiters[1..];
        var was := w.Claim();
        if !was {
          next := w;
          return;
        }
      }
    }

    /** release_one's lock section; the caller posts the returned waiter. */
    method ReleaseOne() returns (next: Waiter?)
      modifies this, waiters
      ensures var r := ReleaseLocked(old(View()), old(Claimed()));
              View() == r.0 && r.1 == if next == null then None else Some(next)
      ensures next != null ==> next in old(waiters) && next.claimed && !old(next.claimed)
      ensures forall w <- old(waiters) :: w.cancelled == old(w.cancelled)
      ensures forall w <- old(waiters) :: w != next ==> w.claimed == old(w.claimed)
    {
      ghost var q, c := waiters, Claimed();
      PopUnclaimedIsOldest(q, c);
      next := PopFirstUnclaimed();
      if next == null {
        permits := permits + 1;
      }
    }

    /** set_capacity's lock section; the caller posts the woken waiters in order. */
    method SetCapacity(n: int) returns (wake: seq<Waiter>)
      modifies this, waiters
      ensures var r := SetCapacityLocked(old(View()), old(Claimed()), n); View() == r.0 && wake == r.1
      ensures forall w <- old(waiters) :: w.claimed == (old(w.claimed) || w in wake)
      ensures forall w <- old(waiters) :: w.cancelled == old(w.cancelled)
    {
      wake := [];
      var delta := n - capacity;
      capacity := n;
      assert Claimed() == old(Claimed());
      if delta <= 0 {
        permits := permits + delta;
      } else {
        wake := GrowBy(delta);
      }
    }

    /** The growth loop: each iteration hands one slot out like a release. */
    method GrowBy(delta: nat) returns (wake: seq<Waiter>)
      modifies this, waiters
      ensures Grow(old(View()), old(Claimed()), delta) == (View(), wake)
      ensures forall w <- old(waiters) :: w.claimed == (old(w.claimed) || w in wake)
      ensures forall w <- old(waiters) :: w.cancelled == old(w.cancelled)
    {
      wake := [];
      ghost var target := Grow(View(), Claimed(), delta);
      ghost var left, all := delta, set w | w in waiters;
      assert wake + target.1 == target.1;
      var i := 0;
      while i < delta
        invariant 0 <= i <= delta && left == delta - i
        invariant forall j :: 0 <= j < |waiters| ==> waiters[j] in all
        invariant forall w <- all :: w.cancelled == old(w.cancelled)
        invariant forall w <- all :: w.claimed == (old(w.claimed) || w in wake)
        invariant StillToGrow(left, wake, target)
      {
        var next := GrowOnce(left, all, wake, target);
        left := left - 1;
        if next != null {
          wake := wake + [next];
        }
        i := i + 1;
      }
      assert wake + [] == wake;
    }

    /** After `done` was woken, `n` more iterations end in `target`. */
    ghost predicate StillToGrow(n: nat, done: seq<Waiter>, target: (Core<Waiter>, seq<Waiter>))
      reads this, waiters
    {
      var rest := Grow(View(), Claimed(), n);
      target.0 == rest.0 && target.1 == done + rest.1
    }

    /** One iteration of the growth loop, with `n` still to do; `all` are the waiters at the loop's start. */
    method GrowOnce(ghost n: nat, ghost all: set<Waiter>, ghost done: seq<Waiter>,
                    ghost target: (Core<Waiter>, seq<Waiter>)) returns (next: Waiter?)
      requires n > 0 && StillToGrow(n, done, target)
      requires forall j :: 0 <= j < |waiters| ==> waiters[j] in all
      modifies this, waiters
      ensures forall j :: 0 <= j < |waiters| ==> waiters[j] in all
      ensures next != null ==> next in all && next.claimed
      ensures forall w <- all :: w.cancelled == old(w.cancelled)
      ensures forall w <- all :: w != next ==> w.claimed == old(w.claimed)
      ensures StillToGrow(n - 1, if next == null then done else done + [next], target)
    {
      ghost var q := waiters;
      next := GiveSlot(n);
      assert forall j :: 0 <= j < |waiters| ==> waiters[j] in q;
      ghost var rest := Grow(View(), Claimed(), n - 1).1;
      assert next != null ==> done + ([next] + rest) == done + [next] + rest;
      assert done + ([] + rest) == done + rest;
    }

    method GiveSlot(ghost n: nat) returns (next: Waiter?)
      requires n > 0
      modifies this, waiters
      ensures forall w <- waiters :: w in old(waiters)
      ensures next != null ==> next in old(waiters) && next.claimed
      ensures forall w <- old(waiters) :: w.cancelled == old(w.cancelled)
      ensures forall w <- old(waiters) :: w != next ==> w.claimed == old(w.claimed)
      ensures var was := Grow(old(View()), old(Claimed()), n); var now := Grow(View(), Claimed(), n - 1);
              was.0 == now.0 && was.1 == (if next == null then [] else [next]) + now.1
    {
      ghost var c := Claimed();
      PopUnclaimedIsOldest(waiters, c);
      next := ReleaseOne();
      GrowSeesOnlyQueued(View(), if next == null then c else c + {next}, Claimed(), n - 1);
    }

    /** suspend_impl's lock section. */
    method Acquire(w: Waiter, preCancelled: bool) returns (d: Decision)
      modifies this, w
      ensures var r := AcquireLocked(old(View()), w, old(w.claimed), preCancelled); View() == r.0 && d == r.1
      ensures w.claimed == (old(w.claimed) || d == Fail || d == Take)
      ensures w.cancelled == (old(w.cancelled) || d == Fail)
    {
      if closed || preCancelled {
        var was := w.Claim();
        if was {
          return LostClaim;
        }
        w.cancelled := true;
        return Fail;
      }
      if permits > 0 {
        var was := w.Claim();
        if was {
          return LostClaim;
        }
        permits := permits - 1;
        return Take;
      }
      waiters := waiters + [w];
      return Enqueue;
    }

    method TryAcquire() returns (ok: bool)
      modifies this
      ensures ok == (!old(closed) && old(permits) > 0)
      ensures View() == old(View()).(permits := old(permits) - if ok then 1 else 0)
    {
      if closed || permits <= 0 {
        return false;
      }
      permits := permits - 1;
      return true;
    }

    /** close's lock section: the swapped-out queue is woken outside the lock. */
    method Close() returns (ws: seq<Waiter>)
      modifies this
      ensures ws == old(waiters) && View() == old(View()).(closed := true, queue := [])
    {
      ws := waiters;
      closed := true;
      waiters := [];
    }

    /** cancel_waiter's lock section: unlink the first occurrence, if any. */
    method Unlink(w: Waiter)
      modifies this
      ensures View() == old(View()).(queue := RemoveFirst(old(waiters), w))
    {
      var i := 0;
      while i < |waiters|
        invariant 0 <= i <= |waiters|
        invariant View() == old(View())
        invariant w !in waiters[..i]
      {
        if waiters[i] == w {
          RemoveFirstAt(waiters, w, i);
          waiters := waiters[..i] + waiters[i + 1..];
          return;
        }
        i := i + 1;
      }
      RemoveFirstAbsent(waiters, w);
    }
  }

  function RemoveFirst<W(==)>(q: seq<W>, w: W): (r: seq<W>)
  {
    if q == [] then []
    else if q[0] == w then q[1..]
    else [q[0]] + RemoveFirst(q[1..], w)
  }

  lemma {:induction false} RemoveFirstAt<W>(q: seq<W>, w: W, i: nat)
    requires i < |q| && q[i] == w && w !in q[..i]
    ensures RemoveFirst(q, w) == q[..i] + q[i + 1..]
  {
    if i > 0 {
      assert q[0] in q[..i];
      assert q[1..][..i - 1] == q[..i][1..];
      RemoveFirstAt(q[1..], w, i - 1);
    }
  }

  lemma {:induction false} RemoveFirstAbsent<W>(q: seq<W>, w: W)
    requires w !in q
    ensures RemoveFirst(q, w) == q
  {
    if q != [] {
      RemoveFirstAbsent(q[1..], w);
    }
  }

  /** Two claimed sets that agree on the queue give the same growth. */
  lemma {:induction false} GrowSeesOnlyQueued<W>(c: Core<W>, a: set<W>, b: set<W>, n: nat)
    requires forall w <- c.queue :: w in a <==> w in b
    ensures Grow(c, a, n) == Grow(c, b, n)
    decreases n
  {
    if n > 0 {
      PopSeesOnlyQueued(c.queue, a, b);
      PopUnclaimedIsOldest(c.queue, a);
      var (d, next) := ReleaseLocked(c, a);
      GrowSeesOnlyQueued(d, if next.Some? then a + {next.value} else a, if next.Some? then b + {next.value} else b, n - 1);
    }
  }

  lemma {:induction false} PopSeesOnlyQueued<W>(q: seq<W>, a: set<W>, b: set<W>)
    requires forall w <- q :: w in a <==> w in b
    ensures PopUnclaimed(q, a) == PopUnclaimed(q, b)
  {
    if q != [] {
      PopSeesOnlyQueued(q[1..], a, b);
    }
  }
}
