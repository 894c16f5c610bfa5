/**
  Cooperative cancellation, src/core/cancel.h: callbacks are registered under a lock, the whole
  batch is swapped out by the first request_cancel and fired outside the lock, and deregistration
  blocks until a batch in progress has finished.
 */
module CancelState {
  import opened Common

  /** The fields guarded by the lock: registered ids, and the thread firing a batch, if any. */
  datatype Core = Core(cancelled: bool, nextId: nat, callbacks: set<nat>, firing: Option<nat>)

  const Initial: Core := Core(false, 0, {}, None)

  /** add_callback: nothing is registered once cancelled. */
  function AddLocked(c: Core): Core {
    if c.cancelled then c else c.(nextId := c.nextId + 1, callbacks := c.callbacks + {c.nextId + 1})
  }

  /** request_cancel: only the first caller swaps the batch out and starts firing. */
  function SwapLocked(c: Core, t: nat): Core {
    if c.cancelled then c else Core(true, c.nextId, {}, Some(t))
  }

  /** remove_callback up to its wait. */
  function RemoveLocked(c: Core, id: nat): Core {
    if id == 0 then c else c.(callbacks := c.callbacks - {id})
  }

  /** Whether remove_callback by thread `t` blocks after its erase. */
  predicate Blocks(c: Core, t: nat, id: nat) {
    id != 0 && c.firing.Some? && c.firing.value != t
  }

  // ---------------------------------------------------------------- the object

  /** `F` is the type of callbacks; threads are numbered. */
  class CancelState<F> {
    var cancelled: bool
    var nextId: nat
    var callbacks: map<nat, F>
    var firing: bool
    var firingThread: nat

    ghost function View(): Core
      reads this
    {
      Core(cancelled, nextId, callbacks.Keys, if firing then Some(firingThread) else None)
    }

    constructor ()
      ensures View() == Initial
    {
      cancelled, nextId, callbacks, firing, firingThread := false, 0, map[], false, 0;
    }

    /** request_cancel's lock section; `won` is false for every caller but the first. */
    method SwapOut(me: nat) returns (won: bool, cbs: map<nat, F>)
      modifies this
      ensures View() == SwapLocked(old(View()), me)
      ensures won == !old(cancelled)
      ensures cbs == (if won then old(callbacks) else map[])
      ensures callbacks == (if won then map[] else old(callbacks))
    {
      won, cbs := !cancelled, map[];
      cancelled := true;
      if won {
        cbs, callbacks := callbacks, map[];
        firing, firingThread := true, me;
      }
    }

    /** The guard that ends firing on every path, exceptions included. */
    method FinishFiring()
      modifies this
      ensures View() == old(View()).(firing := None) && callbacks == old(callbacks)
    {
      firing := false;
    }

    /** add_callback and add_callback_publish: 0 means already cancelled, nothing registered. */
    method AddCallback(fn: F) returns (id: nat)
      modifies this
      ensures View() == AddLocked(old(View()))
      ensures id == if old(cancelled) then 0 else nextId
      ensures callbacks == if old(cancelled) then old(callbacks) else old(callbacks)[id := fn]
    {
      if cancelled {
        return 0;
      }
      nextId := nextId + 1;
      id := nextId;
      callbacks := callbacks[id := fn];
      assert callbacks.Keys == old(callbacks.Keys) + {id};
    }

    /** remove_callback up to its wait: `mustWait` says whether the caller blocks until firing ends. */
    method RemoveSection(id: nat, me: nat) returns (mustWait: bool)
      modifies this
      ensures View() == RemoveLocked(old(View()), id)
      ensures mustWait == Blocks(View(), me, id)
      ensures callbacks == if id == 0 then old(callbacks) else old(callbacks) - {id}
    {
      if id == 0 {
        return false;
      }
      callbacks := callbacks - {id};
      mustWait := firing && firingThread != me;
    }
  }

  /** How many entries of `ids` run before one throws, that one included. */
  ghost function RunsUntilThrow(ids: seq<nat>, throws: set<nat>): (n: nat)
    ensures n <= |ids|
    ensures forall i :: 0 <= i < n - 1 ==> ids[i] !in throws
    ensures n < |ids| ==> n > 0 && ids[n - 1] in throws
  {
    if ids == [] then 0
    else if ids[0] in throws then 1
    else 1 + RunsUntilThrow(ids[1..], throws)
  }

  /** `left` are the ids from position `n` on, and the ids increase. */
  ghost predicate LeftFrom(ids: seq<nat>, n: nat, left: set<nat>) {
    && n <= |ids|
    && (forall i, j :: 0 <= i < j < |ids| ==> ids[i] < ids[j])
    && (forall x <- left :: exists i :: n <= i < |ids| && ids[i] == x)
    && (forall i :: n <= i < |ids| ==> ids[i] in left)
  }

  lemma {:induction false} BatchStarts(keys: set<nat>, throws: set<nat>)
    ensures Firing(Ascending(keys), [], keys, throws)
  {
    AscendingHolds(keys);
    AscendingSorted(keys);
    var ids := Ascending(keys);
    assert forall i :: 0 <= i < |ids| ==> ids[i] in ids;
  }

  lemma {:induction false} NextIsLeft(ids: seq<nat>, n: nat, left: set<nat>)
    requires LeftFrom(ids, n, left)
    ensures n < |ids| ==> ids[n] in left
  {
  }

  /** One round of the loop: the least id left is the next of the batch. */
  lemma {:induction false} BatchStep(ids: seq<nat>, n: nat, left: set<nat>, id: nat)
    requires LeftFrom(ids, n, left) && IsLeast(id, left)
    ensures n < |ids| && ids[n] == id && LeftFrom(ids, n + 1, left - {id})
  {
    var k :| n <= k < |ids| && ids[k] == id;
    assert ids[n] in left;
    forall x <- left - {id} ensures exists i :: n + 1 <= i < |ids| && ids[i] == x {
      var i :| n <= i < |ids| && ids[i] == x;
    }
  }

  predicate IsLeast(id: nat, left: set<nat>) {
    id in left && forall x <- left :: id <= x
  }

  lemma {:induction false} LeastExists(left: set<nat>)
    requires left != {}
    ensures exists id :: id in left && IsLeast(id, left)
  {
    assert IsLeast(Least(left), left);
  }

  /** The loop so far: the first ids have run, none of them threw, and `left` is the rest. */
  ghost predicate Firing(ids: seq<nat>, log: seq<nat>, left: set<nat>, throws: set<nat>) {
    && LeftFrom(ids, |log|, left) && log == ids[..|log|]
    && forall i :: 0 <= i < |log| ==> ids[i] !in throws
  }

  lemma {:induction false} FiringStep(ids: seq<nat>, log: seq<nat>, left: set<nat>, throws: set<nat>, id: nat)
    requires Firing(ids, log, left, throws) && IsLeast(id, left)
    ensures id !in throws ==> Firing(ids, log + [id], left - {id}, throws)
    ensures id in throws ==> log + [id] == ids[..RunsUntilThrow(ids, throws)]
  {
    BatchStep(ids, |log|, left, id);
    assert log + [id] == ids[..|log| + 1];
    if id in throws {
      ThrowsAt(ids, throws, |log|);
    }
  }

  lemma {:induction false} FiringEnds(ids: seq<nat>, log: seq<nat>, left: set<nat>, throws: set<nat>)
    requires Firing(ids, log, left, throws) && left == {}
    ensures log == ids[..RunsUntilThrow(ids, throws)]
  {
    NextIsLeft(ids, |log|, left);
    NeverThrows(ids, throws);
  }

  /** The firing loop: callbacks run in id order and an exception abandons the rest of the batch. */
  method FireBatch<F>(cbs: map<nat, F>, throws: set<nat>) returns (log: seq<nat>)
    ensures var ids := Ascending(cbs.Keys); log == ids[..RunsUntilThrow(ids, throws)]
  {
    var left := cbs.Keys;
    log := [];
    ghost var ids := Ascending(cbs.Keys);
    BatchStarts(cbs.Keys, throws);
    while left != {}
      invariant Firing(ids, log, left, throws)
      decreases |left|
    {
      LeastExists(left);
      var id :| id in left && IsLeast(id, left);
      FiringStep(ids, log, left, throws, id);
      left := left - {id};
      log := log + [id];
      if id in throws {
        return;
      }
    }
    FiringEnds(ids, log, left, throws);
  }

  lemma {:induction false} ThrowsAt(ids: seq<nat>, throws: set<nat>, k: nat)
    requires k < |ids| && ids[k] in throws && forall i :: 0 <= i < k ==> ids[i] !in throws
    ensures RunsUntilThrow(ids, throws) == k + 1
  {
    if k > 0 {
      ThrowsAt(ids[1..], throws, k - 1);
    }
  }

  lemma {:induction false} NeverThrows(ids: seq<nat>, throws: set<nat>)
    requires forall i :: 0 <= i < |ids| ==> ids[i] !in throws
    ensures RunsUntilThrow(ids, throws) == |ids|
  {
    if ids != [] {
      NeverThrows(ids[1..], throws);
    }
  }
}
