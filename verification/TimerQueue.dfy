/**
  The process-wide timer of src/core/timer.{h,cc}: a table of pending timers ordered by deadline,
  a queue of due ones, and the id of the callback being executed. Time is a real number.
 */
module TimerQueue {
  import opened Common

  /** The key of `items_`: deadline first, id as tie-break. */
  datatype Key = Key(deadline: real, id: nat)

  predicate Le(a: Key, b: Key) {
    a.deadline < b.deadline || (a.deadline == b.deadline && a.id <= b.id)
  }

  /** The fields guarded by `m_`, callbacks left out. Id 0 is never issued; running 0 is idle. */
  datatype Core = Core(items: set<Key>, deadlines: map<nat, real>, due: seq<Key>, running: nat, nextId: nat, stopping: bool)

  const Initial: Core := Core({}, map[], [], 0, 0, false)

  /** `k` is items_.begin(). */
  predicate IsFirst(items: set<Key>, k: Key) {
    k in items && forall j <- items :: Le(k, j)
  }

  predicate IsDue(due: seq<Key>, id: nat) {
    exists k <- due :: k.id == id
  }

  /** pending_locked: due but not settled. */
  predicate Unsettled(c: Core, id: nat) {
    c.running == id || IsDue(c.due, id)
  }

  /** add under the lock, once not stopping: the new core; its id is the new nextId. */
  function AddLocked(c: Core, deadline: real): Core {
    if c.stopping then c
    else
      var id := c.nextId + 1;
      c.(nextId := id, items := c.items + {Key(deadline, id)}, deadlines := c.deadlines[id := deadline])
  }

  /** The erase at the top of cancel. */
  function EraseLocked(c: Core, id: nat): Core {
    if id in c.deadlines then c.(items := c.items - {Key(c.deadlines[id], id)}, deadlines := c.deadlines - {id})
    else c
  }

  /** The scheduling thread hands the first item over. */
  function MoveLocked(c: Core, first: Key): Core {
    c.(items := c.items - {first}, deadlines := c.deadlines - {first.id}, due := c.due + [first])
  }

  /** The callback thread takes the oldest due item. */
  function TakeLocked(c: Core): Core
    requires c.due != []
  {
    c.(due := c.due[1..], running := c.due[0].id)
  }

  /** A non-empty table has a first key. */
  lemma {:induction false} FirstExists(items: set<Key>) returns (k: Key)
    requires items != {}
    ensures IsFirst(items, k)
    decreases |items|
  {
    var y :| y in items;
    var rest := items - {y};
    assert forall j <- items :: j == y || j in rest;
    if rest == {} {
      k := y;
    } else {
      var m := FirstExists(rest);
      k := if Le(y, m) then y else m;
    }
  }

  /** What one round of the scheduling loop does. */
  datatype Round = Return | Sleep(until: Option<real>) | Moved(first: Key)

  class TimerQueue<F> {
    var items: map<Key, F>
    var deadlines: map<nat, real>
    var due: seq<(Key, F)>
    var running: nat
    var nextId: nat
    var stopping: bool

    ghost function DueKeys(): seq<Key>
      reads this
    {
      seq(|due|, i requires 0 <= i < |due| reads this => due[i].0)
    }

    ghost function View(): Core
      reads this
    {
      Core(items.Keys, deadlines, DueKeys(), running, nextId, stopping)
    }

    constructor ()
      ensures View() == Initial
    {
      items, deadlines, due, running, nextId, stopping := map[], map[], [], 0, 0, false;
    }

    /** add; `now` is the clock, `wake` says whether the scheduling thread must be notified. */
    method Add(now: real, delay: real, fn: F) returns (id: nat, wake: bool)
      modifies this
      ensures View() == AddLocked(old(View()), now + delay)
      ensures id == if old(stopping) then 0 else nextId
      ensures wake <==> !old(stopping) && IsFirst(items.Keys, Key(now + delay, nextId))
    {
      if stopping {
        return 0, false;
      }
      nextId := nextId + 1;
      id := nextId;
      var key := Key(now + delay, id);
      items := items[key := fn];
      deadlines := deadlines[id := now + delay];
      wake := forall k :: k in items.Keys ==> Le(key, k);
      assert items.Keys == old(items.Keys) + {key};
    }

    /** pending_locked's scan. */
    method PendingLocked(id: nat) returns (p: bool)
      ensures p <==> Unsettled(View(), id)
    {
      if running == id {
        return true;
      }
      for i := 0 to |due|
        invariant forall j :: 0 <= j < i ==> due[j].0.id != id
      {
        if due[i].0.id == id {
          assert DueKeys()[i] in DueKeys();
          return true;
        }
      }
      assert forall k <- DueKeys() :: k.id != id;
      return false;
    }

    /** cancel up to its wait: `done` with the returned value, or block while `mustWait`. */
    method CancelSection(id: nat, onCallbackThread: bool) returns (erased: bool, mustWait: bool)
      modifies this
      ensures View() == EraseLocked(old(View()), id)
      ensures erased <==> id in old(deadlines)
      ensures mustWait <==> !erased && id != 0 && !onCallbackThread && Unsettled(View(), id)
    {
      if id in deadlines {
        items := items - {Key(deadlines[id], id)};
        deadlines := deadlines - {id};
        return true, false;
      }
      erased := false;
      var p := PendingLocked(id);
      mustWait := id != 0 && !onCallbackThread && p;
    }

    /** One round of loop() with the lock held. */
    method Round(now: real) returns (r: Round)
      modifies this
      ensures r.Return? <==> old(stopping)
      ensures !r.Moved? ==> View() == old(View())
      ensures r.Sleep? && r.until.None? ==> items == map[]
      ensures r.Sleep? && r.until.Some? ==> exists k :: IsFirst(items.Keys, k) && r.until == Some(k.deadline) && k.deadline > now
      ensures r.Moved? ==> IsFirst(old(items.Keys), r.first) && r.first.deadline <= now
                           && View() == MoveLocked(old(View()), r.first)
    {
      if stopping {
        return Return;
      }
      if items == map[] {
        return Sleep(None);
      }
      ghost var g := FirstExists(items.Keys);
      var first :| first in items.Keys && forall j :: j in items.Keys ==> Le(first, j);
      if first.deadline > now {
        assert IsFirst(items.Keys, first);
        return Sleep(Some(first.deadline));
      }
      var fn := items[first];
      due := due + [(first, fn)];
      deadlines := deadlines - {first.id};
      items := items - {first};
      assert DueKeys() == old(DueKeys()) + [first];
      return Moved(first);
    }

    /** The callback thread's dequeue. */
    method TakeDue() returns (id: nat, fn: F)
      requires due != []
      modifies this
      ensures View() == TakeLocked(old(View())) && id == old(due)[0].0.id && fn == old(due)[0].1
    {
      id, fn := due[0].0.id, due[0].1;
      due := due[1..];
      running := id;
      assert DueKeys() == old(DueKeys())[1..];
    }
  }
}
