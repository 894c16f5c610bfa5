/**
  The blocking-IO thread pool of src/core/thread_pool.{h,cc}: an unbounded continuation queue, a
  ready queue bounded by `capacity`, and a backlog for what does not fit.
 */
module ThreadPool {
  import opened Common

  /** The fields guarded by `m_`. */
  datatype Core<T> = Core(cont: seq<T>, queue: seq<T>, backlog: seq<T>, capacity: nat, stopping: bool) {
    /** Scheduled tasks accepted and not started, oldest first. */
    function Pending(): seq<T> {
      queue + backlog
    }

    predicate Idle() {
      cont == [] && queue == [] && backlog == []
    }

    /** What every section keeps: tasks are deferred only while the ready queue is exactly full. */
    predicate Ok() {
      && capacity >= 1 && |queue| <= capacity
      && (backlog != [] ==> |queue| == capacity)
    }
  }

  function Fresh<T>(queueCapacity: nat): (c: Core<T>)
    ensures c.Ok()
  {
    Core([], [], [], if queueCapacity == 0 then 1 else queueCapacity, false)
  }

  /** post: refused only after join, where the caller runs the task inline instead. */
  function PostLocked<T>(c: Core<T>, t: T): Core<T> {
    if c.stopping then c else c.(cont := c.cont + [t])
  }

  /** enqueue_deferrable: None is the "schedule after join" exception. */
  function EnqueueLocked<T>(c: Core<T>, t: T): Option<Core<T>> {
    if c.stopping then None
    else if |c.queue| >= c.capacity then Some(c.(backlog := c.backlog + [t]))
    else Some(c.(queue := c.queue + [t]))
  }

  /** join up to the thread joins: whether this caller is the one that joins them. */
  function StopLocked<T>(c: Core<T>): (Core<T>, bool) {
    (c.(stopping := true), !c.stopping)
  }

  /** The move of one deferred task into the ready queue. */
  function Promote<T>(c: Core<T>): Core<T>
    requires c.backlog != []
  {
    c.(queue := c.queue + [c.backlog[0]], backlog := c.backlog[1..])
  }

  /** The worker's dequeue: a continuation if there is one, else the ready queue with its refill. */
  function TakeLocked<T>(c: Core<T>): (r: (Core<T>, T))
    requires !c.Idle()
  {
    if c.cont != [] then (c.(cont := c.cont[1..]), c.cont[0])
    else
      var d := if c.queue == [] then Promote(c) else c;
      var e := d.(queue := d.queue[1..]);
      (if e.backlog != [] && |e.queue| < e.capacity then Promote(e) else e, d.queue[0])
  }

  /** The bounded pair behaves as one unbounded FIFO on accept ... */
  lemma EnqueueIsFifo<T>(c: Core<T>, t: T)
    requires c.Ok() && !c.stopping
    ensures var d := EnqueueLocked(c, t).value;
            d.Ok() && d.Pending() == c.Pending() + [t] && d.cont == c.cont && d.stopping == c.stopping
  {
    assert (c.queue + [t]) + c.backlog == c.queue + c.backlog + [t] || c.backlog != [];
  }

  /** ... and on take: continuations first, then strictly the oldest scheduled task. */
  lemma TakeIsFifo<T>(c: Core<T>)
    requires c.Ok() && !c.Idle()
    ensures var (d, t) := TakeLocked(c);
            && d.Ok() && d.capacity == c.capacity && d.stopping == c.stopping
            && (c.cont != [] ==> t == c.cont[0] && d.cont == c.cont[1..] && d.Pending() == c.Pending())
            && (c.cont == [] ==> d.cont == [] && c.Pending() == [t] + d.Pending())
  {
    if c.cont == [] {
      var e := c.(queue := c.queue[1..]);
      assert c.Pending() == [c.queue[0]] + e.Pending() by {
        assert c.queue == [c.queue[0]] + c.queue[1..];
      }
      if c.backlog != [] {
        PromoteKeepsOrder(e);
      }
    }
  }

  lemma PromoteKeepsOrder<T>(c: Core<T>)
    requires c.backlog != []
    ensures Promote(c).Pending() == c.Pending()
  {
    assert c.backlog == [c.backlog[0]] + c.backlog[1..];
  }

  class ThreadPool<T> {
    var cont: seq<T>
    var queue: seq<T>
    var backlog: seq<T>
    const capacity: nat
    var stopping: bool

    ghost function View(): Core<T>
      reads this
    {
      Core(cont, queue, backlog, capacity, stopping)
    }

    constructor (queueCapacity: nat)
      ensures View() == Fresh(queueCapacity)
    {
      cont, queue, backlog := [], [], [];
      capacity := if queueCapacity == 0 then 1 else queueCapacity;
      stopping := false;
    }

    method Post(t: T) returns (runInline: bool)
      modifies this
      ensures View() == PostLocked(old(View()), t) && runInline == old(stopping)
    {
      runInline := stopping;
      if !stopping {
        cont := cont + [t];
      }
    }

    method EnqueueDeferrable(t: T) returns (ok: bool)
      requires View().Ok()
      modifies this
      ensures ok == EnqueueLocked(old(View()), t).Some?
      ensures View() == if ok then EnqueueLocked(old(View()), t).value else old(View())
      ensures View().Ok() && (ok ==> View().Pending() == old(View()).Pending() + [t])
    {
      if stopping {
        return false;
      }
      EnqueueIsFifo(View(), t);
      if |queue| >= capacity {
        backlog := backlog + [t];
      } else {
        queue := queue + [t];
      }
      return true;
    }

    /** The first caller goes on to join the workers; every later one returns at once. */
    method Stop() returns (first: bool)
      modifies this
      ensures (View(), first) == StopLocked(old(View()))
      ensures first <==> !old(stopping)
    {
      if stopping {
        return false;
      }
      stopping := true;
      return true;
    }

    /** The worker's lock section once its wait is over; None ends the worker. */
    method Take() returns (item: Option<T>)
      modifies this
      ensures item.None? <==> old(View().Idle())
      ensures item.None? ==> View() == old(View())
      ensures item.Some? ==> (View(), item.value) == TakeLocked(old(View()))
      ensures old(View().Ok()) ==> View().Ok()
    {
      if cont == [] && queue == [] && backlog == [] {
        return None;
      }
      if View().Ok() {
        TakeIsFifo(View());
      }
      if cont != [] {
        item := Some(cont[0]);
        cont := cont[1..];
      } else {
        if queue == [] {
          queue, backlog := queue + [backlog[0]], backlog[1..];
        }
        item := Some(queue[0]);
        queue := queue[1..];
        if backlog != [] && |queue| < capacity {
          queue, backlog := queue + [backlog[0]], backlog[1..];
        }
      }
    }
  }
}
