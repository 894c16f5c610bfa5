/**
  Every interleaving of add, cancel, the scheduling thread, the callback thread and shutdown on one
  timer queue. `owed` counts notifications that add has decided on but not yet issued (it notifies
  outside the lock); `started` logs the callbacks begun, `issued` the deadline of every id.
 */
module TimerProtocol {
  import opened Common
  import opened TimerQueue

  /** The scheduling thread: running, asleep (until a moment or for good), or ended. */
  datatype Sched = Awake | Asleep(until: Option<real>, signalled: bool) | Ended

  datatype State = State(core: Core, now: real, sched: Sched, owed: nat, issued: map<nat, real>,
                         started: seq<nat>, waiting: set<(nat, nat)>)

  datatype Label =
    | Add(delay: real)
    | Notify
    | SchedRound(first: Key)
    | SchedWake
    | Tick(d: real)
    | FireTake
    | FireDone
    | CancelSection(t: nat, id: nat)
    | CancelWake(t: nat, id: nat)
    | Shutdown

  /** Number of the callback thread. */
  const FIRE: nat := 0

  const Init: State := State(Initial, 0.0, Awake, 0, map[], [], {})

  predicate Enabled(s: State, l: Label) {
    match l
    case Add(_) => true
    case Notify => s.owed > 0
    // `first` names items_.begin() when there is one
    case SchedRound(first) => s.sched == Awake && (s.core.items != {} ==> IsFirst(s.core.items, first))
    case SchedWake => s.sched.Asleep?
    case Tick(d) => d >= 0.0
    case FireTake => s.core.running == 0 && s.core.due != []
    case FireDone => s.core.running != 0
    case CancelSection(_, _) => true
    case CancelWake(t, id) => (t, id) in s.waiting && !Unsettled(s.core, id)
    case Shutdown => true
  }

  /** cancel(id) on thread `t` blocks after its erase. */
  predicate Blocks(c: Core, t: nat, id: nat) {
    id !in c.deadlines && id != 0 && t != FIRE && Unsettled(c, id)
  }

  function Signal(sched: Sched): Sched {
    if sched.Asleep? then sched.(signalled := true) else sched
  }

  function Step(s: State, l: Label): State
    requires Enabled(s, l)
  {
    match l
    case Add(delay) =>
      if s.core.stopping then s
      else
        var deadline, id := s.now + delay, s.core.nextId + 1;
        var c := AddLocked(s.core, deadline);
        s.(core := c, issued := s.issued[id := deadline],
           owed := if IsFirst(c.items, Key(deadline, id)) then s.owed + 1 else s.owed)
    case Notify => s.(owed := s.owed - 1, sched := Signal(s.sched))
    case SchedRound(first) =>
      if s.core.stopping then s.(sched := Ended)
      else if s.core.items == {} then s.(sched := Asleep(None, false))
      else if first.deadline > s.now then s.(sched := Asleep(Some(first.deadline), false))
      else s.(core := MoveLocked(s.core, first))
    case SchedWake => s.(sched := Awake)
    case Tick(d) => s.(now := s.now + d)
    case FireTake => s.(core := TakeLocked(s.core), started := s.started + [s.core.due[0].id])
    case FireDone => s.(core := s.core.(running := 0))
    case CancelSection(t, id) =>
      s.(core := EraseLocked(s.core, id), waiting := if Blocks(s.core, t, id) then s.waiting + {(t, id)} else s.waiting)
    case CancelWake(t, id) => s.(waiting := s.waiting - {(t, id)})
    case Shutdown => s.(core := s.core.(stopping := true, due := []), sched := Signal(s.sched))
  }

  function Run(s: State, trace: seq<Label>): (r: Option<State>)
    decreases |trace|
  {
    if trace == [] then Some(s)
    else if !Enabled(s, trace[0]) then None
    else Run(Step(s, trace[0]), trace[1..])
  }

  // ---------------------------------------------------------------- invariant

  /** deadlines_ is the exact inverse of items_. */
  ghost predicate InverseOk(items: set<Key>, deadlines: map<nat, real>) {
    forall k: Key :: k in items <==> k.id in deadlines && deadlines[k.id] == k.deadline
  }

  /** Every issued id is in at most one of: pending, due, begun; and begun ids are never due again. */
  ghost predicate PlacesOk(c: Core, started: seq<nat>) {
    && (forall id <- c.deadlines :: 0 < id <= c.nextId)
    && (forall k <- c.due :: 0 < k.id <= c.nextId && k.id !in c.deadlines)
    && (forall i, j :: 0 <= i < j < |c.due| ==> c.due[i].id != c.due[j].id)
    && (forall id <- started :: 0 < id <= c.nextId && id !in c.deadlines && !IsDue(c.due, id))
    && NoDup(started)
    && (c.running != 0 ==> started != [] && started[|started| - 1] == c.running)
  }

  /** Nothing is due or begun before its deadline. */
  ghost predicate TimesOk(s: State) {
    && (forall id <- s.core.deadlines :: id in s.issued && s.issued[id] == s.core.deadlines[id])
    && (forall k <- s.core.due :: k.id in s.issued && s.issued[k.id] == k.deadline <= s.now)
    && (forall id <- s.started :: id in s.issued && s.issued[id] <= s.now)
    && (forall id <- s.issued :: 0 < id <= s.core.nextId)
  }

  /** The sleeper wakes no later than the earliest deadline, unless a notification is on its way. */
  ghost predicate SleepOk(sched: Sched, owed: nat, items: set<Key>) {
    sched.Asleep? && !sched.signalled && owed == 0 ==>
      if sched.until.None? then items == {} else forall k <- items :: sched.until.value <= k.deadline
  }

  ghost predicate StopOk(c: Core, sched: Sched) {
    && (c.stopping ==> c.due == [])
    && (sched.Ended? ==> c.stopping)
  }

  /** A thread blocked in cancel waits for an id that was issued and is pending no more. */
  ghost predicate WaitersOk(s: State) {
    forall p <- s.waiting :: 0 < p.1 <= s.core.nextId && p.1 !in s.core.deadlines
  }

  ghost predicate Inv(s: State) {
    && InverseOk(s.core.items, s.core.deadlines)
    && PlacesOk(s.core, s.started)
    && TimesOk(s)
    && SleepOk(s.sched, s.owed, s.core.items)
    && StopOk(s.core, s.sched)
    && WaitersOk(s)
  }

  lemma AddKeeps(s: State, delay: real)
    requires Inv(s)
    ensures Inv(Step(s, Add(delay)))
  {
    if !s.core.stopping {
      var t := Step(s, Add(delay));
      var k := Key(s.now + delay, t.core.nextId);
      assert InverseOk(t.core.items, t.core.deadlines);
      assert PlacesOk(t.core, t.started);
      if !IsFirst(t.core.items, k) && s.sched.Asleep? && s.sched.until.Some? {
        var j :| j in t.core.items && !Le(k, j);
        assert j in s.core.items && j.deadline <= k.deadline;
      }
    }
  }

  lemma RoundKeeps(s: State, first: Key)
    requires Inv(s) && Enabled(s, SchedRound(first))
    ensures Inv(Step(s, SchedRound(first)))
  {
    var t := Step(s, SchedRound(first));
    if t.core != s.core {
      assert first in s.core.items && first.id in s.core.deadlines;
      assert forall k <- t.core.due :: k in s.core.due || k == first;
      assert forall id :: IsDue(t.core.due, id) ==> IsDue(s.core.due, id) || id == first.id;
      forall i, j | 0 <= i < j < |t.core.due| ensures t.core.due[i].id != t.core.due[j].id {
        assert t.core.due[i] in s.core.due;
      }
    }
  }

  /** The ids due after the first one is taken: the others, and not that one. */
  lemma DueRest(due: seq<Key>)
    requires due != [] && forall i, j :: 0 <= i < j < |due| ==> due[i].id != due[j].id
    ensures IsDue(due, due[0].id) && !IsDue(due[1..], due[0].id)
    ensures forall x :: IsDue(due[1..], x) ==> IsDue(due, x)
  {
    assert due[0] in due;
    forall k <- due[1..] ensures k.id != due[0].id {
      var i :| 0 <= i < |due[1..]| && due[1..][i] == k;
      assert due[i + 1] == k;
    }
  }

  lemma TakePlaces(c: Core, started: seq<nat>)
    requires PlacesOk(c, started) && c.due != []
    ensures PlacesOk(TakeLocked(c), started + [c.due[0].id])
  {
    DueRest(c.due);
    assert c.due[0] in c.due;
    assert c.due[0].id !in started;
  }

  lemma TakeKeeps(s: State)
    requires Inv(s) && Enabled(s, FireTake)
    ensures Inv(Step(s, FireTake))
  {
    TakePlaces(s.core, s.started);
    assert s.core.due[0] in s.core.due;
    assert forall k <- s.core.due[1..] :: k in s.core.due;
  }

  lemma EraseKeeps(s: State, th: nat, id: nat)
    requires Inv(s)
    ensures Inv(Step(s, CancelSection(th, id)))
  {
    var t := Step(s, CancelSection(th, id));
    assert InverseOk(t.core.items, t.core.deadlines);
    assert s.core.running != 0 ==> s.core.running in s.started;
  }

  lemma StepKeeps(s: State, l: Label)
    requires Inv(s) && Enabled(s, l)
    ensures Inv(Step(s, l))
  {
    match l
    case Add(delay) => AddKeeps(s, delay);
    case SchedRound(first) => RoundKeeps(s, first);
    case FireTake => TakeKeeps(s);
    case CancelSection(t, id) => EraseKeeps(s, t, id);
    case _ =>
  }

  lemma {:induction false} RunKeeps(s: State, trace: seq<Label>)
    requires Inv(s) && Run(s, trace).Some?
    ensures Inv(Run(s, trace).value)
    decreases |trace|
  {
    if trace != [] {
      StepKeeps(s, trace[0]);
      RunKeeps(Step(s, trace[0]), trace[1..]);
    }
  }

  ghost predicate Reachable(s: State) {
    exists trace: seq<Label> :: Run(Init, trace) == Some(s)
  }

  lemma ReachableInv(s: State)
    requires Reachable(s)
    ensures Inv(s)
  {
    var trace: seq<Label> :| Run(Init, trace) == Some(s);
    RunKeeps(Init, trace);
  }

  lemma {:induction false} RunAppend(s: State, a: seq<Label>, b: seq<Label>)
    requires Run(s, a).Some?
    ensures Run(s, a + b) == Run(Run(s, a).value, b)
    decreases |a|
  {
    if a == [] {
      assert a + b == b;
    } else {
      assert (a + b)[1..] == a[1..] + b;
      RunAppend(Step(s, a[0]), a[1..], b);
    }
  }

  lemma RunOne(s: State, l: Label)
    requires Enabled(s, l)
    ensures Run(s, [l]) == Some(Step(s, l))
  {
    assert [l][1..] == [];
    assert Run(Step(s, l), []) == Some(Step(s, l));
  }

  lemma ExtendReachable(s: State, l: Label)
    requires Reachable(s) && Enabled(s, l)
    ensures Reachable(Step(s, l))
  {
    var trace: seq<Label> :| Run(Init, trace) == Some(s);
    RunAppend(Init, trace, [l]);
    RunOne(s, l);
    assert Run(Init, trace + [l]) == Some(Step(s, l));
  }

  // ---------------------------------------------------------------- what every run promises

  /**
    The two tables are exact inverses, an id is pending, due or begun but never two of these, no
    callback begins twice, and none begins before its deadline.
   */
  lemma OnePlacePerTimer(s: State)
    requires Reachable(s)
    ensures forall k: Key :: k in s.core.items <==> k.id in s.core.deadlines && s.core.deadlines[k.id] == k.deadline
    ensures forall id :: id in s.core.deadlines ==> !IsDue(s.core.due, id) && id !in s.started && id != s.core.running
    ensures forall id :: IsDue(s.core.due, id) ==> id !in s.started && id != s.core.running
    ensures NoDup(s.started) && (s.core.running != 0 ==> s.core.running in s.started)
    ensures forall id <- s.started :: id in s.issued && s.issued[id] <= s.now
  {
    ReachableInv(s);
    assert s.core.running != 0 ==> s.started[|s.started| - 1] in s.started;
    assert forall id :: IsDue(s.core.due, id) ==> 0 < id && id !in s.core.deadlines;
  }

  /**
    Whenever the scheduling thread sleeps with no wake-up signalled or owed, it wakes no later than
    the earliest pending deadline, and sleeps for good only when nothing is pending.
   */
  lemma NeverOversleeps(s: State)
    requires Reachable(s) && s.sched.Asleep?
    ensures s.sched.signalled || s.owed > 0
            || (if s.sched.until.None? then s.core.items == {} else forall k <- s.core.items :: s.sched.until.value <= k.deadline)
  {
    ReachableInv(s);
  }

  ghost predicate Starts(s: State, trace: seq<Label>, id: nat) {
    Run(s, trace).Some? && id !in s.started && id in Run(s, trace).value.started
  }

  /** Some continuation of the run begins callback `id`. */
  ghost predicate CanStart(s: State, id: nat) {
    exists trace: seq<Label> :: Starts(s, trace, id)
  }

  /** Waiting for the callback thread, or pending while the queue is not shutting down. */
  ghost predicate Live(c: Core, id: nat) {
    IsDue(c.due, id) || (id in c.deadlines && !c.stopping)
  }

  lemma DeadStep(s: State, l: Label, id: nat)
    requires Inv(s) && Enabled(s, l) && 0 < id <= s.core.nextId && !Live(s.core, id)
    ensures var t := Step(s, l); id <= t.core.nextId && !Live(t.core, id) && (id in t.started ==> id in s.started)
  {
    var t := Step(s, l);
    if l.SchedRound? && t.core != s.core {
      assert l.first.id in s.core.deadlines;
      assert forall k <- t.core.due :: k in s.core.due || k == l.first;
    }
    if l.FireTake? {
      assert s.core.due[0] in s.core.due;
      assert forall k <- t.core.due :: k in s.core.due;
    }
  }

  lemma {:induction false} DeadStays(s: State, trace: seq<Label>, id: nat)
    requires Inv(s) && Run(s, trace).Some? && 0 < id <= s.core.nextId && !Live(s.core, id)
    ensures var t := Run(s, trace).value; !Live(t.core, id) && (id in t.started ==> id in s.started)
    decreases |trace|
  {
    if trace != [] {
      StepKeeps(s, trace[0]);
      DeadStep(s, trace[0], id);
      DeadStays(Step(s, trace[0]), trace[1..], id);
    }
  }

  /** The callback thread's next step begins `id` or brings it nearer. */
  lemma NextFire(s: State, id: nat) returns (l: Label)
    requires IsDue(s.core.due, id)
    ensures Enabled(s, l)
    ensures var t := Step(s, l);
            id in t.started ||
            (&& IsDue(t.core.due, id)
             && (|t.core.due| < |s.core.due| || (|t.core.due| == |s.core.due| && s.core.running != 0 && t.core.running == 0)))
  {
    var k :| k in s.core.due && k.id == id;
    if s.core.running != 0 {
      l := FireDone;
      assert k in Step(s, l).core.due;
    } else {
      l := FireTake;
      assert s.core.due == [s.core.due[0]] + s.core.due[1..];
      assert k == s.core.due[0] || k in Step(s, l).core.due;
    }
  }

  /** The callback thread works through the due queue until `id` begins. */
  lemma {:induction false} FireUntil(s: State, id: nat) returns (trace: seq<Label>)
    requires IsDue(s.core.due, id)
    ensures Run(s, trace).Some? && id in Run(s, trace).value.started
    decreases |s.core.due|, s.core.running != 0
  {
    var l := NextFire(s, id);
    var t := Step(s, l);
    RunOne(s, l);
    trace := [l];
    if id !in t.started {
      var rest := FireUntil(t, id);
      RunAppend(s, [l], rest);
      trace := [l] + rest;
    }
  }

  /** The scheduling thread, woken and given enough time, hands `id` over. */
  lemma {:induction false} MoveUntil(s: State, id: nat) returns (trace: seq<Label>)
    requires Inv(s) && id in s.core.deadlines && !s.core.stopping
    ensures Run(s, trace).Some? && Inv(Run(s, trace).value)
    ensures IsDue(Run(s, trace).value.core.due, id)
    decreases |s.core.items|, s.sched.Asleep?, s.now < s.core.deadlines[id]
  {
    var me := Key(s.core.deadlines[id], id);
    assert me in s.core.items;
    var first := FirstExists(s.core.items);
    var l := if s.sched.Asleep? then SchedWake
             else if s.now < me.deadline then Tick(me.deadline - s.now)
             else SchedRound(first);
    StepKeeps(s, l);
    RunOne(s, l);
    var t := Step(s, l);
    trace := [l];
    if l.SchedRound? && first.id == id {
      assert first in t.core.due;
    } else {
      var rest := MoveUntil(t, id);
      RunAppend(s, [l], rest);
      trace := [l] + rest;
    }
  }

  lemma LiveCanStart(s: State, id: nat)
    requires Inv(s) && 0 < id && Live(s.core, id)
    ensures CanStart(s, id)
  {
    assert id !in s.started;
    if IsDue(s.core.due, id) {
      var trace := FireUntil(s, id);
      assert Starts(s, trace, id);
    } else {
      var a := MoveUntil(s, id);
      var b := FireUntil(Run(s, a).value, id);
      RunAppend(s, a, b);
      assert Starts(s, a + b, id);
    }
  }

  /** Exactly the live timers can still begin. */
  lemma CanStartIffLive(s: State, id: nat)
    requires Reachable(s) && 0 < id <= s.core.nextId
    ensures CanStart(s, id) <==> Live(s.core, id)
  {
    ReachableInv(s);
    if Live(s.core, id) {
      LiveCanStart(s, id);
    } else if CanStart(s, id) {
      var trace: seq<Label> :| Starts(s, trace, id);
      DeadStays(s, trace, id);
    }
  }

  /** cancel returning true: the callback never ran and no continuation of the run begins it. */
  lemma CancelledBeforeFiring(s: State, t: nat, id: nat)
    requires Reachable(s) && 0 < id <= s.core.nextId && id in s.core.deadlines
    ensures var u := Step(s, CancelSection(t, id));
            u.core.running != id && id !in u.started && !CanStart(u, id) && (t, id) !in u.waiting - s.waiting
  {
    ReachableInv(s);
    ExtendReachable(s, CancelSection(t, id));
    OnePlacePerTimer(s);
    CanStartIffLive(Step(s, CancelSection(t, id)), id);
  }

  /**
    cancel returning false on a thread other than the callback thread, at once or after its wait:
    the callback is not running and no continuation of the run begins it.
   */
  lemma CancelledAfterFiring(s: State, t: nat, id: nat)
    requires Reachable(s) && 0 < id <= s.core.nextId && t != FIRE
    ensures id !in s.core.deadlines && !Blocks(s.core, t, id) ==>
              var u := Step(s, CancelSection(t, id)); u.core.running != id && !CanStart(u, id)
    ensures Enabled(s, CancelWake(t, id)) ==>
              var u := Step(s, CancelWake(t, id)); u.core.running != id && !CanStart(u, id)
  {
    ReachableInv(s);
    if id !in s.core.deadlines && !Blocks(s.core, t, id) {
      ExtendReachable(s, CancelSection(t, id));
      CanStartIffLive(Step(s, CancelSection(t, id)), id);
    }
    if Enabled(s, CancelWake(t, id)) {
      ExtendReachable(s, CancelWake(t, id));
      CanStartIffLive(Step(s, CancelWake(t, id)), id);
    }
  }

  /** On the callback thread a false return leaves the callback able to begin exactly when it is due. */
  lemma CancelledOnCallbackThread(s: State, id: nat)
    requires Reachable(s) && 0 < id <= s.core.nextId && id !in s.core.deadlines
    ensures var u := Step(s, CancelSection(FIRE, id)); u.waiting == s.waiting
    ensures CanStart(Step(s, CancelSection(FIRE, id)), id) <==> IsDue(s.core.due, id)
  {
    ExtendReachable(s, CancelSection(FIRE, id));
    CanStartIffLive(Step(s, CancelSection(FIRE, id)), id);
  }
}
