/** What each step does to one timer, and the order in which callbacks begin. */
module TimerOrder {
  import opened Common
  import opened TimerQueue
  import opened TimerProtocol

  function DeadlineOf(c: Core, id: nat): Option<real> {
    if id in c.deadlines then Some(c.deadlines[id]) else None
  }

  /** The timers a step hands over to the callback thread: one or none. */
  function Handed(s: State, l: Label): seq<nat> {
    if l.SchedRound? && !s.core.stopping && s.core.items != {} && l.first.deadline <= s.now then [l.first.id] else []
  }

  /**
    A new timer is pending with its deadline under an id never used before; cancel takes its own timer off and no
    other; the scheduling thread takes off the one it hands over. No other step touches a pending timer.
   */
  lemma StepTimer(s: State, l: Label, id: nat)
    requires Inv(s) && Enabled(s, l)
    ensures DeadlineOf(Step(s, l).core, id) ==
            if l.Add? && !s.core.stopping && id == s.core.nextId + 1 then Some(s.now + l.delay)
            else if l.CancelSection? && l.id == id then None
            else if Handed(s, l) == [id] then None
            else DeadlineOf(s.core, id)
    ensures l.Add? && !s.core.stopping ==> Step(s, l).core.nextId == s.core.nextId + 1 && s.core.nextId + 1 !in s.issued
  {
  }

  /** A timer that was added can begin, and not before its deadline. */
  lemma AddedCanStart(s: State, delay: real)
    requires Reachable(s) && !s.core.stopping
    ensures var t, id := Step(s, Add(delay)), s.core.nextId + 1;
            CanStart(t, id) && id in t.issued && t.issued[id] == s.now + delay
  {
    ReachableInv(s);
    StepTimer(s, Add(delay), s.core.nextId + 1);
    ExtendReachable(s, Add(delay));
    CanStartIffLive(Step(s, Add(delay)), s.core.nextId + 1);
  }

  /** What is handed over has expired and is the earliest of all pending timers, ids deciding between equal deadlines. */
  lemma HandedIsEarliest(s: State, l: Label, id: nat)
    requires Reachable(s) && Enabled(s, l) && Handed(s, l) != [] && id in s.core.deadlines
    ensures l.first.deadline <= s.now && Le(l.first, Key(s.core.deadlines[id], id))
    ensures l.first.id in s.core.deadlines && s.core.deadlines[l.first.id] == l.first.deadline
  {
    ReachableInv(s);
    assert Key(s.core.deadlines[id], id) in s.core.items;
  }

  // ---------------------------------------------------------------- begun in the order handed over

  ghost function HandOvers(s: State, trace: seq<Label>): seq<nat>
    decreases |trace|
  {
    if trace == [] || !Enabled(s, trace[0]) then [] else Handed(s, trace[0]) + HandOvers(Step(s, trace[0]), trace[1..])
  }

  function Ids(due: seq<Key>): (r: seq<nat>)
    ensures |r| == |due| && forall i :: 0 <= i < |due| ==> r[i] == due[i].id
  {
    if due == [] then [] else [due[0].id] + Ids(due[1..])
  }

  /** Begun or about to: what was handed over, in this order. */
  ghost function Order(s: State): seq<nat> {
    s.started + Ids(s.core.due)
  }

  lemma IdsAppend(due: seq<Key>, k: Key)
    ensures Ids(due + [k]) == Ids(due) + [k.id]
  {
  }

  /** The order grows by what is handed over; shutdown drops what is not begun. */
  lemma StepOrder(s: State, l: Label)
    requires Inv(s) && Enabled(s, l)
    ensures Order(Step(s, l)) == if l.Shutdown? then s.started else Order(s) + Handed(s, l)
    ensures Step(s, l).core.stopping <==> s.core.stopping || l.Shutdown?
  {
    assert Order(s) + [] == Order(s);
    match l
    case SchedRound(first) =>
      if Handed(s, l) != [] {
        IdsAppend(s.core.due, first);
        Associates(s.started, Ids(s.core.due), [first.id]);
      }
    case FireTake => Associates(s.started, [s.core.due[0].id], Ids(s.core.due[1..]));
    case Shutdown => assert s.started + [] == s.started;
    case _ =>
  }

  lemma {:induction false} RunOrder(s: State, trace: seq<Label>, before: seq<nat>)
    requires Inv(s) && Run(s, trace).Some? && Order(s) <= before && (!s.core.stopping ==> Order(s) == before)
    ensures var t, all := Run(s, trace).value, before + HandOvers(s, trace);
            Order(t) <= all && (!t.core.stopping ==> Order(t) == all)
    decreases |trace|
  {
    if trace == [] {
      assert before + [] == before;
    } else {
      var l, rest := trace[0], trace[1..];
      var t := Step(s, l);
      StepKeeps(s, l);
      StepOrder(s, l);
      NextBefore(s, l, before);
      RunOrder(t, rest, before + Handed(s, l));
      Associates(before, Handed(s, l), HandOvers(t, rest));
    }
  }

  lemma NextBefore(s: State, l: Label, before: seq<nat>)
    requires Inv(s) && Enabled(s, l) && Order(s) <= before && (!s.core.stopping ==> Order(s) == before)
    ensures var t := Step(s, l);
            Order(t) <= before + Handed(s, l) && (!t.core.stopping ==> Order(t) == before + Handed(s, l))
  {
    StepOrder(s, l);
    assert before + [] == before;
    assert s.started <= Order(s);
  }

  /**
    Callbacks begin in the order in which their timers were handed over, one by one: after every run those begun,
    followed by those due, are the first ones handed over, and all of them until shutdown.
   */
  lemma BegunAsHandedOver(trace: seq<Label>)
    requires Run(Init, trace).Some?
    ensures var s, all := Run(Init, trace).value, HandOvers(Init, trace);
            s.started + Ids(s.core.due) <= all && (!s.core.stopping ==> s.started + Ids(s.core.due) == all)
  {
    RunOrder(Init, trace, []);
    assert [] + HandOvers(Init, trace) == HandOvers(Init, trace);
  }

  // ---------------------------------------------------------------- begun by deadline

  ghost predicate InOrderAt(order: seq<nat>, j: nat, k: nat) {
    exists a, b :: 0 <= a < b < |order| && order[a] == j && order[b] == k
  }

  /** Timer `j` is due before `k`: `k` is not handed over while `j` is pending, nor ahead of it. */
  ghost predicate Ranked(s: State, j: nat, k: nat, dj: real, dk: real) {
    && (j in s.core.deadlines ==> s.core.deadlines[j] == dj)
    && (k in s.core.deadlines ==> s.core.deadlines[k] == dk)
    && 0 < j <= s.core.nextId && 0 < k <= s.core.nextId
    && (k in Order(s) ==> j !in s.core.deadlines && (j in Order(s) ==> InOrderAt(Order(s), j, k)))
  }

  lemma OrderPlaces(s: State)
    requires Inv(s)
    ensures forall id <- Order(s) :: id !in s.core.deadlines
  {
    forall id <- Order(s) ensures id !in s.core.deadlines {
      var i :| 0 <= i < |Order(s)| && Order(s)[i] == id;
      if i >= |s.started| {
        assert Ids(s.core.due)[i - |s.started|] == id && s.core.due[i - |s.started|] in s.core.due;
      }
    }
  }

  lemma HandOverRanked(s: State, first: Key, j: nat, k: nat, dj: real, dk: real)
    requires Inv(s) && Ranked(s, j, k, dj, dk) && j != k && Le(Key(dj, j), Key(dk, k))
    requires Enabled(s, SchedRound(first)) && Handed(s, SchedRound(first)) != []
    ensures Ranked(Step(s, SchedRound(first)), j, k, dj, dk)
  {
    var l := SchedRound(first);
    var t := Step(s, l);
    StepOrder(s, l);
    OrderPlaces(s);
    assert first.id in s.core.deadlines && Key(s.core.deadlines[first.id], first.id) == first;
    var o, p := Order(s), Order(t);
    assert p == o + [first.id];
    if k in p {
      if k in o {
        StillBefore(o, first.id, j, k);
      } else {
        assert k == first.id;
        assert forall id <- s.core.deadlines :: Key(s.core.deadlines[id], id) in s.core.items;
        if j in o { LastIsAfter(o, j, k); }
      }
    }
  }

  lemma StillBefore(o: seq<nat>, x: nat, j: nat, k: nat)
    requires k in o && (j in o ==> InOrderAt(o, j, k)) && x != j
    ensures j in o + [x] ==> InOrderAt(o + [x], j, k)
  {
    if j in o {
      var a, b :| 0 <= a < b < |o| && o[a] == j && o[b] == k;
      assert (o + [x])[a] == j && (o + [x])[b] == k;
    }
  }

  lemma LastIsAfter(o: seq<nat>, j: nat, k: nat)
    requires j in o
    ensures InOrderAt(o + [k], j, k)
  {
    var a :| 0 <= a < |o| && o[a] == j;
    assert (o + [k])[a] == j && (o + [k])[|o|] == k;
  }

  /** Shutdown keeps what has begun. */
  lemma PrefixRanked(o: seq<nat>, p: seq<nat>, j: nat, k: nat)
    requires p <= o && NoDup(o) && (k in o && j in o ==> InOrderAt(o, j, k))
    ensures k in p && j in p ==> InOrderAt(p, j, k)
  {
    if k in p && j in p {
      var a, b :| 0 <= a < b < |o| && o[a] == j && o[b] == k;
      var c :| 0 <= c < |p| && p[c] == k;
      assert o[c] == k && c == b;
      assert p[a] == j;
    }
  }

  lemma OrderNoDup(s: State)
    requires Inv(s)
    ensures NoDup(Order(s))
  {
    var ids := Ids(s.core.due);
    forall i, j | 0 <= i < j < |Order(s)| ensures Order(s)[i] != Order(s)[j] {
      if i < |s.started| <= j {
        assert s.core.due[j - |s.started|] in s.core.due && IsDue(s.core.due, Order(s)[j]);
        assert s.started[i] in s.started;
      }
    }
  }

  lemma StepRanked(s: State, l: Label, j: nat, k: nat, dj: real, dk: real)
    requires Inv(s) && Enabled(s, l) && Ranked(s, j, k, dj, dk) && j != k && Le(Key(dj, j), Key(dk, k))
    ensures Ranked(Step(s, l), j, k, dj, dk)
  {
    if Handed(s, l) != [] {
      HandOverRanked(s, l.first, j, k, dj, dk);
    } else {
      StepOrder(s, l);
      assert Order(s) + [] == Order(s);
      StepTimer(s, l, j);
      StepTimer(s, l, k);
      OrderNoDup(s);
      PrefixRanked(Order(s), Order(Step(s, l)), j, k);
      assert s.core.nextId <= Step(s, l).core.nextId;
    }
  }

  lemma {:induction false} RunRanked(s: State, trace: seq<Label>, j: nat, k: nat, dj: real, dk: real)
    requires Inv(s) && Run(s, trace).Some? && Ranked(s, j, k, dj, dk) && j != k && Le(Key(dj, j), Key(dk, k))
    ensures Ranked(Run(s, trace).value, j, k, dj, dk)
    decreases |trace|
  {
    if trace != [] {
      StepKeeps(s, trace[0]);
      StepRanked(s, trace[0], j, k, dj, dk);
      RunRanked(Step(s, trace[0]), trace[1..], j, k, dj, dk);
    }
  }

  /**
    Of two timers pending at the same time the one with the earlier deadline, or the smaller id, begins first: when
    the later one has begun, the earlier one began before it, or was cancelled and can never begin.
   */
  lemma EarlierBeginsFirst(s: State, trace: seq<Label>, j: nat, k: nat)
    requires Reachable(s) && Run(s, trace).Some? && j in s.core.deadlines && k in s.core.deadlines && j != k
    requires Le(Key(s.core.deadlines[j], j), Key(s.core.deadlines[k], k))
    requires k in Run(s, trace).value.started
    ensures var t := Run(s, trace).value;
            if j in t.started then InOrderAt(t.started, j, k) else !CanStart(t, j)
  {
    ReachableInv(s);
    OrderPlaces(s);
    var t := Run(s, trace).value;
    RunRanked(s, trace, j, k, s.core.deadlines[j], s.core.deadlines[k]);
    RunKeeps(s, trace);
    OrderNoDup(t);
    assert k in Order(t);
    PrefixRanked(Order(t), t.started, j, k);
    if j in Order(t) {
      AheadHasBegun(t, j, k);
    }
    if j !in t.started {
      assert !IsDue(t.core.due, j) by {
        if IsDue(t.core.due, j) { DueIsInOrder(t, j); }
      }
      ReachableOn(s, trace);
      CanStartIffLive(t, j);
    }
  }

  /** What comes before a begun callback has begun. */
  lemma AheadHasBegun(t: State, j: nat, k: nat)
    requires Inv(t) && k in t.started && InOrderAt(Order(t), j, k)
    ensures j in t.started
  {
    OrderNoDup(t);
    var a, b :| 0 <= a < b < |Order(t)| && Order(t)[a] == j && Order(t)[b] == k;
    var c :| 0 <= c < |t.started| && t.started[c] == k;
    assert Order(t)[c] == k && c == b;
    assert t.started[a] == j;
  }

  lemma DueIsInOrder(t: State, j: nat)
    requires IsDue(t.core.due, j)
    ensures j in Order(t)
  {
    var d :| d in t.core.due && d.id == j;
    var i :| 0 <= i < |t.core.due| && t.core.due[i] == d;
    assert Order(t)[|t.started| + i] == j;
  }

  lemma ReachableOn(s: State, trace: seq<Label>)
    requires Reachable(s) && Run(s, trace).Some?
    ensures Reachable(Run(s, trace).value)
  {
    var before: seq<Label> :| Run(Init, before) == Some(s);
    RunAppend(Init, before, trace);
    assert Run(Init, before + trace) == Some(Run(s, trace).value);
  }
}
