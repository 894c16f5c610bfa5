/** A release inside the eviction walk: the walk goes by what it read at each key, not by one state of the table. */
module RateWalks {
  import opened Common
  import opened RateLimiter
  import opened RateProtocol
  import opened RateRuns

  /** Room for two keys, none tracked or only `0`, which is in flight. */
  function Empty(l: Limits, phase: Phase): State {
    State(Core(l, 2, map[], []), phase, map[], 0, map[], map[], 0)
  }

  function First(l: Limits, phase: Phase): State {
    State(Core(l, 2, map[0 := Charged(l)], [0]), phase, map[0 := 0], 1, map[Held(0, 0) := 1], map[0 := 1], 1)
  }

  /** `0` and `1` tracked, `1` used last. */
  function Both(l: Limits, phase: Phase, zero: Slot, one: Slot, live: map<Held, nat>): State {
    State(Core(l, 2, map[0 := zero, 1 := one], [1, 0]), phase, map[0 := 0, 1 := 1], 2, live, map[0 := 1, 1 := 1], 2)
  }

  const BOTH: map<Held, nat> := map[Held(0, 0) := 1, Held(1, 1) := 1]

  lemma BusyTwo(zero: Slot, one: Slot)
    ensures Busy(map[0 := zero, 1 := one]) <= {0, 1} && |Busy(map[0 := zero, 1 := one])| <= 2
    ensures zero.inflight != 0 && one.inflight != 0 ==>
              Busy(map[0 := zero, 1 := one]) == {0, 1} && |Busy(map[0 := zero, 1 := one])| == 2
    ensures |map[0 := zero, 1 := one]| == 2
  {
    var table: map<Key, Slot> := map[0 := zero, 1 := one];
    assert table.Keys == {0, 1} && |{0, 1}| == 2;
    SubsetSize(Busy(table), {0, 1});
  }

  lemma FirstBegins(l: Limits)
    ensures Step(Empty(l, Free), Begin(0, 0.0)) == Empty(l, Ready(0))
  {
    assert Busy(map[]) == {};
  }

  lemma FirstInserted(l: Limits)
    requires Usable(l)
    ensures Step(Empty(l, Ready(0)), Insert) == First(l, Free)
  {
    FreshPasses(l, 0.0);
    BusyOne(0, Charged(l));
    assert [0] + [] == [0];
  }

  lemma SecondBegins(l: Limits)
    requires Usable(l)
    ensures Step(First(l, Free), Begin(1, 0.0)) == First(l, Ready(1))
  {
    FreshPasses(l, 0.0);
    BusyOne(0, Charged(l));
  }

  lemma SecondInserted(l: Limits)
    requires Usable(l)
    ensures Step(First(l, Ready(1)), Insert) == Both(l, Free, Charged(l), Charged(l), BOTH)
  {
    FreshPasses(l, 0.0);
    BusyTwo(Charged(l), Charged(l));
    assert map[0 := Charged(l)][1 := Charged(l)] == map[0 := Charged(l), 1 := Charged(l)];
    assert [1] + [0] == [1, 0];
  }

  /** The walk of key `2`, before its look at position `i`. */
  function Walks(i: nat, calm: bool): Phase {
    Walking(2, 0.0, i, {0, 1}, calm)
  }

  lemma ThirdBegins(l: Limits)
    requires Usable(l)
    ensures Step(Both(l, Free, Charged(l), Charged(l), BOTH), Begin(2, 0.0)) ==
            Both(l, Walks(1, true), Charged(l), Charged(l), BOTH)
  {
    FreshPasses(l, 0.0);
    BusyTwo(Charged(l), Charged(l));
  }

  lemma OldestBusy(l: Limits)
    requires Usable(l)
    ensures Step(Both(l, Walks(1, true), Charged(l), Charged(l), BOTH), Look) ==
            Both(l, Walks(0, true), Charged(l), Charged(l), BOTH)
  {
    FreshPasses(l, 0.0);
    BusyTwo(Charged(l), Charged(l));
  }

  lemma OldestReleased(l: Limits)
    requires Usable(l)
    ensures Step(Both(l, Walks(0, true), Charged(l), Charged(l), BOTH), Release(0, 0)) ==
            Both(l, Walks(0, false), Rested(l), Charged(l), map[Held(1, 1) := 1])
  {
    FreshPasses(l, 0.0);
    BusyTwo(Rested(l), Charged(l));
    assert map[0 := Charged(l), 1 := Charged(l)][0 := Rested(l)] == map[0 := Rested(l), 1 := Charged(l)];
    assert BOTH - {Held(0, 0)} == map[Held(1, 1) := 1];
  }

  /** The walk has read `0` in flight; `0` has been released since. */
  lemma PassedTooEarly(l: Limits) returns (w: Walk, before: seq<Label>)
    ensures w.trace == before + [Release(0, 0)]
    ensures Leads(w, Init(l, 2), Both(Effective(l), Walks(0, false), Rested(Effective(l)), Charged(Effective(l)), map[Held(1, 1) := 1]))
  {
    var s, e := Init(l, 2), Effective(l);
    var c, r := Charged(e), Rested(e);
    FirstBegins(e);
    FirstInserted(e);
    SecondBegins(e);
    SecondInserted(e);
    ThirdBegins(e);
    OldestBusy(e);
    OldestReleased(e);
    w := Stay(s);
    w := Extend(w, s, s, Begin(0, 0.0), Empty(e, Ready(0)));
    w := Extend(w, s, Empty(e, Ready(0)), Insert, First(e, Free));
    w := Extend(w, s, First(e, Free), Begin(1, 0.0), First(e, Ready(1)));
    w := Extend(w, s, First(e, Ready(1)), Insert, Both(e, Free, c, c, BOTH));
    w := Extend(w, s, Both(e, Free, c, c, BOTH), Begin(2, 0.0), Both(e, Walks(1, true), c, c, BOTH));
    w := Extend(w, s, Both(e, Walks(1, true), c, c, BOTH), Look, Both(e, Walks(0, true), c, c, BOTH));
    before := w.trace;
    w := Extend(w, s, Both(e, Walks(0, true), c, c, BOTH), Release(0, 0), Both(e, Walks(0, false), r, c, map[Held(1, 1) := 1]));
  }

  lemma NewestBusy(l: Limits)
    requires Usable(l)
    ensures Step(Both(l, Walks(0, false), Rested(l), Charged(l), map[Held(1, 1) := 1]), Look) ==
            Both(l, Inserting(2, 0.0, true, false), Rested(l), Charged(l), map[Held(1, 1) := 1])
  {
    FreshPasses(l, 0.0);
    BusyTwo(Rested(l), Charged(l));
  }

  lemma ThirdInserted(l: Limits)
    requires Usable(l)
    ensures var t := Step(Both(l, Inserting(2, 0.0, true, false), Rested(l), Charged(l), map[Held(1, 1) := 1]), Insert);
            t.phase.Free? && |t.core.table| == 3 && t.core.maxTracked == 2 && t.peak == 2
  {
    FreshPasses(l, 0.0);
    var table := map[0 := Rested(l), 1 := Charged(l)][2 := Charged(l)];
    assert table.Keys == {0, 1, 2} && |{0, 1, 2}| == 3;
    assert Busy(table) == {1, 2} && |{1, 2}| == 2;
  }

  lemma MidWalk(l: Limits) returns (w: Walk, before: seq<Label>, t: State)
    ensures Leads(w, Init(l, 2), t) && w.trace == before + [Release(0, 0)] + [Look] + [Insert]
    ensures t.phase.Free? && |t.core.table| == 3 && t.core.maxTracked == 2 && t.peak == 2
  {
    var s, e := Init(l, 2), Effective(l);
    var a := Both(e, Walks(0, false), Rested(e), Charged(e), map[Held(1, 1) := 1]);
    var b := Both(e, Inserting(2, 0.0, true, false), Rested(e), Charged(e), map[Held(1, 1) := 1]);
    w, before := PassedTooEarly(l);
    NewestBusy(e);
    ThirdInserted(e);
    t := Step(b, Insert);
    w := Extend(w, s, a, Look, b);
    w := Extend(w, s, b, Insert, t);
  }

  /**
    The release need not follow the walk: with room for two, `0` and `1` in flight and `2` walking, the
    walk reads `0` in flight, `0` is released, and the walk reads `1` in flight and ends in vain. Three keys end
    up tracked though never more than two were in flight, and nothing was released after the walk.
   */
  lemma MidWalkRelease(l: Limits) returns (before: seq<Label>, t: State)
    ensures Run(Init(l, 2), before + [Release(0, 0), Look, Insert]) == Some(t)
    ensures t.phase.Free? && |t.core.table| == 3 && t.core.maxTracked == 2 && t.peak == 2
  {
    var w: Walk;
    w, before, t := MidWalk(l);
    LeadsIsRun(w, Init(l, 2), t);
    assert w.trace == before + [Release(0, 0), Look, Insert];
  }

  lemma NewestReleased(l: Limits)
    requires Usable(l)
    ensures Step(Both(l, Walks(0, false), Rested(l), Charged(l), map[Held(1, 1) := 1]), Release(1, 1)) ==
            Both(l, Walks(0, false), Rested(l), Rested(l), map[])
  {
    FreshPasses(l, 0.0);
    BusyTwo(Rested(l), Rested(l));
    assert map[0 := Rested(l), 1 := Charged(l)][1 := Rested(l)] == map[0 := Rested(l), 1 := Rested(l)];
    assert map[Held(1, 1) := 1] - {Held(1, 1)} == map[];
  }

  /** The newer key is looked at and evicted. */
  lemma NewestEvicted(l: Limits)
    ensures Step(Both(l, Walks(0, false), Rested(l), Rested(l), map[]), Look).core.table.Keys == {0}
  {
    var t := Both(l, Walks(0, false), Rested(l), Rested(l), map[]);
    LookCore(t);
    assert (map[0 := Rested(l), 1 := Rested(l)] - {1}).Keys == {0};
  }

  lemma BothIdle(l: Limits) returns (w: Walk)
    ensures Leads(w, Init(l, 2), Both(Effective(l), Walks(0, false), Rested(Effective(l)), Rested(Effective(l)), map[]))
  {
    var s, e := Init(l, 2), Effective(l);
    var a := Both(e, Walks(0, false), Rested(e), Charged(e), map[Held(1, 1) := 1]);
    var v, _ := PassedTooEarly(l);
    NewestReleased(e);
    w := Extend(v, s, a, Release(1, 1), Both(e, Walks(0, false), Rested(e), Rested(e), map[]));
  }

  /**
    Nor is the victim always the least recently used idle key: once `0` and then `1` are released behind the
    walk, its next look evicts `1` although `0` is idle too and was used before it.
   */
  lemma YoungerEvicted(l: Limits) returns (trace: seq<Label>, t: State)
    ensures Run(Init(l, 2), trace) == Some(t) && Enabled(t, Look)
    ensures t.core.lru == [1, 0] && Idle(t.core.table, 0) && Idle(t.core.table, 1)
    ensures Step(t, Look).core.table.Keys == {0}
  {
    var e := Effective(l);
    t := Both(e, Walks(0, false), Rested(e), Rested(e), map[]);
    var w := BothIdle(l);
    LeadsIsRun(w, Init(l, 2), t);
    trace := w.trace;
    NewestEvicted(e);
  }
}
