/** Particular runs of the limiter: an admit nobody disturbs, and those that show where its bounds end. */
module RateRuns {
  import opened Common
  import opened RateLimiter
  import opened RateProtocol

  lemma RunCons(s: State, l: Label, rest: seq<Label>)
    requires Enabled(s, l)
    ensures Run(s, [l] + rest) == Run(Step(s, l), rest)
  {
    var all := [l] + rest;
    assert all[0] == l && all[1..] == rest;
  }

  lemma {:induction false} RunAppend(s: State, a: seq<Label>, b: seq<Label>)
    requires Run(s, a).Some?
    ensures Run(s, a + b) == Run(Run(s, a).value, b)
    decreases |a|
  {
    if a == [] {
      assert a + b == b;
    } else {
      var l, rest := a[0], a[1..];
      assert a + b == [l] + (rest + b);
      RunCons(s, l, rest + b);
      RunAppend(Step(s, l), rest, b);
    }
  }

  lemma OneStep(s: State, l: Label)
    requires Enabled(s, l)
    ensures Run(s, [l]) == Some(Step(s, l))
  {
    assert [l][1..] == [];
    assert Run(Step(s, l), []) == Some(Step(s, l));
  }

  // ---------------------------------------------------------------- an undisturbed admit

  lemma LookCore(s: State)
    requires Enabled(s, Look)
    ensures Step(s, Look).core == LookStep(s).core && Step(s, Look).phase == LookStep(s).phase
  {
    PeakRises(LookStep(s));
  }

  /** Where the looks of one walk lead when nothing is released: what LastIdle says. */
  ghost predicate Walked(s: State, t: State)
    requires s.phase.Walking?
  {
    var m := LastIdle(s.core.table, s.core.lru);
    if m >= 0 then t.core == Dropped(s.core, m) && t.phase == LoopHead(t.core, s.phase.key, s.phase.now)
    else t.core == s.core && t.phase == Inserting(s.phase.key, s.phase.now, true, s.phase.calm)
  }

  lemma OneLook(s: State)
    requires Enabled(s, Look) && forall j :: s.phase.i < j < |s.core.lru| ==> !Idle(s.core.table, s.core.lru[j])
    requires Idle(s.core.table, s.core.lru[s.phase.i]) || s.phase.i == 0
    ensures Walked(s, LookStep(s))
  {
    assert LastIdle(s.core.table, s.core.lru) == if Idle(s.core.table, s.core.lru[s.phase.i]) then s.phase.i else -1;
  }

  lemma {:induction false} LooksWalk(s: State) returns (trace: seq<Label>)
    requires Enabled(s, Look) && forall j :: s.phase.i < j < |s.core.lru| ==> !Idle(s.core.table, s.core.lru[j])
    ensures forall l <- trace :: l.Look?
    ensures Run(s, trace).Some? && Walked(s, Run(s, trace).value)
    decreases s.phase.i
  {
    var t := Step(s, Look);
    LookCore(s);
    if Idle(s.core.table, s.core.lru[s.phase.i]) || s.phase.i == 0 {
      OneLook(s);
      OneStep(s, Look);
      trace := [Look];
    } else {
      var rest := LooksWalk(t);
      RunCons(s, Look, rest);
      trace := [Look] + rest;
    }
  }

  /** Looks without a release in between are evict_locked. */
  lemma {:induction false} LooksEvict(s: State, key: Key, now: real) returns (trace: seq<Label>)
    requires s.phase == LoopHead(s.core, key, now)
    ensures forall l <- trace :: l.Look?
    ensures Run(s, trace).Some?
    ensures Evicted(s.core, Run(s, trace).value, key, now)
    decreases |s.core.lru|
  {
    if s.phase.Inserting? {
      trace := [];
    } else {
      var walk := LooksWalk(s);
      var t := Run(s, walk).value;
      if t.phase.Inserting? && t.phase.vain {
        trace := walk;
      } else {
        var rest := LooksEvict(t, key, now);
        RunAppend(s, walk, rest);
        trace := walk + rest;
      }
    }
  }

  /** Ready to insert, with the table and list that the eviction function leaves. */
  ghost predicate Evicted(c: Core<Key>, t: State, key: Key, now: real) {
    && t.phase.Inserting? && t.phase.key == key && t.phase.now == now
    && (t.core.table, t.core.lru) == Evict(c.table, c.lru, c.maxTracked)
    && t.core.limits == c.limits && t.core.maxTracked == c.maxTracked
  }

  /** A miss, run to the point of insertion. */
  lemma MakesRoom(s: State, key: Key, now: real) returns (trace: seq<Label>)
    requires s.phase.Free? && key !in s.core.table
    ensures forall l <- trace :: !l.Release?
    ensures Run(s, trace).Some? && Evicted(s.core, Run(s, trace).value, key, now)
  {
    var t := Step(s, Begin(key, now));
    OneStep(s, Begin(key, now));
    assert t.core == s.core && t.phase == LoopHead(s.core, key, now);
    var looks := LooksEvict(t, key, now);
    RunAppend(s, [Begin(key, now)], looks);
    trace := [Begin(key, now)] + looks;
  }

  /** With no release meanwhile, the steps of admit compose to the whole operation. */
  lemma UndisturbedAdmit(s: State, key: Key, now: real) returns (trace: seq<Label>)
    requires s.phase.Free?
    ensures forall l <- trace :: !l.Release?
    ensures Run(s, trace).Some?
    ensures Run(s, trace).value.phase.Free? && Run(s, trace).value.core == Admit(s.core, key, now).0
  {
    if key in s.core.table {
      OneStep(s, Begin(key, now));
      trace := [Begin(key, now)];
      HitIsAdmit(s, key, now);
    } else {
      var room := MakesRoom(s, key, now);
      var u := Run(s, room).value;
      OneStep(u, Insert);
      RunAppend(s, room, [Insert]);
      trace := room + [Insert];
      InsertIsAdmit(s, u, key, now);
    }
  }

  lemma HitIsAdmit(s: State, key: Key, now: real)
    requires s.phase.Free? && key in s.core.table
    ensures var t := Step(s, Begin(key, now)); t.phase.Free? && t.core == Admit(s.core, key, now).0
  {
  }

  lemma InsertIsAdmit(s: State, u: State, key: Key, now: real)
    requires key !in s.core.table && Evicted(s.core, u, key, now)
    ensures Step(u, Insert).phase.Free? && Step(u, Insert).core == Admit(s.core, key, now).0
  {
    var (table, lru) := Evict(s.core.table, s.core.lru, s.core.maxTracked);
    assert u.core == s.core.(table := table, lru := lru);
  }

  // ---------------------------------------------------------------- runs with their states

  datatype Walk = Walk(states: seq<State>, trace: seq<Label>)

  /** The walk takes its labels one by one from `s` to `t`. */
  ghost predicate Leads(w: Walk, s: State, t: State) {
    && |w.states| == |w.trace| + 1
    && w.states[0] == s && w.states[|w.trace|] == t
    && forall i {:trigger w.trace[i]} :: 0 <= i < |w.trace| ==>
         Enabled(w.states[i], w.trace[i]) && w.states[i + 1] == Step(w.states[i], w.trace[i])
  }

  lemma Stay(s: State) returns (w: Walk)
    ensures Leads(w, s, s) && w.trace == []
  {
    w := Walk([s], []);
  }

  lemma Extend(w: Walk, s: State, t: State, l: Label, u: State) returns (v: Walk)
    requires Leads(w, s, t) && Enabled(t, l) && Step(t, l) == u
    ensures Leads(v, s, u) && v.trace == w.trace + [l]
  {
    v := Walk(w.states + [u], w.trace + [l]);
    forall i | 0 <= i < |v.trace|
      ensures Enabled(v.states[i], v.trace[i]) && v.states[i + 1] == Step(v.states[i], v.trace[i])
    {
      if i < |w.trace| {
        assert v.trace[i] == w.trace[i] && v.states[i] == w.states[i] && v.states[i + 1] == w.states[i + 1];
      }
    }
  }

  lemma {:induction false} LeadsIsRun(w: Walk, s: State, t: State)
    requires Leads(w, s, t)
    ensures Run(s, w.trace) == Some(t)
    decreases |w.trace|
  {
    if w.trace != [] {
      var l := w.trace[0];
      var rest := Walk(w.states[1..], w.trace[1..]);
      forall i | 0 <= i < |rest.trace|
        ensures Enabled(rest.states[i], rest.trace[i]) && rest.states[i + 1] == Step(rest.states[i], rest.trace[i])
      {
        assert w.trace[i + 1] == rest.trace[i];
      }
      LeadsIsRun(rest, w.states[1], t);
      RunCons(s, l, rest.trace);
      assert [l] + rest.trace == w.trace;
    }
  }

  // ---------------------------------------------------------------- a table of size one

  ghost predicate Usable(l: Limits) {
    l.rps > 0 ==> l.burst >= 1
  }

  /** A fresh entry just charged, and the same entry once its token is back. */
  function Charged(l: Limits): Slot {
    Charge(l, Fresh(l, 0.0), 0.0).0
  }

  function Rested(l: Limits): Slot {
    Charged(l).(inflight := 0)
  }

  /** Nothing tracked. */
  function Vacant(l: Limits, phase: Phase, made: nat, granted: map<nat, nat>, peak: nat): State {
    State(Core(l, 1, map[], []), phase, map[], made, map[], granted, peak)
  }

  /** Only `k` tracked, its entry at `a` the last one made, with one live token or none. */
  function Holding(l: Limits, phase: Phase, k: Key, a: nat, granted: map<nat, nat>): State {
    State(Core(l, 1, map[k := Charged(l)], [k]), phase, map[k := a], a + 1, map[Held(k, a) := 1], granted, 1)
  }

  function Resting(l: Limits, phase: Phase, k: Key, a: nat, granted: map<nat, nat>): State {
    State(Core(l, 1, map[k := Rested(l)], [k]), phase, map[k := a], a + 1, map[], granted, 1)
  }

  lemma BusyOne(k: Key, e: Slot)
    ensures Busy(map[k := e]) == if e.inflight != 0 then {k} else {}
    ensures |map[k := e]| == 1
  {
    assert map[k := e].Keys == {k};
  }

  /** The phases of an admit of `q` at time 0. */
  function Ready(q: Key): Phase {
    Inserting(q, 0.0, false, true)
  }

  lemma VacantBegins(l: Limits, k: Key, made: nat, granted: map<nat, nat>, peak: nat)
    ensures Step(Vacant(l, Free, made, granted, peak), Begin(k, 0.0)) == Vacant(l, Ready(k), made, granted, peak)
  {
    assert Busy(map[]) == {};
  }

  lemma VacantInserts(l: Limits, k: Key, a: nat, granted: map<nat, nat>, peak: nat)
    requires Usable(l) && peak <= 1
    ensures Step(Vacant(l, Ready(k), a, granted, peak), Insert) == Holding(l, Free, k, a, granted[a := 1])
  {
    FreshPasses(l, 0.0);
    BusyOne(k, Charged(l));
    assert [k] + [] == [k];
  }

  /** The token comes back, whatever admit is doing meanwhile. */
  lemma HoldingReleases(l: Limits, phase: Phase, k: Key, a: nat, granted: map<nat, nat>)
    requires Usable(l)
    ensures Step(Holding(l, phase, k, a, granted), Release(k, a)) == Resting(l, Disturbed(phase), k, a, granted)
  {
    FreshPasses(l, 0.0);
    BusyOne(k, Rested(l));
    assert map[k := Charged(l)][k := Rested(l)] == map[k := Rested(l)];
    assert map[Held(k, a) := 1] - {Held(k, a)} == map[];
  }

  lemma RestingBegins(l: Limits, k: Key, a: nat, granted: map<nat, nat>, q: Key)
    requires q != k
    ensures Step(Resting(l, Free, k, a, granted), Begin(q, 0.0)) ==
            Resting(l, Walking(q, 0.0, 0, {}, true), k, a, granted)
  {
    BusyOne(k, Rested(l));
  }

  lemma RestingEvicted(l: Limits, k: Key, a: nat, granted: map<nat, nat>, q: Key)
    ensures Step(Resting(l, Walking(q, 0.0, 0, {}, true), k, a, granted), Look) == Vacant(l, Ready(q), a + 1, granted, 1)
  {
    BusyOne(k, Rested(l));
    assert map[k := Rested(l)] - {k} == map[] && map[k := a] - {k} == map[] && RemoveAt([k], 0) == [];
    assert Busy(map[]) == {};
  }

  // ---------------------------------------------------------------- one key too many

  lemma HoldingBegins(l: Limits, k: Key, a: nat, granted: map<nat, nat>, q: Key)
    requires Usable(l) && q != k
    ensures Step(Holding(l, Free, k, a, granted), Begin(q, 0.0)) ==
            Holding(l, Walking(q, 0.0, 0, {k}, true), k, a, granted)
  {
    FreshPasses(l, 0.0);
    BusyOne(k, Charged(l));
  }

  lemma HoldingKept(l: Limits, k: Key, a: nat, granted: map<nat, nat>, q: Key)
    requires Usable(l)
    ensures Step(Holding(l, Walking(q, 0.0, 0, {k}, true), k, a, granted), Look) ==
            Holding(l, Inserting(q, 0.0, true, true), k, a, granted)
  {
    FreshPasses(l, 0.0);
    BusyOne(k, Charged(l));
  }

  lemma RestingCrowded(l: Limits, k: Key, a: nat, granted: map<nat, nat>, q: Key)
    requires Usable(l) && q != k
    ensures var t := Step(Resting(l, Inserting(q, 0.0, true, false), k, a, granted), Insert);
            t.phase.Free? && |t.core.table| == 2 && t.core.maxTracked == 1 && t.peak == 1
  {
    FreshPasses(l, 0.0);
    var table := map[k := Rested(l)][q := Charged(l)];
    assert table.Keys == {k, q} && |{k, q}| == 2;
    assert Busy(table) == {q};
  }

  lemma CrowdedWalk(l: Limits) returns (w: Walk, t: State)
    ensures Leads(w, Init(l, 1), t)
    ensures t.phase.Free? && |t.core.table| == 2 && t.core.maxTracked == 1 && t.peak == 1
  {
    var s, e, none, one := Init(l, 1), Effective(l), map[], map[][0 := 1];
    var walk, vain, late := Walking(1, 0.0, 0, {0}, true), Inserting(1, 0.0, true, true), Inserting(1, 0.0, true, false);
    VacantBegins(e, 0, 0, none, 0);
    VacantInserts(e, 0, 0, none, 0);
    HoldingBegins(e, 0, 0, one, 1);
    HoldingKept(e, 0, 0, one, 1);
    HoldingReleases(e, vain, 0, 0, one);
    RestingCrowded(e, 0, 0, one, 1);
    t := Step(Resting(e, late, 0, 0, one), Insert);
    w := Stay(s);
    w := Extend(w, s, s, Begin(0, 0.0), Vacant(e, Ready(0), 0, none, 0));
    w := Extend(w, s, Vacant(e, Ready(0), 0, none, 0), Insert, Holding(e, Free, 0, 0, one));
    w := Extend(w, s, Holding(e, Free, 0, 0, one), Begin(1, 0.0), Holding(e, walk, 0, 0, one));
    w := Extend(w, s, Holding(e, walk, 0, 0, one), Look, Holding(e, vain, 0, 0, one));
    w := Extend(w, s, Holding(e, vain, 0, 0, one), Release(0, 0), Resting(e, late, 0, 0, one));
    w := Extend(w, s, Resting(e, late, 0, 0, one), Insert, t);
  }

  /** The bound on the table's size really is one more than the peak: `0` is admitted, `1` walks in vain, `0` is
      released, `1` is inserted. Two keys end up tracked though there is room for one and never more
      than one was in flight. */
  lemma OneOverPeak(l: Limits) returns (trace: seq<Label>, t: State)
    ensures Run(Init(l, 1), trace) == Some(t)
    ensures t.phase.Free? && |t.core.table| == 2 && t.core.maxTracked == 1 && t.peak == 1
  {
    var w: Walk;
    w, t := CrowdedWalk(l);
    LeadsIsRun(w, Init(l, 1), t);
    trace := w.trace;
  }

  // ---------------------------------------------------------------- eviction forgets

  ghost predicate AtOneInstant(trace: seq<Label>) {
    forall l <- trace :: l.Begin? ==> l.now == 0.0 && l.key < 2
  }

  /** Every entry up to the one at `a` has its admission. */
  ghost predicate AllGranted(a: nat, granted: map<nat, nat>) {
    forall i: nat :: i <= a ==> i in granted && granted[i] == 1
  }

  lemma GrantOneMore(b: nat, granted: map<nat, nat>, a: nat)
    requires AllGranted(b, granted) && a == b + 1
    ensures AllGranted(a, granted[a := 1])
  {
  }

  /** The idle key gives way to the other. */
  lemma SwapOut(w: Walk, s: State, l: Limits, k: Key, b: nat, granted: map<nat, nat>, q: Key, a: nat) returns (v: Walk)
    requires q != k && q < 2 && a == b + 1
    requires Leads(w, s, Resting(l, Free, k, b, granted)) && AtOneInstant(w.trace)
    ensures Leads(v, s, Vacant(l, Ready(q), a, granted, 1)) && AtOneInstant(v.trace)
  {
    var walk := Walking(q, 0.0, 0, {}, true);
    RestingBegins(l, k, b, granted, q);
    RestingEvicted(l, k, b, granted, q);
    v := Extend(w, s, Resting(l, Free, k, b, granted), Begin(q, 0.0), Resting(l, walk, k, b, granted));
    v := Extend(v, s, Resting(l, walk, k, b, granted), Look, Vacant(l, Ready(q), a, granted, 1));
  }

  /** The key waiting to be inserted is admitted and released. */
  lemma SwapIn(w: Walk, s: State, l: Limits, q: Key, a: nat, granted: map<nat, nat>, peak: nat) returns (v: Walk)
    requires Usable(l) && peak <= 1
    requires Leads(w, s, Vacant(l, Ready(q), a, granted, peak)) && AtOneInstant(w.trace)
    ensures Leads(v, s, Resting(l, Free, q, a, granted[a := 1])) && AtOneInstant(v.trace)
  {
    var g := granted[a := 1];
    VacantInserts(l, q, a, granted, peak);
    HoldingReleases(l, Free, q, a, g);
    v := Extend(w, s, Vacant(l, Ready(q), a, granted, peak), Insert, Holding(l, Free, q, a, g));
    v := Extend(v, s, Holding(l, Free, q, a, g), Release(q, a), Resting(l, Free, q, a, g));
  }

  lemma FirstTurn(l: Limits) returns (w: Walk)
    ensures Leads(w, Init(l, 1), Resting(Effective(l), Free, 0, 0, map[][0 := 1])) && AtOneInstant(w.trace)
  {
    var s := Init(l, 1);
    VacantBegins(Effective(l), 0, 0, map[], 0);
    w := Stay(s);
    w := Extend(w, s, s, Begin(0, 0.0), Vacant(Effective(l), Ready(0), 0, map[], 0));
    w := SwapIn(w, s, Effective(l), 0, 0, map[], 0);
  }

  lemma {:induction false} TakeTurns(l: Limits, n: nat) returns (w: Walk, k: Key, granted: map<nat, nat>)
    ensures Leads(w, Init(l, 1), Resting(Effective(l), Free, k, n, granted))
    ensures AtOneInstant(w.trace) && AllGranted(n, granted) && k < 2
  {
    if n == 0 {
      w := FirstTurn(l);
      k, granted := 0, map[][0 := 1];
    } else {
      var v, j, g := TakeTurns(l, n - 1);
      k, granted := 1 - j, g[n := 1];
      GrantOneMore(n - 1, g, n);
      w := SwapOut(v, Init(l, 1), Effective(l), j, n - 1, g, k, n);
      w := SwapIn(w, Init(l, 1), Effective(l), k, n, g, 1);
    }
  }

  /**
    The rate bound needs the key to stay tracked. With room for one key, two keys that take turns are
    admitted any number of times at one instant, whatever the limits: each eviction forgets the
    drained bucket. The entries up to the one at `n` were made, and each has its admission.
   */
  lemma EvictionForgets(l: Limits, n: nat) returns (trace: seq<Label>, t: State)
    ensures Run(Init(l, 1), trace) == Some(t) && AtOneInstant(trace)
    ensures t.made == n + 1 && AllGranted(n, t.granted)
  {
    var w, k, granted := TakeTurns(l, n);
    t := Resting(Effective(l), Free, k, n, granted);
    LeadsIsRun(w, Init(l, 1), t);
    trace := w.trace;
  }
}
