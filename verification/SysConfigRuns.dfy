/**
  Runs in which a removed entry comes back, which is why RemovedStaysRemoved asks what it asks, and one
  in which an abandoned remove keeps a stale entry through a whole round.
 */
module SysConfigRuns {
  import opened Common
  import opened SysConfigStore
  import opened SysConfigProtocol

  lemma {:induction false} RunAppend(s: State, a: seq<Label>, b: seq<Label>)
    requires Run(s, a).Some?
    ensures Run(s, a + b) == Run(Run(s, a).value, b)
    decreases |a|
  {
    if a == [] {
      assert a + b == b;
    } else {
      assert (a + b)[1..] == a[1..] + b;
      RunAppend(Step(s, a[0]), a[1..], b);
    }
  }

  lemma Extend(s: State, l: Label, t: State)
    requires Reachable(s) && Enabled(s, l) && t == Step(s, l)
    ensures Reachable(t)
  {
    var i: State, trace: seq<Label> :| IsInit(i) && Run(i, trace) == Some(s);
    RunAppend(i, trace, [l]);
    assert [l][1..] == [];
    assert Run(t, []) == Some(t);
    assert Run(i, trace + [l]) == Some(t);
  }

  /** One gateway with key 7 in storage or not, and the given operations under way. */
  function Scene(stored: bool, gw: Gateway, ops: map<nat, Op>, nextOp: nat, now: real): State {
    State(if stored then map[7 := Good(5)] else map[], true, map[0 := gw], ops, nextOp, now)
  }

  const HasKey: Gateway := Gateway(map[7 := 5], map[7 := 5], map[])
  const HasTomb: Gateway := Gateway(map[7 := 5], map[7 := 5], map[7 := 0.0])
  const Lacks: Gateway := Gateway(map[], map[], map[7 := 0.0])

  /** The sync of key 7, at its start and with the key fetched. */
  const AtStart: Op := SyncOp(0, {7}, false, None, {}, map[], false)
  const WithKey: Op := SyncOp(0, {7}, true, Some(9), {}, map[7 := 5], true)

  lemma Scene1()
    ensures Reachable(Scene(true, HasKey, map[0 := AtStart], 1, 0.0))
  {
    var s := State(map[7 := Good(5)], true, map[], map[], 0, 0.0);
    assert Run(s, []) == Some(s);
    var t := Scene(true, HasKey, map[], 0, 0.0);
    Extend(s, Start(0, map[7 := 5]), t);
    assert HasKey.entries.Keys == {7};
    Extend(t, BeginSync(0), Scene(true, HasKey, map[0 := AtStart], 1, 0.0));
  }

  lemma Scene2()
    ensures Reachable(Scene(true, HasKey, map[0 := AtStart.(checked := true, cursor := Some(9), todo := {7}, last := true)], 1, 0.0))
  {
    Scene1();
    var s := Scene(true, HasKey, map[0 := AtStart], 1, 0.0);
    var t := Scene(true, HasKey, map[0 := AtStart.(checked := true)], 1, 0.0);
    assert s.ops[0 := t.ops[0]] == t.ops;
    Extend(s, SyncCheck(0), t);
    assert Page(t.store, None, 9, true) == {7};
    var u := t.ops[0].(cursor := Some(9), todo := {7}, last := true);
    assert t.ops[0 := u] == map[0 := u];
    Extend(t, SyncList(0, 9, true), Scene(true, HasKey, map[0 := u], 1, 0.0));
  }

  lemma Scene3()
    ensures Reachable(Scene(true, HasKey, map[0 := WithKey], 1, 0.0))
  {
    Scene2();
    var s := Scene(true, HasKey, map[0 := AtStart.(checked := true, cursor := Some(9), todo := {7}, last := true)], 1, 0.0);
    assert Collect(s.ops[0], s.store, 7) == WithKey by {
      assert {7} - {7} == {};
    }
    assert s.ops[0 := WithKey] == map[0 := WithKey];
    Extend(s, SyncFetch(0, 7), Scene(true, HasKey, map[0 := WithKey], 1, 0.0));
  }

  lemma Scene4()
    ensures Reachable(Scene(false, HasTomb, map[0 := WithKey, 1 := RemoveOp(0, 7, true)], 2, 0.0))
  {
    Scene3();
    var s := Scene(true, HasKey, map[0 := WithKey], 1, 0.0);
    var t := Scene(true, HasTomb, map[0 := WithKey, 1 := RemoveOp(0, 7, false)], 2, 0.0);
    assert s.ops[1 := RemoveOp(0, 7, false)] == t.ops && s.gws[0 := HasTomb] == t.gws;
    Extend(s, BeginRemove(0, 7), t);
    assert t.store - {7} == map[];
    assert t.ops[1 := RemoveOp(0, 7, true)] == map[0 := WithKey, 1 := RemoveOp(0, 7, true)];
    Extend(t, Delete(1), Scene(false, HasTomb, map[0 := WithKey, 1 := RemoveOp(0, 7, true)], 2, 0.0));
  }

  /** remove(7) has finished while the sync that fetched 7 before is still under way. */
  lemma Scene5()
    ensures Reachable(Scene(false, Lacks, map[0 := WithKey], 2, 0.0))
  {
    Scene4();
    var s := Scene(false, HasTomb, map[0 := WithKey, 1 := RemoveOp(0, 7, true)], 2, 0.0);
    assert HasTomb.entries - {7} == map[];
    assert s.ops - {1} == map[0 := WithKey] && s.gws[0 := Lacks] == map[0 := Lacks];
    Extend(s, FinishRemove(1), Scene(false, Lacks, map[0 := WithKey], 2, 0.0));
  }

  /** The same with a second remove(7) begun. */
  lemma Scene6()
    ensures Reachable(Scene(false, Lacks, map[0 := WithKey, 2 := RemoveOp(0, 7, false)], 3, 0.0))
  {
    Scene5();
    var s := Scene(false, Lacks, map[0 := WithKey], 2, 0.0);
    assert s.ops[2 := RemoveOp(0, 7, false)] == map[0 := WithKey, 2 := RemoveOp(0, 7, false)];
    assert Lacks.tombs[7 := 0.0] == Lacks.tombs && s.gws[0 := Lacks] == map[0 := Lacks];
    Extend(s, BeginRemove(0, 7), Scene(false, Lacks, map[0 := WithKey, 2 := RemoveOp(0, 7, false)], 3, 0.0));
  }

  /** Each proviso is needed: a second remove whose delete fails drops the first one's tombstone ... */
  lemma FailedRemoveUncoversStaleSync() returns (s: State)
    ensures Reachable(s) && 7 !in s.store && 0 in s.gws && 7 !in s.gws[0].entries
    ensures Enabled(s, DeleteFail(2)) && Enabled(Step(s, DeleteFail(2)), SyncApply(0))
    ensures 7 in Step(Step(s, DeleteFail(2)), SyncApply(0)).gws[0].entries
  {
    Scene6();
    s := Scene(false, Lacks, map[0 := WithKey, 2 := RemoveOp(0, 7, false)], 3, 0.0);
  }

  /** ... a sync that applies after the TTL brings the entry back ... */
  lemma ExpiredTombstoneUncoversStaleSync() returns (s: State)
    ensures Reachable(s) && 7 !in s.store && 0 in s.gws && 7 !in s.gws[0].entries
    ensures Enabled(s, SyncApply(0)) && 7 in Step(s, SyncApply(0)).gws[0].entries
  {
    Scene5();
    s := Scene(false, Lacks, map[0 := WithKey], 2, 301.0);
    Extend(Scene(false, Lacks, map[0 := WithKey], 2, 0.0), Tick(301.0), s);
  }

  const Fresh: Gateway := Gateway(map[], map[], map[])

  /** put(7) has written and not yet reached its lock section. */
  lemma Scene7()
    ensures Reachable(Scene(true, Fresh, map[0 := PutOp(0, 7, 5, true)], 1, 0.0))
  {
    var s := State(map[], true, map[], map[], 0, 0.0);
    assert Run(s, []) == Some(s);
    var t := Scene(false, Fresh, map[], 0, 0.0);
    Extend(s, Start(0, map[]), t);
    var u := Scene(false, Fresh, map[0 := PutOp(0, 7, 5, false)], 1, 0.0);
    Extend(t, BeginPut(0, 7, 5), u);
    assert u.ops[0 := PutOp(0, 7, 5, true)] == map[0 := PutOp(0, 7, 5, true)];
    Extend(u, PutWrite(0), Scene(true, Fresh, map[0 := PutOp(0, 7, 5, true)], 1, 0.0));
  }

  lemma Scene8()
    ensures Reachable(Scene(false, Lacks, map[0 := PutOp(0, 7, 5, true), 1 := RemoveOp(0, 7, true)], 2, 0.0))
  {
    Scene7();
    var s := Scene(true, Fresh, map[0 := PutOp(0, 7, 5, true)], 1, 0.0);
    var t := Scene(true, Lacks, map[0 := PutOp(0, 7, 5, true), 1 := RemoveOp(0, 7, false)], 2, 0.0);
    assert s.ops[1 := RemoveOp(0, 7, false)] == t.ops && s.gws[0 := Lacks] == t.gws;
    Extend(s, BeginRemove(0, 7), t);
    assert t.store - {7} == map[];
    assert t.ops[1 := RemoveOp(0, 7, true)] == map[0 := PutOp(0, 7, 5, true), 1 := RemoveOp(0, 7, true)];
    Extend(t, Delete(1), Scene(false, Lacks, map[0 := PutOp(0, 7, 5, true), 1 := RemoveOp(0, 7, true)], 2, 0.0));
  }

  /** ... and so does a put that wrote before the delete and reaches its lock section after the remove. */
  lemma LatePutBringsItBack() returns (s: State)
    ensures Reachable(s) && 7 !in s.store && 0 in s.gws && 7 !in s.gws[0].entries
    ensures Enabled(s, PutFinish(0))
    ensures var gw := Step(s, PutFinish(0)).gws[0]; 7 in gw.entries && 7 in gw.snap && 7 !in gw.tombs
  {
    Scene8();
    var t := Scene(false, Lacks, map[0 := PutOp(0, 7, 5, true), 1 := RemoveOp(0, 7, true)], 2, 0.0);
    s := Scene(false, Lacks, map[0 := PutOp(0, 7, 5, true)], 2, 0.0);
    assert t.ops - {1} == s.ops && t.gws[0 := Lacks] == s.gws;
    Extend(t, FinishRemove(1), s);
  }

  /** The sync that fetched 7 is under way, and so is a put of 7 that has written. */
  lemma Scene9()
    ensures Reachable(Scene(true, HasKey, map[0 := WithKey, 1 := PutOp(0, 7, 5, true)], 2, 0.0))
  {
    Scene3();
    var s := Scene(true, HasKey, map[0 := WithKey], 1, 0.0);
    var t := Scene(true, HasKey, map[0 := WithKey, 1 := PutOp(0, 7, 5, false)], 2, 0.0);
    assert s.ops[1 := PutOp(0, 7, 5, false)] == t.ops;
    Extend(s, BeginPut(0, 7, 5), t);
    var u := Scene(true, HasKey, map[0 := WithKey, 1 := PutOp(0, 7, 5, true)], 2, 0.0);
    assert t.ops[1 := PutOp(0, 7, 5, true)] == u.ops && t.store[7 := Good(5)] == u.store;
    Extend(t, PutWrite(1), u);
  }

  /** remove(7) has begun ... */
  lemma Scene10()
    ensures Reachable(Scene(true, HasTomb, map[0 := WithKey, 1 := PutOp(0, 7, 5, true), 2 := RemoveOp(0, 7, false)], 3, 0.0))
  {
    Scene9();
    var s := Scene(true, HasKey, map[0 := WithKey, 1 := PutOp(0, 7, 5, true)], 2, 0.0);
    var t := Scene(true, HasTomb, map[0 := WithKey, 1 := PutOp(0, 7, 5, true), 2 := RemoveOp(0, 7, false)], 3, 0.0);
    assert s.ops[2 := RemoveOp(0, 7, false)] == t.ops && s.gws[0 := HasTomb] == t.gws;
    Extend(s, BeginRemove(0, 7), t);
  }

  /** ... the put has finished and erased its tombstone ... */
  lemma Scene11()
    ensures Reachable(Scene(true, HasKey, map[0 := WithKey, 2 := RemoveOp(0, 7, false)], 3, 0.0))
  {
    Scene10();
    var t := Scene(true, HasTomb, map[0 := WithKey, 1 := PutOp(0, 7, 5, true), 2 := RemoveOp(0, 7, false)], 3, 0.0);
    var u := Scene(true, HasKey, map[0 := WithKey, 2 := RemoveOp(0, 7, false)], 3, 0.0);
    assert t.ops - {1} == u.ops && t.gws[0 := HasKey] == u.gws;
    assert HasTomb.entries[7 := 5] == HasKey.entries && HasTomb.tombs - {7} == map[];
    Extend(t, PutFinish(1), u);
  }

  /** ... the remove has deleted ... */
  lemma Scene12()
    ensures Reachable(Scene(false, HasKey, map[0 := WithKey, 2 := RemoveOp(0, 7, true)], 3, 0.0))
  {
    Scene11();
    var r := Scene(true, HasKey, map[0 := WithKey, 2 := RemoveOp(0, 7, false)], 3, 0.0);
    var t := Scene(false, HasKey, map[0 := WithKey, 2 := RemoveOp(0, 7, true)], 3, 0.0);
    assert r.store - {7} == map[] && r.ops[2 := RemoveOp(0, 7, true)] == t.ops;
    Extend(r, Delete(2), t);
  }

  /** ... and finished. */
  lemma Scene13()
    ensures Reachable(Scene(false, Fresh, map[0 := WithKey], 3, 0.0))
  {
    Scene12();
    var t := Scene(false, HasKey, map[0 := WithKey, 2 := RemoveOp(0, 7, true)], 3, 0.0);
    var u := Scene(false, Fresh, map[0 := WithKey], 3, 0.0);
    assert t.ops - {2} == u.ops && t.gws[0 := Fresh] == u.gws && HasKey.entries - {7} == map[];
    Extend(t, FinishRemove(2), u);
  }

  /** A put that finishes during the remove is as bad: it erases the tombstone that holds back the stale sync. */
  lemma PutDuringRemoveUncoversStaleSync() returns (s: State)
    ensures Reachable(s) && 7 !in s.store && 0 in s.gws && 7 !in s.gws[0].entries && s.now == 0.0
    ensures Enabled(s, SyncApply(0)) && 7 in Step(s, SyncApply(0)).gws[0].entries
  {
    Scene13();
    s := Scene(false, Fresh, map[0 := WithKey], 3, 0.0);
  }

  // ---------------------------------------------------------------- an abandoned remove

  /** Storage holds 6 under key 7 and the gateway's table still 5, its tombstone set at time 0. */
  function Stale(tombs: map<nat, real>, ops: map<nat, Op>, nextOp: nat): State {
    State(map[7 := Good(6)], true, map[0 := Gateway(map[7 := 5], map[7 := 5], tombs)], ops, nextOp, 0.0)
  }

  lemma Removing()
    ensures Reachable(Stale(map[7 := 0.0], map[0 := RemoveOp(0, 7, false)], 1))
  {
    var i := State(map[7 := Good(6)], true, map[], map[], 0, 0.0);
    assert Run(i, []) == Some(i);
    var s := Stale(map[], map[], 0);
    Extend(i, Start(0, map[7 := 5]), s);
    var t := Stale(map[7 := 0.0], map[0 := RemoveOp(0, 7, false)], 1);
    assert s.gws[0 := t.gws[0]] == t.gws && s.ops[0 := t.ops[0]] == t.ops;
    Extend(s, BeginRemove(0, 7), t);
  }

  /** remove(7) began and ended by an exception its handler does not catch. */
  lemma Abandoned()
    ensures Reachable(Stale(map[7 := 0.0], map[], 1))
  {
    Removing();
    var t := Stale(map[7 := 0.0], map[0 := RemoveOp(0, 7, false)], 1);
    assert t.ops - {0} == map[];
    Extend(t, RemoveAbort(0), Stale(map[7 := 0.0], map[], 1));
  }

  /** The sync of the round, listed and fetched. */
  const Listing: Op := SyncOp(0, {7}, true, Some(9), {7}, map[], true)
  const Fetched: Op := SyncOp(0, {7}, true, Some(9), {}, map[7 := 6], true)

  lemma RoundStarts()
    ensures Step(Stale(map[7 := 0.0], map[], 1), BeginSync(0)) == Stale(map[7 := 0.0], map[1 := AtStart], 2)
  {
    assert map[7 := 5].Keys == {7};
  }

  lemma RoundChecks()
    ensures Step(Stale(map[7 := 0.0], map[1 := AtStart], 2), SyncCheck(1)) ==
            Stale(map[7 := 0.0], map[1 := AtStart.(checked := true)], 2)
  {
    assert map[1 := AtStart][1 := AtStart.(checked := true)] == map[1 := AtStart.(checked := true)];
  }

  lemma RoundLists()
    ensures Step(Stale(map[7 := 0.0], map[1 := AtStart.(checked := true)], 2), SyncList(1, 9, true)) ==
            Stale(map[7 := 0.0], map[1 := Listing], 2)
  {
    var s := Stale(map[7 := 0.0], map[1 := AtStart.(checked := true)], 2);
    assert Page(s.store, None, 9, true) == {7};
    assert s.ops[1 := Listing] == map[1 := Listing];
  }

  lemma RoundFetches()
    ensures Step(Stale(map[7 := 0.0], map[1 := Listing], 2), SyncFetch(1, 7)) == Stale(map[7 := 0.0], map[1 := Fetched], 2)
  {
    var s := Stale(map[7 := 0.0], map[1 := Listing], 2);
    assert {7} - {7} == {};
    assert Collect(Listing, s.store, 7) == Fetched;
    assert s.ops[1 := Fetched] == map[1 := Fetched];
  }

  lemma RoundApplies()
    ensures Step(Stale(map[7 := 0.0], map[1 := Fetched], 2), SyncApply(1)) == Stale(map[7 := 0.0], map[], 2)
  {
    var s := Stale(map[7 := 0.0], map[1 := Fetched], 2);
    assert Unexpired(map[7 := 0.0], 0.0) == map[7 := 0.0];
    assert Merged(map[7 := 5], map[7 := 0.0], {7}, map[7 := 6]) == map[7 := 5];
    assert s.ops - {1} == map[] && s.gws[0 := s.gws[0]] == s.gws;
  }

  /** The run from `s` to `t` is quiet for gateway 0 and completes a round of it. */
  ghost predicate Completes(s: State, trace: seq<Label>, t: State) {
    Run(s, trace) == Some(t) && AllQuiet(s, trace, 0) && Applies(s, trace, 0)
  }

  lemma RoundEnds(s: State, op: nat, t: State) returns (trace: seq<Label>)
    requires Enabled(s, SyncApply(op)) && s.ops[op].g == 0 && Step(s, SyncApply(op)) == t
    ensures Completes(s, trace, t)
  {
    trace := [SyncApply(op)];
    assert trace[1..] == [] && Run(t, []) == Some(t);
  }

  lemma RoundStep(s: State, l: Label, t: State, rest: seq<Label>, u: State) returns (trace: seq<Label>)
    requires Enabled(s, l) && Quiet(s, l, 0) && Step(s, l) == t && Completes(t, rest, u)
    ensures Completes(s, trace, u)
  {
    trace := [l] + rest;
    assert trace[0] == l && trace[1..] == rest;
  }

  lemma RoundFrom() returns (trace: seq<Label>)
    ensures Completes(Stale(map[7 := 0.0], map[1 := AtStart.(checked := true)], 2), trace, Stale(map[7 := 0.0], map[], 2))
  {
    var t := Stale(map[7 := 0.0], map[], 2);
    var b := Stale(map[7 := 0.0], map[1 := AtStart.(checked := true)], 2);
    var c, d := Stale(map[7 := 0.0], map[1 := Listing], 2), Stale(map[7 := 0.0], map[1 := Fetched], 2);
    RoundLists();
    RoundFetches();
    RoundApplies();
    trace := RoundEnds(d, 1, t);
    trace := RoundStep(c, SyncFetch(1, 7), d, trace, t);
    trace := RoundStep(b, SyncList(1, 9, true), c, trace, t);
  }

  lemma WholeRound() returns (trace: seq<Label>)
    ensures Completes(Stale(map[7 := 0.0], map[], 1), trace, Stale(map[7 := 0.0], map[], 2))
  {
    var s, t := Stale(map[7 := 0.0], map[], 1), Stale(map[7 := 0.0], map[], 2);
    var a, b := Stale(map[7 := 0.0], map[1 := AtStart], 2), Stale(map[7 := 0.0], map[1 := AtStart.(checked := true)], 2);
    RoundStarts();
    RoundChecks();
    trace := RoundFrom();
    trace := RoundStep(a, SyncCheck(1), b, trace, t);
    trace := RoundStep(s, BeginSync(0), a, trace, t);
  }

  /**
    A remove that an exception other than S3Error ends leaves its tombstone over an entry that is still in
    the table, and a whole quiet round of the gateway keeps that entry, stale as it is: the table has 5
    where storage has 6.
   */
  lemma AbandonedRemoveKeepsStaleEntry() returns (s: State, trace: seq<Label>, t: State)
    ensures Reachable(s) && 0 in s.gws && Rests(s.ops, 0) && Completes(s, trace, t)
    ensures 0 in t.gws && t.gws[0].entries == map[7 := 5] && t.gws[0].tombs == map[7 := 0.0]
    ensures t.store == map[7 := Good(6)]
  {
    Abandoned();
    trace := WholeRound();
    s, t := Stale(map[7 := 0.0], map[], 1), Stale(map[7 := 0.0], map[], 2);
  }
}
