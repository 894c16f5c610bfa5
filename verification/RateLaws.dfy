/** Exactly when the limiter admits, how much a bucket holds, and what the order list means. */
module RateLaws {
  import opened Common
  import opened RateLimiter
  import opened RateProtocol

  function Least2(a: real, b: real): real {
    if a < b then a else b
  }

  function Most2(a: real, b: real): real {
    if a < b then b else a
  }

  // ---------------------------------------------------------------- one call

  /** What the bucket holds at a call: what it held plus the rate times the time since the stamp, up to the burst. */
  ghost function Available(l: Limits, e: Slot, now: real): real {
    Least2(l.burst as real, e.tokens + l.rps as real * Most2(0.0, now - e.last))
  }

  /** With a rate the bucket holds at least 1, and with a cap fewer than that are `out`. */
  ghost predicate Passes(l: Limits, e: Slot, now: real, out: int) {
    (l.rps > 0 ==> Available(l, e, now) >= 1.0) && (l.maxInflight > 0 ==> out < l.maxInflight)
  }

  lemma RefillExact(l: Limits, e: Slot, now: real)
    requires SlotOk(l, e) && l.rps > 0
    ensures Refill(l, e, now) == e.(tokens := Available(l, e, now), last := Most2(e.last, now))
  {
    var r := l.rps as real;
    if now > e.last {
      assert (now - e.last) * r == r * (now - e.last);
    } else {
      assert r * 0.0 == 0.0;
    }
  }

  /** The charge of a bucket that holds `held` after the refill. */
  lemma ChargeFrom(l: Limits, e: Slot, now: real, held: real, last: real)
    requires Refill(l, e, now) == e.(tokens := held, last := last)
    ensures var (d, ok) := Charge(l, e, now);
            && (ok <==> (l.rps > 0 ==> held >= 1.0) && (l.maxInflight > 0 ==> e.inflight < l.maxInflight))
            && d == Slot(held - (if ok && l.rps > 0 then 1.0 else 0.0), last, e.inflight + if ok then 1 else 0)
  {
  }

  /**
    One call, exactly. With a rate, the bucket holds the smaller of the burst and what it held plus the rate times the
    time since the stamp; the call passes if and only if that is at least 1 and the concurrency cap, if there is
    one, is not reached; it then costs 1 and one slot, and otherwise nothing. Without a rate only the
    cap counts.
   */
  lemma ChargeExact(l: Limits, e: Slot, now: real)
    requires SlotOk(l, e)
    ensures var (d, ok) := Charge(l, e, now);
            var held := Available(l, e, now);
            && (ok <==> Passes(l, e, now, e.inflight))
            && d.inflight == e.inflight + (if ok then 1 else 0)
            && (l.rps > 0 ==> d.tokens == held - (if ok then 1.0 else 0.0) && d.last == Most2(e.last, now))
            && (l.rps <= 0 ==> d.tokens == e.tokens && d.last == e.last)
  {
    if l.rps > 0 {
      RefillExact(l, e, now);
      ChargeFrom(l, e, now, Available(l, e, now), Most2(e.last, now));
    } else {
      ChargeFrom(l, e, now, e.tokens, e.last);
    }
  }

  /**
    The level law: bucket level minus rate times stamp, plus admissions, is conserved by a call unless the bucket was
    cut to the burst, and then level plus admission is the burst.
   */
  lemma ChargeConserves(l: Limits, e: Slot, now: real)
    requires SlotOk(l, e) && l.rps > 0
    ensures var (d, ok) := Charge(l, e, now);
            var paid := if ok then 1.0 else 0.0;
            if Cut(l, e, now) then d.tokens + paid == l.burst as real else Credit(l, d) + paid == Credit(l, e)
  {
    ChargeExact(l, e, now);
    var r := l.rps as real;
    assert r * (now - e.last) == now * r - e.last * r;
  }

  /** The call finds more than the burst. */
  ghost predicate Cut(l: Limits, e: Slot, now: real) {
    e.tokens + l.rps as real * Most2(0.0, now - e.last) > l.burst as real
  }

  /** The entry of a key after `n` calls at one instant. */
  ghost function Called(l: Limits, e: Slot, now: real, n: nat): Slot {
    if n == 0 then e else Charge(l, Called(l, e, now, n - 1), now).0
  }

  lemma {:induction false} CalledHolds(l: Limits, now: real, n: nat)
    requires l.rps > 0 && l.burst >= 1 && l.maxInflight <= 0
    ensures var e := Called(l, Fresh(l, now), now, n); var used := if n < l.burst then n else l.burst;
            e == Slot((l.burst - used) as real, now, used)
  {
    if n > 0 {
      CalledHolds(l, now, n - 1);
    }
  }

  /** A new key has its whole burst: of any number of calls at the instant it appears, exactly the first `burst` pass. */
  lemma BurstAtOnce(l: Limits, now: real, n: nat)
    requires l.rps > 0 && l.burst >= 1 && l.maxInflight <= 0
    ensures Charge(l, Called(l, Fresh(l, now), now, n), now).1 <==> n < l.burst
  {
    CalledHolds(l, now, n);
  }

  /** The configured burst, or the rate when none is configured. */
  lemma BurstDefaults(l: Limits)
    ensures Effective(l).rps == l.rps && Effective(l).maxInflight == l.maxInflight
    ensures Effective(l).burst == if l.burst >= 1 then l.burst else l.rps
  {
  }

  // ---------------------------------------------------------------- admission in every reachable state

  /** The call got a token. */
  ghost predicate Admitted(s: State, t: State, k: Key)
    requires k in s.at
  {
    Count(t.live, Held(k, s.at[k])) == Count(s.live, Held(k, s.at[k])) + 1
  }

  lemma HitStep(s: State, k: Key, now: real)
    requires Inv(s) && s.phase.Free? && k in s.core.table
    ensures var t, ok := Step(s, Begin(k, now)), Charge(s.core.limits, s.core.table[k], now).1;
            && t.phase.Free? && k in s.at
            && t.live == (if ok then Grab(s.live, Held(k, s.at[k])) else s.live)
            && t.core.lru == [k] + Others(s.core.lru, k)
  {
    var (c, ok) := AdmitKnown(s.core, k, now);
    assert Step(s, Begin(k, now)) == Peaked(Hit(s, k, c, ok));
  }

  /**
    In every reachable state a call for a tracked key is admitted if and only if its bucket, filled up to the burst by the
    time since its stamp, holds at least 1, and fewer of its tokens are out than the cap. A refused call leaves no token.
   */
  lemma AdmittedIff(s: State, k: Key, now: real)
    requires Reachable(s) && s.phase.Free? && k in s.core.table
    ensures k in s.at
    ensures var t, l, e := Step(s, Begin(k, now)), s.core.limits, s.core.table[k];
            && (Admitted(s, t, k) <==> Passes(l, e, now, Count(s.live, Held(k, s.at[k]))))
            && (!Admitted(s, t, k) ==> t.live == s.live)
  {
    var l, e := s.core.limits, s.core.table[k];
    assert Inv(s) by { ReachableInv(s); }
    assert k in s.at && SlotOk(l, e) && Count(s.live, Held(k, s.at[k])) == e.inflight;
    assert Charge(l, e, now).1 <==> Passes(l, e, now, e.inflight) by { ChargeExact(l, e, now); }
    HitAdmits(s, k, now);
  }

  lemma HitAdmits(s: State, k: Key, now: real)
    requires Inv(s) && s.phase.Free? && k in s.core.table
    ensures k in s.at
    ensures var t := Step(s, Begin(k, now));
            && (Admitted(s, t, k) <==> Charge(s.core.limits, s.core.table[k], now).1)
            && (!Admitted(s, t, k) ==> t.live == s.live)
  {
    HitStep(s, k, now);
    Grabs(s.live, Step(s, Begin(k, now)).live, Held(k, s.at[k]), Charge(s.core.limits, s.core.table[k], now).1);
  }

  lemma Grabs(live: map<Held, nat>, live': map<Held, nat>, h: Held, ok: bool)
    requires live' == if ok then Grab(live, h) else live
    ensures Count(live', h) == Count(live, h) + if ok then 1 else 0
  {
  }

  /** With a rate, the stamp is at least 1/rate ago. */
  ghost predicate Rested(l: Limits, e: Slot, now: real) {
    l.rps > 0 ==> l.rps as real * (now - e.last) >= 1.0
  }

  /** A client that waits is served: a call at least 1/rate after the stamp, with nothing in flight, is never refused. */
  lemma RestedCallPasses(s: State, k: Key, now: real)
    requires Reachable(s) && s.phase.Free? && k in s.core.table && Idle(s.core.table, k)
    requires Rested(s.core.limits, s.core.table[k], now)
    ensures k in s.at && Admitted(s, Step(s, Begin(k, now)), k)
  {
    AdmittedIff(s, k, now);
    var l, e := s.core.limits, s.core.table[k];
    assert (l.rps > 0 ==> l.burst >= 1) && SlotOk(l, e) && Count(s.live, Held(k, s.at[k])) == 0 by { ReachableInv(s); }
    RestedPasses(l, e, now);
  }

  lemma RestedPasses(l: Limits, e: Slot, now: real)
    requires (l.rps > 0 ==> l.burst >= 1) && SlotOk(l, e)
    requires Rested(l, e, now)
    ensures Passes(l, e, now, 0)
  {
    if l.rps > 0 && now <= e.last {
      NotPositive(l.rps as real, now - e.last);
    }
  }

  lemma NotPositive(a: real, b: real)
    requires a > 0.0 && b <= 0.0
    ensures a * b <= 0.0
  {
  }

  /**
    A key that is not tracked is always admitted: its entry starts with a full bucket stamped now, pays for the call,
    and has one token out. Every other entry is as it was.
   */
  lemma NewKeyAdmitted(s: State)
    requires Reachable(s) && s.phase.Inserting?
    ensures var t, l, k := Step(s, Insert), s.core.limits, s.phase.key;
            && t.phase.Free? && k !in s.core.table && t.core.table.Keys == s.core.table.Keys + {k}
            && t.core.table[k] == Slot((if l.rps > 0 then l.burst - 1 else l.burst) as real, s.phase.now, 1)
            && (forall j <- s.core.table :: t.core.table[j] == s.core.table[j])
            && t.live == s.live[Held(k, s.made) := 1]
  {
    var l, k, now := s.core.limits, s.phase.key, s.phase.now;
    assert k !in s.core.table && Held(k, s.made) !in s.live && (l.rps > 0 ==> l.burst >= 1) by { ReachableInv(s); }
    var e := Slot((if l.rps > 0 then l.burst - 1 else l.burst) as real, now, 1);
    assert AdmitNew(s.core, k, now) == (s.core.(table := s.core.table[k := e], lru := [k] + s.core.lru), true) by {
      FreshCharged(l, now);
    }
    MadeNew(s, e);
  }

  lemma MadeNew(s: State, e: Slot)
    requires s.phase.Inserting? && s.phase.key !in s.core.table && Held(s.phase.key, s.made) !in s.live
    requires AdmitNew(s.core, s.phase.key, s.phase.now) ==
             (s.core.(table := s.core.table[s.phase.key := e], lru := [s.phase.key] + s.core.lru), true)
    ensures var t, k := Step(s, Insert), s.phase.key;
            && t.phase.Free? && t.core.table == s.core.table[k := e] && t.live == s.live[Held(k, s.made) := 1]
  {
  }

  lemma FreshCharged(l: Limits, now: real)
    requires l.rps > 0 ==> l.burst >= 1
    ensures Charge(l, Fresh(l, now), now) == (Slot((if l.rps > 0 then l.burst - 1 else l.burst) as real, now, 1), true)
  {
  }

  /** No call for `k` in the run finds more than the burst. */
  ghost predicate NeverCut(s: State, trace: seq<Label>, k: Key)
    decreases |trace|
  {
    trace == [] || !Enabled(s, trace[0]) ||
    (&& (trace[0].Begin? && trace[0].key == k && k in s.core.table ==> !Cut(s.core.limits, s.core.table[k], trace[0].now))
     && NeverCut(Step(s, trace[0]), trace[1..], k))
  }

  ghost predicate Conserves(s: State, t: State, k: Key, a: nat)
    requires Points(s, k, a) && Points(t, k, a)
  {
    Credit(s.core.limits, t.core.table[k]) + Granted(t.granted, a) as real ==
    Credit(s.core.limits, s.core.table[k]) + Granted(s.granted, a) as real
  }

  lemma StepConserves(s: State, l: Label, k: Key, a: nat)
    requires Inv(s) && Enabled(s, l) && s.core.limits.rps > 0 && Points(s, k, a) && Points(Step(s, l), k, a)
    requires l.Begin? && l.key == k ==> !Cut(s.core.limits, s.core.table[k], l.now)
    ensures Conserves(s, Step(s, l), k, a)
  {
    if l.Begin? && l.key == k {
      OwnCallConserves(s, l.now, k, a);
    } else {
      OtherStepQuiet(s, l, k, a);
      QuietConserves(s, Step(s, l), k, a);
    }
  }

  lemma QuietConserves(s: State, t: State, k: Key, a: nat)
    requires Points(s, k, a) && Points(t, k, a) && Quiet(s, t, k, a)
    ensures Conserves(s, t, k, a)
  {
  }

  lemma OwnCallConserves(s: State, now: real, k: Key, a: nat)
    requires Inv(s) && s.phase.Free? && s.core.limits.rps > 0 && Points(s, k, a)
    requires !Cut(s.core.limits, s.core.table[k], now)
    ensures Points(Step(s, Begin(k, now)), k, a) && Conserves(s, Step(s, Begin(k, now)), k, a)
  {
    ChargeConserves(s.core.limits, s.core.table[k], now);
    var (e, ok) := Charge(s.core.limits, s.core.table[k], now);
    var t := Step(s, Begin(k, now));
    assert t.core.table[k] == e;
    assert Granted(t.granted, a) == Granted(s.granted, a) + if ok then 1 else 0;
  }

  lemma {:induction false} RunConserves(s: State, trace: seq<Label>, k: Key, a: nat)
    requires Inv(s) && Run(s, trace).Some? && s.core.limits.rps > 0 && NeverCut(s, trace, k)
    requires Points(s, k, a) && Points(Run(s, trace).value, k, a)
    ensures Conserves(s, Run(s, trace).value, k, a)
    decreases |trace|
  {
    if trace != [] {
      var t := Step(s, trace[0]);
      StepKeeps(s, trace[0]);
      StepFixed(s, trace[0]);
      if !Points(t, k, a) {
        RunGone(t, trace[1..], k, a);
        assert false;
      }
      StepConserves(s, trace[0], k, a);
      RunConserves(t, trace[1..], k, a);
    }
  }

  /** What the bucket lost plus the rate times how far its stamp advanced. */
  ghost predicate ExactRate(l: Limits, d: Slot, e: Slot, n: int) {
    n as real == d.tokens - e.tokens + l.rps as real * (e.last - d.last)
  }

  /**
    Nothing is withheld: over any stretch of any run in which the key stays tracked and its bucket is never cut, the
    admissions are exactly what the bucket lost plus the rate times how far its stamp advanced.
   */
  lemma AdmissionsExact(s: State, trace: seq<Label>, k: Key, a: nat)
    requires Reachable(s) && Run(s, trace).Some? && s.core.limits.rps > 0 && NeverCut(s, trace, k)
    requires Points(s, k, a) && Points(Run(s, trace).value, k, a)
    ensures var d, t := s.core.table[k], Run(s, trace).value;
            ExactRate(s.core.limits, d, t.core.table[k], Granted(t.granted, a) - Granted(s.granted, a))
  {
    var t := Run(s, trace).value;
    assert Conserves(s, t, k, a) by {
      ReachableInv(s);
      RunConserves(s, trace, k, a);
    }
    ExactFrom(s.core.limits, s.core.table[k], t.core.table[k], Granted(s.granted, a), Granted(t.granted, a));
  }

  lemma ExactFrom(l: Limits, d: Slot, e: Slot, m: nat, n: nat)
    requires Credit(l, e) + n as real == Credit(l, d) + m as real
    ensures ExactRate(l, d, e, n - m)
  {
    var r := l.rps as real;
    assert r * (e.last - d.last) == e.last * r - d.last * r;
  }

  // ---------------------------------------------------------------- the order list

  /** The key a step uses: the hit, or the key inserted. */
  function Used(s: State, l: Label): seq<Key>
    requires Enabled(s, l)
  {
    match l
    case Begin(key, _) => if key in s.core.table then [key] else []
    case Insert => [s.phase.key]
    case _ => []
  }

  /** The keys used along a run, in order. */
  ghost function Uses(s: State, trace: seq<Label>): seq<Key>
    decreases |trace|
  {
    if trace == [] || !Enabled(s, trace[0]) then [] else Used(s, trace[0]) + Uses(Step(s, trace[0]), trace[1..])
  }

  /** The position of the last use, or -1. */
  function LastUse(uses: seq<Key>, k: Key): (i: int)
    ensures -1 <= i < |uses|
  {
    if uses == [] then -1 else if uses[|uses| - 1] == k then |uses| - 1 else LastUse(uses[..|uses| - 1], k)
  }

  lemma LastUseAfter(uses: seq<Key>, key: Key, k: Key)
    ensures LastUse(uses + [key], k) == if k == key then |uses| else LastUse(uses, k)
  {
    assert (uses + [key])[..|uses|] == uses;
  }

  /** The list holds the tracked keys by last use, the latest first. */
  ghost predicate ByLastUse(lru: seq<Key>, uses: seq<Key>) {
    && (forall a :: 0 <= a < |lru| ==> LastUse(uses, lru[a]) >= 0)
    && (forall a, b :: 0 <= a < b < |lru| ==> LastUse(uses, lru[a]) > LastUse(uses, lru[b]))
  }

  lemma {:induction false} OthersByLastUse(lru: seq<Key>, uses: seq<Key>, key: Key)
    requires ByLastUse(lru, uses)
    ensures ByLastUse(Others(lru, key), uses)
    ensures forall k <- Others(lru, key) :: k != key && k in lru
  {
    if lru != [] {
      var rest := lru[1..];
      assert ByLastUse(rest, uses) by {
        assert forall a :: 0 <= a < |rest| ==> rest[a] == lru[a + 1];
      }
      OthersByLastUse(rest, uses, key);
      var o := Others(rest, key);
      forall k <- o ensures LastUse(uses, lru[0]) > LastUse(uses, k) {
        assert k in rest;
        var i :| 0 <= i < |rest| && rest[i] == k;
        assert lru[i + 1] == k;
      }
      if lru[0] != key {
        ConsByLastUse(lru[0], o, uses);
      }
    }
  }

  lemma ConsByLastUse(first: Key, o: seq<Key>, uses: seq<Key>)
    requires ByLastUse(o, uses) && LastUse(uses, first) >= 0 && forall k <- o :: LastUse(uses, first) > LastUse(uses, k)
    ensures ByLastUse([first] + o, uses)
  {
    var r := [first] + o;
    assert forall a :: 0 < a < |r| ==> r[a] == o[a - 1] && o[a - 1] in o;
  }

  /** A key is used: it goes to the front of the others. */
  lemma FrontByLastUse(others: seq<Key>, uses: seq<Key>, key: Key)
    requires ByLastUse(others, uses) && key !in others
    ensures ByLastUse([key] + others, uses + [key])
  {
    var lru, all := [key] + others, uses + [key];
    forall a | 0 <= a < |lru| ensures LastUse(all, lru[a]) == if a == 0 then |uses| else LastUse(uses, others[a - 1]) {
      LastUseAfter(uses, key, lru[a]);
      assert a > 0 ==> lru[a] == others[a - 1] && others[a - 1] in others;
    }
  }

  lemma RemoveByLastUse(lru: seq<Key>, uses: seq<Key>, i: nat)
    requires ByLastUse(lru, uses) && i < |lru|
    ensures ByLastUse(RemoveAt(lru, i), uses)
  {
    var r := RemoveAt(lru, i);
    assert forall a :: 0 <= a < |r| ==> r[a] == lru[if a < i then a else a + 1];
  }

  lemma StepByLastUse(s: State, l: Label, uses: seq<Key>)
    requires Inv(s) && Enabled(s, l) && ByLastUse(s.core.lru, uses)
    ensures ByLastUse(Step(s, l).core.lru, uses + Used(s, l))
  {
    assert uses + [] == uses;
    match l
    case Begin(key, now) =>
      if key in s.core.table {
        HitStep(s, key, now);
        OthersByLastUse(s.core.lru, uses, key);
        FrontByLastUse(Others(s.core.lru, key), uses, key);
      }
    case Insert =>
      InsertList(s);
      FrontByLastUse(s.core.lru, uses, s.phase.key);
    case Look =>
      LookList(s);
      if Idle(s.core.table, s.core.lru[s.phase.i]) {
        RemoveByLastUse(s.core.lru, uses, s.phase.i);
      }
    case Release(key, addr) => PeakRises(ReleaseStep(s, key, addr));
  }

  lemma InsertList(s: State)
    requires Inv(s) && s.phase.Inserting?
    ensures Step(s, Insert).core.lru == [s.phase.key] + s.core.lru && s.phase.key !in s.core.lru
  {
    var (c, ok) := AdmitNew(s.core, s.phase.key, s.phase.now);
    assert Step(s, Insert) == Peaked(Made(s, s.phase.key, c, ok));
  }

  lemma LookList(s: State)
    requires Enabled(s, Look)
    ensures Step(s, Look).core.lru ==
            if Idle(s.core.table, s.core.lru[s.phase.i]) then RemoveAt(s.core.lru, s.phase.i) else s.core.lru
  {
    PeakRises(LookStep(s));
  }

  lemma {:induction false} RunByLastUse(s: State, trace: seq<Label>, uses: seq<Key>)
    requires Inv(s) && ByLastUse(s.core.lru, uses) && Run(s, trace).Some?
    ensures ByLastUse(Run(s, trace).value.core.lru, uses + Uses(s, trace))
    decreases |trace|
  {
    if trace == [] {
      assert uses + [] == uses;
    } else {
      StepKeeps(s, trace[0]);
      StepByLastUse(s, trace[0], uses);
      var t := Step(s, trace[0]);
      RunByLastUse(t, trace[1..], uses + Used(s, trace[0]));
      Associates(uses, Used(s, trace[0]), Uses(t, trace[1..]));
    }
  }

  /**
    After every run the order list holds the tracked keys by their last admission attempt, the latest first: what
    the eviction walk takes for least recently used is.
   */
  lemma ListIsByLastUse(l: Limits, n: nat, trace: seq<Label>)
    requires Run(Init(l, n), trace).Some?
    ensures var s, uses := Run(Init(l, n), trace).value, Uses(Init(l, n), trace);
            && (forall k <- s.core.table :: k in s.core.lru)
            && (forall a, b :: 0 <= a < b < |s.core.lru| ==> LastUse(uses, s.core.lru[a]) > LastUse(uses, s.core.lru[b]) >= 0)
  {
    var i := Init(l, n);
    RunKeeps(i, trace);
    RunByLastUse(i, trace, []);
    assert [] + Uses(i, trace) == Uses(i, trace);
  }
}
