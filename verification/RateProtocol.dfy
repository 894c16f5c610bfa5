/**
  Every interleaving of admit and token release. admit holds the limiter's mutex from start to end,
  but a token is released without it, so a release can land anywhere inside: between two looks of the
  eviction walk, between two walks, and between the last walk and the insertion. The steps are the
  lookup with its hit path, one look of the walk at one key, the insertion, and the release. Inside
  the hit path a release has the effect of one just before it (ReleaseBeforeIncrement).
 */
module RateProtocol {
  import opened Common
  import opened RateLimiter

  type Key = nat

  /** What a token holds: a pointer to the entry at `addr`, made for `key`. */
  datatype Held = Held(key: Key, addr: nat)

  /**
    Where the admit holding the mutex stands. A walk is about to look at position `i` of the list;
    `busyAtStart` are the keys in flight when it began, `calm` is whether nothing was released since.
    An insertion is `vain` when it follows a walk that evicted nothing.
   */
  datatype Phase =
    | Free
    | Walking(key: Key, now: real, i: nat, busyAtStart: set<Key>, calm: bool)
    | Inserting(key: Key, now: real, vain: bool, calm: bool)

  /**
    `at` is the address of each key's entry: a new number every time one is made. `live` counts the
    tokens out on each entry. `granted` counts admissions per entry,
    and `peak` is the most keys in flight at once so far.
   */
  datatype State = State(core: Core<Key>, phase: Phase, at: map<Key, nat>, made: nat,
                         live: map<Held, nat>, granted: map<nat, nat>, peak: nat)

  datatype Label = Begin(key: Key, now: real) | Look | Insert | Release(key: Key, addr: nat)

  ghost function Init(l: Limits, maxTracked: nat): State {
    State(Core(Effective(l), if maxTracked < 1 then 1 else maxTracked, map[], []),
          Free, map[], 0, map[], map[], 0)
  }

  ghost function Busy(table: map<Key, Slot>): set<Key> {
    set k | k in table && table[k].inflight != 0
  }

  predicate Enabled(s: State, l: Label) {
    match l
    case Begin(_, _) => s.phase.Free?
    case Look => s.phase.Walking? && s.phase.i < |s.core.lru|
    case Insert => s.phase.Inserting?
    case Release(key, addr) => Held(key, addr) in s.live
  }

  // ---------------------------------------------------------------- steps

  function Count(live: map<Held, nat>, t: Held): nat {
    if t in live then live[t] else 0
  }

  function Grab(live: map<Held, nat>, t: Held): map<Held, nat> {
    live[t := Count(live, t) + 1]
  }

  function Return(live: map<Held, nat>, t: Held): map<Held, nat> {
    if Count(live, t) <= 1 then live - {t} else live[t := live[t] - 1]
  }

  function Address(at: map<Key, nat>, key: Key): nat {
    if key in at then at[key] else 0
  }

  function Granted(granted: map<nat, nat>, a: nat): nat {
    if a in granted then granted[a] else 0
  }

  /** The state after a hit that left core `c`. */
  ghost function Hit(s: State, key: Key, c: Core<Key>, ok: bool): State {
    var a := Address(s.at, key);
    if ok then
      s.(core := c, live := Grab(s.live, Held(key, a)), granted := s.granted[a := Granted(s.granted, a) + 1])
    else s.(core := c)
  }

  /** The head of the eviction loop: another walk from the end of the list, or on to the insertion. */
  ghost function LoopHead(c: Core<Key>, key: Key, now: real): Phase {
    if |c.table| >= c.maxTracked && c.lru != [] then Walking(key, now, |c.lru| - 1, Busy(c.table), true)
    else Inserting(key, now, false, true)
  }

  ghost function BeginStep(s: State, key: Key, now: real): State {
    if key !in s.core.table then s.(phase := LoopHead(s.core, key, now))
    else
      var (c, ok) := AdmitKnown(s.core, key, now);
      Hit(s, key, c, ok)
  }

  function Dropped(c: Core<Key>, i: nat): Core<Key>
    requires i < |c.lru|
  {
    c.(table := c.table - {c.lru[i]}, lru := RemoveAt(c.lru, i))
  }

  ghost function LookStep(s: State): State
    requires Enabled(s, Look)
  {
    var i := s.phase.i;
    if Idle(s.core.table, s.core.lru[i]) then
      var c := Dropped(s.core, i);
      s.(core := c, at := s.at - {s.core.lru[i]}, phase := LoopHead(c, s.phase.key, s.phase.now))
    else if i > 0 then s.(phase := s.phase.(i := i - 1))
    else s.(phase := Inserting(s.phase.key, s.phase.now, true, s.phase.calm))
  }

  /** The state after an insertion that left core `c`. */
  ghost function Made(s: State, key: Key, c: Core<Key>, ok: bool): State {
    State(c, Free, s.at[key := s.made], s.made + 1,
          if ok then Grab(s.live, Held(key, s.made)) else s.live,
          s.granted[s.made := if ok then 1 else 0], s.peak)
  }

  ghost function InsertStep(s: State): State
    requires s.phase.Inserting?
  {
    var (c, ok) := AdmitNew(s.core, s.phase.key, s.phase.now);
    Made(s, s.phase.key, c, ok)
  }

  /** The pointer is good when the entry it was made for is still in the table. */
  predicate Points(s: State, key: Key, addr: nat) {
    key in s.core.table && key in s.at && s.at[key] == addr
  }

  function Disturbed(p: Phase): Phase {
    if p.Free? then p else p.(calm := false)
  }

  function Released(e: Slot): Slot {
    e.(inflight := e.inflight - 1)
  }

  ghost function ReleaseStep(s: State, key: Key, addr: nat): State {
    var t := s.(live := Return(s.live, Held(key, addr)), phase := Disturbed(s.phase));
    if Points(s, key, addr) then t.(core := s.core.(table := s.core.table[key := Released(s.core.table[key])])) else t
  }

  function Max(a: nat, b: nat): nat {
    if a < b then b else a
  }

  ghost function Peaked(s: State): State {
    s.(peak := Max(s.peak, |Busy(s.core.table)|))
  }

  ghost function Step(s: State, l: Label): State
    requires Enabled(s, l)
  {
    Peaked(match l
           case Begin(key, now) => BeginStep(s, key, now)
           case Look => LookStep(s)
           case Insert => InsertStep(s)
           case Release(key, addr) => ReleaseStep(s, key, addr))
  }

  ghost function Run(s: State, trace: seq<Label>): Option<State>
    decreases |trace|
  {
    if trace == [] then Some(s)
    else if !Enabled(s, trace[0]) then None
    else Run(Step(s, trace[0]), trace[1..])
  }

  ghost predicate Reachable(s: State) {
    exists l: Limits, n: nat, trace: seq<Label> :: Run(Init(l, n), trace) == Some(s)
  }

  // ---------------------------------------------------------------- the invariant

  /** A tracked key's counter is the number of live tokens on its entry, and every live token points into the table. */
  ghost predicate TokensOk(table: map<Key, Slot>, at: map<Key, nat>, live: map<Held, nat>) {
    && table.Keys == at.Keys
    && (forall k <- table :: Count(live, Held(k, at[k])) == table[k].inflight)
    && (forall t <- live :: live[t] > 0 && t.key in at && at[t.key] == t.addr)
  }

  /** Addresses in use are distinct, already made, and counted. */
  ghost predicate AddressesOk(at: map<Key, nat>, made: nat, granted: map<nat, nat>) {
    && (forall k <- at :: at[k] < made)
    && (forall j <- at, k <- at :: at[j] == at[k] ==> j == k)
    && (forall a: nat :: a < made <==> a in granted)
  }

  /** How far the table may outgrow its bound: by the keys in flight at the peak, and one more. */
  ghost predicate SizeOk(table: map<Key, Slot>, maxTracked: nat, peak: nat) {
    |Busy(table)| <= peak && (|table| <= maxTracked || |table| <= peak + 1)
  }

  /**
    While the mutex is held keys only become idle. So every key a walk has passed was in flight when
    the walk began, and after a walk in vain all of them were, at once.
   */
  ghost predicate WalkOk(p: Phase, table: map<Key, Slot>, lru: seq<Key>, maxTracked: nat, peak: nat) {
    match p
    case Free => true
    case Walking(_, _, i, start, calm) =>
      && i < |lru| && |start| <= peak && Busy(table) <= start && (calm ==> Busy(table) == start)
      && forall j :: i < j < |lru| ==> lru[j] in start
    case Inserting(_, _, vain, calm) =>
      if vain then |table| <= peak && (calm ==> Busy(table) == table.Keys) else |table| < maxTracked
  }

  ghost predicate Inv(s: State) {
    && Sound(s.core)
    && TokensOk(s.core.table, s.at, s.live)
    && AddressesOk(s.at, s.made, s.granted)
    && SizeOk(s.core.table, s.core.maxTracked, s.peak)
    && WalkOk(s.phase, s.core.table, s.core.lru, s.core.maxTracked, s.peak)
    && (!s.phase.Free? ==> s.phase.key !in s.core.table)
  }

  lemma BusyOfAll(table: map<Key, Slot>)
    ensures |Busy(table)| <= |table|
    ensures (forall k <- table :: !Idle(table, k)) ==> |Busy(table)| == |table|
  {
    assert Busy(table) <= table.Keys;
    if forall k <- table :: !Idle(table, k) {
      assert Busy(table) == table.Keys;
    }
    SubsetSize(Busy(table), table.Keys);
  }

  lemma {:induction false} SubsetSize(a: set<Key>, b: set<Key>)
    requires a <= b
    ensures |a| <= |b|
  {
    if a != {} {
      var x :| x in a;
      SubsetSize(a - {x}, b - {x});
    }
  }

  // ---------------------------------------------------------------- tokens

  lemma TokensAfterCharge(table: map<Key, Slot>, at: map<Key, nat>, live: map<Held, nat>, k: Key, e: Slot)
    requires TokensOk(table, at, live) && k in table
    ensures e.inflight == table[k].inflight ==> TokensOk(table[k := e], at, live)
    ensures e.inflight == table[k].inflight + 1 ==> TokensOk(table[k := e], at, Grab(live, Held(k, at[k])))
  {
    assert table[k := e].Keys == table.Keys;
  }

  lemma TokensAfterRelease(table: map<Key, Slot>, at: map<Key, nat>, live: map<Held, nat>, k: Key, e: Slot)
    requires TokensOk(table, at, live) && k in table && Held(k, at[k]) in live
    requires e.inflight == table[k].inflight - 1
    ensures TokensOk(table[k := e], at, Return(live, Held(k, at[k])))
  {
    assert table[k := e].Keys == table.Keys;
  }

  /** An idle entry has no live token, so dropping it leaves no pointer behind. */
  lemma TokensAfterDrop(table: map<Key, Slot>, at: map<Key, nat>, live: map<Held, nat>, k: Key)
    requires TokensOk(table, at, live) && Idle(table, k)
    ensures TokensOk(table - {k}, at - {k}, live)
  {
    assert Held(k, at[k]) !in live;
    assert (table - {k}).Keys == table.Keys - {k} == (at - {k}).Keys;
  }

  lemma TokensAfterInsert(table: map<Key, Slot>, at: map<Key, nat>, live: map<Held, nat>, k: Key, a: nat, e: Slot)
    requires TokensOk(table, at, live) && k !in table && e.inflight == 1
    ensures TokensOk(table[k := e], at[k := a], Grab(live, Held(k, a)))
  {
    assert Held(k, a) !in live;
    assert table[k := e].Keys == table.Keys + {k} == at[k := a].Keys;
    forall j <- table ensures Count(Grab(live, Held(k, a)), Held(j, at[j])) == table[j].inflight {
      assert Held(j, at[j]) != Held(k, a);
    }
  }

  // ---------------------------------------------------------------- every step keeps the invariant

  lemma PeakedKeeps(s: State)
    requires Sound(s.core) && TokensOk(s.core.table, s.at, s.live) && AddressesOk(s.at, s.made, s.granted)
    requires |s.core.table| <= s.core.maxTracked || |s.core.table| <= Peaked(s).peak + 1
    requires WalkOk(s.phase, s.core.table, s.core.lru, s.core.maxTracked, Peaked(s).peak)
    requires !s.phase.Free? ==> s.phase.key !in s.core.table
    ensures Inv(Peaked(s))
  {
  }

  lemma LoopHeadOk(c: Core<Key>, key: Key, now: real, peak: nat)
    requires Sound(c) && |Busy(c.table)| <= peak
    ensures WalkOk(LoopHead(c, key, now), c.table, c.lru, c.maxTracked, peak)
  {
    TracksSize(c.table, c.lru);
  }

  lemma CountKeeps(at: map<Key, nat>, made: nat, granted: map<nat, nat>, a: nat, n: nat)
    requires AddressesOk(at, made, granted) && a < made
    ensures AddressesOk(at, made, granted[a := n])
  {
  }

  lemma HitKeeps(s: State, key: Key, c: Core<Key>, e: Slot, ok: bool)
    requires Inv(s) && s.phase.Free? && key in s.core.table
    requires Sound(c) && c == s.core.(table := s.core.table[key := e], lru := c.lru)
    requires e.inflight == s.core.table[key].inflight + if ok then 1 else 0
    ensures Inv(Peaked(Hit(s, key, c, ok)))
  {
    var t := Hit(s, key, c, ok);
    assert TokensOk(t.core.table, t.at, t.live) by { TokensAfterCharge(s.core.table, s.at, s.live, key, e); }
    assert AddressesOk(t.at, t.made, t.granted) by {
      CountKeeps(s.at, s.made, s.granted, s.at[key], Granted(s.granted, s.at[key]) + 1);
    }
    assert |t.core.table| == |s.core.table| by { UpdateSize(s.core.table, key, e); }
    PeakRises(t);
    PeakedKeeps(t);
  }

  lemma PeakRises(s: State)
    ensures s.peak <= Peaked(s).peak && |Busy(s.core.table)| <= Peaked(s).peak
    ensures Peaked(s) == s.(peak := Peaked(s).peak)
  {
  }

  lemma UpdateSize(table: map<Key, Slot>, k: Key, e: Slot)
    requires k in table
    ensures |table[k := e]| == |table|
  {
    assert table[k := e].Keys == table.Keys;
  }

  lemma BeginKeeps(s: State, key: Key, now: real)
    requires Inv(s) && s.phase.Free?
    ensures Inv(Peaked(BeginStep(s, key, now)))
  {
    if key in s.core.table {
      var (c, ok) := AdmitKnown(s.core, key, now);
      AdmitKnownKeeps(s.core, key, now);
      ChargeKeeps(s.core.limits, s.core.table[key], now);
      HitKeeps(s, key, c, Charge(s.core.limits, s.core.table[key], now).0, ok);
    } else {
      MissKeeps(s, key, now);
    }
  }

  lemma MissKeeps(s: State, key: Key, now: real)
    requires Inv(s) && key !in s.core.table
    ensures Inv(Peaked(s.(phase := LoopHead(s.core, key, now))))
  {
    LoopHeadOk(s.core, key, now, s.peak);
    PeakedKeeps(s.(phase := LoopHead(s.core, key, now)));
  }

  lemma SoundAfterDrop(c: Core<Key>, i: nat)
    requires Sound(c) && i < |c.lru|
    ensures Sound(c.(table := c.table - {c.lru[i]}, lru := RemoveAt(c.lru, i)))
    ensures |c.table - {c.lru[i]}| == |c.table| - 1
  {
    RemoveTracks(c.table, c.lru, i);
    assert (c.table - {c.lru[i]}).Keys == c.table.Keys - {c.lru[i]};
  }

  lemma BusyAfterDrop(table: map<Key, Slot>, k: Key)
    requires Idle(table, k)
    ensures Busy(table - {k}) == Busy(table)
  {
  }

  lemma EvictKeeps(s: State, i: nat, p: Phase)
    requires Inv(s) && s.phase.Walking? && i < |s.core.lru| && Idle(s.core.table, s.core.lru[i])
    requires p == LoopHead(Dropped(s.core, i), s.phase.key, s.phase.now)
    ensures Inv(Peaked(s.(core := Dropped(s.core, i), at := s.at - {s.core.lru[i]}, phase := p)))
  {
    SoundAfterDrop(s.core, i);
    TokensAfterDrop(s.core.table, s.at, s.live, s.core.lru[i]);
    BusyAfterDrop(s.core.table, s.core.lru[i]);
    LoopHeadOk(Dropped(s.core, i), s.phase.key, s.phase.now, s.peak);
    PeakedKeeps(s.(core := Dropped(s.core, i), at := s.at - {s.core.lru[i]}, phase := p));
  }

  /** The end of a walk in vain: every tracked key was in flight when it began. */
  lemma VainOk(table: map<Key, Slot>, lru: seq<Key>, start: set<Key>, calm: bool, peak: nat)
    requires Tracks(table, lru) && |start| <= peak && Busy(table) <= start && (calm ==> Busy(table) == start)
    requires forall j :: 0 <= j < |lru| ==> lru[j] in start
    ensures |table| <= peak && (calm ==> Busy(table) == table.Keys)
  {
    forall k <- table ensures k in start {
      var j :| 0 <= j < |lru| && lru[j] == k;
    }
    assert table.Keys <= start;
    SubsetSize(table.Keys, start);
  }

  /** A look at a key in flight, with more of the list to go. */
  lemma PassKeeps(s: State)
    requires Inv(s) && Enabled(s, Look) && s.phase.i > 0 && !Idle(s.core.table, s.core.lru[s.phase.i])
    ensures Inv(Peaked(s.(phase := s.phase.(i := s.phase.i - 1))))
  {
    var k := s.core.lru[s.phase.i];
    assert k in s.core.lru && k in Busy(s.core.table);
    PeakedKeeps(s.(phase := s.phase.(i := s.phase.i - 1)));
  }

  /** A look at a key in flight at the front of the list. */
  lemma GiveUpKeeps(s: State)
    requires Inv(s) && Enabled(s, Look) && s.phase.i == 0 && !Idle(s.core.table, s.core.lru[0])
    ensures Inv(Peaked(s.(phase := Inserting(s.phase.key, s.phase.now, true, s.phase.calm))))
  {
    var k := s.core.lru[0];
    assert k in s.core.lru && k in Busy(s.core.table);
    VainOk(s.core.table, s.core.lru, s.phase.busyAtStart, s.phase.calm, s.peak);
    PeakedKeeps(s.(phase := Inserting(s.phase.key, s.phase.now, true, s.phase.calm)));
  }

  lemma LookKeeps(s: State)
    requires Inv(s) && Enabled(s, Look)
    ensures Inv(Peaked(LookStep(s)))
  {
    if Idle(s.core.table, s.core.lru[s.phase.i]) {
      EvictKeeps(s, s.phase.i, LoopHead(Dropped(s.core, s.phase.i), s.phase.key, s.phase.now));
    } else if s.phase.i > 0 {
      PassKeeps(s);
    } else {
      GiveUpKeeps(s);
    }
  }

  lemma InsertSize(table: map<Key, Slot>, k: Key, e: Slot)
    requires k !in table
    ensures |table[k := e]| == |table| + 1
  {
    assert table[k := e].Keys == table.Keys + {k};
  }

  lemma MadeKeeps(s: State, c: Core<Key>, e: Slot)
    requires Inv(s) && s.phase.Inserting? && e.inflight == 1
    requires Sound(c) && c == s.core.(table := s.core.table[s.phase.key := e], lru := c.lru)
    ensures Inv(Peaked(Made(s, s.phase.key, c, true)))
  {
    var key := s.phase.key;
    TokensAfterInsert(s.core.table, s.at, s.live, key, s.made, e);
    AddressesAfterInsert(s.at, s.made, s.granted, key);
    InsertSize(s.core.table, key, e);
    var t := Made(s, key, c, true);
    assert Peaked(t).peak >= s.peak && |Busy(t.core.table)| <= Peaked(t).peak;
    PeakedKeeps(t);
  }

  lemma AddressesAfterInsert(at: map<Key, nat>, made: nat, granted: map<nat, nat>, k: Key)
    requires AddressesOk(at, made, granted) && k !in at
    ensures AddressesOk(at[k := made], made + 1, granted[made := 1])
  {
  }

  lemma InsertKeeps(s: State)
    requires Inv(s) && s.phase.Inserting?
    ensures Inv(Peaked(InsertStep(s)))
  {
    var (c, ok) := AdmitNew(s.core, s.phase.key, s.phase.now);
    AdmitNewKeeps(s.core, s.phase.key, s.phase.now);
    ChargeKeeps(s.core.limits, Fresh(s.core.limits, s.phase.now), s.phase.now);
    MadeKeeps(s, c, Charge(s.core.limits, Fresh(s.core.limits, s.phase.now), s.phase.now).0);
  }

  lemma SoundAfterRelease(c: Core<Key>, key: Key, e: Slot)
    requires Sound(c) && key in c.table && c.table[key].inflight >= 1
    requires e == c.table[key].(inflight := c.table[key].inflight - 1)
    ensures Sound(c.(table := c.table[key := e]))
  {
  }

  lemma BusyAfterRelease(table: map<Key, Slot>, k: Key)
    requires k in table && table[k].inflight >= 1
    ensures Busy(table[k := Released(table[k])]) <= Busy(table)
    ensures |Busy(table[k := Released(table[k])])| <= |Busy(table)|
  {
    SubsetSize(Busy(table[k := Released(table[k])]), Busy(table));
  }

  lemma WalkAfterRelease(p: Phase, table: map<Key, Slot>, lru: seq<Key>, maxTracked: nat, peak: nat, k: Key)
    requires WalkOk(p, table, lru, maxTracked, peak) && k in table && table[k].inflight >= 1
    ensures WalkOk(Disturbed(p), table[k := Released(table[k])], lru, maxTracked, peak)
  {
    BusyAfterRelease(table, k);
    UpdateSize(table, k, Released(table[k]));
  }

  lemma ReleaseKeeps(s: State, key: Key, addr: nat)
    requires Inv(s) && Held(key, addr) in s.live
    ensures Inv(Peaked(ReleaseStep(s, key, addr)))
  {
    assert Points(s, key, addr) && s.live[Held(key, addr)] >= 1;
    var table := s.core.table[key := Released(s.core.table[key])];
    TokensAfterRelease(s.core.table, s.at, s.live, key, table[key]);
    SoundAfterRelease(s.core, key, table[key]);
    UpdateSize(s.core.table, key, table[key]);
    BusyAfterRelease(s.core.table, key);
    WalkAfterRelease(s.phase, s.core.table, s.core.lru, s.core.maxTracked, s.peak, key);
    var t := ReleaseStep(s, key, addr);
    assert Peaked(t).peak == s.peak;
    PeakedKeeps(t);
  }

  lemma StepKeeps(s: State, l: Label)
    requires Inv(s) && Enabled(s, l)
    ensures Inv(Step(s, l))
  {
    match l
    case Begin(key, now) => BeginKeeps(s, key, now);
    case Look => LookKeeps(s);
    case Insert => InsertKeeps(s);
    case Release(key, addr) => ReleaseKeeps(s, key, addr);
  }

  lemma {:induction false} RunKeeps(s: State, trace: seq<Label>)
    requires Inv(s) && Run(s, trace).Some?
    ensures Inv(Run(s, trace).value)
    decreases |trace|
  {
    if trace != [] {
      StepKeeps(s, trace[0]);
      RunKeeps(Step(s, trace[0]), trace[1..]);
    }
  }

  lemma ReachableInv(s: State)
    requires Reachable(s)
    ensures Inv(s)
  {
    var l: Limits, n: nat, trace: seq<Label> :| Run(Init(l, n), trace) == Some(s);
    RunKeeps(Init(l, n), trace);
  }

  // ---------------------------------------------------------------- tokens and the table

  /** A live token always points at an entry still in the table, so no release goes through a dangling pointer. */
  lemma TokensNeverDangle(s: State, key: Key, addr: nat)
    requires Reachable(s) && Held(key, addr) in s.live
    ensures Points(s, key, addr) && s.core.table[key].inflight >= 1
  {
    ReachableInv(s);
    assert s.live[Held(key, addr)] >= 1;
  }

  /** The order list is a duplicate-free permutation of the table's keys, and every counter is its live tokens. */
  lemma TableTracked(s: State)
    requires Reachable(s)
    ensures Tracks(s.core.table, s.core.lru) && |s.core.table| == |s.core.lru|
    ensures forall k <- s.core.table :: k in s.at && s.core.table[k].inflight == Count(s.live, Held(k, s.at[k]))
    ensures s.core.limits.maxInflight > 0 ==>
              forall k <- s.core.table :: s.core.table[k].inflight <= s.core.limits.maxInflight
  {
    ReachableInv(s);
    TracksSize(s.core.table, s.core.lru);
  }

  /** The table outgrows its bound at most to one more than the most keys in flight at once. */
  lemma SizeBounded(s: State)
    requires Reachable(s)
    ensures |s.core.table| <= s.core.maxTracked || |s.core.table| <= s.peak + 1
  {
    ReachableInv(s);
  }

  /**
    A key is evicted only while nothing of it is in flight, and every key less recently used than it
    was in flight when the walk began.
   */
  lemma VictimIsOldest(s: State, j: nat)
    requires Reachable(s) && Enabled(s, Look) && Step(s, Look).core != s.core
    requires s.phase.i < j < |s.core.lru|
    ensures Idle(s.core.table, s.core.lru[s.phase.i]) && s.core.lru[j] in s.phase.busyAtStart
  {
    ReachableInv(s);
  }

  /** Within the larger of its bound and the most keys in flight at once. */
  ghost predicate Bounded(s: State) {
    |s.core.table| <= s.core.maxTracked || |s.core.table| <= s.peak
  }

  lemma BusyInsert(table: map<Key, Slot>, k: Key, e: Slot)
    requires k !in table && e.inflight != 0
    ensures |table[k := e]| == |table| + 1 && |Busy(table[k := e])| == |Busy(table)| + 1
  {
    InsertSize(table, k, e);
    assert Busy(table[k := e]) == Busy(table) + {k};
  }

  lemma IdleIffFewerBusy(table: map<Key, Slot>)
    ensures (exists k <- table :: Idle(table, k)) <==> |Busy(table)| < |table|
  {
    BusyOfAll(table);
    if k :| k in table && Idle(table, k) {
      SubsetSize(Busy(table), table.Keys - {k});
    }
  }

  lemma InsertSizes(s: State)
    requires Inv(s) && s.phase.Inserting?
    ensures var t := Step(s, Insert);
            |t.core.table| == |s.core.table| + 1 && t.peak == Max(s.peak, |Busy(s.core.table)| + 1)
            && t.core.maxTracked == s.core.maxTracked
  {
    FreshPasses(s.core.limits, s.phase.now);
    BusyInsert(s.core.table, s.phase.key, Charge(s.core.limits, Fresh(s.core.limits, s.phase.now), s.phase.now).0);
  }

  lemma BeginBounded(s: State, key: Key, now: real)
    requires Bounded(s) && s.phase.Free?
    ensures Bounded(Step(s, Begin(key, now)))
  {
    if key in s.core.table {
      var (c, ok) := AdmitKnown(s.core, key, now);
      UpdateSize(s.core.table, key, c.table[key]);
      assert Bounded(Peaked(Hit(s, key, c, ok)));
    }
  }

  lemma LookBounded(s: State)
    requires Inv(s) && Bounded(s) && Enabled(s, Look)
    ensures Bounded(Step(s, Look))
  {
    SoundAfterDrop(s.core, s.phase.i);
    PeakRises(LookStep(s));
  }

  lemma ReleaseBounded(s: State, key: Key, addr: nat)
    requires Bounded(s) && Held(key, addr) in s.live
    ensures Bounded(Step(s, Release(key, addr)))
  {
    if Points(s, key, addr) {
      UpdateSize(s.core.table, key, Released(s.core.table[key]));
    }
    PeakRises(ReleaseStep(s, key, addr));
  }

  lemma OtherStepBounded(s: State, l: Label)
    requires Inv(s) && Enabled(s, l) && Bounded(s) && !l.Insert?
    ensures Bounded(Step(s, l))
  {
    match l
    case Begin(key, now) => BeginBounded(s, key, now);
    case Look => LookBounded(s);
    case Release(key, addr) => ReleaseBounded(s, key, addr);
  }

  /**
    The one step that can take the table over the larger of its bound and the most keys in flight at
    once is an insertion into a full table as large as that peak, while some tracked key is idle.
   */
  lemma StepOverrunsIff(s: State, l: Label)
    requires Reachable(s) && Enabled(s, l) && Bounded(s)
    ensures !Bounded(Step(s, l)) <==>
            && l.Insert? && |s.core.table| >= s.core.maxTracked && |s.core.table| == s.peak
            && exists k <- s.core.table :: Idle(s.core.table, k)
  {
    ReachableInv(s);
    if l.Insert? {
      InsertSizes(s);
      IdleIffFewerBusy(s.core.table);
    } else {
      OtherStepBounded(s, l);
    }
  }

  /** No insertion follows a walk in vain with a release anywhere since that walk began. */
  ghost predicate Undisturbed(s: State, trace: seq<Label>)
    decreases |trace|
  {
    trace == [] || !Enabled(s, trace[0]) ||
    (!(trace[0].Insert? && s.phase.vain && !s.phase.calm) && Undisturbed(Step(s, trace[0]), trace[1..]))
  }

  lemma {:induction false} RunBounded(s: State, trace: seq<Label>)
    requires Inv(s) && Bounded(s) && Run(s, trace).Some? && Undisturbed(s, trace)
    ensures Bounded(Run(s, trace).value)
    decreases |trace|
  {
    if trace != [] {
      if trace[0].Insert? {
        CalmInsertBounded(s);
      } else {
        OtherStepBounded(s, trace[0]);
      }
      StepKeeps(s, trace[0]);
      RunBounded(Step(s, trace[0]), trace[1..]);
    }
  }

  lemma CalmInsertBounded(s: State)
    requires Inv(s) && Bounded(s) && s.phase.Inserting? && (s.phase.vain ==> s.phase.calm)
    ensures Bounded(Step(s, Insert))
  {
    InsertSizes(s);
  }

  /** Undisturbed, the table stays within the larger of its bound and the most keys in flight at once. */
  lemma SizeBoundedUndisturbed(l: Limits, n: nat, trace: seq<Label>)
    requires Run(Init(l, n), trace).Some? && Undisturbed(Init(l, n), trace)
    ensures Bounded(Run(Init(l, n), trace).value)
  {
    RunBounded(Init(l, n), trace);
  }

  // ---------------------------------------------------------------- the sustained rate

  /**
    From slot `d` with `m` admissions behind it to slot `e` with `n`: credit plus admissions does not
    rise, and the stamp does not go back.
   */
  ghost predicate Pays(l: Limits, d: Slot, m: nat, e: Slot, n: nat) {
    Credit(l, e) + n as real <= Credit(l, d) + m as real && d.last <= e.last
  }

  ghost predicate RunOfEntryPays(s: State, t: State, k: Key, a: nat)
    requires Points(s, k, a) && Points(t, k, a)
  {
    Pays(s.core.limits, s.core.table[k], Granted(s.granted, a), t.core.table[k], Granted(t.granted, a))
  }

  /** The key's own call. */
  lemma OwnCallPays(s: State, now: real, k: Key, a: nat)
    requires Inv(s) && s.phase.Free? && s.core.limits.rps > 0 && Points(s, k, a)
    ensures Points(Step(s, Begin(k, now)), k, a) && RunOfEntryPays(s, Step(s, Begin(k, now)), k, a)
    ensures var d := s.core.table[k].last;
            Step(s, Begin(k, now)).core.table[k].last == if now > d then now else d
  {
    ChargePays(s.core.limits, s.core.table[k], now);
    var (e, ok) := Charge(s.core.limits, s.core.table[k], now);
    var t := Step(s, Begin(k, now));
    assert t.core.table[k] == e;
    assert Granted(t.granted, a) == Granted(s.granted, a) + if ok then 1 else 0;
  }

  /** The key's bucket and count are as they were. */
  ghost predicate Quiet(s: State, t: State, k: Key, a: nat)
    requires Points(s, k, a) && Points(t, k, a)
  {
    var d, e := s.core.table[k], t.core.table[k];
    e.tokens == d.tokens && e.last == d.last && Granted(t.granted, a) == Granted(s.granted, a)
  }

  lemma OtherCallQuiet(s: State, key: Key, now: real, k: Key, a: nat)
    requires Inv(s) && s.phase.Free? && key != k && Points(s, k, a)
    ensures Points(Step(s, Begin(key, now)), k, a) && Quiet(s, Step(s, Begin(key, now)), k, a)
  {
    if key in s.core.table {
      assert s.at[key] != a;
      var (c, ok) := AdmitKnown(s.core, key, now);
      assert c.table[k] == s.core.table[k];
      assert Step(s, Begin(key, now)) == Peaked(Hit(s, key, c, ok));
    }
  }

  lemma InsertQuiet(s: State, k: Key, a: nat)
    requires Inv(s) && s.phase.Inserting? && Points(s, k, a)
    ensures Points(Step(s, Insert), k, a) && Quiet(s, Step(s, Insert), k, a)
  {
    var (c, ok) := AdmitNew(s.core, s.phase.key, s.phase.now);
    assert c.table[k] == s.core.table[k];
    assert Step(s, Insert) == Peaked(Made(s, s.phase.key, c, ok));
  }

  lemma OtherStepQuiet(s: State, l: Label, k: Key, a: nat)
    requires Inv(s) && Enabled(s, l) && !(l.Begin? && l.key == k)
    requires Points(s, k, a) && Points(Step(s, l), k, a)
    ensures Quiet(s, Step(s, l), k, a)
  {
    match l
    case Begin(key, now) => OtherCallQuiet(s, key, now, k, a);
    case Insert => InsertQuiet(s, k, a);
    case Look => LookQuiet(s, k, a);
    case Release(key, addr) => ReleaseQuiet(s, key, addr, k, a);
  }

  lemma LookQuiet(s: State, k: Key, a: nat)
    requires Enabled(s, Look) && Points(s, k, a) && Points(Step(s, Look), k, a)
    ensures Quiet(s, Step(s, Look), k, a)
  {
    PeakRises(LookStep(s));
  }

  lemma ReleaseQuiet(s: State, key: Key, addr: nat, k: Key, a: nat)
    requires Held(key, addr) in s.live && Points(s, k, a) && Points(Step(s, Release(key, addr)), k, a)
    ensures Quiet(s, Step(s, Release(key, addr)), k, a)
  {
    PeakRises(ReleaseStep(s, key, addr));
  }

  lemma QuietPays(s: State, t: State, k: Key, a: nat)
    requires Points(s, k, a) && Points(t, k, a) && Quiet(s, t, k, a)
    ensures RunOfEntryPays(s, t, k, a)
  {
  }

  lemma StepPays(s: State, l: Label, k: Key, a: nat)
    requires Inv(s) && Enabled(s, l) && s.core.limits.rps > 0
    requires Points(s, k, a) && Points(Step(s, l), k, a)
    ensures RunOfEntryPays(s, Step(s, l), k, a)
    ensures Step(s, l).core.table[k].last ==
            if l.Begin? && l.key == k && l.now > s.core.table[k].last then l.now else s.core.table[k].last
  {
    if l.Begin? && l.key == k {
      OwnCallPays(s, l.now, k, a);
    } else {
      OtherStepQuiet(s, l, k, a);
      QuietPays(s, Step(s, l), k, a);
    }
  }

  /** Only an insertion gives a key an address, and a new one. */
  lemma StepAddress(s: State, l: Label, k: Key)
    requires Enabled(s, l) && k in Step(s, l).at
    ensures (k in s.at && Step(s, l).at[k] == s.at[k]) || Step(s, l).at[k] == s.made
  {
    match l
    case Begin(key, now) =>
      var t := Step(s, Begin(key, now));
      assert t.at == s.at;
    case _ =>
  }

  /** An entry that is gone never comes back: a returning key gets a new one. */
  lemma StepGone(s: State, l: Label, k: Key, a: nat)
    requires Inv(s) && Enabled(s, l) && a < s.made && !Points(s, k, a)
    ensures !Points(Step(s, l), k, a)
  {
    if k in Step(s, l).at {
      StepAddress(s, l, k);
    }
  }

  ghost predicate Fixed(s: State, t: State) {
    t.core.limits == s.core.limits && t.core.maxTracked == s.core.maxTracked && s.made <= t.made
  }

  lemma BeginFixed(s: State, key: Key, now: real)
    ensures Fixed(s, Peaked(BeginStep(s, key, now)))
  {
    if key in s.core.table {
      var (c, ok) := AdmitKnown(s.core, key, now);
      assert Fixed(s, Peaked(Hit(s, key, c, ok)));
    }
  }

  lemma InsertFixed(s: State)
    requires s.phase.Inserting?
    ensures Fixed(s, Peaked(InsertStep(s)))
  {
    var (c, ok) := AdmitNew(s.core, s.phase.key, s.phase.now);
    assert Fixed(s, Peaked(Made(s, s.phase.key, c, ok)));
  }

  lemma StepFixed(s: State, l: Label)
    requires Enabled(s, l)
    ensures Fixed(s, Step(s, l))
  {
    match l
    case Begin(key, now) => BeginFixed(s, key, now);
    case Insert => InsertFixed(s);
    case _ =>
  }

  lemma {:induction false} RunGone(s: State, trace: seq<Label>, k: Key, a: nat)
    requires Inv(s) && Run(s, trace).Some? && a < s.made && !Points(s, k, a)
    ensures !Points(Run(s, trace).value, k, a)
    decreases |trace|
  {
    if trace != [] {
      StepKeeps(s, trace[0]);
      StepGone(s, trace[0], k, a);
      StepFixed(s, trace[0]);
      RunGone(Step(s, trace[0]), trace[1..], k, a);
    }
  }

  lemma {:induction false} RunPays(s: State, trace: seq<Label>, k: Key, a: nat)
    requires Inv(s) && Run(s, trace).Some? && s.core.limits.rps > 0
    requires Points(s, k, a) && Points(Run(s, trace).value, k, a)
    ensures Run(s, trace).value.core.limits == s.core.limits
    ensures RunOfEntryPays(s, Run(s, trace).value, k, a)
    decreases |trace|
  {
    if trace != [] {
      var t := Step(s, trace[0]);
      StepKeeps(s, trace[0]);
      StepFixed(s, trace[0]);
      if !Points(t, k, a) {
        RunGone(t, trace[1..], k, a);
        assert false;
      }
      StepPays(s, trace[0], k, a);
      RunPays(t, trace[1..], k, a);
    }
  }

  /** At most the burst plus the rate times how far the stamp advanced; less what the bucket still held or holds. */
  ghost predicate WithinRate(l: Limits, d: Slot, e: Slot, n: int) {
    var paid := (e.last - d.last) * l.rps as real;
    n as real <= d.tokens - e.tokens + paid && n as real <= l.burst as real + paid
  }

  lemma PaysWithinRate(l: Limits, d: Slot, m: nat, e: Slot, n: nat)
    requires Pays(l, d, m, e, n) && SlotOk(l, d) && SlotOk(l, e) && l.rps > 0
    ensures WithinRate(l, d, e, n - m)
  {
    var r := l.rps as real;
    assert (e.last - d.last) * r == e.last * r - d.last * r;
  }

  /**
    While a key stays tracked, the admissions over any stretch of any run are at most the burst plus
    the rate times how far its stamp advanced, whatever the order of the call times.
   */
  lemma AdmissionsBounded(s: State, trace: seq<Label>, k: Key, a: nat)
    requires Reachable(s) && Run(s, trace).Some? && s.core.limits.rps > 0
    requires Points(s, k, a) && Points(Run(s, trace).value, k, a)
    ensures var t := Run(s, trace).value;
            WithinRate(s.core.limits, s.core.table[k], t.core.table[k], Granted(t.granted, a) - Granted(s.granted, a))
  {
    var t := Run(s, trace).value;
    var d, e, m, n := s.core.table[k], t.core.table[k], Granted(s.granted, a), Granted(t.granted, a);
    assert Pays(s.core.limits, d, m, e, n) && SlotOk(s.core.limits, d) && SlotOk(s.core.limits, e) by {
      ReachableInv(s);
      RunPays(s, trace, k, a);
      RunKeeps(s, trace);
    }
    PaysWithinRate(s.core.limits, d, m, e, n);
  }

  /** The stamp never passes the latest call time: with every call for the key at or before `T`, it stays there too. */
  lemma {:induction false} StampUpTo(s: State, trace: seq<Label>, k: Key, a: nat, T: real)
    requires Inv(s) && Run(s, trace).Some? && s.core.limits.rps > 0
    requires Points(s, k, a) && Points(Run(s, trace).value, k, a)
    requires forall l <- trace :: l.Begin? && l.key == k ==> l.now <= T
    requires s.core.table[k].last <= T
    ensures Run(s, trace).value.core.table[k].last <= T
    decreases |trace|
  {
    if trace != [] {
      var t := Step(s, trace[0]);
      StepKeeps(s, trace[0]);
      StepFixed(s, trace[0]);
      if !Points(t, k, a) {
        RunGone(t, trace[1..], k, a);
        assert false;
      }
      StepPays(s, trace[0], k, a);
      StampUpTo(t, trace[1..], k, a, T);
    }
  }
}
