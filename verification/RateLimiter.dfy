/**
  The per-client limiter of src/s3/ratelimit.{h,cc}: a token bucket and an in-flight counter per key,
  in a table whose least recently seen idle keys are dropped when it is full. Times are `real`
  seconds and bucket levels are `real`; the empty key is `None`.
 */
module RateLimiter {
  import opened Common

  datatype Limits = Limits(rps: int, burst: int, maxInflight: int) {
    predicate Any() {
      rps > 0 || maxInflight > 0
    }
  }

  /** What the constructor makes of the configured limits. */
  function Effective(l: Limits): Limits {
    if l.burst <= 0 then l.(burst := l.rps) else l
  }

  /** The contents of an Entry. */
  datatype Slot = Slot(tokens: real, last: real, inflight: int)

  // ---------------------------------------------------------------- one bucket

  /** The bucket's level at `now`, before the cap. */
  function Level(l: Limits, e: Slot, now: real): real {
    e.tokens + (now - e.last) * l.rps as real
  }

  function Refill(l: Limits, e: Slot, now: real): Slot {
    if l.rps > 0 && now - e.last > 0.0 then
      var level := Level(l, e, now);
      e.(tokens := if level < l.burst as real then level else l.burst as real, last := now)
    else e
  }

  predicate HasRoom(l: Limits, e: Slot) {
    (l.rps > 0 ==> e.tokens >= 1.0) && (l.maxInflight > 0 ==> e.inflight < l.maxInflight)
  }

  /** The decision part of admit on one entry: its new contents and whether the request passes. */
  function Charge(l: Limits, e: Slot, now: real): (Slot, bool) {
    var f := Refill(l, e, now);
    if !HasRoom(l, f) then (f, false)
    else (f.(tokens := if l.rps > 0 then f.tokens - 1.0 else f.tokens, inflight := f.inflight + 1), true)
  }

  ghost predicate SlotOk(l: Limits, e: Slot) {
    && (l.rps > 0 ==> 0.0 <= e.tokens <= l.burst as real)
    && 0 <= e.inflight
    && (l.maxInflight > 0 ==> e.inflight <= l.maxInflight)
  }

  /** Bucket level minus what time has paid for: no charge raises it, and each admission lowers it by one. */
  ghost function Credit(l: Limits, e: Slot): real {
    e.tokens - e.last * l.rps as real
  }

  lemma LevelRises(l: Limits, e: Slot, now: real)
    requires l.rps > 0 && now > e.last
    ensures Level(l, e, now) > e.tokens
    ensures Level(l, e, now) - now * l.rps as real == Credit(l, e)
  {
    var r := l.rps as real;
    assert r >= 1.0;
    assert (now - e.last) * r == now * r - e.last * r;
    assert (now - e.last) * r > 0.0;
  }

  lemma ChargePays(l: Limits, e: Slot, now: real)
    requires SlotOk(l, e) && l.rps > 0 && l.burst >= 1
    ensures var (d, ok) := Charge(l, e, now);
            && SlotOk(l, d)
            && d.last == (if now > e.last then now else e.last)
            && Credit(l, d) + (if ok then 1.0 else 0.0) <= Credit(l, e)
  {
    if now > e.last {
      LevelRises(l, e, now);
    }
  }

  /**
    A release that lands between the load of the counter and its increment has the effect of one that
    came just before the call.
   */
  lemma ReleaseBeforeIncrement(l: Limits, e: Slot, now: real)
    requires Charge(l, e, now).1
    ensures Charge(l, e.(inflight := e.inflight - 1), now) == (Charge(l, e, now).0.(inflight := e.inflight), true)
  {
  }

  // ---------------------------------------------------------------- the table and its order of use

  predicate Idle<K>(table: map<K, Slot>, k: K) {
    k in table && table[k].inflight == 0
  }

  /** The order list is a duplicate-free permutation of the table's keys. */
  ghost predicate Tracks<K>(table: map<K, Slot>, lru: seq<K>) {
    && NoDup(lru)
    && (forall k <- lru :: k in table)
    && (forall k <- table :: k in lru)
  }

  /** The idle key nearest the end of the list, or -1. */
  function LastIdle<K>(table: map<K, Slot>, lru: seq<K>): (i: int)
    ensures -1 <= i < |lru|
    ensures i >= 0 ==> Idle(table, lru[i])
    ensures forall j :: i < j < |lru| ==> !Idle(table, lru[j])
  {
    var n := |lru| - 1;
    if n < 0 then -1 else if Idle(table, lru[n]) then n else LastIdle(table, lru[..n])
  }

  function RemoveAt<K>(s: seq<K>, i: nat): seq<K>
    requires i < |s|
  {
    s[..i] + s[i + 1..]
  }

  /** evict_locked. */
  function Evict<K>(table: map<K, Slot>, lru: seq<K>, maxTracked: nat): (map<K, Slot>, seq<K>)
    decreases |lru|
  {
    var i := LastIdle(table, lru);
    if |table| < maxTracked || i < 0 then (table, lru)
    else Evict(table - {lru[i]}, RemoveAt(lru, i), maxTracked)
  }

  function Others<K(==)>(lru: seq<K>, key: K): seq<K> {
    if lru == [] then [] else (if lru[0] == key then [] else [lru[0]]) + Others(lru[1..], key)
  }

  datatype Core<K> = Core(limits: Limits, maxTracked: nat, table: map<K, Slot>, lru: seq<K>)

  ghost predicate Sound<K>(c: Core<K>) {
    && c.maxTracked >= 1
    && (c.limits.rps > 0 ==> c.limits.burst >= 1)
    && Tracks(c.table, c.lru)
    && (forall k <- c.table :: SlotOk(c.limits, c.table[k]))
  }

  function Fresh(l: Limits, now: real): Slot {
    Slot(l.burst as real, now, 0)
  }

  /** The hit path: the key moves to the front and its entry is charged. */
  function AdmitKnown<K(==)>(c: Core<K>, key: K, now: real): (Core<K>, bool)
    requires key in c.table
  {
    var (e, ok) := Charge(c.limits, c.table[key], now);
    (c.(table := c.table[key := e], lru := [key] + Others(c.lru, key)), ok)
  }

  /** The miss path after making room: a full bucket, charged at once. */
  function AdmitNew<K>(c: Core<K>, key: K, now: real): (Core<K>, bool)
  {
    var (e, ok) := Charge(c.limits, Fresh(c.limits, now), now);
    (c.(table := c.table[key := e], lru := [key] + c.lru), ok)
  }

  /** admit of a non-empty key with the limiter enabled, nothing released meanwhile. */
  function Admit<K(==)>(c: Core<K>, key: K, now: real): (Core<K>, bool) {
    if key in c.table then AdmitKnown(c, key, now)
    else
      var (table, lru) := Evict(c.table, c.lru, c.maxTracked);
      AdmitNew(c.(table := table, lru := lru), key, now)
  }

  // ---------------------------------------------------------------- eviction

  lemma TracksSize<K>(table: map<K, Slot>, lru: seq<K>)
    requires Tracks(table, lru)
    ensures |table| == |lru|
  {
    NoDupSize(lru);
    assert Elems(lru) == table.Keys;
  }

  lemma RemoveTracks<K>(table: map<K, Slot>, lru: seq<K>, i: nat)
    requires Tracks(table, lru) && i < |lru|
    ensures Tracks(table - {lru[i]}, RemoveAt(lru, i))
  {
    var rest := RemoveAt(lru, i);
    forall k <- table - {lru[i]} ensures k in rest {
      var j :| 0 <= j < |lru| && lru[j] == k;
      assert rest[if j < i then j else j - 1] == k;
    }
  }

  /** `j` was used more recently than `k`. */
  ghost predicate Before<K>(lru: seq<K>, j: K, k: K) {
    exists a, b :: 0 <= a < b < |lru| && lru[a] == j && lru[b] == k
  }

  lemma BeforeInWhole<K>(lru: seq<K>, i: nat, j: K, k: K)
    requires i < |lru| && Before(RemoveAt(lru, i), j, k)
    ensures Before(lru, j, k)
  {
    var rest := RemoveAt(lru, i);
    var a, b :| 0 <= a < b < |rest| && rest[a] == j && rest[b] == k;
    var c, d := if a < i then a else a + 1, if b < i then b else b + 1;
    assert lru[c] == j && lru[d] == k;
  }

  /** An idle key other than the one evicted comes earlier in the list. */
  lemma IdleBeforeVictim<K>(table: map<K, Slot>, lru: seq<K>, k: K)
    requires Tracks(table, lru) && Idle(table, k)
    requires LastIdle(table, lru) >= 0 && k != lru[LastIdle(table, lru)]
    ensures Before(lru, k, lru[LastIdle(table, lru)])
  {
    var a :| 0 <= a < |lru| && lru[a] == k;
  }

  /**
    Eviction keeps the order list in step with the table, drops idle keys only, drops the least
    recently used of them, leaves every survivor's entry as it was, and stops early only when every
    tracked key is in flight.
   */
  lemma {:induction false} EvictDropsOldestIdle<K>(table: map<K, Slot>, lru: seq<K>, max: nat)
    requires Tracks(table, lru)
    ensures var (t, l) := Evict(table, lru, max);
            && Tracks(t, l)
            && (forall k <- t :: k in table && t[k] == table[k])
            && (forall k <- table :: k in t || Idle(table, k))
            && (|t| < max || forall k <- t :: !Idle(t, k))
            && (forall j <- t, k <- table :: Idle(t, j) && k !in t ==> Before(lru, j, k))
    decreases |lru|
  {
    var i := LastIdle(table, lru);
    if |table| < max || i < 0 {
      if i < 0 {
        forall k <- table ensures !Idle(table, k) {
          var a :| 0 <= a < |lru| && lru[a] == k;
        }
      }
    } else {
      var rest, left := table - {lru[i]}, RemoveAt(lru, i);
      RemoveTracks(table, lru, i);
      EvictDropsOldestIdle(rest, left, max);
      var (t, l) := Evict(table, lru, max);
      forall j <- t, k <- table | Idle(t, j) && k !in t ensures Before(lru, j, k) {
        if k == lru[i] {
          IdleBeforeVictim(table, lru, j);
        } else {
          assert Before(left, j, k);
          BeforeInWhole(lru, i, j, k);
        }
      }
    }
  }

  // ---------------------------------------------------------------- what every admit keeps

  lemma {:induction false} OthersTracks<K>(lru: seq<K>, key: K)
    requires NoDup(lru)
    ensures var o := Others(lru, key);
            NoDup(o) && key !in o && (forall k <- o :: k in lru) && (forall k <- lru :: k == key || k in o)
  {
    if lru != [] {
      var rest := lru[1..];
      assert lru == [lru[0]] + rest;
      assert lru[0] !in rest;
      OthersTracks(rest, key);
    }
  }

  lemma ChargeKeeps(l: Limits, e: Slot, now: real)
    requires SlotOk(l, e) && (l.rps > 0 ==> l.burst >= 1)
    ensures SlotOk(l, Charge(l, e, now).0)
    ensures Charge(l, e, now).0.inflight == e.inflight + if Charge(l, e, now).1 then 1 else 0
  {
    if l.rps > 0 {
      ChargePays(l, e, now);
    }
  }

  lemma AdmitKnownKeeps<K>(c: Core<K>, key: K, now: real)
    requires Sound(c) && key in c.table
    ensures Sound(AdmitKnown(c, key, now).0)
  {
    ChargeKeeps(c.limits, c.table[key], now);
    OthersTracks(c.lru, key);
  }

  /** A full bucket with nothing in flight always has room. */
  lemma FreshPasses(l: Limits, now: real)
    requires l.rps > 0 ==> l.burst >= 1
    ensures Charge(l, Fresh(l, now), now).1 && Charge(l, Fresh(l, now), now).0.inflight == 1
  {
  }

  /** A key that is not tracked starts with a full bucket and always passes. */
  lemma AdmitNewKeeps<K>(c: Core<K>, key: K, now: real)
    requires Sound(c) && key !in c.table
    ensures Sound(AdmitNew(c, key, now).0) && AdmitNew(c, key, now).1
  {
    ChargeKeeps(c.limits, Fresh(c.limits, now), now);
  }

  // ---------------------------------------------------------------- the objects

  class Entry {
    var tokens: real
    var last: real
    var inflight: int

    constructor (l: Limits, now: real)
      ensures View() == Fresh(l, now)
    {
      tokens, last, inflight := l.burst as real, now, 0;
    }

    ghost function View(): Slot
      reads this
    {
      Slot(tokens, last, inflight)
    }

    method RefillHere(l: Limits, now: real)
      requires l.rps > 0
      modifies this
      ensures View() == Refill(l, old(View()), now)
    {
      var dt := now - last;
      if dt > 0.0 {
        var level := tokens + dt * l.rps as real;
        assert level == Level(l, View(), now);
        tokens := if level < l.burst as real then level else l.burst as real;
        last := now;
      }
    }

    /** The tail of admit, on the entry found or made. */
    method ChargeHere(l: Limits, now: real) returns (ok: bool)
      modifies this
      ensures (View(), ok) == Charge(l, old(View()), now)
    {
      if l.rps > 0 {
        RefillHere(l, now);
        if tokens < 1.0 {
          return false;
        }
      }
      if l.maxInflight > 0 && inflight >= l.maxInflight {
        return false;
      }
      if l.rps > 0 {
        tokens := tokens - 1.0;
      }
      inflight := inflight + 1;
      return true;
    }
  }

  /** Owns one in-flight slot of an entry, or nothing. */
  class Token {
    var e: Entry?

    constructor (e: Entry?)
      ensures this.e == e
    {
      this.e := e;
    }

    method Reset()
      modifies this, e
      ensures e == null
      ensures old(e) != null ==> old(e).View() == old(e.View()).(inflight := old(e.inflight) - 1)
    {
      if e != null {
        e.inflight := e.inflight - 1;
      }
      e := null;
    }

    /** Move assignment: the slot held before is returned, the other's is taken over; none is copied. */
    method MoveFrom(o: Token)
      modifies this, o, e
      ensures o == this ==> e == old(e) && (e != null ==> e.View() == old(e.View()))
      ensures o != this ==> e == old(o.e) && o.e == null
      ensures o != this && old(e) != null ==> old(e).View() == old(e.View()).(inflight := old(e.inflight) - 1)
    {
      if this != o {
        var theirs := o.e;
        Reset();
        e := theirs;
        o.e := null;
      }
    }
  }

  class RateLimiter<K(==)> {
    const limits: Limits
    const maxTracked: nat
    var table: map<K, Entry>
    var lru: seq<K>

    ghost function Slots(): map<K, Slot>
      reads this, table.Values
    {
      map k | k in table :: table[k].View()
    }

    ghost function View(): Core<K>
      reads this, table.Values
    {
      Core(limits, maxTracked, Slots(), lru)
    }

    /** No two keys share an entry. */
    ghost predicate Apart()
      reads this
    {
      forall j <- table, k <- table :: table[j] == table[k] ==> j == k
    }

    constructor (l: Limits, maxTracked: nat)
      ensures Sound(View()) && Apart() && table == map[]
      ensures View() == Core(Effective(l), if maxTracked < 1 then 1 else maxTracked, map[], [])
    {
      limits := if l.burst <= 0 then Limits(l.rps, l.rps, l.maxInflight) else l;
      this.maxTracked := if maxTracked < 1 then 1 else maxTracked;
      table, lru := map[], [];
    }

    method EvictLocked()
      requires Tracks(Slots(), lru)
      modifies this
      ensures (Slots(), lru) == Evict(old(Slots()), old(lru), maxTracked)
      ensures forall k <- table :: k in old(table) && table[k] == old(table)[k]
    {
      SlotsSize();
      while |table| >= maxTracked && lru != []
        invariant Tracks(Slots(), lru) && |Slots()| == |table|
        invariant forall k <- table :: k in old(table) && table[k] == old(table)[k]
        invariant Evict(Slots(), lru, maxTracked) == Evict(old(Slots()), old(lru), maxTracked)
        decreases |lru|
      {
        var removed := EvictRound();
        SlotsSize();
        if !removed {
          break;
        }
      }
    }

    lemma SlotsSize()
      ensures |Slots()| == |table|
    {
      assert Slots().Keys == table.Keys;
    }

    /** One turn of the loop: drop the idle key nearest the end, if there is one. */
    method EvictRound() returns (removed: bool)
      requires Tracks(Slots(), lru) && lru != [] && |Slots()| >= maxTracked
      modifies this
      ensures Tracks(Slots(), lru)
      ensures Evict(Slots(), lru, maxTracked) == Evict(old(Slots()), old(lru), maxTracked)
      ensures forall k <- table :: k in old(table) && table[k] == old(table)[k]
      ensures if removed then |lru| < |old(lru)| else LastIdle(Slots(), lru) < 0
    {
      var i := FindVictim();
      if i < 0 {
        return false;
      }
      RemoveTracks(Slots(), lru, i);
      Drop(i);
      return true;
    }

    method Drop(i: nat)
      requires i < |lru|
      modifies this
      ensures table == old(table) - {old(lru)[i]} && lru == RemoveAt(old(lru), i)
      ensures Slots() == old(Slots()) - {old(lru)[i]}
    {
      table := table - {lru[i]};
      lru := RemoveAt(lru, i);
    }

    /** The backward walk. */
    method FindVictim() returns (i: int)
      requires lru != []
      ensures i == LastIdle(Slots(), lru)
    {
      i := |lru| - 1;
      assert lru[..i + 1] == lru;
      while true
        invariant 0 <= i < |lru| && LastIdle(Slots(), lru[..i + 1]) == LastIdle(Slots(), lru)
        decreases i
      {
        assert lru[..i + 1][..i] == lru[..i];
        if lru[i] in table && table[lru[i]].inflight == 0 {
          return i;
        }
        if i == 0 {
          return -1;
        }
        i := i - 1;
      }
    }

    method Insert(k: K, now: real)
      requires k !in table && Apart()
      modifies this
      ensures Apart() && k in table && table.Keys == old(table).Keys + {k}
      ensures Slots() == old(Slots())[k := Fresh(limits, now)] && lru == [k] + old(lru)
      ensures forall j <- old(table) :: table[j] == old(table)[j]
      ensures fresh(table[k])
    {
      lru := [k] + lru;
      var e := new Entry(limits, now);
      table := table[k := e];
    }

    method ChargeAt(k: K, now: real) returns (ok: bool)
      requires k in table && Apart()
      modifies table[k]
      ensures Slots() == old(Slots())[k := Charge(limits, old(Slots())[k], now).0]
      ensures ok == Charge(limits, old(Slots())[k], now).1
    {
      ok := table[k].ChargeHere(limits, now);
    }

    method MakeRoom()
      requires Sound(View()) && Apart()
      modifies this
      ensures Sound(View()) && Apart()
      ensures (Slots(), lru) == Evict(old(Slots()), old(lru), maxTracked)
      ensures forall k <- table :: k in old(table) && table[k] == old(table)[k]
    {
      EvictDropsOldestIdle(Slots(), lru, maxTracked);
      assert |Slots()| == |table| by { assert Slots().Keys == table.Keys; }
      if |table| >= maxTracked {
        EvictLocked();
      }
    }

    method AdmitHit(k: K, now: real) returns (ok: bool)
      requires Sound(View()) && Apart() && k in table
      modifies this, table.Values
      ensures table == old(table) && (View(), ok) == AdmitKnown(old(View()), k, now) && Sound(View())
    {
      ghost var before := View();
      AdmitKnownKeeps(before, k, now);
      lru := [k] + Others(lru, k);
      assert Slots() == before.table;
      ok := ChargeAt(k, now);
      assert View() == AdmitKnown(before, k, now).0;
    }

    method AdmitMiss(k: K, now: real) returns (ok: bool)
      requires Sound(View()) && Apart() && k !in table
      modifies this
      ensures Apart() && k in table && (View(), ok) == AdmitNew(old(View()), k, now) && Sound(View())
    {
      ghost var before := View();
      AdmitNewKeeps(before, k, now);
      Insert(k, now);
      ok := ChargeAt(k, now);
      assert Slots() == AdmitNew(before, k, now).0.table;
      assert View() == AdmitNew(before, k, now).0;
    }

    method AdmitAccounted(k: K, now: real) returns (ok: bool)
      requires Sound(View()) && Apart()
      modifies this, table.Values
      ensures Apart() && k in table
      ensures (View(), ok) == Admit(old(View()), k, now) && Sound(View())
    {
      if k in table {
        ok := AdmitHit(k, now);
      } else {
        MakeRoom();
        ok := AdmitMiss(k, now);
      }
    }

    method AdmitRequest(key: Option<K>, now: real) returns (r: Option<Token>)
      requires Sound(View()) && Apart()
      modifies this, table.Values
      ensures Sound(View()) && Apart()
      ensures key.None? || !limits.Any() ==> r.Some? && r.value.e == null && View() == old(View())
      ensures key.Some? && limits.Any() ==>
        && (View(), r.Some?) == Admit(old(View()), key.value, now)
        && key.value in table
        && (r.Some? ==> r.value.e == table[key.value])
    {
      if !limits.Any() || key.None? {
        var unaccounted := new Token(null);
        return Some(unaccounted);
      }
      var ok := AdmitAccounted(key.value, now);
      if !ok {
        return None;
      }
      var token := new Token(table[key.value]);
      return Some(token);
    }
  }
}
