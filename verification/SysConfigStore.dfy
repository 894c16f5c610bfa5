/**
  One gateway's copy of the per-bucket configuration of src/s3/sys_config_store.h: the entries, the
  published snapshot and the tombstones of recent removals. Keys are numbers in listing order,
  entries are values compared only for equality, time is a real number of seconds.
 */
module SysConfigStore {
  type Entry = int

  /** What is stored under a key: something that deserialises, or a malformed object. */
  datatype Object = Good(e: Entry) | Malformed

  /** kTombstoneTtl: five minutes. */
  const TTL: real := 300.0

  datatype Gateway = Gateway(entries: map<nat, Entry>, snap: map<nat, Entry>, tombs: map<nat, real>)

  /** The well-formed part of the storage. */
  function GoodEntries(store: map<nat, Object>): map<nat, Entry> {
    map b | b in store && store[b].Good? :: store[b].e
  }

  /** put after its storage write. */
  function PutLocal(g: Gateway, b: nat, e: Entry): Gateway {
    var entries := g.entries[b := e];
    Gateway(entries, entries, g.tombs - {b})
  }

  /** remove before its storage delete. */
  function Bury(g: Gateway, b: nat, now: real): Gateway {
    g.(tombs := g.tombs[b := now])
  }

  /** remove whose storage delete failed. */
  function Unbury(g: Gateway, b: nat): Gateway {
    g.(tombs := g.tombs - {b})
  }

  /** remove after its storage delete. */
  function RemoveLocal(g: Gateway, b: nat): Gateway {
    if b in g.entries then g.(entries := g.entries - {b}, snap := g.entries - {b}) else g
  }

  /** Tombstones younger than the TTL. */
  function Unexpired(tombs: map<nat, real>, now: real): map<nat, real> {
    map b | b in tombs && now - tombs[b] <= TTL :: tombs[b]
  }

  /** The entries after a sync that started with `known` and fetched `got`. */
  function Merged(entries: map<nat, Entry>, tombs: map<nat, real>, known: set<nat>, got: map<nat, Entry>): map<nat, Entry> {
    map b | b in entries.Keys + got.Keys
            && (if b in got && b !in tombs then true else b in entries && (b in known ==> b in got))
      :: if b in got && b !in tombs then got[b] else entries[b]
  }

  /** sync_now's final lock section. */
  function ApplySync(g: Gateway, known: set<nat>, got: map<nat, Entry>, now: real): Gateway {
    var tombs := Unexpired(g.tombs, now);
    var entries := Merged(g.entries, tombs, known, got);
    Gateway(entries, if entries == g.entries then g.snap else entries, tombs)
  }

  /** Fetching `b` changes the local table. */
  ghost predicate Changes(entries: map<nat, Entry>, tombs: map<nat, real>, got: map<nat, Entry>, b: nat) {
    b in got && b !in tombs && (b in entries ==> entries[b] != got[b])
  }

  lemma MergeNothing(entries: map<nat, Entry>, tombs: map<nat, real>, got: map<nat, Entry>)
    ensures Merged(entries, tombs, {}, got - got.Keys) == entries
  {
  }

  /** One more fetched entry: the part already merged says about `b` what the table said at the start. */
  lemma MergeOne(entries: map<nat, Entry>, tombs: map<nat, real>, got: map<nat, Entry>, left: set<nat>, b: nat)
    requires b in left && left <= got.Keys
    ensures var m := Merged(entries, tombs, {}, got - left);
            && (b in m <==> b in entries) && (b in m ==> m[b] == entries[b])
            && Merged(entries, tombs, {}, got - (left - {b})) ==
               if b in tombs || (b in m && m[b] == got[b]) then m else m[b := got[b]]
  {
    var m := Merged(entries, tombs, {}, got - left);
    var n := Merged(entries, tombs, {}, got - (left - {b}));
    assert forall c :: c in got - (left - {b}) <==> c in got - left || c == b;
    assert n.Keys == m.Keys + if b in tombs then {} else {b};
  }

  /** The entries without those of `seen` that were not fetched. */
  function Kept(entries: map<nat, Entry>, seen: set<nat>, got: map<nat, Entry>): map<nat, Entry> {
    map b | b in entries && (b in seen ==> b in got) :: entries[b]
  }

  lemma KeptOne(entries: map<nat, Entry>, seen: set<nat>, got: map<nat, Entry>, b: nat)
    requires b !in seen
    ensures var m := Kept(entries, seen, got);
            && (b in m <==> b in entries)
            && Kept(entries, seen + {b}, got) == if b !in got && b in m then m - {b} else m
  {
    var m, n := Kept(entries, seen, got), Kept(entries, seen + {b}, got);
    assert forall c :: c in n <==> c in m && (c == b ==> b in got);
  }

  /** Merging what was fetched and then dropping what is missing is the whole merge. */
  lemma MergeInTwo(entries: map<nat, Entry>, tombs: map<nat, real>, known: set<nat>, got: map<nat, Entry>)
    ensures Kept(Merged(entries, tombs, {}, got), known, got) == Merged(entries, tombs, known, got)
  {
  }

  lemma ChangeShows(entries: map<nat, Entry>, tombs: map<nat, real>, known: set<nat>, got: map<nat, Entry>, b: nat)
    requires Changes(entries, tombs, got, b) || (b in entries && b in known && b !in got)
    ensures Merged(entries, tombs, known, got) != entries
  {
    var m := Merged(entries, tombs, known, got);
    if Changes(entries, tombs, got, b) {
      assert b in m && m[b] == got[b];
    } else {
      assert b !in m;
    }
  }

  class SysConfigStore {
    var entries: map<nat, Entry>
    var snap: map<nat, Entry>
    var tombs: map<nat, real>

    ghost function View(): Gateway
      reads this
    {
      Gateway(entries, snap, tombs)
    }

    /** load: the entries found in storage, published. */
    constructor (loaded: map<nat, Entry>)
      ensures View() == Gateway(loaded, loaded, map[])
    {
      entries, snap, tombs := loaded, loaded, map[];
    }

    method RebuildSnapshot()
      modifies this`snap
      ensures snap == entries
    {
      snap := entries;
    }

    method Put(b: nat, e: Entry)
      modifies this
      ensures View() == PutLocal(old(View()), b, e)
    {
      tombs := tombs - {b};
      entries := entries[b := e];
      RebuildSnapshot();
    }

    method BeginRemove(b: nat, now: real)
      modifies this
      ensures View() == Bury(old(View()), b, now)
    {
      tombs := tombs[b := now];
    }

    method FailRemove(b: nat)
      modifies this
      ensures View() == Unbury(old(View()), b)
    {
      tombs := tombs - {b};
    }

    method FinishRemove(b: nat)
      modifies this
      ensures View() == RemoveLocal(old(View()), b)
    {
      if b in entries {
        entries := entries - {b};
        RebuildSnapshot();
      }
    }

    /** The two merge loops of sync_now under the lock. */
    method ApplySyncLocked(known: set<nat>, got: map<nat, Entry>, now: real)
      modifies this
      ensures View() == ApplySync(old(View()), known, got, now)
    {
      ghost var was := entries;
      tombs := map b | b in tombs && !(now - tombs[b] > TTL) :: tombs[b];
      assert tombs == Unexpired(old(tombs), now);
      var added := MergeFetched(got);
      ghost var merged := entries;
      var removed := DropMissing(known, got);
      MergeInTwo(was, tombs, known, got);
      if added || removed {
        ghost var b :| Changes(was, tombs, got, b) || (b in merged && b in known && b !in got);
        ChangeShows(was, tombs, known, got, b);
        RebuildSnapshot();
      }
    }

    /** Entries present in storage: added when new, replaced when different, skipped when tombstoned. */
    method MergeFetched(got: map<nat, Entry>) returns (added: bool)
      modifies this`entries
      ensures entries == Merged(old(entries), tombs, {}, got)
      ensures !added ==> entries == old(entries)
      ensures added ==> exists b :: Changes(old(entries), tombs, got, b)
    {
      var left := got.Keys;
      added := false;
      ghost var which: nat := 0;
      MergeNothing(entries, tombs, got);
      while left != {}
        invariant left <= got.Keys
        invariant entries == Merged(old(entries), tombs, {}, got - left)
        invariant !added ==> entries == old(entries)
        invariant added ==> Changes(old(entries), tombs, got, which)
        decreases |left|
      {
        var b :| b in left;
        MergeOne(old(entries), tombs, got, left, b);
        left := left - {b};
        if b !in tombs && (b !in entries || entries[b] != got[b]) {
          entries := entries[b := got[b]];
          added := true;
          which := b;
        }
      }
      assert got - {} == got;
    }

    /** Entries known when the sync began and absent from what it fetched. */
    method DropMissing(known: set<nat>, got: map<nat, Entry>) returns (removed: bool)
      modifies this`entries
      ensures entries == Kept(old(entries), known, got)
      ensures !removed ==> entries == old(entries)
      ensures removed ==> exists b :: b in known && b !in got && b in old(entries)
    {
      var left := known;
      removed := false;
      ghost var seen: set<nat>, which: nat := {}, 0;
      assert Kept(entries, {}, got) == entries;
      while left != {}
        invariant left !! seen && left + seen == known
        invariant entries == Kept(old(entries), seen, got)
        invariant !removed ==> entries == old(entries)
        invariant removed ==> which in known && which !in got && which in old(entries)
        decreases |left|
      {
        var b :| b in left;
        KeptOne(old(entries), seen, got, b);
        left, seen := left - {b}, seen + {b};
        if b !in got && b in entries {
          entries := entries - {b};
          removed := true;
          which := b;
        }
      }
    }
  }
}
