/**
  Gateways sharing one object store, with every interleaving of put, remove and sync between their
  storage calls. A step is one storage call or one lock section; any number of operations may be
  under way on every gateway.
 */
module SysConfigProtocol {
  import opened Common
  import opened SysConfigStore

  datatype Op =
    | PutOp(g: nat, b: nat, e: Entry, written: bool)
    | RemoveOp(g: nat, b: nat, deleted: bool)
    | SyncOp(g: nat, known: set<nat>, checked: bool, cursor: Option<nat>, todo: set<nat>, got: map<nat, Entry>, last: bool)

  /** `sys` is whether the bucket holding the configuration objects exists. */
  datatype State = State(store: map<nat, Object>, sys: bool, gws: map<nat, Gateway>, ops: map<nat, Op>,
                         nextOp: nat, now: real)

  datatype Label =
    | Start(g: nat, loaded: map<nat, Entry>)
    | BeginPut(g: nat, b: nat, e: Entry)
    | PutEnsure(op: nat)
    | PutWrite(op: nat)
    | PutFail(op: nat)
    | PutFinish(op: nat)
    | BeginRemove(g: nat, b: nat)
    | Delete(op: nat)
    | DeleteFail(op: nat)
    | RemoveAbort(op: nat)
    | FinishRemove(op: nat)
    | BeginSync(g: nat)
    | SyncCheck(op: nat)
    | SyncList(op: nat, hi: nat, final: bool)
    | SyncFetch(op: nat, b: nat)
    | SyncFetchFail(op: nat, b: nat)
    | SyncAbort(op: nat)
    | SyncApply(op: nat)
    | Tick(d: real)

  /** Any storage content; a store without its bucket is empty. */
  predicate IsInit(s: State) {
    s.gws == map[] && s.ops == map[] && s.nextOp == 0 && (!s.sys ==> s.store == map[])
  }

  predicate Beyond(cursor: Option<nat>, b: nat) {
    cursor.None? || b > cursor.value
  }

  predicate Enabled(s: State, l: Label) {
    match l
    // load may have raced with other writers: whatever it saw, nothing if there was no bucket
    case Start(g, loaded) => g !in s.gws && (!s.sys ==> loaded == map[])
    case BeginPut(g, _, _) => g in s.gws
    case BeginRemove(g, _) => g in s.gws
    case BeginSync(g) => g in s.gws
    case Tick(d) => d >= 0.0
    case PutEnsure(op) => op in s.ops && s.ops[op].PutOp?
    case PutWrite(op) => op in s.ops && s.ops[op].PutOp? && !s.ops[op].written && s.sys
    // a storage call may fail before or after it took effect
    case PutFail(op) => op in s.ops && s.ops[op].PutOp?
    case PutFinish(op) => op in s.ops && s.ops[op].PutOp? && s.ops[op].written && s.ops[op].g in s.gws
    case Delete(op) => op in s.ops && s.ops[op].RemoveOp? && !s.ops[op].deleted
    case DeleteFail(op) => op in s.ops && s.ops[op].RemoveOp? && s.ops[op].g in s.gws
    // remove handles an S3Error only; any other exception, such as a cancellation, ends it where it stands
    case RemoveAbort(op) => op in s.ops && s.ops[op].RemoveOp?
    case FinishRemove(op) => op in s.ops && s.ops[op].RemoveOp? && s.ops[op].deleted && s.ops[op].g in s.gws
    case SyncCheck(op) => op in s.ops && s.ops[op].SyncOp? && !s.ops[op].checked
    case SyncList(op, hi, final) =>
      && op in s.ops && s.ops[op].SyncOp? && s.ops[op].checked && !s.ops[op].last && s.ops[op].todo == {}
      && Beyond(s.ops[op].cursor, hi)
    case SyncFetch(op, b) => op in s.ops && s.ops[op].SyncOp? && b in s.ops[op].todo && b in s.store
    case SyncFetchFail(op, b) => op in s.ops && s.ops[op].SyncOp? && b in s.ops[op].todo
    case SyncAbort(op) => op in s.ops && s.ops[op].SyncOp?
    case SyncApply(op) =>
      op in s.ops && s.ops[op].SyncOp? && s.ops[op].checked && s.ops[op].last && s.ops[op].todo == {} && s.ops[op].g in s.gws
  }

  function PutGw(s: State, g: nat, gw: Gateway): State {
    s.(gws := s.gws[g := gw])
  }

  function PutOpAt(s: State, op: nat, o: Op): State {
    s.(ops := s.ops[op := o])
  }

  function Done(s: State, op: nat): State {
    s.(ops := s.ops - {op})
  }

  function Begin(s: State, o: Op): State {
    s.(ops := s.ops[s.nextOp := o], nextOp := s.nextOp + 1)
  }

  /** One page of the listing: the keys after the cursor, up to `hi` unless it is the final page. */
  function Page(store: map<nat, Object>, cursor: Option<nat>, hi: nat, final: bool): set<nat> {
    set b | b in store && Beyond(cursor, b) && (final || b <= hi)
  }

  /** A fetched object enters the collected map if it deserialises; the first fetch of a key wins. */
  function Collect(o: Op, store: map<nat, Object>, b: nat): Op
    requires o.SyncOp? && b in store
  {
    var got := if store[b].Good? && b !in o.got then o.got[b := store[b].e] else o.got;
    o.(todo := o.todo - {b}, got := got)
  }

  function Step(s: State, l: Label): State
    requires Enabled(s, l)
  {
    match l
    case Start(g, loaded) => PutGw(s, g, Gateway(loaded, loaded, map[]))
    case BeginPut(g, b, e) => Begin(s, PutOp(g, b, e, false))
    case PutEnsure(_) => s.(sys := true)
    case PutWrite(op) =>
      PutOpAt(s, op, s.ops[op].(written := true)).(store := s.store[s.ops[op].b := Good(s.ops[op].e)])
    case PutFail(op) => Done(s, op)
    case PutFinish(op) =>
      var o := s.ops[op];
      Done(PutGw(s, o.g, PutLocal(s.gws[o.g], o.b, o.e)), op)
    case BeginRemove(g, b) => Begin(PutGw(s, g, Bury(s.gws[g], b, s.now)), RemoveOp(g, b, false))
    case Delete(op) => PutOpAt(s, op, s.ops[op].(deleted := true)).(store := s.store - {s.ops[op].b})
    case DeleteFail(op) =>
      var o := s.ops[op];
      Done(PutGw(s, o.g, Unbury(s.gws[o.g], o.b)), op)
    case RemoveAbort(op) => Done(s, op)
    case FinishRemove(op) =>
      var o := s.ops[op];
      Done(PutGw(s, o.g, RemoveLocal(s.gws[o.g], o.b)), op)
    case BeginSync(g) => Begin(s, SyncOp(g, s.gws[g].entries.Keys, false, None, {}, map[], false))
    case SyncCheck(op) => if s.sys then PutOpAt(s, op, s.ops[op].(checked := true)) else Done(s, op)
    case SyncList(op, hi, final) =>
      var o := s.ops[op];
      PutOpAt(s, op, o.(todo := Page(s.store, o.cursor, hi, final), cursor := Some(hi), last := final))
    case SyncFetch(op, b) => PutOpAt(s, op, Collect(s.ops[op], s.store, b))
    case SyncFetchFail(op, b) => PutOpAt(s, op, s.ops[op].(todo := s.ops[op].todo - {b}))
    case SyncAbort(op) => Done(s, op)
    case SyncApply(op) =>
      var o := s.ops[op];
      Done(PutGw(s, o.g, ApplySync(s.gws[o.g], o.known, o.got, s.now)), op)
    case Tick(d) => s.(now := s.now + d)
  }

  function Run(s: State, trace: seq<Label>): (r: Option<State>)
    decreases |trace|
  {
    if trace == [] then Some(s)
    else if !Enabled(s, trace[0]) then None
    else Run(Step(s, trace[0]), trace[1..])
  }

  // ---------------------------------------------------------------- invariant

  ghost predicate SnapOk(gws: map<nat, Gateway>) {
    forall g <- gws :: gws[g].snap == gws[g].entries
  }

  ghost predicate OpOk(o: Op, gws: map<nat, Gateway>, sys: bool) {
    && o.g in gws
    && (o.PutOp? && o.written ==> sys)
    && (o.SyncOp? && o.checked ==> sys)
  }

  ghost predicate OpsOk(ops: map<nat, Op>, gws: map<nat, Gateway>, nextOp: nat, sys: bool) {
    forall op <- ops :: op < nextOp && OpOk(ops[op], gws, sys)
  }

  ghost predicate SysOk(s: State) {
    !s.sys ==> s.store == map[] && forall g <- s.gws :: s.gws[g].entries == map[]
  }

  ghost predicate Inv(s: State) {
    SnapOk(s.gws) && OpsOk(s.ops, s.gws, s.nextOp, s.sys) && SysOk(s)
  }

  lemma StepKeepsOps(s: State, l: Label)
    requires OpsOk(s.ops, s.gws, s.nextOp, s.sys) && Enabled(s, l)
    ensures var t := Step(s, l); OpsOk(t.ops, t.gws, t.nextOp, t.sys)
  {
  }

  lemma SnapAfter(gws: map<nat, Gateway>, g: nat, gw: Gateway)
    requires SnapOk(gws) && gw.snap == gw.entries
    ensures SnapOk(gws[g := gw])
  {
  }

  lemma StepKeepsSnap(s: State, l: Label)
    requires SnapOk(s.gws) && Enabled(s, l)
    ensures SnapOk(Step(s, l).gws)
  {
    match l
    case Start(g, loaded) => SnapAfter(s.gws, g, Gateway(loaded, loaded, map[]));
    case BeginRemove(g, b) => SnapAfter(s.gws, g, Bury(s.gws[g], b, s.now));
    case PutFinish(op) => SnapAfter(s.gws, s.ops[op].g, PutLocal(s.gws[s.ops[op].g], s.ops[op].b, s.ops[op].e));
    case DeleteFail(op) => SnapAfter(s.gws, s.ops[op].g, Unbury(s.gws[s.ops[op].g], s.ops[op].b));
    case FinishRemove(op) => SnapAfter(s.gws, s.ops[op].g, RemoveLocal(s.gws[s.ops[op].g], s.ops[op].b));
    case SyncApply(op) =>
      SnapAfter(s.gws, s.ops[op].g, ApplySync(s.gws[s.ops[op].g], s.ops[op].known, s.ops[op].got, s.now));
    case _ =>
  }

  lemma StepKeepsSys(s: State, l: Label)
    requires SysOk(s) && OpsOk(s.ops, s.gws, s.nextOp, s.sys) && Enabled(s, l)
    ensures SysOk(Step(s, l))
  {
  }

  lemma StepKeeps(s: State, l: Label)
    requires Inv(s) && Enabled(s, l)
    ensures Inv(Step(s, l))
  {
    StepKeepsOps(s, l);
    StepKeepsSnap(s, l);
    StepKeepsSys(s, l);
  }

  lemma {:induction false} RunKeeps(s: State, trace: seq<Label>)
    requires Inv(s) && Run(s, trace).Some?
    ensures Inv(Run(s, trace).value)
    decreases |trace|
  {
    if trace != [] {
      StepKeeps(s, trace[0]);
      RunKeeps(Step(s, trace[0]), trace[1..]);
    }
  }

  ghost predicate Reachable(s: State) {
    exists i: State, trace: seq<Label> :: IsInit(i) && Run(i, trace) == Some(s)
  }

  lemma ReachableInv(s: State)
    requires Reachable(s)
    ensures Inv(s)
  {
    var i: State, trace: seq<Label> :| IsInit(i) && Run(i, trace) == Some(s);
    RunKeeps(i, trace);
  }

  // ---------------------------------------------------------------- the snapshot

  /** The published snapshot is the table, in every reachable state of every gateway. */
  lemma SnapshotIsTable(s: State, g: nat)
    requires Reachable(s) && g in s.gws
    ensures s.gws[g].snap == s.gws[g].entries
  {
    ReachableInv(s);
  }

  // ---------------------------------------------------------------- removed stays removed

  /** A sync adds a key its gateway lacks exactly when it fetched it and no unexpired tombstone covers it. */
  lemma SyncAddsIff(s: State, op: nat, b: nat)
    requires Enabled(s, SyncApply(op)) && b !in s.gws[s.ops[op].g].entries
    ensures var gw := s.gws[s.ops[op].g];
            b in Step(s, SyncApply(op)).gws[s.ops[op].g].entries
            <==> b in s.ops[op].got && (b in gw.tombs ==> s.now - gw.tombs[b] > TTL)
  {
  }

  /** The remove numbered `op` has deleted its object. */
  predicate HasDeleted(s: State, op: nat) {
    op in s.ops && s.ops[op].RemoveOp? ==> s.ops[op].deleted
  }

  /**
    What the promise about the remove numbered `rm`, of key b on gateway `g` at time `t0`, asks of a
    later step: nobody writes b once the delete is done, g finishes no earlier put of b, the remove is
    not abandoned, no remove of b on g fails, and a sync of g that fetched b applies while the
    tombstone of time t0 is within its TTL.
   */
  ghost predicate Respects(s: State, l: Label, rm: nat, g: nat, b: nat, t0: real)
    requires Enabled(s, l)
  {
    match l
    case PutWrite(op) => HasDeleted(s, rm) ==> s.ops[op].b != b
    case PutFinish(op) => s.ops[op].g != g || s.ops[op].b != b
    case DeleteFail(op) => s.ops[op].g != g || s.ops[op].b != b
    case RemoveAbort(op) => op != rm
    case SyncApply(op) => s.ops[op].g == g && b in s.ops[op].got ==> s.now - t0 <= TTL
    case _ => true
  }

  ghost predicate AllRespect(s: State, trace: seq<Label>, rm: nat, g: nat, b: nat, t0: real)
    decreases |trace|
  {
    trace == [] || (Enabled(s, trace[0]) ==>
                      Respects(s, trace[0], rm, g, b, t0) && AllRespect(Step(s, trace[0]), trace[1..], rm, g, b, t0))
  }

  /** The tombstone stands, or its time is over. */
  ghost predicate Buried(gw: Gateway, b: nat, now: real, t0: real) {
    (b in gw.tombs && gw.tombs[b] >= t0) || now - t0 > TTL
  }

  /** How far the remove numbered `op` has come: storage delete done, then table entry gone. */
  ghost predicate RemovedSoFar(s: State, op: nat, g: nat, b: nat, t0: real) {
    && g in s.gws && op < s.nextOp && t0 <= s.now
    && Buried(s.gws[g], b, s.now, t0)
    && (op in s.ops ==> s.ops[op].RemoveOp? && s.ops[op].g == g && s.ops[op].b == b && (s.ops[op].deleted ==> b !in s.store))
    && (op !in s.ops ==> b !in s.store && b !in s.gws[g].entries)
  }

  lemma RemovedStep(s: State, l: Label, op: nat, g: nat, b: nat, t0: real)
    requires Enabled(s, l) && Respects(s, l, op, g, b, t0) && RemovedSoFar(s, op, g, b, t0)
    ensures RemovedSoFar(Step(s, l), op, g, b, t0)
  {
    var t := Step(s, l);
    assert op !in s.ops ==> op !in t.ops;
    assert Buried(t.gws[g], b, t.now, t0);
    assert op !in t.ops ==> b !in t.store;
    if op !in t.ops && l.SyncApply? && s.ops[l.op].g == g {
      SyncAddsIff(s, l.op, b);
    }
  }

  lemma {:induction false} RemovedRun(s: State, trace: seq<Label>, op: nat, g: nat, b: nat, t0: real)
    requires Run(s, trace).Some? && AllRespect(s, trace, op, g, b, t0) && RemovedSoFar(s, op, g, b, t0)
    ensures RemovedSoFar(Run(s, trace).value, op, g, b, t0)
    decreases |trace|
  {
    if trace != [] {
      RemovedStep(s, trace[0], op, g, b, t0);
      RemovedRun(Step(s, trace[0]), trace[1..], op, g, b, t0);
    }
  }

  /**
    Once remove(b) has finished on gateway g, b is in neither storage nor g's table in every state
    of every continuation that respects the promise, whatever syncs listed b before the delete.
   */
  lemma RemovedStaysRemoved(s: State, g: nat, b: nat, trace: seq<Label>)
    requires Enabled(s, BeginRemove(g, b))
    requires Run(Step(s, BeginRemove(g, b)), trace).Some?
    requires AllRespect(Step(s, BeginRemove(g, b)), trace, s.nextOp, g, b, s.now)
    ensures var t := Run(Step(s, BeginRemove(g, b)), trace).value;
            s.nextOp !in t.ops ==> b !in t.store && g in t.gws && b !in t.gws[g].entries
  {
    RemovedRun(Step(s, BeginRemove(g, b)), trace, s.nextOp, g, b, s.now);
  }

  // ---------------------------------------------------------------- failed fetches

  /** An entry whose fetch yielded nothing survives the round exactly when it was not known at its start. */
  lemma FailedFetchKeepsIff(s: State, op: nat, b: nat)
    requires Enabled(s, SyncApply(op)) && b in s.gws[s.ops[op].g].entries && b !in s.ops[op].got
    ensures var was, now := s.gws[s.ops[op].g].entries, Step(s, SyncApply(op)).gws[s.ops[op].g].entries;
            (b in now && now[b] == was[b]) <==> b !in s.ops[op].known
  {
  }

  // ---------------------------------------------------------------- convergence

  ghost predicate Listed(o: Op, b: nat)
    requires o.SyncOp?
  {
    o.last || (o.cursor.Some? && b <= o.cursor.value)
  }

  /** What the sync has collected is the storage's well-formed content, complete up to its cursor. */
  ghost predicate Faithful(o: Op, store: map<nat, Object>) {
    && o.SyncOp?
    && (forall b <- o.got :: b in store && store[b] == Good(o.got[b]))
    && (forall b <- o.todo :: b in store)
    && (forall b <- store :: Listed(o, b) ==> b in o.todo || b in o.got || store[b].Malformed?)
  }

  /** Every local entry was known when the sync began or is in storage. */
  ghost predicate Covered(o: Op, entries: map<nat, Entry>, store: map<nat, Object>) {
    o.SyncOp? && forall b <- entries :: b in o.known || (b in store && store[b].Good?)
  }

  /** The entries of a table under the given tombstones whose keys are in well-formed storage. */
  function Shadowed(entries: map<nat, Entry>, tombs: set<nat>, store: map<nat, Object>): map<nat, Entry> {
    map b | b in entries && b in tombs && b in store && store[b].Good? :: entries[b]
  }

  /**
    The tombstones are among those of `was`; under them the table has nothing new, and what well-formed
    storage has a key for is as it was.
   */
  ghost predicate TombsShrink(gw: Gateway, was: Gateway, store: map<nat, Object>) {
    && (forall b <- gw.tombs :: b in was.tombs && was.tombs[b] == gw.tombs[b])
    && (forall b <- gw.tombs :: b in gw.entries ==> b in was.entries && gw.entries[b] == was.entries[b])
    && (forall b <- gw.tombs :: b in was.entries && b in store && store[b].Good? ==> b in gw.entries)
  }

  /** What a round leaves: well-formed storage, but under the tombstones the entries as they were. */
  function Settled(was: map<nat, Entry>, tombs: set<nat>, store: map<nat, Object>): map<nat, Entry> {
    (GoodEntries(store) - tombs) + Shadowed(was, tombs, store)
  }

  /** The gateway after a round: no tombstone that had expired at time `t0` is left. */
  ghost predicate InSync(gw: Gateway, was: Gateway, store: map<nat, Object>, t0: real) {
    && gw.entries == Settled(was.entries, gw.tombs.Keys, store)
    && gw.snap == gw.entries
    && forall b <- gw.tombs :: t0 - gw.tombs[b] <= TTL
  }

  lemma CollectedAll(o: Op, store: map<nat, Object>)
    requires Faithful(o, store) && o.last && o.todo == {}
    ensures o.got == GoodEntries(store)
  {
    assert o.got.Keys == GoodEntries(store).Keys;
  }

  lemma ApplyShrinks(gw: Gateway, was: Gateway, known: set<nat>, store: map<nat, Object>, now: real)
    requires TombsShrink(gw, was, store)
    ensures TombsShrink(ApplySync(gw, known, GoodEntries(store), now), was, store)
  {
  }

  lemma MergedSettles(gw: Gateway, was: Gateway, o: Op, store: map<nat, Object>, now: real)
    requires Covered(o, gw.entries, store) && TombsShrink(gw, was, store) && o.got == GoodEntries(store)
    ensures var tombs := Unexpired(gw.tombs, now);
            Merged(gw.entries, tombs, o.known, o.got) == Settled(was.entries, tombs.Keys, store)
  {
    var tombs := Unexpired(gw.tombs, now);
    var m, n := Merged(gw.entries, tombs, o.known, o.got), Settled(was.entries, tombs.Keys, store);
    assert forall b :: b in m <==> b in o.got && (b in tombs ==> b in gw.entries);
    assert m.Keys == n.Keys;
  }

  /** A complete, failure-free round leaves the gateway in sync. */
  lemma ApplyInSync(gw: Gateway, was: Gateway, o: Op, store: map<nat, Object>, now: real, t0: real)
    requires Faithful(o, store) && Covered(o, gw.entries, store) && o.last && o.todo == {} && now >= t0
    requires TombsShrink(gw, was, store) && gw.snap == gw.entries
    ensures var gw' := ApplySync(gw, o.known, o.got, now); TombsShrink(gw', was, store) && InSync(gw', was, store, t0)
  {
    CollectedAll(o, store);
    ApplyShrinks(gw, was, o.known, store, now);
    assert ApplySync(gw, o.known, o.got, now).entries
           == Settled(was.entries, Unexpired(gw.tombs, now).Keys, store) by { MergedSettles(gw, was, o, store, now); }
  }

  /** Entries only ever gain keys from storage, so the other syncs stay covered. */
  lemma ApplyStaysCovered(gw: Gateway, o: Op, p: Op, store: map<nat, Object>, now: real)
    requires Faithful(o, store) && Covered(p, gw.entries, store)
    ensures Covered(p, ApplySync(gw, o.known, o.got, now).entries, store)
  {
    var m := ApplySync(gw, o.known, o.got, now).entries;
    forall b <- m ensures b in p.known || (b in store && store[b].Good?) {
      if b in o.got { assert store[b] == Good(o.got[b]); }
    }
  }

  lemma ListFaithful(o: Op, store: map<nat, Object>, hi: nat, final: bool)
    requires Faithful(o, store) && !o.last && o.todo == {} && Beyond(o.cursor, hi)
    ensures Faithful(o.(todo := Page(store, o.cursor, hi, final), cursor := Some(hi), last := final), store)
  {
  }

  lemma FetchFaithful(o: Op, store: map<nat, Object>, b: nat)
    requires Faithful(o, store) && b in o.todo && b in store
    ensures Faithful(Collect(o, store, b), store)
  {
  }

  /**
    What a round on gateway `g` asks of a step: storage is not written, g's own table is changed by
    nothing but syncs, and no fetch of g fails. Other gateways do as they like.
   */
  ghost predicate Quiet(s: State, l: Label, g: nat)
    requires Enabled(s, l)
  {
    match l
    case PutWrite(_) => false
    case Delete(_) => false
    case BeginRemove(h, _) => h != g
    case PutFinish(op) => s.ops[op].g != g
    case DeleteFail(op) => s.ops[op].g != g
    case FinishRemove(op) => s.ops[op].g != g
    case SyncFetchFail(op, _) => s.ops[op].g != g
    case _ => true
  }

  ghost predicate AllQuiet(s: State, trace: seq<Label>, g: nat)
    decreases |trace|
  {
    trace == [] || (Enabled(s, trace[0]) ==> Quiet(s, trace[0], g) && AllQuiet(Step(s, trace[0]), trace[1..], g))
  }

  /** Gateway `g` has no sync under way. */
  ghost predicate Rests(ops: map<nat, Op>, g: nat) {
    forall op <- ops :: ops[op].SyncOp? ==> ops[op].g != g
  }

  /** The syncs of the gateway have collected faithfully and cover its table. */
  ghost predicate OwnSyncs(ops: map<nat, Op>, g: nat, entries: map<nat, Entry>, store: map<nat, Object>) {
    forall op <- ops :: ops[op].SyncOp? && ops[op].g == g ==> Faithful(ops[op], store) && Covered(ops[op], entries, store)
  }

  /** Gateway `g` since the quiet state `s0`, in sync once it has applied a round. */
  ghost predicate Settling(s: State, s0: State, g: nat, applied: bool) {
    && s.store == s0.store && s.now >= s0.now && g in s.gws && g in s0.gws
    && s.gws[g].snap == s.gws[g].entries && TombsShrink(s.gws[g], s0.gws[g], s.store)
    && (applied ==> InSync(s.gws[g], s0.gws[g], s.store, s0.now))
    && OwnSyncs(s.ops, g, s.gws[g].entries, s.store)
  }

  lemma OwnSyncsMove(ops: map<nat, Op>, g: nat, entries: map<nat, Entry>, store: map<nat, Object>, op: nat, o: Op)
    requires OwnSyncs(ops, g, entries, store)
    requires o.SyncOp? && o.g == g ==> Faithful(o, store) && Covered(o, entries, store)
    ensures OwnSyncs(ops[op := o], g, entries, store)
  {
  }

  lemma OwnSyncsEnd(ops: map<nat, Op>, g: nat, entries: map<nat, Entry>, store: map<nat, Object>, op: nat)
    requires OwnSyncs(ops, g, entries, store)
    ensures OwnSyncs(ops - {op}, g, entries, store)
  {
  }

  /** The gateway's own round ends. */
  lemma OwnApply(s: State, op: nat, s0: State, g: nat, applied: bool)
    requires Settling(s, s0, g, applied) && Enabled(s, SyncApply(op)) && s.ops[op].g == g
    ensures Settling(Step(s, SyncApply(op)), s0, g, true)
  {
    var o := s.ops[op];
    var gw := ApplySync(s.gws[g], o.known, o.got, s.now);
    ApplyInSync(s.gws[g], s0.gws[g], o, s.store, s.now, s0.now);
    forall x <- s.ops | s.ops[x].SyncOp? && s.ops[x].g == g ensures Covered(s.ops[x], gw.entries, s.store) {
      ApplyStaysCovered(s.gws[g], o, s.ops[x], s.store, s.now);
    }
    OwnSyncsEnd(s.ops, g, gw.entries, s.store, op);
  }

  /** A step that moves one operation on, and changes neither storage nor the gateway. */
  lemma MoveSettles(s: State, l: Label, s0: State, g: nat, applied: bool)
    requires Settling(s, s0, g, applied) && Enabled(s, l) && Quiet(s, l, g)
    requires l.SyncCheck? || l.SyncList? || l.SyncFetch? || l.SyncFetchFail?
    ensures OwnSyncs(Step(s, l).ops, g, s.gws[g].entries, s.store)
  {
    var o, entries := s.ops[l.op], s.gws[g].entries;
    match l
    case SyncCheck(op) =>
      OwnSyncsEnd(s.ops, g, entries, s.store, op);
      OwnSyncsMove(s.ops, g, entries, s.store, op, o.(checked := true));
    case SyncList(op, hi, final) =>
      if o.g == g { ListFaithful(o, s.store, hi, final); }
      OwnSyncsMove(s.ops, g, entries, s.store, op,
                   o.(todo := Page(s.store, o.cursor, hi, final), cursor := Some(hi), last := final));
    case SyncFetch(op, b) =>
      if o.g == g { FetchFaithful(o, s.store, b); }
      OwnSyncsMove(s.ops, g, entries, s.store, op, Collect(o, s.store, b));
    case SyncFetchFail(op, b) =>
      OwnSyncsMove(s.ops, g, entries, s.store, op, o.(todo := o.todo - {b}));
  }

  /** An operation begins. */
  lemma BeginSettles(s: State, l: Label, s0: State, g: nat, applied: bool)
    requires Settling(s, s0, g, applied) && Enabled(s, l) && Quiet(s, l, g)
    requires l.BeginPut? || l.BeginRemove? || l.BeginSync?
    ensures OwnSyncs(Step(s, l).ops, g, s.gws[g].entries, s.store)
  {
    OwnSyncsMove(s.ops, g, s.gws[g].entries, s.store, s.nextOp, Step(s, l).ops[s.nextOp]);
  }

  /** Any step but the gateway's own apply leaves the gateway alone. */
  lemma OthersSettle(s: State, l: Label, g: nat)
    requires Enabled(s, l) && Quiet(s, l, g) && g in s.gws && (l.SyncApply? ==> s.ops[l.op].g != g)
    ensures var t := Step(s, l); t.store == s.store && t.now >= s.now && g in t.gws && t.gws[g] == s.gws[g]
  {
  }

  lemma QuietStep(s: State, l: Label, s0: State, g: nat, applied: bool)
    requires Settling(s, s0, g, applied) && Enabled(s, l) && Quiet(s, l, g)
    ensures Settling(Step(s, l), s0, g, applied || (l.SyncApply? && s.ops[l.op].g == g))
  {
    if l.SyncApply? && s.ops[l.op].g == g {
      OwnApply(s, l.op, s0, g, applied);
    } else {
      OthersSettle(s, l, g);
      assert OwnSyncs(Step(s, l).ops, g, s.gws[g].entries, s.store) by {
        match l
        case SyncCheck(_) => MoveSettles(s, l, s0, g, applied);
        case SyncList(_, _, _) => MoveSettles(s, l, s0, g, applied);
        case SyncFetch(_, _) => MoveSettles(s, l, s0, g, applied);
        case SyncFetchFail(_, _) => MoveSettles(s, l, s0, g, applied);
        case BeginPut(_, _, _) => BeginSettles(s, l, s0, g, applied);
        case BeginRemove(_, _) => BeginSettles(s, l, s0, g, applied);
        case BeginSync(_) => BeginSettles(s, l, s0, g, applied);
        case Start(_, _) =>
        case Tick(_) =>
        case PutEnsure(_) =>
        case _ => OwnSyncsEnd(s.ops, g, s.gws[g].entries, s.store, l.op);
      }
    }
  }

  /** Gateway `g` applies a sync somewhere in the run. */
  ghost predicate Applies(s: State, trace: seq<Label>, g: nat)
    decreases |trace|
  {
    && trace != [] && Enabled(s, trace[0])
    && ((trace[0].SyncApply? && s.ops[trace[0].op].g == g) || Applies(Step(s, trace[0]), trace[1..], g))
  }

  lemma {:induction false} QuietRun(s: State, trace: seq<Label>, s0: State, g: nat, applied: bool)
    requires Settling(s, s0, g, applied) && Run(s, trace).Some? && AllQuiet(s, trace, g)
    ensures Settling(Run(s, trace).value, s0, g, applied || Applies(s, trace, g))
    decreases |trace|
  {
    if trace != [] {
      var l := trace[0];
      QuietStep(s, l, s0, g, applied);
      QuietRun(Step(s, l), trace[1..], s0, g, applied || (l.SyncApply? && s.ops[l.op].g == g));
    }
  }

  /** Every tombstone of the gateway has expired. */
  ghost predicate Expired(gw: Gateway, now: real) {
    forall b <- gw.tombs :: now - gw.tombs[b] > TTL
  }

  /**
    From any reachable state in which gateway `g` has no sync under way, any run that is quiet for g and
    in which g completes a round leaves g's table and snapshot equal to well-formed storage, except
    for the keys under g's remaining tombstones: of those it keeps what it had, stale or not, if
    storage still has the key. So g mirrors storage without the tombstoned keys if and only if it had
    no such entry. What other gateways do meanwhile, short of writing storage, does not matter.
   */
  lemma SyncConverges(s: State, trace: seq<Label>, g: nat)
    requires Reachable(s) && g in s.gws && Rests(s.ops, g)
    requires Run(s, trace).Some? && AllQuiet(s, trace, g) && Applies(s, trace, g)
    ensures var t := Run(s, trace).value;
            && t.store == s.store && g in t.gws
            && var gw := t.gws[g];
               && gw.entries == Settled(s.gws[g].entries, gw.tombs.Keys, s.store)
               && gw.snap == gw.entries
               && (gw.entries == GoodEntries(s.store) - gw.tombs.Keys
                   <==> Shadowed(s.gws[g].entries, gw.tombs.Keys, s.store) == map[])
               && (forall b <- gw.tombs :: b in s.gws[g].tombs && s.gws[g].tombs[b] == gw.tombs[b])
               && (Expired(s.gws[g], s.now) ==> gw.tombs == map[])
  {
    ReachableInv(s);
    QuietRun(s, trace, s, g, false);
    var t := Run(s, trace).value;
    if Expired(s.gws[g], s.now) {
      assert t.gws[g].tombs.Keys == {};
    }
    NothingShadowed(s.gws[g].entries, t.gws[g].tombs.Keys, s.store);
  }

  lemma NothingShadowed(entries: map<nat, Entry>, tombs: set<nat>, store: map<nat, Object>)
    ensures Settled(entries, tombs, store) == GoodEntries(store) - tombs <==> Shadowed(entries, tombs, store) == map[]
  {
    var kept, all := Shadowed(entries, tombs, store), Settled(entries, tombs, store);
    if kept != map[] {
      var b :| b in kept.Keys;
      assert b in all && b !in GoodEntries(store) - tombs;
    }
  }

  /** A round of `g` by which no tombstone is left, from `s` to `t`. */
  ghost predicate FullRound(s: State, trace: seq<Label>, g: nat, t: State) {
    && Reachable(s) && g in s.gws && Rests(s.ops, g) && Expired(s.gws[g], s.now)
    && Run(s, trace) == Some(t) && AllQuiet(s, trace, g) && Applies(s, trace, g)
  }

  lemma RoundMirrorsStorage(s: State, trace: seq<Label>, g: nat, t: State)
    requires FullRound(s, trace, g, t)
    ensures g in t.gws && t.gws[g].snap == GoodEntries(t.store)
  {
    SyncConverges(s, trace, g);
    assert Shadowed(s.gws[g].entries, {}, s.store) == map[] && GoodEntries(t.store) - {} == GoodEntries(t.store);
    assert t.gws[g].tombs.Keys == {};
  }

  /**
    Two gateways agree in any state that each has reached by a round of its own, from its own quiet
    starting point and with its tombstones expired by then.
   */
  lemma GatewaysAgree(s: State, trace: seq<Label>, g: nat, s': State, trace': seq<Label>, h: nat, t: State)
    requires FullRound(s, trace, g, t) && FullRound(s', trace', h, t)
    ensures g in t.gws && h in t.gws && t.gws[g].snap == t.gws[h].snap == GoodEntries(t.store)
  {
    RoundMirrorsStorage(s, trace, g, t);
    RoundMirrorsStorage(s', trace', h, t);
  }
}
