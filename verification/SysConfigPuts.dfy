/** What each step does to one key of one gateway, and what a finished put shows. */
module SysConfigPuts {
  import opened Common
  import opened SysConfigStore
  import opened SysConfigProtocol

  // ---------------------------------------------------------------- one key at a time

  /** What a gateway has under one key: the entry, the published entry and the tombstone. */
  datatype Cell = Cell(entry: Option<Entry>, shown: Option<Entry>, tomb: Option<real>)

  function Lookup<V>(m: map<nat, V>, b: nat): Option<V> {
    if b in m then Some(m[b]) else None
  }

  function CellAt(gw: Gateway, b: nat): Cell {
    Cell(Lookup(gw.entries, b), Lookup(gw.snap, b), Lookup(gw.tombs, b))
  }

  /** The gateway whose table a local step works on, and the key. */
  predicate Works(s: State, l: Label, g: nat, b: nat)
    requires Enabled(s, l)
  {
    match l
    case BeginRemove(h, c) => h == g && c == b
    case PutFinish(op) => s.ops[op].g == g && s.ops[op].b == b
    case DeleteFail(op) => s.ops[op].g == g && s.ops[op].b == b
    case FinishRemove(op) => s.ops[op].g == g && s.ops[op].b == b
    case _ => false
  }

  /** What the local steps do to the cell they work on. */
  function Worked(l: Label, s: State, c: Cell): Cell
    requires Enabled(s, l)
  {
    match l
    case BeginRemove(_, _) => c.(tomb := Some(s.now))
    case PutFinish(op) => Cell(Some(s.ops[op].e), Some(s.ops[op].e), None)
    case DeleteFail(_) => c.(tomb := None)
    case FinishRemove(_) => c.(entry := None, shown := None)
    case _ => c
  }

  lemma PutCell(gw: Gateway, b: nat, e: Entry, c: nat)
    requires gw.snap == gw.entries
    ensures CellAt(PutLocal(gw, b, e), c) == if c == b then Cell(Some(e), Some(e), None) else CellAt(gw, c)
  {
  }

  lemma RemoveCells(gw: Gateway, b: nat, now: real, c: nat)
    requires gw.snap == gw.entries
    ensures CellAt(Bury(gw, b, now), c) == if c == b then CellAt(gw, c).(tomb := Some(now)) else CellAt(gw, c)
    ensures CellAt(Unbury(gw, b), c) == if c == b then CellAt(gw, c).(tomb := None) else CellAt(gw, c)
    ensures CellAt(RemoveLocal(gw, b), c) == if c == b then CellAt(gw, c).(entry := None, shown := None) else CellAt(gw, c)
  {
  }

  /** A step that rewrites one gateway, seen from any gateway. */
  lemma CellAfter(gws: map<nat, Gateway>, h: nat, gw: Gateway, g: nat, b: nat)
    requires g in gws && h in gws
    ensures CellAt(gws[h := gw][g], b) == if g == h then CellAt(gw, b) else CellAt(gws[g], b)
  {
  }

  lemma PutFinishCell(s: State, op: nat, g: nat, b: nat)
    requires SnapOk(s.gws) && Enabled(s, PutFinish(op)) && g in s.gws
    ensures var c := CellAt(s.gws[g], b);
            CellAt(Step(s, PutFinish(op)).gws[g], b) == if Works(s, PutFinish(op), g, b) then Worked(PutFinish(op), s, c) else c
  {
    var o := s.ops[op];
    PutCell(s.gws[o.g], o.b, o.e, b);
    CellAfter(s.gws, o.g, PutLocal(s.gws[o.g], o.b, o.e), g, b);
  }

  lemma RemoveCell(s: State, l: Label, g: nat, b: nat)
    requires SnapOk(s.gws) && Enabled(s, l) && g in s.gws && (l.BeginRemove? || l.DeleteFail? || l.FinishRemove?)
    ensures var c := CellAt(s.gws[g], b);
            CellAt(Step(s, l).gws[g], b) == if Works(s, l, g, b) then Worked(l, s, c) else c
  {
    var h, k := if l.BeginRemove? then l.g else s.ops[l.op].g, if l.BeginRemove? then l.b else s.ops[l.op].b;
    RemoveCells(s.gws[h], k, s.now, b);
    CellAfter(s.gws, h, Step(s, l).gws[h], g, b);
    assert Step(s, l).gws == s.gws[h := Step(s, l).gws[h]];
  }

  lemma OtherCell(s: State, l: Label, g: nat)
    requires Enabled(s, l) && g in s.gws && !(l.SyncApply? && s.ops[l.op].g == g)
    requires !l.PutFinish? && !l.BeginRemove? && !l.DeleteFail? && !l.FinishRemove?
    ensures g in Step(s, l).gws && Step(s, l).gws[g] == s.gws[g]
  {
  }

  /**
    Every step except a sync of the gateway changes at most one key of one gateway, and there it does this:
    a finished put shows its value and clears the tombstone; a remove sets the tombstone, takes
    it back, or drops entry and published entry. Every other key of every gateway is as it was.
   */
  lemma StepCell(s: State, l: Label, g: nat, b: nat)
    requires Inv(s) && Enabled(s, l) && g in s.gws && !(l.SyncApply? && s.ops[l.op].g == g)
    ensures g in Step(s, l).gws
    ensures var c := CellAt(s.gws[g], b);
            CellAt(Step(s, l).gws[g], b) == if Works(s, l, g, b) then Worked(l, s, c) else c
  {
    if l.PutFinish? {
      PutFinishCell(s, l.op, g, b);
    } else if l.BeginRemove? || l.DeleteFail? || l.FinishRemove? {
      RemoveCell(s, l, g, b);
    } else {
      OtherCell(s, l, g);
    }
  }

  /** Storage changes only by the write of a put and the delete of a remove, each under its own key. */
  lemma StepObject(s: State, l: Label, b: nat)
    requires Enabled(s, l)
    ensures Lookup(Step(s, l).store, b) ==
            if l.PutWrite? && s.ops[l.op].b == b then Some(Good(s.ops[l.op].e))
            else if l.Delete? && s.ops[l.op].b == b then None
            else Lookup(s.store, b)
  {
  }

  // ---------------------------------------------------------------- a finished put stays visible

  /**
    What the promise about the put numbered `put`, of key b on gateway `g`, asks of a step after its write,
    when `first` operations had begun: nobody writes or deletes b, g finishes no other put and no remove
    of b, the put is not abandoned, g applies no sync begun before the write, and no later sync of g
    fails to fetch b.
   */
  ghost predicate Leaves(s: State, l: Label, put: nat, first: nat, g: nat, b: nat)
    requires Enabled(s, l)
  {
    match l
    case PutWrite(op) => s.ops[op].b != b
    case Delete(op) => s.ops[op].b != b
    case PutFail(op) => op != put
    case PutFinish(op) => op == put || s.ops[op].g != g || s.ops[op].b != b
    case FinishRemove(op) => s.ops[op].g != g || s.ops[op].b != b
    case SyncApply(op) => s.ops[op].g == g ==> op >= first
    case SyncFetchFail(op, c) => s.ops[op].g == g ==> c != b
    case _ => true
  }

  ghost predicate AllLeave(s: State, trace: seq<Label>, put: nat, first: nat, g: nat, b: nat)
    decreases |trace|
  {
    trace == [] || (Enabled(s, trace[0]) ==>
                      Leaves(s, trace[0], put, first, g, b) && AllLeave(Step(s, trace[0]), trace[1..], put, first, g, b))
  }

  /** The sync has fetched `e` under b once it is past b. */
  ghost predicate Sees(o: Op, b: nat, e: Entry) {
    && o.SyncOp?
    && (b in o.got ==> o.got[b] == e)
    && (Listed(o, b) ==> b in o.todo || b in o.got)
  }

  ghost predicate LaterSyncsSee(ops: map<nat, Op>, first: nat, g: nat, b: nat, e: Entry) {
    forall op <- ops :: op >= first && ops[op].SyncOp? && ops[op].g == g ==> Sees(ops[op], b, e)
  }

  ghost predicate Showing(s: State, put: nat, first: nat, g: nat, b: nat, e: Entry) {
    && put < first <= s.nextOp && (forall op <- s.ops :: op < s.nextOp) && g in s.gws
    && s.gws[g].snap == s.gws[g].entries
    && Lookup(s.store, b) == Some(Good(e))
    && (put in s.ops ==> s.ops[put] == PutOp(g, b, e, true))
    && (put !in s.ops ==> Lookup(s.gws[g].entries, b) == Some(e))
    && LaterSyncsSee(s.ops, first, g, b, e)
  }

  lemma SeesList(o: Op, b: nat, e: Entry, store: map<nat, Object>, hi: nat, final: bool)
    requires Sees(o, b, e) && b in store && o.todo == {} && !o.last && Beyond(o.cursor, hi)
    ensures Sees(o.(todo := Page(store, o.cursor, hi, final), cursor := Some(hi), last := final), b, e)
  {
  }

  lemma SeesFetch(o: Op, b: nat, e: Entry, store: map<nat, Object>, c: nat)
    requires Sees(o, b, e) && Lookup(store, b) == Some(Good(e)) && c in o.todo && c in store
    ensures Sees(Collect(o, store, c), b, e)
  {
  }

  lemma SeesMove(ops: map<nat, Op>, first: nat, g: nat, b: nat, e: Entry, op: nat, o: Op)
    requires LaterSyncsSee(ops, first, g, b, e) && (o.SyncOp? && o.g == g && op >= first ==> Sees(o, b, e))
    ensures LaterSyncsSee(ops[op := o], first, g, b, e)
  {
  }

  lemma SeesEnd(ops: map<nat, Op>, first: nat, g: nat, b: nat, e: Entry, op: nat)
    requires LaterSyncsSee(ops, first, g, b, e)
    ensures LaterSyncsSee(ops - {op}, first, g, b, e)
  {
  }

  lemma MoveSees(s: State, l: Label, put: nat, first: nat, g: nat, b: nat, e: Entry)
    requires Showing(s, put, first, g, b, e) && Enabled(s, l) && Leaves(s, l, put, first, g, b)
    requires l.SyncCheck? || l.SyncList? || l.SyncFetch? || l.SyncFetchFail?
    ensures LaterSyncsSee(Step(s, l).ops, first, g, b, e)
  {
    var o := s.ops[l.op];
    var own := o.g == g && l.op >= first;
    match l
    case SyncCheck(op) =>
      SeesEnd(s.ops, first, g, b, e, op);
      SeesMove(s.ops, first, g, b, e, op, o.(checked := true));
    case SyncList(op, hi, final) =>
      if own { SeesList(o, b, e, s.store, hi, final); }
      SeesMove(s.ops, first, g, b, e, op,
               o.(todo := Page(s.store, o.cursor, hi, final), cursor := Some(hi), last := final));
    case SyncFetch(op, c) =>
      if own { SeesFetch(o, b, e, s.store, c); }
      SeesMove(s.ops, first, g, b, e, op, Collect(o, s.store, c));
    case SyncFetchFail(op, c) =>
      SeesMove(s.ops, first, g, b, e, op, o.(todo := o.todo - {c}));
  }

  lemma OtherSees(s: State, l: Label, put: nat, first: nat, g: nat, b: nat, e: Entry)
    requires Showing(s, put, first, g, b, e) && Enabled(s, l)
    requires !(l.SyncCheck? || l.SyncList? || l.SyncFetch? || l.SyncFetchFail?)
    ensures LaterSyncsSee(Step(s, l).ops, first, g, b, e)
  {
    var t := Step(s, l);
    if l.BeginPut? || l.BeginRemove? || l.BeginSync? {
      SeesMove(s.ops, first, g, b, e, s.nextOp, t.ops[s.nextOp]);
    } else if l.PutWrite? || l.Delete? {
      SeesMove(s.ops, first, g, b, e, l.op, t.ops[l.op]);
    } else if l.Start? || l.Tick? || l.PutEnsure? {
      assert t.ops == s.ops;
    } else {
      SeesEnd(s.ops, first, g, b, e, l.op);
    }
  }

  lemma StepSees(s: State, l: Label, put: nat, first: nat, g: nat, b: nat, e: Entry)
    requires Showing(s, put, first, g, b, e) && Enabled(s, l) && Leaves(s, l, put, first, g, b)
    ensures LaterSyncsSee(Step(s, l).ops, first, g, b, e)
  {
    if l.SyncCheck? || l.SyncList? || l.SyncFetch? || l.SyncFetchFail? {
      MoveSees(s, l, put, first, g, b, e);
    } else {
      OtherSees(s, l, put, first, g, b, e);
    }
  }

  /** The put itself: still on its way, or done. */
  lemma StepPut(s: State, l: Label, put: nat, first: nat, g: nat, b: nat, e: Entry)
    requires Showing(s, put, first, g, b, e) && Enabled(s, l) && Leaves(s, l, put, first, g, b)
    ensures put in s.ops && !(l.PutFinish? && l.op == put) ==> put in Step(s, l).ops && Step(s, l).ops[put] == s.ops[put]
    ensures put !in s.ops || (l.PutFinish? && l.op == put) ==> put !in Step(s, l).ops
    ensures Step(s, l).nextOp >= s.nextOp && forall op <- Step(s, l).ops :: op < Step(s, l).nextOp
  {
  }

  /** A sync of the gateway begun after the write leaves the value. */
  lemma ApplyShows(s: State, op: nat, first: nat, g: nat, b: nat, e: Entry)
    requires Enabled(s, SyncApply(op)) && s.ops[op].g == g && op >= first && LaterSyncsSee(s.ops, first, g, b, e)
    requires Lookup(s.gws[g].entries, b) == Some(e)
    ensures Lookup(Step(s, SyncApply(op)).gws[g].entries, b) == Some(e)
  {
  }

  lemma EntryAfter(s: State, l: Label, put: nat, first: nat, g: nat, b: nat, e: Entry)
    requires Inv(s) && Showing(s, put, first, g, b, e) && Enabled(s, l) && Leaves(s, l, put, first, g, b)
    requires put !in s.ops || (l.PutFinish? && l.op == put)
    ensures g in Step(s, l).gws && Lookup(Step(s, l).gws[g].entries, b) == Some(e)
  {
    if l.SyncApply? && s.ops[l.op].g == g {
      ApplyShows(s, l.op, first, g, b, e);
    } else {
      var t := Step(s, l);
      StepCell(s, l, g, b);
      assert CellAt(t.gws[g], b).entry == Lookup(t.gws[g].entries, b);
      assert CellAt(s.gws[g], b).entry == Lookup(s.gws[g].entries, b);
    }
  }

  lemma ShowingStep(s: State, l: Label, put: nat, first: nat, g: nat, b: nat, e: Entry)
    requires Inv(s) && Showing(s, put, first, g, b, e) && Enabled(s, l) && Leaves(s, l, put, first, g, b)
    ensures Showing(Step(s, l), put, first, g, b, e)
  {
    var t := Step(s, l);
    StepObject(s, l, b);
    StepPut(s, l, put, first, g, b, e);
    StepSees(s, l, put, first, g, b, e);
    assert g in t.gws && t.gws[g].snap == t.gws[g].entries by {
      StepKeeps(s, l);
      StepGateways(s, l, g);
    }
    if put !in t.ops {
      EntryAfter(s, l, put, first, g, b, e);
    }
  }

  lemma StepGateways(s: State, l: Label, g: nat)
    requires Enabled(s, l) && g in s.gws
    ensures g in Step(s, l).gws
  {
  }

  lemma {:induction false} ShowingRun(s: State, trace: seq<Label>, put: nat, first: nat, g: nat, b: nat, e: Entry)
    requires Inv(s) && Showing(s, put, first, g, b, e) && Run(s, trace).Some? && AllLeave(s, trace, put, first, g, b)
    ensures Showing(Run(s, trace).value, put, first, g, b, e)
    decreases |trace|
  {
    if trace != [] {
      StepKeeps(s, trace[0]);
      ShowingStep(s, trace[0], put, first, g, b, e);
      ShowingRun(Step(s, trace[0]), trace[1..], put, first, g, b, e);
    }
  }

  /**
    A put is visible from its lock section on: in every run after its storage write that leaves the key alone,
    table and snapshot of its gateway show the value put once the put has finished, whatever
    syncs began meanwhile; and storage holds it.
   */
  lemma PutStaysVisible(s: State, put: nat, trace: seq<Label>)
    requires Reachable(s) && Enabled(s, PutWrite(put)) && Run(Step(s, PutWrite(put)), trace).Some?
    requires AllLeave(Step(s, PutWrite(put)), trace, put, s.nextOp, s.ops[put].g, s.ops[put].b)
    ensures var o, t := s.ops[put], Run(Step(s, PutWrite(put)), trace).value;
            && Lookup(t.store, o.b) == Some(Good(o.e))
            && (put !in t.ops ==> && o.g in t.gws
                                  && Lookup(t.gws[o.g].entries, o.b) == Some(o.e)
                                  && Lookup(t.gws[o.g].snap, o.b) == Some(o.e))
  {
    ReachableInv(s);
    StepKeeps(s, PutWrite(put));
    var o := s.ops[put];
    ShowingRun(Step(s, PutWrite(put)), trace, put, s.nextOp, o.g, o.b, o.e);
  }
}
