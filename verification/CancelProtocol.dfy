/**
  Every interleaving of registration, cancellation, batch firing and deregistration on one
  cancellation state. `started` is the ghost log of callbacks begun, `swapped` the batch taken by
  the winning request_cancel, `waiting` the threads blocked in remove_callback.
 */
module CancelProtocol {
  import opened Common
  import opened CancelState

  datatype State = State(core: Core, batch: seq<nat>, running: Option<nat>, threw: Option<nat>,
                         swapped: seq<nat>, started: seq<nat>, waiting: set<(nat, nat)>)

  datatype Label =
    | Add
    | RequestCancel(t: nat)
    | BeginNext
    | EndRun(throws: bool)
    | FinishFiring
    | RemoveSection(t: nat, id: nat)
    | RemoveWake(t: nat, id: nat)

  const Init: State := State(Initial, [], None, None, [], [], {})

  ghost predicate Enabled(s: State, l: Label) {
    match l
    case Add => true
    case RequestCancel(_) => true
    case BeginNext => s.core.firing.Some? && s.running.None? && s.batch != []
    case EndRun(_) => s.running.Some?
    case FinishFiring => s.core.firing.Some? && s.running.None? && s.batch == []
    case RemoveSection(_, _) => true
    case RemoveWake(t, id) => (t, id) in s.waiting && s.core.firing.None?
  }

  ghost function Step(s: State, l: Label): State
    requires Enabled(s, l)
  {
    match l
    case Add => s.(core := AddLocked(s.core))
    case RequestCancel(t) =>
      var u := s.(core := SwapLocked(s.core, t));
      if s.core.cancelled then u
      else
        var ids := Ascending(s.core.callbacks);
        u.(batch := ids, swapped := ids)
    case BeginNext => s.(batch := s.batch[1..], running := Some(s.batch[0]), started := s.started + [s.batch[0]])
    case EndRun(throws) =>
      if throws then s.(running := None, batch := [], threw := s.running) else s.(running := None)
    case FinishFiring => s.(core := s.core.(firing := None))
    case RemoveSection(t, id) =>
      s.(core := RemoveLocked(s.core, id),
         waiting := if Blocks(s.core, t, id) then s.waiting + {(t, id)} else s.waiting)
    case RemoveWake(t, id) => s.(waiting := s.waiting - {(t, id)})
  }

  ghost function Run(s: State, trace: seq<Label>): (r: Option<State>)
    decreases |trace|
  {
    if trace == [] then Some(s)
    else if !Enabled(s, trace[0]) then None
    else Run(Step(s, trace[0]), trace[1..])
  }

  // ---------------------------------------------------------------- invariant

  /** The batch fired so far is a prefix of what was swapped out, cut short only by an exception. */
  ghost predicate BatchOk(s: State) {
    && (s.threw.None? ==> s.swapped == s.started + s.batch)
    && (s.threw.Some? ==> s.batch == [] && s.started <= s.swapped && s.started != []
                          && s.threw.value == s.started[|s.started| - 1])
    && (s.running.Some? ==> s.started != [] && s.running.value == s.started[|s.started| - 1] && s.threw.None?)
  }

  ghost predicate IdsOk(s: State) {
    && (forall x <- s.core.callbacks :: 0 < x <= s.core.nextId)
    && (forall x <- s.swapped :: 0 < x <= s.core.nextId)
    && (forall i, j :: 0 <= i < j < |s.swapped| ==> s.swapped[i] < s.swapped[j])
  }

  ghost predicate Inv(s: State) {
    && BatchOk(s) && IdsOk(s)
    && (s.core.cancelled ==> s.core.callbacks == {})
    && (!s.core.cancelled ==> s.swapped == s.started == [] && s.threw.None? && s.core.firing.None? && s.waiting == {})
    && (s.core.firing.None? ==> s.batch == [] && s.running.None?)
  }

  lemma SwapKeeps(s: State, t: nat)
    requires Inv(s)
    ensures Inv(Step(s, RequestCancel(t)))
  {
    var ids := Ascending(s.core.callbacks);
    AscendingHolds(s.core.callbacks);
    AscendingSorted(s.core.callbacks);
    assert [] + ids == ids;
    var u := Step(s, RequestCancel(t));
    assert IdsOk(u);
    assert BatchOk(u);
  }

  lemma BeginKeeps(s: State)
    requires Inv(s) && Enabled(s, BeginNext)
    ensures Inv(Step(s, BeginNext))
  {
    assert s.started + s.batch == (s.started + [s.batch[0]]) + s.batch[1..];
  }

  lemma StepKeeps(s: State, l: Label)
    requires Inv(s) && Enabled(s, l)
    ensures Inv(Step(s, l))
  {
    match l
    case RequestCancel(t) => SwapKeeps(s, t);
    case BeginNext => BeginKeeps(s);
    case _ =>
  }

  lemma {:induction false} RunKeeps(s: State, trace: seq<Label>)
    requires Inv(s) && Run(s, trace).Some?
    ensures Inv(Run(s, trace).value)
    decreases |trace|
  {
    if trace != [] {
      StepKeeps(s, trace[0]);
      RunKeeps(Step(s, trace[0]), trace[1..]);
    }
  }

  ghost predicate Reachable(s: State) {
    exists trace: seq<Label> :: Run(Init, trace) == Some(s)
  }

  lemma ReachableInv(s: State)
    requires Reachable(s)
    ensures Inv(s)
  {
    var trace: seq<Label> :| Run(Init, trace) == Some(s);
    RunKeeps(Init, trace);
  }

  // ---------------------------------------------------------------- what every run promises

  /** No callback is begun twice, in any run. */
  lemma RunsAtMostOnce(s: State)
    requires Reachable(s)
    ensures NoDup(s.started)
  {
    ReachableInv(s);
    assert s.started <= s.swapped;
    assert forall i :: 0 <= i < |s.started| ==> s.started[i] == s.swapped[i];
  }

  /** The winning request_cancel takes exactly the callbacks registered and not removed by then. */
  lemma SwapTakesRegistered(s: State, t: nat)
    requires Reachable(s) && !s.core.cancelled
    ensures var u := Step(s, RequestCancel(t)); forall x :: x in u.swapped <==> x in s.core.callbacks
  {
    AscendingHolds(s.core.callbacks);
  }

  /**
    When firing has finished, the callbacks that ran are the swapped batch in id order up to the
    one that threw: all of them exactly when none threw before the last.
   */
  lemma FinishedFiring(s: State)
    requires Reachable(s) && s.core.cancelled && s.core.firing.None?
    ensures s.started <= s.swapped
    ensures s.started == s.swapped || (s.started != [] && s.threw == Some(s.swapped[|s.started| - 1]))
    ensures forall j :: 0 <= j < |s.swapped| ==> (s.swapped[j] in s.started <==> j < |s.started|)
    ensures s.threw.None? ==> s.started == s.swapped
  {
    ReachableInv(s);
    forall j | 0 <= j < |s.swapped| ensures s.swapped[j] in s.started <==> j < |s.started| {
      if j < |s.started| { assert s.started[j] == s.swapped[j]; }
    }
  }

  lemma {:induction false} SwappedStays(s: State, trace: seq<Label>)
    requires s.core.cancelled && Run(s, trace).Some?
    ensures var u := Run(s, trace).value; u.core.cancelled && u.swapped == s.swapped
    decreases |trace|
  {
    if trace != [] {
      SwappedStays(Step(s, trace[0]), trace[1..]);
    }
  }

  /**
    From the winning request_cancel on, whatever is added, removed or requested meanwhile: once firing
    is over, the callbacks that ran are those registered and not removed at the swap, each once and in
    id order, up to the first that threw; all of them when none did.
   */
  lemma RegisteredAtSwapRuns(s: State, t: nat, trace: seq<Label>)
    requires Reachable(s) && !s.core.cancelled && Run(Step(s, RequestCancel(t)), trace).Some?
    requires Run(Step(s, RequestCancel(t)), trace).value.core.firing.None?
    ensures var u := Run(Step(s, RequestCancel(t)), trace).value;
            && NoDup(u.started) && u.started <= Ascending(s.core.callbacks)
            && (forall x <- u.started :: x in s.core.callbacks)
            && (u.threw.None? ==> forall x <- s.core.callbacks :: x in u.started)
            && (u.threw.Some? ==> u.started != [] && u.threw.value == u.started[|u.started| - 1])
  {
    var r := Step(s, RequestCancel(t));
    var u := Run(r, trace).value;
    ExtendReachable(s, RequestCancel(t));
    ReachableOn(r, trace);
    SwappedStays(r, trace);
    AscendingHolds(s.core.callbacks);
    ReachableInv(u);
    RunsAtMostOnce(u);
    forall x <- u.started ensures x in s.core.callbacks {
      assert x in u.swapped;
    }
  }

  lemma ReachableOn(s: State, trace: seq<Label>)
    requires Reachable(s) && Run(s, trace).Some?
    ensures Reachable(Run(s, trace).value)
  {
    var before: seq<Label> :| Run(Init, before) == Some(s);
    RunAppend(Init, before, trace);
    assert Run(Init, before + trace) == Some(Run(s, trace).value);
  }

  /** Some continuation of the run begins callback `id`. */
  ghost predicate CanStart(s: State, id: nat) {
    exists trace: seq<Label> :: Starts(s, trace, id)
  }

  ghost predicate Starts(s: State, trace: seq<Label>, id: nat) {
    Run(s, trace).Some? && id !in s.started && id in Run(s, trace).value.started
  }

  /** Registered and waiting for a cancel, or swapped out and still ahead of the firing loop. */
  ghost predicate Live(s: State, id: nat) {
    id in s.core.callbacks || id in s.batch
  }

  lemma DeadStep(s: State, l: Label, id: nat)
    requires Inv(s) && Enabled(s, l) && 0 < id <= s.core.nextId && !Live(s, id)
    ensures var t := Step(s, l); id <= t.core.nextId && !Live(t, id) && (id in t.started ==> id in s.started)
  {
    if l.RequestCancel? { AscendingHolds(s.core.callbacks); }
  }

  lemma {:induction false} DeadStays(s: State, trace: seq<Label>, id: nat)
    requires Inv(s) && Run(s, trace).Some? && 0 < id <= s.core.nextId && !Live(s, id)
    ensures var t := Run(s, trace).value; !Live(t, id) && (id in t.started ==> id in s.started)
    decreases |trace|
  {
    if trace != [] {
      StepKeeps(s, trace[0]);
      DeadStep(s, trace[0], id);
      DeadStays(Step(s, trace[0]), trace[1..], id);
    }
  }

  /** A trace that ends the running callback, if any, and fires on until `id` begins. */
  lemma {:induction false} FireUntil(s: State, id: nat) returns (trace: seq<Label>)
    requires Inv(s) && s.core.firing.Some? && id in s.batch
    ensures Run(s, trace).Some? && id in Run(s, trace).value.started
    decreases |s.batch|, s.running.Some?
  {
    var l := if s.running.Some? then EndRun(false) else BeginNext;
    var t := Step(s, l);
    StepKeeps(s, l);
    if l == BeginNext && s.batch[0] == id {
      trace := [BeginNext];
      assert trace[1..] == [];
      assert Run(t, []) == Some(t);
    } else {
      var rest := FireUntil(t, id);
      trace := [l] + rest;
      assert trace[1..] == rest;
    }
  }

  lemma LiveCanStart(s: State, id: nat)
    requires Inv(s) && Live(s, id)
    ensures CanStart(s, id)
  {
    NotStartedYet(s, id);
    if id in s.batch {
      var trace := FireUntil(s, id);
      assert Starts(s, trace, id);
    } else {
      var t := Step(s, RequestCancel(0));
      SwapKeeps(s, 0);
      AscendingHolds(s.core.callbacks);
      var rest := FireUntil(t, id);
      var trace := [RequestCancel(0)] + rest;
      assert trace[0] == RequestCancel(0) && trace[1..] == rest;
      assert Run(s, trace) == Run(t, rest);
      assert Starts(s, trace, id);
    }
  }

  /** Exactly the live callbacks can still begin. */
  lemma CanStartIffLive(s: State, id: nat)
    requires Reachable(s) && 0 < id <= s.core.nextId
    ensures CanStart(s, id) <==> Live(s, id)
  {
    ReachableInv(s);
    if Live(s, id) {
      LiveCanStart(s, id);
    } else if CanStart(s, id) {
      var trace: seq<Label> :| Starts(s, trace, id);
      DeadStays(s, trace, id);
    }
  }

  /**
    What each step does to one callback: a new one is registered, under an id never used before, if and only if
    nothing was cancelled yet; a remove takes off its own callback and no other; the winning request takes all.
   */
  lemma StepRegistered(s: State, l: Label, id: nat)
    requires Inv(s) && Enabled(s, l)
    ensures id in Step(s, l).core.callbacks <==>
            if l.Add? && !s.core.cancelled && id == s.core.nextId + 1 then true
            else id in s.core.callbacks && !l.RequestCancel? && !(l.RemoveSection? && l.id == id && id != 0)
    ensures l.Add? && !s.core.cancelled ==>
              Step(s, l).core.nextId == s.core.nextId + 1 && !Live(s, s.core.nextId + 1) && s.core.nextId + 1 !in s.started
  {
  }

  /** A callback that was registered can begin. */
  lemma AddedCanStart(s: State)
    requires Reachable(s) && !s.core.cancelled
    ensures CanStart(Step(s, Add), s.core.nextId + 1)
  {
    ReachableInv(s);
    StepRegistered(s, Add, s.core.nextId + 1);
    ExtendReachable(s, Add);
    CanStartIffLive(Step(s, Add), s.core.nextId + 1);
  }

  lemma NotStartedYet(s: State, id: nat)
    requires Inv(s) && Live(s, id)
    ensures id !in s.started
  {
    forall i, j | 0 <= i < |s.started| && 0 <= j < |s.batch| ensures s.started[i] != s.batch[j] {
      assert s.swapped[i] < s.swapped[|s.started| + j];
    }
  }

  /**
    Once remove_callback has returned on a thread other than the firing one, at once because its section did
    not leave it waiting, or after its wait, the callback is not running and no continuation ever begins it.
    It returns at once when nothing is firing.
   */
  lemma RemovedNeverRuns(s: State, t: nat, id: nat)
    requires Reachable(s) && 0 < id <= s.core.nextId
    ensures s.core.firing != Some(t) ==>
              var u := Step(s, RemoveSection(t, id)); (t, id) in u.waiting || (u.running != Some(id) && !CanStart(u, id))
    ensures s.core.firing.None? ==>
              var u := Step(s, RemoveSection(t, id)); u.waiting == s.waiting && u.running != Some(id) && !CanStart(u, id)
    ensures Enabled(s, RemoveWake(t, id)) ==>
              var u := Step(s, RemoveWake(t, id)); u.running != Some(id) && !CanStart(u, id)
  {
    ReachableInv(s);
    if s.core.firing != Some(t) {
      ExtendReachable(s, RemoveSection(t, id));
      CanStartIffLive(Step(s, RemoveSection(t, id)), id);
    }
    if Enabled(s, RemoveWake(t, id)) {
      ExtendReachable(s, RemoveWake(t, id));
      CanStartIffLive(Step(s, RemoveWake(t, id)), id);
    }
  }

  /** On the firing thread remove_callback returns at once, and the callback can still begin exactly when it is later in the batch. */
  lemma RemovedOnFiringThread(s: State, t: nat, id: nat)
    requires Reachable(s) && 0 < id <= s.core.nextId && s.core.firing == Some(t)
    ensures var u := Step(s, RemoveSection(t, id));
            (t, id) in u.waiting <==> (t, id) in s.waiting
    ensures CanStart(Step(s, RemoveSection(t, id)), id) <==> id in s.batch
  {
    ReachableInv(s);
    ExtendReachable(s, RemoveSection(t, id));
    CanStartIffLive(Step(s, RemoveSection(t, id)), id);
  }

  lemma {:induction false} RunAppend(s: State, a: seq<Label>, b: seq<Label>)
    requires Run(s, a).Some?
    ensures Run(s, a + b) == Run(Run(s, a).value, b)
    decreases |a|
  {
    if a == [] {
      assert a + b == b;
    } else {
      assert (a + b)[1..] == a[1..] + b;
      RunAppend(Step(s, a[0]), a[1..], b);
    }
  }

  lemma ExtendReachable(s: State, l: Label)
    requires Reachable(s) && Enabled(s, l)
    ensures Reachable(Step(s, l))
  {
    var trace: seq<Label> :| Run(Init, trace) == Some(s);
    RunAppend(Init, trace, [l]);
    assert [l][1..] == [];
    assert Run(Step(s, l), []) == Some(Step(s, l));
    assert Run(Init, trace + [l]) == Some(Step(s, l));
  }
}
