/**
  when_all of src/core/task.h: n runners and the awaiter make n + 1 votes on a latch, and whoever
  casts the last vote resumes the awaiting coroutine. Starting a runner may fail partway through.
 */
module WhenAll {
  import opened Common

  // ---------------------------------------------------------------- the latch

  /** `H` is the type of coroutine handles. */
  datatype Core<H> = Core(pending: int, continuation: Option<H>)

  function Fresh<H>(n: nat): Core<H> {
    Core(n + 1, None)
  }

  /** pending.fetch_sub(1): the voter that finds 1 transfers to whatever handle is stored. */
  function CastVote<H>(c: Core<H>): (Core<H>, Ballot<H>) {
    (c.(pending := c.pending - 1), if c.pending == 1 then Last(c.continuation) else More)
  }

  function StoreHandle<H>(c: Core<H>, h: H): Core<H> {
    c.(continuation := Some(h))
  }

  /** The votes of children that were never started. */
  function Forfeit<H>(c: Core<H>, votes: int): Core<H> {
    c.(pending := c.pending - votes)
  }

  /** The ballots of `k` votes in a row. */
  function Ballots<H>(c: Core<H>, k: nat): (r: seq<Ballot<H>>)
    ensures |r| == k
    decreases k
  {
    if k == 0 then [] else [CastVote(c).1] + Ballots(CastVote(c).0, k - 1)
  }

  /** Of the votes on a latch exactly one is the last: the one that brings the count to 0. */
  lemma {:induction false} OneLastVote<H>(c: Core<H>, k: nat, j: nat)
    requires j < k
    ensures Ballots(c, k)[j] == if c.pending == j + 1 then Last(c.continuation) else More
    decreases k
  {
    if j > 0 {
      OneLastVote(CastVote(c).0, k - 1, j - 1);
    }
  }

  class WhenAllLatch<H> {
    var pending: int
    var continuation: Option<H>

    ghost function View(): Core<H>
      reads this
    {
      Core(pending, continuation)
    }

    constructor (n: nat)
      ensures View() == Fresh(n)
    {
      pending, continuation := n + 1, None;
    }

    method Arrive() returns (b: Ballot<H>)
      modifies this
      ensures (View(), b) == CastVote(old(View()))
    {
      b := if pending == 1 then Last(continuation) else More;
      pending := pending - 1;
    }

    /** WhenAllAwaiter::await_suspend: the handle is stored before the vote, so a last vote here never lacks one. */
    method Await(h: H) returns (b: Ballot<H>)
      modifies this
      ensures (View(), b) == CastVote(StoreHandle(old(View()), h))
      ensures b.Last? ==> b.handle == Some(h)
    {
      continuation := Some(h);
      b := if pending == 1 then Last(Some(h)) else More;
      pending := pending - 1;
    }

    /** when_all after a failed spawn. */
    method GiveUp(votes: int)
      modifies this
      ensures View() == Forfeit(old(View()), votes)
    {
      pending := pending - votes;
    }
  }

  /** Child `i` failed with `e`, and no child before it failed. */
  ghost predicate FirstError<E>(errors: seq<Option<E>>, i: nat, e: E) {
    i < |errors| && errors[i] == Some(e) && forall j :: 0 <= j < i ==> errors[j].None?
  }

  /** What when_all returns once resumed: the spawn error, else the first child error, else all results in order. */
  method Collect<T, E>(spawnError: Option<E>, errors: seq<Option<E>>, results: seq<Option<T>>)
    returns (r: Result<seq<T>, E>)
    requires |errors| == |results|
    requires spawnError.None? ==> forall i :: 0 <= i < |errors| ==> (errors[i].Some? || results[i].Some?)
    ensures spawnError.Some? ==> r == Err(spawnError.value)
    ensures r.Ok? ==> forall i :: 0 <= i < |errors| ==> errors[i].None?
    ensures spawnError.None? && r.Err? ==> exists i: nat :: FirstError(errors, i, r.error)
    ensures spawnError.None? && (forall i :: 0 <= i < |errors| ==> errors[i].None?) ==>
              r.Ok? && |r.value| == |results| && forall i :: 0 <= i < |results| ==> results[i] == Some(r.value[i])
  {
    if spawnError.Some? {
      return Err(spawnError.value);
    }
    for i := 0 to |errors|
      invariant forall j :: 0 <= j < i ==> errors[j].None?
    {
      if errors[i].Some? {
        assert FirstError(errors, i, errors[i].value);
        return Err(errors[i].value);
      }
    }
    var out := [];
    for i := 0 to |results|
      invariant |out| == i && forall j :: 0 <= j < i ==> results[j] == Some(out[j])
    {
      out := out + [results[i].value];
    }
    return Ok(out);
  }

  // ---------------------------------------------------------------- the protocol

  /** Where the when_all coroutine stands. */
  datatype Pc = Starting | SpawnFailed | Awaiting | Stored | Voted

  /** The one coroutine that can wait on a latch. */
  datatype Awaiter = Me

  /** `transfers` logs the handles transferred to. */
  datatype State = State(n: nat, latch: Core<Awaiter>, started: nat, running: set<nat>, arrived: set<nat>,
                         settled: bool, pc: Pc, transfers: seq<Option<Awaiter>>)

  datatype Label =
    | StartChild
    | SpawnFail
    | LoopDone
    | Settle
    | Arrive(i: nat)
    | Store
    | Vote

  function Init(n: nat): State {
    State(n, Fresh(n), 0, {}, {}, false, Starting, [])
  }

  predicate Enabled(s: State, l: Label) {
    match l
    case StartChild => s.pc == Starting && s.started < s.n
    case SpawnFail => s.pc == Starting && s.started < s.n
    case LoopDone => s.pc == Starting && s.started == s.n
    case Settle => s.pc == SpawnFailed
    case Arrive(i) => i in s.running
    case Store => s.pc == Awaiting
    case Vote => s.pc == Stored
  }

  /** Somebody votes, and transfers when it was the last vote. */
  function Voting(s: State): State {
    var (latch, b) := CastVote(s.latch);
    s.(latch := latch, transfers := if b.Last? then s.transfers + [b.handle] else s.transfers)
  }

  function Step(s: State, l: Label): State
    requires Enabled(s, l)
  {
    match l
    case StartChild => s.(running := s.running + {s.started}, started := s.started + 1)
    case SpawnFail => s.(pc := SpawnFailed)
    case LoopDone => s.(pc := Awaiting)
    case Settle => s.(latch := Forfeit(s.latch, s.n - s.started), settled := true, pc := Awaiting)
    case Arrive(i) => Voting(s.(running := s.running - {i}, arrived := s.arrived + {i}))
    case Store => s.(latch := StoreHandle(s.latch, Me), pc := Stored)
    case Vote => Voting(s).(pc := Voted)
  }

  function Run(s: State, trace: seq<Label>): (r: Option<State>)
    decreases |trace|
  {
    if trace == [] then Some(s)
    else if !Enabled(s, trace[0]) then None
    else Run(Step(s, trace[0]), trace[1..])
  }

  /** Votes add up, and the transfer has happened exactly when they are all in. */
  ghost predicate Inv(s: State) {
    && s.started <= s.n
    && (forall i :: i in s.running || i in s.arrived ==> i < s.started)
    && s.running !! s.arrived && |s.running| + |s.arrived| == s.started
    && s.latch.pending == s.n + 1 - |s.arrived| - (if s.settled then s.n - s.started else 0) - (if s.pc == Voted then 1 else 0)
    && (s.pc == Starting || s.pc == SpawnFailed ==> !s.settled)
    && (s.pc == Awaiting || s.pc == Stored || s.pc == Voted ==> s.settled || s.started == s.n)
    && s.transfers == (if s.latch.pending == 0 then [Some(Me)] else [])
    && s.latch.pending >= 0
    && (s.latch.continuation == if s.pc == Stored || s.pc == Voted then Some(Me) else None)
  }

  lemma StepKeeps(s: State, l: Label)
    requires Inv(s) && Enabled(s, l)
    ensures Inv(Step(s, l))
  {
    match l
    case Arrive(i) => ArriveKeeps(s, i);
    case StartChild => assert s.started !in s.running;
    case _ =>
  }

  lemma ArriveKeeps(s: State, i: nat)
    requires Inv(s) && i in s.running
    ensures Inv(Step(s, Arrive(i)))
  {
    assert |s.running - {i}| == |s.running| - 1 by {
      assert s.running == (s.running - {i}) + {i};
    }
    assert |s.arrived + {i}| == |s.arrived| + 1;
  }

  lemma {:induction false} RunKeeps(s: State, trace: seq<Label>)
    requires Inv(s) && Run(s, trace).Some?
    ensures Inv(Run(s, trace).value)
    decreases |trace|
  {
    if trace != [] {
      StepKeeps(s, trace[0]);
      RunKeeps(Step(s, trace[0]), trace[1..]);
    }
  }

  /**
    For every number of children, arrival order and point of spawn failure: there is at most one
    transfer, always to the stored handle of the awaiter, and it has happened exactly when the
    awaiter has voted and every started child has arrived.
   */
  lemma ResumedExactlyOnce(n: nat, trace: seq<Label>)
    requires Run(Init(n), trace).Some?
    ensures var s := Run(Init(n), trace).value;
            && (s.transfers == [] || s.transfers == [Some(Me)])
            && (s.transfers != [] <==> s.pc == Voted && s.running == {})
            && (s.transfers != [] ==> forall i :: 0 <= i < s.started ==> i in s.arrived)
  {
    RunKeeps(Init(n), trace);
    var s := Run(Init(n), trace).value;
    if s.running == {} {
      AllArrived(s.arrived, s.started);
    }
  }

  /** How much is still to be done. */
  ghost function Left(s: State): int {
    2 * (s.n - s.started) + |s.running| +
    match s.pc case Starting => 4 case SpawnFailed => 3 case Awaiting => 2 case Stored => 1 case Voted => 0
  }

  lemma StepShrinks(s: State, l: Label)
    requires Inv(s) && Enabled(s, l)
    ensures Left(Step(s, l)) < Left(s) && Step(s, l).n == s.n
  {
    if l.Arrive? {
      assert s.running == (s.running - {l.i}) + {l.i};
    }
  }

  lemma {:induction false} RunShrinks(s: State, trace: seq<Label>)
    requires Inv(s) && Run(s, trace).Some?
    ensures |trace| + Left(Run(s, trace).value) <= Left(s) && Run(s, trace).value.n == s.n
    decreases |trace|
  {
    if trace != [] {
      StepShrinks(s, trace[0]);
      StepKeeps(s, trace[0]);
      RunShrinks(Step(s, trace[0]), trace[1..]);
    }
  }

  /**
    when_all never hangs: every run is over after at most 2n + 4 steps, and when no step is left the
    awaiter has been resumed, after every child was started or the rest given up.
   */
  lemma {:induction false} EndsResumed(n: nat, trace: seq<Label>)
    requires Run(Init(n), trace).Some?
    ensures |trace| <= 2 * n + 4
    ensures var s := Run(Init(n), trace).value;
            (forall l: Label :: !Enabled(s, l)) ==> s.transfers == [Some(Me)] && (s.started == n || s.settled)
  {
    var s := Run(Init(n), trace).value;
    RunKeeps(Init(n), trace);
    RunShrinks(Init(n), trace);
    ResumedExactlyOnce(n, trace);
    if forall l: Label :: !Enabled(s, l) {
      assert !Enabled(s, StartChild) && !Enabled(s, LoopDone) && !Enabled(s, Settle) && !Enabled(s, Store) && !Enabled(s, Vote);
      assert s.pc == Voted;
      if s.running != {} {
        var i :| i in s.running;
        assert Enabled(s, Arrive(i));
      }
    }
  }

  /** A set of `k` numbers below `k` contains them all. */
  lemma {:induction false} AllArrived(a: set<nat>, k: nat)
    requires |a| == k && forall i <- a :: i < k
    ensures forall i :: 0 <= i < k ==> i in a
  {
    if k > 0 {
      if k - 1 in a {
        AllArrived(a - {k - 1}, k - 1);
      } else {
        BelowBound(a, k - 1);
      }
    }
  }

  lemma {:induction false} BelowBound(a: set<nat>, k: nat)
    requires forall i <- a :: i < k
    ensures |a| <= k
  {
    if k == 0 {
      assert a == {};
    } else {
      var b := a - {k - 1};
      BelowBound(b, k - 1);
      assert a == b || a == b + {k - 1};
    }
  }
}
