/**
  Started of src/core/task.h: a task begun early and collected later. Child and collecting
  coroutine cast one vote each; a plain thread may instead block in wait() without voting.
 */
module Started {
  import opened Common

  /** `H` is the type of coroutine handles. */
  datatype Core<H> = Core(votes: int, continuation: Option<H>, done: bool)

  function Fresh<H>(): Core<H> {
    Core(2, None, false)
  }

  /** complete(): the handle to transfer to is copied out under the lock. */
  function CompleteLocked<H>(c: Core<H>): (Core<H>, Ballot<H>) {
    (c.(done := true, votes := c.votes - 1), if c.votes == 1 then Last(c.continuation) else More)
  }

  function StoreHandle<H>(c: Core<H>, h: H): Core<H> {
    c.(continuation := Some(h))
  }

  /** The collector's vote; it transfers to its own handle. */
  function CastVote<H>(c: Core<H>, h: H): (Core<H>, Ballot<H>) {
    (c.(votes := c.votes - 1), if c.votes == 1 then Last(Some(h)) else More)
  }

  /**
    In both orders the second of the two voters, and only it, gets the collector's handle; when the
    child is first, the handle need not be stored yet.
   */
  lemma SecondVoterResumes<H>(h: H)
    ensures var (c, child) := CompleteLocked(Fresh<H>());
            var (d, collector) := CastVote(StoreHandle(c, h), h);
            child == More && collector == Last(Some(h)) && d == Core(0, Some(h), true)
    ensures var (c, collector) := CastVote(StoreHandle(Fresh<H>(), h), h);
            var (d, child) := CompleteLocked(c);
            collector == More && child == Last(Some(h)) && d == Core(0, Some(h), true)
  {
  }

  class StartedState<H> {
    var votes: int
    var continuation: Option<H>
    var done: bool

    ghost function View(): Core<H>
      reads this
    {
      Core(votes, continuation, done)
    }

    constructor ()
      ensures View() == Fresh()
    {
      votes, continuation, done := 2, None, false;
    }

    method Complete() returns (b: Ballot<H>)
      modifies this
      ensures (View(), b) == CompleteLocked(old(View()))
    {
      done := true;
      b := if votes == 1 then Last(continuation) else More;
      votes := votes - 1;
    }

    method Store(h: H)
      modifies this
      ensures View() == StoreHandle(old(View()), h)
    {
      continuation := Some(h);
    }

    method Vote(h: H) returns (b: Ballot<H>)
      modifies this
      ensures (View(), b) == CastVote(old(View()), h)
    {
      b := if votes == 1 then Last(Some(h)) else More;
      votes := votes - 1;
    }

    /** StartedAwaiter::await_suspend: the handle is stored before the vote, so whoever votes last finds it. */
    method Collect(h: H) returns (b: Ballot<H>)
      modifies this
      ensures (View(), b) == CastVote(StoreHandle(old(View()), h), h)
      ensures b.Last? ==> b.handle == View().continuation
      ensures CompleteLocked(View()).1.Last? ==> CompleteLocked(View()).1.handle == Some(h)
    {
      Store(h);
      b := Vote(h);
    }

    /** wait() and finished() read the flag. */
    method Finished() returns (r: bool)
      ensures r == View().done
    {
      r := done;
    }
  }

  /** The one coroutine that can collect. */
  datatype Collector = Me

  /** The child after complete() still has its ballot to act on. */
  datatype ChildPc = Working | Completed(b: Ballot<Collector>) | Gone

  datatype CollectorPc = Before | HandleStored | Suspended | Waited

  /** `transfers` logs the handles transferred to. */
  datatype State = State(core: Core<Collector>, child: ChildPc, collector: CollectorPc, transfers: seq<Collector>)

  datatype Label = ChildCompletes | ChildTransfers | CollectorStores | CollectorVotes | WaitReturns

  const Init: State := State(Fresh(), Working, Before, [])

  predicate Enabled(s: State, l: Label) {
    match l
    case ChildCompletes => s.child == Working
    case ChildTransfers => s.child.Completed?
    case CollectorStores => s.collector == Before
    case CollectorVotes => s.collector == HandleStored
    case WaitReturns => s.collector == Before && s.core.done
  }

  /** A transfer to the handle of a last ballot, if it has one. */
  function Transfer(s: State, b: Ballot<Collector>): State {
    if b.Last? && b.handle.Some? then s.(transfers := s.transfers + [b.handle.value]) else s
  }

  function Step(s: State, l: Label): State
    requires Enabled(s, l)
  {
    match l
    case ChildCompletes =>
      var (core, b) := CompleteLocked(s.core);
      s.(core := core, child := Completed(b))
    case ChildTransfers => Transfer(s, s.child.b).(child := Gone)
    case CollectorStores => s.(core := StoreHandle(s.core, Me), collector := HandleStored)
    case CollectorVotes =>
      var (core, b) := CastVote(s.core, Me);
      Transfer(s, b).(core := core, collector := Suspended)
    case WaitReturns => s.(collector := Waited)
  }

  function Run(s: State, trace: seq<Label>): (r: Option<State>)
    decreases |trace|
  {
    if trace == [] then Some(s)
    else if !Enabled(s, trace[0]) then None
    else Run(Step(s, trace[0]), trace[1..])
  }

  ghost predicate Inv(s: State) {
    var both := s.core.done && s.collector == Suspended;
    && s.core.votes == 2 - (if s.core.done then 1 else 0) - (if s.collector == Suspended then 1 else 0)
    && (s.core.done <==> s.child != Working)
    && (s.core.continuation == if s.collector == HandleStored || s.collector == Suspended then Some(Me) else None)
    && (s.collector == Waited ==> s.core.done)
    && (s.child.Completed? && s.child.b.Last? ==> s.child.b.handle == Some(Me) && s.transfers == [] && both)
    && (s.transfers == [] || (s.transfers == [Me] && both))
    && (both ==> s.transfers != [] || (s.child.Completed? && s.child.b.Last?))
  }

  lemma StepKeeps(s: State, l: Label)
    requires Inv(s) && Enabled(s, l)
    ensures Inv(Step(s, l))
  {
  }

  lemma {:induction false} RunKeeps(s: State, trace: seq<Label>)
    requires Inv(s) && Run(s, trace).Some?
    ensures Inv(Run(s, trace).value)
    decreases |trace|
  {
    if trace != [] {
      StepKeeps(s, trace[0]);
      RunKeeps(Step(s, trace[0]), trace[1..]);
    }
  }

  /**
    The collecting coroutine is resumed at most once and never before the child is done; a child that
    cast the last vote holds the stored handle, never an empty one; when both have voted and the
    child has left, the collector has been resumed; and wait() returns only after the child is done.
   */
  lemma CollectedExactlyOnce(trace: seq<Label>)
    requires Run(Init, trace).Some?
    ensures var s := Run(Init, trace).value;
            && (s.transfers == [] || s.transfers == [Me])
            && (s.transfers != [] ==> s.core.done && s.core.continuation == Some(Me))
            && (s.child.Completed? && s.child.b.Last? ==> s.child.b.handle == Some(Me))
            && (s.collector == Suspended && s.child == Gone ==> s.transfers == [Me])
            && (s.collector == Waited ==> s.core.done && s.transfers == [])
  {
    RunKeeps(Init, trace);
  }

  /** How much is still to be done. */
  function Left(s: State): nat {
    (match s.child case Working => 2 case Completed(_) => 1 case Gone => 0) +
    (match s.collector case Before => 2 case HandleStored => 1 case Suspended => 0 case Waited => 0)
  }

  lemma {:induction false} RunShrinks(s: State, trace: seq<Label>)
    requires Run(s, trace).Some?
    ensures |trace| + Left(Run(s, trace).value) <= Left(s)
    decreases |trace|
  {
    if trace != [] {
      assert Left(Step(s, trace[0])) < Left(s);
      RunShrinks(Step(s, trace[0]), trace[1..]);
    }
  }

  /** Nobody hangs: every run is over after at most 4 steps, and then the collector was resumed or its wait has returned. */
  lemma {:induction false} EndsCollected(trace: seq<Label>)
    requires Run(Init, trace).Some?
    ensures |trace| <= 4
    ensures var s := Run(Init, trace).value;
            (forall l: Label :: !Enabled(s, l)) ==> s.core.done && (s.collector == Waited || s.transfers == [Me])
  {
    var s := Run(Init, trace).value;
    RunKeeps(Init, trace);
    RunShrinks(Init, trace);
    if forall l: Label :: !Enabled(s, l) {
      assert !Enabled(s, ChildCompletes) && !Enabled(s, ChildTransfers) && !Enabled(s, CollectorStores) && !Enabled(s, CollectorVotes);
    }
  }
}
