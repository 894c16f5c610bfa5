/**
  The bounded block queue of src/http/pushpull.h: small pushes are appended to one growing tail
  block, owned buffers become blocks of their own, and the consumer drains the front block. One
  lock section per operation, entered when its wait condition holds.
 */
module BlockQueue {
  import opened Common

  /** kBlockTarget: the size at which a new tail block starts. */
  const TARGET: nat := 262144

  /** The fields guarded by `m_`; `T` is the type of bytes. */
  datatype Core<T> = Core(blocks: seq<seq<T>>, tailOpen: bool, frontPos: nat, bytes: nat, cap: nat,
                          closed: bool, ok: bool, cancelled: bool)

  function Fresh<T>(cap: nat): Core<T> {
    Core([], false, 0, 0, cap, false, true, false)
  }

  function Flatten<T>(blocks: seq<seq<T>>): seq<T> {
    if blocks == [] then [] else blocks[0] + Flatten(blocks[1..])
  }

  /** The simple queue behind the blocks: bytes pushed and not yet popped. */
  ghost function Buffered<T>(c: Core<T>): seq<T> {
    if c.frontPos <= |Flatten(c.blocks)| then Flatten(c.blocks)[c.frontPos..] else []
  }

  /** No stored block is empty, the front block is not used up, and `bytes` is exact. */
  ghost predicate Valid<T>(c: Core<T>) {
    && (forall i :: 0 <= i < |c.blocks| ==> c.blocks[i] != [])
    && (if c.blocks == [] then c.frontPos == 0 else c.frontPos < |c.blocks[0]|)
    && c.frontPos <= |Flatten(c.blocks)|
    && c.bytes == |Flatten(c.blocks)| - c.frontPos
  }

  // ---------------------------------------------------------------- lock sections

  predicate CanPush<T>(c: Core<T>) {
    c.bytes < c.cap || c.cancelled
  }

  predicate CanPop<T>(c: Core<T>) {
    c.blocks != [] || c.closed || c.cancelled
  }

  /** push(const char*, n) past its wait. */
  function PushCopy<T>(c: Core<T>, data: seq<T>): Core<T> {
    if c.cancelled || data == [] then c
    else
      var last := |c.blocks| - 1;
      var d := c.(bytes := c.bytes + |data|);
      if c.blocks != [] && c.tailOpen && |c.blocks[last]| + |data| <= TARGET then
        d.(blocks := c.blocks[last := c.blocks[last] + data])
      else d.(blocks := c.blocks + [data], tailOpen := |data| < TARGET)
  }

  /** push(string&&) past its wait. */
  function PushMove<T>(c: Core<T>, data: seq<T>): Core<T> {
    if c.cancelled || data == [] then c
    else c.(bytes := c.bytes + |data|, blocks := c.blocks + [data], tailOpen := false)
  }

  datatype Popped<T> = Data(data: seq<T>) | Eof | TransferCancelled | PeerDisconnected

  /** pop past its wait, into a buffer of size `n`. */
  function Pop<T>(c: Core<T>, n: nat): (Core<T>, Popped<T>)
    requires c.blocks != [] ==> c.frontPos <= |c.blocks[0]|
  {
    if c.blocks == [] then
      (c, if c.cancelled && !c.closed then TransferCancelled else if !c.ok then PeerDisconnected else Eof)
    else
      var left := |c.blocks[0]| - c.frontPos;
      var k := if n < left then n else left;
      var d := c.(bytes := if k <= c.bytes then c.bytes - k else 0);
      (if k == left then d.(blocks := c.blocks[1..], frontPos := 0) else d.(frontPos := c.frontPos + k),
       Data(c.blocks[0][c.frontPos..c.frontPos + k]))
  }

  // ---------------------------------------------------------------- each operation on the byte stream

  lemma {:induction false} FlattenSnoc<T>(blocks: seq<seq<T>>, b: seq<T>)
    ensures Flatten(blocks + [b]) == Flatten(blocks) + b
  {
    if blocks == [] {
      assert blocks + [b] == [b] && [b][1..] == [];
      assert Flatten([b]) == b + Flatten([b][1..]) == b;
    } else {
      assert (blocks + [b])[1..] == blocks[1..] + [b];
      FlattenSnoc(blocks[1..], b);
    }
  }

  lemma {:induction false} FlattenTail<T>(blocks: seq<seq<T>>, data: seq<T>)
    requires blocks != []
    ensures Flatten(blocks[|blocks| - 1 := blocks[|blocks| - 1] + data]) == Flatten(blocks) + data
  {
    var k := |blocks| - 1;
    var init := blocks[..k];
    assert blocks == init + [blocks[k]];
    assert blocks[k := blocks[k] + data] == init + [blocks[k] + data];
    FlattenSnoc(init, blocks[k]);
    FlattenSnoc(init, blocks[k] + data);
  }

  /** The first block is at the front of the stream, so a position inside it is inside the stream. */
  lemma {:induction false} FlattenFront<T>(blocks: seq<seq<T>>)
    requires blocks != []
    ensures |blocks[0]| <= |Flatten(blocks)| && Flatten(blocks)[..|blocks[0]|] == blocks[0]
    ensures Flatten(blocks)[|blocks[0]|..] == Flatten(blocks[1..])
  {
  }

  /** Appending to the stream, however the blocks are arranged. */
  lemma {:induction false} Appended<T>(c: Core<T>, d: Core<T>, data: seq<T>)
    requires Valid(c) && Flatten(d.blocks) == Flatten(c.blocks) + data
    requires d.frontPos == c.frontPos && d.bytes == c.bytes + |data|
    requires forall i :: 0 <= i < |d.blocks| ==> d.blocks[i] != []
    requires d.blocks == [] ==> c.blocks == []
    requires c.blocks != [] ==> d.blocks != [] && |c.blocks[0]| <= |d.blocks[0]|
    ensures Valid(d) && Buffered(d) == Buffered(c) + data
  {
    var all := Flatten(c.blocks);
    assert (all + data)[c.frontPos..] == all[c.frontPos..] + data;
  }

  lemma {:induction false} PushCopyAppends<T>(c: Core<T>, data: seq<T>)
    requires Valid(c) && !c.cancelled
    ensures Valid(PushCopy(c, data)) && Buffered(PushCopy(c, data)) == Buffered(c) + data
  {
    var last := |c.blocks| - 1;
    if data == [] {
      assert Flatten(c.blocks) == Flatten(c.blocks) + data;
    } else if c.blocks != [] && c.tailOpen && |c.blocks[last]| + |data| <= TARGET {
      FlattenTail(c.blocks, data);
    } else {
      FlattenSnoc(c.blocks, data);
    }
    Appended(c, PushCopy(c, data), data);
  }

  lemma {:induction false} PushMoveAppends<T>(c: Core<T>, data: seq<T>)
    requires Valid(c) && !c.cancelled
    ensures Valid(PushMove(c, data)) && Buffered(PushMove(c, data)) == Buffered(c) + data
  {
    if data == [] {
      assert Flatten(c.blocks) == Flatten(c.blocks) + data;
    } else {
      FlattenSnoc(c.blocks, data);
    }
    Appended(c, PushMove(c, data), data);
  }

  /** The size pop returns to its caller; `None` stands for the thrown error. */
  function Returned<T>(r: Popped<T>): Option<nat> {
    match r
    case Data(data) => Some(|data|)
    case Eof => Some(0)
    case _ => None
  }

  /** pop takes a prefix of the stream whenever there is one, whether or not the queue was closed or cancelled. */
  lemma {:induction false} PopTakesPrefix<T>(c: Core<T>, n: nat)
    requires Valid(c)
    ensures var (d, r) := Pop(c, n);
            && Valid(d)
            && (r.Data? <==> Buffered(c) != [])
            && (r.Data? ==> |r.data| <= n && (n > 0 ==> r.data != []) && Buffered(c) == r.data + Buffered(d))
            && (!r.Data? ==> d == c)
  {
    if c.blocks != [] {
      var front, tail, p := c.blocks[0], Flatten(c.blocks[1..]), c.frontPos;
      var left := |front| - p;
      var k := if n < left then n else left;
      PopSlices(front, tail, p, k);
      if k == left {
        DropValid(c, Pop(c, n).0);
      }
    }
  }

  /** Taking `k` bytes from position `p` of the front block. */
  lemma {:induction false} PopSlices<T>(front: seq<T>, tail: seq<T>, p: nat, k: nat)
    requires p + k <= |front|
    ensures var all := front + tail;
            && all[p..] == front[p..p + k] + all[p + k..]
            && (p + k == |front| ==> all[p + k..] == tail)
  {
    var all := front + tail;
    assert all[p..] == all[p..p + k] + all[p + k..];
    assert all[p..p + k] == front[p..p + k];
  }

  /** The front block used up. */
  lemma {:induction false} DropValid<T>(c: Core<T>, d: Core<T>)
    requires Valid(c) && c.blocks != [] && d.blocks == c.blocks[1..] && d.frontPos == 0
    requires d.bytes == c.bytes - (|c.blocks[0]| - c.frontPos)
    ensures Valid(d) && Buffered(d) == Flatten(c.blocks[1..])
  {
    assert Flatten(d.blocks)[0..] == Flatten(d.blocks);
    forall i | 0 <= i < |d.blocks| ensures d.blocks[i] != [] {
      assert d.blocks[i] == c.blocks[i + 1];
    }
  }

  class BlockQueue<T> {
    var blocks: seq<seq<T>>
    var tailOpen: bool
    var frontPos: nat
    var bytes: nat
    const cap: nat
    var closed: bool
    var ok: bool
    var cancelled: bool

    ghost function View(): Core<T>
      reads this
    {
      Core(blocks, tailOpen, frontPos, bytes, cap, closed, ok, cancelled)
    }

    constructor (cap: nat)
      ensures View() == Fresh(cap)
    {
      blocks, tailOpen, frontPos, bytes := [], false, 0, 0;
      this.cap := cap;
      closed, ok, cancelled := false, true, false;
    }

    method Push(data: seq<T>) returns (accepted: bool)
      requires Valid(View()) && CanPush(View())
      modifies this
      ensures View() == PushCopy(old(View()), data) && Valid(View())
      ensures accepted == !old(cancelled)
      ensures Buffered(View()) == old(Buffered(View())) + if accepted then data else []
    {
      if cancelled {
        return false;
      }
      PushCopyAppends(View(), data);
      if data == [] {
        return true;
      }
      if blocks != [] && tailOpen && |blocks[|blocks| - 1]| + |data| <= TARGET {
        blocks := blocks[|blocks| - 1 := blocks[|blocks| - 1] + data];
      } else if |data| >= TARGET {
        blocks := blocks + [data];
        tailOpen := false;
      } else {
        blocks := blocks + [[]];
        blocks := blocks[|blocks| - 1 := blocks[|blocks| - 1] + data];
        assert blocks == old(blocks) + [data] by { assert [] + data == data; }
        tailOpen := true;
      }
      bytes := bytes + |data|;
      return true;
    }

    method PushOwned(block: seq<T>) returns (accepted: bool)
      requires Valid(View()) && CanPush(View())
      modifies this
      ensures View() == PushMove(old(View()), block) && Valid(View())
      ensures accepted == !old(cancelled)
      ensures Buffered(View()) == old(Buffered(View())) + if accepted then block else []
    {
      if cancelled {
        return false;
      }
      PushMoveAppends(View(), block);
      if block == [] {
        return true;
      }
      bytes := bytes + |block|;
      blocks := blocks + [block];
      tailOpen := false;
      return true;
    }

    method Close(success: bool)
      modifies this
      ensures View() == old(View()).(closed := true, ok := success)
    {
      closed, ok := true, success;
    }

    method Cancel()
      modifies this
      ensures View() == old(View()).(cancelled := true)
    {
      cancelled := true;
    }

    method PopInto(n: nat) returns (r: Popped<T>)
      requires Valid(View()) && CanPop(View())
      modifies this
      ensures (View(), r) == Pop(old(View()), n) && Valid(View())
      ensures old(Buffered(View())) == (if r.Data? then r.data else []) + Buffered(View())
    {
      PopTakesPrefix(View(), n);
      r := Drain(n);
    }

    /** The body of pop on the fields themselves. */
    method Drain(n: nat) returns (r: Popped<T>)
      requires Valid(View()) && CanPop(View())
      modifies this
      ensures (View(), r) == Pop(old(View()), n)
    {
      if blocks == [] {
        if cancelled && !closed {
          return TransferCancelled;
        }
        if !ok {
          return PeerDisconnected;
        }
        return Eof;
      }
      var front := blocks[0];
      var k := if n < |front| - frontPos then n else |front| - frontPos;
      assert k <= bytes by { FlattenFront(blocks); }
      r := Data(front[frontPos..frontPos + k]);
      frontPos := frontPos + k;
      bytes := bytes - k;
      if frontPos == |front| {
        blocks := blocks[1..];
        frontPos := 0;
      }
    }
  }

  // ---------------------------------------------------------------- every interleaving

  datatype Event<T> = Copied(data: seq<T>) | Moved(data: seq<T>) | Closing(ok: bool) | Cancelling | Popping(n: nat)

  /** The queue with the bytes accepted and delivered so far and the largest push. */
  datatype State<T> = State(core: Core<T>, accepted: seq<T>, popped: seq<T>, largest: nat)

  function Init<T>(cap: nat): State<T> {
    State(Fresh(cap), [], [], 0)
  }

  predicate Enabled<T>(s: State<T>, e: Event<T>) {
    match e
    case Copied(_) => CanPush(s.core)
    case Moved(_) => CanPush(s.core)
    case Closing(_) => true
    case Cancelling => true
    case Popping(n) => CanPop(s.core) && (s.core.blocks != [] ==> s.core.frontPos <= |s.core.blocks[0]|)
  }

  function Accept<T>(s: State<T>, data: seq<T>): State<T> {
    if s.core.cancelled then s
    else s.(accepted := s.accepted + data, largest := if |data| > s.largest then |data| else s.largest)
  }

  function Step<T>(s: State<T>, e: Event<T>): State<T>
    requires Enabled(s, e)
  {
    match e
    case Copied(data) => Accept(s, data).(core := PushCopy(s.core, data))
    case Moved(data) => Accept(s, data).(core := PushMove(s.core, data))
    case Closing(ok) => s.(core := s.core.(closed := true, ok := ok))
    case Cancelling => s.(core := s.core.(cancelled := true))
    case Popping(n) =>
      var (d, r) := Pop(s.core, n);
      s.(core := d, popped := if r.Data? then s.popped + r.data else s.popped)
  }

  function Run<T>(s: State<T>, events: seq<Event<T>>): (r: Option<State<T>>)
    decreases |events|
  {
    if events == [] then Some(s)
    else if !Enabled(s, events[0]) then None
    else Run(Step(s, events[0]), events[1..])
  }

  ghost predicate Inv<T>(s: State<T>) {
    && Valid(s.core)
    && s.accepted == s.popped + Buffered(s.core)
    && (s.core.bytes == 0 || s.core.bytes < s.core.cap + s.largest)
  }

  lemma {:induction false} PushKeeps<T>(s: State<T>, data: seq<T>, d: Core<T>)
    requires Inv(s) && CanPush(s.core) && !s.core.cancelled && Valid(d)
    requires Buffered(d) == Buffered(s.core) + data
    requires d == s.core.(blocks := d.blocks, tailOpen := d.tailOpen, bytes := s.core.bytes + |data|)
    ensures Inv(Accept(s, data).(core := d))
  {
    Associates(s.popped, Buffered(s.core), data);
  }

  lemma {:induction false} PopKeeps<T>(s: State<T>, n: nat)
    requires Inv(s) && Enabled(s, Popping(n))
    ensures Inv(Step(s, Popping(n)))
  {
    PopTakesPrefix(s.core, n);
    var (d, r) := Pop(s.core, n);
    if r.Data? {
      Associates(s.popped, r.data, Buffered(d));
    }
  }

  lemma {:induction false} CopyKeeps<T>(s: State<T>, data: seq<T>)
    requires Inv(s) && CanPush(s.core)
    ensures Inv(Step(s, Copied(data)))
  {
    if !s.core.cancelled {
      PushCopyAppends(s.core, data);
      PushKeeps(s, data, PushCopy(s.core, data));
    }
  }

  lemma {:induction false} MoveKeeps<T>(s: State<T>, data: seq<T>)
    requires Inv(s) && CanPush(s.core)
    ensures Inv(Step(s, Moved(data)))
  {
    if !s.core.cancelled {
      PushMoveAppends(s.core, data);
      PushKeeps(s, data, PushMove(s.core, data));
    }
  }

  lemma {:induction false} FlagsKeep<T>(s: State<T>, d: Core<T>)
    requires Inv(s)
    requires d == s.core.(closed := d.closed, ok := d.ok, cancelled := d.cancelled)
    ensures Inv(s.(core := d))
  {
    assert Buffered(d) == Buffered(s.core);
  }

  lemma {:induction false} StepKeeps<T>(s: State<T>, e: Event<T>)
    requires Inv(s) && Enabled(s, e)
    ensures Inv(Step(s, e)) && Step(s, e).core.cap == s.core.cap
  {
    match e
    case Copied(data) => CopyKeeps(s, data);
    case Moved(data) => MoveKeeps(s, data);
    case Closing(ok) => FlagsKeep(s, s.core.(closed := true, ok := ok));
    case Cancelling => FlagsKeep(s, s.core.(cancelled := true));
    case Popping(n) => PopKeeps(s, n);
  }

  lemma {:induction false} RunKeeps<T>(s: State<T>, events: seq<Event<T>>)
    requires Inv(s) && Run(s, events).Some?
    ensures Inv(Run(s, events).value) && Run(s, events).value.core.cap == s.core.cap
    decreases |events|
  {
    if events != [] {
      StepKeeps(s, events[0]);
      RunKeeps(Step(s, events[0]), events[1..]);
    }
  }

  /**
    In every interleaving of both push forms, pop, close and cancel: bytes delivered followed by
    bytes buffered are exactly the bytes accepted, in order; the byte count is exact; no stored block
    is empty; and occupancy stays below the capacity plus one push.
   */
  lemma {:induction false} StreamConserved<T>(cap: nat, events: seq<Event<T>>)
    requires Run(Init(cap), events).Some?
    ensures var s := Run(Init(cap), events).value;
            && s.accepted == s.popped + Buffered(s.core)
            && s.core.bytes == |Buffered(s.core)|
            && (forall i :: 0 <= i < |s.core.blocks| ==> s.core.blocks[i] != [])
            && (s.core.bytes == 0 || s.core.bytes < cap + s.largest)
  {
    RunKeeps(Init(cap), events);
  }

  /**
    pop returns 0 exactly when the producer closed successfully and everything was delivered, or when
    the caller's buffer is empty while data is waiting; every other outcome is data or an error.
   */
  lemma {:induction false} ZeroIffDrained<T>(cap: nat, events: seq<Event<T>>, n: nat)
    requires Run(Init(cap), events).Some? && Enabled(Run(Init(cap), events).value, Popping(n))
    ensures var s := Run(Init(cap), events).value;
            && (Returned(Pop(s.core, n).1) == Some(0) <==>
                if s.popped == s.accepted then s.core.closed && s.core.ok else n == 0)
            && (Returned(Pop(s.core, n).1).None? <==>
                s.popped == s.accepted && if s.core.closed then !s.core.ok else s.core.cancelled)
  {
    RunKeeps(Init(cap), events);
    var s := Run(Init(cap), events).value;
    PopTakesPrefix(s.core, n);
    assert Buffered(s.core) == [] <==> s.popped == s.accepted;
  }

  ghost predicate Closed<T>(events: seq<Event<T>>) {
    exists e <- events :: e.Closing?
  }

  /** What the last close said; without one nothing failed. */
  predicate ClosedOk<T>(events: seq<Event<T>>) {
    if events == [] then true
    else
      var e := events[|events| - 1];
      if e.Closing? then e.ok else ClosedOk(events[..|events| - 1])
  }

  lemma {:induction false} RunLast<T>(s: State<T>, events: seq<Event<T>>)
    requires events != [] && Run(s, events).Some?
    ensures var before, e := Run(s, events[..|events| - 1]), events[|events| - 1];
            before.Some? && Enabled(before.value, e) && Run(s, events) == Some(Step(before.value, e))
    decreases |events|
  {
    if |events| > 1 {
      RunLast(Step(s, events[0]), events[1..]);
      assert events[1..][..|events| - 2] == events[..|events| - 1][1..];
    }
  }

  lemma {:induction false} StepFlags<T>(s: State<T>, e: Event<T>)
    requires Enabled(s, e)
    ensures var c, d := s.core, Step(s, e).core;
            && d.cancelled == (c.cancelled || e.Cancelling?)
            && d.closed == (c.closed || e.Closing?)
            && d.ok == if e.Closing? then e.ok else c.ok
  {
  }

  lemma {:induction false} ClosedLast<T>(before: seq<Event<T>>, e: Event<T>)
    ensures Closed(before + [e]) <==> Closed(before) || e.Closing?
    ensures Cancelling in before + [e] <==> Cancelling in before || e.Cancelling?
    ensures ClosedOk(before + [e]) == if e.Closing? then e.ok else ClosedOk(before)
  {
    var events := before + [e];
    assert events[..|before|] == before;
    assert forall x <- before :: x in events;
    assert e in events;
  }

  /** The queue is closed, failed or cancelled exactly when some event said so, and the last close counts. */
  lemma {:induction false} FlagsAreEvents<T>(cap: nat, events: seq<Event<T>>)
    requires Run(Init(cap), events).Some?
    ensures var c := Run(Init(cap), events).value.core;
            (c.cancelled <==> Cancelling in events) && (c.closed <==> Closed(events)) && c.ok == ClosedOk(events)
    decreases |events|
  {
    if events != [] {
      var before, e := events[..|events| - 1], events[|events| - 1];
      RunLast(Init(cap), events);
      FlagsAreEvents(cap, before);
      StepFlags(Run(Init(cap), before).value, e);
      ClosedLast(before, e);
      assert events == before + [e];
    }
  }

  /** Small pushes are gathered into blocks of at most 256 KiB; a large one, and an owned buffer, stay alone. */
  lemma {:induction false} SmallPushesShareABlock<T>(c: Core<T>, a: seq<T>, b: seq<T>)
    requires Valid(c) && !c.cancelled && a != [] && b != []
    ensures var d := PushCopy(c, a);
            var last := |d.blocks| - 1;
            last >= 0 && PushCopy(d, b).blocks ==
            if |a| < 262144 && |d.blocks[last]| + |b| <= 262144 then d.blocks[last := d.blocks[last] + b] else d.blocks + [b]
    ensures PushCopy(PushMove(c, a), b).blocks == c.blocks + [a, b]
  {
  }

  /**
    Who waits, after every run: a push exactly while the queue holds its capacity and was not cancelled, a pop exactly while
    everything accepted was delivered and the queue was neither closed nor cancelled. So the two never wait for
    each other, except around a queue without any capacity.
   */
  lemma {:induction false} WhoWaits<T>(cap: nat, events: seq<Event<T>>, data: seq<T>, n: nat)
    requires Run(Init(cap), events).Some?
    ensures var s := Run(Init(cap), events).value;
            var pushWaits, popWaits := !Enabled(s, Copied(data)), !Enabled(s, Popping(n));
            && (pushWaits <==> |s.accepted| - |s.popped| >= cap && Cancelling !in events)
            && (pushWaits <==> !Enabled(s, Moved(data)))
            && (popWaits <==> s.popped == s.accepted && !Closed(events) && Cancelling !in events)
            && (pushWaits && popWaits <==> cap == 0 && popWaits)
  {
    RunKeeps(Init(cap), events);
    FlagsAreEvents(cap, events);
    var s := Run(Init(cap), events).value;
    assert s.core.blocks == [] ==> Flatten(s.core.blocks) == [];
    assert s.core.blocks != [] ==> s.core.bytes > 0 by {
      if s.core.blocks != [] {
        assert |Flatten(s.core.blocks)| >= |s.core.blocks[0]|;
      }
    }
  }
}
