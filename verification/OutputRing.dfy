/**
 The output ring between a stream thread and the render callback, as a
 transition system: every atomic load, store, semaphore operation and copied
 frame is one step, and a schedule is any sequence of steps of the two threads
 and of an interrupting thread.

 A frame is the bytes of one interleaved frame read as a number; zero is silence.
 */
module OutputRing {
  import opened Rings

  type Frame = int

  const SILENCE: Frame := 0

  datatype Geometry = Geometry(capacity: nat, period: nat, fill: nat) {
    predicate Valid() {
      0 < period <= fill <= capacity <= 0x10_0000
    }
  }

  function Zeros(n: nat): (z: seq<Frame>)
    ensures |z| == n && forall i :: 0 <= i < n ==> z[i] == SILENCE
  {
    seq(n, _ => SILENCE)
  }

  // Where the stream thread is.
  datatype Producer =
    | Fresh                                   // before Start
    | Primed                                  // Start: head stored, the unit not started yet
    | Dead                                    // the unit did not start
    | Resting                                 // running, between calls, nothing staged
    | Testing                                 // Wait: about to test the interrupt flag
    | Looking                                 // Wait: flag was down, about to load tail
    | Blocked(seen: nat)                      // Wait: in the semaphore wait, having loaded seen
    | Staged                                  // Wait returned nil
    | Copying(out: seq<Frame>, copied: nat)   // Commit: copied frames of out are in the ring

  // Where the render callback is. n is how many frames it takes, got how many it
  // has copied.
  datatype Consumer =
    | Idle
    | Entered(req: nat)
    | Reading(req: nat, n: nat, got: nat)
    | Publishing(n: nat)
    | Signalling

  // Where the thread that interrupts is: it raises the flag, then signals.
  datatype Waker = Quiet | Raised | Signalled

  datatype State = State(
    head: nat, tail: nat, ring: seq<Frame>, sem: nat, interrupted: bool,
    under: nat, underFrames: nat,
    producer: Producer, consumer: Consumer, waker: Waker,
    // History: the frames ever published, the frames ever copied out, and the
    // frames ever asked for.
    written: seq<Frame>, delivered: seq<Frame>, requested: nat)

  function Initial(g: Geometry): State {
    State(0, 0, Zeros(g.capacity), 0, false, 0, 0, Fresh, Idle, Quiet, [], [], 0)
  }

  datatype Step =
    | Prime | UnitStarted | UnitFailed
    | CallWait | TestFlag | LoadTail | TakeSignal | WokenAnyway | WaitFails
    | CallCommit(period: seq<Frame>) | CopyFrameIn | StoreHead
    | Render(frames: nat) | LoadHead | CopyFrameOut | CountShortfall | StoreTail | SignalRoom
    | RaiseFlag | SignalInterrupt

  predicate Enabled(g: Geometry, s: State, e: Step) {
    match e
    case Prime => s.producer == Fresh
    case UnitStarted => s.producer == Primed
    case UnitFailed => s.producer == Primed
    case CallWait => s.producer == Resting
    case TestFlag => s.producer == Testing
    case LoadTail => s.producer == Looking
    case TakeSignal => s.producer.Blocked? && s.sem > 0
    case WokenAnyway => s.producer.Blocked?
    case WaitFails => s.producer.Blocked?
    case CallCommit(period) => s.producer == Staged && |period| == g.period
    case CopyFrameIn => s.producer.Copying? && s.producer.copied < |s.producer.out| <= |s.ring|
    case StoreHead => s.producer.Copying? && s.producer.copied == |s.producer.out|
    case Render(_) => s.consumer == Idle
    case LoadHead => s.consumer.Entered?
    case CopyFrameOut => s.consumer.Reading? && s.consumer.got < s.consumer.n <= |s.ring|
    case CountShortfall => s.consumer.Reading? && s.consumer.got == s.consumer.n <= s.consumer.req
    case StoreTail => s.consumer.Publishing?
    case SignalRoom => s.consumer == Signalling
    case RaiseFlag => s.waker == Quiet
    case SignalInterrupt => s.waker == Raised
  }

  // uint64 subtraction of two counters.
  function Minus(a: nat, b: nat): nat {
    (a - b) % 0x1_0000_0000_0000_0000
  }

  function Min(a: nat, b: nat): nat { if a < b then a else b }

  function Apply(g: Geometry, s: State, e: Step): State
    requires g.Valid() && Enabled(g, s, e)
  {
    match e
    // Start: the zeroed ring counts as fill frames of silence.
    case Prime => s.(producer := Primed, head := g.fill, written := Zeros(g.fill))
    case UnitStarted => s.(producer := Resting)
    case UnitFailed => s.(producer := Dead)
    // Wait: test the flag, look for room, block; a semaphore wait may end by a
    // signal, or with none (aborted, or timed out with the device alive), or fail.
    case CallWait => s.(producer := Testing)
    case TestFlag => s.(producer := if s.interrupted then Resting else Looking)
    case LoadTail =>
      if Minus(g.fill, Minus(s.head, s.tail)) >= g.period then s.(producer := Staged)
      else s.(producer := Blocked(s.tail))
    case TakeSignal => s.(producer := Testing, sem := s.sem - 1)
    case WokenAnyway => s.(producer := Testing)
    case WaitFails => s.(producer := Resting)
    // Commit: copy the period in two pieces, then publish it.
    case CallCommit(period) => s.(producer := Copying(period, 0))
    case CopyFrameIn =>
      var Copying(out, k) := s.producer;
      s.(producer := Copying(out, k + 1), ring := s.ring[Piece(s.head, |out|, |s.ring|, k) := out[k]])
    case StoreHead =>
      s.(producer := Resting, head := s.head + g.period, written := s.written + s.producer.out)
    // The callback: load head, copy what there is, count what is missing,
    // publish tail, signal.
    case Render(frames) => s.(consumer := Entered(frames), requested := s.requested + frames)
    case LoadHead =>
      var req := s.consumer.req;
      s.(consumer := Reading(req, Min(req, Minus(s.head, s.tail)), 0))
    case CopyFrameOut =>
      var Reading(req, n, j) := s.consumer;
      s.(consumer := Reading(req, n, j + 1),
         delivered := s.delivered + [s.ring[Piece(s.tail, n, |s.ring|, j)]])
    case CountShortfall =>
      var Reading(req, n, _) := s.consumer;
      s.(consumer := Publishing(n), under := s.under + (if req > n then 1 else 0),
         underFrames := s.underFrames + (req - n))
    case StoreTail => s.(consumer := Signalling, tail := s.tail + s.consumer.n)
    case SignalRoom => s.(consumer := Idle, sem := s.sem + 1)
    case RaiseFlag => s.(waker := Raised, interrupted := true)
    case SignalInterrupt => s.(waker := Signalled, sem := s.sem + 1)
  }

  // The state after a schedule; a step whose thread is elsewhere is skipped.
  function Run(g: Geometry, s: State, steps: seq<Step>): (r: State)
    requires g.Valid()
    decreases |steps|
  {
    if steps == [] then s
    else if Enabled(g, s, steps[0]) then Run(g, Apply(g, s, steps[0]), steps[1..])
    else Run(g, s, steps[1..])
  }

  lemma RunStep(g: Geometry, s: State, e: Step, rest: seq<Step>)
    requires g.Valid() && Enabled(g, s, e)
    ensures Run(g, s, [e] + rest) == Run(g, Apply(g, s, e), rest)
  {
    assert ([e] + rest)[1..] == rest;
  }

  // -- The invariant -------------------------------------------------------------

  ghost predicate HasRoom(g: Geometry, s: State, tail: nat) {
    g.fill - (s.head - tail) >= g.period
  }

  // What was published and what the current Commit has copied behind it.
  ghost function Stored(s: State): seq<Frame> {
    match s.producer
    case Copying(out, k) => if k <= |out| then s.written + out[..k] else s.written
    case _ => s.written
  }

  // Positions, bounds and what the ring holds.
  ghost predicate Bounded(g: Geometry, s: State) {
    && |s.ring| == g.capacity
    && s.tail <= s.head <= s.tail + g.fill
    && |s.written| == s.head
    && Holds(s.ring, Stored(s), s.tail, |Stored(s)|)
  }

  ghost predicate ProducerOk(g: Geometry, s: State) {
    match s.producer
    case Fresh => s.head == 0 && s.ring == Zeros(g.capacity)
    case Staged => HasRoom(g, s, s.tail)
    case Copying(out, k) => |out| == g.period && k <= |out| && HasRoom(g, s, s.tail)
    case _ => true
  }

  ghost predicate ConsumerOk(s: State) {
    && |s.delivered| <= |s.written| && s.delivered == s.written[..|s.delivered|]
    && (match s.consumer
        case Reading(req, n, got) =>
          got <= n <= req && s.tail + n <= s.head && |s.delivered| == s.tail + got
        case Publishing(n) => s.tail + n <= s.head && |s.delivered| == s.tail + n
        case _ => |s.delivered| == s.tail)
    && s.requested == s.tail + s.underFrames +
         (match s.consumer
          case Entered(req) => req
          case Reading(req, _, _) => req
          case Publishing(n) => n
          case _ => 0)
  }

  ghost predicate InterruptPending(s: State) {
    s.sem > 0 || s.waker == Raised
  }

  ghost predicate RoomPending(s: State) {
    s.sem > 0 || s.consumer == Signalling
  }

  ghost predicate WakeOk(g: Geometry, s: State) {
    && (s.waker == Quiet <==> !s.interrupted)
    && (s.producer == Looking && s.interrupted ==> InterruptPending(s))
    && (s.producer.Blocked? && s.interrupted ==> InterruptPending(s))
    && (s.producer.Blocked? ==>
          s.producer.seen <= s.tail && !HasRoom(g, s, s.producer.seen)
          && (s.producer.seen != s.tail ==> RoomPending(s)))
  }

  ghost predicate Inv(g: Geometry, s: State) {
    Bounded(g, s) && ProducerOk(g, s) && ConsumerOk(s) && WakeOk(g, s)
  }

  lemma MinusExact(a: nat, b: nat)
    requires b <= a < b + 0x1_0000_0000_0000_0000
    ensures Minus(a, b) == a - b
  {}

  // The frame copied in goes to the slot behind what is stored.
  lemma BoundedCopy(g: Geometry, s: State)
    requires g.Valid() && Bounded(g, s) && ProducerOk(g, s) && Enabled(g, s, CopyFrameIn)
    ensures Bounded(g, Apply(g, s, CopyFrameIn))
  {
    hide Piece, Holds;
    var Copying(out, k) := s.producer;
    PieceIsSlot(s.head, |out|, g.capacity, k);
    HoldsAppend(s.ring, Stored(s), s.tail, out[k]);
    assert Stored(s) + [out[k]] == Stored(Apply(g, s, CopyFrameIn));
  }

  lemma BoundedKept(g: Geometry, s: State, e: Step)
    requires g.Valid() && Inv(g, s) && Enabled(g, s, e)
    ensures Bounded(g, Apply(g, s, e))
  {
    hide Piece, WakeOk, Minus, Min;
    var s' := Apply(g, s, e);
    match e
    case CopyFrameIn =>
      BoundedCopy(g, s);
    case CallCommit(period) =>
      assert Stored(s') == Stored(s);
    case StoreHead =>
      assert Stored(s') == Stored(s);
    case _ =>
  }

  lemma ProducerKept(g: Geometry, s: State, e: Step)
    requires g.Valid() && Inv(g, s) && Enabled(g, s, e)
    ensures ProducerOk(g, Apply(g, s, e))
  {
    hide Piece, WakeOk;
    match e
    case LoadTail =>
      MinusExact(s.head, s.tail);
      MinusExact(g.fill, s.head - s.tail);
    case _ =>
  }

  lemma ConsumerKept(g: Geometry, s: State, e: Step)
    requires g.Valid() && Inv(g, s) && Enabled(g, s, e)
    ensures ConsumerOk(Apply(g, s, e))
  {
    hide Piece, WakeOk;
    match e
    case LoadHead =>
      MinusExact(s.head, s.tail);
    case CopyFrameOut =>
      var Reading(req, n, j) := s.consumer;
      PieceIsSlot(s.tail, n, g.capacity, j);
    case _ =>
  }

  lemma WakeKept(g: Geometry, s: State, e: Step)
    requires g.Valid() && Inv(g, s) && Enabled(g, s, e)
    ensures WakeOk(g, Apply(g, s, e))
  {
    hide Piece, Holds;
    match e
    case LoadTail =>
      MinusExact(s.head, s.tail);
      MinusExact(g.fill, s.head - s.tail);
    case _ =>
  }

  // Every schedule keeps the invariant.
  lemma {:induction false} InvAlways(g: Geometry, s: State, steps: seq<Step>)
    requires g.Valid() && Inv(g, s)
    ensures Inv(g, Run(g, s, steps))
    decreases |steps|
  {
    hide Bounded, ProducerOk, ConsumerOk, WakeOk, Apply, Enabled;
    if steps != [] {
      var e := steps[0];
      if Enabled(g, s, e) {
        BoundedKept(g, s, e);
        ProducerKept(g, s, e);
        ConsumerKept(g, s, e);
        WakeKept(g, s, e);
        InvAlways(g, Apply(g, s, e), steps[1..]);
      } else {
        InvAlways(g, s, steps[1..]);
      }
    }
  }

  lemma InvAtStart(g: Geometry)
    requires g.Valid()
    ensures Inv(g, Initial(g))
  {}

  // -- What holds in every reachable state -------------------------------------------

  ghost predicate Reachable(g: Geometry, s: State)
    requires g.Valid()
  {
    exists steps :: s == Run(g, Initial(g), steps)
  }

  lemma ReachableInv(g: Geometry, s: State)
    requires g.Valid() && Reachable(g, s)
    ensures Inv(g, s)
  {
    var steps :| s == Run(g, Initial(g), steps);
    InvAtStart(g);
    InvAlways(g, Initial(g), steps);
  }

  // The queue never exceeds the fill, so never the ring; what the callback has
  // copied is a prefix of what was published; and every frame asked for was
  // either consumed, is being served, or was counted as a shortfall.
  lemma QueueIsFifo(g: Geometry, s: State)
    requires g.Valid() && Reachable(g, s)
    ensures s.tail <= s.head <= s.tail + g.fill <= s.tail + g.capacity
    ensures s.delivered <= s.written
    ensures s.consumer == Idle ==> |s.delivered| == s.tail && s.requested == s.tail + s.underFrames
  {
    ReachableInv(g, s);
  }

  function Concat(periods: seq<seq<Frame>>): seq<Frame> {
    if periods == [] then [] else Concat(periods[..|periods| - 1]) + periods[|periods| - 1]
  }

  // The periods handed to Commit by a schedule and published by it, in order.
  ghost function Committed(g: Geometry, s: State, steps: seq<Step>): seq<seq<Frame>>
    requires g.Valid()
    decreases |steps|
  {
    if steps == [] then []
    else if !Enabled(g, s, steps[0]) then Committed(g, s, steps[1..])
    else
      (if steps[0] == StoreHead then [s.producer.out] else [])
      + Committed(g, Apply(g, s, steps[0]), steps[1..])
  }

  lemma {:induction false} ConcatSplit(a: seq<seq<Frame>>, b: seq<seq<Frame>>)
    ensures Concat(a + b) == Concat(a) + Concat(b)
    decreases |b|
  {
    if b == [] {
      assert a + b == a;
    } else {
      var m := |b| - 1;
      assert (a + b)[..|a + b| - 1] == a + b[..m];
      ConcatSplit(a, b[..m]);
    }
  }

  // Only StoreHead publishes, and what it publishes is the period.
  lemma StepWritten(g: Geometry, s: State, e: Step)
    requires g.Valid() && Enabled(g, s, e) && s.producer != Fresh
    ensures Apply(g, s, e).producer != Fresh
    ensures e == StoreHead ==> s.producer.Copying?
    ensures Apply(g, s, e).written == s.written + if e == StoreHead then s.producer.out else []
  {
    hide Piece, Minus;
  }

  lemma OneMore(before: seq<Frame>, out: seq<Frame>, more: seq<seq<Frame>>)
    ensures before + out + Concat(more) == before + Concat([out] + more)
  {
    ConcatSplit([out], more);
    assert Concat([out]) == out by { assert [out][..0] == []; }
    assert before + out + Concat(more) == before + (out + Concat(more));
  }

  lemma {:induction false} WrittenIsCommitted(g: Geometry, s: State, steps: seq<Step>)
    requires g.Valid() && s.producer != Fresh
    ensures Run(g, s, steps).written == s.written + Concat(Committed(g, s, steps))
    decreases |steps|
  {
    if steps != [] {
      var e, rest := steps[0], steps[1..];
      if Enabled(g, s, e) {
        StepWritten(g, s, e);
        hide Apply, Enabled, Concat;
        var s' := Apply(g, s, e);
        WrittenIsCommitted(g, s', rest);
        var more := Committed(g, s', rest);
        if e == StoreHead {
          OneMore(s.written, s.producer.out, more);
        } else {
          assert [] + more == more && s.written + [] == s.written;
        }
      } else {
        WrittenIsCommitted(g, s, rest);
      }
    }
  }

  // From the moment Start has primed the ring, under every schedule, the frames
  // the callbacks copied are a prefix of fill frames of silence followed by the
  // committed periods in commit order.
  lemma HeardInOrder(g: Geometry, s: State, steps: seq<Step>)
    requires g.Valid() && Reachable(g, s) && s.producer == Fresh
    ensures var primed := Apply(g, s, Prime);
            Run(g, primed, steps).delivered <= Zeros(g.fill) + Concat(Committed(g, primed, steps))
  {
    hide Run, Committed, Bounded, ProducerOk, WakeOk;
    var primed := Apply(g, s, Prime);
    ReachableInv(g, s);
    BoundedKept(g, s, Prime);
    ProducerKept(g, s, Prime);
    ConsumerKept(g, s, Prime);
    WakeKept(g, s, Prime);
    InvAlways(g, primed, steps);
    WrittenIsCommitted(g, primed, steps);
  }

  // While Commit writes a slot, no callback reads that slot.
  lemma NoSlotSharedWhileCopying(g: Geometry, s: State)
    requires g.Valid() && Reachable(g, s)
    requires Enabled(g, s, CopyFrameIn) && Enabled(g, s, CopyFrameOut)
    ensures Piece(s.head, |s.producer.out|, |s.ring|, s.producer.copied)
         != Piece(s.tail, s.consumer.n, |s.ring|, s.consumer.got)
  {
    hide Piece;
    ReachableInv(g, s);
    PieceIsSlot(s.head, |s.producer.out|, g.capacity, s.producer.copied);
    PieceIsSlot(s.tail, s.consumer.n, g.capacity, s.consumer.got);
    SlotsDiffer(s.tail + s.consumer.got, s.head + s.producer.copied, g.capacity);
  }

  // No lost wake-up: a Wait that is blocked although there is room for a period,
  // or although it has been interrupted, has a signal waiting for it or one that
  // a callback or the interrupting thread is about to send.
  lemma NoLostWakeUp(g: Geometry, s: State)
    requires g.Valid() && Reachable(g, s) && s.producer.Blocked?
    requires HasRoom(g, s, s.tail) || s.interrupted
    ensures s.sem > 0 || s.consumer == Signalling || s.waker == Raised
  {
    ReachableInv(g, s);
  }

  // An Interrupt ends the Wait it finds, blocked or not: the stream thread needs at most
  // a look at the ring, which may find room first, a signal and a look at the flag.
  lemma InterruptEndsWait(g: Geometry, s: State)
    requires g.Valid() && Reachable(g, s) && s.waker == Quiet
    requires s.producer == Testing || s.producer == Looking || s.producer.Blocked?
    ensures var r := Run(g, s, [RaiseFlag, SignalInterrupt, LoadTail, TakeSignal, TestFlag]);
            r.producer == Resting || (s.producer == Looking && r.producer == Staged)
    ensures var r := Run(g, s, [RaiseFlag, SignalInterrupt, LoadTail, TakeSignal, TestFlag]);
            r.interrupted && r.head == s.head && r.tail == s.tail && r.written == s.written
  {
    hide Run;
    var a := Apply(g, s, RaiseFlag);
    RunStep(g, s, RaiseFlag, [SignalInterrupt, LoadTail, TakeSignal, TestFlag]);
    assert [RaiseFlag] + [SignalInterrupt, LoadTail, TakeSignal, TestFlag]
        == [RaiseFlag, SignalInterrupt, LoadTail, TakeSignal, TestFlag];
    RunStep(g, a, SignalInterrupt, [LoadTail, TakeSignal, TestFlag]);
    assert [SignalInterrupt] + [LoadTail, TakeSignal, TestFlag] == [SignalInterrupt, LoadTail, TakeSignal, TestFlag];
    Interrupted(g, Apply(g, a, SignalInterrupt));
  }

  lemma Interrupted(g: Geometry, s: State)
    requires g.Valid() && s.interrupted && s.sem > 0
    requires s.producer == Testing || s.producer == Looking || s.producer.Blocked?
    ensures var r := Run(g, s, [LoadTail, TakeSignal, TestFlag]);
            && (r.producer == Resting || (s.producer == Looking && r.producer == Staged))
            && r.interrupted && r.head == s.head && r.tail == s.tail && r.written == s.written
  {
    hide Minus;
    assert [LoadTail, TakeSignal, TestFlag][1..] == [TakeSignal, TestFlag];
    assert [TakeSignal, TestFlag][1..] == [TestFlag];
    assert [TestFlag][1..] == [];
  }
}
