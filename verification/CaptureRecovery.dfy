/**
 What a recovery costs: exactly when the tail of the first read after one leaves the
 ring out of reach, and exactly when that read may find its frames overwritten.
 */
module CaptureRecovery {
  import opened Bits
  import opened Schedules
  import opened InputReader
  import opened CaptureReader
  import CaptureRing
  import CaptureStream
  import Rings

  // -- Schedules of callbacks ---------------------------------------------------------------

  type Calls = seq<CaptureRing.Step>

  // Steps of the callback, or of the reader of the timestamp.
  predicate Others(calls: Calls) {
    forall b :: b in calls ==> !b.StoreTail?
  }

  function Lifted(calls: Calls): (steps: seq<Step>)
    ensures |steps| == |calls|
  {
    seq(|calls|, i requires 0 <= i < |calls| => ByCallback(calls[i]))
  }

  lemma {:induction false} RunJoin(k: Setting, s: State, a: seq<Step>, b: seq<Step>)
    ensures Run(k, s, a + b) == Run(k, Run(k, s, a), b)
    decreases |a|
  {
    hide Enabled, Apply;
    if a == [] {
      assert a + b == b;
    } else {
      assert (a + b)[1..] == a[1..] + b;
      RunJoin(k, if Enabled(k, s, a[0]) then Apply(k, s, a[0]) else s, a[1..], b);
    }
  }

  lemma {:induction false} RingJoin(g: CaptureRing.Shape, r: Ring, a: Calls, b: Calls)
    requires g.Valid()
    ensures CaptureRing.Run(g, r, a + b) == CaptureRing.Run(g, CaptureRing.Run(g, r, a), b)
    decreases |a|
  {
    hide CaptureRing.Enabled, CaptureRing.Apply;
    if a == [] {
      assert a + b == b;
    } else {
      assert (a + b)[1..] == a[1..] + b;
      RingJoin(g, if CaptureRing.Enabled(g, r, a[0]) then CaptureRing.Apply(g, r, a[0]) else r, a[1..], b);
    }
  }

  // While only others step, the ring runs by itself.
  lemma {:induction false} LiftedRun(k: Setting, s: State, calls: Calls)
    requires Others(calls)
    ensures Run(k, s, Lifted(calls)) == s.(ring := CaptureRing.Run(k.shape, s.ring, calls))
    decreases |calls|
  {
    hide CaptureRing.Enabled, CaptureRing.Apply;
    if calls != [] {
      assert Lifted(calls)[1..] == Lifted(calls[1..]);
      var b := calls[0];
      LiftedRun(k, if Enabled(k, s, ByCallback(b)) then Apply(k, s, ByCallback(b)) else s, calls[1..]);
    }
  }

  lemma {:induction false} OnlyOne<T>(e: T, n: nat)
    ensures forall x :: x in Repeat(e, n) ==> x == e
  {
    if n > 0 { OnlyOne(e, n - 1); }
  }

  lemma KeepIsOthers(packet: seq<CaptureRing.Frame>, time: CaptureRing.TimeStamp)
    ensures Others(CaptureStream.KeepSchedule(packet, time))
  {
    OnlyOne(CaptureRing.CopyFrame, |packet|);
    OnlyOne(CaptureRing.WriteField, 4);
  }

  // Callbacks of one frame each.
  function Publishing(frames: seq<CaptureRing.Frame>): Calls {
    if frames == [] then []
    else CaptureStream.KeepSchedule([frames[0]], CaptureRing.NoTime) + Publishing(frames[1..])
  }

  lemma {:induction false} PublishingIsOthers(frames: seq<CaptureRing.Frame>)
    ensures Others(Publishing(frames))
    decreases |frames|
  {
    hide CaptureStream.KeepSchedule;
    if frames != [] {
      KeepIsOthers([frames[0]], CaptureRing.NoTime);
      PublishingIsOthers(frames[1..]);
    }
  }

  // No callback is running, and tail never lay further on.
  ghost predicate Calm(g: CaptureRing.Shape, r: Ring) {
    CaptureRing.Inv(g, r) && r.writer.Idle? && !r.wrapped && r.tail == r.top
  }

  lemma OnePublished(g: CaptureRing.Shape, r: Ring, f: CaptureRing.Frame)
    requires g.Valid() && Calm(g, r) && r.head < r.tail + g.capacity
    ensures var r' := CaptureRing.Run(g, r, CaptureStream.KeepSchedule([f], CaptureRing.NoTime));
            && Calm(g, r') && r'.head == r.head + 1 && r'.tail == r.tail && r'.status == r.status
            && CaptureRing.Concat(r'.packets) == CaptureRing.Concat(r.packets) + [f]
  {
    assert |r.ring| == g.capacity && r.tail <= r.head;
    CaptureRing.RoomExact(g, r.head, r.tail);
    CaptureStream.KeepRun(g, r, [f], CaptureRing.NoTime);
    CaptureRing.InvAlways(g, r, CaptureStream.KeepSchedule([f], CaptureRing.NoTime));
    CaptureRing.ConcatOne(r.packets, [f]);
    hide CaptureRing.Inv, CaptureRing.Concat, CaptureRing.Run, CaptureStream.KeepSchedule, CaptureRing.Room;
  }

  lemma {:induction false} PublishingRun(g: CaptureRing.Shape, r: Ring, frames: seq<CaptureRing.Frame>)
    requires g.Valid() && Calm(g, r) && r.head + |frames| <= r.tail + g.capacity
    ensures var r' := CaptureRing.Run(g, r, Publishing(frames));
            && Calm(g, r') && r'.head == r.head + |frames| && r'.tail == r.tail && r'.status == r.status
            && CaptureRing.Concat(r'.packets) == CaptureRing.Concat(r.packets) + frames
    decreases |frames|
  {
    hide Calm, CaptureStream.KeepSchedule, CaptureRing.Concat;
    if frames == [] {
      CaptureRing.RunNone(g, r);
      assert CaptureRing.Concat(r.packets) + frames == CaptureRing.Concat(r.packets);
    } else {
      hide CaptureRing.Run;
      var first := CaptureStream.KeepSchedule([frames[0]], CaptureRing.NoTime);
      RingJoin(g, r, first, Publishing(frames[1..]));
      OnePublished(g, r, frames[0]);
      PublishingRun(g, CaptureRing.Run(g, r, first), frames[1..]);
      assert CaptureRing.Concat(r.packets) + [frames[0]] + frames[1..] == CaptureRing.Concat(r.packets) + frames;
    }
  }

  lemma OtherStep(g: CaptureRing.Shape, r: Ring, b: CaptureRing.Step)
    requires g.Valid() && CaptureRing.Enabled(g, r, b) && !b.StoreTail?
    ensures var r' := CaptureRing.Apply(g, r, b); r'.tail == r.tail && r.head <= r'.head
  {}

  // Callbacks by themselves never find the room out of reach while tail lies where it
  // was furthest.
  lemma {:induction false} OthersRun(g: CaptureRing.Shape, r: Ring, calls: Calls)
    requires g.Valid() && CaptureRing.Inv(g, r) && !r.wrapped && r.tail == r.top && Others(calls)
    ensures var r' := CaptureRing.Run(g, r, calls);
            && CaptureRing.Inv(g, r') && !r'.wrapped && r'.tail == r'.top == r.tail && r.head <= r'.head
    decreases |calls|
  {
    hide CaptureRing.Inv, CaptureRing.Apply, CaptureRing.Enabled;
    if calls != [] {
      var b := calls[0];
      if CaptureRing.Enabled(g, r, b) {
        CaptureRing.InvKept(g, r, b);
        CaptureRing.ForwardStep(g, r, b);
        OtherStep(g, r, b);
        OthersRun(g, CaptureRing.Apply(g, r, b), calls[1..]);
      } else {
        OthersRun(g, r, calls[1..]);
      }
    }
  }

  // -- When the tail leaves the ring out of reach ---------------------------------------------

  // More than a ring lies between tail and head.
  predicate OutOfReach(k: Setting, s: State) {
    s.ring.head > s.ring.tail + k.shape.capacity
  }

  lemma Finished(k: Setting, s: State, calls: Calls)
    requires Enabled(k, s, Finish) && Others(calls)
    ensures Run(k, s, Lifted(calls) + [Finish]).ring ==
            CaptureRing.GiveBack(CaptureRing.Run(k.shape, s.ring, calls),
                                 TailAt(Advance(k.g, s.thread.c, s.thread.head).phase))
  {
    RunJoin(k, s, Lifted(calls), [Finish]);
    LiftedRun(k, s, calls);
    hide CaptureRing.Run, Advance;
  }

  // A read that is about to store its tail while no callback runs: the callbacks can
  // have filled the ring so far that more than a ring lies behind that tail exactly
  // if it is the first since a recovery and falls short.
  lemma LeavesReachExactly(k: Setting, s: State)
    requires Inv(k, s) && Enabled(k, s, Finish) && Calm(k.shape, s.ring)
    ensures (exists calls :: Others(calls) && OutOfReach(k, Run(k, s, Lifted(calls) + [Finish]))) <==>
            !s.started && FallsShort(k.g, s.origin, s.thread.head)
  {
    hide Run, CaptureRing.Run, FallsShort, Advance, ReadOk, ReadsOk, WakeOk, CaptureRing.Inv;
    FinishMovesBack(k, s);
    forall calls | Others(calls) && OutOfReach(k, Run(k, s, Lifted(calls) + [Finish]))
      ensures !s.started && FallsShort(k.g, s.origin, s.thread.head)
    {
      Finished(k, s, calls);
      OthersRun(k.shape, s.ring, calls);
      CaptureRing.TopHeld(k.shape, CaptureRing.Run(k.shape, s.ring, calls));
    }
    if !s.started && FallsShort(k.g, s.origin, s.thread.head) {
      var calls := Filling(k, s.ring);
      Finished(k, s, calls);
    }
  }

  // Callbacks that fill the ring up.
  ghost function Filling(k: Setting, r: Ring): (calls: Calls)
    requires Calm(k.shape, r)
    ensures var r' := CaptureRing.Run(k.shape, r, calls);
            && Others(calls) && Calm(k.shape, r') && r'.tail == r.tail && r'.head == r.tail + k.shape.capacity
            && r'.status == r.status
  {
    CaptureRing.TopHeld(k.shape, r);
    assert r.tail <= r.head;
    var frames := seq(r.tail + k.shape.capacity - r.head, _ => 0);
    PublishingRun(k.shape, r, frames);
    PublishingIsOthers(frames);
    Publishing(frames)
  }

  // Then the room wraps around: any packet is accepted, and its frames land on frames
  // that were not given back.
  lemma AcceptedOverUnread(g: CaptureRing.Shape, r: Ring, packet: seq<CaptureRing.Frame>, time: CaptureRing.TimeStamp)
    requires g.Valid() && CaptureRing.Inv(g, r) && r.writer.Idle? && 0 < |packet| <= g.maxFrames
    requires r.tail + g.capacity < r.head < r.tail + 0x8000_0000_0000_0000
    ensures var r' := CaptureRing.Run(g, r, CaptureStream.KeepSchedule(packet, time));
            && r'.wrapped && r'.packets == r.packets + [packet] && r'.tail == r.tail && r'.head == r.head + |packet|
            && |r'.ring| == g.capacity
            && forall j :: 0 <= j < |packet| ==>
                 var p := r.head - g.capacity + j;
                 r'.tail < p < r'.head && r'.ring[p % g.capacity] == packet[j]
  {
    hide CaptureRing.Run, CaptureStream.KeepSchedule, CaptureRing.Inv, CaptureRing.Room, Rings.Overwrite;
    CaptureStream.Bounds(g, r);
    CaptureRing.RoomWraps(g, r.head, r.tail);
    CaptureStream.KeepRun(g, r, packet, time);
    forall j | 0 <= j < |packet|
      ensures Rings.Overwrite(r.ring, r.head, packet)[(r.head - g.capacity + j) % g.capacity] == packet[j]
    {
      LandsOn(r.ring, r.head, packet, j);
    }
  }

  lemma LandsOn(ring: seq<CaptureRing.Frame>, head: nat, packet: seq<CaptureRing.Frame>, j: nat)
    requires j < |packet| <= |ring| <= head
    ensures Rings.Overwrite(ring, head, packet)[(head - |ring| + j) % |ring|] == packet[j]
  {
    hide Rings.Ahead;
    SameSlot(head - |ring| + j, |ring|);
    Rings.AheadOf(head + j, head, |ring|);
  }

  lemma SameSlot(p: nat, cap: nat)
    requires cap > 0
    ensures (p + cap) % cap == p % cap
  {
    var q := p / cap;
    assert cap * (q + 1) == cap * q + cap;
    DivModUnique(p + cap, cap, q + 1, p % cap);
  }

  // -- When the first read may find its frames overwritten ---------------------------------------

  // The ring still holds every frame the read touches.
  ghost predicate StillHeld(k: Setting, s: State)
    requires s.thread.Reading?
  {
    && |s.ring.ring| == k.g.capacity && s.thread.head <= |CaptureRing.Concat(s.ring.packets)|
    && Held(k.g, Memory(k.g, s.ring.ring), Below(k.g, s.ring, s.thread.head), s.origin,
            s.thread.c.phase.Floor, s.thread.head)
  }

  lemma WordsDiffer(f: CaptureRing.Frame)
    ensures WordOf(f + 1, 0) != WordOf(f, 0)
  {
    Pow2Monotone(1, 32);
    assert Pow2(1) == 2 && Pow2(32 * 0) == 1;
    hide Pow2;
    NotNext(f, Pow2(32));
  }

  lemma NotNext(f: int, m: int)
    requires m >= 2
    ensures (f + 1) / 1 % m != f / 1 % m
  {
    var r := f % m;
    if r + 1 < m { DivModUnique(f + 1, m, f / m, r + 1); } else { WrapsToZero(f, m); }
  }

  lemma WrapsToZero(f: int, m: int)
    requires m >= 2 && f % m == m - 1
    ensures (f + 1) % m == 0
  {
    assert f + 1 == m * (f / m) + m == m * (f / m + 1);
    DivModUnique(f + 1, m, f / m + 1, 0);
  }

  // Calls that go around the ring up to the slot of a frame, and put another there.
  lemma GoesAround(g: CaptureRing.Shape, r: Ring, floor: nat) returns (calls: Calls)
    requires g.Valid() && Calm(g, r)
    requires floor < r.tail <= r.head <= floor + g.capacity && floor < |CaptureRing.Concat(r.packets)| == r.head
    ensures var r' := CaptureRing.Run(g, r, calls);
            && Others(calls) && |r'.ring| == g.capacity
            && CaptureRing.Concat(r.packets) <= CaptureRing.Concat(r'.packets)
            && r'.ring[floor % g.capacity] == CaptureRing.Concat(r.packets)[floor] + 1
  {
    var n := floor + g.capacity - r.head;
    var frames := seq(n, _ => 0) + [CaptureRing.Concat(r.packets)[floor] + 1];
    calls := Publishing(frames);
    PublishingIsOthers(frames);
    PublishingRun(g, r, frames);
    var r' := CaptureRing.Run(g, r, calls);
    hide CaptureRing.Run, CaptureRing.Concat;
    CaptureRing.TopHeld(g, r');
    CaptureStream.Bounds(g, r');
    hide CaptureRing.Inv;
    SameSlot(floor, g.capacity);
    assert r'.ring[(floor + g.capacity) % g.capacity] == CaptureRing.Concat(r'.packets)[floor + g.capacity];
  }

  // A frame before the one the reader was reset at is not kept from the callbacks:
  // once they have gone around the ring its slot holds another frame's words.
  lemma FirstFrameLost(k: Setting, s: State) returns (calls: Calls)
    requires Inv(k, s) && s.thread.Reading? && !s.started && s.ring.head == s.thread.head
    requires Calm(k.shape, s.ring) && k.g.inputRate == k.g.outputRate && k.g.target <= k.g.capacity
    requires s.thread.head > k.g.target && s.thread.head - k.g.target < s.origin
    ensures Others(calls) && !StillHeld(k, s.(ring := CaptureRing.Run(k.shape, s.ring, calls)))
  {
    var r, head := s.ring, s.thread.head;
    var floor := head - k.g.target;
    assert s.thread.c.phase == floor as real && r.tail == s.origin <= head;
    assert |CaptureRing.Concat(r.packets)| == r.head;
    FloorOfWhole(floor);
    assert floor < head by { assert Aimed(k.g); }
    hide Inv, CaptureRing.Concat, Calm, CaptureRing.Run, WordOf, Load, Memory, SlotOf, Below;
    calls := GoesAround(k.shape, r, floor);
    var r' := CaptureRing.Run(k.shape, r, calls);
    if StillHeld(k, s.(ring := r')) {
      MemoryAt(k.g, r'.ring, floor, 0);
      BelowIs(k.g, r', head, floor, 0);
      assert Memory(k.g, r'.ring)[SlotOf(k.g, floor, 0)] == Below(k.g, r', head)[floor][0];
      LoadIs(k.g, r'.ring, floor, 0);
      WordsDiffer(CaptureRing.Concat(r.packets)[floor]);
    }
  }

  lemma LoadIs(g: Setup, ring: seq<CaptureRing.Frame>, p: nat, ch: nat)
    requires g.Valid() && |ring| == g.capacity
    ensures Load(g, ring, p, ch) == WordOf(ring[p % g.capacity], ch)
  {}

  lemma FloorOfWhole(n: nat)
    ensures (n as real).Floor == n
  {}

  // At equal rates, as the first read after a recovery begins while no callback runs:
  // the ring keeps its frames whatever the callbacks do exactly if it does not begin
  // behind the recovered tail.
  lemma HeldExactly(k: Setting, s: State, head0: nat, queueReset: bool)
    requires Inv(k, s) && s.thread.Reading? && !s.started && s.ring.head == s.thread.head
    requires Calm(k.shape, s.ring) && k.g.inputRate == k.g.outputRate && k.g.target <= k.g.capacity
    requires s.origin == RecoveredAt(k.g, head0, queueReset) > 0 && head0 <= s.thread.head
    ensures var (head, target) := (s.thread.head, k.g.target);
            (forall calls :: Others(calls) ==> StillHeld(k, s.(ring := CaptureRing.Run(k.shape, s.ring, calls)))) <==>
            !(head > target && head - head0 < target && !(queueReset && head0 > target))
  {
    BeginsBehindTail(k.g, head0, s.thread.head, queueReset);
    assert s.thread.c.phase == BeginsAt(k.g, s.origin as real, false, s.thread.head);
    if s.thread.c.phase < s.origin as real {
      var calls := FirstFrameLost(k, s);
    } else {
      forall calls | Others(calls)
        ensures StillHeld(k, s.(ring := CaptureRing.Run(k.shape, s.ring, calls)))
      {
        hide Run, CaptureRing.Run;
        InvAlways(k, s, Lifted(calls));
        LiftedRun(k, s, calls);
        OthersRun(k.shape, s.ring, calls);
        hide CaptureRing.Inv, WakeOk, ReadOk, ReadsOk;
        GoodIsHeld(k, s.(ring := CaptureRing.Run(k.shape, s.ring, calls)));
      }
    }
  }

  // -- A run that loses unread frames --------------------------------------------------------------

  ghost predicate Reached(k: Setting, s: State)
  {
    exists steps :: s == Run(k, Initial(k.shape), steps)
  }

  lemma ReachedMore(k: Setting, s: State, more: seq<Step>)
    requires Reached(k, s)
    ensures Reached(k, Run(k, s, more))
  {
    hide Run;
    var steps :| s == Run(k, Initial(k.shape), steps);
    RunJoin(k, Initial(k.shape), steps, more);
  }

  lemma ReachedNext(k: Setting, s: State, e: Step)
    requires Reached(k, s) && Enabled(k, s, e)
    ensures Reached(k, Apply(k, s, e))
  {
    hide Apply, Enabled, Reached;
    ReachedMore(k, s, [e]);
    assert Run(k, s, [e]) == Apply(k, s, e) by { assert [e][1..] == []; }
  }

  lemma ReachedInv(k: Setting, s: State)
    requires Reached(k, s)
    ensures Inv(k, s)
  {
    hide Run, Inv;
    var steps :| s == Run(k, Initial(k.shape), steps);
    InvReached(k, steps);
  }

  // No callback runs, nothing failed, nobody interrupted.
  ghost predicate Peaceful(k: Setting, s: State)
  {
    Reached(k, s) && Calm(k.shape, s.ring) && s.ring.status == 0 && !s.interrupted
  }

  // Callbacks bring silence.
  lemma Grows(k: Setting, s: State, n: nat) returns (s': State)
    requires Peaceful(k, s) && s.ring.head + n <= s.ring.tail + k.shape.capacity
    ensures s' == s.(ring := s'.ring) && Peaceful(k, s')
    ensures s'.ring.head == s.ring.head + n && s'.ring.tail == s.ring.tail
    ensures CaptureRing.Concat(s'.ring.packets) == CaptureRing.Concat(s.ring.packets) + seq(n, _ => 0)
  {
    hide Reached, Run, CaptureRing.Run, Calm, CaptureRing.Concat;
    var frames := seq(n, _ => 0);
    PublishingRun(k.shape, s.ring, frames);
    PublishingIsOthers(frames);
    LiftedRun(k, s, Publishing(frames));
    ReachedMore(k, s, Lifted(Publishing(frames)));
    s' := Run(k, s, Lifted(Publishing(frames)));
  }

  // A wait that finds its frames there.
  lemma WaitsThrough(k: Setting, s: State, required: nat)
    requires Peaceful(k, s) && s.thread.Away? && s.ring.head >= required
    ensures Peaceful(k, s.(thread := Waited(required)))
  {
    hide Reached, CaptureRing.Inv;
    var s1 := s.(thread := Testing(required));
    var s2 := s.(thread := Checking(required));
    var s3 := s.(thread := Looking(required));
    ReachedNext(k, s, Call(required));
    ReachedNext(k, s1, TestFlag);
    ReachedNext(k, s2, LoadStatus);
    ReachedNext(k, s3, LoadHead);
  }

  // A read that goes through with no callback beside it.
  lemma {:induction false} ReadsThrough(k: Setting, s: State) returns (t: Thread)
    requires Peaceful(k, s) && s.thread.Reading? && |s.ring.ring| == k.g.capacity
    requires var r := s.thread;
             && |r.out| <= k.g.period && |r.row| <= k.g.channels && r.taps <= TAPS
             && (|r.out| < k.g.period && Copies(k.g, At(k, r)) ==> r.taps == 0)
    ensures t.Reading? && t.head == s.thread.head && t.c == s.thread.c && |t.out| == k.g.period
    ensures Peaceful(k, s.(thread := t))
    decreases k.g.period - |s.thread.out|, k.g.channels - |s.thread.row|, TAPS - s.thread.taps
  {
    hide Reached, Calm, Copies, PhaseAt, Load, Weighted;
    var r := s.thread;
    if |r.out| == k.g.period {
      t := r;
    } else {
      var e := if |r.row| == k.g.channels then StoreFrame else if r.taps < TAPS then LoadWord else StoreSample;
      ReachedNext(k, s, e);
      t := ReadsThrough(k, Apply(k, s, e));
    }
  }

  // The stream has just recovered with the target behind head.
  ghost predicate Recovered(k: Setting, s: State)
  {
    && Peaceful(k, s) && s.thread.Away? && s.primed && !s.started && !s.queueReset
    && s.origin == s.ring.tail == s.ring.head == k.g.target && s.clock == Clock(s.origin as real, 0.0)
    && CaptureRing.Concat(s.ring.packets) == seq(s.ring.head, _ => 0)
  }

  // Start is over, with the target behind head.
  ghost predicate Started(k: Setting, s: State)
  {
    && Peaceful(k, s) && s.thread.Away? && s.primed && !s.started && !s.queueReset && s.ring.head == k.g.target
    && CaptureRing.Concat(s.ring.packets) == seq(s.ring.head, _ => 0)
  }

  lemma Starts(k: Setting) returns (s: State)
    requires k.g.target <= k.shape.capacity
    ensures Started(k, s)
  {
    var s0 := Initial(k.shape);
    InvReached(k, []);
    assert Run(k, s0, []) == s0;
    assert Calm(k.shape, s0.ring);
    hide Reached, Run, CaptureRing.Inv, CaptureRing.Concat, Calm;
    NoPackets();
    var s1 := Grows(k, s0, k.g.target);
    WaitsThrough(k, s1, k.g.target);
    var s2 := s1.(thread := Waited(k.g.target));
    ReachedNext(k, s2, Prime);
    s := Apply(k, s2, Prime);
  }

  lemma StartsAndRecovers(k: Setting) returns (s: State)
    requires k.g.target <= k.shape.capacity
    ensures Recovered(k, s)
  {
    var s1 := Starts(k);
    hide Reached, Run, CaptureRing.Inv, CaptureRing.Concat;
    ReachedNext(k, s1, Recover);
    var s2 := Apply(k, s1, Recover);
    ReachedNext(k, s2, StoreRecovered);
    s := Apply(k, s2, StoreRecovered);
    ReachedInv(k, s1);
    ReachedInv(k, s);
  }

  lemma NoPackets()
    ensures CaptureRing.Concat([]) == []
  {}

  // Its first read begins as soon as the wait for it lets it through.
  ghost predicate FirstRead(k: Setting, s: State)
  {
    && Peaceful(k, s) && s.thread.Reading? && s.ring.tail == k.g.target
    && s.thread.head == s.ring.head == Required(k.g, k.g.target as real)
    && s.thread.c == Clock(BeginsAt(k.g, k.g.target as real, false, s.ring.head), 0.0)
    && CaptureRing.Concat(s.ring.packets) == seq(s.ring.head, _ => 0)
  }

  lemma BeginsFirst(k: Setting, s0: State) returns (s: State)
    requires Recovered(k, s0)
    requires k.g.target <= Required(k.g, k.g.target as real) <= k.g.target + k.shape.capacity
    ensures FirstRead(k, s) && s.thread.out == [] && s.thread.row == [] && s.thread.taps == 0
  {
    hide Reached, Calm, CaptureRing.Concat, Required, Aimed;
    var required := Required(k.g, k.g.target as real);
    var s1 := Grows(k, s0, required - k.g.target);
    WaitsThrough(k, s1, required);
    var s2 := s1.(thread := Waited(required));
    ReachedNext(k, s2, Begin);
    s := Apply(k, s2, Begin);
  }

  // It is over, with the ring filled up beside it.
  ghost predicate AboutToStore(k: Setting, s: State)
  {
    && Peaceful(k, s) && Enabled(k, s, Finish) && s.ring.head == k.g.target + k.shape.capacity
    && TailAt(Advance(k.g, s.thread.c, s.thread.head).phase) < k.g.target
    && CaptureRing.Concat(s.ring.packets) == seq(s.ring.head, _ => 0)
  }

  lemma FallsBack(k: Setting, s: State)
    requires FirstRead(k, s) && s.ring.head > k.g.target
    ensures TailAt(Advance(k.g, s.thread.c, s.thread.head).phase) < k.g.target
  {
    assert k.g.target > 0 by { assert Aimed(k.g); }
    hide Peaceful, CaptureRing.Concat, Required, Advance, TailAt, BeginsAt, Aimed;
    RecoveredReadMovesBack(k.g, k.g.target, s.ring.head);
  }

  lemma OneRead(k: Setting, s: State) returns (t: Thread)
    requires FirstRead(k, s) && s.thread.out == [] && s.thread.row == [] && s.thread.taps == 0
    ensures t.Reading? && t.head == s.thread.head && t.c == s.thread.c && |t.out| == k.g.period
    ensures Peaceful(k, s.(thread := t))
  {
    CaptureStream.Bounds(k.shape, s.ring);
    hide Reached, Calm, Copies, PhaseAt, Required;
    t := ReadsThrough(k, s);
  }

  lemma FillsUp(k: Setting, s0: State) returns (s: State)
    requires FirstRead(k, s0) && s0.thread.out == [] && s0.thread.row == [] && s0.thread.taps == 0
    requires k.g.target < s0.ring.head <= k.g.target + k.shape.capacity
    ensures AboutToStore(k, s)
  {
    hide Reached, Calm, CaptureRing.Concat, Required, Advance, TailAt, BeginsAt, Aimed;
    FallsBack(k, s0);
    var t := OneRead(k, s0);
    s := Grows(k, s0.(thread := t), k.g.target + k.shape.capacity - s0.ring.head);
  }

  // Frames that were published and not given back are no longer in their slots.
  ghost predicate LostUnread(k: Setting, r: Ring) {
    && |r.ring| == k.shape.capacity > 0 && r.head <= |CaptureRing.Concat(r.packets)|
    && exists p :: r.tail <= p < r.head && r.ring[p % k.shape.capacity] != CaptureRing.Concat(r.packets)[p]
  }

  lemma OneMoreLoses(k: Setting, r: Ring)
    requires CaptureRing.Inv(k.shape, r) && r.writer.Idle?
    requires r.head == k.g.target + k.shape.capacity && r.tail < k.g.target <= k.shape.capacity
    requires CaptureRing.Concat(r.packets) == seq(r.head, _ => 0)
    ensures var r' := CaptureRing.Run(k.shape, r, CaptureStream.KeepSchedule([1], CaptureRing.NoTime));
            r'.wrapped && LostUnread(k, r')
  {
    hide CaptureRing.Concat, CaptureRing.Run, CaptureStream.KeepSchedule, CaptureRing.Inv;
    AcceptedOverUnread(k.shape, r, [1], CaptureRing.NoTime);
    CaptureRing.ConcatOne(r.packets, [1]);
    var r' := CaptureRing.Run(k.shape, r, CaptureStream.KeepSchedule([1], CaptureRing.NoTime));
    assert r'.ring[(r.head - k.shape.capacity + 0) % k.shape.capacity] == [1][0];
    assert CaptureRing.Concat(r'.packets)[k.g.target] == 0;
  }

  // With any setting whose target and first read fit the ring, a run that starts,
  // recovers at the target and is read once while the ring fills up gets there: the
  // next packet is accepted over a frame that the reader still needs.
  lemma LosesUnread(k: Setting) returns (s: State)
    requires k.g.target <= k.shape.capacity
    requires Required(k.g, k.g.target as real) <= k.g.target + k.shape.capacity
    ensures Reached(k, s) && s.ring.wrapped && LostUnread(k, s.ring)
  {
    RequiredBeyond(k.g, k.g.target as real);
    hide Reached, CaptureRing.Concat, Required, Advance, CaptureRing.Run, CaptureStream.KeepSchedule, Run;
    var s0 := StartsAndRecovers(k);
    var s1 := BeginsFirst(k, s0);
    var s2 := FillsUp(k, s1);
    ReachedNext(k, s2, Finish);
    var s3 := Apply(k, s2, Finish);
    ReachedInv(k, s3);
    OneMoreLoses(k, s3.ring);
    var calls := CaptureStream.KeepSchedule([1], CaptureRing.NoTime);
    KeepIsOthers([1], CaptureRing.NoTime);
    LiftedRun(k, s3, calls);
    ReachedMore(k, s3, Lifted(calls));
    s := Run(k, s3, Lifted(calls));
  }
}
