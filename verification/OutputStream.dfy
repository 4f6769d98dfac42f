/**
 The output stream's own code over one array: Start, the room test of Wait,
 Commit and the render callback. Each call, run alone, is shown to be a schedule
 of OutputRing, so what holds of every schedule holds of every mixture of calls.
 */
module OutputStream {
  import opened Bits
  import opened Options
  import opened Rings
  import opened Schedules
  import opened OutputRing

  const MAX_RING_FRAMES: nat := 0x10_0000

  const MAX_CHANNELS: nat := 64
  const MAX_RING_BYTES: nat := 0x400_0000
  const BYTES_PER_SAMPLE: nat := 4

  // The smallest power of two that is at least n.
  method NextPow2(n: nat) returns (p: nat, ghost k: nat)
    ensures p == Pow2(k) && n <= p
    ensures forall j: nat :: n <= Pow2(j) ==> p <= Pow2(j)
  {
    p, k := 1, 0;
    while p < n
      invariant p == Pow2(k)
      invariant forall j: nat :: n <= Pow2(j) ==> p <= Pow2(j)
      decreases n - p
    {
      forall j: nat | n <= Pow2(j) ensures 2 * p <= Pow2(j) {
        if j <= k { Pow2Monotone(j, k); } else { Pow2Monotone(k + 1, j); }
      }
      p, k := p * 2, k + 1;
    }
  }

  // -- The schedules of one call -----------------------------------------------------

  function CommitSchedule(out: seq<Frame>): seq<Step> {
    [CallCommit(out)] + (Repeat(CopyFrameIn, |out|) + [StoreHead])
  }

  function RenderSchedule(req: nat, n: nat): seq<Step> {
    [Render(req), LoadHead] + (Repeat(CopyFrameOut, n) + [CountShortfall, StoreTail, SignalRoom])
  }

  // Piece by piece, the copy of Commit overwrites the ring at head.
  lemma OverwriteStep(ring: seq<Frame>, at: nat, out: seq<Frame>, k: nat)
    requires k < |out| <= |ring|
    ensures Overwrite(ring, at, out[..k])[Piece(at, |out|, |ring|, k) := out[k]] == Overwrite(ring, at, out[..k + 1])
  {
    hide Piece;
    var cap := |ring|;
    PieceIsSlot(at, |out|, cap, k);
    var p := (at + k) % cap;
    AheadOf(at + k, at, cap);
    forall i | 0 <= i < cap && Ahead(i, at, cap) == k ensures i == p {
      AheadOnce(i, p, at, cap);
    }
    hide Ahead;
    assert out[..k + 1][..k] == out[..k];
  }

  lemma AheadOnce(i: nat, p: nat, at: nat, cap: nat)
    requires i < cap && p < cap && Ahead(i, at, cap) == Ahead(p, at, cap)
    ensures i == p
  {
    hide Ahead;
    AheadFromSlot(i, at, cap);
    AheadFromSlot(p, at, cap);
    assert at % cap < cap;
  }

  lemma {:induction false} CopyFramesIn(g: Geometry, s: State, ring0: seq<Frame>, rest: seq<Step>)
    requires g.Valid() && s.producer.Copying? && |ring0| == |s.ring| == g.capacity
    requires var Copying(out, k) := s.producer;
             |out| == g.period && k <= |out| && s.ring == Overwrite(ring0, s.head, out[..k])
    ensures var Copying(out, k) := s.producer;
            Run(g, s, Repeat(CopyFrameIn, |out| - k) + rest) ==
            Run(g, s.(producer := Copying(out, |out|), ring := Overwrite(ring0, s.head, out)), rest)
    decreases |s.producer.out| - s.producer.copied
  {
    hide Piece, Overwrite, Run;
    var Copying(out, k) := s.producer;
    if k == |out| {
      assert out[..k] == out;
      assert Repeat(CopyFrameIn, 0) + rest == rest;
    } else {
      var s' := Apply(g, s, CopyFrameIn);
      OverwriteStep(ring0, s.head, out, k);
      var more := Repeat(CopyFrameIn, |out| - k - 1) + rest;
      assert Repeat(CopyFrameIn, |out| - k) + rest == [CopyFrameIn] + more;
      RunStep(g, s, CopyFrameIn, more);
      CopyFramesIn(g, s', ring0, rest);
    }
  }

  // Commit run alone: the period is in the ring behind what was there, and
  // published.
  lemma CommitRun(g: Geometry, s: State, out: seq<Frame>)
    requires g.Valid() && s.producer == Staged && |s.ring| == g.capacity && |out| == g.period
    ensures Run(g, s, CommitSchedule(out)) ==
            s.(producer := Resting, ring := Overwrite(s.ring, s.head, out),
               head := s.head + g.period, written := s.written + out)
  {
    hide Piece, Overwrite;
    var s1 := s.(producer := Copying(out, 0));
    RunStep(g, s, CallCommit(out), Repeat(CopyFrameIn, |out|) + [StoreHead]);
    OverwriteNothing(s.ring, s.head, out[..0]);
    CopyFramesIn(g, s1, s.ring, [StoreHead]);
  }

  lemma OverwriteNothing(ring: seq<Frame>, at: nat, none: seq<Frame>)
    requires none == [] && |ring| > 0
    ensures Overwrite(ring, at, none) == ring
  {}

  lemma SpanStep(ring: seq<Frame>, at: nat, n: nat)
    requires |ring| > 0
    ensures Span(ring, at, n + 1) == Span(ring, at, n) + [ring[(at + n) % |ring|]]
  {}

  lemma {:induction false} CopyFramesOut(g: Geometry, s: State, delivered0: seq<Frame>, rest: seq<Step>)
    requires g.Valid() && s.consumer.Reading? && |s.ring| == g.capacity
    requires var Reading(req, n, got) := s.consumer;
             got <= n <= g.capacity && s.delivered == delivered0 + Span(s.ring, s.tail, got)
    ensures var Reading(req, n, got) := s.consumer;
            Run(g, s, Repeat(CopyFrameOut, n - got) + rest) ==
            Run(g, s.(consumer := Reading(req, n, n), delivered := delivered0 + Span(s.ring, s.tail, n)), rest)
    decreases s.consumer.n - s.consumer.got
  {
    hide Piece, Span, Run;
    var Reading(req, n, got) := s.consumer;
    if got == n {
      assert Repeat(CopyFrameOut, 0) + rest == rest;
    } else {
      var s' := Apply(g, s, CopyFrameOut);
      PieceIsSlot(s.tail, n, g.capacity, got);
      SpanStep(s.ring, s.tail, got);
      var more := Repeat(CopyFrameOut, n - got - 1) + rest;
      assert Repeat(CopyFrameOut, n - got) + rest == [CopyFrameOut] + more;
      RunStep(g, s, CopyFrameOut, more);
      assert s'.delivered == delivered0 + Span(s.ring, s.tail, got + 1);
      CopyFramesOut(g, s', delivered0, rest);
    }
  }

  // The callback run alone.
  ghost function Rendered(s: State, req: nat): State
    requires |s.ring| > 0 && s.tail <= s.head
  {
    var n := Min(req, s.head - s.tail);
    s.(tail := s.tail + n, sem := s.sem + 1, consumer := Idle,
       under := s.under + (if req > n then 1 else 0), underFrames := s.underFrames + (req - n),
       delivered := s.delivered + Span(s.ring, s.tail, n), requested := s.requested + req)
  }

  lemma RenderRun(g: Geometry, s: State, req: nat)
    requires g.Valid() && s.consumer == Idle && |s.ring| == g.capacity
    requires s.tail <= s.head <= s.tail + g.capacity
    ensures Run(g, s, RenderSchedule(req, Min(req, s.head - s.tail))) == Rendered(s, req)
  {
    hide Piece, Span, Run;
    var n := Min(req, s.head - s.tail);
    var tail3 := [CountShortfall, StoreTail, SignalRoom];
    RenderEnters(g, s, req, Repeat(CopyFrameOut, n) + tail3);
    SpanNone(s.ring, s.tail);
    assert s.delivered + [] == s.delivered;
    var s2 := s.(consumer := Reading(req, n, 0), requested := s.requested + req);
    CopyFramesOut(g, s2, s.delivered, tail3);
    var s3 := s2.(consumer := Reading(req, n, n), delivered := s.delivered + Span(s.ring, s.tail, n));
    RunThree(g, s3);
  }

  // A Wait that is blocked is let go by the next callback that asks for a period or more:
  // the stream thread takes its signal, finds the flag down and has room.
  lemma CallbackEndsWait(g: Geometry, s: State, req: nat)
    requires g.Valid() && Inv(g, s) && s.consumer == Idle && s.producer.Blocked? && !s.interrupted
    requires req >= g.period
    ensures var n := Min(req, s.head - s.tail);
            Run(g, Run(g, s, RenderSchedule(req, n)), [TakeSignal, TestFlag, LoadTail]).producer == Staged
  {
    hide Run, RenderSchedule, Span;
    RenderRun(g, s, req);
    LetGo(g, Rendered(s, req));
  }

  lemma LetGo(g: Geometry, s: State)
    requires g.Valid() && s.producer.Blocked? && !s.interrupted && s.sem > 0
    requires s.tail <= s.head <= s.tail + g.fill - g.period
    ensures Run(g, s, [TakeSignal, TestFlag, LoadTail]).producer == Staged
  {
    hide Run;
    var a := Apply(g, s, TakeSignal);
    var b := Apply(g, a, TestFlag);
    RunStep(g, s, TakeSignal, [TestFlag, LoadTail]);
    assert [TakeSignal] + [TestFlag, LoadTail] == [TakeSignal, TestFlag, LoadTail];
    RunStep(g, a, TestFlag, [LoadTail]);
    assert [TestFlag] + [LoadTail] == [TestFlag, LoadTail];
    RunStep(g, b, LoadTail, []);
    assert [LoadTail] + [] == [LoadTail];
    RunNone(g, Apply(g, b, LoadTail));
  }

  lemma RunNone(g: Geometry, s: State)
    requires g.Valid()
    ensures Run(g, s, []) == s
  {}

  // The callback begins: it loads head and knows how many frames there are for it.
  lemma RenderEnters(g: Geometry, s: State, req: nat, rest: seq<Step>)
    requires g.Valid() && s.consumer == Idle && s.tail <= s.head <= s.tail + g.capacity
    ensures Run(g, s, [Render(req), LoadHead] + rest) ==
            Run(g, s.(consumer := Reading(req, Min(req, s.head - s.tail), 0), requested := s.requested + req), rest)
  {
    hide Run, Minus;
    var s1 := Apply(g, s, Render(req));
    assert [Render(req), LoadHead] + rest == [Render(req)] + ([LoadHead] + rest);
    RunStep(g, s, Render(req), [LoadHead] + rest);
    MinusExact(s.head, s.tail);
    RunStep(g, s1, LoadHead, rest);
  }

  lemma SpanNone(ring: seq<Frame>, at: nat)
    requires |ring| > 0
    ensures Span(ring, at, 0) == []
  {}

  lemma RunThree(g: Geometry, s: State)
    requires g.Valid() && s.consumer.Reading? && s.consumer.got == s.consumer.n <= s.consumer.req
    ensures var Reading(req, n, _) := s.consumer;
            Run(g, s, [CountShortfall, StoreTail, SignalRoom]) ==
            s.(tail := s.tail + n, sem := s.sem + 1, consumer := Idle,
               under := s.under + (if req > n then 1 else 0), underFrames := s.underFrames + (req - n))
  {
    hide Piece;
    var s1 := Apply(g, s, CountShortfall);
    var s2 := Apply(g, s1, StoreTail);
    assert [CountShortfall, StoreTail, SignalRoom] == [CountShortfall] + [StoreTail, SignalRoom];
    RunStep(g, s, CountShortfall, [StoreTail, SignalRoom]);
    assert [StoreTail, SignalRoom] == [StoreTail] + [SignalRoom];
    RunStep(g, s1, StoreTail, [SignalRoom]);
    assert [SignalRoom] == [SignalRoom] + [];
    RunStep(g, s2, SignalRoom, []);
  }

  // -- The code ----------------------------------------------------------------------

  class Stream {
    const g: Geometry
    const data: array<Frame>
    var head: nat
    var tail: nat
    var sem: nat
    var under: nat
    var underFrames: nat
    var started: bool
    var stopped: bool
    var ready: bool
    ghost var written: seq<Frame>
    ghost var delivered: seq<Frame>
    ghost var requested: nat

    // The state of OutputRing between calls, while nobody interrupts.
    ghost function Abs(): State
      reads this, data
    {
      var producer := if stopped then Dead else if !started then Fresh else if ready then Staged else Resting;
      State(head, tail, data[..], sem, false, under, underFrames, producer, Idle, Quiet,
            written, delivered, requested)
    }

    ghost predicate Valid()
      reads this, data
    {
      g.Valid() && (!started ==> !ready) && Inv(g, Abs())
    }

    constructor (period: nat, fill: nat, ghost k: nat, capacity: nat)
      requires 0 < period <= fill && capacity == Pow2(k) && fill <= capacity <= MAX_RING_FRAMES
      ensures Valid() && fresh(data) && g == Geometry(capacity, period, fill)
      ensures Abs() == Initial(g)
    {
      g := Geometry(capacity, period, fill);
      data := new Frame[capacity](_ => SILENCE);
      head, tail, sem, under, underFrames := 0, 0, 0, 0, 0;
      started, stopped, ready := false, false, false;
      written, delivered, requested := [], [], 0;
      new;
      assert data[..] == Zeros(capacity);
    }

    // The ring is zeroed: fill frames of silence are queued before the unit runs.
    method Start(unitStarts: bool) returns (ok: bool)
      requires Valid()
      modifies this
      ensures Valid() && (ok <==> !old(started) && !old(stopped) && unitStarts)
      ensures Abs() == if old(started) || old(stopped) then old(Abs())
                       else Run(g, old(Abs()), [Prime, if unitStarts then UnitStarted else UnitFailed])
    {
      if started || stopped {
        return false;
      }
      ghost var s, last := Abs(), if unitStarts then UnitStarted else UnitFailed;
      assert [Prime, last] == [Prime] + [last] && [last] == [last] + [];
      RunStep(g, s, Prime, [last]);
      RunStep(g, Apply(g, s, Prime), last, []);
      InvAlways(g, s, [Prime, last]);
      head := g.fill;
      written := OutputRing.Zeros(g.fill);
      if !unitStarts {
        stopped := true;
        return false;
      }
      started := true;
      return true;
    }

    // The pass of Wait that looks for room, when it has not been interrupted.
    method TakeRoom() returns (room: bool)
      requires Valid() && started && !stopped && !ready
      modifies this`ready
      ensures Valid() && room == HasRoom(g, old(Abs()), old(tail))
      ensures Abs() == if room then Run(g, old(Abs()), [CallWait, TestFlag, LoadTail]) else old(Abs())
    {
      ghost var s := Abs();
      MinusExact(head, tail);
      MinusExact(g.fill, head - tail);
      room := Minus(g.fill, Minus(head, tail)) >= g.period;
      if room {
        ghost var s1 := Apply(g, s, CallWait);
        ghost var s2 := Apply(g, s1, TestFlag);
        assert [CallWait, TestFlag, LoadTail] == [CallWait] + [TestFlag, LoadTail];
        assert [TestFlag, LoadTail] == [TestFlag] + [LoadTail] && [LoadTail] == [LoadTail] + [];
        RunStep(g, s, CallWait, [TestFlag, LoadTail]);
        RunStep(g, s1, TestFlag, [LoadTail]);
        RunStep(g, s2, LoadTail, []);
        InvAlways(g, s, [CallWait, TestFlag, LoadTail]);
        ready := true;
      }
    }

    // Copy the staged period into the ring, in two pieces when it wraps, and
    // publish it.
    method Commit(out: array<Frame>) returns (ok: bool)
      requires Valid() && out != data && out.Length == g.period
      modifies this, data
      ensures Valid() && ok == (old(ready) && !old(stopped))
      ensures Abs() == if ok then Run(g, old(Abs()), CommitSchedule(out[..])) else old(Abs())
    {
      hide Inv, Overwrite, Run;
      if !ready || stopped {
        return false;
      }
      ghost var s := Abs();
      InvAlways(g, s, CommitSchedule(out[..]));
      RingSize(g, s);
      CommitRun(g, s, out[..]);
      ready := false;
      assert out[..g.period] == out[..];
      CopyIn(data, head, out, g.period);
      head := head + g.period;
      written := written + out[..];
      return true;
    }

    // The render callback over a buffer of whole frames.
    method Render(nframes: nat, buffer: array<Frame>)
      requires Valid() && buffer != data
      modifies this, data, buffer
      ensures Valid()
      ensures var req := Min(nframes, buffer.Length);
              var n := Min(req, old(head) - old(tail));
              && Abs() == Run(g, old(Abs()), RenderSchedule(req, n))
              && buffer[..req] == Span(old(data[..]), old(tail), n) + OutputRing.Zeros(req - n)
    {
      hide Inv, Run, Span, RenderSchedule, Minus, OutputRing.Zeros;
      ghost var s := Abs();
      var req := if nframes < buffer.Length then nframes else buffer.Length;
      RenderKept(g, s, req);
      var available := Minus(head, tail);
      var n := if req < available then req else available;
      Serve(buffer, data, tail, n, req);
      assert data[..] == s.ring;
      if req != n {
        under := under + 1;
        underFrames := underFrames + (req - n);
      }
      tail := tail + n;
      sem := sem + 1;
      delivered := delivered + Span(s.ring, s.tail, n);
      requested := requested + req;
      assert Abs() == Rendered(s, req);
    }
  }

  // n frames from the ring, then silence up to req.
  method Serve(buffer: array<Frame>, data: array<Frame>, at: nat, n: nat, req: nat)
    requires buffer != data && n <= req <= buffer.Length && n <= data.Length && data.Length > 0
    modifies buffer
    ensures buffer[..req] == Span(data[..], at, n) + OutputRing.Zeros(req - n)
  {
    hide Span;
    CopyOut(buffer, data, at, n);
    assert buffer[..n] == Span(data[..], at, n);
    if req != n {
      Silence(buffer, n, req);
    }
  }

  method Silence(buffer: array<Frame>, from: nat, to: nat)
    requires from <= to <= buffer.Length
    modifies buffer
    ensures buffer[..to] == old(buffer[..from]) + OutputRing.Zeros(to - from)
  {
    for i := from to to
      invariant buffer[..from] == old(buffer[..from])
      invariant forall k :: from <= k < i ==> buffer[k] == SILENCE
    {
      buffer[i] := SILENCE;
    }
  }

  lemma RenderKept(g: Geometry, s: State, req: nat)
    requires g.Valid() && Inv(g, s) && s.consumer == Idle
    ensures s.tail <= s.head && Minus(s.head, s.tail) == s.head - s.tail <= |s.ring| && |s.ring| > 0
    ensures Run(g, s, RenderSchedule(req, Min(req, s.head - s.tail))) == Rendered(s, req)
    ensures Inv(g, Rendered(s, req))
  {
    hide Inv, Run, Rendered, RenderSchedule;
    RingSize(g, s);
    MinusExact(s.head, s.tail);
    RenderRun(g, s, req);
    InvAlways(g, s, RenderSchedule(req, Min(req, s.head - s.tail)));
  }

  lemma RingSize(g: Geometry, s: State)
    requires g.Valid() && Inv(g, s)
    ensures |s.ring| == g.capacity && s.tail <= s.head <= s.tail + g.fill
  {}

  // What a stream may be asked for.
  predicate GoodConfig(rate: int, channels: int, period: int, fill: int, pipeFrames: int) {
    && rate > 0 && 0 < channels <= MAX_CHANNELS && period > 0
    && fill >= period && fill % period == 0 && pipeFrames >= 0
  }

  // A ring of that many frames, and its bytes, are within the limits.
  predicate RingFits(capacity: nat, channels: nat) {
    capacity <= MAX_RING_FRAMES && capacity * (channels * BYTES_PER_SAMPLE) <= MAX_RING_BYTES
  }

  ghost predicate SomeRingFits(frames: nat, channels: nat) {
    exists k: nat :: frames <= Pow2(k) && RingFits(Pow2(k), channels)
  }

  // If any power of two fits, the smallest does.
  lemma SmallestFits(frames: nat, channels: nat, p: nat, k: nat)
    requires p == Pow2(k) && frames <= p && forall j: nat :: frames <= Pow2(j) ==> p <= Pow2(j)
    ensures RingFits(p, channels) <==> SomeRingFits(frames, channels)
  {
    if SomeRingFits(frames, channels) {
      var j: nat :| frames <= Pow2(j) && RingFits(Pow2(j), channels);
      MulMonotone(p, Pow2(j), channels * BYTES_PER_SAMPLE);
    }
  }

  // A stream is refused exactly when its parameters are bad or no ring fits them.
  method NewStream(rate: int, channels: int, period: int, fill: int, pipeFrames: int) returns (r: Option<Stream>)
    ensures r.Some? <==> GoodConfig(rate, channels, period, fill, pipeFrames) && SomeRingFits(fill, channels)
    ensures r.Some? ==>
              var s := r.value;
              && fresh(s) && s.Valid() && s.Abs() == Initial(s.g) && s.g.period == period && s.g.fill == fill
              && IsPow2(s.g.capacity) && RingFits(s.g.capacity, channels)
  {
    hide Inv, RingFits, SomeRingFits;
    if rate <= 0 || channels <= 0 || channels > MAX_CHANNELS || period <= 0 || fill < period || fill % period != 0
       || pipeFrames < 0 {
      return None;
    }
    var capacity, k := NextPow2(fill);
    SmallestFits(fill, channels, capacity, k);
    var fits := Fits(capacity, channels);
    if !fits {
      return None;
    }
    FitsFrames(capacity, channels);
    var s := new Stream(period, fill, k, capacity);
    return Some(s);
  }

  method Fits(capacity: nat, channels: nat) returns (ok: bool)
    ensures ok == RingFits(capacity, channels)
  {
    var frameBytes := channels * BYTES_PER_SAMPLE;
    return !(capacity > MAX_RING_FRAMES || capacity * frameBytes > MAX_RING_BYTES);
  }

  lemma FitsFrames(capacity: nat, channels: nat)
    requires RingFits(capacity, channels)
    ensures capacity <= MAX_RING_FRAMES
  {}
}
