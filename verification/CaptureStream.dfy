/**
 The capture callback as it runs: one call takes the packet in, whole or not at
 all. Each call is one schedule of CaptureRing.
 */
module CaptureStream {
  import Bits
  import opened Options
  import opened Rings
  import opened Schedules
  import opened CaptureRing
  import OutputStream
  import OutputRing

  function Stamps(): seq<Step> {
    [LockStamp] + (Repeat(WriteField, 4) + [UnlockStamp, StoreHead, Signal])
  }

  function KeepSchedule(packet: seq<Frame>, time: TimeStamp): seq<Step> {
    [Callback(packet, time), TestRoom] + (Repeat(CopyFrame, |packet|) + Stamps())
  }

  function DropSchedule(packet: seq<Frame>, time: TimeStamp, e: Step): seq<Step> {
    [Callback(packet, time), e, CountDrop, Signal]
  }

  lemma {:induction false} CopyFrames(g: Shape, s: State, ring0: seq<Frame>, rest: seq<Step>)
    requires g.Valid() && s.writer.Copying? && |ring0| == |s.ring| == g.capacity
    requires var Copying(packet, _, k) := s.writer;
             |packet| <= g.capacity && k <= |packet| && s.ring == Overwrite(ring0, s.head, packet[..k])
    ensures var Copying(packet, time, k) := s.writer;
            Run(g, s, Repeat(CopyFrame, |packet| - k) + rest) ==
            Run(g, s.(writer := Copying(packet, time, |packet|), ring := Overwrite(ring0, s.head, packet)), rest)
    decreases |s.writer.packet| - s.writer.copied
  {
    hide Piece, Overwrite, Run;
    var Copying(packet, time, k) := s.writer;
    if k == |packet| {
      assert packet[..k] == packet;
      assert Repeat(CopyFrame, 0) + rest == rest;
    } else {
      var s' := Apply(g, s, CopyFrame);
      OutputStream.OverwriteStep(ring0, s.head, packet, k);
      var more := Repeat(CopyFrame, |packet| - k - 1) + rest;
      assert Repeat(CopyFrame, |packet| - k) + rest == [CopyFrame] + more;
      RunStep(g, s, CopyFrame, more);
      CopyFrames(g, s', ring0, rest);
    }
  }

  lemma {:induction false} WriteFields(g: Shape, s: State, before: Stamp, rest: seq<Step>)
    requires g.Valid() && s.writer.Stamping? && s.writer.field <= 4
    requires s.stamp == Partly(before, s.head, s.writer.time, s.writer.field)
    ensures var Stamping(packet, time, n) := s.writer;
            Run(g, s, Repeat(WriteField, 4 - n) + rest) ==
            Run(g, s.(writer := Stamping(packet, time, 4), stamp := Partly(before, s.head, time, 4)), rest)
    decreases 4 - s.writer.field
  {
    hide Run, StoreField;
    var n := s.writer.field;
    if n == 4 {
      assert Repeat(WriteField, 0) + rest == rest;
    } else {
      var more := Repeat(WriteField, 3 - n) + rest;
      assert Repeat(WriteField, 4 - n) + rest == [WriteField] + more;
      RunStep(g, s, WriteField, more);
      WriteFields(g, Apply(g, s, WriteField), before, rest);
    }
  }

  // The stamp a completed callback leaves.
  function Stamped(before: Stamp, head: nat, time: TimeStamp): Stamp {
    match time
    case NoTime => before.(head := head, flags := 0)
    case Time(bits, ticks, flags) => Stamp(head, ticks, bits, flags)
  }

  // The room for a packet was tested.
  ghost function Tested(g: Shape, s: State): State {
    s.(wrapped := s.wrapped || s.head > s.tail + g.capacity)
  }

  // The callback run alone with room for the packet.
  ghost function Kept(s: State, packet: seq<Frame>, time: TimeStamp): State
    requires |packet| <= |s.ring| && |s.ring| > 0
  {
    s.(ring := Overwrite(s.ring, s.head, packet), head := s.head + |packet|, sem := s.sem + 1,
       stampSeq := s.stampSeq + 2, stamp := Stamped(s.stamp, s.head, time),
       packets := s.packets + [packet], calls := s.calls + [packet], fates := s.fates + [true],
       log := s.log + [(s.head, time)])
  }

  // The callback run alone without.
  ghost function Dropped(s: State, packet: seq<Frame>, status: int): State {
    s.(sem := s.sem + 1, under := s.under + 1, underFrames := s.underFrames + |packet|,
       status := status, calls := s.calls + [packet], fates := s.fates + [false])
  }

  lemma StampsRun(g: Shape, s: State)
    requires g.Valid() && s.writer.Copying? && s.writer.copied == |s.writer.packet|
    ensures var Copying(packet, time, _) := s.writer;
            Run(g, s, Stamps()) ==
            s.(writer := Idle, head := s.head + |packet|, sem := s.sem + 1,
               stampSeq := s.stampSeq + 2, stamp := Stamped(s.stamp, s.head, time),
               packets := s.packets + [packet], fates := s.fates + [true], log := s.log + [(s.head, time)])
  {
    var Copying(packet, time, _) := s.writer;
    var last3 := [UnlockStamp, StoreHead, Signal];
    RunStep(g, s, LockStamp, Repeat(WriteField, 4) + last3);
    var s1 := Apply(g, s, LockStamp);
    WriteFields(g, s1, s.stamp, last3);
    WholeStored(s.stamp, s.head, time);
    var s2 := s1.(writer := Stamping(packet, time, 4), stamp := Stamped(s.stamp, s.head, time));
    RunLast(g, s2);
  }

  lemma WholeStored(before: Stamp, head: nat, time: TimeStamp)
    ensures Partly(before, head, time, 4) == Stamped(before, head, time)
  {
    assert Partly(before, head, time, 1) == before.(head := head);
    assert Partly(before, head, time, 2) == StoreField(before.(head := head), head, time, 1);
  }

  lemma RunLast(g: Shape, s: State)
    requires g.Valid() && s.writer.Stamping? && s.writer.field == 4
    ensures var Stamping(packet, time, _) := s.writer;
            Run(g, s, [UnlockStamp, StoreHead, Signal]) ==
            s.(writer := Idle, head := s.head + |packet|, sem := s.sem + 1, stampSeq := s.stampSeq + 1,
               packets := s.packets + [packet], fates := s.fates + [true], log := s.log + [(s.head, time)])
  {
    var s1 := Apply(g, s, UnlockStamp);
    var s2 := Apply(g, s1, StoreHead);
    assert [UnlockStamp, StoreHead, Signal] == [UnlockStamp] + [StoreHead, Signal];
    assert [StoreHead, Signal] == [StoreHead] + [Signal] && [Signal] == [Signal] + [];
    RunStep(g, s, UnlockStamp, [StoreHead, Signal]);
    RunStep(g, s1, StoreHead, [Signal]);
    RunStep(g, s2, Signal, []);
  }

  lemma KeepRun(g: Shape, s: State, packet: seq<Frame>, time: TimeStamp)
    requires g.Valid() && s.writer == Idle && |s.ring| == g.capacity
    requires |packet| <= g.maxFrames && |packet| <= Room(g, s.head, s.tail)
    ensures Run(g, s, KeepSchedule(packet, time)) == Kept(Tested(g, s), packet, time)
  {
    hide Run, Overwrite, Stamps, Room;
    var copies := Repeat(CopyFrame, |packet|) + Stamps();
    assert KeepSchedule(packet, time) == [Callback(packet, time)] + ([TestRoom] + copies);
    RunStep(g, s, Callback(packet, time), [TestRoom] + copies);
    var s1 := Apply(g, s, Callback(packet, time));
    RunStep(g, s1, TestRoom, copies);
    var s2 := Apply(g, s1, TestRoom);
    OutputStream.OverwriteNothing(s.ring, s.head, packet[..0]);
    CopyFrames(g, s2, s.ring, Stamps());
    StampsRun(g, s2.(writer := Copying(packet, time, |packet|), ring := Overwrite(s.ring, s.head, packet)));
  }

  lemma DropRun(g: Shape, s: State, packet: seq<Frame>, time: TimeStamp, e: Step)
    requires g.Valid() && s.writer == Idle
    requires || (e.RenderFails? && e.status != 0)
             || (e.TestRoom? && (|packet| > g.maxFrames || |packet| > Room(g, s.head, s.tail)))
    ensures Run(g, s, DropSchedule(packet, time, e)) ==
            if e.RenderFails? then Dropped(s, packet, e.status)
            else if |packet| > g.maxFrames then Dropped(s, packet, TOO_MANY_FRAMES)
            else Dropped(Tested(g, s), packet, s.status)
  {
    hide Room;
    var s1 := Apply(g, s, Callback(packet, time));
    var s2 := Apply(g, s1, e);
    assert DropSchedule(packet, time, e) == [Callback(packet, time)] + ([e] + [CountDrop, Signal]);
    RunStep(g, s, Callback(packet, time), [e] + [CountDrop, Signal]);
    RunStep(g, s1, e, [CountDrop, Signal]);
    DropsRun(g, s2);
    hide Run;
  }

  lemma DropsRun(g: Shape, s: State)
    requires g.Valid() && s.writer.Dropping?
    ensures Run(g, s, [CountDrop, Signal]) ==
            s.(writer := Idle, sem := s.sem + 1, under := s.under + 1,
               underFrames := s.underFrames + |s.writer.packet|, fates := s.fates + [false])
  {
    assert [CountDrop, Signal] == [CountDrop] + [Signal] && [Signal] == [Signal] + [];
    var s1 := Apply(g, s, CountDrop);
    RunStep(g, s, CountDrop, [Signal]);
    RunStep(g, s1, Signal, []);
  }

  // What one callback does to the state: a packet longer than the unit may
  // deliver, one the unit failed to render, or one the ring has no room for is
  // dropped whole; any other is published whole.
  ghost function Captured(g: Shape, s: State, packet: seq<Frame>, time: TimeStamp, rendered: int): State
    requires |s.ring| == g.capacity && g.Valid()
  {
    if |packet| > g.maxFrames then Dropped(s, packet, TOO_MANY_FRAMES)
    else if rendered != 0 then Dropped(s, packet, rendered)
    else if |packet| > Room(g, s.head, s.tail) then Dropped(Tested(g, s), packet, s.status)
    else Kept(Tested(g, s), packet, time)
  }

  function Schedule(g: Shape, s: State, packet: seq<Frame>, time: TimeStamp, rendered: int): seq<Step> {
    if |packet| <= g.maxFrames && rendered != 0 then DropSchedule(packet, time, RenderFails(rendered))
    else if |packet| > g.maxFrames || |packet| > Room(g, s.head, s.tail) then DropSchedule(packet, time, TestRoom)
    else KeepSchedule(packet, time)
  }

  lemma CapturedRun(g: Shape, s: State, packet: seq<Frame>, time: TimeStamp, rendered: int)
    requires g.Valid() && Inv(g, s) && s.writer == Idle
    ensures |s.ring| == g.capacity
    ensures Run(g, s, Schedule(g, s, packet, time, rendered)) == Captured(g, s, packet, time, rendered)
    ensures Inv(g, Captured(g, s, packet, time, rendered))
  {
    hide Run, Inv, Kept, Dropped, Tested, Room, KeepSchedule, DropSchedule;
    Bounds(g, s);
    InvAlways(g, s, Schedule(g, s, packet, time, rendered));
    if |packet| <= g.maxFrames && rendered != 0 {
      DropRun(g, s, packet, time, RenderFails(rendered));
    } else if |packet| > g.maxFrames || |packet| > Room(g, s.head, s.tail) {
      DropRun(g, s, packet, time, TestRoom);
    } else {
      KeepRun(g, s, packet, time);
    }
  }

  lemma Bounds(g: Shape, s: State)
    requires Inv(g, s)
    ensures |s.ring| == g.capacity && s.tail <= s.head
  {}

  class Capture {
    const g: Shape
    const data: array<Frame>
    var head: nat
    var tail: nat
    var sem: nat
    var status: int
    var under: nat
    var underFrames: nat
    var stampSeq: nat
    var stamp: Stamp
    ghost var top: nat
    ghost var wrapped: bool
    ghost var packets: seq<seq<Frame>>
    ghost var calls: seq<seq<Frame>>
    ghost var fates: seq<bool>
    ghost var log: seq<(nat, TimeStamp)>

    // The state of CaptureRing between calls, while nobody reads the timestamp.
    ghost function Abs(): State
      reads this, data
    {
      State(head, tail, data[..], sem, status, under, underFrames, stampSeq, stamp, Idle, Unread,
            top, wrapped, packets, calls, fates, log)
    }

    ghost predicate Valid()
      reads this, data
    {
      g.Valid() && Inv(g, Abs())
    }

    constructor (capacity: nat, maxFrames: nat)
      requires Shape(capacity, maxFrames).Valid()
      ensures Valid() && fresh(data) && g == Shape(capacity, maxFrames)
      ensures Abs() == Initial(g)
    {
      g := Shape(capacity, maxFrames);
      data := new Frame[capacity](_ => OutputRing.SILENCE);
      head, tail, sem, status, under, underFrames, stampSeq, stamp := 0, 0, 0, 0, 0, 0, 0, NO_STAMP;
      top, wrapped, packets, calls, fates, log := 0, false, [], [], [], [];
      new;
      assert data[..] == OutputRing.Zeros(capacity);
      assert Inv(g, Initial(g));
    }

    // The input callback over a packet the unit rendered into its own memory.
    method Callback(packet: array<Frame>, time: TimeStamp, rendered: int)
      requires Valid() && packet != data
      modifies this, data
      ensures Valid()
      ensures Abs() == Captured(g, old(Abs()), packet[..], time, rendered)
      ensures Abs() == Run(g, old(Abs()),
                           Schedule(g, old(Abs()), packet[..], time, rendered))
    {
      hide Inv, Run, Schedule, Kept, Dropped, Room;
      ghost var s := Abs();
      CapturedRun(g, s, packet[..], time, rendered);
      var n := packet.Length;
      if n > g.maxFrames {
        Drop(packet, TOO_MANY_FRAMES);
      } else if rendered != 0 {
        Drop(packet, rendered);
      } else {
        // In 64-bit words, so with tail more than a ring behind head it wraps.
        var room := Room(g, head, tail);
        wrapped := wrapped || head > tail + g.capacity;
        if room < n {
          Drop(packet, status);
        } else {
          Keep(packet, time);
        }
      }
    }

    // The stream thread gives frames back.
    method Release(to: nat)
      requires Valid() && to <= head
      modifies this
      ensures Valid() && Abs() == GiveBack(old(Abs()), to)
    {
      InvKept(g, Abs(), StoreTail(to));
      hide Inv, Later;
      tail, top := to, Later(top, to);
    }

    // Copy the packet, stamp it, publish it, signal.
    method Keep(packet: array<Frame>, time: TimeStamp)
      requires packet != data && packet.Length <= data.Length && data.Length > 0
      modifies this, data
      ensures Abs() == Kept(old(Abs()), packet[..], time)
    {
      hide Overwrite, Stamped;
      ghost var s := Abs();
      assert packet[..packet.Length] == packet[..];
      CopyIn(data, head, packet, packet.Length);
      Mark(time);
      log, calls, packets, fates :=
        log + [(head, time)], calls + [packet[..]], packets + [packet[..]], fates + [true];
      head, sem := head + packet.Length, sem + 1;
    }

    // Store the position and the timestamp between two increments of the sequence.
    method Mark(time: TimeStamp)
      modifies this`stampSeq, this`stamp
      ensures stampSeq == old(stampSeq) + 2
      ensures stamp == Stamped(old(stamp), head, time)
    {
      stampSeq := stampSeq + 1;
      stamp := stamp.(head := head);
      if time.Time? {
        stamp := stamp.(bits := time.bits, ticks := time.ticks, flags := time.flags);
      } else {
        stamp := stamp.(flags := 0);
      }
      stampSeq := stampSeq + 1;
    }

    // Count the packet as dropped, signal.
    method Drop(packet: array<Frame>, reason: int)
      modifies this
      ensures Abs() == Dropped(old(Abs()), packet[..], reason)
    {
      status, under, underFrames, sem := reason, under + 1, underFrames + packet.Length, sem + 1;
      calls, fates := calls + [packet[..]], fates + [false];
    }
  }

  const MAX_CALLBACK: nat := 4096

  // The rate, channels and device buffer that can be captured.
  predicate GoodConfig(rate: int, channels: int, deviceFrames: int) {
    && 8000 <= rate <= 384000 && 1 <= channels <= OutputStream.MAX_CHANNELS
    && 1 <= deviceFrames <= OutputStream.MAX_RING_FRAMES
  }

  function Larger(a: int, b: int): int { if a > b then a else b }

  // The frames the ring is made for: a second of capture, and four callbacks.
  function Wanted(rate: int, deviceFrames: int): int {
    Larger(rate, 4 * Larger(MAX_CALLBACK, deviceFrames))
  }

  // A capture ring is refused exactly when its parameters are bad or no ring fits
  // them.
  method NewCapture(rate: int, channels: int, deviceFrames: int) returns (r: Option<Capture>)
    ensures r.Some? <==> GoodConfig(rate, channels, deviceFrames)
                         && OutputStream.SomeRingFits(Wanted(rate, deviceFrames), channels)
    ensures r.Some? ==>
              var s := r.value;
              && fresh(s) && s.Valid() && s.Abs() == Initial(s.g) && s.g.maxFrames == Larger(MAX_CALLBACK, deviceFrames)
              && Bits.IsPow2(s.g.capacity) && Wanted(rate, deviceFrames) <= s.g.capacity
  {
    hide Inv, OutputStream.RingFits, OutputStream.SomeRingFits;
    if rate < 8000 || rate > 384000 || channels < 1 || channels > OutputStream.MAX_CHANNELS
       || deviceFrames < 1 || deviceFrames > OutputStream.MAX_RING_FRAMES {
      return None;
    }
    var maxFrames := Larger(MAX_CALLBACK, deviceFrames);
    var wanted := Larger(rate, 4 * maxFrames);
    var capacity, k := OutputStream.NextPow2(wanted);
    OutputStream.SmallestFits(wanted, channels, capacity, k);
    var fits := OutputStream.Fits(capacity, channels);
    if !fits {
      return None;
    }
    OutputStream.FitsFrames(capacity, channels);
    var s := new Capture(capacity, maxFrames);
    return Some(s);
  }
}
