/**
 The capture ring: the input callback produces whole packets, the stream thread
 consumes, and a sequence-locked timestamp travels beside them. Every atomic
 load, store and copied frame is one step.
 */
module CaptureRing {
  import opened Rings
  import OutputRing

  type Frame = OutputRing.Frame

  // A ring of capacity frames; the callback renders at most maxFrames at once.
  datatype Shape = Shape(capacity: nat, maxFrames: nat) {
    predicate Valid() {
      0 < maxFrames && 4 * maxFrames <= capacity <= 0x10_0000
    }
  }

  // The four fields behind the sequence lock.
  datatype Stamp = Stamp(head: nat, ticks: nat, bits: nat, flags: nat)

  const NO_STAMP := Stamp(0, 0, 0, 0)

  // The timestamp the device passes; null when absent.
  datatype TimeStamp = NoTime | Time(bits: nat, ticks: nat, flags: nat)

  // The callback: copying a packet that fits, then stamping field by field, then
  // publishing, then signalling; a packet that does not fit goes straight to the
  // drop counters.
  datatype Writer =
    | Idle
    | Entered(packet: seq<Frame>, time: TimeStamp)
    | Dropping(packet: seq<Frame>)
    | Copying(packet: seq<Frame>, time: TimeStamp, copied: nat)
    | Stamping(packet: seq<Frame>, time: TimeStamp, field: nat)
    | Publishing(packet: seq<Frame>)
    | Signalling

  // The reader of the timestamp: it has loaded seq and the first loaded fields.
  datatype Clock =
    | Unread
    | Loading(seq0: nat, loaded: nat, snapshot: Stamp)
    | Accepted(snapshot: Stamp)

  datatype State = State(
    head: nat, tail: nat, ring: seq<Frame>, sem: nat, status: int,
    under: nat, underFrames: nat,
    stampSeq: nat, stamp: Stamp,
    writer: Writer, clock: Clock,
    // History: the greatest tail ever stored; whether a packet was ever tested for
    // room with head more than a ring ahead of tail; packets published, packets
    // offered, whether each offered packet so far was published, and for each
    // completed stamping the position of its packet and the device's timestamp.
    top: nat, wrapped: bool,
    packets: seq<seq<Frame>>, calls: seq<seq<Frame>>, fates: seq<bool>, log: seq<(nat, TimeStamp)>)

  datatype Step =
    | Callback(packet: seq<Frame>, time: TimeStamp)
    | RenderFails(status: int) | TestRoom | CopyFrame | LockStamp | WriteField | UnlockStamp | StoreHead
    | CountDrop | Signal
    | StoreTail(to: nat)
    | LoadSeq | LoadField | CheckSeq | Discard

  const TOO_MANY_FRAMES := -10874

  function Initial(g: Shape): State {
    State(0, 0, OutputRing.Zeros(g.capacity), 0, 0, 0, 0, 0, NO_STAMP, Idle, Unread, 0, false, [], [], [], [])
  }

  function Concat(packets: seq<seq<Frame>>): seq<Frame> {
    if packets == [] then [] else Concat(packets[..|packets| - 1]) + packets[|packets| - 1]
  }

  // The four stores between the two sequence increments; without a timestamp
  // only head and flags are stored.
  function StoreField(stamp: Stamp, head: nat, time: TimeStamp, field: nat): Stamp {
    if field == 0 then stamp.(head := head)
    else match time
         case NoTime => if field == 3 then stamp.(flags := 0) else stamp
         case Time(bits, ticks, flags) =>
           if field == 1 then stamp.(bits := bits)
           else if field == 2 then stamp.(ticks := ticks)
           else stamp.(flags := flags)
  }

  // The four fields as they stand after the stampings of a log: the position is
  // the last one's, and so is the timestamp; with none, the earlier time stays
  // with its flags cleared.
  function After(log: seq<(nat, TimeStamp)>): Stamp {
    if log == [] then NO_STAMP else
      var (head, time) := log[|log| - 1];
      match time
      case NoTime => After(log[..|log| - 1]).(head := head, flags := 0)
      case Time(bits, ticks, flags) => Stamp(head, ticks, bits, flags)
  }

  // The reader loads head, ticks, bits, flags in this order.
  function LoadOne(snapshot: Stamp, stamp: Stamp, field: nat): Stamp {
    if field == 0 then snapshot.(head := stamp.head)
    else if field == 1 then snapshot.(ticks := stamp.ticks)
    else if field == 2 then snapshot.(bits := stamp.bits)
    else snapshot.(flags := stamp.flags)
  }

  predicate Enabled(g: Shape, s: State, e: Step) {
    match e
    case Callback(_, _) => s.writer == Idle
    case RenderFails(status) => s.writer.Entered? && status != 0
    case TestRoom => s.writer.Entered?
    case CopyFrame =>
      s.writer.Copying? && s.writer.copied < |s.writer.packet| <= |s.ring|
    case LockStamp => s.writer.Copying? && s.writer.copied == |s.writer.packet|
    case WriteField => s.writer.Stamping? && s.writer.field < 4
    case UnlockStamp => s.writer.Stamping? && s.writer.field == 4
    case StoreHead => s.writer.Publishing?
    case CountDrop => s.writer.Dropping?
    case Signal => s.writer == Signalling
    case StoreTail(to) => to <= s.head
    case LoadSeq => s.clock == Unread
    case LoadField => s.clock.Loading? && s.clock.loaded < 4
    case CheckSeq => s.clock.Loading? && s.clock.loaded == 4
    case Discard => s.clock.Accepted?
  }

  // The free frames, in 64-bit words: with tail more than a ring behind head the
  // difference wraps.
  function Room(g: Shape, head: nat, tail: nat): nat {
    OutputRing.Minus(g.capacity, OutputRing.Minus(head, tail))
  }

  function Later(a: nat, b: nat): nat { if a < b then b else a }

  function GiveBack(s: State, to: nat): State {
    s.(tail := to, top := Later(s.top, to))
  }

  function Apply(g: Shape, s: State, e: Step): State
    requires g.Valid() && Enabled(g, s, e)
  {
    match e
    case Callback(packet, time) => s.(writer := Entered(packet, time), calls := s.calls + [packet])
    // AudioUnitRender reported an error: the packet is dropped.
    case RenderFails(status) => s.(writer := Dropping(s.writer.packet), status := status)
    case TestRoom =>
      var Entered(packet, time) := s.writer;
      if |packet| > g.maxFrames then s.(writer := Dropping(packet), status := TOO_MANY_FRAMES)
      else
        s.(writer := if Room(g, s.head, s.tail) < |packet| then Dropping(packet) else Copying(packet, time, 0),
           wrapped := s.wrapped || s.head > s.tail + g.capacity)
    case CopyFrame =>
      var Copying(packet, time, k) := s.writer;
      s.(writer := Copying(packet, time, k + 1),
         ring := s.ring[Piece(s.head, |packet|, |s.ring|, k) := packet[k]])
    case LockStamp =>
      s.(writer := Stamping(s.writer.packet, s.writer.time, 0), stampSeq := s.stampSeq + 1)
    case WriteField =>
      var Stamping(packet, time, field) := s.writer;
      s.(writer := Stamping(packet, time, field + 1), stamp := StoreField(s.stamp, s.head, time, field))
    case UnlockStamp =>
      s.(writer := Publishing(s.writer.packet), stampSeq := s.stampSeq + 1, log := s.log + [(s.head, s.writer.time)])
    case StoreHead =>
      s.(writer := Signalling, head := s.head + |s.writer.packet|,
         packets := s.packets + [s.writer.packet], fates := s.fates + [true])
    case CountDrop =>
      s.(writer := Signalling, under := s.under + 1, underFrames := s.underFrames + |s.writer.packet|,
         fates := s.fates + [false])
    case Signal => s.(writer := Idle, sem := s.sem + 1)
    // The stream thread gives frames back.
    case StoreTail(to) => GiveBack(s, to)
    // clock(): an odd sequence is retried, and so is one that moved.
    case LoadSeq => if s.stampSeq % 2 == 1 then s else s.(clock := Loading(s.stampSeq, 0, NO_STAMP))
    case LoadField =>
      var Loading(seq0, n, snapshot) := s.clock;
      s.(clock := Loading(seq0, n + 1, LoadOne(snapshot, s.stamp, n)))
    case CheckSeq =>
      s.(clock := if s.stampSeq == s.clock.seq0 then Accepted(s.clock.snapshot) else Unread)
    case Discard => s.(clock := Unread)
  }

  function Run(g: Shape, s: State, steps: seq<Step>): State
    requires g.Valid()
    decreases |steps|
  {
    if steps == [] then s
    else if Enabled(g, s, steps[0]) then Run(g, Apply(g, s, steps[0]), steps[1..])
    else Run(g, s, steps[1..])
  }

  lemma RunStep(g: Shape, s: State, e: Step, rest: seq<Step>)
    requires g.Valid() && Enabled(g, s, e)
    ensures Run(g, s, [e] + rest) == Run(g, Apply(g, s, e), rest)
  {
    assert ([e] + rest)[1..] == rest;
  }

  // -- The invariant --------------------------------------------------------------

  ghost function Stored(s: State): seq<Frame> {
    Concat(s.packets) +
    match s.writer
    case Copying(packet, _, k) => if k <= |packet| then packet[..k] else []
    case Stamping(packet, _, _) => packet
    case Publishing(packet) => packet
    case _ => []
  }

  ghost predicate RingOk(g: Shape, s: State) {
    && |s.ring| == g.capacity
    && s.tail <= s.top <= s.head
    && |Concat(s.packets)| == s.head
    && (!s.wrapped ==> Intact(g, s))
  }

  // What was published from the greatest tail on is in the ring, and what is being
  // copied behind it.
  ghost predicate Intact(g: Shape, s: State) {
    s.head <= s.top + g.capacity && Holds(s.ring, Stored(s), s.top, |Stored(s)|)
  }

  ghost predicate WriterOk(g: Shape, s: State) {
    match s.writer
    case Copying(packet, _, k) => k <= |packet| && PacketFits(g, s, packet)
    case Stamping(packet, _, field) => field <= 4 && PacketFits(g, s, packet)
    case Publishing(packet) => PacketFits(g, s, packet)
    case _ => true
  }

  ghost predicate PacketFits(g: Shape, s: State, packet: seq<Frame>) {
    |packet| <= g.maxFrames && (!s.wrapped ==> s.head + |packet| <= s.top + g.capacity)
  }

  // The offered packets whose fate was this one, in order.
  function Picked(calls: seq<seq<Frame>>, fates: seq<bool>, kept: bool): seq<seq<Frame>>
    requires |calls| == |fates|
  {
    if calls == [] then [] else
      var n := |calls| - 1;
      Picked(calls[..n], fates[..n], kept) + (if fates[n] == kept then [calls[n]] else [])
  }

  predicate Busy(w: Writer) {
    w != Idle && w != Signalling
  }

  ghost predicate FateOk(s: State) {
    && |s.calls| == |s.fates| + (if Busy(s.writer) then 1 else 0)
    && (Busy(s.writer) ==> s.calls[|s.fates|] == s.writer.packet)
    && Settled(s, s.calls[..|s.fates|])
  }

  ghost predicate Settled(s: State, calls: seq<seq<Frame>>) {
    && |calls| == |s.fates|
    && s.packets == Picked(calls, s.fates, true)
    && s.under == |Picked(calls, s.fates, false)|
    && s.underFrames == |Concat(Picked(calls, s.fates, false))|
  }

  // A stamping that has stored its first n fields.
  function Partly(before: Stamp, head: nat, time: TimeStamp, n: nat): Stamp {
    if n == 0 then before else StoreField(Partly(before, head, time, n - 1), head, time, n - 1)
  }

  // The lock is odd exactly while the fields are being stored; between, they are
  // what the completed stampings left.
  ghost predicate LockOk(s: State) {
    && s.stampSeq == 2 * |s.log| + (if s.writer.Stamping? then 1 else 0)
    && (match s.writer
        case Stamping(_, time, n) => n <= 4 && s.stamp == Partly(After(s.log), s.head, time, n)
        case _ => s.stamp == After(s.log))
  }

  // Stamping i belongs to packet i; the packet being published is stamped
  // already.
  ghost predicate LogOk(s: State) {
    && |s.log| == |s.packets| + (if s.writer.Publishing? then 1 else 0)
    && (s.writer.Publishing? ==> s.log[|s.packets|].0 == s.head)
    && forall i :: 0 <= i < |s.packets| ==> s.log[i].0 == |Concat(s.packets[..i])|
  }

  // The first n loaded fields agree.
  predicate Agree(a: Stamp, b: Stamp, n: nat) {
    && (n > 0 ==> a.head == b.head)
    && (n > 1 ==> a.ticks == b.ticks)
    && (n > 2 ==> a.bits == b.bits)
    && (n > 3 ==> a.flags == b.flags)
  }

  ghost predicate ClockOk(s: State) {
    match s.clock
    case Unread => true
    case Loading(seq0, n, snapshot) =>
      && n <= 4 && seq0 % 2 == 0 && seq0 <= s.stampSeq && seq0 / 2 <= |s.log|
      && (s.stampSeq == seq0 ==> Agree(snapshot, After(s.log), n))
    case Accepted(snapshot) => exists k :: 0 <= k <= |s.log| && snapshot == After(s.log[..k])
  }

  ghost predicate Inv(g: Shape, s: State) {
    RingOk(g, s) && WriterOk(g, s) && FateOk(s) && LockOk(s) && LogOk(s) && ClockOk(s)
  }

  lemma ConcatOne(packets: seq<seq<Frame>>, packet: seq<Frame>)
    ensures Concat(packets + [packet]) == Concat(packets) + packet
  {
    assert (packets + [packet])[..|packets|] == packets;
  }

  lemma RingKept(g: Shape, s: State, e: Step)
    requires g.Valid() && Inv(g, s) && Enabled(g, s, e)
    ensures RingOk(g, Apply(g, s, e))
  {
    hide Piece, LockOk, ClockOk, LogOk, FateOk, Concat, StoreField, LoadOne, Intact, Stored, Room;
    var s' := Apply(g, s, e);
    if e.StoreHead? { ConcatOne(s.packets, s.writer.packet); }
    if !s'.wrapped { IntactKept(g, s, e); }
  }

  lemma IntactKept(g: Shape, s: State, e: Step)
    requires g.Valid() && RingOk(g, s) && WriterOk(g, s) && Enabled(g, s, e) && !s.wrapped
    ensures Intact(g, Apply(g, s, e))
  {
    hide Piece, Concat, StoreField, LoadOne, Room;
    var s' := Apply(g, s, e);
    match e
    case CopyFrame =>
      var Copying(packet, _, k) := s.writer;
      PieceIsSlot(s.head, |packet|, g.capacity, k);
      HoldsAppend(s.ring, Stored(s), s.top, packet[k]);
      assert Stored(s) + [packet[k]] == Stored(s');
    case TestRoom =>
      assert Stored(s') == Stored(s);
    case LockStamp =>
      assert s.writer.packet[..|s.writer.packet|] == s.writer.packet;
    case StoreHead =>
      ConcatOne(s.packets, s.writer.packet);
      assert Stored(s') == Stored(s);
    case _ =>
  }

  // While tail is within a ring of head the word arithmetic is exact.
  lemma RoomExact(g: Shape, head: nat, tail: nat)
    requires g.Valid() && tail <= head <= tail + g.capacity
    ensures Room(g, head, tail) == g.capacity - (head - tail)
  {
    OutputRing.MinusExact(head, tail);
    OutputRing.MinusExact(g.capacity, head - tail);
  }

  // With tail further back it wraps, and every packet a callback may bring seems to
  // fit.
  lemma RoomWraps(g: Shape, head: nat, tail: nat)
    requires g.Valid() && tail + g.capacity < head < tail + 0x8000_0000_0000_0000
    ensures Room(g, head, tail) > g.maxFrames
  {
    OutputRing.MinusExact(head, tail);
    var n := head - tail;
    assert (g.capacity - n) % 0x1_0000_0000_0000_0000 == g.capacity - n + 0x1_0000_0000_0000_0000;
  }

  lemma WriterKept(g: Shape, s: State, e: Step)
    requires g.Valid() && Inv(g, s) && Enabled(g, s, e)
    ensures WriterOk(g, Apply(g, s, e))
  {
    hide Piece, LockOk, ClockOk, LogOk, FateOk, Concat, StoreField, LoadOne, Holds, Stored, Room;
    if e.TestRoom? && s.head <= s.tail + g.capacity { RoomExact(g, s.head, s.tail); }
  }

  lemma PickedOne(calls: seq<seq<Frame>>, fates: seq<bool>, kept: bool, packet: seq<Frame>, fate: bool)
    requires |calls| == |fates|
    ensures Picked(calls + [packet], fates + [fate], kept) ==
            Picked(calls, fates, kept) + if fate == kept then [packet] else []
  {
    assert (calls + [packet])[..|calls|] == calls && (fates + [fate])[..|fates|] == fates;
  }

  // A packet's fate is settled whole.
  lemma SettledOne(s: State, s': State, calls: seq<seq<Frame>>, packet: seq<Frame>, fate: bool)
    requires Settled(s, calls) && s'.fates == s.fates + [fate]
    requires s'.packets == s.packets + if fate then [packet] else []
    requires s'.under == s.under + (if fate then 0 else 1)
    requires s'.underFrames == s.underFrames + (if fate then 0 else |packet|)
    ensures Settled(s', calls + [packet])
  {
    hide Picked, Concat;
    PickedOne(calls, s.fates, true, packet, fate);
    PickedOne(calls, s.fates, false, packet, fate);
    ConcatOne(Picked(calls, s.fates, false), packet);
    assert Picked(calls, s.fates, !fate) + [] == Picked(calls, s.fates, !fate);
    assert s.packets + [] == s.packets;
  }

  lemma FateKept(g: Shape, s: State, e: Step)
    requires g.Valid() && Inv(g, s) && Enabled(g, s, e)
    ensures FateOk(Apply(g, s, e))
  {
    hide Piece, RingOk, WriterOk, LockOk, LogOk, ClockOk, Picked, Concat, StoreField, LoadOne;
    var s' := Apply(g, s, e);
    match e
    case Callback(packet, _) =>
      assert s'.calls[..|s.fates|] == s.calls[..|s.fates|];
    case StoreHead =>
      SettledOne(s, s', s.calls[..|s.fates|], s.writer.packet, true);
      assert s'.calls[..|s'.fates|] == s.calls[..|s.fates|] + [s.writer.packet];
    case CountDrop =>
      SettledOne(s, s', s.calls[..|s.fates|], s.writer.packet, false);
      assert s'.calls[..|s'.fates|] == s.calls[..|s.fates|] + [s.writer.packet];
    case _ =>
  }

  lemma WholeStamp(log: seq<(nat, TimeStamp)>, head: nat, time: TimeStamp)
    ensures Partly(After(log), head, time, 4) == After(log + [(head, time)])
  {
    hide After;
    var before := After(log);
    assert Partly(before, head, time, 1) == before.(head := head);
    assert Partly(before, head, time, 2) == StoreField(before.(head := head), head, time, 1);
    AfterOne(log, head, time);
  }

  lemma AfterOne(log: seq<(nat, TimeStamp)>, head: nat, time: TimeStamp)
    ensures After(log + [(head, time)]) ==
            match time
            case NoTime => After(log).(head := head, flags := 0)
            case Time(bits, ticks, flags) => Stamp(head, ticks, bits, flags)
  {
    assert (log + [(head, time)])[..|log|] == log;
  }

  lemma LockKept(g: Shape, s: State, e: Step)
    requires g.Valid() && Inv(g, s) && Enabled(g, s, e)
    ensures LockOk(Apply(g, s, e))
  {
    hide Piece, RingOk, WriterOk, ClockOk, StoreField, LoadOne, After, LogOk;
    match e
    case UnlockStamp => WholeStamp(s.log, s.head, s.writer.time);
    case _ =>
  }

  lemma LogKept(g: Shape, s: State, e: Step)
    requires g.Valid() && Inv(g, s) && Enabled(g, s, e)
    ensures LogOk(Apply(g, s, e))
  {
    hide Piece, WriterOk, ClockOk, StoreField, LoadOne, After, Concat, Holds, LockOk;
    match e
    case StoreHead =>
      var packets' := s.packets + [s.writer.packet];
      assert packets'[..|s.packets|] == s.packets;
      assert forall i {:trigger s.packets[..i]} :: 0 <= i < |s.packets| ==> packets'[..i] == s.packets[..i];
    case _ =>
  }

  lemma ClockKept(g: Shape, s: State, e: Step)
    requires g.Valid() && Inv(g, s) && Enabled(g, s, e)
    ensures ClockOk(Apply(g, s, e))
  {
    hide Piece, RingOk, WriterOk, StoreField, After, LogOk;
    match e
    case CheckSeq =>
      var Loading(seq0, n, snapshot) := s.clock;
      if s.stampSeq == seq0 {
        assert s.log[..|s.log|] == s.log;
        assert snapshot == After(s.log);
      }
    case UnlockStamp =>
      if s.clock.Accepted? {
        var k :| 0 <= k <= |s.log| && s.clock.snapshot == After(s.log[..k]);
        assert (s.log + [(s.head, s.writer.time)])[..k] == s.log[..k];
      }
    case _ =>
  }

  lemma InvKept(g: Shape, s: State, e: Step)
    requires g.Valid() && Inv(g, s) && Enabled(g, s, e)
    ensures Inv(g, Apply(g, s, e))
  {
    hide RingOk, WriterOk, FateOk, LockOk, LogOk, ClockOk, Apply, Enabled;
    RingKept(g, s, e);
    WriterKept(g, s, e);
    FateKept(g, s, e);
    LockKept(g, s, e);
    LogKept(g, s, e);
    ClockKept(g, s, e);
  }

  lemma {:induction false} InvAlways(g: Shape, s: State, steps: seq<Step>)
    requires g.Valid() && Inv(g, s)
    ensures Inv(g, Run(g, s, steps))
    decreases |steps|
  {
    hide Inv, Apply, Enabled;
    if steps != [] {
      var e := steps[0];
      if Enabled(g, s, e) {
        InvKept(g, s, e);
        InvAlways(g, Apply(g, s, e), steps[1..]);
      } else {
        InvAlways(g, s, steps[1..]);
      }
    }
  }

  // -- What holds after every schedule ------------------------------------------------

  lemma InvReached(g: Shape, steps: seq<Step>)
    requires g.Valid()
    ensures Inv(g, Run(g, Initial(g), steps))
  {
    assert Inv(g, Initial(g));
    InvAlways(g, Initial(g), steps);
  }

  // The packets offered so far split into those published whole, in order, and
  // those dropped whole, which the two counters measure; so every frame offered
  // is either at a position below head or counted.
  lemma WholePackets(g: Shape, steps: seq<Step>)
    requires g.Valid()
    ensures var s := Run(g, Initial(g), steps);
            s.writer == Idle ==>
              && |s.fates| == |s.calls|
              && s.packets == Picked(s.calls, s.fates, true)
              && s.under == |Picked(s.calls, s.fates, false)|
              && s.underFrames == |Concat(Picked(s.calls, s.fates, false))|
              && |Concat(s.calls)| == s.head + s.underFrames
  {
    hide Run, WriterOk, LockOk, LogOk, ClockOk;
    InvReached(g, steps);
    var s := Run(g, Initial(g), steps);
    if s.writer == Idle {
      assert s.calls[..|s.fates|] == s.calls;
      FramesSplit(s.calls, s.fates);
    }
  }

  lemma {:induction false} FramesSplit(calls: seq<seq<Frame>>, fates: seq<bool>)
    requires |calls| == |fates|
    ensures |Concat(calls)| == |Concat(Picked(calls, fates, true))| + |Concat(Picked(calls, fates, false))|
    decreases |calls|
  {
    if calls != [] {
      var n := |calls| - 1;
      FramesSplit(calls[..n], fates[..n]);
      ConcatOne(Picked(calls[..n], fates[..n], fates[n]), calls[n]);
      var other := Picked(calls[..n], fates[..n], !fates[n]);
      assert other + [] == other;
    }
  }

  // Whatever tails are stored: unless a packet was tested for room with head more
  // than a ring ahead of tail, every frame from the greatest tail on is still in its
  // slot, and they are no more than a ring.
  lemma TopIntact(g: Shape, steps: seq<Step>)
    requires g.Valid()
    ensures var s := Run(g, Initial(g), steps);
            !s.wrapped ==> Holds(s.ring, Concat(s.packets), s.top, s.head) && s.head <= s.top + g.capacity
  {
    hide Run;
    InvReached(g, steps);
    var s := Run(g, Initial(g), steps);
    if !s.wrapped { TopHeld(g, s); }
  }

  lemma TopHeld(g: Shape, s: State)
    requires g.Valid() && Inv(g, s) && !s.wrapped
    ensures Holds(s.ring, Concat(s.packets), s.top, s.head) && s.head <= s.top + g.capacity
  {
    hide WriterOk, FateOk, LockOk, LogOk, ClockOk;
    forall p | s.top <= p < s.head ensures s.ring[p % |s.ring|] == Concat(s.packets)[p] {
      assert Stored(s)[p] == Concat(s.packets)[p];
    }
  }

  // No tail that is stored lies before the one there.
  ghost predicate Forward(g: Shape, s: State, steps: seq<Step>)
    requires g.Valid()
    decreases |steps|
  {
    steps == [] ||
    (if !Enabled(g, s, steps[0]) then Forward(g, s, steps[1..])
     else (steps[0].StoreTail? ==> s.tail <= steps[0].to) && Forward(g, Apply(g, s, steps[0]), steps[1..]))
  }

  lemma ForwardStep(g: Shape, s: State, e: Step)
    requires g.Valid() && Inv(g, s) && Enabled(g, s, e) && !s.wrapped && s.tail == s.top
    requires e.StoreTail? ==> s.tail <= e.to
    ensures var r := Apply(g, s, e); !r.wrapped && r.tail == r.top
  {
    hide Holds, Stored, WriterOk, FateOk, LockOk, LogOk, ClockOk, Room, Piece, StoreField, LoadOne;
  }

  lemma {:induction false} ForwardRun(g: Shape, s: State, steps: seq<Step>)
    requires g.Valid() && Inv(g, s) && !s.wrapped && s.tail == s.top && Forward(g, s, steps)
    ensures var r := Run(g, s, steps); !r.wrapped && r.tail == r.top && Inv(g, r)
    decreases |steps|
  {
    hide Inv, Apply, Enabled;
    if steps != [] {
      var e := steps[0];
      if Enabled(g, s, e) {
        InvKept(g, s, e);
        ForwardStep(g, s, e);
        ForwardRun(g, Apply(g, s, e), steps[1..]);
      } else {
        ForwardRun(g, s, steps[1..]);
      }
    }
  }

  // While tail only advances, every frame published and not given back is still in
  // its slot, in every state: a packet being copied never lands on it.
  lemma UnreadIntact(g: Shape, steps: seq<Step>)
    requires g.Valid() && Forward(g, Initial(g), steps)
    ensures var s := Run(g, Initial(g), steps);
            Holds(s.ring, Concat(s.packets), s.tail, s.head) && s.head <= s.tail + g.capacity
  {
    hide Run, Forward;
    InvReached(g, []);
    assert Run(g, Initial(g), []) == Initial(g) by { RunNone(g, Initial(g)); }
    ForwardRun(g, Initial(g), steps);
    TopHeld(g, Run(g, Initial(g), steps));
  }

  lemma RunNone(g: Shape, s: State)
    requires g.Valid()
    ensures Run(g, s, []) == s
  {}

  // A snapshot that clock accepts is the four fields as one completed callback
  // left them, or as they were before any: never a mixture of two callbacks.
  // Where the callback passed a timestamp, it is that timestamp, paired with the
  // position in the ring of the first frame of that callback's packet.
  lemma AcceptedIsWhole(g: Shape, steps: seq<Step>)
    requires g.Valid()
    ensures var s := Run(g, Initial(g), steps);
            s.clock.Accepted? ==>
              || s.clock.snapshot == NO_STAMP
              || exists k :: 0 <= k < |s.log| && s.clock.snapshot == After(s.log[..k + 1])
                             && OneCallback(s, k)
  {
    hide Run, After, RingOk, WriterOk, LockOk;
    InvReached(g, steps);
    var s := Run(g, Initial(g), steps);
    if s.clock.Accepted? {
      var k :| 0 <= k <= |s.log| && s.clock.snapshot == After(s.log[..k]);
      if k == 0 {
        AfterNone(s.log[..0]);
      } else {
        OneAfter(s, k - 1);
      }
    }
  }

  // One try of clock.
  const TRY := [LoadSeq, LoadField, LoadField, LoadField, LoadField, CheckSeq]

  // A try that no callback runs beside is given up if a callback is between the two
  // increments, and else accepts what the last completed callback left.
  lemma TryAlone(g: Shape, steps: seq<Step>)
    requires g.Valid() && Run(g, Initial(g), steps).clock == Unread
    ensures var s := Run(g, Initial(g), steps);
            Run(g, s, TRY) == if s.writer.Stamping? then s else s.(clock := Accepted(After(s.log)))
  {
    hide Inv, Run, After, TRY;
    InvReached(g, steps);
    var s := Run(g, Initial(g), steps);
    Unlocked(g, s);
    if s.writer.Stamping? {
      TryLocked(g, s);
    } else {
      TryOpen(g, s);
    }
  }

  lemma Unlocked(g: Shape, s: State)
    requires Inv(g, s)
    ensures s.stampSeq % 2 == 1 <==> s.writer.Stamping?
    ensures !s.writer.Stamping? ==> s.stamp == After(s.log)
  {
    hide RingOk, WriterOk, FateOk, LogOk, ClockOk, After, Partly;
  }

  lemma TryLocked(g: Shape, s: State)
    requires g.Valid() && s.clock == Unread && s.stampSeq % 2 == 1
    ensures Run(g, s, TRY) == s
  {
    hide Apply, Enabled;
    GivesUp(g, s, TRY);
  }

  lemma {:induction false} GivesUp(g: Shape, s: State, steps: seq<Step>)
    requires g.Valid() && s.clock == Unread && s.stampSeq % 2 == 1
    requires forall i :: 0 <= i < |steps| ==> steps[i] in TRY
    ensures Run(g, s, steps) == s
    decreases |steps|
  {
    if steps != [] {
      assert steps[0] in TRY;
      forall i | 0 <= i < |steps| - 1 ensures steps[1..][i] in TRY { assert steps[i + 1] in TRY; }
      GivesUp(g, s, steps[1..]);
    }
  }

  lemma TryOpen(g: Shape, s: State)
    requires g.Valid() && s.clock == Unread && s.stampSeq % 2 == 0
    ensures Run(g, s, TRY) == s.(clock := Accepted(s.stamp))
  {
    hide Run, Apply, Enabled;
    assert TRY == [LoadSeq] + ([LoadField] + ([LoadField] + ([LoadField] + ([LoadField] + [CheckSeq]))));
    SeqLoads(g, s, [LoadField] + ([LoadField] + ([LoadField] + ([LoadField] + [CheckSeq]))));
    var a := LoadOne(NO_STAMP, s.stamp, 0);
    var b := LoadOne(a, s.stamp, 1);
    var c := LoadOne(b, s.stamp, 2);
    FieldLoads(g, s, 0, NO_STAMP, [LoadField] + ([LoadField] + ([LoadField] + [CheckSeq])));
    FieldLoads(g, s, 1, a, [LoadField] + ([LoadField] + [CheckSeq]));
    FieldLoads(g, s, 2, b, [LoadField] + [CheckSeq]);
    FieldLoads(g, s, 3, c, [CheckSeq]);
    Checks(g, s, LoadOne(c, s.stamp, 3));
  }

  lemma SeqLoads(g: Shape, s: State, rest: seq<Step>)
    requires g.Valid() && s.clock == Unread && s.stampSeq % 2 == 0
    ensures Run(g, s, [LoadSeq] + rest) == Run(g, s.(clock := Loading(s.stampSeq, 0, NO_STAMP)), rest)
  {
    hide Run;
    RunStep(g, s, LoadSeq, rest);
  }

  lemma FieldLoads(g: Shape, s: State, n: nat, snapshot: Stamp, rest: seq<Step>)
    requires g.Valid() && n < 4
    ensures Run(g, s.(clock := Loading(s.stampSeq, n, snapshot)), [LoadField] + rest)
         == Run(g, s.(clock := Loading(s.stampSeq, n + 1, LoadOne(snapshot, s.stamp, n))), rest)
  {
    hide Run, LoadOne;
    RunStep(g, s.(clock := Loading(s.stampSeq, n, snapshot)), LoadField, rest);
  }

  lemma Checks(g: Shape, s: State, snapshot: Stamp)
    requires g.Valid()
    ensures Run(g, s.(clock := Loading(s.stampSeq, 4, snapshot)), [CheckSeq]) == s.(clock := Accepted(snapshot))
  {
    hide Run;
    assert [CheckSeq] + [] == [CheckSeq];
    RunStep(g, s.(clock := Loading(s.stampSeq, 4, snapshot)), CheckSeq, []);
    RunNone(g, s.(clock := Accepted(snapshot)));
  }

  lemma AfterNone(log: seq<(nat, TimeStamp)>)
    requires log == []
    ensures After(log) == NO_STAMP
  {}

  // What stamping k left is about packet k and nothing else.
  ghost predicate OneCallback(s: State, k: nat)
    requires k < |s.log|
  {
    var left := After(s.log[..k + 1]);
    && left.head == (if k < |s.packets| then |Concat(s.packets[..k])| else s.head)
    && (match s.log[k].1
        case NoTime => left.flags == 0
        case Time(bits, ticks, flags) => left.bits == bits && left.ticks == ticks && left.flags == flags)
  }

  lemma OneAfter(s: State, k: nat)
    requires LogOk(s) && k < |s.log|
    ensures OneCallback(s, k)
  {
    hide Concat;
    assert s.log[..k + 1] == s.log[..k] + [s.log[k]];
    AfterOne(s.log[..k], s.log[k].0, s.log[k].1);
  }
}
