/**
 The capture stager: packets of any length go in, periods of one fixed length
 come out. Packets and staging memory are bytes, blockAlign of them a frame;
 device positions are 64-bit and wrap.
 */
module Stager {
  import opened Bits
  import opened Options

  const WORD: int := 0x1_0000_0000_0000_0000
  const MAX_INT: int := 0x7FFF_FFFF_FFFF_FFFF

  type Position = p: int | 0 <= p < WORD
  type Byte = b: int | 0 <= b < 256

  function Shift(p: Position, n: nat): Position {
    (p + n) % WORD
  }

  lemma ShiftTwice(p: Position, a: nat, b: nat)
    ensures Shift(Shift(p, a), b) == Shift(p, a + b)
  {}

  // A packet as the device hands it over; position counts in frames.
  datatype Packet = Packet(
    data: seq<Byte>, frames: int, silent: bool, discontinuity: bool, timestampError: bool,
    position: Position)

  datatype Refusal = Accepted | BadGeometry | ShortPacket | TooLarge

  // The size in bytes of n frames.
  function Size(n: nat, blockAlign: nat): (b: nat) {
    n * blockAlign
  }

  lemma SizeAdds(a: nat, b: nat, blockAlign: nat)
    ensures Size(a + b, blockAlign) == Size(a, blockAlign) + Size(b, blockAlign)
  {}

  lemma SizeZero(blockAlign: nat)
    ensures Size(0, blockAlign) == 0
  {}

  function Judge(p: Packet, blockAlign: nat): Refusal
    requires blockAlign > 0
  {
    if p.frames <= 0 || p.frames > MAX_INT / blockAlign then BadGeometry
    else if !p.silent && |p.data| < Size(p.frames, blockAlign) then ShortPacket
    else Accepted
  }

  // What an accepted packet puts in the stage.
  function Content(p: Packet, blockAlign: nat): (c: seq<Byte>)
    requires blockAlign > 0 && Judge(p, blockAlign) == Accepted
    ensures |c| == Size(p.frames, blockAlign)
  {
    if p.silent then seq(Size(p.frames, blockAlign), _ => 0) else p.data[..Size(p.frames, blockAlign)]
  }

  // Byte i of a packet: its data, or silence.
  function ByteOf(p: Packet, i: nat): Byte {
    if p.silent || i >= |p.data| then 0 else p.data[i]
  }

  function BytesIn(p: Packet, blockAlign: nat): nat {
    if p.frames <= 0 then 0 else p.frames * blockAlign
  }

  // The bytes of some packets, one packet behind the other.
  function BytesOf(packets: seq<Packet>, blockAlign: nat): seq<Byte> {
    if packets == [] then []
    else
      var p := packets[|packets| - 1];
      BytesOf(packets[..|packets| - 1], blockAlign) +
        seq(BytesIn(p, blockAlign), i requires 0 <= i < BytesIn(p, blockAlign) => ByteOf(p, i))
  }

  // Content keeps every byte of the packet at its place.
  lemma ContentIs(p: Packet, blockAlign: nat, i: nat)
    requires blockAlign > 0 && Judge(p, blockAlign) == Accepted && i < p.frames * blockAlign
    ensures |Content(p, blockAlign)| == p.frames * blockAlign
    ensures Content(p, blockAlign)[i] == if p.silent then 0 else p.data[i]
  {}

  lemma BytesAdd(packets: seq<Packet>, p: Packet, blockAlign: nat)
    requires blockAlign > 0 && Judge(p, blockAlign) == Accepted
    ensures BytesOf(packets + [p], blockAlign) == BytesOf(packets, blockAlign) + Content(p, blockAlign)
  {
    assert (packets + [p])[..|packets|] == packets;
    var n := BytesIn(p, blockAlign);
    assert seq(n, i requires 0 <= i < n => ByteOf(p, i)) == Content(p, blockAlign);
  }

  // Byte i of packet k, among the bytes of all.
  lemma {:induction false} ByteAt(packets: seq<Packet>, blockAlign: nat, k: nat, i: nat)
    requires k < |packets| && i < BytesIn(packets[k], blockAlign)
    ensures var (all, at) := (BytesOf(packets, blockAlign), |BytesOf(packets[..k], blockAlign)| + i);
            at < |all| && all[at] == ByteOf(packets[k], i)
    decreases |packets|
  {
    var n := |packets| - 1;
    if k < n {
      ByteAt(packets[..n], blockAlign, k, i);
      assert packets[..n][..k] == packets[..k];
    }
  }

  // The position frame i of a packet arrived with.
  function Arrival(p: Packet, i: nat): Option<Position> {
    if p.timestampError then None else Some(Shift(p.position, i))
  }

  function Arrivals(p: Packet): (o: seq<Option<Position>>)
    requires p.frames >= 0
    ensures |o| == p.frames
  {
    seq(p.frames, i requires 0 <= i < p.frames => Arrival(p, i))
  }

  // -- The stage ----------------------------------------------------------------------

  datatype Geometry = Geometry(blockAlign: nat, period: nat, capacity: nat) {
    predicate Valid() {
      blockAlign > 0 && 0 < period < capacity
    }

    // The frames of the device's own buffer.
    function BufferFrames(): nat
      requires Valid()
    {
      capacity - period
    }
  }

  // History. Since the stage was last reset: the packets appended and the bytes
  // committed; for each staged frame, the position it arrived with, and whether its
  // packet agreed with the stage it joined. Ever: the resets that appending made,
  // by their reason.
  datatype Past = Past(
    packets: seq<Packet>, committed: seq<Byte>, arrivals: seq<Option<Position>>, agreed: seq<bool>,
    gaps: nat, oversized: nat, overflows: nat)

  datatype Stage = Stage(
    frames: nat, ready: bool, dropouts: nat, havePacket: bool,
    stagePosition: Option<Position>, expectedPosition: Option<Position>, activePosition: Option<Position>,
    staged: seq<Byte>, input: seq<Byte>, past: Past)

  function Initial(g: Geometry): Stage {
    Stage(0, false, 0, false, None, None, None, [], seq(Size(g.period, g.blockAlign), _ => 0),
          Past([], [], [], [], 0, 0, 0))
  }

  function Emptied(s: Stage): Stage {
    s.(frames := 0, ready := false, stagePosition := None, activePosition := None, staged := [],
       past := s.past.(packets := [], committed := [], arrivals := [], agreed := []))
  }

  function ResetOf(s: Stage, clearPosition: bool): Stage {
    if clearPosition then Emptied(s).(expectedPosition := None, havePacket := false) else Emptied(s)
  }

  // The packet does not follow the one before it.
  predicate Gap(s: Stage, p: Packet) {
    || (s.havePacket && p.discontinuity)
    || (!p.timestampError && s.expectedPosition.Some? && p.position != s.expectedPosition.value)
  }

  // A reset while appending is one dropout.
  function Dropped(s: Stage): Stage {
    Emptied(s).(dropouts := s.dropouts + 1, expectedPosition := None)
  }

  function Broken(s: Stage): Stage {
    Dropped(s).(past := Emptied(s).past.(gaps := s.past.gaps + 1))
  }

  function Oversized(s: Stage): Stage {
    Dropped(s).(past := Emptied(s).past.(oversized := s.past.oversized + 1))
  }

  function Overflowed(s: Stage): Stage {
    Dropped(s).(past := Emptied(s).past.(overflows := s.past.overflows + 1))
  }

  // The position the stage gives its frame i.
  function PlaceOf(stage: Option<Position>, i: nat): Option<Position> {
    if stage.None? then None else Some(Shift(stage.value, i))
  }

  // The packet arrived with the position its place in the stage stands for.
  predicate Agrees(s: Stage, p: Packet) {
    s.frames == 0 || Arrival(p, 0) == PlaceOf(s.stagePosition, s.frames)
  }

  // One mark for each frame of a packet.
  function Marks(p: Packet, agrees: bool): (m: seq<bool>)
    requires p.frames >= 0
    ensures |m| == p.frames && forall i :: 0 <= i < |m| ==> m[i] == agrees
  {
    seq(p.frames, _ => agrees)
  }

  function Stored(g: Geometry, s: Stage, p: Packet): Stage
    requires g.Valid() && Judge(p, g.blockAlign) == Accepted
  {
    var content := Content(p, g.blockAlign);
    s.(frames := s.frames + p.frames, havePacket := true,
       stagePosition := if s.frames == 0 then Arrival(p, 0) else s.stagePosition,
       expectedPosition := Arrival(p, p.frames), staged := s.staged + content,
       past := s.past.(packets := s.past.packets + [p], arrivals := s.past.arrivals + Arrivals(p),
                       agreed := s.past.agreed + Marks(p, Agrees(s, p))))
  }

  function Verdict(g: Geometry, p: Packet): Refusal
    requires g.Valid()
  {
    if Judge(p, g.blockAlign) == Accepted && p.frames > g.capacity then TooLarge else Judge(p, g.blockAlign)
  }

  function Append(g: Geometry, s: Stage, p: Packet): Stage
    requires g.Valid()
  {
    if Verdict(g, p) != Accepted && Verdict(g, p) != TooLarge then s else
      var s1 := if Gap(s, p) then Broken(s) else s;
      if Verdict(g, p) == TooLarge then Oversized(s1) else
        Stored(g, if s1.frames + p.frames > g.capacity then Overflowed(s1) else s1, p)
  }

  function Prepare(g: Geometry, s: Stage): Stage
    requires Size(g.period, g.blockAlign) <= |s.staged| || s.frames < g.period
  {
    if s.ready || s.frames < g.period then s
    else s.(ready := true, activePosition := s.stagePosition, input := s.staged[..Size(g.period, g.blockAlign)])
  }

  function Commit(g: Geometry, s: Stage): Stage
    requires s.ready ==> g.period <= s.frames && Size(g.period, g.blockAlign) <= |s.staged|
    requires s.ready ==> |s.past.arrivals| == |s.past.agreed| == s.frames
  {
    if !s.ready then s else
      var bytes, left := Size(g.period, g.blockAlign), s.frames - g.period;
      s.(frames := left, ready := false, activePosition := None, staged := s.staged[bytes..],
         stagePosition := if s.stagePosition.None? || left == 0 then None
                          else Some(Shift(s.stagePosition.value, g.period)),
         past := s.past.(committed := s.past.committed + s.input,
                         arrivals := s.past.arrivals[g.period..], agreed := s.past.agreed[g.period..]))
  }

  // -- The invariant --------------------------------------------------------------------

  // A staged frame has the position it arrived with exactly when its packet agreed,
  // and the device is expected to go on from the last of them.
  ghost predicate Traced(
    stage: Option<Position>, expected: Option<Position>, arrivals: seq<Option<Position>>, agreed: seq<bool>)
  {
    && |agreed| == |arrivals|
    && (arrivals != [] ==> expected == PlaceOf(arrivals[|arrivals| - 1], 1))
    && forall i :: 0 <= i < |arrivals| ==> (agreed[i] <==> arrivals[i] == PlaceOf(stage, i))
  }

  ghost predicate Inv(g: Geometry, s: Stage) {
    && s.frames <= g.capacity && |s.staged| == Size(s.frames, g.blockAlign)
    && |s.input| == Size(g.period, g.blockAlign) && |s.past.arrivals| == s.frames
    && s.past.committed + s.staged == BytesOf(s.past.packets, g.blockAlign)
    && g.blockAlign > 0 && (forall p :: p in s.past.packets ==> Judge(p, g.blockAlign) == Accepted)
    && s.dropouts == s.past.gaps + s.past.oversized + s.past.overflows
    && (s.ready ==> s.frames >= g.period && s.input <= s.staged && s.activePosition == s.stagePosition)
    && Traced(s.stagePosition, s.expectedPosition, s.past.arrivals, s.past.agreed)
  }

  lemma InvAtStart(g: Geometry)
    requires g.Valid()
    ensures Inv(g, Initial(g))
  {
    SizeZero(g.blockAlign);
  }

  lemma ResetKept(g: Geometry, s: Stage, clearPosition: bool)
    requires g.Valid() && Inv(g, s)
    ensures Inv(g, ResetOf(s, clearPosition))
  {
    SizeZero(g.blockAlign);
  }

  lemma DropsKept(g: Geometry, s: Stage)
    requires g.Valid() && Inv(g, s)
    ensures Inv(g, Broken(s)) && Inv(g, Oversized(s)) && Inv(g, Overflowed(s))
  {
    SizeZero(g.blockAlign);
    hide Size;
  }

  lemma ShiftInjective(a: Position, b: Position, n: nat)
    ensures Shift(a, n) == Shift(b, n) <==> a == b
  {
    if Shift(a, n) == Shift(b, n) {
      assert a - b == WORD * ((a + n) / WORD - (b + n) / WORD);
    }
  }

  // All frames of a packet are placed as they arrived, or none.
  lemma PacketPlaced(stage: Option<Position>, at: nat, p: Packet, i: nat)
    ensures Arrival(p, i) == PlaceOf(stage, at + i) <==> Arrival(p, 0) == PlaceOf(stage, at)
  {
    if stage.Some? && !p.timestampError {
      ShiftTwice(stage.value, at, i);
      ShiftTwice(p.position, 0, i);
      ShiftInjective(Shift(p.position, 0), Shift(stage.value, at), i);
    }
  }

  lemma TracedAppend(s: Stage, p: Packet)
    requires Traced(s.stagePosition, s.expectedPosition, s.past.arrivals, s.past.agreed)
    requires |s.past.arrivals| == s.frames && p.frames > 0
    ensures Traced(if s.frames == 0 then Arrival(p, 0) else s.stagePosition, Arrival(p, p.frames),
                   s.past.arrivals + Arrivals(p), s.past.agreed + Marks(p, Agrees(s, p)))
  {
    hide Shift;
    var n, all, marks := s.frames, s.past.arrivals + Arrivals(p), s.past.agreed + Marks(p, Agrees(s, p));
    var stage := if n == 0 then Arrival(p, 0) else s.stagePosition;
    forall i | 0 <= i < |all| ensures marks[i] <==> all[i] == PlaceOf(stage, i) {
      if i >= n {
        PacketPlaced(stage, n, p, i - n);
        if n == 0 { FirstPlace(p); }
      }
    }
    LastFollowed(p);
  }

  lemma FirstPlace(p: Packet)
    ensures Arrival(p, 0) == PlaceOf(Arrival(p, 0), 0)
  {}

  lemma LastFollowed(p: Packet)
    requires p.frames > 0
    ensures Arrival(p, p.frames) == PlaceOf(Arrival(p, p.frames - 1), 1)
  {
    ShiftTwice(p.position, p.frames - 1, 1);
  }

  lemma StoredKept(g: Geometry, s: Stage, p: Packet)
    requires g.Valid() && Inv(g, s) && Judge(p, g.blockAlign) == Accepted
    requires s.frames + p.frames <= g.capacity
    ensures Inv(g, Stored(g, s, p))
  {
    assert p.frames > 0;
    hide Traced, Content, Arrivals, Arrival, Size, Agrees, Marks, BytesOf, Judge;
    BytesAdd(s.past.packets, p, g.blockAlign);
    SizeAdds(s.frames, p.frames, g.blockAlign);
    TracedAppend(s, p);
    assert s.past.committed + (s.staged + Content(p, g.blockAlign))
        == s.past.committed + s.staged + Content(p, g.blockAlign);
  }

  lemma AppendKept(g: Geometry, s: Stage, p: Packet)
    requires g.Valid() && Inv(g, s)
    ensures Inv(g, Append(g, s, p))
  {
    hide Inv, Stored, Judge;
    if Verdict(g, p) == Accepted || Verdict(g, p) == TooLarge {
      DropsKept(g, s);
      var s1 := if Gap(s, p) then Broken(s) else s;
      DropsKept(g, s1);
      if Verdict(g, p) == Accepted {
        StoredKept(g, if s1.frames + p.frames > g.capacity then Overflowed(s1) else s1, p);
      }
    }
  }

  lemma SizeGrows(a: nat, b: nat, blockAlign: nat)
    requires a <= b
    ensures Size(a, blockAlign) <= Size(b, blockAlign)
  {
    SizeAdds(a, b - a, blockAlign);
  }

  // A stage of a period or more has the bytes of one.
  lemma PeriodStaged(g: Geometry, s: Stage)
    requires g.Valid() && Inv(g, s) && s.frames >= g.period
    ensures Size(g.period, g.blockAlign) <= |s.staged| && |s.past.arrivals| == s.frames
  {
    SizeGrows(g.period, s.frames, g.blockAlign);
  }

  lemma PrepareKept(g: Geometry, s: Stage)
    requires g.Valid() && Inv(g, s)
    ensures Size(g.period, g.blockAlign) <= |s.staged| || s.frames < g.period
    ensures Inv(g, Prepare(g, s))
  {
    hide Size, Traced;
    if s.frames >= g.period { PeriodStaged(g, s); }
  }

  lemma TracedCommit(
    stage: Option<Position>, expected: Option<Position>, arrivals: seq<Option<Position>>, agreed: seq<bool>, n: nat)
    requires Traced(stage, expected, arrivals, agreed) && n < |arrivals|
    ensures Traced(PlaceOf(stage, n), expected, arrivals[n..], agreed[n..])
  {
    forall i | 0 <= i < |arrivals| - n
      ensures agreed[n..][i] <==> arrivals[n..][i] == PlaceOf(PlaceOf(stage, n), i)
    {
      if stage.Some? { ShiftTwice(stage.value, n, i); }
    }
  }

  lemma CommitKept(g: Geometry, s: Stage)
    requires g.Valid() && Inv(g, s)
    ensures s.ready ==> g.period <= s.frames && Size(g.period, g.blockAlign) <= |s.staged|
    ensures s.ready ==> |s.past.arrivals| == |s.past.agreed| == s.frames
    ensures Inv(g, Commit(g, s))
  {
    hide Size;
    if s.ready {
      PeriodStaged(g, s);
      SizeAdds(g.period, s.frames - g.period, g.blockAlign);
      var bytes := Size(g.period, g.blockAlign);
      assert s.past.committed + s.staged == (s.past.committed + s.staged[..bytes]) + s.staged[bytes..];
      assert s.input == s.staged[..bytes];
      if s.frames > g.period {
        TracedCommit(s.stagePosition, s.expectedPosition, s.past.arrivals, s.past.agreed, g.period);
      }
      hide Traced;
    }
  }

  // -- Whole runs -----------------------------------------------------------------------

  datatype Op = Appending(p: Packet) | Preparing | Committing | Resetting(clearPosition: bool)

  ghost function Do(g: Geometry, s: Stage, op: Op): (r: Stage)
    requires g.Valid() && Inv(g, s)
    ensures Inv(g, r)
  {
    match op
    case Appending(p) => AppendKept(g, s, p); Append(g, s, p)
    case Preparing => PrepareKept(g, s); Prepare(g, s)
    case Committing => CommitKept(g, s); Commit(g, s)
    case Resetting(clear) => ResetKept(g, s, clear); ResetOf(s, clear)
  }

  ghost function Run(g: Geometry, s: Stage, ops: seq<Op>): (r: Stage)
    requires g.Valid() && Inv(g, s)
    ensures Inv(g, r)
    decreases |ops|
  {
    if ops == [] then s else Run(g, Do(g, s, ops[0]), ops[1..])
  }

  // Between two resets nothing is lost, repeated or reordered: the periods committed
  // and then the frames staged are the packets appended, byte for byte; and each reset
  // that appending made is one dropout.
  lemma StagedInOrder(g: Geometry, ops: seq<Op>)
    requires g.Valid()
    ensures Inv(g, Initial(g))
    ensures var s := Run(g, Initial(g), ops);
            && s.past.committed + s.staged == BytesOf(s.past.packets, g.blockAlign)
            && (s.ready ==> s.input <= s.staged)
            && s.dropouts == s.past.gaps + s.past.oversized + s.past.overflows
  {
    InvAtStart(g);
  }

  // So byte i of packet k is where the packets before it end, and is silence in a
  // silent packet and else the packet's own byte.
  lemma EveryByteStaged(g: Geometry, ops: seq<Op>, k: nat, i: nat)
    requires g.Valid() && Inv(g, Initial(g)) && k < |Run(g, Initial(g), ops).past.packets|
    requires var p := Run(g, Initial(g), ops).past.packets[k];
             p.frames > 0 && i < p.frames * g.blockAlign
    ensures var s := Run(g, Initial(g), ops);
            var (p, at) := (s.past.packets[k], |BytesOf(s.past.packets[..k], g.blockAlign)| + i);
            && (p.silent || i < |p.data|) && at < |s.past.committed + s.staged|
            && (s.past.committed + s.staged)[at] == if p.silent then 0 else p.data[i]
  {
    hide Run, Traced, BytesOf;
    var s := Run(g, Initial(g), ops);
    assert s.past.packets[k] in s.past.packets;
    ByteAt(s.past.packets, g.blockAlign, k, i);
  }

  // What appending one packet does: a packet that is refused changes nothing; else gaps,
  // oversized packets and overflows are counted, each starts the stage anew, and the
  // packet follows what is left.
  lemma AppendCounts(g: Geometry, s: Stage, p: Packet)
    requires g.Valid() && Inv(g, s)
    ensures var (r, q) := (Append(g, s, p), s.past);
            if Judge(p, g.blockAlign) != Accepted then r == s
            else
              && r.past.gaps == q.gaps + (if Gap(s, p) then 1 else 0)
              && r.past.oversized == q.oversized + (if p.frames > g.capacity then 1 else 0)
              && r.past.overflows == q.overflows +
                   (if !Gap(s, p) && s.frames + p.frames > g.capacity >= p.frames then 1 else 0)
              && r.past.packets ==
                   if p.frames > g.capacity then []
                   else if Gap(s, p) || s.frames + p.frames > g.capacity then [p] else q.packets + [p]
  {
    hide Inv, Content, Size, Arrival, Arrivals;
  }

  // The bytes an accepted packet leaves behind the stage, or behind nothing if it
  // started anew.
  lemma AppendedBytes(g: Geometry, s: Stage, p: Packet)
    requires g.Valid() && Inv(g, s) && Verdict(g, p) == Accepted
    ensures var (r, n) := (Append(g, s, p), p.frames * g.blockAlign);
            var from := |r.staged| - n;
            && from >= 0 && r.staged[..from] == (if Gap(s, p) || s.frames + p.frames > g.capacity then [] else s.staged)
            && forall i :: 0 <= i < n ==> r.staged[from + i] == if p.silent then 0 else p.data[i]
  {
    hide Inv, Arrival, Arrivals, Marks;
    var content := Content(p, g.blockAlign);
    forall i | 0 <= i < p.frames * g.blockAlign ensures content[i] == if p.silent then 0 else p.data[i] {
      ContentIs(p, g.blockAlign, i);
    }
  }

  // The three refusals, by their reasons.
  lemma RefusesExactly(g: Geometry, p: Packet)
    requires g.Valid()
    ensures Verdict(g, p) == BadGeometry <==> p.frames <= 0 || p.frames * g.blockAlign > MAX_INT
    ensures Verdict(g, p) == ShortPacket <==>
              0 < p.frames && p.frames * g.blockAlign <= MAX_INT && !p.silent && |p.data| < p.frames * g.blockAlign
    ensures Verdict(g, p) == TooLarge <==>
              && 0 < p.frames && p.frames * g.blockAlign <= MAX_INT && p.frames > g.capacity
              && (p.silent || |p.data| >= p.frames * g.blockAlign)
  {
    if p.frames > 0 { ProductFits(g.blockAlign, p.frames, MAX_INT); }
  }

  // Behind an accepted packet there is a gap exactly where the device says so, or where
  // both packets have a position and the next is not the one behind the last frame.
  lemma GapMeans(g: Geometry, s: Stage, p: Packet, q: Packet)
    requires g.Valid() && Inv(g, s) && Verdict(g, p) == Accepted
    ensures Gap(Append(g, s, p), q) <==>
              || q.discontinuity
              || (!p.timestampError && !q.timestampError && q.position != (p.position + p.frames) % WORD)
  {
    hide Inv, Content, Arrivals, Marks, Size;
  }

  // And before the first packet, or behind a reset that forgets the position, there is
  // none.
  lemma NoGapAtStart(g: Geometry, s: Stage, p: Packet)
    ensures !Gap(Initial(g), p) && !Gap(ResetOf(s, true), p)
  {}

  // -- The positions periods report ------------------------------------------------------

  // A prepared period reports the position its first frame arrived with exactly
  // when the packet of that frame agreed with the stage as it was appended.
  lemma ReportsArrival(g: Geometry, s: Stage)
    requires g.Valid() && Inv(g, s) && s.ready
    ensures s.past.arrivals != [] && s.past.agreed != []
    ensures s.activePosition == s.past.arrivals[0] <==> s.past.agreed[0]
  {
    ShiftNone(s.stagePosition);
  }

  lemma ShiftNone(stage: Option<Position>)
    ensures PlaceOf(stage, 0) == stage
  {}

  // Every staged frame has the position it arrived with.
  ghost predicate Faithful(s: Stage) {
    forall i :: 0 <= i < |s.past.arrivals| ==> s.past.arrivals[i] == PlaceOf(s.stagePosition, i)
  }

  // A packet with a timestamp joins staged frames without one, or the reverse.
  predicate Mixes(g: Geometry, s: Stage, op: Op)
    requires g.Valid()
  {
    && op.Appending? && Verdict(g, op.p) == Accepted
    && s.frames > 0 && !Gap(s, op.p) && s.frames + op.p.frames <= g.capacity
    && op.p.timestampError == s.stagePosition.Some?
  }

  lemma FaithfulMeans(g: Geometry, s: Stage)
    requires Inv(g, s)
    ensures Faithful(s) <==> forall i :: 0 <= i < |s.past.agreed| ==> s.past.agreed[i]
  {
    hide PlaceOf;
  }

  // Where the device's positions were followed so far, a packet that follows them
  // agrees exactly if it brings a timestamp where the stage has a position.
  lemma JoinExactly(g: Geometry, s: Stage, p: Packet)
    requires g.Valid() && Inv(g, s) && Faithful(s) && s.frames > 0 && !Gap(s, p)
    ensures Agrees(s, p) <==> (p.timestampError <==> s.stagePosition.None?)
  {
    hide Size, Shift;
    assert s.past.arrivals[s.frames - 1] == PlaceOf(s.stagePosition, s.frames - 1);
    if s.stagePosition.Some? { ShiftTwice(s.stagePosition.value, s.frames - 1, 1); }
    ShiftZero(p.position);
  }

  lemma ShiftZero(p: Position)
    ensures Shift(p, 0) == p
  {}

  // An operation leaves a stage unfaithful exactly if it mixes.
  lemma StepExactly(g: Geometry, s: Stage, op: Op)
    requires g.Valid() && Inv(g, s) && Faithful(s)
    ensures Faithful(Do(g, s, op)) <==> !Mixes(g, s, op)
  {
    var r := Do(g, s, op);
    FaithfulMeans(g, s);
    FaithfulMeans(g, r);
    if op.Appending? && Verdict(g, op.p) == Accepted {
      AppendExactly(g, s, op.p);
    } else {
      hide Inv, Faithful, Judge, Size;
    }
  }

  lemma AppendExactly(g: Geometry, s: Stage, p: Packet)
    requires g.Valid() && Inv(g, s) && Faithful(s) && Verdict(g, p) == Accepted
    requires forall i :: 0 <= i < |s.past.agreed| ==> s.past.agreed[i]
    ensures var r := Append(g, s, p);
            (forall i :: 0 <= i < |r.past.agreed| ==> r.past.agreed[i]) <==> !Mixes(g, s, Appending(p))
  {
    hide Faithful, Size, Content, Arrivals, Arrival;
    assert p.frames > 0;
    hide Judge;
    var s1 := if Gap(s, p) then Broken(s) else s;
    var s2 := if s1.frames + p.frames > g.capacity then Overflowed(s1) else s1;
    if s2.frames > 0 { JoinExactly(g, s, p); }
    hide Inv;
    var r := Append(g, s, p);
    assert r.past.agreed == s2.past.agreed + Marks(p, Agrees(s2, p));
    assert r.past.agreed[|s2.past.agreed|] == Agrees(s2, p);
  }

  // The stage before operation k of a run.
  ghost function StageAt(g: Geometry, ops: seq<Op>, k: nat): (s: Stage)
    requires g.Valid() && k <= |ops|
    ensures Inv(g, s)
  {
    InvAtStart(g);
    Run(g, Initial(g), ops[..k])
  }

  lemma {:induction false} RunSnoc(g: Geometry, s: Stage, ops: seq<Op>)
    requires g.Valid() && Inv(g, s) && ops != []
    ensures Run(g, s, ops) == Do(g, Run(g, s, ops[..|ops| - 1]), ops[|ops| - 1])
    decreases |ops|
  {
    hide Inv, Do;
    if |ops| > 1 {
      RunSnoc(g, Do(g, s, ops[0]), ops[1..]);
      assert ops[1..][..|ops| - 2] == ops[..|ops| - 1][1..];
    }
  }

  lemma NextStage(g: Geometry, ops: seq<Op>, k: nat)
    requires g.Valid() && k < |ops|
    ensures StageAt(g, ops, k + 1) == Do(g, StageAt(g, ops, k), ops[k])
  {
    hide Inv, Do, Run;
    InvAtStart(g);
    assert ops[..k + 1][..k] == ops[..k];
    RunSnoc(g, Initial(g), ops[..k + 1]);
  }

  lemma FirstStage(g: Geometry, ops: seq<Op>)
    requires g.Valid()
    ensures StageAt(g, ops, 0) == Initial(g) && Faithful(Initial(g))
  {
    InvAtStart(g);
  }

  ghost predicate Unmixed(g: Geometry, ops: seq<Op>, n: nat)
    requires g.Valid() && n <= |ops|
  {
    forall k :: 0 <= k < n ==> !Mixes(g, StageAt(g, ops, k), ops[k])
  }

  lemma {:induction false} PlacedUpTo(g: Geometry, ops: seq<Op>, n: nat)
    requires g.Valid() && n <= |ops|
    ensures (forall k :: 0 <= k <= n ==> Faithful(StageAt(g, ops, k))) <==> Unmixed(g, ops, n)
  {
    hide Faithful, StageAt, Mixes, Inv, Do;
    if n == 0 {
      FirstStage(g, ops);
    } else {
      PlacedUpTo(g, ops, n - 1);
      NextStage(g, ops, n - 1);
      if Faithful(StageAt(g, ops, n - 1)) {
        StepExactly(g, StageAt(g, ops, n - 1), ops[n - 1]);
      }
    }
  }

  // In every stage of a run every frame stands where it arrived if and only if no
  // accepted packet joins staged frames with a timestamp where they have none, or
  // the reverse.
  lemma EveryStagePlaced(g: Geometry, ops: seq<Op>)
    requires g.Valid()
    ensures (forall k :: 0 <= k <= |ops| ==> Faithful(StageAt(g, ops, k))) <==> Unmixed(g, ops, |ops|)
  {
    PlacedUpTo(g, ops, |ops|);
  }

  // All appended packets have a timestamp, or none has.
  predicate Uniform(op: Op, error: bool) {
    op.Appending? ==> op.p.timestampError == error
  }

  ghost predicate Alike(s: Stage, error: bool) {
    forall i :: 0 <= i < |s.past.arrivals| ==> s.past.arrivals[i].None? == error
  }

  lemma AlikeKept(g: Geometry, s: Stage, op: Op, error: bool)
    requires g.Valid() && Inv(g, s) && Alike(s, error) && Uniform(op, error)
    ensures Alike(Do(g, s, op), error)
  {
    hide Content, Size, Traced, Gap, BytesOf;
    match op
    case Appending(p) => hide Inv;
    case _ =>
  }

  // A stage of alike frames is not mixed by one more like them.
  lemma AlikeUnmixed(g: Geometry, s: Stage, op: Op, error: bool)
    requires g.Valid() && Inv(g, s) && Alike(s, error) && Uniform(op, error) && Faithful(s)
    ensures !Mixes(g, s, op)
  {
    if s.frames > 0 { assert s.past.arrivals[0] == PlaceOf(s.stagePosition, 0); }
  }

  lemma {:induction false} UniformUpTo(g: Geometry, ops: seq<Op>, error: bool, n: nat)
    requires g.Valid() && n <= |ops| && forall i :: 0 <= i < |ops| ==> Uniform(ops[i], error)
    ensures Faithful(StageAt(g, ops, n)) && Alike(StageAt(g, ops, n), error) && Unmixed(g, ops, n)
  {
    hide Faithful, StageAt, Mixes, Inv, Do;
    if n == 0 {
      FirstStage(g, ops);
    } else {
      var s := StageAt(g, ops, n - 1);
      UniformUpTo(g, ops, error, n - 1);
      AlikeUnmixed(g, s, ops[n - 1], error);
      StepExactly(g, s, ops[n - 1]);
      AlikeKept(g, s, ops[n - 1], error);
      NextStage(g, ops, n - 1);
    }
  }

  // A period of a faithful stage reports the position its first frame arrived with.
  lemma FaithfulReports(g: Geometry, s: Stage)
    requires g.Valid() && Inv(g, s) && Faithful(s) && s.ready
    ensures s.past.arrivals != [] && s.activePosition == s.past.arrivals[0]
  {
    FaithfulMeans(g, s);
    ReportsArrival(g, s);
  }

  // So in a run without timestamp errors, and in one with nothing else, every
  // prepared period reports the position its first frame arrived with.
  lemma EveryPeriodPlaced(g: Geometry, ops: seq<Op>, error: bool)
    requires g.Valid() && forall i :: 0 <= i < |ops| ==> Uniform(ops[i], error)
    ensures var s := StageAt(g, ops, |ops|);
            s.ready ==> s.past.arrivals != [] && s.activePosition == s.past.arrivals[0]
                        && s.activePosition.None? == error
  {
    hide StageAt, Inv, Faithful;
    UniformUpTo(g, ops, error, |ops|);
    if StageAt(g, ops, |ops|).ready { FaithfulReports(g, StageAt(g, ops, |ops|)); }
  }

  lemma Before(g: Geometry, s: Stage, op: Op, ops: seq<Op>) returns (all: seq<Op>)
    requires g.Valid() && Inv(g, s)
    ensures Run(g, s, all) == Run(g, Do(g, s, op), ops)
  {
    all := [op] + ops;
    assert all[1..] == ops;
  }

  // A run that mixes and misreports: after a frame at 100, one without a timestamp
  // and one at 500, the third period reports 102.
  lemma Misreported()
    ensures exists ops :: var g := Geometry(1, 1, 4);
                          var s := StageAt(g, ops, |ops|);
                          && s.ready && s.past.arrivals == [Some(500)] && s.activePosition == Some(102)
                          && !Unmixed(g, ops, |ops|)
  {
    var g := Geometry(1, 1, 4);
    InvAtStart(g);
    var s := ThreeStaged(g);
    var s1 := TwoGone(g, s);
    var l1 := Before(g, s1, Preparing, []);
    var l2 := Before(g, Do(g, Do(g, Do(g, s, Preparing), Committing), Preparing), Committing, l1);
    var l3 := Before(g, Do(g, Do(g, s, Preparing), Committing), Preparing, l2);
    var l4 := Before(g, Do(g, s, Preparing), Committing, l3);
    var l5 := Before(g, s, Preparing, l4);
    var p1, p2, p3 := Timestamped(100), Untimed(), Timestamped(500);
    var l6 := Before(g, Do(g, Do(g, Initial(g), Appending(p1)), Appending(p2)), Appending(p3), l5);
    var l7 := Before(g, Do(g, Initial(g), Appending(p1)), Appending(p2), l6);
    var l8 := Before(g, Initial(g), Appending(p1), l7);
    hide *;
    var last := Do(g, s1, Preparing);
    assert Run(g, Initial(g), l8) == last by { RunNone(g, last); }
    WholeRun(g, l8);
    MixedSomewhere(g, l8);
  }

  lemma WholeRun(g: Geometry, ops: seq<Op>)
    requires g.Valid() && Inv(g, Initial(g))
    ensures StageAt(g, ops, |ops|) == Run(g, Initial(g), ops)
  {
    assert ops[..|ops|] == ops;
  }

  // A run whose last period misreports has mixed.
  lemma MixedSomewhere(g: Geometry, ops: seq<Op>)
    requires g.Valid() && var s := StageAt(g, ops, |ops|);
             s.ready && s.past.arrivals != [] && s.activePosition != s.past.arrivals[0]
    ensures !Unmixed(g, ops, |ops|)
  {
    hide StageAt, Inv, Faithful, Unmixed;
    EveryStagePlaced(g, ops);
    if Unmixed(g, ops, |ops|) { FaithfulReports(g, StageAt(g, ops, |ops|)); }
  }

  function Timestamped(position: Position): Packet {
    Packet([7], 1, false, false, false, position)
  }

  function Untimed(): Packet {
    Packet([7], 1, false, false, true, 0)
  }

  lemma RunNone(g: Geometry, s: Stage)
    requires g.Valid() && Inv(g, s)
    ensures Run(g, s, []) == s
  {}

  lemma ThreeStaged(g: Geometry) returns (s: Stage)
    requires g == Geometry(1, 1, 4)
    ensures Inv(g, Initial(g)) && s == Do(g, Do(g, Do(g, Initial(g), Appending(Timestamped(100))), Appending(Untimed())),
                                          Appending(Timestamped(500)))
    ensures s.frames == 3 && !s.ready && s.stagePosition == Some(100)
    ensures s.past.arrivals == [Some(100), None, Some(500)]
  {
    hide Append, Inv;
    InvAtStart(g);
    var s1 := Do(g, Initial(g), Appending(Timestamped(100)));
    OneFollows(g, Initial(g), Timestamped(100));
    var s2 := Do(g, s1, Appending(Untimed()));
    OneFollows(g, s1, Untimed());
    s := Do(g, s2, Appending(Timestamped(500)));
    OneFollows(g, s2, Timestamped(500));
  }

  // A packet of one frame that follows, on a stage with room.
  lemma OneFollows(g: Geometry, s: Stage, p: Packet)
    requires g == Geometry(1, 1, 4) && Inv(g, s) && s.frames <= 3 && !Gap(s, p)
    requires p.data == [7] && p.frames == 1 && !p.silent
    ensures var r := Append(g, s, p);
            && r.frames == s.frames + 1 && r.ready == s.ready && r.havePacket && r.expectedPosition == PlaceOf(Arrival(p, 0), 1)
            && r.stagePosition == (if s.frames == 0 then Arrival(p, 0) else s.stagePosition)
            && r.past.arrivals == s.past.arrivals + [Arrival(p, 0)]
  {
    hide Inv;
    assert Arrivals(p) == [Arrival(p, 0)];
  }

  lemma TwoGone(g: Geometry, s: Stage) returns (r: Stage)
    requires g == Geometry(1, 1, 4) && Inv(g, s) && s.frames == 3 && !s.ready && s.stagePosition == Some(100)
    requires s.past.arrivals == [Some(100), None, Some(500)]
    ensures r == Do(g, Do(g, Do(g, Do(g, s, Preparing), Committing), Preparing), Committing)
    ensures Inv(g, r) && var e := Do(g, r, Preparing);
            e.ready && e.past.arrivals == [Some(500)] && e.activePosition == Some(102)
  {
    hide Inv, Size, Traced;
    var s1 := OneGone(g, s, 100);
    r := OneGone(g, s1, 101);
    PrepareKept(g, r);
  }

  lemma OneGone(g: Geometry, s: Stage, at: Position) returns (r: Stage)
    requires g == Geometry(1, 1, 4) && Inv(g, s) && s.frames >= 2 && !s.ready && s.stagePosition == Some(at)
    ensures r == Do(g, Do(g, s, Preparing), Committing)
    ensures r.frames == s.frames - 1 && !r.ready && r.stagePosition == Some(Shift(at, 1))
    ensures |s.past.arrivals| > 0 && r.past.arrivals == s.past.arrivals[1..]
  {
    hide Size, Traced;
    PrepareKept(g, s);
    var s1 := Do(g, s, Preparing);
    CommitKept(g, s1);
    r := Do(g, s1, Committing);
  }

  // -- Draining the device ----------------------------------------------------------------

  // One reply of the device while packets are drained.
  datatype Reply =
    | SizeFailed
    | NoPacket
    | BufferFailed
    | BufferEmpty
    | Unreadable                            // no memory behind a packet that is not silent
    | Got(packet: Packet, released: bool)

  datatype Poll = Ready | NotReady | Interrupted | Failed | Waiting

  // The stage after draining, and how it ended; NotReady stands for no error.
  ghost function Drain(g: Geometry, s: Stage, replies: seq<Reply>): (r: (Stage, Poll))
    requires g.Valid() && Inv(g, s)
    ensures Inv(g, r.0) && r.1 != Ready && r.1 != Interrupted
    decreases |replies|
  {
    if replies == [] then (s, Waiting) else
      match replies[0]
      case NoPacket => (s, NotReady)
      case BufferEmpty => (s, NotReady)
      case Got(p, released) =>
        AppendKept(g, s, p);
        var s' := Append(g, s, p);
        if Verdict(g, p) != Accepted || !released then (s', Failed)
        else if s'.frames >= g.period then (s', NotReady)
        else Drain(g, s', replies[1..])
      case _ => (s, Failed)
  }

  // The packets a drain takes, in order.
  ghost function Taken(g: Geometry, s: Stage, replies: seq<Reply>): seq<Packet>
    requires g.Valid() && Inv(g, s)
    decreases |replies|
  {
    if replies == [] || !replies[0].Got? || Verdict(g, replies[0].packet) != Accepted then [] else
      AppendKept(g, s, replies[0].packet);
      var s' := Append(g, s, replies[0].packet);
      [replies[0].packet] +
        (if !replies[0].released || s'.frames >= g.period then [] else Taken(g, s', replies[1..]))
  }

  predicate Fits(g: Geometry, r: Reply)
    requires g.Valid()
  {
    r.Got? ==> r.packet.frames <= g.BufferFrames()
  }

  lemma NoOverflow(g: Geometry, s: Stage, p: Packet)
    requires g.Valid() && Inv(g, s) && s.frames < g.period && p.frames <= g.BufferFrames()
    ensures var r := Append(g, s, p);
            && r.past.overflows == s.past.overflows && r.past.oversized == s.past.oversized
            && r.past.gaps >= s.past.gaps
            && (Verdict(g, p) == Accepted && r.past.gaps == s.past.gaps ==>
                  r.past.packets == s.past.packets + [p])
            && (Verdict(g, p) != Accepted ==> r == s)
  {
    hide Inv, Content, Size, Arrival, Arrivals;
  }

  // Drained below one period at a time, a stage with room for the device's whole
  // buffer beside it never overflows; and unless the device reports a gap, the
  // packets taken follow what was staged.
  lemma {:induction false} DrainNeverOverflows(g: Geometry, s: Stage, replies: seq<Reply>)
    requires g.Valid() && Inv(g, s) && s.frames < g.period
    requires forall i :: 0 <= i < |replies| ==> Fits(g, replies[i])
    ensures var r := Drain(g, s, replies).0;
            && r.past.overflows == s.past.overflows && r.past.oversized == s.past.oversized
            && r.past.gaps >= s.past.gaps
            && (r.past.gaps == s.past.gaps ==> r.past.packets == s.past.packets + Taken(g, s, replies))
    decreases |replies|
  {
    hide Inv, Append, Content, Judge, Verdict;
    if replies != [] && replies[0].Got? {
      var p := replies[0].packet;
      assert Fits(g, replies[0]);
      NoOverflow(g, s, p);
      AppendKept(g, s, p);
      var s' := Append(g, s, p);
      if Verdict(g, p) == Accepted && replies[0].released && s'.frames < g.period {
        DrainNeverOverflows(g, s', replies[1..]);
      }
    }
  }

  ghost function Polled(g: Geometry, s: Stage, interrupted: bool, replies: seq<Reply>): (r: (Stage, Poll))
    requires g.Valid() && Inv(g, s)
    ensures Inv(g, r.0)
  {
    if interrupted then (s, Interrupted) else
      PrepareKept(g, s);
      var s1 := Prepare(g, s);
      if s1.ready then (s1, Ready) else
        var (s2, end) := Drain(g, s1, replies);
        if end != NotReady then (s2, end) else
          PrepareKept(g, s2);
          var s3 := Prepare(g, s2);
          (s3, if s3.ready then Ready else NotReady)
  }

  // From pollReady, packets no longer than the device's buffer never overflow the
  // stage, and a poll that says ready hands out a staged period.
  lemma PollNeverOverflows(g: Geometry, s: Stage, interrupted: bool, replies: seq<Reply>)
    requires g.Valid() && Inv(g, s)
    requires forall i :: 0 <= i < |replies| ==> Fits(g, replies[i])
    ensures var (r, end) := Polled(g, s, interrupted, replies);
            && r.past.overflows == s.past.overflows && r.past.oversized == s.past.oversized
            && (end == Ready ==> r.ready && r.input <= r.staged)
            && (end == NotReady ==> !r.ready && r.frames < g.period)
  {
    hide Drain, Traced, Size;
    PrepareKept(g, s);
    var s1 := Prepare(g, s);
    if !s1.ready { DrainNeverOverflows(g, s1, replies); }
  }

  // -- The code --------------------------------------------------------------------------

  class CaptureStager {
    const g: Geometry
    const data: array<Byte>
    const input: array<Byte>
    var frames: nat
    var ready: bool
    var dropouts: nat
    var havePacket: bool
    var stagePosition: Option<Position>
    var expectedPosition: Option<Position>
    var activePosition: Option<Position>
    ghost var past: Past

    ghost predicate Shaped()
      reads this
    {
      && g.Valid() && data != input && data.Length == Size(g.capacity, g.blockAlign)
      && Size(frames, g.blockAlign) <= data.Length
    }

    ghost function Abs(): Stage
      requires Shaped()
      reads this, data, input
    {
      Stage(frames, ready, dropouts, havePacket, stagePosition, expectedPosition, activePosition,
            data[..Size(frames, g.blockAlign)], input[..], past)
    }

    ghost predicate Valid()
      reads this, data, input
    {
      Shaped() && Inv(g, Abs())
    }

    constructor (bufferFrames: nat, period: nat, blockAlign: nat)
      requires bufferFrames > 0 && period > 0 && blockAlign > 0
      ensures Valid() && fresh(data) && fresh(input)
      ensures g == Geometry(blockAlign, period, bufferFrames + period) && Abs() == Initial(g)
    {
      g := Geometry(blockAlign, period, bufferFrames + period);
      data := new Byte[Size(bufferFrames + period, blockAlign)](_ => 0);
      input := new Byte[Size(period, blockAlign)](_ => 0);
      frames, ready, dropouts, havePacket := 0, false, 0, false;
      stagePosition, expectedPosition, activePosition := None, None, None;
      past := Past([], [], [], [], 0, 0, 0);
      new;
      SizeZero(blockAlign);
      InvAtStart(g);
      assert Abs() == Initial(g);
    }

    method ResetStage()
      requires Shaped()
      modifies this`frames, this`ready, this`stagePosition, this`activePosition, this`past
      ensures Shaped() && Abs() == Emptied(old(Abs()))
    {
      SizeZero(g.blockAlign);
      frames, ready, stagePosition, activePosition := 0, false, None, None;
      past := past.(packets := [], committed := [], arrivals := [], agreed := []);
    }

    method Reset(clearPosition: bool)
      requires Valid()
      modifies this
      ensures Valid() && Abs() == ResetOf(old(Abs()), clearPosition)
    {
      ResetKept(g, Abs(), clearPosition);
      hide Inv;
      ResetStage();
      if clearPosition {
        expectedPosition, havePacket := None, false;
      }
    }

    // n bytes of memory from a on become zero.
    method Clear(a: nat, n: nat)
      requires a + n <= data.Length
      modifies data
      ensures data[..a + n] == old(data[..a]) + seq(n, _ => 0)
    {
      for k := 0 to n
        invariant forall i :: 0 <= i < data.Length ==> data[i] == if a <= i < a + k then 0 else old(data[i])
      {
        data[a + k] := 0;
      }
    }

    // Or the first n of a packet's.
    method Copy(a: nat, n: nat, packet: seq<Byte>)
      requires a + n <= data.Length && n <= |packet|
      modifies data
      ensures data[..a + n] == old(data[..a]) + packet[..n]
    {
      for k := 0 to n
        invariant forall i :: 0 <= i < data.Length ==>
                    data[i] == if a <= i < a + k then packet[i - a] else old(data[i])
      {
        data[a + k] := packet[k];
      }
    }

    method Store(p: Packet)
      requires Shaped() && data.Length == Size(g.capacity, g.blockAlign) && input != data
      requires Judge(p, g.blockAlign) == Accepted && frames + p.frames <= g.capacity
      modifies this, data
      ensures Shaped() && Abs() == Stored(g, old(Abs()), p)
    {
      SizeAdds(frames, p.frames, g.blockAlign);
      SizeGrows(frames + p.frames, g.capacity, g.blockAlign);
      hide Size, Arrivals, Arrival, BytesOf;
      ghost var s := Abs();
      var start, bytes := Size(frames, g.blockAlign), Size(p.frames, g.blockAlign);
      if p.silent {
        Clear(start, bytes);
      } else {
        Copy(start, bytes, p.data);
      }
      past := past.(packets := past.packets + [p], arrivals := past.arrivals + Arrivals(p),
                    agreed := past.agreed + Marks(p, Agrees(s, p)));
      stagePosition := if frames == 0 then Arrival(p, 0) else stagePosition;
      frames, expectedPosition, havePacket := frames + p.frames, Arrival(p, p.frames), true;
    }

    method CountGap()
      requires Shaped()
      modifies this`frames, this`ready, this`stagePosition, this`activePosition, this`past,
               this`dropouts, this`expectedPosition
      ensures Shaped() && Abs() == Broken(old(Abs()))
    {
      dropouts := dropouts + 1;
      ResetStage();
      expectedPosition, past := None, past.(gaps := past.gaps + 1);
    }

    method CountOversized()
      requires Shaped()
      modifies this`frames, this`ready, this`stagePosition, this`activePosition, this`past,
               this`dropouts, this`expectedPosition
      ensures Shaped() && Abs() == Oversized(old(Abs()))
    {
      dropouts := dropouts + 1;
      ResetStage();
      expectedPosition, past := None, past.(oversized := past.oversized + 1);
    }

    method CountOverflow()
      requires Shaped()
      modifies this`frames, this`ready, this`stagePosition, this`activePosition, this`past,
               this`dropouts, this`expectedPosition
      ensures Shaped() && Abs() == Overflowed(old(Abs()))
    {
      dropouts := dropouts + 1;
      ResetStage();
      expectedPosition, past := None, past.(overflows := past.overflows + 1);
    }

    method AppendPacket(p: Packet) returns (r: Refusal)
      requires Valid()
      modifies this, data
      ensures Valid() && r == Verdict(g, p) && Abs() == Append(g, old(Abs()), p)
    {
      AppendKept(g, Abs(), p);
      hide Inv, Size, Content, Stored, Broken, Oversized, Overflowed;
      if p.frames <= 0 || p.frames > MAX_INT / g.blockAlign {
        return BadGeometry;
      }
      if !p.silent && |p.data| < Size(p.frames, g.blockAlign) {
        return ShortPacket;
      }
      var discontinuity := havePacket && p.discontinuity;
      if !p.timestampError && expectedPosition.Some? && p.position != expectedPosition.value {
        discontinuity := true;
      }
      if discontinuity {
        CountGap();
      }
      if p.frames > g.capacity {
        CountOversized();
        return TooLarge;
      }
      if frames + p.frames > g.capacity {
        CountOverflow();
      }
      Store(p);
      return Accepted;
    }

    method PreparePeriod() returns (r: bool)
      requires Valid()
      modifies this`ready, this`activePosition, input
      ensures Size(g.period, g.blockAlign) <= |old(Abs()).staged| || old(frames) < g.period
      ensures Valid() && Abs() == Prepare(g, old(Abs())) && r == ready
    {
      PrepareKept(g, Abs());
      hide Size, Traced;
      if ready || frames < g.period {
        return ready;
      }
      for k := 0 to input.Length
        invariant input[..k] == data[..k]
      {
        input[k] := data[k];
      }
      activePosition, ready := stagePosition, true;
      return true;
    }

    // The n bytes at a move to the front.
    method Slide(a: nat, n: nat)
      requires a + n <= data.Length
      modifies data
      ensures data[..n] == old(data[a..a + n])
    {
      for k := 0 to n
        invariant forall i :: 0 <= i < data.Length ==> data[i] == if i < k then old(data[a + i]) else old(data[i])
      {
        data[k] := data[a + k];
      }
    }

    method CommitPeriod()
      requires Valid()
      modifies this, data
      ensures old(ready) ==> g.period <= old(frames) && Size(g.period, g.blockAlign) <= |old(Abs()).staged|
      ensures old(ready) ==> |old(past).arrivals| == |old(past).agreed| == old(frames)
      ensures Valid() && Abs() == Commit(g, old(Abs()))
    {
      CommitKept(g, Abs());
      if !ready {
        return;
      }
      ghost var s := Abs();
      SizeAdds(g.period, frames - g.period, g.blockAlign);
      hide Inv, Size;
      var bytes := Size(g.period, g.blockAlign);
      Slide(bytes, Size(frames, g.blockAlign) - bytes);
      frames := frames - g.period;
      if stagePosition.Some? {
        stagePosition := Some(Shift(stagePosition.value, g.period));
      }
      if frames == 0 {
        stagePosition := None;
      }
      past := past.(committed := past.committed + s.input,
                    arrivals := past.arrivals[g.period..], agreed := past.agreed[g.period..]);
      activePosition, ready := None, false;
    }

    // Take packets until the device has no more, fails, or a period is staged.
    method DrainPackets(replies: seq<Reply>) returns (end: Poll)
      requires Valid()
      modifies this, data
      ensures Valid() && (Abs(), end) == Drain(g, old(Abs()), replies)
    {
      hide Inv, Append, Verdict, Size;
      var i := 0;
      while i < |replies|
        invariant 0 <= i <= |replies|
        invariant Valid() && Drain(g, Abs(), replies[i..]) == Drain(g, old(Abs()), replies)
      {
        var reply := replies[i];
        i := i + 1;
        assert replies[i - 1..][1..] == replies[i..];
        if reply.NoPacket? || reply.BufferEmpty? {
          return NotReady;
        }
        if !reply.Got? {
          return Failed;
        }
        var refusal := AppendPacket(reply.packet);
        if refusal != Accepted || !reply.released {
          return Failed;
        }
        if frames >= g.period {
          return NotReady;
        }
      }
      return Waiting;
    }

    method PollReady(interrupted: bool, replies: seq<Reply>) returns (end: Poll)
      requires Valid()
      modifies this, data, input
      ensures Valid() && (Abs(), end) == Polled(g, old(Abs()), interrupted, replies)
    {
      hide Inv, Prepare, Drain, Size;
      if interrupted {
        return Interrupted;
      }
      var prepared := PreparePeriod();
      if prepared {
        return Ready;
      }
      end := DrainPackets(replies);
      if end != NotReady {
        return;
      }
      prepared := PreparePeriod();
      return if prepared then Ready else NotReady;
    }
  }

  // Geometry whose byte counts fit an int; anything else is refused.
  predicate Fitting(bufferFrames: nat, period: int, blockAlign: int, rate: int) {
    && bufferFrames > 0 && period > 0 && blockAlign > 0 && rate > 0
    && bufferFrames + period <= MAX_INT
    && Size(bufferFrames + period, blockAlign) <= MAX_INT
  }

  method NewCaptureStager(bufferFrames: nat, period: int, blockAlign: int, rate: int)
    returns (r: Option<CaptureStager>)
    requires period <= MAX_INT
    ensures r.Some? <==> Fitting(bufferFrames, period, blockAlign, rate)
    ensures r.Some? ==> fresh(r.value) && r.value.Valid() && r.value.Abs() == Initial(r.value.g)
                        && r.value.g == Geometry(blockAlign, period, bufferFrames + period)
  {
    if bufferFrames == 0 || period <= 0 || blockAlign <= 0 || rate <= 0 || bufferFrames > MAX_INT - period {
      return None;
    }
    var capacity := bufferFrames + period;
    QuotientBound(capacity, blockAlign);
    if capacity > MAX_INT / blockAlign || period > MAX_INT / blockAlign {
      return None;
    }
    var s := new CaptureStager(bufferFrames, period, blockAlign);
    return Some(s);
  }

  lemma QuotientBound(n: nat, blockAlign: nat)
    requires blockAlign > 0
    ensures n <= MAX_INT / blockAlign <==> Size(n, blockAlign) <= MAX_INT
  {
    var q := MAX_INT / blockAlign;
    if n <= q {
      SizeGrows(n, q, blockAlign);
    } else {
      SizeGrows(q + 1, n, blockAlign);
    }
  }
}
