/**
 A duplex stream's thread on the capture ring: it waits for frames, reads through
 the clock-bridging reader while callbacks go on, gives frames back, and recovers.
 Every atomic step of the callback and of the wait is one step, and so is every
 word a read takes from the ring.
 */
module CaptureReader {
  import opened Bits
  import opened InputReader
  import Rings
  import CaptureRing

  type Ring = CaptureRing.State

  // Where the stream thread is.
  datatype Thread =
    | Away
    | Testing(required: nat)          // wait: about to test the interrupt flag
    | Checking(required: nat)         // wait: about to load the status
    | Looking(required: nat)          // wait: about to load head
    | Blocked(required: nat)          // wait: in the semaphore wait
    | Waited(required: nat)           // wait returned nil
    // A read with this head and clock: the frames written, the samples of the next
    // one, and the filter sum of the next sample over its first taps.
    | Reading(head: nat, c: Clock, out: seq<seq<Word>>, row: seq<Word>, sum: real, taps: nat)
    | Recovering(to: nat)             // Recover: about to store tail

  // Where the thread that interrupts is: it raises the flag, then signals.
  datatype Waker = Quiet | Raised | Signalled

  // A read that is over: its head and clock, the origin and whether room had been
  // tested out of reach by then, and the period it wrote.
  datatype Done = Done(head: nat, c: Clock, origin: nat, wrapped: bool, out: seq<seq<Word>>)

  datatype State = State(
    ring: Ring, thread: Thread,
    // The reader: its clock, the frame it was reset at, whether it has read since.
    clock: Clock, origin: nat, started: bool,
    // The stream: whether Start is over, whether the queue ran full.
    primed: bool, queueReset: bool,
    interrupted: bool, waker: Waker,
    // History: the reads that are over.
    done: seq<Done>)

  function Initial(shape: CaptureRing.Shape): State {
    State(CaptureRing.Initial(shape), Away, Clock(0.0, 0.0), 0, false, false, false, false, Quiet, [])
  }

  datatype Step =
    | ByCallback(e: CaptureRing.Step)     // or by the reader of the timestamp
    | Call(required: nat) | TestFlag | LoadStatus | LoadHead | TakeSignal | WokenAnyway | GiveUp
    | Prime | Overrun | Begin | LoadWord | StoreSample | StoreFrame | Finish
    | Recover | StoreRecovered
    | RaiseFlag | SignalInterrupt

  // A reader on a ring of its capacity, and the queue length that a read gives up at.
  datatype Parameters = Parameters(g: Setup, shape: CaptureRing.Shape, maxQueue: int) {
    predicate Valid() {
      && g.Valid() && Aimed(g) && shape.Valid() && shape.capacity == g.capacity
      && maxQueue + TAPS / 2 >= 2 * g.target
    }
  }

  type Setting = k: Parameters | k.Valid() ghost witness AnyParameters()

  // One frame at a time, from a clock of the same rate.
  ghost function AnyParameters(): (k: Parameters)
    ensures k.Valid()
  {
    var g := Setup(16384, 1, 1, 1, 1, 67, seq((PHASES + 1) * TAPS, _ => 0.0), _ => 0.0, _ => 0);
    assert Span(g) == 1.0 && Ceil(1.0) == 1;
    Parameters(g, CaptureRing.Shape(16384, 4096), 70)
  }

  // The queue length that a duplex stream allows.
  function MaxQueueFor(g: Setup, deviceFrames: nat): (queue: int)
    requires g.Valid()
    ensures var beyond := queue - g.target;
            && beyond >= 4 * deviceFrames && beyond >= 4 * Ceil(Span(g))
            && (beyond == 4 * deviceFrames || beyond == 4 * Ceil(Span(g)))
  {
    var four := 4 * Ceil(Span(g));
    g.target + if 4 * deviceFrames > four then 4 * deviceFrames else four
  }

  lemma SettingFits(g: Setup, shape: CaptureRing.Shape, deviceFrames: nat)
    requires g.Valid() && g.target == TargetFor(g, deviceFrames)
    requires shape.Valid() && shape.capacity == g.capacity
    ensures Parameters(g, shape, MaxQueueFor(g, deviceFrames)).Valid()
  {
    TargetAims(g, deviceFrames);
    hide Span;
  }

  predicate QueueFull(k: Setting, s: State) {
    s.started && s.ring.head as real - s.clock.phase > k.maxQueue as real
  }

  // Wait's own wait is over.
  predicate Ready(k: Setting, s: State)
  {
    s.thread.Waited? && s.primed && s.thread.required == Required(k.g, s.clock.phase)
  }

  // The phase of the frame being written.
  function At(k: Setting, t: Thread): real
    requires t.Reading?
  {
    PhaseAt(k.g, t.c, t.head, |t.out|)
  }

  // Whether its words are copied rather than interpolated.
  predicate Copies(g: Setup, at: real) {
    g.inputRate == g.outputRate && at - at.Floor as real < 0.000000000001
  }

  predicate InSample(k: Setting, t: Thread) {
    t.Reading? && |t.out| < k.g.period && |t.row| < k.g.channels
  }

  predicate Enabled(k: Setting, s: State, e: Step)
  {
    match e
    case ByCallback(b) => !b.StoreTail? && CaptureRing.Enabled(k.shape, s.ring, b)
    case Call(_) => s.thread.Away?
    case TestFlag => s.thread.Testing?
    case LoadStatus => s.thread.Checking?
    case LoadHead => s.thread.Looking?
    case TakeSignal => s.thread.Blocked? && s.ring.sem > 0
    case WokenAnyway => s.thread.Blocked?
    case GiveUp => s.thread.Blocked?
    case Prime => s.thread.Waited? && !s.primed && s.thread.required == k.g.target
    case Overrun => Ready(k, s) && QueueFull(k, s)
    case Begin => Ready(k, s) && !QueueFull(k, s)
    case LoadWord => InSample(k, s.thread) && s.thread.taps < TAPS && |s.ring.ring| == k.g.capacity
    case StoreSample => InSample(k, s.thread) && s.thread.taps == TAPS && !Copies(k.g, At(k, s.thread))
    case StoreFrame => s.thread.Reading? && |s.thread.out| < k.g.period && |s.thread.row| == k.g.channels
    case Finish => s.thread.Reading? && |s.thread.out| == k.g.period
    case Recover => s.thread.Away? && s.primed
    case StoreRecovered => s.thread.Recovering?
    case RaiseFlag => s.waker.Quiet?
    case SignalInterrupt => s.waker.Raised?
  }

  // Word ch of a frame.
  function WordOf(f: CaptureRing.Frame, ch: nat): Word {
    f / Pow2(32 * ch) % Pow2(32)
  }

  // The word in the slot of word ch of frame p.
  function Load(g: Setup, ring: seq<CaptureRing.Frame>, p: int, ch: nat): Word
    requires |ring| == g.capacity && g.Valid()
  {
    WordOf(ring[p % g.capacity], ch)
  }

  // The clock a read begins with.
  function Begins(g: Setup, s: State, head: nat): Clock {
    Clock(BeginsAt(g, s.clock.phase, s.started, head), if s.started then s.clock.filteredError else 0.0)
  }

  // One word: the next sample itself, or one tap of its filter sum.
  function Loaded(k: Setting, s: State): Thread
    requires Enabled(k, s, LoadWord)
  {
    var t := s.thread;
    var at := At(k, t);
    var (pos, ch) := (at.Floor, |t.row|);
    if Copies(k.g, at) then t.(row := t.row + [Load(k.g, s.ring.ring, pos, ch)], sum := 0.0, taps := 0)
    else
      var p := pos + t.taps - TAPS / 2 + 1;
      t.(taps := t.taps + 1,
         sum := t.sum + if p < s.origin then 0.0
                        else Weighted(k.g, Load(k.g, s.ring.ring, p, ch), at - pos as real, t.taps))
  }

  function Apply(k: Setting, s: State, e: Step): State
    requires Enabled(k, s, e)
  {
    match e
    case ByCallback(b) => s.(ring := CaptureRing.Apply(k.shape, s.ring, b))
    case Call(required) => s.(thread := Testing(required))
    case TestFlag => s.(thread := if s.interrupted then Away else Checking(s.thread.required))
    case LoadStatus => s.(thread := if s.ring.status != 0 then Away else Looking(s.thread.required))
    case LoadHead =>
      var required := s.thread.required;
      s.(thread := if s.ring.head >= required then Waited(required) else Blocked(required))
    case TakeSignal => s.(thread := Testing(s.thread.required), ring := s.ring.(sem := s.ring.sem - 1))
    case WokenAnyway => s.(thread := Testing(s.thread.required))
    case GiveUp => s.(thread := Away)
    // Start moves the phase once the wait for the target is over.
    case Prime =>
      s.(thread := Away, primed := true,
         clock := s.clock.(phase := BeginsAt(k.g, s.clock.phase, false, s.ring.head)))
    case Overrun => s.(thread := Away, queueReset := true)
    case Begin => s.(thread := Reading(s.ring.head, Begins(k.g, s, s.ring.head), [], [], 0.0, 0))
    case LoadWord => s.(thread := Loaded(k, s))
    case StoreSample =>
      s.(thread := s.thread.(row := s.thread.row + [k.g.encode(s.thread.sum)], sum := 0.0, taps := 0))
    case StoreFrame => s.(thread := s.thread.(out := s.thread.out + [s.thread.row], row := [], sum := 0.0, taps := 0))
    // The read is over: its tail is stored.
    case Finish =>
      var Reading(head, c, out, _, _, _) := s.thread;
      var next := Advance(k.g, c, head);
      s.(thread := Away, clock := next, started := true, ring := CaptureRing.GiveBack(s.ring, TailAt(next.phase)),
         done := s.done + [Done(head, c, s.origin, s.ring.wrapped, out)])
    // The reader starts anew.
    case Recover =>
      var to := RecoveredAt(k.g, s.ring.head, s.queueReset);
      s.(thread := Recovering(to), clock := Clock(to as real, 0.0), origin := to, started := false,
         queueReset := false)
    case StoreRecovered => s.(thread := Away, ring := CaptureRing.GiveBack(s.ring, s.thread.to))
    case RaiseFlag => s.(waker := Raised, interrupted := true)
    case SignalInterrupt => s.(waker := Signalled, ring := s.ring.(sem := s.ring.sem + 1))
  }

  // The state after a schedule; a step that is not enabled is skipped.
  function Run(k: Setting, s: State, steps: seq<Step>): State
    decreases |steps|
  {
    if steps == [] then s
    else if Enabled(k, s, steps[0]) then Run(k, Apply(k, s, steps[0]), steps[1..])
    else Run(k, s, steps[1..])
  }

  // -- Where the tail is ---------------------------------------------------------------

  // A read has gone at least this far since the reader was reset.
  ghost predicate Beyond(g: Setup, origin: nat, phase: real) {
    origin as real + (TAPS / 2) as real <= phase + g.target as real
  }

  ghost predicate ReaderOk(k: Setting, s: State)
  {
    && s.clock.phase >= 0.0 && s.origin <= s.ring.head
    && (s.queueReset ==> QueueFull(k, s))
    && (!s.primed ==> !s.started && s.origin == 0)
    && (if s.started then StartedOk(k, s) else FreshOk(s))
    && ThreadOk(k, s)
  }

  // Once it has read, tail is where the last read left it.
  ghost predicate StartedOk(k: Setting, s: State) {
    && Beyond(k.g, s.origin, s.clock.phase) && s.ring.tail == TailAt(s.clock.phase)
    && s.ring.top <= CaptureRing.Later(s.origin, TailAt(s.clock.phase))
  }

  // Before, tail is where the reader was reset, and so is the phase, unless Start
  // moved it.
  ghost predicate FreshOk(s: State) {
    && s.origin as real <= s.clock.phase && (s.origin > 0 ==> s.clock.phase == s.origin as real)
    && s.ring.top <= s.origin && (!s.thread.Recovering? ==> s.ring.tail == s.ring.top == s.origin)
  }

  ghost predicate ThreadOk(k: Setting, s: State)
  {
    match s.thread
    case Waited(required) => required <= s.ring.head
    case Reading(head, c, _, _, _, _) =>
      && s.primed && !s.queueReset
      && s.origin <= head <= s.ring.head && c == Begins(k.g, s, head) && Beyond(k.g, s.origin, c.phase)
      && Covered(k.g, c, head) && Advance(k.g, c, head).phase.Floor + TAPS / 2 < head
    case Recovering(to) => !s.started && to == s.origin
    case _ => true
  }

  ghost predicate InterruptPending(s: State) {
    s.ring.sem > 0 || s.waker.Raised?
  }

  ghost predicate CallbackPending(s: State) {
    s.ring.sem > 0 || s.ring.writer.Signalling?
  }

  ghost predicate WakeOk(s: State) {
    && (s.waker.Quiet? <==> !s.interrupted)
    && (s.interrupted && (s.thread.Checking? || s.thread.Looking? || s.thread.Blocked?) ==> InterruptPending(s))
    && (s.ring.status != 0 && (s.thread.Looking? || s.thread.Blocked?) ==>
          CallbackPending(s) || s.ring.writer.Dropping?)
    && (s.thread.Blocked? && s.ring.head >= s.thread.required ==> CallbackPending(s))
  }

  // -- What a read has so far ------------------------------------------------------------

  // The frames the callbacks published, word by word.
  function Published(g: Setup, frames: seq<CaptureRing.Frame>): (history: Capture)
    ensures |history| == |frames| && Framed(history, g.channels)
  {
    seq(|frames|, p requires 0 <= p < |frames| =>
      seq(g.channels, ch requires 0 <= ch < g.channels => WordOf(frames[p], ch)))
  }

  // No packet was tested for room out of reach, and at equal rates the read does not
  // begin before the frame the reader was reset at.
  predicate Good(g: Setup, wrapped: bool, origin: nat, c: Clock) {
    !wrapped && (g.inputRate == g.outputRate ==> origin <= c.phase.Floor)
  }

  // The frames, samples and taps so far are those of this history.
  ghost predicate SoFar(g: Setup, history: Capture, origin: nat, t: Thread)
    requires g.Valid() && t.Reading? && Framed(history, g.channels) && Covered(g, t.c, t.head) && t.head <= |history|
  {
    && |t.out| <= g.period && t.out == Heard(g, history, origin, t.c, t.head)[..|t.out|]
    && (|t.out| < g.period ==>
          var at := PhaseAt(g, t.c, t.head, |t.out|);
          && |t.row| <= g.channels && t.row == FrameAt(g, history, origin, at)[..|t.row|]
          && (|t.row| < g.channels ==>
                && t.taps <= TAPS
                && t.sum == TapSum(g, history, origin, at.Floor, at - at.Floor as real, |t.row|, t.taps)))
  }

  ghost predicate ReadOk(k: Setting, s: State)
  {
    s.thread.Reading? && Good(k.g, s.ring.wrapped, s.origin, s.thread.c) ==>
      && Covered(k.g, s.thread.c, s.thread.head) && s.thread.head <= |CaptureRing.Concat(s.ring.packets)|
      && SoFar(k.g, Published(k.g, CaptureRing.Concat(s.ring.packets)[..s.thread.head]), s.origin, s.thread)
  }

  // A period is the one that the reader's specification makes of the frames
  // published below the head it loaded.
  ghost predicate Delivered(g: Setup, frames: seq<CaptureRing.Frame>, d: Done)
    requires g.Valid()
  {
    && d.head <= |frames| && Covered(g, d.c, d.head)
    && d.out == Heard(g, Published(g, frames[..d.head]), d.origin, d.c, d.head)
  }

  ghost predicate ReadsOk(k: Setting, s: State)
  {
    forall d :: d in s.done && Good(k.g, d.wrapped, d.origin, d.c) ==>
      Delivered(k.g, CaptureRing.Concat(s.ring.packets), d)
  }

  ghost predicate Inv(k: Setting, s: State)
  {
    CaptureRing.Inv(k.shape, s.ring) && ReaderOk(k, s) && WakeOk(s) && ReadOk(k, s) && ReadsOk(k, s)
  }

  // -- The ring and the reader ---------------------------------------------------------------

  // What the reader and the wait need to know of a callback's step.
  lemma CallbackStep(k: Setting, r: Ring, b: CaptureRing.Step)
    requires !b.StoreTail? && CaptureRing.Enabled(k.shape, r, b)
    ensures var r' := CaptureRing.Apply(k.shape, r, b);
            && r'.tail == r.tail && r'.top == r.top && r'.head >= r.head && r'.sem >= r.sem
            && (r'.head != r.head ==> r'.writer.Signalling?)
            && (r'.status != r.status ==> r'.writer.Dropping?)
            && (r.writer.Signalling? ==> r'.sem > 0 || r'.writer.Signalling?)
            && (r.writer.Dropping? ==> r'.writer.Dropping? || r'.writer.Signalling?)
  {}

  lemma RingKept(k: Setting, s: State, e: Step)
    requires Inv(k, s) && Enabled(k, s, e)
    ensures CaptureRing.Inv(k.shape, Apply(k, s, e).ring)
  {
    hide WakeOk, ReadOk, ReadsOk, CaptureRing.Inv, CaptureRing.Apply, Required, Covered, Advance, Aimed, Loaded;
    match e
    case ByCallback(b) => CaptureRing.InvKept(k.shape, s.ring, b);
    case TakeSignal => SameButSignals(k, s.ring, s.ring.sem - 1);
    case SignalInterrupt => SameButSignals(k, s.ring, s.ring.sem + 1);
    case Finish => TailStored(k, s);
    case StoreRecovered => GivenBack(k, s.ring, s.thread.to);
    case _ =>
  }

  lemma SameButSignals(k: Setting, r: Ring, sem: nat)
    requires CaptureRing.Inv(k.shape, r)
    ensures CaptureRing.Inv(k.shape, r.(sem := sem))
  {}

  lemma GivenBack(k: Setting, r: Ring, to: nat)
    requires CaptureRing.Inv(k.shape, r) && to <= r.head
    ensures CaptureRing.Inv(k.shape, CaptureRing.GiveBack(r, to))
  {
    hide CaptureRing.Inv;
    CaptureRing.InvKept(k.shape, r, CaptureRing.StoreTail(to));
  }

  // The tail that a read stores is behind head.
  lemma TailStored(k: Setting, s: State)
    requires CaptureRing.Inv(k.shape, s.ring) && ThreadOk(k, s) && s.thread.Reading?
    ensures var next := Advance(k.g, s.thread.c, s.thread.head);
            && next.phase >= s.thread.c.phase && TailAt(s.thread.c.phase) <= TailAt(next.phase) <= s.ring.head
            && CaptureRing.Inv(k.shape, CaptureRing.GiveBack(s.ring, TailAt(next.phase)))
  {
    hide CaptureRing.Inv, Advance, Aimed;
    TailIsSafe(k.g, s.thread.c, s.thread.head);
    GivenBack(k, s.ring, TailAt(Advance(k.g, s.thread.c, s.thread.head).phase));
  }

  lemma ReaderKept(k: Setting, s: State, e: Step)
    requires Inv(k, s) && Enabled(k, s, e)
    ensures ReaderOk(k, Apply(k, s, e))
  {
    hide WakeOk, ReadOk, ReadsOk, CaptureRing.Inv, CaptureRing.Apply, Required, Covered, Advance, Aimed, Loaded;
    match e
    case ByCallback(b) => CallbackStep(k, s.ring, b);
    case Begin => BeginCovered(k, s);
    case Finish => FinishSettled(k, s);
    case Recover => RecoverAhead(k, s);
    case LoadWord => SameRead(k, s);
    case _ =>
  }

  lemma FinishSettled(k: Setting, s: State)
    requires Inv(k, s) && Enabled(k, s, Finish)
    ensures ReaderOk(k, Apply(k, s, Finish))
  {
    hide WakeOk, ReadOk, ReadsOk, CaptureRing.Inv, Covered, Advance, Aimed;
    TailStored(k, s);
  }

  lemma SameRead(k: Setting, s: State)
    requires Enabled(k, s, LoadWord)
    ensures var t := Loaded(k, s); t.Reading? && t.c == s.thread.c && t.head == s.thread.head
  {}

  lemma BeginCovered(k: Setting, s: State)
    requires ReaderOk(k, s) && Enabled(k, s, Begin)
    ensures ReaderOk(k, Apply(k, s, Begin))
  {
    hide Covered, Advance;
    var t := Apply(k, s, Begin).thread;
    if !s.started && s.ring.head > k.g.target {
      MovedPhaseIsCovered(k.g, t.c, t.head);
    } else {
      RequiredCovers(k.g, t.c, t.head);
    }
    hide Aimed;
    RequiredBeyond(k.g, s.clock.phase);
    assert Aimed(k.g);
  }

  lemma RequiredBeyond(g: Setup, phase: real)
    requires g.Valid()
    ensures Required(g, phase) as real >= phase + (TAPS / 2) as real
  {
    Positive(g.period as real, g.Ratio());
    hide Setup.Ratio, Times;
  }

  // A recovery never stores a tail before one that was stored, even where the queue
  // ran full: the queue is longer than the distance it goes back by then.
  lemma RecoverAhead(k: Setting, s: State)
    requires Inv(k, s) && s.thread.Away?
    ensures var to := RecoveredAt(k.g, s.ring.head, s.queueReset); s.ring.top <= to <= s.ring.head
  {
    hide WakeOk, ReadOk, ReadsOk, Ceil, Span;
    assert Aimed(k.g);
  }

  // Steps of the wait, and of the thread that interrupts.
  predicate OfWait(e: Step) {
    || e.Call? || e.TestFlag? || e.LoadStatus? || e.LoadHead? || e.TakeSignal? || e.WokenAnyway? || e.GiveUp?
    || e.RaiseFlag? || e.SignalInterrupt?
  }

  lemma WakeInWait(k: Setting, s: State, e: Step)
    requires WakeOk(s) && Enabled(k, s, e) && OfWait(e)
    ensures WakeOk(Apply(k, s, e))
  {}

  // No other step of the stream thread leaves it in the wait.
  lemma WakeOutside(k: Setting, s: State, e: Step)
    requires WakeOk(s) && Enabled(k, s, e) && !OfWait(e) && !e.ByCallback?
    ensures WakeOk(Apply(k, s, e))
  {
    hide Loaded, RecoveredAt, BeginsAt, Begins, Copies, PhaseAt, TailAt, Advance, Required, QueueFull;
    if e.LoadWord? { SameRead(k, s); }
  }

  lemma WakeKept(k: Setting, s: State, e: Step)
    requires Inv(k, s) && Enabled(k, s, e)
    ensures WakeOk(Apply(k, s, e))
  {
    hide ReaderOk, ReadOk, ReadsOk, CaptureRing.Inv, CaptureRing.Apply, WakeOk, Enabled;
    if e.ByCallback? {
      WakeByCallback(k, s, e.e);
    } else if OfWait(e) {
      WakeInWait(k, s, e);
    } else {
      WakeOutside(k, s, e);
    }
  }

  lemma WakeByCallback(k: Setting, s: State, b: CaptureRing.Step)
    requires WakeOk(s) && Enabled(k, s, ByCallback(b))
    ensures WakeOk(s.(ring := CaptureRing.Apply(k.shape, s.ring, b)))
  {
    CallbackStep(k, s.ring, b);
    hide CaptureRing.Apply, CaptureRing.Enabled;
  }

  // -- The words of a read ---------------------------------------------------------------------

  lemma PrefixNext<T>(a: seq<T>, whole: seq<T>, x: T)
    requires |a| < |whole| && a == whole[..|a|] && x == whole[|a|]
    ensures a + [x] == whole[..|a| + 1]
  {}

  lemma Began(g: Setup, history: Capture, origin: nat, head: nat, c: Clock)
    requires g.Valid() && Framed(history, g.channels) && Covered(g, c, head) && head <= |history|
    ensures SoFar(g, history, origin, Reading(head, c, [], [], 0.0, 0))
  {
    hide Heard, FrameAt, Framed;
    HeardAt(g, history, origin, c, head, 0);
  }

  lemma TapTaken(g: Setup, history: Capture, origin: nat, t: Thread)
    requires g.Valid() && t.Reading? && Framed(history, g.channels) && Covered(g, t.c, t.head) && t.head <= |history|
    requires SoFar(g, history, origin, t) && |t.out| < g.period && |t.row| < g.channels && t.taps < TAPS
    ensures var at := PhaseAt(g, t.c, t.head, |t.out|);
            var p := at.Floor + t.taps - TAPS / 2 + 1;
            && p < |history|
            && SoFar(g, history, origin, t.(taps := t.taps + 1,
                 sum := t.sum + if p < origin then 0.0
                                else Weighted(g, history[p][|t.row|], at - at.Floor as real, t.taps)))
  {
    HeardAt(g, history, origin, t.c, t.head, |t.out|);
    hide Heard, FrameAt, Covered, Weighted, PhaseAt;
  }

  lemma SampleCopied(g: Setup, history: Capture, origin: nat, t: Thread)
    requires g.Valid() && t.Reading? && Framed(history, g.channels) && Covered(g, t.c, t.head) && t.head <= |history|
    requires SoFar(g, history, origin, t) && |t.out| < g.period && |t.row| < g.channels
    requires Copies(g, PhaseAt(g, t.c, t.head, |t.out|))
    ensures var pos := PhaseAt(g, t.c, t.head, |t.out|).Floor;
            && 0 <= pos < |history|
            && SoFar(g, history, origin, t.(row := t.row + [history[pos][|t.row|]], sum := 0.0, taps := 0))
  {
    HeardAt(g, history, origin, t.c, t.head, |t.out|);
    hide Heard, Covered, PhaseAt;
    var at := PhaseAt(g, t.c, t.head, |t.out|);
    PrefixNext(t.row, FrameAt(g, history, origin, at), history[at.Floor][|t.row|]);
  }

  lemma SampleSummed(g: Setup, history: Capture, origin: nat, t: Thread)
    requires g.Valid() && t.Reading? && Framed(history, g.channels) && Covered(g, t.c, t.head) && t.head <= |history|
    requires SoFar(g, history, origin, t) && |t.out| < g.period && |t.row| < g.channels && t.taps == TAPS
    requires !Copies(g, PhaseAt(g, t.c, t.head, |t.out|))
    ensures SoFar(g, history, origin, t.(row := t.row + [g.encode(t.sum)], sum := 0.0, taps := 0))
  {
    HeardAt(g, history, origin, t.c, t.head, |t.out|);
    hide Heard, Covered, PhaseAt;
    var at := PhaseAt(g, t.c, t.head, |t.out|);
    PrefixNext(t.row, FrameAt(g, history, origin, at), g.encode(t.sum));
  }

  lemma FrameWritten(g: Setup, history: Capture, origin: nat, t: Thread)
    requires g.Valid() && t.Reading? && Framed(history, g.channels) && Covered(g, t.c, t.head) && t.head <= |history|
    requires SoFar(g, history, origin, t) && |t.out| < g.period && |t.row| == g.channels
    ensures SoFar(g, history, origin, t.(out := t.out + [t.row], row := [], sum := 0.0, taps := 0))
  {
    HeardAt(g, history, origin, t.c, t.head, |t.out|);
    if |t.out| + 1 < g.period { HeardAt(g, history, origin, t.c, t.head, |t.out| + 1); }
    hide Heard, Covered, PhaseAt, FrameAt;
    var frame := FrameAt(g, history, origin, PhaseAt(g, t.c, t.head, |t.out|));
    assert frame[..g.channels] == frame;
    PrefixNext(t.out, Heard(g, history, origin, t.c, t.head), t.row);
  }

  // While a read is good, what it loads is what was published.
  lemma LoadRight(k: Setting, s: State, p: nat, ch: nat)
    requires CaptureRing.Inv(k.shape, s.ring) && !s.ring.wrapped
    requires s.ring.top <= p < s.ring.head && ch < k.g.channels
    ensures |s.ring.ring| == k.g.capacity && p < |CaptureRing.Concat(s.ring.packets)|
    ensures Load(k.g, s.ring.ring, p, ch) == WordOf(CaptureRing.Concat(s.ring.packets)[p], ch)
  {
    CaptureRing.TopHeld(k.shape, s.ring);
    hide CaptureRing.WriterOk, CaptureRing.FateOk, CaptureRing.LockOk, CaptureRing.LogOk, CaptureRing.ClockOk, WordOf;
  }

  // The frames published below the head that a read loaded.
  function Below(g: Setup, r: Ring, head: nat): (history: Capture)
    requires head <= |CaptureRing.Concat(r.packets)|
    ensures |history| == head && Framed(history, g.channels)
  {
    Published(g, CaptureRing.Concat(r.packets)[..head])
  }

  lemma BelowIs(g: Setup, r: Ring, head: nat, p: nat, ch: nat)
    requires p < head <= |CaptureRing.Concat(r.packets)| && ch < g.channels
    ensures Below(g, r, head)[p][ch] == WordOf(CaptureRing.Concat(r.packets)[p], ch)
  {
    hide WordOf;
  }

  // No callback changes them.
  lemma BelowStays(k: Setting, r: Ring, b: CaptureRing.Step, n: nat)
    requires CaptureRing.Inv(k.shape, r) && CaptureRing.Enabled(k.shape, r, b) && n <= r.head
    ensures var r' := CaptureRing.Apply(k.shape, r, b);
            && n <= |CaptureRing.Concat(r.packets)| && n <= |CaptureRing.Concat(r'.packets)|
            && CaptureRing.Concat(r'.packets)[..n] == CaptureRing.Concat(r.packets)[..n]
            && (r.wrapped ==> r'.wrapped)
  {
    hide CaptureRing.WriterOk, CaptureRing.FateOk, CaptureRing.LockOk, CaptureRing.LogOk, CaptureRing.ClockOk;
    hide CaptureRing.Intact, CaptureRing.Concat, CaptureRing.Room, CaptureRing.StoreField, CaptureRing.LoadOne;
    hide Rings.Piece;
    if b.StoreHead? { CaptureRing.ConcatOne(r.packets, r.writer.packet); }
  }

  lemma ReadKept(k: Setting, s: State, e: Step)
    requires Inv(k, s) && Enabled(k, s, e)
    ensures ReadOk(k, Apply(k, s, e))
  {
    hide WakeOk, ReadsOk, SoFar, CaptureRing.Inv, CaptureRing.Apply, CaptureRing.Concat;
    hide Required, Covered, Advance, Aimed, Published, Loaded;
    match e
    case ByCallback(b) => BelowStays(k, s.ring, b, if s.thread.Reading? then s.thread.head else 0);
    case Begin => BeginKept(k, s);
    case LoadWord => LoadKept(k, s);
    case StoreSample =>
      if Good(k.g, s.ring.wrapped, s.origin, s.thread.c) {
        SampleSummed(k.g, Below(k.g, s.ring, s.thread.head), s.origin, s.thread);
      }
    case StoreFrame =>
      if Good(k.g, s.ring.wrapped, s.origin, s.thread.c) {
        FrameWritten(k.g, Below(k.g, s.ring, s.thread.head), s.origin, s.thread);
      }
    case _ =>
  }

  lemma BeginKept(k: Setting, s: State)
    requires Inv(k, s) && Enabled(k, s, Begin)
    ensures ReadOk(k, Apply(k, s, Begin))
  {
    BeginCovered(k, s);
    assert s.ring.head <= |CaptureRing.Concat(s.ring.packets)|;
    hide WakeOk, ReadsOk, SoFar, CaptureRing.Inv, CaptureRing.Concat, Required, Covered, Advance, Aimed, Published;
    Began(k.g, Below(k.g, s.ring, s.ring.head), s.origin, s.ring.head, Begins(k.g, s, s.ring.head));
  }

  // Every frame that a good read may touch lies at or behind the greatest tail.
  lemma TouchedIsKept(k: Setting, s: State, p: int)
    requires ReaderOk(k, s) && s.thread.Reading?
    requires Good(k.g, s.ring.wrapped, s.origin, s.thread.c)
    requires var floor := s.thread.c.phase.Floor;
             && floor - (TAPS / 2 - 1) <= p
             && (s.origin <= p || (k.g.inputRate == k.g.outputRate && floor <= p))
    ensures s.ring.top <= p
  {
    hide Covered, Advance;
  }

  lemma PhaseWithin(k: Setting, s: State)
    requires ReaderOk(k, s) && s.thread.Reading? && |s.thread.out| < k.g.period
    ensures var (c, at) := (s.thread.c, At(k, s.thread));
            && at >= c.phase >= 0.0 && c.phase.Floor <= at.Floor && at.Floor + TAPS / 2 < s.thread.head <= s.ring.head
  {
    hide Advance, PhaseAt;
  }

  lemma LoadKept(k: Setting, s: State)
    requires Inv(k, s) && Enabled(k, s, LoadWord)
    ensures ReadOk(k, Apply(k, s, LoadWord))
  {
    hide SoFar, CaptureRing.Inv, CaptureRing.Concat, ReaderOk, WakeOk, ReadsOk, Loaded, Copies;
    hide Weighted, PhaseAt, Covered, Load, Advance, Required, TapSum, Published, Framed;
    SameRead(k, s);
    if Good(k.g, s.ring.wrapped, s.origin, s.thread.c) {
      var t := s.thread;
      if Copies(k.g, At(k, t)) {
        SampleCopied(k.g, Below(k.g, s.ring, t.head), s.origin, t);
        CopyRight(k, s);
      } else {
        TapTaken(k.g, Below(k.g, s.ring, t.head), s.origin, t);
        TapRight(k, s);
      }
    }
  }

  lemma CopyRight(k: Setting, s: State)
    requires Inv(k, s) && Enabled(k, s, LoadWord) && Copies(k.g, At(k, s.thread))
    requires Good(k.g, s.ring.wrapped, s.origin, s.thread.c)
    ensures s.thread.head <= |CaptureRing.Concat(s.ring.packets)|
    ensures var t := s.thread;
            var pos := At(k, t).Floor;
            && 0 <= pos < t.head
            && Loaded(k, s) == t.(row := t.row + [Below(k.g, s.ring, t.head)[pos][|t.row|]], sum := 0.0, taps := 0)
  {
    hide SoFar, CaptureRing.Inv, CaptureRing.Concat, WakeOk, ReadsOk, ReaderOk, Weighted, PhaseAt, Covered, Load;
    hide Below;
    var t, at := s.thread, At(k, s.thread);
    PhaseWithin(k, s);
    TouchedIsKept(k, s, at.Floor);
    LoadRight(k, s, at.Floor, |t.row|);
    BelowIs(k.g, s.ring, t.head, at.Floor, |t.row|);
  }

  lemma TapRight(k: Setting, s: State)
    requires Inv(k, s) && Enabled(k, s, LoadWord) && !Copies(k.g, At(k, s.thread))
    requires Good(k.g, s.ring.wrapped, s.origin, s.thread.c)
    ensures s.thread.head <= |CaptureRing.Concat(s.ring.packets)|
    ensures var (t, at) := (s.thread, At(k, s.thread));
            var p := at.Floor + t.taps - TAPS / 2 + 1;
            && p < t.head
            && Loaded(k, s) == t.(taps := t.taps + 1,
                 sum := t.sum + if p < s.origin then 0.0
                                else Weighted(k.g, Below(k.g, s.ring, t.head)[p][|t.row|],
                                              at - at.Floor as real, t.taps))
  {
    hide SoFar, CaptureRing.Inv, CaptureRing.Concat, WakeOk, ReadsOk, ReaderOk, Weighted, PhaseAt, Covered, Load;
    hide Below, Copies;
    var t, at := s.thread, At(k, s.thread);
    PhaseWithin(k, s);
    var p := at.Floor + t.taps - TAPS / 2 + 1;
    if p >= s.origin {
      TouchedIsKept(k, s, p);
      LoadRight(k, s, p, |t.row|);
      BelowIs(k.g, s.ring, t.head, p, |t.row|);
    }
  }

  // -- What the reads delivered ------------------------------------------------------------------

  lemma DeliveredStays(k: Setting, r: Ring, b: CaptureRing.Step, d: Done)
    requires CaptureRing.Inv(k.shape, r) && CaptureRing.Enabled(k.shape, r, b)
    requires Delivered(k.g, CaptureRing.Concat(r.packets), d)
    ensures Delivered(k.g, CaptureRing.Concat(CaptureRing.Apply(k.shape, r, b).packets), d)
  {
    assert |CaptureRing.Concat(r.packets)| == r.head;
    hide CaptureRing.Inv, CaptureRing.Apply, CaptureRing.Concat, Covered, Heard, Published, Framed;
    BelowStays(k, r, b, d.head);
  }

  lemma ReadsKept(k: Setting, s: State, e: Step)
    requires Inv(k, s) && Enabled(k, s, e)
    ensures ReadsOk(k, Apply(k, s, e))
  {
    hide WakeOk, ReaderOk, SoFar, CaptureRing.Inv, CaptureRing.Apply, CaptureRing.Concat;
    hide Required, Covered, Advance, Aimed, Published, Loaded, Delivered, Good;
    match e
    case ByCallback(b) =>
      forall d | d in s.done && Delivered(k.g, CaptureRing.Concat(s.ring.packets), d)
        ensures Delivered(k.g, CaptureRing.Concat(CaptureRing.Apply(k.shape, s.ring, b).packets), d)
      {
        DeliveredStays(k, s.ring, b, d);
      }
    case Finish =>
      if Good(k.g, s.ring.wrapped, s.origin, s.thread.c) { PeriodDelivered(k, s); }
    case _ =>
  }

  lemma PeriodDelivered(k: Setting, s: State)
    requires Inv(k, s) && Enabled(k, s, Finish) && Good(k.g, s.ring.wrapped, s.origin, s.thread.c)
    ensures Delivered(k.g, CaptureRing.Concat(s.ring.packets),
                      Done(s.thread.head, s.thread.c, s.origin, s.ring.wrapped, s.thread.out))
  {
    hide WakeOk, ReaderOk, CaptureRing.Inv, CaptureRing.Concat, Covered, Published, Framed, Heard, FrameAt, TapSum;
    var whole := Heard(k.g, Below(k.g, s.ring, s.thread.head), s.origin, s.thread.c, s.thread.head);
    assert whole[..k.g.period] == whole;
  }

  lemma InvKept(k: Setting, s: State, e: Step)
    requires Inv(k, s) && Enabled(k, s, e)
    ensures Inv(k, Apply(k, s, e))
  {
    hide CaptureRing.Inv, ReaderOk, WakeOk, ReadOk, ReadsOk, Apply, Enabled;
    RingKept(k, s, e);
    ReaderKept(k, s, e);
    WakeKept(k, s, e);
    ReadKept(k, s, e);
    ReadsKept(k, s, e);
  }

  lemma {:induction false} InvAlways(k: Setting, s: State, steps: seq<Step>)
    requires Inv(k, s)
    ensures Inv(k, Run(k, s, steps))
    decreases |steps|
  {
    hide Inv, Apply, Enabled;
    if steps != [] {
      var e := steps[0];
      if Enabled(k, s, e) {
        InvKept(k, s, e);
        InvAlways(k, Apply(k, s, e), steps[1..]);
      } else {
        InvAlways(k, s, steps[1..]);
      }
    }
  }

  lemma InvReached(k: Setting, steps: seq<Step>)
    ensures Inv(k, Run(k, Initial(k.shape), steps))
  {
    hide Run;
    CaptureRing.InvReached(k.shape, []);
    CaptureRing.RunNone(k.shape, CaptureRing.Initial(k.shape));
    hide CaptureRing.Inv;
    InvAlways(k, Initial(k.shape), steps);
  }

  // -- What holds after every schedule ------------------------------------------------

  // No lost wake-up: a wait that is blocked although enough frames are there, a
  // callback failed, or it was interrupted, has a signal waiting for it or one that
  // the callback or the interrupting thread is about to send.
  lemma NoLostWakeUp(k: Setting, steps: seq<Step>)
    ensures var s := Run(k, Initial(k.shape), steps);
            s.thread.Blocked?
            && (s.ring.head >= s.thread.required || s.ring.status != 0 || s.interrupted) ==>
              || s.ring.sem > 0 || s.waker.Raised?
              || s.ring.writer.Dropping? || s.ring.writer.Signalling?
  {
    hide Run, CaptureRing.Inv, ReaderOk, ReadOk, ReadsOk;
    InvReached(k, steps);
  }

  // The ring's memory, word by word.
  function Memory(g: Setup, ring: seq<CaptureRing.Frame>): (data: seq<Word>)
    requires g.Valid() && |ring| == g.capacity
    ensures |data| == g.capacity * g.channels
  {
    seq(g.capacity * g.channels, i requires 0 <= i < g.capacity * g.channels =>
      FrameOf(i, g.channels, g.capacity);
      WordOf(ring[i / g.channels], i % g.channels))
  }

  lemma MemoryAt(g: Setup, ring: seq<CaptureRing.Frame>, p: nat, ch: nat)
    requires g.Valid() && |ring| == g.capacity && ch < g.channels
    ensures Memory(g, ring)[SlotOf(g, p, ch)] == Load(g, ring, p, ch)
  {
    InFrame(p % g.capacity, ch, g.channels, g.capacity);
    hide WordOf;
  }

  // From the callback to the reader: at every moment of every read, whatever the
  // callbacks do beside it and however often the stream recovered, the memory of the
  // ring holds the published words of every frame the read touches, so long as no
  // packet was tested for room out of reach and, at equal rates, the read does not
  // begin before the frame the reader was reset at. That is what Reader.Read needs.
  lemma ReadsPublishedWords(k: Setting, steps: seq<Step>)
    ensures var s := Run(k, Initial(k.shape), steps);
            s.thread.Reading? && Good(k.g, s.ring.wrapped, s.origin, s.thread.c) ==>
              var (head, c) := (s.thread.head, s.thread.c);
              && |s.ring.ring| == k.g.capacity && head <= |CaptureRing.Concat(s.ring.packets)|
              && Covered(k.g, c, head)
              && Held(k.g, Memory(k.g, s.ring.ring), Below(k.g, s.ring, head), s.origin, c.phase.Floor, head)
  {
    hide Run, CaptureRing.Inv, CaptureRing.Concat, WakeOk, ReadsOk, Covered, Advance;
    InvReached(k, steps);
    var s := Run(k, Initial(k.shape), steps);
    if s.thread.Reading? && Good(k.g, s.ring.wrapped, s.origin, s.thread.c) { GoodIsHeld(k, s); }
  }

  lemma GoodIsHeld(k: Setting, s: State)
    requires CaptureRing.Inv(k.shape, s.ring) && ReaderOk(k, s)
    requires s.thread.Reading? && Good(k.g, s.ring.wrapped, s.origin, s.thread.c)
    ensures |s.ring.ring| == k.g.capacity && s.thread.head <= |CaptureRing.Concat(s.ring.packets)|
    ensures Held(k.g, Memory(k.g, s.ring.ring), Below(k.g, s.ring, s.thread.head), s.origin,
                 s.thread.c.phase.Floor, s.thread.head)
  {
    assert |CaptureRing.Concat(s.ring.packets)| == s.ring.head && |s.ring.ring| == k.g.capacity;
    hide CaptureRing.Inv, CaptureRing.Concat, SlotOf, Memory, Load, Below, Covered, Advance, ReaderOk;
    var (floor, head) := (s.thread.c.phase.Floor, s.thread.head);
    forall p: nat, ch: nat {:trigger Memory(k.g, s.ring.ring)[SlotOf(k.g, p, ch)]}
      | floor - (TAPS / 2 - 1) <= p < head && ch < k.g.channels
        && (s.origin <= p || (k.g.inputRate == k.g.outputRate && floor <= p))
      ensures Memory(k.g, s.ring.ring)[SlotOf(k.g, p, ch)] == Below(k.g, s.ring, head)[p][ch]
    {
      TouchedIsKept(k, s, p);
      LoadRight(k, s, p, ch);
      BelowIs(k.g, s.ring, head, p, ch);
      MemoryAt(k.g, s.ring.ring, p, ch);
    }
  }

  // From the callback to the output: every period that such a read delivered, word
  // by word while callbacks went on, is the period that the reader's specification
  // makes of the frames published below the head it had loaded.
  lemma EveryPeriodDelivered(k: Setting, steps: seq<Step>, i: nat)
    requires i < |Run(k, Initial(k.shape), steps).done|
    ensures var s := Run(k, Initial(k.shape), steps);
            var d := s.done[i];
            Good(k.g, d.wrapped, d.origin, d.c) ==> Delivered(k.g, CaptureRing.Concat(s.ring.packets), d)
  {
    hide Run, CaptureRing.Inv, CaptureRing.Concat, WakeOk, ReaderOk, ReadOk, Delivered;
    InvReached(k, steps);
    assert Run(k, Initial(k.shape), steps).done[i] in Run(k, Initial(k.shape), steps).done;
  }

  // The period of a first read after a recovery is too short for its tail to get past
  // the one the recovery stored.
  ghost predicate FallsShort(g: Setup, origin: nat, head: nat)
    requires g.Valid()
  {
    && origin > 0
    && if head > g.target then head - g.target + Span(g).Floor < origin + TAPS / 2
       else Times(g.period as real, StepOf(g, Clock(origin as real, 0.0), head)) < (TAPS / 2) as real
  }

  // The tail a read is about to store lies before the one there exactly if it is the
  // first since a recovery and falls short.
  lemma FinishMovesBack(k: Setting, s: State)
    requires ReaderOk(k, s) && s.thread.Reading?
    ensures var (c, head) := (s.thread.c, s.thread.head);
            TailAt(Advance(k.g, c, head).phase) < s.ring.tail <==> !s.started && FallsShort(k.g, s.origin, head)
  {
    hide Advance, Covered, StepOf, Span, Times, TailAt, Beyond;
    var c, head := s.thread.c, s.thread.head;
    if s.started {
      TailIsSafe(k.g, c, head);
    } else if s.origin > 0 {
      TailMovesBack(k.g, s.origin, head, false);
    }
  }

  lemma TailStep(k: Setting, s: State, e: Step)
    requires Inv(k, s) && Enabled(k, s, e)
    ensures var r := Apply(k, s, e);
            && r.ring.tail <= r.ring.head
            && (r.ring.tail < s.ring.tail <==> e.Finish? && !s.started && FallsShort(k.g, s.origin, s.thread.head))
  {
    hide CaptureRing.Apply, Advance, Aimed, Required, Covered, FallsShort, Loaded;
    assert s.ring.tail <= s.ring.top && s.ring.tail <= s.ring.head;
    hide CaptureRing.Inv, WakeOk, ReadOk, ReadsOk;
    match e
    case ByCallback(b) => CallbackStep(k, s.ring, b);
    case Finish =>
      TailStored(k, s);
      FinishMovesBack(k, s);
    case _ =>
  }

  // Over any run, tail stays behind head, and a step moves it back exactly if it ends
  // the first read since a recovery and that read falls short.
  lemma TailMovesForward(k: Setting, steps: seq<Step>, e: Step)
    requires Enabled(k, Run(k, Initial(k.shape), steps), e)
    ensures var s := Run(k, Initial(k.shape), steps);
            var r := Apply(k, s, e);
            && r.ring.tail <= r.ring.head
            && (r.ring.tail < s.ring.tail <==> e.Finish? && !s.started && FallsShort(k.g, s.origin, s.thread.head))
  {
    hide Run, Inv, Enabled, Apply, FallsShort;
    InvReached(k, steps);
    TailStep(k, Run(k, Initial(k.shape), steps), e);
  }

  // No first read since a recovery falls short.
  ghost predicate NeverShort(k: Setting, s: State, steps: seq<Step>)
    decreases |steps|
  {
    steps == [] ||
    (if !Enabled(k, s, steps[0]) then NeverShort(k, s, steps[1..])
     else
       && (steps[0].Finish? && !s.started ==> !FallsShort(k.g, s.origin, s.thread.head))
       && NeverShort(k, Apply(k, s, steps[0]), steps[1..]))
  }

  lemma InReachStep(k: Setting, s: State, e: Step)
    requires Enabled(k, s, e) && (e.Finish? && !s.started ==> !FallsShort(k.g, s.origin, s.thread.head))
    requires Inv(k, s) && !s.ring.wrapped && s.ring.tail == s.ring.top
    ensures var r := Apply(k, s, e); !r.ring.wrapped && r.ring.tail == r.ring.top
  {
    TailStep(k, s, e);
    hide CaptureRing.Apply, Advance, Aimed, Required, Covered, FallsShort, Loaded;
    hide CaptureRing.Inv, WakeOk, ReadOk, ReadsOk;
    match e
    case ByCallback(b) => CaptureRing.ForwardStep(k.shape, s.ring, b);
    case _ =>
  }

  // However often the stream recovers: while no first read falls short, room is never
  // tested out of reach and tail never moves back, so all that is unread stays.
  lemma {:induction false} ReachKept(k: Setting, s: State, steps: seq<Step>)
    requires Inv(k, s) && !s.ring.wrapped && s.ring.tail == s.ring.top && NeverShort(k, s, steps)
    ensures var r := Run(k, s, steps).ring;
            && !r.wrapped && r.tail == r.top && r.head <= r.tail + k.shape.capacity
            && Rings.Holds(r.ring, CaptureRing.Concat(r.packets), r.tail, r.head)
    decreases |steps|
  {
    hide Inv, Apply, Enabled, FallsShort, CaptureRing.Concat;
    if steps == [] {
      assert CaptureRing.Inv(k.shape, s.ring) by { RingPart(k, s); }
      CaptureRing.TopHeld(k.shape, s.ring);
    } else {
      var e := steps[0];
      if Enabled(k, s, e) {
        InvKept(k, s, e);
        InReachStep(k, s, e);
        ReachKept(k, Apply(k, s, e), steps[1..]);
      } else {
        ReachKept(k, s, steps[1..]);
      }
    }
  }

  lemma RingPart(k: Setting, s: State)
    requires Inv(k, s)
    ensures CaptureRing.Inv(k.shape, s.ring)
  {}

  // -- Runs without a recovery ------------------------------------------------------------------

  predicate NoRecovery(steps: seq<Step>) {
    forall e :: e in steps ==> !e.Recover?
  }

  ghost predicate Plain(s: State) {
    && s.origin == 0 && !s.thread.Recovering? && s.ring.tail == s.ring.top && !s.ring.wrapped
    && (!s.started ==> Integral(s.clock.phase))
    && forall d :: d in s.done ==> d.origin == 0 && !d.wrapped && d.c.phase >= 0.0
  }

  // Each read begins with the clock that the one before it left.
  ghost predicate Chain(g: Setup, done: seq<Done>)
    requires g.Valid()
  {
    && forall i :: 0 < i < |done| ==> done[i].c == Advance(g, done[i - 1].c, done[i - 1].head)
  }

  ghost predicate Linked(k: Setting, s: State)
  {
    && (s.started <==> s.done != []) && Chain(k.g, s.done)
    && (s.done != [] ==>
          && s.clock == Advance(k.g, s.done[|s.done| - 1].c, s.done[|s.done| - 1].head)
          && Integral(s.done[0].c.phase) && s.done[0].c.phase >= 0.0 && s.done[0].c.filteredError == 0.0)
  }

  lemma PlainKept(k: Setting, s: State, e: Step)
    requires Inv(k, s) && Plain(s) && Enabled(k, s, e) && !e.Recover?
    ensures Plain(Apply(k, s, e))
  {
    hide WakeOk, ReadOk, ReadsOk, CaptureRing.Inv, CaptureRing.Apply, Required, Covered, Advance, Loaded, Beyond;
    match e
    case ByCallback(b) =>
      CaptureRing.ForwardStep(k.shape, s.ring, b);
      CallbackStep(k, s.ring, b);
    case Finish => TailStored(k, s);
    case LoadWord => SameRead(k, s);
    case _ =>
  }

  lemma LinkedKept(k: Setting, s: State, e: Step)
    requires Inv(k, s) && Plain(s) && Linked(k, s) && Enabled(k, s, e) && !e.Recover?
    ensures Linked(k, Apply(k, s, e))
  {
    hide WakeOk, ReadOk, ReadsOk, CaptureRing.Inv, CaptureRing.Apply, Required, Covered, Advance, Loaded, Beyond;
    hide TailAt, FreshOk, StartedOk;
  }

  lemma {:induction false} PlainRun(k: Setting, s: State, steps: seq<Step>)
    requires Inv(k, s) && Plain(s) && Linked(k, s) && NoRecovery(steps)
    ensures var r := Run(k, s, steps); Inv(k, r) && Plain(r) && Linked(k, r)
    decreases |steps|
  {
    hide Inv, Apply, Enabled, Plain, Linked;
    if steps != [] {
      var e := steps[0];
      if Enabled(k, s, e) {
        InvKept(k, s, e);
        PlainKept(k, s, e);
        LinkedKept(k, s, e);
        PlainRun(k, Apply(k, s, e), steps[1..]);
      } else {
        PlainRun(k, s, steps[1..]);
      }
    }
  }

  lemma PlainReached(k: Setting, steps: seq<Step>)
    requires NoRecovery(steps)
    ensures var s := Run(k, Initial(k.shape), steps); Inv(k, s) && Plain(s) && Linked(k, s)
  {
    InvReached(k, []);
    assert Run(k, Initial(k.shape), []) == Initial(k.shape);
    WholeIsIntegral(0);
    hide Run, Inv;
    PlainRun(k, Initial(k.shape), steps);
  }

  // Until a recovery no packet is ever tested for room out of reach, and every period
  // is the one the specification makes of what was published.
  lemma PlainIsDelivered(k: Setting, steps: seq<Step>)
    requires NoRecovery(steps)
    ensures var s := Run(k, Initial(k.shape), steps);
            && !s.ring.wrapped
            && forall d :: d in s.done ==> d.origin == 0 && Delivered(k.g, CaptureRing.Concat(s.ring.packets), d)
  {
    hide Run, CaptureRing.Inv, CaptureRing.Concat, WakeOk, ReaderOk, ReadOk, Linked;
    PlainReached(k, steps);
    var s := Run(k, Initial(k.shape), steps);
    hide Delivered;
    assert forall d :: d in s.done ==> Good(k.g, d.wrapped, d.origin, d.c);
  }

  // -- Bit-exact runs ------------------------------------------------------------------------------

  // The periods of some reads, one behind the other.
  function Joined(done: seq<Done>): seq<seq<Word>> {
    if done == [] then [] else Joined(done[..|done| - 1]) + done[|done| - 1].out
  }

  // A period copied from the frames below a head is copied from the frames.
  lemma CopyOfMore(g: Setup, frames: seq<CaptureRing.Frame>, head: nat, out: seq<seq<Word>>, from: nat, n: nat)
    requires head <= |frames| && IsRun(out, Published(g, frames[..head]), from, n)
    ensures IsRun(out, Published(g, frames), from, n)
  {
    if n > 0 {
      assert Published(g, frames[..head])[from..from + n] == Published(g, frames)[from..from + n];
    }
  }

  // Every read found a queue error below two frames.
  ghost predicate Balanced(g: Setup, done: seq<Done>) {
    forall d :: d in done ==> Magnitude(QueueError(g, d.c, d.head)) < 2.0
  }

  ghost predicate AllDelivered(g: Setup, frames: seq<CaptureRing.Frame>, done: seq<Done>)
    requires g.Valid()
  {
    forall d :: d in done ==> Delivered(g, frames, d)
  }

  // These periods are one stretch of the frames, beginning where the first read does.
  ghost predicate OneStretch(g: Setup, frames: seq<CaptureRing.Frame>, done: seq<Done>, n: nat) {
    n <= |done| && done != [] && done[0].c.phase >= 0.0
    && IsRun(Joined(done[..n]), Published(g, frames), done[0].c.phase.Floor, Frames(g, n))
  }

  // The clock after n reads, if each was a copy.
  predicate OnTime(g: Setup, from: nat, c: Clock, n: nat) {
    c.phase == (from + Frames(g, n)) as real && Integral(c.phase) && Magnitude(c.filteredError) < 2.0
  }

  lemma {:induction false} PeriodsJoin(g: Setup, frames: seq<CaptureRing.Frame>, done: seq<Done>, n: nat)
    requires g.Valid() && g.inputRate == g.outputRate && 0 < |done| && n <= |done| && Chain(g, done)
    requires AllDelivered(g, frames, done) && Balanced(g, done)
    requires done[0].c.phase >= 0.0 && OnTime(g, done[0].c.phase.Floor, done[0].c, 0)
    ensures OneStretch(g, frames, done, n)
    ensures n < |done| ==> OnTime(g, done[0].c.phase.Floor, done[n].c, n)
  {
    hide Delivered, IsRun, QueueError, Magnitude, Advance, Heard, Integral, Chain, Published;
    var from := done[0].c.phase.Floor;
    if n == 0 {
      assert done[..0] == [];
      NoFrames(g, Published(g, frames), from);
    } else {
      PeriodsJoin(g, frames, done, n - 1);
      OneMore(g, frames, done, n - 1);
    }
  }

  lemma OneMore(g: Setup, frames: seq<CaptureRing.Frame>, done: seq<Done>, n: nat)
    requires g.Valid() && g.inputRate == g.outputRate && n < |done| && Chain(g, done)
    requires Delivered(g, frames, done[n]) && Magnitude(QueueError(g, done[n].c, done[n].head)) < 2.0
    requires OneStretch(g, frames, done, n) && OnTime(g, done[0].c.phase.Floor, done[n].c, n)
    ensures OneStretch(g, frames, done, n + 1)
    ensures n + 1 < |done| ==> OnTime(g, done[0].c.phase.Floor, done[n + 1].c, n + 1)
  {
    var from, d := done[0].c.phase.Floor, done[n];
    WholeIsIntegral(from + Frames(g, n));
    FramesAdd(g, n + 1);
    SteadyStep(g, d.c, d.head);
    hide Integral, Magnitude, QueueError, Frames, Advance, StepOf;
    PeriodCopied(g, frames, d);
    hide Delivered, Heard, IsRun, Published, Covered;
    assert done[..n + 1][..n] == done[..n];
    RunsJoin(Joined(done[..n]), d.out, Published(g, frames), from, Frames(g, n), g.period);
  }

  lemma PeriodCopied(g: Setup, frames: seq<CaptureRing.Frame>, d: Done)
    requires g.Valid() && g.inputRate == g.outputRate && Delivered(g, frames, d)
    requires Integral(d.c.phase) && Magnitude(d.c.filteredError) < 2.0
    requires Magnitude(QueueError(g, d.c, d.head)) < 2.0
    ensures d.c.phase >= 0.0 && IsRun(d.out, Published(g, frames), d.c.phase.Floor, g.period)
  {
    assert Covered(g, d.c, d.head);
    hide Integral, Magnitude, QueueError, IsRun, Heard, Framed, Published;
    assert d.c.phase >= 0.0;
    hide Covered;
    HeardRun(g, Published(g, frames[..d.head]), d.origin, d.c, d.head);
    CopyOfMore(g, frames, d.head, d.out, d.c.phase.Floor, g.period);
  }

  // At equal rates, in a run without a recovery whose reads all find a queue error
  // below two frames, the periods delivered are one stretch of the frames that the
  // callbacks published, bit for bit, none twice and none left out.
  lemma BitExactRun(k: Setting, steps: seq<Step>)
    requires NoRecovery(steps) && k.g.inputRate == k.g.outputRate
    requires Balanced(k.g, Run(k, Initial(k.shape), steps).done)
    ensures var s := Run(k, Initial(k.shape), steps);
            s.done != [] ==> OneStretch(k.g, CaptureRing.Concat(s.ring.packets), s.done, |s.done|)
  {
    hide Run, Inv, Delivered, QueueError, OneStretch, Chain, CaptureRing.Concat;
    PlainReached(k, steps);
    PlainIsDelivered(k, steps);
    var s := Run(k, Initial(k.shape), steps);
    if s.done != [] {
      FirstOnTime(k.g, s.done[0].c);
      PeriodsJoin(k.g, CaptureRing.Concat(s.ring.packets), s.done, |s.done|);
    }
  }

  lemma FirstOnTime(g: Setup, c: Clock)
    requires c.phase >= 0.0 && Integral(c.phase) && c.filteredError == 0.0
    ensures OnTime(g, c.phase.Floor, c, 0)
  {}
}
