/**
 The reader that bridges the capture clock to the render clock. Positions,
 errors and coefficients are reals; samples are words that equal-rate reading
 copies bit for bit and interpolation decodes and encodes.
 */
module InputReader {
  import opened Bits

  const TAPS: nat := 128
  const PHASES: nat := 1024

  type Word = int

  // The capture: frame p, channel ch.
  type Capture = seq<seq<Word>>

  datatype Setup = Setup(
    capacity: nat, channels: nat, period: nat, inputRate: nat, outputRate: nat, target: nat,
    coeff: seq<real>, decode: Word -> real, encode: real -> Word)
  {
    predicate Valid() {
      && capacity > 0 && channels > 0 && period > 0 && inputRate > 0 && outputRate > 0
      && |coeff| == (PHASES + 1) * TAPS
    }

    function Ratio(): (r: real)
      requires Valid()
      ensures r > 0.0
    {
      inputRate as real / outputRate as real
    }
  }

  function Min(a: real, b: real): real { if a < b then a else b }

  function Max(a: real, b: real): real { if a > b then a else b }

  function Magnitude(a: real): real { if a < 0.0 then -a else a }

  function Ceil(x: real): int { -(-x).Floor }

  // -- What one read computes ------------------------------------------------------------

  datatype Clock = Clock(phase: real, filteredError: real)

  // The queue error: how far the capture is ahead of the target.
  function QueueError(g: Setup, c: Clock, head: nat): real {
    head as real - c.phase - g.target as real
  }

  function Alpha(g: Setup): (a: real)
    requires g.Valid()
    ensures 0.0 < a <= 0.01
  {
    Min(0.01, g.period as real / g.outputRate as real / 2.0)
  }

  function Filtered(g: Setup, c: Clock, head: nat): real
    requires g.Valid()
  {
    c.filteredError + Times(Alpha(g), QueueError(g, c, head) - c.filteredError)
  }

  function Adjust(g: Setup, filteredError: real): (a: real)
    requires g.Valid()
    ensures -0.001 <= a <= 0.001
  {
    if Magnitude(filteredError) < 2.0 then 0.0
    else Max(-0.001, Min(0.001, filteredError / (g.inputRate as real * 4.0)))
  }

  function Adjusted(ratio: real, adjust: real): real {
    ratio * (1.0 + adjust)
  }

  function StepOf(g: Setup, c: Clock, head: nat): real
    requires g.Valid()
  {
    Adjusted(g.Ratio(), Adjust(g, Filtered(g, c, head)))
  }

  function Times(a: real, b: real): real {
    a * b
  }

  // The capture frames that a period of output stands for.
  function Span(g: Setup): real
    requires g.Valid()
  {
    Times(g.period as real, g.Ratio())
  }

  // The phase of output frame k of a read.
  function PhaseAt(g: Setup, c: Clock, head: nat, k: nat): real
    requires g.Valid()
  {
    c.phase + Times(k as real, StepOf(g, c, head))
  }

  lemma PhaseNext(g: Setup, c: Clock, head: nat, k: nat)
    requires g.Valid()
    ensures PhaseAt(g, c, head, 0) == c.phase
    ensures PhaseAt(g, c, head, k + 1) == PhaseAt(g, c, head, k) + StepOf(g, c, head)
  {
    var step := StepOf(g, c, head);
    hide StepOf;
    assert Times((k + 1) as real, step) == Times(k as real, step) + step;
  }

  function Advance(g: Setup, c: Clock, head: nat): Clock
    requires g.Valid()
  {
    Clock(PhaseAt(g, c, head, g.period), Filtered(g, c, head))
  }

  function Required(g: Setup, phase: real): int
    requires g.Valid()
  {
    Ceil(phase + Span(g) * 1.002) + TAPS / 2 + 2
  }

  // The oldest frame the next read still needs, less one.
  function TailAt(phase: real): nat {
    if phase < (TAPS / 2) as real then 0 else phase.Floor - TAPS / 2
  }

  ghost predicate Framed(history: Capture, channels: nat) {
    forall p :: 0 <= p < |history| ==> |history[p]| == channels
  }

  // Coefficient j between two phases of the filter.
  function Coefficient(g: Setup, frac: real, j: nat): real
    requires g.Valid() && 0.0 <= frac < 1.0 && j < TAPS
  {
    var p := (frac * PHASES as real).Floor;
    CoefficientIndex(frac, j);
    var c := g.coeff[p * TAPS + j];
    c + (frac * PHASES as real - p as real) * (g.coeff[(p + 1) * TAPS + j] - c)
  }

  lemma CoefficientIndex(frac: real, j: nat)
    requires 0.0 <= frac < 1.0 && j < TAPS
    ensures var p := (frac * PHASES as real).Floor; 0 <= p < PHASES && (p + 1) * TAPS + j < (PHASES + 1) * TAPS
  {
    var p := (frac * PHASES as real).Floor;
    assert 0.0 <= frac * PHASES as real < PHASES as real;
  }

  // What a word contributes at a tap.
  function Weighted(g: Setup, word: Word, frac: real, j: nat): real
    requires g.Valid() && 0.0 <= frac < 1.0 && j < TAPS
  {
    g.decode(word) * Coefficient(g, frac, j)
  }

  // The first n taps around frame pos; frames from before origin are silence.
  function TapSum(g: Setup, history: Capture, origin: nat, pos: int, frac: real, ch: nat, n: nat): real
    requires g.Valid() && ch < g.channels && Framed(history, g.channels) && 0.0 <= frac < 1.0
    requires n <= TAPS && pos + TAPS / 2 < |history|
  {
    if n == 0 then 0.0 else
      var at := pos + (n - 1) - TAPS / 2 + 1;
      TapSum(g, history, origin, pos, frac, ch, n - 1) +
        (if at < origin then 0.0 else Weighted(g, history[at][ch], frac, n - 1))
  }

  // One output sample at a phase.
  function SampleAt(g: Setup, history: Capture, origin: nat, phase: real, ch: nat): Word
    requires g.Valid() && ch < g.channels && Framed(history, g.channels)
    requires phase >= 0.0 && phase.Floor + TAPS / 2 < |history|
  {
    var pos := phase.Floor;
    var frac := phase - pos as real;
    if g.inputRate == g.outputRate && frac < 0.000000000001 then history[pos][ch]
    else g.encode(TapSum(g, history, origin, pos, frac, ch, TAPS))
  }

  // One output frame at a phase.
  function FrameAt(g: Setup, history: Capture, origin: nat, phase: real): (frame: seq<Word>)
    requires g.Valid() && Framed(history, g.channels)
    requires phase >= 0.0 && phase.Floor + TAPS / 2 < |history|
    ensures |frame| == g.channels
  {
    seq(g.channels, ch requires 0 <= ch < g.channels => SampleAt(g, history, origin, phase, ch))
  }

  // -- What the filter does --------------------------------------------------------------------

  // A coefficient lies on the line between those of the two phases around it.
  lemma CoefficientBlends(g: Setup, p: nat, b: real, j: nat)
    requires g.Valid() && p < PHASES && 0.0 <= b < 1.0 && j < TAPS
    ensures var frac := (p as real + b) / PHASES as real;
            0.0 <= frac < 1.0 && p * TAPS + j < |g.coeff| && (p + 1) * TAPS + j < |g.coeff|
            && Coefficient(g, frac, j) ==
               g.coeff[p * TAPS + j] + b * (g.coeff[(p + 1) * TAPS + j] - g.coeff[p * TAPS + j])
  {
    var frac := (p as real + b) / PHASES as real;
    assert frac * PHASES as real == p as real + b && (p as real + b).Floor == p;
    CoefficientIndex(frac, j);
  }

  // A filter that lets one tap through.
  ghost predicate Impulse(g: Setup, tap: nat)
    requires g.Valid()
  {
    forall p, j {:trigger g.coeff[p * TAPS + j]} :: 0 <= p <= PHASES && 0 <= j < TAPS ==>
      0 <= p * TAPS + j < |g.coeff| && g.coeff[p * TAPS + j] == if j == tap then 1.0 else 0.0
  }

  lemma ImpulseAt(g: Setup, tap: nat, frac: real, j: nat)
    requires g.Valid() && Impulse(g, tap) && 0.0 <= frac < 1.0 && j < TAPS
    ensures Coefficient(g, frac, j) == if j == tap then 1.0 else 0.0
  {
    var p := (frac * PHASES as real).Floor;
    CoefficientIndex(frac, j);
    assert g.coeff[p * TAPS + j] == g.coeff[(p + 1) * TAPS + j];
  }

  // With it a sample is the frame that tap stands for: tap 63 the one at the phase, the
  // taps before it the frames before, those behind it the frames behind; a frame from
  // before the origin is silence.
  lemma {:induction false} TapsInPlace(g: Setup, history: Capture, origin: nat, pos: int, frac: real, ch: nat, tap: nat, n: nat)
    requires g.Valid() && ch < g.channels && Framed(history, g.channels) && 0.0 <= frac < 1.0
    requires n <= TAPS && pos + TAPS / 2 < |history| && Impulse(g, tap) && tap < TAPS
    ensures var at := pos + tap - 63;
            TapSum(g, history, origin, pos, frac, ch, n) ==
            if n <= tap || at < origin then 0.0 else g.decode(history[at][ch])
    decreases n
  {
    if n > 0 {
      TapsInPlace(g, history, origin, pos, frac, ch, tap, n - 1);
      ImpulseAt(g, tap, frac, n - 1);
      hide Coefficient, Impulse;
    }
  }

  // -- Bounds on the phase ------------------------------------------------------------------

  lemma Scale(a: real, b: real, k: real)
    requires a <= b && k >= 0.0
    ensures k * a <= k * b
  {}

  // The step is within a tenth of a percent of the ratio.
  lemma StepBounds(g: Setup, c: Clock, head: nat)
    requires g.Valid()
    ensures g.Ratio() * 0.999 <= StepOf(g, c, head) <= g.Ratio() * 1.001
    ensures StepOf(g, c, head) > 0.0
  {
    var adjust := Adjust(g, Filtered(g, c, head));
    hide Filtered, Adjust, Adjusted;
    NearOne(g.Ratio(), adjust);
    hide Setup.Ratio;
  }

  lemma NearOne(ratio: real, adjust: real)
    requires ratio > 0.0 && -0.001 <= adjust <= 0.001
    ensures ratio * 0.999 <= Adjusted(ratio, adjust) <= ratio * 1.001 && Adjusted(ratio, adjust) > 0.0
  {
    Scale(0.999, 1.0 + adjust, ratio);
    Scale(1.0 + adjust, 1.001, ratio);
  }

  // One read advances the phase by the period times the ratio, within a tenth of
  // a percent.
  lemma PhaseBounds(g: Setup, c: Clock, head: nat)
    requires g.Valid()
    ensures c.phase + Span(g) * 0.999 <= Advance(g, c, head).phase <= c.phase + Span(g) * 1.001
  {
    StepBounds(g, c, head);
    hide StepOf, Setup.Ratio, Filtered, Times;
    Nominal(g.period as real, StepOf(g, c, head), g.Ratio());
  }

  lemma Nominal(period: real, step: real, ratio: real)
    requires period >= 0.0 && ratio * 0.999 <= step <= ratio * 1.001
    ensures Times(period, ratio) * 0.999 <= Times(period, step) <= Times(period, ratio) * 1.001
  {
    Scale(ratio * 0.999, step, period);
    Scale(step, ratio * 1.001, period);
    Associate(period, ratio, 0.999);
    Associate(period, ratio, 1.001);
  }

  lemma FloorBelowCeil(x: real, y: real)
    requires x <= y
    ensures x.Floor <= Ceil(y)
  {}

  // k steps stay below the bound that the required count is made from.
  lemma StepsBound(g: Setup, c: Clock, head: nat, k: nat)
    requires g.Valid() && k <= g.period
    ensures 0.0 <= Times(k as real, StepOf(g, c, head)) <= Span(g) * 1.002
  {
    StepBounds(g, c, head);
    hide StepOf, Times, Setup.Ratio;
    StepsArithmetic(k as real, g.period as real, StepOf(g, c, head), g.Ratio());
  }

  lemma StepsArithmetic(k: real, period: real, step: real, ratio: real)
    requires 0.0 <= k <= period && 0.0 < step <= ratio * 1.001 && ratio > 0.0
    ensures 0.0 <= Times(k, step) <= Times(period, ratio) * 1.002
  {
    Scale(0.0, k, step);
    Scale(k, period, step);
    Scale(step, ratio * 1.002, period);
    Associate(period, ratio, 1.002);
  }

  lemma Associate(a: real, b: real, c: real)
    ensures a * (b * c) == a * b * c
  {}

  // With head at least the required count, every frame a read touches is below it.
  lemma WithinHead(g: Setup, c: Clock, head: nat, k: nat)
    requires g.Valid() && c.phase >= 0.0 && head >= Required(g, c.phase) && k <= g.period
    ensures var at := PhaseAt(g, c, head, k); at >= c.phase && at.Floor + TAPS / 2 < head
  {
    hide StepOf, Ceil, Times, Span;
    StepsBound(g, c, head, k);
    FloorBelowCeil(PhaseAt(g, c, head, k), c.phase + Span(g) * 1.002);
  }

  // Every frame that a read with this head touches is below it.
  ghost predicate Covered(g: Setup, c: Clock, head: nat)
    requires g.Valid()
  {
    && c.phase >= 0.0
    && forall k: nat :: k < g.period ==>
         PhaseAt(g, c, head, k) >= c.phase && PhaseAt(g, c, head, k).Floor + TAPS / 2 < head
  }

  lemma RequiredCovers(g: Setup, c: Clock, head: nat)
    requires g.Valid() && c.phase >= 0.0 && head >= Required(g, c.phase)
    ensures Covered(g, c, head) && Advance(g, c, head).phase.Floor + TAPS / 2 < head
  {
    hide PhaseAt, Required;
    forall k: nat | k <= g.period
      ensures PhaseAt(g, c, head, k) >= c.phase && PhaseAt(g, c, head, k).Floor + TAPS / 2 < head
    {
      WithinHead(g, c, head, k);
    }
  }

  // The tail a read returns lies below every frame the next read touches, and it
  // never moves back.
  lemma TailIsSafe(g: Setup, c: Clock, head: nat)
    requires g.Valid() && c.phase >= 0.0
    ensures var next := Advance(g, c, head).phase;
            && next >= c.phase
            && TailAt(c.phase) <= TailAt(next)
            && (TailAt(next) == 0 || TailAt(next) < next.Floor - TAPS / 2 + 1)
  {
    StepsBound(g, c, head, g.period);
    FloorBelowCeil(c.phase, Advance(g, c, head).phase);
  }

  // -- Which way the loop steers ------------------------------------------------------------------

  lemma Divides(a: real, b: real)
    requires b > 0.0
    ensures a > 0.0 ==> a / b > 0.0
    ensures a < 0.0 ==> a / b < 0.0
  {
    var q := a / b;
    assert q * b == a;
    if q <= 0.0 { ProductSign(q, b); } else { ProductSign(-q, b); }
  }

  lemma ProductSign(q: real, b: real)
    requires q <= 0.0 && b > 0.0
    ensures q * b <= 0.0
  {}

  // Errors below two frames are left alone; beyond, the adjustment has the sign of the
  // error.
  lemma AdjustSign(g: Setup, f: real)
    requires g.Valid()
    ensures Adjust(g, f) > 0.0 <==> f >= 2.0
    ensures Adjust(g, f) < 0.0 <==> f <= -2.0
  {
    Divides(f, g.inputRate as real * 4.0);
  }

  lemma DivideMonotone(a: real, b: real, d: real)
    requires a <= b && d > 0.0
    ensures a / d <= b / d
  {}

  // And it grows with the error.
  lemma AdjustMonotone(g: Setup, f1: real, f2: real)
    requires g.Valid() && f1 <= f2
    ensures Adjust(g, f1) <= Adjust(g, f2)
  {
    AdjustSign(g, f1);
    AdjustSign(g, f2);
    DivideMonotone(f1, f2, g.inputRate as real * 4.0);
  }

  // Between two frames and four thousandths of a second of capture it is the error over
  // four seconds of capture.
  lemma AdjustIs(g: Setup, f: real)
    requires g.Valid()
    ensures 2.0 <= Magnitude(f) <= g.inputRate as real * 0.004 ==> Adjust(g, f) * (g.inputRate as real * 4.0) == f
    ensures Magnitude(f) > g.inputRate as real * 0.004 && Magnitude(f) >= 2.0 ==> Magnitude(Adjust(g, f)) == 0.001
  {
    var d := g.inputRate as real * 4.0;
    assert (f / d) * d == f;
    if f / d > 0.001 { Exceeds(f / d, 0.001, d); } else if f / d < -0.001 { Exceeds(-0.001, f / d, d); }
    if f > 0.001 * d { OverThousandth(f, d); }
    if f < -0.001 * d { OverThousandth(-f, d); assert (-f) / d == -(f / d) by { Opposite(f, d); } }
  }

  lemma Exceeds(x: real, y: real, d: real)
    requires x > y && d > 0.0
    ensures x * d > y * d
  {}

  lemma OverThousandth(f: real, d: real)
    requires d > 0.0 && f > 0.001 * d
    ensures f / d > 0.001
  {}

  lemma Opposite(f: real, d: real)
    requires d > 0.0
    ensures (-f) / d == -(f / d)
  {}

  // The step is above the ratio exactly if the filtered error has reached two frames,
  // below it exactly if it has on the other side.
  lemma StepSign(g: Setup, c: Clock, head: nat)
    requires g.Valid()
    ensures StepOf(g, c, head) > g.Ratio() <==> Filtered(g, c, head) >= 2.0
    ensures StepOf(g, c, head) < g.Ratio() <==> Filtered(g, c, head) <= -2.0
  {
    var f := Filtered(g, c, head);
    AdjustSign(g, f);
    hide Filtered, Adjust, Setup.Ratio;
    ScaledSign(g.Ratio(), Adjust(g, f));
  }

  lemma ScaledSign(ratio: real, adjust: real)
    requires ratio > 0.0
    ensures Adjusted(ratio, adjust) == ratio + ratio * adjust
    ensures Adjusted(ratio, adjust) > ratio <==> adjust > 0.0
    ensures Adjusted(ratio, adjust) < ratio <==> adjust < 0.0
  {
    if adjust > 0.0 { Positive(ratio, adjust); } else if adjust < 0.0 { Positive(ratio, -adjust); }
  }

  // The larger the filtered error, the larger the step.
  lemma StepMonotone(g: Setup, c: Clock, d: Clock, head: nat, h: nat)
    requires g.Valid() && Filtered(g, c, head) <= Filtered(g, d, h)
    ensures StepOf(g, c, head) <= StepOf(g, d, h)
  {
    var a, b := Adjust(g, Filtered(g, c, head)), Adjust(g, Filtered(g, d, h));
    AdjustMonotone(g, Filtered(g, c, head), Filtered(g, d, h));
    hide Filtered, Adjust, Setup.Ratio;
    Scale(1.0 + a, 1.0 + b, g.Ratio());
  }

  // The filtered error moves towards the queue error, and not past it.
  lemma FilteredBetween(g: Setup, c: Clock, head: nat)
    requires g.Valid()
    ensures var (f, e) := (c.filteredError, QueueError(g, c, head));
            if f <= e then f <= Filtered(g, c, head) <= e else e <= Filtered(g, c, head) <= f
  {
    var a, e, f := Alpha(g), QueueError(g, c, head), c.filteredError;
    hide Alpha, QueueError;
    Towards(a, e, f);
  }

  lemma Towards(a: real, e: real, f: real)
    requires 0.0 <= a <= 1.0
    ensures if f <= e then f <= f + Times(a, e - f) <= e else e <= f + Times(a, e - f) <= f
  {
    hide Times;
    if f <= e { Share(a, e - f); } else { ShareDown(a, e - f); }
  }

  lemma Share(a: real, d: real)
    requires 0.0 <= a <= 1.0 && d >= 0.0
    ensures 0.0 <= Times(a, d) <= d
  {
    Scale(0.0, a, d);
    Scale(a, 1.0, d);
  }

  lemma ShareDown(a: real, d: real)
    requires 0.0 <= a <= 1.0 && d <= 0.0
    ensures d <= Times(a, d) <= 0.0
  {
    Share(a, -d);
    assert Times(a, -d) == -Times(a, d);
  }

  // By a hundredth of the way, or by the part of two seconds that a period is, if that
  // is less.
  lemma AlphaIs(g: Setup)
    requires g.Valid()
    ensures var two := 2.0 * g.outputRate as real;
            Alpha(g) == if g.period as real < 0.01 * two then g.period as real / two else 0.01
  {
    HalfOf(g.period as real, g.outputRate as real);
  }

  lemma HalfOf(p: real, o: real)
    requires o > 0.0
    ensures p / o / 2.0 == p / (2.0 * o)
    ensures p < 0.01 * (2.0 * o) <==> p / (2.0 * o) < 0.01
  {}

  // What a read moves the phase beyond the capture frames of a period.
  function Correction(g: Setup, c: Clock, head: nat): real
    requires g.Valid()
  {
    Advance(g, c, head).phase - c.phase - Span(g)
  }

  lemma CorrectionSign(g: Setup, c: Clock, head: nat)
    requires g.Valid()
    ensures Correction(g, c, head) > 0.0 <==> Filtered(g, c, head) >= 2.0
    ensures Correction(g, c, head) < 0.0 <==> Filtered(g, c, head) <= -2.0
    ensures -0.001 * Span(g) <= Correction(g, c, head) <= 0.001 * Span(g)
  {
    StepSign(g, c, head);
    PhaseBounds(g, c, head);
    hide StepOf, Filtered, Setup.Ratio;
    TimesSign(g.period as real, StepOf(g, c, head), g.Ratio());
    hide Times;
    assert Correction(g, c, head) == Times(g.period as real, StepOf(g, c, head)) - Times(g.period as real, g.Ratio());
  }

  lemma TimesSign(k: real, a: real, b: real)
    requires k > 0.0
    ensures Times(k, a) > Times(k, b) <==> a > b
    ensures Times(k, a) < Times(k, b) <==> a < b
  {}

  // The capture brings what a period stands for, from one read to the next.
  predicate KeepsPace(g: Setup, head: nat, next: nat)
    requires g.Valid()
  {
    next as real - head as real == Span(g)
  }

  // Then a read changes the queue error by its correction alone.
  lemma ErrorNext(g: Setup, c: Clock, head: nat, next: nat)
    requires g.Valid() && KeepsPace(g, head, next)
    ensures QueueError(g, Advance(g, c, head), next) == QueueError(g, c, head) - Correction(g, c, head)
  {
    hide Span, Advance;
  }

  // With both clocks constant, an error larger than half the greatest correction is made
  // larger by a read exactly if the filtered error is still beyond two frames on the
  // other side.
  lemma LargeErrorGrows(g: Setup, c: Clock, head: nat, next: nat)
    requires g.Valid() && KeepsPace(g, head, next) && Magnitude(QueueError(g, c, head)) > 0.0005 * Span(g)
    ensures var e, f := QueueError(g, c, head), Filtered(g, c, head);
            Magnitude(QueueError(g, Advance(g, c, head), next)) > Magnitude(e) <==>
              (f >= 2.0 && e < 0.0) || (f <= -2.0 && e > 0.0)
  {
    ErrorNext(g, c, head, next);
    CorrectionSign(g, c, head);
    Positive(g.period as real, g.Ratio());
    hide Span, Advance, QueueError, Filtered, Correction;
  }

  // As it is here: the queue has just fallen short by a frame while the filtered error
  // is still at a hundred.
  lemma LaggingFilter(g: Setup)
    requires g.Valid() && g.inputRate == g.outputRate == 48000 && g.period == 480 && g.target == 1504
    ensures var c := Clock(0.0, 100.0);
            Magnitude(QueueError(g, Advance(g, c, 1503), 1983)) > Magnitude(QueueError(g, c, 1503)) == 1.0
  {
    assert g.Ratio() == 1.0 && Span(g) == 480.0;
    hide Setup.Ratio, Span;
    assert QueueError(g, Clock(0.0, 100.0), 1503) == -1.0 && Alpha(g) <= 0.01;
    Lag(Alpha(g));
    LargeErrorGrows(g, Clock(0.0, 100.0), 1503, 1983);
  }

  lemma Lag(a: real)
    requires 0.0 < a <= 0.01
    ensures 100.0 + Times(a, -101.0) >= 2.0
  {}

  // The queue error that read k finds.
  function ErrorAt(g: Setup, c: Clock, heads: seq<nat>, k: nat): real
    requires g.Valid() && k < |heads|
    decreases k
  {
    if k == 0 then QueueError(g, c, heads[0]) else ErrorAt(g, Advance(g, c, heads[0]), heads[1..], k - 1)
  }

  ghost predicate Paced(g: Setup, heads: seq<nat>)
    requires g.Valid()
  {
    forall i :: 0 <= i < |heads| - 1 ==> KeepsPace(g, heads[i], heads[i + 1])
  }

  lemma OneSmaller(g: Setup, c: Clock, head: nat, next: nat)
    requires g.Valid() && KeepsPace(g, head, next)
    ensures var (e, r) := (QueueError(g, c, head), Advance(g, c, head));
            && (c.filteredError >= 0.0 && e >= 0.0 ==> r.filteredError >= 0.0 && QueueError(g, r, next) <= e)
            && (c.filteredError <= 0.0 && e <= 0.0 ==> r.filteredError <= 0.0 && QueueError(g, r, next) >= e)
  {
    ErrorNext(g, c, head, next);
    CorrectionSign(g, c, head);
    FilteredBetween(g, c, head);
    hide Span, QueueError, Filtered, Correction, PhaseAt;
  }

  // Over a run of reads from a reset on, with both clocks constant: as long as the queue
  // error stays on the side it began, no read finds it larger than any read before.
  lemma {:induction false} ErrorsShrink(g: Setup, c: Clock, heads: seq<nat>, j: nat, k: nat, long: bool)
    requires g.Valid() && Paced(g, heads) && j <= k < |heads|
    requires if long then c.filteredError >= 0.0 else c.filteredError <= 0.0
    requires forall i :: 0 <= i < k ==> if long then ErrorAt(g, c, heads, i) >= 0.0 else ErrorAt(g, c, heads, i) <= 0.0
    ensures if long then ErrorAt(g, c, heads, k) <= ErrorAt(g, c, heads, j)
            else ErrorAt(g, c, heads, k) >= ErrorAt(g, c, heads, j)
    decreases k
  {
    hide QueueError, Advance, KeepsPace;
    if k > 0 {
      var r, rest := Advance(g, c, heads[0]), heads[1..];
      assert KeepsPace(g, heads[0], heads[1]);
      assert ErrorAt(g, c, heads, 0) == QueueError(g, c, heads[0]);
      OneSmaller(g, c, heads[0], heads[1]);
      forall i | 0 <= i < |rest| - 1 ensures KeepsPace(g, rest[i], rest[i + 1]) {
        assert KeepsPace(g, heads[i + 1], heads[i + 2]);
      }
      forall i | 0 <= i < k - 1
        ensures if long then ErrorAt(g, r, rest, i) >= 0.0 else ErrorAt(g, r, rest, i) <= 0.0
      {
        assert ErrorAt(g, c, heads, i + 1) == ErrorAt(g, r, rest, i);
      }
      ErrorsShrink(g, r, rest, if j > 0 then j - 1 else 0, k - 1, long);
    }
  }

  // -- Equal rates ------------------------------------------------------------------------------

  predicate Integral(x: real) {
    x == x.Floor as real
  }

  // Neither clock ahead: an averaged error below two frames stays below two.
  lemma ErrorStaysSmall(g: Setup, c: Clock, head: nat)
    requires g.Valid() && Magnitude(c.filteredError) < 2.0 && Magnitude(QueueError(g, c, head)) < 2.0
    ensures Magnitude(Filtered(g, c, head)) < 2.0
  {
    FilteredBetween(g, c, head);
    hide Filtered, QueueError;
  }

  // Then one read is a copy: the phase stays integral and moves by exactly one
  // period.
  lemma SteadyStep(g: Setup, c: Clock, head: nat)
    requires g.Valid() && g.inputRate == g.outputRate && Integral(c.phase)
    requires Magnitude(c.filteredError) < 2.0 && Magnitude(QueueError(g, c, head)) < 2.0
    ensures StepOf(g, c, head) == 1.0 && Magnitude(Filtered(g, c, head)) < 2.0
    ensures Advance(g, c, head).phase == c.phase + g.period as real && Integral(Advance(g, c, head).phase)
  {
    ErrorStaysSmall(g, c, head);
    hide Filtered, QueueError;
    assert g.Ratio() == 1.0;
    hide Setup.Ratio;
    UnitStep(g, c, head);
    SteadyPhase(g, c, head, g.period);
  }

  lemma UnitStep(g: Setup, c: Clock, head: nat)
    requires g.Valid() && g.Ratio() == 1.0 && Magnitude(Filtered(g, c, head)) < 2.0
    ensures StepOf(g, c, head) == 1.0
  {
    hide Filtered, Setup.Ratio;
    assert Adjust(g, Filtered(g, c, head)) == 0.0;
  }

  // At a step of one, frame k of a read is at the k-th frame behind the phase.
  lemma SteadyPhase(g: Setup, c: Clock, head: nat, k: nat)
    requires g.Valid() && Integral(c.phase) && StepOf(g, c, head) == 1.0
    ensures PhaseAt(g, c, head, k) == (c.phase.Floor + k) as real
    ensures PhaseAt(g, c, head, k) == c.phase + k as real && Integral(PhaseAt(g, c, head, k))
  {
    hide StepOf;
    WholeIsIntegral(c.phase.Floor + k);
  }

  lemma WholeIsIntegral(n: int)
    ensures (n as real).Floor == n && Integral(n as real)
  {}

  // -- Runs of reads ------------------------------------------------------------------------------

  // The clock after reads at the given heads.
  function Reads(g: Setup, c: Clock, heads: seq<nat>): Clock
    requires g.Valid()
    decreases |heads|
  {
    if heads == [] then c else Reads(g, Advance(g, c, heads[0]), heads[1..])
  }

  // Every read finds enough frames and a queue error below two.
  ghost predicate Steady(g: Setup, c: Clock, heads: seq<nat>)
    requires g.Valid()
    decreases |heads|
  {
    heads == [] ||
    (&& Covered(g, c, heads[0]) && Magnitude(QueueError(g, c, heads[0])) < 2.0
     && Steady(g, Advance(g, c, heads[0]), heads[1..]))
  }

  // One period of output, frame by frame.
  ghost function Heard(g: Setup, history: Capture, origin: nat, c: Clock, head: nat): (out: seq<seq<Word>>)
    requires g.Valid() && Framed(history, g.channels) && Covered(g, c, head) && head <= |history|
    ensures |out| == g.period
  {
    seq(g.period, k requires 0 <= k < g.period =>
      FrameAt(g, history, origin, PhaseAt(g, c, head, k)))
  }

  // The output of a run of reads.
  ghost function Output(g: Setup, history: Capture, origin: nat, c: Clock, heads: seq<nat>): seq<seq<Word>>
    requires g.Valid() && Framed(history, g.channels) && c.phase >= 0.0
    requires Steady(g, c, heads) && forall i :: 0 <= i < |heads| ==> heads[i] <= |history|
    decreases |heads|
  {
    if heads == [] then [] else
      TailIsSafe(g, c, heads[0]);
      Heard(g, history, origin, c, heads[0]) + Output(g, history, origin, Advance(g, c, heads[0]), heads[1..])
  }

  lemma HeardIsCopy(g: Setup, history: Capture, origin: nat, c: Clock, head: nat)
    requires g.Valid() && Framed(history, g.channels) && Covered(g, c, head) && head <= |history|
    requires g.inputRate == g.outputRate && Integral(c.phase)
    requires Magnitude(c.filteredError) < 2.0 && Magnitude(QueueError(g, c, head)) < 2.0
    ensures c.phase.Floor + g.period <= |history|
    ensures Heard(g, history, origin, c, head) == history[c.phase.Floor..c.phase.Floor + g.period]
  {
    SteadyStep(g, c, head);
    hide StepOf, QueueError, Magnitude, PhaseAt, Advance;
    var from, out := c.phase.Floor, Heard(g, history, origin, c, head);
    SteadyPhase(g, c, head, g.period - 1);
    WholeIsIntegral(from + g.period - 1);
    assert PhaseAt(g, c, head, g.period - 1).Floor == from + g.period - 1;
    forall k | 0 <= k < g.period ensures out[k] == history[from + k] {
      SteadyPhase(g, c, head, k);
      WholeIsIntegral(from + k);
      CopiedFrame(g, history, origin, from + k);
    }
  }

  // At equal rates a frame at an integral phase is the capture's own.
  lemma CopiedFrame(g: Setup, history: Capture, origin: nat, p: nat)
    requires g.Valid() && Framed(history, g.channels) && g.inputRate == g.outputRate
    requires (p as real).Floor + TAPS / 2 < |history|
    ensures FrameAt(g, history, origin, p as real) == history[p]
  {
    WholeIsIntegral(p);
  }

  // The frames of n periods.
  function Frames(g: Setup, n: nat): (f: nat) {
    n * g.period
  }

  lemma FramesAdd(g: Setup, n: nat)
    requires n > 0
    ensures Frames(g, n) == g.period + Frames(g, n - 1)
  {}

  ghost predicate IsRun(out: seq<seq<Word>>, history: Capture, from: nat, n: nat) {
    |out| == n && (n > 0 ==> from + n <= |history| && out == history[from..from + n])
  }

  lemma RunsJoin(a: seq<seq<Word>>, b: seq<seq<Word>>, history: Capture, from: nat, m: nat, n: nat)
    requires IsRun(a, history, from, m) && IsRun(b, history, from + m, n)
    ensures IsRun(a + b, history, from, m + n)
  {
    if m > 0 && n > 0 {
      assert history[from..from + m] + history[from + m..from + m + n] == history[from..from + (m + n)];
    } else {
      assert a + b == if m > 0 then a else b;
    }
  }

  // At equal rates, from an integral phase, while every queue error is below two
  // frames: the filtered error stays below two, and the outputs of any number of
  // reads are one bit-exact run of consecutive capture frames.
  lemma {:induction false} SteadyRun(g: Setup, history: Capture, origin: nat, c: Clock, heads: seq<nat>)
    requires g.Valid() && Framed(history, g.channels) && c.phase >= 0.0
    requires Steady(g, c, heads) && forall i :: 0 <= i < |heads| ==> heads[i] <= |history|
    requires g.inputRate == g.outputRate && Integral(c.phase) && Magnitude(c.filteredError) < 2.0
    ensures IsRun(Output(g, history, origin, c, heads), history, c.phase.Floor, Frames(g, |heads|))
    ensures Magnitude(Reads(g, c, heads).filteredError) < 2.0
    ensures Reads(g, c, heads).phase == (c.phase.Floor + Frames(g, |heads|)) as real
    decreases |heads|
  {
    hide Heard, StepOf, Covered, QueueError, Magnitude, Filtered, IsRun, Frames, Framed;
    var from := c.phase.Floor;
    if heads == [] {
      NoFrames(g, history, from);
    } else {
      var next := Advance(g, c, heads[0]);
      SteadyStep(g, c, heads[0]);
      TailIsSafe(g, c, heads[0]);
      assert next.phase.Floor == from + g.period;
      SteadyRun(g, history, origin, next, heads[1..]);
      FramesAdd(g, |heads|);
      HeardRun(g, history, origin, c, heads[0]);
      RunsJoin(Heard(g, history, origin, c, heads[0]), Output(g, history, origin, next, heads[1..]),
               history, from, g.period, Frames(g, |heads| - 1));
    }
  }

  lemma NoFrames(g: Setup, history: Capture, from: int)
    requires from >= 0
    ensures Frames(g, 0) == 0 && IsRun([], history, from, 0)
  {}

  lemma HeardRun(g: Setup, history: Capture, origin: nat, c: Clock, head: nat)
    requires g.Valid() && Framed(history, g.channels) && Covered(g, c, head) && head <= |history|
    requires g.inputRate == g.outputRate && Integral(c.phase)
    requires Magnitude(c.filteredError) < 2.0 && Magnitude(QueueError(g, c, head)) < 2.0
    ensures IsRun(Heard(g, history, origin, c, head), history, c.phase.Floor, g.period)
  {
    hide Heard, Covered, QueueError, Magnitude;
    HeardIsCopy(g, history, origin, c, head);
  }

  // -- Where the first read starts ----------------------------------------------------------------

  // The distance behind head that a duplex stream aims for.
  function TargetFor(g: Setup, deviceFrames: nat): nat
    requires g.Valid()
  {
    var three := 3 * Ceil(Span(g));
    (if 2 * deviceFrames > three then 2 * deviceFrames else three) + TAPS / 2
  }

  predicate Aimed(g: Setup)
    requires g.Valid()
  {
    g.target >= 3 * Ceil(Span(g)) + TAPS / 2
  }

  lemma TargetAims(g: Setup, deviceFrames: nat)
    requires g.Valid() && g.target == TargetFor(g, deviceFrames)
    ensures Aimed(g)
  {
    hide Span;
  }

  // The phase a read begins at: before the first one it is moved up to the target
  // distance behind head.
  function BeginsAt(g: Setup, phase: real, started: bool, head: nat): real {
    if !started && head > g.target then (head - g.target) as real else phase
  }

  // Wherever the phase is moved to, head covers the whole read, at any period and
  // any pair of rates.
  lemma MovedPhaseIsCovered(g: Setup, c: Clock, head: nat)
    requires g.Valid() && Aimed(g) && head > g.target && c.phase == (head - g.target) as real
    ensures Covered(g, c, head) && Advance(g, c, head).phase.Floor + TAPS / 2 < head
  {
    hide PhaseAt, Aimed;
    forall k: nat | k <= g.period
      ensures PhaseAt(g, c, head, k) >= c.phase && PhaseAt(g, c, head, k).Floor + TAPS / 2 < head
    {
      MovedWithin(g, c, head, k);
    }
  }

  lemma MovedWithin(g: Setup, c: Clock, head: nat, k: nat)
    requires g.Valid() && Aimed(g) && head > g.target && c.phase == (head - g.target) as real && k <= g.period
    ensures PhaseAt(g, c, head, k) >= c.phase && PhaseAt(g, c, head, k).Floor + TAPS / 2 < head
  {
    StepsBound(g, c, head, k);
    Positive(g.period as real, g.Ratio());
    hide StepOf, Setup.Ratio, Ceil, Times;
    MovedArithmetic(Span(g), Times(k as real, StepOf(g, c, head)), head, g.target);
  }

  lemma MovedArithmetic(n: real, way: real, head: int, target: int)
    requires n > 0.0 && 0.0 <= way <= n * 1.002 && target >= 3 * Ceil(n) + TAPS / 2
    ensures (head - target) as real + way >= (head - target) as real
    ensures ((head - target) as real + way).Floor + TAPS / 2 < head
  {
    assert n <= Ceil(n) as real;
    assert (head - target) as real + way < (head - TAPS / 2) as real;
  }

  lemma Positive(a: real, b: real)
    requires a > 0.0 && b > 0.0
    ensures Times(a, b) > 0.0
  {}

  // The count that required() would ask for at the moved phase is a coarser bound:
  // it is met exactly when the target leaves room for the rounded-up period and two
  // frames, which it need not at a period that is one capture frame.
  lemma RequiredWhenMoved(g: Setup, head: nat)
    requires g.Valid() && head > g.target
    ensures Required(g, (head - g.target) as real) <= head <==>
              Ceil(Span(g) * 1.002) + TAPS / 2 + 2 <= g.target
  {
    hide Span;
    CeilShift(head - g.target, Span(g) * 1.002);
  }

  // As at a period of one capture frame, three frames and half the taps behind head.
  lemma RequiredNotMet(g: Setup, head: nat)
    requires g.Valid() && Span(g) == 1.0 && g.target == 67 && head > 67
    ensures Aimed(g) && Required(g, (head - g.target) as real) > head
  {
    hide Span;
    RequiredWhenMoved(g, head);
    assert Ceil(1.0) == 1 && Ceil(1.002) == 2;
  }

  lemma CeilShift(n: int, x: real)
    ensures Ceil(n as real + x) == n + Ceil(x)
  {}

  // -- After a recovery -----------------------------------------------------------------------------

  // Recover publishes tail at head and starts reading there, or, after the queue
  // ran full, the target distance behind.
  function RecoveredAt(g: Setup, head: nat, queueReset: bool): nat {
    if queueReset && head > g.target then head - g.target else head
  }

  // The first read after it begins behind the recovered tail exactly if the queue
  // had not run full and head has passed the target but not yet grown by it.
  lemma BeginsBehindTail(g: Setup, head0: nat, head1: nat, queueReset: bool)
    requires g.Valid() && head0 <= head1
    ensures var tail := RecoveredAt(g, head0, queueReset);
            BeginsAt(g, tail as real, false, head1) < tail as real <==>
              head1 > g.target && head1 - head0 < g.target && !(queueReset && head0 > g.target)
  {}

  // At the target distance behind head the queue error is zero, so the first read
  // goes by the ratio itself.
  lemma MovedReadEnds(g: Setup, head: nat)
    requires g.Valid() && head > g.target
    ensures Advance(g, Clock((head - g.target) as real, 0.0), head)
         == Clock((head - g.target) as real + Span(g), 0.0)
  {
    var c := Clock((head - g.target) as real, 0.0);
    assert QueueError(g, c, head) == 0.0;
    hide QueueError, Times, Setup.Ratio;
    NoError(g, c, head);
  }

  lemma NoError(g: Setup, c: Clock, head: nat)
    requires g.Valid() && c.filteredError == 0.0 && QueueError(g, c, head) == 0.0
    ensures Filtered(g, c, head) == 0.0 && StepOf(g, c, head) == g.Ratio()
  {
    hide QueueError, Alpha, Setup.Ratio;
    var a := Alpha(g);
    assert a * 0.0 == 0.0;
    assert Filtered(g, c, head) == 0.0;
    hide Filtered;
    assert Adjust(g, 0.0) == 0.0;
  }

  lemma FloorAdds(n: int, x: real)
    ensures (n as real + x).Floor == n + x.Floor
  {}

  // And the tail it publishes moves back exactly if the period is too short: past the
  // target, if the capture frames of a period do not reach from where the read begins
  // to half the taps beyond the tail; up to the target, if at the step that the queue
  // error allows they are fewer than half the taps.
  lemma TailMovesBack(g: Setup, head0: nat, head1: nat, queueReset: bool)
    requires g.Valid() && head0 <= head1
    ensures var tail := RecoveredAt(g, head0, queueReset);
            var c := Clock(BeginsAt(g, tail as real, false, head1), 0.0);
            TailAt(Advance(g, c, head1).phase) < tail <==>
              && tail > 0
              && if head1 > g.target then head1 - g.target + Span(g).Floor < tail + TAPS / 2
                 else Times(g.period as real, StepOf(g, Clock(head0 as real, 0.0), head1)) < (TAPS / 2) as real
  {
    var tail := RecoveredAt(g, head0, queueReset);
    var c := Clock(BeginsAt(g, tail as real, false, head1), 0.0);
    TailIsSafe(g, c, head1);
    if head1 > g.target {
      MovedReadEnds(g, head1);
      FloorAdds(head1 - g.target, Span(g));
    } else {
      assert tail == head0;
      FloorAdds(head0, Times(g.period as real, StepOf(g, c, head1)));
    }
    hide Span, StepOf, Times, Setup.Ratio;
  }

  // It does as soon as the wait lets the first read after a recovery through, if the
  // capture is longer than the target by then.
  lemma RecoveredReadMovesBack(g: Setup, head0: nat, head1: nat)
    requires g.Valid() && Aimed(g) && head0 > 0
    requires head1 == Required(g, head0 as real) && head1 > g.target
    ensures var c := Clock(BeginsAt(g, head0 as real, false, head1), 0.0);
            TailAt(Advance(g, c, head1).phase) < RecoveredAt(g, head0, false)
  {
    TailMovesBack(g, head0, head1, false);
    hide Span;
    var s := Span(g);
    assert s <= Ceil(s) as real && s.Floor as real <= s;
    assert head1 as real < head0 as real + s * 1.002 + 67.0;
  }

  // -- The code --------------------------------------------------------------------------------------

  // Where word ch of frame p lies in a ring of interleaved frames.
  function SlotOf(g: Setup, p: nat, ch: nat): (i: nat)
    requires g.Valid() && ch < g.channels
    ensures i < g.capacity * g.channels
  {
    InFrame(p % g.capacity, ch, g.channels, g.capacity);
    p % g.capacity * g.channels + ch
  }

  // The ring holds the frames of the capture below head that a reader at a phase
  // may still touch: from 63 before it on, of those not older than origin, and at
  // equal rates, where frames are copied whatever their age, all from it.
  ghost predicate Held(g: Setup, data: seq<Word>, history: Capture, origin: nat, floor: int, head: nat)
    requires g.Valid() && |data| == g.capacity * g.channels && Framed(history, g.channels) && head <= |history|
  {
    forall p: nat, ch: nat {:trigger data[SlotOf(g, p, ch)]} ::
      floor - (TAPS / 2 - 1) <= p < head && ch < g.channels
      && (origin <= p || (g.inputRate == g.outputRate && floor <= p)) ==>
        data[SlotOf(g, p, ch)] == history[p][ch]
  }

  // Frames in the order their words are stored.
  function Interleaved(frames: Capture): seq<Word> {
    if frames == [] then [] else Interleaved(frames[..|frames| - 1]) + frames[|frames| - 1]
  }

  lemma InterleavedNext(frames: Capture, n: nat)
    requires n < |frames|
    ensures Interleaved(frames[..n + 1]) == Interleaved(frames[..n]) + frames[n]
  {
    assert frames[..n + 1][..n] == frames[..n];
  }

  // Where output frame n begins.
  function Start(g: Setup, n: nat): nat {
    n * g.channels
  }

  lemma StartNext(g: Setup, n: nat)
    ensures Start(g, 0) == 0 && Start(g, n + 1) == Start(g, n) + g.channels
  {}

  lemma Whole(g: Setup)
    ensures Start(g, g.period) == g.period * g.channels
  {}

  lemma StartWithin(g: Setup, n: nat)
    requires g.Valid() && n < g.period
    ensures Start(g, n) + g.channels <= g.period * g.channels
  {
    InFrame(n, g.channels - 1, g.channels, g.period);
  }

  lemma HeardAt(g: Setup, history: Capture, origin: nat, c: Clock, head: nat, k: nat)
    requires g.Valid() && Framed(history, g.channels) && Covered(g, c, head) && head <= |history|
    requires k < g.period
    ensures var at := PhaseAt(g, c, head, k);
            && at >= c.phase && at.Floor + TAPS / 2 < head
            && Heard(g, history, origin, c, head)[k] == FrameAt(g, history, origin, at)
  {
    hide PhaseAt, FrameAt, Framed;
  }

  class Reader {
    const g: Setup
    const data: array<Word>
    var phase: real
    var origin: nat
    var started: bool
    var filteredError: real

    ghost predicate Valid()
      reads this
    {
      g.Valid() && data.Length == g.capacity * g.channels && phase >= 0.0
    }

    constructor (g: Setup, data: array<Word>)
      requires g.Valid() && data.Length == g.capacity * g.channels
      ensures Valid() && this.g == g && this.data == data && phase == 0.0 && origin == 0 && !started
    {
      this.g, this.data := g, data;
      phase, origin, started, filteredError := 0.0, 0, false, 0.0;
    }

    method Reset(head: nat)
      requires Valid()
      modifies this
      ensures Valid() && phase == head as real && origin == head && !started && filteredError == 0.0
    {
      phase, origin, started, filteredError := head as real, head, false, 0.0;
    }

    // The clock as a read finds it.
    ghost function Now(): Clock
      reads this
    {
      Clock(phase, if started then filteredError else 0.0)
    }

    method Interpolate(ghost history: Capture, pos: nat, frac: real, ch: nat, ghost floor: int, ghost head: nat)
      returns (sample: real)
      requires Valid() && ch < g.channels && Framed(history, g.channels) && head <= |history| && 0.0 <= frac < 1.0
      requires Held(g, data[..], history, origin, floor, head) && floor <= pos && pos + TAPS / 2 < head
      ensures sample == TapSum(g, history, origin, pos, frac, ch, TAPS)
    {
      hide Coefficient;
      sample := 0.0;
      for j := 0 to TAPS
        invariant sample == TapSum(g, history, origin, pos, frac, ch, j)
      {
        var at := pos + j - TAPS / 2 + 1;
        if at >= origin {
          var slot := SlotOf(g, at, ch);
          assert data[..][slot] == history[at][ch];
          sample := sample + g.decode(data[slot]) * Coefficient(g, frac, j);
        }
      }
    }

    method Sample(ghost history: Capture, at: real, ch: nat, ghost floor: int, ghost head: nat) returns (word: Word)
      requires Valid() && ch < g.channels && Framed(history, g.channels) && head <= |history| && at >= 0.0
      requires Held(g, data[..], history, origin, floor, head) && floor <= at.Floor && at.Floor + TAPS / 2 < head
      ensures word == SampleAt(g, history, origin, at, ch)
    {
      hide TapSum;
      var pos := at.Floor;
      var frac := at - pos as real;
      if g.inputRate == g.outputRate && frac < 0.000000000001 {
        var slot := SlotOf(g, pos, ch);
        assert data[..][slot] == history[pos][ch];
        return data[slot];
      }
      var sample := Interpolate(history, pos, frac, ch, floor, head);
      return g.encode(sample);
    }

    // One frame of output behind what dst already has.
    method WriteFrame(
      dst: array<Word>, frame: nat, at: real, ghost history: Capture, ghost floor: int, ghost head: nat)
      requires Valid() && dst != data && dst.Length == g.period * g.channels && frame < g.period
      requires Start(g, frame) + g.channels <= dst.Length
      requires Framed(history, g.channels) && head <= |history| && at >= 0.0
      requires Held(g, data[..], history, origin, floor, head) && floor <= at.Floor && at.Floor + TAPS / 2 < head
      modifies dst
      ensures dst[..Start(g, frame) + g.channels] == old(dst[..Start(g, frame)]) + FrameAt(g, history, origin, at)
    {
      hide Held, SampleAt, Framed, Start;
      var from := Start(g, frame);
      ghost var done, out := dst[..from], FrameAt(g, history, origin, at);
      for ch := 0 to g.channels
        invariant dst[..from + ch] == done + out[..ch]
      {
        var word := Sample(history, at, ch, floor, head);
        dst[from + ch] := word;
      }
      assert out[..g.channels] == out;
    }

    // The filtered error takes the queue error in; the step follows it.
    method Steer(head: nat) returns (step: real)
      requires Valid()
      modifies this`started, this`filteredError
      ensures started && filteredError == Filtered(g, old(Now()), head) && step == StepOf(g, old(Now()), head)
    {
      if !started {
        started, filteredError := true, 0.0;
      }
      var error := head as real - phase - g.target as real;
      filteredError := filteredError + Alpha(g) * (error - filteredError);
      step := Adjusted(g.Ratio(), Adjust(g, filteredError));
    }

    method Read(dst: array<Word>, head: nat, ghost history: Capture) returns (tail: nat)
      requires Valid() && dst != data && dst.Length == g.period * g.channels
      requires Framed(history, g.channels) && Covered(g, Now(), head) && head <= |history|
      requires Held(g, data[..], history, origin, phase.Floor, head)
      modifies this`phase, this`started, this`filteredError, dst
      ensures Valid() && started && Clock(phase, filteredError) == Advance(g, old(Now()), head)
      ensures tail == TailAt(phase)
      ensures dst[..] == Interleaved(Heard(g, history, origin, old(Now()), head))
    {
      ghost var c := Now();
      TailIsSafe(g, c, head);
      PhaseNext(g, c, head, 0);
      StartNext(g, 0);
      hide Start, Interleaved, Held, Covered, FrameAt, Framed, StepOf, Filtered, Heard, PhaseAt;
      ghost var out := Heard(g, history, origin, c, head);
      var step := Steer(head);
      for frame := 0 to g.period
        invariant phase == PhaseAt(g, c, head, frame)
        invariant started && filteredError == Filtered(g, c, head)
        invariant Start(g, frame) <= dst.Length && dst[..Start(g, frame)] == Interleaved(out[..frame])
      {
        HeardAt(g, history, origin, c, head, frame);
        PhaseNext(g, c, head, frame);
        InterleavedNext(out, frame);
        StartNext(g, frame);
        StartWithin(g, frame);
        WriteFrame(dst, frame, phase, history, c.phase.Floor, head);
        phase := phase + step;
      }
      assert out[..g.period] == out && dst[..Start(g, g.period)] == dst[..] by { Whole(g); }
      tail := if phase < (TAPS / 2) as real then 0 else phase.Floor - TAPS / 2;
    }

    // The read of a duplex stream's Wait: head covers the phase that was waited for,
    // and the first read moves up to the target.
    method ReadNext(dst: array<Word>, head: nat, ghost history: Capture) returns (tail: nat)
      requires Valid() && Aimed(g) && dst != data && dst.Length == g.period * g.channels
      requires Framed(history, g.channels) && Required(g, phase) <= head <= |history|
      requires Held(g, data[..], history, origin, BeginsAt(g, phase, started, head).Floor, head)
      modifies this`phase, this`started, this`filteredError, dst
      ensures var c := Clock(BeginsAt(g, old(phase), old(started), head), old(Now()).filteredError);
              && Valid() && started && Covered(g, c, head) && Clock(phase, filteredError) == Advance(g, c, head)
              && dst[..] == Interleaved(Heard(g, history, origin, c, head))
              && tail == TailAt(phase) && TailAt(c.phase) <= tail < head
    {
      ghost var c := Clock(BeginsAt(g, phase, started, head), Now().filteredError);
      if !started && head > g.target {
        MovedPhaseIsCovered(g, c, head);
        phase := (head - g.target) as real;
      } else {
        RequiredCovers(g, c, head);
      }
      TailIsSafe(g, c, head);
      hide Heard, Held, Framed, Covered, Advance, Required, Aimed;
      tail := Read(dst, head, history);
    }
  }
}
