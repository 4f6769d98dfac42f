/**
 The streaming detectors of a native measurement: a correlation of the capture
 with a thinned probe at every delay, then harmonic sums over overlapping windows.
 Neither keeps the capture; both equal the sums an offline pass computes over it.

 The numbers are those of any arithmetic: sums are formed in the same order on
 both sides, so the equalities hold whatever the rounding.
 */
module Detectors {

  const WINDOW: nat := 256
  const HOP: nat := 64
  const SLOTS: nat := 4
  const PROBE_POINTS: nat := 512
  const PROBE_FRAMES: nat := 32767
  const MAX_DELAY: nat := 0x4_0000

  datatype Arithmetic<!N> = Arithmetic(zero: N, mulAdd: (N, N, N) -> N, mulSub: (N, N, N) -> N)

  // -- Offline sums ------------------------------------------------------------------

  // The sum over the first n frames of a window, as DetectContinuityAt forms it.
  function Sum<N>(zero: N, step: (N, N, N) -> N, xs: seq<N>, table: seq<N>, n: nat): N
    requires n <= |xs| && n <= |table|
  {
    if n == 0 then zero else step(Sum(zero, step, xs, table, n - 1), xs[n - 1], table[n - 1])
  }

  lemma {:induction false} SumOfPrefix<N>(
    zero: N, step: (N, N, N) -> N, xs: seq<N>, ys: seq<N>, table: seq<N>, n: nat)
    requires n <= |xs| && n <= |ys| && n <= |table| && xs[..n] == ys[..n]
    ensures Sum(zero, step, xs, table, n) == Sum(zero, step, ys, table, n)
  {
    if n > 0 {
      assert xs[..n][..n - 1] == xs[..n - 1] && ys[..n][..n - 1] == ys[..n - 1];
      SumOfPrefix(zero, step, xs, ys, table, n - 1);
      assert xs[n - 1] == xs[..n][n - 1] && ys[n - 1] == ys[..n][n - 1];
    }
  }

  // The correlation at one delay over the first n points of the thinned probe.
  function Direct<N>(a: Arithmetic<N>, xs: seq<N>, points: seq<N>, delay: nat, n: nat): N
    requires n <= |points| && (n > 0 ==> delay + HOP * (n - 1) < |xs|)
  {
    if n == 0 then a.zero
    else a.mulAdd(Direct(a, xs, points, delay, n - 1), xs[delay + HOP * (n - 1)], points[n - 1])
  }

  function Energy<N>(a: Arithmetic<N>, xs: seq<N>, delay: nat, n: nat): N
    requires n > 0 ==> delay + HOP * (n - 1) < |xs|
  {
    if n == 0 then a.zero
    else a.mulAdd(Energy(a, xs, delay, n - 1), xs[delay + HOP * (n - 1)], xs[delay + HOP * (n - 1)])
  }

  lemma {:induction false} DirectMore<N>(
    a: Arithmetic<N>, xs: seq<N>, x: N, points: seq<N>, delay: nat, n: nat)
    requires n <= |points| && (n > 0 ==> delay + HOP * (n - 1) < |xs|)
    ensures Direct(a, xs + [x], points, delay, n) == Direct(a, xs, points, delay, n)
    ensures Energy(a, xs + [x], delay, n) == Energy(a, xs, delay, n)
  {
    if n > 0 {
      DirectMore(a, xs, x, points, delay, n - 1);
    }
  }

  // -- What the accumulators hold after n frames ------------------------------------------

  // Where the window begins that slot k is on when frame n comes.
  function Base(k: nat, n: nat): (b: nat)
    requires k < SLOTS && HOP * k <= n
    ensures b <= n < b + WINDOW
  {
    HOP * k + WINDOW * ((n - HOP * k) / WINDOW)
  }

  function Slot<N>(zero: N, step: (N, N, N) -> N, table: seq<N>, xs: seq<N>, k: nat): N
    requires k < SLOTS && |table| == WINDOW
  {
    if |xs| < HOP * k then zero else
      var b := Base(k, |xs|);
      Sum(zero, step, xs[b..], table, |xs| - b)
  }

  lemma BaseOf(k: nat, n: nat, w: nat)
    requires k == w % SLOTS && HOP * w <= n < HOP * w + WINDOW
    ensures HOP * k <= n && Base(k, n) == HOP * w
  {
    assert w == SLOTS * (w / SLOTS) + k;
    assert (n - HOP * k) / WINDOW == w / SLOTS;
  }

  // One more frame: the slot takes it in, or, at the end of its window, starts over.
  lemma SlotNext<N>(zero: N, step: (N, N, N) -> N, table: seq<N>, xs: seq<N>, x: N, k: nat)
    requires k < SLOTS && |table| == WINDOW
    ensures |xs| < HOP * k ==> Slot(zero, step, table, xs + [x], k) == zero
    ensures HOP * k <= |xs| ==>
              var b := Base(k, |xs|);
              var all := Sum(zero, step, (xs + [x])[b..], table, |xs| + 1 - b);
              && all == step(Slot(zero, step, table, xs, k), x, table[|xs| - b])
              && Slot(zero, step, table, xs + [x], k) == if |xs| + 1 - b == WINDOW then zero else all
  {
    var n, ys := |xs|, xs + [x];
    if HOP * k <= n {
      var b := Base(k, n);
      SumOfPrefix(zero, step, ys[b..], xs[b..], table, n - b);
      NextBase(k, n);
    } else if HOP * k == n + 1 {
      BaseOf(k, n + 1, k);
    }
  }

  lemma NextBase(k: nat, n: nat)
    requires k < SLOTS && HOP * k <= n
    ensures Base(k, n + 1) == if n + 1 == Base(k, n) + WINDOW then n + 1 else Base(k, n)
  {}

  // How many windows have ended after n frames.
  function Ended(n: nat): nat {
    if n < WINDOW then 0 else (n - WINDOW) / HOP + 1
  }

  // How many points of the probe delay has met after n frames.
  function Count(delay: nat, n: nat): (c: nat)
    ensures c <= PROBE_POINTS && (c > 0 ==> delay + HOP * (c - 1) < n)
  {
    if n <= delay then 0
    else if (n - delay - 1) / HOP + 1 < PROBE_POINTS then (n - delay - 1) / HOP + 1 else PROBE_POINTS
  }

  // The point that meets frame n at this delay, if one does.
  predicate Meets(delay: nat, n: nat) {
    delay <= n && (n - delay) % HOP == 0 && (n - delay) / HOP < PROBE_POINTS
  }

  lemma CountNext(delay: nat, n: nat)
    ensures Count(delay, n + 1) == Count(delay, n) + (if Meets(delay, n) then 1 else 0)
    ensures Meets(delay, n) ==> Count(delay, n) == (n - delay) / HOP
  {
    if delay < n {
      var q, r := (n - delay) / HOP, (n - delay) % HOP;
      assert n - delay == HOP * q + r;
      assert (n - delay - 1) / HOP == if r == 0 then q - 1 else q;
    }
  }

  // After maxDelay frames and one probe, every delay has met every point.
  lemma AllCounted(delay: nat, maxDelay: nat, n: nat)
    requires delay <= maxDelay && maxDelay + HOP * (PROBE_POINTS - 1) < n
    ensures Count(delay, n) == PROBE_POINTS
  {}

  // -- The geometry ---------------------------------------------------------------------

  function RoundUp(value: nat, multiple: nat): (r: nat)
    requires multiple > 0
  {
    (value + multiple - 1) / multiple * multiple
  }

  lemma RoundsUp(value: nat, multiple: nat)
    requires multiple > 0
    ensures value <= RoundUp(value, multiple) < value + multiple
  {
    var q := (value + multiple - 1) / multiple;
    assert value + multiple - 1 == multiple * q + (value + multiple - 1) % multiple;
    assert q * multiple == multiple * q;
  }

  // -- The code ---------------------------------------------------------------------------

  // The three accumulators of one delay after xs.
  ghost predicate Correlated<N>(
    a: Arithmetic<N>, points: seq<N>, xs: seq<N>, delay: nat, sum: N, energy: N, count: nat)
    requires |points| == PROBE_POINTS
  {
    && count == Count(delay, |xs|)
    && sum == Direct(a, xs, points, delay, Count(delay, |xs|))
    && energy == Energy(a, xs, delay, Count(delay, |xs|))
  }

  lemma Passed<N>(
    a: Arithmetic<N>, points: seq<N>, xs: seq<N>, x: N, delay: nat, sum: N, energy: N, count: nat)
    requires |points| == PROBE_POINTS && Correlated(a, points, xs, delay, sum, energy, count)
    ensures !Meets(delay, |xs|) ==> Correlated(a, points, xs + [x], delay, sum, energy, count)
    ensures Meets(delay, |xs|) ==>
              var i := (|xs| - delay) / HOP;
              Correlated(a, points, xs + [x], delay, a.mulAdd(sum, x, points[i]), a.mulAdd(energy, x, x), count + 1)
  {
    CountNext(delay, |xs|);
    DirectMore(a, xs, x, points, delay, Count(delay, |xs|));
  }

  // Frames from lo up to hi of those there are.
  function Part<N>(xs: seq<N>, lo: nat, hi: nat): seq<N> {
    if lo >= |xs| || hi <= lo then [] else if hi <= |xs| then xs[lo..hi] else xs[lo..]
  }

  // Slot k is one of those the last back windows up to this one are on.
  predicate Visited(k: nat, window: nat, back: nat) {
    (window - k) % SLOTS < back && (window - k) % SLOTS <= window
  }

  // Window w of the frames sampled, as the offline pass sums it.
  ghost function Offline<N>(a: Arithmetic<N>, cos: seq<N>, sin: seq<N>, xs: seq<N>, w: nat): (nat, N, N)
    requires |cos| == |sin| == WINDOW && HOP * w + WINDOW <= |xs|
  {
    (HOP * w, Sum(a.zero, a.mulAdd, xs[HOP * w..], cos, WINDOW), Sum(a.zero, a.mulSub, xs[HOP * w..], sin, WINDOW))
  }

  // The windows ended by xs are finished, in order.
  ghost predicate AllFinished<N>(
    a: Arithmetic<N>, cos: seq<N>, sin: seq<N>, xs: seq<N>, finished: seq<(nat, N, N)>)
    requires |cos| == |sin| == WINDOW
  {
    && |finished| == Ended(|xs|)
    && forall w :: 0 <= w < |finished| ==> finished[w] == Offline(a, cos, sin, xs, w)
  }

  lemma OfflineStays<N>(a: Arithmetic<N>, cos: seq<N>, sin: seq<N>, xs: seq<N>, x: N, w: nat)
    requires |cos| == |sin| == WINDOW && HOP * w + WINDOW <= |xs|
    ensures Offline(a, cos, sin, xs + [x], w) == Offline(a, cos, sin, xs, w)
  {
    var s := HOP * w;
    assert (xs + [x])[s..][..WINDOW] == xs[s..][..WINDOW];
    SumOfPrefix(a.zero, a.mulAdd, (xs + [x])[s..], xs[s..], cos, WINDOW);
    SumOfPrefix(a.zero, a.mulSub, (xs + [x])[s..], xs[s..], sin, WINDOW);
  }

  // Only the last frame of a hop ends a window, the next one in order.
  lemma FinishedNext<N>(
    a: Arithmetic<N>, cos: seq<N>, sin: seq<N>, xs: seq<N>, x: N, finished: seq<(nat, N, N)>)
    requires |cos| == |sin| == WINDOW && AllFinished(a, cos, sin, xs, finished)
    ensures var n, w := |xs|, |xs| / HOP - 3;
            if n % HOP == HOP - 1 && w >= 0
            then AllFinished(a, cos, sin, xs + [x], finished + [Offline(a, cos, sin, xs + [x], w)])
            else AllFinished(a, cos, sin, xs + [x], finished)
  {
    hide Offline;
    forall w | 0 <= w < |finished| ensures finished[w] == Offline(a, cos, sin, xs + [x], w) {
      OfflineStays(a, cos, sin, xs, x, w);
    }
  }

  class Metrics<!N> {
    const a: Arithmetic<N>
    const points: seq<N>
    const cos: seq<N>
    const sin: seq<N>
    const maxDelay: nat
    const probeStart: nat
    const probeEnd: nat
    const sums: array<N>
    const energies: array<N>
    const counts: array<nat>
    const re: array<N>
    const im: array<N>
    var processed: nat
    // History: the frames captured, those the correlation took, those the windows took, and the
    // windows finished.
    ghost var captured: seq<N>
    ghost var probed: seq<N>
    ghost var sampled: seq<N>
    ghost var finished: seq<(nat, N, N)>

    // The probe is thinned to one frame in a hop.
    constructor (a: Arithmetic<N>, period: nat, delayPeriods: nat, probe: seq<N>, cos: seq<N>, sin: seq<N>)
      requires 0 < period && 0 < delayPeriods && delayPeriods * period <= MAX_DELAY
      requires |probe| == PROBE_FRAMES && |cos| == WINDOW && |sin| == WINDOW
      ensures Valid() && fresh({sums, energies, re, im}) && fresh(counts) && captured == []
      ensures this.a == a && this.cos == cos && this.sin == sin
      ensures maxDelay == delayPeriods * period && probeStart == 4 * period
      ensures forall i :: 0 <= i < PROBE_POINTS ==> points[i] == probe[i * HOP]
      ensures maxDelay + HOP * (PROBE_POINTS - 1) < probeEnd - probeStart
    {
      var maxDelay := delayPeriods * period;
      var start := 4 * period;
      RoundsUp(start + |probe| + maxDelay + period, period);
      this.a, this.cos, this.sin, this.maxDelay, probeStart := a, cos, sin, maxDelay, start;
      probeEnd := RoundUp(start + |probe| + maxDelay + period, period);
      points := seq(PROBE_POINTS, i requires 0 <= i < PROBE_POINTS => probe[i * HOP]);
      sums := new N[maxDelay + 1](_ => a.zero);
      energies := new N[maxDelay + 1](_ => a.zero);
      counts := new nat[maxDelay + 1](_ => 0);
      re := new N[SLOTS](_ => a.zero);
      im := new N[SLOTS](_ => a.zero);
      processed, captured, probed, sampled, finished := 0, [], [], [], [];
    }

    ghost predicate Shaped()
      reads this
    {
      && |points| == PROBE_POINTS && |cos| == WINDOW && |sin| == WINDOW
      && sums.Length == energies.Length == counts.Length == maxDelay + 1
      && re.Length == im.Length == SLOTS
      && sums != energies && sums != re && sums != im && energies != re && energies != im && re != im
      && (counts as object) !in {sums as object, energies, re, im}
      && maxDelay + HOP * (PROBE_POINTS - 1) < probeEnd - probeStart
    }

    ghost predicate CorrelationRight()
      requires Shaped()
      reads this, sums, energies, counts
    {
      forall d :: 0 <= d <= maxDelay ==> Correlated(a, points, probed, d, sums[d], energies[d], counts[d])
    }

    ghost predicate WindowsRight()
      requires Shaped()
      reads this, re, im
    {
      && (forall k :: 0 <= k < SLOTS ==>
            && re[k] == Slot(a.zero, a.mulAdd, cos, sampled, k)
            && im[k] == Slot(a.zero, a.mulSub, sin, sampled, k))
      && AllFinished(a, cos, sin, sampled, finished)
    }

    // The capture is silent to the detectors before the probe starts, goes to the
    // correlation until the probe ends, and then to the windows.
    ghost predicate Shared()
      reads this
    {
      probed == Part(captured, probeStart, probeEnd) && sampled == Part(captured, probeEnd, |captured|)
    }

    ghost predicate Valid()
      reads this, sums, energies, counts, re, im
    {
      Hearing() && processed == |captured|
    }

    ghost predicate Hearing()
      reads this, sums, energies, counts, re, im
    {
      Shaped() && CorrelationRight() && WindowsRight() && Shared()
    }

    // The frame meets point i at a delay.
    method AddPoint(delay: nat, i: nat, sample: N)
      requires Shaped() && delay <= maxDelay && i < PROBE_POINTS && |probed| == delay + HOP * i
      requires Correlated(a, points, probed, delay, sums[delay], energies[delay], counts[delay])
      modifies sums, energies, counts
      ensures Correlated(a, points, probed + [sample], delay, sums[delay], energies[delay], counts[delay])
      ensures forall d :: 0 <= d <= maxDelay && d != delay ==>
                sums[d] == old(sums[d]) && energies[d] == old(energies[d]) && counts[d] == old(counts[d])
    {
      assert Meets(delay, |probed|) && (|probed| - delay) / HOP == i;
      Passed(a, points, probed, sample, delay, sums[delay], energies[delay], counts[delay]);
      sums[delay] := a.mulAdd(sums[delay], sample, points[i]);
      energies[delay] := a.mulAdd(energies[delay], sample, sample);
      counts[delay] := counts[delay] + 1;
    }

    method Correlate(frame: nat, sample: N)
      requires Shaped() && CorrelationRight()
      requires frame >= probeStart ==> frame == probeStart + |probed|
      modifies sums, energies, counts, this`probed
      ensures CorrelationRight() && probed == if frame < probeStart then old(probed) else old(probed) + [sample]
    {
      if frame < probeStart {
        return;
      }
      hide Correlated;
      var pos := frame - probeStart;
      ghost var xs := probed;
      var lo := 0;
      if pos > maxDelay {
        lo := (pos - maxDelay + 63) / HOP;
      }
      var hi := pos / HOP;
      if hi >= PROBE_POINTS {
        hi := PROBE_POINTS - 1;
      }
      var i := lo;
      while i <= hi
        invariant lo <= i && probed == xs
        invariant forall d :: 0 <= d <= maxDelay ==>
                    Correlated(a, points, if Meets(d, pos) && (pos - d) / HOP < i then xs + [sample] else xs,
                               d, sums[d], energies[d], counts[d])
      {
        AddPoint(pos - i * HOP, i, sample);
        i := i + 1;
      }
      forall d | 0 <= d <= maxDelay
        ensures Correlated(a, points, xs + [sample], d, sums[d], energies[d], counts[d])
      {
        if !Meets(d, pos) {
          Passed(a, points, xs, sample, d, sums[d], energies[d], counts[d]);
        }
      }
      probed := probed + [sample];
    }

    // A window takes one more frame in; if it is its last, the window is finished.
    method Extend(w: nat, frame: nat, value: N)
      requires Shaped() && frame == |sampled| && HOP * w <= frame < HOP * w + WINDOW
      requires re[w % SLOTS] == Slot(a.zero, a.mulAdd, cos, sampled, w % SLOTS)
      requires im[w % SLOTS] == Slot(a.zero, a.mulSub, sin, sampled, w % SLOTS)
      modifies re, im, this`finished
      ensures re[w % SLOTS] == Slot(a.zero, a.mulAdd, cos, sampled + [value], w % SLOTS)
      ensures im[w % SLOTS] == Slot(a.zero, a.mulSub, sin, sampled + [value], w % SLOTS)
      ensures forall k :: 0 <= k < SLOTS && k != w % SLOTS ==> re[k] == old(re[k]) && im[k] == old(im[k])
      ensures finished == if frame - HOP * w == WINDOW - 1
                          then old(finished) + [Offline(a, cos, sin, sampled + [value], w)] else old(finished)
    {
      var i := frame - w * HOP;
      var slot := w % SLOTS;
      BaseOf(slot, frame, w);
      SlotNext(a.zero, a.mulAdd, cos, sampled, value, slot);
      SlotNext(a.zero, a.mulSub, sin, sampled, value, slot);
      re[slot] := a.mulAdd(re[slot], value, cos[i]);
      im[slot] := a.mulSub(im[slot], value, sin[i]);
      if i == WINDOW - 1 {
        finished := finished + [(w * HOP, re[slot], im[slot])];
        re[slot], im[slot] := a.zero, a.zero;
      }
    }

    method Sample(frame: nat, value: N)
      requires Shaped() && WindowsRight() && frame == |sampled|
      modifies re, im, this`sampled, this`finished
      ensures WindowsRight() && sampled == old(sampled) + [value]
    {
      hide Slot, Offline;
      ghost var xs, ys, done := sampled, sampled + [value], finished;
      FinishedNext(a, cos, sin, xs, value, done);
      var window := frame / HOP;
      var back := 0;
      while back < SLOTS && back <= window
        invariant back <= SLOTS && back <= window + 1 && sampled == xs
        invariant forall k :: 0 <= k < SLOTS ==>
                    && re[k] == Slot(a.zero, a.mulAdd, cos, if Visited(k, window, back) then ys else xs, k)
                    && im[k] == Slot(a.zero, a.mulSub, sin, if Visited(k, window, back) then ys else xs, k)
        invariant finished == if back == SLOTS && frame % HOP == HOP - 1
                              then done + [Offline(a, cos, sin, ys, window - 3)] else done
      {
        ghost var slot := (window - back) % SLOTS;
        forall k | 0 <= k < SLOTS ensures Visited(k, window, back + 1) <==> Visited(k, window, back) || k == slot {
          VisitNext(k, window, back);
        }
        VisitNext(slot, window, back);
        Extend(window - back, frame, value);
        back := back + 1;
      }
      forall k | 0 <= k < SLOTS
        ensures re[k] == Slot(a.zero, a.mulAdd, cos, ys, k) && im[k] == Slot(a.zero, a.mulSub, sin, ys, k)
      {
        if !Visited(k, window, back) { Unvisited(a, cos, sin, xs, value, k, window); }
      }
      sampled := ys;
    }

    // One frame of the capture.
    method Hear(frame: nat, sample: N)
      requires Hearing() && frame == |captured|
      modifies sums, energies, counts, re, im, this`captured, this`probed, this`sampled, this`finished
      ensures Hearing() && captured == old(captured) + [sample]
    {
      captured := captured + [sample];
      if frame < probeEnd {
        Correlate(frame, sample);
      } else {
        Sample(frame - probeEnd, sample);
      }
    }

    // One period of the capture.
    method Callback(input: array<N>)
      requires Valid() && (input as object) !in {sums as object, energies, counts, re, im}
      modifies this, sums, energies, counts, re, im
      ensures Valid() && captured == old(captured) + input[..]
    {
      for i := 0 to input.Length
        invariant Hearing() && input[..] == old(input[..])
        invariant captured == old(captured) + input[..i] && processed == |old(captured)|
      {
        Hear(processed + i, input[i]);
      }
      processed := processed + input.Length;
    }

    // Once the probe is over, every delay holds the direct correlation of the
    // capture with all the points, and its energy.
    lemma ProbeMeasured(delay: nat)
      requires Valid() && processed >= probeEnd && delay <= maxDelay
      ensures probed == captured[probeStart..probeEnd] && counts[delay] == PROBE_POINTS
      ensures delay + HOP * (PROBE_POINTS - 1) < |probed|
      ensures sums[delay] == Direct(a, probed, points, delay, PROBE_POINTS)
      ensures energies[delay] == Energy(a, probed, delay, PROBE_POINTS)
    {
      AllCounted(delay, maxDelay, |probed|);
      assert Correlated(a, points, probed, delay, sums[delay], energies[delay], counts[delay]);
    }

    // The windows finished so far are the offline windows of the capture behind
    // the probe, all that fit, in order.
    lemma WindowsMeasured(w: nat)
      requires Valid() && processed >= probeEnd
      ensures sampled == captured[probeEnd..]
      ensures |finished| == if |sampled| < WINDOW then 0 else (|sampled| - WINDOW) / HOP + 1
      ensures w < |finished| ==> HOP * w + WINDOW <= |sampled| && finished[w] == Offline(a, cos, sin, sampled, w)
    {}
  }

  // A slot no window of which has begun stays at zero.
  lemma Unvisited<N>(a: Arithmetic<N>, cos: seq<N>, sin: seq<N>, xs: seq<N>, x: N, k: nat, window: nat)
    requires k < SLOTS && |cos| == |sin| == WINDOW && window == |xs| / HOP
    requires !Visited(k, window, if window < SLOTS - 1 then window + 1 else SLOTS)
    ensures Slot(a.zero, a.mulAdd, cos, xs + [x], k) == Slot(a.zero, a.mulAdd, cos, xs, k)
    ensures Slot(a.zero, a.mulSub, sin, xs + [x], k) == Slot(a.zero, a.mulSub, sin, xs, k)
  {
    if k <= window {
      AllVisited(k, window);
    } else {
      SlotNext(a.zero, a.mulAdd, cos, xs, x, k);
      SlotNext(a.zero, a.mulSub, sin, xs, x, k);
    }
  }

  lemma AllVisited(k: nat, window: nat)
    requires k < SLOTS && k <= window
    ensures Visited(k, window, if window < SLOTS - 1 then window + 1 else SLOTS)
  {}

  lemma VisitNext(k: nat, window: nat, back: nat)
    requires k < SLOTS && back <= window && back < SLOTS
    ensures Visited(k, window, back + 1) <==> Visited(k, window, back) || k == (window - back) % SLOTS
    ensures k == (window - back) % SLOTS ==> !Visited(k, window, back)
  {}
}
