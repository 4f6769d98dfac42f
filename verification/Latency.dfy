/**
 The latency measurement: correlate a capture with a probe through padded
 transforms and report the first delay whose correlation is largest.
 */
module Latency {
  import opened Bits
  import opened Complex
  import opened Fourier
  import opened Fft

  datatype Result = Delay(frames: nat) | InvalidInput | NoPeak

  // The direct linear correlation at one lag: the sum of probe[j]*capture[lag+j],
  // the capture being silent past its end.
  function Correlation(capture: seq<real>, probe: seq<real>, lag: nat): real {
    if probe == [] then 0.0
    else probe[0] * (if lag < |capture| then capture[lag] else 0.0) + Correlation(capture, probe[1..], lag + 1)
  }

  function Abs(r: real): (m: real)
    ensures m >= 0.0 && (m == r || m == -r)
  {
    if r < 0.0 then -r else r
  }

  function Strength(capture: seq<real>, probe: seq<real>, lag: nat): real {
    Abs(Correlation(capture, probe, lag))
  }

  // xs as complex values, zero-padded to n.
  function Padded(xs: seq<real>, n: nat): (r: seq<C>)
    ensures |r| == n
  {
    seq(n, (i: nat) => if i < |xs| then Real(xs[i]) else ZERO)
  }

  // -- With enough padding the circular correlation is the linear one --------------

  function Shift(x: seq<C>, j: nat): (r: seq<C>)
    requires j <= |x|
    ensures |r| == |x|
  {
    x[j..] + x[..j]
  }

  lemma RotateShift(x: seq<C>, j: nat)
    requires j < |x|
    ensures Rotate(Shift(x, j)) == Shift(x, j + 1)
  {}

  lemma {:induction false} CircularOfZeros(x: seq<C>, p: seq<C>, i: nat)
    requires i < |x| && forall j :: 0 <= j < |p| ==> p[j] == ZERO
    ensures Circular(x, p)[i] == ZERO
    decreases |p|
  {
    hide Mul;
    if p != [] {
      CircularOfZeros(Rotate(x), p[1..], i);
      ZeroLaws(x[i]);
    }
  }

  lemma {:induction false} CircularIsLinear(capture: seq<real>, probe: seq<real>, n: nat, j: nat, i: nat)
    requires 0 < |probe| && |capture| + |probe| - 1 <= n && i < |capture| && j <= |probe|
    ensures Circular(Shift(Padded(capture, n), j), Padded(probe, n)[j..])[i].re
         == Correlation(capture, probe[j..], i + j)
    decreases |probe| - j
  {
    hide Mul, Shift, Rotate;
    var x, p := Padded(capture, n), Padded(probe, n)[j..];
    if j == |probe| {
      CircularOfZeros(Shift(x, j), p, i);
    } else {
      RotateShift(x, j);
      CircularIsLinear(capture, probe, n, j + 1, i);
      assert p[1..] == Padded(probe, n)[j + 1..];
      assert probe[j..][1..] == probe[j + 1..];
      ShiftAt(x, j, i);
      RealMul(p[0], x[i + j]);
    }
  }

  lemma ShiftAt(x: seq<C>, j: nat, i: nat)
    requires i + j < |x|
    ensures Shift(x, j)[i] == x[i + j]
  {}

  lemma RealMul(a: C, b: C)
    requires a.im == 0.0 == b.im
    ensures Mul(a, b).re == a.re * b.re
  {}

  // What the three transforms leave at index i.
  lemma SpectralCorrelation(capture: seq<real>, probe: seq<real>, s: nat, turns: seq<C>, i: nat)
    requires 0 < |probe| && |capture| + |probe| - 1 <= Pow2(s) && i < |capture|
    requires s < |turns| && Turns(turns)
    ensures var n, w := Pow2(s), Direction(turns, false)[s];
            var product := Product(Dft(Padded(capture, n), w), Dft(Padded(probe, n), w));
            i < n && Inverse(product, turns[s])[i].re == Correlation(capture, probe, i)
  {
    hide *;
    var n := Pow2(s);
    var x, p := Padded(capture, n), Padded(probe, n);
    DirectionsAreRootTables(turns);
    PaddedIsReal(probe, n);
    CorrelationTheorem(x, p, s, Direction(turns, false), turns);
    CircularIsLinear(capture, probe, n, 0, i);
    ShiftNone(x);
    assert p[0..] == p && probe[0..] == probe;
  }

  lemma PaddedIsReal(xs: seq<real>, n: nat)
    ensures AllReal(Padded(xs, n))
  {}

  lemma ShiftNone(x: seq<C>)
    ensures Shift(x, 0) == x
  {}

  // -- The routine ---------------------------------------------------------------------

  method Load(xs: seq<real>, n: nat) returns (a: array<C>)
    requires |xs| <= n
    ensures fresh(a) && a.Length == n && a[..] == Padded(xs, n)
  {
    a := new C[n](_ => ZERO);
    for i := 0 to |xs|
      invariant forall k :: 0 <= k < n ==> a[k] == if k < i then Real(xs[k]) else ZERO
    {
      a[i] := Real(xs[i]);
    }
  }

  method MultiplyConj(x: array<C>, p: array<C>)
    requires x.Length == p.Length && x != p
    modifies x
    ensures x[..] == Product(old(x[..]), p[..])
  {
    hide Mul, Conj;
    for i := 0 to x.Length
      invariant forall k :: 0 <= k < i ==> x[k] == Mul(old(x[k]), Conj(p[k]))
      invariant forall k :: i <= k < x.Length ==> x[k] == old(x[k])
      invariant p[..] == old(p[..])
    {
      x[i] := Mul(x[i], Conj(p[i]));
    }
  }

  method TransformSize(need: nat, turns: seq<C>) returns (n: nat, ghost s: nat)
    requires |turns| > 0 && need <= Pow2(|turns| - 1)
    ensures n == Pow2(s) && n >= need && s < |turns|
    ensures s > 0 ==> Pow2(s - 1) < need
  {
    n, s := 1, 0;
    while n < need
      invariant n == Pow2(s) && s < |turns| && (s > 0 ==> Pow2(s - 1) < need)
      decreases |turns| - s
    {
      if s == |turns| - 1 { assert false; }
      n, s := n * 2, s + 1;
    }
  }

  // The circular correlation of capture with probe, in a fresh array.
  method Correlate(capture: seq<real>, probe: seq<real>, turns: seq<C>) returns (x: array<C>)
    requires 0 < |probe| <= |capture|
    requires Turns(turns) && |capture| + |probe| - 1 <= Pow2(|turns| - 1)
    ensures fresh(x) && |capture| <= x.Length
    ensures forall i :: 0 <= i < |capture| ==> x[i].re == Correlation(capture, probe, i)
  {
    hide Product, Dft, Inverse, Correlation, Padded, Direction, Turns;
    TurnsNonEmpty(turns);
    var n, s := TransformSize(|capture| + |probe| - 1, turns);
    x := Load(capture, n);
    var p := Load(probe, n);
    Transform(x, false, turns, s);
    Transform(p, false, turns, s);
    MultiplyConj(x, p);
    Transform(x, true, turns, s);
    forall i | 0 <= i < |capture| ensures x[i].re == Correlation(capture, probe, i) {
      SpectralCorrelation(capture, probe, s, turns, i);
      assert x[..][i] == x[i];
    }
  }

  lemma TurnsNonEmpty(turns: seq<C>)
    requires Turns(turns)
    ensures |turns| > 0
  {}

  // Malformed input is rejected. Otherwise every delay whose frame lies inside
  // the capture competes; silence at all of them is an error, and otherwise the
  // answer is the smallest delay of greatest strength.
  method MeasureLatencyFrames(capture: seq<real>, probe: seq<real>, probeStart: int, maxDelay: int, turns: seq<C>)
    returns (r: Result)
    requires Turns(turns) && |capture| + |probe| <= Pow2(|turns| - 1)
    ensures r.InvalidInput? <==>
              probe == [] || probeStart < 0 || maxDelay < 0 || probeStart + |probe| > |capture|
    ensures r.NoPeak? ==> forall k :: probeStart <= k <= probeStart + maxDelay && k < |capture| ==>
                            Correlation(capture, probe, k) == 0.0
    ensures r.Delay? ==>
              var best := probeStart + r.frames;
              && r.frames <= maxDelay && best < |capture|
              && Strength(capture, probe, best) > 0.0
              && (forall k :: probeStart <= k <= probeStart + maxDelay && k < |capture| ==>
                    Strength(capture, probe, k) <= Strength(capture, probe, best))
              && (forall k :: probeStart <= k < best ==>
                    Strength(capture, probe, k) < Strength(capture, probe, best))
  {
    hide Correlation;
    if probe == [] || probeStart < 0 || maxDelay < 0 || probeStart + |probe| > |capture| {
      return InvalidInput;
    }
    var x := Correlate(capture, probe, turns);
    var lo := probeStart;
    var hi := probeStart + maxDelay;
    if hi >= |capture| {
      hi := |capture| - 1;
    }
    var peakIndex, peak := -1, -1.0;
    var i := lo;
    while i <= hi
      invariant lo <= i <= hi + 1
      invariant peakIndex == -1 ==> i == lo && peak == -1.0
      invariant peakIndex != -1 ==> lo <= peakIndex < i && peak == Strength(capture, probe, peakIndex)
      invariant forall k :: lo <= k < i ==> Strength(capture, probe, k) <= peak
      invariant forall k :: lo <= k < peakIndex ==> Strength(capture, probe, k) < peak
    {
      var v := Abs(x[i].re);
      if v > peak {
        peak, peakIndex := v, i;
      }
      i := i + 1;
    }
    if peakIndex < 0 || peak <= 0.0 {
      forall k | lo <= k <= hi ensures Correlation(capture, probe, k) == 0.0 {
        assert Strength(capture, probe, k) <= peak;
      }
      return NoPeak;
    }
    return Delay(peakIndex - probeStart);
  }
}
