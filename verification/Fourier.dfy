/**
 The discrete Fourier transform as polynomial evaluation, the recursion that a
 radix-2 transform follows, and the two theorems the latency measurement rests
 on: the inverse transform undoes the transform, and a product of spectra with
 one conjugated is the spectrum of the circular correlation.
 */
module Fourier {
  import opened Bits
  import opened Complex

  // a[0] + a[1]*x + a[2]*x^2 + ...
  function Eval(a: seq<C>, x: C): C {
    if a == [] then ZERO else Add(a[0], Mul(x, Eval(a[1..], x)))
  }

  // Entry k of the transform of a over the root w is sum of a[j] * w^(j*k).
  function Dft(a: seq<C>, w: C): (r: seq<C>)
    ensures |r| == |a|
  {
    seq(|a|, (k: nat) => Eval(a, Pow(w, k)))
  }

  // ws[s] plays the principal root of order 2^s: what cos and sin of
  // 2*pi/2^s give when they are exact.
  ghost predicate Principal(ws: seq<C>) {
    && |ws| > 0 && ws[0] == ONE
    && (|ws| > 1 ==> ws[1] == Neg(ONE))
    && forall s {:trigger Mul(ws[s], ws[s])} :: 1 < s < |ws| ==> Mul(ws[s], ws[s]) == ws[s - 1]
  }

  // vs holds the reciprocals of ws.
  ghost predicate Reciprocal(ws: seq<C>, vs: seq<C>) {
    |ws| == |vs| && forall s {:trigger Mul(vs[s], ws[s])} :: 0 <= s < |ws| ==> Mul(vs[s], ws[s]) == ONE
  }

  function Evens(a: seq<C>): (r: seq<C>)
    requires |a| % 2 == 0
    ensures |r| == |a| / 2
  {
    seq(|a| / 2, (i: nat) requires i < |a| / 2 => a[2 * i])
  }

  function Odds(a: seq<C>): (r: seq<C>)
    requires |a| % 2 == 0
    ensures |r| == |a| / 2
  {
    seq(|a| / 2, (i: nat) requires i < |a| / 2 => a[2 * i + 1])
  }

  // One butterfly column: what one block of the transform's innermost loop
  // leaves.
  function Combine(e: seq<C>, o: seq<C>, w: C): (r: seq<C>)
    requires |e| == |o|
    ensures |r| == 2 * |e|
  {
    seq(|e|, (i: nat) requires i < |e| => Add(e[i], Mul(o[i], Pow(w, i))))
    + seq(|e|, (i: nat) requires i < |e| => Sub(e[i], Mul(o[i], Pow(w, i))))
  }

  // The order the bit-reversal loop puts 2^s values in: evens before odds, at
  // every level.
  function BitReversed(a: seq<C>, s: nat): (r: seq<C>)
    requires |a| == Pow2(s)
    ensures |r| == |a|
    decreases s
  {
    if s == 0 then a else BitReversed(Evens(a), s - 1) + BitReversed(Odds(a), s - 1)
  }

  // All butterfly columns over a block of 2^s values in bit-reversed order.
  function Butterflies(b: seq<C>, s: nat, ws: seq<C>): (r: seq<C>)
    requires |b| == Pow2(s) && s < |ws|
    ensures |r| == |b|
  {
    if s == 0 then b else
    var h := Pow2(s - 1);
    Combine(Butterflies(b[..h], s - 1, ws), Butterflies(b[h..], s - 1, ws), ws[s])
  }

  // -- Evaluation is linear -------------------------------------------------

  function AddSeq(a: seq<C>, b: seq<C>): (r: seq<C>)
    requires |a| == |b|
    ensures |r| == |a|
  {
    seq(|a|, (i: nat) requires i < |a| => Add(a[i], b[i]))
  }

  // c*a[0], c*y*a[1], c*y^2*a[2], ...
  function Twist(a: seq<C>, c: C, y: C): (r: seq<C>)
    ensures |r| == |a|
  {
    seq(|a|, (i: nat) requires i < |a| => Mul(Mul(c, Pow(y, i)), a[i]))
  }

  lemma {:induction false} EvalAdd(a: seq<C>, b: seq<C>, x: C)
    requires |a| == |b|
    ensures Eval(AddSeq(a, b), x) == Add(Eval(a, x), Eval(b, x))
  {
    if a == [] {
    } else {
      assert AddSeq(a, b)[1..] == AddSeq(a[1..], b[1..]);
      EvalAdd(a[1..], b[1..], x);
      AddStep(a[0], b[0], x, Eval(a[1..], x), Eval(b[1..], x));
    }
  }

  lemma AddStep(a: C, b: C, x: C, p: C, q: C)
    ensures Add(Add(a, b), Mul(x, Add(p, q))) == Add(Add(a, Mul(x, p)), Add(b, Mul(x, q)))
  {
    hide Mul;
    Distribute(x, p, q);
  }

  lemma {:induction false} EvalTwist(a: seq<C>, c: C, y: C, x: C)
    ensures Eval(Twist(a, c, y), x) == Mul(c, Eval(a, Mul(x, y)))
  {
    hide Mul, Add;
    if a == [] {
      ZeroLaws(c);
    } else {
      var t := Twist(a[1..], Mul(c, y), y);
      assert Twist(a, c, y)[1..] == t by {
        forall i | 0 <= i < |a| - 1 ensures Twist(a, c, y)[1..][i] == t[i] {
          MulAssoc(c, y, Pow(y, i));
        }
      }
      EvalTwist(a[1..], Mul(c, y), y, x);
      MulOne(c);
      TwistStep(a[0], c, y, x, Eval(a[1..], Mul(x, y)));
    }
  }

  lemma TwistStep(a: C, c: C, y: C, x: C, p: C)
    ensures Add(Mul(c, a), Mul(x, Mul(Mul(c, y), p))) == Mul(c, Add(a, Mul(Mul(x, y), p)))
  {
    hide *;
    Distribute(c, a, Mul(Mul(x, y), p));
    MulAssoc(x, Mul(c, y), p);
    MulAssoc(x, c, y);
    MulComm(x, c);
    MulAssoc(c, x, y);
    MulAssoc(c, Mul(x, y), p);
  }

  lemma {:induction false} EvalConcat(a: seq<C>, b: seq<C>, x: C)
    ensures Eval(a + b, x) == Add(Eval(a, x), Mul(Pow(x, |a|), Eval(b, x)))
  {
    hide Mul, Add;
    if a == [] {
      assert a + b == b;
      MulOne(Eval(b, x));
      ZeroLaws(Eval(b, x));
    } else {
      assert (a + b)[1..] == a[1..] + b;
      EvalConcat(a[1..], b, x);
      ConcatStep(a[0], x, Eval(a[1..], x), Pow(x, |a| - 1), Eval(b, x));
    }
  }

  lemma ConcatStep(a: C, x: C, p: C, y: C, q: C)
    ensures Add(a, Mul(x, Add(p, Mul(y, q)))) == Add(Add(a, Mul(x, p)), Mul(Mul(x, y), q))
  {
    hide Mul;
    Distribute(x, p, Mul(y, q));
    MulAssoc(x, y, q);
  }

  // -- The transform ---------------------------------------------------------

  lemma {:induction false} EvalSplit(a: seq<C>, x: C)
    requires |a| % 2 == 0
    ensures Eval(a, x) == Add(Eval(Evens(a), Mul(x, x)), Mul(x, Eval(Odds(a), Mul(x, x))))
    decreases |a|
  {
    hide Mul, Add;
    if a == [] {
      ZeroLaws(x);
      ZeroLaws(ZERO);
    } else {
      assert Evens(a)[1..] == Evens(a[2..]) && Odds(a)[1..] == Odds(a[2..]);
      EvalSplit(a[2..], x);
      assert a[1..][1..] == a[2..];
      SplitStep(a[0], a[1], x, Eval(Evens(a[2..]), Mul(x, x)), Eval(Odds(a[2..]), Mul(x, x)));
    }
  }

  lemma SplitStep(a: C, b: C, x: C, e: C, o: C)
    ensures Add(a, Mul(x, Add(b, Mul(x, Add(e, Mul(x, o))))))
         == Add(Add(a, Mul(Mul(x, x), e)), Mul(x, Add(b, Mul(Mul(x, x), o))))
  {
    hide Mul;
    Distribute(x, e, Mul(x, o));
    Distribute(x, b, Add(Mul(x, e), Mul(x, Mul(x, o))));
    Distribute(x, Mul(x, e), Mul(x, Mul(x, o)));
    MulAssoc(x, x, e);
    MulAssoc(x, x, o);
    Distribute(x, b, Mul(Mul(x, x), o));
  }

  lemma NegLaws(a: C, b: C)
    ensures Mul(Neg(a), b) == Neg(Mul(a, b)) == Mul(a, Neg(b))
    ensures Neg(Neg(a)) == a
    ensures Sub(a, b) == Add(a, Neg(b))
  {}

  // The principal root of order 2^s reaches -1 half way round and 1 at the end.
  lemma {:induction false} HalfTurn(ws: seq<C>, s: nat)
    requires Principal(ws) && s < |ws|
    ensures s > 0 ==> Pow(ws[s], Pow2(s - 1)) == Neg(ONE)
    ensures Pow(ws[s], Pow2(s)) == ONE
  {
    hide Mul, Neg;
    if s == 0 {
      assert Pow(ONE, 1) == Mul(ONE, Pow(ONE, 0));
      MulOne(ONE);
    } else if s == 1 {
      assert Pow(ws[1], 1) == Mul(ws[1], Pow(ws[1], 0));
      MulOne(ws[1]);
      FullTurn(ws[1], 1);
    } else {
      HalfTurn(ws, s - 1);
      PowSquare(ws[s], Pow2(s - 2));
      FullTurn(ws[s], Pow2(s - 1));
    }
  }

  lemma FullTurn(w: C, h: nat)
    requires Pow(w, h) == Neg(ONE)
    ensures Pow(w, 2 * h) == ONE
  {
    hide Mul, Neg;
    PowSquare(w, h);
    NegLaws(ONE, Neg(ONE));
    MulOne(Neg(ONE));
  }

  // Running the butterflies over bit-reversed input is the transform.
  lemma {:induction false} ButterfliesAreDft(a: seq<C>, s: nat, ws: seq<C>)
    requires |a| == Pow2(s) && s < |ws| && Principal(ws)
    ensures Butterflies(BitReversed(a, s), s, ws) == Dft(a, ws[s])
    decreases s
  {
    hide Mul, Add, Sub, Neg;
    if s == 0 {
      var w := ws[0];
      assert Dft(a, w)[0] == Eval(a, Pow(w, 0)) == Add(a[0], Mul(ONE, ZERO));
      ZeroLaws(ONE);
      ZeroLaws(a[0]);
    } else {
      var h, w, b := Pow2(s - 1), ws[s], BitReversed(a, s);
      assert b[..h] == BitReversed(Evens(a), s - 1) && b[h..] == BitReversed(Odds(a), s - 1);
      ButterfliesAreDft(Evens(a), s - 1, ws);
      ButterfliesAreDft(Odds(a), s - 1, ws);
      CombineIsDft(a, s, ws);
    }
  }

  lemma CombineIsDft(a: seq<C>, s: nat, ws: seq<C>)
    requires 0 < s < |ws| && |a| == Pow2(s) && Principal(ws)
    ensures Combine(Dft(Evens(a), ws[s - 1]), Dft(Odds(a), ws[s - 1]), ws[s]) == Dft(a, ws[s])
  {
    hide Mul, Add, Sub, Neg;
    var h, w, v := Pow2(s - 1), ws[s], ws[s - 1];
    var d := Combine(Dft(Evens(a), v), Dft(Odds(a), v), w);
    assert s > 1 ==> Mul(w, w) == v;
    assert Mul(w, w) == v by {
      if s == 1 { NegLaws(ONE, Neg(ONE)); MulOne(Neg(ONE)); }
    }
    forall k: nat | k < h
      ensures d[k] == Dft(a, w)[k]
      ensures d[h..][k] == Dft(a, w)[h..][k]
    {
      CombineAt(a, s, ws, k);
    }
    forall k | 0 <= k < 2 * h ensures d[k] == Dft(a, w)[k] {
      if k >= h { assert d[h..][k - h] == Dft(a, w)[h..][k - h]; }
    }
  }

  // Entries k and k + h of the transform, from entry k of the two halves.
  lemma CombineAt(a: seq<C>, s: nat, ws: seq<C>, k: nat)
    requires 0 < s < |ws| && |a| == Pow2(s) && Principal(ws) && k < Pow2(s - 1)
    requires Mul(ws[s], ws[s]) == ws[s - 1]
    ensures var w, v := ws[s], ws[s - 1];
            var m := Mul(Eval(Odds(a), Pow(v, k)), Pow(w, k));
            && Eval(a, Pow(w, k)) == Add(Eval(Evens(a), Pow(v, k)), m)
            && Eval(a, Pow(w, k + Pow2(s - 1))) == Sub(Eval(Evens(a), Pow(v, k)), m)
  {
    hide Mul, Add, Sub, Neg, Eval;
    var w := ws[s];
    var x, y := Pow(w, k), Pow(w, k + Pow2(s - 1));
    PowSquare(w, k);
    EvalSplit(a, x);
    var e, o := Eval(Evens(a), Mul(x, x)), Eval(Odds(a), Mul(x, x));
    MulComm(o, x);
    HalfTurn(ws, s);
    PowAdd(w, k, Pow2(s - 1));
    NegLaws(x, ONE);
    MulOne(x);
    assert y == Neg(x);
    EvalSplit(a, y);
    NegLaws(x, Neg(x));
    NegLaws(x, x);
    NegLaws(Mul(x, x), x);
    NegLaws(x, o);
    NegLaws(e, Mul(o, x));
  }

  // -- The inverse -----------------------------------------------------------------

  // The transform over the reciprocal root, divided by the length.
  function Inverse(t: seq<C>, v: C): (r: seq<C>)
    ensures |r| == |t|
  {
    seq(|t|, (l: nat) requires l < |t| => Over(Eval(t, Pow(v, l)), |t|))
  }

  lemma {:induction false} MinusOnePow(n: nat)
    ensures Pow(Neg(ONE), n) == if n % 2 == 0 then ONE else Neg(ONE)
  {
    hide Mul, Neg;
    if n > 0 {
      MinusOnePow(n - 1);
      NegLaws(ONE, Neg(ONE));
      MulOne(Neg(ONE));
    }
  }

  // v = 1/w: v^(2m+1) * w == v^(2m) == (v*v)^m.
  lemma OddPower(v: C, w: C, m: nat)
    requires Mul(v, w) == ONE
    ensures Mul(Pow(v, 2 * m + 1), w) == Pow(Mul(v, v), m)
  {
    hide Mul;
    PowSquare(v, m);
    MulComm(v, Pow(v, 2 * m));
    MulAssoc(Pow(v, 2 * m), v, w);
    MulOne(Pow(v, 2 * m));
  }

  lemma RootSquare(ws: seq<C>, s: nat)
    requires Principal(ws) && 0 < s < |ws|
    ensures Mul(ws[s], ws[s]) == ws[s - 1]
  {
    hide Mul, Neg;
    if s == 1 { NegLaws(ONE, Neg(ONE)); MulOne(Neg(ONE)); }
  }

  lemma CombineParts(e: seq<C>, o: seq<C>, w: C)
    requires |e| == |o|
    ensures Combine(e, o, w) == AddSeq(e, Twist(o, ONE, w)) + AddSeq(e, Twist(o, Neg(ONE), w))
  {
    hide Mul, Pow, Add, Sub, Neg;
    var n, d := |e|, Combine(e, o, w);
    var p, q := AddSeq(e, Twist(o, ONE, w)), AddSeq(e, Twist(o, Neg(ONE), w));
    forall i: nat | i < n ensures d[i] == p[i] && d[n + i] == q[i] {
      TwistAt(o[i], Pow(w, i), e[i]);
    }
    assert d[..n] == p && d[n..] == q;
  }

  lemma TwistAt(o: C, x: C, e: C)
    ensures Mul(Mul(ONE, x), o) == Mul(o, x) && Mul(Mul(Neg(ONE), x), o) == Neg(Mul(o, x))
    ensures Sub(e, Mul(o, x)) == Add(e, Neg(Mul(o, x)))
  {
    hide Mul, Add, Sub, Neg;
    MulOne(x);
    NegLaws(ONE, x);
    NegLaws(x, o);
    MulComm(o, x);
    NegLaws(e, Mul(o, x));
  }

  // A butterfly column evaluated at y: the halves add or cancel.
  lemma EvalCombine(e: seq<C>, o: seq<C>, w: C, y: C)
    requires |e| == |o|
    ensures var p, q := Eval(e, y), Eval(o, Mul(y, w));
            Eval(Combine(e, o, w), y) == Add(Add(p, q), Mul(Pow(y, |e|), Add(p, Neg(q))))
  {
    hide *;
    CombineParts(e, o, w);
    EvalConcat(AddSeq(e, Twist(o, ONE, w)), AddSeq(e, Twist(o, Neg(ONE), w)), y);
    EvalAdd(e, Twist(o, ONE, w), y);
    EvalAdd(e, Twist(o, Neg(ONE), w), y);
    EvalTwist(o, ONE, w, y);
    EvalTwist(o, Neg(ONE), w, y);
    MulOne(Eval(o, Mul(y, w)));
    NegLaws(ONE, Eval(o, Mul(y, w)));
  }

  lemma AddOrCancel(p: C, q: C)
    ensures Add(Add(p, q), Mul(ONE, Add(p, Neg(q)))) == Add(p, p)
    ensures Add(Add(p, q), Mul(Neg(ONE), Add(p, Neg(q)))) == Add(q, q)
  {}

  lemma {:induction false} InverseAt(a: seq<C>, s: nat, ws: seq<C>, vs: seq<C>, l: nat)
    requires |a| == Pow2(s) && s < |ws| && Principal(ws) && Principal(vs) && Reciprocal(ws, vs)
    requires l < |a|
    ensures Eval(Dft(a, ws[s]), Pow(vs[s], l)) == Mul(Real(Pow2(s) as real), a[l])
    decreases s
  {
    hide Mul, Add, Sub, Neg, Combine, Eval;
    var w, v := ws[s], vs[s];
    if s == 0 {
      OnePoint(a, ws[0], Pow(v, 0));
      MulOne(a[0]);
    } else {
      var h, m := Pow2(s - 1), l / 2;
      var e, o := Dft(Evens(a), ws[s - 1]), Dft(Odds(a), ws[s - 1]);
      CombineIsDft(a, s, ws);
      RootSquare(vs, s);
      HalfTurn(vs, s);
      PowPow(v, l, h);
      PowPow(v, h, l);
      assert l * h == h * l;
      MinusOnePow(l);
      EvalCombine(e, o, w, Pow(v, l));
      AddOrCancel(Eval(e, Pow(v, l)), Eval(o, Mul(Pow(v, l), w)));
      Double(h, a[l]);
      if l % 2 == 0 {
        PowSquare(v, m);
        InverseAt(Evens(a), s - 1, ws, vs, m);
      } else {
        OddPower(v, w, m);
        InverseAt(Odds(a), s - 1, ws, vs, m);
      }
    }
  }

  lemma OnePoint(a: seq<C>, w: C, y: C)
    requires |a| == 1
    ensures Eval(Dft(a, w), y) == a[0]
  {
    hide Mul, Add;
    var d := Dft(a, w);
    assert d[0] == Eval(a, Pow(w, 0)) == Add(a[0], Mul(ONE, ZERO));
    ZeroLaws(ONE);
    ZeroLaws(a[0]);
    ZeroLaws(y);
  }

  lemma Double(h: nat, z: C)
    ensures Add(Mul(Real(h as real), z), Mul(Real(h as real), z)) == Mul(Real((2 * h) as real), z)
  {}

  // Transform, then inverse transform: nothing changed.
  lemma InverseUndoes(a: seq<C>, s: nat, ws: seq<C>, vs: seq<C>)
    requires |a| == Pow2(s) && s < |ws| && Principal(ws) && Principal(vs) && Reciprocal(ws, vs)
    ensures Inverse(Dft(a, ws[s]), vs[s]) == a
  {
    hide Mul, Eval, Pow;
    var t := Dft(a, ws[s]);
    forall l: nat | l < |a| ensures Inverse(t, vs[s])[l] == a[l] {
      InverseAt(a, s, ws, vs, l);
      OverMul(a[l], |a|);
    }
  }

  lemma OverMul(z: C, n: nat)
    requires n > 0
    ensures Over(Mul(Real(n as real), z), n) == z
  {}

  // -- Correlation ----------------------------------------------------------------

  function Rotate(x: seq<C>): (r: seq<C>)
    requires |x| > 0
    ensures |r| == |x|
  {
    x[1..] + [x[0]]
  }

  function Scaled(c: C, x: seq<C>): (r: seq<C>)
    ensures |r| == |x|
  {
    seq(|x|, (i: nat) requires i < |x| => Mul(c, x[i]))
  }

  // Entry i is the sum of p[j] * x[(i+j) mod |x|].
  function Circular(x: seq<C>, p: seq<C>): (r: seq<C>)
    requires |x| > 0
    ensures |r| == |x|
    decreases |p|
  {
    if p == [] then seq(|x|, (i: nat) => ZERO)
    else AddSeq(Scaled(p[0], x), Circular(Rotate(x), p[1..]))
  }

  lemma {:induction false} EvalZeros(n: nat, y: C)
    ensures Eval(seq(n, (i: nat) => ZERO), y) == ZERO
  {
    hide Mul, Add;
    if n > 0 {
      assert seq(n, (i: nat) => ZERO)[1..] == seq(n - 1, (i: nat) => ZERO);
      EvalZeros(n - 1, y);
      ZeroLaws(y);
      ZeroLaws(ZERO);
    }
  }

  lemma {:induction false} EvalScaled(c: C, x: seq<C>, y: C)
    ensures Eval(Scaled(c, x), y) == Mul(c, Eval(x, y))
  {
    hide Mul, Add;
    if x == [] {
      ZeroLaws(c);
    } else {
      assert Scaled(c, x)[1..] == Scaled(c, x[1..]);
      EvalScaled(c, x[1..], y);
      Distribute(c, x[0], Mul(y, Eval(x[1..], y)));
      MulAssoc(y, c, Eval(x[1..], y));
      MulAssoc(c, y, Eval(x[1..], y));
      MulComm(y, c);
    }
  }

  // Rotating by one multiplies an evaluation at a root of unity by 1/y.
  lemma EvalRotate(x: seq<C>, y: C, z: C)
    requires |x| > 0 && Pow(y, |x|) == ONE && Mul(y, z) == ONE
    ensures Eval(Rotate(x), y) == Mul(z, Eval(x, y))
  {
    hide Mul, Add;
    var t, n := x[1..], |x|;
    EvalConcat(t, [x[0]], y);
    var tail := Eval([x[0]], y);
    assert tail == Add(x[0], Mul(y, Eval([], y)));
    ZeroLaws(y);
    ZeroLaws(x[0]);
    assert Eval(x, y) == Add(x[0], Mul(y, Eval(t, y)));
    var p := Pow(y, n - 1);
    assert Mul(y, p) == ONE;
    assert p == z by {
      MulAssoc(z, y, p);
      MulComm(z, y);
      MulOne(p);
      MulOne(z);
    }
    Distribute(z, x[0], Mul(y, Eval(t, y)));
    MulAssoc(z, y, Eval(t, y));
    MulComm(z, y);
    MulOne(Eval(t, y));
    AddComm(Mul(z, x[0]), Eval(t, y));
  }

  lemma AddComm(a: C, b: C)
    ensures Add(a, b) == Add(b, a)
  {}

  // The spectrum of a circular correlation is the product of one spectrum and
  // the other taken at the reciprocal point.
  lemma {:induction false} EvalCircular(x: seq<C>, p: seq<C>, y: C, z: C)
    requires |x| > 0 && Pow(y, |x|) == ONE && Mul(y, z) == ONE
    ensures Eval(Circular(x, p), y) == Mul(Eval(x, y), Eval(p, z))
    decreases |p|
  {
    hide Mul, Add, Pow;
    if p == [] {
      EvalZeros(|x|, y);
      ZeroLaws(Eval(x, y));
    } else {
      var q, r := p[1..], Rotate(x);
      EvalCircular(r, q, y, z);
      EvalAdd(Scaled(p[0], x), Circular(r, q), y);
      EvalScaled(p[0], x, y);
      EvalRotate(x, y, z);
      CircularStep(p[0], Eval(x, y), z, Eval(q, z));
    }
  }

  lemma CircularStep(c: C, x: C, z: C, q: C)
    ensures Add(Mul(c, x), Mul(Mul(z, x), q)) == Mul(x, Add(c, Mul(z, q)))
  {
    hide Mul, Add;
    MulComm(c, x);
    MulComm(z, x);
    MulAssoc(x, z, q);
    Distribute(x, c, Mul(z, q));
  }

  ghost predicate AllReal(p: seq<C>) {
    forall j :: 0 <= j < |p| ==> p[j].im == 0.0
  }

  lemma {:induction false} EvalConj(p: seq<C>, y: C)
    requires AllReal(p)
    ensures Eval(p, Conj(y)) == Conj(Eval(p, y))
  {
    hide Mul;
    if p == [] {
    } else {
      EvalConj(p[1..], y);
      ConjMul(y, Eval(p[1..], y));
    }
  }

  // The spectrum of x times the conjugate spectrum of p, point by point.
  function Product(x: seq<C>, p: seq<C>): (r: seq<C>)
    requires |x| == |p|
    ensures |r| == |x|
  {
    seq(|x|, (k: nat) requires k < |x| => Mul(x[k], Conj(p[k])))
  }

  // ws and vs are the two conjugate root tables of the two directions.
  ghost predicate RootTables(ws: seq<C>, vs: seq<C>) {
    && Principal(ws) && Principal(vs) && Reciprocal(ws, vs)
    && forall i {:trigger vs[i]} :: 0 <= i < |ws| ==> vs[i] == Conj(ws[i])
  }

  // Multiplying the spectrum of x by the conjugate spectrum of a real p and
  // transforming back is the circular correlation of x with p.
  lemma CorrelationTheorem(x: seq<C>, p: seq<C>, s: nat, ws: seq<C>, vs: seq<C>)
    requires |x| == |p| == Pow2(s) && s < |ws| && AllReal(p) && RootTables(ws, vs)
    ensures Inverse(Product(Dft(x, ws[s]), Dft(p, ws[s])), vs[s]) == Circular(x, p)
  {
    hide Mul, Eval, Pow, Circular, Inverse, Conj, AllReal;
    var w, c := ws[s], Circular(x, p);
    var product := Product(Dft(x, w), Dft(p, w));
    forall k: nat | k < |x| ensures product[k] == Dft(c, w)[k] {
      SpectrumAt(x, p, s, ws, vs, k);
    }
    assert product == Dft(c, w);
    InverseUndoes(c, s, ws, vs);
  }

  lemma SpectrumAt(x: seq<C>, p: seq<C>, s: nat, ws: seq<C>, vs: seq<C>, k: nat)
    requires |x| == |p| == Pow2(s) && s < |ws| && AllReal(p) && RootTables(ws, vs)
    ensures var y := Pow(ws[s], k);
            Eval(Circular(x, p), y) == Mul(Eval(x, y), Conj(Eval(p, y)))
  {
    hide Mul, Eval, Pow, Circular, Conj, AllReal;
    var w, v := ws[s], vs[s];
    RootPowers(ws, vs, s, k);
    EvalCircular(x, p, Pow(w, k), Pow(v, k));
    ConjPow(w, k);
    EvalConj(p, Pow(w, k));
  }

  lemma RootPowers(ws: seq<C>, vs: seq<C>, s: nat, k: nat)
    requires Principal(ws) && Reciprocal(ws, vs) && s < |ws|
    ensures Pow(Pow(ws[s], k), Pow2(s)) == ONE
    ensures Mul(Pow(ws[s], k), Pow(vs[s], k)) == ONE
  {
    hide Mul;
    var w, v := ws[s], vs[s];
    HalfTurn(ws, s);
    PowPow(w, k, Pow2(s));
    PowPow(w, Pow2(s), k);
    assert k * Pow2(s) == Pow2(s) * k;
    PowOne(k);
    MulComm(v, w);
    PowMul(w, v, k);
  }
}
