/**
 The in-place radix-2 transform: the bit-reversal loop, the butterfly loops and
 the final scaling, each over one array of complex values.
 */
module Fft {
  import opened Bits
  import opened Complex
  import opened Fourier

  // turns[t] is the root exp(2*pi*i/2^t) that the loop over sizes computes with
  // cos and sin; the forward direction negates the angle.
  ghost predicate Turns(turns: seq<C>) {
    && Principal(turns)
    && forall t {:trigger Conj(turns[t])} :: 0 <= t < |turns| ==> Mul(turns[t], Conj(turns[t])) == ONE
  }

  // The assumption is met: the roots of orders 1, 2 and 4.
  lemma QuarterTurns()
    ensures Turns([ONE, Neg(ONE), C(0.0, 1.0)])
  {
    var turns := [ONE, Neg(ONE), C(0.0, 1.0)];
    UnitRoots();
    hide Mul, Conj, Neg;
    assert turns[0] == ONE && turns[1] == Neg(ONE) && turns[2] == C(0.0, 1.0);
  }

  lemma ProductIs(a: C, b: C, p: real, q: real, r: real, s: real)
    requires a.re * b.re == p && a.im * b.im == q && a.re * b.im == r && a.im * b.re == s
    ensures Mul(a, b) == C(p - q, r + s)
  {}

  lemma UnitRoots()
    ensures Mul(C(0.0, 1.0), C(0.0, 1.0)) == Neg(ONE)
    ensures Mul(ONE, Conj(ONE)) == ONE && Mul(Neg(ONE), Conj(Neg(ONE))) == ONE
    ensures Mul(C(0.0, 1.0), Conj(C(0.0, 1.0))) == ONE
  {
    hide Mul;
    ProductIs(C(0.0, 1.0), C(0.0, 1.0), 0.0, 1.0, 0.0, 0.0);
    ProductIs(C(1.0, 0.0), C(1.0, 0.0), 1.0, 0.0, 0.0, 0.0);
    ProductIs(C(-1.0, 0.0), C(-1.0, 0.0), 1.0, 0.0, 0.0, 0.0);
    ProductIs(C(0.0, 1.0), C(0.0, -1.0), 0.0, -1.0, 0.0, 0.0);
  }

  function Direction(turns: seq<C>, inverse: bool): (ws: seq<C>)
    ensures |ws| == |turns|
  {
    if inverse then turns else seq(|turns|, (t: nat) requires t < |turns| => Conj(turns[t]))
  }

  lemma DirectionsAreRootTables(turns: seq<C>)
    requires Turns(turns)
    ensures RootTables(Direction(turns, false), turns)
    ensures Direction(turns, true) == turns && Principal(turns) && Principal(Direction(turns, false))
  {
    hide Mul, Conj, Neg;
    var ws := Direction(turns, false);
    ConjLaws(ONE);
    forall s | 0 <= s < |ws| ensures ws[s] == Conj(turns[s]) && turns[s] == Conj(ws[s]) {
      ConjLaws(turns[s]);
    }
    forall s | 1 < s < |ws| ensures Mul(ws[s], ws[s]) == ws[s - 1] {
      ConjMul(turns[s], turns[s]);
    }
  }

  // -- Bit reversal ------------------------------------------------------------

  // The s low bits of i in reverse order.
  function Rev(i: nat, s: nat): (r: nat)
    ensures r < Pow2(s)
  {
    if s == 0 then 0 else (if i % 2 == 1 then Pow2(s - 1) else 0) + Rev(i / 2, s - 1)
  }

  lemma {:induction false} RevTop(i: nat, s: nat)
    requires s > 0 && i < Pow2(s - 1)
    ensures Rev(i, s) == 2 * Rev(i, s - 1)
    ensures Rev(i + Pow2(s - 1), s) == 2 * Rev(i, s - 1) + 1
  {
    if s > 1 {
      var h := Pow2(s - 2);
      HalfOfSum(i, h);
      RevTop(i / 2, s - 1);
    }
  }

  lemma HalfOfSum(i: nat, h: nat)
    ensures (i + 2 * h) % 2 == i % 2 && (i + 2 * h) / 2 == i / 2 + h
  {}

  lemma {:induction false} RevInvolution(i: nat, s: nat)
    requires i < Pow2(s)
    ensures Rev(Rev(i, s), s) == i
  {
    if s > 0 {
      RevInvolution(i / 2, s - 1);
      RevTop(Rev(i / 2, s - 1), s);
    }
  }

  // Trailing ones of the counter are leading ones of the reversed counter:
  // clearing them and setting the next bit is the increment.
  lemma {:induction false} RevShift(q: nat, t: nat, s: nat)
    requires t <= s
    ensures Rev(q * Pow2(t), s) == Rev(q, s - t)
  {
    hide Rev;
    if t > 0 {
      DoublePow2(q, t);
      RevShift(q, t - 1, s - 1);
      RevEven(q * Pow2(t - 1), s);
    } else {
      assert Pow2(0) == 1;
    }
  }

  lemma DoublePow2(q: nat, t: nat)
    requires t > 0
    ensures q * Pow2(t) == 2 * (q * Pow2(t - 1))
  {
    var p := Pow2(t - 1);
    assert Pow2(t) == 2 * p;
    Associate2(q, p);
  }

  lemma Associate2(q: nat, p: nat)
    ensures q * (2 * p) == 2 * (q * p)
  {}

  lemma RevEven(p: nat, s: nat)
    requires s > 0
    ensures Rev(2 * p, s) == Rev(p, s - 1)
  {
    assert (2 * p) % 2 == 0 && (2 * p) / 2 == p;
  }

  lemma {:induction false} BitReversedAt(a: seq<C>, s: nat, i: nat)
    requires |a| == Pow2(s) && i < |a|
    ensures BitReversed(a, s)[i] == a[Rev(i, s)]
    decreases s
  {
    hide Rev;
    if s == 0 {
      RevShift(0, 0, 0);
    } else {
      var h := Pow2(s - 1);
      if i < h {
        RevTop(i, s);
        BitReversedAt(Evens(a), s - 1, i);
      } else {
        RevTop(i - h, s);
        BitReversedAt(Odds(a), s - 1, i - h);
      }
    }
  }

  // q + 1 shifted up by t bits.
  function Shifted(q: nat, t: nat): nat {
    (q + 1) * Pow2(t)
  }

  // Invariant of the inner loop: t trailing ones of i-1 have been cleared from
  // the top of j, and q is what is left of i-1 above them.
  ghost predicate Carrying(i: nat, j: nat, bit: nat, t: nat, q: nat, s: nat) {
    t < s && bit == Pow2(s - 1 - t) && i == Shifted(q, t) && j == Rev(q, s - t)
  }

  lemma CarryOn(i: nat, j: nat, bit: nat, t: nat, q: nat, s: nat)
    requires Carrying(i, j, bit, t, q, s) && And(j, bit) != 0 && i < Pow2(s)
    ensures Carrying(i, Xor(j, bit), bit / 2, t + 1, q / 2, s)
  {
    hide And, Xor, Rev, Pow2, Shifted;
    TopBit(q, s - t);
    Halves(i, j, bit, t, q, s);
    ShiftedHalf(q, t);
    assert s - t - 1 == s - (t + 1);
  }

  lemma ShiftedHalf(q: nat, t: nat)
    requires q % 2 == 1
    ensures Shifted(q / 2, t + 1) == Shifted(q, t)
  {
    Regroup(q / 2 + 1, Pow2(t));
    assert q + 1 == 2 * (q / 2 + 1) && Pow2(t + 1) == 2 * Pow2(t);
  }

  // There is a bit left below, or i would be past the last index.
  lemma Halves(i: nat, j: nat, bit: nat, t: nat, q: nat, s: nat)
    requires Carrying(i, j, bit, t, q, s) && q % 2 == 1 && i < Pow2(s)
    ensures t + 1 < s && bit == 2 * Pow2(s - 2 - t)
  {
    if t + 1 == s {
      assert q + 1 >= 2 && Pow2(s) == 2 * Pow2(t);
      MulMonotone(2, q + 1, Pow2(t));
    }
  }

  lemma CarryStops(q: nat, k: nat)
    requires k > 0 && And(Rev(q, k), Pow2(k - 1)) == 0
    ensures Xor(Rev(q, k), Pow2(k - 1)) == Rev(q + 1, k)
  {
    hide And, Xor, Rev, Pow2;
    TopBit(q, k);
    RevNext(q, k);
  }

  lemma CarryOut(i: nat, j: nat, bit: nat, t: nat, q: nat, s: nat)
    requires Carrying(i, j, bit, t, q, s) && And(j, bit) == 0
    ensures Xor(j, bit) == Rev(i, s)
  {
    hide And, Xor, Rev, Pow2;
    RevShift(q + 1, t, s);
    CarryStops(q, s - t);
  }

  lemma RevNext(q: nat, k: nat)
    requires k > 0 && q % 2 == 0
    ensures Rev(q + 1, k) == Pow2(k - 1) + Rev(q / 2, k - 1)
  {
    assert (q + 1) % 2 == 1 && (q + 1) / 2 == q / 2;
  }

  // The inner loop of the reversal: from the reversal of i-1 to that of i.
  method NextReversed(n: nat, i: nat, j0: nat, ghost s: nat) returns (j: nat)
    requires n == Pow2(s) && 0 < i < n && j0 == Rev(i - 1, s)
    ensures j == Rev(i, s)
  {
    hide And, Xor, Rev;
    j := j0;
    var bit: nat := n / 2;
    ghost var t, q: nat := 0, i - 1;
    while And(j, bit) != 0
      invariant Carrying(i, j, bit, t, q, s)
      decreases s - t
    {
      CarryOn(i, j, bit, t, q, s);
      j, bit := Xor(j, bit), bit / 2;
      t, q := t + 1, q / 2;
    }
    CarryOut(i, j, bit, t, q, s);
    j := Xor(j, bit);
  }

  lemma Regroup(m: nat, p: nat)
    ensures (2 * m) * p == m * (2 * p)
  {}

  lemma HighBit(x: nat, p: nat, h: nat, r: nat)
    requires h < 2 && r < p && x == (if h == 1 then p else 0) + r
    ensures x / p == h
  {
    DivModUnique(x, p, h, r);
  }

  lemma TopBit(q: nat, k: nat)
    requires k > 0
    ensures And(Rev(q, k), Pow2(k - 1)) != 0 <==> q % 2 == 1
    ensures Xor(Rev(q, k), Pow2(k - 1)) ==
            (if q % 2 == 1 then 0 else Pow2(k - 1)) + Rev(q / 2, k - 1)
  {
    var p, r, x := Pow2(k - 1), Rev(q / 2, k - 1), Rev(q, k);
    assert x == (if q % 2 == 1 then p else 0) + r && r < p;
    hide Rev, And, Xor, Pow2;
    TestBit(x, k - 1);
    FlipBit(x, k - 1);
    HighBit(x, p, q % 2, r);
  }

  // was with every pair {m, Rev(m)} swapped whose smaller member is below i.
  ghost predicate SwappedBelow(now: seq<C>, was: seq<C>, i: nat, s: nat)
    requires |now| == |was| == Pow2(s)
  {
    forall m :: 0 <= m < |was| ==>
      now[m] == if m < i || Rev(m, s) < i then was[Rev(m, s)] else was[m]
  }

  lemma SwapStep(now: seq<C>, next: seq<C>, was: seq<C>, i: nat, s: nat)
    requires |next| == |now| == |was| == Pow2(s) && i < |was| && SwappedBelow(now, was, i, s)
    requires next == if i < Rev(i, s) then now[i := now[Rev(i, s)]][Rev(i, s) := now[i]] else now
    ensures SwappedBelow(next, was, i + 1, s)
  {
    var j := Rev(i, s);
    RevInvolution(i, s);
    forall m | 0 <= m < |was|
      ensures next[m] == if m < i + 1 || Rev(m, s) < i + 1 then was[Rev(m, s)] else was[m]
    {
      RevInvolution(m, s);
    }
  }

  method BitReverse(a: array<C>, ghost s: nat)
    requires a.Length == Pow2(s)
    modifies a
    ensures a[..] == BitReversed(old(a[..]), s)
  {
    hide Rev;
    ghost var was := a[..];
    var n := a.Length;
    var i, j := 1, 0;
    SwapStart(was, s);
    while i < n
      invariant 1 <= i <= n && j == Rev(i - 1, s)
      invariant SwappedBelow(a[..], was, i, s)
    {
      j := NextReversed(n, i, j, s);
      ghost var now := a[..];
      if i < j {
        a[i], a[j] := a[j], a[i];
      }
      SwapStep(now, a[..], was, i, s);
      i := i + 1;
    }
    forall m | 0 <= m < n ensures a[m] == BitReversed(was, s)[m] {
      BitReversedAt(was, s, m);
    }
  }

  lemma SwapStart(was: seq<C>, s: nat)
    requires |was| == Pow2(s)
    ensures Rev(0, s) == 0 && SwappedBelow(was, was, 1, s)
  {
    RevShift(0, s, s);
    forall m | 0 <= m < |was| ensures Rev(m, s) < 1 ==> m == 0 {
      RevInvolution(m, s);
    }
  }

  // -- Butterflies ---------------------------------------------------------------

  // n is a whole number of blocks of z.
  ghost predicate Whole(n: nat, z: nat)
    requires z > 0
  {
    n == 0 || (n >= z && Whole(n - z, z))
  }

  lemma {:induction false} WholeAdd(x: nat, y: nat, z: nat)
    requires z > 0 && Whole(x, z) && Whole(y, z)
    ensures Whole(x + y, z)
    decreases x
  {
    if x > 0 { WholeAdd(x - z, y, z); }
  }

  lemma {:induction false} WholePow2(t: nat, s: nat)
    requires t <= s
    ensures Whole(Pow2(s), Pow2(t))
    decreases s
  {
    if t < s {
      WholePow2(t, s - 1);
      WholeAdd(Pow2(s - 1), Pow2(s - 1), Pow2(t));
    } else {
      assert Whole(0, Pow2(t));
    }
  }

  // Every block of 2^t values transformed by its own butterflies.
  ghost function Columns(b: seq<C>, t: nat, ws: seq<C>): (r: seq<C>)
    requires t < |ws|
    ensures |r| == |b|
    decreases |b|
  {
    var z := Pow2(t);
    if |b| < z then b else Butterflies(b[..z], t, ws) + Columns(b[z..], t, ws)
  }

  lemma {:induction false} ColumnsConcat(x: seq<C>, y: seq<C>, t: nat, ws: seq<C>)
    requires t < |ws| && Whole(|x|, Pow2(t))
    ensures Columns(x + y, t, ws) == Columns(x, t, ws) + Columns(y, t, ws)
    decreases |x|
  {
    hide Butterflies;
    var z := Pow2(t);
    if x == [] {
      assert x + y == y;
    } else {
      assert (x + y)[..z] == x[..z] && (x + y)[z..] == x[z..] + y;
      ColumnsConcat(x[z..], y, t, ws);
    }
  }

  lemma OneColumn(b: seq<C>, t: nat, ws: seq<C>)
    requires t < |ws| && |b| == Pow2(t)
    ensures Columns(b, t, ws) == Butterflies(b, t, ws)
  {
    hide Butterflies;
    assert b[..|b|] == b && b[|b|..] == [];
  }

  // Blocks of one value are their own transforms.
  lemma {:induction false} ColumnsOfOne(b: seq<C>, ws: seq<C>)
    requires |ws| > 0
    ensures Columns(b, 0, ws) == b
    decreases |b|
  {
    if b != [] { ColumnsOfOne(b[1..], ws); }
  }

  // Entry j after i steps of the innermost loop over the block of 2*half values
  // at base.
  function ColumnAt(was: seq<C>, base: nat, half: nat, i: nat, root: C, j: nat): C
    requires base + 2 * half <= |was| && i <= half && j < |was|
  {
    if base <= j < base + i then Add(was[j], Mul(was[j + half], Pow(root, j - base)))
    else if base + half <= j < base + half + i then
      Sub(was[j - half], Mul(was[j], Pow(root, j - half - base)))
    else was[j]
  }

  ghost predicate ColumnDone(now: seq<C>, was: seq<C>, base: nat, half: nat, i: nat, root: C)
    requires |now| == |was| && base + 2 * half <= |was| && i <= half
  {
    forall j :: 0 <= j < |was| ==> now[j] == ColumnAt(was, base, half, i, root, j)
  }

  lemma ColumnIsCombine(now: seq<C>, was: seq<C>, base: nat, half: nat, root: C)
    requires |now| == |was| && base + 2 * half <= |was|
    requires ColumnDone(now, was, base, half, half, root)
    ensures now == was[..base]
                 + Combine(was[base..base + half], was[base + half..base + 2 * half], root)
                 + was[base + 2 * half..]
  {
    hide Mul, Add, Sub, Pow;
    var e, o := was[base..base + half], was[base + half..base + 2 * half];
    var c := Combine(e, o, root);
    forall k | base <= k < base + 2 * half ensures now[k] == c[k - base] {
      if k < base + half {
        assert e[k - base] == was[k] && o[k - base] == was[k + half];
      } else {
        assert e[k - half - base] == was[k - half] && o[k - half - base] == was[k];
      }
    }
  }

  lemma ColumnStart(was: seq<C>, base: nat, half: nat, root: C)
    requires base + 2 * half <= |was|
    ensures ColumnDone(was, was, base, half, 0, root)
  {
    hide Mul, Add, Sub, Pow;
  }

  // Step i changes two entries of the block, which no step before it has.
  lemma ColumnNext(was: seq<C>, base: nat, half: nat, i: nat, root: C, j: nat)
    requires base + 2 * half <= |was| && i < half && j < |was|
    ensures ColumnAt(was, base, half, i + 1, root, j) ==
            if j == base + i then Add(was[j], Mul(was[j + half], Pow(root, i)))
            else if j == base + half + i then Sub(was[j - half], Mul(was[j], Pow(root, i)))
            else ColumnAt(was, base, half, i, root, j)
    ensures j == base + i || j == base + half + i ==> ColumnAt(was, base, half, i, root, j) == was[j]
  {
    hide Mul, Add, Sub, Pow;
  }

  lemma ColumnStep(now: seq<C>, next: seq<C>, was: seq<C>, base: nat, half: nat, i: nat, root: C)
    requires |next| == |now| == |was| && base + 2 * half <= |was| && i < half
    requires ColumnDone(now, was, base, half, i, root)
    requires var odd := Mul(now[base + i + half], Pow(root, i));
             next == now[base + i := Add(now[base + i], odd)][base + i + half := Sub(now[base + i], odd)]
    ensures ColumnDone(next, was, base, half, i + 1, root)
  {
    hide Mul, Add, Sub, Pow, ColumnAt;
    ColumnNext(was, base, half, i, root, base + i);
    ColumnNext(was, base, half, i, root, base + half + i);
    assert now[base + i] == was[base + i] && now[base + half + i] == was[base + half + i];
    forall j | 0 <= j < |was| ensures next[j] == ColumnAt(was, base, half, i + 1, root, j) {
      ColumnNext(was, base, half, i, root, j);
    }
  }

  // The innermost loop: one block's butterfly column.
  method Column(a: array<C>, base: nat, half: nat, root: C)
    requires base + 2 * half <= a.Length
    modifies a
    ensures a[..] == old(a[..base])
                   + Combine(old(a[base..base + half]), old(a[base + half..base + 2 * half]), root)
                   + old(a[base + 2 * half..])
  {
    hide Mul, Add, Sub;
    hide ColumnDone;
    ghost var was := a[..];
    var w := ONE;
    ColumnStart(was, base, half, root);
    for i := 0 to half
      invariant w == Pow(root, i)
      invariant ColumnDone(a[..], was, base, half, i, root)
    {
      ghost var now := a[..];
      var even := a[base + i];
      var odd := Mul(a[base + i + half], w);
      a[base + i], a[base + i + half] := Add(even, odd), Sub(even, odd);
      ColumnStep(now, a[..], was, base, half, i, root);
      MulComm(w, root);
      w := Mul(w, root);
    }
    ColumnIsCombine(a[..], was, base, half, root);
  }

  // The loops over sizes and blocks: the middle loop leaves blocks of the next
  // size before base and blocks of the previous size after it.
  method ButterflyLoops(a: array<C>, inverse: bool, turns: seq<C>, ghost s: nat)
    requires a.Length == Pow2(s) && s < |turns|
    modifies a
    ensures a[..] == Butterflies(old(a[..]), s, Direction(turns, inverse))
  {
    hide Butterflies, Columns;
    ghost var b, ws := a[..], Direction(turns, inverse);
    var n := a.Length;
    var size, level := 2, 1;
    ColumnsOfOne(b, ws);
    while size <= n
      invariant 1 <= level <= s + 1 && size == Pow2(level)
      invariant a[..] == Columns(b, level - 1, ws)
      decreases s + 1 - level
    {
      Pow2Bound(level, s);
      var root := Direction(turns, inverse)[level];
      BlockLoop(a, size / 2, root, b, level, ws, s);
      size, level := size * 2, level + 1;
    }
    if level < s + 1 { Pow2Monotone(level, s); }
    OneColumn(b, s, ws);
  }

  lemma Pow2Bound(level: nat, s: nat)
    requires Pow2(level) <= Pow2(s)
    ensures level <= s
  {
    if level > s { Pow2Monotone(s + 1, level); }
  }

  method BlockLoop(a: array<C>, half: nat, root: C, ghost b: seq<C>, ghost level: nat, ghost ws: seq<C>, ghost s: nat)
    requires 0 < level <= s && level < |ws| && root == ws[level] && half == Pow2(level - 1)
    requires a.Length == |b| == Pow2(s) && a[..] == Columns(b, level - 1, ws)
    modifies a
    ensures a[..] == Columns(b, level, ws)
  {
    hide Butterflies, Combine, Columns, Mixed, Whole;
    var n, size := a.Length, 2 * half;
    var base := 0;
    WholeZero(size);
    WholePow2(level, s);
    MixedEnds(b, level, ws);
    while base < n
      invariant base <= n && Whole(base, size) && Whole(n - base, size)
      invariant a[..] == Mixed(b, base, level, ws)
    {
      WholeStep(n - base, size);
      BlockStep(b, base, level, ws);
      Column(a, base, half, root);
      WholeStep(base + size, size);
      base := base + size;
    }
  }

  lemma WholeZero(z: nat)
    requires z > 0
    ensures Whole(0, z)
  {}

  lemma WholeStep(n: nat, z: nat)
    requires z > 0
    ensures Whole(n, z) && n > 0 ==> n >= z && Whole(n - z, z)
    ensures n >= z && Whole(n - z, z) ==> Whole(n, z)
  {}

  // The array when the middle loop has reached base.
  ghost function Mixed(b: seq<C>, base: nat, level: nat, ws: seq<C>): (r: seq<C>)
    requires base <= |b| && 0 < level < |ws|
    ensures |r| == |b|
  {
    Columns(b[..base], level, ws) + Columns(b[base..], level - 1, ws)
  }

  lemma MixedEnds(b: seq<C>, level: nat, ws: seq<C>)
    requires 0 < level < |ws|
    ensures Mixed(b, 0, level, ws) == Columns(b, level - 1, ws)
    ensures Mixed(b, |b|, level, ws) == Columns(b, level, ws)
  {
    hide Butterflies;
    assert b[0..] == b && b[..0] == [] && b[..|b|] == b && b[|b|..] == [];
  }

  lemma BlockStep(b: seq<C>, base: nat, level: nat, ws: seq<C>)
    requires 0 < level < |ws| && base + Pow2(level) <= |b| && Whole(base, Pow2(level))
    ensures var h, x := Pow2(level - 1), Mixed(b, base, level, ws);
            Mixed(b, base + 2 * h, level, ws) ==
            x[..base] + Combine(x[base..base + h], x[base + h..base + 2 * h], ws[level]) + x[base + 2 * h..]
  {
    hide Butterflies, Combine, Columns, Whole;
    var h, x := Pow2(level - 1), Mixed(b, base, level, ws);
    var size := 2 * h;
    var next, rest := b[base..base + size], b[base + size..];
    assert b[base..][..size] == next && b[base..][size..] == rest && b[..base] + next == b[..base + size];
    FirstBlocks(b[base..], level, ws);
    ColumnsConcat(b[..base], next, level, ws);
    OneColumn(next, level, ws);
    ButterflyStep(next, level, ws);
    BlockSlices(x, Columns(b[..base], level, ws),
                Butterflies(next[..h], level - 1, ws), Butterflies(next[h..], level - 1, ws),
                Columns(rest, level - 1, ws));
  }

  lemma BlockSlices(x: seq<C>, done: seq<C>, e: seq<C>, o: seq<C>, rest: seq<C>)
    requires x == done + (e + o + rest) && |e| == |o|
    ensures var base, h := |done|, |e|;
            x[..base] == done && x[base..base + h] == e && x[base + h..base + 2 * h] == o && x[base + 2 * h..] == rest
  {}

  lemma FirstBlocks(b: seq<C>, level: nat, ws: seq<C>)
    requires 0 < level < |ws| && |b| >= Pow2(level)
    ensures var h := Pow2(level - 1);
            Columns(b, level - 1, ws) ==
            Butterflies(b[..2 * h][..h], level - 1, ws) + Butterflies(b[..2 * h][h..], level - 1, ws)
            + Columns(b[2 * h..], level - 1, ws)
  {
    hide Butterflies;
    var h := Pow2(level - 1);
    assert b[..2 * h][..h] == b[..h] && b[..2 * h][h..] == b[h..][..h] && b[h..][h..] == b[2 * h..];
  }

  lemma ButterflyStep(b: seq<C>, level: nat, ws: seq<C>)
    requires 0 < level < |ws| && |b| == Pow2(level)
    ensures var h := Pow2(level - 1);
            Butterflies(b, level, ws) ==
            Combine(Butterflies(b[..h], level - 1, ws), Butterflies(b[h..], level - 1, ws), ws[level])
  {
    hide Combine;
  }

  // The last loop of the inverse direction.
  method ScaleLoop(a: array<C>)
    requires a.Length > 0
    modifies a
    ensures forall k :: 0 <= k < a.Length ==> a[k] == Over(old(a[k]), a.Length)
  {
    hide Over;
    var n := a.Length;
    for i := 0 to n
      invariant forall k :: 0 <= k < i ==> a[k] == Over(old(a[k]), n)
      invariant forall k :: i <= k < n ==> a[k] == old(a[k])
    {
      a[i] := Over(a[i], n);
    }
  }

  // The whole routine: the transform, or the inverse transform, in place.
  method Transform(a: array<C>, inverse: bool, turns: seq<C>, ghost s: nat)
    requires a.Length == Pow2(s) && s < |turns| && Turns(turns)
    modifies a
    ensures a[..] == if inverse then Inverse(old(a[..]), turns[s])
                     else Dft(old(a[..]), Direction(turns, false)[s])
  {
    hide *;
    ghost var was := a[..];
    BitReverse(a, s);
    ButterflyLoops(a, inverse, turns, s);
    TransformIsDft(was, inverse, turns, s);
    if inverse {
      ghost var t := a[..];
      ScaleLoop(a);
      ScaledIsInverse(a[..], was, t, turns[s]);
    }
  }

  lemma TransformIsDft(a: seq<C>, inverse: bool, turns: seq<C>, s: nat)
    requires |a| == Pow2(s) && s < |turns| && Turns(turns)
    ensures var ws := Direction(turns, inverse);
            Butterflies(BitReversed(a, s), s, ws) == Dft(a, if inverse then turns[s] else ws[s])
  {
    hide *;
    DirectionsAreRootTables(turns);
    ButterfliesAreDft(a, s, Direction(turns, inverse));
  }

  lemma ScaledIsInverse(now: seq<C>, was: seq<C>, t: seq<C>, v: C)
    requires |now| == |was| > 0 && t == Dft(was, v)
    requires forall k :: 0 <= k < |now| ==> now[k] == Over(t[k], |now|)
    ensures now == Inverse(was, v)
  {
    hide Over, Eval, Pow;
  }
}
