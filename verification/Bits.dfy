/**
 Bitwise operations on natural numbers, as the source's masks, bit tests and
 reversed counters use them, and their meaning in ordinary arithmetic.
 */
module Bits {

  function Pow2(k: nat): (p: nat)
    ensures p >= 1
  {
    if k == 0 then 1 else 2 * Pow2(k - 1)
  }

  ghost predicate IsPow2(n: nat) {
    exists k: nat :: n == Pow2(k)
  }

  function And(a: nat, b: nat): nat {
    if a == 0 || b == 0 then 0
    else (if a % 2 == 1 && b % 2 == 1 then 1 else 0) + 2 * And(a / 2, b / 2)
  }

  function Xor(a: nat, b: nat): nat
    decreases a + b
  {
    if a == 0 then b else if b == 0 then a
    else (if a % 2 != b % 2 then 1 else 0) + 2 * Xor(a / 2, b / 2)
  }

  lemma {:induction false} Pow2Add(i: nat, j: nat)
    ensures Pow2(i + j) == Pow2(i) * Pow2(j)
  {
    if i > 0 {
      Pow2Add(i - 1, j);
      assert Pow2(i + j) == 2 * Pow2(i - 1 + j);
    }
  }

  lemma {:induction false} Pow2Monotone(i: nat, j: nat)
    requires i <= j
    ensures Pow2(i) <= Pow2(j)
  {
    if i < j { Pow2Monotone(i, j - 1); }
  }

  // `x & (2^k - 1)` is the remainder modulo 2^k: why a power-of-two ring can
  // mask its counters.
  lemma {:induction false} MaskIsMod(x: nat, k: nat)
    ensures And(x, Pow2(k) - 1) == x % Pow2(k)
  {
    if k == 0 {
    } else if x == 0 {
    } else {
      MaskIsMod(x / 2, k - 1);
      var p := Pow2(k - 1);
      assert (2 * p - 1) / 2 == p - 1 && (2 * p - 1) % 2 == 1;
      ModHalf(x, p);
    }
  }

  lemma ModHalf(x: nat, p: nat)
    requires p >= 1
    ensures x % (2 * p) == x % 2 + 2 * ((x / 2) % p)
  {
    var q, r := (x / 2) / p, (x / 2) % p;
    assert x / 2 == q * p + r;
    assert x == (2 * p) * q + (x % 2 + 2 * r);
    DivModUnique(x, 2 * p, q, x % 2 + 2 * r);
  }

  lemma MulGrows(d: nat, k: nat)
    requires k >= 1
    ensures d * k >= d
  {
    assert d * k == d + d * (k - 1);
  }

  lemma DivModUnique(x: int, d: int, q: int, r: int)
    requires d > 0 && x == d * q + r && 0 <= r < d
    ensures x / d == q && x % d == r
  {
    var q', r' := x / d, x % d;
    assert x == d * q' + r';
    assert d * (q - q') == d * q - d * q' == r' - r;
    if q > q' { MulGrows(d, q - q'); }
    if q < q' {
      assert d * (q' - q) == d * q' - d * q;
      MulGrows(d, q' - q);
    }
  }

  // Testing one bit, and flipping it, in arithmetic.
  lemma {:induction false} TestBit(x: nat, b: nat)
    ensures And(x, Pow2(b)) != 0 <==> (x / Pow2(b)) % 2 == 1
  {
    if b == 0 {
      assert x == 0 || And(x, 1) == x % 2 + 2 * And(x / 2, 0);
    } else if x == 0 {
      assert 0 / Pow2(b) == 0;
    } else {
      var p := Pow2(b - 1);
      TestBit(x / 2, b - 1);
      assert (2 * p) % 2 == 0 && (2 * p) / 2 == p;
      assert And(x, 2 * p) == 2 * And(x / 2, p);
      DivDiv(x, p);
    }
  }

  lemma DivDiv(x: nat, p: nat)
    requires p >= 1
    ensures x / (2 * p) == (x / 2) / p
  {
    var q, r := (x / 2) / p, (x / 2) % p;
    assert x / 2 == q * p + r;
    assert x == (2 * p) * q + (x % 2 + 2 * r);
    DivModUnique(x, 2 * p, q, x % 2 + 2 * r);
  }

  lemma {:induction false} FlipBit(x: nat, b: nat)
    ensures Xor(x, Pow2(b)) == if (x / Pow2(b)) % 2 == 1 then x - Pow2(b) else x + Pow2(b)
  {
    if x == 0 {
      assert 0 / Pow2(b) == 0;
    } else if b == 0 {
      assert Xor(x, 1) == (if x % 2 != 1 then 1 else 0) + 2 * (x / 2);
    } else {
      var p := Pow2(b - 1);
      FlipBit(x / 2, b - 1);
      DivDiv(x, p);
      XorEven(x, p);
    }
  }

  lemma XorEven(x: nat, p: nat)
    requires x > 0 && p > 0
    ensures Xor(x, 2 * p) == x % 2 + 2 * Xor(x / 2, p)
  {
    assert (2 * p) % 2 == 0 && (2 * p) / 2 == p;
  }

  // -- Products ------------------------------------------------------------------

  lemma MulMonotone(a: nat, b: nat, k: nat)
    requires a <= b
    ensures a * k <= b * k && k * a <= k * b
  {}

  // A product fits exactly if one factor is within the quotient.
  lemma ProductFits(a: nat, b: nat, max: nat)
    requires a > 0
    ensures b > max / a <==> a * b > max
  {
    var q := max / a;
    assert max == a * q + max % a;
    if b > q { MulMonotone(q + 1, b, a); } else { MulMonotone(b, q, a); }
  }

  // Place ch of row f in rows of some channels.
  lemma InFrame(f: nat, ch: nat, channels: nat, frames: nat)
    requires f < frames && ch < channels
    ensures 0 <= f * channels + ch < frames * channels
    ensures (f * channels + ch) / channels == f && (f * channels + ch) % channels == ch
  {
    assert (f + 1) * channels <= frames * channels by { MulMonotone(f + 1, frames, channels); }
    assert f * channels + ch == channels * f + ch;
    DivModUnique(f * channels + ch, channels, f, ch);
  }

  // And every place is one of some row.
  lemma FrameOf(i: nat, channels: nat, frames: nat)
    requires i < frames * channels
    ensures channels > 0 && i / channels < frames && i == i / channels * channels + i % channels
  {
    var f := i / channels;
    if f >= frames { MulMonotone(frames, f, channels); }
  }
}
