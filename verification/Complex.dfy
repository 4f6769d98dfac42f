/**
 Complex numbers over the reals: the exact arithmetic that complex128 rounds.
 */
module Complex {

  datatype C = C(re: real, im: real)

  const ZERO := C(0.0, 0.0)
  const ONE := C(1.0, 0.0)

  function Real(r: real): C { C(r, 0.0) }

  function Add(a: C, b: C): C { C(a.re + b.re, a.im + b.im) }

  function Sub(a: C, b: C): C { C(a.re - b.re, a.im - b.im) }

  function Neg(a: C): C { C(-a.re, -a.im) }

  function Mul(a: C, b: C): C { C(a.re * b.re - a.im * b.im, a.re * b.im + a.im * b.re) }

  function Conj(a: C): C { C(a.re, -a.im) }

  function Over(a: C, d: nat): C
    requires d > 0
  {
    C(a.re / d as real, a.im / d as real)
  }

  function Pow(w: C, n: nat): C {
    if n == 0 then ONE else Mul(w, Pow(w, n - 1))
  }

  // Identities of the commutative ring, one per use below.

  lemma MulComm(a: C, b: C)
    ensures Mul(a, b) == Mul(b, a)
  {}

  lemma MulAssoc(a: C, b: C, c: C)
    ensures Mul(a, Mul(b, c)) == Mul(Mul(a, b), c)
  {}

  lemma MulOne(a: C)
    ensures Mul(ONE, a) == a == Mul(a, ONE)
  {}

  lemma Distribute(a: C, b: C, c: C)
    ensures Mul(a, Add(b, c)) == Add(Mul(a, b), Mul(a, c))
  {}

  lemma ZeroLaws(a: C)
    ensures Mul(a, ZERO) == ZERO == Mul(ZERO, a)
    ensures Add(ZERO, a) == a == Add(a, ZERO)
  {}

  lemma Swap(a: C, b: C, c: C, d: C)
    ensures Mul(Mul(a, b), Mul(c, d)) == Mul(Mul(a, c), Mul(b, d))
  {
    hide *;
    MulAssoc(Mul(a, b), c, d);
    MulAssoc(a, b, c);
    MulComm(b, c);
    MulAssoc(a, c, b);
    MulAssoc(Mul(a, c), b, d);
  }

  lemma {:induction false} PowOne(n: nat)
    ensures Pow(ONE, n) == ONE
  {
    hide Mul;
    MulOne(ONE);
    if n > 0 { PowOne(n - 1); }
  }

  lemma {:induction false} PowAdd(w: C, m: nat, n: nat)
    ensures Pow(w, m + n) == Mul(Pow(w, m), Pow(w, n))
  {
    hide Mul;
    if m == 0 {
      MulOne(Pow(w, n));
    } else {
      PowAdd(w, m - 1, n);
      MulAssoc(w, Pow(w, m - 1), Pow(w, n));
    }
  }

  lemma {:induction false} PowMul(v: C, w: C, n: nat)
    ensures Pow(Mul(v, w), n) == Mul(Pow(v, n), Pow(w, n))
  {
    hide Mul;
    if n > 0 {
      PowMul(v, w, n - 1);
      Swap(v, w, Pow(v, n - 1), Pow(w, n - 1));
    } else {
      MulOne(ONE);
    }
  }

  // (w*w)^n == w^(2n) == (w^n)*(w^n)
  lemma PowSquare(w: C, n: nat)
    ensures Pow(Mul(w, w), n) == Pow(w, 2 * n) == Mul(Pow(w, n), Pow(w, n))
  {
    hide *;
    PowMul(w, w, n);
    PowAdd(w, n, n);
  }

  lemma {:induction false} PowPow(w: C, m: nat, n: nat)
    ensures Pow(Pow(w, m), n) == Pow(w, m * n)
  {
    hide Mul;
    if n == 0 {
    } else {
      PowPow(w, m, n - 1);
      PowAdd(w, m, m * (n - 1));
      assert m * n == m + m * (n - 1);
    }
  }

  lemma {:induction false} ConjPow(w: C, n: nat)
    ensures Conj(Pow(w, n)) == Pow(Conj(w), n)
  {
    hide Mul;
    if n > 0 {
      ConjPow(w, n - 1);
      ConjMul(w, Pow(w, n - 1));
    }
  }

  lemma ConjLaws(a: C)
    ensures Conj(Conj(a)) == a && Conj(Neg(a)) == Neg(Conj(a)) && Conj(ONE) == ONE
  {}

  lemma ConjMul(a: C, b: C)
    ensures Conj(Mul(a, b)) == Mul(Conj(a), Conj(b))
  {}
}
