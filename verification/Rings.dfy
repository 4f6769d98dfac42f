/**
 Positions that only grow, kept in a ring of fixed capacity: which slot holds
 which position, and the two-piece copies in and out of the ring.
 */
module Rings {
  import opened Bits

  // Two positions less than a ring apart have different slots.
  lemma SlotsDiffer(p: nat, q: nat, cap: nat)
    requires p < q < p + cap
    ensures p % cap != q % cap
  {
    if p % cap == q % cap {
      var k := q / cap - p / cap;
      assert q - p == cap * k by { Regroup(p, q, cap); }
      if k >= 1 { MulGrows(cap, k); } else { Shrinks(cap, k); }
    }
  }

  lemma Regroup(p: nat, q: nat, cap: nat)
    requires cap > 0
    ensures q - p == cap * (q / cap - p / cap) + (q % cap - p % cap)
  {}

  lemma Shrinks(c: nat, k: int)
    requires k <= 0
    ensures c * k <= 0
  {}

  // Slot i seen from position at: how many slots further round the ring.
  function Ahead(i: nat, at: nat, cap: nat): (d: nat)
    requires cap > 0
    ensures d < cap
  {
    (i - at) % cap
  }

  lemma AheadOf(p: nat, at: nat, cap: nat)
    requires at <= p < at + cap
    ensures Ahead(p % cap, at, cap) == p - at
  {
    var d := Ahead(p % cap, at, cap);
    var k := (p % cap - at) / cap;
    assert p % cap - at == cap * k + d;
    var m := p / cap;
    assert p == cap * m + p % cap;
    assert p - at - d == cap * (m + k) by {
      assert cap * (m + k) == cap * m + cap * k;
    }
    if m + k >= 1 { MulGrows(cap, m + k); }
    if m + k <= -1 {
      assert cap * -(m + k) == -(cap * (m + k));
      MulGrows(cap, -(m + k));
    }
  }

  // The ring with out written at position at.
  function Overwrite<T>(ring: seq<T>, at: nat, out: seq<T>): (r: seq<T>)
    requires |out| <= |ring| && |ring| > 0
    ensures |r| == |ring|
  {
    seq(|ring|, (i: nat) requires i < |ring| =>
      if Ahead(i, at, |ring|) < |out| then out[Ahead(i, at, |ring|)] else ring[i])
  }

  // The n values at positions at, at+1, ...
  function Span<T>(ring: seq<T>, at: nat, n: nat): (r: seq<T>)
    requires |ring| > 0
    ensures |r| == n
  {
    seq(n, (j: nat) requires j < n => ring[(at + j) % |ring|])
  }

  // The ring holds positions lo..hi of a history.
  ghost predicate Holds<T>(ring: seq<T>, history: seq<T>, lo: nat, hi: nat) {
    && |ring| > 0 && hi <= |history|
    && forall p :: lo <= p < hi ==> ring[p % |ring|] == history[p]
  }

  lemma HoldsUpdate<T>(ring: seq<T>, history: seq<T>, lo: nat, hi: nat, p: nat, x: T)
    requires Holds(ring, history, lo, hi) && hi <= p < lo + |ring|
    ensures Holds(ring[p % |ring| := x], history, lo, hi)
  {
    forall q | lo <= q < hi ensures q % |ring| != p % |ring| {
      SlotsDiffer(q, p, |ring|);
    }
  }

  // Writing the next position extends what the ring holds.
  lemma HoldsAppend<T>(ring: seq<T>, history: seq<T>, lo: nat, x: T)
    requires Holds(ring, history, lo, |history|) && lo <= |history| < lo + |ring|
    ensures Holds(ring[|history| % |ring| := x], history + [x], lo, |history| + 1)
  {
    HoldsUpdate(ring, history, lo, |history|, |history|, x);
  }

  // The j-th value of a copy that starts at position at and is cut where the
  // ring wraps.
  function Piece(at: nat, n: nat, cap: nat, j: nat): (i: nat)
    requires 0 < cap && j < n <= cap
    ensures i < cap
  {
    var idx := at % cap;
    var first := if cap - idx < n then cap - idx else n;
    if j < first then idx + j else j - first
  }

  lemma PieceIsSlot(at: nat, n: nat, cap: nat, j: nat)
    requires 0 < cap && j < n <= cap
    ensures Piece(at, n, cap, j) == (at + j) % cap
  {
    var idx := at % cap;
    var q := at / cap;
    assert at + j == cap * q + (idx + j);
    if idx + j < cap {
      DivModUnique(at + j, cap, q, idx + j);
    } else {
      assert cap * (q + 1) == cap * q + cap;
      DivModUnique(at + j, cap, q + 1, idx + j - cap);
    }
  }

  // -- Copies between arrays ------------------------------------------------------

  method Copy<T>(dst: array<T>, to: nat, src: array<T>, from: nat, n: nat)
    requires dst != src && to + n <= dst.Length && from + n <= src.Length
    modifies dst
    ensures forall i :: 0 <= i < dst.Length ==>
              dst[i] == if to <= i < to + n then src[from + (i - to)] else old(dst[i])
  {
    for k := 0 to n
      invariant forall i :: 0 <= i < dst.Length ==>
                  dst[i] == if to <= i < to + k then src[from + (i - to)] else old(dst[i])
      invariant src[..] == old(src[..])
    {
      dst[to + k] := src[from + k];
    }
  }

  // n values from src into the ring at position at, in two pieces when it wraps.
  method CopyIn<T>(ring: array<T>, at: nat, src: array<T>, n: nat)
    requires ring != src && n <= src.Length && n <= ring.Length && ring.Length > 0
    modifies ring
    ensures ring[..] == Overwrite(old(ring[..]), at, src[..n])
  {
    var cap := ring.Length;
    var idx := at % cap;
    var first := if cap - idx > n then n else cap - idx;
    Copy(ring, idx, src, 0, first);
    if first < n {
      Copy(ring, 0, src, first, n - first);
    }
    forall i | 0 <= i < cap
      ensures ring[i] == if Ahead(i, at, cap) < n then src[Ahead(i, at, cap)] else old(ring[i])
    {
      AheadFromSlot(i, at, cap);
    }
  }

  lemma AheadFromSlot(i: nat, at: nat, cap: nat)
    requires i < cap
    ensures Ahead(i, at, cap) == if i >= at % cap then i - at % cap else i + cap - at % cap
  {
    var idx, q := at % cap, at / cap;
    assert at == cap * q + idx;
    if i >= idx {
      SlotAhead(i, at, cap, q, at + (i - idx));
    } else {
      assert cap * (q + 1) == cap * q + cap;
      SlotAhead(i, at, cap, q + 1, at + (i + cap - idx));
    }
  }

  lemma SlotAhead(i: nat, at: nat, cap: nat, q: nat, p: nat)
    requires i < cap && p == cap * q + i && at <= p < at + cap
    ensures Ahead(i, at, cap) == p - at
  {
    hide Ahead;
    DivModUnique(p, cap, q, i);
    AheadOf(p, at, cap);
  }

  // n values out of the ring from position at into dst, in two pieces.
  method CopyOut<T>(dst: array<T>, ring: array<T>, at: nat, n: nat)
    requires ring != dst && n <= dst.Length && n <= ring.Length && ring.Length > 0
    modifies dst
    ensures dst[..] == Span(ring[..], at, n) + old(dst[n..])
  {
    var cap := ring.Length;
    var idx := at % cap;
    var first := if n < cap - idx then n else cap - idx;
    if first != 0 {
      Copy(dst, 0, ring, idx, first);
    }
    if n - first != 0 {
      Copy(dst, first, ring, 0, n - first);
    }
    forall j | 0 <= j < n ensures dst[j] == ring[(at + j) % cap] {
      PieceIsSlot(at, n, cap, j);
    }
  }
}
