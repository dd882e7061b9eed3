/** Division, remainder and powers: the few facts the other modules share. */
module Arithmetic {

  lemma MulAtLeast(t: int, d: int)
    requires 1 <= t && 0 < d
    ensures d <= t * d
  {
  }

  lemma DivModUnique(n: int, d: int, q: int, r: int)
    requires 0 < d && n == q * d + r && 0 <= r < d
    ensures n / d == q && n % d == r
  {
    var t := n / d - q;
    assert t * d == r - n % d;
    if t > 0 {
      MulAtLeast(t, d);
    } else if t < 0 {
      MulAtLeast(-t, d);
    }
  }

  lemma DivModAdd(x: int, t: int, d: int)
    requires 0 < d
    ensures (x + t * d) / d == x / d + t && (x + t * d) % d == x % d
  {
    assert x + t * d == (x / d + t) * d + x % d;
    DivModUnique(x + t * d, d, x / d + t, x % d);
  }

  /** Congruent numbers differ by a multiple. */
  lemma ModWitness(x: int, y: int, d: int) returns (t: int)
    requires 0 < d && x % d == y % d
    ensures x == y + t * d
  {
    t := x / d - y / d;
  }

  lemma Distribute(a: int, x: int, y: int)
    ensures a * (x + y) == a * x + a * y
  {
  }

  lemma Associate(a: int, b: int, c: int)
    ensures a * (b * c) == a * b * c
  {
  }

  lemma MulMonotone(a: int, x: int, y: int)
    requires 0 <= a && x <= y
    ensures a * x <= a * y
  {
  }

  lemma QuotientBound(a: int, w: int, h: int)
    requires 0 < w && a < w * h
    ensures a / w < h
  {
    if a / w >= h {
      MulMonotone(w, h, a / w);
    }
  }

  /** Division by d is the upper adjoint of multiplication by d. */
  lemma DivAdjoint(d: int, m: int, y: int)
    requires 0 < d
    ensures d * m <= y <==> m <= y / d
  {
    if d * m <= y {
      QuotientBound(-1 - (y - d * m), d, 0);
      DivModAdd(y - d * m, m, d);
    } else {
      QuotientBound(y, d, m);
    }
  }
}
