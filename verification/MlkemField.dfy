/** Residues modulo 3329 and the signed 16-bit reductions. */
module MlkemField {
  import opened Arithmetic

  const Q: nat := 3329

  // ---------------------------------------------------------------- congruence

  predicate Same(x: int, y: int) { (x - y) % Q == 0 }

  lemma Multiple(x: int, y: int, t: int)
    requires x - y == t * Q
    ensures Same(x, y)
  {
    DivModUnique(x - y, Q, t, 0);
  }

  lemma Witness(x: int, y: int) returns (t: int)
    requires Same(x, y)
    ensures x - y == t * Q
  {
    t := (x - y) / Q;
  }

  lemma SameTrans(x: int, y: int, z: int)
    requires Same(x, y) && Same(y, z)
    ensures Same(x, z) && Same(z, x)
  {
    var s := Witness(x, y);
    var t := Witness(y, z);
    Multiple(x, z, s + t);
    Multiple(z, x, -s - t);
  }

  lemma SameSym(x: int, y: int)
    requires Same(x, y)
    ensures Same(y, x)
  {
    var t := Witness(x, y);
    Multiple(y, x, -t);
  }

  lemma SameAdd(x: int, y: int, u: int, v: int)
    requires Same(x, y) && Same(u, v)
    ensures Same(x + u, y + v) && Same(x - u, y - v)
  {
    var s := Witness(x, y);
    var t := Witness(u, v);
    Multiple(x + u, y + v, s + t);
    Multiple(x - u, y - v, s - t);
  }

  lemma SameMul(x: int, y: int, u: int, v: int)
    requires Same(x, y) && Same(u, v)
    ensures Same(x * u, y * v)
  {
    var s := Witness(x, y);
    var t := Witness(u, v);
    Expand(x, y, s, u, v, t);
    Multiple(x * u, y * v, s * u + y * t);
  }

  lemma Expand(x: int, y: int, s: int, u: int, v: int, t: int)
    requires x - y == s * Q && u - v == t * Q
    ensures x * u - y * v == (s * u + y * t) * Q
  {
    Distribute(u, y, s * Q);
    Distribute(y, v, t * Q);
    Associate(u, s, Q);
    Associate(y, t, Q);
    assert x * u == u * y + u * (s * Q);
    assert y * u == y * v + y * (t * Q);
    Distribute(Q, s * u, y * t);
  }

  // ---------------------------------------------------------------- sixteen-bit arithmetic

  /** Conversion to int16_t. */
  function Int16(x: int): (y: int)
    ensures -0x8000 <= y < 0x8000
  {
    (x + 0x8000) % 0x1_0000 - 0x8000
  }

  lemma Int16Exact(x: int)
    requires -0x8000 <= x < 0x8000
    ensures Int16(x) == x
  {
  }

  lemma Int16Class(x: int) returns (t: int)
    ensures Int16(x) == x + t * 0x1_0000
  {
    t := -((x + 0x8000) / 0x1_0000);
  }

  /** barrett_reduce: t = (20159 * a + 2^25) >> 26, then a - t * q. */
  function Barrett(a: int): (r: int) { Int16(a - Int16((20159 * a + 0x200_0000) / 0x400_0000) * Q) }

  /** The centred residue. */
  lemma BarrettReduces(a: int)
    requires -0x8000 <= a < 0x8000
    ensures Same(Barrett(a), a) && -1664 <= Barrett(a) <= 1664
  {
    var t := (20159 * a + 0x200_0000) / 0x400_0000;
    assert -10 <= t <= 10;
    Int16Exact(t);
    Int16Exact(a - t * Q);
    Multiple(Barrett(a), a, -t);
  }

  const QINV: int := -3327

  /** montgomery_reduce: t = a * q^-1 in 16 bits, then (a - t * q) >> 16. */
  function Mont(a: int): (r: int) { Int16((a - Int16(Int16(a) * QINV) * Q) / 0x1_0000) }

  /** 2^-16 modulo q. */
  const RINV: nat := 169

  lemma Divides(a: int) returns (t: int)
    ensures a - Int16(Int16(a) * QINV) * Q == t * 0x1_0000
  {
    var u := Int16Class(a);
    var v := Int16Class(Int16(a) * QINV);
    var s := Int16(Int16(a) * QINV);
    assert s == (a + u * 0x1_0000) * QINV + v * 0x1_0000;
    assert s * Q == (a + u * 0x1_0000) * (QINV * Q) + v * 0x1_0000 * Q;
    t := 169 * a - u * (QINV * Q) - v * Q;
    assert QINV * Q == 1 - 169 * 0x1_0000;
  }

  /** A product by 2^-16, of a size that only depends on that of a. */
  lemma MontReduces(a: int, b: int)
    requires -b <= a <= b <= 0x7000_0000
    ensures Same(Mont(a), RINV * a)
    ensures 0x1_0000 * Mont(a) <= b + 0x8000 * Q && -(b + 0x8000 * Q) <= 0x1_0000 * Mont(a)
  {
    var t := Divides(a);
    var s := Int16(Int16(a) * QINV);
    DivModUnique(a - s * Q, 0x1_0000, t, 0);
    Int16Exact(t);
    assert 169 * 0x1_0000 == 1 + 3327 * Q;
    assert t == t * (169 * 0x1_0000) - 3327 * t * Q;
    assert t == 169 * a + (-169 * s - 3327 * t) * Q;
    Multiple(t, 169 * a, -169 * s - 3327 * t);
  }
}
