/** The transform turns multiplication modulo X^256 + 1 into products of pairs. */
module MlkemProduct {
  import opened Arithmetic
  import opened Bits
  import opened MlkemField
  import opened MlkemZetas
  import opened MlkemTransform

  const N: nat := 256
  const LEVELS: nat := 7

  function Zeros(n: nat): (r: seq<int>)
    ensures |r| == n && forall i :: 0 <= i < n ==> r[i] == 0
  {
    seq(n, _ => 0)
  }

  // ---------------------------------------------------------------- the product

  /** a * b modulo X^256 + 1, by Horner's rule: X^256 wraps around to -1. */
  function Product(a: seq<int>, b: seq<int>): (r: seq<int>)
    ensures |r| == |a|
  {
    if b == [] then Zeros(|a|) else Plus(Scale(b[0], a), Shift(Product(a, b[1..]), -1))
  }

  /** Coefficient k of X^j * a. */
  function Term(a: seq<int>, j: nat, k: nat): (t: int)
    requires k < |a| && j <= |a|
  {
    if j <= k then a[k - j] else -a[k - j + |a|]
  }

  /** Coefficient k of the product of a with X^o * b, as a sum over b. */
  function Convolution(a: seq<int>, b: seq<int>, o: nat, k: nat): (c: int)
    requires k < |a| && o + |b| <= |a|
  {
    if b == [] then 0 else b[0] * Term(a, o, k) + Convolution(a, b[1..], o + 1, k)
  }

  lemma {:induction false} ConvolutionShift(a: seq<int>, b: seq<int>, o: nat, k: nat)
    requires k < |a| && o + 1 + |b| <= |a|
    ensures Convolution(a, b, o + 1, k)
            == if k == 0 then -Convolution(a, b, o, |a| - 1) else Convolution(a, b, o, k - 1)
    decreases |b|
  {
    if b != [] {
      ConvolutionShift(a, b[1..], o + 1, k);
      var c, t := b[0], Term(a, o, if k == 0 then |a| - 1 else k - 1);
      assert Term(a, o + 1, k) == if k == 0 then -t else t;
      assert c * -t == -(c * t);
    }
  }

  lemma ProductUnfold(a: seq<int>, b: seq<int>, k: nat)
    requires k < |a| && 0 < |b| <= |a|
    ensures Product(a, b)[k] == b[0] * a[k] + Shift(Product(a, b[1..]), -1)[k]
    ensures Convolution(a, b, 0, k) == b[0] * a[k] + Convolution(a, b[1..], 1, k)
  {
    hide Shift;
  }

  /** Horner's rule computes the negacyclic convolution. */
  lemma {:induction false} ProductIsConvolution(a: seq<int>, b: seq<int>, k: nat)
    requires k < |a| && |b| <= |a|
    ensures Product(a, b)[k] == Convolution(a, b, 0, k)
    decreases |b|
  {
    if b != [] {
      hide Shift, Product, Convolution;
      ProductUnfold(a, b, k);
      ConvolutionShift(a, b[1..], 0, k);
      ProductIsConvolution(a, b[1..], if k == 0 then |a| - 1 else k - 1);
      ShiftAt(Product(a, b[1..]), -1, k);
    } else {
      assert Product(a, b)[k] == 0;
    }
  }

  // ---------------------------------------------------------------- the polynomial 1

  function One(n: nat): (r: seq<int>)
    ensures |r| == Pow2(n)
  {
    [1] + Zeros(Pow2(n) - 1)
  }

  /** A sequence is its own product with 1. */
  lemma {:induction false} ProductOne(b: seq<int>, n: nat)
    requires |b| <= Pow2(n)
    ensures Product(One(n), b) == b + Zeros(Pow2(n) - |b|)
    decreases |b|
  {
    if b != [] {
      var rest := b[1..];
      ProductOne(rest, n);
      OneMore(b[0], rest, n);
      assert [b[0]] + rest == b;
    }
  }

  /** One more coefficient in front. */
  lemma OneMore(c: int, rest: seq<int>, n: nat)
    requires |rest| < Pow2(n)
    ensures var p := rest + Zeros(Pow2(n) - |rest|);
            Plus(Scale(c, One(n)), Shift(p, -1)) == [c] + rest + Zeros(Pow2(n) - 1 - |rest|)
  {
    hide Pow2, Shift;
    var p := rest + Zeros(Pow2(n) - |rest|);
    var s, goal := Plus(Scale(c, One(n)), Shift(p, -1)), [c] + rest + Zeros(Pow2(n) - 1 - |rest|);
    forall i | 0 <= i < Pow2(n) ensures s[i] == goal[i] {
      ShiftAt(p, -1, i);
      assert s[i] == c * One(n)[i] + Shift(p, -1)[i];
    }
  }

  /** The transform of 1: every block is 1. */
  function Units(d: nat, n: nat): (r: seq<int>)
    requires d <= n
    ensures |r| == Pow2(n)
  {
    if d == 0 then One(n) else Units(d - 1, n - 1) + Units(d - 1, n - 1)
  }

  lemma FoldOne(n: nat, z: int)
    requires n > 0
    ensures Fold(One(n), z) == One(n - 1)
  {
  }

  lemma {:induction false} NttOne(k: nat, d: nat, n: nat)
    requires d <= n
    ensures Ntt(One(n), k, d, n) == Units(d, n)
    decreases d
  {
    hide Fold, One, Zeta;
    if d > 0 {
      FoldOne(n, Zeta(k));
      FoldOne(n, -Zeta(k));
      NttOne(2 * k, d - 1, n - 1);
      NttOne(2 * k + 1, d - 1, n - 1);
    }
  }

  // ---------------------------------------------------------------- products of pairs

  /** (a0 + a1 X)(b0 + b1 X) modulo X^2 - g. */
  function PairProduct(a: seq<int>, b: seq<int>, g: int): (r: seq<int>)
    requires |a| == |b| == 2
    ensures |r| == 2
  {
    [a[0] * b[0] + g * (a[1] * b[1]), a[0] * b[1] + a[1] * b[0]]
  }

  /** The product in the transformed domain: pair by pair, each modulo its leaf's X^2 - g. */
  function Pointwise(a: seq<int>, b: seq<int>, k: nat, d: nat): (r: seq<int>)
    requires |a| == |b| == Pow2(d + 1)
    ensures |r| == Pow2(d + 1)
    decreases d, a
  {
    if d == 0 then PairProduct(a, b, Modulus(k))
    else
      var h := Pow2(d);
      Pointwise(a[..h], b[..h], 2 * k, d - 1) + Pointwise(a[h..], b[h..], 2 * k + 1, d - 1)
  }

  lemma PointwiseUnfold(a: seq<int>, b: seq<int>, u: seq<int>, v: seq<int>, k: nat, d: nat)
    requires d > 0 && |a| == |b| == |u| == |v| == Pow2(d)
    ensures Pointwise(a + u, b + v, k, d) == Pointwise(a, b, 2 * k, d - 1) + Pointwise(u, v, 2 * k + 1, d - 1)
  {
    assert (a + u)[..|a|] == a && (a + u)[|a|..] == u && (b + v)[..|a|] == b && (b + v)[|a|..] == v;
  }

  /** Multiplying by c + X * b is adding c times to X times the product with b. */
  lemma PairStep(a: seq<int>, b: seq<int>, c: int, g: int)
    requires |a| == |b| == 2
    ensures PairProduct(a, Plus(Scale(c, [1, 0]), Shift(b, g)), g) == Plus(Scale(c, a), Shift(PairProduct(a, b, g), g))
  {
    var q := Plus(Scale(c, [1, 0]), Shift(b, g));
    assert q == [c + g * b[1], b[0]];
    LowPair(a[0], a[1], b[0], b[1], c, g);
    HighPair(a[0], a[1], b[0], b[1], c, g);
    var p := PairProduct(a, b, g);
    assert Shift(p, g) == [g * p[1], p[0]];
  }

  lemma LowPair(a0: int, a1: int, b0: int, b1: int, c: int, g: int)
    ensures a0 * (c + g * b1) + g * (a1 * b0) == c * a0 + g * (a0 * b1 + a1 * b0)
  {
    Distribute(a0, c, g * b1);
    Distribute(g, a0 * b1, a1 * b0);
    Associate(a0, g, b1);
    Associate(g, a0, b1);
  }

  lemma HighPair(a0: int, a1: int, b0: int, b1: int, c: int, g: int)
    ensures a0 * b0 + a1 * (c + g * b1) == c * a1 + (a0 * b0 + g * (a1 * b1))
  {
    Distribute(a1, c, g * b1);
    Associate(a1, g, b1);
    Associate(g, a1, b1);
  }

  lemma {:induction false} PointwiseStep(a: seq<int>, b: seq<int>, c: int, k: nat, d: nat)
    requires |a| == |b| == Pow2(d + 1)
    ensures Pointwise(a, Plus(Scale(c, Units(d, d + 1)), ShiftAll(b, k, d, d + 1)), k, d)
            == Plus(Scale(c, a), ShiftAll(Pointwise(a, b, k, d), k, d, d + 1))
    decreases d
  {
    hide Modulus, Plus, Scale, Shift, One, PairProduct, Pointwise, ShiftAll, Units, Pow2;
    if d == 0 {
      LeafStep(a, b, c, k);
    } else {
      HalfSize(d + 1);
      var h := Pow2(d);
      var a1, a2, b1, b2 := a[..h], a[h..], b[..h], b[h..];
      assert a == a1 + a2 && b == b1 + b2;
      PointwiseStep(a1, b1, c, 2 * k, d - 1);
      PointwiseStep(a2, b2, c, 2 * k + 1, d - 1);
      var u, s1, s2 := Units(d - 1, d), ShiftAll(b1, 2 * k, d - 1, d), ShiftAll(b2, 2 * k + 1, d - 1, d);
      UnitsUnfold(d, d + 1);
      ShiftUnfold(b1, b2, k, d, d + 1);
      ScaleConcat(c, u, u);
      PlusConcat(Scale(c, u), s1, Scale(c, u), s2);
      PointwiseUnfold(a1, Plus(Scale(c, u), s1), a2, Plus(Scale(c, u), s2), k, d);
      var p1, p2 := Pointwise(a1, b1, 2 * k, d - 1), Pointwise(a2, b2, 2 * k + 1, d - 1);
      PointwiseUnfold(a1, b1, a2, b2, k, d);
      ShiftUnfold(p1, p2, k, d, d + 1);
      ScaleConcat(c, a1, a2);
      PlusConcat(Scale(c, a1), ShiftAll(p1, 2 * k, d - 1, d), Scale(c, a2), ShiftAll(p2, 2 * k + 1, d - 1, d));
    }
  }

  lemma UnitsUnfold(d: nat, n: nat)
    requires 0 < d <= n
    ensures Units(d, n) == Units(d - 1, n - 1) + Units(d - 1, n - 1)
  {
  }

  lemma LeafStep(a: seq<int>, b: seq<int>, c: int, k: nat)
    requires |a| == |b| == Pow2(1)
    ensures Pointwise(a, Plus(Scale(c, Units(0, 1)), ShiftAll(b, k, 0, 1)), k, 0)
            == Plus(Scale(c, a), ShiftAll(Pointwise(a, b, k, 0), k, 0, 1))
  {
    hide Modulus, PairProduct, Plus, Scale, Shift;
    assert Pow2(1) == 2;
    PairStep(a, b, c, Modulus(k));
    assert One(1) == [1, 0];
  }

  // ---------------------------------------------------------------- congruence

  lemma PairAlike(a: seq<int>, b: seq<int>, u: seq<int>, v: seq<int>, g: int)
    requires |a| == |b| == 2 && Alike(a, u) && Alike(b, v)
    ensures Alike(PairProduct(a, b, g), PairProduct(u, v, g))
  {
    hide Same;
    SameMul(a[0], u[0], b[0], v[0]);
    SameMul(a[1], u[1], b[1], v[1]);
    SameMul(a[0], u[0], b[1], v[1]);
    SameMul(a[1], u[1], b[0], v[0]);
    Refl(g);
    SameMul(g, g, a[1] * b[1], u[1] * v[1]);
    SameAdd(a[0] * b[0], u[0] * v[0], g * (a[1] * b[1]), g * (u[1] * v[1]));
    SameAdd(a[0] * b[1], u[0] * v[1], a[1] * b[0], u[1] * v[0]);
  }

  lemma {:induction false} PointwiseAlike(a: seq<int>, b: seq<int>, u: seq<int>, v: seq<int>, k: nat, d: nat)
    requires |a| == |b| == Pow2(d + 1) && Alike(a, u) && Alike(b, v)
    ensures |u| == |v| == Pow2(d + 1) && Alike(Pointwise(a, b, k, d), Pointwise(u, v, k, d))
    decreases d
  {
    hide Alike, PairProduct, Modulus, Pow2;
    AlikeLength(a, u);
    AlikeLength(b, v);
    HalfSize(d + 1);
    if d == 0 {
      PowZero();
      PairAlike(a, b, u, v, Modulus(k));
    } else {
      var h := Pow2(d);
      AlikeSlice(a, u, 0, h);
      AlikeSlice(b, v, 0, h);
      AlikeSlice(a, u, h, 2 * h);
      AlikeSlice(b, v, h, 2 * h);
      assert a[h..2 * h] == a[h..] && u[h..2 * h] == u[h..] && b[h..2 * h] == b[h..] && v[h..2 * h] == v[h..];
      PointwiseAlike(a[..h], b[..h], u[..h], v[..h], 2 * k, d - 1);
      PointwiseAlike(a[h..], b[h..], u[h..], v[h..], 2 * k + 1, d - 1);
      AlikeConcat(Pointwise(a[..h], b[..h], 2 * k, d - 1), Pointwise(u[..h], v[..h], 2 * k, d - 1),
                  Pointwise(a[h..], b[h..], 2 * k + 1, d - 1), Pointwise(u[h..], v[h..], 2 * k + 1, d - 1));
    }
  }

  lemma PowZero()
    ensures Pow2(0) == 1 && Pow2(1) == 2
  {
  }

  lemma {:induction false} ShiftAllAlike(p: seq<int>, q: seq<int>, k: nat, d: nat, n: nat)
    requires d <= n && |p| == Pow2(n) && Alike(p, q)
    ensures |q| == |p| && Alike(ShiftAll(p, k, d, n), ShiftAll(q, k, d, n))
    decreases d
  {
    hide Alike, Shift, Modulus, Pow2;
    AlikeLength(p, q);
    if d == 0 {
      Refl(Modulus(k));
      ShiftAlike(p, q, Modulus(k), Modulus(k));
    } else {
      HalfSize(n);
      var h := Pow2(n - 1);
      AlikeSlice(p, q, 0, h);
      AlikeSlice(p, q, h, 2 * h);
      assert p[h..2 * h] == p[h..] && q[h..2 * h] == q[h..];
      ShiftAllAlike(p[..h], q[..h], 2 * k, d - 1, n - 1);
      ShiftAllAlike(p[h..], q[h..], 2 * k + 1, d - 1, n - 1);
      AlikeConcat(ShiftAll(p[..h], 2 * k, d - 1, n - 1), ShiftAll(q[..h], 2 * k, d - 1, n - 1),
                  ShiftAll(p[h..], 2 * k + 1, d - 1, n - 1), ShiftAll(q[h..], 2 * k + 1, d - 1, n - 1));
    }
  }

  lemma PlusAlike(p: seq<int>, q: seq<int>, u: seq<int>, v: seq<int>)
    requires Alike(p, q) && Alike(u, v) && |p| == |u|
    ensures |q| == |v| == |p| && Alike(Plus(p, u), Plus(q, v))
  {
    hide Same;
    forall i | 0 <= i < |p| ensures Same(Plus(p, u)[i], Plus(q, v)[i]) {
      SameAdd(p[i], q[i], u[i], v[i]);
    }
  }

  lemma AlikeSym(p: seq<int>, q: seq<int>)
    requires Alike(p, q)
    ensures Alike(q, p)
  {
    hide Same;
    forall i | 0 <= i < |p| ensures Same(q[i], p[i]) {
      SameSym(p[i], q[i]);
    }
  }

  // ---------------------------------------------------------------- the product theorem

  /** All seven levels over 256 coefficients. */
  function Full(p: seq<int>): (r: seq<int>)
    requires |p| == N
    ensures |r| == N
  {
    Eight();
    Ntt(p, 1, LEVELS, LEVELS + 1)
  }

  lemma Eight()
    ensures Pow2(LEVELS + 1) == N && Pow2(LEVELS) == 128
  {
    assert Pow2(8) == N;
  }

  /** Multiplication by X in all 128 leaves. */
  function ShiftFull(p: seq<int>): (r: seq<int>)
    requires |p| == N
    ensures |r| == N
  {
    Eight();
    ShiftAll(p, 1, LEVELS, LEVELS + 1)
  }

  /** The polynomial 1. */
  function Unit(): (r: seq<int>)
    ensures |r| == N
  {
    Eight();
    One(LEVELS + 1)
  }

  /** One Horner step in the transformed domain. */
  function Horner(c: int, a: seq<int>, p: seq<int>): (r: seq<int>)
    requires |a| == |p| == N
    ensures |r| == N
  {
    Plus(Scale(c, a), ShiftFull(p))
  }

  /** One Horner step under the transform. */
  lemma FullStep(a: seq<int>, p: seq<int>, c: int)
    requires |a| == |p| == N
    ensures Alike(Full(Plus(Scale(c, a), Shift(p, -1))), Horner(c, Full(a), Full(p)))
  {
    hide Plus, Scale, Shift, Alike, Ntt, ShiftAll, Pow2;
    Eight();
    NttPlus(Scale(c, a), Shift(p, -1), 1, LEVELS, LEVELS + 1);
    NttScale(c, a, 1, LEVELS, LEVELS + 1);
    assert Modulus(1) == -1;
    ShiftCommutes(p, 1, LEVELS, LEVELS + 1);
    AlikeRefl(Scale(c, Full(a)));
    PlusAlike(Scale(c, Full(a)), Scale(c, Full(a)), Full(Shift(p, -1)), ShiftFull(Full(p)));
  }

  /** The product of pairs in all 128 leaves. */
  function Pairs(a: seq<int>, b: seq<int>): (r: seq<int>)
    requires |a| == |b| == N
    ensures |r| == N
  {
    Eight();
    Pointwise(a, b, 1, LEVELS)
  }

  lemma {:induction false} ProductByOne(a: seq<int>, b: seq<int>)
    requires |a| == N
    ensures Alike(Full(Product(a, b)), Pairs(Full(a), Full(Product(Unit(), b))))
    decreases |b|
  {
    hide Plus, Scale, Shift, Alike, Ntt, ShiftAll, Pow2, Pointwise, One, Units, Full, Pairs;
    Eight();
    if b == [] {
      ZeroProduct(a);
    } else {
      var c, p, o := b[0], Product(a, b[1..]), Product(Unit(), b[1..]);
      ProductByOne(a, b[1..]);
      FullStep(a, p, c);
      FullStep(Unit(), o, c);
      var A, O := Full(a), Full(o);
      // the left side
      var x := Horner(c, A, Full(p));
      var y := Horner(c, A, Pairs(A, O));
      ShiftAllAlike(Full(p), Pairs(A, O), 1, LEVELS, LEVELS + 1);
      AlikeRefl(Scale(c, A));
      PlusAlike(Scale(c, A), Scale(c, A), ShiftFull(Full(p)), ShiftFull(Pairs(A, O)));
      AlikeTrans(Full(Product(a, b)), x, y);
      // the right side
      FullUnit(LEVELS);
      RightSide(A, O, c, Full(Unit()), LEVELS);
      AlikeRefl(A);
      PairsAlike(A, Full(Product(Unit(), b)), Horner(c, Full(Unit()), O));
      AlikeSym(Pairs(A, Full(Product(Unit(), b))), y);
      AlikeTrans(Full(Product(a, b)), y, Pairs(A, Full(Product(Unit(), b))));
    }
  }

  /** Transformed, the polynomial 1 is 1 in every leaf. */
  lemma FullUnit(d: nat)
    requires d == LEVELS
    ensures Full(Unit()) == Units(d, d + 1)
  {
    hide Ntt, Pow2, One, Units;
    NttOne(1, d, d + 1);
  }

  lemma RightSide(a: seq<int>, o: seq<int>, c: int, unit: seq<int>, d: nat)
    requires |a| == |o| == |unit| == N && d == LEVELS && unit == Units(d, d + 1)
    ensures Pairs(a, Horner(c, unit, o)) == Horner(c, a, Pairs(a, o))
  {
    hide Plus, Scale, ShiftAll, Pow2, Pointwise, Units;
    Eight();
    PointwiseStep(a, o, c, 1, LEVELS);
  }

  lemma PairsAlike(a: seq<int>, b: seq<int>, v: seq<int>)
    requires |a| == |b| == N && Alike(b, v)
    ensures |v| == N && Alike(Pairs(a, b), Pairs(a, v))
  {
    hide Alike, Pow2, Pointwise;
    Eight();
    AlikeRefl(a);
    PointwiseAlike(a, b, a, v, 1, LEVELS);
  }

  lemma ZeroProduct(a: seq<int>)
    requires |a| == N
    ensures Alike(Full(Product(a, [])), Pairs(Full(a), Full(Product(Unit(), []))))
  {
    hide Ntt, Pow2, Pointwise, Same;
    Eight();
    var z := Zeros(N);
    assert Scale(0, z) == z;
    NttScale(0, z, 1, LEVELS, LEVELS + 1);
    assert Full(z) == Scale(0, Full(z)) == z;
    PointwiseZero(Full(a), 1, LEVELS);
    AlikeRefl(z);
  }

  lemma {:induction false} PointwiseZero(a: seq<int>, k: nat, d: nat)
    requires |a| == Pow2(d + 1)
    ensures Pointwise(a, Zeros(Pow2(d + 1)), k, d) == Zeros(Pow2(d + 1))
    decreases d
  {
    hide Modulus;
    var z, h := Zeros(Pow2(d + 1)), Pow2(d);
    if d == 0 {
      PowZero();
      assert a[0] * 0 + Modulus(k) * (a[1] * 0) == 0 && a[0] * 0 + a[1] * 0 == 0;
    } else {
      assert z[..h] == Zeros(h) && z[h..] == Zeros(h);
      PointwiseZero(a[..h], 2 * k, d - 1);
      PointwiseZero(a[h..], 2 * k + 1, d - 1);
      assert Zeros(h) + Zeros(h) == z;
    }
  }

  /** The transform of the product modulo X^256 + 1 is the product of the transforms, pair by pair. */
  lemma ProductTheorem(a: seq<int>, b: seq<int>)
    requires |a| == |b| == N
    ensures Alike(Full(Product(a, b)), Pairs(Full(a), Full(b)))
  {
    hide Full, Pairs, Product, Alike, One, Pow2;
    Eight();
    ProductByOne(a, b);
    ProductOne(b, LEVELS + 1);
    assert b + Zeros(0) == b;
  }

  /** All seven levels back. */
  function FullInverse(p: seq<int>): (r: seq<int>)
    requires |p| == N
    ensures |r| == N
  {
    Eight();
    InvNtt(p, 1, LEVELS, LEVELS + 1)
  }

  /** Transforming back the product of the transforms gives 128 times the product. */
  lemma MultiplyBack(a: seq<int>, b: seq<int>)
    requires |a| == |b| == N
    ensures Alike(FullInverse(Pairs(Full(a), Full(b))), Scale(128, Product(a, b)))
  {
    hide Pairs, Product, Alike, Pow2, Ntt, InvNtt, Scale;
    Eight();
    ProductTheorem(a, b);
    AlikeSym(Full(Product(a, b)), Pairs(Full(a), Full(b)));
    InvAlike(Pairs(Full(a), Full(b)), Full(Product(a, b)), 1, LEVELS, LEVELS + 1);
    InverseUndoes(Product(a, b), 1, LEVELS, LEVELS + 1);
    AlikeTrans(FullInverse(Pairs(Full(a), Full(b))), FullInverse(Full(Product(a, b))), Scale(128, Product(a, b)));
  }
}
