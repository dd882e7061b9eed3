/** The number-theoretic transform over the integers: a tree of polynomial remainders, its inverse, and products. */
module MlkemTransform {
  import opened Arithmetic
  import opened Bits
  import opened MlkemField
  import opened MlkemZetas

  // ---------------------------------------------------------------- the nodes

  /** Node k works modulo X^m - Modulus(k); its children are nodes 2k and 2k + 1. */
  function Modulus(k: nat): (g: int) {
    if k <= 1 then -1 else if k % 2 == 0 then Zeta(k / 2) else -Zeta(k / 2)
  }

  /** Each node's zeta is a square root of its modulus constant, so X^2m - g = (X^m - z)(X^m + z). */
  lemma Roots(k: nat)
    requires 1 <= k < 128
    ensures Same(Zeta(k) * Zeta(k), Modulus(k))
  {
    hide Same, Power, Rev;
    PowerAdd(BitRev7(k), BitRev7(k));
    SameSym(Power(2 * BitRev7(k)), Zeta(k) * Zeta(k));
    if k == 1 {
      One();
      HalfTurn();
      SameTrans(Zeta(k) * Zeta(k), Power(128), -1);
    } else {
      BitRevChildren(k / 2);
      if k % 2 == 1 {
        Negated(BitRev7(k / 2));
        SameTrans(Zeta(k) * Zeta(k), Power(BitRev7(k / 2) + 128), -Zeta(k / 2));
      }
    }
  }

  lemma One()
    ensures BitRev7(1) == 64
  {
    hide Rev, Pow2;
    SmallPowers();
    RevStep(1);
    RevTopBit(0, 0, 7);
    RevTopBit(0, 0, 7);
    RevZero(6);
  }

  lemma {:induction false} RevZero(n: nat)
    ensures Rev(0, n) == 0
  {
    if n > 0 {
      RevZero(n - 1);
    }
  }

  /** Half a turn further is the negative. */
  lemma Negated(n: nat)
    ensures Same(Power(n + 128), -Power(n))
  {
    hide Same, Power;
    PowerAdd(n, 128);
    HalfTurn();
    Refl(Power(n));
    SameMul(Power(n), Power(n), Power(128), -1);
    SameTrans(Power(n + 128), Power(n) * Power(128), Power(n) * -1);
  }

  /** The node met in its place when a level is walked from the other end. */
  function Mirror(k: nat): (m: nat)
    ensures k >= 1 ==> m >= 1
  {
    if k <= 1 then 1 else if k % 2 == 0 then 2 * Mirror(k / 2) + 1 else 2 * Mirror(k / 2)
  }

  lemma {:induction false} MirrorLevel(k: nat, i: nat)
    requires 1 <= k < Pow2(i)
    ensures Mirror(k) < Pow2(i)
  {
    if k > 1 {
      MirrorLevel(k / 2, i - 1);
    }
  }

  /** Mirrored nodes' exponents add up to half a turn. */
  lemma {:induction false} MirrorExponent(k: nat)
    requires 1 <= k < 128
    ensures Mirror(k) < 128 && BitRev7(k) + BitRev7(Mirror(k)) == 128
  {
    hide BitRev7, Pow2;
    SmallPowers();
    assert Pow2(7) == 128 by {
      Seven();
    }
    MirrorLevel(k, 7);
    if k == 1 {
      One();
    } else {
      MirrorLevel(k / 2, 6);
      MirrorExponent(k / 2);
      BitRevChildren(k / 2);
      BitRevChildren(Mirror(k / 2));
    }
  }

  lemma Seven()
    ensures Pow2(7) == 128
  {
    SmallPowers();
  }

  /** Mirrored zetas are negative inverses. */
  lemma MirrorZeta(k: nat)
    requires 1 <= k < 128
    ensures Mirror(k) < 128 && Same(Zeta(k) * Zeta(Mirror(k)), -1)
  {
    hide Same, Power, BitRev7;
    MirrorExponent(k);
    PowerAdd(BitRev7(k), BitRev7(Mirror(k)));
    HalfTurn();
    SameSym(Power(128), Zeta(k) * Zeta(Mirror(k)));
    SameTrans(Zeta(k) * Zeta(Mirror(k)), Power(128), -1);
  }

  // ---------------------------------------------------------------- polynomials as coefficient sequences

  /** Coefficientwise congruence. */
  ghost predicate Alike(p: seq<int>, q: seq<int>) { |p| == |q| && forall i :: 0 <= i < |p| ==> Same(p[i], q[i]) }

  /** The remainder modulo X^h - z: X^h is replaced by z. */
  function Fold(p: seq<int>, z: int): (r: seq<int>)
    ensures |r| == |p| / 2
  {
    seq(|p| / 2, j requires 0 <= j < |p| / 2 => p[j] + z * p[j + |p| / 2])
  }

  /** A node's butterfly: both remainders. */
  function Split(p: seq<int>, k: nat): (r: seq<int>)
    ensures |r| == |p| / 2 * 2
  {
    Fold(p, Zeta(k)) + Fold(p, -Zeta(k))
  }

  /** The inverse butterfly, with the mirrored zeta: twice what was split. */
  function Join(p: seq<int>, k: nat): (r: seq<int>)
    ensures |r| == |p| / 2 * 2 && (|p| % 2 == 0 ==> |r| == |p|)
  {
    var h, z := |p| / 2, Zeta(Mirror(k));
    seq(h, j requires 0 <= j < h => p[j] + p[j + h]) + seq(h, j requires 0 <= j < h => z * (p[j + h] - p[j]))
  }

  /** Multiplication by X modulo X^m - g. */
  function Shift(p: seq<int>, g: int): (r: seq<int>)
    ensures |r| == |p|
  {
    if p == [] then [] else [g * p[|p| - 1]] + p[..|p| - 1]
  }

  function Plus(p: seq<int>, q: seq<int>): (r: seq<int>)
    requires |p| == |q|
    ensures |r| == |p|
  {
    seq(|p|, i requires 0 <= i < |p| => p[i] + q[i])
  }

  function Scale(c: int, p: seq<int>): (r: seq<int>)
    ensures |r| == |p|
  {
    seq(|p|, i requires 0 <= i < |p| => c * p[i])
  }

  // ---------------------------------------------------------------- the transform

  /** d levels of the transform of a polynomial of 2^n coefficients at node k. */
  function Ntt(p: seq<int>, k: nat, d: nat, n: nat): (r: seq<int>)
    requires d <= n && |p| == Pow2(n)
    ensures |r| == |p|
    decreases d, p
  {
    if d == 0 then p
    else Ntt(Fold(p, Zeta(k)), 2 * k, d - 1, n - 1) + Ntt(Fold(p, -Zeta(k)), 2 * k + 1, d - 1, n - 1)
  }

  /** The inverse: children first, then this node. */
  function InvNtt(p: seq<int>, k: nat, d: nat, n: nat): (r: seq<int>)
    requires d <= n && |p| == Pow2(n)
    ensures |r| == |p|
    decreases d, p
  {
    if d == 0 then p
    else
      HalfSize(n);
      var h := Pow2(n - 1);
      Join(InvNtt(p[..h], 2 * k, d - 1, n - 1) + InvNtt(p[h..], 2 * k + 1, d - 1, n - 1), k)
  }

  // ---------------------------------------------------------------- congruence of the pieces

  lemma AlikeRefl(p: seq<int>)
    ensures Alike(p, p)
  {
  }

  lemma AlikeTrans(p: seq<int>, q: seq<int>, r: seq<int>)
    requires Alike(p, q) && Alike(q, r)
    ensures Alike(p, r)
  {
    hide Same;
    forall i | 0 <= i < |p| ensures Same(p[i], r[i]) {
      SameTrans(p[i], q[i], r[i]);
    }
  }

  lemma AlikeConcat(p: seq<int>, q: seq<int>, u: seq<int>, v: seq<int>)
    requires Alike(p, q) && Alike(u, v)
    ensures Alike(p + u, q + v)
  {
  }

  lemma AlikeSlice(p: seq<int>, q: seq<int>, lo: nat, hi: nat)
    requires Alike(p, q) && lo <= hi <= |p|
    ensures Alike(p[lo..hi], q[lo..hi])
  {
  }

  lemma FoldAlike(p: seq<int>, q: seq<int>, z: int, y: int)
    requires Alike(p, q) && Same(z, y)
    ensures Alike(Fold(p, z), Fold(q, y))
  {
    hide Same;
    forall j | 0 <= j < |p| / 2 ensures Same(Fold(p, z)[j], Fold(q, y)[j]) {
      SameMul(z, y, p[j + |p| / 2], q[j + |p| / 2]);
      SameAdd(p[j], q[j], z * p[j + |p| / 2], y * q[j + |p| / 2]);
    }
  }

  lemma JoinAlike(p: seq<int>, q: seq<int>, k: nat)
    requires Alike(p, q)
    ensures Alike(Join(p, k), Join(q, k))
  {
    hide Same;
    var h, z := |p| / 2, Zeta(Mirror(k));
    forall j | 0 <= j < h ensures Same(p[j] + p[j + h], q[j] + q[j + h])
                          ensures Same(z * (p[j + h] - p[j]), z * (q[j + h] - q[j])) {
      SameAdd(p[j], q[j], p[j + h], q[j + h]);
      SameAdd(p[j + h], q[j + h], p[j], q[j]);
      Refl(z);
      SameMul(z, z, p[j + h] - p[j], q[j + h] - q[j]);
    }
  }

  lemma ShiftAlike(p: seq<int>, q: seq<int>, g: int, f: int)
    requires Alike(p, q) && Same(g, f)
    ensures Alike(Shift(p, g), Shift(q, f))
  {
    hide Same;
    if p != [] {
      SameMul(g, f, p[|p| - 1], q[|p| - 1]);
    }
  }

  lemma {:induction false} NttAlike(p: seq<int>, q: seq<int>, k: nat, d: nat, n: nat)
    requires d <= n && |p| == Pow2(n) && Alike(p, q)
    ensures Alike(Ntt(p, k, d, n), Ntt(q, k, d, n))
    decreases d
  {
    hide Alike, Fold, Same, Zeta;
    AlikeLength(p, q);
    if d > 0 {
      Refl(Zeta(k));
      Refl(-Zeta(k));
      FoldAlike(p, q, Zeta(k), Zeta(k));
      FoldAlike(p, q, -Zeta(k), -Zeta(k));
      NttAlike(Fold(p, Zeta(k)), Fold(q, Zeta(k)), 2 * k, d - 1, n - 1);
      NttAlike(Fold(p, -Zeta(k)), Fold(q, -Zeta(k)), 2 * k + 1, d - 1, n - 1);
      AlikeConcat(Ntt(Fold(p, Zeta(k)), 2 * k, d - 1, n - 1), Ntt(Fold(q, Zeta(k)), 2 * k, d - 1, n - 1),
                  Ntt(Fold(p, -Zeta(k)), 2 * k + 1, d - 1, n - 1), Ntt(Fold(q, -Zeta(k)), 2 * k + 1, d - 1, n - 1));
    }
  }

  lemma AlikeLength(p: seq<int>, q: seq<int>)
    requires Alike(p, q)
    ensures |p| == |q|
  {
  }

  lemma {:induction false} InvAlike(p: seq<int>, q: seq<int>, k: nat, d: nat, n: nat)
    requires d <= n && |p| == Pow2(n) && Alike(p, q)
    ensures Alike(InvNtt(p, k, d, n), InvNtt(q, k, d, n))
    decreases d
  {
    hide Alike, Join, Same, Zeta, Pow2;
    AlikeLength(p, q);
    if d > 0 {
      HalfSize(n);
      var h := Pow2(n - 1);
      AlikeSlice(p, q, 0, h);
      AlikeSlice(p, q, h, |p|);
      assert p[h..|p|] == p[h..] && q[h..|q|] == q[h..];
      InvAlike(p[..h], q[..h], 2 * k, d - 1, n - 1);
      InvAlike(p[h..], q[h..], 2 * k + 1, d - 1, n - 1);
      AlikeConcat(InvNtt(p[..h], 2 * k, d - 1, n - 1), InvNtt(q[..h], 2 * k, d - 1, n - 1),
                  InvNtt(p[h..], 2 * k + 1, d - 1, n - 1), InvNtt(q[h..], 2 * k + 1, d - 1, n - 1));
      JoinAlike(InvNtt(p[..h], 2 * k, d - 1, n - 1) + InvNtt(p[h..], 2 * k + 1, d - 1, n - 1),
                InvNtt(q[..h], 2 * k, d - 1, n - 1) + InvNtt(q[h..], 2 * k + 1, d - 1, n - 1), k);
    }
  }

  // ---------------------------------------------------------------- the inverse undoes the transform

  /** Node k has d more levels below it in the tree of the 256 coefficients. */
  predicate InTree(k: nat, d: nat) { 1 <= k && (k + 1) * Pow2(d) <= 256 }

  lemma ChildInTree(k: nat, d: nat)
    requires InTree(k, d) && d > 0
    ensures k < 128 && InTree(2 * k, d - 1) && InTree(2 * k + 1, d - 1)
  {
    var w := Pow2(d - 1);
    Associate(k + 1, 2, w);
    MulMonotone(w, 2 * k + 1, 2 * k + 2);
    MulMonotone(k + 1, 1, w);
  }

  /** Joining what was split gives twice the polynomial. */
  lemma JoinSplit(p: seq<int>, k: nat)
    requires 1 <= k < 128 && |p| % 2 == 0
    ensures Alike(Join(Split(p, k), k), Scale(2, p))
  {
    hide Same, Zeta, Mirror;
    var h, z, y := |p| / 2, Zeta(k), Zeta(Mirror(k));
    var s := Split(p, k);
    MirrorZeta(k);
    forall i | 0 <= i < |p| ensures Same(Join(s, k)[i], 2 * p[i]) {
      if i < h {
        assert Join(s, k)[i] == s[i] + s[i + h] == p[i] + z * p[i + h] + (p[i] + -z * p[i + h]);
        Opposite(z, p[i + h]);
        Refl(2 * p[i]);
      } else {
        var a, b := p[i - h], p[i];
        assert Join(s, k)[i] == y * (s[i] - s[i - h]) == y * (a + -z * b - (a + z * b));
        TwiceBack(a, b, z, y);
      }
    }
  }

  lemma Opposite(z: int, b: int)
    ensures z * b + -z * b == 0
  {
  }

  lemma TwiceBack(a: int, b: int, z: int, y: int)
    requires Same(z * y, -1)
    ensures Same(y * (a + -z * b - (a + z * b)), 2 * b)
  {
    hide Same;
    Opposite(z, b);
    assert a + -z * b - (a + z * b) == -2 * (z * b);
    Rearrange(y, z, b);
    Refl(-2 * b);
    SameMul(z * y, -1, -2 * b, -2 * b);
  }

  lemma Rearrange(y: int, z: int, b: int)
    ensures y * (-2 * (z * b)) == z * y * (-2 * b)
  {
    assert y * (-2 * (z * b)) == -2 * (y * (z * b));
    Associate(y, z, b);
    assert y * z == z * y;
    assert z * y * (-2 * b) == -2 * (z * y * b);
  }

  lemma ScaleAlike(c: int, p: seq<int>, q: seq<int>)
    requires Alike(p, q)
    ensures Alike(Scale(c, p), Scale(c, q))
  {
    hide Same;
    forall i | 0 <= i < |p| ensures Same(Scale(c, p)[i], Scale(c, q)[i]) {
      Refl(c);
      SameMul(c, c, p[i], q[i]);
    }
  }

  lemma JoinScale(c: int, p: seq<int>, k: nat)
    requires |p| % 2 == 0
    ensures Join(Scale(c, p), k) == Scale(c, Join(p, k))
  {
    hide Zeta, Mirror;
    var h, z := |p| / 2, Zeta(Mirror(k));
    forall i | 0 <= i < |p| ensures Join(Scale(c, p), k)[i] == Scale(c, Join(p, k))[i] {
      if i < h {
        Distribute(c, p[i], p[i + h]);
      } else {
        ScaleDifference(c, z, p[i], p[i - h]);
      }
    }
  }

  lemma ScaleDifference(c: int, z: int, a: int, b: int)
    ensures z * (c * a - c * b) == c * (z * (a - b))
  {
    Distribute(c, a, -b);
    assert c * a - c * b == c * (a - b);
    Associate(z, c, a - b);
    Associate(c, z, a - b);
  }

  lemma ScaleTwice(c: int, p: seq<int>)
    ensures Scale(c, Scale(2, p)) == Scale(2 * c, p)
  {
    forall i | 0 <= i < |p| ensures Scale(c, Scale(2, p))[i] == Scale(2 * c, p)[i] {
      Associate(c, 2, p[i]);
    }
  }

  lemma ScaleConcat(c: int, p: seq<int>, q: seq<int>)
    ensures Scale(c, p) + Scale(c, q) == Scale(c, p + q)
  {
  }

  /** Transforming and transforming back multiplies by 2 for every level. */
  lemma {:induction false} InverseUndoes(p: seq<int>, k: nat, d: nat, n: nat)
    requires d <= n && |p| == Pow2(n) && InTree(k, d)
    ensures Alike(InvNtt(Ntt(p, k, d, n), k, d, n), Scale(Pow2(d), p))
    decreases d
  {
    hide Same, Zeta, Join, Fold, Alike, InTree, Scale;
    if d == 0 {
      ScaleOne(p);
    } else {
      ChildInTree(k, d);
      var lo, hi, w := Fold(p, Zeta(k)), Fold(p, -Zeta(k)), Pow2(d - 1);
      var a, b := Ntt(lo, 2 * k, d - 1, n - 1), Ntt(hi, 2 * k + 1, d - 1, n - 1);
      InverseUndoes(lo, 2 * k, d - 1, n - 1);
      InverseUndoes(hi, 2 * k + 1, d - 1, n - 1);
      assert (a + b)[..|a|] == a && (a + b)[|a|..] == b;
      var a1, b1 := InvNtt(a, 2 * k, d - 1, n - 1), InvNtt(b, 2 * k + 1, d - 1, n - 1);
      AlikeConcat(a1, Scale(w, lo), b1, Scale(w, hi));
      ScaleConcat(w, lo, hi);
      JoinAlike(a1 + b1, Scale(w, Split(p, k)), k);
      JoinScale(w, Split(p, k), k);
      JoinSplit(p, k);
      ScaleAlike(w, Join(Split(p, k), k), Scale(2, p));
      ScaleTwice(w, p);
      AlikeTrans(Join(a1 + b1, k), Scale(w, Join(Split(p, k), k)), Scale(Pow2(d), p));
    }
  }

  lemma ScaleOne(p: seq<int>)
    ensures Alike(p, Scale(Pow2(0), p))
  {
    assert Scale(1, p) == p;
  }

  // ---------------------------------------------------------------- products

  /** Multiplication by X in every block of a transform: each block modulo its own X^m - g. */
  function ShiftAll(p: seq<int>, k: nat, d: nat, n: nat): (r: seq<int>)
    requires d <= n && |p| == Pow2(n)
    ensures |r| == |p|
    decreases d, p
  {
    if d == 0 then Shift(p, Modulus(k))
    else
      var h := Pow2(n - 1);
      ShiftAll(p[..h], 2 * k, d - 1, n - 1) + ShiftAll(p[h..], 2 * k + 1, d - 1, n - 1)
  }

  /** Folding commutes with multiplication by X: X^2h - z^2 above, X^h - z below. */
  lemma FoldShift(p: seq<int>, z: int)
    requires |p| % 2 == 0
    ensures Fold(Shift(p, z * z), z) == Shift(Fold(p, z), z)
  {
    hide Shift;
    var h := |p| / 2;
    forall j | 0 <= j < h ensures Fold(Shift(p, z * z), z)[j] == Shift(Fold(p, z), z)[j] {
      ShiftAt(p, z * z, j);
      ShiftAt(p, z * z, j + h);
      ShiftAt(Fold(p, z), z, j);
      if j == 0 {
        Wrap(z, p[h - 1], p[2 * h - 1]);
      }
    }
  }

  lemma ShiftAt(p: seq<int>, g: int, i: nat)
    requires i < |p|
    ensures Shift(p, g)[i] == if i == 0 then g * p[|p| - 1] else p[i - 1]
  {
  }

  lemma Wrap(z: int, a: int, b: int)
    ensures z * z * b + z * a == z * (a + z * b)
  {
    Distribute(z, a, z * b);
    Associate(z, z, b);
  }

  /** The transform turns multiplication by X modulo X^m - g into multiplication by X in every block. */
  lemma {:induction false} ShiftCommutes(p: seq<int>, k: nat, d: nat, n: nat)
    requires d <= n && |p| == Pow2(n) && InTree(k, d)
    ensures Alike(Ntt(Shift(p, Modulus(k)), k, d, n), ShiftAll(Ntt(p, k, d, n), k, d, n))
    decreases d
  {
    hide Same, Zeta, Fold, Alike, InTree, Shift, Modulus, Pow2, Ntt, ShiftAll;
    if d == 0 {
      NoLevels(p, k, n);
    } else {
      HalfSize(n);
      ChildInTree(k, d);
      ChildModuli(k);
      var z := Zeta(k);
      var s := Shift(p, Modulus(k));
      var a, b := Ntt(Fold(p, z), 2 * k, d - 1, n - 1), Ntt(Fold(p, -z), 2 * k + 1, d - 1, n - 1);
      NttUnfold(p, k, d, n);
      NttUnfold(s, k, d, n);
      ShiftUnfold(a, b, k, d, n);
      ShiftCommutes(Fold(p, z), 2 * k, d - 1, n - 1);
      ShiftHalf(p, k, z, 2 * k, d - 1, n - 1);
      ShiftCommutes(Fold(p, -z), 2 * k + 1, d - 1, n - 1);
      ShiftHalf(p, k, -z, 2 * k + 1, d - 1, n - 1);
      AlikeConcat(Ntt(Fold(s, z), 2 * k, d - 1, n - 1), ShiftAll(a, 2 * k, d - 1, n - 1),
                  Ntt(Fold(s, -z), 2 * k + 1, d - 1, n - 1), ShiftAll(b, 2 * k + 1, d - 1, n - 1));
    }
  }

  lemma NoLevels(p: seq<int>, k: nat, n: nat)
    requires |p| == Pow2(n)
    ensures Alike(Ntt(Shift(p, Modulus(k)), k, 0, n), ShiftAll(Ntt(p, k, 0, n), k, 0, n))
  {
    AlikeRefl(Shift(p, Modulus(k)));
  }

  lemma NttUnfold(p: seq<int>, k: nat, d: nat, n: nat)
    requires 0 < d <= n && |p| == Pow2(n)
    ensures Ntt(p, k, d, n)
            == Ntt(Fold(p, Zeta(k)), 2 * k, d - 1, n - 1) + Ntt(Fold(p, -Zeta(k)), 2 * k + 1, d - 1, n - 1)
  {
  }

  lemma ShiftUnfold(a: seq<int>, b: seq<int>, k: nat, d: nat, n: nat)
    requires 0 < d <= n && |a| == |b| == Pow2(n - 1)
    ensures ShiftAll(a + b, k, d, n) == ShiftAll(a, 2 * k, d - 1, n - 1) + ShiftAll(b, 2 * k + 1, d - 1, n - 1)
  {
    assert (a + b)[..|a|] == a && (a + b)[|a|..] == b;
  }

  lemma HalfSize(n: nat)
    requires n > 0
    ensures Pow2(n) == 2 * Pow2(n - 1)
  {
  }

  /** One child: folding the shifted polynomial is, up to congruence, shifting the folded one. */
  lemma ShiftHalf(p: seq<int>, k: nat, z: int, c: nat, d: nat, n: nat)
    requires d <= n && |p| == 2 * Pow2(n) && 1 <= k < 128 && (z == Zeta(k) || z == -Zeta(k)) && Modulus(c) == z
    requires Alike(Ntt(Shift(Fold(p, z), Modulus(c)), c, d, n), ShiftAll(Ntt(Fold(p, z), c, d, n), c, d, n))
    ensures Alike(Ntt(Fold(Shift(p, Modulus(k)), z), c, d, n), ShiftAll(Ntt(Fold(p, z), c, d, n), c, d, n))
  {
    hide Same, Zeta, Fold, Alike, Shift, Modulus, Ntt, ShiftAll;
    FoldRoot(p, k, z);
    NttAlike(Fold(Shift(p, Modulus(k)), z), Shift(Fold(p, z), z), c, d, n);
    AlikeTrans(Ntt(Fold(Shift(p, Modulus(k)), z), c, d, n), Ntt(Shift(Fold(p, z), z), c, d, n),
               ShiftAll(Ntt(Fold(p, z), c, d, n), c, d, n));
  }

  lemma ChildModuli(k: nat)
    requires k >= 1
    ensures Modulus(2 * k) == Zeta(k) && Modulus(2 * k + 1) == -Zeta(k)
  {
    hide Zeta;
    assert 2 * k / 2 == k && (2 * k + 1) / 2 == k;
  }

  /** Folding with either root of the modulus. */
  lemma FoldRoot(p: seq<int>, k: nat, z: int)
    requires 1 <= k < 128 && |p| % 2 == 0 && (z == Zeta(k) || z == -Zeta(k))
    ensures Alike(Fold(Shift(p, Modulus(k)), z), Shift(Fold(p, z), z))
  {
    hide Same, Zeta, Fold, Shift, Modulus;
    Roots(k);
    assert -Zeta(k) * -Zeta(k) == Zeta(k) * Zeta(k);
    SameSym(z * z, Modulus(k));
    AlikeRefl(p);
    ShiftAlike(p, p, Modulus(k), z * z);
    Refl(z);
    FoldAlike(Shift(p, Modulus(k)), Shift(p, z * z), z, z);
    FoldShift(p, z);
  }

  // ---------------------------------------------------------------- linearity

  lemma FoldPlus(p: seq<int>, q: seq<int>, z: int)
    requires |p| == |q|
    ensures Fold(Plus(p, q), z) == Plus(Fold(p, z), Fold(q, z))
  {
    var h := |p| / 2;
    forall j | 0 <= j < h ensures Fold(Plus(p, q), z)[j] == Plus(Fold(p, z), Fold(q, z))[j] {
      Distribute(z, p[j + h], q[j + h]);
    }
  }

  lemma FoldScale(c: int, p: seq<int>, z: int)
    ensures Fold(Scale(c, p), z) == Scale(c, Fold(p, z))
  {
    var h := |p| / 2;
    forall j | 0 <= j < h ensures Fold(Scale(c, p), z)[j] == Scale(c, Fold(p, z))[j] {
      Associate(z, c, p[j + h]);
      Associate(c, z, p[j + h]);
      Distribute(c, p[j], z * p[j + h]);
    }
  }

  lemma PlusConcat(p: seq<int>, q: seq<int>, u: seq<int>, v: seq<int>)
    requires |p| == |q| && |u| == |v|
    ensures Plus(p, q) + Plus(u, v) == Plus(p + u, q + v)
  {
  }

  lemma {:induction false} NttPlus(p: seq<int>, q: seq<int>, k: nat, d: nat, n: nat)
    requires d <= n && |p| == |q| == Pow2(n)
    ensures Ntt(Plus(p, q), k, d, n) == Plus(Ntt(p, k, d, n), Ntt(q, k, d, n))
    decreases d
  {
    hide Zeta, Fold, Plus;
    if d > 0 {
      var z := Zeta(k);
      FoldPlus(p, q, z);
      FoldPlus(p, q, -z);
      NttPlus(Fold(p, z), Fold(q, z), 2 * k, d - 1, n - 1);
      NttPlus(Fold(p, -z), Fold(q, -z), 2 * k + 1, d - 1, n - 1);
      PlusConcat(Ntt(Fold(p, z), 2 * k, d - 1, n - 1), Ntt(Fold(q, z), 2 * k, d - 1, n - 1),
                 Ntt(Fold(p, -z), 2 * k + 1, d - 1, n - 1), Ntt(Fold(q, -z), 2 * k + 1, d - 1, n - 1));
    }
  }

  lemma {:induction false} NttScale(c: int, p: seq<int>, k: nat, d: nat, n: nat)
    requires d <= n && |p| == Pow2(n)
    ensures Ntt(Scale(c, p), k, d, n) == Scale(c, Ntt(p, k, d, n))
    decreases d
  {
    hide Zeta, Fold, Scale;
    if d > 0 {
      var z := Zeta(k);
      FoldScale(c, p, z);
      FoldScale(c, p, -z);
      NttScale(c, Fold(p, z), 2 * k, d - 1, n - 1);
      NttScale(c, Fold(p, -z), 2 * k + 1, d - 1, n - 1);
      ScaleConcat(c, Ntt(Fold(p, z), 2 * k, d - 1, n - 1), Ntt(Fold(p, -z), 2 * k + 1, d - 1, n - 1));
    }
  }
}
