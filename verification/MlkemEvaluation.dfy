/** What the transform is: remainders modulo X^2 - 17^(2 r + 1), with r the index in opposite bit order (section 4.3 of
    FIPS 203). */
module MlkemEvaluation {
  import opened Arithmetic
  import opened Bits
  import opened MlkemField
  import opened MlkemZetas
  import opened MlkemTransform
  import opened MlkemProduct

  /** a[c] + a[c + m] g + a[c + 2m] g^2 + ...: coefficient c of the remainder modulo X^m - g. */
  function Remainder(a: seq<int>, c: nat, m: nat, g: int): (v: int)
    requires m > 0
    decreases |a| - c
  {
    if c >= |a| then 0 else a[c] + g * Remainder(a, c + m, m, g)
  }

  function Exp(g: int, e: nat): (p: int) { if e == 0 then 1 else g * Exp(g, e - 1) }

  lemma {:induction false} ExpAdd(g: int, d: nat, e: nat)
    ensures Exp(g, d + e) == Exp(g, d) * Exp(g, e)
  {
    if d > 0 {
      ExpAdd(g, d - 1, e);
      Associate(g, Exp(g, d - 1), Exp(g, e));
    }
  }

  lemma {:induction false} RemainderFrom(a: seq<int>, h: nat, c: nat, m: nat, g: int)
    requires m > 0 && h <= |a|
    ensures Remainder(a, h + c, m, g) == Remainder(a[h..], c, m, g)
    decreases |a| - c
  {
    if h + c < |a| {
      RemainderFrom(a, h, c + m, m, g);
    }
  }

  /** Seen from c, the part from e on counts g^t times, t steps later. */
  lemma {:induction false} Halves(a: seq<int>, h: nat, t: nat, c: nat, e: nat, m: nat, g: int)
    requires m > 0 && e == c + Times(t, m) && h <= e < h + m && h <= |a|
    ensures Remainder(a, c, m, g) == Remainder(a[..h], c, m, g) + Exp(g, t) * Remainder(a, e, m, g)
    decreases t
  {
    hide Times;
    if t == 0 {
      NoSteps(m);
    } else {
      StepBack(t, m);
      Halves(a, h, t - 1, c + m, e, m, g);
      var x, y := Remainder(a[..h], c + m, m, g), Remainder(a, e, m, g);
      Distribute(g, x, Exp(g, t - 1) * y);
      Associate(g, Exp(g, t - 1), y);
    }
  }

  lemma NoSteps(m: nat)
    ensures Times(0, m) == 0
  {
  }

  lemma StepBack(t: nat, m: nat)
    requires t > 0
    ensures Times(t, m) == Times(t - 1, m) + m
  {
    Distribute(m, t - 1, 1);
  }

  lemma {:induction false} FoldRemainder(a: seq<int>, z: int, c: nat, m: nat, g: int)
    requires m > 0 && |a| % 2 == 0
    ensures var h := |a| / 2;
            Remainder(Fold(a, z), c, m, g) == Remainder(a[..h], c, m, g) + z * Remainder(a[h..], c, m, g)
    decreases |a| / 2 - c
  {
    var h := |a| / 2;
    if c < h {
      FoldRemainder(a, z, c + m, m, g);
      var x, y := Remainder(a[..h], c + m, m, g), Remainder(a[h..], c + m, m, g);
      Distribute(g, x, z * y);
      Associate(g, z, y);
      Associate(z, g, y);
      Distribute(z, a[c + h], g * y);
    }
  }

  /** Folding by z keeps the remainder where g^t is z. */
  lemma FoldKeeps(a: seq<int>, z: int, t: nat, c: nat, m: nat, g: int)
    requires m > 0 && |a| == 2 * Times(t, m) && c < m && Same(Exp(g, t), z)
    ensures Same(Remainder(Fold(a, z), c, m, g), Remainder(a, c, m, g))
  {
    hide Same, Times;
    var h := Times(t, m);
    Halves(a, h, t, c, h + c, m, g);
    RemainderFrom(a, h, c, m, g);
    FoldRemainder(a, z, c, m, g);
    var x, y := Remainder(a[..h], c, m, g), Remainder(a[h..], c, m, g);
    SameSym(Exp(g, t), z);
    Refl(x);
    Refl(y);
    SameMul(z, Exp(g, t), y, y);
    SameAdd(x, x, z * y, Exp(g, t) * y);
  }

  /** Leaf number b of those d levels below node k. */
  function Leaf(k: nat, d: nat, b: nat): (l: nat) { k * Pow2(d) + b }

  /** The child of node k above a leaf, and the number of the leaf there. */
  function Child(k: nat, d: nat, b: nat): (c: nat)
    requires d > 0
  {
    if b < Pow2(d - 1) then 2 * k else 2 * k + 1
  }

  function Below(d: nat, b: nat): (c: nat)
    requires d > 0
  {
    if b < Pow2(d - 1) then b else b - Pow2(d - 1)
  }

  lemma LeafOfChild(k: nat, d: nat, b: nat)
    requires d > 0 && b < Pow2(d)
    ensures Leaf(k, d, b) == Leaf(Child(k, d, b), d - 1, Below(d, b)) && Below(d, b) < Pow2(d - 1)
  {
    var w := Pow2(d - 1);
    Associate(k, 2, w);
    Distribute(w, 2 * k, 1);
  }

  /** The constant of a child is the one its half is folded by. */
  function Folded(k: nat, child: nat): (z: int) { if child == 2 * k then Zeta(k) else -Zeta(k) }

  lemma ChildModulus(k: nat, child: nat)
    requires 1 <= k < 128 && (child == 2 * k || child == 2 * k + 1)
    ensures Modulus(child) == Folded(k, child) && Same(Modulus(child) * Modulus(child), Modulus(k))
  {
    hide Same, Zeta;
    Roots(k);
    var z := Zeta(k);
    assert -z * -z == z * z;
  }

  /** Raised to the power of the leaves below it, the constant of a leaf is that of the node above. */
  lemma {:induction false} LeafPower(k: nat, d: nat, b: nat)
    requires 1 <= k && InTree(k, d) && b < Pow2(d)
    ensures Same(Exp(Modulus(Leaf(k, d, b)), Pow2(d)), Modulus(k))
    decreases d
  {
    hide Same, Modulus, Zeta, InTree, Leaf;
    if d == 0 {
      OneLeaf(k);
    } else {
      hide Exp;
      ChildInTree(k, d);
      LeafOfChild(k, d, b);
      var child, w, g := Child(k, d, b), Pow2(d - 1), Modulus(Leaf(k, d, b));
      LeafPower(child, d - 1, Below(d, b));
      ChildModulus(k, child);
      ExpAdd(g, w, w);
      SameMul(Exp(g, w), Modulus(child), Exp(g, w), Modulus(child));
      SameTrans(Exp(g, Pow2(d)), Modulus(child) * Modulus(child), Modulus(k));
    }
  }

  lemma OneLeaf(k: nat)
    ensures Leaf(k, 0, 0) == k && Same(Exp(Modulus(k), Pow2(0)), Modulus(k))
  {
    hide Same;
    Refl(Modulus(k));
    assert Exp(Modulus(k), 1) == Modulus(k) * Exp(Modulus(k), 0);
  }

  /** Where entry c of block b stands. */
  function Place(b: nat, c: nat, d: nat, n: nat): (i: nat)
    requires d <= n
  {
    b * Pow2(n - d) + c
  }

  /** Entry c of block b of a transform is coefficient c of the remainder modulo X^m - g, with g the constant of the
      leaf. */
  ghost predicate HoldsRemainder(p: seq<int>, k: nat, d: nat, n: nat, b: nat, c: nat)
    requires d <= n && |p| == Pow2(n)
  {
    Place(b, c, d, n) < Pow2(n)
    && Same(Ntt(p, k, d, n)[Place(b, c, d, n)], Remainder(p, c, Pow2(n - d), Modulus(Leaf(k, d, b))))
  }

  lemma {:induction false} NttIsRemainder(p: seq<int>, k: nat, d: nat, n: nat, b: nat, c: nat)
    requires d <= n && |p| == Pow2(n) && 1 <= k && InTree(k, d) && b < Pow2(d) && c < Pow2(n - d)
    ensures HoldsRemainder(p, k, d, n, b, c)
    decreases d
  {
    hide Same, Zeta, Fold, InTree, Exp, Leaf, Place, Ntt, Modulus, Remainder, Pow2;
    var m, g := Pow2(n - d), Modulus(Leaf(k, d, b));
    BlockInside(b, c, d, n);
    if d == 0 {
      NoLevels(p, k, n, b, c);
    } else {
      ChildInTree(k, d);
      LeafOfChild(k, d, b);
      var child, low := Child(k, d, b), Below(d, b);
      var z, f := Folded(k, child), Fold(p, Folded(k, child));
      HalfSize(n);
      LeafPower(child, d - 1, low);
      ChildModulus(k, child);
      NttIsRemainder(f, child, d - 1, n - 1, low, c);
      Pow2Add(d - 1, n - d);
      FoldKeeps(p, z, Pow2(d - 1), c, m, g);
      NttPart(p, k, d, n, b, c);
      SameTrans(Ntt(p, k, d, n)[Place(b, c, d, n)], Remainder(f, c, m, g), Remainder(p, c, m, g));
    }
  }

  lemma NoLevels(p: seq<int>, k: nat, n: nat, b: nat, c: nat)
    requires |p| == Pow2(n) && c < |p| && b < Pow2(0)
    ensures Place(b, c, 0, n) == c && Leaf(k, 0, b) == k
    ensures Same(Ntt(p, k, 0, n)[c], Remainder(p, c, Pow2(n), Modulus(k)))
  {
    hide Modulus;
    assert Remainder(p, c + Pow2(n), Pow2(n), Modulus(k)) == 0;
    Refl(p[c]);
  }

  lemma PlaceOfChild(d: nat, n: nat, b: nat, c: nat)
    requires 0 < d <= n && b < Pow2(d) && c < Pow2(n - d)
    ensures Below(d, b) < Pow2(d - 1)
    ensures Place(b, c, d, n)
            == Place(Below(d, b), c, d - 1, n - 1) + (if b < Pow2(d - 1) then 0 else Pow2(n - 1))
  {
    hide Pow2;
    HalfSize(d);
    var w, m := Pow2(d - 1), Pow2(n - d);
    Pow2Add(d - 1, n - d);
    if b >= w {
      Distribute(m, b - w, w);
    }
  }

  lemma NttPart(p: seq<int>, k: nat, d: nat, n: nat, b: nat, c: nat)
    requires 0 < d <= n && |p| == Pow2(n) && b < Pow2(d) && c < Pow2(n - d)
    ensures var f := Fold(p, Folded(k, Child(k, d, b)));
            |f| == Pow2(n - 1) && Place(Below(d, b), c, d - 1, n - 1) < Pow2(n - 1) && Place(b, c, d, n) < Pow2(n)
            && Ntt(p, k, d, n)[Place(b, c, d, n)]
               == Ntt(f, Child(k, d, b), d - 1, n - 1)[Place(Below(d, b), c, d - 1, n - 1)]
  {
    hide Zeta, Place, Fold, Pow2;
    HalfSize(n);
    PlaceOfChild(d, n, b, c);
    BlockInside(b, c, d, n);
    BlockInside(Below(d, b), c, d - 1, n - 1);
  }

  lemma BlockInside(b: nat, c: nat, d: nat, n: nat)
    requires d <= n && b < Pow2(d) && c < Pow2(n - d)
    ensures Place(b, c, d, n) < Pow2(n)
  {
    hide Pow2;
    Pow2Add(d, n - d);
    BlockBound(b, c, Pow2(d), Pow2(n - d));
  }

  lemma BlockBound(b: nat, c: nat, w: nat, m: nat)
    requires b < w && c < m
    ensures b * m + c < w * m
  {
    MulMonotone(m, b + 1, w);
    Distribute(m, b, 1);
  }

  // ---------------------------------------------------------------- the leaves

  /** The seven bits of an index in opposite order. */
  function BitReversal(i: nat): (r: nat) {
    64 * (i % 2) + 32 * (i / 2 % 2) + 16 * (i / 4 % 2) + 8 * (i / 8 % 2)
    + 4 * (i / 16 % 2) + 2 * (i / 32 % 2) + i / 64 % 2
  }

  lemma ReversalIs(i: nat)
    ensures BitRev7(i) == BitReversal(i)
  {
    SmallPowers();
    var a, b, c := i / 2, i / 4, i / 8;
    assert a / 2 == b && b / 2 == c && c / 2 == i / 16 && i / 16 / 2 == i / 32 && i / 32 / 2 == i / 64;
    assert Rev(i / 64, 1) == i / 64 % 2 * Pow2(0) + Rev(i / 64 / 2, 0);
    assert Rev(i / 32, 2) == i / 32 % 2 * Pow2(1) + Rev(i / 64, 1);
    assert Rev(i / 16, 3) == i / 16 % 2 * Pow2(2) + Rev(i / 32, 2);
    assert Rev(c, 4) == c % 2 * Pow2(3) + Rev(i / 16, 3);
    assert Rev(b, 5) == b % 2 * Pow2(4) + Rev(c, 4);
    assert Rev(a, 6) == a % 2 * Pow2(5) + Rev(b, 5);
    assert Rev(i, 7) == i % 2 * Pow2(6) + Rev(a, 6);
  }

  lemma {:induction false} PowerIsExp(n: nat)
    ensures Same(Power(n), Exp(17, n))
  {
    hide Same, Power;
    if n == 0 {
      FirstPower();
    } else {
      PowerIsExp(n - 1);
      PowerStep(n - 1);
      Refl(17);
      SameMul(17, 17, Power(n - 1), Exp(17, n - 1));
      SameTrans(Power(n), 17 * Power(n - 1), Exp(17, n));
    }
  }

  lemma FirstPower()
    ensures Same(Power(0), 1)
  {
  }

  /** Leaf i works modulo X^2 - 17^(2 r + 1). */
  lemma LeafRoot(i: nat)
    requires i < 128
    ensures Same(Modulus(128 + i), Exp(17, 2 * BitReversal(i) + 1))
  {
    hide Same, Power, Rev, Exp, BitReversal;
    var j := i / 2;
    ReversalIs(i);
    SmallPowers();
    HalfSize(6);
    RevTopBit(6, j, 7);
    HalfReversed(j);
    PowerIsExp(2 * BitReversal(i) + 1);
    if i % 2 == 0 {
      assert Modulus(128 + i) == Power(2 * BitReversal(i) + 1);
    } else {
      Negated(BitRev7(64 + j));
      SameSym(Power(BitRev7(64 + j) + 128), -Power(BitRev7(64 + j)));
      SameTrans(Modulus(128 + i), Power(2 * BitReversal(i) + 1), Exp(17, 2 * BitReversal(i) + 1));
    }
  }

  lemma HalfReversed(j: nat)
    requires j < 64
    ensures BitRev7(j) == 2 * BitRev7(2 * j) && BitRev7(2 * j + 1) == BitRev7(2 * j) + 64
  {
    hide Rev;
    if j == 0 {
      RevZero(7);
      MlkemTransform.One();
    } else {
      BitRevChildren(j);
    }
  }

  lemma {:induction false} RemainderAlike(a: seq<int>, c: nat, m: nat, g: int, f: int)
    requires m > 0 && Same(g, f)
    ensures Same(Remainder(a, c, m, g), Remainder(a, c, m, f))
    decreases |a| - c
  {
    hide Same;
    if c < |a| {
      RemainderAlike(a, c + m, m, g, f);
      Refl(a[c]);
      SameMul(g, f, Remainder(a, c + m, m, g), Remainder(a, c + m, m, f));
      SameAdd(a[c], a[c], g * Remainder(a, c + m, m, g), f * Remainder(a, c + m, m, f));
    } else {
      Refl(0);
    }
  }

  /** The transform holds the remainders of the polynomial modulo X^2 - 17^(2 r + 1), r being the index of the pair in
      opposite bit order. */
  ghost predicate IsTransform(a: seq<int>, r: seq<int>) {
    |r| == 256 && forall i: nat, c: nat :: i < 128 && c < 2 ==> PairAt(a, r, i, c)
  }

  ghost predicate PairAt(a: seq<int>, r: seq<int>, i: nat, c: nat)
    requires |r| == 256 && i < 128 && c < 2
  {
    (r[2 * i + c] - Remainder(a, c, 2, Exp(17, 2 * BitReversal(i) + 1))) % 3329 == 0
  }

  lemma FullIsTransform(a: seq<int>)
    requires |a| == 256
    ensures IsTransform(a, Full(a))
  {
    hide Same, Remainder, Exp, BitReversal, Full, PairAt;
    forall i: nat, c: nat | i < 128 && c < 2 ensures PairAt(a, Full(a), i, c) {
      PairIsRemainder(a, i, c);
    }
  }

  lemma PairIsRemainder(a: seq<int>, i: nat, c: nat)
    requires |a| == 256 && i < 128 && c < 2
    ensures PairAt(a, Full(a), i, c)
  {
    hide Remainder, Exp, BitReversal, Ntt, Modulus, Same;
    Eight();
    SmallPowers();
    HalfSize(7);
    HalfSize(8);
    var g := Exp(17, 2 * BitReversal(i) + 1);
    NttIsRemainder(a, 1, 7, 8, i, c);
    LeafRoot(i);
    RemainderAlike(a, c, 2, Modulus(128 + i), g);
    SameTrans(Full(a)[2 * i + c], Remainder(a, c, 2, Modulus(128 + i)), Remainder(a, c, 2, g));
    Congruent(Full(a)[2 * i + c], Remainder(a, c, 2, g));
  }

  lemma Congruent(x: int, y: int)
    requires Same(x, y)
    ensures (x - y) % 3329 == 0
  {
  }

  lemma AlikeIsTransform(a: seq<int>, r: seq<int>, q: seq<int>)
    requires IsTransform(a, r) && Alike(q, r)
    ensures IsTransform(a, q)
  {
    hide Same, Remainder, Exp, BitReversal;
    forall i: nat, c: nat | i < 128 && c < 2 ensures PairAt(a, q, i, c) {
      assert PairAt(a, r, i, c);
      PairAlike(q[2 * i + c], r[2 * i + c], Remainder(a, c, 2, Exp(17, 2 * BitReversal(i) + 1)));
    }
  }

  lemma PairAlike(x: int, y: int, z: int)
    requires Same(x, y) && (y - z) % 3329 == 0
    ensures (x - z) % 3329 == 0
  {
    SameTrans(x, y, z);
  }
}
