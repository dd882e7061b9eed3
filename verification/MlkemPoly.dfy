/** poly_reduce, poly_basemul and polyvec_pointwise_acc, and products of polynomials through the transform. */
module MlkemPoly {
  import opened Arithmetic
  import opened Bits
  import opened MlkemField
  import opened MlkemZetas
  import opened MlkemTransform
  import opened MlkemLevels
  import opened MlkemProduct
  import opened MlkemNtt
  import opened MlkemInverse

  /** poly_reduce: centred residues. */
  method PolyReduce(r: array<int>)
    requires Within(r[..], INT16_MAX)
    modifies r
    ensures Alike(r[..], old(r[..])) && Within(r[..], 1664)
  {
    hide Same, Barrett;
    for i := 0 to r.Length
      invariant forall j :: 0 <= j < i ==> Same(r[j], old(r[..])[j]) && -1664 <= r[j] <= 1664
      invariant forall j :: i <= j < r.Length ==> r[j] == old(r[..])[j]
    {
      assert old(r[..])[i] == r[i];
      BarrettReduces(r[i]);
      r[i] := Barrett(r[i]);
    }
  }

  // ---------------------------------------------------------------- products of pairs

  /** Products of two transformed coefficients stay below this. */
  const PRODUCT_MAX: int := 0x1800_0000

  /** A bound for a Montgomery product of operands whose product is at most c. */
  function MontBound(c: int): (m: int) { (c + 0x8000 * Q) / 0x1_0000 }

  lemma MontProduct(x: int, y: int, a: int, b: int)
    requires -a <= x <= a && -b <= y <= b && 0 <= a * b <= PRODUCT_MAX
    ensures Same(Mont(x * y), RINV * (x * y)) && -MontBound(a * b) <= Mont(x * y) <= MontBound(a * b)
  {
    hide Same, Mont;
    SizeOfProduct(x, y, a, b);
    MontReduces(x * y, a * b);
  }

  lemma SizeOfProduct(x: int, y: int, a: int, b: int)
    requires -a <= x <= a && -b <= y <= b
    ensures -(a * b) <= x * y <= a * b
  {
    if x >= 0 {
      MulMonotone(x, y, b);
      MulMonotone(x, -b, y);
      MulMonotone(b, x, a);
    } else {
      MulMonotone(-x, y, b);
      MulMonotone(-x, -b, y);
      MulMonotone(b, -x, a);
    }
  }

  /** The two coefficients of basemul_pair. */
  function LowMont(a: seq<int>, b: seq<int>, zeta: int): (c: int)
    requires |a| == |b| == 2
  {
    Int16(Mont(Mont(a[1] * b[1]) * zeta) + Mont(a[0] * b[0]))
  }

  function HighMont(a: seq<int>, b: seq<int>): (c: int)
    requires |a| == |b| == 2
  {
    Int16(Mont(a[0] * b[1]) + Mont(a[1] * b[0]))
  }

  /** A zeta or its negative, in Montgomery form. */
  predicate StandsFor(t: int, g: int) { -3321 <= t <= 3321 && Same(t, R * g) }

  /** A bound for the sum of two Montgomery products of size c, one of them taken twice. */
  function PairBound(c: int): (m: int) { 2 * c + 396 }

  /** basemul_pair: 2^-16 times the product modulo X^2 - g. */
  lemma BasemulPair(a: seq<int>, b: seq<int>, zeta: int, g: int, x: int, y: int)
    requires |a| == |b| == 2 && Within(a, x) && Within(b, y) && StandsFor(zeta, g)
    requires 0 <= x * y <= PRODUCT_MAX
    ensures Alike([LowMont(a, b, zeta), HighMont(a, b)], Scale(RINV, PairProduct(a, b, g)))
    ensures Within([LowMont(a, b, zeta), HighMont(a, b)], PairBound(MontBound(x * y)))
  {
    hide Same, Mont, Int16;
    MontProduct(a[1], b[1], x, y);
    MontProduct(a[0], b[0], x, y);
    MontProduct(a[0], b[1], x, y);
    MontProduct(a[1], b[0], x, y);
    LowPart(a[0] * b[0], a[1] * b[1], Mont(a[0] * b[0]), Mont(a[1] * b[1]), zeta, g, MontBound(x * y));
    HighPart(a[0] * b[1], a[1] * b[0], Mont(a[0] * b[1]), Mont(a[1] * b[0]), MontBound(x * y));
  }

  lemma LowPart(p: int, q: int, m: int, n: int, zeta: int, g: int, c: int)
    requires Same(m, RINV * p) && Same(n, RINV * q) && StandsFor(zeta, g)
    requires 1664 <= c <= 7808 && -c <= m <= c && -c <= n <= c
    ensures Int16(Mont(n * zeta) + m) == Mont(n * zeta) + m
    ensures Same(Mont(n * zeta) + m, RINV * (p + g * q))
    ensures -PairBound(c) <= Mont(n * zeta) + m <= PairBound(c)
  {
    hide Same, Mont, Int16;
    TwiddledSize(n, zeta, c);
    Int16Exact(Mont(n * zeta) + m);
    TwiddledClass(q, n, zeta, g, c);
    SameAdd(Mont(n * zeta), g * (RINV * q), m, RINV * p);
    Swap(g, q, p);
  }

  lemma TwiddledSize(n: int, zeta: int, c: int)
    requires -3321 <= zeta <= 3321 && 0 <= c <= 7808 && -c <= n <= c
    ensures -2060 <= Mont(n * zeta) <= 2060 && Same(Mont(n * zeta), RINV * (n * zeta))
  {
    hide Same, Mont;
    SizeOfProduct(n, zeta, c, 3321);
    MontReduces(n * zeta, c * 3321);
  }

  lemma TwiddledClass(q: int, n: int, zeta: int, g: int, c: int)
    requires StandsFor(zeta, g) && Same(n, RINV * q) && 0 <= c <= 7808 && -c <= n <= c
    ensures Same(Mont(n * zeta), g * (RINV * q))
  {
    hide Same, Mont;
    TwiddledSize(n, zeta, c);
    assert n * zeta == zeta * n;
    Untwiddle(zeta, g, n, Mont(n * zeta));
    Refl(g);
    SameMul(g, g, n, RINV * q);
    SameTrans(Mont(n * zeta), g * n, g * (RINV * q));
  }

  lemma Swap(g: int, q: int, p: int)
    ensures g * (RINV * q) + RINV * p == RINV * (p + g * q)
  {
    Associate(g, RINV, q);
    Associate(RINV, g, q);
    Distribute(RINV, p, g * q);
  }

  lemma HighPart(p: int, q: int, m: int, n: int, c: int)
    requires Same(m, RINV * p) && Same(n, RINV * q) && 0 <= c <= 7808 && -c <= m <= c && -c <= n <= c
    ensures Int16(m + n) == m + n && Same(m + n, RINV * (p + q)) && -2 * c <= m + n <= 2 * c
  {
    hide Same;
    SameAdd(m, RINV * p, n, RINV * q);
    Distribute(RINV, p, q);
    Int16Exact(m + n);
  }

  lemma ZetaStands(k: nat)
    requires k < 128
    ensures StandsFor(Table(k), Zeta(k)) && StandsFor(-Table(k), -Zeta(k))
  {
    hide Same, Table, Zeta;
    TableMeaning(k);
    Refl(0);
    SameAdd(0, 0, Table(k), R * Zeta(k));
    assert 0 - R * Zeta(k) == R * -Zeta(k);
  }

  /** Leaf j of the product of pairs. */
  lemma {:induction false} PointwiseBlock(a: seq<int>, b: seq<int>, k: nat, d: nat, j: nat)
    requires |a| == |b| == Pow2(d + 1) && j < Pow2(d)
    ensures End(2, j) <= |a|
    ensures Block(Pointwise(a, b, k, d), 2, j) == PairProduct(Block(a, 2, j), Block(b, 2, j), Modulus(NodeAt(k, d, j)))
    decreases d
  {
    hide Modulus, PairProduct, Pow2, Block, End, NodeAt, Pointwise;
    HalfSize(d + 1);
    EndFits(2, j, Pow2(d));
    if d == 0 {
      LeafBlock(a, b, k, j);
    } else {
      HalfSize(d);
      NodeHalves(k, d, j);
      var h, c := Pow2(d), Pow2(d - 1);
      var a1, a2, b1, b2 := a[..h], a[h..], b[..h], b[h..];
      assert a == a1 + a2 && b == b1 + b2;
      PointwiseUnfold(a1, b1, a2, b2, k, d);
      var u, v := Pointwise(a1, b1, 2 * k, d - 1), Pointwise(a2, b2, 2 * k + 1, d - 1);
      if j < c {
        PointwiseBlock(a1, b1, 2 * k, d - 1, j);
        BlockLeft(a1, a2, 2, j);
        BlockLeft(b1, b2, 2, j);
        BlockLeft(u, v, 2, j);
      } else {
        PointwiseBlock(a2, b2, 2 * k + 1, d - 1, j - c);
        BlockRight(a1, a2, 2, c, j);
        BlockRight(b1, b2, 2, c, j);
        BlockRight(u, v, 2, c, j);
      }
    }
  }

  lemma LeafBlock(a: seq<int>, b: seq<int>, k: nat, j: nat)
    requires |a| == |b| == Pow2(1) && j < Pow2(0)
    ensures End(2, j) <= |a|
    ensures Block(Pointwise(a, b, k, 0), 2, j) == PairProduct(Block(a, 2, j), Block(b, 2, j), Modulus(NodeAt(k, 0, j)))
  {
    hide Modulus, PairProduct, End;
    PowZero();
    assert j == 0 && NodeAt(k, 0, 0) == k;
    WholeBlock(a);
    WholeBlock(b);
    WholeBlock(PairProduct(a, b, Modulus(k)));
  }

  /** Pair j of the product in the transformed domain. */
  lemma PairAt(a: seq<int>, b: seq<int>, j: nat, g: int)
    requires |a| == |b| == N && j < 128 && g == if j % 2 == 0 then Zeta(64 + j / 2) else -Zeta(64 + j / 2)
    ensures Pairs(a, b)[2 * j..2 * j + 2] == PairProduct(a[2 * j..2 * j + 2], b[2 * j..2 * j + 2], g)
  {
    hide PairProduct, Pow2, Pointwise, Zeta;
    Eight();
    PointwiseBlock(a, b, 1, LEVELS, j);
    NodeOne(LEVELS, j);
    assert End(2, j) == 2 * j + 2;
    LeafModulus(j);
  }

  lemma LeafModulus(j: nat)
    requires j < 128
    ensures Modulus(128 + j) == if j % 2 == 0 then Zeta(64 + j / 2) else -Zeta(64 + j / 2)
  {
    hide Zeta;
    assert (128 + j) / 2 == 64 + j / 2 && (128 + j) % 2 == j % 2;
  }

  /** poly_basemul: pair by pair, with zetas[64 + i] and its negative in turn. */
  method PolyBasemul(r: array<int>, a: array<int>, b: array<int>, ghost x: int, ghost y: int)
    requires r.Length == a.Length == b.Length == N && r != a && r != b
    requires Within(a[..], x) && Within(b[..], y) && 0 <= x * y <= PRODUCT_MAX
    modifies r
    ensures Alike(r[..], Scale(RINV, Pairs(a[..], b[..]))) && Within(r[..], PairBound(MontBound(x * y)))
  {
    hide Same, Pairs, LowMont, HighMont, Alike, Table, Zeta, Scale, PairBound, MontBound, Within;
    ghost var target := Scale(RINV, Pairs(a[..], b[..]));
    ghost var c := PairBound(MontBound(x * y));
    NoPairs(r[..], target, c);
    for i := 0 to 64
      invariant Alike(r[..4 * i], target[..4 * i]) && Within(r[..4 * i], c)
    {
      BasemulOne(r, a, b, 2 * i, Table(64 + i), x, y);
      BasemulOne(r, a, b, 2 * i + 1, -Table(64 + i), x, y);
    }
    assert r[..256] == r[..] && target[..256] == target;
  }

  lemma NoPairs(p: seq<int>, target: seq<int>, c: int)
    ensures Alike(p[..0], target[..0]) && Within(p[..0], c)
  {
  }

  /** One basemul_pair, extending what is done. */
  method BasemulOne(r: array<int>, a: array<int>, b: array<int>, j: nat, zeta: int, ghost x: int, ghost y: int)
    requires r.Length == a.Length == b.Length == N && r != a && r != b && j < 128
    requires Within(a[..], x) && Within(b[..], y) && 0 <= x * y <= PRODUCT_MAX
    requires zeta == if j % 2 == 0 then Table(64 + j / 2) else -Table(64 + j / 2)
    requires var target := Scale(RINV, Pairs(a[..], b[..]));
             Alike(r[..2 * j], target[..2 * j]) && Within(r[..2 * j], PairBound(MontBound(x * y)))
    modifies r
    ensures var target := Scale(RINV, Pairs(a[..], b[..]));
            Alike(r[..2 * j + 2], target[..2 * j + 2]) && Within(r[..2 * j + 2], PairBound(MontBound(x * y)))
  {
    hide Same, Pairs, LowMont, HighMont, Alike, Table, Zeta, Within, PairProduct, PairBound, MontBound;
    ghost var target := Scale(RINV, Pairs(a[..], b[..]));
    var u, v := a[2 * j..2 * j + 2], b[2 * j..2 * j + 2];
    var g := if j % 2 == 0 then Zeta(64 + j / 2) else -Zeta(64 + j / 2);
    ZetaStands(64 + j / 2);
    WithinSlice(a[..], x, 2 * j, 2 * j + 2);
    WithinSlice(b[..], y, 2 * j, 2 * j + 2);
    assert a[..][2 * j..2 * j + 2] == u && b[..][2 * j..2 * j + 2] == v;
    BasemulPair(u, v, zeta, g, x, y);
    PairAt(a[..], b[..], j, g);
    ghost var before := r[..2 * j];
    r[2 * j], r[2 * j + 1] := LowMont(u, v, zeta), HighMont(u, v);
    assert r[..2 * j + 2] == before + [LowMont(u, v, zeta), HighMont(u, v)];
    ScaledSlice(Pairs(a[..], b[..]), 2 * j);
    AlikeConcat(before, target[..2 * j], [LowMont(u, v, zeta), HighMont(u, v)], Scale(RINV, PairProduct(u, v, g)));
    WithinConcat(before, [LowMont(u, v, zeta), HighMont(u, v)], PairBound(MontBound(x * y)));
  }

  lemma ScaledSlice(p: seq<int>, i: nat)
    requires i + 2 <= |p|
    ensures Scale(RINV, p)[..i + 2] == Scale(RINV, p)[..i] + Scale(RINV, p[i..i + 2])
  {
  }

  // ---------------------------------------------------------------- there and back

  lemma PairsAlikeBoth(a: seq<int>, b: seq<int>, u: seq<int>, v: seq<int>)
    requires |a| == |b| == N && Alike(a, u) && Alike(b, v)
    ensures |u| == |v| == N && Alike(Pairs(a, b), Pairs(u, v))
  {
    hide Alike, Pow2, Pointwise;
    Eight();
    PointwiseAlike(a, b, u, v, 1, LEVELS);
  }

  lemma InverseAlike(p: seq<int>, q: seq<int>)
    requires |p| == N && Alike(p, q)
    ensures |q| == N && Alike(FullInverse(p), FullInverse(q))
  {
    hide Alike, Pow2, InvNtt;
    Eight();
    AlikeLength(p, q);
    InvAlike(p, q, 1, LEVELS, LEVELS + 1);
  }

  lemma InverseScale(c: int, p: seq<int>)
    requires |p| == N
    ensures FullInverse(Scale(c, p)) == Scale(c, FullInverse(p))
  {
    hide Pow2, InvNtt, Scale;
    Eight();
    InvNttScale(c, p, 1, LEVELS, LEVELS + 1);
  }

  lemma {:induction false} InvNttScale(c: int, p: seq<int>, k: nat, d: nat, n: nat)
    requires d <= n && |p| == Pow2(n)
    ensures InvNtt(Scale(c, p), k, d, n) == Scale(c, InvNtt(p, k, d, n))
    decreases d
  {
    hide Join, Pow2, InvNtt, Scale;
    if d == 0 {
      NoInverse(c, p, k, n);
    } else {
      HalfSize(n);
      var h := Pow2(n - 1);
      var lo, hi := p[..h], p[h..];
      assert p == lo + hi;
      ScaleConcat(c, lo, hi);
      InvUnfold(lo, hi, k, d, n);
      InvUnfold(Scale(c, lo), Scale(c, hi), k, d, n);
      InvNttScale(c, lo, 2 * k, d - 1, n - 1);
      InvNttScale(c, hi, 2 * k + 1, d - 1, n - 1);
      var u, v := InvNtt(lo, 2 * k, d - 1, n - 1), InvNtt(hi, 2 * k + 1, d - 1, n - 1);
      ScaleConcat(c, u, v);
      JoinScale(c, u + v, k);
    }
  }

  lemma NoInverse(c: int, p: seq<int>, k: nat, n: nat)
    requires |p| == Pow2(n)
    ensures InvNtt(Scale(c, p), k, 0, n) == Scale(c, InvNtt(p, k, 0, n))
  {
  }

  /** Congruent factors give congruent multiples. */
  lemma ScaleSame(c: int, e: int, p: seq<int>)
    requires Same(c, e)
    ensures Alike(Scale(c, p), Scale(e, p))
  {
    hide Same;
    forall i | 0 <= i < |p| ensures Same(Scale(c, p)[i], Scale(e, p)[i]) {
      Refl(p[i]);
      SameMul(c, e, p[i], p[i]);
    }
  }

  /** inv_ntt(poly_reduce(ntt(a))) is 2^16 * a. */
  method ThereAndBack(r: array<int>)
    requires r.Length == N && Within(r[..], Q as int)
    modifies r
    ensures Alike(r[..], Scale(0x1_0000, old(r[..])))
  {
    hide Same, Alike, Within, Full, FullInverse, Scale, Grown, Full16, Inverse16, PairsFit, PairSums;
    ghost var p := r[..];
    ForwardFits();
    NttInPlace(r);
    NttMeans(p, Q);
    WithinMore(r[..], 18283, INT16_MAX);
    ghost var t := r[..];
    PolyReduce(r);
    ghost var u := r[..];
    AlikeTrans(u, t, Full(p));
    WithinMore(u, 1664, SUMMABLE);
    InvNttInPlace(r);
    SmallPairsFit(u);
    InverseExact(u);
    InverseAlike(u, Full(p));
    BackFromFull(p);
    AlikeTrans(FullInverse(u), FullInverse(Full(p)), Scale(128, p));
    ScaleAlike(SCALING, FullInverse(u), Scale(128, p));
    ScaleScale(SCALING, 128, p);
    AlikeTrans(r[..], Scale(SCALING, FullInverse(u)), Scale(0x1_0000, p));
  }

  lemma WithinMore(p: seq<int>, b: int, c: int)
    requires Within(p, b) && b <= c
    ensures Within(p, c)
  {
  }

  lemma BackFromFull(p: seq<int>)
    requires |p| == N
    ensures Alike(FullInverse(Full(p)), Scale(128, p))
  {
    hide Alike, Pow2, Ntt, InvNtt, Scale;
    Eight();
    InverseUndoes(p, 1, LEVELS, LEVELS + 1);
  }

  /** 512 * 2^-16 * 128 is 1 modulo q. */
  lemma FactorsCancel(p: seq<int>)
    ensures Alike(Scale(SCALING, Scale(RINV, Scale(128, p))), p)
  {
    hide Scale;
    ScaleScale(RINV, 128, p);
    ScaleScale(SCALING, RINV * 128, p);
    ScaleSame(SCALING * (RINV * 128), 1, p);
    assert Scale(1, p) == p by {
      ScaleByOne(p);
    }
  }

  lemma ScaleByOne(p: seq<int>)
    ensures Scale(1, p) == p
  {
  }

  /** What inv_ntt makes of 2^-16 times the product of two transforms: the product modulo X^256 + 1. */
  lemma BackFromPairs(w: seq<int>, a: seq<int>, b: seq<int>)
    requires |w| == |a| == |b| == N && Alike(w, Scale(RINV, Pairs(Full(a), Full(b))))
    ensures Alike(Scale(SCALING, FullInverse(w)), Product(a, b))
  {
    hide Same, Alike, Full, FullInverse, Scale, Pairs, Product;
    var q := Pairs(Full(a), Full(b));
    InverseAlike(w, Scale(RINV, q));
    InverseScale(RINV, q);
    MultiplyBack(a, b);
    ScaleAlike(RINV, FullInverse(q), Scale(128, Product(a, b)));
    AlikeTrans(FullInverse(w), Scale(RINV, FullInverse(q)), Scale(RINV, Scale(128, Product(a, b))));
    ScaleAlike(SCALING, FullInverse(w), Scale(RINV, Scale(128, Product(a, b))));
    FactorsCancel(Product(a, b));
    AlikeTrans(Scale(SCALING, FullInverse(w)), Scale(SCALING, Scale(RINV, Scale(128, Product(a, b)))), Product(a, b));
  }

  /** inv_ntt(poly_reduce(poly_basemul(ntt(a), ntt(b)))) is a * b modulo X^256 + 1 and q. */
  method Multiply(a: array<int>, b: array<int>, r: array<int>)
    requires a.Length == b.Length == r.Length == N && a != b && a != r && b != r
    requires Within(a[..], Q as int) && Within(b[..], Q as int)
    modifies a, b, r
    ensures Alike(r[..], Product(old(a[..]), old(b[..])))
  {
    hide Same, Alike, Within, Full, FullInverse, Scale, Grown, Pairs, Product, Full16, Inverse16, PairsFit, PairSums;
    ghost var p, q := a[..], b[..];
    ForwardFits();
    NttInPlace(a);
    NttInPlace(b);
    NttMeans(p, Q);
    NttMeans(q, Q);
    PolyBasemul(r, a, b, 18283, 18283);
    ghost var m := r[..];
    WithinMore(m, PairBound(MontBound(18283 * 18283)), INT16_MAX);
    PolyReduce(r);
    ghost var w := r[..];
    AlikeTrans(w, m, Scale(RINV, Pairs(a[..], b[..])));
    PairsAlikeBoth(a[..], b[..], Full(p), Full(q));
    ScaleAlike(RINV, Pairs(a[..], b[..]), Pairs(Full(p), Full(q)));
    AlikeTrans(w, Scale(RINV, Pairs(a[..], b[..])), Scale(RINV, Pairs(Full(p), Full(q))));
    WithinMore(w, 1664, SUMMABLE);
    InvNttInPlace(r);
    SmallPairsFit(w);
    InverseExact(w);
    BackFromPairs(w, p, q);
    AlikeTrans(r[..], Scale(SCALING, FullInverse(w)), Product(p, q));
  }
}
