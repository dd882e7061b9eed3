/** polyvec_pointwise_acc and the inner product of two polynomial vectors, as K-PKE uses them. */
module MlkemVector {
  import opened Arithmetic
  import opened Bits
  import opened MlkemField
  import opened MlkemTransform
  import opened MlkemLevels
  import opened MlkemProduct
  import opened MlkemNtt
  import opened MlkemInverse
  import opened MlkemPoly

  const K: nat := 3

  type Poly = seq<int>

  predicate IsVec(v: seq<Poly>) { |v| == K && forall i :: 0 <= i < K ==> |v[i]| == N }

  /** Sum over the first n components of the products of pairs. */
  function VecPairs(a: seq<Poly>, b: seq<Poly>, n: nat): (r: Poly)
    requires IsVec(a) && IsVec(b) && 1 <= n <= K
    ensures |r| == N
  {
    if n == 1 then Pairs(a[0], b[0]) else Plus(VecPairs(a, b, n - 1), Pairs(a[n - 1], b[n - 1]))
  }

  /** Sum over the first n components of the products modulo X^256 + 1. */
  function VecProduct(a: seq<Poly>, b: seq<Poly>, n: nat): (r: Poly)
    requires IsVec(a) && IsVec(b) && 1 <= n <= K
    ensures |r| == N
  {
    if n == 1 then Product(a[0], b[0]) else Plus(VecProduct(a, b, n - 1), Product(a[n - 1], b[n - 1]))
  }

  function VecFull(v: seq<Poly>): (r: seq<Poly>)
    requires IsVec(v)
    ensures IsVec(r) && forall i :: 0 <= i < K ==> r[i] == Full(v[i])
  {
    seq(|v|, i requires 0 <= i < |v| && IsVec(v) => Full(v[i]))
  }

  // ---------------------------------------------------------------- the inverse is linear

  lemma JoinPlus(p: Poly, q: Poly, k: nat)
    requires |p| == |q| && |p| % 2 == 0
    ensures Join(Plus(p, q), k) == Plus(Join(p, k), Join(q, k))
  {
    hide MlkemZetas.Zeta, Mirror;
    var h, z := |p| / 2, MlkemZetas.Zeta(Mirror(k));
    forall i | 0 <= i < |p| ensures Join(Plus(p, q), k)[i] == Plus(Join(p, k), Join(q, k))[i] {
      if i >= h {
        Distribute(z, p[i] - p[i - h], q[i] - q[i - h]);
      }
    }
  }

  lemma {:induction false} InvNttPlus(p: Poly, q: Poly, k: nat, d: nat, n: nat)
    requires d <= n && |p| == |q| == Pow2(n)
    ensures InvNtt(Plus(p, q), k, d, n) == Plus(InvNtt(p, k, d, n), InvNtt(q, k, d, n))
    decreases d
  {
    hide Join, Pow2, InvNtt, Plus;
    if d == 0 {
      NoInverseSum(p, q, k, n);
    } else {
      HalfSize(n);
      var h := Pow2(n - 1);
      var p1, p2, q1, q2 := p[..h], p[h..], q[..h], q[h..];
      assert p == p1 + p2 && q == q1 + q2;
      PlusConcat(p1, q1, p2, q2);
      InvUnfold(p1, p2, k, d, n);
      InvUnfold(q1, q2, k, d, n);
      InvUnfold(Plus(p1, q1), Plus(p2, q2), k, d, n);
      InvNttPlus(p1, q1, 2 * k, d - 1, n - 1);
      InvNttPlus(p2, q2, 2 * k + 1, d - 1, n - 1);
      var a1, a2 := InvNtt(p1, 2 * k, d - 1, n - 1), InvNtt(p2, 2 * k + 1, d - 1, n - 1);
      var b1, b2 := InvNtt(q1, 2 * k, d - 1, n - 1), InvNtt(q2, 2 * k + 1, d - 1, n - 1);
      PlusConcat(a1, b1, a2, b2);
      JoinPlus(a1 + a2, b1 + b2, k);
    }
  }

  lemma NoInverseSum(p: Poly, q: Poly, k: nat, n: nat)
    requires |p| == |q| == Pow2(n)
    ensures InvNtt(Plus(p, q), k, 0, n) == Plus(InvNtt(p, k, 0, n), InvNtt(q, k, 0, n))
  {
  }

  lemma InversePlus(p: Poly, q: Poly)
    requires |p| == |q| == N
    ensures FullInverse(Plus(p, q)) == Plus(FullInverse(p), FullInverse(q))
  {
    hide Pow2, InvNtt, Plus;
    Eight();
    InvNttPlus(p, q, 1, LEVELS, LEVELS + 1);
  }

  lemma ScalePlus(c: int, p: Poly, q: Poly)
    requires |p| == |q|
    ensures Scale(c, Plus(p, q)) == Plus(Scale(c, p), Scale(c, q))
  {
    forall i | 0 <= i < |p| ensures Scale(c, Plus(p, q))[i] == Plus(Scale(c, p), Scale(c, q))[i] {
      Distribute(c, p[i], q[i]);
    }
  }

  /** Transforming back a sum of products of transforms gives 128 times the sum of the products. */
  lemma {:induction false} VecBack(a: seq<Poly>, b: seq<Poly>, n: nat)
    requires IsVec(a) && IsVec(b) && 1 <= n <= K
    ensures Alike(FullInverse(VecPairs(VecFull(a), VecFull(b), n)), Scale(128, VecProduct(a, b, n)))
  {
    hide Alike, Full, FullInverse, Scale, Pairs, Product, Plus, VecFull;
    var A, B := VecFull(a), VecFull(b);
    MultiplyBack(a[n - 1], b[n - 1]);
    if n > 1 {
      VecBack(a, b, n - 1);
      var p, q := VecPairs(A, B, n - 1), Pairs(A[n - 1], B[n - 1]);
      InversePlus(p, q);
      PlusAlike(FullInverse(p), Scale(128, VecProduct(a, b, n - 1)), FullInverse(q),
        Scale(128, Product(a[n - 1], b[n - 1])));
      ScalePlus(128, VecProduct(a, b, n - 1), Product(a[n - 1], b[n - 1]));
    }
  }

  // ---------------------------------------------------------------- accumulation

  /** poly_add. */
  method PolyAdd(r: array<int>, t: array<int>, ghost x: int, ghost y: int)
    requires r.Length == t.Length && r != t && Within(r[..], x) && Within(t[..], y) && x + y <= INT16_MAX
    modifies r
    ensures r[..] == Plus(old(r[..]), t[..]) && Within(r[..], x + y)
  {
    for i := 0 to r.Length
      invariant forall j :: 0 <= j < i ==> r[j] == old(r[..])[j] + t[j]
      invariant forall j :: i <= j < r.Length ==> r[j] == old(r[..])[j]
    {
      assert old(r[..])[i] == r[i] && t[..][i] == t[i];
      Int16Exact(r[i] + t[i]);
      r[i] := Int16(r[i] + t[i]);
    }
  }

  /** The three components of a vector of arrays. */
  ghost function Values(v: seq<array<int>>): (r: seq<Poly>)
    requires |v| == K
    reads v
    ensures |r| == K && forall i :: 0 <= i < K ==> r[i] == v[i][..]
  {
    [v[0][..], v[1][..], v[2][..]]
  }

  ghost predicate VecWithin(v: seq<Poly>, b: int) { IsVec(v) && forall i :: 0 <= i < K ==> Within(v[i], b) }

  /** polyvec_pointwise_acc: 2^-16 times the sum of the products of pairs, reduced. */
  method PointwiseAcc(r: array<int>, a: seq<array<int>>, b: seq<array<int>>, ghost x: int, ghost y: int)
    requires |a| == |b| == K && VecWithin(Values(a), x) && VecWithin(Values(b), y)
    requires r.Length == N && r !in a && r !in b
    requires 0 <= x * y <= PRODUCT_MAX && 3 * PairBound(MontBound(x * y)) <= INT16_MAX
    modifies r
    ensures Alike(r[..], Scale(RINV, VecPairs(Values(a), Values(b), K))) && Within(r[..], 1664)
  {
    hide Same, Alike, Within, Scale, Pairs, Plus, PairBound, MontBound;
    ghost var c := PairBound(MontBound(x * y));
    ghost var A, B := Values(a), Values(b);
    var t := new int[256];
    PolyBasemul(r, a[0], b[0], x, y);
    for i := 1 to K
      invariant Alike(r[..], Scale(RINV, VecPairs(A, B, i))) && Within(r[..], i * c)
      invariant Values(a) == A && Values(b) == B
    {
      PolyBasemul(t, a[i], b[i], x, y);
      ghost var before := r[..];
      PolyAdd(r, t, i * c, c);
      PlusAlike(before, Scale(RINV, VecPairs(A, B, i)), t[..], Scale(RINV, Pairs(A[i], B[i])));
      ScalePlus(RINV, VecPairs(A, B, i), Pairs(A[i], B[i]));
    }
    ghost var q := r[..];
    WithinMore(q, 3 * c, INT16_MAX);
    PolyReduce(r);
    AlikeTrans(r[..], q, Scale(RINV, VecPairs(A, B, K)));
  }

  // ---------------------------------------------------------------- the inner product

  lemma {:induction false} VecPairsAlike(a: seq<Poly>, b: seq<Poly>, u: seq<Poly>, v: seq<Poly>, n: nat)
    requires IsVec(a) && IsVec(b) && IsVec(u) && IsVec(v) && 1 <= n <= K
    requires forall i :: 0 <= i < K ==> Alike(a[i], u[i]) && Alike(b[i], v[i])
    ensures Alike(VecPairs(a, b, n), VecPairs(u, v, n))
  {
    hide Alike, Pairs, Plus;
    PairsAlikeBoth(a[n - 1], b[n - 1], u[n - 1], v[n - 1]);
    if n > 1 {
      VecPairsAlike(a, b, u, v, n - 1);
      PlusAlike(VecPairs(a, b, n - 1), VecPairs(u, v, n - 1), Pairs(a[n - 1], b[n - 1]), Pairs(u[n - 1], v[n - 1]));
    }
  }

  /** What inv_ntt makes of an accumulated product: the inner product modulo X^256 + 1. */
  lemma BackFromVec(w: Poly, a: seq<Poly>, b: seq<Poly>, s: seq<Poly>, u: seq<Poly>)
    requires |w| == N && IsVec(a) && IsVec(b) && IsVec(s) && IsVec(u)
    requires Alike(w, Scale(RINV, VecPairs(a, b, K)))
    requires forall i :: 0 <= i < K ==> Alike(a[i], Full(s[i])) && Alike(b[i], Full(u[i]))
    ensures Alike(Scale(SCALING, FullInverse(w)), VecProduct(s, u, K))
  {
    hide Same, Alike, Full, FullInverse, Scale, VecPairs, VecProduct;
    var p := VecPairs(VecFull(s), VecFull(u), K);
    VecPairsAlike(a, b, VecFull(s), VecFull(u), K);
    ScaleAlike(RINV, VecPairs(a, b, K), p);
    AlikeTrans(w, Scale(RINV, VecPairs(a, b, K)), Scale(RINV, p));
    InverseAlike(w, Scale(RINV, p));
    InverseScale(RINV, p);
    VecBack(s, u, K);
    var x := VecProduct(s, u, K);
    ScaleAlike(RINV, FullInverse(p), Scale(128, x));
    AlikeTrans(FullInverse(w), Scale(RINV, FullInverse(p)), Scale(RINV, Scale(128, x)));
    ScaleAlike(SCALING, FullInverse(w), Scale(RINV, Scale(128, x)));
    FactorsCancel(x);
    AlikeTrans(Scale(SCALING, FullInverse(w)), Scale(SCALING, Scale(RINV, Scale(128, x))), x);
  }

  /** The largest 12-bit coefficient poly_frombytes can produce. */
  const STORED_MAX: int := 4095

  /** The products of stored and freshly transformed coefficients can be accumulated three times. */
  lemma AccumulationFits()
    ensures 0 <= STORED_MAX * 18283 <= PRODUCT_MAX && 3 * PairBound(MontBound(STORED_MAX * 18283)) <= INT16_MAX
  {
  }

  /** The core of K-PKE decryption (and of both lines of encryption): with stored transforms sHat of s, the vector u is
      transformed, multiplied and accumulated, and transformed back: w is the inner product of s and u. */
  method InnerProduct(w: array<int>, sHat: seq<array<int>>, u: seq<array<int>>, ghost s: seq<Poly>)
    requires |sHat| == |u| == K && IsVec(s) && VecWithin(Values(sHat), STORED_MAX) && VecWithin(Values(u), Q)
    requires forall i :: 0 <= i < K ==> Alike(Values(sHat)[i], Full(s[i]))
    requires w.Length == N && w !in sHat && w !in u && (forall i :: 0 <= i < K ==> u[i] !in sHat)
    requires u[0] != u[1] && u[0] != u[2] && u[1] != u[2]
    modifies w, u
    ensures Alike(w[..], VecProduct(s, old(Values(u)), K))
  {
    hide Same, Alike, Within, Full, FullInverse, Scale, VecPairs, VecProduct, Grown, PairBound, MontBound, Full16,
      Inverse16, PairsFit, PairSums;
    ghost var p := Values(u);
    ForwardFits();
    AccumulationFits();
    NttInPlace(u[0]);
    NttInPlace(u[1]);
    NttInPlace(u[2]);
    NttMeans(p[0], Q);
    NttMeans(p[1], Q);
    NttMeans(p[2], Q);
    assert Values(sHat) == old(Values(sHat));
    PointwiseAcc(w, sHat, u, STORED_MAX, 18283);
    ghost var m := w[..];
    WithinMore(m, 1664, SUMMABLE);
    InvNttInPlace(w);
    SmallPairsFit(m);
    InverseExact(m);
    BackFromVec(m, Values(sHat), Values(u), s, p);
    AlikeTrans(w[..], Scale(SCALING, FullInverse(m)), VecProduct(s, p, K));
  }
}
