/** inv_ntt straight after ntt: how large the input may be, and an input for which the result is wrong. */
module MlkemUnreduced {
  import opened Arithmetic
  import opened Bits
  import opened MlkemField
  import opened MlkemZetas
  import opened MlkemTransform
  import opened MlkemLevels
  import opened MlkemProduct
  import opened MlkemNtt
  import opened MlkemInverse
  import opened MlkemPoly

  /** Input of ntt for which its results stay in sixteen bits by the growth of each level. */
  ghost predicate Transformable(p: seq<int>, b: int) {
    |p| == N && 0 <= b && Grown(b, LEVELS) <= INT16_MAX && Within(p, b)
  }

  /** Without a reduction in between, transforming there and back multiplies by 2^16 exactly when the pairs of the
      transform have sums of sixteen bits. */
  lemma UnreducedExact(p: seq<int>, b: int)
    requires Transformable(p, b)
    ensures Alike(Inverse16(Full16(p)), Scale(0x1_0000, p)) <==> PairsFit(Full16(p))
  {
    hide Same, Alike, Within, Full, FullInverse, Scale, Grown, Full16, Inverse16, PairsFit, PairSums;
    NttMeans(p, b);
    WithinMore(Full16(p), Grown(b, LEVELS), INT16_SIZE);
    InverseExact(Full16(p));
    var t := Scale(SCALING, FullInverse(Full16(p)));
    InverseAlike(Full16(p), Full(p));
    BackFromFull(p);
    AlikeTrans(FullInverse(Full16(p)), FullInverse(Full(p)), Scale(128, p));
    ScaleAlike(SCALING, FullInverse(Full16(p)), Scale(128, p));
    ScaleScale(SCALING, 128, p);
    AlikeSym(t, Scale(0x1_0000, p));
    if Alike(Inverse16(Full16(p)), t) {
      AlikeTrans(Inverse16(Full16(p)), t, Scale(0x1_0000, p));
    }
    if Alike(Inverse16(Full16(p)), Scale(0x1_0000, p)) {
      AlikeTrans(Inverse16(Full16(p)), Scale(0x1_0000, p), t);
    }
  }

  lemma GrowthsOf3751()
    ensures Grow(3751) == 5605 && Grow(5605) == 7553 && Grow(7553) == 9600 && Grow(9600) == 11750
    ensures Grow(11750) == 14009 && Grow(14009) == 16383 && Grow(16383) == 18877
  {
  }

  /** Coefficients of at most 3751 need no reduction: the last level of ntt leaves pairs whose sums are twice what the
      sixth left, and that is at most 16383. */
  lemma UnreducedFits(p: seq<int>)
    requires |p| == N && Within(p, 3751)
    ensures Alike(Inverse16(Full16(p)), Scale(0x1_0000, p))
  {
    hide Alike, Within, Scale, Full16, Inverse16, Grow, Grown;
    Growths(3751);
    GrowthsOf3751();
    NttMeans(p, 3751);
    SumsFit(Full16(p));
    UnreducedExact(p, 3751);
  }

  lemma SumsFit(p: seq<int>)
    requires PairSums(p, 2 * SUMMABLE)
    ensures PairsFit(p)
  {
  }

  // ---------------------------------------------------------------- an input that is not restored

  /** Three coefficients, none above 13578. */
  function Spikes(): (p: seq<int>)
    ensures |p| == N
  {
    seq(N, i => if i == 0 then 13578 else if i == 64 then -10936 else if i == 128 then -13546 else 0)
  }

  lemma GrowthsOf13578()
    ensures Grow(13578) == 15930 && Grow(15930) == 18401 && Grow(18401) == 20997 && Grow(20997) == 23725
    ensures Grow(23725) == 26591 && Grow(26591) == 29602 && Grow(29602) == 32766
  {
  }

  lemma SpikesTransformable()
    ensures Transformable(Spikes(), 13578)
  {
    hide Grow, Grown;
    Growths(13578);
    GrowthsOf13578();
  }

  /** The front of a level comes from the front before it. */
  lemma FrontStep(p: seq<int>, d: nat)
    requires |p| == Pow2(8) && d < LEVELS
    ensures Pow2(8 - d) <= |p| && Passes(p, d + 1)[..Pow2(8 - d)] == Split16(Passes(p, d)[..Pow2(8 - d)], Pow2(d))
  {
    hide Level, Pow2, Split16;
    var q := Passes(p, d);
    Pow2Monotone(0, d);
    LevelBlock(Forward16, q, 1, d, 8, 0);
    EndStart(Pow2(8 - d), 0);
    NodeOne(d, 0);
  }

  /** A coefficient followed by zeros. */
  predicate Spike(q: seq<int>, v: int) { |q| > 0 && q[0] == v && forall i :: 1 <= i < |q| ==> q[i] == 0 }

  lemma NoTwist(k: nat)
    ensures Mont(Twist(k) * 0) == 0
  {
  }

  /** The butterflies pass a spike on to both halves. */
  lemma SpikeSplits(q: seq<int>, v: int, k: nat)
    requires |q| % 2 == 0 && Spike(q, v) && -0x8000 <= v < 0x8000
    ensures Spike(Split16(q, k)[..|q| / 2], v) && Split16(q, k)[|q| / 2] == v
  {
    hide Mont, Int16, Twist;
    NoTwist(k);
    Int16Exact(v);
    Int16Exact(0);
  }

  const WRAPPED: int := 17112

  /** A Montgomery product from its intermediate values. */
  lemma MontSteps(a: int, u: int, w: int, t: int)
    requires u == Int16(a) && w == Int16(u * QINV) && a - w * Q == t * 0x1_0000 && -0x8000 <= t < 0x8000
    ensures Mont(a) == t
  {
    DivModUnique(a - w * Q, 0x1_0000, t, 0);
    Int16Exact(t);
  }

  lemma FirstTwists()
    ensures Mont(Twist(1) * -13546) == 1810 && Mont(Twist(2) * -10936) == 1724
  {
    hide Mont;
    MontSteps(10267868, -21284, -32548, 1810);
    MontSteps(3926024, -6136, -32760, 1724);
  }

  lemma SplitLow(p: seq<int>, k: nat, i: nat)
    requires i < |p| / 2
    ensures Split16(p, k)[i] == Int16(p[i] + Mont(Twist(k) * p[i + |p| / 2]))
  {
    hide Mont, Int16, Twist;
  }

  /** Two spikes, halfway apart. */
  predicate TwoSpikes(u: seq<int>) {
    |u| == 128 && forall i :: 0 <= i < 128 ==> u[i] == if i == 0 then 15388 else if i == 64 then -10936 else 0
  }

  /** The first level adds the last spike to the first. */
  lemma OneLevel(p: seq<int>, u: seq<int>)
    requires p == Spikes() && |u| == 128 && u == Split16(p, 1)[..128]
    ensures TwoSpikes(u)
  {
    hide Mont, Int16, Twist, Split16;
    FirstTwists();
    NoTwist(1);
    Int16Exact(15388);
    Int16Exact(-10936);
    Int16Exact(0);
    forall i | 0 <= i < 128 ensures u[i] == if i == 0 then 15388 else if i == 64 then -10936 else 0 {
      SplitLow(p, 1, i);
    }
  }

  /** The second adds the other. */
  lemma NextLevel(u: seq<int>)
    requires TwoSpikes(u)
    ensures Spike(Split16(u, 2)[..64], WRAPPED)
  {
    hide Mont, Int16, Twist, Split16;
    FirstTwists();
    NoTwist(2);
    Int16Exact(0);
    Int16Exact(WRAPPED);
    forall i | 0 <= i < 64 ensures Split16(u, 2)[i] == if i == 0 then WRAPPED else 0 {
      SplitLow(u, 2, i);
    }
  }

  /** The first two levels add both spikes to the first. */
  lemma TwoLevels(p: seq<int>)
    requires p == Spikes()
    ensures |p| == Pow2(8) && Spike(Passes(p, 2)[..Pow2(6)], WRAPPED)
  {
    hide Split16, Pow2, Passes, Spikes, Spike, TwoSpikes;
    Eight();
    SmallPowers();
    HalfSize(8);
    HalfSize(7);
    PassesNone(p);
    FrontStep(p, 0);
    FrontStep(p, 1);
    var q, u := Passes(p, 1), Passes(p, 1)[..128];
    assert p[..Pow2(8)] == p && q[..Pow2(8)] == q;
    OneLevel(p, u);
    NextLevel(u);
    assert Passes(p, 2)[..128][..64] == Passes(p, 2)[..64];
  }

  lemma PassesNone(p: seq<int>)
    requires |p| == Pow2(8)
    ensures Passes(p, 0) == p
  {
  }

  /** The others only copy. */
  lemma {:induction false} LaterLevels(p: seq<int>, d: nat)
    requires p == Spikes() && 2 <= d < LEVELS
    ensures |p| == Pow2(8) && Pow2(8 - d) <= Pow2(8) && Spike(Passes(p, d)[..Pow2(8 - d)], WRAPPED)
  {
    hide Pow2, Passes, Spike, Split16, Spikes;
    TwoLevels(p);
    Pow2Monotone(8 - d, 8);
    if d > 2 {
      LaterLevels(p, d - 1);
      HalfSize(9 - d);
      var q := Passes(p, d - 1)[..Pow2(9 - d)];
      FrontStep(p, d - 1);
      SpikeSplits(q, WRAPPED, Pow2(d - 1));
      assert Passes(p, d)[..Pow2(9 - d)][..Pow2(8 - d)] == Passes(p, d)[..Pow2(8 - d)];
    }
  }

  /** ntt keeps these coefficients in sixteen bits, but inv_ntt cannot add the first of them to the third, and what it
      then gives is not the input. */
  lemma NotRestored(p: seq<int>)
    requires p == Spikes()
    ensures Transformable(p, 13578) && Full16(p)[0] == Full16(p)[2] == WRAPPED
    ensures !Alike(Inverse16(Full16(p)), Scale(0x1_0000, p))
  {
    hide Pow2, Passes, Spike, Split16, Spikes, Alike, Inverse16, Scale, Transformable;
    SpikesTransformable();
    Eight();
    SmallPowers();
    LaterLevels(p, 6);
    var q := Passes(p, 6)[..4];
    FrontStep(p, 6);
    SpikeSplits(q, WRAPPED, 64);
    SpikeFirst(Split16(q, 64)[..2], WRAPPED);
    var f := Full16(p);
    assert f[..4] == Split16(q, 64) && f[0] == f[..4][0] && f[2] == f[..4][2];
    assert PairSum(f, 0) == 2 * WRAPPED;
    UnreducedExact(p, 13578);
  }

  lemma SpikeFirst(q: seq<int>, v: int)
    requires Spike(q, v)
    ensures |q| > 0 && q[0] == v
  {
  }
}
