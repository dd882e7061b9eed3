/** ntt and inv_ntt in place on 16-bit coefficients, without overflow in any level. */
module MlkemNtt {
  import opened Arithmetic
  import opened Bits
  import opened MlkemField
  import opened MlkemZetas
  import opened MlkemTransform
  import opened MlkemLevels
  import opened MlkemEvaluation
  import opened MlkemProduct

  const INT16_MAX: int := 0x7FFF

  predicate Within(p: seq<int>, b: int) { forall i :: 0 <= i < |p| ==> -b <= p[i] <= b }

  // ---------------------------------------------------------------- twiddle products

  /** A table entry in a Montgomery product stands for the plain zeta. */
  lemma Twiddle(k: nat, x: int, b: int)
    requires k < 128 && 0 <= b <= 0x8_0000 && -b <= x <= b
    ensures Same(Mont(Table(k) * x), Zeta(k) * x)
    ensures 0x1_0000 * Mont(Table(k) * x) <= 3321 * b + 0x8000 * Q
    ensures -(3321 * b + 0x8000 * Q) <= 0x1_0000 * Mont(Table(k) * x)
  {
    hide Same, Mont, Table, Zeta;
    ProductBound(Table(k), x, b);
    MontReduces(Table(k) * x, 3321 * b);
    TableMeaning(k);
    Untwiddle(Table(k), Zeta(k), x, Mont(Table(k) * x));
  }

  lemma ProductBound(z: int, x: int, b: int)
    requires -3321 <= z <= 3321 && -b <= x <= b
    ensures -(3321 * b) <= z * x <= 3321 * b
  {
    if z >= 0 {
      MulMonotone(z, x, b);
      MulMonotone(z, -b, x);
      MulMonotone(b, z, 3321);
    } else {
      MulMonotone(-z, x, b);
      MulMonotone(-z, -b, x);
      MulMonotone(b, -z, 3321);
    }
  }

  lemma Untwiddle(t: int, z: int, x: int, m: int)
    requires Same(t, R * z) && Same(m, RINV * (t * x))
    ensures Same(m, z * x)
  {
    hide Same;
    Refl(x);
    SameMul(t, R * z, x, x);
    Refl(RINV);
    SameMul(RINV, RINV, t * x, R * z * x);
    Associate(R, z, x);
    Associate(RINV, R, z * x);
    SameTrans(m, RINV * (t * x), RINV * R * (z * x));
    InverseOfR();
    Refl(z * x);
    SameMul(RINV * R, 1, z * x, z * x);
    SameTrans(m, RINV * R * (z * x), z * x);
  }

  lemma InverseOfR()
    ensures Same(RINV * R, 1)
  {
  }

  // ---------------------------------------------------------------- the forward transform

  /** How far a level can move a coefficient bounded by b. */
  function Grow(b: int): (c: int) { b + (3321 * b + 0x8000 * Q) / 0x1_0000 }

  function Grown(b: int, d: nat): (c: int) { if d == 0 then b else Grow(Grown(b, d - 1)) }

  lemma {:induction false} GrownMonotone(b: int, d: nat, e: nat)
    requires 0 <= b && d <= e
    ensures 0 <= Grown(b, d) <= Grown(b, e)
  {
    if d < e {
      GrownMonotone(b, d, e - 1);
    } else if d > 0 {
      GrownMonotone(b, d - 1, d - 1);
    }
  }

  lemma Growths(b: int)
    ensures Grown(b, 1) == Grow(b) && Grown(b, 2) == Grow(Grown(b, 1)) && Grown(b, 3) == Grow(Grown(b, 2))
    ensures Grown(b, 4) == Grow(Grown(b, 3)) && Grown(b, 5) == Grow(Grown(b, 4)) && Grown(b, 6) == Grow(Grown(b, 5))
    ensures Grown(b, 7) == Grow(Grown(b, 6))
  {
    hide Grow;
  }

  /** Coefficients of at most q stay well inside sixteen bits. */
  lemma ForwardFits()
    ensures Grown(3329, 7) == 18283
  {
    hide Grown, Grow;
    Growths(3329);
    GrowthsOf3329();
  }

  lemma GrowthsOf3329()
    ensures Grow(3329) == 5162 && Grow(5162) == 7088 && Grow(7088) == 9111 && Grow(9111) == 11237
    ensures Grow(11237) == 13470 && Grow(13470) == 15817 && Grow(15817) == 18283
  {
  }

  /** One butterfly. */
  lemma ButterflyFits(k: nat, x: int, y: int, t: int, b: int)
    requires k < 128 && 0 <= b && Grow(b) <= INT16_MAX && -b <= x <= b && -b <= y <= b && t == Mont(Table(k) * y)
    ensures Int16(x + t) == x + t && Int16(x - t) == x - t
    ensures -Grow(b) <= x + t <= Grow(b) && -Grow(b) <= x - t <= Grow(b)
    ensures Same(x + t, x + Zeta(k) * y) && Same(x - t, x + -Zeta(k) * y)
  {
    hide Same, Mont, Table, Zeta;
    Twiddle(k, y, b);
    Int16Exact(x + t);
    Int16Exact(x - t);
    Refl(x);
    SameAdd(x, x, t, Zeta(k) * y);
    Opposite(Zeta(k), y);
  }

  lemma WithinSlice(p: seq<int>, b: int, lo: nat, hi: nat)
    requires Within(p, b) && lo <= hi <= |p|
    ensures Within(p[lo..hi], b)
  {
  }

  // ---------------------------------------------------------------- one block in place

  /** In v the first o pairs of the block at start are those of q, and everything else is as in p. */
  ghost predicate Halfway(p: seq<int>, v: seq<int>, q: seq<int>, start: nat, len: nat, o: int) {
    && |v| == |p| && |q| == 2 * len && start + 2 * len <= |p| && 0 <= o <= len
    && forall x {:trigger v[x]} :: 0 <= x < |v| ==>
         v[x] == if start <= x < start + o || start + len <= x < start + len + o then q[x - start] else p[x]
  }

  lemma HalfwayOn(p: seq<int>, v: seq<int>, q: seq<int>, start: nat, len: nat, o: nat)
    requires Halfway(p, v, q, start, len, o) && o < len
    ensures start + 2 * len <= |p| == |v| && |q| == 2 * len
    ensures v[start + o] == p[start + o] && v[start + o + len] == p[start + o + len]
    ensures Halfway(p, v[start + o := q[o]][start + o + len := q[o + len]], q, start, len, o + 1)
  {
  }

  lemma HalfwayStart(p: seq<int>, q: seq<int>, start: nat, len: nat)
    requires |q| == 2 * len && start + 2 * len <= |p|
    ensures Halfway(p, p, q, start, len, 0)
  {
  }

  lemma HalfwayAll(p: seq<int>, v: seq<int>, q: seq<int>, start: nat, len: nat)
    requires Halfway(p, v, q, start, len, len)
    ensures |v| == |p| && start + 2 * len <= |p| && v[start..start + 2 * len] == q
    ensures v[..start] == p[..start] && v[start + 2 * len..] == p[start + 2 * len..]
  {
  }

  lemma SplitPair(p: seq<int>, k: nat, len: nat, i: nat)
    requires |p| == 2 * len && i < len && k < 128
    ensures Split16(p, k)[i] == Int16(p[i] + Mont(Table(k) * p[i + len]))
    ensures Split16(p, k)[i + len] == Int16(p[i] - Mont(Table(k) * p[i + len]))
  {
    hide Mont, Table, Int16;
  }

  /** r[lo] + t and r[lo] - t, with t the twiddled r[hi]. */
  method Butterfly(r: array<int>, lo: nat, hi: nat, k: nat)
    requires lo < hi < r.Length && k < 128
    modifies r
    ensures r[..] == old(r[..])[lo := Int16(old(r[lo]) + Mont(Table(k) * old(r[hi])))]
                                [hi := Int16(old(r[lo]) - Mont(Table(k) * old(r[hi])))]
  {
    hide Mont, Table, Int16;
    var zeta := Table(k);
    var t := Mont(zeta * r[hi]);
    r[hi] := Int16(r[lo] - t);
    r[lo] := Int16(r[lo] + t);
  }

  /** The inner loop of ntt on one block. */
  method ForwardBlock(r: array<int>, start: nat, len: nat, k: nat)
    requires start + 2 * len <= r.Length && k < 128
    modifies r
    ensures r[start..start + 2 * len] == Split16(old(r[start..start + 2 * len]), k)
    ensures r[..start] == old(r[..start]) && r[start + 2 * len..] == old(r[start + 2 * len..])
  {
    hide Mont, Table, Int16, Split16, Halfway;
    ghost var p, u := r[..], r[..][start..start + 2 * len];
    ghost var q := Split16(u, k);
    HalfwayStart(p, q, start, len);
    for j := start to start + len
      invariant Halfway(p, r[..], q, start, len, j - start)
    {
      HalfwayOn(p, r[..], q, start, len, j - start);
      SplitPair(u, k, len, j - start);
      Butterfly(r, j, j + len, k);
    }
    HalfwayAll(p, r[..], q, start, len);
    assert r[..][start..start + 2 * len] == r[start..start + 2 * len];
  }

  // ---------------------------------------------------------------- one level in place

  /** What an in-place level has done after some blocks: the blocks before start are through, the others as before. */
  ghost predicate Partly(q: seq<int>, p: seq<int>, target: seq<int>, start: nat) {
    start <= |q| == |p| == |target| && q[..start] == target[..start] && q[start..] == p[start..]
  }

  lemma PartlyEnds(q: seq<int>, p: seq<int>, target: seq<int>)
    requires |p| == |target|
    ensures Partly(p, p, target, 0) && (Partly(q, p, target, |q|) ==> q == target)
  {
    assert p[0..] == p;
    if Partly(q, p, target, |q|) {
      assert q == q[..|q|] && target == target[..|q|];
    }
  }

  /** One more block. */
  lemma PartlyMore(q: seq<int>, v: seq<int>, p: seq<int>, target: seq<int>, start: nat, end: nat)
    requires Partly(q, p, target, start) && start <= end <= |q| == |v|
    requires v[..start] == q[..start] && v[end..] == q[end..] && v[start..end] == target[start..end]
    ensures Partly(v, p, target, end)
  {
    assert v[..end] == v[..start] + v[start..end] && target[..end] == target[..start] + target[start..end];
    assert q[start..][end - start..] == q[end..] && p[start..][end - start..] == p[end..];
  }

  /** The block of the level that starts where the loop is. */
  lemma BlockHere(op: Op, q: seq<int>, p: seq<int>, d: nat, blk: nat, start: nat)
    requires d < 8 && |p| == Pow2(8) && blk < Pow2(d) && End(Pow2(8 - d), blk) == start + Pow2(8 - d)
    requires Partly(q, p, Level(op, p, 1, d, 8), start)
    ensures start + Pow2(8 - d) <= |q|
    ensures Level(op, p, 1, d, 8)[start..start + Pow2(8 - d)]
            == Apply(op, q[start..start + Pow2(8 - d)], Pow2(d) + blk)
  {
    hide Level, Apply, Pow2, End;
    var m := Pow2(8 - d);
    LevelBlock(op, p, 1, d, 8, blk);
    NodeOne(d, blk);
    assert q[start..][..m] == q[start..start + m] && p[start..][..m] == p[start..start + m];
  }

  lemma NodeOne(d: nat, b: nat)
    ensures NodeAt(1, d, b) == Pow2(d) + b
  {
  }

  /** Whether a level has a block left, and where it starts. */
  lemma BlocksLeft(d: nat, blk: nat, start: nat)
    requires d <= 8 && blk <= Pow2(d) && End(Pow2(8 - d), blk) == start + Pow2(8 - d)
    ensures start < Pow2(8) <==> blk < Pow2(d)
    ensures blk == Pow2(d) ==> start == Pow2(8)
  {
    hide Pow2;
    var m := Pow2(8 - d);
    Sizes(d, 8);
    Distribute(m, Pow2(d), 1);
    if blk < Pow2(d) {
      EndFits(m, blk, Pow2(d));
    }
  }

  /** The middle loop of ntt: one level. */
  method ForwardLevel(r: array<int>, len: nat, k: nat, ghost d: nat) returns (k1: nat)
    requires r.Length == N && d < LEVELS && 2 * len == Pow2(8 - d) && k == Pow2(d)
    modifies r
    ensures |old(r[..])| == Pow2(8) && r[..] == Level(Forward16, old(r[..]), 1, d, 8) && k1 == 2 * k
  {
    hide Level, Pow2, Partly, Split16, End;
    Eight();
    ghost var p := r[..];
    ghost var target := Level(Forward16, p, 1, d, 8);
    PartlyEnds(p, p, target);
    EndStart(2 * len, 0);
    k1 := k;
    var start := 0;
    ghost var blk := 0;
    TopLevel(d);
    while start < 256
      invariant start <= 256 && blk <= Pow2(d) && k1 == k + blk && End(2 * len, blk) == start + 2 * len
      invariant Partly(r[..], p, target, start)
      decreases 256 - start
    {
      BlocksLeft(d, blk, start);
      BlockHere(Forward16, r[..], p, d, blk, start);
      ghost var q := r[..];
      assert q[start..start + 2 * len] == r[start..start + 2 * len];
      ForwardBlock(r, start, len, k1);
      ghost var v := r[..];
      assert v[start..start + 2 * len] == r[start..start + 2 * len] && v[..start] == r[..start];
      assert v[start + 2 * len..] == r[start + 2 * len..] && q[start + 2 * len..] == v[start + 2 * len..];
      PartlyMore(q, v, p, target, start, start + 2 * len);
      EndStart(2 * len, blk + 1);
      start, k1, blk := start + 2 * len, k1 + 1, blk + 1;
    }
    BlocksLeft(d, blk, start);
    PartlyEnds(r[..], p, target);
  }

  /** Nodes of the seven levels are below 128. */
  lemma TopLevel(d: nat)
    requires d < LEVELS
    ensures 2 * Pow2(d) <= 128 && Pow2(8 - d) >= 4
  {
    hide Pow2;
    SmallPowers();
    Pow2Monotone(d, 6);
    Pow2Monotone(2, 8 - d);
  }

  /** The first d levels in sixteen bits. */
  function Passes(p: seq<int>, d: nat): (q: seq<int>)
    requires |p| == Pow2(8) && d <= LEVELS
    ensures |q| == |p|
  {
    if d == 0 then p else Level(Forward16, Passes(p, d - 1), 1, d - 1, 8)
  }

  /** What ntt computes. */
  function Full16(p: seq<int>): (q: seq<int>)
    requires |p| == N
    ensures |q| == N
  {
    Eight();
    Passes(p, LEVELS)
  }

  /** ntt, on any array. */
  method NttInPlace(r: array<int>)
    requires r.Length == N
    modifies r
    ensures r[..] == Full16(old(r[..]))
  {
    hide Level, Pow2;
    Eight();
    SmallPowers();
    ghost var p := r[..];
    var k, len := 1, 128;
    ghost var d := 0;
    while len >= 2
      invariant d <= LEVELS && k == Pow2(d) && 2 * len == Pow2(8 - d) && r[..] == Passes(p, d)
      decreases len
    {
      LevelsLeft(d, len);
      k := ForwardLevel(r, len, k, d);
      HalfSize(8 - d);
      HalfSize(d + 1);
      len, d := len / 2, d + 1;
    }
    LevelsLeft(d, len);
  }

  lemma LevelsLeft(d: nat, len: nat)
    requires d <= LEVELS && 2 * len == Pow2(8 - d)
    ensures len >= 2 <==> d < LEVELS
    ensures d < LEVELS ==> len % 2 == 0
  {
    hide Pow2;
    SmallPowers();
    if d < LEVELS {
      Pow2Monotone(2, 8 - d);
      HalfSize(8 - d);
      HalfSize(7 - d);
    }
  }

  // ---------------------------------------------------------------- what it means

  /** One pair of a block. */
  lemma SplitAt(p: seq<int>, k: nat, b: int, i: nat)
    requires |p| % 2 == 0 && k < 128 && 0 <= b && Grow(b) <= INT16_MAX && Within(p, b) && i < |p| / 2
    ensures var u, v, h := Split16(p, k), Split(p, k), |p| / 2;
            && Same(u[i], v[i]) && Same(u[i + h], v[i + h]) && u[i] + u[i + h] == 2 * p[i]
            && -Grow(b) <= u[i] <= Grow(b) && -Grow(b) <= u[i + h] <= Grow(b)
  {
    hide Same, Mont, Table, Zeta, Grow, Int16;
    ButterflyFits(k, p[i], p[i + |p| / 2], Mont(Table(k) * p[i + |p| / 2]), b);
  }

  /** One block whose coefficients are small enough. */
  lemma SplitMeans(p: seq<int>, k: nat, b: int)
    requires |p| % 2 == 0 && k < 128 && 0 <= b && Grow(b) <= INT16_MAX && Within(p, b)
    ensures Alike(Split16(p, k), Split(p, k)) && Within(Split16(p, k), Grow(b))
    ensures forall i :: 0 <= i < |p| / 2 ==> -2 * b <= Split16(p, k)[i] + Split16(p, k)[i + |p| / 2] <= 2 * b
  {
    hide Same, Grow, Split16, Split;
    var u, v, h := Split16(p, k), Split(p, k), |p| / 2;
    forall i | 0 <= i < |p| ensures Same(u[i], v[i]) && -Grow(b) <= u[i] <= Grow(b) {
      SplitAt(p, k, b, if i < h then i else i - h);
    }
    forall i | 0 <= i < h ensures -2 * b <= u[i] + u[i + h] <= 2 * b {
      SplitAt(p, k, b, i);
    }
  }

  lemma WithinConcat(p: seq<int>, q: seq<int>, b: int)
    requires Within(p, b) && Within(q, b)
    ensures Within(p + q, b)
  {
  }

  /** The sum of a pair at distance two. */
  function PairSum(p: seq<int>, i: nat): (s: int)
    requires i + 2 < |p|
  {
    p[i] + p[i + 2]
  }

  /** The sums of the pairs in blocks of four are at most b. */
  ghost predicate PairSums(p: seq<int>, b: int) {
    |p| % 4 == 0 && forall i: nat :: i + 2 < |p| && i % 4 < 2 ==> -b <= PairSum(p, i) <= b
  }

  lemma PairSumsConcat(p: seq<int>, q: seq<int>, b: int)
    requires PairSums(p, b) && PairSums(q, b)
    ensures PairSums(p + q, b)
  {
    forall i: nat | i + 2 < |p + q| && i % 4 < 2 ensures -b <= PairSum(p + q, i) <= b {
      if i < |p| {
        assert PairSum(p + q, i) == PairSum(p, i);
      } else {
        assert PairSum(p + q, i) == PairSum(q, i - |p|);
      }
    }
  }

  /** One level; in the last one the two results of a butterfly add up to twice its first operand. */
  lemma {:induction false} LevelMeans(p: seq<int>, k: nat, d: nat, n: nat, b: int)
    requires d < n && |p| == Pow2(n) && InTree(k, d + 1) && 0 <= b && Grow(b) <= INT16_MAX && Within(p, b)
    ensures Alike(Level(Forward16, p, k, d, n), Level(Forward, p, k, d, n))
    ensures Within(Level(Forward16, p, k, d, n), Grow(b))
    ensures n == d + 2 ==> PairSums(Level(Forward16, p, k, d, n), 2 * b)
    decreases d
  {
    hide Alike, Within, Split, Split16, Grow, InTree, Pow2, PairSums, Level;
    HalfSize(n);
    ChildInTree(k, d + 1);
    if d == 0 {
      LevelZero(Forward16, p, k, n);
      LevelZero(Forward, p, k, n);
      SplitMeans(p, k, b);
      if n == 2 {
        FourSums(p, k, b);
      }
    } else {
      var h := Pow2(n - 1);
      WithinSlice(p, b, 0, h);
      WithinSlice(p, b, h, |p|);
      assert p[0..h] == p[..h] && p[h..|p|] == p[h..] && p == p[..h] + p[h..];
      LevelUnfold(Forward16, p[..h], p[h..], k, d, n);
      LevelUnfold(Forward, p[..h], p[h..], k, d, n);
      LevelMeans(p[..h], 2 * k, d - 1, n - 1, b);
      LevelMeans(p[h..], 2 * k + 1, d - 1, n - 1, b);
      var u, v := Level(Forward16, p[..h], 2 * k, d - 1, n - 1), Level(Forward16, p[h..], 2 * k + 1, d - 1, n - 1);
      AlikeConcat(u, Level(Forward, p[..h], 2 * k, d - 1, n - 1), v, Level(Forward, p[h..], 2 * k + 1, d - 1, n - 1));
      WithinConcat(u, v, Grow(b));
      if n == d + 2 {
        PairSumsConcat(u, v, 2 * b);
      }
    }
  }

  lemma FourSums(p: seq<int>, k: nat, b: int)
    requires |p| == Pow2(2) && k < 128 && 0 <= b && Grow(b) <= INT16_MAX && Within(p, b)
    ensures PairSums(Split16(p, k), 2 * b)
  {
    hide Grow, Split16;
    assert |p| == 4;
    SplitMeans(p, k, b);
    var q := Split16(p, k);
    assert forall i: nat :: i + 2 < 4 && i % 4 < 2 ==> PairSum(q, i) == q[i] + q[i + 2];
  }

  lemma {:induction false} PassesMean(p: seq<int>, d: nat, b: int)
    requires |p| == Pow2(8) && d <= LEVELS && 0 <= b && Grown(b, LEVELS) <= INT16_MAX && Within(p, b)
    ensures Alike(Passes(p, d), Ntt(p, 1, d, 8)) && Within(Passes(p, d), Grown(b, d))
    ensures d == LEVELS ==> PairSums(Passes(p, d), 2 * Grown(b, LEVELS - 1))
  {
    hide Level, Alike, Grow, Pow2, Within, Ntt, PairSums, InTree;
    if d == 0 {
      NttNone(p);
    } else {
      PassesMean(p, d - 1, b);
      GrownMonotone(b, d, LEVELS);
      GrownMonotone(b, d - 1, LEVELS);
      RootInTree(d);
      var q := Passes(p, d - 1);
      LevelMeans(q, 1, d - 1, 8, Grown(b, d - 1));
      NttLevel(p, 1, d - 1, 8);
      LevelAlike(Forward, q, Ntt(p, 1, d - 1, 8), 1, d - 1, 8);
      AlikeTrans(Passes(p, d), Level(Forward, q, 1, d - 1, 8), Ntt(p, 1, d, 8));
    }
  }

  lemma RootInTree(d: nat)
    requires d <= LEVELS
    ensures InTree(1, d)
  {
    hide Pow2;
    Pow2Monotone(d, LEVELS);
    Seven();
  }

  lemma NttNone(p: seq<int>)
    requires |p| == Pow2(8)
    ensures Alike(p, Ntt(p, 1, 0, 8))
  {
    AlikeRefl(p);
  }

  /** On input bounded by b, with room for what seven levels may add, ntt computes the transform. */
  lemma NttMeans(p: seq<int>, b: int)
    requires |p| == N && 0 <= b && Grown(b, LEVELS) <= INT16_MAX && Within(p, b)
    ensures Alike(Full16(p), Full(p)) && Within(Full16(p), Grown(b, LEVELS))
    ensures PairSums(Full16(p), 2 * Grown(b, LEVELS - 1))
    ensures IsTransform(p, Full16(p))
  {
    hide Alike, Pow2, Within, Ntt, PairSums, Passes, Grown, IsTransform;
    Eight();
    PassesMean(p, LEVELS, b);
    FullIsTransform(p);
    AlikeIsTransform(p, Full(p), Full16(p));
  }
}
