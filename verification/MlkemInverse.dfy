/** inv_ntt in place: what it computes, and exactly when that is the inverse transform. */
module MlkemInverse {
  import opened Arithmetic
  import opened Bits
  import opened MlkemField
  import opened MlkemZetas
  import opened MlkemTransform
  import opened MlkemLevels
  import opened MlkemProduct
  import opened MlkemNtt

  /** Arrays bounded by this hold any sixteen-bit coefficients. */
  const INT16_SIZE: int := 0x8000

  /** The largest coefficients whose sums stay in sixteen bits. */
  const SUMMABLE: int := 16383

  /** What a level of the inverse leaves at most. */
  const JOINED: int := 4985

  // ---------------------------------------------------------------- in place

  lemma JoinPair(p: seq<int>, node: nat, len: nat, i: nat)
    requires |p| == 2 * len && i < len && Mirror(node) < 128
    ensures Join16(p, node)[i] == Barrett(Int16(p[i] + p[i + len]))
    ensures Join16(p, node)[i + len] == Mont(Table(Mirror(node)) * (p[i + len] - p[i]))
  {
    hide Mont, Table, Int16, Barrett, Mirror;
  }

  /** The sum of a pair, and its twiddled difference. */
  method Unbutterfly(r: array<int>, lo: nat, hi: nat, k: nat)
    requires lo < hi < r.Length && k < 128
    modifies r
    ensures r[..] == old(r[..])[lo := Barrett(Int16(old(r[lo]) + old(r[hi])))]
                                [hi := Mont(Table(k) * (old(r[hi]) - old(r[lo])))]
  {
    hide Mont, Table, Int16, Barrett;
    var zeta := Table(k);
    var t := r[lo];
    r[lo] := Barrett(Int16(t + r[hi]));
    r[hi] := Mont(zeta * (r[hi] - t));
  }

  /** The inner loop of inv_ntt on one block. */
  method BackwardBlock(r: array<int>, start: nat, len: nat, k: nat, ghost node: nat)
    requires start + 2 * len <= r.Length && k == Mirror(node) < 128
    modifies r
    ensures r[start..start + 2 * len] == Join16(old(r[start..start + 2 * len]), node)
    ensures r[..start] == old(r[..start]) && r[start + 2 * len..] == old(r[start + 2 * len..])
  {
    hide Mont, Table, Int16, Barrett, Mirror, Join16, Halfway;
    ghost var p, u := r[..], r[..][start..start + 2 * len];
    ghost var q := Join16(u, node);
    HalfwayStart(p, q, start, len);
    for j := start to start + len
      invariant Halfway(p, r[..], q, start, len, j - start)
    {
      HalfwayOn(p, r[..], q, start, len, j - start);
      JoinPair(u, node, len, j - start);
      Unbutterfly(r, j, j + len, k);
    }
    HalfwayAll(p, r[..], q, start, len);
    assert r[..][start..start + 2 * len] == r[start..start + 2 * len];
  }

  /** Within a level the mirrored index runs backward. */
  lemma {:induction false} MirrorIndex(d: nat, b: nat)
    requires b < Pow2(d)
    ensures Mirror(Pow2(d) + b) == 2 * Pow2(d) - 1 - b
  {
    if d > 0 {
      MirrorIndex(d - 1, b / 2);
      assert (Pow2(d) + b) / 2 == Pow2(d - 1) + b / 2 && (Pow2(d) + b) % 2 == b % 2;
    }
  }

  /** The middle loop of inv_ntt: one level, k counting down. */
  method BackwardLevel(r: array<int>, len: nat, k: int, ghost d: nat) returns (k1: int)
    requires r.Length == N && d < LEVELS && 2 * len == Pow2(8 - d) && k == 2 * Pow2(d) - 1
    modifies r
    ensures |old(r[..])| == Pow2(8) && r[..] == Level(Backward16, old(r[..]), 1, d, 8) && k1 == Pow2(d) - 1
  {
    hide Level, Pow2, Partly, Join16, End, Mirror;
    Eight();
    ghost var p := r[..];
    ghost var target := Level(Backward16, p, 1, d, 8);
    PartlyEnds(p, p, target);
    EndStart(2 * len, 0);
    k1 := k;
    var start := 0;
    ghost var blk := 0;
    TopLevel(d);
    while start < 256
      invariant start <= 256 && blk <= Pow2(d) && k1 == k - blk && End(2 * len, blk) == start + 2 * len
      invariant Partly(r[..], p, target, start)
      decreases 256 - start
    {
      BlocksLeft(d, blk, start);
      MirrorIndex(d, blk);
      BlockHere(Backward16, r[..], p, d, blk, start);
      ghost var q := r[..];
      assert q[start..start + 2 * len] == r[start..start + 2 * len];
      BackwardBlock(r, start, len, k1, Pow2(d) + blk);
      ghost var v := r[..];
      assert v[start..start + 2 * len] == r[start..start + 2 * len] && v[..start] == r[..start];
      assert v[start + 2 * len..] == r[start + 2 * len..] && q[start + 2 * len..] == v[start + 2 * len..];
      PartlyMore(q, v, p, target, start, start + 2 * len);
      EndStart(2 * len, blk + 1);
      start, k1, blk := start + 2 * len, k1 - 1, blk + 1;
    }
    BlocksLeft(d, blk, start);
    PartlyEnds(r[..], p, target);
  }

  /** Levels d - 1 down to 0 in sixteen bits. */
  function PassesBack(p: seq<int>, d: nat): (q: seq<int>)
    requires |p| == Pow2(8) && d <= LEVELS
    ensures |q| == |p|
    decreases d
  {
    if d == 0 then p else PassesBack(Level(Backward16, p, 1, d - 1, 8), d - 1)
  }

  function Scaled16(p: seq<int>): (q: seq<int>)
    ensures |q| == |p|
  {
    seq(|p|, i requires 0 <= i < |p| => Mont(1441 * p[i]))
  }

  /** What inv_ntt computes. */
  function Inverse16(p: seq<int>): (q: seq<int>)
    requires |p| == N
    ensures |q| == N
  {
    Eight();
    Scaled16(PassesBack(p, LEVELS))
  }

  /** inv_ntt, on any array. */
  method InvNttInPlace(r: array<int>)
    requires r.Length == N
    modifies r
    ensures r[..] == Inverse16(old(r[..]))
  {
    hide Level, Pow2, Mont;
    Eight();
    SmallPowers();
    ghost var p := r[..];
    var k: int, len := 127, 2;
    ghost var d: nat := LEVELS;
    FirstLevels();
    while len <= 128
      invariant d <= LEVELS && k == Pow2(d) - 1 && 2 * len == Pow2(9 - d)
      invariant PassesBack(r[..], d) == PassesBack(p, LEVELS)
      decreases d
    {
      LevelsToGo(d, len);
      HalfSize(d);
      HalfSize(10 - d);
      k := BackwardLevel(r, len, k, d - 1);
      len, d := 2 * len, d - 1;
    }
    LevelsToGo(d, len);
    ghost var q := r[..];
    for i := 0 to r.Length
      invariant forall j :: 0 <= j < r.Length ==> r[j] == if j < i then Mont(1441 * q[j]) else q[j]
    {
      r[i] := Mont(1441 * r[i]);
    }
    assert r[..] == Scaled16(q);
  }

  lemma FirstLevels()
    ensures Pow2(7) == 128 && Pow2(9 - LEVELS) == 4
  {
    hide Pow2;
    Seven();
    SmallPowers();
  }

  lemma LevelsToGo(d: nat, len: nat)
    requires d <= LEVELS && 2 * len == Pow2(9 - d)
    ensures len <= 128 <==> d > 0
  {
    hide Pow2;
    SmallPowers();
    Seven();
    Eight();
    HalfSize(9);
    if d > 0 {
      Pow2Monotone(9 - d, 8);
    }
  }

  // ---------------------------------------------------------------- what a level means

  /** s stands for p: the differences of the pairs are the same, and the sums are those of p in sixteen bits. */
  ghost predicate Stands(p: seq<int>, s: seq<int>) {
    |p| == |s| && forall i :: 0 <= i < |p| / 2 ==>
      s[i] + s[i + |p| / 2] == Int16(p[i] + p[i + |p| / 2]) && s[i + |p| / 2] - s[i] == p[i + |p| / 2] - p[i]
  }

  /** The same of every block, d levels below. */
  ghost predicate StandsBelow(p: seq<int>, s: seq<int>, d: nat) {
    |p| == |s|
    && if d == 0 then Stands(p, s)
       else
         StandsBelow(p[..|p| / 2], s[..|p| / 2], d - 1) && StandsBelow(p[|p| / 2..], s[|p| / 2..], d - 1)
  }

  lemma StandsHalves(p: seq<int>, s: seq<int>, d: nat)
    requires StandsBelow(p, s, d)
    ensures |s| == |p| && (d == 0 ==> Stands(p, s))
    ensures d > 0 ==> StandsBelow(p[..|p| / 2], s[..|p| / 2], d - 1) && StandsBelow(p[|p| / 2..], s[|p| / 2..], d - 1)
  {
    hide Stands;
  }

  /** One pair. */
  lemma JoinFits(m: nat, x: int, y: int)
    requires m < 128 && -INT16_SIZE <= x <= INT16_SIZE && -INT16_SIZE <= y <= INT16_SIZE
    ensures Same(Barrett(Int16(x + y)), Int16(x + y)) && -JOINED <= Barrett(Int16(x + y)) <= JOINED
    ensures Same(Mont(Table(m) * (y - x)), Zeta(m) * (y - x)) && -JOINED <= Mont(Table(m) * (y - x)) <= JOINED
  {
    hide Same, Mont, Barrett, Table, Zeta, Int16;
    BarrettReduces(Int16(x + y));
    Twiddle(m, y - x, 2 * INT16_SIZE);
  }

  /** One pair of a block. */
  lemma JoinAt(p: seq<int>, s: seq<int>, k: nat, i: nat)
    requires |p| % 2 == 0 && Mirror(k) < 128 && Within(p, INT16_SIZE) && Stands(p, s) && i < |p| / 2
    ensures var u, v, h := Join16(p, k), Join(s, k), |p| / 2;
            && Same(u[i], v[i]) && Same(u[i + h], v[i + h])
            && -JOINED <= u[i] <= JOINED && -JOINED <= u[i + h] <= JOINED
  {
    hide Same, Mont, Barrett, Table, Zeta, Int16, Mirror;
    JoinFits(Mirror(k), p[i], p[i + |p| / 2]);
  }

  lemma JoinMeans(p: seq<int>, s: seq<int>, k: nat)
    requires |p| % 2 == 0 && Mirror(k) < 128 && Within(p, INT16_SIZE) && Stands(p, s)
    ensures Alike(Join16(p, k), Join(s, k)) && Within(Join16(p, k), JOINED)
  {
    hide Same, Join, Join16, Mirror, Stands;
    StandsLength(p, s);
    forall i | 0 <= i < |p| ensures Same(Join16(p, k)[i], Join(s, k)[i]) && -JOINED <= Join16(p, k)[i] <= JOINED {
      JoinAt(p, s, k, if i < |p| / 2 then i else i - |p| / 2);
    }
  }

  lemma StandsLength(p: seq<int>, s: seq<int>)
    requires Stands(p, s)
    ensures |s| == |p|
  {
  }

  lemma {:induction false} LevelMeansBack(p: seq<int>, s: seq<int>, k: nat, d: nat, n: nat)
    requires d < n && |p| == Pow2(n) && InTree(k, d + 1) && Within(p, INT16_SIZE) && StandsBelow(p, s, d)
    ensures Alike(Level(Backward16, p, k, d, n), Level(Backward, s, k, d, n))
    ensures Within(Level(Backward16, p, k, d, n), JOINED)
    decreases d
  {
    hide Alike, Within, Join, Join16, InTree, Pow2, Stands, StandsBelow, Mirror, Level;
    HalfSize(n);
    ChildInTree(k, d + 1);
    StandsHalves(p, s, d);
    if d == 0 {
      LevelZero(Backward16, p, k, n);
      LevelZero(Backward, s, k, n);
      MirrorInTree(k);
      JoinMeans(p, s, k);
    } else {
      var h := Pow2(n - 1);
      WithinSlice(p, INT16_SIZE, 0, h);
      WithinSlice(p, INT16_SIZE, h, |p|);
      assert p[0..h] == p[..h] && p[h..|p|] == p[h..] && p == p[..h] + p[h..] && s == s[..h] + s[h..];
      LevelUnfold(Backward16, p[..h], p[h..], k, d, n);
      LevelUnfold(Backward, s[..h], s[h..], k, d, n);
      LevelMeansBack(p[..h], s[..h], 2 * k, d - 1, n - 1);
      LevelMeansBack(p[h..], s[h..], 2 * k + 1, d - 1, n - 1);
      var u, v := Level(Backward16, p[..h], 2 * k, d - 1, n - 1), Level(Backward16, p[h..], 2 * k + 1, d - 1, n - 1);
      AlikeConcat(u, Level(Backward, s[..h], 2 * k, d - 1, n - 1), v, Level(Backward, s[h..], 2 * k + 1, d - 1, n - 1));
      WithinConcat(u, v, JOINED);
    }
  }

  lemma MirrorInTree(k: nat)
    requires 1 <= k < 128
    ensures Mirror(k) < 128
  {
    hide Pow2;
    Seven();
    MirrorLevel(k, 7);
  }

  /** Small coefficients stand for themselves. */
  lemma {:induction false} SmallStand(p: seq<int>, d: nat)
    requires Within(p, SUMMABLE)
    ensures StandsBelow(p, p, d)
    decreases d
  {
    if d == 0 {
      forall i | 0 <= i < |p| / 2 ensures Int16(p[i] + p[i + |p| / 2]) == p[i] + p[i + |p| / 2] {
        Int16Exact(p[i] + p[i + |p| / 2]);
      }
    } else {
      SmallStand(p[..|p| / 2], d - 1);
      SmallStand(p[|p| / 2..], d - 1);
    }
  }

  /** Levels after the first, whose results are small. */
  lemma {:induction false} PassesBackMean(p: seq<int>, d: nat)
    requires |p| == Pow2(8) && d <= LEVELS && Within(p, JOINED)
    ensures Alike(PassesBack(p, d), InvNtt(p, 1, d, 8)) && Within(PassesBack(p, d), JOINED)
    decreases d
  {
    hide Level, Alike, Pow2, Within, InvNtt, InTree;
    if d == 0 {
      InvNone(p);
      AlikeRefl(p);
    } else {
      RootInTree(d);
      SmallIsShort(p);
      SmallStand(p, d - 1);
      LevelMeansBack(p, p, 1, d - 1, 8);
      var q := Level(Backward16, p, 1, d - 1, 8);
      PassesBackMean(q, d - 1);
      InvLevel(p, 1, d - 1, 8);
      InvAlike(q, Level(Backward, p, 1, d - 1, 8), 1, d - 1, 8);
      AlikeTrans(PassesBack(p, d), InvNtt(q, 1, d - 1, 8), InvNtt(p, 1, d, 8));
    }
  }

  lemma SmallIsShort(p: seq<int>)
    requires Within(p, JOINED)
    ensures Within(p, SUMMABLE) && Within(p, INT16_SIZE)
  {
  }

  lemma InvNone(p: seq<int>)
    requires |p| == Pow2(8)
    ensures InvNtt(p, 1, 0, 8) == p
  {
  }

  // ---------------------------------------------------------------- the first level

  /** Half of what a sum loses or gains in sixteen bits. */
  function Excess(x: int): (e: int)
    requires -2 * INT16_SIZE <= x <= 2 * INT16_SIZE
    ensures x + 2 * e == Int16(x) && (e == -INT16_SIZE || e == 0 || e == INT16_SIZE)
    ensures e == 0 <==> -0x8000 <= x < 0x8000
  {
    if x < -0x8000 then INT16_SIZE else if x < 0x8000 then 0 else -INT16_SIZE
  }

  /** The first of the pair of i, at distance two in blocks of four. */
  function PairOf(i: nat): (j: nat)
    ensures j <= i && j % 4 < 2 && (i == j || i == j + 2) && (i % 4 < 2 <==> i == j)
  {
    if i % 4 < 2 then i else i - 2
  }

  /** Coefficients whose pairs have the sums that the first level computes, and the differences of those of p. */
  function Settled(p: seq<int>): (s: seq<int>)
    requires |p| % 4 == 0 && Within(p, INT16_SIZE)
    ensures |s| == |p|
  {
    seq(|p|, i requires 0 <= i < |p| => p[i] + Excess(p[PairOf(i)] + p[PairOf(i) + 2]))
  }

  /** The condition under which inv_ntt is right: the sums of the first level fit. */
  predicate PairsFit(p: seq<int>) {
    |p| % 4 == 0 && forall i: nat :: i + 2 < |p| && i % 4 < 2 ==> -0x8000 <= PairSum(p, i) < 0x8000
  }

  lemma SettledAt(p: seq<int>, i: nat)
    requires |p| % 4 == 0 && Within(p, INT16_SIZE) && i < |p|
    ensures PairOf(i) + 2 < |p| && -2 * INT16_SIZE <= p[PairOf(i)] + p[PairOf(i) + 2] <= 2 * INT16_SIZE
    ensures Settled(p)[i] == p[i] + Excess(p[PairOf(i)] + p[PairOf(i) + 2])
  {
    hide Excess;
  }

  lemma SettledSlice(p: seq<int>, lo: nat, hi: nat)
    requires |p| % 4 == 0 && Within(p, INT16_SIZE) && lo <= hi <= |p| && lo % 4 == 0 && hi % 4 == 0
    ensures Within(p[lo..hi], INT16_SIZE) && Settled(p)[lo..hi] == Settled(p[lo..hi])
  {
    hide Excess, Settled, PairOf;
    forall i | 0 <= i < hi - lo ensures Settled(p)[lo..hi][i] == Settled(p[lo..hi])[i] {
      assert PairOf(lo + i) == lo + PairOf(i);
      SettledAt(p, lo + i);
      SettledAt(p[lo..hi], i);
    }
  }

  lemma FourStand(p: seq<int>)
    requires |p| == 4 && Within(p, INT16_SIZE)
    ensures Stands(p, Settled(p))
  {
    hide Settled, Int16;
    SettledAt(p, 0);
    SettledAt(p, 1);
    SettledAt(p, 2);
    SettledAt(p, 3);
  }

  lemma FourDivides(d: nat)
    ensures Pow2(d + 2) % 4 == 0 && (d == 0 ==> Pow2(d + 2) == 4)
  {
    assert Pow2(d + 2) == 2 * Pow2(d + 1) == 4 * Pow2(d);
  }

  lemma {:induction false} SettledStands(p: seq<int>, d: nat)
    requires |p| == Pow2(d + 2) && Within(p, INT16_SIZE)
    ensures |p| % 4 == 0 && StandsBelow(p, Settled(p), d)
    decreases d
  {
    hide Settled, Stands, Pow2, Within;
    FourDivides(d);
    if d == 0 {
      FourStand(p);
    } else {
      HalfSize(d + 2);
      FourDivides(d - 1);
      var h := |p| / 2;
      SettledSlice(p, 0, h);
      SettledSlice(p, h, |p|);
      assert p[0..h] == p[..h] && p[h..|p|] == p[h..];
      assert Settled(p)[0..h] == Settled(p)[..h] && Settled(p)[h..|p|] == Settled(p)[h..];
      SettledStands(p[..h], d - 1);
      SettledStands(p[h..], d - 1);
    }
  }

  lemma ScaleOne(x: int)
    requires -SUMMABLE <= x <= SUMMABLE
    ensures Same(Mont(1441 * x), SCALING * x) && -2025 <= Mont(1441 * x) <= 2025
  {
    hide Same, Mont;
    MontReduces(1441 * x, 1441 * SUMMABLE);
    Associate(RINV, 1441, x);
    assert Same(RINV * 1441, SCALING) by { ScalingIs(); }
    Refl(x);
    SameMul(RINV * 1441, SCALING, x, x);
    SameTrans(Mont(1441 * x), RINV * 1441 * x, SCALING * x);
  }

  lemma ScalingIs()
    ensures Same(RINV * 1441, SCALING)
  {
  }

  /** 1441 * 2^-16 modulo q. */
  const SCALING: int := 512

  /** For any sixteen-bit array inv_ntt gives 512 times the inverse transform of what its first level has added up. */
  lemma InverseMeans(p: seq<int>)
    requires |p| == N && Within(p, INT16_SIZE)
    ensures Alike(Inverse16(p), Scale(SCALING, FullInverse(Settled(p)))) && Within(Inverse16(p), 2025)
  {
    hide Level, Alike, Pow2, Within, InvNtt, InTree, Settled, StandsBelow, PassesBack, Same, Mont;
    Eight();
    RootInTree(LEVELS);
    SettledStands(p, LEVELS - 1);
    LevelMeansBack(p, Settled(p), 1, LEVELS - 1, 8);
    var q := Level(Backward16, p, 1, LEVELS - 1, 8);
    PassFirst(p, LEVELS);
    PassesBackMean(q, LEVELS - 1);
    InvLevel(Settled(p), 1, LEVELS - 1, 8);
    InvAlike(q, Level(Backward, Settled(p), 1, LEVELS - 1, 8), 1, LEVELS - 1, 8);
    AlikeTrans(PassesBack(p, LEVELS), InvNtt(q, 1, LEVELS - 1, 8), FullInverse(Settled(p)));
    ScaledMeans(PassesBack(p, LEVELS), FullInverse(Settled(p)));
  }

  lemma PassFirst(p: seq<int>, d: nat)
    requires |p| == Pow2(8) && 0 < d <= LEVELS
    ensures PassesBack(p, d) == PassesBack(Level(Backward16, p, 1, d - 1, 8), d - 1)
  {
    hide Level, Pow2;
  }

  lemma ScaledMeans(p: seq<int>, q: seq<int>)
    requires Alike(p, q) && Within(p, JOINED)
    ensures Alike(Scaled16(p), Scale(SCALING, q)) && Within(Scaled16(p), 2025)
  {
    hide Same, Mont;
    forall i | 0 <= i < |p| ensures Same(Scaled16(p)[i], Scale(SCALING, p)[i]) && -2025 <= Scaled16(p)[i] <= 2025 {
      ScaleOne(p[i]);
    }
    ScaleAlike(SCALING, p, q);
    AlikeTrans(Scaled16(p), Scale(SCALING, p), Scale(SCALING, q));
  }

  // ---------------------------------------------------------------- exactly when it is right

  /** Splitting what was joined gives twice the block. */
  lemma SplitJoin(p: seq<int>, k: nat)
    requires 1 <= k < 128 && |p| % 2 == 0
    ensures Alike(Split(Join(p, k), k), Scale(2, p))
  {
    hide Same, Zeta, Mirror;
    var h, z, y := |p| / 2, Zeta(k), Zeta(Mirror(k));
    var s := Join(p, k);
    MirrorZeta(k);
    forall i | 0 <= i < |p| ensures Same(Split(s, k)[i], 2 * p[i]) {
      var a, b := p[if i < h then i else i - h], p[if i < h then i + h else i];
      assert Split(s, k)[i] == if i < h then a + b + z * (y * (b - a)) else a + b + -z * (y * (b - a));
      TwiceForth(a, b, z, y);
    }
  }

  lemma TwiceForth(a: int, b: int, z: int, y: int)
    requires Same(z * y, -1)
    ensures Same(a + b + z * (y * (b - a)), 2 * a) && Same(a + b + -z * (y * (b - a)), 2 * b)
  {
    var t := Witness(z * y, -1);
    Associate(z, y, b - a);
    assert z * (y * (b - a)) == (t * Q - 1) * (b - a);
    Multiple(a + b + z * (y * (b - a)), 2 * a, t * (b - a));
    Multiple(a + b + -z * (y * (b - a)), 2 * b, -t * (b - a));
  }

  lemma HalvesAlike(p: seq<int>, q: seq<int>, h: nat)
    requires Alike(p, q) && h <= |p|
    ensures Alike(p[..h], q[..h]) && Alike(p[h..], q[h..])
  {
  }

  /** Transforming what was transformed back gives the same multiple. */
  lemma {:induction false} TransformUndoes(p: seq<int>, k: nat, d: nat, n: nat)
    requires d <= n && |p| == Pow2(n) && InTree(k, d)
    ensures Alike(Ntt(InvNtt(p, k, d, n), k, d, n), Scale(Pow2(d), p))
    decreases d
  {
    hide Same, Zeta, Join, Fold, Alike, InTree, Scale, Ntt, InvNtt, Pow2;
    HalfSize(d + 1);
    if d == 0 {
      NothingUndone(p, k, n);
    } else {
      HalfSize(n);
      ChildInTree(k, d);
      var h, w := Pow2(n - 1), Pow2(d - 1);
      var lo, hi := p[..h], p[h..];
      assert p == lo + hi;
      InvUnfold(lo, hi, k, d, n);
      var a, b := InvNtt(lo, 2 * k, d - 1, n - 1), InvNtt(hi, 2 * k + 1, d - 1, n - 1);
      var q := Join(a + b, k);
      NttUnfold(q, k, d, n);
      SplitJoin(a + b, k);
      SplitHalves(q, a, b, k);
      TransformUndoes(lo, 2 * k, d - 1, n - 1);
      TransformUndoes(hi, 2 * k + 1, d - 1, n - 1);
      DoubledBack(Fold(q, Zeta(k)), a, lo, 2 * k, d - 1, n - 1);
      DoubledBack(Fold(q, -Zeta(k)), b, hi, 2 * k + 1, d - 1, n - 1);
      AlikeConcat(Ntt(Fold(q, Zeta(k)), 2 * k, d - 1, n - 1), Scale(2 * w, lo),
                  Ntt(Fold(q, -Zeta(k)), 2 * k + 1, d - 1, n - 1), Scale(2 * w, hi));
      ScaleConcat(2 * w, lo, hi);
      HalfSize(d);
    }
  }

  lemma NothingUndone(p: seq<int>, k: nat, n: nat)
    requires |p| == Pow2(n)
    ensures Alike(Ntt(InvNtt(p, k, 0, n), k, 0, n), Scale(Pow2(0), p))
  {
    assert Scale(1, p) == p;
  }

  lemma SplitHalves(q: seq<int>, a: seq<int>, b: seq<int>, k: nat)
    requires |q| == 2 * |a| && |a| == |b| && Alike(Split(q, k), Scale(2, a + b))
    ensures Alike(Fold(q, Zeta(k)), Scale(2, a)) && Alike(Fold(q, -Zeta(k)), Scale(2, b))
  {
    hide Same, Zeta, Fold;
    HalvesAlike(Split(q, k), Scale(2, a + b), |a|);
    assert Split(q, k)[..|a|] == Fold(q, Zeta(k)) && Split(q, k)[|a|..] == Fold(q, -Zeta(k));
    assert Scale(2, a + b)[..|a|] == Scale(2, a) && Scale(2, a + b)[|a|..] == Scale(2, b);
  }

  lemma DoubledBack(q: seq<int>, a: seq<int>, p: seq<int>, k: nat, d: nat, n: nat)
    requires d <= n && |p| == |a| == Pow2(n) && Alike(q, Scale(2, a)) && Alike(Ntt(a, k, d, n), Scale(Pow2(d), p))
    ensures |q| == |p| && Alike(Ntt(q, k, d, n), Scale(2 * Pow2(d), p))
  {
    hide Same, Alike, Ntt, Pow2, Scale;
    AlikeLength(q, Scale(2, a));
    NttAlike(q, Scale(2, a), k, d, n);
    NttScale(2, a, k, d, n);
    ScaleAlike(2, Ntt(a, k, d, n), Scale(Pow2(d), p));
    AlikeTrans(Ntt(q, k, d, n), Scale(2, Ntt(a, k, d, n)), Scale(2, Scale(Pow2(d), p)));
    ScaleScale(2, Pow2(d), p);
  }

  lemma ScaleScale(c: int, e: int, p: seq<int>)
    ensures Scale(c, Scale(e, p)) == Scale(c * e, p)
  {
    forall i | 0 <= i < |p| ensures Scale(c, Scale(e, p))[i] == Scale(c * e, p)[i] {
      Associate(c, e, p[i]);
    }
  }

  /** 2^16 has an inverse modulo q. */
  lemma CancelScale(p: seq<int>, q: seq<int>)
    requires Alike(Scale(0x1_0000, p), Scale(0x1_0000, q))
    ensures Alike(p, q)
  {
    hide Same;
    forall i | 0 <= i < |p| ensures Same(p[i], q[i]) {
      assert Same(Scale(0x1_0000, p)[i], Scale(0x1_0000, q)[i]);
      CancelOne(p[i], q[i]);
    }
  }

  lemma CancelOne(x: int, y: int)
    requires Same(0x1_0000 * x, 0x1_0000 * y)
    ensures Same(x, y)
  {
    var t := Witness(0x1_0000 * x, 0x1_0000 * y);
    assert RINV * 0x1_0000 == 1 + 3327 * Q;
    Multiple(x, y, RINV * t - 3327 * (x - y));
  }

  /** The inverse transform, and 512 times it, take incongruent arrays to incongruent ones. */
  lemma InverseInjective(p: seq<int>, q: seq<int>)
    requires |p| == |q| == N && Alike(Scale(SCALING, FullInverse(p)), Scale(SCALING, FullInverse(q)))
    ensures Alike(p, q)
  {
    hide Same, Alike, Ntt, InvNtt, Pow2, Scale, InTree;
    Eight();
    RootInTree(LEVELS);
    var a, b := FullInverse(p), FullInverse(q);
    NttAlike(Scale(SCALING, a), Scale(SCALING, b), 1, LEVELS, 8);
    NttScale(SCALING, a, 1, LEVELS, 8);
    NttScale(SCALING, b, 1, LEVELS, 8);
    BackAndForth(p);
    BackAndForth(q);
    AlikeSym(Scale(SCALING, Full(a)), Scale(0x1_0000, p));
    AlikeTrans(Scale(0x1_0000, p), Scale(SCALING, Full(a)), Scale(SCALING, Full(b)));
    AlikeTrans(Scale(0x1_0000, p), Scale(SCALING, Full(b)), Scale(0x1_0000, q));
    CancelScale(p, q);
  }

  lemma BackAndForth(p: seq<int>)
    requires |p| == N
    ensures Alike(Scale(SCALING, Full(FullInverse(p))), Scale(0x1_0000, p))
  {
    hide Same, Alike, Ntt, InvNtt, Pow2, Scale, InTree;
    Eight();
    RootInTree(LEVELS);
    TransformUndoes(p, 1, LEVELS, 8);
    ScaleAlike(SCALING, Full(FullInverse(p)), Scale(128, p));
    ScaleScale(SCALING, 128, p);
  }

  /** 32768 is not a multiple of q, so that a sum that does not fit changes its residue. */
  lemma SettledIsAlike(p: seq<int>)
    requires |p| % 4 == 0 && Within(p, INT16_SIZE)
    ensures Alike(Settled(p), p) <==> PairsFit(p)
    ensures PairsFit(p) ==> Settled(p) == p
  {
    hide Settled, Excess, PairOf;
    forall i | 0 <= i < |p| ensures Same(Settled(p)[i], p[i]) ==> Settled(p)[i] == p[i] {
      SettledAt(p, i);
      NoMultiple(p[i], Excess(p[PairOf(i)] + p[PairOf(i) + 2]));
    }
    if Alike(Settled(p), p) {
      forall i: nat | i + 2 < |p| && i % 4 < 2 ensures -0x8000 <= PairSum(p, i) < 0x8000 {
        SettledAt(p, i);
        assert Same(Settled(p)[i], p[i]) && PairOf(i) == i;
      }
    }
    if PairsFit(p) {
      forall i | 0 <= i < |p| ensures Settled(p)[i] == p[i] {
        SettledAt(p, i);
        assert -0x8000 <= PairSum(p, PairOf(i)) < 0x8000;
      }
      AlikeRefl(p);
    }
  }

  lemma NoMultiple(x: int, e: int)
    requires e == -INT16_SIZE || e == 0 || e == INT16_SIZE
    ensures Same(x + e, x) ==> e == 0
  {
    assert x + e - x == e;
  }

  /** inv_ntt gives 512 times the inverse transform exactly when the sums of its first level fit sixteen bits. */
  lemma InverseExact(p: seq<int>)
    requires |p| == N && Within(p, INT16_SIZE)
    ensures Alike(Inverse16(p), Scale(SCALING, FullInverse(p))) <==> PairsFit(p)
  {
    hide Same, Alike, Settled, PairsFit, Inverse16, FullInverse, Scale;
    InverseMeans(p);
    SettledIsAlike(p);
    if Alike(Inverse16(p), Scale(SCALING, FullInverse(p))) {
      AlikeSym(Inverse16(p), Scale(SCALING, FullInverse(Settled(p))));
      AlikeTrans(Scale(SCALING, FullInverse(Settled(p))), Inverse16(p), Scale(SCALING, FullInverse(p)));
      InverseInjective(Settled(p), p);
    }
  }

  /** Reduced input is never in question. */
  lemma SmallPairsFit(p: seq<int>)
    requires |p| == N && Within(p, SUMMABLE)
    ensures Within(p, INT16_SIZE) && PairsFit(p)
  {
  }
}
