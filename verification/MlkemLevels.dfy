/** The transforms level by level, as the in-place loops run, against the tree. */
module MlkemLevels {
  import opened Arithmetic
  import opened Bits
  import opened MlkemField
  import opened MlkemZetas
  import opened MlkemTransform

  /** The transform and its inverse over the integers, and as they are computed in sixteen bits. */
  datatype Op = Forward | Backward | Forward16 | Backward16

  /** The twiddle factor of node k. */
  function Twist(k: nat): (z: int)
    ensures -1517 <= z <= 3321
  {
    if k < 128 then Table(k) else 0
  }

  /** The butterflies of ntt on one block. */
  function Split16(p: seq<int>, k: nat): (r: seq<int>)
    ensures |r| == |p| / 2 * 2
  {
    var h := |p| / 2;
    seq(h, i requires 0 <= i < h => Int16(p[i] + Mont(Twist(k) * p[i + h])))
    + seq(h, i requires 0 <= i < h => Int16(p[i] - Mont(Twist(k) * p[i + h])))
  }

  /** The butterflies of inv_ntt on one block, with the zeta met from the other end. */
  function Join16(p: seq<int>, k: nat): (r: seq<int>)
    ensures |r| == |p| / 2 * 2
  {
    var h := |p| / 2;
    seq(h, i requires 0 <= i < h => Barrett(Int16(p[i] + p[i + h])))
    + seq(h, i requires 0 <= i < h => Mont(Twist(Mirror(k)) * (p[i + h] - p[i])))
  }

  /** What one node does to its block. */
  function Apply(op: Op, p: seq<int>, k: nat): (r: seq<int>)
    ensures |p| % 2 == 0 ==> |r| == |p|
  {
    match op
    case Forward => Split(p, k)
    case Backward => Join(p, k)
    case Forward16 => Split16(p, k)
    case Backward16 => Join16(p, k)
  }

  /** One level: all nodes d below k work on their blocks. */
  function Level(op: Op, p: seq<int>, k: nat, d: nat, n: nat): (r: seq<int>)
    requires d < n && |p| == Pow2(n)
    ensures |r| == |p|
    decreases d, p
  {
    if d == 0 then Apply(op, p, k)
    else
      var h := Pow2(n - 1);
      Level(op, p[..h], 2 * k, d - 1, n - 1) + Level(op, p[h..], 2 * k + 1, d - 1, n - 1)
  }

  lemma LevelZero(op: Op, p: seq<int>, k: nat, n: nat)
    requires 0 < n && |p| == Pow2(n)
    ensures Level(op, p, k, 0, n) == Apply(op, p, k)
  {
  }

  lemma LevelUnfold(op: Op, a: seq<int>, b: seq<int>, k: nat, d: nat, n: nat)
    requires 0 < d < n && |a| == |b| == Pow2(n - 1)
    ensures Level(op, a + b, k, d, n) == Level(op, a, 2 * k, d - 1, n - 1) + Level(op, b, 2 * k + 1, d - 1, n - 1)
  {
    assert (a + b)[..|a|] == a && (a + b)[|a|..] == b;
  }

  /** One more level of the transform is one more pass over all blocks. */
  lemma {:induction false} NttLevel(p: seq<int>, k: nat, d: nat, n: nat)
    requires d < n && |p| == Pow2(n)
    ensures Ntt(p, k, d + 1, n) == Level(Forward, Ntt(p, k, d, n), k, d, n)
    decreases d
  {
    hide Fold, Zeta, Pow2, Level;
    HalfSize(n);
    NttUnfold(p, k, d + 1, n);
    var lo, hi := Fold(p, Zeta(k)), Fold(p, -Zeta(k));
    if d == 0 {
      FirstLevel(p, k, n);
    } else {
      NttLevel(lo, 2 * k, d - 1, n - 1);
      NttLevel(hi, 2 * k + 1, d - 1, n - 1);
      NttUnfold(p, k, d, n);
      LevelUnfold(Forward, Ntt(lo, 2 * k, d - 1, n - 1), Ntt(hi, 2 * k + 1, d - 1, n - 1), k, d, n);
    }
  }

  lemma FirstLevel(p: seq<int>, k: nat, n: nat)
    requires 0 < n && |p| == Pow2(n)
    ensures Level(Forward, p, k, 0, n) == Fold(p, Zeta(k)) + Fold(p, -Zeta(k))
  {
  }

  /** The inverse starts with the deepest level. */
  lemma {:induction false} InvLevel(p: seq<int>, k: nat, d: nat, n: nat)
    requires d < n && |p| == Pow2(n)
    ensures InvNtt(p, k, d + 1, n) == InvNtt(Level(Backward, p, k, d, n), k, d, n)
    decreases d
  {
    hide Join, Zeta, Pow2, InvNtt, Level;
    HalfSize(n);
    var h := Pow2(n - 1);
    var lo, hi := p[..h], p[h..];
    assert p == lo + hi;
    InvUnfold(lo, hi, k, d + 1, n);
    if d == 0 {
      LastLevel(p, lo, hi, k, n);
    } else {
      InvLevel(lo, 2 * k, d - 1, n - 1);
      InvLevel(hi, 2 * k + 1, d - 1, n - 1);
      LevelUnfold(Backward, lo, hi, k, d, n);
      InvUnfold(Level(Backward, lo, 2 * k, d - 1, n - 1), Level(Backward, hi, 2 * k + 1, d - 1, n - 1), k, d, n);
    }
  }

  lemma InvUnfold(a: seq<int>, b: seq<int>, k: nat, d: nat, n: nat)
    requires 0 < d <= n && |a| == |b| == Pow2(n - 1)
    ensures InvNtt(a + b, k, d, n) == Join(InvNtt(a, 2 * k, d - 1, n - 1) + InvNtt(b, 2 * k + 1, d - 1, n - 1), k)
  {
    assert (a + b)[..|a|] == a && (a + b)[|a|..] == b;
  }

  lemma LastLevel(p: seq<int>, lo: seq<int>, hi: seq<int>, k: nat, n: nat)
    requires n > 0 && |lo| == |hi| == Pow2(n - 1) && p == lo + hi
    ensures Join(InvNtt(lo, 2 * k, 0, n - 1) + InvNtt(hi, 2 * k + 1, 0, n - 1), k)
            == InvNtt(Level(Backward, p, k, 0, n), k, 0, n)
  {
  }

  lemma {:induction false} LevelAlike(op: Op, p: seq<int>, q: seq<int>, k: nat, d: nat, n: nat)
    requires (op == Forward || op == Backward) && d < n && |p| == Pow2(n) && Alike(p, q)
    ensures |q| == |p| && Alike(Level(op, p, k, d, n), Level(op, q, k, d, n))
    decreases d
  {
    hide Alike, Fold, Join, Zeta, Pow2;
    AlikeLength(p, q);
    HalfSize(n);
    if d == 0 {
      ApplyAlike(op, p, q, k);
    } else {
      var h := Pow2(n - 1);
      AlikeSlice(p, q, 0, h);
      AlikeSlice(p, q, h, 2 * h);
      assert p[h..2 * h] == p[h..] && q[h..2 * h] == q[h..];
      LevelAlike(op, p[..h], q[..h], 2 * k, d - 1, n - 1);
      LevelAlike(op, p[h..], q[h..], 2 * k + 1, d - 1, n - 1);
      AlikeConcat(Level(op, p[..h], 2 * k, d - 1, n - 1), Level(op, q[..h], 2 * k, d - 1, n - 1),
                  Level(op, p[h..], 2 * k + 1, d - 1, n - 1), Level(op, q[h..], 2 * k + 1, d - 1, n - 1));
    }
  }

  lemma ApplyAlike(op: Op, p: seq<int>, q: seq<int>, k: nat)
    requires (op == Forward || op == Backward) && Alike(p, q)
    ensures Alike(Apply(op, p, k), Apply(op, q, k))
  {
    hide Alike, Fold, Join, Zeta;
    Refl(Zeta(k));
    Refl(-Zeta(k));
    FoldAlike(p, q, Zeta(k), Zeta(k));
    FoldAlike(p, q, -Zeta(k), -Zeta(k));
    AlikeConcat(Fold(p, Zeta(k)), Fold(q, Zeta(k)), Fold(p, -Zeta(k)), Fold(q, -Zeta(k)));
    JoinAlike(p, q, k);
  }

  /** Where block b of size m ends. */
  function End(m: nat, b: nat): (e: nat) { (b + 1) * m }

  lemma EndStart(m: nat, b: nat)
    ensures End(m, b) >= m && (b > 0 ==> End(m, b) - m == End(m, b - 1)) && (b == 0 ==> End(m, b) == m)
  {
    Distribute(m, b, 1);
  }

  lemma EndFits(m: nat, b: nat, c: nat)
    requires b < c
    ensures End(m, b) <= c * m
  {
    MulMonotone(m, b + 1, c);
  }

  lemma EndRight(m: nat, b: nat, c: nat)
    requires c <= b
    ensures End(m, b) == c * m + End(m, b - c)
  {
    Distribute(m, c, b - c + 1);
  }

  /** Block b of size m. */
  function Block(p: seq<int>, m: nat, b: nat): (r: seq<int>)
    requires End(m, b) <= |p|
    ensures |r| == m
  {
    EndStart(m, b);
    p[End(m, b) - m..End(m, b)]
  }

  lemma BlockLeft(u: seq<int>, v: seq<int>, m: nat, b: nat)
    requires End(m, b) <= |u|
    ensures Block(u + v, m, b) == Block(u, m, b)
  {
    hide End;
    EndStart(m, b);
  }

  lemma BlockRight(u: seq<int>, v: seq<int>, m: nat, c: nat, b: nat)
    requires |u| == c * m && c <= b && End(m, b) <= |u + v|
    ensures End(m, b - c) <= |v| && Block(u + v, m, b) == Block(v, m, b - c)
  {
    hide End;
    EndRight(m, b, c);
    EndStart(m, b - c);
    var e := End(m, b - c);
    assert (u + v)[|u| + e - m..|u| + e] == v[e - m..e];
  }

  lemma WholeBlock(p: seq<int>)
    ensures End(|p|, 0) == |p| && Block(p, |p|, 0) == p
  {
    EndStart(|p|, 0);
  }

  /** The node of block b, d levels below k. */
  function NodeAt(k: nat, d: nat, b: nat): (j: nat) { k * Pow2(d) + b }

  lemma NodeHalves(k: nat, d: nat, b: nat)
    requires d > 0
    ensures NodeAt(k, d, b) == NodeAt(2 * k, d - 1, b)
    ensures b >= Pow2(d - 1) ==> NodeAt(k, d, b) == NodeAt(2 * k + 1, d - 1, b - Pow2(d - 1))
  {
    var c := Pow2(d - 1);
    Associate(k, 2, c);
    Distribute(c, 2 * k, 1);
  }

  /** In one level, block b is worked on by node k * 2^d + b. */
  lemma {:induction false} LevelBlock(op: Op, p: seq<int>, k: nat, d: nat, n: nat, b: nat)
    requires d < n && |p| == Pow2(n) && b < Pow2(d)
    ensures End(Pow2(n - d), b) <= |p|
    ensures Block(Level(op, p, k, d, n), Pow2(n - d), b) == Apply(op, Block(p, Pow2(n - d), b), NodeAt(k, d, b))
    decreases d
  {
    hide Apply, Pow2, Level, Block, End, NodeAt;
    var m := Pow2(n - d);
    Sizes(d, n);
    EndFits(m, b, Pow2(d));
    if d == 0 {
      OnlyBlock(op, p, k, n, b);
    } else {
      HalfSize(n);
      HalfSize(d);
      Sizes(d - 1, n - 1);
      NodeHalves(k, d, b);
      var h, c := Pow2(n - 1), Pow2(d - 1);
      var lo, hi := p[..h], p[h..];
      assert p == lo + hi;
      LevelUnfold(op, lo, hi, k, d, n);
      var u, v := Level(op, lo, 2 * k, d - 1, n - 1), Level(op, hi, 2 * k + 1, d - 1, n - 1);
      if b < c {
        LevelBlock(op, lo, 2 * k, d - 1, n - 1, b);
        BlockLeft(lo, hi, m, b);
        BlockLeft(u, v, m, b);
      } else {
        LevelBlock(op, hi, 2 * k + 1, d - 1, n - 1, b - c);
        BlockRight(lo, hi, m, c, b);
        BlockRight(u, v, m, c, b);
      }
    }
  }

  lemma Sizes(d: nat, n: nat)
    requires d <= n
    ensures Pow2(d) * Pow2(n - d) == Pow2(n)
  {
    Pow2Add(d, n - d);
  }

  lemma OnlyBlock(op: Op, p: seq<int>, k: nat, n: nat, b: nat)
    requires 0 < n && |p| == Pow2(n) && b < Pow2(0)
    ensures End(Pow2(n), b) <= |p|
    ensures Block(Level(op, p, k, 0, n), Pow2(n), b) == Apply(op, Block(p, Pow2(n), b), NodeAt(k, 0, b))
  {
    hide Apply, End;
    assert b == 0 && NodeAt(k, 0, 0) == k;
    WholeBlock(p);
    WholeBlock(Level(op, p, k, 0, n));
  }
}
