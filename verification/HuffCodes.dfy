/** Canonical codes: assignment, reversal for LSB-first storage, and why they are prefix-free. */
module HuffCodes {
  import opened Arithmetic
  import opened Bits
  import opened HuffTree
  import opened HuffLengths

  /** How many of the first n symbols have length l. */
  function CountLen(lens: seq<nat>, l: nat, n: nat): (c: nat)
    requires n <= |lens|
    ensures c <= n
  {
    if n == 0 then 0 else CountLen(lens, l, n - 1) + (if lens[n - 1] == l then 1 else 0)
  }

  lemma {:induction false} CountLenMonotone(lens: seq<nat>, l: nat, m: nat, n: nat)
    requires m <= n <= |lens|
    ensures CountLen(lens, l, m) <= CountLen(lens, l, n)
  {
    if m < n {
      CountLenMonotone(lens, l, m, n - 1);
    }
  }

  /** bl_count: absent symbols are not counted. */
  function BlCount(lens: seq<nat>, l: nat): (c: nat) { if l == 0 then 0 else CountLen(lens, l, |lens|) }

  /** next_code in sixteen bits. */
  function NextCode(lens: seq<nat>, l: nat): (c: nat)
    ensures c < 0x1_0000
  {
    if l == 0 then 0 else 2 * (NextCode(lens, l - 1) + BlCount(lens, l - 1)) % 0x1_0000
  }

  /** The canonical code of a symbol, most significant bit first. */
  function Canon(lens: seq<nat>, s: nat): (c: nat)
    requires s < |lens|
    ensures c < 0x1_0000
  {
    if lens[s] == 0 then 0 else (NextCode(lens, lens[s]) + CountLen(lens, lens[s], s)) % 0x1_0000
  }

  /** The code as it is written to the stream. */
  function Code(lens: seq<nat>, s: nat): (c: nat)
    requires s < |lens|
    ensures c < Pow2(lens[s])
  {
    Rev(Canon(lens, s), lens[s])
  }

  // ---------------------------------------------------------------- the code space

  /** What symbols below n of lengths 1 to l take of the code space. */
  function Taken(lens: seq<nat>, l: nat, n: nat): (t: nat)
    requires n <= |lens|
  {
    if n == 0 then 0 else Taken(lens, l, n - 1) + (if lens[n - 1] <= l then Weigh(MAX_LEN, lens[n - 1]) else 0)
  }

  lemma {:induction false} TakenIsKraft(lens: seq<nat>, n: nat)
    requires n <= |lens| && forall s :: 0 <= s < |lens| ==> lens[s] <= MAX_LEN
    ensures Taken(lens, MAX_LEN, n) == Sum(Weighs(MAX_LEN, lens), 0, n)
  {
    if n > 0 {
      TakenIsKraft(lens, n - 1);
      SumLast(Weighs(MAX_LEN, lens), 0, n);
    }
  }

  lemma {:induction false} TakenMonotone(lens: seq<nat>, k: nat, l: nat, n: nat)
    requires k <= l && n <= |lens|
    ensures Taken(lens, k, n) <= Taken(lens, l, n)
  {
    if n > 0 {
      TakenMonotone(lens, k, l, n - 1);
    }
  }

  lemma {:induction false} TakenLevel(lens: seq<nat>, l: nat, n: nat)
    requires 1 <= l <= MAX_LEN && n <= |lens|
    ensures Taken(lens, l, n) == Taken(lens, l - 1, n) + Share(CountLen(lens, l, n), l)
  {
    hide Share, Weigh;
    ShareOne(CountLen(lens, l, if n == 0 then 0 else n - 1), l);
    if n > 0 {
      TakenLevel(lens, l, n - 1);
    }
  }

  lemma {:induction false} TakenNone(lens: seq<nat>, n: nat)
    requires n <= |lens|
    ensures Taken(lens, 0, n) == 0
  {
    if n > 0 {
      TakenNone(lens, n - 1);
    }
  }

  ghost predicate Sound(lens: seq<nat>) {
    (forall s :: 0 <= s < |lens| ==> lens[s] <= MAX_LEN) && Kraft(MAX_LEN, lens) <= Pow2(MAX_LEN)
  }

  /** The first code after length l, scaled to the whole space, is what the lengths up to l take. In a sound code
      nothing wraps around and every code fits its length. */
  lemma {:induction false} NextCodeFits(lens: seq<nat>, l: nat)
    requires Sound(lens) && l <= MAX_LEN
    ensures Share(NextCode(lens, l) + BlCount(lens, l), l) == Taken(lens, l, |lens|)
    ensures NextCode(lens, l) + BlCount(lens, l) <= Pow2(l)
    ensures l > 0 ==> NextCode(lens, l) == 2 * (NextCode(lens, l - 1) + BlCount(lens, l - 1))
  {
    hide Kraft, Share, Taken, Sum, NextCode, Pow2, BlCount, Sound;
    NoCodes(lens);
    if l == 0 {
      TakenNone(lens, |lens|);
      NoShare();
    } else {
      NextCodeFits(lens, l - 1);
      var before := NextCode(lens, l - 1) + BlCount(lens, l - 1);
      NoWrap(lens, l);
      TakenLevel(lens, l, |lens|);
      ShareHalf(before, BlCount(lens, l), l);
      TakenMonotone(lens, l, MAX_LEN, |lens|);
      KraftRoom(lens);
      ShareFits(NextCode(lens, l) + BlCount(lens, l), l);
    }
  }

  lemma NoCodes(lens: seq<nat>)
    ensures NextCode(lens, 0) == 0 && BlCount(lens, 0) == 0 && Pow2(0) == 1
  {
  }

  lemma NoWrap(lens: seq<nat>, l: nat)
    requires 1 <= l <= MAX_LEN && NextCode(lens, l - 1) + BlCount(lens, l - 1) <= Pow2(l - 1)
    ensures NextCode(lens, l) == 2 * (NextCode(lens, l - 1) + BlCount(lens, l - 1))
    ensures BlCount(lens, l) == CountLen(lens, l, |lens|)
  {
    SmallPow(l);
  }

  lemma NoShare()
    ensures Share(0, 0) == 0
  {
  }

  lemma ShareFits(c: nat, l: nat)
    requires l <= MAX_LEN && Share(c, l) <= Pow2(MAX_LEN)
    ensures c <= Pow2(l)
  {
    Pow2Add(l, MAX_LEN - l);
    CancelLess(Pow2(MAX_LEN - l), c, Pow2(l));
  }

  lemma KraftRoom(lens: seq<nat>)
    requires Sound(lens)
    ensures Taken(lens, MAX_LEN, |lens|) <= Pow2(MAX_LEN)
  {
    TakenIsKraft(lens, |lens|);
  }

  lemma SmallPow(l: nat)
    requires 1 <= l <= MAX_LEN
    ensures 2 * Pow2(l - 1) == Pow2(l) < 0x1_0000
  {
    Pow2Monotone(l, MAX_LEN);
    Pow2Eight(7);
    assert Pow2(7) == 128;
  }

  lemma ShareHalf(c: nat, more: nat, l: nat)
    requires 1 <= l <= MAX_LEN
    ensures Share(2 * c + more, l) == Share(c, l - 1) + Share(more, l)
  {
    var w := Pow2(MAX_LEN - l);
    Distribute(w, 2 * c, more);
    Associate(c, 2, w);
  }

  lemma CancelLess(w: nat, x: nat, y: nat)
    requires w > 0 && x * w <= y * w
    ensures x <= y
  {
    if x > y {
      MulMonotone(w, y + 1, x);
      Distribute(w, y, 1);
    }
  }

  /** x << k. */
  function Shl(x: nat, k: nat): (y: nat) { x * Pow2(k) }

  lemma ShlStep(x: nat, k: nat)
    ensures Shl(x, 0) == x && Shl(x, k + 1) == 2 * Shl(x, k)
  {
    Associate(x, 2, Pow2(k));
  }

  /** Codes of a longer length start where those of a shorter one, extended, have ended. */
  lemma {:induction false} LongerStartsAfter(lens: seq<nat>, l: nat, m: nat)
    requires Sound(lens) && l < m <= MAX_LEN
    ensures Shl(NextCode(lens, l) + BlCount(lens, l), m - l) <= NextCode(lens, m)
    decreases m - l
  {
    hide Sound, Shl, NextCode, BlCount;
    NextCodeFits(lens, m);
    var x := NextCode(lens, l) + BlCount(lens, l);
    ShlStep(x, m - 1 - l);
    if l < m - 1 {
      LongerStartsAfter(lens, l, m - 1);
    }
  }

  /** A canonical code lies among the codes of its length. */
  lemma CanonInRange(lens: seq<nat>, s: nat)
    requires Sound(lens) && s < |lens| && lens[s] > 0
    ensures Canon(lens, s) == NextCode(lens, lens[s]) + CountLen(lens, lens[s], s) < Pow2(lens[s])
    ensures Canon(lens, s) < NextCode(lens, lens[s]) + BlCount(lens, lens[s])
  {
    hide Sound, NextCode, Taken, Share;
    SoundBound(lens, s);
    CountLenMonotone(lens, lens[s], s + 1, |lens|);
    NextCodeFits(lens, lens[s]);
    SmallPow(lens[s]);
  }

  /** No code is a prefix of another, most significant bit first. */
  lemma CanonPrefixFree(lens: seq<nat>, s: nat, t: nat)
    requires Sound(lens) && s < |lens| && t < |lens| && s != t && 0 < lens[s] <= lens[t]
    ensures Canon(lens, t) / Pow2(lens[t] - lens[s]) != Canon(lens, s)
  {
    hide Sound, NextCode, Canon, BlCount, CountLen;
    CanonInRange(lens, s);
    CanonInRange(lens, t);
    var l, m := lens[s], lens[t];
    if l == m {
      DivModUnique(Canon(lens, t), 1, Canon(lens, t), 0);
      RanksDiffer(lens, s, t);
    } else {
      SoundBound(lens, t);
      LongerStartsAfter(lens, l, m);
      ShiftDown(NextCode(lens, l) + BlCount(lens, l), m - l, Canon(lens, t));
    }
  }

  lemma RanksDiffer(lens: seq<nat>, s: nat, t: nat)
    requires s < |lens| && t < |lens| && s != t && lens[s] == lens[t]
    ensures CountLen(lens, lens[s], s) != CountLen(lens, lens[t], t)
  {
    if s < t {
      CountLenMonotone(lens, lens[s], s + 1, t);
    } else {
      CountLenMonotone(lens, lens[s], t + 1, s);
    }
  }

  lemma ShiftDown(x: nat, k: nat, y: nat)
    requires Shl(x, k) <= y
    ensures x <= y / Pow2(k)
  {
    DivAdjoint(Pow2(k), x, y);
  }

  lemma SoundBound(lens: seq<nat>, s: nat)
    requires Sound(lens) && s < |lens|
    ensures lens[s] <= MAX_LEN
  {
  }

  /** Code space in units of codes of 15 bits: what the symbols below n take that come before symbol s, those with
      shorter codes and, among codes of equal length, those with lower numbers. */
  function SpaceBefore(lens: seq<nat>, s: nat, n: nat): (t: nat)
    requires s < |lens| && n <= |lens|
  {
    if n == 0 then 0
    else
      var t := n - 1;
      SpaceBefore(lens, s, t)
      + if 0 < lens[t] <= 15 && (lens[t] < lens[s] || (lens[t] == lens[s] && t < s)) then Pow2(15 - lens[t]) else 0
  }

  lemma {:induction false} SpaceIsTaken(lens: seq<nat>, s: nat, n: nat)
    requires s < |lens| && n <= |lens| && 0 < lens[s] <= MAX_LEN
    ensures SpaceBefore(lens, s, n) == Taken(lens, lens[s] - 1, n) + Share(CountLen(lens, lens[s], Min(n, s)), lens[s])
  {
    hide Share, Pow2;
    if n == 0 {
      ShareNone(lens[s]);
    } else {
      SpaceIsTaken(lens, s, n - 1);
      ShareOne(CountLen(lens, lens[s], Min(n - 1, s)), lens[s]);
      WeighIs(lens[n - 1]);
    }
  }

  lemma ShareNone(l: nat)
    requires l <= MAX_LEN
    ensures Share(0, l) == 0
  {
  }

  lemma WeighIs(d: nat)
    ensures Weigh(MAX_LEN, d) == if 0 < d <= 15 then Pow2(15 - d) else 0
  {
  }

  /** A canonical code, extended to 15 bits, is what the codes before it take: the codes follow one another from 0 on,
      by length and then by symbol. */
  lemma CanonIsSpaceBefore(lens: seq<nat>, s: nat)
    requires Sound(lens) && s < |lens| && lens[s] > 0
    ensures lens[s] <= 15 && Canon(lens, s) * Pow2(15 - lens[s]) == SpaceBefore(lens, s, |lens|)
  {
    hide Sound, Canon, NextCode, BlCount, CountLen, SpaceBefore, Taken;
    SoundBound(lens, s);
    var l := lens[s];
    CanonInRange(lens, s);
    SpaceIsTaken(lens, s, |lens|);
    NextCodeFits(lens, l);
    NextCodeFits(lens, l - 1);
    ShareHalf(NextCode(lens, l - 1) + BlCount(lens, l - 1), CountLen(lens, l, s), l);
  }

  /** All codes, each where those before it end. */
  ghost predicate InSequence(lens: seq<nat>, codes: seq<nat>) {
    |codes| == |lens|
    && forall s :: 0 <= s < |lens| && lens[s] > 0 ==>
         lens[s] <= 15 && codes[s] * Pow2(15 - lens[s]) == SpaceBefore(lens, s, |lens|)
  }

  lemma CanonsInSequence(lens: seq<nat>, codes: seq<nat>)
    requires Sound(lens) && |codes| == |lens| && forall s :: 0 <= s < |lens| ==> codes[s] == Canon(lens, s)
    ensures InSequence(lens, codes)
  {
    hide Sound, Canon, SpaceBefore;
    forall s | 0 <= s < |lens| && lens[s] > 0
      ensures lens[s] <= 15 && codes[s] * Pow2(15 - lens[s]) == SpaceBefore(lens, s, |lens|)
    {
      CanonIsSpaceBefore(lens, s);
    }
  }

  /** The bits of a reversed number are its bits from the other end. */
  lemma {:induction false} RevBit(c: nat, n: nat, i: nat)
    requires i < n
    ensures Rev(c, n) / Pow2(i) % 2 == c / Pow2(n - 1 - i) % 2
  {
    if i == n - 1 {
      hide Pow2;
      RevTop(c, n);
    } else {
      RevBit(c / 2, n - 1, i);
      var w := Pow2(n - 2 - i);
      HalfThenShift(c, w);
      assert Pow2(n - 1 - i) == 2 * w;
      Pow2Add(i, n - 1 - i);
      RevBelow(c % 2, Pow2(i), w, Rev(c / 2, n - 1));
    }
  }

  lemma RevTop(c: nat, n: nat)
    requires n > 0
    ensures Rev(c, n) / Pow2(n - 1) % 2 == c / Pow2(0) % 2
  {
    DivModUnique(Rev(c, n), Pow2(n - 1), c % 2, Rev(c / 2, n - 1));
    assert Pow2(0) == 1;
  }

  /** A bit further up does not matter. */
  lemma RevBelow(b: nat, p: nat, w: nat, r: nat)
    requires p > 0
    ensures (b * (p * (2 * w)) + r) / p % 2 == r / p % 2
  {
    assert b * (p * (2 * w)) == b * (2 * w) * p by {
      Associate(b, 2 * w, p);
    }
    DivModAdd(r, b * (2 * w), p);
    Associate(b, w, 2);
    assert b * (2 * w) == b * w * 2;
    DivModAdd(r / p, b * w, 2);
  }

  /** A code is stored with its most significant bit first. */
  lemma StoredBitFirst(lens: seq<nat>, s: nat, i: nat)
    requires s < |lens| && i < lens[s]
    ensures Code(lens, s) / Pow2(i) % 2 == Canon(lens, s) / Pow2(lens[s] - 1 - i) % 2
  {
    RevBit(Canon(lens, s), lens[s], i);
  }

  // ---------------------------------------------------------------- least significant bit first

  /** The low bits of a reversed code are the reversal of its high bits. */
  lemma {:induction false} RevLow(c: nat, n: nat, m: nat)
    requires m <= n
    ensures Rev(c, n) % Pow2(m) == Rev(c / Pow2(n - m), m)
    decreases n - m
  {
    if n == m {
      DivModUnique(c, 1, c, 0);
      DivModUnique(Rev(c, n), Pow2(m), 0, Rev(c, n));
    } else {
      RevLow(c / 2, n - 1, m);
      Pow2Add(m, n - 1 - m);
      DropHigh(c % 2, Rev(c / 2, n - 1), Pow2(m), Pow2(n - 1 - m));
      HalfThenShift(c, Pow2(n - 1 - m));
    }
  }

  lemma DropHigh(b: nat, r: nat, w: nat, h: nat)
    requires w > 0
    ensures (b * (w * h) + r) % w == r % w
  {
    Associate(b, h, w);
    assert b * (w * h) == b * h * w;
    DivModAdd(r, b * h, w);
  }

  lemma HalfThenShift(c: nat, h: nat)
    requires h > 0
    ensures c / 2 / h == c / (2 * h)
  {
    var q, r := c / 2 / h, c / 2 % h;
    assert c == 2 * (q * h + r) + c % 2;
    Associate(q, 2, h);
    DivModUnique(c, 2 * h, q, 2 * r + c % 2);
  }

  /** Reversal loses nothing but the bits above. */
  lemma {:induction false} RevInjective(c: nat, d: nat, n: nat)
    requires c < Pow2(n) && d < Pow2(n) && Rev(c, n) == Rev(d, n)
    ensures c == d
  {
    if n > 0 {
      assert c % 2 == d % 2;
      RevInjective(c / 2, d / 2, n - 1);
    }
  }

  /** Whether the bits v start with the code of s. */
  predicate StartsWith(lens: seq<nat>, s: nat, v: nat)
    requires s < |lens|
  {
    lens[s] > 0 && v % Pow2(lens[s]) == Code(lens, s)
  }

  /** No bits start with two codes. */
  lemma PrefixFree(lens: seq<nat>, s: nat, t: nat, v: nat)
    requires Sound(lens) && s < |lens| && t < |lens| && StartsWith(lens, s, v) && StartsWith(lens, t, v)
    ensures s == t
  {
    hide Sound, Canon;
    if s != t {
      if lens[s] <= lens[t] {
        Clash(lens, s, t, v);
      } else {
        Clash(lens, t, s, v);
      }
      assert false;
    }
  }

  lemma Clash(lens: seq<nat>, s: nat, t: nat, v: nat)
    requires Sound(lens) && s < |lens| && t < |lens| && s != t && 0 < lens[s] <= lens[t]
    requires v % Pow2(lens[t]) == Code(lens, t)
    ensures v % Pow2(lens[s]) != Code(lens, s)
  {
    hide Sound, Canon, Rev, Pow2;
    CanonInRange(lens, s);
    CanonInRange(lens, t);
    CanonPrefixFree(lens, s, t);
    ReversedClash(Canon(lens, s), Canon(lens, t), lens[s], lens[t] - lens[s], v);
  }

  lemma ReversedClash(c: nat, d: nat, l: nat, k: nat, v: nat)
    requires c < Pow2(l) && d < Pow2(l + k) && d / Pow2(k) != c && v % Pow2(l + k) == Rev(d, l + k)
    ensures v % Pow2(l) != Rev(c, l)
  {
    hide Rev, Pow2;
    LowOfLow(v, l, k);
    RevLow(d, l + k, l);
    HighBits(d, l, k);
    if Rev(d / Pow2(k), l) == Rev(c, l) {
      RevInjective(d / Pow2(k), c, l);
    }
  }

  lemma LowOfLow(v: nat, l: nat, k: nat)
    ensures v % Pow2(l + k) % Pow2(l) == v % Pow2(l)
  {
    Pow2Add(l, k);
    ModMod(v, Pow2(l), Pow2(k));
  }

  lemma HighBits(c: nat, l: nat, k: nat)
    requires c < Pow2(l + k)
    ensures c / Pow2(k) < Pow2(l)
  {
    Pow2Add(k, l);
    QuotientBound(c, Pow2(k), Pow2(l));
  }

  lemma ModMod(v: nat, w: nat, h: nat)
    requires w > 0 && h > 0 && w * h > 0
    ensures v % (w * h) % w == v % w
  {
    var q, r := v / (w * h), v % (w * h);
    assert v == q * (w * h) + r;
    DropHigh(q, r, w, h);
  }
}
