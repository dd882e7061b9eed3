/** Scaling a histogram to frequencies that sum to exactly 4096, by largest remainder. */
module AnsNormalize {
  import opened Arithmetic
  import opened AnsTable

  const INT_MAX := 0x7FFF_FFFF

  function Present(raw: seq<nat>, n: nat): (c: nat)
    requires n <= |raw|
  {
    if n == 0 then 0 else Present(raw, n - 1) + (if raw[n - 1] > 0 then 1 else 0)
  }

  /** What a symbol gets before the total is corrected. */
  function Base(r: nat, total: nat): (b: nat)
    requires r <= total && total > 0
    ensures b <= ANS_L && (b > 0 <==> r > 0)
    ensures r > 0 ==> r * ANS_L <= b * total + (total - 1)
  {
    if r == 0 then 0
    else
      var q := r * ANS_L / total;
      QuotientBound(r * ANS_L, total, ANS_L + 1);
      QuotientBound(-1 - r * ANS_L, total, 0);
      if q == 0 then 1 else q
  }

  function Remainder(r: nat, total: nat): (f: nat)
    requires total > 0
    ensures f < total
  {
    r * ANS_L % total
  }

  lemma {:induction false} CumBounds(raw: seq<nat>, i: nat)
    requires i < |raw|
    ensures raw[i] <= Cum(raw, |raw|)
  {
    CumMonotone(raw, i + 1, |raw|);
  }

  lemma {:induction false} CumUpdate(s: seq<nat>, i: nat, v: nat, n: nat)
    requires i < |s| && n <= |s|
    ensures Cum(s[i := v], n) == Cum(s, n) + (if i < n then v - s[i] else 0)
  {
    if n > 0 {
      CumUpdate(s, i, v, n - 1);
    }
  }

  lemma {:induction false} CumAllZero(s: seq<nat>, n: nat)
    requires n <= |s| && forall i :: 0 <= i < n ==> s[i] == 0
    ensures Cum(s, n) == 0
  {
    if n > 0 {
      CumAllZero(s, n - 1);
    }
  }

  /** If no entry exceeds one, the sum does not exceed the length. */
  lemma {:induction false} CumSmall(s: seq<nat>, n: nat)
    requires n <= |s| && forall i :: 0 <= i < n ==> s[i] <= 1
    ensures Cum(s, n) <= n
  {
    if n > 0 {
      CumSmall(s, n - 1);
    }
  }

  /** Present symbols not yet topped up. */
  function Untouched(raw: seq<nat>, frac: seq<int>, n: nat): (c: nat)
    requires n <= |raw| == |frac|
    ensures c > 0 ==> exists i :: 0 <= i < n && raw[i] > 0 && frac[i] >= 0
  {
    if n == 0 then 0 else Untouched(raw, frac, n - 1) + (if raw[n - 1] > 0 && frac[n - 1] >= 0 then 1 else 0)
  }

  lemma {:induction false} TouchOne(raw: seq<nat>, frac: seq<int>, b: nat, n: nat)
    requires n <= |raw| == |frac| && b < |raw| && raw[b] > 0 && frac[b] >= 0
    ensures Untouched(raw, frac[b := -1], n) == Untouched(raw, frac, n) - (if b < n then 1 else 0)
  {
    if n > 0 {
      TouchOne(raw, frac, b, n - 1);
    }
  }

  lemma {:induction false} AllUntouched(raw: seq<nat>, frac: seq<int>, n: nat)
    requires n <= |raw| == |frac| && forall i :: 0 <= i < |frac| ==> frac[i] >= 0
    ensures Untouched(raw, frac, n) == Present(raw, n)
  {
    if n > 0 {
      AllUntouched(raw, frac, n - 1);
    }
  }

  /** Every present symbol holds its base share; the rest, if any is left to give, goes to the largest remainders, and
      what was given too much is taken back. */
  ghost predicate LargestRemainder(raw: seq<nat>, norm: seq<nat>)
    requires |raw| == |norm| && 0 < Cum(raw, |raw|)
  {
    var total := Cum(raw, |raw|);
    && (forall i :: 0 <= i < |raw| ==> raw[i] <= total)
    && var base := seq(|raw|, i requires 0 <= i < |raw| => Base(raw[i], total));
       var frac := seq(|raw|, i requires 0 <= i < |raw| => Remainder(raw[i], total));
       TakenBack(base, norm, frac) || ToppedUp(raw, base, norm, frac)
  }

  /** The remainder of i is the smaller one; of equal ones, the first. */
  predicate Goes(frac: seq<int>, i: nat, j: nat)
    requires i < |frac| && j < |frac|
  {
    frac[i] < frac[j] || (frac[i] == frac[j] && i <= j)
  }

  /** Of the units taken back, each symbol with more than one gives the first by its remainder, the smallest first; when
      all have given one, the symbol that then has most gives, the first of equals. */
  ghost predicate TakenBack(base: seq<nat>, norm: seq<nat>, frac: seq<int>)
    requires |base| == |norm| == |frac|
  {
    && (forall i :: 0 <= i < |base| ==> norm[i] <= base[i] && (base[i] <= 1 ==> norm[i] == base[i]))
    && if forall i :: 0 <= i < |base| ==> norm[i] + 1 >= base[i] then
         forall i, j :: 0 <= i < |base| && 0 <= j < |base| && norm[i] < base[i] && norm[j] == base[j] > 1 ==>
           Goes(frac, i, j)
       else
         && (forall i :: 0 <= i < |base| && base[i] > 1 ==> norm[i] < base[i])
         && (forall i, j :: 0 <= i < |base| && 0 <= j < |base| && norm[i] + 1 < base[i] ==>
               norm[j] <= norm[i] + if i < j then 1 else 0)
  }

  /** New exceeds base by at most one, and only where no remainder passed over is larger, or as large and before it. */
  ghost predicate ToppedUp(raw: seq<nat>, base: seq<nat>, norm: seq<nat>, frac: seq<int>)
    requires |raw| == |base| == |norm| == |frac|
  {
    && (forall i :: 0 <= i < |raw| ==> base[i] <= norm[i] <= base[i] + (if raw[i] > 0 then 1 else 0))
    && (forall i, j :: 0 <= i < |raw| && 0 <= j < |raw| ==>
          (raw[j] > 0 && norm[i] > base[i] && norm[j] == base[j] ==>
             frac[i] > frac[j] || (frac[i] == frac[j] && i < j)))
  }

  /** The first present symbol with the largest remainder, or -1. */
  method PickLargest(raw: seq<nat>, frac: seq<int>) returns (b: int)
    requires |raw| == |frac|
    ensures b < 0 ==> forall i :: 0 <= i < |raw| ==> raw[i] == 0 || frac[i] <= -1
    ensures b >= 0 ==> b < |raw| && raw[b] > 0 && frac[b] >= 0
    ensures b >= 0 ==> forall i :: 0 <= i < |raw| && raw[i] > 0 ==> frac[i] <= frac[b] && (i < b ==> frac[i] < frac[b])
  {
    b := -1;
    var br := -1;
    for i := 0 to |raw|
      invariant b == -1 ==> br == -1
      invariant b != -1 ==> 0 <= b < i && raw[b] > 0 && frac[b] == br >= 0
      invariant forall j :: 0 <= j < i && raw[j] > 0 ==> frac[j] <= br && (j < b ==> frac[j] < br)
    {
      if raw[i] > 0 && frac[i] > br {
        br := frac[i];
        b := i;
      }
    }
  }

  /** The first symbol that can spare a unit with the smallest remainder not yet used up, or -1. */
  method PickSmallest(norm: array<nat>, frac: seq<int>) returns (b: int)
    requires norm.Length == |frac|
    ensures b >= 0 ==> b < |frac| && norm[b] > 1 && frac[b] < INT_MAX
    ensures forall i :: 0 <= i < |frac| && norm[i] > 1 && frac[i] < INT_MAX ==> b >= 0 && Goes(frac, b, i)
  {
    b := -1;
    var br := INT_MAX;
    for i := 0 to |frac|
      invariant b >= -1 && if b == -1 then br == INT_MAX else b < i && norm[b] > 1 && frac[b] == br < INT_MAX
      invariant forall j :: 0 <= j < i && norm[j] > 1 && frac[j] < INT_MAX ==> b >= 0 && Goes(frac, b, j)
    {
      if norm[i] > 1 && frac[i] < br {
        br := frac[i];
        b := i;
      }
    }
  }

  /** The first of the most frequent symbols. */
  method PickFattest(norm: array<nat>) returns (lg: int)
    ensures lg >= 0 ==> lg < norm.Length
    ensures forall i :: 0 <= i < norm.Length ==> if lg >= 0 then norm[i] <= norm[lg] else norm[i] == 0
    ensures forall i :: 0 <= i < lg ==> norm[i] < norm[lg]
  {
    lg := -1;
    var lf := 0;
    for i := 0 to norm.Length
      invariant lg != -1 ==> 0 <= lg < i && norm[lg] == lf
      invariant lg >= -1 && (lg == -1 ==> lf == 0)
      invariant forall j :: 0 <= j < i ==> norm[j] <= lf && (j < lg ==> norm[j] < lf)
    {
      if norm[i] > lf {
        lf := norm[i];
        lg := i;
      }
    }
  }

  /** Where topping up stands: frac marks the symbols that got a unit. */
  ghost predicate Topping(raw: seq<nat>, base: seq<nat>, norm: seq<nat>, frac0: seq<int>, frac: seq<int>) {
    && |raw| == |base| == |norm| == |frac0| == |frac|
    && (forall i :: 0 <= i < |raw| ==> frac[i] == if norm[i] > base[i] then -1 else frac0[i])
    && ToppedUp(raw, base, norm, frac0)
  }

  lemma OneMoreUnit(raw: seq<nat>, base: seq<nat>, norm: seq<nat>, frac0: seq<int>, frac: seq<int>, b: nat)
    requires Topping(raw, base, norm, frac0, frac) && b < |raw| && raw[b] > 0 && frac[b] >= 0
    requires forall i :: 0 <= i < |raw| && raw[i] > 0 ==> frac[i] <= frac[b] && (i < b ==> frac[i] < frac[b])
    ensures Topping(raw, base, norm[b := norm[b] + 1], frac0, frac[b := -1])
  {
    assert norm[b] == base[b];
  }

  lemma NothingTopped(raw: seq<nat>, base: seq<nat>, frac: seq<int>)
    requires |raw| == |base| == |frac|
    ensures Topping(raw, base, base, frac, frac)
  {
  }

  /** Hands out the missing units, largest remainder first. */
  method FillDeficit(raw: seq<nat>, norm: array<nat>, frac0: seq<int>)
    requires |raw| == norm.Length == |frac0| && Cum(norm[..], norm.Length) <= ANS_L
    requires forall i :: 0 <= i < |frac0| ==> frac0[i] >= 0
    requires ANS_L - Cum(norm[..], norm.Length) < Present(raw, |raw|) || ANS_L == Cum(norm[..], norm.Length)
    requires forall i :: 0 <= i < |raw| ==> (norm[i] > 0 <==> raw[i] > 0)
    modifies norm
    ensures Cum(norm[..], norm.Length) == ANS_L
    ensures ToppedUp(raw, old(norm[..]), norm[..], frac0)
  {
    hide ToppedUp;
    var frac := frac0;
    var diff := ANS_L - Cum(norm[..], norm.Length);
    AllUntouched(raw, frac, |raw|);
    NothingTopped(raw, norm[..], frac);
    while diff > 0
      invariant |frac| == |raw| && 0 <= diff == ANS_L - Cum(norm[..], norm.Length)
      invariant diff < Untouched(raw, frac, |raw|) || diff == 0
      invariant Topping(raw, old(norm[..]), norm[..], frac0, frac)
    {
      var b := PickLargest(raw, frac);
      assert b >= 0;
      TouchOne(raw, frac, b, |raw|);
      OneMoreUnit(raw, old(norm[..]), norm[..], frac0, frac, b);
      CumUpdate(norm[..], b, norm[b] + 1, norm.Length);
      ghost var before := norm[..];
      norm[b] := norm[b] + 1;
      assert norm[..] == before[b := before[b] + 1];
      frac := frac[b := -1];
      diff := diff - 1;
    }
  }

  /** Where taking back stands: frac marks the symbols that gave by their remainder. */
  ghost predicate Giving(base: seq<nat>, norm: seq<nat>, frac0: seq<int>, frac: seq<int>) {
    && |base| == |norm| == |frac0| == |frac| && (forall i :: 0 <= i < |base| ==> frac0[i] < INT_MAX)
    && (forall i :: 0 <= i < |base| ==> norm[i] <= base[i] && (norm[i] > 0 <==> base[i] > 0))
    && (forall i :: 0 <= i < |base| ==> frac[i] == if norm[i] < base[i] then INT_MAX else frac0[i])
    && TakenBack(base, norm, frac0)
  }

  lemma GivesFirst(base: seq<nat>, norm: seq<nat>, frac0: seq<int>, frac: seq<int>, b: nat)
    requires Giving(base, norm, frac0, frac) && b < |norm| && norm[b] > 1 && frac[b] < INT_MAX
    requires forall i :: 0 <= i < |frac| && norm[i] > 1 && frac[i] < INT_MAX ==> Goes(frac, b, i)
    ensures Giving(base, norm[b := norm[b] - 1], frac0, frac[b := INT_MAX])
  {
    assert norm[b] == base[b];
  }

  lemma GivesMost(base: seq<nat>, norm: seq<nat>, frac0: seq<int>, frac: seq<int>, b: nat)
    requires Giving(base, norm, frac0, frac) && b < |norm| && norm[b] > 1
    requires forall i :: 0 <= i < |frac| && norm[i] > 1 ==> frac[i] >= INT_MAX
    requires forall i :: 0 <= i < |norm| ==> norm[i] <= norm[b] && (i < b ==> norm[i] < norm[b])
    ensures Giving(base, norm[b := norm[b] - 1], frac0, frac)
  {
    assert norm[b] < base[b];
    assert forall i :: 0 <= i < |base| && base[i] > 1 ==> norm[i] < base[i];
    var next := norm[b := norm[b] - 1];
    assert next[b] + 1 < base[b];
  }

  /** Takes back the excess units, leaving every present symbol at least one. */
  method DrainSurplus(norm: array<nat>, frac0: seq<int>)
    requires norm.Length == |frac0| == NSYM && Cum(norm[..], NSYM) > ANS_L
    requires forall i :: 0 <= i < NSYM ==> frac0[i] < INT_MAX
    modifies norm
    ensures Cum(norm[..], NSYM) == ANS_L && TakenBack(old(norm[..]), norm[..], frac0)
    ensures forall i :: 0 <= i < NSYM ==> (norm[i] > 0 <==> old(norm[i]) > 0)
  {
    hide TakenBack, Goes;
    var frac := frac0;
    var diff := ANS_L - Cum(norm[..], NSYM);
    NothingTaken(norm[..], frac0);
    while diff < 0
      invariant |frac| == NSYM && 0 >= diff == ANS_L - Cum(norm[..], NSYM)
      invariant Giving(old(norm[..]), norm[..], frac0, frac)
      decreases -diff
    {
      ghost var before := norm[..];
      var b := PickSmallest(norm, frac);
      if b < 0 {
        b := PickFattest(norm);
        if b < 0 || norm[b] <= 1 {
          CumSmall(norm[..], NSYM);
          assert false;
        }
        GivesMost(old(norm[..]), before, frac0, frac, b);
      } else {
        GivesFirst(old(norm[..]), before, frac0, frac, b);
        frac := frac[b := INT_MAX];
      }
      CumUpdate(before, b, before[b] - 1, NSYM);
      norm[b] := norm[b] - 1;
      assert norm[..] == before[b := before[b] - 1];
      diff := diff + 1;
    }
  }

  lemma NothingTaken(base: seq<nat>, frac: seq<int>)
    requires |base| == |frac| && forall i :: 0 <= i < |frac| ==> frac[i] < INT_MAX
    ensures Giving(base, base, frac, frac)
  {
  }

  /** Total and number of present symbols. */
  method Tally(raw: seq<nat>) returns (total: nat, np: nat)
    ensures total == Cum(raw, |raw|) && np == Present(raw, |raw|)
  {
    total, np := 0, 0;
    for i := 0 to |raw|
      invariant total == Cum(raw, i) && np == Present(raw, i)
    {
      total := total + raw[i];
      if raw[i] > 0 {
        np := np + 1;
      }
    }
  }

  /** Every share misses its exact quota by less than one unit. */
  lemma ShareStep(cum: nat, r: nat, total: nat, given: nat, present: nat, b: nat)
    requires cum * ANS_L <= total * (given + present) - present
    requires r * ANS_L <= b * total + (total - 1)
    ensures (cum + r) * ANS_L <= total * (given + b + (present + 1)) - (present + 1)
  {
    Distribute(total, given + present, b + 1);
    Distribute(total, b, 1);
  }

  /** The base shares and the remainders. */
  method Scale(raw: seq<nat>, total: nat, norm: array<nat>) returns (frac: seq<int>, given: nat)
    requires |raw| == norm.Length && 0 < total == Cum(raw, |raw|)
    requires forall i :: 0 <= i < norm.Length ==> norm[i] == 0
    modifies norm
    ensures |frac| == |raw| && forall i :: 0 <= i < |raw| ==> raw[i] <= total
    ensures forall i :: 0 <= i < |raw| ==> norm[i] == Base(raw[i], total) && frac[i] == Remainder(raw[i], total)
    ensures given == Cum(norm[..], norm.Length) && ANS_L < given + Present(raw, |raw|)
  {
    frac := seq(|raw|, _ => 0);
    given := 0;
    for i := 0 to |raw|
      invariant |frac| == |raw|
      invariant forall j :: 0 <= j < i ==> raw[j] <= total
      invariant forall j :: 0 <= j < i ==> norm[j] == Base(raw[j], total) && frac[j] == Remainder(raw[j], total)
      invariant forall j :: i <= j < |raw| ==> norm[j] == 0 && frac[j] == 0
      invariant given == Cum(norm[..], i)
      invariant Cum(raw, i) * ANS_L <= total * (given + Present(raw, i)) - Present(raw, i)
    {
      CumBounds(raw, i);
      ghost var before := norm[..];
      if raw[i] > 0 {
        var sc := raw[i] * ANS_L;
        var base := sc / total;
        if base == 0 {
          base := 1;
        }
        norm[i] := Base(raw[i], total);
        frac := frac[i := sc % total];
        assert norm[i] == base;
        ShareStep(Cum(raw, i), raw[i], total, given, Present(raw, i), norm[i]);
      } else {
        DivModUnique(0, total, 0, 0);
      }
      assert norm[..] == before[i := Base(raw[i], total)];
      CumUpdate(before, i, Base(raw[i], total), i);
      given := given + norm[i];
    }
    if given + Present(raw, |raw|) <= ANS_L {
      MulMonotone(total, given + Present(raw, |raw|), ANS_L);
      SomePresent(raw, |raw|);
    }
  }

  lemma {:induction false} SomePresent(raw: seq<nat>, n: nat)
    requires n <= |raw|
    ensures Cum(raw, n) > 0 <==> Present(raw, n) > 0
  {
    if n > 0 {
      SomePresent(raw, n - 1);
    }
  }

  /** With one symbol present, its count is the total. */
  lemma {:induction false} LonePresent(raw: seq<nat>, i: nat, n: nat)
    requires i < n <= |raw| && raw[i] > 0 && Present(raw, n) == 1
    ensures Cum(raw, n) == raw[i] && forall j :: 0 <= j < n ==> j == i || raw[j] == 0
  {
    if n - 1 == i {
      SomePresent(raw, n - 1);
      NonePresent(raw, n - 1);
    } else {
      SomeBelow(raw, i, n - 1);
      LonePresent(raw, i, n - 1);
    }
  }

  lemma {:induction false} SomeBelow(raw: seq<nat>, i: nat, n: nat)
    requires i < n <= |raw| && raw[i] > 0
    ensures Present(raw, n) > 0
  {
    if i < n - 1 {
      SomeBelow(raw, i, n - 1);
    }
  }

  lemma {:induction false} NonePresent(raw: seq<nat>, n: nat)
    requires n <= |raw| && Cum(raw, n) == 0
    ensures forall j :: 0 <= j < n ==> raw[j] == 0
  {
    if n > 0 {
      NonePresent(raw, n - 1);
    }
  }

  /** A table with a single nonzero entry. */
  lemma {:induction false} CumLone(s: seq<nat>, i: nat, n: nat)
    requires i < |s| && n <= |s| && forall j :: 0 <= j < |s| ==> j == i || s[j] == 0
    ensures Cum(s, n) == if i < n then s[i] else 0
  {
    if n > 0 {
      CumLone(s, i, n - 1);
    }
  }

  /** normalize_freq. The remainders must fit the 32-bit integers they are kept in. */
  method NormalizeFreq(raw: seq<nat>, norm: array<nat>) returns (np: nat)
    requires |raw| == norm.Length == NSYM && Cum(raw, NSYM) <= INT_MAX
    modifies norm
    ensures np == Present(raw, NSYM)
    ensures forall i :: 0 <= i < NSYM ==> (norm[i] > 0 <==> raw[i] > 0)
    ensures np > 0 ==> IsTable(norm[..]) && Cum(raw, NSYM) > 0 && LargestRemainder(raw, norm[..])
  {
    var total;
    total, np := Tally(raw);
    forall i | 0 <= i < NSYM { norm[i] := 0; }
    SomePresent(raw, NSYM);
    if np == 0 {
      NonePresent(raw, NSYM);
      return;
    }
    if np == 1 {
      ForLone(raw, norm);
      return;
    }
    var frac, given := Scale(raw, total, norm);
    ghost var base := norm[..];
    assert base == seq(NSYM, i requires 0 <= i < NSYM => Base(raw[i], total));
    assert frac == seq(NSYM, i requires 0 <= i < NSYM => Remainder(raw[i], total));
    if given <= ANS_L {
      FillDeficit(raw, norm, frac);
    } else {
      DrainSurplus(norm, frac);
    }
  }

  /** The only symbol present gets the whole table. */
  method ForLone(raw: seq<nat>, norm: array<nat>)
    requires |raw| == norm.Length == NSYM && Present(raw, NSYM) == 1 && Cum(raw, NSYM) > 0
    requires forall i :: 0 <= i < NSYM ==> norm[i] == 0
    modifies norm
    ensures forall i :: 0 <= i < NSYM ==> (norm[i] > 0 <==> raw[i] > 0)
    ensures IsTable(norm[..]) && LargestRemainder(raw, norm[..])
  {
    ghost var lone := -1;
    for i := 0 to NSYM
      invariant lone == -1 ==> forall j :: 0 <= j < i ==> raw[j] == 0
      invariant lone != -1 ==> 0 <= lone < NSYM && raw[lone] > 0
                               && forall j :: 0 <= j < NSYM ==> (raw[j] > 0 <==> j == lone)
      invariant forall j :: 0 <= j < NSYM ==> norm[j] == if j < i && raw[j] > 0 then ANS_L else 0
    {
      if raw[i] > 0 {
        LonePresent(raw, i, NSYM);
        norm[i] := ANS_L;
        lone := i;
      }
    }
    if lone == -1 {
      CumAllZero(raw, NSYM);
      assert false;
    }
    CumLone(norm[..], lone, NSYM);
    LonePresent(raw, lone, NSYM);
    DivModUnique(raw[lone] * ANS_L, raw[lone], ANS_L, 0);
  }

  // ---------------------------------------------------------------- fair shares

  lemma {:induction false} SharesFit(raw: seq<nat>, base: seq<nat>, total: nat, n: nat)
    requires n <= |raw| == |base| && forall i :: 0 <= i < |raw| ==> base[i] * total <= raw[i] * ANS_L
    ensures Cum(base, n) * total <= Cum(raw, n) * ANS_L
  {
    if n > 0 {
      SharesFit(raw, base, total, n - 1);
      Distribute(total, Cum(base, n - 1), base[n - 1]);
    }
  }

  lemma {:induction false} NoLess(norm: seq<nat>, base: seq<nat>, n: nat)
    requires n <= |norm| == |base| && (forall i :: 0 <= i < |base| ==> norm[i] <= base[i])
             && Cum(norm, n) >= Cum(base, n)
    ensures forall i :: 0 <= i < n ==> norm[i] == base[i]
  {
    if n > 0 {
      CumAtMost(norm, base, n - 1);
      NoLess(norm, base, n - 1);
    }
  }

  lemma {:induction false} CumAtMost(norm: seq<nat>, base: seq<nat>, n: nat)
    requires n <= |norm| == |base| && forall i :: 0 <= i < |base| ==> norm[i] <= base[i]
    ensures Cum(norm, n) <= Cum(base, n)
  {
    if n > 0 {
      CumAtMost(norm, base, n - 1);
    }
  }

  /** Where every present symbol is due a slot at least, none gets less than the whole slots it is due. */
  lemma FairShare(raw: seq<nat>, norm: seq<nat>)
    requires |raw| == |norm| == NSYM && Cum(raw, NSYM) > 0 && IsTable(norm) && LargestRemainder(raw, norm)
    requires forall i :: 0 <= i < NSYM && raw[i] > 0 ==> raw[i] * ANS_L >= Cum(raw, NSYM)
    ensures forall i :: 0 <= i < NSYM ==> raw[i] * ANS_L / Cum(raw, NSYM) <= norm[i]
  {
    hide ToppedUp, Goes;
    var total := Cum(raw, NSYM);
    var base := seq(NSYM, i requires 0 <= i < NSYM => Base(raw[i], total));
    var frac := seq(NSYM, i requires 0 <= i < NSYM => Remainder(raw[i], total));
    forall i | 0 <= i < NSYM ensures base[i] == raw[i] * ANS_L / total && base[i] * total <= raw[i] * ANS_L {
      WholeShare(raw[i], total);
    }
    if TakenBack(base, norm, frac) {
      SharesFit(raw, base, total, NSYM);
      MulCancel(total, Cum(base, NSYM), ANS_L);
      NoLess(norm, base, NSYM);
    } else {
      assert ToppedUp(raw, base, norm, frac);
      AtLeastBase(raw, base, norm, frac);
    }
  }

  lemma AtLeastBase(raw: seq<nat>, base: seq<nat>, norm: seq<nat>, frac: seq<int>)
    requires |raw| == |base| == |norm| == |frac| && ToppedUp(raw, base, norm, frac)
    ensures forall i :: 0 <= i < |raw| ==> base[i] <= norm[i]
  {
  }

  lemma WholeShare(r: nat, total: nat)
    requires r <= total && total > 0 && (r > 0 ==> r * ANS_L >= total)
    ensures Base(r, total) == r * ANS_L / total && Base(r, total) * total <= r * ANS_L
  {
    DivAdjoint(total, 1, r * ANS_L);
  }

  lemma MulCancel(d: nat, a: nat, b: nat)
    requires d > 0 && a * d <= d * b
    ensures a <= b
  {
    if a > b {
      MulMonotone(d, b + 1, a);
      Distribute(d, b, 1);
    }
  }
}
