/** Which of the positions on a hash chain a walk settles on. */
module LzWalks {
  import opened Bits
  import opened LittleEndian
  import opened SeqCodes
  import opened LzEmit
  import opened LzMatch
  import O = LzOptimal

  /** The positions a walk comes to: the chain from ref on, as long as it stays inside the window and before pos, and at
      most depth of them. */
  function Visits(c: Config, pos: nat, links: seq<int>, ref: int, depth: nat): (vs: seq<nat>)
    requires links != []
    ensures forall j :: 0 <= j < |vs| ==> vs[j] < pos && pos - vs[j] <= c.maxDist
    decreases depth
  {
    if ref < 0 || ref >= pos || pos - ref > c.maxDist || depth == 0 then []
    else [ref] + Visits(c, pos, links, links[ref % |links|], depth - 1)
  }

  /** How many bytes at v match those at pos, as far as a match may go. */
  function Matching(c: Config, data: seq<byte>, pos: nat, end: nat, v: nat): (n: nat)
    requires v < pos <= end <= |data|
  {
    Common(data, pos, v, MaxLen(c, pos, end))
  }

  /** A candidate with len bytes at offset off is no better than the match f: it is no longer, and shorter where strict
      is asked for; or, where offsets have a price, it costs more than its length makes up at six bits a byte. */
  predicate Loses(priced: bool, f: Found, len: nat, off: nat, strict: bool) {
    len < f.len || (!strict && len == f.len)
    || (priced && f.len >= 4 && len >= 4 && 6 * len - Log2(off) < 6 * f.len - Log2(f.off))
  }

  /** f stands for position i of those visited, which loses to none before it, nor, if it is shorter than 256 bytes, to
      any behind it. */
  ghost predicate Wins(priced: bool, c: Config, data: seq<byte>, pos: nat, end: nat, vs: seq<nat>, i: nat, f: Found)
    requires pos <= end <= |data| && forall j :: 0 <= j < |vs| ==> vs[j] < pos
  {
    i < |vs| && f == Found(Matching(c, data, pos, end, vs[i]), pos - vs[i]) && f.len >= 4
    && (forall j :: 0 <= j < i ==> Loses(priced, f, Matching(c, data, pos, end, vs[j]), pos - vs[j], true))
    && (f.len < 256 ==>
          forall j :: i < j < |vs| ==> Loses(priced, f, Matching(c, data, pos, end, vs[j]), pos - vs[j], false))
    && (!priced && f.len >= 256 ==> forall j :: 0 <= j < i ==> Matching(c, data, pos, end, vs[j]) < 256)
  }

  /** g takes the place of b. */
  predicate Displaces(priced: bool, g: Found, b: Found) {
    g.len > b.len && (priced && b.len >= 4 ==> 6 * g.len - Log2(g.off) >= 6 * b.len - Log2(b.off))
  }

  lemma SamePart(data: seq<byte>, i: nat, j: nat, n: nat, k: nat)
    requires i + n <= |data| && j + n <= |data| && Same(data, i, j, n) && k <= n
    ensures Same(data, i, j, k)
  {
    assert data[i..i + n][..k] == data[i..i + k] && data[j..j + n][..k] == data[j..j + k];
  }

  lemma CommonIs(data: seq<byte>, i: nat, j: nat, max: nat, n: nat)
    requires i + max <= |data| && j + max <= |data| && n <= max && Same(data, i, j, n)
    requires n < max ==> data[i + n] != data[j + n]
    ensures Common(data, i, j, max) == n
  {
    hide Same;
    var m := Common(data, i, j, max);
    if m < n {
      SameAt(data, i, j, n, m);
    } else if n < m {
      SameAt(data, i, j, m, n);
    }
  }

  /** The bytes compared in two steps are those compared at once. */
  lemma LengthIsMatching(c: Config, data: seq<byte>, pos: nat, end: nat, v: nat)
    requires v < pos && pos + 4 <= end <= |data| && c.maxMatch >= 4
    ensures Same(data, pos, v, 4) <==> Matching(c, data, pos, end, v) >= 4
    ensures Same(data, pos, v, 4) ==>
      Length(data, pos, v, 4, MaxLen(c, pos, end)) == Matching(c, data, pos, end, v)
  {
    hide Same, Common;
    var max, n := MaxLen(c, pos, end), Matching(c, data, pos, end, v);
    if n >= 4 {
      SamePart(data, pos, v, n, 4);
    }
    if Same(data, pos, v, 4) {
      var m := Common(data, pos + 4, v + 4, max - 4);
      SameGrows(data, pos, v, 4, m);
      CommonIs(data, pos, v, max, 4 + m);
    }
  }

  /** What a walk on from ref makes of the best match so far. */
  ghost predicate Outcome(priced: bool, c: Config, data: seq<byte>, pos: nat, end: nat, vs: seq<nat>, best: Found,
                          f: Found)
    requires pos <= end <= |data| && forall j :: 0 <= j < |vs| ==> vs[j] < pos
  {
    if f == best then
      forall j :: 0 <= j < |vs| ==>
        var n := Matching(c, data, pos, end, vs[j]);
        n < 4 || Loses(priced, f, n, pos - vs[j], false)
    else Displaces(priced, f, best) && exists i: nat :: Wins(priced, c, data, pos, end, vs, i, f)
  }

  lemma {:induction false} WalkWins(rule: Rule, c: Config, data: seq<byte>, pos: nat, end: nat, links: seq<int>,
                                    ref: int, depth: nat, best: Found)
    requires ConfigOk(c) && links != [] && pos + 4 <= end <= |data| && Good(c, data, pos, end, best)
    requires best.len == 0 || 4 <= best.len < 256
    ensures Outcome(rule.Priced?, c, data, pos, end, Visits(c, pos, links, ref, depth), best,
                    Walk(rule, c, data, pos, end, links, ref, depth, best))
    decreases depth
  {
    hide Good, Same, Loses, Displaces, Length, Takes, Matching, Outcome;
    var priced, vs := rule.Priced?, Visits(c, pos, links, ref, depth);
    var f := Walk(rule, c, data, pos, end, links, ref, depth, best);
    if vs != [] {
      var v, next, rest := vs[0], links[ref % |links|], vs[1..];
      var n := Matching(c, data, pos, end, v);
      LengthIsMatching(c, data, pos, end, v);
      if n >= 4 && Takes(rule, best, n, pos - v) {
        var g := Found(n, pos - v);
        if n >= 256 {
          TakesDisplaces(rule, best, n, pos - v);
          FirstWins(priced, c, data, pos, end, vs, best, f);
        } else {
          CandidateGood(c, data, pos, end, v);
          WalkWins(rule, c, data, pos, end, links, next, depth - 1, g);
          Taken(rule, c, data, pos, end, vs, best, f);
        }
      } else {
        WalkWins(rule, c, data, pos, end, links, next, depth - 1, best);
        Passed(rule, c, data, pos, end, vs, best, f);
      }
    } else {
      NothingVisited(priced, c, data, pos, end, best);
    }
  }

  lemma FirstWins(priced: bool, c: Config, data: seq<byte>, pos: nat, end: nat, vs: seq<nat>, best: Found, f: Found)
    requires pos <= end <= |data| && vs != [] && (forall j :: 0 <= j < |vs| ==> vs[j] < pos)
    requires f == Found(Matching(c, data, pos, end, vs[0]), pos - vs[0]) && f.len >= 256 && Displaces(priced, f, best)
    ensures Outcome(priced, c, data, pos, end, vs, best, f)
  {
    assert Wins(priced, c, data, pos, end, vs, 0, f);
  }

  lemma NothingVisited(priced: bool, c: Config, data: seq<byte>, pos: nat, end: nat, best: Found)
    requires pos <= end <= |data|
    ensures Outcome(priced, c, data, pos, end, [], best, best)
  {
  }

  lemma TakesDisplaces(rule: Rule, best: Found, len: nat, off: nat)
    requires Takes(rule, best, len, off)
    ensures Displaces(rule.Priced?, Found(len, off), best)
  {
  }

  /** The walk took the first position visited. */
  lemma Taken(rule: Rule, c: Config, data: seq<byte>, pos: nat, end: nat, vs: seq<nat>, best: Found, f: Found)
    requires pos <= end <= |data| && vs != [] && (forall j :: 0 <= j < |vs| ==> vs[j] < pos)
    requires best.len == 0 || best.len >= 4
    requires var n := Matching(c, data, pos, end, vs[0]);
             4 <= n < 256 && Takes(rule, best, n, pos - vs[0])
             && Outcome(rule.Priced?, c, data, pos, end, vs[1..], Found(n, pos - vs[0]), f)
    ensures Outcome(rule.Priced?, c, data, pos, end, vs, best, f)
  {
    hide Matching, Common;
    var priced, n := rule.Priced?, Matching(c, data, pos, end, vs[0]);
    var g := Found(n, pos - vs[0]);
    if f == g {
      Later(priced, c, data, pos, end, vs, f);
      assert Wins(priced, c, data, pos, end, vs, 0, f);
    } else {
      var i: nat :| Wins(priced, c, data, pos, end, vs[1..], i, f);
      Shift(priced, c, data, pos, end, vs, i, f);
    }
  }

  lemma Later(priced: bool, c: Config, data: seq<byte>, pos: nat, end: nat, vs: seq<nat>, f: Found)
    requires pos <= end <= |data| && vs != [] && (forall j :: 0 <= j < |vs| ==> vs[j] < pos)
    requires Outcome(priced, c, data, pos, end, vs[1..], f, f)
    ensures forall j :: 1 <= j < |vs| ==>
              var n := Matching(c, data, pos, end, vs[j]);
              n < 4 || Loses(priced, f, n, pos - vs[j], false)
  {
    hide Matching, Loses;
    forall j | 1 <= j < |vs|
      ensures var n := Matching(c, data, pos, end, vs[j]);
              n < 4 || Loses(priced, f, n, pos - vs[j], false)
    {
      assert vs[j] == vs[1..][j - 1];
    }
  }

  lemma CandidateGood(c: Config, data: seq<byte>, pos: nat, end: nat, v: nat)
    requires ConfigOk(c) && v < pos && pos - v <= c.maxDist && pos + 4 <= end <= |data| && Same(data, pos, v, 4)
    ensures Good(c, data, pos, end, Found(Length(data, pos, v, 4, MaxLen(c, pos, end)), pos - v))
  {
    hide Same, MatchAt;
  }

  lemma Shift(priced: bool, c: Config, data: seq<byte>, pos: nat, end: nat, vs: seq<nat>, i: nat, f: Found)
    requires pos <= end <= |data| && vs != [] && (forall j :: 0 <= j < |vs| ==> vs[j] < pos)
    requires Wins(priced, c, data, pos, end, vs[1..], i, f)
    requires var n := Matching(c, data, pos, end, vs[0]);
             Loses(priced, f, n, pos - vs[0], true) && (!priced ==> n < 256)
    ensures Wins(priced, c, data, pos, end, vs, i + 1, f)
  {
    hide Matching, Loses;
    forall j | 1 <= j < |vs| ensures vs[j] == vs[1..][j - 1] {
    }
  }

  /** The walk passed the first position visited. */
  lemma Passed(rule: Rule, c: Config, data: seq<byte>, pos: nat, end: nat, vs: seq<nat>, best: Found, f: Found)
    requires pos <= end <= |data| && vs != [] && (forall j :: 0 <= j < |vs| ==> vs[j] < pos)
    requires best.len == 0 || 4 <= best.len < 256
    requires var n := Matching(c, data, pos, end, vs[0]);
             !(n >= 4 && Takes(rule, best, n, pos - vs[0]))
             && Outcome(rule.Priced?, c, data, pos, end, vs[1..], best, f)
    ensures Outcome(rule.Priced?, c, data, pos, end, vs, best, f)
  {
    hide Matching, Common;
    var priced, n := rule.Priced?, Matching(c, data, pos, end, vs[0]);
    if f == best {
      Later(priced, c, data, pos, end, vs, f);
    } else {
      var i: nat :| Wins(priced, c, data, pos, end, vs[1..], i, f);
      Shift(priced, c, data, pos, end, vs, i, f);
    }
  }

  /** Nothing is found exactly where no position visited matches four bytes, and otherwise the one that wins. */
  ghost predicate Settles(priced: bool, c: Config, data: seq<byte>, pos: nat, end: nat, vs: seq<nat>, f: Found)
    requires pos <= end <= |data| && forall j :: 0 <= j < |vs| ==> vs[j] < pos
  {
    if forall j :: 0 <= j < |vs| ==> Matching(c, data, pos, end, vs[j]) < 4 then f.len == 0
    else exists i: nat :: Wins(priced, c, data, pos, end, vs, i, f)
  }

  lemma OutcomeSettles(priced: bool, c: Config, data: seq<byte>, pos: nat, end: nat, vs: seq<nat>, f: Found)
    requires pos <= end <= |data| && (forall j :: 0 <= j < |vs| ==> vs[j] < pos)
    requires Outcome(priced, c, data, pos, end, vs, NONE, f)
    ensures Settles(priced, c, data, pos, end, vs, f)
  {
    hide Matching;
  }

  /** single_probe_match: the first of the longest, or the first of 256 bytes and more. */
  lemma ProbeIsLongest(c: Config, data: seq<byte>, t: Tables, pos: nat, end: nat)
    requires ConfigOk(c) && Sized(c, t) && pos + 4 <= end <= |data|
    ensures Settles(false, c, data, pos, end,
                    Visits(c, pos, t.long.links, t.long.roots[HashSafe(data, pos, end)], c.depth),
                    Probe(c, data, t, pos, end))
  {
    hide Good, Outcome, Settles, HashSafe, Walk, Visits;
    var ref := t.long.roots[HashSafe(data, pos, end)];
    NothingGood(c, data, pos, end);
    WalkWins(Longest, c, data, pos, end, t.long.links, ref, c.depth, NONE);
    OutcomeSettles(false, c, data, pos, end, Visits(c, pos, t.long.links, ref, c.depth), Probe(c, data, t, pos, end));
  }

  lemma NothingGood(c: Config, data: seq<byte>, pos: nat, end: nat)
    ensures Good(c, data, pos, end, NONE)
  {
  }

  /** chain_match_ex behind its two chains: on the five-byte chain, and where that has nothing and the four-byte one is
      in use, among eight positions on that, no candidate visited makes up by its length for what its offset costs
      more. */
  lemma ChainIsBest(c: Config, data: seq<byte>, t: Tables, pos: nat, end: nat)
    requires ConfigOk(c) && Sized(c, t) && pos + 4 <= end <= |data|
    ensures var vs := Visits(c, pos, t.long.links, t.long.roots[HashSafe(data, pos, end)], c.depth);
            var f := ChainLong(c, data, t, pos, end);
            if c.useHash4 && forall j :: 0 <= j < |vs| ==> Matching(c, data, pos, end, vs[j]) < 4 then
              Settles(true, c, data, pos, end,
                      Visits(c, pos, t.mid.links, t.mid.roots[HashMid(data, pos)], 8), f)
            else Settles(true, c, data, pos, end, vs, f)
  {
    hide Good, Outcome, HashSafe, HashMid, Walk, Visits, Matching, Wins;
    var ref := t.long.roots[HashSafe(data, pos, end)];
    NothingGood(c, data, pos, end);
    WalkWins(Priced, c, data, pos, end, t.long.links, ref, c.depth, NONE);
    var vs := Visits(c, pos, t.long.links, ref, c.depth);
    var f := Walk(Priced, c, data, pos, end, t.long.links, ref, c.depth, NONE);
    OutcomeSettles(true, c, data, pos, end, vs, f);
    if i: nat :| Wins(true, c, data, pos, end, vs, i, f) {
      WinsLong(true, c, data, pos, end, vs, i, f);
    }
    if c.useHash4 {
      var mid := t.mid.roots[HashMid(data, pos)];
      var us, g := Visits(c, pos, t.mid.links, mid, 8), Walk(Priced, c, data, pos, end, t.mid.links, mid, 8, NONE);
      WalkWins(Priced, c, data, pos, end, t.mid.links, mid, 8, NONE);
      OutcomeSettles(true, c, data, pos, end, us, g);
    }
  }

  lemma WinsLong(priced: bool, c: Config, data: seq<byte>, pos: nat, end: nat, vs: seq<nat>, i: nat, f: Found)
    requires pos <= end <= |data| && (forall j :: 0 <= j < |vs| ==> vs[j] < pos)
    requires Wins(priced, c, data, pos, end, vs, i, f)
    ensures f.len >= 4 && i < |vs| && Matching(c, data, pos, end, vs[i]) >= 4
  {
  }

  /** k bytes match at recent offset number i. */
  predicate RepMatches(data: seq<byte>, r: Reps, pos: nat, k: nat, i: nat)
    requires i < 3 && pos + k <= |data|
  {
    0 < RepAt(r, i) <= pos && data[pos..pos + k] == data[pos - RepAt(r, i)..pos - RepAt(r, i) + k]
  }

  /** From number i on none does, or f is the first that does, with len bytes or all that match. */
  predicate FirstRep(c: Config, data: seq<byte>, r: Reps, pos: nat, end: nat, k: nat, i: nat, f: Found)
    requires i <= 3 && k <= 4 && pos + 4 <= end <= |data|
    decreases 3 - i
  {
    if i == 3 then f == NONE
    else if RepMatches(data, r, pos, k, i) then
      f == Found(if k == 4 then Matching(c, data, pos, end, pos - RepAt(r, i)) else k, RepAt(r, i))
    else FirstRep(c, data, r, pos, end, k, i + 1, f)
  }

  lemma RepFromIsFirst(c: Config, data: seq<byte>, r: Reps, pos: nat, end: nat, k: nat, i: nat)
    requires ConfigOk(c) && i <= 3 && 3 <= k <= 4 && pos + 4 <= end <= |data|
    ensures FirstRep(c, data, r, pos, end, k, i, RepFrom(c, data, r, pos, end, k, i))
    decreases 3 - i
  {
    hide Matching, Length;
    if i < 3 {
      var d := RepAt(r, i);
      if RepMatches(data, r, pos, k, i) && k == 4 {
        LengthIsMatching(c, data, pos, end, pos - d);
      }
      RepFromIsFirst(c, data, r, pos, end, k, i + 1);
    }
  }

  /** try_rep_match: the first recent offset at which four bytes match, with all that match; where there is none and
      matches of three bytes are in use, the first at which three do. */
  lemma RepIsFirst(c: Config, data: seq<byte>, r: Reps, pos: nat, end: nat)
    requires ConfigOk(c) && pos + 4 <= end <= |data|
    ensures var f := TryRep(c, data, r, pos, end);
            var some := exists i: nat :: i < 3 && RepMatches(data, r, pos, 4, i);
            FirstRep(c, data, r, pos, end, if some || !c.useHash3 then 4 else 3, 0, f)
  {
    hide Matching, RepMatches;
    RepFromIsFirst(c, data, r, pos, end, 4, 0);
    RepFromIsFirst(c, data, r, pos, end, 3, 0);
    SomeRep(c, data, r, pos, end, 0, RepFrom(c, data, r, pos, end, 4, 0));
  }

  lemma SomeRep(c: Config, data: seq<byte>, r: Reps, pos: nat, end: nat, i: nat, f: Found)
    requires ConfigOk(c) && i <= 3 && pos + 4 <= end <= |data| && FirstRep(c, data, r, pos, end, 4, i, f)
    ensures f.len > 0 <==> exists j: nat :: i <= j < 3 && RepMatches(data, r, pos, 4, j)
    decreases 3 - i
  {
    hide Matching;
    if i < 3 {
      if RepMatches(data, r, pos, 4, i) {
        LengthIsMatching(c, data, pos, end, pos - RepAt(r, i));
      } else {
        SomeRep(c, data, r, pos, end, i + 1, f);
      }
    }
  }
}
