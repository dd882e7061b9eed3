/** The walk for matches of three bytes and more, and chain_match as a whole. */
module LzShort {
  import opened Bits
  import opened LittleEndian
  import opened LzEmit
  import opened LzMatch
  import opened LzWalks

  /** Three bytes match, or more; three alone only up to 4096 bytes back. */
  predicate Eligible(c: Config, data: seq<byte>, pos: nat, end: nat, v: nat)
    requires v < pos <= end <= |data|
  {
    var n := Matching(c, data, pos, end, v);
    n >= 4 || (n == 3 && pos - v <= 4096)
  }

  /** f stands for position i of those visited: the first of the longest eligible ones, or the first of eight bytes. */
  ghost predicate Takes3(c: Config, data: seq<byte>, pos: nat, end: nat, vs: seq<nat>, i: nat, f: Found)
    requires pos <= end <= |data| && forall j :: 0 <= j < |vs| ==> vs[j] < pos
  {
    i < |vs| && Eligible(c, data, pos, end, vs[i]) && f == Found(Matching(c, data, pos, end, vs[i]), pos - vs[i])
    && (forall j :: 0 <= j < i && Eligible(c, data, pos, end, vs[j]) ==>
          Matching(c, data, pos, end, vs[j]) < Min(f.len, 8))
    && (f.len < 8 ==>
          forall j :: i < j < |vs| && Eligible(c, data, pos, end, vs[j]) ==>
            Matching(c, data, pos, end, vs[j]) <= f.len)
  }

  /** What the walk makes of the best match so far. */
  ghost predicate Outcome3(c: Config, data: seq<byte>, pos: nat, end: nat, vs: seq<nat>, best: Found, f: Found)
    requires pos <= end <= |data| && forall j :: 0 <= j < |vs| ==> vs[j] < pos
  {
    if f == best then
      forall j :: 0 <= j < |vs| && Eligible(c, data, pos, end, vs[j]) ==> Matching(c, data, pos, end, vs[j]) <= f.len
    else f.len > best.len && exists i: nat :: Takes3(c, data, pos, end, vs, i, f)
  }

  lemma MatchingSame3(c: Config, data: seq<byte>, pos: nat, end: nat, v: nat)
    requires v < pos && pos + 3 <= end <= |data| && Matching(c, data, pos, end, v) >= 3
    ensures Same(data, pos, v, 3)
  {
    hide Same;
    SamePart(data, pos, v, Matching(c, data, pos, end, v), 3);
  }

  lemma LengthIsMatching3(c: Config, data: seq<byte>, pos: nat, end: nat, v: nat)
    requires v < pos && pos + 3 <= end <= |data| && c.maxMatch >= 4
    ensures Same(data, pos, v, 3) <==> Matching(c, data, pos, end, v) >= 3
    ensures Same(data, pos, v, 3) ==>
      Length(data, pos, v, 3, MaxLen(c, pos, end)) == Matching(c, data, pos, end, v)
  {
    hide Same, Common, MatchAt;
    if Same(data, pos, v, 3) {
      var max := MaxLen(c, pos, end);
      var m := Common(data, pos + 3, v + 3, max - 3);
      SameGrows(data, pos, v, 3, m);
      CommonIs(data, pos, v, max, 3 + m);
    } else if Matching(c, data, pos, end, v) >= 3 {
      MatchingSame3(c, data, pos, end, v);
    }
  }

  lemma {:induction false} WalkShortTakes(c: Config, data: seq<byte>, pos: nat, end: nat, links: seq<int>, ref: int,
                                          depth: nat, best: Found)
    requires ConfigOk(c) && links != [] && pos + 3 <= end <= |data| && Good(c, data, pos, end, best) && best.len < 8
    ensures Outcome3(c, data, pos, end, Visits(c, pos, links, ref, depth), best,
                     WalkShort(c, data, pos, end, links, ref, depth, best))
    decreases depth
  {
    hide Good, Same, Length, Matching, Outcome3, Takes3;
    var vs := Visits(c, pos, links, ref, depth);
    var f := WalkShort(c, data, pos, end, links, ref, depth, best);
    if vs != [] {
      var v, next, rest := vs[0], links[ref % |links|], vs[1..];
      var n := Matching(c, data, pos, end, v);
      LengthIsMatching3(c, data, pos, end, v);
      if Eligible(c, data, pos, end, v) && n > best.len {
        if n >= 8 {
          First3(c, data, pos, end, vs, best, f);
        } else {
          Good3(c, data, pos, end, v);
          WalkShortTakes(c, data, pos, end, links, next, depth - 1, Found(n, pos - v));
          Taken3(c, data, pos, end, vs, best, f);
        }
      } else {
        WalkShortTakes(c, data, pos, end, links, next, depth - 1, best);
        Passed3(c, data, pos, end, vs, best, f);
      }
    } else {
      None3(c, data, pos, end, best);
    }
  }

  lemma None3(c: Config, data: seq<byte>, pos: nat, end: nat, best: Found)
    requires pos <= end <= |data|
    ensures Outcome3(c, data, pos, end, [], best, best)
  {
  }

  lemma Good3(c: Config, data: seq<byte>, pos: nat, end: nat, v: nat)
    requires ConfigOk(c) && v < pos && pos - v <= c.maxDist && pos + 3 <= end <= |data| && Same(data, pos, v, 3)
    ensures Good(c, data, pos, end, Found(Length(data, pos, v, 3, MaxLen(c, pos, end)), pos - v))
  {
    hide Same, MatchAt;
  }

  lemma First3(c: Config, data: seq<byte>, pos: nat, end: nat, vs: seq<nat>, best: Found, f: Found)
    requires pos <= end <= |data| && vs != [] && (forall j :: 0 <= j < |vs| ==> vs[j] < pos)
    requires f == Found(Matching(c, data, pos, end, vs[0]), pos - vs[0]) && f.len >= 8 && f.len > best.len
    ensures Outcome3(c, data, pos, end, vs, best, f)
  {
    hide Matching;
    assert Takes3(c, data, pos, end, vs, 0, f);
  }

  lemma Taken3(c: Config, data: seq<byte>, pos: nat, end: nat, vs: seq<nat>, best: Found, f: Found)
    requires pos <= end <= |data| && vs != [] && (forall j :: 0 <= j < |vs| ==> vs[j] < pos)
    requires var n := Matching(c, data, pos, end, vs[0]);
             Eligible(c, data, pos, end, vs[0]) && best.len < n < 8
             && Outcome3(c, data, pos, end, vs[1..], Found(n, pos - vs[0]), f)
    ensures Outcome3(c, data, pos, end, vs, best, f)
  {
    hide Matching, Eligible;
    var g := Found(Matching(c, data, pos, end, vs[0]), pos - vs[0]);
    if f == g {
      forall j | 0 < j < |vs| && Eligible(c, data, pos, end, vs[j])
        ensures Matching(c, data, pos, end, vs[j]) <= f.len
      {
        assert vs[j] == vs[1..][j - 1];
      }
      assert Takes3(c, data, pos, end, vs, 0, f);
    } else {
      var i: nat :| Takes3(c, data, pos, end, vs[1..], i, f);
      Shift3(c, data, pos, end, vs, i, f);
    }
  }

  lemma Shift3(c: Config, data: seq<byte>, pos: nat, end: nat, vs: seq<nat>, i: nat, f: Found)
    requires pos <= end <= |data| && vs != [] && (forall j :: 0 <= j < |vs| ==> vs[j] < pos)
    requires Takes3(c, data, pos, end, vs[1..], i, f)
    requires Eligible(c, data, pos, end, vs[0]) ==> Matching(c, data, pos, end, vs[0]) < Min(f.len, 8)
    ensures Takes3(c, data, pos, end, vs, i + 1, f)
  {
    hide Matching, Eligible;
    forall j | 1 <= j < |vs| ensures vs[j] == vs[1..][j - 1] {
    }
  }

  lemma Passed3(c: Config, data: seq<byte>, pos: nat, end: nat, vs: seq<nat>, best: Found, f: Found)
    requires pos <= end <= |data| && vs != [] && (forall j :: 0 <= j < |vs| ==> vs[j] < pos) && best.len < 8
    requires Eligible(c, data, pos, end, vs[0]) ==> Matching(c, data, pos, end, vs[0]) <= best.len
    requires Outcome3(c, data, pos, end, vs[1..], best, f)
    ensures Outcome3(c, data, pos, end, vs, best, f)
  {
    hide Matching, Eligible;
    if f == best {
      forall j | 0 < j < |vs| && Eligible(c, data, pos, end, vs[j])
        ensures Matching(c, data, pos, end, vs[j]) <= f.len
      {
        assert vs[j] == vs[1..][j - 1];
      }
    } else {
      var i: nat :| Takes3(c, data, pos, end, vs[1..], i, f);
      Shift3(c, data, pos, end, vs, i, f);
    }
  }

  /** chain_match: the match of the longer chains where those have one or matches of three bytes are not in use;
      otherwise nothing exactly where none of the four positions visited on the three-byte chain is eligible, or else
      the one the walk takes. */
  lemma ShortIsLongest(c: Config, data: seq<byte>, t: Tables, pos: nat, end: nat)
    requires ConfigOk(c) && Sized(c, t) && pos + 3 <= end <= |data|
    ensures var long := if pos + 4 <= end then ChainLong(c, data, t, pos, end) else NONE;
            var f := Chain(c, data, t, pos, end);
            if long.len >= 4 || !c.useHash3 then f == long
            else
              var vs := Visits(c, pos, t.short.links, t.short.roots[HashShort(data, pos)], 4);
              if forall j :: 0 <= j < |vs| ==> !Eligible(c, data, pos, end, vs[j]) then f.len == 0
              else exists i: nat :: Takes3(c, data, pos, end, vs, i, f)
  {
    hide Good, Matching, WalkShort, HashShort, HashSafe, HashMid, Walk, Visits;
    NothingGood(c, data, pos, end);
    if pos + 4 <= end {
      LongOrNone(c, data, t, pos, end);
    }
    if c.useHash3 {
      WalkShortTakes(c, data, pos, end, t.short.links, t.short.roots[HashShort(data, pos)], 4, NONE);
    }
  }

  lemma LongOrNone(c: Config, data: seq<byte>, t: Tables, pos: nat, end: nat)
    requires ConfigOk(c) && Sized(c, t) && pos + 4 <= end <= |data|
    ensures var f := ChainLong(c, data, t, pos, end); f == NONE || f.len >= 4
  {
    hide Good, Matching, HashSafe, HashMid, Length;
    var ref := t.long.roots[HashSafe(data, pos, end)];
    NothingGood(c, data, pos, end);
    WalkLong(Priced, c, data, pos, end, t.long.links, ref, c.depth, NONE);
    if c.useHash4 {
      WalkLong(Priced, c, data, pos, end, t.mid.links, t.mid.roots[HashMid(data, pos)], 8, NONE);
    }
  }

  lemma {:induction false} WalkLong(rule: Rule, c: Config, data: seq<byte>, pos: nat, end: nat, links: seq<int>,
                                    ref: int, depth: nat, best: Found)
    requires ConfigOk(c) && links != [] && pos + 4 <= end <= |data| && Good(c, data, pos, end, best)
    requires best == NONE || best.len >= 4
    ensures var f := Walk(rule, c, data, pos, end, links, ref, depth, best); f == NONE || f.len >= 4
    decreases depth
  {
    hide Good, Same, Takes, Length;
    if Oldest(c, pos) <= ref < pos && depth > 0 {
      var next := links[ref % |links|];
      if Same(data, pos, ref, 4) {
        CandidateGood(c, data, pos, end, ref);
        WalkLong(rule, c, data, pos, end, links, next, depth - 1,
                 Found(Length(data, pos, ref, 4, MaxLen(c, pos, end)), pos - ref));
      }
      WalkLong(rule, c, data, pos, end, links, next, depth - 1, best);
    }
  }
}
