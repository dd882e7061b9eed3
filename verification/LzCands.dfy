/** What the optimal parser collects at a position. */
module LzCands {
  import opened LittleEndian
  import opened SeqCodes
  import opened LzMatch
  import opened LzWalks
  import opened LzOptimal

  /** Every candidate has all the bytes that match at its offset, four or more. */
  predicate Exact(c: Config, data: seq<byte>, pos: nat, end: nat, fs: seq<Found>)
    requires pos <= end <= |data|
  {
    forall k :: 0 <= k < |fs| ==>
      0 < fs[k].off <= pos && fs[k].len == Matching(c, data, pos, end, pos - fs[k].off) && fs[k].len >= 4
  }

  /** If four bytes match at offset off, that match is among the candidates. */
  predicate Lists(c: Config, data: seq<byte>, pos: nat, end: nat, fs: seq<Found>, off: nat)
    requires 0 < off <= pos <= end <= |data|
  {
    var n := Matching(c, data, pos, end, pos - off);
    n >= 4 ==> Found(n, off) in fs
  }

  /** No sixteen candidates and none of 512 bytes, which would have ended the search. */
  predicate Unlimited(fs: seq<Found>) { |fs| < 16 && forall k :: 0 <= k < |fs| ==> fs[k].len < 512 }

  /** The matches at the recent offsets from number i on are among the candidates. */
  predicate ListsReps(c: Config, data: seq<byte>, r: Reps, pos: nat, end: nat, fs: seq<Found>, i: nat)
    requires pos <= end <= |data|
  {
    forall j: nat :: i <= j < 3 && 0 < RepAt(r, j) <= pos ==> Lists(c, data, pos, end, fs, RepAt(r, j))
  }

  /** The matches at the positions visited are among the candidates. */
  predicate ListsAll(c: Config, data: seq<byte>, pos: nat, end: nat, fs: seq<Found>, vs: seq<nat>)
    requires pos <= end <= |data| && forall j :: 0 <= j < |vs| ==> vs[j] < pos
  {
    forall j :: 0 <= j < |vs| ==> Lists(c, data, pos, end, fs, pos - vs[j])
  }

  lemma {:induction false} RepCandsList(c: Config, data: seq<byte>, r: Reps, pos: nat, end: nat, i: nat,
                                        fs: seq<Found>)
    requires ConfigOk(c) && pos + 4 <= end <= |data| && i <= 3 && |fs| <= i && Exact(c, data, pos, end, fs)
    ensures var gs := RepCands(c, data, r, pos, end, i, fs);
            Exact(c, data, pos, end, gs) && fs <= gs && (Unlimited(gs) ==> ListsReps(c, data, r, pos, end, gs, i))
    decreases 3 - i
  {
    hide Common, Lists, ListsReps, Exact, Unlimited;
    var hs := RepCands(c, data, r, pos, end, i, fs);
    if i == 3 {
      RepsStep(c, data, r, pos, end, hs, 3);
    } else {
      var d := RepAt(r, i);
      if d == 0 || d > pos {
        RepCandsList(c, data, r, pos, end, i + 1, fs);
        RepsStep(c, data, r, pos, end, hs, i);
      } else {
        var l := Matching(c, data, pos, end, pos - d);
        var gs := if l >= 4 then fs + [Found(l, d)] else fs;
        OneMoreExact(c, data, pos, end, fs, d);
        if l >= 512 {
          Ended(gs, Found(l, d));
        } else {
          RepCandsList(c, data, r, pos, end, i + 1, gs);
          ListsMore(c, data, pos, end, gs, hs, d);
          RepsStep(c, data, r, pos, end, hs, i);
        }
      }
    }
  }

  lemma RepsStep(c: Config, data: seq<byte>, r: Reps, pos: nat, end: nat, fs: seq<Found>, i: nat)
    requires pos <= end <= |data| && i <= 3
    requires i < 3 && 0 < RepAt(r, i) <= pos ==> Lists(c, data, pos, end, fs, RepAt(r, i))
    ensures i == 3 || ListsReps(c, data, r, pos, end, fs, i + 1) ==> ListsReps(c, data, r, pos, end, fs, i)
  {
    hide Lists;
  }

  lemma OneMoreExact(c: Config, data: seq<byte>, pos: nat, end: nat, fs: seq<Found>, d: nat)
    requires 0 < d <= pos <= end <= |data| && Exact(c, data, pos, end, fs)
    ensures var l := Matching(c, data, pos, end, pos - d);
            var gs := if l >= 4 then fs + [Found(l, d)] else fs;
            Exact(c, data, pos, end, gs) && Lists(c, data, pos, end, gs, d)
  {
    hide Matching;
    var l := Matching(c, data, pos, end, pos - d);
    assert l >= 4 ==> (fs + [Found(l, d)])[|fs|] == Found(l, d);
  }

  lemma AddCandLists(c: Config, data: seq<byte>, pos: nat, end: nat, fs: seq<Found>, f: Found)
    requires pos <= end <= |data| && Exact(c, data, pos, end, fs)
    requires 0 < f.off <= pos && f.len == Matching(c, data, pos, end, pos - f.off) && f.len >= 4
    ensures var gs := AddCand(fs, f);
            Exact(c, data, pos, end, gs) && f in gs && fs <= gs && |fs| <= |gs| <= |fs| + 1
  {
    hide Matching;
    var j := SameOffset(fs, f.off, 0);
    if j < |fs| {
      assert fs[j] == f;
    }
  }

  lemma {:induction false} ChainCandsList(c: Config, data: seq<byte>, pos: nat, end: nat, links: seq<int>, ref: int,
                                          depth: nat, fs: seq<Found>)
    requires ConfigOk(c) && links != [] && pos + 4 <= end <= |data| && Exact(c, data, pos, end, fs)
    ensures var gs := ChainCands(c, data, pos, end, links, ref, depth, fs);
            Exact(c, data, pos, end, gs) && fs <= gs
            && (Unlimited(gs) ==> ListsAll(c, data, pos, end, gs, Visits(c, pos, links, ref, depth)))
    decreases depth
  {
    hide Exact, Same, Matching, Length, AddCand, Lists, ListsAll, Unlimited;
    var gs := ChainCands(c, data, pos, end, links, ref, depth, fs);
    var vs := Visits(c, pos, links, ref, depth);
    if vs == [] {
      ListsNone(c, data, pos, end, gs);
    } else if |fs| >= 16 {
      Full(fs);
    } else {
      var v, next := vs[0], links[ref % |links|];
      var n := Matching(c, data, pos, end, v);
      LengthIsMatching(c, data, pos, end, v);
      if n < 4 {
        ChainCandsList(c, data, pos, end, links, next, depth - 1, fs);
        ListsShort(c, data, pos, end, gs, v);
      } else {
        var hs := AddCand(fs, Found(n, pos - v));
        AddCandLists(c, data, pos, end, fs, Found(n, pos - v));
        if n < 512 {
          ChainCandsList(c, data, pos, end, links, next, depth - 1, hs);
          ListsAdded(c, data, pos, end, hs, gs, v);
        } else {
          Ended(hs, Found(n, pos - v));
        }
      }
      if Unlimited(gs) {
        ListsStep(c, data, pos, end, gs, vs);
      }
    }
  }

  lemma ListsNone(c: Config, data: seq<byte>, pos: nat, end: nat, fs: seq<Found>)
    requires pos <= end <= |data|
    ensures ListsAll(c, data, pos, end, fs, [])
  {
  }

  lemma Full(fs: seq<Found>)
    ensures |fs| >= 16 ==> !Unlimited(fs)
  {
  }

  lemma Ended(fs: seq<Found>, f: Found)
    requires f in fs && f.len >= 512
    ensures !Unlimited(fs)
  {
  }

  lemma ListsShort(c: Config, data: seq<byte>, pos: nat, end: nat, fs: seq<Found>, v: nat)
    requires v < pos <= end <= |data| && Matching(c, data, pos, end, v) < 4
    ensures Lists(c, data, pos, end, fs, pos - v)
  {
    hide Matching;
  }

  lemma ListsAdded(c: Config, data: seq<byte>, pos: nat, end: nat, fs: seq<Found>, gs: seq<Found>, v: nat)
    requires v < pos <= end <= |data| && Found(Matching(c, data, pos, end, v), pos - v) in fs && fs <= gs
    ensures Lists(c, data, pos, end, gs, pos - v)
  {
    hide Matching;
  }

  lemma ListsStep(c: Config, data: seq<byte>, pos: nat, end: nat, fs: seq<Found>, vs: seq<nat>)
    requires pos <= end <= |data| && vs != [] && (forall j :: 0 <= j < |vs| ==> vs[j] < pos)
    requires Lists(c, data, pos, end, fs, pos - vs[0]) && ListsAll(c, data, pos, end, fs, vs[1..])
    ensures ListsAll(c, data, pos, end, fs, vs)
  {
    hide Lists;
    forall j | 0 <= j < |vs| ensures Lists(c, data, pos, end, fs, pos - vs[j]) {
      assert j > 0 ==> vs[j] == vs[1..][j - 1];
    }
  }

  /** Candidates have all the bytes that match at their offsets; and unless there are sixteen, or one of 512 bytes,
      every recent offset and every position the walk visits is among them if four bytes match there. */
  lemma CollectLists(c: Config, data: seq<byte>, t: Table, r: Reps, pos: nat, end: nat)
    requires ConfigOk(c) && TableSized(t, LONG_ROOTS, c.slots) && pos + 4 <= end <= |data|
    ensures var fs := Collect(c, data, t, r, pos, end);
            var vs := Visits(c, pos, t.links, t.roots[HashSafe(data, pos, end)], c.depth);
            Exact(c, data, pos, end, fs)
            && (Unlimited(fs) ==>
                  ListsReps(c, data, r, pos, end, fs, 0) && ListsAll(c, data, pos, end, fs, vs))
  {
    hide HashSafe, Lists, ListsAll, Exact, Visits, ChainCands, RepCands;
    NoCandsExact(c, data, pos, end);
    RepCandsList(c, data, r, pos, end, 0, []);
    var fs := RepCands(c, data, r, pos, end, 0, []);
    if !EndsLong(fs) {
      var ref := t.roots[HashSafe(data, pos, end)];
      ChainCandsList(c, data, pos, end, t.links, ref, c.depth, fs);
      var gs := ChainCands(c, data, pos, end, t.links, ref, c.depth, fs);
      if Unlimited(gs) {
        PrefixUnlimited(fs, gs);
        forall i: nat | i < 3 && 0 < RepAt(r, i) <= pos ensures Lists(c, data, pos, end, gs, RepAt(r, i)) {
          ListsMore(c, data, pos, end, fs, gs, RepAt(r, i));
        }
      }
    } else {
      Ended(fs, fs[|fs| - 1]);
    }
  }

  lemma PrefixUnlimited(fs: seq<Found>, gs: seq<Found>)
    requires fs <= gs && Unlimited(gs)
    ensures Unlimited(fs)
  {
  }

  lemma NoCandsExact(c: Config, data: seq<byte>, pos: nat, end: nat)
    requires pos <= end <= |data|
    ensures Exact(c, data, pos, end, [])
  {
  }

  lemma ListsMore(c: Config, data: seq<byte>, pos: nat, end: nat, fs: seq<Found>, gs: seq<Found>, off: nat)
    requires 0 < off <= pos <= end <= |data| && fs <= gs && Lists(c, data, pos, end, fs, off)
    ensures Lists(c, data, pos, end, gs, off)
  {
    hide Matching;
  }
}
