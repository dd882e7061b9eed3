/** The best path against the wire: its prices, its recent offsets, and the matches of its tokens. */
module LzPath {
  import opened LittleEndian
  import opened Bits
  import opened SeqCodes
  import opened SeqHistory
  import opened SeqParse
  import opened LzEmit
  import opened LzMatch
  import opened LzParse
  import opened LzOptimal
  import opened LzOptimalParse
  import opened LzTame

  // ---------------------------------------------------------------- prices

  /** A match is charged eight bits, its offset code on the wire with the extra bits of that code, and from 19 bytes on
      eight bits more, and again for every 255 bytes above 4. */
  lemma PriceOnWire(p: Prices, r: Reps, off: nat, len: nat)
    requires PricesOk(p) && 0 < off < 0x100_0000
    ensures var c := OfEncode(r, off);
            c.sym < 27
            && MatchPrice(p, r, off, len)
               == 8 + p.of[c.sym] + c.nb + (if len >= 19 then 8 * ((len - 4) / 255 + 1) else 0)
  {
    hide Log2;
    WindowLog(off);
  }

  // ---------------------------------------------------------------- recent offsets

  /** The offsets of a path, 0 for a literal. */
  function Offsets(path: seq<Edge>): (offs: seq<nat>)
    ensures |offs| == |path|
  {
    seq(|path|, i requires 0 <= i < |path| => path[i].off)
  }

  lemma {:induction false} PathRemembers(path: seq<Edge>)
    ensures Remembers(RepsOf(path), Offsets(path))
  {
    hide RepNext, Remembers;
    if path == [] {
      NothingRemembered();
    } else {
      var rest := path[..|path| - 1];
      PathRemembers(rest);
      HistoryFollows(RepsOf(rest), Offsets(rest), path[|path| - 1].off);
      assert Offsets(path) == Offsets(rest) + [path[|path| - 1].off];
    }
  }

  // ---------------------------------------------------------------- tokens

  /** The length and the offset of a match. */
  datatype Match = Match(len: nat, off: nat)

  function MatchesOf(seqs: seq<Seq>): (ms: seq<Match>) {
    if seqs == [] then []
    else (if seqs[0].matchlen > 0 then [Match(seqs[0].matchlen, seqs[0].offset)] else []) + MatchesOf(seqs[1..])
  }

  /** The matches of a path from edge k on. */
  function MatchesFrom(path: seq<Edge>, k: nat): (ms: seq<Match>)
    requires k <= |path|
    decreases |path| - k
  {
    if k == |path| then []
    else (if path[k].off > 0 then [Match(path[k].len, path[k].off)] else []) + MatchesFrom(path, k + 1)
  }

  /** The tokens out, in front of others, parse to the matches ms in front of theirs. */
  ghost predicate Marks(ob: nat, mm: nat, out: seq<byte>, ms: seq<Match>)
    requires ob == 2 || ob == 3
  {
    forall rest: seq<byte> :: Parse(ob, mm, out + rest).Parsed? ==> MarksBefore(ob, mm, out, ms, rest)
  }

  ghost predicate MarksBefore(ob: nat, mm: nat, out: seq<byte>, ms: seq<Match>, rest: seq<byte>)
    requires (ob == 2 || ob == 3) && Parse(ob, mm, out + rest).Parsed?
  {
    Parse(ob, mm, rest).Parsed?
    && MatchesOf(Parse(ob, mm, out + rest).seqs) == ms + MatchesOf(Parse(ob, mm, rest).seqs)
  }

  lemma MarksNothing(ob: nat, mm: nat)
    requires ob == 2 || ob == 3
    ensures Marks(ob, mm, [], [])
  {
    hide Parse, MatchesOf;
    forall rest: seq<byte> | Parse(ob, mm, [] + rest).Parsed? ensures MarksBefore(ob, mm, [], [], rest) {
      assert [] + rest == rest;
      assert [] + MatchesOf(Parse(ob, mm, rest).seqs) == MatchesOf(Parse(ob, mm, rest).seqs);
    }
  }

  lemma MarksOn(ob: nat, mm: nat, out: seq<byte>, ms: seq<Match>, lits: seq<byte>, ml: nat, off: nat)
    requires (ob == 2 || ob == 3) && Marks(ob, mm, out, ms) && 0 < mm <= ml && off < OffsetLimit(ob)
    ensures Marks(ob, mm, out + Sequence(ob, mm, lits, ml, off), ms + [Match(ml, off)])
  {
    hide Sequence, Parse;
    var s, m := Sequence(ob, mm, lits, ml, off), Match(ml, off);
    forall rest: seq<byte> | Parse(ob, mm, out + s + rest).Parsed?
      ensures MarksBefore(ob, mm, out + s, ms + [m], rest)
    {
      assert out + s + rest == out + (s + rest);
      assert MarksBefore(ob, mm, out, ms, s + rest);
      ParseSequence(ob, mm, lits, ml, off, rest);
      var r := Parse(ob, mm, rest);
      assert ([Seq(|lits|, ml, off)] + r.seqs)[1..] == r.seqs;
      assert ms + [m] + MatchesOf(r.seqs) == ms + ([m] + MatchesOf(r.seqs));
    }
  }

  lemma {:induction false} NoMatchesLast(ll: nat)
    ensures MatchesOf(FinalRun(ll)) == []
  {
    if ll > LL_MAX {
      NoMatchesLast(ll - LL_MAX);
      assert FinalRun(ll)[1..] == FinalRun(ll - LL_MAX);
    } else {
      assert FinalRun(ll)[1..] == [];
    }
  }

  lemma MarksHome(ob: nat, mm: nat, out: seq<byte>, ms: seq<Match>, lits: seq<byte>)
    requires (ob == 2 || ob == 3) && Marks(ob, mm, out, ms)
    ensures var p := Parse(ob, mm, out + Sequence(ob, mm, lits, 0, 0)); p.Parsed? ==> MatchesOf(p.seqs) == ms
  {
    hide Sequence, Parse, FinalRun, MatchesOf;
    var s := Sequence(ob, mm, lits, 0, 0);
    ParseLast(ob, mm, lits);
    NoMatchesLast(|lits|);
    if Parse(ob, mm, out + s).Parsed? {
      assert MarksBefore(ob, mm, out, ms, s);
      assert ms + [] == ms;
    }
  }

  lemma {:induction false} EmitMatches(o: Opt, path: seq<Edge>, k: nat, pos: nat, lit: nat, r: Reps, out: seq<byte>,
                                       ms: seq<Match>)
    requires OptOk(o) && PathOk(o, path) && k <= |path| && lit <= pos <= o.b.end && pos + Lengths(path, k) == o.b.end
    requires forall m :: k <= m < |path| && path[m].off > 0 ==> path[m].len >= o.b.minMatch
    requires Marks(o.b.c.ob, o.b.minMatch, out, ms)
    ensures var q := EmitFrom(o, path, k, pos, lit, r, out);
            q.Emitted? ==>
              var p := Parse(o.b.c.ob, o.b.minMatch, q.out);
              p.Parsed? ==> MatchesOf(p.seqs) == ms + MatchesFrom(path, k)
    decreases |path| - k
  {
    hide Marks, Sequence, MatchAt, Needed, NeededLast, PathOk, Parse, MatchesOf, RepNext;
    var ob, mm := o.b.c.ob, o.b.minMatch;
    if k == |path| {
      MarksHome(ob, mm, out, ms, o.b.data[lit..o.b.end]);
      assert ms + [] == ms;
    } else {
      var e := path[k];
      PathPrefix(o, path, k);
      if e.off == 0 {
        EmitMatches(o, path, k + 1, pos + e.len, lit, r, out, ms);
        assert ms + ([] + MatchesFrom(path, k + 1)) == ms + MatchesFrom(path, k + 1);
      } else if |out| + Needed(pos - lit, e.len) <= o.b.cap {
        MarksOn(ob, mm, out, ms, o.b.data[lit..pos], e.len, e.off);
        EmitMatches(o, path, k + 1, pos + e.len, pos + e.len, RepNext(r, e.off),
                    out + Sequence(ob, mm, o.b.data[lit..pos], e.len, e.off), ms + [Match(e.len, e.off)]);
        assert ms + [Match(e.len, e.off)] + MatchesFrom(path, k + 1)
            == ms + ([Match(e.len, e.off)] + MatchesFrom(path, k + 1));
      }
    }
  }

  /** The tokens of the optimal parse have exactly the matches of a path that is reached at the price of the last node,
      edge by edge. */
  lemma OptimalEmits(o: Opt, t: Tables, r: Reps) returns (path: seq<Edge>)
    requires OptOk(o) && Sized(o.b.c, t)
    ensures PathOk(o, path) && EndOf(path) == Span(o) && Final(o, t).price[Span(o)] == PathCost(o, path)
    ensures Remembers(Final(o, t).reps[Span(o)], Offsets(path))
    ensures var q := OptimalTokens(o, t, r);
            q.Emitted? ==>
              var p := Parse(o.b.c.ob, o.b.minMatch, q.out);
              p.Parsed? ==> MatchesOf(p.seqs) == MatchesFrom(path, 0)
  {
    hide EmitFrom, Final, PathOk, Parse, MatchesOf, Marks, Remembers, RunVisits, Recorded;
    FinalKeeps(o, t);
    path := PathTo(Final(o, t), Span(o));
    BestPath(o, t, path);
    PathRemembers(path);
    MarksNothing(o.b.c.ob, o.b.minMatch);
    EmitMatches(o, path, 0, o.b.start, o.b.start, r, [], []);
    assert [] + MatchesFrom(path, 0) == MatchesFrom(path, 0);
  }
}
