/** The tokens of the encoder parse into sequences the sequence coder can represent, and decode in any window at least
    as wide. */
module LzTame {
  import opened LittleEndian
  import opened Lz
  import opened LzEmit
  import opened LzMatch
  import opened LzParse
  import opened LzOptimal
  import opened LzOptimalParse
  import opened SeqCodes
  import SeqParse

  // ---------------------------------------------------------------- wider windows

  /** A larger bound on offsets does no harm to a stream that decodes. */
  lemma {:induction false} Widen(p: Params, maxOffset: nat, s: seq<byte>, h: seq<byte>)
    requires ParamsOk(p) && p.maxOffset <= maxOffset && Decode(p, s, h).Done?
    ensures Decode(p.(maxOffset := maxOffset), s, h) == Decode(p, s, h)
    decreases |s|
  {
    hide ReadLen, DecodeMatch;
    if s != [] {
      var e := ReadLen(s[0] / 16, s[1..]);
      var s1 := s[1 + e.used..];
      if e.val != |s1| {
        WidenMatch(p, maxOffset, s[0] % 16, s1[e.val..], h + s1[..e.val]);
      }
    }
  }

  lemma {:induction false} WidenMatch(p: Params, maxOffset: nat, mc: nat, s: seq<byte>, h: seq<byte>)
    requires ParamsOk(p) && p.maxOffset <= maxOffset && DecodeMatch(p, mc, s, h).Done?
    ensures DecodeMatch(p.(maxOffset := maxOffset), mc, s, h) == DecodeMatch(p, mc, s, h)
    decreases |s|
  {
    hide ReadLen, Decode, CopyMatch;
    var e := ReadLen(mc, s[p.ob..]);
    Widen(p, maxOffset, s[p.ob + e.used..], CopyMatch(h, Offset(s, p.ob), e.val + p.minMatch));
  }

  // ---------------------------------------------------------------- what tokens parse into

  /** A sequence within the limits of the matcher. */
  predicate Within(mm: nat, mx: nat, q: SeqParse.Seq) {
    q.litlen <= SeqParse.LL_MAX && (q.matchlen > 0 ==> mm <= q.matchlen <= mx && 0 < q.offset < 0x100_0000)
  }

  /** The stream is rejected, or all its sequences are within the limits. */
  predicate Tame(ob: nat, mm: nat, mx: nat, s: seq<byte>)
    requires ob == 2 || ob == 3
  {
    var r := SeqParse.Parse(ob, mm, s);
    r.Parsed? ==> forall q :: q in r.seqs ==> Within(mm, mx, q)
  }

  ghost predicate Keeps(ob: nat, mm: nat, mx: nat, out: seq<byte>)
    requires ob == 2 || ob == 3
  {
    forall rest: seq<byte> :: Tame(ob, mm, mx, rest) ==> Tame(ob, mm, mx, out + rest)
  }

  lemma KeepsNothing(ob: nat, mm: nat, mx: nat)
    requires ob == 2 || ob == 3
    ensures Keeps(ob, mm, mx, [])
  {
    forall rest: seq<byte> | Tame(ob, mm, mx, rest) ensures Tame(ob, mm, mx, [] + rest) {
      assert [] + rest == rest;
    }
  }

  /** Parsing an emitted sequence with a match. */
  lemma ParseSequence(ob: nat, mm: nat, lits: seq<byte>, ml: nat, off: nat, rest: seq<byte>)
    requires (ob == 2 || ob == 3) && 0 < mm <= ml && off < OffsetLimit(ob)
    ensures SeqParse.Parse(ob, mm, Sequence(ob, mm, lits, ml, off) + rest)
            == if |lits| > SeqParse.LL_MAX then SeqParse.Rejected
               else SeqParse.Add(lits, SeqParse.Seq(|lits|, ml, off), SeqParse.Parse(ob, mm, rest))
  {
    hide ReadLen, ReadLenLax, Nibble, Extension, Offset, OffsetBytes, Sequence, SeqParse.ParseMatch, SeqParse.Add;
    var v, s := ml - mm, Sequence(ob, mm, lits, ml, off) + rest;
    var tail := OffsetBytes(off, ob) + Extension(v) + rest;
    var u, s1 := |Extension(|lits|)|, lits + tail;
    SequenceParts(ob, mm, lits, ml, off, rest);
    ReadLength(|lits|, s1);
    ReadLenLocal(Nibble(|lits|), Extension(|lits|) + s1, []);
    assert s1[..|lits|] == lits && s1[|lits|..] == tail;
    if |lits| <= SeqParse.LL_MAX {
      ParseTail(ob, mm, lits, v, off, rest);
    }
  }

  lemma ParseTail(ob: nat, mm: nat, lits: seq<byte>, v: nat, off: nat, rest: seq<byte>)
    requires (ob == 2 || ob == 3) && off < OffsetLimit(ob)
    ensures SeqParse.ParseMatch(ob, mm, Nibble(v), lits, OffsetBytes(off, ob) + Extension(v) + rest)
            == SeqParse.Add(lits, SeqParse.Seq(|lits|, v + mm, off), SeqParse.Parse(ob, mm, rest))
  {
    hide ReadLen, ReadLenLax, Nibble, Extension, Offset, OffsetBytes, SeqParse.Parse, SeqParse.Add;
    var s := OffsetBytes(off, ob) + Extension(v) + rest;
    assert s == OffsetBytes(off, ob) + (Extension(v) + rest);
    OffsetRead(off, ob, Extension(v) + rest);
    assert s[ob..] == Extension(v) + rest;
    ReadLength(v, rest);
    ReadLenLocal(Nibble(v), Extension(v) + rest, []);
    assert s[ob + |Extension(v)|..] == rest;
  }

  lemma KeepsOn(ob: nat, mm: nat, mx: nat, out: seq<byte>, lits: seq<byte>, ml: nat, off: nat)
    requires (ob == 2 || ob == 3) && Keeps(ob, mm, mx, out) && 0 < mm <= ml <= mx && 0 < off < OffsetLimit(ob)
    ensures Keeps(ob, mm, mx, out + Sequence(ob, mm, lits, ml, off))
  {
    hide Sequence, SeqParse.Parse;
    var s := Sequence(ob, mm, lits, ml, off);
    forall rest: seq<byte> | Tame(ob, mm, mx, rest) ensures Tame(ob, mm, mx, out + s + rest) {
      ParseSequence(ob, mm, lits, ml, off, rest);
      assert Tame(ob, mm, mx, s + rest);
      assert out + s + rest == out + (s + rest);
    }
  }

  /** The trailing literals. */
  lemma ParseLast(ob: nat, mm: nat, lits: seq<byte>)
    requires ob == 2 || ob == 3
    ensures SeqParse.Parse(ob, mm, Sequence(ob, mm, lits, 0, 0)) == SeqParse.Parsed(SeqParse.FinalRun(|lits|), lits)
  {
    hide ReadLen, ReadLenLax, Nibble, Extension, SeqParse.FinalRun, SeqParse.ParseMatch;
    var s := Sequence(ob, mm, lits, 0, 0);
    Nibbles(Nibble(|lits|), 0);
    assert s[1..] == Extension(|lits|) + lits;
    ReadLength(|lits|, lits);
    ReadLenLocal(Nibble(|lits|), Extension(|lits|) + lits, []);
    assert s[1 + |Extension(|lits|)|..] == lits;
  }

  lemma {:induction false} FinalRunWithin(ll: nat, mm: nat, mx: nat)
    ensures forall q :: q in SeqParse.FinalRun(ll) ==> Within(mm, mx, q)
    decreases ll
  {
    if ll > SeqParse.LL_MAX {
      FinalRunWithin(ll - SeqParse.LL_MAX, mm, mx);
    }
  }

  lemma KeepsHome(ob: nat, mm: nat, mx: nat, out: seq<byte>, lits: seq<byte>)
    requires (ob == 2 || ob == 3) && Keeps(ob, mm, mx, out)
    ensures Tame(ob, mm, mx, out + Sequence(ob, mm, lits, 0, 0))
  {
    hide Sequence, SeqParse.Parse, SeqParse.FinalRun, Within;
    ParseLast(ob, mm, lits);
    FinalRunWithin(|lits|, mm, mx);
    assert Tame(ob, mm, mx, Sequence(ob, mm, lits, 0, 0));
  }

  // ---------------------------------------------------------------- the parsers

  ghost predicate TameSoFar(b: Block, out: seq<byte>)
    requires BlockOk(b)
  {
    Keeps(b.c.ob, b.minMatch, b.c.maxMatch, out)
  }

  lemma MoveTame(b: Block, s: Cursor)
    requires BlockOk(b) && CursorOk(b, s) && s.pos + b.minMatch < b.end && RepsWithin(s.reps, b.c.maxDist)
    requires TameSoFar(b, s.out) && Move(b, s).Next?
    ensures TameSoFar(b, Move(b, s).s.out)
  {
    hide Keeps, Lazy, Sized, InsertMatch, Insert, Sequence, Needed, MatchAt;
    var k := Lazy(b, s);
    if k.f.len >= b.minMatch {
      MatchOff(b, k.pos, k.f);
      KeepsOn(b.c.ob, b.minMatch, b.c.maxMatch, s.out, b.data[s.lit..k.pos], k.f.len, k.f.off);
    }
  }

  lemma MatchOff(b: Block, pos: nat, f: Found)
    requires Good(b.c, b.data, pos, b.end, f) && f.len > 0
    ensures f.off > 0
  {
  }

  lemma {:induction false} ParseTame(b: Block, s: Cursor)
    requires BlockOk(b) && CursorOk(b, s) && RepsWithin(s.reps, b.c.maxDist) && TameSoFar(b, s.out)
    ensures var r := ParseFrom(b, s); r.Tokens? ==> Tame(b.c.ob, b.minMatch, b.c.maxMatch, r.out)
    decreases b.end - s.pos
  {
    hide Keeps, Tame, Move, Sequence, NeededLast;
    if s.pos + b.minMatch >= b.end {
      KeepsHome(b.c.ob, b.minMatch, b.c.maxMatch, s.out, b.data[s.lit..b.end]);
    } else if Move(b, s).Next? {
      MoveTame(b, s);
      ParseTame(b, Move(b, s).s);
    }
  }

  /** The greedy and lazy tokens of a block. */
  lemma BlockTame(b: Block, r: Reps, t: Tables)
    requires BlockOk(b) && Sized(b.c, t) && RepsWithin(r, b.c.maxDist)
    ensures var q := ParseBlock(b, r, t); q.Tokens? ==> Tame(b.c.ob, b.minMatch, b.c.maxMatch, q.out)
  {
    hide Tame, ParseFrom;
    KeepsNothing(b.c.ob, b.minMatch, b.c.maxMatch);
    ParseTame(b, Begin(b, r, t));
  }

  /** The tokens of a path the source supports. */
  lemma {:induction false} EmitTame(o: Opt, path: seq<Edge>, k: nat, pos: nat, lit: nat, r: Reps, out: seq<byte>)
    requires OptOk(o) && PathOk(o, path) && k <= |path| && lit <= pos <= o.b.end && pos + Lengths(path, k) == o.b.end
    requires forall m :: k <= m < |path| && path[m].off > 0 ==> path[m].len >= o.b.minMatch
    requires TameSoFar(o.b, out)
    ensures var q := EmitFrom(o, path, k, pos, lit, r, out);
            q.Emitted? ==> Tame(o.b.c.ob, o.b.minMatch, o.b.c.maxMatch, q.out)
    decreases |path| - k
  {
    hide Keeps, Tame, Sequence, MatchAt, Needed, NeededLast, PathOk;
    if k == |path| {
      KeepsHome(o.b.c.ob, o.b.minMatch, o.b.c.maxMatch, out, o.b.data[lit..o.b.end]);
    } else {
      var e := path[k];
      PathPrefix(o, path, k);
      if e.off == 0 {
        EmitTame(o, path, k + 1, pos + e.len, lit, r, out);
      } else if |out| + Needed(pos - lit, e.len) <= o.b.cap {
        KeepsOn(o.b.c.ob, o.b.minMatch, o.b.c.maxMatch, out, o.b.data[lit..pos], e.len, e.off);
        EmitTame(o, path, k + 1, pos + e.len, pos + e.len, RepNext(r, e.off),
                 out + Sequence(o.b.c.ob, o.b.minMatch, o.b.data[lit..pos], e.len, e.off));
      }
    }
  }

  /** The tokens of the optimal parse. */
  lemma OptimalTame(o: Opt, t: Tables, r: Reps)
    requires OptOk(o) && Sized(o.b.c, t)
    ensures var q := OptimalTokens(o, t, r); q.Emitted? ==> Tame(o.b.c.ob, o.b.minMatch, o.b.c.maxMatch, q.out)
  {
    hide Tame, EmitFrom, Final, PathOk;
    FinalKeeps(o, t);
    var path := PathTo(Final(o, t), Span(o));
    BestPath(o, t, path);
    KeepsNothing(o.b.c.ob, o.b.minMatch, o.b.c.maxMatch);
    EmitTame(o, path, 0, o.b.start, o.b.start, r, []);
  }
}
