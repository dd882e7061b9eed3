/** Literal runs of more than 65535 bytes that are not the last: when they arise, and what parse_sequences does with
    them. */
module LzLongRuns {
  import opened LittleEndian
  import opened SeqCodes
  import opened SeqParse
  import opened Lz
  import opened LzEmit
  import opened LzMatch
  import opened LzParse

  // ---------------------------------------------------------------- refused by the sequence coder

  /** Some token before the last has more literals than a sequence may have. */
  predicate LongRun(ob: nat, s: seq<byte>)
    requires ob == 2 || ob == 3
    decreases |s|
  {
    s != []
    && match ReadLenLax(s[0] / 16, s[1..])
       case CutOff => false
       case Ext(ll, used) =>
         var s1 := s[1 + used..];
         ll < |s1| && (ll > LL_MAX || LongRunAfter(ob, s[0] % 16, s1[ll..]))
  }

  predicate LongRunAfter(ob: nat, mc: nat, s: seq<byte>)
    requires ob == 2 || ob == 3
    decreases |s|
  {
    |s| >= ob
    && match ReadLenLax(mc, s[ob..])
       case CutOff => false
       case Ext(_, used) => LongRun(ob, s[ob + used..])
  }

  /** Of the token streams that decode, exactly those with such a run are not turned into sequences. */
  lemma {:induction false} ParseRejectsExactly(p: Params, s: seq<byte>, h: seq<byte>)
    requires ParamsOk(p) && Decode(p, s, h).Done?
    ensures Parse(p.ob, p.minMatch, s).Rejected? <==> LongRun(p.ob, s)
    decreases |s|
  {
    if s != [] {
      hide ReadLen, ReadLenLax, DecodeMatch, ParseMatch, LongRunAfter, FinalRun;
      ReadLenLocal(s[0] / 16, s[1..], []);
      var e := ReadLen(s[0] / 16, s[1..]);
      var s1 := s[1 + e.used..];
      if e.val < |s1| <= LL_MAX + |s1| - e.val {
        RejectsAfter(p, s[0] % 16, s1[..e.val], s1[e.val..], h + s1[..e.val]);
      }
    }
  }

  lemma {:induction false} RejectsAfter(p: Params, mc: nat, run: seq<byte>, s: seq<byte>, h: seq<byte>)
    requires ParamsOk(p) && DecodeMatch(p, mc, s, h).Done?
    ensures ParseMatch(p.ob, p.minMatch, mc, run, s).Rejected? <==> LongRunAfter(p.ob, mc, s)
    decreases |s|
  {
    hide ReadLen, ReadLenLax, Decode, Parse, LongRun, CopyMatch, Offset;
    ReadLenLocal(mc, s[p.ob..], []);
    var e := ReadLen(mc, s[p.ob..]);
    ParseRejectsExactly(p, s[p.ob + e.used..], CopyMatch(h, Offset(s, p.ob), e.val + p.minMatch));
  }

  /** A long run in front of a match. */
  lemma LongFirst(ob: nat, minMatch: nat, lits: seq<byte>, ml: nat, off: nat, rest: seq<byte>)
    requires (ob == 2 || ob == 3) && ml >= minMatch && ml > 0 && |lits| > LL_MAX
    ensures LongRun(ob, Sequence(ob, minMatch, lits, ml, off) + rest)
    ensures Parse(ob, minMatch, Sequence(ob, minMatch, lits, ml, off) + rest).Rejected?
  {
    hide ReadLen, ReadLenLax, Nibble, Extension, OffsetBytes, Sequence, ParseMatch, LongRunAfter;
    var s := Sequence(ob, minMatch, lits, ml, off) + rest;
    var u := |Extension(|lits|)|;
    SequenceParts(ob, minMatch, lits, ml, off, rest);
    ReadLength(|lits|, s[1 + u..]);
    ReadLenLocal(s[0] / 16, s[1..], []);
  }

  // ---------------------------------------------------------------- produced by the parser

  /** The four bytes at j were seen before, at i. */
  predicate Recurs(data: seq<byte>, i: nat, j: nat) { i < j && j + 4 <= |data| && data[i..i + 4] == data[j..j + 4] }

  /** No four bytes below limit were seen before. */
  ghost predicate FreshBelow(data: seq<byte>, limit: nat) { forall i: nat, j: nat :: j < limit ==> !Recurs(data, i, j) }

  lemma MatchRecurs(data: seq<byte>, pos: nat, off: nat, len: nat)
    requires MatchAt(data, pos, off, len) && len >= 4
    ensures off <= pos && Recurs(data, pos - off, pos)
  {
    var a, b := data[pos - off..pos - off + 4], data[pos..pos + 4];
    assert a[0] == b[0] && a[1] == b[1] && a[2] == b[2] && a[3] == b[3];
  }

  /** Tokens that begin with a match at pos or later. */
  ghost predicate BeginsLate(b: Block, out: seq<byte>, limit: nat)
    requires BlockOk(b)
  {
    exists pos: nat, ml: nat, off: nat, rest: seq<byte> ::
      FirstMatch(b, out, pos, ml, off, rest) && pos >= limit
  }

  predicate FirstMatch(b: Block, out: seq<byte>, pos: nat, ml: nat, off: nat, rest: seq<byte>)
    requires BlockOk(b)
  {
    b.start <= pos && pos + ml <= b.end && ml >= b.minMatch
    && out == Sequence(b.c.ob, b.minMatch, b.data[b.start..pos], ml, off) + rest
  }

  lemma {:induction false} OutGrows(b: Block, s: Cursor)
    requires BlockOk(b) && CursorOk(b, s) && RepsWithin(s.reps, b.c.maxDist) && ParseFrom(b, s).Tokens?
    ensures |s.out| <= |ParseFrom(b, s).out| && ParseFrom(b, s).out[..|s.out|] == s.out
    decreases b.end - s.pos
  {
    hide Lazy, Sequence, InsertMatch, Insert, Needed, NeededLast, Stride, Sized;
    if s.pos + b.minMatch < b.end {
      OutGrows(b, Move(b, s).s);
    }
  }

  /** While no four bytes recur, the parser finds no match of four. */
  lemma NoMatchYet(b: Block, s: Cursor, limit: nat)
    requires BlockOk(b) && CursorOk(b, s) && RepsWithin(s.reps, b.c.maxDist) && s.pos + b.minMatch < b.end
    requires FreshBelow(b.data, limit)
    ensures Lazy(b, s).f.len >= 4 ==> Lazy(b, s).pos >= limit
  {
    hide Lazy, FreshBelow, MatchAt;
    var k := Lazy(b, s);
    if k.f.len >= 4 {
      MatchRecurs(b.data, k.pos, k.f.off, k.f.len);
      if k.pos < limit {
        NotFresh(b.data, k.pos - k.f.off, k.pos, limit);
      }
    }
  }

  lemma NotFresh(data: seq<byte>, i: nat, j: nat, limit: nat)
    requires Recurs(data, i, j) && j < limit
    ensures !FreshBelow(data, limit)
  {
  }

  lemma {:induction false} LateFrom(b: Block, s: Cursor, limit: nat)
    requires BlockOk(b) && CursorOk(b, s) && RepsWithin(s.reps, b.c.maxDist) && b.minMatch == 4
    requires FreshBelow(b.data, limit) && s.out == [] && s.lit == b.start && ParseFrom(b, s).Tokens?
    ensures var out := ParseFrom(b, s).out;
            out == Sequence(b.c.ob, 4, b.data[b.start..b.end], 0, 0) || BeginsLate(b, out, limit)
    decreases b.end - s.pos
  {
    hide Lazy, Sequence, InsertMatch, Insert, Needed, NeededLast, Stride, Sized, FreshBelow, BeginsLate;
    if s.pos + b.minMatch >= b.end {
      assert [] + Sequence(b.c.ob, 4, b.data[b.start..b.end], 0, 0)
             == Sequence(b.c.ob, 4, b.data[b.start..b.end], 0, 0);
    } else {
      var k := Lazy(b, s);
      NoMatchYet(b, s, limit);
      if k.f.len >= 4 {
        LateTake(b, s, k, limit);
      } else {
        LateFrom(b, Move(b, s).s, limit);
      }
    }
  }

  lemma LateTake(b: Block, s: Cursor, k: Pick, limit: nat)
    requires BlockOk(b) && CursorOk(b, s) && RepsWithin(s.reps, b.c.maxDist) && b.minMatch == 4 && s.pos + 4 < b.end
    requires k == Lazy(b, s) && k.f.len >= 4 && k.pos >= limit && s.out == [] && s.lit == b.start
             && ParseFrom(b, s).Tokens?
    ensures BeginsLate(b, ParseFrom(b, s).out, limit)
  {
    hide Lazy, Sequence, InsertMatch, Insert, Needed, NeededLast, Stride, Sized;
    var first := Sequence(b.c.ob, 4, b.data[b.start..k.pos], k.f.len, k.f.off);
    assert [] + first == first;
    OutGrows(b, Move(b, s).s);
    var out := ParseFrom(b, s).out;
    assert out == first + out[|first|..];
    assert FirstMatch(b, out, k.pos, k.f.len, k.f.off, out[|first|..]);
  }

  /** A block in which no four bytes recur for 65536 bytes from its start: the parser finds no match in it at all, or
      the sequence coder refuses its tokens. */
  lemma LateMatchesAreRejected(b: Block, r: Reps, t: Tables)
    requires BlockOk(b) && Sized(b.c, t) && RepsWithin(r, b.c.maxDist) && b.minMatch == 4
    requires FreshBelow(b.data, b.start + LL_MAX + 1) && ParseBlock(b, r, t).Tokens?
    ensures var out := ParseBlock(b, r, t).out;
            out == Sequence(b.c.ob, 4, b.data[b.start..b.end], 0, 0) || Parse(b.c.ob, 4, out).Rejected?
  {
    hide ParseFrom, Sequence, Parse, FreshBelow, Sized;
    LateFrom(b, Begin(b, r, t), b.start + LL_MAX + 1);
    var out := ParseBlock(b, r, t).out;
    if out != Sequence(b.c.ob, 4, b.data[b.start..b.end], 0, 0) {
      var pos: nat, ml: nat, off: nat, rest: seq<byte> :|
        FirstMatch(b, out, pos, ml, off, rest) && pos >= b.start + LL_MAX + 1;
      LongFirst(b.c.ob, 4, b.data[b.start..pos], ml, off, rest);
    }
  }
}
