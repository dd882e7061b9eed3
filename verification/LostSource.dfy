/** A source of 65602 bytes, and the tokens every greedy or lazy parser makes of it. */
module LostSource {
  import opened Arithmetic
  import opened LittleEndian
  import opened LzMatch
  import opened LzParse
  import opened LzEmit
  import opened LzLongRuns
  import SeqCodes

  // ---------------------------------------------------------------- the source

  /** So many bytes run through three digits that count at different speeds; then there are only zeros. */
  const FRESH: nat := 65538

  const LENGTH: nat := FRESH + 64

  /** Smallest value of the digits at i. */
  function Lowest(i: nat): (v: nat) { 32 * (i % 3) }

  /** The period of the digits at i. */
  function Speed(i: nat): (m: nat) { 31 + i % 3 }

  /** Where the digits at i stand after k steps. */
  function Turn(i: nat, k: nat): (r: nat)
    ensures r < Speed(i)
  {
    match i % 3 case 0 => k % 31 case 1 => k % 32 case _ => k % 33
  }

  function Digit(i: nat): (b: byte) { if i < FRESH then Lowest(i) + Turn(i, i / 3) else 0 }

  function Source(): (s: seq<byte>)
    ensures |s| == LENGTH && forall i :: 0 <= i < LENGTH ==> s[i] == Digit(i)
  {
    seq(LENGTH, i requires 0 <= i => Digit(i))
  }

  // ---------------------------------------------------------------- no four bytes recur

  /** The least common multiple of the three moduli is their product. */
  lemma Coprime(d: nat)
    requires d % 31 == 0 && d % 32 == 0 && d % 33 == 0 && d > 0
    ensures d >= 31 * 32 * 33
  {
    CommonMultiple(d / 31, d / 32, d / 33, d);
  }

  lemma CommonMultiple(a: int, b: int, c: int, d: int)
    requires d == 31 * a && d == 32 * b && d == 33 * c && d > 0
    ensures d >= 31 * 32 * 33
  {
    var e := b - c;
    assert c == 32 * e;
    var g := a - 34 * e;
    assert 31 * g == 2 * e;
    var h := e - 15 * g;
    assert g == 2 * h && e == 31 * h;
  }

  lemma TurnIs(i: nat, k: nat)
    ensures Turn(i, k) == k % Speed(i)
  {
  }

  lemma SameResidue(x: nat, d: nat, m: nat)
    requires m > 0 && (x + d) % m == x % m
    ensures d % m == 0
  {
    var k := (x + d) / m - x / m;
    Distribute(m, x / m, k);
    DivModUnique(d, m, k, 0);
  }

  lemma DigitRange(i: nat)
    requires i < FRESH
    ensures 32 * (i % 3) <= Digit(i) <= 32 * (i % 3) + 30 + i % 3
  {
  }

  /** Equal digits lie a whole number of periods apart. */
  lemma EqualDigits(i: nat, j: nat)
    requires i <= j < FRESH && Digit(i) == Digit(j)
    ensures i % 3 == j % 3 && j == i + 3 * ((j - i) / 3) && Turn(i, (j - i) / 3) == 0
  {
    hide Digit;
    DigitRange(i);
    DigitRange(j);
    DigitsApart(i, (j - i) / 3);
  }

  lemma DigitsApart(i: nat, d: nat)
    requires i + 3 * d < FRESH && Digit(i) == Digit(i + 3 * d)
    ensures Turn(i, d) == 0
  {
    assert (i + 3 * d) / 3 == i / 3 + d && (i + 3 * d) % 3 == i % 3;
    TurnIs(i, i / 3);
    TurnIs(i, i / 3 + d);
    TurnIs(i, d);
    SameResidue(i / 3, d, Speed(i));
  }

  lemma ThreeDiffer(i: nat, j: nat)
    requires i < j && j + 3 <= FRESH
    ensures Digit(i) != Digit(j) || Digit(i + 1) != Digit(j + 1) || Digit(i + 2) != Digit(j + 2)
  {
    hide Digit;
    if Digit(i) == Digit(j) && Digit(i + 1) == Digit(j + 1) && Digit(i + 2) == Digit(j + 2) {
      EqualDigits(i, j);
      EqualDigits(i + 1, j + 1);
      EqualDigits(i + 2, j + 2);
      Coprime((j - i) / 3);
    }
  }

  lemma Zero(i: nat)
    requires i >= FRESH
    ensures Digit(i) == 0
  {
  }

  /** A run of zeros is found nowhere but at the end. */
  lemma NotZeros(i: nat)
    requires i < FRESH
    ensures Digit(i) != 0 || (i + 1 < FRESH && Digit(i + 1) != 0)
  {
    if i % 3 == 0 {
      assert (i + 1) % 3 == 1;
    }
  }

  predicate Alike(i: nat, j: nat) {
    Digit(i) == Digit(j) && Digit(i + 1) == Digit(j + 1) && Digit(i + 2) == Digit(j + 2) && Digit(i + 3) == Digit(j + 3)
  }

  lemma FourDiffer(i: nat, j: nat)
    requires i < j <= FRESH
    ensures !Alike(i, j)
  {
    hide Digit;
    if j + 3 <= FRESH {
      ThreeDiffer(i, j);
    } else if Alike(i, j) {
      Zero(FRESH);
      Zero(FRESH + 1);
      if j == FRESH {
        NotZeros(i);
      } else {
        EqualDigits(i, j);
        NotZeros(i + FRESH - j);
      }
    }
  }

  lemma RecursAlike(i: nat, j: nat)
    requires Recurs(Source(), i, j)
    ensures Alike(i, j)
  {
    hide Digit;
    var s := Source();
    var a, b := s[i..i + 4], s[j..j + 4];
    assert a[0] == b[0] && a[1] == b[1] && a[2] == b[2] && a[3] == b[3];
  }

  lemma RecursBefore(s: seq<byte>, i: nat, j: nat)
    requires Recurs(s, i, j)
    ensures i < j
  {
  }

  lemma SourceIsFresh()
    ensures FreshBelow(Source(), FRESH + 1)
  {
    hide Recurs, Source, Alike;
    forall i: nat, j: nat | j < FRESH + 1 ensures !Recurs(Source(), i, j) {
      if Recurs(Source(), i, j) {
        RecursBefore(Source(), i, j);
        RecursAlike(i, j);
        FourDiffer(i, j);
      }
    }
  }

  // ---------------------------------------------------------------- matches among the zeros

  /** The matchers of the first format: some chain is walked, and the zeros are within reach. */
  predicate Usual(c: Config) { ConfigOk(c) && c.depth > 0 && c.maxDist >= 64 && c.maxMatch >= 64 && !c.useHash3 }

  predicate ToEnd(pos: nat, f: Found) { f.len == 0 || pos + f.len == LENGTH }

  /** Four bytes like those at pos, among the zeros, are among the zeros, too, and then all bytes up to the end
      match. */
  lemma ZerosMatch(c: Config, pos: nat, ref: nat)
    requires Usual(c) && FRESH < pos <= LENGTH - 12 && ref < pos && Same(Source(), pos, ref, 4)
    ensures Length(Source(), pos, ref, 4, MaxLen(c, pos, LENGTH)) == LENGTH - pos
  {
    hide Digit, Common, Same;
    var s := Source();
    SameAt(s, pos, ref, 4, 0);
    SameAt(s, pos, ref, 4, 1);
    Zero(pos);
    Zero(pos + 1);
    if ref < FRESH {
      NotZeros(ref);
    }
    CommonZeros(pos + 4, ref + 4, LENGTH - pos - 4);
  }

  lemma CommonZeros(i: nat, j: nat, max: nat)
    requires i >= FRESH && j >= FRESH && i + max <= LENGTH && j + max <= LENGTH
    ensures Common(Source(), i, j, max) == max
  {
    hide Digit, Common;
    var n := Common(Source(), i, j, max);
    Zero(i + n);
    Zero(j + n);
  }

  lemma SameZeros(i: nat, j: nat)
    requires FRESH <= i <= LENGTH - 4 && FRESH <= j <= LENGTH - 4
    ensures Same(Source(), i, j, 4)
  {
    var s := Source();
    assert s[i..i + 4] == [0, 0, 0, 0] && s[j..j + 4] == [0, 0, 0, 0];
  }

  /** A walk from a position among the zeros finds nothing or a match up to the end; with a zero run at its root, the
      match. */
  lemma {:induction false} WalkToEnd(rule: Rule, c: Config, pos: nat, links: seq<int>, ref: int, depth: nat,
                                     best: Found)
    requires Usual(c) && links != [] && FRESH < pos <= LENGTH - 12
    requires Good(c, Source(), pos, LENGTH, best) && ToEnd(pos, best)
    ensures var f := Walk(rule, c, Source(), pos, LENGTH, links, ref, depth, best);
            ToEnd(pos, f) && f.len >= best.len
            && (pos - 64 <= ref < pos && ref >= FRESH && depth > 0 ==> f.len > 0)
    decreases depth
  {
    hide Length, Same, Good, Source;
    if Oldest(c, pos) <= ref < pos && depth > 0 {
      var next := links[ref % |links|];
      if Same(Source(), pos, ref, 4) {
        ZerosMatch(c, pos, ref);
        SameIsGood(c, pos, ref);
        WalkToEnd(rule, c, pos, links, next, depth - 1, Found(LENGTH - pos, pos - ref));
      } else if ref >= FRESH {
        SameZeros(pos, ref);
      }
      WalkToEnd(rule, c, pos, links, next, depth - 1, best);
    }
  }

  lemma SameIsGood(c: Config, pos: nat, ref: nat)
    requires Usual(c) && FRESH < pos <= LENGTH - 12 && Oldest(c, pos) <= ref < pos && Same(Source(), pos, ref, 4)
    ensures Good(c, Source(), pos, LENGTH, Found(LENGTH - pos, pos - ref))
  {
    hide Same, MatchAt, Source, Common;
    ZerosMatch(c, pos, ref);
  }

  // ---------------------------------------------------------------- the parse

  /** A call of compress_block on the source. */
  predicate OnSource(b: Block) {
    BlockOk(b) && b.data == Source() && b.start == 0 && b.end == LENGTH && b.minMatch == 4 && b.mode == Balanced
      && Usual(b.c)
    && b.cap >= LENGTH + 1024
  }

  /** The parser before its first match. */
  ghost predicate Searching(b: Block, s: Cursor) {
    BlockOk(b) && CursorOk(b, s) && s.lit == 0 && s.out == [] && s.matches == 0 && s.reps == SeqCodes.NO_REPS
  }

  /** Position q was the last to be inserted, at most eight before. */
  ghost predicate Warm(b: Block, s: Cursor, q: nat) {
    OnSource(b) && Searching(b, s) && q < s.pos <= q + 8 && q + 5 <= LENGTH
    && s.tabs.long.roots[HashSafe(b.data, q, b.end)] == q
  }

  lemma NoRepYet(c: Config, data: seq<byte>, pos: nat, end: nat)
    requires ConfigOk(c) && pos + 4 <= end <= |data|
    ensures TryRep(c, data, SeqCodes.NO_REPS, pos, end) == NONE
  {
    assert RepFrom(c, data, SeqCodes.NO_REPS, pos, end, 4, 2) == NONE;
    assert RepFrom(c, data, SeqCodes.NO_REPS, pos, end, 3, 2) == NONE;
  }

  /** Before the zeros nothing is found. */
  lemma NothingYet(b: Block, s: Cursor)
    requires OnSource(b) && Searching(b, s) && s.pos <= FRESH
    ensures Lazy(b, s) == Pick(s.pos, Lazy(b, s).f, Lazy(b, s).rep, false, s.tabs) && Lazy(b, s).f.len < 4
  {
    hide Greedy, Source, Sized, Cheaper, MatchAt;
    var g := Greedy(b, s);
    if g.f.len >= 4 {
      MatchRecurs(b.data, s.pos, g.f.off, g.f.len);
      NotFresh(b.data, s.pos - g.f.off, s.pos, FRESH + 1);
      SourceIsFresh();
    }
    GreedyTables(b, s);
  }

  lemma GreedyTables(b: Block, s: Cursor)
    requires BlockOk(b) && CursorOk(b, s) && s.pos + b.minMatch < b.end
    ensures Greedy(b, s).tabs == s.tabs
  {
    hide TryRep, Probe, Chain, Good;
  }

  /** Among the zeros a match found goes up to the end. */
  lemma FoundToEnd(b: Block, s: Cursor)
    requires OnSource(b) && Searching(b, s) && FRESH < s.pos <= LENGTH - 12
    ensures var k := Lazy(b, s); k == Pick(s.pos, k.f, k.rep, false, s.tabs) && ToEnd(s.pos, k.f)
  {
    hide TryRep, Probe, Chain, Good, Source, Sized, Cheaper, ConfigOk;
    NoRepYet(b.c, b.data, s.pos, b.end);
    ProbeToEnd(b, s.tabs, s.pos);
    GreedyTables(b, s);
  }

  lemma ProbeToEnd(b: Block, t: Tables, pos: nat)
    requires OnSource(b) && Sized(b.c, t) && FRESH < pos <= LENGTH - 12
    ensures ToEnd(pos, Probe(b.c, b.data, t, pos, b.end)) && ToEnd(pos, Chain(b.c, b.data, t, pos, b.end))
    ensures var q := t.long.roots[HashSafe(b.data, pos, b.end)];
            FRESH <= q < pos <= q + 8 ==>
              Probe(b.c, b.data, t, pos, b.end).len > 0 && Chain(b.c, b.data, t, pos, b.end).len > 0
  {
    hide Walk, Source, HashSafe, HashMid;
    var root := t.long.roots[HashSafe(b.data, pos, b.end)];
    WalkToEnd(Longest, b.c, pos, t.long.links, root, b.c.depth, NONE);
    WalkToEnd(Priced, b.c, pos, t.long.links, root, b.c.depth, NONE);
    if b.c.useHash4 {
      WalkToEnd(Priced, b.c, pos, t.mid.links, t.mid.roots[HashMid(b.data, pos)], 8, NONE);
    }
  }

  /** With a zero run inserted last, the match is found. */
  lemma FoundWarm(b: Block, s: Cursor, q: nat)
    requires Warm(b, s, q) && q >= FRESH && s.pos <= LENGTH - 12
    ensures Lazy(b, s).f.len > 0
  {
    hide TryRep, Probe, Chain, Good, Source, Sized, Cheaper, ConfigOk, HashSafe;
    NoRepYet(b.c, b.data, s.pos, b.end);
    ZerosHash(s.pos, q);
    ProbeToEnd(b, s.tabs, s.pos);
  }

  lemma ZerosHash(i: nat, j: nat)
    requires FRESH <= i <= LENGTH - 5 && FRESH <= j <= LENGTH - 5
    ensures HashSafe(Source(), i, LENGTH) == HashSafe(Source(), j, LENGTH)
  {
    hide TopBits;
  }

  /** A step without a match. */
  lemma SkipIsWarm(b: Block, s: Cursor)
    requires OnSource(b) && Searching(b, s) && RepsWithin(s.reps, b.c.maxDist) && s.pos <= LENGTH - 12
    requires Lazy(b, s) == Pick(s.pos, Lazy(b, s).f, Lazy(b, s).rep, false, s.tabs) && Lazy(b, s).f.len < 4
    ensures Move(b, s).Next? && Warm(b, Move(b, s).s, s.pos)
  {
    hide Lazy, HashSafe, HashMid, HashShort, Source, Usual, Stride;
    ShortStride(b, s.failures);
  }

  lemma ShortStride(b: Block, failures: nat)
    requires b.mode != Fast
    ensures 1 <= Stride(b, failures) <= 8
  {
  }

  /** The tokens: all literals up to the zeros, then one match. */
  predicate Shaped(ob: nat, out: seq<byte>, pos: nat, off: nat) {
    (ob == 2 || ob == 3) && FRESH < pos <= FRESH + 16
    && out == Sequence(ob, 4, Source()[..pos], LENGTH - pos, off) + Sequence(ob, 4, [], 0, 0)
  }

  lemma TakeIsShaped(b: Block, s: Cursor)
    requires OnSource(b) && Searching(b, s) && RepsWithin(s.reps, b.c.maxDist) && FRESH < s.pos <= FRESH + 16
    requires Lazy(b, s).pos == s.pos && s.pos + Lazy(b, s).f.len == LENGTH
    ensures ParseFrom(b, s).Tokens? && Shaped(b.c.ob, ParseFrom(b, s).out, s.pos, Lazy(b, s).f.off)
  {
    hide Lazy, Sequence, InsertMatch, Source;
    var k, s1 := Lazy(b, s), Move(b, s).s;
    SequenceFits(b.c.ob, 4, b.data[0..s.pos], k.f.len, k.f.off);
    assert b.data[0..s.pos] == b.data[..s.pos] && b.data[LENGTH..LENGTH] == [];
    assert [] + Sequence(b.c.ob, 4, b.data[0..s.pos], k.f.len, k.f.off)
           == Sequence(b.c.ob, 4, b.data[..s.pos], k.f.len, k.f.off);
    assert ParseFrom(b, s) == ParseFrom(b, s1) == Finish(b, s1);
  }

  lemma {:induction false} SearchIsShaped(b: Block, s: Cursor, q: nat)
    requires OnSource(b) && Searching(b, s) && RepsWithin(s.reps, b.c.maxDist)
    requires s.pos > FRESH ==> Warm(b, s, q) && s.pos <= (if q < FRESH then FRESH + 8 else FRESH + 16)
    ensures ParseFrom(b, s).Tokens? && exists pos: nat, off: nat :: Shaped(b.c.ob, ParseFrom(b, s).out, pos, off)
    decreases b.end - s.pos
  {
    hide Lazy, Move, Sequence, Source, Usual, Warm, Sized;
    var k := Lazy(b, s);
    if s.pos <= FRESH {
      NothingYet(b, s);
    } else {
      FoundToEnd(b, s);
    }
    if k.f.len == 0 || s.pos <= FRESH {
      SkipIsWarm(b, s);
      WarmIsSearching(b, Move(b, s).s, s.pos);
      if s.pos > FRESH && q >= FRESH {
        FoundWarm(b, s, q);
      }
      SearchIsShaped(b, Move(b, s).s, s.pos);
    } else {
      TakeIsShaped(b, s);
    }
  }

  lemma WarmIsSearching(b: Block, s: Cursor, q: nat)
    requires Warm(b, s, q)
    ensures Searching(b, s) && q < s.pos <= q + 8 && RepsWithin(s.reps, b.c.maxDist)
  {
  }

  /** Whatever the tables of the matcher hold, the parser gives those tokens. */
  lemma ParseIsShaped(b: Block, t: Tables)
    requires OnSource(b) && Sized(b.c, t)
    ensures ParseBlock(b, SeqCodes.NO_REPS, t).Tokens?
    ensures exists pos: nat, off: nat :: Shaped(b.c.ob, ParseBlock(b, SeqCodes.NO_REPS, t).out, pos, off)
  {
    hide Source, Usual, Sequence;
    SearchIsShaped(b, Begin(b, SeqCodes.NO_REPS, t), 0);
  }
}
