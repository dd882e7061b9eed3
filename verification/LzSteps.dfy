/** What the greedy and lazy parser does with a block, step by step and in numbers. */
module LzSteps {
  import opened Bits
  import opened LittleEndian
  import opened SeqCodes
  import opened LzEmit
  import opened LzMatch
  import opened LzParse

  // ---------------------------------------------------------------- which match

  /** A match at a recent offset stands if it has eight bytes or is no shorter than the one found by walking. */
  predicate Stands(mm: nat, rep: Found, walked: Found) {
    rep.len >= mm && (rep.len >= 8 || rep.len >= walked.len)
  }

  function AtHand(mm: nat, rep: Found, walked: Found): (f: Found) {
    if Stands(mm, rep, walked) then rep else if walked.len > 0 then walked else NONE
  }

  /** What a match costs: two bits at a recent offset; otherwise the bits of the offset and eighteen, or fourteen in
      extreme mode. */
  function Bill(mode: Mode, rep: bool, off: nat): (n: nat) {
    if rep then 2 else if mode == Extreme then 14 + Log2(off) else 18 + Log2(off)
  }

  /** What is found at a position: at a recent offset, and by walking. */
  function RepHere(b: Block, r: Reps, p: nat): (f: Found)
    requires BlockOk(b) && p + 4 <= b.end
  {
    if b.c.noRep then NONE else TryRep(b.c, b.data, r, p, b.end)
  }

  function WalkedHere(b: Block, t: Tables, p: nat): (f: Found)
    requires BlockOk(b) && Sized(b.c, t)
  {
    if b.c.singleProbe then Probe(b.c, b.data, t, p, b.end) else Chain(b.c, b.data, t, p, b.end)
  }

  /** The parser looks one position ahead unless it is fast, for a match of fewer than eight bytes. */
  predicate LooksAhead(b: Block, p: nat, hand: Found) {
    b.mode != Fast && b.minMatch <= hand.len < 8 && p + 1 + b.minMatch < b.end
  }

  /** The match at hand, whether it is at a recent offset, and the one at the next position. */
  datatype Prospect = Prospect(hand: Found, rep: bool, next: Found, repNext: bool)

  ghost predicate Sees(b: Block, s: Cursor, w: Prospect)
    requires BlockOk(b) && CursorOk(b, s) && s.pos + b.minMatch < b.end
  {
    var rep, walked := RepHere(b, s.reps, s.pos), WalkedHere(b, s.tabs, s.pos);
    w.hand == AtHand(b.minMatch, rep, walked) && w.rep == Stands(b.minMatch, rep, walked)
    && (LooksAhead(b, s.pos, w.hand) ==>
          var t := Insert(b.c, b.data, s.tabs, s.pos, b.end);
          var chain, rep1 := Chain(b.c, b.data, t, s.pos + 1, b.end), RepHere(b, s.reps, s.pos + 1);
          w.repNext == (rep1.len > 0) && w.next == if rep1.len > chain.len then rep1 else chain)
  }

  /** The match at the next position, behind a literal of six bits, costs fewer bits for a byte. */
  predicate Defers(b: Block, p: nat, w: Prospect) {
    LooksAhead(b, p, w.hand) && w.next.len >= b.minMatch
    && (6 + Bill(b.mode, w.repNext, w.next.off)) * w.hand.len < Bill(b.mode, w.rep, w.hand.off) * (w.next.len + 1)
  }

  // ---------------------------------------------------------------- what is inserted

  function InsertAll(b: Block, t: Tables, ps: seq<nat>): (u: Tables)
    requires BlockOk(b) && Sized(b.c, t)
    ensures Sized(b.c, u)
  {
    if ps == [] then t else Insert(b.c, b.data, InsertAll(b, t, ps[..|ps| - 1]), ps[|ps| - 1], b.end)
  }

  predicate Ascending(ps: seq<nat>) { forall i, j :: 0 <= i < j < |ps| ==> ps[i] < ps[j] }

  /** A position of a match of len bytes at p that is inserted: at least five bytes before the end; of a match of
      sixteen bytes or more, only the first and last three. */
  predicate Remembered(p: nat, len: nat, end: nat, x: nat) {
    p <= x < p + len && x + 5 <= end && (len >= 16 ==> x < p + 3 || x >= p + len - 3)
  }

  // ---------------------------------------------------------------- steps


  /** A match is coded: its literals and it, once each position to be inserted is. */
  ghost predicate Codes(b: Block, s: Cursor, p: nat, f: Found, r: Step)
    requires BlockOk(b) && CursorOk(b, s) && s.lit <= p <= b.end && f.len >= b.minMatch
  {
    if |s.out| + (p - s.lit) + f.len / 255 + 5 + (if p - s.lit >= 15 then (p - s.lit) / 255 + 2 else 0) > b.cap then
      r == NoRoom
    else
      exists ps: seq<nat> ::
        && Ascending(ps)
        && (forall x: nat :: x in ps <==> Remembered(p, f.len, b.end, x) || s.pos == x < p)
        && r == Next(Cursor(p + f.len, p + f.len, 0, s.matches + 1, RepNext(s.reps, f.off), InsertAll(b, s.tabs, ps),
                            s.out + Sequence(b.c.ob, b.minMatch, b.data[s.lit..p], f.len, f.off)))
  }

  /** No match: the position is inserted, and the parser goes on by one, and one more for each 64 failures times the
      acceleration, though by no more than eight unless it is fast; without a match in the first 128 KiB it gives
      up. */
  ghost predicate Passes(b: Block, s: Cursor, r: Step)
    requires BlockOk(b) && CursorOk(b, s)
  {
    var far := 1 + s.failures * b.c.accel % 0x1_0000_0000 / 64;
    var pos := s.pos + if b.c.accel == 0 then 1 else if b.mode != Fast && far > 8 then 8 else far;
    if b.c.accel > 0 && s.matches == 0 && pos >= b.start + 131072 then r == Bail
    else
      r == Next(s.(pos := pos, tabs := Insert(b.c, b.data, s.tabs, s.pos, b.end),
                   failures := s.failures + if b.c.accel == 0 then 0 else 1))
  }

  /** One step. */
  ghost predicate Steps(b: Block, s: Cursor, r: Step)
    requires BlockOk(b) && CursorOk(b, s) && s.pos + b.minMatch < b.end
  {
    exists w: Prospect ::
      && Sees(b, s, w)
      && if Defers(b, s.pos, w) then Codes(b, s, s.pos + 1, w.next, r)
         else if w.hand.len >= b.minMatch then Codes(b, s, s.pos, w.hand, r)
         else Passes(b, s, r)
  }

  // ---------------------------------------------------------------- insertion

  function Span(first: nat, stop: nat, end: nat): (ps: seq<nat>)
    ensures |ps| == if first < stop && first + 5 <= end then Min(stop, end - 4) - first else 0
    ensures forall i :: 0 <= i < |ps| ==> ps[i] == first + i
    decreases stop - first
  {
    if first < stop && first + 5 <= end then [first] + Span(first + 1, stop, end) else []
  }

  lemma SpanIs(first: nat, stop: nat, end: nat)
    ensures Ascending(Span(first, stop, end))
    ensures forall x: nat :: x in Span(first, stop, end) <==> first <= x < stop && x + 5 <= end
  {
    hide Span;
    var ps := Span(first, stop, end);
    forall x: nat | first <= x < stop && x + 5 <= end ensures x in ps {
      assert ps[x - first] == x;
    }
  }

  lemma AscendingJoin(ps: seq<nat>, qs: seq<nat>, m: nat)
    requires Ascending(ps) && Ascending(qs) && (forall x :: x in ps ==> x < m) && forall x :: x in qs ==> x >= m
    ensures Ascending(ps + qs)
  {
    forall i, j | 0 <= i < j < |ps + qs| ensures (ps + qs)[i] < (ps + qs)[j] {
      if i < |ps| <= j {
        assert ps[i] in ps && qs[j - |ps|] in qs;
      }
    }
  }

  lemma {:induction false} RangeIsSpan(b: Block, t: Tables, qs: seq<nat>, first: nat, stop: nat)
    requires BlockOk(b) && Sized(b.c, t)
    ensures InsertRange(b.c, b.data, InsertAll(b, t, qs), first, stop, b.end)
            == InsertAll(b, t, qs + Span(first, stop, b.end))
    decreases stop - first
  {
    hide Insert, Sized, ConfigOk;
    if first < stop && first + 5 <= b.end {
      var rs := qs + [first];
      assert rs[..|rs| - 1] == qs;
      RangeIsSpan(b, t, rs, first + 1, stop);
      assert rs + Span(first + 1, stop, b.end) == qs + Span(first, stop, b.end);
    } else {
      assert qs + [] == qs;
    }
  }

  /** The insertions for a match, given those made before. */
  lemma MatchInserts(b: Block, t: Tables, qs: seq<nat>, k: Pick) returns (ps: seq<nat>)
    requires BlockOk(b) && Sized(b.c, t) && k.tabs == InsertAll(b, t, qs) && k.f.len >= 3
    requires Ascending(qs) && forall x :: x in qs ==> x < if k.inserted then k.pos + 1 else k.pos
    ensures InsertMatch(b, k) == InsertAll(b, t, ps) && Ascending(ps)
    ensures var first := if k.inserted then k.pos + 1 else k.pos;
            forall x: nat :: x in ps <==> x in qs || (x >= first && Remembered(k.pos, k.f.len, b.end, x))
  {
    hide InsertRange, InsertAll, Sized, ConfigOk, Span;
    var first, p, len := if k.inserted then k.pos + 1 else k.pos, k.pos, k.f.len;
    if len >= 16 {
      RangeIsSpan(b, t, qs, first, p + 3);
      SpanIs(first, p + 3, b.end);
      var rs := qs + Span(first, p + 3, b.end);
      AscendingJoin(qs, Span(first, p + 3, b.end), first);
      RangeIsSpan(b, t, rs, p + len - 3, p + len);
      SpanIs(p + len - 3, p + len, b.end);
      AscendingJoin(rs, Span(p + len - 3, p + len, b.end), p + 3);
      ps := rs + Span(p + len - 3, p + len, b.end);
    } else {
      RangeIsSpan(b, t, qs, first, p + len);
      SpanIs(first, p + len, b.end);
      AscendingJoin(qs, Span(first, p + len, b.end), first);
      ps := qs + Span(first, p + len, b.end);
    }
  }

  // ---------------------------------------------------------------- the step

  function ProspectOf(b: Block, s: Cursor): (w: Prospect)
    requires BlockOk(b) && CursorOk(b, s) && s.pos + b.minMatch < b.end
    ensures Sees(b, s, w)
  {
    var rep, walked := RepHere(b, s.reps, s.pos), WalkedHere(b, s.tabs, s.pos);
    var hand, stands := AtHand(b.minMatch, rep, walked), Stands(b.minMatch, rep, walked);
    if LooksAhead(b, s.pos, hand) then
      var t := Insert(b.c, b.data, s.tabs, s.pos, b.end);
      var chain, rep1 := Chain(b.c, b.data, t, s.pos + 1, b.end), RepHere(b, s.reps, s.pos + 1);
      Prospect(hand, stands, if rep1.len > chain.len then rep1 else chain, rep1.len > 0)
    else Prospect(hand, stands, NONE, false)
  }

  lemma GreedyDecides(b: Block, s: Cursor)
    requires BlockOk(b) && CursorOk(b, s) && s.pos + b.minMatch < b.end
    ensures var g, rep, walked := Greedy(b, s), RepHere(b, s.reps, s.pos), WalkedHere(b, s.tabs, s.pos);
            && g.pos == s.pos && !g.inserted && g.tabs == s.tabs && g.f == AtHand(b.minMatch, rep, walked)
            && (g.f.len >= b.minMatch ==> g.rep == Stands(b.minMatch, rep, walked))
  {
    hide TryRep, Probe, Chain, Good, Sized, ConfigOk;
  }

  lemma AheadOf(b: Block, s: Cursor)
    requires BlockOk(b) && CursorOk(b, s) && s.pos + b.minMatch < b.end
    ensures var w := ProspectOf(b, s);
            && (Defers(b, s.pos, w) ==> LooksAhead(b, s.pos, w.hand) && w.next.len >= b.minMatch)
            && (LooksAhead(b, s.pos, w.hand) ==> w.hand.len >= b.minMatch && s.pos + 5 <= b.end)
  {
    hide TryRep, Probe, Chain, Good, Sized, ConfigOk, Insert, AtHand, Stands;
  }

  lemma LazyDecides(b: Block, s: Cursor)
    requires BlockOk(b) && CursorOk(b, s) && s.pos + b.minMatch < b.end
    ensures var w, k := ProspectOf(b, s), Lazy(b, s);
            && k.f == (if Defers(b, s.pos, w) then w.next else w.hand)
            && k.pos == (if Defers(b, s.pos, w) then s.pos + 1 else s.pos)
            && k.inserted == (LooksAhead(b, s.pos, w.hand) && !Defers(b, s.pos, w))
            && k.tabs == if LooksAhead(b, s.pos, w.hand) then Insert(b.c, b.data, s.tabs, s.pos, b.end) else s.tabs
  {
    hide TryRep, Probe, Chain, Insert, Good, Sized, ConfigOk, Log2, Greedy, AtHand, Stands, WalkedHere;
    GreedyDecides(b, s);
  }

  lemma CodesTaken(b: Block, s: Cursor, k: Pick, qs: seq<nat>)
    requires BlockOk(b) && CursorOk(b, s) && Sized(b.c, k.tabs) && s.lit <= k.pos && k.f.len >= b.minMatch
    requires k.pos + k.f.len <= b.end && k.tabs == InsertAll(b, s.tabs, qs) && s.pos <= k.pos
    requires if k.inserted then qs == [s.pos] && k.pos == s.pos && s.pos + 5 <= b.end
             else if k.pos == s.pos then qs == [] else qs == [s.pos]
    ensures Codes(b, s, k.pos, k.f, Take(b, s, k))
  {
    hide InsertMatch, InsertAll, Sized, ConfigOk, Sequence, RepNext;
    var ps := MatchInserts(b, s.tabs, qs, k);
  }

  /** Every step of the parser is one. */
  lemma MoveSteps(b: Block, s: Cursor)
    requires BlockOk(b) && CursorOk(b, s) && s.pos + b.minMatch < b.end && RepsWithin(s.reps, b.c.maxDist)
    ensures Steps(b, s, Move(b, s))
  {
    hide Lazy, Take, Codes, Sees, Sized, ConfigOk, Insert, MatchAt, ProspectOf, Skip, Defers;
    var w, k := ProspectOf(b, s), Lazy(b, s);
    AheadOf(b, s);
    LazyDecides(b, s);
    if k.f.len >= b.minMatch {
      var qs := if LooksAhead(b, s.pos, w.hand) then [s.pos] else [];
      InsertNoneOrOne(b, s.tabs, s.pos);
      CodesTaken(b, s, k, qs);
    } else {
      PassesOn(b, s, k);
    }
  }

  lemma InsertNoneOrOne(b: Block, t: Tables, p: nat)
    requires BlockOk(b) && Sized(b.c, t)
    ensures InsertAll(b, t, []) == t && InsertAll(b, t, [p]) == Insert(b.c, b.data, t, p, b.end)
  {
    hide Insert;
    assert [p][..0] == [];
  }

  lemma PassesOn(b: Block, s: Cursor, k: Pick)
    requires BlockOk(b) && CursorOk(b, s) && Sized(b.c, k.tabs) && s.lit <= k.pos
    requires !k.inserted && k.pos == s.pos && k.tabs == s.tabs
    ensures Passes(b, s, Skip(b, s, k))
  {
    hide Insert, Sized, ConfigOk;
  }

  // ---------------------------------------------------------------- the block

  ghost predicate Trail(b: Block, cs: seq<Cursor>)
    requires BlockOk(b)
  {
    cs != [] && (forall i :: 0 <= i < |cs| ==> CursorOk(b, cs[i]))
    && forall i :: 0 <= i < |cs| - 1 ==> cs[i].pos + b.minMatch < b.end && Steps(b, cs[i], Next(cs[i + 1]))
  }

  /** What comes of the last cursor: near the end, the tokens with the pending literals behind them, if there is room;
      before it, nothing, because there is no room or no match in sight. */
  ghost predicate Ends(b: Block, s: Cursor, q: Parsed)
    requires BlockOk(b) && CursorOk(b, s)
  {
    if s.pos + b.minMatch < b.end then q == Nothing && (Steps(b, s, NoRoom) || Steps(b, s, Bail))
    else
      var ll := b.end - s.lit;
      q == if |s.out| + 1 + ll + (if ll >= 15 then ll / 255 + 2 else 0) > b.cap then Nothing
           else Tokens(s.out + Sequence(b.c.ob, b.minMatch, b.data[s.lit..b.end], 0, 0), s.reps, s.tabs)
  }

  ghost predicate Parses(b: Block, s: Cursor, cs: seq<Cursor>, q: Parsed)
    requires BlockOk(b)
  {
    Trail(b, cs) && cs[0] == s && Ends(b, cs[|cs| - 1], q)
  }

  lemma {:induction false} ParseSteps(b: Block, s: Cursor) returns (cs: seq<Cursor>)
    requires BlockOk(b) && CursorOk(b, s) && RepsWithin(s.reps, b.c.maxDist)
    ensures Parses(b, s, cs, ParseFrom(b, s))
    decreases b.end - s.pos
  {
    hide Steps, Move, Sequence, ConfigOk, Sized;
    cs := [s];
    if s.pos + b.minMatch < b.end {
      MoveSteps(b, s);
      if Move(b, s).Next? {
        var rest := ParseSteps(b, Move(b, s).s);
        cs := [s] + rest;
      }
    }
  }

  /** What the parser makes of a block is what its steps from the start of the block come to. */
  lemma BlockSteps(b: Block, r: Reps, t: Tables) returns (cs: seq<Cursor>)
    requires BlockOk(b) && Sized(b.c, t) && RepsWithin(r, b.c.maxDist)
    ensures Parses(b, Cursor(b.start, b.start, 0, 0, r, t, []), cs, ParseBlock(b, r, t))
  {
    hide Parses, Sized, ConfigOk, ParseFrom;
    cs := ParseSteps(b, Begin(b, r, t));
  }
}
