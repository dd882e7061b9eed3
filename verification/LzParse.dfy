/** The greedy and lazy parser of the encoder, and why its tokens decode to the block. */
module LzParse {
  import opened Bits
  import opened LittleEndian
  import opened SeqCodes
  import opened Lz
  import opened LzEmit
  import opened LzMatch

  datatype Mode = Fast | Balanced | Extreme

  /** One call of compress_block: the source so far, the block in it, and the room for tokens. */
  datatype Block = Block(c: Config, mode: Mode, data: seq<byte>, start: nat, end: nat, minMatch: nat, cap: nat)

  predicate BlockOk(b: Block) {
    ConfigOk(b.c) && b.start <= b.end <= |b.data| && 3 <= b.minMatch <= 4
  }

  /** Where the parser stands: the position, the start of pending literals, its counters, the matcher and the tokens. */
  datatype Cursor = Cursor(pos: nat, lit: nat, failures: nat, matches: nat, reps: Reps, tabs: Tables, out: seq<byte>)

  predicate CursorOk(b: Block, s: Cursor) {
    Sized(b.c, s.tabs) && s.lit <= s.pos && s.lit <= b.end
  }

  // ---------------------------------------------------------------- one position

  /** The match chosen at or right after a position, whether it repeats a recent offset, and what was inserted for
      it. */
  datatype Pick = Pick(pos: nat, f: Found, rep: bool, inserted: bool, tabs: Tables)

  /** Steps 1 and 2: a recent offset, and a chain walk unless that is long enough. */
  function Greedy(b: Block, s: Cursor): (k: Pick)
    requires BlockOk(b) && CursorOk(b, s) && s.pos + b.minMatch < b.end
    ensures Sized(b.c, k.tabs) && k.pos == s.pos && !k.inserted
    ensures RepsWithin(s.reps, b.c.maxDist) ==> Good(b.c, b.data, k.pos, b.end, k.f)
  {
    var r := if b.c.noRep then NONE else TryRep(b.c, b.data, s.reps, s.pos, b.end);
    var f0 := if r.len >= b.minMatch then r else NONE;
    if f0.len >= 8 then Pick(s.pos, f0, true, false, s.tabs)
    else
      var f := if b.c.singleProbe then Probe(b.c, b.data, s.tabs, s.pos, b.end)
        else Chain(b.c, b.data, s.tabs, s.pos, b.end);
      if f.len > f0.len then Pick(s.pos, f, false, false, s.tabs) else Pick(s.pos, f0, r.len > 0, false, s.tabs)
  }

  /** The cost of an offset in the lazy comparison. */
  function OffsetCost(mode: Mode, rep: bool, off: nat): (n: nat) {
    if rep then 2 else (if mode == Extreme then 14 else 18) + Log2(off)
  }

  /** The lazy comparison per byte covered: a literal and the later match against the match at hand. */
  predicate Cheaper(mode: Mode, f: Found, rep: bool, g: Found, repG: bool) {
    (6 + OffsetCost(mode, rep, f.off)) * g.len < OffsetCost(mode, repG, g.off) * (f.len + 1)
  }

  /** Step 3: a match of fewer than eight bytes gives way to a cheaper one at the next position. */
  function Lazy(b: Block, s: Cursor): (k: Pick)
    requires BlockOk(b) && CursorOk(b, s) && s.pos + b.minMatch < b.end
    ensures Sized(b.c, k.tabs) && s.pos <= k.pos <= s.pos + 1 && k.pos < b.end
    ensures RepsWithin(s.reps, b.c.maxDist) ==> Good(b.c, b.data, k.pos, b.end, k.f)
  {
    hide Cheaper, Good, Sized, ConfigOk;
    var g := Greedy(b, s);
    if b.mode == Fast || g.f.len < b.minMatch || g.f.len >= 8 || s.pos + 1 + b.minMatch >= b.end then g
    else
      var tabs := Insert(b.c, b.data, s.tabs, s.pos, b.end);
      var chain := Chain(b.c, b.data, tabs, s.pos + 1, b.end);
      var r := if b.c.noRep then NONE else TryRep(b.c, b.data, s.reps, s.pos + 1, b.end);
      var f := if r.len > chain.len then r else chain;
      if f.len >= b.minMatch && Cheaper(b.mode, f, r.len > 0, g.f, g.rep) then
        Pick(s.pos + 1, f, r.len > 0, false, tabs)
      else g.(inserted := true, tabs := tabs)
  }

  // ---------------------------------------------------------------- one step

  /** The room a sequence may take, as the parser reckons it. */
  function Needed(ll: nat, ml: nat): (n: nat) {
    1 + (if ll >= 15 then ll / 255 + 2 else 0) + ll + 2 + (ml / 255 + 2)
  }

  function NeededLast(ll: nat): (n: nat) {
    1 + (if ll >= 15 then ll / 255 + 2 else 0) + ll
  }

  lemma SequenceFits(ob: nat, minMatch: nat, lits: seq<byte>, ml: nat, off: nat)
    requires (ob == 2 || ob == 3) && ml >= minMatch >= 1
    ensures |Sequence(ob, minMatch, lits, ml, off)| <= Needed(|lits|, ml)
  {
  }

  lemma LastFits(ob: nat, minMatch: nat, lits: seq<byte>)
    requires ob == 2 || ob == 3
    ensures 0 < |Sequence(ob, minMatch, lits, 0, 0)| <= NeededLast(|lits|)
  {
  }

  datatype Step = Next(s: Cursor) | NoRoom | Bail

  /** Insertion after a match: all of its positions, or only the first and last three of a long one. */
  function InsertMatch(b: Block, k: Pick): (t: Tables)
    requires BlockOk(b) && Sized(b.c, k.tabs) && k.f.len >= 3
    ensures Sized(b.c, t)
  {
    var first := if k.inserted then k.pos + 1 else k.pos;
    if k.f.len >= 16 then
      var t := InsertRange(b.c, b.data, k.tabs, first, k.pos + 3, b.end);
      InsertRange(b.c, b.data, t, k.pos + k.f.len - 3, k.pos + k.f.len, b.end)
    else InsertRange(b.c, b.data, k.tabs, first, k.pos + k.f.len, b.end)
  }

  /** Step 4 with a match. */
  function Take(b: Block, s: Cursor, k: Pick): (r: Step)
    requires BlockOk(b) && CursorOk(b, s) && Sized(b.c, k.tabs) && s.lit <= k.pos && k.f.len >= b.minMatch
    requires k.pos + k.f.len <= b.end
    ensures r.Next? ==> CursorOk(b, r.s) && r.s.pos > k.pos
  {
    var lits := b.data[s.lit..k.pos];
    if |s.out| + Needed(|lits|, k.f.len) > b.cap then NoRoom
    else
      var pos := k.pos + k.f.len;
      Next(Cursor(pos, pos, 0, s.matches + 1, RepNext(s.reps, k.f.off), InsertMatch(b, k),
                  s.out + Sequence(b.c.ob, b.minMatch, lits, k.f.len, k.f.off)))
  }

  /** How far the parser moves after another failure: further and further, but never by more than 8 unless fast. */
  function Stride(b: Block, failures: nat): (n: nat)
    ensures n >= 1
  {
    var n := 1 + failures * b.c.accel % 0x1_0000_0000 / 64;
    if b.mode != Fast && n > 8 then 8 else n
  }

  const BAIL: nat := 0x2_0000

  /** Step 4 without a match. */
  function Skip(b: Block, s: Cursor, k: Pick): (r: Step)
    requires BlockOk(b) && CursorOk(b, s) && Sized(b.c, k.tabs) && s.lit <= k.pos
    ensures r.Next? ==> CursorOk(b, r.s) && r.s.pos > k.pos
  {
    var t := if k.inserted then k.tabs else Insert(b.c, b.data, k.tabs, k.pos, b.end);
    if b.c.accel == 0 then Next(s.(pos := k.pos + 1, tabs := t))
    else
      var pos := k.pos + Stride(b, s.failures);
      if s.matches == 0 && pos >= b.start + BAIL then Bail
      else Next(s.(pos := pos, failures := s.failures + 1, tabs := t))
  }

  function Move(b: Block, s: Cursor): (r: Step)
    requires BlockOk(b) && CursorOk(b, s) && s.pos + b.minMatch < b.end && RepsWithin(s.reps, b.c.maxDist)
    ensures r.Next? ==> CursorOk(b, r.s) && r.s.pos > s.pos && RepsWithin(r.s.reps, b.c.maxDist)
  {
    var k := Lazy(b, s);
    if k.f.len >= b.minMatch then Take(b, s, k) else Skip(b, s, k)
  }

  // ---------------------------------------------------------------- the block

  /** compress_block's result: nothing, or tokens, recent offsets and tables. */
  datatype Parsed = Nothing | Tokens(out: seq<byte>, reps: Reps, tabs: Tables)

  function Finish(b: Block, s: Cursor): (r: Parsed)
    requires BlockOk(b) && CursorOk(b, s)
  {
    var lits := b.data[s.lit..b.end];
    if |s.out| + NeededLast(|lits|) > b.cap then Nothing
    else Tokens(s.out + Sequence(b.c.ob, b.minMatch, lits, 0, 0), s.reps, s.tabs)
  }

  function ParseFrom(b: Block, s: Cursor): (r: Parsed)
    requires BlockOk(b) && CursorOk(b, s) && RepsWithin(s.reps, b.c.maxDist)
    decreases b.end - s.pos
  {
    if s.pos + b.minMatch >= b.end then Finish(b, s)
    else
      match Move(b, s)
      case Next(s1) => ParseFrom(b, s1)
      case NoRoom => Nothing
      case Bail => Nothing
  }

  function Begin(b: Block, r: Reps, t: Tables): (s: Cursor) { Cursor(b.start, b.start, 0, 0, r, t, []) }

  /** compress_block. */
  function ParseBlock(b: Block, r: Reps, t: Tables): (q: Parsed)
    requires BlockOk(b) && Sized(b.c, t) && RepsWithin(r, b.c.maxDist)
  {
    ParseFrom(b, Begin(b, r, t))
  }

  // ---------------------------------------------------------------- soundness

  function ParamsOf(b: Block): (p: Params)
    requires BlockOk(b)
    ensures ParamsOk(p)
  {
    Params(b.c.ob, b.minMatch, b.c.maxDist, b.end)
  }

  /** The tokens so far lead from the history of the block to its bytes before the pending literals. */
  ghost predicate Faithful(b: Block, s: Cursor)
    requires BlockOk(b) && CursorOk(b, s)
  {
    Leads(ParamsOf(b), s.out, b.data[..b.start], b.data[..s.lit])
  }

  lemma TakeFaithful(b: Block, s: Cursor, k: Pick)
    requires BlockOk(b) && CursorOk(b, s) && Sized(b.c, k.tabs) && s.lit <= k.pos && k.f.len >= b.minMatch
    requires Good(b.c, b.data, k.pos, b.end, k.f) && Faithful(b, s) && Take(b, s, k).Next?
    ensures Faithful(b, Take(b, s, k).s)
  {
    hide Leads, MatchAt, Sequence, InsertMatch, Needed, Sized;
    LeadsOn(ParamsOf(b), s.out, b.data[..b.start], b.data, s.lit, k.pos, k.f.len, k.f.off);
  }

  lemma MoveFaithful(b: Block, s: Cursor)
    requires BlockOk(b) && CursorOk(b, s) && s.pos + b.minMatch < b.end && RepsWithin(s.reps, b.c.maxDist)
    requires Faithful(b, s) && Move(b, s).Next?
    ensures Faithful(b, Move(b, s).s)
  {
    hide Leads, Lazy, Take, Sized, InsertMatch, Insert;
    var k := Lazy(b, s);
    if k.f.len >= b.minMatch {
      TakeFaithful(b, s, k);
    }
  }

  lemma {:induction false} ParseFaithful(b: Block, s: Cursor)
    requires BlockOk(b) && CursorOk(b, s) && RepsWithin(s.reps, b.c.maxDist) && Faithful(b, s)
    ensures var r := ParseFrom(b, s);
            r.Tokens? ==> Decode(ParamsOf(b), r.out, b.data[..b.start]) == Done(b.data[..b.end])
                          && |r.out| <= b.cap && Sized(b.c, r.tabs) && RepsWithin(r.reps, b.c.maxDist)
    decreases b.end - s.pos
  {
    hide Leads, Move, Sequence, Decode;
    if s.pos + b.minMatch >= b.end {
      LeadsHome(ParamsOf(b), s.out, b.data[..b.start], b.data, s.lit, b.end);
      LastFits(b.c.ob, b.minMatch, b.data[s.lit..b.end]);
    } else if Move(b, s).Next? {
      MoveFaithful(b, s);
      ParseFaithful(b, Move(b, s).s);
    }
  }

  /** Whatever the tables hold, the tokens of a block decode, after the bytes before it, to exactly the block. */
  lemma ParseDecodes(b: Block, r: Reps, t: Tables)
    requires BlockOk(b) && Sized(b.c, t) && RepsWithin(r, b.c.maxDist)
    ensures var q := ParseBlock(b, r, t);
            q.Tokens? ==> Decode(ParamsOf(b), q.out, b.data[..b.start]) == Done(b.data[..b.end])
                          && |q.out| <= b.cap && Sized(b.c, q.tabs) && RepsWithin(q.reps, b.c.maxDist)
  {
    LeadsNowhere(ParamsOf(b), b.data[..b.start]);
    ParseFaithful(b, Begin(b, r, t));
  }
}
