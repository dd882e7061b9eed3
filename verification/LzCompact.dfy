/** The 16-bit matcher with its sparse reset and short chain chooses what the cleared 32-bit matcher chooses. */
module LzCompact {
  import opened Arithmetic
  import opened Bits
  import opened LittleEndian
  import opened SeqCodes
  import opened Lz
  import opened LzEmit
  import opened LzMatch
  import opened LzMatcher
  import opened LzParse
  import opened LzCompress

  // ---------------------------------------------------------------- tables that agree where it matters

  /** Empty, or a position inserted in this frame. */
  predicate Named(v: int, seen: set<nat>) { v == -1 || v in seen }

  predicate RootAgrees(t1: Table, t2: Table, h: nat, seen: set<nat>) {
    h < |t1.roots| && h < |t2.roots| && t1.roots[h] == t2.roots[h] && Named(t1.roots[h], seen)
  }

  predicate LinkAgrees(t1: Table, t2: Table, p: nat, seen: set<nat>) {
    t1.links != [] && t2.links != [] && t1.links[p % |t1.links|] == t2.links[p % |t2.links|]
    && Named(t1.links[p % |t1.links|], seen)
  }

  /** Numbers of slots that tell the same positions of the input apart. */
  predicate SlotsAlike(n1: nat, n2: nat, end: nat) { 0 < n1 && 0 < n2 && (n1 == n2 || (n1 >= end && n2 >= end)) }

  predicate Fit(t: Table) { |t.roots| == LONG_ROOTS && t.links != [] }

  /** Equal roots at every hash of the input and equal links at every inserted position. */
  ghost predicate Agree(data: seq<byte>, end: nat, t1: Table, t2: Table, seen: set<nat>)
    requires end <= |data|
  {
    Fit(t1) && Fit(t2) && SlotsAlike(|t1.links|, |t2.links|, end)
    && (forall pos: nat :: pos + 4 <= end ==> RootAgrees(t1, t2, HashSafe(data, pos, end), seen))
    && (forall p :: p in seen ==> p < end && LinkAgrees(t1, t2, p, seen))
  }

  lemma SlotsSame(n1: nat, n2: nat, end: nat, p: nat, q: nat)
    requires SlotsAlike(n1, n2, end) && p < end && q < end
    ensures p % n1 == q % n1 <==> p % n2 == q % n2
  {
    if n1 != n2 {
      DivModUnique(p, n1, 0, p);
      DivModUnique(q, n1, 0, q);
      DivModUnique(p, n2, 0, p);
      DivModUnique(q, n2, 0, q);
    }
  }

  lemma RootAfterPut(t1: Table, t2: Table, h: nat, pos: nat, g: nat, seen: set<nat>)
    requires Fit(t1) && Fit(t2) && h < LONG_ROOTS && RootAgrees(t1, t2, g, seen)
    ensures RootAgrees(Put(t1, h, pos), Put(t2, h, pos), g, seen + {pos})
  {
  }

  lemma LinkAfterPut(t1: Table, t2: Table, h: nat, pos: nat, end: nat, p: nat, seen: set<nat>)
    requires Fit(t1) && Fit(t2) && SlotsAlike(|t1.links|, |t2.links|, end) && p < end && pos < end
    requires RootAgrees(t1, t2, h, seen) && (p == pos || LinkAgrees(t1, t2, p, seen))
    ensures LinkAgrees(Put(t1, h, pos), Put(t2, h, pos), p, seen + {pos})
  {
    SlotsSame(|t1.links|, |t2.links|, end, p, pos);
  }

  lemma PutAgrees(data: seq<byte>, end: nat, t1: Table, t2: Table, seen: set<nat>, pos: nat)
    requires end <= |data| && pos + 4 <= end && Agree(data, end, t1, t2, seen)
    ensures var h := HashSafe(data, pos, end); Agree(data, end, Put(t1, h, pos), Put(t2, h, pos), seen + {pos})
  {
    hide HashSafe, RootAgrees, LinkAgrees, SlotsAlike;
    var h := HashSafe(data, pos, end);
    var u1, u2 := Put(t1, h, pos), Put(t2, h, pos);
    forall p: nat | p + 4 <= end ensures RootAgrees(u1, u2, HashSafe(data, p, end), seen + {pos}) {
      RootAfterPut(t1, t2, h, pos, HashSafe(data, p, end), seen);
    }
    forall p | p in seen + {pos} ensures p < end && LinkAgrees(u1, u2, p, seen + {pos}) {
      LinkAfterPut(t1, t2, h, pos, end, p, seen);
    }
  }

  // ---------------------------------------------------------------- walks and finders

  /** The same settings but for the number of slots. */
  predicate Alike(c1: Config, c2: Config) {
    ConfigOk(c1) && ConfigOk(c2) && c2 == c1.(slots := c2.slots) && !c1.useHash4 && !c1.useHash3 && c1.singleProbe
  }

  lemma {:induction false} WalkSame(c1: Config, c2: Config, data: seq<byte>, pos: nat, end: nat, t1: Table, t2: Table,
                                    seen: set<nat>, ref: int, depth: nat, best: Found)
    requires Alike(c1, c2) && pos + 4 <= end <= |data| && Agree(data, end, t1, t2, seen) && Named(ref, seen)
    requires Good(c1, data, pos, end, best) && Good(c2, data, pos, end, best)
    ensures Walk(Longest, c1, data, pos, end, t1.links, ref, depth, best)
            == Walk(Longest, c2, data, pos, end, t2.links, ref, depth, best)
    decreases depth
  {
    hide HashSafe, Same, Takes, Good, SlotsAlike;
    if Oldest(c1, pos) <= ref < pos && depth > 0 {
      assert LinkAgrees(t1, t2, ref, seen);
      var next := t1.links[ref % |t1.links|];
      WalkSame(c1, c2, data, pos, end, t1, t2, seen, next, depth - 1, best);
      if Same(data, pos, ref, 4) {
        var f := Found(Length(data, pos, ref, 4, MaxLen(c1, pos, end)), pos - ref);
        GoodLength(c1, data, pos, ref, 4, end);
        GoodLength(c2, data, pos, ref, 4, end);
        WalkSame(c1, c2, data, pos, end, t1, t2, seen, next, depth - 1, f);
      }
    }
  }

  lemma GoodLength(c: Config, data: seq<byte>, pos: nat, ref: nat, k: nat, end: nat)
    requires ConfigOk(c) && Oldest(c, pos) <= ref < pos && 3 <= k <= 4 && pos + k <= end <= |data|
             && Same(data, pos, ref, k)
    ensures Good(c, data, pos, end, Found(Length(data, pos, ref, k, MaxLen(c, pos, end)), pos - ref))
  {
    hide Same;
  }

  lemma ProbeSame(c1: Config, c2: Config, data: seq<byte>, t1: Tables, t2: Tables, pos: nat, end: nat, seen: set<nat>)
    requires Alike(c1, c2) && Sized(c1, t1) && Sized(c2, t2) && end <= |data|
             && Agree(data, end, t1.long, t2.long, seen)
    ensures Probe(c1, data, t1, pos, end) == Probe(c2, data, t2, pos, end)
  {
    hide HashSafe, Walk, Good, SlotsAlike;
    if pos + 4 <= end {
      assert RootAgrees(t1.long, t2.long, HashSafe(data, pos, end), seen);
      NoneIsGood(c1, data, pos, end);
      NoneIsGood(c2, data, pos, end);
      WalkSame(c1, c2, data, pos, end, t1.long, t2.long, seen, t1.long.roots[HashSafe(data, pos, end)], c1.depth, NONE);
    }
  }

  // ---------------------------------------------------------------- the parser

  /** Two calls of compress_block in fast mode on the same block with alike matchers. */
  predicate Twins(b1: Block, b2: Block) {
    BlockOk(b1) && BlockOk(b2) && Alike(b1.c, b2.c) && b2 == b1.(c := b2.c) && b1.mode == Fast
  }

  /** Two cursors that differ in their tables only, where the tables agree. */
  ghost predicate Matched(b1: Block, s1: Cursor, b2: Block, s2: Cursor, seen: set<nat>)
    requires BlockOk(b1)
  {
    CursorOk(b1, s1) && CursorOk(b2, s2) && s2 == s1.(tabs := s2.tabs)
    && Agree(b1.data, b1.end, s1.tabs.long, s2.tabs.long, seen)
  }

  lemma {:induction false} RepsSame(c1: Config, c2: Config, data: seq<byte>, r: Reps, pos: nat, end: nat, k: nat,
                                    i: nat)
    requires Alike(c1, c2) && i <= 3 && 3 <= k <= 4 && pos + k <= end <= |data|
    ensures RepFrom(c1, data, r, pos, end, k, i) == RepFrom(c2, data, r, pos, end, k, i)
    decreases 3 - i
  {
    hide Same, Length, Good, ConfigOk;
    if i < 3 {
      RepsSame(c1, c2, data, r, pos, end, k, i + 1);
    }
  }

  lemma GreedySame(b1: Block, s1: Cursor, b2: Block, s2: Cursor, seen: set<nat>)
    requires Twins(b1, b2) && Matched(b1, s1, b2, s2, seen) && s1.pos + b1.minMatch < b1.end
    ensures Lazy(b2, s2) == Lazy(b1, s1).(tabs := s2.tabs) && Lazy(b1, s1).tabs == s1.tabs && !Lazy(b1, s1).inserted
    ensures Lazy(b1, s1).pos == s1.pos
  {
    hide RepFrom, Probe, Agree, Good, ConfigOk;
    RepsSame(b1.c, b2.c, b1.data, s1.reps, s1.pos, b1.end, 4, 0);
    ProbeSame(b1.c, b2.c, b1.data, s1.tabs, s2.tabs, s1.pos, b1.end, seen);
  }

  lemma InsertSame(c1: Config, c2: Config, data: seq<byte>, t1: Tables, t2: Tables, pos: nat, end: nat, seen: set<nat>)
    returns (more: set<nat>)
    requires Alike(c1, c2) && Sized(c1, t1) && Sized(c2, t2) && end <= |data|
             && Agree(data, end, t1.long, t2.long, seen)
    ensures Agree(data, end, Insert(c1, data, t1, pos, end).long, Insert(c2, data, t2, pos, end).long, more)
  {
    hide HashSafe, Agree, Put;
    more := seen;
    if pos + 4 <= end {
      PutAgrees(data, end, t1.long, t2.long, seen, pos);
      more := seen + {pos};
    }
  }

  lemma {:induction false} InsertRangeSame(c1: Config, c2: Config, data: seq<byte>, t1: Tables, t2: Tables,
                                           first: nat, stop: nat, end: nat, seen: set<nat>) returns (more: set<nat>)
    requires Alike(c1, c2) && Sized(c1, t1) && Sized(c2, t2) && end <= |data|
             && Agree(data, end, t1.long, t2.long, seen)
    ensures Agree(data, end, InsertRange(c1, data, t1, first, stop, end).long,
            InsertRange(c2, data, t2, first, stop, end).long, more)
    decreases stop - first
  {
    hide Agree, Insert, Sized, ConfigOk;
    more := seen;
    if first < stop && first + 5 <= end {
      more := InsertSame(c1, c2, data, t1, t2, first, end, seen);
      more := InsertRangeSame(c1, c2, data, Insert(c1, data, t1, first, end), Insert(c2, data, t2, first, end),
                              first + 1, stop, end, more);
    }
  }

  lemma InsertMatchSame(b1: Block, k1: Pick, b2: Block, k2: Pick, seen: set<nat>) returns (more: set<nat>)
    requires Twins(b1, b2) && Sized(b1.c, k1.tabs) && Sized(b2.c, k2.tabs) && k2 == k1.(tabs := k2.tabs)
             && k1.f.len >= 3
    requires Agree(b1.data, b1.end, k1.tabs.long, k2.tabs.long, seen)
    ensures Agree(b1.data, b1.end, InsertMatch(b1, k1).long, InsertMatch(b2, k2).long, more)
  {
    hide Agree, InsertRange, Sized, ConfigOk;
    var first := if k1.inserted then k1.pos + 1 else k1.pos;
    var end, len := b1.end, k1.f.len;
    if len >= 16 {
      more := InsertRangeSame(b1.c, b2.c, b1.data, k1.tabs, k2.tabs, first, k1.pos + 3, end, seen);
      more := InsertRangeSame(b1.c, b2.c, b1.data, InsertRange(b1.c, b1.data, k1.tabs, first, k1.pos + 3, end),
                              InsertRange(b2.c, b2.data, k2.tabs, first, k1.pos + 3, end),
                              k1.pos + len - 3, k1.pos + len, end, more);
    } else {
      more := InsertRangeSame(b1.c, b2.c, b1.data, k1.tabs, k2.tabs, first, k1.pos + len, end, seen);
    }
  }

  lemma MoveSame(b1: Block, s1: Cursor, b2: Block, s2: Cursor, seen: set<nat>) returns (more: set<nat>)
    requires Twins(b1, b2) && Matched(b1, s1, b2, s2, seen) && s1.pos + b1.minMatch < b1.end
    requires RepsWithin(s1.reps, b1.c.maxDist)
    ensures Move(b1, s1).Next? <==> Move(b2, s2).Next?
    ensures Move(b1, s1).Next? ==> Matched(b1, Move(b1, s1).s, b2, Move(b2, s2).s, more)
  {
    hide Agree, Lazy, Sequence, InsertMatch, Insert, Needed, Good, Sized, ConfigOk;
    GreedySame(b1, s1, b2, s2, seen);
    var k1, k2 := Lazy(b1, s1), Lazy(b2, s2);
    if k1.f.len >= b1.minMatch {
      more := InsertMatchSame(b1, k1, b2, k2, seen);
    } else {
      more := InsertSame(b1.c, b2.c, b1.data, s1.tabs, s2.tabs, k1.pos, b1.end, seen);
    }
  }

  /** Tokens, or nothing, without regard to the tables. */
  predicate SameTokens(p: Parsed, q: Parsed) {
    (p.Nothing? && q.Nothing?) || (p.Tokens? && q.Tokens? && p.out == q.out && p.reps == q.reps)
  }

  lemma {:induction false} ParseSame(b1: Block, s1: Cursor, b2: Block, s2: Cursor, seen: set<nat>)
    requires Twins(b1, b2) && Matched(b1, s1, b2, s2, seen) && RepsWithin(s1.reps, b1.c.maxDist)
    ensures SameTokens(ParseFrom(b1, s1), ParseFrom(b2, s2))
    decreases b1.end - s1.pos
  {
    hide Agree, Move, Sequence, NeededLast, Sized, ConfigOk;
    if s1.pos + b1.minMatch < b1.end {
      var more := MoveSame(b1, s1, b2, s2, seen);
      if Move(b1, s1).Next? {
        ParseSame(b1, Move(b1, s1).s, b2, Move(b2, s2).s, more);
      }
    }
  }

  /** Roots empty at every hash of the input are as good as roots empty everywhere, whatever the links hold. */
  lemma FreshAgree(data: seq<byte>, end: nat, t1: Table, t2: Table)
    requires end <= |data| && Fit(t1) && Fit(t2) && SlotsAlike(|t1.links|, |t2.links|, end)
    requires forall pos: nat :: pos + 4 <= end ==> t1.roots[HashSafe(data, pos, end)] == -1
    requires forall h :: 0 <= h < LONG_ROOTS ==> t2.roots[h] == -1
    ensures Agree(data, end, t1, t2, {})
  {
    hide HashSafe;
  }

  // ---------------------------------------------------------------- the bounded context

  /** The settings of a fast frame: window log, chain depth, acceleration, and whether recent offsets are skipped. */
  datatype Options = Options(wlog: nat, depth: nat, accel: nat, noRep: bool)

  predicate OptionsOk(o: Options) { 10 <= o.wlog <= 24 && o.accel <= MAX_ACCEL }

  const MAX_MATCH: nat := 65535

  function FastConfig(o: Options, slots: nat): (c: Config) {
    var ob := if o.wlog > 16 then 3 else 2;
    Config(Pow2(o.wlog) - 1, ob, slots, o.depth, MAX_MATCH, false, false, true, o.accel, o.noRep)
  }

  lemma WindowFits(wlog: nat)
    requires wlog <= 24
    ensures Pow2(wlog) - 1 < OffsetLimit(if wlog > 16 then 3 else 2)
  {
    Pow2Eight(0);
    Pow2Eight(8);
    Pow2Eight(16);
    assert Pow2(0) == 1;
    if wlog > 16 {
      Pow2Monotone(wlog, 24);
    } else {
      Pow2Monotone(wlog, 16);
    }
  }

  lemma FastConfigOk(o: Options, slots: nat)
    requires OptionsOk(o) && slots > 0
    ensures ConfigOk(FastConfig(o, slots))
  {
    WindowFits(o.wlog);
  }

  /** The 32-bit tables of a fresh matcher: every root cleared, a slot for each position of the window. */
  function Cleared(o: Options): (t: Tables)
    ensures |t.long.roots| == LONG_ROOTS && |t.long.links| == Pow2(o.wlog)
    ensures forall h :: 0 <= h < LONG_ROOTS ==> t.long.roots[h] == -1
  {
    Tables(Table(seq(LONG_ROOTS, i => -1), seq(Pow2(o.wlog), i => 0)), Table([], []), Table([], []))
  }

  /** The fast parse of a whole page by the fresh 32-bit matcher. */
  function PageTokens(o: Options, data: seq<byte>, cap: nat): (q: Parsed)
    requires OptionsOk(o)
  {
    FastConfigOk(o, Pow2(o.wlog));
    ParseBlock(Block(FastConfig(o, Pow2(o.wlog)), Fast, data, 0, |data|, 4, cap), NO_REPS, Cleared(o))
  }

  /** What a 32-bit matcher chooses from cleared tables is chosen from any tables whose reachable roots are empty. */
  lemma PageSame(o: Options, slots: nat, data: seq<byte>, cap: nat, t: Tables)
    requires OptionsOk(o) && SlotsAlike(slots, Pow2(o.wlog), |data|) && TableSized(t.long, LONG_ROOTS, slots)
    requires forall pos: nat :: pos + 4 <= |data| ==> t.long.roots[HashSafe(data, pos, |data|)] == -1
    ensures ConfigOk(FastConfig(o, slots))
    ensures SameTokens(ParseBlock(Block(FastConfig(o, slots), Fast, data, 0, |data|, 4, cap), NO_REPS, t),
            PageTokens(o, data, cap))
  {
    hide HashSafe, ParseFrom, Agree, FastConfig;
    FastConfigOk(o, slots);
    FastConfigOk(o, Pow2(o.wlog));
    FastConfigsAlike(o, slots);
    var b1 := Block(FastConfig(o, slots), Fast, data, 0, |data|, 4, cap);
    var b2 := Block(FastConfig(o, Pow2(o.wlog)), Fast, data, 0, |data|, 4, cap);
    FreshAgree(data, |data|, t.long, Cleared(o).long);
    ParseSame(b1, Begin(b1, NO_REPS, t), b2, Begin(b2, NO_REPS, Cleared(o)), {});
  }

  lemma FastConfigsAlike(o: Options, slots: nat)
    requires OptionsOk(o) && slots > 0
    ensures Alike(FastConfig(o, slots), FastConfig(o, Pow2(o.wlog)))
    ensures FastConfig(o, slots).slots == slots && FastConfig(o, Pow2(o.wlog)).slots == Pow2(o.wlog)
  {
    FastConfigOk(o, slots);
    FastConfigOk(o, Pow2(o.wlog));
  }

  /** The tokens of a page decode to the page. */
  lemma PageDecodes(o: Options, data: seq<byte>, cap: nat)
    requires OptionsOk(o) && PageTokens(o, data, cap).Tokens?
    ensures Decode(Params(if o.wlog > 16 then 3 else 2, 4, Pow2(o.wlog) - 1, |data|), PageTokens(o, data, cap).out, [])
            == Done(data)
  {
    hide ParseFrom, Decode;
    FastConfigOk(o, Pow2(o.wlog));
    ParseDecodes(Block(FastConfig(o, Pow2(o.wlog)), Fast, data, 0, |data|, 4, cap), NO_REPS, Cleared(o));
    assert data[..0] == [] && data[..|data|] == data;
  }

  predicate PowerOfTwo(n: nat) { n == 1 || (n > 0 && n % 2 == 0 && PowerOfTwo(n / 2)) }

  /** fast_chain_slots: the smallest power of two that is no smaller. */
  method ChainSlots(maxInput: nat) returns (slots: nat)
    ensures PowerOfTwo(slots) && slots >= maxInput && (slots > 1 ==> slots / 2 < maxInput)
  {
    slots := 1;
    while slots < maxInput
      invariant PowerOfTwo(slots) && (slots > 1 ==> slots / 2 < maxInput)
      decreases maxInput - slots
    {
      slots := 2 * slots;
    }
  }

  const SPARSE: nat := 4096

  /** vv_fast_context: one 16-bit matcher in caller storage, used for one page after another. */
  class FastContext {
    const maxInput: nat
    const o: Options
    const roots: array<int>
    const links: array<int>

    ghost predicate Valid() {
      maxInput <= 0x1_0000 && OptionsOk(o) && roots.Length == LONG_ROOTS && links.Length >= maxInput && links.Length > 0
      && roots != links
    }

    /** vv_fast_context_init over storage that may hold anything. */
    constructor (maxInput: nat, o: Options, roots: array<int>, links: array<int>)
      requires 0 < maxInput <= 0x1_0000 && OptionsOk(o) && roots.Length == LONG_ROOTS && links.Length >= maxInput
               && roots != links
      ensures Valid() && this.roots == roots && this.links == links && this.maxInput == maxInput && this.o == o
    {
      this.maxInput, this.o, this.roots, this.links := maxInput, o, roots, links;
    }

    /** The root reset of matcher_prepare: the buckets the input can reach, or all of them for a large input. */
    method Prepare(data: seq<byte>)
      requires Valid()
      modifies roots
      ensures forall pos: nat :: pos + 4 <= |data| ==> roots[HashSafe(data, pos, |data|)] == EMPTY16
    {
      hide HashSafe;
      if |data| < SPARSE {
        var pos := 0;
        while pos + 4 <= |data|
          invariant forall p: nat :: p < pos && p + 4 <= |data| ==> roots[HashSafe(data, p, |data|)] == EMPTY16
        {
          roots[HashSafe(data, pos, |data|)] := EMPTY16;
          pos := pos + 1;
        }
      } else {
        forall h | 0 <= h < LONG_ROOTS {
          roots[h] := EMPTY16;
        }
      }
    }

    /** A table that is not used. */
    method NoTable() returns (t: HashTable)
      ensures t.Valid() && !t.compact && fresh(t) && fresh(t.roots) && fresh(t.links)
    {
      var none, noLinks := new int[0], new int[0];
      t := new HashTable(false, none, noLinks, 0);
    }

    /** The matcher over this storage, as vv_fast_context_compress sets it up. */
    method Assemble(data: seq<byte>) returns (m: Matcher)
      requires Valid() && |data| <= maxInput
      modifies roots
      ensures m.Valid() && m.Holds(|data|) && m.reps == NO_REPS && fresh(m) && fresh(m.Repr() - {roots, links})
      ensures m.c == FastConfig(o, m.c.slots) && SlotsAlike(m.c.slots, Pow2(o.wlog), |data|)
      ensures forall pos: nat :: pos + 4 <= |data| ==> m.View().long.roots[HashSafe(data, pos, |data|)] == -1
    {
      hide HashSafe, SlotsAlike;
      Prepare(data);
      var slots := Min(Pow2(o.wlog), links.Length);
      SlotsCover(o, slots, links.Length, |data|);
      FastConfigOk(o, slots);
      var long := new HashTable(true, roots, links, slots);
      var mid := NoTable();
      var short := NoTable();
      m := new Matcher(FastConfig(o, slots), long, mid, short);
    }

    /** The block of vv_fast_context_compress: the tokens the fresh 32-bit matcher would give. */
    method Compress(data: seq<byte>, dst: array<byte>) returns (n: nat)
      requires Valid() && |data| <= maxInput
      modifies roots, links, dst
      ensures Told(PageTokens(o, data, dst.Length), n, dst[..])
    {
      hide HashSafe, ParseBlock, PageTokens, FastConfig, SlotsAlike, Sized;
      var m := Assemble(data);
      PageStart(o, m.c.slots, data, dst.Length, m.View());
      n := CompressBlock(m, Fast, data, 0, |data|, 4, dst, dst.Length);
    }
  }

  /** What compress_block reports of a parse. */
  predicate Told(q: Parsed, n: nat, bytes: seq<byte>) {
    match q
    case Nothing => n == 0
    case Tokens(out, _, _) => n == |out| && 0 < n <= |bytes| && bytes[..n] == out
  }

  lemma PageStart(o: Options, slots: nat, data: seq<byte>, cap: nat, t: Tables)
    requires OptionsOk(o) && SlotsAlike(slots, Pow2(o.wlog), |data|) && Sized(FastConfig(o, slots), t)
    requires forall pos: nat :: pos + 4 <= |data| ==> t.long.roots[HashSafe(data, pos, |data|)] == -1
    ensures ConfigOk(FastConfig(o, slots)) && FastConfig(o, slots).slots == slots
    ensures SameTokens(ParseBlock(Block(FastConfig(o, slots), Fast, data, 0, |data|, 4, cap), NO_REPS, t),
            PageTokens(o, data, cap))
  {
    hide HashSafe, ParseBlock, PageTokens;
    PageSame(o, slots, data, cap, t);
  }

  lemma SlotsCover(o: Options, slots: nat, links: nat, n: nat)
    requires links >= n && links > 0 && slots == Min(Pow2(o.wlog), links)
    ensures SlotsAlike(slots, Pow2(o.wlog), n)
  {
  }
}
