/** zupt_lzh's parser: a match finder over one hash chain, up to three steps of lazy evaluation, and its symbols. */
module LzhParse {
  import opened Bits
  import opened LittleEndian
  import opened LzEmit
  import opened LzMatch
  import opened LzMatcher
  import opened LzhStream

  const ROOTS: nat := 0x10_0000
  const LONGEST: nat := 4322

  /** lzh_config_t. */
  datatype Setup = Setup(win: nat, depth: nat, lazy: nat, minMatch: nat)

  predicate SetupOk(c: Setup) { 0 < c.win <= 0x10_0000 && 3 <= c.minMatch <= 4 }

  /** lzh_config, levels outside 1 to 9 cut off. */
  function SetupOf(level: int): (c: Setup)
    ensures SetupOk(c)
  {
    if level <= 1 then Setup(0x1_0000, 12, 0, 4)
    else
      match level
      case 2 => Setup(0x2_0000, 24, 1, 4)
      case 3 => Setup(0x2_0000, 48, 1, 3)
      case 4 => Setup(0x4_0000, 96, 2, 3)
      case 5 => Setup(0x8_0000, 160, 2, 3)
      case 6 => Setup(0x8_0000, 256, 3, 3)
      case 7 => Setup(0x10_0000, 384, 3, 3)
      case 8 => Setup(0x10_0000, 512, 4, 3)
      case _ => Setup(0x10_0000, 768, 5, 3)
  }

  // ---------------------------------------------------------------- the match finder

  /** lzh_hash with twenty bits. */
  function Hash(data: seq<byte>, pos: nat): (h: nat)
    requires pos + 4 <= |data|
    ensures h < ROOTS
  {
    TopBits(Word4(data, pos) * 2654435761, 0x1000, ROOTS)
  }

  predicate TableOk(c: Setup, t: Table) { TableSized(t, ROOTS, c.win) }

  /** A match, or what a search begins with. */
  predicate FoundAt(c: Setup, data: seq<byte>, pos: nat, f: Found) {
    (f.len + 1 == c.minMatch && f.off == 0)
    || (c.minMatch <= f.len <= LONGEST && f.off <= c.win && MatchAt(data, pos, f.off, f.len))
  }

  /** Whether a candidate is worth comparing: the byte that would beat the best, and the first two. */
  predicate Promises(data: seq<byte>, pos: nat, ref: nat, best: nat)
    requires ref < pos && pos + 2 <= |data|
  {
    best < |data| - pos && data[ref + best] == data[pos + best] && data[ref] == data[pos]
    && data[ref + 1] == data[pos + 1]
  }

  /** Whether a new best ends the search, with so many candidates left to try. */
  predicate Enough(c: Setup, len: nat, left: nat) { len >= LONGEST || (len >= 512 && c.depth - left > c.depth / 4) }

  /** The chain from ref on. */
  function Search(c: Setup, data: seq<byte>, pos: nat, links: seq<int>, ref: int, left: nat, best: Found): (f: Found)
    requires SetupOk(c) && |links| == c.win && pos + 4 <= |data| && FoundAt(c, data, pos, best)
    ensures FoundAt(c, data, pos, f)
    decreases left
  {
    if !(0 <= ref < pos <= ref + c.win) || left == 0 then best
    else
      var next := links[ref % c.win];
      var n := Common(data, pos, ref, Min(|data| - pos, LONGEST));
      SameIsMatch(data, pos, ref, n);
      if !Promises(data, pos, ref, best.len) || n <= best.len then Search(c, data, pos, links, next, left - 1, best)
      else if Enough(c, n, left) then Found(n, pos - ref)
      else Search(c, data, pos, links, next, left - 1, Found(n, pos - ref))
  }

  /** find_match. */
  function Find(c: Setup, data: seq<byte>, t: Table, pos: nat): (f: Found)
    requires SetupOk(c) && TableOk(c, t)
    ensures if f.len > 0 then f.len >= c.minMatch && FoundAt(c, data, pos, f) && pos + 4 <= |data| else f == NONE
  {
    if pos + 4 > |data| then NONE
    else
      var f := Search(c, data, pos, t.links, t.roots[Hash(data, pos)], c.depth, Found(c.minMatch - 1, 0));
      if f.len >= c.minMatch then f else NONE
  }

  /** insert_hash. */
  function InsertOne(c: Setup, data: seq<byte>, t: Table, pos: nat): (u: Table)
    requires SetupOk(c) && TableOk(c, t)
    ensures TableOk(c, u)
  {
    if pos + 4 <= |data| then Put(t, Hash(data, pos), pos) else t
  }

  function InsertTo(c: Setup, data: seq<byte>, t: Table, first: nat, stop: nat): (u: Table)
    requires SetupOk(c) && TableOk(c, t)
    ensures TableOk(c, u)
    decreases stop - first
  {
    if first < stop && first + 4 <= |data| then InsertTo(c, data, InsertOne(c, data, t, first), first + 1, stop) else t
  }

  // ---------------------------------------------------------------- the parser

  /** A match to take, and the table by then. */
  datatype Pick = Pick(pos: nat, f: Found, tab: Table)

  ghost predicate PickOk(c: Setup, data: seq<byte>, p: Pick) {
    TableOk(c, p.tab) && 3 <= p.f.len <= LONGEST && p.f.off <= c.win && MatchAt(data, p.pos, p.f.off, p.f.len)
  }

  /** Lazy evaluation after so many steps: a match that is longer by two or more, one place on, is preferred. */
  function Settle(c: Setup, data: seq<byte>, step: nat, p: Pick): (q: Pick)
    requires SetupOk(c) && PickOk(c, data, p)
    ensures PickOk(c, data, q) && p.pos <= q.pos
    decreases 3 - step
  {
    hide Find, InsertOne;
    if step < 3 && step < c.lazy && p.pos + 1 < |data| then
      var t := InsertOne(c, data, p.tab, p.pos);
      var f := Find(c, data, t, p.pos + 1);
      if f.len > p.f.len + 1 then Settle(c, data, step + 1, Pick(p.pos + 1, f, t)) else Pick(p.pos, p.f, t)
    else p
  }

  function Lits(data: seq<byte>, lo: nat, hi: nat): (syms: seq<Sym>)
    requires lo <= hi <= |data|
  {
    seq(hi - lo, i requires 0 <= i < hi - lo => Lit(data[lo + i]))
  }

  /** The table after a match. */
  function After(c: Setup, data: seq<byte>, p: Pick): (t: Table)
    requires SetupOk(c) && TableOk(c, p.tab)
    ensures TableOk(c, t)
  {
    InsertTo(c, data, if c.lazy < 1 then InsertOne(c, data, p.tab, p.pos) else p.tab, p.pos + 1, p.pos + p.f.len)
  }

  /** The symbols of the source from pos on. */
  function Parse(c: Setup, data: seq<byte>, t: Table, pos: nat): (syms: seq<Sym>)
    requires SetupOk(c) && TableOk(c, t)
    decreases |data| - pos
  {
    hide Find, Settle, InsertOne, InsertTo, After;
    if pos >= |data| then []
    else
      var f := Find(c, data, t, pos);
      if f.len == 0 then [Lit(data[pos])] + Parse(c, data, InsertOne(c, data, t, pos), pos + 1)
      else
        var p := Settle(c, data, 0, Pick(pos, f, t));
        Lits(data, pos, p.pos) + [Copy(p.f.len, p.f.off)] + Parse(c, data, After(c, data, p), p.pos + p.f.len)
  }

  // ---------------------------------------------------------------- what the symbols mean

  lemma {:induction false} LitsYield(data: seq<byte>, lo: nat, hi: nat)
    requires lo <= hi <= |data|
    ensures Yields(Lits(data, lo, hi), data[..lo], data[..hi])
    decreases hi - lo
  {
    if lo < hi {
      LitsYield(data, lo + 1, hi);
      assert Lits(data, lo, hi)[1..] == Lits(data, lo + 1, hi);
      assert data[..lo] + [data[lo]] == data[..lo + 1];
    }
  }

  lemma CopyYields(data: seq<byte>, pos: nat, f: Found)
    requires MatchAt(data, pos, f.off, f.len)
    ensures Yields([Copy(f.len, f.off)], data[..pos], data[..pos + f.len])
  {
    CopyReproduces(data, pos, f.off, f.len);
  }

  lemma {:induction false} PickYields(data: seq<byte>, pos: nat, p: Pick)
    requires pos <= p.pos && MatchAt(data, p.pos, p.f.off, p.f.len)
    ensures Yields(Lits(data, pos, p.pos) + [Copy(p.f.len, p.f.off)], data[..pos], data[..p.pos + p.f.len])
  {
    hide MatchAt, Lits, Yields;
    MatchEnds(data, p.pos, p.f);
    LitsYield(data, pos, p.pos);
    CopyYields(data, p.pos, p.f);
    YieldsMore(Lits(data, pos, p.pos), [Copy(p.f.len, p.f.off)], data[..pos], data[..p.pos],
               data[..p.pos + p.f.len]);
  }

  lemma MatchEnds(data: seq<byte>, pos: nat, f: Found)
    requires MatchAt(data, pos, f.off, f.len)
    ensures 0 < f.off <= pos && pos + f.len <= |data|
  {
  }

  /** Whatever the table holds, the symbols mean the source, and all of them have codes. */
  lemma {:induction false} ParseYields(c: Setup, data: seq<byte>, t: Table, pos: nat)
    requires SetupOk(c) && TableOk(c, t) && pos <= |data|
    ensures Yields(Parse(c, data, t, pos), data[..pos], data)
    decreases |data| - pos
  {
    hide Find, Settle, InsertOne, InsertTo, After, Yields, Lits, MatchAt;
    if pos >= |data| {
      assert data[..pos] == data;
      NothingYields(data);
    } else {
      var f := Find(c, data, t, pos);
      if f.len == 0 {
        ParseYields(c, data, InsertOne(c, data, t, pos), pos + 1);
        LitYields(data, pos);
        YieldsMore([Lit(data[pos])], Parse(c, data, InsertOne(c, data, t, pos), pos + 1),
                   data[..pos], data[..pos + 1], data);
      } else {
        var p := Settle(c, data, 0, Pick(pos, f, t));
        MatchEnds(data, p.pos, p.f);
        PickYields(data, pos, p);
        ParseYields(c, data, After(c, data, p), p.pos + p.f.len);
        YieldsMore(Lits(data, pos, p.pos) + [Copy(p.f.len, p.f.off)],
                   Parse(c, data, After(c, data, p), p.pos + p.f.len), data[..pos], data[..p.pos + p.f.len], data);
      }
    }
  }

  lemma NothingYields(h: seq<byte>)
    ensures Yields([], h, h)
  {
  }

  lemma LitYields(data: seq<byte>, pos: nat)
    requires pos < |data|
    ensures Yields([Lit(data[pos])], data[..pos], data[..pos + 1])
  {
    assert data[..pos] + [data[pos]] == data[..pos + 1];
  }

  ghost predicate AllOk(syms: seq<Sym>) { forall i :: 0 <= i < |syms| ==> SymOk(syms[i]) }

  /** Every length and distance has a code, and there are no more symbols than bytes. */
  lemma {:induction false} ParseOk(c: Setup, data: seq<byte>, t: Table, pos: nat)
    requires SetupOk(c) && TableOk(c, t) && pos <= |data|
    ensures AllOk(Parse(c, data, t, pos)) && |Parse(c, data, t, pos)| <= |data| - pos
    decreases |data| - pos
  {
    hide Find, Settle, InsertOne, InsertTo, After, MatchAt;
    if pos < |data| {
      var f := Find(c, data, t, pos);
      if f.len == 0 {
        ParseOk(c, data, InsertOne(c, data, t, pos), pos + 1);
      } else {
        var p := Settle(c, data, 0, Pick(pos, f, t));
        MatchEnds(data, p.pos, p.f);
        ParseOk(c, data, After(c, data, p), p.pos + p.f.len);
      }
    }
  }

  // ---------------------------------------------------------------- the loops

  lemma SearchStep(c: Setup, data: seq<byte>, pos: nat, links: seq<int>, ref: int, left: nat, best: Found)
    requires SetupOk(c) && |links| == c.win && pos + 4 <= |data| && FoundAt(c, data, pos, best)
    requires 0 <= ref < pos <= ref + c.win && left > 0
    ensures var n := Common(data, pos, ref, Min(|data| - pos, LONGEST));
            var better := Promises(data, pos, ref, best.len) && n > best.len;
            (better ==> FoundAt(c, data, pos, Found(n, pos - ref)))
            && Search(c, data, pos, links, ref, left, best)
               == if !better then Search(c, data, pos, links, links[ref % c.win], left - 1, best)
                  else if Enough(c, n, left) then Found(n, pos - ref)
                  else Search(c, data, pos, links, links[ref % c.win], left - 1, Found(n, pos - ref))
  {
    hide Common, Same, MatchAt, Enough, Promises;
    var n := Common(data, pos, ref, Min(|data| - pos, LONGEST));
    SameIsMatch(data, pos, ref, n);
  }

  lemma SearchEnd(c: Setup, data: seq<byte>, pos: nat, links: seq<int>, ref: int, left: nat, best: Found)
    requires SetupOk(c) && |links| == c.win && pos + 4 <= |data| && FoundAt(c, data, pos, best)
    requires !(0 <= ref < pos <= ref + c.win) || left == 0
    ensures Search(c, data, pos, links, ref, left, best) == best
  {
    hide Common, Same, MatchAt, Enough, Promises;
  }

  /** find_match. */
  method FindMatch(c: Setup, data: seq<byte>, t: HashTable, pos: nat) returns (f: Found)
    requires SetupOk(c) && t.Valid() && TableOk(c, t.View())
    ensures f == Find(c, data, t.View(), pos)
  {
    hide Search, Common, Hash, Enough, Promises, FoundAt;
    if pos + 4 > |data| {
      return NONE;
    }
    var ref := t.Root(Hash(data, pos));
    var best, left := Found(c.minMatch - 1, 0), c.depth;
    ghost var links := t.View().links;
    StartsFound(c, data, pos);
    ghost var goal := Search(c, data, pos, links, ref, left, best);
    while 0 <= ref < pos <= ref + c.win && left > 0
      invariant FoundAt(c, data, pos, best) && goal == Search(c, data, pos, links, ref, left, best)
      decreases left
    {
      SearchStep(c, data, pos, links, ref, left, best);
      var next := t.Link(ref);
      if Promises(data, pos, ref, best.len) {
        var n := ExtendMatch(data, pos, ref, Min(|data| - pos, LONGEST));
        if n > best.len {
          best := Found(n, pos - ref);
          if Enough(c, n, left) {
            break;
          }
        }
      }
      ref, left := next, left - 1;
    }
    if best != goal {
      SearchEnd(c, data, pos, links, ref, left, best);
    }
    f := if best.len >= c.minMatch then best else NONE;
  }

  lemma StartsFound(c: Setup, data: seq<byte>, pos: nat)
    requires SetupOk(c)
    ensures FoundAt(c, data, pos, Found(c.minMatch - 1, 0))
  {
  }

  /** insert_hash. */
  method InsertHash(c: Setup, data: seq<byte>, t: HashTable, pos: nat)
    requires SetupOk(c) && t.Valid() && !t.compact && TableOk(c, t.View())
    modifies t.roots, t.links
    ensures t.View() == InsertOne(c, data, old(t.View()), pos)
  {
    hide Hash;
    if pos + 4 <= |data| {
      t.Add(Hash(data, pos), pos);
    }
  }

  method InsertHashes(c: Setup, data: seq<byte>, t: HashTable, first: nat, stop: nat)
    requires SetupOk(c) && t.Valid() && !t.compact && TableOk(c, t.View())
    modifies t.roots, t.links
    ensures t.View() == InsertTo(c, data, old(t.View()), first, stop)
  {
    hide InsertOne;
    var i := first;
    while i < stop && i + 4 <= |data|
      invariant TableOk(c, t.View())
      invariant InsertTo(c, data, t.View(), i, stop) == InsertTo(c, data, old(t.View()), first, stop)
      decreases stop - i
    {
      InsertHash(c, data, t, i);
      i := i + 1;
    }
  }

  lemma SettleStep(c: Setup, data: seq<byte>, step: nat, p: Pick)
    requires SetupOk(c) && PickOk(c, data, p)
    ensures !(step < 3 && step < c.lazy && p.pos + 1 < |data|) ==> Settle(c, data, step, p) == p
    ensures step < 3 && step < c.lazy && p.pos + 1 < |data| ==>
              var t := InsertOne(c, data, p.tab, p.pos);
              var f := Find(c, data, t, p.pos + 1);
              var better := f.len > p.f.len + 1;
              (better ==> PickOk(c, data, Pick(p.pos + 1, f, t)))
              && Settle(c, data, step, p)
                 == if better then Settle(c, data, step + 1, Pick(p.pos + 1, f, t)) else Pick(p.pos, p.f, t)
  {
    hide Find, InsertOne;
  }

  /** The nested tries at the next three positions. */
  method SettleMatch(c: Setup, data: seq<byte>, t: HashTable, pos: nat, f: Found) returns (at: nat, g: Found)
    requires SetupOk(c) && t.Valid() && !t.compact && PickOk(c, data, Pick(pos, f, t.View()))
    modifies t.roots, t.links
    ensures Settle(c, data, 0, Pick(pos, f, old(t.View()))) == Pick(at, g, t.View())
  {
    hide Find, InsertOne, Settle, MatchAt;
    ghost var goal := Settle(c, data, 0, Pick(pos, f, t.View()));
    var step := 0;
    at, g := pos, f;
    while step < 3 && step < c.lazy && at + 1 < |data|
      invariant step <= 3 && PickOk(c, data, Pick(at, g, t.View()))
      invariant Settle(c, data, step, Pick(at, g, t.View())) == goal
      decreases 3 - step
    {
      SettleStep(c, data, step, Pick(at, g, t.View()));
      InsertHash(c, data, t, at);
      var next := FindMatch(c, data, t, at + 1);
      if next.len <= g.len + 1 {
        return;
      }
      at, g, step := at + 1, next, step + 1;
    }
    SettleStep(c, data, step, Pick(at, g, t.View()));
  }

  lemma ParseStep(c: Setup, data: seq<byte>, t: Table, pos: nat, syms: seq<Sym>)
    requires SetupOk(c) && TableOk(c, t) && pos < |data|
    ensures var f := Find(c, data, t, pos);
            if f.len == 0 then
              syms + Parse(c, data, t, pos)
              == syms + [Lit(data[pos])] + Parse(c, data, InsertOne(c, data, t, pos), pos + 1)
            else
              var p := Settle(c, data, 0, Pick(pos, f, t));
              pos <= p.pos < |data| && PickOk(c, data, Pick(pos, f, t))
              && syms + Parse(c, data, t, pos)
                 == syms + (Lits(data, pos, p.pos) + [Copy(p.f.len, p.f.off)])
                    + Parse(c, data, After(c, data, p), p.pos + p.f.len)
  {
    hide Find, Settle, InsertOne, InsertTo, After, Lits;
  }

  lemma ParseEnd(c: Setup, data: seq<byte>, t: Table, pos: nat)
    requires SetupOk(c) && TableOk(c, t) && pos >= |data|
    ensures Parse(c, data, t, pos) == []
  {
  }

  /** The parsing loop. */
  method ParseAll(c: Setup, data: seq<byte>, t: HashTable) returns (syms: seq<Sym>)
    requires SetupOk(c) && t.Valid() && !t.compact && TableOk(c, t.View()) && |data| <= INT32_MAX
    modifies t.roots, t.links
    ensures syms == Parse(c, data, old(t.View()), 0)
  {
    hide Find, Settle, InsertOne, InsertTo, Parse, MatchAt, Lits, TableOk;
    syms := [];
    var pos := 0;
    assert [] + Parse(c, data, t.View(), 0) == Parse(c, data, t.View(), 0);
    while pos < |data|
      invariant TableOk(c, t.View()) && syms + Parse(c, data, t.View(), pos) == Parse(c, data, old(t.View()), 0)
      decreases |data| - pos
    {
      ParseStep(c, data, t.View(), pos, syms);
      var f := FindMatch(c, data, t, pos);
      if f.len == 0 {
        syms := syms + [Lit(data[pos])];
        InsertHash(c, data, t, pos);
        pos := pos + 1;
      } else {
        var at, g := SettleMatch(c, data, t, pos, f);
        syms := syms + (Lits(data, pos, at) + [Copy(g.len, g.off)]);
        if c.lazy < 1 {
          InsertHash(c, data, t, at);
        }
        InsertHashes(c, data, t, at + 1, at + g.len);
        pos := at + g.len;
      }
    }
    ParseEnd(c, data, t.View(), pos);
    assert syms + [] == syms;
  }
}
