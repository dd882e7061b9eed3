/** The optimal parser: a forward dynamic program over the block, with the recent offsets of every best path. */
module LzOptimal {
  import opened Bits
  import opened LittleEndian
  import opened SeqCodes
  import opened LzEmit
  import opened LzMatch
  import opened LzParse

  // ---------------------------------------------------------------- prices

  /** Bits of each literal byte and of each offset code, as estimated before the parse. */
  datatype Prices = Prices(lit: seq<nat>, of: seq<nat>)

  predicate PricesOk(p: Prices) {
    |p.lit| == 256 && |p.of| == 27
    && (forall x :: 0 <= x < 256 ==> p.lit[x] <= 14) && (forall x :: 0 <= x < 27 ==> p.of[x] <= 12)
  }

  /** The offset code a match would get after the recent offsets r. */
  function OffsetClass(r: Reps, off: nat): (x: nat)
    ensures x < 27
  {
    if off == r.r0 then 0
    else if off == r.r1 then 1
    else if off == r.r2 then 2
    else Min(3 + Log2(off), 26)
  }

  /** opt_match_price. */
  function MatchPrice(p: Prices, r: Reps, off: nat, len: nat): (n: nat)
    requires PricesOk(p)
  {
    var x := OffsetClass(r, off);
    8 + p.of[x] + (if x >= 3 then Log2(off) else 0) + (if len >= 4 + 15 then 8 * ((len - 4) / 255 + 1) else 0)
  }

  /** One literal (offset 0, length 1) or one match. */
  datatype Edge = Edge(len: nat, off: nat)

  /** The bits of an edge that leaves position pos with recent offsets r. */
  function EdgeCost(p: Prices, data: seq<byte>, pos: nat, r: Reps, e: Edge): (n: nat)
    requires PricesOk(p) && pos < |data|
  {
    if e.off == 0 then p.lit[data[pos]] else MatchPrice(p, r, e.off, e.len)
  }

  // ---------------------------------------------------------------- candidates

  const LONG: nat := 512
  const MAX_CANDS: nat := 16

  predicate GoodCands(c: Config, data: seq<byte>, pos: nat, end: nat, fs: seq<Found>) {
    forall k :: 0 <= k < |fs| ==> fs[k].len >= 4 && Good(c, data, pos, end, fs[k])
  }

  /** Candidates at the recent offsets from number i on; a long one ends the search. */
  function RepCands(c: Config, data: seq<byte>, r: Reps, pos: nat, end: nat, i: nat, fs: seq<Found>): (gs: seq<Found>)
    requires ConfigOk(c) && pos + 4 <= end <= |data| && i <= 3
    decreases 3 - i
  {
    if i == 3 then fs
    else
      var d := RepAt(r, i);
      if d == 0 || d > pos then RepCands(c, data, r, pos, end, i + 1, fs)
      else
        var l := Common(data, pos, pos - d, MaxLen(c, pos, end));
        var gs := if l >= 4 && |fs| < MAX_CANDS then fs + [Found(l, d)] else fs;
        if l >= LONG then gs else RepCands(c, data, r, pos, end, i + 1, gs)
  }

  /** The first candidate with offset off, from number k on, or the number of candidates. */
  function SameOffset(fs: seq<Found>, off: nat, k: nat): (j: nat)
    requires k <= |fs|
    ensures k <= j <= |fs| && (j < |fs| ==> fs[j].off == off)
    decreases |fs| - k
  {
    if k == |fs| || fs[k].off == off then k else SameOffset(fs, off, k + 1)
  }

  /** One more candidate; an offset already listed keeps its longer match. */
  function AddCand(fs: seq<Found>, f: Found): (gs: seq<Found>) {
    var j := SameOffset(fs, f.off, 0);
    if j == |fs| then fs + [f] else if fs[j].len < f.len then fs[j := f] else fs
  }

  function ChainCands(c: Config, data: seq<byte>, pos: nat, end: nat, links: seq<int>, ref: int, depth: nat,
                      fs: seq<Found>)
    : (gs: seq<Found>)
    requires ConfigOk(c) && links != [] && pos + 4 <= end <= |data|
    decreases depth
  {
    if !(Oldest(c, pos) <= ref < pos) || depth == 0 || |fs| >= MAX_CANDS then fs
    else
      var next := links[ref % |links|];
      if !Same(data, pos, ref, 4) then ChainCands(c, data, pos, end, links, next, depth - 1, fs)
      else
        var f := Found(Length(data, pos, ref, 4, MaxLen(c, pos, end)), pos - ref);
        if f.len >= LONG then AddCand(fs, f)
        else ChainCands(c, data, pos, end, links, next, depth - 1, AddCand(fs, f))
  }

  /** Whether some recent offset gave a long candidate, which is then the last one. */
  predicate EndsLong(fs: seq<Found>) { fs != [] && fs[|fs| - 1].len >= LONG }

  /** opt_collect. */
  function Collect(c: Config, data: seq<byte>, t: Table, r: Reps, pos: nat, end: nat): (fs: seq<Found>)
    requires ConfigOk(c) && TableSized(t, LONG_ROOTS, c.slots) && end <= |data|
  {
    if pos + 4 > end then []
    else
      var fs := RepCands(c, data, r, pos, end, 0, []);
      if EndsLong(fs) then fs
      else ChainCands(c, data, pos, end, t.links, t.roots[HashSafe(data, pos, end)], c.depth, fs)
  }

  lemma GoodAtRep(c: Config, data: seq<byte>, pos: nat, end: nat, d: nat, fs: seq<Found>)
    requires ConfigOk(c) && pos + 4 <= end <= |data| && 0 < d <= pos && d <= c.maxDist
             && GoodCands(c, data, pos, end, fs)
    ensures var l := Common(data, pos, pos - d, MaxLen(c, pos, end));
            l >= 4 ==> GoodCands(c, data, pos, end, fs + [Found(l, d)])
  {
    hide Same, MatchAt, Common;
    SameIsMatch(data, pos, pos - d, Common(data, pos, pos - d, MaxLen(c, pos, end)));
  }

  lemma {:induction false} RepCandsGood(c: Config, data: seq<byte>, r: Reps, pos: nat, end: nat, i: nat, fs: seq<Found>)
    requires ConfigOk(c) && pos + 4 <= end <= |data| && i <= 3 && RepsWithin(r, c.maxDist)
             && GoodCands(c, data, pos, end, fs)
    ensures GoodCands(c, data, pos, end, RepCands(c, data, r, pos, end, i, fs))
    decreases 3 - i
  {
    hide Same, MatchAt, Common, GoodCands;
    if i < 3 {
      var d := RepAt(r, i);
      if d == 0 || d > pos {
        RepCandsGood(c, data, r, pos, end, i + 1, fs);
      } else {
        var l := Common(data, pos, pos - d, MaxLen(c, pos, end));
        GoodAtRep(c, data, pos, end, d, fs);
        var gs := if l >= 4 && |fs| < MAX_CANDS then fs + [Found(l, d)] else fs;
        RepCandsGood(c, data, r, pos, end, i + 1, gs);
      }
    }
  }

  lemma {:induction false} ChainCandsGood(c: Config, data: seq<byte>, pos: nat, end: nat, links: seq<int>, ref: int,
                                          depth: nat, fs: seq<Found>)
    requires ConfigOk(c) && links != [] && pos + 4 <= end <= |data| && GoodCands(c, data, pos, end, fs)
    ensures GoodCands(c, data, pos, end, ChainCands(c, data, pos, end, links, ref, depth, fs))
    decreases depth
  {
    hide Same, MatchAt;
    if Oldest(c, pos) <= ref < pos && depth > 0 && |fs| < MAX_CANDS {
      var next := links[ref % |links|];
      if Same(data, pos, ref, 4) {
        var f := Found(Length(data, pos, ref, 4, MaxLen(c, pos, end)), pos - ref);
        ChainCandsGood(c, data, pos, end, links, next, depth - 1, AddCand(fs, f));
      } else {
        ChainCandsGood(c, data, pos, end, links, next, depth - 1, fs);
      }
    }
  }

  lemma CollectGood(c: Config, data: seq<byte>, t: Table, r: Reps, pos: nat, end: nat)
    requires ConfigOk(c) && TableSized(t, LONG_ROOTS, c.slots) && end <= |data| && RepsWithin(r, c.maxDist)
    ensures GoodCands(c, data, pos, end, Collect(c, data, t, r, pos, end))
  {
    hide HashSafe, Good;
    if pos + 4 <= end {
      RepCandsGood(c, data, r, pos, end, 0, []);
      var fs := RepCands(c, data, r, pos, end, 0, []);
      if !EndsLong(fs) {
        ChainCandsGood(c, data, pos, end, t.links, t.roots[HashSafe(data, pos, end)], c.depth, fs);
      }
    }
  }

  /** The first of the longest candidates, from number k on. */
  function Best(fs: seq<Found>, k: nat, best: Found): (f: Found)
    requires k <= |fs|
    decreases |fs| - k
  {
    if k == |fs| then best else Best(fs, k + 1, if fs[k].len > best.len then fs[k] else best)
  }

  /** f is entry j, longer than those from k on before it. */
  predicate FirstLonger(fs: seq<Found>, k: nat, j: nat, f: Found) {
    k <= j < |fs| && f == fs[j] && forall m :: k <= m < j ==> fs[m].len < f.len
  }

  /** It is no shorter than any, and longer than those before it. */
  lemma {:induction false} BestOf(fs: seq<Found>, k: nat, best: Found)
    requires k <= |fs|
    ensures var f := Best(fs, k, best);
            (f == best || (best.len < f.len && exists j: nat :: FirstLonger(fs, k, j, f)))
            && f.len >= best.len && (forall j :: k <= j < |fs| ==> f.len >= fs[j].len)
    decreases |fs| - k
  {
    if k < |fs| {
      var next := if fs[k].len > best.len then fs[k] else best;
      BestOf(fs, k + 1, next);
      var f := Best(fs, k + 1, next);
      if f != best {
        if f == next {
          assert FirstLonger(fs, k, k, f);
        } else {
          var j: nat :| FirstLonger(fs, k + 1, j, f);
          assert FirstLonger(fs, k, j, f);
        }
      }
    }
  }

  // ---------------------------------------------------------------- nodes

  const INF: nat := 0x3FFF_FFFF
  const MAX_BLOCK: nat := 0x10_0000

  /** price, plen, poff and prep: for each position of the block its price, the last edge into it, and the recent
      offsets there. */
  datatype Nodes = Nodes(price: seq<nat>, len: seq<nat>, off: seq<nat>, reps: seq<Reps>)

  /** One call of compress_block_optimal: the block and the prices. */
  datatype Opt = Opt(b: Block, pr: Prices)

  function Span(o: Opt): (n: nat)
    requires o.b.start <= o.b.end
  {
    o.b.end - o.b.start
  }

  predicate OptOk(o: Opt) { BlockOk(o.b) && PricesOk(o.pr) && Span(o) <= MAX_BLOCK }

  predicate NodesSized(n: nat, d: Nodes) { |d.price| == |d.len| == |d.off| == |d.reps| == n + 1 }

  /** Relaxing one edge from node i. */
  function Relax(o: Opt, i: nat, e: Edge, d: Nodes): (u: Nodes)
    requires OptOk(o) && NodesSized(Span(o), d) && i < Span(o) && i + e.len <= Span(o)
    ensures NodesSized(Span(o), u)
  {
    var j := i + e.len;
    var p := d.price[i] + EdgeCost(o.pr, o.b.data, o.b.start + i, d.reps[i], e);
    if p < d.price[j] then
      Nodes(d.price[j := p], d.len[j := e.len], d.off[j := e.off], d.reps[j := RepNext(d.reps[i], e.off)])
    else d
  }

  /** The lengths tried for one candidate, downwards from l: the longest, the next, and those not much above the
      least. */
  function RelaxLens(o: Opt, i: nat, f: Found, l: nat, d: Nodes): (u: Nodes)
    requires OptOk(o) && NodesSized(Span(o), d) && i < Span(o) && l <= f.len && i + f.len <= Span(o)
    ensures NodesSized(Span(o), u)
    decreases l
  {
    if l < o.b.minMatch then d
    else
      var u := Relax(o, i, Edge(l, f.off), d);
      RelaxLens(o, i, f, if l > o.b.minMatch + 8 && l < f.len then o.b.minMatch + 8 else l - 1, u)
  }

  predicate Inside(o: Opt, i: nat, fs: seq<Found>)
    requires o.b.start <= o.b.end
  {
    forall k :: 0 <= k < |fs| ==> i + fs[k].len <= Span(o)
  }

  function RelaxAll(o: Opt, i: nat, fs: seq<Found>, k: nat, d: Nodes): (u: Nodes)
    requires OptOk(o) && NodesSized(Span(o), d) && i < Span(o) && Inside(o, i, fs) && k <= |fs|
    ensures NodesSized(Span(o), u)
    decreases |fs| - k
  {
    if k == |fs| then d else RelaxAll(o, i, fs, k + 1, RelaxLens(o, i, fs[k], fs[k].len, d))
  }

  // ---------------------------------------------------------------- what a node records

  /** An edge the source supports: a literal, or a match within the window. */
  predicate EdgeOk(o: Opt, k: nat, e: Edge)
    requires o.b.start <= o.b.end
  {
    if e.off == 0 then e.len == 1 && k < Span(o)
    else o.b.minMatch <= e.len <= o.b.c.maxMatch && e.off <= o.b.c.maxDist && k + e.len <= Span(o)
         && MatchAt(o.b.data, o.b.start + k, e.off, e.len)
  }

  /** Node j is unreached, or its price and recent offsets are those of a node below bound followed by the recorded
      edge. */
  predicate NodeOk(o: Opt, d: Nodes, bound: nat, j: nat)
    requires OptOk(o) && NodesSized(Span(o), d) && j <= Span(o)
  {
    if d.price[j] >= INF then d.price[j] == INF && d.len[j] == 0
    else
      RepsWithin(d.reps[j], o.b.c.maxDist)
      && if j == 0 then d.price[0] == 0 && d.len[0] == 0 && d.reps[0] == NO_REPS
         else
           0 < d.len[j] <= j && j - d.len[j] < bound && d.price[j - d.len[j]] < INF
           && EdgeOk(o, j - d.len[j], Edge(d.len[j], d.off[j]))
           && d.reps[j] == RepNext(d.reps[j - d.len[j]], d.off[j])
           && d.price[j] == d.price[j - d.len[j]]
                            + EdgeCost(o.pr, o.b.data, o.b.start + j - d.len[j], d.reps[j - d.len[j]],
                              Edge(d.len[j], d.off[j]))
  }

  predicate Recorded(o: Opt, d: Nodes, bound: nat)
    requires OptOk(o)
  {
    NodesSized(Span(o), d) && d.price[0] == 0 && forall j :: 0 <= j <= Span(o) ==> NodeOk(o, d, bound, j)
  }

  lemma RecordedWeaken(o: Opt, d: Nodes, bound: nat, more: nat)
    requires OptOk(o) && Recorded(o, d, bound) && bound <= more
    ensures Recorded(o, d, more)
  {
    forall j | 0 <= j <= Span(o) ensures NodeOk(o, d, more, j) {
      assert NodeOk(o, d, bound, j);
    }
  }

  /** Relaxing keeps what the nodes record, changes no node up to i, and never raises a price. */
  lemma RelaxKeeps(o: Opt, i: nat, e: Edge, d: Nodes)
    requires OptOk(o) && Recorded(o, d, i + 1) && i < Span(o) && d.price[i] < INF && EdgeOk(o, i, e) && e.len > 0
    ensures i + e.len <= Span(o) && Recorded(o, Relax(o, i, e, d), i + 1) && Lowered(d, Relax(o, i, e, d), i)
    ensures Relax(o, i, e, d).price[i + e.len] <= d.price[i] + EdgeCost(o.pr, o.b.data, o.b.start + i, d.reps[i], e)
  {
    hide EdgeCost, EdgeOk, NodeOk;
    EdgeInside(o, i, e);
    var u, bound := Relax(o, i, e, d), i + 1;
    forall k | 0 <= k <= Span(o) ensures NodeOk(o, u, bound, k) {
      assert NodeOk(o, d, bound, i) && NodeOk(o, d, bound, k);
      RelaxNode(o, i, e, d, k);
    }
  }

  lemma RelaxNode(o: Opt, i: nat, e: Edge, d: Nodes, k: nat)
    requires OptOk(o) && NodesSized(Span(o), d) && i < Span(o) && i + e.len <= Span(o) && k <= Span(o)
    requires d.price[i] < INF && EdgeOk(o, i, e) && e.len > 0 && NodeOk(o, d, i + 1, i) && NodeOk(o, d, i + 1, k)
    ensures NodeOk(o, Relax(o, i, e, d), i + 1, k)
  {
    hide EdgeCost, EdgeOk, RepNext, RepsWithin;
    EdgeInside(o, i, e);
    RepsStay(d.reps[i], e.off, o.b.c.maxDist);
  }

  lemma RepsStay(r: Reps, off: nat, n: nat)
    requires off <= n
    ensures RepsWithin(r, n) ==> RepsWithin(RepNext(r, off), n)
  {
  }

  lemma EdgeInside(o: Opt, i: nat, e: Edge)
    requires OptOk(o) && EdgeOk(o, i, e)
    ensures i + e.len <= Span(o) && e.off <= o.b.c.maxDist
  {
  }

  predicate NodesAlike(d: Nodes, u: Nodes) {
    |u.price| == |u.len| == |u.off| == |u.reps| == |d.price| == |d.len| == |d.off| == |d.reps|
  }

  /** Node j is as before, or it is reached at a lower price, from i or further on. */
  predicate NodeLowered(d: Nodes, u: Nodes, i: nat, j: nat)
    requires NodesAlike(d, u) && j < |d.price|
  {
    (u.price[j] == d.price[j] && u.len[j] == d.len[j] && u.off[j] == d.off[j] && u.reps[j] == d.reps[j])
    || (u.price[j] < d.price[j] && i < j && i <= j - u.len[j])
  }

  /** The same nodes up to i; a node that changes is reached at a lower price, and from i or further on. */
  predicate Lowered(d: Nodes, u: Nodes, i: nat) {
    NodesAlike(d, u) && forall j: nat :: j < |d.price| ==> NodeLowered(d, u, i, j)
  }

  lemma LoweredAgain(d: Nodes, u: Nodes, v: Nodes, i: nat, k: nat)
    requires Lowered(d, u, i) && Lowered(u, v, k) && i <= k
    ensures Lowered(d, v, i)
  {
    forall j: nat | j < |d.price| ensures NodeLowered(d, v, i, j) {
      assert NodeLowered(d, u, i, j) && NodeLowered(u, v, k, j);
    }
  }

  // ---------------------------------------------------------------- the forward pass

  /** Where the pass stands: its cursor, the nodes and the tables. */
  datatype Dp = Dp(i: nat, d: Nodes, tabs: Tables)

  predicate DpOk(o: Opt, s: Dp)
    requires OptOk(o)
  {
    s.i <= Span(o) && Sized(o.b.c, s.tabs) && Recorded(o, s.d, s.i)
  }

  const LITERAL := Edge(1, 0)

  /** The candidates at the cursor. */
  function Cands(o: Opt, s: Dp): (fs: seq<Found>)
    requires OptOk(o) && DpOk(o, s) && s.i < Span(o)
  {
    hide ConfigOk, NodeOk;
    var at := o.b.start + s.i;
    if at + o.b.minMatch <= o.b.end then Collect(o.b.c, o.b.data, s.tabs.long, s.d.reps[s.i], at, o.b.end) else []
  }

  lemma CandsGood(o: Opt, s: Dp)
    requires OptOk(o) && DpOk(o, s) && s.i < Span(o) && s.d.price[s.i] < INF
    ensures GoodCands(o.b.c, o.b.data, o.b.start + s.i, o.b.end, Cands(o, s)) && Inside(o, s.i, Cands(o, s))
  {
    hide Collect, Good, Recorded;
    RecordedShape(o, s.d, s.i);
    RepsKnown(o, s.d, s.i, s.i);
    CollectGood(o.b.c, o.b.data, s.tabs.long, s.d.reps[s.i], o.b.start + s.i, o.b.end);
    CandsInside(o, s.i, Cands(o, s));
  }

  lemma RepsKnown(o: Opt, d: Nodes, bound: nat, j: nat)
    requires OptOk(o) && Recorded(o, d, bound) && j <= Span(o) && d.price[j] < INF
    ensures RepsWithin(d.reps[j], o.b.c.maxDist)
  {
    assert NodeOk(o, d, bound, j);
  }

  lemma CandsInside(o: Opt, i: nat, fs: seq<Found>)
    requires OptOk(o) && i < Span(o) && GoodCands(o.b.c, o.b.data, o.b.start + i, o.b.end, fs)
    ensures Inside(o, i, fs)
  {
  }

  /** One visit of the loop: all edges from the cursor, or a single long one over the nodes it skips. */
  function DpMove(o: Opt, s: Dp): (u: Dp)
    requires OptOk(o) && DpOk(o, s) && s.i < Span(o)
    ensures s.i < u.i <= Span(o) && NodesSized(Span(o), u.d) && Sized(o.b.c, u.tabs)
  {
    var at, end := o.b.start + s.i, o.b.end;
    if s.d.price[s.i] >= INF then Dp(s.i + 1, s.d, Insert(o.b.c, o.b.data, s.tabs, at, end))
    else
      CandsGood(o, s);
      var d := Relax(o, s.i, LITERAL, s.d);
      var fs := Cands(o, s);
      var best := Best(fs, 0, NONE);
      BestOf(fs, 0, NONE);
      if best.len >= LONG then
        var t := InsertRange(o.b.c, o.b.data, s.tabs, at, at + 3, end);
        Dp(s.i + best.len, Relax(o, s.i, Edge(best.len, best.off), d),
           InsertRange(o.b.c, o.b.data, t, at + best.len - 3, at + best.len, end))
      else Dp(s.i + 1, RelaxAll(o, s.i, fs, 0, d), Insert(o.b.c, o.b.data, s.tabs, at, end))
  }

  // ---------------------------------------------------------------- what a visit achieves

  /** The lengths tried for a candidate of mlen bytes. */
  predicate Tried(minMatch: nat, mlen: nat, l: nat) {
    minMatch <= l <= mlen && (l == mlen || l + 1 == mlen || l <= minMatch + 8)
  }

  /** The price at the end of an edge from i is no more than the price at i and the edge; when it is just that, the
      node is reached from i or from further back. */
  predicate Settles(o: Opt, i: nat, e: Edge, d: Nodes)
    requires OptOk(o) && NodesSized(Span(o), d)
  {
    i < Span(o) && i + e.len <= Span(o)
    && var j, p := i + e.len, d.price[i] + EdgeCost(o.pr, o.b.data, o.b.start + i, d.reps[i], e);
       d.price[j] <= p && (d.price[j] == p < INF ==> d.len[j] >= e.len)
  }

  lemma SettlesLater(o: Opt, i: nat, e: Edge, d: Nodes, u: Nodes, k: nat)
    requires OptOk(o) && NodesSized(Span(o), d) && NodesSized(Span(o), u) && Settles(o, i, e, d) && Lowered(d, u, k)
             && i <= k
    ensures Settles(o, i, e, u)
  {
    hide EdgeCost;
    assert NodeLowered(d, u, k, i) && NodeLowered(d, u, k, i + e.len);
  }

  lemma MatchEdge(o: Opt, i: nat, f: Found, l: nat)
    requires OptOk(o) && i < Span(o) && Good(o.b.c, o.b.data, o.b.start + i, o.b.end, f) && o.b.minMatch <= l <= f.len
    ensures EdgeOk(o, i, Edge(l, f.off)) && i + f.len <= Span(o)
  {
  }

  lemma {:induction false} RelaxLensKeeps(o: Opt, i: nat, f: Found, l: nat, d: Nodes)
    requires OptOk(o) && Recorded(o, d, i + 1) && i < Span(o) && d.price[i] < INF && l <= f.len
    requires Good(o.b.c, o.b.data, o.b.start + i, o.b.end, f) && f.len > 0 && i + f.len <= Span(o)
    ensures var u := RelaxLens(o, i, f, l, d);
            Recorded(o, u, i + 1) && Lowered(d, u, i)
            && forall x: nat :: Tried(o.b.minMatch, f.len, x) && x <= l ==> Settles(o, i, Edge(x, f.off), u)
    decreases l
  {
    hide Recorded, Good, EdgeOk, EdgeCost, Relax, Lowered;
    RecordedShape(o, d, i + 1);
    if l < o.b.minMatch {
      LoweredNot(d, i);
    } else {
      MatchEdge(o, i, f, l);
      RelaxKeeps(o, i, Edge(l, f.off), d);
      var u := Relax(o, i, Edge(l, f.off), d);
      RelaxSettles(o, i, Edge(l, f.off), d);
      var next := if l > o.b.minMatch + 8 && l < f.len then o.b.minMatch + 8 else l - 1;
      PriceKept(d, u, i, i);
      RelaxLensKeeps(o, i, f, next, u);
      var v := RelaxLens(o, i, f, next, u);
      LoweredAgain(d, u, v, i, i);
      SettlesLater(o, i, Edge(l, f.off), u, v, i);
    }
  }

  lemma RecordedShape(o: Opt, d: Nodes, bound: nat)
    requires OptOk(o) && Recorded(o, d, bound)
    ensures NodesSized(Span(o), d) && d.price[0] == 0
  {
  }

  lemma LoweredNot(d: Nodes, i: nat)
    requires NodesAlike(d, d)
    ensures Lowered(d, d, i)
  {
  }

  lemma PriceKept(d: Nodes, u: Nodes, i: nat, k: nat)
    requires Lowered(d, u, i) && k <= i && k < |d.price|
    ensures |u.price| == |d.price| == |u.reps| == |d.reps| && u.price[k] == d.price[k] && u.reps[k] == d.reps[k]
  {
    assert NodeLowered(d, u, i, k);
  }

  lemma RelaxSettles(o: Opt, i: nat, e: Edge, d: Nodes)
    requires OptOk(o) && Recorded(o, d, i + 1) && i < Span(o) && i + e.len <= Span(o) && e.len > 0
    ensures Settles(o, i, e, Relax(o, i, e, d))
  {
    hide EdgeCost, EdgeOk, RepsWithin, RepNext;
    assert NodeOk(o, d, i + 1, i + e.len);
  }

  /** Every length tried of every candidate is settled. */
  ghost predicate AllSettled(o: Opt, i: nat, fs: seq<Found>, d: Nodes)
    requires OptOk(o) && NodesSized(Span(o), d)
  {
    forall k: nat, x: nat :: k < |fs| && Tried(o.b.minMatch, fs[k].len, x) ==> Settles(o, i, Edge(x, fs[k].off), d)
  }

  /** Candidate k, at a length tried, is the edge that node j records, and those listed before it cost more. */
  ghost predicate IsChoice(o: Opt, i: nat, fs: seq<Found>, d: Nodes, j: nat, k: nat)
    requires OptOk(o) && NodesSized(Span(o), d) && i < Span(o) && j <= Span(o) && k < |fs|
  {
    Tried(o.b.minMatch, fs[k].len, d.len[j]) && d.off[j] == fs[k].off
    && forall m: nat :: m < k && Tried(o.b.minMatch, fs[m].len, d.len[j]) ==>
         d.price[j] < d.price[i] + EdgeCost(o.pr, o.b.data, o.b.start + i, d.reps[i], Edge(d.len[j], fs[m].off))
  }

  ghost predicate FromChoice(o: Opt, i: nat, fs: seq<Found>, d: Nodes, j: nat)
    requires OptOk(o) && NodesSized(Span(o), d) && i < Span(o) && j <= Span(o)
  {
    (d.len[j] == 1 && d.off[j] == 0) || exists k: nat :: k < |fs| && IsChoice(o, i, fs, d, j, k)
  }

  /** Nodes reached from i record a literal, or the first of the cheapest candidates of their length. */
  ghost predicate AllChosen(o: Opt, i: nat, fs: seq<Found>, d: Nodes)
    requires OptOk(o) && NodesSized(Span(o), d) && i < Span(o)
  {
    forall j: nat :: i < j <= Span(o) && d.price[j] < INF && d.len[j] == j - i ==> FromChoice(o, i, fs, d, j)
  }

  /** A node that changes is reached by a length tried of the candidate. */
  ghost predicate NodeTried(o: Opt, i: nat, f: Found, d: Nodes, u: Nodes, j: nat)
    requires OptOk(o) && NodesSized(Span(o), d) && NodesSized(Span(o), u) && j <= Span(o)
  {
    (u.price[j] == d.price[j] && u.len[j] == d.len[j] && u.off[j] == d.off[j])
    || (u.price[j] < d.price[j] && u.len[j] == j - i && Tried(o.b.minMatch, f.len, u.len[j]) && u.off[j] == f.off)
  }

  lemma {:induction false} RelaxLensTries(o: Opt, i: nat, f: Found, l: nat, d: Nodes)
    requires OptOk(o) && NodesSized(Span(o), d) && i < Span(o) && l <= f.len && i + f.len <= Span(o)
    requires l < o.b.minMatch || Tried(o.b.minMatch, f.len, l)
    ensures var u := RelaxLens(o, i, f, l, d); forall j: nat :: j <= Span(o) ==> NodeTried(o, i, f, d, u, j)
    decreases l
  {
    hide EdgeCost, NodeTried, Relax, RelaxLens;
    LensUnfold(o, i, f, l, d);
    if l < o.b.minMatch {
      forall j: nat | j <= Span(o) ensures NodeTried(o, i, f, d, d, j) {
        NothingTried(o, i, f, d, j);
      }
    } else {
      var u := Relax(o, i, Edge(l, f.off), d);
      var next := if l > o.b.minMatch + 8 && l < f.len then o.b.minMatch + 8 else l - 1;
      NextTried(o.b.minMatch, f.len, l);
      RelaxLensTries(o, i, f, next, u);
      var v := RelaxLens(o, i, f, next, u);
      forall j: nat | j <= Span(o) ensures NodeTried(o, i, f, d, v, j) {
        OneTried(o, i, f, l, d, j);
        TriedAgain(o, i, f, d, u, v, j);
      }
    }
  }

  lemma LensUnfold(o: Opt, i: nat, f: Found, l: nat, d: Nodes)
    requires OptOk(o) && NodesSized(Span(o), d) && i < Span(o) && l <= f.len && i + f.len <= Span(o)
    ensures RelaxLens(o, i, f, l, d)
            == if l < o.b.minMatch then d
               else RelaxLens(o, i, f, if l > o.b.minMatch + 8 && l < f.len then o.b.minMatch + 8 else l - 1,
                              Relax(o, i, Edge(l, f.off), d))
  {
    hide Relax;
  }

  lemma NextTried(minMatch: nat, mlen: nat, l: nat)
    requires Tried(minMatch, mlen, l) && l > 0
    ensures var next := if l > minMatch + 8 && l < mlen then minMatch + 8 else l - 1;
            next < minMatch || Tried(minMatch, mlen, next)
  {
  }

  lemma NothingTried(o: Opt, i: nat, f: Found, d: Nodes, j: nat)
    requires OptOk(o) && NodesSized(Span(o), d) && j <= Span(o)
    ensures NodeTried(o, i, f, d, d, j)
  {
  }

  lemma OneTried(o: Opt, i: nat, f: Found, l: nat, d: Nodes, j: nat)
    requires OptOk(o) && NodesSized(Span(o), d) && i < Span(o) && i + l <= Span(o) && j <= Span(o)
    requires Tried(o.b.minMatch, f.len, l)
    ensures NodeTried(o, i, f, d, Relax(o, i, Edge(l, f.off), d), j)
  {
    hide EdgeCost;
  }

  lemma TriedAgain(o: Opt, i: nat, f: Found, d: Nodes, u: Nodes, v: Nodes, j: nat)
    requires OptOk(o) && NodesSized(Span(o), d) && NodesSized(Span(o), u) && NodesSized(Span(o), v) && j <= Span(o)
    requires NodeTried(o, i, f, d, u, j) && NodeTried(o, i, f, u, v, j)
    ensures NodeTried(o, i, f, d, v, j)
  {
    hide Tried;
  }

  /** One more candidate keeps the choices right. */
  lemma ChosenOn(o: Opt, i: nat, fs: seq<Found>, k: nat, d: Nodes, u: Nodes)
    requires OptOk(o) && NodesSized(Span(o), d) && NodesSized(Span(o), u) && i < Span(o) && k < |fs|
    requires AllSettled(o, i, fs[..k], d) && AllChosen(o, i, fs[..k], d) && Lowered(d, u, i)
    requires forall j: nat :: j <= Span(o) ==> NodeTried(o, i, fs[k], d, u, j)
    ensures AllChosen(o, i, fs[..k + 1], u)
  {
    hide EdgeCost, Tried, Settles, Lowered;
    PriceKept(d, u, i, i);
    forall j: nat | i < j <= Span(o) && u.price[j] < INF && u.len[j] == j - i
      ensures FromChoice(o, i, fs[..k + 1], u, j)
    {
      assert NodeTried(o, i, fs[k], d, u, j);
      if u.price[j] < d.price[j] {
        NewChoice(o, i, fs, k, d, u, j);
      } else {
        assert FromChoice(o, i, fs[..k], d, j);
        OldChoice(o, i, fs, k, d, u, j);
      }
    }
  }

  lemma NewChoice(o: Opt, i: nat, fs: seq<Found>, k: nat, d: Nodes, u: Nodes, j: nat)
    requires OptOk(o) && NodesSized(Span(o), d) && NodesSized(Span(o), u) && i < Span(o) && k < |fs| && i < j <= Span(o)
    requires AllSettled(o, i, fs[..k], d) && u.price[i] == d.price[i] && u.reps[i] == d.reps[i]
    requires NodeTried(o, i, fs[k], d, u, j) && u.price[j] < d.price[j] && u.len[j] == j - i
    ensures FromChoice(o, i, fs[..k + 1], u, j)
  {
    hide EdgeCost, Tried;
    var gs := fs[..k + 1];
    forall m: nat | m < k && Tried(o.b.minMatch, gs[m].len, u.len[j])
      ensures u.price[j] < u.price[i] + EdgeCost(o.pr, o.b.data, o.b.start + i, u.reps[i], Edge(u.len[j], gs[m].off))
    {
      assert fs[..k][m] == gs[m];
      assert Settles(o, i, Edge(u.len[j], fs[..k][m].off), d);
    }
    assert IsChoice(o, i, gs, u, j, k);
  }

  lemma OldChoice(o: Opt, i: nat, fs: seq<Found>, k: nat, d: Nodes, u: Nodes, j: nat)
    requires OptOk(o) && NodesSized(Span(o), d) && NodesSized(Span(o), u) && i < Span(o) && k < |fs| && j <= Span(o)
    requires u.price[i] == d.price[i] && u.reps[i] == d.reps[i]
    requires u.price[j] == d.price[j] && u.len[j] == d.len[j] && u.off[j] == d.off[j] && FromChoice(o, i, fs[..k], d, j)
    ensures FromChoice(o, i, fs[..k + 1], u, j)
  {
    hide EdgeCost, Tried;
    var gs := fs[..k + 1];
    if !(d.len[j] == 1 && d.off[j] == 0) {
      var m: nat :| m < |fs[..k]| && IsChoice(o, i, fs[..k], d, j, m);
      forall n: nat | n < m && Tried(o.b.minMatch, gs[n].len, u.len[j])
        ensures u.price[j] < u.price[i] + EdgeCost(o.pr, o.b.data, o.b.start + i, u.reps[i], Edge(u.len[j], gs[n].off))
      {
        assert gs[n] == fs[..k][n];
      }
      assert gs[m] == fs[..k][m];
      assert IsChoice(o, i, gs, u, j, m);
    }
  }

  /** What is chosen stays, as nodes further on are visited. */
  lemma ChosenLater(o: Opt, i: nat, fs: seq<Found>, best: Found, d: Nodes, u: Nodes, k: nat)
    requires OptOk(o) && NodesSized(Span(o), d) && NodesSized(Span(o), u) && i < Span(o) && Lowered(d, u, k) && i < k
    ensures AllChosen(o, i, fs, d) ==> AllChosen(o, i, fs, u)
    ensures OnlyLong(o, i, best, d) ==> OnlyLong(o, i, best, u)
  {
    hide EdgeCost, Tried, FromChoice;
    PriceKept(d, u, k, i);
    forall j: nat | i < j <= Span(o) && u.len[j] == j - i
      ensures u.price[j] == d.price[j] && u.len[j] == d.len[j] && u.off[j] == d.off[j]
      ensures FromChoice(o, i, fs, d, j) ==> FromChoice(o, i, fs, u, j)
    {
      assert NodeLowered(d, u, k, j);
      if FromChoice(o, i, fs, d, j) {
        ChoiceKept(o, i, fs, d, u, j);
      }
    }
  }

  lemma ChoiceKept(o: Opt, i: nat, fs: seq<Found>, d: Nodes, u: Nodes, j: nat)
    requires OptOk(o) && NodesSized(Span(o), d) && NodesSized(Span(o), u) && i < Span(o) && j <= Span(o)
    requires u.price[i] == d.price[i] && u.reps[i] == d.reps[i]
    requires u.price[j] == d.price[j] && u.len[j] == d.len[j] && u.off[j] == d.off[j] && FromChoice(o, i, fs, d, j)
    ensures FromChoice(o, i, fs, u, j)
  {
    hide EdgeCost, Tried;
    if !(d.len[j] == 1 && d.off[j] == 0) {
      var m: nat :| m < |fs| && IsChoice(o, i, fs, d, j, m);
      assert IsChoice(o, i, fs, u, j, m);
    }
  }

  lemma {:induction false} RelaxAllKeeps(o: Opt, i: nat, fs: seq<Found>, k: nat, d: Nodes)
    requires OptOk(o) && Recorded(o, d, i + 1) && i < Span(o) && d.price[i] < INF && k <= |fs| && Inside(o, i, fs)
    requires GoodCands(o.b.c, o.b.data, o.b.start + i, o.b.end, fs) && AllSettled(o, i, fs[..k], d)
    requires AllChosen(o, i, fs[..k], d)
    ensures var u := RelaxAll(o, i, fs, k, d);
            Recorded(o, u, i + 1) && Lowered(d, u, i) && AllSettled(o, i, fs, u) && AllChosen(o, i, fs, u)
    decreases |fs| - k
  {
    hide Recorded, Good, EdgeOk, EdgeCost, Relax, Lowered, Settles, Tried, RelaxLens, AllChosen;
    RecordedShape(o, d, i + 1);
    if k == |fs| {
      assert fs[..k] == fs;
      LoweredNot(d, i);
    } else {
      var u := RelaxLens(o, i, fs[k], fs[k].len, d);
      RelaxLensKeeps(o, i, fs[k], fs[k].len, d);
      PriceKept(d, u, i, i);
      LongestTried(o.b.minMatch, fs[k].len);
      RelaxLensTries(o, i, fs[k], fs[k].len, d);
      ChosenOn(o, i, fs, k, d, u);
      var next := k + 1;
      var gs := fs[..next];
      forall m: nat, x: nat | m < |gs| && Tried(o.b.minMatch, gs[m].len, x)
        ensures Settles(o, i, Edge(x, gs[m].off), u)
      {
        TriedInside(o.b.minMatch, fs[m].len, x);
        if m < k {
          assert fs[..k][m] == fs[m];
          SettlesLater(o, i, Edge(x, fs[m].off), d, u, i);
        }
      }
      RelaxAllKeeps(o, i, fs, k + 1, u);
      LoweredAgain(d, u, RelaxAll(o, i, fs, k + 1, u), i, i);
    }
  }

  lemma LongestTried(minMatch: nat, mlen: nat)
    ensures mlen < minMatch || Tried(minMatch, mlen, mlen)
  {
  }

  lemma TriedInside(minMatch: nat, mlen: nat, x: nat)
    requires Tried(minMatch, mlen, x)
    ensures x <= mlen
  {
  }

  // ---------------------------------------------------------------- reachability

  /** No byte of a visited path costs more than this. */
  const PER_BYTE: nat := 18

  lemma WindowLog(off: nat)
    requires off < 0x100_0000
    ensures Log2(off) < 24
  {
    assert Pow2(0) == 1;
    Pow2Eight(0);
    Pow2Eight(8);
    Pow2Eight(16);
    if Log2(off) >= 24 && off > 0 {
      Pow2Monotone(24, Log2(off));
    }
  }

  lemma LongCost(o: Opt, i: nat, r: Reps, e: Edge)
    requires OptOk(o) && i < Span(o) && EdgeOk(o, i, e) && e.off > 0 && e.len >= LONG
    ensures EdgeCost(o.pr, o.b.data, o.b.start + i, r, e) <= PER_BYTE * e.len
  {
    hide OffsetClass, MatchAt, Log2;
    WindowLog(e.off);
  }

  lemma LiteralCost(o: Opt, i: nat, r: Reps)
    requires OptOk(o) && i < Span(o)
    ensures EdgeOk(o, i, LITERAL) && EdgeCost(o.pr, o.b.data, o.b.start + i, r, LITERAL) <= PER_BYTE
  {
  }

  /** The cursor stands on a node that is reached, at no more than so much a byte. */
  predicate Affordable(o: Opt, s: Dp)
    requires OptOk(o) && DpOk(o, s)
  {
    s.d.price[s.i] <= PER_BYTE * s.i
  }

  lemma AffordableIsReached(o: Opt, s: Dp)
    requires OptOk(o) && DpOk(o, s) && Affordable(o, s)
    ensures s.d.price[s.i] < INF
  {
  }

  /** What a visit leaves for good: the literal edge settled, and the long edge or else every length tried. */
  ghost predicate Visited(o: Opt, s: Dp, final: Nodes)
    requires OptOk(o) && DpOk(o, s) && s.i < Span(o) && NodesSized(Span(o), final)
  {
    s.d.price[s.i] < INF && Settles(o, s.i, LITERAL, final)
    && var best := Best(Cands(o, s), 0, NONE);
       if best.len >= LONG then Settles(o, s.i, Edge(best.len, best.off), final) && OnlyLong(o, s.i, best, final)
         else AllSettled(o, s.i, Cands(o, s), final) && AllChosen(o, s.i, Cands(o, s), final)
  }

  /** Nodes reached from i record a literal or the one long match. */
  ghost predicate OnlyLong(o: Opt, i: nat, best: Found, d: Nodes)
    requires OptOk(o) && NodesSized(Span(o), d) && i < Span(o)
  {
    forall j: nat :: i < j <= Span(o) && d.price[j] < INF && d.len[j] == j - i ==>
      (d.len[j] == 1 && d.off[j] == 0) || (d.len[j] == best.len && d.off[j] == best.off)
  }

  /** Before a node is visited, no other is reached from it. */
  lemma NoneFrom(o: Opt, d: Nodes, i: nat, j: nat)
    requires OptOk(o) && Recorded(o, d, i) && i < j <= Span(o) && d.price[j] < INF
    ensures d.len[j] != j - i
  {
    hide EdgeOk, EdgeCost, RepsWithin, RepNext;
    assert NodeOk(o, d, i, j);
  }

  /** After the literal edge, only the next node may be. */
  lemma LiteralFrom(o: Opt, d: Nodes, i: nat)
    requires OptOk(o) && Recorded(o, d, i) && i < Span(o)
    ensures AllChosen(o, i, [], Relax(o, i, LITERAL, d)) && OnlyLong(o, i, NONE, Relax(o, i, LITERAL, d))
  {
    hide EdgeCost, RepNext, Recorded;
    RecordedShape(o, d, i);
    var u := Relax(o, i, LITERAL, d);
    forall j: nat | i < j <= Span(o) && u.price[j] < INF && u.len[j] == j - i
      ensures u.len[j] == 1 && u.off[j] == 0
    {
      if d.price[j] < INF && d.len[j] == u.len[j] && d.price[j] == u.price[j] {
        NoneFrom(o, d, i, j);
      }
    }
  }

  lemma LongFrom(o: Opt, d: Nodes, i: nat, best: Found)
    requires OptOk(o) && NodesSized(Span(o), d) && i < Span(o) && i + best.len <= Span(o) && OnlyLong(o, i, NONE, d)
    ensures OnlyLong(o, i, best, Relax(o, i, Edge(best.len, best.off), d))
  {
    hide EdgeCost, RepNext;
  }

  lemma BestGood(o: Opt, i: nat, fs: seq<Found>, best: Found)
    requires OptOk(o) && GoodCands(o.b.c, o.b.data, o.b.start + i, o.b.end, fs) && best == Best(fs, 0, NONE)
             && best.len > 0
    ensures Good(o.b.c, o.b.data, o.b.start + i, o.b.end, best)
  {
    hide Good;
    BestOf(fs, 0, NONE);
  }

  /** A visit that takes the long match. */
  lemma MoveLong(o: Opt, s: Dp, best: Found)
    requires OptOk(o) && DpOk(o, s) && s.i < Span(o) && Affordable(o, s)
    requires best == Best(Cands(o, s), 0, NONE) && best.len >= LONG
    ensures DpOk(o, DpMove(o, s)) && Affordable(o, DpMove(o, s))
    ensures Lowered(s.d, DpMove(o, s).d, s.i) && Visited(o, s, DpMove(o, s).d)
  {
    hide Good, EdgeOk, EdgeCost, Relax, Lowered, NodeOk, Settles, Insert, InsertRange, Cands, Best, Recorded;
    AffordableIsReached(o, s);
    RecordedShape(o, s.d, s.i);
    RecordedWeaken(o, s.d, s.i, s.i + 1);
    LiteralCost(o, s.i, s.d.reps[s.i]);
    RelaxKeeps(o, s.i, LITERAL, s.d);
    RelaxSettles(o, s.i, LITERAL, s.d);
    var d := Relax(o, s.i, LITERAL, s.d);
    PriceKept(s.d, d, s.i, s.i);
    CandsGood(o, s);
    BestGood(o, s.i, Cands(o, s), best);
    MatchEdge(o, s.i, best, best.len);
    assert best.off > 0;
    var e := Edge(best.len, best.off);
    LiteralFrom(o, s.d, s.i);
    LongFrom(o, d, s.i, best);
    LongCost(o, s.i, d.reps[s.i], e);
    RelaxKeeps(o, s.i, e, d);
    RelaxSettles(o, s.i, e, d);
    var u := Relax(o, s.i, e, d);
    LoweredAgain(s.d, d, u, s.i, s.i);
    SettlesLater(o, s.i, LITERAL, d, u, s.i);
    RecordedWeaken(o, u, s.i + 1, s.i + best.len);
  }

  /** A visit that relaxes every candidate. */
  lemma MoveShort(o: Opt, s: Dp)
    requires OptOk(o) && DpOk(o, s) && s.i < Span(o) && Affordable(o, s)
    requires Best(Cands(o, s), 0, NONE).len < LONG
    ensures DpOk(o, DpMove(o, s)) && Affordable(o, DpMove(o, s))
    ensures Lowered(s.d, DpMove(o, s).d, s.i) && Visited(o, s, DpMove(o, s).d)
  {
    hide Good, EdgeOk, EdgeCost, Relax, RelaxAll, Lowered, NodeOk, Settles, Insert, InsertRange, Cands, Best, Recorded,
         AllSettled, AllChosen;
    AffordableIsReached(o, s);
    RecordedShape(o, s.d, s.i);
    RecordedWeaken(o, s.d, s.i, s.i + 1);
    LiteralCost(o, s.i, s.d.reps[s.i]);
    RelaxKeeps(o, s.i, LITERAL, s.d);
    RelaxSettles(o, s.i, LITERAL, s.d);
    var d := Relax(o, s.i, LITERAL, s.d);
    PriceKept(s.d, d, s.i, s.i);
    CandsGood(o, s);
    var fs := Cands(o, s);
    assert fs[..0] == [];
    NoneSettled(o, s.i, d);
    LiteralFrom(o, s.d, s.i);
    RelaxAllKeeps(o, s.i, fs, 0, d);
    var u := RelaxAll(o, s.i, fs, 0, d);
    LoweredAgain(s.d, d, u, s.i, s.i);
    SettlesLater(o, s.i, LITERAL, d, u, s.i);
    PriceLower(d, u, s.i, s.i + 1);
  }

  lemma NoneSettled(o: Opt, i: nat, d: Nodes)
    requires OptOk(o) && NodesSized(Span(o), d)
    ensures AllSettled(o, i, [], d)
  {
  }

  lemma PriceLower(d: Nodes, u: Nodes, i: nat, k: nat)
    requires Lowered(d, u, i) && k < |d.price|
    ensures |u.price| == |d.price| && u.price[k] <= d.price[k]
  {
    assert NodeLowered(d, u, i, k);
  }

  /** Every visit starts and ends on a reached node, keeps the record and settles its edges. */
  lemma MoveKeeps(o: Opt, s: Dp)
    requires OptOk(o) && DpOk(o, s) && s.i < Span(o) && Affordable(o, s)
    ensures DpOk(o, DpMove(o, s)) && Affordable(o, DpMove(o, s))
    ensures Lowered(s.d, DpMove(o, s).d, s.i) && Visited(o, s, DpMove(o, s).d)
  {
    hide DpMove, DpOk, Affordable, Visited, Lowered, Cands, Best;
    var best := Best(Cands(o, s), 0, NONE);
    if best.len >= LONG {
      MoveLong(o, s, best);
    } else {
      MoveShort(o, s);
    }
  }
}
