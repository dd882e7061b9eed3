/** compress_block_optimal over its arrays. */
module LzOptimalRun {
  import opened LittleEndian
  import opened SeqCodes
  import opened LzEmit
  import opened LzMatch
  import opened LzMatcher
  import opened LzParse
  import opened LzCompress
  import opened LzOptimal
  import opened LzOptimalParse

  // ---------------------------------------------------------------- candidates

  /** The longest candidates kept so far, with room for MAX_CANDS. */
  class Candidates {
    const slots: array<Found>
    var n: nat

    constructor ()
      ensures Valid() && fresh(slots) && View() == []
    {
      slots := new Found[MAX_CANDS](_ => NONE);
      n := 0;
    }

    ghost predicate Valid()
      reads this
    {
      slots.Length == MAX_CANDS && n <= MAX_CANDS
    }

    ghost function View(): (fs: seq<Found>)
      requires Valid()
      reads this, slots
    {
      slots[..n]
    }

    method Push(f: Found)
      requires Valid() && n < MAX_CANDS
      modifies this, slots
      ensures Valid() && View() == old(View()) + [f]
    {
      slots[n] := f;
      n := n + 1;
    }

    /** A candidate of the chain walk. */
    method Add(f: Found)
      requires Valid() && n < MAX_CANDS
      modifies this, slots
      ensures Valid() && View() == AddCand(old(View()), f)
    {
      var k := 0;
      while k < n && slots[k].off != f.off
        invariant k <= n && SameOffset(View(), f.off, 0) == SameOffset(View(), f.off, k)
      {
        k := k + 1;
      }
      if k == n {
        Push(f);
      } else if slots[k].len < f.len {
        slots[k] := f;
        assert View() == old(View())[k := f];
      }
    }

    /** The first of the longest. */
    method Longest() returns (f: Found)
      requires Valid()
      ensures f == Best(View(), 0, NONE)
    {
      f := NONE;
      for k := 0 to n
        invariant Best(View(), 0, NONE) == Best(View(), k, f)
      {
        if slots[k].len > f.len {
          f := slots[k];
        }
      }
    }

    /** The recent offsets in opt_collect; true when a long candidate ends the search. */
    method FromReps(c: Config, data: seq<byte>, r: Reps, pos: nat, end: nat) returns (long: bool)
      requires Valid() && n == 0 && ConfigOk(c) && pos + 4 <= end <= |data|
      modifies this, slots
      ensures Valid() && View() == RepCands(c, data, r, pos, end, 0, []) && long == EndsLong(View())
      ensures !long ==> n <= 3
    {
      hide Common, RepAt, RepCands;
      for i := 0 to 3
        invariant Valid() && n <= i && (n > 0 ==> View()[n - 1].len < LONG)
        invariant RepCands(c, data, r, pos, end, 0, []) == RepCands(c, data, r, pos, end, i, View())
      {
        ghost var before := View();
        var d := RepAt(r, i);
        var l := 0;
        if d != 0 && d <= pos {
          l := ExtendMatch(data, pos, pos - d, MaxLen(c, pos, end));
        }
        if l >= 4 {
          RepCandsHit(c, data, r, pos, end, i, before, d, l);
          Push(Found(l, d));
          if l >= LONG {
            return true;
          }
        } else {
          RepCandsSkip(c, data, r, pos, end, i, before, d);
        }
      }
      RepCandsEnd(c, data, r, pos, end, View());
      long := false;
    }

    /** The chain walk of opt_collect. */
    method FromChain(c: Config, data: seq<byte>, pos: nat, end: nat, t: HashTable, first: int)
      requires Valid() && ConfigOk(c) && t.Valid() && t.slots > 0 && pos + 4 <= end <= |data|
      modifies this, slots
      ensures Valid() && View() == ChainCands(c, data, pos, end, t.View().links, first, c.depth, old(View()))
    {
      hide Same, Common, AddCand, ChainCands;
      var ref, left := first, c.depth;
      ghost var links := t.View().links;
      ghost var before := View();
      while Oldest(c, pos) <= ref < pos && left > 0 && n < MAX_CANDS
        invariant Valid() && t.View().links == links
        invariant ChainCands(c, data, pos, end, links, first, c.depth, before)
                  == ChainCands(c, data, pos, end, links, ref, left, View())
        decreases left
      {
        var next := t.Link(ref);
        var len := 0;
        if Same(data, pos, ref, 4) {
          var more := ExtendMatch(data, pos + 4, ref + 4, MaxLen(c, pos, end) - 4);
          len := 4 + more;
        }
        ChainCandsStep(c, data, pos, end, links, ref, left, View(), len);
        if Same(data, pos, ref, 4) {
          Add(Found(len, pos - ref));
          if len >= LONG {
            return;
          }
        }
        ref, left := next, left - 1;
      }
      ChainCandsEnd(c, data, pos, end, links, ref, left, View());
    }

    /** opt_collect. */
    method Gather(m: Matcher, data: seq<byte>, r: Reps, pos: nat, end: nat)
      requires Valid() && m.Valid() && end <= |data|
      modifies this, slots
      ensures Valid() && View() == Collect(m.c, data, m.View().long, r, pos, end)
    {
      hide RepCands, ChainCands, HashSafe;
      n := 0;
      if pos + 4 > end {
        return;
      }
      var long := FromReps(m.c, data, r, pos, end);
      if !long {
        var ref := m.long.Root(HashSafe(data, pos, end));
        FromChain(m.c, data, pos, end, m.long, ref);
      }
    }
  }

  /** A recent offset that is no candidate. */
  lemma RepCandsSkip(c: Config, data: seq<byte>, r: Reps, pos: nat, end: nat, i: nat, fs: seq<Found>, d: nat)
    requires ConfigOk(c) && pos + 4 <= end <= |data| && i < 3 && d == RepAt(r, i)
    requires d == 0 || d > pos || Common(data, pos, pos - d, MaxLen(c, pos, end)) < 4
    ensures RepCands(c, data, r, pos, end, i, fs) == RepCands(c, data, r, pos, end, i + 1, fs)
  {
    hide Common, RepAt;
  }

  /** A recent offset that is one. */
  lemma RepCandsHit(c: Config, data: seq<byte>, r: Reps, pos: nat, end: nat, i: nat, fs: seq<Found>, d: nat, l: nat)
    requires ConfigOk(c) && pos + 4 <= end <= |data| && i < 3 && |fs| < MAX_CANDS && 0 < d <= pos && d == RepAt(r, i)
    requires l == Common(data, pos, pos - d, MaxLen(c, pos, end)) && l >= 4
    ensures RepCands(c, data, r, pos, end, i, fs)
            == if l >= LONG then fs + [Found(l, d)] else RepCands(c, data, r, pos, end, i + 1, fs + [Found(l, d)])
  {
    hide Common, RepAt;
  }

  lemma RepCandsEnd(c: Config, data: seq<byte>, r: Reps, pos: nat, end: nat, fs: seq<Found>)
    requires ConfigOk(c) && pos + 4 <= end <= |data|
    ensures RepCands(c, data, r, pos, end, 3, fs) == fs
  {
  }

  lemma ChainCandsStep(c: Config, data: seq<byte>, pos: nat, end: nat, links: seq<int>, ref: int, depth: nat,
                       fs: seq<Found>, len: nat)
    requires ConfigOk(c) && links != [] && pos + 4 <= end <= |data|
    requires Oldest(c, pos) <= ref < pos && depth > 0 && |fs| < MAX_CANDS
    requires Same(data, pos, ref, 4) ==> len == 4 + Common(data, pos + 4, ref + 4, MaxLen(c, pos, end) - 4)
    ensures !Same(data, pos, ref, 4)
            ==> ChainCands(c, data, pos, end, links, ref, depth, fs)
                == ChainCands(c, data, pos, end, links, links[ref % |links|], depth - 1, fs)
    ensures Same(data, pos, ref, 4)
            ==> ChainCands(c, data, pos, end, links, ref, depth, fs)
                == if len >= LONG then AddCand(fs, Found(len, pos - ref))
                   else ChainCands(c, data, pos, end, links, links[ref % |links|], depth - 1,
                     AddCand(fs, Found(len, pos - ref)))
  {
    hide Same, Common, AddCand;
    if Same(data, pos, ref, 4) {
      LengthIs(data, pos, ref, 4, MaxLen(c, pos, end));
    }
  }

  lemma ChainCandsEnd(c: Config, data: seq<byte>, pos: nat, end: nat, links: seq<int>, ref: int, depth: nat,
                      fs: seq<Found>)
    requires ConfigOk(c) && links != [] && pos + 4 <= end <= |data|
    requires !(Oldest(c, pos) <= ref < pos) || depth == 0 || |fs| >= MAX_CANDS
    ensures ChainCands(c, data, pos, end, links, ref, depth, fs) == fs
  {
  }

  // ---------------------------------------------------------------- the arrays of the program

  /** price, plen, poff and prep. */
  class Graph {
    const price: array<nat>
    const len: array<nat>
    const off: array<nat>
    const reps: array<Reps>

    constructor (n: nat)
      ensures Valid(n) && View() == Fresh(n) && fresh(price) && fresh(len) && fresh(off) && fresh(reps)
    {
      price := new nat[n + 1](k => if k == 0 then 0 else INF);
      len := new nat[n + 1](_ => 0);
      off := new nat[n + 1](_ => 0);
      reps := new Reps[n + 1](_ => NO_REPS);
    }

    ghost predicate Valid(n: nat) {
      price.Length == len.Length == off.Length == reps.Length == n + 1 && price != len && price != off && len != off
    }

    ghost function View(): (d: Nodes)
      reads price, len, off, reps
    {
      Nodes(price[..], len[..], off[..], reps[..])
    }

    /** One edge from node i. */
    method RelaxEdge(o: Opt, i: nat, e: Edge)
      requires OptOk(o) && Valid(Span(o)) && i < Span(o) && i + e.len <= Span(o)
      modifies price, len, off, reps
      ensures View() == Relax(o, i, e, old(View()))
    {
      hide EdgeCost;
      var j := i + e.len;
      var p := price[i] + EdgeCost(o.pr, o.b.data, o.b.start + i, reps[i], e);
      if p < price[j] {
        price[j], len[j], off[j], reps[j] := p, e.len, e.off, RepNext(reps[i], e.off);
      }
    }

    /** The lengths of one candidate, from the longest down. */
    method RelaxLengths(o: Opt, i: nat, f: Found)
      requires OptOk(o) && Valid(Span(o)) && i < Span(o) && i + f.len <= Span(o)
      modifies price, len, off, reps
      ensures View() == RelaxLens(o, i, f, f.len, old(View()))
    {
      hide Relax;
      var l: nat := f.len;
      while l >= o.b.minMatch
        invariant l <= f.len && RelaxLens(o, i, f, f.len, old(View())) == RelaxLens(o, i, f, l, View())
        decreases l
      {
        RelaxEdge(o, i, Edge(l, f.off));
        if l > o.b.minMatch + 8 && l < f.len {
          l := o.b.minMatch + 9;
        }
        l := l - 1;
      }
    }

    method RelaxCandidates(o: Opt, i: nat, cands: Candidates)
      requires OptOk(o) && Valid(Span(o)) && i < Span(o) && cands.Valid() && Inside(o, i, cands.View())
      modifies price, len, off, reps
      ensures View() == RelaxAll(o, i, cands.View(), 0, old(View()))
    {
      hide RelaxLens;
      ghost var fs := cands.View();
      for k := 0 to cands.n
        invariant cands.Valid() && cands.View() == fs
        invariant RelaxAll(o, i, fs, 0, old(View())) == RelaxAll(o, i, fs, k, View())
      {
        assert cands.slots[k] == fs[k];
        RelaxLengths(o, i, cands.slots[k]);
      }
    }
  }

  // ---------------------------------------------------------------- the forward pass

  /** The candidates of a visit, and the first of the longest. */
  method Choose(m: Matcher, o: Opt, cands: Candidates, r: Reps, i: nat, ghost s: Dp) returns (best: Found)
    requires OptOk(o) && DpOk(o, s) && s.i == i < Span(o) && s.d.price[i] < INF && r == s.d.reps[s.i]
    requires m.Valid() && m.c == o.b.c && cands.Valid() && s.tabs == m.View()
    modifies cands, cands.slots
    ensures cands.Valid() && cands.View() == Cands(o, s) && best == Best(Cands(o, s), 0, NONE)
  {
    hide Collect, Best, NodeOk, Sized;
    var ip := o.b.start + i;
    cands.n := 0;
    if ip + o.b.minMatch <= o.b.end {
      cands.Gather(m, o.b.data, r, ip, o.b.end);
    }
    best := cands.Longest();
  }

  /** What a visit to a reached node comes to with a long match. */
  lemma MoveIsLong(o: Opt, s: Dp, best: Found)
    requires OptOk(o) && DpOk(o, s) && s.i < Span(o) && s.d.price[s.i] < INF && best == Best(Cands(o, s), 0, NONE)
    requires best.len >= LONG
    ensures s.i + best.len <= Span(o)
    ensures DpMove(o, s) == Dp(s.i + best.len, Relax(o, s.i, Edge(best.len, best.off), Relax(o, s.i, LITERAL, s.d)),
                               InsertLong(o, s, best.len))
  {
    hide Relax, RelaxAll, Best, Cands, Insert, InsertRange, Good, NodeOk, ConfigOk;
    CandsGood(o, s);
    BestOf(Cands(o, s), 0, NONE);
  }

  /** What a visit to a reached node comes to without one. */
  lemma MoveIsShort(o: Opt, s: Dp)
    requires OptOk(o) && DpOk(o, s) && s.i < Span(o) && s.d.price[s.i] < INF && Best(Cands(o, s), 0, NONE).len < LONG
    ensures Inside(o, s.i, Cands(o, s))
    ensures DpMove(o, s) == Dp(s.i + 1, RelaxAll(o, s.i, Cands(o, s), 0, Relax(o, s.i, LITERAL, s.d)),
                               Insert(o.b.c, o.b.data, s.tabs, o.b.start + s.i, o.b.end))
  {
    hide Relax, RelaxAll, Best, Cands, Insert, InsertRange, Good, NodeOk, ConfigOk;
    CandsGood(o, s);
  }

  /** A visit to a node that is not reached. */
  lemma MovePast(o: Opt, s: Dp)
    requires OptOk(o) && DpOk(o, s) && s.i < Span(o) && s.d.price[s.i] >= INF
    ensures DpMove(o, s) == Dp(s.i + 1, s.d, Insert(o.b.c, o.b.data, s.tabs, o.b.start + s.i, o.b.end))
  {
  }

  function InsertLong(o: Opt, s: Dp, len: nat): (t: Tables)
    requires OptOk(o) && Sized(o.b.c, s.tabs) && len >= LONG
  {
    var at := o.b.start + s.i;
    InsertRange(o.b.c, o.b.data, InsertRange(o.b.c, o.b.data, s.tabs, at, at + 3, o.b.end), at + len - 3, at + len,
      o.b.end)
  }

  /** Insertion of the first and last positions of a long match. */
  method InsertEnds(m: Matcher, o: Opt, i: nat, len: nat, ghost s: Dp)
    requires OptOk(o) && m.Valid() && m.c == o.b.c && m.Holds(o.b.end) && s.i == i && s.tabs == m.View() && len >= LONG
    modifies m.Repr()
    ensures m.Valid() && Sized(o.b.c, s.tabs) && m.View() == InsertLong(o, s, len)
  {
    hide InsertRange;
    var at := o.b.start + i;
    m.InsertAll(o.b.data, at, at + 3, o.b.end);
    m.InsertAll(o.b.data, at + len - 3, at + len, o.b.end);
  }

  /** A reached node with a long match: its literal and the long edge. */
  method FollowLong(m: Matcher, o: Opt, g: Graph, best: Found, i: nat, ghost s: Dp) returns (next: nat)
    requires OptOk(o) && DpOk(o, s) && i < Span(o) && s.d.price[i] < INF
    requires m.Valid() && m.c == o.b.c && m.Holds(o.b.end) && g.Valid(Span(o))
    requires s == Dp(i, g.View(), m.View()) && g.price !in m.Repr() && g.len !in m.Repr() && g.off !in m.Repr()
    requires best == Best(Cands(o, s), 0, NONE) && best.len >= LONG
    modifies m.Repr(), g.price, g.len, g.off, g.reps
    ensures m.Valid() && DpMove(o, s) == Dp(next, g.View(), m.View())
  {
    hide Relax, Best, Cands, InsertLong, NodeOk, ConfigOk, Sized, DpMove, DpOk, Fresh, EdgeCost;
    MoveIsLong(o, s, best);
    g.RelaxEdge(o, i, LITERAL);
    g.RelaxEdge(o, i, Edge(best.len, best.off));
    InsertEnds(m, o, i, best.len, s);
    next := i + best.len;
  }

  /** A reached node without one: its literal and the lengths of every candidate. */
  method FollowShort(m: Matcher, o: Opt, g: Graph, cands: Candidates, i: nat, ghost s: Dp) returns (next: nat)
    requires OptOk(o) && DpOk(o, s) && i < Span(o) && s.d.price[i] < INF
    requires m.Valid() && m.c == o.b.c && m.Holds(o.b.end) && g.Valid(Span(o))
    requires s == Dp(i, g.View(), m.View()) && g.price !in m.Repr() && g.len !in m.Repr() && g.off !in m.Repr()
    requires cands.Valid() && cands.View() == Cands(o, s) && Best(Cands(o, s), 0, NONE).len < LONG
    modifies m.Repr(), g.price, g.len, g.off, g.reps
    ensures m.Valid() && DpMove(o, s) == Dp(next, g.View(), m.View())
  {
    hide Relax, RelaxAll, Best, Cands, Insert, NodeOk, ConfigOk, Sized, DpMove, DpOk, Fresh, EdgeCost;
    MoveIsShort(o, s);
    g.RelaxEdge(o, i, LITERAL);
    g.RelaxCandidates(o, i, cands);
    m.InsertAt(o.b.data, o.b.start + i, o.b.end);
    next := i + 1;
  }

  /** A visit to a reached node. */
  method Follow(m: Matcher, o: Opt, g: Graph, cands: Candidates, i: nat, ghost s: Dp) returns (next: nat)
    requires OptOk(o) && DpOk(o, s) && i < Span(o) && s.d.price[i] < INF
    requires m.Valid() && m.c == o.b.c && m.Holds(o.b.end) && g.Valid(Span(o)) && cands.Valid()
    requires s == Dp(i, g.View(), m.View()) && g.price !in m.Repr() && g.len !in m.Repr() && g.off !in m.Repr()
    modifies m.Repr(), g.price, g.len, g.off, g.reps, cands, cands.slots
    ensures m.Valid() && cands.Valid() && DpMove(o, s) == Dp(next, g.View(), m.View())
  {
    hide Best, Cands, NodeOk, ConfigOk, Sized, DpMove, DpOk;
    var best := Choose(m, o, cands, g.reps[i], i, s);
    if best.len >= LONG {
      next := FollowLong(m, o, g, best, i, s);
    } else {
      next := FollowShort(m, o, g, cands, i, s);
    }
  }

  /** One visit of the forward loop, from node i to the next cursor. */
  method Visit(m: Matcher, o: Opt, g: Graph, cands: Candidates, i: nat, ghost s: Dp) returns (next: nat)
    requires OptOk(o) && DpOk(o, s) && i < Span(o)
    requires m.Valid() && m.c == o.b.c && m.Holds(o.b.end) && g.Valid(Span(o)) && cands.Valid()
    requires s == Dp(i, g.View(), m.View()) && g.price !in m.Repr() && g.len !in m.Repr() && g.off !in m.Repr()
    modifies m.Repr(), g.price, g.len, g.off, g.reps, cands, cands.slots
    ensures m.Valid() && cands.Valid() && DpMove(o, s) == Dp(next, g.View(), m.View())
  {
    hide Insert, NodeOk, ConfigOk, Sized, DpMove, DpOk;
    if g.price[i] >= INF {
      MovePast(o, s);
      m.InsertAt(o.b.data, o.b.start + i, o.b.end);
      next := i + 1;
    } else {
      next := Follow(m, o, g, cands, i, s);
    }
  }

  /** The forward loop. */
  method Forward(m: Matcher, o: Opt, g: Graph, ghost t: Tables)
    requires OptOk(o) && m.Valid() && m.c == o.b.c && m.Holds(o.b.end) && g.Valid(Span(o))
    requires m.View() == t && g.View() == Fresh(Span(o))
    requires g.price !in m.Repr() && g.len !in m.Repr() && g.off !in m.Repr()
    modifies m.Repr(), g.price, g.len, g.off, g.reps
    ensures m.Valid() && g.View() == Final(o, t)
  {
    hide DpMove, DpOk, Affordable, Visited, Lowered, Sized, Fresh, ConfigOk;
    SizedView(m);
    StartOk(o, t);
    var cands := new Candidates();
    var i := 0;
    ghost var s := Start(o, t);
    while i < Span(o)
      invariant m.Valid() && cands.Valid() && fresh(cands) && fresh(cands.slots)
      invariant DpOk(o, s) && Affordable(o, s) && s == Dp(i, g.View(), m.View())
      invariant DpRun(o, s).d == Final(o, t)
      decreases Span(o) - i
    {
      MoveKeeps(o, s);
      RunStep(o, s);
      i := Visit(m, o, g, cands, i, s);
      s := DpMove(o, s);
    }
  }

  lemma SizedView(m: Matcher)
    requires m.Valid()
    ensures Sized(m.c, m.View())
  {
  }

  lemma RunStep(o: Opt, s: Dp)
    requires OptOk(o) && DpOk(o, s) && Affordable(o, s) && s.i < Span(o) && DpOk(o, DpMove(o, s))
             && Affordable(o, DpMove(o, s))
    ensures s.i < DpMove(o, s).i && DpRun(o, s) == DpRun(o, DpMove(o, s))
  {
    hide DpMove, DpOk, Affordable;
  }

  // ---------------------------------------------------------------- tracing back and emitting

  /** The edges from the last node back to the first, last edge first. */
  method Trace(g: Graph, n: nat) returns (back: array<Edge>, ns: nat)
    requires g.Valid(n) && Backward(g.View())
    ensures fresh(back) && ns <= back.Length && ns == |PathTo(g.View(), n)|
    ensures forall k :: 0 <= k < ns ==> back[k] == PathTo(g.View(), n)[ns - 1 - k]
  {
    back := new Edge[n + 1](_ => LITERAL);
    ns := 0;
    var cur: nat := n;
    ghost var d := g.View();
    ghost var path := PathTo(d, n);
    while cur > 0
      invariant cur + ns <= n && |PathTo(d, cur)| + ns == |path| && PathTo(d, cur) == path[..|path| - ns]
      invariant forall k :: 0 <= k < ns ==> back[k] == path[|path| - 1 - k]
      decreases cur
    {
      var l := g.len[cur];
      if l == 0 {
        l := 1;
      }
      back[ns] := Edge(l, g.off[cur]);
      ns, cur := ns + 1, cur - l;
    }
  }

  /** A match of the path with the literals before it, if there is room. */
  method EmitEdge(m: Matcher, b: Block, lit: nat, pos: nat, e: Edge, dst: array<byte>, at: nat)
    returns (ok: bool, op: nat)
    requires BlockOk(b) && lit <= pos <= b.end && e.len >= b.minMatch && at <= b.cap <= dst.Length
    requires dst !in m.Repr() && RepsWithin(m.reps, b.c.maxDist) && e.off <= b.c.maxDist
    modifies m`reps, dst
    ensures RepsWithin(m.reps, b.c.maxDist) && ok == (at + Needed(pos - lit, e.len) <= b.cap)
    ensures ok ==> op <= b.cap && m.reps == RepNext(old(m.reps), e.off)
    ensures ok ==> dst[..op] == old(dst[..at]) + Sequence(b.c.ob, b.minMatch, b.data[lit..pos], e.len, e.off)
  {
    hide Sequence, Needed;
    var lits := b.data[lit..pos];
    ok, op := at + Needed(|lits|, e.len) <= b.cap, at;
    if ok {
      SequenceFits(b.c.ob, b.minMatch, lits, e.len, e.off);
      op := EmitSeq(dst, at, lits, e.len, e.off, b.c.ob, b.minMatch);
      m.reps := RepNext(m.reps, e.off);
    }
  }

  /** The emission loop and the trailing literals. */
  method EmitPath(m: Matcher, o: Opt, back: array<Edge>, ns: nat, ghost path: seq<Edge>, dst: array<byte>)
    returns (n: nat)
    requires OptOk(o) && ns == |path| <= back.Length && forall k :: 0 <= k < ns ==> back[k] == path[ns - 1 - k]
    requires o.b.start + Lengths(path, 0) == o.b.end && o.b.cap <= dst.Length && dst !in m.Repr() && m.Valid()
    requires forall k :: 0 <= k < |path| && path[k].off > 0 ==> path[k].len >= o.b.minMatch
    requires RepsWithin(m.reps, o.b.c.maxDist) && forall k :: 0 <= k < |path| ==> path[k].off <= o.b.c.maxDist
    modifies m`reps, dst
    ensures RepsWithin(m.reps, o.b.c.maxDist)
    ensures Wrote(EmitFrom(o, path, 0, o.b.start, o.b.start, old(m.reps), []), n, dst[..], m.reps)
  {
    hide Sequence, Needed, NeededLast, PricesOk;
    var b := o.b;
    var pos: nat, lit: nat, op: nat, k: nat := b.start, b.start, 0, ns;
    ghost var goal := EmitFrom(o, path, 0, b.start, b.start, m.reps, []);
    while k > 0
      invariant k <= ns && lit <= pos <= b.end && pos + Lengths(path, ns - k) == b.end && op <= b.cap
      invariant goal == EmitFrom(o, path, ns - k, pos, lit, m.reps, dst[..op]) && RepsWithin(m.reps, o.b.c.maxDist)
    {
      k := k - 1;
      var e := back[k];
      assert e == path[ns - (k + 1)];
      if e.off == 0 {
        pos := pos + e.len;
      } else {
        var ok;
        ok, op := EmitEdge(m, b, lit, pos, e, dst, op);
        if !ok {
          return 0;
        }
        pos := pos + e.len;
        lit := pos;
      }
    }
    var lits := b.data[lit..b.end];
    if op + NeededLast(|lits|) > b.cap {
      return 0;
    }
    LastFits(b.c.ob, b.minMatch, lits);
    n := EmitSeq(dst, op, lits, 0, 0, b.c.ob, b.minMatch);
  }

  /** What is reported of an emission. */
  predicate Wrote(q: Emitted, n: nat, bytes: seq<byte>, r: Reps) {
    match q
    case NoTokens => n == 0
    case Emitted(out, reps) => n == |out| && 0 < n <= |bytes| && bytes[..n] == out && r == reps
  }

  /** The best path of a block, last edge first. */
  method FindPath(m: Matcher, o: Opt) returns (back: array<Edge>, ns: nat)
    requires m.Valid() && OptOk(o) && m.c == o.b.c && m.Holds(o.b.end)
    modifies m.Repr()
    ensures m.Valid() && fresh(back) && Sized(o.b.c, old(m.View())) && Backward(Final(o, old(m.View())))
    ensures ns == |PathTo(Final(o, old(m.View())), Span(o))| <= back.Length
    ensures forall k :: 0 <= k < ns ==> back[k] == PathTo(Final(o, old(m.View())), Span(o))[ns - 1 - k]
  {
    hide Final, OptOk, Sized, Fresh, ConfigOk, RunVisits, PathTo, Backward;
    SizedView(m);
    OptBounds(o);
    FinalKeeps(o, m.View());
    var g := new Graph(Span(o));
    Forward(m, o, g, m.View());
    back, ns := Trace(g, Span(o));
  }

  /** The parse of a block whose positions fit. */
  method ParseOptimal(m: Matcher, o: Opt, dst: array<byte>) returns (n: nat)
    requires m.Valid() && OptOk(o) && m.c == o.b.c && m.Holds(o.b.end) && dst !in m.Repr() && o.b.cap == dst.Length
    requires RepsWithin(m.reps, m.c.maxDist)
    modifies m`reps, m.Repr(), dst
    ensures m.Valid() && RepsWithin(m.reps, m.c.maxDist)
    ensures Sized(o.b.c, old(m.View()))
    ensures Wrote(OptimalTokens(o, old(m.View()), old(m.reps)), n, dst[..], m.reps)
  {
    hide Final, EmitFrom, PathOk, OptOk, Sized, ConfigOk, Wrote, OptimalTokens, RunVisits, Lengths, PathTo, Backward;
    OptBounds(o);
    ghost var t := m.View();
    var back, ns := FindPath(m, o);
    ghost var path := PathTo(Final(o, t), Span(o));
    BestPath(o, t, path);
    TokensAre(o, t, m.reps);
    PathOffsets(o, path);
    n := EmitPath(m, o, back, ns, path, dst);
  }

  lemma OptBounds(o: Opt)
    requires OptOk(o)
    ensures o.b.start <= o.b.end <= |o.b.data|
  {
  }

  /** compress_block_optimal after its prices are known: the tokens of the best path, or 0. */
  method CompressOptimal(m: Matcher, data: seq<byte>, start: nat, end: nat, minMatch: nat, pr: Prices, dst: array<byte>)
    returns (n: nat)
    requires m.Valid() && start <= end <= |data| && 3 <= minMatch <= 4 && m.Indexes(end) && dst !in m.Repr()
    requires PricesOk(pr) && end - start <= MAX_BLOCK && RepsWithin(m.reps, m.c.maxDist)
    modifies m`reps, m.Repr(), dst
    ensures m.Valid() && RepsWithin(m.reps, m.c.maxDist)
    ensures end > INT32_MAX ==> n == 0
    ensures end <= INT32_MAX ==>
              var o := Opt(Block(m.c, Extreme, data, start, end, minMatch, dst.Length), pr);
              Wrote(OptimalTokens(o, old(m.View()), old(m.reps)), n, dst[..], m.reps)
  {
    hide Wrote, OptimalTokens, PricesOk, Sized;
    if end > INT32_MAX {
      return 0;
    }
    n := ParseOptimal(m, Opt(Block(m.c, Extreme, data, start, end, minMatch, dst.Length), pr), dst);
  }

  lemma TokensAre(o: Opt, t: Tables, r: Reps)
    requires OptOk(o) && Sized(o.b.c, t) && Backward(Final(o, t))
             && o.b.start + Lengths(PathTo(Final(o, t), Span(o)), 0) == o.b.end
    requires forall m :: 0 <= m < |PathTo(Final(o, t), Span(o))| && PathTo(Final(o, t), Span(o))[m].off > 0
                         ==> PathTo(Final(o, t), Span(o))[m].len >= o.b.minMatch
    ensures OptimalTokens(o, t, r) == EmitFrom(o, PathTo(Final(o, t), Span(o)), 0, o.b.start, o.b.start, r, [])
  {
    hide Final, EmitFrom, PathTo, Lengths;
  }
}
