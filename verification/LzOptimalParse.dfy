/** The whole optimal parse: what the final nodes record, the path traced back, and its tokens. */
module LzOptimalParse {
  import opened LittleEndian
  import opened SeqCodes
  import opened Lz
  import opened LzEmit
  import opened LzMatch
  import opened LzParse
  import opened LzOptimal

  // ---------------------------------------------------------------- the run

  /** The visits from s on. */
  function DpRun(o: Opt, s: Dp): (u: Dp)
    requires OptOk(o) && DpOk(o, s) && Affordable(o, s)
    ensures NodesSized(Span(o), u.d)
    decreases Span(o) - s.i
  {
    if s.i >= Span(o) then s
    else
      MoveKeeps(o, s);
      DpRun(o, DpMove(o, s))
  }

  /** Every visit of the run is on a reached node and its edges are settled in the end. */
  ghost predicate RunVisits(o: Opt, s: Dp, final: Nodes)
    requires OptOk(o) && DpOk(o, s) && Affordable(o, s) && NodesSized(Span(o), final)
    decreases Span(o) - s.i
  {
    s.i < Span(o) ==>
      Visited(o, s, final)
      && (MoveKeeps(o, s);
          RunVisits(o, DpMove(o, s), final))
  }

  lemma VisitedLater(o: Opt, s: Dp, d: Nodes, u: Nodes, k: nat)
    requires OptOk(o) && DpOk(o, s) && s.i < Span(o) && NodesSized(Span(o), d) && NodesSized(Span(o), u)
    requires Visited(o, s, d) && Lowered(d, u, k) && s.i < k
    ensures Visited(o, s, u)
  {
    hide Cands, Best, Lowered, Settles, AllChosen, OnlyLong;
    var fs := Cands(o, s);
    var best := Best(fs, 0, NONE);
    ChosenLater(o, s.i, fs, best, d, u, k);
    SettlesLater(o, s.i, LITERAL, d, u, k);
    if best.len >= LONG {
      SettlesLater(o, s.i, Edge(best.len, best.off), d, u, k);
    } else {
      forall m: nat, x: nat | m < |fs| && Tried(o.b.minMatch, fs[m].len, x)
        ensures Settles(o, s.i, Edge(x, fs[m].off), u)
      {
        SettlesLater(o, s.i, Edge(x, fs[m].off), d, u, k);
      }
    }
  }

  /** The run ends on the last node, which is reached, with everything recorded and settled. */
  lemma {:induction false} RunKeeps(o: Opt, s: Dp)
    requires OptOk(o) && DpOk(o, s) && Affordable(o, s)
    ensures var u := DpRun(o, s);
            u.i == Span(o) && DpOk(o, u) && Affordable(o, u) && Lowered(s.d, u.d, s.i) && RunVisits(o, s, u.d)
    decreases Span(o) - s.i
  {
    hide DpMove, DpOk, Affordable, Visited, Lowered;
    Standing(o, s);
    if s.i < Span(o) {
      MoveKeeps(o, s);
      var v := DpMove(o, s);
      RunKeeps(o, v);
      var u := DpRun(o, s);
      LoweredAgain(s.d, v.d, u.d, s.i, v.i);
      VisitedLater(o, s, v.d, u.d, v.i);
    } else {
      LoweredNot(s.d, s.i);
    }
  }

  lemma Standing(o: Opt, s: Dp)
    requires OptOk(o) && DpOk(o, s)
    ensures s.i <= Span(o) && NodesSized(Span(o), s.d)
  {
  }

  /** Only the start is reached, at no cost and with no recent offset. */
  function Fresh(n: nat): (d: Nodes)
    ensures NodesSized(n, d)
  {
    Nodes(seq(n + 1, k => if k == 0 then 0 else INF), seq(n + 1, k => 0), seq(n + 1, k => 0), seq(n + 1, k => NO_REPS))
  }

  function Start(o: Opt, t: Tables): (s: Dp)
    requires OptOk(o)
  {
    Dp(0, Fresh(Span(o)), t)
  }

  lemma StartOk(o: Opt, t: Tables)
    requires OptOk(o) && Sized(o.b.c, t)
    ensures DpOk(o, Start(o, t)) && Affordable(o, Start(o, t))
  {
    var d := Start(o, t).d;
    forall j | 0 <= j <= Span(o) ensures NodeOk(o, d, 0, j) {
    }
  }

  // ---------------------------------------------------------------- paths

  /** Where a path from the start ends. */
  function EndOf(path: seq<Edge>): (n: nat) {
    if path == [] then 0 else EndOf(path[..|path| - 1]) + path[|path| - 1].len
  }

  /** The recent offsets after a path, by the rule of the wire. */
  function RepsOf(path: seq<Edge>): (r: Reps) {
    if path == [] then NO_REPS else RepNext(RepsOf(path[..|path| - 1]), path[|path| - 1].off)
  }

  /** Edges the source supports, one after the other. */
  predicate PathOk(o: Opt, path: seq<Edge>)
    requires o.b.start <= o.b.end
  {
    path == [] || (PathOk(o, path[..|path| - 1]) && EdgeOk(o, EndOf(path[..|path| - 1]), path[|path| - 1]))
  }

  /** The price of a path in the model: each edge after the recent offsets of those before it. */
  function PathCost(o: Opt, path: seq<Edge>): (n: nat)
    requires OptOk(o) && PathOk(o, path)
  {
    if path == [] then 0
    else
      var rest, e := path[..|path| - 1], path[|path| - 1];
      assert EndOf(rest) < Span(o) && 0 < e.len && EndOf(rest) + e.len <= Span(o);
      PathCost(o, rest) + EdgeCost(o.pr, o.b.data, o.b.start + EndOf(rest), RepsOf(rest), e)
  }

  /** Recorded edges lead strictly back. */
  predicate Backward(d: Nodes) { |d.off| == |d.len| && forall j :: 0 <= j < |d.len| ==> d.len[j] <= j }

  /** The path to node j traced back along the recorded edges; an unset length would count as a literal. */
  function PathTo(d: Nodes, j: nat): (path: seq<Edge>)
    requires Backward(d) && j < |d.len|
    decreases j
  {
    if j == 0 then []
    else
      var l := if d.len[j] == 0 then 1 else d.len[j];
      PathTo(d, j - l) + [Edge(l, d.off[j])]
  }

  lemma RecordedBack(o: Opt, d: Nodes, bound: nat)
    requires OptOk(o) && Recorded(o, d, bound)
    ensures Backward(d)
  {
    forall j | 0 <= j < |d.len| ensures d.len[j] <= j {
      assert NodeOk(o, d, bound, j);
    }
  }

  /** The price of a reached node is exactly the cost of the path recorded for it, and its recent offsets those of
      replaying it. */
  lemma {:induction false} PathExact(o: Opt, d: Nodes, bound: nat, j: nat)
    requires OptOk(o) && Recorded(o, d, bound) && Backward(d) && j <= Span(o) && d.price[j] < INF
    ensures var path := PathTo(d, j);
            EndOf(path) == j && PathOk(o, path) && d.price[j] == PathCost(o, path) && d.reps[j] == RepsOf(path)
    decreases j
  {
    hide EdgeCost, EdgeOk, RepNext, RepsWithin;
    assert NodeOk(o, d, bound, j);
    if j > 0 {
      var k := j - d.len[j];
      PathExact(o, d, bound, k);
      var path := PathTo(d, j);
      assert path[..|path| - 1] == PathTo(d, k);
    }
  }

  // ---------------------------------------------------------------- tokens

  /** The result of a parse without its tables. */
  datatype Emitted = NoTokens | Emitted(out: seq<byte>, reps: Reps)

  /** The emission loop from edge k on: literals pile up until the next match. */
  function EmitFrom(o: Opt, path: seq<Edge>, k: nat, pos: nat, lit: nat, r: Reps, out: seq<byte>): (q: Emitted)
    requires OptOk(o) && k <= |path| && lit <= pos <= o.b.end
    requires forall m :: k <= m < |path| && path[m].off > 0 ==> path[m].len >= o.b.minMatch
    requires pos + Lengths(path, k) == o.b.end
    decreases |path| - k
  {
    if k == |path| then
      var lits := o.b.data[lit..o.b.end];
      if |out| + NeededLast(|lits|) > o.b.cap then NoTokens
      else Emitted(out + Sequence(o.b.c.ob, o.b.minMatch, lits, 0, 0), r)
    else
      var e := path[k];
      if e.off == 0 then EmitFrom(o, path, k + 1, pos + e.len, lit, r, out)
      else
        var lits := o.b.data[lit..pos];
        if |out| + Needed(|lits|, e.len) > o.b.cap then NoTokens
        else
          EmitFrom(o, path, k + 1, pos + e.len, pos + e.len, RepNext(r, e.off),
                   out + Sequence(o.b.c.ob, o.b.minMatch, lits, e.len, e.off))
  }

  /** The bytes covered from edge k on. */
  function Lengths(path: seq<Edge>, k: nat): (n: nat)
    requires k <= |path|
    decreases |path| - k
  {
    if k == |path| then 0 else path[k].len + Lengths(path, k + 1)
  }

  lemma {:induction false} LengthsOf(path: seq<Edge>, k: nat)
    requires k <= |path|
    ensures EndOf(path[..k]) + Lengths(path, k) == EndOf(path)
    decreases |path| - k
  {
    if k == |path| {
      assert path[..k] == path;
    } else {
      LengthsOf(path, k + 1);
      assert path[..k + 1][..k] == path[..k];
    }
  }

  lemma {:induction false} PathPrefix(o: Opt, path: seq<Edge>, k: nat)
    requires OptOk(o) && PathOk(o, path) && k <= |path|
    ensures PathOk(o, path[..k]) && (k < |path| ==> EdgeOk(o, EndOf(path[..k]), path[k]))
    decreases |path| - k
  {
    hide EdgeOk;
    if k == |path| {
      assert path[..k] == path;
    } else {
      PathPrefix(o, path, k + 1);
      var p := path[..k + 1];
      assert p[..|p| - 1] == path[..k] && p[|p| - 1] == path[k];
    }
  }

  lemma PathMatches(o: Opt, path: seq<Edge>)
    requires OptOk(o) && PathOk(o, path)
    ensures forall m :: 0 <= m < |path| && path[m].off > 0 ==> path[m].len >= o.b.minMatch
  {
    hide PathOk;
    forall m | 0 <= m < |path| && path[m].off > 0 ensures path[m].len >= o.b.minMatch {
      PathPrefix(o, path, m);
    }
  }

  lemma PathOffsets(o: Opt, path: seq<Edge>)
    requires OptOk(o) && PathOk(o, path)
    ensures forall m :: 0 <= m < |path| ==> path[m].off <= o.b.c.maxDist
  {
    hide PathOk;
    forall m | 0 <= m < |path| ensures path[m].off <= o.b.c.maxDist {
      PathPrefix(o, path, m);
    }
  }

  /** Emitting a path the source supports gives tokens that decode to the block. */
  lemma {:induction false} EmitDecodes(o: Opt, path: seq<Edge>, k: nat, pos: nat, lit: nat, r: Reps, out: seq<byte>)
    requires OptOk(o) && PathOk(o, path) && EndOf(path) == Span(o) && k <= |path| && RepsWithin(r, o.b.c.maxDist)
    requires pos == o.b.start + EndOf(path[..k]) && lit <= pos <= o.b.end && pos + Lengths(path, k) == o.b.end
    requires forall m :: k <= m < |path| && path[m].off > 0 ==> path[m].len >= o.b.minMatch
    requires Leads(ParamsOf(o.b), out, o.b.data[..o.b.start], o.b.data[..lit])
    ensures var q := EmitFrom(o, path, k, pos, lit, r, out);
            q.Emitted? ==> Decode(ParamsOf(o.b), q.out, o.b.data[..o.b.start]) == Done(o.b.data[..o.b.end])
                           && 0 < |q.out| <= o.b.cap && RepsWithin(q.reps, o.b.c.maxDist)
    decreases |path| - k
  {
    hide Leads, Decode, Sequence, MatchAt, Needed, NeededLast, PathOk;
    if k == |path| {
      LeadsHome(ParamsOf(o.b), out, o.b.data[..o.b.start], o.b.data, lit, o.b.end);
      LastFits(o.b.c.ob, o.b.minMatch, o.b.data[lit..o.b.end]);
    } else {
      var e := path[k];
      PathPrefix(o, path, k);
      assert path[..k + 1][..k] == path[..k];
      if e.off == 0 {
        EmitDecodes(o, path, k + 1, pos + e.len, lit, r, out);
      } else if |out| + Needed(pos - lit, e.len) <= o.b.cap {
        LeadsOn(ParamsOf(o.b), out, o.b.data[..o.b.start], o.b.data, lit, pos, e.len, e.off);
        EmitDecodes(o, path, k + 1, pos + e.len, pos + e.len, RepNext(r, e.off),
                    out + Sequence(o.b.c.ob, o.b.minMatch, o.b.data[lit..pos], e.len, e.off));
      }
    }
  }

  // ---------------------------------------------------------------- the parse

  /** The final nodes of the forward pass. */
  function Final(o: Opt, t: Tables): (d: Nodes)
    requires OptOk(o) && Sized(o.b.c, t)
    ensures NodesSized(Span(o), d)
  {
    StartOk(o, t);
    DpRun(o, Start(o, t)).d
  }

  /** The final nodes: all recorded, the end reached, every visit settled. */
  lemma FinalKeeps(o: Opt, t: Tables)
    requires OptOk(o) && Sized(o.b.c, t)
    ensures var d := Final(o, t);
            Recorded(o, d, Span(o)) && Backward(d) && d.price[Span(o)] < INF
            && DpOk(o, Start(o, t)) && Affordable(o, Start(o, t)) && RunVisits(o, Start(o, t), d)
  {
    hide Recorded, Lowered;
    StartOk(o, t);
    RunKeeps(o, Start(o, t));
    RecordedBack(o, Final(o, t), Span(o));
  }

  /** The path of the best parse tiles the block, and its price and recent offsets are exactly those of the last
      node. */
  lemma BestPath(o: Opt, t: Tables, path: seq<Edge>)
    requires OptOk(o) && Sized(o.b.c, t) && Backward(Final(o, t)) && path == PathTo(Final(o, t), Span(o))
    ensures PathOk(o, path) && EndOf(path) == Span(o)
    ensures Final(o, t).price[Span(o)] == PathCost(o, path) && Final(o, t).reps[Span(o)] == RepsOf(path)
    ensures Lengths(path, 0) == Span(o)
    ensures forall m :: 0 <= m < |path| && path[m].off > 0 ==> path[m].len >= o.b.minMatch
  {
    hide Recorded, Final, RunVisits, DpOk, Affordable, PathOk;
    FinalKeeps(o, t);
    PathExact(o, Final(o, t), Span(o), Span(o));
    LengthsOf(path, 0);
    assert path[..0] == [];
    PathMatches(o, path);
  }

  /** compress_block_optimal: the tokens of the best path, starting from the recent offsets r of the matcher. */
  function OptimalTokens(o: Opt, t: Tables, r: Reps): (q: Emitted)
    requires OptOk(o) && Sized(o.b.c, t)
  {
    FinalKeeps(o, t);
    var path := PathTo(Final(o, t), Span(o));
    BestPath(o, t, path);
    EmitFrom(o, path, 0, o.b.start, o.b.start, r, [])
  }

  /** Whatever the tables and the prices, the tokens decode, after the bytes before the block, to exactly the block. */
  lemma OptimalDecodes(o: Opt, t: Tables, r: Reps)
    requires OptOk(o) && Sized(o.b.c, t) && RepsWithin(r, o.b.c.maxDist)
    ensures var q := OptimalTokens(o, t, r);
            q.Emitted? ==> Decode(ParamsOf(o.b), q.out, o.b.data[..o.b.start]) == Done(o.b.data[..o.b.end])
                           && 0 < |q.out| <= o.b.cap && RepsWithin(q.reps, o.b.c.maxDist)
  {
    hide Decode, EmitFrom, Final, PathOk;
    FinalKeeps(o, t);
    var path := PathTo(Final(o, t), Span(o));
    BestPath(o, t, path);
    LeadsNowhere(ParamsOf(o.b), o.b.data[..o.b.start]);
    assert path[..0] == [];
    EmitDecodes(o, path, 0, o.b.start, o.b.start, r, []);
  }
}
