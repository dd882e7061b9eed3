/** What zupt_lzh's parser does with its input, step by step: the longest match found, given up for longer ones. */
module LzhSteps {
  import opened Bits
  import opened LittleEndian
  import opened LzEmit
  import opened LzMatch
  import opened LzhStream
  import opened LzhParse
  import opened LongestWalk

  // ---------------------------------------------------------------- searching

  /** The positions a search comes to: the chain from ref on, inside the window, at most left of them. */
  function Visits(c: Setup, pos: nat, links: seq<int>, ref: int, left: nat): (vs: seq<nat>)
    requires links != []
    ensures |vs| <= left && forall j :: 0 <= j < |vs| ==> vs[j] < pos
    decreases left
  {
    if ref < 0 || ref >= pos || pos - ref > c.win || left == 0 then []
    else [ref] + Visits(c, pos, links, links[ref % |links|], left - 1)
  }

  /** A match that ends the search: one of 4322 bytes, or one of 512 behind the first quarter of the candidates. */
  ghost function Ends(c: Setup): (stops: Stop) {
    (len: nat, k: nat) => len == 4322 || (len >= 512 && k > c.depth / 4)
  }

  lemma Promised(data: seq<byte>, pos: nat, v: nat, best: nat)
    requires v < pos && pos + 4 <= |data| && best >= 2 && Matching(data, 4322, pos, v) > best
    ensures Promises(data, pos, v, best)
  {
    hide Common;
    var n := Matching(data, 4322, pos, v);
    SameAt(data, pos, v, n, 0);
    SameAt(data, pos, v, n, 1);
    SameAt(data, pos, v, n, best);
  }

  lemma {:induction false} SearchIsLongest(c: Setup, data: seq<byte>, pos: nat, links: seq<int>, ref: int, left: nat,
                                           best: Found)
    requires SetupOk(c) && |links| == c.win && pos + 4 <= |data| && FoundAt(c, data, pos, best) && left <= c.depth
    ensures Outcome(Ends(c), data, 4322, pos, Visits(c, pos, links, ref, left), c.depth - left, best,
                    Search(c, data, pos, links, ref, left, best))
    decreases left
  {
    hide Outcome, Matching, Promises, FoundAt, Common, Search, Ends, Enough;
    var vs, k := Visits(c, pos, links, ref, left), c.depth - left;
    var f := Search(c, data, pos, links, ref, left, best);
    if vs == [] {
      SearchEnd(c, data, pos, links, ref, left, best);
      NothingVisited(Ends(c), data, 4322, pos, k, best);
    } else {
      SearchStep(c, data, pos, links, ref, left, best);
      var next := links[ref % c.win];
      CommonIs(data, pos, ref);
      var n := Matching(data, 4322, pos, ref);
      if n > best.len {
        BestIs(c, data, pos, best);
        Promised(data, pos, ref, best.len);
        EndsIsEnough(c, n, left);
        if Ends(c)(n, k) {
          FirstStops(Ends(c), data, 4322, pos, vs, k, best, f);
        } else {
          SearchIsLongest(c, data, pos, links, next, left - 1, Found(n, pos - ref));
          Taken(Ends(c), data, 4322, pos, vs, k, best, f);
        }
      } else {
        SearchIsLongest(c, data, pos, links, next, left - 1, best);
        Passed(Ends(c), data, 4322, pos, vs, k, best, f);
      }
    }
  }

  lemma EndsIsEnough(c: Setup, n: nat, left: nat)
    requires n <= 4322 && left <= c.depth
    ensures Ends(c)(n, c.depth - left) <==> Enough(c, n, left)
  {
  }

  lemma CommonIs(data: seq<byte>, pos: nat, v: nat)
    requires v < pos <= |data|
    ensures Matching(data, 4322, pos, v) == Common(data, pos, v, Min(|data| - pos, LONGEST))
  {
  }

  lemma BestIs(c: Setup, data: seq<byte>, pos: nat, best: Found)
    requires SetupOk(c) && FoundAt(c, data, pos, best)
    ensures best.len >= 2
  {
  }

  /** find_match: nothing exactly where no position visited has as many bytes as a match must, or else the last record
      before the search ended. */
  lemma FindIsLongest(c: Setup, data: seq<byte>, t: Table, pos: nat)
    requires SetupOk(c) && TableOk(c, t) && pos + 4 <= |data|
    ensures var vs := Visits(c, pos, t.links, t.roots[Hash(data, pos)], c.depth);
            Finds(Ends(c), data, 4322, pos, vs, c.minMatch - 1, Find(c, data, t, pos))
  {
    hide Matching, Search, Hash, Visits, Outcome, Finds;
    StartsFound(c, data, pos);
    var vs := Visits(c, pos, t.links, t.roots[Hash(data, pos)], c.depth);
    SearchIsLongest(c, data, pos, t.links, t.roots[Hash(data, pos)], c.depth, Found(c.minMatch - 1, 0));
    OutcomeFinds(Ends(c), data, 4322, pos, vs, c.minMatch - 1,
                 Search(c, data, pos, t.links, t.roots[Hash(data, pos)], c.depth, Found(c.minMatch - 1, 0)));
  }

  // ---------------------------------------------------------------- giving up a match for a longer one

  /** The matches tried, each one place on and longer by two bytes or more; the position left is inserted each time. */
  ghost predicate Climbs(c: Setup, data: seq<byte>, ps: seq<Pick>)
    requires SetupOk(c)
  {
    ps != [] && (forall i :: 0 <= i < |ps| ==> TableOk(c, ps[i].tab))
    && forall i :: 0 <= i < |ps| - 1 ==> Climb(c, data, ps[i], ps[i + 1])
  }

  ghost predicate Climb(c: Setup, data: seq<byte>, p: Pick, q: Pick)
    requires SetupOk(c) && TableOk(c, p.tab) && TableOk(c, q.tab)
  {
    q.tab == InsertOne(c, data, p.tab, p.pos) && q.pos == p.pos + 1 < |data| && q.f == Find(c, data, q.tab, q.pos)
    && q.f.len >= p.f.len + 2
  }

  /** What comes of it: the last of at most three more, and of no more than the level allows; where there would be one
      more, it is not that long, though its place has been made by then. */
  ghost predicate Settled(c: Setup, data: seq<byte>, ps: seq<Pick>, allowed: nat, q: Pick)
    requires SetupOk(c) && ps != [] && TableOk(c, ps[|ps| - 1].tab)
  {
    var p := ps[|ps| - 1];
    |ps| - 1 <= allowed && q.pos == p.pos && q.f == p.f
    && if |ps| - 1 < allowed && p.pos + 1 < |data| then
         q.tab == InsertOne(c, data, p.tab, p.pos) && Find(c, data, q.tab, p.pos + 1).len < p.f.len + 2
       else q.tab == p.tab
  }

  function Allowed(c: Setup, step: nat): (n: nat) {
    if step >= 3 || step >= c.lazy then 0 else (if c.lazy < 3 then c.lazy else 3) - step
  }

  lemma {:induction false} SettleClimbs(c: Setup, data: seq<byte>, step: nat, p: Pick) returns (ps: seq<Pick>)
    requires SetupOk(c) && PickOk(c, data, p)
    ensures Climbs(c, data, ps) && ps[0] == p && Settled(c, data, ps, Allowed(c, step), Settle(c, data, step, p))
    decreases 3 - step
  {
    hide Find, InsertOne, MatchAt, Climb;
    ps := [p];
    SettleStep(c, data, step, p);
    if step < 3 && step < c.lazy && p.pos + 1 < |data| {
      var t := InsertOne(c, data, p.tab, p.pos);
      var f := Find(c, data, t, p.pos + 1);
      if f.len > p.f.len + 1 {
        var q := Pick(p.pos + 1, f, t);
        var rest := SettleClimbs(c, data, step + 1, q);
        OneClimb(c, data, p, q);
        ps := [p] + rest;
      }
    }
  }

  lemma OneClimb(c: Setup, data: seq<byte>, p: Pick, q: Pick)
    requires SetupOk(c) && TableOk(c, p.tab) && p.pos + 1 < |data| && q.tab == InsertOne(c, data, p.tab, p.pos)
    requires q.pos == p.pos + 1 && q.f == Find(c, data, q.tab, q.pos) && q.f.len > p.f.len + 1
    ensures Climb(c, data, p, q)
  {
  }

  // ---------------------------------------------------------------- insertion

  function InsertAll(c: Setup, data: seq<byte>, t: Table, first: nat, n: nat): (u: Table)
    requires SetupOk(c) && TableOk(c, t)
    ensures TableOk(c, u)
  {
    if n == 0 then t else InsertOne(c, data, InsertAll(c, data, t, first, n - 1), first + n - 1)
  }

  lemma InsertNothing(c: Setup, data: seq<byte>, t: Table, pos: nat)
    requires SetupOk(c) && TableOk(c, t) && pos + 4 > |data|
    ensures InsertOne(c, data, t, pos) == t
  {
  }

  lemma {:induction false} AllBefore(c: Setup, data: seq<byte>, t: Table, first: nat, n: nat)
    requires SetupOk(c) && TableOk(c, t) && n > 0
    ensures InsertAll(c, data, t, first, n) == InsertAll(c, data, InsertOne(c, data, t, first), first + 1, n - 1)
  {
    hide InsertOne;
    if n > 1 {
      AllBefore(c, data, t, first, n - 1);
    } else {
      assert InsertAll(c, data, t, first, 0) == t;
    }
  }

  lemma {:induction false} AllPast(c: Setup, data: seq<byte>, t: Table, first: nat, n: nat)
    requires SetupOk(c) && TableOk(c, t) && first + 4 > |data|
    ensures InsertAll(c, data, t, first, n) == t
  {
    if n > 0 {
      AllPast(c, data, t, first, n - 1);
      InsertNothing(c, data, t, first + n - 1);
    }
  }

  lemma {:induction false} ToIsAll(c: Setup, data: seq<byte>, t: Table, first: nat, stop: nat)
    requires SetupOk(c) && TableOk(c, t) && first <= stop
    ensures InsertTo(c, data, t, first, stop) == InsertAll(c, data, t, first, stop - first)
    decreases stop - first
  {
    hide InsertOne, InsertAll;
    if first < stop && first + 4 <= |data| {
      ToIsAll(c, data, InsertOne(c, data, t, first), first + 1, stop);
      AllBefore(c, data, t, first, stop - first);
    } else if first < stop {
      AllPast(c, data, t, first, stop - first);
    } else {
      NoneOfAll(c, data, t, first);
    }
  }

  lemma NoneOfAll(c: Setup, data: seq<byte>, t: Table, first: nat)
    requires SetupOk(c) && TableOk(c, t)
    ensures InsertAll(c, data, t, first, 0) == t
  {
  }

  // ---------------------------------------------------------------- the parser

  /** Where the parser stands. */
  datatype Stage = Stage(pos: nat, tab: Table, out: seq<Sym>)

  /** A literal, where nothing is found; or the literals before the match settled on, and it. Its place is inserted at
      the lowest level, and all others in it at every level. */
  ghost predicate Steps(c: Setup, data: seq<byte>, s: Stage, r: Stage)
    requires SetupOk(c) && TableOk(c, s.tab) && s.pos < |data|
  {
    var f := Find(c, data, s.tab, s.pos);
    if f.len == 0 then
      r == Stage(s.pos + 1, InsertOne(c, data, s.tab, s.pos), s.out + [Lit(data[s.pos])])
    else exists ps: seq<Pick>, q: Pick :: Takes(c, data, s, f, ps, q, r)
  }

  ghost predicate Takes(c: Setup, data: seq<byte>, s: Stage, f: Found, ps: seq<Pick>, q: Pick, r: Stage)
    requires SetupOk(c) && TableOk(c, s.tab) && s.pos < |data|
  {
    && Climbs(c, data, ps) && ps[0] == Pick(s.pos, f, s.tab)
    && Settled(c, data, ps, if c.lazy < 3 then c.lazy else 3, q)
    && s.pos <= q.pos < |data| && TableOk(c, q.tab) && q.f.len > 0
    && r.pos == q.pos + q.f.len
    && r.tab == (if c.lazy == 0 then InsertAll(c, data, q.tab, q.pos, q.f.len)
                 else InsertAll(c, data, q.tab, q.pos + 1, q.f.len - 1))
    && |r.out| == |s.out| + (q.pos - s.pos) + 1 && s.out <= r.out
    && (forall i :: s.pos <= i < q.pos ==> r.out[|s.out| + (i - s.pos)] == Lit(data[i]))
    && r.out[|r.out| - 1] == Copy(q.f.len, q.f.off)
  }

  ghost predicate Trail(c: Setup, data: seq<byte>, ss: seq<Stage>)
    requires SetupOk(c)
  {
    ss != [] && (forall i :: 0 <= i < |ss| ==> TableOk(c, ss[i].tab))
    && forall i :: 0 <= i < |ss| - 1 ==> ss[i].pos < |data| && Steps(c, data, ss[i], ss[i + 1])
  }

  lemma AfterIsAll(c: Setup, data: seq<byte>, q: Pick)
    requires SetupOk(c) && TableOk(c, q.tab) && q.f.len > 0
    ensures After(c, data, q) == if c.lazy == 0 then InsertAll(c, data, q.tab, q.pos, q.f.len)
                                 else InsertAll(c, data, q.tab, q.pos + 1, q.f.len - 1)
  {
    hide InsertOne, InsertTo, InsertAll;
    if c.lazy == 0 {
      ToIsAll(c, data, InsertOne(c, data, q.tab, q.pos), q.pos + 1, q.pos + q.f.len);
      AllBefore(c, data, q.tab, q.pos, q.f.len);
    } else {
      ToIsAll(c, data, q.tab, q.pos + 1, q.pos + q.f.len);
    }
  }

  lemma TakesMatch(c: Setup, data: seq<byte>, s: Stage, f: Found, q: Pick) returns (r: Stage)
    requires SetupOk(c) && TableOk(c, s.tab) && s.pos < |data| && PickOk(c, data, Pick(s.pos, f, s.tab))
    requires q == Settle(c, data, 0, Pick(s.pos, f, s.tab)) && s.pos <= q.pos < |data|
    ensures r == Stage(q.pos + q.f.len, After(c, data, q),
                       s.out + (Lits(data, s.pos, q.pos) + [Copy(q.f.len, q.f.off)]))
    ensures TableOk(c, r.tab) && r.pos > s.pos && exists ps: seq<Pick> :: Takes(c, data, s, f, ps, q, r)
  {
    hide Find, InsertOne, InsertTo, InsertAll, Settle, Climbs, Settled, MatchAt;
    var ps := SettleClimbs(c, data, 0, Pick(s.pos, f, s.tab));
    AfterIsAll(c, data, q);
    r := Stage(q.pos + q.f.len, After(c, data, q), s.out + (Lits(data, s.pos, q.pos) + [Copy(q.f.len, q.f.off)]));
    assert Takes(c, data, s, f, ps, q, r);
  }

  /** The symbols of the parser are those its steps come to. */
  lemma {:induction false} ParseSteps(c: Setup, data: seq<byte>, s: Stage) returns (ss: seq<Stage>)
    requires SetupOk(c) && TableOk(c, s.tab)
    ensures Trail(c, data, ss) && ss[0] == s && ss[|ss| - 1].pos >= |data|
    ensures ss[|ss| - 1].out == s.out + Parse(c, data, s.tab, s.pos)
    decreases |data| - s.pos
  {
    hide Find, Settle, InsertOne, InsertTo, After, Parse, Lits, TableOk, Steps;
    ss := [s];
    if s.pos >= |data| {
      ParseEnd(c, data, s.tab, s.pos);
    } else {
      var r := OneStep(c, data, s);
      var rest := ParseSteps(c, data, r);
      ss := [s] + rest;
    }
  }

  lemma OneStep(c: Setup, data: seq<byte>, s: Stage) returns (r: Stage)
    requires SetupOk(c) && TableOk(c, s.tab) && s.pos < |data|
    ensures TableOk(c, r.tab) && s.pos < r.pos && Steps(c, data, s, r)
    ensures s.out + Parse(c, data, s.tab, s.pos) == r.out + Parse(c, data, r.tab, r.pos)
  {
    hide Find, Settle, InsertOne, InsertTo, After, Parse, Lits, TableOk, Takes, PickOk, SetupOk;
    ParseStep(c, data, s.tab, s.pos, s.out);
    var f := Find(c, data, s.tab, s.pos);
    if f.len == 0 {
      r := Stage(s.pos + 1, InsertOne(c, data, s.tab, s.pos), s.out + [Lit(data[s.pos])]);
    } else {
      r := TakesMatch(c, data, s, f, Settle(c, data, 0, Pick(s.pos, f, s.tab)));
    }
  }
}
