/** What zupt_lz's parser does with its input, step by step and in numbers. */
module ZuptSteps {
  import opened Bits
  import opened LittleEndian
  import opened Wrappers
  import opened LzEmit
  import opened LzMatch
  import opened ZuptLz
  import opened LongestWalk

  // ---------------------------------------------------------------- searching

  /** The positions a search comes to: the chain from ref on, at most 65535 bytes back, at most left of them. */
  function Visits(pos: nat, links: seq<int>, ref: int, left: nat): (vs: seq<nat>)
    requires links != []
    ensures forall j :: 0 <= j < |vs| ==> vs[j] < pos
    decreases left
  {
    if ref < 0 || ref >= pos || pos - ref > 65535 || left == 0 then []
    else [ref] + Visits(pos, links, links[ref % |links|], left - 1)
  }

  /** A match of 256 bytes ends the search. */
  ghost function Ends(): (stops: Stop) { (len: nat, k: nat) => len >= 256 }

  lemma Promised(data: seq<byte>, pos: nat, v: nat, best: nat)
    requires v < pos < |data| && best >= 2 && Matching(data, 65535, pos, v) > best
    ensures best < |data| - pos && data[v + best] == data[pos + best] && data[v] == data[pos]
  {
    hide Common;
    var n := Matching(data, 65535, pos, v);
    SameAt(data, pos, v, n, 0);
    SameAt(data, pos, v, n, best);
  }

  lemma {:induction false} SearchIsLongest(data: seq<byte>, pos: nat, links: seq<int>, ref: int, left: nat, k: nat,
                                           best: Found)
    requires links != [] && pos < |data| && FoundAt(data, pos, best)
    ensures Outcome(Ends(), data, 65535, pos, Visits(pos, links, ref, left), k, best,
                    Search(data, pos, links, ref, left, best))
    decreases left
  {
    hide Outcome, Common, MatchAt;
    var vs := Visits(pos, links, ref, left);
    var f := Search(data, pos, links, ref, left, best);
    if vs == [] {
      NothingVisited(Ends(), data, 65535, pos, k, best);
    } else {
      var next, n := links[ref % |links|], Matching(data, 65535, pos, ref);
      SameIsMatch(data, pos, ref, n);
      if n > best.len {
        Promised(data, pos, ref, best.len);
        if n >= 256 {
          FirstStops(Ends(), data, 65535, pos, vs, k, best, f);
        } else {
          SearchIsLongest(data, pos, links, next, left - 1, k + 1, Found(n, pos - ref));
          Taken(Ends(), data, 65535, pos, vs, k, best, f);
        }
      } else {
        SearchIsLongest(data, pos, links, next, left - 1, k + 1, best);
        Passed(Ends(), data, 65535, pos, vs, k, best, f);
      }
    }
  }

  /** lz_find_match: nothing exactly where no position visited has three bytes, or else the first of the longest, or the
      first of 256 bytes that is the longest so far. */
  lemma FindIsLongest(data: seq<byte>, t: Table, pos: nat, depth: nat)
    requires TableOk(t) && pos + 4 <= |data|
    ensures Finds(Ends(), data, 65535, pos, Visits(pos, t.links, t.roots[Hash4(data, pos)], depth), 2,
                  Find(data, t, pos, depth))
  {
    hide Matching, Search, Hash4, Visits, Outcome, Finds;
    var ref := t.roots[Hash4(data, pos)];
    SearchIsLongest(data, pos, t.links, ref, depth, 0, Found(2, 0));
    OutcomeFinds(Ends(), data, 65535, pos, Visits(pos, t.links, ref, depth), 2,
                 Search(data, pos, t.links, ref, depth, Found(2, 0)));
  }

  // ---------------------------------------------------------------- the parser

  /** All positions from first on, n of them. */
  function InsertAll(data: seq<byte>, t: Table, first: nat, n: nat): (u: Table)
    requires TableOk(t)
    ensures TableOk(u)
  {
    if n == 0 then t else InsertOne(data, InsertAll(data, t, first, n - 1), first + n - 1)
  }

  /** The match to take: the one found, or, where the next position is tried, the one there if it is longer by two bytes
      or more; the position is made by then. */
  ghost predicate Chosen(j: Job, s: Cursor, k: Pick)
    requires CursorOk(j, s)
  {
    var f := Find(j.data, s.tab, s.pos, j.depth);
    if f.len == 0 || !j.lazy || s.pos + 4 > |j.data| then k == Pick(s.pos, f, s.tab)
    else
      var t := InsertOne(j.data, s.tab, s.pos);
      var next := Find(j.data, t, s.pos + 1, j.depth);
      k == if next.len >= f.len + 2 then Pick(s.pos + 1, next, t) else Pick(s.pos, f, t)
  }

  /** One step: past a position without a match, which is inserted; or over a match, whose place was inserted or now is,
      and all other positions of which are. */
  ghost predicate Steps(j: Job, s: Cursor, k: Pick, r: Cursor)
    requires CursorOk(j, s)
  {
    if k.f.len == 0 then r == s.(pos := s.pos + 1, tab := InsertOne(j.data, s.tab, s.pos))
    else
      && k.f.len >= 3 && s.anchor <= k.pos && k.pos + k.f.len <= |j.data| && TableOk(k.tab)
      && r == Cursor(k.pos + k.f.len, k.pos + k.f.len,
                     if j.lazy then InsertAll(j.data, k.tab, k.pos + 1, k.f.len - 1)
                     else InsertAll(j.data, k.tab, k.pos, k.f.len),
                     s.out + Sequence(2, 3, j.data[s.anchor..k.pos], k.f.len, k.f.off))
  }

  /** The room reckoned for a match of len bytes behind lit literals, or for the last literals. */
  predicate Fits(j: Job, s: Cursor, lit: nat, len: nat) {
    |s.out| + lit + lit / 255 + 2 + (if len == 0 then 0 else 3 + (len - 3) / 255) <= j.cap
  }

  ghost predicate Trail(j: Job, ss: seq<Cursor>) {
    ss != [] && (forall i :: 0 <= i < |ss| ==> CursorOk(j, ss[i]))
    && forall i :: 0 <= i < |ss| - 1 ==> ss[i].pos + 3 <= |j.data| && Next(j, ss[i], ss[i + 1])
  }

  ghost predicate Next(j: Job, s: Cursor, r: Cursor)
    requires CursorOk(j, s)
  {
    exists k: Pick :: Chosen(j, s, k) && Steps(j, s, k, r) && Roomy(j, s, k)
  }

  ghost predicate Full(j: Job, s: Cursor)
    requires CursorOk(j, s)
  {
    exists k: Pick :: Chosen(j, s, k) && !Roomy(j, s, k)
  }

  predicate Roomy(j: Job, s: Cursor, k: Pick) {
    k.f.len > 0 ==> k.f.len >= 3 && s.anchor <= k.pos && Fits(j, s, k.pos - s.anchor, k.f.len)
  }

  /** What comes of the last cursor: the last literals, or nothing because they or a match do not fit. */
  ghost predicate Closes(j: Job, s: Cursor, r: Option<seq<byte>>)
    requires CursorOk(j, s)
  {
    if s.pos + 3 <= |j.data| then r == None && Full(j, s)
    else
      r == if Fits(j, s, |j.data| - s.anchor, 0) then Some(s.out + Sequence(2, 3, j.data[s.anchor..], 0, 0)) else None
  }

  lemma InsertNothing(data: seq<byte>, t: Table, pos: nat)
    requires TableOk(t) && pos + 4 > |data|
    ensures InsertOne(data, t, pos) == t
  {
  }

  lemma {:induction false} AllBefore(data: seq<byte>, t: Table, first: nat, n: nat)
    requires TableOk(t) && n > 0
    ensures InsertAll(data, t, first, n) == InsertAll(data, InsertOne(data, t, first), first + 1, n - 1)
  {
    hide InsertOne;
    if n > 1 {
      AllBefore(data, t, first, n - 1);
    } else {
      assert InsertAll(data, t, first, 0) == t;
    }
  }

  lemma {:induction false} AllPast(data: seq<byte>, t: Table, first: nat, n: nat)
    requires TableOk(t) && first + 4 > |data|
    ensures InsertAll(data, t, first, n) == t
  {
    if n > 0 {
      AllPast(data, t, first, n - 1);
      InsertNothing(data, t, first + n - 1);
    }
  }

  lemma NoneOfAll(data: seq<byte>, t: Table, first: nat)
    requires TableOk(t)
    ensures InsertAll(data, t, first, 0) == t
  {
  }

  lemma {:induction false} ToIsAll(data: seq<byte>, t: Table, first: nat, stop: nat)
    requires TableOk(t) && first <= stop
    ensures InsertTo(data, t, first, stop) == InsertAll(data, t, first, stop - first)
    decreases stop - first
  {
    hide InsertOne, InsertAll;
    if first < stop && first + 4 <= |data| {
      ToIsAll(data, InsertOne(data, t, first), first + 1, stop);
      AllBefore(data, t, first, stop - first);
    } else if first < stop {
      AllPast(data, t, first, stop - first);
    } else {
      NoneOfAll(data, t, first);
    }
  }

  lemma TakeSteps(j: Job, s: Cursor, k: Pick)
    requires CursorOk(j, s) && s.pos <= k.pos && TableOk(k.tab) && k.f.len >= MIN_MATCH && k.pos + k.f.len <= |j.data|
    ensures Steps(j, s, k, Take(j, s, k))
  {
    hide InsertOne, InsertTo, InsertAll, Sequence;
    if j.lazy {
      ToIsAll(j.data, k.tab, k.pos + 1, k.pos + k.f.len);
    } else {
      ToIsAll(j.data, InsertOne(j.data, k.tab, k.pos), k.pos + 1, k.pos + k.f.len);
      AllBefore(j.data, k.tab, k.pos, k.f.len);
    }
  }

  lemma ChooseIsChosen(j: Job, s: Cursor)
    requires CursorOk(j, s)
    ensures Chosen(j, s, Choose(j, s))
  {
    hide Search, InsertOne, MatchAt;
  }

  lemma NeedsIsRoom(j: Job, s: Cursor, k: Pick)
    requires CursorOk(j, s) && s.pos <= k.pos && k.f.len >= MIN_MATCH
    ensures Roomy(j, s, k) <==> |s.out| + Needs(k.pos - s.anchor, k.f.len - MIN_MATCH) <= j.cap
  {
  }

  /** A cursor's next one, or the end. */
  lemma OneStep(j: Job, s: Cursor) returns (r: Option<Cursor>)
    requires CursorOk(j, s) && s.pos + MIN_MATCH <= |j.data|
    ensures match r
            case Some(u) => CursorOk(j, u) && u.pos > s.pos && Next(j, s, u) && ParseFrom(j, s) == ParseFrom(j, u)
            case None => Full(j, s) && ParseFrom(j, s) == None
  {
    hide Choose, Chosen, Steps, Roomy, InsertOne, InsertTo, Needs, Take, Sequence, ParseFrom;
    var k := Choose(j, s);
    ChooseIsChosen(j, s);
    ParseStep(j, s);
    if k.f.len == 0 {
      var u := s.(pos := s.pos + 1, tab := InsertOne(j.data, s.tab, s.pos));
      PastSteps(j, s, k, u);
      r := Some(u);
    } else {
      NeedsIsRoom(j, s, k);
      r := None;
      if Roomy(j, s, k) {
        TakeSteps(j, s, k);
        r := Some(Take(j, s, k));
      }
    }
  }

  lemma LastFits(j: Job, s: Cursor)
    requires CursorOk(j, s) && s.pos + MIN_MATCH > |j.data|
    ensures Closes(j, s, ParseFrom(j, s))
  {
    hide Sequence, ParseFrom;
    ParseEnd(j, s);
  }

  /** What the parser yields is what its steps come to. */
  lemma {:induction false} ParseSteps(j: Job, s: Cursor) returns (ss: seq<Cursor>)
    requires CursorOk(j, s)
    ensures Trail(j, ss) && ss[0] == s && Closes(j, ss[|ss| - 1], ParseFrom(j, s))
    decreases |j.data| - s.pos
  {
    hide Next, Full, ParseFrom, CursorOk;
    ss := [s];
    if s.pos + MIN_MATCH > |j.data| {
      LastFits(j, s);
    } else {
      var r := OneStep(j, s);
      if r.Some? {
        var rest := ParseSteps(j, r.value);
        ss := [s] + rest;
      }
    }
  }

  lemma PastSteps(j: Job, s: Cursor, k: Pick, r: Cursor)
    requires CursorOk(j, s) && k.f.len == 0 && r == s.(pos := s.pos + 1, tab := InsertOne(j.data, s.tab, s.pos))
    ensures CursorOk(j, r) && Steps(j, s, k, r) && Roomy(j, s, k)
  {
    hide InsertOne;
  }
}
