/** What the hash chains hold: every position inserted, newest first among those of its hash. */
module LzChains {
  import opened Arithmetic
  import opened LittleEndian
  import opened LzMatch
  import opened LzWalks

  /** A position inserted under a hash. */
  datatype Entry = Entry(pos: nat, hash: nat)

  /** The newest of the first k entries of hash h, or -1. */
  function NewestOf(es: seq<Entry>, k: nat, h: nat): (p: int)
    requires k <= |es|
  {
    if k == 0 then -1 else if es[k - 1].hash == h then es[k - 1].pos else NewestOf(es, k - 1, h)
  }

  predicate Ascending(es: seq<Entry>) { forall i, j :: 0 <= i < j < |es| ==> es[i].pos < es[j].pos }

  /** r is where the newest of the first k entries of hash h stands, or no position. */
  predicate IsNewest(es: seq<Entry>, k: nat, h: nat, r: int)
    requires k <= |es|
  {
    if NewestOf(es, k, h) == -1 then r < 0 else r == NewestOf(es, k, h)
  }

  /** Entry i of the chains: its slot links to the newest older one of its hash, unless it is as old as there are slots
      and so may have been overwritten. */
  predicate Linked(t: Table, es: seq<Entry>, i: nat)
    requires |t.links| > 0 && i < |es|
  {
    es[|es| - 1].pos < es[i].pos + |t.links| ==> IsNewest(es, i, es[i].hash, t.links[es[i].pos % |t.links|])
  }

  /** The table holds the entries: roots lead to the newest, and each of them to the next. */
  ghost predicate Chained(t: Table, es: seq<Entry>) {
    |t.links| > 0 && Ascending(es)
    && (forall h: nat :: h < |t.roots| ==> IsNewest(es, |es|, h, t.roots[h]))
    && forall i: nat :: i < |es| ==> Linked(t, es, i)
  }

  lemma ChainedEmpty(t: Table)
    requires |t.links| > 0 && forall h :: 0 <= h < |t.roots| ==> t.roots[h] < 0
    ensures Chained(t, [])
  {
  }

  lemma {:induction false} NewestKept(es: seq<Entry>, e: Entry, k: nat, h: nat)
    requires k <= |es|
    ensures NewestOf(es + [e], k, h) == NewestOf(es, k, h)
  {
    if k > 0 {
      NewestKept(es, e, k - 1, h);
    }
  }

  lemma OtherSlot(p: nat, q: nat, n: nat)
    requires n > 0 && p < q < p + n
    ensures p % n != q % n
  {
    if p % n == q % n {
      var a, b := p / n, q / n;
      assert p == a * n + p % n && q == b * n + q % n;
      Distribute(n, b, -a);
      if b - a >= 1 {
        MulMonotone(n, 1, b - a);
      } else {
        MulMonotone(n, b - a, 0);
      }
      assert false;
    }
  }

  /** Inserting a position adds an entry. */
  lemma PutChains(t: Table, es: seq<Entry>, h: nat, pos: nat)
    requires Chained(t, es) && h < |t.roots| && (es != [] ==> es[|es| - 1].pos < pos)
    ensures Chained(Put(t, h, pos), es + [Entry(pos, h)])
  {
    var e, u := Entry(pos, h), Put(t, h, pos);
    var fs := es + [e];
    forall x: nat | x < |u.roots| ensures IsNewest(fs, |fs|, x, u.roots[x]) {
      NewestKept(es, e, |es|, x);
      assert IsNewest(es, |es|, x, t.roots[x]);
    }
    forall i: nat | i < |fs| ensures Linked(u, fs, i) {
      if i < |es| {
        NewestKept(es, e, i, es[i].hash);
        assert Linked(t, es, i);
        if pos < es[i].pos + |t.links| {
          OtherSlot(es[i].pos, pos, |t.links|);
        }
      } else {
        NewestKept(es, e, |es|, h);
        assert IsNewest(es, |es|, h, t.roots[h]);
      }
    }
  }

  /** The newest of the first k entries of hash h from lo on, at most depth of them. */
  function Newest(es: seq<Entry>, k: nat, h: nat, lo: int, depth: nat): (ps: seq<nat>)
    requires k <= |es|
  {
    if k == 0 || depth == 0 then []
    else if es[k - 1].hash != h then Newest(es, k - 1, h, lo, depth)
    else if es[k - 1].pos < lo then []
    else [es[k - 1].pos] + Newest(es, k - 1, h, lo, depth - 1)
  }

  lemma {:induction false} VisitsNewest(c: Config, t: Table, es: seq<Entry>, k: nat, h: nat, r: int, pos: nat,
                                        depth: nat)
    requires Chained(t, es) && k <= |es| && IsNewest(es, k, h, r) && c.maxDist <= |t.links|
    requires es != [] ==> es[|es| - 1].pos < pos
    ensures Visits(c, pos, t.links, r, depth) == Newest(es, k, h, pos - c.maxDist, depth)
    decreases k
  {
    hide Chained;
    ChainedFacts(t, es);
    if k == 0 || depth == 0 {
    } else if es[k - 1].hash != h {
      VisitsNewest(c, t, es, k - 1, h, r, pos, depth);
    } else if pos - es[k - 1].pos <= c.maxDist {
      assert Linked(t, es, k - 1);
      VisitsNewest(c, t, es, k - 1, h, t.links[r % |t.links|], pos, depth - 1);
    }
  }

  lemma ChainedFacts(t: Table, es: seq<Entry>)
    requires Chained(t, es)
    ensures |t.links| > 0 && Ascending(es) && forall i: nat :: i < |es| ==> Linked(t, es, i)
  {
  }

  /** A walk comes to exactly the entries of its hash, newest first, inside the window and up to its depth. */
  lemma ChainVisits(c: Config, t: Table, es: seq<Entry>, h: nat, pos: nat, depth: nat)
    requires Chained(t, es) && h < |t.roots| && c.maxDist <= |t.links| && (es != [] ==> es[|es| - 1].pos < pos)
    ensures Visits(c, pos, t.links, t.roots[h], depth) == Newest(es, |es|, h, pos - c.maxDist, depth)
  {
    assert IsNewest(es, |es|, h, t.roots[h]);
    VisitsNewest(c, t, es, |es|, h, t.roots[h], pos, depth);
  }

  // ---------------------------------------------------------------- the three tables

  /** The entries of the three tables. */
  datatype Entries = Entries(long: seq<Entry>, mid: seq<Entry>, short: seq<Entry>)

  ghost predicate AllChained(c: Config, t: Tables, es: Entries) {
    Chained(t.long, es.long) && (c.useHash4 ==> Chained(t.mid, es.mid)) && (c.useHash3 ==> Chained(t.short, es.short))
  }

  predicate Before(es: Entries, pos: nat) {
    (es.long != [] ==> es.long[|es.long| - 1].pos < pos) && (es.mid != [] ==> es.mid[|es.mid| - 1].pos < pos)
    && (es.short != [] ==> es.short[|es.short| - 1].pos < pos)
  }

  /** One more position in all tables. */
  function Inserted(data: seq<byte>, end: nat, es: Entries, pos: nat): (fs: Entries)
    requires pos + 4 <= end <= |data|
  {
    Entries(es.long + [Entry(pos, HashSafe(data, pos, end))], es.mid + [Entry(pos, HashMid(data, pos))],
            es.short + [Entry(pos, HashShort(data, pos))])
  }

  /** An insertion adds the position to every table in use. */
  lemma InsertChains(c: Config, data: seq<byte>, t: Tables, pos: nat, end: nat, es: Entries)
    requires ConfigOk(c) && Sized(c, t) && pos + 4 <= end <= |data| && AllChained(c, t, es) && Before(es, pos)
    ensures AllChained(c, Insert(c, data, t, pos, end), Inserted(data, end, es, pos))
    ensures Before(Inserted(data, end, es, pos), pos + 1)
  {
    hide HashSafe, HashMid, HashShort, Chained, Put;
    PutChains(t.long, es.long, HashSafe(data, pos, end), pos);
    if c.useHash4 {
      PutChains(t.mid, es.mid, HashMid(data, pos), pos);
    }
    if c.useHash3 {
      PutChains(t.short, es.short, HashShort(data, pos), pos);
    }
  }

  // ---------------------------------------------------------------- what is found

  /** Entries from number i on, below k, of hash h. */
  function CountOf(es: seq<Entry>, i: nat, k: nat, h: nat): (n: nat)
    requires i <= k <= |es|
    decreases k
  {
    if i == k then 0 else CountOf(es, i, k - 1, h) + (if es[k - 1].hash == h then 1 else 0)
  }

  lemma {:induction false} NewestHas(es: seq<Entry>, k: nat, h: nat, lo: int, depth: nat, i: nat)
    requires i < k <= |es| && Ascending(es) && es[i].hash == h && es[i].pos >= lo && CountOf(es, i + 1, k, h) < depth
    ensures es[i].pos in Newest(es, k, h, lo, depth)
  {
    if k - 1 > i {
      if es[k - 1].hash == h {
        assert es[i].pos < es[k - 1].pos;
        NewestHas(es, k - 1, h, lo, depth - 1, i);
      } else {
        NewestHas(es, k - 1, h, lo, depth, i);
      }
    }
  }

  /** Five equal bytes at a position inserted, inside the window, are visited, unless as many newer positions as the
      walk is deep share their hash. */
  lemma RepeatsAreVisited(c: Config, data: seq<byte>, t: Table, es: seq<Entry>, pos: nat, end: nat, i: nat, from: nat,
                          depth: nat)
    requires Chained(t, es) && |t.roots| == LONG_ROOTS && c.maxDist <= |t.links| && i < |es| && es[|es| - 1].pos < pos
    requires pos + 5 <= end <= |data| && es[i].pos + 5 <= from <= |data|
             && es[i].hash == HashSafe(data, es[i].pos, from)
    requires data[es[i].pos..es[i].pos + 5] == data[pos..pos + 5] && pos - es[i].pos <= c.maxDist
    requires CountOf(es, i + 1, |es|, es[i].hash) < depth
    ensures es[i].pos in Visits(c, pos, t.links, t.roots[HashSafe(data, pos, end)], depth)
  {
    hide Chained, Visits;
    var q := es[i].pos;
    SameHash(data, q, pos);
    ChainedFacts(t, es);
    ChainVisits(c, t, es, HashSafe(data, pos, end), pos, depth);
    NewestHas(es, |es|, es[i].hash, pos - c.maxDist, depth, i);
  }

  lemma SameHash(data: seq<byte>, q: nat, pos: nat)
    requires q + 5 <= |data| && pos + 5 <= |data| && data[q..q + 5] == data[pos..pos + 5]
    ensures Hash5(data, q) == Hash5(data, pos)
  {
    var s, t := data[q..q + 5], data[pos..pos + 5];
    assert s[0] == t[0] && s[1] == t[1] && s[2] == t[2] && s[3] == t[3] && s[4] == t[4];
    assert Word4(data, q) == Word4(data, pos);
  }
}
