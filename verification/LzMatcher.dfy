/** The matcher and its finders over mutable tables, each equal to its function in LzMatch. */
module LzMatcher {
  import opened LittleEndian
  import opened SeqCodes
  import opened LzMatch

  // ---------------------------------------------------------------- comparing bytes

  /** The first difference determines the common length. */
  lemma CommonIs(data: seq<byte>, i: nat, j: nat, max: nat, n: nat)
    requires i + max <= |data| && j + max <= |data| && n <= max
    requires Same(data, i, j, n) && (n < max ==> data[i + n] != data[j + n])
    ensures Common(data, i, j, max) == n
  {
    hide Same;
    var m := Common(data, i, j, max);
    if m < n {
      SameAt(data, i, j, n, m);
    } else if n < m {
      SameAt(data, i, j, m, n);
    }
  }

  /** What eight further bytes tell. */
  lemma EightMore(data: seq<byte>, i: nat, j: nat, len: nat, max: nat)
    requires i + max <= |data| && j + max <= |data| && len + 8 <= max && Same(data, i, j, len)
    ensures Common(data, i + len, j + len, 8) < 8 ==> Common(data, i, j, max) == len + Common(data, i + len, j + len, 8)
    ensures Common(data, i + len, j + len, 8) == 8 ==> Same(data, i, j, len + 8)
  {
    hide Common, Same;
    var k := Common(data, i + len, j + len, 8);
    SameGrows(data, i, j, len, k);
    if k < 8 {
      CommonIs(data, i, j, max, len + k);
    }
  }

  /** extend_match: eight bytes at a time, the lowest set bit of their difference telling the first that differs, then
      one by one. */
  method ExtendMatch(data: seq<byte>, i: nat, j: nat, max: nat) returns (len: nat)
    requires i + max <= |data| && j + max <= |data|
    ensures len == Common(data, i, j, max)
  {
    hide Common, Same;
    len := 0;
    SameNothing(data, i, j);
    while len + 8 <= max
      invariant len <= max && Same(data, i, j, len)
    {
      EightMore(data, i, j, len, max);
      var k := Common(data, i + len, j + len, 8);
      if k < 8 {
        return len + k;
      }
      len := len + 8;
    }
    while len < max && data[i + len] == data[j + len]
      invariant len <= max && Same(data, i, j, len)
    {
      SameOne(data, i, j, len);
      len := len + 1;
    }
    CommonIs(data, i, j, max, len);
  }

  lemma SameOne(data: seq<byte>, i: nat, j: nat, n: nat)
    requires i + n < |data| && j + n < |data| && Same(data, i, j, n) && data[i + n] == data[j + n]
    ensures Same(data, i, j, n + 1)
  {
    SameGrows(data, i, j, n, 1);
  }

  // ---------------------------------------------------------------- steps of the walks

  lemma NoneIsGood(c: Config, data: seq<byte>, pos: nat, end: nat)
    ensures Good(c, data, pos, end, NONE)
  {
  }

  lemma LengthIs(data: seq<byte>, pos: nat, ref: nat, k: nat, max: nat)
    requires ref < pos && k <= max && pos + max <= |data| && Same(data, pos, ref, k)
    ensures Length(data, pos, ref, k, max) == k + Common(data, pos + k, ref + k, max - k)
  {
  }

  /** One candidate of a walk, n bytes long when four of them agree. */
  lemma WalkStep(rule: Rule, c: Config, data: seq<byte>, pos: nat, end: nat, links: seq<int>, ref: int, depth: nat,
                 best: Found, n: nat)
    requires ConfigOk(c) && links != [] && pos + 4 <= end <= |data| && Good(c, data, pos, end, best)
    requires Oldest(c, pos) <= ref < pos && depth > 0
    requires Same(data, pos, ref, 4) ==> n == 4 + Common(data, pos + 4, ref + 4, MaxLen(c, pos, end) - 4)
    ensures Same(data, pos, ref, 4) ==> Good(c, data, pos, end, Found(n, pos - ref))
    ensures !Same(data, pos, ref, 4) || !Takes(rule, best, n, pos - ref)
            ==> Walk(rule, c, data, pos, end, links, ref, depth, best)
                == Walk(rule, c, data, pos, end, links, links[ref % |links|], depth - 1, best)
    ensures Same(data, pos, ref, 4) && Takes(rule, best, n, pos - ref)
            ==> Walk(rule, c, data, pos, end, links, ref, depth, best)
                == if n >= 256 then Found(n, pos - ref)
                   else Walk(rule, c, data, pos, end, links, links[ref % |links|], depth - 1, Found(n, pos - ref))
  {
    hide Takes, Same, Common;
    if Same(data, pos, ref, 4) {
      LengthIs(data, pos, ref, 4, MaxLen(c, pos, end));
    }
  }

  lemma WalkShortStep(c: Config, data: seq<byte>, pos: nat, end: nat, links: seq<int>, ref: int, depth: nat,
                      best: Found, n: nat)
    requires ConfigOk(c) && links != [] && pos + 3 <= end <= |data| && Good(c, data, pos, end, best)
    requires Oldest(c, pos) <= ref < pos && depth > 0
    requires Same(data, pos, ref, 3) ==> n == 3 + Common(data, pos + 3, ref + 3, MaxLen(c, pos, end) - 3)
    ensures Same(data, pos, ref, 3) ==> Good(c, data, pos, end, Found(n, pos - ref))
    ensures !Same(data, pos, ref, 3) || (n == 3 && pos - ref > 4096) || n <= best.len
            ==> WalkShort(c, data, pos, end, links, ref, depth, best)
                == WalkShort(c, data, pos, end, links, links[ref % |links|], depth - 1, best)
    ensures Same(data, pos, ref, 3) && !(n == 3 && pos - ref > 4096) && n > best.len
            ==> WalkShort(c, data, pos, end, links, ref, depth, best)
                == if n >= 8 then Found(n, pos - ref)
                   else WalkShort(c, data, pos, end, links, links[ref % |links|], depth - 1, Found(n, pos - ref))
  {
    hide Same, Common;
    if Same(data, pos, ref, 3) {
      LengthIs(data, pos, ref, 3, MaxLen(c, pos, end));
    }
  }

  /** One recent offset. */
  lemma RepStep(c: Config, data: seq<byte>, r: Reps, pos: nat, end: nat, k: nat, i: nat, d: nat)
    requires ConfigOk(c) && i < 3 && 3 <= k <= 4 && pos + k <= end <= |data| && d == RepAt(r, i)
    ensures d == 0 || pos < d || !Same(data, pos, pos - d, k)
            ==> RepFrom(c, data, r, pos, end, k, i) == RepFrom(c, data, r, pos, end, k, i + 1)
    ensures 0 < d <= pos && Same(data, pos, pos - d, k)
            ==> RepFrom(c, data, r, pos, end, k, i)
                == Found(if k == 4 then 4 + Common(data, pos + 4, pos - d + 4, MaxLen(c, pos, end) - 4) else 3, d)
  {
    hide Same, Common, Good, RepsWithin, Length;
    if 0 < d <= pos && Same(data, pos, pos - d, k) {
      LengthIs(data, pos, pos - d, k, if k == 4 then MaxLen(c, pos, end) else 3);
    }
  }

  lemma RepEnd(c: Config, data: seq<byte>, r: Reps, pos: nat, end: nat, k: nat)
    requires ConfigOk(c) && 3 <= k <= 4 && pos + k <= end <= |data|
    ensures RepFrom(c, data, r, pos, end, k, 3) == NONE
  {
  }

  lemma WalkEnd(rule: Rule, c: Config, data: seq<byte>, pos: nat, end: nat, links: seq<int>, ref: int, depth: nat,
                best: Found)
    requires ConfigOk(c) && links != [] && pos + 4 <= end <= |data| && Good(c, data, pos, end, best)
    requires !(Oldest(c, pos) <= ref < pos) || depth == 0
    ensures Walk(rule, c, data, pos, end, links, ref, depth, best) == best
  {
  }

  lemma WalkShortEnd(c: Config, data: seq<byte>, pos: nat, end: nat, links: seq<int>, ref: int, depth: nat, best: Found)
    requires ConfigOk(c) && links != [] && pos + 3 <= end <= |data| && Good(c, data, pos, end, best)
    requires !(Oldest(c, pos) <= ref < pos) || depth == 0
    ensures WalkShort(c, data, pos, end, links, ref, depth, best) == best
  {
  }

  // ---------------------------------------------------------------- one hash table

  const EMPTY16: int := 0xFFFF

  /** What a stored entry stands for: the compact tables hold 16 bits, all of them set when empty. */
  function Wide(compact: bool, v: int): (w: int) { if compact && v == EMPTY16 then -1 else v }

  function Narrow(compact: bool, pos: nat): (v: int) { if compact then pos % 0x1_0000 else pos }

  function Widen(compact: bool, s: seq<int>): (t: seq<int>)
    ensures |t| == |s| && forall i :: 0 <= i < |s| ==> t[i] == Wide(compact, s[i])
  {
    seq(|s|, i requires 0 <= i < |s| => Wide(compact, s[i]))
  }

  /** Roots and links of one hash, in 32 or 16 bits; only the first slots links are used. */
  class HashTable {
    const compact: bool
    const roots: array<int>
    const links: array<int>
    const slots: nat

    constructor (compact: bool, roots: array<int>, links: array<int>, slots: nat)
      requires slots <= links.Length
      ensures this.compact == compact && this.roots == roots && this.links == links && this.slots == slots
    {
      this.compact, this.roots, this.links, this.slots := compact, roots, links, slots;
    }

    ghost predicate Valid() { slots <= links.Length && roots != links }

    ghost function View(): (t: Table)
      requires Valid()
      reads roots, links
    {
      Table(Widen(compact, roots[..]), Widen(compact, links[..slots]))
    }

    method Root(h: nat) returns (p: int)
      requires Valid() && h < roots.Length
      ensures p == View().roots[h]
    {
      p := Wide(compact, roots[h]);
    }

    method Link(ref: nat) returns (p: int)
      requires Valid() && slots > 0
      ensures p == View().links[ref % slots]
    {
      p := Wide(compact, links[ref % slots]);
    }

    /** The two stores of matcher_insert. */
    method Add(h: nat, pos: nat)
      requires Valid() && h < roots.Length && slots > 0 && (compact ==> pos < EMPTY16)
      modifies roots, links
      ensures View() == Put(old(View()), h, pos)
    {
      ghost var t := View();
      var slot := pos % slots;
      links[slot] := roots[h];
      roots[h] := Narrow(compact, pos);
      assert View().links == t.links[slot := t.roots[h]];
      assert View().roots == t.roots[h := pos];
    }
  }

  // ---------------------------------------------------------------- the matcher

  class Matcher {
    const c: Config
    const long: HashTable
    const mid: HashTable
    const short: HashTable
    var reps: Reps

    constructor (c: Config, long: HashTable, mid: HashTable, short: HashTable)
      ensures this.c == c && this.long == long && this.mid == mid && this.short == short && reps == NO_REPS
    {
      this.c, this.long, this.mid, this.short := c, long, mid, short;
      reps := NO_REPS;
    }

    /** The arrays of the tables. */
    ghost function Repr(): set<object> {
      {long.roots, long.links, mid.roots, mid.links, short.roots, short.links}
    }

    ghost predicate Valid()
      reads Repr()
    {
      long.Valid() && mid.Valid() && short.Valid() && ConfigOk(c) && Sized(c, View())
      && long.roots !in {long.links, mid.roots, mid.links, short.roots, short.links}
      && long.links !in {mid.roots, mid.links, short.roots, short.links}
      && mid.roots !in {mid.links, short.roots, short.links}
      && mid.links !in {short.roots, short.links}
      && short.roots != short.links
    }

    ghost function View(): (t: Tables)
      requires long.Valid() && mid.Valid() && short.Valid()
      reads Repr()
    {
      Tables(long.View(), mid.View(), short.View())
    }

    /** Sixteen bits suffice where they are used. */
    predicate Indexes(end: nat) {
      long.compact || mid.compact || short.compact ==> end <= 0x1_0000
    }

    /** Every position of a source that ends at end may be stored. */
    predicate Holds(end: nat) { end <= INT32_MAX && Indexes(end) }

    /** matcher_insert. */
    method InsertAt(data: seq<byte>, pos: nat, end: nat)
      requires Valid() && end <= |data| && Holds(end)
      modifies Repr()
      ensures Valid() && View() == Insert(c, data, old(View()), pos, end)
    {
      hide HashSafe, HashMid, HashShort;
      if pos + 4 > end {
        return;
      }
      long.Add(HashSafe(data, pos, end), pos);
      if c.useHash4 {
        mid.Add(HashMid(data, pos), pos);
      }
      if c.useHash3 {
        short.Add(HashShort(data, pos), pos);
      }
    }

    /** A loop of matcher_insert_fast. */
    method InsertAll(data: seq<byte>, first: nat, stop: nat, end: nat)
      requires Valid() && end <= |data| && Holds(end)
      modifies Repr()
      ensures Valid() && View() == InsertRange(c, data, old(View()), first, stop, end)
    {
      hide Insert;
      var j := first;
      while j < stop && j + 5 <= end
        invariant Valid() && InsertRange(c, data, View(), j, stop, end)
                  == InsertRange(c, data, old(View()), first, stop, end)
        decreases stop - j
      {
        InsertAt(data, j, end);
        j := j + 1;
      }
    }

    /** try_rep_match: four equal bytes at a recent offset and whatever extends them, or else just three. */
    method TryRepMatch(data: seq<byte>, pos: nat, end: nat) returns (f: Found)
      requires Valid() && pos + 4 <= end <= |data|
      ensures f == TryRep(c, data, reps, pos, end)
    {
      hide Good, Same, Common, RepFrom, RepAt, Sized, View;
      for i := 0 to 3
        invariant RepFrom(c, data, reps, pos, end, 4, 0) == RepFrom(c, data, reps, pos, end, 4, i)
      {
        var d := RepAt(reps, i);
        RepStep(c, data, reps, pos, end, 4, i, d);
        if d != 0 && d <= pos && Same(data, pos, pos - d, 4) {
          var n := ExtendMatch(data, pos + 4, pos - d + 4, MaxLen(c, pos, end) - 4);
          return Found(4 + n, d);
        }
      }
      RepEnd(c, data, reps, pos, end, 4);
      f := NONE;
      if c.useHash3 {
        for i := 0 to 3
          invariant RepFrom(c, data, reps, pos, end, 3, 0) == RepFrom(c, data, reps, pos, end, 3, i)
        {
          var d := RepAt(reps, i);
          RepStep(c, data, reps, pos, end, 3, i, d);
          if d != 0 && d <= pos && Same(data, pos, pos - d, 3) {
            return Found(3, d);
          }
        }
        RepEnd(c, data, reps, pos, end, 3);
      }
    }

    /** A chain walk that compares four bytes. */
    method WalkChain(rule: Rule, data: seq<byte>, pos: nat, end: nat, t: HashTable, first: int, depth: nat)
      returns (f: Found)
      requires ConfigOk(c) && t.Valid() && t.slots > 0 && pos + 4 <= end <= |data|
      ensures Good(c, data, pos, end, NONE)
      ensures f == Walk(rule, c, data, pos, end, t.View().links, first, depth, NONE)
    {
      hide Good, Takes, Walk, Same, Common;
      NoneIsGood(c, data, pos, end);
      f := NONE;
      ghost var links := t.View().links;
      var ref, left := first, depth;
      while Oldest(c, pos) <= ref < pos && left > 0
        invariant Good(c, data, pos, end, f)
        invariant Walk(rule, c, data, pos, end, links, first, depth, NONE)
                  == Walk(rule, c, data, pos, end, links, ref, left, f)
        decreases left
      {
        var next := t.Link(ref);
        var n := 0;
        if Same(data, pos, ref, 4) {
          var more := ExtendMatch(data, pos + 4, ref + 4, MaxLen(c, pos, end) - 4);
          n := 4 + more;
        }
        WalkStep(rule, c, data, pos, end, links, ref, left, f, n);
        if Same(data, pos, ref, 4) && Takes(rule, f, n, pos - ref) {
          f := Found(n, pos - ref);
          if n >= 256 {
            return;
          }
        }
        ref, left := next, left - 1;
      }
      WalkEnd(rule, c, data, pos, end, links, ref, left, f);
    }

    /** The hash3 walk of chain_match_ex. */
    method WalkShortChain(data: seq<byte>, pos: nat, end: nat, best: Found) returns (f: Found)
      requires Valid() && c.useHash3 && pos + 3 <= end <= |data| && Good(c, data, pos, end, best)
      ensures f == WalkShort(c, data, pos, end, View().short.links, View().short.roots[HashShort(data, pos)], 4, best)
    {
      hide Good, WalkShort, Same, Common, HashShort;
      f := best;
      var ref := short.Root(HashShort(data, pos));
      ghost var links := View().short.links;
      ghost var first := ref;
      var left: nat := 4;
      while Oldest(c, pos) <= ref < pos && left > 0
        invariant Good(c, data, pos, end, f)
        invariant WalkShort(c, data, pos, end, links, first, 4, best)
                  == WalkShort(c, data, pos, end, links, ref, left, f)
        decreases left
      {
        var next := short.Link(ref);
        var n := 0;
        if Same(data, pos, ref, 3) {
          var more := ExtendMatch(data, pos + 3, ref + 3, MaxLen(c, pos, end) - 3);
          n := 3 + more;
        }
        WalkShortStep(c, data, pos, end, links, ref, left, f, n);
        if Same(data, pos, ref, 3) && !(n == 3 && pos - ref > 4096) && n > f.len {
          f := Found(n, pos - ref);
          if n >= 8 {
            return;
          }
        }
        ref, left := next, left - 1;
      }
      WalkShortEnd(c, data, pos, end, links, ref, left, f);
    }

    /** chain_match. */
    method ChainMatch(data: seq<byte>, pos: nat, end: nat) returns (f: Found)
      requires Valid() && end <= |data|
      ensures f == Chain(c, data, View(), pos, end)
    {
      hide Good, HashSafe, HashMid, HashShort, Walk, WalkShort;
      NoneIsGood(c, data, pos, end);
      f := NONE;
      if pos + (if c.useHash3 then 3 else 4) > end {
        return;
      }
      if pos + 4 <= end {
        f := LongMatch(data, pos, end);
      }
      if c.useHash3 && f.len < 4 {
        f := WalkShortChain(data, pos, end, f);
      }
    }

    method LongMatch(data: seq<byte>, pos: nat, end: nat) returns (f: Found)
      requires Valid() && pos + 4 <= end <= |data|
      ensures f == ChainLong(c, data, View(), pos, end)
    {
      hide Good, HashSafe, HashMid, Walk;
      var ref := long.Root(HashSafe(data, pos, end));
      f := WalkChain(Priced, data, pos, end, long, ref, c.depth);
      if c.useHash4 && f.len == 0 {
        f := NONE;
        ref := mid.Root(HashMid(data, pos));
        f := WalkChain(Priced, data, pos, end, mid, ref, 8);
      }
    }

    /** single_probe_match. */
    method ProbeMatch(data: seq<byte>, pos: nat, end: nat) returns (f: Found)
      requires Valid() && end <= |data|
      ensures f == Probe(c, data, View(), pos, end)
    {
      hide Good, HashSafe, Walk;
      if pos + 4 > end {
        return NONE;
      }
      var ref := long.Root(HashSafe(data, pos, end));
      f := WalkChain(Longest, data, pos, end, long, ref, c.depth);
    }
  }
}
