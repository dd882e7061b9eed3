/** The match finders of the encoder as functions of their hash tables, whatever the tables hold. */
module LzMatch {
  import opened Arithmetic
  import opened Bits
  import opened LittleEndian
  import opened SeqCodes
  import opened LzEmit

  // ---------------------------------------------------------------- hashes

  /** Bits of a product above its low ones: (x mod d * keep) / d is below keep. */
  function TopBits(x: nat, d: nat, keep: nat): (h: nat)
    requires d > 0 && keep > 0
    ensures h < keep
  {
    QuotientBound(x % (d * keep), d, keep);
    x % (d * keep) / d
  }

  const LONG_ROOTS: nat := 0x4_0000
  const MID_ROOTS: nat := 0x1_0000
  const SHORT_ROOTS: nat := 0x4000

  function Word4(data: seq<byte>, pos: nat): (w: word)
    requires pos + 4 <= |data|
  {
    Word(data[pos], data[pos + 1], data[pos + 2], data[pos + 3])
  }

  function Hash5(data: seq<byte>, pos: nat): (h: nat)
    requires pos + 5 <= |data|
    ensures h < LONG_ROOTS
  {
    TopBits((Word4(data, pos) + 0x1_0000_0000 * (data[pos + 4] as int)) * 889523592379, 0x4000_0000_0000, LONG_ROOTS)
  }

  function Hash4(data: seq<byte>, pos: nat): (h: nat)
    requires pos + 4 <= |data|
    ensures h < LONG_ROOTS
  {
    TopBits(Word4(data, pos) * 2654435761, 0x4000, LONG_ROOTS)
  }

  /** hash_safe: five bytes, or four when only four remain. */
  function HashSafe(data: seq<byte>, pos: nat, end: nat): (h: nat)
    requires pos + 4 <= end <= |data|
    ensures h < LONG_ROOTS
  {
    if pos + 5 <= end then Hash5(data, pos) else Hash4(data, pos)
  }

  function HashMid(data: seq<byte>, pos: nat): (h: nat)
    requires pos + 4 <= |data|
    ensures h < MID_ROOTS
  {
    TopBits(Word4(data, pos) * 2654435761, 0x1_0000, MID_ROOTS)
  }

  function HashShort(data: seq<byte>, pos: nat): (h: nat)
    requires pos + 3 <= |data|
    ensures h < SHORT_ROOTS
  {
    TopBits(Word(data[pos], data[pos + 1], data[pos + 2], 0) * 2654435761, 0x4_0000, SHORT_ROOTS)
  }

  // ---------------------------------------------------------------- tables

  /** The newest position of each hash, and for each slot the position before it; -1 or anything else ends a chain. */
  datatype Table = Table(roots: seq<int>, links: seq<int>)

  datatype Tables = Tables(long: Table, mid: Table, short: Table)

  datatype Config = Config(maxDist: nat, ob: nat, slots: nat, depth: nat, maxMatch: nat,
                           useHash4: bool, useHash3: bool, singleProbe: bool, accel: nat, noRep: bool)

  /** effective_accel allows no more. */
  const MAX_ACCEL: nat := 64

  /** Positions and lengths of the encoder are kept in 32 bits with a sign. */
  const INT32_MAX: nat := 0x7FFF_FFFF

  predicate ConfigOk(c: Config) {
    c.slots > 0 && c.maxMatch >= 4 && (c.ob == 2 || c.ob == 3) && c.maxDist < OffsetLimit(c.ob) && c.accel <= MAX_ACCEL
  }

  predicate TableSized(t: Table, roots: nat, slots: nat) { |t.roots| == roots && |t.links| == slots }

  predicate Sized(c: Config, t: Tables) {
    TableSized(t.long, LONG_ROOTS, c.slots)
    && (c.useHash4 ==> TableSized(t.mid, MID_ROOTS, c.slots))
    && (c.useHash3 ==> TableSized(t.short, SHORT_ROOTS, c.slots))
  }

  /** A position becomes the root of its hash and links to the former root. */
  function Put(t: Table, h: nat, pos: nat): (u: Table)
    requires h < |t.roots| && |t.links| > 0
    ensures TableSized(u, |t.roots|, |t.links|)
  {
    Table(t.roots[h := pos], t.links[pos % |t.links| := t.roots[h]])
  }

  /** matcher_insert; matcher_insert_fast is the case of at least five bytes. */
  function Insert(c: Config, data: seq<byte>, t: Tables, pos: nat, end: nat): (u: Tables)
    requires ConfigOk(c) && Sized(c, t) && end <= |data|
    ensures Sized(c, u)
  {
    if pos + 4 > end then t
    else
      Tables(Put(t.long, HashSafe(data, pos, end), pos),
             if c.useHash4 then Put(t.mid, HashMid(data, pos), pos) else t.mid,
             if c.useHash3 then Put(t.short, HashShort(data, pos), pos) else t.short)
  }

  /** The bulk loops after a match: positions from first on, below stop and at least five before the end. */
  function InsertRange(c: Config, data: seq<byte>, t: Tables, first: nat, stop: nat, end: nat): (u: Tables)
    requires ConfigOk(c) && Sized(c, t) && end <= |data|
    ensures Sized(c, u)
    decreases stop - first
  {
    if first < stop && first + 5 <= end then
      InsertRange(c, data, Insert(c, data, t, first, end), first + 1, stop, end)
    else t
  }

  // ---------------------------------------------------------------- candidates

  predicate Same(data: seq<byte>, i: nat, j: nat, n: nat)
    requires i + n <= |data| && j + n <= |data|
  {
    data[i..i + n] == data[j..j + n]
  }

  /** Equal bytes from i and j on, at most max. */
  function Common(data: seq<byte>, i: nat, j: nat, max: nat): (n: nat)
    requires i + max <= |data| && j + max <= |data|
    ensures n <= max && Same(data, i, j, n) && (n < max ==> data[i + n] != data[j + n])
    decreases max
  {
    hide Same;
    if max == 0 || data[i] != data[j] then SameNothing(data, i, j); 0
    else
      var n := Common(data, i + 1, j + 1, max - 1);
      SameFirst(data, i, j, n);
      1 + n
  }

  lemma SameNothing(data: seq<byte>, i: nat, j: nat)
    requires i <= |data| && j <= |data|
    ensures Same(data, i, j, 0)
  {
  }

  lemma SameFirst(data: seq<byte>, i: nat, j: nat, n: nat)
    requires i + n < |data| && j + n < |data| && data[i] == data[j] && Same(data, i + 1, j + 1, n)
    ensures Same(data, i, j, n + 1)
  {
    assert data[i..i + n + 1] == [data[i]] + data[i + 1..i + 1 + n];
    assert data[j..j + n + 1] == [data[j]] + data[j + 1..j + 1 + n];
  }

  lemma SameGrows(data: seq<byte>, i: nat, j: nat, m: nat, n: nat)
    requires i + m + n <= |data| && j + m + n <= |data| && Same(data, i, j, m) && Same(data, i + m, j + m, n)
    ensures Same(data, i, j, m + n)
  {
    assert data[i..i + (m + n)] == data[i..i + m] + data[i + m..i + m + n];
    assert data[j..j + (m + n)] == data[j..j + m] + data[j + m..j + m + n];
  }

  lemma SameAt(data: seq<byte>, i: nat, j: nat, n: nat, k: nat)
    requires i + n <= |data| && j + n <= |data| && Same(data, i, j, n) && k < n
    ensures data[i + k] == data[j + k]
  {
    assert data[i..i + n][k] == data[j..j + n][k];
  }

  /** A match; length 0 is no match. */
  datatype Found = Found(len: nat, off: nat)

  const NONE := Found(0, 0)

  /** What every finder promises, whatever the tables hold. */
  predicate Good(c: Config, data: seq<byte>, pos: nat, end: nat, f: Found) {
    f.len == 0
    || (f.len >= 3 && f.off <= c.maxDist && f.len <= c.maxMatch && pos + f.len <= end
       && MatchAt(data, pos, f.off, f.len))
  }

  lemma SameIsMatch(data: seq<byte>, pos: nat, ref: nat, n: nat)
    requires ref < pos && pos + n <= |data| && Same(data, pos, ref, n)
    ensures MatchAt(data, pos, pos - ref, n)
  {
    forall i | pos <= i < pos + n ensures data[i] == data[i - (pos - ref)] {
      SameAt(data, pos, ref, n, i - pos);
    }
  }

  /** At most this many bytes may match at pos. */
  function MaxLen(c: Config, pos: nat, end: nat): (m: nat)
    requires pos <= end
  {
    Min(end - pos, c.maxMatch)
  }

  /** The k bytes already compared and those that extend them. */
  function Length(data: seq<byte>, pos: nat, ref: nat, k: nat, max: nat): (n: nat)
    requires ref < pos && k <= max && pos + max <= |data| && Same(data, pos, ref, k)
    ensures k <= n <= max && MatchAt(data, pos, pos - ref, n)
  {
    hide Same, MatchAt;
    var n := Common(data, pos + k, ref + k, max - k);
    SameGrows(data, pos, ref, k, n);
    SameIsMatch(data, pos, ref, k + n);
    k + n
  }

  // ---------------------------------------------------------------- chain walks

  /** How a walk ranks candidates: by length weighed against the cost of the offset, or by length alone. */
  datatype Rule = Priced | Longest

  predicate Takes(rule: Rule, best: Found, len: nat, off: nat) {
    len > best.len
    && (rule.Priced? && best.len >= 4 ==> (len - best.len) * 6 >= Log2(off) - Log2(best.off))
  }

  /** The oldest position a match may start from. */
  function Oldest(c: Config, pos: nat): (l: nat)
    ensures l <= pos && pos - l <= c.maxDist
  {
    if pos <= c.maxDist then 0 else pos - c.maxDist
  }

  /** The walk of chain_match_ex over the hash5 or hash4 chain, and of single_probe_match. */
  function Walk(rule: Rule, c: Config, data: seq<byte>, pos: nat, end: nat, links: seq<int>, ref: int, depth: nat,
                best: Found)
    : (f: Found)
    requires ConfigOk(c) && links != [] && pos + 4 <= end <= |data| && Good(c, data, pos, end, best)
    ensures Good(c, data, pos, end, f)
    decreases depth
  {
    if !(Oldest(c, pos) <= ref < pos) || depth == 0 then best
    else
      var next := links[ref % |links|];
      if !Same(data, pos, ref, 4) then Walk(rule, c, data, pos, end, links, next, depth - 1, best)
      else
        var f := Found(Length(data, pos, ref, 4, MaxLen(c, pos, end)), pos - ref);
        if !Takes(rule, best, f.len, f.off) then Walk(rule, c, data, pos, end, links, next, depth - 1, best)
        else if f.len >= 256 then f
        else Walk(rule, c, data, pos, end, links, next, depth - 1, f)
  }

  /** The hash3 walk: a match of three bytes is kept only when it is near, one of eight ends the walk. */
  function WalkShort(c: Config, data: seq<byte>, pos: nat, end: nat, links: seq<int>, ref: int, depth: nat, best: Found)
    : (f: Found)
    requires ConfigOk(c) && links != [] && pos + 3 <= end <= |data| && Good(c, data, pos, end, best)
    ensures Good(c, data, pos, end, f)
    decreases depth
  {
    if !(Oldest(c, pos) <= ref < pos) || depth == 0 then best
    else
      var next := links[ref % |links|];
      if !Same(data, pos, ref, 3) then WalkShort(c, data, pos, end, links, next, depth - 1, best)
      else
        var f := Found(Length(data, pos, ref, 3, MaxLen(c, pos, end)), pos - ref);
        if (f.len == 3 && f.off > 4096) || f.len <= best.len then
          WalkShort(c, data, pos, end, links, next, depth - 1, best)
        else if f.len >= 8 then f
        else WalkShort(c, data, pos, end, links, next, depth - 1, f)
  }

  // ---------------------------------------------------------------- finders

  /** The hash5 walk of chain_match_ex and its hash4 fallback. */
  function ChainLong(c: Config, data: seq<byte>, t: Tables, pos: nat, end: nat): (f: Found)
    requires ConfigOk(c) && Sized(c, t) && pos + 4 <= end <= |data|
    ensures Good(c, data, pos, end, f)
  {
    var f := Walk(Priced, c, data, pos, end, t.long.links, t.long.roots[HashSafe(data, pos, end)], c.depth, NONE);
    if !c.useHash4 || f.len > 0 then f
    else Walk(Priced, c, data, pos, end, t.mid.links, t.mid.roots[HashMid(data, pos)], 8, NONE)
  }

  /** chain_match. */
  function Chain(c: Config, data: seq<byte>, t: Tables, pos: nat, end: nat): (f: Found)
    requires ConfigOk(c) && Sized(c, t) && end <= |data|
    ensures Good(c, data, pos, end, f)
  {
    if pos + (if c.useHash3 then 3 else 4) > end then NONE
    else
      var f := if pos + 4 <= end then ChainLong(c, data, t, pos, end) else NONE;
      if c.useHash3 && f.len < 4 then
        WalkShort(c, data, pos, end, t.short.links, t.short.roots[HashShort(data, pos)], 4, f)
      else f
  }

  /** single_probe_match. */
  function Probe(c: Config, data: seq<byte>, t: Tables, pos: nat, end: nat): (f: Found)
    requires ConfigOk(c) && Sized(c, t) && end <= |data|
    ensures Good(c, data, pos, end, f)
  {
    if pos + 4 > end then NONE
    else Walk(Longest, c, data, pos, end, t.long.links, t.long.roots[HashSafe(data, pos, end)], c.depth, NONE)
  }

  // ---------------------------------------------------------------- recent offsets

  function RepAt(r: Reps, i: nat): (d: nat)
    requires i < 3
  {
    if i == 0 then r.r0 else if i == 1 then r.r1 else r.r2
  }

  predicate RepsWithin(r: Reps, n: nat) { r.r0 <= n && r.r1 <= n && r.r2 <= n }

  /** The first recent offset, from number i on, at which k bytes match; all of them when extend. */
  function RepFrom(c: Config, data: seq<byte>, r: Reps, pos: nat, end: nat, k: nat, i: nat): (f: Found)
    requires ConfigOk(c) && i <= 3 && 3 <= k <= 4 && pos + k <= end <= |data|
    ensures RepsWithin(r, c.maxDist) ==> Good(c, data, pos, end, f)
    decreases 3 - i
  {
    if i == 3 then NONE
    else
      var d := RepAt(r, i);
      if d == 0 || pos < d || !Same(data, pos, pos - d, k) then RepFrom(c, data, r, pos, end, k, i + 1)
      else if k == 4 then Found(Length(data, pos, pos - d, 4, MaxLen(c, pos, end)), d)
      else Found(Length(data, pos, pos - d, 3, 3), d)
  }

  /** try_rep_match. */
  function TryRep(c: Config, data: seq<byte>, r: Reps, pos: nat, end: nat): (f: Found)
    requires ConfigOk(c) && pos + 4 <= end <= |data|
    ensures RepsWithin(r, c.maxDist) ==> Good(c, data, pos, end, f)
  {
    var f := RepFrom(c, data, r, pos, end, 4, 0);
    if f.len > 0 || !c.useHash3 then f else RepFrom(c, data, r, pos, end, 3, 0)
  }
}
