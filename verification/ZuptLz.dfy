/** zupt_lz: a greedy or lazy LZ77 coder over one hash chain, its decoder, and why the one undoes the other. */
module ZuptLz {
  import opened Bits
  import opened LittleEndian
  import opened Wrappers
  import opened Lz
  import opened LzEmit
  import opened LzMatch
  import opened LzMatcher
  import opened LzCompress
  import LzCopy

  const MIN_MATCH: nat := 3
  const LONGEST: nat := 65535
  const WINDOW: nat := 65535

  // ---------------------------------------------------------------- the match finder

  /** A match, or what a search begins with. */
  predicate FoundAt(data: seq<byte>, pos: nat, f: Found) {
    f == Found(MIN_MATCH - 1, 0)
    || (MIN_MATCH <= f.len <= LONGEST && f.off <= WINDOW && MatchAt(data, pos, f.off, f.len))
  }

  /** The chain from ref on: the first of the longest matches, unless one of 256 bytes ends the search. */
  function Search(data: seq<byte>, pos: nat, links: seq<int>, ref: int, left: nat, best: Found): (f: Found)
    requires links != [] && pos < |data| && FoundAt(data, pos, best)
    ensures FoundAt(data, pos, f)
    decreases left
  {
    if !(0 <= ref < pos <= ref + WINDOW) || left == 0 then best
    else
      var next := links[ref % |links|];
      var max := Min(|data| - pos, LONGEST);
      if best.len < |data| - pos && data[ref + best.len] == data[pos + best.len] && data[ref] == data[pos] then
        var n := Common(data, pos, ref, max);
        SameIsMatch(data, pos, ref, n);
        if n <= best.len then Search(data, pos, links, next, left - 1, best)
        else if n >= 256 then Found(n, pos - ref)
        else Search(data, pos, links, next, left - 1, Found(n, pos - ref))
      else Search(data, pos, links, next, left - 1, best)
  }

  predicate TableOk(t: Table) { TableSized(t, LONG_ROOTS, WINDOW) }

  /** lz_find_match. */
  function Find(data: seq<byte>, t: Table, pos: nat, depth: nat): (f: Found)
    requires TableOk(t)
    ensures if f.len > 0 then f.len >= MIN_MATCH && FoundAt(data, pos, f) && pos + 4 <= |data| else f == NONE
  {
    if pos + 4 > |data| then NONE
    else
      var f := Search(data, pos, t.links, t.roots[Hash4(data, pos)], depth, Found(MIN_MATCH - 1, 0));
      if f.len >= MIN_MATCH then f else NONE
  }

  /** lz_insert_hash. */
  function InsertOne(data: seq<byte>, t: Table, pos: nat): (u: Table)
    requires TableOk(t)
    ensures TableOk(u)
  {
    if pos + 4 <= |data| then Put(t, Hash4(data, pos), pos) else t
  }

  function InsertTo(data: seq<byte>, t: Table, first: nat, stop: nat): (u: Table)
    requires TableOk(t)
    ensures TableOk(u)
    decreases stop - first
  {
    if first < stop && first + 4 <= |data| then InsertTo(data, InsertOne(data, t, first), first + 1, stop) else t
  }

  // ---------------------------------------------------------------- the parser

  /** One call: the source, the depth of a search, whether the next position is tried, and the room for the output. */
  datatype Job = Job(data: seq<byte>, depth: nat, lazy: bool, cap: nat)

  datatype Cursor = Cursor(pos: nat, anchor: nat, tab: Table, out: seq<byte>)

  predicate CursorOk(j: Job, s: Cursor) { TableOk(s.tab) && s.anchor <= s.pos && s.anchor <= |j.data| }

  /** The match to take, at the position or right behind it. */
  datatype Pick = Pick(pos: nat, f: Found, tab: Table)

  function Choose(j: Job, s: Cursor): (k: Pick)
    requires CursorOk(j, s)
    ensures TableOk(k.tab) && s.pos <= k.pos && (k.f.len == 0 ==> k == Pick(s.pos, NONE, s.tab))
    ensures k.f.len > 0 ==> k.f.len >= MIN_MATCH && FoundAt(j.data, k.pos, k.f) && k.pos + k.f.len <= |j.data|
  {
    hide Search;
    var f1 := Find(j.data, s.tab, s.pos, j.depth);
    if f1.len == 0 then Pick(s.pos, NONE, s.tab)
    else if j.lazy && s.pos + 1 + MIN_MATCH <= |j.data| then
      var t := InsertOne(j.data, s.tab, s.pos);
      var f2 := Find(j.data, t, s.pos + 1, j.depth);
      if f2.len > f1.len + 1 then Pick(s.pos + 1, f2, t) else Pick(s.pos, f1, t)
    else Pick(s.pos, f1, s.tab)
  }

  /** The room reckoned for a sequence. */
  function Needs(lit: nat, extra: nat): (n: nat) { 1 + lit / 255 + 1 + lit + 2 + extra / 255 + 1 }

  function NeedsLast(lit: nat): (n: nat) { 1 + lit / 255 + 1 + lit }

  function Take(j: Job, s: Cursor, k: Pick): (u: Cursor)
    requires CursorOk(j, s) && s.pos <= k.pos && TableOk(k.tab) && k.f.len >= MIN_MATCH && k.pos + k.f.len <= |j.data|
    ensures CursorOk(j, u) && u.pos > s.pos
  {
    var end := k.pos + k.f.len;
    var t := if j.lazy then k.tab else InsertOne(j.data, k.tab, k.pos);
    Cursor(end, end, InsertTo(j.data, t, k.pos + 1, end),
           s.out + Sequence(2, MIN_MATCH, j.data[s.anchor..k.pos], k.f.len, k.f.off))
  }

  /** The tokens from a cursor on, unless they do not fit. */
  function ParseFrom(j: Job, s: Cursor): (r: Option<seq<byte>>)
    requires CursorOk(j, s)
    decreases |j.data| - s.pos
  {
    if s.pos + MIN_MATCH > |j.data| then
      var lits := j.data[s.anchor..];
      if |s.out| + NeedsLast(|lits|) > j.cap then None else Some(s.out + Sequence(2, MIN_MATCH, lits, 0, 0))
    else
      var k := Choose(j, s);
      if k.f.len == 0 then ParseFrom(j, s.(pos := s.pos + 1, tab := InsertOne(j.data, s.tab, s.pos)))
      else if |s.out| + Needs(k.pos - s.anchor, k.f.len - MIN_MATCH) > j.cap then None
      else ParseFrom(j, Take(j, s, k))
  }

  /** The tokens of zupt_lz_compress; there are none for an empty source. */
  function Compressed(j: Job, t: Table): (r: Option<seq<byte>>)
    requires TableOk(t)
  {
    if j.data == [] then None else ParseFrom(j, Cursor(0, 0, t, []))
  }

  // ---------------------------------------------------------------- what the tokens decode to

  function ParamsOf(j: Job): (p: Params) { Params(2, MIN_MATCH, WINDOW, |j.data|) }

  lemma {:induction false} ParseLeads(j: Job, s: Cursor)
    requires CursorOk(j, s) && Leads(ParamsOf(j), s.out, [], j.data[..s.anchor]) && ParseFrom(j, s).Some?
    ensures Decode(ParamsOf(j), ParseFrom(j, s).value, []) == Done(j.data)
    decreases |j.data| - s.pos
  {
    hide Leads, Sequence, Decode, InsertTo, InsertOne, Needs, NeedsLast, Choose;
    if s.pos + MIN_MATCH > |j.data| {
      LeadsHome(ParamsOf(j), s.out, [], j.data, s.anchor, |j.data|);
      assert j.data[s.anchor..|j.data|] == j.data[s.anchor..] && j.data[..|j.data|] == j.data;
    } else {
      var k := Choose(j, s);
      if k.f.len == 0 {
        ParseLeads(j, s.(pos := s.pos + 1, tab := InsertOne(j.data, s.tab, s.pos)));
      } else {
        LeadsOn(ParamsOf(j), s.out, [], j.data, s.anchor, k.pos, k.f.len, k.f.off);
        ParseLeads(j, Take(j, s, k));
      }
    }
  }

  // ---------------------------------------------------------------- the decoder

  /** lz_read_extra from the value t on; an unterminated run that ends the input is accepted, a value near 2^32 is not.
      */
  function Extra(s: seq<byte>, t: nat): (e: Ext)
    ensures e.Ext? ==> e.used <= |s|
  {
    if s == [] then Ext(t, 0)
    else if t > 0xFFFF_FFFF - 255 then CutOff
    else if s[0] < 255 then Ext(t + s[0], 1)
    else
      match Extra(s[1..], t + 255)
      case CutOff => CutOff
      case Ext(val, used) => Ext(val, 1 + used)
  }

  function Length(nibble: nat, s: seq<byte>): (e: Ext)
    ensures e.Ext? ==> e.used <= |s|
  {
    if nibble == 15 then Extra(s, 15) else Ext(nibble, 0)
  }

  /** zupt_lz_decompress: the whole output behind h, or nothing. */
  function Restored(s: seq<byte>, h: seq<byte>, cap: nat): (r: Option<seq<byte>>)
    decreases |s|
  {
    if s == [] then Some(h)
    else
      match Length(s[0] / 16, s[1..])
      case CutOff => None
      case Ext(ll, used) =>
        var s1 := s[1 + used..];
        if ll > 0 && (ll > |s1| || |h| + ll > cap) then None
        else if s1[ll..] == [] then Some(h + s1[..ll])
        else RestoredMatch(s[0] % 16, s1[ll..], h + s1[..ll], cap)
  }

  function RestoredMatch(mc: nat, s: seq<byte>, h: seq<byte>, cap: nat): (r: Option<seq<byte>>)
    decreases |s|
  {
    if |s| < 2 then None
    else
      var off := Offset(s, 2);
      if off == 0 || off > |h| then None
      else
        match Length(mc, s[2..])
        case CutOff => None
        case Ext(len, used) =>
          if |h| + len + MIN_MATCH > cap then None
          else Restored(s[2 + used..], CopyMatch(h, off, len + MIN_MATCH), cap)
  }

  lemma {:induction false} ExtraIs(s: seq<byte>, t: nat)
    requires ReadExt(s).Ext? && t + ReadExt(s).val <= INT32_MAX
    ensures Extra(s, t) == Ext(t + ReadExt(s).val, ReadExt(s).used)
  {
    if s[0] == 255 {
      ExtraIs(s[1..], t + 255);
    }
  }

  lemma LengthIs(nibble: nat, s: seq<byte>)
    requires nibble <= 15 && ReadLen(nibble, s).Ext? && ReadLen(nibble, s).val <= INT32_MAX
    ensures Length(nibble, s) == ReadLen(nibble, s)
  {
    if nibble == 15 {
      ExtraIs(s, 15);
    }
  }

  /** Whatever decodes by the meaning of tokens, this decoder decodes alike. */
  lemma {:induction false} RestoresAlike(p: Params, s: seq<byte>, h: seq<byte>, cap: nat)
    requires p.ob == 2 && p.minMatch == MIN_MATCH && p.end <= INT32_MAX && p.end <= cap && Decode(p, s, h).Done?
    ensures Restored(s, h, cap) == Some(Decode(p, s, h).h)
    decreases |s|
  {
    hide ReadLen, Length, DecodeMatch, RestoredMatch;
    if s != [] {
      var e := ReadLen(s[0] / 16, s[1..]);
      LengthIs(s[0] / 16, s[1..]);
      var s1 := s[1 + e.used..];
      if e.val < |s1| {
        MatchRestoresAlike(p, s[0] % 16, s1[e.val..], h + s1[..e.val], cap);
      }
    }
  }

  lemma {:induction false} MatchRestoresAlike(p: Params, mc: nat, s: seq<byte>, h: seq<byte>, cap: nat)
    requires p.ob == 2 && p.minMatch == MIN_MATCH && p.end <= INT32_MAX && p.end <= cap && mc <= 15
    requires DecodeMatch(p, mc, s, h).Done?
    ensures RestoredMatch(mc, s, h, cap) == Some(DecodeMatch(p, mc, s, h).h)
    decreases |s|
  {
    hide ReadLen, Length, Decode, Restored, Offset;
    var e := ReadLen(mc, s[2..]);
    LengthIs(mc, s[2..]);
    RestoresAlike(p, s[2 + e.used..], CopyMatch(h, Offset(s, 2), e.val + MIN_MATCH), cap);
  }

  /** What was compressed is restored, whatever the table held and however deep the searches were. */
  lemma RoundTrip(j: Job, t: Table, cap: nat)
    requires TableOk(t) && |j.data| <= INT32_MAX && |j.data| <= cap && Compressed(j, t).Some?
    ensures Restored(Compressed(j, t).value, [], cap) == Some(j.data)
  {
    hide ParseFrom, Decode, Restored;
    LeadsNowhere(ParamsOf(j), []);
    assert j.data[..0] == [];
    ParseLeads(j, Cursor(0, 0, t, []));
    RestoresAlike(ParamsOf(j), Compressed(j, t).value, [], cap);
  }

  // ---------------------------------------------------------------- the loops

  lemma SearchStep(data: seq<byte>, pos: nat, links: seq<int>, ref: int, left: nat, best: Found, n: nat)
    requires links != [] && pos < |data| && FoundAt(data, pos, best) && 0 <= ref < pos <= ref + WINDOW && left > 0
    requires best.len < |data| - pos && data[ref + best.len] == data[pos + best.len] && data[ref] == data[pos]
    requires n == Common(data, pos, ref, Min(|data| - pos, LONGEST))
    ensures n > best.len ==> FoundAt(data, pos, Found(n, pos - ref))
    ensures Search(data, pos, links, ref, left, best)
            == if n <= best.len then Search(data, pos, links, links[ref % |links|], left - 1, best)
               else if n >= 256 then Found(n, pos - ref)
               else Search(data, pos, links, links[ref % |links|], left - 1, Found(n, pos - ref))
  {
    hide Common, Same, MatchAt;
    SameIsMatch(data, pos, ref, n);
  }

  /** lz_find_match. */
  method FindMatch(data: seq<byte>, t: HashTable, pos: nat, depth: nat) returns (f: Found)
    requires t.Valid() && TableOk(t.View())
    ensures f == Find(data, t.View(), pos, depth)
  {
    hide Search, Common, Hash4;
    if pos + 4 > |data| {
      return NONE;
    }
    var ref := t.Root(Hash4(data, pos));
    var best, left := Found(MIN_MATCH - 1, 0), depth;
    ghost var links, goal := t.View().links, Search(data, pos, t.View().links, ref, depth, best);
    while 0 <= ref < pos <= ref + WINDOW && left > 0
      invariant FoundAt(data, pos, best) && goal == Search(data, pos, links, ref, left, best)
      decreases left
    {
      var next := t.Link(ref);
      if best.len < |data| - pos && data[ref + best.len] == data[pos + best.len] && data[ref] == data[pos] {
        var n := ExtendMatch(data, pos, ref, Min(|data| - pos, LONGEST));
        SearchStep(data, pos, links, ref, left, best, n);
        if n > best.len {
          best := Found(n, pos - ref);
          if n >= 256 {
            return best;
          }
        }
      } else {
        SearchPast(data, pos, links, ref, left, best);
      }
      ref, left := next, left - 1;
    }
    SearchEnd(data, pos, links, ref, left, best);
    f := if best.len >= MIN_MATCH then best else NONE;
  }

  lemma SearchPast(data: seq<byte>, pos: nat, links: seq<int>, ref: int, left: nat, best: Found)
    requires links != [] && pos < |data| && FoundAt(data, pos, best) && 0 <= ref < pos <= ref + WINDOW && left > 0
    requires !(best.len < |data| - pos && data[ref + best.len] == data[pos + best.len] && data[ref] == data[pos])
    ensures Search(data, pos, links, ref, left, best) == Search(data, pos, links, links[ref % |links|], left - 1, best)
  {
    hide Common, Same, MatchAt;
  }

  lemma SearchEnd(data: seq<byte>, pos: nat, links: seq<int>, ref: int, left: nat, best: Found)
    requires links != [] && pos < |data| && FoundAt(data, pos, best)
    requires !(0 <= ref < pos <= ref + WINDOW) || left == 0
    ensures Search(data, pos, links, ref, left, best) == best
  {
    hide Common, Same, MatchAt;
  }

  /** lz_insert_hash. */
  method InsertHash(data: seq<byte>, t: HashTable, pos: nat)
    requires t.Valid() && !t.compact && TableOk(t.View())
    modifies t.roots, t.links
    ensures t.View() == InsertOne(data, old(t.View()), pos)
  {
    hide Hash4;
    if pos + 4 <= |data| {
      t.Add(Hash4(data, pos), pos);
    }
  }

  /** The insertions after a match. */
  method InsertHashes(data: seq<byte>, t: HashTable, first: nat, stop: nat)
    requires t.Valid() && !t.compact && TableOk(t.View())
    modifies t.roots, t.links
    ensures t.View() == InsertTo(data, old(t.View()), first, stop)
  {
    hide InsertOne;
    var i := first;
    while i < stop && i + 4 <= |data|
      invariant TableOk(t.View()) && InsertTo(data, t.View(), i, stop) == InsertTo(data, old(t.View()), first, stop)
      decreases stop - i
    {
      InsertHash(data, t, i);
      i := i + 1;
    }
  }

  /** The match for a position: the one there, or a longer one right behind it. */
  method ChooseMatch(j: Job, t: HashTable, ghost s: Cursor, pos: nat) returns (at: nat, f: Found)
    requires t.Valid() && !t.compact && CursorOk(j, s) && s.tab == t.View() && s.pos == pos
    modifies t.roots, t.links
    ensures Choose(j, s) == Pick(at, f, t.View())
  {
    hide Find, InsertOne;
    at := pos;
    f := FindMatch(j.data, t, pos, j.depth);
    if f.len > 0 && j.lazy && pos + 1 + MIN_MATCH <= |j.data| {
      InsertHash(j.data, t, pos);
      var f2 := FindMatch(j.data, t, pos + 1, j.depth);
      if f2.len > f.len + 1 {
        at, f := pos + 1, f2;
      }
    }
  }

  lemma RoomForSequence(lits: seq<byte>, ml: nat, off: nat)
    requires ml >= MIN_MATCH
    ensures |Sequence(2, MIN_MATCH, lits, ml, off)| <= Needs(|lits|, ml - MIN_MATCH)
  {
  }

  lemma RoomForLast(lits: seq<byte>)
    ensures 0 < |Sequence(2, MIN_MATCH, lits, 0, 0)| <= NeedsLast(|lits|)
  {
  }

  /** A sequence stored and its positions inserted. */
  method TakeMatch(j: Job, t: HashTable, ghost s: Cursor, anchor: nat, at: nat, f: Found, dst: array<byte>, op: nat)
    returns (end: nat)
    requires t.Valid() && !t.compact && CursorOk(j, s) && s.anchor == anchor && s.pos <= at && TableOk(t.View())
    requires f.len >= MIN_MATCH && at + f.len <= |j.data| && op <= dst.Length && s.out == dst[..op]
    requires op + Needs(at - anchor, f.len - MIN_MATCH) <= dst.Length
    modifies t.roots, t.links, dst
    ensures end <= dst.Length
    ensures Take(j, s, Pick(at, f, old(t.View()))) == Cursor(at + f.len, at + f.len, t.View(), dst[..end])
  {
    hide InsertOne, InsertTo, Sequence, Needs;
    var lits := j.data[anchor..at];
    RoomForSequence(lits, f.len, f.off);
    end := EmitSeq(dst, op, lits, f.len, f.off, 2, MIN_MATCH);
    if !j.lazy {
      InsertHash(j.data, t, at);
    }
    InsertHashes(j.data, t, at + 1, at + f.len);
  }

  /** zupt_lz_compress over a table: the number of bytes stored, or 0 when they do not fit. */
  method Compress(j: Job, t: HashTable, dst: array<byte>) returns (n: nat)
    requires t.Valid() && !t.compact && TableOk(t.View()) && j.cap == dst.Length && dst != t.roots as object
    requires |j.data| <= INT32_MAX
    modifies t.roots, t.links, dst
    ensures match Compressed(j, old(t.View()))
            case None => n == 0
            case Some(s) =>
              n == |s| > 0 && n <= dst.Length && dst[..n] == s && Restored(s, [], |j.data|) == Some(j.data)
  {
    hide Choose, Take, Needs, NeedsLast, Sequence, Restored, ParseFrom, TableOk;
    if j.data == [] {
      return 0;
    }
    var pos: nat, anchor: nat, op: nat := 0, 0, 0;
    ghost var t0 := t.View();
    ghost var s := Cursor(0, 0, t0, []);
    while pos + MIN_MATCH <= |j.data|
      invariant CursorOk(j, s) && op <= dst.Length && s == Cursor(pos, anchor, t.View(), dst[..op])
      invariant ParseFrom(j, s) == Compressed(j, t0)
      decreases |j.data| - pos
    {
      ParseStep(j, s);
      ghost var before := s;
      var at, f := ChooseMatch(j, t, s, pos);
      if f.len == 0 {
        InsertHash(j.data, t, pos);
        pos := pos + 1;
        s := s.(pos := pos, tab := t.View());
      } else {
        if op + Needs(at - anchor, f.len - MIN_MATCH) > dst.Length {
          return 0;
        }
        ghost var k := Pick(at, f, t.View());
        op := TakeMatch(j, t, s, anchor, at, f, dst, op);
        pos, anchor := at + f.len, at + f.len;
        s := Take(j, s, k);
      }
    }
    ParseEnd(j, s);
    var lits := j.data[anchor..];
    if op + NeedsLast(|lits|) > dst.Length {
      return 0;
    }
    RoomForLast(lits);
    n := EmitSeq(dst, op, lits, 0, 0, 2, MIN_MATCH);
    RoundTrip(j, t0, |j.data|);
  }

  lemma ParseStep(j: Job, s: Cursor)
    requires CursorOk(j, s) && s.pos + MIN_MATCH <= |j.data|
    ensures var k := Choose(j, s);
            ParseFrom(j, s)
            == if k.f.len == 0 then ParseFrom(j, s.(pos := s.pos + 1, tab := InsertOne(j.data, s.tab, s.pos)))
               else if |s.out| + Needs(k.pos - s.anchor, k.f.len - MIN_MATCH) > j.cap then None
               else ParseFrom(j, Take(j, s, k))
  {
    hide Choose, Take, Needs, InsertOne;
  }

  lemma ParseEnd(j: Job, s: Cursor)
    requires CursorOk(j, s) && s.pos + MIN_MATCH > |j.data|
    ensures ParseFrom(j, s)
            == if |s.out| + NeedsLast(|j.data[s.anchor..]|) > j.cap then None
               else Some(s.out + Sequence(2, MIN_MATCH, j.data[s.anchor..], 0, 0))
  {
  }

  // ---------------------------------------------------------------- decoding in place

  /** lz_read_extra. */
  method ReadExtra(src: seq<byte>, at: nat, init: nat) returns (ok: bool, val: nat, next: nat)
    requires at <= |src|
    ensures match Extra(src[at..], init)
            case CutOff => !ok
            case Ext(v, used) => ok && val == v && next == at + used
  {
    ok, val, next := true, init, at;
    while next < |src|
      invariant at <= next <= |src|
      invariant Extra(src[at..], init)
                == match Extra(src[next..], val) case CutOff => CutOff case Ext(v, u) => Ext(v, next - at + u)
      decreases |src| - next
    {
      if val > 0xFFFF_FFFF - 255 {
        return false, val, next;
      }
      var b := src[next];
      assert src[next..][1..] == src[next + 1..];
      next, val := next + 1, val + b;
      if b < 255 {
        return;
      }
    }
  }

  method ReadLength(src: seq<byte>, at: nat, nibble: nat) returns (ok: bool, val: nat, next: nat)
    requires at <= |src|
    ensures match Length(nibble, src[at..])
            case CutOff => !ok
            case Ext(v, used) => ok && val == v && next == at + used
  {
    ok, val, next := true, nibble, at;
    if nibble == 15 {
      ok, val, next := ReadExtra(src, at, 15);
    }
  }

  lemma RestoredStep(s: seq<byte>, at: nat, h: seq<byte>, cap: nat)
    requires at < |s|
    ensures Restored(s[at..], h, cap)
            == match Length(s[at] / 16, s[at + 1..])
               case CutOff => None
               case Ext(ll, used) =>
                 var next := at + 1 + used;
                 if ll > 0 && (ll > |s| - next || |h| + ll > cap) then None
                 else if ll >= |s| - next then Some(h + s[next..])
                 else RestoredMatch(s[at] % 16, s[next + ll..], h + s[next..next + ll], cap)
  {
    hide Length, RestoredMatch;
    assert s[at..][1..] == s[at + 1..];
    var e := Length(s[at] / 16, s[at + 1..]);
    if e.Ext? {
      var next := at + 1 + e.used;
      assert s[at..][1 + e.used..] == s[next..];
      if e.val <= |s| - next {
        assert s[next..][..e.val] == s[next..next + e.val] && s[next..][e.val..] == s[next + e.val..];
        if e.val == |s| - next {
          assert s[next..next + e.val] == s[next..];
        }
      }
    }
  }

  lemma RestoredMatchStep(mc: nat, s: seq<byte>, at: nat, h: seq<byte>, cap: nat)
    requires at + 2 <= |s| && 0 < Offset(s[at..], 2) <= |h|
    ensures RestoredMatch(mc, s[at..], h, cap)
            == match Length(mc, s[at + 2..])
               case CutOff => None
               case Ext(len, used) =>
                 if |h| + len + MIN_MATCH > cap then None
                 else Restored(s[at + 2 + used..], CopyMatch(h, Offset(s[at..], 2), len + MIN_MATCH), cap)
  {
    hide Length, Restored, CopyMatch, Offset;
    assert s[at..][2..] == s[at + 2..];
    var e := Length(mc, s[at + 2..]);
    if e.Ext? {
      assert s[at..][2 + e.used..] == s[at + 2 + e.used..];
    }
  }

  /** One token of zupt_lz_decompress: the next position, or the end of the output, or failure. */
  method RestoreToken(src: seq<byte>, at: nat, dst: array<byte>, op: nat) returns (ok: bool, next: nat, to: nat)
    requires at < |src| && op <= dst.Length
    modifies dst
    ensures ok ==> at < next <= |src| && to <= dst.Length
                   && Restored(src[next..], dst[..to], dst.Length) == old(Restored(src[at..], dst[..op], dst.Length))
    ensures !ok ==> old(Restored(src[at..], dst[..op], dst.Length)).None?
  {
    hide Restored, RestoredMatch, Length, Offset, CopyMatch;
    ghost var h := dst[..op];
    RestoredStep(src, at, h, dst.Length);
    var ll;
    ok, ll, next := ReadLength(src, at + 1, src[at] / 16);
    to := op;
    if !ok {
      return;
    }
    if ll > 0 && (next + ll > |src| || op + ll > dst.Length) {
      return false, next, to;
    }
    LzCopy.CopyLiterals(src, next, dst, op, ll);
    next, to := next + ll, op + ll;
    if next >= |src| {
      assert src[next..] == [] && src[next - ll..next] == src[next - ll..];
      RestoredNothing(dst[..to], dst.Length);
      return;
    }
    ok, next, to := RestoreMatch(src, src[at] % 16, next, dst, to);
  }

  lemma RestoredNothing(h: seq<byte>, cap: nat)
    ensures Restored([], h, cap) == Some(h)
  {
  }

  method RestoreMatch(src: seq<byte>, mc: nat, at: nat, dst: array<byte>, op: nat)
    returns (ok: bool, next: nat, to: nat)
    requires at < |src| && op <= dst.Length
    modifies dst
    ensures ok ==> at < next <= |src| && to <= dst.Length
                   && Restored(src[next..], dst[..to], dst.Length)
                      == old(RestoredMatch(mc, src[at..], dst[..op], dst.Length))
    ensures !ok ==> old(RestoredMatch(mc, src[at..], dst[..op], dst.Length)).None?
  {
    hide Restored, Length, CopyMatch;
    ok, next, to := false, at, op;
    if at + 2 > |src| {
      return;
    }
    var off := src[at] + 0x100 * src[at + 1] as int;
    assert off == Offset(src[at..], 2);
    if off == 0 || off > op {
      return;
    }
    RestoredMatchStep(mc, src, at, dst[..op], dst.Length);
    var len;
    ok, len, next := ReadLength(src, at + 2, mc);
    if !ok {
      return;
    }
    if op + len + MIN_MATCH > dst.Length {
      return false, next, op;
    }
    LzCopy.ByteCopy(dst, op, off, len + MIN_MATCH);
    to := op + len + MIN_MATCH;
  }

  /** zupt_lz_decompress: the number of bytes restored, or 0. */
  method Decompress(src: seq<byte>, dst: array<byte>) returns (n: nat)
    modifies dst
    ensures match Restored(src, [], dst.Length)
            case None => n == 0
            case Some(out) => n == |out| <= dst.Length && dst[..n] == out
  {
    hide Restored;
    var at := 0;
    n := 0;
    assert src[0..] == src && dst[..0] == [];
    while at < |src|
      invariant at <= |src| && n <= dst.Length
      invariant Restored(src[at..], dst[..n], dst.Length) == Restored(src, [], dst.Length)
    {
      var ok;
      ok, at, n := RestoreToken(src, at, dst, n);
      if !ok {
        return 0;
      }
    }
    assert src[at..] == [];
    RestoredNothing(dst[..n], dst.Length);
  }
}
