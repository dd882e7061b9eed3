/** compress_block over a matcher and a token buffer: what LzParse says, and so a block that decodes. */
module LzCompress {
  import opened Arithmetic
  import opened LittleEndian
  import opened SeqCodes
  import opened LzEmit
  import opened LzMatch
  import opened LzMatcher
  import opened LzParse

  // ---------------------------------------------------------------- writing tokens

  /** write_varint. */
  method WriteVarint(dst: array<byte>, at: nat, v: nat) returns (op: nat)
    requires at + |Varint(v)| <= dst.Length
    modifies dst
    ensures op == at + |Varint(v)| && dst[..op] == old(dst[..at]) + Varint(v)
  {
    ghost var before := dst[..at];
    var left := v;
    op := at;
    while left >= 255
      invariant at <= op && op + |Varint(left)| == at + |Varint(v)| <= dst.Length
      invariant dst[..op] + Varint(left) == before + Varint(v)
      decreases left
    {
      dst[op] := 255;
      op, left := op + 1, left - 255;
      assert dst[..op] + Varint(left) == dst[..op - 1] + ([255] + Varint(left));
    }
    dst[op] := left;
    op := op + 1;
    assert dst[..op] == dst[..op - 1] + [left];
  }

  method WriteExtension(dst: array<byte>, at: nat, v: nat) returns (op: nat)
    requires at + |Extension(v)| <= dst.Length
    modifies dst
    ensures op == at + |Extension(v)| && dst[..op] == old(dst[..at]) + Extension(v)
  {
    op := at;
    if v >= 15 {
      op := WriteVarint(dst, at, v - 15);
    }
  }

  /** emit_seq. */
  method EmitSeq(dst: array<byte>, at: nat, lits: seq<byte>, ml: nat, off: nat, ob: nat, minMatch: nat)
    returns (op: nat)
    requires (ob == 2 || ob == 3) && (ml > 0 ==> ml >= minMatch)
    requires at + |Sequence(ob, minMatch, lits, ml, off)| <= dst.Length
    modifies dst
    ensures op == at + |Sequence(ob, minMatch, lits, ml, off)|
    ensures dst[..op] == old(dst[..at]) + Sequence(ob, minMatch, lits, ml, off)
  {
    hide Extension, OffsetBytes, Nibble;
    ghost var before := dst[..at];
    var mn := if ml == 0 then 0 else Nibble(ml - minMatch);
    ghost var head: seq<byte> := [16 * Nibble(|lits|) + mn];
    op := Append(dst, at, [16 * Nibble(|lits|) + mn]);
    op := WriteExtension(dst, op, |lits|);
    op := Append(dst, op, lits);
    assert dst[..op] == before + (head + (Extension(|lits|) + lits));
    if ml > 0 {
      op := Append(dst, op, OffsetBytes(off, ob));
      op := WriteExtension(dst, op, ml - minMatch);
      assert dst[..op] == before
             + (head + (Extension(|lits|) + (lits + (OffsetBytes(off, ob) + Extension(ml - minMatch)))));
    } else {
      assert lits + [] == lits;
    }
  }

  // ---------------------------------------------------------------- choosing a match

  /** Steps 1 and 2 of compress_block. */
  method PickGreedy(m: Matcher, b: Block, ghost s: Cursor, pos: nat) returns (f: Found, rep: bool)
    requires m.Valid() && BlockOk(b) && CursorOk(b, s) && s.pos + b.minMatch < b.end
    requires m.c == b.c && s.pos == pos && s.tabs == m.View() && s.reps == m.reps
    ensures Pick(pos, f, rep, false, m.View()) == Greedy(b, s)
  {
    hide TryRep, Probe, Chain, Good, Sized;
    var r := NONE;
    if !b.c.noRep {
      r := m.TryRepMatch(b.data, pos, b.end);
    }
    f, rep := NONE, r.len > 0;
    if r.len >= b.minMatch {
      f := r;
    }
    if f.len < 8 {
      var g;
      if b.c.singleProbe {
        g := m.ProbeMatch(b.data, pos, b.end);
      } else {
        g := m.ChainMatch(b.data, pos, b.end);
      }
      if g.len > f.len {
        f, rep := g, false;
      }
    } else {
      rep := true;
    }
  }

  /** Steps 1 to 3 of compress_block. */
  method PickLazy(m: Matcher, b: Block, ghost s: Cursor, pos: nat)
    returns (at: nat, f: Found, rep: bool, inserted: bool)
    requires m.Valid() && BlockOk(b) && CursorOk(b, s) && s.pos + b.minMatch < b.end && m.Holds(b.end)
    requires m.c == b.c && s.pos == pos && s.tabs == m.View() && s.reps == m.reps
    modifies m.Repr()
    ensures m.Valid() && Pick(at, f, rep, inserted, m.View()) == Lazy(b, s)
  {
    hide TryRep, Chain, Good, Sized, Greedy, Insert, Cheaper;
    ghost var g := Greedy(b, s);
    var f0, rep0 := PickGreedy(m, b, s, pos);
    at, f, rep, inserted := pos, f0, rep0, false;
    if b.mode != Fast && f0.len >= b.minMatch && f0.len < 8 && pos + 1 + b.minMatch < b.end {
      m.InsertAt(b.data, pos, b.end);
      inserted := true;
      var chain := m.ChainMatch(b.data, pos + 1, b.end);
      var r := NONE;
      if !b.c.noRep {
        r := m.TryRepMatch(b.data, pos + 1, b.end);
      }
      var later := if r.len > chain.len then r else chain;
      if later.len >= b.minMatch && Cheaper(b.mode, later, r.len > 0, f0, rep0) {
        at, f, rep, inserted := pos + 1, later, r.len > 0, false;
      }
    }
  }

  // ---------------------------------------------------------------- the block

  /** Insertion after an emitted match. */
  method InsertEmitted(m: Matcher, b: Block, ghost k: Pick, at: nat, len: nat, inserted: bool)
    requires m.Valid() && BlockOk(b) && m.Holds(b.end) && m.c == b.c
    requires k.tabs == m.View() && k.pos == at && k.f.len == len >= 3 && k.inserted == inserted
    modifies m.Repr()
    ensures m.Valid() && m.View() == InsertMatch(b, k)
  {
    hide InsertRange, Sized;
    var first := if inserted then at + 1 else at;
    if len >= 16 {
      m.InsertAll(b.data, first, at + 3, b.end);
      m.InsertAll(b.data, at + len - 3, at + len, b.end);
    } else {
      m.InsertAll(b.data, first, at + len, b.end);
    }
  }

  /** Step 4 of compress_block with a match: the new end of the tokens, if there is room. */
  method EmitMatch(m: Matcher, b: Block, ghost s: Cursor, ghost k: Pick, lit: nat, at: nat, f: Found, inserted: bool,
                   dst: array<byte>, at0: nat)
    returns (ok: bool, op: nat)
    requires m.Valid() && BlockOk(b) && CursorOk(b, s) && m.c == b.c && m.Holds(b.end)
    requires lit == s.lit <= at && f.len >= b.minMatch && at + f.len <= b.end
    requires k.tabs == m.View() && k.pos == at && k.f == f && k.inserted == inserted && m.reps == s.reps
    requires at0 <= b.cap <= dst.Length && s.out == dst[..at0] && dst !in m.Repr() && RepsWithin(m.reps, b.c.maxDist)
    requires f.off <= b.c.maxDist
    modifies m`reps, m.Repr(), dst
    ensures m.Valid() && ok == Take(b, s, k).Next? && RepsWithin(m.reps, b.c.maxDist)
    ensures ok ==> op <= b.cap
    ensures ok ==> Take(b, s, k).s == Cursor(at + f.len, at + f.len, 0, s.matches + 1, m.reps, m.View(), dst[..op])
  {
    hide Sequence, InsertMatch, Needed, Sized;
    var lits := b.data[lit..at];
    ok, op := false, at0;
    if at0 + Needed(|lits|, f.len) <= b.cap {
      SequenceFits(b.c.ob, b.minMatch, lits, f.len, f.off);
      op := EmitSeq(dst, at0, lits, f.len, f.off, b.c.ob, b.minMatch);
      InsertEmitted(m, b, k, at, f.len, inserted);
      m.reps := RepNext(m.reps, f.off);
      ok := true;
    }
  }

  /** Step 4 of compress_block without a match: the next position and the count of failures, or the early end. */
  method MoveAhead(m: Matcher, b: Block, ghost s: Cursor, ghost k: Pick, at: nat, inserted: bool, failures: nat,
                   matches: nat)
    returns (bail: bool, pos: nat, more: nat)
    requires m.Valid() && BlockOk(b) && CursorOk(b, s) && m.c == b.c && m.Holds(b.end) && s.lit <= at < b.end
    requires k.tabs == m.View() && k.pos == at && k.inserted == inserted && s.failures == failures
             && s.matches == matches
    requires failures <= at - b.start && b.end + (b.end - b.start) <= INT32_MAX && b.start <= at
    modifies m.Repr()
    ensures m.Valid() && bail == Skip(b, s, k).Bail?
    ensures !bail ==> Skip(b, s, k) == Next(s.(pos := pos, failures := more, tabs := m.View()))
    ensures !bail ==> pos <= INT32_MAX && more <= pos - b.start
  {
    hide Insert, Sized, Stride;
    if !inserted {
      m.InsertAt(b.data, at, b.end);
    }
    bail, more := false, failures;
    if m.c.accel == 0 {
      pos := at + 1;
    } else {
      StrideFits(b, failures);
      pos, more := at + Stride(b, failures), failures + 1;
      bail := matches == 0 && pos >= b.start + BAIL;
    }
  }

  /** compress_block: the number of token bytes, or 0. */
  method CompressBlock(m: Matcher, mode: Mode, data: seq<byte>, start: nat, end: nat, minMatch: nat, dst: array<byte>,
                       cap: nat)
    returns (n: nat)
    requires m.Valid() && start <= end <= |data| && 3 <= minMatch <= 4 && m.Holds(end)
             && RepsWithin(m.reps, m.c.maxDist)
    requires cap <= dst.Length && dst !in m.Repr() && end + (end - start) <= INT32_MAX
    modifies m`reps, m.Repr(), dst
    ensures m.Valid() && RepsWithin(m.reps, m.c.maxDist)
    ensures match ParseBlock(Block(m.c, mode, data, start, end, minMatch, cap), old(m.reps), old(m.View()))
            case Nothing => n == 0
            case Tokens(out, reps, tabs) =>
              n == |out| > 0 && n <= cap && dst[..n] == out && m.reps == reps && m.View() == tabs
  {
    hide Lazy, Sequence, Take, Skip, InsertMatch, Insert, Needed, NeededLast, Sized, Stride, Good, ParseFrom;
    var b := Block(m.c, mode, data, start, end, minMatch, cap);
    var pos: nat, lit: nat, failures: nat, matches: nat, op: nat := start, start, 0, 0, 0;
    ghost var s := Begin(b, m.reps, m.View());
    ghost var goal := ParseFrom(b, s);
    while pos + minMatch < end
      invariant m.Valid() && CursorOk(b, s) && RepsWithin(m.reps, m.c.maxDist) && op <= cap
      invariant s == Cursor(pos, lit, failures, matches, m.reps, m.View(), dst[..op])
      invariant ParseFrom(b, s) == goal && start <= pos && failures <= pos - start
      decreases end - pos
    {
      ParseStep(b, s);
      var at, f, rep, inserted := PickLazy(m, b, s, pos);
      ghost var k := Pick(at, f, rep, inserted, m.View());
      if f.len >= minMatch {
        GoodEnds(b, at, f);
        var ok;
        ok, op := EmitMatch(m, b, s, k, lit, at, f, inserted, dst, op);
        if !ok {
          return 0;
        }
        pos, lit, failures, matches := at + f.len, at + f.len, 0, matches + 1;
      } else {
        var bail;
        bail, pos, failures := MoveAhead(m, b, s, k, at, inserted, failures, matches);
        if bail {
          return 0;
        }
      }
      s := Move(b, s).s;
    }
    ParseStop(b, s);
    var lits := data[lit..end];
    if op + NeededLast(|lits|) > cap {
      return 0;
    }
    LastFits(b.c.ob, minMatch, lits);
    n := EmitSeq(dst, op, lits, 0, 0, b.c.ob, minMatch);
  }

  /** A stride does not outgrow the failures before it. */
  lemma StrideFits(b: Block, failures: nat)
    requires b.c.accel <= MAX_ACCEL
    ensures Stride(b, failures) <= 1 + failures
  {
    MulMonotone(failures, b.c.accel, MAX_ACCEL);
  }

  lemma GoodEnds(b: Block, pos: nat, f: Found)
    requires Good(b.c, b.data, pos, b.end, f) && f.len > 0
    ensures pos + f.len <= b.end && f.off <= b.c.maxDist
  {
  }

  lemma ParseStep(b: Block, s: Cursor)
    requires BlockOk(b) && CursorOk(b, s) && RepsWithin(s.reps, b.c.maxDist) && s.pos + b.minMatch < b.end
    ensures ParseFrom(b, s) == if Move(b, s).Next? then ParseFrom(b, Move(b, s).s) else Nothing
  {
    hide Move;
  }

  lemma ParseStop(b: Block, s: Cursor)
    requires BlockOk(b) && CursorOk(b, s) && RepsWithin(s.reps, b.c.maxDist) && s.pos + b.minMatch >= b.end
    ensures ParseFrom(b, s) == Finish(b, s)
  {
  }
}
