/** The sequence decode loop on the output array, with wide copies and the safe zone, against the checked meaning. */
module SeqLoop {
  import opened LittleEndian
  import opened Bits
  import opened BitIO
  import opened AnsTable
  import opened AnsBuild
  import opened Lz
  import opened LzCopy
  import opened SeqCodes
  import opened SeqParse
  import opened SeqStream
  import opened SeqDecode
  import opened SeqMeaning

  /** Table load, state bits, then extra bits. */
  method ReadCode(x: Stream, ghost norm: seq<nat>, dec: array<Entry>, r: BitReader, state: nat)
    returns (next: nat, sym: nat, extra: nat)
    requires TableOf(x, norm) && dec.Length == ANS_L && dec[..] == DecTable(norm) && r.Valid()
    modifies r
    ensures r.Valid() && Taken(next, sym, extra, r.Rest()) == TakeCode(x, norm, state, old(r.Rest()))
  {
    hide Pow2, Num, Spread, WindowBits, WindowBase, IsTable, BitReader.RestOf;
    var slot := state % ANS_L;
    SymbolInRange(x, norm, slot);
    EntryBits(norm, slot);
    var e := dec[slot];
    assert e == DecTable(norm)[slot];
    var bits := r.Read(e.nbits);
    next, sym := e.baseline + bits, e.symbol;
    extra := r.Read(ExtraBits(x, sym));
  }

  lemma EntryBits(norm: seq<nat>, slot: nat)
    requires IsTable(norm) && slot < ANS_L
    ensures DecEntry(norm, slot).nbits <= ANS_LOG
  {
    OccBelow(norm, slot);
  }

  /** The inlined match copy: one wide store when there is room, chunks, or bytes. */
  method CopyTiers(dst: array<byte>, op: nat, offset: nat, len: nat, end: nat)
    requires 0 < offset <= op && op + len <= end <= dst.Length && len >= 3
    modifies dst
    ensures dst[..op + len] == CopyMatch(old(dst[..op]), offset, len)
    ensures forall i :: end <= i < dst.Length ==> dst[i] == old(dst[i])
  {
    if offset >= 16 {
      if 4 <= len <= 16 && op + 16 <= end {
        OverCopy(dst, op, offset, len, 16);
      } else if len == 3 && op + 16 <= end {
        MoveChunk(dst, op, offset, 3);
      } else {
        ChunkCopy(dst, op, offset, len, 16);
      }
    } else if offset >= 8 {
      if 4 <= len <= 8 && op + 8 <= end {
        OverCopy(dst, op, offset, len, 8);
      } else if len <= 8 && op + 8 <= end {
        MoveChunk(dst, op, offset, 3);
      } else {
        ChunkCopy(dst, op, offset, len, 8);
      }
    } else {
      ByteCopy(dst, op, offset, len);
    }
  }

  /** The literal run: sixteen bytes at once when there is room, else an exact copy. */
  method CopyRun(buf: seq<byte>, at: nat, dst: array<byte>, op: nat, n: nat, end: nat)
    requires at + n + 16 <= |buf| && op + n <= end <= dst.Length
    modifies dst
    ensures dst[..op + n] == old(dst[..op]) + buf[at..at + n]
    ensures forall i :: end <= i < dst.Length ==> dst[i] == old(dst[i])
  {
    if n <= 16 && op + 16 <= end {
      WildLiterals(buf, at, dst, op, n);
    } else {
      CopyLiterals(buf, at, dst, op, n);
    }
  }

  lemma SliceOfPrefix(buf: seq<byte>, k: nat, at: nat, n: nat)
    requires at + n <= k <= |buf|
    ensures buf[at..at + n] == buf[..k][at..at + n]
  {
  }

  datatype Status = Fine | Failed(why: Error)

  /** The fixed surroundings of the loop: the literal buffer with its slack and the three decode tables. */
  ghost predicate Ready(b: Block, buf: seq<byte>, dll: array<Entry>, doff: array<Entry>, dlen: array<Entry>)
    reads dll, doff, dlen
  {
    && BlockOk(b) && |buf| >= |b.lits| + 16 && buf[..|b.lits|] == b.lits
    && dll.Length == doff.Length == dlen.Length == ANS_L
    && (|b.lits| > 0 || b.matches > 0 ==> dll[..] == DecTable(b.t.ll))
    && (b.matches > 0 ==> doff[..] == DecTable(b.t.off) && dlen[..] == DecTable(b.t.len))
  }

  /** The literal half of a round; checks are skipped when zone is set. */
  method LitRound(b: Block, buf: seq<byte>, dll: array<Entry>, r: BitReader, dst: array<byte>, zone: bool,
                  sll: nat, op: nat, lit: nat, ghost s: State)
    returns (st: Status, ll: nat, op1: nat, lit1: nat)
    requires BlockOk(b) && More(b, s) && StateOk(b, s)
    requires |buf| >= |b.lits| + 16 && buf[..|b.lits|] == b.lits && dll.Length == ANS_L && dll[..] == DecTable(b.t.ll)
    requires r.Valid() && dst as object != dll && b.end <= dst.Length && (zone ==> InZone(b, |s.h|))
    requires s.ll == sll && s.rest == r.Rest() && s.lit == lit && op == |s.h| && dst[..op] == s.h
    modifies r, dst
    ensures r.Valid() && forall i :: b.end <= i < dst.Length ==> dst[i] == old(dst[i])
    ensures match LitStep(b, !zone, s)
      case Stop(why) => st == Failed(why)
      case Go(s1) => st == Fine && op1 <= dst.Length && dst[..op1] == s1.h
                     && s1 == s.(ll := ll, rest := r.Rest(), lit := lit1, h := dst[..op1])
  {
    hide TakeCode, TableOf, DecTable, InZone, Base;
    st, op1, lit1 := Fine, op, lit;
    var sym, extra;
    ll, sym, extra := ReadCode(Lits, b.t.ll, dll, r, sll);
    var n := Base(LL, sym) + extra;
    if n > |b.lits| - lit {
      st := Failed(Corrupt);
      return;
    }
    if !zone && n > b.end - op {
      st := Failed(Overflow);
      return;
    }
    assert LitStep(b, !zone, s).Go?;
    if n > 0 {
      CopyRun(buf, lit, dst, op, n, b.end);
      SliceOfPrefix(buf, |b.lits|, lit, n);
      op1, lit1 := op + n, lit + n;
    } else {
      assert b.lits[lit..lit] == [];
    }
  }

  /** The match half of a round. */
  method MatchRound(b: Block, doff: array<Entry>, dlen: array<Entry>, r: BitReader, dst: array<byte>, zone: bool,
                    soff: nat, slen: nat, reps: Reps, op: nat, ghost s: State)
    returns (st: Status, off1: nat, len1: nat, reps1: Reps, op1: nat)
    requires BlockOk(b) && StateOk(b, s) && s.done < b.matches
    requires doff.Length == ANS_L && doff[..] == DecTable(b.t.off) && dlen.Length == ANS_L
             && dlen[..] == DecTable(b.t.len)
    requires r.Valid() && dst as object != doff && dst as object != dlen && b.end <= dst.Length
    requires zone ==> b.maxOffset <= |s.h| <= b.end - MAX_RUN
    requires s.off == soff && s.len == slen && s.reps == reps && s.rest == r.Rest() && op == |s.h| && dst[..op] == s.h
    modifies r, dst
    ensures r.Valid() && forall i :: b.end <= i < dst.Length ==> dst[i] == old(dst[i])
    ensures match MatchStep(b, !zone, s)
      case Stop(why) => st == Failed(why)
      case Go(s1) => st == Fine && op1 <= dst.Length && dst[..op1] == s1.h
                     && s1 == s.(off := off1, len := len1, rest := r.Rest(), reps := reps1, done := s.done + 1,
                                 h := dst[..op1])
  {
    hide TakeCode, TableOf, DecTable, Base, OfDecode, CopyMatch, RepNext;
    st, op1, reps1 := Fine, op, reps;
    var sym, extra;
    off1, sym, extra := ReadCode(Offs, b.t.off, doff, r, soff);
    var off := OfDecode(reps, sym, extra);
    reps1 := RepNext(reps, off);
    len1, sym, extra := ReadCode(Lens(b.kind), b.t.len, dlen, r, slen);
    var n := Base(b.kind, sym) + extra;
    DecodedBound(b.kind, sym, extra);
    ShortestMatch(b.kind);
    if off == 0 || off > b.maxOffset {
      st := Failed(Corrupt);
      return;
    }
    if !zone && off > op {
      st := Failed(Corrupt);
      return;
    }
    if !zone && n > b.end - op {
      st := Failed(Overflow);
      return;
    }
    CopyTiers(dst, op, off, n, b.end);
    op1 := op + n;
  }

  /** The fields of the loop that are not on the output array. */
  datatype Regs = Regs(ll: nat, off: nat, len: nat, reps: Reps, lit: nat, done: nat)

  ghost function StateFrom(g: Regs, rest: nat, h: seq<byte>): (s: State) {
    State(g.ll, g.off, g.len, rest, g.reps, g.lit, g.done, h)
  }

  /** One round, in the zone or not, is the checked step. */
  method Round(b: Block, buf: seq<byte>, dll: array<Entry>, doff: array<Entry>, dlen: array<Entry>, r: BitReader,
               dst: array<byte>, zone: bool, op: nat, g: Regs, ghost s: State)
    returns (st: Status, op1: nat, g1: Regs)
    requires Ready(b, buf, dll, doff, dlen) && More(b, s) && StateOk(b, s) && (zone ==> InZone(b, |s.h|))
    requires r.Valid() && dst as object !in {dll, doff, dlen} && b.end <= dst.Length
    requires op <= dst.Length && s == StateFrom(g, r.Rest(), dst[..op])
    modifies r, dst
    ensures r.Valid() && forall i :: b.end <= i < dst.Length ==> dst[i] == old(dst[i])
    ensures Ready(b, buf, dll, doff, dlen)
    ensures match Step(b, true, s)
      case Stop(why) => st == Failed(why)
      case Go(s2) => st == Fine && op1 <= dst.Length && s2 == StateFrom(g1, r.Rest(), dst[..op1])
  {
    hide DecTable, TableOf, LitStep, MatchStep, InZone;
    g1 := g;
    if zone {
      ZoneStep(b, s);
    }
    var ll, lit;
    st, ll, op1, lit := LitRound(b, buf, dll, r, dst, zone, g.ll, op, g.lit, s);
    if st.Failed? {
      return;
    }
    g1 := g.(ll := ll, lit := lit);
    if g.done >= b.matches {
      return;
    }
    ZoneAfter(b, !zone, s);
    ghost var s1 := StateFrom(g1, r.Rest(), dst[..op1]);
    var off, len, reps;
    st, off, len, reps, op1 := MatchRound(b, doff, dlen, r, dst, zone, g.off, g.len, g.reps, op1, s1);
    g1 := g1.(off := off, len := len, reps := reps, done := g.done + 1);
  }

  /** After the literals of a round that began in the zone there is still room for a match and history for any
      offset. */
  lemma ZoneAfter(b: Block, checked: bool, s: State)
    requires BlockOk(b) && StateOk(b, s) && More(b, s) && (checked || InZone(b, |s.h|))
    ensures !checked && LitStep(b, checked, s).Go? ==> b.maxOffset <= |LitStep(b, checked, s).s.h| <= b.end - MAX_RUN
  {
  }

  /** in_safe_zone, from bounds computed once. */
  method ZoneBounds(b: Block) returns (some: bool, lo: nat, hi: nat)
    requires b.start <= b.end
    ensures forall op :: b.start <= op <= b.end ==> (InZone(b, op) <==> some && lo <= op <= hi)
  {
    var room := b.end - b.start >= MAX_SEQ_WRITE;
    hi := if room then b.end - MAX_SEQ_WRITE else b.start;
    var floor := false;
    lo := 0;
    if b.start >= b.maxOffset {
      floor, lo := true, b.start;
    } else if b.maxOffset - b.start <= b.end - b.start {
      floor, lo := true, b.maxOffset;
    }
    some := room && floor;
  }

  /** The decode loop: the result of the checked loop, for every input. */
  method DecodeLoop(b: Block, buf: seq<byte>, dll: array<Entry>, doff: array<Entry>, dlen: array<Entry>, r: BitReader,
                    sll: nat, soff: nat, slen: nat, dst: array<byte>)
    returns (st: Status, op: nat)
    requires BlockOk(b) && Ready(b, buf, dll, doff, dlen) && r.Valid()
    requires dst as object !in {dll, doff, dlen} && b.end <= dst.Length
    modifies r, dst
    ensures forall i :: b.end <= i < dst.Length ==> dst[i] == old(dst[i])
    ensures match Loop(b, false, State(sll, soff, slen, old(r.Rest()), NO_REPS, 0, 0, old(dst[..b.start])),
                       |b.lits| + b.matches + 16)
      case Fail(why) => st == Failed(why)
      case Done(h) => st == Fine && op <= dst.Length && dst[..op] == h
    ensures PlaysTo(b, Heads(sll, soff, slen, 0), old(r.Rest()), old(dst[..b.start]),
                    match st case Fine => Done(dst[..op]) case Failed(why) => Fail(why))
  {
    hide Ready, Step, InZone, Loop, TableOf, Num, PlaysTo;
    var some, lo, hi := ZoneBounds(b);
    var max := |b.lits| + b.matches + 16;
    var g := Regs(sll, soff, slen, NO_REPS, 0, 0);
    op, st := b.start, Fine;
    ghost var s0 := StateFrom(g, r.Rest(), dst[..op]);
    ghost var s := s0;
    BlockPlays(b, s0);
    var iter := 0;
    while g.lit < |b.lits| || g.done < b.matches
      invariant Ready(b, buf, dll, doff, dlen) && BlockOk(b) && r.Valid()
      invariant st == Fine && op <= dst.Length && s == StateFrom(g, r.Rest(), dst[..op]) && StateOk(b, s)
      invariant forall i :: b.end <= i < dst.Length ==> dst[i] == old(dst[i])
      invariant iter <= max && Loop(b, false, s, max - iter) == Loop(b, false, s0, max)
      decreases max - iter
    {
      iter := iter + 1;
      if iter > max {
        LoopUnfold(b, s, 0);
        return Failed(Corrupt), op;
      }
      LoopUnfold(b, s, max - iter + 1);
      r.Fill();
      var zone := some && lo <= op <= hi;
      st, op, g := Round(b, buf, dll, doff, dlen, r, dst, zone, op, g, s);
      if st.Failed? {
        return;
      }
      s := StateFrom(g, r.Rest(), dst[..op]);
    }
    LoopUnfold(b, s, max - iter);
  }

  lemma LoopUnfold(b: Block, s: State, n: nat)
    requires BlockOk(b) && StateOk(b, s)
    ensures !More(b, s) ==> Loop(b, false, s, n) == Done(s.h)
    ensures More(b, s) && n == 0 ==> Loop(b, false, s, n) == Fail(Corrupt)
    ensures More(b, s) && n > 0 ==>
      Loop(b, false, s, n)
        == match Step(b, true, s) case Stop(why) => Fail(why) case Go(s1) => Loop(b, false, s1, n - 1)
  {
  }
}
