/** The sequence decoder: with every check on, with the safe zone, and against the meaning of the sequences. */
module SeqDecode {
  import opened Arithmetic
  import opened LittleEndian
  import opened Bits
  import opened Lz
  import opened SeqCodes
  import opened SeqParse
  import opened SeqStream

  /** A block's tables, literals and match count, and where its output lies: from start to end after the frame's
      first byte. */
  datatype Block = Block(kind: Kind, t: Tables, lits: seq<byte>, matches: nat, maxOffset: nat, start: nat, end: nat)

  /** The tables the loop consults have passed validation. */
  predicate BlockOk(b: Block) {
    && b.start <= b.end && b.kind != LL
    && (|b.lits| > 0 || b.matches > 0 ==> TableOf(Lits, b.t.ll))
    && (b.matches > 0 ==> TableOf(Offs, b.t.off) && TableOf(Lens(b.kind), b.t.len))
  }

  /** The decoder: three states, the bits to come, the rep history, literals and matches used, and the output so far
      with the history before it. */
  datatype State = State(ll: nat, off: nat, len: nat, rest: nat, reps: Reps, lit: nat, done: nat, h: seq<byte>)

  predicate StateOk(b: Block, s: State) {
    s.lit <= |b.lits| && s.done <= b.matches && b.start <= |s.h| <= b.end
  }

  predicate More(b: Block, s: State) { s.lit < |b.lits| || s.done < b.matches }

  const MAX_RUN: nat := 65535
  const MAX_SEQ_WRITE: nat := 131070

  /** Where the position-dependent checks are skipped: max_offset bytes of history behind, two longest runs ahead. */
  predicate InZone(b: Block, op: nat) {
    && b.end >= b.start + MAX_SEQ_WRITE
    && (b.start >= b.maxOffset || b.maxOffset - b.start <= b.end - b.start)
    && (if b.start >= b.maxOffset then b.start else b.maxOffset) <= op <= b.end - MAX_SEQ_WRITE
  }

  datatype Outcome = Go(s: State) | Stop(why: Error)

  /** The literal run of one sequence. Without checks it still stays inside the output. */
  function LitStep(b: Block, checked: bool, s: State): (r: Outcome)
    requires BlockOk(b) && StateOk(b, s) && More(b, s) && (checked || InZone(b, |s.h|))
    ensures r.Go? ==> StateOk(b, r.s) && |s.h| <= |r.s.h| <= |s.h| + MAX_RUN
    ensures r.Go? ==> r.s.lit - s.lit == |r.s.h| - |s.h| && r.s.done == s.done
  {
    var t := TakeCode(Lits, b.t.ll, s.ll, s.rest);
    var n := Base(LL, t.sym) + t.extra;
    DecodedBound(LL, t.sym, t.extra);
    if n > |b.lits| - s.lit then Stop(Corrupt)
    else if checked && n > b.end - |s.h| then Stop(Overflow)
    else Go(s.(ll := t.state, rest := t.rest, lit := s.lit + n, h := s.h + b.lits[s.lit..s.lit + n]))
  }

  /** The match of one sequence. Without checks every offset still points into the output and no copy passes its end. */
  function MatchStep(b: Block, checked: bool, s: State): (r: Outcome)
    requires BlockOk(b) && StateOk(b, s) && s.done < b.matches
    requires checked || b.maxOffset <= |s.h| <= b.end - MAX_RUN
    ensures r.Go? ==> StateOk(b, r.s) && r.s.done == s.done + 1 && r.s.lit == s.lit
  {
    var o := TakeCode(Offs, b.t.off, s.off, s.rest);
    var off := OfDecode(s.reps, o.sym, o.extra);
    var m := TakeCode(Lens(b.kind), b.t.len, s.len, o.rest);
    var n := Base(b.kind, m.sym) + m.extra;
    DecodedBound(b.kind, m.sym, m.extra);
    if off == 0 || off > b.maxOffset then Stop(Corrupt)
    else if checked && off > |s.h| then Stop(Corrupt)
    else if checked && n > b.end - |s.h| then Stop(Overflow)
    else Go(s.(off := o.state, len := m.state, rest := m.rest, reps := RepNext(s.reps, off), done := s.done + 1,
               h := CopyMatch(s.h, off, n)))
  }

  /** One round of the loop. */
  function Step(b: Block, checked: bool, s: State): (r: Outcome)
    requires BlockOk(b) && StateOk(b, s) && More(b, s) && (checked || InZone(b, |s.h|))
    ensures r.Go? ==> StateOk(b, r.s)
  {
    match LitStep(b, checked, s)
    case Stop(why) => Stop(why)
    case Go(s1) => if s1.done >= b.matches then Go(s1) else MatchStep(b, checked, s1)
  }

  /** The whole loop with at most n rounds: all checks on, or skipping them in the safe zone. */
  function Loop(b: Block, fast: bool, s: State, n: nat): (r: Result)
    requires BlockOk(b) && StateOk(b, s)
    decreases n
  {
    if !More(b, s) then Done(s.h)
    else if n == 0 then Fail(Corrupt)
    else
      match Step(b, !(fast && InZone(b, |s.h|)), s)
      case Stop(why) => Fail(why)
      case Go(s1) => Loop(b, fast, s1, n - 1)
  }

  /** In the safe zone the skipped checks would all pass. */
  lemma ZoneStep(b: Block, s: State)
    requires BlockOk(b) && StateOk(b, s) && More(b, s) && InZone(b, |s.h|)
    ensures Step(b, false, s) == Step(b, true, s)
  {
    hide TakeCode, OfDecode, Base, CopyMatch, TableOf;
    var t := TakeCode(Lits, b.t.ll, s.ll, s.rest);
    DecodedBound(LL, t.sym, t.extra);
    assert LitStep(b, false, s) == LitStep(b, true, s);
    if LitStep(b, true, s).Go? {
      var s1 := LitStep(b, true, s).s;
      if s1.done < b.matches {
        var o := TakeCode(Offs, b.t.off, s1.off, s1.rest);
        var m := TakeCode(Lens(b.kind), b.t.len, s1.len, o.rest);
        DecodedBound(b.kind, m.sym, m.extra);
      }
    }
  }

  /** For every input the loop that skips checks in the safe zone gives the result of the loop that never does. */
  lemma {:induction false} SafeZone(b: Block, s: State, n: nat)
    requires BlockOk(b) && StateOk(b, s)
    ensures Loop(b, true, s, n) == Loop(b, false, s, n)
    decreases n
  {
    if More(b, s) && n > 0 {
      hide Step, InZone, More;
      if InZone(b, |s.h|) {
        ZoneStep(b, s);
      }
      if Step(b, true, s).Go? {
        SafeZone(b, Step(b, true, s).s, n - 1);
      }
    }
  }

  lemma ShortestMatch(k: Kind)
    requires k != LL
    ensures Base(k, 0) >= 3
  {
  }

  // ---------------------------------------------------------------- decoding what was encoded

  /** The decoder is about to read the encoding of seqs. */
  ghost predicate AtStart(b: Block, seqs: seq<Seq>, s: State, tail: nat) {
    && (forall q :: q in seqs ==> Representable(b.kind, q))
    && Shaped(seqs) && LitTotal(seqs) == |b.lits| - s.lit && MatchCount(seqs) == b.matches - s.done
    && AllCovered(b.t, b.kind, CodeAll(b.kind, seqs, s.reps))
    && AtCodes(b, CodeAll(b.kind, seqs, s.reps), s, tail)
  }

  ghost predicate AtCodes(b: Block, cs: seq<Coded>, s: State, tail: nat)
    requires AllCovered(b.t, b.kind, cs)
  {
    && s.ll == StateOf(Lits, b.t.ll, cs)
    && s.off == StateOf(Offs, b.t.off, cs)
    && s.len == StateOf(Lens(b.kind), b.t.len, cs)
    && s.rest == FieldsNum(SeqFields(b.t, b.kind, cs), tail)
  }

  lemma CodesOk(k: Kind, r: Reps, q: Seq)
    requires Representable(k, q)
    ensures var c := CodeSeq(k, r, q);
            && CodeOk(Lits, c.ll) && Base(LL, c.ll.sym) + c.ll.extra == q.litlen
            && (q.matchlen > 0 ==>
                  && CodeOk(Offs, c.off) && OfDecode(r, c.off.sym, c.off.extra) == q.offset
                  && CodeOk(Lens(k), c.len) && Base(k, c.len.sym) + c.len.extra == q.matchlen)
  {
    hide Extra, OfExtra, OfEncode, OfDecode, Pow2, Encode;
    LengthCode(LL, q.litlen);
    if q.matchlen > 0 {
      LengthCode(k, q.matchlen);
      OffsetBack(r, q.offset);
    }
  }

  lemma LengthCode(k: Kind, v: nat)
    requires Base(k, 0) <= v < Limit(k)
    ensures var c := Encode(k, v); c.sym < CODES && c.extra < Pow2(c.nb) && Base(k, c.sym) + c.extra == v
  {
    CodeBack(k, v);
    var c := Encode(k, v);
    DivModUnique(c.extra, Pow2(c.nb), 0, c.extra);
  }

  /** Without literals or matches to come, at most an empty entry is left. */
  lemma NothingLeft(p: Params, seqs: seq<Seq>, h: seq<byte>)
    requires ParamsOk(p) && Shaped(seqs) && LitTotal(seqs) == 0 && MatchCount(seqs) == 0 && |h| <= p.end
    ensures Run(p, seqs, [], h) == Done(h)
  {
    if seqs != [] {
      assert seqs[1..] == [];
      assert h + [] == h;
    }
  }

  lemma ShapedRest(seqs: seq<Seq>)
    requires Shaped(seqs) && seqs != []
    ensures Shaped(seqs[1..])
    ensures seqs[0].matchlen == 0 ==> MatchCount(seqs) == 0
    ensures seqs[0].litlen == 0 && seqs[0].matchlen == 0 ==> LitTotal(seqs) == 0
  {
    if seqs[0].matchlen == 0 {
      NoMatches(seqs);
    }
  }

  lemma {:induction false} NoMatches(seqs: seq<Seq>)
    requires forall i :: 0 <= i < |seqs| ==> seqs[i].matchlen == 0
    ensures MatchCount(seqs) == 0
  {
    if seqs != [] {
      NoMatches(seqs[1..]);
    }
  }

  /** The fields of the first sequence's match. */
  function MatchFields(b: Block, cs: seq<Coded>): (fs: seq<Field>)
    requires AllCovered(b.t, b.kind, cs) && cs != []
  {
    if cs[0].matched then FieldsIn(Offs, b.t.off, cs) + FieldsIn(Lens(b.kind), b.t.len, cs) else []
  }

  lemma FieldsUnfold(b: Block, cs: seq<Coded>)
    requires AllCovered(b.t, b.kind, cs) && cs != []
    ensures AllCovered(b.t, b.kind, cs[1..])
    ensures SeqFields(b.t, b.kind, cs)
            == FieldsIn(Lits, b.t.ll, cs) + (MatchFields(b, cs) + SeqFields(b.t, b.kind, cs[1..]))
  {
    hide FieldsIn, AllCovered;
    AllCoveredRest(b.t, b.kind, cs);
  }

  lemma LitStepBack(b: Block, seqs: seq<Seq>, s: State, tail: nat)
    requires BlockOk(b) && StateOk(b, s) && More(b, s) && seqs != [] && AtStart(b, seqs, s, tail)
    ensures var cs := CodeAll(b.kind, seqs, s.reps);
            var n := seqs[0].litlen;
            && n <= |b.lits| - s.lit
            && AllCovered(b.t, b.kind, cs[1..])
            && LitStep(b, true, s) ==
               (if n > b.end - |s.h| then Stop(Overflow)
                else Go(s.(ll := StateOf(Lits, b.t.ll, cs[1..]),
                           rest := FieldsNum(MatchFields(b, cs) + SeqFields(b.t, b.kind, cs[1..]), tail),
                           lit := s.lit + n, h := s.h + b.lits[s.lit..s.lit + n])))
  {
    hide TakeCode, FieldsNum, StateOf, FieldsIn, SeqFields, MatchFields, StreamCovered, Base, Shaped, Encode, OfEncode,
         CodeOk, TableOf;
    var cs := CodeAll(b.kind, seqs, s.reps);
    CodesOk(b.kind, s.reps, seqs[0]);
    assert cs[0] == CodeSeq(b.kind, s.reps, seqs[0]);
    FieldsUnfold(b, cs);
    TakeStream(Lits, b.t.ll, cs, MatchFields(b, cs) + SeqFields(b.t, b.kind, cs[1..]), tail);
  }

  lemma MatchStepBack(b: Block, cs: seq<Coded>, q: Seq, s: State, tail: nat)
    requires BlockOk(b) && StateOk(b, s) && s.done < b.matches
    requires Representable(b.kind, q) && q.matchlen > 0 && cs != [] && cs[0] == CodeSeq(b.kind, s.reps, q)
    requires AllCovered(b.t, b.kind, cs) && AllCovered(b.t, b.kind, cs[1..])
    requires s.off == StateOf(Offs, b.t.off, cs) && s.len == StateOf(Lens(b.kind), b.t.len, cs)
    requires s.rest == FieldsNum(MatchFields(b, cs) + SeqFields(b.t, b.kind, cs[1..]), tail)
    ensures MatchStep(b, true, s) ==
            (if q.offset > b.maxOffset || q.offset > |s.h| then Stop(Corrupt)
             else if q.matchlen > b.end - |s.h| then Stop(Overflow)
             else Go(s.(off := StateOf(Offs, b.t.off, cs[1..]), len := StateOf(Lens(b.kind), b.t.len, cs[1..]),
                        rest := FieldsNum(SeqFields(b.t, b.kind, cs[1..]), tail),
                        reps := RepNext(s.reps, q.offset), done := s.done + 1,
                        h := CopyMatch(s.h, q.offset, q.matchlen))))
  {
    hide TakeCode, FieldsNum, StateOf, FieldsIn, SeqFields, StreamCovered, Base, Encode, OfEncode, OfDecode, CodeOk,
         TableOf, CopyMatch, RepNext;
    CodesOk(b.kind, s.reps, q);
    var rest := SeqFields(b.t, b.kind, cs[1..]);
    var lens := FieldsIn(Lens(b.kind), b.t.len, cs);
    assert MatchFields(b, cs) + rest == FieldsIn(Offs, b.t.off, cs) + (lens + rest);
    TakeStream(Offs, b.t.off, cs, lens + rest, tail);
    TakeStream(Lens(b.kind), b.t.len, cs, rest, tail);
  }

  /** The rest of the sequences is again at its start, after the literals alone. */
  lemma AtRest(b: Block, seqs: seq<Seq>, s: State, s1: State, tail: nat)
    requires BlockOk(b) && StateOk(b, s) && seqs != [] && AtStart(b, seqs, s, tail)
    requires var cs := CodeAll(b.kind, seqs, s.reps);
             && AllCovered(b.t, b.kind, cs[1..])
             && AtCodes(b, cs[1..], s1, tail)
             && s1.reps == RepAfter(s.reps, seqs[0]) && s1.lit == s.lit + seqs[0].litlen
             && s1.done == s.done + (if seqs[0].matchlen > 0 then 1 else 0)
    ensures AtStart(b, seqs[1..], s1, tail)
  {
    hide AtCodes, AllCovered, RepAfter, CodeSeq;
    var cs := CodeAll(b.kind, seqs, s.reps);
    assert cs[1..] == CodeAll(b.kind, seqs[1..], s1.reps);
    ShapedRest(seqs);
  }

  /** What Run does with its first sequence. */
  lemma RunUnfold(p: Params, seqs: seq<Seq>, lits: seq<byte>, at: nat, h: seq<byte>)
    requires ParamsOk(p) && seqs != [] && at <= |lits| && seqs[0].litlen <= |lits| - at
    ensures var q := seqs[0];
            var h1 := h + lits[at..at + q.litlen];
            Run(p, seqs, lits[at..], h) ==
            if |h1| > p.end then Fail(Overflow)
            else if q.matchlen == 0 then Run(p, seqs[1..], lits[at + q.litlen..], h1)
            else if q.offset == 0 || q.offset > p.maxOffset || q.offset > |h1| then Fail(Corrupt)
            else if |h1| + q.matchlen > p.end then Fail(Overflow)
            else Run(p, seqs[1..], lits[at + q.litlen..], CopyMatch(h1, q.offset, q.matchlen))
  {
    hide CopyMatch;
    var n := seqs[0].litlen;
    assert lits[at..][..n] == lits[at..at + n] && lits[at..][n..] == lits[at + n..];
  }

  /** The three states and the shared bit stream stay in step through the whole block: with enough rounds the
      decoder computes exactly what the encoded sequences mean, errors included. */
  lemma {:induction false} LoopMeansRun(b: Block, p: Params, seqs: seq<Seq>, s: State, n: nat, tail: nat)
    requires BlockOk(b) && StateOk(b, s) && AtStart(b, seqs, s, tail)
    requires ParamsOk(p) && p.end == b.end && p.maxOffset == b.maxOffset
    requires n >= |b.lits| - s.lit + b.matches - s.done
    ensures Loop(b, false, s, n) == Run(p, seqs, b.lits[s.lit..], s.h)
    decreases |seqs|
  {
    hide LitStep, MatchStep, Run, AtCodes, AllCovered, CodeAll, Shaped, Representable, CopyMatch, StateOf, FieldsNum;
    if !More(b, s) {
      NothingLeft(p, seqs, s.h);
      assert b.lits[s.lit..] == [];
    } else {
      RoundMeans(b, p, seqs, s, tail);
      var r := Step(b, true, s);
      if r.Go? {
        LoopMeansRun(b, p, seqs[1..], r.s, n - 1, tail);
      }
    }
  }

  /** One round of the decoder is one sequence. */
  lemma RoundMeans(b: Block, p: Params, seqs: seq<Seq>, s: State, tail: nat)
    requires BlockOk(b) && StateOk(b, s) && AtStart(b, seqs, s, tail) && More(b, s)
    requires ParamsOk(p) && p.end == b.end && p.maxOffset == b.maxOffset
    ensures seqs != []
    ensures match Step(b, true, s)
            case Stop(why) => Run(p, seqs, b.lits[s.lit..], s.h) == Fail(why)
            case Go(s2) =>
              && Run(p, seqs, b.lits[s.lit..], s.h) == Run(p, seqs[1..], b.lits[s2.lit..], s2.h)
              && AtStart(b, seqs[1..], s2, tail)
              && s2.lit + s2.done > s.lit + s.done
  {
    hide LitStep, MatchStep, Run, Shaped, CopyMatch, StateOf, FieldsNum, SeqFields, FieldsIn, StreamCovered, Encode,
         OfEncode, RepNext, TableOf;
    assert seqs != [];
    var q := seqs[0];
    var cs := CodeAll(b.kind, seqs, s.reps);
    assert cs[0] == CodeSeq(b.kind, s.reps, q);
    assert Representable(b.kind, q);
    LitStepBack(b, seqs, s, tail);
    RunUnfold(p, seqs, b.lits, s.lit, s.h);
    ShapedRest(seqs);
    if LitStep(b, true, s).Go? {
      var s1 := LitStep(b, true, s).s;
      if q.matchlen == 0 {
        UnmatchedState(Offs, b.t.off, cs);
        UnmatchedState(Lens(b.kind), b.t.len, cs);
        assert [] + SeqFields(b.t, b.kind, cs[1..]) == SeqFields(b.t, b.kind, cs[1..]);
        AtRest(b, seqs, s, s1, tail);
      } else {
        MatchStepBack(b, cs, q, s1, tail);
        if MatchStep(b, true, s1).Go? {
          AtRest(b, seqs, s, MatchStep(b, true, s1).s, tail);
        }
      }
    }
  }
}
