/** Sequences as three interleaved tANS streams with extra bits: encoded backward, decoded forward. */
module SeqStream {
  import opened Arithmetic
  import opened LittleEndian
  import opened Bits
  import opened AnsTable
  import opened AnsStream
  import opened SeqCodes
  import opened SeqParse

  /** The three streams a sequence is spread over. */
  datatype Stream = Lits | Offs | Lens(kind: Kind)

  /** Number of codes a stream can have. */
  function CodeCount(x: Stream): (n: nat)
    ensures n <= NSYM
  {
    if x == Offs then OF_CODES else CODES
  }

  function ExtraBits(x: Stream, sym: nat): (nb: nat)
    requires sym < CodeCount(x)
    ensures nb <= 23
  {
    match x
    case Lits => Extra(LL, sym)
    case Offs => OfExtra(sym)
    case Lens(k) => Extra(k, sym)
  }

  /** A frequency table that only knows the codes of its stream. */
  predicate TableOf(x: Stream, norm: seq<nat>) {
    IsTable(norm) && forall s :: CodeCount(x) <= s < NSYM ==> norm[s] == 0
  }

  lemma SymbolInRange(x: Stream, norm: seq<nat>, slot: nat)
    requires TableOf(x, norm) && slot < ANS_L
    ensures DecEntry(norm, slot).symbol < CodeCount(x)
  {
    OccBelow(norm, slot);
  }

  // ---------------------------------------------------------------- one code with its extra bits

  datatype Taken = Taken(state: nat, sym: nat, extra: nat, rest: nat)

  /** Reads one code and its extra bits; the state is masked on access. */
  function TakeCode(x: Stream, norm: seq<nat>, state: nat, v: nat): (t: Taken)
    requires TableOf(x, norm)
    ensures t.state < ANS_L && t.sym < CodeCount(x) && t.extra < Pow2(ExtraBits(x, t.sym))
  {
    SymbolInRange(x, norm, state % ANS_L);
    var c := AnsStream.Next(norm, Cursor(state % ANS_L, v));
    var sym := DecEntry(norm, state % ANS_L).symbol;
    var nb := ExtraBits(x, sym);
    Taken(c.state, sym, c.rest % Pow2(nb), Over(c.rest, Pow2(nb)))
  }

  /** The fields' bits with the number tail above them. */
  function FieldsNum(fs: seq<Field>, tail: nat): (v: nat) {
    StreamNum(fs) + Times(Pow2(StreamBits(fs)), tail)
  }

  /** Extra bits are stored only when there are any, and only as many as the code has. */
  function ExtraField(c: Code): (fs: seq<Field>) { if c.nb > 0 then [Field(c.extra % Pow2(c.nb), c.nb)] else [] }

  /** The fields of one code met in encoder state y. */
  function CodeFields(norm: seq<nat>, y: nat, c: Code): (fs: seq<Field>)
    requires IsTable(norm) && y < ANS_L && c.sym < NSYM && norm[c.sym] > 0
  {
    [EncField(norm, y, c.sym)] + ExtraField(c)
  }

  predicate CodeOk(x: Stream, c: Code) {
    c.sym < CodeCount(x) && c.nb == ExtraBits(x, c.sym) && c.extra < Pow2(c.nb)
  }

  lemma TakeExtra(c: Code, fs: seq<Field>, tail: nat)
    requires c.extra < Pow2(c.nb)
    ensures var v := FieldsNum(ExtraField(c) + fs, tail);
            v % Pow2(c.nb) == c.extra && Over(v, Pow2(c.nb)) == FieldsNum(fs, tail)
  {
    hide StreamNum, StreamBits, FieldsNum, Times;
    var all := ExtraField(c) + fs;
    if c.nb > 0 {
      DivModUnique(c.extra, Pow2(c.nb), 0, c.extra);
      PopField(all, tail);
      assert all[1..] == fs;
      TakeField(FieldsNum(all, tail), all[0], FieldsNum(fs, tail));
    } else {
      assert all == fs;
      DivModUnique(FieldsNum(fs, tail), 1, FieldsNum(fs, tail), 0);
    }
  }

  lemma PopField(fs: seq<Field>, tail: nat)
    requires fs != []
    ensures FieldsNum(fs, tail) == fs[0].val + Pow2(fs[0].nb) * FieldsNum(fs[1..], tail)
  {
    hide StreamNum, StreamBits, Times, Pow2;
    StreamTail(fs, tail);
  }

  /** Taking the code that was encoded last brings back the code and the encoder state before it. */
  lemma TakeCodeBack(x: Stream, norm: seq<nat>, xs: seq<byte>, c: Code, fs: seq<Field>, tail: nat)
    requires TableOf(x, norm) && Covered(norm, xs) && xs != [] && xs[0] == c.sym && CodeOk(x, c)
    ensures var y := FinalState(norm, xs[1..]);
            TakeCode(x, norm, FinalState(norm, xs), FieldsNum(CodeFields(norm, y, c) + fs, tail))
            == Taken(y, c.sym, c.extra, FieldsNum(fs, tail))
  {
    hide DecEntry, EncSlot, EncField, FinalState, Emitted, AnsStream.Next, StreamNum, StreamBits, Pow2, FieldsNum,
         ExtraField, Encodable;
    EncodeUnfold(norm, xs);
    var y := FinalState(norm, xs[1..]);
    DecodeUndoesEncode(norm, y, xs[0]);
    var f, rest := EncField(norm, y, c.sym), ExtraField(c) + fs;
    var all := CodeFields(norm, y, c) + fs;
    assert all == [f] + rest;
    PopField(all, tail);
    assert all[1..] == rest;
    NextOf(norm, EncSlot(norm, y, xs[0]), f, FieldsNum(all, tail), FieldsNum(rest, tail));
    TakeExtra(c, fs, tail);
  }

  // ---------------------------------------------------------------- encoding

  /** A sequence's codes; the offset and length codes only mean something when there is a match. */
  datatype Coded = Coded(ll: Code, off: Code, len: Code, matched: bool)

  /** Lengths the code tables can represent and an offset the wire can carry. */
  predicate Representable(k: Kind, q: Seq) {
    && q.litlen <= LL_MAX
    && (q.matchlen > 0 ==> Base(k, 0) <= q.matchlen < Limit(k) && 0 < q.offset < 0x100_0000)
  }

  function CodeSeq(k: Kind, r: Reps, q: Seq): (c: Coded)
    requires q.matchlen > 0 ==> q.matchlen >= Base(k, 0)
  {
    if q.matchlen > 0 then Coded(Encode(LL, q.litlen), OfEncode(r, q.offset), Encode(k, q.matchlen), true)
    else Coded(Encode(LL, q.litlen), Code(0, 0, 0), Code(0, 0, 0), false)
  }

  function RepAfter(r: Reps, q: Seq): (s: Reps) { if q.matchlen > 0 then RepNext(r, q.offset) else r }

  /** The forward pass: codes of all sequences, with the rep history carried along. */
  function CodeAll(k: Kind, seqs: seq<Seq>, r: Reps): (cs: seq<Coded>)
    requires forall q :: q in seqs && q.matchlen > 0 ==> q.matchlen >= Base(k, 0)
    ensures |cs| == |seqs|
  {
    if seqs == [] then [] else [CodeSeq(k, r, seqs[0])] + CodeAll(k, seqs[1..], RepAfter(r, seqs[0]))
  }

  /** The symbols of one stream, in order. */
  function Symbols(x: Stream, cs: seq<Coded>): (xs: seq<byte>)
    requires forall c :: c in cs ==> CodedOk(c)
  {
    if cs == [] then []
    else
      var c := cs[0];
      assert CodedOk(c);
      (match x
       case Lits => [c.ll.sym]
       case Offs => if c.matched then [c.off.sym] else []
       case Lens(_) => if c.matched then [c.len.sym] else [])
      + Symbols(x, cs[1..])
  }

  /** Codes of the three alphabets with extra bits of the widths that occur. */
  predicate CodedOk(c: Coded) {
    c.ll.sym < CODES && c.off.sym < OF_CODES && c.len.sym < CODES && c.ll.nb <= 15 && c.off.nb <= 23 && c.len.nb <= 15
  }

  predicate AllCoded(cs: seq<Coded>) { forall c :: c in cs ==> CodedOk(c) }

  /** Frequency tables of the three streams. */
  datatype Tables = Tables(ll: seq<nat>, off: seq<nat>, len: seq<nat>)

  /** A stream with symbols has a table that covers them. */
  predicate StreamCovered(x: Stream, norm: seq<nat>, cs: seq<Coded>) {
    AllCoded(cs) && (Symbols(x, cs) != [] ==> TableOf(x, norm) && Covered(norm, Symbols(x, cs)))
  }

  predicate AllCovered(t: Tables, k: Kind, cs: seq<Coded>) {
    StreamCovered(Lits, t.ll, cs) && StreamCovered(Offs, t.off, cs) && StreamCovered(Lens(k), t.len, cs)
  }

  /** The encoder's state of a stream after all of cs has been encoded, last sequence first. */
  function StateOf(x: Stream, norm: seq<nat>, cs: seq<Coded>): (y: nat)
    requires StreamCovered(x, norm, cs)
    ensures y < ANS_L
  {
    if Symbols(x, cs) == [] then 0 else FinalState(norm, Symbols(x, cs))
  }

  lemma CoveredRest(x: Stream, norm: seq<nat>, cs: seq<Coded>)
    requires StreamCovered(x, norm, cs) && cs != []
    ensures StreamCovered(x, norm, cs[1..])
  {
    var xs, ys := Symbols(x, cs), Symbols(x, cs[1..]);
    assert ys == xs[|xs| - |ys|..];
  }

  lemma AllCoveredRest(t: Tables, k: Kind, cs: seq<Coded>)
    requires AllCovered(t, k, cs) && cs != []
    ensures AllCovered(t, k, cs[1..])
  {
    hide StreamCovered;
    CoveredRest(Lits, t.ll, cs);
    CoveredRest(Offs, t.off, cs);
    CoveredRest(Lens(k), t.len, cs);
  }

  /** The code a stream has in a sequence. */
  function CodeIn(x: Stream, c: Coded): (d: Code) {
    match x case Lits => c.ll case Offs => c.off case Lens(_) => c.len
  }

  /** The fields a sequence adds to one stream. */
  function FieldsIn(x: Stream, norm: seq<nat>, cs: seq<Coded>): (fs: seq<Field>)
    requires StreamCovered(x, norm, cs) && cs != [] && (x != Lits ==> cs[0].matched)
  {
    SymbolsHead(x, cs);
    CoveredRest(x, norm, cs);
    CodeFields(norm, StateOf(x, norm, cs[1..]), CodeIn(x, cs[0]))
  }

  lemma SymbolsHead(x: Stream, cs: seq<Coded>)
    requires AllCoded(cs) && cs != [] && (x != Lits ==> cs[0].matched)
    ensures Symbols(x, cs) != [] && Symbols(x, cs)[0] == CodeIn(x, cs[0]).sym
    ensures Symbols(x, cs)[1..] == Symbols(x, cs[1..])
  {
    assert CodedOk(cs[0]);
  }

  /** All fields in the order the decoder reads them: literal run, then offset and length of a match. */
  function SeqFields(t: Tables, k: Kind, cs: seq<Coded>): (fs: seq<Field>)
    requires AllCovered(t, k, cs)
  {
    if cs == [] then []
    else
      AllCoveredRest(t, k, cs);
      FieldsIn(Lits, t.ll, cs)
      + (if cs[0].matched then FieldsIn(Offs, t.off, cs) + FieldsIn(Lens(k), t.len, cs) else [])
      + SeqFields(t, k, cs[1..])
  }

  /** Taking one code off a stream that still has a symbol in the first sequence. */
  lemma TakeStream(x: Stream, norm: seq<nat>, cs: seq<Coded>, fs: seq<Field>, tail: nat)
    requires StreamCovered(x, norm, cs) && cs != [] && (x != Lits ==> cs[0].matched) && CodeOk(x, CodeIn(x, cs[0]))
    ensures TableOf(x, norm) && StreamCovered(x, norm, cs[1..])
    ensures var c := CodeIn(x, cs[0]);
            TakeCode(x, norm, StateOf(x, norm, cs), FieldsNum(FieldsIn(x, norm, cs) + fs, tail))
            == Taken(StateOf(x, norm, cs[1..]), c.sym, c.extra, FieldsNum(fs, tail))
  {
    hide Symbols, FieldsNum, TakeCode, CodeFields, CodeOk, Covered, TableOf;
    SymbolsHead(x, cs);
    CoveredRest(x, norm, cs);
    EmptyState(norm);
    TakeCodeBack(x, norm, Symbols(x, cs), CodeIn(x, cs[0]), fs, tail);
  }

  lemma EmptyState(norm: seq<nat>)
    ensures IsTable(norm) && Covered(norm, []) ==> FinalState(norm, []) == 0
  {
  }

  lemma UnmatchedState(x: Stream, norm: seq<nat>, cs: seq<Coded>)
    requires cs != [] && x != Lits && StreamCovered(x, norm, cs) && !cs[0].matched
    ensures StreamCovered(x, norm, cs[1..]) && StateOf(x, norm, cs) == StateOf(x, norm, cs[1..])
  {
    assert CodedOk(cs[0]);
    assert Symbols(x, cs) == Symbols(x, cs[1..]);
  }

  /** Encoding the first sequence's code takes the state of the rest to the state of the whole. */
  lemma MatchedState(x: Stream, norm: seq<nat>, cs: seq<Coded>)
    requires cs != [] && StreamCovered(x, norm, cs) && (x == Lits || cs[0].matched)
    ensures TableOf(x, norm) && StreamCovered(x, norm, cs[1..])
    ensures CodeIn(x, cs[0]).sym < NSYM && norm[CodeIn(x, cs[0]).sym] > 0
    ensures StateOf(x, norm, cs) == EncSlot(norm, StateOf(x, norm, cs[1..]), CodeIn(x, cs[0]).sym)
    ensures FieldsIn(x, norm, cs) == CodeFields(norm, StateOf(x, norm, cs[1..]), CodeIn(x, cs[0]))
  {
    hide Symbols, EncSlot, CodeFields;
    SymbolsHead(x, cs);
    CoveredRest(x, norm, cs);
    EmptyState(norm);
  }

  // ---------------------------------------------------------------- size of the stream

  lemma CodeFieldsBits(norm: seq<nat>, y: nat, c: Code)
    requires IsTable(norm) && AnsTable.Encodable(norm, y, c.sym) && c.nb <= 23
    ensures FieldsOk(CodeFields(norm, y, c)) && StreamBits(CodeFields(norm, y, c)) <= 12 + c.nb
  {
    hide EncField, EncSlot, DecEntry;
    DecodeUndoesEncode(norm, y, c.sym);
    StreamConcat([EncField(norm, y, c.sym)], ExtraField(c));
    assert [EncField(norm, y, c.sym)][1..] == [];
    if c.nb > 0 {
      assert ExtraField(c)[1..] == [];
    }
  }

  lemma FieldsInBits(x: Stream, norm: seq<nat>, cs: seq<Coded>)
    requires StreamCovered(x, norm, cs) && cs != [] && (x != Lits ==> cs[0].matched)
    ensures FieldsOk(FieldsIn(x, norm, cs)) && StreamBits(FieldsIn(x, norm, cs)) <= if x == Offs then 35 else 27
  {
    hide Symbols, EncSlot, CodeFields, StreamBits, EncField;
    MatchedState(x, norm, cs);
    SymbolsHead(x, cs);
    EmptyState(norm);
    EncodeUnfold(norm, Symbols(x, cs));
    assert CodedOk(cs[0]);
    CodeFieldsBits(norm, StateOf(x, norm, cs[1..]), CodeIn(x, cs[0]));
  }

  /** A sequence takes at most 89 bits. */
  lemma {:induction false} SeqFieldsBits(t: Tables, k: Kind, cs: seq<Coded>)
    requires AllCovered(t, k, cs)
    ensures FieldsOk(SeqFields(t, k, cs)) && StreamBits(SeqFields(t, k, cs)) <= 89 * |cs|
  {
    hide FieldsIn, StreamBits;
    if cs == [] {
      NoBits();
    } else {
      AllCoveredRest(t, k, cs);
      SeqFieldsBits(t, k, cs[1..]);
      FieldsInBits(Lits, t.ll, cs);
      var a, b, rest := FieldsIn(Lits, t.ll, cs), MatchPart(t, k, cs), SeqFields(t, k, cs[1..]);
      MatchPartBits(t, k, cs);
      StreamConcat(a, b);
      StreamConcat(a + b, rest);
    }
  }

  lemma NoBits()
    ensures StreamBits([]) == 0
  {
  }

  function MatchPart(t: Tables, k: Kind, cs: seq<Coded>): (fs: seq<Field>)
    requires AllCovered(t, k, cs) && cs != []
  {
    if cs[0].matched then FieldsIn(Offs, t.off, cs) + FieldsIn(Lens(k), t.len, cs) else []
  }

  lemma MatchPartBits(t: Tables, k: Kind, cs: seq<Coded>)
    requires AllCovered(t, k, cs) && cs != []
    ensures FieldsOk(MatchPart(t, k, cs)) && StreamBits(MatchPart(t, k, cs)) <= 62
  {
    hide FieldsIn, StreamBits;
    if cs[0].matched {
      FieldsInBits(Offs, t.off, cs);
      FieldsInBits(Lens(k), t.len, cs);
      StreamConcat(FieldsIn(Offs, t.off, cs), FieldsIn(Lens(k), t.len, cs));
    } else {
      NoBits();
    }
  }
}
