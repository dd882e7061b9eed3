/** The encoder's two passes over the sequences and the backward bit stream. */
module SeqEncode {
  import opened Arithmetic
  import opened LittleEndian
  import opened Bits
  import opened BitIO
  import opened AnsTable
  import opened AnsNormalize
  import opened AnsBuild
  import opened AnsStream
  import opened AnsCodec
  import opened SeqCodes
  import opened SeqHistory
  import opened SeqParse
  import opened SeqStream

  // ---------------------------------------------------------------- forward pass

  /** Code counts of one stream: every code that occurs is counted, and no code outside the alphabet. */
  ghost predicate Counts(x: Stream, freq: seq<nat>, cs: seq<Coded>, n: nat) {
    && |freq| == NSYM && Cum(freq, NSYM) == n
    && AllCoded(cs) && freq == AnsCodec.Counts(SeqStream.Symbols(x, cs))
    && (forall s :: CodeCount(x) <= s < NSYM ==> freq[s] == 0)
    && (forall c :: c in cs && (x == Lits || c.matched) ==> CodeIn(x, c).sym < NSYM && freq[CodeIn(x, c).sym] > 0)
  }

  lemma CountOne(x: Stream, freq: seq<nat>, cs: seq<Coded>, n: nat, c: Coded)
    requires Counts(x, freq, cs, n) && CodedOk(c) && (x == Lits || c.matched) && CodeIn(x, c).sym < CodeCount(x)
    ensures var s := CodeIn(x, c).sym; Counts(x, freq[s := freq[s] + 1], cs + [c], n + 1)
  {
    hide Cum, CodedOk, SeqStream.Symbols, AnsCodec.Counts;
    var s := CodeIn(x, c).sym;
    CumUpdate(freq, s, freq[s] + 1, NSYM);
    SymbolsGrow(x, cs, c);
    CountLast(SeqStream.Symbols(x, cs), s);
  }

  lemma {:induction false} SymbolsGrow(x: Stream, cs: seq<Coded>, c: Coded)
    requires AllCoded(cs) && CodedOk(c)
    ensures AllCoded(cs + [c])
    ensures SeqStream.Symbols(x, cs + [c])
            == SeqStream.Symbols(x, cs) + if x == Lits || c.matched then [CodeIn(x, c).sym] else []
  {
    hide CodedOk;
    if cs == [] {
      assert [] + [c] == [c] && [c][1..] == [];
    } else {
      SymbolsGrow(x, cs[1..], c);
      assert (cs + [c])[1..] == cs[1..] + [c];
    }
  }

  lemma CountLast(xs: seq<byte>, b: byte)
    ensures AnsCodec.Counts(xs + [b]) == AnsCodec.Counts(xs)[b := AnsCodec.Counts(xs)[b] + 1]
  {
    var ys := xs + [b];
    assert ys[..|xs|] == xs && ys[..|xs| + 1] == ys;
    AnsCodec.CountOne(ys, |xs|);
  }

  lemma CountNone(x: Stream, freq: seq<nat>, cs: seq<Coded>, n: nat, c: Coded)
    requires Counts(x, freq, cs, n) && x != Lits && !c.matched && CodedOk(c)
    ensures Counts(x, freq, cs + [c], n)
  {
    SymbolsGrow(x, cs, c);
  }

  lemma CodesInRange(k: Kind, r: Reps, q: Seq)
    requires q.matchlen > 0 ==> q.matchlen >= SeqCodes.Base(k, 0) && q.offset < 0x100_0000
    ensures CodedOk(CodeSeq(k, r, q))
  {
    if q.matchlen > 0 {
      OffsetBack(r, q.offset);
    }
  }

  ghost predicate Codable(k: Kind, seqs: seq<Seq>) {
    forall q :: q in seqs && q.matchlen > 0 ==> q.matchlen >= SeqCodes.Base(k, 0) && q.offset < 0x100_0000
  }

  /** The codes of a sequence with a match, counted. */
  method CodeMatch(k: Kind, r: Reps, q: Seq, lit: Code, foff: seq<nat>, flen: seq<nat>, ghost cs: seq<Coded>,
                   ghost n: nat)
    returns (c: Coded, foff': seq<nat>, flen': seq<nat>)
    requires q.matchlen > 0 && q.matchlen >= SeqCodes.Base(k, 0) && q.offset < 0x100_0000 && CodedOk(CodeSeq(k, r, q))
    requires lit == CodeSeq(k, r, q).ll && Counts(Offs, foff, cs, n) && Counts(Lens(k), flen, cs, n)
    requires |foff| == |flen| == NSYM
    ensures c == CodeSeq(k, r, q) && |foff'| == |flen'| == NSYM
    ensures Counts(Offs, foff', cs + [c], n + 1) && Counts(Lens(k), flen', cs + [c], n + 1)
  {
    hide Encode, OfEncode, Counts, Cum;
    var len := Search(k, q.matchlen);
    c := Coded(lit, OfEncode(r, q.offset), len, true);
    CountOne(Offs, foff, cs, n, c);
    CountOne(Lens(k), flen, cs, n, c);
    foff', flen' := foff[c.off.sym := foff[c.off.sym] + 1], flen[c.len.sym := flen[c.len.sym] + 1];
  }

  /** Every offset is coded by what the offsets before it leave in memory, after those in offs. */
  ghost predicate NamedAfter(offs: seq<nat>, seqs: seq<Seq>, cs: seq<Coded>)
    decreases |seqs|
  {
    |cs| == |seqs|
    && (seqs != [] ==>
          if seqs[0].matchlen > 0 then
            Names(cs[0].off, offs, seqs[0].offset) && NamedAfter(offs + [seqs[0].offset], seqs[1..], cs[1..])
          else NamedAfter(offs, seqs[1..], cs[1..]))
  }

  lemma {:induction false} CodesName(k: Kind, seqs: seq<Seq>, r: Reps, offs: seq<nat>)
    requires Codable(k, seqs) && Remembers(r, offs)
    ensures NamedAfter(offs, seqs, CodeAll(k, seqs, r))
    decreases |seqs|
  {
    hide Remembers, Names, OfEncode, RepNext, Encode;
    if seqs != [] {
      var q, cs := seqs[0], CodeAll(k, seqs, r);
      assert cs[0] == CodeSeq(k, r, q) && cs[1..] == CodeAll(k, seqs[1..], RepAfter(r, q));
      if q.matchlen > 0 {
        CodeNames(r, offs, q.offset);
        HistoryFollows(r, offs, q.offset);
        CodesName(k, seqs[1..], RepAfter(r, q), offs + [q.offset]);
      } else {
        CodesName(k, seqs[1..], r, offs);
      }
    }
  }

  /** Codes, counts and the number of matches, with the rep history carried forward. */
  method CodePass(k: Kind, seqs: seq<Seq>)
    returns (cs: seq<Coded>, fll: seq<nat>, foff: seq<nat>, flen: seq<nat>, matches: nat)
    requires Codable(k, seqs)
    ensures cs == CodeAll(k, seqs, NO_REPS) && AllCoded(cs) && matches == MatchCount(seqs) && NamedAfter([], seqs, cs)
    ensures Counts(Lits, fll, cs, |seqs|) && Counts(Offs, foff, cs, matches) && Counts(Lens(k), flen, cs, matches)
  {
    hide Encode, OfEncode, Counts, RepNext, NamedAfter, Remembers;
    cs, matches := [], 0;
    fll, foff, flen := seq(NSYM, _ => 0), seq(NSYM, _ => 0), seq(NSYM, _ => 0);
    NoCounts(Lits, fll);
    NoCounts(Offs, foff);
    NoCounts(Lens(k), flen);
    var r := NO_REPS;
    assert seqs[0..] == seqs;
    for i := 0 to |seqs|
      invariant |cs| == i && AllCoded(cs) && cs + CodeAll(k, seqs[i..], r) == CodeAll(k, seqs, NO_REPS)
      invariant |fll| == |foff| == |flen| == NSYM && matches + MatchCount(seqs[i..]) == MatchCount(seqs)
      invariant Counts(Lits, fll, cs, i) && Counts(Offs, foff, cs, matches) && Counts(Lens(k), flen, cs, matches)
    {
      var q := seqs[i];
      assert seqs[i..][0] == q && seqs[i..][1..] == seqs[i + 1..];
      CodesInRange(k, r, q);
      var lit := Search(LL, q.litlen);
      var c;
      if q.matchlen > 0 {
        c, foff, flen := CodeMatch(k, r, q, lit, foff, flen, cs, matches);
        matches := matches + 1;
      } else {
        c := Coded(lit, Code(0, 0, 0), Code(0, 0, 0), false);
        CountNone(Offs, foff, cs, matches, c);
        CountNone(Lens(k), flen, cs, matches, c);
      }
      CountOne(Lits, fll, cs, i, c);
      fll := fll[lit.sym := fll[lit.sym] + 1];
      CodeAllStep(k, seqs, i, r, cs);
      cs, r := cs + [c], RepAfter(r, q);
    }
    assert seqs[|seqs|..] == [];
    assert cs + [] == cs;
    NothingRemembered();
    CodesName(k, seqs, NO_REPS, []);
  }

  lemma NoCounts(x: Stream, freq: seq<nat>)
    requires |freq| == NSYM && forall i :: 0 <= i < NSYM ==> freq[i] == 0
    ensures Counts(x, freq, [], 0)
  {
    CumAllZero(freq, NSYM);
    assert SeqStream.Symbols(x, []) == [] && freq == AnsCodec.Counts([]);
  }

  lemma CodeAllStep(k: Kind, seqs: seq<Seq>, i: nat, r: Reps, cs: seq<Coded>)
    requires Codable(k, seqs) && i < |seqs|
    ensures cs + CodeAll(k, seqs[i..], r)
            == cs + [CodeSeq(k, r, seqs[i])] + CodeAll(k, seqs[i + 1..], RepAfter(r, seqs[i]))
  {
    assert seqs[i..][1..] == seqs[i + 1..];
  }

  // ---------------------------------------------------------------- tables

  /** The table of a stream covers every symbol of it. */
  lemma TableCovers(x: Stream, norm: seq<nat>, freq: seq<nat>, cs: seq<Coded>, n: nat)
    requires AllCoded(cs) && Counts(x, freq, cs, n) && TableOf(x, norm)
    requires forall i :: 0 <= i < NSYM ==> (norm[i] > 0 <==> freq[i] > 0)
    ensures StreamCovered(x, norm, cs)
  {
    SymbolsCounted(x, norm, freq, cs);
  }

  lemma {:induction false} SymbolsCounted(x: Stream, norm: seq<nat>, freq: seq<nat>, cs: seq<Coded>)
    requires AllCoded(cs) && |freq| == |norm| == NSYM
    requires forall i :: 0 <= i < NSYM ==> (norm[i] > 0 <==> freq[i] > 0)
    requires forall c :: c in cs && (x == Lits || c.matched) ==> CodeIn(x, c).sym < NSYM && freq[CodeIn(x, c).sym] > 0
    ensures Covered(norm, SeqStream.Symbols(x, cs))
  {
    if cs != [] {
      assert cs[0] in cs && forall c :: c in cs[1..] ==> c in cs;
      SymbolsCounted(x, norm, freq, cs[1..]);
    }
  }

  /** A table that the symbols of a stream get from their counts. */
  ghost predicate Fair(x: Stream, norm: seq<nat>, cs: seq<Coded>) {
    AllCoded(cs) && |norm| == NSYM
    && var raw := AnsCodec.Counts(SeqStream.Symbols(x, cs)); Cum(raw, NSYM) > 0 && LargestRemainder(raw, norm)
  }

  /** Normalises the counts of one stream. */
  method StreamTable(x: Stream, freq: seq<nat>, ghost cs: seq<Coded>, ghost n: nat) returns (norm: seq<nat>)
    requires AllCoded(cs) && Counts(x, freq, cs, n) && 0 < n <= INT_MAX
    ensures TableOf(x, norm) && StreamCovered(x, norm, cs) && Fair(x, norm, cs)
  {
    hide StreamCovered, LargestRemainder, SeqStream.Symbols, AnsCodec.Counts;
    var table := new nat[NSYM];
    var np := NormalizeFreq(freq, table);
    norm := table[..];
    SomePresent(freq, NSYM);
    TableCovers(x, norm, freq, cs, n);
  }

  // ---------------------------------------------------------------- backward pass

  function Reversed(fs: seq<Field>): (r: seq<Field>)
    ensures |r| == |fs|
  {
    if fs == [] then [] else [fs[|fs| - 1]] + Reversed(fs[..|fs| - 1])
  }

  lemma ReversedPush(fs: seq<Field>, f: Field)
    ensures Reversed(fs + [f]) == [f] + Reversed(fs)
  {
    assert (fs + [f])[..|fs|] == fs;
  }

  /** Extra bits below, code above: pushed in the opposite order of reading. */
  method PushCode(ghost norm: seq<nat>, cum: seq<nat>, o: array<EncOcc>, state: nat, c: Code,
                  pairs: array<Field>, np: nat)
    returns (next: nat, np1: nat)
    requires IsTable(norm) && state < ANS_L && c.sym < NSYM && norm[c.sym] > 0 && np + 2 <= pairs.Length
    requires |cum| == NSYM + 1 && forall s :: 0 <= s <= NSYM ==> cum[s] == Cum(norm, s)
    requires o.Length == ANS_L && IsContext(norm, o[..]) && pairs as object != o
    modifies pairs
    ensures np <= np1 <= np + 2 && next == EncSlot(norm, state, c.sym)
    ensures Reversed(pairs[..np1]) == CodeFields(norm, state, c) + Reversed(old(pairs[..np]))
  {
    hide IsTable, IsContext, EncSlot, EncField, Cum, Reversed, Pow2;
    np1 := np;
    ghost var before := pairs[..np];
    if c.nb > 0 {
      pairs[np1] := Field(c.extra % Pow2(c.nb), c.nb);
      np1 := np1 + 1;
      ReversedPush(before, Field(c.extra % Pow2(c.nb), c.nb));
    }
    assert Reversed(pairs[..np1]) == ExtraField(c) + Reversed(before) by {
      if c.nb > 0 {
        assert pairs[..np1] == before + [Field(c.extra % Pow2(c.nb), c.nb)];
      } else {
        assert pairs[..np1] == before;
      }
    }
    ghost var middle := pairs[..np1];
    var slot, f := EncSym(norm, cum, o, state, c.sym);
    pairs[np1] := f;
    assert pairs[..np1 + 1] == middle + [f];
    ReversedPush(middle, f);
    next, np1 := slot, np1 + 1;
  }

  /** What enc_sym needs to know of one table. */
  ghost predicate HasContext(norm: seq<nat>, cum: seq<nat>, o: array<EncOcc>)
    requires IsTable(norm)
    reads o
  {
    && |cum| == NSYM + 1 && (forall s :: 0 <= s <= NSYM ==> cum[s] == Cum(norm, s))
    && o.Length == ANS_L && IsContext(norm, o[..])
  }

  /** The encoder contexts of the three streams; the last two only exist when there are matches. */
  class Contexts {
    const cll: seq<nat>
    const coff: seq<nat>
    const clen: seq<nat>
    const oll: array<EncOcc>
    const ooff: array<EncOcc>
    const olen: array<EncOcc>

    constructor (cll: seq<nat>, oll: array<EncOcc>, coff: seq<nat>, ooff: array<EncOcc>, clen: seq<nat>,
                 olen: array<EncOcc>)
      ensures this.cll == cll && this.coff == coff && this.clen == clen
      ensures this.oll == oll && this.ooff == ooff && this.olen == olen
    {
      this.cll, this.coff, this.clen := cll, coff, clen;
      this.oll, this.ooff, this.olen := oll, ooff, olen;
    }

    ghost predicate Fit(t: Tables, k: Kind, cs: seq<Coded>)
      reads oll, ooff, olen
    {
      && AllCovered(t, k, cs)
      && (SeqStream.Symbols(Lits, cs) != [] ==> HasContext(t.ll, cll, oll))
      && (SeqStream.Symbols(Offs, cs) != [] ==> HasContext(t.off, coff, ooff))
      && (SeqStream.Symbols(Lens(k), cs) != [] ==> HasContext(t.len, clen, olen))
    }
  }

  /** One stream's part of one sequence. */
  method PushStream(x: Stream, ghost norm: seq<nat>, cum: seq<nat>, o: array<EncOcc>, ghost cs: seq<Coded>, c: Code,
                    state: nat, pairs: array<Field>, np: nat)
    returns (next: nat, np1: nat)
    requires cs != [] && StreamCovered(x, norm, cs) && (x == Lits || cs[0].matched) && c == CodeIn(x, cs[0])
    requires TableOf(x, norm) && HasContext(norm, cum, o) && pairs as object != o && np + 2 <= pairs.Length
    requires StreamCovered(x, norm, cs[1..]) && state == StateOf(x, norm, cs[1..])
    modifies pairs
    ensures np <= np1 <= np + 2 && next == StateOf(x, norm, cs)
    ensures Reversed(pairs[..np1]) == FieldsIn(x, norm, cs) + Reversed(old(pairs[..np]))
  {
    hide Reversed, EncSlot, StateOf, FieldsIn, CodeFields, StreamCovered, IsContext, Cum;
    MatchedState(x, norm, cs);
    next, np1 := PushCode(norm, cum, o, state, c, pairs, np);
  }

  /** The encoder states of the three streams. */
  datatype States = States(ll: nat, off: nat, len: nat)

  ghost function StatesOf(t: Tables, k: Kind, cs: seq<Coded>): (y: States)
    requires AllCovered(t, k, cs)
  {
    States(StateOf(Lits, t.ll, cs), StateOf(Offs, t.off, cs), StateOf(Lens(k), t.len, cs))
  }

  lemma FitRest(e: Contexts, t: Tables, k: Kind, cs: seq<Coded>)
    requires e.Fit(t, k, cs) && cs != []
    ensures e.Fit(t, k, cs[1..])
  {
    hide HasContext, IsTable, StreamCovered, SeqStream.Symbols;
    AllCoveredRest(t, k, cs);
    SymbolsShrink(Lits, t.ll, cs);
    SymbolsShrink(Offs, t.off, cs);
    SymbolsShrink(Lens(k), t.len, cs);
  }

  lemma SymbolsShrink(x: Stream, norm: seq<nat>, cs: seq<Coded>)
    requires StreamCovered(x, norm, cs) && cs != []
    ensures AllCoded(cs) && AllCoded(cs[1..])
    ensures SeqStream.Symbols(x, cs[1..]) != [] ==> SeqStream.Symbols(x, cs) != []
    ensures x == Lits || cs[0].matched ==> SeqStream.Symbols(x, cs) != []
  {
    assert CodedOk(cs[0]);
  }

  /** The code fields of one sequence, match first, and the three states before it. */
  method PushSeq(ghost t: Tables, k: Kind, e: Contexts, ghost cs: seq<Coded>, c: Coded, y: States,
                 pairs: array<Field>, np: nat)
    returns (z: States, np1: nat)
    requires e.Fit(t, k, cs) && cs != [] && c == cs[0] && AllCovered(t, k, cs[1..])
    requires y == StatesOf(t, k, cs[1..]) && np + 6 <= pairs.Length
    requires pairs as object !in {e.oll, e.ooff, e.olen}
    modifies pairs
    ensures np <= np1 <= np + 6 && z == StatesOf(t, k, cs)
    ensures Reversed(pairs[..np1])
            == FieldsIn(Lits, t.ll, cs)
               + (if c.matched then FieldsIn(Offs, t.off, cs) + FieldsIn(Lens(k), t.len, cs) else [])
               + Reversed(old(pairs[..np]))
  {
    hide Reversed, StateOf, FieldsIn, StreamCovered, SeqStream.Symbols, HasContext, TableOf;
    np1 := np;
    z := y;
    SymbolsShrink(Lits, t.ll, cs);
    SymbolsShrink(Offs, t.off, cs);
    SymbolsShrink(Lens(k), t.len, cs);
    MatchedState(Lits, t.ll, cs);
    if c.matched {
      MatchedState(Offs, t.off, cs);
      MatchedState(Lens(k), t.len, cs);
      var len, off;
      len, np1 := PushStream(Lens(k), t.len, e.clen, e.olen, cs, c.len, z.len, pairs, np1);
      off, np1 := PushStream(Offs, t.off, e.coff, e.ooff, cs, c.off, z.off, pairs, np1);
      z := z.(len := len, off := off);
    } else {
      UnmatchedState(Offs, t.off, cs);
      UnmatchedState(Lens(k), t.len, cs);
    }
    var ll;
    ll, np1 := PushStream(Lits, t.ll, e.cll, e.oll, cs, c.ll, z.ll, pairs, np1);
    z := z.(ll := ll);
  }

  /** All sequences, last one first: the pairs, read from the top, are the fields in decoding order. */
  method BackwardPass(ghost t: Tables, k: Kind, e: Contexts, cs: seq<Coded>, pairs: array<Field>)
    returns (y: States, np: nat)
    requires e.Fit(t, k, cs) && 6 * |cs| <= pairs.Length && pairs as object !in {e.oll, e.ooff, e.olen}
    modifies pairs
    ensures y == StatesOf(t, k, cs) && np <= 6 * |cs| && Reversed(pairs[..np]) == SeqFields(t, k, cs)
  {
    hide Reversed, StateOf, FieldsIn, AllCovered, SeqFields, Contexts.Fit;
    y, np := States(0, 0, 0), 0;
    FitTail(e, t, k, cs, |cs|);
    NoStates(t, k, cs[|cs|..]);
    for i := |cs| downto 0
      invariant e.Fit(t, k, cs[i..]) && AllCovered(t, k, cs[i..])
      invariant np <= 6 * (|cs| - i) && y == StatesOf(t, k, cs[i..])
      invariant Reversed(pairs[..np]) == SeqFields(t, k, cs[i..])
    {
      assert cs[i..][1..] == cs[i + 1..] && cs[i..][0] == cs[i];
      FitTail(e, t, k, cs, i);
      FieldsStep(t, k, cs[i..]);
      y, np := PushSeq(t, k, e, cs[i..], cs[i], y, pairs, np);
    }
    assert cs[0..] == cs;
  }

  lemma {:induction false} FitTail(e: Contexts, t: Tables, k: Kind, cs: seq<Coded>, i: nat)
    requires e.Fit(t, k, cs) && i <= |cs|
    ensures e.Fit(t, k, cs[i..]) && AllCovered(t, k, cs[i..])
  {
    if i == 0 {
      assert cs[0..] == cs;
    } else {
      FitTail(e, t, k, cs, i - 1);
      FitRest(e, t, k, cs[i - 1..]);
      assert cs[i - 1..][1..] == cs[i..];
    }
  }

  lemma NoStates(t: Tables, k: Kind, cs: seq<Coded>)
    requires AllCovered(t, k, cs) && cs == []
    ensures StatesOf(t, k, cs) == States(0, 0, 0) && SeqFields(t, k, cs) == []
  {
  }

  lemma FieldsStep(t: Tables, k: Kind, cs: seq<Coded>)
    requires AllCovered(t, k, cs) && cs != []
    ensures StreamCovered(Lits, t.ll, cs) && StreamCovered(Offs, t.off, cs) && StreamCovered(Lens(k), t.len, cs)
    ensures AllCovered(t, k, cs[1..])
    ensures SeqFields(t, k, cs) ==
            FieldsIn(Lits, t.ll, cs)
            + (if cs[0].matched then FieldsIn(Offs, t.off, cs) + FieldsIn(Lens(k), t.len, cs) else [])
            + SeqFields(t, k, cs[1..])
  {
    hide FieldsIn, StreamCovered;
    AllCoveredRest(t, k, cs);
  }

  lemma {:induction false} ReversedAt(fs: seq<Field>, k: nat)
    requires k < |fs|
    ensures Reversed(fs)[k] == fs[|fs| - 1 - k]
  {
    if k > 0 {
      ReversedAt(fs[..|fs| - 1], k - 1);
    }
  }

  /** Writes the pairs, last pushed first, as a bit stream at the start of buffer. */
  method WriteBackward(pairs: array<Field>, np: nat, buffer: array<byte>) returns (len: nat)
    requires np <= pairs.Length && pairs as object != buffer
    requires FieldsOk(Reversed(pairs[..np])) && StreamBits(Reversed(pairs[..np])) <= 8 * buffer.Length
    modifies buffer
    ensures len <= buffer.Length && buffer[..len] == StreamBytes(Reversed(pairs[..np]))
  {
    hide Pow2, Num, Reversed, StreamNum, StreamBits;
    ghost var fs := Reversed(pairs[..np]);
    var w := new BitWriter(buffer);
    NothingWritten();
    for i := np downto 0
      invariant fresh(w) && w.Valid() && w.b == buffer && Reversed(pairs[..np]) == fs
      invariant w.Bits() == StreamBits(fs[..np - i]) && w.Value() == StreamNum(fs[..np - i])
    {
      ghost var k := np - 1 - i;
      ReversedAt(pairs[..np], k);
      assert fs[..k + 1] == fs[..k] + [fs[k]];
      StreamAppend(fs[..k], fs[k]);
      StreamPrefix(fs, k + 1);
      assert FieldOk(fs[k]);
      DivModUnique(fs[k].val, Pow2(fs[k].nb), 0, fs[k].val);
      w.Add(pairs[i].val, pairs[i].nb);
    }
    assert fs[..np] == fs;
    len := w.Flush();
    BytesUnique(buffer[..len]);
  }

  lemma NothingWritten()
    ensures StreamBits([]) == 0 && StreamNum([]) == 0
  {
  }

  lemma {:induction false} FieldWidth(fs: seq<Field>)
    requires FieldsOk(fs)
    ensures StreamBits(fs) <= 32 * |fs|
  {
    if fs != [] {
      assert forall f :: f in fs[1..] ==> f in fs;
      assert FieldOk(fs[0]);
      FieldWidth(fs[1..]);
    }
  }

  /** The context of one table. */
  method MakeContext(norm: seq<nat>) returns (cum: seq<nat>, o: array<EncOcc>)
    requires IsTable(norm)
    ensures fresh(o) && HasContext(norm, cum, o)
  {
    hide IsContext, Cum;
    cum, o := BuildAll(norm);
  }

  /** Both passes over the pairs: the states and the bit stream of the coded sequences. */
  method EncodeStreams(t: Tables, k: Kind, cs: seq<Coded>, matched: bool) returns (y: States, bs: seq<byte>)
    requires AllCovered(t, k, cs) && TableOf(Lits, t.ll)
             && (matched ==> TableOf(Offs, t.off) && TableOf(Lens(k), t.len))
    requires !matched ==> SeqStream.Symbols(Offs, cs) == [] && SeqStream.Symbols(Lens(k), cs) == []
    ensures y == StatesOf(t, k, cs) && bs == StreamBytes(SeqFields(t, k, cs))
  {
    hide Cum, IsContext, StateOf, SeqFields, StreamBits, StreamBytes, SeqStream.Symbols, AllCovered, Reversed;
    var cll, oll := MakeContext(t.ll);
    var coff, ooff, clen, olen := cll, oll, cll, oll;
    if matched {
      coff, ooff := MakeContext(t.off);
      clen, olen := MakeContext(t.len);
    }
    var e := new Contexts(cll, oll, coff, ooff, clen, olen);
    var pairs := new Field[6 * |cs|];
    var np;
    y, np := BackwardPass(t, k, e, cs, pairs);
    SeqFieldsBits(t, k, cs);
    FieldWidth(SeqFields(t, k, cs));
    var buffer := new byte[4 * np + 16];
    var len := WriteBackward(pairs, np, buffer);
    bs := buffer[..len];
  }
}
