/** vv_compress: from the source to a frame that decompresses to the source. */
module VvCompress {
  import opened Bits
  import opened LittleEndian
  import opened Wrappers
  import opened VvFrame
  import opened VvEmit
  import opened VvLaw
  import opened LzMatch
  import opened LzMatcher
  import opened LzParse
  import opened LzStarved
  import Lz
  import LzTame
  import LzCompress
  import LzOptimal
  import LzOptimalParse
  import LzOptimalRun
  import LzStripped
  import SeqCodes
  import SeqParse
  import SeqStream
  import SeqBlock
  import SeqCodec
  import SeqLiterals
  import SeqRace
  import L = HuffLengths
  import A1 = AnsCodec
  import A4 = AnsCodec4
  import N = AnsNormalize
  import T = AnsTable
  import S = AnsStream
  import Xxh64
  import X86 = BranchFilterX86
  import Arm64 = BranchFilterArm64

  // ---------------------------------------------------------------- one block

  /** What a frame is made with: mode and format, its header, and estimates that only steer choices. */
  datatype Plan = Plan(mode: Mode, v2: bool, hd: Head, prices: LzOptimal.Prices, compat: bool,
                       guess: seq<byte> -> SeqRace.Guess, room: nat)

  predicate PlanOk(o: Plan) { HeadOk(o.hd) && (o.v2 ==> o.mode != Fast) && LzOptimal.PricesOk(o.prices) }

  function MinMatch(o: Plan): (mm: nat) { if o.v2 then 3 else 4 }

  /** The matcher of a frame: the window of the header and matches the format can represent. */
  predicate Suits(o: Plan, c: Config) {
    c.maxDist == Pow2(o.hd.wlog) - 1 && c.ob == OffsetBytes(o.hd) && c.maxMatch == if o.v2 then 65534 else 65535
  }

  /** The matcher is in order for a source that ends at end, 1 MiB and more below 2 GiB. */
  ghost predicate Ready(m: Matcher, o: Plan, end: nat)
    reads m, m.Repr()
  {
    m.Valid() && PlanOk(o) && Suits(o, m.c) && m.Holds(end) && end + MAX_BLOCK <= INT32_MAX
      && RepsWithin(m.reps, m.c.maxDist)
  }

  /** The tokens of a block decode to it and stay within what the sequence coder can represent. */
  ghost predicate TokensFor(o: Plan, src: seq<byte>, start: nat, end: nat, tokens: seq<byte>)
    requires PlanOk(o) && start <= end <= |src|
  {
    Lz.Decode(ParamsFor(o.hd, MinMatch(o), src[..start], end - start), tokens, src[..start])
      == Lz.Done(src[..start] + src[start..end])
    && LzTame.Tame(OffsetBytes(o.hd), MinMatch(o), if o.v2 then 65534 else 65535, tokens)
  }

  lemma TokensFit(o: Plan, b: LzParse.Block, tokens: seq<byte>)
    requires PlanOk(o) && BlockOk(b) && Suits(o, b.c) && b.minMatch == MinMatch(o)
    requires Lz.Decode(ParamsOf(b), tokens, b.data[..b.start]) == Lz.Done(b.data[..b.end])
    requires LzTame.Tame(b.c.ob, b.minMatch, b.c.maxMatch, tokens)
    ensures TokensFor(o, b.data, b.start, b.end, tokens)
  {
    hide Lz.Decode, MaxOffset, LzTame.Tame;
    WindowCovered(o.hd);
    LzTame.Widen(ParamsOf(b), MaxOffset(o.hd), tokens, b.data[..b.start]);
    assert b.data[..b.start] + b.data[b.start..b.end] == b.data[..b.end];
  }

  predicate Optimally(o: Plan) { o.mode == Extreme && !o.v2 }

  /** What the parser of the mode makes of a block: the optimal one for extreme frames in the first format, the greedy
      or lazy one otherwise. */
  ghost function TokensMade(o: Plan, c: Config, src: seq<byte>, start: nat, end: nat, cap: nat, r: SeqCodes.Reps,
                            t: Tables)
    : (s: seq<byte>)
    requires PlanOk(o) && ConfigOk(c) && Sized(c, t) && RepsWithin(r, c.maxDist) && start <= end <= |src|
             && end - start <= MAX_BLOCK
  {
    if Optimally(o) then
      var b := LzParse.Block(c, Extreme, src, start, end, 4, cap);
      match LzOptimalParse.OptimalTokens(LzOptimal.Opt(b, o.prices), t, r)
      case NoTokens => []
      case Emitted(out, _) => out
    else
      match ParseBlock(LzParse.Block(c, o.mode, src, start, end, MinMatch(o), cap), r, t)
      case Nothing => []
      case Tokens(out, _, _) => out
  }

  /** The parser of the mode. */
  method Tokenize(m: Matcher, o: Plan, src: seq<byte>, start: nat, end: nat, tmp: array<byte>)
    returns (tokens: seq<byte>)
    requires Ready(m, o, end) && start <= end <= |src| && end - start <= MAX_BLOCK && tmp !in m.Repr()
    modifies m`reps, m.Repr(), tmp
    ensures Ready(m, o, end)
    ensures tokens != [] ==> TokensFor(o, src, start, end, tokens)
    ensures Sized(m.c, old(m.View()))
            && tokens == TokensMade(o, m.c, src, start, end, tmp.Length, old(m.reps), old(m.View()))
  {
    hide LzOptimal.PricesOk, MaxOffset, Sized, TokensFor, Lz.Decode, LzTame.Tame, LzOptimalParse.OptimalTokens,
         ParseFrom;
    var n;
    ghost var r, t := m.reps, m.View();
    LzOptimalRun.SizedView(m);
    if Optimally(o) {
      ghost var b := LzParse.Block(m.c, Extreme, src, start, end, 4, tmp.Length);
      ghost var opt := LzOptimal.Opt(b, o.prices);
      n := LzOptimalRun.CompressOptimal(m, src, start, end, 4, o.prices, tmp);
      LzOptimalParse.OptimalDecodes(opt, t, r);
      LzTame.OptimalTame(opt, t, r);
      tokens := tmp[..n];
      if n > 0 {
        TokensFit(o, b, tokens);
      }
    } else {
      ghost var b := LzParse.Block(m.c, o.mode, src, start, end, MinMatch(o), tmp.Length);
      n := LzCompress.CompressBlock(m, o.mode, src, start, end, MinMatch(o), tmp, tmp.Length);
      ParseDecodes(b, r, t);
      LzTame.BlockTame(b, r, t);
      tokens := tmp[..n];
      if n > 0 {
        TokensFit(o, b, tokens);
      }
    }
  }

  /** A candidate for the sequence section that decodes to the block. */
  ghost predicate SequencesFor(dec: Decoder, o: Plan, src: seq<byte>, start: nat, end: nat, s: Option<seq<byte>>)
    requires PlanOk(o) && start <= end <= |src|
  {
    s.Some? ==>
      dec(Entropy(TagOf(o.v2), s.value), src[..start], end - start, OffsetBytes(o.hd), MaxOffset(o.hd))
      == Bytes(src[start..end])
  }

  lemma Bases(v2: bool)
    ensures SeqCodes.Base(KindOf(v2), 0) == if v2 then 3 else 4
    ensures SeqCodes.Limit(KindOf(v2)) == if v2 then 65535 else 65536
  {
  }

  /** The sequence section of the tokens under some tables and literal format, if it fits. */
  ghost predicate InSequences(o: Plan, seqs: seq<SeqParse.Seq>, lits: seq<byte>, s: Option<seq<byte>>,
                              t: SeqStream.Tables, fmt: byte, data: seq<byte>)
    requires PlanOk(o)
  {
    SeqCodec.Fit(KindOf(o.v2), t, seqs) && SeqCodec.AllFair(KindOf(o.v2), t, seqs)
    && SeqLiterals.Holds(fmt, data, lits) && |data| <= |lits|
    && SeqRace.Raced(o.compat, o.guess(lits), lits, fmt, data)
    && var bytes := SeqBlock.Pack(SeqCodec.Stored(KindOf(o.v2), t, fmt, data, |lits|, seqs));
       s == if |bytes| + 4 <= o.room then Some(bytes) else None
  }

  /** How the sequence coding of the tokens comes about: there is one where they parse and it fits. */
  ghost predicate SequencesMade(o: Plan, tokens: seq<byte>, s: Option<seq<byte>>)
    requires PlanOk(o)
  {
    match SeqParse.Parse(OffsetBytes(o.hd), MinMatch(o), tokens)
    case Rejected => s.None?
    case Parsed(seqs, lits) =>
      exists t: SeqStream.Tables, fmt: byte, data: seq<byte> :: InSequences(o, seqs, lits, s, t, fmt, data)
  }

  /** Path A: sequence coding. */
  method Sequences(o: Plan, src: seq<byte>, start: nat, end: nat, tokens: seq<byte>, ghost dec: Decoder)
    returns (s: Option<seq<byte>>)
    requires PlanOk(o) && start <= end <= |src| && tokens != [] && |tokens| < L.DEEP_TOTAL && Lawful(dec)
    requires TokensFor(o, src, start, end, tokens)
    ensures SequencesFor(dec, o, src, start, end, s) && SequencesMade(o, tokens, s)
  {
    hide LzOptimal.PricesOk, MaxOffset, Lz.Decode, LzTame.Tame, SeqCodes.Base, SeqCodes.Limit, Lawful, SeqCodec.Fit,
         SeqLiterals.Holds, SeqCodec.Stored, SeqParse.Parse, SeqBlock.Pack, SeqRace.Raced,
         SeqCodec.AllFair;
    var ent := new byte[o.room](_ => 0);
    Bases(o.v2);
    var st, len, t, fmt, data :=
      SeqCodec.EncodeSequences(tokens, OffsetBytes(o.hd), KindOf(o.v2), o.compat, o.guess, ent);
    s := None;
    if st == SeqCodec.Ok {
      s := Some(ent[..len]);
      var longest := if o.v2 then 65534 else 65535;
      SequencesDecode(dec, o.hd, src[..start], src[start..end], o.v2, longest, tokens, ent[..len], t, fmt, data);
    }
    ghost var r := SeqParse.Parse(OffsetBytes(o.hd), MinMatch(o), tokens);
    if r.Parsed? {
      assert InSequences(o, r.seqs, r.lits, s, t, fmt, data);
    }
  }

  /** A literal coding of the block: shorter than its literals, which are no more than the block has bytes; it decodes
      to the block when its counts fit sixteen bits, and is refused when a cut count shows. */
  ghost predicate LiteralFor(dec: Decoder, o: Plan, src: seq<byte>, start: nat, end: nat, l: Option<Literal>)
    requires PlanOk(o) && start <= end <= |src|
  {
    l.Some? ==>
      |l.value.coded| < l.value.count <= end - start
      && var d := dec(Entropy(l.value.tag, LiteralData(l.value)), src[..start], end - start, OffsetBytes(o.hd),
         MaxOffset(o.hd));
         (l.value.count < 0x1_0000 ==> d == Bytes(src[start..end])) && (Hopeless(l.value, start) ==> d.Err?)
  }

  lemma LiteralFits(dec: Decoder, o: Plan, src: seq<byte>, start: nat, end: nat, tokens: seq<byte>, l: Literal,
                    norm: seq<nat>)
    requires PlanOk(o) && !o.v2 && start <= end <= |src| && Lawful(dec) && TokensFor(o, src, start, end, tokens)
    requires LiteralOf(OffsetBytes(o.hd), tokens, l, norm) && |l.coded| < l.count
    ensures LiteralFor(dec, o, src, start, end, Some(l))
  {
    hide LzOptimal.PricesOk, MaxOffset, Lz.Decode, LzTame.Tame, Lawful, LiteralOf, LiteralData;
    LiteralOfLits(OffsetBytes(o.hd), tokens, l, norm);
    LiteralsWithin(ParamsFor(o.hd, 4, src[..start], end - start), tokens, src[..start], src[start..end]);
    LiteralDecodesExactly(dec, o.hd, src[..start], src[start..end], tokens, l, norm);
  }

  lemma LiteralOfLits(ob: nat, tokens: seq<byte>, l: Literal, norm: seq<nat>)
    requires (ob == 2 || ob == 3) && LiteralOf(ob, tokens, l, norm)
    ensures LzStripped.Split(ob, tokens).Parts? && |LzStripped.Split(ob, tokens).lits| == l.count
  {
  }

  /** With the tables that the literals get from their counts, the literal coding is four lanes if they are shorter than
      the literals and fit half the room, or else a single stream if that is and does. */
  ghost predicate InLanes(o: Plan, r: LzStripped.Parts, l: Option<Literal>, norm4: seq<nat>, norm: seq<nat>) {
    r.Parts? && SeqRace.TableFor(r.lits, norm4) && SeqRace.TableFor(r.lits, norm)
    && l == if |A4.Frame4(norm4, r.lits)| <= o.room / 2 && |A4.Frame4(norm4, r.lits)| < |r.lits| then
              Some(Literal(TAG_ANS4, |r.lits|, A4.Frame4(norm4, r.lits), r.tokens))
            else if |A1.Frame(norm, r.lits)| <= o.room / 2 && |A1.Frame(norm, r.lits)| < |r.lits| then
              Some(Literal(TAG_ANS, |r.lits|, A1.Frame(norm, r.lits), r.tokens))
            else None
  }

  /** How the literal coding of the tokens comes about. */
  ghost predicate LiteralMade(o: Plan, tokens: seq<byte>, l: Option<Literal>)
    requires PlanOk(o)
  {
    var r := LzStripped.Split(OffsetBytes(o.hd), tokens);
    if r.Parts? && r.lits != [] then exists norm4: seq<nat>, norm: seq<nat> :: InLanes(o, r, l, norm4, norm)
    else l.None?
  }

  /** Path B: the literals alone, in four lanes or else in one stream. */
  method LiteralCoding(o: Plan, src: seq<byte>, start: nat, end: nat, tokens: seq<byte>, ghost dec: Decoder)
    returns (l: Option<Literal>)
    requires PlanOk(o) && !o.v2 && start <= end <= |src| && |tokens| < L.DEEP_TOTAL && Lawful(dec)
    requires TokensFor(o, src, start, end, tokens)
    ensures LiteralFor(dec, o, src, start, end, l) && LiteralMade(o, tokens, l)
  {
    hide LzOptimal.PricesOk, MaxOffset, TokensFor, Lawful, LzStripped.Split, A1.Frame, A4.Frame4, LiteralData,
         T.IsTable, S.Covered, N.LargestRemainder, A1.Counts, LiteralFor;
    NoLiteral(dec, o, src, start, end);
    var lit, st, ent := new byte[|tokens|](_ => 0), new byte[|tokens|](_ => 0), new byte[o.room / 2](_ => 0);
    l := None;
    var ok, nl, sl := LzStripped.ExtractLiterals(OffsetBytes(o.hd), tokens, lit, st);
    if !ok || nl == 0 {
      return;
    }
    var stat, len, norm := A4.VvaEncode4(lit[..nl], ent);
    ghost var r := LzStripped.Split(OffsetBytes(o.hd), tokens);
    if stat == A1.Ok {
      l := Some(Literal(TAG_ANS4, nl, ent[..len], st[..sl]));
      LiteralFits(dec, o, src, start, end, tokens, l.value, norm);
      assert InLanes(o, r, l, norm, norm);
      return;
    }
    ghost var norm4 := norm;
    stat, len, norm := A1.VvaEncode(lit[..nl], ent);
    if stat == A1.Ok {
      l := Some(Literal(TAG_ANS, nl, ent[..len], st[..sl]));
      LiteralFits(dec, o, src, start, end, tokens, l.value, norm);
    }
    assert InLanes(o, r, l, norm4, norm);
  }

  /** What becomes of a block: it is read back, it is refused, or that is open, because a coding of 64 KiB or more was
      cut where it does not show. */
  datatype Fate = Readable | Unreadable | Open

  /** The fate of a block by the candidate that wins: sixteen bits hold the count of its literals, or they do not. */
  function FateOf(c: VvEmit.Candidates, balanced: bool, v2: bool, start: nat, size: nat): (f: Fate) {
    if Chosen(c, balanced, v2, size) != Literals || c.literal.value.count < 0x1_0000 then Readable
    else if Hopeless(c.literal.value, start) then Unreadable
    else Open
  }

  /** Frames whose blocks are all read back: fast ones, those in the second format, and those of less than 64 KiB. */
  predicate Safe(o: Plan, n: nat) { o.mode == Fast || o.v2 || n < 0x1_0000 }

  lemma SafeIsReadable(o: Plan, c: VvEmit.Candidates, start: nat, size: nat)
    requires Safe(o, size) && (c.literal.Some? ==> c.literal.value.count <= size)
    ensures FateOf(c, o.mode != Fast, o.v2, start, size) == Readable
  {
  }

  /** Where the candidates for a block of size bytes come from. */
  ghost predicate MadeFrom(o: Plan, size: nat, c: VvEmit.Candidates)
    requires PlanOk(o)
  {
    if o.mode != Fast && c.tokens != [] && |c.tokens| < size + size / 8 then
      SequencesMade(o, c.tokens, c.sequences)
      && if !o.v2 && (c.sequences.None? || 8 + |c.sequences.value| >= size * 7 / 8) then
           LiteralMade(o, c.tokens, c.literal)
         else c.literal.None?
    else c.sequences.None? && c.literal.None?
  }

  /** A block of sequences has at least thirty bytes. */
  lemma SequencesLong(o: Plan, tokens: seq<byte>, s: seq<byte>)
    requires PlanOk(o) && SequencesMade(o, tokens, Some(s))
    ensures |s| >= 30
  {
    hide LzOptimal.PricesOk, SeqCodec.Fit, SeqLiterals.Holds, SeqParse.Parse, SeqStream.SeqFields, StreamBytes,
         SeqStream.StateOf, SeqCodec.HeaderOf;
    var r := SeqParse.Parse(OffsetBytes(o.hd), MinMatch(o), tokens);
    var t: SeqStream.Tables, fmt: byte, data: seq<byte> :| InSequences(o, r.seqs, r.lits, Some(s), t, fmt, data);
    PackedLong(KindOf(o.v2), t, fmt, data, |r.lits|, r.seqs);
  }

  lemma PackedLong(k: SeqCodes.Kind, t: SeqStream.Tables, fmt: byte, data: seq<byte>, lits: nat,
                   seqs: seq<SeqParse.Seq>)
    requires SeqCodec.Fit(k, t, seqs)
    ensures |SeqBlock.Pack(SeqCodec.Stored(k, t, fmt, data, lits, seqs))| >= 30
  {
    hide SeqStream.SeqFields, StreamBytes, SeqStream.StateOf, SeqStream.AllCovered, SeqStream.CodeAll,
         SeqCodec.HeaderOf;
    SeqCodec.HeaderSize(t.ll);
  }

  /** In the second format, a block whose tokens take at most 31 bytes is stored as it is, however long it is: its
      sequence coding is never shorter than the tokens, which that format cannot store. */
  lemma ShortTokensStored(o: Plan, c: VvEmit.Candidates, b: seq<byte>, last: bool)
    requires PlanOk(o) && o.v2 && MadeFrom(o, |b|, c) && 0 < |b| <= MAX_BLOCK && |c.tokens| <= 31
    ensures Written(c, true, true, b, last) == RawBlock(last, b)
  {
    hide SequencesMade, LiteralMade, RawBlock, EntropyBlock, TokenBlock, LiteralData, LzOptimal.PricesOk;
    if c.sequences.Some? {
      SequencesLong(o, c.tokens, c.sequences.value);
    }
  }

  /** The room for the tokens of a block of a source. */
  function TokenRoom(n: nat): (cap: nat) { Min(n, MAX_BLOCK) + Min(n, MAX_BLOCK) / 255 + 1024 }

  /** Where the candidates for a block come from, with a matcher that comes to it with r and t. */
  ghost predicate BlockMade(o: Plan, c: Config, src: seq<byte>, start: nat, end: nat, r: SeqCodes.Reps, t: Tables,
                            k: VvEmit.Candidates)
    requires PlanOk(o)
  {
    start <= end <= |src| && end - start <= MAX_BLOCK && ConfigOk(c) && Sized(c, t) && RepsWithin(r, c.maxDist)
    && MadeFrom(o, end - start, k) && k.tokens == TokensMade(o, c, src, start, end, TokenRoom(|src|), r, t)
  }

  /** For the first block the matcher is as it was at the beginning. */
  ghost predicate FirstMade(o: Plan, c: Config, src: seq<byte>, r: SeqCodes.Reps, t: Tables, k: VvEmit.Candidates)
    requires PlanOk(o)
  {
    BlockMade(o, c, src, 0, Min(|src|, MAX_BLOCK), r, t, k)
  }

  ghost predicate SomehowMade(o: Plan, c: Config, src: seq<byte>, start: nat, end: nat, k: VvEmit.Candidates)
    requires PlanOk(o)
  {
    exists r: SeqCodes.Reps, t: Tables :: BlockMade(o, c, src, start, end, r, t, k)
  }

  /** emit_block without its check on room: the bytes of the block and the fate of the block. */
  method EmitBlock(m: Matcher, o: Plan, src: seq<byte>, start: nat, end: nat, last: bool, tmp: array<byte>,
                   ghost dec: Decoder)
    returns (bytes: seq<byte>, fate: Fate, ghost c: VvEmit.Candidates)
    requires Ready(m, o, end) && start < end <= |src| && end - start <= MAX_BLOCK && tmp !in m.Repr() && Lawful(dec)
    modifies m`reps, m.Repr(), tmp
    ensures Ready(m, o, end) && |bytes| <= end - start + 6
    ensures bytes == Written(c, o.mode != Fast, o.v2, src[start..end], last) && MadeFrom(o, end - start, c)
    ensures Sized(m.c, old(m.View()))
            && c.tokens == TokensMade(o, m.c, src, start, end, tmp.Length, old(m.reps), old(m.View()))
    ensures Tight(c, o.mode != Fast, o.v2, end - start, |bytes|)
    ensures fate == FateOf(c, o.mode != Fast, o.v2, start, end - start)
    ensures Safe(o, end - start) ==> fate == Readable
    ensures fate == Readable ==> ReadsAs(dec, o.hd, bytes, src[..start], src[start..end], last)
    ensures fate == Unreadable ==> RefusedAs(dec, o.hd, bytes, src[..start], src[start..end])
  {
    hide LzOptimal.PricesOk, MaxOffset, Lawful, ReadsAs, RefusedAs, Written, Chosen, FateOf, LiteralFor, LiteralMade,
         SequencesMade, TokensFor, Sized, SeqParse.Parse, TokensMade, Tight;
    var size := end - start;
    var balanced := o.mode != Fast;
    var tokens := Tokenize(m, o, src, start, end, tmp);
    var seqs: Option<seq<byte>> := None;
    var lits: Option<Literal> := None;
    NoLiteral(dec, o, src, start, end);
    if balanced && tokens != [] && |tokens| < size + size / 8 {
      seqs := Sequences(o, src, start, end, tokens, dec);
      if TriesLiteral(VvEmit.Candidates(tokens, seqs, None), o.v2, size) {
        lits := LiteralCoding(o, src, start, end, tokens, dec);
      }
    }
    var k := VvEmit.Candidates(tokens, seqs, lits);
    c := k;
    fate := FateOf(k, balanced, o.v2, start, size);
    bytes := Written(k, balanced, o.v2, src[start..end], last);
    WrittenSize(k, balanced, o.v2, src[start..end], last);
    LiteralCount(dec, o, src, start, end, lits);
    if Safe(o, size) {
      SafeIsReadable(o, k, start, size);
    }
    if fate == Readable {
      BlockSound(dec, o, src, start, end, k);
      WrittenReads(dec, o.hd, src[..start], src[start..end], k, balanced, o.v2, last);
    } else if fate == Unreadable {
      BlockRefused(dec, o, src, start, end, k, last);
    }
  }

  lemma NoLiteral(dec: Decoder, o: Plan, src: seq<byte>, start: nat, end: nat)
    requires PlanOk(o) && start <= end <= |src|
    ensures LiteralFor(dec, o, src, start, end, None)
  {
  }

  lemma LiteralCount(dec: Decoder, o: Plan, src: seq<byte>, start: nat, end: nat, l: Option<Literal>)
    requires PlanOk(o) && start <= end <= |src| && LiteralFor(dec, o, src, start, end, l)
    ensures l.Some? ==> l.value.count <= end - start
  {
  }

  /** The winner of a readable block decodes to it. */
  lemma BlockSound(dec: Decoder, o: Plan, src: seq<byte>, start: nat, end: nat, c: VvEmit.Candidates)
    requires PlanOk(o) && start <= end <= |src| && Lawful(dec)
    requires FateOf(c, o.mode != Fast, o.v2, start, end - start) == Readable
    requires c.tokens != [] ==> TokensFor(o, src, start, end, c.tokens)
    requires SequencesFor(dec, o, src, start, end, c.sequences) && LiteralFor(dec, o, src, start, end, c.literal)
    ensures Sound(dec, o.hd, src[..start], src[start..end], c, o.mode != Fast, o.v2)
  {
    hide MaxOffset, Lz.Decode, LzTame.Tame, Lawful, LiteralData, LzOptimal.PricesOk;
    if c.tokens != [] && !o.v2 {
      TokensDecode(dec, o.hd, src[..start], src[start..end], c.tokens);
    }
  }

  /** A block whose literals are too many for sixteen bits is refused. */
  lemma BlockRefused(dec: Decoder, o: Plan, src: seq<byte>, start: nat, end: nat, c: VvEmit.Candidates, last: bool)
    requires PlanOk(o) && start < end <= |src| && end - start <= MAX_BLOCK
    requires FateOf(c, o.mode != Fast, o.v2, start, end - start) == Unreadable
             && LiteralFor(dec, o, src, start, end, c.literal)
    ensures RefusedAs(dec, o.hd, Written(c, o.mode != Fast, o.v2, src[start..end], last), src[..start], src[start..end])
  {
    hide MaxOffset, RefusedAs, EntropyBlock, ToBytes, LzOptimal.PricesOk;
    var l := c.literal.value;
    EntropyRefused(dec, o.hd, src[..start], src[start..end], last, l.tag, LiteralData(l));
  }

  // ---------------------------------------------------------------- a frame

  /** Blocks that bring the decoder from nothing to the output h, whatever follows them. */
  ghost predicate Carries(dec: Decoder, hd: Head, s: seq<byte>, h: seq<byte>, cap: nat)
    requires HeadOk(hd) && |h| <= cap
  {
    forall rest: seq<byte> :: ReadBlocks(dec, hd, s + rest, [], cap) == Longer(ReadBlocks(dec, hd, rest, h, cap), |s|)
  }

  lemma CarriesNothing(dec: Decoder, hd: Head, cap: nat)
    requires HeadOk(hd)
    ensures Carries(dec, hd, [], [], cap)
  {
    hide ReadBlocks;
    forall rest: seq<byte>
      ensures ReadBlocks(dec, hd, [] + rest, [], cap)
              == Longer(ReadBlocks(dec, hd, rest, [], cap), 0)
    {
      assert [] + rest == rest;
    }
  }

  lemma BlocksStep(dec: Decoder, hd: Head, s: seq<byte>, rest: seq<byte>, h: seq<byte>, b: seq<byte>, last: bool,
                   cap: nat)
    requires HeadOk(hd) && |h| + |b| <= cap && ReadsAs(dec, hd, s, h, b, last)
    ensures ReadBlocks(dec, hd, s + rest, h, cap)
            == Longer(if last then ReadFoot(hd, rest, h + b) else ReadBlocks(dec, hd, rest, h + b, cap), |s|)
  {
    hide ReadFoot, ReadBlock;
    assert ReadBlock(dec, hd, s + rest, h, cap - |h|) == VvFrame.Block(b, |s|, last);
    assert (s + rest)[|s|..] == rest;
  }

  /** One more block that is not the last. */
  lemma CarriesOn(dec: Decoder, hd: Head, s: seq<byte>, t: seq<byte>, h: seq<byte>, b: seq<byte>, cap: nat)
    requires HeadOk(hd) && |h| + |b| <= cap && Carries(dec, hd, s, h, cap) && ReadsAs(dec, hd, t, h, b, false)
    ensures Carries(dec, hd, s + t, h + b, cap)
  {
    hide ReadBlocks, ReadsAs;
    forall rest: seq<byte>
      ensures ReadBlocks(dec, hd, s + t + rest, [], cap)
              == Longer(ReadBlocks(dec, hd, rest, h + b, cap), |s + t|)
    {
      assert s + t + rest == s + (t + rest);
      BlocksStep(dec, hd, t, rest, h, b, false, cap);
    }
  }

  /** The last block and what is behind it. */
  lemma CarriesHome(dec: Decoder, hd: Head, s: seq<byte>, t: seq<byte>, foot: seq<byte>, h: seq<byte>, b: seq<byte>,
                    cap: nat)
    requires HeadOk(hd) && |h| + |b| <= cap && Carries(dec, hd, s, h, cap) && ReadsAs(dec, hd, t, h, b, true)
    ensures ReadBlocks(dec, hd, s + t + foot, [], cap) == Longer(ReadFoot(hd, foot, h + b), |s + t|)
  {
    hide ReadBlocks, ReadsAs, ReadFoot;
    assert s + t + foot == s + (t + foot);
    BlocksStep(dec, hd, t, foot, h, b, true, cap);
  }

  /** The frame header. */
  function HeadBytes(hd: Head, mode: byte, size: nat): (s: seq<byte>)
    ensures |s| == HEADER
  {
    ToBytes(MAGIC, 4) + ([1, hd.flags, mode, hd.wlog] + ToBytes(size, 8))
  }

  lemma HeadReads(hd: Head, mode: byte, size: nat, rest: seq<byte>)
    requires HeadOk(hd)
    ensures ReadHead(HeadBytes(hd, mode, size) + rest) == GoodHead(hd)
  {
    hide ToBytes, WordAt;
    var s := HeadBytes(hd, mode, size) + rest;
    WordBack(MAGIC, s[4..]);
    assert s == ToBytes(MAGIC, 4) + s[4..];
    assert s[4] == 1 && s[5] == hd.flags && s[7] == hd.wlog;
  }

  /** The frame footer, when there is one. */
  function FootBytes(hd: Head, out: seq<byte>): (s: seq<byte>) {
    if HasChecksum(hd) then ToBytes(Xxh64.Hash(out, 0), 8) + ToBytes(FOOTER_MAGIC, 4) else []
  }

  lemma FootReads(hd: Head, out: seq<byte>)
    ensures ReadFoot(hd, FootBytes(hd, out), out) == Frame(Unfilter(hd, out), |FootBytes(hd, out)|)
  {
    hide ToBytes, Num, Xxh64.Hash, Unfilter, WordAt;
    if HasChecksum(hd) {
      var s := FootBytes(hd, out);
      Powers();
      ToBytesNum(Xxh64.Hash(out, 0), 8);
      assert s[..8] == ToBytes(Xxh64.Hash(out, 0), 8);
      WordBack(FOOTER_MAGIC, []);
      assert s[8..] == ToBytes(FOOTER_MAGIC, 4) + [];
      WordShift(s, 8);
    }
  }

  lemma WordShift(s: seq<byte>, at: nat)
    requires at + 4 <= |s|
    ensures WordAt(s, at) == WordAt(s[at..], 0)
  {
  }

  /** Header, carried blocks, last block and footer together are read as the unfiltered output. */
  lemma FrameReads(dec: Decoder, hd: Head, mode: byte, s: seq<byte>, t: seq<byte>, h: seq<byte>, b: seq<byte>, cap: nat)
    requires HeadOk(hd) && |h| + |b| <= cap && Carries(dec, hd, s, h, cap) && ReadsAs(dec, hd, t, h, b, true)
    ensures Decompress(dec, HeadBytes(hd, mode, |h + b|) + s + t + FootBytes(hd, h + b), cap)
            == Bytes(Unfilter(hd, h + b))
  {
    hide ReadBlocks, ReadsAs, ReadFoot, ReadHead, HeadBytes, FootBytes, Carries, Unfilter;
    var out := h + b;
    var head, foot := HeadBytes(hd, mode, |out|), FootBytes(hd, out);
    var a := head + s + t + foot;
    assert a == head + (s + t + foot);
    HeadReads(hd, mode, |out|, s + t + foot);
    assert a[HEADER..] == s + t + foot;
    CarriesHome(dec, hd, s, t, foot, h, b, cap);
    FootReads(hd, out);
  }

  /** Carried blocks and one that is refused: the frame cannot be decompressed. */
  lemma FrameRefused(dec: Decoder, hd: Head, mode: byte, size: nat, s: seq<byte>, t: seq<byte>, more: seq<byte>,
                     h: seq<byte>, b: seq<byte>, cap: nat)
    requires HeadOk(hd) && |h| + |b| <= cap && Carries(dec, hd, s, h, cap) && RefusedAs(dec, hd, t, h, b)
    ensures Decompress(dec, HeadBytes(hd, mode, size) + s + t + more, cap).Err?
  {
    hide ReadHead, HeadBytes, Carries, ReadBlock;
    var head := HeadBytes(hd, mode, size);
    var a := head + s + t + more;
    assert a == head + (s + (t + more));
    HeadReads(hd, mode, size, s + (t + more));
    assert a[HEADER..] == s + (t + more);
    BlocksRefused(dec, hd, s, t, more, h, b, cap);
  }

  lemma BlocksRefused(dec: Decoder, hd: Head, s: seq<byte>, t: seq<byte>, more: seq<byte>, h: seq<byte>, b: seq<byte>,
                      cap: nat)
    requires HeadOk(hd) && |h| + |b| <= cap && Carries(dec, hd, s, h, cap) && RefusedAs(dec, hd, t, h, b)
    ensures ReadBlocks(dec, hd, s + (t + more), [], cap).Refused?
  {
    hide ReadBlock;
    assert ReadBlock(dec, hd, t + more, h, cap - |h|).Stop?;
  }

  /** How much of a frame is there: blocks read back up to pos, and from a block that is not on whatever follows. */
  datatype Progress = Progress(body: seq<byte>, tail: seq<byte>, pos: nat, fate: Fate)

  /** What is known of the frame while it is being written; at is where the last block, or the first that is not read
      back, begins, and that block is the beginning of the tail. */
  ghost predicate Underway(dec: Decoder, hd: Head, src: seq<byte>, g: Progress, at: nat, bad: seq<byte>, upto: nat,
                           cap: nat)
    requires HeadOk(hd) && |src| <= cap
  {
    g.pos <= |src| && at <= upto <= |src| && Carries(dec, hd, g.body, src[..at], cap)
    && (g.fate == Readable && g.pos < |src| ==> g.tail == [] && at == g.pos)
    && (g.fate == Readable && g.pos == |src| ==> ReadsAs(dec, hd, g.tail, src[..at], src[at..], true))
    && (g.fate == Unreadable
       ==> |bad| <= |g.tail| && g.tail[..|bad|] == bad && RefusedAs(dec, hd, bad, src[..at], src[at..upto]))
  }

  /** One more block. */
  function Extended(g: Progress, bytes: seq<byte>, end: nat, fate: Fate, last: bool): (q: Progress) {
    if g.fate != Readable then Progress(g.body, g.tail + bytes, end, g.fate)
    else if fate == Readable && !last then Progress(g.body + bytes, [], end, Readable)
    else Progress(g.body, g.tail + bytes, end, fate)
  }

  lemma UnderwayOn(dec: Decoder, hd: Head, src: seq<byte>, g: Progress, at: nat, bad: seq<byte>, upto: nat, cap: nat,
                   bytes: seq<byte>, end: nat, fate: Fate)
    returns (at': nat, bad': seq<byte>, upto': nat)
    requires HeadOk(hd) && |src| <= cap && Underway(dec, hd, src, g, at, bad, upto, cap) && g.pos < end <= |src|
    requires fate == Readable ==> ReadsAs(dec, hd, bytes, src[..g.pos], src[g.pos..end], end == |src|)
    requires fate == Unreadable ==> RefusedAs(dec, hd, bytes, src[..g.pos], src[g.pos..end])
    ensures Underway(dec, hd, src, Extended(g, bytes, end, fate, end == |src|), at', bad', upto', cap)
    ensures g.fate == Readable ==> g.tail == []
  {
    hide Carries, ReadsAs, RefusedAs;
    at', bad', upto' := at, bad, upto;
    if g.fate != Readable {
      assert |bad| <= |g.tail| ==> (g.tail + bytes)[..|bad|] == g.tail[..|bad|];
    } else if fate == Readable && end < |src| {
      CarriesOn(dec, hd, g.body, bytes, src[..g.pos], src[g.pos..end], cap);
      assert src[..g.pos] + src[g.pos..end] == src[..end];
      at', upto' := end, end;
    } else {
      at', bad', upto' := g.pos, bytes, end;
      assert [] + bytes == bytes && bytes[..|bytes|] == bytes;
      if end == |src| {
        assert src[g.pos..end] == src[g.pos..];
      }
    }
  }

  lemma ReadyEarlier(m: Matcher, o: Plan, end: nat, n: nat)
    requires Ready(m, o, n) && end <= n
    ensures Ready(m, o, end)
  {
  }

  // ---------------------------------------------------------------- the blocks of a frame

  /** Where block number i begins. */
  function StartOf(n: nat, i: nat): (at: nat) { Min(i * MAX_BLOCK, n) }

  /** The bytes of the first blocks, by the candidates they were written from. */
  function BlocksOf(o: Plan, src: seq<byte>, cs: seq<VvEmit.Candidates>): (s: seq<byte>) {
    if cs == [] then []
    else
      var k, n := |cs| - 1, |src|;
      BlocksOf(o, src, cs[..k])
      + Written(cs[k], o.mode != Fast, o.v2, src[StartOf(n, k)..StartOf(n, k + 1)], StartOf(n, k + 1) == n)
  }

  /** The fate of the first blocks: that of the first that is not read back. */
  function FatesOf(o: Plan, n: nat, cs: seq<VvEmit.Candidates>): (f: Fate) {
    if cs == [] then Readable
    else
      var k := |cs| - 1;
      var f := FatesOf(o, n, cs[..k]);
      if f != Readable then f else FateOf(cs[k], o.mode != Fast, o.v2, StartOf(n, k), StartOf(n, k + 1) - StartOf(n, k))
  }

  lemma OneMoreBlock(o: Plan, src: seq<byte>, cs: seq<VvEmit.Candidates>, c: VvEmit.Candidates, at: nat, end: nat)
    requires at == StartOf(|src|, |cs|) && end == StartOf(|src|, |cs| + 1)
    ensures at <= end <= |src|
    ensures BlocksOf(o, src, cs + [c])
            == BlocksOf(o, src, cs) + Written(c, o.mode != Fast, o.v2, src[at..end], end == |src|)
  {
    hide Written;
    var more := cs + [c];
    assert more[..|more| - 1] == cs;
  }

  lemma OneMoreFate(o: Plan, n: nat, cs: seq<VvEmit.Candidates>, c: VvEmit.Candidates, at: nat, end: nat)
    requires at == StartOf(n, |cs|) && end == StartOf(n, |cs| + 1)
    ensures at <= end
    ensures FatesOf(o, n, cs + [c])
            == if FatesOf(o, n, cs) != Readable then FatesOf(o, n, cs)
               else FateOf(c, o.mode != Fast, o.v2, at, end - at)
  {
    hide FateOf;
    var more := cs + [c];
    assert more[..|more| - 1] == cs;
  }

  /** Where the candidates for all blocks come from. */
  ghost predicate AllMade(o: Plan, c: Config, src: seq<byte>, cs: seq<VvEmit.Candidates>)
    requires PlanOk(o)
  {
    forall k :: 0 <= k < |cs| ==> SomehowMade(o, c, src, StartOf(|src|, k), StartOf(|src|, k + 1), cs[k])
  }

  lemma OneMoreMade(o: Plan, c: Config, src: seq<byte>, cs: seq<VvEmit.Candidates>, at: nat, end: nat,
                    r: SeqCodes.Reps, t: Tables, k: VvEmit.Candidates)
    requires PlanOk(o) && AllMade(o, c, src, cs) && BlockMade(o, c, src, at, end, r, t, k)
    requires at == StartOf(|src|, |cs|) && end == StartOf(|src|, |cs| + 1)
    ensures AllMade(o, c, src, cs + [k])
  {
    hide BlockMade, StartOf;
  }

  /** A whole frame, by its candidates. */
  function FrameOf(o: Plan, mode: byte, src: seq<byte>, cs: seq<VvEmit.Candidates>): (s: seq<byte>) {
    HeadBytes(o.hd, mode, |src|) + (if |src| == 0 then RawBlock(true, []) else BlocksOf(o, src, cs))
      + FootBytes(o.hd, src)
  }

  /** The room a frame of n bytes never exceeds: vv_compress_bound. */
  function Bound(n: nat): (b: nat) { n + n / 255 + 256 + HEADER + FOOTER }

  /** The frame so far: what is there is made of the candidates, and what is known of it. */
  ghost predicate Made(dec: Decoder, o: Plan, src: seq<byte>, g: Progress, cs: seq<VvEmit.Candidates>, cap: nat)
    requires PlanOk(o) && |src| <= cap
  {
    (exists at, bad, upto :: Underway(dec, o.hd, src, g, at, bad, upto, cap))
    && Slim(|g.body| + |g.tail|, g.pos, |src|) && g.pos == StartOf(|src|, |cs|)
    && g.body + g.tail == (if |src| == 0 then RawBlock(true, []) else BlocksOf(o, src, cs))
    && g.fate == FatesOf(o, |src|, cs) && (Safe(o, |src|) ==> g.fate == Readable)
  }

  /** One more block of the loop. */
  lemma MadeOn(dec: Decoder, o: Plan, src: seq<byte>, g: Progress, cs: seq<VvEmit.Candidates>, cap: nat,
               bytes: seq<byte>, end: nat, fate: Fate, c: VvEmit.Candidates)
    requires PlanOk(o) && |src| <= cap && Made(dec, o, src, g, cs, cap) && g.pos < |src|
    requires end == g.pos + Min(|src| - g.pos, MAX_BLOCK) && |bytes| <= end - g.pos + 6
    requires bytes == Written(c, o.mode != Fast, o.v2, src[g.pos..end], end == |src|)
    requires fate == FateOf(c, o.mode != Fast, o.v2, g.pos, end - g.pos) && (Safe(o, end - g.pos) ==> fate == Readable)
    requires fate == Readable ==> ReadsAs(dec, o.hd, bytes, src[..g.pos], src[g.pos..end], end == |src|)
    requires fate == Unreadable ==> RefusedAs(dec, o.hd, bytes, src[..g.pos], src[g.pos..end])
    ensures Made(dec, o, src, Extended(g, bytes, end, fate, end == |src|), cs + [c], cap)
  {
    hide LzOptimal.PricesOk, ReadsAs, RefusedAs, RawBlock, Underway, FateOf, Written, BlocksOf, FatesOf, StartOf, Slim;
    var at, bad, upto :| Underway(dec, o.hd, src, g, at, bad, upto, cap);
    NextStart(|src|, |cs|);
    OneMoreBlock(o, src, cs, c, g.pos, end);
    OneMoreFate(o, |src|, cs, c, g.pos, end);
    StaysSlim(|g.body| + |g.tail|, g.pos, end - g.pos, |bytes|, |src|);
    var at', bad', upto' := UnderwayOn(dec, o.hd, src, g, at, bad, upto, cap, bytes, end, fate);
    ExtendedBytes(g, bytes, end, fate, end == |src|);
  }

  lemma MadeSize(dec: Decoder, o: Plan, src: seq<byte>, g: Progress, cs: seq<VvEmit.Candidates>, cap: nat)
    requires PlanOk(o) && |src| <= cap && Made(dec, o, src, g, cs, cap)
    ensures g.pos <= |src| && (Safe(o, |src|) ==> g.fate == Readable)
    ensures HEADER + |g.body| + |g.tail| + FOOTER <= Bound(|src|)
  {
    assert HEADER + |g.body| + |g.tail| + FOOTER <= Bound(|src|);
  }

  lemma MadeStart(dec: Decoder, o: Plan, src: seq<byte>, g: Progress, cap: nat)
    requires PlanOk(o) && |src| <= cap && g == Progress([], if |src| == 0 then RawBlock(true, []) else [], 0, Readable)
    ensures Made(dec, o, src, g, [], cap)
  {
    hide Underway, LzOptimal.PricesOk, RawBlock;
    assert BlocksOf(o, src, []) == [] && FatesOf(o, |src|, []) == Readable && StartOf(|src|, 0) == 0;
    UnderwayStart(dec, o.hd, src, g, cap);
  }

  lemma MadeWhole(dec: Decoder, o: Plan, mode: byte, src: seq<byte>, g: Progress, cs: seq<VvEmit.Candidates>, cap: nat)
    requires PlanOk(o) && |src| <= cap && Made(dec, o, src, g, cs, cap) && g.pos == |src|
    ensures var whole := HeadBytes(o.hd, mode, |src|) + g.body + g.tail + FootBytes(o.hd, src);
            whole == FrameOf(o, mode, src, cs) && g.fate == FatesOf(o, |src|, cs)
            && (g.fate == Readable ==> Decompress(dec, whole, cap) == Bytes(Unfilter(o.hd, src)))
            && (g.fate == Unreadable ==> Decompress(dec, whole, cap).Err?)
  {
    hide Underway, LzOptimal.PricesOk, RawBlock, HeadBytes, FootBytes, BlocksOf, FatesOf, StartOf, Decompress, Unfilter,
         Slim;
    var at, bad, upto :| Underway(dec, o.hd, src, g, at, bad, upto, cap);
    FrameFate(dec, o.hd, mode, src, g, at, bad, upto, cap);
    var head, foot := HeadBytes(o.hd, mode, |src|), FootBytes(o.hd, src);
    assert head + g.body + g.tail + foot == head + (g.body + g.tail) + foot;
  }

  lemma MadeAt(dec: Decoder, o: Plan, src: seq<byte>, g: Progress, cs: seq<VvEmit.Candidates>, cap: nat)
    requires PlanOk(o) && |src| <= cap && Made(dec, o, src, g, cs, cap)
    ensures g.pos == StartOf(|src|, |cs|)
  {
  }

  /** A frame starts with the magic number, the version, flags, mode and window, and the size in eight bytes. */
  predicate Headed(s: seq<byte>, hd: Head, mode: byte, size: nat) {
    |s| >= 16 && s[..8] == [0x00, 0x01, 0x56, 0x56, 1, hd.flags, mode, hd.wlog] && Num(s[8..16]) == size
  }

  lemma FrameHeaded(o: Plan, mode: byte, src: seq<byte>, cs: seq<VvEmit.Candidates>)
    requires |src| < WORD64
    ensures Headed(FrameOf(o, mode, src, cs), o.hd, mode, |src|)
  {
    hide ToBytes, BlocksOf, FootBytes, Num, RawBlock;
    var s := FrameOf(o, mode, src, cs);
    var head := HeadBytes(o.hd, mode, |src|);
    assert s[..16] == head;
    MagicBytes();
    Powers();
    ToBytesNum(|src|, 8);
    assert s[8..16] == head[8..] == ToBytes(|src|, 8);
    assert s[..8] == head[..8] == ToBytes(MAGIC, 4) + [1, o.hd.flags, mode, o.hd.wlog];
  }

  lemma MagicBytes()
    ensures ToBytes(MAGIC, 4) == [0x00, 0x01, 0x56, 0x56]
  {
    assert ToBytes(MAGIC, 4) == [0] + ToBytes(0x56_5601, 3);
    assert ToBytes(0x56_5601, 3) == [1] + ToBytes(0x5656, 2);
    assert ToBytes(0x5656, 2) == [0x56] + ToBytes(0x56, 1);
    assert ToBytes(0x56, 1) == [0x56] + [];
  }

  /** Blocks of a mebibyte each, the last of what is left. */
  predicate Divided(n: nat, cs: seq<VvEmit.Candidates>) {
    n <= 0x10_0000 * |cs| && (cs != [] ==> 0x10_0000 * (|cs| - 1) < n)
  }

  lemma NotDone(n: nat, k: nat)
    requires StartOf(n, k) < n
    ensures 0x10_0000 * k < n
  {
  }

  lemma AllDone(n: nat, k: nat)
    requires StartOf(n, k) == n
    ensures n <= 0x10_0000 * k
  {
  }

  /** One pass of the block loop. */
  method AddBlock(m: Matcher, o: Plan, src: seq<byte>, g: Progress, tmp: array<byte>, ghost cs: seq<VvEmit.Candidates>,
                  ghost dec: Decoder, ghost cap: nat)
    returns (q: Progress, ghost more: seq<VvEmit.Candidates>)
    requires Ready(m, o, |src|) && Lawful(dec) && |src| <= cap && tmp !in m.Repr() && tmp.Length == TokenRoom(|src|)
    requires Made(dec, o, src, g, cs, cap) && g.pos < |src| && (cs == [] ==> g.pos == 0) && AllMade(o, m.c, src, cs)
    modifies m`reps, m.Repr(), tmp
    ensures Ready(m, o, |src|) && Made(dec, o, src, q, more, cap) && g.pos < q.pos <= |src|
    ensures AllMade(o, m.c, src, more)
    ensures cs < more && (cs == [] ==> FirstMade(o, m.c, src, old(m.reps), old(m.View()), more[0]))
    ensures 0x10_0000 * (|more| - 1) < |src|
  {
    hide LzOptimal.PricesOk, MaxOffset, Lawful, ReadsAs, RefusedAs, Sized, Made, MadeFrom, TokensMade, FateOf, Written,
         Safe, AllMade, Tight, StartOf;
    var end := g.pos + Min(|src| - g.pos, MAX_BLOCK);
    ReadyEarlier(m, o, end, |src|);
    MadeAt(dec, o, src, g, cs, cap);
    NextStart(|src|, |cs|);
    NotDone(|src|, |cs|);
    ghost var r, t := m.reps, m.View();
    var bytes, f, c := EmitBlock(m, o, src, g.pos, end, end == |src|, tmp, dec);
    MadeOn(dec, o, src, g, cs, cap, bytes, end, f, c);
    OneMoreMade(o, m.c, src, cs, g.pos, end, r, t, c);
    q, more := Extended(g, bytes, end, f, end == |src|), cs + [c];
  }

  /** vv_compress_inner with its decisions in the plan: a frame, or nothing when it does not fit into dstCap bytes. */
  method CompressInner(m: Matcher, o: Plan, mode: byte, src: seq<byte>, dstCap: nat, ghost dec: Decoder, ghost cap: nat)
    returns (frame: Option<seq<byte>>, fate: Fate, ghost cs: seq<VvEmit.Candidates>)
    requires Ready(m, o, |src|) && Lawful(dec) && |src| <= cap
    modifies m`reps, m.Repr()
    ensures frame.Some? ==> |frame.value| <= dstCap
    ensures dstCap >= Bound(|src|) ==> frame.Some?
    ensures frame.Some? ==> frame.value == FrameOf(o, mode, src, cs) && fate == FatesOf(o, |src|, cs)
    ensures frame.Some? ==> Headed(frame.value, o.hd, mode, |src|) && Divided(|src|, cs)
    ensures Safe(o, |src|) ==> fate == Readable
    ensures frame.Some? && src != [] ==> cs != [] && FirstMade(o, m.c, src, old(m.reps), old(m.View()), cs[0])
    ensures AllMade(o, m.c, src, cs)
    ensures frame.Some? && fate == Readable ==> Decompress(dec, frame.value, cap) == Bytes(Unfilter(o.hd, src))
    ensures frame.Some? && fate == Unreadable ==> Decompress(dec, frame.value, cap).Err?
  {
    hide LzOptimal.PricesOk, MaxOffset, Lawful, ReadsAs, RefusedAs, HeadBytes, FootBytes, Unfilter, Decompress,
         RawBlock, Sized, Made, FirstMade, FateOf, Written, FrameOf, FatesOf, Bound, Safe, SomehowMade, Headed, StartOf;
    var bound := Min(|src|, MAX_BLOCK);
    var tmp := new byte[bound + bound / 255 + 1024](_ => 0);
    var head := HeadBytes(o.hd, mode, |src|);
    var g := Progress([], if |src| == 0 then RawBlock(true, []) else [], 0, Readable);
    frame, cs := None, [];
    MadeStart(dec, o, src, g, cap);
    while g.pos < |src|
      invariant Made(dec, o, src, g, cs, cap) && g.pos <= |src| && fresh(tmp) && Ready(m, o, |src|)
      invariant AllMade(o, m.c, src, cs)
      invariant cs != [] ==> 0x10_0000 * (|cs| - 1) < |src|
      invariant cs == [] ==> g.pos == 0 && m.reps == old(m.reps) && m.View() == old(m.View())
      invariant cs != [] ==> FirstMade(o, m.c, src, old(m.reps), old(m.View()), cs[0])
      decreases |src| - g.pos
    {
      g, cs := AddBlock(m, o, src, g, tmp, cs, dec, cap);
      MadeSize(dec, o, src, g, cs, cap);
      if HEADER + |g.body| + |g.tail| > dstCap {
        return None, g.fate, cs;
      }
    }
    fate := g.fate;
    MadeSize(dec, o, src, g, cs, cap);
    FootSize(o.hd, src);
    var whole := head + g.body + g.tail + FootBytes(o.hd, src);
    if |whole| <= dstCap {
      MadeWhole(dec, o, mode, src, g, cs, cap);
      MadeAt(dec, o, src, g, cs, cap);
      AllDone(|src|, |cs|);
      FrameHeaded(o, mode, src, cs);
      frame := Some(whole);
    }
  }

  lemma NextStart(n: nat, k: nat)
    requires StartOf(n, k) < n
    ensures StartOf(n, k + 1) == StartOf(n, k) + Min(n - StartOf(n, k), MAX_BLOCK)
  {
  }

  lemma ExtendedBytes(g: Progress, bytes: seq<byte>, end: nat, fate: Fate, last: bool)
    requires g.fate == Readable ==> g.tail == []
    ensures var q := Extended(g, bytes, end, fate, last);
            q.body + q.tail == g.body + g.tail + bytes && q.fate == if g.fate != Readable then g.fate else fate
  {
    assert g.body + (g.tail + bytes) == g.body + g.tail + bytes;
  }

  lemma UnderwayStart(dec: Decoder, hd: Head, src: seq<byte>, g: Progress, cap: nat)
    requires HeadOk(hd) && |src| <= cap && g == Progress([], if |src| == 0 then RawBlock(true, []) else [], 0, Readable)
    ensures Underway(dec, hd, src, g, 0, [], 0, cap) && Slim(|g.body| + |g.tail|, 0, |src|)
  {
    hide Carries, ReadsAs, ReadBlock;
    CarriesNothing(dec, hd, cap);
    assert src[..0] == [];
    if |src| == 0 {
      RawReads(dec, hd, [], [], true);
      assert src[0..] == [];
    }
  }

  /** The frame that was written is read back or refused. */
  lemma FrameFate(dec: Decoder, hd: Head, mode: byte, src: seq<byte>, g: Progress, at: nat, bad: seq<byte>, upto: nat,
                  cap: nat)
    requires HeadOk(hd) && |src| <= cap && Underway(dec, hd, src, g, at, bad, upto, cap) && g.pos == |src|
    ensures var whole := HeadBytes(hd, mode, |src|) + g.body + g.tail + FootBytes(hd, src);
            (g.fate == Readable ==> Decompress(dec, whole, cap) == Bytes(Unfilter(hd, src)))
            && (g.fate == Unreadable ==> Decompress(dec, whole, cap).Err?)
  {
    hide Carries, ReadsAs, RefusedAs, HeadBytes, FootBytes, Unfilter, Decompress;
    var head, foot := HeadBytes(hd, mode, |src|), FootBytes(hd, src);
    if g.fate == Readable {
      assert src[..at] + src[at..] == src;
      FrameReads(dec, hd, mode, g.body, g.tail, src[..at], src[at..], cap);
    } else if g.fate == Unreadable {
      var rest := g.tail[|bad|..];
      assert g.tail == bad + rest;
      assert head + g.body + g.tail + foot == head + g.body + bad + (rest + foot);
      FrameRefused(dec, hd, mode, |src|, g.body, bad, rest + foot, src[..at], src[at..upto], cap);
    }
  }

  // ---------------------------------------------------------------- room

  /** Blocks that take little more than what they hold: all but the last are of full size. */
  predicate Slim(taken: nat, pos: nat, n: nat) {
    pos <= n && (pos < n ==> 255 * taken <= 256 * pos) && 255 * taken <= 256 * pos + 255 * 6
  }

  lemma StaysSlim(taken: nat, pos: nat, size: nat, more: nat, n: nat)
    requires Slim(taken, pos, n) && pos < n && size == Min(n - pos, MAX_BLOCK) && more <= size + 6
    ensures Slim(taken + more, pos + size, n)
  {
  }

  lemma FootSize(hd: Head, out: seq<byte>)
    ensures |FootBytes(hd, out)| <= FOOTER
  {
  }

  // ---------------------------------------------------------------- with a branch filter

  /** The branch filter applied before compression. */
  function Filtered(hd: Head, src: seq<byte>): (t: seq<byte>)
    ensures |t| == |src|
  {
    if hd.flags / 4 % 2 == 1 then X86.Filter(src, 0, 0, 0, true)
    else if hd.flags / 8 % 2 == 1 then Arm64.Filter(src, 0, true) else src
  }

  lemma FilterBack(hd: Head, src: seq<byte>)
    requires HeadOk(hd)
    ensures Unfilter(hd, Filtered(hd, src)) == src
  {
    hide X86.Filter, Arm64.Filter;
    X86.RoundTrip(src, 0, true);
    Arm64.RoundTrip(src, 0, true);
  }

  /** vv_compress: a frame that decompresses to the source, whatever the mode, the window, the filter and the estimates;
      or one that is refused, because a literal-only block in it has too many literals for sixteen bits. */
  method Compress(m: Matcher, o: Plan, mode: byte, src: seq<byte>, dstCap: nat, ghost dec: Decoder, ghost cap: nat)
    returns (frame: Option<seq<byte>>, fate: Fate, ghost cs: seq<VvEmit.Candidates>)
    requires Ready(m, o, |src|) && Lawful(dec) && |src| <= cap
    modifies m`reps, m.Repr()
    ensures frame.Some? ==> |frame.value| <= dstCap
    ensures dstCap >= Bound(|src|) ==> frame.Some?
    ensures frame.Some? ==> frame.value == FrameOf(o, mode, Filtered(o.hd, src), cs) && fate == FatesOf(o, |src|, cs)
    ensures frame.Some? ==> Headed(frame.value, o.hd, mode, |src|) && Divided(|src|, cs)
    ensures Safe(o, |src|) ==> fate == Readable
    ensures frame.Some? && src != [] ==>
              cs != [] && FirstMade(o, m.c, Filtered(o.hd, src), old(m.reps), old(m.View()), cs[0])
    ensures AllMade(o, m.c, Filtered(o.hd, src), cs)
    ensures frame.Some? && fate == Readable ==> Decompress(dec, frame.value, cap) == Bytes(src)
    ensures frame.Some? && fate == Unreadable ==> Decompress(dec, frame.value, cap).Err?
  {
    hide Lawful, Decompress, Unfilter, X86.Filter, Arm64.Filter, Sized, Suits, LzOptimal.PricesOk, RepsWithin;
    FilterBack(o.hd, src);
    ghost var y := Filtered(o.hd, src);
    var copy := new byte[|src|](i requires 0 <= i < |src| => src[i]);
    assert copy[..] == src;
    if o.hd.flags / 4 % 2 == 1 {
      var done := X86.BcjX86(copy, 0, true);
    } else if o.hd.flags / 8 % 2 == 1 {
      var done := Arm64.BcjArm64(copy, 0, true);
    }
    assert copy[..] == y;
    frame, fate, cs := CompressInner(m, o, mode, copy[..], dstCap, dec, cap);
  }
}
