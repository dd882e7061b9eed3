/** What the block decoders compute, and that each coding of a block decodes to the block. */
module VvLaw {
  import opened Bits
  import opened LittleEndian
  import opened Wrappers
  import opened VvFrame
  import opened VvEmit
  import Lz
  import LzTame
  import LzStripped
  import SeqCodes
  import SeqParse
  import SeqStream
  import SeqBlock
  import SeqCodec
  import SeqLiterals
  import A1 = AnsCodec
  import A4 = AnsCodec4
  import T = AnsTable
  import S = AnsStream
  import N = AnsNormalize
  import H1 = HuffCodec

  // ---------------------------------------------------------------- the decoders

  /** What a result adds to a history of n bytes. */
  function Added(r: Lz.Result, n: nat): (d: Decoded) {
    match r
    case Done(x) => if |x| < n then Err(Corrupt) else Bytes(x[n..])
    case Fail(Corrupt) => Err(VvFrame.Corrupt)
    case Fail(Overflow) => Err(VvFrame.Overflow)
  }

  /** The outcome of a decoder whose result is r where that is no failure; which failure is reported is its own
      affair. */
  predicate Follows(r: Lz.Result, n: nat, d: Decoded) { if r.Done? then d == Added(r, n) else d.Err? }

  function KindOf(v2: bool): (k: SeqCodes.Kind) { if v2 then SeqCodes.MLV2 else SeqCodes.ML }

  function TagOf(v2: bool): (t: byte) { if v2 then TAG_SEQ_V2 else TAG_SEQ }

  /** A sequence-coded block, with buf in the fresh literal buffer. */
  ghost predicate SequencesYield(v2: bool, data: seq<byte>, h: seq<byte>, size: nat, mo: nat, buf: seq<byte>,
                                 d: Decoded)
  {
    |buf| >= size && Follows(SeqCodec.DecodeBlock(KindOf(v2), data, h, |h| + size, mo, buf), |h|, d)
  }

  ghost predicate SomeBufferYields(v2: bool, data: seq<byte>, h: seq<byte>, size: nat, mo: nat, d: Decoded) {
    exists buf: seq<byte> :: SequencesYield(v2, data, h, size, mo, buf, d)
  }

  /** The literals of a literal-only block by its tag. */
  ghost function CodedLiterals(tag: byte, s: seq<byte>, n: nat): (o: Option<seq<byte>>) {
    if tag == TAG_ANS4 then SeqLiterals.OfAns(A4.DecodeFrame4(s, n, n))
    else if tag == TAG_ANS then SeqLiterals.OfAns(A1.DecodeFrame(s, n, n))
    else SeqLiterals.OfHuff(H1.DecodeFrame(s, n, n))
  }

  /** decode_block_ans, decode_block_ans4 and decode_block_huffman: the literals, then the stripped tokens over them. */
  ghost function LiteralBlock(tag: byte, data: seq<byte>, h: seq<byte>, size: nat, ob: nat, mo: nat): (d: Decoded)
    requires ob == 2 || ob == 3
  {
    if |data| < 4 then Err(Corrupt)
    else
      var count, coded := Num(data[..2]), Num(data[2..4]);
      if 4 + coded > |data| then Err(Corrupt)
      else
        match CodedLiterals(tag, data[4..4 + coded], count)
        case None => Err(Corrupt)
        case Some(lits) =>
          Added(LzStripped.DecodeStripped(Lz.Params(ob, 4, mo, |h| + size), data[4 + coded..], lits, h), |h|)
  }

  /** What decoding a payload behind the output h may yield; the coder with tag 'C' is free. */
  ghost predicate Yields(p: Payload, h: seq<byte>, size: nat, ob: nat, mo: nat, d: Decoded)
    requires ob == 2 || ob == 3
  {
    match p
    case Tokens(data) => Follows(Lz.Decode(Lz.Params(ob, 4, mo, |h| + size), data, h), |h|, d)
    case Entropy(tag, data) =>
      if tag == TAG_SEQ || tag == TAG_SEQ_V2 then SomeBufferYields(tag == TAG_SEQ_V2, data, h, size, mo, d)
      else if tag == TAG_ANS || tag == TAG_ANS4 || tag == TAG_HUFFMAN then d == LiteralBlock(tag, data, h, size, ob, mo)
      else tag == TAG_CTX || d == Err(Corrupt)
  }

  /** The block decoders of the codec. */
  ghost predicate Lawful(dec: Decoder) {
    forall p: Payload, h: seq<byte>, size: nat, ob: nat, mo: nat :: (ob == 2 || ob == 3) ==>
      Yields(p, h, size, ob, mo, dec(p, h, size, ob, mo))
  }

  /** One lawful answer to every payload. */
  ghost function Answer(p: Payload, h: seq<byte>, size: nat, ob: nat, mo: nat): (d: Decoded) {
    if ob != 2 && ob != 3 then Err(Corrupt)
    else
      match p
      case Tokens(data) => Added(Lz.Decode(Lz.Params(ob, 4, mo, |h| + size), data, h), |h|)
      case Entropy(tag, data) =>
        if tag == TAG_SEQ || tag == TAG_SEQ_V2 then
          Added(SeqCodec.DecodeBlock(KindOf(tag == TAG_SEQ_V2), data, h, |h| + size, mo, seq(size, _ => 0)), |h|)
        else if tag == TAG_ANS || tag == TAG_ANS4 || tag == TAG_HUFFMAN then LiteralBlock(tag, data, h, size, ob, mo)
        else Err(Corrupt)
  }

  ghost function Standard(): (dec: Decoder) {
    (p: Payload, h: seq<byte>, size: nat, ob: nat, mo: nat) => Answer(p, h, size, ob, mo)
  }

  /** There are block decoders as the theorems about frames ask for. */
  lemma StandardIsLawful()
    ensures Lawful(Standard())
  {
    hide Lz.Decode, LiteralBlock, SeqCodec.DecodeBlock;
    var dec := Standard();
    forall p: Payload, h: seq<byte>, size: nat, ob: nat, mo: nat | ob == 2 || ob == 3
      ensures Yields(p, h, size, ob, mo, dec(p, h, size, ob, mo))
    {
      if p.Entropy? && (p.tag == TAG_SEQ || p.tag == TAG_SEQ_V2) {
        var buf := seq(size, _ => 0);
        assert SequencesYield(p.tag == TAG_SEQ_V2, p.data, h, size, mo, buf, dec(p, h, size, ob, mo));
      }
    }
  }

  // ---------------------------------------------------------------- windows

  /** The encoder's offsets are within the decoder's bound. */
  lemma WindowCovered(hd: Head)
    requires HeadOk(hd)
    ensures Pow2(hd.wlog) - 1 <= MaxOffset(hd) && 0 < MaxOffset(hd) < 0x100_0000
  {
    Powers();
    Pow2Monotone(10, hd.wlog);
    if hd.wlog <= 16 {
      Pow2Monotone(hd.wlog, 16);
    } else if hd.wlog < 24 {
      Pow2Monotone(hd.wlog, 23);
      assert Pow2(24) == 2 * Pow2(23);
    }
  }

  // ---------------------------------------------------------------- each coding decodes

  /** The decoder's parameters for a block of size bytes behind h. */
  function ParamsFor(hd: Head, mm: nat, h: seq<byte>, size: nat): (p: Lz.Params)
    requires HeadOk(hd)
  {
    Lz.Params(OffsetBytes(hd), mm, MaxOffset(hd), |h| + size)
  }

  lemma AddedBack(h: seq<byte>, b: seq<byte>)
    ensures Added(Lz.Done(h + b), |h|) == Bytes(b)
  {
    assert (h + b)[|h|..] == b;
  }

  lemma TokensDecode(dec: Decoder, hd: Head, h: seq<byte>, b: seq<byte>, tokens: seq<byte>)
    requires Lawful(dec) && HeadOk(hd) && Lz.Decode(ParamsFor(hd, 4, h, |b|), tokens, h) == Lz.Done(h + b)
    ensures dec(Tokens(tokens), h, |b|, OffsetBytes(hd), MaxOffset(hd)) == Bytes(b)
  {
    hide Lz.Decode, MaxOffset;
    AddedBack(h, b);
    assert Yields(Tokens(tokens), h, |b|, OffsetBytes(hd), MaxOffset(hd),
           dec(Tokens(tokens), h, |b|, OffsetBytes(hd), MaxOffset(hd)));
  }

  /** What vva_encode_sequences promises of the bytes it returns. */
  ghost predicate Encodes(k: SeqCodes.Kind, ob: nat, tokens: seq<byte>, bytes: seq<byte>,
                          t: SeqStream.Tables, fmt: byte, data: seq<byte>)
    requires (ob == 2 || ob == 3) && k != SeqCodes.LL
  {
    var r := SeqParse.Parse(ob, SeqCodes.Base(k, 0), tokens);
    r.Parsed? && SeqCodec.Fit(k, t, r.seqs) && SeqLiterals.Holds(fmt, data, r.lits) && |data| <= |r.lits| <= |tokens|
    && bytes == SeqBlock.Pack(SeqCodec.Stored(k, t, fmt, data, |r.lits|, r.seqs))
  }

  lemma WithinIsRepresentable(k: SeqCodes.Kind, mx: nat, q: SeqParse.Seq)
    requires k != SeqCodes.LL && LzTame.Within(SeqCodes.Base(k, 0), mx, q) && mx < SeqCodes.Limit(k)
    ensures SeqStream.Representable(k, q)
  {
    hide SeqCodes.Base;
  }

  /** A sequence coding of tokens that decode to the block decodes to the block. */
  lemma SequencesDecode(dec: Decoder, hd: Head, h: seq<byte>, b: seq<byte>, v2: bool, mx: nat, tokens: seq<byte>,
                        bytes: seq<byte>, t: SeqStream.Tables, fmt: byte, data: seq<byte>)
    requires Lawful(dec) && HeadOk(hd) && mx < SeqCodes.Limit(KindOf(v2)) && |tokens| <= 0x4000_0000
    requires Encodes(KindOf(v2), OffsetBytes(hd), tokens, bytes, t, fmt, data)
    requires LzTame.Tame(OffsetBytes(hd), SeqCodes.Base(KindOf(v2), 0), mx, tokens) && SeqCodes.Base(KindOf(v2), 0) > 0
    requires Lz.Decode(ParamsFor(hd, SeqCodes.Base(KindOf(v2), 0), h, |b|), tokens, h) == Lz.Done(h + b)
    ensures dec(Entropy(TagOf(v2), bytes), h, |b|, OffsetBytes(hd), MaxOffset(hd)) == Bytes(b)
  {
    hide Lz.Decode, MaxOffset, SeqCodec.DecodeBlock, SeqCodec.Fit, SeqLiterals.Holds, SeqParse.Parse, SeqCodes.Base,
         SeqStream.Representable, LzTame.Within, SeqCodec.Stored, SeqBlock.Pack, LiteralBlock;
    var k, ob, mo := KindOf(v2), OffsetBytes(hd), MaxOffset(hd);
    WindowCovered(hd);
    var d := dec(Entropy(TagOf(v2), bytes), h, |b|, ob, mo);
    assert Yields(Entropy(TagOf(v2), bytes), h, |b|, ob, mo, d);
    var buf: seq<byte> :| SequencesYield(v2, bytes, h, |b|, mo, buf, d);
    var r := SeqParse.Parse(ob, SeqCodes.Base(k, 0), tokens);
    forall q | q in r.seqs ensures SeqStream.Representable(k, q) {
      WithinIsRepresentable(k, mx, q);
    }
    SeqCodec.BlockRoundTrip(ParamsFor(hd, SeqCodes.Base(k, 0), h, |b|), k, tokens, t, fmt, data, h, buf);
    AddedBack(h, b);
  }

  /** Both counts of a literal-only block fit the sixteen bits they are stored in. */
  predicate Sixteen(l: Literal) { l.count < 0x1_0000 && |l.coded| < 0x1_0000 }

  /** l is what extract_literals and the literal coders make of the tokens under the table norm. */
  predicate LiteralOf(ob: nat, tokens: seq<byte>, l: Literal, norm: seq<nat>)
    requires ob == 2 || ob == 3
  {
    var r := LzStripped.Split(ob, tokens);
    (l.tag == TAG_ANS4 || l.tag == TAG_ANS)
    && r.Parts? && |r.lits| == l.count > 0 && r.tokens == l.stripped && T.IsTable(norm) && S.Covered(norm, r.lits)
    && l.count <= N.INT_MAX && l.coded == if l.tag == TAG_ANS4 then A4.Frame4(norm, r.lits) else A1.Frame(norm, r.lits)
  }

  /** The parts of the payload, read back by position. */
  lemma LiteralSlices(l: Literal)
    ensures var d, k := LiteralData(l), |l.coded|;
            |d| >= 4 + k && d[..2] == ToBytes(l.count, 2) && d[2..4] == ToBytes(k, 2) && d[4..4 + k] == l.coded
            && d[4 + k..] == l.stripped
  {
    hide ToBytes;
  }

  lemma CountsBack(l: Literal)
    requires Sixteen(l)
    ensures Num(ToBytes(l.count, 2)) == l.count && Num(ToBytes(|l.coded|, 2)) == |l.coded|
  {
    hide ToBytes, Num;
    Powers();
    ToBytesNum(l.count, 2);
    ToBytesNum(|l.coded|, 2);
  }

  /** A literal coding whose counts fit sixteen bits decodes to the block. */
  lemma LiteralDecode(dec: Decoder, hd: Head, h: seq<byte>, b: seq<byte>, tokens: seq<byte>, l: Literal, norm: seq<nat>)
    requires Lawful(dec) && HeadOk(hd) && Sixteen(l) && LiteralOf(OffsetBytes(hd), tokens, l, norm)
    requires Lz.Decode(ParamsFor(hd, 4, h, |b|), tokens, h) == Lz.Done(h + b)
    ensures dec(Entropy(l.tag, LiteralData(l)), h, |b|, OffsetBytes(hd), MaxOffset(hd)) == Bytes(b)
  {
    hide Lz.Decode, MaxOffset, LzStripped.Split, LzStripped.DecodeStripped, A1.DecodeFrame, A4.DecodeFrame4, A1.Frame,
         A4.Frame4, T.IsTable, S.Covered, ToBytes, Num, LiteralData;
    var p := ParamsFor(hd, 4, h, |b|);
    var lits := LzStripped.Split(p.ob, tokens).lits;
    LzStripped.SplitDecodes(p, tokens, h);
    CountsBack(l);
    var d := LiteralData(l);
    LiteralSlices(l);
    assert l.coded + [] == l.coded;
    if l.tag == TAG_ANS4 {
      A4.Frame4RoundTrip(norm, lits, [], |lits|);
    } else {
      A1.FrameRoundTrip(norm, lits, [], |lits|);
    }
    AddedBack(h, b);
    assert Yields(Entropy(l.tag, d), h, |b|, p.ob, p.maxOffset, dec(Entropy(l.tag, d), h, |b|, p.ob, p.maxOffset));
  }
}
