/** The block decoders of the codec behind one dispatch, in place behind the output that is there already. */
module VvBlocks {
  import opened Bits
  import opened LittleEndian
  import opened Wrappers
  import opened VvFrame
  import opened VvEmit
  import opened VvLaw
  import Lz
  import LzDecode
  import LzStripped
  import SeqCodec
  import SeqCodes
  import SeqBlock
  import SeqLiterals
  import SeqDecode
  import SeqLoop
  import SeqStream
  import A1 = AnsCodec
  import A4 = AnsCodec4
  import H1 = HuffCodec

  // ---------------------------------------------------------------- decoders only append

  lemma {:induction false} DecodeAppends(p: Lz.Params, s: seq<byte>, h: seq<byte>)
    requires Lz.ParamsOk(p) && Lz.Decode(p, s, h).Done?
    ensures h <= Lz.Decode(p, s, h).h
    decreases |s|
  {
    hide Lz.ReadLen, Lz.DecodeMatch;
    if s != [] {
      var e := Lz.ReadLen(s[0] / 16, s[1..]);
      var s1 := s[1 + e.used..];
      if e.val < |s1| {
        MatchAppends(p, s[0] % 16, s1[e.val..], h + s1[..e.val]);
      }
    }
  }

  lemma {:induction false} MatchAppends(p: Lz.Params, mc: nat, s: seq<byte>, h: seq<byte>)
    requires Lz.ParamsOk(p) && Lz.DecodeMatch(p, mc, s, h).Done?
    ensures h <= Lz.DecodeMatch(p, mc, s, h).h
    decreases |s|
  {
    hide Lz.ReadLen, Lz.Decode, Lz.Offset;
    var e := Lz.ReadLen(mc, s[p.ob..]);
    DecodeAppends(p, s[p.ob + e.used..], Lz.CopyMatch(h, Lz.Offset(s, p.ob), e.val + p.minMatch));
  }

  lemma {:induction false} StrippedAppends(p: Lz.Params, s: seq<byte>, lits: seq<byte>, h: seq<byte>)
    requires Lz.ParamsOk(p) && LzStripped.DecodeStripped(p, s, lits, h).Done?
    ensures h <= LzStripped.DecodeStripped(p, s, lits, h).h
    decreases |s|
  {
    hide Lz.ReadLen, LzStripped.StrippedMatch;
    if s != [] {
      var e := Lz.ReadLen(s[0] / 16, s[1..]);
      var s1 := s[1 + e.used..];
      if s1 != [] {
        StrippedMatchAppends(p, s[0] % 16, s1, lits[e.val..], h + lits[..e.val]);
      }
    }
  }

  lemma {:induction false} StrippedMatchAppends(p: Lz.Params, mc: nat, s: seq<byte>, lits: seq<byte>, h: seq<byte>)
    requires Lz.ParamsOk(p) && LzStripped.StrippedMatch(p, mc, s, lits, h).Done?
    ensures h <= LzStripped.StrippedMatch(p, mc, s, lits, h).h
    decreases |s|
  {
    hide Lz.ReadLen, LzStripped.DecodeStripped, Lz.Offset;
    var e := Lz.ReadLen(mc, s[p.ob..]);
    StrippedAppends(p, s[p.ob + e.used..], lits, Lz.CopyMatch(h, Lz.Offset(s, p.ob), e.val + p.minMatch));
  }

  lemma {:induction false} LoopAppends(b: SeqDecode.Block, s: SeqDecode.State, n: nat)
    requires SeqDecode.BlockOk(b) && SeqDecode.StateOk(b, s) && SeqDecode.Loop(b, false, s, n).Done?
    ensures s.h <= SeqDecode.Loop(b, false, s, n).h
    decreases n
  {
    hide SeqDecode.Step, SeqDecode.InZone;
    if SeqDecode.More(b, s) {
      StepAppends(b, s);
      LoopAppends(b, SeqDecode.Step(b, true, s).s, n - 1);
    }
  }

  lemma StepAppends(b: SeqDecode.Block, s: SeqDecode.State)
    requires SeqDecode.BlockOk(b) && SeqDecode.StateOk(b, s) && SeqDecode.More(b, s) && SeqDecode.Step(b, true, s).Go?
    ensures s.h <= SeqDecode.Step(b, true, s).s.h
  {
    hide SeqStream.TakeCode, SeqCodes.OfDecode, SeqCodes.Base, Lz.CopyMatch;
  }

  lemma SequencesAppend(k: SeqCodes.Kind, src: seq<byte>, h: seq<byte>, end: nat, mo: nat, buf: seq<byte>)
    requires k != SeqCodes.LL && |h| <= end && |buf| >= end - |h| && SeqCodec.DecodeBlock(k, src, h, end, mo, buf).Done?
    ensures h <= SeqCodec.DecodeBlock(k, src, h, end, mo, buf).h
  {
    hide SeqDecode.Loop, SeqBlock.Unpack, SeqLiterals.Literals, Num;
    var p := SeqBlock.Unpack(src).value;
    var lits := SeqLiterals.Literals(p.fmt, p.data, p.lits, buf[..p.lits]).value;
    LoopAppends(SeqCodec.BlockOf(k, p, lits, h, end, mo), SeqCodec.FirstState(p, h), p.lits + p.matches + 16);
  }

  // ---------------------------------------------------------------- in place

  /** The block d is in place behind h; or there is none. */
  ghost predicate Placed(d: Decoded, h: seq<byte>, bytes: seq<byte>, op: nat) {
    d.Bytes? ==> op <= |bytes| && bytes[..op] == h + d.out
  }

  lemma PlacedDone(x: seq<byte>, h: seq<byte>, bytes: seq<byte>, op: nat)
    requires h <= x && op <= |bytes| && bytes[..op] == x
    ensures Placed(Added(Lz.Done(x), |h|), h, bytes, op) && Added(Lz.Done(x), |h|).Bytes?
  {
    assert h + x[|h|..] == x;
  }

  /** decode_block_tokens. */
  method DecodeTokens(data: seq<byte>, dst: array<byte>, at: nat, size: nat, ob: nat, mo: nat)
    returns (op: nat, ghost d: Decoded, ok: bool)
    requires (ob == 2 || ob == 3) && at + size <= dst.Length
    modifies dst
    ensures Yields(Tokens(data), old(dst[..at]), size, ob, mo, d) && Placed(d, old(dst[..at]), dst[..], op)
            && ok == d.Bytes?
  {
    hide Lz.Decode;
    ghost var h := dst[..at];
    var p := Lz.Params(ob, 4, mo, at + size);
    ghost var r := Lz.Decode(p, data, h);
    var code;
    code, op := LzDecode.TwoPhase(p, data, dst, at);
    ok := code == LzDecode.Ok;
    if ok {
      DecodeAppends(p, data, h);
      PlacedDone(r.h, h, dst[..], op);
      d := Added(r, |h|);
    } else {
      d := Err(Corrupt);
    }
  }

  /** vva_decode_sequences_limited and its form for the second format. */
  method DecodeSequenced(v2: bool, data: seq<byte>, dst: array<byte>, at: nat, size: nat, mo: nat)
    returns (op: nat, ghost d: Decoded, ok: bool)
    requires at + size <= dst.Length
    modifies dst
    ensures SomeBufferYields(v2, data, old(dst[..at]), size, mo, d) && Placed(d, old(dst[..at]), dst[..], op)
            && ok == d.Bytes?
  {
    hide SeqCodec.DecodeBlock;
    ghost var h := dst[..at];
    var st;
    ghost var junk;
    st, op, junk := SeqCodec.DecodeSequences(KindOf(v2), data, dst, at, at + size, mo);
    ghost var r := SeqCodec.DecodeBlock(KindOf(v2), data, h, at + size, mo, junk);
    ok := st == SeqLoop.Fine;
    if ok {
      SequencesAppend(KindOf(v2), data, h, at + size, mo, junk);
      PlacedDone(r.h, h, dst[..], op);
    }
    d := Added(r, |h|);
    assert SequencesYield(v2, data, h, size, mo, junk, d);
  }

  lemma BadIsNotOk(s: seq<byte>, n: nat)
    ensures A1.DecodeFrame(s, n, n) != A1.Bad(A1.Ok) && A4.DecodeFrame4(s, n, n) != A1.Bad(A1.Ok)
    ensures H1.DecodeFrame(s, n, n) != H1.Bad(H1.Ok)
  {
  }

  /** The literals of a literal-only block. */
  method ReadLiterals(tag: byte, s: seq<byte>, n: nat) returns (o: Option<seq<byte>>)
    requires tag == TAG_ANS || tag == TAG_ANS4 || tag == TAG_HUFFMAN
    ensures o == CodedLiterals(tag, s, n)
  {
    hide A1.DecodeFrame, A4.DecodeFrame4, H1.DecodeFrame;
    BadIsNotOk(s, n);
    var buf := new byte[n](_ => 0);
    var ok;
    if tag == TAG_ANS4 {
      var st, used := A4.VvaDecode4(s, buf, n);
      ok := st == A1.Ok;
    } else if tag == TAG_ANS {
      var st, used := A1.VvaDecode(s, buf, n);
      ok := st == A1.Ok;
    } else {
      var st, used := H1.VvhDecode(s, buf, n);
      ok := st == H1.Ok;
    }
    o := if ok then Some(buf[..n]) else None;
  }

  /** decode_block_ans, decode_block_ans4 and decode_block_huffman. */
  method DecodeLiteralOnly(tag: byte, data: seq<byte>, dst: array<byte>, at: nat, size: nat, ob: nat, mo: nat)
    returns (op: nat, ghost d: Decoded, ok: bool)
    requires (ob == 2 || ob == 3) && at + size <= dst.Length
             && (tag == TAG_ANS || tag == TAG_ANS4 || tag == TAG_HUFFMAN)
    modifies dst
    ensures d == LiteralBlock(tag, data, old(dst[..at]), size, ob, mo)
    ensures Placed(d, old(dst[..at]), dst[..], op) && ok == d.Bytes?
  {
    hide LzStripped.DecodeStripped, CodedLiterals, Num;
    op, d, ok := at, Err(Corrupt), false;
    if |data| < 4 {
      return;
    }
    TwoDigits(data[..2]);
    TwoDigits(data[2..4]);
    var count, coded := data[0] + 0x100 * data[1] as int, data[2] + 0x100 * data[3] as int;
    if 4 + coded > |data| {
      return;
    }
    var lits := ReadLiterals(tag, data[4..4 + coded], count);
    if lits.None? {
      return;
    }
    ghost var h := dst[..at];
    var p := Lz.Params(ob, 4, mo, at + size);
    ghost var r := LzStripped.DecodeStripped(p, data[4 + coded..], lits.value, h);
    var code;
    code, op := LzStripped.StrippedLoop(p, data[4 + coded..], lits.value, dst, at);
    ok := code == LzDecode.Ok;
    if ok {
      StrippedAppends(p, data[4 + coded..], lits.value, h);
      PlacedDone(r.h, h, dst[..], op);
    }
    d := Added(r, |h|);
  }

  lemma TwoDigits(s: seq<byte>)
    requires |s| == 2
    ensures Num(s) == s[0] + 0x100 * s[1] as int
  {
    assert s[1..][1..] == [];
    assert Num(s[1..]) == s[1];
  }

  /** The block decoders behind their dispatch; the coder with tag 'C' is not part of this model. What they yield is
      what the theorems about frames ask for, and it stands in the output behind what was there. */
  method DecodePayload(p: Payload, dst: array<byte>, at: nat, size: nat, ob: nat, mo: nat)
    returns (op: nat, ghost d: Decoded, ok: bool)
    requires (ob == 2 || ob == 3) && at + size <= dst.Length
    modifies dst
    ensures Yields(p, old(dst[..at]), size, ob, mo, d) && Placed(d, old(dst[..at]), dst[..], op) && ok == d.Bytes?
  {
    hide LiteralBlock, SomeBufferYields, Lz.Decode, Placed;
    match p
    case Tokens(data) =>
      op, d, ok := DecodeTokens(data, dst, at, size, ob, mo);
    case Entropy(tag, data) =>
      if tag == TAG_SEQ || tag == TAG_SEQ_V2 {
        op, d, ok := DecodeSequenced(tag == TAG_SEQ_V2, data, dst, at, size, mo);
      } else if tag == TAG_ANS || tag == TAG_ANS4 || tag == TAG_HUFFMAN {
        op, d, ok := DecodeLiteralOnly(tag, data, dst, at, size, ob, mo);
      } else {
        op, d, ok := at, Err(Corrupt), false;
        NothingPlaced(dst[..at], dst[..], op);
      }
  }

  lemma NothingPlaced(h: seq<byte>, bytes: seq<byte>, op: nat)
    ensures Placed(Err(Corrupt), h, bytes, op)
  {
  }
}
