/** What the payloads of blocks stand for, said of their bytes. */
module VvPayload {
  import opened Bits
  import opened LittleEndian
  import opened LzGrammar
  import opened VvFrame
  import opened VvLaw
  import Lz
  import LzStripped
  import VvBlocks
  import SeqCodes
  import SeqCodec
  import SeqGrammar
  import A1 = AnsCodec
  import A4 = AnsCodec4
  import H1 = HuffCodec

  /** A block of size bytes behind the output h, in the first form of tokens. */
  function Limits(h: seq<byte>, size: nat, ob: nat, mo: nat): (p: Lz.Params) { Lz.Params(ob, 4, mo, |h| + size) }

  lemma AddedIs(r: Lz.Result, h: seq<byte>, b: seq<byte>)
    requires r.Done? ==> h <= r.h
    ensures Added(r, |h|) == Bytes(b) <==> r == Lz.Done(h + b)
  {
    if r.Done? {
      assert r.h == h + r.h[|h|..];
      assert (h + b)[|h|..] == b;
    }
  }

  /** Plain tokens are decoded to b exactly where they spell it out. */
  lemma TokensStand(dec: Decoder, data: seq<byte>, h: seq<byte>, size: nat, ob: nat, mo: nat, b: seq<byte>)
    requires Lawful(dec) && (ob == 2 || ob == 3)
    ensures dec(Tokens(data), h, size, ob, mo) == Bytes(b)
            <==> Spells(Limits(h, size, ob, mo), data, Inline, h, h + b)
  {
    hide Lz.Decode, Spells;
    var p := Limits(h, size, ob, mo);
    var r := Lz.Decode(p, data, h);
    assert Yields(Tokens(data), h, size, ob, mo, dec(Tokens(data), h, size, ob, mo));
    if r.Done? {
      VvBlocks.DecodeAppends(p, data, h);
    }
    AddedIs(r, h, b);
    TokensMean(p, data, h, h + b);
  }

  /** Behind one of three tags lie two sizes, of the literals and of their coded form, in two bytes each, the coded
      literals and the tokens without them. */
  ghost predicate IsLiteralOnly(tag: byte, data: seq<byte>, h: seq<byte>, size: nat, ob: nat, mo: nat, b: seq<byte>)
    requires ob == 2 || ob == 3
  {
    |data| >= 4
    && var n, k := Num(data[..2]), Num(data[2..4]);
       4 + k <= |data|
       && exists lits: seq<byte> ::
            HoldsLiterals(tag, data[4..4 + k], n, lits)
            && Spells(Limits(h, size, ob, mo), data[4 + k..], Apart(lits), h, h + b)
  }

  ghost predicate HoldsLiterals(tag: byte, s: seq<byte>, n: nat, lits: seq<byte>) {
    if tag == 0x49 then A4.DecodeFrame4(s, n, n).Good? && lits == A4.DecodeFrame4(s, n, n).out
    else if tag == 0x41 then A1.DecodeFrame(s, n, n).Good? && lits == A1.DecodeFrame(s, n, n).out
    else tag == 0x48 && H1.DecodeFrame(s, n, n).Good? && lits == H1.DecodeFrame(s, n, n).out
  }

  lemma LiteralsHeld(tag: byte, s: seq<byte>, n: nat, lits: seq<byte>)
    requires tag == 0x49 || tag == 0x41 || tag == 0x48
    ensures CodedLiterals(tag, s, n).Some? && CodedLiterals(tag, s, n).value == lits <==> HoldsLiterals(tag, s, n, lits)
  {
    hide A4.DecodeFrame4, A1.DecodeFrame, H1.DecodeFrame;
  }

  lemma LiteralOnlyStands(dec: Decoder, tag: byte, data: seq<byte>, h: seq<byte>, size: nat, ob: nat, mo: nat,
                          b: seq<byte>)
    requires Lawful(dec) && (ob == 2 || ob == 3) && (tag == 0x49 || tag == 0x41 || tag == 0x48)
    ensures dec(Entropy(tag, data), h, size, ob, mo) == Bytes(b) <==> IsLiteralOnly(tag, data, h, size, ob, mo, b)
  {
    hide CodedLiterals, HoldsLiterals, LzStripped.DecodeStripped, Spells, Num;
    var p := Limits(h, size, ob, mo);
    assert Yields(Entropy(tag, data), h, size, ob, mo, dec(Entropy(tag, data), h, size, ob, mo));
    if |data| >= 4 && 4 + Num(data[2..4]) <= |data| {
      var n, k := Num(data[..2]), Num(data[2..4]);
      var o := CodedLiterals(tag, data[4..4 + k], n);
      if IsLiteralOnly(tag, data, h, size, ob, mo, b) {
        var lits: seq<byte> :| HoldsLiterals(tag, data[4..4 + k], n, lits)
                               && Spells(p, data[4 + k..], Apart(lits), h, h + b);
        LiteralsHeld(tag, data[4..4 + k], n, lits);
      }
      if o.Some? {
        var r := LzStripped.DecodeStripped(p, data[4 + k..], o.value, h);
        if r.Done? {
          VvBlocks.StrippedAppends(p, data[4 + k..], o.value, h);
        }
        AddedIs(r, h, b);
        StrippedMean(p, data[4 + k..], o.value, h, h + b);
        LiteralsHeld(tag, data[4..4 + k], n, o.value);
      }
    }
  }

  /** A block of sequences, in the first or in the second format, whatever the fresh literal buffer holds, or with some
      buffer. */
  ghost predicate IsSequenced(second: bool, data: seq<byte>, h: seq<byte>, size: nat, mo: nat, buf: seq<byte>,
                              b: seq<byte>)
  {
    |buf| >= size
    && SeqGrammar.IsBlock(if second then SeqCodes.MLV2 else SeqCodes.ML, data, h, |h| + size, mo, buf, h + b)
  }

  lemma SequencedStands(dec: Decoder, second: bool, data: seq<byte>, h: seq<byte>, size: nat, ob: nat, mo: nat,
                        b: seq<byte>)
    requires Lawful(dec) && (ob == 2 || ob == 3)
    ensures dec(Entropy(if second then 0x54 else 0x53, data), h, size, ob, mo) == Bytes(b) ==>
      exists buf: seq<byte> :: IsSequenced(second, data, h, size, mo, buf, b)
    ensures (forall buf: seq<byte> :: |buf| >= size ==> IsSequenced(second, data, h, size, mo, buf, b)) ==>
      dec(Entropy(if second then 0x54 else 0x53, data), h, size, ob, mo) == Bytes(b)
  {
    hide SeqCodec.DecodeBlock, SeqGrammar.IsBlock, LiteralBlock;
    var p := Entropy(if second then 0x54 else 0x53, data);
    var d, k := dec(p, h, size, ob, mo), KindOf(second);
    assert Yields(p, h, size, ob, mo, d);
    var buf: seq<byte> :| SequencesYield(second, data, h, size, mo, buf, d);
    var r := SeqCodec.DecodeBlock(k, data, h, |h| + size, mo, buf);
    if r.Done? {
      VvBlocks.SequencesAppend(k, data, h, |h| + size, mo, buf);
    }
    AddedIs(r, h, b);
    SeqGrammar.BlockMeans(k, data, h, |h| + size, mo, buf, h + b);
    assert d == Bytes(b) ==> IsSequenced(second, data, h, size, mo, buf, b);
  }

  /** Other tags, but for that of the coder that is not modelled, are refused. */
  lemma OthersRefused(dec: Decoder, tag: byte, data: seq<byte>, h: seq<byte>, size: nat, ob: nat, mo: nat)
    requires Lawful(dec) && (ob == 2 || ob == 3) && tag !in {0x41, 0x43, 0x48, 0x49, 0x53, 0x54}
    ensures dec(Entropy(tag, data), h, size, ob, mo) == Err(Corrupt)
  {
    assert Yields(Entropy(tag, data), h, size, ob, mo, dec(Entropy(tag, data), h, size, ob, mo));
  }
}
