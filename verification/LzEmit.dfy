/** emit_seq, and why what is emitted decodes to the block it was made from. */
module LzEmit {
  import opened LittleEndian
  import opened Lz

  // ---------------------------------------------------------------- bytes of one sequence

  /** write_varint. */
  function Varint(v: nat): (s: seq<byte>)
    ensures |s| == v / 255 + 1
  {
    if v >= 255 then [255] + Varint(v - 255) else [v]
  }

  lemma {:induction false} ReadVarint(v: nat, rest: seq<byte>)
    ensures ReadExt(Varint(v) + rest) == Ext(v, |Varint(v)|)
  {
    if v >= 255 {
      ReadVarint(v - 255, rest);
      assert (Varint(v) + rest)[1..] == Varint(v - 255) + rest;
    }
  }

  /** The four-bit form of a length, and its extension. */
  function Nibble(v: nat): (n: nat)
    ensures n <= 15
  {
    if v >= 15 then 15 else v
  }

  function Extension(v: nat): (s: seq<byte>) { if v >= 15 then Varint(v - 15) else [] }

  lemma ReadLength(v: nat, rest: seq<byte>)
    ensures ReadLen(Nibble(v), Extension(v) + rest) == Ext(v, |Extension(v)|)
  {
    if v >= 15 {
      ReadVarint(v - 15, rest);
    }
  }

  function OffsetBytes(off: nat, ob: nat): (s: seq<byte>)
    requires ob == 2 || ob == 3
    ensures |s| == ob
  {
    [off % 0x100, off / 0x100 % 0x100] + (if ob == 3 then [off / 0x1_0000 % 0x100] else [])
  }

  lemma OffsetRead(off: nat, ob: nat, rest: seq<byte>)
    requires ob == 2 || ob == 3
    requires off < (if ob == 3 then 0x100_0000 else 0x1_0000)
    ensures Offset(OffsetBytes(off, ob) + rest, ob) == off
  {
    var s := OffsetBytes(off, ob) + rest;
    assert s[0] == off % 0x100 && s[1] == off / 0x100 % 0x100;
    if ob == 3 {
      assert s[2] == off / 0x1_0000 % 0x100;
    }
  }

  /** emit_seq: a token byte, the literal run, and the match unless ml is 0. */
  function Sequence(ob: nat, minMatch: nat, lits: seq<byte>, ml: nat, off: nat): (s: seq<byte>)
    requires (ob == 2 || ob == 3) && (ml > 0 ==> ml >= minMatch)
  {
    [16 * Nibble(|lits|) + (if ml == 0 then 0 else Nibble(ml - minMatch))]
    + (Extension(|lits|) + (lits + (if ml == 0 then [] else OffsetBytes(off, ob) + Extension(ml - minMatch))))
  }

  /** The largest offset the bytes can hold. */
  function OffsetLimit(ob: nat): (n: nat) { if ob == 3 then 0x100_0000 else 0x1_0000 }

  lemma Nibbles(a: nat, b: nat)
    requires a <= 15 && b <= 15
    ensures (16 * a + b) / 16 == a && (16 * a + b) % 16 == b
  {
  }

  /** The parts of an emitted sequence with a match. */
  lemma SequenceParts(ob: nat, minMatch: nat, lits: seq<byte>, ml: nat, off: nat, rest: seq<byte>)
    requires (ob == 2 || ob == 3) && ml >= minMatch && ml > 0
    ensures var s := Sequence(ob, minMatch, lits, ml, off) + rest;
            var u := |Extension(|lits|)|;
            s[0] / 16 == Nibble(|lits|) && s[0] % 16 == Nibble(ml - minMatch)
            && |s| > u + 1 && s[1..] == Extension(|lits|) + s[1 + u..]
            && s[1 + u..] == lits + (OffsetBytes(off, ob) + Extension(ml - minMatch) + rest)
  {
    hide Nibble, Extension, OffsetBytes;
    var s := Sequence(ob, minMatch, lits, ml, off) + rest;
    Nibbles(Nibble(|lits|), Nibble(ml - minMatch));
    assert s[1..] == Extension(|lits|) + (lits + (OffsetBytes(off, ob) + Extension(ml - minMatch) + rest));
  }

  /** Decoding one emitted sequence with a match. */
  lemma DecodeSequence(p: Params, lits: seq<byte>, ml: nat, off: nat, rest: seq<byte>, h: seq<byte>)
    requires ParamsOk(p) && ml >= p.minMatch
    requires 0 < off < OffsetLimit(p.ob) && off <= p.maxOffset && off <= |h| + |lits| && |h| + |lits| + ml <= p.end
    ensures Decode(p, Sequence(p.ob, p.minMatch, lits, ml, off) + rest, h)
            == Decode(p, rest, CopyMatch(h + lits, off, ml))
  {
    hide ReadLen, Nibble, Extension, Varint, CopyMatch, Offset, OffsetBytes, Sequence, Decode, DecodeMatch;
    var v, s := ml - p.minMatch, Sequence(p.ob, p.minMatch, lits, ml, off) + rest;
    var tail := OffsetBytes(off, p.ob) + Extension(v) + rest;
    var u, s1 := |Extension(|lits|)|, lits + tail;
    SequenceParts(p.ob, p.minMatch, lits, ml, off, rest);
    ReadLength(|lits|, s1);
    assert s1[..|lits|] == lits && s1[|lits|..] == tail;
    DecodeTail(p, v, off, rest, h + lits);
    DecodeHead(p, s, h, |lits|, u, s1);
  }

  /** A token with something behind its literals. */
  lemma DecodeHead(p: Params, s: seq<byte>, h: seq<byte>, ll: nat, used: nat, s1: seq<byte>)
    requires ParamsOk(p) && s != [] && ReadLen(s[0] / 16, s[1..]) == Ext(ll, used) && used <= |s| - 1
             && s[1 + used..] == s1
    requires ll < |s1| && |h| + ll <= p.end
    ensures Decode(p, s, h) == DecodeMatch(p, s[0] % 16, s1[ll..], h + s1[..ll])
  {
    hide ReadLen, DecodeMatch;
  }

  lemma DecodeTail(p: Params, v: nat, off: nat, rest: seq<byte>, h: seq<byte>)
    requires ParamsOk(p) && 0 < off < OffsetLimit(p.ob) && off <= p.maxOffset && off <= |h|
    requires |h| + v + p.minMatch <= p.end
    ensures DecodeMatch(p, Nibble(v), OffsetBytes(off, p.ob) + Extension(v) + rest, h)
            == Decode(p, rest, CopyMatch(h, off, v + p.minMatch))
  {
    hide ReadLen, Nibble, Extension, Varint, CopyMatch, Decode, Offset, OffsetBytes;
    var s := OffsetBytes(off, p.ob) + Extension(v) + rest;
    assert s == OffsetBytes(off, p.ob) + (Extension(v) + rest);
    OffsetRead(off, p.ob, Extension(v) + rest);
    assert s[p.ob..] == Extension(v) + rest;
    ReadLength(v, rest);
    assert s[p.ob + |Extension(v)|..] == rest;
  }

  /** Decoding the trailing literals. */
  lemma DecodeLast(p: Params, lits: seq<byte>, h: seq<byte>)
    requires ParamsOk(p) && |h| + |lits| <= p.end
    ensures Decode(p, Sequence(p.ob, p.minMatch, lits, 0, 0), h) == Done(h + lits)
  {
    hide ReadLen, Nibble, Extension, Varint;
    var s := Sequence(p.ob, p.minMatch, lits, 0, 0);
    Nibbles(Nibble(|lits|), 0);
    assert s[1..] == Extension(|lits|) + lits;
    ReadLength(|lits|, lits);
    assert s[1 + |Extension(|lits|)|..] == lits;
    assert lits[..|lits|] == lits;
  }

  // ---------------------------------------------------------------- matches in the source

  /** A match at pos: len bytes equal to those off places before, possibly overlapping. */
  predicate MatchAt(data: seq<byte>, pos: nat, off: nat, len: nat) {
    0 < off <= pos && pos + len <= |data| && forall i :: pos <= i < pos + len ==> data[i] == data[i - off]
  }

  /** Copying a match reproduces the source. */
  lemma {:induction false} CopyReproduces(data: seq<byte>, pos: nat, off: nat, len: nat)
    requires MatchAt(data, pos, off, len)
    ensures CopyMatch(data[..pos], off, len) == data[..pos + len]
    decreases len
  {
    if len > 0 {
      assert data[pos] == data[pos - off];
      assert data[..pos] + [data[pos]] == data[..pos + 1];
      CopyReproduces(data, pos + 1, off, len - 1);
    }
  }

  // ---------------------------------------------------------------- whole blocks

  /** After the tokens out, a decoder that began with h0 has h1. */
  ghost predicate Leads(p: Params, out: seq<byte>, h0: seq<byte>, h1: seq<byte>)
    requires ParamsOk(p)
  {
    forall rest: seq<byte> :: Decode(p, out + rest, h0) == Decode(p, rest, h1)
  }

  lemma LeadsNowhere(p: Params, h: seq<byte>)
    requires ParamsOk(p)
    ensures Leads(p, [], h, h)
  {
    forall rest: seq<byte> ensures Decode(p, [] + rest, h) == Decode(p, rest, h) {
      assert [] + rest == rest;
    }
  }

  /** One more sequence: the literals from litStart to pos and a match of the source at pos. */
  lemma LeadsOn(p: Params, out: seq<byte>, h0: seq<byte>, data: seq<byte>, litStart: nat, pos: nat, ml: nat, off: nat)
    requires ParamsOk(p) && litStart <= pos && MatchAt(data, pos, off, ml) && ml >= p.minMatch
    requires off < OffsetLimit(p.ob) && off <= p.maxOffset && pos + ml <= p.end
    requires Leads(p, out, h0, data[..litStart])
    ensures Leads(p, out + Sequence(p.ob, p.minMatch, data[litStart..pos], ml, off), h0, data[..pos + ml])
  {
    hide Decode, CopyMatch, Sequence;
    var s := Sequence(p.ob, p.minMatch, data[litStart..pos], ml, off);
    CopyReproduces(data, pos, off, ml);
    assert data[..litStart] + data[litStart..pos] == data[..pos];
    forall rest: seq<byte> ensures Decode(p, out + s + rest, h0) == Decode(p, rest, data[..pos + ml]) {
      assert out + s + rest == out + (s + rest);
      DecodeSequence(p, data[litStart..pos], ml, off, rest, data[..litStart]);
    }
  }

  /** The trailing literals complete the block. */
  lemma LeadsHome(p: Params, out: seq<byte>, h0: seq<byte>, data: seq<byte>, litStart: nat, end: nat)
    requires ParamsOk(p) && litStart <= end <= |data| && end <= p.end && Leads(p, out, h0, data[..litStart])
    ensures Decode(p, out + Sequence(p.ob, p.minMatch, data[litStart..end], 0, 0), h0) == Done(data[..end])
  {
    hide Decode, Sequence;
    DecodeLast(p, data[litStart..end], data[..litStart]);
    assert data[..litStart] + data[litStart..end] == data[..end];
  }
}
