/** What sequence-coded blocks the decoder accepts, said of their bytes. */
module SeqGrammar {
  import opened LittleEndian
  import opened Wrappers
  import opened Bits
  import opened Lz
  import opened AnsMeaning
  import opened SeqCodes
  import SeqHistory
  import opened SeqStream
  import opened SeqMeaning
  import opened SeqBlock
  import opened SeqCodec
  import opened SeqLiterals
  import AnsHeader
  import T = AnsTable
  import D = SeqDecode
  import A1 = AnsCodec
  import A4 = AnsCodec4
  import H1 = HuffCodec
  import H4 = HuffCodec4

  // ---------------------------------------------------------------- sections

  /** The section d at position at, behind its size in w bytes. */
  predicate Section(src: seq<byte>, at: nat, w: nat, d: seq<byte>) {
    at + w + |d| <= |src| && Num(src[at..at + w]) == |d| && src[at + w..at + w + |d|] == d
  }

  function NumAt(src: seq<byte>, at: nat, w: nat): (n: nat)
    requires at + w <= |src|
  {
    Num(src[at..at + w])
  }

  /** A block lies in src: number of literals, their format and section; number of matches; table headers of match
      lengths, offsets and literal runs; the states of the three; and the bits. */
  predicate IsLaid(src: seq<byte>, p: Packed) {
    |src| >= 9 && p.lits == NumAt(src, 0, 4) && p.fmt == src[4] && Section(src, 5, 4, p.data)
    && var a := 9 + |p.data|;
       a + 4 <= |src| && p.matches == NumAt(src, a, 4) && TablesLaid(src, a + 4, p)
  }

  predicate TablesLaid(src: seq<byte>, a: nat, p: Packed) {
    var b, c, d := a + 2 + |p.hlen|, a + 4 + |p.hlen| + |p.hoff|, a + 6 + |p.hlen| + |p.hoff| + |p.hll|;
    Section(src, a, 2, p.hlen) && Section(src, b, 2, p.hoff) && Section(src, c, 2, p.hll) && TailLaid(src, d, p)
  }

  predicate TailLaid(src: seq<byte>, d: nat, p: Packed) {
    d + 6 <= |src| && p.slen == NumAt(src, d, 2) && p.soff == NumAt(src, d + 2, 2) && p.sll == NumAt(src, d + 4, 2)
    && Section(src, d + 6, 4, p.bs)
  }

  lemma TwoNum(s: seq<byte>, i: nat)
    requires i + 2 <= |s|
    ensures Num(s[i..i + 2]) == AnsHeader.Freq(s[i], s[i + 1])
  {
    var t := s[i..i + 2];
    assert t[1..][1..] == [];
    assert Num(t[1..]) == s[i + 1];
  }

  lemma Cut2Means(src: seq<byte>, at: nat, d: seq<byte>)
    requires at <= |src|
    ensures Section(src, at, 2, d) <==> Cut2(src[at..]).Cut? && Cut2(src[at..]).payload == d
    ensures Section(src, at, 2, d) ==> at + 2 + |d| <= |src| && Cut2(src[at..]).rest == src[at + 2 + |d|..]
  {
    hide Num;
    if at + 2 <= |src| {
      TwoNum(src, at);
      Shifted(src, at, 2, Num(src[at..at + 2]));
    }
  }

  lemma Cut4Means(src: seq<byte>, at: nat, d: seq<byte>)
    requires at <= |src|
    ensures Section(src, at, 4, d) <==> Cut4(src[at..]).Cut? && Cut4(src[at..]).payload == d
    ensures Section(src, at, 4, d) ==> at + 4 + |d| <= |src| && Cut4(src[at..]).rest == src[at + 4 + |d|..]
  {
    hide Num, Word;
    if at + 4 <= |src| {
      FourNum(src, at);
      Shifted(src, at, 4, Num(src[at..at + 4]));
    }
  }

  lemma Shifted(src: seq<byte>, at: nat, w: nat, n: nat)
    requires at + w <= |src|
    ensures at + w + n <= |src| ==>
      src[at..][w..w + n] == src[at + w..at + w + n] && src[at..][w + n..] == src[at + w + n..]
  {
  }

  lemma TailMeans(q: Packed, src: seq<byte>, d: nat, p: Packed)
    requires d <= |src|
    ensures UnpackTail(q, src[d..]) == Some(p)
            <==> TailLaid(src, d, p) && p == q.(slen := p.slen, soff := p.soff, sll := p.sll, bs := p.bs)
  {
    hide Num, Cut4, Section, AnsHeader.Freq;
    if d + 6 <= |src| {
      TwoNum(src, d);
      TwoNum(src, d + 2);
      TwoNum(src, d + 4);
      assert src[d..][6..] == src[d + 6..];
      Cut4Means(src, d + 6, p.bs);
      var c := Cut4(src[d + 6..]);
    }
  }

  lemma TablesMean(q: Packed, src: seq<byte>, a: nat, p: Packed)
    requires a <= |src|
    ensures UnpackTables(q, src[a..]) == Some(p)
            <==> TablesLaid(src, a, p)
                 && p == q.(hlen := p.hlen, hoff := p.hoff, hll := p.hll, slen := p.slen, soff := p.soff, sll := p.sll,
                            bs := p.bs)
  {
    hide Num, Cut2, Section, TailLaid, UnpackTail;
    var b, c, d := a + 2 + |p.hlen|, a + 4 + |p.hlen| + |p.hoff|, a + 6 + |p.hlen| + |p.hoff| + |p.hll|;
    Cut2Means(src, a, p.hlen);
    if Section(src, a, 2, p.hlen) {
      Cut2Means(src, b, p.hoff);
      if Section(src, b, 2, p.hoff) {
        Cut2Means(src, c, p.hll);
        if Section(src, c, 2, p.hll) {
          TailMeans(q.(hlen := p.hlen, hoff := p.hoff, hll := p.hll), src, d, p);
        }
      }
    }
    if UnpackTables(q, src[a..]) == Some(p) {
      TablesKept(q, src[a..], p);
    }
  }

  /** The headers of an unpacked block are those that were cut out. */
  lemma TablesKept(q: Packed, s: seq<byte>, p: Packed)
    requires UnpackTables(q, s) == Some(p)
    ensures Cut2(s).Cut? && p.hlen == Cut2(s).payload
    ensures var s1 := Cut2(s).rest;
            Cut2(s1).Cut? && p.hoff == Cut2(s1).payload
            && var s2 := Cut2(s1).rest; Cut2(s2).Cut? && p.hll == Cut2(s2).payload
  {
    hide Cut2, Cut4, AnsHeader.Freq;
  }

  /** The sections are found exactly where they lie. */
  lemma LayoutMeans(src: seq<byte>, p: Packed)
    ensures Unpack(src) == Some(p) <==> IsLaid(src, p)
  {
    hide Num, Cut4, Section, TablesLaid, UnpackTables, Word;
    if |src| >= 9 {
      FourNum(src, 0);
      Cut4Means(src, 5, p.data);
      var a := 9 + |p.data|;
      if Section(src, 5, 4, p.data) && a + 4 <= |src| {
        FourNum(src, a);
        assert src[a..][4..] == src[a + 4..];
        TablesMean(BLANK.(lits := NumAt(src, 0, 4), fmt := src[4], data := p.data, matches := NumAt(src, a, 4)), src,
                   a + 4, p);
      }
      if Unpack(src) == Some(p) {
        DataKept(src, p);
      }
    }
  }

  lemma DataKept(src: seq<byte>, p: Packed)
    requires |src| >= 9 && Unpack(src) == Some(p)
    ensures Cut4(src[5..]).Cut? && p.data == Cut4(src[5..]).payload && |Cut4(src[5..]).rest| >= 4
  {
    hide Cut2, Cut4, AnsHeader.Freq, Word;
  }

  // ---------------------------------------------------------------- literals and tables

  /** The n literals of a section by its format; a section without bytes leaves the buffer as it is. */
  ghost predicate LiteralsAre(fmt: byte, data: seq<byte>, n: nat, buf: seq<byte>, xs: seq<byte>)
    requires |buf| == n
  {
    if n == 0 || data == [] then xs == buf
    else if fmt == 1 then A4.DecodeFrame4(data, n, n).Good? && xs == A4.DecodeFrame4(data, n, n).out
    else if fmt == 2 then A1.DecodeFrame(data, n, n).Good? && xs == A1.DecodeFrame(data, n, n).out
    else if fmt == 3 then H1.DecodeFrame(data, n, n).Good? && xs == H1.DecodeFrame(data, n, n).out
    else if fmt == 4 then H4.DecodeFrame4(data, n, n).Good? && xs == H4.DecodeFrame4(data, n, n).out
    else n <= |data| && xs == data[..n]
  }

  lemma LiteralsMean(fmt: byte, data: seq<byte>, n: nat, buf: seq<byte>, xs: seq<byte>)
    requires |buf| == n
    ensures Literals(fmt, data, n, buf) == Some(xs) <==> LiteralsAre(fmt, data, n, buf, xs)
  {
    hide A4.DecodeFrame4, A1.DecodeFrame, H1.DecodeFrame, H4.DecodeFrame4;
  }

  /** The frequencies that a header gives; they are all 0 when there is none. */
  ghost predicate TableIs(hdr: seq<byte>, norm: seq<nat>) {
    if exists f: seq<nat>, n: nat :: IsHeader(hdr, f, n) then exists n: nat :: IsHeader(hdr, norm, n)
    else |norm| == 256 && forall s :: 0 <= s < 256 ==> norm[s] == 0
  }

  lemma TableMeans(hdr: seq<byte>, norm: seq<nat>)
    ensures TableFrom(hdr) == norm <==> TableIs(hdr, norm)
  {
    hide IsHeader, AnsHeader.Parse;
    var t := AnsHeader.Parse(hdr);
    if t.size > 0 {
      HeaderMeans(hdr, t.norm, t.size);
      forall n: nat | IsHeader(hdr, norm, n) ensures norm == t.norm {
        HeaderMeans(hdr, norm, n);
      }
    } else {
      forall f: seq<nat>, n: nat ensures !IsHeader(hdr, f, n) {
        HeaderMeans(hdr, f, n);
      }
      NoHeaderHere(hdr);
      if TableIs(hdr, norm) {
        assert norm == AnsHeader.Zeros();
      }
    }
    if hdr == [] {
      NoHeaderHere(hdr);
    }
  }

  lemma NoHeaderHere(hdr: seq<byte>)
    ensures hdr == [] ==> AnsHeader.Parse(hdr).size == 0
    ensures AnsHeader.Parse(hdr).size == 0 ==> AnsHeader.Parse(hdr).norm == AnsHeader.Zeros()
  {
  }

  /** Only codes of the streams occur, and tables that are needed have 4096 slots. */
  predicate Plausible(t: Tables, lits: nat, matches: nat) {
    |t.ll| == |t.off| == |t.len| == 256
    && (forall s :: 36 <= s < 256 ==> t.ll[s] == t.len[s] == 0) && (forall s :: 27 <= s < 256 ==> t.off[s] == 0)
    && (lits > 0 || matches > 0 ==> T.Cum(t.ll, 256) == 4096)
    && (matches > 0 ==> T.Cum(t.off, 256) == 4096 && T.Cum(t.len, 256) == 4096)
  }

  lemma PlausibleIsValid(k: Kind, t: Tables, lits: nat, matches: nat)
    ensures Validated(k, t, lits, matches) <==> Plausible(t, lits, matches)
  {
    hide T.Cum;
  }

  // ---------------------------------------------------------------- blocks

  /** The parts of a block, with their literals and tables, play out. */
  ghost predicate Stands(k: Kind, p: Packed, lits: seq<byte>, t: Tables, h: seq<byte>, end: nat, maxOffset: nat,
                         out: seq<byte>)
  {
    k != LL && |h| <= end && |lits| == p.lits && Plausible(t, p.lits, p.matches) && 0 < maxOffset <= 0x100_0000
    && (PlausibleIsValid(k, t, p.lits, p.matches);
        Plays(SceneOf(D.Block(k, t, lits, p.matches, maxOffset, |h|, end), Num(p.bs)), Heads(p.sll, p.soff, p.slen, 0),
              lits, p.matches, [], h, out, p.lits + p.matches + 16))
  }

  lemma PartsMean(k: Kind, p: Packed, lits: seq<byte>, h: seq<byte>, end: nat, maxOffset: nat, out: seq<byte>)
    requires k != LL && |h| <= end && |lits| == p.lits
    ensures Stands(k, p, lits, TablesOf(p), h, end, maxOffset, out)
            <==> Validated(k, TablesOf(p), p.lits, p.matches) && 0 < maxOffset <= MAX_OFFSET
                 && D.Loop(BlockOf(k, p, lits, h, end, maxOffset), false, FirstState(p, h), p.lits + p.matches + 16)
                    == Done(out)
  {
    hide Num, D.Loop, Plays, SceneOf, TablesOf, Plausible, Validated;
    var t := TablesOf(p);
    PlausibleIsValid(k, t, p.lits, p.matches);
    if Validated(k, t, p.lits, p.matches) {
      BlockValid(k, p, lits, h, end, maxOffset);
      var b, s := BlockOf(k, p, lits, h, end, maxOffset), FirstState(p, h);
      SeqHistory.NothingRemembered();
      assert b.lits[0..] == b.lits;
      WholeTail(s.rest);
      LoopMeans(b, SceneOf(b, s.rest), s, 0, [], out, p.lits + p.matches + 16);
    }
  }

  lemma BlockValid(k: Kind, p: Packed, lits: seq<byte>, h: seq<byte>, end: nat, maxOffset: nat)
    requires k != LL && |h| <= end && |lits| == p.lits && Validated(k, TablesOf(p), p.lits, p.matches)
    ensures D.BlockOk(BlockOf(k, p, lits, h, end, maxOffset))
    ensures D.StateOk(BlockOf(k, p, lits, h, end, maxOffset), FirstState(p, h))
  {
    hide T.Cum, TableFrom, Num;
  }

  /** A block in src stands for out; room is from |h| to end, and buf is what the literal buffer happens to hold. */
  ghost predicate IsBlock(k: Kind, src: seq<byte>, h: seq<byte>, end: nat, maxOffset: nat, buf: seq<byte>,
                          out: seq<byte>)
    requires |h| <= end && |buf| >= end - |h|
  {
    exists p: Packed, lits: seq<byte>, t: Tables ::
      IsLaid(src, p) && p.lits <= end - |h| && p.matches <= end - |h|
      && LiteralsAre(p.fmt, p.data, p.lits, buf[..p.lits], lits)
      && TableIs(p.hll, t.ll) && TableIs(p.hoff, t.off) && TableIs(p.hlen, t.len)
      && Stands(k, p, lits, t, h, end, maxOffset, out)
  }

  /** For every input: a block is decoded to out exactly where it stands for out. */
  lemma BlockMeans(k: Kind, src: seq<byte>, h: seq<byte>, end: nat, maxOffset: nat, buf: seq<byte>, out: seq<byte>)
    requires k != LL && |h| <= end && |buf| >= end - |h|
    ensures DecodeBlock(k, src, h, end, maxOffset, buf) == Done(out) <==> IsBlock(k, src, h, end, maxOffset, buf, out)
  {
    hide Unpack, IsLaid, Literals, LiteralsAre, TableFrom, TableIs, Validated, D.Loop, Stands, IsBlock, FirstState;
    if DecodeBlock(k, src, h, end, maxOffset, buf) == Done(out) {
      var p := Unpack(src).value;
      var lits := Literals(p.fmt, p.data, p.lits, buf[..p.lits]).value;
      LayoutMeans(src, p);
      LiteralsMean(p.fmt, p.data, p.lits, buf[..p.lits], lits);
      TablesFound(p, TablesOf(p));
      PartsMean(k, p, lits, h, end, maxOffset, out);
      BlockThere(k, src, h, end, maxOffset, buf, out, p, lits, TablesOf(p));
    }
    if IsBlock(k, src, h, end, maxOffset, buf, out) {
      var p, lits, t := PartsOf(k, src, h, end, maxOffset, buf, out);
      LayoutMeans(src, p);
      LiteralsMean(p.fmt, p.data, p.lits, buf[..p.lits], lits);
      TablesFound(p, t);
      PartsMean(k, p, lits, h, end, maxOffset, out);
    }
  }

  lemma BlockThere(k: Kind, src: seq<byte>, h: seq<byte>, end: nat, maxOffset: nat, buf: seq<byte>, out: seq<byte>,
                   p: Packed, lits: seq<byte>, t: Tables)
    requires |h| <= end && |buf| >= end - |h|
    requires IsLaid(src, p) && p.lits <= end - |h| && p.matches <= end - |h|
             && LiteralsAre(p.fmt, p.data, p.lits, buf[..p.lits], lits)
             && TableIs(p.hll, t.ll) && TableIs(p.hoff, t.off) && TableIs(p.hlen, t.len)
             && Stands(k, p, lits, t, h, end, maxOffset, out)
    ensures IsBlock(k, src, h, end, maxOffset, buf, out)
  {
    hide IsLaid, LiteralsAre, TableIs, Stands;
  }

  lemma PartsOf(k: Kind, src: seq<byte>, h: seq<byte>, end: nat, maxOffset: nat, buf: seq<byte>, out: seq<byte>)
    returns (p: Packed, lits: seq<byte>, t: Tables)
    requires |h| <= end && |buf| >= end - |h| && IsBlock(k, src, h, end, maxOffset, buf, out)
    ensures IsLaid(src, p) && p.lits <= end - |h| && p.matches <= end - |h|
            && LiteralsAre(p.fmt, p.data, p.lits, buf[..p.lits], lits)
            && TableIs(p.hll, t.ll) && TableIs(p.hoff, t.off) && TableIs(p.hlen, t.len)
            && Stands(k, p, lits, t, h, end, maxOffset, out)
  {
    hide IsLaid, LiteralsAre, TableIs, Stands;
    p, lits, t :| IsLaid(src, p) && p.lits <= end - |h| && p.matches <= end - |h|
                  && LiteralsAre(p.fmt, p.data, p.lits, buf[..p.lits], lits)
                  && TableIs(p.hll, t.ll) && TableIs(p.hoff, t.off) && TableIs(p.hlen, t.len)
                  && Stands(k, p, lits, t, h, end, maxOffset, out);
  }

  lemma TablesFound(p: Packed, t: Tables)
    ensures TablesOf(p) == t <==> TableIs(p.hll, t.ll) && TableIs(p.hoff, t.off) && TableIs(p.hlen, t.len)
  {
    hide TableFrom, TableIs;
    TableMeans(p.hll, t.ll);
    TableMeans(p.hoff, t.off);
    TableMeans(p.hlen, t.len);
  }
}
