/** Stripped tokens decode only with as many literals as were taken out; what that means for counts cut to sixteen
    bits. */
module LzStarved {
  import opened Arithmetic
  import opened Bits
  import opened LittleEndian
  import opened Lz
  import opened LzStripped
  import opened VvFrame
  import opened VvEmit
  import opened VvLaw
  import A1 = AnsCodec
  import A4 = AnsCodec4
  import T = AnsTable
  import S = AnsStream
  import N = AnsNormalize

  // ---------------------------------------------------------------- literals demanded

  /** The literals that stripped tokens ask for. */
  function Need(ob: nat, s: seq<byte>): (n: nat)
    decreases |s|
  {
    if s == [] then 0
    else
      match ReadLen(s[0] / 16, s[1..])
      case CutOff => 0
      case Ext(ll, used) => ll + (if s[1 + used..] == [] then 0 else NeedMatch(ob, s[0] % 16, s[1 + used..]))
  }

  function NeedMatch(ob: nat, mc: nat, s: seq<byte>): (n: nat)
    decreases |s|
  {
    if |s| < ob || s == [] then 0
    else
      match ReadLen(mc, s[ob..])
      case CutOff => 0
      case Ext(_, used) => if ob + used == 0 then 0 else Need(ob, s[ob + used..])
  }

  /** Decoding succeeds only with at least that many. */
  lemma {:induction false} Enough(p: Params, s: seq<byte>, lits: seq<byte>, h: seq<byte>)
    requires ParamsOk(p) && DecodeStripped(p, s, lits, h).Done?
    ensures Need(p.ob, s) <= |lits|
    decreases |s|
  {
    hide ReadLen, StrippedMatch, NeedMatch;
    if s != [] {
      var e := ReadLen(s[0] / 16, s[1..]);
      var s1 := s[1 + e.used..];
      if s1 != [] {
        EnoughMatch(p, s[0] % 16, s1, lits[e.val..], h + lits[..e.val]);
      }
    }
  }

  lemma {:induction false} EnoughMatch(p: Params, mc: nat, s: seq<byte>, lits: seq<byte>, h: seq<byte>)
    requires ParamsOk(p) && StrippedMatch(p, mc, s, lits, h).Done?
    ensures NeedMatch(p.ob, mc, s) <= |lits|
    decreases |s|
  {
    hide ReadLen, DecodeStripped, Need, CopyMatch;
    var e := ReadLen(mc, s[p.ob..]);
    Enough(p, s[p.ob + e.used..], lits, CopyMatch(h, Offset(s, p.ob), e.val + p.minMatch));
  }

  /** The output is at least that much longer. */
  lemma {:induction false} Grows(p: Params, s: seq<byte>, lits: seq<byte>, h: seq<byte>)
    requires ParamsOk(p) && DecodeStripped(p, s, lits, h).Done?
    ensures |DecodeStripped(p, s, lits, h).h| >= |h| + Need(p.ob, s)
    decreases |s|
  {
    hide ReadLen, StrippedMatch, NeedMatch;
    if s != [] {
      var e := ReadLen(s[0] / 16, s[1..]);
      var s1 := s[1 + e.used..];
      if s1 != [] {
        GrowsMatch(p, s[0] % 16, s1, lits[e.val..], h + lits[..e.val]);
      }
    }
  }

  lemma {:induction false} GrowsMatch(p: Params, mc: nat, s: seq<byte>, lits: seq<byte>, h: seq<byte>)
    requires ParamsOk(p) && StrippedMatch(p, mc, s, lits, h).Done?
    ensures |StrippedMatch(p, mc, s, lits, h).h| >= |h| + NeedMatch(p.ob, mc, s)
    decreases |s|
  {
    hide ReadLen, DecodeStripped, Need, CopyMatch;
    var e := ReadLen(mc, s[p.ob..]);
    Grows(p, s[p.ob + e.used..], lits, CopyMatch(h, Offset(s, p.ob), e.val + p.minMatch));
  }

  lemma HeadNeeds(ob: nat, head: seq<byte>, t: seq<byte>, n: nat)
    requires head != [] && ReadLen(head[0] / 16, head[1..] + t) == Ext(n, |head| - 1)
    ensures Need(ob, head + t) == n + (if t == [] then 0 else NeedMatch(ob, head[0] % 16, t))
  {
    hide ReadLen, NeedMatch;
    var s := head + t;
    assert s[1..] == head[1..] + t && s[1 + (|head| - 1)..] == t;
  }

  lemma TailNeeds(ob: nat, mc: nat, tail: seq<byte>, t: seq<byte>, len: nat)
    requires ob > 0 && |tail| >= ob && ReadLen(mc, tail[ob..] + t) == Ext(len, |tail| - ob)
    ensures NeedMatch(ob, mc, tail + t) == Need(ob, t)
  {
    hide ReadLen, Need;
    var s := tail + t;
    assert s[ob..] == tail[ob..] + t && s[ob + (|tail| - ob)..] == t;
  }

  /** The tokens split off a stream that decodes ask for exactly the literals split off. */
  lemma {:induction false} SplitNeeds(p: Params, s: seq<byte>, h: seq<byte>)
    requires ParamsOk(p) && Decode(p, s, h).Done?
    ensures var r := Split(p.ob, s); r.Parts? && Need(p.ob, r.tokens) == |r.lits|
    decreases |s|
  {
    if s != [] {
      hide ReadLen, ReadLenLax, DecodeMatch, SplitMatch, Split, Need, NeedMatch;
      var e := ReadLen(s[0] / 16, s[1..]);
      var head, s1 := s[..1 + e.used], s[1 + e.used..];
      SplitHead(p.ob, s);
      assert head[1..] == s[1..][..e.used];
      if e.val == |s1| {
        ReadLenLocal(s[0] / 16, s[1..], []);
        HeadNeeds(p.ob, head, [], e.val);
        assert head + [] == head;
      } else {
        MatchNeeds(p, s[0] % 16, s1[e.val..], h + s1[..e.val]);
        var q := SplitMatch(p.ob, s[0] % 16, s1[e.val..]);
        ReadLenLocal(s[0] / 16, s[1..], q.tokens);
        HeadNeeds(p.ob, head, q.tokens, e.val);
      }
    }
  }

  lemma {:induction false} MatchNeeds(p: Params, mc: nat, s: seq<byte>, h: seq<byte>)
    requires ParamsOk(p) && DecodeMatch(p, mc, s, h).Done?
    ensures var r := SplitMatch(p.ob, mc, s); r.Parts? && r.tokens != [] && NeedMatch(p.ob, mc, r.tokens) == |r.lits|
    decreases |s|
  {
    hide ReadLen, ReadLenLax, Decode, SplitMatch, Split, CopyMatch, Need, NeedMatch;
    var e := ReadLen(mc, s[p.ob..]);
    var tail, rest := s[..p.ob + e.used], s[p.ob + e.used..];
    SplitNeeds(p, rest, CopyMatch(h, Offset(s, p.ob), e.val + p.minMatch));
    SplitTail(p.ob, mc, s);
    var q := Split(p.ob, rest);
    ReadLenLocal(mc, s[p.ob..], q.tokens);
    assert tail[p.ob..] == s[p.ob..][..e.used];
    TailNeeds(p.ob, mc, tail, q.tokens, e.val);
  }

  /** There are no more literals than bytes in the block. */
  lemma LiteralsWithin(p: Params, tokens: seq<byte>, h: seq<byte>, b: seq<byte>)
    requires ParamsOk(p) && Decode(p, tokens, h) == Done(h + b)
    ensures Split(p.ob, tokens).Parts? && |Split(p.ob, tokens).lits| <= |b|
  {
    hide Decode, Split, DecodeStripped, Need;
    SplitDecodes(p, tokens, h);
    SplitNeeds(p, tokens, h);
    Grows(p, Split(p.ob, tokens).tokens, Split(p.ob, tokens).lits, h);
  }

  // ---------------------------------------------------------------- sixteen bits

  lemma {:induction false} ToBytesWraps(v: nat, n: nat)
    ensures Num(ToBytes(v, n)) == v % Pow2(8 * n)
  {
    if n > 0 {
      Pow2Eight(8 * (n - 1));
      ToBytesWraps(v / 0x100, n - 1);
      assert ToBytes(v, n)[1..] == ToBytes(v / 0x100, n - 1);
      Wraps(v, Pow2(8 * (n - 1)));
    }
  }

  lemma Wraps(v: nat, w: nat)
    requires w > 0
    ensures v % 0x100 + 0x100 * (v / 0x100 % w) == v % (0x100 * w)
  {
    var q, r := v / 0x100 / w, v / 0x100 % w;
    assert v / 0x100 == q * w + r;
    Associate(0x100, w, q);
    assert v == 0x100 * (q * w + r) + v % 0x100;
    Distribute(0x100, q * w, r);
    assert v == q * (0x100 * w) + (v % 0x100 + 0x100 * r) by {
      Associate(0x100, q, w);
      Associate(q, 0x100, w);
    }
    DivModUnique(v, 0x100 * w, q, v % 0x100 + 0x100 * r);
  }

  /** A cut count that shows: too many literals for a coding whose size is stored whole, lanes that are cut off, or no
      literals for the first block. */
  predicate Hopeless(l: Literal, start: nat) {
    if |l.coded| < 0x1_0000 then l.count >= 0x1_0000
    else if l.count % 0x1_0000 == 0 then start == 0
    else l.tag == TAG_ANS4
  }

  /** A literal-only block decodes to the block when both counts fit sixteen bits, and is refused when a cut count
      shows. */
  lemma LiteralDecodesExactly(dec: Decoder, hd: Head, h: seq<byte>, b: seq<byte>, tokens: seq<byte>, l: Literal,
                              norm: seq<nat>)
    requires Lawful(dec) && HeadOk(hd) && LiteralOf(OffsetBytes(hd), tokens, l, norm)
    requires Decode(ParamsFor(hd, 4, h, |b|), tokens, h) == Done(h + b)
    ensures var d := dec(Entropy(l.tag, LiteralData(l)), h, |b|, OffsetBytes(hd), MaxOffset(hd));
            (Sixteen(l) ==> d == Bytes(b)) && (Hopeless(l, |h|) ==> d.Err?)
  {
    hide Decode, MaxOffset, LiteralOf, LiteralData;
    var p := ParamsFor(hd, 4, h, |b|);
    if Sixteen(l) {
      LiteralDecode(dec, hd, h, b, tokens, l, norm);
    } else if Hopeless(l, |h|) {
      if |l.coded| < 0x1_0000 {
        SmallIsRefused(dec, p, h, |b|, tokens, l, norm);
      } else {
        LargeIsRefused(dec, p, h, |b|, tokens, l, norm);
      }
    }
  }

  /** What a decoder finds at the front of a literal-only block. */
  lemma CountsCut(l: Literal)
    ensures var d := LiteralData(l);
            |d| == 4 + |l.coded| + |l.stripped| && d == d[..4] + l.coded + l.stripped
            && Num(d[..2]) == l.count % 0x1_0000 && Num(d[2..4]) == |l.coded| % 0x1_0000
  {
    hide ToBytes, Num;
    LiteralSlices(l);
    Powers();
    ToBytesWraps(l.count, 2);
    ToBytesWraps(|l.coded|, 2);
  }

  lemma SmallIsRefused(dec: Decoder, p: Params, h: seq<byte>, size: nat, tokens: seq<byte>, l: Literal, norm: seq<nat>)
    requires Lawful(dec) && ParamsOk(p) && p.minMatch == 4 && p.end == |h| + size && LiteralOf(p.ob, tokens, l, norm)
    requires |l.coded| < 0x1_0000 <= l.count && Decode(p, tokens, h).Done?
    ensures dec(Entropy(l.tag, LiteralData(l)), h, size, p.ob, p.maxOffset).Err?
  {
    hide Decode, Split, A1.Frame, A4.Frame4, T.IsTable, S.Covered, Num, Need, LiteralData;
    CountsCut(l);
    SplitNeeds(p, tokens, h);
    Starves(dec, p, h, size, LiteralData(l), l);
  }

  lemma LargeIsRefused(dec: Decoder, p: Params, h: seq<byte>, size: nat, tokens: seq<byte>, l: Literal, norm: seq<nat>)
    requires Lawful(dec) && ParamsOk(p) && p.minMatch == 4 && p.end == |h| + size && LiteralOf(p.ob, tokens, l, norm)
    requires |l.coded| >= 0x1_0000 && Hopeless(l, |h|)
    ensures dec(Entropy(l.tag, LiteralData(l)), h, size, p.ob, p.maxOffset).Err?
  {
    hide Split, A1.Frame, A4.Frame4, T.IsTable, S.Covered, Num, LiteralData;
    var d, k := LiteralData(l), |l.coded| % 0x1_0000;
    CountsCut(l);
    if l.count % 0x1_0000 == 0 {
      NothingToStartFrom(dec, p, size, d, l.tag);
    } else {
      assert d[4..4 + k] == l.coded[..k];
      CutLanes(dec, p, h, size, d, Split(p.ob, tokens).lits, norm, k);
    }
  }

  /** Lanes cut off: the payload d says that the coding has k bytes, fewer than it has. */
  lemma CutLanes(dec: Decoder, p: Params, h: seq<byte>, size: nat, d: seq<byte>, lits: seq<byte>, norm: seq<nat>,
                 k: nat)
    requires Lawful(dec) && ParamsOk(p) && T.IsTable(norm) && S.Covered(norm, lits) && |lits| <= N.INT_MAX
    requires |d| >= 4 + k && Num(d[..2]) > 0 && Num(d[2..4]) == k < |A4.Frame4(norm, lits)|
    requires d[4..4 + k] == A4.Frame4(norm, lits)[..k]
    ensures dec(Entropy(TAG_ANS4, d), h, size, p.ob, p.maxOffset).Err?
  {
    hide DecodeStripped, A1.DecodeFrame, A4.DecodeFrame4, A4.Frame4, Num, Decode, Split, T.IsTable, S.Covered;
    A4.CutIsRefused(norm, lits, k, Num(d[..2]));
    var r := dec(Entropy(TAG_ANS4, d), h, size, p.ob, p.maxOffset);
    assert Yields(Entropy(TAG_ANS4, d), h, size, p.ob, p.maxOffset, r);
  }

  /** Without literals and output there is nothing that a token could stand for. */
  lemma BareTokensFail(p: Params, s: seq<byte>)
    requires ParamsOk(p) && |s| >= 2
    ensures DecodeStripped(p, s, [], []).Fail?
  {
    hide ReadExt, Offset;
  }

  /** No literals for the first block: the payload d says that there are none, and more than a token is left. */
  lemma NothingToStartFrom(dec: Decoder, p: Params, size: nat, d: seq<byte>, tag: byte)
    requires Lawful(dec) && ParamsOk(p) && p.minMatch == 4 && p.end == size && (tag == TAG_ANS4 || tag == TAG_ANS)
    requires |d| >= 4 && Num(d[..2]) == 0 && 4 + Num(d[2..4]) + 2 <= |d|
    ensures dec(Entropy(tag, d), [], size, p.ob, p.maxOffset).Err?
  {
    hide DecodeStripped, A1.DecodeFrame, A4.DecodeFrame4, Num;
    var coded := Num(d[2..4]);
    assert Yields(Entropy(tag, d), [], size, p.ob, p.maxOffset, dec(Entropy(tag, d), [], size, p.ob, p.maxOffset));
    LiteralsLength(tag, d[4..4 + coded], 0);
    BareTokensFail(p, d[4 + coded..]);
  }

  lemma Starves(dec: Decoder, p: Params, h: seq<byte>, size: nat, d: seq<byte>, l: Literal)
    requires Lawful(dec) && ParamsOk(p) && p.minMatch == 4 && p.end == |h| + size
             && (l.tag == TAG_ANS4 || l.tag == TAG_ANS)
    requires |d| >= 4 && Num(d[..2]) < Need(p.ob, l.stripped) && Num(d[2..4]) == |l.coded|
             && d == d[..4] + l.coded + l.stripped
    ensures dec(Entropy(l.tag, d), h, size, p.ob, p.maxOffset).Err?
  {
    hide DecodeStripped, A1.DecodeFrame, A4.DecodeFrame4, Num, Need, Decode;
    var count := Num(d[..2]);
    assert d[4..4 + |l.coded|] == l.coded && d[4 + |l.coded|..] == l.stripped;
    assert Yields(Entropy(l.tag, d), h, size, p.ob, p.maxOffset, dec(Entropy(l.tag, d), h, size, p.ob, p.maxOffset));
    var o := CodedLiterals(l.tag, l.coded, count);
    if o.Some? {
      LiteralsLength(l.tag, l.coded, count);
      if DecodeStripped(p, l.stripped, o.value, h).Done? {
        Enough(p, l.stripped, o.value, h);
      }
    }
  }

  /** The decoders yield as many literals as they are asked for. */
  lemma LiteralsLength(tag: byte, s: seq<byte>, n: nat)
    requires tag == TAG_ANS4 || tag == TAG_ANS
    ensures CodedLiterals(tag, s, n).Some? ==> |CodedLiterals(tag, s, n).value| == n
  {
  }
}
