/** What vv_compress writes for that source: a literal-only block with more than 65535 literals, which no decoder
    reads. */
module LostFrame {
  import opened Arithmetic
  import opened Bits
  import opened LittleEndian
  import opened Wrappers
  import opened AnsTable
  import opened AnsNormalize
  import opened AnsHeader
  import opened AnsStream
  import opened Lanes
  import A1 = AnsCodec
  import A4 = AnsCodec4
  import opened LzEmit
  import opened LzLongRuns
  import opened LostSource
  import Lz
  import LzMatch
  import LzMatcher
  import LzParse
  import LzStripped
  import SeqCodes
  import SeqParse
  import VvEmit
  import VvFrame
  import VvLaw
  import VvCompress

  // ---------------------------------------------------------------- its literals are evenly spread

  /** A digit comes back after at most 99 bytes. */
  lemma DigitReturns(i: nat)
    requires i + 3 * Speed(i) < FRESH
    ensures Digit(i + 3 * Speed(i)) == Digit(i)
  {
    var m := Speed(i);
    assert (i + 3 * m) / 3 == i / 3 + m && (i + 3 * m) % 3 == i % 3;
    TurnIs(i, i / 3);
    TurnIs(i, i / 3 + m);
    DivModAdd(i / 3, 1, m);
  }

  lemma {:induction false} DigitCount(i: nat, k: nat, n: nat)
    requires k > 0 && i + 99 * (k - 1) < FRESH <= n <= LENGTH
    ensures multiset(Source()[i..n])[Digit(i)] >= k
    decreases k
  {
    hide Digit;
    var s := Source();
    if k == 1 {
      assert s[i] == Digit(i) && s[i] in s[i..n];
    } else {
      var j := i + 3 * Speed(i);
      DigitReturns(i);
      DigitCount(j, k - 1, n);
      assert s[i..n] == s[i..j] + s[j..n] && s[i..j][0] == s[i];
    }
  }

  /** The first place where the digit at i occurs. */
  lemma FirstPlace(i: nat) returns (j: nat)
    requires i < FRESH
    ensures j < 99 && Digit(j) == Digit(i)
  {
    j := 3 * Turn(i, i / 3) + i % 3;
    assert j % 3 == i % 3 && j / 3 == Turn(i, i / 3);
  }

  /** No literal is rare. */
  lemma EachOften(n: nat, v: byte)
    requires FRESH <= n <= LENGTH && v in Source()[..n]
    ensures multiset(Source()[..n])[v] >= 662
  {
    hide Digit;
    var s := Source();
    var i :| 0 <= i < n && s[..n][i] == v;
    if i >= FRESH {
      Zero(i);
    }
    var j := FirstPlace(if i < FRESH then i else 0);
    assert Digit(0) == 0 by { ZeroFirst(); }
    DigitCount(j, 662, n);
    assert s[..n] == s[..j] + s[j..n];
  }

  lemma ZeroFirst()
    ensures Digit(0) == 0
  {
  }

  /** Every literal has at least 32 of the 4096 slots. */
  predicate Roomy(norm: seq<nat>, xs: seq<byte>)
    requires |norm| == NSYM
  {
    forall i :: 0 <= i < |xs| ==> norm[xs[i]] >= 32
  }

  lemma TableIsRoomy(n: nat, norm: seq<nat>)
    requires FRESH < n <= FRESH + 16 && IsTable(norm)
    requires Cum(A1.Counts(Source()[..n]), NSYM) == n && LargestRemainder(A1.Counts(Source()[..n]), norm)
    ensures Roomy(norm, Source()[..n])
  {
    assert |norm| == NSYM;
    hide Source, IsTable, LargestRemainder, Cum;
    var lits := Source()[..n];
    var raw := A1.Counts(lits);
    forall v | 0 <= v < NSYM && raw[v] > 0 ensures raw[v] >= 662 {
      EachOften(n, v);
    }
    FairShare(raw, norm);
    forall i | 0 <= i < n ensures norm[lits[i]] >= 32 {
      assert lits[i] in multiset(lits);
      DivAdjoint(n, 32, raw[lits[i]] * ANS_L);
    }
  }

  // ---------------------------------------------------------------- its literals are coded in few bytes

  lemma SevenBits(f: nat)
    requires 32 <= f < ANS_L
    ensures NbMax(f) <= 7
  {
    assert Pow2(4) == 16;
    if Log2(f) < 5 {
      Pow2Monotone(Log2(f), 4);
    }
  }

  lemma {:induction false} SevenEach(norm: seq<nat>, xs: seq<byte>)
    requires IsTable(norm) && Covered(norm, xs) && Roomy(norm, xs)
    ensures StreamBits(Emitted(norm, xs)) <= 7 * |xs|
  {
    if xs != [] {
      SevenEach(norm, xs[1..]);
      SevenAt(norm, FinalState(norm, xs[1..]), xs[0]);
      assert Emitted(norm, xs)[1..] == Emitted(norm, xs[1..]);
    }
  }

  lemma SevenAt(norm: seq<nat>, y: nat, s: nat)
    requires IsTable(norm) && y < ANS_L && s < NSYM && norm[s] >= 32
    ensures EncField(norm, y, s).nb <= 7
  {
    FreqBound(norm, s);
    if norm[s] < ANS_L {
      SevenBits(norm[s]);
    }
  }

  lemma {:induction false} QuarterLane(xs: seq<byte>, lane: nat)
    ensures 4 * |Lane(xs, lane, 4)| <= (if lane < |xs| then |xs| - lane + 3 else 0)
    decreases |xs| - lane
  {
    if lane < |xs| {
      QuarterLane(xs, lane + 4);
    }
  }

  lemma {:induction false} RoomyLane(norm: seq<nat>, xs: seq<byte>, lane: nat)
    requires |norm| == NSYM && Roomy(norm, xs)
    ensures Roomy(norm, Lane(xs, lane, 4))
    decreases |xs| - lane
  {
    if lane < |xs| {
      RoomyLane(norm, xs, lane + 4);
    }
  }

  lemma LaneSmall(norm: seq<nat>, xs: seq<byte>, lane: nat)
    requires IsTable(norm) && Covered(norm, xs) && Roomy(norm, xs) && |xs| < 0x1_0100 && lane < 4
    ensures |A4.LaneBytes(norm, xs, lane)| <= 14400
  {
    assert |norm| == NSYM;
    hide IsTable, Covered, Roomy, Emitted;
    A1.LaneCovered(norm, xs, lane, 4);
    RoomyLane(norm, xs, lane);
    SevenEach(norm, Lane(xs, lane, 4));
    QuarterLane(xs, lane);
  }

  /** Four lanes take less than 65536 bytes. */
  lemma FrameSmall(norm: seq<nat>, xs: seq<byte>)
    requires IsTable(norm) && Covered(norm, xs) && Roomy(norm, xs) && |xs| < 0x1_0100
    ensures |A4.Frame4(norm, xs)| <= 58200
  {
    assert |norm| == NSYM;
    hide IsTable, Covered, Roomy, A4.LaneBytes, Header;
    TableActive(norm);
    assert |Header(norm)| <= 514;
    LaneSmall(norm, xs, 0);
    LaneSmall(norm, xs, 1);
    LaneSmall(norm, xs, 2);
    LaneSmall(norm, xs, 3);
  }

  // ---------------------------------------------------------------- its tokens

  lemma SplitEnd(ob: nat)
    requires ob == 2 || ob == 3
    ensures LzStripped.Split(ob, Sequence(ob, 4, [], 0, 0)) == LzStripped.Parts([], [0])
  {
    assert Sequence(ob, 4, [], 0, 0) == [0];
  }

  lemma SplitBehind(ob: nat, v: nat, off: nat)
    requires ob == 2 || ob == 3
    ensures var own := OffsetBytes(off, ob) + Extension(v);
            LzStripped.SplitMatch(ob, Nibble(v), own + Sequence(ob, 4, [], 0, 0)) == LzStripped.Parts([], own + [0])
  {
    hide Lz.ReadLen, Nibble, Extension, OffsetBytes, LzStripped.Split, LzStripped.SplitMatch, Sequence;
    var last := Sequence(ob, 4, [], 0, 0);
    var s := OffsetBytes(off, ob) + Extension(v) + last;
    assert s[ob..] == Extension(v) + last && s[ob + |Extension(v)|..] == last;
    assert s[..ob + |Extension(v)|] == OffsetBytes(off, ob) + Extension(v);
    ReadLength(v, last);
    LzStripped.SplitTail(ob, Nibble(v), s);
    SplitEnd(ob);
  }

  /** What extract_literals makes of a sequence and an empty last token. */
  lemma SplitOne(ob: nat, lits: seq<byte>, ml: nat, off: nat)
    requires (ob == 2 || ob == 3) && ml >= 4
    ensures var s := Sequence(ob, 4, lits, ml, off) + Sequence(ob, 4, [], 0, 0);
            var r := LzStripped.Split(ob, s);
            r.Parts? && r.lits == lits && |r.tokens| == |s| - |lits|
  {
    hide Lz.ReadLen, Nibble, Extension, OffsetBytes, LzStripped.Split, LzStripped.SplitMatch, Sequence;
    var last := Sequence(ob, 4, [], 0, 0);
    var s := Sequence(ob, 4, lits, ml, off) + last;
    var u, own := |Extension(|lits|)|, OffsetBytes(off, ob) + Extension(ml - 4);
    SequenceParts(ob, 4, lits, ml, off, last);
    var s1 := s[1 + u..];
    assert s1[..|lits|] == lits && s1[|lits|..] == own + last;
    ReadLength(|lits|, s1);
    LzStripped.SplitHead(ob, s);
    SplitBehind(ob, ml - 4, off);
    LastToken(ob);
  }

  lemma LastToken(ob: nat)
    requires ob == 2 || ob == 3
    ensures Sequence(ob, 4, [], 0, 0) == [0]
  {
  }

  lemma TokensSmall(ob: nat, out: seq<byte>, pos: nat, off: nat)
    requires Shaped(ob, out, pos, off)
    ensures pos < |out| <= pos + 264
  {
  }

  // ---------------------------------------------------------------- its block

  /** Plans that come to the literal coding: balanced, in the first format, with the room emit_block is given. For this
      source the first format takes an explicit window or the flag for compatibility; the trial of the default options
      finds it binary-like and picks the second. */
  predicate Affected(o: VvCompress.Plan) {
    VvCompress.PlanOk(o) && o.mode == LzParse.Balanced && !o.v2 && o.room >= 0x2_0000
  }

  /** The sequence coding is refused, so the literals are coded alone. */
  lemma OnlyLiterals(o: VvCompress.Plan, c: VvEmit.Candidates, pos: nat, off: nat)
    requires Affected(o) && VvCompress.MadeFrom(o, LENGTH, c) && Shaped(VvFrame.OffsetBytes(o.hd), c.tokens, pos, off)
    ensures c.sequences.None? && c.literal.Some?
    ensures var l := c.literal.value; l.count == pos && |l.coded| <= 58200 && |l.stripped| <= 264
  {
    hide Source, Sequence, IsTable, Covered, LargestRemainder, A1.Counts, A4.Frame4, SeqParse.Parse, LzStripped.Split,
         Roomy;
    var ob, lits := VvFrame.OffsetBytes(o.hd), Source()[..pos];
    LongFirst(ob, 4, lits, LENGTH - pos, off, Sequence(ob, 4, [], 0, 0));
    SplitOne(ob, lits, LENGTH - pos, off);
    TokensSmall(ob, c.tokens, pos, off);
    var r := LzStripped.Split(ob, c.tokens);
    var norm: seq<nat>, other: seq<nat> :| VvCompress.InLanes(o, r, c.literal, norm, other);
    TableIsRoomy(pos, norm);
    FrameSmall(norm, lits);
  }

  lemma BlockIsUnreadable(o: VvCompress.Plan, c: VvEmit.Candidates, pos: nat, off: nat)
    requires Affected(o) && VvCompress.MadeFrom(o, LENGTH, c) && Shaped(VvFrame.OffsetBytes(o.hd), c.tokens, pos, off)
    ensures VvCompress.FateOf(c, true, false, 0, LENGTH) == VvCompress.Unreadable
  {
    hide Source, Sequence, VvCompress.MadeFrom;
    OnlyLiterals(o, c, pos, off);
    TokensSmall(VvFrame.OffsetBytes(o.hd), c.tokens, pos, off);
  }

  lemma SourceTokens(o: VvCompress.Plan, b: LzParse.Block, t: LzMatch.Tables)
    requires Affected(o) && OnSource(b) && LzMatch.Sized(b.c, t)
    ensures LzParse.ParseBlock(b, SeqCodes.NO_REPS, t).Tokens?
    ensures VvCompress.TokensMade(o, b.c, b.data, 0, LENGTH, b.cap, SeqCodes.NO_REPS, t)
            == LzParse.ParseBlock(b, SeqCodes.NO_REPS, t).out
  {
    hide Source, Shaped, LzMatch.Sized, LzParse.ParseBlock;
    ParseIsShaped(b, t);
  }

  /** The first block of the source, whatever the tables of the matcher held. */
  lemma FirstIsUnreadable(o: VvCompress.Plan, c: LzMatch.Config, t: LzMatch.Tables, k: VvEmit.Candidates)
    requires Affected(o) && Usual(c) && VvCompress.Suits(o, c)
             && VvCompress.FirstMade(o, c, Source(), SeqCodes.NO_REPS, t, k)
    ensures VvCompress.FateOf(k, true, false, 0, LENGTH) == VvCompress.Unreadable
  {
    hide Source, Usual, VvCompress.FateOf, VvCompress.MadeFrom, LzParse.ParseBlock, LzMatch.Sized,
         VvCompress.TokensMade, Shaped;
    var b := LzParse.Block(c, LzParse.Balanced, Source(), 0, LENGTH, 4, VvCompress.TokenRoom(LENGTH));
    ParseIsShaped(b, t);
    SourceTokens(o, b, t);
    var pos: nat, off: nat :| Shaped(b.c.ob, k.tokens, pos, off);
    BlockIsUnreadable(o, k, pos, off);
  }

  lemma {:induction false} FirstFate(o: VvCompress.Plan, n: nat, cs: seq<VvEmit.Candidates>)
    requires cs != [] && 0 < n <= VvFrame.MAX_BLOCK
             && VvCompress.FateOf(cs[0], o.mode != LzParse.Fast, o.v2, 0, n) == VvCompress.Unreadable
    ensures VvCompress.FatesOf(o, n, cs) == VvCompress.Unreadable
  {
    hide VvCompress.FateOf;
    if |cs| > 1 {
      FirstFate(o, n, cs[..|cs| - 1]);
    } else {
      assert cs[..0] == [];
      VvCompress.NextStart(n, 0);
    }
  }

  /** The frame that vv_compress makes of the source is refused by every decoder. */
  method LostFrame(m: LzMatcher.Matcher, o: VvCompress.Plan, mode: byte, dstCap: nat, ghost dec: VvFrame.Decoder,
                   ghost cap: nat)
    returns (frame: Option<seq<byte>>)
    requires VvCompress.Ready(m, o, LENGTH) && Affected(o) && Usual(m.c) && m.reps == SeqCodes.NO_REPS
    requires o.hd.flags / 4 % 2 == 0 && o.hd.flags / 8 % 2 == 0 && VvLaw.Lawful(dec) && LENGTH <= cap
    modifies m`reps, m.Repr()
    ensures dstCap >= VvCompress.Bound(LENGTH) ==> frame.Some?
    ensures frame.Some? ==> VvFrame.Decompress(dec, frame.value, cap).Err?
  {
    hide Source, Digit, VvLaw.Lawful, VvFrame.Decompress, Usual, VvCompress.FirstMade, VvCompress.FatesOf,
         VvCompress.FateOf, VvCompress.Bound, VvCompress.FrameOf;
    var fate;
    ghost var cs, t := [], m.View();
    frame, fate, cs := VvCompress.Compress(m, o, mode, Source(), dstCap, dec, cap);
    if frame.Some? {
      FirstIsUnreadable(o, m.c, t, cs[0]);
      FirstFate(o, LENGTH, cs);
    }
  }
}
