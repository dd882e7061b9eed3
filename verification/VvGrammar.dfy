/** What input the decoders accept, said of its bytes. */
module VvGrammar {
  import opened Bits
  import opened LittleEndian
  import opened VvFrame
  import opened VvStream
  import Xxh64
  import X86 = BranchFilterX86
  import Arm64 = BranchFilterArm64

  /** A block of n bytes at the start of s that stands for b behind the output h: its type in two bits, whether it is
      the last, its size in 21 bits and at most 2^20, and then the bytes, the byte to repeat, or a three-byte length and
      that many bytes for a block decoder. */
  ghost predicate IsBlock(dec: Decoder, ob: nat, mo: nat, s: seq<byte>, h: seq<byte>, b: seq<byte>, n: nat, last: bool)
  {
    4 <= n <= |s|
    && var v: nat := Num(s[..4]);
       last == (v / 4 % 2 == 1) && |b| == v / 8 % 0x20_0000 <= 0x10_0000
       && if v % 4 == 0 then n == 4 + |b| && s[4..n] == b
          else if v % 4 == 2 then n == 5 && forall i :: 0 <= i < |b| ==> b[i] == s[4]
          else
            7 <= n && n == 7 + Num(s[4..7])
            && if v % 4 == 1 then dec(Tokens(s[7..n]), h, |b|, ob, mo) == Bytes(b)
               else 8 <= n && dec(Entropy(s[7], s[8..n]), h, |b|, ob, mo) == Bytes(b)
  }

  /** Blocks of n bytes at the start of s, the last of them marked, that take the output from h to plain. */
  ghost predicate AreBlocks(dec: Decoder, ob: nat, mo: nat, s: seq<byte>, h: seq<byte>, plain: seq<byte>, n: nat)
    decreases |s|
  {
    exists m: nat, b: seq<byte>, last: bool ::
      IsBlock(dec, ob, mo, s, h, b, m, last) && 4 <= m <= |s|
      && if last then plain == h + b && n == m else n >= m && AreBlocks(dec, ob, mo, s[m..], h + b, plain, n - m)
  }

  function Flag(s: seq<byte>, k: nat): (b: bool)
    requires |s| >= 6
  {
    s[5] / Pow2(k) % 2 == 1
  }

  /** Bytes of an offset for a window of 2^wlog bytes. */
  function Width(wlog: nat): (n: nat) { if wlog > 16 then 3 else 2 }

  /** The largest offset for a window of 2^wlog bytes. */
  function Reach(wlog: nat): (n: nat) {
    if wlog <= 16 then Min(Pow2(wlog), 0xFFFF) else Min(Pow2(wlog), 0xFF_FFFF)
  }

  /** A frame of n bytes at the start of s that stands for out: magic number, version, flags of which at most one asks
      for a branch filter, window; blocks; and with the first flag the hash of what they yield and a second magic
      number. */
  ghost predicate IsFrame(dec: Decoder, s: seq<byte>, out: seq<byte>, n: nat) {
    n <= |s| && |s| >= 16 && s[..5] == [0x00, 0x01, 0x56, 0x56, 1] && !(Flag(s, 2) && Flag(s, 3)) && 10 <= s[7] <= 24
    && exists plain: seq<byte>, m: nat ::
         AreBlocks(dec, Width(s[7]), Reach(s[7]), s[16..], [], plain, m)
         && n == 16 + m + (if Flag(s, 0) then 12 else 0)
         && (Flag(s, 0) ==>
               Num(s[16 + m..24 + m]) == Xxh64.Hash(plain, 0) && s[24 + m..28 + m] == [0x44, 0x4E, 0x56, 0x56])
         && out == if Flag(s, 2) then X86.Filter(plain, 0, 0, 0, false)
                   else if Flag(s, 3) then Arm64.Filter(plain, 0, false)
                   else plain
  }

  /** One frame after the other. */
  ghost predicate AreFrames(dec: Decoder, s: seq<byte>, out: seq<byte>)
    decreases |s|
  {
    exists f: seq<byte>, n: nat ::
      IsFrame(dec, s, f, n) && 16 <= n <= |s| && f <= out
      && if n == |s| then out == f else AreFrames(dec, s[n..], out[|f|..])
  }

  // ---------------------------------------------------------------- blocks

  lemma WordNum(s: seq<byte>)
    requires |s| >= 4
    ensures WordAt(s, 0) == Num(s[..4])
  {
    var t := s[..4];
    var t1, t2, t3 := t[1..], t[2..], t[3..];
    assert t1[1..] == t2 && t2[1..] == t3 && t3[1..] == [];
    assert Num(t3) == s[3] && Num(t2) == s[2] + 0x100 * Num(t3) && Num(t1) == s[1] + 0x100 * Num(t2);
  }

  lemma ThreeNum(s: seq<byte>)
    requires |s| >= 7
    ensures Num(s[4..7]) == s[4] + 0x100 * s[5] as int + 0x1_0000 * s[6] as int
  {
    var t := s[4..7];
    var t1, t2 := t[1..], t[2..];
    assert t1[1..] == t2 && t2[1..] == [];
    assert Num(t2) == s[6] && Num(t1) == s[5] + 0x100 * Num(t2);
  }

  /** A block is read exactly when it is one, and fits. */
  lemma BlockAccepted(dec: Decoder, hd: Head, s: seq<byte>, h: seq<byte>, room: nat, b: seq<byte>, n: nat, last: bool)
    requires HeadOk(hd)
    ensures ReadBlock(dec, hd, s, h, room) == Block(b, n, last)
            <==> IsBlock(dec, OffsetBytes(hd), MaxOffset(hd), s, h, b, n, last) && |b| <= room
  {
    hide OffsetBytes, MaxOffset, Num, Word;
    if |s| >= 4 {
      WordNum(s);
      if |s| >= 7 {
        ThreeNum(s);
      }
    }
  }

  lemma {:induction false} BlocksLonger(dec: Decoder, ob: nat, mo: nat, s: seq<byte>, h: seq<byte>, plain: seq<byte>,
                                        n: nat)
    requires AreBlocks(dec, ob, mo, s, h, plain, n)
    ensures |h| <= |plain| && n <= |s|
    decreases |s|
  {
    hide IsBlock;
    var m: nat, b: seq<byte>, last: bool :|
      IsBlock(dec, ob, mo, s, h, b, m, last) && 4 <= m <= |s|
      && if last then plain == h + b && n == m else n >= m && AreBlocks(dec, ob, mo, s[m..], h + b, plain, n - m);
    BlockSize(dec, ob, mo, s, h, b, m, last);
    if !last {
      BlocksLonger(dec, ob, mo, s[m..], h + b, plain, n - m);
    }
  }

  lemma BlockSize(dec: Decoder, ob: nat, mo: nat, s: seq<byte>, h: seq<byte>, b: seq<byte>, n: nat, last: bool)
    requires IsBlock(dec, ob, mo, s, h, b, n, last)
    ensures 4 <= n <= |s|
  {
  }

  /** Blocks that fit are read, and then the footer. */
  lemma {:induction false} BlocksAccepted(dec: Decoder, hd: Head, s: seq<byte>, h: seq<byte>, cap: nat,
                                          plain: seq<byte>, n: nat)
    requires HeadOk(hd) && AreBlocks(dec, OffsetBytes(hd), MaxOffset(hd), s, h, plain, n) && |plain| <= cap
    ensures |h| <= cap && n <= |s| && ReadBlocks(dec, hd, s, h, cap) == Longer(ReadFoot(hd, s[n..], plain), n)
    decreases |s|
  {
    hide IsBlock, ReadBlock, ReadFoot, MaxOffset, OffsetBytes;
    var ob, mo := OffsetBytes(hd), MaxOffset(hd);
    BlocksLonger(dec, ob, mo, s, h, plain, n);
    var m: nat, b: seq<byte>, last: bool :|
      IsBlock(dec, ob, mo, s, h, b, m, last) && 4 <= m <= |s|
      && if last then plain == h + b && n == m else n >= m && AreBlocks(dec, ob, mo, s[m..], h + b, plain, n - m);
    BlockSize(dec, ob, mo, s, h, b, m, last);
    if !last {
      BlocksAccepted(dec, hd, s[m..], h + b, cap, plain, n - m);
      assert s[m..][n - m..] == s[n..];
    }
    BlockAccepted(dec, hd, s, h, cap - |h|, b, m, last);
  }

  /** What is read as blocks and a footer is blocks and a footer. */
  lemma {:induction false} BlocksFound(dec: Decoder, hd: Head, s: seq<byte>, h: seq<byte>, cap: nat)
    returns (plain: seq<byte>, n: nat)
    requires HeadOk(hd) && |h| <= cap && ReadBlocks(dec, hd, s, h, cap).Frame?
    ensures AreBlocks(dec, OffsetBytes(hd), MaxOffset(hd), s, h, plain, n) && |plain| <= cap
    ensures n <= |s| && ReadBlocks(dec, hd, s, h, cap) == Longer(ReadFoot(hd, s[n..], plain), n)
    decreases |s|
  {
    hide IsBlock, ReadBlock, ReadFoot, MaxOffset, OffsetBytes;
    var r := ReadBlock(dec, hd, s, h, cap - |h|);
    BlockAccepted(dec, hd, s, h, cap - |h|, r.out, r.used, r.last);
    if r.last {
      plain, n := h + r.out, r.used;
    } else {
      var k;
      plain, k := BlocksFound(dec, hd, s[r.used..], h + r.out, cap);
      n := r.used + k;
      assert s[r.used..][k..] == s[n..];
    }
    assert IsBlock(dec, OffsetBytes(hd), MaxOffset(hd), s, h, r.out, r.used, r.last);
  }

  // ---------------------------------------------------------------- frames

  lemma HeadAccepted(s: seq<byte>, hd: Head)
    requires |s| >= 16
    ensures ReadHead(s) == GoodHead(hd)
            <==> s[..5] == [0x00, 0x01, 0x56, 0x56, 1] && !(Flag(s, 2) && Flag(s, 3)) && 10 <= s[7] <= 24
                 && hd == Head(s[5], s[7])
  {
    assert Pow2(2) == 4 && Pow2(3) == 8;
    assert s[..5] == [s[0], s[1], s[2], s[3], s[4]];
  }

  lemma SameReach(hd: Head)
    requires HeadOk(hd)
    ensures OffsetBytes(hd) == Width(hd.wlog) && MaxOffset(hd) == Reach(hd.wlog)
  {
    Powers();
    if hd.wlog < 24 {
      Pow2Monotone(hd.wlog, 23);
      assert Pow2(24) == 2 * Pow2(23);
    }
    if 16 <= hd.wlog {
      Pow2Monotone(16, hd.wlog);
    }
  }

  lemma FootAccepted(hd: Head, s: seq<byte>, plain: seq<byte>, out: seq<byte>, n: nat)
    requires HeadOk(hd)
    ensures ReadFoot(hd, s, plain) == Frame(out, n)
            <==> n == (if hd.flags % 2 == 1 then 12 else 0) && n <= |s|
                 && (hd.flags % 2 == 1 ==> Num(s[..8]) == Xxh64.Hash(plain, 0) && s[8..12] == [0x44, 0x4E, 0x56, 0x56])
                 && out == if hd.flags / 4 % 2 == 1 then X86.Filter(plain, 0, 0, 0, false)
                           else if hd.flags / 8 % 2 == 1 then Arm64.Filter(plain, 0, false)
                           else plain
  {
    hide Unfilter, WordAt, X86.Filter, Arm64.Filter, Num, Xxh64.Hash;
    OneFilter(hd, plain);
    if |s| >= 12 {
      SecondMagic(s);
    }
  }

  lemma OneFilter(hd: Head, plain: seq<byte>)
    requires HeadOk(hd)
    ensures Unfilter(hd, plain)
            == if hd.flags / 4 % 2 == 1 then X86.Filter(plain, 0, 0, 0, false)
               else if hd.flags / 8 % 2 == 1 then Arm64.Filter(plain, 0, false)
               else plain
  {
    hide X86.Filter, Arm64.Filter;
  }

  lemma SecondMagic(s: seq<byte>)
    requires |s| >= 12
    ensures WordAt(s, 8) == FOOTER_MAGIC <==> s[8..12] == [0x44, 0x4E, 0x56, 0x56]
  {
    assert s[8..12] == [s[8], s[9], s[10], s[11]];
  }

  /** A frame is read exactly when the grammar has it and there is room for it. */
  lemma FrameAccepted(dec: Decoder, s: seq<byte>, cap: nat, out: seq<byte>, n: nat)
    ensures ReadFrame(dec, s, cap) == Frame(out, n) <==> IsFrame(dec, s, out, n) && |out| <= cap
  {
    if ReadFrame(dec, s, cap) == Frame(out, n) {
      FrameFound(dec, s, cap, out, n);
    }
    if IsFrame(dec, s, out, n) && |out| <= cap {
      FrameRead(dec, s, cap, out, n);
    }
  }

  lemma Parts(s: seq<byte>, m: nat)
    requires 28 + m <= |s|
    ensures s[16..][m..][..8] == s[16 + m..24 + m] && s[16..][m..][8..12] == s[24 + m..28 + m]
  {
  }

  lemma FrameFound(dec: Decoder, s: seq<byte>, cap: nat, out: seq<byte>, n: nat)
    requires ReadFrame(dec, s, cap) == Frame(out, n)
    ensures IsFrame(dec, s, out, n) && |out| <= cap
  {
    hide ReadHead, ReadBlocks, AreBlocks, ReadFoot, X86.Filter, Arm64.Filter, Num, Xxh64.Hash, MaxOffset, Reach;
    var hd := ReadHead(s).hd;
    HeadAccepted(s, hd);
    SameReach(hd);
    assert Pow2(0) == 1 && Pow2(2) == 4 && Pow2(3) == 8;
    var plain, m := BlocksFound(dec, hd, s[16..], [], cap);
    FootAccepted(hd, s[16..][m..], plain, out, n - 16 - m);
    if Flag(s, 0) {
      Parts(s, m);
    }
  }

  lemma FrameRead(dec: Decoder, s: seq<byte>, cap: nat, out: seq<byte>, n: nat)
    requires IsFrame(dec, s, out, n) && |out| <= cap
    ensures ReadFrame(dec, s, cap) == Frame(out, n)
  {
    hide ReadHead, ReadBlocks, AreBlocks, ReadFoot, X86.Filter, Arm64.Filter, Num, Xxh64.Hash, MaxOffset, Reach;
    var hd := Head(s[5], s[7]);
    HeadAccepted(s, hd);
    SameReach(hd);
    assert Pow2(0) == 1 && Pow2(2) == 4 && Pow2(3) == 8;
    var plain: seq<byte>, m: nat :|
      AreBlocks(dec, Width(s[7]), Reach(s[7]), s[16..], [], plain, m)
      && n == 16 + m + (if Flag(s, 0) then 12 else 0)
      && (Flag(s, 0) ==>
            Num(s[16 + m..24 + m]) == Xxh64.Hash(plain, 0) && s[24 + m..28 + m] == [0x44, 0x4E, 0x56, 0x56])
      && out == if Flag(s, 2) then X86.Filter(plain, 0, 0, 0, false)
                else if Flag(s, 3) then Arm64.Filter(plain, 0, false)
                else plain;
    BlocksAccepted(dec, hd, s[16..], [], cap, plain, m);
    if Flag(s, 0) {
      Parts(s, m);
    }
    FootAccepted(hd, s[16..][m..], plain, out, n - 16 - m);
  }

  // ---------------------------------------------------------------- whole inputs

  /** Decoding at once yields out exactly when the input is frames that stand for out and there is room. */
  lemma {:induction false} InputAccepted(dec: Decoder, s: seq<byte>, cap: nat, out: seq<byte>)
    ensures Decompress(dec, s, cap) == Bytes(out) <==> AreFrames(dec, s, out) && |out| <= cap
    decreases |s|
  {
    hide ReadFrame, IsFrame;
    var r := ReadFrame(dec, s, cap);
    if r.Frame? {
      FrameAccepted(dec, s, cap, r.out, r.used);
      if r.used < |s| && r.out <= out {
        InputAccepted(dec, s[r.used..], cap - |r.out|, out[|r.out|..]);
      }
    }
    if AreFrames(dec, s, out) && |out| <= cap {
      var f: seq<byte>, n: nat :|
        IsFrame(dec, s, f, n) && 16 <= n <= |s| && f <= out
        && if n == |s| then out == f else AreFrames(dec, s[n..], out[|f|..]);
      FrameAccepted(dec, s, cap, f, n);
    }
  }

  /** However a frame is cut, the streaming decoder finishes with out exactly when the input begins with a frame that
      stands for out and there is room. */
  lemma StreamAccepted(dec: Decoder, cap: nat, chunks: seq<seq<byte>>, out: seq<byte>)
    requires chunks != []
    ensures Run(dec, cap, START, chunks) == Finished(out)
            <==> |out| <= cap && exists n: nat :: IsFrame(dec, Joined(chunks), out, n)
  {
    hide Run, ReadFrame, Feed, IsFrame;
    var s := Joined(chunks);
    RunIsFeed(dec, cap, START, chunks);
    FeedReads(dec, cap, s);
    var r := ReadFrame(dec, s, cap);
    if r.Frame? {
      FrameAccepted(dec, s, cap, r.out, r.used);
    }
    if n: nat :| |out| <= cap && IsFrame(dec, s, out, n) {
      FrameAccepted(dec, s, cap, out, n);
    }
  }
}
