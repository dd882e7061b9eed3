/** What the Huffman coders read, said of the bits of their input: code lengths, canonical codes, lanes. */
module HuffMeaning {
  import opened Arithmetic
  import opened LittleEndian
  import opened Bits
  import opened HuffCodes
  import opened HuffTables
  import opened HuffStream
  import AnsMeaning
  import H1 = HuffCodec
  import H4 = HuffCodec4

  // ---------------------------------------------------------------- codes among bits

  function BitAt(v: nat, i: nat): (b: nat) { Over(v, Pow2(i)) % 2 }

  /** Bit p + i of v is bit i of the code of symbol x, counted from the most significant one. */
  predicate Agrees(lens: seq<nat>, codes: seq<nat>, v: nat, p: nat, x: nat, i: nat)
    requires |codes| == |lens| && x < |lens| && i < lens[x]
  {
    BitAt(v, p + i) == BitAt(codes[x], lens[x] - 1 - i)
  }

  /** The code of symbol x stands in v from bit p on. */
  predicate StandsAt(lens: seq<nat>, codes: seq<nat>, v: nat, p: nat, x: nat)
    requires |codes| == |lens|
  {
    x < |lens| && lens[x] > 0 && forall i: nat :: i < lens[x] ==> Agrees(lens, codes, v, p, x, i)
  }

  predicate SameBits(w: nat, c: nat, l: nat) { forall i :: 0 <= i < l ==> BitAt(w, i) == BitAt(c, i) }

  lemma BitUp(w: nat, i: nat)
    ensures BitAt(w, 0) == w % 2 && BitAt(w / 2, i) == BitAt(w, i + 1)
  {
    HalfThenShift(w, Pow2(i));
    assert Pow2(0) == 1;
  }

  lemma LowBit(w: nat, h: nat)
    requires h > 0
    ensures w % (2 * h) == w % 2 + 2 * (w / 2 % h)
  {
    var q, r := w / 2 / h, w / 2 % h;
    assert w == 2 * (q * h + r) + w % 2;
    Associate(q, 2, h);
    DivModUnique(w, 2 * h, q, 2 * r + w % 2);
  }

  lemma SameUp(w: nat, c: nat, l: nat)
    requires l > 0
    ensures SameBits(w, c, l) <==> w % 2 == c % 2 && SameBits(w / 2, c / 2, l - 1)
  {
    hide BitAt;
    forall i: nat | i < l ensures BitAt(w / 2, i) == BitAt(w, i + 1) && BitAt(c / 2, i) == BitAt(c, i + 1) {
      BitUp(w, i);
      BitUp(c, i);
    }
    BitUp(w, 0);
    BitUp(c, 0);
    if SameBits(w / 2, c / 2, l - 1) && w % 2 == c % 2 {
      forall i | 0 <= i < l ensures BitAt(w, i) == BitAt(c, i) {
        if i > 0 {
          assert BitAt(w / 2, i - 1) == BitAt(c / 2, i - 1);
        }
      }
    }
    if SameBits(w, c, l) {
      forall i | 0 <= i < l - 1 ensures BitAt(w / 2, i) == BitAt(c / 2, i) {
        assert BitAt(w, i + 1) == BitAt(c, i + 1);
      }
    }
  }

  lemma {:induction false} BitsDecide(w: nat, c: nat, l: nat)
    requires c < Pow2(l)
    ensures w % Pow2(l) == c <==> SameBits(w, c, l)
    decreases l
  {
    hide SameBits;
    if l == 0 {
      NoBitsSame(w, c);
    } else {
      BitsDecide(w / 2, c / 2, l - 1);
      SameUp(w, c, l);
      LowBit(w, Pow2(l - 1));
      hide Pow2;
    }
  }

  lemma NoBitsSame(w: nat, c: nat)
    ensures SameBits(w, c, 0) && w % 1 == 0
  {
  }

  // ---------------------------------------------------------------- one code

  /** A code that stands at a position is what the decoder starts with there. */
  lemma StandingStarts(lens: seq<nat>, codes: seq<nat>, v: nat, p: nat, x: nat)
    requires Sound(lens) && |codes| == |lens| && InSequence(lens, codes) && x < |lens|
    ensures StandsAt(lens, codes, v, p, x) <==> StartsWith(lens, x, Over(v, Pow2(p)))
  {
    hide Sound, InSequence, Canon, Rev, BitAt, Pow2, Code;
    if lens[x] > 0 {
      var w, c, l := Over(v, Pow2(p)), Code(lens, x), lens[x];
      CodeIsCanon(lens, codes, x);
      BitsDecide(w, c, l);
      forall i: nat | i < l ensures Agrees(lens, codes, v, p, x, i) <==> BitAt(w, i) == BitAt(c, i) {
        BitFurther(v, p, i);
        StoredBit(lens, x, i);
      }
      if SameBits(w, c, l) {
        forall i: nat | i < l ensures Agrees(lens, codes, v, p, x, i) {
          assert BitAt(w, i) == BitAt(c, i);
        }
      }
      if StandsAt(lens, codes, v, p, x) {
        forall i | 0 <= i < l ensures BitAt(w, i) == BitAt(c, i) {
          assert Agrees(lens, codes, v, p, x, i);
        }
      }
    }
  }

  lemma StoredBit(lens: seq<nat>, x: nat, i: nat)
    requires x < |lens| && i < lens[x]
    ensures BitAt(Code(lens, x), i) == BitAt(Canon(lens, x), lens[x] - 1 - i)
  {
    StoredBitFirst(lens, x, i);
  }

  lemma BitFurther(v: nat, p: nat, i: nat)
    ensures BitAt(v, p + i) == BitAt(Over(v, Pow2(p)), i)
  {
    Pow2Add(p, i);
    AnsMeaning.DivTwice(v, Pow2(p), Pow2(i));
  }

  lemma CodeIsCanon(lens: seq<nat>, codes: seq<nat>, x: nat)
    requires Sound(lens) && |codes| == |lens| && InSequence(lens, codes) && x < |lens| && lens[x] > 0
    ensures codes[x] == Canon(lens, x)
  {
    hide Sound, Canon, SpaceBefore;
    CanonIsSpaceBefore(lens, x);
    var w := Pow2(15 - lens[x]);
    CancelLess(w, codes[x], Canon(lens, x));
    CancelLess(w, Canon(lens, x), codes[x]);
  }

  // ---------------------------------------------------------------- streams

  /** The codes of xs stand one after the other among the first bits of v, of which there are so many. */
  predicate Carries(lens: seq<nat>, codes: seq<nat>, v: nat, bits: nat, xs: seq<byte>)
    requires |codes| == |lens| == 256
  {
    CodeBits(lens, xs) <= bits && forall i :: 0 <= i < |xs| ==> StandsAt(lens, codes, v, CodeBits(lens, xs[..i]), xs[i])
  }

  lemma CarriesOn(lens: seq<nat>, codes: seq<nat>, v: nat, bits: nat, xs: seq<byte>)
    requires |codes| == |lens| == 256 && xs != []
    ensures var n := |xs| - 1;
            Carries(lens, codes, v, bits, xs)
            <==> Carries(lens, codes, v, bits, xs[..n]) && StandsAt(lens, codes, v, CodeBits(lens, xs[..n]), xs[n])
                 && CodeBits(lens, xs[..n]) + lens[xs[n]] <= bits
  {
    hide StandsAt;
    var n := |xs| - 1;
    forall i | 0 <= i < n ensures xs[..n][..i] == xs[..i] {
    }
    if Carries(lens, codes, v, bits, xs) {
      forall i | 0 <= i < n ensures StandsAt(lens, codes, v, CodeBits(lens, xs[..n][..i]), xs[..n][i]) {
        assert StandsAt(lens, codes, v, CodeBits(lens, xs[..i]), xs[i]);
      }
    }
    if Carries(lens, codes, v, bits, xs[..n]) {
      forall i | 0 <= i < n ensures StandsAt(lens, codes, v, CodeBits(lens, xs[..i]), xs[i]) {
        assert StandsAt(lens, codes, v, CodeBits(lens, xs[..n][..i]), xs[..n][i]);
      }
    }
  }

  /** The next symbol a decoder reads is the one whose code stands where it reads on. */
  lemma NextStands(lens: seq<nat>, codes: seq<nat>, v: nat, bits: nat, p: nat, x: byte)
    requires Nibbles(lens) && Sound(lens) && |codes| == |lens| && InSequence(lens, codes) && p <= bits
    ensures var c := At(Over(v, Pow2(p)), bits - p);
            && (StandsAt(lens, codes, v, p, x) && p + lens[x] <= bits
                <==> Next(lens, c).At? && SymbolAt(lens, c) == x)
            && (Next(lens, c).At? && SymbolAt(lens, c) == x ==>
                  Next(lens, c) == At(Over(v, Pow2(p + lens[x])), bits - p - lens[x]))
  {
    hide Sound, InSequence, FindCode, Pow2, StandsAt, StartsWith;
    var c := At(Over(v, Pow2(p)), bits - p);
    StandingStarts(lens, codes, v, p, x);
    Pow2Add(p, lens[x]);
    AnsMeaning.DivTwice(v, Pow2(p), Pow2(lens[x]));
    if StartsWith(lens, x, c.v) && lens[x] <= c.bits {
      FindsCode(lens, x, c.v, c.bits);
    }
    FoundStarts(lens, c.v, c.bits);
  }

  lemma FoundStarts(lens: seq<nat>, v: nat, bits: nat)
    ensures var g := FindCode(lens, v, bits); g.Got? ==> StartsWith(lens, g.sym, v)
  {
    hide StartsWith;
    var e := Fast(lens, v % TABLE_SIZE, |lens|);
    if e.len > 0 {
      PeekEnough(lens, e.sym, v);
    }
  }

  /** A decoder reads exactly the symbols whose codes stand there. */
  lemma {:induction false} ReadsCarried(lens: seq<nat>, codes: seq<nat>, v: nat, bits: nat, xs: seq<byte>)
    requires Nibbles(lens) && Sound(lens) && |codes| == |lens| && InSequence(lens, codes)
    ensures var c := At(v, bits);
            && (Carries(lens, codes, v, bits, xs) <==> After(lens, c, |xs|).At? && Decoded(lens, c, |xs|) == xs)
            && (Carries(lens, codes, v, bits, xs) ==>
                  CodeBits(lens, xs) <= bits
                  && After(lens, c, |xs|) == At(Over(v, Pow2(CodeBits(lens, xs))), bits - CodeBits(lens, xs)))
  {
    hide Sound, InSequence, StandsAt, Next, SymbolAt, Pow2, Carries, After, Decoded, CodeBits;
    var c := At(v, bits);
    if xs == [] {
      NothingCarried(lens, codes, v, bits);
    } else {
      var n := |xs| - 1;
      ReadsCarried(lens, codes, v, bits, xs[..n]);
      CarriesOn(lens, codes, v, bits, xs);
      DecodedOn(lens, c, xs);
      BitsOn(lens, xs);
      if Carries(lens, codes, v, bits, xs[..n]) {
        NextStands(lens, codes, v, bits, CodeBits(lens, xs[..n]), xs[n]);
      }
    }
  }

  lemma NothingCarried(lens: seq<nat>, codes: seq<nat>, v: nat, bits: nat)
    requires Nibbles(lens) && |codes| == |lens|
    ensures Carries(lens, codes, v, bits, []) && CodeBits(lens, []) == 0
    ensures var c := At(v, bits); After(lens, c, 0) == c == At(Over(v, Pow2(0)), bits) && Decoded(lens, c, 0) == []
  {
    hide StandsAt;
    assert Pow2(0) == 1;
  }

  lemma BitsOn(lens: seq<nat>, xs: seq<byte>)
    requires |lens| == 256 && xs != []
    ensures CodeBits(lens, xs) == CodeBits(lens, xs[..|xs| - 1]) + lens[xs[|xs| - 1]]
  {
  }

  lemma DecodedOn(lens: seq<nat>, c: Reading, xs: seq<byte>)
    requires Nibbles(lens) && xs != []
    ensures var n := |xs| - 1;
            && (Decoded(lens, c, |xs|) == xs
                <==> Decoded(lens, c, n) == xs[..n] && SymbolAt(lens, After(lens, c, n)) == xs[n])
            && (After(lens, c, |xs|).At? ==> After(lens, c, n).At?)
            && After(lens, c, |xs|) == Next(lens, After(lens, c, n))
  {
    hide SymbolAt, Next, Nibbles, After, Decoded;
    var n := |xs| - 1;
    AfterOn(lens, c, n);
    DecodedPrefix(lens, c, n);
    LastApart(Decoded(lens, c, |xs|), xs);
  }

  lemma LastApart(d: seq<byte>, xs: seq<byte>)
    requires |d| == |xs| > 0
    ensures d == xs <==> d[..|xs| - 1] == xs[..|xs| - 1] && d[|xs| - 1] == xs[|xs| - 1]
  {
    assert d == d[..|xs| - 1] + [d[|xs| - 1]] && xs == xs[..|xs| - 1] + [xs[|xs| - 1]];
  }

  lemma DecodedPrefix(lens: seq<nat>, c: Reading, n: nat)
    requires Nibbles(lens)
    ensures |Decoded(lens, c, n + 1)| == n + 1 && Decoded(lens, c, n + 1)[..n] == Decoded(lens, c, n)
    ensures Decoded(lens, c, n + 1)[n] == SymbolAt(lens, After(lens, c, n))
  {
    hide SymbolAt, After, Nibbles;
  }

  lemma AfterOn(lens: seq<nat>, c: Reading, n: nat)
    requires Nibbles(lens)
    ensures After(lens, c, n + 1) == Next(lens, After(lens, c, n))
    ensures After(lens, c, n + 1).At? ==> After(lens, c, n).At?
  {
    hide FindCode;
  }

  // ---------------------------------------------------------------- frames

  /** A header of n bytes at the start of s: the highest symbol, and the code lengths of all symbols up to it in four
      bits each, those of even symbols in the upper halves. */
  predicate IsHeader(s: seq<byte>, lens: seq<nat>, n: nat) {
    0 < n <= |s| && |lens| == 256 && n == 1 + (s[0] as int + 2) / 2
    && forall x :: 0 <= x < 256 ==>
         lens[x] == if x > s[0] then 0 else if x % 2 == 0 then s[1 + x / 2] / 16 else s[1 + x / 2] % 16
  }

  lemma HeaderMeans(s: seq<byte>, lens: seq<nat>, n: nat)
    ensures IsHeader(s, lens, n) <==> n > 0 && ParseHeader(s) == Parsed(lens, n)
  {
    if IsHeader(s, lens, n) {
      assert ParseHeader(s).lens == lens;
    }
  }

  lemma NoCodeNoSymbols(lens: seq<nat>, codes: seq<nat>, v: nat, bits: nat, xs: seq<byte>)
    requires |codes| == |lens| == 256 && H1.NoLengths(lens) && xs != []
    ensures !Carries(lens, codes, v, bits, xs)
  {
    assert lens[xs[0]] == 0;
    assert !StandsAt(lens, codes, v, CodeBits(lens, xs[..0]), xs[0]);
  }

  /** For every input whose code lengths leave no code without room: n > 0 symbols are decoded to xs exactly where there
      is room and, behind the header, the canonical codes of xs stand one after the other. */
  lemma FrameMeans(src: seq<byte>, cap: nat, n: nat, lens: seq<nat>, codes: seq<nat>, h: nat, xs: seq<byte>)
    requires n > 0 && IsHeader(src, lens, h) && Sound(lens) && |codes| == 256 && InSequence(lens, codes)
    ensures H1.DecodeFrame(src, cap, n).Good? && H1.DecodeFrame(src, cap, n).out == xs
            <==> |xs| == n <= cap && Carries(lens, codes, Num(src[h..]), 8 * |src[h..]|, xs)
  {
    hide IsHeader, Sound, InSequence, Carries, ParseHeader, Num, After, Decoded, H1.NoLengths, Nibbles;
    HeaderMeans(src, lens, h);
    HeaderNibbles(src);
    if |xs| == n {
      ReadsCarried(lens, codes, Num(src[h..]), 8 * |src[h..]|, xs);
      if H1.NoLengths(lens) {
        NoCodeNoSymbols(lens, codes, Num(src[h..]), 8 * |src[h..]|, xs);
      }
    }
  }

  lemma HeaderNibbles(s: seq<byte>)
    ensures Nibbles(ParseHeader(s).lens) && ParseHeader(s).size <= |s|
  {
  }

  // ---------------------------------------------------------------- four lanes

  /** The three-byte size of lane l, of lanes 1 to 3, at the start of s. */
  function LaneSize(s: seq<byte>, l: nat): (n: nat)
    requires |s| >= 9 && 1 <= l <= 3
  {
    Num(s[3 * l - 3..3 * l])
  }

  /** Lane 0 has what the others leave. */
  function FirstEnd(s: seq<byte>): (n: int)
    requires |s| >= 9
  {
    |s| - LaneSize(s, 1) - LaneSize(s, 2) - LaneSize(s, 3)
  }

  /** Where the stream of lane l begins. */
  function LaneStart(s: seq<byte>, l: nat): (at: int)
    requires |s| >= 9 && l <= 4
  {
    match l
    case 0 => 9
    case 1 => FirstEnd(s)
    case 2 => FirstEnd(s) + LaneSize(s, 1)
    case 3 => FirstEnd(s) + LaneSize(s, 1) + LaneSize(s, 2)
    case _ => |s|
  }

  /** Sizes that leave room for lane 0; none is 0 when every lane has a symbol. */
  predicate LanesFit(s: seq<byte>, n: nat) {
    |s| >= 9 && 9 <= FirstEnd(s)
    && (n >= 4 ==> 9 < FirstEnd(s) && LaneSize(s, 1) > 0 && LaneSize(s, 2) > 0 && LaneSize(s, 3) > 0)
  }

  /** The bytes of lane l. */
  function LaneOf(s: seq<byte>, l: nat): (d: seq<byte>)
    requires |s| >= 9 && 9 <= FirstEnd(s) && l < 4
  {
    s[LaneStart(s, l)..LaneStart(s, l + 1)]
  }

  lemma ThreeNum(s: seq<byte>, i: nat)
    requires i + 3 <= |s|
    ensures Num(s[i..i + 3]) == H4.Read3(s[i], s[i + 1], s[i + 2])
  {
    var t := s[i..i + 3];
    var t1, t2 := t[1..], t[2..];
    assert t1[1..] == t2 && t2[1..] == [];
    assert Num(t2) == s[i + 2] && Num(t1) == s[i + 1] + 0x100 * Num(t2);
  }

  lemma SameSizes(s: seq<byte>)
    requires |s| >= 9
    ensures H4.Stored(s) == LaneSize(s, 1) + LaneSize(s, 2) + LaneSize(s, 3)
    ensures 9 <= FirstEnd(s) ==>
      H4.SizeAt(s, 0) == FirstEnd(s) - 9 && H4.SizeAt(s, 1) == LaneSize(s, 1) && H4.SizeAt(s, 2) == LaneSize(s, 2)
      && H4.SizeAt(s, 3) == LaneSize(s, 3)
  {
    hide Num, H4.Read3;
    ThreeNum(s, 0);
    ThreeNum(s, 3);
    ThreeNum(s, 6);
  }

  lemma SameLanes(s: seq<byte>, n: nat)
    ensures H4.LanesOk(s, n) <==> LanesFit(s, n)
    ensures H4.LanesOk(s, n) ==> forall l: nat :: l < 4 ==> H4.LaneData(s, l) == LaneOf(s, l)
  {
    hide LaneSize, H4.Stored, H4.SizeAt;
    if |s| >= 9 {
      SameSizes(s);
      if H4.LanesOk(s, n) && n >= 4 {
        assert H4.SizeAt(s, 0) > 0 && H4.SizeAt(s, 1) > 0 && H4.SizeAt(s, 2) > 0 && H4.SizeAt(s, 3) > 0;
      }
    }
  }

  /** Four lists of symbols, dealt out in turn, whose codes stand in the four lanes. */
  predicate LanesCarry(lens: seq<nat>, codes: seq<nat>, s: seq<byte>, n: nat, ls: seq<seq<byte>>)
    requires |codes| == |lens| == 256 && |s| >= 9 && 9 <= FirstEnd(s)
  {
    |ls| == 4 && forall l: nat :: l < 4 ==> |ls[l]| == (n + 3 - l) / 4 && LaneCarries(lens, codes, s, l, ls[l])
  }

  predicate LaneCarries(lens: seq<nat>, codes: seq<nat>, s: seq<byte>, l: nat, xs: seq<byte>)
    requires |codes| == |lens| == 256 && |s| >= 9 && 9 <= FirstEnd(s) && l < 4
  {
    Carries(lens, codes, Num(LaneOf(s, l)), 8 * |LaneOf(s, l)|, xs)
  }

  /** The four lanes of s stand for the n symbols xs. */
  ghost predicate AreLanes(lens: seq<nat>, codes: seq<nat>, s: seq<byte>, n: nat, xs: seq<byte>)
    requires |codes| == |lens| == 256
  {
    LanesFit(s, n)
    && exists ls: seq<seq<byte>> :: AnsMeaning.Dealt(xs, ls) && LanesCarry(lens, codes, s, n, ls)
  }

  lemma LanesRead(lens: seq<nat>, codes: seq<nat>, s: seq<byte>, n: nat)
    requires Nibbles(lens) && Sound(lens) && |codes| == |lens| && InSequence(lens, codes) && H4.LanesOk(s, n)
    requires LanesFit(s, n) && H4.AllAlive(lens, H4.Cursors(s), n)
    ensures AreLanes(lens, codes, s, n, H4.Interleaved(lens, H4.Cursors(s), n))
  {
    hide Sound, InSequence, Carries, Num, After, SymbolAt, LaneOf, H4.LaneData, H4.SizeAt, FirstEnd, H4.Stored;
    var cs := H4.Cursors(s);
    var ls := seq(4, l requires 0 <= l < 4 => Decoded(lens, cs[l], (n + 3 - l) / 4));
    SameLanes(s, n);
    forall l: nat | l < 4 ensures |ls[l]| == (n + 3 - l) / 4 && LaneCarries(lens, codes, s, l, ls[l]) {
      ReadsCarried(lens, codes, Num(LaneOf(s, l)), 8 * |LaneOf(s, l)|, ls[l]);
    }
    assert AnsMeaning.Dealt(H4.Interleaved(lens, cs, n), ls);
  }

  lemma LanesDealt(lens: seq<nat>, codes: seq<nat>, s: seq<byte>, n: nat, xs: seq<byte>, ls: seq<seq<byte>>)
    requires Nibbles(lens) && Sound(lens) && |codes| == |lens| && InSequence(lens, codes) && H4.LanesOk(s, n)
    requires LanesFit(s, n) && |xs| == n && AnsMeaning.Dealt(xs, ls) && LanesCarry(lens, codes, s, n, ls)
    ensures H4.AllAlive(lens, H4.Cursors(s), n) && H4.Interleaved(lens, H4.Cursors(s), n) == xs
  {
    hide Sound, InSequence, Carries, Num, After, SymbolAt, LaneOf, H4.LaneData, H4.SizeAt, FirstEnd, H4.Stored;
    var cs := H4.Cursors(s);
    SameLanes(s, n);
    forall l: nat | l < 4 ensures After(lens, cs[l], (n + 3 - l) / 4).At? && Decoded(lens, cs[l], |ls[l]|) == ls[l] {
      assert LaneCarries(lens, codes, s, l, ls[l]);
      ReadsCarried(lens, codes, Num(LaneOf(s, l)), 8 * |LaneOf(s, l)|, ls[l]);
    }
    forall i | 0 <= i < n ensures H4.RobinSymbol(lens, cs, i) == xs[i] {
      assert Decoded(lens, cs[i % 4], |ls[i % 4]|)[i / 4] == ls[i % 4][i / 4];
    }
  }

  /** The same for four lanes. */
  lemma Frame4Means(src: seq<byte>, cap: nat, n: nat, lens: seq<nat>, codes: seq<nat>, h: nat, xs: seq<byte>)
    requires n > 0 && IsHeader(src, lens, h) && Sound(lens) && |codes| == 256 && InSequence(lens, codes)
    ensures H4.DecodeFrame4(src, cap, n).Good? && H4.DecodeFrame4(src, cap, n).out == xs
            <==> |xs| == n <= cap && AreLanes(lens, codes, src[h..], n, xs)
  {
    hide IsHeader, Sound, InSequence, ParseHeader, H1.NoLengths, Nibbles, H4.LanesOk, H4.AllAlive, H4.Interleaved,
         H4.Cursors, AreLanes;
    HeaderMeans(src, lens, h);
    HeaderNibbles(src);
    var s := src[h..];
    if H4.DecodeFrame4(src, cap, n).Good? && H4.DecodeFrame4(src, cap, n).out == xs {
      SameLanes(s, n);
      LanesRead(lens, codes, s, n);
      InterleavedLength(lens, s, n);
    }
    if |xs| == n && AreLanes(lens, codes, s, n, xs) {
      LanesBack(lens, codes, s, n, xs);
    }
  }

  lemma LanesBack(lens: seq<nat>, codes: seq<nat>, s: seq<byte>, n: nat, xs: seq<byte>)
    requires Nibbles(lens) && Sound(lens) && |codes| == |lens| && InSequence(lens, codes) && |xs| == n > 0
    requires AreLanes(lens, codes, s, n, xs)
    ensures H4.LanesOk(s, n) && H4.AllAlive(lens, H4.Cursors(s), n) && H4.Interleaved(lens, H4.Cursors(s), n) == xs
    ensures !H1.NoLengths(lens)
  {
    hide Sound, InSequence, H4.LanesOk, H4.AllAlive, H4.Interleaved, H4.Cursors, LanesCarry, AnsMeaning.Dealt,
         FirstEnd, H1.NoLengths;
    SameLanes(s, n);
    var ls: seq<seq<byte>> :| AnsMeaning.Dealt(xs, ls) && LanesCarry(lens, codes, s, n, ls);
    LanesDealt(lens, codes, s, n, xs, ls);
    LanesNeedCodes(lens, codes, s, n, ls);
  }

  lemma InterleavedLength(lens: seq<nat>, s: seq<byte>, n: nat)
    requires Nibbles(lens) && H4.LanesOk(s, n)
    ensures |H4.Interleaved(lens, H4.Cursors(s), n)| == n
  {
  }

  lemma LanesNeedCodes(lens: seq<nat>, codes: seq<nat>, s: seq<byte>, n: nat, ls: seq<seq<byte>>)
    requires |codes| == |lens| == 256 && LanesFit(s, n) && n > 0 && LanesCarry(lens, codes, s, n, ls)
    ensures !H1.NoLengths(lens)
  {
    hide Carries, Num, LaneOf;
    if H1.NoLengths(lens) {
      assert LaneCarries(lens, codes, s, 0, ls[0]);
      NoCodeNoSymbols(lens, codes, Num(LaneOf(s, 0)), 8 * |LaneOf(s, 0)|, ls[0]);
    }
  }
}
