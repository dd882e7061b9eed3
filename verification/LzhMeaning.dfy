/** What zupt_lzh restores, said of the bytes and bits of its input. */
module LzhMeaning {
  import opened Arithmetic
  import opened LittleEndian
  import opened Bits
  import opened Wrappers
  import opened HuffCodes
  import opened HuffTables
  import opened HuffMeaning
  import opened LzGrammar
  import opened LzhRuns
  import opened LzhCodes
  import opened LzhStream
  import opened LzhCodec
  import Lz
  import SeqGrammar
  import AnsMeaning

  // ---------------------------------------------------------------- zero runs

  /** From position i on, s stands for what out has from j on: a zero byte counts zeros, one where it counts none, and
      other bytes, and a zero at the very end, stand for themselves; what does not matter is behind a full buffer. */
  predicate Expands(s: seq<byte>, i: nat, cap: nat, out: seq<byte>, j: nat)
    requires i <= |s| && j <= |out|
    decreases |s| - i
  {
    if i == |s| || j == cap then |out| == j
    else if s[i] == 0 && i + 1 < |s| then
      var c: nat := if s[i + 1] == 0 then 1 else s[i + 1];
      j + c <= |out| && j + c <= cap && (forall m :: j <= m < j + c ==> out[m] == 0)
      && Expands(s, i + 2, cap, out, j + c)
    else j < |out| && out[j] == s[i] && Expands(s, i + 1, cap, out, j + 1)
  }

  lemma {:induction false} ExpandsMeans(s: seq<byte>, i: nat, cap: nat, out: seq<byte>, j: nat)
    requires i <= |s| && j <= |out| && j <= cap
    ensures Unrle(s[i..], cap - j) == Some(out[j..]) <==> Expands(s, i, cap, out, j)
    decreases |s| - i
  {
    hide Unrle, Copies;
    if i == |s| || j == cap {
      UnrleEnds(s[i..], cap - j);
    } else {
      UnrleStep(s, i, cap - j);
      if s[i] == 0 && i + 1 < |s| {
        var c: nat := if s[i + 1] == 0 then 1 else s[i + 1];
        if c <= cap - j && j + c <= |out| {
          ExpandsMeans(s, i + 2, cap, out, j + c);
          ZerosFirst(out[j..], c, Unrle(s[i + 2..], cap - j - c));
          assert out[j..][c..] == out[j + c..];
          assert forall m :: j <= m < j + c ==> out[m] == out[j..][m - j];
        } else if c <= cap - j {
          ZerosFirst(out[j..], c, Unrle(s[i + 2..], cap - j - c));
        }
      } else if j < |out| {
        ExpandsMeans(s, i + 1, cap, out, j + 1);
        ByteFirst(out[j..], s[i], Unrle(s[i + 1..], cap - j - 1));
        assert out[j..][1..] == out[j + 1..];
      } else {
        ByteFirst(out[j..], s[i], Unrle(s[i + 1..], cap - j - 1));
      }
    }
  }

  lemma ZerosFirst(x: seq<byte>, c: nat, r: Option<seq<byte>>)
    ensures Before(Copies<byte>(0, c), r) == Some(x)
            <==> c <= |x| && (forall m :: 0 <= m < c ==> x[m] == 0) && r == Some(x[c..])
  {
    if r.Some? {
      var t := Copies<byte>(0, c) + r.value;
      assert t[c..] == r.value;
      if c <= |x| && (forall m :: 0 <= m < c ==> x[m] == 0) && r == Some(x[c..]) {
        assert t == x;
      }
    }
  }

  lemma ByteFirst(x: seq<byte>, b: byte, r: Option<seq<byte>>)
    ensures Before([b], r) == Some(x) <==> x != [] && x[0] == b && r == Some(x[1..])
  {
    if x != [] {
      assert x == [x[0]] + x[1..];
    }
    if r.Some? {
      assert ([b] + r.value)[1..] == r.value;
    }
  }

  // ---------------------------------------------------------------- code lengths

  /** From position i on, s stands for the lengths from j on, prev being the last one given as such: 16 repeats it three
      or more times, 17 and 18 stand for three or more and eleven or more zeros; what is not given is zero. */
  predicate Lengthens(s: seq<nat>, i: nat, lens: seq<nat>, j: nat, prev: nat)
    requires i <= |s| && j <= |lens|
    decreases |s| - i
  {
    if j == |lens| || i == |s| then forall m :: j <= m < |lens| ==> lens[m] == 0
    else if s[i] <= 15 then lens[j] == s[i] && Lengthens(s, i + 1, lens, j + 1, s[i])
    else
      s[i] <= 18 && i + 1 < |s|
      && var n := Min(s[i + 1] + (if s[i] == 18 then 11 else 3), |lens| - j);
         (forall m :: j <= m < j + n ==> lens[m] == if s[i] == 16 then prev else 0)
         && Lengthens(s, i + 2, lens, j + n, prev)
  }

  lemma {:induction false} LengthensMeans(s: seq<nat>, i: nat, lens: seq<nat>, j: nat, prev: nat)
    requires i <= |s| && j <= |lens|
    ensures Uncl(s[i..], |lens| - j, prev) == Some(lens[j..]) <==> Lengthens(s, i, lens, j, prev)
    decreases |s| - i
  {
    hide Uncl, Copies, Behind;
    UnclStep(s, i, |lens| - j, prev);
    if j == |lens| || i == |s| {
      AllZeros(lens[j..]);
    } else if s[i] <= 15 {
      LengthensMeans(s, i + 1, lens, j + 1, s[i]);
      LengthFirst(lens[j..], s[i], Uncl(s[i + 1..], |lens| - j - 1, s[i]));
      assert lens[j..][1..] == lens[j + 1..];
    } else if s[i] <= 18 && i + 1 < |s| {
      var n := Min(s[i + 1] + (if s[i] == 18 then 11 else 3), |lens| - j);
      LengthensMeans(s, i + 2, lens, j + n, prev);
      CopiesFirst(lens[j..], if s[i] == 16 then prev else 0, n, Uncl(s[i + 2..], |lens| - j - n, prev));
      assert lens[j..][n..] == lens[j + n..];
      assert forall m :: j <= m < j + n ==> lens[m] == lens[j..][m - j];
    }
  }

  lemma UnclStep(s: seq<nat>, i: nat, left: nat, prev: nat)
    requires i <= |s|
    ensures Uncl(s[i..], left, prev)
            == if left == 0 || i == |s| then Some(Copies<nat>(0, left))
               else if s[i] <= 15 then Behind([s[i]], Uncl(s[i + 1..], left - 1, s[i]))
               else if s[i] > 18 || i + 1 == |s| then None
               else
                 var n := Min(s[i + 1] + (if s[i] == 18 then 11 else 3), left);
                 Behind(Copies<nat>(if s[i] == 16 then prev else 0, n), Uncl(s[i + 2..], left - n, prev))
  {
    hide Copies, Behind;
    if i < |s| {
      assert s[i..][1..] == s[i + 1..];
      if i + 1 < |s| {
        assert s[i..][2..] == s[i + 2..];
      }
    }
  }

  lemma AllZeros(x: seq<nat>)
    ensures Copies<nat>(0, |x|) == x <==> forall m :: 0 <= m < |x| ==> x[m] == 0
  {
  }

  lemma CopiesFirst(x: seq<nat>, v: nat, c: nat, r: Option<seq<nat>>)
    ensures Behind(Copies<nat>(v, c), r) == Some(x)
            <==> c <= |x| && (forall m :: 0 <= m < c ==> x[m] == v) && r == Some(x[c..])
  {
    if r.Some? {
      var t := Copies<nat>(v, c) + r.value;
      assert t[c..] == r.value;
      if c <= |x| && (forall m :: 0 <= m < c ==> x[m] == v) && r == Some(x[c..]) {
        assert t == x;
      }
    }
  }

  lemma LengthFirst(x: seq<nat>, b: nat, r: Option<seq<nat>>)
    ensures Behind([b], r) == Some(x) <==> x != [] && x[0] == b && r == Some(x[1..])
  {
    if x != [] {
      assert x == [x[0]] + x[1..];
    }
    if r.Some? {
      assert ([b] + r.value)[1..] == r.value;
    }
  }

  // ---------------------------------------------------------------- the head

  /** At position at lie count code lengths in used bytes, for an alphabet of max symbols: a size in two bytes, and, if
      its highest bit is set, that many bytes less 32768 of runs, else that many lengths, the others being zero. */
  predicate HasLengths(s: seq<byte>, at: nat, count: nat, max: nat, lens: seq<nat>, used: nat) {
    at + 2 <= |s| && |lens| == count
    && var v := Num(s[at..at + 2]);
       if v >= 32768 then
         used == 2 + v - 32768 && at + used <= |s| && Lengthens(s[at + 2..at + used], 0, lens, 0, 0)
       else
         v <= max && used == 2 + v && at + used <= |s| && (forall i :: at + 2 <= i < at + used ==> s[i] <= 15)
         && forall i :: 0 <= i < count ==> lens[i] == if i < v then s[at + 2 + i] else 0
  }

  lemma TwoBytes(s: seq<byte>, at: nat)
    requires at + 2 <= |s|
    ensures Num(s[at..at + 2]) == Get16(s[at..])
  {
    SeqGrammar.TwoNum(s, at);
  }

  lemma LengthsMean(s: seq<byte>, at: nat, count: nat, max: nat, lens: seq<nat>, used: nat)
    requires at <= |s| && count <= max
    ensures ReadLens(s[at..], count, max) == Some(Lens(lens, used)) <==> HasLengths(s, at, count, max, lens, used)
  {
    hide Num, Uncl, Lengthens;
    if at + 2 <= |s| && |lens| == count {
      TwoBytes(s, at);
      var v := Get16(s[at..]);
      if v >= 32768 && at + 2 + (v - 32768) <= |s| {
        var t := s[at + 2..at + 2 + (v - 32768)];
        assert s[at..][2..2 + (v - 32768)] == t;
        LengthensMeans(t, 0, lens, 0, 0);
        assert t[0..] == t && lens[0..] == lens;
      } else if v < 32768 && at + 2 + v <= |s| {
        var t := s[at..][2..2 + v];
        assert forall i :: 0 <= i < v ==> t[i] == s[at + 2 + i];
        StoredLengths(s, at, v);
        if HasLengths(s, at, count, max, lens, used) {
          assert lens == seq(count, i requires 0 <= i < count => if i < v then s[at..][2 + i] else 0);
        }
      }
    }
  }

  lemma StoredLengths(s: seq<byte>, at: nat, v: nat)
    requires at + 2 + v <= |s|
    ensures Limited(s[at..][2..2 + v]) <==> forall i :: at + 2 <= i < at + 2 + v ==> s[i] <= 15
  {
    var t := s[at..][2..2 + v];
    if Limited(t) {
      forall i | at + 2 <= i < at + 2 + v ensures s[i] <= 15 {
        assert t[i - at - 2] == s[i];
      }
    }
    if forall i :: at + 2 <= i < at + 2 + v ==> s[i] <= 15 {
      forall i | 0 <= i < v ensures t[i] <= 15 {
        assert t[i] == s[at + 2 + i];
      }
    }
  }

  /** The two alphabets at the start of s, in n bytes: how many codes each has, in two bytes, and their lengths. */
  predicate HasBooks(s: seq<byte>, k: Books, a: nat, b: nat) {
    |s| >= 4 && Num(s[0..2]) <= 293 && Num(s[2..4]) <= 40
    && HasLengths(s, 4, Num(s[0..2]), 293, k.ll, a) && HasLengths(s, 4 + a, Num(s[2..4]), 40, k.d, b)
  }

  // ---------------------------------------------------------------- symbols

  /** The least length of each code from 8 on; code c below 8 is a length of 3 + c. */
  const LENGTHS: seq<nat> :=
    [11, 13, 15, 17, 19, 23, 27, 31, 35, 43, 51, 59, 67, 83, 99, 115, 131, 163, 195, 227, 258, 259, 291, 355, 483, 739,
     1251, 2275]
  const LENGTH_BITS: seq<nat> := [1, 1, 1, 1, 2, 2, 2, 2, 3, 3, 3, 3, 4, 4, 4, 4, 5, 5, 5, 5, 0, 5, 6, 7, 8, 9, 10, 11]

  /** The least distance of each code from 4 on; code c below 4 is a distance of 1 + c. */
  const DISTANCES: seq<nat> :=
    [5, 7, 9, 13, 17, 25, 33, 49, 65, 97, 129, 193, 257, 385, 513, 769, 1025, 1537, 2049, 3073, 4097, 6145, 8193, 12289,
     16385, 24577, 32769, 49153, 65537, 98305, 131073, 196609, 262145, 393217, 524289, 786433]

  function LeastLength(c: nat): (n: nat)
    requires c < 36
  {
    if c < 8 then 3 + c else LENGTHS[c - 8]
  }

  function LengthBits(c: nat): (n: nat)
    requires c < 36
  {
    if c < 8 then 0 else LENGTH_BITS[c - 8]
  }

  function LeastDistance(c: nat): (n: nat)
    requires c < 40
  {
    if c < 4 then 1 + c else DISTANCES[c - 4]
  }

  function DistanceBits(c: nat): (n: nat)
    requires c < 40
  {
    if c < 4 then 0 else c / 2 - 1
  }

  lemma LengthCodes(i: nat)
    requires i < 28
    ensures LenBase(8 + i) == LENGTHS[i]
  {
  }

  lemma LengthExtra(i: nat)
    requires i < 28
    ensures LenExtra(8 + i) == LENGTH_BITS[i]
  {
  }

  lemma DistanceCodes(i: nat)
    requires i < 36
    ensures DistBase(4 + i) == DISTANCES[i]
  {
  }

  lemma CodesMean(c: nat)
    ensures c < 36 ==> Base(Length, c) == LeastLength(c) && Extra(Length, c) == LengthBits(c)
    ensures c < 40 ==> Base(Distance, c) == LeastDistance(c) && Extra(Distance, c) == DistanceBits(c)
  {
    if 8 <= c < 36 {
      LengthCodes(c - 8);
      LengthExtra(c - 8);
    }
    if 4 <= c < 40 {
      DistanceCodes(c - 4);
    }
  }

  /** The canonical codes of the two alphabets. */
  datatype Canons = Canons(ll: seq<nat>, d: seq<nat>)

  predicate Sized(k: Books, c: Canons) { |c.ll| == |k.ll| <= 293 && |c.d| == |k.d| <= 40 }

  ghost predicate CanonsOf(k: Books, c: Canons) {
    BooksOk(k) && Sound(k.ll) && Sound(k.d) && Sized(k, c) && InSequence(k.ll, c.ll) && InSequence(k.d, c.d)
  }

  /** n bits of v from position at on. */
  function BitsFrom(v: nat, at: nat, n: nat): (r: nat) { Over(v, Pow2(at)) % Pow2(n) }

  /** From position at on, the codes among the bits of v take the output from h to out: bytes, copies by length and
      distance, until an end mark. Where no code stands, where there is no room, and where there is no byte that far
      back, the output ends too. */
  ghost predicate Plays(k: Books, c: Canons, v: nat, at: nat, h: seq<byte>, cap: nat, out: seq<byte>)
    requires Sized(k, c)
    decreases if |h| <= cap then cap - |h| else 0, 3
  {
    if exists x: nat :: StandsAt(k.ll, c.ll, v, at, x) then
      exists x: nat :: StandsAt(k.ll, c.ll, v, at, x) && PlaysSymbol(k, c, v, at, x, h, cap, out)
    else out == h
  }

  ghost predicate PlaysSymbol(k: Books, c: Canons, v: nat, at: nat, x: nat, h: seq<byte>, cap: nat, out: seq<byte>)
    requires Sized(k, c) && x < |k.ll|
    decreases if |h| <= cap then cap - |h| else 0, 2
  {
    if x == 256 || (x < 256 && |h| >= cap) then out == h
    else if x < 256 then Plays(k, c, v, at + k.ll[x], h + [x], cap, out)
    else PlaysCopy(k, c, v, at + k.ll[x], x - 257, h, cap, out)
  }

  /** A length with its extra bits, a distance with its extra bits, and the copy. */
  ghost predicate PlaysCopy(k: Books, c: Canons, v: nat, at: nat, l: nat, h: seq<byte>, cap: nat, out: seq<byte>)
    requires Sized(k, c) && l < 36
    decreases if |h| <= cap then cap - |h| else 0, 1
  {
    var len, p := LeastLength(l) + BitsFrom(v, at, LengthBits(l)), at + LengthBits(l);
    if exists y: nat :: StandsAt(k.d, c.d, v, p, y) then
      exists y: nat :: StandsAt(k.d, c.d, v, p, y) && PlaysDistance(k, c, v, p, len, y, h, cap, out)
    else out == h
  }

  ghost predicate PlaysDistance(k: Books, c: Canons, v: nat, p: nat, len: nat, y: nat, h: seq<byte>, cap: nat,
                                out: seq<byte>)
    requires Sized(k, c) && y < |k.d| && len > 0
    decreases if |h| <= cap then cap - |h| else 0, 0
  {
    var q := p + k.d[y];
    var dist, z := LeastDistance(y) + BitsFrom(v, q, DistanceBits(y)), |h| + len;
    if dist > |h| || z > cap then out == h
    else
      z <= |out| && h <= out && Repeats(out[..z], |h|, dist)
      && Plays(k, c, v, q + DistanceBits(y), out[..z], cap, out)
  }

  /** The symbol found is the one whose code stands there. */
  lemma SymbolStands(lens: seq<nat>, codes: seq<nat>, v: nat, at: nat, x: nat)
    requires Sound(lens) && |codes| == |lens| && InSequence(lens, codes)
    ensures StandsAt(lens, codes, v, at, x)
            <==> Symbol(lens, Over(v, Pow2(at))).len > 0 && Symbol(lens, Over(v, Pow2(at))).sym == x
  {
    hide Sound, InSequence, StartsWith, StandsAt, Pow2;
    var w := Over(v, Pow2(at));
    var e := Symbol(lens, w);
    if x < |lens| {
      StandingStarts(lens, codes, v, at, x);
      if StartsWith(lens, x, w) {
        FindsSymbol(lens, x, w);
        HasLength(lens, x, w);
      }
    } else {
      NothingStands(lens, codes, v, at, x);
    }
    if e.len > 0 {
      SoundBound(lens, e.sym);
      LowBits(lens, e.sym, w);
    }
  }

  lemma NothingStands(lens: seq<nat>, codes: seq<nat>, v: nat, at: nat, x: nat)
    requires |codes| == |lens| && x >= |lens|
    ensures !StandsAt(lens, codes, v, at, x)
  {
  }

  lemma Further(v: nat, p: nat, n: nat)
    ensures Over(Over(v, Pow2(p)), Pow2(n)) == Over(v, Pow2(p + n))
  {
    Pow2Add(p, n);
    AnsMeaning.DivTwice(v, Pow2(p), Pow2(n));
  }

  lemma {:induction false} PlayedLonger(k: Books, c: Canons, v: nat, at: nat, h: seq<byte>, cap: nat, out: seq<byte>)
    requires Sized(k, c) && Plays(k, c, v, at, h, cap, out)
    ensures h <= out
    decreases if |h| <= cap then cap - |h| else 0
  {
    hide PlaysCopy, BitAt;
    if exists x: nat :: StandsAt(k.ll, c.ll, v, at, x) {
      var x: nat :| StandsAt(k.ll, c.ll, v, at, x) && PlaysSymbol(k, c, v, at, x, h, cap, out);
      if x < 256 && |h| < cap {
        PlayedLonger(k, c, v, at + k.ll[x], h + [x], cap, out);
      } else if x > 256 {
        CopiedLonger(k, c, v, at + k.ll[x], x - 257, h, cap, out);
      }
    }
  }

  lemma CopiedLonger(k: Books, c: Canons, v: nat, at: nat, l: nat, h: seq<byte>, cap: nat, out: seq<byte>)
    requires Sized(k, c) && l < 36 && PlaysCopy(k, c, v, at, l, h, cap, out)
    ensures h <= out
  {
    hide Plays, StandsAt, Repeats, BitsFrom, LeastDistance, LeastLength, LengthBits, DistanceBits;
  }

  /** A copy that is made, and where that leads. */
  lemma CopyOn(k: Books, c: Canons, v: nat, at: nat, h: seq<byte>, dist: nat, len: nat, cap: nat, out: seq<byte>)
    requires Sized(k, c) && 0 < dist <= |h| && |h| + len <= cap
    ensures Plays(k, c, v, at, Lz.CopyMatch(h, dist, len), cap, out)
            <==> |h| + len <= |out| && h <= out && Repeats(out[..|h| + len], |h|, dist)
                 && Plays(k, c, v, at, out[..|h| + len], cap, out)
  {
    hide Plays, Lz.CopyMatch;
    var x := Lz.CopyMatch(h, dist, len);
    CopyMeans(h, dist, len, x);
    if |out| >= |h| + len {
      CopyMeans(h, dist, len, out[..|h| + len]);
    }
    if Plays(k, c, v, at, x, cap, out) {
      PlayedLonger(k, c, v, at, x, cap, out);
      assert out[..|h| + len] == x;
    }
  }

  /** One symbol may stand at a position. */
  lemma PlaysOne(k: Books, c: Canons, v: nat, at: nat, h: seq<byte>, cap: nat, out: seq<byte>, e: Slot)
    requires Sized(k, c) && forall x: nat :: StandsAt(k.ll, c.ll, v, at, x) <==> e.len > 0 && e.sym == x
    ensures e.len > 0 ==> e.sym < |k.ll|
    ensures Plays(k, c, v, at, h, cap, out)
            <==> if e.len > 0 then PlaysSymbol(k, c, v, at, e.sym, h, cap, out) else out == h
  {
    hide PlaysSymbol;
    assert e.len > 0 ==> StandsAt(k.ll, c.ll, v, at, e.sym);
  }

  lemma CopiesOne(k: Books, c: Canons, v: nat, at: nat, p: nat, l: nat, h: seq<byte>, cap: nat, out: seq<byte>, e: Slot)
    requires Sized(k, c) && l < 36 && p == at + LengthBits(l)
    requires forall y: nat :: StandsAt(k.d, c.d, v, p, y) <==> e.len > 0 && e.sym == y
    ensures e.len > 0 ==> e.sym < |k.d|
    ensures PlaysCopy(k, c, v, at, l, h, cap, out)
            <==> if e.len > 0 then
                   PlaysDistance(k, c, v, p, LeastLength(l) + BitsFrom(v, at, LengthBits(l)), e.sym, h, cap, out)
                 else out == h
  {
    hide PlaysDistance, BitsFrom, LeastLength, LengthBits;
    assert e.len > 0 ==> StandsAt(k.d, c.d, v, p, e.sym);
  }

  /** For every input with sound codes: the decoder yields out exactly where the codes play out. */
  lemma {:induction false} UnpackMeans(k: Books, c: Canons, v: nat, at: nat, h: seq<byte>, cap: nat, out: seq<byte>)
    requires CanonsOf(k, c)
    ensures Unpack(k, Over(v, Pow2(at)), h, cap) == out <==> Plays(k, c, v, at, h, cap, out)
    decreases if |h| <= cap then cap - |h| else 0, 1
  {
    hide Symbol, Sound, InSequence, Pow2, StandsAt, Unpack, UnpackCopy, Plays, PlaysCopy;
    var w := Over(v, Pow2(at));
    var e := Symbol(k.ll, w);
    forall x: nat ensures StandsAt(k.ll, c.ll, v, at, x) <==> e.len > 0 && e.sym == x {
      SymbolStands(k.ll, c.ll, v, at, x);
    }
    PlaysOne(k, c, v, at, h, cap, out, e);
    UnpackStep(k, w, h, cap);
    if e.len > 0 {
      Further(v, at, e.len);
      if e.sym < 256 && |h| < cap {
        UnpackMeans(k, c, v, at + e.len, h + [e.sym], cap, out);
      } else if e.sym > 256 {
        UnpackCopyMeans(k, c, v, at + e.len, e.sym - 257, h, cap, out);
      }
    }
  }

  lemma CopyStep(k: Books, l: nat, w: nat, h: seq<byte>, cap: nat)
    requires BooksOk(k) && l < 36
    ensures var len, w1 := LeastLength(l) + w % Pow2(LengthBits(l)), Over(w, Pow2(LengthBits(l)));
            var e := Symbol(k.d, w1);
            UnpackCopy(k, l, w, h, cap)
            == if e.len == 0 then h
               else
                 var w2 := Over(w1, Pow2(e.len));
                 var dist := LeastDistance(e.sym) + w2 % Pow2(DistanceBits(e.sym));
                 if dist > |h| || |h| + len > cap then h
                 else Unpack(k, Over(w2, Pow2(DistanceBits(e.sym))), Lz.CopyMatch(h, dist, len), cap)
  {
    hide Symbol, Pow2, Unpack, Base, Extra, LeastLength, LengthBits, LeastDistance, DistanceBits, Lz.CopyMatch;
    CodesMean(l);
    var e := Symbol(k.d, Over(w, Pow2(LengthBits(l))));
    if e.len > 0 {
      CodesMean(e.sym);
    }
  }

  lemma {:induction false} UnpackCopyMeans(k: Books, c: Canons, v: nat, at: nat, l: nat, h: seq<byte>, cap: nat,
                                           out: seq<byte>)
    requires CanonsOf(k, c) && l < 36
    ensures UnpackCopy(k, l, Over(v, Pow2(at)), h, cap) == out <==> PlaysCopy(k, c, v, at, l, h, cap, out)
    decreases if |h| <= cap then cap - |h| else 0, 0
  {
    hide Symbol, Sound, InSequence, Pow2, StandsAt, Unpack, UnpackCopy, Plays, PlaysCopy, LeastLength, LengthBits,
         LeastDistance, DistanceBits, Lz.CopyMatch;
    var w, n := Over(v, Pow2(at)), LengthBits(l);
    var len, w1, p := LeastLength(l) + w % Pow2(n), Over(w, Pow2(n)), at + n;
    Further(v, at, n);
    var e := Symbol(k.d, w1);
    forall y: nat ensures StandsAt(k.d, c.d, v, p, y) <==> e.len > 0 && e.sym == y {
      SymbolStands(k.d, c.d, v, p, y);
    }
    CopiesOne(k, c, v, at, p, l, h, cap, out, e);
    CopyStep(k, l, w, h, cap);
    if e.len > 0 {
      var m := DistanceBits(e.sym);
      Further(v, p, e.len);
      Further(v, p + e.len, m);
      var dist := LeastDistance(e.sym) + Over(w1, Pow2(e.len)) % Pow2(m);
      if dist <= |h| && |h| + len <= cap {
        SomeDistance(e.sym, l);
        CopyOn(k, c, v, p + e.len + m, h, dist, len, cap, out);
        UnpackMeans(k, c, v, p + e.len + m, Lz.CopyMatch(h, dist, len), cap, out);
      }
    }
  }

  lemma SomeDistance(y: nat, l: nat)
    requires y < 40 && l < 36
    ensures LeastDistance(y) > 0 && LeastLength(l) > 0
  {
    hide LeastDistance, LeastLength;
    CodesMean(y);
    CodesMean(l);
  }

  // ---------------------------------------------------------------- the whole

  lemma BooksMean(s: seq<byte>, k: Books, a: nat, b: nat)
    ensures HasBooks(s, k, a, b)
            <==> |s| >= 4 && Get16(s) <= 293 && Get16(s[2..]) <= 40
                 && ReadLens(s[4..], Get16(s), 293) == Some(Lens(k.ll, a))
                 && 4 + a <= |s| && ReadLens(s[4 + a..], Get16(s[2..]), 40) == Some(Lens(k.d, b))
  {
    hide Num, Get16, HasLengths, ReadLens;
    if |s| >= 4 {
      TwoBytes(s, 0);
      TwoBytes(s, 2);
      assert s[0..] == s;
      if Get16(s) <= 293 && Get16(s[2..]) <= 40 {
        LengthsMean(s, 4, Get16(s), 293, k.ll, a);
        if HasLengths(s, 4, Get16(s), 293, k.ll, a) {
          LengthsInside(s, 4, Get16(s), 293, k.ll, a);
          LengthsMean(s, 4 + a, Get16(s[2..]), 40, k.d, b);
        }
      }
    }
  }

  lemma LengthsInside(s: seq<byte>, at: nat, count: nat, max: nat, lens: seq<nat>, used: nat)
    requires HasLengths(s, at, count, max, lens, used)
    ensures at + used <= |s|
  {
    hide Num, Lengthens;
  }

  /** What is restored, before zero runs are expanded, is what the codes play out. */
  lemma BodyMeans(s: seq<byte>, k: Books, c: Canons, a: nat, b: nat, cap: nat, out: seq<byte>)
    requires HasBooks(s, k, a, b) && CanonsOf(k, c)
    ensures 4 + a + b <= |s| && (RestoreBody(s, cap) == out <==> Plays(k, c, Num(s[4 + a + b..]), 0, [], cap, out))
  {
    hide HasBooks, Num, Get16, ReadLens, Unpack, Plays, Sound, InSequence, BooksOk;
    BooksMean(s, k, a, b);
    assert s[4..][a..] == s[4 + a..];
    ReadInside(s[4 + a..], Get16(s[2..]), 40);
    assert s[4 + a..][b..] == s[4 + a + b..];
    var v := Num(s[4 + a + b..]);
    UnpackMeans(k, c, v, 0, [], cap, out);
    OverOne(v);
  }

  lemma ReadInside(s: seq<byte>, count: nat, max: nat)
    requires count <= max
    ensures ReadLens(s, count, max).Some? ==> ReadLens(s, count, max).value.used <= |s|
  {
  }

  /** Without code lengths nothing is restored. */
  lemma NothingWithoutBooks(s: seq<byte>, cap: nat)
    requires forall k: Books, a: nat, b: nat :: !HasBooks(s, k, a, b)
    ensures RestoreBody(s, cap) == []
  {
    hide HasBooks, Get16, ReadLens, Unpack, Num;
    if |s| >= 4 && Get16(s) <= LITLENS && Get16(s[2..]) <= DIST_CODES {
      var x := ReadLens(s[4..], Get16(s), LITLENS);
      if x.Some? {
        ReadInside(s[4..], Get16(s), LITLENS);
        assert s[4..][x.value.used..] == s[4 + x.value.used..];
        var y := ReadLens(s[4 + x.value.used..], Get16(s[2..]), DIST_CODES);
        if y.Some? {
          BooksMean(s, Books(x.value.lens, y.value.lens), x.value.used, y.value.used);
        }
      }
    }
  }

  /** For every input of at least five bytes with sound codes: the lowest bit of the first byte says whether the size
      follows in four bytes and zero runs are to be expanded; where these do not fit, nothing is restored. */
  lemma RestoreMeans(src: seq<byte>, k: Books, c: Canons, a: nat, b: nat, cap: nat, mid: seq<byte>, out: seq<byte>)
    requires |src| >= 5 && CanonsOf(k, c) && HasBooks(if src[0] % 2 == 1 then src[5..] else src[1..], k, a, b)
    requires var s := if src[0] % 2 == 1 then src[5..] else src[1..];
             4 + a + b <= |s| && Plays(k, c, Num(s[4 + a + b..]), 0, [], cap, mid)
    ensures Restore(src, cap) == out
            <==> if src[0] % 2 == 0 then out == mid
                 else Expands(mid, 0, cap, out, 0)
                      || (out == [] && forall o: seq<byte> :: !Expands(mid, 0, cap, o, 0))
  {
    hide HasBooks, Num, RestoreBody, Plays, CanonsOf, Unrle, Expands;
    var s := if src[0] % 2 == 1 then src[5..] else src[1..];
    BodyMeans(s, k, c, a, b, cap, mid);
    forall o: seq<byte> ensures Expands(mid, 0, cap, o, 0) <==> Unrle(mid, cap) == Some(o) {
      ExpandsMeans(mid, 0, cap, o, 0);
      assert mid[0..] == mid && o[0..] == o;
    }
    if src[0] % 2 == 1 && Unrle(mid, cap).Some? {
      assert Expands(mid, 0, cap, Unrle(mid, cap).value, 0);
    }
  }
}
