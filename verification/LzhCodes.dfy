/** zupt_lzh's codes: the canonical codes huff_build assigns, the lookup table, and length and distance codes. */
module LzhCodes {
  import opened Arithmetic
  import opened Bits
  import opened HuffLengths
  import opened HuffCodes
  import opened HuffTables
  import opened HuffOptimal
  import opened LzhTree

  // ---------------------------------------------------------------- huff_build

  /** Lengths for exactly the symbols that occur, with room for all codes. When there are two, no room is left, and no
      code is cheaper, unless one is as long as codes may be. */
  ghost predicate Built(freq: seq<nat>, lens: seq<nat>) {
    && |lens| == |freq|
    && (forall s :: 0 <= s < |lens| ==> (lens[s] > 0 <==> freq[s] > 0) && lens[s] <= MAX_LEN)
    && Kraft(MAX_LEN, lens) <= Pow2(MAX_LEN)
    && (|Active(freq, |freq|)| >= 2 ==>
          Kraft(MAX_LEN, lens) == Pow2(MAX_LEN)
          && ((forall s :: 0 <= s < |lens| ==> lens[s] < MAX_LEN) ==> Optimal(freq, lens)))
  }

  lemma BuiltIsSound(freq: seq<nat>, lens: seq<nat>)
    requires Built(freq, lens)
    ensures Sound(lens) && Limited(lens)
  {
    hide Kraft;
  }

  method CountActive(freq: seq<nat>) returns (act: nat)
    ensures act == |Active(freq, |freq|)|
  {
    act := 0;
    for i := 0 to |freq|
      invariant act == |Active(freq, i)|
    {
      if freq[i] > 0 {
        act := act + 1;
      }
    }
  }

  /** At most one symbol, of length 1. */
  lemma FewBuilt(freq: seq<nat>, lens: seq<nat>)
    requires |lens| == |freq| && |Active(freq, |freq|)| <= 1
    requires forall s :: 0 <= s < |lens| ==> lens[s] == if freq[s] > 0 then 1 else 0
    ensures Built(freq, lens)
  {
    hide Kraft, Pow2;
    var syms := Active(freq, |freq|);
    var ds := seq(|syms|, _ => 1);
    ActiveIs(freq, |freq|);
    forall i | 0 <= i < |syms| ensures syms[i] < |lens| && lens[syms[i]] == 1 {
      assert syms[i] in syms;
    }
    ScatteredKraft(MAX_LEN, syms, ds, lens);
    OnesKraft(ds);
  }

  /** Lengths for these frequencies: one bit for a lone symbol; for more, those of an optimal code, full, whose tree is
      complete, cut off at fifteen bits, if that leaves room for all codes, and otherwise what the repair makes of
      them. */
  ghost predicate CutFor(freq: seq<nat>, full: seq<nat>, lens: seq<nat>) {
    && |lens| == |freq|
    && if |Active(freq, |freq|)| <= 1 then forall s :: 0 <= s < |lens| ==> lens[s] == if freq[s] > 0 then 1 else 0
       else
         && TreeOf(freq, full)
         && var tree := Cut(full);
            if Kraft(15, tree) <= Pow2(15) then lens == tree
            else ByFrequency(freq, lens) && exists l: nat :: Lengthened(tree, lens, l)
  }

  function Cut(full: seq<nat>): (tree: seq<nat>)
    ensures |tree| == |full|
  {
    seq(|full|, s requires 0 <= s < |full| => if full[s] > 15 then 15 else full[s])
  }

  lemma LimitedIsCut(freq: seq<nat>, full: seq<nat>, tree: seq<nat>, lens: seq<nat>)
    requires |Active(freq, |freq|)| >= 2 && TreeOf(freq, full) && Full(freq, tree)
    requires |tree| == |freq| && forall s :: 0 <= s < |freq| ==> tree[s] == Min(full[s], 15)
    requires Kraft(MAX_LEN, tree) == Pow2(MAX_LEN) ==> lens == tree
    requires Kraft(MAX_LEN, tree) > Pow2(MAX_LEN) ==>
               |lens| == |freq| && ByFrequency(freq, lens) && exists l: nat :: Lengthened(tree, lens, l)
    ensures CutFor(freq, full, lens)
  {
    hide Active, Kraft, Pow2, ByFrequency, Lengthened, Optimal;
    assert tree == Cut(full);
  }

  /** huff_build: lengths, and codes with their bits in the order of the stream. The lengths are those of an optimal
      code, full, if it keeps to the limit. */
  method HuffBuild(freq: seq<nat>) returns (lens: seq<nat>, codes: seq<nat>, ghost full: seq<nat>)
    requires |freq| < Pow2(MAX_LEN)
    ensures Built(freq, lens)
    ensures |Active(freq, |freq|)| >= 2 ==> Optimal(freq, full) && (Limited(full) ==> lens == full)
    ensures CutFor(freq, full, lens)
    ensures |codes| == |lens| && forall s :: 0 <= s < |lens| ==> codes[s] == Code(lens, s)
  {
    hide Kraft, Active, Code, Full, Sound, Pow2, Optimal, ByFrequency, Lengthened, Cut;
    var act := CountActive(freq);
    if act <= 1 {
      lens := seq(|freq|, i requires 0 <= i < |freq| => if freq[i] > 0 then 1 else 0);
      full := lens;
      FewBuilt(freq, lens);
    } else {
      var dp;
      dp, full := ClampedLengths(freq);
      ghost var tree := dp[..];
      LimitLengths(freq, dp);
      lens := dp[..];
      LimitedIsCut(freq, full, tree, lens);
    }
    BuiltIsSound(freq, lens);
    codes := EncCodes(lens);
  }

  // ---------------------------------------------------------------- the lookup table

  const LUT_SIZE: nat := 0x8000

  /** The entry for the bits v when the symbols below n are filled in; length 0 means none. */
  function Entry(lens: seq<nat>, v: nat, n: nat): (e: Slot)
    requires n <= |lens|
    ensures e.len > 0 ==> e.sym < n && e.len == lens[e.sym] && StartsWith(lens, e.sym, v)
    ensures e.len == 0 ==> e == Slot(0, 0) && forall s :: 0 <= s < n ==> !StartsWith(lens, s, v)
  {
    if n == 0 then Slot(0, 0)
    else if StartsWith(lens, n - 1, v) then Slot(n - 1, lens[n - 1]) else Entry(lens, v, n - 1)
  }

  /** huff_dec's symbol for a stream of bits. */
  function Symbol(lens: seq<nat>, v: nat): (e: Slot)
    ensures e.len > 0 ==> e.sym < |lens| && e.len == lens[e.sym]
  {
    Entry(lens, v % LUT_SIZE, |lens|)
  }

  lemma LutBits()
    ensures Pow2(MAX_LEN) == LUT_SIZE
  {
    Pow2Eight(7);
    assert Pow2(7) == 128;
  }

  lemma LowBits(lens: seq<nat>, s: nat, v: nat)
    requires s < |lens| && lens[s] <= MAX_LEN
    ensures StartsWith(lens, s, v % LUT_SIZE) <==> StartsWith(lens, s, v)
  {
    hide Code, Pow2;
    LutBits();
    LowOfLow(v, lens[s], MAX_LEN - lens[s]);
  }

  /** A stream that starts with a code is found to. */
  lemma FindsSymbol(lens: seq<nat>, s: nat, v: nat)
    requires Sound(lens) && s < |lens| && StartsWith(lens, s, v)
    ensures Symbol(lens, v) == Slot(s, lens[s])
  {
    hide StartsWith;
    SoundBound(lens, s);
    LowBits(lens, s, v);
    var e := Symbol(lens, v);
    if e.len > 0 {
      PrefixFree(lens, s, e.sym, v % LUT_SIZE);
    }
  }

  ghost predicate LutUpTo(lens: seq<nat>, lut: seq<Slot>, n: nat) {
    n <= |lens| && |lut| == LUT_SIZE && forall v :: 0 <= v < LUT_SIZE ==> lut[v] == Entry(lens, v, n)
  }

  lemma LutIndex(rev: nat, j: nat, w: nat, fill: nat)
    requires rev < w && j < fill && w * fill == LUT_SIZE
    ensures rev + j * w < LUT_SIZE && (rev + j * w) % w == rev && (rev + j * w) / w == j
  {
    DivModUnique(rev + j * w, w, j, rev);
    MulMonotone(w, j + 1, fill);
    Distribute(w, j, 1);
  }

  lemma EntryStep(lens: seq<nat>, v: nat, s: nat)
    requires s < |lens| && lens[s] > 0
    ensures Entry(lens, v, s + 1) == if v % Pow2(lens[s]) == Code(lens, s) then Slot(s, lens[s]) else Entry(lens, v, s)
  {
  }

  /** Fills the entries whose low bits are the code of one symbol. */
  method FillEntries(lens: seq<nat>, lut: array<Slot>, s: nat, rev: nat)
    requires s < |lens| && 0 < lens[s] <= MAX_LEN && rev == Code(lens, s) && LutUpTo(lens, lut[..], s)
    modifies lut
    ensures LutUpTo(lens, lut[..], s + 1)
  {
    hide Code, Pow2, Entry;
    var len := lens[s];
    var w, fill := Pow2(len), Pow2(MAX_LEN - len);
    LutBits();
    Pow2Add(len, MAX_LEN - len);
    for j := 0 to fill
      invariant lut.Length == LUT_SIZE
      invariant forall v :: 0 <= v < LUT_SIZE ==>
        lut[v] == if v % w == rev && v / w < j then Slot(s, len) else Entry(lens, v, s)
    {
      LutIndex(rev, j, w, fill);
      var idx := rev + j * w;
      lut[idx] := Slot(s, len);
      forall v | 0 <= v < LUT_SIZE && v % w == rev && v / w == j ensures v == idx {
        assert v == v / w * w + v % w;
      }
    }
    forall v | 0 <= v < LUT_SIZE ensures lut[v] == Entry(lens, v, s + 1) {
      QuotientBound(v, w, fill);
      EntryStep(lens, v, s);
    }
  }

  lemma NoEntries(lens: seq<nat>, lut: seq<Slot>, s: nat)
    requires LutUpTo(lens, lut, s) && s < |lens| && lens[s] == 0
    ensures LutUpTo(lens, lut, s + 1)
  {
  }

  /** huff_lut. */
  method BuildLut(lens: seq<nat>) returns (lut: array<Slot>)
    requires Limited(lens)
    ensures fresh(lut) && LutUpTo(lens, lut[..], |lens|)
  {
    hide Canon, StartsWith, LutUpTo;
    var canonical := AssignCanonicalCodes(lens);
    lut := new Slot[LUT_SIZE](_ => Slot(0, 0));
    EmptyLut(lens, lut[..]);
    for s := 0 to |lens|
      invariant LutUpTo(lens, lut[..], s)
    {
      if lens[s] > 0 {
        var rev := ReverseBits(canonical[s], lens[s]);
        FillEntries(lens, lut, s, rev);
      } else {
        NoEntries(lens, lut[..], s);
      }
    }
  }

  lemma EmptyLut(lens: seq<nat>, lut: seq<Slot>)
    requires |lut| == LUT_SIZE && forall v :: 0 <= v < LUT_SIZE ==> lut[v] == Slot(0, 0)
    ensures LutUpTo(lens, lut, 0)
  {
  }

  // ---------------------------------------------------------------- lengths and distances

  datatype Kind = Length | Distance

  const LEN_CODES: nat := 36
  const DIST_CODES: nat := 40

  function Codes(k: Kind): (n: nat) { if k.Length? then LEN_CODES else DIST_CODES }

  function LenBase(c: nat): (b: nat)
    requires 8 <= c < LEN_CODES
  {
    match c
    case 8 => 11 case 9 => 13 case 10 => 15 case 11 => 17 case 12 => 19 case 13 => 23 case 14 => 27
    case 15 => 31 case 16 => 35 case 17 => 43 case 18 => 51 case 19 => 59 case 20 => 67 case 21 => 83
    case 22 => 99 case 23 => 115 case 24 => 131 case 25 => 163 case 26 => 195 case 27 => 227 case 28 => 258
    case 29 => 259 case 30 => 291 case 31 => 355 case 32 => 483 case 33 => 739 case 34 => 1251 case _ => 2275
  }

  function LenExtra(c: nat): (nb: nat)
    requires 8 <= c < LEN_CODES
    ensures nb <= 11
  {
    if c < 28 then c / 4 - 1 else if c == 28 then 0 else c - 24
  }

  function DistBase(c: nat): (b: nat)
    requires 4 <= c < DIST_CODES
  {
    match c
    case 4 => 5 case 5 => 7 case 6 => 9 case 7 => 13 case 8 => 17 case 9 => 25 case 10 => 33 case 11 => 49
    case 12 => 65 case 13 => 97 case 14 => 129 case 15 => 193 case 16 => 257 case 17 => 385 case 18 => 513
    case 19 => 769 case 20 => 1025 case 21 => 1537 case 22 => 2049 case 23 => 3073 case 24 => 4097
    case 25 => 6145 case 26 => 8193 case 27 => 12289 case 28 => 16385 case 29 => 24577 case 30 => 32769
    case 31 => 49153 case 32 => 65537 case 33 => 98305 case 34 => 131073 case 35 => 196609 case 36 => 262145
    case 37 => 393217 case 38 => 524289 case _ => 786433
  }

  /** LEN_BASE and DIST_BASE. */
  function Base(k: Kind, c: nat): (b: nat)
    requires c < Codes(k)
    ensures b > 0
  {
    match k
    case Length => if c < 8 then 3 + c else LenBase(c)
    case Distance => if c < 4 then 1 + c else DistBase(c)
  }

  /** LEN_EXTRA and DIST_EXTRA. */
  function Extra(k: Kind, c: nat): (nb: nat)
    requires c < Codes(k)
    ensures nb <= 18
  {
    match k
    case Length => if c < 8 then 0 else LenExtra(c)
    case Distance => if c < 4 then 0 else c / 2 - 1
  }

  /** The least and the greatest value with a code. */
  function Least(k: Kind): (v: nat) { if k.Length? then 3 else 1 }

  function Greatest(k: Kind): (v: nat) { if k.Length? then 4322 else 0x10_0000 }

  function Width(nb: nat): (w: nat)
    requires nb <= 18
  {
    match nb
    case 0 => 1 case 1 => 2 case 2 => 4 case 3 => 8 case 4 => 16 case 5 => 32 case 6 => 64 case 7 => 128
    case 8 => 256 case 9 => 512 case 10 => 1024 case 11 => 2048 case 12 => 4096 case 13 => 8192
    case 14 => 16384 case 15 => 32768 case 16 => 65536 case 17 => 131072 case _ => 262144
  }

  lemma {:induction false} WidthIsPow2(nb: nat)
    requires nb <= 18
    ensures Width(nb) == Pow2(nb)
  {
    if nb > 0 {
      WidthIsPow2(nb - 1);
    }
  }

  lemma LenTile(c: nat)
    requires 8 <= c < LEN_CODES - 1
    ensures LenBase(c + 1) <= LenBase(c) + Width(LenExtra(c))
  {
  }

  lemma DistTile(c: nat)
    requires 4 <= c < DIST_CODES - 1
    ensures DistBase(c + 1) == DistBase(c) + Width(c / 2 - 1)
  {
  }

  /** No value lies between the ranges of two codes. */
  lemma CodesTile(k: Kind, c: nat)
    requires c < Codes(k)
    ensures (if c + 1 < Codes(k) then Base(k, c + 1) else Greatest(k) + 1) <= Base(k, c) + Pow2(Extra(k, c))
  {
    WidthIsPow2(Extra(k, c));
    if k.Length? && 8 <= c < LEN_CODES - 1 {
      LenTile(c);
    } else if k.Distance? && 4 <= c < DIST_CODES - 1 {
      DistTile(c);
    }
  }

  /** The last code not above v, looking at codes up to c. */
  function Find(k: Kind, v: nat, c: nat): (r: nat)
    requires c < Codes(k)
    ensures r <= c && (v >= Least(k) ==> Base(k, r) <= v)
    ensures forall d :: r < d <= c ==> v < Base(k, d)
  {
    if c == 0 || Base(k, c) <= v then c else Find(k, v, c - 1)
  }

  /** The code of a length or distance; what is left of it. */
  function CodeOf(k: Kind, v: nat): (c: nat)
    ensures c < Codes(k)
  {
    Find(k, v, Codes(k) - 1)
  }

  /** The rest of a value fits the extra bits of its code. */
  lemma RestFits(k: Kind, v: nat)
    requires Least(k) <= v <= Greatest(k)
    ensures Base(k, CodeOf(k, v)) <= v < Base(k, CodeOf(k, v)) + Pow2(Extra(k, CodeOf(k, v)))
  {
    hide Pow2, Base, Extra;
    CodesTile(k, CodeOf(k, v));
  }

  /** len_to_code and dist_to_code. */
  method ToCode(k: Kind, v: nat) returns (c: nat)
    ensures c == CodeOf(k, v)
  {
    c := Codes(k) - 1;
    while c > 0 && v < Base(k, c)
      invariant c < Codes(k) && CodeOf(k, v) == Find(k, v, c)
    {
      c := c - 1;
    }
  }
}
