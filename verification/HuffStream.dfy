/** Huffman-coded bytes: the header, the stream and what decoding them yields. */
module HuffStream {
  import opened Arithmetic
  import opened LittleEndian
  import opened Bits
  import opened HuffLengths
  import opened HuffCodes
  import opened HuffTables

  // ---------------------------------------------------------------- the header

  /** The highest symbol below n with a length, or 0. */
  function MaxSym(lens: seq<nat>, n: nat): (m: nat)
    requires n <= |lens|
    ensures n > 0 ==> m < n
    ensures forall s :: m < s < n ==> lens[s] == 0
  {
    if n == 0 then 0 else if lens[n - 1] > 0 then n - 1 else MaxSym(lens, n - 1)
  }

  /** Two lengths in a byte; the second is 0 past the last symbol. */
  function Pair(lens: seq<nat>, m: nat, i: nat): (b: byte)
    requires Nibbles(lens) && m < SYMBOLS && 2 * i <= m
  {
    16 * lens[2 * i] + (if 2 * i + 1 <= m then lens[2 * i + 1] else 0)
  }

  /** write_header. */
  function Header(lens: seq<nat>): (d: seq<byte>)
    requires Nibbles(lens)
    ensures |d| >= 2
  {
    var m := MaxSym(lens, SYMBOLS);
    [m] + seq((m + 2) / 2, i requires 0 <= i < (m + 2) / 2 => Pair(lens, m, i))
  }

  function LengthAt(src: seq<byte>, s: nat): (l: nat)
    requires |src| > 0 && s < SYMBOLS && 1 + (src[0] as int + 2) / 2 <= |src|
    ensures l <= MAX_LEN
  {
    if s > src[0] then 0 else if s % 2 == 0 then src[1 + s / 2] / 16 else src[1 + s / 2] % 16
  }

  datatype Parsed = Parsed(lens: seq<nat>, size: nat)

  /** read_header; size 0 means failure. */
  function ParseHeader(src: seq<byte>): (p: Parsed)
    ensures Nibbles(p.lens) && p.size <= |src|
  {
    if |src| < 1 || 1 + (src[0] as int + 2) / 2 > |src| then Parsed(seq(SYMBOLS, _ => 0), 0)
    else Parsed(seq(SYMBOLS, s requires 0 <= s < SYMBOLS => LengthAt(src, s)), 1 + (src[0] as int + 2) / 2)
  }

  lemma HeaderBack(lens: seq<nat>, tail: seq<byte>)
    requires Nibbles(lens)
    ensures ParseHeader(Header(lens) + tail) == Parsed(lens, |Header(lens)|)
  {
    var m := MaxSym(lens, SYMBOLS);
    var src := Header(lens) + tail;
    forall s | 0 <= s < SYMBOLS ensures LengthAt(src, s) == lens[s] {
      if s <= m {
        assert src[1 + s / 2] == Pair(lens, m, s / 2);
        PairBack(lens, m, s);
      }
    }
  }

  lemma PairBack(lens: seq<nat>, m: nat, s: nat)
    requires Nibbles(lens) && s <= m < SYMBOLS
    ensures (if s % 2 == 0 then Pair(lens, m, s / 2) / 16 else Pair(lens, m, s / 2) % 16) == lens[s]
  {
    var i := s / 2;
    var lo := if 2 * i + 1 <= m then lens[2 * i + 1] else 0;
    DivModUnique(Pair(lens, m, i), 16, lens[2 * i], lo);
  }

  /** The header holds the highest symbol m with a code and then the lengths of symbols 0 to m in four bits each, those
      of even symbols in the upper halves. */
  lemma HeaderLaid(lens: seq<nat>)
    requires Nibbles(lens)
    ensures var d := Header(lens);
            |d| == 1 + (d[0] as int + 2) / 2 && (d[0] > 0 ==> lens[d[0]] > 0)
            && (forall s :: 0 <= s < 256 ==>
                  lens[s] == if s > d[0] then 0 else if s % 2 == 0 then d[1 + s / 2] / 16 else d[1 + s / 2] % 16)
            && (d[0] % 2 == 0 ==> d[|d| - 1] % 16 == 0)
  {
    hide Pair;
    HighestPresent(lens, SYMBOLS);
    var m, d := MaxSym(lens, SYMBOLS), Header(lens);
    forall s | 0 <= s < 256
      ensures lens[s] == if s > d[0] then 0 else if s % 2 == 0 then d[1 + s / 2] / 16 else d[1 + s / 2] % 16
    {
      if s <= m {
        PairBack(lens, m, s);
      }
    }
    if m % 2 == 0 {
      assert d[|d| - 1] == Pair(lens, m, m / 2);
      LastPair(lens, m);
    }
  }

  lemma LastPair(lens: seq<nat>, m: nat)
    requires Nibbles(lens) && m < SYMBOLS && m % 2 == 0
    ensures Pair(lens, m, m / 2) % 16 == 0
  {
  }

  lemma {:induction false} HighestPresent(lens: seq<nat>, n: nat)
    requires n <= |lens|
    ensures MaxSym(lens, n) > 0 ==> MaxSym(lens, n) < n && lens[MaxSym(lens, n)] > 0
  {
    if n > 0 {
      HighestPresent(lens, n - 1);
    }
  }

  // ---------------------------------------------------------------- encoding

  /** Every symbol of xs has a code. */
  predicate Coded(lens: seq<nat>, xs: seq<byte>) {
    |lens| == SYMBOLS && forall i :: 0 <= i < |xs| ==> lens[xs[i]] > 0
  }

  function Fields(lens: seq<nat>, xs: seq<byte>): (fs: seq<Field>)
    requires |lens| == SYMBOLS
    ensures |fs| == |xs|
  {
    if xs == [] then [] else [Field(Code(lens, xs[0]), lens[xs[0]])] + Fields(lens, xs[1..])
  }

  lemma {:induction false} FieldsBits(lens: seq<nat>, xs: seq<byte>)
    requires Nibbles(lens)
    ensures FieldsOk(Fields(lens, xs)) && StreamBits(Fields(lens, xs)) <= 15 * |xs|
    ensures Coded(lens, xs) ==> StreamBits(Fields(lens, xs)) >= |xs|
  {
    if xs != [] {
      FieldsBits(lens, xs[1..]);
      assert Fields(lens, xs)[1..] == Fields(lens, xs[1..]);
    }
  }

  /** Bits of the codes of xs. */
  function CodeBits(lens: seq<nat>, xs: seq<byte>): (n: nat)
    requires |lens| == SYMBOLS
  {
    if xs == [] then 0 else CodeBits(lens, xs[..|xs| - 1]) + lens[xs[|xs| - 1]]
  }

  lemma {:induction false} FieldsSplit(lens: seq<nat>, xs: seq<byte>, k: nat)
    requires |lens| == SYMBOLS && k <= |xs|
    ensures Fields(lens, xs) == Fields(lens, xs[..k]) + Fields(lens, xs[k..])
  {
    if k == 0 {
      assert xs[0..] == xs;
    } else {
      FieldsSplit(lens, xs[1..], k - 1);
      assert xs[..k][1..] == xs[1..][..k - 1] && xs[1..][k - 1..] == xs[k..];
    }
  }

  lemma {:induction false} CodeBitsAre(lens: seq<nat>, xs: seq<byte>)
    requires Nibbles(lens)
    ensures StreamBits(Fields(lens, xs)) == CodeBits(lens, xs)
  {
    if xs != [] {
      var n := |xs| - 1;
      CodeBitsAre(lens, xs[..n]);
      FieldsSplit(lens, xs, n);
      StreamConcat(Fields(lens, xs[..n]), Fields(lens, xs[n..]));
      assert xs[n..] == [xs[n]] && [xs[n]][1..] == [];
      assert Fields(lens, [xs[n]])[1..] == [];
    }
  }

  /** The code of symbol number k stands behind those before it, counted from the lowest bit on. */
  lemma CodeStands(lens: seq<nat>, xs: seq<byte>, k: nat)
    requires Nibbles(lens) && k < |xs|
    ensures Num(StreamBytes(Fields(lens, xs))) / Pow2(CodeBits(lens, xs[..k])) % Pow2(lens[xs[k]]) == Code(lens, xs[k])
    ensures 8 * |StreamBytes(Fields(lens, xs))| - 7 <= CodeBits(lens, xs) <= 8 * |StreamBytes(Fields(lens, xs))|
  {
    hide Num, StreamNum, StreamBits, Pow2, Code, CodeBits;
    var before, behind := Fields(lens, xs[..k]), Fields(lens, xs[k..]);
    FieldsSplit(lens, xs, k);
    FieldsBits(lens, xs);
    FieldsBits(lens, xs[..k]);
    CodeBitsAre(lens, xs);
    CodeBitsAre(lens, xs[..k]);
    StreamBytesNum(Fields(lens, xs));
    StreamConcat(before, behind);
    StreamBound(before);
    DivModUnique(StreamNum(before + behind), Pow2(StreamBits(before)), StreamNum(behind), StreamNum(before));
    var rest := Fields(lens, xs[k + 1..]);
    assert behind == [Field(Code(lens, xs[k]), lens[xs[k]])] + rest by {
      assert xs[k..][1..] == xs[k + 1..];
    }
    assert behind[1..] == rest;
    FirstField(behind);
    TakeField(StreamNum(behind), behind[0], StreamNum(rest));
  }

  lemma FirstField(fs: seq<Field>)
    requires fs != []
    ensures StreamNum(fs) == fs[0].val + Pow2(fs[0].nb) * StreamNum(fs[1..])
  {
  }

  // ---------------------------------------------------------------- decoding

  /** The bits still to be read and how many there are; dead once no code was found. */
  datatype Reading = At(v: nat, bits: nat) | Dead

  function SymbolAt(lens: seq<nat>, c: Reading): (b: byte)
    requires Nibbles(lens)
  {
    if c.Dead? then 0
    else match FindCode(lens, c.v, c.bits) case NoCode => 0 case Got(s, _) => s
  }

  function Next(lens: seq<nat>, c: Reading): (d: Reading)
    requires Nibbles(lens)
    ensures c.At? && d.At? ==> d.bits < c.bits
  {
    if c.Dead? then Dead
    else match FindCode(lens, c.v, c.bits) case NoCode => Dead case Got(_, l) => At(Over(c.v, Pow2(l)), c.bits - l)
  }

  function After(lens: seq<nat>, c: Reading, k: nat): (d: Reading)
    requires Nibbles(lens)
    ensures c.At? && d.At? ==> d.bits <= c.bits
    ensures c.Dead? ==> d.Dead?
  {
    if k == 0 then c else Next(lens, After(lens, c, k - 1))
  }

  lemma {:induction false} AliveBefore(lens: seq<nat>, c: Reading, j: nat, k: nat)
    requires Nibbles(lens) && j <= k && After(lens, c, k).At?
    ensures After(lens, c, j).At?
  {
    if j < k {
      AliveBefore(lens, c, j, k - 1);
    }
  }

  function Decoded(lens: seq<nat>, c: Reading, n: nat): (xs: seq<byte>)
    requires Nibbles(lens)
    ensures |xs| == n && forall k :: 0 <= k < n ==> xs[k] == SymbolAt(lens, After(lens, c, k))
  {
    seq(n, k requires 0 <= k => SymbolAt(lens, After(lens, c, k)))
  }

  /** The cursor from which xs will be read, with tail bits above the stream. */
  function Start(lens: seq<nat>, xs: seq<byte>, tail: nat, spare: nat): (c: Reading)
    requires |lens| == SYMBOLS
  {
    var fs := Fields(lens, xs);
    At(StreamNum(fs) + Times(Pow2(StreamBits(fs)), tail), StreamBits(fs) + spare)
  }

  lemma ReadOne(lens: seq<nat>, xs: seq<byte>, tail: nat, spare: nat)
    requires Nibbles(lens) && Sound(lens) && Coded(lens, xs) && xs != []
    ensures SymbolAt(lens, Start(lens, xs, tail, spare)) == xs[0]
    ensures Next(lens, Start(lens, xs, tail, spare)) == Start(lens, xs[1..], tail, spare)
  {
    hide FindCode, StreamNum, Sound, Pow2, StreamBits, Code;
    var fs := Fields(lens, xs);
    assert fs[1..] == Fields(lens, xs[1..]);
    FieldsBits(lens, xs);
    BitsHead(fs);
    StreamTail(fs, tail);
    var c, d := Start(lens, xs, tail, spare), Start(lens, xs[1..], tail, spare);
    TakeField(c.v, fs[0], d.v);
    FindsCode(lens, xs[0], c.v, c.bits);
  }

  lemma BitsHead(fs: seq<Field>)
    requires fs != []
    ensures StreamBits(fs) == fs[0].nb + StreamBits(fs[1..])
  {
  }

  lemma {:induction false} ReadMany(lens: seq<nat>, xs: seq<byte>, tail: nat, spare: nat, k: nat)
    requires Nibbles(lens) && Sound(lens) && Coded(lens, xs) && k <= |xs|
    ensures After(lens, Start(lens, xs, tail, spare), k) == Start(lens, xs[k..], tail, spare)
  {
    if k == 0 {
      assert xs[0..] == xs;
    } else {
      hide Start, Next, Sound;
      ReadMany(lens, xs, tail, spare, k - 1);
      ReadOne(lens, xs[k - 1..], tail, spare);
      assert xs[k - 1..][1..] == xs[k..];
    }
  }

  /** Decoding a stream of codes brings the symbols back and uses exactly its bits. */
  lemma StreamRoundTrip(lens: seq<nat>, xs: seq<byte>, tail: nat, spare: nat)
    requires Nibbles(lens) && Sound(lens) && Coded(lens, xs)
    ensures Decoded(lens, Start(lens, xs, tail, spare), |xs|) == xs
    ensures After(lens, Start(lens, xs, tail, spare), |xs|) == At(tail, spare)
  {
    hide SymbolAt, Next, Sound, Fields, After, Start;
    var c := Start(lens, xs, tail, spare);
    forall k | 0 <= k < |xs| ensures Decoded(lens, c, |xs|)[k] == xs[k] {
      ReadMany(lens, xs, tail, spare, k);
      ReadOne(lens, xs[k..], tail, spare);
    }
    ReadMany(lens, xs, tail, spare, |xs|);
    assert xs[|xs|..] == [];
    NothingToRead(lens, tail, spare);
  }

  lemma NothingToRead(lens: seq<nat>, tail: nat, spare: nat)
    requires Nibbles(lens)
    ensures Start(lens, [], tail, spare) == At(tail, spare)
  {
  }
}
