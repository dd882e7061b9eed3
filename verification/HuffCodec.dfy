/** vvh_encode and vvh_decode: the single-stream Huffman coder. */
module HuffCodec {
  import opened LittleEndian
  import opened Bits
  import opened HuffTree
  import opened HuffLengths
  import opened HuffCodes
  import opened HuffTables
  import opened HuffStream
  import opened HuffIO
  import opened Lanes

  datatype Status = Ok | Corrupt | Overflow

  // ---------------------------------------------------------------- encoding

  /** The whole of a Huffman-coded run. */
  function Frame(lens: seq<nat>, xs: seq<byte>): (d: seq<byte>)
    requires Nibbles(lens)
  {
    Header(lens) + StreamBytes(Fields(lens, xs))
  }

  /** How often each byte occurs. */
  function CountsOf(src: seq<byte>): (freq: seq<nat>)
    ensures |freq| == SYMBOLS
  {
    seq(SYMBOLS, s requires 0 <= s < SYMBOLS => multiset(src)[s])
  }

  lemma CountsGrow(src: seq<byte>, i: nat)
    requires i < |src|
    ensures CountsOf(src[..i + 1]) == CountsOf(src[..i])[src[i] := CountsOf(src[..i])[src[i]] + 1]
  {
    assert src[..i + 1] == src[..i] + [src[i]];
  }

  lemma CountsNone(src: seq<byte>)
    ensures CountsOf(src[..0]) == seq(SYMBOLS, _ => 0)
  {
    assert src[..0] == [];
  }

  /** The code a Huffman tree over the bytes of src gives them. */
  ghost predicate HuffmanFor(src: seq<byte>, code: seq<nat>) {
    exists full: seq<nat> :: CodeFor(CountsOf(src), full, code)
  }

  /** Byte counts. */
  method Histogram(src: seq<byte>) returns (freq: seq<nat>)
    ensures freq == CountsOf(src) && Total(freq) == |src|
    ensures forall i :: 0 <= i < |src| ==> freq[src[i]] > 0
  {
    hide Sum, CountsOf;
    freq := seq(SYMBOLS, _ => 0);
    SumZero(freq, 0, SYMBOLS);
    CountsNone(src);
    for i := 0 to |src|
      invariant freq == CountsOf(src[..i]) && Sum(freq, 0, SYMBOLS) == i
      invariant forall j :: 0 <= j < i ==> freq[src[j]] > 0
    {
      CountsGrow(src, i);
      SumUpdate(freq, src[i], freq[src[i]] + 1, 0, SYMBOLS);
      freq := freq[src[i] := freq[src[i]] + 1];
    }
    assert src[..|src|] == src;
  }

  lemma GoodIsSound(freq: seq<nat>, lens: seq<nat>, src: seq<byte>)
    requires GoodLengths(freq, lens) && forall i :: 0 <= i < |src| ==> freq[src[i]] > 0
    ensures Nibbles(lens) && Sound(lens) && Coded(lens, src)
  {
    hide Kraft;
  }

  lemma ForIsGood(freq: seq<nat>, full: seq<nat>, lens: seq<nat>)
    requires CodeFor(freq, full, lens)
    ensures GoodLengths(freq, lens)
  {
  }

  /** Frequencies, lengths and codes: the Huffman code of src. */
  method BuildEncTable(src: seq<byte>) returns (lens: seq<nat>, codes: seq<nat>)
    requires |src| < DEEP_TOTAL
    ensures Nibbles(lens) && Sound(lens) && Coded(lens, src) && HuffmanFor(src, lens)
    ensures |codes| == SYMBOLS && forall s :: 0 <= s < SYMBOLS ==> codes[s] == Code(lens, s)
  {
    hide GoodLengths, Sound, Code, CountsOf, CodeFor;
    var freq := Histogram(src);
    var table := new nat[SYMBOLS];
    ghost var full := BuildCodeLengths(freq, table);
    lens := table[..];
    ForIsGood(freq, full, lens);
    GoodIsSound(freq, lens, src);
    codes := EncCodes(lens);
  }

  /** write_header: its size, or 0 when it does not fit. */
  method WriteHeader(lens: seq<nat>, dst: array<byte>) returns (size: nat)
    requires Nibbles(lens)
    modifies dst
    ensures size == if |Header(lens)| > dst.Length then 0 else |Header(lens)|
    ensures size > 0 ==> dst[..size] == Header(lens)
  {
    var max: nat := 0;
    var i: int := SYMBOLS - 1;
    while i >= 0 && max == 0
      invariant -1 <= i < SYMBOLS
      invariant max == 0 ==> MaxSym(lens, SYMBOLS) == MaxSym(lens, i + 1)
      invariant max > 0 ==> max == MaxSym(lens, SYMBOLS)
      decreases i, max == 0
    {
      if lens[i] > 0 {
        max := i;
      }
      i := i - 1;
    }
    assert max == MaxSym(lens, SYMBOLS);
    size := 1 + (max + 2) / 2;
    if size > dst.Length {
      return 0;
    }
    dst[0] := max;
    var k := 0;
    while k <= max
      invariant k % 2 == 0 && k <= max + 2 && 1 + k / 2 <= size
      invariant dst[0] == max && forall j :: 0 <= j < k / 2 ==> dst[1 + j] == Pair(lens, max, j)
    {
      dst[1 + k / 2] := 16 * lens[k] + (if k + 1 <= max then lens[k + 1] else 0);
      k := k + 2;
    }
    assert dst[..size] == Header(lens);
  }

  /** What a writer holds after the fields fs: they are all there unless they overflow. */
  ghost predicate Holds(w: HuffWriter, fs: seq<Field>)
    reads w, w.b
  {
    && w.Valid()
    && (w.overflow ==> WholeBytes(StreamBits(fs)) > w.end - w.start)
    && (!w.overflow ==> w.Bits() == StreamBits(fs) && w.Value() == StreamNum(fs))
  }

  /** One more code. */
  method AddCode(w: HuffWriter, v: nat, nb: nat, ghost fs: seq<Field>)
    requires Holds(w, fs) && v < Pow2(nb) && nb <= 15
    modifies w`a, w`n, w`p, w`overflow, w.b
    ensures Holds(w, fs + [Field(v, nb)]) && w.b[..w.start] == old(w.b[..w.start])
  {
    hide Pow2, StreamNum, StreamBits;
    StreamAppend(fs, Field(v, nb));
    assert WholeBytes(StreamBits(fs)) <= WholeBytes(StreamBits(fs) + nb);
    assert (StreamBits(fs) + nb) / 8 > w.end - w.start ==> WholeBytes(StreamBits(fs) + nb) > w.end - w.start;
    w.Add(v, nb);
  }

  /** Writes the codes of one lane behind position from. */
  method EncodeLane(lens: seq<nat>, codes: seq<nat>, src: seq<byte>, lane: nat, step: nat, dst: array<byte>, from: nat)
    returns (ok: bool, end: nat)
    requires Nibbles(lens) && step > 0 && from <= dst.Length
    requires |codes| == SYMBOLS && forall s :: 0 <= s < SYMBOLS ==> codes[s] == Code(lens, s)
    modifies dst
    ensures dst[..from] == old(dst[..from])
    ensures ok <==> from + |StreamBytes(Fields(lens, Lane(src, lane, step)))| <= dst.Length
    ensures ok ==> from <= end <= dst.Length && dst[from..end] == StreamBytes(Fields(lens, Lane(src, lane, step)))
  {
    hide Code, Pow2, Num, StreamNum, StreamBits, Holds, WholeBytes, StreamBytes;
    var w := new HuffWriter(dst, from);
    var i := lane;
    ghost var done: seq<byte> := [];
    HoldsNothing(w, lens);
    while i < |src|
      invariant fresh(w) && w.b == dst && w.start == from && w.end == dst.Length
      invariant Holds(w, Fields(lens, done)) && dst[..from] == old(dst[..from])
      invariant done + Lane(src, i, step) == Lane(src, lane, step)
      decreases |src| - i
    {
      FieldsAppend(lens, done, src[i]);
      AddCode(w, codes[src[i]], lens[src[i]], Fields(lens, done));
      assert done + ([src[i]] + Lane(src, i + step, step)) == done + [src[i]] + Lane(src, i + step, step);
      done := done + [src[i]];
      i := i + step;
    }
    assert done + [] == done;
    ok, end := FinishLane(w, Fields(lens, done));
  }

  lemma HoldsNothing(w: HuffWriter, lens: seq<nat>)
    requires Nibbles(lens) && w.Valid() && !w.overflow && w.Bits() == 0 && w.Value() == 0
    ensures Holds(w, Fields(lens, []))
  {
  }

  lemma {:induction false} FieldsAppend(lens: seq<nat>, xs: seq<byte>, x: byte)
    requires |lens| == SYMBOLS
    ensures Fields(lens, xs + [x]) == Fields(lens, xs) + [Field(Code(lens, x), lens[x])]
  {
    if xs == [] {
      assert [] + [x] == [x] && [x][1..] == [];
    } else {
      FieldsAppend(lens, xs[1..], x);
      assert (xs + [x])[1..] == xs[1..] + [x];
    }
  }

  method FinishLane(w: HuffWriter, ghost fs: seq<Field>) returns (ok: bool, end: nat)
    requires Holds(w, fs)
    modifies w`a, w`n, w`p, w.b
    ensures w.b[..w.start] == old(w.b[..w.start])
    ensures ok <==> w.start + |StreamBytes(fs)| <= w.end
    ensures ok ==> w.start <= end <= w.b.Length && w.b[w.start..end] == StreamBytes(fs)
  {
    hide Num, StreamNum, StreamBits, Pow2, WholeBytes;
    ok := w.Flush();
    end := w.p;
    if ok {
      BytesUnique(w.b[w.start..end]);
    }
  }

  /** vvh_encode: the frame of src under its Huffman code; it fails exactly when that does not fit or is no shorter. */
  method VvhEncode(src: seq<byte>, dst: array<byte>) returns (st: Status, len: nat, ghost code: seq<nat>)
    requires |src| < DEEP_TOTAL
    modifies dst
    ensures src == [] ==> st == Ok && len == 0
    ensures src != [] ==>
      && Nibbles(code) && Sound(code) && Coded(code, src) && HuffmanFor(src, code)
      && st == (if |Frame(code, src)| <= dst.Length && |Frame(code, src)| < |src| then Ok else Overflow)
      && (st == Ok ==> len == |Frame(code, src)| && dst[..len] == Frame(code, src))
  {
    hide Code, Fields, Header, Sound, StreamBytes, Coded, HuffmanFor;
    if src == [] {
      return Ok, 0, [];
    }
    var lens, codes := BuildEncTable(src);
    code := lens;
    var hdr := WriteHeader(lens, dst);
    if hdr == 0 {
      return Overflow, 0, code;
    }
    var ok, end := EncodeLane(lens, codes, src, 0, 1, dst, hdr);
    WholeLane(src, 0);
    assert src[0..] == src;
    if !ok || end >= |src| {
      return Overflow, 0, code;
    }
    assert dst[..end] == dst[..hdr] + dst[hdr..end];
    return Ok, end, code;
  }

  // ---------------------------------------------------------------- decoding

  /** What decoding yields: the literals and the bytes consumed, or an error. */
  datatype Outcome = Good(out: seq<byte>, consumed: nat) | Bad(why: Status)

  ghost predicate NoLengths(lens: seq<nat>) { forall s :: 0 <= s < |lens| ==> lens[s] == 0 }

  /** What vvh_decode computes from src for n literals and room for cap. */
  ghost function DecodeFrame(src: seq<byte>, cap: nat, n: nat): (r: Outcome) {
    if n == 0 then Good([], 0)
    else if n > cap then Bad(Overflow)
    else
      var p := ParseHeader(src);
      if p.size == 0 || NoLengths(p.lens) then Bad(Corrupt)
      else
        var body := src[p.size..];
        var c := At(Num(body), 8 * |body|);
        match After(p.lens, c, n)
        case Dead => Bad(Corrupt)
        case At(_, left) => Good(Decoded(p.lens, c, n), p.size + WholeBytes(c.bits - left))
  }

  /** Decoding what encoding produced, whatever follows it. */
  lemma FrameRoundTrip(lens: seq<nat>, xs: seq<byte>, tail: seq<byte>, cap: nat)
    requires Nibbles(lens) && Sound(lens) && Coded(lens, xs) && 0 < |xs| <= cap
    ensures DecodeFrame(Frame(lens, xs) + tail, cap, |xs|) == Good(xs, |Frame(lens, xs)|)
  {
    hide ParseHeader, Header, StreamBytes, Fields, Num, StreamNum, StreamBits, Pow2, WholeBytes, Decoded, After, Sound;
    var fs := Fields(lens, xs);
    var body := StreamBytes(fs) + tail;
    assert Frame(lens, xs) + tail == Header(lens) + body;
    HeaderBack(lens, body);
    assert (Header(lens) + body)[|Header(lens)|..] == body;
    SomeLength(lens, xs);
    FieldsBits(lens, xs);
    StreamThenBytes(fs, tail);
    BodyBits(fs, tail);
    var spare := 8 * |body| - StreamBits(fs);
    StreamRoundTrip(lens, xs, Times(Pow2(8 * |StreamBytes(fs)| - StreamBits(fs)), Num(tail)), spare);
  }

  lemma SomeLength(lens: seq<nat>, xs: seq<byte>)
    requires Nibbles(lens) && Coded(lens, xs) && xs != []
    ensures !NoLengths(lens)
  {
    assert lens[xs[0]] > 0;
  }

  lemma BodyBits(fs: seq<Field>, tail: seq<byte>)
    ensures |StreamBytes(fs)| == WholeBytes(StreamBits(fs))
    ensures 8 * |StreamBytes(fs) + tail| >= StreamBits(fs)
  {
  }

  // ---------------------------------------------------------------- decode loops

  /** The tables of a code. */
  ghost predicate Tabled(lens: seq<nat>, table: array<Slot>, slow: seq<Slow>)
    reads table
  {
    Nibbles(lens) && TableUpTo(lens, table[..], SYMBOLS) && slow == SlowList(lens, 0)
  }

  ghost function Here(r: HuffReader): (c: Reading)
    reads r
    requires r.Valid()
  {
    At(r.Rest(), r.Left())
  }

  /** Table lookup, or the scan of the long codes, on loaded bits. */
  method Lookup(lens: seq<nat>, table: array<Slot>, slow: seq<Slow>, r: HuffReader, checked: bool) returns (g: Got)
    requires Tabled(lens, table, slow) && r.Valid() && (r.n >= MAX_LEN || (checked && r.p == |r.s|))
    ensures g == FindCode(lens, r.Rest(), r.Left())
    ensures g.Got? ==> g.len <= r.n
  {
    hide Fast, FirstSlow, SlowList, StartsWith, Num, Pow2;
    r.Loaded(DECODE_BITS);
    TableBits();
    var e := table[r.a % TABLE_SIZE];
    assert e == table[..][r.a % TABLE_SIZE];
    if e.len > 0 {
      return if checked && r.n < e.len then NoCode else Got(e.sym, e.len);
    }
    SlowLoaded(lens, r, 0);
    g := ScanSlow(lens, slow, r.a, r.n);
  }

  /** The long codes found in the loaded bits are those found in all bits. */
  lemma {:induction false} SlowLoaded(lens: seq<nat>, r: HuffReader, s: nat)
    requires Nibbles(lens) && r.Valid() && (r.n >= MAX_LEN || r.p == |r.s|) && s <= SYMBOLS
    ensures FirstSlow(lens, r.a, r.n, s) == FirstSlow(lens, r.Rest(), r.Left(), s)
    decreases SYMBOLS - s
  {
    hide Code;
    if s < SYMBOLS {
      SlowLoaded(lens, r, s + 1);
      r.Loaded(lens[s]);
    }
  }

  /** One symbol, refilling when fewer than fifteen bits are loaded. */
  method DecodeOne(lens: seq<nat>, table: array<Slot>, slow: seq<Slow>, r: HuffReader) returns (ok: bool, sym: byte)
    requires Tabled(lens, table, slow) && r.Valid()
    modifies r
    ensures r.Valid()
    ensures var c := old(Here(r));
            match Next(lens, c)
            case Dead => !ok
            case At(_, _) => ok && sym == SymbolAt(lens, c) && Here(r) == Next(lens, c)
  {
    hide FindCode, Tabled, Num, Pow2;
    ok, sym := false, 0;
    if r.n < MAX_LEN {
      r.Refill();
    }
    TabledNibbles(lens, table, slow);
    var g := Lookup(lens, table, slow, r, true);
    if g.NoCode? {
      return;
    }
    r.Consume(g.len);
    return true, g.sym;
  }

  lemma TabledNibbles(lens: seq<nat>, table: array<Slot>, slow: seq<Slow>)
    requires Tabled(lens, table, slow)
    ensures Nibbles(lens)
  {
  }

  /** One symbol from at least fifteen loaded bits, without refill or length check. */
  method DecodeLoaded(lens: seq<nat>, table: array<Slot>, slow: seq<Slow>, r: HuffReader) returns (ok: bool, sym: byte)
    requires Tabled(lens, table, slow) && r.Valid() && r.n >= MAX_LEN
    modifies r
    ensures r.Valid() && (ok ==> r.n >= old(r.n) - MAX_LEN)
    ensures var c := old(Here(r));
            match Next(lens, c)
            case Dead => !ok
            case At(_, _) => ok && sym == SymbolAt(lens, c) && Here(r) == Next(lens, c)
  {
    hide FindCode, Tabled, Num, Pow2;
    ok, sym := false, 0;
    TabledNibbles(lens, table, slow);
    var g := Lookup(lens, table, slow, r, false);
    if g.NoCode? {
      return;
    }
    r.Consume(g.len);
    return true, g.sym;
  }

  /** read_header. */
  method ReadHeader(src: seq<byte>) returns (p: Parsed)
    ensures p == ParseHeader(src)
  {
    var lens := seq(SYMBOLS, _ => 0);
    if |src| < 1 || 1 + (src[0] as int + 2) / 2 > |src| {
      return Parsed(lens, 0);
    }
    var m: nat := src[0];
    var i := 0;
    while i <= m
      invariant i % 2 == 0 && i <= m + 2 && |lens| == SYMBOLS
      invariant forall s :: 0 <= s < SYMBOLS ==> lens[s] == if s < i then LengthAt(src, s) else 0
    {
      var packed := src[1 + i / 2];
      lens := lens[i := packed / 16];
      if i + 1 <= m {
        lens := lens[i + 1 := packed % 16];
      }
      i := i + 2;
    }
    return Parsed(lens, 1 + (m + 2) / 2);
  }

  method HasSymbol(lens: seq<nat>) returns (some: bool)
    ensures some <==> !NoLengths(lens)
  {
    for i := 0 to |lens|
      invariant forall s :: 0 <= s < i ==> lens[s] == 0
    {
      if lens[i] > 0 {
        return true;
      }
    }
    return false;
  }

  /** vvh_decode, against DecodeFrame. */
  method VvhDecode(src: seq<byte>, dst: array<byte>, n: nat) returns (st: Status, consumed: nat)
    modifies dst
    ensures match DecodeFrame(src, dst.Length, n)
      case Bad(why) => st == why
      case Good(out, used) => st == Ok && consumed == used && n <= dst.Length && dst[..n] == out
  {
    hide ParseHeader, Decoded, After, Num, NoLengths, TableUpTo, SlowList;
    if n == 0 {
      return Ok, 0;
    }
    if n > dst.Length {
      return Overflow, 0;
    }
    var p := ReadHeader(src);
    if p.size == 0 {
      return Corrupt, 0;
    }
    var some := HasSymbol(p.lens);
    if !some {
      return Corrupt, 0;
    }
    var table := new Slot[TABLE_SIZE];
    var slow := BuildDecTable(p.lens, table);
    var r := new HuffReader(src[p.size..]);
    r.Refill();
    var ok := DecodeLoop(p.lens, table, slow, r, dst, n);
    if !ok {
      return Corrupt, 0;
    }
    assert WholeBytes(8 * |r.s| - r.Left()) == r.p - (if r.n >= 8 then r.n / 8 else 0);
    return Ok, p.size + r.p - (if r.n >= 8 then r.n / 8 else 0);
  }

  method DecodeLoop(lens: seq<nat>, table: array<Slot>, slow: seq<Slow>, r: HuffReader, dst: array<byte>, n: nat)
    returns (ok: bool)
    requires Tabled(lens, table, slow) && Nibbles(lens) && r.Valid() && n <= dst.Length && dst as object != table
    modifies r, dst
    ensures r.Valid()
    ensures var c := old(Here(r));
            match After(lens, c, n) case Dead => !ok case At(_, _) => ok && dst[..n] == Decoded(lens, c, n)
                                                                       && Here(r) == After(lens, c, n)
  {
    hide Tabled, SymbolAt, Next, Num, Pow2, After, Here;
    ghost var c := Here(r);
    AfterStep(lens, c, 0);
    for i := 0 to n
      invariant Tabled(lens, table, slow) && r.Valid() && Here(r) == After(lens, c, i)
      invariant forall k :: 0 <= k < i ==> dst[k] == SymbolAt(lens, After(lens, c, k))
    {
      AfterStep(lens, c, i);
      HereAlive(r);
      var sym;
      ok, sym := DecodeOne(lens, table, slow, r);
      if !ok {
        DeadForGood(lens, c, i + 1, n);
        return;
      }
      dst[i] := sym;
    }
    HereAlive(r);
    ok := true;
  }

  lemma AfterStep(lens: seq<nat>, c: Reading, k: nat)
    requires Nibbles(lens)
    ensures After(lens, c, k + 1) == Next(lens, After(lens, c, k)) && After(lens, c, 0) == c
  {
  }

  lemma HereAlive(r: HuffReader)
    requires r.Valid()
    ensures Here(r).At?
  {
  }

  lemma DeadForGood(lens: seq<nat>, c: Reading, k: nat, n: nat)
    requires Nibbles(lens) && k <= n && After(lens, c, k).Dead?
    ensures After(lens, c, n).Dead?
  {
    if After(lens, c, n).At? {
      AliveBefore(lens, c, k, n);
    }
  }
}
