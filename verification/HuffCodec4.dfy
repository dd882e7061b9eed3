/** vvh_encode4 and vvh_decode4: four round-robin lanes under one code. */
module HuffCodec4 {
  import opened LittleEndian
  import opened Bits
  import opened HuffLengths
  import opened HuffCodes
  import opened HuffTables
  import opened HuffStream
  import opened HuffIO
  import opened Lanes
  import opened HuffCodec

  const STREAM_HDR: nat := 9
  const MIN_LITERALS: nat := 1024

  // ---------------------------------------------------------------- the frame

  /** A 24-bit little-endian length. */
  function Len3(n: nat): (s: seq<byte>)
    ensures |s| == 3
  {
    [n % 0x100, n / 0x100 % 0x100, n / 0x1_0000 % 0x100]
  }

  function Read3(a: byte, b: byte, c: byte): (n: nat) { a + 0x100 * b + 0x1_0000 * c }

  lemma Len3Back(n: nat)
    requires n < 0x100_0000
    ensures var s := Len3(n); Read3(s[0], s[1], s[2]) == n
  {
  }

  function LaneBytes(lens: seq<nat>, xs: seq<byte>, lane: nat): (s: seq<byte>)
    requires Nibbles(lens)
  {
    StreamBytes(Fields(lens, Lane(xs, lane, 4)))
  }

  /** The streams of the first k lanes. */
  function Streams(lens: seq<nat>, xs: seq<byte>, k: nat): (s: seq<byte>)
    requires Nibbles(lens)
  {
    if k == 0 then [] else Streams(lens, xs, k - 1) + LaneBytes(lens, xs, k - 1)
  }

  /** Sizes of lanes 1 to 3; that of lane 0 is what is left. */
  function Sizes(lens: seq<nat>, xs: seq<byte>): (s: seq<byte>)
    requires Nibbles(lens)
    ensures |s| == STREAM_HDR
  {
    Len3(|LaneBytes(lens, xs, 1)|) + Len3(|LaneBytes(lens, xs, 2)|) + Len3(|LaneBytes(lens, xs, 3)|)
  }

  function Frame4(lens: seq<nat>, xs: seq<byte>): (d: seq<byte>)
    requires Nibbles(lens)
  {
    Header(lens) + Sizes(lens, xs) + Streams(lens, xs, 4)
  }

  lemma LaneCoded(lens: seq<nat>, xs: seq<byte>, lane: nat)
    requires Coded(lens, xs)
    ensures Coded(lens, Lane(xs, lane, 4))
    decreases |xs| - lane
  {
    if lane < |xs| {
      LaneCoded(lens, xs, lane + 4);
    }
  }

  /** A lane's stream has at least a byte and fits a 24-bit size. */
  lemma LaneFits(lens: seq<nat>, xs: seq<byte>, lane: nat)
    requires Nibbles(lens) && Coded(lens, xs) && |xs| < DEEP_TOTAL
    ensures |LaneBytes(lens, xs, lane)| < 0x100_0000
    ensures lane < |xs| ==> |LaneBytes(lens, xs, lane)| >= 1
  {
    hide StreamNum, StreamBits;
    LaneCoded(lens, xs, lane);
    LaneShort(xs, lane);
    FieldsBits(lens, Lane(xs, lane, 4));
  }

  lemma {:induction false} StreamsGrow(lens: seq<nat>, xs: seq<byte>, j: nat, k: nat)
    requires Nibbles(lens) && j <= k
    ensures |Streams(lens, xs, j)| <= |Streams(lens, xs, k)|
  {
    if j < k {
      StreamsGrow(lens, xs, j, k - 1);
    }
  }

  // ---------------------------------------------------------------- encoding

  /** One lane behind position from. */
  method AppendLane(lens: seq<nat>, codes: seq<nat>, src: seq<byte>, lane: nat, dst: array<byte>, from: nat)
    returns (ok: bool, end: nat)
    requires Nibbles(lens) && from <= dst.Length
    requires |codes| == SYMBOLS && forall s :: 0 <= s < SYMBOLS ==> codes[s] == Code(lens, s)
    modifies dst
    ensures ok <==> from + |LaneBytes(lens, src, lane)| <= dst.Length
    ensures ok ==> end == from + |LaneBytes(lens, src, lane)| <= dst.Length
    ensures ok ==> dst[..end] == old(dst[..from]) + LaneBytes(lens, src, lane)
  {
    hide Code, StreamBytes, Fields, Lane, Nibbles;
    ok, end := EncodeLane(lens, codes, src, lane, 4, dst, from);
    if ok {
      assert dst[..end] == dst[..from] + dst[from..end];
    }
  }

  /** Writes the four lanes behind position from. */
  method EncodeLanes(lens: seq<nat>, codes: seq<nat>, src: seq<byte>, dst: array<byte>, from: nat)
    returns (ok: bool, end: nat, sizes: seq<nat>)
    requires Nibbles(lens) && Coded(lens, src) && 4 <= |src| < DEEP_TOTAL && from <= dst.Length
    requires |codes| == SYMBOLS && forall s :: 0 <= s < SYMBOLS ==> codes[s] == Code(lens, s)
    modifies dst
    ensures ok <==> from + |Streams(lens, src, 4)| <= dst.Length
    ensures ok ==> end <= dst.Length && dst[..end] == old(dst[..from]) + Streams(lens, src, 4)
    ensures ok ==> |sizes| == 4 && forall l :: 0 <= l < 4 ==> sizes[l] == |LaneBytes(lens, src, l)|
  {
    hide Code, Coded, LaneBytes, Nibbles;
    end, sizes := from, [];
    for s := 0 to 4
      invariant |sizes| == s && forall l :: 0 <= l < s ==> sizes[l] == |LaneBytes(lens, src, l)|
      invariant end <= dst.Length && dst[..end] == old(dst[..from]) + Streams(lens, src, s)
    {
      StreamsGrow(lens, src, s + 1, 4);
      LaneFits(lens, src, s);
      if end >= dst.Length {
        return false, end, sizes;
      }
      var start := end;
      ok, end := AppendLane(lens, codes, src, s, dst, start);
      if !ok {
        return;
      }
      sizes := sizes + [end - start];
    }
    ok := true;
  }

  /** vvh_encode4: the four-lane frame of src under its Huffman code; it fails exactly for short inputs, small outputs,
      and frames that do not fit or are no shorter than src. */
  method VvhEncode4(src: seq<byte>, dst: array<byte>) returns (st: Status, len: nat, ghost code: seq<nat>)
    requires |src| < DEEP_TOTAL
    modifies dst
    ensures |src| < 1024 || dst.Length < 200 ==> st == Overflow
    ensures |src| >= 1024 && dst.Length >= 200 ==>
      && Nibbles(code) && Sound(code) && Coded(code, src) && HuffmanFor(src, code)
      && st == (if |Frame4(code, src)| <= dst.Length && |Frame4(code, src)| < |src| then Ok else Overflow)
      && (st == Ok ==> len == |Frame4(code, src)| && dst[..len] == Frame4(code, src))
  {
    hide Code, Sound, Coded, StreamBytes, Header, Streams, Len3, LaneBytes, HuffmanFor;
    if |src| < MIN_LITERALS || dst.Length < 200 {
      return Overflow, 0, [];
    }
    var lens, codes := BuildEncTable(src);
    code := lens;
    var hdr := WriteHeader(lens, dst);
    if hdr == 0 {
      return Overflow, 0, code;
    }
    SomeStream(lens, src);
    if hdr + STREAM_HDR >= dst.Length {
      return Overflow, 0, code;
    }
    ghost var base := dst[..hdr + STREAM_HDR];
    var ok, end, sizes := EncodeLanes(lens, codes, src, dst, hdr + STREAM_HDR);
    if !ok {
      return Overflow, 0, code;
    }
    LaneFits(lens, src, 1);
    LaneFits(lens, src, 2);
    LaneFits(lens, src, 3);
    assert base[..hdr] == Header(lens);
    Backpatch(dst, hdr, end, sizes, base, Streams(lens, src, 4));
    if end >= |src| {
      return Overflow, 0, code;
    }
    return Ok, end, code;
  }

  lemma SomeStream(lens: seq<nat>, xs: seq<byte>)
    requires Nibbles(lens) && Coded(lens, xs) && 0 < |xs| < DEEP_TOTAL
    ensures |Streams(lens, xs, 4)| >= 1
  {
    hide LaneBytes;
    LaneFits(lens, xs, 0);
    StreamsGrow(lens, xs, 1, 4);
    assert Streams(lens, xs, 1) == Streams(lens, xs, 0) + LaneBytes(lens, xs, 0);
  }

  /** The stream sizes go to the place kept for them behind the header. */
  method Backpatch(dst: array<byte>, hdr: nat, end: nat, sizes: seq<nat>, ghost base: seq<byte>,
                   ghost streams: seq<byte>)
    requires hdr + STREAM_HDR <= end <= dst.Length && |sizes| == 4 && |base| == hdr + STREAM_HDR
    requires dst[..end] == base + streams
    modifies dst
    ensures dst[..end] == base[..hdr] + (Len3(sizes[1]) + Len3(sizes[2]) + Len3(sizes[3])) + streams
  {
    hide Len3;
    var bs := Len3(sizes[1]) + Len3(sizes[2]) + Len3(sizes[3]);
    ghost var was := dst[..end];
    forall i | 0 <= i < STREAM_HDR { dst[hdr + i] := bs[i]; }
    assert dst[..end] == was[..hdr] + bs + was[hdr + STREAM_HDR..];
    assert was[..hdr] == base[..hdr] && was[hdr + STREAM_HDR..] == streams;
  }

  // ---------------------------------------------------------------- decoding

  /** Total of the stored sizes, of lanes 1 to 3. */
  function Stored(s: seq<byte>): (n: nat)
    requires |s| >= STREAM_HDR
  {
    Read3(s[0], s[1], s[2]) + Read3(s[3], s[4], s[5]) + Read3(s[6], s[7], s[8])
  }

  predicate LanesOk(s: seq<byte>, n: nat) {
    && |s| >= STREAM_HDR && STREAM_HDR + Stored(s) <= |s|
    && (n >= 4 ==> forall l :: 0 <= l < 4 ==> SizeAt(s, l) > 0)
  }

  function SizeAt(s: seq<byte>, lane: nat): (n: nat)
    requires |s| >= STREAM_HDR && STREAM_HDR + Stored(s) <= |s| && lane < 4
  {
    match lane
    case 0 => |s| - STREAM_HDR - Stored(s)
    case 1 => Read3(s[0], s[1], s[2])
    case 2 => Read3(s[3], s[4], s[5])
    case _ => Read3(s[6], s[7], s[8])
  }

  /** Where the stream of a lane begins, counted from the size header. */
  function OffsetAt(s: seq<byte>, lane: nat): (at: nat)
    requires |s| >= STREAM_HDR && STREAM_HDR + Stored(s) <= |s| && lane <= 4
    ensures at <= |s| && (lane == 4 ==> at == |s|)
  {
    match lane
    case 0 => STREAM_HDR
    case 1 => STREAM_HDR + SizeAt(s, 0)
    case 2 => STREAM_HDR + SizeAt(s, 0) + SizeAt(s, 1)
    case 3 => STREAM_HDR + SizeAt(s, 0) + SizeAt(s, 1) + SizeAt(s, 2)
    case _ => |s|
  }

  function LaneData(s: seq<byte>, lane: nat): (d: seq<byte>)
    requires |s| >= STREAM_HDR && STREAM_HDR + Stored(s) <= |s| && lane < 4
  {
    s[OffsetAt(s, lane)..OffsetAt(s, lane) + SizeAt(s, lane)]
  }

  function CursorOf(d: seq<byte>): (c: Reading) { At(Num(d), 8 * |d|) }

  function Cursors(s: seq<byte>): (cs: seq<Reading>)
    requires |s| >= STREAM_HDR && STREAM_HDR + Stored(s) <= |s|
    ensures |cs| == 4 && forall l :: 0 <= l < 4 ==> cs[l] == CursorOf(LaneData(s, l))
  {
    [CursorOf(LaneData(s, 0)), CursorOf(LaneData(s, 1)), CursorOf(LaneData(s, 2)), CursorOf(LaneData(s, 3))]
  }

  /** Symbol i is the (i / 4)-th symbol of lane i % 4. */
  function RobinSymbol(lens: seq<nat>, cs: seq<Reading>, i: nat): (b: byte)
    requires Nibbles(lens) && |cs| == 4
  {
    SymbolAt(lens, After(lens, cs[i % 4], i / 4))
  }

  function Interleaved(lens: seq<nat>, cs: seq<Reading>, n: nat): (xs: seq<byte>)
    requires Nibbles(lens) && |cs| == 4
    ensures |xs| == n && forall i :: 0 <= i < n ==> xs[i] == RobinSymbol(lens, cs, i)
  {
    seq(n, i requires 0 <= i => RobinSymbol(lens, cs, i))
  }

  /** No lane runs out of codes before all n symbols are out. */
  ghost predicate AllAlive(lens: seq<nat>, cs: seq<Reading>, n: nat)
    requires Nibbles(lens) && |cs| == 4
  {
    forall l :: 0 <= l < 4 ==> After(lens, cs[l], StepsDone(n, l)).At?
  }

  /** What vvh_decode4 computes from src for n literals and room for cap. */
  ghost function DecodeFrame4(src: seq<byte>, cap: nat, n: nat): (r: Outcome) {
    if n == 0 then Good([], 0)
    else if n > cap then Bad(Overflow)
    else
      var p := ParseHeader(src);
      if p.size == 0 || NoLengths(p.lens) then Bad(Corrupt)
      else
        var s := src[p.size..];
        if !LanesOk(s, n) || !AllAlive(p.lens, Cursors(s), n) then Bad(Corrupt)
        else Good(Interleaved(p.lens, Cursors(s), n), |src|)
  }

  // ---------------------------------------------------------------- round trip

  lemma StreamsFour(lens: seq<nat>, xs: seq<byte>)
    requires Nibbles(lens)
    ensures Streams(lens, xs, 4)
            == LaneBytes(lens, xs, 0) + LaneBytes(lens, xs, 1) + LaneBytes(lens, xs, 2) + LaneBytes(lens, xs, 3)
  {
    hide LaneBytes;
    assert Streams(lens, xs, 1) == [] + LaneBytes(lens, xs, 0) == LaneBytes(lens, xs, 0);
    assert Streams(lens, xs, 3) == Streams(lens, xs, 2) + LaneBytes(lens, xs, 2);
  }

  /** Four sized parts behind their size header are cut apart again. */
  lemma PartsBack(b: seq<seq<byte>>)
    requires |b| == 4 && forall l :: 0 <= l < 4 ==> |b[l]| < 0x100_0000
    ensures var s := Len3(|b[1]|) + Len3(|b[2]|) + Len3(|b[3]|) + (b[0] + b[1] + b[2] + b[3]);
            && STREAM_HDR + Stored(s) <= |s|
            && forall l :: 0 <= l < 4 ==> SizeAt(s, l) == |b[l]| && LaneData(s, l) == b[l]
  {
    hide Read3, Len3;
    Len3Back(|b[1]|);
    Len3Back(|b[2]|);
    Len3Back(|b[3]|);
    var h := Len3(|b[1]|) + Len3(|b[2]|) + Len3(|b[3]|);
    var s := h + (b[0] + b[1] + b[2] + b[3]);
    assert s[..9] == h;
    PartSlices(h, b);
  }

  lemma PartSlices(h: seq<byte>, b: seq<seq<byte>>)
    requires |h| == 9 && |b| == 4
    ensures var s := h + (b[0] + b[1] + b[2] + b[3]);
            var o1, o2, o3 := 9 + |b[0]|, 9 + |b[0]| + |b[1]|, 9 + |b[0]| + |b[1]| + |b[2]|;
            s[9..o1] == b[0] && s[o1..o2] == b[1] && s[o2..o3] == b[2] && s[o3..o3 + |b[3]|] == b[3]
  {
  }

  /** A lane's own stream, read on its own, gives the lane back. */
  lemma LaneBack(lens: seq<nat>, xs: seq<byte>, lane: nat, k: nat)
    requires Nibbles(lens) && Sound(lens) && Coded(lens, xs) && k <= |Lane(xs, lane, 4)|
    ensures var c := CursorOf(LaneBytes(lens, xs, lane));
            && After(lens, c, k).At?
            && (k < |Lane(xs, lane, 4)| ==> SymbolAt(lens, After(lens, c, k)) == Lane(xs, lane, 4)[k])
  {
    hide Num, StreamNum, StreamBits, Pow2, Fields, SymbolAt, After, Sound, WholeBytes;
    var ys := Lane(xs, lane, 4);
    LaneCoded(lens, xs, lane);
    FieldsBits(lens, ys);
    StreamThenBytes(Fields(lens, ys), []);
    BodyBits(Fields(lens, ys), []);
    assert StreamBytes(Fields(lens, ys)) + [] == StreamBytes(Fields(lens, ys));
    var fs := Fields(lens, ys);
    var tail := Times(Pow2(8 * |StreamBytes(fs)| - StreamBits(fs)), Num([]));
    var spare := 8 * |StreamBytes(fs)| - StreamBits(fs);
    assert CursorOf(StreamBytes(fs)) == Start(lens, ys, tail, spare);
    ReadMany(lens, ys, tail, spare, k);
    if k < |ys| {
      ReadOne(lens, ys[k..], tail, spare);
    }
  }

  lemma {:induction false} LaneCount(xs: seq<byte>, lane: nat)
    requires lane < 4
    ensures |Lane(xs, lane, 4)| == StepsDone(|xs|, lane)
  {
    LaneCountFrom(xs, lane);
  }

  lemma {:induction false} LaneCountFrom(xs: seq<byte>, i: nat)
    ensures |Lane(xs, i, 4)| == if i < |xs| then (|xs| - i + 3) / 4 else 0
    decreases |xs| - i
  {
    if i < |xs| {
      LaneCountFrom(xs, i + 4);
    }
  }

  /** Decoding what encoding produced: the four lanes interleave back to the source, and all of it is consumed. */
  lemma Frame4RoundTrip(lens: seq<nat>, xs: seq<byte>, cap: nat)
    requires Nibbles(lens) && Sound(lens) && Coded(lens, xs) && 4 <= |xs| < DEEP_TOTAL && |xs| <= cap
    ensures DecodeFrame4(Frame4(lens, xs), cap, |xs|) == Good(xs, |Frame4(lens, xs)|)
  {
    hide ParseHeader, Header, LaneBytes, Streams, Sound, Len3, SymbolAt, After, Interleaved, LaneData, SizeAt, Stored,
         CursorOf, Lane;
    var b := [LaneBytes(lens, xs, 0), LaneBytes(lens, xs, 1), LaneBytes(lens, xs, 2), LaneBytes(lens, xs, 3)];
    forall l | 0 <= l < 4 ensures 1 <= |b[l]| < 0x100_0000 {
      LaneFits(lens, xs, l);
    }
    StreamsFour(lens, xs);
    PartsBack(b);
    var s := Sizes(lens, xs) + Streams(lens, xs, 4);
    assert Frame4(lens, xs) == Header(lens) + s;
    HeaderBack(lens, s);
    assert (Header(lens) + s)[|Header(lens)|..] == s;
    SomeLength(lens, xs);
    RobinBack(lens, xs, Cursors(s));
  }

  lemma RobinBack(lens: seq<nat>, xs: seq<byte>, cs: seq<Reading>)
    requires Nibbles(lens) && Sound(lens) && Coded(lens, xs) && |cs| == 4
    requires forall l :: 0 <= l < 4 ==> cs[l] == CursorOf(LaneBytes(lens, xs, l))
    ensures AllAlive(lens, cs, |xs|) && Interleaved(lens, cs, |xs|) == xs
  {
    hide SymbolAt, After, Sound, CursorOf, LaneBytes, Lane;
    forall l | 0 <= l < 4 ensures After(lens, cs[l], StepsDone(|xs|, l)).At? {
      LaneCount(xs, l);
      LaneBack(lens, xs, l, StepsDone(|xs|, l));
    }
    forall i | 0 <= i < |xs| ensures RobinSymbol(lens, cs, i) == xs[i] {
      LaneAt(xs, i % 4, i / 4);
      LaneBack(lens, xs, i % 4, i / 4);
    }
  }

  // ---------------------------------------------------------------- the decode loops

  ghost predicate Distinct(r: seq<HuffReader>) {
    |r| == 4 && r[0] != r[1] && r[0] != r[2] && r[0] != r[3] && r[1] != r[2] && r[1] != r[3] && r[2] != r[3]
  }

  /** A lane's reader is where its own decoder would be after k steps. */
  ghost predicate LaneInStep(lens: seq<nat>, c: Reading, r: HuffReader, k: nat)
    requires Nibbles(lens)
    reads r
  {
    r.Valid() && Here(r) == After(lens, c, k)
  }

  /** All lanes after i symbols. */
  ghost predicate InStep(lens: seq<nat>, cs: seq<Reading>, r: seq<HuffReader>, i: nat)
    requires Nibbles(lens) && |cs| == |r| == 4
    reads r
  {
    forall l :: 0 <= l < 4 ==> LaneInStep(lens, cs[l], r[l], StepsDone(i, l))
  }

  /** How many bits each lane has loaded. */
  ghost function Stocks(r: seq<HuffReader>): (ns: seq<nat>)
    requires |r| == 4
    reads r
    ensures |ns| == 4 && forall l :: 0 <= l < 4 ==> ns[l] == r[l].n
  {
    [r[0].n, r[1].n, r[2].n, r[3].n]
  }

  /** Each lane still holds 56 bits less fifteen for every symbol of the round it has given out. */
  ghost predicate Stocked(ns: seq<nat>, j: nat) {
    |ns| == 4 && forall l :: 0 <= l < 4 ==> ns[l] + MAX_LEN * StepsDone(j, l) >= 56
  }

  /** One symbol was taken from one lane. */
  ghost predicate Spent(ns: seq<nat>, ms: seq<nat>, lane: nat) {
    |ns| == |ms| == 4 && lane < 4 && ms[lane] >= ns[lane] - MAX_LEN
    && forall l :: 0 <= l < 4 && l != lane ==> ms[l] == ns[l]
  }

  lemma SpendOne(ns: seq<nat>, ms: seq<nat>, j: nat)
    requires Stocked(ns, j) && Spent(ns, ms, j % 4)
    ensures Stocked(ms, j + 1)
  {
    StepsNext(j);
  }

  /** One refill is enough for three symbols of every lane. */
  lemma StockLasts(ns: seq<nat>, j: nat)
    requires Stocked(ns, j) && j < 12
    ensures ns[j % 4] >= MAX_LEN
  {
    StepsNext(j);
  }

  /** One symbol of one lane, with or without refill and length check. */
  method LaneSymbol(lens: seq<nat>, table: array<Slot>, slow: seq<Slow>, ghost c: Reading, r: HuffReader, ghost k: nat,
                    loaded: bool)
    returns (ok: bool, sym: byte)
    requires Tabled(lens, table, slow) && Nibbles(lens) && LaneInStep(lens, c, r, k) && (loaded ==> r.n >= MAX_LEN)
    modifies r
    ensures !ok ==> After(lens, c, k + 1).Dead?
    ensures ok ==> LaneInStep(lens, c, r, k + 1) && sym == SymbolAt(lens, After(lens, c, k))
    ensures ok && loaded ==> r.n >= old(r.n) - MAX_LEN
  {
    hide Tabled, SymbolAt, Next, After, Here;
    AfterStep(lens, c, k);
    HereAlive(r);
    if loaded {
      ok, sym := DecodeLoaded(lens, table, slow, r);
    } else {
      ok, sym := DecodeOne(lens, table, slow, r);
    }
  }

  /** Symbol i of the round robin. */
  method RobinStep(lens: seq<nat>, table: array<Slot>, slow: seq<Slow>, ghost cs: seq<Reading>, r: seq<HuffReader>,
                   i: nat, loaded: bool)
    returns (ok: bool, sym: byte)
    requires Tabled(lens, table, slow) && Nibbles(lens) && |cs| == 4 && |r| == 4 && Distinct(r)
             && InStep(lens, cs, r, i)
    requires loaded ==> r[i % 4].n >= MAX_LEN
    modifies r
    ensures ok ==> InStep(lens, cs, r, i + 1) && sym == RobinSymbol(lens, cs, i)
    ensures !ok ==> forall n :: n > i ==> !AllAlive(lens, cs, n)
    ensures ok && loaded ==> Spent(old(Stocks(r)), Stocks(r), i % 4)
  {
    hide LaneInStep, SymbolAt, StepsDone, Tabled;
    var lane := i % 4;
    StepsNext(i);
    ok, sym := LaneSymbol(lens, table, slow, cs[lane], r[lane], StepsDone(i, lane), loaded);
    if !ok {
      forall n | n > i ensures !AllAlive(lens, cs, n) {
        LaneDead(lens, cs, i, n);
      }
    }
  }

  lemma LaneDead(lens: seq<nat>, cs: seq<Reading>, i: nat, n: nat)
    requires Nibbles(lens) && |cs| == 4 && n > i && After(lens, cs[i % 4], StepsDone(i, i % 4) + 1).Dead?
    ensures !AllAlive(lens, cs, n)
  {
    hide After;
    assert StepsDone(i, i % 4) + 1 <= StepsDone(n, i % 4);
    DeadForGood(lens, cs[i % 4], StepsDone(i, i % 4) + 1, StepsDone(n, i % 4));
  }

  /** br_refill for every lane that has eight more bytes: at least 56 bits each. */
  method RefillAll(lens: seq<nat>, ghost cs: seq<Reading>, r: seq<HuffReader>, ghost i: nat)
    requires Nibbles(lens) && |cs| == 4 && |r| == 4 && Distinct(r) && InStep(lens, cs, r, i)
    requires forall l :: 0 <= l < 4 ==> r[l].p + 8 <= |r[l].s|
    modifies r
    ensures InStep(lens, cs, r, i) && Stocked(Stocks(r), 0)
  {
    hide After, StepsDone, Here, LaneInStep;
    RefillLane(lens, cs[0], r[0], StepsDone(i, 0));
    RefillLane(lens, cs[1], r[1], StepsDone(i, 1));
    RefillLane(lens, cs[2], r[2], StepsDone(i, 2));
    RefillLane(lens, cs[3], r[3], StepsDone(i, 3));
  }

  method RefillLane(lens: seq<nat>, ghost c: Reading, r: HuffReader, ghost k: nat)
    requires Nibbles(lens) && LaneInStep(lens, c, r, k) && r.p + 8 <= |r.s|
    modifies r
    ensures LaneInStep(lens, c, r, k) && r.n >= 56
  {
    hide After;
    r.RefillBulk();
  }

  /** Three symbols of every lane on one refill. */
  method FastRound(lens: seq<nat>, table: array<Slot>, slow: seq<Slow>, ghost cs: seq<Reading>, r: seq<HuffReader>,
                   dst: array<byte>, i: nat)
    returns (ok: bool)
    requires Tabled(lens, table, slow) && Nibbles(lens) && |cs| == 4 && |r| == 4 && Distinct(r)
             && InStep(lens, cs, r, i)
    requires i % 4 == 0 && i + 12 <= dst.Length && dst as object != table && Stocked(Stocks(r), 0)
    modifies r, dst
    ensures ok ==> InStep(lens, cs, r, i + 12) && forall j :: i <= j < i + 12 ==> dst[j] == RobinSymbol(lens, cs, j)
    ensures !ok ==> forall n :: n >= i + 12 ==> !AllAlive(lens, cs, n)
    ensures forall j :: 0 <= j < i ==> dst[j] == old(dst[j])
  {
    hide LaneInStep, Tabled, RobinSymbol, Distinct, AllAlive, InStep, Stocked, Spent;
    for j := 0 to 12
      invariant Tabled(lens, table, slow) && InStep(lens, cs, r, i + j)
      invariant Stocked(Stocks(r), j)
      invariant forall m :: i <= m < i + j ==> dst[m] == RobinSymbol(lens, cs, m)
      invariant forall m :: 0 <= m < i ==> dst[m] == old(dst[m])
    {
      StockLasts(Stocks(r), j);
      assert (i + j) % 4 == j % 4;
      ghost var before := Stocks(r);
      var sym;
      ok, sym := RobinStep(lens, table, slow, cs, r, i + j, true);
      if !ok {
        return;
      }
      SpendOne(before, Stocks(r), j);
      dst[i + j] := sym;
    }
    ok := true;
  }

  /** The rest, symbol by symbol with refills: full quads and the tail. */
  method SlowRounds(lens: seq<nat>, table: array<Slot>, slow: seq<Slow>, ghost cs: seq<Reading>, r: seq<HuffReader>,
                    dst: array<byte>, from: nat, n: nat)
    returns (ok: bool)
    requires Tabled(lens, table, slow) && Nibbles(lens) && |cs| == 4 && |r| == 4 && Distinct(r)
             && InStep(lens, cs, r, from)
    requires from <= n <= dst.Length && dst as object != table
    modifies r, dst
    ensures ok ==> InStep(lens, cs, r, n) && forall j :: from <= j < n ==> dst[j] == RobinSymbol(lens, cs, j)
    ensures !ok ==> !AllAlive(lens, cs, n)
    ensures forall j :: 0 <= j < from ==> dst[j] == old(dst[j])
  {
    hide LaneInStep, Tabled, RobinSymbol, Distinct, AllAlive, InStep;
    for i := from to n
      invariant Tabled(lens, table, slow) && InStep(lens, cs, r, i)
      invariant forall j :: from <= j < i ==> dst[j] == RobinSymbol(lens, cs, j)
      invariant forall j :: 0 <= j < from ==> dst[j] == old(dst[j])
    {
      var sym;
      ok, sym := RobinStep(lens, table, slow, cs, r, i, false);
      if !ok {
        return;
      }
      dst[i] := sym;
    }
    ok := true;
  }

  /** Refill-hoisted rounds while every lane has eight more bytes, then the checked loop: the same symbols. */
  method RobinLoop(lens: seq<nat>, table: array<Slot>, slow: seq<Slow>, ghost cs: seq<Reading>, r: seq<HuffReader>,
                   dst: array<byte>, n: nat)
    returns (ok: bool)
    requires Tabled(lens, table, slow) && Nibbles(lens) && |cs| == 4 && |r| == 4 && Distinct(r)
             && InStep(lens, cs, r, 0)
    requires n <= dst.Length && dst as object != table
    modifies r, dst
    ensures ok <==> AllAlive(lens, cs, n)
    ensures ok ==> dst[..n] == Interleaved(lens, cs, n)
  {
    hide LaneInStep, Tabled, RobinSymbol, Distinct, AllAlive, InStep;
    var q := n / 4;
    var i := 0;
    while i + 3 <= q && r[0].p + 8 <= |r[0].s| && r[1].p + 8 <= |r[1].s| && r[2].p + 8 <= |r[2].s|
          && r[3].p + 8 <= |r[3].s|
      invariant i <= q && |r| == 4 && Tabled(lens, table, slow) && InStep(lens, cs, r, 4 * i)
      invariant forall j :: 0 <= j < 4 * i ==> dst[j] == RobinSymbol(lens, cs, j)
    {
      RefillAll(lens, cs, r, 4 * i);
      ok := FastRound(lens, table, slow, cs, r, dst, 4 * i);
      if !ok {
        return;
      }
      i := i + 3;
    }
    ok := SlowRounds(lens, table, slow, cs, r, dst, 4 * i, n);
    if ok {
      StillAlive(lens, cs, r, n);
    }
  }

  lemma StillAlive(lens: seq<nat>, cs: seq<Reading>, r: seq<HuffReader>, n: nat)
    requires Nibbles(lens) && |cs| == |r| == 4 && InStep(lens, cs, r, n)
    ensures AllAlive(lens, cs, n)
  {
    forall l | 0 <= l < 4 ensures After(lens, cs[l], StepsDone(n, l)).At? {
      assert LaneInStep(lens, cs[l], r[l], StepsDone(n, l));
    }
  }

  /** The sizes of the four streams, or failure. */
  method ReadSizes(s: seq<byte>, n: nat) returns (ok: bool, s0: nat, s1: nat, s2: nat, s3: nat)
    ensures ok <==> LanesOk(s, n)
    ensures ok ==> s0 == SizeAt(s, 0) && s1 == SizeAt(s, 1) && s2 == SizeAt(s, 2) && s3 == SizeAt(s, 3)
    ensures ok ==> STREAM_HDR + s0 + s1 + s2 + s3 == |s|
  {
    hide Read3;
    ok, s0, s1, s2, s3 := false, 0, 0, 0, 0;
    if |s| < STREAM_HDR {
      return;
    }
    s1, s2, s3 := Read3(s[0], s[1], s[2]), Read3(s[3], s[4], s[5]), Read3(s[6], s[7], s[8]);
    var total := |s| - STREAM_HDR;
    if s1 > total || s2 > total - s1 || s3 > total - s1 - s2 {
      return;
    }
    s0 := total - s1 - s2 - s3;
    if n >= 4 && (s0 == 0 || s1 == 0 || s2 == 0 || s3 == 0) {
      assert exists l :: 0 <= l < 4 && SizeAt(s, l) == 0 by {
        assert SizeAt(s, if s0 == 0 then 0 else if s1 == 0 then 1 else if s2 == 0 then 2 else 3) == 0;
      }
      return;
    }
    ok := true;
  }

  /** A filled reader on one lane's bytes. */
  method OpenReader(d: seq<byte>) returns (r: HuffReader)
    ensures fresh(r) && r.Valid() && Here(r) == CursorOf(d)
  {
    r := new HuffReader(d);
    r.Refill();
  }

  /** vvh_decode4, against DecodeFrame4. */
  method VvhDecode4(src: seq<byte>, dst: array<byte>, n: nat) returns (st: Status, consumed: nat)
    modifies dst
    ensures match DecodeFrame4(src, dst.Length, n)
      case Bad(why) => st == why
      case Good(out, used) => st == Ok && consumed == used && n <= dst.Length && dst[..n] == out
  {
    hide ParseHeader, Interleaved, AllAlive, Num, NoLengths, LanesOk, LaneData, TableUpTo, SlowList;
    if n == 0 {
      return Ok, 0;
    }
    if n > dst.Length {
      return Overflow, 0;
    }
    var p := ReadHeader(src);
    if p.size == 0 {
      return Corrupt, 0;
    }
    var some := HasSymbol(p.lens);
    if !some {
      return Corrupt, 0;
    }
    var ok := DecodeLanes(p.lens, src[p.size..], dst, n);
    return if ok then Ok else Corrupt, |src|;
  }

  /** The part of vvh_decode4 after the code lengths. */
  method DecodeLanes(lens: seq<nat>, s: seq<byte>, dst: array<byte>, n: nat) returns (ok: bool)
    requires Nibbles(lens) && n <= dst.Length
    modifies dst
    ensures ok <==> LanesOk(s, n) && AllAlive(lens, Cursors(s), n)
    ensures ok ==> dst[..n] == Interleaved(lens, Cursors(s), n)
  {
    hide *;
    var s0, s1, s2, s3;
    ok, s0, s1, s2, s3 := ReadSizes(s, n);
    if !ok {
      return;
    }
    var table := new Slot[TABLE_SIZE];
    var slow := BuildDecTable(lens, table);
    LaneSlices(s, n);
    var o := STREAM_HDR;
    var r0 := OpenReader(s[o..o + s0]);
    var r1 := OpenReader(s[o + s0..o + s0 + s1]);
    var r2 := OpenReader(s[o + s0 + s1..o + s0 + s1 + s2]);
    var r3 := OpenReader(s[o + s0 + s1 + s2..o + s0 + s1 + s2 + s3]);
    var r := [r0, r1, r2, r3];
    AllTabled(lens, table, slow);
    AllDistinct(r);
    ReadyToStart(lens, Cursors(s), r);
    ok := RobinLoop(lens, table, slow, Cursors(s), r, dst, n);
  }

  lemma LaneSlices(s: seq<byte>, n: nat)
    requires LanesOk(s, n)
    ensures STREAM_HDR + Stored(s) <= |s|
    ensures var o, s0, s1, s2, s3 := STREAM_HDR, SizeAt(s, 0), SizeAt(s, 1), SizeAt(s, 2), SizeAt(s, 3);
            && o + s0 + s1 + s2 + s3 == |s|
            && Cursors(s)[0] == CursorOf(s[o..o + s0])
            && Cursors(s)[1] == CursorOf(s[o + s0..o + s0 + s1])
            && Cursors(s)[2] == CursorOf(s[o + s0 + s1..o + s0 + s1 + s2])
            && Cursors(s)[3] == CursorOf(s[o + s0 + s1 + s2..o + s0 + s1 + s2 + s3])
  {
    hide CursorOf, Read3;
  }

  lemma AllTabled(lens: seq<nat>, table: array<Slot>, slow: seq<Slow>)
    requires Nibbles(lens) && TableUpTo(lens, table[..], SYMBOLS) && slow == SlowList(lens, 0)
    ensures Tabled(lens, table, slow)
  {
  }

  lemma AllDistinct(r: seq<HuffReader>)
    requires |r| == 4 && r[0] != r[1] && r[0] != r[2] && r[0] != r[3] && r[1] != r[2] && r[1] != r[3] && r[2] != r[3]
    ensures Distinct(r)
  {
  }

  lemma ReadyToStart(lens: seq<nat>, cs: seq<Reading>, r: seq<HuffReader>)
    requires Nibbles(lens) && |cs| == |r| == 4 && forall l :: 0 <= l < 4 ==> r[l].Valid() && Here(r[l]) == cs[l]
    ensures InStep(lens, cs, r, 0)
  {
    forall l | 0 <= l < 4 ensures LaneInStep(lens, cs[l], r[l], StepsDone(0, l)) {
      assert StepsDone(0, l) == 0;
    }
  }
}
