/** vva_encode4 and vva_decode4: four round-robin lanes under one table. */
module AnsCodec4 {
  import opened LittleEndian
  import opened Bits
  import opened BitIO
  import opened AnsTable
  import opened AnsNormalize
  import opened AnsBuild
  import opened AnsHeader
  import opened AnsStream
  import opened AnsCodec
  import opened Lanes

  // ---------------------------------------------------------------- the frame

  /** A 32-bit little-endian length. */
  function LenBytes(n: nat): (s: seq<byte>)
    ensures |s| == 4
  {
    var w := n % 0x1_0000_0000;
    [ByteOf(w, 0), ByteOf(w, 1), ByteOf(w, 2), ByteOf(w, 3)]
  }

  lemma LenBack(n: nat)
    requires n < 0x1_0000_0000
    ensures var s := LenBytes(n); Word(s[0], s[1], s[2], s[3]) == n
  {
    hide ByteOf, Word;
    WordOfBytes(n);
  }

  function LaneState(norm: seq<nat>, xs: seq<byte>, lane: nat): (y: nat)
    requires IsTable(norm) && Covered(norm, xs)
    ensures y < ANS_L
  {
    LaneCovered(norm, xs, lane, 4);
    FinalState(norm, Lane(xs, lane, 4))
  }

  function LaneBytes(norm: seq<nat>, xs: seq<byte>, lane: nat): (bs: seq<byte>)
    requires IsTable(norm) && Covered(norm, xs)
  {
    LaneCovered(norm, xs, lane, 4);
    StreamBytes(Emitted(norm, Lane(xs, lane, 4)))
  }

  function LaneStates(norm: seq<nat>, xs: seq<byte>): (s: seq<byte>)
    requires IsTable(norm) && Covered(norm, xs)
    ensures |s| == 8
  {
    StateBytes(LaneState(norm, xs, 0)) + StateBytes(LaneState(norm, xs, 1))
    + StateBytes(LaneState(norm, xs, 2)) + StateBytes(LaneState(norm, xs, 3))
  }

  function LaneSizes(norm: seq<nat>, xs: seq<byte>): (s: seq<byte>)
    requires IsTable(norm) && Covered(norm, xs)
    ensures |s| == 16
  {
    LenBytes(|LaneBytes(norm, xs, 0)|) + LenBytes(|LaneBytes(norm, xs, 1)|)
    + LenBytes(|LaneBytes(norm, xs, 2)|) + LenBytes(|LaneBytes(norm, xs, 3)|)
  }

  function LaneStreams(norm: seq<nat>, xs: seq<byte>): (s: seq<byte>)
    requires IsTable(norm) && Covered(norm, xs)
  {
    LaneBytes(norm, xs, 0) + LaneBytes(norm, xs, 1) + LaneBytes(norm, xs, 2) + LaneBytes(norm, xs, 3)
  }

  /** The whole of a four-lane literal run. */
  function Frame4(norm: seq<nat>, xs: seq<byte>): (d: seq<byte>)
    requires IsTable(norm) && Covered(norm, xs)
  {
    TableActive(norm);
    if Active(norm, NSYM) == 1 then Header(norm)
    else Header(norm) + LaneStates(norm, xs) + LaneSizes(norm, xs) + LaneStreams(norm, xs)
  }

  /** vva_encode4. Its output is the four-lane frame of src; it fails exactly when that frame does not fit or is no
      shorter than src. */
  method VvaEncode4(src: seq<byte>, dst: array<byte>) returns (st: Status, len: nat, ghost norm: seq<nat>)
    requires |src| <= INT_MAX
    modifies dst
    ensures src == [] ==> st == Ok && len == 0
    ensures src != [] ==>
      && IsTable(norm) && Covered(norm, src) && Cum(Counts(src), NSYM) == |src| && LargestRemainder(Counts(src), norm)
      && st == (if |Frame4(norm, src)| <= dst.Length && |Frame4(norm, src)| < |src| then Ok else Overflow)
      && (st == Ok ==> len == |Frame4(norm, src)| && dst[..len] == Frame4(norm, src))
  {
    hide Header, Active, LaneStates, LaneSizes, LaneStreams, LargestRemainder, Counts;
    if src == [] {
      return Ok, 0, [];
    }
    var table, np := TableFor(src);
    norm := table;
    var hdr := WriteHeader(table, dst);
    if hdr == 0 {
      return Overflow, 0, norm;
    }
    if np == 1 {
      return if hdr >= |src| then Overflow else Ok, hdr, norm;
    }
    st, len := FinishFrame4(table, src, dst, hdr);
  }

  /** The lanes one after another: states, sizes and bit streams. */
  method EncodeLanes(norm: seq<nat>, src: seq<byte>) returns (states: seq<byte>, sizes: seq<byte>, streams: seq<byte>)
    requires IsTable(norm) && Covered(norm, src)
    ensures states == LaneStates(norm, src) && sizes == LaneSizes(norm, src)
    ensures streams == LaneStreams(norm, src)
  {
    hide FinalState, Emitted, StreamBytes, Lane, StateBytes, LenBytes, IsTable, Covered;
    var y0, b0 := EncodeStream(norm, src, 0, 4);
    var y1, b1 := EncodeStream(norm, src, 1, 4);
    var y2, b2 := EncodeStream(norm, src, 2, 4);
    var y3, b3 := EncodeStream(norm, src, 3, 4);
    states := StateBytes(y0) + StateBytes(y1) + StateBytes(y2) + StateBytes(y3);
    sizes := LenBytes(|b0|) + LenBytes(|b1|) + LenBytes(|b2|) + LenBytes(|b3|);
    streams := b0 + b1 + b2 + b3;
  }

  method FinishFrame4(norm: seq<nat>, src: seq<byte>, dst: array<byte>, hdr: nat) returns (st: Status, len: nat)
    requires IsTable(norm) && Covered(norm, src) && Active(norm, NSYM) > 1
    requires hdr == |Header(norm)| <= dst.Length && dst[..hdr] == Header(norm)
    modifies dst
    ensures st == (if |Frame4(norm, src)| <= dst.Length && |Frame4(norm, src)| < |src| then Ok else Overflow)
    ensures st == Ok ==> len == |Frame4(norm, src)| && dst[..len] == Frame4(norm, src)
  {
    hide Header, Active, LaneStates, LaneSizes, LaneStreams, IsTable, Covered;
    var states, sizes, streams := EncodeLanes(norm, src);
    var total := hdr + 24 + |streams|;
    if total > dst.Length || total >= |src| {
      return Overflow, 0;
    }
    var _ := Append(dst, hdr, states);
    var _ := Append(dst, hdr + 8, sizes);
    var _ := Append(dst, hdr + 24, streams);
    return Ok, total;
  }

  // ---------------------------------------------------------------- decoding

  function StateAt(s: seq<byte>, lane: nat): (y: nat)
    requires lane < 4 && |s| >= 24
  {
    Freq(s[2 * lane], s[2 * lane + 1])
  }

  function SizeAt(s: seq<byte>, lane: nat): (n: nat)
    requires lane < 4 && |s| >= 24
  {
    Word(s[8 + 4 * lane], s[9 + 4 * lane], s[10 + 4 * lane], s[11 + 4 * lane])
  }

  /** Where the stream of a lane begins, counted from the lane header. */
  function OffsetAt(s: seq<byte>, lane: nat): (at: nat)
    requires lane <= 4 && |s| >= 24
  {
    24 + (if lane > 0 then SizeAt(s, 0) else 0) + (if lane > 1 then SizeAt(s, 1) else 0)
    + (if lane > 2 then SizeAt(s, 2) else 0) + (if lane > 3 then SizeAt(s, 3) else 0)
  }

  predicate LanesOk(s: seq<byte>) {
    |s| >= 24 && (forall lane :: 0 <= lane < 4 ==> StateAt(s, lane) < ANS_L) && OffsetAt(s, 4) <= |s|
  }

  function LaneCursor(s: seq<byte>, lane: nat): (c: Cursor)
    requires LanesOk(s) && lane < 4
    ensures c.state < ANS_L
  {
    Cursor(StateAt(s, lane), Num(s[OffsetAt(s, lane)..OffsetAt(s, lane + 1)]))
  }

  /** Symbol i is the (i / 4)-th symbol of lane i % 4. */
  function RobinSymbol(norm: seq<nat>, cs: seq<Cursor>, i: nat): (b: byte)
    requires IsTable(norm) && |cs| == 4 && forall l :: 0 <= l < 4 ==> cs[l].state < ANS_L
  {
    SymbolAt(norm, After(norm, cs[i % 4], i / 4).state)
  }

  function Interleaved(norm: seq<nat>, cs: seq<Cursor>, n: nat): (xs: seq<byte>)
    requires IsTable(norm) && |cs| == 4 && forall l :: 0 <= l < 4 ==> cs[l].state < ANS_L
    ensures |xs| == n && forall i :: 0 <= i < n ==> xs[i] == RobinSymbol(norm, cs, i)
  {
    seq(n, i requires 0 <= i => RobinSymbol(norm, cs, i))
  }

  function Cursors(s: seq<byte>): (cs: seq<Cursor>)
    requires LanesOk(s)
    ensures |cs| == 4 && forall l :: 0 <= l < 4 ==> cs[l] == LaneCursor(s, l)
  {
    [LaneCursor(s, 0), LaneCursor(s, 1), LaneCursor(s, 2), LaneCursor(s, 3)]
  }

  /** What vva_decode4 computes from src for n literals and room for cap. */
  function DecodeFrame4(src: seq<byte>, cap: nat, n: nat): (r: Outcome) {
    if n == 0 then Good([], 0)
    else if n > cap then Bad(Overflow)
    else
      var t := Parse(src);
      if t.size == 0 || !IsTable(t.norm) then Bad(Corrupt)
      else if Active(t.norm, NSYM) == 1 then Good(Repeated(LastActive(t.norm, NSYM), n), t.size)
      else
        var s := src[t.size..];
        if !LanesOk(s) then Bad(Corrupt)
        else Good(Interleaved(t.norm, Cursors(s), n), t.size + OffsetAt(s, 4))
  }

  ghost predicate Distinct(r: seq<BitReader>) {
    |r| == 4 && r[0] != r[1] && r[0] != r[2] && r[0] != r[3] && r[1] != r[2] && r[1] != r[3] && r[2] != r[3]
  }

  /** A lane's state and reader are where its own decoder would be after k steps. */
  ghost predicate LaneInStep(norm: seq<nat>, c: Cursor, r: BitReader, state: nat, k: nat)
    requires IsTable(norm) && c.state < ANS_L
    reads r
  {
    r.Valid() && Cursor(state, r.Rest()) == After(norm, c, k)
  }

  /** All lanes after i symbols. */
  ghost predicate InStep(norm: seq<nat>, cs: seq<Cursor>, r: seq<BitReader>, s: seq<nat>, i: nat)
    requires IsTable(norm) && |cs| == |s| == |r| == 4 && forall l :: 0 <= l < 4 ==> cs[l].state < ANS_L
    reads r
  {
    forall l :: 0 <= l < 4 ==> LaneInStep(norm, cs[l], r[l], s[l], StepsDone(i, l))
  }

  /** One step of one lane. */
  method LaneStep(norm: seq<nat>, ghost c: Cursor, dec: array<Entry>, r: BitReader, state: nat, ghost k: nat)
    returns (sym: byte, next: nat)
    requires IsTable(norm) && c.state < ANS_L && dec.Length == ANS_L && dec[..] == DecTable(norm)
    requires LaneInStep(norm, c, r, state, k)
    modifies r
    ensures LaneInStep(norm, c, r, next, k + 1) && sym == SymbolAt(norm, After(norm, c, k).state)
  {
    hide Next, DecEntry, SymbolAt, IsTable;
    sym, next := DecodeStep(norm, dec, r, state);
  }

  /** One symbol of the round robin. */
  method RobinStep(norm: seq<nat>, ghost cs: seq<Cursor>, dec: array<Entry>, r: seq<BitReader>, s: seq<nat>, i: nat)
    returns (sym: byte, next: seq<nat>)
    requires IsTable(norm) && |cs| == |s| == 4 && Distinct(r)
    requires forall l :: 0 <= l < 4 ==> cs[l].state < ANS_L
    requires dec.Length == ANS_L && dec[..] == DecTable(norm)
    requires InStep(norm, cs, r, s, i)
    modifies r
    ensures |next| == 4 && InStep(norm, cs, r, next, i + 1)
    ensures sym == RobinSymbol(norm, cs, i)
  {
    hide After, LaneInStep, SymbolAt, IsTable, StepsDone, DecTable;
    var lane := i % 4;
    StepsNext(i);
    var state;
    sym, state := LaneStep(norm, cs[lane], dec, r[lane], s[lane], StepsDone(i, lane));
    next := s[lane := state];
  }

  /** The four states, unless one is out of range. */
  method ReadStates(s: seq<byte>) returns (ok: bool, states: seq<nat>)
    requires |s| >= 24
    ensures ok <==> forall l :: 0 <= l < 4 ==> StateAt(s, l) < ANS_L
    ensures ok ==> |states| == 4 && forall l :: 0 <= l < 4 ==> states[l] == StateAt(s, l)
  {
    ok, states := true, [];
    for l := 0 to 4
      invariant |states| == l && forall k :: 0 <= k < l ==> states[k] == StateAt(s, k) < ANS_L
    {
      if StateAt(s, l) >= ANS_L {
        return false, states;
      }
      states := states + [StateAt(s, l)];
    }
  }

  /** A filled reader on one lane's bytes, unless they run past the end. */
  method OpenReader(s: seq<byte>, at: nat, size: nat) returns (ok: bool, r: BitReader)
    requires at <= |s|
    ensures fresh(r) && r.Valid() && (ok <==> at + size <= |s|)
    ensures ok ==> r.Rest() == Num(s[at..at + size])
  {
    ok := at + size <= |s|;
    r := new BitReader(if ok then s[at..at + size] else []);
    r.Fill();
  }

  ghost predicate ReadsLane(s: seq<byte>, l: nat, r: BitReader)
    requires |s| >= 24 && l < 4
    reads r
  {
    OffsetAt(s, l + 1) <= |s| && r.Valid() && r.Rest() == Num(s[OffsetAt(s, l)..OffsetAt(s, l + 1)])
  }

  /** The readers of all lanes. */
  method OpenReaders(s: seq<byte>) returns (ok: bool, r: seq<BitReader>, end: nat)
    requires |s| >= 24
    ensures ok <==> OffsetAt(s, 4) <= |s|
    ensures ok ==> fresh(r) && Distinct(r)
    ensures ok ==> end == OffsetAt(s, 4) && forall l :: 0 <= l < 4 ==> ReadsLane(s, l, r[l])
  {
    hide Num, SizeAt;
    r, end := [], OffsetAt(s, 4);
    var r0, r1, r2, r3;
    ok, r0 := OpenReader(s, OffsetAt(s, 0), SizeAt(s, 0));
    if !ok { return; }
    ok, r1 := OpenReader(s, OffsetAt(s, 1), SizeAt(s, 1));
    if !ok { return; }
    ok, r2 := OpenReader(s, OffsetAt(s, 2), SizeAt(s, 2));
    if !ok { return; }
    ok, r3 := OpenReader(s, OffsetAt(s, 3), SizeAt(s, 3));
    if !ok { return; }
    r := [r0, r1, r2, r3];
  }

  /** vva_decode4, against DecodeFrame4. */
  method VvaDecode4(src: seq<byte>, dst: array<byte>, n: nat) returns (st: Status, consumed: nat)
    modifies dst
    ensures match DecodeFrame4(src, dst.Length, n)
      case Bad(why) => st == why
      case Good(out, used) => st == Ok && consumed == used && n <= dst.Length && dst[..n] == out
  {
    hide Parse, Active, LastActive, Cum, Interleaved, StateAt, OffsetAt, Num;
    if n == 0 {
      return Ok, 0;
    }
    if n > dst.Length {
      return Overflow, 0;
    }
    var norm, hdr := ReadHeader(src);
    if hdr == 0 {
      return Corrupt, 0;
    }
    var np, single := ValidatedSymbolCount(norm);
    if np == 0 {
      if IsTable(norm) {
        TableActive(norm);
        assert false;
      }
      return Corrupt, 0;
    }
    if np == 1 {
      forall i | 0 <= i < n { dst[i] := single; }
      return Ok, hdr;
    }
    st, consumed := DecodeLanes(norm, src[hdr..], dst, n);
    consumed := hdr + consumed;
  }

  /** The part of vva_decode4 after the table header. */
  method DecodeLanes(norm: seq<nat>, s: seq<byte>, dst: array<byte>, n: nat) returns (st: Status, used: nat)
    requires IsTable(norm) && n <= dst.Length
    modifies dst
    ensures !LanesOk(s) ==> st == Corrupt
    ensures LanesOk(s) ==> st == Ok && used == OffsetAt(s, 4) && dst[..n] == Interleaved(norm, Cursors(s), n)
  {
    hide Num, IsTable, Interleaved, StateAt, OffsetAt;
    var dec := new Entry[ANS_L];
    BuildDecDirect(norm, dec);
    if |s| < 24 {
      return Corrupt, 0;
    }
    var ok, states := ReadStates(s);
    if !ok {
      return Corrupt, 0;
    }
    var r;
    ok, r, used := OpenReaders(s);
    if !ok {
      return Corrupt, 0;
    }
    RobinLoop(norm, Cursors(s), dec, r, states, dst, n);
    return Ok, used;
  }

  /** Full quads of one symbol per lane, then the tail. */
  method RobinLoop(norm: seq<nat>, ghost cs: seq<Cursor>, dec: array<Entry>, r: seq<BitReader>, states: seq<nat>,
                   dst: array<byte>, n: nat)
    requires IsTable(norm) && |cs| == |states| == |r| == 4 && Distinct(r) && n <= dst.Length
    requires forall l :: 0 <= l < 4 ==> cs[l].state < ANS_L
    requires InStep(norm, cs, r, states, 0)
    requires dec.Length == ANS_L && dec[..] == DecTable(norm) && dst as object != dec
    modifies r, dst
    ensures dst[..n] == Interleaved(norm, cs, n)
  {
    hide IsTable, RobinSymbol, InStep, Distinct, DecTable, Interleaved;
    var s := states;
    var q := 0;
    while q < n / 4
      invariant q <= n / 4 && |s| == 4 && dec[..] == DecTable(norm)
      invariant InStep(norm, cs, r, s, 4 * q)
      invariant forall i :: 0 <= i < 4 * q ==> dst[i] == RobinSymbol(norm, cs, i)
    {
      for lane := 0 to 4
        invariant |s| == 4 && dec[..] == DecTable(norm)
        invariant InStep(norm, cs, r, s, 4 * q + lane)
        invariant forall i :: 0 <= i < 4 * q + lane ==> dst[i] == RobinSymbol(norm, cs, i)
      {
        var sym;
        sym, s := RobinStep(norm, cs, dec, r, s, 4 * q + lane);
        dst[4 * q + lane] := sym;
      }
      q := q + 1;
    }
    for i := 4 * (n / 4) to n
      invariant |s| == 4 && dec[..] == DecTable(norm)
      invariant InStep(norm, cs, r, s, i)
      invariant forall j :: 0 <= j < i ==> dst[j] == RobinSymbol(norm, cs, j)
    {
      var sym;
      sym, s := RobinStep(norm, cs, dec, r, s, i);
      dst[i] := sym;
    }
  }

  // ---------------------------------------------------------------- round trip

  /** The lane header of an encoded run and everything after it. */
  function LaneSection(norm: seq<nat>, xs: seq<byte>, tail: seq<byte>): (s: seq<byte>)
    requires IsTable(norm) && Covered(norm, xs)
    ensures |s| >= 24
  {
    LaneStates(norm, xs) + LaneSizes(norm, xs) + LaneStreams(norm, xs) + tail
  }

  lemma LaneEncoded(norm: seq<nat>, xs: seq<byte>, lane: nat)
    requires IsTable(norm) && Covered(norm, xs)
    ensures Covered(norm, Lane(xs, lane, 4))
    ensures Cursor(LaneState(norm, xs, lane), Num(LaneBytes(norm, xs, lane))) == Start(norm, Lane(xs, lane, 4), 0)
    ensures |LaneBytes(norm, xs, lane)| <= 2 * |Lane(xs, lane, 4)|
  {
    hide Num, StreamNum, StreamBits, Pow2, Emitted, FinalState, ToBytes, Lane;
    LaneCovered(norm, xs, lane, 4);
    EmittedBits(norm, Lane(xs, lane, 4));
    StreamBytesNum(Emitted(norm, Lane(xs, lane, 4)));
  }

  /** Reading a lane header back. */
  lemma HeaderFields(y: seq<nat>, b: seq<seq<byte>>, tail: seq<byte>)
    requires |y| == |b| == 4 && forall l :: 0 <= l < 4 ==> y[l] < ANS_L && |b[l]| < 0x1_0000_0000
    ensures var s := StateBytes(y[0]) + StateBytes(y[1]) + StateBytes(y[2]) + StateBytes(y[3])
                     + (LenBytes(|b[0]|) + LenBytes(|b[1]|) + LenBytes(|b[2]|) + LenBytes(|b[3]|))
                     + (b[0] + b[1] + b[2] + b[3]) + tail;
            forall l :: 0 <= l < 4 ==> StateAt(s, l) == y[l] && SizeAt(s, l) == |b[l]|
  {
    hide Freq, Lo, Hi;
    forall l | 0 <= l < 4 ensures Freq(Lo(y[l]), Hi(y[l])) == y[l] {
      TwoBytes(y[l]);
    }
    LenBack(|b[0]|);
    LenBack(|b[1]|);
    LenBack(|b[2]|);
    LenBack(|b[3]|);
  }

  lemma StreamSlices(h: seq<byte>, b: seq<seq<byte>>, tail: seq<byte>)
    requires |h| == 24 && |b| == 4
    ensures var s := h + (b[0] + b[1] + b[2] + b[3]) + tail;
            var o1, o2, o3 := 24 + |b[0]|, 24 + |b[0]| + |b[1]|, 24 + |b[0]| + |b[1]| + |b[2]|;
            && s[24..o1] == b[0] && s[o1..o2] == b[1] && s[o2..o3] == b[2]
            && s[o3..o3 + |b[3]|] == b[3]
  {
  }

  /** The lanes of an encoded run are found again, each at the start of its own stream. */
  lemma LanesBack(norm: seq<nat>, xs: seq<byte>, tail: seq<byte>)
    requires IsTable(norm) && Covered(norm, xs) && |xs| <= INT_MAX
    ensures var s := LaneSection(norm, xs, tail);
            && LanesOk(s) && OffsetAt(s, 4) == 24 + |LaneStreams(norm, xs)|
            && forall l :: 0 <= l < 4 ==>
                 Covered(norm, Lane(xs, l, 4)) && Cursors(s)[l] == Start(norm, Lane(xs, l, 4), 0)
  {
    hide LaneState, LaneBytes, Num, StateBytes, LenBytes, StateAt, SizeAt, Start, Covered, Lane;
    var y := [LaneState(norm, xs, 0), LaneState(norm, xs, 1), LaneState(norm, xs, 2), LaneState(norm, xs, 3)];
    var b := [LaneBytes(norm, xs, 0), LaneBytes(norm, xs, 1), LaneBytes(norm, xs, 2), LaneBytes(norm, xs, 3)];
    forall l | 0 <= l < 4
      ensures Covered(norm, Lane(xs, l, 4)) && Cursor(y[l], Num(b[l])) == Start(norm, Lane(xs, l, 4), 0)
      ensures |b[l]| < 0x1_0000_0000
    {
      LaneEncoded(norm, xs, l);
      LaneShort(xs, l);
    }
    HeaderFields(y, b, tail);
    StreamSlices(LaneStates(norm, xs) + LaneSizes(norm, xs), b, tail);
  }

  /** Interleaving the decoded lanes gives the source back. */
  lemma RobinBack(norm: seq<nat>, xs: seq<byte>, cs: seq<Cursor>)
    requires IsTable(norm) && |cs| == 4
    requires forall l :: 0 <= l < 4 ==>
               Covered(norm, Lane(xs, l, 4)) && cs[l] == Start(norm, Lane(xs, l, 4), 0) && cs[l].state < ANS_L
    ensures Interleaved(norm, cs, |xs|) == xs
  {
    hide Covered, SymbolAt, After, Start, Lane, Cum;
    forall i | 0 <= i < |xs| ensures RobinSymbol(norm, cs, i) == xs[i] {
      LaneAt(xs, i % 4, i / 4);
      ReadAt(norm, Lane(xs, i % 4, 4), i / 4);
    }
  }

  lemma ReadAt(norm: seq<nat>, ys: seq<byte>, k: nat)
    requires IsTable(norm) && Covered(norm, ys) && k < |ys|
    ensures Start(norm, ys, 0).state < ANS_L
    ensures SymbolAt(norm, After(norm, Start(norm, ys, 0), k).state) == ys[k]
  {
    hide SymbolAt, After, FinalState, Emitted;
    ReadMany(norm, ys, 0, k);
    ReadOne(norm, ys[k..], 0);
  }

  /** Decoding what encoding produced, whatever follows it: the four lanes interleave back to the source. */
  lemma Frame4RoundTrip(norm: seq<nat>, xs: seq<byte>, tail: seq<byte>, cap: nat)
    requires IsTable(norm) && Covered(norm, xs) && 0 < |xs| <= cap && |xs| <= INT_MAX
    ensures DecodeFrame4(Frame4(norm, xs) + tail, cap, |xs|) == Good(xs, |Frame4(norm, xs)|)
  {
    hide Parse, Header, LastActive, Interleaved, LanesOk, LaneStates, LaneSizes, LaneStreams, Cursors, OffsetAt;
    TableActive(norm);
    if Active(norm, NSYM) == 1 {
      HeaderRoundTrip(norm, tail);
      LoneActive(norm, NSYM);
    } else {
      var s := LaneSection(norm, xs, tail);
      assert Frame4(norm, xs) + tail == Header(norm) + s;
      HeaderRoundTrip(norm, s);
      assert (Header(norm) + s)[|Header(norm)|..] == s;
      LanesBack(norm, xs, tail);
      RobinBack(norm, xs, Cursors(s));
    }
  }

  // ---------------------------------------------------------------- cut frames

  lemma SameSizes(s: seq<byte>, k: nat)
    requires 24 <= k <= |s|
    ensures OffsetAt(s[..k], 4) == OffsetAt(s, 4)
  {
    var t := s[..k];
    assert forall i :: 0 <= i < 24 ==> t[i] == s[i];
    hide Word;
    assert SizeAt(t, 0) == SizeAt(s, 0) && SizeAt(t, 1) == SizeAt(s, 1);
    assert SizeAt(t, 2) == SizeAt(s, 2) && SizeAt(t, 3) == SizeAt(s, 3);
  }

  /** Every proper prefix of a four-lane frame is refused, whatever number of literals is asked for. */
  lemma CutIsRefused(norm: seq<nat>, xs: seq<byte>, k: nat, n: nat)
    requires IsTable(norm) && Covered(norm, xs) && |xs| <= INT_MAX && n > 0 && k < |Frame4(norm, xs)|
    ensures DecodeFrame4(Frame4(norm, xs)[..k], n, n).Bad?
  {
    hide Parse, Header, LastActive, Interleaved, LaneStates, LaneSizes, LaneStreams, Cursors, OffsetAt, StateAt;
    TableActive(norm);
    var h, f := Header(norm), Frame4(norm, xs);
    if k < |h| {
      assert f[..k] == h[..k];
      HeaderCut(norm, k);
    } else {
      var s := LaneSection(norm, xs, []);
      var cut := s[..k - |h|];
      assert f == h + s && f[..k] == h + cut && (h + cut)[|h|..] == cut;
      HeaderRoundTrip(norm, cut);
      LanesBack(norm, xs, []);
      if |cut| >= 24 {
        SameSizes(s, |cut|);
      }
    }
  }
}
