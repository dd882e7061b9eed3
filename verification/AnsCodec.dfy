/** vva_encode and vva_decode: the single-stream literal coder. */
module AnsCodec {
  import opened Arithmetic
  import opened LittleEndian
  import opened Bits
  import opened BitIO
  import opened AnsTable
  import opened AnsNormalize
  import opened AnsBuild
  import opened AnsHeader
  import opened AnsStream
  import opened Lanes

  datatype Status = Ok | Corrupt | Overflow

  // ---------------------------------------------------------------- shared by both layouts

  lemma {:induction false} LaneCovered(norm: seq<nat>, src: seq<byte>, lane: nat, step: nat)
    requires |norm| == NSYM && step > 0 && Covered(norm, src)
    ensures Covered(norm, Lane(src, lane, step))
    decreases |src| - lane
  {
    if lane < |src| {
      LaneCovered(norm, src, lane + step, step);
    }
  }

  /** How often each byte occurs in src. */
  function Counts(src: seq<byte>): (raw: seq<nat>)
    ensures |raw| == NSYM
  {
    seq(NSYM, s requires 0 <= s < NSYM => multiset(src)[s])
  }

  lemma CountOne(src: seq<byte>, i: nat)
    requires i < |src|
    ensures var c := Counts(src[..i]); Counts(src[..i + 1]) == c[src[i] := c[src[i]] + 1]
  {
    assert src[..i + 1] == src[..i] + [src[i]];
  }

  method Histogram(src: seq<byte>) returns (raw: seq<nat>)
    ensures raw == Counts(src) && Cum(raw, NSYM) == |src|
    ensures forall i :: 0 <= i < |src| ==> raw[src[i]] > 0
  {
    raw := Zeros();
    CumAllZero(raw, NSYM);
    assert raw == Counts(src[..0]);
    for i := 0 to |src|
      invariant raw == Counts(src[..i]) && Cum(raw, NSYM) == i
    {
      hide Counts, Cum;
      CountOne(src, i);
      CumUpdate(raw, src[i], raw[src[i]] + 1, NSYM);
      raw := raw[src[i] := raw[src[i]] + 1];
    }
    assert src[..|src|] == src;
    forall i | 0 <= i < |src| ensures raw[src[i]] > 0 {
      assert src[i] in multiset(src);
    }
  }

  /** build_all. */
  method BuildAll(norm: seq<nat>) returns (cum: seq<nat>, o: array<EncOcc>)
    requires IsTable(norm)
    ensures |cum| == NSYM + 1 && forall s :: 0 <= s <= NSYM ==> cum[s] == Cum(norm, s)
    ensures fresh(o) && o.Length == ANS_L && IsContext(norm, o[..])
  {
    var sp := new nat[ANS_L];
    var dec := new Entry[ANS_L];
    o := new EncOcc[ANS_L];
    SpreadSymbols(norm, sp);
    BuildDec(norm, sp, dec);
    cum := BuildEnc(norm, sp, dec, o);
  }

  /** Encodes one lane, last symbol first; pairs[k] is what the k-th symbol emits. */
  method EncodeLane(ghost norm: seq<nat>, cum: seq<nat>, o: array<EncOcc>, src: seq<byte>, lane: nat, step: nat,
                    pairs: array<Field>)
    returns (state: nat, len: nat)
    requires IsTable(norm) && Covered(norm, src) && step > 0 && |Lane(src, lane, step)| <= pairs.Length
    requires |cum| == NSYM + 1 && forall s :: 0 <= s <= NSYM ==> cum[s] == Cum(norm, s)
    requires o.Length == ANS_L && IsContext(norm, o[..])
    modifies pairs
    ensures Covered(norm, Lane(src, lane, step)) && len == |Lane(src, lane, step)|
    ensures state == FinalState(norm, Lane(src, lane, step))
    ensures pairs[..len] == Emitted(norm, Lane(src, lane, step))
  {
    hide EncSlot, EncField, IsContext, Cum, FinalState, Emitted;
    var i: nat;
    len, i := LaneLength(src, lane, step);
    state := 0;
    EncodeNothing(norm, Lane(src, i, step));
    var k: nat := len;
    while k > 0
      invariant k <= len && i == lane + step * k && (k > 0 ==> i < |src| + step)
      invariant |Lane(src, i, step)| == len - k
      invariant Covered(norm, Lane(src, i, step))
      invariant state == FinalState(norm, Lane(src, i, step))
      invariant pairs[k..len] == Emitted(norm, Lane(src, i, step))
    {
      Distribute(step, k - 1, 1);
      MulMonotone(step, 0, k - 1);
      ghost var before := pairs[k..len];
      i := i - step;
      k := k - 1;
      LaneStep(src, i, step);
      LaneCovered(norm, src, i, step);
      EncodeUnfold(norm, Lane(src, i, step));
      var slot, f := EncSym(norm, cum, o, state, src[i]);
      pairs[k] := f;
      assert pairs[k..len] == [f] + before;
      state := slot;
    }
    assert i == lane;
  }

  lemma EncodeNothing(norm: seq<nat>, xs: seq<byte>)
    requires IsTable(norm) && xs == []
    ensures FinalState(norm, xs) == 0 && Emitted(norm, xs) == []
  {
  }

  /** Writes the fields as a bit stream at the start of buffer. */
  method WriteStream(pairs: array<Field>, n: nat, buffer: array<byte>) returns (len: nat)
    requires n <= pairs.Length && pairs as object != buffer
    requires FieldsOk(pairs[..n]) && StreamBits(pairs[..n]) <= 8 * buffer.Length
    modifies buffer
    ensures len <= buffer.Length && buffer[..len] == StreamBytes(pairs[..n])
  {
    hide Pow2, Num;
    ghost var fs := pairs[..n];
    var w := new BitWriter(buffer);
    for i := 0 to n
      invariant fresh(w) && w.Valid() && w.b == buffer && pairs[..n] == fs
      invariant w.Bits() == StreamBits(fs[..i]) && w.Value() == StreamNum(fs[..i])
    {
      assert fs[..i + 1] == fs[..i] + [fs[i]];
      StreamAppend(fs[..i], fs[i]);
      StreamPrefix(fs, i + 1);
      assert FieldOk(fs[i]);
      DivModUnique(fs[i].val, Pow2(fs[i].nb), 0, fs[i].val);
      w.Add(pairs[i].val, pairs[i].nb);
    }
    assert fs[..n] == fs;
    len := w.Flush();
    BytesUnique(buffer[..len]);
  }

  lemma StreamPrefix(fs: seq<Field>, n: nat)
    requires n <= |fs|
    ensures StreamBits(fs[..n]) <= StreamBits(fs)
  {
    StreamConcat(fs[..n], fs[n..]);
    assert fs == fs[..n] + fs[n..];
  }

  // ---------------------------------------------------------------- tag 'A'

  /** A 16-bit little-endian state. */
  function StateBytes(y: nat): (s: seq<byte>)
    ensures |s| == 2
  {
    [Lo(y), Hi(y)]
  }

  /** The whole of an encoded literal run. */
  function Frame(norm: seq<nat>, xs: seq<byte>): (d: seq<byte>)
    requires IsTable(norm) && Covered(norm, xs)
  {
    TableActive(norm);
    if Active(norm, NSYM) == 1 then Header(norm)
    else Header(norm) + StateBytes(FinalState(norm, xs)) + StreamBytes(Emitted(norm, xs))
  }

  lemma {:induction false} ActiveIsPresent(norm: seq<nat>, raw: seq<nat>, n: nat)
    requires n <= |norm| == |raw| && forall i :: 0 <= i < |raw| ==> (norm[i] > 0 <==> raw[i] > 0)
    ensures Active(norm, n) == Present(raw, n)
  {
    if n > 0 {
      ActiveIsPresent(norm, raw, n - 1);
    }
  }

  /** Histogram and normalisation: a table that covers src. */
  method TableFor(src: seq<byte>) returns (norm: seq<nat>, np: nat)
    requires 0 < |src| <= INT_MAX
    ensures IsTable(norm) && Covered(norm, src) && np == Active(norm, NSYM) > 0
    ensures Cum(Counts(src), NSYM) == |src| && LargestRemainder(Counts(src), norm)
  {
    var raw := Histogram(src);
    var table := new nat[NSYM];
    np := NormalizeFreq(raw, table);
    norm := table[..];
    ActiveIsPresent(norm, raw, NSYM);
    SomePresent(raw, NSYM);
  }

  /** The state and the bit stream of one lane, from fresh tables. */
  method EncodeStream(norm: seq<nat>, src: seq<byte>, lane: nat, step: nat) returns (state: nat, bs: seq<byte>)
    requires IsTable(norm) && Covered(norm, src) && step > 0
    ensures Covered(norm, Lane(src, lane, step))
    ensures state == FinalState(norm, Lane(src, lane, step))
    ensures bs == StreamBytes(Emitted(norm, Lane(src, lane, step)))
  {
    hide FinalState, Emitted, StreamBytes, StreamBits, IsContext;
    var cum, o := BuildAll(norm);
    var n, _ := LaneLength(src, lane, step);
    var pairs := new Field[n];
    var buffer := new byte[(n * 15 + 7) / 8 + 16];
    var len;
    state, len := EncodeLane(norm, cum, o, src, lane, step, pairs);
    EmittedBits(norm, Lane(src, lane, step));
    len := WriteStream(pairs, n, buffer);
    bs := buffer[..len];
  }

  /** The part of vva_encode after the header, for more than one symbol. */
  method FinishFrame(norm: seq<nat>, src: seq<byte>, dst: array<byte>, hdr: nat) returns (st: Status, len: nat)
    requires IsTable(norm) && Covered(norm, src) && Active(norm, NSYM) > 1
    requires hdr == |Header(norm)| <= dst.Length && dst[..hdr] == Header(norm)
    modifies dst
    ensures st == (if |Frame(norm, src)| <= dst.Length && |Frame(norm, src)| < |src| then Ok else Overflow)
    ensures st == Ok ==> len == |Frame(norm, src)| && dst[..len] == Frame(norm, src)
  {
    hide FinalState, Emitted, StreamBytes, Header, Active, Lane, StateBytes, IsTable, Covered;
    var state, bs := EncodeStream(norm, src, 0, 1);
    WholeLane(src, 0);
    assert src[0..] == src;
    var total := hdr + 2 + |bs|;
    if total > dst.Length || total >= |src| {
      return Overflow, 0;
    }
    var _ := Append(dst, hdr, StateBytes(state));
    var _ := Append(dst, hdr + 2, bs);
    return Ok, total;
  }

  /** vva_encode. Its output is the frame of src under the table it chose; it fails exactly when that frame does
      not fit or is no shorter than src. */
  method VvaEncode(src: seq<byte>, dst: array<byte>) returns (st: Status, len: nat, ghost norm: seq<nat>)
    requires |src| <= INT_MAX
    modifies dst
    ensures src == [] ==> st == Ok && len == 0
    ensures src != [] ==>
      && IsTable(norm) && Covered(norm, src) && Cum(Counts(src), NSYM) == |src| && LargestRemainder(Counts(src), norm)
      && st == (if |Frame(norm, src)| <= dst.Length && |Frame(norm, src)| < |src| then Ok else Overflow)
      && (st == Ok ==> len == |Frame(norm, src)| && dst[..len] == Frame(norm, src))
  {
    hide FinalState, Emitted, StreamBytes, Header, Active, StateBytes, LargestRemainder, Counts;
    if src == [] {
      return Ok, 0, [];
    }
    var table, np := TableFor(src);
    norm := table;
    var hdr := WriteHeader(table, dst);
    if hdr == 0 {
      return Overflow, 0, norm;
    }
    if np == 1 {
      return if hdr >= |src| then Overflow else Ok, hdr, norm;
    }
    st, len := FinishFrame(table, src, dst, hdr);
  }

  /** What decoding yields: the literals and the bytes consumed, or an error. */
  datatype Outcome = Good(out: seq<byte>, consumed: nat) | Bad(why: Status)

  function Repeated(b: byte, n: nat): (xs: seq<byte>)
    ensures |xs| == n && forall i :: 0 <= i < n ==> xs[i] == b
  {
    seq(n, _ => b)
  }

  /** Bits read over the first k steps. */
  function BitsRead(norm: seq<nat>, c: Cursor, k: nat): (n: nat)
    requires IsTable(norm) && c.state < ANS_L
  {
    if k == 0 then 0 else BitsRead(norm, c, k - 1) + DecEntry(norm, After(norm, c, k - 1).state).nbits
  }

  /** Where the decoder of a stream body starts. */
  function BodyCursor(body: seq<byte>): (c: Cursor)
    requires |body| >= 2
  {
    Cursor(Freq(body[0], body[1]), Num(body[2..]))
  }

  /** What vva_decode computes from src for n literals and room for cap. */
  function DecodeFrame(src: seq<byte>, cap: nat, n: nat): (r: Outcome) {
    if n == 0 then Good([], 0)
    else if n > cap then Bad(Overflow)
    else
      var t := Parse(src);
      if t.size == 0 || !IsTable(t.norm) then Bad(Corrupt)
      else if Active(t.norm, NSYM) == 1 then Good(Repeated(LastActive(t.norm, NSYM), n), t.size)
      else if t.size + 2 > |src| || BodyCursor(src[t.size..]).state >= ANS_L then Bad(Corrupt)
      else
        var c := BodyCursor(src[t.size..]);
        Good(Decoded(t.norm, c, n), t.size + 2 + Min(|src| - t.size - 2, WholeBytes(BitsRead(t.norm, c, n))))
  }

  /** validated_symbol_count: the number of active symbols of a table with the right total, else 0. */
  method ValidatedSymbolCount(norm: seq<nat>) returns (count: nat, single: nat)
    requires |norm| == NSYM
    ensures count == (if IsTable(norm) then Active(norm, NSYM) else 0) && single == LastActive(norm, NSYM)
  {
    var total := 0;
    count, single := 0, 0;
    for i := 0 to NSYM
      invariant total == Cum(norm, i) && count == Active(norm, i) && single == LastActive(norm, i)
    {
      total := total + norm[i];
      if norm[i] > 0 {
        count, single := count + 1, i;
      }
    }
    if total != ANS_L {
      count := 0;
    }
  }

  /** One symbol: refill if fewer than twelve bits are loaded, look up, take the bits. */
  method DecodeStep(ghost norm: seq<nat>, dec: array<Entry>, r: BitReader, state: nat) returns (sym: byte, next: nat)
    requires IsTable(norm) && dec.Length == ANS_L && dec[..] == DecTable(norm) && state < ANS_L && r.Valid()
    modifies r
    ensures r.Valid() && sym == SymbolAt(norm, state)
    ensures Cursor(next, r.Rest()) == Next(norm, Cursor(state, old(r.Rest())))
    ensures 8 * r.p - r.n == old(8 * r.p - r.n) + DecEntry(norm, state).nbits
    ensures old(r.p) <= r.p
  {
    hide Pow2, Num, Spread, WindowBits, WindowBase;
    if r.n < ANS_LOG {
      r.Fill();
    }
    var e := dec[state];
    assert e == DecTable(norm)[state];
    var bits := r.Take(e.nbits);
    assert e.symbol == SymbolAt(norm, state);
    return e.symbol, e.baseline + bits;
  }

  /** vva_decode, against DecodeFrame. */
  method VvaDecode(src: seq<byte>, dst: array<byte>, n: nat) returns (st: Status, consumed: nat)
    modifies dst
    ensures match DecodeFrame(src, dst.Length, n)
      case Bad(why) => st == why
      case Good(out, used) => st == Ok && consumed == used && n <= dst.Length && dst[..n] == out
  {
    if n == 0 {
      return Ok, 0;
    }
    hide Parse, Active, LastActive, Decoded, BitsRead, Cum;
    if n > dst.Length {
      return Overflow, 0;
    }
    var norm, hdr := ReadHeader(src);
    if hdr == 0 {
      return Corrupt, 0;
    }
    var np, single := ValidatedSymbolCount(norm);
    if np == 0 {
      if IsTable(norm) {
        TableActive(norm);
        assert false;
      }
      return Corrupt, 0;
    }
    if np == 1 {
      forall i | 0 <= i < n { dst[i] := single; }
      return Ok, hdr;
    }
    if hdr + 2 > |src| {
      return Corrupt, 0;
    }
    var state := Freq(src[hdr], src[hdr + 1]);
    if state >= ANS_L {
      return Corrupt, 0;
    }
    assert src[hdr..][2..] == src[hdr + 2..];
    var used := DecodeBody(norm, state, src[hdr + 2..], dst, n);
    return Ok, hdr + 2 + used;
  }

  /** The symbol loop of vva_decode. */
  method DecodeLoop(norm: seq<nat>, dec: array<Entry>, r: BitReader, start: nat, dst: array<byte>, n: nat)
    requires IsTable(norm) && dec.Length == ANS_L && dec[..] == DecTable(norm) && start < ANS_L && n <= dst.Length
    requires r.Valid() && dst as object != dec && 8 * r.p == r.n
    modifies r, dst
    ensures r.Valid() && dst[..n] == Decoded(norm, Cursor(start, old(r.Rest())), n)
    ensures 8 * r.p - r.n == BitsRead(norm, Cursor(start, old(r.Rest())), n)
  {
    hide Num, DecEntry, Next, IsTable, Pow2, SymbolAt;
    var state := start;
    ghost var c := Cursor(start, r.Rest());
    for i := 0 to n
      invariant r.Valid() && dec[..] == DecTable(norm)
      invariant Cursor(state, r.Rest()) == After(norm, c, i)
      invariant 8 * r.p - r.n == BitsRead(norm, c, i)
      invariant forall j :: 0 <= j < i ==> dst[j] == SymbolAt(norm, After(norm, c, j).state)
    {
      var sym;
      sym, state := DecodeStep(norm, dec, r, state);
      dst[i] := sym;
    }
  }

  /** Table, reader and symbol loop, and the bytes used up. */
  method DecodeBody(norm: seq<nat>, start: nat, bs: seq<byte>, dst: array<byte>, n: nat) returns (used: nat)
    requires IsTable(norm) && start < ANS_L && n <= dst.Length
    modifies dst
    ensures dst[..n] == Decoded(norm, Cursor(start, Num(bs)), n)
    ensures used == Min(|bs|, WholeBytes(BitsRead(norm, Cursor(start, Num(bs)), n)))
  {
    hide *;
    var dec := new Entry[ANS_L];
    BuildDecDirect(norm, dec);
    var r := new BitReader(bs);
    r.Fill();
    DecodeLoop(norm, dec, r, start, dst, n);
    used := r.Used();
  }

  /** Decoding what encoding produced, whatever follows it: the source comes back and the frame is consumed exactly. */
  lemma FrameRoundTrip(norm: seq<nat>, xs: seq<byte>, tail: seq<byte>, cap: nat)
    requires IsTable(norm) && Covered(norm, xs) && 0 < |xs| <= cap
    ensures DecodeFrame(Frame(norm, xs) + tail, cap, |xs|) == Good(xs, |Frame(norm, xs)|)
  {
    hide Parse, Header, LastActive, Decoded, BitsRead, BodyCursor, StateBytes, StreamBytes, Emitted, FinalState;
    TableActive(norm);
    if Active(norm, NSYM) == 1 {
      HeaderRoundTrip(norm, tail);
      LoneActive(norm, NSYM);
    } else {
      var bs := StreamBytes(Emitted(norm, xs));
      var body := StateBytes(FinalState(norm, xs)) + bs + tail;
      assert Frame(norm, xs) + tail == Header(norm) + body;
      HeaderRoundTrip(norm, body);
      assert (Header(norm) + body)[|Header(norm)|..] == body;
      BodyRoundTrip(norm, xs, tail);
    }
  }

  lemma BodyRoundTrip(norm: seq<nat>, xs: seq<byte>, tail: seq<byte>)
    requires IsTable(norm) && Covered(norm, xs)
    ensures var bs := StreamBytes(Emitted(norm, xs));
            var body := StateBytes(FinalState(norm, xs)) + bs + tail;
            && BodyCursor(body).state == FinalState(norm, xs) < ANS_L
            && Decoded(norm, BodyCursor(body), |xs|) == xs
            && WholeBytes(BitsRead(norm, BodyCursor(body), |xs|)) == |bs|
  {
    hide Num, StreamNum, StreamBits, Pow2, Emitted, FinalState, Decoded, BitsRead, StreamBytes, Start, WholeBytes,
         StateBytes, BodyCursor;
    var fs := Emitted(norm, xs);
    var bs := StreamBytes(fs);
    var t := BodyStart(norm, xs, tail);
    StreamRoundTrip(norm, xs, t);
    BitsOfStream(norm, xs, t, |xs|);
    assert xs[|xs|..] == [];
    EmitNothing(norm);
  }

  lemma EmitNothing(norm: seq<nat>)
    requires IsTable(norm)
    ensures StreamBits(Emitted(norm, [])) == 0
  {
  }

  lemma TailBits(fs: seq<Field>, tail: seq<byte>) returns (t: nat)
    requires FieldsOk(fs)
    ensures Num(StreamBytes(fs) + tail) == StreamNum(fs) + Times(Pow2(StreamBits(fs)), t)
  {
    StreamThenBytes(fs, tail);
    t := Times(Pow2(8 * |StreamBytes(fs)| - StreamBits(fs)), Num(tail));
  }

  /** The body's cursor is the start of the stream, with the bytes after it as tail bits. */
  lemma BodyStart(norm: seq<nat>, xs: seq<byte>, tail: seq<byte>) returns (t: nat)
    requires IsTable(norm) && Covered(norm, xs)
    ensures BodyCursor(StateBytes(FinalState(norm, xs)) + StreamBytes(Emitted(norm, xs)) + tail) == Start(norm, xs, t)
    ensures Start(norm, xs, t).state == FinalState(norm, xs)
  {
    hide StreamBytes, Num, StreamNum, StreamBits, Pow2, Emitted, FinalState, Times, Lo, Hi, Freq;
    var fs := Emitted(norm, xs);
    var bs := StreamBytes(fs);
    var body := StateBytes(FinalState(norm, xs)) + bs + tail;
    EmittedBits(norm, xs);
    TwoBytes(FinalState(norm, xs));
    assert body[2..] == bs + tail;
    t := TailBits(fs, tail);
  }

  /** Reading k symbols of an encoded stream uses the bits they emitted. */
  lemma {:induction false} BitsOfStream(norm: seq<nat>, xs: seq<byte>, tail: nat, k: nat)
    requires IsTable(norm) && Covered(norm, xs) && k <= |xs|
    ensures BitsRead(norm, Start(norm, xs, tail), k) + StreamBits(Emitted(norm, xs[k..]))
            == StreamBits(Emitted(norm, xs))
  {
    if k == 0 {
      assert xs[0..] == xs;
    } else {
      hide DecEntry, EncSlot, EncField, FinalState, Next;
      BitsOfStream(norm, xs, tail, k - 1);
      ReadMany(norm, xs, tail, k - 1);
      var ys := xs[k - 1..];
      assert ys[1..] == xs[k..];
      EncodeUnfold(norm, ys);
      DecodeUndoesEncode(norm, FinalState(norm, xs[k..]), ys[0]);
      assert Emitted(norm, ys)[1..] == Emitted(norm, xs[k..]);
    }
  }
}
