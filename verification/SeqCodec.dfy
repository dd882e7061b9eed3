/** vva_encode_sequences and vva_decode_sequences: whole blocks, from and to bytes. */
module SeqCodec {
  import opened LittleEndian
  import opened Wrappers
  import opened Bits
  import opened BitIO
  import opened AnsTable
  import opened Lz
  import opened SeqCodes
  import opened SeqParse
  import opened SeqStream
  import opened SeqDecode
  import opened SeqLoop
  import opened SeqLiterals
  import opened SeqRace
  import opened SeqBlock
  import opened SeqParser
  import opened SeqEncode
  import AnsHeader
  import AnsBuild
  import N = AnsNormalize
  import L = HuffLengths

  const MAX_OFFSET: nat := 0x100_0000

  // ---------------------------------------------------------------- decoding

  /** The table behind a header; without a header all frequencies are 0, and a bad one is not noticed here. */
  function TableFrom(hdr: seq<byte>): (norm: seq<nat>)
    ensures |norm| == NSYM
  {
    if hdr == [] then AnsHeader.Zeros() else AnsHeader.Parse(hdr).norm
  }

  /** No frequencies outside the alphabet. */
  predicate InAlphabet(x: Stream, norm: seq<nat>) {
    |norm| == NSYM && forall s :: CodeCount(x) <= s < NSYM ==> norm[s] == 0
  }

  /** The validation once per block that lets the loop do without range checks. */
  predicate Validated(k: Kind, t: Tables, lits: nat, matches: nat) {
    && InAlphabet(Lits, t.ll) && InAlphabet(Offs, t.off) && InAlphabet(Lens(k), t.len)
    && (lits > 0 || matches > 0 ==> IsTable(t.ll))
    && (matches > 0 ==> IsTable(t.len) && IsTable(t.off))
  }

  function TablesOf(p: Packed): (t: Tables) { Tables(TableFrom(p.hll), TableFrom(p.hoff), TableFrom(p.hlen)) }

  function BlockOf(k: Kind, p: Packed, lits: seq<byte>, h: seq<byte>, end: nat, maxOffset: nat): (b: Block) {
    Block(k, TablesOf(p), lits, p.matches, maxOffset, |h|, end)
  }

  function FirstState(p: Packed, h: seq<byte>): (s: State) {
    State(p.sll, p.soff, p.slen, Num(p.bs), NO_REPS, 0, 0, h)
  }

  /** What decoding the block src yields: the output up to end at most, behind the history h. buf is what the
      literal buffer happens to hold. */
  ghost function DecodeBlock(k: Kind, src: seq<byte>, h: seq<byte>, end: nat, maxOffset: nat, buf: seq<byte>)
    : (r: Result)
    requires k != LL && |h| <= end && |buf| >= end - |h|
  {
    match Unpack(src)
    case None => Fail(Corrupt)
    case Some(p) =>
      if p.lits > end - |h| || p.matches > end - |h| then Fail(Corrupt)
      else
        match Literals(p.fmt, p.data, p.lits, buf[..p.lits])
        case None => Fail(Corrupt)
        case Some(lits) =>
          if !Validated(k, TablesOf(p), p.lits, p.matches) || maxOffset == 0 || maxOffset > MAX_OFFSET then
            Fail(Corrupt)
          else Loop(BlockOf(k, p, lits, h, end, maxOffset), false, FirstState(p, h), p.lits + p.matches + 16)
  }

  // ---------------------------------------------------------------- the block of a token stream

  /** A table's header, if the table is used at all. */
  function HeaderOf(norm: seq<nat>, used: bool): (h: seq<byte>)
    requires used ==> IsTable(norm)
  {
    if !used then []
    else
      AnsHeader.TableActive(norm);
      AnsHeader.Header(norm)
  }

  /** Tables fit for the sequences: each stream's table covers its symbols, and without matches two are blank. */
  ghost predicate Fit(k: Kind, t: Tables, seqs: seq<Seq>) {
    && (forall q :: q in seqs && q.matchlen > 0 ==> q.matchlen >= Base(k, 0))
    && TableOf(Lits, t.ll) && AllCovered(t, k, CodeAll(k, seqs, NO_REPS))
    && (if MatchCount(seqs) > 0 then TableOf(Offs, t.off) && TableOf(Lens(k), t.len)
        else t.off == t.len == AnsHeader.Zeros())
  }

  /** The parts of the block that stores seqs. */
  ghost function Stored(k: Kind, t: Tables, fmt: byte, data: seq<byte>, lits: nat, seqs: seq<Seq>): (p: Packed)
    requires Fit(k, t, seqs)
  {
    var cs := CodeAll(k, seqs, NO_REPS);
    var m := MatchCount(seqs);
    Packed(fmt, lits, data, m, HeaderOf(t.len, m > 0), HeaderOf(t.off, m > 0), HeaderOf(t.ll, true),
           StateOf(Lens(k), t.len, cs), StateOf(Offs, t.off, cs), StateOf(Lits, t.ll, cs),
           StreamBytes(SeqFields(t, k, cs)))
  }

  lemma {:induction false} HeaderSize(norm: seq<nat>)
    requires IsTable(norm)
    ensures |HeaderOf(norm, true)| <= 514 && HeaderOf(norm, true) != [] && TableFrom(HeaderOf(norm, true)) == norm
  {
    hide AnsHeader.Active;
    AnsHeader.TableActive(norm);
    AnsHeader.HeaderRoundTrip(norm, []);
    assert AnsHeader.Header(norm) + [] == AnsHeader.Header(norm);
  }

  /** All parts of a block have sizes their fields can hold. */
  lemma StoredFits(k: Kind, t: Tables, fmt: byte, data: seq<byte>, lits: nat, seqs: seq<Seq>, n: nat)
    requires Fit(k, t, seqs) && Fits(seqs, n) && n <= 0x4000_0000 && lits <= n && |data| <= n
    ensures PackedOk(Stored(k, t, fmt, data, lits, seqs))
  {
    hide StateOf, StreamBits, StreamNum, HeaderOf, IsTable, AllCovered, Fits, CodeAll, Pow2;
    var cs := CodeAll(k, seqs, NO_REPS);
    SeqsBound(seqs, n);
    MatchesBound(seqs, n);
    SeqFieldsBits(t, k, cs);
    HeaderSize(t.ll);
    if MatchCount(seqs) > 0 {
      HeaderSize(t.off);
      HeaderSize(t.len);
    } else {
      NoHeader(t.off);
      NoHeader(t.len);
    }
  }

  lemma NoHeader(norm: seq<nat>)
    ensures HeaderOf(norm, false) == []
  {
  }

  lemma MatchesBound(seqs: seq<Seq>, n: nat)
    requires Fits(seqs, n)
    ensures MatchCount(seqs) <= n
  {
  }

  /** The tables come back from their headers and pass validation. */
  lemma TablesBack(k: Kind, t: Tables, fmt: byte, data: seq<byte>, lits: nat, seqs: seq<Seq>)
    requires Fit(k, t, seqs)
    ensures TablesOf(Stored(k, t, fmt, data, lits, seqs)) == t
    ensures Validated(k, t, lits, MatchCount(seqs))
  {
    hide HeaderOf, TableFrom, IsTable, AllCovered, CodeAll, StreamBytes, StateOf;
    HeaderSize(t.ll);
    if MatchCount(seqs) > 0 {
      HeaderSize(t.off);
      HeaderSize(t.len);
    } else {
      NoHeader(t.off);
      NoHeader(t.len);
      NoTable();
    }
  }

  lemma NoTable()
    ensures TableFrom([]) == AnsHeader.Zeros()
  {
  }

  /** The decoder of a stored block starts where the encoding of the sequences starts. */
  lemma StoredStart(k: Kind, t: Tables, fmt: byte, data: seq<byte>, lits: seq<byte>, seqs: seq<Seq>,
                    h: seq<byte>, end: nat, maxOffset: nat)
    requires k != LL && Fit(k, t, seqs) && Shaped(seqs) && LitTotal(seqs) == |lits| && |h| <= end
    requires forall q :: q in seqs ==> Representable(k, q)
    ensures var p := Stored(k, t, fmt, data, |lits|, seqs);
            var b, s := BlockOf(k, p, lits, h, end, maxOffset), FirstState(p, h);
            BlockOk(b) && StateOk(b, s) && AtStart(b, seqs, s, 0)
  {
    hide HeaderOf, TableFrom, IsTable, AllCovered, CodeAll, StateOf, StreamNum, StreamBits, Num, SeqFields;
    TablesBack(k, t, fmt, data, |lits|, seqs);
    var cs := CodeAll(k, seqs, NO_REPS);
    var fs := SeqFields(t, k, cs);
    SeqFieldsBits(t, k, cs);
    StreamBytesNum(fs);
  }

  /** Decoding the block that stores the sequences of a token stream computes what the sequences mean; when the
      token stream itself decodes, that is what its tokens mean. */
  lemma BlockRoundTrip(p: Params, k: Kind, tokens: seq<byte>, t: Tables, fmt: byte, data: seq<byte>,
                       h: seq<byte>, buf: seq<byte>)
    requires ParamsOk(p) && k != LL && p.minMatch == Base(k, 0) && 0 < p.maxOffset <= MAX_OFFSET
    requires |tokens| <= 0x4000_0000 && Parse(p.ob, p.minMatch, tokens).Parsed?
    requires var r := Parse(p.ob, p.minMatch, tokens);
             && (forall q :: q in r.seqs ==> Representable(k, q)) && Fit(k, t, r.seqs)
             && Holds(fmt, data, r.lits) && |data| <= |r.lits| <= |tokens|
    requires Decode(p, tokens, h).Done? && |h| <= p.end && |buf| >= p.end - |h|
    ensures var r := Parse(p.ob, p.minMatch, tokens);
            DecodeBlock(k, Pack(Stored(k, t, fmt, data, |r.lits|, r.seqs)), h, p.end, p.maxOffset, buf)
            == Decode(p, tokens, h)
  {
    hide Decode, Parse, Run, Fit, Stored, Literals, Pack, Unpack, AtStart, BlockOk, Loop, TablesOf, Validated, Base,
         Representable, Shaped;
    var r := Parse(p.ob, p.minMatch, tokens);
    ParseShaped(p.ob, p.minMatch, tokens);
    ParseFits(p.ob, p.minMatch, tokens);
    ParseMeans(p, tokens, h);
    RunRoom(p, r.seqs, r.lits, h);
    var q := Stored(k, t, fmt, data, |r.lits|, r.seqs);
    StoredFits(k, t, fmt, data, |r.lits|, r.seqs, |tokens|);
    UnpackBack(q);
    StoredParts(k, t, fmt, data, |r.lits|, r.seqs);
    TablesBack(k, t, fmt, data, |r.lits|, r.seqs);
    StoredStart(k, t, fmt, data, r.lits, r.seqs, h, p.end, p.maxOffset);
    LoopMeansRun(BlockOf(k, q, r.lits, h, p.end, p.maxOffset), p, r.seqs, FirstState(q, h),
                 |r.lits| + MatchCount(r.seqs) + 16, 0);
    assert r.lits[0..] == r.lits;
  }

  lemma StoredParts(k: Kind, t: Tables, fmt: byte, data: seq<byte>, lits: nat, seqs: seq<Seq>)
    requires Fit(k, t, seqs)
    ensures var p := Stored(k, t, fmt, data, lits, seqs);
            p.fmt == fmt && p.data == data && p.lits == lits && p.matches == MatchCount(seqs)
  {
  }

  // ---------------------------------------------------------------- the encoder

  datatype Status = Ok | Damaged | NoRoom

  /** The tables that the codes of the three streams get from their counts; two only when there are matches. */
  ghost predicate AllFair(k: Kind, t: Tables, seqs: seq<Seq>)
    requires Fit(k, t, seqs)
  {
    var cs := CodeAll(k, seqs, NO_REPS);
    Fair(Lits, t.ll, cs) && (MatchCount(seqs) > 0 ==> Fair(Offs, t.off, cs) && Fair(Lens(k), t.len, cs))
  }

  /** The tables of the three streams; two only when there are matches. */
  method MakeTables(k: Kind, seqs: seq<Seq>) returns (t: Tables, cs: seq<Coded>, matches: nat)
    requires Codable(k, seqs) && 0 < |seqs| <= N.INT_MAX
    ensures Fit(k, t, seqs) && cs == CodeAll(k, seqs, NO_REPS) && matches == MatchCount(seqs)
    ensures AllFair(k, t, seqs)
    ensures matches == 0 ==> SeqStream.Symbols(Offs, cs) == [] && SeqStream.Symbols(Lens(k), cs) == []
  {
    hide Counts, CodeAll, TableOf, StreamCovered, SeqStream.Symbols, Fair;
    var fll, foff, flen;
    cs, fll, foff, flen, matches := CodePass(k, seqs);
    MatchesCounted(k, seqs, NO_REPS);
    var ll := StreamTable(Lits, fll, cs, |seqs|);
    var off, len := AnsHeader.Zeros(), AnsHeader.Zeros();
    if matches > 0 {
      len := StreamTable(Lens(k), flen, cs, matches);
      off := StreamTable(Offs, foff, cs, matches);
    } else {
      UnusedCovered(Offs, off, cs);
      UnusedCovered(Lens(k), len, cs);
    }
    t := Tables(ll, off, len);
  }

  lemma UnusedCovered(x: Stream, norm: seq<nat>, cs: seq<Coded>)
    requires AllCoded(cs) && SeqStream.Symbols(x, cs) == []
    ensures StreamCovered(x, norm, cs)
  {
  }

  /** Without matches the offset and length streams are empty, and there are at most as many matches as sequences. */
  lemma {:induction false} MatchesCounted(k: Kind, seqs: seq<Seq>, r: Reps)
    requires Codable(k, seqs)
    ensures AllCoded(CodeAll(k, seqs, r)) && MatchCount(seqs) <= |seqs|
    ensures MatchCount(seqs) == 0 ==>
      SeqStream.Symbols(Offs, CodeAll(k, seqs, r)) == [] && SeqStream.Symbols(Lens(k), CodeAll(k, seqs, r)) == []
  {
    if seqs != [] {
      var q := seqs[0];
      CodesInRange(k, r, q);
      MatchesCounted(k, seqs[1..], RepAfter(r, q));
      var cs := CodeAll(k, seqs, r);
      assert cs[0] == CodeSeq(k, r, q) && cs[1..] == CodeAll(k, seqs[1..], RepAfter(r, q));
    }
  }

  /** write_hdr_v2 into a 600-byte buffer, which always suffices. */
  method StoreHeader(norm: seq<nat>) returns (hdr: seq<byte>)
    requires IsTable(norm)
    ensures hdr == HeaderOf(norm, true)
  {
    hide IsTable, AnsHeader.Header, AnsHeader.Active;
    HeaderSize(norm);
    AnsHeader.TableActive(norm);
    var d := new byte[600];
    var size := AnsHeader.WriteHeader(norm, d);
    hdr := d[..size];
  }

  /** The table headers of a block. */
  method StoreHeaders(k: Kind, t: Tables, ghost seqs: seq<Seq>, matches: nat)
    returns (hlen: seq<byte>, hoff: seq<byte>, hll: seq<byte>)
    requires Fit(k, t, seqs) && matches == MatchCount(seqs)
    ensures hlen == HeaderOf(t.len, matches > 0) && hoff == HeaderOf(t.off, matches > 0) && hll == HeaderOf(t.ll, true)
  {
    hide HeaderOf, IsTable, AllCovered, CodeAll;
    NoHeader(t.len);
    NoHeader(t.off);
    hlen, hoff := [], [];
    hll := StoreHeader(t.ll);
    if matches > 0 {
      hlen := StoreHeader(t.len);
      hoff := StoreHeader(t.off);
    }
  }

  /** vva_encode_sequences: the stored form of the parsed sequences, with the literal section that won the race. The
      size check keeps four bytes in hand. */
  method EncodeSequences(tokens: seq<byte>, ob: nat, k: Kind, compat: bool, guess: seq<byte> -> Guess,
                         dst: array<byte>)
    returns (st: Status, len: nat, ghost t: Tables, ghost fmt: byte, ghost data: seq<byte>)
    requires (ob == 2 || ob == 3) && k != LL && |tokens| < L.DEEP_TOTAL
    modifies dst
    ensures tokens == [] ==> st == Ok && len == 0
    ensures tokens != [] ==>
      match Parse(ob, Base(k, 0), tokens)
      case Rejected => st == Damaged
      case Parsed(seqs, lits) =>
        && Fit(k, t, seqs) && AllFair(k, t, seqs) && Holds(fmt, data, lits) && |data| <= |lits| <= |tokens|
        && Raced(compat, guess(lits), lits, fmt, data)
        && var bytes := Pack(Stored(k, t, fmt, data, |lits|, seqs));
           && st == (if |bytes| + 4 <= dst.Length then Ok else NoRoom)
           && (st == Ok ==> len == |bytes| && dst[..len] == bytes)
  {
    hide Parse, Fit, AllFair, Holds, Raced, Pack, CodeAll, StateOf, SeqFields, StreamBytes, HeaderOf, AllCovered;
    st, len, t, fmt, data := Ok, 0, Tables([], [], []), RAW, [];
    if tokens == [] {
      return;
    }
    Shortest(k);
    var ok, seqs, lits := ParseSequences(tokens, ob, Base(k, 0), SeqCap(|tokens|));
    if !ok {
      return Damaged, 0, t, fmt, data;
    }
    ParsedCodable(ob, k, tokens);
    var f, d := EncodeLiterals(lits, compat, guess(lits));
    fmt, data := f, d;
    var tabs, cs, matches := MakeTables(k, seqs);
    t := tabs;
    FitTables(k, t, seqs);
    var y, bs := EncodeStreams(tabs, k, cs, matches > 0);
    var hlen, hoff, hll := StoreHeaders(k, tabs, seqs, matches);
    var p := Packed(f, |lits|, d, matches, hlen, hoff, hll, y.len, y.off, y.ll, bs);
    var bytes := Pack(p);
    if |bytes| + 4 > dst.Length {
      return NoRoom, 0, t, fmt, data;
    }
    forall i | 0 <= i < |bytes| { dst[i] := bytes[i]; }
    assert dst[..|bytes|] == bytes;
    len := |bytes|;
  }

  lemma Shortest(k: Kind)
    requires k != LL
    ensures Base(k, 0) > 0
  {
  }

  lemma FitTables(k: Kind, t: Tables, seqs: seq<Seq>)
    requires Fit(k, t, seqs)
    ensures AllCovered(t, k, CodeAll(k, seqs, NO_REPS)) && TableOf(Lits, t.ll)
    ensures MatchCount(seqs) > 0 ==> TableOf(Offs, t.off) && TableOf(Lens(k), t.len)
  {
  }

  /** What the parser yields can be coded. */
  lemma ParsedCodable(ob: nat, k: Kind, tokens: seq<byte>)
    requires (ob == 2 || ob == 3) && k != LL && tokens != [] && |tokens| < L.DEEP_TOTAL
    requires Parse(ob, Base(k, 0), tokens).Parsed?
    ensures var r := Parse(ob, Base(k, 0), tokens);
            Codable(k, r.seqs) && 0 < |r.seqs| <= N.INT_MAX && |r.lits| <= |tokens|
  {
    hide Parse;
    Shortest(k);
    ParseShaped(ob, Base(k, 0), tokens);
    ParseFits(ob, Base(k, 0), tokens);
    SeqsBound(Parse(ob, Base(k, 0), tokens).seqs, |tokens|);
    ParseLits(ob, Base(k, 0), tokens);
  }

  // ---------------------------------------------------------------- the decoder

  /** A section behind a two-byte length, from position p on. */
  method Section2(src: seq<byte>, p: nat) returns (ok: bool, d: seq<byte>, q: nat)
    requires p <= |src|
    ensures match Cut2(src[p..]) case Short => !ok case Cut(x, rest) => ok && d == x && q <= |src| && rest == src[q..]
  {
    hide AnsHeader.Freq;
    ok, d, q := false, [], p;
    if p + 2 > |src| {
      return;
    }
    var n := AnsHeader.Freq(src[p], src[p + 1]);
    if p + 2 + n > |src| {
      return;
    }
    ok, d, q := true, src[p + 2..p + 2 + n], p + 2 + n;
  }

  /** A section behind a four-byte length. */
  method Section4(src: seq<byte>, p: nat) returns (ok: bool, d: seq<byte>, q: nat)
    requires p <= |src|
    ensures match Cut4(src[p..]) case Short => !ok case Cut(x, rest) => ok && d == x && q <= |src| && rest == src[q..]
  {
    hide Word;
    ok, d, q := false, [], p;
    if p + 4 > |src| {
      return;
    }
    var n: nat := Word(src[p], src[p + 1], src[p + 2], src[p + 3]);
    if p + 4 + n > |src| {
      return;
    }
    ok, d, q := true, src[p + 4..p + 4 + n], p + 4 + n;
  }

  /** The sections of a block, in the order they are stored. */
  method ReadSections(src: seq<byte>) returns (o: Option<Packed>)
    ensures o == Unpack(src)
  {
    hide Cut2, Cut4, UnpackTail;
    o := None;
    if |src| < 9 {
      return;
    }
    var ok, data, q := Section4(src, 5);
    if !ok || q + 4 > |src| {
      return;
    }
    assert src[q..][4..] == src[q + 4..];
    var p := BLANK.(lits := Word(src[0], src[1], src[2], src[3]), fmt := src[4], data := data,
                    matches := Word(src[q], src[q + 1], src[q + 2], src[q + 3]));
    o := ReadTables(p, src, q + 4);
  }

  method ReadTables(p: Packed, src: seq<byte>, at: nat) returns (o: Option<Packed>)
    requires at <= |src|
    ensures o == UnpackTables(p, src[at..])
  {
    hide Cut2, UnpackTail;
    o := None;
    var ok, hlen, q := Section2(src, at);
    if !ok {
      return;
    }
    var hoff, hll;
    ok, hoff, q := Section2(src, q);
    if !ok {
      return;
    }
    ok, hll, q := Section2(src, q);
    if !ok {
      return;
    }
    o := ReadTail(p.(hlen := hlen, hoff := hoff, hll := hll), src, q);
  }

  method ReadTail(p: Packed, src: seq<byte>, at: nat) returns (o: Option<Packed>)
    requires at <= |src|
    ensures o == UnpackTail(p, src[at..])
  {
    hide Cut4, AnsHeader.Freq;
    if at + 6 > |src| {
      return None;
    }
    assert src[at..][6..] == src[at + 6..];
    var ok, bs, _ := Section4(src, at + 6);
    if !ok {
      return None;
    }
    return Some(p.(slen := AnsHeader.Freq(src[at], src[at + 1]), soff := AnsHeader.Freq(src[at + 2], src[at + 3]),
                   sll := AnsHeader.Freq(src[at + 4], src[at + 5]), bs := bs));
  }

  method ReadTable(hdr: seq<byte>) returns (norm: seq<nat>)
    ensures norm == TableFrom(hdr)
  {
    hide AnsHeader.Parse;
    norm := AnsHeader.Zeros();
    if |hdr| > 0 {
      var size;
      norm, size := AnsHeader.ReadHeader(hdr);
    }
  }

  /** Range check and sum of one table. */
  method Survey(x: Stream, norm: seq<nat>) returns (inside: bool, full: bool)
    requires |norm| == NSYM
    ensures inside == InAlphabet(x, norm) && full == IsTable(norm)
  {
    var sum := 0;
    inside := true;
    for s := 0 to NSYM
      invariant sum == Cum(norm, s)
      invariant inside <==> forall c :: CodeCount(x) <= c < s ==> norm[c] == 0
    {
      sum := sum + norm[s];
      if s >= CodeCount(x) && norm[s] > 0 {
        inside := false;
      }
    }
    full := sum == ANS_L;
  }

  method Validate(k: Kind, t: Tables, lits: nat, matches: nat) returns (ok: bool)
    requires |t.ll| == |t.off| == |t.len| == NSYM
    ensures ok == Validated(k, t, lits, matches)
  {
    hide InAlphabet, IsTable;
    var inll, ll := Survey(Lits, t.ll);
    var inoff, off := Survey(Offs, t.off);
    var inlen, len := Survey(Lens(k), t.len);
    ok := inll && inoff && inlen && (lits > 0 || matches > 0 ==> ll) && (matches > 0 ==> len && off);
  }

  /** vva_decode_sequences: dst is the frame's output, of which dst[..at] is there already; the block may fill
      dst[at..end]. The result is the one with every check on. */
  method DecodeSequences(k: Kind, src: seq<byte>, dst: array<byte>, at: nat, end: nat, maxOffset: nat)
    returns (st: SeqLoop.Status, op: nat, ghost junk: seq<byte>)
    requires k != LL && at <= end <= dst.Length
    modifies dst
    ensures |junk| >= end - at
    ensures match DecodeBlock(k, src, old(dst[..at]), end, maxOffset, junk)
      case Fail(why) => st == Failed(why)
      case Done(h) => st == Fine && op <= dst.Length && dst[..op] == h
    ensures forall i :: end <= i < dst.Length ==> dst[i] == old(dst[i])
  {
    hide Unpack, Literals, TableFrom, Validated, Loop, IsTable;
    st, op, junk := Failed(Corrupt), at, seq(end - at, _ => 0);
    var o := ReadSections(src);
    if o.None? {
      return;
    }
    var p := o.value;
    if p.lits > end - at || p.matches > end - at {
      return;
    }
    var buf := new byte[p.lits + 16];
    junk := buf[..p.lits] + seq(end - at - p.lits, _ => 0);
    assert junk[..p.lits] == buf[..p.lits];
    var ok := ReadLiterals(p.fmt, p.data, p.lits, buf);
    if !ok {
      return;
    }
    st, op := DecodeTables(k, p, buf[..], dst, at, end, maxOffset);
  }

  /** The rest of the decoder once the literals are there. */
  method DecodeTables(k: Kind, p: Packed, buf: seq<byte>, dst: array<byte>, at: nat, end: nat, maxOffset: nat)
    returns (st: SeqLoop.Status, op: nat)
    requires k != LL && at <= end <= dst.Length && |buf| == p.lits + 16
    modifies dst
    ensures forall i :: end <= i < dst.Length ==> dst[i] == old(dst[i])
    ensures !Validated(k, TablesOf(p), p.lits, p.matches) || maxOffset == 0 || maxOffset > MAX_OFFSET
      ==> st == Failed(Corrupt)
    ensures Validated(k, TablesOf(p), p.lits, p.matches) && 0 < maxOffset <= MAX_OFFSET ==>
      var h := old(dst[..at]);
      match Loop(BlockOf(k, p, buf[..p.lits], h, end, maxOffset), false, FirstState(p, h), p.lits + p.matches + 16)
      case Fail(why) => st == Failed(why)
      case Done(g) => st == Fine && op <= dst.Length && dst[..op] == g
  {
    hide TableFrom, Loop, IsTable, Num, AnsBuild.DecTable;
    st, op := Failed(Corrupt), at;
    var ll := ReadTable(p.hll);
    var off := ReadTable(p.hoff);
    var len := ReadTable(p.hlen);
    var t := Tables(ll, off, len);
    var ok := Validate(k, t, p.lits, p.matches);
    if !ok || maxOffset == 0 || maxOffset > MAX_OFFSET {
      return;
    }
    var dll, doff, dlen := MakeDecTables(t, p.lits, p.matches);
    var r := new BitReader(p.bs);
    r.Fill();
    var b := Block(k, t, buf[..p.lits], p.matches, maxOffset, at, end);
    assert b == BlockOf(k, p, buf[..p.lits], dst[..at], end, maxOffset);
    st, op := DecodeLoop(b, buf, dll, doff, dlen, r, p.sll, p.soff, p.slen, dst);
  }

  /** The decode tables that will be consulted; without matches the other two are the first. */
  method MakeDecTables(t: Tables, lits: nat, matches: nat)
    returns (dll: array<Entry>, doff: array<Entry>, dlen: array<Entry>)
    requires lits > 0 || matches > 0 ==> IsTable(t.ll)
    requires matches > 0 ==> IsTable(t.off) && IsTable(t.len)
    ensures fresh(dll) && fresh(doff) && fresh(dlen) && dll.Length == doff.Length == dlen.Length == ANS_L
    ensures lits > 0 || matches > 0 ==> dll[..] == AnsBuild.DecTable(t.ll)
    ensures matches > 0 ==> doff[..] == AnsBuild.DecTable(t.off) && dlen[..] == AnsBuild.DecTable(t.len)
  {
    hide IsTable, AnsBuild.DecTable;
    dll := new Entry[ANS_L];
    if lits > 0 || matches > 0 {
      AnsBuild.BuildDecDirect(t.ll, dll);
    }
    doff, dlen := dll, dll;
    if matches > 0 {
      doff, dlen := new Entry[ANS_L], new Entry[ANS_L];
      AnsBuild.BuildDecDirect(t.len, dlen);
      AnsBuild.BuildDecDirect(t.off, doff);
    }
  }
}
