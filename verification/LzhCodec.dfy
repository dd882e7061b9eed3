/** zupt_lzh_compress and zupt_lzh_decompress: the format, and that decompressing gives the source back. */
module LzhCodec {
  import opened Arithmetic
  import opened LittleEndian
  import opened Bits
  import opened BitIO
  import opened Wrappers
  import opened HuffLengths
  import opened HuffCodes
  import opened HuffTables
  import opened LzMatch
  import opened LzMatcher
  import opened LzhRuns
  import opened LzhCodes
  import opened LzhBits
  import opened LzhStream
  import opened LzhParse

  // ---------------------------------------------------------------- the format

  function Put16(v: nat): (s: seq<byte>)
    requires v < 0x1_0000
    ensures |s| == 2
  {
    [v % 0x100, v / 0x100]
  }

  function Get16(s: seq<byte>): (v: nat)
    requires |s| >= 2
    ensures v < 0x1_0000
  {
    s[0] + 0x100 * s[1] as int
  }

  lemma Got16(v: nat, rest: seq<byte>)
    requires v < 0x1_0000
    ensures Get16(Put16(v) + rest) == v && (Put16(v) + rest)[2..] == rest
  {
  }

  /** Code lengths with their runs coded. */
  function ClBytes(lens: seq<nat>): (s: seq<byte>)
    requires Limited(lens) && |lens| <= LITLENS
    ensures |s| <= LITLENS && (lens != [] ==> s != [])
  {
    ClShort(lens);
    Cl(lens)
  }

  /** The code lengths behind their size, whose high bit says that runs are coded. */
  function LensBytes(lens: seq<nat>): (s: seq<byte>)
    requires Limited(lens) && |lens| <= LITLENS
  {
    Put16(|ClBytes(lens)| + 0x8000) + ClBytes(lens)
  }

  datatype Lens = Lens(lens: seq<nat>, used: nat)

  /** count code lengths from the front of s, for an alphabet of max symbols. */
  function ReadLens(s: seq<byte>, count: nat, max: nat): (r: Option<Lens>)
    requires count <= max
    ensures r.Some? ==> |r.value.lens| == count && Limited(r.value.lens) && r.value.used <= |s|
  {
    if |s| < 2 then None
    else
      var h := Get16(s);
      if h >= 0x8000 then
        if 2 + (h - 0x8000) > |s| then None
        else
          UnclLimited(s[2..2 + (h - 0x8000)], count, 0);
          match Uncl(s[2..2 + (h - 0x8000)], count, 0)
          case None => None
          case Some(lens) => Some(Lens(lens, 2 + (h - 0x8000)))
      else if h > max || 2 + h > |s| || !Limited(s[2..2 + h]) then None
      else Some(Lens(seq(count, i requires 0 <= i < count => if i < h then s[2 + i] else 0), 2 + h))
  }

  lemma {:induction false} UnclLimited(s: seq<nat>, left: nat, prev: nat)
    requires prev <= MAX_LEN
    ensures Uncl(s, left, prev).Some? ==> Limited(Uncl(s, left, prev).value)
    decreases |s|
  {
    if left > 0 && s != [] {
      if s[0] <= 15 {
        UnclLimited(s[1..], left - 1, s[0]);
      } else if s[0] <= MANY_ZEROS && |s| >= 2 {
        UnclLimited(s[2..], left - Min(s[1] + (if s[0] == MANY_ZEROS then 11 else 3), left), prev);
      }
    }
  }

  /** Coded lengths are read back. */
  lemma LensBack(lens: seq<nat>, max: nat, rest: seq<byte>)
    requires Limited(lens) && |lens| <= LITLENS && |lens| <= max
    ensures ReadLens(LensBytes(lens) + rest, |lens|, max) == Some(Lens(lens, |LensBytes(lens)|))
  {
    hide Uncl, Cl;
    var cl := ClBytes(lens);
    var s := LensBytes(lens) + rest;
    assert s == Put16(|cl| + 0x8000) + (cl + rest);
    Got16(|cl| + 0x8000, cl + rest);
    assert s[2..2 + |cl|] == cl;
    ClBack(lens, 0);
  }

  /** What comes before the code lengths: whether zero runs are coded, and for how many bytes. */
  function Mark(rle: bool, size: nat): (s: seq<byte>)
    ensures |s| == if rle then 5 else 1
  {
    if rle then [1] + ToBytes(size, 4) else [0]
  }

  ghost predicate SoundBooks(k: Books) { BooksOk(k) && Sound(k.ll) && Sound(k.d) }

  function Head(k: Books): (s: seq<byte>)
    requires BooksOk(k)
  {
    Put16(|k.ll|) + Put16(|k.d|) + LensBytes(k.ll) + LensBytes(k.d)
  }

  /** The whole output of the compressor, had it all the room it needs. */
  function Frame(rle: bool, size: nat, k: Books, syms: seq<Sym>): (s: seq<byte>)
    requires BooksOk(k) && AllCodable(k, syms)
  {
    Mark(rle, size) + Head(k) + StreamBytes(Fields(k, syms))
  }

  // ---------------------------------------------------------------- what decompressing yields

  function RestoreBody(s: seq<byte>, cap: nat): (out: seq<byte>) {
    if |s| < 4 || Get16(s) > LITLENS || Get16(s[2..]) > DIST_CODES then []
    else
      match ReadLens(s[4..], Get16(s), LITLENS)
      case None => []
      case Some(a) =>
        match ReadLens(s[4..][a.used..], Get16(s[2..]), DIST_CODES)
        case None => []
        case Some(b) => Unpack(Books(a.lens, b.lens), Num(s[4..][a.used..][b.used..]), [], cap)
  }

  /** zupt_lzh_decompress into a buffer of cap bytes; nothing on failure. */
  function Restore(src: seq<byte>, cap: nat): (out: seq<byte>) {
    if |src| < 5 then []
    else if src[0] % 2 == 1 then
      match Unrle(RestoreBody(src[5..], cap), cap) case None => [] case Some(out) => out
    else RestoreBody(src[1..], cap)
  }

  lemma HeadBack(k: Books, rest: seq<byte>, cap: nat)
    requires BooksOk(k)
    ensures RestoreBody(Head(k) + rest, cap) == Unpack(k, Num(rest), [], cap)
  {
    hide ReadLens, LensBytes, Unpack, Num, Limited;
    var a, b := LensBytes(k.ll), LensBytes(k.d);
    var s := Head(k) + rest;
    assert s == Put16(|k.ll|) + (Put16(|k.d|) + (a + (b + rest)));
    Got16(|k.ll|, Put16(|k.d|) + (a + (b + rest)));
    Got16(|k.d|, a + (b + rest));
    assert s[4..] == s[2..][2..] == a + (b + rest);
    LensBack(k.ll, LITLENS, b + rest);
    assert s[4..][|a|..] == b + rest;
    LensBack(k.d, DIST_CODES, rest);
    assert (b + rest)[|b|..] == rest;
  }

  /** The body of a frame brings back what its symbols mean. */
  lemma BodyBack(k: Books, syms: seq<Sym>, out: seq<byte>, cap: nat)
    requires SoundBooks(k) && AllCodable(k, syms) && Yields(syms, [], out) && |out| <= cap
    ensures RestoreBody(Head(k) + StreamBytes(Fields(k, syms)), cap) == out
  {
    hide RestoreBody, Head, Unpack, StreamBytes, Sound, StreamNum, StreamBits, Fields, Num;
    var fs := Fields(k, syms);
    HeadBack(k, StreamBytes(fs), cap);
    AllFieldsOk(k, syms);
    StreamBytesNum(fs);
    UnpackFields(k, syms, 0, [], out, cap);
    assert Ahead(fs, 0) == StreamNum(fs);
  }

  lemma RestoreMarked(rle: bool, size: nat, body: seq<byte>, cap: nat)
    requires |body| >= 4
    ensures Restore(Mark(rle, size) + body, cap)
            == if rle then match Unrle(RestoreBody(body, cap), cap) case None => [] case Some(out) => out
               else RestoreBody(body, cap)
  {
    hide RestoreBody, Unrle, ToBytes;
    var s := Mark(rle, size) + body;
    assert s[|Mark(rle, size)|..] == body;
  }

  lemma FrameParts(rle: bool, size: nat, k: Books, syms: seq<Sym>)
    requires BooksOk(k) && AllCodable(k, syms)
    ensures Frame(rle, size, k, syms) == Mark(rle, size) + (Head(k) + StreamBytes(Fields(k, syms)))
  {
    hide Head, Mark, StreamBytes, Fields, BooksOk, AllCodable;
  }

  /** Decompressing a frame gives the source back. */
  lemma FrameBack(src: seq<byte>, rle: bool, size: nat, k: Books, syms: seq<Sym>, cap: nat)
    requires SoundBooks(k) && AllCodable(k, syms) && |src| <= cap
    requires Yields(syms, [], if rle then Rle(src) else src) && (rle ==> |Rle(src)| <= |src|)
    ensures Restore(Frame(rle, size, k, syms), cap) == src
  {
    assert BooksOk(k);
    hide Restore, RestoreBody, Head, StreamBytes, SoundBooks, Yields, AllCodable, Fields, Rle, Unrle, Frame, Mark;
    FrameParts(rle, size, k, syms);
    HeadSize(k);
    RestoreMarked(rle, size, Head(k) + StreamBytes(Fields(k, syms)), cap);
    BodyBack(k, syms, if rle then Rle(src) else src, cap);
    if rle {
      RleBack(src, cap);
    }
  }

  lemma HeadSize(k: Books)
    requires BooksOk(k)
    ensures 8 <= |Head(k)| <= 0x1000
  {
  }

  // ---------------------------------------------------------------- building the codes

  /** The entries the symbols need are counted. */
  ghost predicate Counted(llf: seq<nat>, df: seq<nat>, s: Sym) {
    && |llf| == LITLENS && |df| == DIST_CODES
    && match s
       case Lit(b) => llf[b] > 0
       case Copy(len, dist) => llf[257 + CodeOf(Length, len)] > 0 && df[CodeOf(Distance, dist)] > 0
  }

  ghost predicate CountedTo(llf: seq<nat>, df: seq<nat>, syms: seq<Sym>, n: nat) {
    |llf| == LITLENS && |df| == DIST_CODES && n <= |syms| && forall i :: 0 <= i < n ==> Counted(llf, df, syms[i])
  }

  /** How often each number below n occurs. */
  function Tally(xs: seq<nat>, n: nat): (f: seq<nat>)
    ensures |f| == n
  {
    seq(n, c requires 0 <= c < n => multiset(xs)[c])
  }

  /** The codes of the symbols: literals and lengths, and distances. */
  function LitCodes(syms: seq<Sym>): (xs: seq<nat>) {
    if syms == [] then []
    else
      var rest := LitCodes(syms[..|syms| - 1]);
      match syms[|syms| - 1]
      case Lit(b) => rest + [b]
      case Copy(len, _) => rest + [257 + CodeOf(Length, len)]
  }

  function DistCodes(syms: seq<Sym>): (xs: seq<nat>) {
    if syms == [] then []
    else
      var rest := DistCodes(syms[..|syms| - 1]);
      match syms[|syms| - 1]
      case Lit(_) => rest
      case Copy(_, dist) => rest + [CodeOf(Distance, dist)]
  }

  lemma TallyNone(n: nat)
    ensures Tally([], n) == seq(n, _ => 0)
  {
  }

  lemma TallyOne(xs: seq<nat>, c: nat, n: nat)
    requires c < n
    ensures Tally(xs + [c], n) == Tally(xs, n)[c := Tally(xs, n)[c] + 1]
  {
  }

  lemma CodesStep(syms: seq<Sym>, i: nat)
    requires i < |syms|
    ensures var lits, dists := LitCodes(syms[..i]), DistCodes(syms[..i]);
            match syms[i]
            case Lit(b) => LitCodes(syms[..i + 1]) == lits + [b] && DistCodes(syms[..i + 1]) == dists
            case Copy(len, dist) =>
              LitCodes(syms[..i + 1]) == lits + [257 + CodeOf(Length, len)]
              && DistCodes(syms[..i + 1]) == dists + [CodeOf(Distance, dist)]
  {
    hide CodeOf;
    assert syms[..i + 1][..i] == syms[..i];
  }

  /** How often each code occurs, the end mark once. */
  method CountFreqs(syms: seq<Sym>) returns (llf: seq<nat>, df: seq<nat>)
    ensures CountedTo(llf, df, syms, |syms|) && llf[EOB] > 0
    ensures llf == Tally(LitCodes(syms) + [256], LITLENS) && df == Tally(DistCodes(syms), DIST_CODES)
  {
    hide CodeOf, Tally, LitCodes, DistCodes;
    llf, df := seq(LITLENS, _ => 0), seq(DIST_CODES, _ => 0);
    NoCodes(syms);
    for i := 0 to |syms|
      invariant CountedTo(llf, df, syms, i)
      invariant llf == Tally(LitCodes(syms[..i]), LITLENS) && df == Tally(DistCodes(syms[..i]), DIST_CODES)
    {
      CodesStep(syms, i);
      ghost var llf0, df0 := llf, df;
      match syms[i] {
        case Lit(b) =>
          TallyOne(LitCodes(syms[..i]), b, LITLENS);
          llf := llf[b := llf[b] + 1];
        case Copy(len, dist) =>
          var lc := ToCode(Length, len);
          TallyOne(LitCodes(syms[..i]), 257 + lc, LITLENS);
          llf := llf[257 + lc := llf[257 + lc] + 1];
          var dc := ToCode(Distance, dist);
          TallyOne(DistCodes(syms[..i]), dc, DIST_CODES);
          df := df[dc := df[dc] + 1];
      }
      CountsGrow(llf0, df0, llf, df, syms, i);
    }
    assert syms[..|syms|] == syms;
    TallyOne(LitCodes(syms), EOB, LITLENS);
    llf := llf[EOB := llf[EOB] + 1];
  }

  lemma NoCodes(syms: seq<Sym>)
    ensures Tally(LitCodes(syms[..0]), LITLENS) == seq(LITLENS, _ => 0)
    ensures Tally(DistCodes(syms[..0]), DIST_CODES) == seq(DIST_CODES, _ => 0)
  {
    TallyNone(LITLENS);
    TallyNone(DIST_CODES);
  }

  /** The code lengths for an alphabet, cut off behind its last code that occurs. */
  ghost predicate BookFor(freq: seq<nat>, least: nat, lens: seq<nat>) {
    && least <= |lens| <= |freq| && (forall c :: |lens| <= c < |freq| ==> freq[c] == 0)
    && (|lens| > least ==> freq[|lens| - 1] > 0)
    && exists full: seq<nat> :: CutFor(freq[..|lens|], full, lens)
  }

  /** The code lengths the symbols and the end mark get. */
  ghost predicate BooksFor(k: Books, syms: seq<Sym>) {
    BookFor(Tally(LitCodes(syms) + [256], 293), 257, k.ll) && BookFor(Tally(DistCodes(syms), 40), 1, k.d)
  }

  lemma CountsGrow(llf0: seq<nat>, df0: seq<nat>, llf: seq<nat>, df: seq<nat>, syms: seq<Sym>, i: nat)
    requires i < |syms| && CountedTo(llf0, df0, syms, i) && Counted(llf, df, syms[i])
    requires forall c :: 0 <= c < LITLENS ==> llf[c] >= llf0[c]
    requires forall c :: 0 <= c < DIST_CODES ==> df[c] >= df0[c]
    ensures CountedTo(llf, df, syms, i + 1)
  {
    hide CodeOf;
    forall j | 0 <= j < i ensures Counted(llf, df, syms[j]) {
      assert Counted(llf0, df0, syms[j]);
    }
  }

  /** The size of an alphabet without the unused codes at its end. */
  method UsedSize(freq: seq<nat>, least: nat) returns (n: nat)
    requires least <= |freq|
    ensures least <= n <= |freq| && (forall c :: n <= c < |freq| ==> freq[c] == 0) && (n > least ==> freq[n - 1] > 0)
  {
    n := |freq|;
    while n > least && freq[n - 1] == 0
      invariant least <= n <= |freq| && forall c :: n <= c < |freq| ==> freq[c] == 0
    {
      n := n - 1;
    }
  }

  /** The codes for all symbols. */
  method BuildBooks(syms: seq<Sym>) returns (k: Books, ll: seq<nat>, d: seq<nat>)
    requires AllOk(syms)
    ensures SoundBooks(k) && AllCodable(k, syms) && CodesOf(k.ll, ll) && CodesOf(k.d, d) && k.ll != [] && k.d != []
    ensures BooksFor(k, syms)
  {
    hide Counted, Code, Built, Sound, Pow2, CutFor, Tally, LitCodes, DistCodes;
    var llf, df := CountFreqs(syms);
    var lln := UsedSize(llf, 257);
    var dn := UsedSize(df, 1);
    LutBits();
    var lens, dlens;
    ghost var full;
    lens, ll, full := HuffBuild(llf[..lln]);
    ghost var llFull := full;
    dlens, d, full := HuffBuild(df[..dn]);
    k := Books(lens, dlens);
    BuiltIsSound(llf[..lln], lens);
    BuiltIsSound(df[..dn], dlens);
    BuiltSize(llf[..lln], lens);
    BuiltSize(df[..dn], dlens);
    assert CutFor(llf[..|lens|], llFull, lens) && CutFor(df[..|dlens|], full, dlens);
    UsedHasCode(llf, lln, lens, EOB);
    forall i | 0 <= i < |syms| ensures Codable(k, syms[i]) {
      SymCodable(llf, df, lln, dn, k, syms[i]);
    }
  }

  lemma BuiltSize(freq: seq<nat>, lens: seq<nat>)
    requires Built(freq, lens)
    ensures |lens| == |freq|
  {
  }

  /** A code that occurs is in the alphabet and has a length. */
  lemma UsedHasCode(freq: seq<nat>, n: nat, lens: seq<nat>, c: nat)
    requires n <= |freq| && (forall i :: n <= i < |freq| ==> freq[i] == 0) && Built(freq[..n], lens)
    requires c < |freq| && freq[c] > 0
    ensures HasCode(lens, c)
  {
    assert freq[..n][c] == freq[c];
  }

  lemma SymCodable(llf: seq<nat>, df: seq<nat>, lln: nat, dn: nat, k: Books, s: Sym)
    requires Counted(llf, df, s) && SymOk(s)
    requires lln <= |llf| && (forall i :: lln <= i < |llf| ==> llf[i] == 0) && Built(llf[..lln], k.ll)
    requires dn <= |df| && (forall i :: dn <= i < |df| ==> df[i] == 0) && Built(df[..dn], k.d)
    ensures Codable(k, s)
  {
    hide Built, CodeOf, HasCode;
    match s
    case Lit(b) => UsedHasCode(llf, lln, k.ll, b);
    case Copy(len, dist) =>
      UsedHasCode(llf, lln, k.ll, 257 + CodeOf(Length, len));
      UsedHasCode(df, dn, k.d, CodeOf(Distance, dist));
  }

  // ---------------------------------------------------------------- compressing

  /** How many of the first n bytes are zero. */
  function Zeros(s: seq<byte>, n: nat): (z: nat)
    requires n <= |s|
    ensures z <= n
  {
    if n == 0 then 0 else Zeros(s, n - 1) + (if s[n - 1] == 0 then 1 else 0)
  }

  /** Zero runs are coded when an eighth of the source is zeros and a tenth of it is saved. */
  predicate UseRle(s: seq<byte>) {
    Zeros(s, |s|) > |s| / 8 && 0 < |Rle(s)| < |s| && |Rle(s)| < |s| * 9 / 10
  }

  lemma {:induction false} ZerosCount(s: seq<byte>, n: nat)
    requires n <= |s|
    ensures Zeros(s, n) == multiset(s[..n])[0]
  {
    if n > 0 {
      ZerosCount(s, n - 1);
      assert s[..n] == s[..n - 1] + [s[n - 1]];
    }
  }

  /** The first byte of a frame: 1 when more than an eighth of the bytes are zeros and coding their runs saves more than
      a tenth, 0 otherwise. */
  predicate Marked(src: seq<byte>, frame: seq<byte>) {
    frame != []
    && frame[0] == if multiset(src)[0] > |src| / 8 && |Rle(src)| < |src| * 9 / 10 then 1 else 0
  }

  lemma MarkMeans(src: seq<byte>, rest: seq<byte>)
    requires src != []
    ensures Marked(src, Mark(UseRle(src), |src|) + rest)
  {
    hide ToBytes, Zeros;
    ZerosCount(src, |src|);
    assert src[..|src|] == src;
    RleSome(src);
  }

  lemma RleSome(src: seq<byte>)
    requires src != []
    ensures Rle(src) != []
  {
  }

  method Preprocess(src: seq<byte>) returns (rle: bool, data: seq<byte>)
    ensures rle == UseRle(src) && |data| <= |src| && data == if rle then Rle(src) else src
  {
    hide Rle;
    var zeros := 0;
    for i := 0 to |src|
      invariant zeros == Zeros(src, i)
    {
      if src[i] == 0 {
        zeros := zeros + 1;
      }
    }
    rle, data := false, src;
    if zeros > |src| / 8 {
      var buf := new byte[|src|](_ => 0);
      var rs := RleEncode(src, buf);
      if 0 < rs < |src| * 9 / 10 {
        rle, data := true, buf[..rs];
      }
    }
  }

  /** Stores s when there is room. */
  method Store(dst: array<byte>, at: nat, s: seq<byte>) returns (ok: bool, op: nat)
    requires at <= dst.Length
    modifies dst
    ensures ok == (at + |s| <= dst.Length)
    ensures ok ==> op == at + |s| && dst[..op] == old(dst[..at]) + s
  {
    ok, op := at + |s| <= dst.Length, at;
    if ok {
      op := Append(dst, at, s);
    }
  }

  method StoreLens(lens: seq<nat>, dst: array<byte>, at: nat) returns (ok: bool, op: nat)
    requires Limited(lens) && 0 < |lens| <= LITLENS && at <= dst.Length
    modifies dst
    ensures ok == (at + |LensBytes(lens)| <= dst.Length)
    ensures ok ==> op == at + |LensBytes(lens)| && dst[..op] == old(dst[..at]) + LensBytes(lens)
  {
    var cl := ClEncode(lens);
    ghost var bytes := ClBytes(lens);
    assert cl == bytes;
    ok, op := Store(dst, at, Put16(|cl| + 0x8000) + cl);
  }

  /** Everything before the bit stream. */
  method StoreHead(rle: bool, size: nat, k: Books, dst: array<byte>) returns (ok: bool, op: nat)
    requires BooksOk(k) && k.ll != [] && k.d != []
    modifies dst
    ensures ok == (|Mark(rle, size) + Head(k)| <= dst.Length)
    ensures ok ==> op == |Mark(rle, size) + Head(k)| && dst[..op] == Mark(rle, size) + Head(k)
  {
    hide LensBytes, Mark, ToBytes;
    assert dst[..0] == [];
    ok, op := Store(dst, 0, Mark(rle, size));
    if ok {
      ok, op := Store(dst, op, Put16(|k.ll|) + Put16(|k.d|));
    }
    if ok {
      ok, op := StoreLens(k.ll, dst, op);
    }
    if ok {
      ok, op := StoreLens(k.d, dst, op);
    }
  }

  lemma StreamCut(fs: seq<Field>, n: nat)
    requires n <= |StreamBytes(fs)|
    ensures ToBytes(StreamNum(fs), n) == StreamBytes(fs)[..n]
  {
    ToBytesPrefix(StreamNum(fs), n, WholeBytes(StreamBits(fs)));
  }

  /** The bit stream, as much of it as there is room for. */
  method StoreStream(k: Books, ll: seq<nat>, d: seq<nat>, syms: seq<Sym>, dst: array<byte>, op: nat) returns (end: nat)
    requires BooksOk(k) && CodesOf(k.ll, ll) && CodesOf(k.d, d) && AllCodable(k, syms) && op <= dst.Length
    modifies dst
    ensures end == Min(op + |StreamBytes(Fields(k, syms))|, dst.Length)
    ensures dst[..end] == old(dst[..op]) + StreamBytes(Fields(k, syms))[..end - op]
  {
    hide BooksOk, CodesOf, AllCodable, Fields, StreamNum, ToBytes;
    var w := new Writer(dst, op);
    HoldsNothing(w);
    PutAll(w, k, ll, d, syms);
    w.Flush();
    end := w.pos;
    StreamCut(Fields(k, syms), end - op);
    assert dst[..end] == dst[..op] + dst[op..end];
  }

  /** zupt_lzh_compress over a table: the number of bytes stored, or 0 when that is no gain or the head does not fit.
      What is stored is the whole frame, or the beginning of it when the buffer is full; a buffer as large as the
      source is never filled. */
  method Compress(src: seq<byte>, level: int, t: HashTable, dst: array<byte>)
    returns (n: nat, ghost k: Books, ghost frame: seq<byte>, ghost syms: seq<Sym>)
    requires |src| <= INT32_MAX && t.Valid() && !t.compact && LzhParse.TableOk(SetupOf(level), t.View())
    requires dst != t.roots as object && dst != t.links as object
    modifies t.roots, t.links, dst
    ensures BooksOk(k) && (src != [] ==> Mark(UseRle(src), |src|) + Head(k) <= frame)
    ensures n == if src == [] || |Mark(UseRle(src), |src|) + Head(k)| > dst.Length
                    || Min(|frame|, dst.Length) >= |src| then 0
                 else Min(|frame|, dst.Length)
    ensures n > 0 ==> dst[..n] == frame[..n]
    ensures n > 0 && |src| <= dst.Length ==> dst[..n] == frame
    ensures src != [] ==>
      && Marked(src, frame) && BooksFor(k, syms) && AllCodable(k, syms) && frame == Frame(UseRle(src), |src|, k, syms)
      && syms == Parse(SetupOf(level), if UseRle(src) then Rle(src) else src, old(t.View()), 0)
    ensures forall cap: nat :: |src| <= cap ==> Restore(frame, cap) == src
    ensures dst.Length == |Mark(UseRle(src), |src|) + Head(k)| < |src| && !OneByte(src) ==>
              n > 0 && forall cap: nat :: Restore(dst[..n], cap) != src
  {
    hide OneByte, Rle, Restore, Frame, Head, Mark, Marked, Fields, Yields, AllCodable, SoundBooks, AllOk, StreamBytes,
         UseRle, BooksFor, Parse;
    n, k, frame, syms := 0, Books([], []), [], [];
    if src == [] {
      RestoreNothing();
      return;
    }
    var rle, data := Preprocess(src);
    var parsed := Symbols(SetupOf(level), data, t);
    syms := parsed;
    var books, ll, d := BuildBooks(parsed);
    BooksAre(books, syms);
    k, frame := books, Frame(rle, |src|, books, syms);
    FrameParts(rle, |src|, k, syms);
    MarkMeans(src, Head(k) + StreamBytes(Fields(k, syms)));
    RleSaves(src);
    forall cap: nat | |src| <= cap ensures Restore(frame, cap) == src {
      FrameBack(src, rle, |src|, k, syms, cap);
    }
    var ok, op := StoreHead(rle, |src|, books, dst);
    if ok {
      var end := StoreStream(books, ll, d, parsed, dst, op);
      n := if end < |src| then end else 0;
      if op == dst.Length < |src| && !OneByte(src) {
        assert dst[..n] == Mark(rle, |src|) + Head(k);
        forall cap: nat ensures Restore(dst[..n], cap) != src {
          CutAtHead(src, rle, |src|, k, cap);
        }
      }
    }
  }

  lemma RestoreNothing()
    ensures forall cap: nat :: Restore([], cap) == []
  {
  }

  lemma BooksAre(k: Books, syms: seq<Sym>)
    requires SoundBooks(k) && AllCodable(k, syms)
    ensures BooksOk(k)
  {
  }

  lemma RleSaves(src: seq<byte>)
    ensures UseRle(src) ==> |Rle(src)| <= |src|
  {
  }

  /** The symbols of the source and what they are worth. */
  method Symbols(c: Setup, data: seq<byte>, t: HashTable) returns (syms: seq<Sym>)
    requires SetupOk(c) && t.Valid() && !t.compact && LzhParse.TableOk(c, t.View()) && |data| <= INT32_MAX
    modifies t.roots, t.links
    ensures AllOk(syms) && Yields(syms, [], data) && |syms| <= |data|
    ensures syms == Parse(c, data, old(t.View()), 0)
  {
    hide Parse, Yields, AllOk;
    ghost var tab := t.View();
    syms := ParseAll(c, data, t);
    ParseOk(c, data, tab, 0);
    ParseYields(c, data, tab, 0);
    assert data[..0] == [];
  }

  // ---------------------------------------------------------------- a buffer that holds the head only

  predicate OneByte(s: seq<byte>) { forall i, j :: 0 <= i < |s| && 0 <= j < |s| ==> s[i] == s[j] }

  /** Past the end of the input all bits are zero: the same literal again and again. */
  lemma {:induction false} ZeroBits(k: Books, h: seq<byte>, cap: nat)
    requires BooksOk(k) && Symbol(k.ll, 0).len > 0 && Symbol(k.ll, 0).sym < 256
    requires forall i :: 0 <= i < |h| ==> h[i] == Symbol(k.ll, 0).sym
    ensures OneByte(Unpack(k, 0, h, cap))
    decreases if |h| <= cap then cap - |h| else 0
  {
    hide Symbol, UnpackCopy, Pow2;
    var e := Symbol(k.ll, 0);
    UnpackStep(k, 0, h, cap);
    DivModUnique(0, Pow2(e.len), 0, 0);
    if |h| < cap {
      ZeroBits(k, h + [e.sym], cap);
    }
  }

  lemma NoBits(k: Books, cap: nat)
    requires BooksOk(k)
    ensures OneByte(Unpack(k, 0, [], cap))
  {
    hide Symbol, Pow2, Unpack;
    var e := Symbol(k.ll, 0);
    UnpackStep(k, 0, [], cap);
    if e.len > 0 && e.sym < 256 {
      ZeroBits(k, [], cap);
    }
  }

  lemma {:induction false} UnrleOneByte(s: seq<byte>, room: nat)
    requires OneByte(s) && Unrle(s, room).Some?
    ensures OneByte(Unrle(s, room).value)
    ensures s != [] ==> forall i :: 0 <= i < |Unrle(s, room).value| ==> Unrle(s, room).value[i] == s[0]
    decreases |s|
  {
    if s != [] && room > 0 {
      if s[0] == 0 && |s| > 1 {
        assert s[1] == 0;
        UnrleOneByte(s[2..], room - 1);
      } else {
        UnrleOneByte(s[1..], room - 1);
      }
    }
  }

  /** With room for the head alone, what the compressor calls a success restores no source of two different bytes. */
  lemma CutAtHead(src: seq<byte>, rle: bool, size: nat, k: Books, cap: nat)
    requires BooksOk(k) && !OneByte(src)
    ensures Restore(Mark(rle, size) + Head(k), cap) != src
  {
    hide RestoreBody, Head, Mark, Unrle, Unpack, Restore, BooksOk;
    var body := Head(k);
    assert body + [] == body;
    HeadSize(k);
    HeadBack(k, [], cap);
    assert Num([]) == 0;
    NoBits(k, cap);
    RestoreMarked(rle, size, body, cap);
    var out := RestoreBody(body, cap);
    if rle && Unrle(out, cap).Some? {
      UnrleOneByte(out, cap);
    }
    assert OneByte(Restore(Mark(rle, size) + body, cap));
  }

  // ---------------------------------------------------------------- decompressing

  /** The range check on code lengths stored as they are. */
  method AllLimited(s: seq<byte>) returns (ok: bool)
    ensures ok == Limited(s)
  {
    for i := 0 to |s|
      invariant forall j :: 0 <= j < i ==> s[j] <= MAX_LEN
    {
      if s[i] > MAX_LEN {
        return false;
      }
    }
    return true;
  }

  /** The code lengths of one alphabet. */
  method LoadLens(src: seq<byte>, at: nat, count: nat, max: nat) returns (r: Option<Lens>)
    requires at <= |src| && count <= max
    ensures r == ReadLens(src[at..], count, max)
  {
    hide Uncl;
    if at + 2 > |src| {
      return None;
    }
    var s := src[at..];
    var h := Get16(s);
    if h >= 0x8000 {
      if at + 2 + (h - 0x8000) > |src| {
        return None;
      }
      UnclLimited(s[2..2 + (h - 0x8000)], count, 0);
      var lens := ClDecode(s[2..2 + (h - 0x8000)], count);
      r := match lens case None => None case Some(l) => Some(Lens(l, 2 + (h - 0x8000)));
    } else {
      if h > max || at + 2 + h > |src| {
        return None;
      }
      var ok := AllLimited(s[2..2 + h]);
      if !ok {
        return None;
      }
      r := Some(Lens(seq(count, i requires 0 <= i < count => if i < h then s[2 + i] else 0), 2 + h));
    }
  }

  /** The tables and the bit stream behind the mark. */
  method RestoreStream(src: seq<byte>, at: nat, dst: array<byte>) returns (n: nat)
    requires at <= |src|
    modifies dst
    ensures n <= dst.Length && dst[..n] == RestoreBody(src[at..], dst.Length)
  {
    hide ReadLens, Unpack, Num;
    n := 0;
    if at + 4 > |src| {
      return;
    }
    var s := src[at..];
    assert src[at + 2..] == s[2..] && src[at + 4..] == s[4..];
    var lln, dn := Get16(s), Get16(s[2..]);
    if lln > LITLENS || dn > DIST_CODES {
      return;
    }
    var a := LoadLens(src, at + 4, lln, LITLENS);
    if a.None? {
      return;
    }
    var next := at + 4 + a.value.used;
    assert src[next..] == s[4..][a.value.used..];
    var b := LoadLens(src, next, dn, DIST_CODES);
    if b.None? {
      return;
    }
    n := UnpackBits(src[next..][b.value.used..], Books(a.value.lens, b.value.lens), dst);
  }

  method UnpackBits(s: seq<byte>, k: Books, dst: array<byte>) returns (n: nat)
    requires BooksOk(k)
    modifies dst
    ensures n <= dst.Length && dst[..n] == Unpack(k, Num(s), [], dst.Length)
  {
    hide Unpack, Num, LutUpTo;
    var ll := BuildLut(k.ll);
    var d := BuildLut(k.d);
    var r := new BitReader(s);
    n := UnpackAll(r, k, ll, d, dst);
  }

  /** zupt_lzh_decompress: the number of bytes restored, 0 on failure. */
  method Decompress(src: seq<byte>, dst: array<byte>) returns (n: nat)
    modifies dst
    ensures n <= dst.Length && dst[..n] == Restore(src, dst.Length)
  {
    hide RestoreBody, Unrle;
    n := 0;
    if |src| < 5 {
      return;
    }
    if src[0] % 2 == 1 {
      var tmp := new byte[dst.Length](_ => 0);
      var op := RestoreStream(src, 5, tmp);
      n := RleDecode(tmp[..op], dst);
    } else {
      n := RestoreStream(src, 1, dst);
    }
  }
}
