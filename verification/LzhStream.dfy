/** The symbol stream of zupt_lzh: what it means, how it is coded, and that decoding brings the meaning back. */
module LzhStream {
  import opened LittleEndian
  import opened Bits
  import opened BitIO
  import opened HuffLengths
  import opened HuffCodes
  import opened HuffTables
  import opened Lz
  import opened LzhBits
  import opened LzhCodes
  import LzCopy

  const EOB: nat := 256
  const LITLENS: nat := 293

  // ---------------------------------------------------------------- symbols

  datatype Sym = Lit(b: byte) | Copy(len: nat, dist: nat)

  /** What the symbols add to a history h, if every copy stays within it. */
  ghost predicate Yields(syms: seq<Sym>, h: seq<byte>, out: seq<byte>)
    decreases |syms|
  {
    if syms == [] then out == h
    else
      match syms[0]
      case Lit(b) => Yields(syms[1..], h + [b], out)
      case Copy(len, dist) => 0 < dist <= |h| && Yields(syms[1..], CopyMatch(h, dist, len), out)
  }

  lemma {:induction false} YieldsMore(syms: seq<Sym>, more: seq<Sym>, h: seq<byte>, mid: seq<byte>, out: seq<byte>)
    requires Yields(syms, h, mid) && Yields(more, mid, out)
    ensures Yields(syms + more, h, out)
    decreases |syms|
  {
    if syms == [] {
      assert syms + more == more;
    } else {
      assert (syms + more)[1..] == syms[1..] + more;
      match syms[0]
      case Lit(b) => YieldsMore(syms[1..], more, h + [b], mid, out);
      case Copy(len, dist) => YieldsMore(syms[1..], more, CopyMatch(h, dist, len), mid, out);
    }
  }

  lemma {:induction false} YieldsGrows(syms: seq<Sym>, h: seq<byte>, out: seq<byte>)
    requires Yields(syms, h, out)
    ensures |h| <= |out|
    decreases |syms|
  {
    if syms != [] {
      match syms[0]
      case Lit(b) => YieldsGrows(syms[1..], h + [b], out);
      case Copy(len, dist) => YieldsGrows(syms[1..], CopyMatch(h, dist, len), out);
    }
  }

  /** Lengths and distances that have codes. */
  predicate SymOk(s: Sym) { s.Copy? ==> 3 <= s.len <= Greatest(Length) && 1 <= s.dist <= Greatest(Distance) }

  // ---------------------------------------------------------------- coding

  /** The code lengths of the two alphabets. */
  datatype Books = Books(ll: seq<nat>, d: seq<nat>)

  predicate BooksOk(k: Books) { Limited(k.ll) && |k.ll| <= LITLENS && Limited(k.d) && |k.d| <= DIST_CODES }

  predicate HasCode(lens: seq<nat>, s: nat) { s < |lens| && lens[s] > 0 }

  predicate Codable(k: Books, s: Sym) {
    SymOk(s)
    && match s
       case Lit(b) => HasCode(k.ll, b)
       case Copy(len, dist) => HasCode(k.ll, 257 + CodeOf(Length, len)) && HasCode(k.d, CodeOf(Distance, dist))
  }

  predicate AllCodable(k: Books, syms: seq<Sym>) {
    HasCode(k.ll, EOB) && forall i :: 0 <= i < |syms| ==> Codable(k, syms[i])
  }

  function CodeField(lens: seq<nat>, s: nat): (f: Field)
    requires s < |lens|
  {
    Field(Code(lens, s), lens[s])
  }

  /** The extra bits of a length or distance. */
  function RestField(k: Kind, v: nat): (f: Field)
    requires Least(k) <= v <= Greatest(k)
  {
    RestFits(k, v);
    Field(v - Base(k, CodeOf(k, v)), Extra(k, CodeOf(k, v)))
  }

  function SymFields(k: Books, s: Sym): (fs: seq<Field>)
    requires Codable(k, s)
  {
    match s
    case Lit(b) => [CodeField(k.ll, b)]
    case Copy(len, dist) =>
      [CodeField(k.ll, 257 + CodeOf(Length, len)), RestField(Length, len)]
      + [CodeField(k.d, CodeOf(Distance, dist)), RestField(Distance, dist)]
  }

  /** The symbols and the end mark. */
  function Fields(k: Books, syms: seq<Sym>): (fs: seq<Field>)
    requires AllCodable(k, syms)
  {
    if syms == [] then [CodeField(k.ll, EOB)]
    else
      assert forall i :: 0 <= i < |syms[1..]| ==> syms[1..][i] == syms[i + 1];
      SymFields(k, syms[0]) + Fields(k, syms[1..])
  }

  lemma CodeFieldOk(lens: seq<nat>, s: nat)
    requires Limited(lens) && s < |lens|
    ensures FieldOk(CodeField(lens, s))
  {
  }

  lemma RestFieldOk(k: Kind, v: nat)
    requires Least(k) <= v <= Greatest(k)
    ensures FieldOk(RestField(k, v))
  {
    hide Pow2, Base, Extra, CodeOf;
    RestFits(k, v);
  }

  lemma SymFieldsOk(k: Books, s: Sym)
    requires BooksOk(k) && Codable(k, s)
    ensures FieldsOk(SymFields(k, s))
  {
    hide FieldOk, CodeField, RestField, CodeOf;
    match s
    case Lit(b) => CodeFieldOk(k.ll, b);
    case Copy(len, dist) =>
      CodeFieldOk(k.ll, 257 + CodeOf(Length, len));
      RestFieldOk(Length, len);
      CodeFieldOk(k.d, CodeOf(Distance, dist));
      RestFieldOk(Distance, dist);
  }

  lemma {:induction false} AllFieldsOk(k: Books, syms: seq<Sym>)
    requires BooksOk(k) && AllCodable(k, syms)
    ensures FieldsOk(Fields(k, syms))
    decreases |syms|
  {
    hide FieldOk, CodeField, SymFields, Codable;
    if syms == [] {
      CodeFieldOk(k.ll, EOB);
    } else {
      SymFieldsOk(k, syms[0]);
      AllFieldsOk(k, syms[1..]);
    }
  }

  // ---------------------------------------------------------------- decoding

  /** The decoding loop over the number v of bits to come, behind h in a buffer of cap bytes. It stops at the end
      mark, and wherever it cannot go on. */
  function Unpack(k: Books, v: nat, h: seq<byte>, cap: nat): (out: seq<byte>)
    requires BooksOk(k)
    decreases if |h| <= cap then cap - |h| else 0
  {
    var e := Symbol(k.ll, v);
    if e.len == 0 || e.sym == EOB then h
    else if e.sym < 256 then
      if |h| >= cap then h else Unpack(k, Over(v, Pow2(e.len)), h + [e.sym], cap)
    else UnpackCopy(k, e.sym - 257, Over(v, Pow2(e.len)), h, cap)
  }

  /** A length and a distance, and the copy. */
  function UnpackCopy(k: Books, c: nat, v: nat, h: seq<byte>, cap: nat): (out: seq<byte>)
    requires BooksOk(k) && c < LEN_CODES
    decreases if |h| <= cap then cap - |h| else 0, 0
  {
    var len := Base(Length, c) + v % Pow2(Extra(Length, c));
    var v1 := Over(v, Pow2(Extra(Length, c)));
    var e := Symbol(k.d, v1);
    if e.len == 0 then h
    else
      var v2 := Over(v1, Pow2(e.len));
      var dist := Base(Distance, e.sym) + v2 % Pow2(Extra(Distance, e.sym));
      if dist > |h| || |h| + len > cap then h
      else Unpack(k, Over(v2, Pow2(Extra(Distance, e.sym))), CopyMatch(h, dist, len), cap)
  }

  // ---------------------------------------------------------------- decoding undoes coding

  /** The fields' bits with tail above them. */
  function Ahead(fs: seq<Field>, tail: nat): (v: nat) { StreamNum(fs) + Times(Pow2(StreamBits(fs)), tail) }

  lemma HeadOff(fs: seq<Field>, tail: nat)
    requires fs != [] && FieldOk(fs[0])
    ensures Ahead(fs, tail) % Pow2(fs[0].nb) == fs[0].val
    ensures Over(Ahead(fs, tail), Pow2(fs[0].nb)) == Ahead(fs[1..], tail)
  {
    hide StreamNum, StreamBits, Pow2, Times;
    StreamTail(fs, tail);
    TakeField(Ahead(fs, tail), fs[0], Ahead(fs[1..], tail));
  }

  lemma ReadCode(lens: seq<nat>, s: nat, fs: seq<Field>, tail: nat)
    requires Sound(lens) && Limited(lens) && HasCode(lens, s) && fs != [] && fs[0] == CodeField(lens, s)
    ensures Symbol(lens, Ahead(fs, tail)) == Slot(s, lens[s])
    ensures Over(Ahead(fs, tail), Pow2(lens[s])) == Ahead(fs[1..], tail)
  {
    hide Ahead, Code, Pow2, Sound, Symbol;
    CodeFieldOk(lens, s);
    HeadOff(fs, tail);
    FindsSymbol(lens, s, Ahead(fs, tail));
  }

  lemma ReadRest(k: Kind, v: nat, fs: seq<Field>, tail: nat)
    requires Least(k) <= v <= Greatest(k) && fs != [] && fs[0] == RestField(k, v)
    ensures Base(k, CodeOf(k, v)) + Ahead(fs, tail) % Pow2(Extra(k, CodeOf(k, v))) == v
    ensures Over(Ahead(fs, tail), Pow2(Extra(k, CodeOf(k, v)))) == Ahead(fs[1..], tail)
  {
    hide Ahead, Pow2, Base, Extra, CodeOf, Least, Greatest;
    RestFieldOk(k, v);
    RestFits(k, v);
    HeadOff(fs, tail);
  }

  lemma UnpackEnd(k: Books, tail: nat, h: seq<byte>, cap: nat)
    requires BooksOk(k) && Sound(k.ll) && HasCode(k.ll, EOB)
    ensures Unpack(k, Ahead([CodeField(k.ll, EOB)], tail), h, cap) == h
  {
    hide Ahead, CodeField, Symbol, Sound;
    ReadCode(k.ll, EOB, [CodeField(k.ll, EOB)], tail);
  }

  lemma UnpackLit(k: Books, b: byte, fs: seq<Field>, tail: nat, h: seq<byte>, cap: nat)
    requires BooksOk(k) && Sound(k.ll) && Codable(k, Lit(b)) && |h| < cap
    ensures Unpack(k, Ahead(SymFields(k, Lit(b)) + fs, tail), h, cap) == Unpack(k, Ahead(fs, tail), h + [b], cap)
  {
    hide Ahead, CodeField, Symbol, Sound, Pow2;
    var all := [CodeField(k.ll, b)] + fs;
    ReadCode(k.ll, b, all, tail);
    assert all[1..] == fs;
  }

  lemma UnpackMatch(k: Books, len: nat, dist: nat, fs: seq<Field>, tail: nat, h: seq<byte>, cap: nat)
    requires BooksOk(k) && Sound(k.d) && Codable(k, Copy(len, dist)) && 0 < dist <= |h| && |h| + len <= cap
    ensures var rest := [RestField(Length, len)] + ([CodeField(k.d, CodeOf(Distance, dist)), RestField(Distance, dist)]
                                                    + fs);
            UnpackCopy(k, CodeOf(Length, len), Ahead(rest, tail), h, cap)
            == Unpack(k, Ahead(fs, tail), CopyMatch(h, dist, len), cap)
  {
    hide Ahead, CodeField, RestField, Symbol, Sound, Pow2, Base, Extra, CodeOf, Unpack, CopyMatch;
    var f1 := [RestField(Distance, dist)] + fs;
    var f2 := [CodeField(k.d, CodeOf(Distance, dist))] + f1;
    var rest := [RestField(Length, len)] + f2;
    assert [CodeField(k.d, CodeOf(Distance, dist)), RestField(Distance, dist)] + fs == f2;
    assert rest[1..] == f2 && f2[1..] == f1 && f1[1..] == fs;
    ReadRest(Length, len, rest, tail);
    ReadCode(k.d, CodeOf(Distance, dist), f2, tail);
    ReadRest(Distance, dist, f1, tail);
  }

  lemma UnpackCopied(k: Books, len: nat, dist: nat, fs: seq<Field>, tail: nat, h: seq<byte>, cap: nat)
    requires BooksOk(k) && Sound(k.ll) && Sound(k.d) && Codable(k, Copy(len, dist))
    requires 0 < dist <= |h| && |h| + len <= cap
    ensures Unpack(k, Ahead(SymFields(k, Copy(len, dist)) + fs, tail), h, cap)
            == Unpack(k, Ahead(fs, tail), CopyMatch(h, dist, len), cap)
  {
    hide Ahead, CodeField, RestField, Symbol, Sound, Pow2, UnpackCopy, CopyMatch, CodeOf;
    var code := [CodeField(k.d, CodeOf(Distance, dist)), RestField(Distance, dist)] + fs;
    var rest := [RestField(Length, len)] + code;
    var all := [CodeField(k.ll, 257 + CodeOf(Length, len))] + rest;
    assert SymFields(k, Copy(len, dist)) + fs == all && all[1..] == rest;
    ReadCode(k.ll, 257 + CodeOf(Length, len), all, tail);
    UnpackMatch(k, len, dist, fs, tail, h, cap);
  }

  /** Decoding the stream of codes yields what the symbols mean, in any buffer that holds it. */
  lemma {:induction false} UnpackFields(k: Books, syms: seq<Sym>, tail: nat, h: seq<byte>, out: seq<byte>, cap: nat)
    requires BooksOk(k) && Sound(k.ll) && Sound(k.d) && AllCodable(k, syms) && Yields(syms, h, out) && |out| <= cap
    ensures Unpack(k, Ahead(Fields(k, syms), tail), h, cap) == out
    decreases |syms|
  {
    hide Ahead, Codable, Sound, SymFields, CodeField, Unpack, CopyMatch, BooksOk;
    if syms == [] {
      UnpackEnd(k, tail, h, cap);
    } else {
      var fs := Fields(k, syms[1..]);
      match syms[0]
      case Lit(b) =>
        YieldsGrows(syms[1..], h + [b], out);
        UnpackLit(k, b, fs, tail, h, cap);
        UnpackFields(k, syms[1..], tail, h + [b], out, cap);
      case Copy(len, dist) =>
        YieldsGrows(syms[1..], CopyMatch(h, dist, len), out);
        UnpackCopied(k, len, dist, fs, tail, h, cap);
        UnpackFields(k, syms[1..], tail, CopyMatch(h, dist, len), out, cap);
    }
  }

  // ---------------------------------------------------------------- writing the stream

  ghost predicate Holds(w: Writer, fs: seq<Field>)
    reads w, w.buf
  {
    w.Valid() && w.Bits() == StreamBits(fs) && w.Value() == StreamNum(fs)
  }

  method PutField(w: Writer, v: nat, n: nat, ghost fs: seq<Field>)
    requires Holds(w, fs) && v < Pow2(n)
    modifies w`acc, w`nb, w`pos, w.buf
    ensures Holds(w, fs + [Field(v, n)]) && w.buf[..w.from] == old(w.buf[..w.from])
  {
    hide Pow2, StreamNum, StreamBits;
    StreamAppend(fs, Field(v, n));
    w.Put(v, n);
  }

  /** Extra bits, of which there may be none. */
  method PutRest(w: Writer, k: Kind, v: nat, c: nat, ghost fs: seq<Field>)
    requires Least(k) <= v <= Greatest(k) && c == CodeOf(k, v) && Holds(w, fs)
    modifies w`acc, w`nb, w`pos, w.buf
    ensures Holds(w, fs + [RestField(k, v)]) && w.buf[..w.from] == old(w.buf[..w.from])
  {
    hide Holds, Base, Extra, CodeOf, Pow2;
    RestFits(k, v);
    if Extra(k, c) > 0 {
      PutField(w, v - Base(k, c), Extra(k, c), fs);
    } else {
      NoRest(w, fs);
    }
  }

  lemma NoRest(w: Writer, fs: seq<Field>)
    requires Holds(w, fs)
    ensures Holds(w, fs + [Field(0, 0)]) && Pow2(0) == 1
  {
    StreamAppend(fs, Field(0, 0));
  }

  lemma HoldsNothing(w: Writer)
    requires w.Valid() && w.Bits() == 0 && w.Value() == 0
    ensures Holds(w, [])
  {
  }

  lemma HoldsRange(w: Writer, fs: seq<Field>)
    requires Holds(w, fs)
    ensures w.from <= w.buf.Length
  {
  }

  predicate CodesOf(lens: seq<nat>, codes: seq<nat>) {
    |codes| == |lens| && forall s :: 0 <= s < |lens| ==> codes[s] == Code(lens, s)
  }

  method PutSym(w: Writer, k: Books, ll: seq<nat>, d: seq<nat>, s: Sym, ghost fs: seq<Field>)
    requires BooksOk(k) && CodesOf(k.ll, ll) && CodesOf(k.d, d) && Codable(k, s) && Holds(w, fs)
    modifies w`acc, w`nb, w`pos, w.buf
    ensures Holds(w, fs + SymFields(k, s)) && w.buf[..w.from] == old(w.buf[..w.from])
  {
    hide Holds, Code, CodeOf, RestField, Pow2, BooksOk;
    match s {
      case Lit(b) =>
        PutField(w, ll[b], k.ll[b], fs);
      case Copy(len, dist) =>
        var lc := ToCode(Length, len);
        PutField(w, ll[257 + lc], k.ll[257 + lc], fs);
        ghost var f1 := fs + [CodeField(k.ll, 257 + lc)];
        PutRest(w, Length, len, lc, f1);
        var dc := ToCode(Distance, dist);
        ghost var f2 := f1 + [RestField(Length, len)];
        PutField(w, d[dc], k.d[dc], f2);
        ghost var f3 := f2 + [CodeField(k.d, dc)];
        PutRest(w, Distance, dist, dc, f3);
        assert fs + SymFields(k, s) == f3 + [RestField(Distance, dist)];
    }
  }

  lemma FieldsStep(k: Books, syms: seq<Sym>, i: nat, fs: seq<Field>)
    requires AllCodable(k, syms) && i <= |syms|
    ensures AllCodable(k, syms[i..])
    ensures i < |syms| ==>
      AllCodable(k, syms[i + 1..]) && Codable(k, syms[i])
      && fs + Fields(k, syms[i..]) == fs + SymFields(k, syms[i]) + Fields(k, syms[i + 1..])
    ensures i == |syms| ==> Fields(k, syms[i..]) == [CodeField(k.ll, EOB)]
  {
    hide SymFields, Codable, CodeField;
    if i < |syms| {
      assert syms[i..][1..] == syms[i + 1..];
    }
  }

  /** The bit stream of all symbols and the end mark. */
  method PutAll(w: Writer, k: Books, ll: seq<nat>, d: seq<nat>, syms: seq<Sym>)
    requires BooksOk(k) && CodesOf(k.ll, ll) && CodesOf(k.d, d) && AllCodable(k, syms) && Holds(w, [])
    modifies w`acc, w`nb, w`pos, w.buf
    ensures Holds(w, Fields(k, syms)) && w.buf[..w.from] == old(w.buf[..w.from])
  {
    hide Holds, Codable, Code, Pow2, SymFields, Fields, BooksOk;
    ghost var fs: seq<Field> := [];
    var i: nat := 0;
    HoldsRange(w, fs);
    assert syms[0..] == syms && [] + Fields(k, syms) == Fields(k, syms);
    while i < |syms|
      invariant i <= |syms| && w.from <= w.buf.Length && Holds(w, fs) && AllCodable(k, syms[i..])
      invariant w.buf[..w.from] == old(w.buf[..w.from])
      invariant fs + Fields(k, syms[i..]) == Fields(k, syms)
    {
      FieldsStep(k, syms, i, fs);
      PutSym(w, k, ll, d, syms[i], fs);
      fs := fs + SymFields(k, syms[i]);
      i := i + 1;
    }
    FieldsStep(k, syms, i, fs);
    PutField(w, ll[EOB], k.ll[EOB], fs);
  }

  // ---------------------------------------------------------------- reading the stream

  /** huff_dec; length 0 means failure. */
  method HuffDec(r: BitReader, lens: seq<nat>, lut: array<Slot>) returns (e: Slot)
    requires r.Valid() && Limited(lens) && LutUpTo(lens, lut[..], |lens|)
    modifies r
    ensures r.Valid() && e == Symbol(lens, old(r.Rest())) && r.Rest() == Over(old(r.Rest()), Pow2(e.len))
  {
    hide Pow2, StartsWith;
    LutBits();
    var bits := Peek(r, MAX_LEN);
    e := lut[bits];
    if e.len == 0 {
      OverOne(r.Rest());
      return;
    }
    var taken := r.Take(e.len);
  }

  lemma OverOne(v: nat)
    ensures Over(v, Pow2(0)) == v
  {
  }

  /** One symbol of the decoding loop, already looked up: a literal or a copy, or the end. */
  method UnpackSym(r: BitReader, k: Books, dl: array<Slot>, e: Slot, dst: array<byte>, op: nat)
    returns (more: bool, end: nat)
    requires r.Valid() && BooksOk(k) && LutUpTo(k.d, dl[..], |k.d|) && op <= dst.Length
    requires e.len > 0 && e.sym < |k.ll| && e.sym > EOB
    modifies r, dst
    ensures r.Valid() && op <= end <= dst.Length
    ensures if more then end > op && Unpack(k, r.Rest(), dst[..end], dst.Length)
                                     == old(UnpackCopy(k, e.sym - 257, r.Rest(), dst[..op], dst.Length))
            else dst[..end] == old(UnpackCopy(k, e.sym - 257, r.Rest(), dst[..op], dst.Length))
  {
    hide Unpack, Symbol, Pow2, Base, Extra, CopyMatch, LutUpTo;
    more, end := false, op;
    var c := e.sym - 257;
    var rest := Get(r, Extra(Length, c));
    var len := Base(Length, c) + rest;
    var f := HuffDec(r, k.d, dl);
    if f.len == 0 {
      return;
    }
    rest := Get(r, Extra(Distance, f.sym));
    var dist := Base(Distance, f.sym) + rest;
    if dist > op || op + len > dst.Length {
      return;
    }
    LzCopy.ByteCopy(dst, op, dist, len);
    more, end := true, op + len;
  }

  lemma UnpackStep(k: Books, v: nat, h: seq<byte>, cap: nat)
    requires BooksOk(k)
    ensures var e := Symbol(k.ll, v);
            Unpack(k, v, h, cap)
            == if e.len == 0 || e.sym == EOB then h
               else if e.sym < 256 then if |h| >= cap then h else Unpack(k, Over(v, Pow2(e.len)), h + [e.sym], cap)
               else UnpackCopy(k, e.sym - 257, Over(v, Pow2(e.len)), h, cap)
  {
    hide Symbol, UnpackCopy, Pow2;
  }

  /** The decoding loop. */
  method UnpackAll(r: BitReader, k: Books, ll: array<Slot>, dl: array<Slot>, dst: array<byte>) returns (op: nat)
    requires r.Valid() && BooksOk(k) && LutUpTo(k.ll, ll[..], |k.ll|) && LutUpTo(k.d, dl[..], |k.d|)
    modifies r, dst
    ensures op <= dst.Length && dst[..op] == Unpack(k, old(r.Rest()), [], dst.Length)
  {
    hide Unpack, UnpackCopy, Symbol, Pow2, LutUpTo, BooksOk;
    BooksLimited(k);
    op := 0;
    assert dst[..0] == [];
    while true
      invariant r.Valid() && op <= dst.Length && LutUpTo(k.ll, ll[..], |k.ll|) && LutUpTo(k.d, dl[..], |k.d|)
      invariant Unpack(k, r.Rest(), dst[..op], dst.Length) == Unpack(k, old(r.Rest()), [], dst.Length)
      decreases dst.Length - op
    {
      UnpackStep(k, r.Rest(), dst[..op], dst.Length);
      var e := HuffDec(r, k.ll, ll);
      if e.len == 0 || e.sym == EOB {
        return;
      }
      if e.sym < 256 {
        if op >= dst.Length {
          return;
        }
        op := Append(dst, op, [e.sym]);
      } else {
        var more;
        more, op := UnpackSym(r, k, dl, e, dst, op);
        if !more {
          return;
        }
      }
    }
  }

  lemma BooksLimited(k: Books)
    requires BooksOk(k)
    ensures Limited(k.ll) && Limited(k.d) && |k.ll| <= LITLENS && |k.d| <= DIST_CODES
  {
  }
}
