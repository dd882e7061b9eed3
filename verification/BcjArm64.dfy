/** The AArch64 branch filter: BL and ADRP immediates, word by word, in place. */
module BranchFilterArm64 {
  import opened Arithmetic
  import opened LittleEndian

  /** insn >> 26 == 0b100101. */
  predicate IsBl(insn: word) { insn / 0x400_0000 == 0x25 }

  /** insn & 0x9F000000 == 0x90000000. */
  predicate IsAdrp(insn: word) { insn / 0x8000_0000 == 1 && insn / 0x100_0000 % 0x20 == 0x10 }

  /** Bits 30..29: the low two bits of an ADRP immediate. */
  function ImmLo(insn: word): (r: nat) { insn / 0x2000_0000 % 4 }

  /** Bits 23..5: the high nineteen bits of an ADRP immediate. */
  function ImmHi(insn: word): (r: nat) { insn / 0x20 % 0x8_0000 }

  function AdrpImm(insn: word): (imm: nat) { ImmLo(insn) + 4 * ImmHi(insn) }

  /** An ADRP word with register rd and immediate imm. */
  function Adrp(rd: nat, imm: nat): (w: word)
    requires rd < 0x20 && imm < 0x20_0000
  {
    0x9000_0000 + imm % 4 * 0x2000_0000 + imm / 4 * 0x20 + rd
  }

  function Shifted(imm: nat, cur: nat, width: nat, encoding: bool): (r: nat)
    requires 0 < width
    ensures r < width
  {
    (if encoding then imm + cur else imm - cur) % width
  }

  /** One instruction word at stream position at. */
  function Rewrite(insn: word, at: word, encoding: bool): (w: word) {
    if IsBl(insn) then
      insn / 0x400_0000 * 0x400_0000 + Shifted(insn % 0x400_0000, at / 4, 0x400_0000, encoding)
    else if IsAdrp(insn) then
      assert AdrpImm(insn) < 0x20_0000;
      Adrp(insn % 0x20, Shifted(AdrpImm(insn), at / 0x1000, 0x20_0000, encoding))
    else insn
  }

  lemma AdrpFields(rd: nat, imm: nat)
    requires rd < 0x20 && imm < 0x20_0000
    ensures var w := Adrp(rd, imm);
            IsAdrp(w) && !IsBl(w) && AdrpImm(w) == imm && w % 0x20 == rd
  {
    var w := Adrp(rd, imm);
    var lo, hi := imm % 4, imm / 4;
    DivModUnique(w, 0x20, 0x480_0000 + lo * 0x100_0000 + hi, rd);
    DivModUnique(w / 0x20, 0x8_0000, 0x90 + lo * 0x20, hi);
    DivModUnique(w, 0x100_0000, 0x90 + lo * 0x20, hi * 0x20 + rd);
    DivModUnique(w, 0x2000_0000, 4 + lo, 0x1000_0000 + hi * 0x20 + rd);
  }

  lemma AdrpRebuilt(insn: word)
    requires IsAdrp(insn)
    ensures AdrpImm(insn) < 0x20_0000 && Adrp(insn % 0x20, AdrpImm(insn)) == insn
  {
    var q, rd := insn / 0x20, insn % 0x20;
    var r, hi := q / 0x8_0000, q % 0x8_0000;
    assert insn == r * 0x100_0000 + (hi * 0x20 + rd);
    DivModUnique(insn, 0x100_0000, r, hi * 0x20 + rd);
    var t, op := r / 0x20, r % 0x20;
    assert insn == t * 0x2000_0000 + (op * 0x100_0000 + hi * 0x20 + rd);
    DivModUnique(insn, 0x2000_0000, t, op * 0x100_0000 + hi * 0x20 + rd);
    assert t / 4 == 1 by {
      DivModUnique(insn, 0x8000_0000, t / 4, t % 4 * 0x2000_0000 + op * 0x100_0000 + hi * 0x20 + rd);
    }
    DivModUnique(AdrpImm(insn), 4, hi, t % 4);
  }

  lemma ShiftedBack(imm: nat, cur: nat, width: nat, encoding: bool)
    requires imm < width
    ensures Shifted(Shifted(imm, cur, width, encoding), cur, width, !encoding) == imm
  {
    var x := if encoding then imm + cur else imm - cur;
    DivModAdd(imm, -(x / width), width);
    DivModUnique(imm, width, 0, imm);
  }

  /** The opposite pass recognises the same instruction and restores it. */
  lemma RewriteBack(insn: word, at: word, encoding: bool)
    ensures Rewrite(Rewrite(insn, at, encoding), at, !encoding) == insn
  {
    if IsBl(insn) {
      var imm := Shifted(insn % 0x400_0000, at / 4, 0x400_0000, encoding);
      ShiftedBack(insn % 0x400_0000, at / 4, 0x400_0000, encoding);
      DivModUnique(Rewrite(insn, at, encoding), 0x400_0000, 0x25, imm);
    } else if IsAdrp(insn) {
      AdrpRebuilt(insn);
      AdrpFields(insn % 0x20, Shifted(AdrpImm(insn), at / 0x1000, 0x20_0000, encoding));
      ShiftedBack(AdrpImm(insn), at / 0x1000, 0x20_0000, encoding);
    }
  }

  function Bytes(w: word): (s: seq<byte>)
    ensures |s| == 4
  {
    [ByteOf(w, 0), ByteOf(w, 1), ByteOf(w, 2), ByteOf(w, 3)]
  }

  /** What the filter makes of the bytes from stream position at on. */
  function Filter(s: seq<byte>, at: nat, encoding: bool): (t: seq<byte>)
    ensures |t| == |s|
    decreases |s|
  {
    if |s| < 4 then s
    else
      Bytes(Rewrite(Word(s[0], s[1], s[2], s[3]), at % 0x1_0000_0000, encoding))
      + Filter(s[4..], at + 4, encoding)
  }

  /** Forward then inverse, or inverse then forward, restores every byte array at every start. */
  lemma {:induction false} RoundTrip(s: seq<byte>, at: nat, encoding: bool)
    ensures Filter(Filter(s, at, encoding), at, !encoding) == s
    decreases |s|
  {
    hide Rewrite, ByteOf, Word;
    if |s| >= 4 {
      var w := Word(s[0], s[1], s[2], s[3]);
      var w' := Rewrite(w, at % 0x1_0000_0000, encoding);
      var t := Filter(s, at, encoding);
      RoundTrip(s[4..], at + 4, encoding);
      RewriteBack(w, at % 0x1_0000_0000, encoding);
      WordOfBytes(w');
      BytesOfWord(s[0], s[1], s[2], s[3]);
      assert t[4..] == Filter(s[4..], at + 4, encoding);
      assert s == [s[0], s[1], s[2], s[3]] + s[4..];
    }
  }

  lemma WordStep(s: seq<byte>, at: nat, encoding: bool)
    requires |s| >= 4
    ensures Filter(s, at, encoding)
            == Bytes(Rewrite(Word(s[0], s[1], s[2], s[3]), at % 0x1_0000_0000, encoding))
              + Filter(s[4..], at + 4, encoding)
  {
  }

  /** Stores one instruction word. */
  method Store(data: array<byte>, pos: nat, w: word)
    requires pos + 4 <= data.Length
    modifies data
    ensures data[..pos + 4] == old(data[..pos]) + Bytes(w)
    ensures data[pos + 4..] == old(data[pos + 4..])
  {
    var s := Bytes(w);
    data[pos], data[pos + 1], data[pos + 2], data[pos + 3] := s[0], s[1], s[2], s[3];
  }

  /** Rewrites the word at pos if it is a BL or an ADRP. */
  method RewriteAt(data: array<byte>, pos: nat, at: word, encoding: bool)
    requires pos + 4 <= data.Length
    modifies data
    ensures data[..pos + 4] == old(data[..pos])
            + Bytes(Rewrite(Word(old(data[pos]), old(data[pos + 1]), old(data[pos + 2]), old(data[pos + 3])),
                            at, encoding))
    ensures data[pos + 4..] == old(data[pos + 4..])
  {
    var insn := Word(data[pos], data[pos + 1], data[pos + 2], data[pos + 3]);
    BytesOfWord(data[pos], data[pos + 1], data[pos + 2], data[pos + 3]);
    hide Word, ByteOf, IsBl, IsAdrp, Adrp, AdrpImm;
    if IsBl(insn) || IsAdrp(insn) {
      Store(data, pos, Rewrite(insn, at, encoding));
    }
  }

  /** The final contents when the bytes before pos are done. */
  function Pending(s: seq<byte>, pos: nat, ip: word, encoding: bool): (t: seq<byte>)
    requires pos <= |s|
  {
    s[..pos] + Filter(s[pos..], ip + pos, encoding)
  }

  lemma PendingEnds(s: seq<byte>, ip: word, encoding: bool)
    ensures Pending(s, 0, ip, encoding) == Filter(s, ip, encoding)
    ensures Pending(s, |s| - |s| % 4, ip, encoding) == s
  {
    hide Rewrite, Bytes, Word;
    assert s[0..] == s;
  }

  /** One round of the loop, against the specification. */
  method Round(data: array<byte>, pos: nat, ip: word, encoding: bool)
    requires pos + 4 <= data.Length
    modifies data
    ensures Pending(data[..], pos + 4, ip, encoding) == old(Pending(data[..], pos, ip, encoding))
  {
    hide Filter, Rewrite, Bytes, Word;
    ghost var s := data[..];
    WordStep(s[pos..], ip + pos, encoding);
    assert s[pos..][4..] == s[pos + 4..] == data[pos + 4..];
    RewriteAt(data, pos, (ip + pos) % 0x1_0000_0000, encoding);
    assert data[..][pos + 4..] == data[pos + 4..];
    assert data[..][..pos + 4] == data[..pos + 4];
  }

  /** vv_bcj_arm64. */
  method BcjArm64(data: array<byte>, ip: word, encoding: bool) returns (done: nat)
    modifies data
    ensures data[..] == Filter(old(data[..]), ip, encoding)
    ensures done == data.Length - data.Length % 4
  {
    hide Pending, Filter;
    var limit := data.Length - data.Length % 4;
    var pos := 0;
    ghost var words, n := data.Length / 4, 0;
    PendingEnds(data[..], ip, encoding);
    while pos < limit
      invariant limit == 4 * words && pos == 4 * n && n <= words
      invariant Pending(data[..], pos, ip, encoding) == Filter(old(data[..]), ip, encoding)
    {
      Round(data, pos, ip, encoding);
      pos, n := pos + 4, n + 1;
    }
    PendingEnds(data[..], ip, encoding);
    return pos;
  }

  // ---------------------------------------------------------------- what becomes of an instruction

  /** The little-endian word at position i. */
  function WordAt(s: seq<byte>, i: nat): (v: word)
    requires i + 4 <= |s|
  {
    s[i] as int + 0x100 * s[i + 1] as int + 0x1_0000 * s[i + 2] as int + 0x100_0000 * s[i + 3] as int
  }

  /** The filter works word by word. */
  lemma {:induction false} FilterTail(s: seq<byte>, at: nat, encoding: bool, n: nat)
    requires 4 * n <= |s|
    ensures Filter(s, at, encoding)[4 * n..] == Filter(s[4 * n..], at + 4 * n, encoding)
    decreases n
  {
    hide Rewrite, Bytes, Word;
    if n == 0 {
      assert s[0..] == s;
    } else {
      FilterTail(s[4..], at + 4, encoding, n - 1);
      assert s[4..][4 * (n - 1)..] == s[4 * n..];
      assert Filter(s, at, encoding)[4..] == Filter(s[4..], at + 4, encoding);
      assert Filter(s, at, encoding)[4..][4 * (n - 1)..] == Filter(s, at, encoding)[4 * n..];
    }
  }

  /** Encoding adds the index of the word to the offset of a BL and the index of its page to the immediate of an ADRP,
      modulo their widths, decoding subtracts them; opcode and register stay, and so does every other word. */
  predicate Readdressed(v: nat, w: nat, at: nat, encoding: bool) {
    if v / 0x400_0000 == 0x25 then
      && w / 0x400_0000 == 0x25
      && w % 0x400_0000 == (if encoding then v % 0x400_0000 + at / 4 else v % 0x400_0000 - at / 4) % 0x400_0000
    else if v / 0x8000_0000 == 1 && v / 0x100_0000 % 0x20 == 0x10 then
      && w / 0x8000_0000 == 1 && w / 0x100_0000 % 0x20 == 0x10 && w % 0x20 == v % 0x20
      && var i, j := v / 0x2000_0000 % 4 + 4 * (v / 0x20 % 0x8_0000), w / 0x2000_0000 % 4 + 4 * (w / 0x20 % 0x8_0000);
         j == (if encoding then i + at / 0x1000 else i - at / 0x1000) % 0x20_0000
    else w == v
  }

  lemma BlMeans(v: word, at: word, encoding: bool)
    requires IsBl(v)
    ensures Readdressed(v, Rewrite(v, at, encoding), at, encoding)
  {
    DivModUnique(Rewrite(v, at, encoding), 0x400_0000, 0x25, Shifted(v % 0x400_0000, at / 4, 0x400_0000, encoding));
  }

  lemma AdrpMeans(v: word, at: word, encoding: bool)
    requires !IsBl(v) && IsAdrp(v)
    ensures Readdressed(v, Rewrite(v, at, encoding), at, encoding)
  {
    hide Adrp;
    AdrpRebuilt(v);
    AdrpFields(v % 0x20, Shifted(AdrpImm(v), at / 0x1000, 0x20_0000, encoding));
  }

  lemma InstructionByRule(s: seq<byte>, ip: word, encoding: bool, i: nat)
    requires i % 4 == 0 && i + 4 <= |s|
    ensures Readdressed(WordAt(s, i), WordAt(Filter(s, ip, encoding), i), (ip + i) % 0x1_0000_0000, encoding)
  {
    hide Filter, Rewrite, Readdressed;
    var t, rest, v, at := Filter(s, ip, encoding), s[i..], WordAt(s, i), (ip + i) % 0x1_0000_0000;
    assert 4 * (i / 4) == i;
    FilterTail(s, ip, encoding, i / 4);
    WordStep(rest, ip + i, encoding);
    var x := Rewrite(v, at, encoding);
    if IsBl(v) {
      BlMeans(v, at, encoding);
    } else if IsAdrp(v) {
      AdrpMeans(v, at, encoding);
    } else {
      OtherMeans(v, at, encoding);
    }
    assert t[i..][..4] == Bytes(x);
    assert t[i] == Bytes(x)[0] && t[i + 1] == Bytes(x)[1] && t[i + 2] == Bytes(x)[2] && t[i + 3] == Bytes(x)[3];
    WordOfBytes(x);
  }

  lemma OtherMeans(v: word, at: word, encoding: bool)
    requires !IsBl(v) && !IsAdrp(v)
    ensures Readdressed(v, Rewrite(v, at, encoding), at, encoding)
  {
  }
}
