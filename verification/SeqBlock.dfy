/** The bytes of a sequence-coded block, and what decoding them yields. */
module SeqBlock {
  import opened LittleEndian
  import opened Wrappers
  import opened AnsHeader
  import opened AnsCodec
  import opened AnsCodec4

  // ---------------------------------------------------------------- sized sections

  function Sized2(d: seq<byte>): (s: seq<byte>) { StateBytes(|d|) + d }

  function Sized4(d: seq<byte>): (s: seq<byte>) { LenBytes(|d|) + d }

  datatype Cut = Cut(payload: seq<byte>, rest: seq<byte>) | Short

  /** A section behind a two-byte length. */
  function Cut2(s: seq<byte>): (c: Cut)
    ensures c.Cut? ==> |c.rest| < |s|
  {
    if |s| < 2 || Freq(s[0], s[1]) > |s| - 2 then Short
    else Cut(s[2..2 + Freq(s[0], s[1])], s[2 + Freq(s[0], s[1])..])
  }

  /** A section behind a four-byte length. */
  function Cut4(s: seq<byte>): (c: Cut)
    ensures c.Cut? ==> |c.rest| < |s|
  {
    if |s| < 4 || Word(s[0], s[1], s[2], s[3]) as int > |s| - 4 then Short
    else
      var n: nat := Word(s[0], s[1], s[2], s[3]);
      Cut(s[4..4 + n], s[4 + n..])
  }

  lemma Cut2Back(d: seq<byte>, rest: seq<byte>)
    requires |d| < 0x1_0000
    ensures Cut2(Sized2(d) + rest) == Cut(d, rest)
  {
    var s := Sized2(d) + rest;
    assert Freq(s[0], s[1]) == |d| by {
      SixteenBits(|d|);
    }
    assert s[2..2 + |d|] == d && s[2 + |d|..] == rest;
  }

  lemma SixteenBits(n: nat)
    requires n < 0x1_0000
    ensures Freq(Lo(n), Hi(n)) == n
  {
  }

  lemma Cut4Back(d: seq<byte>, rest: seq<byte>)
    requires |d| < 0x1_0000_0000
    ensures Cut4(Sized4(d) + rest) == Cut(d, rest)
  {
    hide LenBytes, Word;
    var s := Sized4(d) + rest;
    LenBack(|d|);
    assert s[..4] == LenBytes(|d|);
    assert s[4..4 + |d|] == d && s[4 + |d|..] == rest;
  }

  // ---------------------------------------------------------------- the block

  /** The parts of a block as they are stored. */
  datatype Packed = Packed(fmt: byte, lits: nat, data: seq<byte>, matches: nat,
                           hlen: seq<byte>, hoff: seq<byte>, hll: seq<byte>,
                           slen: nat, soff: nat, sll: nat, bs: seq<byte>)

  predicate PackedOk(p: Packed) {
    && p.lits < 0x1_0000_0000 && |p.data| < 0x1_0000_0000 && p.matches < 0x1_0000_0000 && |p.bs| < 0x1_0000_0000
    && |p.hlen| < 0x1_0000 && |p.hoff| < 0x1_0000 && |p.hll| < 0x1_0000
    && p.slen < 0x1_0000 && p.soff < 0x1_0000 && p.sll < 0x1_0000
  }

  function PackTail(p: Packed): (s: seq<byte>) {
    StateBytes(p.slen) + StateBytes(p.soff) + StateBytes(p.sll) + Sized4(p.bs)
  }

  function PackTables(p: Packed): (s: seq<byte>) {
    Sized2(p.hlen) + (Sized2(p.hoff) + (Sized2(p.hll) + PackTail(p)))
  }

  /** Literals, match count, three table headers, three states, bit stream. */
  function Pack(p: Packed): (s: seq<byte>) {
    LenBytes(p.lits) + [p.fmt] + (Sized4(p.data) + (LenBytes(p.matches) + PackTables(p)))
  }

  function UnpackTail(p: Packed, s: seq<byte>): (r: Option<Packed>) {
    if |s| < 6 then None
    else
      match Cut4(s[6..])
      case Short => None
      case Cut(bs, _) =>
        Some(p.(slen := Freq(s[0], s[1]), soff := Freq(s[2], s[3]), sll := Freq(s[4], s[5]), bs := bs))
  }

  function UnpackTables(p: Packed, s: seq<byte>): (r: Option<Packed>) {
    match Cut2(s)
    case Short => None
    case Cut(hlen, s1) =>
      match Cut2(s1)
      case Short => None
      case Cut(hoff, s2) =>
        match Cut2(s2)
        case Short => None
        case Cut(hll, s3) => UnpackTail(p.(hlen := hlen, hoff := hoff, hll := hll), s3)
  }

  const BLANK := Packed(0, 0, [], 0, [], [], [], 0, 0, 0, [])

  /** The sections of a block, or nothing when one is cut off. */
  function Unpack(s: seq<byte>): (r: Option<Packed>) {
    if |s| < 9 then None
    else
      match Cut4(s[5..])
      case Short => None
      case Cut(data, s1) =>
        if |s1| < 4 then None
        else
          UnpackTables(BLANK.(lits := Word(s[0], s[1], s[2], s[3]), fmt := s[4], data := data,
                              matches := Word(s1[0], s1[1], s1[2], s1[3])), s1[4..])
  }

  lemma UnpackTailBack(p: Packed, q: Packed)
    requires PackedOk(p)
    ensures UnpackTail(q, PackTail(p)) == Some(q.(slen := p.slen, soff := p.soff, sll := p.sll, bs := p.bs))
  {
    hide Cut4, Lo, Hi, Freq;
    var s := PackTail(p);
    SixteenBits(p.slen);
    SixteenBits(p.soff);
    SixteenBits(p.sll);
    Cut4Back(p.bs, []);
    assert s[6..] == Sized4(p.bs) + [];
  }

  lemma UnpackTablesBack(p: Packed, q: Packed)
    requires PackedOk(p)
    ensures UnpackTables(q, PackTables(p))
            == Some(q.(hlen := p.hlen, hoff := p.hoff, hll := p.hll,
                       slen := p.slen, soff := p.soff, sll := p.sll, bs := p.bs))
  {
    hide Cut2, Sized2, PackTail, UnpackTail;
    var s2 := Sized2(p.hll) + PackTail(p);
    Cut2Back(p.hlen, Sized2(p.hoff) + s2);
    Cut2Back(p.hoff, s2);
    Cut2Back(p.hll, PackTail(p));
    UnpackTailBack(p, q.(hlen := p.hlen, hoff := p.hoff, hll := p.hll));
  }

  /** Reading back the sections of a block. */
  lemma UnpackBack(p: Packed)
    requires PackedOk(p)
    ensures Unpack(Pack(p)) == Some(p)
  {
    hide Cut4, Sized4, LenBytes, Word, UnpackTables, PackTables;
    var s := Pack(p);
    var s1 := LenBytes(p.matches) + PackTables(p);
    LenBack(p.lits);
    LenBack(p.matches);
    assert s[..4] == LenBytes(p.lits);
    assert s[5..] == Sized4(p.data) + s1;
    Cut4Back(p.data, s1);
    assert s1[4..] == PackTables(p) && s1[..4] == LenBytes(p.matches);
    UnpackTablesBack(p, BLANK.(lits := p.lits, fmt := p.fmt, data := p.data, matches := p.matches));
  }
}
