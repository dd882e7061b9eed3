/** emit_block: the candidates for a block, the choice between them, and why each is read back as the block. */
module VvEmit {
  import opened Arithmetic
  import opened Bits
  import opened LittleEndian
  import opened Wrappers
  import opened VvFrame

  // ---------------------------------------------------------------- blocks as bytes

  const RAW: nat := 0
  const COMPRESSED: nat := 1
  const ENTROPY: nat := 3

  const TAG_ANS: byte := 0x41
  const TAG_ANS4: byte := 0x49
  const TAG_CTX: byte := 0x43
  const TAG_HUFFMAN: byte := 0x48
  const TAG_SEQ: byte := 0x53
  const TAG_SEQ_V2: byte := 0x54

  /** vv_bh_pack. */
  function Head4(kind: nat, last: bool, size: nat): (s: seq<byte>)
    ensures |s| == 4
  {
    ToBytes(kind + (if last then 4 else 0) + 8 * size, 4)
  }

  function RawBlock(last: bool, b: seq<byte>): (s: seq<byte>) { Head4(RAW, last, |b|) + b }

  function TokenBlock(last: bool, size: nat, tokens: seq<byte>): (s: seq<byte>) {
    Head4(COMPRESSED, last, size) + (ToBytes(|tokens|, 3) + tokens)
  }

  function EntropyBlock(last: bool, size: nat, tag: byte, data: seq<byte>): (s: seq<byte>) {
    Head4(ENTROPY, last, size) + (ToBytes(1 + |data|, 3) + ([tag] + data))
  }

  lemma HeadFields(kind: nat, bit: nat, size: nat)
    requires kind < 4 && bit < 2 && size <= MAX_BLOCK
    ensures var w := kind + 4 * bit + 8 * size;
            w % 4 == kind && w / 4 % 2 == bit && w / 8 % 0x20_0000 == size && w < 0x1_0000_0000
  {
    var w := kind + 4 * bit + 8 * size;
    DivModUnique(w, 4, bit + 2 * size, kind);
    DivModUnique(bit + 2 * size, 2, size, bit);
    DivModUnique(w, 8, size, kind + 4 * bit);
  }

  lemma HeadBack(kind: nat, last: bool, size: nat, rest: seq<byte>)
    requires kind < 4 && size <= MAX_BLOCK
    ensures var w := WordAt(Head4(kind, last, size) + rest, 0);
            w % 4 == kind && (w / 4 % 2 == 1 <==> last) && w / 8 % 0x20_0000 == size
  {
    hide ToBytes, WordAt;
    HeadFields(kind, if last then 1 else 0, size);
    WordBack(kind + 4 * (if last then 1 else 0) + 8 * size, rest);
  }

  lemma WordBack(w: nat, rest: seq<byte>)
    requires w < 0x1_0000_0000
    ensures WordAt(ToBytes(w, 4) + rest, 0) == w
  {
    hide ToBytes, Num;
    var h := ToBytes(w, 4);
    Powers();
    ToBytesNum(w, 4);
    NumOfFour(h);
  }

  lemma NumOfFour(h: seq<byte>)
    requires |h| == 4
    ensures Num(h) == Word(h[0], h[1], h[2], h[3])
  {
    assert h[1..][1..] == h[2..] && h[2..][1..] == h[3..] && h[3..][1..] == [];
    assert Num(h) == h[0] + 0x100 * Num(h[1..]);
    assert Num(h[1..]) == h[1] + 0x100 * Num(h[2..]);
    assert Num(h[2..]) == h[2] + 0x100 * Num(h[3..]);
    assert Num(h[3..]) == h[3];
  }

  lemma SizeBack(n: nat, rest: seq<byte>)
    requires n < 0x100_0000
    ensures var s := ToBytes(n, 3) + rest; s[0] + 0x100 * s[1] as int + 0x1_0000 * s[2] as int == n
  {
    var t := ToBytes(n, 3);
    assert t == [n % 0x100] + ToBytes(n / 0x100, 2);
    assert ToBytes(n / 0x100, 2) == [n / 0x100 % 0x100] + ToBytes(n / 0x1_0000, 1);
    assert ToBytes(n / 0x1_0000, 1) == [n / 0x1_0000 % 0x100] + [];
  }

  /** The bytes are read as the block b, whatever follows. */
  ghost predicate ReadsAs(dec: Decoder, hd: Head, s: seq<byte>, h: seq<byte>, b: seq<byte>, last: bool)
    requires HeadOk(hd)
  {
    forall rest: seq<byte>, room: nat :: |b| <= room ==> ReadBlock(dec, hd, s + rest, h, room) == Block(b, |s|, last)
  }

  lemma RawReads(dec: Decoder, hd: Head, h: seq<byte>, b: seq<byte>, last: bool)
    requires HeadOk(hd) && |b| <= MAX_BLOCK
    ensures ReadsAs(dec, hd, RawBlock(last, b), h, b, last)
  {
    hide WordAt, Head4, MaxOffset;
    forall rest: seq<byte>, room: nat | |b| <= room
      ensures ReadBlock(dec, hd, RawBlock(last, b) + rest, h, room)
              == Block(b, |RawBlock(last, b)|, last)
    {
      HeadBack(RAW, last, |b|, b + rest);
      var s := RawBlock(last, b) + rest;
      assert s == Head4(RAW, last, |b|) + (b + rest);
      assert s[4..4 + |b|] == b;
    }
  }

  lemma TokensRead(dec: Decoder, hd: Head, h: seq<byte>, b: seq<byte>, last: bool, tokens: seq<byte>)
    requires HeadOk(hd) && |b| <= MAX_BLOCK && |tokens| < 0x100_0000
    requires dec(Tokens(tokens), h, |b|, OffsetBytes(hd), MaxOffset(hd)) == Bytes(b)
    ensures ReadsAs(dec, hd, TokenBlock(last, |b|, tokens), h, b, last)
  {
    hide WordAt, Head4, ToBytes, MaxOffset;
    forall rest: seq<byte>, room: nat | |b| <= room
      ensures ReadBlock(dec, hd, TokenBlock(last, |b|, tokens) + rest, h, room)
              == Block(b, |TokenBlock(last, |b|, tokens)|, last)
    {
      var n3 := ToBytes(|tokens|, 3);
      HeadBack(COMPRESSED, last, |b|, n3 + (tokens + rest));
      SizeBack(|tokens|, tokens + rest);
      var s := TokenBlock(last, |b|, tokens) + rest;
      assert s == Head4(COMPRESSED, last, |b|) + (n3 + (tokens + rest));
      assert s[4..] == n3 + (tokens + rest);
      assert s[4] == s[4..][0] && s[5] == s[4..][1] && s[6] == s[4..][2];
      assert s[7..7 + |tokens|] == tokens;
    }
  }

  /** What reading an entropy block comes to. */
  lemma EntropyRead(dec: Decoder, hd: Head, h: seq<byte>, size: nat, last: bool, tag: byte, data: seq<byte>,
                    rest: seq<byte>, room: nat)
    requires HeadOk(hd) && size <= MAX_BLOCK && 1 + |data| < 0x100_0000 && size <= room
    ensures ReadBlock(dec, hd, EntropyBlock(last, size, tag, data) + rest, h, room)
            == Checked(dec(Entropy(tag, data), h, size, OffsetBytes(hd), MaxOffset(hd)), size,
                       |EntropyBlock(last, size, tag, data)|, last)
  {
    hide WordAt, Head4, ToBytes, MaxOffset;
    var n3 := ToBytes(1 + |data|, 3);
    HeadBack(ENTROPY, last, size, n3 + ([tag] + data + rest));
    SizeBack(1 + |data|, [tag] + data + rest);
    var s := EntropyBlock(last, size, tag, data) + rest;
    assert s == Head4(ENTROPY, last, size) + (n3 + ([tag] + data + rest));
    assert s[4..] == n3 + ([tag] + data + rest);
    assert s[4] == s[4..][0] && s[5] == s[4..][1] && s[6] == s[4..][2];
    assert s[7] == tag && s[8..7 + (1 + |data|)] == data;
  }

  lemma EntropyReads(dec: Decoder, hd: Head, h: seq<byte>, b: seq<byte>, last: bool, tag: byte, data: seq<byte>)
    requires HeadOk(hd) && |b| <= MAX_BLOCK && 1 + |data| < 0x100_0000
    requires dec(Entropy(tag, data), h, |b|, OffsetBytes(hd), MaxOffset(hd)) == Bytes(b)
    ensures ReadsAs(dec, hd, EntropyBlock(last, |b|, tag, data), h, b, last)
  {
    hide ReadBlock, EntropyBlock, MaxOffset;
    var s := EntropyBlock(last, |b|, tag, data);
    forall rest: seq<byte>, room: nat | |b| <= room
      ensures ReadBlock(dec, hd, s + rest, h, room)
              == Block(b, |s|, last)
    {
      EntropyRead(dec, hd, h, |b|, last, tag, data, rest, room);
    }
  }

  // ---------------------------------------------------------------- the choice

  /** The literal-only coding of a block: its tag, the number of literals, their coding and the stripped tokens. */
  datatype Literal = Literal(tag: byte, count: nat, coded: seq<byte>, stripped: seq<byte>)

  /** What is at hand for a block: its tokens (none when the parser gave up), its sequence coding and its literal
      coding. */
  datatype Candidates = Candidates(tokens: seq<byte>, sequences: Option<seq<byte>>, literal: Option<Literal>)

  /** The payload of a literal-only block; both counts are cut to sixteen bits. */
  function LiteralData(l: Literal): (s: seq<byte>) {
    ToBytes(l.count, 2) + (ToBytes(|l.coded|, 2) + (l.coded + l.stripped))
  }

  const NEVER: nat := 0x1_0000_0000

  function SequenceSize(c: Candidates): (n: nat) {
    if c.sequences.Some? then 4 + 3 + 1 + |c.sequences.value| else NEVER
  }

  /** Whether the literal coding is tried at all. */
  predicate TriesLiteral(c: Candidates, v2: bool, size: nat) {
    !v2 && (c.sequences.None? || SequenceSize(c) >= size * 7 / 8)
  }

  function LiteralSize(c: Candidates): (n: nat) {
    if c.literal.Some? then 4 + 3 + 1 + 2 + 2 + |c.literal.value.coded| + |c.literal.value.stripped| else NEVER
  }

  datatype Choice = Stored | Plain | Sequenced | Literals

  /** Which candidate wins. */
  function Chosen(c: Candidates, balanced: bool, v2: bool, size: nat): (w: Choice) {
    var gate := if balanced then size + size / 8 else size;
    if c.tokens == [] || |c.tokens| >= gate then Stored
    else if !balanced then Plain
    else
      var raw := Min(4 + 3 + |c.tokens|, 4 + size);
      if c.sequences.Some? && SequenceSize(c) <= LiteralSize(c) && SequenceSize(c) < raw then Sequenced
      else if !v2 && c.literal.Some? && LiteralSize(c) < raw then Literals
      else if !v2 && |c.tokens| < size then Plain
      else Stored
  }

  /** The bytes of the block b. */
  function Written(c: Candidates, balanced: bool, v2: bool, b: seq<byte>, last: bool): (s: seq<byte>) {
    match Chosen(c, balanced, v2, |b|)
    case Stored => RawBlock(last, b)
    case Plain => TokenBlock(last, |b|, c.tokens)
    case Sequenced => EntropyBlock(last, |b|, if v2 then TAG_SEQ_V2 else TAG_SEQ, c.sequences.value)
    case Literals => EntropyBlock(last, |b|, c.literal.value.tag, LiteralData(c.literal.value))
  }

  /** The candidate that wins decodes to the block. */
  ghost predicate Sound(dec: Decoder, hd: Head, h: seq<byte>, b: seq<byte>, c: Candidates, balanced: bool, v2: bool)
    requires HeadOk(hd)
  {
    match Chosen(c, balanced, v2, |b|)
    case Stored => true
    case Plain => dec(Tokens(c.tokens), h, |b|, OffsetBytes(hd), MaxOffset(hd)) == Bytes(b)
    case Sequenced =>
      dec(Entropy(if v2 then TAG_SEQ_V2 else TAG_SEQ, c.sequences.value), h, |b|, OffsetBytes(hd), MaxOffset(hd))
        == Bytes(b)
    case Literals =>
      dec(Entropy(c.literal.value.tag, LiteralData(c.literal.value)), h, |b|, OffsetBytes(hd), MaxOffset(hd))
        == Bytes(b)
  }

  /** Whichever candidate wins, the block is read back. */
  lemma WrittenReads(dec: Decoder, hd: Head, h: seq<byte>, b: seq<byte>, c: Candidates, balanced: bool, v2: bool,
                     last: bool)
    requires HeadOk(hd) && 0 < |b| <= MAX_BLOCK && Sound(dec, hd, h, b, c, balanced, v2) && (v2 ==> balanced)
    ensures ReadsAs(dec, hd, Written(c, balanced, v2, b, last), h, b, last)
  {
    hide ReadsAs, RawBlock, TokenBlock, EntropyBlock, MaxOffset, ToBytes;
    match Chosen(c, balanced, v2, |b|)
    case Stored => RawReads(dec, hd, h, b, last);
    case Plain => TokensRead(dec, hd, h, b, last, c.tokens);
    case Sequenced => EntropyReads(dec, hd, h, b, last, if v2 then TAG_SEQ_V2 else TAG_SEQ, c.sequences.value);
    case Literals =>
      var l := c.literal.value;
      EntropyReads(dec, hd, h, b, last, l.tag, LiteralData(l));
  }

  /** The bytes are refused where the block b should be, whatever follows. */
  ghost predicate RefusedAs(dec: Decoder, hd: Head, s: seq<byte>, h: seq<byte>, b: seq<byte>)
    requires HeadOk(hd)
  {
    forall rest: seq<byte>, room: nat :: |b| <= room ==> ReadBlock(dec, hd, s + rest, h, room).Stop?
  }

  /** An entropy block that its decoder refuses. */
  lemma EntropyRefused(dec: Decoder, hd: Head, h: seq<byte>, b: seq<byte>, last: bool, tag: byte, data: seq<byte>)
    requires HeadOk(hd) && |b| <= MAX_BLOCK && 1 + |data| < 0x100_0000
    requires dec(Entropy(tag, data), h, |b|, OffsetBytes(hd), MaxOffset(hd)).Err?
    ensures RefusedAs(dec, hd, EntropyBlock(last, |b|, tag, data), h, b)
  {
    hide ReadBlock, EntropyBlock, MaxOffset;
    forall rest: seq<byte>, room: nat | |b| <= room
      ensures ReadBlock(dec, hd, EntropyBlock(last, |b|, tag, data) + rest, h, room).Stop?
    {
      EntropyRead(dec, hd, h, |b|, last, tag, data, rest, room);
    }
  }

  /** How many bytes n a block of size bytes takes. Without entropy coding, its tokens if they are shorter than the
      block. With it, in the first format, hardly more than any candidate; in the second, its sequence coding if that is
      shorter than both the block and its tokens. */
  predicate Tight(c: Candidates, balanced: bool, v2: bool, size: nat, n: nat) {
    if c.tokens == [] || |c.tokens| >= (if balanced then size + size / 8 else size) then n == 4 + size
    else if !balanced then n == 7 + |c.tokens|
    else if v2 then
      n == (if c.sequences.Some? && |c.sequences.value| + 1 < |c.tokens| && |c.sequences.value| + 4 < size then
              8 + |c.sequences.value|
            else 4 + size)
    else
      n <= 4 + size + 2 && (|c.tokens| < size ==> n <= 7 + |c.tokens| + 2)
      && (c.sequences.Some? ==> n <= 8 + |c.sequences.value| + 2)
      && (c.literal.Some? ==> n <= 12 + |c.literal.value.coded| + |c.literal.value.stripped| + 2)
  }

  lemma WrittenSize(c: Candidates, balanced: bool, v2: bool, b: seq<byte>, last: bool)
    requires 0 < |b| && |b| <= MAX_BLOCK && (v2 ==> balanced && c.literal.None?)
    ensures |Written(c, balanced, v2, b, last)| <= |b| + 6
    ensures Tight(c, balanced, v2, |b|, |Written(c, balanced, v2, b, last)|)
  {
    hide ToBytes;
  }
}
