/** Bytes, and 32-bit words as the loads and stores of the filters see them. */
module LittleEndian {
  import opened Arithmetic

  type byte = b: int | 0 <= b < 0x100
  type word = w: int | 0 <= w < 0x1_0000_0000

  /** Bytes stored one after another. */
  method Append(dst: array<byte>, at: nat, s: seq<byte>) returns (op: nat)
    requires at + |s| <= dst.Length
    modifies dst
    ensures op == at + |s| && dst[..op] == old(dst[..at]) + s
  {
    forall i | 0 <= i < |s| {
      dst[at + i] := s[i];
    }
    op := at + |s|;
  }

  function Word(a: byte, b: byte, c: byte, d: byte): (w: word) {
    a + 0x100 * b + 0x1_0000 * c + 0x100_0000 * d
  }

  /** Byte number k of v, the least significant first: (v >> 8k) & 0xFF. */
  function ByteOf(v: word, k: nat): (b: byte)
    requires k < 4
  {
    if k == 0 then v % 0x100
    else if k == 1 then v / 0x100 % 0x100
    else if k == 2 then v / 0x1_0000 % 0x100
    else v / 0x100_0000
  }

  lemma BytesOfWord(a: byte, b: byte, c: byte, d: byte)
    ensures var v := Word(a, b, c, d);
            ByteOf(v, 0) == a && ByteOf(v, 1) == b && ByteOf(v, 2) == c && ByteOf(v, 3) == d
  {
    var v := Word(a, b, c, d);
    DivModUnique(v, 0x100, b + 0x100 * c + 0x1_0000 * d, a);
    DivModUnique(v / 0x100, 0x100, c + 0x100 * d, b);
    DivModUnique(v, 0x1_0000, c + 0x100 * d, a + 0x100 * b);
    DivModUnique(v / 0x1_0000, 0x100, d, c);
    DivModUnique(v, 0x100_0000, d, a + 0x100 * b + 0x1_0000 * c);
  }

  lemma WordOfBytes(v: word)
    ensures Word(ByteOf(v, 0), ByteOf(v, 1), ByteOf(v, 2), ByteOf(v, 3)) == v
  {
    assert v / 0x100 == 0x100 * (v / 0x1_0000) + v / 0x100 % 0x100;
    assert v / 0x1_0000 == 0x100 * (v / 0x100_0000) + v / 0x1_0000 % 0x100;
  }
}
