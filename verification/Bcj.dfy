/** The x86 branch filter: in-place, reversible rewriting of CALL and JMP operands. */
module BranchFilterX86 {
  import opened Arithmetic
  import opened LittleEndian

  /** An operand's top byte is read as a sign extension: only 00 and FF qualify. */
  predicate MsbLike(b: byte) { b == 0x00 || b == 0xFF }

  /** b & 0xFE == 0xE8. */
  predicate IsBranchOpcode(b: byte) { b == 0xE8 || b == 0xE9 }

  /** Rolling record of unconverted opcodes: 4, 2 and 1 stand for one, two and three bytes back. */
  type Mask = m: nat | m < 8

  /** mask >> d, where a gap of more than two bytes clears the record. */
  function Shift(mask: Mask, d: nat): (m: Mask) {
    if d > 2 then 0 else if d == 2 then mask / 2 / 2 else if d == 1 then mask / 2 else mask
  }

  /** (mask >> 1) | 4. */
  function Remember(mask: Mask): (m: Mask) { mask / 2 + 4 }

  /** Does an earlier unconverted opcode forbid converting the opcode at s[0]? */
  predicate Blocked(s: seq<byte>, mask: Mask)
    requires |s| > 4
  {
    mask != 0 && (mask > 4 || mask == 3 || MsbLike(s[mask / 2 + 1]))
  }

  /** 0x100 << 8k. */
  function Span(k: nat): (p: nat)
    requires k < 3
  {
    if k == 0 then 0x100 else if k == 1 then 0x1_0000 else 0x100_0000
  }

  /** v ^ (p - 1) for p = 0x100 << 8k: complements bytes 0 to k. */
  function Flip(v: word, k: nat): (w: word)
    requires k < 3
  {
    var p := Span(k);
    v / p * p + (p - 1 - v % p)
  }

  /** Adds or subtracts the end of the instruction, in 32-bit arithmetic. */
  function Move(v: word, cur: word, encoding: bool): (w: word) {
    (if encoding then v + cur else v - cur) % 0x1_0000_0000
  }

  /** The new operand value, of which only the low 25 bits survive. */
  function Converted(v: word, mask: Mask, cur: word, encoding: bool): (w: word)
    requires mask <= 4
  {
    var v1 := Move(v, cur, encoding);
    if mask == 0 then v1
    else
      var k := mask / 2;
      if MsbLike(ByteOf(v1, k)) then Move(Flip(v1, k), cur, encoding) else v1
  }

  /** The four operand bytes: three low bytes, and bit 24 sign-extended into the fourth. */
  function Operand(v: word): (o: seq<byte>)
    ensures |o| == 4
  {
    [ByteOf(v, 0), ByteOf(v, 1), ByteOf(v, 2), if v / 0x100_0000 % 2 == 1 then 0xFF else 0x00]
  }

  /** End of the five-byte instruction at stream position at. */
  function InstructionEnd(ip: word, at: nat): (cur: word) {
    (ip + 5 + at) % 0x1_0000_0000
  }

  /** Is the byte s[0] an opcode whose operand is to be converted? */
  predicate Converts(s: seq<byte>, mask: Mask)
    requires |s| > 4
  {
    IsBranchOpcode(s[0]) && !Blocked(s, mask) && MsbLike(s[4])
  }

  /** The record one byte on, when the byte at hand is not converted. */
  function Step(opcode: byte, mask: Mask): (m: Mask) {
    if IsBranchOpcode(opcode) then Remember(mask) else mask / 2
  }

  /** The operand bytes after the opcode s[0], converted. */
  function NewOperand(s: seq<byte>, at: nat, mask: Mask, ip: word, encoding: bool): (o: seq<byte>)
    requires |s| > 4 && mask <= 4
    ensures |o| == 4
  {
    Operand(Converted(Word(s[1], s[2], s[3], s[4]), mask, InstructionEnd(ip, at), encoding))
  }

  /** What the filter makes of the bytes from stream position at on. */
  function Filter(s: seq<byte>, at: nat, mask: Mask, ip: word, encoding: bool): (t: seq<byte>)
    ensures |t| == |s|
    decreases |s|
  {
    if |s| <= 4 then s
    else if Converts(s, mask) then
      [s[0]] + NewOperand(s, at, mask, ip, encoding) + Filter(s[5..], at + 5, 0, ip, encoding)
    else [s[0]] + Filter(s[1..], at + 1, Step(s[0], mask), ip, encoding)
  }

  // ---------------------------------------------------------------- the in-place loop

  lemma PlainStep(s: seq<byte>, at: nat, mask: Mask, ip: word, encoding: bool)
    requires |s| > 4 && !IsBranchOpcode(s[0])
    ensures Filter(s, at, mask, ip, encoding) == [s[0]] + Filter(s[1..], at + 1, mask / 2, ip, encoding)
  {
  }

  /** First position from pos on that holds an opcode below limit, else the end of the scan. */
  method Scan(data: array<byte>, pos: nat, ghost mask: Mask, ghost ip: word, ghost encoding: bool) returns (p: nat)
    requires 5 <= data.Length && pos <= data.Length
    ensures pos <= p <= data.Length
    ensures p + 4 < data.Length ==> IsBranchOpcode(data[p])
    ensures data[..p] + Filter(data[p..], p, Shift(mask, p - pos), ip, encoding)
            == data[..pos] + Filter(data[pos..], pos, mask, ip, encoding)
  {
    hide Filter;
    var limit := data.Length - 4;
    p := pos;
    while p < limit && data[p] != 0xE8 && data[p] != 0xE9
      invariant pos <= p <= data.Length
      invariant data[..p] + Filter(data[p..], p, Shift(mask, p - pos), ip, encoding)
                == data[..pos] + Filter(data[pos..], pos, mask, ip, encoding)
    {
      PlainStep(data[p..], p, Shift(mask, p - pos), ip, encoding);
      assert data[p..][1..] == data[p + 1..];
      assert data[..p] + [data[p]] == data[..p + 1];
      p := p + 1;
    }
  }

  /** Rewrites the operand of the opcode at p. */
  method ConvertAt(data: array<byte>, p: nat, mask: Mask, cur: word, encoding: bool)
    requires p + 4 < data.Length && mask <= 4
    modifies data
    ensures data[p + 5..] == old(data[p + 5..])
    ensures data[..p + 5] == old(data[..p + 1])
            + Operand(Converted(Word(old(data[p + 1]), old(data[p + 2]), old(data[p + 3]), old(data[p + 4])),
                                mask, cur, encoding))
  {
    var v := Word(data[p + 1], data[p + 2], data[p + 3], data[p + 4]);
    v := Move(v, cur, encoding);
    if mask != 0 {
      var k := mask / 2;
      if MsbLike(ByteOf(v, k)) {
        v := Flip(v, k);
        v := Move(v, cur, encoding);
      }
    }
    var o := Operand(v);
    data[p + 1], data[p + 2], data[p + 3], data[p + 4] := o[0], o[1], o[2], o[3];
  }

  lemma OpcodeStep(s: seq<byte>, at: nat, mask: Mask, ip: word, encoding: bool)
    requires |s| > 4 && IsBranchOpcode(s[0])
    ensures Filter(s, at, mask, ip, encoding)
            == if Converts(s, mask) then
                 [s[0]] + NewOperand(s, at, mask, ip, encoding) + Filter(s[5..], at + 5, 0, ip, encoding)
               else [s[0]] + Filter(s[1..], at + 1, Remember(mask), ip, encoding)
  {
  }

  /** One round of the loop, at the opcode in place pos. */
  method Round(data: array<byte>, pos: nat, mask: Mask, ip: word, encoding: bool) returns (next: nat, newMask: Mask)
    requires pos + 4 < data.Length && IsBranchOpcode(data[pos])
    modifies data
    ensures pos < next <= data.Length
    ensures forall i :: next <= i < data.Length ==> data[i] == old(data[i])
    ensures data[..next] + Filter(data[next..], next, newMask, ip, encoding)
            == old(data[..pos] + Filter(data[pos..], pos, mask, ip, encoding))
  {
    hide Filter, Operand, Converted, Word;
    ghost var rest := data[pos..];
    OpcodeStep(rest, pos, mask, ip, encoding);
    if mask != 0 && (mask > 4 || mask == 3 || MsbLike(data[pos + (mask / 2 + 1)])) {
      assert Blocked(rest, mask);
      assert data[..pos] + [data[pos]] == data[..pos + 1];
      next, newMask := pos + 1, Remember(mask);
      assert rest[1..] == data[next..];
    } else if MsbLike(data[pos + 4]) {
      assert Converts(rest, mask);
      next, newMask := pos + 5, 0;
      assert rest[5..] == data[next..];
      assert data[..pos] + [data[pos]] == data[..pos + 1];
      ConvertAt(data, pos, mask, InstructionEnd(ip, pos), encoding);
    } else {
      assert data[..pos] + [data[pos]] == data[..pos + 1];
      next, newMask := pos + 1, Remember(mask);
      assert rest[1..] == data[next..];
    }
  }

  /** vv_bcj_x86: the returned count is the position at which the scan ended. */
  method BcjX86(data: array<byte>, ip: word, encoding: bool) returns (done: nat)
    modifies data
    ensures data[..] == Filter(old(data[..]), 0, 0, ip, encoding)
    ensures done <= data.Length
    ensures data.Length < 5 ==> done == 0
    ensures data.Length >= 5 ==> data.Length - 4 <= done
    ensures forall i :: done <= i < data.Length ==> data[i] == old(data[i])
  {
    if data.Length < 5 {
      return 0;
    }
    var pos := 0;
    var mask: Mask := 0;
    assert data[..] == data[0..];
    while true
      invariant pos <= data.Length
      invariant data[..pos] + Filter(data[pos..], pos, mask, ip, encoding) == Filter(old(data[..]), 0, 0, ip, encoding)
      invariant forall i :: pos <= i < data.Length ==> data[i] == old(data[i])
      decreases data.Length - pos
    {
      var p := Scan(data, pos, mask, ip, encoding);
      var d := p - pos;
      pos := p;
      if pos + 4 >= data.Length {
        assert data[..pos] + data[pos..] == data[..];
        return pos;
      }
      mask := Shift(mask, d);
      pos, mask := Round(data, pos, mask, ip, encoding);
    }
  }

  // ---------------------------------------------------------------- reversibility of one operand

  /** Two operand values are stored as the same bytes when they agree in the low 25 bits. */
  predicate SameLow(v: word, w: word) { v % 0x200_0000 == w % 0x200_0000 }

  function WordOf(o: seq<byte>): (w: word)
    requires |o| == 4
  {
    Word(o[0], o[1], o[2], o[3])
  }

  lemma BytesOfLow(v: word, w: word)
    requires SameLow(v, w)
    ensures ByteOf(v, 0) == ByteOf(w, 0) && ByteOf(v, 1) == ByteOf(w, 1) && ByteOf(v, 2) == ByteOf(w, 2)
    ensures v / 0x100_0000 % 2 == w / 0x100_0000 % 2
  {
    var t := ModWitness(v, w, 0x200_0000);
    DivModAdd(w, 0x2_0000 * t, 0x100);
    DivModAdd(w / 0x100, 0x200 * t, 0x100);
    DivModAdd(w, 0x200 * t, 0x1_0000);
    DivModAdd(w / 0x1_0000, 2 * t, 0x100);
    DivModAdd(w, 2 * t, 0x100_0000);
    DivModAdd(w / 0x100_0000, t, 2);
  }

  lemma OperandOfLow(v: word, w: word)
    requires SameLow(v, w)
    ensures Operand(v) == Operand(w)
  {
    BytesOfLow(v, w);
  }

  lemma OperandOfWord(o: seq<byte>)
    requires |o| == 4 && MsbLike(o[3])
    ensures Operand(WordOf(o)) == o
  {
    BytesOfWord(o[0], o[1], o[2], o[3]);
  }

  lemma WordOfOperand(v: word)
    ensures MsbLike(Operand(v)[3]) && SameLow(WordOf(Operand(v)), v)
  {
    var u := WordOf(Operand(v));
    var top := v / 0x100_0000;
    WordOfBytes(v);
    var half := top / 2;
    var t := if top % 2 == 1 then 0x7F - half else -half;
    assert u == v + 0x100_0000 * (Operand(v)[3] as int - top);
    assert u == v + t * 0x200_0000;
    DivModAdd(v, t, 0x200_0000);
  }

  /** Low parts survive moving, and moving back undoes it. */
  lemma MoveLow(v: word, w: word, cur: word, encoding: bool)
    requires SameLow(w, Move(v, cur, encoding))
    ensures SameLow(Move(w, cur, !encoding), v)
  {
    var sum := if encoding then v + cur else v - cur;
    var t := ModWitness(Move(v, cur, encoding), sum, 0x1_0000_0000);
    var u := ModWitness(w, Move(v, cur, encoding), 0x200_0000);
    var back := if encoding then w - cur else w + cur;
    var x := ModWitness(Move(w, cur, !encoding), back, 0x1_0000_0000);
    DivModAdd(v, 0x80 * t + u + 0x80 * x, 0x200_0000);
  }

  lemma MiddleDigit(v: int, a: int)
    requires 0 <= v && 0 < a
    ensures v / a % 0x100 == v % (a * 0x100) / a
  {
    var q, r := v / (a * 0x100), v % (a * 0x100);
    assert v == r + q * 0x100 * a;
    DivModAdd(r, q * 0x100, a);
    DivModUnique(r, a, r / a, r % a);
    assert r / a < 0x100 by {
      if r / a >= 0x100 {
        MulAtLeast(r / a - 0xFF, a);
      }
    }
    DivModUnique(v / a, 0x100, q, r / a);
  }

  lemma ByteInSpan(v: word, k: nat)
    requires k < 3
    ensures ByteOf(v, k) == v % Span(k) / (Span(k) / 0x100)
  {
    MiddleDigit(v, Span(k) / 0x100);
  }

  lemma ComplementByte(v: word, w: word, k: nat)
    requires k < 3 && w % Span(k) == Span(k) - 1 - v % Span(k)
    ensures ByteOf(w, k) == 0xFF - ByteOf(v, k)
  {
    ByteInSpan(v, k);
    ByteInSpan(w, k);
  }

  lemma FlipLow(v: word, w: word, k: nat)
    requires k < 3 && SameLow(w, Flip(v, k))
    ensures SameLow(Flip(w, k), v) && ByteOf(w, k) == 0xFF - ByteOf(v, k)
  {
    var p := Span(k);
    var c := if k == 0 then 0x2_0000 else if k == 1 then 0x200 else 2;
    var t := ModWitness(w, Flip(v, k), 0x200_0000);
    DivModUnique(w, p, v / p + t * c, p - 1 - v % p);
    ComplementByte(v, w, k);
    assert Flip(w, k) == v + t * 0x200_0000;
    DivModAdd(v, t, 0x200_0000);
  }

  lemma Recombine(p: int, a: int, b: int, c: int, e: int)
    ensures (2 * a - b + e * c) * p == 2 * (a * p) - b * p + e * (c * p)
  {
    assert e * c * p == e * (c * p);
  }

  lemma FlipMove(v: word, cur: word, k: nat, encoding: bool)
    requires k < 3
    ensures ByteOf(Move(Flip(Move(v, cur, encoding), k), cur, encoding), k) == 0xFF - ByteOf(v, k)
  {
    var p := Span(k);
    var c := if k == 0 then 0x100_0000 else if k == 1 then 0x1_0000 else 0x100;
    var x := Move(v, cur, encoding);
    var y := Flip(x, k);
    var w := Move(y, cur, encoding);
    var t := ModWitness(x, if encoding then v + cur else v - cur, 0x1_0000_0000);
    var u := ModWitness(w, if encoding then y + cur else y - cur, 0x1_0000_0000);
    assert w == 2 * (x / p * p) + p - 1 - v + (u - t) * 0x1_0000_0000 by {
      assert y == 2 * (x / p * p) + p - 1 - x;
    }
    Recombine(p, x / p, v / p, c, u - t);
    assert c * p == 0x1_0000_0000;
    DivModUnique(w, p, 2 * (x / p) - v / p + (u - t) * c, p - 1 - v % p);
    ComplementByte(v, w, k);
  }

  /** One conversion, undone by the opposite conversion under the same mask. */
  lemma UndoConversion(o: seq<byte>, mask: Mask, cur: word, encoding: bool)
    requires |o| == 4 && mask <= 4 && mask != 3 && MsbLike(o[3])
    requires mask != 0 ==> !MsbLike(o[mask / 2])
    ensures var t := Operand(Converted(WordOf(o), mask, cur, encoding));
            && MsbLike(t[3])
            && (mask != 0 ==> !MsbLike(t[mask / 2]))
            && Operand(Converted(WordOf(t), mask, cur, !encoding)) == o
  {
    var v := WordOf(o);
    var v1 := Move(v, cur, encoding);
    var w := Converted(v, mask, cur, encoding);
    var u := WordOf(Operand(w));
    var x := Move(u, cur, !encoding);
    var k := mask / 2;
    hide Flip, Move, Word, SameLow, ByteOf;
    OperandOfWord(o);
    WordOfOperand(w);
    BytesOfWord(o[0], o[1], o[2], o[3]);
    if mask == 0 || !MsbLike(ByteOf(v1, k)) {
      MoveLow(v, u, cur, encoding);
      BytesOfLow(x, v);
      OperandOfLow(x, v);
    } else {
      FlipMove(v, cur, k, encoding);
      MoveLow(Flip(v1, k), u, cur, encoding);
      FlipLow(v1, x, k);
      MoveLow(v, Flip(x, k), cur, encoding);
      OperandOfLow(Move(Flip(x, k), cur, !encoding), v);
    }
  }

  // ---------------------------------------------------------------- reversibility of the filter

  /** Where the top operand byte of each opcode recorded in mask sits, and whether t agrees with s there. */
  predicate SameWatch(s: seq<byte>, t: seq<byte>, mask: Mask)
    requires |s| == |t|
  {
    && (|s| > 0 ==> s[0] == t[0])
    && (mask % 2 == 1 && |s| > 1 ==> MsbLike(s[1]) == MsbLike(t[1]))
    && (mask / 2 % 2 == 1 && |s| > 2 ==> MsbLike(s[2]) == MsbLike(t[2]))
    && (mask >= 4 && |s| > 3 ==> MsbLike(s[3]) == MsbLike(t[3]))
  }

  /** What is to be shown of one run and its undoing. */
  ghost predicate Undone(s: seq<byte>, at: nat, mask: Mask, ip: word, encoding: bool) {
    var t := Filter(s, at, mask, ip, encoding);
    Filter(t, at, mask, ip, !encoding) == s && SameWatch(s, t, mask)
  }

  lemma ConvertUndone(s: seq<byte>, at: nat, mask: Mask, ip: word, encoding: bool)
    requires |s| > 4 && Converts(s, mask) && Undone(s[5..], at + 5, 0, ip, encoding)
    ensures Undone(s, at, mask, ip, encoding)
  {
    hide Operand, Converted, Word, InstructionEnd;
    var t := Filter(s, at, mask, ip, encoding);
    var o := NewOperand(s, at, mask, ip, encoding);
    UndoConversion([s[1], s[2], s[3], s[4]], mask, InstructionEnd(ip, at), encoding);
    assert t == [s[0], o[0], o[1], o[2], o[3]] + Filter(s[5..], at + 5, 0, ip, encoding);
    assert t[5..] == Filter(s[5..], at + 5, 0, ip, encoding);
    assert Converts(t, mask);
    assert s == [s[0], s[1], s[2], s[3], s[4]] + s[5..];
  }

  lemma LeaveUndone(s: seq<byte>, at: nat, mask: Mask, ip: word, encoding: bool)
    requires |s| > 4 && !Converts(s, mask) && Undone(s[1..], at + 1, Step(s[0], mask), ip, encoding)
    ensures Undone(s, at, mask, ip, encoding)
  {
    hide Operand, Converted, Word, InstructionEnd, NewOperand;
    var t := Filter(s, at, mask, ip, encoding);
    assert t[1..] == Filter(s[1..], at + 1, Step(s[0], mask), ip, encoding);
    assert !Converts(t, mask);
    assert s == [s[0]] + s[1..];
  }

  /** The filter in either direction is undone by the filter in the other direction, from any state:
      both passes see the same opcodes, hold the same mask and decide alike at each. */
  lemma {:induction false} FilterUndone(s: seq<byte>, at: nat, mask: Mask, ip: word, encoding: bool)
    ensures Undone(s, at, mask, ip, encoding)
    decreases |s|
  {
    if |s| > 4 {
      hide Filter, Undone;
      if Converts(s, mask) {
        FilterUndone(s[5..], at + 5, 0, ip, encoding);
        ConvertUndone(s, at, mask, ip, encoding);
      } else {
        FilterUndone(s[1..], at + 1, Step(s[0], mask), ip, encoding);
        LeaveUndone(s, at, mask, ip, encoding);
      }
    }
  }

  /** Running vv_bcj_x86 forward and then inverse, or inverse and then forward, restores every byte array. */
  lemma RoundTrip(s: seq<byte>, ip: word, encoding: bool)
    ensures Filter(Filter(s, 0, 0, ip, encoding), 0, 0, ip, !encoding) == s
  {
    FilterUndone(s, 0, 0, ip, encoding);
  }

  /** The same round trip on one array, in place. */
  method ThereAndBack(data: array<byte>, ip: word)
    modifies data
    ensures data[..] == old(data[..])
  {
    RoundTrip(data[..], ip, true);
    var there := BcjX86(data, ip, true);
    var back := BcjX86(data, ip, false);
  }

  // ---------------------------------------------------------------- what a conversion means

  lemma WrapLow(x: int)
    ensures x % 0x1_0000_0000 % 0x200_0000 == x % 0x200_0000
  {
    var q := x / 0x1_0000_0000;
    assert x == x % 0x1_0000_0000 + 0x80 * q * 0x200_0000;
    DivModAdd(x % 0x1_0000_0000, 0x80 * q, 0x200_0000);
  }

  lemma SameOperand(v: word, w: word)
    ensures Operand(v) == Operand(w) <==> SameLow(v, w)
  {
    hide Operand, Word;
    WordOfOperand(v);
    WordOfOperand(w);
    if SameLow(v, w) {
      OperandOfLow(v, w);
    }
  }

  /** Calls from different places get the same bytes exactly when they reach the same target, up to 25 bits. */
  lemma SameTarget(o1: seq<byte>, cur1: word, o2: seq<byte>, cur2: word)
    requires |o1| == |o2| == 4
    ensures Operand(Converted(WordOf(o1), 0, cur1, true)) == Operand(Converted(WordOf(o2), 0, cur2, true))
            <==> (WordOf(o1) + cur1) % 0x200_0000 == (WordOf(o2) + cur2) % 0x200_0000
  {
    hide Operand, Word, WordOf;
    WrapLow(WordOf(o1) + cur1);
    WrapLow(WordOf(o2) + cur2);
    SameOperand(Converted(WordOf(o1), 0, cur1, true), Converted(WordOf(o2), 0, cur2, true));
  }

  /** The first opcode of a buffer, given a sign-like operand, gets displacement plus position as its operand. */
  lemma {:induction false} FirstBranch(s: seq<byte>, at: nat, p: nat, ip: word, encoding: bool)
    requires p + 4 < |s| && IsBranchOpcode(s[p]) && MsbLike(s[p + 4])
    requires forall i :: 0 <= i < p ==> !IsBranchOpcode(s[i])
    ensures Filter(s, at, 0, ip, encoding)
            == s[..p + 1]
               + Operand(Move(Word(s[p + 1], s[p + 2], s[p + 3], s[p + 4]), InstructionEnd(ip, at + p), encoding))
               + Filter(s[p + 5..], at + p + 5, 0, ip, encoding)
    decreases p
  {
    hide Operand, Move, Word, InstructionEnd, Filter;
    if p == 0 {
      OpcodeStep(s, at, 0, ip, encoding);
    } else {
      PlainStep(s, at, 0, ip, encoding);
      FirstBranch(s[1..], at + 1, p - 1, ip, encoding);
      assert s[1..][p - 1 + 5..] == s[p + 5..];
      assert s[..p + 1] == [s[0]] + s[1..][..p];
    }
  }
}
