/** Code tables of the Huffman coder, and what looking bits up in them finds. */
module HuffTables {
  import opened Arithmetic
  import opened Bits
  import opened HuffLengths
  import opened HuffCodes

  const DECODE_BITS: nat := 12
  const TABLE_SIZE: nat := 4096

  predicate Nibbles(lens: seq<nat>) { |lens| == SYMBOLS && forall s :: 0 <= s < SYMBOLS ==> lens[s] <= MAX_LEN }

  predicate Limited(lens: seq<nat>) { forall s :: 0 <= s < |lens| ==> lens[s] <= MAX_LEN }

  // ---------------------------------------------------------------- assignment

  /** bl_count. */
  method CountByLength(lens: seq<nat>) returns (bl: seq<nat>)
    requires Limited(lens)
    ensures |bl| == MAX_LEN + 1 && forall l :: 0 <= l <= MAX_LEN ==> bl[l] == BlCount(lens, l)
  {
    bl := seq(MAX_LEN + 1, _ => 0);
    for i := 0 to |lens|
      invariant |bl| == MAX_LEN + 1 && bl[0] == 0 && forall l :: 1 <= l <= MAX_LEN ==> bl[l] == CountLen(lens, l, i)
    {
      if lens[i] > 0 {
        bl := bl[lens[i] := bl[lens[i]] + 1];
      }
    }
  }

  /** next_code. */
  method FirstCodes(lens: seq<nat>, bl: seq<nat>) returns (next: seq<nat>)
    requires |bl| == MAX_LEN + 1 && forall l :: 0 <= l <= MAX_LEN ==> bl[l] == BlCount(lens, l)
    ensures |next| == MAX_LEN + 1 && forall l :: 0 <= l <= MAX_LEN ==> next[l] == NextCode(lens, l)
  {
    hide BlCount;
    next := [0];
    var code := 0;
    for l := 1 to MAX_LEN + 1
      invariant |next| == l && code == next[l - 1] && forall k :: 0 <= k < l ==> next[k] == NextCode(lens, k)
    {
      code := 2 * (code + bl[l - 1]) % 0x1_0000;
      next := next + [code];
    }
  }

  /** The next code of length l when the symbols below i have theirs. */
  function NextAt(lens: seq<nat>, l: nat, i: nat): (c: nat)
    requires i <= |lens|
  {
    (NextCode(lens, l) + CountLen(lens, l, i)) % 0x1_0000
  }

  lemma NextAtStep(lens: seq<nat>, l: nat, i: nat)
    requires i < |lens|
    ensures NextAt(lens, l, i + 1) == if lens[i] == l then (NextAt(lens, l, i) + 1) % 0x1_0000 else NextAt(lens, l, i)
    ensures lens[i] > 0 ==> Canon(lens, i) == NextAt(lens, lens[i], i)
  {
    hide NextCode;
    var x := NextCode(lens, l) + CountLen(lens, l, i);
    DivModAdd(x % 0x1_0000 + 1, x / 0x1_0000, 0x1_0000);
  }

  lemma NextAtStart(lens: seq<nat>, l: nat)
    ensures NextAt(lens, l, 0) == NextCode(lens, l)
  {
    hide NextCode;
  }

  /** assign_canonical_codes. */
  method AssignCanonicalCodes(lens: seq<nat>) returns (codes: seq<nat>)
    requires Limited(lens)
    ensures |codes| == |lens| && forall s :: 0 <= s < |lens| ==> codes[s] == Canon(lens, s)
    ensures Sound(lens) ==> InSequence(lens, codes)
  {
    hide NextAt, NextCode, BlCount, Sound, InSequence;
    var bl := CountByLength(lens);
    var next := FirstCodes(lens, bl);
    codes := [];
    forall l | 1 <= l <= MAX_LEN ensures next[l] == NextAt(lens, l, 0) {
      NextAtStart(lens, l);
    }
    for i := 0 to |lens|
      invariant |next| == MAX_LEN + 1 && |codes| == i && forall s :: 0 <= s < i ==> codes[s] == Canon(lens, s)
      invariant forall l :: 1 <= l <= MAX_LEN ==> next[l] == NextAt(lens, l, i)
    {
      forall l | 1 <= l <= MAX_LEN
        ensures NextAt(lens, l, i + 1)
                == if lens[i] == l then (NextAt(lens, l, i) + 1) % 0x1_0000 else NextAt(lens, l, i)
      {
        NextAtStep(lens, l, i);
      }
      NextAtStep(lens, lens[i], i);
      var l := lens[i];
      if l > 0 {
        codes := codes + [next[l]];
        next := next[l := (next[l] + 1) % 0x1_0000];
      } else {
        codes := codes + [0];
      }
    }
    if Sound(lens) {
      CanonsInSequence(lens, codes);
    }
  }

  /** reverse_bits. */
  method ReverseBits(code: nat, len: nat) returns (rev: nat)
    ensures rev == Rev(code, len)
  {
    rev := 0;
    var c := code;
    for i := 0 to len
      invariant Shl(rev, len - i) + Rev(c, len - i) == Rev(code, len)
    {
      MoveBit(rev, c, len - i);
      rev := 2 * rev + c % 2;
      c := c / 2;
    }
    ShlStep(rev, 0);
  }

  lemma MoveBit(rev: nat, c: nat, n: nat)
    requires n > 0
    ensures Shl(rev, n) + Rev(c, n) == Shl(2 * rev + c % 2, n - 1) + Rev(c / 2, n - 1)
  {
    var w := Pow2(n - 1);
    Associate(rev, 2, w);
    Distribute(w, 2 * rev, c % 2);
  }

  /** build_enc_table's codes. */
  method EncCodes(lens: seq<nat>) returns (codes: seq<nat>)
    requires Limited(lens)
    ensures |codes| == |lens| && forall s :: 0 <= s < |lens| ==> codes[s] == Code(lens, s)
  {
    hide Canon, Sound, InSequence;
    var canonical := AssignCanonicalCodes(lens);
    codes := [];
    for i := 0 to |lens|
      invariant |codes| == i && forall s :: 0 <= s < i ==> codes[s] == Code(lens, s)
    {
      if lens[i] > 0 {
        var rev := ReverseBits(canonical[i], lens[i]);
        codes := codes + [rev];
      } else {
        codes := codes + [0];
      }
    }
  }

  // ---------------------------------------------------------------- looking up

  /** A fast table entry; length 0 means none. */
  datatype Slot = Slot(sym: nat, len: nat)

  predicate IsFast(lens: seq<nat>, s: nat, v: nat)
    requires s < |lens|
  {
    lens[s] <= DECODE_BITS && StartsWith(lens, s, v)
  }

  /** The last symbol below n with a short code that v starts with. */
  function Fast(lens: seq<nat>, v: nat, n: nat): (e: Slot)
    requires n <= |lens|
    ensures e.len > 0 ==> e.sym < n && e.len == lens[e.sym] && IsFast(lens, e.sym, v)
    ensures e.len == 0 ==> e == Slot(0, 0) && forall s :: 0 <= s < n ==> !IsFast(lens, s, v)
  {
    if n == 0 then Slot(0, 0)
    else if IsFast(lens, n - 1, v) then Slot(n - 1, lens[n - 1])
    else Fast(lens, v, n - 1)
  }

  predicate IsSlow(lens: seq<nat>, s: nat, v: nat, bits: nat)
    requires s < |lens|
  {
    DECODE_BITS < lens[s] <= bits && StartsWith(lens, s, v)
  }

  datatype Got = Got(sym: nat, len: nat) | NoCode

  /** The first symbol from s on with a long code that the bits v start with. */
  function FirstSlow(lens: seq<nat>, v: nat, bits: nat, s: nat): (g: Got)
    requires s <= |lens|
    ensures g.Got? ==> s <= g.sym < |lens| && g.len == lens[g.sym] && IsSlow(lens, g.sym, v, bits)
    ensures g.NoCode? ==> forall t :: s <= t < |lens| ==> !IsSlow(lens, t, v, bits)
    decreases |lens| - s
  {
    if s == |lens| then NoCode
    else if IsSlow(lens, s, v, bits) then Got(s, lens[s])
    else FirstSlow(lens, v, bits, s + 1)
  }

  /** One symbol off the front of the bits v, of which there are so many. */
  function FindCode(lens: seq<nat>, v: nat, bits: nat): (g: Got)
    ensures g.Got? ==> g.sym < |lens| && 0 < g.len == lens[g.sym] <= bits
  {
    var e := Fast(lens, v % TABLE_SIZE, |lens|);
    if e.len == 0 then FirstSlow(lens, v, bits, 0) else if bits < e.len then NoCode else Got(e.sym, e.len)
  }

  lemma TableBits()
    ensures Pow2(DECODE_BITS) == TABLE_SIZE
  {
    Pow2Eight(4);
    assert Pow2(4) == 16;
  }

  /** A short code only depends on the bits a table index has. */
  lemma PeekEnough(lens: seq<nat>, s: nat, v: nat)
    requires s < |lens| && lens[s] <= DECODE_BITS
    ensures StartsWith(lens, s, v % TABLE_SIZE) <==> StartsWith(lens, s, v)
  {
    TableBits();
    LowOfLow(v, lens[s], DECODE_BITS - lens[s]);
  }

  /** In a sound code, bits that start with the code of s are read as s. */
  lemma FindsCode(lens: seq<nat>, s: nat, v: nat, bits: nat)
    requires Sound(lens) && s < |lens| && StartsWith(lens, s, v) && lens[s] <= bits
    ensures FindCode(lens, v, bits) == Got(s, lens[s])
  {
    hide Sound, StartsWith;
    HasLength(lens, s, v);
    var e := Fast(lens, v % TABLE_SIZE, |lens|);
    if e.len > 0 {
      PeekEnough(lens, e.sym, v);
      PrefixFree(lens, s, e.sym, v);
    } else if lens[s] <= DECODE_BITS {
      assert !IsFast(lens, s, v % TABLE_SIZE);
      PeekEnough(lens, s, v);
      assert false;
    } else {
      assert IsSlow(lens, s, v, bits);
      PrefixFree(lens, s, FirstSlow(lens, v, bits, 0).sym, v);
    }
  }

  lemma HasLength(lens: seq<nat>, s: nat, v: nat)
    requires s < |lens| && StartsWith(lens, s, v)
    ensures lens[s] > 0
  {
  }

  // ---------------------------------------------------------------- the decode table

  /** A code too long for the table. */
  datatype Slow = Slow(code: nat, len: nat, sym: nat)

  /** The long codes of the symbols from s on, in symbol order. */
  function SlowList(lens: seq<nat>, s: nat): (l: seq<Slow>)
    requires s <= |lens|
    decreases |lens| - s
  {
    if s == |lens| then []
    else (if lens[s] > DECODE_BITS then [Slow(Code(lens, s), lens[s], s)] else []) + SlowList(lens, s + 1)
  }

  lemma SlowUnfold(lens: seq<nat>, s: nat, slow: seq<Slow>)
    requires s < |lens|
    ensures slow + SlowList(lens, s)
            == slow + (if lens[s] > DECODE_BITS then [Slow(Code(lens, s), lens[s], s)] else []) + SlowList(lens, s + 1)
  {
    hide Code;
  }

  lemma SlowEnds(lens: seq<nat>)
    ensures SlowList(lens, |lens|) == []
  {
  }

  predicate Hit(e: Slow, v: nat, bits: nat) { bits >= e.len && v % Pow2(e.len) == e.code }

  /** The first hit of the linear scan. */
  function Scan(l: seq<Slow>, v: nat, bits: nat): (g: Got) {
    if l == [] then NoCode else if Hit(l[0], v, bits) then Got(l[0].sym, l[0].len) else Scan(l[1..], v, bits)
  }

  lemma {:induction false} ScanFinds(lens: seq<nat>, v: nat, bits: nat, s: nat)
    requires s <= |lens|
    ensures Scan(SlowList(lens, s), v, bits) == FirstSlow(lens, v, bits, s)
    decreases |lens| - s
  {
    hide Code, Pow2;
    if s < |lens| {
      ScanFinds(lens, v, bits, s + 1);
      var rest := SlowList(lens, s + 1);
      if lens[s] > DECODE_BITS {
        assert ([Slow(Code(lens, s), lens[s], s)] + rest)[1..] == rest;
      } else {
        assert [] + rest == rest;
      }
    }
  }

  ghost predicate TableUpTo(lens: seq<nat>, table: seq<Slot>, n: nat) {
    n <= |lens| && |table| == TABLE_SIZE && forall v :: 0 <= v < TABLE_SIZE ==> table[v] == Fast(lens, v, n)
  }

  /** Fills the entries whose low bits are the code of one symbol. */
  method FillCode(lens: seq<nat>, table: array<Slot>, s: nat, rev: nat)
    requires s < |lens| && 0 < lens[s] <= DECODE_BITS && rev == Code(lens, s) && TableUpTo(lens, table[..], s)
    modifies table
    ensures TableUpTo(lens, table[..], s + 1)
  {
    hide Code, Pow2, Fast;
    var len := lens[s];
    var w, fill := Pow2(len), Pow2(DECODE_BITS - len);
    TableBits();
    Pow2Add(len, DECODE_BITS - len);
    for j := 0 to fill
      invariant table.Length == TABLE_SIZE
      invariant forall v :: 0 <= v < TABLE_SIZE ==>
        table[v] == if v % w == rev && v / w < j then Slot(s, len) else Fast(lens, v, s)
    {
      FillIndex(rev, j, w, fill);
      var idx := rev + j * w;
      table[idx] := Slot(s, len);
      forall v | 0 <= v < TABLE_SIZE && v % w == rev && v / w == j ensures v == idx {
        assert v == v / w * w + v % w;
      }
    }
    forall v | 0 <= v < TABLE_SIZE ensures table[v] == Fast(lens, v, s + 1) {
      QuotientBound(v, w, fill);
      FastStep(lens, v, s);
    }
  }

  lemma FillIndex(rev: nat, j: nat, w: nat, fill: nat)
    requires rev < w && j < fill && w * fill == TABLE_SIZE
    ensures rev + j * w < TABLE_SIZE && (rev + j * w) % w == rev && (rev + j * w) / w == j
  {
    DivModUnique(rev + j * w, w, j, rev);
    MulMonotone(w, j + 1, fill);
    Distribute(w, j, 1);
  }

  lemma FastStep(lens: seq<nat>, v: nat, s: nat)
    requires s < |lens| && 0 < lens[s] <= DECODE_BITS
    ensures Fast(lens, v, s + 1) == if v % Pow2(lens[s]) == Code(lens, s) then Slot(s, lens[s]) else Fast(lens, v, s)
  {
  }

  /** build_dec_table. */
  method BuildDecTable(lens: seq<nat>, table: array<Slot>) returns (slow: seq<Slow>)
    requires Nibbles(lens) && table.Length == TABLE_SIZE
    modifies table
    ensures TableUpTo(lens, table[..], SYMBOLS) && slow == SlowList(lens, 0)
  {
    hide Canon, StartsWith, SlowList, Sound, InSequence;
    var canonical := AssignCanonicalCodes(lens);
    forall v | 0 <= v < TABLE_SIZE { table[v] := Slot(0, 0); }
    slow := [];
    SlowEnds(lens);
    for s := 0 to SYMBOLS
      invariant TableUpTo(lens, table[..], s) && slow + SlowList(lens, s) == SlowList(lens, 0)
    {
      var len := lens[s];
      SlowUnfold(lens, s, slow);
      if len > 0 {
        var rev := ReverseBits(canonical[s], len);
        if len <= DECODE_BITS {
          FillCode(lens, table, s, rev);
        } else {
          slow := slow + [Slow(rev, len, s)];
          NotFast(lens, table[..], s);
        }
      } else {
        NotFast(lens, table[..], s);
      }
    }
  }

  lemma NotFast(lens: seq<nat>, table: seq<Slot>, s: nat)
    requires TableUpTo(lens, table, s) && s < |lens| && (lens[s] == 0 || lens[s] > DECODE_BITS)
    ensures TableUpTo(lens, table, s + 1)
  {
  }

  /** The linear scan over the long codes. */
  method ScanSlow(lens: seq<nat>, slow: seq<Slow>, v: nat, bits: nat) returns (g: Got)
    requires slow == SlowList(lens, 0)
    ensures g == FirstSlow(lens, v, bits, 0)
  {
    hide SlowList;
    ScanFinds(lens, v, bits, 0);
    assert slow[0..] == slow;
    for i := 0 to |slow|
      invariant Scan(slow[i..], v, bits) == Scan(slow, v, bits)
    {
      assert slow[i..][1..] == slow[i + 1..];
      if Hit(slow[i], v, bits) {
        return Got(slow[i].sym, slow[i].len);
      }
    }
    return NoCode;
  }
}
