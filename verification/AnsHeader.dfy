/** The adaptive table header: single, sparse, dense, and the legacy layout on reading. */
module AnsHeader {
  import opened LittleEndian
  import opened AnsTable

  const HDR_SINGLE: byte := 1
  const HDR_SPARSE: byte := 2
  const HDR_DENSE: byte := 3
  const SPARSE_THRESHOLD: nat := 64

  function Lo(f: nat): (b: byte) { f % 0x100 }

  function Hi(f: nat): (b: byte) { f / 0x100 % 0x100 }

  function Freq(lo: byte, hi: byte): (f: nat) { lo + 0x100 * hi }

  function Active(norm: seq<nat>, n: nat): (c: nat)
    requires n <= |norm|
    ensures c <= n
  {
    if n == 0 then 0 else Active(norm, n - 1) + (if norm[n - 1] > 0 then 1 else 0)
  }

  /** The last symbol below n with a frequency, or 0. */
  function LastActive(norm: seq<nat>, n: nat): (m: nat)
    requires n <= |norm|
    ensures Active(norm, n) > 0 ==> m < n && norm[m] > 0
    ensures forall i :: m < i < n ==> norm[i] == 0
  {
    if n == 0 then 0 else if norm[n - 1] > 0 then n - 1 else LastActive(norm, n - 1)
  }

  /** Triples of symbol and frequency for the symbols below n. */
  function SparseList(norm: seq<nat>, n: nat): (d: seq<byte>)
    requires n <= |norm| <= NSYM
    ensures |d| == 3 * Active(norm, n)
  {
    if n == 0 then []
    else SparseList(norm, n - 1) + (if norm[n - 1] > 0 then [n - 1, Lo(norm[n - 1]), Hi(norm[n - 1])] else [])
  }

  function DenseList(norm: seq<nat>, n: nat): (d: seq<byte>)
    requires n <= |norm|
    ensures |d| == 2 * n
  {
    if n == 0 then [] else DenseList(norm, n - 1) + [Lo(norm[n - 1]), Hi(norm[n - 1])]
  }

  /** What write_hdr_v2 stores. */
  function Header(norm: seq<nat>): (d: seq<byte>)
    requires |norm| == NSYM && Active(norm, NSYM) > 0
    ensures |d| >= 2
  {
    var active, last := Active(norm, NSYM), LastActive(norm, NSYM);
    if active == 1 then [HDR_SINGLE, last]
    else if active <= SPARSE_THRESHOLD then [HDR_SPARSE, active] + SparseList(norm, NSYM)
    else [HDR_DENSE, last] + DenseList(norm, last + 1)
  }

  function Zeros(): (norm: seq<nat>)
    ensures |norm| == NSYM && forall i :: 0 <= i < NSYM ==> norm[i] == 0
  {
    seq(NSYM, _ => 0)
  }

  function ReadSparse(d: seq<byte>, count: nat): (norm: seq<nat>)
    requires |d| >= 3 * count
    ensures |norm| == NSYM
  {
    if count == 0 then Zeros()
    else
      var p := 3 * (count - 1);
      ReadSparse(d, count - 1)[d[p] := Freq(d[p + 1], d[p + 2])]
  }

  function ReadDense(d: seq<byte>, count: nat): (norm: seq<nat>)
    requires |d| >= 2 * count && count <= NSYM
    ensures |norm| == NSYM
  {
    if count == 0 then Zeros()
    else ReadDense(d, count - 1)[count - 1 := Freq(d[2 * (count - 1)], d[2 * (count - 1) + 1])]
  }

  datatype Table = Table(norm: seq<nat>, size: nat)

  /** What read_hdr_v2 makes of a header; size 0 means failure. */
  function Parse(s: seq<byte>): (t: Table)
    ensures |t.norm| == NSYM && t.size <= |s|
  {
    if |s| < 1 then Table(Zeros(), 0)
    else if s[0] == HDR_SINGLE then
      if |s| < 2 then Table(Zeros(), 0) else Table(Zeros()[s[1] := ANS_L], 2)
    else if s[0] == HDR_SPARSE then
      if |s| < 2 || 2 + 3 * s[1] as int > |s| then Table(Zeros(), 0)
      else Table(ReadSparse(s[2..], s[1]), 2 + 3 * s[1] as int)
    else if s[0] == HDR_DENSE then
      if |s| < 2 || 2 + 2 * (s[1] as int + 1) > |s| then Table(Zeros(), 0)
      else Table(ReadDense(s[2..], s[1] as int + 1), 2 + 2 * (s[1] as int + 1))
    else if 1 + 2 * (s[0] as int + 1) <= |s| then Table(ReadDense(s[1..], s[0] as int + 1), 1 + 2 * (s[0] as int + 1))
    else Table(Zeros(), 0)
  }

  // ---------------------------------------------------------------- reading back what was written

  lemma TwoBytes(f: nat)
    requires f <= ANS_L
    ensures Freq(Lo(f), Hi(f)) == f
  {
  }

  /** The table with everything from n on cleared. */
  function Below(norm: seq<nat>, n: nat): (m: seq<nat>)
    requires |norm| == NSYM && n <= NSYM
    ensures |m| == NSYM && forall i :: 0 <= i < NSYM ==> m[i] == if i < n then norm[i] else 0
  {
    seq(NSYM, i requires 0 <= i < NSYM => if i < n then norm[i] else 0)
  }

  lemma LastTriple(norm: seq<nat>, n: nat, d: seq<byte>)
    requires 0 < n <= |norm| == NSYM && 0 < norm[n - 1] <= ANS_L
    requires |d| >= 3 * Active(norm, n) && d[..3 * Active(norm, n)] == SparseList(norm, n)
    ensures var p := 3 * Active(norm, n - 1);
            Active(norm, n) == Active(norm, n - 1) + 1 && d[p] == n - 1 && Freq(d[p + 1], d[p + 2]) == norm[n - 1]
  {
    hide Freq, Lo, Hi;
    var p, list := 3 * Active(norm, n - 1), SparseList(norm, n);
    TwoBytes(norm[n - 1]);
    assert list[p..] == [n - 1, Lo(norm[n - 1]), Hi(norm[n - 1])];
    assert d[p] == list[p..][0] && d[p + 1] == list[p..][1] && d[p + 2] == list[p..][2];
  }

  lemma ListPrefix(norm: seq<nat>, n: nat, d: seq<byte>)
    requires 0 < n <= |norm| <= NSYM
    requires |d| >= 3 * Active(norm, n) && d[..3 * Active(norm, n)] == SparseList(norm, n)
    ensures var c := Active(norm, n - 1); c <= Active(norm, n) && d[..3 * c] == SparseList(norm, n - 1)
  {
    var c := Active(norm, n - 1);
    assert d[..3 * c] == d[..3 * Active(norm, n)][..3 * c];
  }

  lemma BelowNone(norm: seq<nat>)
    requires |norm| == NSYM
    ensures Below(norm, 0) == Zeros()
  {
  }

  lemma BelowStep(norm: seq<nat>, n: nat)
    requires |norm| == NSYM && 0 < n <= NSYM
    ensures Below(norm, n) == Below(norm, n - 1)[n - 1 := norm[n - 1]]
    ensures norm[n - 1] == 0 ==> Below(norm, n) == Below(norm, n - 1)
  {
  }

  lemma {:induction false} ReadSparseBack(norm: seq<nat>, n: nat, d: seq<byte>)
    requires |norm| == NSYM && n <= NSYM && forall i :: 0 <= i < NSYM ==> norm[i] <= ANS_L
    requires |d| >= 3 * Active(norm, n) && d[..3 * Active(norm, n)] == SparseList(norm, n)
    ensures ReadSparse(d, Active(norm, n)) == Below(norm, n)
  {
    hide SparseList, Freq, Below, Zeros;
    if n == 0 {
      BelowNone(norm);
    } else {
      ListPrefix(norm, n, d);
      ReadSparseBack(norm, n - 1, d);
      BelowStep(norm, n);
      if norm[n - 1] > 0 {
        LastTriple(norm, n, d);
      }
    }
  }

  lemma {:induction false} ReadDenseBack(norm: seq<nat>, n: nat, d: seq<byte>)
    requires |norm| == NSYM && n <= NSYM && forall i :: 0 <= i < NSYM ==> norm[i] <= ANS_L
    requires |d| >= 2 * n && d[..2 * n] == DenseList(norm, n)
    ensures ReadDense(d, n) == Below(norm, n)
  {
    if n == 0 {
      assert Zeros() == Below(norm, 0);
    } else {
      assert DenseList(norm, n)[..2 * (n - 1)] == DenseList(norm, n - 1);
      assert d[..2 * (n - 1)] == d[..2 * n][..2 * (n - 1)];
      ReadDenseBack(norm, n - 1, d);
      TwoBytes(norm[n - 1]);
      assert forall i :: 2 * (n - 1) <= i < 2 * n ==> d[i] == d[..2 * n][i] == DenseList(norm, n)[i];
      assert Below(norm, n) == Below(norm, n - 1)[n - 1 := norm[n - 1]];
    }
  }

  lemma {:induction false} NoneActive(norm: seq<nat>, n: nat)
    requires n <= |norm| && Active(norm, n) == 0
    ensures Cum(norm, n) == 0 && forall i :: 0 <= i < n ==> norm[i] == 0
  {
    if n > 0 {
      NoneActive(norm, n - 1);
    }
  }

  /** A lone active symbol has all the frequency. */
  lemma {:induction false} LoneActive(norm: seq<nat>, n: nat)
    requires n <= |norm| && Active(norm, n) == 1
    ensures Cum(norm, n) == norm[LastActive(norm, n)]
    ensures forall i :: 0 <= i < n && i != LastActive(norm, n) ==> norm[i] == 0
  {
    if norm[n - 1] > 0 {
      NoneActive(norm, n - 1);
    } else {
      LoneActive(norm, n - 1);
    }
  }

  lemma TableActive(norm: seq<nat>)
    requires IsTable(norm)
    ensures Active(norm, NSYM) > 0 && forall i :: 0 <= i < NSYM ==> norm[i] <= ANS_L
  {
    if Active(norm, NSYM) == 0 {
      NoneActive(norm, NSYM);
    }
    forall i | 0 <= i < NSYM ensures norm[i] <= ANS_L {
      FreqBound(norm, i);
    }
  }

  lemma SingleBack(norm: seq<nat>, tail: seq<byte>)
    requires IsTable(norm) && Active(norm, NSYM) == 1
    ensures Parse([HDR_SINGLE, LastActive(norm, NSYM)] + tail) == Table(norm, 2)
  {
    LoneActive(norm, NSYM);
    assert Zeros()[LastActive(norm, NSYM) := ANS_L] == norm;
  }

  lemma SparseBack(norm: seq<nat>, tail: seq<byte>)
    requires IsTable(norm) && 1 < Active(norm, NSYM) <= SPARSE_THRESHOLD
    ensures var h := [HDR_SPARSE, Active(norm, NSYM)] + SparseList(norm, NSYM);
            Parse(h + tail) == Table(norm, |h|)
  {
    assert |norm| == NSYM;
    hide SparseList, ReadSparse, Active, IsTable;
    var list := SparseList(norm, NSYM);
    var s := [HDR_SPARSE, Active(norm, NSYM)] + list + tail;
    TableActive(norm);
    assert s[2..] == list + tail;
    ReadSparseBack(norm, NSYM, s[2..]);
    assert Below(norm, NSYM) == norm;
  }

  lemma DenseBack(norm: seq<nat>, tail: seq<byte>)
    requires IsTable(norm) && Active(norm, NSYM) > 1
    ensures var last := LastActive(norm, NSYM);
            var h := [HDR_DENSE, last] + DenseList(norm, last + 1);
            Parse(h + tail) == Table(norm, |h|)
  {
    assert |norm| == NSYM;
    hide DenseList, ReadDense, Active, IsTable, LastActive;
    var last := LastActive(norm, NSYM);
    var list := DenseList(norm, last + 1);
    var s := [HDR_DENSE, last] + list + tail;
    TableActive(norm);
    assert s[2..] == list + tail;
    ReadDenseBack(norm, last + 1, s[2..]);
    assert Below(norm, last + 1) == norm;
  }

  /** Every normalised table is read back exactly from its header, whatever follows it. */
  lemma HeaderRoundTrip(norm: seq<nat>, tail: seq<byte>)
    requires IsTable(norm)
    ensures Active(norm, NSYM) > 0 && Parse(Header(norm) + tail) == Table(norm, |Header(norm)|)
  {
    TableActive(norm);
    assert |norm| == NSYM;
    hide Parse, SparseList, DenseList, Active, IsTable, LastActive;
    if Active(norm, NSYM) == 1 {
      SingleBack(norm, tail);
    } else if Active(norm, NSYM) <= SPARSE_THRESHOLD {
      SparseBack(norm, tail);
    } else {
      DenseBack(norm, tail);
    }
  }

  /** A table header that is cut off is no header. */
  lemma HeaderCut(norm: seq<nat>, k: nat)
    requires |norm| == NSYM && Active(norm, NSYM) > 0 && k < |Header(norm)|
    ensures Parse(Header(norm)[..k]).size == 0
  {
    hide SparseList, DenseList, Active, LastActive, ReadSparse, ReadDense;
    var h := Header(norm);
    if k > 0 {
      assert h[..k][0] == h[0];
    }
    if k > 1 {
      assert h[..k][1] == h[1];
    }
  }

  // ---------------------------------------------------------------- the loops

  /** Counts the active symbols and finds the last one. */
  method Survey(norm: seq<nat>) returns (active: nat, last: nat)
    requires |norm| == NSYM
    ensures active == Active(norm, NSYM) && last == LastActive(norm, NSYM)
  {
    active, last := 0, 0;
    for i := 0 to NSYM
      invariant active == Active(norm, i) && last == LastActive(norm, i)
    {
      if norm[i] > 0 {
        active, last := active + 1, i;
      }
    }
  }

  method WriteSparse(norm: seq<nat>, d: array<byte>, active: nat)
    requires |norm| == NSYM && active == Active(norm, NSYM) <= SPARSE_THRESHOLD && 2 + 3 * active <= d.Length
    modifies d
    ensures d[..2 + 3 * active] == [HDR_SPARSE, active] + SparseList(norm, NSYM)
  {
    d[0], d[1] := HDR_SPARSE, active;
    var p := 2;
    for i := 0 to NSYM
      invariant p == 2 + 3 * Active(norm, i) && p <= 2 + 3 * active
      invariant d[..p] == [HDR_SPARSE, active] + SparseList(norm, i)
    {
      ActiveMonotone(norm, i + 1, NSYM);
      if norm[i] > 0 {
        p := Append(d, p, [i, Lo(norm[i]), Hi(norm[i])]);
      }
    }
  }

  method WriteDense(norm: seq<nat>, d: array<byte>, last: nat)
    requires |norm| == NSYM && last < NSYM && 2 + 2 * (last + 1) <= d.Length
    modifies d
    ensures d[..2 + 2 * (last + 1)] == [HDR_DENSE, last] + DenseList(norm, last + 1)
  {
    d[0], d[1] := HDR_DENSE, last;
    for i := 0 to last + 1
      invariant d[..2 + 2 * i] == [HDR_DENSE, last] + DenseList(norm, i)
    {
      ghost var before := d[..2 + 2 * i];
      d[2 + 2 * i], d[3 + 2 * i] := Lo(norm[i]), Hi(norm[i]);
      assert d[..2 + 2 * (i + 1)] == before + [Lo(norm[i]), Hi(norm[i])];
    }
  }

  /** write_hdr_v2: the number of bytes stored, or 0 when the table is empty or does not fit. */
  method WriteHeader(norm: seq<nat>, d: array<byte>) returns (size: nat)
    requires |norm| == NSYM
    modifies d
    ensures size == if Active(norm, NSYM) == 0 || |Header(norm)| > d.Length then 0 else |Header(norm)|
    ensures size > 0 ==> d[..size] == Header(norm)
  {
    hide Active, LastActive, SparseList, DenseList;
    var active, last := Survey(norm);
    if active == 0 {
      return 0;
    }
    if active == 1 {
      if d.Length < 2 {
        return 0;
      }
      d[0], d[1] := HDR_SINGLE, last;
      return 2;
    }
    if active <= SPARSE_THRESHOLD {
      size := 2 + 3 * active;
      if size > d.Length {
        return 0;
      }
      WriteSparse(norm, d, active);
    } else {
      size := 2 + 2 * (last + 1);
      if size > d.Length {
        return 0;
      }
      WriteDense(norm, d, last);
    }
  }

  lemma {:induction false} ActiveMonotone(norm: seq<nat>, m: nat, n: nat)
    requires m <= n <= |norm|
    ensures Active(norm, m) <= Active(norm, n)
  {
    if m < n {
      ActiveMonotone(norm, m, n - 1);
    }
  }

  /** read_hdr_v2. */
  method ReadHeader(s: seq<byte>) returns (norm: seq<nat>, size: nat)
    ensures Table(norm, size) == Parse(s)
  {
    norm := Zeros();
    if |s| < 1 {
      return norm, 0;
    }
    var fmt := s[0];
    if fmt == HDR_SINGLE {
      if |s| < 2 {
        return norm, 0;
      }
      return norm[s[1] := ANS_L], 2;
    }
    if fmt == HDR_SPARSE {
      if |s| < 2 {
        return norm, 0;
      }
      var count: nat := s[1];
      size := 2 + 3 * count;
      if size > |s| {
        return norm, 0;
      }
      for i := 0 to count
        invariant norm == ReadSparse(s[2..], i)
      {
        norm := norm[s[2 + 3 * i] := Freq(s[3 + 3 * i], s[4 + 3 * i])];
      }
      return;
    }
    if fmt == HDR_DENSE {
      if |s| < 2 {
        return norm, 0;
      }
      var last: nat := s[1];
      size := 2 + 2 * (last + 1);
      if size > |s| {
        return norm, 0;
      }
      for i := 0 to last + 1
        invariant norm == ReadDense(s[2..], i)
      {
        norm := norm[i := Freq(s[2 + 2 * i], s[3 + 2 * i])];
      }
      return;
    }
    var last: nat := s[0];
    size := 1 + 2 * (last + 1);
    if size <= |s| {
      for i := 0 to last + 1
        invariant norm == ReadDense(s[1..], i)
      {
        norm := norm[i := Freq(s[1 + 2 * i], s[2 + 2 * i])];
      }
      return;
    }
    return norm, 0;
  }
}
