/** What the literal coders mean, said of the bytes of their input: table headers, states and bits. */
module AnsMeaning {
  import opened Arithmetic
  import opened Bits
  import opened LittleEndian
  import opened AnsTable
  import opened AnsBuild
  import opened AnsHeader
  import opened AnsStream
  import A1 = AnsCodec
  import A4 = AnsCodec4

  // ---------------------------------------------------------------- headers

  function Pair(s: seq<byte>, i: nat): (f: nat)
    requires i + 2 <= |s|
  {
    s[i] as int + 0x100 * s[i + 1] as int
  }

  /** The last of the first count triples that names symbol x gives its frequency; none means 0. */
  ghost predicate TripleOf(s: seq<byte>, count: nat, x: nat, f: nat)
    requires 2 + 3 * count <= |s|
  {
    (f == 0 && forall i :: 0 <= i < count ==> s[2 + 3 * i] != x)
    || exists i :: 0 <= i < count && s[2 + 3 * i] == x && f == Pair(s, 3 + 3 * i)
                   && forall j :: i < j < count ==> s[2 + 3 * j] != x
  }

  /** A header of n bytes at the start of s that gives the frequencies norm: a lone symbol; triples of a symbol and its
      frequency; or the frequencies of all symbols up to one, with or without a mark in front. */
  ghost predicate IsHeader(s: seq<byte>, norm: seq<nat>, n: nat) {
    0 < n <= |s| && |norm| == 256
    && if s[0] == 1 then n == 2 && forall x :: 0 <= x < 256 ==> norm[x] == if x == s[1] then 4096 else 0
       else if s[0] == 2 then
         2 <= |s| && n == 2 + 3 * s[1] as int && forall x :: 0 <= x < 256 ==> TripleOf(s, s[1], x, norm[x])
       else if s[0] == 3 then
         2 <= |s| && n == 2 + 2 * (s[1] as int + 1)
         && forall x :: 0 <= x < 256 ==> norm[x] == if x <= s[1] then Pair(s, 2 + 2 * x) else 0
       else
         n == 1 + 2 * (s[0] as int + 1)
         && forall x :: 0 <= x < 256 ==> norm[x] == if x <= s[0] then Pair(s, 1 + 2 * x) else 0
  }

  lemma {:induction false} SparseMeans(s: seq<byte>, count: nat, x: nat)
    requires 2 + 3 * count <= |s| && x < 256
    ensures TripleOf(s, count, x, ReadSparse(s[2..], count)[x])
  {
    if count > 0 {
      var k, d := count - 1, s[2..];
      SparseMeans(s, k, x);
      assert d[3 * k] == s[2 + 3 * k] && Freq(d[3 * k + 1], d[3 * k + 2]) == Pair(s, 3 + 3 * k);
      var f := ReadSparse(d, k)[x];
      if s[2 + 3 * k] != x && f > 0 {
        var i :| 0 <= i < k && s[2 + 3 * i] == x && f == Pair(s, 3 + 3 * i)
                 && forall j :: i < j < k ==> s[2 + 3 * j] != x;
        assert forall j :: i < j < count ==> s[2 + 3 * j] != x;
      }
    }
  }

  lemma {:induction false} DenseMeans(s: seq<byte>, from: nat, count: nat, x: nat)
    requires from + 2 * count <= |s| && count <= 256 && x < 256
    ensures ReadDense(s[from..], count)[x] == if x < count then Pair(s, from + 2 * x) else 0
  {
    if count > 0 {
      DenseMeans(s, from, count - 1, x);
      var d, k := s[from..], count - 1;
      assert d[2 * k] == s[from + 2 * k] && d[2 * k + 1] == s[from + 2 * k + 1];
    }
  }

  lemma {:induction false} ActiveCount(norm: seq<nat>, n: nat)
    requires n <= |norm|
    ensures Active(norm, n) == |set i | 0 <= i < n && norm[i] > 0|
  {
    if n > 0 {
      ActiveCount(norm, n - 1);
      var here := set i | 0 <= i < n && norm[i] > 0;
      var before := set i | 0 <= i < n - 1 && norm[i] > 0;
      assert here == if norm[n - 1] > 0 then before + {n - 1} else before;
    }
  }

  /** The header of a table with one active symbol names it; up to 64 active symbols are listed; a table with more has
      the frequencies of all symbols up to the last active one. */
  lemma HeaderForm(norm: seq<nat>)
    requires IsTable(norm)
    ensures Active(norm, NSYM) > 0
    ensures var active, h := |set i | 0 <= i < 256 && norm[i] > 0|, Header(norm);
            if active == 1 then h == [1, h[1]] && norm[h[1]] == 4096
            else if active <= 64 then h[0] == 2 && h[1] == active && |h| == 2 + 3 * active
            else h[0] == 3 && |h| == 4 + 2 * h[1] as int && norm[h[1]] > 0
                 && forall i :: h[1] as int < i < 256 ==> norm[i] == 0
  {
    hide SparseList, DenseList;
    TableActive(norm);
    ActiveCount(norm, NSYM);
    if Active(norm, NSYM) == 1 {
      LoneActive(norm, NSYM);
    }
  }

  /** What the reader of headers yields is one. */
  lemma HeaderFound(s: seq<byte>)
    requires Parse(s).size > 0
    ensures IsHeader(s, Parse(s).norm, Parse(s).size)
  {
    hide ReadDense, ReadSparse, TripleOf, Pair;
    var norm := Parse(s).norm;
    if s[0] == 2 {
      forall x | 0 <= x < 256 ensures TripleOf(s, s[1], x, norm[x]) {
        SparseMeans(s, s[1], x);
      }
    } else if s[0] == 3 {
      forall x | 0 <= x < 256 ensures norm[x] == if x <= s[1] then Pair(s, 2 + 2 * x) else 0 {
        DenseMeans(s, 2, s[1] as int + 1, x);
      }
    } else if s[0] != 1 {
      forall x | 0 <= x < 256 ensures norm[x] == if x <= s[0] then Pair(s, 1 + 2 * x) else 0 {
        DenseMeans(s, 1, s[0] as int + 1, x);
      }
    }
  }

  lemma OneFrequency(s: seq<byte>, count: nat, x: nat, f: nat, g: nat)
    requires 2 + 3 * count <= |s| && TripleOf(s, count, x, f) && TripleOf(s, count, x, g)
    ensures f == g
  {
  }

  lemma OneHeader(s: seq<byte>, norm: seq<nat>, n: nat, other: seq<nat>, m: nat)
    requires IsHeader(s, norm, n) && IsHeader(s, other, m)
    ensures norm == other && n == m
  {
    hide Pair, TripleOf;
    forall x | 0 <= x < 256 ensures norm[x] == other[x] {
      if s[0] == 2 {
        OneFrequency(s, s[1], x, norm[x], other[x]);
      }
    }
  }

  /** The reader of headers finds one exactly where there is one. */
  lemma HeaderMeans(s: seq<byte>, norm: seq<nat>, n: nat)
    ensures IsHeader(s, norm, n) <==> n > 0 && Parse(s) == Table(norm, n)
  {
    hide IsHeader, Parse;
    if Parse(s).size > 0 {
      HeaderFound(s);
    }
    if IsHeader(s, norm, n) {
      HeaderThere(s, norm, n);
      OneHeader(s, norm, n, Parse(s).norm, Parse(s).size);
    }
  }

  lemma HeaderThere(s: seq<byte>, norm: seq<nat>, n: nat)
    requires IsHeader(s, norm, n)
    ensures Parse(s).size > 0 && IsHeader(s, Parse(s).norm, Parse(s).size)
  {
    hide TripleOf, Pair, ReadDense, ReadSparse;
    assert Parse(s).size > 0;
    HeaderFound(s);
  }

  // ---------------------------------------------------------------- streams

  /** Step i of a decoder with table dec over the bits of v: the entry at its state gives the symbol, how many bits to
      take, and what to add to them for the next state. */
  predicate Steps(dec: seq<Entry>, v: nat, st: seq<nat>, at: seq<nat>, xs: seq<byte>, i: nat)
    requires i < |xs| && |st| == |at| == |xs| + 1
  {
    st[i] < |dec| && xs[i] == dec[st[i]].symbol && at[i + 1] == at[i] + dec[st[i]].nbits
    && st[i + 1] == dec[st[i]].baseline + v / Pow2(at[i]) % Pow2(dec[st[i]].nbits)
  }

  /** The states st and bit positions at through which a decoder takes xs out of v. */
  predicate Walks(dec: seq<Entry>, v: nat, st: seq<nat>, at: seq<nat>, xs: seq<byte>) {
    |st| == |at| == |xs| + 1 && at[0] == 0 && forall i :: 0 <= i < |xs| ==> Steps(dec, v, st, at, xs, i)
  }

  /** A decode table for the frequencies takes xs out of v, starting in state y. */
  ghost predicate Carries(norm: seq<nat>, y: nat, v: nat, xs: seq<byte>) {
    exists dec: seq<Entry>, st: seq<nat>, at: seq<nat> ::
      RightTable(norm, dec) && Walks(dec, v, st, at, xs) && st[0] == y
  }

  lemma {:induction false} RestAt(norm: seq<nat>, c: Cursor, k: nat)
    requires IsTable(norm) && c.state < ANS_L
    ensures After(norm, c, k).rest == c.rest / Pow2(A1.BitsRead(norm, c, k))
  {
    hide DecEntry, Pow2;
    if k == 0 {
      PowZero();
    } else {
      RestAt(norm, c, k - 1);
      var p, nb := A1.BitsRead(norm, c, k - 1), DecEntry(norm, After(norm, c, k - 1).state).nbits;
      Pow2Add(p, nb);
      DivTwice(c.rest, Pow2(p), Pow2(nb));
    }
  }

  lemma PowZero()
    ensures Pow2(0) == 1
  {
  }

  lemma DivTwice(v: nat, a: nat, b: nat)
    requires a > 0 && b > 0
    ensures a * b > 0 && v / a / b == v / (a * b)
  {
    var q, r := v / a / b, v / a % b;
    assert v == (q * b + r) * a + v % a;
    Distribute(a, q * b, r);
    Associate(q, b, a);
    assert a * (q * b) == q * (b * a) by {
      Associate(a, q, b);
    }
    MulMonotone(a, r + 1, b);
    Distribute(a, r, 1);
    DivModUnique(v, a * b, q, a * r + v % a);
  }

  function States(norm: seq<nat>, c: Cursor, n: nat): (st: seq<nat>)
    requires IsTable(norm) && c.state < ANS_L
    ensures |st| == n + 1 && forall i :: 0 <= i <= n ==> st[i] == After(norm, c, i).state < ANS_L
  {
    seq(n + 1, i requires 0 <= i => After(norm, c, i).state)
  }

  function Positions(norm: seq<nat>, c: Cursor, n: nat): (at: seq<nat>)
    requires IsTable(norm) && c.state < ANS_L
    ensures |at| == n + 1 && forall i :: 0 <= i <= n ==> at[i] == A1.BitsRead(norm, c, i)
  {
    seq(n + 1, i requires 0 <= i => A1.BitsRead(norm, c, i))
  }

  /** The decoder as a function goes such a way. */
  lemma DecodedWalks(norm: seq<nat>, c: Cursor, n: nat)
    requires IsTable(norm) && c.state < ANS_L
    ensures Carries(norm, c.state, c.rest, Decoded(norm, c, n))
  {
    hide DecEntry, RightTable, A1.BitsRead, IsTable, After, SymbolAt, States, Positions, Decoded;
    var dec, xs, st, at := DecTable(norm), Decoded(norm, c, n), States(norm, c, n), Positions(norm, c, n);
    TableIsRight(norm);
    forall i | 0 <= i < n ensures Steps(dec, c.rest, st, at, xs, i) {
      OneStep(norm, c, i);
    }
    NothingDone(norm, c);
    assert Walks(dec, c.rest, st, at, xs);
  }

  lemma OneStep(norm: seq<nat>, c: Cursor, i: nat)
    requires IsTable(norm) && c.state < ANS_L
    ensures var d, p := After(norm, c, i), A1.BitsRead(norm, c, i);
            var e := DecTable(norm)[d.state];
            SymbolAt(norm, d.state) == e.symbol && A1.BitsRead(norm, c, i + 1) == p + e.nbits
            && After(norm, c, i + 1).state == e.baseline + c.rest / Pow2(p) % Pow2(e.nbits)
  {
    hide DecEntry, Pow2, IsTable;
    RestAt(norm, c, i);
  }

  lemma NothingDone(norm: seq<nat>, c: Cursor)
    requires IsTable(norm) && c.state < ANS_L
    ensures A1.BitsRead(norm, c, 0) == 0 && After(norm, c, 0) == c
  {
  }

  // ---------------------------------------------------------------- frames

  /** One symbol has all 4096 slots. */
  predicate Lone(norm: seq<nat>, x: nat) { x < |norm| && norm[x] == 4096 }

  lemma LoneIsActive(norm: seq<nat>)
    requires IsTable(norm)
    ensures Active(norm, NSYM) == 1 <==> exists x: nat :: Lone(norm, x)
    ensures forall x: nat :: Lone(norm, x) ==> x == LastActive(norm, NSYM)
  {
    TableActive(norm);
    if Active(norm, NSYM) == 1 {
      LoneActive(norm, NSYM);
      assert Lone(norm, LastActive(norm, NSYM));
    }
    forall x: nat | Lone(norm, x) ensures Active(norm, NSYM) == 1 && x == LastActive(norm, NSYM) {
      var l := LastActive(norm, NSYM);
      Shared(norm, x, l);
      if Active(norm, NSYM) > 1 {
        Another(norm, NSYM);
        var y :| 0 <= y < NSYM && y != l && norm[y] > 0;
        Shared(norm, x, y);
      }
    }
  }

  lemma {:induction false} Another(norm: seq<nat>, n: nat)
    requires n <= |norm| && Active(norm, n) > 1
    ensures exists y :: 0 <= y < n && y != LastActive(norm, n) && norm[y] > 0
  {
    if norm[n - 1] > 0 {
      if forall y :: 0 <= y < n - 1 ==> norm[y] == 0 {
        NoActive(norm, n - 1);
      }
    } else {
      Another(norm, n - 1);
    }
  }

  lemma {:induction false} NoActive(norm: seq<nat>, n: nat)
    requires n <= |norm| && forall y :: 0 <= y < n ==> norm[y] == 0
    ensures Active(norm, n) == 0
  {
    if n > 0 {
      NoActive(norm, n - 1);
    }
  }

  /** A single-stream frame whose header takes h bytes: behind it, unless a symbol is alone, the state in two bytes and
      the bits. */
  ghost predicate IsFrame(src: seq<byte>, norm: seq<nat>, h: nat) {
    IsHeader(src, norm, h) && IsTable(norm)
    && ((exists x: nat :: Lone(norm, x)) || (h + 2 <= |src| && Pair(src, h) < 4096))
  }

  /** What the frame stands for. */
  ghost predicate StandsFor(src: seq<byte>, norm: seq<nat>, h: nat, xs: seq<byte>)
    requires IsFrame(src, norm, h)
  {
    if exists x: nat :: Lone(norm, x) then forall i: nat, x: nat :: i < |xs| && Lone(norm, x) ==> xs[i] == x
    else Carries(norm, Pair(src, h), Num(src[h + 2..]), xs)
  }

  /** For every input: n > 0 literals are decoded exactly where the input is a frame and there is room, and they are
      what it stands for. */
  lemma FrameMeans(src: seq<byte>, cap: nat, n: nat, norm: seq<nat>, h: nat)
    requires n > 0
    ensures A1.DecodeFrame(src, cap, n).Good? ==> exists f: seq<nat>, k: nat :: IsFrame(src, f, k)
    ensures IsFrame(src, norm, h) ==>
      (A1.DecodeFrame(src, cap, n).Good? <==> n <= cap)
      && (n <= cap ==>
            var xs := A1.DecodeFrame(src, cap, n).out;
            |xs| == n && StandsFor(src, norm, h, xs))
  {
    hide IsHeader, Parse, Num, Carries, Decoded, A1.BitsRead, IsTable, Active, LastActive;
    var t := Parse(src);
    HeaderMeans(src, norm, h);
    HeaderMeans(src, t.norm, t.size);
    if IsTable(t.norm) {
      LoneIsActive(t.norm);
    }
    if A1.DecodeFrame(src, cap, n).Good? {
      assert IsFrame(src, t.norm, t.size);
    }
    if IsFrame(src, norm, h) && h + 2 <= |src| {
      assert src[h..][2..] == src[h + 2..];
      if Pair(src, h) < 4096 {
        DecodedWalks(norm, A1.BodyCursor(src[h..]), n);
      }
    }
  }

  /** The four-byte size of a lane's stream, behind four two-byte states. */
  function LaneSize(src: seq<byte>, h: nat, l: nat): (n: nat)
    requires l < 4 && h + 24 <= |src|
  {
    Num(src[h + 8 + 4 * l..h + 12 + 4 * l])
  }

  /** Where the stream of lane l begins. */
  function LaneStart(src: seq<byte>, h: nat, l: nat): (at: nat)
    requires l <= 4 && h + 24 <= |src|
  {
    if l == 0 then h + 24 else LaneStart(src, h, l - 1) + LaneSize(src, h, l - 1)
  }

  ghost predicate IsFrame4(src: seq<byte>, norm: seq<nat>, h: nat) {
    IsHeader(src, norm, h) && IsTable(norm)
    && ((exists x: nat :: Lone(norm, x))
        || (h + 24 <= |src| && LaneStart(src, h, 4) <= |src| && forall l :: 0 <= l < 4 ==> Pair(src, h + 2 * l) < 4096))
  }

  lemma {:induction false} LanesAscend(src: seq<byte>, h: nat, l: nat)
    requires l <= 4 && h + 24 <= |src|
    ensures h + 24 <= LaneStart(src, h, l) <= LaneStart(src, h, 4)
    decreases 4 - l
  {
    if l < 4 {
      LanesAscend(src, h, l + 1);
    }
    LanesBegin(src, h, l);
  }

  lemma {:induction false} LanesBegin(src: seq<byte>, h: nat, l: nat)
    requires l <= 4 && h + 24 <= |src|
    ensures h + 24 <= LaneStart(src, h, l)
  {
    if l > 0 {
      LanesBegin(src, h, l - 1);
    }
  }

  /** The bits of lane l. */
  function LaneNum(src: seq<byte>, h: nat, l: nat): (v: nat)
    requires l < 4 && h + 24 <= |src| && LaneStart(src, h, 4) <= |src|
  {
    LanesAscend(src, h, l + 1);
    LanesBegin(src, h, l);
    Num(src[LaneStart(src, h, l)..LaneStart(src, h, l + 1)])
  }

  /** Four lanes dealt out in turn. */
  predicate Dealt(xs: seq<byte>, ls: seq<seq<byte>>) {
    |ls| == 4 && forall i :: 0 <= i < |xs| ==> i / 4 < |ls[i % 4]| && xs[i] == ls[i % 4][i / 4]
  }

  /** What a four-lane frame stands for: literals dealt out from four lanes, each with its state and its bits. */
  ghost predicate StandsFor4(src: seq<byte>, norm: seq<nat>, h: nat, xs: seq<byte>)
    requires IsFrame4(src, norm, h)
  {
    if exists x: nat :: Lone(norm, x) then forall i: nat, x: nat :: i < |xs| && Lone(norm, x) ==> xs[i] == x
    else
      exists ls: seq<seq<byte>> ::
        Dealt(xs, ls) && forall l :: 0 <= l < 4 ==> Carries(norm, Pair(src, h + 2 * l), LaneNum(src, h, l), ls[l])
  }

  lemma FourNum(s: seq<byte>, i: nat)
    requires i + 4 <= |s|
    ensures Num(s[i..i + 4]) == Word(s[i], s[i + 1], s[i + 2], s[i + 3])
  {
    var t := s[i..i + 4];
    var t1, t2, t3 := t[1..], t[2..], t[3..];
    assert t1[1..] == t2 && t2[1..] == t3 && t3[1..] == [];
    assert Num(t3) == s[i + 3] && Num(t2) == s[i + 2] + 0x100 * Num(t3) && Num(t1) == s[i + 1] + 0x100 * Num(t2);
  }

  lemma SameLanes(src: seq<byte>, h: nat)
    requires h + 24 <= |src|
    ensures var s := src[h..];
            (forall l :: 0 <= l < 4 ==> A4.StateAt(s, l) == Pair(src, h + 2 * l))
            && (forall l: nat :: l <= 4 ==> h + A4.OffsetAt(s, l) == LaneStart(src, h, l))
  {
    hide Num, Word;
    var s := src[h..];
    forall l: nat | l < 4 ensures A4.SizeAt(s, l) == LaneSize(src, h, l) {
      FourNum(src, h + 8 + 4 * l);
    }
    assert LaneStart(src, h, 1) == LaneStart(src, h, 0) + LaneSize(src, h, 0);
    assert LaneStart(src, h, 2) == LaneStart(src, h, 1) + LaneSize(src, h, 1);
    assert LaneStart(src, h, 3) == LaneStart(src, h, 2) + LaneSize(src, h, 2);
    assert LaneStart(src, h, 4) == LaneStart(src, h, 3) + LaneSize(src, h, 3);
  }

  lemma LanesCarry(src: seq<byte>, norm: seq<nat>, h: nat, n: nat)
    requires IsTable(norm) && h + 24 <= |src| && A4.LanesOk(src[h..]) && LaneStart(src, h, 4) <= |src|
    ensures exists ls: seq<seq<byte>> ::
              Dealt(A4.Interleaved(norm, A4.Cursors(src[h..]), n), ls)
              && forall l :: 0 <= l < 4 ==> Carries(norm, Pair(src, h + 2 * l), LaneNum(src, h, l), ls[l])
  {
    hide Num, Word, Carries, Decoded, IsTable, A4.LanesOk, A4.OffsetAt, A4.StateAt, LaneStart;
    SameLanes(src, h);
    var cs := A4.Cursors(src[h..]);
    var ls := seq(4, l requires 0 <= l < 4 => Decoded(norm, cs[l], n));
    forall l: nat | l < 4 ensures Carries(norm, Pair(src, h + 2 * l), LaneNum(src, h, l), ls[l]) {
      DecodedWalks(norm, cs[l], n);
      LaneBits(src, h, l);
    }
    assert Dealt(A4.Interleaved(norm, cs, n), ls);
  }

  lemma LaneBits(src: seq<byte>, h: nat, l: nat)
    requires l < 4 && h + 24 <= |src| && A4.LanesOk(src[h..]) && LaneStart(src, h, 4) <= |src|
    ensures A4.LaneCursor(src[h..], l) == Cursor(Pair(src, h + 2 * l), LaneNum(src, h, l))
  {
    hide Num, Word, LaneStart;
    SameLanes(src, h);
    LanesAscend(src, h, l + 1);
    LanesBegin(src, h, l);
    var a, b := LaneStart(src, h, l), LaneStart(src, h, l + 1);
    assert src[h..][a - h..b - h] == src[a..b];
  }

  /** The same for four lanes. */
  lemma Frame4Means(src: seq<byte>, cap: nat, n: nat, norm: seq<nat>, h: nat)
    requires n > 0
    ensures A4.DecodeFrame4(src, cap, n).Good? ==> exists f: seq<nat>, k: nat :: IsFrame4(src, f, k)
    ensures IsFrame4(src, norm, h) ==>
      (A4.DecodeFrame4(src, cap, n).Good? <==> n <= cap)
      && (n <= cap ==>
            var xs := A4.DecodeFrame4(src, cap, n).out;
            |xs| == n && StandsFor4(src, norm, h, xs))
  {
    hide IsHeader, Parse, Num, Carries, IsTable, Active, LastActive, A4.Interleaved, LaneStart, Dealt, A4.OffsetAt,
         A4.StateAt;
    var t := Parse(src);
    HeaderMeans(src, norm, h);
    HeaderMeans(src, t.norm, t.size);
    if IsTable(t.norm) {
      LoneIsActive(t.norm);
    }
    if t.size + 24 <= |src| {
      SameLanes(src, t.size);
    }
    if A4.DecodeFrame4(src, cap, n).Good? {
      assert IsFrame4(src, t.norm, t.size);
    }
    if IsFrame4(src, norm, h) && h + 24 <= |src| && A4.LanesOk(src[h..]) {
      LanesCarry(src, norm, h, n);
    }
  }
}
