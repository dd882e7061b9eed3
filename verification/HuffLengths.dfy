/** build_code_lengths: depths of the Huffman tree, limited to fifteen bits. */
module HuffLengths {
  import opened Arithmetic
  import opened Bits
  import opened HuffTree
  import opened HuffOptimal

  const SYMBOLS: nat := 256
  const MAX_LEN: nat := 15

  // ---------------------------------------------------------------- Kraft sums

  /** What a code of length d takes of a code space of 2^top. */
  function Weigh(top: nat, d: nat): (w: nat) { if d == 0 || d > top then 0 else Pow2(top - d) }

  function Weighs(top: nat, lens: seq<nat>): (w: seq<nat>)
    ensures |w| == |lens|
  {
    seq(|lens|, i requires 0 <= i < |lens| => Weigh(top, lens[i]))
  }

  function Kraft(top: nat, lens: seq<nat>): (t: nat) { Sum(Weighs(top, lens), 0, |lens|) }

  lemma KraftUpdate(top: nat, lens: seq<nat>, s: nat, d: nat)
    requires s < |lens|
    ensures Kraft(top, lens[s := d]) + Weigh(top, lens[s]) == Kraft(top, lens) + Weigh(top, d)
  {
    SumUpdate(Weighs(top, lens), s, Weigh(top, d), 0, |lens|);
    assert Weighs(top, lens[s := d]) == Weighs(top, lens)[s := Weigh(top, d)];
  }

  /** syms lists the symbols that have a length, each once, and ds their lengths. */
  ghost predicate Scattered(syms: seq<nat>, ds: seq<nat>, lens: seq<nat>) {
    && |syms| == |ds|
    && (forall i, j :: 0 <= i < j < |syms| ==> syms[i] != syms[j])
    && (forall i :: 0 <= i < |syms| ==> syms[i] < |lens| && lens[syms[i]] == ds[i])
    && (forall s :: 0 <= s < |lens| && lens[s] > 0 ==> s in syms)
  }

  lemma NothingScattered(top: nat, lens: seq<nat>)
    requires Scattered([], [], lens)
    ensures Kraft(top, lens) == Kraft(top, []) == 0
  {
    SumZero(Weighs(top, lens), 0, |lens|);
  }

  lemma ScatteredRest(syms: seq<nat>, ds: seq<nat>, lens: seq<nat>)
    requires Scattered(syms, ds, lens) && syms != []
    ensures var n := |syms| - 1; syms[n] < |lens| && Scattered(syms[..n], ds[..n], lens[syms[n] := 0])
  {
    var n := |syms| - 1;
    var rest := lens[syms[n] := 0];
    forall t | 0 <= t < |rest| && rest[t] > 0 ensures t in syms[..n] {
      assert t in syms && t != syms[n];
    }
  }

  lemma KraftLast(top: nat, ds: seq<nat>)
    requires ds != []
    ensures Kraft(top, ds) == Kraft(top, ds[..|ds| - 1]) + Weigh(top, ds[|ds| - 1])
  {
    var k := |ds|;
    SumLast(Weighs(top, ds), 0, k);
    SumSame(Weighs(top, ds), Weighs(top, ds[..k - 1]), 0, k - 1);
  }

  /** The Kraft sum does not depend on which symbols have the lengths. */
  lemma {:induction false} ScatteredKraft(top: nat, syms: seq<nat>, ds: seq<nat>, lens: seq<nat>)
    requires Scattered(syms, ds, lens)
    ensures Kraft(top, lens) == Kraft(top, ds)
    decreases |syms|
  {
    hide Kraft, Weigh;
    if syms == [] {
      assert ds == [];
      NothingScattered(top, lens);
    } else {
      var n := |syms| - 1;
      var s := syms[n];
      ScatteredRest(syms, ds, lens);
      var rest := lens[s := 0];
      ScatteredKraft(top, syms[..n], ds[..n], rest);
      KraftUpdate(top, rest, s, lens[s]);
      assert rest[s := lens[s]] == lens;
      KraftLast(top, ds);
      NoWeight(top);
    }
  }

  lemma NoWeight(top: nat)
    ensures Weigh(top, 0) == 0
  {
  }

  function FreqAt(freq: seq<nat>, s: nat): (f: nat) { if s < |freq| then freq[s] else 0 }

  /** The lengths of syms weighed with their frequencies. */
  function Dot(freq: seq<nat>, syms: seq<nat>, ds: seq<nat>): (w: nat)
    requires |syms| == |ds|
  {
    if syms == [] then 0
    else
      var n := |syms| - 1;
      FreqAt(freq, syms[n]) * ds[n] + Dot(freq, syms[..n], ds[..n])
  }

  lemma {:induction false} TextUpdate(freq: seq<nat>, lens: seq<nat>, s: nat, d: nat, n: nat)
    requires s < |freq| == |lens| && n <= |freq|
    ensures TextBits(freq, lens[s := d], n) + (if s < n then freq[s] * lens[s] else 0)
            == TextBits(freq, lens, n) + (if s < n then freq[s] * d else 0)
  {
    if n > 0 {
      TextUpdate(freq, lens, s, d, n - 1);
    }
  }

  lemma {:induction false} NoText(freq: seq<nat>, lens: seq<nat>, n: nat)
    requires n <= |freq| == |lens| && forall s :: 0 <= s < |lens| ==> lens[s] == 0
    ensures TextBits(freq, lens, n) == 0
  {
    if n > 0 {
      NoText(freq, lens, n - 1);
    }
  }

  lemma {:induction false} ScatteredText(freq: seq<nat>, syms: seq<nat>, ds: seq<nat>, lens: seq<nat>)
    requires Scattered(syms, ds, lens) && |lens| == |freq|
    ensures TextBits(freq, lens, |freq|) == Dot(freq, syms, ds)
    decreases |syms|
  {
    if syms == [] {
      NoText(freq, lens, |freq|);
    } else {
      hide TextBits;
      var n := |syms| - 1;
      ScatteredRest(syms, ds, lens);
      ScatteredText(freq, syms[..n], ds[..n], lens[syms[n] := 0]);
      TextUpdate(freq, lens, syms[n], 0, |freq|);
    }
  }

  /** Lengths within the limit take the same share of a smaller code space. */
  lemma {:induction false} KraftScale(more: nat, lens: seq<nat>, lo: nat)
    requires lo <= |lens| && forall i :: 0 <= i < |lens| ==> lens[i] <= MAX_LEN
    ensures Sum(Weighs(MAX_LEN + more, lens), lo, |lens|) == Pow2(more) * Sum(Weighs(MAX_LEN, lens), lo, |lens|)
    decreases |lens| - lo
  {
    if lo < |lens| {
      KraftScale(more, lens, lo + 1);
      var w := Weigh(MAX_LEN, lens[lo]);
      if lens[lo] > 0 {
        Pow2Add(more, MAX_LEN - lens[lo]);
      }
      assert Weighs(MAX_LEN + more, lens)[lo] == Pow2(more) * w;
      Distribute(Pow2(more), w, Sum(Weighs(MAX_LEN, lens), lo + 1, |lens|));
    }
  }

  // ---------------------------------------------------------------- leaves in order of frequency

  datatype Leaf = Leaf(sym: nat, freq: nat)

  /** Each symbol that occurs, once, with its frequency. */
  ghost predicate LeavesOf(freq: seq<nat>, ls: seq<Leaf>) {
    && (forall i, j :: 0 <= i < j < |ls| ==> ls[i].sym != ls[j].sym)
    && (forall i :: 0 <= i < |ls| ==> ls[i].sym < |freq| && ls[i].freq == freq[ls[i].sym] > 0)
    && (forall s :: 0 <= s < |freq| && freq[s] > 0 ==> Leaf(s, freq[s]) in ls)
  }

  function Freqs(ls: seq<Leaf>): (w: seq<nat>)
    ensures |w| == |ls|
  {
    seq(|ls|, i requires 0 <= i < |ls| => ls[i].freq)
  }

  /** The frequencies of the leaves, and what they add up to. */
  ghost function Bulk(ls: seq<Leaf>): (b: (multiset<nat>, nat)) { (multiset(Freqs(ls)), Sum(Freqs(ls), 0, |ls|)) }

  lemma SwapLeaves(freq: seq<nat>, ls: seq<Leaf>, i: nat)
    requires i + 1 < |ls| && LeavesOf(freq, ls)
    ensures LeavesOf(freq, ls[i := ls[i + 1]][i + 1 := ls[i]])
  {
    var ms := ls[i := ls[i + 1]][i + 1 := ls[i]];
    forall s | 0 <= s < |freq| && freq[s] > 0 ensures Leaf(s, freq[s]) in ms {
      var k :| 0 <= k < |ls| && ls[k] == Leaf(s, freq[s]);
      assert ms[if k == i then i + 1 else if k == i + 1 then i else k] == ls[k];
    }
  }

  lemma SwapBulk(w: seq<nat>, i: nat)
    requires i + 1 < |w|
    ensures var v := w[i := w[i + 1]][i + 1 := w[i]];
            multiset(v) == multiset(w) && Sum(v, 0, |w|) == Sum(w, 0, |w|)
  {
    SumUpdate(w, i, w[i + 1], 0, |w|);
    SumUpdate(w[i := w[i + 1]], i + 1, w[i], 0, |w|);
  }

  lemma SwapKeeps(freq: seq<nat>, ls: seq<Leaf>, i: nat)
    requires i + 1 < |ls| && LeavesOf(freq, ls)
    ensures LeavesOf(freq, ls[i := ls[i + 1]][i + 1 := ls[i]])
    ensures Bulk(ls[i := ls[i + 1]][i + 1 := ls[i]]) == Bulk(ls)
  {
    hide LeavesOf, Sum;
    SwapLeaves(freq, ls, i);
    SwapBulk(Freqs(ls), i);
    var ms := ls[i := ls[i + 1]][i + 1 := ls[i]];
    assert Freqs(ms) == Freqs(ls)[i := Freqs(ls)[i + 1]][i + 1 := Freqs(ls)[i]];
  }

  /** Insertion sort by frequency: the hole at j + 1 filled with tmp is always an arrangement of the leaves. */
  method SortByFreq(freq: seq<nat>, a: array<Leaf>)
    requires LeavesOf(freq, a[..])
    modifies a
    ensures LeavesOf(freq, a[..]) && Ascending(Freqs(a[..]), 0, a.Length)
    ensures Bulk(a[..]) == old(Bulk(a[..]))
  {
    hide LeavesOf, Bulk;
    var i := 1;
    while i < a.Length
      invariant 0 < i && (i <= a.Length || a.Length == 0)
      invariant LeavesOf(freq, a[..]) && Bulk(a[..]) == old(Bulk(a[..]))
      invariant forall x, y :: 0 <= x <= y < i && y < a.Length ==> a[x].freq <= a[y].freq
    {
      Insert(freq, a, i);
      i := i + 1;
    }
  }

  /** Moves element i to its place among the sorted ones before it. */
  method Insert(freq: seq<nat>, a: array<Leaf>, i: nat)
    requires i < a.Length && LeavesOf(freq, a[..])
    requires forall x, y :: 0 <= x <= y < i ==> a[x].freq <= a[y].freq
    modifies a
    ensures LeavesOf(freq, a[..]) && Bulk(a[..]) == old(Bulk(a[..]))
    ensures forall x, y :: 0 <= x <= y <= i ==> a[x].freq <= a[y].freq
  {
    hide LeavesOf, Bulk;
    var tmp := a[i];
    var j: int := i - 1;
    ghost var filled := a[..];
    while j >= 0 && a[j].freq > tmp.freq
      invariant -1 <= j < i && a[..][j + 1 := tmp] == filled
      invariant LeavesOf(freq, filled) && Bulk(filled) == old(Bulk(a[..]))
      invariant forall x, y :: 0 <= x <= y <= i && x != j + 1 && y != j + 1 ==> a[x].freq <= a[y].freq
      invariant forall y :: j + 1 < y <= i ==> tmp.freq <= a[y].freq
      decreases j
    {
      SwapKeeps(freq, filled, j);
      filled := filled[j := filled[j + 1]][j + 1 := filled[j]];
      a[j + 1] := a[j];
      j := j - 1;
      assert a[..][j + 1 := tmp] == filled;
    }
    a[j + 1] := tmp;
    assert a[..] == filled;
  }

  function Total(freq: seq<nat>): (t: nat) { Sum(freq, 0, |freq|) }

  /** How many of lens[..n] are present. */
  function Present(lens: seq<nat>, n: nat): (c: nat)
    requires n <= |lens|
    ensures c <= n
  {
    if n == 0 then 0 else Present(lens, n - 1) + (if lens[n - 1] > 0 then 1 else 0)
  }

  /** The symbols below n that occur, in symbol order. */
  ghost predicate Collected(freq: seq<nat>, n: nat, ls: seq<Leaf>) {
    && n <= |freq|
    && (forall x, y :: 0 <= x < y < |ls| ==> ls[x].sym < ls[y].sym)
    && (forall x :: 0 <= x < |ls| ==> ls[x].sym < n && ls[x].freq == freq[ls[x].sym] > 0)
    && (forall s :: 0 <= s < n && freq[s] > 0 ==> Leaf(s, freq[s]) in ls)
  }

  lemma PushLeaf(freq: seq<nat>, n: nat, ls: seq<Leaf>)
    requires n < |freq| && Collected(freq, n, ls) && freq[n] > 0
    ensures Collected(freq, n + 1, ls + [Leaf(n, freq[n])])
  {
  }

  lemma PushBulk(ls: seq<Leaf>, x: Leaf)
    ensures Bulk(ls + [x]) == (Bulk(ls).0 + multiset{x.freq}, Bulk(ls).1 + x.freq)
  {
    var more := Freqs(ls + [x]);
    assert more == Freqs(ls) + [x.freq];
    SumLast(more, 0, |more|);
    SumSame(more, Freqs(ls), 0, |ls|);
  }

  lemma CollectedSkip(freq: seq<nat>, n: nat, ls: seq<Leaf>)
    requires n < |freq| && Collected(freq, n, ls) && freq[n] == 0
    ensures Collected(freq, n + 1, ls)
  {
  }

  lemma CountsStep(freq: seq<nat>, n: nat)
    requires n < |freq|
    ensures Present(freq, n + 1) == Present(freq, n) + (if freq[n] > 0 then 1 else 0)
    ensures Sum(freq, 0, n + 1) == Sum(freq, 0, n) + freq[n]
    ensures Occurring(freq, n + 1)
            == if freq[n] > 0 then Occurring(freq, n) + multiset{freq[n]} else Occurring(freq, n)
  {
    SumLast(freq, 0, n + 1);
    assert multiset{} + Occurring(freq, n) == Occurring(freq, n);
  }

  /** The leaves of the symbols below n, what they add up to and how many they are. */
  ghost predicate Collecting(freq: seq<nat>, n: nat, ls: seq<Leaf>) {
    && Collected(freq, n, ls) && |ls| == Present(freq, n)
    && Bulk(ls) == (Occurring(freq, n), Sum(freq, 0, n))
  }

  lemma CollectNothing(freq: seq<nat>)
    ensures Collecting(freq, 0, [])
  {
  }

  lemma CollectOne(freq: seq<nat>, n: nat, ls: seq<Leaf>)
    requires n < |freq| && Collecting(freq, n, ls)
    ensures Collecting(freq, n + 1, if freq[n] > 0 then ls + [Leaf(n, freq[n])] else ls)
  {
    hide Sum, Freqs, Collected, Occurring, Present, Bulk;
    CountsStep(freq, n);
    if freq[n] > 0 {
      PushLeaf(freq, n, ls);
      PushBulk(ls, Leaf(n, freq[n]));
    } else {
      CollectedSkip(freq, n, ls);
    }
  }

  lemma CollectedAll(freq: seq<nat>, ls: seq<Leaf>)
    requires Collecting(freq, |freq|, ls)
    ensures LeavesOf(freq, ls) && Sum(Freqs(ls), 0, |ls|) == Total(freq) && |ls| == Present(freq, |freq|)
    ensures multiset(Freqs(ls)) == Occurring(freq, |freq|)
  {
    hide Sum, Freqs, Occurring, Present;
  }

  /** The symbols that occur. */
  method Collect(freq: seq<nat>) returns (ls: seq<Leaf>)
    ensures LeavesOf(freq, ls) && Sum(Freqs(ls), 0, |ls|) == Total(freq) && |ls| == Present(freq, |freq|)
    ensures multiset(Freqs(ls)) == Occurring(freq, |freq|)
    ensures forall i, j :: 0 <= i < j < |ls| ==> ls[i].sym < ls[j].sym
  {
    hide Collecting;
    ls := [];
    CollectNothing(freq);
    for i := 0 to |freq|
      invariant Collecting(freq, i, ls)
      invariant forall x :: 0 <= x < |ls| ==> ls[x].sym < i
      invariant forall x, y :: 0 <= x < y < |ls| ==> ls[x].sym < ls[y].sym
    {
      CollectOne(freq, i, ls);
      if freq[i] > 0 {
        ls := ls + [Leaf(i, freq[i])];
      }
    }
    CollectedAll(freq, ls);
  }

  /** Writes the length of each leaf's symbol. */
  method Extract(freq: seq<nat>, ls: seq<Leaf>, dep: seq<nat>, lens: array<nat>)
    requires LeavesOf(freq, ls) && |dep| == |ls| && lens.Length == |freq|
    requires forall s :: 0 <= s < lens.Length ==> lens[s] == 0
    modifies lens
    ensures Scattered(Syms(ls), dep, lens[..])
  {
    for i := 0 to |ls|
      invariant Scattered(Syms(ls[..i]), dep[..i], lens[..])
    {
      lens[ls[i].sym] := dep[i];
      assert Syms(ls[..i + 1]) == Syms(ls[..i]) + [ls[i].sym];
    }
    assert ls[..|ls|] == ls && dep[..|ls|] == dep;
  }

  function Syms(ls: seq<Leaf>): (ss: seq<nat>)
    ensures |ss| == |ls|
  {
    seq(|ls|, i requires 0 <= i < |ls| => ls[i].sym)
  }

  // ---------------------------------------------------------------- the limiter

  /** c symbols of length d. */
  function Share(c: nat, d: nat): (w: nat)
    requires d <= MAX_LEN
  {
    c * Pow2(MAX_LEN - d)
  }

  /** The Kraft sum of a distribution, from length d on. */
  function CountKraft(cnt: seq<nat>, d: nat): (t: nat)
    requires |cnt| > MAX_LEN && 1 <= d <= MAX_LEN + 1
    decreases MAX_LEN + 1 - d
  {
    if d == MAX_LEN + 1 then 0 else Share(cnt[d], d) + CountKraft(cnt, d + 1)
  }

  lemma {:induction false} CountKraftSame(cnt: seq<nat>, other: seq<nat>, d: nat)
    requires |cnt| > MAX_LEN && |other| > MAX_LEN && 1 <= d <= MAX_LEN + 1
    requires forall i :: d <= i <= MAX_LEN ==> cnt[i] == other[i]
    ensures CountKraft(cnt, d) == CountKraft(other, d)
    decreases MAX_LEN + 1 - d
  {
    if d <= MAX_LEN {
      CountKraftSame(cnt, other, d + 1);
    }
  }

  lemma ShareMove(c: nat, e: nat, d: nat)
    requires c > 0 && d < MAX_LEN
    ensures Share(c - 1, d) + Share(e + 1, d + 1) + Pow2(MAX_LEN - 1 - d) == Share(c, d) + Share(e, d + 1)
  {
    var w := Pow2(MAX_LEN - d - 1);
    assert Pow2(MAX_LEN - d) == 2 * w;
    Distribute(2 * w, c - 1, 1);
    Distribute(w, e, 1);
  }

  /** Moving one symbol a level deeper lowers the Kraft sum by what it takes there. */
  lemma {:induction false} MoveDeeper(cnt: seq<nat>, d: nat, from: nat)
    requires |cnt| == 32 && 1 <= from <= d < MAX_LEN && cnt[d] > 0
    ensures CountKraft(cnt[d := cnt[d] - 1][d + 1 := cnt[d + 1] + 1], from) + Pow2(MAX_LEN - 1 - d)
            == CountKraft(cnt, from)
    decreases d - from
  {
    var deeper := cnt[d := cnt[d] - 1][d + 1 := cnt[d + 1] + 1];
    if from < d {
      MoveDeeper(cnt, d, from + 1);
    } else {
      ShareMove(cnt[d], cnt[d + 1], d);
      CountKraftSame(cnt, deeper, d + 2);
    }
  }

  /** With everything at the limit the sum is the number of symbols. */
  lemma {:induction false} AllDeep(cnt: seq<nat>, d: nat)
    requires |cnt| > MAX_LEN && 1 <= d <= MAX_LEN && forall i :: d <= i < MAX_LEN ==> cnt[i] == 0
    ensures CountKraft(cnt, d) == cnt[MAX_LEN]
    decreases MAX_LEN - d
  {
    if d < MAX_LEN {
      AllDeep(cnt, d + 1);
    } else {
      assert CountKraft(cnt, MAX_LEN + 1) == 0;
    }
  }

  /** The Kraft sum, as the repair loop computes it. */
  method KraftOf(cnt: array<nat>) returns (kraft: nat)
    requires cnt.Length > MAX_LEN
    ensures kraft == CountKraft(cnt[..], 1)
  {
    kraft := 0;
    for d := 1 to MAX_LEN + 1
      invariant kraft + CountKraft(cnt[..], d) == CountKraft(cnt[..], 1)
    {
      kraft := kraft + Share(cnt[d], d);
    }
  }

  /** The counts after some moves, each of the deepest symbol there is before the limit: levels before l are as they
      were, l has lost symbols, between it and the limit there is at most one symbol, which came to level f last, and
      before that last move the code space did not suffice. */
  ghost predicate Drained(from: seq<nat>, cnt: seq<nat>, l: nat, f: nat) {
    && |from| == |cnt| == 32 && 1 <= l < f <= MAX_LEN
    && (forall d :: 1 <= d < l ==> cnt[d] == from[d]) && cnt[l] < from[l]
    && (forall d :: l < d < MAX_LEN ==> cnt[d] == if d == f then 1 else 0)
    && CountKraft(cnt, 1) + Pow2(MAX_LEN - f) > Pow2(MAX_LEN)
  }

  /** One more move, from the deepest level that has a symbol. */
  lemma DrainOn(from: seq<nat>, cnt: seq<nat>, moved: bool, l: nat, f: nat, d: nat) returns (l': nat)
    requires |from| == |cnt| == 32 && if moved then Drained(from, cnt, l, f) else cnt == from
    requires 1 <= d < MAX_LEN && cnt[d] > 0 && (forall i :: d < i < MAX_LEN ==> cnt[i] == 0)
    requires CountKraft(cnt, 1) > Pow2(MAX_LEN)
    ensures Drained(from, cnt[d := cnt[d] - 1][d + 1 := cnt[d + 1] + 1], l', d + 1)
  {
    hide CountKraft, Pow2;
    MoveDeeper(cnt, d, 1);
    l' := if moved && f < MAX_LEN then l else d;
    var next := cnt[d := cnt[d] - 1][d + 1 := cnt[d + 1] + 1];
    assert next[d] == cnt[d] - 1 && next[d + 1] == cnt[d + 1] + 1;
    if moved && f < MAX_LEN {
      assert cnt[f] == 1;
      assert d == f;
    }
  }

  /** Moves symbols deeper, the deepest movable first, until the code space suffices. */
  method Repair(cnt: array<nat>, ghost n: nat)
    returns (ghost moved: bool, ghost l: nat, ghost f: nat)
    requires cnt.Length == 32 && Sum(cnt[..], 1, MAX_LEN + 1) == n <= SYMBOLS
    modifies cnt
    ensures Sum(cnt[..], 1, MAX_LEN + 1) == n && CountKraft(cnt[..], 1) <= Pow2(MAX_LEN)
    ensures if moved then Drained(old(cnt[..]), cnt[..], l, f) else cnt[..] == old(cnt[..])
    ensures cnt[MAX_LEN] >= old(cnt[MAX_LEN])
  {
    hide CountKraft, Sum, Pow2, Drained;
    moved, l, f := false, 0, 0;
    var kraft := KraftOf(cnt);
    while kraft > Pow2(MAX_LEN)
      invariant cnt[MAX_LEN] >= old(cnt[MAX_LEN])
      invariant kraft == CountKraft(cnt[..], 1) && Sum(cnt[..], 1, MAX_LEN + 1) == n
      invariant if moved then Drained(old(cnt[..]), cnt[..], l, f) else cnt[..] == old(cnt[..])
      decreases kraft
    {
      var d := Deepest(cnt, n);
      MoveDeeper(cnt[..], d, 1);
      l := DrainOn(old(cnt[..]), cnt[..], moved, l, f, d);
      moved, f := true, d + 1;
      SumUpdate(cnt[..], d, cnt[d] - 1, 1, MAX_LEN + 1);
      SumUpdate(cnt[..][d := cnt[d] - 1], d + 1, cnt[d + 1] + 1, 1, MAX_LEN + 1);
      ghost var before := cnt[..];
      cnt[d], cnt[d + 1] := cnt[d] - 1, cnt[d + 1] + 1;
      assert cnt[..] == before[d := before[d] - 1][d + 1 := before[d + 1] + 1];
      kraft := KraftOf(cnt);
    }
  }

  /** The deepest level before the limit that has a symbol; there is one while the sum is too large. */
  method Deepest(cnt: array<nat>, ghost n: nat) returns (d: nat)
    requires cnt.Length == 32 && Sum(cnt[..], 1, MAX_LEN + 1) == n <= SYMBOLS && CountKraft(cnt[..], 1) > Pow2(MAX_LEN)
    ensures 1 <= d < MAX_LEN && cnt[d] > 0 && forall i :: d < i < MAX_LEN ==> cnt[i] == 0
  {
    hide CountKraft, Sum;
    d := MAX_LEN - 1;
    while d >= 1 && cnt[d] == 0
      invariant 0 <= d < MAX_LEN && forall i :: d < i < MAX_LEN ==> cnt[i] == 0
    {
      d := d - 1;
    }
    if d == 0 {
      AllDeep(cnt[..], 1);
      LimitIsEnough(cnt[..], n);
      assert false;
    }
  }

  lemma LimitIsEnough(cnt: seq<nat>, n: nat)
    requires |cnt| == 32 && Sum(cnt, 1, MAX_LEN + 1) == n <= SYMBOLS
    ensures cnt[MAX_LEN] < Pow2(MAX_LEN)
  {
    SumLast(cnt, 1, MAX_LEN + 1);
    Pow2Eight(7);
    assert Pow2(7) == 128;
  }

  // ---------------------------------------------------------------- handing the lengths out again

  /** Symbols with a length, ranked by the length capped at the limit, then by symbol; 0 for the others. */
  function Ranks(lens: seq<nat>): (r: seq<nat>)
    ensures |r| == |lens|
  {
    seq(|lens|, s requires 0 <= s < |lens| => Rank(lens[s], s))
  }

  function Rank(d: nat, s: nat): (r: nat) { if d == 0 then 0 else SYMBOLS * Min(d, MAX_LEN) + s }

  /** So far si leaves have been given the lengths ds, in order, and the rest have theirs still to come. */
  ghost predicate Handed(ls: seq<Leaf>, ds: seq<nat>, lens: seq<nat>) {
    && |ds| <= |ls|
    && (forall i :: 0 <= i < |ds| ==> 1 <= ds[i] <= MAX_LEN && ls[i].sym < |lens| && lens[ls[i].sym] == ds[i])
    && (forall i, j :: 0 <= i <= j < |ds| ==> ds[i] <= ds[j])
  }

  lemma KraftPush(ds: seq<nat>, d: nat)
    requires 1 <= d <= MAX_LEN
    ensures Kraft(MAX_LEN, ds + [d]) == Kraft(MAX_LEN, ds) + Pow2(MAX_LEN - d)
  {
    var w := Weighs(MAX_LEN, ds + [d]);
    SumLast(w, 0, |w|);
    SumSame(w, Weighs(MAX_LEN, ds), 0, |ds|);
  }

  lemma ShareOne(c: nat, d: nat)
    requires 1 <= d <= MAX_LEN
    ensures Share(0, d) == 0 && Share(c + 1, d) == Share(c, d) + Weigh(MAX_LEN, d)
  {
    Distribute(Pow2(MAX_LEN - d), c, 1);
  }

  lemma HandOne(freq: seq<nat>, ls: seq<Leaf>, ds: seq<nat>, lens: seq<nat>, d: nat)
    requires LeavesOf(freq, ls) && |lens| == |freq| && Handed(ls, ds, lens) && |ds| < |ls|
    requires 1 <= d <= MAX_LEN && forall i :: 0 <= i < |ds| ==> ds[i] <= d
    ensures ls[|ds|].sym < |lens| && freq[ls[|ds|].sym] > 0
    ensures Handed(ls, ds + [d], lens[ls[|ds|].sym := d])
  {
  }

  /** How many symbols have length d. */
  function Having(lens: seq<nat>, d: nat): (n: nat) { multiset(lens)[d] }

  lemma HavingOne(ds: seq<nat>, e: nat, d: nat)
    ensures Having(ds + [e], d) == Having(ds, d) + if e == d then 1 else 0
  {
  }

  lemma HavingUpdate(lens: seq<nat>, s: nat, e: nat, d: nat)
    requires s < |lens|
    ensures Having(lens[s := e], d) + (if lens[s] == d then 1 else 0) == Having(lens, d) + if e == d then 1 else 0
  {
    assert lens == lens[..s] + [lens[s]] + lens[s + 1..];
    assert lens[s := e] == lens[..s] + [e] + lens[s + 1..];
  }

  /** How many have a length does not depend on which symbols those are. */
  lemma {:induction false} ScatteredHaving(syms: seq<nat>, ds: seq<nat>, lens: seq<nat>, d: nat)
    requires Scattered(syms, ds, lens) && d > 0
    ensures Having(lens, d) == Having(ds, d)
    decreases |syms|
  {
    hide Having;
    if syms == [] {
      assert forall i :: 0 <= i < |lens| ==> lens[i] == 0;
      HavingNone(lens, d);
      HavingNone(ds, d);
    } else {
      var n := |syms| - 1;
      ScatteredRest(syms, ds, lens);
      ScatteredHaving(syms[..n], ds[..n], lens[syms[n] := 0], d);
      HavingUpdate(lens, syms[n], 0, d);
      HavingOne(ds[..n], ds[n], d);
      assert ds == ds[..n] + [ds[n]];
    }
  }

  lemma HavingNone(lens: seq<nat>, d: nat)
    requires forall i :: 0 <= i < |lens| ==> lens[i] != d
    ensures Having(lens, d) == 0
  {
    assert d !in multiset(lens);
  }

  /** Gives the next n leaves length d. */
  method HandLevel(freq: seq<nat>, ls: seq<Leaf>, d: nat, n: nat, lens: array<nat>, at: nat, ghost ds: seq<nat>)
    returns (si: nat, ghost all: seq<nat>)
    requires at == |ds| && LeavesOf(freq, ls) && lens.Length == |freq| && Handed(ls, ds, lens[..]) && |ds| + n <= |ls|
    requires 1 <= d <= MAX_LEN && forall i :: 0 <= i < |ds| ==> ds[i] <= d
    modifies lens
    ensures Handed(ls, all, lens[..]) && |all| == si == at + n && forall i :: 0 <= i < |all| ==> all[i] <= d
    ensures n > 0 ==> all[|all| - 1] == d
    ensures Kraft(MAX_LEN, all) == Kraft(MAX_LEN, ds) + Share(n, d)
    ensures forall e: nat :: Having(all, e) == Having(ds, e) + if e == d then n else 0
    ensures forall s :: 0 <= s < lens.Length && freq[s] == 0 ==> lens[s] == old(lens[s])
  {
    hide Kraft, Pow2, Handed, LeavesOf, Share, Having;
    all, si := ds, at;
    ShareOne(0, d);
    for c := 0 to n
      invariant Handed(ls, all, lens[..]) && |all| == si == |ds| + c && forall i :: 0 <= i < |all| ==> all[i] <= d
      invariant c > 0 ==> all[|all| - 1] == d
      invariant Kraft(MAX_LEN, all) == Kraft(MAX_LEN, ds) + Share(c, d)
      invariant forall e: nat :: Having(all, e) == Having(ds, e) + if e == d then c else 0
      invariant forall s :: 0 <= s < lens.Length && freq[s] == 0 ==> lens[s] == old(lens[s])
    {
      KraftPush(all, d);
      ShareOne(c, d);
      forall e: nat ensures Having(all + [d], e) == Having(all, e) + if e == d then 1 else 0 {
        HavingOne(all, d, e);
      }
      HandOne(freq, ls, all, lens[..], d);
      ghost var next := lens[..][ls[si].sym := d];
      lens[ls[si].sym] := d;
      assert lens[..] == next;
      all, si := all + [d], si + 1;
    }
  }

  /** Lengths from the distribution, shortest first, to the leaves in their order. */
  method HandOut(ranks: seq<nat>, ls: seq<Leaf>, cnt: seq<nat>, lens: array<nat>) returns (ghost ds: seq<nat>)
    requires LeavesOf(ranks, ls) && lens.Length == |ranks| && |cnt| > MAX_LEN && Sum(cnt, 1, MAX_LEN + 1) == |ls|
    requires forall s :: 0 <= s < lens.Length ==> (lens[s] > 0 <==> ranks[s] > 0)
    modifies lens
    ensures Handed(ls, ds, lens[..]) && |ds| == |ls|
    ensures cnt[MAX_LEN] > 0 ==> ds != [] && ds[|ds| - 1] == MAX_LEN
    ensures forall s :: 0 <= s < lens.Length ==> (lens[s] > 0 <==> ranks[s] > 0) && lens[s] <= MAX_LEN
    ensures Kraft(MAX_LEN, lens[..]) == CountKraft(cnt, 1)
    ensures forall e :: 1 <= e <= MAX_LEN ==> Having(lens[..], e) == cnt[e]
  {
    hide Kraft, Sum, LeavesOf, Share, Having;
    ds := [];
    var si := 0;
    KraftNone();
    SumNone(cnt, 1);
    forall e: nat ensures Having(ds, e) == 0 {
      HavingNone(ds, e);
    }
    for d := 1 to MAX_LEN + 1
      invariant Handed(ls, ds, lens[..]) && si == |ds| == Sum(cnt, 1, d) && forall i :: 0 <= i < |ds| ==> ds[i] < d
      invariant Kraft(MAX_LEN, ds) + CountKraft(cnt, d) == CountKraft(cnt, 1)
      invariant forall s :: 0 <= s < lens.Length && ranks[s] == 0 ==> lens[s] == 0
      invariant d > 1 && cnt[d - 1] > 0 ==> ds != [] && ds[|ds| - 1] == d - 1
      invariant forall e: nat :: Having(ds, e) == if 1 <= e < d then cnt[e] else 0
    {
      SumLast(cnt, 1, d + 1);
      SumPrefix(cnt, d + 1);
      si, ds := HandLevel(ranks, ls, d, cnt[d], lens, si, ds);
    }
    AllHanded(ranks, ls, ds, lens[..]);
    ScatteredKraft(MAX_LEN, Syms(ls), ds, lens[..]);
    forall e | 1 <= e <= MAX_LEN ensures Having(lens[..], e) == cnt[e] {
      ScatteredHaving(Syms(ls), ds, lens[..], e);
    }
  }

  lemma KraftNone()
    ensures Kraft(MAX_LEN, []) == 0
  {
  }

  lemma SumNone(w: seq<nat>, i: nat)
    requires i <= |w|
    ensures Sum(w, i, i) == 0
  {
  }

  lemma SumPrefix(cnt: seq<nat>, d: nat)
    requires |cnt| > MAX_LEN && 1 <= d <= MAX_LEN + 1
    ensures Sum(cnt, 1, d) <= Sum(cnt, 1, MAX_LEN + 1)
  {
    SumSplit(cnt, 1, d, MAX_LEN + 1);
  }

  lemma AllHanded(ranks: seq<nat>, ls: seq<Leaf>, ds: seq<nat>, lens: seq<nat>)
    requires LeavesOf(ranks, ls) && |lens| == |ranks| && Handed(ls, ds, lens) && |ds| == |ls|
    requires forall s :: 0 <= s < |lens| && ranks[s] == 0 ==> lens[s] == 0
    ensures Scattered(Syms(ls), ds, lens)
    ensures forall s :: 0 <= s < |lens| ==> (lens[s] > 0 <==> ranks[s] > 0) && lens[s] <= MAX_LEN
  {
    forall s | 0 <= s < |lens| && ranks[s] > 0 ensures s in Syms(ls) && 1 <= lens[s] <= MAX_LEN {
      var i := PlaceOf(ranks, ls, s);
      assert Syms(ls)[i] == s;
    }
  }

  /** Lengths handed out by rank do not fall as the rank rises. */
  lemma HandedByRank(ranks: seq<nat>, ls: seq<Leaf>, ds: seq<nat>, lens: seq<nat>)
    requires LeavesOf(ranks, ls) && |lens| == |ranks| && Handed(ls, ds, lens) && |ds| == |ls|
    requires Ascending(Freqs(ls), 0, |ls|)
    ensures forall s, t :: 0 <= s < |lens| && 0 <= t < |lens| && 0 < ranks[s] < ranks[t] ==> lens[s] <= lens[t]
  {
    forall s, t | 0 <= s < |lens| && 0 <= t < |lens| && 0 < ranks[s] < ranks[t] ensures lens[s] <= lens[t] {
      InOrder(ranks, ls, ds, lens, s, t);
    }
  }

  lemma PlaceOf(ranks: seq<nat>, ls: seq<Leaf>, s: nat) returns (i: nat)
    requires LeavesOf(ranks, ls) && s < |ranks| && ranks[s] > 0
    ensures i < |ls| && ls[i] == Leaf(s, ranks[s])
  {
    i :| 0 <= i < |ls| && ls[i] == Leaf(s, ranks[s]);
  }

  lemma InOrder(ranks: seq<nat>, ls: seq<Leaf>, ds: seq<nat>, lens: seq<nat>, s: nat, t: nat)
    requires LeavesOf(ranks, ls) && |lens| == |ranks| && Handed(ls, ds, lens) && |ds| == |ls|
    requires Ascending(Freqs(ls), 0, |ls|) && s < |lens| && t < |lens| && 0 < ranks[s] < ranks[t]
    ensures lens[s] <= lens[t]
  {
    var i := PlaceOf(ranks, ls, s);
    var j := PlaceOf(ranks, ls, t);
    assert Freqs(ls)[i] < Freqs(ls)[j];
  }

  // ---------------------------------------------------------------- counting the lengths

  /** bl_count: how many symbols have each length. */
  method CountEach(lens: seq<nat>) returns (cnt: array<nat>)
    requires forall s :: 0 <= s < |lens| ==> lens[s] <= MAX_DEPTH
    ensures fresh(cnt) && cnt.Length == 32 && Sum(cnt[..], 1, 32) == Present(lens, |lens|)
    ensures forall s :: 0 <= s < |lens| && lens[s] > 0 ==> cnt[lens[s]] > 0
    ensures forall d :: 1 <= d < 32 ==> cnt[d] == Having(lens, d)
  {
    hide Sum, Having;
    cnt := new nat[32];
    forall d | 0 <= d < 32 { cnt[d] := 0; }
    SumZero(cnt[..], 1, 32);
    forall d | 1 <= d < 32 ensures Having(lens[..0], d) == 0 {
      HavingNone(lens[..0], d);
    }
    for i := 0 to |lens|
      invariant Sum(cnt[..], 1, 32) == Present(lens, i)
      invariant forall s :: 0 <= s < i && lens[s] > 0 ==> cnt[lens[s]] > 0
      invariant forall d :: 1 <= d < 32 ==> cnt[d] == Having(lens[..i], d)
    {
      assert lens[..i + 1] == lens[..i] + [lens[i]];
      forall d | 1 <= d < 32 ensures Having(lens[..i + 1], d) == Having(lens[..i], d) + if lens[i] == d then 1 else 0 {
        HavingOne(lens[..i], lens[i], d);
      }
      if lens[i] > 0 {
        SumUpdate(cnt[..], lens[i], cnt[lens[i]] + 1, 1, 32);
        ghost var before := cnt[..];
        cnt[lens[i]] := cnt[lens[i]] + 1;
        assert cnt[..] == before[lens[i] := before[lens[i]] + 1];
      }
    }
    assert lens[..|lens|] == lens;
  }

  /** The counts, with the lengths beyond the limit counted at the limit. */
  method CountLengths(lens: seq<nat>) returns (cnt: array<nat>)
    requires forall s :: 0 <= s < |lens| ==> lens[s] <= MAX_DEPTH
    ensures fresh(cnt) && cnt.Length == 32 && Sum(cnt[..], 1, MAX_LEN + 1) == Present(lens, |lens|)
    ensures (exists s :: 0 <= s < |lens| && lens[s] > MAX_LEN) ==> cnt[MAX_LEN] > 0
    ensures forall d :: 1 <= d < MAX_LEN ==> cnt[d] == Having(lens, d)
  {
    hide Sum, Having;
    cnt := CountEach(lens);
    ghost var each := cnt[..];
    SumSplit(cnt[..], 1, MAX_LEN + 1, 32);
    for d := MAX_LEN + 1 to 32
      invariant Sum(cnt[..], 1, MAX_LEN + 1) + Sum(cnt[..], d, 32) == Present(lens, |lens|)
      invariant forall e :: d <= e < 32 || 1 <= e < MAX_LEN ==> cnt[e] == each[e]
      invariant forall e :: MAX_LEN < e < d && each[e] > 0 ==> cnt[MAX_LEN] > 0
    {
      ghost var before := cnt[..];
      cnt[MAX_LEN], cnt[d] := cnt[MAX_LEN] + cnt[d], 0;
      assert cnt[..] == before[MAX_LEN := before[MAX_LEN] + before[d]][d := 0];
      CapOne(before, d);
    }
    SumNone(cnt[..], 32);
  }

  lemma CapOne(cnt: seq<nat>, d: nat)
    requires |cnt| == 32 && MAX_LEN < d < 32
    ensures var capped := cnt[MAX_LEN := cnt[MAX_LEN] + cnt[d]][d := 0];
            Sum(capped, 1, MAX_LEN + 1) + Sum(capped, d + 1, 32) == Sum(cnt, 1, MAX_LEN + 1) + Sum(cnt, d, 32)
  {
    var moved := cnt[MAX_LEN := cnt[MAX_LEN] + cnt[d]];
    SumUpdate(cnt, MAX_LEN, cnt[MAX_LEN] + cnt[d], 1, MAX_LEN + 1);
    SumSame(moved[d := 0], moved, 1, MAX_LEN + 1);
    SumSame(moved[d := 0], cnt, d + 1, 32);
  }

  /** The leaves of a ranking are as many as the lengths present. */
  method CollectRanked(lens: seq<nat>) returns (a: array<Leaf>)
    ensures fresh(a) && LeavesOf(Ranks(lens), a[..]) && a.Length == Present(lens, |lens|)
  {
    var ranks := Ranks(lens);
    var ls := Collect(ranks);
    PresentSame(ranks, lens, |lens|);
    a := new Leaf[|ls|](i requires 0 <= i < |ls| => ls[i]);
    assert a[..] == ls;
  }

  lemma {:induction false} PresentSame(lens: seq<nat>, other: seq<nat>, n: nat)
    requires n <= |lens| && n <= |other| && forall i :: 0 <= i < n ==> (lens[i] > 0 <==> other[i] > 0)
    ensures Present(lens, n) == Present(other, n)
  {
    if n > 0 {
      PresentSame(lens, other, n - 1);
    }
  }

  /** The lengths after the repair, by what the tree gave: as many symbols of each length below l; fewer of length l; at
      most one between it and fifteen bits, of length f; and with the code of that one, or else of one with fifteen
      bits, as it was a bit shorter, the code space did not suffice. */
  ghost predicate Repaired(tree: seq<nat>, lens: seq<nat>, l: nat, f: nat) {
    && 1 <= l < f <= 15
    && (forall d :: 1 <= d < l ==> Having(lens, d) == Having(tree, d)) && Having(lens, l) < Having(tree, l)
    && (forall d :: l < d < 15 ==> Having(lens, d) == if d == f then 1 else 0)
    && Kraft(15, lens) + Pow2(15 - f) > Pow2(15)
  }

  /** What becomes of the lengths of a tree: symbols less deep in it, or as deep and with smaller numbers, where depths
      beyond fifteen count as fifteen, have no longer codes; and the number of symbols of each length is that of the
      tree, or after the repair. */
  ghost predicate Flattened(tree: seq<nat>, lens: seq<nat>)
    requires |tree| == |lens|
  {
    && (forall s, t :: 0 <= s < |tree| && 0 <= t < |tree| && tree[s] > 0 && tree[t] > 0
                       && (Min(tree[s], 15) < Min(tree[t], 15) || (Min(tree[s], 15) == Min(tree[t], 15) && s < t))
                       ==> lens[s] <= lens[t])
    && ((forall d :: 1 <= d < 15 ==> Having(lens, d) == Having(tree, d))
        || exists l: nat, f: nat :: Repaired(tree, lens, l, f))
  }

  lemma DrainedIsRepaired(tree: seq<nat>, from: seq<nat>, cnt: seq<nat>, lens: seq<nat>, l: nat, f: nat)
    requires Drained(from, cnt, l, f) && forall d :: 1 <= d < MAX_LEN ==> from[d] == Having(tree, d)
    requires Kraft(MAX_LEN, lens) == CountKraft(cnt, 1) && forall d :: 1 <= d <= MAX_LEN ==> Having(lens, d) == cnt[d]
    ensures Repaired(tree, lens, l, f)
  {
    hide Kraft, CountKraft, Having, Pow2;
  }

  /** Depth limiting: nobody is left out, nobody exceeds fifteen bits, the code space suffices, and a symbol
      ranked behind another, by capped depth and then by number, does not get a shorter code. What is moved deeper is
      always the deepest, and no more than needed. */
  method Limit(lens: array<nat>)
    requires lens.Length == SYMBOLS && forall s :: 0 <= s < SYMBOLS ==> lens[s] <= MAX_DEPTH
    modifies lens
    ensures forall s :: 0 <= s < SYMBOLS ==> (lens[s] > 0 <==> old(lens[s]) > 0) && lens[s] <= MAX_LEN
    ensures Kraft(MAX_LEN, lens[..]) <= Pow2(MAX_LEN)
    ensures Flattened(old(lens[..]), lens[..])
    ensures old(exists s :: 0 <= s < SYMBOLS && lens[s] > MAX_LEN) ==>
              exists s :: 0 <= s < SYMBOLS && lens[s] == MAX_LEN
  {
    hide Kraft, Sum, CountKraft, LeavesOf, Pow2, Handed, Having, Drained, Repaired;
    var cnt := CountLengths(lens[..]);
    ghost var tree, from := lens[..], cnt[..];
    ghost var moved, l, f := Repair(cnt, Present(lens[..], SYMBOLS));
    var a := CollectRanked(lens[..]);
    SortByFreq(Ranks(lens[..]), a);
    ghost var ranks := Ranks(lens[..]);
    ghost var ds := HandOut(Ranks(lens[..]), a[..], cnt[..], lens);
    HandedByRank(ranks, a[..], ds, lens[..]);
    if moved {
      DrainedIsRepaired(tree, from, cnt[..], lens[..], l, f);
    }
    if cnt[MAX_LEN] > 0 {
      SomeAreLongest(a[..], ds, lens[..]);
    }
  }

  lemma SomeAreLongest(ls: seq<Leaf>, ds: seq<nat>, lens: seq<nat>)
    requires Handed(ls, ds, lens) && ds != [] && ds[|ds| - 1] == MAX_LEN
    ensures exists s :: 0 <= s < |lens| && lens[s] == MAX_LEN
  {
    assert lens[ls[|ds| - 1].sym] == MAX_LEN;
  }

  // ---------------------------------------------------------------- build_code_lengths

  /** What the codec needs of code lengths: exactly the symbols that occur have one, of at most fifteen bits, and
      there is room for all the codes. */
  ghost predicate GoodLengths(freq: seq<nat>, lens: seq<nat>) {
    && |lens| == |freq| == SYMBOLS
    && (forall s :: 0 <= s < SYMBOLS ==> (lens[s] > 0 <==> freq[s] > 0) && lens[s] <= MAX_LEN)
    && Kraft(MAX_LEN, lens) <= Pow2(MAX_LEN)
  }

  /** Total frequency from which a tree of depth 32 is possible: Fib(34). */
  const DEEP_TOTAL: nat := 5702887

  lemma FibFour(k: nat)
    ensures Fib(k + 4) == 3 * Fib(k + 1) + 2 * Fib(k) && Fib(k + 5) == 5 * Fib(k + 1) + 3 * Fib(k)
  {
    assert Fib(k + 2) == Fib(k + 1) + Fib(k) && Fib(k + 3) == Fib(k + 2) + Fib(k + 1);
    assert Fib(k + 4) == Fib(k + 3) + Fib(k + 2) && Fib(k + 5) == Fib(k + 4) + Fib(k + 3);
  }

  lemma FibStart()
    ensures Fib(2) == 1 && Fib(3) == 2
  {
  }

  lemma FibTable()
    ensures Fib(34) == DEEP_TOTAL
  {
    hide Fib;
    FibStart();
    FibFour(2);
    FibFour(6);
    FibFour(10);
    FibFour(14);
    FibFour(18);
    FibFour(22);
    FibFour(26);
    FibFour(30);
  }

  lemma HeightBound(h: nat, total: nat)
    requires Fib(h + 2) <= total < DEEP_TOTAL
    ensures h <= MAX_DEPTH
  {
    hide Fib;
    FibTable();
    if h > MAX_DEPTH {
      FibMonotone(34, h + 2);
    }
  }

  /** The depths of a tree over three or more leaves, written to their symbols: a complete code. */
  method TreeLengths(freq: seq<nat>, ls: array<Leaf>, lens: array<nat>)
    requires |freq| == lens.Length == SYMBOLS && LeavesOf(freq, ls[..]) && ls.Length >= 2
    requires Sum(Freqs(ls[..]), 0, ls.Length) < DEEP_TOTAL && multiset(Freqs(ls[..])) == Occurring(freq, |freq|)
    requires forall s :: 0 <= s < SYMBOLS ==> lens[s] == 0
    modifies ls, lens
    ensures Optimal(freq, lens[..])
    ensures forall s :: 0 <= s < SYMBOLS ==> (lens[s] > 0 <==> freq[s] > 0) && lens[s] <= MAX_DEPTH
    ensures Kraft(MAX_DEPTH + 1, lens[..]) == Pow2(MAX_DEPTH + 1)
  {
    hide Kraft, Sum, Fib, Tree, Pow2, Weigh, Worth, Optimal, Grown, Below, Occurring;
    SortByFreq(freq, ls);
    var sf := Freqs(ls[..]);
    assert forall i :: 0 <= i < ls.Length ==> Freqs(ls[..])[i] >= 1;
    var par, hgt, w := Merge(sf);
    HeightBound(hgt[2 * |sf| - 2], Sum(sf, 0, |sf|));
    var dep := Depths(|sf|, par, hgt);
    Extract(freq, ls[..], dep[..|sf|], lens);
    TreeKraft(freq, ls[..], dep[..|sf|], lens[..]);
    LeavesAreBest(sf, par[..], w, hgt, dep[..]);
    GrownLeaves(sf, par[..], w);
    TreeOptimal(freq, ls[..], w, dep[..], dep[..|sf|], lens[..]);
  }

  lemma GrownLeaves(sf: seq<nat>, par: seq<int>, w: seq<nat>)
    requires Grown(sf, par, w)
    ensures |w| == 2 * |sf| - 1 && w[..|sf|] == sf
  {
    hide Needs;
  }

  lemma {:induction false} DotIsPath(freq: seq<nat>, syms: seq<nat>, ds: seq<nat>, w: seq<nat>, dep: seq<nat>)
    requires |syms| == |ds| <= |w| && |ds| <= |dep|
    requires forall i :: 0 <= i < |syms| ==> FreqAt(freq, syms[i]) == w[i] && ds[i] == dep[i]
    ensures Dot(freq, syms, ds) == PathCost(w, dep, |syms|)
    decreases |syms|
  {
    if syms != [] {
      DotIsPath(freq, syms[..|syms| - 1], ds[..|syms| - 1], w, dep);
    }
  }

  /** The depths of the leaves make an optimal code of their symbols' lengths. */
  lemma TreeOptimal(freq: seq<nat>, ls: seq<Leaf>, w: seq<nat>, dep: seq<nat>, ds: seq<nat>, lens: seq<nat>)
    requires LeavesOf(freq, ls) && |lens| == |freq| && |ls| <= |w| && |ls| <= |dep| && ds == dep[..|ls|]
    requires Scattered(Syms(ls), ds, lens) && w[..|ls|] == Freqs(ls)
    requires Occurring(freq, |freq|) == multiset(Freqs(ls)) && Needs(multiset(Freqs(ls)), PathCost(w, dep, |ls|))
    ensures Optimal(freq, lens)
  {
    hide Needs, Occurring, Optimal, PathCost, Dot, Scattered;
    forall i | 0 <= i < |ls| ensures FreqAt(freq, Syms(ls)[i]) == w[i] {
      assert w[..|ls|][i] == w[i];
    }
    DotIsPath(freq, Syms(ls), ds, w, dep);
    ScatteredText(freq, Syms(ls), ds, lens);
    NeededIsOptimal(freq, lens);
  }

  lemma TreeKraft(freq: seq<nat>, ls: seq<Leaf>, ds: seq<nat>, lens: seq<nat>)
    requires |freq| == |lens| && LeavesOf(freq, ls) && Scattered(Syms(ls), ds, lens)
    requires forall i :: 0 <= i < |ds| ==> 1 <= ds[i] <= MAX_DEPTH
    requires Sum(Worths(ds), 0, |ds|) == Worth(0)
    ensures forall s :: 0 <= s < |lens| ==> (lens[s] > 0 <==> freq[s] > 0) && lens[s] <= MAX_DEPTH
    ensures Kraft(MAX_DEPTH + 1, lens) == Pow2(MAX_DEPTH + 1)
  {
    ScatteredKraft(MAX_DEPTH + 1, Syms(ls), ds, lens);
    SumSame(Worths(ds), Weighs(MAX_DEPTH + 1, ds), 0, |ds|);
    forall s | 0 <= s < |lens| ensures (lens[s] > 0 <==> freq[s] > 0) && lens[s] <= MAX_DEPTH {
      if freq[s] > 0 {
        var i :| 0 <= i < |ls| && ls[i] == Leaf(s, freq[s]);
        assert Syms(ls)[i] == s;
      }
      if lens[s] > 0 {
        var i :| 0 <= i < |Syms(ls)| && Syms(ls)[i] == s;
        assert freq[ls[i].sym] > 0;
      }
    }
  }

  lemma Cancel(a: int, x: int, y: int)
    requires a > 0 && a * x == a * y
    ensures x == y
  {
    if x < y {
      MulMonotone(a, x + 1, y);
      Distribute(a, x, 1);
    } else if y < x {
      MulMonotone(a, y + 1, x);
      Distribute(a, y, 1);
    }
  }

  /** A tree within the limit fills the code space of fifteen bits exactly. */
  lemma ShallowKraft(lens: seq<nat>)
    requires Kraft(MAX_DEPTH + 1, lens) == Pow2(MAX_DEPTH + 1) && forall s :: 0 <= s < |lens| ==> lens[s] <= MAX_LEN
    ensures Kraft(MAX_LEN, lens) == Pow2(MAX_LEN)
  {
    hide Pow2, Weighs, Sum;
    KraftScale(17, lens, 0);
    Pow2Add(17, MAX_LEN);
    Cancel(Pow2(17), Kraft(MAX_LEN, lens), Pow2(MAX_LEN));
  }

  lemma FewSymbols(lens: seq<nat>, ls: seq<Leaf>, freq: seq<nat>)
    requires |lens| == |freq| == SYMBOLS && LeavesOf(freq, ls) && |ls| <= 2
    requires forall s :: 0 <= s < SYMBOLS ==> lens[s] == if freq[s] > 0 then 1 else 0
    ensures GoodLengths(freq, lens)
  {
    hide Sum, Pow2;
    var ds := seq(|ls|, _ => 1);
    forall s | 0 <= s < |lens| && lens[s] > 0 ensures s in Syms(ls) {
      var k :| 0 <= k < |ls| && ls[k] == Leaf(s, freq[s]);
      assert Syms(ls)[k] == s;
    }
    ScatteredKraft(MAX_LEN, Syms(ls), ds, lens);
    OnesKraft(ds);
  }

  /** One bit each is optimal for two symbols. */
  lemma PairOptimal(lens: seq<nat>, ls: seq<Leaf>, freq: seq<nat>)
    requires |lens| == |freq| && LeavesOf(freq, ls) && |ls| == 2
    requires forall s :: 0 <= s < |lens| ==> lens[s] == if freq[s] > 0 then 1 else 0
    requires multiset(Freqs(ls)) == Occurring(freq, |freq|)
    ensures Optimal(freq, lens)
  {
    hide Needs, Optimal, Occurring, TextBits;
    var a, b := ls[0].freq, ls[1].freq;
    ScatteredOnes(lens, ls, freq);
    ScatteredText(freq, Syms(ls), [1, 1], lens);
    DotPair(freq, Syms(ls));
    PairNeeds(if a <= b then a else b, if a <= b then b else a);
    assert Freqs(ls) == [a, b];
    assert multiset{a, b} == multiset{b, a};
    NeededIsOptimal(freq, lens);
  }

  lemma ScatteredOnes(lens: seq<nat>, ls: seq<Leaf>, freq: seq<nat>)
    requires |lens| == |freq| && LeavesOf(freq, ls) && |ls| == 2
    requires forall s :: 0 <= s < |lens| ==> lens[s] == if freq[s] > 0 then 1 else 0
    ensures Scattered(Syms(ls), [1, 1], lens)
  {
    forall s | 0 <= s < |lens| && lens[s] > 0 ensures s in Syms(ls) {
      var k := PlaceOf(freq, ls, s);
      assert Syms(ls)[k] == s;
    }
  }

  lemma DotPair(freq: seq<nat>, syms: seq<nat>)
    requires |syms| == 2
    ensures Dot(freq, syms, [1, 1]) == FreqAt(freq, syms[0]) + FreqAt(freq, syms[1])
  {
    assert Dot(freq, syms[..1], [1, 1][..1]) == FreqAt(freq, syms[0]) + Dot(freq, syms[..1][..0], [1, 1][..1][..0]);
  }

  lemma PairNeeds(a: nat, b: nat)
    requires a <= b
    ensures Needs(multiset{a, b}, a + b)
  {
    assert Needs(multiset{} + multiset{a + b}, 0);
    GreedyStep(multiset{}, a, b, 0);
    assert multiset{} + multiset{b} + multiset{a} == multiset{a, b};
  }

  lemma OnesKraft(ds: seq<nat>)
    requires |ds| <= 2 && forall i :: 0 <= i < |ds| ==> ds[i] == 1
    ensures Kraft(MAX_LEN, ds) <= Pow2(MAX_LEN)
  {
    var w := Weighs(MAX_LEN, ds);
    assert Sum(w, |w|, |w|) == 0;
    if |w| == 2 {
      assert Sum(w, 1, 2) == w[1];
    }
  }

  method AnyTooLong(lens: array<nat>) returns (deep: bool)
    ensures deep <==> exists s :: 0 <= s < lens.Length && lens[s] > MAX_LEN
  {
    deep := false;
    for i := 0 to lens.Length
      invariant deep <==> exists s :: 0 <= s < i && lens[s] > MAX_LEN
    {
      if lens[i] > MAX_LEN {
        deep := true;
      }
    }
  }

  /** Lengths for these frequencies: one bit for each of one or two symbols; for more, those of an optimal code, full,
      whose tree is complete, if it keeps to fifteen bits, and otherwise what the limiter makes of it. */
  ghost predicate CodeFor(freq: seq<nat>, full: seq<nat>, lens: seq<nat>) {
    && GoodLengths(freq, lens)
    && if Present(freq, SYMBOLS) <= 2 then forall s :: 0 <= s < SYMBOLS ==> lens[s] == if freq[s] > 0 then 1 else 0
       else
         && Optimal(freq, full) && Kraft(32, full) == Pow2(32)
         && (forall s :: 0 <= s < SYMBOLS ==> (full[s] > 0 <==> freq[s] > 0))
         && if forall s :: 0 <= s < SYMBOLS ==> full[s] <= 15 then lens == full else Flattened(full, lens)
  }

  /** build_code_lengths, for totals whose trees are shallower than the 32 levels the limiter counts. The lengths are
      those of an optimal code, full, if it keeps to the limit. */
  method BuildCodeLengths(freq: seq<nat>, lens: array<nat>) returns (ghost full: seq<nat>)
    requires |freq| == lens.Length == SYMBOLS && Total(freq) < DEEP_TOTAL
    modifies lens
    ensures CodeFor(freq, full, lens[..]) && |full| == SYMBOLS
    ensures Present(freq, SYMBOLS) >= 2 ==> Optimal(freq, full)
    ensures (forall s :: 0 <= s < SYMBOLS ==> full[s] <= MAX_LEN) ==> lens[..] == full
    ensures Present(freq, SYMBOLS) >= 2 && (forall s :: 0 <= s < SYMBOLS ==> lens[s] < MAX_LEN) ==>
              Optimal(freq, lens[..])
  {
    hide Kraft, Sum, Pow2, LeavesOf, Optimal, Occurring, Flattened;
    forall s | 0 <= s < SYMBOLS { lens[s] := 0; }
    var ls := Collect(freq);
    if |ls| <= 2 {
      var i := 0;
      while i < |ls|
        invariant i <= |ls|
        invariant forall s :: 0 <= s < SYMBOLS ==> lens[s] == if exists k :: 0 <= k < i && ls[k].sym == s then 1 else 0
      {
        LeafInRange(freq, ls, i);
        lens[ls[i].sym] := 1;
        i := i + 1;
      }
      LeavesAre(freq, ls);
      FewSymbols(lens[..], ls, freq);
      if |ls| == 2 {
        PairOptimal(lens[..], ls, freq);
      }
      full := lens[..];
      return;
    }
    var a := new Leaf[|ls|](i requires 0 <= i < |ls| => ls[i]);
    assert a[..] == ls;
    TreeLengths(freq, a, lens);
    full := lens[..];
    var deep := AnyTooLong(lens);
    if !deep {
      ShallowKraft(lens[..]);
      return;
    }
    Limit(lens);
  }

  lemma LeafInRange(freq: seq<nat>, ls: seq<Leaf>, i: nat)
    requires LeavesOf(freq, ls) && i < |ls|
    ensures ls[i].sym < |freq|
  {
  }

  lemma LeavesAre(freq: seq<nat>, ls: seq<Leaf>)
    requires LeavesOf(freq, ls)
    ensures forall s :: 0 <= s < |freq| ==> (freq[s] > 0 <==> exists k :: 0 <= k < |ls| && ls[k].sym == s)
  {
    forall s | 0 <= s < |freq| && freq[s] > 0 ensures exists k :: 0 <= k < |ls| && ls[k].sym == s {
      var k :| 0 <= k < |ls| && ls[k] == Leaf(s, freq[s]);
    }
  }
}
