/** The two-queue Huffman merge: how deep the tree can get, and that its leaf depths fill the code space exactly. */
module HuffTree {
  import opened Arithmetic
  import opened Bits
  import opened HuffOptimal

  function Fib(n: nat): (f: nat) {
    if n < 2 then n else Fib(n - 1) + Fib(n - 2)
  }

  lemma {:induction false} FibMonotone(m: nat, n: nat)
    requires m <= n
    ensures Fib(m) <= Fib(n)
    decreases n
  {
    if m < n {
      FibMonotone(m, n - 1);
    }
  }

  /** w[lo..hi] added up. */
  function Sum(w: seq<nat>, lo: nat, hi: nat): (t: nat)
    requires lo <= hi <= |w|
    decreases hi - lo
  {
    if lo == hi then 0 else w[lo] + Sum(w, lo + 1, hi)
  }

  lemma {:induction false} SumLast(w: seq<nat>, lo: nat, hi: nat)
    requires lo < hi <= |w|
    ensures Sum(w, lo, hi) == Sum(w, lo, hi - 1) + w[hi - 1]
    decreases hi - lo
  {
    if lo < hi - 1 {
      SumLast(w, lo + 1, hi);
    }
  }

  lemma {:induction false} SumSame(v: seq<nat>, w: seq<nat>, lo: nat, hi: nat)
    requires lo <= hi <= |v| && hi <= |w| && forall i :: lo <= i < hi ==> v[i] == w[i]
    ensures Sum(v, lo, hi) == Sum(w, lo, hi)
    decreases hi - lo
  {
    if lo < hi {
      SumSame(v, w, lo + 1, hi);
    }
  }

  predicate Ascending(w: seq<nat>, lo: nat, hi: nat)
    requires lo <= hi <= |w|
  {
    forall i, j :: lo <= i <= j < hi ==> w[i] <= w[j]
  }

  // ---------------------------------------------------------------- the merge

  /** Read positions of the leaf and the internal queue, and the next node to create. */
  datatype Queues = Queues(lq: nat, iq: nat, next: nat)

  ghost predicate Picked(n: nat, q: Queues, i: nat) { i < q.lq || n <= i < q.iq }

  /** Both queues are in order, and nothing left in them is lighter than the last node taken. */
  ghost predicate Ordered(n: nat, w: seq<nat>, q: Queues, last: nat) {
    && q.lq <= n <= q.iq <= q.next <= |w|
    && Ascending(w, 0, n) && Ascending(w, n, q.next)
    && (forall i :: q.lq <= i < n ==> last <= w[i])
    && (forall i :: q.iq <= i < q.next ==> last <= w[i])
    && (forall i :: n <= i < q.next ==> w[i] <= 2 * last)
  }

  /** A node of height h weighs at least Fib(h + 2); what is taken next weighs at least Fib(h + 1). */
  ghost predicate Heavy(w: seq<nat>, hgt: seq<nat>, last: nat) {
    |hgt| <= |w| && forall i :: 0 <= i < |hgt| ==> Fib(hgt[i] + 2) <= w[i] && Fib(hgt[i] + 1) <= last
  }

  /** Taken nodes hang below later and higher nodes; the others have no parent. */
  ghost predicate Hung(n: nat, par: seq<int>, hgt: seq<nat>, q: Queues) {
    && |par| == 2 * n - 1 && |hgt| == q.next <= |par|
    && (forall i :: 0 <= i < |par| && !Picked(n, q, i) ==> par[i] == -1)
    && (forall i :: 0 <= i < q.next && Picked(n, q, i) ==> n <= par[i] <= q.next && i < par[i])
    && (forall i :: 0 <= i < q.next && Picked(n, q, i) && par[i] < q.next ==> hgt[i] < hgt[par[i]])
  }

  /** Every internal node has two children, the one being made has kids. */
  ghost predicate Twins(n: nat, par: seq<int>, next: nat, kids: nat) {
    && (forall v :: n <= v < next ==> multiset(par)[v] == 2)
    && multiset(par)[next] == kids
    && (forall v :: next < v ==> multiset(par)[v] == 0)
  }

  /** The node the two-queue rule takes: the lighter front, leaves first on a tie. */
  function Front(n: nat, w: seq<nat>, q: Queues): (i: nat)
    requires q.lq <= n <= q.iq <= q.next <= |w| && (q.lq < n || q.iq < q.next)
    ensures i == q.lq < n || i == q.iq < q.next
  {
    if q.lq < n && (q.iq >= q.next || w[q.lq] <= w[q.iq]) then q.lq else q.iq
  }

  function Advance(n: nat, w: seq<nat>, q: Queues): (r: Queues)
    requires q.lq <= n <= q.iq <= q.next <= |w| && (q.lq < n || q.iq < q.next)
  {
    if q.lq < n && (q.iq >= q.next || w[q.lq] <= w[q.iq]) then q.(lq := q.lq + 1) else q.(iq := q.iq + 1)
  }

  /** Weight still in the queues. */
  ghost function Left(n: nat, w: seq<nat>, q: Queues): (t: nat)
    requires q.lq <= n <= q.iq <= q.next <= |w|
  {
    Sum(w, q.lq, n) + Sum(w, q.iq, q.next)
  }

  lemma TakeOrdered(n: nat, w: seq<nat>, q: Queues, last: nat)
    requires Ordered(n, w, q, last) && (q.lq < n || q.iq < q.next)
    ensures var i := Front(n, w, q);
            && last <= w[i] && Ordered(n, w, Advance(n, w, q), w[i])
            && Left(n, w, q) == w[i] + Left(n, w, Advance(n, w, q))
  {
  }

  lemma HeavyLater(w: seq<nat>, hgt: seq<nat>, last: nat, more: nat)
    requires Heavy(w, hgt, last) && last <= more
    ensures Heavy(w, hgt, more)
  {
  }

  /** One of the two picks of a merge: the front node goes below node next. */
  method Pick(n: nat, nf: array<nat>, par: array<int>, q: Queues) returns (i: nat, r: Queues)
    requires nf.Length == par.Length && q.lq <= n <= q.iq <= q.next <= nf.Length && (q.lq < n || q.iq < q.next)
    modifies par
    ensures i == Front(n, nf[..], q) && r == Advance(n, nf[..], q) && par[..] == old(par[..])[i := q.next]
  {
    if q.lq < n && (q.iq >= q.next || nf[q.lq] <= nf[q.iq]) {
      i, r := q.lq, q.(lq := q.lq + 1);
    } else {
      i, r := q.iq, q.(iq := q.iq + 1);
    }
    par[i] := q.next;
  }

  lemma HangOne(n: nat, par: seq<int>, hgt: seq<nat>, q: Queues, i: nat, r: Queues, kids: nat)
    requires Hung(n, par, hgt, q) && Twins(n, par, q.next, kids) && q.lq <= n <= q.iq <= q.next
    requires (i == q.lq < n && r == q.(lq := q.lq + 1)) || (i == q.iq < q.next && r == q.(iq := q.iq + 1))
    requires i < |par|
    ensures Hung(n, par[i := q.next], hgt, r) && Twins(n, par[i := q.next], q.next, kids + 1)
  {
    hide Twins;
    assert par[i] == -1;
    TwinsOne(n, par, q.next, i, kids);
  }

  lemma TwinsOne(n: nat, par: seq<int>, next: nat, i: nat, kids: nat)
    requires Twins(n, par, next, kids) && i < |par| && par[i] == -1
    ensures Twins(n, par[i := next], next, kids + 1)
  {
    ghost var p := par[i := next];
    assert multiset(p) == multiset(par) - multiset{-1} + multiset{next as int};
  }

  // ---------------------------------------------------------------- why the merge is right

  /** The weights still in the queues. */
  ghost function Queued(n: nat, w: seq<nat>, q: Queues): (m: multiset<nat>)
    requires q.lq <= n <= q.iq <= q.next <= |w|
  {
    multiset(w[q.lq..n]) + multiset(w[q.iq..q.next])
  }

  /** The weights of the nodes from i on that hang below v. */
  ghost function Hanging(par: seq<int>, w: seq<nat>, i: nat, v: nat): (t: nat)
    requires i <= |par| == |w|
    decreases |par| - i
  {
    if i == |par| then 0 else (if par[i] == v then w[i] else 0) + Hanging(par, w, i + 1, v)
  }

  /** Internal nodes weigh what hangs below them. No code for the leaves can do without the weights of the internal
      nodes and what the nodes in the queues still need. */
  ghost predicate Best(sf: seq<nat>, n: nat, w: seq<nat>, par: seq<int>, q: Queues) {
    && q.lq <= n <= q.iq <= q.next <= |w| == |par|
    && Reduces(multiset(sf), Queued(n, w, q), Sum(w, n, q.next))
    && forall v :: n <= v < q.next ==> w[v] == Hanging(par, w, 0, v)
  }

  lemma {:induction false} HangElsewhere(par: seq<int>, w: seq<nat>, k: nat, x: int, i: nat, v: nat)
    requires i <= |par| == |w| && k < |par|
    ensures Hanging(par[k := x], w, i, v) + (if i <= k && par[k] == v then w[k] else 0)
            == Hanging(par, w, i, v) + (if i <= k && x == v then w[k] else 0)
    decreases |par| - i
  {
    if i < |par| {
      HangElsewhere(par, w, k, x, i + 1, v);
    }
  }

  lemma {:induction false} HangOther(par: seq<int>, w: seq<nat>, k: nat, y: nat, i: nat, v: nat)
    requires i <= |par| == |w| && k < |par| && par[k] != v
    ensures Hanging(par, w[k := y], i, v) == Hanging(par, w, i, v)
    decreases |par| - i
  {
    if i < |par| {
      HangOther(par, w, k, y, i + 1, v);
    }
  }

  lemma {:induction false} NoneHang(par: seq<int>, w: seq<nat>, i: nat, v: nat)
    requires i <= |par| == |w| && forall k :: i <= k < |par| ==> par[k] != v
    ensures Hanging(par, w, i, v) == 0
    decreases |par| - i
  {
    if i < |par| {
      NoneHang(par, w, i + 1, v);
    }
  }

  lemma FirstOff(w: seq<nat>, lo: nat, hi: nat)
    requires lo < hi <= |w|
    ensures multiset(w[lo..hi]) == multiset{w[lo]} + multiset(w[lo + 1..hi])
  {
    assert w[lo..hi] == [w[lo]] + w[lo + 1..hi];
  }

  lemma TakeLeaf(n: nat, w: seq<nat>, q: Queues)
    requires q.lq < n <= q.iq <= q.next <= |w|
    ensures Queued(n, w, q) == Queued(n, w, q.(lq := q.lq + 1)) + multiset{w[q.lq]}
  {
    FirstOff(w, q.lq, n);
  }

  lemma TakeInner(n: nat, w: seq<nat>, q: Queues)
    requires q.lq <= n <= q.iq < q.next <= |w|
    ensures Queued(n, w, q) == Queued(n, w, q.(iq := q.iq + 1)) + multiset{w[q.iq]}
  {
    FirstOff(w, q.iq, q.next);
  }

  lemma TakeQueued(n: nat, w: seq<nat>, q: Queues)
    requires q.lq <= n <= q.iq <= q.next <= |w| && (q.lq < n || q.iq < q.next)
    ensures Queued(n, w, q) == Queued(n, w, Advance(n, w, q)) + multiset{w[Front(n, w, q)]}
  {
    hide Queued;
    if Front(n, w, q) == q.lq < n {
      TakeLeaf(n, w, q);
    } else {
      TakeInner(n, w, q);
    }
  }

  lemma MakeQueued(n: nat, w: seq<nat>, q: Queues, x: nat)
    requires q.lq <= n <= q.iq <= q.next < |w|
    ensures Queued(n, w[q.next := x], q.(next := q.next + 1)) == Queued(n, w, q) + multiset{x}
  {
    var v := w[q.next := x];
    assert v[q.lq..n] == w[q.lq..n];
    assert v[q.iq..q.next + 1] == w[q.iq..q.next] + [x];
    assert multiset(w[q.iq..q.next] + [x]) == multiset(w[q.iq..q.next]) + multiset{x};
  }

  lemma MakeSum(n: nat, w: seq<nat>, next: nat, x: nat)
    requires n <= next < |w|
    ensures Sum(w[next := x], n, next + 1) == Sum(w, n, next) + x
  {
    SumLast(w[next := x], n, next + 1);
    SumSame(w[next := x], w, n, next);
  }

  lemma NoneLighter(n: nat, w: seq<nat>, q: Queues, last: nat)
    requires Ordered(n, w, q, last)
    ensures forall x :: x in Queued(n, w, q) ==> last <= x
  {
    forall x | x in Queued(n, w, q) ensures last <= x {
      assert x in w[q.lq..n] || x in w[q.iq..q.next];
    }
  }

  /** A merge keeps what internal nodes weigh. */
  lemma HangTwo(n: nat, par: seq<int>, w: seq<nat>, next: nat, i: nat, j: nat)
    requires |w| == |par| && i < next && j < next && i != j && n <= next < |par| && par[i] == par[j] == par[next] == -1
    requires forall v :: n <= v < next ==> w[v] == Hanging(par, w, 0, v)
    requires forall k :: 0 <= k < |par| ==> par[k] != next
    ensures var u := w[next := w[i] + w[j]];
            forall v :: n <= v < next + 1 ==> u[v] == Hanging(par[i := next][j := next], u, 0, v)
  {
    var hung, u := par[i := next][j := next], w[next := w[i] + w[j]];
    forall v | n <= v < next + 1 ensures u[v] == Hanging(hung, u, 0, v) {
      HangOther(hung, w, next, w[i] + w[j], 0, v);
      HangElsewhere(par, w, i, next, 0, v);
      HangElsewhere(par[i := next], w, j, next, 0, v);
      if v == next {
        NoneHang(par, w, 0, v);
      }
    }
  }

  /** Taking the two lightest keeps the bound. */
  lemma SpendOn(sf: seq<nat>, n: nat, w: seq<nat>, par: seq<int>, q: Queues, last: nat)
    requires Best(sf, n, w, par, q) && Ordered(n, w, q, last) && q.next < |w| && q.lq + q.iq + 2 <= n + q.next
    ensures var i, q0 := Front(n, w, q), Advance(n, w, q);
            var j, q1 := Front(n, w, q0), Advance(n, w, q0);
            var u := w[q.next := w[i] + w[j]];
            Reduces(multiset(sf), Queued(n, u, q1.(next := q.next + 1)), Sum(u, n, q.next + 1))
  {
    hide Ordered, Queued, Reduces, Sum, Hanging, Left;
    var i, q0 := Front(n, w, q), Advance(n, w, q);
    TakeOrdered(n, w, q, last);
    TakeQueued(n, w, q);
    var j, q1 := Front(n, w, q0), Advance(n, w, q0);
    TakeOrdered(n, w, q0, w[i]);
    TakeQueued(n, w, q0);
    NoneLighter(n, w, q1, w[j]);
    ReducesOn(multiset(sf), Queued(n, w, q1), w[i], w[j], Sum(w, n, q.next));
    MakeQueued(n, w, q1, w[i] + w[j]);
    MakeSum(n, w, q.next, w[i] + w[j]);
  }

  /** The bound survives a merge. */
  lemma MakeBest(sf: seq<nat>, n: nat, w: seq<nat>, par: seq<int>, q: Queues, last: nat, hgt: seq<nat>)
    requires Best(sf, n, w, par, q) && Ordered(n, w, q, last) && q.lq + q.iq + 2 <= n + q.next && q.next < |w|
    requires Hung(n, par, hgt, q) && Twins(n, par, q.next, 0)
    ensures var i, q0 := Front(n, w, q), Advance(n, w, q);
            var j, q1 := Front(n, w, q0), Advance(n, w, q0);
            Best(sf, n, w[q.next := w[i] + w[j]], par[i := q.next][j := q.next], q1.(next := q.next + 1))
  {
    hide Ordered, Queued, Reduces, Sum, Hanging, Left, Needs;
    SpendOn(sf, n, w, par, q, last);
    forall k | 0 <= k < |par| ensures par[k] != q.next {
      assert par[k] in multiset(par);
    }
    var i, q0 := Front(n, w, q), Advance(n, w, q);
    var j, q1 := Front(n, w, q0), Advance(n, w, q0);
    HangTwo(n, par, w, q.next, i, j);
    assert Best(sf, n, w[q.next := w[i] + w[j]], par[i := q.next][j := q.next], q1.(next := q.next + 1));
  }

  function Max(a: nat, b: nat): (m: nat) { if a <= b then b else a }

  /** The new node keeps the internal queue in order: both its parts weigh at least half of any node before it. */
  lemma MakeOrdered(n: nat, w: seq<nat>, q: Queues, q1: Queues, last: nat, a: nat, b: nat)
    requires Ordered(n, w, q, last) && Ordered(n, w, q1, b) && q1.next == q.next < |w| && last <= a <= b
    ensures var v := w[q.next := a + b];
            Ordered(n, v, q1.(next := q.next + 1), b) && Left(n, v, q1.(next := q.next + 1)) == Left(n, w, q1) + a + b
  {
    var v := w[q.next := a + b];
    SumSame(v, w, q1.lq, n);
    SumSame(v, w, q1.iq, q.next);
    SumLast(v, q1.iq, q.next + 1);
  }

  lemma MakeHeavy(w: seq<nat>, hgt: seq<nat>, next: nat, last: nat, i: nat, j: nat)
    requires i < next && j < next && |hgt| == next < |w|
    requires Heavy(w, hgt, last) && Heavy(w, hgt, w[j]) && last <= w[i] <= w[j]
    ensures Heavy(w[next := w[i] + w[j]], hgt + [1 + Max(hgt[i], hgt[j])], w[j])
  {
    var h := Max(hgt[i], hgt[j]);
    assert Fib(h + 3) == Fib(h + 2) + Fib(h + 1);
    assert Fib(hgt[i] + 2) <= w[i] && Fib(hgt[j] + 2) <= w[j];
    assert Fib(hgt[i] + 1) <= last && Fib(hgt[j] + 1) <= last;
  }

  lemma MakeHung(n: nat, par: seq<int>, before: seq<int>, hgt: seq<nat>, q: Queues, q1: Queues, i: nat, j: nat)
    requires Twins(n, before, q.next, 0) && Hung(n, par, hgt, q1) && q1.next == q.next < |par| == |before|
    requires i < q.next && j < q.next && q1.lq <= n <= q1.iq <= q.next
    requires forall k :: 0 <= k < |par| && k != i && k != j ==> par[k] == before[k]
    ensures Hung(n, par, hgt + [1 + Max(hgt[i], hgt[j])], q1.(next := q.next + 1))
  {
    forall k | 0 <= k < |par| && k != i && k != j ensures par[k] != q.next {
      assert before[k] in multiset(before);
    }
  }

  lemma MakeTwins(n: nat, par: seq<int>, next: nat)
    requires Twins(n, par, next, 2)
    ensures Twins(n, par, next + 1, 0)
  {
  }

  /** The state between merges. */
  ghost predicate Going(sf: seq<nat>, n: nat, w: seq<nat>, par: seq<int>, q: Queues, last: nat, hgt: seq<nat>) {
    && Ordered(n, w, q, last) && Heavy(w, hgt, last) && Hung(n, par, hgt, q) && Twins(n, par, q.next, 0)
    && Best(sf, n, w, par, q) && Left(n, w, q) == Sum(sf, 0, |sf|)
  }

  /** The two picks, one after the other. */
  lemma PicksKeep(n: nat, w: seq<nat>, par: seq<int>, q: Queues, last: nat, hgt: seq<nat>)
    requires Ordered(n, w, q, last) && Heavy(w, hgt, last) && Hung(n, par, hgt, q) && Twins(n, par, q.next, 0)
    requires |w| == |par| && q.lq <= n <= q.iq <= q.next < |w| && q.lq + q.iq + 2 <= n + q.next
    ensures var i, q0 := Front(n, w, q), Advance(n, w, q);
            var j, q1 := Front(n, w, q0), Advance(n, w, q0);
            var hung := par[i := q.next][j := q.next];
            && last <= w[i] <= w[j] && Ordered(n, w, q1, w[j]) && Heavy(w, hgt, w[j])
            && Hung(n, hung, hgt, q1) && Twins(n, hung, q.next, 2) && |hgt| == q.next
            && Left(n, w, q) == w[i] + w[j] + Left(n, w, q1)
  {
    hide Ordered, Heavy, Hung, Twins, Left;
    var i, q0 := Front(n, w, q), Advance(n, w, q);
    TakeOrdered(n, w, q, last);
    HeavyLater(w, hgt, last, w[i]);
    HangOne(n, par, hgt, q, i, q0, 0);
    var j, q1 := Front(n, w, q0), Advance(n, w, q0);
    TakeOrdered(n, w, q0, w[i]);
    HeavyLater(w, hgt, w[i], w[j]);
    HangOne(n, par[i := q.next], hgt, q0, j, q1, 1);
    HgtLength(n, par, hgt, q);
  }

  /** A merge keeps the state. */
  lemma MergeKeeps(sf: seq<nat>, n: nat, w: seq<nat>, par: seq<int>, q: Queues, last: nat, hgt: seq<nat>)
    requires Going(sf, n, w, par, q, last, hgt)
    requires |w| == |par| && q.lq <= n <= q.iq <= q.next < |w| && q.lq + q.iq + 2 <= n + q.next
    ensures var i, q0 := Front(n, w, q), Advance(n, w, q);
            var j, q1 := Front(n, w, q0), Advance(n, w, q0);
            |hgt| == q.next
            && Going(sf, n, w[q.next := w[i] + w[j]], par[i := q.next][j := q.next], q1.(next := q.next + 1), w[j],
                     hgt + [1 + Max(hgt[i], hgt[j])])
  {
    hide Ordered, Heavy, Hung, Twins, Left, Best;
    var i, q0 := Front(n, w, q), Advance(n, w, q);
    var j, q1 := Front(n, w, q0), Advance(n, w, q0);
    var hung := par[i := q.next][j := q.next];
    PicksKeep(n, w, par, q, last, hgt);
    MakeOrdered(n, w, q, q1, last, w[i], w[j]);
    MakeHeavy(w, hgt, q.next, last, i, j);
    MakeHung(n, hung, par, hgt, q, q1, i, j);
    MakeTwins(n, hung, q.next);
    MakeBest(sf, n, w, par, q, last, hgt);
  }

  /** One merge: the two lightest nodes become the children of a new one. */
  method MergeTwo(n: nat, nf: array<nat>, par: array<int>, q: Queues, ghost last: nat, ghost hgt: seq<nat>,
                  ghost sf: seq<nat>)
    returns (r: Queues, ghost last1: nat, ghost hgt1: seq<nat>)
    requires nf.Length == par.Length && q.lq <= n <= q.iq <= q.next < nf.Length && q.lq + q.iq + 2 <= n + q.next
    requires Going(sf, n, nf[..], par[..], q, last, hgt)
    modifies nf, par
    ensures r.lq <= n <= r.iq < r.next == q.next + 1 && r.lq + r.iq == q.lq + q.iq + 2
    ensures Going(sf, n, nf[..], par[..], r, last1, hgt1) && nf[..n] == old(nf[..n])
  {
    hide Going, Front, Advance;
    ghost var before, w := par[..], nf[..];
    MergeKeeps(sf, n, w, before, q, last, hgt);
    QueuesShrink(n, w, q);
    var i, q0 := Pick(n, nf, par, q);
    QueuesShrink(n, w, q0);
    var j, q1 := Pick(n, nf, par, q0);
    hgt1 := hgt + [1 + Max(hgt[i], hgt[j])];
    nf[q.next] := nf[i] + nf[j];
    assert nf[..] == w[q.next := w[i] + w[j]];
    r, last1 := q1.(next := q.next + 1), w[j];
  }

  lemma QueuesShrink(n: nat, w: seq<nat>, q: Queues)
    requires q.lq <= n <= q.iq <= q.next <= |w| && (q.lq < n || q.iq < q.next)
    ensures var r := Advance(n, w, q);
            r.lq <= n <= r.iq <= r.next == q.next && r.lq + r.iq == q.lq + q.iq + 1
  {
  }

  lemma HgtLength(n: nat, par: seq<int>, hgt: seq<nat>, q: Queues)
    requires Hung(n, par, hgt, q)
    ensures |hgt| == q.next
  {
  }

  // ---------------------------------------------------------------- the whole tree

  const MAX_DEPTH: nat := 31

  /** par is a binary tree over n leaves: parents come later and higher, and every internal node has two children. */
  ghost predicate Tree(n: nat, par: seq<int>, hgt: seq<nat>) {
    && n >= 2 && |par| == |hgt| == 2 * n - 1 && par[2 * n - 2] == -1
    && (forall i :: 0 <= i < 2 * n - 2 ==> n <= par[i] < 2 * n - 1 && i < par[i] && hgt[i] < hgt[par[i]])
    && (forall v :: n <= v < 2 * n - 1 ==> multiset(par)[v] == 2)
    && (forall v :: 0 <= v < n ==> multiset(par)[v] == 0)
  }

  lemma NotThere(par: seq<int>, v: nat)
    requires forall i :: 0 <= i < |par| ==> par[i] != v
    ensures multiset(par)[v] == 0
  {
    assert (v as int) !in par;
  }

  lemma TreeDone(n: nat, par: seq<int>, hgt: seq<nat>)
    requires n >= 2 && Hung(n, par, hgt, Queues(n, 2 * n - 2, 2 * n - 1)) && Twins(n, par, 2 * n - 1, 0)
    ensures Tree(n, par, hgt)
  {
    forall v | 0 <= v < n ensures multiset(par)[v] == 0 {
      NotThere(par, v);
    }
    forall i | 0 <= i < 2 * n - 2 ensures n <= par[i] < 2 * n - 1 && i < par[i] && hgt[i] < hgt[par[i]] {
      assert Picked(n, Queues(n, 2 * n - 2, 2 * n - 1), i);
      assert par[i] in multiset(par);
    }
  }

  /** Nodes with weights w and parents par, over leaves of weights sf: internal nodes weigh what hangs below them, and
      no code for the leaves is cheaper than the internal nodes are heavy. */
  ghost predicate Grown(sf: seq<nat>, par: seq<int>, w: seq<nat>) {
    var n := |sf|;
    && n >= 1 && |w| == |par| == 2 * n - 1 && w[..n] == sf
    && Needs(multiset(sf), Sum(w, n, 2 * n - 1)) && w[2 * n - 2] == Sum(sf, 0, n)
    && forall v :: n <= v < 2 * n - 1 ==> w[v] == Hanging(par, w, 0, v)
  }

  lemma BestStart(sf: seq<nat>, w: seq<nat>, par: seq<int>)
    requires |sf| >= 2 && |w| == |par| == 2 * |sf| - 1 && w[..|sf|] == sf
    ensures Best(sf, |sf|, w, par, Queues(0, |sf|, |sf|))
  {
    hide Reduces;
    assert w[0..|sf|] == sf && w[|sf|..|sf|] == [];
    assert Queued(|sf|, w, Queues(0, |sf|, |sf|)) == multiset(sf);
    ReducesNothing(multiset(sf));
  }

  lemma BestEnd(sf: seq<nat>, w: seq<nat>, par: seq<int>)
    requires |sf| >= 2 && |w| == |par| == 2 * |sf| - 1 && w[..|sf|] == sf
    requires Best(sf, |sf|, w, par, Queues(|sf|, 2 * |sf| - 2, 2 * |sf| - 1))
    requires Left(|sf|, w, Queues(|sf|, 2 * |sf| - 2, 2 * |sf| - 1)) == Sum(sf, 0, |sf|)
    ensures Grown(sf, par, w)
  {
    hide Reduces, Queued;
    var q := Queues(|sf|, 2 * |sf| - 2, 2 * |sf| - 1);
    assert Sum(w, 2 * |sf| - 2, 2 * |sf| - 1) == w[2 * |sf| - 2];
    ReducedAway(multiset(sf), Queued(|sf|, w, q), Sum(w, |sf|, 2 * |sf| - 1));
  }

  /** The two-queue merge over weights in ascending order. The whole weight bounds the height by Fibonacci numbers. */
  method Merge(sf: seq<nat>) returns (par: array<int>, ghost hgt: seq<nat>, ghost w: seq<nat>)
    requires |sf| >= 2 && Ascending(sf, 0, |sf|) && forall i :: 0 <= i < |sf| ==> sf[i] >= 1
    ensures fresh(par) && par.Length == |hgt| == 2 * |sf| - 1 && Tree(|sf|, par[..], hgt)
    ensures Fib(hgt[2 * |sf| - 2] + 2) <= Sum(sf, 0, |sf|)
    ensures Grown(sf, par[..], w)
  {
    hide Ordered, Heavy, Hung, Twins, Left, Tree, Best;
    var n := |sf|;
    var nf := new nat[2 * n - 1];
    par := new int[2 * n - 1];
    forall i | 0 <= i < 2 * n - 1 { par[i] := -1; }
    forall i | 0 <= i < 2 * n - 1 { nf[i] := if i < n then sf[i] else 0; }
    var q := Queues(0, n, n);
    hgt := seq(n, _ => 0);
    ghost var last := 1;
    MergeStart(sf, nf[..], par[..], hgt);
    BestStart(sf, nf[..], par[..]);
    for m := 0 to n - 1
      invariant q.lq <= n <= q.iq <= q.next == n + m && q.lq + q.iq == n + 2 * m && (m > 0 ==> q.iq < q.next)
      invariant Going(sf, n, nf[..], par[..], q, last, hgt) && nf[..n] == sf
    {
      q, last, hgt := MergeTwo(n, nf, par, q, last, hgt, sf);
    }
    w := nf[..];
    assert q == Queues(n, 2 * n - 2, 2 * n - 1);
    BestEnd(sf, w, par[..]);
    TreeDone(n, par[..], hgt);
    RootWeight(n, nf[..], hgt, last);
    HgtLength(n, par[..], hgt, q);
  }

  lemma MergeStart(sf: seq<nat>, w: seq<nat>, par: seq<int>, hgt: seq<nat>)
    requires |sf| >= 2 && Ascending(sf, 0, |sf|) && forall i :: 0 <= i < |sf| ==> sf[i] >= 1
    requires |w| == |par| == 2 * |sf| - 1 && w[..|sf|] == sf && forall i :: 0 <= i < |par| ==> par[i] == -1
    requires |hgt| == |sf| && forall i :: 0 <= i < |hgt| ==> hgt[i] == 0
    ensures var q := Queues(0, |sf|, |sf|);
            && Ordered(|sf|, w, q, 1) && Heavy(w, hgt, 1) && Hung(|sf|, par, hgt, q) && Twins(|sf|, par, |sf|, 0)
            && Left(|sf|, w, q) == Sum(sf, 0, |sf|)
  {
    assert forall i :: 0 <= i < |sf| ==> w[i] == w[..|sf|][i] == sf[i];
    SumSame(w, sf, 0, |sf|);
    forall v | |sf| <= v ensures multiset(par)[v] == 0 {
      NotThere(par, v);
    }
  }

  lemma RootWeight(n: nat, w: seq<nat>, hgt: seq<nat>, last: nat)
    requires n >= 2 && |w| == |hgt| == 2 * n - 1
    requires Heavy(w, hgt, last) && Ordered(n, w, Queues(n, 2 * n - 2, 2 * n - 1), last)
    ensures Fib(hgt[2 * n - 2] + 2) <= Left(n, w, Queues(n, 2 * n - 2, 2 * n - 1))
  {
    assert Sum(w, 2 * n - 2, 2 * n - 1) == w[2 * n - 2];
  }

  // ---------------------------------------------------------------- depths

  lemma {:induction false} SumUpdate(w: seq<nat>, p: nat, v: nat, lo: nat, hi: nat)
    requires lo <= p < hi <= |w|
    ensures Sum(w[p := v], lo, hi) == Sum(w, lo, hi) - w[p] + v
    decreases hi - lo
  {
    if lo < p {
      SumUpdate(w, p, v, lo + 1, hi);
    } else {
      SumSame(w[p := v], w, lo + 1, hi);
    }
  }

  lemma {:induction false} SumZero(w: seq<nat>, lo: nat, hi: nat)
    requires lo <= hi <= |w| && forall i :: lo <= i < hi ==> w[i] == 0
    ensures Sum(w, lo, hi) == 0
    decreases hi - lo
  {
    if lo < hi {
      SumZero(w, lo + 1, hi);
    }
  }

  lemma {:induction false} SumSplit(w: seq<nat>, lo: nat, mid: nat, hi: nat)
    requires lo <= mid <= hi <= |w|
    ensures Sum(w, lo, hi) == Sum(w, lo, mid) + Sum(w, mid, hi)
    decreases mid - lo
  {
    if lo < mid {
      SumSplit(w, lo + 1, mid, hi);
    }
  }

  /** What a place at depth d is worth, in units of the smallest. */
  function Worth(d: nat): (w: nat) { if d > MAX_DEPTH + 1 then 0 else Pow2(MAX_DEPTH + 1 - d) }

  lemma HalfWorth(d: nat)
    requires d <= MAX_DEPTH
    ensures Worth(d) == 2 * Worth(d + 1)
  {
  }

  /** Children of node j from i on. */
  ghost function Kids(par: seq<int>, i: nat, j: nat): (k: nat)
    requires i <= |par|
  {
    multiset(par[i..])[j]
  }

  lemma KidsStep(par: seq<int>, i: nat, j: nat)
    requires i < |par|
    ensures Kids(par, i, j) == Kids(par, i + 1, j) + (if par[i] == j then 1 else 0)
  {
    assert par[i..] == [par[i]] + par[i + 1..];
  }

  lemma KidsBound(par: seq<int>, i: nat, j: nat)
    requires i <= |par|
    ensures Kids(par, i, j) <= multiset(par)[j]
  {
    assert par == par[..i] + par[i..];
  }

  /** Children have lower numbers than their parent. */
  lemma NoKidsYet(n: nat, par: seq<int>, hgt: seq<nat>, i: nat)
    requires Tree(n, par, hgt) && i < 2 * n - 1
    ensures Kids(par, i, i) == 0
  {
    NotThere(par[i..], i);
  }

  /** What free places below a node at depth d are worth. */
  function Room(d: nat, free: nat): (r: nat) {
    if free == 0 then 0 else if free == 1 then Worth(d + 1) else 2 * Worth(d + 1)
  }

  /** Nodes from i on have their depths. */
  ghost predicate Deep(n: nat, par: seq<int>, hgt: seq<nat>, dep: seq<nat>, i: nat)
    requires Tree(n, par, hgt)
  {
    && |dep| == 2 * n - 1 && i <= 2 * n - 2 && dep[2 * n - 2] == 0
    && (forall j :: i <= j < 2 * n - 1 ==> dep[j] + hgt[j] <= hgt[2 * n - 2])
    && (forall j :: i <= j < 2 * n - 2 ==> dep[j] == dep[par[j]] + 1)
  }

  /** Each node from i on offers the places its children from i on have not taken. */
  ghost predicate Offers(par: seq<int>, dep: seq<nat>, room: seq<nat>, i: nat)
    requires i <= |par| == |dep|
  {
    |room| == |par|
    && forall j :: i <= j < |par| ==> Kids(par, i, j) <= 2 && room[j] == Room(dep[j], 2 - Kids(par, i, j))
  }

  lemma DeepOne(n: nat, par: seq<int>, hgt: seq<nat>, dep: seq<nat>, i: nat)
    requires Tree(n, par, hgt) && i < 2 * n - 2 && Deep(n, par, hgt, dep, i + 1)
    ensures n <= par[i] < 2 * n - 1 && i < par[i] && dep[par[i]] + 1 <= hgt[2 * n - 2]
    ensures Deep(n, par, hgt, dep[i := dep[par[i]] + 1], i)
  {
  }

  /** A child takes one of its parent's places and offers two of half the size. */
  lemma OfferOne(n: nat, par: seq<int>, hgt: seq<nat>, dep: seq<nat>, dep1: seq<nat>, room: seq<nat>, i: nat)
    returns (room1: seq<nat>)
    requires Tree(n, par, hgt) && i < 2 * n - 2 && |dep| == |par| && Offers(par, dep, room, i + 1)
    requires dep[par[i]] < MAX_DEPTH && dep1 == dep[i := dep[par[i]] + 1]
    ensures Offers(par, dep1, room1, i)
    ensures |room1| == |room| && Sum(room1, i, |par|) == Sum(room, i + 1, |par|)
  {
    hide Kids;
    var p := par[i];
    forall j | i < j < |par| ensures Kids(par, i, j) == Kids(par, i + 1, j) + (if p == j then 1 else 0) <= 2 {
      KidsStep(par, i, j);
      KidsBound(par, i, j);
    }
    NoKidsYet(n, par, hgt, i);
    HalfWorth(dep[p] + 1);
    room1 := room[p := Room(dep[p], 2 - Kids(par, i, p))][i := Room(dep1[i], 2)];
    ParentPays(room, p, Room(dep[p], 2 - Kids(par, i, p)), i, Room(dep1[i], 2));
  }

  lemma ParentPays(room: seq<nat>, p: nat, left: nat, i: nat, own: nat)
    requires i < p < |room| && room[p] == left + own
    ensures Sum(room[p := left][i := own], i, |room|) == Sum(room, i + 1, |room|)
  {
    SumUpdate(room, p, left, i + 1, |room|);
    SumSame(room[p := left][i := own], room[p := left], i + 1, |room|);
  }

  function Worths(dep: seq<nat>): (w: seq<nat>)
    ensures |w| == |dep|
  {
    seq(|dep|, i requires 0 <= i < |dep| => Worth(dep[i]))
  }

  lemma OffersStart(n: nat, par: seq<int>, hgt: seq<nat>, dep: seq<nat>) returns (room: seq<nat>)
    requires Tree(n, par, hgt) && |dep| == 2 * n - 1 && dep[2 * n - 2] == 0
    ensures Offers(par, dep, room, 2 * n - 2) && |room| == 2 * n - 1 && Sum(room, 2 * n - 2, 2 * n - 1) == Worth(0)
  {
    room := seq(2 * n - 1, _ => Worth(0));
    NoKidsYet(n, par, hgt, 2 * n - 2);
    HalfWorth(0);
    assert Sum(room, 2 * n - 2, 2 * n - 1) == room[2 * n - 2];
  }

  /** At the end the internal nodes have no places left and the leaves all of theirs. */
  lemma OffersEnd(n: nat, par: seq<int>, hgt: seq<nat>, dep: seq<nat>, room: seq<nat>)
    requires Tree(n, par, hgt) && |dep| == |par| && Offers(par, dep, room, 0)
    requires forall i :: 0 <= i < n ==> dep[i] <= MAX_DEPTH
    ensures Sum(Worths(dep[..n]), 0, n) == Sum(room, 0, 2 * n - 1)
  {
    assert par[0..] == par;
    forall j | 0 <= j < 2 * n - 1 ensures room[j] == if j < n then Worth(dep[j]) else 0 {
      assert Kids(par, 0, j) == multiset(par)[j];
      if j < n {
        HalfWorth(dep[j]);
      }
    }
    SumSplit(room, 0, n, 2 * n - 1);
    SumZero(room, n, 2 * n - 1);
    SumSame(Worths(dep[..n]), room, 0, n);
  }

  /** Depths from the root down, parents before children. The leaves fill the code space exactly. */
  method Depths(n: nat, par: array<int>, ghost hgt: seq<nat>) returns (dep: array<nat>)
    requires n >= 2 && par.Length == 2 * n - 1 && Tree(n, par[..], hgt) && hgt[2 * n - 2] <= MAX_DEPTH
    ensures fresh(dep) && dep.Length == 2 * n - 1 && forall i :: 0 <= i < n ==> 1 <= dep[i] <= MAX_DEPTH
    ensures Sum(Worths(dep[..n]), 0, n) == Worth(0) && Below(par[..], dep[..])
  {
    hide Worth, Offers, Tree, Deep;
    dep := new nat[2 * n - 1];
    dep[2 * n - 2] := 0;
    ghost var room := OffersStart(n, par[..], hgt, dep[..]);
    DeepStart(n, par[..], hgt, dep[..]);
    for i := 2 * n - 2 downto 0
      invariant par[..] == old(par[..])
      invariant Deep(n, par[..], hgt, dep[..], i)
      invariant Offers(par[..], dep[..], room, i) && |room| == 2 * n - 1 && Sum(room, i, 2 * n - 1) == Worth(0)
    {
      DeepOne(n, par[..], hgt, dep[..], i);
      ghost var before := dep[..];
      dep[i] := dep[par[i]] + 1;
      assert dep[..] == before[i := before[par[i]] + 1];
      room := OfferOne(n, par[..], hgt, before, dep[..], room, i);
    }
    DeepEnd(n, par[..], hgt, dep[..]);
    OffersEnd(n, par[..], hgt, dep[..], room);
    DeepBelow(n, par[..], hgt, dep[..]);
    assert dep[..][..n] == dep[..n];
  }

  lemma DeepStart(n: nat, par: seq<int>, hgt: seq<nat>, dep: seq<nat>)
    requires Tree(n, par, hgt) && |dep| == 2 * n - 1 && dep[2 * n - 2] == 0
    ensures Deep(n, par, hgt, dep, 2 * n - 2)
  {
  }

  lemma DeepBelow(n: nat, par: seq<int>, hgt: seq<nat>, dep: seq<nat>)
    requires Tree(n, par, hgt) && Deep(n, par, hgt, dep, 0)
    ensures Below(par, dep)
  {
  }

  lemma DeepEnd(n: nat, par: seq<int>, hgt: seq<nat>, dep: seq<nat>)
    requires Tree(n, par, hgt) && Deep(n, par, hgt, dep, 0)
    ensures |dep| == 2 * n - 1 && forall i :: 0 <= i < n ==> 1 <= dep[i] <= hgt[2 * n - 2]
  {
    forall i | 0 <= i < n ensures 1 <= dep[i] <= hgt[2 * n - 2] {
      assert dep[i] == dep[par[i]] + 1;
    }
  }

  // ---------------------------------------------------------------- what the depths cost

  /** The root has depth 0, and each other node is one deeper than its parent. */
  ghost predicate Below(par: seq<int>, dep: seq<nat>) {
    && |dep| == |par| >= 1 && dep[|par| - 1] == 0 && par[|par| - 1] == -1
    && forall j :: 0 <= j < |par| - 1 ==> j < par[j] < |par| && dep[j] == dep[par[j]] + 1
  }

  /** Each node from i on, with what does not yet hang below it, at its depth. */
  ghost predicate Owes(par: seq<int>, w: seq<nat>, dep: seq<nat>, owed: seq<nat>, i: nat)
    requires i <= |par| == |w| == |dep|
  {
    |owed| == |par|
    && forall j ::
         i <= j < |par| ==> Hanging(par, w, i, j) <= w[j] && owed[j] == (w[j] - Hanging(par, w, i, j)) * dep[j]
  }

  ghost predicate Whole(par: seq<int>, w: seq<nat>) {
    |w| == |par| && forall j :: 0 <= j < |par| ==> Hanging(par, w, 0, j) <= w[j]
  }

  lemma {:induction false} HangingGrows(par: seq<int>, w: seq<nat>, i: nat, v: nat)
    requires i <= |par| == |w|
    ensures Hanging(par, w, i, v) <= Hanging(par, w, 0, v)
    decreases i
  {
    if i > 0 {
      HangingGrows(par, w, i - 1, v);
    }
  }

  lemma HangingOne(par: seq<int>, w: seq<nat>, dep: seq<nat>, i: nat)
    requires Whole(par, w) && Below(par, dep) && i < |par| - 1
    ensures Hanging(par, w, i, i) == 0
    ensures forall j ::
              i <= j < |par| ==> Hanging(par, w, i, j) == Hanging(par, w, i + 1, j) + (if par[i] == j then w[i] else 0)
    ensures forall j :: i <= j < |par| ==> Hanging(par, w, i, j) <= w[j]
  {
    NoneHang(par, w, i, i);
    forall j | i <= j < |par| ensures Hanging(par, w, i, j) <= w[j] {
      HangingGrows(par, w, i, j);
    }
  }

  lemma OweSums(owed: seq<nat>, p: nat, left: nat, i: nat, own: nat, more: nat)
    requires i < p < |owed| && owed[p] + more == left + own
    ensures Sum(owed[p := left][i := own], i, |owed|) == Sum(owed, i + 1, |owed|) + more
  {
    SumUpdate(owed, p, left, i + 1, |owed|);
    SumSame(owed[p := left][i := own], owed[p := left], i + 1, |owed|);
  }

  lemma OweArithmetic(a: nat, b: nat, x: nat, d: nat)
    requires b + x <= a
    ensures (a - b) * d + x == (a - (b + x)) * d + x * (d + 1)
  {
    Distribute(d, a - (b + x), x);
    Distribute(x, d, 1);
  }

  /** Hanging node i below its parent costs its weight once more. */
  lemma OweOne(par: seq<int>, w: seq<nat>, dep: seq<nat>, owed: seq<nat>, i: nat) returns (owed1: seq<nat>)
    requires Whole(par, w) && Below(par, dep) && i < |par| - 1 && Owes(par, w, dep, owed, i + 1)
    ensures Owes(par, w, dep, owed1, i)
    ensures Sum(owed1, i, |par|) == Sum(owed, i + 1, |par|) + w[i]
  {
    hide Hanging, Sum;
    var p := par[i];
    HangingOne(par, w, dep, i);
    OweArithmetic(w[p], Hanging(par, w, i + 1, p), w[i], dep[p]);
    var left := (w[p] - Hanging(par, w, i, p)) * dep[p];
    owed1 := owed[p := left][i := w[i] * dep[i]];
    OweSums(owed, p, left, i, w[i] * dep[i], w[i]);
  }

  /** What the nodes from i on owe is the weight of all of them but the root. */
  lemma {:induction false} OweAll(par: seq<int>, w: seq<nat>, dep: seq<nat>, i: nat) returns (owed: seq<nat>)
    requires Whole(par, w) && Below(par, dep) && i < |par|
    ensures Owes(par, w, dep, owed, i) && Sum(owed, i, |par|) == Sum(w, i, |par| - 1)
    decreases |par| - i
  {
    hide Hanging;
    var root := |par| - 1;
    if i == root {
      owed := seq(|par|, _ => 0);
      NoneHang(par, w, root, root);
      assert Sum(owed, root, |par|) == owed[root];
    } else {
      var later := OweAll(par, w, dep, i + 1);
      owed := OweOne(par, w, dep, later, i);
    }
  }

  /** Weights times depths, added up over the first n. */
  function PathCost(w: seq<nat>, dep: seq<nat>, n: nat): (c: nat)
    requires n <= |w| && n <= |dep|
  {
    if n == 0 then 0 else w[n - 1] * dep[n - 1] + PathCost(w, dep, n - 1)
  }

  lemma {:induction false} PathSum(w: seq<nat>, dep: seq<nat>, owed: seq<nat>, n: nat)
    requires n <= |w| && n <= |dep| && n <= |owed| && forall j :: 0 <= j < n ==> owed[j] == w[j] * dep[j]
    ensures Sum(owed, 0, n) == PathCost(w, dep, n)
  {
    if n > 0 {
      PathSum(w, dep, owed, n - 1);
      SumLast(owed, 0, n);
    }
  }

  lemma GrownWhole(sf: seq<nat>, par: seq<int>, w: seq<nat>, hgt: seq<nat>)
    requires |sf| >= 2 && Grown(sf, par, w) && Tree(|sf|, par, hgt)
    ensures Whole(par, w) && forall j :: 0 <= j < |sf| ==> Hanging(par, w, 0, j) == 0
  {
    hide Needs;
    forall j | 0 <= j < |sf| ensures Hanging(par, w, 0, j) == 0 {
      NoneHang(par, w, 0, j);
    }
  }

  /** The leaves' weights times their depths are what the internal nodes weigh, and no code for them is cheaper. */
  lemma LeavesAreBest(sf: seq<nat>, par: seq<int>, w: seq<nat>, hgt: seq<nat>, dep: seq<nat>)
    requires |sf| >= 2 && Grown(sf, par, w) && Tree(|sf|, par, hgt) && Below(par, dep)
    ensures Needs(multiset(sf), PathCost(w, dep, |sf|))
  {
    hide Needs, Hanging, Sum;
    var n := |sf|;
    GrownWhole(sf, par, w, hgt);
    var owed := OweAll(par, w, dep, 0);
    SumSplit(owed, 0, n, 2 * n - 1);
    SumZero(owed, n, 2 * n - 1);
    PathSum(w, dep, owed, n);
    SumSplit(w, 0, n, 2 * n - 2);
    SumSame(w, sf, 0, n);
    SumLast(w, n, 2 * n - 1);
  }
}
