/** huff_build of zupt_lzh: a tree merged on a binary heap, clamped at fifteen bits and repaired to a complete code. */
module LzhTree {
  import opened Arithmetic
  import opened Bits
  import opened HuffTree
  import opened HuffLengths
  import opened HuffCodes
  import opened HuffTables
  import opened HuffOptimal

  // ---------------------------------------------------------------- the heap

  /** A heap entry: a symbol, or internal node number n as -(n + 1). */
  datatype Node = Node(freq: nat, id: int)

  function Parent(k: nat): (p: nat)
    requires k > 0
    ensures p < k
  {
    (k - 1) / 2
  }

  ghost predicate Heap(h: seq<Node>) { forall k :: 0 < k < |h| ==> h[Parent(k)].freq <= h[k].freq }

  /** Nothing below i is lighter than what is above it. */
  ghost predicate Across(h: seq<Node>, i: nat) {
    0 < i < |h| ==> forall k :: 0 < k < |h| && Parent(k) == i ==> h[Parent(i)].freq <= h[k].freq
  }

  /** A heap but for i, which may be lighter than its parent. */
  ghost predicate LightAt(h: seq<Node>, i: nat) {
    Across(h, i) && forall k :: 0 < k < |h| && k != i ==> h[Parent(k)].freq <= h[k].freq
  }

  /** A heap but for i, which may be heavier than its children. */
  ghost predicate HeavyAt(h: seq<Node>, i: nat) {
    Across(h, i) && forall k :: 0 < k < |h| && Parent(k) != i ==> h[Parent(k)].freq <= h[k].freq
  }

  lemma {:induction false} RootIsLeast(h: seq<Node>, k: nat)
    requires Heap(h) && k < |h|
    ensures h[0].freq <= h[k].freq
  {
    if k > 0 {
      RootIsLeast(h, Parent(k));
    }
  }

  function Swapped(h: seq<Node>, i: nat, j: nat): (g: seq<Node>)
    requires i < |h| && j < |h|
    ensures |g| == |h| && multiset(g) == multiset(h)
  {
    h[i := h[j]][j := h[i]]
  }

  lemma LiftKeeps(h: seq<Node>, i: nat)
    requires 0 < i < |h| && LightAt(h, i) && h[Parent(i)].freq > h[i].freq
    ensures LightAt(Swapped(h, i, Parent(i)), Parent(i))
  {
  }

  /** h_up: the last entry moves up to its place. */
  method SiftUp(h: array<Node>, n: nat, start: nat)
    requires start < n <= h.Length && LightAt(h[..n], start)
    modifies h
    ensures Heap(h[..n]) && multiset(h[..n]) == old(multiset(h[..n]))
  {
    hide LightAt, Across;
    var i: nat := start;
    while i > 0
      invariant i < n && LightAt(h[..n], i) && multiset(h[..n]) == old(multiset(h[..n]))
    {
      var p := Parent(i);
      if h[p].freq <= h[i].freq {
        break;
      }
      LiftKeeps(h[..n], i);
      ghost var next := Swapped(h[..n], i, p);
      h[i], h[p] := h[p], h[i];
      assert h[..n] == next;
      i := p;
    }
    LightIsHeap(h[..n], i);
  }

  lemma LightIsHeap(h: seq<Node>, i: nat)
    requires i < |h| && LightAt(h, i) && (i > 0 ==> h[Parent(i)].freq <= h[i].freq)
    ensures Heap(h)
  {
  }

  lemma SinkKeeps(h: seq<Node>, i: nat, b: nat)
    requires i < b < |h| && HeavyAt(h, i) && Parent(b) == i && h[b].freq < h[i].freq
    requires forall k :: 0 < k < |h| && Parent(k) == i ==> h[b].freq <= h[k].freq
    ensures HeavyAt(Swapped(h, i, b), b)
  {
  }

  /** h_down's choice: the entry or the lighter of its children. */
  method Lightest(h: array<Node>, n: nat, i: nat) returns (b: nat)
    requires i < n <= h.Length
    ensures b == i || (i < b < n && Parent(b) == i && h[b].freq < h[i].freq)
    ensures forall k :: 0 < k < n && Parent(k) == i ==> h[b].freq <= h[k].freq
  {
    b := i;
    var l, r := 2 * i + 1, 2 * i + 2;
    if l < n && h[l].freq < h[b].freq {
      b := l;
    }
    if r < n && h[r].freq < h[b].freq {
      b := r;
    }
  }

  /** h_down: an entry moves down to its place. */
  method SiftDown(h: array<Node>, n: nat, start: nat)
    requires start < n <= h.Length && HeavyAt(h[..n], start)
    modifies h
    ensures Heap(h[..n]) && multiset(h[..n]) == old(multiset(h[..n]))
  {
    hide HeavyAt, Across;
    var i := start;
    while true
      invariant i < n && HeavyAt(h[..n], i) && multiset(h[..n]) == old(multiset(h[..n]))
      decreases n - i
    {
      var b := Lightest(h, n, i);
      if b == i {
        break;
      }
      SinkKeeps(h[..n], i, b);
      ghost var next := Swapped(h[..n], i, b);
      h[i], h[b] := h[b], h[i];
      assert h[..n] == next;
      i := b;
    }
    HeavyIsHeap(h[..n], i);
  }

  lemma HeavyIsHeap(h: seq<Node>, i: nat)
    requires i < |h| && HeavyAt(h, i) && forall k :: 0 < k < |h| && Parent(k) == i ==> h[i].freq <= h[k].freq
    ensures Heap(h)
  {
  }

  lemma RootReplaced(h: seq<Node>)
    requires Heap(h) && |h| > 1
    ensures HeavyAt(h[..|h| - 1][0 := h[|h| - 1]], 0)
    ensures multiset(h) == multiset(h[..|h| - 1][0 := h[|h| - 1]]) + multiset{h[0]}
  {
    var n := |h| - 1;
    assert h == h[..n] + [h[n]];
  }

  /** No entry is lighter than f. */
  ghost predicate NoneBelow(h: seq<Node>, f: nat) { forall k :: 0 <= k < |h| ==> f <= h[k].freq }

  /** Takes the lightest entry off the heap. */
  method TakeLeast(h: array<Node>, n: nat) returns (a: Node)
    requires 0 < n <= h.Length && Heap(h[..n])
    modifies h
    ensures Heap(h[..n - 1]) && old(multiset(h[..n])) == multiset(h[..n - 1]) + multiset{a}
    ensures NoneBelow(h[..n - 1], a.freq)
  {
    hide Heap, HeavyAt;
    ghost var before := h[..n];
    a := h[0];
    h[0] := h[n - 1];
    if n > 1 {
      RootReplaced(before);
      assert h[..n - 1] == before[..n - 1][0 := before[n - 1]];
      SiftDown(h, n - 1, 0);
      ghost var after := h[..n - 1];
      forall k | 0 <= k < n - 1 ensures a.freq <= h[k].freq {
        assert after[k] in multiset(after);
        assert after[k] in multiset(before);
        var i :| 0 <= i < n && before[i] == after[k];
        RootIsLeast(before, i);
      }
    } else {
      NoHeap(h[..0]);
      assert before == [a];
    }
  }

  lemma NoHeap(h: seq<Node>)
    requires |h| <= 1
    ensures Heap(h)
  {
  }

  /** Adds an entry to the heap. */
  method Push(h: array<Node>, n: nat, x: Node)
    requires n < h.Length && Heap(h[..n])
    modifies h
    ensures Heap(h[..n + 1]) && multiset(h[..n + 1]) == old(multiset(h[..n])) + multiset{x}
  {
    hide Heap, LightAt;
    PushedLight(h[..n], x);
    h[n] := x;
    assert h[..n + 1] == old(h[..n]) + [x];
    SiftUp(h, n + 1, n);
  }

  lemma PushedLight(h: seq<Node>, x: Node)
    requires Heap(h)
    ensures LightAt(h + [x], |h|)
  {
  }

  // ---------------------------------------------------------------- trees

  datatype Shape = Tip(sym: nat) | Fork(left: Shape, right: Shape)

  /** The symbols of a tree from left to right. */
  function Tips(t: Shape): (syms: seq<nat>)
    ensures |syms| > 0
  {
    match t case Tip(s) => [s] case Fork(l, r) => Tips(l) + Tips(r)
  }

  /** Their depths below a root at depth d. */
  function Depths(t: Shape, d: nat): (ds: seq<nat>)
    ensures |ds| == |Tips(t)|
    ensures d > 0 || t.Fork? ==> forall i :: 0 <= i < |ds| ==> ds[i] > 0
  {
    match t case Tip(s) => [d] case Fork(l, r) => Depths(l, d + 1) + Depths(r, d + 1)
  }

  /** The depths clamped at the limit. */
  function Deps(t: Shape, d: nat): (ds: seq<nat>)
    ensures |ds| == |Tips(t)| && forall i :: 0 <= i < |ds| ==> ds[i] <= MAX_LEN
    ensures d > 0 || t.Fork? ==> forall i :: 0 <= i < |ds| ==> ds[i] > 0
  {
    match t case Tip(s) => [Min(d, MAX_LEN)] case Fork(l, r) => Deps(l, d + 1) + Deps(r, d + 1)
  }

  /** Only the lengths below the limit. */
  function Near(lens: seq<nat>): (ns: seq<nat>)
    ensures |ns| == |lens| && forall i :: 0 <= i < |ns| ==> ns[i] == if lens[i] < MAX_LEN then lens[i] else 0
  {
    seq(|lens|, i requires 0 <= i < |lens| => if lens[i] < MAX_LEN then lens[i] else 0)
  }

  lemma KraftOne(top: nat, ds: seq<nat>, d: nat)
    ensures Kraft(top, ds + [d]) == Kraft(top, ds) + Weigh(top, d)
  {
    hide Kraft, Weigh;
    KraftLast(top, ds + [d]);
    assert (ds + [d])[..|ds|] == ds;
  }

  lemma KraftNothing(top: nat)
    ensures Kraft(top, []) == 0
  {
  }

  lemma {:induction false} KraftJoin(top: nat, a: seq<nat>, b: seq<nat>)
    ensures Kraft(top, a + b) == Kraft(top, a) + Kraft(top, b)
    decreases |b|
  {
    hide Kraft;
    if b == [] {
      KraftNothing(top);
      assert a + b == a;
    } else {
      var n := |b| - 1;
      KraftJoin(top, a, b[..n]);
      KraftOne(top, a + b[..n], b[n]);
      KraftOne(top, b[..n], b[n]);
      assert a + b == a + b[..n] + [b[n]] && b == b[..n] + [b[n]];
    }
  }

  predicate Within(ds: seq<nat>, top: nat) { forall i :: 0 <= i < |ds| ==> ds[i] <= top }

  lemma WithinParts(a: seq<nat>, b: seq<nat>, top: nat)
    requires Within(a + b, top)
    ensures Within(a, top) && Within(b, top)
  {
    assert forall i :: 0 <= i < |a| ==> a[i] == (a + b)[i];
    assert forall i :: 0 <= i < |b| ==> b[i] == (a + b)[|a| + i];
  }

  /** The depths of a tree fill the code space exactly. */
  lemma {:induction false} DepthsFill(t: Shape, d: nat, top: nat)
    requires (d > 0 || t.Fork?) && Within(Depths(t, d), top)
    ensures d <= top && Kraft(top, Depths(t, d)) == Pow2(top - d)
  {
    hide Kraft, Within;
    match t {
      case Tip(s) => {
        WithinOne(d, top);
        KraftNothing(top);
        KraftOne(top, [], d);
        assert [] + [d] == [d];
      }
      case Fork(l, r) => {
        var a, b := Depths(l, d + 1), Depths(r, d + 1);
        WithinParts(a, b, top);
        DepthsFill(l, d + 1, top);
        DepthsFill(r, d + 1, top);
        KraftJoin(top, a, b);
      }
    }
  }

  lemma WithinOne(d: nat, top: nat)
    ensures Within([d], top) <==> d <= top
  {
    assert [d][0] == d;
  }

  function Highest(ds: seq<nat>): (m: nat)
    ensures Within(ds, m)
  {
    if ds == [] then 0
    else
      var m, d := Highest(ds[..|ds| - 1]), ds[|ds| - 1];
      if d > m then d else m
  }

  lemma {:induction false} DepsAreClamped(t: Shape, d: nat)
    ensures forall i :: 0 <= i < |Deps(t, d)| ==> Deps(t, d)[i] == Min(Depths(t, d)[i], 15)
  {
    match t {
      case Tip(s) =>
      case Fork(l, r) => {
        DepsAreClamped(l, d + 1);
        DepsAreClamped(r, d + 1);
      }
    }
  }

  /** What a subtree at depth d may take of the code space. */
  function Room(d: nat): (w: nat) { Pow2(MAX_LEN - Min(d, MAX_LEN)) }

  /** Clamping can only overfill the code space, and only with codes of the greatest length. */
  lemma {:induction false} Clamped(t: Shape, d: nat)
    requires d > 0
    ensures Kraft(MAX_LEN, Deps(t, d)) >= Room(d)
    ensures Kraft(MAX_LEN, Near(Deps(t, d))) <= if d < MAX_LEN then Room(d) else 0
  {
    match t {
      case Tip(s) => {
        var c := Min(d, MAX_LEN);
        KraftSingle(c);
        KraftSingle(if c < MAX_LEN then c else 0);
        assert Near([c]) == [if c < MAX_LEN then c else 0];
      }
      case Fork(l, r) => {
        hide Kraft, Deps, Near, Pow2;
        Clamped(l, d + 1);
        Clamped(r, d + 1);
        ForkKraft(l, r, d);
        HalfRoom(d);
      }
    }
  }

  /** Nothing was clamped. */
  predicate Flat(t: Shape, d: nat) {
    match t case Tip(_) => d <= MAX_LEN case Fork(l, r) => Flat(l, d + 1) && Flat(r, d + 1)
  }

  lemma LimitedConcat(a: seq<nat>, b: seq<nat>)
    ensures Limited(a + b) <==> Limited(a) && Limited(b)
  {
    assert forall i :: 0 <= i < |a| ==> (a + b)[i] == a[i];
    assert forall i :: 0 <= i < |b| ==> (a + b)[|a| + i] == b[i];
  }

  lemma {:induction false} FlatIs(t: Shape, d: nat)
    ensures Flat(t, d) <==> Limited(Depths(t, d))
    ensures Flat(t, d) ==> Deps(t, d) == Depths(t, d)
  {
    match t {
      case Tip(_) => assert Depths(t, d)[0] == d;
      case Fork(l, r) => {
        hide Limited;
        FlatIs(l, d + 1);
        FlatIs(r, d + 1);
        LimitedConcat(Depths(l, d + 1), Depths(r, d + 1));
      }
    }
  }

  /** Clamping does overfill the code space, and leaves some of it to the codes of the greatest length. */
  lemma {:induction false} Overfilled(t: Shape, d: nat)
    requires 0 < d <= MAX_LEN && !Flat(t, d)
    ensures Kraft(MAX_LEN, Deps(t, d)) > Room(d) > Kraft(MAX_LEN, Near(Deps(t, d)))
  {
    hide Kraft, Deps, Near, Pow2;
    Clamped(t.left, d + 1);
    Clamped(t.right, d + 1);
    ForkKraft(t.left, t.right, d);
    HalfRoom(d);
    if d < MAX_LEN {
      Overfilled(if Flat(t.left, d + 1) then t.right else t.left, d + 1);
    }
  }

  /** Without clamping the code space is filled exactly. */
  lemma {:induction false} FlatRoom(t: Shape, d: nat)
    requires d > 0 && Flat(t, d)
    ensures d <= MAX_LEN && Kraft(MAX_LEN, Deps(t, d)) == Room(d)
  {
    match t {
      case Tip(_) => KraftSingle(d);
      case Fork(l, r) => {
        hide Kraft, Deps, Pow2;
        FlatRoom(l, d + 1);
        FlatRoom(r, d + 1);
        ForkKraft(l, r, d);
        HalfRoom(d);
      }
    }
  }

  lemma KraftSingle(d: nat)
    ensures Kraft(MAX_LEN, [d]) == Weigh(MAX_LEN, d)
  {
    KraftNone();
    KraftOne(MAX_LEN, [], d);
    assert [] + [d] == [d];
  }

  lemma ForkKraft(l: Shape, r: Shape, d: nat)
    ensures var ds := Deps(Fork(l, r), d);
            && Kraft(MAX_LEN, ds) == Kraft(MAX_LEN, Deps(l, d + 1)) + Kraft(MAX_LEN, Deps(r, d + 1))
            && Kraft(MAX_LEN, Near(ds)) == Kraft(MAX_LEN, Near(Deps(l, d + 1))) + Kraft(MAX_LEN, Near(Deps(r, d + 1)))
  {
    ForkDeps(l, r, d);
    hide Kraft, Near, Deps;
    var a, b := Deps(l, d + 1), Deps(r, d + 1);
    KraftJoin(MAX_LEN, a, b);
    NearJoin(a, b);
    KraftJoin(MAX_LEN, Near(a), Near(b));
  }

  lemma ForkDeps(l: Shape, r: Shape, d: nat)
    ensures Deps(Fork(l, r), d) == Deps(l, d + 1) + Deps(r, d + 1)
  {
  }

  lemma NearJoin(a: seq<nat>, b: seq<nat>)
    ensures Near(a + b) == Near(a) + Near(b)
  {
  }

  lemma HalfRoom(d: nat)
    ensures d < MAX_LEN ==> Room(d) == 2 * Room(d + 1)
    ensures d >= MAX_LEN ==> Room(d) == Room(d + 1) == 1
  {
  }

  // ---------------------------------------------------------------- the tree in the child arrays

  /** Children are symbols or earlier nodes. */
  ghost predicate Kids(l: seq<int>, r: seq<int>) {
    |l| == |r| && forall x :: 0 <= x < |l| ==> -x <= l[x] && -x <= r[x]
  }

  ghost function ShapeOf(l: seq<int>, r: seq<int>, id: int): (t: Shape)
    requires Kids(l, r) && -|l| <= id
    decreases if id < 0 then -id else 0
  {
    if id >= 0 then Tip(id) else Fork(ShapeOf(l, r, l[-id - 1]), ShapeOf(l, r, r[-id - 1]))
  }

  /** Later nodes do not change a tree. */
  lemma {:induction false} ShapeStays(l: seq<int>, r: seq<int>, a: int, b: int, id: int)
    requires Kids(l, r) && -|l| <= id && -|l| <= a && -|l| <= b
    ensures Kids(l + [a], r + [b]) && ShapeOf(l + [a], r + [b], id) == ShapeOf(l, r, id)
    decreases if id < 0 then -id else 0
  {
    if id < 0 {
      ShapeStays(l, r, a, b, l[-id - 1]);
      ShapeStays(l, r, a, b, r[-id - 1]);
    }
  }

  ghost predicate Rooted(l: seq<int>, r: seq<int>, h: seq<Node>) {
    Kids(l, r) && forall i :: 0 <= i < |h| ==> -|l| <= h[i].id
  }

  /** All that counts of a forest: its symbols, the weights of its internal nodes added up, the weights of its trees,
      and whether the entries state them. */
  datatype Holdings = Holdings(tips: multiset<nat>, inner: nat, loads: multiset<nat>, stated: bool)

  function Plus(a: Holdings, b: Holdings): (c: Holdings) {
    Holdings(a.tips + b.tips, a.inner + b.inner, a.loads + b.loads, a.stated && b.stated)
  }

  const NOTHING := Holdings(multiset{}, 0, multiset{}, true)

  /** The weight of a tree. */
  function Load(freq: seq<nat>, t: Shape): (w: nat) {
    match t case Tip(s) => FreqAt(freq, s) case Fork(l, r) => Load(freq, l) + Load(freq, r)
  }

  /** The weights of its internal nodes added up. */
  function Inner(freq: seq<nat>, t: Shape): (w: nat) {
    match t
    case Tip(s) => 0
    case Fork(l, r) => Load(freq, l) + Load(freq, r) + Inner(freq, l) + Inner(freq, r)
  }

  /** What one entry holds whose tree is t. */
  function One(freq: seq<nat>, t: Shape, f: nat): (c: Holdings) {
    Holdings(multiset(Tips(t)), Inner(freq, t), multiset{f}, f == Load(freq, t))
  }

  ghost function Bag(freq: seq<nat>, l: seq<int>, r: seq<int>, h: seq<Node>): (c: Holdings)
    requires Rooted(l, r, h)
  {
    if h == [] then NOTHING else Plus(One(freq, ShapeOf(l, r, h[0].id), h[0].freq), Bag(freq, l, r, h[1..]))
  }

  lemma BagOne(freq: seq<nat>, l: seq<int>, r: seq<int>, x: Node, rest: seq<Node>)
    requires Rooted(l, r, rest) && -|l| <= x.id
    ensures Rooted(l, r, [x] + rest)
    ensures Bag(freq, l, r, [x] + rest) == Plus(One(freq, ShapeOf(l, r, x.id), x.freq), Bag(freq, l, r, rest))
  {
    hide ShapeOf, One, Plus;
    assert ([x] + rest)[1..] == rest;
  }

  lemma BagFirst(freq: seq<nat>, l: seq<int>, r: seq<int>, h: seq<Node>)
    requires Rooted(l, r, h) && h != []
    ensures Rooted(l, r, h[1..]) && -|l| <= h[0].id && Kids(l, r)
    ensures Bag(freq, l, r, h) == Plus(One(freq, ShapeOf(l, r, h[0].id), h[0].freq), Bag(freq, l, r, h[1..]))
  {
  }

  lemma PlusSwaps(a: Holdings, b: Holdings, c: Holdings)
    ensures Plus(a, Plus(b, c)) == Plus(b, Plus(a, c))
  {
  }

  lemma WithoutOne(h: seq<Node>, i: nat)
    requires 0 < i < |h|
    ensures h[..i] + h[i + 1..] == [h[0]] + (h[1..][..i - 1] + h[1..][i..])
  {
  }

  lemma {:induction false} BagRemove(freq: seq<nat>, l: seq<int>, r: seq<int>, h: seq<Node>, i: nat)
    requires Rooted(l, r, h) && i < |h|
    ensures Rooted(l, r, h[..i] + h[i + 1..]) && -|l| <= h[i].id
    ensures Bag(freq, l, r, h)
            == Plus(One(freq, ShapeOf(l, r, h[i].id), h[i].freq), Bag(freq, l, r, h[..i] + h[i + 1..]))
    decreases i
  {
    hide Bag, ShapeOf, One, Plus, Rooted, Kids;
    BagFirst(freq, l, r, h);
    if i == 0 {
      assert h[..0] + h[1..] == h[1..];
    } else {
      BagRemove(freq, l, r, h[1..], i - 1);
      var rest := h[1..][..i - 1] + h[1..][i..];
      WithoutOne(h, i);
      BagOne(freq, l, r, h[0], rest);
      PlusSwaps(One(freq, ShapeOf(l, r, h[0].id), h[0].freq), One(freq, ShapeOf(l, r, h[i].id), h[i].freq),
                Bag(freq, l, r, rest));
    }
  }

  lemma MultisetRemove(h: seq<Node>, i: nat)
    requires i < |h|
    ensures multiset(h) == multiset{h[i]} + multiset(h[..i] + h[i + 1..])
  {
    assert h == h[..i] + [h[i]] + h[i + 1..];
  }

  /** Where the first of g is in h, and that the others are the same. */
  lemma FindFirst(g: seq<Node>, h: seq<Node>) returns (i: nat)
    requires g != [] && multiset(g) == multiset(h)
    ensures i < |h| && h[i] == g[0] && multiset(g[1..]) == multiset(h[..i] + h[i + 1..])
  {
    assert g[0] in multiset(h);
    i :| 0 <= i < |h| && h[i] == g[0];
    MultisetRemove(h, i);
    assert g == [g[0]] + g[1..];
    assert multiset(g[1..]) == multiset(h) - multiset{g[0]};
  }

  lemma RootedOrder(l: seq<int>, r: seq<int>, g: seq<Node>, h: seq<Node>)
    requires Rooted(l, r, g) && multiset(g) == multiset(h)
    ensures Rooted(l, r, h) && |h| == |g|
  {
    assert |g| == |multiset(g)| && |h| == |multiset(h)|;
    forall i | 0 <= i < |h| ensures -|l| <= h[i].id {
      assert h[i] in multiset(g);
    }
  }

  /** What a forest holds does not depend on its order. */
  lemma {:induction false} BagOrder(freq: seq<nat>, l: seq<int>, r: seq<int>, g: seq<Node>, h: seq<Node>)
    requires Rooted(l, r, g) && multiset(g) == multiset(h)
    ensures Rooted(l, r, h) && Bag(freq, l, r, g) == Bag(freq, l, r, h)
    decreases |g|
  {
    hide One, Plus, ShapeOf, Rooted, Bag, Kids;
    RootedOrder(l, r, g, h);
    if g == [] {
      assert h == [];
    } else {
      BagFirst(freq, l, r, g);
      var i := FindFirst(g, h);
      BagRemove(freq, l, r, h, i);
      BagOrder(freq, l, r, g[1..], h[..i] + h[i + 1..]);
    }
  }

  /** A new root that belongs to no entry changes nothing. */
  lemma {:induction false} BagStays(freq: seq<nat>, l: seq<int>, r: seq<int>, a: int, b: int, h: seq<Node>)
    requires Rooted(l, r, h) && -|l| <= a && -|l| <= b
    ensures Rooted(l + [a], r + [b], h) && Bag(freq, l + [a], r + [b], h) == Bag(freq, l, r, h)
    decreases |h|
  {
    hide One, Plus, ShapeOf;
    ShapeStays(l, r, a, b, 0);
    if h != [] {
      ShapeStays(l, r, a, b, h[0].id);
      BagStays(freq, l, r, a, b, h[1..]);
    }
  }

  lemma RootedKids(l: seq<int>, r: seq<int>, h: seq<Node>)
    requires Rooted(l, r, h)
    ensures Kids(l, r)
  {
  }

  lemma ForkAdded(l: seq<int>, r: seq<int>, a: int, b: int)
    requires Kids(l, r) && -|l| <= a && -|l| <= b
    ensures Kids(l + [a], r + [b])
    ensures ShapeOf(l + [a], r + [b], -(|l| + 1)) == Fork(ShapeOf(l, r, a), ShapeOf(l, r, b))
  {
    ShapeStays(l, r, a, b, a);
    ShapeStays(l, r, a, b, b);
  }

  /** A merge: the symbols stay, and the weight of the new node is added. */
  ghost predicate Merged(before: Holdings, after: Holdings, a: nat, b: nat, rest: Holdings) {
    && before.stated && after.stated && after.tips == before.tips && after.inner == before.inner + a + b
    && before.loads == rest.loads + multiset{b} + multiset{a} && after.loads == rest.loads + multiset{a + b}
  }

  lemma ForkHolds(freq: seq<nat>, t: Shape, u: Shape, a: nat, b: nat, rest: Holdings)
    requires Plus(One(freq, t, a), Plus(One(freq, u, b), rest)).stated
    ensures Merged(Plus(One(freq, t, a), Plus(One(freq, u, b), rest)), Plus(One(freq, Fork(t, u), a + b), rest), a, b,
                   rest)
  {
  }

  /** Merging two trees of a forest. */
  lemma BagMerge(freq: seq<nat>, l: seq<int>, r: seq<int>, a: Node, b: Node, rest: seq<Node>)
    requires Rooted(l, r, rest) && -|l| <= a.id && -|l| <= b.id
    ensures Rooted(l, r, [b] + rest) && Rooted(l, r, [a] + ([b] + rest))
    ensures var top := Node(a.freq + b.freq, -(|l| + 1));
            var before := Bag(freq, l, r, [a] + ([b] + rest));
            Rooted(l + [a.id], r + [b.id], [top] + rest)
            && (before.stated ==> Merged(before, Bag(freq, l + [a.id], r + [b.id], [top] + rest), a.freq, b.freq,
                                         Bag(freq, l, r, rest)))
  {
    hide Bag, ShapeOf, One, Plus, Rooted, Kids, Merged;
    RootedKids(l, r, rest);
    BagOne(freq, l, r, b, rest);
    BagOne(freq, l, r, a, [b] + rest);
    BagStays(freq, l, r, a.id, b.id, rest);
    ForkAdded(l, r, a.id, b.id);
    BagOne(freq, l + [a.id], r + [b.id], Node(a.freq + b.freq, -(|l| + 1)), rest);
    if Bag(freq, l, r, [a] + ([b] + rest)).stated {
      ForkHolds(freq, ShapeOf(l, r, a.id), ShapeOf(l, r, b.id), a.freq, b.freq, Bag(freq, l, r, rest));
    }
  }

  // ---------------------------------------------------------------- merging

  /** The symbols that occur, in order. */
  function Active(freq: seq<nat>, n: nat): (syms: seq<nat>)
    requires n <= |freq|
  {
    if n == 0 then [] else Active(freq, n - 1) + (if freq[n - 1] > 0 then [n - 1] else [])
  }

  lemma {:induction false} ActiveIs(freq: seq<nat>, n: nat)
    requires n <= |freq|
    ensures forall s: nat :: s in Active(freq, n) <==> s < n && freq[s] > 0
    ensures forall i, j :: 0 <= i < j < |Active(freq, n)| ==> Active(freq, n)[i] < Active(freq, n)[j]
  {
    if n > 0 {
      ActiveIs(freq, n - 1);
      var before := Active(freq, n - 1);
      forall i | 0 <= i < |before| ensures before[i] < n - 1 {
        assert before[i] in before;
      }
    }
  }

  /** The heap of a merge under way: its trees have the symbols that occur, each once, and no code for these can do
      without what was spent on internal nodes and what the trees still need. */
  ghost predicate Forest(freq: seq<nat>, l: seq<int>, r: seq<int>, h: seq<Node>) {
    && Rooted(l, r, h) && Heap(h)
    && |h| + |l| == |Active(freq, |freq|)|
    && var bag := Bag(freq, l, r, h);
       && bag.stated && bag.tips == multiset(Active(freq, |freq|))
       && Reduces(Occurring(freq, |freq|), bag.loads, bag.inner)
  }

  /** One merge: the two lightest entries become the children of a new one. */
  method MergeTwo(freq: seq<nat>, h: array<Node>, n: nat, l: array<int>, r: array<int>, ni: nat)
    requires 1 < n <= h.Length && ni < l.Length && ni < r.Length && l != r
    requires Forest(freq, l[..ni], r[..ni], h[..n])
    modifies h, l, r
    ensures Forest(freq, l[..ni + 1], r[..ni + 1], h[..n - 1])
  {
    hide Forest, Rooted, Heap, Bag, Kids, ShapeOf, NoneBelow;
    ghost var m := h[..n];
    ghost var ls, rs := l[..ni], r[..ni];
    ForestHeap(freq, ls, rs, m);
    var a, b := TakeTwo(h, n);
    ghost var rest := h[..n - 2];
    SetChild(l, ni, a.id);
    SetChild(r, ni, b.id);
    Push(h, n - 2, Node(a.freq + b.freq, -(ni + 1)));
    ghost var after := h[..n - 1];
    assert multiset(after) == multiset(rest) + multiset{Node(a.freq + b.freq, -(ni + 1))};
    ForestMerged(freq, ls, rs, m, a, b, rest, after);
  }

  /** The two lightest entries, the lightest first. */
  method TakeTwo(h: array<Node>, n: nat) returns (a: Node, b: Node)
    requires 1 < n <= h.Length && Heap(h[..n])
    modifies h
    ensures Heap(h[..n - 2]) && old(multiset(h[..n])) == multiset(h[..n - 2]) + multiset{b} + multiset{a}
    ensures a.freq <= b.freq && NoneBelow(h[..n - 2], b.freq)
  {
    hide Heap, NoneBelow;
    ghost var all := h[..n];
    a := TakeLeast(h, n);
    ghost var others := h[..n - 1];
    b := TakeLeast(h, n - 1);
    LeastFirst(all, others, h[..n - 2], a, b);
  }

  lemma LeastFirst(all: seq<Node>, others: seq<Node>, rest: seq<Node>, a: Node, b: Node)
    requires multiset(all) == multiset(others) + multiset{a} && multiset(others) == multiset(rest) + multiset{b}
    requires NoneBelow(others, a.freq)
    ensures multiset(all) == multiset(rest) + multiset{b} + multiset{a} && a.freq <= b.freq
  {
    assert b in multiset(others);
    var k :| 0 <= k < |others| && others[k] == b;
  }

  method SetChild(l: array<int>, x: nat, id: int)
    requires x < l.Length
    modifies l
    ensures l[..x + 1] == old(l[..x]) + [id]
  {
    l[x] := id;
  }

  lemma ForestHeap(freq: seq<nat>, l: seq<int>, r: seq<int>, h: seq<Node>)
    requires Forest(freq, l, r, h)
    ensures Heap(h)
  {
  }

  /** Two entries taken off a forest. */
  lemma TakenApart(freq: seq<nat>, l: seq<int>, r: seq<int>, h: seq<Node>, a: Node, b: Node, rest: seq<Node>)
    requires Rooted(l, r, h) && multiset(h) == multiset(rest) + multiset{b} + multiset{a}
    ensures -|l| <= a.id && -|l| <= b.id && Rooted(l, r, rest)
    ensures Rooted(l, r, [a] + ([b] + rest)) && Bag(freq, l, r, [a] + ([b] + rest)) == Bag(freq, l, r, h)
  {
    hide Bag, Kids, ShapeOf, Rooted, One, Plus;
    var before := [a] + ([b] + rest);
    assert multiset(before) == multiset(h);
    RootedOrder(l, r, h, before);
    BagOrder(freq, l, r, h, before);
    BagFirst(freq, l, r, before);
    assert before[1..] == [b] + rest;
    BagFirst(freq, l, r, [b] + rest);
    assert ([b] + rest)[1..] == rest;
  }

  lemma {:induction false} LoadsFrom(freq: seq<nat>, l: seq<int>, r: seq<int>, h: seq<Node>, x: nat)
    requires Rooted(l, r, h) && x in Bag(freq, l, r, h).loads
    ensures exists k :: 0 <= k < |h| && h[k].freq == x
    decreases |h|
  {
    hide ShapeOf;
    if h[0].freq != x {
      LoadsFrom(freq, l, r, h[1..], x);
      var k :| 0 <= k < |h[1..]| && h[1..][k].freq == x;
      assert h[k + 1].freq == x;
    }
  }

  lemma NoneLighter(freq: seq<nat>, l: seq<int>, r: seq<int>, h: seq<Node>, b: nat)
    requires Rooted(l, r, h) && NoneBelow(h, b)
    ensures forall x :: x in Bag(freq, l, r, h).loads ==> b <= x
  {
    hide Bag;
    forall x | x in Bag(freq, l, r, h).loads ensures b <= x {
      LoadsFrom(freq, l, r, h, x);
    }
  }

  lemma ForestMerged(freq: seq<nat>, l: seq<int>, r: seq<int>, h: seq<Node>, a: Node, b: Node, rest: seq<Node>,
                     after: seq<Node>)
    requires Forest(freq, l, r, h) && multiset(h) == multiset(rest) + multiset{b} + multiset{a}
    requires a.freq <= b.freq && NoneBelow(rest, b.freq)
    requires Heap(after) && multiset(after) == multiset(rest) + multiset{Node(a.freq + b.freq, -(|l| + 1))}
    ensures Forest(freq, l + [a.id], r + [b.id], after)
  {
    hide Heap, Bag, Kids, ShapeOf, Active, Rooted, Reduces, Occurring;
    var top := Node(a.freq + b.freq, -(|l| + 1));
    TakenApart(freq, l, r, h, a, b, rest);
    BagMerge(freq, l, r, a, b, rest);
    NoneLighter(freq, l, r, rest, b.freq);
    ReducesOn(Occurring(freq, |freq|), Bag(freq, l, r, rest).loads, a.freq, b.freq, Bag(freq, l, r, h).inner);
    assert multiset([top] + rest) == multiset(after);
    RootedOrder(l + [a.id], r + [b.id], [top] + rest, after);
    BagOrder(freq, l + [a.id], r + [b.id], [top] + rest, after);
    assert |h| == |multiset(h)| && |rest| == |multiset(rest)|;
  }

  // ---------------------------------------------------------------- gathering the symbols

  /** The heap of the symbols below k that occur. */
  ghost predicate Gathered(freq: seq<nat>, k: nat, h: seq<Node>) {
    && k <= |freq| && Rooted([], [], h) && Heap(h)
    && Bag(freq, [], [], h) == Holdings(multiset(Active(freq, k)), 0, Occurring(freq, k), true)
    && |h| == |Active(freq, k)|
  }

  lemma TipHolds(freq: seq<nat>, k: nat, c: Holdings)
    requires k < |freq|
    ensures Plus(One(freq, ShapeOf([], [], k), freq[k]), c)
            == Holdings(multiset{k} + c.tips, c.inner, multiset{freq[k]} + c.loads, c.stated)
  {
    assert multiset(Tips(Tip(k))) == multiset{k};
  }

  lemma GatherOne(freq: seq<nat>, k: nat, h: seq<Node>, after: seq<Node>)
    requires k < |freq| && Gathered(freq, k, h) && freq[k] > 0
    requires Heap(after) && multiset(after) == multiset(h) + multiset{Node(freq[k], k)}
    ensures Gathered(freq, k + 1, after)
  {
    hide Heap, Bag, Kids, Rooted, One, Plus, ShapeOf;
    var x := Node(freq[k], k);
    RootedKids([], [], h);
    BagOne(freq, [], [], x, h);
    TipHolds(freq, k, Bag(freq, [], [], h));
    assert multiset([x] + h) == multiset(after);
    RootedOrder([], [], [x] + h, after);
    BagOrder(freq, [], [], [x] + h, after);
    assert Active(freq, k + 1) == Active(freq, k) + [k];
  }

  lemma GatherNone(freq: seq<nat>)
    ensures Gathered(freq, 0, [])
  {
  }

  lemma GatherPasses(freq: seq<nat>, k: nat, h: seq<Node>)
    requires k < |freq| && Gathered(freq, k, h) && freq[k] == 0
    ensures Gathered(freq, k + 1, h)
  {
    hide Bag;
    assert multiset{} + Occurring(freq, k) == Occurring(freq, k);
  }

  lemma GatheredHeap(freq: seq<nat>, k: nat, h: seq<Node>)
    requires Gathered(freq, k, h)
    ensures Heap(h)
  {
  }

  lemma GatheredForest(freq: seq<nat>, h: seq<Node>)
    requires Gathered(freq, |freq|, h)
    ensures Forest(freq, [], [], h)
  {
    hide Bag, Reduces;
    ReducesNothing(Occurring(freq, |freq|));
  }

  /** The heap of the symbols that occur. */
  method Gather(freq: seq<nat>, h: array<Node>) returns (n: nat)
    requires h.Length == |freq|
    modifies h
    ensures n <= h.Length && Forest(freq, [], [], h[..n])
  {
    hide Forest, Heap, Gathered;
    n := 0;
    GatherNone(freq);
    assert h[..0] == [];
    for i := 0 to |freq|
      invariant n <= i && Gathered(freq, i, h[..n])
    {
      GatheredHeap(freq, i, h[..n]);
      if freq[i] > 0 {
        ghost var before := h[..n];
        Push(h, n, Node(freq[i], i));
        n := n + 1;
        GatherOne(freq, i, before, h[..n]);
      } else {
        GatherPasses(freq, i, h[..n]);
      }
    }
    GatheredForest(freq, h[..n]);
  }

  // ---------------------------------------------------------------- the whole tree

  /** A tree over the symbols that occur, and no code is cheaper than it. */
  ghost predicate Grown(freq: seq<nat>, t: Shape) {
    t.Fork? && multiset(Tips(t)) == multiset(Active(freq, |freq|)) && Needs(Occurring(freq, |freq|), Inner(freq, t))
  }

  /** All merges: the tree of all symbols that occur. */
  method Merge(freq: seq<nat>) returns (l: seq<int>, r: seq<int>, root: int)
    requires |Active(freq, |freq|)| >= 2
    ensures Kids(l, r) && -|l| <= root < 0 && Grown(freq, ShapeOf(l, r, root))
  {
    hide Forest, Grown;
    var h := new Node[|freq|](_ => Node(0, 0));
    var lefts, rights := new int[2 * |freq|](_ => 0), new int[2 * |freq|](_ => 0);
    var n := Gather(freq, h);
    var ni := 0;
    assert lefts[..0] == [] && rights[..0] == [];
    ForestSize(freq, [], [], h[..n]);
    while n > 1
      invariant 1 <= n <= h.Length && n + ni == |Active(freq, |freq|)| <= |freq|
      invariant Forest(freq, lefts[..ni], rights[..ni], h[..n])
    {
      MergeTwo(freq, h, n, lefts, rights, ni);
      n, ni := n - 1, ni + 1;
    }
    l, r, root := lefts[..ni], rights[..ni], h[0].id;
    OneTree(freq, l, r, h[..1]);
  }

  lemma ForestSize(freq: seq<nat>, l: seq<int>, r: seq<int>, h: seq<Node>)
    requires Forest(freq, l, r, h)
    ensures |h| + |l| == |Active(freq, |freq|)| <= |freq|
  {
    ActiveShort(freq, |freq|);
  }

  lemma {:induction false} ActiveShort(freq: seq<nat>, n: nat)
    requires n <= |freq|
    ensures |Active(freq, n)| <= n
  {
    if n > 0 {
      ActiveShort(freq, n - 1);
    }
  }

  lemma OneTree(freq: seq<nat>, l: seq<int>, r: seq<int>, h: seq<Node>)
    requires Forest(freq, l, r, h) && |h| == 1 && |Active(freq, |freq|)| >= 2
    ensures Kids(l, r) && -|l| <= h[0].id < 0 && Grown(freq, ShapeOf(l, r, h[0].id))
  {
    hide ShapeOf, Tips, Active, Reduces, Inner, Occurring;
    var bag := Bag(freq, l, r, h);
    AloneHolds(freq, l, r, h);
    ReducedAway(Occurring(freq, |freq|), bag.loads, bag.inner);
    RootShape(l, r, h[0].id);
    assert |multiset(Active(freq, |freq|))| >= 2;
  }

  lemma AloneHolds(freq: seq<nat>, l: seq<int>, r: seq<int>, h: seq<Node>)
    requires Rooted(l, r, h) && |h| == 1
    ensures Bag(freq, l, r, h).tips == multiset(Tips(ShapeOf(l, r, h[0].id)))
    ensures Bag(freq, l, r, h).inner == Inner(freq, ShapeOf(l, r, h[0].id))
  {
    hide ShapeOf, Tips, Inner;
    BagFirst(freq, l, r, h);
    assert h[1..] == [];
    assert Bag(freq, l, r, []) == NOTHING;
  }

  lemma RootShape(l: seq<int>, r: seq<int>, id: int)
    requires Kids(l, r) && -|l| <= id
    ensures id < 0 <==> ShapeOf(l, r, id).Fork?
    ensures id >= 0 ==> |multiset(Tips(ShapeOf(l, r, id)))| == 1
  {
  }

  // ---------------------------------------------------------------- depths

  /** Lengths written one after another. */
  ghost function Written(lens: seq<nat>, syms: seq<nat>, ds: seq<nat>): (w: seq<nat>)
    requires |syms| == |ds| && forall i :: 0 <= i < |syms| ==> syms[i] < |lens|
    ensures |w| == |lens|
    decreases |syms|
  {
    if syms == [] then lens else Written(lens[syms[0] := ds[0]], syms[1..], ds[1..])
  }

  lemma {:induction false} WrittenJoin(lens: seq<nat>, a: seq<nat>, da: seq<nat>, b: seq<nat>, db: seq<nat>)
    requires |a| == |da| && |b| == |db|
    requires forall i :: 0 <= i < |a| ==> a[i] < |lens|
    requires forall i :: 0 <= i < |b| ==> b[i] < |lens|
    ensures Written(lens, a + b, da + db) == Written(Written(lens, a, da), b, db)
    decreases |a|
  {
    if a == [] {
      assert a + b == b && da + db == db;
    } else {
      assert (a + b)[1..] == a[1..] + b && (da + db)[1..] == da[1..] + db;
      WrittenJoin(lens[a[0] := da[0]], a[1..], da[1..], b, db);
    }
  }

  ghost predicate Distinct(syms: seq<nat>) { forall i, j :: 0 <= i < j < |syms| ==> syms[i] != syms[j] }

  lemma {:induction false} WrittenAt(lens: seq<nat>, syms: seq<nat>, ds: seq<nat>)
    requires |syms| == |ds| && forall i :: 0 <= i < |syms| ==> syms[i] < |lens|
    requires Distinct(syms)
    ensures forall i :: 0 <= i < |syms| ==> Written(lens, syms, ds)[syms[i]] == ds[i]
    ensures forall s :: 0 <= s < |lens| && s !in syms ==> Written(lens, syms, ds)[s] == lens[s]
    decreases |syms|
  {
    if syms != [] {
      var rest := syms[1..];
      WrittenAt(lens[syms[0] := ds[0]], rest, ds[1..]);
      assert forall i :: 0 <= i < |rest| ==> rest[i] == syms[i + 1] && ds[1..][i] == ds[i + 1];
      assert syms == [syms[0]] + rest;
    }
  }

  /** tree_depths. */
  method TreeDepths(l: seq<int>, r: seq<int>, id: int, depth: nat, dp: array<nat>)
    requires Kids(l, r) && -|l| <= id
    requires forall i :: 0 <= i < |Tips(ShapeOf(l, r, id))| ==> Tips(ShapeOf(l, r, id))[i] < dp.Length
    modifies dp
    ensures dp[..] == Written(old(dp[..]), Tips(ShapeOf(l, r, id)), Deps(ShapeOf(l, r, id), depth))
    decreases if id < 0 then -id else 0
  {
    ghost var before := dp[..];
    if id >= 0 {
      assert Tips(ShapeOf(l, r, id))[0] == id;
      dp[id] := Min(depth, MAX_LEN);
      assert Written(before, Tips(Tip(id)), Deps(Tip(id), depth)) == before[id := Min(depth, MAX_LEN)];
    } else {
      hide Written;
      var x := -id - 1;
      ForkSplit(l, r, id, depth);
      TipsWithin(ShapeOf(l, r, l[x]), ShapeOf(l, r, r[x]), dp.Length);
      TreeDepths(l, r, l[x], depth + 1, dp);
      TreeDepths(l, r, r[x], depth + 1, dp);
      WrittenJoin(before, Tips(ShapeOf(l, r, l[x])), Deps(ShapeOf(l, r, l[x]), depth + 1),
                  Tips(ShapeOf(l, r, r[x])), Deps(ShapeOf(l, r, r[x]), depth + 1));
    }
  }

  lemma ForkSplit(l: seq<int>, r: seq<int>, id: int, depth: nat)
    requires Kids(l, r) && -|l| <= id < 0
    ensures var t, u := ShapeOf(l, r, l[-id - 1]), ShapeOf(l, r, r[-id - 1]);
            ShapeOf(l, r, id) == Fork(t, u) && Tips(ShapeOf(l, r, id)) == Tips(t) + Tips(u)
            && Deps(ShapeOf(l, r, id), depth) == Deps(t, depth + 1) + Deps(u, depth + 1)
  {
  }

  lemma TipsWithin(t: Shape, u: Shape, n: nat)
    requires forall i :: 0 <= i < |Tips(t) + Tips(u)| ==> (Tips(t) + Tips(u))[i] < n
    ensures forall i :: 0 <= i < |Tips(t)| ==> Tips(t)[i] < n
    ensures forall i :: 0 <= i < |Tips(u)| ==> Tips(u)[i] < n
  {
    forall i | 0 <= i < |Tips(t)| ensures Tips(t)[i] < n {
      assert (Tips(t) + Tips(u))[i] == Tips(t)[i];
    }
    forall i | 0 <= i < |Tips(u)| ensures Tips(u)[i] < n {
      assert (Tips(t) + Tips(u))[|Tips(t)| + i] == Tips(u)[i];
    }
  }

  // ---------------------------------------------------------------- what the depths take of the code space

  lemma {:induction false} Repeats(b: seq<nat>, x: nat)
    requires Distinct(b)
    ensures multiset(b)[x] <= 1
    decreases |b|
  {
    if b != [] {
      var n := |b| - 1;
      assert b == b[..n] + [b[n]];
      Repeats(b[..n], x);
      if b[n] == x {
        assert x !in b[..n];
      }
    }
  }

  lemma TwiceIn(a: seq<nat>, i: nat, j: nat)
    requires i < j < |a| && a[i] == a[j]
    ensures multiset(a)[a[i]] >= 2
  {
    assert a == a[..i] + [a[i]] + a[i + 1..j] + [a[j]] + a[j + 1..];
  }

  lemma DistinctOrder(a: seq<nat>, b: seq<nat>)
    requires multiset(a) == multiset(b) && Distinct(b)
    ensures Distinct(a)
  {
    forall i, j | 0 <= i < j < |a| ensures a[i] != a[j] {
      Repeats(b, a[i]);
      if a[i] == a[j] {
        TwiceIn(a, i, j);
      }
    }
  }

  lemma WholeTree(t: Shape)
    requires t.Fork?
    ensures Kraft(MAX_LEN, Near(Deps(t, 0))) <= Pow2(MAX_LEN) <= Kraft(MAX_LEN, Deps(t, 0))
    ensures if Flat(t, 0) then Kraft(MAX_LEN, Deps(t, 0)) == Pow2(MAX_LEN)
            else Kraft(MAX_LEN, Near(Deps(t, 0))) < Pow2(MAX_LEN) < Kraft(MAX_LEN, Deps(t, 0))
  {
    hide Kraft, Deps, Near, Pow2;
    Clamped(t.left, 1);
    Clamped(t.right, 1);
    ForkKraft(t.left, t.right, 0);
    HalfRoom(0);
    if Flat(t, 0) {
      FlatRoom(t.left, 1);
      FlatRoom(t.right, 1);
    } else {
      Overfilled(if Flat(t.left, 1) then t.right else t.left, 1);
    }
  }

  lemma {:induction false} DotJoin(freq: seq<nat>, a: seq<nat>, da: seq<nat>, b: seq<nat>, db: seq<nat>)
    requires |a| == |da| && |b| == |db|
    ensures Dot(freq, a + b, da + db) == Dot(freq, a, da) + Dot(freq, b, db)
    decreases |b|
  {
    if b == [] {
      assert a + b == a && da + db == da;
    } else {
      var n := |b| - 1;
      assert (a + b)[..|a + b| - 1] == a + b[..n] && (da + db)[..|da + db| - 1] == da + db[..n];
      DotJoin(freq, a, da, b[..n], db[..n]);
    }
  }

  lemma ForkCost(freq: seq<nat>, l: Shape, r: Shape, d: nat)
    requires Dot(freq, Tips(l), Depths(l, d + 1)) == Inner(freq, l) + (d + 1) * Load(freq, l)
    requires Dot(freq, Tips(r), Depths(r, d + 1)) == Inner(freq, r) + (d + 1) * Load(freq, r)
    ensures Dot(freq, Tips(Fork(l, r)), Depths(Fork(l, r), d))
            == Inner(freq, Fork(l, r)) + d * Load(freq, Fork(l, r))
  {
    ForkParts(freq, l, r, d);
    hide Dot, Tips, Depths, Inner, Load;
    DotJoin(freq, Tips(l), Depths(l, d + 1), Tips(r), Depths(r, d + 1));
    Deepen(Load(freq, l), Load(freq, r), d);
  }

  lemma ForkParts(freq: seq<nat>, l: Shape, r: Shape, d: nat)
    ensures Tips(Fork(l, r)) == Tips(l) + Tips(r) && Depths(Fork(l, r), d) == Depths(l, d + 1) + Depths(r, d + 1)
    ensures Load(freq, Fork(l, r)) == Load(freq, l) + Load(freq, r)
    ensures Inner(freq, Fork(l, r)) == Load(freq, l) + Load(freq, r) + Inner(freq, l) + Inner(freq, r)
  {
  }

  lemma Deepen(v: int, w: int, d: int)
    ensures (d + 1) * v + (d + 1) * w == v + w + d * (v + w)
  {
    Distribute(d + 1, v, w);
  }

  lemma TipCost(freq: seq<nat>, s: nat, d: nat)
    ensures Dot(freq, Tips(Tip(s)), Depths(Tip(s), d)) == Inner(freq, Tip(s)) + d * Load(freq, Tip(s))
  {
    assert Tips(Tip(s)) == [s] && Depths(Tip(s), d) == [d];
    DotSingle(freq, s, d);
  }

  /** The weights of the internal nodes are the lengths of the codes, each as often as it is used. */
  lemma {:induction false} TreeCost(freq: seq<nat>, t: Shape, d: nat)
    ensures Dot(freq, Tips(t), Depths(t, d)) == Inner(freq, t) + d * Load(freq, t)
  {
    hide Dot, Tips, Depths, Inner, Load;
    match t {
      case Tip(s) => TipCost(freq, s, d);
      case Fork(l, r) => {
        TreeCost(freq, l, d + 1);
        TreeCost(freq, r, d + 1);
        ForkCost(freq, l, r, d);
      }
    }
  }

  lemma DotSingle(freq: seq<nat>, s: nat, d: nat)
    ensures Dot(freq, [s], [d]) == d * FreqAt(freq, s)
  {
    assert Dot(freq, [s][..0], [d][..0]) == 0;
  }

  /** The symbols that occur have lengths that fill the code space. Where they overfill it, they leave some of it to
      codes of the greatest length; otherwise no code is cheaper. */
  ghost predicate Full(freq: seq<nat>, lens: seq<nat>) {
    && |lens| == |freq|
    && (forall s :: 0 <= s < |lens| ==> (lens[s] > 0 <==> freq[s] > 0) && lens[s] <= MAX_LEN)
    && Kraft(MAX_LEN, Near(lens)) <= Pow2(MAX_LEN) <= Kraft(MAX_LEN, lens)
    && (Kraft(MAX_LEN, lens) > Pow2(MAX_LEN) ==> Kraft(MAX_LEN, Near(lens)) < Pow2(MAX_LEN))
    && (Kraft(MAX_LEN, lens) == Pow2(MAX_LEN) ==> Optimal(freq, lens))
  }

  /** Lengths written to cleared ones for the symbols of a tree. */
  lemma DepthsWritten(freq: seq<nat>, t: Shape, none: seq<nat>, ds: seq<nat>, lens: seq<nat>)
    requires Grown(freq, t) && |ds| == |Tips(t)| && forall i :: 0 <= i < |ds| ==> ds[i] > 0
    requires |none| == |freq| && forall s :: 0 <= s < |none| ==> none[s] == 0
    requires forall i :: 0 <= i < |Tips(t)| ==> Tips(t)[i] < |freq|
    requires lens == Written(none, Tips(t), ds)
    ensures Scattered(Tips(t), ds, lens)
    ensures forall s :: 0 <= s < |lens| ==> (lens[s] > 0 <==> freq[s] > 0)
  {
    hide Active, Tips, Written, Needs, Inner, Occurring;
    var syms := Tips(t);
    ActiveIs(freq, |freq|);
    DistinctOrder(syms, Active(freq, |freq|));
    WrittenAt(none, syms, ds);
    SameMembers(syms, Active(freq, |freq|));
    WrittenScattered(freq, syms, ds, none, lens);
  }

  /** The depths of a complete tree that is an optimal code. */
  ghost predicate TreeOf(freq: seq<nat>, full: seq<nat>) {
    && |full| == |freq| && Optimal(freq, full) && (forall s :: 0 <= s < |freq| ==> (full[s] > 0 <==> freq[s] > 0))
    && exists top: nat :: (forall s :: 0 <= s < |freq| ==> full[s] <= top) && Kraft(top, full) == Pow2(top)
  }

  lemma ScatteredTree(freq: seq<nat>, t: Shape, full: seq<nat>)
    requires Grown(freq, t) && |full| == |freq| && Scattered(Tips(t), Depths(t, 0), full) && Optimal(freq, full)
    requires forall s :: 0 <= s < |freq| ==> (full[s] > 0 <==> freq[s] > 0)
    ensures TreeOf(freq, full)
  {
    hide Kraft, Pow2, Optimal, Needs, Inner, Occurring, Active, Depths, Tips;
    var ds := Depths(t, 0);
    var top := Highest(ds);
    DepthsFill(t, 0, top);
    ScatteredKraft(top, Tips(t), ds, full);
    forall s | 0 <= s < |freq| ensures full[s] <= top {
      if full[s] > 0 {
        var i :| 0 <= i < |Tips(t)| && Tips(t)[i] == s;
        assert full[s] == ds[i];
      }
    }
  }

  lemma ScatteredClamped(t: Shape, lens: seq<nat>, full: seq<nat>)
    requires |lens| == |full| && Scattered(Tips(t), Deps(t, 0), lens) && Scattered(Tips(t), Depths(t, 0), full)
    ensures forall s :: 0 <= s < |full| ==> lens[s] == Min(full[s], 15)
  {
    hide Depths, Tips, Deps;
    DepsAreClamped(t, 0);
    forall s | 0 <= s < |full| ensures lens[s] == Min(full[s], 15) {
      if s in Tips(t) {
        var i :| 0 <= i < |Tips(t)| && Tips(t)[i] == s;
        assert full[s] == Depths(t, 0)[i] && lens[s] == Deps(t, 0)[i];
      }
    }
  }

  lemma ScatteredFull(freq: seq<nat>, t: Shape, lens: seq<nat>, full: seq<nat>)
    requires Grown(freq, t) && |lens| == |full| == |freq|
    requires Scattered(Tips(t), Deps(t, 0), lens) && Scattered(Tips(t), Depths(t, 0), full)
    requires forall s :: 0 <= s < |lens| ==> (lens[s] > 0 <==> freq[s] > 0)
    ensures Full(freq, lens) && Optimal(freq, full)
    ensures Limited(full) ==> full == lens && Kraft(MAX_LEN, lens) == Pow2(MAX_LEN)
  {
    hide Kraft, Near, Active, Tips, Deps, Depths, Pow2, Optimal, Needs, TextBits, Inner, Occurring, Dot, Flat,
      Scattered;
    ScatteredKraft(MAX_LEN, Tips(t), Deps(t, 0), lens);
    NearScattered(Tips(t), Deps(t, 0), lens);
    ScatteredKraft(MAX_LEN, Tips(t), Near(Deps(t, 0)), Near(lens));
    ScatteredBound(Tips(t), Deps(t, 0), lens);
    WholeTree(t);
    TreeCost(freq, t, 0);
    ScatteredText(freq, Tips(t), Depths(t, 0), full);
    NeededIsOptimal(freq, full);
    FlatIs(t, 0);
    ScatteredAll(Tips(t), Depths(t, 0), full);
    if Flat(t, 0) {
      ScatteredSame(Tips(t), Depths(t, 0), lens, full);
    }
  }

  lemma ScatteredBound(syms: seq<nat>, ds: seq<nat>, lens: seq<nat>)
    requires Scattered(syms, ds, lens) && Limited(ds)
    ensures Limited(lens)
  {
    forall s | 0 <= s < |lens| ensures lens[s] <= MAX_LEN {
      if s in syms {
        var i :| 0 <= i < |syms| && syms[i] == s;
        assert lens[syms[i]] == ds[i];
      }
    }
  }

  lemma ScatteredAll(syms: seq<nat>, ds: seq<nat>, lens: seq<nat>)
    requires Scattered(syms, ds, lens)
    ensures Limited(lens) ==> Limited(ds)
  {
  }

  lemma ScatteredSame(syms: seq<nat>, ds: seq<nat>, lens: seq<nat>, full: seq<nat>)
    requires Scattered(syms, ds, lens) && Scattered(syms, ds, full) && |lens| == |full|
    ensures lens == full
  {
    forall s | 0 <= s < |lens| ensures lens[s] == full[s] {
      if s in syms {
        var i :| 0 <= i < |syms| && syms[i] == s;
        assert lens[syms[i]] == ds[i] == full[syms[i]];
      }
    }
  }

  lemma WrittenScattered(freq: seq<nat>, syms: seq<nat>, ds: seq<nat>, none: seq<nat>, lens: seq<nat>)
    requires |syms| == |ds| && Distinct(syms) && |lens| == |none| == |freq|
    requires forall s: nat :: s in syms <==> s < |freq| && freq[s] > 0
    requires forall i :: 0 <= i < |ds| ==> 0 < ds[i]
    requires forall i :: 0 <= i < |syms| ==> syms[i] < |lens| && lens[syms[i]] == ds[i]
    requires forall s :: 0 <= s < |lens| && s !in syms ==> lens[s] == none[s] == 0
    ensures Scattered(syms, ds, lens)
    ensures forall s :: 0 <= s < |lens| ==> (lens[s] > 0 <==> freq[s] > 0)
  {
    forall s | 0 <= s < |lens| ensures lens[s] > 0 <==> freq[s] > 0 {
      if s in syms {
        var i :| 0 <= i < |syms| && syms[i] == s;
        assert lens[syms[i]] == ds[i];
      }
    }
  }

  lemma NearScattered(syms: seq<nat>, ds: seq<nat>, lens: seq<nat>)
    requires Scattered(syms, ds, lens)
    ensures Scattered(syms, Near(ds), Near(lens))
  {
  }

  /** The tree's part of huff_build, for two or more symbols: lengths that are those of an optimal code where that
      keeps to the limit. */
  method ClampedLengths(freq: seq<nat>) returns (dp: array<nat>, ghost full: seq<nat>)
    requires |Active(freq, |freq|)| >= 2
    ensures fresh(dp) && Full(freq, dp[..]) && TreeOf(freq, full)
    ensures dp.Length == |freq| && forall s :: 0 <= s < |freq| ==> dp[s] == Min(full[s], 15)
    ensures Limited(full) ==> dp[..] == full && Kraft(MAX_LEN, dp[..]) == Pow2(MAX_LEN)
  {
    hide Active, Tips, Deps, Depths, Full, Written, Needs, Inner, Occurring, Optimal, Kraft, Pow2, TreeOf, Scattered;
    var l, r, root := Merge(freq);
    dp := new nat[|freq|](_ => 0);
    ghost var t := ShapeOf(l, r, root);
    ghost var none := dp[..];
    TipsInRange(freq, t);
    TreeDepths(l, r, root, 0, dp);
    full := Written(none, Tips(t), Depths(t, 0));
    DepthsWritten(freq, t, none, Deps(t, 0), dp[..]);
    DepthsWritten(freq, t, none, Depths(t, 0), full);
    ScatteredFull(freq, t, dp[..], full);
    ScatteredTree(freq, t, full);
    ScatteredClamped(t, dp[..], full);
  }

  lemma TipsInRange(freq: seq<nat>, t: Shape)
    requires multiset(Tips(t)) == multiset(Active(freq, |freq|))
    ensures forall i :: 0 <= i < |Tips(t)| ==> Tips(t)[i] < |freq|
  {
    hide Active, Tips;
    ActiveIs(freq, |freq|);
    SameMembers(Tips(t), Active(freq, |freq|));
    forall i | 0 <= i < |Tips(t)| ensures Tips(t)[i] < |freq| {
      assert Tips(t)[i] in Active(freq, |freq|);
    }
  }

  lemma SameMembers(a: seq<nat>, b: seq<nat>)
    requires multiset(a) == multiset(b)
    ensures forall x: nat :: x in a <==> x in b
  {
    forall x: nat ensures x in a <==> x in b {
      assert x in multiset(a) <==> x in multiset(b);
    }
  }

  // ---------------------------------------------------------------- counting the lengths

  /** lcount. */
  method CountAll(lens: seq<nat>) returns (cnt: array<nat>)
    requires Limited(lens)
    ensures fresh(cnt) && cnt.Length == MAX_LEN + 1 && Sum(cnt[..], 1, MAX_LEN + 1) == Present(lens, |lens|)
    ensures forall l :: 0 <= l <= MAX_LEN ==> cnt[l] == BlCount(lens, l)
  {
    hide Sum;
    cnt := new nat[MAX_LEN + 1](_ => 0);
    SumZero(cnt[..], 1, MAX_LEN + 1);
    for i := 0 to |lens|
      invariant cnt[0] == 0 && forall l :: 1 <= l <= MAX_LEN ==> cnt[l] == CountLen(lens, l, i)
      invariant Sum(cnt[..], 1, MAX_LEN + 1) == Present(lens, i)
    {
      if lens[i] > 0 {
        SumUpdate(cnt[..], lens[i], cnt[lens[i]] + 1, 1, MAX_LEN + 1);
        ghost var before := cnt[..];
        cnt[lens[i]] := cnt[lens[i]] + 1;
        assert cnt[..] == before[lens[i] := before[lens[i]] + 1];
      }
    }
  }

  /** The Kraft sum of the counts from length b on. */
  lemma {:induction false} CountsKraft(lens: seq<nat>, cnt: seq<nat>, b: nat)
    requires |cnt| == MAX_LEN + 1 && forall l :: 0 <= l <= MAX_LEN ==> cnt[l] == BlCount(lens, l)
    requires 1 <= b <= MAX_LEN + 1
    ensures Taken(lens, b - 1, |lens|) + CountKraft(cnt, b) == Taken(lens, MAX_LEN, |lens|)
    decreases MAX_LEN + 1 - b
  {
    hide Taken, Share;
    if b <= MAX_LEN {
      CountsKraft(lens, cnt, b + 1);
      TakenLevel(lens, b, |lens|);
    }
  }

  lemma {:induction false} TakenNear(lens: seq<nat>, n: nat)
    requires n <= |lens|
    ensures Taken(lens, MAX_LEN - 1, n) == Sum(Weighs(MAX_LEN, Near(lens)), 0, n)
  {
    if n > 0 {
      TakenNear(lens, n - 1);
      SumLast(Weighs(MAX_LEN, Near(lens)), 0, n);
    }
  }

  /** What lengths below the limit take, by the counts. */
  function NearKraft(cnt: seq<nat>): (k: int)
    requires |cnt| == MAX_LEN + 1
  {
    CountKraft(cnt, 1) - cnt[MAX_LEN]
  }

  lemma FullCounts(freq: seq<nat>, lens: seq<nat>, cnt: seq<nat>)
    requires Full(freq, lens)
    requires |cnt| == MAX_LEN + 1 && forall l :: 0 <= l <= MAX_LEN ==> cnt[l] == BlCount(lens, l)
    ensures CountKraft(cnt, 1) == Kraft(MAX_LEN, lens) && NearKraft(cnt) == Kraft(MAX_LEN, Near(lens))
  {
    hide Taken, CountKraft, Pow2, BlCount, Optimal;
    CountsKraft(lens, cnt, 1);
    TakenNone(lens, |lens|);
    TakenIsKraft(lens, |lens|);
    TakenLevel(lens, MAX_LEN, |lens|);
    TakenNear(lens, |lens|);
    assert BlCount(lens, MAX_LEN) == CountLen(lens, MAX_LEN, |lens|) by { LastCount(lens); }
    ShareLast(cnt[MAX_LEN]);
  }

  lemma LastCount(lens: seq<nat>)
    ensures BlCount(lens, MAX_LEN) == CountLen(lens, MAX_LEN, |lens|)
  {
  }

  lemma ShareLast(c: nat)
    ensures Share(c, MAX_LEN) == c
  {
  }

  // ---------------------------------------------------------------- the repair

  /** One symbol of length b becomes two of length b + 1, and one of the longest goes. */
  function Deeper(cnt: seq<nat>, b: nat): (c: seq<nat>)
    requires |cnt| == MAX_LEN + 1 && 1 <= b < MAX_LEN && cnt[b] > 0 && cnt[MAX_LEN] > 0
    ensures |c| == |cnt|
  {
    var split := cnt[b := cnt[b] - 1][b + 1 := cnt[b + 1] + 2];
    split[MAX_LEN := split[MAX_LEN] - 1]
  }

  lemma ShareSplit(c: nat, e: nat, d: nat)
    requires c > 0 && d < MAX_LEN
    ensures Share(c - 1, d) + Share(e + 2, d + 1) == Share(c, d) + Share(e, d + 1)
  {
    var w := Pow2(MAX_LEN - d - 1);
    assert Pow2(MAX_LEN - d) == 2 * w;
    Distribute(2 * w, c - 1, 1);
    Distribute(w, e, 2);
  }

  /** Splitting keeps the Kraft sum. */
  lemma {:induction false} SplitKeeps(cnt: seq<nat>, b: nat, from: nat)
    requires |cnt| == MAX_LEN + 1 && 1 <= from <= b < MAX_LEN && cnt[b] > 0
    ensures CountKraft(cnt[b := cnt[b] - 1][b + 1 := cnt[b + 1] + 2], from) == CountKraft(cnt, from)
    decreases b - from
  {
    var split := cnt[b := cnt[b] - 1][b + 1 := cnt[b + 1] + 2];
    hide Share;
    if from < b {
      SplitKeeps(cnt, b, from + 1);
    } else {
      ShareSplit(cnt[b], cnt[b + 1], b);
      CountKraftSame(cnt, split, b + 2);
    }
  }

  /** One of the longest fewer lowers it by one. */
  lemma {:induction false} LastGoes(cnt: seq<nat>, from: nat)
    requires |cnt| == MAX_LEN + 1 && 1 <= from <= MAX_LEN && cnt[MAX_LEN] > 0
    ensures CountKraft(cnt[MAX_LEN := cnt[MAX_LEN] - 1], from) == CountKraft(cnt, from) - 1
    decreases MAX_LEN - from
  {
    var fewer := cnt[MAX_LEN := cnt[MAX_LEN] - 1];
    hide Share;
    if from < MAX_LEN {
      LastGoes(cnt, from + 1);
    } else {
      ShareLast(cnt[MAX_LEN]);
      ShareLast(cnt[MAX_LEN] - 1);
      CountKraftSame(cnt, fewer, MAX_LEN + 1);
    }
  }

  /** Each round lowers the Kraft sum by exactly one and keeps the number of symbols. */
  lemma RoundEffect(cnt: seq<nat>, b: nat)
    requires |cnt| == MAX_LEN + 1 && 1 <= b < MAX_LEN && cnt[b] > 0 && cnt[MAX_LEN] > 0
    ensures CountKraft(Deeper(cnt, b), 1) == CountKraft(cnt, 1) - 1 && NearKraft(Deeper(cnt, b)) <= NearKraft(cnt)
    ensures Sum(Deeper(cnt, b), 1, MAX_LEN + 1) == Sum(cnt, 1, MAX_LEN + 1)
  {
    hide CountKraft, Sum;
    var split := cnt[b := cnt[b] - 1][b + 1 := cnt[b + 1] + 2];
    SplitKeeps(cnt, b, 1);
    LastGoes(split, 1);
    SumUpdate(cnt, b, cnt[b] - 1, 1, MAX_LEN + 1);
    SumUpdate(cnt[b := cnt[b] - 1], b + 1, cnt[b + 1] + 2, 1, MAX_LEN + 1);
    SumUpdate(split, MAX_LEN, split[MAX_LEN] - 1, 1, MAX_LEN + 1);
  }

  /** The counts after some rounds, each splitting one of the deepest symbols there are before the limit: levels before
      l are as they were, l has lost symbols, and behind it, before the limit, each level has at most one symbol, but
      for two where all behind them have none. */
  ghost predicate Deepened(from: seq<nat>, cnt: seq<nat>, l: nat) {
    && |from| == |cnt| == MAX_LEN + 1 && 1 <= l < MAX_LEN
    && (forall d :: 1 <= d < l ==> cnt[d] == from[d]) && cnt[l] < from[l]
    && forall d :: l < d < MAX_LEN ==> cnt[d] <= 1 || (cnt[d] == 2 && forall e :: d < e < MAX_LEN ==> cnt[e] == 0)
  }

  lemma DeepenOn(from: seq<nat>, cnt: seq<nat>, moved: bool, l: nat, b: nat) returns (l': nat)
    requires |from| == |cnt| == MAX_LEN + 1 && if moved then Deepened(from, cnt, l) else cnt == from
    requires 1 <= b < MAX_LEN && cnt[b] > 0 && cnt[MAX_LEN] > 0 && forall i :: b < i < MAX_LEN ==> cnt[i] == 0
    ensures Deepened(from, Deeper(cnt, b), l')
  {
    l' := if moved && l < b then l else b;
    var next := Deeper(cnt, b);
    assert next[b] == cnt[b] - 1;
    assert b + 1 < MAX_LEN ==> next[b + 1] == 2;
    assert forall d :: 1 <= d < MAX_LEN && d != b && d != b + 1 ==> next[d] == cnt[d];
  }

  /** The deepest occupied length below the limit; while the sum is too large there is one, and one at the limit. */
  method DeepestBelow(cnt: array<nat>) returns (b: nat)
    requires cnt.Length == MAX_LEN + 1 && Sum(cnt[..], 1, MAX_LEN + 1) < Pow2(MAX_LEN) < CountKraft(cnt[..], 1)
    ensures 1 <= b < MAX_LEN && cnt[b] > 0 && forall i :: b < i < MAX_LEN ==> cnt[i] == 0
  {
    hide CountKraft, Sum, Pow2;
    b := MAX_LEN - 1;
    while b >= 1 && cnt[b] == 0
      invariant 0 <= b < MAX_LEN && forall i :: b < i < MAX_LEN ==> cnt[i] == 0
    {
      b := b - 1;
    }
    if b == 0 {
      AllDeep(cnt[..], 1);
      SumLast(cnt[..], 1, MAX_LEN + 1);
      assert false;
    }
  }

  /** The redistribution: never a negative count, and exactly the whole code space in the end. */
  method Redistribute(cnt: array<nat>) returns (ghost moved: bool, ghost l: nat)
    requires cnt.Length == MAX_LEN + 1 && Sum(cnt[..], 1, MAX_LEN + 1) < Pow2(MAX_LEN)
    requires NearKraft(cnt[..]) <= Pow2(MAX_LEN) <= CountKraft(cnt[..], 1)
    modifies cnt
    ensures Sum(cnt[..], 1, MAX_LEN + 1) == old(Sum(cnt[..], 1, MAX_LEN + 1))
    ensures CountKraft(cnt[..], 1) == Pow2(MAX_LEN) && NearKraft(cnt[..]) <= old(NearKraft(cnt[..]))
    ensures moved == old(CountKraft(cnt[..], 1) > Pow2(MAX_LEN))
    ensures if moved then Deepened(old(cnt[..]), cnt[..], l) else cnt[..] == old(cnt[..])
  {
    hide CountKraft, Sum, Pow2, Deepened;
    moved, l := false, 0;
    var kraft := KraftOf(cnt);
    while kraft > Pow2(MAX_LEN)
      invariant kraft == CountKraft(cnt[..], 1) >= Pow2(MAX_LEN)
      invariant NearKraft(cnt[..]) <= old(NearKraft(cnt[..])) <= Pow2(MAX_LEN)
      invariant Sum(cnt[..], 1, MAX_LEN + 1) == old(Sum(cnt[..], 1, MAX_LEN + 1))
      invariant if moved then Deepened(old(cnt[..]), cnt[..], l) else cnt[..] == old(cnt[..])
      invariant moved ==> kraft < old(CountKraft(cnt[..], 1))
      invariant kraft <= old(CountKraft(cnt[..], 1))
      decreases kraft
    {
      var bits := DeepestBelow(cnt);
      RoundEffect(cnt[..], bits);
      l := DeepenOn(old(cnt[..]), cnt[..], moved, l, bits);
      moved := true;
      ghost var next := Deeper(cnt[..], bits);
      cnt[bits] := cnt[bits] - 1;
      cnt[bits + 1] := cnt[bits + 1] + 2;
      cnt[MAX_LEN] := cnt[MAX_LEN] - 1;
      assert cnt[..] == next;
      kraft := kraft - 1;
    }
  }

  // ---------------------------------------------------------------- handing the lengths out again

  /** More frequent symbols first, and of equals those with smaller numbers. */
  predicate Precedes(x: Leaf, y: Leaf) { x.freq > y.freq || (x.freq == y.freq && x.sym < y.sym) }

  predicate Descending(ls: seq<Leaf>, n: nat)
    requires n <= |ls|
  {
    forall i, j :: 0 <= i < j < n ==> Precedes(ls[i], ls[j])
  }

  predicate BySymbol(ls: seq<Leaf>) { forall i, j :: 0 <= i < j < |ls| ==> ls[i].sym < ls[j].sym }

  /** Insertion sort, most frequent first. */
  method SortDescending(freq: seq<nat>, a: array<Leaf>)
    requires LeavesOf(freq, a[..]) && BySymbol(a[..])
    modifies a
    ensures LeavesOf(freq, a[..]) && Descending(a[..], a.Length)
  {
    hide LeavesOf;
    var i := 1;
    while i < a.Length
      invariant 0 < i && (i <= a.Length || a.Length == 0)
      invariant LeavesOf(freq, a[..]) && Descending(a[..], Min(i, a.Length))
      invariant RestBySymbol(a[..], i)
    {
      InsertDown(freq, a, i);
      i := i + 1;
    }
  }

  predicate RestBySymbol(ls: seq<Leaf>, i: nat) {
    forall x, y :: 0 <= x < y < |ls| && i <= y ==> ls[x].sym < ls[y].sym
  }

  /** The leaves with the one to be inserted at place g: those around it are sorted, those behind it go behind it. */
  predicate Parted(ls: seq<Leaf>, i: nat, g: nat)
    requires g <= i < |ls|
  {
    && (forall x, y :: 0 <= x < y <= i && x != g && y != g ==> Precedes(ls[x], ls[y]))
    && (forall y :: g < y <= i ==> ls[g].freq > ls[y].freq)
    && (forall x :: 0 <= x <= i && x != g ==> ls[x].sym < ls[g].sym)
  }

  lemma PartedOn(ls: seq<Leaf>, i: nat, g: nat)
    requires 0 < g <= i < |ls| && Parted(ls, i, g) && RestBySymbol(ls, i + 1) && ls[g - 1].freq < ls[g].freq
    ensures var next := ls[g - 1 := ls[g]][g := ls[g - 1]]; Parted(next, i, g - 1) && RestBySymbol(next, i + 1)
  {
  }

  lemma PartedEnds(ls: seq<Leaf>, i: nat, g: nat)
    requires g <= i < |ls| && Parted(ls, i, g) && (g > 0 ==> ls[g - 1].freq >= ls[g].freq)
    ensures Descending(ls, i + 1)
  {
    forall x | 0 <= x < g ensures Precedes(ls[x], ls[g]) {
      if x < g - 1 {
        assert Precedes(ls[x], ls[g - 1]);
      }
    }
  }

  lemma PartedStart(ls: seq<Leaf>, i: nat)
    requires i < |ls| && Descending(ls, i) && RestBySymbol(ls, i)
    ensures Parted(ls, i, i) && RestBySymbol(ls, i + 1)
  {
  }

  /** Moves element i to its place among the sorted ones before it. */
  method InsertDown(freq: seq<nat>, a: array<Leaf>, i: nat)
    requires i < a.Length && LeavesOf(freq, a[..]) && Descending(a[..], i) && RestBySymbol(a[..], i)
    modifies a
    ensures LeavesOf(freq, a[..]) && Descending(a[..], i + 1) && RestBySymbol(a[..], i + 1)
  {
    hide LeavesOf, Parted, RestBySymbol, Descending;
    var key := a[i];
    var j: int := i - 1;
    ghost var filled := a[..];
    PartedStart(filled, i);
    while j >= 0 && a[j].freq < key.freq
      invariant -1 <= j < i && a[..][j + 1 := key] == filled && LeavesOf(freq, filled)
      invariant Parted(filled, i, j + 1) && RestBySymbol(filled, i + 1)
      decreases j
    {
      SwapKeeps(freq, filled, j);
      PartedOn(filled, i, j + 1);
      filled := filled[j := filled[j + 1]][j + 1 := filled[j]];
      a[j + 1] := a[j];
      j := j - 1;
      assert a[..][j + 1 := key] == filled;
    }
    PartedEnds(filled, i, j + 1);
    a[j + 1] := key;
    assert a[..] == filled;
  }

  /** Lengths handed out by frequency: a more frequent symbol, or one as frequent with a smaller number, does not get a
      longer code. */
  ghost predicate ByFrequency(freq: seq<nat>, lens: seq<nat>)
    requires |freq| == |lens|
  {
    forall s, t ::
      (0 <= s < |freq| && 0 <= t < |freq| && freq[s] > 0 && freq[t] > 0
       && (freq[s] > freq[t] || (freq[s] == freq[t] && s < t)))
      ==> lens[s] <= lens[t]
  }

  lemma HandedByFreq(freq: seq<nat>, ls: seq<Leaf>, ds: seq<nat>, lens: seq<nat>)
    requires LeavesOf(freq, ls) && |lens| == |freq| && Handed(ls, ds, lens) && |ds| == |ls|
    requires Descending(ls, |ls|)
    ensures ByFrequency(freq, lens)
  {
    forall s, t | 0 <= s < |freq| && 0 <= t < |freq| && freq[s] > 0 && freq[t] > 0
                  && (freq[s] > freq[t] || (freq[s] == freq[t] && s < t))
      ensures lens[s] <= lens[t]
    {
      var i := PlaceOf(freq, ls, s);
      var j := PlaceOf(freq, ls, t);
      assert j < i ==> Precedes(ls[j], ls[i]);
    }
  }

  /** The lengths after the repair, by those the tree gave: as many symbols of each length below l, fewer of length l,
      and of the lengths behind it, before fifteen, at most one symbol each, but for two where all behind it have
      none. */
  ghost predicate Lengthened(tree: seq<nat>, lens: seq<nat>, l: nat) {
    && 1 <= l < 15
    && (forall d :: 1 <= d < l ==> Having(lens, d) == Having(tree, d)) && Having(lens, l) < Having(tree, l)
    && forall d :: l < d < 15 ==>
         Having(lens, d) <= 1 || (Having(lens, d) == 2 && forall e :: d < e < 15 ==> Having(lens, e) == 0)
  }

  lemma DeepenedIsLengthened(tree: seq<nat>, from: seq<nat>, cnt: seq<nat>, lens: seq<nat>, l: nat)
    requires Deepened(from, cnt, l) && forall d :: 0 <= d <= MAX_LEN ==> from[d] == BlCount(tree, d)
    requires forall d :: 1 <= d <= MAX_LEN ==> Having(lens, d) == cnt[d]
    ensures Lengthened(tree, lens, l)
  {
    hide Having, CountLen;
    forall d | 1 <= d <= MAX_LEN ensures from[d] == Having(tree, d) {
      CountIsHaving(tree, d, |tree|);
      assert tree[..|tree|] == tree;
    }
  }

  lemma {:induction false} CountIsHaving(lens: seq<nat>, l: nat, n: nat)
    requires n <= |lens|
    ensures CountLen(lens, l, n) == Having(lens[..n], l)
  {
    if n > 0 {
      CountIsHaving(lens, l, n - 1);
      assert lens[..n] == lens[..n - 1] + [lens[n - 1]];
    }
  }

  /** Lengths for exactly the symbols that occur, none above the limit, that use up the whole code space. */
  ghost predicate Complete(freq: seq<nat>, lens: seq<nat>) {
    && |lens| == |freq|
    && (forall s :: 0 <= s < |lens| ==> (lens[s] > 0 <==> freq[s] > 0) && lens[s] <= MAX_LEN)
    && Kraft(MAX_LEN, lens) == Pow2(MAX_LEN)
  }

  /** The length limit of huff_build. Only codes of the greatest length can be a sign that it cost anything. */
  method LimitLengths(freq: seq<nat>, dp: array<nat>)
    requires Full(freq, dp[..]) && |freq| < Pow2(MAX_LEN)
    modifies dp
    ensures Complete(freq, dp[..])
    ensures old(Kraft(MAX_LEN, dp[..])) == Pow2(MAX_LEN) ==> dp[..] == old(dp[..])
    ensures old(Kraft(MAX_LEN, dp[..])) > Pow2(MAX_LEN) ==>
              ByFrequency(freq, dp[..]) && exists l: nat :: Lengthened(old(dp[..]), dp[..], l)
    ensures (forall s :: 0 <= s < dp.Length ==> dp[s] < MAX_LEN) ==> Optimal(freq, dp[..])
  {
    hide Sum, CountKraft, LeavesOf, Pow2, Kraft, Optimal, Deepened, Lengthened, Having, Descending, ByFrequency;
    var cnt := CountAll(dp[..]);
    ghost var tree, from := dp[..], cnt[..];
    FullCounts(freq, dp[..], cnt[..]);
    var kraft := KraftOf(cnt);
    if kraft > Pow2(MAX_LEN) {
      ghost var moved, l := Redistribute(cnt);
      PresentSame(freq, dp[..], |freq|);
      var ls := Collect(freq);
      var a := new Leaf[|ls|](i requires 0 <= i < |ls| => ls[i]);
      assert a[..] == ls;
      SortDescending(freq, a);
      ghost var ds := HandOut(freq, a[..], cnt[..], dp);
      HandedByFreq(freq, a[..], ds, dp[..]);
      DeepenedIsLengthened(tree, from, cnt[..], dp[..], l);
      SomeAreLongest(a[..], ds, dp[..]);
    }
  }
}
