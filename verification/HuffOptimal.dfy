/** Why merging the two lightest is right: no prefix code is cheaper than a tree built that way. */
module HuffOptimal {
  import opened Arithmetic
  import opened Bits

  // ---------------------------------------------------------------- codes as lengths

  /** A symbol's weight and the length of its code. */
  datatype Item = Item(w: nat, d: nat)

  function Expense(x: Item): (c: nat) { x.w * x.d }

  /** The whole length of a text in which each symbol occurs as often as its weight. */
  function Cost(s: seq<Item>): (c: nat) { if s == [] then 0 else Expense(s[0]) + Cost(s[1..]) }

  function Takes(top: nat, x: Item): (w: nat) { if x.d <= top then Pow2(top - x.d) else 0 }

  /** What the codes take of a code space of 2^top. */
  function Space(top: nat, s: seq<Item>): (w: nat) { if s == [] then 0 else Takes(top, s[0]) + Space(top, s[1..]) }

  ghost function Weights(s: seq<Item>): (m: multiset<nat>)
    ensures |m| == |s|
  {
    if s == [] then multiset{} else multiset{s[0].w} + Weights(s[1..])
  }

  /** Kraft's inequality, which holds of the lengths of every uniquely decodable code. */
  ghost predicate Fits(top: nat, s: seq<Item>) {
    (forall i :: 0 <= i < |s| ==> s[i].d <= top) && Space(top, s) <= Pow2(top)
  }

  /** Every code for symbols of these weights costs at least c. */
  ghost predicate Needs(m: multiset<nat>, c: nat) {
    forall top: nat, s: seq<Item> :: Fits(top, s) && Weights(s) == m ==> Cost(s) >= c
  }

  // ---------------------------------------------------------------- taking out and replacing

  function Without(s: seq<Item>, i: nat): (t: seq<Item>)
    requires i < |s|
    ensures |t| == |s| - 1
  {
    s[..i] + s[i + 1..]
  }

  lemma FirstOff(top: nat, s: seq<Item>)
    requires s != []
    ensures Cost(s) == Expense(s[0]) + Cost(s[1..]) && Space(top, s) == Takes(top, s[0]) + Space(top, s[1..])
    ensures Weights(s) == multiset{s[0].w} + Weights(s[1..])
  {
  }

  lemma WithoutLater(s: seq<Item>, i: nat)
    requires 0 < i < |s|
    ensures Without(s, i) != [] && Without(s, i)[0] == s[0] && Without(s, i)[1..] == Without(s[1..], i - 1)
  {
  }

  lemma WithoutFirst(s: seq<Item>)
    requires s != []
    ensures Without(s, 0) == s[1..]
  {
  }

  lemma {:induction false} TakenOut(top: nat, s: seq<Item>, i: nat)
    requires i < |s|
    ensures Cost(s) == Expense(s[i]) + Cost(Without(s, i))
    ensures Space(top, s) == Takes(top, s[i]) + Space(top, Without(s, i))
    ensures Weights(s) == multiset{s[i].w} + Weights(Without(s, i))
    decreases i
  {
    hide Takes, Expense, Cost, Space, Weights, Without;
    FirstOff(top, s);
    if i == 0 {
      WithoutFirst(s);
    } else {
      TakenOut(top, s[1..], i - 1);
      WithoutLater(s, i);
      FirstOff(top, Without(s, i));
    }
  }

  lemma Replaced(top: nat, s: seq<Item>, i: nat, x: Item)
    requires i < |s|
    ensures Cost(s[i := x]) + Expense(s[i]) == Cost(s) + Expense(x)
    ensures Space(top, s[i := x]) + Takes(top, s[i]) == Space(top, s) + Takes(top, x)
    ensures x.w == s[i].w ==> Weights(s[i := x]) == Weights(s)
  {
    hide Takes, Expense, Cost, Space, Weights;
    TakenOut(top, s, i);
    TakenOut(top, s[i := x], i);
    assert Without(s[i := x], i) == Without(s, i);
  }

  /** Two symbols with each other's lengths. */
  function Crossed(s: seq<Item>, i: nat, k: nat): (t: seq<Item>)
    requires i < |s| && k < |s|
    ensures |t| == |s|
  {
    s[i := Item(s[i].w, s[k].d)][k := Item(s[k].w, s[i].d)]
  }

  lemma CrossGain(a: int, b: int, d: int, e: int)
    requires a <= b && d <= e
    ensures a * e + b * d <= a * d + b * e
  {
    var x := e - d;
    MulMonotone(x, a, b);
    Distribute(a, d, x);
    Distribute(b, d, x);
  }

  /** Giving the lighter of two symbols the longer code costs nothing. */
  lemma CrossedKeeps(top: nat, s: seq<Item>, i: nat, k: nat)
    requires i < |s| && k < |s| && s[i].w <= s[k].w && s[i].d <= s[k].d && Fits(top, s)
    ensures Fits(top, Crossed(s, i, k)) && Weights(Crossed(s, i, k)) == Weights(s)
    ensures Cost(Crossed(s, i, k)) <= Cost(s)
  {
    hide Cost, Space, Weights, Pow2;
    if i != k {
      var x, y := Item(s[i].w, s[k].d), Item(s[k].w, s[i].d);
      Replaced(top, s, i, x);
      Replaced(top, s[i := x], k, y);
      CrossGain(s[i].w, s[k].w, s[i].d, s[k].d);
    } else {
      assert Crossed(s, i, i) == s;
    }
  }

  // ---------------------------------------------------------------- the two longest codes

  /** A symbol with a longest code among those other than skip. */
  function Longest(s: seq<Item>, skip: int, n: nat): (k: int)
    requires n <= |s|
    ensures -1 <= k < n && (k >= 0 ==> k != skip)
    ensures forall i :: 0 <= i < n && i != skip ==> k >= 0 && s[i].d <= s[k].d
  {
    if n == 0 then -1
    else
      var k := Longest(s, skip, n - 1);
      if n - 1 != skip && (k < 0 || s[k].d < s[n - 1].d) then n - 1 else k
  }

  lemma OneShare(top: nat, x: Item, e: nat)
    requires x.d <= e <= top
    ensures Takes(top, x) == Pow2(e - x.d) * Pow2(top - e)
  {
    Pow2Add(e - x.d, top - e);
  }

  /** Shorter codes take multiples of what a longer one takes. */
  lemma {:induction false} ShareMultiple(top: nat, s: seq<Item>, e: nat) returns (q: nat)
    requires e <= top && forall i :: 0 <= i < |s| ==> s[i].d <= e
    ensures Space(top, s) == q * Pow2(top - e)
  {
    hide Pow2, Takes;
    q := 0;
    if s != [] {
      var p := ShareMultiple(top, s[1..], e);
      OneShare(top, s[0], e);
      q := Pow2(e - s[0].d) + p;
      Distribute(Pow2(top - e), Pow2(e - s[0].d), p);
    }
  }

  lemma RoomAbove(u: nat, q: nat, p: nat)
    requires u > 0 && q * (2 * u) + u <= p * (2 * u)
    ensures q * (2 * u) + 2 * u <= p * (2 * u)
  {
    if q >= p {
      MulMonotone(2 * u, p, q);
    } else {
      MulMonotone(2 * u, q + 1, p);
      Distribute(2 * u, q, 1);
    }
  }

  /** A single longest code can be one bit shorter. */
  lemma Shortened(top: nat, s: seq<Item>, i: nat)
    requires i < |s| && Fits(top, s) && s[i].d > 0
    requires forall k :: 0 <= k < |s| && k != i ==> s[k].d < s[i].d
    ensures var t := s[i := Item(s[i].w, s[i].d - 1)];
            Fits(top, t) && Weights(t) == Weights(s) && Cost(t) <= Cost(s)
  {
    hide Cost, Space, Weights;
    var e := s[i].d - 1;
    var t := s[i := Item(s[i].w, e)];
    Replaced(top, s, i, t[i]);
    TakenOut(top, s, i);
    var q := ShareMultiple(top, Without(s, i), e);
    Pow2Add(e, top - e);
    RoomAbove(Pow2(top - e - 1), q, Pow2(e));
    MulMonotone(s[i].w, e, s[i].d);
  }

  function Lengths(s: seq<Item>): (n: nat) { if s == [] then 0 else s[0].d + Lengths(s[1..]) }

  lemma {:induction false} LengthsDrop(s: seq<Item>, i: nat, x: Item)
    requires i < |s|
    ensures Lengths(s[i := x]) + s[i].d == Lengths(s) + x.d
  {
    if i > 0 {
      LengthsDrop(s[1..], i - 1, x);
      assert s[i := x][1..] == s[1..][i - 1 := x];
    } else {
      assert s[0 := x][1..] == s[1..];
    }
  }

  lemma CrossedLengths(s: seq<Item>, i: nat, k: nat)
    requires i < |s| && k < |s|
    ensures Lengths(Crossed(s, i, k)) == Lengths(s)
  {
    hide Lengths;
    if i != k {
      LengthsDrop(s, i, Item(s[i].w, s[k].d));
      LengthsDrop(s[i := Item(s[i].w, s[k].d)], k, Item(s[k].w, s[i].d));
    } else {
      assert Crossed(s, i, i) == s;
    }
  }

  // ---------------------------------------------------------------- one greedy step

  /** Where j is once i is taken out. */
  function Behind(i: nat, j: nat): (k: nat)
    requires i != j
  {
    if j > i then j - 1 else j
  }

  /** Two symbols with codes of one length, as one symbol with the code they begin with. */
  function Joined(s: seq<Item>, i: nat, j: nat): (t: seq<Item>)
    requires i < |s| && j < |s| && i != j && s[i].d > 0
  {
    [Item(s[i].w + s[j].w, s[i].d - 1)] + Without(Without(s, i), Behind(i, j))
  }

  /** Two weights replaced by their sum. */
  ghost function Fused(m: multiset<nat>, a: nat, b: nat): (n: multiset<nat>) {
    m - multiset{a} - multiset{b} + multiset{a + b}
  }

  lemma FusedIs(rest: multiset<nat>, a: nat, b: nat)
    ensures Fused(multiset{a} + (multiset{b} + rest), a, b) == multiset{a + b} + rest
  {
    var m := multiset{a} + (multiset{b} + rest);
    assert m - multiset{a} == multiset{b} + rest;
    assert multiset{b} + rest - multiset{b} == rest;
  }

  lemma JoinShares(top: nat, a: nat, b: nat, d: nat)
    requires 0 < d <= top
    ensures Takes(top, Item(a, d)) + Takes(top, Item(b, d)) == Takes(top, Item(a + b, d - 1))
    ensures Expense(Item(a, d)) + Expense(Item(b, d)) == Expense(Item(a + b, d - 1)) + a + b
  {
    Distribute(d, a, b);
    Distribute(a + b, d - 1, 1);
  }

  lemma JoinedParts(s: seq<Item>, i: nat, j: nat)
    requires i < |s| && j < |s| && i != j && s[i].d > 0
    ensures Without(s, i)[Behind(i, j)] == s[j]
    ensures Without(Joined(s, i, j), 0) == Without(Without(s, i), Behind(i, j))
  {
  }

  lemma JoinedLengths(top: nat, s: seq<Item>, i: nat, j: nat)
    requires i < |s| && j < |s| && i != j && s[i].d > 0 && forall k :: 0 <= k < |s| ==> s[k].d <= top
    ensures forall k :: 0 <= k < |Joined(s, i, j)| ==> Joined(s, i, j)[k].d <= top
  {
  }

  lemma JoinedSums(top: nat, s: seq<Item>, i: nat, j: nat)
    requires i < |s| && j < |s| && i != j && 0 < s[i].d == s[j].d <= top
    ensures var t := Joined(s, i, j);
            var rest := Weights(Without(Without(s, i), Behind(i, j)));
            && Space(top, t) == Space(top, s) && Cost(t) + s[i].w + s[j].w == Cost(s)
            && Weights(s) == multiset{s[i].w} + (multiset{s[j].w} + rest)
            && Weights(t) == multiset{s[i].w + s[j].w} + rest
  {
    hide Cost, Space, Weights, Takes, Expense, Without;
    JoinedParts(s, i, j);
    TakenOut(top, s, i);
    TakenOut(top, Without(s, i), Behind(i, j));
    TakenOut(top, Joined(s, i, j), 0);
    JoinShares(top, s[i].w, s[j].w, s[i].d);
  }

  lemma JoinedKeeps(top: nat, s: seq<Item>, i: nat, j: nat)
    requires i < |s| && j < |s| && i != j && s[i].d == s[j].d > 0 && Fits(top, s)
    ensures Fits(top, Joined(s, i, j)) && Cost(Joined(s, i, j)) + s[i].w + s[j].w == Cost(s)
    ensures Weights(Joined(s, i, j))
            == Fused(Weights(s), s[i].w, s[j].w)
  {
    hide Cost, Space, Weights, Without, Fused, Joined;
    JoinedSums(top, s, i, j);
    JoinedLengths(top, s, i, j);
    FusedIs(Weights(Without(Without(s, i), Behind(i, j))), s[i].w, s[j].w);
  }

  /** Two symbols cannot both have the empty code. */
  lemma NotBothEmpty(top: nat, s: seq<Item>, i: nat, j: nat)
    requires i < |s| && j < |s| && i != j && Fits(top, s)
    ensures s[i].d > 0 || s[j].d > 0
  {
    hide Space;
    TakenOut(top, s, i);
    assert Without(s, i)[Behind(i, j)] == s[j];
    TakenOut(top, Without(s, i), Behind(i, j));
  }

  /** Items i and j are the two lightest, i first. */
  ghost predicate Lightest(s: seq<Item>, i: nat, j: nat) {
    && i < |s| && j < |s| && i != j
    && (forall k :: 0 <= k < |s| ==> s[i].w <= s[k].w)
    && (forall k :: 0 <= k < |s| && k != i ==> s[j].w <= s[k].w)
  }

  /** The two lightest with the longest codes, at no cost. */
  lemma Deepened(top: nat, s: seq<Item>, i: nat, j: nat) returns (t: seq<Item>)
    requires Fits(top, s) && Lightest(s, i, j)
    ensures Fits(top, t) && Lightest(t, i, j) && Weights(t) == Weights(s) && Cost(t) <= Cost(s)
    ensures |t| == |s| && t[i].w == s[i].w && t[j].w == s[j].w && Lengths(t) == Lengths(s)
    ensures forall k :: 0 <= k < |t| ==> t[k].d <= t[i].d && (k != i ==> t[k].d <= t[j].d)
  {
    hide Fits, Weights, Cost, Lengths;
    var k := Longest(s, -1, |s|);
    CrossedKeeps(top, s, i, k);
    CrossedLengths(s, i, k);
    var u := Crossed(s, i, k);
    var l := Longest(u, i, |u|);
    assert u[j].d <= u[l].d;
    CrossedKeeps(top, u, j, l);
    CrossedLengths(u, j, l);
    t := Crossed(u, j, l);
  }

  /** No code is cheaper than joining the two lightest and the best for what then remains. */
  lemma {:induction false} Beats(top: nat, s: seq<Item>, i: nat, j: nat, c: nat)
    requires Fits(top, s) && Lightest(s, i, j)
    requires Needs(Fused(Weights(s), s[i].w, s[j].w), c)
    ensures Cost(s) >= c + s[i].w + s[j].w
    decreases Lengths(s)
  {
    hide Fits, Weights, Cost, Lengths, Needs, Fused;
    var t := Deepened(top, s, i, j);
    NotBothEmpty(top, t, i, j);
    if t[i].d == t[j].d {
      JoinedKeeps(top, t, i, j);
      NeedsCost(top, Joined(t, i, j), c);
    } else {
      Shortened(top, t, i);
      var u := t[i := Item(t[i].w, t[i].d - 1)];
      LengthsDrop(t, i, u[i]);
      Beats(top, u, i, j, c);
    }
  }

  lemma NeedsCost(top: nat, s: seq<Item>, c: nat)
    requires Fits(top, s) && Needs(Weights(s), c)
    ensures Cost(s) >= c
  {
    hide Fits, Weights, Cost;
  }

  lemma {:induction false} WeightOf(s: seq<Item>, w: nat) returns (i: nat)
    requires w in Weights(s)
    ensures i < |s| && s[i].w == w
  {
    if s[0].w == w {
      i := 0;
    } else {
      i := WeightOf(s[1..], w);
      i := i + 1;
    }
  }

  lemma {:induction false} ItsWeight(s: seq<Item>, i: nat)
    requires i < |s|
    ensures s[i].w in Weights(s)
  {
    if i > 0 {
      ItsWeight(s[1..], i - 1);
    }
  }

  lemma CancelWeight(m: multiset<nat>, n: multiset<nat>, w: nat)
    requires multiset{w} + m == n + multiset{w}
    ensures m == n
  {
    assert m == multiset{w} + m - multiset{w};
    assert n == n + multiset{w} - multiset{w};
  }

  /** Where the two lightest of the weights are. */
  lemma FindLightest(s: seq<Item>, r: multiset<nat>, a: nat, b: nat) returns (i: nat, j: nat)
    requires Weights(s) == r + multiset{b} + multiset{a} && a <= b && forall x :: x in r ==> b <= x
    ensures Lightest(s, i, j) && s[i].w == a && s[j].w == b
  {
    hide Weights;
    i := WeightOf(s, a);
    TakenOut(0, s, i);
    var once := Without(s, i);
    CancelWeight(Weights(once), r + multiset{b}, a);
    var k := WeightOf(once, b);
    j := if k >= i then k + 1 else k;
    forall l | 0 <= l < |s| && l != i ensures b <= s[l].w {
      assert once[Behind(i, l)] == s[l];
      ItsWeight(once, Behind(i, l));
    }
  }

  lemma GreedyCost(r: multiset<nat>, a: nat, b: nat, c: nat, top: nat, s: seq<Item>)
    requires a <= b && (forall x :: x in r ==> b <= x) && Needs(r + multiset{a + b}, c)
    requires Fits(top, s) && Weights(s) == r + multiset{b} + multiset{a}
    ensures Cost(s) >= c + a + b
  {
    hide Fits, Weights, Cost, Lightest, Needs;
    var i, j := FindLightest(s, r, a, b);
    assert Fused(Weights(s), a, b) == r + multiset{a + b};
    Beats(top, s, i, j, c);
  }

  /** One step of Huffman's construction. */
  lemma GreedyStep(r: multiset<nat>, a: nat, b: nat, c: nat)
    requires a <= b && (forall x :: x in r ==> b <= x) && Needs(r + multiset{a + b}, c)
    ensures Needs(r + multiset{b} + multiset{a}, c + a + b)
  {
    hide Fits, Weights, Cost;
    var m := r + multiset{b} + multiset{a};
    forall top: nat, s: seq<Item> | Fits(top, s) && Weights(s) == m ensures Cost(s) >= c + a + b {
      GreedyCost(r, a, b, c, top, s);
    }
  }

  /** What m costs at least, given what is left of it costs. */
  ghost predicate Reduces(m: multiset<nat>, left: multiset<nat>, spent: nat) {
    forall c: nat :: Needs(left, c) ==> Needs(m, c + spent)
  }

  /** Huffman's construction, one step on. */
  lemma ReducesOn(m: multiset<nat>, r: multiset<nat>, a: nat, b: nat, spent: nat)
    requires a <= b && (forall x :: x in r ==> b <= x) && Reduces(m, r + multiset{b} + multiset{a}, spent)
    ensures Reduces(m, r + multiset{a + b}, spent + a + b)
  {
    hide Needs;
    var fused := r + multiset{a + b};
    forall c: nat | Needs(fused, c) ensures Needs(m, c + (spent + a + b)) {
      GreedyStep(r, a, b, c);
      assert c + a + b + spent == c + (spent + a + b);
    }
  }

  lemma ReducesNothing(m: multiset<nat>)
    ensures Reduces(m, m, 0)
  {
    hide Needs;
    forall c: nat | Needs(m, c) ensures Needs(m, c + 0) {
    }
  }

  lemma ReducedAway(m: multiset<nat>, left: multiset<nat>, spent: nat)
    requires Reduces(m, left, spent)
    ensures Needs(m, spent)
  {
    assert Needs(left, 0);
    assert 0 + spent == spent;
  }

  // ---------------------------------------------------------------- codes for an alphabet

  /** The weights of the symbols below n that occur. */
  ghost function Occurring(freq: seq<nat>, n: nat): (m: multiset<nat>)
    requires n <= |freq|
  {
    if n == 0 then multiset{}
    else (if freq[n - 1] > 0 then multiset{freq[n - 1]} else multiset{}) + Occurring(freq, n - 1)
  }

  /** Those symbols with their lengths. */
  ghost function Items(freq: seq<nat>, lens: seq<nat>, n: nat): (s: seq<Item>)
    requires n <= |freq| == |lens|
  {
    if n == 0 then []
    else (if freq[n - 1] > 0 then [Item(freq[n - 1], lens[n - 1])] else []) + Items(freq, lens, n - 1)
  }

  /** The length of a text in which each symbol below n occurs as often as it says. */
  function TextBits(freq: seq<nat>, lens: seq<nat>, n: nat): (b: nat)
    requires n <= |freq| == |lens|
  {
    if n == 0 then 0 else freq[n - 1] * lens[n - 1] + TextBits(freq, lens, n - 1)
  }

  lemma NothingOccurs(freq: seq<nat>, lens: seq<nat>)
    requires |freq| == |lens|
    ensures Weights(Items(freq, lens, 0)) == Occurring(freq, 0) && Cost(Items(freq, lens, 0)) == TextBits(freq, lens, 0)
  {
  }

  lemma OnTop(x: Item, rest: seq<Item>)
    ensures Weights([x] + rest) == multiset{x.w} + Weights(rest) && Cost([x] + rest) == Expense(x) + Cost(rest)
  {
    hide Expense, Weights, Cost;
    FirstOff(0, [x] + rest);
    assert ([x] + rest)[1..] == rest;
  }

  lemma ItemsStep(freq: seq<nat>, lens: seq<nat>, n: nat)
    requires 0 < n <= |freq| == |lens|
    ensures var x := Item(freq[n - 1], lens[n - 1]);
            if freq[n - 1] > 0 then
              Items(freq, lens, n) == [x] + Items(freq, lens, n - 1)
              && Occurring(freq, n) == multiset{x.w} + Occurring(freq, n - 1)
              && TextBits(freq, lens, n) == Expense(x) + TextBits(freq, lens, n - 1)
            else
              Items(freq, lens, n) == Items(freq, lens, n - 1) && Occurring(freq, n) == Occurring(freq, n - 1)
              && TextBits(freq, lens, n) == TextBits(freq, lens, n - 1)
  {
    assert [] + Items(freq, lens, n - 1) == Items(freq, lens, n - 1);
  }

  lemma {:induction false} ItemsMean(freq: seq<nat>, lens: seq<nat>, n: nat)
    requires n <= |freq| == |lens|
    ensures Weights(Items(freq, lens, n)) == Occurring(freq, n)
    ensures Cost(Items(freq, lens, n)) == TextBits(freq, lens, n)
  {
    hide Weights, Cost, Expense, Items, Occurring, TextBits;
    if n == 0 {
      NothingOccurs(freq, lens);
    } else {
      ItemsMean(freq, lens, n - 1);
      ItemsStep(freq, lens, n);
      OnTop(Item(freq[n - 1], lens[n - 1]), Items(freq, lens, n - 1));
    }
  }

  /** No lengths that satisfy Kraft's inequality on the symbols that occur give a shorter text. */
  ghost predicate Optimal(freq: seq<nat>, lens: seq<nat>) {
    |lens| == |freq|
    && forall top: nat, other: seq<nat> :: |other| == |freq| && Fits(top, Items(freq, other, |freq|))
                                           ==> TextBits(freq, lens, |freq|) <= TextBits(freq, other, |freq|)
  }

  lemma NeededIsOptimal(freq: seq<nat>, lens: seq<nat>)
    requires |lens| == |freq| && Needs(Occurring(freq, |freq|), TextBits(freq, lens, |freq|))
    ensures Optimal(freq, lens)
  {
    hide Fits, Weights, Cost, TextBits, Items, Occurring;
    forall top: nat, other: seq<nat> | |other| == |freq| && Fits(top, Items(freq, other, |freq|))
      ensures TextBits(freq, lens, |freq|) <= TextBits(freq, other, |freq|)
    {
      ItemsMean(freq, other, |freq|);
    }
  }
}
