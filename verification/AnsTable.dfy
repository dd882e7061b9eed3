/** The tANS tables as functions of a normalised frequency table, and why encoding inverts decoding. */
module AnsTable {
  import opened Arithmetic
  import opened Bits

  const ANS_L: nat := 4096
  const ANS_LOG: nat := 12
  const NSYM: nat := 256

  // ---------------------------------------------------------------- frequencies

  /** Total frequency of the symbols below s. */
  function Cum(norm: seq<nat>, s: nat): (c: nat)
    requires s <= |norm|
  {
    if s == 0 then 0 else Cum(norm, s - 1) + norm[s - 1]
  }

  lemma {:induction false} CumMonotone(norm: seq<nat>, s: nat, t: nat)
    requires s <= t <= |norm|
    ensures Cum(norm, s) <= Cum(norm, t)
  {
    if s < t {
      CumMonotone(norm, s, t - 1);
    }
  }

  /** A table every slot of which belongs to some symbol. */
  predicate IsTable(norm: seq<nat>) { |norm| == NSYM && Cum(norm, NSYM) == ANS_L }

  lemma FreqBound(norm: seq<nat>, s: nat)
    requires IsTable(norm) && s < NSYM
    ensures norm[s] <= ANS_L && Cum(norm, s) + norm[s] <= ANS_L
  {
    CumMonotone(norm, s + 1, NSYM);
  }

  /** The symbol that owns the k-th unit of frequency. */
  function SymbolOf(norm: seq<nat>, n: nat, k: nat): (s: nat)
    requires n <= |norm| && k < Cum(norm, n)
    ensures s < n && Cum(norm, s) <= k < Cum(norm, s + 1)
  {
    if k >= Cum(norm, n - 1) then n - 1 else SymbolOf(norm, n - 1, k)
  }

  lemma SymbolOfUnique(norm: seq<nat>, n: nat, k: nat, s: nat)
    requires n <= |norm| && k < Cum(norm, n) && s < n && Cum(norm, s) <= k < Cum(norm, s + 1)
    ensures SymbolOf(norm, n, k) == s
  {
    var t := SymbolOf(norm, n, k);
    if t < s {
      CumMonotone(norm, t + 1, s);
    } else if s < t {
      CumMonotone(norm, s + 1, t);
    }
  }

  // ---------------------------------------------------------------- spreading

  /** The slot the k-th unit is spread to: k steps of 2048 + 512 + 3. */
  function Place(k: nat): (x: nat)
    ensures x < ANS_L
  {
    k * 2563 % ANS_L
  }

  function Unplace(x: nat): (k: nat)
    ensures k < ANS_L
  {
    x * 171 % ANS_L
  }

  lemma PlaceStep(k: nat)
    ensures Place(k + 1) == (Place(k) + 2563) % ANS_L
  {
    var q := k * 2563 / ANS_L;
    DivModAdd(Place(k) + 2563, q, ANS_L);
  }

  /** The step is odd, so spreading is a permutation of the slots. */
  lemma PlaceBijective(k: nat)
    requires k < ANS_L
    ensures Unplace(Place(k)) == k && Place(Unplace(k)) == k
  {
    var q := k * 2563 / ANS_L;
    DivModUnique(Place(k) * 171, ANS_L, 107 * k - 171 * q, k);
    var r := k * 171 / ANS_L;
    DivModUnique(Unplace(k) * 2563, ANS_L, 107 * k - 2563 * r, k);
  }

  /** The spread table. */
  function Spread(norm: seq<nat>): (sp: seq<nat>)
    requires IsTable(norm)
    ensures |sp| == ANS_L && forall x :: 0 <= x < ANS_L ==> sp[x] < NSYM
  {
    seq(ANS_L, x requires 0 <= x < ANS_L => SymbolOf(norm, NSYM, Unplace(x)))
  }

  // ---------------------------------------------------------------- occurrences

  /** How often s occurs in sp[..x]. */
  function Occ(sp: seq<nat>, s: nat, x: nat): (k: nat)
    requires x <= |sp|
  {
    if x == 0 then 0 else Occ(sp, s, x - 1) + (if sp[x - 1] == s then 1 else 0)
  }

  lemma {:induction false} OccMonotone(sp: seq<nat>, s: nat, x: nat, y: nat)
    requires x <= y <= |sp|
    ensures Occ(sp, s, x) <= Occ(sp, s, y)
  {
    if x < y {
      OccMonotone(sp, s, x, y - 1);
    }
  }

  /** The slots below x that hold s. */
  ghost function Slots(sp: seq<nat>, s: nat, x: nat): (xs: set<nat>)
    requires x <= |sp|
    ensures forall y :: y in xs <==> 0 <= y < x && sp[y] == s
    ensures |xs| == Occ(sp, s, x)
  {
    if x == 0 then {} else Slots(sp, s, x - 1) + (if sp[x - 1] == s then {x - 1} else {})
  }

  ghost function Range(lo: nat, hi: nat): (ks: set<nat>)
    requires lo <= hi
    ensures forall k :: k in ks <==> lo <= k < hi
    ensures |ks| == hi - lo
    decreases hi
  {
    if lo == hi then {} else Range(lo, hi - 1) + {hi - 1}
  }

  /** Sets that correspond one to one under Unplace have the same size. */
  lemma {:induction false} SameSize(xs: set<nat>, ks: set<nat>)
    requires forall x :: x in xs ==> x < ANS_L && Unplace(x) in ks
    requires forall k :: k in ks ==> k < ANS_L && Place(k) in xs
    ensures |xs| == |ks|
    decreases xs
  {
    if xs == {} {
      if k :| k in ks {
        assert Place(k) in xs;
      }
    } else {
      var x :| x in xs;
      var k := Unplace(x);
      PlaceBijective(x);
      forall y | y in xs - {x} ensures y < ANS_L && Unplace(y) in ks - {k} {
        PlaceBijective(y);
      }
      forall j | j in ks - {k} ensures j < ANS_L && Place(j) in xs - {x} {
        PlaceBijective(j);
      }
      SameSize(xs - {x}, ks - {k});
    }
  }

  /** Every symbol gets exactly its frequency's worth of slots. */
  lemma SpreadCounts(norm: seq<nat>, s: nat)
    requires IsTable(norm) && s < NSYM
    ensures Occ(Spread(norm), s, ANS_L) == norm[s]
  {
    var xs := Slots(Spread(norm), s, ANS_L);
    FreqBound(norm, s);
    var ks := Range(Cum(norm, s), Cum(norm, s + 1));
    forall k | k in ks ensures k < ANS_L && Place(k) in xs {
      PlaceOfSymbol(norm, s, k);
    }
    SameSize(xs, ks);
  }

  lemma PlaceOfSymbol(norm: seq<nat>, s: nat, k: nat)
    requires IsTable(norm) && s < NSYM && Cum(norm, s) <= k < Cum(norm, s + 1)
    ensures k < ANS_L && Spread(norm)[Place(k)] == s
  {
    FreqBound(norm, s);
    PlaceBijective(k);
    SymbolOfUnique(norm, NSYM, k, s);
  }

  /** Where the k-th occurrence of s is, counting from slot x. */
  function SlotFrom(sp: seq<nat>, s: nat, k: nat, x: nat): (slot: nat)
    requires x <= |sp| && Occ(sp, s, x) <= k < Occ(sp, s, |sp|)
    ensures x <= slot < |sp| && sp[slot] == s && Occ(sp, s, slot) == k
    decreases |sp| - x
  {
    if sp[x] == s && Occ(sp, s, x) == k then x else SlotFrom(sp, s, k, x + 1)
  }

  function Slot(sp: seq<nat>, s: nat, k: nat): (slot: nat)
    requires k < Occ(sp, s, |sp|)
    ensures slot < |sp| && sp[slot] == s && Occ(sp, s, slot) == k
  {
    SlotFrom(sp, s, k, 0)
  }

  lemma SlotUnique(sp: seq<nat>, s: nat, x: nat, y: nat)
    requires x < |sp| && y < |sp| && sp[x] == s && sp[y] == s && Occ(sp, s, x) == Occ(sp, s, y)
    ensures x == y
  {
    if x < y {
      OccStrict(sp, s, x, y);
    } else if y < x {
      OccStrict(sp, s, y, x);
    }
  }

  lemma OccStrict(sp: seq<nat>, s: nat, x: nat, y: nat)
    requires x < y <= |sp| && sp[x] == s
    ensures Occ(sp, s, x) < Occ(sp, s, y)
  {
    OccMonotone(sp, s, x + 1, y);
  }

  // ---------------------------------------------------------------- windows

  /** vva_dec_entry_t. */
  datatype Entry = Entry(symbol: nat, nbits: nat, baseline: nat)

  function NbMax(f: nat): (nb: nat)
    requires 0 < f < ANS_L
    ensures 1 <= nb <= ANS_LOG
  {
    Log2Bound(f);
    ANS_LOG - Log2(f)
  }

  /** How many of f occurrences get the wide window. */
  function LowCount(f: nat): (n: nat)
    requires 0 < f < ANS_L
    ensures 1 <= n <= f && n + f == 2 * Pow2(Log2(f))
  {
    Pow2(Log2(f) + 1) - f
  }

  lemma Pow2Twelve()
    ensures Pow2(ANS_LOG) == ANS_L
  {
    Pow2Eight(4);
    assert Pow2(4) == 16;
  }

  lemma Log2Bound(f: nat)
    requires 0 < f < ANS_L
    ensures Log2(f) < ANS_LOG && Pow2(ANS_LOG - Log2(f)) * Pow2(Log2(f)) == ANS_L
  {
    Pow2Twelve();
    if Log2(f) >= ANS_LOG {
      Pow2Monotone(ANS_LOG, Log2(f));
    }
    Pow2Add(ANS_LOG - Log2(f), Log2(f));
  }

  /** Bits read at the k-th of f occurrences. */
  function WindowBits(f: nat, k: nat): (nb: nat)
    requires 0 < f <= ANS_L && k < f
    ensures nb <= ANS_LOG
  {
    if f == ANS_L then 0 else if k < LowCount(f) then NbMax(f) else NbMax(f) - 1
  }

  /** First state of the k-th window. */
  function WindowBase(f: nat, k: nat): (b: nat)
    requires 0 < f <= ANS_L && k < f
  {
    if f == ANS_L then 0
    else if k < LowCount(f) then Times(k, Pow2(NbMax(f)))
    else Times(LowCount(f), Pow2(NbMax(f))) + Times(k - LowCount(f), Pow2(NbMax(f) - 1))
  }

  /** The window that holds state y, by two shifts. */
  function WindowOf(f: nat, y: nat): (k: nat)
    requires 0 < f < ANS_L
  {
    var nb := NbMax(f);
    var threshold := Times(LowCount(f), Pow2(nb));
    if y < threshold then Over(y, Pow2(nb)) else LowCount(f) + Over(y - threshold, Pow2(nb - 1))
  }

  predicate InWindow(f: nat, k: nat, y: nat)
    requires 0 < f <= ANS_L && k < f
  {
    WindowBase(f, k) <= y < WindowBase(f, k) + Pow2(WindowBits(f, k))
  }

  /** The windows of a symbol tile the states: WindowOf finds the one window that holds y. */
  lemma WindowsTile(f: nat, y: nat)
    requires 0 < f < ANS_L && y < ANS_L
    ensures WindowOf(f, y) < f && InWindow(f, WindowOf(f, y), y)
    ensures forall k :: 0 <= k < f && InWindow(f, k, y) ==> k == WindowOf(f, y)
  {
    WindowFound(f, y);
    forall k | 0 <= k < f && InWindow(f, k, y) ensures k == WindowOf(f, y) {
      WindowUnique(f, k, y);
    }
  }

  /** The same window in units of the narrow width. */
  function UnitBase(low: nat, k: nat): (m: nat) { if k < low then 2 * k else low + k }

  function UnitWindow(low: nat, q: nat): (k: nat) { if q < 2 * low then q / 2 else q - low }

  /** States in units of the narrow windows. */
  function UnitOf(f: nat, y: nat): (q: nat)
    requires 0 < f < ANS_L
  {
    Over(y, Pow2(NbMax(f) - 1))
  }

  /** Whether window k holds state y exactly when it holds the unit of y. */
  ghost predicate HeldInUnits(f: nat, k: nat, y: nat)
    requires 0 < f < ANS_L && k < f
  {
    var low, unit := LowCount(f), UnitOf(f, y);
    InWindow(f, k, y) <==> UnitBase(low, k) <= unit < UnitBase(low, k) + (if k < low then 2 else 1)
  }

  lemma InUnits(f: nat, y: nat)
    requires 0 < f < ANS_L && y < ANS_L
    ensures UnitOf(f, y) < LowCount(f) + f && WindowOf(f, y) == UnitWindow(LowCount(f), UnitOf(f, y))
    ensures forall k :: 0 <= k < f ==> HeldInUnits(f, k, y)
  {
    var low, half := LowCount(f), Pow2(NbMax(f) - 1);
    WindowTotal(f);
    DivAdjoint(half, low + f, y);
    ThresholdInUnits(low, half, y);
    AboveThreshold(low, half, y);
    HalfQuotient(y, half);
    forall k | 0 <= k < f ensures HeldInUnits(f, k, y) {
      BaseInUnits(f, k);
      var m, width := UnitBase(low, k), if k < low then 2 else 1;
      Distribute(half, m, width);
      DivAdjoint(half, m, y);
      DivAdjoint(half, m + width, y);
    }
  }

  lemma BaseInUnits(f: nat, k: nat)
    requires 0 < f < ANS_L && k < f
    ensures var low, half := LowCount(f), Pow2(NbMax(f) - 1);
            && WindowBase(f, k) == half * UnitBase(low, k)
            && Pow2(WindowBits(f, k)) == half * (if k < low then 2 else 1)
  {
    BaseArith(LowCount(f), Pow2(NbMax(f) - 1), k);
  }

  lemma BaseArith(low: nat, half: nat, k: nat)
    ensures k * (2 * half) == half * (2 * k)
    ensures low * (2 * half) + (k - low) * half == half * (low + k)
  {
    Associate(k, 2, half);
    Associate(low, 2, half);
    Distribute(half, 2 * low, k - low);
  }

  lemma HalfQuotient(y: nat, h: nat)
    requires h > 0
    ensures y / (2 * h) == y / h / 2
  {
    var q, r := y / h, y % h;
    var odd := if q % 2 == 0 then 0 else h;
    assert y == q * h + r;
    assert q * h == q / 2 * (2 * h) + odd by {
      Distribute(h, 2 * (q / 2), q % 2);
      Associate(q / 2, 2, h);
    }
    DivModUnique(y, 2 * h, q / 2, odd + r);
  }

  lemma ThresholdInUnits(low: nat, half: nat, y: nat)
    requires half > 0
    ensures y < low * (2 * half) <==> y / half < 2 * low
  {
    Associate(low, 2, half);
    DivAdjoint(half, 2 * low, y);
  }

  lemma AboveThreshold(low: nat, half: nat, y: nat)
    requires half > 0
    ensures (y - low * (2 * half)) / half == y / half - 2 * low
  {
    Associate(low, 2, half);
    DivModAdd(y, -(2 * low), half);
  }

  /** The wide and the narrow windows together cover all states. */
  lemma WindowTotal(f: nat)
    requires 0 < f < ANS_L
    ensures Pow2(NbMax(f) - 1) * (LowCount(f) + f) == ANS_L
  {
    Log2Bound(f);
    Associate(Pow2(NbMax(f) - 1), 2, Pow2(Log2(f)));
  }

  /** Each unit lies in exactly one window. */
  lemma UnitLies(low: nat, f: nat, unit: nat, k: nat)
    requires low <= f && unit < low + f
    ensures UnitWindow(low, unit) < f
    ensures UnitBase(low, k) <= unit < UnitBase(low, k) + (if k < low then 2 else 1) <==> k == UnitWindow(low, unit)
  {
  }

  lemma WindowFound(f: nat, y: nat)
    requires 0 < f < ANS_L && y < ANS_L
    ensures WindowOf(f, y) < f && InWindow(f, WindowOf(f, y), y)
  {
    hide WindowOf, InWindow, UnitWindow, UnitBase, UnitOf, Pow2;
    InUnits(f, y);
    UnitLies(LowCount(f), f, UnitOf(f, y), WindowOf(f, y));
    assert HeldInUnits(f, WindowOf(f, y), y);
  }

  /** The wide windows come first. */
  lemma WindowSide(f: nat, y: nat)
    requires 0 < f < ANS_L && y < ANS_L
    ensures y < Times(LowCount(f), Pow2(NbMax(f))) <==> WindowOf(f, y) < LowCount(f)
  {
    hide WindowOf, UnitBase, Pow2, HeldInUnits;
    var low, half := LowCount(f), Pow2(NbMax(f) - 1);
    InUnits(f, y);
    ThresholdInUnits(low, half, y);
    assert Pow2(NbMax(f)) == 2 * half by { PowStep(NbMax(f)); }
  }

  /** The windows follow one another from state 0 to the last state, wide ones before narrow ones, of two
      neighbouring widths. */
  lemma NextWindow(f: nat, k: nat)
    requires 0 < f < ANS_L && k < f
    ensures k == 0 ==> WindowBase(f, k) == 0
    ensures WindowBase(f, k) + Pow2(WindowBits(f, k)) == if k == f - 1 then ANS_L else WindowBase(f, k + 1)
    ensures k < f - 1 ==> WindowBits(f, k + 1) <= WindowBits(f, k)
    ensures WindowBits(f, 0) - 1 <= WindowBits(f, k) <= WindowBits(f, 0)
  {
    hide Pow2;
    var low, half := LowCount(f), Pow2(NbMax(f) - 1);
    BaseInUnits(f, k);
    Distribute(half, UnitBase(low, k), if k < low then 2 else 1);
    if k < f - 1 {
      BaseInUnits(f, k + 1);
    } else {
      WindowTotal(f);
    }
  }

  lemma PowStep(n: nat)
    requires n > 0
    ensures Pow2(n) == 2 * Pow2(n - 1)
  {
  }

  lemma WindowUnique(f: nat, k: nat, y: nat)
    requires 0 < f < ANS_L && k < f && y < ANS_L && InWindow(f, k, y)
    ensures k == WindowOf(f, y)
  {
    hide WindowOf, InWindow, UnitWindow, UnitBase, UnitOf, Pow2;
    InUnits(f, y);
    UnitLies(LowCount(f), f, UnitOf(f, y), k);
    assert HeldInUnits(f, k, y);
  }

  // ---------------------------------------------------------------- one step

  /** The decode table: slot x gives the symbol there and the window of its occurrence number. */
  function DecEntry(norm: seq<nat>, x: nat): (e: Entry)
    requires IsTable(norm) && x < ANS_L
  {
    var sp := Spread(norm);
    var s := sp[x];
    OccBelow(norm, x);
    Entry(s, WindowBits(norm[s], Occ(sp, s, x)), WindowBase(norm[s], Occ(sp, s, x)))
  }

  lemma OccBelow(norm: seq<nat>, x: nat)
    requires IsTable(norm) && x < ANS_L
    ensures var s := Spread(norm)[x]; Occ(Spread(norm), s, x) < norm[s] <= ANS_L
  {
    var s := Spread(norm)[x];
    SpreadCounts(norm, s);
    OccMonotone(Spread(norm), s, x + 1, ANS_L);
    FreqBound(norm, s);
  }

  /** The encode step: the slot to go to and the bits to emit, so that decoding s leads back to state y. */
  function EncSlot(norm: seq<nat>, y: nat, s: nat): (slot: nat)
    requires IsTable(norm) && y < ANS_L && s < NSYM && norm[s] > 0
    ensures slot < ANS_L
  {
    SpreadCounts(norm, s);
    FreqBound(norm, s);
    if norm[s] == ANS_L then 0
    else
      WindowFound(norm[s], y);
      Slot(Spread(norm), s, WindowOf(norm[s], y))
  }

  function EncField(norm: seq<nat>, y: nat, s: nat): (f: Field)
    requires IsTable(norm) && y < ANS_L && s < NSYM && norm[s] > 0
  {
    FreqBound(norm, s);
    if norm[s] == ANS_L then Field(0, 0)
    else
      WindowFound(norm[s], y);
      var k := WindowOf(norm[s], y);
      Field(y - WindowBase(norm[s], k), WindowBits(norm[s], k))
  }

  /** A state from which s can be encoded: a lone symbol never leaves state 0. */
  predicate Encodable(norm: seq<nat>, y: nat, s: nat)
    requires IsTable(norm)
  {
    y < ANS_L && s < NSYM && norm[s] > 0 && (norm[s] == ANS_L ==> y == 0)
  }

  /** Encoding s from state y and decoding the slot reached gives s and, with the emitted bits, y. */
  lemma DecodeUndoesEncode(norm: seq<nat>, y: nat, s: nat)
    requires IsTable(norm) && Encodable(norm, y, s)
    ensures var e, f := DecEntry(norm, EncSlot(norm, y, s)), EncField(norm, y, s);
            e.symbol == s && FieldOk(f) && f.nb == e.nbits <= ANS_LOG && e.baseline + f.val == y
  {
    FreqBound(norm, s);
    SpreadCounts(norm, s);
    if norm[s] == ANS_L {
      LoneSymbol(norm, s, 0);
    } else {
      WindowFound(norm[s], y);
    }
  }

  /** Decoding at slot x and encoding the symbol again from the state reached leads back to x and the same bits. */
  lemma EncodeUndoesDecode(norm: seq<nat>, x: nat, bits: nat)
    requires IsTable(norm) && x < ANS_L
    requires var e := DecEntry(norm, x); bits < Pow2(e.nbits) && norm[e.symbol] < ANS_L
    ensures var e := DecEntry(norm, x);
            && Encodable(norm, e.baseline + bits, e.symbol)
            && EncSlot(norm, e.baseline + bits, e.symbol) == x
            && EncField(norm, e.baseline + bits, e.symbol) == Field(bits, e.nbits)
  {
    var e := DecEntry(norm, x);
    var sp, s := Spread(norm), e.symbol;
    OccBelow(norm, x);
    var k := Occ(sp, s, x);
    WindowInside(norm[s], k);
    WindowUnique(norm[s], k, e.baseline + bits);
    SpreadCounts(norm, s);
    SlotUnique(sp, s, x, Slot(sp, s, k));
  }

  lemma WindowInside(f: nat, k: nat)
    requires 0 < f < ANS_L && k < f
    ensures WindowBase(f, k) + Pow2(WindowBits(f, k)) <= ANS_L
  {
    var low, half := LowCount(f), Pow2(NbMax(f) - 1);
    BaseInUnits(f, k);
    WindowTotal(f);
    var m, width := UnitBase(low, k), if k < low then 2 else 1;
    Distribute(half, m, width);
    MulMonotone(half, m + width, low + f);
  }

  /** When one symbol has all the frequency, every slot holds it. */
  lemma LoneSymbol(norm: seq<nat>, s: nat, x: nat)
    requires IsTable(norm) && s < NSYM && norm[s] == ANS_L && x < ANS_L
    ensures Spread(norm)[x] == s && DecEntry(norm, x) == Entry(s, 0, 0)
  {
    var t := Spread(norm)[x];
    OccBelow(norm, x);
    if t < s {
      CumMonotone(norm, t + 1, s);
      FreqBound(norm, s);
    } else if s < t {
      CumMonotone(norm, s + 1, t);
      FreqBound(norm, t);
    }
  }
}
