/** The table builders and the encode step, against the tables of AnsTable. */
module AnsBuild {
  import opened Arithmetic
  import opened Bits
  import opened AnsTable

  /** Slots of the first done units hold their symbols. */
  ghost predicate SpreadUpTo(norm: seq<nat>, sp: seq<nat>, done: nat)
    requires IsTable(norm) && |sp| == ANS_L && done <= ANS_L
  {
    forall k: nat :: k < done ==> sp[Place(k)] == SymbolOf(norm, NSYM, k)
  }

  lemma SpreadDone(norm: seq<nat>, sp: seq<nat>)
    requires IsTable(norm) && |sp| == ANS_L && SpreadUpTo(norm, sp, ANS_L)
    ensures sp == Spread(norm)
  {
    forall x | 0 <= x < ANS_L ensures sp[x] == Spread(norm)[x] {
      PlaceBijective(x);
      assert sp[Place(Unplace(x))] == SymbolOf(norm, NSYM, Unplace(x));
    }
  }

  lemma SpreadOne(norm: seq<nat>, sp: seq<nat>, done: nat, s: nat)
    requires IsTable(norm) && |sp| == ANS_L && done < ANS_L && SpreadUpTo(norm, sp, done)
    requires s < NSYM && Cum(norm, s) <= done < Cum(norm, s + 1)
    ensures SpreadUpTo(norm, sp[Place(done) := s], done + 1)
  {
    SymbolOfUnique(norm, NSYM, done, s);
    forall k: nat | k < done ensures Place(k) != Place(done) {
      PlaceBijective(k);
      PlaceBijective(done);
    }
  }

  /** spread_symbols. */
  method SpreadSymbols(norm: seq<nat>, sp: array<nat>)
    requires IsTable(norm) && sp.Length == ANS_L
    modifies sp
    ensures sp[..] == Spread(norm)
  {
    var pos := 0;
    for s := 0 to NSYM
      invariant Cum(norm, s) <= ANS_L && pos == Place(Cum(norm, s))
      invariant SpreadUpTo(norm, sp[..], Cum(norm, s))
    {
      FreqBound(norm, s);
      for i := 0 to norm[s]
        invariant pos == Place(Cum(norm, s) + i)
        invariant SpreadUpTo(norm, sp[..], Cum(norm, s) + i)
      {
        SpreadOne(norm, sp[..], Cum(norm, s) + i, s);
        ghost var before := sp[..];
        sp[pos] := s;
        assert sp[..] == before[pos := s];
        PlaceStep(Cum(norm, s) + i);
        pos := (pos + 2563) % ANS_L;
      }
    }
    SpreadDone(norm, sp[..]);
  }

  /** The per-symbol window shape: bits of a wide window and number of wide windows, or zeros. */
  method WindowShapes(norm: seq<nat>) returns (nbmax: seq<nat>, lowcnt: seq<nat>)
    requires IsTable(norm)
    ensures |nbmax| == |lowcnt| == NSYM
    ensures forall s :: 0 <= s < NSYM ==>
              if 0 < norm[s] < ANS_L then nbmax[s] == NbMax(norm[s]) && lowcnt[s] == LowCount(norm[s])
              else nbmax[s] == 0 && lowcnt[s] == 0
  {
    nbmax, lowcnt := [], [];
    for s := 0 to NSYM
      invariant |nbmax| == |lowcnt| == s
      invariant forall t :: 0 <= t < s ==>
                  if 0 < norm[t] < ANS_L then nbmax[t] == NbMax(norm[t]) && lowcnt[t] == LowCount(norm[t])
                  else nbmax[t] == 0 && lowcnt[t] == 0
    {
      var f := norm[s];
      if f == 0 || f == ANS_L {
        nbmax, lowcnt := nbmax + [0], lowcnt + [0];
      } else {
        FreqBound(norm, s);
        Log2Bound(f);
        var flg := Log2(f);
        nbmax, lowcnt := nbmax + [ANS_LOG - flg], lowcnt + [Pow2(flg + 1) - f];
      }
    }
  }

  /** The window of occurrence k as the builders compute it. */
  method EntryFor(norm: seq<nat>, x: nat, k: nat, nbMax: nat, lowCount: nat) returns (e: Entry)
    requires IsTable(norm) && x < ANS_L
    requires var s := Spread(norm)[x];
             && k == Occ(Spread(norm), s, x)
             && (if 0 < norm[s] < ANS_L then nbMax == NbMax(norm[s]) && lowCount == LowCount(norm[s]) else nbMax == 0)
    ensures e == DecEntry(norm, x)
  {
    ghost var s := Spread(norm)[x];
    OccBelow(norm, x);
    if nbMax == 0 {
      return Entry(Spread(norm)[x], 0, 0);
    }
    if k < lowCount {
      e := Entry(Spread(norm)[x], nbMax, Times(k, Pow2(nbMax)));
    } else {
      e := Entry(Spread(norm)[x], nbMax - 1, Times(lowCount, Pow2(nbMax)) + Times(k - lowCount, Pow2(nbMax - 1)));
    }
  }

  /** The decode table as a sequence. */
  function DecTable(norm: seq<nat>): (t: seq<Entry>)
    requires IsTable(norm)
    ensures |t| == ANS_L
  {
    seq(ANS_L, x requires 0 <= x < ANS_L => DecEntry(norm, x))
  }

  /** Unit k of the frequencies lies 2563 k slots on, modulo 4096, and belongs to the symbol s below whose units it
      is. */
  ghost predicate UnitAt(norm: seq<nat>, dec: seq<Entry>, s: nat, k: nat)
    requires |norm| == NSYM && |dec| == ANS_L && s < NSYM
  {
    Cum(norm, s) <= k < Cum(norm, s + 1) ==> dec[2563 * k % 4096].symbol == s
  }

  ghost predicate IsSpread(norm: seq<nat>, dec: seq<Entry>) {
    |norm| == NSYM && |dec| == ANS_L && forall s: nat, k: nat :: s < NSYM ==> UnitAt(norm, dec, s, k)
  }

  /** x and y are slots of one symbol with none of it between. */
  predicate Neighbours(dec: seq<Entry>, x: nat, y: nat) {
    x < y < |dec| && dec[x].symbol == dec[y].symbol && forall z :: x < z < y ==> dec[z].symbol != dec[x].symbol
  }

  predicate IsFirst(dec: seq<Entry>, x: nat) {
    x < |dec| && forall z :: 0 <= z < x ==> dec[z].symbol != dec[x].symbol
  }

  predicate IsLast(dec: seq<Entry>, x: nat) {
    x < |dec| && forall z :: x < z < |dec| ==> dec[z].symbol != dec[x].symbol
  }

  /** The windows of a symbol, in the order of its slots, lie end to end from state 0 to the last one, wide ones
      before narrow ones, and of two neighbouring widths. */
  ghost predicate InSteps(dec: seq<Entry>) {
    && (forall x: nat :: IsFirst(dec, x) ==> dec[x].baseline == 0)
    && (forall x: nat :: IsLast(dec, x) ==> dec[x].baseline + Pow2(dec[x].nbits) == 4096)
    && (forall x: nat, y: nat :: Neighbours(dec, x, y) ==>
          dec[y].baseline == dec[x].baseline + Pow2(dec[x].nbits) && dec[y].nbits <= dec[x].nbits)
    && (forall x, y :: 0 <= x < |dec| && 0 <= y < |dec| && dec[x].symbol == dec[y].symbol ==>
          dec[x].nbits <= dec[y].nbits + 1)
  }

  /** What a decode table holds: the spread symbols with their windows, or a lone symbol that takes no bits. */
  ghost predicate RightTable(norm: seq<nat>, dec: seq<Entry>) {
    IsSpread(norm, dec)
    && if exists s :: 0 <= s < NSYM && norm[s] == 4096 then IsLone(dec) else InSteps(dec)
  }

  predicate IsLone(dec: seq<Entry>) { forall x :: 0 <= x < |dec| ==> dec[x].nbits == dec[x].baseline == 0 }

  lemma {:induction false} OccNone(sp: seq<nat>, s: nat, x: nat, y: nat)
    requires x <= y <= |sp| && forall z :: x <= z < y ==> sp[z] != s
    ensures Occ(sp, s, y) == Occ(sp, s, x)
  {
    if x < y {
      OccNone(sp, s, x, y - 1);
    }
  }

  /** A present symbol that does not have all slots shares them. */
  lemma Shared(norm: seq<nat>, s: nat, t: nat)
    requires IsTable(norm) && s < NSYM && t < NSYM && norm[s] == ANS_L && norm[t] > 0
    ensures s == t
  {
    FreqBound(norm, s);
    FreqBound(norm, t);
    if s < t {
      CumMonotone(norm, s + 1, t);
    } else if t < s {
      CumMonotone(norm, t + 1, s);
    }
  }

  /** The entry of slot x, by the number of its occurrence. */
  lemma EntryOf(norm: seq<nat>, x: nat)
    requires IsTable(norm) && x < ANS_L
    ensures var s, k := Spread(norm)[x], Occ(Spread(norm), Spread(norm)[x], x);
            s < NSYM && k < norm[s] <= ANS_L && Occ(Spread(norm), s, ANS_L) == norm[s]
            && DecTable(norm)[x] == Entry(s, WindowBits(norm[s], k), WindowBase(norm[s], k))
  {
    hide Spread, WindowBits, WindowBase;
    OccBelow(norm, x);
    SpreadCounts(norm, Spread(norm)[x]);
  }

  lemma SymbolsAreSpread(norm: seq<nat>)
    requires IsTable(norm)
    ensures IsSpread(norm, DecTable(norm))
  {
    hide Occ, WindowBits, WindowBase;
    forall s: nat, k: nat | s < NSYM ensures UnitAt(norm, DecTable(norm), s, k) {
      if Cum(norm, s) <= k < Cum(norm, s + 1) {
        PlaceOfSymbol(norm, s, k);
        assert Place(k) == 2563 * k % 4096;
        EntryOf(norm, Place(k));
      }
    }
  }

  lemma FirstWindow(norm: seq<nat>, x: nat)
    requires IsTable(norm) && IsFirst(DecTable(norm), x) && norm[Spread(norm)[x]] < ANS_L
    ensures DecTable(norm)[x].baseline == 0
  {
    hide Spread, WindowBits, WindowBase, DecEntry;
    var sp := Spread(norm);
    EntryOf(norm, x);
    forall z | 0 <= z < x ensures sp[z] != sp[x] {
      EntryOf(norm, z);
    }
    OccNone(sp, sp[x], 0, x);
    NextWindow(norm[sp[x]], 0);
  }

  lemma LastWindow(norm: seq<nat>, x: nat)
    requires IsTable(norm) && IsLast(DecTable(norm), x) && norm[Spread(norm)[x]] < ANS_L
    ensures var e := DecTable(norm)[x]; e.baseline + Pow2(e.nbits) == ANS_L
  {
    hide Spread, WindowBits, WindowBase, DecEntry, Pow2;
    var sp := Spread(norm);
    EntryOf(norm, x);
    forall z | x < z < ANS_L ensures sp[z] != sp[x] {
      EntryOf(norm, z);
    }
    OccNone(sp, sp[x], x + 1, ANS_L);
    NextWindow(norm[sp[x]], norm[sp[x]] - 1);
  }

  lemma NeighbourWindows(norm: seq<nat>, x: nat, y: nat)
    requires IsTable(norm) && Neighbours(DecTable(norm), x, y) && norm[Spread(norm)[x]] < ANS_L
    ensures var d, e := DecTable(norm)[x], DecTable(norm)[y];
            e.baseline == d.baseline + Pow2(d.nbits) && e.nbits <= d.nbits
  {
    hide Spread, WindowBits, WindowBase, DecEntry, Pow2;
    var sp := Spread(norm);
    EntryOf(norm, x);
    EntryOf(norm, y);
    forall z | x < z < y ensures sp[z] != sp[x] {
      EntryOf(norm, z);
    }
    OccNone(sp, sp[x], x + 1, y);
    NextWindow(norm[sp[x]], Occ(sp, sp[x], x));
  }

  lemma WindowsAlike(norm: seq<nat>, x: nat, y: nat)
    requires IsTable(norm) && x < ANS_L && y < ANS_L && DecTable(norm)[x].symbol == DecTable(norm)[y].symbol
             && norm[Spread(norm)[x]] < ANS_L
    ensures DecTable(norm)[x].nbits <= DecTable(norm)[y].nbits + 1
  {
    hide Spread, WindowBits, WindowBase, DecEntry, Pow2;
    var sp := Spread(norm);
    EntryOf(norm, x);
    EntryOf(norm, y);
    NextWindow(norm[sp[x]], Occ(sp, sp[x], x));
    NextWindow(norm[sp[x]], Occ(sp, sp[x], y));
  }

  lemma TableIsRight(norm: seq<nat>)
    requires IsTable(norm)
    ensures RightTable(norm, DecTable(norm))
  {
    hide IsSpread, Cum, DecEntry, Spread, Pow2;
    SymbolsAreSpread(norm);
    var dec := DecTable(norm);
    if s :| 0 <= s < NSYM && norm[s] == ANS_L {
      forall x | 0 <= x < ANS_L ensures dec[x].nbits == dec[x].baseline == 0 {
        EntryOf(norm, x);
        Shared(norm, s, Spread(norm)[x]);
      }
    } else {
      forall x | 0 <= x < ANS_L ensures norm[Spread(norm)[x]] < ANS_L {
        EntryOf(norm, x);
      }
      forall x: nat | IsFirst(dec, x) ensures dec[x].baseline == 0 {
        FirstWindow(norm, x);
      }
      forall x: nat | IsLast(dec, x) ensures dec[x].baseline + Pow2(dec[x].nbits) == 4096 {
        LastWindow(norm, x);
      }
      forall x: nat, y: nat | Neighbours(dec, x, y)
        ensures dec[y].baseline == dec[x].baseline + Pow2(dec[x].nbits) && dec[y].nbits <= dec[x].nbits
      {
        NeighbourWindows(norm, x, y);
      }
      forall x, y | 0 <= x < ANS_L && 0 <= y < ANS_L && dec[x].symbol == dec[y].symbol
        ensures dec[x].nbits <= dec[y].nbits + 1
      {
        WindowsAlike(norm, x, y);
      }
    }
  }

  /** build_dec: decode entries from the spread table. */
  method BuildDec(norm: seq<nat>, sp: array<nat>, dec: array<Entry>)
    requires IsTable(norm) && sp.Length == dec.Length == ANS_L && sp[..] == Spread(norm)
    modifies dec
    ensures dec[..] == DecTable(norm) && RightTable(norm, dec[..])
  {
    hide DecEntry, Cum, NbMax, LowCount, Spread, IsTable, Occ, RightTable;
    var nbmax, lowcnt := WindowShapes(norm);
    var occ := seq(NSYM, _ => 0);
    OccStart(Spread(norm), occ);
    for x := 0 to ANS_L
      invariant |occ| == NSYM && sp[..] == Spread(norm)
      invariant forall s :: 0 <= s < NSYM ==> occ[s] == Occ(Spread(norm), s, x)
      invariant forall y :: 0 <= y < x ==> dec[y] == DecEntry(norm, y)
    {
      var s := sp[x];
      assert s == Spread(norm)[x];
      var k := occ[s];
      OccNext(Spread(norm), occ, x, occ[s := k + 1]);
      occ := occ[s := k + 1];
      OccBelow(norm, x);
      var e := EntryFor(norm, x, k, nbmax[s], lowcnt[s]);
      dec[x] := e;
    }
    TableIsRight(norm);
  }

  /** The occurrence counts, one slot further. */
  lemma OccNext(sp: seq<nat>, occ: seq<nat>, x: nat, next: seq<nat>)
    requires x < |sp| && |occ| == NSYM && sp[x] < NSYM && next == occ[sp[x] := occ[sp[x]] + 1]
    requires forall s :: 0 <= s < NSYM ==> occ[s] == Occ(sp, s, x)
    ensures forall s :: 0 <= s < NSYM ==> next[s] == Occ(sp, s, x + 1)
  {
  }

  /** Completes the entries in slot order from the symbols already in the decode table. */
  method Complete(norm: seq<nat>, dec: array<Entry>)
    requires IsTable(norm) && dec.Length == ANS_L
    requires forall y :: 0 <= y < ANS_L ==> dec[y].symbol == Spread(norm)[y]
    modifies dec
    ensures forall y :: 0 <= y < ANS_L ==> dec[y] == DecEntry(norm, y)
  {
    hide DecEntry, Cum, NbMax, LowCount, Spread, IsTable, Occ;
    var nbmax, lowcnt := WindowShapes(norm);
    var occ := seq(NSYM, _ => 0);
    OccStart(Spread(norm), occ);
    for x := 0 to ANS_L
      invariant |occ| == NSYM
      invariant forall s :: 0 <= s < NSYM ==> occ[s] == Occ(Spread(norm), s, x)
      invariant forall y :: 0 <= y < x ==> dec[y] == DecEntry(norm, y)
      invariant forall y :: x <= y < ANS_L ==> dec[y].symbol == Spread(norm)[y]
    {
      var s := dec[x].symbol;
      var k := occ[s];
      OccNext(Spread(norm), occ, x, occ[s := k + 1]);
      occ := occ[s := k + 1];
      OccBelow(norm, x);
      dec[x] := EntryFor(norm, x, k, nbmax[s], lowcnt[s]);
    }
  }

  lemma OccStart(sp: seq<nat>, occ: seq<nat>)
    requires |occ| == NSYM && forall s :: 0 <= s < NSYM ==> occ[s] == 0
    ensures forall s :: 0 <= s < NSYM ==> occ[s] == Occ(sp, s, 0)
  {
  }

  /** build_dec_direct: symbols are spread into the decode table itself, then completed in slot order. */
  method BuildDecDirect(norm: seq<nat>, dec: array<Entry>)
    requires IsTable(norm) && dec.Length == ANS_L
    modifies dec
    ensures dec[..] == DecTable(norm) && RightTable(norm, dec[..])
  {
    hide DecEntry, RightTable;
    SpreadInto(norm, dec);
    Complete(norm, dec);
    TableIsRight(norm);
  }

  /** The symbols of a decode table. */
  function Symbols(dec: seq<Entry>): (sp: seq<nat>)
    ensures |sp| == |dec|
  {
    seq(|dec|, x requires 0 <= x < |dec| => dec[x].symbol)
  }

  method SpreadInto(norm: seq<nat>, dec: array<Entry>)
    requires IsTable(norm) && dec.Length == ANS_L
    modifies dec
    ensures forall y :: 0 <= y < ANS_L ==> dec[y].symbol == Spread(norm)[y]
  {
    var pos := 0;
    for s := 0 to NSYM
      invariant Cum(norm, s) <= ANS_L && pos == Place(Cum(norm, s))
      invariant SpreadUpTo(norm, Symbols(dec[..]), Cum(norm, s))
    {
      FreqBound(norm, s);
      for i := 0 to norm[s]
        invariant pos == Place(Cum(norm, s) + i)
        invariant SpreadUpTo(norm, Symbols(dec[..]), Cum(norm, s) + i)
      {
        ghost var before := Symbols(dec[..]);
        SpreadOne(norm, before, Cum(norm, s) + i, s);
        dec[pos] := dec[pos].(symbol := s);
        assert Symbols(dec[..]) == before[pos := s];
        PlaceStep(Cum(norm, s) + i);
        pos := (pos + 2563) % ANS_L;
      }
    }
    SpreadDone(norm, Symbols(dec[..]));
    assert forall y :: 0 <= y < ANS_L ==> dec[y].symbol == Symbols(dec[..])[y];
  }

  // ---------------------------------------------------------------- encode context

  /** enc_occ_t: one occurrence of a symbol, with its window and its slot. */
  datatype EncOcc = EncOcc(bl: nat, nb: nat, slot: nat)

  /** The k-th occurrence of s. */
  function OccEntry(norm: seq<nat>, s: nat, k: nat): (e: EncOcc)
    requires IsTable(norm) && s < NSYM && k < norm[s]
  {
    SpreadCounts(norm, s);
    FreqBound(norm, s);
    EncOcc(WindowBase(norm[s], k), WindowBits(norm[s], k), Slot(Spread(norm), s, k))
  }

  /** The encode context lists the occurrences symbol by symbol. */
  ghost predicate IsContext(norm: seq<nat>, o: seq<EncOcc>)
    requires IsTable(norm) && |o| == ANS_L
  {
    forall s: nat, k: nat :: s < NSYM && k < norm[s] ==> IsListed(norm, o, s, k)
  }

  ghost predicate IsListed(norm: seq<nat>, o: seq<EncOcc>, s: nat, k: nat)
    requires IsTable(norm) && |o| == ANS_L && s < NSYM && k < norm[s]
  {
    Cum(norm, s) + k < ANS_L && o[Cum(norm, s) + k] == OccEntry(norm, s, k)
  }

  /** Where slot x is listed. */
  function Listed(norm: seq<nat>, x: nat): (i: nat)
    requires IsTable(norm) && x < ANS_L
    ensures i < ANS_L
  {
    OccBelow(norm, x);
    FreqBound(norm, Spread(norm)[x]);
    Cum(norm, Spread(norm)[x]) + Occ(Spread(norm), Spread(norm)[x], x)
  }

  lemma ListedOnce(norm: seq<nat>, x: nat, y: nat)
    requires IsTable(norm) && x < ANS_L && y < ANS_L && Listed(norm, x) == Listed(norm, y)
    ensures x == y
  {
    var sp := Spread(norm);
    OccBelow(norm, x);
    OccBelow(norm, y);
    FreqBound(norm, sp[x]);
    SymbolOfUnique(norm, NSYM, Listed(norm, x), sp[x]);
    SymbolOfUnique(norm, NSYM, Listed(norm, y), sp[y]);
    SlotUnique(sp, sp[x], x, y);
  }

  predicate ListedUpTo(norm: seq<nat>, o: seq<EncOcc>, n: nat)
    requires IsTable(norm) && |o| == ANS_L && n <= ANS_L
  {
    forall x :: 0 <= x < n ==>
      o[Listed(norm, x)] == EncOcc(DecEntry(norm, x).baseline, DecEntry(norm, x).nbits, x)
  }

  lemma ListedAll(norm: seq<nat>, o: seq<EncOcc>)
    requires IsTable(norm) && |o| == ANS_L && ListedUpTo(norm, o, ANS_L)
    ensures IsContext(norm, o)
  {
    forall s: nat, k: nat | s < NSYM && k < norm[s] ensures IsListed(norm, o, s, k) {
      SpreadCounts(norm, s);
      FreqBound(norm, s);
      var x := Slot(Spread(norm), s, k);
      assert Listed(norm, x) == Cum(norm, s) + k;
      assert o[Listed(norm, x)] == EncOcc(DecEntry(norm, x).baseline, DecEntry(norm, x).nbits, x);
    }
  }

  /** Baselines ascend with the occurrence number. */
  lemma BaselinesAscend(f: nat, j: nat, k: nat)
    requires 0 < f <= ANS_L && j <= k < f
    ensures WindowBase(f, j) <= WindowBase(f, k)
  {
    if f < ANS_L {
      BaseInUnits(f, j);
      BaseInUnits(f, k);
      MulMonotone(Pow2(NbMax(f) - 1), UnitBase(LowCount(f), j), UnitBase(LowCount(f), k));
    }
  }

  ghost predicate Ascending(o: seq<EncOcc>, lo: nat, hi: nat)
    requires hi <= |o|
  {
    forall i :: lo < i < hi ==> o[i - 1].bl <= o[i].bl
  }

  lemma ContextAscends(norm: seq<nat>, o: seq<EncOcc>, s: nat)
    requires IsTable(norm) && |o| == ANS_L && IsContext(norm, o) && s < NSYM
    ensures Cum(norm, s) + norm[s] <= ANS_L && Ascending(o, Cum(norm, s), Cum(norm, s) + norm[s])
  {
    hide Cum;
    FreqBound(norm, s);
    var c := Cum(norm, s);
    forall i | c < i < c + norm[s] ensures o[i - 1].bl <= o[i].bl {
      assert IsListed(norm, o, s, i - c);
      assert IsListed(norm, o, s, i - 1 - c);
      BaselinesAscend(norm[s], i - 1 - c, i - c);
    }
  }

  /** The insertion sort of one symbol's occurrences: what is in order stays as it is. */
  method SortOccurrences(o: array<EncOcc>, st: nat, cnt: nat)
    requires st + cnt <= o.Length
    modifies o
    ensures Ascending(old(o[..]), st, st + cnt) ==> o[..] == old(o[..])
  {
    var i := st + 1;
    while i < st + cnt
      invariant Ascending(old(o[..]), st, st + cnt) ==> o[..] == old(o[..])
    {
      var tmp := o[i];
      var j: int := i - 1;
      while j >= st && o[j].bl > tmp.bl
        invariant st - 1 <= j < i
        invariant Ascending(old(o[..]), st, st + cnt) ==> j == i - 1 && o[..] == old(o[..])
        decreases j
      {
        o[j + 1] := o[j];
        j := j - 1;
      }
      o[j + 1] := tmp;
      i := i + 1;
    }
  }

  /** Running sums of the frequencies. */
  method Prefix(norm: seq<nat>) returns (cum: seq<nat>)
    requires |norm| == NSYM
    ensures |cum| == NSYM + 1 && forall s :: 0 <= s <= NSYM ==> cum[s] == Cum(norm, s)
  {
    cum := [0];
    for i := 0 to NSYM
      invariant |cum| == i + 1 && forall s :: 0 <= s <= i ==> cum[s] == Cum(norm, s)
    {
      cum := cum + [cum[i] + norm[i]];
    }
  }

  /** build_enc. */
  method BuildEnc(norm: seq<nat>, sp: array<nat>, dec: array<Entry>, o: array<EncOcc>) returns (cum: seq<nat>)
    requires IsTable(norm) && sp.Length == dec.Length == o.Length == ANS_L
    requires sp[..] == Spread(norm) && dec[..] == DecTable(norm)
    modifies o
    ensures |cum| == NSYM + 1 && forall s :: 0 <= s <= NSYM ==> cum[s] == Cum(norm, s)
    ensures IsContext(norm, o[..])
  {
    hide DecEntry, Spread;
    cum := Prefix(norm);
    var oi := seq(NSYM, _ => 0);
    for x := 0 to ANS_L
      invariant |oi| == NSYM && sp[..] == Spread(norm) && dec[..] == DecTable(norm)
      invariant forall s :: 0 <= s < NSYM ==> oi[s] == Occ(Spread(norm), s, x)
      invariant ListedUpTo(norm, o[..], x)
    {
      var s := sp[x];
      assert s == Spread(norm)[x];
      var idx := cum[s] + oi[s];
      assert idx == Listed(norm, x);
      forall y | 0 <= y < x ensures Listed(norm, y) != idx {
        if Listed(norm, y) == idx {
          ListedOnce(norm, x, y);
        }
      }
      oi := oi[s := oi[s] + 1];
      ghost var before := o[..];
      assert dec[x] == DecTable(norm)[x];
      o[idx] := EncOcc(dec[x].baseline, dec[x].nbits, x);
      assert o[..] == before[idx := EncOcc(dec[x].baseline, dec[x].nbits, x)];
    }
    ListedAll(norm, o[..]);
    for s := 0 to NSYM
      invariant IsContext(norm, o[..])
    {
      ContextAscends(norm, o[..], s);
      SortOccurrences(o, cum[s], norm[s]);
    }
  }

  /** The window of cnt occurrences that holds the state, by two shifts, and its bits. */
  method PickWindow(cnt: nat, state: nat) returns (k: nat, nb: nat)
    requires 0 < cnt < ANS_L && state < ANS_L
    ensures k == WindowOf(cnt, state) < cnt && InWindow(cnt, k, state) && nb == WindowBits(cnt, k)
  {
    hide InWindow, Pow2, Times, Over, Log2;
    Log2Bound(cnt);
    WindowFound(cnt, state);
    WindowSide(cnt, state);
    var flg := Log2(cnt);
    var nbMax := ANS_LOG - flg;
    var lowCount := Pow2(flg + 1) - cnt;
    var threshold := Times(lowCount, Pow2(nbMax));
    if state < threshold {
      nb := nbMax;
      k := Over(state, Pow2(nbMax));
    } else {
      nb := nbMax - 1;
      k := lowCount + Over(state - threshold, Pow2(nb));
    }
  }

  /** enc_sym: the slot reached, or -1 for an absent symbol, and the bits to emit. */
  method EncSym(ghost norm: seq<nat>, cum: seq<nat>, o: array<EncOcc>, state: nat, sym: nat)
    returns (slot: int, bits: Field)
    requires IsTable(norm) && state < ANS_L && sym < NSYM
    requires |cum| == NSYM + 1 && forall s :: 0 <= s <= NSYM ==> cum[s] == Cum(norm, s)
    requires o.Length == ANS_L && IsContext(norm, o[..])
    ensures norm[sym] == 0 ==> slot == -1
    ensures norm[sym] > 0 ==> slot == EncSlot(norm, state, sym) && bits == EncField(norm, state, sym)
  {
    hide Spread, Slot, Occ, WindowOf, WindowBits;
    var base := cum[sym];
    var cnt := cum[sym + 1] - base;
    assert cnt == norm[sym];
    if cnt == 0 {
      return -1, Field(0, 0);
    }
    if cnt == ANS_L {
      return 0, Field(0, 0);
    }
    FreqBound(norm, sym);
    var k, nb := PickWindow(cnt, state);
    var e := o[base + k];
    assert IsListed(norm, o[..], sym, k);
    return e.slot, Field(state - e.bl, nb);
  }
}
