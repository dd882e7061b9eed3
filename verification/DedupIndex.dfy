/** The block index of deduplication: an open-addressing table that agrees with a map of first insertions. */
module DedupIndex {
  import opened Arithmetic
  import opened Wrappers

  /** XXH64 and a SHA-256 prefix of a block. */
  datatype Key = Key(fingerprint: nat, digest: seq<int>)

  /** Where a block was written, its size, and the position it was authenticated under. */
  datatype Entry = Entry(off: nat, size: nat, seq_: nat)

  datatype Slot = Empty | Full(key: Key, e: Entry)

  const PROBES: nat := 64

  predicate Roomy(t: seq<Slot>) { |t| >= PROBES }

  /** The slot of probe number i. */
  function SlotAt(k: Key, i: nat, cap: nat): (s: nat)
    requires cap > 0
    ensures s < cap
  {
    (k.fingerprint % cap + i) % cap
  }

  lemma WrapOnce(x: nat, cap: nat)
    requires 0 < cap && x < 2 * cap
    ensures x % cap == if x < cap then x else x - cap
  {
    if x >= cap {
      DivModUnique(x, cap, 1, x - cap);
    }
  }

  lemma SlotsDiffer(k: Key, i: nat, j: nat, cap: nat)
    requires cap >= PROBES && i < j < PROBES
    ensures SlotAt(k, i, cap) != SlotAt(k, j, cap)
  {
    WrapOnce(k.fingerprint % cap + i, cap);
    WrapOnce(k.fingerprint % cap + j, cap);
  }

  /** zupt_dedup_lookup_secure from probe number i on: the first full slot with the key, unless an empty one comes
      first. */
  function Probe(t: seq<Slot>, k: Key, i: nat): (r: Option<Entry>)
    requires Roomy(t) && i <= PROBES
    decreases PROBES - i
  {
    if i == PROBES then None
    else
      var s := t[SlotAt(k, i, |t|)];
      if s.Empty? then None else if s.key == k then Some(s.e) else Probe(t, k, i + 1)
  }

  /** The first probe from number i on that meets an empty slot, or PROBES. */
  function FreeProbe(t: seq<Slot>, k: Key, i: nat): (j: nat)
    requires Roomy(t) && i <= PROBES
    ensures i <= j <= PROBES && (j < PROBES ==> t[SlotAt(k, j, |t|)].Empty?)
    decreases PROBES - i
  {
    if i == PROBES || t[SlotAt(k, i, |t|)].Empty? then i else FreeProbe(t, k, i + 1)
  }

  /** zupt_dedup_insert_secure when count entries are in use. */
  function Add(t: seq<Slot>, count: nat, k: Key, e: Entry): (u: seq<Slot>)
    requires Roomy(t)
    ensures |u| == |t|
  {
    if !Adds(t, count, k) then t else t[SlotAt(k, FreeProbe(t, k, 0), |t|) := Full(k, e)]
  }

  predicate Adds(t: seq<Slot>, count: nat, k: Key)
    requires Roomy(t)
  {
    count < |t| * 3 / 4 && FreeProbe(t, k, 0) < PROBES
  }

  /** Slot number x is empty, or the probes of its key reach it over full slots. */
  predicate Reached(t: seq<Slot>, x: nat)
    requires Roomy(t) && x < |t|
  {
    t[x].Full? ==> exists i :: 0 <= i < PROBES && ReachedBy(t, t[x].key, i, x)
  }

  predicate ReachedBy(t: seq<Slot>, k: Key, i: nat, x: nat)
    requires Roomy(t)
  {
    i < PROBES && SlotAt(k, i, |t|) == x && forall j :: 0 <= j < i ==> t[SlotAt(k, j, |t|)].Full?
  }

  predicate Linked(t: seq<Slot>) { Roomy(t) && forall x :: 0 <= x < |t| ==> Reached(t, x) }

  lemma EmptyIsLinked(t: seq<Slot>)
    requires Roomy(t) && forall x :: 0 <= x < |t| ==> t[x] == Empty
    ensures Linked(t) && forall k :: Probe(t, k, 0) == None
  {
    forall k ensures Probe(t, k, 0) == None {
      assert t[SlotAt(k, 0, |t|)] == Empty;
    }
  }

  lemma {:induction false} FreeProbeFull(t: seq<Slot>, k: Key, i: nat, j: nat)
    requires Roomy(t) && i <= PROBES && i <= j < FreeProbe(t, k, i)
    ensures j < PROBES && t[SlotAt(k, j, |t|)].Full?
    decreases j - i
  {
    if i < j {
      FreeProbeFull(t, k, i + 1, j);
    }
  }

  lemma AddKeepsReached(t: seq<Slot>, count: nat, k: Key, e: Entry, x: nat)
    requires Linked(t) && x < |t|
    ensures Reached(Add(t, count, k, e), x)
  {
    hide SlotAt;
    var u := Add(t, count, k, e);
    assert Reached(t, x);
    if Adds(t, count, k) && x == SlotAt(k, FreeProbe(t, k, 0), |t|) {
      var i := FreeProbe(t, k, 0);
      forall j | 0 <= j < i ensures u[SlotAt(k, j, |t|)].Full? {
        FreeProbeFull(t, k, 0, j);
      }
      assert ReachedBy(u, k, i, x);
    } else if t[x].Full? {
      var i :| 0 <= i < PROBES && ReachedBy(t, t[x].key, i, x);
      assert ReachedBy(u, t[x].key, i, x);
    }
  }

  lemma AddKeepsLinked(t: seq<Slot>, count: nat, k: Key, e: Entry)
    requires Linked(t)
    ensures Linked(Add(t, count, k, e))
  {
    hide Add, Reached;
    forall x | 0 <= x < |t| ensures Reached(Add(t, count, k, e), x) {
      AddKeepsReached(t, count, k, e, x);
    }
  }

  /** An empty slot among the probes of a key means that no later probe holds it. */
  lemma NothingBehind(t: seq<Slot>, k: Key, i: nat, j: nat)
    requires Linked(t) && i < j < PROBES && t[SlotAt(k, i, |t|)].Empty?
    ensures t[SlotAt(k, j, |t|)].Full? ==> t[SlotAt(k, j, |t|)].key != k
  {
    hide SlotAt;
    var x := SlotAt(k, j, |t|);
    assert Reached(t, x);
    if t[x].Full? && t[x].key == k {
      var m :| 0 <= m < PROBES && ReachedBy(t, k, m, x);
      SlotsDiffer(k, m, j, |t|);
    }
  }

  /** The lookups after an insertion, from probe number i on. */
  lemma {:induction false} ProbeAfter(t: seq<Slot>, k: Key, e: Entry, at: nat, k1: Key, i: nat)
    requires Linked(t) && i <= PROBES && at == FreeProbe(t, k, 0) < PROBES
    requires k1 == k ==> i <= at
    ensures var u := t[SlotAt(k, at, |t|) := Full(k, e)];
            Probe(u, k1, i) == if Probe(t, k1, i).None? && k1 == k then Some(e) else Probe(t, k1, i)
    decreases PROBES - i
  {
    hide SlotAt, Reached;
    var x := SlotAt(k, at, |t|);
    var u := t[x := Full(k, e)];
    if i < PROBES {
      var y := SlotAt(k1, i, |t|);
      if y == x && k1 != k {
        NoneBehind(u, t, k1, i, i + 1, x, k);
      } else if y != x {
        if k1 == k && i < at {
          FreeProbeFull(t, k, 0, i);
        }
        if t[y].Full? && t[y].key != k1 {
          ProbeAfter(t, k, e, at, k1, i + 1);
        }
      }
    }
  }

  /** No probe behind a slot that was empty finds the key. */
  lemma {:induction false} NoneBehind(u: seq<Slot>, t: seq<Slot>, k1: Key, i: nat, j: nat, x: nat, k: Key)
    requires Linked(t) && |u| == |t| && x < |t| && u == t[x := u[x]] && u[x].Full? && u[x].key == k != k1
    requires i < j <= PROBES && SlotAt(k1, i, |t|) == x && t[x].Empty?
    ensures Probe(u, k1, j) == None
    decreases PROBES - j
  {
    hide SlotAt, Linked;
    if j < PROBES {
      NothingBehind(t, k1, i, j);
      SlotsDifferAt(t, k1, i, j);
      NoneBehind(u, t, k1, i, j + 1, x, k);
    }
  }

  lemma SlotsDifferAt(t: seq<Slot>, k: Key, i: nat, j: nat)
    requires Linked(t) && i < j < PROBES
    ensures SlotAt(k, i, |t|) != SlotAt(k, j, |t|)
  {
    SlotsDiffer(k, i, j, |t|);
  }

  /** An insertion is the insertion into a map that keeps the first entry of each key; one that finds no room changes
      nothing. */
  lemma AddIsFirstInsert(t: seq<Slot>, count: nat, k: Key, e: Entry, k1: Key)
    requires Roomy(t) && Linked(t)
    ensures Probe(Add(t, count, k, e), k1, 0)
            == if Adds(t, count, k) && k1 == k && Probe(t, k, 0).None? then Some(e) else Probe(t, k1, 0)
  {
    hide SlotAt, Probe, Linked;
    if Adds(t, count, k) {
      ProbeAfter(t, k, e, FreeProbe(t, k, 0), k1, 0);
    }
  }

  // ---------------------------------------------------------------- the table

  /** zupt_dedup_ctx. */
  class Index {
    const table: array<Slot>
    var count: nat

    /** zupt_dedup_init. */
    constructor (capacity: nat)
      requires capacity >= PROBES
      ensures Valid() && fresh(table) && count == 0 && table.Length == capacity
      ensures forall x :: 0 <= x < capacity ==> table[x] == Empty
      ensures forall k :: Probe(table[..], k, 0) == None
    {
      table := new Slot[capacity](_ => Empty);
      count := 0;
      new;
      EmptyIsLinked(table[..]);
    }

    ghost predicate Valid()
      reads table
    {
      Linked(table[..])
    }

    /** zupt_dedup_lookup_secure. */
    method Lookup(k: Key) returns (r: Option<Entry>)
      requires Valid()
      ensures r == Probe(table[..], k, 0)
    {
      hide SlotAt, Reached;
      for i := 0 to PROBES
        invariant Probe(table[..], k, 0) == Probe(table[..], k, i)
      {
        var s := table[SlotAt(k, i, table.Length)];
        assert s == table[..][SlotAt(k, i, table.Length)];
        if s.Empty? {
          return None;
        }
        if s.key == k {
          return Some(s.e);
        }
      }
      r := None;
    }

    /** zupt_dedup_insert_secure. */
    method Insert(k: Key, e: Entry) returns (ok: bool)
      requires Valid()
      modifies `count, table
      ensures Valid() && ok == Adds(old(table[..]), old(count), k)
      ensures table[..] == Add(old(table[..]), old(count), k, e) && count == old(count) + (if ok then 1 else 0)
    {
      hide SlotAt, Reached;
      AddKeepsLinked(table[..], count, k, e);
      ghost var t := table[..];
      if count >= table.Length * 3 / 4 {
        return false;
      }
      for i := 0 to PROBES
        invariant table[..] == t && count == old(count) && FreeProbe(t, k, 0) == FreeProbe(t, k, i)
      {
        var x := SlotAt(k, i, table.Length);
        assert table[x] == t[x];
        if table[x].Empty? {
          table[x] := Full(k, e);
          count := count + 1;
          assert table[..] == t[x := Full(k, e)];
          return true;
        }
      }
      ok := false;
    }
  }
}
