/** What the rep history holds, in terms of the offsets that went before. */
module SeqHistory {
  import opened Bits
  import opened SeqCodes

  function NonZero(s: seq<nat>): (t: seq<nat>) {
    if s == [] then []
    else NonZero(s[..|s| - 1]) + (if s[|s| - 1] == 0 then [] else [s[|s| - 1]])
  }

  /** Immediate repeats taken out. */
  function Collapsed(s: seq<nat>): (t: seq<nat>) {
    if |s| <= 1 then s
    else Collapsed(s[..|s| - 1]) + (if s[|s| - 1] == s[|s| - 2] then [] else [s[|s| - 1]])
  }

  /** The n-th offset from the end, counting neither zeros nor immediate repeats; 0 when there are not that many. */
  function Recent(offs: seq<nat>, n: nat): (off: nat)
    requires n > 0
  {
    var t := Collapsed(NonZero(offs));
    if n <= |t| then t[|t| - n] else 0
  }

  /** The history that the offsets leave. */
  predicate Remembers(r: Reps, offs: seq<nat>) {
    r == Reps(Recent(offs, 1), Recent(offs, 2), Recent(offs, 3))
  }

  lemma {:induction false} CollapsedEnd(s: seq<nat>)
    ensures s == [] <==> Collapsed(s) == []
    ensures s != [] ==> Collapsed(s)[|Collapsed(s)| - 1] == s[|s| - 1]
  {
    if |s| > 1 {
      CollapsedEnd(s[..|s| - 1]);
    }
  }

  lemma {:induction false} NonZeroEntries(s: seq<nat>)
    ensures 0 !in NonZero(s)
  {
    if s != [] {
      NonZeroEntries(s[..|s| - 1]);
    }
  }

  lemma NothingRemembered()
    ensures Remembers(NO_REPS, [])
  {
  }

  /** The history follows the offsets. */
  lemma HistoryFollows(r: Reps, offs: seq<nat>, off: nat)
    requires Remembers(r, offs)
    ensures Remembers(RepNext(r, off), offs + [off])
  {
    hide Collapsed;
    assert (offs + [off])[..|offs|] == offs;
    var s := NonZero(offs);
    if off != 0 {
      NonZeroEntries(offs);
      CollapsedEnd(s);
      CollapsedPush(s, off);
    } else {
      assert s + [] == s;
    }
  }

  lemma CollapsedPush(s: seq<nat>, x: nat)
    ensures Collapsed(s + [x]) == if s != [] && s[|s| - 1] == x then Collapsed(s) else Collapsed(s) + [x]
  {
    assert (s + [x])[..|s|] == s;
  }

  /** The code of an offset after others: the least of 0, 1, 2 that names it as a recent one, and otherwise 3 more
      than its logarithm, with what it is above the power of two in extra bits. */
  ghost predicate Names(c: Code, offs: seq<nat>, off: nat) {
    off != 0 ==>
      if off == Recent(offs, 1) then c == Code(0, 0, 0)
      else if off == Recent(offs, 2) then c == Code(1, 0, 0)
      else if off == Recent(offs, 3) then c == Code(2, 0, 0)
      else c.sym >= 3 && c.nb == c.sym - 3 && c.extra < Pow2(c.nb) && off == Pow2(c.nb) + c.extra
  }

  lemma CodeNames(r: Reps, offs: seq<nat>, off: nat)
    requires Remembers(r, offs) && off < 0x100_0000
    ensures Names(OfEncode(r, off), offs, off)
  {
    hide Recent;
    OffsetBack(r, off);
  }
}
