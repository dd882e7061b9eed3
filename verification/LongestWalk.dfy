/** Walks over candidates that settle on the longest match, and may end early. */
module LongestWalk {
  import opened Bits
  import opened LittleEndian
  import opened LzEmit
  import opened LzMatch

  /** How many bytes at v match those at pos, up to cap. */
  function Matching(data: seq<byte>, cap: nat, pos: nat, v: nat): (n: nat)
    requires v < pos <= |data|
    ensures n <= cap
  {
    Common(data, pos, v, Min(|data| - pos, cap))
  }

  /** What may end a walk: a match of so many bytes, the longest so far, found as number k. */
  type Stop = (nat, nat) -> bool

  /** Position j is longer than least and than those visited before it. */
  predicate Record(data: seq<byte>, cap: nat, pos: nat, vs: seq<nat>, least: nat, j: nat)
    requires pos <= |data| && j < |vs| && forall i :: 0 <= i < |vs| ==> vs[i] < pos
  {
    Matching(data, cap, pos, vs[j]) > least
    && forall i :: 0 <= i < j ==> Matching(data, cap, pos, vs[i]) < Matching(data, cap, pos, vs[j])
  }

  /** f stands for position i, the last record before the walk ended; k were visited before these. */
  ghost predicate Longest(stops: Stop, data: seq<byte>, cap: nat, pos: nat, vs: seq<nat>, k: nat, least: nat, i: nat,
                          f: Found)
    requires pos <= |data| && forall j :: 0 <= j < |vs| ==> vs[j] < pos
  {
    && i < |vs| && f == Found(Matching(data, cap, pos, vs[i]), pos - vs[i]) && Record(data, cap, pos, vs, least, i)
    && (forall j :: 0 <= j < i && Record(data, cap, pos, vs, least, j) ==>
          !stops(Matching(data, cap, pos, vs[j]), k + j))
    && (stops(f.len, k + i) || forall j :: i < j < |vs| ==> Matching(data, cap, pos, vs[j]) <= f.len)
  }

  /** What a walk makes of the best match so far. */
  ghost predicate Outcome(stops: Stop, data: seq<byte>, cap: nat, pos: nat, vs: seq<nat>, k: nat, best: Found, f: Found)
    requires pos <= |data| && forall j :: 0 <= j < |vs| ==> vs[j] < pos
  {
    if f == best then forall j :: 0 <= j < |vs| ==> Matching(data, cap, pos, vs[j]) <= best.len
    else f.len > best.len && exists i: nat :: Longest(stops, data, cap, pos, vs, k, best.len, i, f)
  }

  /** Nothing exactly where no position visited has more than least bytes, or else the last record before the walk
      ended. */
  ghost predicate Finds(stops: Stop, data: seq<byte>, cap: nat, pos: nat, vs: seq<nat>, least: nat, f: Found)
    requires pos <= |data| && forall j :: 0 <= j < |vs| ==> vs[j] < pos
  {
    if forall j :: 0 <= j < |vs| ==> Matching(data, cap, pos, vs[j]) <= least then f == NONE
    else exists i: nat :: Longest(stops, data, cap, pos, vs, 0, least, i, f)
  }

  lemma OutcomeFinds(stops: Stop, data: seq<byte>, cap: nat, pos: nat, vs: seq<nat>, least: nat, f: Found)
    requires pos <= |data| && forall j :: 0 <= j < |vs| ==> vs[j] < pos
    requires Outcome(stops, data, cap, pos, vs, 0, Found(least, 0), f)
    ensures Finds(stops, data, cap, pos, vs, least, if f.len > least then f else NONE)
  {
    hide Matching;
  }

  lemma NothingVisited(stops: Stop, data: seq<byte>, cap: nat, pos: nat, k: nat, best: Found)
    requires pos <= |data|
    ensures Outcome(stops, data, cap, pos, [], k, best, best)
  {
  }

  lemma FirstStops(stops: Stop, data: seq<byte>, cap: nat, pos: nat, vs: seq<nat>, k: nat, best: Found, f: Found)
    requires pos <= |data| && vs != [] && forall j :: 0 <= j < |vs| ==> vs[j] < pos
    requires f == Found(Matching(data, cap, pos, vs[0]), pos - vs[0]) && f.len > best.len && stops(f.len, k)
    ensures Outcome(stops, data, cap, pos, vs, k, best, f)
  {
    hide Matching;
    assert Longest(stops, data, cap, pos, vs, k, best.len, 0, f);
  }

  lemma Taken(stops: Stop, data: seq<byte>, cap: nat, pos: nat, vs: seq<nat>, k: nat, best: Found, f: Found)
    requires pos <= |data| && vs != [] && forall j :: 0 <= j < |vs| ==> vs[j] < pos
    requires var n := Matching(data, cap, pos, vs[0]);
             n > best.len && !stops(n, k)
             && Outcome(stops, data, cap, pos, vs[1..], k + 1, Found(n, pos - vs[0]), f)
    ensures Outcome(stops, data, cap, pos, vs, k, best, f)
  {
    hide Matching;
    var n := Matching(data, cap, pos, vs[0]);
    assert forall j :: 1 <= j < |vs| ==> vs[j] == vs[1..][j - 1];
    if f == Found(n, pos - vs[0]) {
      assert Longest(stops, data, cap, pos, vs, k, best.len, 0, f);
    } else {
      var i: nat :| Longest(stops, data, cap, pos, vs[1..], k + 1, n, i, f);
      RecordsShift(data, cap, pos, vs, n, best.len);
      LongestShift(stops, data, cap, pos, vs, k, n, best.len, i, f);
    }
  }

  /** Behind a first position of n bytes, the records are those above n. */
  lemma RecordsShift(data: seq<byte>, cap: nat, pos: nat, vs: seq<nat>, n: nat, least: nat)
    requires pos <= |data| && vs != [] && forall j :: 0 <= j < |vs| ==> vs[j] < pos
    requires n == if Matching(data, cap, pos, vs[0]) > least then Matching(data, cap, pos, vs[0]) else least
    ensures forall j ::
      0 < j < |vs| ==> (Record(data, cap, pos, vs, least, j) <==> Record(data, cap, pos, vs[1..], n, j - 1))
  {
    hide Matching;
    forall j | 0 < j < |vs|
      ensures Record(data, cap, pos, vs, least, j) <==> Record(data, cap, pos, vs[1..], n, j - 1)
    {
      assert forall i :: 1 <= i < |vs| ==> vs[i] == vs[1..][i - 1];
      if Record(data, cap, pos, vs[1..], n, j - 1) {
        forall i | 0 <= i < j ensures Matching(data, cap, pos, vs[i]) < Matching(data, cap, pos, vs[j]) {
          if i > 0 {
            assert vs[i] == vs[1..][i - 1];
          }
        }
      }
    }
  }

  lemma LongestShift(stops: Stop, data: seq<byte>, cap: nat, pos: nat, vs: seq<nat>, k: nat, n: nat, least: nat, i: nat,
                     f: Found)
    requires pos <= |data| && vs != [] && forall j :: 0 <= j < |vs| ==> vs[j] < pos
    requires Longest(stops, data, cap, pos, vs[1..], k + 1, n, i, f)
    requires Record(data, cap, pos, vs, least, 0) ==> !stops(Matching(data, cap, pos, vs[0]), k)
    requires forall j ::
      0 < j < |vs| ==> (Record(data, cap, pos, vs, least, j) <==> Record(data, cap, pos, vs[1..], n, j - 1))
    ensures Longest(stops, data, cap, pos, vs, k, least, i + 1, f)
  {
    hide Matching, Record;
    assert forall j :: 1 <= j < |vs| ==> vs[j] == vs[1..][j - 1];
    forall j | 0 <= j < i + 1 && Record(data, cap, pos, vs, least, j)
      ensures !stops(Matching(data, cap, pos, vs[j]), k + j)
    {
      if j > 0 {
        assert vs[j] == vs[1..][j - 1] && k + j == k + 1 + (j - 1);
      }
    }
    assert k + 1 + i == k + (i + 1);
  }

  lemma Passed(stops: Stop, data: seq<byte>, cap: nat, pos: nat, vs: seq<nat>, k: nat, best: Found, f: Found)
    requires pos <= |data| && vs != [] && forall j :: 0 <= j < |vs| ==> vs[j] < pos
    requires Matching(data, cap, pos, vs[0]) <= best.len && Outcome(stops, data, cap, pos, vs[1..], k + 1, best, f)
    ensures Outcome(stops, data, cap, pos, vs, k, best, f)
  {
    hide Matching;
    assert forall j :: 1 <= j < |vs| ==> vs[j] == vs[1..][j - 1];
    if f != best {
      var i: nat :| Longest(stops, data, cap, pos, vs[1..], k + 1, best.len, i, f);
      RecordsShift(data, cap, pos, vs, best.len, best.len);
      LongestShift(stops, data, cap, pos, vs, k, best.len, best.len, i, f);
    }
  }
}
