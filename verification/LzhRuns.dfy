/** The two run-length coders of zupt_lzh: zero runs of the source, and runs of code lengths. */
module LzhRuns {
  import opened Bits
  import opened LittleEndian
  import opened Wrappers

  /** How many elements at the front equal v, up to max. */
  function RunOf<T(==)>(s: seq<T>, v: T, max: nat): (n: nat)
    ensures n <= |s| && n <= max && forall i :: 0 <= i < n ==> s[i] == v
    ensures s != [] && s[0] == v && max > 0 ==> n > 0
  {
    if s == [] || max == 0 || s[0] != v then 0 else 1 + RunOf(s[1..], v, max - 1)
  }

  function Copies<T>(v: T, n: nat): (s: seq<T>)
    ensures |s| == n && forall i :: 0 <= i < n ==> s[i] == v
  {
    seq(n, _ => v)
  }

  lemma CopiesAdd<T>(v: T, m: nat, n: nat)
    ensures Copies(v, m) + Copies(v, n) == Copies(v, m + n)
  {
  }

  lemma RunIsCopies<T>(s: seq<T>, v: T, max: nat)
    ensures s[..RunOf(s, v, max)] == Copies(v, RunOf(s, v, max))
  {
  }

  /** The loops that measure a run. */
  method MeasureRun<T(==)>(s: seq<T>, at: nat, v: T, max: nat) returns (n: nat)
    requires at <= |s|
    ensures n == RunOf(s[at..], v, max)
  {
    n := 0;
    while at + n < |s| && s[at + n] == v && n < max
      invariant at + n <= |s| && n <= max && RunOf(s[at..], v, max) == n + RunOf(s[at + n..], v, max - n)
    {
      assert s[at + n..][1..] == s[at + n + 1..];
      n := n + 1;
    }
  }

  // ---------------------------------------------------------------- zero runs

  const LONGEST_RUN: nat := 65535

  /** A run of zeros in chunks of at most 255. */
  function Chunks(run: nat): (s: seq<byte>) {
    if run == 0 then [] else [0, Min(run, 255)] + Chunks(run - Min(run, 255))
  }

  /** rle_encode, were there room without end. */
  function Rle(s: seq<byte>): (t: seq<byte>)
    decreases |s|
  {
    if s == [] then []
    else if s[0] != 0 then [s[0]] + Rle(s[1..])
    else
      var run := RunOf(s, 0, LONGEST_RUN);
      (if run == 1 then [0, 0] else Chunks(run)) + Rle(s[run..])
  }

  /** rle_decode behind room for so many bytes; what it makes of a zero at the very end is a zero. */
  function Unrle(s: seq<byte>, room: nat): (r: Option<seq<byte>>)
    decreases |s|
  {
    if s == [] || room == 0 then Some([])
    else if s[0] == 0 && |s| > 1 then
      var c: nat := if s[1] == 0 then 1 else s[1];
      if c > room then None else Before(Copies<byte>(0, c), Unrle(s[2..], room - c))
    else Before([s[0]], Unrle(s[1..], room - 1))
  }

  function Before(t: seq<byte>, r: Option<seq<byte>>): (q: Option<seq<byte>>) {
    match r case None => None case Some(s) => Some(t + s)
  }

  lemma {:induction false} UnrleChunks(run: nat, rest: seq<byte>, room: nat)
    requires run <= room
    ensures Unrle(Chunks(run) + rest, room) == Before(Copies<byte>(0, run), Unrle(rest, room - run))
    decreases run
  {
    hide Copies, Before;
    var zeros: seq<byte> := Copies<byte>(0, run);
    if run == 0 {
      assert Chunks(0) + rest == rest;
      BeforeNothing(Unrle(rest, room));
      assert zeros == [];
    } else {
      var c := Min(run, 255);
      assert (Chunks(run) + rest)[2..] == Chunks(run - c) + rest;
      UnrleChunks(run - c, rest, room - c);
      CopiesAdd<byte>(0, c, run - c);
      BeforeTwice(Copies<byte>(0, c), Copies<byte>(0, run - c), Unrle(rest, room - run));
    }
  }

  lemma BeforeNothing(r: Option<seq<byte>>)
    ensures Before([], r) == r
  {
    if r.Some? {
      assert [] + r.value == r.value;
    }
  }

  lemma BeforeTwice(s: seq<byte>, t: seq<byte>, r: Option<seq<byte>>)
    ensures Before(s, Before(t, r)) == Before(s + t, r)
  {
    if r.Some? {
      assert s + (t + r.value) == s + t + r.value;
    }
  }

  /** Zero runs are restored, in any room that holds the source. */
  lemma {:induction false} RleBack(s: seq<byte>, room: nat)
    requires |s| <= room
    ensures Unrle(Rle(s), room) == Some(s)
    decreases |s|
  {
    hide Rle, Chunks, Copies, Unrle, Before;
    if s == [] {
      UnrleNothing(room);
      RleOfNothing();
    } else if s[0] != 0 {
      RleBack(s[1..], room - 1);
      PlainBack(s, room);
    } else {
      var run := RunOf(s, 0, LONGEST_RUN);
      RleZeros(s);
      RleBack(s[run..], room - run);
      ZerosBack(s, Rle(s[run..]), room);
    }
  }

  lemma PlainBack(s: seq<byte>, room: nat)
    requires s != [] && s[0] != 0 && room > 0
    requires Unrle(Rle(s[1..]), room - 1) == Some(s[1..])
    ensures Unrle(Rle(s), room) == Some(s)
  {
    hide Rle, Unrle, Before;
    RlePlain(s);
    UnrlePlain(s[0], Rle(s[1..]), room);
    JustBefore([s[0]], s[1..]);
    assert [s[0]] + s[1..] == s;
  }

  /** A run of zeros in front of what is restored. */
  lemma ZerosBack(s: seq<byte>, rest: seq<byte>, room: nat)
    requires s != [] && s[0] == 0 && |s| <= room
    requires var run := RunOf(s, 0, LONGEST_RUN); Unrle(rest, room - run) == Some(s[run..])
    ensures var run := RunOf(s, 0, LONGEST_RUN);
            Unrle((if run == 1 then [0, 0] else Chunks(run)) + rest, room) == Some(s)
  {
    hide Chunks, Copies, RunOf, Unrle, Before;
    var run := RunOf(s, 0, LONGEST_RUN);
    RunIsCopies(s, 0, LONGEST_RUN);
    JustBefore(s[..run], s[run..]);
    assert s == s[..run] + s[run..];
    if run == 1 {
      UnrleOne(rest, room);
    } else {
      UnrleChunks(run, rest, room);
    }
  }

  lemma UnrleNothing(room: nat)
    ensures Unrle([], room) == Some([])
  {
  }

  lemma UnrlePlain(b: byte, rest: seq<byte>, room: nat)
    requires b != 0 && room > 0
    ensures Unrle([b] + rest, room) == Before([b], Unrle(rest, room - 1))
  {
    assert ([b] + rest)[1..] == rest;
  }

  lemma UnrleOne(rest: seq<byte>, room: nat)
    requires room > 0
    ensures Unrle([0, 0] + rest, room) == Before(Copies<byte>(0, 1), Unrle(rest, room - 1))
  {
    assert ([0, 0] + rest)[2..] == rest;
  }

  lemma JustBefore(s: seq<byte>, t: seq<byte>)
    ensures Before(s, Some(t)) == Some(s + t)
  {
  }

  /** rle_encode: the number of bytes stored, or 0 when they do not fit or are no fewer than the source has. */
  method RleEncode(s: seq<byte>, dst: array<byte>) returns (n: nat)
    modifies dst
    ensures n == if |Rle(s)| <= dst.Length && |Rle(s)| < |s| then |Rle(s)| else 0
    ensures n > 0 ==> dst[..n] == Rle(s)
  {
    hide Rle, Chunks, RunOf;
    var at: nat, op: nat := 0, 0;
    assert s[0..] == s && dst[..0] == [];
    while at < |s|
      invariant at <= |s| && op <= dst.Length && dst[..op] + Rle(s[at..]) == Rle(s)
      decreases |s| - at
    {
      RleStep(s, at);
      ghost var more := Rle(s[at..]);
      if s[at] == 0 {
        var run := MeasureRun(s, at, 0, LONGEST_RUN);
        SplitTwice(dst[..op], if run == 1 then [0, 0] else Chunks(run), Rle(s[at + run..]));
        if run == 1 {
          if op + 2 > dst.Length {
            return 0;
          }
          op := Append(dst, op, [0, 0]);
        } else {
          var ok;
          ok, op := StoreChunks(run, dst, op);
          if !ok {
            return 0;
          }
        }
        at := at + run;
      } else {
        SplitTwice(dst[..op], [s[at]], Rle(s[at + 1..]));
        if op + 1 > dst.Length {
          return 0;
        }
        op := Append(dst, op, [s[at]]);
        at := at + 1;
      }
    }
    RleOfNothing();
    assert s[at..] == [] && dst[..op] + [] == dst[..op];
    n := if op < |s| then op else 0;
  }

  lemma RleOfNothing()
    ensures Rle([]) == []
  {
  }

  lemma SplitTwice(a: seq<byte>, b: seq<byte>, c: seq<byte>)
    ensures a + (b + c) == a + b + c
  {
  }

  lemma RleStep(s: seq<byte>, at: nat)
    requires at < |s|
    ensures s[at] != 0 ==> Rle(s[at..]) == [s[at]] + Rle(s[at + 1..])
    ensures s[at] == 0 ==>
              var run := RunOf(s[at..], 0, LONGEST_RUN);
              0 < run <= |s| - at && Rle(s[at..]) == (if run == 1 then [0, 0] else Chunks(run)) + Rle(s[at + run..])
  {
    hide Rle, Chunks, RunOf;
    if s[at] == 0 {
      RleZeros(s[at..]);
      assert s[at..][RunOf(s[at..], 0, LONGEST_RUN)..] == s[at + RunOf(s[at..], 0, LONGEST_RUN)..];
    } else {
      RlePlain(s[at..]);
      assert s[at..][1..] == s[at + 1..];
    }
  }

  lemma RlePlain(s: seq<byte>)
    requires s != [] && s[0] != 0
    ensures Rle(s) == [s[0]] + Rle(s[1..])
  {
  }

  lemma RleZeros(s: seq<byte>)
    requires s != [] && s[0] == 0
    ensures var run := RunOf(s, 0, LONGEST_RUN);
            run > 0 && Rle(s) == (if run == 1 then [0, 0] else Chunks(run)) + Rle(s[run..])
  {
    hide Chunks, RunOf;
  }

  method StoreChunks(run: nat, dst: array<byte>, at: nat) returns (ok: bool, op: nat)
    requires at <= dst.Length
    modifies dst
    ensures ok == (at + |Chunks(run)| <= dst.Length)
    ensures ok ==> op <= dst.Length && dst[..op] == old(dst[..at]) + Chunks(run)
  {
    ok, op := true, at;
    ghost var before := dst[..at];
    var left := run;
    while left > 0
      invariant at <= op <= dst.Length && dst[..op] + Chunks(left) == before + Chunks(run)
    {
      var ch := Min(left, 255);
      SplitTwice(dst[..op], [0, ch], Chunks(left - ch));
      if op + 2 > dst.Length {
        return false, op;
      }
      op := Append(dst, op, [0, ch]);
      left := left - ch;
    }
  }

  /** rle_decode: the number of bytes restored, or 0 when a run does not fit. */
  method RleDecode(s: seq<byte>, dst: array<byte>) returns (n: nat)
    modifies dst
    ensures match Unrle(s, dst.Length)
            case None => n == 0
            case Some(out) => n == |out| <= dst.Length && dst[..n] == out
  {
    hide Unrle, Copies;
    var at := 0;
    n := 0;
    BeforeNothing(Unrle(s, dst.Length));
    assert s[0..] == s && dst[..0] == [];
    while at < |s| && n < dst.Length
      invariant at <= |s| && n <= dst.Length
      invariant Before(dst[..n], Unrle(s[at..], dst.Length - n)) == Unrle(s, dst.Length)
      decreases |s| - at
    {
      UnrleStep(s, at, dst.Length - n);
      if s[at] == 0 && at + 1 < |s| {
        var c: nat := if s[at + 1] == 0 then 1 else s[at + 1];
        if n + c > dst.Length {
          return 0;
        }
        BeforeTwice(dst[..n], Copies<byte>(0, c), Unrle(s[at + 2..], dst.Length - n - c));
        n := Append(dst, n, Copies<byte>(0, c));
        at := at + 2;
      } else {
        BeforeTwice(dst[..n], [s[at]], Unrle(s[at + 1..], dst.Length - n - 1));
        n := Append(dst, n, [s[at]]);
        at := at + 1;
      }
    }
    UnrleEnds(s[at..], dst.Length - n);
    assert dst[..n] + [] == dst[..n];
  }

  lemma UnrleEnds(s: seq<byte>, room: nat)
    requires s == [] || room == 0
    ensures Unrle(s, room) == Some([])
  {
  }

  lemma UnrleStep(s: seq<byte>, at: nat, room: nat)
    requires at < |s| && room > 0
    ensures s[at] == 0 && at + 1 < |s| ==>
              var c: nat := if s[at + 1] == 0 then 1 else s[at + 1];
              Unrle(s[at..], room) == if c > room then None
                else Before(Copies<byte>(0, c), Unrle(s[at + 2..], room - c))
    ensures !(s[at] == 0 && at + 1 < |s|) ==> Unrle(s[at..], room) == Before([s[at]], Unrle(s[at + 1..], room - 1))
  {
    hide Copies;
    assert s[at..][1..] == s[at + 1..];
    if at + 1 < |s| {
      assert s[at..][2..] == s[at + 2..] && s[at..][1] == s[at + 1];
    }
  }

  // ---------------------------------------------------------------- runs of code lengths

  const SAME: nat := 16
  const FEW_ZEROS: nat := 17
  const MANY_ZEROS: nat := 18

  /** cl_encode: lengths as they are, 16 for three to six repeats, 17 and 18 for zero runs. */
  function Cl(lens: seq<nat>): (t: seq<nat>)
    decreases |lens|
  {
    if lens == [] then []
    else if lens[0] == 0 then
      var run := RunOf(lens, 0, 138);
      ZeroCode(run) + Cl(lens[run..])
    else
      var run := RunOf(lens[1..], lens[0], 6);
      [lens[0]] + RepeatCode(lens[0], run) + Cl(lens[1 + run..])
  }

  function ZeroCode(run: nat): (t: seq<nat>) {
    if run >= 11 then [MANY_ZEROS, run - 11] else if run >= 3 then [FEW_ZEROS, run - 3] else Copies<nat>(0, run)
  }

  function RepeatCode(v: nat, run: nat): (t: seq<nat>) { if run >= 3 then [SAME, run - 3] else Copies<nat>(v, run) }

  /** cl_decode for left more lengths, after the literal length prev; lengths not coded at the end stay 0. */
  function Uncl(s: seq<nat>, left: nat, prev: nat): (r: Option<seq<nat>>)
    ensures r.Some? ==> |r.value| == left
    decreases |s|
  {
    if left == 0 || s == [] then Some(Copies<nat>(0, left))
    else if s[0] <= 15 then Behind([s[0]], Uncl(s[1..], left - 1, s[0]))
    else if s[0] > MANY_ZEROS || |s| < 2 then None
    else
      var n := Min(s[1] + (if s[0] == MANY_ZEROS then 11 else 3), left);
      Behind(Copies<nat>(if s[0] == SAME then prev else 0, n), Uncl(s[2..], left - n, prev))
  }

  function Behind(t: seq<nat>, r: Option<seq<nat>>): (q: Option<seq<nat>>)
    ensures q.Some? <==> r.Some?
    ensures r.Some? ==> |q.value| == |t| + |r.value|
  {
    match r case None => None case Some(s) => Some(t + s)
  }

  lemma BehindTwice(s: seq<nat>, t: seq<nat>, r: Option<seq<nat>>)
    ensures Behind(s, Behind(t, r)) == Behind(s + t, r)
  {
    if r.Some? {
      assert s + (t + r.value) == s + t + r.value;
    }
  }

  lemma BehindNothing(r: Option<seq<nat>>)
    ensures Behind([], r) == r
  {
    if r.Some? {
      assert [] + r.value == r.value;
    }
  }

  /** A few literal lengths. */
  lemma {:induction false} UnclLiterals(v: nat, run: nat, rest: seq<nat>, left: nat, prev: nat)
    requires v <= 15 && run <= left
    ensures Uncl(Copies<nat>(v, run) + rest, left, prev)
            == Behind(Copies<nat>(v, run), Uncl(rest, left - run, if run == 0 then prev else v))
  {
    if run == 0 {
      assert Copies<nat>(v, 0) == [] && Copies<nat>(v, 0) + rest == rest;
      BehindNothing(Uncl(rest, left, prev));
    } else {
      assert (Copies<nat>(v, run) + rest)[1..] == Copies<nat>(v, run - 1) + rest;
      UnclLiterals(v, run - 1, rest, left - 1, v);
      BehindTwice([v], Copies<nat>(v, run - 1), Uncl(rest, left - run, v));
      assert [v] + Copies<nat>(v, run - 1) == Copies<nat>(v, run);
    }
  }

  lemma UnclRun(code: nat, x: nat, rest: seq<nat>, left: nat, prev: nat)
    requires SAME <= code <= MANY_ZEROS && left > 0
    ensures var n := Min(x + (if code == MANY_ZEROS then 11 else 3), left);
            Uncl([code, x] + rest, left, prev)
            == Behind(Copies<nat>(if code == SAME then prev else 0, n), Uncl(rest, left - n, prev))
  {
    assert ([code, x] + rest)[2..] == rest;
  }

  lemma UnclZeros(run: nat, rest: seq<nat>, left: nat, prev: nat) returns (last: nat)
    requires 0 < run <= left && run <= 138
    ensures Uncl(ZeroCode(run) + rest, left, prev) == Behind(Copies<nat>(0, run), Uncl(rest, left - run, last))
  {
    hide Uncl, Copies, Behind;
    if run >= 11 {
      last := prev;
      UnclRun(MANY_ZEROS, run - 11, rest, left, prev);
    } else if run >= 3 {
      last := prev;
      UnclRun(FEW_ZEROS, run - 3, rest, left, prev);
    } else {
      last := 0;
      UnclLiterals(0, run, rest, left, prev);
    }
  }

  lemma UnclRepeats(v: nat, run: nat, rest: seq<nat>, left: nat)
    requires 0 < v <= 15 && run <= left && run <= 6
    ensures Uncl(RepeatCode(v, run) + rest, left, v) == Behind(Copies<nat>(v, run), Uncl(rest, left - run, v))
  {
    hide Uncl, Copies, Behind;
    if run >= 3 {
      UnclRun(SAME, run - 3, rest, left, v);
    } else {
      UnclLiterals(v, run, rest, left, v);
    }
  }

  /** Code lengths are restored, whatever length came before. */
  lemma {:induction false} ClBack(lens: seq<nat>, prev: nat)
    requires forall i :: 0 <= i < |lens| ==> lens[i] <= 15
    ensures Uncl(Cl(lens), |lens|, prev) == Some(lens)
    decreases |lens|
  {
    hide Uncl, Copies, RunOf, ZeroCode, RepeatCode, Behind;
    if lens == [] {
      UnclNothing(prev);
    } else if lens[0] == 0 {
      var run := RunOf(lens, 0, 138);
      RunIsCopies(lens, 0, 138);
      var last := UnclZeros(run, Cl(lens[run..]), |lens|, prev);
      ClBack(lens[run..], last);
      JustBehind(lens[..run], lens[run..]);
      assert lens[..run] + lens[run..] == lens;
    } else {
      var v, run := lens[0], RunOf(lens[1..], lens[0], 6);
      ClBack(lens[1 + run..], v);
      ClOneBack(lens, Cl(lens[1 + run..]), prev);
    }
  }

  /** A length and its repeats in front of what is restored. */
  lemma ClOneBack(lens: seq<nat>, rest: seq<nat>, prev: nat)
    requires lens != [] && 0 < lens[0] <= 15
    requires var run := RunOf(lens[1..], lens[0], 6);
             Uncl(rest, |lens| - 1 - run, lens[0]) == Some(lens[1 + run..])
    ensures var run := RunOf(lens[1..], lens[0], 6);
            Uncl([lens[0]] + RepeatCode(lens[0], run) + rest, |lens|, prev) == Some(lens)
  {
    hide Uncl, Copies, RunOf, RepeatCode, Behind;
    var v, run := lens[0], RunOf(lens[1..], lens[0], 6);
    var code, behind := RepeatCode(v, run), lens[1..][run..];
    assert lens[1 + run..] == behind;
    RepeatsBack(lens[1..], v, rest);
    UnclOne(v, code + rest, |lens|, prev);
    JustBehind([v], lens[1..]);
    Prepend(v, code, rest);
    assert [v] + lens[1..] == lens;
  }

  lemma Prepend(v: nat, a: seq<nat>, b: seq<nat>)
    ensures [v] + a + b == [v] + (a + b)
  {
  }

  lemma RepeatsBack(lens: seq<nat>, v: nat, rest: seq<nat>)
    requires 0 < v <= 15
    requires var run := RunOf(lens, v, 6); Uncl(rest, |lens| - run, v) == Some(lens[run..])
    ensures Uncl(RepeatCode(v, RunOf(lens, v, 6)) + rest, |lens|, v) == Some(lens)
  {
    hide Uncl, Copies, RunOf, RepeatCode, Behind;
    var run := RunOf(lens, v, 6);
    RunIsCopies(lens, v, 6);
    UnclRepeats(v, run, rest, |lens|);
    JustBehind(lens[..run], lens[run..]);
    assert lens[..run] + lens[run..] == lens;
  }

  lemma JustBehind(s: seq<nat>, t: seq<nat>)
    ensures Behind(s, Some(t)) == Some(s + t)
  {
  }

  lemma UnclNothing(prev: nat)
    ensures Uncl([], 0, prev) == Some([])
  {
  }

  lemma UnclOne(v: nat, rest: seq<nat>, left: nat, prev: nat)
    requires v <= 15 && left > 0
    ensures Uncl([v] + rest, left, prev) == Behind([v], Uncl(rest, left - 1, v))
  {
    assert ([v] + rest)[1..] == rest;
  }

  /** No more codes than lengths, each below 256. */
  lemma {:induction false} ClShort(lens: seq<nat>)
    requires forall i :: 0 <= i < |lens| ==> lens[i] <= 15
    ensures |Cl(lens)| <= |lens| && forall i :: 0 <= i < |Cl(lens)| ==> Cl(lens)[i] < 256
    ensures lens != [] ==> Cl(lens) != []
    decreases |lens|
  {
    if lens != [] {
      hide RunOf;
      if lens[0] == 0 {
        ClShort(lens[RunOf(lens, 0, 138)..]);
      } else {
        ClShort(lens[1 + RunOf(lens[1..], lens[0], 6)..]);
      }
    }
  }

  /** cl_encode, whose buffer is always large enough. */
  method ClEncode(lens: seq<nat>) returns (t: seq<nat>)
    ensures t == Cl(lens)
  {
    hide Cl, RunOf, ZeroCode, RepeatCode;
    t := [];
    var i := 0;
    assert lens[0..] == lens && [] + Cl(lens) == Cl(lens);
    while i < |lens|
      invariant i <= |lens| && t + Cl(lens[i..]) == Cl(lens)
      decreases |lens| - i
    {
      ClStep(lens, i);
      if lens[i] == 0 {
        var run := MeasureRun(lens, i, 0, 138);
        var code := StoreZeros(run);
        Regroup(t, code, Cl(lens[i + run..]));
        t, i := t + code, i + run;
      } else {
        var run := MeasureRun(lens, i + 1, lens[i], 6);
        var code := StoreRepeats(lens[i], run);
        Regroup(t, [lens[i]] + code, Cl(lens[i + 1 + run..]));
        t, i := t + ([lens[i]] + code), i + 1 + run;
      }
    }
    ClNothing();
    assert lens[i..] == [] && t + [] == t;
  }

  lemma Regroup(a: seq<nat>, b: seq<nat>, c: seq<nat>)
    ensures a + (b + c) == a + b + c
  {
  }

  lemma ClNothing()
    ensures Cl([]) == []
  {
  }

  lemma ClStep(lens: seq<nat>, i: nat)
    requires i < |lens|
    ensures lens[i] == 0 ==>
              var run := RunOf(lens[i..], 0, 138);
              0 < run <= |lens| - i && Cl(lens[i..]) == ZeroCode(run) + Cl(lens[i + run..])
    ensures lens[i] != 0 ==>
              var run := RunOf(lens[i + 1..], lens[i], 6);
              run <= |lens| - i - 1
              && Cl(lens[i..]) == [lens[i]] + RepeatCode(lens[i], run) + Cl(lens[i + 1 + run..])
  {
    hide Cl, ZeroCode, RepeatCode, RunOf;
    if lens[i] == 0 {
      ClZeros(lens[i..]);
      assert lens[i..][RunOf(lens[i..], 0, 138)..] == lens[i + RunOf(lens[i..], 0, 138)..];
    } else {
      ClRepeats(lens[i..]);
      assert lens[i..][1..] == lens[i + 1..];
      var run := RunOf(lens[i + 1..], lens[i], 6);
      assert lens[i..][1 + run..] == lens[i + 1 + run..];
    }
  }

  lemma ClZeros(lens: seq<nat>)
    requires lens != [] && lens[0] == 0
    ensures var run := RunOf(lens, 0, 138); run > 0 && Cl(lens) == ZeroCode(run) + Cl(lens[run..])
  {
    hide ZeroCode, RunOf;
  }

  lemma ClRepeats(lens: seq<nat>)
    requires lens != [] && lens[0] != 0
    ensures var run := RunOf(lens[1..], lens[0], 6);
            Cl(lens) == [lens[0]] + RepeatCode(lens[0], run) + Cl(lens[1 + run..])
  {
    hide RepeatCode, RunOf;
  }

  /** The inner loop over a run of zeros. */
  method StoreZeros(run: nat) returns (t: seq<nat>)
    requires 0 < run <= 138
    ensures t == ZeroCode(run)
  {
    t := [];
    var left := run;
    while left > 0
      invariant left <= run && (left == run ==> t == []) && (left < run && run >= 3 ==> left == 0 && t == ZeroCode(run))
      invariant run < 3 ==> t == Copies<nat>(0, run - left)
    {
      if left >= 11 {
        t := t + [MANY_ZEROS, left - 11];
        left := 0;
      } else if left >= 3 {
        t := t + [FEW_ZEROS, left - 3];
        left := 0;
      } else {
        t := t + [0];
        left := left - 1;
      }
    }
  }

  /** The inner loops over repeats. */
  method StoreRepeats(v: nat, run: nat) returns (t: seq<nat>)
    requires run <= 6
    ensures t == RepeatCode(v, run)
  {
    t := [];
    var left: nat := run;
    if left >= 3 {
      t := [SAME, left - 3];
      left := 0;
    }
    while left > 0
      invariant left <= run
      invariant run >= 3 ==> left == 0 && t == [SAME, run - 3]
      invariant run < 3 ==> t == Copies<nat>(v, run - left)
    {
      assert t + [v] == Copies<nat>(v, run - left + 1);
      t, left := t + [v], left - 1;
    }
  }

  /** cl_decode, into lengths that were cleared. */
  method ClDecode(s: seq<nat>, count: nat) returns (r: Option<seq<nat>>)
    ensures r == Uncl(s, count, 0)
  {
    hide Uncl, Copies, Behind;
    var lens: seq<nat>, ip: nat, prev: nat := [], 0, 0;
    BehindNothing(Uncl(s, count, 0));
    assert s[0..] == s;
    while |lens| < count && ip < |s|
      invariant |lens| <= count && ip <= |s| && Behind(lens, Uncl(s[ip..], count - |lens|, prev)) == Uncl(s, count, 0)
      decreases |s| - ip
    {
      var left := count - |lens|;
      UnclStep(s, ip, left, prev);
      if s[ip] <= 15 {
        BehindTwice(lens, [s[ip]], Uncl(s[ip + 1..], left - 1, s[ip]));
        lens, prev, ip := lens + [s[ip]], s[ip], ip + 1;
      } else if s[ip] > MANY_ZEROS || ip + 1 >= |s| {
        return None;
      } else {
        var n := Min(s[ip + 1] + (if s[ip] == MANY_ZEROS then 11 else 3), left);
        var more := Copies<nat>(if s[ip] == SAME then prev else 0, n);
        BehindTwice(lens, more, Uncl(s[ip + 2..], left - n, prev));
        lens, ip := lens + more, ip + 2;
      }
    }
    UnclEnds(s[ip..], count - |lens|, prev);
    r := Some(lens + Copies<nat>(0, count - |lens|));
    JustBehind(lens, Copies<nat>(0, count - |lens|));
  }

  lemma UnclEnds(s: seq<nat>, left: nat, prev: nat)
    requires s == [] || left == 0
    ensures Uncl(s, left, prev) == Some(Copies<nat>(0, left))
  {
  }

  lemma UnclStep(s: seq<nat>, ip: nat, left: nat, prev: nat)
    requires ip < |s| && left > 0
    ensures s[ip] <= 15 ==> Uncl(s[ip..], left, prev) == Behind([s[ip]], Uncl(s[ip + 1..], left - 1, s[ip]))
    ensures s[ip] > MANY_ZEROS || (s[ip] > 15 && ip + 1 >= |s|) ==> Uncl(s[ip..], left, prev) == None
    ensures 15 < s[ip] <= MANY_ZEROS && ip + 1 < |s| ==>
              var n := Min(s[ip + 1] + (if s[ip] == MANY_ZEROS then 11 else 3), left);
              Uncl(s[ip..], left, prev)
              == Behind(Copies<nat>(if s[ip] == SAME then prev else 0, n), Uncl(s[ip + 2..], left - n, prev))
  {
    hide Copies;
    assert s[ip..][1..] == s[ip + 1..];
    if ip + 1 < |s| {
      assert s[ip..][2..] == s[ip + 2..] && s[ip..][1] == s[ip + 1];
    }
  }
}
