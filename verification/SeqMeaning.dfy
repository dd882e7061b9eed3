/** What sequence-coded blocks stand for, said of their bytes. */
module SeqMeaning {
  import opened Arithmetic
  import opened LittleEndian
  import opened Wrappers
  import opened Bits
  import opened AnsTable
  import opened AnsBuild
  import opened AnsMeaning
  import opened Lz
  import opened LzGrammar
  import opened SeqCodes
  import opened SeqHistory
  import opened SeqStream
  import opened SeqDecode

  // ---------------------------------------------------------------- codes

  /** The least run of each code from 16 on, and its extra bits; code c below 16 is a run of c. */
  const LONG_RUNS: seq<nat> :=
    [16, 18, 20, 24, 28, 32, 48, 64, 128, 256, 512, 1024, 2048, 4096, 8192, 16384, 32768, 49152, 57344, 61440]
  const LONG_RUN_BITS: seq<nat> := [1, 1, 2, 2, 2, 4, 4, 6, 7, 8, 9, 10, 11, 12, 13, 14, 14, 13, 12, 12]

  /** The least match of each code from 16 on, and its extra bits; code c below 16 is a match of 4 + c. In the second
      format matches are one shorter. */
  const LONG_MATCHES: seq<nat> :=
    [20, 22, 24, 28, 32, 40, 48, 64, 96, 128, 192, 256, 384, 512, 1024, 2048, 4096, 8192, 16384, 32768]
  const LONG_MATCH_BITS: seq<nat> := [1, 1, 2, 2, 3, 3, 4, 5, 5, 6, 6, 7, 7, 9, 10, 11, 12, 13, 14, 15]

  /** Extra bits of a code of a stream. */
  function Width(x: Stream, c: nat): (n: nat)
    requires c < 36
  {
    match x
    case Lits => if c < 16 then 0 else LONG_RUN_BITS[c - 16]
    case Offs => if c < 3 then 0 else c - 3
    case Lens(_) => if c < 16 then 0 else LONG_MATCH_BITS[c - 16]
  }

  /** The least run, or the least match, that a code stands for. */
  function LeastRun(c: nat): (n: nat)
    requires c < 36
  {
    if c < 16 then c else LONG_RUNS[c - 16]
  }

  function LeastMatch(second: bool, c: nat): (n: nat)
    requires c < 36
  {
    (if c < 16 then 4 + c else LONG_MATCHES[c - 16]) - (if second then 1 else 0)
  }

  lemma LongRuns(i: nat)
    requires i < 20
    ensures Base(LL, 16 + i) == LONG_RUNS[i]
  {
  }

  lemma LongRunBits(i: nat)
    requires i < 20
    ensures Extra(LL, 16 + i) == LONG_RUN_BITS[i]
  {
  }

  lemma LongMatches(i: nat)
    requires i < 20
    ensures Base(ML, 16 + i) == LONG_MATCHES[i]
  {
  }

  lemma LongMatchBits(i: nat)
    requires i < 20
    ensures Extra(ML, 16 + i) == LONG_MATCH_BITS[i]
  {
  }

  lemma CodesMean(k: Kind, c: nat)
    requires c < 36 && k != LL
    ensures Base(LL, c) == LeastRun(c) && Extra(LL, c) == Width(Lits, c)
    ensures Base(k, c) == LeastMatch(k == MLV2, c) && Extra(k, c) == Width(Lens(k), c)
    ensures c < 27 ==> OfExtra(c) == Width(Offs, c)
  {
    if c >= 16 {
      LongRuns(c - 16);
      LongRunBits(c - 16);
      LongMatches(c - 16);
      LongMatchBits(c - 16);
    }
  }

  // ---------------------------------------------------------------- sequences

  /** The bits of v from position at on. */
  function Tail(v: nat, at: nat): (r: nat) { Over(v, Pow2(at)) }

  /** One code of a stream at a position among the bits of v: the entry at the state, modulo 4096, gives the code and
      how many bits to add to its base for the next state; behind these bits come the extra bits. */
  datatype Fetched = Fetched(code: nat, extra: nat, state: nat, at: nat)

  predicate HasCode(dec: seq<Entry>, state: nat, codes: nat) {
    |dec| == 4096 && dec[state % 4096].symbol < codes
  }

  function Fetch(x: Stream, dec: seq<Entry>, v: nat, state: nat, at: nat): (f: Fetched)
    requires HasCode(dec, state, 36)
    ensures f.code < 36
  {
    var e := dec[state % 4096];
    var behind, n := at + e.nbits, Width(x, e.symbol);
    Fetched(e.symbol, Tail(v, behind) % Pow2(n), e.baseline + Tail(v, at) % Pow2(e.nbits), behind + n)
  }

  /** The decode tables of the three streams. */
  datatype Decs = Decs(ll: seq<Entry>, off: seq<Entry>, len: seq<Entry>)

  /** The three states and a position among the bits. */
  datatype Heads = Heads(ll: nat, off: nat, len: nat, at: nat)

  /** The bits of a block, its tables, and its limits: where its output must end and how far back offsets may reach. */
  datatype Scene = Scene(second: bool, decs: Decs, v: nat, end: nat, maxOffset: nat)

  /** The offset of an offset code after others: the first three name recent ones. */
  function Named(offs: seq<nat>, code: nat, extra: nat): (off: nat) {
    if code < 3 then Recent(offs, code + 1) else Pow2(code - 3) + extra
  }

  /** At most n rounds that use up the literals lits and that many matches and take the output from h to out, after
      the offsets offs: each a run and, while there are matches, an offset and a match length. */
  ghost predicate Plays(c: Scene, y: Heads, lits: seq<byte>, matches: nat, offs: seq<nat>, h: seq<byte>, out: seq<byte>,
                        n: nat)
    decreases n
  {
    if lits == [] && matches == 0 then out == h
    else
      n > 0 && HasCode(c.decs.ll, y.ll, 36)
      && var l := Fetch(Lits, c.decs.ll, c.v, y.ll, y.at);
         var run := LeastRun(l.code) + l.extra;
         run <= |lits| && |h| + run <= c.end
         && var g := h + lits[..run];
            if matches == 0 then Plays(c, y.(ll := l.state, at := l.at), lits[run..], 0, offs, g, out, n - 1)
            else PlaysMatch(c, y.(ll := l.state, at := l.at), lits[run..], matches, offs, g, out, n)
  }

  ghost predicate PlaysMatch(c: Scene, y: Heads, lits: seq<byte>, matches: nat, offs: seq<nat>, g: seq<byte>,
                             out: seq<byte>, n: nat)
    requires matches > 0 && n > 0
    decreases n, 0
  {
    HasCode(c.decs.off, y.off, 27) && HasCode(c.decs.len, y.len, 36)
    && var o := Fetch(Offs, c.decs.off, c.v, y.off, y.at);
       var m := Fetch(Lens(if c.second then MLV2 else ML), c.decs.len, c.v, y.len, o.at);
       var off, z := Named(offs, o.code, o.extra), |g| + LeastMatch(c.second, m.code) + m.extra;
       off <= c.maxOffset && z <= c.end && z <= |out| && g <= out && Repeats(out[..z], |g|, off)
       && Plays(c, Heads(y.ll, o.state, m.state, m.at), lits, matches - 1, offs + [off], out[..z], out, n - 1)
  }

  /** Rounds enough for a block. */
  function Rounds(b: Block): (n: nat) { |b.lits| + b.matches + 16 }

  /** A code stands for the offset the decoder makes of it. */
  lemma RepCodes(r: Reps, offs: seq<nat>, sym: nat, bits: nat)
    requires Remembers(r, offs)
    ensures OfDecode(r, sym, bits) == Named(offs, sym, bits)
  {
    hide Recent;
  }

  lemma CodeThere(x: Stream, norm: seq<nat>, state: nat)
    requires TableOf(x, norm)
    ensures HasCode(DecTable(norm), state, CodeCount(x)) && HasCode(DecTable(norm), state, 36)
  {
    hide DecEntry, IsTable;
    SymbolInRange(x, norm, state % 4096);
  }

  /** Reading a code is fetching it. */
  lemma FetchIs(x: Stream, norm: seq<nat>, state: nat, v: nat, at: nat)
    requires TableOf(x, norm) && HasCode(DecTable(norm), state, 36) && (x.Lens? ==> x.kind != LL)
    ensures var f := Fetch(x, DecTable(norm), v, state, at);
            TakeCode(x, norm, state, Tail(v, at)) == Taken(f.state, f.code, f.extra, Tail(v, f.at))
  {
    hide DecEntry, Pow2, IsTable, Extra, OfExtra, Width;
    CodeThere(x, norm, state);
    var e := DecTable(norm)[state % 4096];
    CodesMean(if x.Lens? then x.kind else ML, e.symbol);
    var n := ExtraBits(x, e.symbol);
    Pow2Add(at, e.nbits);
    DivTwice(v, Pow2(at), Pow2(e.nbits));
    Pow2Add(at + e.nbits, n);
    DivTwice(v, Pow2(at + e.nbits), Pow2(n));
  }

  /** The decode tables are those of the block, and the limits too. */
  ghost predicate Meets(b: Block, c: Scene) {
    c.second == (b.kind == MLV2) && c.end == b.end && c.maxOffset == b.maxOffset
    && (TableOf(Lits, b.t.ll) ==> c.decs.ll == DecTable(b.t.ll))
    && (TableOf(Offs, b.t.off) ==> c.decs.off == DecTable(b.t.off))
    && (TableOf(Lens(b.kind), b.t.len) ==> c.decs.len == DecTable(b.t.len))
  }

  function HeadsOf(s: State, at: nat): (y: Heads) { Heads(s.ll, s.off, s.len, at) }

  lemma {:induction false} PlayedLonger(c: Scene, y: Heads, lits: seq<byte>, matches: nat, offs: seq<nat>, h: seq<byte>,
                                        out: seq<byte>, n: nat)
    requires Plays(c, y, lits, matches, offs, h, out, n)
    ensures h <= out
    decreases n
  {
    hide Fetch, LeastRun, LeastMatch, Named, Repeats;
    if lits != [] || matches > 0 {
      var l := Fetch(Lits, c.decs.ll, c.v, y.ll, y.at);
      var run := LeastRun(l.code) + l.extra;
      if matches == 0 {
        PlayedLonger(c, y.(ll := l.state, at := l.at), lits[run..], 0, offs, h + lits[..run], out, n - 1);
      }
    }
  }

  /** A match that is copied, and where that leads. */
  lemma CopyPlays(c: Scene, y: Heads, lits: seq<byte>, matches: nat, offs: seq<nat>, g: seq<byte>, off: nat, len: nat,
                  out: seq<byte>, n: nat)
    requires matches > 0 && 0 < off <= |g|
    ensures Plays(c, y, lits, matches - 1, offs, CopyMatch(g, off, len), out, n)
            <==> |g| + len <= |out| && g <= out && Repeats(out[..|g| + len], |g|, off)
                 && Plays(c, y, lits, matches - 1, offs, out[..|g| + len], out, n)
  {
    hide Plays, CopyMatch;
    var x := CopyMatch(g, off, len);
    CopyMeans(g, off, len, x);
    if |out| >= |g| + len {
      CopyMeans(g, off, len, out[..|g| + len]);
    }
    if Plays(c, y, lits, matches - 1, offs, x, out, n) {
      PlayedLonger(c, y, lits, matches - 1, offs, x, out, n);
      assert out[..|g| + len] == x;
    }
  }

  /** The match half of a round, by the codes fetched. */
  lemma MatchFetched(b: Block, c: Scene, s: State, at: nat)
    requires BlockOk(b) && StateOk(b, s) && s.done < b.matches && Meets(b, c) && s.rest == Tail(c.v, at)
    ensures HasCode(c.decs.off, s.off, 27) && HasCode(c.decs.len, s.len, 36) && HasCode(c.decs.off, s.off, 36)
    ensures var o := Fetch(Offs, c.decs.off, c.v, s.off, at);
            var m := Fetch(Lens(b.kind), c.decs.len, c.v, s.len, o.at);
            var off, len := OfDecode(s.reps, o.code, o.extra), LeastMatch(c.second, m.code) + m.extra;
            MatchStep(b, true, s)
            == if off == 0 || off > b.maxOffset || off > |s.h| then Stop(Corrupt)
               else if len > b.end - |s.h| then Stop(Overflow)
               else Go(s.(off := o.state, len := m.state, rest := Tail(c.v, m.at), reps := RepNext(s.reps, off),
                          done := s.done + 1, h := CopyMatch(s.h, off, len)))
  {
    hide Fetch, TakeCode, TableOf, OfDecode, Base, LeastMatch, CopyMatch, RepNext, Tail, HasCode;
    CodeThere(Offs, b.t.off, s.off);
    CodeThere(Lens(b.kind), b.t.len, s.len);
    FetchIs(Offs, b.t.off, s.off, c.v, at);
    var o := Fetch(Offs, c.decs.off, c.v, s.off, at);
    FetchIs(Lens(b.kind), b.t.len, s.len, c.v, o.at);
    CodesMean(b.kind, Fetch(Lens(b.kind), c.decs.len, c.v, s.len, o.at).code);
  }

  /** The match half of a round plays out where the decoder goes on and what follows plays out. */
  lemma MatchPlays(b: Block, c: Scene, s: State, at: nat, offs: seq<nat>, out: seq<byte>, n: nat)
    requires BlockOk(b) && StateOk(b, s) && s.done < b.matches && Meets(b, c) && Remembers(s.reps, offs) && n > 0
    requires s.rest == Tail(c.v, at)
    ensures HasCode(c.decs.off, s.off, 36) && HasCode(c.decs.len, s.len, 36)
    ensures var r := MatchStep(b, true, s);
            var o := Fetch(Offs, c.decs.off, c.v, s.off, at);
            var m := Fetch(Lens(b.kind), c.decs.len, c.v, s.len, o.at);
            var off := Named(offs, o.code, o.extra);
            && (PlaysMatch(c, HeadsOf(s, at), b.lits[s.lit..], b.matches - s.done, offs, s.h, out, n)
                <==> r.Go? && Plays(c, HeadsOf(r.s, m.at), b.lits[r.s.lit..], b.matches - r.s.done, offs + [off],
                                    r.s.h, out, n - 1))
            && (r.Go? ==> r.s.rest == Tail(c.v, m.at) && r.s.reps == RepNext(s.reps, off) && r.s.lit == s.lit)
  {
    hide Fetch, Plays, TableOf, OfDecode, Named, LeastMatch, CopyMatch, RepNext, Repeats, Remembers, Tail, HasCode,
         MatchStep;
    MatchFetched(b, c, s, at);
    var o := Fetch(Offs, c.decs.off, c.v, s.off, at);
    var m := Fetch(Lens(b.kind), c.decs.len, c.v, s.len, o.at);
    RepCodes(s.reps, offs, o.code, o.extra);
    var off, len := Named(offs, o.code, o.extra), LeastMatch(c.second, m.code) + m.extra;
    if 0 < off <= |s.h| {
      CopyPlays(c, Heads(s.ll, o.state, m.state, m.at), b.lits[s.lit..], b.matches - s.done, offs + [off], s.h, off,
                len, out, n - 1);
    }
    NoRepeat(out, |s.h|, off);
  }

  lemma NoRepeat(x: seq<byte>, from: nat, off: nat)
    ensures !(0 < off <= from) ==> forall z: nat :: z <= |x| ==> !Repeats(x[..z], from, off)
  {
  }

  lemma LitsOn(b: Block, i: nat, j: nat)
    requires i <= j <= |b.lits|
    ensures b.lits[i..][..j - i] == b.lits[i..j] && b.lits[i..][j - i..] == b.lits[j..]
  {
  }

  /** The literal half of a round, by the code fetched. */
  lemma RunFetched(b: Block, c: Scene, s: State, at: nat)
    requires BlockOk(b) && StateOk(b, s) && More(b, s) && Meets(b, c) && s.rest == Tail(c.v, at)
    ensures HasCode(c.decs.ll, s.ll, 36)
    ensures var l := Fetch(Lits, c.decs.ll, c.v, s.ll, at);
            var n := LeastRun(l.code) + l.extra;
            LitStep(b, true, s)
            == if n > |b.lits| - s.lit then Stop(Corrupt)
               else if n > b.end - |s.h| then Stop(Overflow)
               else Go(s.(ll := l.state, rest := Tail(c.v, l.at), lit := s.lit + n,
                          h := s.h + b.lits[s.lit..s.lit + n]))
  {
    hide Fetch, TakeCode, TableOf, Base, LeastRun, Tail, HasCode;
    CodeThere(Lits, b.t.ll, s.ll);
    FetchIs(Lits, b.t.ll, s.ll, c.v, at);
    CodesMean(b.kind, Fetch(Lits, c.decs.ll, c.v, s.ll, at).code);
  }

  /** The literal half of a round plays out where the decoder goes on and what follows plays out. */
  lemma RunPlays(b: Block, c: Scene, s: State, at: nat, offs: seq<nat>, out: seq<byte>, n: nat)
    requires BlockOk(b) && StateOk(b, s) && More(b, s) && Meets(b, c) && n > 0 && s.rest == Tail(c.v, at)
    ensures HasCode(c.decs.ll, s.ll, 36)
    ensures var r := LitStep(b, true, s);
            var l := Fetch(Lits, c.decs.ll, c.v, s.ll, at);
            && (Plays(c, HeadsOf(s, at), b.lits[s.lit..], b.matches - s.done, offs, s.h, out, n)
                <==> r.Go? && var y, rest := HeadsOf(r.s, l.at), b.lits[r.s.lit..];
                              if s.done == b.matches then Plays(c, y, rest, 0, offs, r.s.h, out, n - 1)
                              else PlaysMatch(c, y, rest, b.matches - s.done, offs, r.s.h, out, n))
            && (r.Go? ==> r.s.rest == Tail(c.v, l.at) && r.s.reps == s.reps)
  {
    hide Fetch, LitStep, PlaysMatch, LeastRun, Tail, HasCode, BlockOk, TableOf;
    RunFetched(b, c, s, at);
    if LitStep(b, true, s).Go? {
      LitsOn(b, s.lit, LitStep(b, true, s).s.lit);
    }
  }

  /** For every block, well formed or not, with right tables: the loop yields out exactly where the block's codes, read
      from position at on, play out. */
  lemma {:induction false} LoopMeans(b: Block, c: Scene, s: State, at: nat, offs: seq<nat>, out: seq<byte>, n: nat)
    requires BlockOk(b) && StateOk(b, s) && Meets(b, c) && Remembers(s.reps, offs) && s.rest == Tail(c.v, at)
    ensures Loop(b, false, s, n) == Done(out)
            <==> Plays(c, HeadsOf(s, at), b.lits[s.lit..], b.matches - s.done, offs, s.h, out, n)
    decreases n
  {
    hide Fetch, PlaysMatch, TableOf, Named, LitStep, MatchStep, RepNext, Remembers, Tail, HasCode, Meets;
    if !More(b, s) || n == 0 {
    } else {
      hide Plays;
      RunPlays(b, c, s, at, offs, out, n);
      var l := Fetch(Lits, c.decs.ll, c.v, s.ll, at);
      if LitStep(b, true, s).Go? {
        var s1 := LitStep(b, true, s).s;
        if s1.done < b.matches {
          MatchPlays(b, c, s1, l.at, offs, out, n);
          var o := Fetch(Offs, c.decs.off, c.v, s1.off, l.at);
          var m := Fetch(Lens(b.kind), c.decs.len, c.v, s1.len, o.at);
          var off := Named(offs, o.code, o.extra);
          if MatchStep(b, true, s1).Go? {
            HistoryFollows(s1.reps, offs, off);
            LoopMeans(b, c, MatchStep(b, true, s1).s, m.at, offs + [off], out, n - 1);
          }
        } else {
          LoopMeans(b, c, s1, l.at, offs, out, n - 1);
        }
      }
    }
  }

  /** The bits, tables and limits of a block. */
  ghost function SceneOf(b: Block, v: nat): (c: Scene)
    requires BlockOk(b)
    ensures Meets(b, c) && c.v == v
  {
    Scene(b.kind == MLV2,
          Decs(if TableOf(Lits, b.t.ll) then DecTable(b.t.ll) else [],
               if TableOf(Offs, b.t.off) then DecTable(b.t.off) else [],
               if TableOf(Lens(b.kind), b.t.len) then DecTable(b.t.len) else []),
          v, b.end, b.maxOffset)
  }

  /** The result is what the codes play out, or they play out nothing. */
  ghost predicate PlaysTo(b: Block, y: Heads, v: nat, h: seq<byte>, r: Result)
    requires BlockOk(b)
  {
    if r.Done? then Plays(SceneOf(b, v), y, b.lits, b.matches, [], h, r.h, Rounds(b))
    else forall out: seq<byte> :: !Plays(SceneOf(b, v), y, b.lits, b.matches, [], h, out, Rounds(b))
  }

  /** The loop from the start of a block on. */
  lemma BlockPlays(b: Block, s: State)
    requires BlockOk(b) && StateOk(b, s) && s.reps == NO_REPS && s.lit == s.done == 0
    ensures PlaysTo(b, HeadsOf(s, 0), s.rest, s.h, Loop(b, false, s, Rounds(b)))
  {
    hide Loop, Plays, Meets, Remembers, SceneOf, BlockOk;
    NothingRemembered();
    assert b.lits[0..] == b.lits;
    WholeTail(s.rest);
    var c, r := SceneOf(b, s.rest), Loop(b, false, s, Rounds(b));
    if r.Done? {
      LoopMeans(b, c, s, 0, [], r.h, Rounds(b));
    } else {
      forall out: seq<byte> ensures !Plays(c, HeadsOf(s, 0), b.lits, b.matches, [], s.h, out, Rounds(b)) {
        LoopMeans(b, c, s, 0, [], out, Rounds(b));
      }
    }
  }

  lemma WholeTail(v: nat)
    ensures Tail(v, 0) == v
  {
  }
}
