/** From a token stream to sequences, and what sequences mean. */
module SeqParse {
  import opened LittleEndian
  import opened Lz

  const LL_MAX: nat := 65535

  /** seq_t without the literal position; matchlen 0 marks a sequence without a match. */
  datatype Seq = Seq(litlen: nat, matchlen: nat, offset: nat)

  datatype Parsed = Parsed(seqs: seq<Seq>, lits: seq<byte>) | Rejected

  /** The entries a final literal run is split into. */
  function FinalRun(ll: nat): (r: seq<Seq>) {
    if ll > LL_MAX then [Seq(LL_MAX, 0, 0)] + FinalRun(ll - LL_MAX) else [Seq(ll, 0, 0)]
  }

  function Add(run: seq<byte>, q: Seq, r: Parsed): (t: Parsed) {
    match r
    case Rejected => Rejected
    case Parsed(seqs, lits) => Parsed([q] + seqs, run + lits)
  }

  /** parse_sequences. */
  function Parse(ob: nat, minMatch: nat, s: seq<byte>): (r: Parsed)
    requires ob == 2 || ob == 3
    decreases |s|
  {
    if s == [] then Parsed([], [])
    else
      match ReadLenLax(s[0] / 16, s[1..])
      case CutOff => Rejected
      case Ext(ll, used) =>
        var s1 := s[1 + used..];
        if ll > |s1| then Rejected
        else if ll == |s1| then Parsed(FinalRun(ll), s1)
        else if ll > LL_MAX then Rejected
        else ParseMatch(ob, minMatch, s[0] % 16, s1[..ll], s1[ll..])
  }

  function ParseMatch(ob: nat, minMatch: nat, mc: nat, run: seq<byte>, s: seq<byte>): (r: Parsed)
    requires ob == 2 || ob == 3
    decreases |s|
  {
    if |s| < ob then Rejected
    else
      match ReadLenLax(mc, s[ob..])
      case CutOff => Rejected
      case Ext(len, used) =>
        Add(run, Seq(|run|, len + minMatch, Offset(s, ob)), Parse(ob, minMatch, s[ob + used..]))
  }

  /** The meaning of sequences over their literals, after the history h. */
  function Run(p: Params, seqs: seq<Seq>, lits: seq<byte>, h: seq<byte>): (r: Result)
    requires ParamsOk(p)
  {
    if seqs == [] then Done(h)
    else
      var q := seqs[0];
      if q.litlen > |lits| then Fail(Corrupt)
      else if |h| + q.litlen > p.end then Fail(Overflow)
      else
        var h1 := h + lits[..q.litlen];
        if q.matchlen == 0 then Run(p, seqs[1..], lits[q.litlen..], h1)
        else if q.offset == 0 || q.offset > p.maxOffset || q.offset > |h1| then Fail(Corrupt)
        else if |h1| + q.matchlen > p.end then Fail(Overflow)
        else Run(p, seqs[1..], lits[q.litlen..], CopyMatch(h1, q.offset, q.matchlen))
  }

  lemma {:induction false} FinalRunMeans(p: Params, lits: seq<byte>, h: seq<byte>)
    requires ParamsOk(p) && |h| + |lits| <= p.end
    ensures Run(p, FinalRun(|lits|), lits, h) == Done(h + lits)
    decreases |lits|
  {
    if |lits| > LL_MAX {
      FinalRunMeans(p, lits[LL_MAX..], h + lits[..LL_MAX]);
      assert h + lits[..LL_MAX] + lits[LL_MAX..] == h + lits;
      assert FinalRun(|lits|)[1..] == FinalRun(|lits| - LL_MAX);
    } else {
      assert lits[..|lits|] == lits;
      assert FinalRun(|lits|)[1..] == [];
    }
  }

  /** One parsed sequence in front of the rest. */
  lemma RunAdd(p: Params, run: seq<byte>, q: Seq, seqs: seq<Seq>, lits: seq<byte>, h: seq<byte>)
    requires ParamsOk(p) && q.litlen == |run| && q.matchlen > 0 && |h| + |run| <= p.end
    requires 0 < q.offset <= p.maxOffset && q.offset <= |h| + |run| && |h| + |run| + q.matchlen <= p.end
    ensures Run(p, [q] + seqs, run + lits, h) == Run(p, seqs, lits, CopyMatch(h + run, q.offset, q.matchlen))
  {
    hide CopyMatch;
    assert ([q] + seqs)[1..] == seqs;
    assert (run + lits)[..|run|] == run && (run + lits)[|run|..] == lits;
  }

  /** The first token of a stream that decodes, and what the parser makes of it. */
  lemma FirstToken(p: Params, s: seq<byte>, h: seq<byte>)
    requires ParamsOk(p) && s != [] && Decode(p, s, h).Done? && Parse(p.ob, p.minMatch, s).Parsed?
    ensures ReadLen(s[0] / 16, s[1..]).Ext?
    ensures var e := ReadLen(s[0] / 16, s[1..]);
            var s1 := s[1 + e.used..];
            e.val <= |s1| && |h| + e.val <= p.end
            && if e.val == |s1| then
                 Decode(p, s, h) == Done(h + s1) && Parse(p.ob, p.minMatch, s) == Parsed(FinalRun(e.val), s1)
               else
                 Decode(p, s, h) == DecodeMatch(p, s[0] % 16, s1[e.val..], h + s1[..e.val])
                 && Parse(p.ob, p.minMatch, s) == ParseMatch(p.ob, p.minMatch, s[0] % 16, s1[..e.val], s1[e.val..])
  {
    hide ReadLen, ReadLenLax, DecodeMatch, ParseMatch, FinalRun;
    ReadLenLocal(s[0] / 16, s[1..], []);
    var e := ReadLen(s[0] / 16, s[1..]);
    var s1 := s[1 + e.used..];
    if e.val == |s1| {
      assert s1[..e.val] == s1;
    }
  }

  /** A token stream that decodes and parses means what its sequences mean. */
  lemma {:induction false} ParseMeans(p: Params, s: seq<byte>, h: seq<byte>)
    requires ParamsOk(p) && Decode(p, s, h).Done? && Parse(p.ob, p.minMatch, s).Parsed?
    ensures var r := Parse(p.ob, p.minMatch, s); Run(p, r.seqs, r.lits, h) == Decode(p, s, h)
    decreases |s|
  {
    hide ReadLen, Decode, Parse, DecodeMatch, ParseMatch, Run, FinalRun;
    if s != [] {
      FirstToken(p, s, h);
      var e := ReadLen(s[0] / 16, s[1..]);
      var s1 := s[1 + e.used..];
      if e.val == |s1| {
        FinalRunMeans(p, s1, h);
      } else {
        MatchMeans(p, s[0] % 16, s1[..e.val], s1[e.val..], h);
      }
    } else {
      NoTokens(p, h);
      NoSeqs(p, h);
    }
  }

  lemma NoTokens(p: Params, h: seq<byte>)
    requires ParamsOk(p)
    ensures Decode(p, [], h) == Done(h) && Parse(p.ob, p.minMatch, []) == Parsed([], [])
  {
  }

  lemma NoSeqs(p: Params, h: seq<byte>)
    requires ParamsOk(p)
    ensures Run(p, [], [], h) == Done(h)
  {
  }

  lemma {:induction false} MatchMeans(p: Params, mc: nat, run: seq<byte>, s: seq<byte>, h: seq<byte>)
    requires ParamsOk(p) && |h| + |run| <= p.end
    requires DecodeMatch(p, mc, s, h + run).Done? && ParseMatch(p.ob, p.minMatch, mc, run, s).Parsed?
    ensures var r := ParseMatch(p.ob, p.minMatch, mc, run, s);
            Run(p, r.seqs, r.lits, h) == DecodeMatch(p, mc, s, h + run)
    decreases |s|
  {
    hide ReadLen, ReadLenLax, Decode, Parse, Run, CopyMatch, Offset;
    ReadLenLocal(mc, s[p.ob..], []);
    var e := ReadLen(mc, s[p.ob..]);
    var rest := s[p.ob + e.used..];
    ParseMeans(p, rest, CopyMatch(h + run, Offset(s, p.ob), e.val + p.minMatch));
    var r := Parse(p.ob, p.minMatch, rest);
    RunAdd(p, run, Seq(|run|, e.val + p.minMatch, Offset(s, p.ob)), r.seqs, r.lits, h);
  }

  // ---------------------------------------------------------------- shape of parsed sequences

  /** Entries without a match come last, and only the very last entry may be empty. */
  predicate Shaped(seqs: seq<Seq>) {
    && (forall i, j :: 0 <= i < j < |seqs| && seqs[i].matchlen == 0 ==> seqs[j].matchlen == 0)
    && (forall i :: 0 <= i < |seqs| - 1 && seqs[i].matchlen == 0 ==> seqs[i].litlen > 0)
    && (forall i :: 0 <= i < |seqs| ==> seqs[i].litlen <= LL_MAX)
  }

  function LitTotal(seqs: seq<Seq>): (n: nat) {
    if seqs == [] then 0 else seqs[0].litlen + LitTotal(seqs[1..])
  }

  function MatchCount(seqs: seq<Seq>): (n: nat) {
    if seqs == [] then 0 else (if seqs[0].matchlen > 0 then 1 else 0) + MatchCount(seqs[1..])
  }

  lemma {:induction false} FinalRunShaped(ll: nat)
    ensures Shaped(FinalRun(ll)) && LitTotal(FinalRun(ll)) == ll && FinalRun(ll) != []
    ensures forall q :: q in FinalRun(ll) ==> q.matchlen == 0
    ensures forall i :: 0 <= i < |FinalRun(ll)| - 1 ==> FinalRun(ll)[i].litlen == 65535
    ensures ll > 0 ==> FinalRun(ll)[|FinalRun(ll)| - 1].litlen > 0
  {
    if ll > LL_MAX {
      FinalRunShaped(ll - LL_MAX);
      assert FinalRun(ll)[1..] == FinalRun(ll - LL_MAX);
    } else {
      assert FinalRun(ll)[1..] == [];
    }
  }

  /** Sequences that parse are shaped for the wire, account for all literals, and are within the scratch bound. */
  lemma {:induction false} ParseShaped(ob: nat, minMatch: nat, s: seq<byte>)
    requires (ob == 2 || ob == 3) && minMatch > 0 && Parse(ob, minMatch, s).Parsed?
    ensures var r := Parse(ob, minMatch, s);
            && Shaped(r.seqs) && LitTotal(r.seqs) == |r.lits|
            && (s != [] ==> r.seqs != [])
            && (forall q :: q in r.seqs && q.matchlen > 0 ==> q.matchlen >= minMatch && q.offset < 0x100_0000)
    decreases |s|
  {
    if s != [] {
      hide ReadLenLax;
      var e := ReadLenLax(s[0] / 16, s[1..]);
      var s1 := s[1 + e.used..];
      if e.val == |s1| {
        FinalRunShaped(|s1|);
      } else {
        MatchShaped(ob, minMatch, s[0] % 16, s1[..e.val], s1[e.val..]);
      }
    }
  }

  lemma {:induction false} MatchShaped(ob: nat, minMatch: nat, mc: nat, run: seq<byte>, s: seq<byte>)
    requires (ob == 2 || ob == 3) && minMatch > 0 && |run| <= LL_MAX
    requires ParseMatch(ob, minMatch, mc, run, s).Parsed?
    ensures var r := ParseMatch(ob, minMatch, mc, run, s);
            && Shaped(r.seqs) && LitTotal(r.seqs) == |r.lits| && r.seqs != []
            && (forall q :: q in r.seqs && q.matchlen > 0 ==> q.matchlen >= minMatch && q.offset < 0x100_0000)
    decreases |s|
  {
    hide ReadLenLax, Parse;
    var e := ReadLenLax(mc, s[ob..]);
    ParseShaped(ob, minMatch, s[ob + e.used..]);
    var rest := Parse(ob, minMatch, s[ob + e.used..]);
    var q := Seq(|run|, e.val + minMatch, Offset(s, ob));
    ShapedAdd(q, rest.seqs);
  }

  lemma ShapedAdd(q: Seq, seqs: seq<Seq>)
    requires Shaped(seqs) && q.matchlen > 0 && q.litlen <= LL_MAX
    ensures Shaped([q] + seqs) && LitTotal([q] + seqs) == q.litlen + LitTotal(seqs)
  {
    assert ([q] + seqs)[1..] == seqs;
  }

  // ---------------------------------------------------------------- how many sequences there can be

  /** Sequences that stand for n token bytes: at least three bytes a match, and full runs but for the last. */
  ghost predicate Fits(seqs: seq<Seq>, n: nat) {
    var m := MatchCount(seqs);
    m <= |seqs| && 3 * m + (if m < |seqs| then LL_MAX * (|seqs| - m - 1) else 0) <= n
  }

  lemma {:induction false} FinalRunFits(ll: nat)
    ensures MatchCount(FinalRun(ll)) == 0 && LL_MAX * (|FinalRun(ll)| - 1) <= ll && FinalRun(ll) != []
  {
    if ll > LL_MAX {
      FinalRunFits(ll - LL_MAX);
      assert FinalRun(ll)[1..] == FinalRun(ll - LL_MAX);
    } else {
      assert FinalRun(ll)[1..] == [];
    }
  }

  lemma {:induction false} ParseFits(ob: nat, minMatch: nat, s: seq<byte>)
    requires (ob == 2 || ob == 3) && minMatch > 0 && Parse(ob, minMatch, s).Parsed?
    ensures Fits(Parse(ob, minMatch, s).seqs, |s|)
    decreases |s|
  {
    hide ReadLenLax, FinalRun, ParseMatch;
    if s != [] {
      var e := ReadLenLax(s[0] / 16, s[1..]);
      var s1 := s[1 + e.used..];
      if e.val == |s1| {
        FinalRunFits(|s1|);
      } else {
        MatchFits(ob, minMatch, s[0] % 16, s1[..e.val], s1[e.val..]);
      }
    }
  }

  lemma {:induction false} MatchFits(ob: nat, minMatch: nat, mc: nat, run: seq<byte>, s: seq<byte>)
    requires (ob == 2 || ob == 3) && minMatch > 0 && ParseMatch(ob, minMatch, mc, run, s).Parsed?
    ensures Fits(ParseMatch(ob, minMatch, mc, run, s).seqs, |s| + 1)
    decreases |s|
  {
    hide ReadLenLax, Parse;
    var e := ReadLenLax(mc, s[ob..]);
    ParseFits(ob, minMatch, s[ob + e.used..]);
    var rest := Parse(ob, minMatch, s[ob + e.used..]);
    var q := Seq(|run|, e.val + minMatch, Offset(s, ob));
    assert ([q] + rest.seqs)[1..] == rest.seqs;
  }

  /** Literals are token bytes. */
  lemma {:induction false} ParseLits(ob: nat, minMatch: nat, s: seq<byte>)
    requires (ob == 2 || ob == 3) && Parse(ob, minMatch, s).Parsed?
    ensures |Parse(ob, minMatch, s).lits| <= |s|
    decreases |s|
  {
    if s != [] {
      hide ReadLenLax, FinalRun;
      var e := ReadLenLax(s[0] / 16, s[1..]);
      var s1 := s[1 + e.used..];
      if e.val < |s1| {
        var rest := s1[e.val..];
        var m := ReadLenLax(s[0] % 16, rest[ob..]);
        ParseLits(ob, minMatch, rest[ob + m.used..]);
      }
    }
  }

  /** Of a token stream of up to 2^30 bytes come fewer than 2^28.45 sequences. */
  lemma SeqsBound(seqs: seq<Seq>, n: nat)
    requires Fits(seqs, n) && n <= 0x4000_0000
    ensures |seqs| <= n / 3 + n / LL_MAX + 1 && 89 * |seqs| <= 8 * 0xFFFF_FFFF
  {
  }

  /** What runs to the end has room for its literals and matches. */
  lemma {:induction false} RunRoom(p: Params, seqs: seq<Seq>, lits: seq<byte>, h: seq<byte>)
    requires ParamsOk(p) && |h| <= p.end && Run(p, seqs, lits, h).Done?
    ensures |h| + LitTotal(seqs) + MatchCount(seqs) <= |Run(p, seqs, lits, h).h| <= p.end
    decreases |seqs|
  {
    if seqs != [] {
      hide CopyMatch;
      var q := seqs[0];
      var h1 := h + lits[..q.litlen];
      if q.matchlen == 0 {
        RunRoom(p, seqs[1..], lits[q.litlen..], h1);
      } else {
        RunRoom(p, seqs[1..], lits[q.litlen..], CopyMatch(h1, q.offset, q.matchlen));
      }
    }
  }
}
