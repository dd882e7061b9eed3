/** parse_sequences as it runs, with its sequence buffer. */
module SeqParser {
  import opened LittleEndian
  import opened Lz
  import opened LzDecode
  import opened SeqParse

  /** What has been parsed already, in front of the rest. */
  function After(seqs: seq<Seq>, lits: seq<byte>, r: Parsed): (t: Parsed) {
    match r
    case Rejected => Rejected
    case Parsed(more, rest) => Parsed(seqs + more, lits + rest)
  }

  /** A nibble and its extension bytes from position tp on. */
  method ReadLength(tokens: seq<byte>, tp: nat, nibble: nat) returns (ok: bool, val: nat, tp1: nat)
    requires tp <= |tokens|
    ensures match ReadLenLax(nibble, tokens[tp..])
      case CutOff => !ok
      case Ext(v, used) => ok && val == v && tp1 == tp + used <= |tokens|
  {
    ok, val, tp1 := true, nibble, tp;
    if nibble == 15 {
      ok, val, tp1 := ReadExtension(tokens, tp);
      val := 15 + val;
    }
  }

  /** The do-while loop over extension bytes; a run of 255 may end the stream. */
  method ReadExtension(tokens: seq<byte>, tp: nat) returns (ok: bool, ext: nat, tp1: nat)
    requires tp <= |tokens|
    ensures match ReadExtLax(tokens[tp..])
      case CutOff => !ok
      case Ext(v, used) => ok && ext == v && tp1 == tp + used <= |tokens|
  {
    ok, ext, tp1 := false, 0, tp;
    if tp >= |tokens| {
      return;
    }
    var b := tokens[tp];
    ok, ext, tp1 := true, b, tp + 1;
    while b == 255 && tp1 < |tokens|
      invariant tp < tp1 <= |tokens| && b == tokens[tp1 - 1]
      invariant ReadExtLax(tokens[tp..]) ==
                var e := ReadExtLax(tokens[tp1 - 1..]); Ext(ext - b + e.val, tp1 - 1 - tp + e.used)
    {
      assert tokens[tp1 - 1..][1..] == tokens[tp1..];
      b := tokens[tp1];
      ext, tp1 := ext + b, tp1 + 1;
    }
  }

  /** The parse at position tp, read off the literal run. */
  lemma ParseStep(ob: nat, minMatch: nat, tokens: seq<byte>, tp: nat)
    requires (ob == 2 || ob == 3) && tp < |tokens|
    ensures match ReadLenLax(tokens[tp] / 16, tokens[tp + 1..])
      case CutOff => Parse(ob, minMatch, tokens[tp..]) == Rejected
      case Ext(ll, used) =>
        var at := tp + 1 + used;
        at <= |tokens| &&
        Parse(ob, minMatch, tokens[tp..]) ==
        if ll > |tokens| - at then Rejected
        else if ll == |tokens| - at then Parsed(FinalRun(ll), tokens[at..at + ll])
        else if ll > LL_MAX then Rejected
        else ParseMatch(ob, minMatch, tokens[tp] % 16, tokens[at..at + ll], tokens[at + ll..])
  {
    hide ReadLenLax, ParseMatch, FinalRun;
    DropDrop(tokens, tp, 1);
    var e := ReadLenLax(tokens[tp] / 16, tokens[tp + 1..]);
    if e.Ext? {
      var at := tp + 1 + e.used;
      DropDrop(tokens, tp, 1 + e.used);
      if e.val <= |tokens| - at {
        DropDrop(tokens, at, e.val);
      }
    }
  }

  /** The match part at position at. */
  lemma MatchStep(ob: nat, minMatch: nat, mc: nat, run: seq<byte>, tokens: seq<byte>, at: nat)
    requires (ob == 2 || ob == 3) && at <= |tokens|
    ensures ParseMatch(ob, minMatch, mc, run, tokens[at..]) ==
      if |tokens| - at < ob then Rejected
      else
        match ReadLenLax(mc, tokens[at + ob..])
        case CutOff => Rejected
        case Ext(len, used) =>
          Add(run, Seq(|run|, len + minMatch, Offset(tokens[at..at + ob], ob)),
              Parse(ob, minMatch, tokens[at + ob + used..]))
  {
    hide ReadLenLax, Parse, Add;
    if |tokens| - at >= ob {
      DropDrop(tokens, at, ob);
      OffsetLocal(tokens[at..], ob);
      var e := ReadLenLax(mc, tokens[at + ob..]);
      if e.Ext? {
        DropDrop(tokens, at, ob + e.used);
      }
    }
  }

  /** Room for the sequences of n token bytes. */
  function SeqCap(n: nat): (cap: nat) { n / 3 + n / 65535 + 8 }

  lemma Assoc(seqs: seq<Seq>, lits: seq<byte>, run: seq<byte>, q: Seq, r: Parsed)
    ensures After(seqs, lits, Add(run, q, r)) == After(seqs + [q], lits + run, r)
  {
    if r.Parsed? {
      assert seqs + ([q] + r.seqs) == seqs + [q] + r.seqs;
      assert lits + (run + r.lits) == lits + run + r.lits;
    }
  }

  /** The split of a long final run: as many full entries as needed, with room left for the last one. */
  method SplitFinal(seqs: seq<Seq>, ll: nat, cap: nat) returns (all: seq<Seq>)
    requires |seqs| + ll / LL_MAX + 1 <= cap
    ensures all == seqs + FinalRun(ll) && |all| <= |seqs| + ll / LL_MAX + 1
  {
    all := seqs;
    var n: nat := ll;
    while n > LL_MAX
      invariant n <= ll && all + FinalRun(n) == seqs + FinalRun(ll)
      invariant |all| + n / LL_MAX <= |seqs| + ll / LL_MAX
    {
      assert |all| < cap;
      assert all + FinalRun(n) == all + [Seq(LL_MAX, 0, 0)] + FinalRun(n - LL_MAX);
      all := all + [Seq(LL_MAX, 0, 0)];
      n := n - LL_MAX;
    }
    assert |all| < cap;
    all := all + [Seq(n, 0, 0)];
  }

  /** parse_sequences: its result is Parse, and the capacity the caller allots is never reached. */
  method ParseSequences(tokens: seq<byte>, ob: nat, minMatch: nat, cap: nat)
    returns (ok: bool, seqs: seq<Seq>, lits: seq<byte>)
    requires (ob == 2 || ob == 3) && cap == SeqCap(|tokens|)
    ensures match Parse(ob, minMatch, tokens)
      case Rejected => !ok
      case Parsed(all, run) => ok && seqs == all && lits == run && |seqs| <= |tokens| / 3 + |tokens| / 65535 + 1
  {
    hide Parse, ParseMatch, ReadLenLax, FinalRun, Offset;
    seqs, lits := [], [];
    var tp: nat := 0;
    assert tokens[0..] == tokens;
    AfterNothing(Parse(ob, minMatch, tokens));
    while tp < |tokens|
      invariant tp <= |tokens| && 3 * |seqs| <= tp
      invariant After(seqs, lits, Parse(ob, minMatch, tokens[tp..])) == Parse(ob, minMatch, tokens)
    {
      assert |seqs| < cap;
      ParseStep(ob, minMatch, tokens, tp);
      var okl, ll, at := ReadLength(tokens, tp + 1, tokens[tp] / 16);
      if !okl || ll > |tokens| - at || (ll > LL_MAX && at + ll < |tokens|) {
        return false, seqs, lits;
      }
      var mc, run := tokens[tp] % 16, tokens[at..at + ll];
      tp := at + ll;
      if tp >= |tokens| {
        seqs := SplitFinal(seqs, ll, cap);
        return true, seqs, lits + run;
      }
      MatchStep(ob, minMatch, mc, run, tokens, tp);
      if tp + ob > |tokens| {
        return false, seqs, lits;
      }
      var off := Offset(tokens[tp..tp + ob], ob);
      var okm, len, at2 := ReadLength(tokens, tp + ob, mc);
      if !okm {
        return false, seqs, lits;
      }
      Assoc(seqs, lits, run, Seq(ll, len + minMatch, off), Parse(ob, minMatch, tokens[at2..]));
      seqs, lits, tp := seqs + [Seq(ll, len + minMatch, off)], lits + run, at2;
    }
    assert tokens[tp..] == [];
    ParseNothing(ob, minMatch);
    return true, seqs, lits;
  }

  lemma AfterNothing(r: Parsed)
    ensures After([], [], r) == r
  {
  }

  lemma ParseNothing(ob: nat, minMatch: nat)
    requires ob == 2 || ob == 3
    ensures Parse(ob, minMatch, []) == Parsed([], [])
  {
  }
}
