/** The race of the literal coders for the literal section of a sequence block. */
module SeqRace {
  import opened LittleEndian
  import opened Wrappers
  import opened SeqLiterals
  import A1 = AnsCodec
  import A4 = AnsCodec4
  import H1 = HuffCodec
  import H4 = HuffCodec4
  import T = AnsTable
  import N = AnsNormalize
  import L = HuffLengths
  import S = AnsStream
  import HT = HuffTables
  import HC = HuffCodes
  import HS = HuffStream

  /** The table that the bytes of xs get from their counts. */
  ghost predicate TableFor(xs: seq<byte>, norm: seq<nat>) {
    T.IsTable(norm) && S.Covered(norm, xs) && T.Cum(A1.Counts(xs), T.NSYM) == |xs| > 0
    && N.LargestRemainder(A1.Counts(xs), norm)
  }

  /** The code that they get. */
  ghost predicate CodeFor(xs: seq<byte>, code: seq<nat>) {
    HT.Nibbles(code) && HC.Sound(code) && HS.Coded(code, xs) && H1.HuffmanFor(xs, code)
  }

  /** The frames that are shorter than the literals. */
  datatype Entrants = Entrants(ans4: Option<seq<byte>>, ans1: Option<seq<byte>>, huf1: Option<seq<byte>>,
                               huf4: Option<seq<byte>>)

  function Shorter(d: seq<byte>, n: nat): (o: Option<seq<byte>>) { if |d| < n then Some(d) else None }

  ghost predicate EntersAns4(xs: seq<byte>, o: Option<seq<byte>>) {
    exists norm: seq<nat> :: TableFor(xs, norm) && o == Shorter(A4.Frame4(norm, xs), |xs|)
  }

  ghost predicate EntersAns1(xs: seq<byte>, o: Option<seq<byte>>) {
    exists norm: seq<nat> :: TableFor(xs, norm) && o == Shorter(A1.Frame(norm, xs), |xs|)
  }

  ghost predicate EntersHuf1(xs: seq<byte>, o: Option<seq<byte>>) {
    exists code: seq<nat> :: CodeFor(xs, code) && o == Shorter(H1.Frame(code, xs), |xs|)
  }

  /** Four Huffman lanes are for 1024 literals and more, and not for old decoders. */
  ghost predicate EntersHuf4(xs: seq<byte>, compat: bool, o: Option<seq<byte>>) {
    if compat || |xs| < 1024 then o.None?
    else exists code: seq<nat> :: CodeFor(xs, code) && o == Shorter(H4.Frame4(code, xs), |xs|)
  }

  ghost predicate Entered(xs: seq<byte>, compat: bool, e: Entrants) {
    EntersAns4(xs, e.ans4) && EntersAns1(xs, e.ans1) && EntersHuf1(xs, e.huf1) && EntersHuf4(xs, compat, e.huf4)
  }

  // ---------------------------------------------------------------- fewer than 4096 literals

  /** Four Huffman lanes go before one unless they take more than 32 bytes more. */
  predicate FourLanes(e: Entrants) {
    e.huf4.Some? && (e.huf1.None? || |e.huf4.value| <= |e.huf1.value| + 32)
  }

  function HufOf(e: Entrants): (o: Option<seq<byte>>) { if FourLanes(e) then e.huf4 else e.huf1 }

  predicate NoLonger(d: seq<byte>, o: Option<seq<byte>>) { o.Some? ==> |d| <= |o.value| }

  predicate Shortens(d: seq<byte>, o: Option<seq<byte>>) { o.Some? ==> |d| < |o.value| }

  /** The winner is the shortest; of equals, tANS in four lanes, then in one, then Huffman. */
  predicate Wins(e: Entrants, xs: seq<byte>, fmt: byte, data: seq<byte>) {
    if fmt == 0 then data == xs && e.ans4.None? && e.ans1.None? && HufOf(e).None?
    else if fmt == 1 then e.ans4 == Some(data) && NoLonger(data, e.ans1) && NoLonger(data, HufOf(e))
    else if fmt == 2 then e.ans1 == Some(data) && Shortens(data, e.ans4) && NoLonger(data, HufOf(e))
    else
      fmt == (if FourLanes(e) then 4 else 3) && HufOf(e) == Some(data)
      && Shortens(data, e.ans4) && Shortens(data, e.ans1)
  }

  // ---------------------------------------------------------------- 4096 literals and more

  /** What a frame of four tANS lanes and one of a Huffman stream are expected to take. */
  datatype Guess = Guess(ans: nat, huf: nat)

  /** The Huffman frame is made, in four lanes with twelve bytes more or, for old decoders, in one, if it is expected to
      be shorter than the literals and not by an eighth or more longer than the tANS frame a. */
  predicate Tried(g: Guess, compat: bool, n: nat, a: Option<seq<byte>>) {
    var guess := if compat then g.huf else g.huf + 12;
    guess < n && (a.Some? ==> guess < |a.value| + |a.value| / 8)
  }

  /** The tANS frame a, made if it is expected to be shorter than the literals, and the Huffman frame h. */
  ghost predicate Finalists(g: Guess, compat: bool, xs: seq<byte>, a: Option<seq<byte>>, h: Option<seq<byte>>) {
    (if g.ans < |xs| then EntersAns4(xs, a) else a.None?)
    && if !Tried(g, compat, |xs|, a) then h.None?
       else if compat then EntersHuf1(xs, h)
       else EntersHuf4(xs, false, h)
  }

  predicate WinsGuessed(compat: bool, xs: seq<byte>, a: Option<seq<byte>>, h: Option<seq<byte>>, fmt: byte,
                        data: seq<byte>) {
    if h.Some? && Shortens(h.value, a) then fmt == (if compat then 3 else 4) && data == h.value
    else if a.Some? then fmt == 1 && data == a.value
    else fmt == 0 && data == xs
  }

  ghost predicate Raced(compat: bool, g: Guess, xs: seq<byte>, fmt: byte, data: seq<byte>) {
    if xs == [] then fmt == 0 && data == []
    else if |xs| < 4096 then exists e: Entrants :: Entered(xs, compat, e) && Wins(e, xs, fmt, data)
    else
      exists a: Option<seq<byte>>, h: Option<seq<byte>> ::
        Finalists(g, compat, xs, a, h) && WinsGuessed(compat, xs, a, h, fmt, data)
  }

  // ---------------------------------------------------------------- the coders

  method EnterAns4(xs: seq<byte>) returns (o: Option<seq<byte>>)
    requires 0 < |xs| < L.DEEP_TOTAL
    ensures EntersAns4(xs, o) && (o.Some? ==> Holds(ANS4, o.value, xs))
  {
    hide Holds, S.Covered, T.IsTable, A4.Frame4, N.LargestRemainder, A1.Counts;
    var out := new byte[|xs| + 1024];
    var st, len, norm := A4.VvaEncode4(xs, out);
    o := if st == A1.Ok then Some(out[..len]) else None;
    assert TableFor(xs, norm) && o == Shorter(A4.Frame4(norm, xs), |xs|);
    HoldsAns4(norm, xs);
  }

  method EnterAns1(xs: seq<byte>) returns (o: Option<seq<byte>>)
    requires 0 < |xs| < L.DEEP_TOTAL
    ensures EntersAns1(xs, o) && (o.Some? ==> Holds(ANS1, o.value, xs))
  {
    hide Holds, S.Covered, T.IsTable, A1.Frame, N.LargestRemainder, A1.Counts;
    var out := new byte[|xs| + 1024];
    var st, len, norm := A1.VvaEncode(xs, out);
    o := if st == A1.Ok then Some(out[..len]) else None;
    assert TableFor(xs, norm) && o == Shorter(A1.Frame(norm, xs), |xs|);
    HoldsAns1(norm, xs);
  }

  method EnterHuf1(xs: seq<byte>) returns (o: Option<seq<byte>>)
    requires 0 < |xs| < L.DEEP_TOTAL
    ensures EntersHuf1(xs, o) && (o.Some? ==> Holds(HUF1, o.value, xs))
  {
    hide Holds, HC.Sound, HS.Coded, H1.Frame, H1.HuffmanFor;
    var out := new byte[|xs| + 1024];
    var st, len, code := H1.VvhEncode(xs, out);
    o := if st == H1.Ok then Some(out[..len]) else None;
    assert CodeFor(xs, code) && o == Shorter(H1.Frame(code, xs), |xs|);
    HoldsHuf1(code, xs);
  }

  method EnterHuf4(xs: seq<byte>, compat: bool) returns (o: Option<seq<byte>>)
    requires 0 < |xs| < L.DEEP_TOTAL
    ensures EntersHuf4(xs, compat, o) && (o.Some? ==> Holds(HUF4, o.value, xs))
  {
    hide Holds, HC.Sound, HS.Coded, H4.Frame4, H1.HuffmanFor;
    if compat || |xs| < 1024 {
      return None;
    }
    var out := new byte[|xs| + 1024];
    var st, len, code := H4.VvhEncode4(xs, out);
    o := if st == H1.Ok then Some(out[..len]) else None;
    assert CodeFor(xs, code) && o == Shorter(H4.Frame4(code, xs), |xs|);
    HoldsHuf4(code, xs);
  }

  // ---------------------------------------------------------------- the race

  /** All four are made, and the shortest is kept. */
  method RaceAll(xs: seq<byte>, compat: bool) returns (fmt: byte, data: seq<byte>, ghost e: Entrants)
    requires 0 < |xs| < L.DEEP_TOTAL
    ensures Entered(xs, compat, e) && Wins(e, xs, fmt, data) && Holds(fmt, data, xs)
  {
    hide Holds, EntersAns4, EntersAns1, EntersHuf1, EntersHuf4;
    HoldsRaw(xs);
    var ans4 := EnterAns4(xs);
    var ans1 := EnterAns1(xs);
    var huf1 := EnterHuf1(xs);
    var huf4 := EnterHuf4(xs, compat);
    e := Entrants(ans4, ans1, huf1, huf4);
    fmt, data := RAW, xs;
    if ans4.Some? {
      fmt, data := ANS4, ans4.value;
    }
    if ans1.Some? && (fmt == RAW || |ans1.value| < |data|) {
      fmt, data := ANS1, ans1.value;
    }
    var huf, hfmt := huf1, HUF1;
    if huf4.Some? && (huf1.None? || |huf4.value| <= |huf1.value| + 32) {
      huf, hfmt := huf4, HUF4;
    }
    if huf.Some? && (fmt == RAW || |huf.value| < |data|) {
      fmt, data := hfmt, huf.value;
    }
  }

  /** At most two are made, if their estimates promise something. */
  method RaceGuessed(xs: seq<byte>, compat: bool, g: Guess) returns (fmt: byte, data: seq<byte>)
    requires 4096 <= |xs| < L.DEEP_TOTAL
    ensures Raced(compat, g, xs, fmt, data) && Holds(fmt, data, xs)
  {
    hide Holds, EntersAns4, EntersHuf1, EntersHuf4;
    HoldsRaw(xs);
    fmt, data := RAW, xs;
    var ans4: Option<seq<byte>>, huf: Option<seq<byte>> := None, None;
    if g.ans < |xs| {
      ans4 := EnterAns4(xs);
      if ans4.Some? {
        fmt, data := ANS4, ans4.value;
      }
    }
    var guess := if compat then g.huf else g.huf + 12;
    if guess < |xs| && (fmt == RAW || guess < |data| + |data| / 8) {
      if compat {
        huf := EnterHuf1(xs);
      } else {
        huf := EnterHuf4(xs, false);
      }
      if huf.Some? && (fmt == RAW || |huf.value| < |data|) {
        fmt, data := if compat then HUF1 else HUF4, huf.value;
      }
    }
    assert Finalists(g, compat, xs, ans4, huf) && WinsGuessed(compat, xs, ans4, huf, fmt, data);
  }

  /** The literal section: the winner of the race. */
  method EncodeLiterals(xs: seq<byte>, compat: bool, g: Guess) returns (fmt: byte, data: seq<byte>)
    requires |xs| < L.DEEP_TOTAL
    ensures Holds(fmt, data, xs) && |data| <= |xs| && Raced(compat, g, xs, fmt, data)
  {
    hide Holds, Entered, Wins, Finalists, WinsGuessed;
    if |xs| == 0 {
      HoldsRaw(xs);
      return RAW, xs;
    }
    if |xs| < 4096 {
      ghost var e;
      fmt, data, e := RaceAll(xs, compat);
    } else {
      fmt, data := RaceGuessed(xs, compat, g);
    }
    RacedShort(compat, g, xs, fmt, data);
  }

  lemma EnteredShort(xs: seq<byte>, compat: bool, o: Option<seq<byte>>)
    requires EntersAns4(xs, o) || EntersAns1(xs, o) || EntersHuf1(xs, o) || EntersHuf4(xs, compat, o)
    ensures o.Some? ==> |o.value| < |xs|
  {
    hide A4.Frame4, A1.Frame, H1.Frame, H4.Frame4, TableFor, CodeFor;
  }

  /** The section is never longer than the literals. */
  lemma RacedShort(compat: bool, g: Guess, xs: seq<byte>, fmt: byte, data: seq<byte>)
    requires Raced(compat, g, xs, fmt, data)
    ensures |data| <= |xs|
  {
    hide EntersAns4, EntersAns1, EntersHuf1, EntersHuf4;
    if 0 < |xs| < 4096 {
      var e: Entrants :| Entered(xs, compat, e) && Wins(e, xs, fmt, data);
      EnteredShort(xs, compat, e.ans4);
      EnteredShort(xs, compat, e.ans1);
      EnteredShort(xs, compat, e.huf1);
      EnteredShort(xs, compat, e.huf4);
    } else if xs != [] {
      var a: Option<seq<byte>>, h: Option<seq<byte>> :|
        Finalists(g, compat, xs, a, h) && WinsGuessed(compat, xs, a, h, fmt, data);
      if a.Some? {
        EnteredShort(xs, compat, a);
      }
      if h.Some? {
        EnteredShort(xs, compat, h);
      }
    }
  }

  /** With fewer than 4096 literals no frame is shorter than the section, but that of one Huffman stream may be, by up
      to 32 bytes, where four lanes are made. */
  lemma RacedNear(e: Entrants, xs: seq<byte>, fmt: byte, data: seq<byte>)
    requires Wins(e, xs, fmt, data)
    ensures NoLonger(data, e.ans4) && NoLonger(data, e.ans1) && NoLonger(data, e.huf4)
    ensures e.huf1.Some? ==> fmt != 0 && |data| <= |e.huf1.value| + 32
    ensures e.huf4.None? ==> NoLonger(data, e.huf1)
  {
  }
}
