/** Splitting a token stream into literals and stripped tokens, and decoding the two together. */
module LzStripped {
  import opened LittleEndian
  import opened Lz
  import opened LzDecode
  import opened LzCopy

  datatype Parts = Parts(lits: seq<byte>, tokens: seq<byte>) | Malformed

  /** extract_literals: the literal bytes, and the stream without them. */
  function Split(ob: nat, s: seq<byte>): (r: Parts)
    requires ob == 2 || ob == 3
    decreases |s|
  {
    if s == [] then Parts([], [])
    else
      match ReadLenLax(s[0] / 16, s[1..])
      case CutOff => Malformed
      case Ext(ll, used) =>
        var head, s1 := s[..1 + used], s[1 + used..];
        if ll > |s1| then Malformed
        else if ll == |s1| then Parts(s1, head)
        else Prepend(s1[..ll], head, SplitMatch(ob, s[0] % 16, s1[ll..]))
  }

  /** The offset and length extension of a match, and the tokens after it. */
  function SplitMatch(ob: nat, mc: nat, s: seq<byte>): (r: Parts)
    requires ob == 2 || ob == 3
    decreases |s|
  {
    if |s| < ob then Malformed
    else
      match ReadLenLax(mc, s[ob..])
      case CutOff => Malformed
      case Ext(_, used) => Prepend([], s[..ob + used], Split(ob, s[ob + used..]))
  }

  function Prepend(lits: seq<byte>, tokens: seq<byte>, r: Parts): (q: Parts) {
    match r
    case Malformed => Malformed
    case Parts(l, t) => Parts(lits + l, tokens + t)
  }

  /** decode_stripped_tokens_impl: the meaning of stripped tokens s with the literals in lits. */
  function DecodeStripped(p: Params, s: seq<byte>, lits: seq<byte>, h: seq<byte>): (r: Result)
    requires ParamsOk(p)
    decreases |s|
  {
    if s == [] then Done(h)
    else
      match ReadLen(s[0] / 16, s[1..])
      case CutOff => Fail(Corrupt)
      case Ext(ll, used) =>
        var s1 := s[1 + used..];
        if ll > |lits| then Fail(Corrupt)
        else if |h| + ll > p.end then Fail(Overflow)
        else if s1 == [] then Done(h + lits[..ll])
        else StrippedMatch(p, s[0] % 16, s1, lits[ll..], h + lits[..ll])
  }

  function StrippedMatch(p: Params, mc: nat, s: seq<byte>, lits: seq<byte>, h: seq<byte>): (r: Result)
    requires ParamsOk(p)
    decreases |s|
  {
    if |s| < p.ob then Fail(Corrupt)
    else
      var off := Offset(s, p.ob);
      match ReadLen(mc, s[p.ob..])
      case CutOff => Fail(Corrupt)
      case Ext(len, used) =>
        if off == 0 || off > p.maxOffset || off > |h| then Fail(Corrupt)
        else if |h| + len + p.minMatch > p.end then Fail(Overflow)
        else DecodeStripped(p, s[p.ob + used..], lits, CopyMatch(h, off, len + p.minMatch))
  }

  /** A token head in front of stripped tokens t, with its literals in front of lits. */
  lemma HeadDecodes(p: Params, head: seq<byte>, t: seq<byte>, run: seq<byte>, lits: seq<byte>, h: seq<byte>)
    requires ParamsOk(p) && head != [] && ReadLen(head[0] / 16, head[1..] + t) == Ext(|run|, |head| - 1)
    requires |h| + |run| <= p.end
    ensures DecodeStripped(p, head + t, run + lits, h)
            == if t == [] then Done(h + run) else StrippedMatch(p, head[0] % 16, t, lits, h + run)
  {
    hide ReadLen, StrippedMatch;
    var s := head + t;
    assert s[1..] == head[1..] + t;
    assert s[1 + (|head| - 1)..] == t;
    assert (run + lits)[..|run|] == run && (run + lits)[|run|..] == lits;
  }

  /** A match tail in front of stripped tokens t. */
  lemma TailDecodes(p: Params, mc: nat, tail: seq<byte>, t: seq<byte>, lits: seq<byte>, h: seq<byte>, len: nat)
    requires ParamsOk(p) && |tail| >= p.ob && ReadLen(mc, tail[p.ob..] + t) == Ext(len, |tail| - p.ob)
    requires 0 < Offset(tail, p.ob) <= p.maxOffset && Offset(tail, p.ob) <= |h| && |h| + len + p.minMatch <= p.end
    ensures StrippedMatch(p, mc, tail + t, lits, h)
            == DecodeStripped(p, t, lits, CopyMatch(h, Offset(tail, p.ob), len + p.minMatch))
  {
    hide ReadLen, DecodeStripped, CopyMatch;
    var s := tail + t;
    assert s[p.ob..] == tail[p.ob..] + t;
    assert s[p.ob + (|tail| - p.ob)..] == t;
    OffsetLocal(s, p.ob);
    OffsetLocal(tail, p.ob);
    assert s[..p.ob] == tail[..p.ob];
  }

  /** What Split does with a stream whose first head reads properly. */
  lemma SplitHead(ob: nat, s: seq<byte>)
    requires (ob == 2 || ob == 3) && s != [] && ReadLen(s[0] / 16, s[1..]).Ext?
    requires ReadLen(s[0] / 16, s[1..]).val <= |s| - 1 - ReadLen(s[0] / 16, s[1..]).used
    ensures var e := ReadLen(s[0] / 16, s[1..]);
            var s1 := s[1 + e.used..];
            Split(ob, s) == if e.val == |s1| then Parts(s1, s[..1 + e.used])
                            else Prepend(s1[..e.val], s[..1 + e.used], SplitMatch(ob, s[0] % 16, s1[e.val..]))
  {
    hide SplitMatch;
    ReadLenLocal(s[0] / 16, s[1..], []);
  }

  lemma SplitTail(ob: nat, mc: nat, s: seq<byte>)
    requires (ob == 2 || ob == 3) && |s| >= ob && ReadLen(mc, s[ob..]).Ext?
    ensures var e := ReadLen(mc, s[ob..]);
            SplitMatch(ob, mc, s) == Prepend([], s[..ob + e.used], Split(ob, s[ob + e.used..]))
  {
    hide Split;
    ReadLenLocal(mc, s[ob..], []);
  }

  /** Every stream that decodes splits, and the two parts decode to the same output. */
  lemma {:induction false} SplitDecodes(p: Params, s: seq<byte>, h: seq<byte>)
    requires ParamsOk(p) && Decode(p, s, h).Done?
    ensures var r := Split(p.ob, s);
            && r.Parts?
            && DecodeStripped(p, r.tokens, r.lits, h) == Decode(p, s, h)
            && (s != [] ==> r.tokens != [])
    decreases |s|
  {
    if s != [] {
      hide ReadLen, ReadLenLax, DecodeMatch, SplitMatch, DecodeStripped, StrippedMatch, Split;
      var e := ReadLen(s[0] / 16, s[1..]);
      var head, s1 := s[..1 + e.used], s[1 + e.used..];
      SplitHead(p.ob, s);
      assert head[1..] == s[1..][..e.used];
      if e.val == |s1| {
        ReadLenLocal(s[0] / 16, s[1..], []);
        HeadDecodes(p, head, [], s1, [], h);
        assert head + [] == head && s1 + [] == s1 && s1[..e.val] == s1;
      } else {
        MatchSplits(p, s[0] % 16, s1[e.val..], h + s1[..e.val]);
        var q := SplitMatch(p.ob, s[0] % 16, s1[e.val..]);
        ReadLenLocal(s[0] / 16, s[1..], q.tokens);
        HeadDecodes(p, head, q.tokens, s1[..e.val], q.lits, h);
      }
    }
  }

  lemma {:induction false} MatchSplits(p: Params, mc: nat, s: seq<byte>, h: seq<byte>)
    requires ParamsOk(p) && DecodeMatch(p, mc, s, h).Done?
    ensures var r := SplitMatch(p.ob, mc, s);
            && r.Parts? && r.tokens != []
            && StrippedMatch(p, mc, r.tokens, r.lits, h) == DecodeMatch(p, mc, s, h)
    decreases |s|
  {
    hide ReadLen, ReadLenLax, Decode, SplitMatch, DecodeStripped, StrippedMatch, Split, CopyMatch;
    var e := ReadLen(mc, s[p.ob..]);
    var tail, rest := s[..p.ob + e.used], s[p.ob + e.used..];
    SplitDecodes(p, rest, CopyMatch(h, Offset(s, p.ob), e.val + p.minMatch));
    SplitTail(p.ob, mc, s);
    var q := Split(p.ob, rest);
    ReadLenLocal(mc, s[p.ob..], q.tokens);
    assert tail[p.ob..] == s[p.ob..][..e.used];
    OffsetLocal(s, p.ob);
    OffsetLocal(tail, p.ob);
    assert tail[..p.ob] == s[..p.ob];
    TailDecodes(p, mc, tail, q.tokens, q.lits, h, e.val);
    assert [] + q.lits == q.lits;
  }

  // ---------------------------------------------------------------- the loops

  /** The encoder's reader of a length and its extension bytes. */
  method LaxLength(src: seq<byte>, tp: nat, nibble: nat) returns (ok: bool, val: nat, next: nat)
    requires tp <= |src|
    ensures ok == ReadLenLax(nibble, src[tp..]).Ext?
    ensures ok ==> val == ReadLenLax(nibble, src[tp..]).val && next == tp + ReadLenLax(nibble, src[tp..]).used
  {
    val, next := nibble, tp;
    if nibble != 15 {
      return true, val, next;
    }
    if tp >= |src| {
      return false, val, next;
    }
    while true
      invariant tp <= next < |src| && val >= 15
      invariant ReadLenLax(15, src[tp..]) == match ReadExtLax(src[next..])
                                             case CutOff => CutOff
                                             case Ext(v, u) => Ext(val + v, next - tp + u)
      decreases |src| - next
    {
      var b := src[next];
      DropDrop(src, next, 1);
      next := next + 1;
      val := val + b;
      if b < 255 || next >= |src| {
        return true, val, next;
      }
    }
  }

  lemma SplitStep(ob: nat, s: seq<byte>, tp: nat)
    requires (ob == 2 || ob == 3) && tp < |s|
    ensures var e := ReadLenLax(s[tp] / 16, s[tp + 1..]);
            Split(ob, s[tp..]) ==
            if e.CutOff? then Malformed
            else
              var at := tp + 1 + e.used;
              if e.val > |s| - at then Malformed
              else if e.val == |s| - at then Parts(s[at..], s[tp..at])
              else Prepend(s[at..at + e.val], s[tp..at], SplitMatch(ob, s[tp] % 16, s[at + e.val..]))
  {
    hide ReadLenLax, SplitMatch, Prepend;
    var e := ReadLenLax(s[tp] / 16, s[tp + 1..]);
    DropDrop(s, tp, 1);
    if e.Ext? {
      DropDrop(s, tp, 1 + e.used);
      if e.val <= |s| - (tp + 1 + e.used) {
        DropDrop(s, tp + 1 + e.used, e.val);
      }
    }
  }

  lemma SplitMatchStep(ob: nat, mc: nat, s: seq<byte>, tp: nat)
    requires (ob == 2 || ob == 3) && tp <= |s|
    ensures SplitMatch(ob, mc, s[tp..]) ==
            if |s| - tp < ob then Malformed
            else
              var e := ReadLenLax(mc, s[tp + ob..]);
              if e.CutOff? then Malformed
              else Prepend([], s[tp..tp + ob + e.used], Split(ob, s[tp + ob + e.used..]))
  {
    hide ReadLenLax, Split;
    if |s| - tp >= ob {
      DropDrop(s, tp, ob);
      var e := ReadLenLax(mc, s[tp + ob..]);
      if e.Ext? {
        DropDrop(s, tp, ob + e.used);
      }
    }
  }

  lemma PrependTwice(l1: seq<byte>, t1: seq<byte>, l2: seq<byte>, t2: seq<byte>, r: Parts)
    ensures Prepend(l1, t1, Prepend(l2, t2, r)) == Prepend(l1 + l2, t1 + t2, r)
  {
    if r.Parts? {
      assert l1 + (l2 + r.lits) == l1 + l2 + r.lits;
      assert t1 + (t2 + r.tokens) == t1 + t2 + r.tokens;
    }
  }

  /** The offset and the length extension of a token of extract_literals. */
  method SplitTokenMatch(ob: nat, src: seq<byte>, mc: nat, tp: nat, st: array<byte>, sp: nat, ghost l0: seq<byte>)
    returns (ok: bool, tp': nat, sp': nat)
    requires (ob == 2 || ob == 3) && tp < |src| && sp <= tp && |src| <= st.Length
    modifies st
    ensures ok ==> tp < tp' <= |src| && sp <= sp' <= tp'
    ensures ok ==> Prepend(l0, st[..sp'], Split(ob, src[tp'..]))
                   == old(Prepend(l0, st[..sp], SplitMatch(ob, mc, src[tp..])))
    ensures !ok ==> SplitMatch(ob, mc, src[tp..]) == Malformed
  {
    hide Split, SplitMatch, Prepend, ReadLenLax;
    ok, tp', sp' := false, tp, sp;
    ghost var t0 := st[..sp];
    SplitMatchStep(ob, mc, src, tp);
    if ob > |src| - tp {
      return;
    }
    var len, next;
    ok, len, next := LaxLength(src, tp + ob, mc);
    if ok {
      PrependTwice(l0, t0, [], src[tp..next], Split(ob, src[next..]));
      assert l0 + [] == l0;
      CopyLiterals(src, tp, st, sp, next - tp);
      tp', sp' := next, sp + (next - tp);
    }
  }

  /** One token of extract_literals. */
  method SplitToken(ob: nat, src: seq<byte>, tp: nat, lit: array<byte>, nl: nat, st: array<byte>, sp: nat)
    returns (ok: bool, tp': nat, nl': nat, sp': nat)
    requires (ob == 2 || ob == 3) && tp < |src| && lit != st
    requires nl <= lit.Length && sp <= tp && |src| <= st.Length && |src| <= lit.Length && nl <= tp
    modifies lit, st
    ensures tp < tp' <= |src| || !ok
    ensures ok ==> nl <= nl' <= tp' && sp <= sp' <= tp'
    ensures ok ==> Prepend(lit[..nl'], st[..sp'], Split(ob, src[tp'..]))
                   == old(Prepend(lit[..nl], st[..sp], Split(ob, src[tp..])))
    ensures !ok ==> Split(ob, src[tp..]) == Malformed
  {
    hide Split, SplitMatch, Prepend, ReadLenLax;
    ok, tp', nl', sp' := false, tp, nl, sp;
    ghost var l0, t0 := lit[..nl], st[..sp];
    SplitStep(ob, src, tp);
    var good, ll, at := LaxLength(src, tp + 1, src[tp] / 16);
    if !good || ll > |src| - at {
      return;
    }
    CopyLiterals(src, tp, st, sp, at - tp);
    CopyLiterals(src, at, lit, nl, ll);
    nl' := nl + ll;
    ghost var l1, t1 := src[at..at + ll], src[tp..at];
    if at + ll >= |src| {
      assert l1 == src[at..];
      SplitEnd(ob, src, lit[..nl'], st[..sp + (at - tp)], l0, t0, l1, t1);
      return true, at + ll, nl', sp + (at - tp);
    }
    SomeMalformed(l0, t0, l1, t1);
    PrependTwice(l0, t0, l1, t1, SplitMatch(ob, src[tp] % 16, src[at + ll..]));
    ok, tp', sp' := SplitTokenMatch(ob, src, src[tp] % 16, at + ll, st, sp + (at - tp), lit[..nl']);
  }

  lemma SomeMalformed(l0: seq<byte>, t0: seq<byte>, l: seq<byte>, t: seq<byte>)
    ensures Prepend(l, t, Malformed) == Malformed
  {
  }

  lemma SplitEnd(ob: nat, s: seq<byte>, l: seq<byte>, t: seq<byte>, l0: seq<byte>, t0: seq<byte>, l1: seq<byte>,
                 t1: seq<byte>)
    requires (ob == 2 || ob == 3) && l == l0 + l1 && t == t0 + t1
    ensures Prepend(l, t, Split(ob, s[|s|..])) == Prepend(l0, t0, Parts(l1, t1))
  {
  }

  /** extract_literals over buffers as large as the stream. */
  method ExtractLiterals(ob: nat, src: seq<byte>, lit: array<byte>, st: array<byte>)
    returns (ok: bool, nl: nat, sl: nat)
    requires (ob == 2 || ob == 3) && lit != st && |src| <= lit.Length && |src| <= st.Length
    modifies lit, st
    ensures ok <==> Split(ob, src).Parts?
    ensures ok ==> nl <= lit.Length && sl <= st.Length && Split(ob, src) == Parts(lit[..nl], st[..sl])
  {
    hide Split;
    var tp := 0;
    nl, sl, ok := 0, 0, true;
    assert src[0..] == src && lit[..0] == [] && st[..0] == [];
    assert Prepend([], [], Split(ob, src)) == Split(ob, src);
    while tp < |src|
      invariant tp <= |src| && nl <= tp && sl <= tp
      invariant Prepend(lit[..nl], st[..sl], Split(ob, src[tp..])) == Split(ob, src)
    {
      ok, tp, nl, sl := SplitToken(ob, src, tp, lit, nl, st, sl);
      if !ok {
        return;
      }
    }
    SplitEnd(ob, src, lit[..nl], st[..sl], lit[..nl], st[..sl], [], []);
    ok := true;
  }

  lemma StrippedStep(p: Params, s: seq<byte>, ip: nat, lits: seq<byte>, lp: nat, h: seq<byte>)
    requires ParamsOk(p) && ip < |s| && lp <= |lits|
    ensures var e := ReadLen(s[ip] / 16, s[ip + 1..]);
            DecodeStripped(p, s[ip..], lits[lp..], h) ==
            if e.CutOff? then Fail(Corrupt)
            else
              var at := ip + 1 + e.used;
              if e.val > |lits| - lp then Fail(Corrupt)
              else if |h| + e.val > p.end then Fail(Overflow)
              else if at == |s| then Done(h + lits[lp..lp + e.val])
              else StrippedMatch(p, s[ip] % 16, s[at..], lits[lp + e.val..], h + lits[lp..lp + e.val])
  {
    hide ReadLen, StrippedMatch;
    var e := ReadLen(s[ip] / 16, s[ip + 1..]);
    DropDrop(s, ip, 1);
    if e.Ext? {
      DropDrop(s, ip, 1 + e.used);
      if e.val <= |lits| - lp {
        DropDrop(lits, lp, e.val);
      }
    }
  }

  lemma StrippedMatchStep(p: Params, mc: nat, s: seq<byte>, ip: nat, lits: seq<byte>, h: seq<byte>)
    requires ParamsOk(p) && ip <= |s|
    ensures StrippedMatch(p, mc, s[ip..], lits, h) ==
            if |s| - ip < p.ob then Fail(Corrupt)
            else
              var off, e := Offset(s[ip..ip + p.ob], p.ob), ReadLen(mc, s[ip + p.ob..]);
              if e.CutOff? then Fail(Corrupt)
              else if off == 0 || off > p.maxOffset || off > |h| then Fail(Corrupt)
              else if |h| + e.val + p.minMatch > p.end then Fail(Overflow)
              else DecodeStripped(p, s[ip + p.ob + e.used..], lits, CopyMatch(h, off, e.val + p.minMatch))
  {
    hide ReadLen, DecodeStripped, CopyMatch;
    if |s| - ip >= p.ob {
      DropDrop(s, ip, p.ob);
      OffsetLocal(s[ip..], p.ob);
      var e := ReadLen(mc, s[ip + p.ob..]);
      if e.Ext? {
        DropDrop(s, ip, p.ob + e.used);
      }
    }
  }

  lemma EndOfStripped(p: Params, s: seq<byte>, lits: seq<byte>, h: seq<byte>)
    requires ParamsOk(p)
    ensures DecodeStripped(p, s[|s|..], lits, h) == Done(h)
  {
  }

  /** One token of the stripped loop. */
  method StrippedToken(p: Params, src: seq<byte>, ip: nat, lits: seq<byte>, lp: nat, dst: array<byte>, op: nat)
    returns (code: Code, ip': nat, lp': nat, op': nat)
    requires ParamsOk(p) && ip < |src| && lp <= |lits| && op <= p.end <= dst.Length
    modifies dst
    ensures code == Ok ==> ip < ip' <= |src| && lp <= lp' <= |lits| && op <= op' <= p.end
    ensures code == Ok ==> DecodeStripped(p, src[ip'..], lits[lp'..], dst[..op'])
                           == old(DecodeStripped(p, src[ip..], lits[lp..], dst[..op]))
    ensures code == ErrCorrupt ==> old(DecodeStripped(p, src[ip..], lits[lp..], dst[..op])) == Fail(Corrupt)
    ensures code == ErrOverflow ==> old(DecodeStripped(p, src[ip..], lits[lp..], dst[..op])) == Fail(Overflow)
    ensures code != ErrIo
  {
    hide DecodeStripped, StrippedMatch, CopyMatch, ReadLen;
    StrippedStep(p, src, ip, lits, lp, dst[..op]);
    ip', lp', op' := ip, lp, op;
    var ok, ll, at := ReadLength(src, ip + 1, src[ip] / 16);
    if !ok || ll > |lits| - lp {
      return ErrCorrupt, ip', lp', op';
    }
    if ll > p.end - op {
      return ErrOverflow, ip', lp', op';
    }
    CopyLiterals(lits, lp, dst, op, ll);
    ip', lp', op' := at, lp + ll, op + ll;
    if ip' >= |src| {
      EndOfStripped(p, src, lits[lp'..], dst[..op']);
      return Ok, ip', lp', op';
    }
    StrippedMatchStep(p, src[ip] % 16, src, ip', lits[lp'..], dst[..op']);
    if p.ob > |src| - ip' {
      return ErrCorrupt, ip', lp', op';
    }
    var offset := Offset(src[ip'..ip' + p.ob], p.ob);
    var len, next;
    ok, len, next := ReadLength(src, ip' + p.ob, src[ip] % 16);
    if !ok {
      return ErrCorrupt, ip', lp', op';
    }
    var mlen := len + p.minMatch;
    if offset == 0 || offset > p.maxOffset || offset > op' {
      return ErrCorrupt, ip', lp', op';
    }
    if mlen > p.end - op' {
      return ErrOverflow, ip', lp', op';
    }
    CopyMatchScalar(dst, op', offset, mlen);
    return Ok, next, lp', op' + mlen;
  }

  /** decode_stripped_tokens_impl. */
  method StrippedLoop(p: Params, src: seq<byte>, lits: seq<byte>, dst: array<byte>, op0: nat)
    returns (code: Code, op: nat)
    requires ParamsOk(p) && op0 <= p.end <= dst.Length
    modifies dst
    ensures match old(DecodeStripped(p, src, lits, dst[..op0]))
      case Done(h) => code == Ok && op <= dst.Length && dst[..op] == h
      case Fail(Corrupt) => code == ErrCorrupt
      case Fail(Overflow) => code == ErrOverflow
  {
    hide DecodeStripped;
    var ip: nat, lp: nat := 0, 0;
    op := op0;
    assert src[0..] == src && lits[0..] == lits;
    while ip < |src|
      invariant ip <= |src| && lp <= |lits| && op <= p.end
      invariant DecodeStripped(p, src[ip..], lits[lp..], dst[..op]) == old(DecodeStripped(p, src, lits, dst[..op0]))
    {
      code, ip, lp, op := StrippedToken(p, src, ip, lits, lp, dst, op);
      if code != Ok {
        return;
      }
    }
    EndOfStripped(p, src, lits[lp..], dst[..op]);
    return Ok, op;
  }
}
