/** The token decoder: the plain loop and the two-phase loop with over-writing copies. */
module LzDecode {
  import opened LittleEndian
  import opened Lz
  import opened LzCopy

  datatype Code = Ok | ErrCorrupt | ErrOverflow | ErrIo

  lemma {:induction false} ReadExtStep(s: seq<byte>, ip: nat)
    requires ip < |s| && s[ip] == 255
    ensures ReadExt(s[ip..]) == match ReadExt(s[ip + 1..])
                                case CutOff => CutOff
                                case Ext(val, used) => Ext(255 + val, 1 + used)
  {
    assert s[ip..][1..] == s[ip + 1..];
  }

  /** read_ext_len. */
  method ReadExtLen(src: seq<byte>, ip: nat) returns (ok: bool, val: nat, next: nat)
    requires ip <= |src|
    ensures ok == ReadExt(src[ip..]).Ext?
    ensures ok ==> val == ReadExt(src[ip..]).val && next == ip + ReadExt(src[ip..]).used
    ensures next <= |src|
  {
    val, next := 0, ip;
    while next < |src|
      invariant ip <= next <= |src|
      invariant ReadExt(src[ip..]) == match ReadExt(src[next..])
                                      case CutOff => CutOff
                                      case Ext(v, u) => Ext(val + v, next - ip + u)
    {
      var b := src[next];
      if b == 255 {
        ReadExtStep(src, next);
      }
      next := next + 1;
      val := val + b;
      if b < 255 {
        return true, val, next;
      }
    }
    ok := false;
  }

  /** A token's length, extended when its nibble is 15. */
  method ReadLength(src: seq<byte>, ip: nat, nibble: nat) returns (ok: bool, val: nat, next: nat)
    requires ip <= |src|
    ensures ok == ReadLen(nibble, src[ip..]).Ext?
    ensures ok ==> val == ReadLen(nibble, src[ip..]).val && next == ip + ReadLen(nibble, src[ip..]).used
    ensures next <= |src|
  {
    ok, val, next := true, nibble, ip;
    if nibble == 15 {
      var ext;
      ok, ext, next := ReadExtLen(src, ip);
      val := 15 + ext;
    }
  }

  /** Decode at ip, read off one token's literals. */
  lemma LiteralStep(p: Params, s: seq<byte>, ip: nat, h: seq<byte>)
    requires ParamsOk(p) && ip < |s|
    ensures var e := ReadLen(s[ip] / 16, s[ip + 1..]);
            Decode(p, s[ip..], h) ==
            if e.CutOff? then Fail(Corrupt)
            else
              var at := ip + 1 + e.used;
              if e.val > |s| - at then Fail(Corrupt)
              else if |h| + e.val > p.end then Fail(Overflow)
              else if e.val == |s| - at then Done(h + s[at..at + e.val])
              else DecodeMatch(p, s[ip] % 16, s[at + e.val..], h + s[at..at + e.val])
  {
    hide ReadLen, DecodeMatch;
    var e := ReadLen(s[ip] / 16, s[ip + 1..]);
    DropDrop(s, ip, 1);
    if e.Ext? {
      var at := ip + 1 + e.used;
      DropDrop(s, ip, 1 + e.used);
      if e.val <= |s| - at {
        DropDrop(s, at, e.val);
      }
    }
  }

  lemma DropDrop<T>(s: seq<T>, a: nat, b: nat)
    requires a + b <= |s|
    ensures s[a..][b..] == s[a + b..] && s[a..][..b] == s[a..a + b]
    ensures |s[a..]| == |s| - a && (b > 0 ==> s[a..][0] == s[a])
  {
  }

  /** DecodeMatch at ip, read off the offset and the length. */
  lemma MatchStep(p: Params, mc: nat, s: seq<byte>, ip: nat, h: seq<byte>)
    requires ParamsOk(p) && ip <= |s|
    ensures DecodeMatch(p, mc, s[ip..], h) ==
            if |s| - ip < p.ob then Fail(Corrupt)
            else
              var off, e := Offset(s[ip..ip + p.ob], p.ob), ReadLen(mc, s[ip + p.ob..]);
              if e.CutOff? then Fail(Corrupt)
              else if off == 0 || off > p.maxOffset || off > |h| then Fail(Corrupt)
              else if |h| + e.val + p.minMatch > p.end then Fail(Overflow)
              else Decode(p, s[ip + p.ob + e.used..], CopyMatch(h, off, e.val + p.minMatch))
  {
    hide ReadLen, Decode, CopyMatch;
    if |s| - ip >= p.ob {
      DropDrop(s, ip, p.ob);
      OffsetLocal(s[ip..], p.ob);
      var e := ReadLen(mc, s[ip + p.ob..]);
      if e.Ext? {
        DropDrop(s, ip, p.ob + e.used);
      }
    }
  }

  /** An offset depends on its own bytes only. */
  lemma OffsetLocal(s: seq<byte>, ob: nat)
    requires (ob == 2 || ob == 3) && |s| >= ob
    ensures Offset(s[..ob], ob) == Offset(s, ob)
  {
  }

  /** One token of the plain loop: on success the rest means what the whole meant. */
  method PlainToken(p: Params, src: seq<byte>, ip: nat, dst: array<byte>, op: nat)
    returns (code: Code, ip': nat, op': nat)
    requires ParamsOk(p) && ip < |src| && op <= p.end <= dst.Length
    modifies dst
    ensures code == Ok ==> ip < ip' <= |src| && op <= op' <= p.end
    ensures code == Ok ==> Decode(p, src[ip'..], dst[..op']) == old(Decode(p, src[ip..], dst[..op]))
    ensures code == ErrCorrupt ==> old(Decode(p, src[ip..], dst[..op])) == Fail(Corrupt)
    ensures code == ErrOverflow ==> old(Decode(p, src[ip..], dst[..op])) == Fail(Overflow)
    ensures code != ErrIo
    ensures forall i :: p.end <= i < dst.Length ==> dst[i] == old(dst[i])
  {
    hide Decode, DecodeMatch, CopyMatch, ReadLen;
    LiteralStep(p, src, ip, dst[..op]);
    ip', op' := ip, op;
    var ok, ll, at := ReadLength(src, ip + 1, src[ip] / 16);
    if !ok {
      return ErrCorrupt, ip', op';
    }
    if ll > |src| - at {
      return ErrCorrupt, ip', op';
    }
    if ll > p.end - op {
      return ErrOverflow, ip', op';
    }
    CopyLiterals(src, at, dst, op, ll);
    ip', op' := at + ll, op + ll;
    if ip' >= |src| {
      EndOfTokens(p, src, dst[..op']);
      return Ok, ip', op';
    }
    ghost var h := dst[..op'];
    MatchStep(p, src[ip] % 16, src, ip', h);
    if p.ob > |src| - ip' {
      return ErrCorrupt, ip', op';
    }
    var offset := Offset(src[ip'..ip' + p.ob], p.ob);
    var len, next;
    ok, len, next := ReadLength(src, ip' + p.ob, src[ip] % 16);
    if !ok {
      return ErrCorrupt, ip', op';
    }
    var mlen := len + p.minMatch;
    if offset == 0 || offset > p.maxOffset || offset > op' {
      return ErrCorrupt, ip', op';
    }
    if mlen > p.end - op' {
      return ErrOverflow, ip', op';
    }
    CopyMatchScalar(dst, op', offset, mlen);
    return Ok, next, op' + mlen;
  }

  lemma EndOfTokens(p: Params, s: seq<byte>, h: seq<byte>)
    requires ParamsOk(p)
    ensures Decode(p, s[|s|..], h) == Done(h)
  {
  }

  /** The plain loop from ip and op on. */
  method PlainLoop(p: Params, src: seq<byte>, ip0: nat, dst: array<byte>, op0: nat) returns (code: Code, op: nat)
    requires ParamsOk(p) && ip0 <= |src| && op0 <= p.end <= dst.Length
    modifies dst
    ensures match old(Decode(p, src[ip0..], dst[..op0]))
      case Done(h) => code == Ok && op <= dst.Length && dst[..op] == h
      case Fail(Corrupt) => code == ErrCorrupt
      case Fail(Overflow) => code == ErrOverflow
    ensures forall i :: p.end <= i < dst.Length ==> dst[i] == old(dst[i])
  {
    hide Decode;
    var ip := ip0;
    op := op0;
    while ip < |src|
      invariant ip <= |src| && op <= p.end
      invariant Decode(p, src[ip..], dst[..op]) == old(Decode(p, src[ip0..], dst[..op0]))
      invariant forall i :: p.end <= i < dst.Length ==> dst[i] == old(dst[i])
    {
      code, ip, op := PlainToken(p, src, ip, dst, op);
      if code != Ok {
        return;
      }
    }
    EndOfTokens(p, src, dst[..op]);
    return Ok, op;
  }

  /** One token of the hot loop. The margins before ip_end and op_end pay for the over-writing copies; the history
      test is made only while warm-up lasts. */
  method HotToken(p: Params, src: seq<byte>, ip: nat, dst: array<byte>, op: nat, warmup: bool)
    returns (code: Code, ip': nat, op': nat)
    requires ParamsOk(p) && ip + 48 < |src| && op + 72 < p.end <= dst.Length
    requires warmup || op > p.maxOffset
    modifies dst
    ensures code == Ok ==> ip < ip' <= |src| && op <= op' <= p.end
    ensures code == Ok ==> Decode(p, src[ip'..], dst[..op']) == old(Decode(p, src[ip..], dst[..op]))
    ensures code != Ok ==> old(Decode(p, src[ip..], dst[..op])).Fail?
    ensures forall i :: p.end <= i < dst.Length ==> dst[i] == old(dst[i])
  {
    hide Decode, DecodeMatch, CopyMatch, ReadLen;
    LiteralStep(p, src, ip, dst[..op]);
    ip', op' := ip, op;
    var ok, ll, at := ReadLength(src, ip + 1, src[ip] / 16);
    if !ok {
      return ErrCorrupt, ip', op';
    }
    if |src| - at < ll || p.end - op < ll {
      return ErrIo, ip', op';
    }
    if ll <= 14 {
      ShortLength(src[ip] / 16, src[ip + 1..]);
      WildLiterals(src, at, dst, op, ll);
    } else {
      CopyLiterals(src, at, dst, op, ll);
    }
    ip', op' := at + ll, op + ll;
    if ip' >= |src| {
      EndOfTokens(p, src, dst[..op']);
      return Ok, ip', op';
    }
    ghost var h := dst[..op'];
    MatchStep(p, src[ip] % 16, src, ip', h);
    if |src| - ip' < p.ob {
      return ErrCorrupt, ip', op';
    }
    var offset := Offset(src[ip'..ip' + p.ob], p.ob);
    var len, next;
    ok, len, next := ReadLength(src, ip' + p.ob, src[ip] % 16);
    if !ok {
      return ErrCorrupt, ip', op';
    }
    var mlen := len + p.minMatch;
    if offset == 0 || offset > p.maxOffset || (warmup && offset > op') {
      return ErrCorrupt, ip', op';
    }
    if p.end - op' < mlen {
      return ErrOverflow, ip', op';
    }
    HotCopy(dst, op', offset, mlen, p.end);
    return Ok, next, op' + mlen;
  }

  /** A length below 15 takes no extension bytes. */
  lemma ShortLength(nibble: nat, s: seq<byte>)
    ensures var e := ReadLen(nibble, s); e.Ext? && e.val <= 14 ==> e.used == 0
  {
  }

  lemma {:induction false} ExtensionBound(s: seq<byte>)
    ensures ReadExt(s).Ext? ==> ReadExt(s).val <= 255 * ReadExt(s).used
  {
    if s != [] && s[0] == 255 {
      ExtensionBound(s[1..]);
    }
  }

  /** The token bytes of a block are fewer than 2^24, so that no length read from them leaves 32 bits: the cast of the
      hot loop cuts nothing off. */
  lemma LengthsFit(nibble: nat, s: seq<byte>, minMatch: nat)
    requires nibble <= 15 && minMatch <= 4 && |s| < 0x100_0000 && ReadLen(nibble, s).Ext?
    ensures ReadLen(nibble, s).val + minMatch < 0x1_0000_0000
  {
    ExtensionBound(s);
  }

  /** decode_block_tokens_impl: warm-up, hot loop, plain loop. It accepts exactly the streams the plain loop accepts
      and leaves the same output; bytes from the end of the output on are never touched. */
  method TwoPhase(p: Params, src: seq<byte>, dst: array<byte>, op0: nat) returns (code: Code, op: nat)
    requires ParamsOk(p) && op0 <= p.end <= dst.Length
    modifies dst
    ensures code == Ok <==> old(Decode(p, src, dst[..op0])).Done?
    ensures code == Ok ==> op <= dst.Length && dst[..op] == old(Decode(p, src, dst[..op0])).h
    ensures forall i :: p.end <= i < dst.Length ==> dst[i] == old(dst[i])
  {
    hide Decode;
    var ipSafe := if |src| > 48 then |src| - 48 else 0;
    var opSafe := if p.end - op0 > 72 then p.end - 72 else op0;
    var ip := 0;
    op := op0;
    assert src[0..] == src;
    while ip < ipSafe && op < opSafe && op <= p.maxOffset
      invariant ip <= |src| && op0 <= op <= p.end
      invariant Decode(p, src[ip..], dst[..op]) == old(Decode(p, src, dst[..op0]))
      invariant forall i :: p.end <= i < dst.Length ==> dst[i] == old(dst[i])
      decreases |src| - ip
    {
      code, ip, op := HotToken(p, src, ip, dst, op, true);
      if code != Ok {
        return;
      }
    }
    while ip < ipSafe && op < opSafe
      invariant ip <= |src| && op0 <= op <= p.end
      invariant ip < ipSafe && op < opSafe ==> op > p.maxOffset
      invariant Decode(p, src[ip..], dst[..op]) == old(Decode(p, src, dst[..op0]))
      invariant forall i :: p.end <= i < dst.Length ==> dst[i] == old(dst[i])
      decreases |src| - ip
    {
      code, ip, op := HotToken(p, src, ip, dst, op, false);
      if code != Ok {
        return;
      }
    }
    code, op := PlainLoop(p, src, ip, dst, op);
  }
}
