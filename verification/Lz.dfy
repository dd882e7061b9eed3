/** What an LZ token stream means, byte by byte. */
module Lz {
  import opened LittleEndian

  // ---------------------------------------------------------------- match copies

  /** The history h extended by n bytes, each a copy of the byte offset places back. */
  function CopyMatch(h: seq<byte>, offset: nat, n: nat): (r: seq<byte>)
    requires 0 < offset <= |h|
    ensures |r| == |h| + n && r[..|h|] == h
    decreases n
  {
    if n == 0 then h else CopyMatch(h + [h[|h| - offset]], offset, n - 1)
  }

  /** Copying in two parts is copying at once. */
  lemma {:induction false} CopySplit(h: seq<byte>, offset: nat, m: nat, n: nat)
    requires 0 < offset <= |h|
    ensures CopyMatch(CopyMatch(h, offset, m), offset, n) == CopyMatch(h, offset, m + n)
    decreases m
  {
    if m > 0 {
      CopySplit(h + [h[|h| - offset]], offset, m - 1, n);
    }
  }

  /** A copy no longer than the offset reads only bytes that were there before. */
  lemma {:induction false} CopyDisjoint(h: seq<byte>, offset: nat, n: nat)
    requires 0 < offset <= |h| && n <= offset
    ensures CopyMatch(h, offset, n) == h + h[|h| - offset..|h| - offset + n]
    decreases n
  {
    if n > 0 {
      var x, at := h[|h| - offset], |h| - offset;
      CopyDisjoint(h + [x], offset, n - 1);
      assert (h + [x])[at + 1..at + n] == h[at + 1..at + n];
      assert h[at..at + n] == [x] + h[at + 1..at + n];
    }
  }

  // ---------------------------------------------------------------- token streams

  /** A length extension: its value and the bytes it takes, or nothing when it is cut off. */
  datatype Ext = Ext(val: nat, used: nat) | CutOff

  /** read_ext_len. */
  function ReadExt(s: seq<byte>): (e: Ext)
    ensures e.Ext? ==> 0 < e.used <= |s|
  {
    if s == [] then CutOff
    else if s[0] < 255 then Ext(s[0], 1)
    else
      match ReadExt(s[1..])
      case CutOff => CutOff
      case Ext(val, used) => Ext(255 + val, 1 + used)
  }

  /** The encoder's reader of its own extensions: an unterminated run that ends the stream is accepted. */
  function ReadExtLax(s: seq<byte>): (e: Ext)
    ensures e.Ext? ==> 0 < e.used <= |s|
    ensures e.Ext? <==> s != []
  {
    if s == [] then CutOff
    else if s[0] < 255 || |s| == 1 then Ext(s[0], 1)
    else
      match ReadExtLax(s[1..])
      case CutOff => CutOff
      case Ext(val, used) => Ext(255 + val, 1 + used)
  }

  lemma {:induction false} StrictIsLax(s: seq<byte>)
    requires ReadExt(s).Ext?
    ensures ReadExtLax(s) == ReadExt(s)
  {
    if s[0] == 255 {
      StrictIsLax(s[1..]);
    }
  }

  /** An extension depends on its own bytes only. */
  lemma {:induction false} ReadExtLocal(s: seq<byte>, t: seq<byte>)
    requires ReadExt(s).Ext?
    ensures ReadExt(s[..ReadExt(s).used] + t) == ReadExt(s)
  {
    var u := ReadExt(s).used;
    if s[0] == 255 {
      ReadExtLocal(s[1..], t);
      assert (s[..u] + t)[1..] == s[1..][..u - 1] + t;
    }
  }

  /** A four-bit length, extended when it is 15. */
  function ReadLen(nibble: nat, s: seq<byte>): (e: Ext)
    ensures e.Ext? ==> e.used <= |s| && e.val >= nibble
  {
    if nibble != 15 then Ext(nibble, 0)
    else
      match ReadExt(s)
      case CutOff => CutOff
      case Ext(val, used) => Ext(15 + val, used)
  }

  function ReadLenLax(nibble: nat, s: seq<byte>): (e: Ext)
    ensures e.Ext? ==> e.used <= |s| && e.val >= nibble
  {
    if nibble != 15 then Ext(nibble, 0)
    else
      match ReadExtLax(s)
      case CutOff => CutOff
      case Ext(val, used) => Ext(15 + val, used)
  }

  lemma ReadLenLocal(nibble: nat, s: seq<byte>, t: seq<byte>)
    requires ReadLen(nibble, s).Ext?
    ensures ReadLenLax(nibble, s) == ReadLen(nibble, s)
    ensures ReadLen(nibble, s[..ReadLen(nibble, s).used] + t) == ReadLen(nibble, s)
  {
    if nibble == 15 {
      StrictIsLax(s);
      ReadExtLocal(s, t);
    }
  }

  function Offset(s: seq<byte>, ob: nat): (off: nat)
    requires (ob == 2 || ob == 3) && |s| >= ob
  {
    s[0] + 0x100 * s[1] as int + (if ob == 3 then 0x1_0000 * s[2] as int else 0)
  }

  datatype Error = Corrupt | Overflow

  /** The whole output including the history, or the first error. */
  datatype Result = Done(h: seq<byte>) | Fail(why: Error)

  /** Parameters of a stream: offset width, shortest match, largest offset, and the end of the output. */
  datatype Params = Params(ob: nat, minMatch: nat, maxOffset: nat, end: nat)

  predicate ParamsOk(p: Params) { (p.ob == 2 || p.ob == 3) && p.minMatch > 0 }

  /** The direct meaning of the tokens s after the history h. */
  function Decode(p: Params, s: seq<byte>, h: seq<byte>): (r: Result)
    requires ParamsOk(p)
    decreases |s|
  {
    if s == [] then Done(h)
    else
      match ReadLen(s[0] / 16, s[1..])
      case CutOff => Fail(Corrupt)
      case Ext(ll, used) =>
        var s1 := s[1 + used..];
        if ll > |s1| then Fail(Corrupt)
        else if |h| + ll > p.end then Fail(Overflow)
        else if ll == |s1| then Done(h + s1[..ll])
        else DecodeMatch(p, s[0] % 16, s1[ll..], h + s1[..ll])
  }

  /** The match part of a token with length nibble mc, and the tokens after it. */
  function DecodeMatch(p: Params, mc: nat, s: seq<byte>, h: seq<byte>): (r: Result)
    requires ParamsOk(p)
    decreases |s|
  {
    if |s| < p.ob then Fail(Corrupt)
    else
      var off := Offset(s, p.ob);
      match ReadLen(mc, s[p.ob..])
      case CutOff => Fail(Corrupt)
      case Ext(len, used) =>
        if off == 0 || off > p.maxOffset || off > |h| then Fail(Corrupt)
        else if |h| + len + p.minMatch > p.end then Fail(Overflow)
        else Decode(p, s[p.ob + used..], CopyMatch(h, off, len + p.minMatch))
  }
}
