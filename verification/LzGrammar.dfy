/** What token streams the decoders accept and what they stand for, said of their bytes. */
module LzGrammar {
  import opened LittleEndian
  import opened Lz
  import opened LzStripped

  // ---------------------------------------------------------------- lengths, offsets, copies

  /** A length v whose nibble is followed by k more bytes at position at: none below 15; else bytes of 255 and a last
      one below 255, which with 15 add up to it. */
  predicate IsLength(nibble: nat, s: seq<byte>, at: nat, k: nat, v: nat) {
    at + k <= |s|
    && if nibble != 15 then k == 0 && v == nibble
       else k > 0 && (forall i :: at <= i < at + k - 1 ==> s[i] == 255) && s[at + k - 1] < 255
            && v == 15 + 255 * (k - 1) + s[at + k - 1]
  }

  lemma {:induction false} ExtensionMeans(t: seq<byte>, k: nat, v: nat)
    ensures ReadExt(t) == Ext(v, k)
            <==> 0 < k <= |t| && (forall i :: 0 <= i < k - 1 ==> t[i] == 255) && t[k - 1] < 255
                 && v == 255 * (k - 1) + t[k - 1]
  {
    if t != [] && t[0] == 255 {
      if k > 0 && v >= 255 {
        ExtensionMeans(t[1..], k - 1, v - 255);
      }
      if 0 < k <= |t| && (forall i :: 0 <= i < k - 1 ==> t[i] == 255) && t[k - 1] < 255 {
        assert forall i :: 0 <= i < k - 2 ==> t[1..][i] == t[i + 1];
      }
    }
  }

  lemma LengthMeans(nibble: nat, s: seq<byte>, at: nat, k: nat, v: nat)
    requires at <= |s|
    ensures ReadLen(nibble, s[at..]) == Ext(v, k) <==> IsLength(nibble, s, at, k, v)
  {
    hide ReadExt;
    if nibble == 15 && v >= 15 {
      ExtensionMeans(s[at..], k, v - 15);
    }
  }

  /** The two or three bytes of an offset, lowest first. */
  function OffsetAt(s: seq<byte>, at: nat, ob: nat): (off: nat)
    requires (ob == 2 || ob == 3) && at + ob <= |s|
  {
    if ob == 2 then s[at] + 0x100 * s[at + 1] as int
    else s[at] + 0x100 * s[at + 1] as int + 0x1_0000 * s[at + 2] as int
  }

  /** From position from on, every byte is the one off places before. */
  predicate Repeats(x: seq<byte>, from: nat, off: nat) {
    0 < off <= from && forall i :: from <= i < |x| ==> x[i] == x[i - off]
  }

  lemma {:induction false} CopyMeans(h: seq<byte>, off: nat, n: nat, x: seq<byte>)
    requires 0 < off <= |h|
    ensures x == CopyMatch(h, off, n) <==> |x| == |h| + n && h <= x && Repeats(x, |h|, off)
    decreases n
  {
    if n > 0 {
      var g := h + [h[|h| - off]];
      CopyMeans(g, off, n - 1, x);
      if |x| == |h| + n && h <= x && Repeats(x, |h|, off) {
        assert x[|h|] == x[|h| - off];
        assert g <= x;
      }
    }
  }

  // ---------------------------------------------------------------- tokens

  /** Where the literals of tokens are: among them, or apart. */
  datatype Source = Inline | Apart(lits: seq<byte>)

  /** The run of ll literals of the token whose run length takes k bytes. */
  predicate HasRun(from: Source, s: seq<byte>, k: nat, ll: nat) {
    1 + k <= |s| && if from.Apart? then ll <= |from.lits| else 1 + k + ll <= |s|
  }

  function RunOf(from: Source, s: seq<byte>, k: nat, ll: nat): (run: seq<byte>)
    requires HasRun(from, s, k, ll)
    ensures |run| == ll
  {
    if from.Apart? then from.lits[..ll] else s[1 + k..1 + k + ll]
  }

  /** Where the token goes on behind its run, and the literals to come. */
  function RunEnd(from: Source, k: nat, ll: nat): (at: nat) { if from.Apart? then 1 + k else 1 + k + ll }

  function Later(from: Source, ll: nat): (f: Source)
    requires from.Apart? ==> ll <= |from.lits|
  {
    if from.Apart? then Apart(from.lits[ll..]) else Inline
  }

  /** Tokens that take the output from h to out: a byte with two nibbles, the rest of the run length, the run, the
      offset, and the rest of the match length; the last token may end with its run. */
  ghost predicate Spells(p: Params, s: seq<byte>, from: Source, h: seq<byte>, out: seq<byte>)
    requires p.ob == 2 || p.ob == 3
    decreases |s|, 1
  {
    if s == [] then out == h
    else
      exists k: nat, ll: nat ::
        IsLength(s[0] / 16, s, 1, k, ll) && HasRun(from, s, k, ll) && |h| + ll <= p.end
        && SpellsOn(p, s, RunEnd(from, k, ll), Later(from, ll), h + RunOf(from, s, k, ll), out)
  }

  /** The match of the token whose run ends at position at, and what follows it. */
  ghost predicate SpellsOn(p: Params, s: seq<byte>, at: nat, from: Source, g: seq<byte>, out: seq<byte>)
    requires (p.ob == 2 || p.ob == 3) && 0 < at <= |s|
    decreases |s|, 0
  {
    if at == |s| then out == g
    else
      at + p.ob <= |s|
      && exists j: nat, v: nat :: IsLength(s[0] % 16, s, at + p.ob, j, v) && SpellsMatch(p, s, at, j, v, from, g, out)
  }

  ghost predicate SpellsMatch(p: Params, s: seq<byte>, at: nat, j: nat, v: nat, from: Source, g: seq<byte>,
                              out: seq<byte>)
    requires (p.ob == 2 || p.ob == 3) && 0 < at && at + p.ob <= |s|
    decreases |s|, 0, 0
  {
    var z := |g| + v + p.minMatch;
    at + p.ob + j <= |s| && OffsetAt(s, at, p.ob) <= p.maxOffset && z <= p.end && z <= |out| && g <= out
    && Repeats(out[..z], |g|, OffsetAt(s, at, p.ob))
    && Spells(p, s[at + p.ob + j..], from, out[..z], out)
  }

  lemma {:induction false} SpelledLonger(p: Params, s: seq<byte>, from: Source, h: seq<byte>, out: seq<byte>)
    requires (p.ob == 2 || p.ob == 3) && Spells(p, s, from, h, out)
    ensures h <= out
  {
    hide IsLength, OffsetAt, Repeats;
    if s != [] {
      var k: nat, ll: nat :|
        IsLength(s[0] / 16, s, 1, k, ll) && HasRun(from, s, k, ll) && |h| + ll <= p.end
        && SpellsOn(p, s, RunEnd(from, k, ll), Later(from, ll), h + RunOf(from, s, k, ll), out);
      RunLonger(p, s, RunEnd(from, k, ll), Later(from, ll), h + RunOf(from, s, k, ll), out);
    }
  }

  lemma RunLonger(p: Params, s: seq<byte>, at: nat, from: Source, g: seq<byte>, out: seq<byte>)
    requires (p.ob == 2 || p.ob == 3) && 0 < at <= |s| && SpellsOn(p, s, at, from, g, out)
    ensures g <= out
  {
    hide IsLength, Spells;
  }

  lemma SomeMatch(p: Params, s: seq<byte>, at: nat, from: Source, g: seq<byte>, out: seq<byte>) returns (j: nat, v: nat)
    requires (p.ob == 2 || p.ob == 3) && 0 < at < |s| && SpellsOn(p, s, at, from, g, out)
    ensures at + p.ob <= |s|
    ensures IsLength(s[0] % 16, s, at + p.ob, j, v) && SpellsMatch(p, s, at, j, v, from, g, out)
  {
    hide IsLength, SpellsMatch;
    j, v :| IsLength(s[0] % 16, s, at + p.ob, j, v) && SpellsMatch(p, s, at, j, v, from, g, out);
  }

  lemma OffsetIs(s: seq<byte>, at: nat, ob: nat)
    requires (ob == 2 || ob == 3) && at + ob <= |s|
    ensures Offset(s[at..], ob) == OffsetAt(s, at, ob)
  {
  }

  /** A match that is copied, and where that leads. */
  lemma CopyStep(p: Params, s: seq<byte>, at: nat, j: nat, v: nat, from: Source, g: seq<byte>, out: seq<byte>)
    requires ParamsOk(p) && 0 < at && at + p.ob + j <= |s|
    ensures var off := OffsetAt(s, at, p.ob);
            SpellsMatch(p, s, at, j, v, from, g, out)
            <==> 0 < off <= p.maxOffset && off <= |g| && |g| + v + p.minMatch <= p.end
                 && Spells(p, s[at + p.ob + j..], from, CopyMatch(g, off, v + p.minMatch), out)
  {
    hide Spells, OffsetAt, CopyMatch;
    var off, n := OffsetAt(s, at, p.ob), v + p.minMatch;
    if 0 < off <= |g| {
      var x := CopyMatch(g, off, n);
      CopyMeans(g, off, n, x);
      if |out| >= |g| + n {
        CopyMeans(g, off, n, out[..|g| + n]);
      }
      if Spells(p, s[at + p.ob + j..], from, x, out) {
        SpelledLonger(p, s[at + p.ob + j..], from, x, out);
      }
    }
  }

  /** For every token stream: it decodes to out exactly where it spells out. */
  lemma {:induction false} TokensMean(p: Params, s: seq<byte>, h: seq<byte>, out: seq<byte>)
    requires ParamsOk(p)
    ensures Decode(p, s, h) == Done(out) <==> Spells(p, s, Inline, h, out)
    decreases |s|, 1
  {
    hide ReadLen, IsLength, DecodeMatch, SpellsOn;
    if s != [] {
      var e := ReadLen(s[0] / 16, s[1..]);
      if e.Ext? {
        LengthMeans(s[0] / 16, s, 1, e.used, e.val);
        var at := 1 + e.used + e.val;
        if at <= |s| && |h| + e.val <= p.end {
          assert s[1 + e.used..][..e.val] == s[1 + e.used..at] && s[1 + e.used..][e.val..] == s[at..];
          RunMeans(p, s, at, h + s[1 + e.used..at], out);
        }
      }
      forall k: nat, ll: nat | IsLength(s[0] / 16, s, 1, k, ll) ensures e == Ext(ll, k) {
        LengthMeans(s[0] / 16, s, 1, k, ll);
      }
    }
  }

  lemma {:induction false} RunMeans(p: Params, s: seq<byte>, at: nat, g: seq<byte>, out: seq<byte>)
    requires ParamsOk(p) && 0 < at <= |s|
    ensures (if at == |s| then out == g else DecodeMatch(p, s[0] % 16, s[at..], g) == Done(out))
            <==> SpellsOn(p, s, at, Inline, g, out)
    decreases |s|, 0
  {
    hide ReadLen, IsLength, Decode, SpellsMatch, CopyMatch, Offset, OffsetAt;
    if at < |s| && at + p.ob <= |s| {
      var e := ReadLen(s[0] % 16, s[at + p.ob..]);
      assert s[at..][p.ob..] == s[at + p.ob..];
      OffsetIs(s, at, p.ob);
      if e.Ext? {
        LengthMeans(s[0] % 16, s, at + p.ob, e.used, e.val);
        var rest, off := s[at + p.ob + e.used..], OffsetAt(s, at, p.ob);
        assert s[at..][p.ob + e.used..] == rest;
        CopyStep(p, s, at, e.used, e.val, Inline, g, out);
        if 0 < off <= |g| {
          TokensMean(p, rest, CopyMatch(g, off, e.val + p.minMatch), out);
        }
      }
      if SpellsOn(p, s, at, Inline, g, out) {
        var j, v := SomeMatch(p, s, at, Inline, g, out);
        LengthMeans(s[0] % 16, s, at + p.ob, j, v);
      }
    }
  }

  /** For all stripped tokens and literals: they decode to out exactly where they spell out. */
  lemma {:induction false} StrippedMean(p: Params, s: seq<byte>, lits: seq<byte>, h: seq<byte>, out: seq<byte>)
    requires ParamsOk(p)
    ensures DecodeStripped(p, s, lits, h) == Done(out) <==> Spells(p, s, Apart(lits), h, out)
    decreases |s|, 1
  {
    hide ReadLen, IsLength, StrippedMatch, SpellsOn;
    if s != [] {
      var e := ReadLen(s[0] / 16, s[1..]);
      if e.Ext? {
        LengthMeans(s[0] / 16, s, 1, e.used, e.val);
        if e.val <= |lits| && |h| + e.val <= p.end {
          StrippedRunMeans(p, s, 1 + e.used, lits[e.val..], h + lits[..e.val], out);
        }
      }
      forall k: nat, ll: nat | IsLength(s[0] / 16, s, 1, k, ll) ensures e == Ext(ll, k) {
        LengthMeans(s[0] / 16, s, 1, k, ll);
      }
    }
  }

  lemma {:induction false} StrippedRunMeans(p: Params, s: seq<byte>, at: nat, lits: seq<byte>, g: seq<byte>,
                                            out: seq<byte>)
    requires ParamsOk(p) && 0 < at <= |s|
    ensures (if at == |s| then out == g else StrippedMatch(p, s[0] % 16, s[at..], lits, g) == Done(out))
            <==> SpellsOn(p, s, at, Apart(lits), g, out)
    decreases |s|, 0
  {
    hide ReadLen, IsLength, DecodeStripped, SpellsMatch, CopyMatch, Offset, OffsetAt;
    if at < |s| && at + p.ob <= |s| {
      var e := ReadLen(s[0] % 16, s[at + p.ob..]);
      assert s[at..][p.ob..] == s[at + p.ob..];
      OffsetIs(s, at, p.ob);
      if e.Ext? {
        LengthMeans(s[0] % 16, s, at + p.ob, e.used, e.val);
        var rest, off := s[at + p.ob + e.used..], OffsetAt(s, at, p.ob);
        assert s[at..][p.ob + e.used..] == rest;
        CopyStep(p, s, at, e.used, e.val, Apart(lits), g, out);
        if 0 < off <= |g| {
          StrippedMean(p, rest, lits, CopyMatch(g, off, e.val + p.minMatch), out);
        }
      }
      if SpellsOn(p, s, at, Apart(lits), g, out) {
        var j, v := SomeMatch(p, s, at, Apart(lits), g, out);
        LengthMeans(s[0] % 16, s, at + p.ob, j, v);
      }
    }
  }
}
