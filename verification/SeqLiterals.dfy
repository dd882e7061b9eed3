/** The literal section of a sequence block: raw, tANS or Huffman, in one stream or four lanes. */
module SeqLiterals {
  import opened LittleEndian
  import opened Wrappers
  import A1 = AnsCodec
  import A4 = AnsCodec4
  import H1 = HuffCodec
  import H4 = HuffCodec4
  import T = AnsTable
  import N = AnsNormalize
  import L = HuffLengths
  import S = AnsStream
  import HT = HuffTables
  import HC = HuffCodes
  import HS = HuffStream

  const RAW: byte := 0
  const ANS4: byte := 1
  const ANS1: byte := 2
  const HUF1: byte := 3
  const HUF4: byte := 4

  function OfAns(r: A1.Outcome): (o: Option<seq<byte>>) {
    match r case Good(out, _) => Some(out) case Bad(_) => None
  }

  function OfHuff(r: H1.Outcome): (o: Option<seq<byte>>) {
    match r case Good(out, _) => Some(out) case Bad(_) => None
  }

  /** The n literals of a section; buf is what the freshly allocated buffer happens to hold. */
  ghost function Literals(fmt: byte, data: seq<byte>, n: nat, buf: seq<byte>): (o: Option<seq<byte>>)
    requires |buf| == n
    ensures o.Some? ==> |o.value| == n
  {
    if n == 0 || data == [] then Some(buf)
    else if fmt == ANS4 then OfAns(A4.DecodeFrame4(data, n, n))
    else if fmt == ANS1 then OfAns(A1.DecodeFrame(data, n, n))
    else if fmt == HUF1 then OfHuff(H1.DecodeFrame(data, n, n))
    else if fmt == HUF4 then OfHuff(H4.DecodeFrame4(data, n, n))
    else if |data| >= n then Some(data[..n])
    else None
  }

  /** The section decodes to xs whatever the buffer held. */
  ghost predicate Holds(fmt: byte, data: seq<byte>, xs: seq<byte>) {
    forall buf: seq<byte> :: |buf| == |xs| ==> Literals(fmt, data, |xs|, buf) == Some(xs)
  }

  /** A decoder's room does not matter as long as there is enough, and every failure is an error. */
  lemma RoomEnough(data: seq<byte>, n: nat, cap: nat)
    requires n <= cap
    ensures A4.DecodeFrame4(data, cap, n) == A4.DecodeFrame4(data, n, n)
    ensures A1.DecodeFrame(data, cap, n) == A1.DecodeFrame(data, n, n)
    ensures H1.DecodeFrame(data, cap, n) == H1.DecodeFrame(data, n, n)
    ensures H4.DecodeFrame4(data, cap, n) == H4.DecodeFrame4(data, n, n)
    ensures A4.DecodeFrame4(data, n, n) != A1.Bad(A1.Ok) && A1.DecodeFrame(data, n, n) != A1.Bad(A1.Ok)
    ensures H1.DecodeFrame(data, n, n) != H1.Bad(H1.Ok) && H4.DecodeFrame4(data, n, n) != H1.Bad(H1.Ok)
  {
  }

  /** Decoding into the literal buffer, which has slack behind the literals. */
  method ReadLiterals(fmt: byte, data: seq<byte>, n: nat, buf: array<byte>) returns (ok: bool)
    requires n <= buf.Length
    modifies buf
    ensures match Literals(fmt, data, n, old(buf[..n])) case None => !ok case Some(xs) => ok && buf[..n] == xs
  {
    hide A4.DecodeFrame4, A1.DecodeFrame, H1.DecodeFrame, H4.DecodeFrame4;
    ok := true;
    if n > 0 && |data| > 0 {
      RoomEnough(data, n, buf.Length);
      if fmt == ANS4 {
        var st, _ := A4.VvaDecode4(data, buf, n);
        ok := st == A1.Ok;
      } else if fmt == ANS1 {
        var st, _ := A1.VvaDecode(data, buf, n);
        ok := st == A1.Ok;
      } else if fmt == HUF1 {
        var st, _ := H1.VvhDecode(data, buf, n);
        ok := st == H1.Ok;
      } else if fmt == HUF4 {
        var st, _ := H4.VvhDecode4(data, buf, n);
        ok := st == H1.Ok;
      } else if |data| >= n {
        forall i | 0 <= i < n { buf[i] := data[i]; }
      } else {
        ok := false;
      }
    }
  }

  // ---------------------------------------------------------------- encoding

  lemma HoldsAns4(norm: seq<nat>, xs: seq<byte>)
    requires T.IsTable(norm) && S.Covered(norm, xs) && 0 < |xs| <= N.INT_MAX
    ensures Holds(ANS4, A4.Frame4(norm, xs), xs)
  {
    hide A4.DecodeFrame4, S.Covered, T.IsTable;
    A4.Frame4RoundTrip(norm, xs, [], |xs|);
    NotEmpty(norm, xs);
    assert A4.Frame4(norm, xs) + [] == A4.Frame4(norm, xs);
  }

  lemma NotEmpty(norm: seq<nat>, xs: seq<byte>)
    requires T.IsTable(norm) && S.Covered(norm, xs)
    ensures A4.Frame4(norm, xs) != [] && A1.Frame(norm, xs) != []
  {
    assert |A4.Frame4(norm, xs)| >= 2 && |A1.Frame(norm, xs)| >= 2;
  }

  lemma HoldsAns1(norm: seq<nat>, xs: seq<byte>)
    requires T.IsTable(norm) && S.Covered(norm, xs) && 0 < |xs|
    ensures Holds(ANS1, A1.Frame(norm, xs), xs)
  {
    hide A1.DecodeFrame, S.Covered, T.IsTable;
    A1.FrameRoundTrip(norm, xs, [], |xs|);
    NotEmpty(norm, xs);
    assert A1.Frame(norm, xs) + [] == A1.Frame(norm, xs);
  }

  lemma HoldsHuf1(lens: seq<nat>, xs: seq<byte>)
    requires HT.Nibbles(lens) && HC.Sound(lens) && HS.Coded(lens, xs) && 0 < |xs|
    ensures Holds(HUF1, H1.Frame(lens, xs), xs)
  {
    hide H1.DecodeFrame, HC.Sound, HS.Coded;
    H1.FrameRoundTrip(lens, xs, [], |xs|);
    assert H1.Frame(lens, xs) + [] == H1.Frame(lens, xs);
  }

  lemma HoldsHuf4(lens: seq<nat>, xs: seq<byte>)
    requires HT.Nibbles(lens) && HC.Sound(lens) && HS.Coded(lens, xs) && 4 <= |xs| < L.DEEP_TOTAL
    ensures Holds(HUF4, H4.Frame4(lens, xs), xs)
  {
    hide H4.DecodeFrame4, HC.Sound, HS.Coded;
    H4.Frame4RoundTrip(lens, xs, |xs|);
  }

  lemma HoldsRaw(xs: seq<byte>)
    ensures Holds(RAW, xs, xs)
  {
    assert xs[..|xs|] == xs;
  }
}
