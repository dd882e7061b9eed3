/** One tANS stream: what encoding backward produces and what decoding forward reads. */
module AnsStream {
  import opened LittleEndian
  import opened Bits
  import opened AnsTable

  // ---------------------------------------------------------------- decoding

  /** A decoder's state and the number whose bits it has still to read. */
  datatype Cursor = Cursor(state: nat, rest: nat)

  function SymbolAt(norm: seq<nat>, state: nat): (b: byte)
    requires IsTable(norm) && state < ANS_L
  {
    DecEntry(norm, state).symbol
  }

  /** One decode step after the symbol is taken. */
  function Next(norm: seq<nat>, c: Cursor): (d: Cursor)
    requires IsTable(norm) && c.state < ANS_L
    ensures d.state < ANS_L
  {
    var e := DecEntry(norm, c.state);
    StateBound(norm, c.state, c.rest % Pow2(e.nbits));
    Cursor(e.baseline + c.rest % Pow2(e.nbits), Over(c.rest, Pow2(e.nbits)))
  }

  /** In a normalised table every step stays among the states. */
  lemma StateBound(norm: seq<nat>, x: nat, bits: nat)
    requires IsTable(norm) && x < ANS_L && bits < Pow2(DecEntry(norm, x).nbits)
    ensures DecEntry(norm, x).baseline + bits < ANS_L
  {
    var sp := Spread(norm);
    OccBelow(norm, x);
    if norm[sp[x]] < ANS_L {
      WindowInside(norm[sp[x]], Occ(sp, sp[x], x));
    }
  }

  function After(norm: seq<nat>, c: Cursor, k: nat): (d: Cursor)
    requires IsTable(norm) && c.state < ANS_L
    ensures d.state < ANS_L
  {
    if k == 0 then c else Next(norm, After(norm, c, k - 1))
  }

  /** The n symbols a decoder reads from c on. */
  function Decoded(norm: seq<nat>, c: Cursor, n: nat): (xs: seq<byte>)
    requires IsTable(norm) && c.state < ANS_L
    ensures |xs| == n && forall k :: 0 <= k < n ==> xs[k] == SymbolAt(norm, After(norm, c, k).state)
  {
    seq(n, k requires 0 <= k => SymbolAt(norm, After(norm, c, k).state))
  }

  // ---------------------------------------------------------------- encoding

  /** Every symbol has a frequency. */
  predicate Covered(norm: seq<nat>, xs: seq<byte>)
    requires |norm| == NSYM
  {
    forall i :: 0 <= i < |xs| ==> norm[xs[i]] > 0
  }

  /** The encoder state after xs has been encoded, last symbol first. */
  function FinalState(norm: seq<nat>, xs: seq<byte>): (y: nat)
    requires IsTable(norm) && Covered(norm, xs)
    ensures y < ANS_L && forall s :: 0 <= s < NSYM && norm[s] == ANS_L ==> y == 0
  {
    if xs == [] then 0
    else
      assert forall s :: 0 <= s < NSYM && norm[s] == ANS_L ==> s == xs[0] by {
        OnlyOne(norm, xs[0]);
      }
      EncSlot(norm, FinalState(norm, xs[1..]), xs[0])
  }

  lemma OnlyOne(norm: seq<nat>, s: nat)
    requires IsTable(norm) && s < NSYM && norm[s] > 0
    ensures forall t :: 0 <= t < NSYM && norm[t] == ANS_L ==> t == s
  {
    forall t | 0 <= t < NSYM && norm[t] == ANS_L ensures t == s {
      if t < s {
        CumMonotone(norm, t + 1, s);
        FreqBound(norm, s);
      } else if s < t {
        CumMonotone(norm, s + 1, t);
        FreqBound(norm, t);
      }
    }
  }

  /** The bit fields emitted, in the order a decoder reads them. */
  function Emitted(norm: seq<nat>, xs: seq<byte>): (fs: seq<Field>)
    requires IsTable(norm) && Covered(norm, xs)
    ensures |fs| == |xs|
  {
    if xs == [] then []
    else [EncField(norm, FinalState(norm, xs[1..]), xs[0])] + Emitted(norm, xs[1..])
  }

  lemma {:induction false} EmittedBits(norm: seq<nat>, xs: seq<byte>)
    requires IsTable(norm) && Covered(norm, xs)
    ensures FieldsOk(Emitted(norm, xs)) && StreamBits(Emitted(norm, xs)) <= 12 * |xs|
    ensures forall f :: f in Emitted(norm, xs) ==> f.nb <= 12
  {
    if xs != [] {
      EmittedBits(norm, xs[1..]);
      DecodeUndoesEncode(norm, FinalState(norm, xs[1..]), xs[0]);
      assert Emitted(norm, xs)[1..] == Emitted(norm, xs[1..]);
    }
  }

  /** The cursor from which xs will be read, with tail bits above the stream. */
  function Start(norm: seq<nat>, xs: seq<byte>, tail: nat): (c: Cursor)
    requires IsTable(norm) && Covered(norm, xs)
  {
    var fs := Emitted(norm, xs);
    Cursor(FinalState(norm, xs), StreamNum(fs) + Times(Pow2(StreamBits(fs)), tail))
  }

  /** One step at a slot whose bits are the lowest of v. */
  lemma NextOf(norm: seq<nat>, slot: nat, f: Field, v: nat, rest: nat)
    requires IsTable(norm) && slot < ANS_L && f.val < Pow2(f.nb) && v == f.val + Pow2(f.nb) * rest
    requires DecEntry(norm, slot).nbits == f.nb
    ensures Next(norm, Cursor(slot, v)) == Cursor(DecEntry(norm, slot).baseline + f.val, rest)
  {
    TakeField(v, f, rest);
  }

  lemma EncodeUnfold(norm: seq<nat>, xs: seq<byte>)
    requires IsTable(norm) && Covered(norm, xs) && xs != []
    ensures var y := FinalState(norm, xs[1..]);
            && Encodable(norm, y, xs[0])
            && FinalState(norm, xs) == EncSlot(norm, y, xs[0])
            && Emitted(norm, xs) == [EncField(norm, y, xs[0])] + Emitted(norm, xs[1..])
  {
  }

  /** Reading one symbol of an encoded stream leaves the encoding of the rest. */
  lemma ReadOne(norm: seq<nat>, xs: seq<byte>, tail: nat)
    requires IsTable(norm) && Covered(norm, xs) && xs != []
    ensures SymbolAt(norm, FinalState(norm, xs)) == xs[0]
    ensures Next(norm, Start(norm, xs, tail)) == Start(norm, xs[1..], tail)
  {
    hide DecEntry, EncSlot, EncField, FinalState, Emitted, Next, StreamNum, StreamBits, Pow2;
    EncodeUnfold(norm, xs);
    var y := FinalState(norm, xs[1..]);
    var fs := Emitted(norm, xs);
    assert fs[1..] == Emitted(norm, xs[1..]);
    DecodeUndoesEncode(norm, y, xs[0]);
    StreamTail(fs, tail);
    NextOf(norm, EncSlot(norm, y, xs[0]), fs[0], Start(norm, xs, tail).rest, Start(norm, xs[1..], tail).rest);
  }

  lemma {:induction false} ReadMany(norm: seq<nat>, xs: seq<byte>, tail: nat, k: nat)
    requires IsTable(norm) && Covered(norm, xs) && k <= |xs|
    ensures After(norm, Start(norm, xs, tail), k) == Start(norm, xs[k..], tail)
  {
    if k == 0 {
      assert xs[0..] == xs;
    } else {
      ReadMany(norm, xs, tail, k - 1);
      ReadOne(norm, xs[k - 1..], tail);
      assert xs[k - 1..][1..] == xs[k..];
    }
  }

  /** Decoding forward what was encoded backward: the symbols come back, and the bits are used up exactly. */
  lemma StreamRoundTrip(norm: seq<nat>, xs: seq<byte>, tail: nat)
    requires IsTable(norm) && Covered(norm, xs)
    ensures Decoded(norm, Start(norm, xs, tail), |xs|) == xs
    ensures After(norm, Start(norm, xs, tail), |xs|) == Cursor(0, tail)
  {
    var c := Start(norm, xs, tail);
    forall k | 0 <= k < |xs| ensures Decoded(norm, c, |xs|)[k] == xs[k] {
      ReadMany(norm, xs, tail, k);
      ReadOne(norm, xs[k..], tail);
    }
    ReadMany(norm, xs, tail, |xs|);
    assert xs[|xs|..] == [];
  }
}
