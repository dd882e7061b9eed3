/** Powers of two, little-endian numbers, and lists of bit fields as numbers. */
module Bits {
  import opened Arithmetic
  import opened LittleEndian

  function Pow2(n: nat): (p: nat)
    ensures p >= 1
  {
    if n == 0 then 1 else 2 * Pow2(n - 1)
  }

  lemma {:induction false} Pow2Add(m: nat, n: nat)
    ensures Pow2(m + n) == Pow2(m) * Pow2(n)
  {
    if m > 0 {
      Pow2Add(m - 1, n);
      assert Pow2(m + n) == 2 * Pow2(m - 1 + n);
    }
  }

  lemma {:induction false} Pow2Monotone(m: nat, n: nat)
    requires m <= n
    ensures Pow2(m) <= Pow2(n)
  {
    if m < n {
      Pow2Monotone(m, n - 1);
    }
  }

  lemma Pow2Eight(n: nat)
    ensures Pow2(n + 8) == 0x100 * Pow2(n)
  {
    assert Pow2(n + 8) == 2 * Pow2(n + 7) == 4 * Pow2(n + 6) == 8 * Pow2(n + 5) == 16 * Pow2(n + 4);
    assert Pow2(n + 4) == 2 * Pow2(n + 3) == 4 * Pow2(n + 2) == 8 * Pow2(n + 1) == 16 * Pow2(n);
  }

  const WORD64: nat := 0x1_0000_0000_0000_0000

  /** The powers that bound the fields of the formats. */
  lemma Powers()
    ensures Pow2(10) == 0x400 && Pow2(16) == 0x1_0000 && Pow2(24) == 0x100_0000
    ensures Pow2(32) == 0x1_0000_0000 && Pow2(64) == WORD64
  {
    assert Pow2(2) == 2 * Pow2(1) == 4 * Pow2(0) == 4;
    Pow2Eight(2);
    Pow2Eight(0);
    Pow2Eight(8);
    Pow2Eight(16);
    Pow2Eight(24);
    Pow2Eight(32);
    Pow2Eight(40);
    Pow2Eight(48);
    Pow2Eight(56);
  }

  /** Bytes needed for n bits. */
  function WholeBytes(n: nat): (b: nat)
    ensures 8 * b - 7 <= n <= 8 * b
  {
    (n + 7) / 8
  }

  function Min(a: nat, b: nat): (m: nat) { if a <= b then a else b }

  /** floor(log2(v)), the ilog2 of the codec. */
  function Log2(v: nat): (r: nat)
    ensures v > 0 ==> Pow2(r) <= v < 2 * Pow2(r)
  {
    if v <= 1 then 0 else 1 + Log2(v / 2)
  }

  /** The low n bits of c in opposite order. */
  function Rev(c: nat, n: nat): (r: nat)
    ensures r < Pow2(n)
  {
    if n == 0 then 0 else c % 2 * Pow2(n - 1) + Rev(c / 2, n - 1)
  }

  // ---------------------------------------------------------------- bytes as a number

  /** The number whose base-256 digits are s, least significant first. */
  function Num(s: seq<byte>): (v: nat) {
    if s == [] then 0 else s[0] + 0x100 * Num(s[1..])
  }

  lemma {:induction false} NumBound(s: seq<byte>)
    ensures Num(s) < Pow2(8 * |s|)
  {
    if s != [] {
      NumBound(s[1..]);
      Pow2Eight(8 * |s[1..]|);
    }
  }

  lemma OneDigit(d: int, x: int, w: int, rest: int)
    ensures d + 0x100 * (x + w * rest) == d + 0x100 * x + 0x100 * w * rest
  {
    Associate(0x100, w, rest);
  }

  lemma {:induction false} NumSplit(s: seq<byte>, k: nat)
    requires k <= |s|
    ensures Num(s) == Num(s[..k]) + Pow2(8 * k) * Num(s[k..])
  {
    if k == 0 {
      assert s[0..] == s;
    } else {
      NumSplit(s[1..], k - 1);
      assert s[..k][1..] == s[1..][..k - 1];
      assert s[1..][k - 1..] == s[k..];
      hide Pow2;
      Pow2Eight(8 * (k - 1));
      OneDigit(s[0], Num(s[..k][1..]), Pow2(8 * (k - 1)), Num(s[k..]));
    }
  }

  /** Moving the low byte of the high part of a number down does not change the number. */
  lemma MoveByte(x: int, w: int, a: int)
    ensures x + w * a == x + w * (a % 0x100) + 0x100 * w * (a / 0x100)
  {
    Distribute(w, a % 0x100, 0x100 * (a / 0x100));
    Associate(w, 0x100, a / 0x100);
  }

  lemma NumAppend(s: seq<byte>, b: byte)
    ensures Num(s + [b]) == Num(s) + Pow2(8 * |s|) * b
  {
    NumSplit(s + [b], |s|);
    assert (s + [b])[..|s|] == s;
    assert (s + [b])[|s|..] == [b];
    assert [b][1..] == [];
    assert Num([b]) == b;
  }

  // ---------------------------------------------------------------- bit fields

  /** A value to be stored in nb bits. */
  datatype Field = Field(val: nat, nb: nat)

  predicate FieldOk(f: Field) { f.nb <= 31 && f.val < Pow2(f.nb) }

  predicate FieldsOk(fs: seq<Field>) { forall f :: f in fs ==> FieldOk(f) }

  /** The number made of the fields' bits, the first field lowest. */
  function StreamNum(fs: seq<Field>): (v: nat) {
    if fs == [] then 0 else fs[0].val + Pow2(fs[0].nb) * StreamNum(fs[1..])
  }

  function StreamBits(fs: seq<Field>): (n: nat) {
    if fs == [] then 0 else fs[0].nb + StreamBits(fs[1..])
  }

  lemma {:induction false} StreamAppend(fs: seq<Field>, f: Field)
    ensures StreamBits(fs + [f]) == StreamBits(fs) + f.nb
    ensures StreamNum(fs + [f]) == StreamNum(fs) + Pow2(StreamBits(fs)) * f.val
  {
    if fs == [] {
      assert fs + [f] == [f];
    } else {
      StreamAppend(fs[1..], f);
      assert (fs + [f])[1..] == fs[1..] + [f];
      Pow2Add(fs[0].nb, StreamBits(fs[1..]));
      var w, rest := Pow2(fs[0].nb), Pow2(StreamBits(fs[1..]));
      Distribute(w, StreamNum(fs[1..]), rest * f.val);
      Associate(w, rest, f.val);
    }
  }

  lemma {:induction false} StreamConcat(fs: seq<Field>, gs: seq<Field>)
    ensures StreamBits(fs + gs) == StreamBits(fs) + StreamBits(gs)
    ensures StreamNum(fs + gs) == StreamNum(fs) + Pow2(StreamBits(fs)) * StreamNum(gs)
  {
    if fs == [] {
      assert fs + gs == gs;
    } else {
      StreamConcat(fs[1..], gs);
      assert (fs + gs)[1..] == fs[1..] + gs;
      Pow2Add(fs[0].nb, StreamBits(fs[1..]));
      var w, rest := Pow2(fs[0].nb), Pow2(StreamBits(fs[1..]));
      Distribute(w, StreamNum(fs[1..]), rest * StreamNum(gs));
      Associate(w, rest, StreamNum(gs));
    }
  }

  /** Taking the first field off a stream number. */
  lemma TakeField(v: nat, f: Field, rest: nat)
    requires f.val < Pow2(f.nb) && v == f.val + Pow2(f.nb) * rest
    ensures v % Pow2(f.nb) == f.val && v / Pow2(f.nb) == rest
  {
    DivModUnique(v, Pow2(f.nb), rest, f.val);
  }

  /** a << log2(b). */
  function Times(a: nat, b: nat): (p: nat) { a * b }

  /** a >> log2(b). */
  function Over(a: nat, b: nat): (q: nat)
    requires b > 0
  {
    a / b
  }

  lemma StreamTail(fs: seq<Field>, tail: nat)
    requires fs != []
    ensures StreamNum(fs) + Times(Pow2(StreamBits(fs)), tail)
            == fs[0].val + Pow2(fs[0].nb) * (StreamNum(fs[1..]) + Times(Pow2(StreamBits(fs[1..])), tail))
  {
    Pow2Add(fs[0].nb, StreamBits(fs[1..]));
    Distribute(Pow2(fs[0].nb), StreamNum(fs[1..]), Times(Pow2(StreamBits(fs[1..])), tail));
    Associate(Pow2(fs[0].nb), Pow2(StreamBits(fs[1..])), tail);
  }

  // ---------------------------------------------------------------- the stream as bytes

  /** v in n base-256 digits. */
  function ToBytes(v: nat, n: nat): (s: seq<byte>)
    ensures |s| == n
  {
    if n == 0 then [] else [v % 0x100] + ToBytes(v / 0x100, n - 1)
  }

  lemma {:induction false} BytesUnique(s: seq<byte>)
    ensures s == ToBytes(Num(s), |s|)
  {
    if s != [] {
      BytesUnique(s[1..]);
      DivModUnique(Num(s), 0x100, Num(s[1..]), s[0]);
    }
  }

  lemma {:induction false} ToBytesNum(v: nat, n: nat)
    requires v < Pow2(8 * n)
    ensures Num(ToBytes(v, n)) == v
  {
    if n > 0 {
      Pow2Eight(8 * (n - 1));
      ToBytesNum(v / 0x100, n - 1);
      assert ToBytes(v, n)[1..] == ToBytes(v / 0x100, n - 1);
    }
  }

  /** The bytes of a bit stream, the last one filled up with zeros. */
  function StreamBytes(fs: seq<Field>): (s: seq<byte>)
    ensures |s| == WholeBytes(StreamBits(fs))
  {
    ToBytes(StreamNum(fs), WholeBytes(StreamBits(fs)))
  }

  lemma {:induction false} StreamBound(fs: seq<Field>)
    requires FieldsOk(fs)
    ensures StreamNum(fs) < Pow2(StreamBits(fs))
  {
    if fs != [] {
      assert forall f :: f in fs[1..] ==> f in fs;
      StreamBound(fs[1..]);
      assert FieldOk(fs[0]);
      Pow2Add(fs[0].nb, StreamBits(fs[1..]));
      var w := Pow2(fs[0].nb);
      MulMonotone(w, StreamNum(fs[1..]) + 1, Pow2(StreamBits(fs[1..])));
      Distribute(w, StreamNum(fs[1..]), 1);
    }
  }

  lemma StreamBytesNum(fs: seq<Field>)
    requires FieldsOk(fs)
    ensures Num(StreamBytes(fs)) == StreamNum(fs)
  {
    StreamBound(fs);
    Pow2Monotone(StreamBits(fs), 8 * (WholeBytes(StreamBits(fs))));
    ToBytesNum(StreamNum(fs), WholeBytes(StreamBits(fs)));
  }

  /** Bytes after the stream only add bits above it. */
  lemma StreamThenBytes(fs: seq<Field>, more: seq<byte>)
    requires FieldsOk(fs)
    ensures Num(StreamBytes(fs) + more)
            == StreamNum(fs)
              + Times(Pow2(StreamBits(fs)), Times(Pow2(8 * |StreamBytes(fs)| - StreamBits(fs)), Num(more)))
  {
    var s := StreamBytes(fs);
    StreamBytesNum(fs);
    NumSplit(s + more, |s|);
    assert (s + more)[..|s|] == s && (s + more)[|s|..] == more;
    Pow2Add(StreamBits(fs), 8 * |s| - StreamBits(fs));
    Associate(Pow2(StreamBits(fs)), Pow2(8 * |s| - StreamBits(fs)), Num(more));
  }
}
