/** zupt_lzh's bit writer, which drops what its buffer cannot hold, and its bit reader. */
module LzhBits {
  import opened Arithmetic
  import opened LittleEndian
  import opened Bits
  import opened BitIO

  // ---------------------------------------------------------------- the bytes of a number

  /** Fewer bytes of a number are the first of more. */
  lemma {:induction false} ToBytesPrefix(v: nat, k: nat, n: nat)
    requires k <= n
    ensures ToBytes(v, n)[..k] == ToBytes(v, k)
  {
    if k > 0 {
      ToBytesPrefix(v / 0x100, k - 1, n - 1);
    }
  }

  /** What lies above does not change the low bytes. */
  lemma {:induction false} LowBytes(s: seq<byte>, high: nat)
    ensures ToBytes(Num(s) + Pow2(8 * |s|) * high, |s|) == s
  {
    if s != [] {
      var t := s[1..];
      LowBytes(t, high);
      Pow2Eight(8 * |t|);
      Associate(0x100, Pow2(8 * |t|), high);
      DivModUnique(Num(s) + Pow2(8 * |s|) * high, 0x100, Num(t) + Pow2(8 * |t|) * high, s[0]);
    }
  }

  // ---------------------------------------------------------------- writing

  /** bitwr_t: writes to buf[from..]; acc holds nb pending bits, eight or more only when the buffer is full. The
      accumulator is not limited to 64 bits: what is pending then is never written. */
  class Writer {
    var acc: nat
    var nb: nat
    const buf: array<byte>
    const from: nat
    var pos: nat

    ghost predicate Valid()
      reads this, buf
    {
      from <= pos <= buf.Length && acc < Pow2(nb) && (nb >= 8 ==> pos == buf.Length)
    }

    ghost function Bits(): (r: nat)
      reads this, buf
      requires Valid()
    {
      8 * (pos - from) + nb
    }

    ghost function Value(): (v: nat)
      reads this, buf
      requires Valid()
    {
      Num(buf[from..pos]) + Pow2(8 * (pos - from)) * acc
    }

    constructor (dst: array<byte>, at: nat)
      requires at <= dst.Length
      ensures Valid() && buf == dst && from == at == pos && Bits() == 0 && Value() == 0
    {
      acc, nb, buf, from, pos := 0, 0, dst, at, at;
    }

    /** Moves the low byte of the accumulator out. */
    method Emit()
      requires from <= pos < buf.Length && acc < Pow2(nb) && nb > 0
      modifies this`acc, this`nb, this`pos, buf
      ensures pos == old(pos) + 1 && nb == (if old(nb) < 8 then 0 else old(nb) - 8) && acc < Pow2(nb)
      ensures Num(buf[from..pos]) + Pow2(8 * (pos - from)) * acc
              == old(Num(buf[from..pos]) + Pow2(8 * (pos - from)) * acc)
      ensures buf[..from] == old(buf[..from])
    {
      ghost var before, low, w := buf[from..pos], acc % 0x100, Pow2(8 * (pos - from));
      BitWriter.EmitBound(acc, nb);
      Pow2Eight(8 * (pos - from));
      NumAppend(before, low);
      MoveByte(Num(before), w, acc);
      buf[pos] := acc % 0x100;
      assert buf[from..pos + 1] == before + [low];
      pos, acc, nb := pos + 1, acc / 0x100, if nb < 8 then 0 else nb - 8;
    }

    /** bw_put. */
    method Put(v: nat, n: nat)
      requires Valid() && v < Pow2(n)
      modifies this`acc, this`nb, this`pos, buf
      ensures Valid() && buf[..from] == old(buf[..from])
      ensures Bits() == old(Bits()) + n && Value() == old(Value()) + Pow2(old(Bits())) * v
    {
      hide Num, Pow2;
      BitWriter.AddField(8 * (pos - from), acc, nb, v, n);
      acc := acc + Pow2(nb) * v;
      nb := nb + n;
      while nb >= 8 && pos < buf.Length
        invariant from <= pos <= buf.Length && acc < Pow2(nb) && buf[..from] == old(buf[..from])
        invariant 8 * (pos - from) + nb == old(Bits()) + n
        invariant Num(buf[from..pos]) + Pow2(8 * (pos - from)) * acc == old(Value()) + Pow2(old(Bits())) * v
      {
        Emit();
      }
    }

    /** bw_flush: as many bytes of the stream as there is room for. */
    method Flush()
      requires Valid()
      modifies this`acc, this`nb, this`pos, buf
      ensures from <= pos <= buf.Length && buf[..from] == old(buf[..from])
      ensures pos - from == Min(WholeBytes(old(Bits())), buf.Length - from)
      ensures buf[from..pos] == ToBytes(old(Value()), pos - from)
    {
      hide Num, Pow2;
      while nb > 0 && pos < buf.Length
        invariant from <= pos <= buf.Length && acc < Pow2(nb) && buf[..from] == old(buf[..from])
        invariant nb > 0 || 8 * (pos - from) < old(Bits()) + 8
        invariant 8 * (pos - from) + nb == old(Bits()) || (nb == 0 && 8 * (pos - from) > old(Bits()))
        invariant Num(buf[from..pos]) + Pow2(8 * (pos - from)) * acc == old(Value())
      {
        Emit();
      }
      LowBytes(buf[from..pos], acc);
    }
  }

  // ---------------------------------------------------------------- reading

  /** br_peek: bitrd_t has the fields of the entropy coder's reader and loads byte by byte. */
  method Peek(r: BitReader, n: nat) returns (v: nat)
    requires r.Valid() && n <= 18
    modifies r
    ensures r.Valid() && r.Rest() == old(r.Rest()) && v == r.Rest() % Pow2(n) && (r.n >= n || r.p == |r.s|)
  {
    hide Num, Pow2;
    while r.n < n && r.p < |r.s|
      invariant r.Valid() && r.Rest() == old(r.Rest())
      decreases |r.s| - r.p
    {
      r.FillByte();
    }
    if r.n < n {
      assert r.s[r.p..] == [];
    }
    BitReader.TakeBoth(r.a, r.n, n, r.s[r.p..]);
    v := r.a % Pow2(n);
  }

  /** br_get. */
  method Get(r: BitReader, n: nat) returns (v: nat)
    requires r.Valid() && n <= 18
    modifies r
    ensures r.Valid() && v == old(r.Rest()) % Pow2(n) && r.Rest() == old(r.Rest()) / Pow2(n)
  {
    hide Num, Pow2;
    v := Peek(r, n);
    var taken := r.Take(n);
  }
}
