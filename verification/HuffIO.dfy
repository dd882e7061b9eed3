/** The bit writer with its sticky overflow, and the bit reader, of the Huffman coder. */
module HuffIO {
  import opened LittleEndian
  import opened Bits
  import opened BitIO

  /** bw_t: writes to b[start..end]; a holds n pending bits and b[start..p] is written. */
  class HuffWriter {
    var a: nat
    var n: nat
    const b: array<byte>
    const start: nat
    const end: nat
    var p: nat
    var overflow: bool

    ghost predicate Valid()
      reads this, b
    {
      start <= p <= end <= b.Length && (!overflow ==> n < 8 && a < Pow2(n))
    }

    ghost function Bits(): (r: nat)
      reads this, b
      requires Valid()
    {
      8 * (p - start) + n
    }

    ghost function Value(): (v: nat)
      reads this, b
      requires Valid()
    {
      Num(b[start..p]) + Pow2(8 * (p - start)) * a
    }

    constructor (dst: array<byte>, from: nat)
      requires from <= dst.Length
      ensures Valid() && b == dst && start == from && end == dst.Length && p == from
      ensures !overflow && Bits() == 0 && Value() == 0
    {
      a, n, b, start, end, p, overflow := 0, 0, dst, from, dst.Length, from, false;
    }

    /** Moves the low byte of the accumulator out. */
    method Emit()
      requires start <= p < end <= b.Length && a < Pow2(n) && n > 0
      modifies this`a, this`n, this`p, b
      ensures p == old(p) + 1 && n == (if old(n) < 8 then 0 else old(n) - 8) && a < Pow2(n)
      ensures Num(b[start..p]) + Pow2(8 * (p - start)) * a == old(Num(b[start..p]) + Pow2(8 * (p - start)) * a)
      ensures b[..start] == old(b[..start])
    {
      ghost var before, low, w := b[start..p], a % 0x100, Pow2(8 * (p - start));
      BitWriter.EmitBound(a, n);
      Pow2Eight(8 * (p - start));
      NumAppend(before, low);
      MoveByte(Num(before), w, a);
      b[p] := a % 0x100;
      assert b[start..p + 1] == before + [low];
      p, a, n := p + 1, a / 0x100, if n < 8 then 0 else n - 8;
    }

    /** bw_add: nb more bits, unless the bytes they complete do not fit. */
    method Add(v: nat, nb: nat)
      requires Valid() && v < Pow2(nb) && nb <= 15
      modifies this`a, this`n, this`p, this`overflow, b
      ensures Valid() && b[..start] == old(b[..start])
      ensures old(overflow) ==> overflow
      ensures !old(overflow) ==> (overflow <==> (old(Bits()) + nb) / 8 > end - start)
      ensures !overflow ==>
        !old(overflow) && Bits() == old(Bits()) + nb && Value() == old(Value()) + Pow2(old(Bits())) * v
    {
      if overflow {
        AddOverflowed();
      } else {
        Append(v, nb);
      }
    }

    /** The bits above those pending, and whole bytes out. */
    method Append(v: nat, nb: nat)
      requires Valid() && !overflow && v < Pow2(nb) && nb <= 15
      modifies this`a, this`n, this`p, this`overflow, b
      ensures Valid() && b[..start] == old(b[..start])
      ensures overflow <==> (old(Bits()) + nb) / 8 > end - start
      ensures !overflow ==> Bits() == old(Bits()) + nb && Value() == old(Value()) + Pow2(old(Bits())) * v
    {
      hide Num, Pow2;
      BitWriter.AddField(8 * (p - start), a, n, v, nb);
      a := a + Pow2(n) * v;
      n := n + nb;
      Drain();
    }

    /** After an overflow nothing more is written. */
    method AddOverflowed()
      requires Valid() && overflow
      modifies this`a, this`n
      ensures Valid()
    {
      a, n := 0, 0;
    }

    method Drain()
      requires start <= p <= end <= b.Length && a < Pow2(n) && !overflow
      modifies this`a, this`n, this`p, this`overflow, b
      ensures Valid() && b[..start] == old(b[..start])
      ensures overflow <==> old(8 * (p - start) + n) / 8 > end - start
      ensures !overflow ==> Bits() == old(8 * (p - start) + n)
      ensures !overflow ==> Value() == old(Num(b[start..p]) + Pow2(8 * (p - start)) * a)
    {
      hide Num, Pow2;
      while n >= 8
        invariant start <= p <= end && !overflow && a < Pow2(n) && b[..start] == old(b[..start])
        invariant 8 * (p - start) + n == old(8 * (p - start) + n)
        invariant Num(b[start..p]) + Pow2(8 * (p - start)) * a == old(Num(b[start..p]) + Pow2(8 * (p - start)) * a)
      {
        if p == end {
          overflow, a, n := true, 0, 0;
          return;
        }
        Emit();
      }
    }

    /** bw_flush: the end of the stream, or failure when it does not fit. */
    method Flush() returns (ok: bool)
      requires Valid()
      modifies this`a, this`n, this`p, b
      ensures start <= p <= end && b[..start] == old(b[..start])
      ensures old(overflow) ==> !ok
      ensures !old(overflow) ==> (ok <==> WholeBytes(old(Bits())) <= end - start)
      ensures ok ==> p - start == WholeBytes(old(Bits())) && Num(b[start..p]) == old(Value())
    {
      if overflow {
        return false;
      }
      while n > 0 && p < end
        invariant start <= p <= end && a < Pow2(n) && b[..start] == old(b[..start])
        invariant 8 * (p - start) + n >= old(Bits()) > 8 * (p - start) + n - 8 || 8 * (p - start) + n == old(Bits())
        invariant n > 0 ==> 8 * (p - start) + n == old(Bits())
        invariant Num(b[start..p]) + Pow2(8 * (p - start)) * a == old(Value())
      {
        Emit();
      }
      return n == 0;
    }
  }

  /** br_t over s: a holds n loaded bits, s[..p] is loaded. */
  class HuffReader {
    var a: nat
    var n: nat
    const s: seq<byte>
    var p: nat

    ghost predicate Valid()
      reads this
    {
      p <= |s| && n <= 64 && a < Pow2(n) && (p + 8 <= |s| ==> n <= 63)
    }

    /** The number whose bits are still to be read. */
    ghost function Rest(): (v: nat)
      reads this
      requires Valid()
    {
      a + Pow2(n) * Num(s[p..])
    }

    /** How many bits are still to be read. */
    ghost function Left(): (k: nat)
      reads this
      requires Valid()
    {
      n + 8 * (|s| - p)
    }

    constructor (src: seq<byte>)
      ensures Valid() && s == src && Rest() == Num(src) && Left() == 8 * |src|
      ensures p == 0 && n == 0
    {
      a, n, s, p := 0, 0, src, 0;
      new;
      assert s[0..] == s;
    }

    /** The eight-byte load, of which the whole bytes that fit are kept. */
    method RefillBulk()
      requires Valid() && p + 8 <= |s|
      modifies this
      ensures Valid() && Rest() == old(Rest()) && Left() == old(Left()) && n >= 56
    {
      hide Num, Pow2;
      var k := (63 - n) / 8;
      var low := Num(s[p..p + 8]) % Pow2(8 * k);
      BitReader.LoadBytes(s, p, k);
      BitReader.LoadAbove(a, n, s, p, k);
      a, p, n := a + Pow2(n) * low, p + k, n + 8 * k;
    }

    method RefillByte()
      requires Valid() && n <= 56 && p < |s| < p + 8
      modifies this
      ensures Valid() && Rest() == old(Rest()) && Left() == old(Left()) && p == old(p) + 1 && n == old(n) + 8
    {
      hide Pow2;
      BitReader.LoadAbove(a, n, s, p, 1);
      assert s[p..p + 1] == [s[p]];
      assert [s[p]][1..] == [];
      assert Num([s[p]]) == s[p];
      a, p, n := a + Pow2(n) * s[p], p + 1, n + 8;
    }

    /** br_refill: afterwards at least 56 bits are loaded, or everything is. */
    method Refill()
      requires Valid()
      modifies this
      ensures Valid() && Rest() == old(Rest()) && Left() == old(Left())
      ensures n >= 56 || p == |s|
    {
      if p + 8 <= |s| {
        RefillBulk();
      } else {
        while n <= 56 && p < |s|
          invariant Valid() && |s| < p + 8 && Rest() == old(Rest()) && Left() == old(Left())
        {
          RefillByte();
        }
      }
    }

    /** br_consume. */
    method Consume(k: nat)
      requires Valid() && k <= n
      modifies this
      ensures Valid() && Rest() == old(Rest()) / Pow2(k) && Left() == old(Left()) - k && p == old(p) && n == old(n) - k
    {
      hide Num, Pow2;
      BitReader.TakeArith(a, n, k, Num(s[p..]));
      a, n := a / Pow2(k), n - k;
    }

    /** Loaded bits are the low bits of what is to be read. */
    lemma Loaded(k: nat)
      requires Valid() && (k <= n || p == |s|)
      ensures a % Pow2(k) == Rest() % Pow2(k)
    {
      if k <= n {
        BitReader.TakeArith(a, n, k, Num(s[p..]));
      } else {
        assert s[p..] == [];
        assert Num([]) == 0;
      }
    }
  }
}
