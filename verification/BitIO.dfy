/** The LSB-first bit writer and reader with their 64-bit accumulators. */
module BitIO {
  import opened Arithmetic
  import opened LittleEndian
  import opened Bits

  /** ans_bw_t: a holds n pending bits, b[..p] is written. */
  class BitWriter {
    var a: nat
    var n: int
    var b: array<byte>
    var p: nat

    /** Between additions fewer than eight bits are pending, so a 31-bit field fits in 64 bits. */
    ghost predicate Valid()
      reads this, b
    {
      p <= b.Length && 0 <= n < 8 && a < Pow2(n)
    }

    ghost function Bits(): (r: nat)
      reads this, b
      requires Valid()
    {
      8 * p + n
    }

    ghost function Value(): (v: nat)
      reads this, b
      requires Valid()
    {
      Num(b[..p]) + Pow2(8 * p) * a
    }

    constructor (buffer: array<byte>)
      ensures Valid() && b == buffer && Bits() == 0 && Value() == 0
    {
      a, n, b, p := 0, 0, buffer, 0;
    }

    /** Moves the low byte of the accumulator out. */
    method Emit()
      requires p < b.Length && 0 <= n && a < Pow2(n)
      modifies this, b
      ensures b == old(b) && p == old(p) + 1 && n == old(n) - 8
      ensures n >= 0 ==> a < Pow2(n)
      ensures n < 0 ==> a == 0
      ensures Num(b[..p]) + Pow2(8 * p) * a == old(Num(b[..p]) + Pow2(8 * p) * a)
    {
      ghost var before, low, w := b[..p], a % 0x100, Pow2(8 * p);
      EmitBound(a, n);
      Pow2Eight(8 * p);
      NumAppend(before, low);
      MoveByte(Num(before), w, a);
      b[p] := a % 0x100;
      assert b[..p + 1] == before + [low];
      p, a, n := p + 1, a / 0x100, n - 8;
    }

    static lemma EmitBound(a: nat, n: nat)
      requires a < Pow2(n)
      ensures n >= 8 ==> a / 0x100 < Pow2(n - 8)
      ensures n < 8 ==> a / 0x100 == 0
    {
      if n < 8 {
        Pow2Monotone(n, 8);
        assert Pow2(8) == 0x100;
      } else {
        Pow2Eight(n - 8);
      }
    }

    /** ans_bw_add: the low nb bits of v, above the bits already there. */
    method Add(v: nat, nb: nat)
      requires Valid() && nb <= 31 && Bits() + nb <= 8 * b.Length
      modifies this, b
      ensures Valid() && b == old(b) && Bits() == old(Bits()) + nb
      ensures Value() == old(Value()) + Pow2(old(Bits())) * (v % Pow2(nb))
    {
      hide Num, Pow2;
      if nb == 0 {
        NoBits(v);
        return;
      }
      ghost var field := v % Pow2(nb);
      AddField(8 * p, a, n, field, nb);
      a := a + Pow2(n) * (v % Pow2(nb));
      n := n + nb;
      Drain();
    }

    static lemma NoBits(v: nat)
      ensures v % Pow2(0) == 0
    {
    }

    /** Moves whole bytes out until fewer than eight bits are pending. */
    method Drain()
      requires p <= b.Length && 0 <= n && 8 * p + n <= 8 * b.Length && a < Pow2(n)
      modifies this, b
      ensures Valid() && b == old(b) && Bits() == old(8 * p + n)
      ensures Value() == old(Num(b[..p]) + Pow2(8 * p) * a)
    {
      hide Num, Pow2;
      while n >= 8 && p < b.Length
        invariant b == old(b) && p <= b.Length && n >= 0 && 8 * p + n == old(8 * p + n) && a < Pow2(n)
        invariant Num(b[..p]) + Pow2(8 * p) * a == old(Num(b[..p]) + Pow2(8 * p) * a)
      {
        Emit();
      }
    }

    static lemma AddField(written: nat, a: nat, n: nat, field: nat, nb: nat)
      requires a < Pow2(n) && field < Pow2(nb)
      ensures a + Pow2(n) * field < Pow2(n + nb)
      ensures Pow2(written) * (a + Pow2(n) * field) == Pow2(written) * a + Pow2(written + n) * field
    {
      AboveBound(a, n, field, nb);
      Pow2Add(written, n);
      PlaceField(Pow2(written), a, Pow2(n), field);
    }

    static lemma PlaceField(w: int, a: int, high: int, field: int)
      ensures w * (a + high * field) == w * a + w * high * field
    {
      Distribute(w, a, high * field);
      Associate(w, high, field);
    }

    static lemma AboveBound(a: nat, n: nat, field: nat, nb: nat)
      requires a < Pow2(n) && field < Pow2(nb)
      ensures a + Pow2(n) * field < Pow2(n + nb)
    {
      Pow2Add(n, nb);
      var w := Pow2(n);
      assert w * (field + 1) <= w * Pow2(nb) by {
        Distribute(w, field + 1, Pow2(nb) - field - 1);
      }
      Distribute(w, field, 1);
    }

    /** ans_bw_flush: the bytes that hold all bits written. */
    method Flush() returns (len: nat)
      requires Valid() && Bits() <= 8 * b.Length
      modifies this, b
      ensures b == old(b) && len == WholeBytes(old(Bits())) <= b.Length
      ensures Num(b[..len]) == old(Value())
    {
      while n > 0 && p < b.Length
        invariant b == old(b) && p <= b.Length && 8 * p + n == old(Bits())
        invariant n >= 0 ==> a < Pow2(n)
        invariant n < 0 ==> a == 0 && n > -8
        invariant Num(b[..p]) + Pow2(8 * p) * a == old(Value())
      {
        Emit();
      }
      return p;
    }
  }

  /** ans_br_t over s: a holds n loaded bits, s[..p] is loaded. Past the end the bits read are zero. */
  class BitReader {
    var a: nat
    var n: int
    const s: seq<byte>
    var p: nat

    ghost predicate Valid()
      reads this
    {
      && p <= |s| && n <= 64
      && (n >= 0 ==> a < Pow2(n))
      && (n < 0 ==> a == 0 && p == |s|)
    }

    /** The number whose bits are still to be read. */
    ghost function Rest(): (v: nat)
      reads this
      requires Valid()
    {
      RestOf(a, n, s[p..])
    }

    static ghost function RestOf(a: nat, n: int, tail: seq<byte>): (v: nat) {
      if n < 0 then 0 else a + Pow2(n) * Num(tail)
    }

    constructor (src: seq<byte>)
      ensures Valid() && s == src && Rest() == Num(src) && p == 0 && n == 0
    {
      a, n, s, p := 0, 0, src, 0;
      new;
      assert s[0..] == s;
    }

    /** How many whole bytes one refill loads. */
    ghost function Room(): (k: nat)
      reads this
      requires Valid()
    {
      if n > 56 then 0 else if |s| - p < (64 - n) / 8 then |s| - p else (64 - n) / 8
    }

    /** The bulk refill: one eight-byte load, of which the whole bytes that fit are kept. */
    method FillBulk()
      requires Valid() && n <= 56 && p + 8 <= |s|
      modifies this
      ensures Valid() && Rest() == old(Rest())
      ensures p == old(p + Room()) && n == old(n) + 8 * old(Room()) && n >= 57
    {
      hide Num, Pow2;
      var k := (64 - n) / 8;
      var low := Num(s[p..p + 8]) % Pow2(8 * k);
      LoadBytes(s, p, k);
      LoadAbove(a, n, s, p, k);
      a, p, n := a + Pow2(n) * low, p + k, n + 8 * k;
    }

    /** Loads one more byte. */
    method FillByte()
      requires Valid() && n <= 56 && p < |s|
      modifies this
      ensures Valid() && Rest() == old(Rest()) && p == old(p) + 1 && n == old(n) + 8
    {
      hide Pow2;
      LoadAbove(a, n, s, p, 1);
      assert s[p..p + 1] == [s[p]];
      assert [s[p]][1..] == [];
      assert Num([s[p]]) == s[p];
      a, p, n := a + Pow2(n) * s[p], p + 1, n + 8;
    }

    /** ans_br_fill: the eight-byte load and the byte loop load the same bytes. */
    method Fill()
      requires Valid()
      modifies this
      ensures Valid() && Rest() == old(Rest())
      ensures p == old(p + Room()) && n == old(n) + 8 * old(Room())
      ensures n >= 57 || p == |s|
    {
      if n <= 56 {
        if p + 8 <= |s| {
          FillBulk();
        } else {
          while n <= 56 && p < |s|
            invariant Valid() && Rest() == old(Rest())
            invariant old(p) <= p && n == old(n) + 8 * (p - old(p)) && p - old(p) <= old(Room())
          {
            FillByte();
          }
        }
      }
    }

    /** Masking an eight-byte load leaves the number of its first k bytes. */
    static lemma LoadBytes(s: seq<byte>, p: nat, k: nat)
      requires p + 8 <= |s| && k <= 8
      ensures Num(s[p..p + 8]) % Pow2(8 * k) == Num(s[p..p + k])
    {
      hide Num, Pow2;
      var load := s[p..p + 8];
      NumSplit(load, k);
      assert load[..k] == s[p..p + k];
      NumBound(load[..k]);
      DivModUnique(Num(load), Pow2(8 * k), Num(load[k..]), Num(load[..k]));
    }

    /** Loading k bytes above n bits. */
    static lemma LoadAbove(a: nat, n: nat, s: seq<byte>, p: nat, k: nat)
      requires a < Pow2(n) && p + k <= |s|
      ensures a + Pow2(n) * Num(s[p..p + k]) < Pow2(n + 8 * k)
      ensures a + Pow2(n) * Num(s[p..])
              == a + Pow2(n) * Num(s[p..p + k]) + Pow2(n + 8 * k) * Num(s[p + k..])
    {
      var low, rest := Num(s[p..p + k]), Num(s[p + k..]);
      NumBound(s[p..p + k]);
      BitWriter.AboveBound(a, n, low, 8 * k);
      NumSplit(s[p..], k);
      assert s[p..][..k] == s[p..p + k];
      assert s[p..][k..] == s[p + k..];
      Pow2Add(n, 8 * k);
      BitWriter.PlaceField(Pow2(n), low, Pow2(8 * k), rest);
    }

    /** Takes nb bits off the accumulator, which has them or is at the end of the input. */
    method Take(nb: nat) returns (v: nat)
      requires Valid() && (nb <= n || p == |s|)
      modifies this
      ensures Valid() && n == old(n) - nb && p == old(p)
      ensures v == old(Rest()) % Pow2(nb) && Rest() == old(Rest()) / Pow2(nb)
    {
      hide Num, Pow2, RestOf;
      TakeBoth(a, n, nb, s[p..]);
      v, a, n := a % Pow2(nb), a / Pow2(nb), n - nb;
    }

    static lemma TakeBoth(a: nat, n: int, nb: nat, tail: seq<byte>)
      requires (n >= 0 ==> a < Pow2(n)) && (n < 0 ==> a == 0) && (nb <= n || tail == [])
      ensures n >= nb ==> a / Pow2(nb) < Pow2(n - nb)
      ensures n < nb ==> a / Pow2(nb) == 0
      ensures a % Pow2(nb) == RestOf(a, n, tail) % Pow2(nb)
      ensures RestOf(a / Pow2(nb), n - nb, tail) == RestOf(a, n, tail) / Pow2(nb)
    {
      if n >= nb {
        TakeArith(a, n, nb, Num(tail));
      } else {
        TakeAll(a, n, nb, tail);
      }
    }

    static lemma TakeArith(a: nat, n: nat, nb: nat, rest: nat)
      requires nb <= n && a < Pow2(n)
      ensures (a + Pow2(n) * rest) % Pow2(nb) == a % Pow2(nb)
      ensures (a + Pow2(n) * rest) / Pow2(nb) == a / Pow2(nb) + Pow2(n - nb) * rest
      ensures a / Pow2(nb) < Pow2(n - nb)
    {
      var w, h := Pow2(nb), Pow2(n - nb);
      Pow2Add(nb, n - nb);
      Associate(w, h, rest);
      DivModAdd(a, h * rest, w);
      QuotientBound(a, w, h);
    }

    /** At the end of the input, asking for more bits than are loaded. */
    static lemma TakeAll(a: nat, n: int, nb: nat, tail: seq<byte>)
      requires n < nb && tail == [] && (n >= 0 ==> a < Pow2(n)) && (n < 0 ==> a == 0)
      ensures Num(tail) == 0 && a / Pow2(nb) == 0 && a % Pow2(nb) == a
      ensures n >= 0 ==> a + Pow2(n) * Num(tail) == a
    {
      if n >= 0 {
        Pow2Monotone(n, nb);
      }
      DivModUnique(a, Pow2(nb), 0, a);
    }

    /** ans_br_read: the next nb bits. */
    method Read(nb: nat) returns (v: nat)
      requires Valid() && nb <= 31
      modifies this
      ensures Valid()
      ensures v == old(Rest()) % Pow2(nb) && Rest() == old(Rest()) / Pow2(nb)
    {
      if nb == 0 {
        DivModUnique(Rest(), 1, Rest(), 0);
        return 0;
      }
      if n < nb {
        Fill();
      }
      v := Take(nb);
    }

    /** The bytes used up so far: loaded bytes less the whole bytes still in the accumulator. */
    method Used() returns (u: nat)
      requires Valid() && 8 * p - n >= 0
      ensures u == Min(|s|, WholeBytes(8 * p - n))
    {
      u := p;
      if n >= 8 {
        u := u - n / 8;
      }
    }
  }
}
