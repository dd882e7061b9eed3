/** XXH64: hashing at once and hashing piece by piece. */
module Xxh64 {
  import opened Arithmetic
  import opened Bits
  import opened LittleEndian

  // ---------------------------------------------------------------- 64-bit arithmetic

  type u64 = x: int | 0 <= x < 0x1_0000_0000_0000_0000

  const P1: u64 := 0x9E37_79B1_85EB_CA87
  const P2: u64 := 0xC2B2_AE3D_27D4_EB4F
  const P3: u64 := 0x1656_67B1_9E37_79F9
  const P4: u64 := 0x85EB_CA77_C2B2_AE63
  const P5: u64 := 0x27D4_EB2F_1656_67C5

  function Plus(a: u64, b: u64): (c: u64) { (a + b) as int % WORD64 }

  function Less(a: u64, b: u64): (c: u64) { (a - b) as int % WORD64 }

  function Mul(a: u64, b: u64): (c: u64) { (a as int * b as int) % WORD64 }

  /** Exclusive or of the low n bits. */
  function XorBits(a: nat, b: nat, n: nat): (c: nat)
    ensures c < Pow2(n)
  {
    if n == 0 then 0 else (a + b) % 2 + 2 * XorBits(a / 2, b / 2, n - 1)
  }

  function Xor(a: u64, b: u64): (c: u64) {
    Powers();
    XorBits(a, b, 64)
  }

  function Rotate(x: u64, r: nat): (c: u64)
    requires 0 < r < 64
  {
    (Times(x, Pow2(r)) % WORD64 + Over(x, Pow2(64 - r))) % WORD64
  }

  function ShiftRight(x: u64, r: nat): (c: u64) {
    OverBound(x, Pow2(r));
    Over(x, Pow2(r))
  }

  lemma OverBound(x: nat, d: nat)
    requires d >= 1
    ensures Over(x, d) <= x
  {
    if x / d > x {
      MulAtLeast(x / d - x, d);
      MulMonotone(d, x + 1, x / d);
    }
  }

  /** A little-endian load of eight bytes. */
  function Load64(s: seq<byte>): (k: u64)
    requires |s| == 8
  {
    NumBound(s);
    Powers();
    Num(s)
  }

  // ---------------------------------------------------------------- the parts of the hash

  function Round(acc: u64, input: u64): (r: u64) { Mul(Rotate(Plus(acc, Mul(input, P2)), 31), P1) }

  function MergeRound(acc: u64, val: u64): (r: u64) { Plus(Mul(Xor(acc, Round(0, val)), P1), P4) }

  function Avalanche(h: u64): (r: u64) {
    var a := Mul(Xor(h, ShiftRight(h, 33)), P2);
    var b := Mul(Xor(a, ShiftRight(a, 29)), P3);
    Xor(b, ShiftRight(b, 32))
  }

  /** The four accumulators. */
  datatype Acc = Acc(v1: u64, v2: u64, v3: u64, v4: u64)

  function Seeded(seed: u64): (a: Acc) { Acc(Plus(seed, Plus(P1, P2)), Plus(seed, P2), seed, Less(seed, P1)) }

  const STRIPE: nat := 32

  /** One stripe of 32 bytes. */
  function Stripe(a: Acc, s: seq<byte>): (b: Acc)
    requires |s| == STRIPE
  {
    Acc(Round(a.v1, Load64(s[..8])), Round(a.v2, Load64(s[8..16])), Round(a.v3, Load64(s[16..24])),
      Round(a.v4, Load64(s[24..])))
  }

  /** All whole stripes of s. */
  function Stripes(a: Acc, s: seq<byte>): (b: Acc)
    decreases |s|
  {
    if |s| < STRIPE then a else Stripes(Stripe(a, s[..STRIPE]), s[STRIPE..])
  }

  /** What is left behind the whole stripes. */
  function Rest(s: seq<byte>): (t: seq<byte>)
    ensures |t| < STRIPE
    decreases |s|
  {
    if |s| < STRIPE then s else Rest(s[STRIPE..])
  }

  function Merged(a: Acc): (h: u64) {
    MergeRound(MergeRound(MergeRound(MergeRound(
      Plus(Plus(Plus(Rotate(a.v1, 1), Rotate(a.v2, 7)), Rotate(a.v3, 12)), Rotate(a.v4, 18)), a.v1), a.v2), a.v3), a.v4)
  }

  /** The tail: eight bytes at a time, then four, then one. */
  function Tail(h: u64, s: seq<byte>): (r: u64)
    decreases |s|
  {
    if |s| >= 8 then Tail(Plus(Mul(Rotate(Xor(h, Round(0, Load64(s[..8]))), 27), P1), P4), s[8..])
    else if |s| >= 4 then Tail(Plus(Mul(Rotate(Xor(h, Mul(Word(s[0], s[1], s[2], s[3]), P1)), 23), P2), P3), s[4..])
    else if s != [] then Tail(Mul(Rotate(Xor(h, Mul(s[0], P5)), 11), P1), s[1..])
    else h
  }

  /** The hash from accumulators, the bytes not yet in them and the length. */
  function Finish(seed: u64, a: Acc, rest: seq<byte>, len: nat): (h: u64) {
    Avalanche(Tail(Plus(if len >= STRIPE then Merged(a) else Plus(seed, P5), len % WORD64), rest))
  }

  /** XXH64 of s. */
  function Hash(s: seq<byte>, seed: u64): (h: u64) { Finish(seed, Stripes(Seeded(seed), s), Rest(s), |s|) }

  // ---------------------------------------------------------------- splitting the input

  lemma {:induction false} StripesSplit(a: Acc, s: seq<byte>, t: seq<byte>)
    ensures Stripes(a, s + t) == Stripes(Stripes(a, s), Rest(s) + t) && Rest(s + t) == Rest(Rest(s) + t)
    decreases |s|
  {
    hide Stripe;
    if |s| >= STRIPE {
      assert (s + t)[..STRIPE] == s[..STRIPE] && (s + t)[STRIPE..] == s[STRIPE..] + t;
      StripesSplit(Stripe(a, s[..STRIPE]), s[STRIPE..], t);
    }
  }

  // ---------------------------------------------------------------- at once

  method Stripe4(a: Acc, data: seq<byte>, p: nat) returns (b: Acc)
    requires p + STRIPE <= |data|
    ensures b == Stripe(a, data[p..p + STRIPE])
  {
    hide Round, Load64;
    var s := data[p..p + STRIPE];
    assert s[..8] == data[p..p + 8] && s[8..16] == data[p + 8..p + 16];
    assert s[16..24] == data[p + 16..p + 24] && s[24..] == data[p + 24..p + 32];
    b := Acc(Round(a.v1, Load64(data[p..p + 8])), Round(a.v2, Load64(data[p + 8..p + 16])),
             Round(a.v3, Load64(data[p + 16..p + 24])), Round(a.v4, Load64(data[p + 24..p + 32])));
  }

  /** The loop over whole stripes, from p on. */
  method StripeLoop(a: Acc, data: seq<byte>, from: nat) returns (b: Acc, p: nat)
    requires from <= |data|
    ensures b == Stripes(a, data[from..]) && from <= p <= |data| && data[p..] == Rest(data[from..])
  {
    hide Stripe;
    b, p := a, from;
    while |data| - p >= STRIPE
      invariant from <= p <= |data|
      invariant Stripes(a, data[from..]) == Stripes(b, data[p..]) && Rest(data[from..]) == Rest(data[p..])
    {
      assert data[p..][..STRIPE] == data[p..p + STRIPE] && data[p..][STRIPE..] == data[p + STRIPE..];
      b := Stripe4(b, data, p);
      p := p + STRIPE;
    }
  }

  /** The tail loops. */
  method TailLoop(h0: u64, data: seq<byte>, from: nat) returns (h: u64)
    requires from <= |data|
    ensures h == Tail(h0, data[from..])
  {
    hide Plus, Mul, Xor, Rotate, Round, Load64, Word;
    var p := from;
    h := h0;
    while |data| - p >= 8
      invariant from <= p <= |data| && Tail(h0, data[from..]) == Tail(h, data[p..])
    {
      assert data[p..][..8] == data[p..p + 8] && data[p..][8..] == data[p + 8..];
      h := Plus(Mul(Rotate(Xor(h, Round(0, Load64(data[p..p + 8]))), 27), P1), P4);
      p := p + 8;
    }
    while |data| - p >= 4
      invariant from <= p <= |data| && |data| - p < 8 && Tail(h0, data[from..]) == Tail(h, data[p..])
    {
      assert data[p..][4..] == data[p + 4..];
      h := Plus(Mul(Rotate(Xor(h, Mul(Word(data[p], data[p + 1], data[p + 2], data[p + 3]), P1)), 23), P2), P3);
      p := p + 4;
    }
    while p < |data|
      invariant from <= p <= |data| && |data| - p < 4 && Tail(h0, data[from..]) == Tail(h, data[p..])
    {
      assert data[p..][1..] == data[p + 1..];
      h := Mul(Rotate(Xor(h, Mul(data[p], P5)), 11), P1);
      p := p + 1;
    }
  }

  /** vv_xxh64. */
  method HashAtOnce(data: seq<byte>, seed: u64) returns (h: u64)
    ensures h == Hash(data, seed)
  {
    hide Plus, Merged, Tail, Avalanche, Stripes, Rest, Seeded;
    if |data| == 0 {
      EmptyHash(seed);
      return Avalanche(Plus(seed, P5));
    }
    assert data[0..] == data;
    var p := 0;
    if |data| >= STRIPE {
      var a;
      a, p := StripeLoop(Seeded(seed), data, 0);
      h := Merged(a);
    } else {
      ShortRest(data);
      h := Plus(seed, P5);
    }
    h := TailLoop(Plus(h, |data| % WORD64), data, p);
    h := Avalanche(h);
  }

  lemma ShortRest(s: seq<byte>)
    requires |s| < STRIPE
    ensures Rest(s) == s
  {
  }

  lemma EmptyHash(seed: u64)
    ensures Hash([], seed) == Avalanche(Plus(seed, P5))
  {
    hide Avalanche, Merged;
  }

  // ---------------------------------------------------------------- piece by piece

  /** vv_xxh64_state_t; Seen is all that was fed. */
  class State {
    var acc: Acc
    var total: nat
    const buf: array<byte>
    var len: nat
    const seed: u64
    ghost var seen: seq<byte>

    ghost predicate Valid()
      reads this, buf
    {
      buf.Length == STRIPE && len < STRIPE && total == |seen|
      && acc == Stripes(Seeded(seed), seen) && buf[..len] == Rest(seen)
    }

    /** vv_xxh64_init. */
    constructor (seed: u64)
      ensures Valid() && fresh(buf) && seen == [] && this.seed == seed
    {
      acc, total, len, seen := Seeded(seed), 0, 0, [];
      this.seed := seed;
      buf := new byte[STRIPE](_ => 0);
    }

    /** Completes the stripe held back, if there are bytes enough. */
    method TopUp(data: seq<byte>) returns (p: nat)
      requires buf.Length == STRIPE && 0 < len < STRIPE
      modifies this`len, this`acc, buf
      ensures var held := old(buf[..len]) + data;
              if |held| < STRIPE then len == |held| && buf[..len] == held && acc == old(acc)
              else len == 0 && p <= |data| && data[p..] == held[STRIPE..] && acc == Stripe(old(acc), held[..STRIPE])
    {
      hide Stripe;
      ghost var held := buf[..len] + data;
      p := Min(STRIPE - len, |data|);
      len := Append(buf, len, data[..p]);
      assert buf[..len] == held[..len];
      if len == STRIPE {
        acc := Stripe4(acc, buf[..], 0);
        assert buf[..] == buf[0..STRIPE] == held[..STRIPE];
        len := 0;
      }
    }

    /** vv_xxh64_update. */
    method Update(data: seq<byte>)
      requires Valid()
      modifies this, buf
      ensures Valid() && seen == old(seen) + data
    {
      hide Stripe, Seeded;
      seen := seen + data;
      if |data| == 0 {
        assert seen == old(seen);
        return;
      }
      StripesSplit(Seeded(seed), old(seen), data);
      total := total + |data|;
      var p := 0;
      if len > 0 {
        p := TopUp(data);
        if len > 0 {
          return;
        }
      } else {
        assert buf[..len] + data == data[0..];
      }
      acc, p := StripeLoop(acc, data, p);
      len := Append(buf, 0, data[p..]);
    }

    /** vv_xxh64_finalize: the hash of all that was fed. */
    method Finalize() returns (h: u64)
      requires Valid()
      ensures h == Hash(seen, seed)
    {
      hide Plus, Merged, Tail, Avalanche, Stripes, Rest, Seeded;
      h := Plus(if total >= STRIPE then Merged(acc) else Plus(seed, P5), total % WORD64);
      assert buf[..len][0..] == buf[..len];
      h := TailLoop(h, buf[..len], 0);
      h := Avalanche(h);
    }
  }
}
