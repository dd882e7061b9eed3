/** Codes for literal runs, match lengths and offsets, and the rep-offset history. */
module SeqCodes {
  import opened Arithmetic
  import opened Bits

  const CODES: nat := 36
  const OF_CODES: nat := 27

  /** The three code tables: literal runs, and match lengths of the two formats. */
  datatype Kind = LL | ML | MLV2

  function LlBase(c: nat): (b: nat)
    requires 16 <= c < CODES
  {
    match c
    case 16 => 16 case 17 => 18 case 18 => 20 case 19 => 24 case 20 => 28
    case 21 => 32 case 22 => 48 case 23 => 64 case 24 => 128 case 25 => 256
    case 26 => 512 case 27 => 1024 case 28 => 2048 case 29 => 4096 case 30 => 8192
    case 31 => 16384 case 32 => 32768 case 33 => 49152 case 34 => 57344 case _ => 61440
  }

  function LlExtra(c: nat): (nb: nat)
    requires 16 <= c < CODES
  {
    match c
    case 16 => 1 case 17 => 1 case 18 => 2 case 19 => 2 case 20 => 2
    case 21 => 4 case 22 => 4 case 23 => 6 case 24 => 7 case 25 => 8
    case 26 => 9 case 27 => 10 case 28 => 11 case 29 => 12 case 30 => 13
    case 31 => 14 case 32 => 14 case 33 => 13 case 34 => 12 case _ => 12
  }

  function MlBase(c: nat): (b: nat)
    requires 16 <= c < CODES
  {
    match c
    case 16 => 20 case 17 => 22 case 18 => 24 case 19 => 28 case 20 => 32
    case 21 => 40 case 22 => 48 case 23 => 64 case 24 => 96 case 25 => 128
    case 26 => 192 case 27 => 256 case 28 => 384 case 29 => 512 case 30 => 1024
    case 31 => 2048 case 32 => 4096 case 33 => 8192 case 34 => 16384 case _ => 32768
  }

  function MlExtra(c: nat): (nb: nat)
    requires 16 <= c < CODES
  {
    match c
    case 16 => 1 case 17 => 1 case 18 => 2 case 19 => 2 case 20 => 3
    case 21 => 3 case 22 => 4 case 23 => 5 case 24 => 5 case 25 => 6
    case 26 => 6 case 27 => 7 case 28 => 7 case 29 => 9 case 30 => 10
    case 31 => 11 case 32 => 12 case 33 => 13 case 34 => 14 case _ => 15
  }

  /** ll_base, ml_base and ml_base_v2: sixteen single lengths, then ranges. */
  function Base(k: Kind, c: nat): (b: nat)
    requires c < CODES
  {
    match k
    case LL => if c < 16 then c else LlBase(c)
    case ML => if c < 16 then 4 + c else MlBase(c)
    case MLV2 => if c < 16 then 3 + c else MlBase(c) - 1
  }

  /** ll_extra and ml_extra. */
  function Extra(k: Kind, c: nat): (nb: nat)
    requires c < CODES
    ensures nb <= 15
  {
    if c < 16 then 0 else if k == LL then LlExtra(c) else MlExtra(c)
  }

  /** Powers of two up to 2^15, written out. */
  function Width(nb: nat): (w: nat)
    requires nb <= 15
  {
    match nb
    case 0 => 1 case 1 => 2 case 2 => 4 case 3 => 8 case 4 => 16 case 5 => 32 case 6 => 64 case 7 => 128
    case 8 => 256 case 9 => 512 case 10 => 1024 case 11 => 2048 case 12 => 4096 case 13 => 8192
    case 14 => 16384 case _ => 32768
  }

  lemma {:induction false} WidthIsPow2(nb: nat)
    requires nb <= 15
    ensures Width(nb) == Pow2(nb)
  {
    if nb > 0 {
      WidthIsPow2(nb - 1);
    }
  }

  /** First length that no code of the table represents. */
  function Limit(k: Kind): (n: nat) { if k == MLV2 then 65535 else 65536 }

  function Next(k: Kind, c: nat): (b: nat)
    requires c < CODES
  {
    if c == CODES - 1 then Limit(k) else Base(k, c + 1)
  }

  lemma LlTile(c: nat)
    requires 16 <= c < CODES - 1
    ensures LlBase(c + 1) == LlBase(c) + Width(LlExtra(c))
  {
  }

  lemma MlTile(c: nat)
    requires 16 <= c < CODES - 1
    ensures MlBase(c + 1) == MlBase(c) + Width(MlExtra(c))
  {
  }

  /** The codes' ranges tile the lengths from Base(k, 0) to the limit. */
  lemma CodesTile(k: Kind, c: nat)
    requires c < CODES
    ensures Next(k, c) == Base(k, c) + Pow2(Extra(k, c))
  {
    WidthIsPow2(Extra(k, c));
    if 16 <= c < CODES - 1 {
      LlTile(c);
      MlTile(c);
    }
  }

  /** The last code not above v, looking at codes up to c. */
  function Find(k: Kind, v: nat, c: nat): (r: nat)
    requires c < CODES
    ensures r <= c && (v >= Base(k, 0) ==> Base(k, r) <= v)
    ensures forall d :: r < d <= c ==> v < Base(k, d)
  {
    if c == 0 || Base(k, c) <= v then c else Find(k, v, c - 1)
  }

  /** A code with its extra bits. */
  datatype Code = Code(sym: nat, extra: nat, nb: nat)

  /** ll_encode and ml_encode_with. */
  function Encode(k: Kind, v: nat): (c: Code)
    requires v >= Base(k, 0)
    ensures c.sym < CODES && c.nb == Extra(k, c.sym)
  {
    var c := Find(k, v, CODES - 1);
    Code(c, v - Base(k, c), Extra(k, c))
  }

  /** Decoding the stored extra bits of a length gives it back exactly when the length is below the table's limit. */
  lemma CodeBack(k: Kind, v: nat)
    requires v >= Base(k, 0)
    ensures var c := Encode(k, v);
            && (v < Limit(k) ==> c.extra < Pow2(c.nb))
            && (Base(k, c.sym) + c.extra % Pow2(c.nb) == v <==> v < Limit(k))
  {
    var c := Encode(k, v);
    CodesTile(k, c.sym);
    if v < Limit(k) {
      DivModUnique(c.extra, Pow2(c.nb), 0, c.extra);
    }
  }

  /** The longest length that can come out of a table. */
  lemma DecodedBound(k: Kind, c: nat, bits: nat)
    requires c < CODES && bits < Pow2(Extra(k, c))
    ensures Base(k, 0) <= Base(k, c) + bits < Limit(k)
  {
    CodesTile(k, c);
    BaseMonotone(k, 0, c);
    BaseMonotone(k, c + 1, CODES);
  }

  lemma {:induction false} BaseMonotone(k: Kind, c: nat, d: nat)
    requires c <= d <= CODES
    ensures (if c == CODES then Limit(k) else Base(k, c)) <= (if d == CODES then Limit(k) else Base(k, d))
    decreases d
  {
    if c < d {
      BaseMonotone(k, c, d - 1);
      CodesTile(k, d - 1);
    }
  }

  /** The table search of the encoder: single lengths directly, the rest by bisection. */
  method Search(k: Kind, v: nat) returns (c: Code)
    requires v >= Base(k, 0)
    ensures c == Encode(k, v)
  {
    if v <= Base(k, 15) {
      FindUnique(k, v, v - Base(k, 0));
      return Code(v - Base(k, 0), 0, 0);
    }
    var lo, hi := 16, CODES - 1;
    while lo < hi
      invariant 16 <= lo <= hi < CODES
      invariant Base(k, lo) <= v && Find(k, v, CODES - 1) <= hi
    {
      var mid := (lo + hi + 1) / 2;
      if v >= Base(k, mid) {
        lo := mid;
      } else {
        BelowMeansSmaller(k, v, mid);
        hi := mid - 1;
      }
    }
    return Code(lo, v - Base(k, lo), Extra(k, lo));
  }

  lemma FindUnique(k: Kind, v: nat, c: nat)
    requires c < CODES && Base(k, 0) <= Base(k, c) <= v < Next(k, c)
    ensures Find(k, v, CODES - 1) == c
  {
    if c < CODES - 1 {
      BelowMeansSmaller(k, v, c + 1);
    }
  }

  lemma BelowMeansSmaller(k: Kind, v: nat, c: nat)
    requires 0 < c < CODES && v >= Base(k, 0) && v < Base(k, c)
    ensures Find(k, v, CODES - 1) < c
  {
    var r := Find(k, v, CODES - 1);
    if r >= c {
      BaseMonotone(k, c, r);
    }
  }

  // ---------------------------------------------------------------- offsets

  /** The three most recent offsets. */
  datatype Reps = Reps(r0: nat, r1: nat, r2: nat)

  const NO_REPS := Reps(0, 0, 0)

  /** The history after an offset, by the rule encoder and decoder share. */
  function RepNext(r: Reps, off: nat): (q: Reps) {
    if off != 0 && off != r.r0 then Reps(off, r.r0, r.r1) else r
  }

  /** of_encode behind the rep test. */
  function OfEncode(r: Reps, off: nat): (c: Code)
    ensures c.sym < 3 ==> c.extra == 0 && c.nb == 0
  {
    if off != 0 && off == r.r0 then Code(0, 0, 0)
    else if off != 0 && off == r.r1 then Code(1, 0, 0)
    else if off != 0 && off == r.r2 then Code(2, 0, 0)
    else if off == 0 then Code(3, 0, 0)
    else
      var c := if Log2(off) >= 24 then 23 else Log2(off);
      Code(c + 3, if off >= Pow2(c) then off - Pow2(c) else 0, c)
  }

  /** Extra bits of an offset code. */
  function OfExtra(sym: nat): (nb: nat)
    requires sym < OF_CODES
    ensures nb <= 23
  {
    if sym < 3 then 0 else sym - 3
  }

  /** The offset a decoder makes of a code and its extra bits. */
  function OfDecode(r: Reps, sym: nat, bits: nat): (off: nat) {
    if sym == 0 then r.r0 else if sym == 1 then r.r1 else if sym == 2 then r.r2 else Pow2(sym - 3) + bits
  }

  /** An offset comes back through its code exactly when it is not 0 (offsets have at most three bytes). */
  lemma OffsetBack(r: Reps, off: nat)
    requires off < 0x100_0000
    ensures var c := OfEncode(r, off);
            && c.sym < OF_CODES && c.nb == OfExtra(c.sym) && c.extra < Pow2(c.nb)
            && (OfDecode(r, c.sym, c.extra) == off <==> off != 0)
  {
    Powers();
    if off > 0 && Log2(off) >= 24 {
      Pow2Monotone(24, Log2(off));
    }
  }
}
