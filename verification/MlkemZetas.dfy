/** The table of twiddle factors: powers of 17 in bit-reversed order, times 2^16. */
module MlkemZetas {
  import opened Arithmetic
  import opened Bits
  import opened MlkemField

  /** 17^n modulo q. */
  function Power(n: nat): (p: int)
    ensures 0 <= p < Q
  {
    if n == 0 then 1 else 17 * Power(n - 1) % Q
  }

  lemma PowerStep(n: nat)
    ensures Same(Power(n + 1), 17 * Power(n))
  {
    var x := 17 * Power(n);
    Multiple(x % Q, x, -(x / Q));
  }

  lemma {:induction false} PowerAdd(m: nat, n: nat)
    ensures Same(Power(m + n), Power(m) * Power(n))
  {
    if m == 0 {
      Multiple(Power(n), 1 * Power(n), 0);
    } else {
      hide Power, Same;
      PowerAdd(m - 1, n);
      PowerStep(m - 1 + n);
      PowerStep(m - 1);
      Refl(17);
      Refl(Power(n));
      SameMul(17, 17, Power(m - 1 + n), Power(m - 1) * Power(n));
      SameMul(Power(m), 17 * Power(m - 1), Power(n), Power(n));
      Associate(17, Power(m - 1), Power(n));
      SameTrans(Power(m + n), 17 * Power(m - 1 + n), 17 * (Power(m - 1) * Power(n)));
      SameSym(Power(m) * Power(n), 17 * Power(m - 1) * Power(n));
      SameTrans(Power(m + n), 17 * (Power(m - 1) * Power(n)), Power(m) * Power(n));
    }
  }

  lemma Refl(x: int)
    ensures Same(x, x)
  {
  }

  /** Squaring: what Power(2n) is, from what Power(n) is. */
  lemma Square(n: nat, x: int, y: int)
    requires Same(Power(n), x) && Same(x * x, y)
    ensures Same(Power(2 * n), y)
  {
    hide Power, Same;
    PowerAdd(n, n);
    SameMul(Power(n), x, Power(n), x);
    SameTrans(Power(2 * n), Power(n) * Power(n), x * x);
    SameTrans(Power(2 * n), x * x, y);
  }

  /** 17 is a 256th root of unity whose 128th power is -1. */
  lemma HalfTurn()
    ensures Same(Power(128), -1) && Same(Power(64), 1729)
  {
    PowerStep(0);
    assert Same(Power(1), 17);
    Square(1, 17, 289);
    Square(2, 289, 296);
    Square(4, 296, 1062);
    Square(8, 1062, 2642);
    Square(16, 2642, 2580);
    Square(32, 2580, 1729);
    Square(64, 1729, -1);
  }

  // ---------------------------------------------------------------- bit reversal

  /** BitRev7 of section 4.3 of FIPS 203: the seven low bits in opposite order. */
  function BitRev7(k: nat): (n: nat) { Rev(k, 7) }

  /** Setting the top bit of k adds its mirrored place. */
  lemma {:induction false} RevTopBit(i: nat, k: nat, n: nat)
    requires i < n && k < Pow2(i)
    ensures Rev(Pow2(i) + k, n) == Rev(k, n) + Pow2(n - 1 - i)
  {
    if i > 0 {
      RevTopBit(i - 1, k / 2, n - 1);
      assert (Pow2(i) + k) / 2 == Pow2(i - 1) + k / 2 && (Pow2(i) + k) % 2 == k % 2;
    } else {
      assert 1 / 2 == 0 / 2;
    }
  }

  /** Below 2^(n-1) the reversal in n bits is twice that in n - 1. */
  lemma {:induction false} RevDouble(k: nat, n: nat)
    requires n > 0 && k < Pow2(n - 1)
    ensures Rev(k, n) == 2 * Rev(k, n - 1)
  {
    if n > 1 {
      RevDouble(k / 2, n - 1);
    }
  }

  /** A node's children have half its exponent, one of them half a turn further. */
  lemma BitRevChildren(k: nat)
    requires 1 <= k < 64
    ensures BitRev7(k) == 2 * BitRev7(2 * k) && BitRev7(2 * k + 1) == BitRev7(2 * k) + 64
  {
    hide Pow2, Rev;
    SmallPowers();
    RevDouble(k, 7);
    RevStep(2 * k);
    RevStep(2 * k + 1);
  }

  lemma SmallPowers()
    ensures Pow2(0) == 1 && Pow2(1) == 2 && Pow2(2) == 4 && Pow2(3) == 8 && Pow2(4) == 16 && Pow2(5) == 32
            && Pow2(6) == 64
  {
  }

  lemma RevStep(k: nat)
    ensures Rev(k, 7) == k % 2 * Pow2(6) + Rev(k / 2, 6)
  {
  }

  // ---------------------------------------------------------------- the table

  /** zetas, sixteen entries at a time. */
  function Table(k: nat): (z: int)
    requires k < 128
    ensures -1517 <= z <= 3321
  {
    match k / 16
    case 0 => Zetas0(k)
    case 1 => Zetas16(k)
    case 2 => Zetas32(k)
    case 3 => Zetas48(k)
    case 4 => Zetas64(k)
    case 5 => Zetas80(k)
    case 6 => Zetas96(k)
    case _ => Zetas112(k)
  }

  function Zetas0(k: nat): (z: int)
    requires 0 <= k < 16
    ensures -1517 <= z <= 3321
  {
    match k
    case 0 => -1044 case 1 => -758 case 2 => -359 case 3 => -1517
    case 4 => 1493 case 5 => 1422 case 6 => 287 case 7 => 202
    case 8 => 3158 case 9 => 622 case 10 => 1577 case 11 => 182
    case 12 => 962 case 13 => 2127 case 14 => 1855 case _ => 1468
  }

  function Zetas16(k: nat): (z: int)
    requires 16 <= k < 32
    ensures -1517 <= z <= 3321
  {
    match k
    case 16 => 573 case 17 => 2004 case 18 => 264 case 19 => 383
    case 20 => 2500 case 21 => 1458 case 22 => 1727 case 23 => 3199
    case 24 => 2648 case 25 => 1017 case 26 => 732 case 27 => 608
    case 28 => 1787 case 29 => 411 case 30 => 3124 case _ => 1758
  }

  function Zetas32(k: nat): (z: int)
    requires 32 <= k < 48
    ensures -1517 <= z <= 3321
  {
    match k
    case 32 => 1223 case 33 => 652 case 34 => 2777 case 35 => 1015
    case 36 => 2036 case 37 => 1491 case 38 => 3047 case 39 => 1785
    case 40 => 516 case 41 => 3321 case 42 => 3009 case 43 => 2663
    case 44 => 1711 case 45 => 2167 case 46 => 126 case _ => 1469
  }

  function Zetas48(k: nat): (z: int)
    requires 48 <= k < 64
    ensures -1517 <= z <= 3321
  {
    match k
    case 48 => 2476 case 49 => 3239 case 50 => 3058 case 51 => 830
    case 52 => 107 case 53 => 1908 case 54 => 3082 case 55 => 2378
    case 56 => 2931 case 57 => 961 case 58 => 1821 case 59 => 2604
    case 60 => 448 case 61 => 2264 case 62 => 677 case _ => 2054
  }

  function Zetas64(k: nat): (z: int)
    requires 64 <= k < 80
    ensures -1517 <= z <= 3321
  {
    match k
    case 64 => 2226 case 65 => 430 case 66 => 555 case 67 => 843
    case 68 => 2078 case 69 => 871 case 70 => 1550 case 71 => 105
    case 72 => 422 case 73 => 587 case 74 => 177 case 75 => 3094
    case 76 => 3038 case 77 => 2869 case 78 => 1574 case _ => 1653
  }

  function Zetas80(k: nat): (z: int)
    requires 80 <= k < 96
    ensures -1517 <= z <= 3321
  {
    match k
    case 80 => 3083 case 81 => 778 case 82 => 1159 case 83 => 3182
    case 84 => 2552 case 85 => 1483 case 86 => 2727 case 87 => 1119
    case 88 => 1739 case 89 => 644 case 90 => 2457 case 91 => 349
    case 92 => 418 case 93 => 329 case 94 => 3173 case _ => 3254
  }

  function Zetas96(k: nat): (z: int)
    requires 96 <= k < 112
    ensures -1517 <= z <= 3321
  {
    match k
    case 96 => 817 case 97 => 1097 case 98 => 603 case 99 => 610
    case 100 => 1322 case 101 => 2044 case 102 => 1864 case 103 => 384
    case 104 => 2114 case 105 => 3193 case 106 => 1218 case 107 => 1994
    case 108 => 2455 case 109 => 220 case 110 => 2142 case _ => 1670
  }

  function Zetas112(k: nat): (z: int)
    requires 112 <= k < 128
    ensures -1517 <= z <= 3321
  {
    match k
    case 112 => 2144 case 113 => 1799 case 114 => 2051 case 115 => 794
    case 116 => 1819 case 117 => 2475 case 118 => 2459 case 119 => 478
    case 120 => 3221 case 121 => 3021 case 122 => 996 case 123 => 991
    case 124 => 958 case 125 => 1869 case 126 => 1522 case _ => 1628
  }

  /** 17^BitRev7(k) modulo q. */
  function Zeta(k: nat): (z: int)
    ensures 0 <= z < Q
  {
    Power(BitRev7(k))
  }

  /** 2^16 modulo q. */
  const R: nat := 2285

  /** The n entries from off on are f times those from low on. */
  predicate Agrees(off: nat, low: nat, f: int, n: nat)
    requires off + n <= 128 && low + n <= 128
  {
    n == 0 || (Same(Table(off + n - 1), f * Table(low + n - 1)) && Agrees(off, low, f, n - 1))
  }

  lemma {:induction false} AgreesAt(off: nat, low: nat, f: int, n: nat, k: nat)
    requires k < n && off + n <= 128 && low + n <= 128 && Agrees(off, low, f, n)
    ensures Same(Table(off + k), f * Table(low + k))
  {
    hide Table, Same;
    if k < n - 1 {
      AgreesAt(off, low, f, n - 1, k);
    }
  }

  // The table row by row: each entry against the one with its highest index bit cleared.

  lemma Row64()
    ensures Agrees(64, 0, 17, 8)
  {
  }

  lemma Row72()
    ensures Agrees(72, 8, 17, 8)
  {
  }

  lemma Row80()
    ensures Agrees(80, 16, 17, 8)
  {
  }

  lemma Row88()
    ensures Agrees(88, 24, 17, 8)
  {
  }

  lemma Row96()
    ensures Agrees(96, 32, 17, 8)
  {
  }

  lemma Row104()
    ensures Agrees(104, 40, 17, 8)
  {
  }

  lemma Row112()
    ensures Agrees(112, 48, 17, 8)
  {
  }

  lemma Row120()
    ensures Agrees(120, 56, 17, 8)
  {
  }

  lemma Row32()
    ensures Agrees(32, 0, 289, 8)
  {
  }

  lemma Row40()
    ensures Agrees(40, 8, 289, 8)
  {
  }

  lemma Row48()
    ensures Agrees(48, 16, 289, 8)
  {
  }

  lemma Row56()
    ensures Agrees(56, 24, 289, 8)
  {
  }

  lemma Row16()
    ensures Agrees(16, 0, 296, 8)
  {
  }

  lemma Row24()
    ensures Agrees(24, 8, 296, 8)
  {
  }

  lemma Row8()
    ensures Agrees(8, 0, 1062, 8)
  {
  }

  lemma FirstRows()
    ensures Agrees(4, 0, 2642, 4) && Agrees(2, 0, 2580, 2) && Agrees(1, 0, 1729, 1)
  {
  }

  // ---------------------------------------------------------------- what the table holds

  /** The factor by which index bit 2^i multiplies an entry. */
  function BitFactor(i: nat): (f: int)
    requires i < 7
  {
    match i case 0 => 1729 case 1 => 2580 case 2 => 2642 case 3 => 1062 case 4 => 296 case 5 => 289 case _ => 17
  }

  lemma FactorIsPower(i: nat)
    requires i < 7
    ensures Same(Power(Pow2(6 - i)), BitFactor(i))
  {
    SmallPowers();
    PowerStep(0);
    assert Same(Power(1), 17);
    Square(1, 17, 289);
    Square(2, 289, 296);
    Square(4, 296, 1062);
    Square(8, 1062, 2642);
    Square(16, 2642, 2580);
    Square(32, 2580, 1729);
  }

  lemma EntryStep(i: nat, k: nat)
    requires i < 7 && k < Pow2(i) && Pow2(i) + k < 128
    ensures Same(Table(Pow2(i) + k), BitFactor(i) * Table(k))
  {
    hide Table, Agrees, Same, Pow2;
    SmallPowers();
    match i
    case 0 => FirstRows(); AgreesAt(1, 0, 1729, 1, k);
    case 1 => FirstRows(); AgreesAt(2, 0, 2580, 2, k);
    case 2 => FirstRows(); AgreesAt(4, 0, 2642, 4, k);
    case 3 => Row8(); AgreesAt(8, 0, 1062, 8, k);
    case 4 =>
      Row16();
      Row24();
      if k < 8 { AgreesAt(16, 0, 296, 8, k); } else { AgreesAt(24, 8, 296, 8, k - 8); }
    case 5 => Entry32(k);
    case _ => Entry64(k);
  }

  lemma Entry32(k: nat)
    requires k < 32
    ensures Same(Table(32 + k), 289 * Table(k))
  {
    hide Table, Agrees, Same;
    Row32();
    Row40();
    Row48();
    Row56();
    if k < 8 { AgreesAt(32, 0, 289, 8, k); }
    else if k < 16 { AgreesAt(40, 8, 289, 8, k - 8); }
    else if k < 24 { AgreesAt(48, 16, 289, 8, k - 16); }
    else { AgreesAt(56, 24, 289, 8, k - 24); }
  }

  lemma Entry64(k: nat)
    requires k < 64
    ensures Same(Table(64 + k), 17 * Table(k))
  {
    hide Table, Agrees, Same;
    if k < 32 {
      Row64();
      Row72();
      Row80();
      Row88();
      if k < 8 { AgreesAt(64, 0, 17, 8, k); }
      else if k < 16 { AgreesAt(72, 8, 17, 8, k - 8); }
      else if k < 24 { AgreesAt(80, 16, 17, 8, k - 16); }
      else { AgreesAt(88, 24, 17, 8, k - 24); }
    } else {
      Row96();
      Row104();
      Row112();
      Row120();
      if k < 40 { AgreesAt(96, 32, 17, 8, k - 32); }
      else if k < 48 { AgreesAt(104, 40, 17, 8, k - 40); }
      else if k < 56 { AgreesAt(112, 48, 17, 8, k - 48); }
      else { AgreesAt(120, 56, 17, 8, k - 56); }
    }
  }

  /** The highest bit of an index. */
  lemma HighBit(k: nat) returns (i: nat)
    requires 1 <= k < 128
    ensures i < 7 && Pow2(i) <= k < 2 * Pow2(i)
  {
    hide Pow2;
    SmallPowers();
    i := if k < 2 then 0 else if k < 4 then 1 else if k < 8 then 2 else if k < 16 then 3
         else if k < 32 then 4 else if k < 64 then 5 else 6;
  }

  /** zetas[k] is 17^BitRev7(k) in Montgomery form. */
  lemma {:induction false} TableMeaning(k: nat)
    requires k < 128
    ensures Same(Table(k), R * Zeta(k))
  {
    hide Table, Same, Power, BitFactor, Pow2, Zeta;
    if k == 0 {
      FirstEntry();
    } else {
      var i := HighBit(k);
      var j := k - Pow2(i);
      TableMeaning(j);
      EntryStep(i, j);
      ZetaStep(i, j);
      FactorIsPower(i);
      Combine(Table(k), BitFactor(i), Table(j), Zeta(j), Power(Pow2(6 - i)), Zeta(k));
    }
  }

  lemma FirstEntry()
    ensures Same(Table(0), R * Zeta(0))
  {
    assert BitRev7(0) == 0;
    assert Power(0) == 1 && Same(-1044, 2285);
  }

  lemma ZetaStep(i: nat, j: nat)
    requires i < 7 && j < Pow2(i)
    ensures Same(Zeta(Pow2(i) + j), Zeta(j) * Power(Pow2(6 - i)))
  {
    hide Same, Power, Rev, Pow2;
    RevTopBit(i, j, 7);
    PowerAdd(BitRev7(j), Pow2(6 - i));
  }

  lemma Combine(t: int, f: int, u: int, z: int, p: int, y: int)
    requires Same(t, f * u) && Same(u, R * z) && Same(p, f) && Same(y, z * p)
    ensures Same(t, R * y)
  {
    hide Same;
    SameSym(p, f);
    SameMul(f, p, u, R * z);
    SameTrans(t, f * u, p * (R * z));
    Associate(p, R, z);
    assert p * (R * z) == R * (z * p);
    Refl(R);
    SameSym(y, z * p);
    SameMul(R, R, z * p, y);
    SameTrans(t, R * (z * p), R * y);
  }
}
