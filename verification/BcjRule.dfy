/** Which branches the x86 filter converts and what they become, said of the whole buffer and its set of conversions
    instead of a rolling mask. */
module BranchFilterX86Rule {
  import opened Arithmetic
  import opened LittleEndian
  import opened BranchFilterX86

  /** Position i is an operand byte of a conversion. */
  predicate Covered(sites: set<int>, i: int) { exists c :: c in sites && c < i <= c + 4 }

  /** Position p holds the opcode E8 or E9, has room for an operand, and is no operand byte of a conversion. */
  predicate Branch(s: seq<byte>, sites: set<int>, p: int) {
    0 <= p && p + 4 < |s| && (s[p] == 0xE8 || s[p] == 0xE9) && !Covered(sites, p)
  }

  predicate Left(s: seq<byte>, sites: set<int>, q: int) { Branch(s, sites, q) && q !in sites }

  /** q is an unconverted branch among the three bytes before p. */
  predicate Near(s: seq<byte>, sites: set<int>, p: int, q: int) { p - 3 <= q < p && Left(s, sites, q) }

  predicate SignLike(b: byte) { b == 0x00 || b == 0xFF }

  /** The branch at p is to be converted: its operand looks like a displacement, and of the three bytes before it at
      most one is an unconverted branch, whose own operand does not. */
  ghost predicate ToConvert(s: seq<byte>, sites: set<int>, p: int)
    requires 0 <= p && p + 4 < |s|
  {
    SignLike(s[p + 4])
    && forall q :: Near(s, sites, p, q) ==>
         !SignLike(s[q + 4]) && forall r :: Near(s, sites, p, r) ==> r == q
  }

  /** 32-bit sum or difference. */
  function Sum(v: nat, cur: nat, encoding: bool): (w: nat) {
    (if encoding then v + cur else v - cur) % 0x1_0000_0000
  }

  /** 256^n. */
  function Place(n: nat): (p: nat)
    requires n <= 3
  {
    if n == 0 then 1 else if n == 1 then 0x100 else if n == 2 then 0x1_0000 else 0x100_0000
  }

  /** The displacement beside an unconverted branch d bytes before: where byte 3 - d of the sum looks like a sign, the
      bytes up to that one are complemented and the position is applied once more. */
  function Beside(v: nat, d: int, cur: nat, encoding: bool): (w: nat)
    requires 1 <= d <= 3
  {
    var x := Sum(v, cur, encoding);
    var low := x % Place(4 - d);
    if x / Place(3 - d) % 0x100 == 0x00 || x / Place(3 - d) % 0x100 == 0xFF then
      Sum(x - low + (Place(4 - d) - 1 - low), cur, encoding)
    else x
  }

  /** The operand of the branch at p is w: three low bytes, and bit 24 extended into the fourth. */
  predicate Holds(t: seq<byte>, p: int, w: nat)
    requires 0 <= p && p + 4 < |t|
  {
    t[p + 1] == w % 0x100 && t[p + 2] == w / 0x100 % 0x100 && t[p + 3] == w / 0x1_0000 % 0x100
    && t[p + 4] == if w / 0x100_0000 % 2 == 1 then 0xFF else 0x00
  }

  function Displacement(a: nat, b: nat, c: nat, d: nat): (v: nat) { a + 0x100 * b + 0x1_0000 * c + 0x100_0000 * d }

  /** What a converted branch at p gets. */
  ghost predicate Retargeted(s: seq<byte>, t: seq<byte>, sites: set<int>, p: int, ip: nat, encoding: bool)
    requires 0 <= p && p + 4 < |s| == |t|
  {
    var v := Displacement(s[p + 1], s[p + 2], s[p + 3], s[p + 4]);
    var cur := (ip + p + 5) % 0x1_0000_0000;
    ((forall q :: !Near(s, sites, p, q)) ==> Holds(t, p, Sum(v, cur, encoding)))
    && forall q :: Near(s, sites, p, q) ==> Holds(t, p, Beside(v, p - q, cur, encoding))
  }

  /** t is s with the branches in sites, from position at on, converted: they are the ones to be converted, they get
      their operands, and every other byte stays. */
  ghost predicate ByRule(s: seq<byte>, t: seq<byte>, sites: set<int>, at: nat, ip: nat, encoding: bool) {
    |t| == |s|
    && (forall p :: p in sites && at <= p ==> Branch(s, sites, p))
    && (forall p: int :: at <= p && Branch(s, sites, p) ==> (p in sites <==> ToConvert(s, sites, p)))
    && (forall p :: p in sites && at <= p ==> p + 4 < |s| && 0 <= p && Retargeted(s, t, sites, p, ip, encoding))
    && (forall i :: at <= i < |s| && !Covered(sites, i) ==> t[i] == s[i])
  }

  // ---------------------------------------------------------------- the mask and the rule

  /** The mask records the unconverted branches among the three bytes before at, behind the last conversion. */
  ghost predicate Mirrors(s: seq<byte>, sites: set<int>, at: nat, mask: Mask) {
    (forall c :: c in sites ==> c + 5 <= at)
    && (mask >= 4 <==> Left(s, sites, at - 1)) && (mask / 2 % 2 == 1 <==> Left(s, sites, at - 2))
    && (mask % 2 == 1 <==> Left(s, sites, at - 3))
  }

  lemma SameRule(s: seq<byte>, sites: set<int>, at: nat, mask: Mask)
    requires Mirrors(s, sites, at, mask) && |s| > at + 4 && IsBranchOpcode(s[at])
    ensures Converts(s[at..], mask) <==> ToConvert(s, sites, at)
  {
    hide Left;
    var rest := s[at..];
    var a, b, c := Near(s, sites, at, at - 1), Near(s, sites, at, at - 2), Near(s, sites, at, at - 3);
    assert a <==> mask >= 4;
    assert b <==> mask / 2 % 2 == 1;
    assert c <==> mask % 2 == 1;
    assert rest[4] == s[at + 4] && (mask / 2 + 1 < |rest| ==> rest[mask / 2 + 1] == s[at + (mask / 2 + 1)]);
    if a && !b && !c {
      assert mask == 4;
    } else if b && !a && !c {
      assert mask == 2;
    } else if c && !a && !b {
      assert mask == 1;
    }
  }

  /** What is near p depends on the conversions before p only. */
  lemma NearSame(s: seq<byte>, a: set<int>, b: set<int>, p: int)
    requires forall c :: c < p ==> (c in a <==> c in b)
    ensures forall q :: Near(s, a, p, q) <==> Near(s, b, p, q)
    ensures Branch(s, a, p) <==> Branch(s, b, p)
    ensures 0 <= p && p + 4 < |s| ==> (ToConvert(s, a, p) <==> ToConvert(s, b, p))
  {
    forall q | q <= p ensures Covered(a, q) <==> Covered(b, q) {
      if c :| c in a && c < q <= c + 4 {
        assert c in b;
      }
      if c :| c in b && c < q <= c + 4 {
        assert c in a;
      }
    }
  }

  lemma RetargetedSame(s: seq<byte>, t: seq<byte>, a: set<int>, b: set<int>, p: int, ip: nat, encoding: bool)
    requires 0 <= p && p + 4 < |s| == |t| && forall q :: Near(s, a, p, q) <==> Near(s, b, p, q)
    requires Retargeted(s, t, a, p, ip, encoding)
    ensures Retargeted(s, t, b, p, ip, encoding)
  {
    hide Near, Holds, Beside, Sum;
  }

  lemma StepMirrors(s: seq<byte>, sites: set<int>, at: nat, mask: Mask)
    requires Mirrors(s, sites, at, mask) && at + 4 < |s|
    ensures Mirrors(s, sites, at + 1, Step(s[at], mask)) && !Covered(sites, at) && at !in sites
  {
    assert Left(s, sites, at) <==> IsBranchOpcode(s[at]);
  }

  lemma ConvertMirrors(s: seq<byte>, sites: set<int>, at: nat, mask: Mask)
    requires at + 4 < |s| && Mirrors(s, sites, at, mask)
    ensures Mirrors(s, sites + {at}, at + 5, 0) && forall c :: c in sites ==> c < at
  {
    var all := sites + {at};
    forall q | at < q < at + 5 ensures !Left(s, all, q) {
      assert at in all && at < q <= at + 4;
    }
  }

  /** The conversion under a mask of one bit is that beside a branch d bytes before. */
  lemma BesideMeans(v: word, mask: Mask, d: int, cur: word, encoding: bool)
    requires (mask == 4 && d == 1) || (mask == 2 && d == 2) || (mask == 1 && d == 3)
    ensures Converted(v, mask, cur, encoding) == Beside(v, d, cur, encoding)
  {
    hide Flip, Move, ByteOf, Span, Place, Sum;
    FlipMeans(Move(v, cur, encoding), mask / 2);
    MoveIsSum(v, cur, encoding);
    MoveIsSum(Flip(Move(v, cur, encoding), mask / 2), cur, encoding);
  }

  lemma FlipMeans(x: word, k: nat)
    requires k < 3
    ensures var p := Place(k + 1); Flip(x, k) == x - x % p + (p - 1 - x % p)
    ensures ByteOf(x, k) == x / Place(k) % 0x100
  {
    var p := Place(k + 1);
    assert Span(k) == p;
    assert x == x / p * p + x % p;
  }

  lemma MoveIsSum(v: word, cur: word, encoding: bool)
    ensures Move(v, cur, encoding) == Sum(v, cur, encoding)
  {
  }

  lemma StoredMeans(t: seq<byte>, at: nat, w: word)
    requires at + 4 < |t| && t[at + 1..at + 5] == Operand(w)
    ensures Holds(t, at, w)
  {
    var o := t[at + 1..at + 5];
    assert o[0] == t[at + 1] && o[1] == t[at + 2] && o[2] == t[at + 3] && o[3] == t[at + 4];
  }

  lemma OperandMeans(s: seq<byte>, t: seq<byte>, sites: set<int>, at: nat, mask: Mask, ip: word, encoding: bool)
    requires Mirrors(s, sites, at, mask) && at + 4 < |s| == |t| && Converts(s[at..], mask)
    requires t[at + 1..at + 5] == NewOperand(s[at..], at, mask, ip, encoding)
    ensures Retargeted(s, t, sites, at, ip, encoding)
  {
    hide Left, Beside, Converted, Sum, Operand;
    var rest := s[at..];
    var v, cur := Word(rest[1], rest[2], rest[3], rest[4]), InstructionEnd(ip, at);
    var w := Converted(v, mask, cur, encoding);
    StoredMeans(t, at, w);
    forall q | Near(s, sites, at, q) ensures w == Beside(v, at - q, cur, encoding) {
      assert at - q == 1 || at - q == 2 || at - q == 3;
      BesideMeans(v, mask, at - q, cur, encoding);
    }
    if forall q :: !Near(s, sites, at, q) {
      assert !Near(s, sites, at, at - 1) && !Near(s, sites, at, at - 2) && !Near(s, sites, at, at - 3);
      assert mask == 0;
      PlainMeans(v, cur, encoding);
    }
  }

  lemma PlainMeans(v: word, cur: word, encoding: bool)
    ensures Converted(v, 0, cur, encoding) == Sum(v, cur, encoding)
  {
  }

  // ---------------------------------------------------------------- the whole buffer

  /** A branch that is not converted. */
  lemma LeaveByRule(s: seq<byte>, t: seq<byte>, all: set<int>, sites: set<int>, at: nat, mask: Mask, ip: word,
                    encoding: bool)
    requires at + 4 < |s| && Mirrors(s, sites, at, mask) && !Converts(s[at..], mask) && at !in all
    requires (forall c :: c < at ==> (c in all <==> c in sites)) && |t| == |s| && t[at] == s[at]
    requires ByRule(s, t, all, at + 1, ip, encoding)
    ensures ByRule(s, t, all, at, ip, encoding)
  {
    hide Near, Retargeted;
    NearSame(s, all, sites, at);
    if Branch(s, all, at) {
      SameRule(s, sites, at, mask);
    }
  }

  lemma ConvertByRule(s: seq<byte>, t: seq<byte>, all: set<int>, sites: set<int>, at: nat, mask: Mask, ip: word,
                      encoding: bool)
    requires at + 4 < |s| && Mirrors(s, sites, at, mask) && Converts(s[at..], mask) && at in all
    requires (forall c :: c < at ==> (c in all <==> c in sites)) && |t| == |s| && t[at] == s[at]
    requires t[at + 1..at + 5] == NewOperand(s[at..], at, mask, ip, encoding)
    requires ByRule(s, t, all, at + 5, ip, encoding) && forall c :: c in all ==> c <= at || at + 5 <= c
    ensures ByRule(s, t, all, at, ip, encoding)
  {
    hide NewOperand, Near, ToConvert, Retargeted;
    NearSame(s, all, sites, at);
    SameRule(s, sites, at, mask);
    OperandMeans(s, t, sites, at, mask, ip, encoding);
    RetargetedSame(s, t, sites, all, at, ip, encoding);
    assert !Covered(sites, at);
    forall i | at < i < at + 5 ensures Covered(all, i) {
      assert at in all && at < i <= at + 4;
    }
  }

  lemma TooShort(s: seq<byte>, sites: set<int>, at: nat, mask: Mask, ip: word, encoding: bool)
    requires |s| <= at + 4 && Mirrors(s, sites, at, mask)
    ensures ByRule(s, s, sites, at, ip, encoding)
  {
  }

  lemma Alike(s: seq<byte>, t: seq<byte>, u: seq<byte>, sites: set<int>, at: nat, ip: word, encoding: bool)
    requires ByRule(s, u, sites, at, ip, encoding) && |t| == |s| && forall i :: at <= i < |s| ==> t[i] == u[i]
    ensures ByRule(s, t, sites, at, ip, encoding)
  {
    hide Near, Branch, ToConvert;
    forall p | p in sites && at <= p ensures p + 4 < |s| && Retargeted(s, t, sites, p, ip, encoding) {
      assert Retargeted(s, u, sites, p, ip, encoding);
    }
  }

  lemma {:induction false} Follow(s: seq<byte>, at: nat, mask: Mask, sites: set<int>, ip: word, encoding: bool)
    returns (all: set<int>)
    requires at <= |s| && Mirrors(s, sites, at, mask)
    ensures sites <= all && forall c :: c in all ==> c in sites || at <= c
    ensures ByRule(s, s[..at] + Filter(s[at..], at, mask, ip, encoding), all, at, ip, encoding)
    decreases |s| - at
  {
    hide Mirrors, ByRule, Converts, Operand, NewOperand, Step;
    var rest := s[at..];
    var t := s[..at] + Filter(rest, at, mask, ip, encoding);
    if |rest| <= 4 {
      assert t == s;
      all := sites;
      TooShort(s, sites, at, mask, ip, encoding);
    } else if Converts(rest, mask) {
      ConvertMirrors(s, sites, at, mask);
      all := Follow(s, at + 5, 0, sites + {at}, ip, encoding);
      var u := s[..at + 5] + Filter(s[at + 5..], at + 5, 0, ip, encoding);
      assert rest[5..] == s[at + 5..];
      Alike(s, t, u, all, at + 5, ip, encoding);
      ConvertByRule(s, t, all, sites, at, mask, ip, encoding);
    } else {
      StepMirrors(s, sites, at, mask);
      all := Follow(s, at + 1, Step(s[at], mask), sites, ip, encoding);
      assert rest[1..] == s[at + 1..];
      assert t == s[..at + 1] + Filter(s[at + 1..], at + 1, Step(s[at], mask), ip, encoding);
      LeaveByRule(s, t, all, sites, at, mask, ip, encoding);
    }
  }

  /** In either direction the filter converts exactly the branches that the rule says, to what the rule says, and
      leaves every other byte as it is. */
  lemma FilterByRule(s: seq<byte>, ip: word, encoding: bool) returns (sites: set<int>)
    ensures ByRule(s, Filter(s, 0, 0, ip, encoding), sites, 0, ip, encoding)
  {
    assert s[0..] == s;
    sites := Follow(s, 0, 0, {}, ip, encoding);
    assert s[..0] + Filter(s[0..], 0, 0, ip, encoding) == Filter(s, 0, 0, ip, encoding);
  }
}
