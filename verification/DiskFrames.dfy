/** Block frames of an archive: their bytes, and reading them back. */
module DiskFrames {
  import opened Bits
  import opened LittleEndian
  import opened Wrappers

  // ---------------------------------------------------------------- varints

  /** zupt_encode_varint: seven bits a byte, low ones first. */
  function Leb(v: nat): (s: seq<byte>)
    ensures s != []
  {
    if v < 128 then [v] else [128 + v % 128] + Leb(v / 128)
  }

  /** A number read and the bytes it took. */
  datatype Read = Read(val: nat, used: nat)

  /** zupt_read_varint from byte number i on: at most ten bytes, one bit in the tenth, and no superfluous last byte. */
  function ReadLeb(s: seq<byte>, i: nat): (r: Option<Read>)
    requires i <= 9
    ensures r.Some? ==> 0 < r.value.used <= |s|
    decreases 10 - i
  {
    if s == [] || (i == 9 && s[0] >= 2) then None
    else if s[0] < 128 then (if i > 0 && s[0] == 0 then None else Some(Read(s[0], 1)))
    else
      match ReadLeb(s[1..], i + 1)
      case None => None
      case Some(r) => Some(Read(s[0] - 128 + 128 * r.val, 1 + r.used))
  }

  /** Room left for the value of a varint at byte number i. */
  function LebRoom(i: nat): (n: nat)
    requires i <= 9
    ensures n >= 2 && (i < 9 ==> n >= 256)
    decreases 9 - i
  {
    if i == 9 then 2 else 128 * LebRoom(i + 1)
  }

  lemma LebRoomIsWord()
    ensures LebRoom(0) == WORD64
  {
    assert LebRoom(7) == 128 * LebRoom(8) == 128 * (128 * LebRoom(9));
    assert LebRoom(5) == 128 * LebRoom(6) == 128 * (128 * LebRoom(7));
    assert LebRoom(3) == 128 * LebRoom(4) == 128 * (128 * LebRoom(5));
    assert LebRoom(1) == 128 * LebRoom(2) == 128 * (128 * LebRoom(3));
  }

  lemma {:induction false} LebBackFrom(v: nat, i: nat, rest: seq<byte>)
    requires i <= 9 && v < LebRoom(i) && (i > 0 ==> v > 0)
    ensures ReadLeb(Leb(v) + rest, i) == Some(Read(v, |Leb(v)|))
    decreases 10 - i
  {
    if v >= 128 {
      LebBackFrom(v / 128, i + 1, rest);
      assert (Leb(v) + rest)[1..] == Leb(v / 128) + rest;
    }
  }

  /** Every 64-bit number is read back as written, whatever follows. */
  lemma LebBack(v: nat, rest: seq<byte>)
    requires v < WORD64
    ensures ReadLeb(Leb(v) + rest, 0) == Some(Read(v, |Leb(v)|))
  {
    LebRoomIsWord();
    LebBackFrom(v, 0, rest);
  }

  lemma {:induction false} LebOneWayFrom(s: seq<byte>, i: nat)
    requires i <= 9 && ReadLeb(s, i).Some?
    ensures var r := ReadLeb(s, i).value; s[..r.used] == Leb(r.val) && r.val < LebRoom(i) && (i > 0 ==> r.val > 0)
    decreases 10 - i
  {
    if s[0] >= 128 {
      LebOneWayFrom(s[1..], i + 1);
      var r := ReadLeb(s, i).value;
      var q := ReadLeb(s[1..], i + 1).value;
      assert r.val / 128 == q.val && 128 + r.val % 128 == s[0];
      assert s[..r.used] == [s[0]] + s[1..][..q.used];
    }
  }

  /** A number has exactly one encoding that is read. */
  lemma LebOneWay(s: seq<byte>)
    requires ReadLeb(s, 0).Some?
    ensures var r := ReadLeb(s, 0).value; s[..r.used] == Leb(r.val) && r.val < WORD64
  {
    LebRoomIsWord();
    LebOneWayFrom(s, 0);
  }

  // ---------------------------------------------------------------- frames

  const DATA: nat := 0
  const INDEX: nat := 2
  const DEDUP_REF: nat := 4
  const STORE: nat := 0
  const ENCRYPTED: nat := 1
  const MAX_BLOCK: nat := 0x1000_0000

  /** zupt_block_t. */
  datatype Frame = Frame(kind: nat, codec: nat, flags: nat, plain: nat, checksum: nat, payload: seq<byte>)

  predicate FrameOk(f: Frame) {
    f.kind < 0x100 && f.codec < 0x1_0000 && f.flags < 0x1_0000 && f.checksum < WORD64
    && f.plain <= MAX_BLOCK && |f.payload| <= MAX_BLOCK + 4096
  }

  /** The block header and payload as written. */
  function FrameBytes(f: Frame): (s: seq<byte>)
    requires FrameOk(f)
    ensures |s| > 0
  {
    [0xBB, 1, f.kind] + (ToBytes(f.codec, 2) + (ToBytes(f.flags, 2) + (Leb(f.plain)
    + (Leb(|f.payload|) + (ToBytes(f.checksum, 8) + f.payload)))))
  }

  /** A frame and the bytes behind it. */
  datatype Parsed = Parsed(f: Frame, used: nat)

  /** read_block. */
  function ReadFrame(s: seq<byte>): (r: Option<Parsed>)
    ensures r.Some? ==> FrameOk(r.value.f) && 0 < r.value.used <= |s|
  {
    hide Num, ReadLeb;
    if |s| < 7 || s[0] != 0xBB || s[1] != 1 then None
    else
      match ReadLeb(s[7..], 0)
      case None => None
      case Some(plain) =>
        var s1 := s[7 + plain.used..];
        match ReadLeb(s1, 0)
        case None => None
        case Some(size) =>
          var s2 := s1[size.used..];
          if |s2| < 8 || size.val > MAX_BLOCK + 4096 || plain.val > MAX_BLOCK || |s2| - 8 < size.val then None
          else
            TwoBytes(s[3..5]);
            TwoBytes(s[5..7]);
            EightBytes(s2[..8]);
            Some(Parsed(Frame(s[2], Num(s[3..5]), Num(s[5..7]), plain.val, Num(s2[..8]), s2[8..8 + size.val]),
                        7 + plain.used + size.used + 8 + size.val))
  }

  lemma TwoBytes(s: seq<byte>)
    requires |s| == 2
    ensures Num(s) < 0x1_0000
  {
    NumBound(s);
    Powers();
  }

  lemma EightBytes(s: seq<byte>)
    requires |s| == 8
    ensures Num(s) < WORD64
  {
    NumBound(s);
    Powers();
  }

  /** A frame is read back as written, whatever follows it. */
  lemma FrameBack(f: Frame, rest: seq<byte>)
    requires FrameOk(f)
    ensures ReadFrame(FrameBytes(f) + rest) == Some(Parsed(f, |FrameBytes(f)|))
  {
    hide Leb, ReadLeb, ToBytes, Num;
    var s := FrameBytes(f) + rest;
    var c2, g2, k8 := ToBytes(f.codec, 2), ToBytes(f.flags, 2), ToBytes(f.checksum, 8);
    var tail := k8 + (f.payload + rest);
    var mid := Leb(|f.payload|) + tail;
    Powers();
    ToBytesNum(f.codec, 2);
    ToBytesNum(f.flags, 2);
    ToBytesNum(f.checksum, 8);
    LebBack(f.plain, mid);
    LebBack(|f.payload|, tail);
    assert s[3..5] == c2 && s[5..7] == g2;
    assert s[7..] == Leb(f.plain) + mid;
    assert s[7 + |Leb(f.plain)|..] == mid;
    assert mid[|Leb(|f.payload|)|..] == tail;
    assert tail[..8] == k8 && tail[8..8 + |f.payload|] == f.payload;
  }
}
