/** Frames: header, blocks and footer, and what decoding them at once yields. */
module VvFrame {
  import opened Bits
  import opened LittleEndian
  import Xxh64
  import X86 = BranchFilterX86
  import Arm64 = BranchFilterArm64

  datatype Code = Corrupt | Overflow | BadMagic

  // ---------------------------------------------------------------- headers

  const HEADER: nat := 16
  const FOOTER: nat := 12
  const MAGIC: word := 0x5656_0100
  const FOOTER_MAGIC: word := 0x5656_4E44
  const MAX_BLOCK: nat := 0x10_0000

  function WordAt(s: seq<byte>, at: nat): (w: word)
    requires at + 4 <= |s|
  {
    Word(s[at], s[at + 1], s[at + 2], s[at + 3])
  }

  /** What later parts of the frame need from its header. */
  datatype Head = Head(flags: byte, wlog: byte)

  predicate HeadOk(hd: Head) { 10 <= hd.wlog <= 24 && hd.flags / 4 % 4 != 3 }

  datatype HeadRead = GoodHead(hd: Head) | BadHead(why: Code)

  /** The checks on a frame header; a frame carries at most one branch filter. */
  function ReadHead(s: seq<byte>): (r: HeadRead)
    requires |s| >= HEADER
    ensures r.GoodHead? ==> HeadOk(r.hd)
  {
    if WordAt(s, 0) != MAGIC then BadHead(BadMagic)
    else if s[4] != 1 || s[5] / 4 % 4 == 3 || s[7] < 10 || s[7] > 24 then BadHead(Corrupt)
    else GoodHead(Head(s[5], s[7]))
  }

  predicate HasChecksum(hd: Head) { hd.flags % 2 == 1 }

  function OffsetBytes(hd: Head): (n: nat) { if hd.wlog > 16 then 3 else 2 }

  /** frame_max_offset. */
  function MaxOffset(hd: Head): (n: nat)
    requires HeadOk(hd)
  {
    var limit := if hd.wlog == 24 then 0xFF_FFFF else Pow2(hd.wlog);
    if hd.wlog <= 16 && limit > 0xFFFF then 0xFFFF else limit
  }

  /** The branch filter undone on a whole frame. */
  function Unfilter(hd: Head, out: seq<byte>): (t: seq<byte>)
    ensures |t| == |out|
  {
    var a := if hd.flags / 4 % 2 == 1 then X86.Filter(out, 0, 0, 0, false) else out;
    if hd.flags / 8 % 2 == 1 then Arm64.Filter(a, 0, false) else a
  }

  // ---------------------------------------------------------------- blocks

  /** The coded payloads: plain tokens, or a tag and what it tags. */
  datatype Payload = Tokens(data: seq<byte>) | Entropy(tag: byte, data: seq<byte>)

  /** Bytes decoded, or why not. */
  datatype Decoded = Bytes(out: seq<byte>) | Err(why: Code)

  /** A block decoder: from the payload, the frame's output before it, the size of the block, the width and the bound
      of offsets. */
  type Decoder = (Payload, seq<byte>, nat, nat, nat) -> Decoded

  /** A block that is not all there yet, one that cannot be decoded, or its bytes, its length and whether it is the
      last. */
  datatype BlockRead = Wait | Stop(why: Code) | Block(out: seq<byte>, used: nat, last: bool)

  function Repeat(b: byte, n: nat): (s: seq<byte>)
    ensures |s| == n
  {
    seq(n, i => b)
  }

  /** A decoded block must have exactly the announced size. */
  function Checked(r: Decoded, size: nat, used: nat, last: bool): (b: BlockRead)
    ensures !b.Wait? && (b.Block? ==> |b.out| == size && b.used == used)
  {
    match r
    case Err(why) => Stop(why)
    case Bytes(out) => if |out| != size then Stop(Corrupt) else Block(out, used, last)
  }

  /** One block at the start of s, behind the output h, with room for room more bytes. */
  function ReadBlock(dec: Decoder, hd: Head, s: seq<byte>, h: seq<byte>, room: nat): (b: BlockRead)
    requires HeadOk(hd)
    ensures b.Block? ==> 4 <= b.used <= |s| && |b.out| <= room
  {
    if |s| < 4 then Wait
    else
      var kind, last, size := WordAt(s, 0) % 4, WordAt(s, 0) / 4 % 2 == 1, WordAt(s, 0) / 8 % 0x20_0000;
      if size > MAX_BLOCK || size > room then Stop(Overflow)
      else if kind == 0 then (if |s| < 4 + size then Wait else Block(s[4..4 + size], 4 + size, last))
      else if kind == 2 then (if |s| < 5 then Wait else Block(Repeat(s[4], size), 5, last))
      else if |s| < 7 then Wait
      else
        var csz := s[4] + 0x100 * s[5] as int + 0x1_0000 * s[6] as int;
        if |s| < 7 + csz then Wait
        else if kind == 1 then
          Checked(dec(Tokens(s[7..7 + csz]), h, size, OffsetBytes(hd), MaxOffset(hd)), size, 7 + csz, last)
        else if csz < 1 then Stop(Corrupt)
        else Checked(dec(Entropy(s[7], s[8..7 + csz]), h, size, OffsetBytes(hd), MaxOffset(hd)), size, 7 + csz, last)
  }

  /** A block that is read does not depend on what follows it; nor does one that is refused. */
  lemma ReadBlockLocal(dec: Decoder, hd: Head, s: seq<byte>, t: seq<byte>, h: seq<byte>, room: nat)
    requires HeadOk(hd) && !ReadBlock(dec, hd, s, h, room).Wait?
    ensures ReadBlock(dec, hd, s + t, h, room) == ReadBlock(dec, hd, s, h, room)
  {
    hide Checked, MaxOffset, Repeat;
    var u := s + t;
    assert WordAt(u, 0) == WordAt(s, 0);
    var size := WordAt(s, 0) / 8 % 0x20_0000;
    if |s| >= 7 {
      var csz := s[4] + 0x100 * s[5] as int + 0x1_0000 * s[6] as int;
      if |s| >= 7 + csz {
        assert u[7..7 + csz] == s[7..7 + csz];
        if csz >= 1 {
          assert u[8..7 + csz] == s[8..7 + csz];
        }
      }
    }
    if |s| >= 4 + size {
      assert u[4..4 + size] == s[4..4 + size];
    }
  }

  // ---------------------------------------------------------------- a frame

  /** A frame that is not all there yet, one that cannot be decoded, or its output and length. */
  datatype FrameRead = Partial | Refused(why: Code) | Frame(out: seq<byte>, used: nat)

  function Longer(r: FrameRead, n: nat): (q: FrameRead) { if r.Frame? then Frame(r.out, r.used + n) else r }

  /** The end of a frame: its footer, if it has one. */
  function ReadFoot(hd: Head, s: seq<byte>, h: seq<byte>): (r: FrameRead)
    ensures r.Frame? ==> r.used <= |s|
  {
    if !HasChecksum(hd) then Frame(Unfilter(hd, h), 0)
    else if |s| < FOOTER then Partial
    else if WordAt(s, 8) != FOOTER_MAGIC || Num(s[..8]) != Xxh64.Hash(h, 0) then Refused(Corrupt)
    else Frame(Unfilter(hd, h), FOOTER)
  }

  /** The blocks of a frame and what follows them. */
  function ReadBlocks(dec: Decoder, hd: Head, s: seq<byte>, h: seq<byte>, cap: nat): (r: FrameRead)
    requires HeadOk(hd) && |h| <= cap
    ensures r.Frame? ==> r.used <= |s| && |r.out| <= cap
    decreases |s|
  {
    match ReadBlock(dec, hd, s, h, cap - |h|)
    case Wait => Partial
    case Stop(why) => Refused(why)
    case Block(out, used, last) =>
      Longer(if last then ReadFoot(hd, s[used..], h + out) else ReadBlocks(dec, hd, s[used..], h + out, cap), used)
  }

  /** One frame at the start of s. */
  function ReadFrame(dec: Decoder, s: seq<byte>, cap: nat): (r: FrameRead)
    ensures r.Frame? ==> HEADER <= r.used <= |s| && |r.out| <= cap
  {
    if |s| < HEADER then Partial
    else
      match ReadHead(s)
      case BadHead(why) => Refused(why)
      case GoodHead(hd) => Longer(ReadBlocks(dec, hd, s[HEADER..], [], cap), HEADER)
  }

  /** vv_decompress: one frame after the other until the input ends. */
  function Decompress(dec: Decoder, s: seq<byte>, cap: nat): (r: Decoded)
    decreases |s|
  {
    match ReadFrame(dec, s, cap)
    case Partial => Err(Corrupt)
    case Refused(why) => Err(why)
    case Frame(out, used) =>
      if used == |s| then Bytes(out)
      else
        match Decompress(dec, s[used..], cap - |out|)
        case Err(why) => Err(why)
        case Bytes(more) => Bytes(out + more)
  }

  // ---------------------------------------------------------------- the decoding loop

  lemma SliceOf(s: seq<byte>, ip: nat, a: nat, b: nat)
    requires a <= b && ip + b <= |s|
    ensures s[ip..][a..b] == s[ip + a..ip + b]
  {
  }

  /** One block of vv_decompress, whose input must be all there. */
  method DecodeOne(dec: Decoder, hd: Head, src: seq<byte>, ip: nat, h: seq<byte>, room: nat) returns (b: BlockRead)
    requires HeadOk(hd) && ip <= |src|
    ensures b == if ReadBlock(dec, hd, src[ip..], h, room).Wait? then Stop(Corrupt)
            else ReadBlock(dec, hd, src[ip..], h, room)
  {
    hide Checked, MaxOffset, Word;
    ghost var s := src[ip..];
    if |src| - ip < 4 {
      return Stop(Corrupt);
    }
    assert WordAt(s, 0) == WordAt(src, ip);
    var kind, last, size := WordAt(src, ip) % 4, WordAt(src, ip) / 4 % 2 == 1, WordAt(src, ip) / 8 % 0x20_0000;
    var at := ip + 4;
    if size > MAX_BLOCK || size > room {
      return Stop(Overflow);
    }
    if kind == 0 {
      if size > |src| - at {
        return Stop(Corrupt);
      }
      SliceOf(src, ip, 4, 4 + size);
      return Block(src[at..at + size], 4 + size, last);
    }
    if kind == 2 {
      if at >= |src| {
        return Stop(Corrupt);
      }
      return Block(Repeat(src[at], size), 5, last);
    }
    if |src| - at < 3 {
      return Stop(Corrupt);
    }
    var csz: nat := src[at] + 0x100 * src[at + 1] as int + 0x1_0000 * src[at + 2] as int;
    at := at + 3;
    if csz > |src| - at {
      return Stop(Corrupt);
    }
    if kind == 1 {
      SliceOf(src, ip, 7, 7 + csz);
      return Checked(dec(Tokens(src[at..at + csz]), h, size, OffsetBytes(hd), MaxOffset(hd)), size, 7 + csz, last);
    }
    if csz < 1 {
      return Stop(Corrupt);
    }
    SliceOf(src, ip, 8, 7 + csz);
    b := Checked(dec(Entropy(src[at], src[at + 1..at + csz]), h, size, OffsetBytes(hd), MaxOffset(hd)), size, 7 + csz,
      last);
  }

  /** The block loop and the footer of one frame of vv_decompress. */
  method DecodeFrame(dec: Decoder, hd: Head, src: seq<byte>, from: nat, cap: nat) returns (r: Decoded, ip: nat)
    requires HeadOk(hd) && from <= |src|
    ensures match ReadBlocks(dec, hd, src[from..], [], cap)
            case Partial => r == Err(Corrupt)
            case Refused(why) => r == Err(why)
            case Frame(out, used) => r == Bytes(out) && ip == from + used
  {
    hide ReadBlock, Unfilter, Xxh64.Hash, Num, Word;
    ip := from;
    var out: seq<byte> := [];
    var last := false;
    ghost var goal := ReadBlocks(dec, hd, src[from..], [], cap);
    while !last
      invariant from <= ip <= |src| && |out| <= cap
      invariant goal
                == Longer(if last then ReadFoot(hd, src[ip..], out) else ReadBlocks(dec, hd, src[ip..], out, cap),
                          ip - from)
      decreases !last, |src| - ip
    {
      var b := DecodeOne(dec, hd, src, ip, out, cap - |out|);
      if b.Stop? {
        return Err(b.why), ip;
      }
      assert src[ip..][b.used..] == src[ip + b.used..];
      out, ip, last := out + b.out, ip + b.used, b.last;
    }
    if HasChecksum(hd) {
      ghost var s := src[ip..];
      if |src| - ip < FOOTER {
        return Err(Corrupt), ip;
      }
      assert WordAt(s, 8) == WordAt(src, ip + 8) && s[..8] == src[ip..ip + 8];
      if WordAt(src, ip + 8) != FOOTER_MAGIC {
        return Err(Corrupt), ip;
      }
      var computed := Xxh64.HashAtOnce(out, 0);
      if computed != Num(src[ip..ip + 8]) {
        return Err(Corrupt), ip;
      }
      ip := ip + FOOTER;
    }
    r := Bytes(Unfilter(hd, out));
  }

  /** vv_decompress. */
  method DecompressAll(dec: Decoder, src: seq<byte>, cap: nat) returns (r: Decoded)
    ensures r == Decompress(dec, src, cap)
  {
    hide ReadBlocks, ReadHead, Unfilter;
    if |src| < HEADER {
      return Err(Corrupt);
    }
    var ip: nat := 0;
    var out: seq<byte> := [];
    assert src[0..] == src;
    while true
      invariant ip < |src| && |out| <= cap
      invariant Decompress(dec, src, cap) == match Decompress(dec, src[ip..], cap - |out|)
                                             case Err(why) => Err(why)
                                             case Bytes(more) => Bytes(out + more)
      decreases |src| - ip
    {
      if |src| - ip < HEADER {
        return Err(Corrupt);
      }
      var hr := ReadHead(src[ip..]);
      if hr.BadHead? {
        return Err(hr.why);
      }
      assert src[ip..][HEADER..] == src[ip + HEADER..];
      var f, next := DecodeFrame(dec, hr.hd, src, ip + HEADER, cap - |out|);
      if f.Err? {
        return f;
      }
      assert src[ip..][next - ip..] == src[next..];
      ghost var before := out;
      out := out + f.out;
      ip := next;
      if ip == |src| {
        return Bytes(out);
      }
      assert forall more: seq<byte> :: before + (f.out + more) == out + more;
    }
  }
}
