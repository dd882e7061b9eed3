/** vv_dstream: the input queue, the running checksum and the state machine over mutable fields. */
module VvDstream {
  import opened LittleEndian
  import opened VvFrame
  import opened VvStream
  import Xxh64
  import opened Bits

  // ---------------------------------------------------------------- the input queue

  const SIZE_MAX: nat := 0xFFFF_FFFF_FFFF_FFFF

  /** in_buf with its unread bytes: a first-in first-out queue that moves its bytes only when it must. */
  class Queue {
    var buf: array<byte>
    var pos: nat
    var len: nat

    constructor ()
      ensures Valid() && View() == [] && fresh(buf)
    {
      buf := new byte[65536](_ => 0);
      pos, len := 0, 0;
    }

    ghost predicate Valid()
      reads this
    {
      0 < buf.Length && pos + len <= buf.Length
    }

    ghost function View(): (s: seq<byte>)
      requires Valid()
      reads this, buf
    {
      buf[pos..pos + len]
    }

    /** The unread bytes. */
    method Bytes() returns (s: seq<byte>)
      requires Valid()
      ensures s == View()
    {
      s := buf[pos..pos + len];
    }

    /** dstream_reserve: at least need bytes, by doubling. */
    method Reserve(need: nat)
      requires Valid()
      modifies this
      ensures Valid() && View() == old(View()) && buf.Length >= need && pos == old(pos) && len == old(len)
      ensures buf == old(buf) || fresh(buf)
    {
      if need <= buf.Length {
        return;
      }
      var cap := buf.Length;
      while cap < need
        invariant 0 < cap && cap >= buf.Length
        decreases need - cap
      {
        if cap > SIZE_MAX / 2 {
          cap := need;
          break;
        }
        cap := 2 * cap;
      }
      var bigger := new byte[cap](_ => 0);
      forall i | 0 <= i < buf.Length {
        bigger[i] := buf[i];
      }
      assert bigger[pos..pos + len] == buf[pos..pos + len];
      buf := bigger;
    }

    /** memmove of the unread bytes to the front. */
    method Compact()
      requires Valid()
      modifies this, buf
      ensures Valid() && View() == old(View()) && pos == 0 && len == old(len) && buf == old(buf)
    {
      ghost var s := View();
      for i := 0 to len
        invariant Valid() && pos == old(pos) && len == old(len) && buf == old(buf)
        invariant buf[..i] == s[..i] && buf[pos + i..pos + len] == s[i..]
      {
        assert buf[pos + i] == s[i];
        buf[i] := buf[pos + i];
      }
      pos := 0;
    }

    /** Room for n more bytes, by compaction and then by growth. */
    method MakeRoom(n: nat)
      requires Valid()
      modifies this, buf
      ensures Valid() && View() == old(View()) && len == old(len) && pos + len + n <= buf.Length
      ensures buf == old(buf) || fresh(buf)
    {
      if pos > 0 && n > buf.Length - (pos + len) {
        Compact();
      }
      if n > buf.Length - (pos + len) {
        Reserve(len + n);
      }
    }

    /** memcpy behind the unread bytes. */
    method CopyIn(src: seq<byte>)
      requires Valid() && pos + len + |src| <= buf.Length
      modifies this`len, buf
      ensures Valid() && View() == old(View()) + src
    {
      var at := pos + len;
      forall i | 0 <= i < |src| {
        buf[at + i] := src[i];
      }
      len := len + |src|;
      assert buf[pos..at] == old(buf[pos..at]) && buf[at..pos + len] == src;
    }

    /** dstream_append. */
    method Append(src: seq<byte>)
      requires Valid()
      modifies this, buf
      ensures Valid() && View() == old(View()) + src
      ensures buf == old(buf) || fresh(buf)
    {
      MakeRoom(|src|);
      CopyIn(src);
    }

    /** dstream_consume. */
    method Consume(n: nat)
      requires Valid() && n <= len
      modifies this
      ensures Valid() && View() == old(View())[n..] && buf == old(buf)
    {
      if n >= len {
        pos, len := 0, 0;
      } else {
        pos, len := pos + n, len - n;
      }
    }
  }

  // ---------------------------------------------------------------- the decoder

  datatype Phase = Header | Blocks | Footer | Done | Error

  /** What a call reports: more input is needed, the frame is complete, or an error. */
  datatype Report = More | Complete | Failure(why: Code)

  /** vv_dstream_s; why is the first error, which the source returns but does not keep. */
  class DStream {
    var phase: Phase
    var hd: Head
    const queue: Queue
    var outPos: nat
    const cks: Xxh64.State
    var why: Code

    /** vv_dstream_create. */
    constructor ()
      ensures forall dst: array<byte> :: dst != queue.buf && dst != cks.buf ==> Valid(dst) && View(dst) == START
      ensures fresh(queue) && fresh(queue.buf) && fresh(cks) && fresh(cks.buf)
    {
      phase, hd, outPos, why := Header, Head(0, 10), 0, Corrupt;
      queue := new Queue();
      cks := new Xxh64.State(0);
    }

    /** The decoder is in order, and dst[..outPos] is what it has decoded. */
    ghost predicate Valid(dst: array<byte>)
      reads this, queue, queue.buf, cks, cks.buf, dst
    {
      queue.Valid() && cks.Valid() && cks.seed == 0 && outPos <= dst.Length
      && dst != queue.buf && dst != cks.buf && queue.buf != cks.buf
      && (phase.Header? ==> outPos == 0 && cks.seen == [])
      && (phase.Blocks? || phase.Footer? ==> HeadOk(hd) && (HasChecksum(hd) ==> cks.seen == dst[..outPos]))
      && (phase.Footer? ==> HasChecksum(hd))
    }

    ghost function View(dst: array<byte>): (st: Stream)
      requires Valid(dst)
      reads this, queue, queue.buf, cks, cks.buf, dst
      ensures StreamOk(st, dst.Length)
    {
      match phase
      case Header => InHeader(queue.View())
      case Blocks => InBlocks(queue.View(), hd, dst[..outPos])
      case Footer => InFooter(queue.View(), hd, dst[..outPos])
      case Done => Finished(dst[..outPos])
      case Error => Broken(why)
    }

    /** The header state. */
    method StepHeader(dec: Decoder, dst: array<byte>) returns (wait: bool)
      requires Valid(dst) && phase.Header?
      modifies this, queue
      ensures Valid(dst) && View(dst) == Step(dec, dst.Length, old(View(dst))) && queue.buf == old(queue.buf)
      ensures wait == (View(dst) == old(View(dst)))
    {
      hide ReadHead, Unfilter, ReadBlock;
      if queue.len < HEADER {
        return true;
      }
      wait := false;
      var s := queue.Bytes();
      match ReadHead(s)
      case BadHead(w) =>
        phase, why := Error, w;
      case GoodHead(good) =>
        hd, phase := good, Blocks;
        queue.Consume(HEADER);
        assert dst[..0] == [];
    }

    /** dstream_finish: the branch filter undone over the whole output. */
    method Finish(dst: array<byte>)
      requires Valid(dst) && (phase.Blocks? || phase.Footer?)
      modifies this`phase, dst
      ensures Valid(dst) && phase.Done? && dst[..outPos] == Unfilter(hd, old(dst[..outPos]))
    {
      hide Unfilter, Xxh64.Stripes, Xxh64.Rest, Xxh64.Seeded;
      var t := Unfilter(hd, dst[..outPos]);
      forall i | 0 <= i < outPos {
        dst[i] := t[i];
      }
      phase := Done;
    }

    /** The bytes of a block appended to the output and to the checksum. */
    method Emit(dst: array<byte>, out: seq<byte>)
      requires Valid(dst) && phase.Blocks? && outPos + |out| <= dst.Length
      modifies this`outPos, cks, cks.buf, dst
      ensures Valid(dst) && outPos == old(outPos) + |out| && dst[..outPos] == old(dst[..outPos]) + out
    {
      hide Xxh64.Stripes, Xxh64.Rest, Xxh64.Seeded;
      outPos := Append(dst, outPos, out);
      if HasChecksum(hd) {
        cks.Update(out);
      }
    }

    /** A decoded block, and the state after it. */
    method TakeBlock(dst: array<byte>, out: seq<byte>, used: nat, last: bool)
      requires Valid(dst) && phase.Blocks? && outPos + |out| <= dst.Length && used <= queue.len
      modifies this`phase, this`outPos, queue, cks, cks.buf, dst
      ensures Valid(dst) && queue.buf == old(queue.buf)
      ensures var p, more := old(queue.View())[used..], old(dst[..outPos]) + out;
              View(dst) == if !last then InBlocks(p, hd, more)
                           else if HasChecksum(hd) then InFooter(p, hd, more)
                           else Finished(Unfilter(hd, more))
    {
      hide Unfilter, Xxh64.Stripes, Xxh64.Rest, Xxh64.Seeded;
      Emit(dst, out);
      queue.Consume(used);
      if last && HasChecksum(hd) {
        phase := Footer;
      } else if last {
        Finish(dst);
      }
    }

    /** The block state. */
    method StepBlock(dec: Decoder, dst: array<byte>) returns (wait: bool)
      requires Valid(dst) && phase.Blocks?
      modifies this, queue, cks, cks.buf, dst
      ensures Valid(dst) && View(dst) == Step(dec, dst.Length, old(View(dst))) && queue.buf == old(queue.buf)
      ensures wait == (View(dst) == old(View(dst)))
    {
      hide ReadBlock, Unfilter, ReadHead, ReadFoot, Xxh64.Stripes, Xxh64.Rest, Xxh64.Seeded;
      var s := queue.Bytes();
      wait := false;
      match ReadBlock(dec, hd, s, dst[..outPos], dst.Length - outPos)
      case Wait =>
        wait := true;
      case Stop(w) =>
        phase, why := Error, w;
      case Block(out, used, last) =>
        TakeBlock(dst, out, used, last);
    }

    /** The footer state. */
    method StepFooter(dec: Decoder, dst: array<byte>) returns (wait: bool)
      requires Valid(dst) && phase.Footer?
      modifies this, queue, dst
      ensures Valid(dst) && View(dst) == Step(dec, dst.Length, old(View(dst))) && queue.buf == old(queue.buf)
      ensures wait == (View(dst) == old(View(dst)))
    {
      hide ReadBlock, Unfilter, ReadHead, Word, Xxh64.Hash;
      if queue.len < FOOTER {
        return true;
      }
      wait := false;
      var s := queue.Bytes();
      if WordAt(s, 8) != FOOTER_MAGIC {
        phase, why := Error, Corrupt;
        return;
      }
      var computed := cks.Finalize();
      if computed != Num(s[..8]) {
        phase, why := Error, Corrupt;
        return;
      }
      queue.Consume(FOOTER);
      Finish(dst);
    }

    /** One turn of the state machine. */
    method StepAny(dec: Decoder, dst: array<byte>) returns (wait: bool)
      requires Valid(dst) && (phase.Header? || phase.Blocks? || phase.Footer?)
      modifies this, queue, cks, cks.buf, dst
      ensures Valid(dst) && View(dst) == Step(dec, dst.Length, old(View(dst))) && queue.buf == old(queue.buf)
      ensures wait == (View(dst) == old(View(dst)))
    {
      hide Step;
      if phase.Header? {
        wait := StepHeader(dec, dst);
      } else if phase.Blocks? {
        wait := StepBlock(dec, dst);
      } else {
        wait := StepFooter(dec, dst);
      }
    }

    /** vv_dstream_decompress_chunk, always with the same output buffer. */
    method Chunk(dec: Decoder, src: seq<byte>, dst: array<byte>) returns (r: Report, written: nat)
      requires Valid(dst)
      modifies this, queue, queue.buf, cks, cks.buf, dst
      ensures Valid(dst) && View(dst) == Feed(dec, dst.Length, old(View(dst)), src)
      ensures queue.buf == old(queue.buf) || fresh(queue.buf)
      ensures match View(dst)
              case Finished(out) => r == Complete && written == |out|
              case Broken(w) => r == Failure(if old(phase).Error? then Corrupt else w)
              case _ => r == More && written == outPos
    {
      hide Step, Unfilter;
      ghost var cap, before := dst.Length, View(dst);
      written := 0;
      if phase.Error? {
        SettleFinal(dec, cap, before);
        return Failure(Corrupt), 0;
      }
      if phase.Done? {
        SettleFinal(dec, cap, before);
        return Complete, outPos;
      }
      queue.Append(src);
      assert View(dst) == Push(before, src);
      ghost var goal := Feed(dec, cap, before, src);
      while true
        invariant (queue.buf == old(queue.buf) || fresh(queue.buf)) && Valid(dst) && dst.Length == cap
        invariant Live(View(dst)) && Settle(dec, cap, View(dst)) == goal && !old(phase).Error?
        decreases |View(dst).pending|
      {
        SettleStep(dec, cap, View(dst));
        assert (var u := Step(dec, cap, View(dst)); u != View(dst) && Live(u) ==> |u.pending| < |View(dst).pending|);
        var wait := StepAny(dec, dst);
        if wait {
          return More, outPos;
        }
        if phase.Error? {
          SettleFinal(dec, cap, View(dst));
          return Failure(why), 0;
        }
        if phase.Done? {
          SettleFinal(dec, cap, View(dst));
          return Complete, outPos;
        }
      }
    }
  }

}
