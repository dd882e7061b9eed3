/** What backup writes for a block, and what restore takes for one. */
module DiskChecks {
  import opened Bits
  import opened LittleEndian
  import opened Wrappers
  import opened DedupIndex
  import opened DiskFrames
  import opened DiskImage

  // ---------------------------------------------------------------- bytes

  /** Digits to base 128, low ones first, the top bit set in all but the last. */
  predicate IsLeb(s: seq<byte>, v: nat) {
    s != [] && if |s| == 1 then s[0] == v < 128 else s[0] >= 128 && v % 128 == s[0] - 128 && IsLeb(s[1..], v / 128)
  }

  lemma {:induction false} LebIsLeb(v: nat)
    ensures IsLeb(Leb(v), v)
  {
    if v >= 128 {
      LebIsLeb(v / 128);
      assert Leb(v)[1..] == Leb(v / 128);
    }
  }

  /** The bytes of a frame: two magic bytes, its kind, codec and flags in two bytes each, its plain and stored size as
      numbers to base 128, its checksum in eight bytes, and the payload. */
  ghost predicate Laid(s: seq<byte>, f: Frame) { exists a: seq<byte>, b: seq<byte> :: LaidWith(s, f, a, b) }

  predicate LaidWith(s: seq<byte>, f: Frame, a: seq<byte>, b: seq<byte>) {
    var i, j := 7 + |a|, 7 + |a| + |b|;
    |s| == j + 8 + |f.payload| && s[..3] == [0xBB, 1, f.kind] && Num(s[3..5]) == f.codec && Num(s[5..7]) == f.flags
    && s[7..i] == a && IsLeb(a, f.plain) && s[i..j] == b && IsLeb(b, |f.payload|)
    && Num(s[j..j + 8]) == f.checksum && s[j + 8..] == f.payload
  }

  /** Where the parts of a frame lie. */
  lemma Parts(h: seq<byte>, c: seq<byte>, g: seq<byte>, a: seq<byte>, b: seq<byte>, k: seq<byte>, p: seq<byte>)
    requires |h| == 3 && |c| == |g| == 2 && |k| == 8
    ensures var s, i, j := h + (c + (g + (a + (b + (k + p))))), 7 + |a|, 7 + |a| + |b|;
            |s| == j + 8 + |p| && s[..3] == h && s[3..5] == c && s[5..7] == g && s[7..i] == a && s[i..j] == b
            && s[j..j + 8] == k && s[j + 8..] == p
  {
    var t := a + (b + (k + p));
    var s := h + (c + (g + t));
    assert s[7..] == t;
    PartsBehind(a, b, k, p);
    assert s[7..7 + |a|] == t[..|a|] && s[7 + |a|..7 + |a| + |b|] == t[|a|..|a| + |b|];
    assert s[7 + |a| + |b|..15 + |a| + |b|] == t[|a| + |b|..|a| + |b| + 8];
    assert s[15 + |a| + |b|..] == t[|a| + |b| + 8..];
  }

  lemma PartsBehind(a: seq<byte>, b: seq<byte>, k: seq<byte>, p: seq<byte>)
    requires |k| == 8
    ensures var t, j := a + (b + (k + p)), |a| + |b|;
            t[..|a|] == a && t[|a|..j] == b && t[j..j + 8] == k && t[j + 8..] == p
  {
    var u := b + (k + p);
    var t := a + u;
    assert t[|a|..] == u && t[|a|..|a| + |b|] == u[..|b|];
    assert t[|a| + |b|..] == k + p;
    assert t[|a| + |b|..|a| + |b| + 8] == (k + p)[..8] && t[|a| + |b| + 8..] == (k + p)[8..];
  }

  lemma LaidParts(f: Frame, h: seq<byte>, c: seq<byte>, g: seq<byte>, a: seq<byte>, b: seq<byte>, k: seq<byte>)
    requires |c| == |g| == 2 && |k| == 8 && f.kind < 0x100 && h == [0xBB, 1, f.kind]
    requires Num(c) == f.codec && Num(g) == f.flags && Num(k) == f.checksum
    requires IsLeb(a, f.plain) && IsLeb(b, |f.payload|)
    ensures LaidWith(h + (c + (g + (a + (b + (k + f.payload))))), f, a, b)
  {
    hide Num, IsLeb;
    Parts(h, c, g, a, b, k, f.payload);
  }

  lemma FrameIsLaid(f: Frame)
    requires FrameOk(f)
    ensures Laid(FrameBytes(f), f)
  {
    hide Leb, IsLeb, ToBytes, Num, LaidWith;
    Powers();
    ToBytesNum(f.codec, 2);
    ToBytesNum(f.flags, 2);
    ToBytesNum(f.checksum, 8);
    LebIsLeb(f.plain);
    LebIsLeb(|f.payload|);
    LaidParts(f, [0xBB, 1, f.kind], ToBytes(f.codec, 2), ToBytes(f.flags, 2), Leb(f.plain), Leb(|f.payload|),
              ToBytes(f.checksum, 8));
  }

  /** The reader takes nothing but frames as they are written. */
  lemma FrameOneWay(s: seq<byte>)
    requires ReadFrame(s).Some?
    ensures var p := ReadFrame(s).value; s[..p.used] == FrameBytes(p.f)
  {
    hide ReadLeb, Leb, ToBytes, Num;
    var p := ReadFrame(s).value;
    var x := ReadLeb(s[7..], 0).value;
    var s1 := s[7 + x.used..];
    var y := ReadLeb(s1, 0).value;
    var s2 := s1[y.used..];
    LebOneWay(s[7..]);
    LebOneWay(s1);
    BytesUnique(s[3..5]);
    BytesUnique(s[5..7]);
    BytesUnique(s2[..8]);
    assert s[7..][..x.used] == s[7..7 + x.used];
    var t := s[..p.used];
    assert t == s[..3] + (s[3..5] + (s[5..7] + (s[7..7 + x.used] + (s1[..y.used] + (s2[..8] + s2[8..8 + y.val])))));
    assert s[..3] == [0xBB, 1, p.f.kind];
  }

  // ---------------------------------------------------------------- backup

  /** A frame the writer can write, behind what it has written. */
  lemma Written(out: seq<byte>, f: Frame)
    requires FrameOk(f)
    ensures FrameAt(out + Bytes(f), |out|) == Some(DiskFrames.Parsed(f, |FrameBytes(f)|))
  {
    hide FrameBytes, ReadFrame;
    FrameLies(out + FrameBytes(f), out, f);
  }

  /** What a pass writes: with deduplication, and where the table finds a block of the same size by fingerprint and
      digest, a reference to it, and otherwise the block itself, which the table learns then and only then. */
  lemma ReferredExactly(v: Env, o: Opts, image: seq<byte>, w: Writer)
    requires EnvOk(v) && OptsOk(o) && w.pos < |image| && Roomy(w.table) && w.n < WORD64
    requires forall k :: Probe(w.table, k, 0).Some? ==>
               Probe(w.table, k, 0).value.off < WORD64 && Probe(w.table, k, 0).value.seq_ < WORD64
    ensures var b := image[w.pos..w.pos + Min(o.blockSize, |image| - w.pos)];
            var u := BackupStep(v, o, image, w);
            var p := FrameAt(u.out, |w.out|);
            |v.sha(b)| >= 16 && p.Some? && |u.out| == |w.out| + p.value.used && p.value.f.plain == |b|
            && p.value.f.checksum == v.xxh(b, 0) && u.hash == v.xxh(b, w.hash) && u.n == w.n + 1 && u.pos == w.pos + |b|
            && var k := Key(v.xxh(b, 0), v.sha(b)[..16]);
               var e := Probe(w.table, k, 0);
               if o.dedup && e.Some? && e.value.size == |b| then
                 p.value.f.kind == 4 && u.table == w.table
                 && ReadRef(v, o, p.value.f, w.n)
                    == Some(Entry(e.value.off, |b|, if o.encrypt then e.value.seq_ else 0))
               else
                 p.value.f.kind == 0 && Decompress(v, o, p.value.f, w.n) == Some(b)
                 && u.table == if o.dedup then Add(w.table, w.count, k, Entry(|w.out|, |b|, w.n)) else w.table
  {
    hide EnvOk, DataFrame, RefFrame, FrameBytes, Decompress, ReadRef, FrameAt, Probe, Add, Adds;
    var b := Block(o, image, w.pos);
    Bounded(v, b, 0);
    BlockSize(o, image, w.pos);
    var r := Hit(v, o, w, b);
    if r.Some? {
      RefFrameBack(v, o, r.value, |b|, v.xxh(b, 0), w.n);
      Written(w.out, RefFrame(v, o, r.value, |b|, v.xxh(b, 0), w.n));
    } else {
      DataFrameBack(v, o, b, w.n);
      Written(w.out, DataFrame(v, o, b, w.n));
    }
  }

  // ---------------------------------------------------------------- restore

  /** The stored bytes s of a frame, opened under position n where the archive is encrypted. */
  predicate Opens(v: Env, o: Opts, f: Frame, n: nat, s: seq<byte>)
    requires f.kind < 0x100
  {
    if f.flags % 2 == 1 then
      o.encrypt
      && v.unseal(f.payload, n, Preface(f.kind, f.codec, f.flags, f.plain, |f.payload|, f.checksum)) == Some(s)
    else !o.encrypt && s == f.payload
  }

  /** A frame stands for b: it opens, and b, stored or packed in it, has its size and its checksum. */
  ghost predicate StandsFor(v: Env, o: Opts, f: Frame, n: nat, b: seq<byte>)
    requires f.kind < 0x100
  {
    exists s: seq<byte> ::
      Opens(v, o, f, n, s) && |b| == f.plain <= 0x1000_0000 && |f.payload| <= 0x1000_0000 + 1024
      && (b != [] ==>
            v.xxh(b, 0) == f.checksum
            && if f.codec == 0 then |b| <= |s| && b == s[..|b|] else f.codec == v.codec && v.unpack(s, |b|) == Some(b))
  }

  lemma DecompressMeans(v: Env, o: Opts, f: Frame, n: nat, b: seq<byte>)
    requires f.kind < 0x100
    ensures Decompress(v, o, f, n) == Some(b) <==> StandsFor(v, o, f, n, b)
  {
    hide Preface;
    if StandsFor(v, o, f, n, b) {
      var s: seq<byte> :| Opens(v, o, f, n, s) && |b| == f.plain <= 0x1000_0000 && |f.payload| <= 0x1000_0000 + 1024
        && (b != [] ==>
              v.xxh(b, 0) == f.checksum
              && if f.codec == 0 then |b| <= |s| && b == s[..|b|]
                 else f.codec == v.codec && v.unpack(s, |b|) == Some(b));
      assert Payload(v, o, f, n) == Some(s);
    }
    if Decompress(v, o, f, n) == Some(b) {
      var s := Payload(v, o, f, n).value;
      assert Opens(v, o, f, n, s);
    }
  }

  /** The frame p at position n of an archive a, behind which cur bytes have been read, yields b: it stands for b, or
      it refers to an earlier frame of the same size and checksum that does, under the position it names. */
  ghost predicate Yields(v: Env, o: Opts, a: seq<byte>, f: Frame, n: nat, cur: nat, b: seq<byte>)
    requires f.kind < 0x100
  {
    if f.kind == 0 then StandsFor(v, o, f, n, b)
    else
      f.kind == 4 && f.codec == 0 && (o.encrypt || f.flags == 0)
      && exists s: seq<byte> ::
           Opens(v, o, f, n, s) && |s| == (if o.encrypt then 16 else 8) && Num(s[..8]) < cur
           && var p := FrameAt(a, Num(s[..8]));
              p.Some? && p.value.f.kind == 0 && p.value.f.plain == f.plain && p.value.f.checksum == f.checksum
              && StandsFor(v, o, p.value.f, if o.encrypt then Num(s[8..]) else 0, b)
  }

  lemma ResolveMeans(v: Env, o: Opts, a: seq<byte>, f: Frame, n: nat, cur: nat, b: seq<byte>)
    requires f.kind == 4
    ensures Resolve(v, o, a, f, n, cur) == Some(b) <==> Yields(v, o, a, f, n, cur, b)
  {
    hide Preface, FrameAt, Decompress, StandsFor, Num;
    var r := ReadRef(v, o, f, n);
    if r.Some? {
      var s := Payload(v, o, f, n).value;
      assert Opens(v, o, f, n, s);
      var p := FrameAt(a, r.value.off);
      if p.Some? {
        DecompressMeans(v, o, p.value.f, r.value.seq_, b);
      }
    }
    if Yields(v, o, a, f, n, cur, b) {
      var s: seq<byte> :| Opens(v, o, f, n, s) && |s| == (if o.encrypt then 16 else 8) && Num(s[..8]) < cur
        && var p := FrameAt(a, Num(s[..8]));
           p.Some? && p.value.f.kind == 0 && p.value.f.plain == f.plain && p.value.f.checksum == f.checksum
           && StandsFor(v, o, p.value.f, if o.encrypt then Num(s[8..]) else 0, b);
      assert Payload(v, o, f, n) == Some(s);
    }
  }

  function Joined(bs: seq<seq<byte>>): (s: seq<byte>) { if bs == [] then [] else bs[0] + Joined(bs[1..]) }

  function HashedOn(v: Env, bs: seq<seq<byte>>, h: nat): (g: nat) {
    if bs == [] then h else HashedOn(v, bs[1..], v.xxh(bs[0], h))
  }

  /** At most left frames from offset at of the archive on, up to the index, yield the blocks bs, the first of them at
      position n. */
  ghost predicate Blocks(v: Env, o: Opts, a: seq<byte>, at: nat, left: nat, n: nat, bs: seq<seq<byte>>)
    decreases left
  {
    if left == 0 then bs == []
    else
      var p := FrameAt(a, at);
      p.Some? && if p.value.f.kind == 2 then bs == []
                 else
                   bs != [] && Yields(v, o, a, p.value.f, n, at + p.value.used, bs[0])
                   && Blocks(v, o, a, at + p.value.used, left - 1, n + 1, bs[1..])
  }

  /** Restore yields an image exactly when the frames yield blocks that make it up, as many, as long and with the
      running hash as recorded. */
  lemma RestoredExactly(v: Env, o: Opts, a: seq<byte>, first: nat, total: nat, size: nat, blocks: nat, hash: nat,
                        image: seq<byte>)
    ensures Restore(v, o, a, first, total, size, blocks, hash) == Some(image)
            <==> exists bs: seq<seq<byte>> ::
                   Blocks(v, o, a, first, total, 0, bs) && Joined(bs) == image && |bs| == blocks && |image| == size
                   && HashedOn(v, bs, 0) == hash
  {
    hide Blocks, Yields, RestoreFrom, HashedOn, Joined;
    var start := Restored([], 0, 0);
    if Restore(v, o, a, first, total, size, blocks, hash) == Some(image) {
      var bs := BlocksFound(v, o, a, first, total, size, start);
      assert [] + Joined(bs) == Joined(bs);
    }
    if bs: seq<seq<byte>> :| Blocks(v, o, a, first, total, 0, bs) && Joined(bs) == image && |bs| == blocks
                             && |image| == size && HashedOn(v, bs, 0) == hash {
      assert [] + Joined(bs) == Joined(bs);
      BlocksTaken(v, o, a, first, total, size, start, bs);
    }
  }

  lemma FrameMeans(v: Env, o: Opts, a: seq<byte>, f: Frame, n: nat, cur: nat, b: seq<byte>)
    requires f.kind < 0x100
    ensures (if f.kind == DEDUP_REF then Resolve(v, o, a, f, n, cur)
             else if f.kind == DATA then Decompress(v, o, f, n) else None) == Some(b)
            <==> Yields(v, o, a, f, n, cur, b)
  {
    hide Decompress, Resolve, StandsFor;
    if f.kind == DATA {
      DecompressMeans(v, o, f, n, b);
    } else if f.kind == DEDUP_REF {
      ResolveMeans(v, o, a, f, n, cur, b);
    }
  }

  lemma {:induction false} BlocksFound(v: Env, o: Opts, a: seq<byte>, at: nat, left: nat, size: nat, r: Restored)
    returns (bs: seq<seq<byte>>)
    requires r.Restored? && RestoreFrom(v, o, a, at, left, size, r).Restored?
    ensures Blocks(v, o, a, at, left, r.n, bs)
    ensures RestoreFrom(v, o, a, at, left, size, r)
            == Restored(r.out + Joined(bs), r.n + |bs|, HashedOn(v, bs, r.hash))
    decreases left
  {
    hide Yields, Resolve, Decompress, FrameAt;
    bs := [];
    assert r.out + [] == r.out;
    if left > 0 {
      var p := FrameAt(a, at).value;
      if p.f.kind != INDEX {
        var b := (if p.f.kind == DEDUP_REF then Resolve(v, o, a, p.f, r.n, at + p.used)
                  else if p.f.kind == DATA then Decompress(v, o, p.f, r.n) else None).value;
        FrameMeans(v, o, a, p.f, r.n, at + p.used, b);
        var more := BlocksFound(v, o, a, at + p.used, left - 1, size,
                                Restored(r.out + b, r.n + 1, v.xxh(b, r.hash)));
        bs := [b] + more;
        assert bs[1..] == more;
        assert r.out + b + Joined(more) == r.out + (b + Joined(more));
      }
    }
  }

  lemma {:induction false} BlocksTaken(v: Env, o: Opts, a: seq<byte>, at: nat, left: nat, size: nat, r: Restored,
                                       bs: seq<seq<byte>>)
    requires r.Restored? && Blocks(v, o, a, at, left, r.n, bs) && |r.out + Joined(bs)| <= size
    ensures RestoreFrom(v, o, a, at, left, size, r)
            == Restored(r.out + Joined(bs), r.n + |bs|, HashedOn(v, bs, r.hash))
    decreases left
  {
    hide Yields, Resolve, Decompress, FrameAt;
    assert r.out + [] == r.out;
    if left > 0 {
      var p := FrameAt(a, at).value;
      if p.f.kind != INDEX {
        var b := bs[0];
        FrameMeans(v, o, a, p.f, r.n, at + p.used, b);
        assert r.out + b + Joined(bs[1..]) == r.out + (b + Joined(bs[1..]));
        BlocksTaken(v, o, a, at + p.used, left - 1, size, Restored(r.out + b, r.n + 1, v.xxh(b, r.hash)), bs[1..]);
      }
    }
  }
}
