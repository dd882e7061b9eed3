/** Backup and restore of a disk image: block frames, references to earlier blocks, and their authenticated
    positions. */
module DiskImage {
  import opened Arithmetic
  import opened Bits
  import opened LittleEndian
  import opened Wrappers
  import opened DedupIndex
  import opened DiskFrames

  // ---------------------------------------------------------------- hashes, codec and cipher

  /** The primitives: XXH64 with a seed, SHA-256, the selected block codec, and the cipher bound to a position and
      further data. */
  datatype Env = Env(codec: nat,
                     xxh: (seq<byte>, nat) -> nat,
                     sha: seq<byte> -> seq<byte>,
                     pack: seq<byte> -> seq<byte>,
                     unpack: (seq<byte>, nat) -> Option<seq<byte>>,
                     seal: (seq<byte>, nat, seq<byte>) -> seq<byte>,
                     unseal: (seq<byte>, nat, seq<byte>) -> Option<seq<byte>>)

  /** The bytes a sealed payload is longer. */
  const SEAL: nat := 48

  /** What is known of the primitives: block codecs invert when they shrink, and unsealing needs the position and data
      of the sealing. */
  ghost predicate EnvOk(v: Env) {
    0 < v.codec < 0x1_0000
    && (forall x: seq<byte>, h: nat :: v.xxh(x, h) < WORD64)
    && (forall x: seq<byte> :: |v.sha(x)| == 32)
    && (forall x: seq<byte> :: 0 < |v.pack(x)| < |x| ==> v.unpack(v.pack(x), |x|) == Some(x))
    && (forall x: seq<byte>, n: nat, a: seq<byte> ::
          |v.seal(x, n, a)| == |x| + SEAL && v.unseal(v.seal(x, n, a), n, a) == Some(x))
  }

  datatype Opts = Opts(blockSize: nat, encrypt: bool, dedup: bool)

  predicate OptsOk(o: Opts) { 0 < o.blockSize <= MAX_BLOCK }

  // ---------------------------------------------------------------- frames of blocks

  /** The bytes of a block header that are authenticated with the payload. */
  function Preface(kind: nat, codec: nat, flags: nat, plain: nat, size: nat, checksum: nat): (a: seq<byte>)
    requires kind < 0x100
    ensures |a| == 29
  {
    [kind] + ToBytes(codec, 2) + ToBytes(flags, 2) + ToBytes(plain, 8) + ToBytes(size, 8) + ToBytes(checksum, 8)
  }

  /** A frame around a payload, sealed under position n in an encrypted archive. */
  function MakeFrame(v: Env, o: Opts, kind: nat, codec: nat, plain: nat, checksum: nat, payload: seq<byte>, n: nat)
    : (f: Frame)
    requires kind < 0x100
  {
    if o.encrypt then
      Frame(kind, codec, ENCRYPTED, plain, checksum,
            v.seal(payload, n, Preface(kind, codec, ENCRYPTED, plain, 16 + |payload| + 32, checksum)))
    else Frame(kind, codec, 0, plain, checksum, payload)
  }

  predicate AllZero(b: seq<byte>) { forall i :: 0 <= i < |b| ==> b[i] == 0 }

  /** The frame of a block: packed when that is shorter, otherwise stored; a zero block is stored. */
  function DataFrame(v: Env, o: Opts, b: seq<byte>, n: nat): (f: Frame) {
    var packed := if AllZero(b) then [] else v.pack(b);
    if packed == [] || |packed| >= |b| then MakeFrame(v, o, DATA, STORE, |b|, v.xxh(b, 0), b, n)
    else MakeFrame(v, o, DATA, v.codec, |b|, v.xxh(b, 0), packed, n)
  }

  /** zupt_dedup_write_ref_secure: the offset of the earlier frame, and in an encrypted archive its position too. */
  function RefFrame(v: Env, o: Opts, e: Entry, size: nat, checksum: nat, n: nat): (f: Frame) {
    MakeFrame(v, o, DEDUP_REF, STORE, size, checksum,
      ToBytes(e.off, 8) + (if o.encrypt then ToBytes(e.seq_, 8) else []), n)
  }

  /** The payload of a frame, unsealed under position n in an encrypted archive. */
  function Payload(v: Env, o: Opts, f: Frame, n: nat): (r: Option<seq<byte>>)
    requires f.kind < 0x100
  {
    if f.flags % 2 == 1 then
      if o.encrypt then v.unseal(f.payload, n, Preface(f.kind, f.codec, f.flags, f.plain, |f.payload|, f.checksum))
        else None
    else if o.encrypt then None
    else Some(f.payload)
  }

  /** decompress_block. */
  function Decompress(v: Env, o: Opts, f: Frame, n: nat): (r: Option<seq<byte>>)
    requires f.kind < 0x100
  {
    if f.plain > MAX_BLOCK || |f.payload| > MAX_BLOCK + 1024 then None
    else
      match Payload(v, o, f, n)
      case None => None
      case Some(s) =>
        if f.plain == 0 then Some([])
        else
          var r := if f.codec == STORE then (if |s| < f.plain then None else Some(s[..f.plain]))
                   else if f.codec == v.codec then v.unpack(s, f.plain) else None;
          if r.Some? && (|r.value| != f.plain || v.xxh(r.value, 0) != f.checksum) then None else r
  }

  /** zupt_dedup_read_ref: the offset and position of the frame referred to. */
  function ReadRef(v: Env, o: Opts, f: Frame, n: nat): (r: Option<Entry>)
    requires f.kind < 0x100
  {
    if f.codec != STORE || (!o.encrypt && f.flags != 0) then None
    else
      match Payload(v, o, f, n)
      case None => None
      case Some(s) =>
        if |s| != (if o.encrypt then 16 else 8) then None
        else Some(Entry(Num(s[..8]), f.plain, if o.encrypt then Num(s[8..]) else 0))
  }

  // ---------------------------------------------------------------- what a frame yields

  lemma MakeFrameOk(v: Env, o: Opts, kind: nat, codec: nat, plain: nat, checksum: nat, payload: seq<byte>, n: nat)
    requires EnvOk(v) && kind < 0x100 && codec < 0x1_0000 && plain <= MAX_BLOCK && checksum < WORD64
    requires |payload| <= MAX_BLOCK
    ensures FrameOk(MakeFrame(v, o, kind, codec, plain, checksum, payload, n))
    ensures Payload(v, o, MakeFrame(v, o, kind, codec, plain, checksum, payload, n), n) == Some(payload)
    ensures |MakeFrame(v, o, kind, codec, plain, checksum, payload, n).payload| <= MAX_BLOCK + SEAL
  {
    var a := Preface(kind, codec, ENCRYPTED, plain, 16 + |payload| + 32, checksum);
    assert |v.seal(payload, n, a)| == |payload| + SEAL;
  }

  /** A block's frame yields the block under the position it was written at. */
  lemma DataFrameBack(v: Env, o: Opts, b: seq<byte>, n: nat)
    requires EnvOk(v) && 0 < |b| <= MAX_BLOCK
    ensures var f := DataFrame(v, o, b, n);
            FrameOk(f) && f.kind == DATA && f.plain == |b| && f.checksum == v.xxh(b, 0)
              && Decompress(v, o, f, n) == Some(b)
  {
    hide Preface;
    var packed := if AllZero(b) then [] else v.pack(b);
    var stored := packed == [] || |packed| >= |b|;
    assert v.xxh(b, 0) < WORD64;
    MakeFrameOk(v, o, DATA, if stored then STORE else v.codec, |b|, v.xxh(b, 0), if stored then b else packed, n);
    assert b[..|b|] == b;
  }

  /** A reference yields what it was written with, under the position it was written at. */
  lemma RefFrameBack(v: Env, o: Opts, e: Entry, size: nat, checksum: nat, n: nat)
    requires EnvOk(v) && size <= MAX_BLOCK && checksum < WORD64 && e.off < WORD64 && e.seq_ < WORD64
    ensures var f := RefFrame(v, o, e, size, checksum, n);
            FrameOk(f) && f.kind == DEDUP_REF && f.plain == size && f.checksum == checksum
            && ReadRef(v, o, f, n) == Some(Entry(e.off, size, if o.encrypt then e.seq_ else 0))
  {
    hide Preface, Num, ToBytes, EnvOk;
    var p, q := ToBytes(e.off, 8), ToBytes(e.seq_, 8);
    var s := p + (if o.encrypt then q else []);
    Powers();
    ToBytesNum(e.off, 8);
    ToBytesNum(e.seq_, 8);
    assert s[..8] == p && s[8..] == if o.encrypt then q else [];
    MakeFrameOk(v, o, DEDUP_REF, STORE, size, checksum, s, n);
  }

  // ---------------------------------------------------------------- backup

  /** The state of the backup loop. */
  datatype Writer = Writer(pos: nat, n: nat, hash: nat, table: seq<Slot>, count: nat, out: seq<byte>)

  function KeyOf(v: Env, b: seq<byte>): (k: Key)
    requires |v.sha(b)| >= 16
  {
    Key(v.xxh(b, 0), v.sha(b)[..16])
  }

  /** The block read at pos: a whole one, or what is left. */
  function Block(o: Opts, image: seq<byte>, pos: nat): (b: seq<byte>)
    requires pos <= |image|
    ensures |b| == Min(o.blockSize, |image| - pos)
  {
    image[pos..pos + Min(o.blockSize, |image| - pos)]
  }

  /** The earlier block that can stand for this one. */
  function Hit(v: Env, o: Opts, w: Writer, b: seq<byte>): (r: Option<Entry>)
    requires |v.sha(b)| >= 16 && Roomy(w.table)
  {
    var r := if o.dedup then Probe(w.table, KeyOf(v, b), 0) else None;
    if r.Some? && r.value.size == |b| then r else None
  }

  /** One pass of the backup loop. */
  function BackupStep(v: Env, o: Opts, image: seq<byte>, w: Writer): (u: Writer)
    requires EnvOk(v) && OptsOk(o) && w.pos < |image| && Roomy(w.table)
    ensures u.pos > w.pos && u.pos <= |image| && Roomy(u.table)
  {
    var b := Block(o, image, w.pos);
    assert |v.sha(b)| == 32;
    var hit := Hit(v, o, w, b);
    var next := w.(pos := w.pos + |b|, n := w.n + 1, hash := v.xxh(b, w.hash));
    if hit.Some? then
      var f := RefFrame(v, o, hit.value, |b|, v.xxh(b, 0), w.n);
      next.(out := w.out + Bytes(f))
    else
      var f := DataFrame(v, o, b, w.n);
      if o.dedup then
        next.(out := w.out + Bytes(f), count := if Adds(w.table, w.count, KeyOf(v, b)) then w.count + 1 else w.count,
              table := Add(w.table, w.count, KeyOf(v, b), Entry(|w.out|, |b|, w.n)))
      else next.(out := w.out + Bytes(f))
  }

  /** The bytes of a frame that can be written. */
  function Bytes(f: Frame): (s: seq<byte>) { if FrameOk(f) then FrameBytes(f) else [] }

  function BackupFrom(v: Env, o: Opts, image: seq<byte>, w: Writer): (u: Writer)
    requires EnvOk(v) && OptsOk(o) && w.pos <= |image| && Roomy(w.table)
    decreases |image| - w.pos
  {
    if w.pos == |image| then w else BackupFrom(v, o, image, BackupStep(v, o, image, w))
  }

  // ---------------------------------------------------------------- restore

  /** What the restore loop has written, its position, and its running hash; or an error. */
  datatype Restored = Restored(out: seq<byte>, n: nat, hash: nat) | Failed

  /** A frame at an offset of the archive. */
  function FrameAt(a: seq<byte>, at: nat): (r: Option<DiskFrames.Parsed>)
    ensures r.Some? ==> r.value.f.kind < 0x100 && 0 < r.value.used && at + r.value.used <= |a|
  {
    if at <= |a| then ReadFrame(a[at..]) else None
  }

  /** The block a reference frame at position n, ending at cur, stands for. */
  function Resolve(v: Env, o: Opts, a: seq<byte>, f: Frame, n: nat, cur: nat): (r: Option<seq<byte>>)
    requires f.kind < 0x100
  {
    match ReadRef(v, o, f, n)
    case None => None
    case Some(e) =>
      if e.off >= cur then None
      else
        match FrameAt(a, e.off)
        case None => None
        case Some(p) =>
          if p.f.kind != DATA || p.f.plain != f.plain || p.f.checksum != f.checksum then None
          else Decompress(v, o, p.f, e.seq_)
  }

  /** The restore loop with left frames to read at offset at. */
  function RestoreFrom(v: Env, o: Opts, a: seq<byte>, at: nat, left: nat, size: nat, r: Restored): (q: Restored)
    requires r.Restored?
    decreases left
  {
    if left == 0 then r
    else
      match FrameAt(a, at)
      case None => Failed
      case Some(p) =>
        if p.f.kind == INDEX then r
        else
          var b := if p.f.kind == DEDUP_REF then Resolve(v, o, a, p.f, r.n, at + p.used)
                   else if p.f.kind == DATA then Decompress(v, o, p.f, r.n) else None;
          if b.None? || |r.out| + |b.value| > size then Failed
          else RestoreFrom(v, o, a, at + p.used, left - 1, size,
            Restored(r.out + b.value, r.n + 1, v.xxh(b.value, r.hash)))
  }

  /** zupt_disk_restore after the headers: the image, if the counts and the hash of the index are met. */
  function Restore(v: Env, o: Opts, a: seq<byte>, first: nat, total: nat, size: nat, blocks: nat, hash: nat)
    : (q: Option<seq<byte>>)
  {
    var r := RestoreFrom(v, o, a, first, total, size, Restored([], 0, 0));
    if r.Failed? || r.n != blocks || |r.out| != size || r.hash != hash then None else Some(r.out)
  }

  // ---------------------------------------------------------------- there and back

  /** Block number m of the image. */
  function Numbered(o: Opts, image: seq<byte>, m: nat): (b: seq<byte>)
    requires Times(m, o.blockSize) <= |image|
  {
    Block(o, image, Times(m, o.blockSize))
  }

  /** Fingerprint and digest tell the blocks of the image apart. */
  ghost predicate Separated(v: Env, o: Opts, image: seq<byte>)
    requires EnvOk(v)
  {
    forall i: nat, j: nat :: Times(i, o.blockSize) < |image| && Times(j, o.blockSize) < |image|
      && |Numbered(o, image, i)| == |Numbered(o, image, j)|
         && EqualKeys(v, Numbered(o, image, i), Numbered(o, image, j))
      ==> Numbered(o, image, i) == Numbered(o, image, j)
  }

  predicate EqualKeys(v: Env, b: seq<byte>, c: seq<byte>)
    requires |v.sha(b)| >= 16 && |v.sha(c)| >= 16
  {
    KeyOf(v, b) == KeyOf(v, c)
  }

  /** A DATA frame of block b sealed under position n lies at an offset of the archive. */
  predicate StoredAt(v: Env, o: Opts, a: seq<byte>, at: nat, n: nat, b: seq<byte>) {
    var p := FrameAt(a, at);
    p.Some? && p.value.f.kind == DATA && p.value.f.plain == |b| && p.value.f.checksum == v.xxh(b, 0)
    && Decompress(v, o, p.value.f, n) == Some(b)
  }

  /** What the table finds for a key is an earlier block of the image with that key, stored where the entry says. */
  predicate Known(v: Env, o: Opts, image: seq<byte>, a: seq<byte>, w: Writer, k: Key)
    requires Roomy(w.table)
  {
    var r := Probe(w.table, k, 0);
    r.Some? ==>
      var e := r.value;
      e.off < |w.out| && e.seq_ < w.n && Times(e.seq_, o.blockSize) < |image|
      && var b := Numbered(o, image, e.seq_);
         e.size == |b| && |v.sha(b)| >= 16 && KeyOf(v, b) == k && StoredAt(v, o, a, e.off, e.seq_, b)
  }

  /** What the backup loop keeps, seen from the final archive a. */
  ghost predicate Underway(v: Env, o: Opts, image: seq<byte>, a: seq<byte>, w: Writer) {
    Roomy(w.table) && Linked(w.table) && w.pos <= |image| && |w.out| <= |a| < WORD64 && a[..|w.out|] == w.out
      && w.n <= |w.out|
    && (w.pos < |image| ==> w.pos == Times(w.n, o.blockSize))
    && forall k :: Known(v, o, image, a, w, k)
  }

  lemma FrameLies(a: seq<byte>, out: seq<byte>, f: Frame)
    requires FrameOk(f) && |out| + |FrameBytes(f)| <= |a| && a[..|out| + |FrameBytes(f)|] == out + FrameBytes(f)
    ensures FrameAt(a, |out|) == Some(DiskFrames.Parsed(f, |FrameBytes(f)|))
  {
    hide FrameBytes, ReadFrame;
    var end := |out| + |FrameBytes(f)|;
    var rest := a[end..];
    assert a == a[..end] + rest;
    assert a[|out|..] == FrameBytes(f) + rest;
    FrameBack(f, rest);
  }

  lemma NextBlock(o: Opts, image: seq<byte>, w: Writer)
    requires OptsOk(o) && w.pos < |image| && w.pos == Times(w.n, o.blockSize)
    ensures Block(o, image, w.pos) == Numbered(o, image, w.n)
    ensures w.pos + |Block(o, image, w.pos)| < |image|
            ==> w.pos + |Block(o, image, w.pos)| == Times(w.n + 1, o.blockSize)
  {
    Distribute(o.blockSize, w.n, 1);
  }

  lemma BlockSize(o: Opts, image: seq<byte>, pos: nat)
    requires OptsOk(o) && pos < |image|
    ensures 0 < |Block(o, image, pos)| <= MAX_BLOCK
            && image[..pos] + Block(o, image, pos) == image[..pos + |Block(o, image, pos)|]
  {
  }

  /** The loop only ever appends. */
  lemma {:induction false} BackupAppends(v: Env, o: Opts, image: seq<byte>, w: Writer)
    requires EnvOk(v) && OptsOk(o) && w.pos <= |image| && Roomy(w.table)
    ensures var u := BackupFrom(v, o, image, w);
            u.pos == |image| && |w.out| <= |u.out| && u.out[..|w.out|] == w.out && w.n <= u.n
    decreases |image| - w.pos
  {
    hide EnvOk, Bytes, Block, Hit, Add, Adds, DataFrame, RefFrame;
    if w.pos < |image| {
      var x := BackupStep(v, o, image, w);
      assert x.out[..|w.out|] == w.out;
      BackupAppends(v, o, image, x);
      var u := BackupFrom(v, o, image, w);
      assert u.out[..|w.out|] == u.out[..|x.out|][..|w.out|];
    }
  }

  /** A later state sees the same entries. */
  lemma KnownLater(v: Env, o: Opts, image: seq<byte>, a: seq<byte>, w: Writer, u: Writer, k: Key)
    requires Roomy(w.table) && Known(v, o, image, a, w, k) && u.table == w.table && |w.out| <= |u.out| && w.n <= u.n
    ensures Known(v, o, image, a, u, k)
  {
    hide StoredAt, Probe, KeyOf, Numbered;
  }

  /** A pass that writes a reference: the frame resolves to the block. */
  lemma RefStep(v: Env, o: Opts, image: seq<byte>, a: seq<byte>, w: Writer)
    requires EnvOk(v) && OptsOk(o) && Separated(v, o, image) && Underway(v, o, image, a, w) && w.pos < |image|
    requires |v.sha(Block(o, image, w.pos))| >= 16 && Hit(v, o, w, Block(o, image, w.pos)).Some?
    requires var u := BackupStep(v, o, image, w); |u.out| <= |a| && a[..|u.out|] == u.out
    ensures var u := BackupStep(v, o, image, w);
            var p := FrameAt(a, |w.out|);
            p.Some? && |w.out| + p.value.used == |u.out| && p.value.f.kind == DEDUP_REF
            && Resolve(v, o, a, p.value.f, w.n, |u.out|) == Some(Block(o, image, w.pos)) && Underway(v, o, image, a, u)
  {
    hide EnvOk, Separated, RefFrame, FrameBytes, FrameOk, KeyOf, Decompress, FrameAt, ReadRef, Linked, Probe, Times,
         Numbered, Block, DataFrame;
    var b := Block(o, image, w.pos);
    var e := Hit(v, o, w, b).value;
    var u := BackupStep(v, o, image, w);
    assert Known(v, o, image, a, w, KeyOf(v, b));
    NextBlock(o, image, w);
    BlockSize(o, image, w.pos);
    KeysSeparate(v, o, image, e.seq_, w.n);
    Bounded(v, b, 0);
    RefFrameBack(v, o, e, |b|, v.xxh(b, 0), w.n);
    var f := RefFrame(v, o, e, |b|, v.xxh(b, 0), w.n);
    FrameLies(a, w.out, f);
    ResolveIs(v, o, a, f, w.n, |u.out|, e.off, e.seq_, b);
    forall k ensures Known(v, o, image, a, u, k) {
      assert Known(v, o, image, a, w, k);
      KnownLater(v, o, image, a, w, u, k);
    }
  }

  lemma Bounded(v: Env, b: seq<byte>, h: nat)
    requires EnvOk(v)
    ensures v.xxh(b, h) < WORD64 && |v.sha(b)| == 32
  {
  }

  lemma KeysSeparate(v: Env, o: Opts, image: seq<byte>, i: nat, j: nat)
    requires EnvOk(v) && Separated(v, o, image) && Times(i, o.blockSize) < |image| && Times(j, o.blockSize) < |image|
    requires |v.sha(Numbered(o, image, i))| >= 16 && |v.sha(Numbered(o, image, j))| >= 16
    requires |Numbered(o, image, i)| == |Numbered(o, image, j)|
             && KeyOf(v, Numbered(o, image, i)) == KeyOf(v, Numbered(o, image, j))
    ensures Numbered(o, image, i) == Numbered(o, image, j)
  {
    hide Numbered, Times, KeyOf;
    assert EqualKeys(v, Numbered(o, image, i), Numbered(o, image, j));
  }

  lemma ResolveIs(v: Env, o: Opts, a: seq<byte>, f: Frame, n: nat, cur: nat, off: nat, m: nat, b: seq<byte>)
    requires f.kind < 0x100 && f.plain == |b| && f.checksum == v.xxh(b, 0) && off < cur && StoredAt(v, o, a, off, m, b)
    requires ReadRef(v, o, f, n) == Some(Entry(off, f.plain, if o.encrypt then m else 0))
    ensures Resolve(v, o, a, f, n, cur) == Some(b)
  {
    hide ReadRef, FrameAt;
    PlainPosition(v, o, FrameAt(a, off).value.f, m);
  }

  /** Without encryption the position plays no part. */
  lemma PlainPosition(v: Env, o: Opts, f: Frame, m: nat)
    requires f.kind < 0x100
    ensures !o.encrypt ==> Decompress(v, o, f, m) == Decompress(v, o, f, 0)
  {
  }

  /** A pass that writes a block: the frame yields it. */
  lemma DataStep(v: Env, o: Opts, image: seq<byte>, a: seq<byte>, w: Writer)
    requires EnvOk(v) && OptsOk(o) && Underway(v, o, image, a, w) && w.pos < |image|
    requires |v.sha(Block(o, image, w.pos))| >= 16 && Hit(v, o, w, Block(o, image, w.pos)).None?
    requires var u := BackupStep(v, o, image, w); |u.out| <= |a| && a[..|u.out|] == u.out
    ensures var u := BackupStep(v, o, image, w);
            var p := FrameAt(a, |w.out|);
            p.Some? && |w.out| + p.value.used == |u.out| && p.value.f.kind == DATA
            && Decompress(v, o, p.value.f, w.n) == Some(Block(o, image, w.pos)) && Underway(v, o, image, a, u)
  {
    hide EnvOk, DataFrame, FrameBytes, FrameOk, KeyOf, Decompress, FrameAt, Linked, Probe, Times, Numbered, Block, Hit,
         Add, Adds, RefFrame;
    var b := Block(o, image, w.pos);
    var u := BackupStep(v, o, image, w);
    NextBlock(o, image, w);
    BlockSize(o, image, w.pos);
    DataFrameBack(v, o, b, w.n);
    FrameLies(a, w.out, DataFrame(v, o, b, w.n));
    if o.dedup {
      AddKeepsLinked(w.table, w.count, KeyOf(v, b), Entry(|w.out|, |b|, w.n));
    }
    forall k ensures Known(v, o, image, a, u, k) {
      assert Known(v, o, image, a, w, k);
      if o.dedup {
        AddIsFirstInsert(w.table, w.count, KeyOf(v, b), Entry(|w.out|, |b|, w.n), k);
      }
    }
  }

  lemma HitDedups(v: Env, o: Opts, w: Writer, b: seq<byte>)
    requires |v.sha(b)| >= 16 && Roomy(w.table) && Hit(v, o, w, b).Some?
    ensures o.dedup
  {
  }

  /** From any state of the backup on, the restore loop rebuilds the rest of the image. */
  lemma {:induction false} RestoreRest(v: Env, o: Opts, image: seq<byte>, a: seq<byte>, w: Writer)
    requires EnvOk(v) && OptsOk(o) && (o.dedup ==> Separated(v, o, image)) && Underway(v, o, image, a, w)
    requires var u := BackupFrom(v, o, image, w); |u.out| <= |a| && a[..|u.out|] == u.out
    ensures var u := BackupFrom(v, o, image, w);
            w.n <= u.n && RestoreFrom(v, o, a, |w.out|, u.n - w.n, |image|, Restored(image[..w.pos], w.n, w.hash))
                          == Restored(image, u.n, u.hash)
    decreases |image| - w.pos
  {
    hide EnvOk, Separated, Known, Linked, Decompress, FrameAt, Resolve, Add, Adds, Hit, DataFrame, RefFrame, Bytes,
         KeyOf;
    var u := BackupFrom(v, o, image, w);
    if w.pos == |image| {
      assert image[..|image|] == image;
    } else {
      var x := BackupStep(v, o, image, w);
      var b := Block(o, image, w.pos);
      BackupAppends(v, o, image, x);
      assert a[..|x.out|] == a[..|u.out|][..|x.out|] == x.out;
      Bounded(v, b, 0);
      BlockSize(o, image, w.pos);
      if Hit(v, o, w, b).Some? {
        HitDedups(v, o, w, b);
        RefStep(v, o, image, a, w);
      } else {
        DataStep(v, o, image, a, w);
      }
      RestoreRest(v, o, image, a, x);
      assert image[..w.pos] + b == image[..x.pos];
    }
  }

  /** The backup of an image behind the archive headers, with an empty table. */
  function Backup(v: Env, o: Opts, image: seq<byte>, headers: seq<byte>, capacity: nat): (w: Writer)
    requires EnvOk(v) && OptsOk(o) && capacity >= PROBES
  {
    BackupFrom(v, o, image, Writer(0, 0, 0, seq(capacity, i => Empty), 0, headers))
  }

  /** Restoring what was backed up, with the counts and hash the backup recorded, gives the image, whatever follows the
      frames. */
  lemma RestoreBackup(v: Env, o: Opts, image: seq<byte>, headers: seq<byte>, capacity: nat, trailer: seq<byte>)
    requires EnvOk(v) && OptsOk(o) && capacity >= PROBES && (o.dedup ==> Separated(v, o, image))
    requires |Backup(v, o, image, headers, capacity).out + trailer| < WORD64
    ensures var w := Backup(v, o, image, headers, capacity);
            Restore(v, o, w.out + trailer, |headers|, w.n, |image|, w.n, w.hash) == Some(image)
  {
    hide EnvOk, Separated, BackupFrom, RestoreFrom, Linked, Probe;
    var w0 := Writer(0, 0, 0, seq(capacity, i => Empty), 0, headers);
    EmptyIsLinked(w0.table);
    BackupAppends(v, o, image, w0);
    var w := Backup(v, o, image, headers, capacity);
    var a := w.out + trailer;
    assert a[..|w.out|] == w.out;
    assert a[..|headers|] == w.out[..|headers|];
    assert image[..0] == [];
    forall k ensures Known(v, o, image, a, w0, k) {
      assert Probe(w0.table, k, 0) == None;
    }
    RestoreRest(v, o, image, a, w0);
  }
}
