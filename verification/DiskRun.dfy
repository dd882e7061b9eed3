/** The block loops of backup and restore, as DiskImage says. */
module DiskRun {
  import opened LittleEndian
  import opened Wrappers
  import opened DedupIndex
  import opened DiskFrames
  import opened DiskImage

  /** The loop of zupt_disk_backup: the archive so far, the number of blocks and the content hash. */
  method RunBackup(v: Env, o: Opts, image: seq<byte>, headers: seq<byte>, capacity: nat)
    returns (out: seq<byte>, n: nat, hash: nat)
    requires EnvOk(v) && OptsOk(o) && capacity >= PROBES
    ensures var w := Backup(v, o, image, headers, capacity); out == w.out && n == w.n && hash == w.hash
  {
    hide EnvOk, Block, DataFrame, RefFrame, Bytes, Probe, Add, Adds, KeyOf, Linked;
    var index := new Index(capacity);
    var total: nat := 0;
    out, n, hash := headers, 0, 0;
    assert index.table[..] == seq(capacity, i => Empty);
    ghost var w := Writer(0, 0, 0, index.table[..], 0, headers);
    ghost var goal := BackupFrom(v, o, image, w);
    while total < |image|
      invariant index.Valid() && fresh(index) && fresh(index.table) && total <= |image| && Roomy(index.table[..])
      invariant w == Writer(total, n, hash, index.table[..], index.count, out)
      invariant goal == BackupFrom(v, o, image, w)
      decreases |image| - total
    {
      var b := Block(o, image, total);
      Bounded(v, b, 0);
      var checksum := v.xxh(b, 0);
      var hit: Option<Entry> := None;
      if o.dedup {
        hit := index.Lookup(KeyOf(v, b));
      }
      if hit.Some? && hit.value.size == |b| {
        out := out + Bytes(RefFrame(v, o, hit.value, |b|, checksum, n));
      } else {
        var at := |out|;
        out := out + Bytes(DataFrame(v, o, b, n));
        if o.dedup {
          var ok := index.Insert(KeyOf(v, b), Entry(at, |b|, n));
        }
      }
      w := BackupStep(v, o, image, w);
      total, n, hash := total + |b|, n + 1, v.xxh(b, hash);
    }
  }

  /** The loop of zupt_disk_restore and its final checks. */
  method RunRestore(v: Env, o: Opts, a: seq<byte>, first: nat, total: nat, size: nat, blocks: nat, hash: nat)
    returns (q: Option<seq<byte>>)
    ensures q == Restore(v, o, a, first, total, size, blocks, hash)
  {
    hide FrameAt, Resolve, Decompress;
    var out: seq<byte>, n: nat, h: nat, at: nat, bi: nat := [], 0, 0, first, 0;
    while bi < total
      invariant bi <= total
      invariant RestoreFrom(v, o, a, first, total, size, Restored([], 0, 0))
                == RestoreFrom(v, o, a, at, total - bi, size, Restored(out, n, h))
    {
      var p := FrameAt(a, at);
      if p.None? {
        return None;
      }
      var f := p.value.f;
      if f.kind == INDEX {
        break;
      }
      var b: Option<seq<byte>> := None;
      if f.kind == DEDUP_REF {
        b := Resolve(v, o, a, f, n, at + p.value.used);
      } else if f.kind == DATA {
        b := Decompress(v, o, f, n);
      }
      if b.None? || |out| + |b.value| > size {
        return None;
      }
      out, n, h := out + b.value, n + 1, v.xxh(b.value, h);
      at, bi := at + p.value.used, bi + 1;
    }
    if n != blocks || |out| != size || h != hash {
      return None;
    }
    q := Some(out);
  }
}
