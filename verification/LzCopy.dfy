/** The chunked and over-writing copies of the decoder, against byte-by-byte copying. */
module LzCopy {
  import opened LittleEndian
  import opened Lz

  /** A c-byte block move from offset places back: load c bytes, then store them. */
  method MoveChunk(dst: array<byte>, op: nat, offset: nat, c: nat)
    requires 0 < c <= offset <= op && op + c <= dst.Length
    modifies dst
    ensures dst[..op + c] == CopyMatch(old(dst[..op]), offset, c)
    ensures forall i :: op + c <= i < dst.Length ==> dst[i] == old(dst[i])
  {
    hide CopyMatch;
    ghost var h := dst[..op];
    CopyDisjoint(h, offset, c);
    forall i | op <= i < op + c { dst[i] := dst[i - offset]; }
    assert dst[..op + c] == h + h[|h| - offset..|h| - offset + c];
  }

  /** Chunks of c bytes, then an exact tail: match_copy_32, match_copy_16 and the bulk tiers of copy_match_scalar. */
  method ChunkCopy(dst: array<byte>, op: nat, offset: nat, len: nat, c: nat)
    requires 0 < c <= offset <= op && op + len <= dst.Length
    modifies dst
    ensures dst[..op + len] == CopyMatch(old(dst[..op]), offset, len)
    ensures forall i :: op + len <= i < dst.Length ==> dst[i] == old(dst[i])
  {
    hide CopyMatch;
    ghost var h := dst[..op];
    var d: nat, n: nat := op, len;
    CopyNothing(h, offset);
    while n >= c
      invariant n <= len && d == op + (len - n) && dst[..d] == CopyMatch(h, offset, len - n)
      invariant forall i :: d <= i < dst.Length ==> dst[i] == old(dst[i])
    {
      CopySplit(h, offset, len - n, c);
      MoveChunk(dst, d, offset, c);
      d, n := d + c, n - c;
    }
    if n >= 16 {
      CopySplit(h, offset, len - n, 16);
      MoveChunk(dst, d, offset, 16);
      d, n := d + 16, n - 16;
    }
    if n > 0 {
      CopySplit(h, offset, len - n, n);
      MoveChunk(dst, d, offset, n);
    }
  }

  lemma CopyNothing(h: seq<byte>, offset: nat)
    requires 0 < offset <= |h|
    ensures CopyMatch(h, offset, 0) == h
  {
  }

  /** match_overlap: byte by byte, each store feeding later loads. */
  method ByteCopy(dst: array<byte>, op: nat, offset: nat, len: nat)
    requires 0 < offset <= op && op + len <= dst.Length
    modifies dst
    ensures dst[..op + len] == CopyMatch(old(dst[..op]), offset, len)
    ensures forall i :: op + len <= i < dst.Length ==> dst[i] == old(dst[i])
  {
    hide CopyMatch;
    ghost var h := dst[..op];
    CopyNothing(h, offset);
    for j := 0 to len
      invariant dst[..op + j] == CopyMatch(h, offset, j)
      invariant forall i :: op + j <= i < dst.Length ==> dst[i] == old(dst[i])
    {
      CopySplit(h, offset, j, 1);
      MoveChunk(dst, op + j, offset, 1);
    }
  }

  /** copy_match_scalar. */
  method CopyMatchScalar(dst: array<byte>, op: nat, offset: nat, len: nat)
    requires 0 < offset <= op && op + len <= dst.Length
    modifies dst
    ensures dst[..op + len] == CopyMatch(old(dst[..op]), offset, len)
    ensures forall i :: op + len <= i < dst.Length ==> dst[i] == old(dst[i])
  {
    if offset >= 16 {
      ChunkCopy(dst, op, offset, len, 16);
    } else if offset >= 8 {
      ChunkCopy(dst, op, offset, len, 8);
    } else {
      ByteCopy(dst, op, offset, len);
    }
  }

  /** A block move of c bytes of which only the first len count; the rest is scratch. */
  method OverCopy(dst: array<byte>, op: nat, offset: nat, len: nat, c: nat)
    requires 0 < c <= offset <= op && len <= c && op + c <= dst.Length
    modifies dst
    ensures dst[..op + len] == CopyMatch(old(dst[..op]), offset, len)
    ensures forall i :: op + c <= i < dst.Length ==> dst[i] == old(dst[i])
  {
    hide CopyMatch;
    ghost var h := dst[..op];
    CopySplit(h, offset, len, c - len);
    CopyMatchPrefix(h, offset, len, c - len);
    MoveChunk(dst, op, offset, c);
    assert dst[..op + len] == dst[..op + c][..op + len];
  }

  lemma CopyMatchPrefix(h: seq<byte>, offset: nat, m: nat, n: nat)
    requires 0 < offset <= |h|
    ensures CopyMatch(h, offset, m + n)[..|h| + m] == CopyMatch(h, offset, m)
  {
    CopySplit(h, offset, m, n);
  }

  /** The tiers of the hot loop: a 32-byte store when there is room for it, chunks or bytes otherwise. */
  method HotCopy(dst: array<byte>, op: nat, offset: nat, len: nat, end: nat)
    requires 0 < offset <= op && op + len <= end <= dst.Length
    modifies dst
    ensures dst[..op + len] == CopyMatch(old(dst[..op]), offset, len)
    ensures forall i :: end <= i < dst.Length ==> dst[i] == old(dst[i])
  {
    if offset >= 32 {
      if end - op >= 32 && len <= 32 {
        OverCopy(dst, op, offset, len, 32);
      } else {
        ChunkCopy(dst, op, offset, len, 32);
      }
    } else if offset >= 16 {
      ChunkCopy(dst, op, offset, len, 16);
    } else if offset >= 8 {
      ChunkCopy(dst, op, offset, len, 8);
    } else {
      ByteCopy(dst, op, offset, len);
    }
  }

  /** Literals: an exact copy. */
  method CopyLiterals(src: seq<byte>, ip: nat, dst: array<byte>, op: nat, ll: nat)
    requires ip + ll <= |src| && op + ll <= dst.Length
    modifies dst
    ensures dst[..op + ll] == old(dst[..op]) + src[ip..ip + ll]
    ensures forall i :: op + ll <= i < dst.Length ==> dst[i] == old(dst[i])
  {
    forall i | 0 <= i < ll { dst[op + i] := src[ip + i]; }
  }

  /** Literals: sixteen bytes at once, of which only the first ll count. */
  method WildLiterals(src: seq<byte>, ip: nat, dst: array<byte>, op: nat, ll: nat)
    requires ip + 16 <= |src| && op + 16 <= dst.Length && ll <= 16
    modifies dst
    ensures dst[..op + ll] == old(dst[..op]) + src[ip..ip + ll]
    ensures forall i :: op + 16 <= i < dst.Length ==> dst[i] == old(dst[i])
  {
    CopyLiterals(src, ip, dst, op, 16);
    assert dst[..op + ll] == dst[..op + 16][..op + ll];
  }
}
