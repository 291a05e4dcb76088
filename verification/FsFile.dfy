/**
  A file as a sequence of bytes laid over its blocks (fs.c: readi and writei), without reference to where
  the blocks are.
 */
module FsFile {
  import opened Blocks
  import opened Fs

  function NBlocks(size: nat): nat {
    (size + BSIZE - 1) / BSIZE
  }

  /** Every block below a file's size is there, so reading never allocates. */
  ghost predicate NoHoles(d: Disk) {
    forall i: nat :: i < |d.inodes| ==>
      && d.inodes[i].size <= MAXFILE * BSIZE
      && forall n: nat :: n < NBlocks(d.inodes[i].size) ==> Mapped(d, i, n)
  }

  /** The k-th byte of a file. */
  function ByteAt(d: Disk, ino: nat, k: nat): Byte {
    Leaf(d, ino, k / BSIZE).bytes[k % BSIZE]
  }

  /** memmove into a block at o. */
  function Patch(b: Block, o: nat, x: seq<Byte>): (c: Block)
    requires o + |x| <= BSIZE
    ensures forall i :: 0 <= i < BSIZE ==> c.bytes[i] == if o <= i < o + |x| then x[i - o] else b.bytes[i]
  {
    Block(b.bytes[..o] + x + b.bytes[o + |x|..])
  }

  /** The bytes one pass of readi's or writei's loop moves. */
  function Chunk(off: nat, left: nat): (m: nat)
    ensures left > 0 ==> 0 < m
    ensures m <= left && off % BSIZE + m <= BSIZE
  {
    if left < BSIZE - off % BSIZE then left else BSIZE - off % BSIZE
  }

  /** A chunk lies in one block. */
  lemma {:induction false} ChunkInBlock(off: nat, m: nat, k: nat)
    requires off % BSIZE + m <= BSIZE && off <= k < off + m
    ensures k / BSIZE == off / BSIZE && k % BSIZE == off % BSIZE + (k - off)
  {
  }

  /** The other way round: a byte of the chunk's block at an offset in the chunk is a byte of the chunk. */
  lemma {:induction false} BlockInChunk(off: nat, m: nat, k: nat)
    requires off % BSIZE + m <= BSIZE && k / BSIZE == off / BSIZE
    ensures off % BSIZE <= k % BSIZE < off % BSIZE + m <==> off <= k < off + m
    ensures k % BSIZE - off % BSIZE == k - off
  {
  }

  lemma {:induction false} BelowEnd(k: nat, end: nat)
    ensures k < end ==> k / BSIZE < NBlocks(end)
    ensures k / BSIZE < NBlocks(end) ==> k / BSIZE * BSIZE < end
  {
  }

  function Max(a: nat, b: nat): nat {
    if a < b then b else a
  }

  /** Everything written so far by writei: tot bytes of src from off, in a file of size below which nothing is missing. */
  ghost predicate Wrote(d: Disk, t: Disk, ino: nat, size: nat, off: nat, src: seq<Byte>, tot: nat)
    requires tot <= |src|
  {
    && (forall n: nat :: n < NBlocks(Max(size, off + tot)) ==> Mapped(t, ino, n))
    && (forall n: nat :: Mapped(t, ino, n) == (Mapped(d, ino, n) || Fresh(d, ino, size, off + tot, n)))
    && (forall k: nat :: k < Max(size, off + tot) ==>
         ByteAt(t, ino, k) == if off <= k < off + tot then src[k - off] else ByteAt(d, ino, k))
    && OthersSame(d, t, ino)
  }

  /** A block that this write had to add. */
  ghost predicate Fresh(d: Disk, ino: nat, size: nat, end: nat, n: nat) {
    NBlocks(size) <= n < NBlocks(end) && !Mapped(d, ino, n)
  }

  ghost predicate OthersSame(d: Disk, t: Disk, ino: nat) {
    forall i: nat, n: nat :: i != ino ==>
      Mapped(t, i, n) == Mapped(d, i, n) && (Mapped(d, i, n) ==> Leaf(t, i, n) == Leaf(d, i, n))
  }

  /** What a pass of writei's loop leaves in its block. */
  function Written(t: Disk, ino: nat, off: nat, x: seq<Byte>): Block
    requires off % BSIZE + |x| <= BSIZE
  {
    Patch(if Mapped(t, ino, off / BSIZE) then Leaf(t, ino, off / BSIZE) else ZeroBlock(), off % BSIZE, x)
  }

  lemma {:induction false} WroteStart(d: Disk, ino: nat, size: nat, off: nat, src: seq<Byte>)
    requires off <= size && forall n: nat :: n < NBlocks(size) ==> Mapped(d, ino, n)
    ensures Wrote(d, d, ino, size, off, src, 0)
  {
    hide Mapped, Leaf, ByteAt;
  }

  /** One pass of the loop. */
  lemma {:induction false} WroteStep(d: Disk, t: Disk, u: Disk, ino: nat, size: nat, off: nat, src: seq<Byte>,
      tot: nat, m: nat)
    requires tot + m <= |src| && 0 < m && off <= size && Wrote(d, t, ino, size, off, src, tot)
    requires (off + tot) % BSIZE + m <= BSIZE
    requires OnlyLeaf(t, u, ino, (off + tot) / BSIZE, Written(t, ino, off + tot, src[tot..tot + m]))
    ensures Wrote(d, u, ino, size, off, src, tot + m)
  {
    hide Mapped, Leaf, ByteAt, Written, NBlocks, Fresh, Max;
    WroteMaps(d, t, u, ino, size, off, src, tot, m);
    forall k: nat | k < Max(size, off + (tot + m))
      ensures ByteAt(u, ino, k) == if off <= k < off + (tot + m) then src[k - off] else ByteAt(d, ino, k)
    {
      WroteByte(d, t, u, ino, size, off, src, tot, m, k);
    }
  }

  /** Which blocks a pass adds. */
  lemma {:induction false} WroteMaps(d: Disk, t: Disk, u: Disk, ino: nat, size: nat, off: nat, src: seq<Byte>,
      tot: nat, m: nat)
    requires tot + m <= |src| && 0 < m && off <= size && Wrote(d, t, ino, size, off, src, tot)
    requires (off + tot) % BSIZE + m <= BSIZE
    requires OnlyLeaf(t, u, ino, (off + tot) / BSIZE, Written(t, ino, off + tot, src[tot..tot + m]))
    ensures forall n: nat :: n < NBlocks(Max(size, off + (tot + m))) ==> Mapped(u, ino, n)
    ensures forall n: nat :: Mapped(u, ino, n) == (Mapped(d, ino, n) || Fresh(d, ino, size, off + (tot + m), n))
  {
    hide Mapped, Leaf, ByteAt, Written;
    var e := off + tot;
    assert e / BSIZE + 1 == NBlocks(e + m);
    assert NBlocks(e) <= NBlocks(e + m) <= NBlocks(e) + 1;
    assert e / BSIZE < NBlocks(size) ==> Mapped(t, ino, e / BSIZE);
    forall n: nat | n < NBlocks(Max(size, e + m))
      ensures Mapped(u, ino, n)
    {
      assert n == e / BSIZE || n < NBlocks(Max(size, e));
    }
  }

  lemma {:induction false} WroteByte(d: Disk, t: Disk, u: Disk, ino: nat, size: nat, off: nat, src: seq<Byte>,
      tot: nat, m: nat, k: nat)
    requires tot + m <= |src| && 0 < m && off <= size && Wrote(d, t, ino, size, off, src, tot)
    requires (off + tot) % BSIZE + m <= BSIZE && k < Max(size, off + (tot + m))
    requires OnlyLeaf(t, u, ino, (off + tot) / BSIZE, Written(t, ino, off + tot, src[tot..tot + m]))
    ensures ByteAt(u, ino, k) == if off <= k < off + (tot + m) then src[k - off] else ByteAt(d, ino, k)
  {
    hide Mapped, Leaf, Fresh;
    var e := off + tot;
    if e <= k < e + m {
      ChunkInBlock(e, m, k);
      assert src[tot..tot + m][k - e] == src[k - off];
    } else {
      BelowEnd(k, Max(size, e));
      assert Mapped(t, ino, k / BSIZE);
      if k / BSIZE == e / BSIZE {
        BlockInChunk(e, m, k);
        var x := src[tot..tot + m];
        assert Leaf(u, ino, k / BSIZE) == Patch(Leaf(t, ino, k / BSIZE), e % BSIZE, x);
        assert 0 <= k % BSIZE < BSIZE && |x| == m;
      } else {
        assert Leaf(u, ino, k / BSIZE) == Leaf(t, ino, k / BSIZE);
      }
      assert ByteAt(u, ino, k) == ByteAt(t, ino, k);
    }
  }

  // ---------- the end of a write ----------

  function Resize(d: Disk, ino: nat, size: nat): Disk
    requires ino < |d.inodes|
  {
    d.(inodes := d.inodes[ino := d.inodes[ino].(size := size)])
  }

  /** A file's size has no part in its blocks. */
  lemma {:induction false} ResizePtr(d: Disk, ino: nat, size: nat, q: Ref)
    requires ino < |d.inodes|
    ensures Ptr(Resize(d, ino, size), q) == Ptr(d, q)
  {
    hide Word;
  }

  lemma {:induction false} ResizeKeepsOwned(sb: Super, d: Disk, ino: nat, size: nat)
    requires Owned(sb, d) && ino < |d.inodes|
    ensures Owned(sb, Resize(d, ino, size))
  {
    hide Ptr;
    var t := Resize(d, ino, size);
    forall q: Ref
      ensures Ptr(t, q) == Ptr(d, q)
    {
      ResizePtr(d, ino, size, q);
    }
    forall b | sb.data <= b < sb.size && t.used[b]
      ensures Referenced(t, b)
    {
      assert Referenced(d, b);
      var q: Ref :| Ptr(d, q) == b;
      assert Ptr(t, q) == b;
    }
  }

  lemma {:induction false} ResizeLeaves(d: Disk, ino: nat, size: nat, i: nat, n: nat)
    requires ino < |d.inodes|
    ensures Mapped(Resize(d, ino, size), i, n) == Mapped(d, i, n) && Leaf(Resize(d, ino, size), i, n) == Leaf(d, i, n)
  {
    hide Ptr;
    ResizePtr(d, ino, size, BlockRef(i, n));
  }

  /** The write as a change to files: the range reads as src, the size is the maximum, all else as before. */
  ghost predicate FileWritten(d: Disk, t: Disk, ino: nat, off: nat, src: seq<Byte>)
    requires ino < |d.inodes|
  {
    && |t.inodes| == |d.inodes|
    && t.inodes[ino].size == (if |src| > 0 then Max(d.inodes[ino].size, off + |src|) else d.inodes[ino].size)
    && (forall k: nat :: k < t.inodes[ino].size ==>
         ByteAt(t, ino, k) == if off <= k < off + |src| then src[k - off] else ByteAt(d, ino, k))
    && (forall i: nat :: i < |d.inodes| && i != ino ==> SameFile(d, t, i))
  }

  ghost predicate SameFile(d: Disk, t: Disk, i: nat)
    requires i < |d.inodes| && i < |t.inodes|
  {
    t.inodes[i].size == d.inodes[i].size && forall k: nat :: k < d.inodes[i].size ==> ByteAt(t, i, k) == ByteAt(d, i, k)
  }

  /** After the last pass and the new size: the file is written and nothing below any size is missing. */
  lemma {:induction false} WroteAll(d: Disk, t: Disk, u: Disk, ino: nat, off: nat, src: seq<Byte>)
    requires ino < |d.inodes| && ino < |t.inodes| && NoHoles(d) && SameSizes(d, t)
    requires off <= d.inodes[ino].size && off + |src| <= MAXFILE * BSIZE
    requires Wrote(d, t, ino, d.inodes[ino].size, off, src, |src|)
    requires u == Resize(t, ino, Max(d.inodes[ino].size, off + |src|))
    ensures NoHoles(u) && FileWritten(d, u, ino, off, src)
  {
    hide Mapped, Leaf, ByteAt;
    var size := Max(d.inodes[ino].size, off + |src|);
    forall i: nat, n: nat
      ensures Mapped(u, i, n) == Mapped(t, i, n) && Leaf(u, i, n) == Leaf(t, i, n)
    {
      ResizeLeaves(t, ino, size, i, n);
    }
    forall k: nat
      ensures ByteAt(u, ino, k) == ByteAt(t, ino, k)
    {
      SameByteAt(t, u, ino, k);
    }
    forall i: nat | i < |d.inodes| && i != ino
      ensures SameFile(d, u, i)
    {
      OtherFile(d, t, u, ino, i);
    }
  }

  lemma {:induction false} SameByteAt(t: Disk, u: Disk, i: nat, k: nat)
    requires Leaf(u, i, k / BSIZE) == Leaf(t, i, k / BSIZE)
    ensures ByteAt(u, i, k) == ByteAt(t, i, k)
  {
    hide Leaf;
  }

  lemma {:induction false} OtherFile(d: Disk, t: Disk, u: Disk, ino: nat, i: nat)
    requires NoHoles(d) && SameSizes(d, t) && OthersSame(d, t, ino) && i < |d.inodes| && i != ino
    requires SameSizesBut(t, u, ino)
    requires forall n: nat :: Leaf(u, i, n) == Leaf(t, i, n)
    ensures SameFile(d, u, i)
  {
    hide Mapped, Leaf;
    forall k: nat | k < d.inodes[i].size
      ensures ByteAt(u, i, k) == ByteAt(d, i, k)
    {
      BelowEnd(k, d.inodes[i].size);
      assert Mapped(d, i, k / BSIZE);
    }
  }

  ghost predicate SameSizesBut(t: Disk, u: Disk, ino: nat) {
    |u.inodes| == |t.inodes| && forall i :: 0 <= i < |t.inodes| && i != ino ==> u.inodes[i].size == t.inodes[i].size
  }

  // ---------- a file as a sequence ----------

  /** The bytes of a file in order. */
  ghost function Contents(d: Disk, ino: nat): (c: seq<Byte>)
    requires ino < |d.inodes|
    ensures |c| == d.inodes[ino].size && forall k :: 0 <= k < |c| ==> c[k] == ByteAt(d, ino, k)
  {
    seq(d.inodes[ino].size, k requires 0 <= k => ByteAt(d, ino, k))
  }

  /** A successful write replaces a stretch of the sequence, or extends it. */
  lemma {:induction false} WriteIsSplice(d: Disk, t: Disk, ino: nat, off: nat, src: seq<Byte>)
    requires ino < |d.inodes| && FileWritten(d, t, ino, off, src) && off <= d.inodes[ino].size && |src| > 0
    ensures var c := Contents(d, ino);
      Contents(t, ino) == c[..off] + src + if off + |src| <= |c| then c[off + |src|..] else []
    ensures forall i: nat :: i < |d.inodes| && i != ino ==> Contents(t, i) == Contents(d, i)
  {
    hide ByteAt, Contents;
    forall i: nat | i < |d.inodes| && i != ino
      ensures Contents(t, i) == Contents(d, i)
    {
      assert SameFile(d, t, i);
    }
  }
}
