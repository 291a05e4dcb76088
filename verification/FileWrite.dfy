/**
  filewrite's chunks (file.c): a write goes to the file in pieces, each in its own transaction, that are
  small enough for the log.
 */
module FileWrite {
  import opened Common
  import opened Params
  import opened Blocks
  import opened Fs
  import opened FsFile
  import opened FsFoot
  import opened FsCost
  import opened FileSystem

  /** filewrite's limit: what is left of MAXOPBLOCKS after the inode, the indirect block and two blocks of slop, halved. */
  const MAX_CHUNK := (MAXOPBLOCKS - 1 - 1 - 2) / 2 * BSIZE

  // ---------- counting blocks ----------

  /** A write logs at most twice the blocks it touches, less the first one if it is there, and two more. */
  lemma {:induction false} FootBound(sb: Super, d: Disk, u: Disk, ino: nat, lo: nat, hi: nat)
    requires Owned(sb, u) && lo <= hi && Covers(d, u, ino, lo, hi)
    ensures |Logs(sb, Foot(d, u, ino, lo, hi))| <= 2 * (hi - lo) - (if lo < hi && Mapped(d, ino, lo) then 1 else 0) + 2
  {
    hide BBlocks, Ptr, Mapped, Data, Added, Filled, Shape, Marked, Single, NoLeak, NeedsIndirect, InRange;
    var f := Foot(d, u, ino, lo, hi);
    CardData(u, ino, lo, hi);
    CardAdded(d, u, ino, lo, hi);
    MissingBound(d, ino, lo, hi);
    CardBBlocks(sb, f.added);
    CardBBlocks(sb, f.newInd);
    CardUnion(f.data, BBlocks(sb, f.added));
    CardUnion(f.data + BBlocks(sb, f.added), f.ind);
    CardUnion(f.data + BBlocks(sb, f.added) + f.ind, BBlocks(sb, f.newInd));
  }

  lemma {:induction false} MissingBound(d: Disk, ino: nat, lo: nat, hi: nat)
    requires lo <= hi
    ensures |Missing(d, ino, lo, hi)| <= hi - lo - if lo < hi && Mapped(d, ino, lo) then 1 else 0
    decreases hi
  {
    hide Mapped, Missing;
    if lo < hi {
      MissingBound(d, ino, lo, hi - 1);
      MissingStep(d, ino, lo, hi - 1);
    } else {
      NoneMissing(d, ino, lo);
    }
  }

  /** A chunk lies in three blocks, or in four if it starts inside one. */
  lemma {:induction false} ChunkTouches(off: nat, n: nat)
    requires n <= MAX_CHUNK
    ensures EndBlock(off, n) - FirstBlock(off) <= 3 + if off % BSIZE != 0 then 1 else 0
    ensures n > 0 ==> FirstBlock(off) < EndBlock(off, n)
  {
    assert MAX_CHUNK == 3 * BSIZE;
  }

  /** A block that is entered in the middle is there already. */
  lemma {:induction false} EnteredIsThere(d: Disk, ino: nat, off: nat)
    requires NoHoles(d) && ino < |d.inodes| && off <= d.inodes[ino].size && off % BSIZE != 0
    ensures Mapped(d, ino, FirstBlock(off))
  {
    hide Mapped;
    assert off / BSIZE < NBlocks(d.inodes[ino].size);
  }

  /** Before the inode is logged there is still room: no block is logged again once the reservation is used up. */
  lemma {:induction false} RoomForTheInode(sb: Super, d: Disk, u: Disk, ino: nat, off: nat, n: nat)
    requires NoHoles(d) && ino < |d.inodes| && off <= d.inodes[ino].size && n <= MAX_CHUNK
    requires Owned(sb, u) && Covers(d, u, ino, FirstBlock(off), EndBlock(off, n))
    ensures |Logs(sb, Foot(d, u, ino, FirstBlock(off), EndBlock(off, n)))| < MAXOPBLOCKS
  {
    hide NoHoles, Owned, Covers, Foot, Logs, Mapped, FirstBlock, EndBlock;
    FootBound(sb, d, u, ino, FirstBlock(off), EndBlock(off, n));
    ChunkTouches(off, n);
    if off % BSIZE != 0 {
      EnteredIsThere(d, ino, off);
    }
  }

  /** For any offset and any number of bitmap blocks, a chunk's transaction fits its reservation. */
  lemma {:induction false} ChunkFitsTransaction(sb: Super, d: Disk, u: Disk, ino: nat, off: nat, n: nat)
    requires NoHoles(d) && ino < |d.inodes| && off <= d.inodes[ino].size && n <= MAX_CHUNK
    requires Owned(sb, u) && Covers(d, u, ino, FirstBlock(off), EndBlock(off, n))
    ensures |Cost(sb, d, u, ino, off, n)| <= MAXOPBLOCKS
  {
    hide NoHoles, Owned, Covers, Foot, Logs, Mapped, FirstBlock, EndBlock;
    RoomForTheInode(sb, d, u, ino, off, n);
    CardUnion(Logs(sb, Foot(d, u, ino, FirstBlock(off), EndBlock(off, n))),
              if Grows(d.inodes[ino].size, off, n) then {IBlock(sb, ino)} else {});
  }

  /** The calls of a chunk keep the limit at every point. */
  lemma {:induction false} ChunkWithinLimit(sb: Super, d: Disk, u: Disk, ino: nat, off: nat, n: nat, calls: seq<nat>)
    requires NoHoles(d) && ino < |d.inodes| && off <= d.inodes[ino].size && n <= MAX_CHUNK
    requires Owned(sb, u) && Covers(d, u, ino, FirstBlock(off), EndBlock(off, n))
    requires InodeLast(sb, {}, calls, d, u, ino, off, n)
    ensures WithinLimit(calls) && |Elems(calls)| <= MAXOPBLOCKS
  {
    hide NoHoles, Owned, Covers, Foot, Logs, FirstBlock, EndBlock, Elems, Cost, IBlock;
    CallsAreCost(sb, {}, calls, d, u, ino, off, n);
    RoomForTheInode(sb, d, u, ino, off, n);
    ChunkFitsTransaction(sb, d, u, ino, off, n);
    var m := if Grows(d.inodes[ino].size, off, n) then |calls| - 1 else |calls|;
    assert calls[..|calls|] == calls;
    assert |Elems(calls[..m])| < MAXOPBLOCKS;
    forall k | 0 <= k < |calls|
      ensures CallFits(calls, k)
    {
      PrefixElems(calls, k, m);
      PrefixElems(calls, k + 1, |calls|);
    }
  }

  // ---------- the whole write ----------

  /** One write after another is one longer write. */
  lemma {:induction false} WritesCompose(d: Disk, t: Disk, u: Disk, ino: nat, off: nat, a: seq<Byte>, b: seq<Byte>)
    requires ino < |d.inodes| && ino < |t.inodes| && off <= d.inodes[ino].size
    requires FileWritten(d, t, ino, off, a) && FileWritten(t, u, ino, off + |a|, b)
    ensures FileWritten(d, u, ino, off, a + b)
  {
    hide ByteAt;
    forall i: nat | i < |d.inodes| && i != ino
      ensures SameFile(d, u, i)
    {
      assert SameFile(d, t, i) && SameFile(t, u, i);
    }
  }

  /** One more chunk. */
  lemma {:induction false} MoreWritten(d: Disk, t: Disk, u: Disk, ino: nat, off0: nat, addr: seq<Byte>, i: nat, n1: nat)
    requires ino < |d.inodes| && i + n1 <= |addr| && FileWritten(d, t, ino, off0, addr[..i])
    requires ino < |t.inodes| && off0 + i <= t.inodes[ino].size && (i > 0 ==> off0 <= d.inodes[ino].size)
    requires FileWritten(t, u, ino, off0 + i, addr[i..i + n1])
    ensures FileWritten(d, u, ino, off0, addr[..i + n1]) && off0 <= d.inodes[ino].size && ino < |u.inodes| == |t.inodes|
  {
    hide ByteAt;
    assert addr[..i] + addr[i..i + n1] == addr[..i + n1];
    WritesCompose(d, t, u, ino, off0, addr[..i], addr[i..i + n1]);
  }

  lemma {:induction false} NothingWritten(d: Disk, ino: nat, off: nat)
    requires ino < |d.inodes|
    ensures FileWritten(d, d, ino, off, [])
  {
    hide ByteAt;
  }

  /** What was written reads back. */
  lemma {:induction false} ReadAfterWrite(d: Disk, t: Disk, ino: nat, off: nat, src: seq<Byte>)
    requires ino < |d.inodes| && FileWritten(d, t, ino, off, src) && off <= d.inodes[ino].size
    ensures ino < |t.inodes| && off + |src| <= t.inodes[ino].size && Contents(t, ino)[off..off + |src|] == src
  {
    hide ByteAt, Contents;
    forall i | 0 <= i < |src|
      ensures Contents(t, ino)[off + i] == src[i]
    {
      assert ByteAt(t, ino, off + i) == src[off + i - off];
    }
  }

  /** The bytes that i chunks of a write of n bytes hold. */
  function ChunksEnd(i: nat, n: nat): (r: nat)
    ensures r <= n
  {
    if i * MAX_CHUNK <= n then i * MAX_CHUNK else n
  }

  /** The disk after each chunk: in order, with the first chunks written; txs are the calls of log_write of each. */
  ghost predicate Chunks(sb: Super, imgs: seq<Disk>, txs: seq<seq<nat>>, ino: nat, off: nat, addr: seq<Byte>) {
    && |imgs| == |txs| + 1 && ino < |imgs[0].inodes|
    && (forall i :: 0 <= i < |imgs| ==> Owned(sb, imgs[i]) && NoHoles(imgs[i]))
    && (forall i :: 0 <= i < |imgs| ==> FileWritten(imgs[0], imgs[i], ino, off, addr[..ChunksEnd(i, |addr|)]))
    && (forall i {:trigger txs[i]} :: 0 <= i < |txs| ==>
          WithinLimit(txs[i]) && |Elems(txs[i])| <= MAXOPBLOCKS && OnlyIn(sb, imgs[i], imgs[i + 1], Elems(txs[i]))
          && FsBlocks(sb, |imgs[0].inodes|, Elems(txs[i])))
  }

  lemma {:induction false} OneMoreChunk(sb: Super, imgs: seq<Disk>, txs: seq<seq<nat>>, ino: nat, off: nat,
      addr: seq<Byte>, u: Disk, tx: seq<nat>)
    requires Chunks(sb, imgs, txs, ino, off, addr) && Owned(sb, u) && NoHoles(u) && WithinLimit(tx)
    requires |Elems(tx)| <= MAXOPBLOCKS
    requires OnlyIn(sb, imgs[|txs|], u, Elems(tx)) && FsBlocks(sb, |imgs[0].inodes|, Elems(tx))
    requires FileWritten(imgs[0], u, ino, off, addr[..ChunksEnd(|imgs|, |addr|)])
    ensures Chunks(sb, imgs + [u], txs + [tx], ino, off, addr)
  {
    hide Owned, NoHoles, FileWritten, OnlyIn, ChunksEnd, FsBlocks, Elems, WithinLimit;
  }

  /** A chunk as a transaction: within its limit, with every block that it changes. */
  lemma {:induction false} ChunkIsTransaction(sb: Super, t: Disk, u: Disk, ino: nat, off: nat, n: nat, calls: seq<nat>)
    requires Owned(sb, t) && NoHoles(t) && Owned(sb, u) && ino < |t.inodes| && off <= t.inodes[ino].size && n <= MAX_CHUNK
    requires Covers(t, u, ino, FirstBlock(off), EndBlock(off, n)) && InodeLast(sb, {}, calls, t, u, ino, off, n)
    requires OnlyInode(t.inodes, u.inodes, ino, Grows(t.inodes[ino].size, off, n))
    ensures WithinLimit(calls) && |Elems(calls)| <= MAXOPBLOCKS
    ensures OnlyIn(sb, t, u, Elems(calls)) && FsBlocks(sb, |t.inodes|, Elems(calls))
  {
    hide Owned, NoHoles, Covers, FirstBlock, EndBlock, InodeLast, OnlyInode, OnlyIn, FsBlocks, Elems, WithinLimit, Cost;
    CallsAreCost(sb, {}, calls, t, u, ino, off, n);
    ChunkWithinLimit(sb, t, u, ino, off, n, calls);
    LogsWhatItChanges(sb, t, u, ino, off, n);
    CostIsFsBlocks(sb, t, u, ino, off, n);
    assert {} + Cost(sb, t, u, ino, off, n) == Cost(sb, t, u, ino, off, n);
  }

  /**
    filewrite writes n bytes of addr at the file's offset and advances the offset past them, or stops where
    writei refuses; no transaction logs more blocks than it reserved, and each logs every block that it
    changes. A negative count writes nothing.
   */
  method Filewrite(v: Volume, ino: nat, addr: seq<Byte>, n: int, off0: nat)
      returns (ok: bool, r: int, off: nat, ghost imgs: seq<Disk>, ghost txs: seq<seq<nat>>)
    requires v.Valid() && ino < |v.inodes| && off0 < TWO_32 && n <= |addr| && n < 0x8000_0000
    modifies v
    ensures !ok ==> Full(v.used)
    ensures Chunks(v.sb, imgs, txs, ino, off0, if n < 0 then [] else addr[..n]) && imgs[0] == old(v.Snap())
    ensures ok ==> v.Valid() && imgs[|txs|] == v.Snap() && off0 <= off <= off0 + (if n < 0 then 0 else n)
    ensures ok ==> FileWritten(old(v.Snap()), v.Snap(), ino, off0, addr[..off - off0])
    ensures ok ==> r == if off == off0 + n then n else -1
    ensures ok && off > off0 ==> off0 <= old(v.inodes)[ino].size
    ensures ok && off < off0 + n ==> exists n1: nat :: 0 < n1 <= MAX_CHUNK && off + n1 <= off0 + n && Refused(v.inodes[ino].size, off, n1)
  {
    hide FileWritten, Covers, Cost, Full, Owned, NoHoles, BitsAre, Frees, Needed, FirstBlock, EndBlock, Chunks;
    hide OnlyIn, OnlyInode, FsBlocks, Elems, InodeLast, WithinLimit, ChunksEnd, Grows;
    ghost var d := v.Snap();
    ghost var all := if n < 0 then [] else addr[..n];
    imgs, txs := [d], [];
    NoChunks(v.sb, d, ino, off0, all);
    NothingWritten(d, ino, off0);
    off, r := off0, 0;
    var i := 0;
    while i < n
      invariant 0 <= i && (0 <= n ==> i <= n) && (n < 0 ==> i == 0)
      invariant off == off0 + i && off < TWO_32 && v.Valid() && ino < |v.inodes| == |d.inodes| && i <= |addr|
      invariant FileWritten(d, v.Snap(), ino, off0, addr[..i])
      invariant i > 0 ==> off0 <= d.inodes[ino].size
      invariant Chunks(v.sb, imgs, txs, ino, off0, all) && |imgs| == |txs| + 1 && imgs[0] == d && imgs[|txs|] == v.Snap()
      invariant i == ChunksEnd(|txs|, |all|)
    {
      var n1 := if n - i > MAX_CHUNK then MAX_CHUNK else n - i;
      NextEnd(|txs|, n, i, n1);
      v.BeginOp();
      ghost var t := v.Snap();
      assert t.inodes == v.inodes;
      ok, r := v.Writei(ino, addr[i..i + n1], off);
      if !ok {
        return;
      }
      if r < 0 {
        assert Refused(v.inodes[ino].size, off, n1);
        return true, -1, off, imgs, txs;
      }
      MoreWritten(d, t, v.Snap(), ino, off0, addr, i, n1);
      ChunkIsTransaction(v.sb, t, v.Snap(), ino, off, n1, v.calls);
      assert all[..i + n1] == addr[..i + n1];
      OneMoreChunk(v.sb, imgs, txs, ino, off0, all, v.Snap(), v.calls);
      imgs, txs := imgs + [v.Snap()], txs + [v.calls];
      off := off + r;
      i := i + r;
    }
    ok, r := true, if i == n then n else -1;
  }

  lemma {:induction false} NextEnd(k: nat, n: nat, i: nat, n1: nat)
    requires i == ChunksEnd(k, n) < n && n1 == if n - i > MAX_CHUNK then MAX_CHUNK else n - i
    ensures ChunksEnd(k + 1, n) == i + n1
  {
  }

  lemma {:induction false} NoChunks(sb: Super, d: Disk, ino: nat, off: nat, addr: seq<Byte>)
    requires Owned(sb, d) && NoHoles(d) && ino < |d.inodes|
    ensures Chunks(sb, [d], [], ino, off, addr) && ChunksEnd(0, |addr|) == 0
  {
    hide Owned, NoHoles, FileWritten, OnlyIn, FsBlocks, WithinLimit, Elems;
    NothingWritten(d, ino, off);
    assert addr[..0] == [];
  }
}
