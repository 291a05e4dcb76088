/**
  filewrite's limit is sharp (file.c, fs.c): a chunk that passes from the last direct block into the
  indirect part can log every block that its transaction reserved, and one more if the file has a hole.
 */
module WriteBound {
  import opened Common
  import opened Params
  import opened Blocks
  import opened Fs
  import opened FsFile
  import opened FsFoot
  import opened FsCost
  import opened FileSystem
  import opened FileWrite

  /** One byte before the end of the last direct block: from there a chunk passes into the indirect part. */
  const CROSSING := NDIRECT * BSIZE - 1

  /** A file that ends at CROSSING without an indirect block, and the free blocks that come next. */
  ghost predicate AtCrossing(sb: Super, d: Disk, ino: nat, fs: seq<nat>) {
    && ino < |d.inodes| && d.inodes[ino].size == CROSSING && Ptr(d, Indirect(ino)) == 0
    && NextFree(d.used, fs) && Spread(sb, fs) && Layout(sb, d)
  }

  lemma {:induction false} NoEntriesYet(d: Disk, ino: nat, bn: nat)
    requires Ptr(d, Indirect(ino)) == 0 && bn >= NDIRECT
    ensures !Mapped(d, ino, bn)
  {
  }

  /** What the chunk at CROSSING needs. */
  lemma {:induction false} CrossingNeeds(d: Disk, ino: nat)
    requires Ptr(d, Indirect(ino)) == 0
    ensures FirstBlock(CROSSING) == NDIRECT - 1 && EndBlock(CROSSING, MAX_CHUNK) == NDIRECT + 3
    ensures NeedsIndirect(d, ino, NDIRECT - 1, NDIRECT + 3)
    ensures Needed(d, ino, NDIRECT - 1, NDIRECT + 3) == if Mapped(d, ino, NDIRECT - 1) then 4 else 5
  {
    hide Ptr, Mapped, Missing;
    NoEntriesYet(d, ino, NDIRECT);
    NoEntriesYet(d, ino, NDIRECT + 1);
    NoEntriesYet(d, ino, NDIRECT + 2);
    NoneMissing(d, ino, NDIRECT - 1);
    MissingStep(d, ino, NDIRECT - 1, NDIRECT - 1);
    MissingStep(d, ino, NDIRECT - 1, NDIRECT);
    MissingStep(d, ino, NDIRECT - 1, NDIRECT + 1);
    MissingStep(d, ino, NDIRECT - 1, NDIRECT + 2);
  }

  /** What it logs, when each block it takes has a bitmap block of its own. */
  lemma {:induction false} CrossingCost(sb: Super, d: Disk, u: Disk, ino: nat, fs: seq<nat>)
    requires Owned(sb, d) && Owned(sb, u) && AtCrossing(sb, d, ino, fs)
    requires Covers(d, u, ino, FirstBlock(CROSSING), EndBlock(CROSSING, MAX_CHUNK))
    requires |fs| == if Mapped(d, ino, NDIRECT - 1) then 4 else 5
    ensures |Cost(sb, d, u, ino, CROSSING, MAX_CHUNK)| == |fs| + 6
  {
    hide Owned, Mapped, Ptr, Cost, NextFree, Spread, Layout, NeedsIndirect, Needed, FirstBlock, EndBlock, Filled;
    var lo, hi := FirstBlock(CROSSING), EndBlock(CROSSING, MAX_CHUNK);
    CrossingNeeds(d, ino);
    TakesWhatItNeeds(sb, d, u, ino, lo, hi);
    TakesTheNext(d.used, u.used, fs);
    CardSpread(sb, fs);
    CostIs(sb, d, u, ino, CROSSING, MAX_CHUNK);
  }

  lemma {:induction false} EnoughFree(used: seq<bool>, fs: seq<nat>)
    requires NextFree(used, fs)
    ensures |fs| <= |Frees(used)|
  {
    CardElems(fs);
    CardIn(Elems(fs), Frees(used));
  }

  /**
    The reservation is used up to the last block: on every volume without holes where a file ends at
    CROSSING, has no indirect block, and the next four free blocks have four different bitmap blocks, a
    chunk written at the end of the file logs exactly MAXOPBLOCKS blocks.
   */
  method TenBlocksAreReached(v: Volume, ino: nat, src: seq<Byte>, ghost fs: seq<nat>) returns (ok: bool, r: int)
    requires v.Valid() && AtCrossing(v.sb, v.Snap(), ino, fs) && |fs| == 4 && |src| == MAX_CHUNK
    modifies v
    ensures ok && r == |src| && v.Valid() && |v.Logged()| == MAXOPBLOCKS
  {
    hide Owned, BitsAre, NoHoles, Covers, Cost, AtCrossing, FileWritten, Needed, Frees, FirstBlock, EndBlock, Mapped;
    hide Elems, InodeLast;
    ghost var d := v.Snap();
    CrossingHolds(v.sb, d, ino, fs);
    assert Mapped(d, ino, NDIRECT - 1) by { LastDirectIsThere(d, ino); }
    v.BeginOp();
    ok, r := v.Writei(ino, src, CROSSING);
    CallsAreCost(v.sb, {}, v.calls, d, v.Snap(), ino, CROSSING, MAX_CHUNK);
    CrossingCost(v.sb, d, v.Snap(), ino, fs);
  }

  /** With a hole in the last direct block the same chunk logs one block more than its reservation. */
  method AHoleNeedsEleven(v: Volume, ino: nat, src: seq<Byte>, ghost fs: seq<nat>) returns (ok: bool, r: int)
    requires v.Sound() && v.dinodes == v.inodes && AtCrossing(v.sb, v.Snap(), ino, fs) && |fs| == 5 && |src| == MAX_CHUNK
    requires !Mapped(v.Snap(), ino, NDIRECT - 1)
    modifies v
    ensures ok && r == |src| && |v.Logged()| == MAXOPBLOCKS + 1
  {
    hide Owned, BitsAre, NoHoles, Covers, Cost, AtCrossing, FileWritten, Needed, Frees, FirstBlock, EndBlock, Mapped;
    hide Elems, InodeLast;
    ghost var d := v.Snap();
    CrossingHolds(v.sb, d, ino, fs);
    v.BeginOp();
    ok, r := v.Writei(ino, src, CROSSING);
    CallsAreCost(v.sb, {}, v.calls, d, v.Snap(), ino, CROSSING, MAX_CHUNK);
    CrossingCost(v.sb, d, v.Snap(), ino, fs);
  }

  lemma {:induction false} CrossingHolds(sb: Super, d: Disk, ino: nat, fs: seq<nat>)
    requires AtCrossing(sb, d, ino, fs)
    ensures ino < |d.inodes| && d.inodes[ino].size == CROSSING && !Refused(CROSSING, CROSSING, MAX_CHUNK)
    ensures |fs| <= |Frees(d.used)|
    ensures Needed(d, ino, FirstBlock(CROSSING), EndBlock(CROSSING, MAX_CHUNK)) == if Mapped(d, ino, NDIRECT - 1) then 4 else 5
  {
    hide Ptr, Mapped, NextFree, Spread, Layout, FirstBlock, EndBlock, Needed, Frees;
    EnoughFree(d.used, fs);
    CrossingNeeds(d, ino);
  }

  lemma {:induction false} LastDirectIsThere(d: Disk, ino: nat)
    requires NoHoles(d) && ino < |d.inodes| && d.inodes[ino].size == CROSSING
    ensures Mapped(d, ino, NDIRECT - 1)
  {
    hide Mapped;
    assert NDIRECT - 1 < NBlocks(CROSSING);
  }

  // ---------- such disks exist ----------

  const IMAGE_SUPER := Super(4 * BPB + 1, BPB - 13, 200, 2)

  /** A disk where every data block but those in fs is held by a direct address: twelve to an inode, in order. */
  ghost function ImageAddrs(fs: seq<nat>, ino: nat, n: nat): (r: seq<Uint>)
    requires n <= NDIRECT + 1
    ensures |r| == n && forall i :: 0 <= i < n ==> r[i] == ImageAddr(fs, ino, i)
  {
    if n == 0 then [] else ImageAddrs(fs, ino, n - 1) + [ImageAddr(fs, ino, n - 1)]
  }

  ghost function ImageAddr(fs: seq<nat>, ino: nat, i: nat): Uint {
    var b := IMAGE_SUPER.data + NDIRECT * ino + i;
    if i < NDIRECT && b < IMAGE_SUPER.size && b !in fs then b else 0
  }

  ghost function ImageInodes(fs: seq<nat>, n: nat): (r: seq<Inode>)
    ensures |r| == n
    ensures forall i :: 0 <= i < n ==> r[i] == Inode(ImageAddrs(fs, i, NDIRECT + 1), if i == 0 then CROSSING else 0)
  {
    if n == 0 then []
    else ImageInodes(fs, n - 1) + [Inode(ImageAddrs(fs, n - 1, NDIRECT + 1), if n == 1 then CROSSING else 0)]
  }

  ghost function ImageUsed(fs: seq<nat>, n: nat): (r: seq<bool>)
    ensures |r| == n && forall b :: 0 <= b < n ==> r[b] == (b < IMAGE_SUPER.data || b !in fs)
  {
    if n == 0 then [] else ImageUsed(fs, n - 1) + [n - 1 < IMAGE_SUPER.data || n - 1 !in fs]
  }

  ghost function Image(fs: seq<nat>): Disk {
    Disk(ImageUsed(fs, IMAGE_SUPER.size), Copies(ZeroBlock(), IMAGE_SUPER.size), ImageInodes(fs, 1026))
  }

  lemma {:induction false} ImagePtr(fs: seq<nat>, q: Ref)
    ensures Ptr(Image(fs), q) ==
      if q.Direct? && q.ino < 1026 && q.i < NDIRECT then ImageAddr(fs, q.ino, q.i) else 0
  {
    hide Word;
    if q.ino < 1026 {
      assert Image(fs).inodes[q.ino].addrs == ImageAddrs(fs, q.ino, NDIRECT + 1);
      assert Addr(Image(fs), q.ino, NDIRECT) == 0;
    }
  }

  lemma {:induction false} ImageOwned(fs: seq<nat>)
    ensures Owned(IMAGE_SUPER, Image(fs))
  {
    hide Ptr, Image;
    var d := Image(fs);
    ImageShape(fs);
    forall q: Ref
      ensures Ptr(d, q) == if q.Direct? && q.ino < 1026 && q.i < NDIRECT then ImageAddr(fs, q.ino, q.i) else 0
    {
      ImagePtr(fs, q);
    }
    forall b | IMAGE_SUPER.data <= b < IMAGE_SUPER.size && d.used[b]
      ensures Referenced(d, b)
    {
      var k := b - IMAGE_SUPER.data;
      assert NDIRECT * (k / NDIRECT) + k % NDIRECT == k && k / NDIRECT < 1026;
      assert Ptr(d, Direct(k / NDIRECT, k % NDIRECT)) == b;
    }
  }

  lemma {:induction false} ImageShape(fs: seq<nat>)
    ensures var d := Image(fs);
      && Shape(IMAGE_SUPER, d) && |d.inodes| == 1026 && d.inodes[0].size == CROSSING
      && (forall i :: 0 < i < 1026 ==> d.inodes[i].size == 0)
      && |d.used| == IMAGE_SUPER.size && forall b :: 0 <= b < |d.used| ==> d.used[b] == (b < IMAGE_SUPER.data || b !in fs)
  {
    hide ImageAddr, ImageAddrs;
  }

  ghost predicate ImageFree(fs: seq<nat>) {
    && (forall i :: 0 <= i < |fs| ==> IMAGE_SUPER.data + NDIRECT - 1 <= fs[i] < IMAGE_SUPER.size)
    && (forall i, j :: 0 <= i < j < |fs| ==> fs[i] < fs[j])
  }

  lemma {:induction false} ImageAtCrossing(fs: seq<nat>)
    requires ImageFree(fs) && Spread(IMAGE_SUPER, fs)
    ensures AtCrossing(IMAGE_SUPER, Image(fs), 0, fs)
    ensures NoHoles(Image(fs)) <==> IMAGE_SUPER.data + NDIRECT - 1 !in fs
    ensures Mapped(Image(fs), 0, NDIRECT - 1) <==> IMAGE_SUPER.data + NDIRECT - 1 !in fs
  {
    hide Ptr, Image, Spread;
    var d := Image(fs);
    ImageShape(fs);
    ImagePtr(fs, Indirect(0));
    forall n: nat | n < NDIRECT
      ensures Mapped(d, 0, n) <==> IMAGE_SUPER.data + n !in fs
    {
      ImagePtr(fs, BlockRef(0, n));
    }
    assert NBlocks(CROSSING) == NDIRECT && NBlocks(0) == 0;
    assert NoHoles(d) ==> Mapped(d, 0, NDIRECT - 1);
    assert CROSSING <= MAXFILE * BSIZE;
    assert NextFree(d.used, fs);
    assert Layout(IMAGE_SUPER, d);
  }

  /** Disks as in TenBlocksAreReached and AHoleNeedsEleven. */
  lemma {:induction false} CrossingsExist() returns (sb: Super, d: Disk, fs: seq<nat>, e: Disk, gs: seq<nat>)
    ensures Owned(sb, d) && NoHoles(d) && AtCrossing(sb, d, 0, fs) && |fs| == 4
    ensures Owned(sb, e) && !Mapped(e, 0, NDIRECT - 1) && AtCrossing(sb, e, 0, gs) && |gs| == 5
  {
    hide Owned, NoHoles, AtCrossing, Image, Mapped;
    sb, fs, gs := IMAGE_SUPER, [4095, 8191, 8192, 12288], [4094, 4096, 8192, 12288, 16384];
    d, e := Image(fs), Image(gs);
    ImageOwned(fs);
    ImageOwned(gs);
    ImageAtCrossing(fs);
    ImageAtCrossing(gs);
    assert gs[0] == IMAGE_SUPER.data + NDIRECT - 1;
  }
}
