/**
  Blocks, block pointers and who owns what in the file system (fs.c). An inode points to its blocks
  through twelve direct addresses and through the words of one indirect block. A block pointer is named
  by the place that holds it, so that "referenced once" is a statement about places.
 */
module Fs {
  import opened Blocks

  const NDIRECT := 12
  const MAXFILE := NDIRECT + WORDS

  /** The superblock's layout: blocks below data are metadata. */
  datatype Super = Super(size: nat, data: nat, bmapstart: nat, inodestart: nat)

  datatype Inode = Inode(addrs: seq<Uint>, size: nat)

  datatype Disk = Disk(used: seq<bool>, blocks: seq<Block>, inodes: seq<Inode>)

  datatype Ref = Direct(ino: nat, i: nat) | Indirect(ino: nat) | Entry(ino: nat, j: nat)

  /** The place that holds the address of an inode's bn-th block. */
  function BlockRef(ino: nat, bn: nat): Ref {
    if bn < NDIRECT then Direct(ino, bn) else Entry(ino, bn - NDIRECT)
  }

  function Addr(d: Disk, ino: nat, i: nat): nat {
    if ino < |d.inodes| && i < |d.inodes[ino].addrs| && i <= NDIRECT then d.inodes[ino].addrs[i] else 0
  }

  /** The address held at a place; 0 where there is none. */
  function Ptr(d: Disk, r: Ref): nat {
    match r
    case Direct(ino, i) => if i < NDIRECT then Addr(d, ino, i) else 0
    case Indirect(ino) => Addr(d, ino, NDIRECT)
    case Entry(ino, j) =>
      var a := Addr(d, ino, NDIRECT);
      if a == 0 || a >= |d.blocks| || j >= WORDS then 0 else Word(d.blocks[a], j)
  }

  // ---------- the invariant ----------

  ghost predicate Shape(sb: Super, d: Disk) {
    && |d.used| == |d.blocks| == sb.size < 0x1_0000_0000 && 0 < sb.data <= sb.size
    && (forall i :: 0 <= i < |d.inodes| ==> |d.inodes[i].addrs| == NDIRECT + 1)
  }

  /** Every address is of a data block that is marked in the bitmap. */
  ghost predicate Marked(sb: Super, d: Disk) {
    forall r: Ref :: Ptr(d, r) != 0 ==> sb.data <= Ptr(d, r) < sb.size && Ptr(d, r) < |d.used| && d.used[Ptr(d, r)]
  }

  /** No block is referenced from two places. */
  ghost predicate Single(d: Disk) {
    forall q: Ref, r: Ref :: Ptr(d, q) == Ptr(d, r) != 0 ==> q == r
  }

  ghost predicate Referenced(d: Disk, b: nat) {
    exists r: Ref :: Ptr(d, r) == b
  }

  /** Every block marked in the bitmap is metadata or referenced; metadata is marked. */
  ghost predicate NoLeak(sb: Super, d: Disk) {
    && (forall b :: 0 <= b < sb.data && b < |d.used| ==> d.used[b])
    && (forall b :: sb.data <= b < sb.size && b < |d.used| && d.used[b] ==> Referenced(d, b))
  }

  ghost predicate Owned(sb: Super, d: Disk) {
    Shape(sb, d) && Marked(sb, d) && Single(d) && NoLeak(sb, d)
  }

  /** The bitmap says exactly which data blocks are referenced, and each of those once. */
  lemma {:induction false} BitmapIsExact(sb: Super, d: Disk, b: nat)
    requires Owned(sb, d) && sb.data <= b < sb.size
    ensures d.used[b] <==> exists r: Ref :: Ptr(d, r) == b && forall q: Ref :: Ptr(d, q) == b ==> q == r
  {
    if d.used[b] {
      assert Referenced(d, b);
      var r: Ref :| Ptr(d, r) == b;
      assert forall q: Ref :: Ptr(d, q) == b ==> q == r;
    }
  }

  // ---------- giving a block to a place ----------

  /** The place exists, and an entry's indirect block is there. */
  ghost predicate Settable(d: Disk, r: Ref) {
    match r
    case Direct(ino, i) => ino < |d.inodes| && i < NDIRECT
    case Indirect(ino) => ino < |d.inodes|
    case Entry(ino, j) => ino < |d.inodes| && j < WORDS && Ptr(d, Indirect(ino)) != 0
  }

  function SetAddr(d: Disk, ino: nat, i: nat, a: Uint): Disk
    requires ino < |d.inodes| && i < |d.inodes[ino].addrs|
  {
    d.(inodes := d.inodes[ino := d.inodes[ino].(addrs := d.inodes[ino].addrs[i := a])])
  }

  ghost function SetPtr(sb: Super, d: Disk, r: Ref, a: Uint): Disk
    requires Shape(sb, d) && Settable(d, r) && (r.Entry? ==> Ptr(d, Indirect(r.ino)) < sb.size)
  {
    match r
    case Direct(ino, i) => SetAddr(d, ino, i, a)
    case Indirect(ino) => SetAddr(d, ino, NDIRECT, a)
    case Entry(ino, j) =>
      var t := Ptr(d, Indirect(ino));
      d.(blocks := d.blocks[t := SetWord(d.blocks[t], j, a)])
  }

  ghost predicate FreeBlock(sb: Super, d: Disk, b: nat) {
    sb.data <= b < sb.size && b < |d.used| && !d.used[b]
  }

  /** balloc's block: marked and zeroed. */
  function Marking(d: Disk, b: nat): Disk
    requires b < |d.used| && b < |d.blocks|
  {
    d.(used := d.used[b := true], blocks := d.blocks[b := ZeroBlock()])
  }

  ghost function Claim(sb: Super, d: Disk, r: Ref, b: nat): Disk
    requires Owned(sb, d) && Settable(d, r) && FreeBlock(sb, d, b)
  {
    SetPtr(sb, Marking(d, b), r, b)
  }

  /** A place that can receive a block: it exists and is empty. */
  ghost predicate Empty(d: Disk, r: Ref) {
    Settable(d, r) && Ptr(d, r) == 0
  }

  lemma {:induction false} ClaimAddr(sb: Super, d: Disk, r: Ref, b: nat, ino: nat, i: nat)
    requires Owned(sb, d) && Empty(d, r) && FreeBlock(sb, d, b)
    ensures Addr(Claim(sb, d, r, b), ino, i) ==
      if r == Direct(ino, i) || (r == Indirect(ino) && i == NDIRECT) then b else Addr(d, ino, i)
  {
    hide Marked, Single, NoLeak, SetWord, ZeroBlock, Word;
  }

  lemma {:induction false} ClaimBlock(sb: Super, d: Disk, r: Ref, b: nat, a: nat)
    requires Owned(sb, d) && Empty(d, r) && FreeBlock(sb, d, b) && a < sb.size
    ensures Claim(sb, d, r, b).blocks[a] ==
      if a == b then ZeroBlock()
      else if r.Entry? && a == Ptr(d, Indirect(r.ino)) then SetWord(d.blocks[a], r.j, b)
      else d.blocks[a]
  {
    hide Single, NoLeak, SetWord, ZeroBlock, Word;
    if r.Entry? {
      assert Ptr(d, Indirect(r.ino)) != b;
    }
  }

  /** Claiming a block changes the one place and no other. */
  lemma {:induction false} ClaimPtr(sb: Super, d: Disk, r: Ref, b: nat, q: Ref)
    requires Owned(sb, d) && Empty(d, r) && FreeBlock(sb, d, b)
    ensures Ptr(Claim(sb, d, r, b), q) == if q == r then b else Ptr(d, q)
  {
    hide Claim, NoLeak, SetWord, ZeroBlock, Word, Addr;
    match q
    case Direct(ino, i) => ClaimAddr(sb, d, r, b, ino, i);
    case Indirect(ino) => ClaimAddr(sb, d, r, b, ino, NDIRECT);
    case Entry(ino, j) =>
      ClaimAddr(sb, d, r, b, ino, NDIRECT);
      var a := Addr(d, ino, NDIRECT);
      assert Ptr(d, Indirect(ino)) == a;
      ClaimSize(sb, d, r, b);
      if r == Indirect(ino) {
        ClaimBlock(sb, d, r, b, b);
      } else if a != 0 {
        ClaimBlock(sb, d, r, b, a);
        assert r.Entry? ==> Settable(d, r) && (Ptr(d, Indirect(r.ino)) == a ==> r.ino == ino);
      }
  }

  lemma {:induction false} ClaimSize(sb: Super, d: Disk, r: Ref, b: nat)
    requires Owned(sb, d) && Empty(d, r) && FreeBlock(sb, d, b)
    ensures var t := Claim(sb, d, r, b); Shape(sb, t) && |t.inodes| == |d.inodes| && t.used == d.used[b := true]
    ensures forall i :: 0 <= i < |d.inodes| ==> Claim(sb, d, r, b).inodes[i].size == d.inodes[i].size
    ensures forall i :: 0 <= i < |d.inodes| && i != r.ino ==> Claim(sb, d, r, b).inodes[i] == d.inodes[i]
  {
    hide Single, NoLeak, SetWord, ZeroBlock, Word;
    assert r.Entry? ==> Ptr(d, Indirect(r.ino)) < sb.size;
  }

  /** balloc for a place keeps the ownership: the block was nobody's and is now that place's. */
  lemma {:induction false} ClaimKeepsOwned(sb: Super, d: Disk, r: Ref, b: nat)
    requires Owned(sb, d) && Empty(d, r) && FreeBlock(sb, d, b)
    ensures Owned(sb, Claim(sb, d, r, b))
  {
    hide Claim, Ptr, Shape;
    var t := Claim(sb, d, r, b);
    ClaimSize(sb, d, r, b);
    SizeOf(sb, d);
    SizeOf(sb, t);
    forall q: Ref
      ensures Ptr(t, q) == if q == r then b else Ptr(d, q)
    {
      ClaimPtr(sb, d, r, b, q);
    }
    forall a | sb.data <= a < sb.size && t.used[a]
      ensures Referenced(t, a)
    {
      if a == b {
        assert Ptr(t, r) == b;
      } else {
        assert Referenced(d, a);
        var q: Ref :| Ptr(d, q) == a;
        assert Ptr(t, q) == a;
      }
    }
  }

  lemma {:induction false} SizeOf(sb: Super, d: Disk)
    requires Shape(sb, d)
    ensures |d.used| == |d.blocks| == sb.size && 0 < sb.data <= sb.size
  {
  }

  // ---------- the blocks of a file ----------

  /** The block of a file at an index; zeros where there is none. */
  function Leaf(d: Disk, ino: nat, bn: nat): Block {
    var a := Ptr(d, BlockRef(ino, bn));
    if a < |d.blocks| then d.blocks[a] else ZeroBlock()
  }

  function Mapped(d: Disk, ino: nat, bn: nat): bool {
    Ptr(d, BlockRef(ino, bn)) != 0
  }

  /** A file that is mapped at bn with contents c, and no other block of any file changed. */
  ghost predicate OnlyLeaf(d: Disk, t: Disk, ino: nat, bn: nat, c: Block) {
    && Mapped(t, ino, bn) && Leaf(t, ino, bn) == c
    && (forall i: nat, n: nat :: i != ino || n != bn ==> Mapped(t, i, n) == Mapped(d, i, n))
    && (forall i: nat, n: nat :: (i != ino || n != bn) && Mapped(d, i, n) ==> Leaf(t, i, n) == Leaf(d, i, n))
  }

  ghost predicate SameLeaves(d: Disk, t: Disk) {
    && (forall i: nat, n: nat :: Mapped(t, i, n) == Mapped(d, i, n))
    && (forall i: nat, n: nat :: Mapped(d, i, n) ==> Leaf(t, i, n) == Leaf(d, i, n))
  }

  ghost predicate SameSizes(d: Disk, t: Disk) {
    |t.inodes| == |d.inodes| && forall i :: 0 <= i < |d.inodes| ==> t.inodes[i].size == d.inodes[i].size
  }

  lemma {:induction false} ClaimKeepsLeaf(sb: Super, d: Disk, r: Ref, b: nat, ino: nat, bn: nat)
    requires Owned(sb, d) && Empty(d, r) && FreeBlock(sb, d, b) && r != BlockRef(ino, bn)
    ensures var t := Claim(sb, d, r, b);
      Mapped(t, ino, bn) == Mapped(d, ino, bn) && (Mapped(d, ino, bn) ==> Leaf(t, ino, bn) == Leaf(d, ino, bn))
  {
    hide Claim, Ptr, Settable, NoLeak, SetWord, ZeroBlock, Shape;
    var q := BlockRef(ino, bn);
    ClaimPtr(sb, d, r, b, q);
    ClaimSize(sb, d, r, b);
    SizeOf(sb, d);
    SizeOf(sb, Claim(sb, d, r, b));
    if Mapped(d, ino, bn) {
      assert !q.Indirect?;
      ClaimBlock(sb, d, r, b, Ptr(d, q));
    }
  }

  /** A block claimed for a file's index: that index reads as zeros, everything else as before. */
  lemma {:induction false} ClaimLeaf(sb: Super, d: Disk, ino: nat, bn: nat, b: nat)
    requires Owned(sb, d) && Empty(d, BlockRef(ino, bn)) && FreeBlock(sb, d, b)
    ensures OnlyLeaf(d, Claim(sb, d, BlockRef(ino, bn), b), ino, bn, ZeroBlock())
    ensures SameSizes(d, Claim(sb, d, BlockRef(ino, bn), b))
  {
    hide Claim, Ptr, Settable, NoLeak, SetWord, ZeroBlock, Shape, Leaf, Mapped;
    var t := Claim(sb, d, BlockRef(ino, bn), b);
    ClaimSize(sb, d, BlockRef(ino, bn), b);
    forall i: nat, n: nat | i != ino || n != bn
      ensures Mapped(t, i, n) == Mapped(d, i, n) && (Mapped(d, i, n) ==> Leaf(t, i, n) == Leaf(d, i, n))
    {
      ClaimKeepsLeaf(sb, d, BlockRef(ino, bn), b, i, n);
    }
    ClaimOwnLeaf(sb, d, ino, bn, b);
  }

  lemma {:induction false} ClaimOwnLeaf(sb: Super, d: Disk, ino: nat, bn: nat, b: nat)
    requires Owned(sb, d) && Empty(d, BlockRef(ino, bn)) && FreeBlock(sb, d, b)
    ensures var t := Claim(sb, d, BlockRef(ino, bn), b); Mapped(t, ino, bn) && Leaf(t, ino, bn) == ZeroBlock()
  {
    hide Claim, Ptr, Settable, NoLeak, SetWord, ZeroBlock;
    var r := BlockRef(ino, bn);
    ClaimPtr(sb, d, r, b, r);
    ClaimBlock(sb, d, r, b, b);
    ClaimSize(sb, d, r, b);
  }

  /** An indirect block claimed for a file: no file changes. */
  lemma {:induction false} ClaimIndirect(sb: Super, d: Disk, ino: nat, b: nat)
    requires Owned(sb, d) && Empty(d, Indirect(ino)) && FreeBlock(sb, d, b)
    ensures SameLeaves(d, Claim(sb, d, Indirect(ino), b)) && SameSizes(d, Claim(sb, d, Indirect(ino), b))
  {
    hide Claim, Ptr, Settable, NoLeak, SetWord, ZeroBlock, Shape, Leaf, Mapped;
    ClaimSize(sb, d, Indirect(ino), b);
    forall i: nat, n: nat
      ensures var t := Claim(sb, d, Indirect(ino), b);
        Mapped(t, i, n) == Mapped(d, i, n) && (Mapped(d, i, n) ==> Leaf(t, i, n) == Leaf(d, i, n))
    {
      ClaimKeepsLeaf(sb, d, Indirect(ino), b, i, n);
    }
  }

  // ---------- writing a data block ----------

  function Fill(d: Disk, a: nat, c: Block): Disk
    requires a < |d.blocks|
  {
    d.(blocks := d.blocks[a := c])
  }

  /** Writing a file's data block moves no pointer: no data block is anyone's indirect block. */
  lemma {:induction false} FillPtr(sb: Super, d: Disk, ino: nat, bn: nat, c: Block, q: Ref)
    requires Owned(sb, d) && Mapped(d, ino, bn)
    ensures Ptr(d, BlockRef(ino, bn)) < sb.size && Ptr(Fill(d, Ptr(d, BlockRef(ino, bn)), c), q) == Ptr(d, q)
  {
    hide NoLeak, Word;
    var a := Ptr(d, BlockRef(ino, bn));
    assert Ptr(d, Indirect(q.ino)) != a;
  }

  lemma {:induction false} FillKeepsOwned(sb: Super, d: Disk, ino: nat, bn: nat, c: Block)
    requires Owned(sb, d) && Mapped(d, ino, bn)
    ensures Ptr(d, BlockRef(ino, bn)) < sb.size && Owned(sb, Fill(d, Ptr(d, BlockRef(ino, bn)), c))
  {
    hide Ptr, Mapped;
    FillPtr(sb, d, ino, bn, c, Indirect(ino));
    var t := Fill(d, Ptr(d, BlockRef(ino, bn)), c);
    forall q: Ref
      ensures Ptr(t, q) == Ptr(d, q)
    {
      FillPtr(sb, d, ino, bn, c, q);
    }
    forall b | sb.data <= b < sb.size && t.used[b]
      ensures Referenced(t, b)
    {
      assert Referenced(d, b);
      var q: Ref :| Ptr(d, q) == b;
      assert Ptr(t, q) == b;
    }
  }

  lemma {:induction false} FillLeaf(sb: Super, d: Disk, ino: nat, bn: nat, c: Block)
    requires Owned(sb, d) && Mapped(d, ino, bn)
    ensures Ptr(d, BlockRef(ino, bn)) < sb.size
    ensures OnlyLeaf(d, Fill(d, Ptr(d, BlockRef(ino, bn)), c), ino, bn, c)
    ensures SameSizes(d, Fill(d, Ptr(d, BlockRef(ino, bn)), c))
  {
    hide Ptr, NoLeak, Marked;
    FillPtr(sb, d, ino, bn, c, Indirect(ino));
    FillPtr(sb, d, ino, bn, c, BlockRef(ino, bn));
    var a := Ptr(d, BlockRef(ino, bn));
    var t := Fill(d, a, c);
    forall i: nat, n: nat | i != ino || n != bn
      ensures Mapped(t, i, n) == Mapped(d, i, n) && (Mapped(d, i, n) ==> Leaf(t, i, n) == Leaf(d, i, n))
    {
      FillPtr(sb, d, ino, bn, c, BlockRef(i, n));
      assert Ptr(d, BlockRef(i, n)) == a ==> BlockRef(i, n) == BlockRef(ino, bn);
    }
  }
}
