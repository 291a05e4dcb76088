/**
  What a write does to the disk's pointers and bitmap, and which blocks it puts into the log (fs.c: balloc,
  bmap and writei): exactly, and not only up to a bound.
 */
module FsFoot {
  import opened Blocks
  import opened Fs
  import opened FsFile

  const BPB := 4096
  const IPB := 8

  function BBlock(sb: Super, b: nat): nat {
    b / BPB + sb.bmapstart
  }

  function IBlock(sb: Super, ino: nat): nat {
    ino / IPB + sb.inodestart
  }

  ghost function BBlocks(sb: Super, s: set<nat>): set<nat> {
    set a | a in s :: BBlock(sb, a)
  }

  lemma {:induction false} BBlocksAdd(sb: Super, s: set<nat>, a: nat)
    ensures BBlocks(sb, s + {a}) == BBlocks(sb, s) + {BBlock(sb, a)}
  {
    hide BBlock;
    assert a in s + {a};
    forall x | x in BBlocks(sb, s)
      ensures x in BBlocks(sb, s + {a})
    {
      var y :| y in s && x == BBlock(sb, y);
      assert y in s + {a};
    }
  }

  // ---------- taking blocks in order ----------

  /** From a to b blocks were taken, always the lowest free one. */
  ghost predicate Filled(a: seq<bool>, b: seq<bool>) {
    && |a| == |b|
    && (forall x :: 0 <= x < |a| && a[x] ==> b[x])
    && (forall x, y :: 0 <= y < x < |a| && !a[x] && b[x] ==> b[y])
  }

  lemma {:induction false} FilledOnce(a: seq<bool>, r: nat)
    requires r < |a| && !a[r] && forall c :: 0 <= c < r ==> a[c]
    ensures Filled(a, a[r := true])
  {
  }

  lemma {:induction false} FilledTwice(a: seq<bool>, b: seq<bool>, c: seq<bool>)
    requires Filled(a, b) && Filled(b, c)
    ensures Filled(a, c)
  {
  }

  // ---------- one pass ----------

  /** No block changed but the one at an index and, if that one was missing, the indirect block. */
  ghost predicate TouchesAt(d: Disk, t: Disk, ino: nat, bn: nat) {
    && |t.blocks| == |d.blocks|
    && forall b :: 0 <= b < |d.blocks| && t.blocks[b] != d.blocks[b] ==>
         b != 0 && (b == At(t, ino, bn) || (b == Ptr(t, Indirect(ino)) && bn >= NDIRECT && !Mapped(d, ino, bn)))
  }

  /** The block of a file at an index was found or added: no address that was there moved. */
  ghost predicate Extends(d: Disk, t: Disk, ino: nat, bn: nat) {
    && (forall q: Ref :: Ptr(d, q) != 0 ==> Ptr(t, q) == Ptr(d, q))
    && (forall q: Ref :: Ptr(d, q) == 0 && Ptr(t, q) != 0 ==>
          q == BlockRef(ino, bn) || (q == Indirect(ino) && bn >= NDIRECT && !Mapped(d, ino, bn)))
    && Filled(d.used, t.used) && TouchesAt(d, t, ino, bn)
    && |t.inodes| == |d.inodes| && forall i :: 0 <= i < |d.inodes| && i != ino ==> t.inodes[i] == d.inodes[i]
  }

  lemma {:induction false} ExtendsSelf(d: Disk, ino: nat, bn: nat)
    ensures Extends(d, d, ino, bn)
  {
  }

  /** A block claimed for the index, once its indirect block is there. */
  lemma {:induction false} ClaimExtends(sb: Super, d: Disk, e: Disk, ino: nat, bn: nat, r: Ref, b: nat)
    requires Owned(sb, e) && Empty(e, r) && FreeBlock(sb, e, b) && (forall c :: 0 <= c < b ==> e.used[c])
    requires Extends(d, e, ino, bn)
    requires (r == BlockRef(ino, bn) || (r == Indirect(ino) && bn >= NDIRECT && !Mapped(d, ino, bn)))
    ensures Extends(d, Claim(sb, e, r, b), ino, bn)
  {
    hide Ptr, Mapped, Claim, Owned, Settable, Filled, TouchesAt;
    var t := Claim(sb, e, r, b);
    ClaimSize(sb, e, r, b);
    ClaimTouches(sb, d, e, ino, bn, r, b);
    forall q: Ref
      ensures Ptr(t, q) == if q == r then b else Ptr(e, q)
    {
      ClaimPtr(sb, e, r, b, q);
    }
    FilledOnce(e.used, b);
    FilledTwice(d.used, e.used, t.used);
    assert r.ino == ino;
  }

  lemma {:induction false} ClaimTouches(sb: Super, d: Disk, e: Disk, ino: nat, bn: nat, r: Ref, b: nat)
    requires Owned(sb, e) && Empty(e, r) && FreeBlock(sb, e, b) && TouchesAt(d, e, ino, bn)
    requires forall q: Ref :: Ptr(d, q) != 0 ==> Ptr(e, q) == Ptr(d, q)
    requires r == BlockRef(ino, bn) || (r == Indirect(ino) && bn >= NDIRECT && !Mapped(d, ino, bn))
    ensures TouchesAt(d, Claim(sb, e, r, b), ino, bn)
  {
    hide Ptr, Claim, Owned, SetWord;
    var t := Claim(sb, e, r, b);
    ClaimSize(sb, e, r, b);
    SizeOfOwned(sb, e);
    assert |t.blocks| == sb.size by { SizeOf(sb, t); }
    ClaimPtr(sb, e, r, b, BlockRef(ino, bn));
    ClaimPtr(sb, e, r, b, Indirect(ino));
    forall a | 0 <= a < |d.blocks| && t.blocks[a] != d.blocks[a]
      ensures a != 0 && (a == At(t, ino, bn) || (a == Ptr(t, Indirect(ino)) && bn >= NDIRECT && !Mapped(d, ino, bn)))
    {
      ClaimBlock(sb, e, r, b, a);
    }
  }

  /** Writing the block's data moves no address. */
  lemma {:induction false} FillExtends(sb: Super, d: Disk, e: Disk, ino: nat, bn: nat, c: Block)
    requires Owned(sb, e) && Mapped(e, ino, bn) && Extends(d, e, ino, bn)
    ensures Ptr(e, BlockRef(ino, bn)) < |e.blocks| && Extends(d, Fill(e, Ptr(e, BlockRef(ino, bn)), c), ino, bn)
  {
    hide Ptr, Owned, Filled;
    FillPtr(sb, e, ino, bn, c, Indirect(ino));
    assert |e.blocks| == sb.size by { SizeOfOwned(sb, e); }
    var t := Fill(e, Ptr(e, BlockRef(ino, bn)), c);
    forall q: Ref
      ensures Ptr(t, q) == Ptr(e, q)
    {
      FillPtr(sb, e, ino, bn, c, q);
    }
  }

  lemma {:induction false} SizeOfOwned(sb: Super, d: Disk)
    requires Owned(sb, d)
    ensures |d.used| == |d.blocks| == sb.size && 0 < sb.data <= sb.size
  {
  }

  // ---------- a whole write ----------

  /** One of the blocks lo .. hi-1 that was missing is reached through the indirect block. */
  ghost predicate NeedsIndirect(d: Disk, ino: nat, lo: nat, hi: nat) {
    exists bn: nat :: lo <= bn < hi && NDIRECT <= bn && !Mapped(d, ino, bn)
  }

  ghost predicate InRange(d: Disk, q: Ref, ino: nat, lo: nat, hi: nat) {
    match q
    case Direct(i, n) => i == ino && lo <= n < hi
    case Entry(i, j) => i == ino && lo <= NDIRECT + j < hi
    case Indirect(i) => i == ino && NeedsIndirect(d, ino, lo, hi)
  }

  /** The blocks lo .. hi-1 of the file are there; no address that was there moved, and no other was added. */
  ghost predicate Covers(d: Disk, u: Disk, ino: nat, lo: nat, hi: nat) {
    && (forall q: Ref :: Ptr(d, q) != 0 ==> Ptr(u, q) == Ptr(d, q))
    && (forall q: Ref :: Ptr(d, q) == 0 && Ptr(u, q) != 0 ==> InRange(d, q, ino, lo, hi))
    && (forall bn: nat :: lo <= bn < hi ==> Mapped(u, ino, bn))
    && Filled(d.used, u.used) && Touches(d, u, ino, lo, hi)
  }

  /** No block changed but those at the indices and the indirect block. */
  ghost predicate Touches(d: Disk, u: Disk, ino: nat, lo: nat, hi: nat) {
    && |u.blocks| == |d.blocks|
    && forall b :: 0 <= b < |d.blocks| && u.blocks[b] != d.blocks[b] ==> b in Foot(d, u, ino, lo, hi).data + Foot(d, u, ino, lo, hi).ind
  }

  lemma {:induction false} TouchesOneMore(d: Disk, t: Disk, u: Disk, ino: nat, lo: nat, hi: nat)
    requires lo <= hi && Covers(d, t, ino, lo, hi) && Extends(t, u, ino, hi) && Mapped(u, ino, hi)
    ensures Touches(d, u, ino, lo, hi + 1)
  {
    hide Ptr, Filled, NeedsIndirect, Mapped, Data, Added, InRange;
    NeedsMore(d, ino, lo, hi);
    NotYetCovered(d, t, ino, lo, hi);
    IndirectThere(d, t, ino, lo, hi);
    AddressesStay(d, t, u, ino, lo, hi);
    DataStep(t, u, ino, lo, hi);
    forall b | 0 <= b < |d.blocks| && u.blocks[b] != d.blocks[b]
      ensures b in Foot(d, u, ino, lo, hi + 1).data + Foot(d, u, ino, lo, hi + 1).ind
    {
      if t.blocks[b] != d.blocks[b] {
        assert b in Foot(d, t, ino, lo, hi).data + Foot(d, t, ino, lo, hi).ind;
      }
    }
  }

  lemma {:induction false} CoversNothing(d: Disk, ino: nat, lo: nat)
    ensures Covers(d, d, ino, lo, lo)
  {
  }

  lemma {:induction false} NeedsMore(d: Disk, ino: nat, lo: nat, hi: nat)
    requires lo <= hi
    ensures NeedsIndirect(d, ino, lo, hi + 1) <==> NeedsIndirect(d, ino, lo, hi) || (NDIRECT <= hi && !Mapped(d, ino, hi))
  {
    hide Mapped;
  }

  /** A block outside the range is there if and only if it was. */
  lemma {:induction false} NotYetCovered(d: Disk, t: Disk, ino: nat, lo: nat, hi: nat)
    requires Covers(d, t, ino, lo, hi)
    ensures Mapped(t, ino, hi) == Mapped(d, ino, hi)
  {
    hide Ptr, Filled;
    var q := BlockRef(ino, hi);
    assert !InRange(d, q, ino, lo, hi);
  }

  lemma {:induction false} CoversOneMore(d: Disk, t: Disk, u: Disk, ino: nat, lo: nat, hi: nat)
    requires lo <= hi && Covers(d, t, ino, lo, hi) && Extends(t, u, ino, hi) && Mapped(u, ino, hi)
    ensures Covers(d, u, ino, lo, hi + 1)
  {
    hide Ptr, Filled, NeedsIndirect, Touches, TouchesAt;
    NeedsMore(d, ino, lo, hi);
    NotYetCovered(d, t, ino, lo, hi);
    FilledTwice(d.used, t.used, u.used);
    TouchesOneMore(d, t, u, ino, lo, hi);
    forall q: Ref | Ptr(d, q) == 0 && Ptr(u, q) != 0
      ensures InRange(d, q, ino, lo, hi + 1)
    {
      if Ptr(t, q) != 0 {
        assert InRange(d, q, ino, lo, hi);
      }
    }
    forall bn: nat | lo <= bn < hi + 1
      ensures Mapped(u, ino, bn)
    {
      if bn < hi {
        assert Mapped(t, ino, bn);
      }
    }
  }

  // ---------- the log ----------

  /** The blocks a write puts into the log: the data blocks, those of them that are new, the indirect block. */
  datatype Footprint = Footprint(data: set<nat>, added: set<nat>, ind: set<nat>, newInd: set<nat>)

  /** Every new block also costs its bitmap block. */
  ghost function Logs(sb: Super, f: Footprint): set<nat> {
    f.data + BBlocks(sb, f.added) + f.ind + BBlocks(sb, f.newInd)
  }

  /** The address of a file's block. */
  function At(d: Disk, ino: nat, bn: nat): nat {
    Ptr(d, BlockRef(ino, bn))
  }

  ghost function Data(u: Disk, ino: nat, lo: nat, hi: nat): set<nat> {
    set bn: nat | lo <= bn < hi :: At(u, ino, bn)
  }

  ghost function Added(d: Disk, u: Disk, ino: nat, lo: nat, hi: nat): set<nat> {
    set bn: nat | lo <= bn < hi && !Mapped(d, ino, bn) :: At(u, ino, bn)
  }

  /** A write that covers lo .. hi-1: the blocks there, those that were missing, and the indirect block if
      one of these is reached through it; it is new if there was none. */
  ghost function Foot(d: Disk, u: Disk, ino: nat, lo: nat, hi: nat): Footprint {
    var ind := if NeedsIndirect(d, ino, lo, hi) then {Ptr(u, Indirect(ino))} else {};
    Footprint(Data(u, ino, lo, hi), Added(d, u, ino, lo, hi), ind, if Ptr(d, Indirect(ino)) == 0 then ind else {})
  }

  lemma {:induction false} NoFoot(sb: Super, d: Disk, ino: nat, lo: nat)
    ensures Logs(sb, Foot(d, d, ino, lo, lo)) == {}
  {
    hide Ptr, Mapped;
  }

  /** The blocks that bmap logs when it has to add the block at bn. */
  function MapLog(sb: Super, d: Disk, t: Disk, ino: nat, bn: nat): set<nat> {
    var a := Ptr(t, BlockRef(ino, bn));
    var ind := Ptr(t, Indirect(ino));
    if Mapped(d, ino, bn) then {}
    else {BBlock(sb, a), a} + (if bn < NDIRECT then {} else {ind} + if Ptr(d, Indirect(ino)) == 0 then {BBlock(sb, ind)} else {})
  }

  lemma {:induction false} DataStep(t: Disk, u: Disk, ino: nat, lo: nat, hi: nat)
    requires lo <= hi && forall bn: nat :: lo <= bn < hi ==> At(u, ino, bn) == At(t, ino, bn)
    ensures Data(u, ino, lo, hi + 1) == Data(t, ino, lo, hi) + {At(u, ino, hi)}
  {
    hide At;
    assert forall x :: x in Data(t, ino, lo, hi) ==> exists bn: nat :: lo <= bn < hi && At(u, ino, bn) == x;
  }

  lemma {:induction false} AddedStep(d: Disk, t: Disk, u: Disk, ino: nat, lo: nat, hi: nat)
    requires lo <= hi && forall bn: nat :: lo <= bn < hi ==> At(u, ino, bn) == At(t, ino, bn)
    ensures Added(d, u, ino, lo, hi + 1) == Added(d, t, ino, lo, hi) + if Mapped(d, ino, hi) then {} else {At(u, ino, hi)}
  {
    hide At, Mapped;
    assert forall x :: x in Added(d, t, ino, lo, hi) ==> exists bn: nat :: lo <= bn < hi && !Mapped(d, ino, bn) && At(u, ino, bn) == x;
  }

  /** What is reached through the indirect block needs it. */
  lemma {:induction false} EntryNeedsIndirect(u: Disk, ino: nat, bn: nat)
    requires bn >= NDIRECT && Mapped(u, ino, bn)
    ensures Ptr(u, Indirect(ino)) != 0
  {
  }

  lemma {:induction false} IndirectThere(d: Disk, t: Disk, ino: nat, lo: nat, hi: nat)
    requires Covers(d, t, ino, lo, hi)
    ensures NeedsIndirect(d, ino, lo, hi) ==> Ptr(t, Indirect(ino)) != 0
    ensures !NeedsIndirect(d, ino, lo, hi) ==> Ptr(t, Indirect(ino)) == Ptr(d, Indirect(ino))
  {
    hide Ptr, Mapped, Filled;
    if NeedsIndirect(d, ino, lo, hi) {
      var bn: nat :| lo <= bn < hi && NDIRECT <= bn && !Mapped(d, ino, bn);
      EntryNeedsIndirect(t, ino, bn);
    } else {
      assert !InRange(d, Indirect(ino), ino, lo, hi);
    }
  }

  /** One pass of writei's loop logs what its block adds to the footprint. */
  lemma {:induction false} FootStep(sb: Super, d: Disk, t: Disk, u: Disk, ino: nat, lo: nat, hi: nat)
    requires lo <= hi && Covers(d, t, ino, lo, hi) && Extends(t, u, ino, hi) && Mapped(u, ino, hi)
    ensures Logs(sb, Foot(d, u, ino, lo, hi + 1)) == Logs(sb, Foot(d, t, ino, lo, hi)) + MapLog(sb, t, u, ino, hi) + {At(u, ino, hi)}
  {
    hide Ptr, Filled, NeedsIndirect, BBlock, BBlocks, Covers, Extends, Mapped, Added, Data;
    NeedsMore(d, ino, lo, hi);
    NotYetCovered(d, t, ino, lo, hi);
    IndirectThere(d, t, ino, lo, hi);
    AddressesStay(d, t, u, ino, lo, hi);
    DataStep(t, u, ino, lo, hi);
    AddedStep(d, t, u, ino, lo, hi);
    if hi >= NDIRECT {
      EntryNeedsIndirect(u, ino, hi);
    }
    var f, a, ind := Foot(d, t, ino, lo, hi), At(u, ino, hi), Ptr(u, Indirect(ino));
    BBlocksAdd(sb, f.added, a);
    assert f.added + {} == f.added;
    BBlocksOne(sb, ind);
  }

  lemma {:induction false} BBlocksOne(sb: Super, a: nat)
    ensures BBlocks(sb, {a}) == {BBlock(sb, a)} && BBlocks(sb, {}) == {}
  {
    hide BBlock;
  }

  lemma {:induction false} AddressesStay(d: Disk, t: Disk, u: Disk, ino: nat, lo: nat, hi: nat)
    requires Covers(d, t, ino, lo, hi) && Extends(t, u, ino, hi)
    ensures forall bn: nat :: lo <= bn < hi ==> At(u, ino, bn) == At(t, ino, bn)
    ensures Ptr(t, Indirect(ino)) != 0 ==> Ptr(u, Indirect(ino)) == Ptr(t, Indirect(ino))
  {
    hide Ptr, Filled;
    forall bn: nat | lo <= bn < hi
      ensures At(u, ino, bn) == At(t, ino, bn)
    {
      assert Mapped(t, ino, bn);
    }
  }
}
