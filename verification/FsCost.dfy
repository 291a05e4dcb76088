/** How many blocks a write takes from the bitmap, and how many it puts into the log. */
module FsCost {
  import opened Params
  import opened Blocks
  import opened Fs
  import opened FsFile
  import opened FsFoot

  // ---------- sets ----------

  lemma {:induction false} CardNew(s: set<nat>, a: nat)
    requires a !in s
    ensures |s + {a}| == |s| + 1
  {
  }

  lemma {:induction false} CardIn(a: set<nat>, b: set<nat>)
    requires a <= b
    ensures |a| <= |b|
  {
    assert b == a + (b - a) && a !! b - a;
  }

  lemma {:induction false} CardUnion(a: set<nat>, b: set<nat>)
    ensures |a + b| <= |a| + |b|
  {
    assert a + b == a + (b - a) && a !! b - a;
  }

  lemma {:induction false} CardDisjoint(a: set<nat>, b: set<nat>)
    requires a !! b
    ensures |a + b| == |a| + |b|
  {
  }

  lemma {:induction false} CardBBlocks(sb: Super, s: set<nat>)
    ensures |BBlocks(sb, s)| <= |s|
    decreases s
  {
    hide BBlock;
    if s == {} {
      assert BBlocks(sb, s) == {};
    } else {
      var a :| a in s;
      CardBBlocks(sb, s - {a});
      BBlocksAdd(sb, s - {a}, a);
      assert s - {a} + {a} == s;
      CardUnion(BBlocks(sb, s - {a}), {BBlock(sb, a)});
    }
  }

  // ---------- the blocks a write needs ----------

  /** The blocks lo .. hi-1 of a file that are not there. */
  ghost function Missing(d: Disk, ino: nat, lo: nat, hi: nat): set<nat> {
    set bn: nat | lo <= bn < hi && !Mapped(d, ino, bn)
  }

  /** What a write that covers lo .. hi-1 needs: the missing blocks, and an indirect block if it has none. */
  ghost function Needed(d: Disk, ino: nat, lo: nat, hi: nat): nat {
    |Missing(d, ino, lo, hi)| + if NeedsIndirect(d, ino, lo, hi) && Ptr(d, Indirect(ino)) == 0 then 1 else 0
  }

  ghost function Frees(used: seq<bool>): set<nat> {
    set b: nat | b < |used| && !used[b]
  }

  /** The blocks taken between two bitmaps. */
  ghost function Taken(a: seq<bool>, b: seq<bool>): set<nat> {
    Frees(a) - Frees(b)
  }

  lemma {:induction false} FreesLeft(a: seq<bool>, b: seq<bool>)
    requires Filled(a, b)
    ensures |Frees(a)| == |Frees(b)| + |Taken(a, b)|
  {
    assert Frees(a) == Frees(b) + Taken(a, b);
  }

  lemma {:induction false} MissingStep(d: Disk, ino: nat, lo: nat, hi: nat)
    requires lo <= hi
    ensures Missing(d, ino, lo, hi + 1) == Missing(d, ino, lo, hi) + if Mapped(d, ino, hi) then {} else {hi}
    ensures |Missing(d, ino, lo, hi + 1)| == |Missing(d, ino, lo, hi)| + if Mapped(d, ino, hi) then 0 else 1
  {
    hide Mapped;
    assert Missing(d, ino, lo, hi + 1) == Missing(d, ino, lo, hi) + if Mapped(d, ino, hi) then {} else {hi};
  }

  lemma {:induction false} OneIndex(u: Disk, ino: nat, a: nat, b: nat)
    requires Single(u) && Mapped(u, ino, a) && a != b
    ensures At(u, ino, a) != At(u, ino, b)
  {
    hide Ptr;
    assert BlockRef(ino, a) != BlockRef(ino, b);
  }

  /** The blocks of a range are as many as the range is long: no block is at two indices. */
  lemma {:induction false} CardData(u: Disk, ino: nat, lo: nat, hi: nat)
    requires Single(u) && lo <= hi && forall bn: nat :: lo <= bn < hi ==> Mapped(u, ino, bn)
    ensures |Data(u, ino, lo, hi)| == hi - lo
    decreases hi
  {
    hide Ptr, Single, At;
    if lo == hi {
      assert Data(u, ino, lo, hi) == {};
    } else {
      CardData(u, ino, lo, hi - 1);
      DataStep(u, u, ino, lo, hi - 1);
      forall bn: nat | lo <= bn < hi - 1
        ensures At(u, ino, bn) != At(u, ino, hi - 1)
      {
        OneIndex(u, ino, bn, hi - 1);
      }
    }
  }

  lemma {:induction false} CardAdded(d: Disk, u: Disk, ino: nat, lo: nat, hi: nat)
    requires Single(u) && lo <= hi && forall bn: nat :: lo <= bn < hi ==> Mapped(u, ino, bn)
    ensures |Added(d, u, ino, lo, hi)| == |Missing(d, ino, lo, hi)|
    decreases hi
  {
    hide Ptr, Single, At, Mapped, Added, Missing;
    if lo == hi {
      NothingAdded(d, u, ino, lo);
      NoneMissing(d, ino, lo);
    } else {
      CardAdded(d, u, ino, lo, hi - 1);
      AddedStep(d, u, u, ino, lo, hi - 1);
      MissingStep(d, ino, lo, hi - 1);
      NotAddedYet(d, u, ino, lo, hi - 1);
    }
  }

  lemma {:induction false} NothingAdded(d: Disk, u: Disk, ino: nat, lo: nat)
    ensures Added(d, u, ino, lo, lo) == {}
  {
    hide At, Mapped;
  }

  lemma {:induction false} NoneMissing(d: Disk, ino: nat, lo: nat)
    ensures Missing(d, ino, lo, lo) == {}
  {
    hide Mapped;
  }

  lemma {:induction false} NotAddedYet(d: Disk, u: Disk, ino: nat, lo: nat, hi: nat)
    requires Single(u) && forall bn: nat :: lo <= bn <= hi ==> Mapped(u, ino, bn)
    ensures At(u, ino, hi) !in Added(d, u, ino, lo, hi)
  {
    hide Ptr, Single, At, Mapped;
    forall bn: nat | lo <= bn < hi
      ensures At(u, ino, bn) != At(u, ino, hi)
    {
      OneIndex(u, ino, bn, hi);
    }
  }

  /** A block held at a place that was empty was free. */
  lemma {:induction false} NewIsTaken(sb: Super, d: Disk, u: Disk, q: Ref)
    requires Owned(sb, d) && Owned(sb, u) && (forall r: Ref :: Ptr(d, r) != 0 ==> Ptr(u, r) == Ptr(d, r))
    requires Ptr(d, q) == 0 && Ptr(u, q) != 0
    ensures Ptr(u, q) in Taken(d.used, u.used)
  {
    hide Ptr, Shape;
    SizeOfOwned(sb, d);
    SizeOfOwned(sb, u);
    var b := Ptr(u, q);
    assert sb.data <= b < sb.size && u.used[b];
  }

  /** A write takes exactly the blocks it adds. */
  lemma {:induction false} TakenAre(sb: Super, d: Disk, u: Disk, ino: nat, lo: nat, hi: nat)
    requires Owned(sb, d) && Owned(sb, u) && Covers(d, u, ino, lo, hi)
    ensures var f := Foot(d, u, ino, lo, hi); Taken(d.used, u.used) == f.added + f.newInd && f.added !! f.newInd
  {
    hide Ptr, Filled, Shape, NeedsIndirect;
    SizeOfOwned(sb, d);
    SizeOfOwned(sb, u);
    var f := Foot(d, u, ino, lo, hi);
    IndirectThere(d, u, ino, lo, hi);
    forall b | b in f.added
      ensures b in Taken(d.used, u.used) && b !in f.newInd
    {
      var bn: nat :| lo <= bn < hi && !Mapped(d, ino, bn) && b == At(u, ino, bn);
      assert Mapped(u, ino, bn);
      NewIsTaken(sb, d, u, BlockRef(ino, bn));
    }
    if f.newInd != {} {
      NewIsTaken(sb, d, u, Indirect(ino));
    }
    forall b | b in Taken(d.used, u.used)
      ensures b in f.added + f.newInd
    {
      TakenIsNew(sb, d, u, ino, lo, hi, b);
    }
  }

  lemma {:induction false} TakenIsNew(sb: Super, d: Disk, u: Disk, ino: nat, lo: nat, hi: nat, b: nat)
    requires Owned(sb, d) && Owned(sb, u) && Covers(d, u, ino, lo, hi) && b in Taken(d.used, u.used)
    ensures var f := Foot(d, u, ino, lo, hi); b in f.added + f.newInd
  {
    hide Filled, Shape, NeedsIndirect, Word;
    SizeOfOwned(sb, d);
    SizeOfOwned(sb, u);
    assert sb.data <= b < sb.size && u.used[b] && !d.used[b];
    assert Referenced(u, b);
    var q: Ref :| Ptr(u, q) == b;
    assert Ptr(d, q) == 0;
    assert InRange(d, q, ino, lo, hi);
    match q
    case Direct(i, n) => assert b == At(u, ino, n);
    case Entry(i, j) => assert BlockRef(ino, NDIRECT + j) == q && b == At(u, ino, NDIRECT + j);
    case Indirect(i) =>
  }

  /** A write takes as many blocks as it needs. */
  lemma {:induction false} TakesWhatItNeeds(sb: Super, d: Disk, u: Disk, ino: nat, lo: nat, hi: nat)
    requires Owned(sb, d) && Owned(sb, u) && lo <= hi && Covers(d, u, ino, lo, hi)
    ensures |Taken(d.used, u.used)| == Needed(d, ino, lo, hi)
    ensures |Frees(d.used)| == |Frees(u.used)| + Needed(d, ino, lo, hi)
  {
    hide Ptr, Filled, NeedsIndirect, Missing, Added, Data, Taken, Frees, Shape, Marked, NoLeak, Mapped;
    TakenAre(sb, d, u, ino, lo, hi);
    CardAdded(d, u, ino, lo, hi);
    var f := Foot(d, u, ino, lo, hi);
    CardDisjoint(f.added, f.newInd);
    FreesLeft(d.used, u.used);
  }

  // ---------- when it fails ----------

  /** What the block at an index needs. */
  ghost function NeedsAt(t: Disk, ino: nat, bn: nat): nat {
    if Mapped(t, ino, bn) then 0 else if bn >= NDIRECT && Ptr(t, Indirect(ino)) == 0 then 2 else 1
  }

  /** A pass that finds too few free blocks: there were too few for the whole write. */
  lemma {:induction false} TooFew(sb: Super, d: Disk, t: Disk, ino: nat, lo: nat, cur: nat, hi: nat)
    requires Owned(sb, d) && Owned(sb, t) && lo <= cur < hi && Covers(d, t, ino, lo, cur)
    requires |Frees(t.used)| < NeedsAt(t, ino, cur)
    ensures |Frees(d.used)| < Needed(d, ino, lo, hi)
  {
    hide Ptr, Filled, NeedsIndirect, Missing, Covers, Owned, Frees, Mapped;
    TakesWhatItNeeds(sb, d, t, ino, lo, cur);
    NotYetCovered(d, t, ino, lo, cur);
    MissingStep(d, ino, lo, cur);
    NeedsMore(d, ino, lo, cur);
    IndirectThere(d, t, ino, lo, cur);
    assert Needed(d, ino, lo, cur + 1) > |Frees(d.used)|;
    NeedsGrow(d, ino, lo, cur + 1, hi);
  }

  lemma {:induction false} NeedsGrow(d: Disk, ino: nat, lo: nat, mid: nat, hi: nat)
    requires lo <= mid <= hi
    ensures Needed(d, ino, lo, mid) <= Needed(d, ino, lo, hi)
  {
    hide Ptr, Mapped;
    CardIn(Missing(d, ino, lo, mid), Missing(d, ino, lo, hi));
  }

  // ---------- the log ----------

  /** The blocks from the first to the one after the last that n bytes from off lie in. */
  function FirstBlock(off: nat): nat {
    off / BSIZE
  }

  function EndBlock(off: nat, n: nat): (r: nat)
    ensures r >= FirstBlock(off)
  {
    if n == 0 then off / BSIZE else NBlocks(off + n)
  }

  /** What a write logs: its footprint, and the inode where the file grows. */
  ghost function Cost(sb: Super, d: Disk, u: Disk, ino: nat, off: nat, n: nat): set<nat>
    requires ino < |d.inodes|
  {
    Logs(sb, Foot(d, u, ino, FirstBlock(off), EndBlock(off, n))) +
    if Grows(d.inodes[ino].size, off, n) then {IBlock(sb, ino)} else {}
  }

  /** The calls of log_write: those of the footprint, and after them the inode where the file grows. */
  ghost predicate InodeLast(sb: Super, base: set<nat>, calls: seq<nat>, d: Disk, u: Disk, ino: nat, off: nat, n: nat)
    requires ino < |d.inodes|
  {
    var logs := base + Logs(sb, Foot(d, u, ino, FirstBlock(off), EndBlock(off, n)));
    if Grows(d.inodes[ino].size, off, n) then |calls| > 0 && calls[|calls| - 1] == IBlock(sb, ino) && Elems(calls[..|calls| - 1]) == logs
    else Elems(calls) == logs
  }

  lemma {:induction false} CallsAreCost(sb: Super, base: set<nat>, calls: seq<nat>, d: Disk, u: Disk, ino: nat,
      off: nat, n: nat)
    requires ino < |d.inodes| && InodeLast(sb, base, calls, d, u, ino, off, n)
    ensures Elems(calls) == base + Cost(sb, d, u, ino, off, n)
  {
    hide Elems, Logs, Foot, FirstBlock, EndBlock, IBlock;
    if Grows(d.inodes[ino].size, off, n) {
      ElemsAdd(calls[..|calls| - 1], calls[|calls| - 1]);
      assert calls[..|calls| - 1] + [calls[|calls| - 1]] == calls;
    }
  }

  /** The write passes the end of the file. */
  predicate Grows(size: nat, off: nat, n: nat) {
    n > 0 && off + n > size
  }

  /** No inode changed but, if anything did, this one. */
  ghost predicate OnlyInode(was: seq<Inode>, now: seq<Inode>, ino: nat, changed: bool) {
    |now| == |was| && forall i :: 0 <= i < |was| && (i != ino || !changed) ==> now[i] == was[i]
  }

  // ---------- everything that changes is logged ----------

  /** Nothing changed on disk outside the blocks s: data, bitmap and inodes. */
  ghost predicate OnlyIn(sb: Super, d: Disk, u: Disk, s: set<nat>) {
    && |u.blocks| == |d.blocks| && |u.used| == |d.used| && |u.inodes| == |d.inodes|
    && (forall b :: 0 <= b < |d.blocks| && u.blocks[b] != d.blocks[b] ==> b in s)
    && (forall b :: 0 <= b < |d.used| && u.used[b] != d.used[b] ==> BBlock(sb, b) in s)
    && (forall i :: 0 <= i < |d.inodes| && u.inodes[i] != d.inodes[i] ==> IBlock(sb, i) in s)
  }

  /** A write logs every block that it changes. */
  lemma {:induction false} LogsWhatItChanges(sb: Super, d: Disk, u: Disk, ino: nat, off: nat, n: nat)
    requires Owned(sb, d) && Owned(sb, u) && ino < |d.inodes|
    requires Covers(d, u, ino, FirstBlock(off), EndBlock(off, n))
    requires OnlyInode(d.inodes, u.inodes, ino, Grows(d.inodes[ino].size, off, n))
    ensures OnlyIn(sb, d, u, Cost(sb, d, u, ino, off, n))
  {
    hide Ptr, NeedsIndirect, Data, Added, EndBlock, FirstBlock, BBlock, IBlock, Owned, InRange, Filled, BBlocks;
    var lo, hi := FirstBlock(off), EndBlock(off, n);
    var f := Foot(d, u, ino, lo, hi);
    SizeOfOwned(sb, d);
    SizeOfOwned(sb, u);
    TakenAre(sb, d, u, ino, lo, hi);
    forall b | 0 <= b < |d.used| && u.used[b] != d.used[b]
      ensures BBlock(sb, b) in Cost(sb, d, u, ino, off, n)
    {
      ChangedIsTaken(d.used, u.used, b);
      InBBlocks(sb, f.added, b);
      InBBlocks(sb, f.newInd, b);
    }
  }

  /** Data blocks, bitmap blocks and blocks of the first n inodes. */
  ghost predicate FsBlocks(sb: Super, n: nat, s: set<nat>) {
    forall x :: x in s ==> sb.data <= x < sb.size || IsBBlock(sb, x) || IsIBlock(sb, n, x)
  }

  ghost predicate IsBBlock(sb: Super, x: nat) {
    exists b: nat :: b < sb.size && x == BBlock(sb, b)
  }

  ghost predicate IsIBlock(sb: Super, n: nat, x: nat) {
    exists i: nat :: i < n && x == IBlock(sb, i)
  }

  /** The log never takes a write's own log blocks or the superblock. */
  lemma {:induction false} CostIsFsBlocks(sb: Super, d: Disk, u: Disk, ino: nat, off: nat, n: nat)
    requires Owned(sb, d) && Owned(sb, u) && ino < |d.inodes|
    requires Covers(d, u, ino, FirstBlock(off), EndBlock(off, n))
    ensures FsBlocks(sb, |d.inodes|, Cost(sb, d, u, ino, off, n))
  {
    hide Ptr, NeedsIndirect, Data, Added, EndBlock, FirstBlock, BBlock, IBlock, Owned, Covers, Foot, IsBBlock, Taken;
    hide BBlocks;
    var lo, hi := FirstBlock(off), EndBlock(off, n);
    var f := Foot(d, u, ino, lo, hi);
    TakenAre(sb, d, u, ino, lo, hi);
    CardPlaces(sb, d, u, ino, lo, hi);
    TakenInDisk(sb, d, u);
    AreBBlocks(sb, f.added);
    AreBBlocks(sb, f.newInd);
  }

  lemma {:induction false} AreBBlocks(sb: Super, s: set<nat>)
    requires forall b :: b in s ==> b < sb.size
    ensures forall x :: x in BBlocks(sb, s) ==> IsBBlock(sb, x)
  {
    hide BBlock;
  }

  lemma {:induction false} ChangedIsTaken(a: seq<bool>, b: seq<bool>, x: nat)
    requires Filled(a, b) && x < |a| && a[x] != b[x]
    ensures x in Taken(a, b)
  {
  }

  lemma {:induction false} InBBlocks(sb: Super, s: set<nat>, b: nat)
    ensures b in s ==> BBlock(sb, b) in BBlocks(sb, s)
  {
  }

  /** mkfs puts the inode blocks before the bitmap and the bitmap before the data. */
  ghost predicate Layout(sb: Super, d: Disk) {
    && (forall i: nat :: i < |d.inodes| ==> IBlock(sb, i) < sb.bmapstart)
    && (forall b: nat :: b < sb.size ==> BBlock(sb, b) < sb.data)
  }

  lemma {:induction false} BBlocksUnion(sb: Super, a: set<nat>, b: set<nat>)
    ensures BBlocks(sb, a + b) == BBlocks(sb, a) + BBlocks(sb, b)
  {
    hide BBlock;
    forall x | x in BBlocks(sb, a) + BBlocks(sb, b)
      ensures x in BBlocks(sb, a + b)
    {
      var y :| (y in a || y in b) && x == BBlock(sb, y);
      assert y in a + b;
    }
  }

  /** The footprint's data and indirect blocks are data blocks, all of them different. */
  lemma {:induction false} CardPlaces(sb: Super, d: Disk, u: Disk, ino: nat, lo: nat, hi: nat)
    requires Owned(sb, u) && lo <= hi && Covers(d, u, ino, lo, hi)
    ensures var f := Foot(d, u, ino, lo, hi);
      && |f.data + f.ind| == hi - lo + (if NeedsIndirect(d, ino, lo, hi) then 1 else 0)
      && (forall b :: b in f.data + f.ind ==> sb.data <= b < sb.size)
  {
    hide Ptr, Filled, Shape, Marked, Single, NoLeak, NeedsIndirect, At, Mapped;
    var f := Foot(d, u, ino, lo, hi);
    CardData(u, ino, lo, hi);
    IndirectThere(d, u, ino, lo, hi);
    forall b | b in f.data
      ensures sb.data <= b < sb.size && b != Ptr(u, Indirect(ino))
    {
      var bn: nat :| lo <= bn < hi && b == At(u, ino, bn);
      DataPlace(sb, u, ino, bn);
    }
    IndirectPlace(sb, u, ino);
    CardDisjoint(f.data, f.ind);
  }

  lemma {:induction false} DataPlace(sb: Super, u: Disk, ino: nat, bn: nat)
    requires Owned(sb, u) && Mapped(u, ino, bn)
    ensures sb.data <= At(u, ino, bn) < sb.size && At(u, ino, bn) != Ptr(u, Indirect(ino))
  {
    hide Ptr, Shape, NoLeak;
  }

  lemma {:induction false} IndirectPlace(sb: Super, u: Disk, ino: nat)
    requires Owned(sb, u)
    ensures Ptr(u, Indirect(ino)) != 0 ==> sb.data <= Ptr(u, Indirect(ino)) < sb.size
  {
    hide Ptr, Shape, NoLeak, Single;
  }

  /** Exactly what a write logs: the blocks it writes, a bitmap block for each that has new blocks, the
      indirect block if an entry was added to it, and the inode if the file grows. */
  lemma {:induction false} CostIs(sb: Super, d: Disk, u: Disk, ino: nat, off: nat, n: nat)
    requires Owned(sb, d) && Owned(sb, u) && ino < |d.inodes| && Layout(sb, d)
    requires Covers(d, u, ino, FirstBlock(off), EndBlock(off, n))
    ensures var lo, hi := FirstBlock(off), EndBlock(off, n);
      |Cost(sb, d, u, ino, off, n)| == hi - lo + |BBlocks(sb, Taken(d.used, u.used))| +
        (if NeedsIndirect(d, ino, lo, hi) then 1 else 0) + (if Grows(d.inodes[ino].size, off, n) then 1 else 0)
  {
    hide Ptr, Covers, NeedsIndirect, Data, Added, EndBlock, FirstBlock, BBlocks, Taken, BBlock, IBlock, Owned, Foot;
    var lo, hi := FirstBlock(off), EndBlock(off, n);
    var f := Foot(d, u, ino, lo, hi);
    TakenAre(sb, d, u, ino, lo, hi);
    CardPlaces(sb, d, u, ino, lo, hi);
    BBlocksUnion(sb, f.added, f.newInd);
    var places, maps := f.data + f.ind, BBlocks(sb, Taken(d.used, u.used));
    assert Logs(sb, f) == places + maps;
    MapsBelowData(sb, d, Taken(d.used, u.used)) by { TakenInDisk(sb, d, u); }
    CardDisjoint(places, maps);
    var inode := if Grows(d.inodes[ino].size, off, n) then {IBlock(sb, ino)} else {};
    InodeBelowMaps(sb, d, ino);
    CardDisjoint(places + maps, inode);
  }

  lemma {:induction false} TakenInDisk(sb: Super, d: Disk, u: Disk)
    requires Owned(sb, d)
    ensures forall b :: b in Taken(d.used, u.used) ==> b < sb.size
  {
    SizeOfOwned(sb, d);
  }

  lemma {:induction false} MapsBelowData(sb: Super, d: Disk, s: set<nat>)
    requires Layout(sb, d) && forall b :: b in s ==> b < sb.size
    ensures forall x :: x in BBlocks(sb, s) ==> sb.bmapstart <= x < sb.data
  {
  }

  lemma {:induction false} InodeBelowMaps(sb: Super, d: Disk, ino: nat)
    requires Layout(sb, d) && ino < |d.inodes| && Owned(sb, d)
    ensures IBlock(sb, ino) < sb.bmapstart <= sb.data
  {
    hide IBlock, Owned;
    SizeOfOwned(sb, d);
    assert BBlock(sb, 0) < sb.data;
  }

  // ---------- the next free blocks ----------

  /** fs are the first free blocks of the bitmap. */
  ghost predicate NextFree(used: seq<bool>, fs: seq<nat>) {
    && (forall i :: 0 <= i < |fs| ==> fs[i] < |used| && !used[fs[i]])
    && (forall i, j :: 0 <= i < j < |fs| ==> fs[i] < fs[j])
    && (|fs| > 0 ==> forall b: nat :: b < fs[|fs| - 1] && b < |used| && !used[b] ==> b in fs)
  }

  ghost function Elems(s: seq<nat>): set<nat> {
    set i | 0 <= i < |s| :: s[i]
  }

  lemma {:induction false} ElemsAdd(s: seq<nat>, a: nat)
    ensures Elems(s + [a]) == Elems(s) + {a}
  {
    var t := s + [a];
    assert t[|s|] == a;
    forall x | x in Elems(s)
      ensures x in Elems(t)
    {
      var i :| 0 <= i < |s| && x == s[i];
      assert t[i] == x;
    }
  }

  /** The calls of log_write in one operation: none comes when the reservation is used up, and none exceeds it. */
  ghost predicate WithinLimit(calls: seq<nat>) {
    forall k :: 0 <= k < |calls| ==> CallFits(calls, k)
  }

  ghost predicate CallFits(calls: seq<nat>, k: nat)
    requires k < |calls|
  {
    |Elems(calls[..k])| < MAXOPBLOCKS && |Elems(calls[..k + 1])| <= MAXOPBLOCKS
  }

  lemma {:induction false} PrefixElems(s: seq<nat>, k: nat, m: nat)
    requires k <= m <= |s|
    ensures |Elems(s[..k])| <= |Elems(s[..m])|
  {
    forall x | x in Elems(s[..k])
      ensures x in Elems(s[..m])
    {
      var i :| 0 <= i < k && x == s[..k][i];
      assert s[..m][i] == x;
    }
    CardIn(Elems(s[..k]), Elems(s[..m]));
  }

  lemma {:induction false} CardElems(s: seq<nat>)
    requires forall i, j :: 0 <= i < j < |s| ==> s[i] < s[j]
    ensures |Elems(s)| == |s|
    decreases |s|
  {
    if |s| > 0 {
      var n := |s| - 1;
      CardElems(s[..n]);
      assert Elems(s) == Elems(s[..n]) + {s[n]};
      assert s[n] !in Elems(s[..n]);
    } else {
      assert Elems(s) == {};
    }
  }

  /** A write that needs as many blocks as there are in fs takes these. */
  lemma {:induction false} TakesTheNext(a: seq<bool>, b: seq<bool>, fs: seq<nat>)
    requires Filled(a, b) && NextFree(a, fs) && |Taken(a, b)| == |fs|
    ensures Taken(a, b) == Elems(fs)
  {
    CardElems(fs);
    var t, e := Taken(a, b), Elems(fs);
    if x :| x in t && x !in e {
      TakenBefore(a, b, fs, x);
      CardIn(e + {x}, t);
      CardNew(e, x);
    }
    SubsetSameCard(t, e);
  }

  lemma {:induction false} TakenBefore(a: seq<bool>, b: seq<bool>, fs: seq<nat>, x: nat)
    requires Filled(a, b) && NextFree(a, fs) && x in Taken(a, b) && x !in fs
    ensures forall i :: 0 <= i < |fs| ==> fs[i] in Taken(a, b)
  {
    forall i | 0 <= i < |fs|
      ensures fs[i] in Taken(a, b)
    {
      assert x != fs[|fs| - 1] && !(x < fs[|fs| - 1]);
      assert fs[i] <= fs[|fs| - 1] < x;
    }
  }

  lemma {:induction false} SubsetSameCard(a: set<nat>, b: set<nat>)
    requires a <= b && |a| == |b|
    ensures a == b
  {
    assert b == a + (b - a) && a !! b - a;
  }

  /** Blocks with different bitmap blocks. */
  ghost predicate Spread(sb: Super, fs: seq<nat>) {
    forall i, j :: 0 <= i < j < |fs| ==> BBlock(sb, fs[i]) != BBlock(sb, fs[j])
  }

  lemma {:induction false} CardSpread(sb: Super, fs: seq<nat>)
    requires Spread(sb, fs)
    ensures |BBlocks(sb, Elems(fs))| == |fs|
    decreases |fs|
  {
    hide BBlock;
    if |fs| > 0 {
      var n := |fs| - 1;
      CardSpread(sb, fs[..n]);
      assert Elems(fs) == Elems(fs[..n]) + {fs[n]};
      BBlocksAdd(sb, Elems(fs[..n]), fs[n]);
      assert BBlock(sb, fs[n]) !in BBlocks(sb, Elems(fs[..n]));
    } else {
      assert Elems(fs) == {};
    }
  }
}
