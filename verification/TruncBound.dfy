/**
  The transaction in which the last reference to a file without links goes (file.c: fileclose, fs.c: iput
  and itrunc): it logs a bitmap block for every block of the file and the inode twice, and nothing bounds
  how many bitmap blocks these are but the size of the disk.
 */
module TruncBound {
  import opened Common
  import opened Params
  import opened Bitmap
  import opened Blocks
  import opened Fs
  import opened FsFile
  import opened FsFoot
  import opened FsCost
  import opened FsTrunc
  import opened FileSystem
  import O = LogOperations

  /** The bitmap blocks of a file's blocks. */
  ghost function MapsOf(sb: Super, d: Disk, ino: nat): set<nat> {
    BBlocks(sb, Held(d, Places(ino)))
  }

  lemma {:induction false} HeldInDisk(sb: Super, d: Disk, ino: nat)
    requires Owned(sb, d)
    ensures forall b :: b in Held(d, Places(ino)) ==> b < sb.size
  {
    hide Ptr, Shape, Single, NoLeak, Places;
  }

  /** What has been logged before the last two calls, and after each of them. */
  lemma {:induction false} PutSpends(sb: Super, d: Disk, ino: nat)
    requires Owned(sb, d) && ino < |d.inodes| && Layout(sb, d)
    ensures var calls, m := PutCalls(sb, d, ino), |MapsOf(sb, d, ino)|;
      && |calls| >= 2 && |Elems(calls)| == m + 1 && |Elems(calls[..|calls| - 1])| == m + 1
  {
    hide Owned, Held, Places, BBlocks, IBlock, BBlock, FreeCalls, Elems;
    var f, i, maps := FreeCalls(sb, d, ino, MAXFILE + 1), IBlock(sb, ino), MapsOf(sb, d, ino);
    FreeCallsAre(sb, d, ino, MAXFILE + 1);
    AllPlaces(ino);
    HeldInDisk(sb, d, ino);
    MapsBelowData(sb, d, Held(d, Places(ino)));
    InodeBelowMaps(sb, d, ino);
    CardNew(maps, i);
    ElemsAdd(f, i);
    ElemsAdd(f + [i], i);
    assert maps + {i} + {i} == maps + {i};
    var calls := PutCalls(sb, d, ino);
    assert calls[..|calls| - 1] == f + [i];
  }

  /**
    The calls of an iput that frees its inode keep the limit at every point if and only if the file's
    blocks lie in fewer than MAXOPBLOCKS - 1 bitmap blocks: the last call, for the inode again, must not
    come when the reservation is used up.
   */
  lemma {:induction false} PutFitsIff(sb: Super, d: Disk, ino: nat)
    requires Owned(sb, d) && ino < |d.inodes| && Layout(sb, d)
    ensures WithinLimit(PutCalls(sb, d, ino)) <==> |MapsOf(sb, d, ino)| < MAXOPBLOCKS - 1
  {
    hide Owned, PutCalls, MapsOf, Layout, Elems;
    PutSpends(sb, d, ino);
    var calls, m := PutCalls(sb, d, ino), |MapsOf(sb, d, ino)|;
    var last := |calls| - 1;
    assert calls[..last + 1] == calls;
    if m < MAXOPBLOCKS - 1 {
      forall k | 0 <= k < |calls|
        ensures CallFits(calls, k)
      {
        PrefixElems(calls, k, last);
        PrefixElems(calls, k + 1, last + 1);
      }
    } else {
      assert !CallFits(calls, last);
    }
  }

  /** No run with such an iput, beside any operations that keep the limit, panics if and only if that is so. */
  lemma {:induction false} PutIsSafeIff(sb: Super, d: Disk, ino: nat, size: nat)
    requires Owned(sb, d) && ino < |d.inodes| && Layout(sb, d) && size > LOGSIZE
    ensures O.Safe(size, O.Beside(PutCalls(sb, d, ino))) <==> |MapsOf(sb, d, ino)| < MAXOPBLOCKS - 1
  {
    hide Owned, PutCalls, MapsOf, Layout, WithinLimit, O.Safe, O.Beside;
    PutFitsIff(sb, d, ino);
    O.SafeBesideIff(size, PutCalls(sb, d, ino));
  }

  ghost function Range(a: nat, n: nat): (r: set<nat>)
    ensures |r| == n && forall x: nat :: x in r <==> a <= x < a + n
  {
    if n == 0 then {} else Range(a, n - 1) + {a + n - 1}
  }

  /** On a disk with fewer than MAXOPBLOCKS - 1 bitmap blocks it always is. */
  lemma {:induction false} SmallDiskFits(sb: Super, d: Disk, ino: nat)
    requires Owned(sb, d) && ino < |d.inodes| && Layout(sb, d) && sb.size <= (MAXOPBLOCKS - 2) * BPB
    ensures WithinLimit(PutCalls(sb, d, ino))
  {
    hide Owned, Held, Places, PutCalls, WithinLimit;
    HeldInDisk(sb, d, ino);
    forall x | x in MapsOf(sb, d, ino)
      ensures x in Range(sb.bmapstart, MAXOPBLOCKS - 2)
    {
      var b :| b in Held(d, Places(ino)) && x == BBlock(sb, b);
    }
    CardIn(MapsOf(sb, d, ino), Range(sb.bmapstart, MAXOPBLOCKS - 2));
    PutFitsIff(sb, d, ino);
  }

  /** fileclose of an inode: one iput in a transaction of its own. */
  method CloseInode(v: Volume, ino: nat, frees: bool)
    requires v.Valid() && ino < |v.inodes| && Layout(v.sb, v.Snap())
    modifies v
    ensures v.Valid() && if frees then Truncated(old(v.Snap()), v.Snap(), ino) else v.Snap() == old(v.Snap())
    ensures v.calls == if frees then PutCalls(v.sb, old(v.Snap()), ino) else []
    ensures WithinLimit(v.calls) <==> !frees || |MapsOf(v.sb, old(v.Snap()), ino)| < MAXOPBLOCKS - 1
  {
    hide Owned, BitsAre, NoHoles, Truncated, PutCalls, MapsOf, Layout;
    ghost var d := v.Snap();
    PutFitsIff(v.sb, d, ino);
    v.BeginOp();
    v.Iput(ino, frees);
  }

  // ---------- a file that is scattered ----------

  const WIDE_SUPER := Super(13 * BPB, 400, 200, 2)

  /** n blocks, each with a bitmap block of its own. */
  function Scattered(n: nat): (r: seq<Uint>)
    requires n <= NDIRECT
    ensures |r| == n && forall i :: 0 <= i < n ==> r[i] == WIDE_SUPER.data + BPB * i
  {
    if n == 0 then [] else Scattered(n - 1) + [WIDE_SUPER.data + BPB * (n - 1)]
  }

  function WideUsed(n: nat, size: nat): (r: seq<bool>)
    requires n <= NDIRECT
    ensures |r| == size && forall b :: 0 <= b < size ==> r[b] == (b < WIDE_SUPER.data || b in Scattered(n))
  {
    if size == 0 then [] else WideUsed(n, size - 1) + [size - 1 < WIDE_SUPER.data || size - 1 in Scattered(n)]
  }

  function WideInode(n: nat): (r: Inode)
    requires n <= NDIRECT
    ensures |r.addrs| == NDIRECT + 1 && r.size == n * BSIZE
    ensures forall i :: 0 <= i <= NDIRECT ==> r.addrs[i] == if i < n then WIDE_SUPER.data + BPB * i else 0
  {
    Inode(Scattered(n) + Copies<Uint>(0, NDIRECT + 1 - n), n * BSIZE)
  }

  /** A disk with one file, of n blocks. */
  ghost function Wide(n: nat): Disk
    requires n <= NDIRECT
  {
    Disk(WideUsed(n, WIDE_SUPER.size), Copies(ZeroBlock(), WIDE_SUPER.size), [WideInode(n)])
  }

  lemma {:induction false} WidePtr(n: nat, q: Ref)
    requires n <= NDIRECT
    ensures Ptr(Wide(n), q) == if q.Direct? && q.ino == 0 && q.i < n then WIDE_SUPER.data + BPB * q.i else 0
  {
    hide Word, WideInode, WideUsed;
    assert Addr(Wide(n), 0, NDIRECT) == 0;
  }

  lemma {:induction false} WidePtrs(n: nat)
    requires n <= NDIRECT
    ensures forall q: Ref ::
              Ptr(Wide(n), q) == if q.Direct? && q.ino == 0 && q.i < n then WIDE_SUPER.data + BPB * q.i else 0
  {
    hide Ptr, Wide;
    forall q: Ref
      ensures Ptr(Wide(n), q) == if q.Direct? && q.ino == 0 && q.i < n then WIDE_SUPER.data + BPB * q.i else 0
    {
      WidePtr(n, q);
    }
  }

  lemma {:induction false} WideBitmap(n: nat, b: nat)
    requires n <= NDIRECT && b < WIDE_SUPER.size
    ensures |Wide(n).used| == WIDE_SUPER.size && (Wide(n).used[b] <==> b < WIDE_SUPER.data || b in Scattered(n))
  {
    hide Scattered, WideInode;
  }

  lemma {:induction false} WideMarked(n: nat)
    requires n <= NDIRECT
    ensures Marked(WIDE_SUPER, Wide(n)) && Single(Wide(n))
  {
    hide Ptr, Wide;
    WidePtrs(n);
    var d := Wide(n);
    forall q: Ref | Ptr(d, q) != 0
      ensures WIDE_SUPER.data <= Ptr(d, q) < WIDE_SUPER.size && Ptr(d, q) < |d.used| && d.used[Ptr(d, q)]
    {
      assert Scattered(n)[q.i] == Ptr(d, q);
      WideBitmap(n, Ptr(d, q));
    }
  }

  lemma {:induction false} WideNoLeak(n: nat)
    requires n <= NDIRECT
    ensures NoLeak(WIDE_SUPER, Wide(n))
  {
    hide Ptr, Wide;
    WidePtrs(n);
    WideBitmap(n, 0);
    var d := Wide(n);
    forall b: nat | b < WIDE_SUPER.size
      ensures if b < WIDE_SUPER.data then d.used[b] else d.used[b] ==> Referenced(d, b)
    {
      WideBitmap(n, b);
      if b >= WIDE_SUPER.data && d.used[b] {
        var i :| 0 <= i < n && b == Scattered(n)[i];
        assert Ptr(d, Direct(0, i)) == b;
      }
    }
  }

  lemma {:induction false} WideOwned(n: nat)
    requires n <= NDIRECT
    ensures Owned(WIDE_SUPER, Wide(n)) && Layout(WIDE_SUPER, Wide(n)) && NoHoles(Wide(n))
  {
    hide Ptr, Marked, Single, NoLeak, WideUsed, WideInode;
    WideMarked(n);
    WideNoLeak(n);
    WidePtrs(n);
    assert NBlocks(n * BSIZE) == n;
    forall k: nat | k < n
      ensures Mapped(Wide(n), 0, k)
    {
      assert BlockRef(0, k) == Direct(0, k);
    }
  }

  lemma {:induction false} WideHeld(n: nat)
    requires n <= NDIRECT
    ensures Held(Wide(n), Places(0)) == Elems(Scattered(n))
  {
    hide Ptr, Wide;
    WidePtrs(n);
    var d := Wide(n);
    forall i | 0 <= i < n
      ensures Scattered(n)[i] in Held(d, Places(0))
    {
      assert Direct(0, i) in Directs(0, NDIRECT);
      assert Direct(0, i) in Places(0) && Ptr(d, Direct(0, i)) == Scattered(n)[i];
    }
    forall b | b in Held(d, Places(0))
      ensures b in Elems(Scattered(n))
    {
      var q :| q in Places(0) && Ptr(d, q) != 0 && b == Ptr(d, q);
      assert b == Scattered(n)[q.i];
    }
  }

  /** Its blocks lie in n bitmap blocks. */
  lemma {:induction false} WideMaps(n: nat)
    requires n <= NDIRECT
    ensures |MapsOf(WIDE_SUPER, Wide(n), 0)| == n
  {
    hide Held, Places, BBlocks, Elems, Wide;
    WideHeld(n);
    assert Spread(WIDE_SUPER, Scattered(n));
    CardSpread(WIDE_SUPER, Scattered(n));
  }

  /** The bytes of a bitmap, as far as block n. */
  function MapBytes(used: seq<bool>, n: nat): (r: seq<bv8>)
    requires n <= |used|
    ensures |r| == |used| / 8 + 1
  {
    if n == 0 then Copies<bv8>(0, |used| / 8 + 1)
    else if used[n - 1] then SetBit(MapBytes(used, n - 1), n - 1)
    else MapBytes(used, n - 1)
  }

  lemma {:induction false} MapBytesAre(used: seq<bool>, n: nat, b: nat)
    requires n <= |used| && b < |used|
    ensures Bit(MapBytes(used, n), b) == (b < n && used[b])
  {
    hide SetBit, Bit;
    if n == 0 {
      NoBit(Copies<bv8>(0, |used| / 8 + 1), b);
    } else {
      MapBytesAre(used, n - 1, b);
      if used[n - 1] {
        SetBitIs(MapBytes(used, n - 1), n - 1, b);
      }
    }
  }

  lemma {:induction false} NoBit(bytes: seq<bv8>, b: nat)
    requires b < 8 * |bytes| && bytes[b / 8] == 0
    ensures !Bit(bytes, b)
  {
  }

  /**
    A volume with a file of n blocks, each in a bitmap block of its own, whose last reference goes: the
    transaction keeps its limit if and only if n is less than MAXOPBLOCKS - 1. With nine it does not.
   */
  method CloseScattered(n: nat) returns (v: Volume)
    requires n <= NDIRECT
    ensures fresh(v) && v.sb == WIDE_SUPER && v.Valid() && Truncated(Wide(n), v.Snap(), 0)
    ensures v.calls == PutCalls(WIDE_SUPER, Wide(n), 0) && |MapsOf(WIDE_SUPER, Wide(n), 0)| == n
    ensures WithinLimit(v.calls) <==> n < MAXOPBLOCKS - 1
  {
    hide Owned, NoHoles, WideUsed, WideInode, MapBytes, Bit, Truncated, PutCalls, MapsOf, Layout, WithinLimit;
    WideOwned(n);
    WideMaps(n);
    var used := WideUsed(n, WIDE_SUPER.size);
    var bitmap := MapBytes(used, |used|);
    forall b | 0 <= b < |used|
      ensures used[b] == Bit(bitmap, b)
    {
      MapBytesAre(used, |used|, b);
    }
    v := new Volume(WIDE_SUPER, bitmap, Copies(ZeroBlock(), WIDE_SUPER.size), [WideInode(n)], used);
    CloseInode(v, 0, true);
  }
}
