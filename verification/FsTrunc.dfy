/** Truncation (fs.c: itrunc): which blocks an inode owns, and what the file system is without them. */
module FsTrunc {
  import opened Blocks
  import opened Fs
  import opened FsFile
  import opened FsFoot
  import opened FsCost

  /** The blocks whose addresses the given places hold. */
  ghost function Held(d: Disk, places: set<Ref>): set<nat> {
    set r | r in places && Ptr(d, r) != 0 :: Ptr(d, r)
  }

  ghost predicate Cleared(was: seq<bool>, now: seq<bool>, freed: set<nat>) {
    |now| == |was| && forall b :: 0 <= b < |was| ==> now[b] == (was[b] && b !in freed)
  }

  /** Each place's block is still marked when its turn to be freed comes. */
  lemma {:induction false} NextHeld(sb: Super, d: Disk, now: seq<bool>, done: set<Ref>, r: Ref)
    requires Owned(sb, d) && Cleared(d.used, now, Held(d, done)) && r !in done && Ptr(d, r) != 0
    ensures Ptr(d, r) < |now| && now[Ptr(d, r)]
    ensures Cleared(d.used, now[Ptr(d, r) := false], Held(d, done + {r}))
    ensures Held(d, done + {r}) == Held(d, done) + {Ptr(d, r)}
  {
    hide Ptr, NoLeak;
    assert Ptr(d, r) !in Held(d, done);
    HeldAdd(d, done, r);
  }

  lemma {:induction false} HeldAdd(d: Disk, done: set<Ref>, r: Ref)
    ensures Ptr(d, r) != 0 ==> Held(d, done + {r}) == Held(d, done) + {Ptr(d, r)}
    ensures Ptr(d, r) == 0 ==> Held(d, done + {r}) == Held(d, done)
  {
    hide Ptr;
    assert r in done + {r};
    forall x | x in Held(d, done)
      ensures x in Held(d, done + {r})
    {
      var q :| q in done && Ptr(d, q) != 0 && x == Ptr(d, q);
      assert q in done + {r};
    }
  }

  ghost function Directs(ino: nat, n: nat): set<Ref> {
    set i: nat | i < n :: Direct(ino, i)
  }

  ghost function Entries(ino: nat, n: nat): set<Ref> {
    set j: nat | j < n :: Entry(ino, j)
  }

  /** Every place of an inode. */
  ghost function Places(ino: nat): set<Ref> {
    Directs(ino, NDIRECT) + Entries(ino, WORDS) + {Indirect(ino)}
  }

  lemma {:induction false} OneMoreDirect(ino: nat, i: nat)
    ensures Directs(ino, i + 1) == Directs(ino, i) + {Direct(ino, i)} && Direct(ino, i) !in Directs(ino, i)
  {
    assert Direct(ino, i) in Directs(ino, i + 1);
  }

  lemma {:induction false} OneMoreEntry(ino: nat, j: nat)
    ensures Directs(ino, NDIRECT) + Entries(ino, j + 1) == Directs(ino, NDIRECT) + Entries(ino, j) + {Entry(ino, j)}
    ensures Entry(ino, j) !in Directs(ino, NDIRECT) + Entries(ino, j)
  {
    assert Entry(ino, j) in Entries(ino, j + 1);
  }

  // ---------- the calls ----------

  /** The order in which itrunc frees an inode's places: by block number, and the indirect block last. */
  function PlaceAt(ino: nat, k: nat): Ref {
    if k < MAXFILE then BlockRef(ino, k) else Indirect(ino)
  }

  /** The calls of log_write while the first n places are freed: the bitmap block of each block there. */
  ghost function FreeCalls(sb: Super, d: Disk, ino: nat, n: nat): (r: seq<nat>) {
    if n == 0 then []
    else FreeCalls(sb, d, ino, n - 1) + var a := Ptr(d, PlaceAt(ino, n - 1)); if a == 0 then [] else [BBlock(sb, a)]
  }

  ghost function FirstPlaces(ino: nat, n: nat): set<Ref> {
    set k: nat | k < n :: PlaceAt(ino, k)
  }

  lemma {:induction false} OneMorePlace(ino: nat, n: nat)
    ensures FirstPlaces(ino, n + 1) == FirstPlaces(ino, n) + {PlaceAt(ino, n)}
  {
    hide PlaceAt;
    assert PlaceAt(ino, n) in FirstPlaces(ino, n + 1);
  }

  lemma {:induction false} AllPlaces(ino: nat)
    ensures FirstPlaces(ino, MAXFILE + 1) == Places(ino)
  {
    forall r | r in Places(ino)
      ensures r in FirstPlaces(ino, MAXFILE + 1)
    {
      match r
      case Direct(_, i) => assert PlaceAt(ino, i) == r;
      case Entry(_, j) => assert PlaceAt(ino, NDIRECT + j) == r;
      case Indirect(_) => assert PlaceAt(ino, MAXFILE) == r;
    }
    forall r | r in FirstPlaces(ino, MAXFILE + 1)
      ensures r in Places(ino)
    {
      var k: nat :| k < MAXFILE + 1 && r == PlaceAt(ino, k);
      assert k < NDIRECT ==> r in Directs(ino, NDIRECT);
      assert NDIRECT <= k < MAXFILE ==> r == Entry(ino, k - NDIRECT) && r in Entries(ino, WORDS);
    }
  }

  /** They are for the bitmap blocks of the blocks freed. */
  lemma {:induction false} FreeCallsAre(sb: Super, d: Disk, ino: nat, n: nat)
    ensures Elems(FreeCalls(sb, d, ino, n)) == BBlocks(sb, Held(d, FirstPlaces(ino, n)))
  {
    hide Ptr, PlaceAt, BBlock, BBlocks, Held, Elems, FirstPlaces;
    if n == 0 {
      NoFreeCalls(sb, d, ino);
    } else {
      FreeCallsAre(sb, d, ino, n - 1);
      OneMorePlace(ino, n - 1);
      var r := PlaceAt(ino, n - 1);
      HeldAdd(d, FirstPlaces(ino, n - 1), r);
      var before := FreeCalls(sb, d, ino, n - 1);
      if Ptr(d, r) == 0 {
        assert before + [] == before;
      } else {
        BBlocksAdd(sb, Held(d, FirstPlaces(ino, n - 1)), Ptr(d, r));
        ElemsAdd(before, BBlock(sb, Ptr(d, r)));
      }
    }
  }

  lemma {:induction false} NoFreeCalls(sb: Super, d: Disk, ino: nat)
    ensures FreeCalls(sb, d, ino, 0) == [] && Elems([]) == {} && BBlocks(sb, Held(d, FirstPlaces(ino, 0))) == {}
  {
    assert FirstPlaces(ino, 0) == {};
    assert Held(d, {}) == {};
  }

  /** Without an indirect block there are no calls past the direct addresses. */
  lemma {:induction false} OnlyDirectCalls(sb: Super, d: Disk, ino: nat, n: nat)
    requires Ptr(d, Indirect(ino)) == 0 && NDIRECT <= n <= MAXFILE + 1
    ensures FreeCalls(sb, d, ino, n) == FreeCalls(sb, d, ino, NDIRECT)
    decreases n
  {
    hide BBlock;
    if n > NDIRECT {
      OnlyDirectCalls(sb, d, ino, n - 1);
      assert Ptr(d, PlaceAt(ino, n - 1)) == 0;
    }
  }

  /** Without an indirect block the direct addresses are all there is. */
  lemma {:induction false} OnlyDirects(d: Disk, ino: nat)
    requires Ptr(d, Indirect(ino)) == 0
    ensures Held(d, Places(ino)) == Held(d, Directs(ino, NDIRECT))
  {
    forall b | b in Held(d, Places(ino))
      ensures b in Held(d, Directs(ino, NDIRECT))
    {
      var r :| r in Places(ino) && Ptr(d, r) != 0 && b == Ptr(d, r);
      assert r in Directs(ino, NDIRECT);
    }
    forall b | b in Held(d, Directs(ino, NDIRECT))
      ensures b in Held(d, Places(ino))
    {
      var r :| r in Directs(ino, NDIRECT) && Ptr(d, r) != 0 && b == Ptr(d, r);
      assert r in Places(ino);
    }
  }

  ghost predicate Belongs(d: Disk, ino: nat, b: nat) {
    exists r: Ref :: r.ino == ino && Ptr(d, r) == b
  }

  lemma {:induction false} HeldIsBelongs(d: Disk, ino: nat, b: nat)
    requires b != 0
    ensures b in Held(d, Places(ino)) <==> Belongs(d, ino, b)
  {
    if b in Held(d, Places(ino)) {
      var r :| r in Places(ino) && Ptr(d, r) != 0 && b == Ptr(d, r);
      assert r.ino == ino;
    }
    if Belongs(d, ino, b) {
      var r: Ref :| r.ino == ino && Ptr(d, r) == b;
      assert r in Places(ino) by {
        match r
        case Direct(_, i) => assert i < NDIRECT;
        case Indirect(_) =>
        case Entry(_, j) => assert j < WORDS;
      }
    }
  }

  /** t is d with the inode's addresses and size gone and its blocks unmarked. */
  ghost predicate Truncated(d: Disk, t: Disk, ino: nat)
    requires ino < |d.inodes|
  {
    && t.blocks == d.blocks && |t.inodes| == |d.inodes|
    && (forall i :: 0 <= i < |d.inodes| && i != ino ==> t.inodes[i] == d.inodes[i])
    && t.inodes[ino].size == 0 && |t.inodes[ino].addrs| == NDIRECT + 1
    && (forall i :: 0 <= i < NDIRECT + 1 ==> t.inodes[ino].addrs[i] == 0)
    && Cleared(d.used, t.used, Held(d, Places(ino)))
  }

  lemma {:induction false} TruncPtr(sb: Super, d: Disk, t: Disk, ino: nat, q: Ref)
    requires Shape(sb, d) && ino < |d.inodes| && Truncated(d, t, ino)
    ensures Ptr(t, q) == if q.ino == ino then 0 else Ptr(d, q)
  {
    hide Word, Cleared;
  }

  /** Truncation gives back exactly the file's blocks: the rest of the file system is owned as before. */
  lemma {:induction false} TruncKeepsOwned(sb: Super, d: Disk, t: Disk, ino: nat)
    requires Owned(sb, d) && ino < |d.inodes| && Truncated(d, t, ino)
    ensures Owned(sb, t)
    ensures forall b :: 0 < b < sb.size ==> t.used[b] == (d.used[b] && !Belongs(d, ino, b))
  {
    hide Ptr, Places;
    forall q: Ref
      ensures Ptr(t, q) == if q.ino == ino then 0 else Ptr(d, q)
    {
      TruncPtr(sb, d, t, ino, q);
    }
    forall b | 0 < b < sb.size
      ensures t.used[b] == (d.used[b] && !Belongs(d, ino, b))
    {
      HeldIsBelongs(d, ino, b);
    }
    TruncMarked(sb, d, t, ino);
    TruncNoLeak(sb, d, t, ino);
  }

  lemma {:induction false} TruncMarked(sb: Super, d: Disk, t: Disk, ino: nat)
    requires Owned(sb, d) && |t.used| == |d.used| == sb.size
    requires forall q: Ref :: Ptr(t, q) == if q.ino == ino then 0 else Ptr(d, q)
    requires forall b :: 0 < b < sb.size ==> t.used[b] == (d.used[b] && !Belongs(d, ino, b))
    ensures Marked(sb, t)
  {
    hide Ptr, NoLeak;
    forall r: Ref | Ptr(t, r) != 0
      ensures sb.data <= Ptr(t, r) < sb.size && t.used[Ptr(t, r)]
    {
      var b := Ptr(t, r);
      assert Ptr(d, r) == b;
      assert forall q: Ref :: Ptr(d, q) == b ==> q == r;
    }
  }

  lemma {:induction false} TruncNoLeak(sb: Super, d: Disk, t: Disk, ino: nat)
    requires Owned(sb, d) && |t.used| == |d.used| == sb.size
    requires forall q: Ref :: Ptr(t, q) == if q.ino == ino then 0 else Ptr(d, q)
    requires forall b :: 0 < b < sb.size ==> t.used[b] == (d.used[b] && !Belongs(d, ino, b))
    requires t.used[0]
    ensures NoLeak(sb, t)
  {
    hide Ptr, Single;
    forall b | 0 <= b < sb.data
      ensures t.used[b]
    {
      assert d.used[b];
    }
    forall b | sb.data <= b < sb.size && t.used[b]
      ensures Referenced(t, b)
    {
      assert Referenced(d, b);
      var q: Ref :| Ptr(d, q) == b;
      assert q.ino != ino;
      assert Ptr(t, q) == b;
    }
  }

  /** The other files are untouched, and the truncated one is empty. */
  lemma {:induction false} TruncFiles(sb: Super, d: Disk, t: Disk, ino: nat)
    requires Owned(sb, d) && NoHoles(d) && ino < |d.inodes| && Truncated(d, t, ino)
    ensures NoHoles(t) && t.inodes[ino].size == 0
    ensures forall i: nat :: i < |d.inodes| && i != ino ==> SameFile(d, t, i)
  {
    hide Ptr, Owned, Cleared, Places;
    assert Shape(sb, d) by { ShapeOf(sb, d); }
    forall i: nat, n: nat | i != ino
      ensures Mapped(t, i, n) == Mapped(d, i, n) && Leaf(t, i, n) == Leaf(d, i, n)
    {
      TruncPtr(sb, d, t, ino, BlockRef(i, n));
    }
  }

  lemma {:induction false} ShapeOf(sb: Super, d: Disk)
    requires Owned(sb, d)
    ensures Shape(sb, d)
  {
  }
}
