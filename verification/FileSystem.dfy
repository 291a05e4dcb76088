/**
  The block allocator and the inode layer of fs.c over a bitmap of bytes, blocks of bytes, in-memory
  inodes and their copies on disk. Panics end the run: the methods that can panic return false.
 */
module FileSystem {
  import opened Common
  import opened Bitmap
  import opened Blocks
  import opened Fs
  import opened FsFile
  import opened FsFoot
  import opened FsCost
  import opened FsTrunc

  ghost predicate BitsAre(bitmap: seq<bv8>, used: seq<bool>) {
    |used| <= 8 * |bitmap| && forall b :: 0 <= b < |used| ==> used[b] == Bit(bitmap, b)
  }

  class Volume {
    const sb: Super
    var bitmap: seq<bv8>
    var blocks: seq<Block>
    var inodes: seq<Inode>
    var dinodes: seq<Inode>
    ghost var used: seq<bool>
    ghost var calls: seq<nat>

    ghost function Snap(): Disk
      reads this
    {
      Disk(used, blocks, inodes)
    }

    /** The blocks given to log_write since the operation began. */
    ghost function Logged(): set<nat>
      reads `calls
    {
      Elems(calls)
    }

    /** The bitmap's bytes say what used says, and every block is accounted for. */
    ghost predicate Sound()
      reads this
    {
      BitsAre(bitmap, used) && Owned(sb, Snap())
    }

    /** At an operation's boundary files also have no holes and the inodes on disk are those in memory. */
    ghost predicate Valid()
      reads this
    {
      Sound() && NoHoles(Snap()) && dinodes == inodes
    }

    /** A mounted image whose bitmap, inodes and blocks agree. */
    constructor (sb: Super, bitmap: seq<bv8>, blocks: seq<Block>, inodes: seq<Inode>, ghost used: seq<bool>)
      requires BitsAre(bitmap, used) && Owned(sb, Disk(used, blocks, inodes)) && NoHoles(Disk(used, blocks, inodes))
      ensures Valid() && this.sb == sb && Snap() == Disk(used, blocks, inodes) && calls == []
    {
      this.sb, this.bitmap, this.blocks, this.inodes, this.dinodes := sb, bitmap, blocks, inodes, inodes;
      this.used, this.calls := used, [];
    }

    /** The blocks logged from here on are those of one operation. */
    method BeginOp()
      modifies `calls
      ensures calls == [] && Logged() == {}
    {
      calls := [];
    }

    /** log_write, as far as the file system sees it. */
    method LogWrite(b: nat)
      modifies `calls
      ensures calls == old(calls) + [b] && Logged() == old(Logged()) + {b}
    {
      ElemsAdd(calls, b);
      calls := calls + [b];
    }

    /** Mark a block and zero it, through the log. */
    method Take(r: nat)
      requires BitsAre(bitmap, used) && r < |used| == |blocks|
      modifies `bitmap, `blocks, `used, `calls
      ensures used == old(used)[r := true] && blocks == old(blocks)[r := ZeroBlock()]
      ensures Logged() == old(Logged()) + {BBlock(sb, r), r} && BitsAre(bitmap, used)
    {
      hide ZeroBlock, SetBit;
      forall c | 0 <= c < |used|
        ensures used[r := true][c] == Bit(SetBit(bitmap, r), c)
      {
        SetBitIs(bitmap, r, c);
      }
      bitmap, used := SetBit(bitmap, r), used[r := true];
      LogWrite(BBlock(sb, r));
      blocks := blocks[r := ZeroBlock()];
      LogWrite(r);
    }

    /** balloc's test of one bit. */
    method IsClear(b: nat, bi: nat) returns (clear: bool)
      requires BitsAre(bitmap, used) && b % BPB == 0 && b + bi < |used|
      ensures clear == !used[b + bi]
    {
      SameByte(b, bi);
      clear := bitmap[(b + bi) / 8] & Mask(bi % 8) == 0;
      assert clear == !Bit(bitmap, b + bi);
    }

    /** balloc takes the first clear bit of the bitmap and zeroes its block; it panics when there is none. */
    method Balloc() returns (ok: bool, r: nat)
      requires BitsAre(bitmap, used) && |used| == sb.size == |blocks|
      modifies `bitmap, `blocks, `used, `calls
      ensures !ok ==> (forall b :: 0 <= b < sb.size ==> old(used)[b]) && used == old(used) && blocks == old(blocks)
      ensures ok ==> r < sb.size && !old(used)[r] && forall b :: 0 <= b < r ==> old(used)[b]
      ensures ok ==> used == old(used)[r := true] && blocks == old(blocks)[r := ZeroBlock()]
      ensures ok ==> Logged() == old(Logged()) + {BBlock(sb, r), r}
      ensures !ok ==> Logged() == old(Logged())
      ensures BitsAre(bitmap, used)
    {
      hide ZeroBlock, BitsAre;
      var b := 0;
      while b < sb.size
        invariant b % BPB == 0 && bitmap == old(bitmap) && blocks == old(blocks) && used == old(used)
        invariant Logged() == old(Logged())
        invariant forall c :: 0 <= c < b && c < sb.size ==> used[c]
      {
        var bi := 0;
        while bi < BPB && b + bi < sb.size
          invariant 0 <= bi <= BPB && bitmap == old(bitmap) && blocks == old(blocks) && used == old(used)
          invariant Logged() == old(Logged())
          invariant forall c :: 0 <= c < b + bi && c < sb.size ==> used[c]
        {
          var clear := IsClear(b, bi);
          if clear {
            r := b + bi;
            Take(r);
            return true, r;
          }
          bi := bi + 1;
        }
        b := b + BPB;
      }
      return false, 0;
    }

    /** bfree clears the block's bit; it panics when the bit is clear already. */
    method Bfree(b: nat) returns (ok: bool)
      requires BitsAre(bitmap, used) && b < |used|
      modifies `bitmap, `used, `calls
      ensures ok == old(used)[b] && used == (if ok then old(used)[b := false] else old(used))
      ensures calls == old(calls) + if ok then [BBlock(sb, b)] else []
      ensures BitsAre(bitmap, used)
    {
      hide ClearBit;
      if bitmap[b / 8] & Mask(b % 8) == 0 {
        assert !Bit(bitmap, b);
        return false;
      }
      assert Bit(bitmap, b);
      forall c | 0 <= c < |used|
        ensures used[b := false][c] == Bit(ClearBit(bitmap, b), c)
      {
        ClearBitIs(bitmap, b, c);
      }
      bitmap, used := ClearBit(bitmap, b), used[b := false];
      LogWrite(BBlock(sb, b));
      ok := true;
    }

    /** A block for an empty address of an inode. */
    method Attach(ino: nat, i: nat, ghost r: Ref) returns (ok: bool, addr: nat)
      requires Sound() && ino < |inodes| && i <= NDIRECT && Empty(Snap(), r)
      requires r == if i < NDIRECT then Direct(ino, i) else Indirect(ino)
      modifies `bitmap, `blocks, `used, `calls, `inodes
      ensures !ok ==> Full(used) && Snap() == old(Snap())
      ensures ok ==> Sound() && FreeBlock(sb, old(Snap()), addr) && Snap() == Claim(sb, old(Snap()), r, addr)
      ensures ok ==> Logged() == old(Logged()) + {BBlock(sb, addr), addr} && forall c :: 0 <= c < addr ==> old(used)[c]
    {
      hide Marked, Single, NoLeak, Ptr, ZeroBlock, BitsAre;
      ghost var d := Snap();
      ok, addr := Balloc();
      if ok {
        FirstFreeIsData(sb, d, addr);
        ClaimKeepsOwned(sb, d, r, addr);
        inodes := inodes[ino := inodes[ino].(addrs := inodes[ino].addrs[i := addr])];
      }
    }

    /** A block for an empty word of an inode's indirect block. */
    method AttachEntry(ino: nat, j: nat, a: nat) returns (ok: bool, addr: nat)
      requires Sound() && ino < |inodes| && j < WORDS && a == Ptr(Snap(), Indirect(ino)) < sb.size
      requires Empty(Snap(), Entry(ino, j))
      modifies `bitmap, `blocks, `used, `calls
      ensures !ok ==> Full(used) && Snap() == old(Snap())
      ensures ok ==> Sound() && FreeBlock(sb, old(Snap()), addr) && Snap() == Claim(sb, old(Snap()), Entry(ino, j), addr)
      ensures ok ==> Logged() == old(Logged()) + {BBlock(sb, addr), addr, a} && forall c :: 0 <= c < addr ==> old(used)[c]
    {
      hide Single, NoLeak, ZeroBlock, BitsAre, SetWord, Word;
      ghost var d := Snap();
      ok, addr := Balloc();
      if ok {
        FirstFreeIsData(sb, d, addr);
        ClaimKeepsOwned(sb, d, Entry(ino, j), addr);
        assert a != addr;
        blocks := blocks[a := SetWord(blocks[a], j, addr)];
        LogWrite(a);
      }
    }

    /** bmap's path through the indirect block, which is added first where it is missing. */
    method MapEntry(ino: nat, bn: nat) returns (ok: bool, addr: nat)
      requires Sound() && ino < |inodes| && NDIRECT <= bn < MAXFILE
      modifies `bitmap, `blocks, `used, `calls, `inodes
      ensures Mapped(old(Snap()), ino, bn) ==> ok && Snap() == old(Snap())
      ensures !ok ==> Full(used) && |Frees(old(used))| < NeedsAt(old(Snap()), ino, bn)
      ensures ok ==> Sound() && addr == Ptr(Snap(), BlockRef(ino, bn)) < sb.size && MappedTo(old(Snap()), Snap(), ino, bn)
      ensures ok ==> Extends(old(Snap()), Snap(), ino, bn)
      ensures ok ==> Logged() == old(Logged()) + MapLog(sb, old(Snap()), Snap(), ino, bn)
    {
      hide Owned, ZeroBlock, BitsAre, Word, Claim, MappedTo, Ptr, Mapped, Empty, FreeBlock, Full, MapLog, Extends;
      hide Frees, NeedsAt;
      ghost var d := Snap();
      addr := 0;
      InodeIs(sb, d, ino);
      var a := inodes[ino].addrs[NDIRECT];
      ghost var adds := a == 0;
      if a == 0 {
        ok, a := Attach(ino, NDIRECT, Indirect(ino));
        if !ok {
          NoIndirect(d, ino, bn);
          NoneFree(d, ino, bn);
          return;
        }
        NewIndirect(sb, d, ino, bn, a);
      } else {
        LeavesAreSame(d, ino, bn);
      }
      ghost var e := Snap();
      EntryIs(sb, e, ino, bn);
      addr := Word(blocks[a], bn - NDIRECT);
      if addr != 0 {
        Found(sb, d, ino, bn);
        return true, addr;
      }
      ok, addr := AttachEntry(ino, bn - NDIRECT, a);
      if ok {
        MapAdds(sb, d, e, ino, bn, a, addr);
      } else {
        NoneFree(e, ino, bn);
        if adds {
          OneFree(d, ino, bn, a);
        }
      }
    }

    /** bmap finds the block at bn, adding it where it is missing; beyond the largest file it panics. */
    method Bmap(ino: nat, bn: nat) returns (ok: bool, addr: nat)
      requires Sound() && ino < |inodes|
      modifies `bitmap, `blocks, `used, `calls, `inodes
      ensures Mapped(old(Snap()), ino, bn) ==> ok && Snap() == old(Snap())
      ensures ok <==> bn < MAXFILE && NeedsAt(old(Snap()), ino, bn) <= |Frees(old(used))|
      ensures !ok ==> bn >= MAXFILE || Full(used)
      ensures ok ==> Sound() && addr == Ptr(Snap(), BlockRef(ino, bn)) < sb.size && MappedTo(old(Snap()), Snap(), ino, bn)
      ensures ok ==> Extends(old(Snap()), Snap(), ino, bn)
      ensures ok ==> bn < MAXFILE && Logged() == old(Logged()) + MapLog(sb, old(Snap()), Snap(), ino, bn)
    {
      hide Owned, ZeroBlock, BitsAre, Word, Claim, MappedTo, Ptr, Mapped, Empty, FreeBlock, Full, MapLog, Extends;
      hide Frees, NeedsAt;
      ghost var d := Snap();
      InodeIs(sb, d, ino);
      if bn < NDIRECT {
        DirectIs(sb, d, ino, bn);
        addr := inodes[ino].addrs[bn];
        if addr != 0 {
          Found(sb, d, ino, bn);
          BmapNeeds(sb, d, d, ino, bn);
          return true, addr;
        }
        ok, addr := Attach(ino, bn, Direct(ino, bn));
        if ok {
          LeavesAreSame(d, ino, bn);
          MapAdds(sb, d, d, ino, bn, 0, addr);
          BmapNeeds(sb, d, Snap(), ino, bn);
        } else {
          NoneFree(d, ino, bn);
        }
      } else if bn - NDIRECT < WORDS {
        ok, addr := MapEntry(ino, bn);
        if ok {
          BmapNeeds(sb, d, Snap(), ino, bn);
        }
      } else {
        BeyondMax(d, ino, bn);
        ok, addr := false, 0;
      }
    }

    /** One pass of writei's loop: bmap, memmove, log_write. */
    method WriteChunk(ino: nat, off: nat, x: seq<Byte>) returns (ok: bool, ghost a: nat)
      requires Sound() && ino < |inodes| && off % BSIZE + |x| <= BSIZE
      modifies `bitmap, `blocks, `used, `calls, `inodes
      ensures !ok ==> off / BSIZE >= MAXFILE || (Full(used) && |Frees(old(used))| < NeedsAt(old(Snap()), ino, off / BSIZE))
      ensures ok ==> Sound() && SameSizes(old(Snap()), Snap()) && Extends(old(Snap()), Snap(), ino, off / BSIZE)
      ensures ok ==> OnlyLeaf(old(Snap()), Snap(), ino, off / BSIZE, Written(old(Snap()), ino, off, x))
      ensures ok && Mapped(old(Snap()), ino, off / BSIZE) ==> inodes == old(inodes)
      ensures ok ==> a == At(Snap(), ino, off / BSIZE)
      ensures ok ==> Logged() == old(Logged()) + MapLog(sb, old(Snap()), Snap(), ino, off / BSIZE) + {a}
    {
      hide Owned, ZeroBlock, BitsAre, MappedTo, Ptr, Mapped, Leaf, OnlyLeaf, SameSizes, MapLog, Patch, Written;
      hide Extends, Full, Frees, NeedsAt;
      var bn := off / BSIZE;
      ghost var d := Snap();
      var addr;
      ok, addr := Bmap(ino, bn);
      a := addr;
      if ok {
        ghost var e := Snap();
        SizesOf(sb, e);
        var c := Patch(blocks[addr], off % BSIZE, x);
        Patched(sb, d, e, ino, off, x, c);
        FillExtends(sb, d, e, ino, bn, c);
        blocks := blocks[addr := c];
        LogWrite(addr);
      }
    }

    /** iupdate copies the inode to disk, through the log. */
    method Iupdate(ino: nat)
      requires ino < |inodes| == |dinodes|
      modifies `dinodes, `calls
      ensures dinodes == old(dinodes)[ino := inodes[ino]] && calls == old(calls) + [IBlock(sb, ino)]
      ensures Logged() == old(Logged()) + {IBlock(sb, ino)}
    {
      dinodes := dinodes[ino := inodes[ino]];
      LogWrite(IBlock(sb, ino));
    }

    /** readi returns the bytes of the file from off, cut off at its end, and changes nothing. */
    method Readi(ino: nat, off: nat, n: nat) returns (r: int, dst: seq<Byte>)
      requires Valid() && ino < |inodes| && off < TWO_32 && n < TWO_32
      modifies `bitmap, `blocks, `used, `calls, `inodes
      ensures Valid() && Snap() == old(Snap()) && Logged() == old(Logged())
      ensures r == -1 <==> off > inodes[ino].size || off + n >= TWO_32
      ensures r == -1 ==> dst == []
      ensures r != -1 ==> r == |dst| && dst == Contents(Snap(), ino)[off..if off + n <= inodes[ino].size then off + n else inodes[ino].size]
    {
      hide Owned, BitsAre, Ptr, Mapped, NoHoles, Leaf, ByteAt, Contents;
      var size := inodes[ino].size;
      if off > size || (off + n) % TWO_32 < off {
        return -1, [];
      }
      var left := if off + n > size then size - off else n;
      ghost var d := Snap();
      dst := [];
      while |dst| < left
        invariant Sound() && Snap() == d && Logged() == old(Logged()) && |dst| <= left
        invariant forall i :: 0 <= i < |dst| ==> dst[i] == ByteAt(d, ino, off + i)
      {
        var at := off + |dst|;
        assert Mapped(d, ino, at / BSIZE) by { InFile(d, ino, at); }
        var _, a := Bmap(ino, at / BSIZE);
        SizesOf(sb, d);
        var m := Chunk(at, left - |dst|);
        var x := blocks[a].bytes[at % BSIZE..at % BSIZE + m];
        ReadChunk(d, ino, at, x);
        Extend(d, ino, off, dst, x);
        dst := dst + x;
      }
      r := left;
    }

    /** writei's loop. */
    method WriteBlocks(ino: nat, src: seq<Byte>, off: nat) returns (ok: bool)
      requires Sound() && ino < |inodes| && off <= inodes[ino].size && off + |src| <= MAXFILE * BSIZE
      modifies `bitmap, `blocks, `used, `calls, `inodes
      ensures !ok ==> Full(used) && |Frees(old(used))| < Needed(old(Snap()), ino, FirstBlock(off), EndBlock(off, |src|))
      ensures ok ==> Sound() && Kept(old(Snap()), Snap(), ino)
      ensures ok && NoHoles(old(Snap())) ==> Wrote(old(Snap()), Snap(), ino, old(inodes)[ino].size, off, src, |src|)
      ensures ok && NoHoles(old(Snap())) && off + |src| <= old(inodes)[ino].size ==> inodes == old(inodes)
      ensures ok ==> Covers(old(Snap()), Snap(), ino, FirstBlock(off), EndBlock(off, |src|))
      ensures ok ==> Logged() == old(Logged()) + Logs(sb, Foot(old(Snap()), Snap(), ino, FirstBlock(off), EndBlock(off, |src|)))
    {
      hide Owned, BitsAre, Ptr, Mapped, NoHoles, Leaf, ByteAt, Wrote, OnlyLeaf, Written, MapLog, Extends, Covers, Foot;
      hide Logs, Full, SameSizes, EndBlock, FirstBlock, Frees, Needed, NeedsAt, Kept, Elems;
      var size, n := inodes[ino].size, |src|;
      ghost var d := Snap();
      ghost var lo := FirstBlock(off);
      WriteStarts(sb, d, ino, off, src);
      var tot := 0;
      while tot < n
        invariant tot <= n && Sound() && Kept(d, Snap(), ino) && |inodes| == |d.inodes|
        invariant NoHoles(d) ==> Wrote(d, Snap(), ino, size, off, src, tot)
        invariant NoHoles(d) && off + tot <= size ==> inodes == old(inodes)
        invariant Covers(d, Snap(), ino, lo, EndBlock(off, tot))
        invariant Logged() == old(Logged()) + Logs(sb, Foot(d, Snap(), ino, lo, EndBlock(off, tot)))
        invariant 0 < tot < n ==> (off + tot) % BSIZE == 0
      {
        ghost var t := Snap();
        var m := Chunk(off + tot, n - tot);
        EndStep(off, tot, m, n);
        ghost var a;
        ok, a := WriteChunk(ino, off + tot, src[tot..tot + m]);
        if !ok {
          assert (off + tot) / BSIZE < MAXFILE;
          TooFew(sb, d, t, ino, lo, (off + tot) / BSIZE, EndBlock(off, n));
          return;
        }
        PassDone(sb, d, t, Snap(), ino, size, off, src, tot, m);
        SizeIsKept(d, Snap(), ino);
        tot := tot + m;
      }
      ok := true;
    }

    /**
      writei puts src into the file at off, extending it where it passes the end; it refuses a write that
      starts past the end, wraps, or would exceed the largest file. It panics if and only if the disk has
      fewer free blocks than the write needs. What it logs is stated exactly, with the inode last. A disk
      with holes is written too; without them the file is as it should be.
     */
    method Writei(ino: nat, src: seq<Byte>, off: nat) returns (ok: bool, r: int)
      requires Sound() && dinodes == inodes && ino < |inodes| && off < TWO_32 && |src| < TWO_32
      modifies this
      ensures !ok ==> Full(used) && !Refused(old(inodes)[ino].size, off, |src|)
      ensures ok ==> Sound() && r == if Refused(old(inodes)[ino].size, off, |src|) then -1 else |src|
      ensures ok ==> (r == -1 <==> off > old(inodes)[ino].size || off + |src| >= TWO_32 || off + |src| > MAXFILE * BSIZE)
      ensures ok && r < 0 ==> Snap() == old(Snap()) && calls == old(calls) && dinodes == old(dinodes)
      ensures ok && r >= 0 && NoHoles(old(Snap())) ==> Valid() && FileWritten(old(Snap()), Snap(), ino, off, src)
      ensures ok && r >= 0 ==> Covers(old(Snap()), Snap(), ino, FirstBlock(off), EndBlock(off, |src|))
      ensures ok && r >= 0 ==> InodeLast(sb, old(Logged()), calls, old(Snap()), Snap(), ino, off, |src|)
      ensures ok && r >= 0 ==> dinodes == if Grows(old(inodes)[ino].size, off, |src|) then inodes else old(dinodes)
      ensures ok && r >= 0 && NoHoles(old(Snap())) ==>
        OnlyInode(old(inodes), inodes, ino, Grows(old(inodes)[ino].size, off, |src|))
      ensures !Refused(old(inodes)[ino].size, off, |src|) ==>
        (ok <==> Needed(old(Snap()), ino, FirstBlock(off), EndBlock(off, |src|)) <= |Frees(old(used))|)
    {
      hide Owned, BitsAre, NoHoles, Wrote, Covers, Foot, Logs, Full, FileWritten, EndBlock, FirstBlock, Frees, Needed;
      hide OnlyInode, Kept, Elems;
      var size, n := inodes[ino].size, |src|;
      if off > size || (off + n) % TWO_32 < off {
        return true, -1;
      }
      if off + n > MAXFILE * BSIZE {
        return true, -1;
      }
      ghost var d := Snap();
      ok := WriteBlocks(ino, src, off);
      if !ok {
        return false, -1;
      }
      ghost var t := Snap();
      TakesWhatItNeeds(sb, d, t, ino, FirstBlock(off), EndBlock(off, n));
      WriteEnds(sb, d, t, ino, off, src);
      SizeIsKept(d, t, ino);
      if n > 0 && off + n > size {
        inodes := inodes[ino := inodes[ino].(size := off + n)];
        ResizeCovers(sb, d, t, ino, off + n, FirstBlock(off), EndBlock(off, n));
        Iupdate(ino);
        OneInode(d, t, ino, off + n);
      } else {
        SameSize(t, ino);
      }
      r := n;
    }

    /** Free the block at a place, whose bit is set. */
    method FreePlace(b: nat, ghost d: Disk, ghost done: set<Ref>, ghost r: Ref)
      requires BitsAre(bitmap, used) && Owned(sb, d) && Cleared(d.used, used, Held(d, done)) && r !in done
      requires b == Ptr(d, r) != 0
      modifies `bitmap, `used, `calls
      ensures BitsAre(bitmap, used) && Cleared(d.used, used, Held(d, done + {r}))
      ensures calls == old(calls) + [BBlock(sb, b)]
    {
      hide Owned, BitsAre, Cleared, Held, Ptr;
      NextHeld(sb, d, used, done, r);
      var ok := Bfree(b);
      assert ok;
    }

    /** itrunc's loop over the words of the indirect block, and then that block itself. */
    method FreeIndirect(ino: nat, a: nat, ghost d: Disk, ghost base: seq<nat>)
      requires BitsAre(bitmap, used) && Owned(sb, d) && ino < |d.inodes| && blocks == d.blocks
      requires a == Ptr(d, Indirect(ino)) != 0
      requires Cleared(d.used, used, Held(d, Directs(ino, NDIRECT))) && calls == base + FreeCalls(sb, d, ino, NDIRECT)
      modifies `bitmap, `used, `calls
      ensures BitsAre(bitmap, used) && Cleared(d.used, used, Held(d, Places(ino)))
      ensures calls == base + FreeCalls(sb, d, ino, MAXFILE + 1)
    {
      hide Owned, BitsAre, Cleared, Held, Ptr, Directs, Entries, Word, BBlock;
      InodeIs(sb, d, ino);
      NoEntries(ino);
      var j := 0;
      while j < WORDS
        invariant 0 <= j <= WORDS && BitsAre(bitmap, used)
        invariant Cleared(d.used, used, Held(d, Directs(ino, NDIRECT) + Entries(ino, j)))
        invariant calls == base + FreeCalls(sb, d, ino, NDIRECT + j)
      {
        ghost var done := Directs(ino, NDIRECT) + Entries(ino, j);
        OneMoreEntry(ino, j);
        HeldAdd(d, done, Entry(ino, j));
        EntryIs(sb, d, ino, NDIRECT + j);
        assert PlaceAt(ino, NDIRECT + j) == Entry(ino, j);
        var w := Word(blocks[a], j);
        if w != 0 {
          FreePlace(w, d, done, Entry(ino, j));
        }
        j := j + 1;
      }
      LastPlace(ino);
      HeldAdd(d, Directs(ino, NDIRECT) + Entries(ino, WORDS), Indirect(ino));
      FreePlace(a, d, Directs(ino, NDIRECT) + Entries(ino, WORDS), Indirect(ino));
      assert PlaceAt(ino, MAXFILE) == Indirect(ino);
    }

    /** itrunc's loop over the direct addresses. */
    method FreeDirects(ino: nat)
      requires Sound() && ino < |inodes|
      modifies `bitmap, `used, `calls, `inodes
      ensures BitsAre(bitmap, used) && Cleared(old(used), used, Held(old(Snap()), Directs(ino, NDIRECT)))
      ensures |inodes| == |old(inodes)| && forall k :: 0 <= k < |inodes| && k != ino ==> inodes[k] == old(inodes)[k]
      ensures |inodes[ino].addrs| == NDIRECT + 1 == |old(inodes)[ino].addrs|
      ensures inodes[ino].addrs[NDIRECT] == old(inodes)[ino].addrs[NDIRECT]
      ensures forall k :: 0 <= k < NDIRECT ==> inodes[ino].addrs[k] == 0
      ensures calls == old(calls) + FreeCalls(sb, old(Snap()), ino, NDIRECT)
    {
      hide Owned, BitsAre, Cleared, Held, Ptr, Directs, BBlock, BBlocks, Mapped, Empty, Elems;
      ghost var d := Snap();
      InodeIs(sb, d, ino);
      NothingHeld(d, ino);
      var i := 0;
      while i < NDIRECT
        invariant 0 <= i <= NDIRECT && |inodes| == |d.inodes|
        invariant forall k :: 0 <= k < |inodes| && k != ino ==> inodes[k] == d.inodes[k]
        invariant |inodes[ino].addrs| == NDIRECT + 1 && forall k :: 0 <= k < i ==> inodes[ino].addrs[k] == 0
        invariant forall k :: i <= k <= NDIRECT ==> inodes[ino].addrs[k] == d.inodes[ino].addrs[k]
        invariant BitsAre(bitmap, used) && Cleared(d.used, used, Held(d, Directs(ino, i)))
        invariant calls == old(calls) + FreeCalls(sb, d, ino, i)
      {
        OneMoreDirect(ino, i);
        HeldAdd(d, Directs(ino, i), Direct(ino, i));
        DirectIs(sb, d, ino, i);
        if inodes[ino].addrs[i] != 0 {
          FreePlace(inodes[ino].addrs[i], d, Directs(ino, i), Direct(ino, i));
          inodes := inodes[ino := inodes[ino].(addrs := inodes[ino].addrs[i := 0])];
        }
        i := i + 1;
      }
    }

    /** itrunc frees the file's blocks, each of them once and nothing else: bfree never panics in it. */
    method Itrunc(ino: nat)
      requires Valid() && ino < |inodes|
      modifies this
      ensures Valid() && Truncated(old(Snap()), Snap(), ino)
      ensures calls == old(calls) + FreeCalls(sb, old(Snap()), ino, MAXFILE + 1) + [IBlock(sb, ino)]
    {
      hide Owned, BitsAre, Cleared, Held, Ptr, Places, Directs, NoHoles, BBlock, Truncated, Empty, FreeCalls;
      ghost var d := Snap();
      InodeIs(sb, d, ino);
      FreeDirects(ino);
      var a := inodes[ino].addrs[NDIRECT];
      if a != 0 {
        FreeIndirect(ino, a, d, old(calls));
        inodes := inodes[ino := inodes[ino].(addrs := inodes[ino].addrs[NDIRECT := 0])];
      } else {
        OnlyDirects(d, ino);
        OnlyDirectCalls(sb, d, ino, MAXFILE + 1);
      }
      inodes := inodes[ino := inodes[ino].(size := 0)];
      Iupdate(ino);
      NowTruncated(d, Snap(), ino);
      TruncKeepsOwned(sb, d, Snap(), ino);
      TruncFiles(sb, d, Snap(), ino);
    }

    /**
      iput. `frees` says that the inode in memory is valid, has no links, and that this is the last
      reference to it: then it is truncated, and its inode is written once more with its type cleared.
     */
    method Iput(ino: nat, frees: bool)
      requires Valid() && ino < |inodes|
      modifies this
      ensures Valid()
      ensures if frees then Truncated(old(Snap()), Snap(), ino) else Snap() == old(Snap())
      ensures calls == old(calls) + if frees then PutCalls(sb, old(Snap()), ino) else []
    {
      hide Owned, BitsAre, NoHoles, Cleared, Held, FreeCalls;
      if frees {
        Itrunc(ino);
        Iupdate(ino);
      }
    }
  }

  /** The calls of log_write of an iput that frees its inode. */
  ghost function PutCalls(sb: Super, d: Disk, ino: nat): seq<nat> {
    FreeCalls(sb, d, ino, MAXFILE + 1) + [IBlock(sb, ino)] + [IBlock(sb, ino)]
  }

  predicate Refused(size: nat, off: nat, n: nat) {
    off > size || off + n >= TWO_32 || off + n > MAXFILE * BSIZE
  }

  /** Between the passes: sizes, other inodes and a present indirect block are as they were. */
  ghost predicate Kept(d: Disk, t: Disk, ino: nat) {
    SameSizes(d, t) && |t.inodes| == |d.inodes| && forall i :: 0 <= i < |d.inodes| && i != ino ==> t.inodes[i] == d.inodes[i]
  }

  lemma {:induction false} InFile(d: Disk, ino: nat, k: nat)
    requires NoHoles(d) && ino < |d.inodes| && k < d.inodes[ino].size
    ensures Mapped(d, ino, k / BSIZE)
  {
    hide Mapped;
    BelowEnd(k, d.inodes[ino].size);
  }

  lemma {:induction false} Extend(d: Disk, ino: nat, off: nat, dst: seq<Byte>, x: seq<Byte>)
    requires forall i :: 0 <= i < |dst| ==> dst[i] == ByteAt(d, ino, off + i)
    requires forall i :: 0 <= i < |x| ==> x[i] == ByteAt(d, ino, off + |dst| + i)
    ensures forall i :: 0 <= i < |dst + x| ==> (dst + x)[i] == ByteAt(d, ino, off + i)
  {
    hide ByteAt;
    forall i | 0 <= i < |dst + x|
      ensures (dst + x)[i] == ByteAt(d, ino, off + i)
    {
      if i >= |dst| {
        assert x[i - |dst|] == ByteAt(d, ino, off + |dst| + (i - |dst|));
      }
    }
  }

  lemma {:induction false} ReadChunk(d: Disk, ino: nat, at: nat, x: seq<Byte>)
    requires at % BSIZE + |x| <= BSIZE && Ptr(d, BlockRef(ino, at / BSIZE)) < |d.blocks|
    requires x == d.blocks[Ptr(d, BlockRef(ino, at / BSIZE))].bytes[at % BSIZE..at % BSIZE + |x|]
    ensures forall i :: 0 <= i < |x| ==> x[i] == ByteAt(d, ino, at + i)
  {
    hide Ptr;
    forall i | 0 <= i < |x|
      ensures x[i] == ByteAt(d, ino, at + i)
    {
      ChunkInBlock(at, |x|, at + i);
    }
  }

  lemma {:induction false} SizesOf(sb: Super, d: Disk)
    requires Owned(sb, d)
    ensures |d.used| == |d.blocks| == sb.size
  {
  }

  /** Finding the block and then patching it is one change to the file. */
  lemma {:induction false} Patched(sb: Super, d: Disk, e: Disk, ino: nat, off: nat, x: seq<Byte>, c: Block)
    requires Owned(sb, e) && off % BSIZE + |x| <= BSIZE && MappedTo(d, e, ino, off / BSIZE)
    requires Ptr(e, BlockRef(ino, off / BSIZE)) < |e.blocks|
    requires c == Patch(e.blocks[Ptr(e, BlockRef(ino, off / BSIZE))], off % BSIZE, x)
    ensures var a := Ptr(e, BlockRef(ino, off / BSIZE));
      var t := Fill(e, a, c);
      && Mapped(e, ino, off / BSIZE)
      && Owned(sb, t) && SameSizes(d, t) && OnlyLeaf(d, t, ino, off / BSIZE, Written(d, ino, off, x))
      && Ptr(t, BlockRef(ino, off / BSIZE)) == a && Ptr(t, Indirect(ino)) == Ptr(e, Indirect(ino))
      && MapLog(sb, d, t, ino, off / BSIZE) == MapLog(sb, d, e, ino, off / BSIZE)
  {
    hide Owned, Ptr, ZeroBlock, Patch, Mapped;
    var bn := off / BSIZE;
    assert Mapped(e, ino, bn);
    FillKeepsOwned(sb, e, ino, bn, c);
    FillLeaf(sb, e, ino, bn, c);
    FillPtr(sb, e, ino, bn, c, BlockRef(ino, bn));
    FillPtr(sb, e, ino, bn, c, Indirect(ino));
  }

  /** From d to t the block at bn was found or added, and nothing else changed. */
  ghost predicate MappedTo(d: Disk, t: Disk, ino: nat, bn: nat) {
    && SameSizes(d, t) && Mapped(t, ino, bn)
    && (Mapped(d, ino, bn) ==> t == d)
    && (!Mapped(d, ino, bn) ==> OnlyLeaf(d, t, ino, bn, ZeroBlock()))
  }

  ghost predicate Full(used: seq<bool>) {
    forall b :: 0 <= b < |used| ==> used[b]
  }

  lemma {:induction false} InodeIs(sb: Super, d: Disk, ino: nat)
    requires Owned(sb, d) && ino < |d.inodes|
    ensures |d.inodes[ino].addrs| == NDIRECT + 1 && |d.blocks| == sb.size
    ensures d.inodes[ino].addrs[NDIRECT] == Ptr(d, Indirect(ino)) < sb.size
    ensures Ptr(d, Indirect(ino)) == 0 ==> Empty(d, Indirect(ino))
  {
    hide Single, NoLeak;
    assert Ptr(d, Indirect(ino)) == d.inodes[ino].addrs[NDIRECT];
  }

  lemma {:induction false} DirectIs(sb: Super, d: Disk, ino: nat, bn: nat)
    requires Owned(sb, d) && ino < |d.inodes| && bn < NDIRECT
    ensures |d.inodes[ino].addrs| == NDIRECT + 1
    ensures d.inodes[ino].addrs[bn] == Ptr(d, BlockRef(ino, bn))
    ensures Mapped(d, ino, bn) == (d.inodes[ino].addrs[bn] != 0)
    ensures !Mapped(d, ino, bn) ==> Empty(d, BlockRef(ino, bn))
  {
    hide Marked, Single, NoLeak;
  }

  lemma {:induction false} EntryIs(sb: Super, d: Disk, ino: nat, bn: nat)
    requires Owned(sb, d) && ino < |d.inodes| && NDIRECT <= bn < MAXFILE && Ptr(d, Indirect(ino)) != 0
    ensures var a := Ptr(d, Indirect(ino));
      && a < sb.size == |d.blocks| && Word(d.blocks[a], bn - NDIRECT) == Ptr(d, BlockRef(ino, bn))
      && Mapped(d, ino, bn) == (Word(d.blocks[a], bn - NDIRECT) != 0)
      && (!Mapped(d, ino, bn) ==> Empty(d, BlockRef(ino, bn)))
  {
    hide Single, NoLeak, Word;
    assert Ptr(d, Indirect(ino)) < sb.size;
  }

  lemma {:induction false} NoIndirect(d: Disk, ino: nat, bn: nat)
    requires NDIRECT <= bn && Ptr(d, Indirect(ino)) == 0
    ensures !Mapped(d, ino, bn)
  {
  }

  lemma {:induction false} BeyondMax(d: Disk, ino: nat, bn: nat)
    requires bn >= MAXFILE
    ensures !Mapped(d, ino, bn)
  {
  }

  lemma {:induction false} Found(sb: Super, d: Disk, ino: nat, bn: nat)
    requires Owned(sb, d) && Mapped(d, ino, bn)
    ensures MappedTo(d, d, ino, bn) && Extends(d, d, ino, bn) && MapLog(sb, d, d, ino, bn) == {} &&
      Ptr(d, BlockRef(ino, bn)) < sb.size
  {
    hide Ptr, Single, NoLeak, Extends;
    ExtendsSelf(d, ino, bn);
  }

  /** The new indirect block is empty: the block at bn is still missing. */
  lemma {:induction false} NewIndirect(sb: Super, d: Disk, ino: nat, bn: nat, a: nat)
    requires Owned(sb, d) && Empty(d, Indirect(ino)) && FreeBlock(sb, d, a) && NDIRECT <= bn
    requires forall c :: 0 <= c < a ==> d.used[c]
    ensures var e := Claim(sb, d, Indirect(ino), a);
      && !Mapped(d, ino, bn) && !Mapped(e, ino, bn) && SameLeaves(d, e) && SameSizes(d, e)
      && Ptr(e, Indirect(ino)) == a != 0 && |e.inodes| == |d.inodes| && Extends(d, e, ino, bn)
      && a < |d.used| && e.used == d.used[a := true]
  {
    hide Ptr, Mapped, Claim, Owned, Extends;
    NoIndirect(d, ino, bn);
    ClaimIndirect(sb, d, ino, a);
    ClaimPtr(sb, d, Indirect(ino), a, Indirect(ino));
    ClaimSize(sb, d, Indirect(ino), a);
    DataIsNotZero(sb, d);
    ExtendsSelf(d, ino, bn);
    ClaimExtends(sb, d, d, ino, bn, Indirect(ino), a);
  }

  lemma {:induction false} DataIsNotZero(sb: Super, d: Disk)
    requires Owned(sb, d)
    ensures sb.data > 0
  {
  }

  /** The claimed block is at bn, whether or not the indirect block was there before. */
  lemma {:induction false} MapAdds(sb: Super, d: Disk, e: Disk, ino: nat, bn: nat, a: nat, b: nat)
    requires Owned(sb, e) && Empty(e, BlockRef(ino, bn)) && FreeBlock(sb, e, b) && !Mapped(d, ino, bn)
    requires (forall c :: 0 <= c < b ==> e.used[c]) && SameLeaves(d, e) && SameSizes(d, e)
    requires Extends(d, e, ino, bn) && (bn >= NDIRECT ==> Ptr(e, Indirect(ino)) == a)
    ensures var t := Claim(sb, e, BlockRef(ino, bn), b);
      && MappedTo(d, t, ino, bn) && Ptr(t, BlockRef(ino, bn)) == b < sb.size && Extends(d, t, ino, bn)
      && MapLog(sb, d, t, ino, bn) == {BBlock(sb, b), b} +
           (if bn < NDIRECT then {} else {a} + if Ptr(d, Indirect(ino)) == 0 then {BBlock(sb, a)} else {})
  {
    hide Ptr, Claim, Owned, Leaf, Settable, ZeroBlock, Extends;
    var t := Claim(sb, e, BlockRef(ino, bn), b);
    ClaimLeaf(sb, e, ino, bn, b);
    ClaimPtr(sb, e, BlockRef(ino, bn), b, BlockRef(ino, bn));
    ClaimPtr(sb, e, BlockRef(ino, bn), b, Indirect(ino));
    ClaimSize(sb, e, BlockRef(ino, bn), b);
    ClaimExtends(sb, d, e, ino, bn, BlockRef(ino, bn), b);
    assert Mapped(e, ino, bn) == Mapped(d, ino, bn);
  }

  lemma {:induction false} LeavesAreSame(d: Disk, ino: nat, bn: nat)
    ensures SameLeaves(d, d) && SameSizes(d, d) && Extends(d, d, ino, bn)
  {
    hide Extends;
    ExtendsSelf(d, ino, bn);
  }

  /** An index that was mapped or could be: there were blocks enough for it. */
  lemma {:induction false} BmapNeeds(sb: Super, d: Disk, t: Disk, ino: nat, bn: nat)
    requires Owned(sb, d) && Owned(sb, t) && Extends(d, t, ino, bn) && MappedTo(d, t, ino, bn)
    ensures NeedsAt(d, ino, bn) <= |Frees(d.used)|
  {
    hide Owned, Ptr, Covers, Extends, Frees, Missing, NeedsIndirect, Mapped, OnlyLeaf, SameSizes;
    CoversNothing(d, ino, bn);
    CoversOneMore(d, d, t, ino, bn, bn);
    TakesWhatItNeeds(sb, d, t, ino, bn, bn + 1);
    NoneMissing(d, ino, bn);
    MissingStep(d, ino, bn, bn);
    NeedsMore(d, ino, bn, bn);
  }

  lemma {:induction false} NoneFree(d: Disk, ino: nat, bn: nat)
    requires Full(d.used) && !Mapped(d, ino, bn)
    ensures |Frees(d.used)| < NeedsAt(d, ino, bn)
  {
    hide Mapped, Ptr;
    assert Frees(d.used) == {};
  }

  /** The indirect block was the last one free. */
  lemma {:induction false} OneFree(d: Disk, ino: nat, bn: nat, a: nat)
    requires a < |d.used| && Full(d.used[a := true]) && !Mapped(d, ino, bn) && bn >= NDIRECT && Ptr(d, Indirect(ino)) == 0
    ensures |Frees(d.used)| < NeedsAt(d, ino, bn)
  {
    hide Mapped, Ptr;
    forall b | b in Frees(d.used)
      ensures b == a
    {
      assert d.used[a := true][b];
    }
    CardIn(Frees(d.used), {a});
  }

  lemma {:induction false} FirstFreeIsData(sb: Super, d: Disk, b: nat)
    requires Owned(sb, d) && b < sb.size && !d.used[b]
    ensures FreeBlock(sb, d, b)
  {
  }

  lemma {:induction false} SameByte(b: nat, bi: nat)
    requires b % BPB == 0
    ensures (b + bi) % 8 == bi % 8
  {
    assert b == BPB * (b / BPB);
  }

  // ---------- writei's loop ----------

  lemma {:induction false} WriteStarts(sb: Super, d: Disk, ino: nat, off: nat, src: seq<Byte>)
    requires ino < |d.inodes| && off <= d.inodes[ino].size
    ensures NoHoles(d) ==> Wrote(d, d, ino, d.inodes[ino].size, off, src, 0)
    ensures Kept(d, d, ino) && EndBlock(off, 0) == FirstBlock(off) && Covers(d, d, ino, FirstBlock(off), FirstBlock(off))
    ensures Logs(sb, Foot(d, d, ino, FirstBlock(off), FirstBlock(off))) == {}
  {
    hide Mapped, Wrote, Covers, Logs, Foot;
    if NoHoles(d) {
      WroteStart(d, ino, d.inodes[ino].size, off, src);
    }
    CoversNothing(d, ino, FirstBlock(off));
    NoFoot(sb, d, ino, FirstBlock(off));
  }

  /** A pass writes the next block. */
  lemma {:induction false} EndStep(off: nat, tot: nat, m: nat, n: nat)
    requires 0 < m && tot + m <= n && (off + tot) % BSIZE + m <= BSIZE && (tot > 0 ==> (off + tot) % BSIZE == 0)
    ensures EndBlock(off, tot) == (off + tot) / BSIZE < EndBlock(off, n)
    ensures EndBlock(off, tot + m) == (off + tot) / BSIZE + 1
  {
  }

  /** One pass of the loop. */
  lemma {:induction false} PassDone(sb: Super, d: Disk, t: Disk, u: Disk, ino: nat, size: nat, off: nat,
      src: seq<Byte>, tot: nat, m: nat)
    requires tot + m <= |src| && 0 < m && off <= size && (off + tot) % BSIZE + m <= BSIZE
    requires EndBlock(off, tot) == (off + tot) / BSIZE && EndBlock(off, tot + m) == (off + tot) / BSIZE + 1
    requires FirstBlock(off) <= EndBlock(off, tot)
    requires Kept(d, t, ino) && SameSizes(t, u) && Extends(t, u, ino, (off + tot) / BSIZE)
    requires NoHoles(d) ==> Wrote(d, t, ino, size, off, src, tot)
    requires Covers(d, t, ino, FirstBlock(off), EndBlock(off, tot))
    requires OnlyLeaf(t, u, ino, (off + tot) / BSIZE, Written(t, ino, off + tot, src[tot..tot + m]))
    ensures Kept(d, u, ino) && Covers(d, u, ino, FirstBlock(off), EndBlock(off, tot + m))
    ensures NoHoles(d) ==> Wrote(d, u, ino, size, off, src, tot + m)
    ensures NoHoles(d) && off + tot + m <= size ==> Mapped(t, ino, (off + tot) / BSIZE)
    ensures Logs(sb, Foot(d, u, ino, FirstBlock(off), EndBlock(off, tot + m))) ==
      Logs(sb, Foot(d, t, ino, FirstBlock(off), EndBlock(off, tot))) + MapLog(sb, t, u, ino, (off + tot) / BSIZE) +
      {At(u, ino, (off + tot) / BSIZE)}
  {
    hide Mapped, Wrote, Covers, Logs, Foot, NoHoles, Written, Leaf, FirstBlock, EndBlock, MapLog, At, OnlyLeaf, Extends;
    var bn := (off + tot) / BSIZE;
    if NoHoles(d) {
      ChunkDone(d, t, u, ino, size, off, src, tot, m);
    }
    assert Mapped(u, ino, bn) by { MapsLeaf(t, u, ino, bn, Written(t, ino, off + tot, src[tot..tot + m])); }
    CoversOneMore(d, t, u, ino, FirstBlock(off), bn);
    FootStep(sb, d, t, u, ino, FirstBlock(off), bn);
    ExtendsKeeps(d, t, u, ino, bn);
  }

  lemma {:induction false} MapsLeaf(t: Disk, u: Disk, ino: nat, bn: nat, c: Block)
    requires OnlyLeaf(t, u, ino, bn, c)
    ensures Mapped(u, ino, bn)
  {
    hide Mapped, Leaf;
  }

  lemma {:induction false} ExtendsKeeps(d: Disk, t: Disk, u: Disk, ino: nat, bn: nat)
    requires Kept(d, t, ino) && SameSizes(t, u) && Extends(t, u, ino, bn)
    ensures Kept(d, u, ino)
  {
    hide Mapped, Ptr;
  }

  lemma {:induction false} ChunkDone(d: Disk, t: Disk, u: Disk, ino: nat, size: nat, off: nat, src: seq<Byte>,
      tot: nat, m: nat)
    requires tot + m <= |src| && 0 < m && off <= size && (off + tot) % BSIZE + m <= BSIZE
    requires Wrote(d, t, ino, size, off, src, tot)
    requires OnlyLeaf(t, u, ino, (off + tot) / BSIZE, Written(t, ino, off + tot, src[tot..tot + m]))
    ensures Wrote(d, u, ino, size, off, src, tot + m)
    ensures off + tot + m <= size ==> Mapped(t, ino, (off + tot) / BSIZE)
  {
    hide Mapped, Leaf, ByteAt, Written, Ptr;
    WroteStep(d, t, u, ino, size, off, src, tot, m);
    BelowEnd(off + tot, size);
  }

  /** The new size leaves the addresses and the bitmap alone. */
  lemma {:induction false} ResizeCovers(sb: Super, d: Disk, t: Disk, ino: nat, size: nat, lo: nat, hi: nat)
    requires ino < |t.inodes| && Covers(d, t, ino, lo, hi)
    ensures var u := Resize(t, ino, size); Covers(d, u, ino, lo, hi) && Foot(d, u, ino, lo, hi) == Foot(d, t, ino, lo, hi)
  {
    hide Ptr, Filled, InRange, NeedsIndirect;
    var u := Resize(t, ino, size);
    forall q: Ref
      ensures Ptr(u, q) == Ptr(t, q)
    {
      ResizePtr(t, ino, size, q);
    }
    forall bn: nat
      ensures At(u, ino, bn) == At(t, ino, bn) && Mapped(u, ino, bn) == Mapped(t, ino, bn)
    {
    }
    hide At, Mapped;
    assert Data(u, ino, lo, hi) == Data(t, ino, lo, hi);
    assert Added(d, u, ino, lo, hi) == Added(d, t, ino, lo, hi);
  }

  lemma {:induction false} WriteEnds(sb: Super, d: Disk, t: Disk, ino: nat, off: nat, src: seq<Byte>)
    requires Owned(sb, t) && ino < |d.inodes| && Kept(d, t, ino)
    requires off <= d.inodes[ino].size && off + |src| <= MAXFILE * BSIZE
    requires NoHoles(d) ==> Wrote(d, t, ino, d.inodes[ino].size, off, src, |src|)
    ensures var u := Resize(t, ino, Max(d.inodes[ino].size, off + |src|));
      Owned(sb, u) && (NoHoles(d) ==> NoHoles(u) && FileWritten(d, u, ino, off, src))
  {
    hide Owned, NoHoles, FileWritten, Wrote;
    var size := Max(d.inodes[ino].size, off + |src|);
    ResizeKeepsOwned(sb, t, ino, size);
    if NoHoles(d) {
      WroteAll(d, t, Resize(t, ino, size), ino, off, src);
    }
  }

  lemma {:induction false} SizeIsKept(d: Disk, t: Disk, ino: nat)
    requires Kept(d, t, ino) && ino < |d.inodes|
    ensures |t.inodes| == |d.inodes| && t.inodes[ino].size == d.inodes[ino].size
  {
  }

  lemma {:induction false} OneInode(d: Disk, t: Disk, ino: nat, size: nat)
    requires Kept(d, t, ino) && ino < |d.inodes|
    ensures ino < |t.inodes|
    ensures d.inodes[ino := t.inodes[ino].(size := size)] == t.inodes[ino := t.inodes[ino].(size := size)]
    ensures OnlyInode(d.inodes, t.inodes[ino := t.inodes[ino].(size := size)], ino, true)
  {
  }

  lemma {:induction false} SameSize(t: Disk, ino: nat)
    requires ino < |t.inodes|
    ensures Resize(t, ino, t.inodes[ino].size) == t && OnlyInode(t.inodes, t.inodes, ino, false)
  {
  }

  // ---------- itrunc's loops ----------

  lemma {:induction false} NothingHeld(d: Disk, ino: nat)
    ensures Cleared(d.used, d.used, Held(d, Directs(ino, 0)))
  {
    assert Directs(ino, 0) == {};
    assert Held(d, {}) == {};
  }

  lemma {:induction false} NowTruncated(d: Disk, t: Disk, ino: nat)
    requires ino < |d.inodes| && t.blocks == d.blocks && |t.inodes| == |d.inodes|
    requires forall i :: 0 <= i < |d.inodes| && i != ino ==> t.inodes[i] == d.inodes[i]
    requires t.inodes[ino].size == 0 && |t.inodes[ino].addrs| == NDIRECT + 1
    requires forall i :: 0 <= i < NDIRECT + 1 ==> t.inodes[ino].addrs[i] == 0
    requires Cleared(d.used, t.used, Held(d, Places(ino)))
    ensures Truncated(d, t, ino)
  {
  }

  lemma {:induction false} NoEntries(ino: nat)
    ensures Directs(ino, NDIRECT) + Entries(ino, 0) == Directs(ino, NDIRECT)
  {
  }

  lemma {:induction false} LastPlace(ino: nat)
    ensures Indirect(ino) !in Directs(ino, NDIRECT) + Entries(ino, WORDS)
    ensures Directs(ino, NDIRECT) + Entries(ino, WORDS) + {Indirect(ino)} == Places(ino)
  {
  }
}
