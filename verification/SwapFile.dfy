/**
  The swap file as a file (fs.c: writeToSwapFile and readFromSwapFile): its pages lie one after another in
  the bytes of an inode, and writing or reading a page at a slot is what the paging tables take it for.
 */
module SwapFile {
  import opened Common
  import opened Params
  import opened Blocks
  import opened Fs
  import opened FsFile
  import opened FileSystem
  import opened FileWrite
  import T = Tables

  const PGSIZE := 4096

  type Page = p: seq<Byte> | |p| == PGSIZE witness seq(PGSIZE, i => 0)

  /** The file holds these pages and nothing else. */
  ghost predicate Backs(d: Disk, ino: nat, pages: seq<Page>) {
    && ino < |d.inodes| && d.inodes[ino].size == PGSIZE * |pages|
    && forall j: nat, o: nat {:trigger pages[j][o]} :: j < |pages| && o < PGSIZE ==> ByteAt(d, ino, PGSIZE * j + o) == pages[j][o]
  }

  /** A page written at a slot of the file is the page written at that slot of the table's swap space. */
  lemma {:induction false} WriteIsWriteSlot(d: Disk, t: Disk, ino: nat, pages: seq<Page>, j: nat, c: Page)
    requires Backs(d, ino, pages) && j <= |pages| && FileWritten(d, t, ino, PGSIZE * j, c)
    ensures Backs(t, ino, T.WriteSlot(pages, j, c))
  {
    hide ByteAt;
    var now := T.WriteSlot(pages, j, c);
    assert |now| == if j < |pages| then |pages| else j + 1;
    forall i: nat, o: nat {:trigger now[i][o]} | i < |now| && o < PGSIZE
      ensures ByteAt(t, ino, PGSIZE * i + o) == now[i][o]
    {
      if i != j {
        assert pages[i][o] == ByteAt(d, ino, PGSIZE * i + o);
      }
    }
  }

  /** The other files are not touched. */
  lemma {:induction false} OtherSwapFiles(d: Disk, t: Disk, ino: nat, off: nat, src: seq<Byte>, other: nat,
      pages: seq<Page>)
    requires ino < |d.inodes| && FileWritten(d, t, ino, off, src) && other != ino && Backs(d, other, pages)
    ensures Backs(t, other, pages)
  {
    hide ByteAt;
    assert SameFile(d, t, other);
    forall j: nat, o: nat {:trigger pages[j][o]} | j < |pages| && o < PGSIZE
      ensures ByteAt(t, other, PGSIZE * j + o) == pages[j][o]
    {
      assert PGSIZE * j + o < d.inodes[other].size;
    }
  }

  lemma {:induction false} SlotsFit()
    ensures PGSIZE * MAX_PSYC_PAGES <= MAXFILE * BSIZE < TWO_32
  {
  }

  /**
    writeToSwapFile of one page. At a slot up to the end of the file it writes that slot; past the end, and
    at the slot -1, whose offset wraps, filewrite refuses and nothing changes.
   */
  method WriteToSwapFile(v: Volume, ino: nat, page: Page, slot: int, ghost pages: seq<Page>) returns (ok: bool, r: int)
    requires v.Valid() && Backs(v.Snap(), ino, pages) && |pages| <= MAX_PSYC_PAGES && -1 <= slot < MAX_PSYC_PAGES
    modifies v
    ensures !ok ==> Full(v.used)
    ensures ok ==> v.Valid() && (r == -1 <==> slot == -1 || slot > |pages|)
    ensures ok && r == -1 ==> Backs(v.Snap(), ino, pages)
    ensures ok && r != -1 ==> r == PGSIZE && Backs(v.Snap(), ino, T.WriteSlot(pages, slot, page))
    ensures ok ==> forall i: nat, ps: seq<Page> :: i != ino && Backs(old(v.Snap()), i, ps) ==> Backs(v.Snap(), i, ps)
  {
    hide FileWritten, Chunks, Owned, NoHoles, BitsAre, Full, ByteAt;
    ghost var d := v.Snap();
    assert ino < |v.inodes| && v.inodes[ino].size == PGSIZE * |pages| by { assert Backs(d, ino, pages); }
    SlotsFit();
    var place := if slot == -1 then TWO_32 - PGSIZE else PGSIZE * slot;
    var off;
    ghost var imgs, txs;
    ok, r, off, imgs, txs := Filewrite(v, ino, page, PGSIZE, place);
    if ok {
      forall i: nat, ps: seq<Page> | i != ino && Backs(d, i, ps)
        ensures Backs(v.Snap(), i, ps)
      {
        OtherSwapFiles(d, v.Snap(), ino, place, page[..off - place], i, ps);
      }
      if slot != -1 && slot <= |pages| {
        EndOfWrite(d, v.Snap(), ino, place, page[..off - place]);
        assert page[..PGSIZE] == page;
        WriteIsWriteSlot(d, v.Snap(), ino, pages, slot, page);
      } else {
        assert page[..0] == [];
        NothingWrittenBacks(d, v.Snap(), ino, place, pages);
      }
    }
  }

  lemma {:induction false} EndOfWrite(d: Disk, t: Disk, ino: nat, off: nat, src: seq<Byte>)
    requires ino < |d.inodes| && FileWritten(d, t, ino, off, src) && off <= d.inodes[ino].size
    ensures ino < |t.inodes| && off + |src| <= t.inodes[ino].size
  {
    hide ByteAt;
  }

  lemma {:induction false} NothingWrittenBacks(d: Disk, t: Disk, ino: nat, off: nat, pages: seq<Page>)
    requires Backs(d, ino, pages) && FileWritten(d, t, ino, off, [])
    ensures Backs(t, ino, pages)
  {
    hide ByteAt;
    forall j: nat, o: nat {:trigger pages[j][o]} | j < |pages| && o < PGSIZE
      ensures ByteAt(t, ino, PGSIZE * j + o) == pages[j][o]
    {
      assert PGSIZE * j + o < d.inodes[ino].size;
    }
  }

  /** readFromSwapFile of one page: the page at the slot; past the end of the file there is none. */
  method ReadFromSwapFile(v: Volume, ino: nat, slot: nat, ghost pages: seq<Page>) returns (r: int, buffer: seq<Byte>)
    requires v.Valid() && Backs(v.Snap(), ino, pages) && |pages| <= MAX_PSYC_PAGES && slot < MAX_PSYC_PAGES
    modifies v
    ensures v.Valid() && v.Snap() == old(v.Snap())
    ensures slot < |pages| ==> r == PGSIZE && buffer == pages[slot]
    ensures slot >= |pages| ==> r <= 0 && buffer == []
  {
    hide Owned, NoHoles, BitsAre, ByteAt, Contents;
    ghost var d := v.Snap();
    assert ino < |v.inodes| && v.inodes[ino].size == PGSIZE * |pages| by { assert Backs(d, ino, pages); }
    SlotsFit();
    r, buffer := v.Readi(ino, PGSIZE * slot, PGSIZE);
    if slot < |pages| {
      forall o | 0 <= o < PGSIZE
        ensures buffer[o] == pages[slot][o]
      {
        assert Contents(d, ino)[PGSIZE * slot + o] == ByteAt(d, ino, PGSIZE * slot + o);
        assert pages[slot][o] == ByteAt(d, ino, PGSIZE * slot + o);
      }
    }
  }
}
