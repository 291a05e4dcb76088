/**
  The in-memory log of log.c working on a disk and on the buffers it has pinned: the methods do
  what the C functions do, one block write at a time, and are tied to the write lists of Log.
 */
module LogDevice {
  import opened Common
  import opened Blocks
  import opened Log
  import opened Params

  class Device<B(!new)> {
    const lo: Layout<B>
    var disk: Disk<B>
    var dirty: map<nat, B>  // contents of the buffers that B_DIRTY keeps in the cache
    var lh: Header              // log.lh: its length is log.lh.n, its elements log.lh.block
    ghost var writes: seq<Write<B>>

    /** The header lists distinct home blocks with room in the log, and only they are pinned. */
    ghost predicate Valid()
      reads this
    {
      && Loggable(lo, disk, lh)
      && Pinned(dirty, lh)
    }

    constructor (lo: Layout<B>, disk: Disk<B>)
      requires lo.start + lo.size <= |disk| && 0 < lo.size && lo.RoundTrips()
      ensures Valid() && this.lo == lo && this.disk == disk
      ensures lh == [] && dirty == map[] && writes == []
    {
      this.lo, this.disk := lo, disk;
      dirty, lh, writes := map[], [], [];
    }

    /** bwrite: one atomic block write, which also clears B_DIRTY. */
    method Bwrite(b: nat, data: B)
      requires b < |disk|
      modifies this`disk, this`dirty, this`writes
      ensures disk == Apply(old(disk), Write(b, data))
      ensures dirty == old(dirty) - {b}
      ensures writes == old(writes) + [Write(b, data)]
    {
      disk := disk[b := data];
      dirty := dirty - {b};
      writes := writes + [Write(b, data)];
    }

    /** log_write: records the block once and pins its new contents; no disk block changes. */
    method LogWrite(b: Uint, data: B) returns (panicked: bool)
      requires Valid() && b < |disk| && !lo.InLog(b)
      modifies this`lh, this`dirty
      ensures panicked <==> |old(lh)| >= LOGSIZE || |old(lh)| >= lo.size - 1
      ensures panicked ==> lh == old(lh) && dirty == old(dirty)
      ensures !panicked ==> lh == if b in old(lh) then old(lh) else old(lh) + [b]
      ensures !panicked ==> dirty == old(dirty)[b as nat := data]
      ensures Valid()
    {
      if |lh| >= LOGSIZE || |lh| >= lo.size - 1 {
        return true;
      }
      panicked := false;
      var i := 0;
      while i < |lh| && lh[i] != b
        invariant 0 <= i <= |lh|
        invariant b !in lh[..i]
      {
        i := i + 1;
      }
      lh := if i == |lh| then lh + [b] else lh[i := b];
      dirty := dirty[b as nat := data];
    }

    /** write_log: copies every logged block from the cache to the log. */
    method WriteLog()
      requires Valid()
      modifies this`disk, this`dirty, this`writes
      ensures dirty == old(dirty)
      ensures disk == ApplyAll(old(disk), LogWrites(lo, old(disk), old(dirty), lh))
      ensures writes == old(writes) + LogWrites(lo, old(disk), old(dirty), lh)
      ensures Valid()
    {
      ghost var ws := LogWrites(lo, disk, dirty, lh);
      var tail := 0;
      assert ApplyAll(disk, ws[..0]) == disk;
      hide ApplyAll, LogWrites, InstallWrites, Distinct, Loggable, Pinned, Apply;
      while tail < |lh|
        invariant 0 <= tail <= |lh| == |ws| && |disk| == |old(disk)| && dirty == old(dirty)
        invariant disk == ApplyAll(old(disk), ws[..tail]) && writes == old(writes) + ws[..tail]
      {
        LogStep(lo, old(disk), old(dirty), lh, tail);
        var from := if lh[tail] in dirty then dirty[lh[tail]] else disk[lh[tail]];
        NotPinned(lo, old(disk), old(dirty), lh, lo.start + tail + 1);
        Bwrite(lo.start + tail + 1, from);
        OneMore(old(writes), ws, tail);
        tail := tail + 1;
      }
      assert ws[..|lh|] == ws;
      StillLoggable(lo, old(disk), disk, lh);
    }

    /** write_head: the header buffer takes the count and the block numbers. */
    method WriteHead()
      requires Valid()
      modifies this`disk, this`dirty, this`writes
      ensures dirty == old(dirty)
      ensures disk == Apply(old(disk), HeadWrite(lo, old(disk), lh))
      ensures writes == old(writes) + [HeadWrite(lo, old(disk), lh)]
      ensures Valid()
    {
      var hb := lo.write(disk[lo.start], lh);
      NotPinned(lo, disk, dirty, lh, lo.start);
      Bwrite(lo.start, hb);
    }

    /** install_trans: copies every log block to its home location and unpins it. */
    method InstallTrans()
      requires Valid()
      modifies this`disk, this`dirty, this`writes
      ensures disk == ApplyAll(old(disk), InstallWrites(lo, old(disk), lh))
      ensures writes == old(writes) + InstallWrites(lo, old(disk), lh)
      ensures dirty == map[] && Valid()
    {
      ghost var ws := InstallWrites(lo, disk, lh);
      var tail := 0;
      assert lh[0..] == lh;
      assert ApplyAll(disk, ws[..0]) == disk;
      hide ApplyAll, LogWrites, InstallWrites, Distinct;
      while tail < |lh|
        invariant 0 <= tail <= |lh| && Pinned(dirty, lh[tail..])
        invariant disk == ApplyAll(old(disk), ws[..tail]) && writes == old(writes) + ws[..tail]
      {
        InstallStep(lo, old(disk), lh, tail);
        Unpin(dirty, lh, tail);
        Bwrite(lh[tail], disk[lo.start + tail + 1]);
        assert ws[..tail + 1] == ws[..tail] + [ws[tail]];
        tail := tail + 1;
      }
      assert ws[..|lh|] == ws;
    }

    /** commit: exactly the block writes of CommitWrites; on return the transaction is installed,
        nothing is pinned, and the log is empty in memory and on disk. */
    method Commit()
      requires Valid() && Quiet(lo, disk)
      modifies this
      ensures disk == ApplyAll(old(disk), CommitWrites(lo, old(disk), old(dirty), old(lh)))
      ensures writes == old(writes) + CommitWrites(lo, old(disk), old(dirty), old(lh))
      ensures Valid() && lh == [] && dirty == map[] && Quiet(lo, disk)
      ensures SameHome(lo, disk, Target(old(disk), old(dirty), old(lh)))
    {
      CommitIsAtomic(lo, disk, dirty, lh);
      if |lh| > 0 {
        CommitInFour(lo, disk, dirty, lh);
        hide ApplyAll, Apply, LogWrites, InstallWrites, HeadWrite, CommitWrites, Target, Distinct, SameHome;
        ghost var lw := LogWrites(lo, disk, dirty, lh);
        ghost var hw := HeadWrite(lo, ApplyAll(disk, lw), lh);
        WriteLog();
        WriteHead();
        ghost var c, iw := disk, InstallWrites(lo, disk, lh);
        InstallTrans();
        lh := [];
        WriteHead();
        Regroup(old(writes), lw, [hw], iw, [HeadWrite(lo, ApplyAll(c, iw), [])]);
      } else {
        assert dirty == map[];
      }
    }

    /** read_head: loads the header from disk. */
    method ReadHead()
      requires Recoverable(lo, disk)
      modifies this`lh
      ensures lo.read(disk[lo.start]) == Some(lh)
    {
      lh := lo.read(disk[lo.start]).value;
    }

    /** recover_from_log: exactly the block writes of RecoverWrites; whatever home blocks the disk
        stood for are then in place and the log is empty. */
    method RecoverFromLog(ghost home: Disk<B>)
      requires dirty == map[] && Denotes(lo, disk, home)
      modifies this
      ensures disk == ApplyAll(old(disk), RecoverWrites(lo, old(disk)))
      ensures writes == old(writes) + RecoverWrites(lo, old(disk))
      ensures Valid() && lh == [] && dirty == map[] && Quiet(lo, disk) && SameHome(lo, disk, home)
    {
      ghost var ws := RecoverWrites(lo, disk);
      assert ws[..|ws|] == ws;
      InstallKeepsMeaning(lo, disk, home, |ws|);
      QuietMeansItself(lo, ApplyAll(disk, ws), home);
      ReadHead();
      assert ws[..|ws| - 1] == InstallWrites(lo, disk, lh);
      InstallTrans();
      lh := [];
      WriteHead();
    }
  }

  /** Only logged blocks are pinned. */
  ghost predicate Pinned<B>(dirty: map<nat, B>, h: Header) {
    forall b :: b in dirty ==> b in h
  }

  /** commit() is write_log, write_head, install_trans and the clearing write_head, in that order. */
  lemma {:induction false} CommitInFour<B(!new)>(lo: Layout<B>, d: Disk<B>, dirty: map<nat, B>, h: Header)
    requires Loggable(lo, d, h) && h != []
    ensures var lw := LogWrites(lo, d, dirty, h);
      var hw := HeadWrite(lo, ApplyAll(d, lw), h);
      var c := Apply(ApplyAll(d, lw), hw);
      var iw := InstallWrites(lo, c, h);
      var cw := HeadWrite(lo, ApplyAll(c, iw), []);
      && CommitWrites(lo, d, dirty, h) == lw + [hw] + iw + [cw]
      && ApplyAll(d, CommitWrites(lo, d, dirty, h)) == Apply(ApplyAll(c, iw), cw)
  {
    var lw := LogWrites(lo, d, dirty, h);
    var hw := HeadWrite(lo, ApplyAll(d, lw), h);
    var c := Apply(ApplyAll(d, lw), hw);
    var iw := InstallWrites(lo, c, h);
    var rest := InstallAndClear(lo, c, h);
    assert (lw + [hw])[..|lw|] == lw;
    assert rest[..|iw|] == iw;
    assert CommitWrites(lo, d, dirty, h) == (lw + [hw]) + rest;
    ApplyAllConcat(d, lw + [hw], rest);
  }

  lemma {:induction false} Regroup<T>(s: seq<T>, a: seq<T>, b: seq<T>, c: seq<T>, d: seq<T>)
    ensures s + a + b + c + d == s + (a + b + c + d)
  {
  }

  lemma {:induction false} OneMore<T>(a: seq<T>, ws: seq<T>, k: nat)
    requires k < |ws|
    ensures a + ws[..k] + [ws[k]] == a + ws[..k + 1]
  {
  }

  lemma {:induction false} StillLoggable<B(!new)>(lo: Layout<B>, d: Disk<B>, e: Disk<B>, h: Header)
    requires Loggable(lo, d, h) && |e| == |d|
    ensures Loggable(lo, e, h)
  {
  }

  lemma {:induction false} LogStep<B(!new)>(lo: Layout<B>, d: Disk<B>, dirty: map<nat, B>, h: Header, k: nat)
    requires Loggable(lo, d, h) && k < |h|
    ensures var ws := LogWrites(lo, d, dirty, h);
      var e := ApplyAll(d, ws[..k]);
      && ws[k] == Write(lo.start + k + 1, if h[k] in dirty then dirty[h[k]] else e[h[k]])
      && ApplyAll(d, ws[..k + 1]) == Apply(e, ws[k])
      && lo.InLog(lo.start + k + 1) && lo.start + k + 1 < |d| && h[k] < |d|
  {
    LogPrefix(lo, d, dirty, h, k);
    ApplyNext(d, LogWrites(lo, d, dirty, h), k);
  }

  lemma {:induction false} InstallStep<B(!new)>(lo: Layout<B>, d: Disk<B>, h: Header, k: nat)
    requires Loggable(lo, d, h) && k < |h|
    ensures var ws := InstallWrites(lo, d, h);
      var e := ApplyAll(d, ws[..k]);
      && ws[k] == Write(h[k], e[lo.start + k + 1])
      && ApplyAll(d, ws[..k + 1]) == Apply(e, ws[k])
  {
    InstallPrefix(lo, d, h, k);
    ApplyNext(d, InstallWrites(lo, d, h), k);
    assert lo.InLog(lo.start + k + 1);
  }

  lemma {:induction false} Unpin<B>(dirty: map<nat, B>, h: Header, k: nat)
    requires k < |h| && Pinned(dirty, h[k..])
    ensures Pinned(dirty - {h[k] as nat}, h[k + 1..])
  {
    assert h[k..] == [h[k]] + h[k + 1..];
  }

  lemma {:induction false} NotPinned<B(!new)>(lo: Layout<B>, d: Disk<B>, dirty: map<nat, B>, h: Header, b: nat)
    requires Loggable(lo, d, h) && Pinned(dirty, h) && lo.InLog(b)
    ensures b !in dirty && dirty - {b} == dirty
  {
  }
}
