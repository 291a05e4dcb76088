/**
  What bwrite and brelse achieve (bio.c): a buffer is dirty exactly while its block has an update that is
  not on disk yet, and a call of bread that is answered by brelse leaves the cache as free as it was.
 */
module BioDirty {
  import opened Bio

  // ---------- bwrite ----------

  /** After bwrite the disk has the block's last update and the buffer is clean. */
  lemma {:induction false} FlushSaves<B>(s: State<B>, h: nat, mem: imap<Id, B>)
    requires Inv(s, mem) && Enabled(s, Flush(h)) && s.handles[h].id != BOOT
    ensures var t, i, id := Do(s, Flush(h)), s.handles[h].buf, s.handles[h].id;
      && id in t.disk && id in mem && t.disk[id] == mem[id]
      && i < |t.bufs| && t.bufs[i].id == id && !t.bufs[i].dirty && t.bufs[i].valid && t.bufs[i].data == mem[id]
      && |t.bufs| == |s.bufs| && (forall j :: 0 <= j < |s.bufs| && j != i ==> t.bufs[j] == s.bufs[j])
      && (forall x :: x in t.disk <==> x in s.disk) && (forall x :: x in s.disk && x != id ==> t.disk[x] == s.disk[x])
      && t.handles == s.handles && t.lru == s.lru
  {
    hide LruOk, InOrder, Refs;
    assert BufAgrees(s.bufs[s.handles[h].buf], s.disk, mem);
  }

  /** The blocks with an update since they were last written to disk. */
  ghost function UnsavedAfter<B>(s: State<B>, step: Step<B>, unsaved: iset<Id>): iset<Id>
    requires Enabled(s, step)
  {
    match step
    case Update(h, _) => unsaved + iset{s.handles[h].id}
    case Flush(h) => unsaved - iset{s.handles[h].id}
    case _ => unsaved
  }

  ghost function Unsaved<B>(s: State<B>, steps: seq<Step<B>>, unsaved: iset<Id>): iset<Id>
    requires Runs(s, steps)
    decreases |steps|
  {
    if |steps| == 0 then unsaved else Unsaved(Do(s, steps[0]), steps[1..], UnsavedAfter(s, steps[0], unsaved))
  }

  /** Buffers are dirty exactly for the unsaved blocks, and those are cached. */
  ghost predicate DirtyIff<B>(bufs: seq<Buf<B>>, unsaved: iset<Id>) {
    && (forall i :: 0 <= i < |bufs| && bufs[i].id != BOOT ==> (bufs[i].dirty <==> bufs[i].id in unsaved))
    && (forall id :: id in unsaved && id != BOOT ==> Cached(bufs, id))
  }

  lemma {:induction false} GetKeepsDirty<B>(s: State<B>, id: Id, unsaved: iset<Id>)
    requires Shaped(s) && DirtyIff(s.bufs, unsaved) && Enabled(s, Get(id))
    ensures DirtyIff(Do(s, Get(id)).bufs, unsaved)
  {
    hide LruOk, Target;
    TargetIs(s, id);
    var i, t := Target(s.bufs, s.lru, id), Do(s, Get(id));
    assert s.bufs[i].id != id && id != BOOT ==> id !in unsaved;
    forall x | x in unsaved && x != BOOT
      ensures Cached(t.bufs, x)
    {
      var j :| 0 <= j < |s.bufs| && s.bufs[j].id == x;
      assert t.bufs[j].id == x;
    }
  }

  lemma {:induction false} SetKeepsDirty<B>(s: State<B>, i: nat, b: Buf<B>, unsaved: iset<Id>, now: iset<Id>)
    requires i < |s.bufs| && DirtyIff(s.bufs, unsaved) && Unique(s.bufs) && b.id == s.bufs[i].id
    requires b.id != BOOT ==> (b.dirty <==> b.id in now)
    requires forall id :: id != b.id ==> (id in now <==> id in unsaved)
    ensures DirtyIff(s.bufs[i := b], now)
  {
    var t := s.bufs[i := b];
    forall x | x in now && x != BOOT
      ensures Cached(t, x)
    {
      if x == b.id {
        assert t[i].id == x;
      } else {
        var j :| 0 <= j < |s.bufs| && s.bufs[j].id == x;
        assert t[j].id == x;
      }
    }
  }

  lemma {:induction false} StepKeepsDirty<B>(s: State<B>, step: Step<B>, mem: imap<Id, B>, unsaved: iset<Id>)
    requires Inv(s, mem) && Enabled(s, step) && DirtyIff(s.bufs, unsaved)
    ensures DirtyIff(Do(s, step).bufs, UnsavedAfter(s, step, unsaved))
  {
    hide LruOk, InOrder, Refs, Agrees, DirtyIff, Unique, Target, ToFront, Locked;
    var now := UnsavedAfter(s, step, unsaved);
    match step
    case Get(id) => GetKeepsDirty(s, id, unsaved);
    case Fill(h) => SameDirty(s, s.handles[h].buf, unsaved);
      SetKeepsDirty(s, s.handles[h].buf, Do(s, step).bufs[s.handles[h].buf], unsaved, now);
    case Update(h, d) => SetKeepsDirty(s, s.handles[h].buf, Do(s, step).bufs[s.handles[h].buf], unsaved, now);
    case Flush(h) => SetKeepsDirty(s, s.handles[h].buf, Do(s, step).bufs[s.handles[h].buf], unsaved, now);
    case Release(h) => SameDirty(s, s.handles[h].buf, unsaved);
      SetKeepsDirty(s, s.handles[h].buf, Do(s, step).bufs[s.handles[h].buf], unsaved, now);
    case _ =>
  }

  lemma {:induction false} SameDirty<B>(s: State<B>, i: nat, unsaved: iset<Id>)
    requires DirtyIff(s.bufs, unsaved) && i < |s.bufs|
    ensures s.bufs[i].id != BOOT ==> (s.bufs[i].dirty <==> s.bufs[i].id in unsaved)
  {
  }

  lemma {:induction false} RunKeepsDirty<B>(s: State<B>, steps: seq<Step<B>>, mem: imap<Id, B>, unsaved: iset<Id>)
    requires Inv(s, mem) && Runs(s, steps) && DirtyIff(s.bufs, unsaved)
    ensures DirtyIff(After(s, steps).bufs, Unsaved(s, steps, unsaved))
    decreases |steps|
  {
    hide Inv, Do, Enabled, Effect, DirtyIff, UnsavedAfter;
    if |steps| > 0 {
      StepKeepsInv(s, steps[0], mem);
      StepKeepsDirty(s, steps[0], mem, unsaved);
      RunKeepsDirty(Do(s, steps[0]), steps[1..], Effect(s, steps[0], mem), UnsavedAfter(s, steps[0], unsaved));
    }
  }

  /**
    In every run from boot, for blocks other than block 0 of device 0: a buffer is dirty if and only if its
    block was updated since the last bwrite of it; such a block is cached; and the disk has the last update
    of every other block.
   */
  lemma {:induction false} DirtyMeansUnsaved<B>(s: State<B>, steps: seq<Step<B>>)
    requires Boot(s) && Runs(s, steps)
    ensures var t, mem, unsaved := After(s, steps), Store(s, steps, s.disk), Unsaved(s, steps, iset{});
      && (forall i :: 0 <= i < |t.bufs| && t.bufs[i].id != BOOT ==> (t.bufs[i].dirty <==> t.bufs[i].id in unsaved))
      && (forall id :: id in unsaved && id != BOOT ==> Cached(t.bufs, id))
      && (forall id :: id !in unsaved && id != BOOT ==> id in t.disk && id in mem && t.disk[id] == mem[id])
  {
    hide Runs, After, Store, Unsaved, LruOk, InOrder, Counted, Cached;
    BootInv(s);
    assert DirtyIff(s.bufs, iset{}) by { CleanAtBoot(s); }
    hide Boot;
    RunKeepsDirty(s, steps, s.disk, iset{});
    RunKeepsInv(s, steps, s.disk);
    var t, mem, unsaved := After(s, steps), Store(s, steps, s.disk), Unsaved(s, steps, iset{});
    forall id | id !in unsaved && id != BOOT
      ensures t.disk[id] == mem[id]
    {
      SavedIsOnDisk(t.bufs, t.disk, mem, unsaved, id);
    }
  }

  lemma {:induction false} CleanAtBoot<B>(s: State<B>)
    requires Boot(s)
    ensures DirtyIff(s.bufs, iset{})
  {
  }

  lemma {:induction false} SavedIsOnDisk<B>(bufs: seq<Buf<B>>, disk: imap<Id, B>, mem: imap<Id, B>, unsaved: iset<Id>, id: Id)
    requires Agrees(bufs, disk, mem) && DirtyIff(bufs, unsaved) && id !in unsaved && id != BOOT
    ensures id in disk && id in mem && disk[id] == mem[id]
  {
    if Cached(bufs, id) {
      var i :| 0 <= i < |bufs| && bufs[i].id == id;
      assert BufAgrees(bufs[i], disk, mem);
    }
  }

  // ---------- bread and brelse ----------

  /** bread by one process, up to its return: bget takes a buffer, waits for it, and fills it if need be. */
  ghost function Bread<B>(s: State<B>, id: Id): (t: State<B>)
    requires Shaped(s) && Target(s.bufs, s.lru, id) >= 0 && !Locked(s, Target(s.bufs, s.lru, id))
  {
    hide LruOk, Target;
    var h := |s.handles|;
    GetIsShaped(s, id);
    var s1 := Do(s, Get(id));
    var s2 := Do(s1, Lock(h));
    if s2.bufs[s2.handles[h].buf].valid then s2 else Do(s2, Fill(h))
  }

  lemma {:induction false} GetIsShaped<B>(s: State<B>, id: Id)
    requires Shaped(s) && Target(s.bufs, s.lru, id) >= 0 && !Locked(s, Target(s.bufs, s.lru, id))
    ensures Enabled(Do(s, Get(id)), Lock(|s.handles|)) && Shaped(Do(Do(s, Get(id)), Lock(|s.handles|)))
  {
    hide LruOk, Target;
    var t := Do(s, Get(id));
    forall h | 0 <= h < |t.handles| && t.handles[h].Holding?
      ensures t.handles[h].buf != Target(s.bufs, s.lru, id)
    {
      assert h < |s.handles| && s.handles[h] == t.handles[h];
    }
  }

  /** bread returns a valid buffer for the block, held by its caller. */
  lemma {:induction false} BreadHolds<B>(s: State<B>, id: Id, mem: imap<Id, B>)
    requires Inv(s, mem) && Target(s.bufs, s.lru, id) >= 0 && !Locked(s, Target(s.bufs, s.lru, id))
    ensures var t, h, i := Bread(s, id), |s.handles|, Target(s.bufs, s.lru, id);
      && Inv(t, mem) && |t.handles| == h + 1 && t.handles[h] == Holding(i, id) && i < |t.bufs| == |s.bufs|
      && t.bufs[i].id == id && t.bufs[i].valid && (id != BOOT ==> id in mem && t.bufs[i].data == mem[id])
      && (forall g :: 0 <= g < h ==> t.handles[g] == s.handles[g])
      && (forall j :: 0 <= j < |s.bufs| && j != i ==> t.bufs[j] == s.bufs[j])
      && t.disk == s.disk && t.lru == s.lru && t.bufs[i].refcnt == s.bufs[i].refcnt + 1
  {
    hide LruOk, Target, InOrder, Refs;
    var h, i := |s.handles|, Target(s.bufs, s.lru, id);
    TargetIs(s, id);
    GetIsShaped(s, id);
    var s1 := Do(s, Get(id));
    GetKeepsInv(s, id, mem);
    var s2 := Do(s1, Lock(h));
    LockKeepsInv(s1, h, mem);
    if !s2.bufs[i].valid {
      FillKeepsInv(s2, h, mem);
    }
    var t := Bread(s, id);
    assert Inv(t, mem);
    assert id != BOOT ==> BufAgrees(t.bufs[i], t.disk, mem);
  }

  /** brelse by the holder: it is nobody's any more, and as many reference it as before the bread. */
  ghost function Brelse<B>(s: State<B>, h: nat): (t: State<B>)
    requires Shaped(s) && h < |s.handles| && s.handles[h].Holding?
  {
    hide LruOk;
    Do(Do(s, Unlock(h)), Release(h))
  }

  /**
    brelse undoes bread: the buffer has the references it had, nobody holds it, no other buffer or handle
    has changed, and the block is now cached, at the front of the list if nobody references it.
   */
  lemma {:induction false} BrelseUndoesBread<B>(s: State<B>, id: Id, mem: imap<Id, B>)
    requires Inv(s, mem) && Target(s.bufs, s.lru, id) >= 0 && !Locked(s, Target(s.bufs, s.lru, id))
    ensures var h, i := |s.handles|, Target(s.bufs, s.lru, id);
      && Shaped(Bread(s, id)) && h < |Bread(s, id).handles| && Bread(s, id).handles[h].Holding?
      && var t := Brelse(Bread(s, id), h);
      && |t.bufs| == |s.bufs| && t.handles == s.handles + [Released] && !Locked(t, i)
      && (forall j :: 0 <= j < |s.bufs| && j != i ==> t.bufs[j] == s.bufs[j])
      && t.bufs[i].id == id && t.bufs[i].valid && t.bufs[i].refcnt == s.bufs[i].refcnt && t.disk == s.disk
      && t.bufs[i].data == Bread(s, id).bufs[i].data && t.bufs[i].dirty == Bread(s, id).bufs[i].dirty
      && (if s.bufs[i].refcnt == 0 then |t.lru| > 0 && t.lru[0] == i else t.lru == s.lru)
  {
    hide LruOk, Target, InOrder, Refs, Agrees, Bread;
    BreadHolds(s, id, mem);
    var h, i, r := |s.handles|, Target(s.bufs, s.lru, id), Bread(s, id);
    var t := Brelse(r, h);
    assert t.handles == s.handles + [Released];
    forall g | 0 <= g < |t.handles| && t.handles[g].Holding?
      ensures t.handles[g].buf != i
    {
      assert r.handles[g].Holding? && g != h;
    }
  }
}
