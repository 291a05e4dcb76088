/**
  The buffer cache (bio.c) as a step system. Each step is what one process does under bcache.lock or
  while it holds a buffer's sleep lock, so every interleaving of bread, bwrite, brelse and log_write calls
  is a run of these steps. A handle is one bget call: it waits for its buffer, holds it, and lets go of it
  in two steps, the sleep lock before the reference.
 */
module Bio {

  datatype Id = Id(dev: nat, block: nat)

  /** The block that every buffer is for before its first use. */
  const BOOT := Id(0, 0)

  datatype Buf<B> = Buf(id: Id, valid: bool, dirty: bool, refcnt: nat, data: B)

  datatype Handle = Waiting(buf: nat, id: Id) | Holding(buf: nat, id: Id) | Leaving(buf: nat, id: Id) | Released

  /**
    lru lists the buffers, most recently freed first. freed and now only record when each buffer was last
    moved to the front, so that the list's order can be stated.
   */
  datatype State<B> = State(bufs: seq<Buf<B>>, lru: seq<nat>, disk: imap<Id, B>, handles: seq<Handle>,
                            freed: seq<nat>, now: nat)

  datatype Step<B> =
    | Get(id: Id)
    | Lock(h: nat)
    | Fill(h: nat)
    | Update(h: nat, data: B)
    | Flush(h: nat)
    | Unlock(h: nat)   // brelse: releasesleep
    | Release(h: nat)  // brelse: under bcache.lock

  // ---------- bget's two scans ----------

  /** The first position in the list, from the front, whose buffer has the block; -1 if none. */
  function FindFrom<B>(bufs: seq<Buf<B>>, lru: seq<nat>, id: Id, p: nat): (r: int)
    requires p <= |lru| && forall k :: 0 <= k < |lru| ==> lru[k] < |bufs|
    ensures -1 <= r < |lru|
    ensures r >= 0 ==> p <= r && bufs[lru[r]].id == id && forall k :: p <= k < r ==> bufs[lru[k]].id != id
    ensures r < 0 ==> forall k :: p <= k < |lru| ==> bufs[lru[k]].id != id
    decreases |lru| - p
  {
    if p == |lru| then -1 else if bufs[lru[p]].id == id then p else FindFrom(bufs, lru, id, p + 1)
  }

  predicate Unused<B>(b: Buf<B>) {
    b.refcnt == 0 && !b.dirty
  }

  /** The last position below p whose buffer is unused; -1 if none. */
  function VictimBelow<B>(bufs: seq<Buf<B>>, lru: seq<nat>, p: nat): (r: int)
    requires p <= |lru| && forall k :: 0 <= k < |lru| ==> lru[k] < |bufs|
    ensures -1 <= r < p
    ensures r >= 0 ==> Unused(bufs[lru[r]])
    ensures forall k :: r < k < p ==> !Unused(bufs[lru[k]])
  {
    if p == 0 then -1 else if Unused(bufs[lru[p - 1]]) then p - 1 else VictimBelow(bufs, lru, p - 1)
  }

  // ---------- the steps ----------

  /** The list has each of n buffers once. */
  ghost predicate LruOk(lru: seq<nat>, n: nat) {
    && |lru| == n
    && (forall k :: 0 <= k < |lru| ==> lru[k] < n)
    && (forall k, l :: 0 <= k < l < |lru| ==> lru[k] != lru[l])
    && (forall i :: 0 <= i < n ==> i in lru)
  }

  ghost predicate Shaped<B>(s: State<B>) {
    && LruOk(s.lru, |s.bufs|) && |s.freed| == |s.bufs|
    && (forall id :: id in s.disk)
    && (forall h :: 0 <= h < |s.handles| && !s.handles[h].Released? ==> s.handles[h].buf < |s.bufs|)
  }

  ghost predicate Locked<B>(s: State<B>, i: nat) {
    exists h :: 0 <= h < |s.handles| && s.handles[h].Holding? && s.handles[h].buf == i
  }

  function Grab<B>(b: Buf<B>): Buf<B> {
    b.(refcnt := b.refcnt + 1)
  }

  function Recycle<B>(b: Buf<B>, id: Id): Buf<B> {
    b.(id := id, valid := false, dirty := false, refcnt := 1)
  }

  function Put<B>(s: State<B>, i: nat, b: Buf<B>): State<B>
    requires i < |s.bufs|
  {
    s.(bufs := s.bufs[i := b])
  }

  function SetHandle<B>(s: State<B>, h: nat, x: Handle): State<B>
    requires h < |s.handles|
  {
    s.(handles := s.handles[h := x])
  }

  /** The buffer bget returns for a block, or -1 where it panics. */
  ghost function Target<B>(bufs: seq<Buf<B>>, lru: seq<nat>, id: Id): (i: int)
    requires LruOk(lru, |bufs|)
    ensures -1 <= i < |bufs|
  {
    var p := FindFrom(bufs, lru, id, 0);
    var v := VictimBelow(bufs, lru, |lru|);
    if p >= 0 then lru[p] else if v >= 0 then lru[v] else -1
  }

  /** The buffer after bget took it for a block. */
  function Taken<B>(b: Buf<B>, id: Id): Buf<B> {
    if b.id == id then Grab(b) else Recycle(b, id)
  }

  ghost predicate Enabled<B>(s: State<B>, step: Step<B>) {
    && Shaped(s)
    && match step
       case Get(id) => Target(s.bufs, s.lru, id) >= 0
       case Lock(h) => h < |s.handles| && s.handles[h].Waiting? && !Locked(s, s.handles[h].buf)
       case Fill(h) => h < |s.handles| && s.handles[h].Holding? && !s.bufs[s.handles[h].buf].valid
       case Update(h, d) => h < |s.handles| && s.handles[h].Holding? && s.bufs[s.handles[h].buf].valid
       case Flush(h) => h < |s.handles| && s.handles[h].Holding? && s.bufs[s.handles[h].buf].valid
       case Unlock(h) => h < |s.handles| && s.handles[h].Holding?
       case Release(h) => h < |s.handles| && s.handles[h].Leaving?
  }

  /** brelse moves a buffer that nobody references to the front. */
  function ToFront(lru: seq<nat>, i: nat): seq<nat> {
    [i] + Without(lru, i)
  }

  function Without(lru: seq<nat>, i: nat): (r: seq<nat>)
    ensures forall x :: x in r <==> x in lru && x != i
  {
    if |lru| == 0 then [] else if lru[0] == i then Without(lru[1..], i) else [lru[0]] + Without(lru[1..], i)
  }

  ghost function Do<B>(s: State<B>, step: Step<B>): (t: State<B>)
    requires Enabled(s, step)
  {
    match step
    case Get(id) =>
      var i := Target(s.bufs, s.lru, id);
      Put(s, i, Taken(s.bufs[i], id)).(handles := s.handles + [Waiting(i, id)])
    case Lock(h) => SetHandle(s, h, Holding(s.handles[h].buf, s.handles[h].id))
    case Fill(h) =>
      var b := s.bufs[s.handles[h].buf];
      Put(s, s.handles[h].buf, b.(valid := true, data := s.disk[b.id]))
    case Update(h, d) => Put(s, s.handles[h].buf, s.bufs[s.handles[h].buf].(data := d, dirty := true))
    case Flush(h) =>
      var b := s.bufs[s.handles[h].buf];
      Put(s, s.handles[h].buf, b.(dirty := false)).(disk := s.disk[b.id := b.data])
    case Unlock(h) => SetHandle(s, h, Leaving(s.handles[h].buf, s.handles[h].id))
    case Release(h) =>
      var i := s.handles[h].buf;
      var n := if s.bufs[i].refcnt > 0 then s.bufs[i].refcnt - 1 else 0;
      SetHandle(Put(s, i, s.bufs[i].(refcnt := n)), h, Released)
        .(lru := if n == 0 then ToFront(s.lru, i) else s.lru,
          freed := if n == 0 then s.freed[i := s.now] else s.freed,
          now := if n == 0 then s.now + 1 else s.now)
  }

  // ---------- the invariant ----------

  predicate On(x: Handle, i: nat) {
    !x.Released? && x.buf == i
  }

  /** The handles on buffer i. */
  function Refs(hs: seq<Handle>, i: nat): (n: nat) {
    if |hs| == 0 then 0 else Refs(hs[..|hs| - 1], i) + if On(hs[|hs| - 1], i) then 1 else 0
  }

  /** References are counted, a sleep lock has one holder, and a handle's buffer holds the block it asked for. */
  ghost predicate Counted<B>(s: State<B>) {
    && (forall i :: 0 <= i < |s.bufs| ==> s.bufs[i].refcnt == Refs(s.handles, i))
    && (forall g, h :: 0 <= g < h < |s.handles| && s.handles[g].Holding? && s.handles[h].Holding? ==>
         s.handles[g].buf != s.handles[h].buf)
    && (forall h :: 0 <= h < |s.handles| && !s.handles[h].Released? ==>
         s.handles[h].buf < |s.bufs| && s.bufs[s.handles[h].buf].id == s.handles[h].id)
  }

  /** A block other than block 0 of device 0 is in at most one buffer. */
  ghost predicate Unique<B>(bufs: seq<Buf<B>>) {
    forall i, j :: 0 <= i < j < |bufs| && bufs[i].id == bufs[j].id ==> bufs[i].id == BOOT
  }

  /** mem is the block store the callers see: the valid buffer's data, or the disk's; a clean buffer has both. */
  ghost predicate Agrees<B>(bufs: seq<Buf<B>>, disk: imap<Id, B>, mem: imap<Id, B>) {
    && (forall id :: id in mem && id in disk)
    && (forall i :: 0 <= i < |bufs| && bufs[i].id != BOOT ==> BufAgrees(bufs[i], disk, mem))
    && (forall id: Id {:trigger Cached(bufs, id)} :: id != BOOT && !Cached(bufs, id) ==> disk[id] == mem[id])
  }

  ghost predicate Cached<B>(bufs: seq<Buf<B>>, id: Id) {
    exists i :: 0 <= i < |bufs| && bufs[i].id == id
  }

  ghost predicate BufAgrees<B>(b: Buf<B>, disk: imap<Id, B>, mem: imap<Id, B>)
    requires b.id in disk && b.id in mem
  {
    && (b.valid ==> b.data == mem[b.id])
    && (!b.dirty ==> disk[b.id] == mem[b.id])
    && (!b.valid ==> !b.dirty)
  }

  /** The list is in the order of last release, latest first. */
  ghost predicate InOrder(lru: seq<nat>, freed: seq<nat>, now: nat) {
    && (forall k :: 0 <= k < |lru| ==> lru[k] < |freed| && freed[lru[k]] < now)
    && (forall k, l :: 0 <= k < l < |lru| ==> lru[k] < |freed| && lru[l] < |freed| && freed[lru[k]] > freed[lru[l]])
  }

  ghost predicate Inv<B>(s: State<B>, mem: imap<Id, B>) {
    Shaped(s) && Counted(s) && Unique(s.bufs) && Agrees(s.bufs, s.disk, mem) && InOrder(s.lru, s.freed, s.now)
  }

  /** What a step does to the block store: only an update writes. */
  ghost function Effect<B>(s: State<B>, step: Step<B>, mem: imap<Id, B>): (m: imap<Id, B>)
    requires Enabled(s, step)
  {
    if step.Update? then mem[s.handles[step.h].id := step.data] else mem
  }

  // ---------- counting ----------

  lemma {:induction false} RefsAppend(hs: seq<Handle>, x: Handle, i: nat)
    ensures Refs(hs + [x], i) == Refs(hs, i) + if On(x, i) then 1 else 0
  {
    assert (hs + [x])[..|hs|] == hs;
  }

  lemma {:induction false} RefsSet(hs: seq<Handle>, h: nat, x: Handle, i: nat)
    requires h < |hs|
    ensures Refs(hs[h := x], i) + (if On(hs[h], i) then 1 else 0) == Refs(hs, i) + (if On(x, i) then 1 else 0)
  {
    var n := |hs| - 1;
    if h == n {
      assert hs[h := x][..n] == hs[..n];
    } else {
      RefsSet(hs[..n], h, x, i);
      assert hs[h := x][..n] == hs[..n][h := x];
    }
  }

  lemma {:induction false} RefsPositive(hs: seq<Handle>, h: nat, i: nat)
    requires h < |hs| && On(hs[h], i)
    ensures Refs(hs, i) > 0
  {
    if h < |hs| - 1 {
      RefsPositive(hs[..|hs| - 1], h, i);
    }
  }

  // ---------- bget ----------

  /** bget finds the block wherever it is cached, and otherwise takes an unused buffer. */
  lemma {:induction false} TargetIs<B>(s: State<B>, id: Id)
    requires Shaped(s)
    ensures var i := Target(s.bufs, s.lru, id);
      && (i >= 0 && s.bufs[i].id != id ==> Unused(s.bufs[i]) && forall j :: 0 <= j < |s.bufs| ==> s.bufs[j].id != id)
      && (i < 0 ==> forall j :: 0 <= j < |s.bufs| ==> s.bufs[j].id != id && !Unused(s.bufs[j]))
  {
    var p := FindFrom(s.bufs, s.lru, id, 0);
    var v := VictimBelow(s.bufs, s.lru, |s.lru|);
    forall j | 0 <= j < |s.bufs|
      ensures p < 0 ==> s.bufs[j].id != id
      ensures v < 0 ==> !Unused(s.bufs[j])
    {
      assert j in s.lru;
    }
  }

  /** The buffer taken is the unused one released longest ago. */
  lemma {:induction false} VictimIsOldest<B>(s: State<B>, id: Id, j: nat)
    requires Shaped(s) && InOrder(s.lru, s.freed, s.now) && Target(s.bufs, s.lru, id) >= 0 &&
      s.bufs[Target(s.bufs, s.lru, id)].id != id
    requires j < |s.bufs| && Unused(s.bufs[j])
    ensures s.freed[Target(s.bufs, s.lru, id)] <= s.freed[j]
  {
    var v := VictimBelow(s.bufs, s.lru, |s.lru|);
    assert j in s.lru;
    var k :| 0 <= k < |s.lru| && s.lru[k] == j;
    assert k <= v;
  }

  // ---------- every step keeps the invariant ----------

  lemma {:induction false} GetKeepsInv<B>(s: State<B>, id: Id, mem: imap<Id, B>)
    requires Inv(s, mem) && Enabled(s, Get(id))
    ensures Inv(Do(s, Get(id)), mem)
  {
    hide Agrees, Counted, LruOk, InOrder, Target;
    TargetIs(s, id);
    GetCounted(s, id);
    GetAgrees(s, id, mem);
  }

  lemma {:induction false} GetCounted<B>(s: State<B>, id: Id)
    requires Shaped(s) && Counted(s) && Enabled(s, Get(id))
    ensures Counted(Do(s, Get(id)))
  {
    hide Target, LruOk, Refs;
    TargetIs(s, id);
    var i, t := Target(s.bufs, s.lru, id), Do(s, Get(id));
    forall j | 0 <= j < |t.bufs|
      ensures t.bufs[j].refcnt == Refs(t.handles, j)
    {
      RefsAppend(s.handles, Waiting(i, id), j);
    }
    forall h | 0 <= h < |s.handles| && !s.handles[h].Released?
      ensures t.bufs[s.handles[h].buf].id == s.handles[h].id
    {
      RefsPositive(s.handles, h, s.handles[h].buf);
    }
  }

  lemma {:induction false} GetAgrees<B>(s: State<B>, id: Id, mem: imap<Id, B>)
    requires Shaped(s) && Agrees(s.bufs, s.disk, mem) && Unique(s.bufs) && Enabled(s, Get(id))
    ensures Agrees(Do(s, Get(id)).bufs, s.disk, mem)
  {
    hide Target, LruOk, Agrees, BufAgrees;
    TargetIs(s, id);
    var i := Target(s.bufs, s.lru, id);
    var b := s.bufs[i];
    if b.id == id {
      BusyAgrees(s.bufs, s.disk, mem, i, Grab(b));
    } else {
      RecycleAgrees(s.bufs, s.disk, mem, i, id);
    }
  }

  lemma {:induction false} CachedSet<B>(bufs: seq<Buf<B>>, i: nat, b: Buf<B>, id: Id)
    requires i < |bufs|
    ensures Cached(bufs, id) ==> id == bufs[i].id || Cached(bufs[i := b], id)
  {
    if Cached(bufs, id) && id != bufs[i].id {
      var j :| 0 <= j < |bufs| && bufs[j].id == id;
      assert bufs[i := b][j].id == id;
    }
  }

  /** A buffer that keeps its block: only that block's contents may change. */
  lemma {:induction false} AgreesSet<B>(bufs: seq<Buf<B>>, disk: imap<Id, B>, mem: imap<Id, B>, i: nat, b: Buf<B>,
      disk2: imap<Id, B>, mem2: imap<Id, B>)
    requires Agrees(bufs, disk, mem) && Unique(bufs) && i < |bufs| && b.id == bufs[i].id
    requires forall id :: id in disk2 && id in mem2
    requires forall id :: id != b.id ==> disk2[id] == disk[id] && mem2[id] == mem[id]
    requires b.id != BOOT ==> BufAgrees(b, disk2, mem2)
    ensures Agrees(bufs[i := b], disk2, mem2)
  {
    var t := bufs[i := b];
    forall j | 0 <= j < |t| && t[j].id != BOOT
      ensures BufAgrees(t[j], disk2, mem2)
    {
      assert j != i ==> bufs[j].id != bufs[i].id;
      assert BufAgrees(bufs[j], disk, mem);
    }
    forall id: Id | id != BOOT && !Cached(t, id)
      ensures disk2[id] == mem2[id]
    {
      assert t[i].id == b.id;
      CachedSet(bufs, i, b, id);
    }
  }

  /** A buffer that changes neither its contents nor its flags. */
  lemma {:induction false} BusyAgrees<B>(bufs: seq<Buf<B>>, disk: imap<Id, B>, mem: imap<Id, B>, i: nat, b: Buf<B>)
    requires Agrees(bufs, disk, mem) && Unique(bufs) && i < |bufs|
    requires b.id == bufs[i].id && b.valid == bufs[i].valid && b.dirty == bufs[i].dirty && b.data == bufs[i].data
    ensures Agrees(bufs[i := b], disk, mem)
  {
    AgreesSet(bufs, disk, mem, i, b, disk, mem);
  }

  /** Recycling an unused buffer for a block that is not cached loses nothing. */
  lemma {:induction false} RecycleAgrees<B>(bufs: seq<Buf<B>>, disk: imap<Id, B>, mem: imap<Id, B>, i: nat, id: Id)
    requires Agrees(bufs, disk, mem) && i < |bufs| && Unused(bufs[i])
    requires forall j :: 0 <= j < |bufs| ==> bufs[j].id != id
    ensures Agrees(bufs[i := Recycle(bufs[i], id)], disk, mem)
  {
    var t := bufs[i := Recycle(bufs[i], id)];
    assert !Cached(bufs, id);
    assert bufs[i].id != BOOT ==> BufAgrees(bufs[i], disk, mem);
    forall j | 0 <= j < |t| && t[j].id != BOOT
      ensures BufAgrees(t[j], disk, mem)
    {
      assert j != i ==> BufAgrees(bufs[j], disk, mem);
    }
    forall x: Id | x != BOOT && !Cached(t, x)
      ensures disk[x] == mem[x]
    {
      CachedSet(bufs, i, Recycle(bufs[i], id), x);
    }
  }

  lemma {:induction false} LockKeepsInv<B>(s: State<B>, h: nat, mem: imap<Id, B>)
    requires Inv(s, mem) && Enabled(s, Lock(h))
    ensures Inv(Do(s, Lock(h)), mem)
  {
    hide LruOk, InOrder, Agrees, Refs;
    var t := Do(s, Lock(h));
    forall j | 0 <= j < |t.bufs|
      ensures t.bufs[j].refcnt == Refs(t.handles, j)
    {
      RefsSet(s.handles, h, t.handles[h], j);
    }
  }

  lemma {:induction false} UnlockKeepsInv<B>(s: State<B>, h: nat, mem: imap<Id, B>)
    requires Inv(s, mem) && Enabled(s, Unlock(h))
    ensures Inv(Do(s, Unlock(h)), mem)
  {
    hide LruOk, InOrder, Agrees, Refs;
    var t := Do(s, Unlock(h));
    forall j | 0 <= j < |t.bufs|
      ensures t.bufs[j].refcnt == Refs(t.handles, j)
    {
      RefsSet(s.handles, h, t.handles[h], j);
    }
  }

  lemma {:induction false} BufOf<B>(bufs: seq<Buf<B>>, disk: imap<Id, B>, mem: imap<Id, B>, i: nat)
    requires Agrees(bufs, disk, mem) && i < |bufs|
    ensures forall id :: id in mem && id in disk
    ensures bufs[i].id != BOOT ==> BufAgrees(bufs[i], disk, mem)
  {
  }

  lemma {:induction false} FillKeepsInv<B>(s: State<B>, h: nat, mem: imap<Id, B>)
    requires Inv(s, mem) && Enabled(s, Fill(h))
    ensures Inv(Do(s, Fill(h)), mem)
  {
    hide LruOk, InOrder, Refs, Agrees;
    var i := s.handles[h].buf;
    var b := s.bufs[i];
    BufOf(s.bufs, s.disk, mem, i);
    AgreesSet(s.bufs, s.disk, mem, i, b.(valid := true, data := s.disk[b.id]), s.disk, mem);
  }

  lemma {:induction false} UpdateKeepsInv<B>(s: State<B>, h: nat, d: B, mem: imap<Id, B>)
    requires Inv(s, mem) && Enabled(s, Update(h, d))
    ensures Inv(Do(s, Update(h, d)), Effect(s, Update(h, d), mem))
  {
    hide LruOk, InOrder, Refs, Agrees;
    var i := s.handles[h].buf;
    var b := s.bufs[i];
    BufOf(s.bufs, s.disk, mem, i);
    AgreesSet(s.bufs, s.disk, mem, i, b.(data := d, dirty := true), s.disk, mem[b.id := d]);
  }

  lemma {:induction false} FlushKeepsInv<B>(s: State<B>, h: nat, mem: imap<Id, B>)
    requires Inv(s, mem) && Enabled(s, Flush(h))
    ensures Inv(Do(s, Flush(h)), mem)
  {
    hide LruOk, InOrder, Refs, Agrees;
    var i := s.handles[h].buf;
    var b := s.bufs[i];
    BufOf(s.bufs, s.disk, mem, i);
    AgreesSet(s.bufs, s.disk, mem, i, b.(dirty := false), s.disk[b.id := b.data], mem);
  }

  lemma {:induction false} ReleaseKeepsInv<B>(s: State<B>, h: nat, mem: imap<Id, B>)
    requires Inv(s, mem) && Enabled(s, Release(h))
    ensures Inv(Do(s, Release(h)), mem)
  {
    hide Agrees, Counted, LruOk, InOrder, ToFront;
    ReleaseCounted(s, h);
    ReleaseAgrees(s, h, mem);
    ReleaseInOrder(s, h);
  }

  lemma {:induction false} ReleaseCounted<B>(s: State<B>, h: nat)
    requires Shaped(s) && Counted(s) && Enabled(s, Release(h))
    ensures Counted(Do(s, Release(h)))
  {
    hide LruOk, Refs, ToFront;
    var t, i := Do(s, Release(h)), s.handles[h].buf;
    RefsPositive(s.handles, h, i);
    forall j | 0 <= j < |t.bufs|
      ensures t.bufs[j].refcnt == Refs(t.handles, j)
    {
      RefsSet(s.handles, h, Released, j);
    }
  }

  lemma {:induction false} ReleaseAgrees<B>(s: State<B>, h: nat, mem: imap<Id, B>)
    requires Shaped(s) && Agrees(s.bufs, s.disk, mem) && Unique(s.bufs) && Enabled(s, Release(h))
    ensures Agrees(Do(s, Release(h)).bufs, s.disk, mem)
  {
    hide LruOk, ToFront, Agrees;
    var i := s.handles[h].buf;
    BusyAgrees(s.bufs, s.disk, mem, i, Do(s, Release(h)).bufs[i]);
  }

  lemma {:induction false} WithoutAt(lru: seq<nat>, p: nat)
    requires p < |lru| && forall k, l :: 0 <= k < l < |lru| ==> lru[k] != lru[l]
    ensures Without(lru, lru[p]) == lru[..p] + lru[p + 1..]
  {
    if p == 0 {
      WithoutOther(lru[1..], lru[0]);
      assert lru[..0] + lru[1..] == lru[1..];
    } else {
      WithoutAt(lru[1..], p - 1);
      assert lru[1..][p - 1] == lru[p];
      assert [lru[0]] + (lru[1..][..p - 1] + lru[1..][p..]) == lru[..p] + lru[p + 1..];
    }
  }

  lemma {:induction false} WithoutOther(lru: seq<nat>, i: nat)
    requires i !in lru
    ensures Without(lru, i) == lru
  {
    if |lru| > 0 {
      assert lru[0] in lru;
      WithoutOther(lru[1..], i);
      assert [lru[0]] + lru[1..] == lru;
    }
  }

  /** Where each entry of the list comes from after brelse's move to the front. */
  lemma {:induction false} ToFrontAt(lru: seq<nat>, p: nat)
    requires p < |lru| && forall k, l :: 0 <= k < l < |lru| ==> lru[k] != lru[l]
    ensures var r := ToFront(lru, lru[p]);
      |r| == |lru| && forall k {:trigger r[k]} :: 0 <= k < |r| ==>
          r[k] == if k == 0 then lru[p] else if k <= p then lru[k - 1] else lru[k]
  {
    WithoutAt(lru, p);
  }

  lemma {:induction false} ReleaseInOrder<B>(s: State<B>, h: nat)
    requires Shaped(s) && InOrder(s.lru, s.freed, s.now) && Enabled(s, Release(h))
    ensures var t := Do(s, Release(h)); LruOk(t.lru, |t.bufs|) && InOrder(t.lru, t.freed, t.now)
  {
    hide ToFront, InOrder, LruOk;
    MoveKeepsOrder(s.lru, s.freed, s.now, s.handles[h].buf);
  }

  lemma {:induction false} MoveKeepsOrder(lru: seq<nat>, freed: seq<nat>, now: nat, i: nat)
    requires LruOk(lru, |freed|) && InOrder(lru, freed, now) && i < |freed|
    ensures LruOk(ToFront(lru, i), |freed|) && InOrder(ToFront(lru, i), freed[i := now], now + 1)
  {
    hide ToFront, Without;
    assert i in lru;
    var p :| 0 <= p < |lru| && lru[p] == i;
    ToFrontAt(lru, p);
    FrontHasAll(lru, i);
  }

  lemma {:induction false} FrontHasAll(lru: seq<nat>, i: nat)
    ensures forall x :: x in lru ==> x in ToFront(lru, i)
  {
  }

  lemma {:induction false} StepKeepsInv<B>(s: State<B>, step: Step<B>, mem: imap<Id, B>)
    requires Inv(s, mem) && Enabled(s, step)
    ensures Inv(Do(s, step), Effect(s, step, mem))
  {
    hide Inv, Do, Enabled;
    match step
    case Get(id) => GetKeepsInv(s, id, mem);
    case Lock(h) => LockKeepsInv(s, h, mem);
    case Fill(h) => FillKeepsInv(s, h, mem);
    case Update(h, d) => UpdateKeepsInv(s, h, d, mem);
    case Flush(h) => FlushKeepsInv(s, h, mem);
    case Unlock(h) => UnlockKeepsInv(s, h, mem);
    case Release(h) => ReleaseKeepsInv(s, h, mem);
  }

  // ---------- runs ----------

  ghost predicate Runs<B>(s: State<B>, steps: seq<Step<B>>)
    decreases |steps|
  {
    |steps| == 0 || (Enabled(s, steps[0]) && Runs(Do(s, steps[0]), steps[1..]))
  }

  ghost function After<B>(s: State<B>, steps: seq<Step<B>>): State<B>
    requires Runs(s, steps)
    decreases |steps|
  {
    if |steps| == 0 then s else After(Do(s, steps[0]), steps[1..])
  }

  /** The block store after a run: each block as its last update left it. */
  ghost function Store<B>(s: State<B>, steps: seq<Step<B>>, mem: imap<Id, B>): imap<Id, B>
    requires Runs(s, steps)
    decreases |steps|
  {
    if |steps| == 0 then mem else Store(Do(s, steps[0]), steps[1..], Effect(s, steps[0], mem))
  }

  lemma {:induction false} RunKeepsInv<B>(s: State<B>, steps: seq<Step<B>>, mem: imap<Id, B>)
    requires Inv(s, mem) && Runs(s, steps)
    ensures Inv(After(s, steps), Store(s, steps, mem))
    decreases |steps|
  {
    hide Inv, Do, Enabled, Effect;
    if |steps| > 0 {
      StepKeepsInv(s, steps[0], mem);
      RunKeepsInv(Do(s, steps[0]), steps[1..], Effect(s, steps[0], mem));
    }
  }

  /** binit's cache: every buffer is for block 0 of device 0 and invalid, the last one in front. */
  ghost predicate Boot<B>(s: State<B>) {
    && |s.lru| == |s.bufs| && s.handles == []
    && (forall i :: 0 <= i < |s.bufs| ==> s.bufs[i].id == Id(0, 0) && !s.bufs[i].valid && !s.bufs[i].dirty && s.bufs[i].refcnt == 0)
    && (forall k :: 0 <= k < |s.lru| ==> s.lru[k] == |s.bufs| - 1 - k)
    && |s.freed| == |s.bufs| && s.now == |s.bufs| && (forall i :: 0 <= i < |s.freed| ==> s.freed[i] == i)
    && (forall id :: id in s.disk)
  }

  lemma {:induction false} BootInv<B>(s: State<B>)
    requires Boot(s)
    ensures Inv(s, s.disk)
  {
    forall i | 0 <= i < |s.bufs|
      ensures i in s.lru
    {
      assert s.lru[|s.bufs| - 1 - i] == i;
    }
  }

  /**
    In every run from boot: a block other than block 0 of device 0 is in at most one buffer; whoever holds a
    buffer after bread holds the block asked for, alone, with the contents of its last update.
   */
  lemma {:induction false} CacheIsCoherent<B>(s: State<B>, steps: seq<Step<B>>)
    requires Boot(s) && Runs(s, steps)
    ensures var t, mem := After(s, steps), Store(s, steps, s.disk);
      && Unique(t.bufs)
      && (forall h :: 0 <= h < |t.handles| && t.handles[h].Holding? ==>
           && t.handles[h].buf < |t.bufs| && t.bufs[t.handles[h].buf].id == t.handles[h].id
           && (t.handles[h].id != BOOT && t.bufs[t.handles[h].buf].valid ==>
                t.handles[h].id in mem && t.bufs[t.handles[h].buf].data == mem[t.handles[h].id]))
      && (forall g, h :: 0 <= g < h < |t.handles| && t.handles[g].Holding? && t.handles[h].Holding? ==>
           t.handles[g].buf != t.handles[h].buf)
  {
    hide Boot, Runs, After, Store;
    BootInv(s);
    RunKeepsInv(s, steps, s.disk);
    var t, mem := After(s, steps), Store(s, steps, s.disk);
    forall h | 0 <= h < |t.handles| && t.handles[h].Holding? && t.handles[h].id != BOOT && t.bufs[t.handles[h].buf].valid
      ensures t.bufs[t.handles[h].buf].data == mem[t.handles[h].id]
    {
      assert BufAgrees(t.bufs[t.handles[h].buf], t.disk, mem);
    }
  }

  /** A buffer that is referenced or dirty keeps its block in every step. */
  lemma {:induction false} BusyBufferIsKept<B>(s: State<B>, step: Step<B>, i: nat)
    requires Enabled(s, step) && i < |s.bufs| && !Unused(s.bufs[i])
    ensures i < |Do(s, step).bufs| && Do(s, step).bufs[i].id == s.bufs[i].id
  {
    hide LruOk, Target, ToFront, Locked;
    if step.Get? {
      TargetIs(s, step.id);
    }
  }

  /** Only bwrite changes the disk, and only the block of the buffer it holds. */
  lemma {:induction false} OnlyFlushWrites<B>(s: State<B>, step: Step<B>, id: Id)
    requires Enabled(s, step) && Counted(s)
    requires Do(s, step).disk[id] != s.disk[id]
    ensures step.Flush? && s.handles[step.h].id == id
  {
    hide LruOk, Target, ToFront, Locked, Refs;
  }

  ghost predicate Twice<B>(bufs: seq<Buf<B>>, id: Id) {
    exists i, j :: 0 <= i < j < |bufs| && bufs[i].id == bufs[j].id == id
  }

  /** The exception is exact: a block is in two buffers in some run if and only if it is block 0 of device 0. */
  lemma {:induction false} DuplicatedIff<B(!new)>(s: State<B>, id: Id)
    requires Boot(s) && |s.bufs| > 1
    ensures (exists steps: seq<Step<B>> :: Runs(s, steps) && Twice(After(s, steps).bufs, id)) <==> id == BOOT
  {
    hide Runs, After, Twice;
    if id == BOOT {
      BootHasDuplicates(s);
      assert Runs(s, []) && After(s, []) == s by { EmptyRun(s); }
    }
    forall steps: seq<Step<B>> | Runs(s, steps)
      ensures Twice(After(s, steps).bufs, id) ==> id == BOOT
    {
      CacheIsCoherent(s, steps);
      TwiceIsBoot(After(s, steps).bufs, id);
    }
  }

  lemma {:induction false} EmptyRun<B>(s: State<B>)
    ensures Runs(s, []) && After(s, []) == s
  {
  }

  lemma {:induction false} TwiceIsBoot<B>(bufs: seq<Buf<B>>, id: Id)
    requires Unique(bufs)
    ensures Twice(bufs, id) ==> id == BOOT
  {
  }

  /** Right after boot every buffer is for that block. */
  lemma {:induction false} BootHasDuplicates<B>(s: State<B>)
    requires Boot(s)
    ensures forall i :: 0 <= i < |s.bufs| ==> s.bufs[i].id == BOOT
    ensures |s.bufs| > 1 ==> Twice(s.bufs, BOOT)
  {
    if |s.bufs| > 1 {
      assert s.bufs[0].id == s.bufs[1].id;
    }
  }

  /** bget panics exactly when the block is not cached and every buffer is referenced or dirty. */
  lemma {:induction false} NoBuffersIff<B>(s: State<B>, id: Id)
    requires Shaped(s)
    ensures !Enabled(s, Get(id)) <==> forall i :: 0 <= i < |s.bufs| ==> s.bufs[i].id != id && !Unused(s.bufs[i])
  {
    TargetIs(s, id);
  }
}
