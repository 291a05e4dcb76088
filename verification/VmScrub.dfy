/**
  What free memory holds (kalloc.c): over every run each frame on the free list is filled with kfree's
  junk, so that no page's contents outlive it in a frame nobody owns.
 */
module VmScrub {
  import opened Common
  import opened Params
  import opened Frames
  import opened Tables
  import opened Vm
  import opened VmGrow
  import opened VmFork
  import opened VmRun
  import opened VmGuard

  ghost predicate Scrubbed<C>(k: Kmem<C>, junk: C) {
    forall i :: 0 <= i < |k.free| ==> k.free[i] < |k.ram| && k.ram[k.free[i]] == junk
  }

  lemma {:induction false} KfreeScrubs<C>(k: Kmem<C>, f: nat, junk: C)
    requires f < |k.refs| && f < |k.ram| && Scrubbed(k, junk)
    ensures Scrubbed(Kfree(k, f, junk), junk)
  {
  }

  /** A frame that leaves the free list may be written. */
  lemma {:induction false} AllocScrubbed<C>(k: Kmem<C>, c: C, junk: C)
    requires FreeListOk(k) && CanAlloc(k) && Scrubbed(k, junk)
    ensures var f, k1 := k.free[0], Kalloc(k); f < |k1.ram| && Scrubbed(k1, junk) && Scrubbed(k1.(ram := k1.ram[f := c]), junk)
  {
  }

  /** A frame in use may be written. */
  lemma {:induction false} WriteScrubbed<C>(k: Kmem<C>, f: nat, c: C, junk: C)
    requires f < |k.ram| && f !in k.free && Scrubbed(k, junk)
    ensures Scrubbed(k.(ram := k.ram[f := c]), junk)
  {
  }

  lemma {:induction false} MappedNotFree<C>(m: Machine<C>, pid: nat, va: nat)
    requires Inv(m) && pid in m.pts && va < |m.pts[pid]| && m.pts[pid][va].p
    ensures m.pts[pid][va].addr < |m.k.ram| && m.pts[pid][va].addr !in m.k.free
  {
    hide TableInv;
    HasMapper(m.k, m.pts, pid, va);
  }

  lemma {:induction false} TakenNotFree<C>(k: Kmem<C>, g: nat, junk: C)
    requires FreeListOk(k) && CanAlloc(k) && g < |k.refs| && g < |k.ram| && g != k.free[0]
    ensures g < |Kalloc(k).refs| && g < |Kalloc(k).ram| && k.free[0] !in Kfree(Kalloc(k), g, junk).free
  {
  }

  lemma {:induction false} InvLists<C>(m: Machine<C>)
    requires Inv(m)
    ensures FreeListOk(m.k)
  {
    hide TableInv, Counted, PtesOk;
  }

  lemma {:induction false} TrapScrubbed<C>(m: Machine<C>, q: nat, v: nat, victim: nat, junk: C)
    requires Inv(m) && Scrubbed(m.k, junk)
    requires q in m.pts && v < |m.pts[q]| && victim < MAX_PSYC_PAGES && Sane(m, q) && Trap(m, q, v, victim, junk).Handled?
    ensures Scrubbed(Trap(m, q, v, victim, junk).m.k, junk)
  {
    hide Inv, Scrubbed, FirstFree, FirstWithVa, Kfree, WriteSlot, Put, Kalloc, FreeListOk;
    InvLists(m);
    if HandlePf(m, q, v, victim, junk).Handled? {
      hide HandlePf, Sane;
      PfResult(m, q, v, victim, junk);
      var out, f := m.tabs[q].mem[victim].va, m.k.free[0];
      var g := m.pts[q][out].addr;
      MappedNotFree(m, q, out);
      AllocScrubbed(m.k, junk, junk);
      TakenNotFree(m.k, g, junk);
      KfreeScrubs(Kalloc(m.k), g, junk);
      WriteScrubbed(Kfree(Kalloc(m.k), g, junk), f, m.tabs[q].swap[FirstWithVa(m.tabs[q].file, v)], junk);
    } else {
      NotPagedOut(m, q, v, victim, junk);
      CowScrubbed(m, q, v, junk);
    }
  }

  lemma {:induction false} CowScrubbed<C>(m: Machine<C>, q: nat, v: nat, junk: C)
    requires Scrubbed(m.k, junk) && FreeListOk(m.k) && Sane(m, q) && v < |m.pts[q]| && m.pts[q][v].p && HandleCow(m, q, v).Handled?
    ensures Scrubbed(HandleCow(m, q, v).m.k, junk)
  {
    if m.k.refs[m.pts[q][v].addr] > 1 {
      AllocScrubbed(m.k, m.k.ram[m.pts[q][v].addr], junk);
    }
  }

  lemma {:induction false} GrowScrubbed<C>(m: Machine<C>, q: nat, victim: nat, zero: C, junk: C)
    requires Inv(m) && Scrubbed(m.k, junk)
    requires q in m.pts && Sane(m, q) && victim < MAX_PSYC_PAGES && |m.pts[q]| < MAX_TOTAL_PAGES && m.k.free != []
    ensures Grow(m, q, victim, zero, junk).Handled? && Scrubbed(Grow(m, q, victim, zero, junk).m.k, junk)
  {
    hide Inv, Scrubbed, Sane, Grow, FirstFree, Kfree, WriteSlot, Put, FreeListOk;
    SaneFrames(m, q);
    InvLists(m);
    AllocScrubbed(m.k, zero, junk);
    if FirstFree(m.tabs[q].mem) < 0 {
      GrowEvicts(m, q, victim, zero, junk);
      var k1 := Kalloc(m.k).(ram := Kalloc(m.k).ram[m.k.free[0] := zero]);
      KfreeScrubs(k1, m.pts[q][m.tabs[q].mem[victim].va].addr, junk);
    } else {
      GrowTakes(m, q, victim, zero, junk);
    }
  }

  lemma {:induction false} GrowTakes<C>(m: Machine<C>, q: nat, victim: nat, zero: C, junk: C)
    requires Sane(m, q) && victim < MAX_PSYC_PAGES && m.k.free != [] && FirstFree(m.tabs[q].mem) >= 0
    ensures CanAlloc(m.k) && m.k.free[0] < |m.k.ram| && Grow(m, q, victim, zero, junk).Handled?
    ensures Grow(m, q, victim, zero, junk).m.k == var k1 := Kalloc(m.k); k1.(ram := k1.ram[m.k.free[0] := zero])
  {
    hide FirstFree;
  }

  lemma {:induction false} ForkKeepsFree<C>(k: Kmem<C>, pts: PageTables, parent: nat, child: nat, n: nat)
    requires parent in pts && child !in pts && n <= |pts[parent]| && EntriesOk(k, pts[parent])
    ensures ForkPages(k, pts, parent, child, n).0.free == k.free
    decreases n
  {
    if n > 0 {
      ForkKeepsFree(k, pts, parent, child, n - 1);
    }
  }

  lemma {:induction false} ForkScrubbed<C>(m: Machine<C>, q: nat, child: nat, junk: C)
    requires Scrubbed(m.k, junk) && child !in m.pts && Forkable(m, q) && Fork(m, q, child).Handled?
    ensures Scrubbed(Fork(m, q, child).m.k, junk)
  {
    hide ForkPages, UsedArePrefix, CopySwap, Fork;
    ForkIsPages(m, q, child);
    ForkKeepsFree(m.k, m.pts, q, child, |m.pts[q]|);
  }

  lemma {:induction false} FreePagesScrub<C>(k: Kmem<C>, pts: PageTables, pid: nat, n: nat, junk: C)
    requires pid in pts && n <= |pts[pid]| && EntriesInRange(k, pts[pid]) && Scrubbed(k, junk)
    ensures Scrubbed(FreePages(k, pts, pid, n, junk).0, junk)
    decreases n
  {
    hide Scrubbed, Kfree;
    if n > 0 {
      FreePagesScrub(k, pts, pid, n - 1, junk);
      var (k1, pts1) := FreePages(k, pts, pid, n - 1, junk);
      if pts1[pid][n - 1].p {
        KfreeScrubs(k1, pts1[pid][n - 1].addr, junk);
      }
    }
  }

  lemma {:induction false} StepScrubbed<C>(m: Machine<C>, st: Step<C>, m': Machine<C>, zero: C, junk: C)
    requires Inv(m) && Takes(m, st, m', zero, junk) && Scrubbed(m.k, junk)
    ensures Scrubbed(m'.k, junk)
  {
    hide Inv, Sane, Trap, Grow, Fork, FreePages, Forkable, EntriesInRange, Scrubbed;
    match st {
      case UserStore(q, v, c) =>
        MappedNotFree(m, q, v);
        WriteScrubbed(m.k, m.pts[q][v].addr, c, junk);
      case Fault(q, v, victim) => TrapScrubbed(m, q, v, victim, junk);
      case GrowPage(q, victim) =>
        GrowNeedsFrame(m, q, victim, zero, junk);
        GrowScrubbed(m, q, victim, zero, junk);
      case ForkProc(q, child) => ForkScrubbed(m, q, child, junk);
      case FreeProc(q) => FreePagesScrub(m.k, m.pts, q, |m.pts[q]|, junk);
      case GuardPage(q, v) =>
    }
  }

  lemma {:induction false} RangeScrubbed<C>(ram: seq<C>, n: nat, junk: C)
    requires n <= |ram|
    ensures Scrubbed(FreeRange(ram, n, junk), junk)
    decreases n
  {
    hide Scrubbed, Kfree;
    if n == 0 {
      NoneFree(FreeRange(ram, n, junk), junk);
    } else {
      RangeScrubbed(ram, n - 1, junk);
      KfreeScrubs(FreeRange(ram, n - 1, junk), n - 1, junk);
    }
  }

  lemma {:induction false} NoneFree<C>(k: Kmem<C>, junk: C)
    ensures k.free == [] ==> Scrubbed(k, junk)
  {
  }

  /** In every state of every run from boot, every free frame holds junk and nothing else. */
  lemma {:induction false} FreeFramesAreJunk<C>(ms: seq<Machine<C>>, steps: seq<Step<C>>, ram: seq<C>, pid: nat, zero: C, junk: C)
    requires Run(ms, steps, zero, junk) && ms[0] == Boot(ram, pid, junk)
    ensures Inv(ms[|steps|]) && Scrubbed(ms[|steps|].k, junk)
    decreases |steps|
  {
    hide Inv, Shows, Takes, Scrubbed, FreeRange;
    Transparent(ms, steps, ram, pid, zero, junk);
    var n := |steps|;
    if n == 0 {
      RangeScrubbed(ram, |ram|, junk);
    } else {
      FreeFramesAreJunk(ms[..n], steps[..n - 1], ram, pid, zero, junk);
      StepScrubbed(ms[n - 1], steps[n - 1], ms[n], zero, junk);
    }
  }
}
