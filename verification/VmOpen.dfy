/**
  Which pages keep the user out (vm.c): over every run only those that clearpteu was called on, in their
  process or in one that it descends from. Every other page can be stored to, after one trap at most.
 */
module VmOpen {
  import opened Common
  import opened Params
  import opened Frames
  import opened Tables
  import opened Vm
  import opened VmGrow
  import opened VmFork
  import opened VmRun
  import opened VmGuard

  /** The user can store to a page that a process has just been given. */
  lemma {:induction false} GrowOpens<C>(m: Machine<C>, pid: nat, victim: nat, zero: C, junk: C)
    requires Inv(m) && pid in m.pts && Sane(m, pid) && victim < MAX_PSYC_PAGES
    requires |m.pts[pid]| < MAX_TOTAL_PAGES && m.k.free != []
    ensures Grow(m, pid, victim, zero, junk).Handled?
    ensures CanStore(Grow(m, pid, victim, zero, junk).m, pid, |m.pts[pid]|)
  {
    hide Inv, Sane, Grow, FirstFree, Kfree, WriteSlot, FrameInv, TableInv;
    CanGrow(m, pid, victim, zero, junk);
    SaneFrames(m, pid);
    if FirstFree(m.tabs[pid].mem) < 0 {
      GrowEvicts(m, pid, victim, zero, junk);
    } else {
      GrowPlain(m, pid, victim, zero, junk);
    }
  }

  /** What a caller of allocuvm gets for a page: a zero page that it can store to. */
  lemma {:induction false} GrowGives<C>(m: Machine<C>, pid: nat, victim: nat, zero: C, junk: C)
    requires Inv(m) && Sane(m, pid) && victim < MAX_PSYC_PAGES && |m.pts[pid]| < MAX_TOTAL_PAGES && m.k.free != []
    ensures Grow(m, pid, victim, zero, junk).Handled?
    ensures var m' := Grow(m, pid, victim, zero, junk).m;
      Inv(m') && CanStore(m', pid, |m.pts[pid]|) && Page(m', pid, |m.pts[pid]|) == Some(zero)
  {
    hide Inv, Grow, Page, CanStore;
    GrowOpens(m, pid, victim, zero, junk);
    GrowKeepsInv(m, pid, victim, zero, junk);
    NewPageIsZero(m, pid, victim, zero, junk);
  }

  // ---------- The pages clearpteu was called on ----------

  /** The guard pages after a step; fork hands them on to the child. */
  ghost function Name<C>(named: set<(nat, nat)>, st: Step<C>): set<(nat, nat)> {
    match st
    case GuardPage(pid, va) => named + {(pid, va)}
    case ForkProc(pid, child) => named + Inherited(named, pid, child)
    case FreeProc(pid) => set x | x in named && x.0 != pid
    case _ => named
  }

  ghost function Inherited(named: set<(nat, nat)>, pid: nat, child: nat): set<(nat, nat)> {
    set x | x in named && x.0 == pid :: (child, x.1)
  }

  ghost function Named<C>(steps: seq<Step<C>>): set<(nat, nat)> {
    if steps == [] then {} else Name(Named(steps[..|steps| - 1]), steps[|steps| - 1])
  }

  /** A resident page without PTE_U is a guard page. */
  ghost predicate OnlyNamed<C>(m: Machine<C>, named: set<(nat, nat)>) {
    forall q: nat, v: nat {:trigger m.pts[q][v]} :: q in m.pts && v < |m.pts[q]| && m.pts[q][v].p && !m.pts[q][v].u ==> (q, v) in named
  }

  lemma {:induction false} PutKeepsNamed<C>(m: Machine<C>, m': Machine<C>, q: nat, v: nat, pte: Pte, named: set<(nat, nat)>)
    requires OnlyNamed(m, named) && q in m.pts && v <= |m.pts[q]| && m'.pts == Put(m.pts, q, v, pte)
    requires pte.p ==> pte.u || (v < |m.pts[q]| && m.pts[q][v].p && pte.u == m.pts[q][v].u)
    ensures OnlyNamed(m', named)
  {
  }

  lemma {:induction false} TrapKeepsNamed<C>(m: Machine<C>, q: nat, v: nat, victim: nat, junk: C, named: set<(nat, nat)>)
    requires Inv(m) && OnlyNamed(m, named)
    requires q in m.pts && v < |m.pts[q]| && victim < MAX_PSYC_PAGES && Sane(m, q) && Trap(m, q, v, victim, junk).Handled?
    ensures OnlyNamed(Trap(m, q, v, victim, junk).m, named)
  {
    hide Inv, OnlyNamed, FirstFree, FirstWithVa, Kfree, WriteSlot, Put;
    var m' := Trap(m, q, v, victim, junk).m;
    if HandlePf(m, q, v, victim, junk).Handled? {
      hide HandlePf, Sane;
      PfResult(m, q, v, victim, junk);
      var pt, out, f := m.pts[q], m.tabs[q].mem[victim].va, m.k.free[0];
      var n := m.(pts := Put(m.pts, q, v, ToMemory(pt[v], f)));
      PutKeepsNamed(m, n, q, v, ToMemory(pt[v], f), named);
      PutSize(m.pts, q, v, ToMemory(pt[v], f));
      PutKeepsNamed(n, m', q, out, ToDisk(pt[out]), named);
    } else {
      NotPagedOut(m, q, v, victim, junk);
      CowKeepsNamed(m, q, v, named);
    }
  }

  lemma {:induction false} CowKeepsNamed<C>(m: Machine<C>, q: nat, v: nat, named: set<(nat, nat)>)
    requires OnlyNamed(m, named) && Sane(m, q) && v < |m.pts[q]| && m.pts[q][v].p && HandleCow(m, q, v).Handled?
    ensures OnlyNamed(HandleCow(m, q, v).m, named)
  {
    hide OnlyNamed;
    var m' := HandleCow(m, q, v).m;
    PutKeepsNamed(m, m', q, v, m'.pts[q][v], named);
  }

  lemma {:induction false} PutSize(pts: PageTables, q: nat, v: nat, pte: Pte)
    requires q in pts && v <= |pts[q]|
    ensures q in Put(pts, q, v, pte) && |Put(pts, q, v, pte)[q]| == if v < |pts[q]| then |pts[q]| else v + 1
  {
  }

  lemma {:induction false} GrowKeepsNamed<C>(m: Machine<C>, q: nat, victim: nat, zero: C, junk: C, named: set<(nat, nat)>)
    requires Inv(m) && OnlyNamed(m, named)
    requires q in m.pts && Sane(m, q) && victim < MAX_PSYC_PAGES && |m.pts[q]| < MAX_TOTAL_PAGES && m.k.free != []
    ensures Grow(m, q, victim, zero, junk).Handled? && OnlyNamed(Grow(m, q, victim, zero, junk).m, named)
  {
    hide Inv, OnlyNamed, Sane, Grow, FirstFree, Kfree, WriteSlot, Put;
    SaneFrames(m, q);
    CanGrow(m, q, victim, zero, junk);
    var m', pt, pte := Grow(m, q, victim, zero, junk).m, m.pts[q], NewPte(m.k.free[0]);
    if FirstFree(m.tabs[q].mem) < 0 {
      GrowEvicts(m, q, victim, zero, junk);
      var out := m.tabs[q].mem[victim].va;
      var n := m.(pts := Put(m.pts, q, |pt|, pte));
      PutKeepsNamed(m, n, q, |pt|, pte, named);
      PutSize(m.pts, q, |pt|, pte);
      PutKeepsNamed(n, m', q, out, ToDisk(pt[out]), named);
    } else {
      GrowPlain(m, q, victim, zero, junk);
      PutKeepsNamed(m, m', q, |pt|, pte, named);
    }
  }

  lemma {:induction false} ForkKeepsNamed<C>(m: Machine<C>, q: nat, child: nat, named: set<(nat, nat)>)
    requires OnlyNamed(m, named) && child !in m.pts && Forkable(m, q) && Fork(m, q, child).Handled?
    ensures OnlyNamed(Fork(m, q, child).m, named + Inherited(named, q, child))
  {
    hide ForkPages, UsedArePrefix, CopySwap, Fork;
    ForkIsPages(m, q, child);
    var m' := Fork(m, q, child).m;
    forall r: nat, v: nat {:trigger m'.pts[r][v]} | r in m'.pts && v < |m'.pts[r]| && m'.pts[r][v].p && !m'.pts[r][v].u
      ensures (r, v) in named + Inherited(named, q, child)
    {
      if r == child {
        assert SamePlace(m'.pts[child][v], m.pts[q][v]);
        assert (q, v) in named;
        assert (child, (q, v).1) in Inherited(named, q, child);
      } else if r == q {
        assert SamePlace(m'.pts[q][v], m.pts[q][v]);
      } else {
        assert m'.pts[r][v] == m.pts[r][v];
      }
    }
  }

  lemma {:induction false} FreeKeepsNamed<C>(m: Machine<C>, q: nat, junk: C, named: set<(nat, nat)>)
    requires OnlyNamed(m, named) && q in m.pts && EntriesInRange(m.k, m.pts[q])
    ensures OnlyNamed(Free(m, q, junk), set x | x in named && x.0 != q)
  {
    hide FreePages;
  }

  lemma {:induction false} ClearKeepsNamed<C>(m: Machine<C>, q: nat, v: nat, named: set<(nat, nat)>)
    requires OnlyNamed(m, named) && q in m.pts && v < |m.pts[q]|
    ensures OnlyNamed(ClearUser(m, q, v), named + {(q, v)})
  {
  }

  lemma {:induction false} StoreKeepsNamed<C>(m: Machine<C>, q: nat, v: nat, c: C, named: set<(nat, nat)>)
    requires OnlyNamed(m, named) && CanStore(m, q, v)
    ensures OnlyNamed(Store(m, q, v, c), named)
  {
  }

  lemma {:induction false} StepKeepsNamed<C>(m: Machine<C>, st: Step<C>, m': Machine<C>, zero: C, junk: C, named: set<(nat, nat)>)
    requires Inv(m) && Takes(m, st, m', zero, junk) && OnlyNamed(m, named)
    ensures OnlyNamed(m', Name(named, st))
  {
    hide Inv, Sane, Trap, Grow, Fork, Free, Forkable, EntriesInRange, OnlyNamed, CanStore, ClearUser, Store;
    match st {
      case UserStore(q, v, c) => StoreKeepsNamed(m, q, v, c, named);
      case Fault(q, v, victim) => TrapKeepsNamed(m, q, v, victim, junk, named);
      case GrowPage(q, victim) =>
        GrowNeedsFrame(m, q, victim, zero, junk);
        GrowKeepsNamed(m, q, victim, zero, junk, named);
      case ForkProc(q, child) => ForkKeepsNamed(m, q, child, named);
      case FreeProc(q) => FreeKeepsNamed(m, q, junk, named);
      case GuardPage(q, v) => ClearKeepsNamed(m, q, v, named);
    }
  }

  lemma {:induction false} RunKeepsNamed<C>(ms: seq<Machine<C>>, steps: seq<Step<C>>, ram: seq<C>, pid: nat, zero: C, junk: C)
    requires Run(ms, steps, zero, junk) && ms[0] == Boot(ram, pid, junk)
    ensures Inv(ms[|steps|]) && OnlyNamed(ms[|steps|], Named(steps))
    decreases |steps|
  {
    hide Inv, Shows, Takes, Boot, Name, OnlyNamed;
    Transparent(ms, steps, ram, pid, zero, junk);
    var n := |steps|;
    if n == 0 {
      BootKeepsOut(ram, pid, junk);
    } else {
      RunKeepsNamed(ms[..n], steps[..n - 1], ram, pid, zero, junk);
      StepKeepsNamed(ms[n - 1], steps[n - 1], ms[n], zero, junk, Named(steps[..n - 1]));
    }
  }

  lemma {:induction false} BootKeepsOut<C>(ram: seq<C>, pid: nat, junk: C)
    ensures OnlyNamed(Boot(ram, pid, junk), {})
  {
  }

  /**
    In every state of every run from boot: a page that keeps the user out is one that clearpteu was called
    on, in its process or in one it was forked from; every other page takes a store, at once or after one
    trap, while a frame is free.
   */
  lemma {:induction false} OnlyGuardsAreClosed<C>(ms: seq<Machine<C>>, steps: seq<Step<C>>, ram: seq<C>, pid: nat, zero: C, junk: C,
      q: nat, v: nat, victim: nat)
    requires Run(ms, steps, zero, junk) && ms[0] == Boot(ram, pid, junk)
    requires q in ms[|steps|].pts && v < |ms[|steps|].pts[q]| && victim < MAX_PSYC_PAGES && (q, v) !in Named(steps)
    ensures var m := ms[|steps|];
      Sane(m, q) && !Closed(m, q, v) && (m.k.free != [] ==> Reached(m, q, v, victim, junk))
  {
    hide Inv, Takes, Boot, Sane, Reached;
    RunKeepsNamed(ms, steps, ram, pid, zero, junk);
    var m := ms[|steps|];
    InvIsSane(m, q);
    if m.k.free != [] {
      ReachedIff(m, q, v, victim, junk);
    }
  }
}
