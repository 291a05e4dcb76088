/**
  The guard page below the stack: clearpteu takes PTE_U from it so that no user access gets through
  (vm.c, exec.c). handle_pf and the copying branch of handle_cow set PTE_U again.
 */
module VmGuard {
  import opened Params
  import opened Frames
  import opened Tables
  import opened Vm
  import opened VmGrow
  import opened VmFork
  import opened VmRun

  /** A page that keeps the user out: resident, without PTE_U, in a frame of its own. */
  ghost predicate Closed<C>(m: Machine<C>, pid: nat, va: nat) {
    && pid in m.pts && va < |m.pts[pid]|
    && var pte := m.pts[pid][va]; pte.p && !pte.u && pte.addr < |m.k.refs| && m.k.refs[pte.addr] == 1
  }

  /** A user store gets through, at once or after one trap. */
  ghost predicate Reached<C>(m: Machine<C>, pid: nat, va: nat, victim: nat, junk: C)
    requires Sane(m, pid) && va < |m.pts[pid]| && victim < MAX_PSYC_PAGES
  {
    CanStore(m, pid, va) || (Trap(m, pid, va, victim, junk).Handled? && CanStore(Trap(m, pid, va, victim, junk).m, pid, va))
  }

  /** A user store gets through to a page if and only if the page is not closed. */
  lemma {:induction false} ReachedIff<C>(m: Machine<C>, pid: nat, va: nat, victim: nat, junk: C)
    requires Inv(m) && Sane(m, pid) && va < |m.pts[pid]| && victim < MAX_PSYC_PAGES && m.k.free != []
    ensures Reached(m, pid, va, victim, junk) <==> !Closed(m, pid, va)
  {
    hide TableInv, FirstFree, FirstWithVa;
    InvIsSane(m, pid);
    if m.pts[pid][va].p {
      HasMapper(m.k, m.pts, pid, va);
      assert PteOk(m.k, m.pts[pid][va]);
    } else {
      FaultIsHandled(m, pid, va, victim, junk);
    }
  }

  /** Neither handler takes a fault, so that the trap ends in its segmentation fault, if and only if the page
      is resident and writable already. */
  lemma {:induction false} RefusedIff<C>(m: Machine<C>, pid: nat, va: nat, victim: nat, junk: C)
    requires Inv(m) && Sane(m, pid) && va < |m.pts[pid]| && victim < MAX_PSYC_PAGES
    ensures Trap(m, pid, va, victim, junk).NotHandled? <==> m.pts[pid][va].p && m.pts[pid][va].w
  {
    hide TableInv, FirstFree, FirstWithVa, Kfree, WriteSlot;
    SaneOf(m, pid, va);
    assert PteOk(m.k, m.pts[pid][va]);
  }

  /** clearpteu closes a resident page that is not shared. */
  lemma {:induction false} ClearUserCloses<C>(m: Machine<C>, pid: nat, va: nat)
    requires Inv(m) && pid in m.pts && va < |m.pts[pid]|
    ensures Closed(ClearUser(m, pid, va), pid, va) <==>
      m.pts[pid][va].p && m.pts[pid][va].addr < |m.k.refs| && m.k.refs[m.pts[pid][va].addr] == 1
  {
    hide Inv;
  }

  // ---------- What opens a closed page ----------

  /** The step pages the page out, shares it, or ends its process. */
  ghost predicate Uncloses<C>(m: Machine<C>, st: Step<C>, pid: nat, va: nat) {
    && st.pid == pid && pid in m.pts && pid in m.tabs && |m.tabs[pid].mem| == MAX_PSYC_PAGES
    && match st
       case Fault(_, v, victim) =>
         v < |m.pts[pid]| && !m.pts[pid][v].p && victim < MAX_PSYC_PAGES && m.tabs[pid].mem[victim].va == va
       case GrowPage(_, victim) =>
         FirstFree(m.tabs[pid].mem) < 0 && victim < MAX_PSYC_PAGES && m.tabs[pid].mem[victim].va == va
       case ForkProc(_, _) => true
       case FreeProc(_) => true
       case _ => false
  }

  /** A frame with one mapper that nobody else comes to map keeps its count. */
  lemma {:induction false} StillAlone<C>(m: Machine<C>, m': Machine<C>, pid: nat, va: nat)
    requires Inv(m) && Inv(m') && Closed(m, pid, va)
    requires pid in m'.pts && va < |m'.pts[pid]| && m'.pts[pid][va].p && m'.pts[pid][va].addr == m.pts[pid][va].addr
    requires forall q: nat, v: nat {:trigger m'.pts[q][v]} ::
      q in m'.pts && v < |m'.pts[q]| && m'.pts[q][v].p && m'.pts[q][v].addr == m.pts[pid][va].addr ==>
        q in m.pts && v < |m.pts[q]| && m.pts[q][v].p && m.pts[q][v].addr == m.pts[pid][va].addr
    ensures m'.pts[pid][va].addr < |m'.k.refs| && m'.k.refs[m'.pts[pid][va].addr] == 1
  {
    hide TableInv;
    var f := m.pts[pid][va].addr;
    HasMapper(m'.k, m'.pts, pid, va);
    forall q: nat, v: nat | Maps(m'.pts, f, q, v)
      ensures q == pid && v == va
    {
      OnlyMapper(m.k, m.pts, f, pid, va, q, v);
    }
    assert Mappers(m'.pts, f) == {(pid, va)};
  }

  /** The page and its frame's mappers are as they were. */
  ghost predicate Untouched<C>(m: Machine<C>, m': Machine<C>, pid: nat, va: nat)
    requires pid in m.pts && va < |m.pts[pid]|
  {
    && pid in m'.pts && va < |m'.pts[pid]|
    && m'.pts[pid][va].p && !m'.pts[pid][va].u && m'.pts[pid][va].addr == m.pts[pid][va].addr
    && forall q: nat, v: nat {:trigger m'.pts[q][v]} ::
         q in m'.pts && v < |m'.pts[q]| && m'.pts[q][v].p && m'.pts[q][v].addr == m.pts[pid][va].addr ==>
           q in m.pts && v < |m.pts[q]| && m.pts[q][v].p && m.pts[q][v].addr == m.pts[pid][va].addr
  }

  lemma {:induction false} UntouchedStaysClosed<C>(m: Machine<C>, m': Machine<C>, pid: nat, va: nat)
    requires Inv(m) && Inv(m') && Closed(m, pid, va) && Untouched(m, m', pid, va)
    ensures Closed(m', pid, va)
  {
    hide Inv;
    StillAlone(m, m', pid, va);
  }

  /** A page of q comes into memory in a frame g, and page out of q may leave it. */
  lemma {:induction false} PutUntouched<C>(m: Machine<C>, m': Machine<C>, q: nat, v: nat, pte: Pte, pid: nat, va: nat)
    requires Closed(m, pid, va) && q in m.pts && v <= |m.pts[q]| && pte.addr != m.pts[pid][va].addr
    requires v < |m.pts[q]| ==> !m.pts[q][v].p
    requires m'.pts == Put(m.pts, q, v, pte)
    ensures Untouched(m, m', pid, va)
  {
  }

  lemma {:induction false} PutsUntouched<C>(m: Machine<C>, m': Machine<C>, q: nat, v: nat, pte: Pte, out: nat,
      pid: nat, va: nat)
    requires Closed(m, pid, va) && q in m.pts && v <= |m.pts[q]| && pte.addr != m.pts[pid][va].addr
    requires v < |m.pts[q]| ==> !m.pts[q][v].p
    requires out < |m.pts[q]| && m.pts[q][out].p
    requires m'.pts == Put(Put(m.pts, q, v, pte), q, out, ToDisk(m.pts[q][out]))
    ensures if q == pid && out == va then !Closed(m', pid, va) else Untouched(m, m', pid, va)
  {
    var n := m.(pts := Put(m.pts, q, v, pte));
    PutUntouched(m, n, q, v, pte, pid, va);
    assert q != pid ==> m'.pts[pid] == m.pts[pid];
  }

  lemma {:induction false} FaultUntouched<C>(m: Machine<C>, q: nat, v: nat, victim: nat, junk: C, pid: nat, va: nat)
    requires Inv(m) && Closed(m, pid, va)
    requires q in m.pts && v < |m.pts[q]| && victim < MAX_PSYC_PAGES && Sane(m, q)
    requires HandlePf(m, q, v, victim, junk).Handled?
    ensures !m.pts[q][v].p
    ensures var m' := HandlePf(m, q, v, victim, junk).m;
      if q == pid && m.tabs[q].mem[victim].va == va then !Closed(m', pid, va) else Untouched(m, m', pid, va)
  {
    hide Inv, Sane, HandlePf, FirstFree, FirstWithVa, Kfree, WriteSlot, Closed, Untouched, FrameInv, TableInv, Put;
    PfResult(m, q, v, victim, junk);
    ClosedIsThere(m, pid, va);
    InvIsSane(m, q);
    FreshIsUnmapped(m.k, m.pts, pid, va);
    PutsUntouched(m, HandlePf(m, q, v, victim, junk).m, q, v, ToMemory(m.pts[q][v], m.k.free[0]), m.tabs[q].mem[victim].va, pid, va);
  }

  lemma {:induction false} SwitchUntouched<C>(m: Machine<C>, m': Machine<C>, q: nat, v: nat, pte: Pte, pid: nat, va: nat)
    requires Closed(m, pid, va) && q in m.pts && v < |m.pts[q]| && m.pts[q][v].p && m'.pts == Put(m.pts, q, v, pte)
    requires (pte.p && pte.u == m.pts[q][v].u && pte.addr == m.pts[q][v].addr) ||
             (pte.addr != m.pts[pid][va].addr && m.pts[q][v].addr != m.pts[pid][va].addr)
    ensures Untouched(m, m', pid, va)
  {
  }

  lemma {:induction false} CowUntouched<C>(m: Machine<C>, q: nat, v: nat, pid: nat, va: nat)
    requires Inv(m) && Closed(m, pid, va)
    requires Sane(m, q) && v < |m.pts[q]| && m.pts[q][v].p && HandleCow(m, q, v).Handled?
    ensures Untouched(m, HandleCow(m, q, v).m, pid, va)
  {
    hide FrameInv, TableInv, Untouched;
    var m' := HandleCow(m, q, v).m;
    if m.k.refs[m.pts[q][v].addr] > 1 {
      FreshIsUnmapped(m.k, m.pts, pid, va);
    }
    SwitchUntouched(m, m', q, v, m'.pts[q][v], pid, va);
  }

  lemma {:induction false} GrowPlain<C>(m: Machine<C>, q: nat, victim: nat, zero: C, junk: C)
    requires Sane(m, q) && victim < MAX_PSYC_PAGES && m.k.free != [] && FirstFree(m.tabs[q].mem) >= 0
    ensures Grow(m, q, victim, zero, junk).Handled?
    ensures Grow(m, q, victim, zero, junk).m.pts == Put(m.pts, q, |m.pts[q]|, NewPte(m.k.free[0]))
    ensures |Grow(m, q, victim, zero, junk).m.k.ram| == |m.k.ram|
  {
    hide FirstFree;
  }

  lemma {:induction false} GrowUntouched<C>(m: Machine<C>, q: nat, victim: nat, zero: C, junk: C, pid: nat, va: nat)
    requires Inv(m) && Closed(m, pid, va)
    requires q in m.pts && Sane(m, q) && victim < MAX_PSYC_PAGES && |m.pts[q]| < MAX_TOTAL_PAGES && m.k.free != []
    ensures Grow(m, q, victim, zero, junk).Handled?
    ensures var m' := Grow(m, q, victim, zero, junk).m;
      if q == pid && FirstFree(m.tabs[q].mem) < 0 && m.tabs[q].mem[victim].va == va then !Closed(m', pid, va)
      else Untouched(m, m', pid, va)
  {
    hide Inv, Sane, Grow, FirstFree, Kfree, WriteSlot, Closed, Untouched, FrameInv, TableInv, Put;
    InvIsSane(m, q);
    SaneFrames(m, q);
    ClosedIsThere(m, pid, va);
    FreshIsUnmapped(m.k, m.pts, pid, va);
    if FirstFree(m.tabs[q].mem) < 0 {
      GrowEvicts(m, q, victim, zero, junk);
      PutsUntouched(m, Grow(m, q, victim, zero, junk).m, q, |m.pts[q]|, NewPte(m.k.free[0]), m.tabs[q].mem[victim].va, pid, va);
    } else {
      GrowPlain(m, q, victim, zero, junk);
      PutUntouched(m, Grow(m, q, victim, zero, junk).m, q, |m.pts[q]|, NewPte(m.k.free[0]), pid, va);
    }
  }

  lemma {:induction false} ForkUntouched<C>(m: Machine<C>, q: nat, child: nat, pid: nat, va: nat)
    requires Inv(m) && Closed(m, pid, va)
    requires child !in m.pts && Forkable(m, q) && Fork(m, q, child).Handled?
    ensures if q == pid then !Closed(Fork(m, q, child).m, pid, va) else Untouched(m, Fork(m, q, child).m, pid, va)
  {
    hide Inv, TableInv, ForkPages, UsedArePrefix, CopySwap, Fork;
    ForkIsPages(m, q, child);
    ForkKeepsInv(m, q, child);
    var m', f := Fork(m, q, child).m, m.pts[pid][va].addr;
    InvIsSane(m, q);
    InvIsSane(m', q);
    if q == pid {
      assert SamePlace(m'.pts[child][va], m.pts[pid][va]);
      assert SamePlace(m'.pts[pid][va], m.pts[pid][va]);
      if m'.k.refs[f] == 1 {
        OnlyMapper(m'.k, m'.pts, f, pid, va, child, va);
      }
    } else {
      forall v: nat {:trigger m'.pts[child][v]} {:trigger m'.pts[q][v]} | v < |m.pts[q]|
        ensures SamePlace(m'.pts[child][v], m.pts[q][v]) && SamePlace(m'.pts[q][v], m.pts[q][v])
        ensures !(m.pts[q][v].p && m.pts[q][v].addr == f)
      {
        if m.pts[q][v].p && m.pts[q][v].addr == f {
          OnlyMapper(m.k, m.pts, f, pid, va, q, v);
        }
      }
    }
  }

  lemma {:induction false} FreeUntouched<C>(m: Machine<C>, q: nat, junk: C, pid: nat, va: nat)
    requires Inv(m) && Closed(m, pid, va)
    requires q in m.pts && EntriesInRange(m.k, m.pts[q])
    ensures if q == pid then !Closed(Free(m, q, junk), pid, va) else Untouched(m, Free(m, q, junk), pid, va)
  {
    hide Inv, FreePages;
  }

  lemma {:induction false} TrapUntouched<C>(m: Machine<C>, q: nat, v: nat, victim: nat, junk: C, pid: nat, va: nat)
    requires Inv(m) && Closed(m, pid, va)
    requires q in m.pts && v < |m.pts[q]| && victim < MAX_PSYC_PAGES && Sane(m, q) && pid in m.pts && Sane(m, pid)
    requires Trap(m, q, v, victim, junk).Handled?
    ensures var m' := Trap(m, q, v, victim, junk).m;
      if Uncloses(m, Fault(q, v, victim), pid, va) then !Closed(m', pid, va) else Untouched(m, m', pid, va)
  {
    hide Inv, Sane, HandlePf, HandleCow, Closed, Untouched;
    SaneFrames(m, q);
    SaneFrames(m, pid);
    if HandlePf(m, q, v, victim, junk).Handled? {
      FaultUntouched(m, q, v, victim, junk, pid, va);
    } else {
      NotPagedOut(m, q, v, victim, junk);
      CowUntouched(m, q, v, pid, va);
    }
  }

  /** A step leaves a closed page and its frame alone, or pages it out, shares it or ends its process. */
  lemma {:induction false} StepUntouched<C>(m: Machine<C>, st: Step<C>, m': Machine<C>, zero: C, junk: C, pid: nat,
      va: nat)
    requires Inv(m) && Takes(m, st, m', zero, junk) && Closed(m, pid, va)
    ensures pid in m.pts && va < |m.pts[pid]|
    ensures if Uncloses(m, st, pid, va) then !Closed(m', pid, va) else Untouched(m, m', pid, va)
  {
    hide Inv, Sane, Trap, Grow, Fork, Free, Forkable, EntriesInRange, FirstFree, Closed, Untouched, CanStore;
    hide ClearUser, Store;
    ClosedIsThere(m, pid, va);
    InvIsSane(m, pid);
    SaneFrames(m, pid);
    match st {
      case UserStore(q, v, c) => StoreUntouched(m, q, v, c, pid, va);
      case Fault(q, v, victim) => TrapUntouched(m, q, v, victim, junk, pid, va);
      case GrowPage(q, victim) =>
        GrowNeedsFrame(m, q, victim, zero, junk);
        GrowUntouched(m, q, victim, zero, junk, pid, va);
      case ForkProc(q, child) => ForkUntouched(m, q, child, pid, va);
      case FreeProc(q) => FreeUntouched(m, q, junk, pid, va);
      case GuardPage(q, v) => ClearUntouched(m, q, v, pid, va);
    }
  }

  lemma {:induction false} StoreUntouched<C>(m: Machine<C>, q: nat, v: nat, c: C, pid: nat, va: nat)
    requires Closed(m, pid, va) && CanStore(m, q, v)
    ensures Untouched(m, Store(m, q, v, c), pid, va)
  {
  }

  lemma {:induction false} ClearUntouched<C>(m: Machine<C>, q: nat, v: nat, pid: nat, va: nat)
    requires Closed(m, pid, va) && q in m.pts && v < |m.pts[q]|
    ensures Untouched(m, ClearUser(m, q, v), pid, va)
  {
  }

  /** A closed page stays closed through a step if and only if the step does not page it out, share it or end its process. */
  lemma {:induction false} ClosedStaysIff<C>(m: Machine<C>, st: Step<C>, m': Machine<C>, zero: C, junk: C, pid: nat,
      va: nat)
    requires Inv(m) && Inv(m') && Takes(m, st, m', zero, junk) && Closed(m, pid, va)
    ensures Closed(m', pid, va) <==> !Uncloses(m, st, pid, va)
  {
    hide Inv, Takes, Closed, Untouched, Uncloses;
    StepUntouched(m, st, m', zero, junk, pid, va);
    if !Uncloses(m, st, pid, va) {
      UntouchedStaysClosed(m, m', pid, va);
    }
  }

  lemma {:induction false} ClosedIsThere<C>(m: Machine<C>, pid: nat, va: nat)
    requires Closed(m, pid, va)
    ensures pid in m.pts && va < |m.pts[pid]| && m.pts[pid][va].p && !m.pts[pid][va].u
  {
  }

  /** Over a whole run, a closed page is out of the user's reach in every state if and only if no step
      pages it out, shares it or ends its process. */
  lemma {:induction false} ClosedThroughoutIff<C>(ms: seq<Machine<C>>, steps: seq<Step<C>>, a: map<nat, seq<C>>,
      zero: C, junk: C, pid: nat, va: nat)
    requires Run(ms, steps, zero, junk) && Inv(ms[0]) && Shows(ms[0], a) && Closed(ms[0], pid, va)
    ensures (forall i :: 0 <= i <= |steps| ==> Closed(ms[i], pid, va)) <==>
      (forall i :: 0 <= i < |steps| ==> !Uncloses(ms[i], steps[i], pid, va))
    decreases |steps|
  {
    hide Inv, Shows, Takes, Closed, Uncloses;
    var n := |steps|;
    if n > 0 {
      var ms1, steps1 := ms[..n], steps[..n - 1];
      ClosedThroughoutIff(ms1, steps1, a, zero, junk, pid, va);
      RunRefines(ms1, steps1, a, zero, junk);
      RunRefines(ms, steps, a, zero, junk);
      assert (forall i :: 0 <= i < n ==> Closed(ms[i], pid, va)) <==> forall i :: 0 <= i < n - 1 ==> !Uncloses(ms[i], steps[i], pid, va) by {
        assert forall i :: 0 <= i < n ==> ms1[i] == ms[i];
        assert forall i :: 0 <= i < n - 1 ==> steps1[i] == steps[i];
      }
      if Closed(ms[n - 1], pid, va) {
        ClosedStaysIff(ms[n - 1], steps[n - 1], ms[n], zero, junk, pid, va);
      }
    }
  }
}
