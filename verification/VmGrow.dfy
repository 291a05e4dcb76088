/** Growing a process by one page under demand paging: the loop body of allocuvm, with swap. */
module VmGrow {
  import opened Common
  import opened Params
  import opened Frames
  import opened Tables
  import opened Vm

  /** allocuvm's loop body: a zeroed page at the end; with memory full, `victim` is swapped out. */
  ghost function Grow<C>(m: Machine<C>, pid: nat, victim: nat, zero: C, junk: C): (r: Outcome<Machine<C>>)
    requires Sane(m, pid) && victim < MAX_PSYC_PAGES
  {
    var pt, t := m.pts[pid], m.tabs[pid];
    var free, j := FirstFree(t.mem), FirstFree(t.file);
    if m.k.free == [] then Panic
    else
      var f, va := m.k.free[0], |pt|;
      var k1 := Kalloc(m.k);
      var k1 := k1.(ram := k1.ram[f := zero]);
      var pts1 := Put(m.pts, pid, va, NewPte(f));
      if free >= 0 then
        Handled(Machine(k1, pts1, m.tabs[pid := t.(mem := t.mem[free := Slot(true, va)])]))
      else if 0 <= j <= |t.swap| then
        Handled(SwapOut(Machine(k1, pts1, m.tabs), pid, victim, j, va, junk))
      else
        Handled(Machine(k1, pts1, m.tabs[pid := NoSlot(t, va)]))
  }

  /**
    What allocuvm records when swap returns -1. The write to slot -1, at an offset that wraps, or past
    the end of the file fails, so swap evicts nothing; allocuvm then writes to memory_pages[-1], and that
    is the last element of file_pages, which comes right before memory_pages in struct proc.
   */
  function NoSlot<C>(t: Tables<C>, va: nat): (r: Tables<C>)
    requires |t.file| == MAX_PSYC_PAGES
  {
    t.(file := t.file[MAX_PSYC_PAGES - 1 := Slot(true, va)])
  }

  /** mappages with PTE_W|PTE_U. */
  function NewPte(f: nat): Pte {
    Pte(true, true, true, false, false, f)
  }

  /** swap: write the victim's page to swap slot j, release its frame, give its slot to page va. */
  ghost function SwapOut<C>(m: Machine<C>, pid: nat, victim: nat, j: nat, va: nat, junk: C): (r: Machine<C>)
    requires pid in m.pts && pid in m.tabs && |m.k.refs| == |m.k.ram|
    requires victim < |m.tabs[pid].mem| && j < |m.tabs[pid].file| && j <= |m.tabs[pid].swap|
    requires var out := m.tabs[pid].mem[victim].va; out < |m.pts[pid]| && m.pts[pid][out].addr < |m.k.ram|
  {
    var t := m.tabs[pid];
    var out := t.mem[victim].va;
    var pte := m.pts[pid][out];
    Machine(Kfree(m.k, pte.addr, junk), Put(m.pts, pid, out, ToDisk(pte)),
            m.tabs[pid := Tables(t.mem[victim := t.mem[victim].(used := false)][victim := Slot(true, va)],
                                 t.file[j := Slot(true, out)], WriteSlot(t.swap, j, m.k.ram[pte.addr]))])
  }

  /** A slot in memory, or one in the file that swap can write. */
  ghost predicate FindsSlot<C>(t: Tables<C>) {
    FirstFree(t.mem) >= 0 || 0 <= FirstFree(t.file) <= |t.swap|
  }

  /** Below MAX_TOTAL_PAGES pages there is a slot for one more page. */
  lemma {:induction false} CanGrow<C>(m: Machine<C>, pid: nat, victim: nat, zero: C, junk: C)
    requires Inv(m) && pid in m.pts && Sane(m, pid) && victim < MAX_PSYC_PAGES
    requires |m.pts[pid]| < MAX_TOTAL_PAGES && m.k.free != []
    ensures FindsSlot(m.tabs[pid]) && Grow(m, pid, victim, zero, junk).Handled?
  {
    hide Inv, TableInv, FirstFree;
    InvIsSane(m, pid);
    var t := m.tabs[pid];
    if FirstFree(t.mem) < 0 {
      SwapSlotExists(m.pts[pid], t);
    }
  }

  // ---------- A free slot in memory ----------

  lemma {:induction false} GrowIntoFreeSlot<C>(m: Machine<C>, pid: nat, victim: nat, zero: C, junk: C)
    requires Inv(m) && pid in m.pts && Sane(m, pid) && victim < MAX_PSYC_PAGES
    requires |m.pts[pid]| < MAX_TOTAL_PAGES && FirstFree(m.tabs[pid].mem) >= 0 && m.k.free != []
    ensures Inv(Grow(m, pid, victim, zero, junk).m)
  {
    hide TableInv, FrameInv, FirstFree, Sane;
    InvIsSane(m, pid);
    SaneFrames(m, pid);
    var f, pt, t := m.k.free[0], m.pts[pid], m.tabs[pid];
    var m' := Grow(m, pid, victim, zero, junk).m;
    AddResident(pt, t, NewPte(f));
    MapFresh(m.k, m.pts, pid, |pt|, NewPte(f));
    var n := Machine(Kalloc(m.k), m'.pts, m'.tabs);
    assert m'.pts[pid] == pt + [NewPte(f)];
    assert Inv(n);
    ContentsKeepInv(n, m'.k.ram);
    assert m' == n.(k := n.k.(ram := m'.k.ram));
  }

  lemma {:induction false} SaneFrames<C>(m: Machine<C>, pid: nat)
    requires Sane(m, pid)
    ensures pid in m.pts && pid in m.tabs && |m.tabs[pid].mem| == |m.tabs[pid].file| == MAX_PSYC_PAGES
    ensures |m.k.refs| == |m.k.ram| && (m.k.free != [] ==> m.k.free[0] < |m.k.ram|)
  {
  }

  // ---------- Memory full ----------

  /** What growing leaves when memory is full, in one piece. */
  lemma {:induction false} GrowEvicts<C>(m: Machine<C>, pid: nat, victim: nat, zero: C, junk: C)
    requires Inv(m) && pid in m.pts && Sane(m, pid) && victim < MAX_PSYC_PAGES
    requires |m.pts[pid]| < MAX_TOTAL_PAGES && FirstFree(m.tabs[pid].mem) < 0 && m.k.free != []
    ensures Grow(m, pid, victim, zero, junk).Handled?
    ensures var m', pt, t := Grow(m, pid, victim, zero, junk).m, m.pts[pid], m.tabs[pid];
      var f, j, out := m.k.free[0], FirstFree(t.file), t.mem[victim].va;
      && 0 <= j <= |t.swap| && j < |t.file| && out < |pt| && pt[out].p && pt[out].addr < |m.k.ram| && f < |m.k.ram|
      && pt[out].addr != f && CanAlloc(m.k)
      && m'.pts == Put(Put(m.pts, pid, |pt|, NewPte(f)), pid, out, ToDisk(pt[out]))
      && m'.tabs == m.tabs[pid := Tables(t.mem[victim := Slot(true, |pt|)], t.file[j := Slot(true, out)],
                                         WriteSlot(t.swap, j, m.k.ram[pt[out].addr]))]
      && m'.k == Kfree(var k1 := Kalloc(m.k); k1.(ram := k1.ram[f := zero]), pt[out].addr, junk)
  {
    hide Inv, TableInv, FrameInv, FirstFree, Kfree, WriteSlot, Sane;
    InvIsSane(m, pid);
    SaneFrames(m, pid);
    var pt, t := m.pts[pid], m.tabs[pid];
    TablesSized(pt, t);
    VictimIsResident(pt, t.mem, victim);
    SwapSlotExists(pt, t);
    var out := t.mem[victim].va;
    HasMapper(m.k, m.pts, pid, out);
    assert t.mem[victim := t.mem[victim].(used := false)][victim := Slot(true, |pt|)] == t.mem[victim := Slot(true, |pt|)];
  }

  lemma {:induction false} GrowEvictingKeepsInv<C>(m: Machine<C>, pid: nat, victim: nat, zero: C, junk: C)
    requires Inv(m) && pid in m.pts && Sane(m, pid) && victim < MAX_PSYC_PAGES
    requires |m.pts[pid]| < MAX_TOTAL_PAGES && FirstFree(m.tabs[pid].mem) < 0 && m.k.free != []
    ensures Grow(m, pid, victim, zero, junk).Handled? && Inv(Grow(m, pid, victim, zero, junk).m)
  {
    hide TableInv, FrameInv, FirstFree, Sane, Grow, WriteSlot, Kfree;
    InvIsSane(m, pid);
    GrowEvicts(m, pid, victim, zero, junk);
    var m' := Grow(m, pid, victim, zero, junk).m;
    var pt, t := m.pts[pid], m.tabs[pid];
    var f, out := m.k.free[0], t.mem[victim].va;
    AddEvicting(pt, t, victim, NewPte(f), m.k.ram[pt[out].addr]);
    MapFresh(m.k, m.pts, pid, |pt|, NewPte(f));
    Unmap(Kalloc(m.k), Put(m.pts, pid, |pt|, NewPte(f)), pid, out, ToDisk(pt[out]), junk);
    var n := m'.(k := Kfree(Kalloc(m.k), pt[out].addr, junk));
    assert m'.pts[pid] == pt[out := ToDisk(pt[out])] + [NewPte(f)];
    assert Inv(n);
    KfreeCounts(Kalloc(m.k), m.k.ram[f := zero], pt[out].addr, junk);
    ContentsKeepInv(n, m'.k.ram);
    assert m' == n.(k := n.k.(ram := m'.k.ram));
  }

  /** kfree's bookkeeping does not depend on what the frames hold. */
  lemma {:induction false} KfreeCounts<C>(k: Kmem<C>, ram: seq<C>, f: nat, junk: C)
    requires f < |k.refs| == |k.ram| == |ram|
    ensures Kfree(k.(ram := ram), f, junk) == Kfree(k, f, junk).(ram := Kfree(k.(ram := ram), f, junk).ram)
  {
  }

  // ---------- Refinement ----------

  lemma {:induction false} GrowKeepsInv<C>(m: Machine<C>, pid: nat, victim: nat, zero: C, junk: C)
    requires Inv(m) && pid in m.pts && Sane(m, pid) && victim < MAX_PSYC_PAGES
    requires |m.pts[pid]| < MAX_TOTAL_PAGES && m.k.free != []
    ensures Grow(m, pid, victim, zero, junk).Handled? && Inv(Grow(m, pid, victim, zero, junk).m)
  {
    hide Inv, Grow, Sane, FirstFree;
    CanGrow(m, pid, victim, zero, junk);
    SaneFrames(m, pid);
    if FirstFree(m.tabs[pid].mem) >= 0 {
      GrowIntoFreeSlot(m, pid, victim, zero, junk);
    } else {
      GrowEvictingKeepsInv(m, pid, victim, zero, junk);
    }
  }

  /** The pages that were there keep their contents. */
  lemma {:induction false} GrowKeepsPages<C>(m: Machine<C>, pid: nat, victim: nat, zero: C, junk: C, q: nat, v: nat)
    requires Inv(m) && pid in m.pts && Sane(m, pid) && victim < MAX_PSYC_PAGES
    requires |m.pts[pid]| < MAX_TOTAL_PAGES && m.k.free != [] && Grow(m, pid, victim, zero, junk).Handled?
    requires q in m.pts && v < |m.pts[q]|
    ensures Page(Grow(m, pid, victim, zero, junk).m, q, v) == Page(m, q, v)
  {
    hide Inv, TableInv, FrameInv, FirstFree, FirstWithVa, Sane;
    SaneFrames(m, pid);
    InvIsSane(m, q);
    if FirstFree(m.tabs[pid].mem) >= 0 {
      if m.pts[q][v].p {
        FreshIsUnmapped(m.k, m.pts, q, v);
      }
    } else {
      GrowEvictingKeepsPages(m, pid, victim, zero, junk, q, v);
    }
  }

  lemma {:induction false} GrowEvictingKeepsPages<C>(m: Machine<C>, pid: nat, victim: nat, zero: C, junk: C, q: nat,
      v: nat)
    requires Inv(m) && pid in m.pts && Sane(m, pid) && victim < MAX_PSYC_PAGES
    requires |m.pts[pid]| < MAX_TOTAL_PAGES && FirstFree(m.tabs[pid].mem) < 0 && m.k.free != []
    requires q in m.pts && v < |m.pts[q]| && Grow(m, pid, victim, zero, junk).Handled?
    ensures Page(Grow(m, pid, victim, zero, junk).m, q, v) == Page(m, q, v)
  {
    hide Inv, TableInv, FrameInv, Sane, Grow, FirstFree, FirstWithVa, Kfree;
    InvIsSane(m, pid);
    GrowEvicts(m, pid, victim, zero, junk);
    GrowEvictingKeepsInv(m, pid, victim, zero, junk);
    var m' := Grow(m, pid, victim, zero, junk).m;
    InvIsSane(m', pid);
    var pt, t := m.pts[pid], m.tabs[pid];
    var f, j, out := m.k.free[0], FirstFree(t.file), t.mem[victim].va;
    if q == pid && v == out {
      LookupIsTheSlot(m'.pts[pid], m'.tabs[pid], j, out);
    } else if m.pts[q][v].p {
      FreshIsUnmapped(m.k, m.pts, q, v);
      MapFresh(m.k, m.pts, pid, |pt|, NewPte(f));
      var n := Machine(Kalloc(m.k), Put(m.pts, pid, |pt|, NewPte(f)), m.tabs);
      ZeroedKeepsInv(n.k, n.pts, f, zero);
      KfreeKeepsOthers(n.k.(ram := n.k.ram[f := zero]), n.pts, pid, out, junk, q, v);
    } else if q == pid {
      LookupFindsSlot(pt, t, v);
      var i := FirstWithVa(t.file, v);
      assert Holds(m'.tabs[pid].file, i, v);
      LookupIsTheSlot(m'.pts[pid], m'.tabs[pid], i, v);
    }
  }

  lemma {:induction false} ZeroedKeepsInv<C>(k: Kmem<C>, pts: PageTables, f: nat, zero: C)
    requires FrameInv(k, pts) && f < |k.ram|
    ensures FrameInv(k.(ram := k.ram[f := zero]), pts)
  {
    var k' := k.(ram := k.ram[f := zero]);
    assert forall pid: nat, va: nat {:trigger pts[pid][va]} :: pid in pts && va < |pts[pid]| ==> PteOk(k, pts[pid][va]);
  }

  lemma {:induction false} NewPageIsZero<C>(m: Machine<C>, pid: nat, victim: nat, zero: C, junk: C)
    requires Inv(m) && pid in m.pts && Sane(m, pid) && victim < MAX_PSYC_PAGES
    requires |m.pts[pid]| < MAX_TOTAL_PAGES && m.k.free != [] && Grow(m, pid, victim, zero, junk).Handled?
    ensures var m' := Grow(m, pid, victim, zero, junk).m;
      && m'.pts.Keys == m.pts.Keys && |m'.pts[pid]| == |m.pts[pid]| + 1
      && (forall q :: q in m.pts && q != pid ==> m'.pts[q] == m.pts[q])
      && Page(m', pid, |m.pts[pid]|) == Some(zero)
  {
    hide Inv, TableInv, FrameInv, FirstFree, FirstWithVa, Sane;
    SaneFrames(m, pid);
    var m', pt, f := Grow(m, pid, victim, zero, junk).m, m.pts[pid], m.k.free[0];
    if FirstFree(m.tabs[pid].mem) < 0 {
      GrowEvicts(m, pid, victim, zero, junk);
      var out := m.tabs[pid].mem[victim].va;
      assert m'.pts[pid] == pt[out := ToDisk(pt[out])] + [NewPte(f)];
    } else {
      assert m'.pts[pid] == pt + [NewPte(f)];
    }
  }

  /** Growing appends a zero page and changes nothing else that any process sees. */
  lemma {:induction false} GrowRefines<C>(m: Machine<C>, a: map<nat, seq<C>>, pid: nat, victim: nat, zero: C, junk: C)
    requires Inv(m) && Shows(m, a) && pid in m.pts && Sane(m, pid) && victim < MAX_PSYC_PAGES
    requires |m.pts[pid]| < MAX_TOTAL_PAGES && m.k.free != []
    ensures var r := Grow(m, pid, victim, zero, junk);
      r.Handled? && Inv(r.m) && pid in a && Shows(r.m, a[pid := a[pid] + [zero]])
  {
    hide Inv, Page, Sane, Grow;
    GrowKeepsInv(m, pid, victim, zero, junk);
    NewPageIsZero(m, pid, victim, zero, junk);
    assert Sees(m, pid, a[pid]);
    var m', a' := Grow(m, pid, victim, zero, junk).m, a[pid := a[pid] + [zero]];
    forall q: nat, v: nat {:trigger a'[q][v]} | q in a' && v < |a'[q]|
      ensures Page(m', q, v) == Some(a'[q][v])
    {
      if v < |a[q]| {
        assert Page(m, q, v) == Some(a[q][v]);
        GrowKeepsPages(m, pid, victim, zero, junk, q, v);
      }
    }
    forall q: nat | q in a'
      ensures Sees(m', q, a'[q])
    {
      assert Sees(m, q, a[q]);
      assert forall v: nat {:trigger a'[q][v]} :: v < |a'[q]| ==> Page(m', q, v) == Some(a'[q][v]);
    }
  }
}
