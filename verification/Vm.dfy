/**
  Virtual memory as a whole (vm.c, fork in proc.c): copy-on-write sharing of frames between
  processes under demand paging to per-process swap files. Each handler call is one atomic step,
  and the page to evict is any resident one. The reference semantics is eager copying with
  everything resident: a process is just its list of page contents.
 */
module Vm {
  import opened Common
  import opened Params
  import opened Frames
  import opened Tables

  /** Frames, and for every process its page table entries and paging tables. */
  datatype Machine<C> = Machine(k: Kmem<C>, pts: PageTables, tabs: map<nat, Tables<C>>)

  ghost predicate Inv<C>(m: Machine<C>) {
    && FrameInv(m.k, m.pts)
    && m.pts.Keys == m.tabs.Keys
    && forall pid :: pid in m.pts ==> TableInv(m.pts[pid], m.tabs[pid])
  }

  /** The contents of page va of process pid: in its frame, or in the swap file. */
  function Page<C>(m: Machine<C>, pid: nat, va: nat): Option<C> {
    if pid !in m.pts || pid !in m.tabs || va >= |m.pts[pid]| then None else
    var pte, t := m.pts[pid][va], m.tabs[pid];
    if pte.p then
      if pte.addr < |m.k.ram| then Some(m.k.ram[pte.addr]) else None
    else
      var j := FirstWithVa(t.file, va);
      if 0 <= j < |t.swap| then Some(t.swap[j]) else None
  }

  /** Process pid sees the page contents v. */
  ghost predicate Sees<C>(m: Machine<C>, pid: nat, v: seq<C>) {
    && pid in m.pts && |m.pts[pid]| == |v|
    && forall va: nat {:trigger v[va]} :: va < |v| ==> Page(m, pid, va) == Some(v[va])
  }

  /** The machine shows every process the memory it has in the reference semantics. */
  ghost predicate Shows<C>(m: Machine<C>, a: map<nat, seq<C>>) {
    && a.Keys == m.pts.Keys
    && forall pid :: pid in a ==> Sees(m, pid, a[pid])
  }

  lemma {:induction false} EveryPageHasContents<C>(m: Machine<C>, pid: nat, va: nat)
    requires Inv(m) && pid in m.pts && va < |m.pts[pid]|
    ensures Page(m, pid, va).Some?
  {
    if m.pts[pid][va].p {
      HasMapper(m.k, m.pts, pid, va);
    } else {
      LookupFindsSlot(m.pts[pid], m.tabs[pid], va);
    }
  }

  // ---------- Frames keep their contents ----------

  /** The frame that kalloc returns is nobody's. */
  lemma {:induction false} FreshIsUnmapped<C>(k: Kmem<C>, pts: PageTables, pid: nat, va: nat)
    requires FrameInv(k, pts) && k.free != [] && pid in pts && va < |pts[pid]| && pts[pid][va].p
    ensures pts[pid][va].addr != k.free[0]
  {
    HasMapper(k, pts, pid, va);
  }

  /** kfree of one page's frame leaves every other mapped page its contents. */
  lemma {:induction false} KfreeKeepsOthers<C>(k: Kmem<C>, pts: PageTables, pid: nat, va: nat, junk: C, q: nat, v: nat)
    requires FrameInv(k, pts)
    requires pid in pts && va < |pts[pid]| && pts[pid][va].p
    requires q in pts && v < |pts[q]| && pts[q][v].p && (q, v) != (pid, va)
    ensures pts[pid][va].addr < |k.ram| && pts[q][v].addr < |k.ram| == |k.refs|
    ensures Kfree(k, pts[pid][va].addr, junk).ram[pts[q][v].addr] == k.ram[pts[q][v].addr]
  {
    HasMapper(k, pts, pid, va);
    HasMapper(k, pts, q, v);
    var f := pts[pid][va].addr;
    if pts[q][v].addr == f && k.refs[f] == 1 {
      OnlyMapper(k, pts, f, pid, va, q, v);
    }
  }

  // ---------- User stores ----------

  /** A store by the user program: the hardware allows it on present, writable user pages. */
  predicate CanStore<C>(m: Machine<C>, pid: nat, va: nat) {
    pid in m.pts && va < |m.pts[pid]| && var pte := m.pts[pid][va]; pte.p && pte.w && pte.u && pte.addr < |m.k.ram|
  }

  function Store<C>(m: Machine<C>, pid: nat, va: nat, c: C): (r: Machine<C>)
    requires CanStore(m, pid, va)
  {
    m.(k := m.k.(ram := m.k.ram[m.pts[pid][va].addr := c]))
  }

  /** The frames may change their contents. */
  lemma {:induction false} ContentsKeepInv<C>(m: Machine<C>, ram: seq<C>)
    requires Inv(m) && |ram| == |m.k.ram|
    ensures Inv(m.(k := m.k.(ram := ram)))
  {
    hide TableInv;
    var k' := m.k.(ram := ram);
    assert forall pid: nat, va: nat {:trigger m.pts[pid][va]} :: pid in m.pts && va < |m.pts[pid]| ==>
        PteOk(m.k, m.pts[pid][va]);
    assert FrameInv(k', m.pts);
  }

  lemma {:induction false} StoreKeepsOthers<C>(m: Machine<C>, pid: nat, va: nat, c: C, q: nat, v: nat)
    requires Inv(m) && CanStore(m, pid, va)
    ensures Page(Store(m, pid, va, c), q, v) == if (q, v) == (pid, va) then Some(c) else Page(m, q, v)
  {
    hide TableInv, FirstWithVa;
    var f := m.pts[pid][va].addr;
    assert PteOk(m.k, m.pts[pid][va]);
    if (q, v) != (pid, va) && q in m.pts && v < |m.pts[q]| && m.pts[q][v].p && m.pts[q][v].addr == f {
      OnlyMapper(m.k, m.pts, f, pid, va, q, v);
    }
  }

  /** A store changes the page of the storing process and no other page of anyone. */
  lemma {:induction false} StoreRefines<C>(m: Machine<C>, a: map<nat, seq<C>>, pid: nat, va: nat, c: C)
    requires Inv(m) && Shows(m, a) && CanStore(m, pid, va)
    ensures Inv(Store(m, pid, va, c))
    ensures pid in a && va < |a[pid]| && Shows(Store(m, pid, va, c), a[pid := a[pid][va := c]])
  {
    hide Inv, Page;
    ContentsKeepInv(m, m.k.ram[m.pts[pid][va].addr := c]);
    var m', a' := Store(m, pid, va, c), a[pid := a[pid][va := c]];
    forall q: nat, v: nat {:trigger a'[q][v]} | q in a' && v < |a'[q]|
      ensures Page(m', q, v) == Some(a'[q][v])
    {
      assert Page(m, q, v) == Some(a[q][v]);
      StoreKeepsOthers(m, pid, va, c, q, v);
    }
  }

  /** A step that leaves every page its contents is invisible. */
  lemma {:induction false} Invisible<C>(m: Machine<C>, m': Machine<C>, a: map<nat, seq<C>>)
    requires Shows(m, a) && m'.pts.Keys == m.pts.Keys
    requires forall q :: q in m.pts ==> |m'.pts[q]| == |m.pts[q]|
    requires forall q: nat, v: nat {:trigger Page(m', q, v)} :: q in m.pts && v < |m.pts[q]| ==> Page(m', q, v) == Page(m, q, v)
    ensures Shows(m', a)
  {
    hide Page;
    forall q: nat | q in a
      ensures Sees(m', q, a[q])
    {
      assert Sees(m, q, a[q]);
      forall v: nat {:trigger a[q][v]} | v < |a[q]|
        ensures Page(m', q, v) == Some(a[q][v])
      {
      }
    }
  }

  // ---------- handle_cow ----------

  /** Out of memory and lookups that fail end the run. */
  datatype Outcome<+M> = Handled(m: M) | NotHandled | Panic

  /** Tables of the right size and frame numbers in range: all that the handlers need to run. */
  ghost predicate Sane<C>(m: Machine<C>, pid: nat) {
    && pid in m.pts && pid in m.tabs
    && |m.tabs[pid].mem| == |m.tabs[pid].file| == MAX_PSYC_PAGES
    && |m.k.refs| == |m.k.ram|
    && (forall i :: 0 <= i < |m.k.free| ==> m.k.free[i] < |m.k.ram|)
    && (forall va :: 0 <= va < |m.pts[pid]| ==> Placed(m.pts[pid][va]) && (m.pts[pid][va].p ==> m.pts[pid][va].addr < |m.k.ram|))
    && (forall i :: 0 <= i < MAX_PSYC_PAGES && m.tabs[pid].mem[i].used ==> m.tabs[pid].mem[i].va < |m.pts[pid]|)
  }

  lemma {:induction false} InvIsSane<C>(m: Machine<C>, pid: nat)
    requires Inv(m) && pid in m.pts
    ensures Sane(m, pid) && FrameInv(m.k, m.pts) && TableInv(m.pts[pid], m.tabs[pid])
  {
    forall va | 0 <= va < |m.pts[pid]| && m.pts[pid][va].p
      ensures m.pts[pid][va].addr < |m.k.ram|
    {
      HasMapper(m.k, m.pts, pid, va);
    }
  }

  /** handle_cow, for a fault on page va. */
  ghost function HandleCow<C>(m: Machine<C>, pid: nat, va: nat): (r: Outcome<Machine<C>>)
    requires Sane(m, pid) && va < |m.pts[pid]| && m.pts[pid][va].p
  {
    var pte := m.pts[pid][va];
    if pte.w || !pte.cow then NotHandled
    else if m.k.refs[pte.addr] > 1 then
      if m.k.free == [] then Panic else
      var f := m.k.free[0];
      var k := Kalloc(m.k);
      var k := k.(ram := k.ram[f := k.ram[pte.addr]]);
      Handled(m.(k := DecCounter(k, pte.addr), pts := Put(m.pts, pid, va, Pte(true, true, true, false, false, f))))
    else
      Handled(m.(pts := Put(m.pts, pid, va, pte.(cow := false, w := true))))
  }

  lemma {:induction false} CowKeepsInv<C>(m: Machine<C>, pid: nat, va: nat)
    requires Inv(m) && Sane(m, pid) && va < |m.pts[pid]| && m.pts[pid][va].p
    requires HandleCow(m, pid, va).Handled?
    ensures Inv(HandleCow(m, pid, va).m)
  {
    hide TableInv, Counted, PtesOk, NoLeak;
    HasMapper(m.k, m.pts, pid, va);
    var pte := m.pts[pid][va];
    var m' := HandleCow(m, pid, va).m;
    assert TableInv(m.pts[pid], m.tabs[pid]);
    PlacedOf(m.pts[pid], m.tabs[pid], va);
    if m.k.refs[pte.addr] > 1 {
      var pte' := Pte(true, true, true, false, false, m.k.free[0]);
      CopyKeepsInv(m.k, m.pts, pid, va, pte');
      var n := Machine(DecCounter(Kalloc(m.k), pte.addr), Put(m.pts, pid, va, pte'), m.tabs);
      SamePlaces(m.pts[pid], m.pts[pid][va := pte'], m.tabs[pid]);
      assert Inv(n);
      ContentsKeepInv(n, m'.k.ram);
      assert m' == n.(k := n.k.(ram := m'.k.ram));
    } else {
      OwnKeepsInv(m.k, m.pts, pid, va);
      SamePlaces(m.pts[pid], m.pts[pid][va := pte.(cow := false, w := true)], m.tabs[pid]);
    }
  }

  lemma {:induction false} PlacedOf<C>(pt: seq<Pte>, t: Tables<C>, va: nat)
    requires TableInv(pt, t) && va < |pt|
    ensures Placed(pt[va])
    ensures forall v :: 0 <= v < |pt| ==> Placed(pt[v])
  {
  }

  lemma {:induction false} CowKeepsPages<C>(m: Machine<C>, pid: nat, va: nat, q: nat, v: nat)
    requires Inv(m) && Sane(m, pid) && va < |m.pts[pid]| && m.pts[pid][va].p
    requires HandleCow(m, pid, va).Handled?
    ensures Page(HandleCow(m, pid, va).m, q, v) == Page(m, q, v)
  {
    hide TableInv, FirstWithVa;
    HasMapper(m.k, m.pts, pid, va);
    if q in m.pts && v < |m.pts[q]| && m.pts[q][v].p && m.k.free != [] {
      FreshIsUnmapped(m.k, m.pts, q, v);
    }
  }

  /** handle_cow is invisible to every process: it never changes what anyone sees. */
  lemma {:induction false} CowRefines<C>(m: Machine<C>, a: map<nat, seq<C>>, pid: nat, va: nat)
    requires Inv(m) && Shows(m, a) && Sane(m, pid) && va < |m.pts[pid]| && m.pts[pid][va].p
    requires HandleCow(m, pid, va).Handled?
    ensures Inv(HandleCow(m, pid, va).m) && Shows(HandleCow(m, pid, va).m, a)
  {
    hide Inv, Page, Shows;
    CowKeepsInv(m, pid, va);
    var m' := HandleCow(m, pid, va).m;
    forall q: nat, v: nat {:trigger Page(m', q, v)}
      ensures Page(m', q, v) == Page(m, q, v)
    {
      CowKeepsPages(m, pid, va, q, v);
    }
    Invisible(m, m', a);
  }

  // ---------- clearpteu ----------

  /** clearpteu: the page below the stack becomes inaccessible to the user. */
  function ClearUser<C>(m: Machine<C>, pid: nat, va: nat): (r: Machine<C>)
    requires pid in m.pts && va < |m.pts[pid]|
  {
    m.(pts := Put(m.pts, pid, va, m.pts[pid][va].(u := false)))
  }

  lemma {:induction false} ClearUserKeepsInv<C>(m: Machine<C>, pid: nat, va: nat)
    requires Inv(m) && pid in m.pts && va < |m.pts[pid]|
    ensures Inv(ClearUser(m, pid, va))
  {
    hide TableInv, FrameInv;
    InvIsSane(m, pid);
    var m', pte := ClearUser(m, pid, va), m.pts[pid][va];
    FlagKeepsInv(m.k, m.pts, pid, va, pte.(u := false));
    SamePlaces(m.pts[pid], m'.pts[pid], m.tabs[pid]);
  }

  /** clearpteu keeps the invariants and changes no page's contents. */
  lemma {:induction false} ClearUserRefines<C>(m: Machine<C>, a: map<nat, seq<C>>, pid: nat, va: nat)
    requires Inv(m) && Shows(m, a) && pid in m.pts && va < |m.pts[pid]|
    ensures Inv(ClearUser(m, pid, va)) && Shows(ClearUser(m, pid, va), a)
  {
    hide Inv, FirstWithVa;
    ClearUserKeepsInv(m, pid, va);
    Invisible(m, ClearUser(m, pid, va), a);
  }

  // ---------- handle_pf ----------

  /** set_page_flags_in_mem: the frame number is or-ed into an entry that holds none. */
  function ToMemory(pte: Pte, f: nat): Pte
    requires pte.addr == 0
  {
    pte.(p := true, w := true, u := true, pg := false, addr := f)
  }

  /** handle_pf, for a fault on page va; `victim` is the slot that next_i_in_mem_to_remove picks. */
  ghost function HandlePf<C>(m: Machine<C>, pid: nat, va: nat, victim: nat, junk: C): (r: Outcome<Machine<C>>)
    requires Sane(m, pid) && va < |m.pts[pid]| && victim < MAX_PSYC_PAGES
  {
    var pt, t := m.pts[pid], m.tabs[pid];
    var free, j := FirstFree(t.mem), FirstWithVa(t.file, va);
    if pt[va].p || !pt[va].pg then NotHandled
    else if m.k.free == [] || j < 0 || j >= |t.swap| then Panic
    else
      var f := m.k.free[0];
      var k1, pts1 := Kalloc(m.k), Put(m.pts, pid, va, ToMemory(pt[va], f));
      if free >= 0 then
        Handled(Machine(k1.(ram := k1.ram[f := t.swap[j]]), pts1,
                        m.tabs[pid := Tables(t.mem[free := t.file[j]], t.file[j := t.file[j].(used := false)], t.swap)]))
      else
        Handled(SwapPlaces(Machine(k1, pts1, m.tabs), pid, victim, f, j, junk))
  }

  /** The rest of handle_pf when memory is full: read slot j, write the victim's page to it, release
      the victim's frame, and fill the fresh frame f. */
  ghost function SwapPlaces<C>(m: Machine<C>, pid: nat, victim: nat, f: nat, j: nat, junk: C): (r: Machine<C>)
    requires pid in m.pts && pid in m.tabs && |m.k.refs| == |m.k.ram| && f < |m.k.ram|
    requires victim < |m.tabs[pid].mem| && j < |m.tabs[pid].file| && j < |m.tabs[pid].swap|
    requires var out := m.tabs[pid].mem[victim].va; out < |m.pts[pid]| && m.pts[pid][out].addr < |m.k.ram|
  {
    var t := m.tabs[pid];
    var out := t.mem[victim].va;
    var pte := m.pts[pid][out];
    var k2, pts2 := Kfree(m.k, pte.addr, junk), Put(m.pts, pid, out, ToDisk(pte));
    Machine(k2.(ram := k2.ram[f := t.swap[j]]), pts2,
            m.tabs[pid := Tables(t.mem[victim := t.file[j]],
                                 t.file[j := t.file[j].(used := false)][j := Slot(true, out)],
                                 WriteSlot(t.swap, j, m.k.ram[pte.addr]))])
  }

  /** What the fault leaves, in one piece: the page and the victim have changed places. */
  lemma {:induction false} PfResult<C>(m: Machine<C>, pid: nat, va: nat, victim: nat, junk: C)
    requires Inv(m) && pid in m.pts && va < |m.pts[pid]| && victim < MAX_PSYC_PAGES
    requires Sane(m, pid) && HandlePf(m, pid, va, victim, junk).Handled?
    ensures var m', pt, t := HandlePf(m, pid, va, victim, junk).m, m.pts[pid], m.tabs[pid];
      var f, j, out := m.k.free[0], FirstWithVa(t.file, va), t.mem[victim].va;
      && FirstFree(t.mem) < 0 && Holds(t.file, j, va) && j < |t.swap|
      && !pt[va].p && pt[va].pg && pt[va].addr == 0 && out < |pt| && out != va && pt[out].p && pt[out].addr < |m.k.ram|
      && CanAlloc(m.k) && f < |m.k.ram|
      && m'.pts == Put(Put(m.pts, pid, va, ToMemory(pt[va], f)), pid, out, ToDisk(pt[out]))
      && m'.tabs == m.tabs[pid := Tables(t.mem[victim := Slot(true, va)], t.file[j := Slot(true, out)],
                                         WriteSlot(t.swap, j, m.k.ram[pt[out].addr]))]
      && m'.k == var k2 := Kfree(Kalloc(m.k), pt[out].addr, junk); k2.(ram := k2.ram[f := t.swap[j]])
    ensures HandlePf(m, pid, va, victim, junk).m.pts.Keys == m.pts.Keys
    ensures forall q :: q in m.pts ==> |HandlePf(m, pid, va, victim, junk).m.pts[q]| == |m.pts[q]|
  {
    hide Inv, TableInv, FrameInv, FirstFree, FirstWithVa, Kfree, WriteSlot, Sane;
    InvIsSane(m, pid);
    var pt, t := m.pts[pid], m.tabs[pid];
    SaneOf(m, pid, va);
    LookupFindsSlot(pt, t, va);
    TablesSized(pt, t);
    VictimIsResident(pt, t.mem, victim);
    HasMapper(m.k, m.pts, pid, t.mem[victim].va);
    var j := FirstWithVa(t.file, va);
    assert t.file[j] == Slot(true, va);
    assert t.file[j := t.file[j].(used := false)][j := Slot(true, t.mem[victim].va)] == t.file[j := Slot(true, t.mem[victim].va)];
  }

  lemma {:induction false} SaneOf<C>(m: Machine<C>, pid: nat, va: nat)
    requires Sane(m, pid) && va < |m.pts[pid]|
    ensures pid in m.pts && pid in m.tabs
    ensures Placed(m.pts[pid][va]) && |m.k.refs| == |m.k.ram|
    ensures m.k.free != [] ==> m.k.free[0] < |m.k.ram|
  {
  }

  lemma {:induction false} PfKeepsInv<C>(m: Machine<C>, pid: nat, va: nat, victim: nat, junk: C)
    requires Inv(m) && pid in m.pts && va < |m.pts[pid]| && victim < MAX_PSYC_PAGES
    requires Sane(m, pid) && HandlePf(m, pid, va, victim, junk).Handled?
    ensures Inv(HandlePf(m, pid, va, victim, junk).m)
  {
    hide TableInv, FrameInv, Sane, HandlePf, FirstFree, FirstWithVa, WriteSlot, Holds;
    InvIsSane(m, pid);
    PfResult(m, pid, va, victim, junk);
    var m' := HandlePf(m, pid, va, victim, junk).m;
    var pt, t := m.pts[pid], m.tabs[pid];
    var f, j, out := m.k.free[0], FirstWithVa(t.file, va), t.mem[victim].va;
    var pte := ToMemory(pt[va], f);
    Exchange(pt, t, va, victim, pte, m.k.ram[pt[out].addr]);
    MapFresh(m.k, m.pts, pid, va, pte);
    var pts1 := Put(m.pts, pid, va, pte);
    Unmap(Kalloc(m.k), pts1, pid, out, ToDisk(pt[out]), junk);
    var n := m'.(k := Kfree(Kalloc(m.k), pt[out].addr, junk));
    assert m'.pts[pid] == pt[va := pte][out := ToDisk(pt[out])];
    assert forall q :: q in m.pts && q != pid ==> m'.pts[q] == m.pts[q] && m'.tabs[q] == m.tabs[q];
    assert Inv(n);
    ContentsKeepInv(n, m'.k.ram);
    assert m' == n.(k := n.k.(ram := m'.k.ram));
  }

  lemma {:induction false} PfKeepsPages<C>(m: Machine<C>, pid: nat, va: nat, victim: nat, junk: C, q: nat, v: nat)
    requires Inv(m) && pid in m.pts && va < |m.pts[pid]| && victim < MAX_PSYC_PAGES
    requires Sane(m, pid) && HandlePf(m, pid, va, victim, junk).Handled?
    requires q in m.pts && v < |m.pts[q]|
    ensures Page(HandlePf(m, pid, va, victim, junk).m, q, v) == Page(m, q, v)
  {
    hide Inv, TableInv, FrameInv, Sane, HandlePf, FirstFree, FirstWithVa, Kfree;
    InvIsSane(m, pid);
    PfResult(m, pid, va, victim, junk);
    PfKeepsInv(m, pid, va, victim, junk);
    var m' := HandlePf(m, pid, va, victim, junk).m;
    InvIsSane(m', pid);
    var pt, t := m.pts[pid], m.tabs[pid];
    var f, j, out := m.k.free[0], FirstWithVa(t.file, va), t.mem[victim].va;
    assert Holds(m'.tabs[pid].file, j, out);
    if q == pid && v == va {
      assert m'.pts[pid][va].p;
    } else if q == pid && v == out {
      LookupIsTheSlot(m'.pts[pid], m'.tabs[pid], j, out);
    } else if m.pts[q][v].p {
      FreshIsUnmapped(m.k, m.pts, q, v);
      var pte := ToMemory(pt[va], f);
      MapFresh(m.k, m.pts, pid, va, pte);
      KfreeKeepsOthers(Kalloc(m.k), Put(m.pts, pid, va, pte), pid, out, junk, q, v);
    } else if q == pid {
      LookupFindsSlot(pt, t, v);
      var i := FirstWithVa(t.file, v);
      LookupIsTheSlot(pt, t, i, v);
      assert Holds(m'.tabs[pid].file, i, v);
      LookupIsTheSlot(m'.pts[pid], m'.tabs[pid], i, v);
    }
  }

  /** Demand paging is invisible: a page fault changes what no process sees, whichever page the
      kernel evicts for it. */
  lemma {:induction false} PfRefines<C>(m: Machine<C>, a: map<nat, seq<C>>, pid: nat, va: nat, victim: nat, junk: C)
    requires Inv(m) && Shows(m, a) && pid in m.pts && va < |m.pts[pid]| && victim < MAX_PSYC_PAGES
    requires Sane(m, pid) && HandlePf(m, pid, va, victim, junk).Handled?
    ensures Inv(HandlePf(m, pid, va, victim, junk).m) && Shows(HandlePf(m, pid, va, victim, junk).m, a)
  {
    hide Inv, Page, Sane, HandlePf, FirstFree, FirstWithVa;
    PfKeepsInv(m, pid, va, victim, junk);
    PfResult(m, pid, va, victim, junk);
    var m' := HandlePf(m, pid, va, victim, junk).m;
    forall q: nat, v: nat {:trigger Page(m', q, v)} | q in m.pts && v < |m.pts[q]|
      ensures Page(m', q, v) == Page(m, q, v)
    {
      PfKeepsPages(m, pid, va, victim, junk, q, v);
    }
    Invisible(m, m', a);
  }
}
