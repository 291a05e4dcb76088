/**
  The kernel code of vm.c, kalloc.c and fork as methods on the machine's fields, with the loops of
  the source; each is proved to take the machine where the step functions of Vm say.
 */
module VmKernel {
  import opened Common
  import opened Params
  import opened Frames
  import opened Tables
  import opened Vm
  import opened VmGrow
  import opened VmOpen
  import opened VmAlloc
  import opened VmFork

  /** next_free_i_in_mem, next_free_i_in_file. */
  method NextFree(s: seq<Slot>) returns (i: int)
    ensures i == FirstFree(s)
  {
    i := 0;
    while i < |s| && s[i].used
      invariant 0 <= i <= |s|
      invariant forall j :: 0 <= j < i ==> s[j].used
    {
      i := i + 1;
    }
    if i == |s| {
      i := -1;
    }
  }

  /** get_i_of_va_in_file. */
  method IndexOfVa(s: seq<Slot>, va: nat) returns (i: int)
    ensures i == FirstWithVa(s, va)
  {
    i := 0;
    while i < |s| && s[i].va != va
      invariant 0 <= i <= |s|
      invariant forall j :: 0 <= j < i ==> s[j].va != va
    {
      i := i + 1;
    }
    if i == |s| {
      i := -1;
    }
  }

  /** fork's loop over the swap slots. */
  method CopySwapFile<C>(file: seq<Slot>, swap: seq<C>) returns (copy: seq<C>)
    requires UsedArePrefix(file)
    requires forall i :: 0 <= i < |file| && file[i].used ==> i < |swap|
    ensures copy == CopySwap(file, swap, |file|)
  {
    copy := [];
    var i := 0;
    while i < |file|
      invariant 0 <= i <= |file|
      invariant copy == CopySwap(file, swap, i)
    {
      if file[i].used {
        assert i > 0 ==> file[i - 1].used;
        copy := WriteSlot(copy, i, swap[i]);
      }
      i := i + 1;
    }
  }

  /** The page table pages that the entries of a page table lie under. */
  ghost predicate TablesAre(pt: seq<Pte>, tables: set<nat>) {
    forall d: nat :: d in tables <==> exists j :: 0 <= j < |pt| && pt[j].p && j / NPTENTRIES == d
  }

  lemma {:induction false} NoTables()
    ensures TablesAre([], {})
  {
  }

  lemma {:induction false} TableThere(pt: seq<Pte>, tables: set<nat>, va: nat)
    requires TablesAre(pt, tables)
    ensures HasTable(pt, va) <==> va / NPTENTRIES in tables
  {
  }

  lemma {:induction false} PutAbsent(pts: PageTables, child: nat, tables: set<nat>, va: nat)
    requires child in pts && |pts[child]| == va && TablesAre(pts[child], tables)
    ensures TablesAre(Put(pts, child, va, PAGED_OUT)[child], tables)
  {
    OneMoreEntry(pts[child], tables, PAGED_OUT);
  }

  lemma {:induction false} ShareAdds(pts: PageTables, parent: nat, child: nat, tables: set<nat>, va: nat)
    requires parent in pts && child in pts && parent != child && va < |pts[parent]| && |pts[child]| == va
    requires pts[parent][va].p && TablesAre(pts[child], tables)
    ensures TablesAre(Share(pts, parent, child, va)[child], tables + {va / NPTENTRIES})
  {
    OneMoreEntry(pts[child], tables, pts[parent][va].(cow := true, w := false));
  }

  lemma {:induction false} OneMoreEntry(pt: seq<Pte>, tables: set<nat>, pte: Pte)
    requires TablesAre(pt, tables)
    ensures TablesAre(pt + [pte], tables + if pte.p then {|pt| / NPTENTRIES} else {})
    ensures !pte.p ==> TablesAre(pt + [pte], tables)
  {
    var r := pt + [pte];
    forall d: nat
      ensures (d in tables || (pte.p && d == |pt| / NPTENTRIES)) <==> exists j :: 0 <= j < |r| && r[j].p && j / NPTENTRIES == d
    {
      if j :| 0 <= j < |pt| && pt[j].p && j / NPTENTRIES == d {
        assert r[j].p;
      }
      assert r[|pt|] == pte;
    }
  }

  class Kernel<C> {
    var ram: seq<C>
    var refs: seq<nat>
    var freelist: seq<nat>
    var pts: PageTables
    var tabs: map<nat, Tables<C>>

    ghost function Snap(): Machine<C>
      reads this
    {
      Machine(Kmem(ram, refs, freelist), pts, tabs)
    }

    constructor (m: Machine<C>)
      ensures Snap() == m
    {
      ram, refs, freelist, pts, tabs := m.k.ram, m.k.refs, m.k.free, m.pts, m.tabs;
    }

    /** kalloc: the head of the free list with one reference, or -1. */
    method KallocFrame() returns (f: int)
      requires freelist != [] ==> freelist[0] < |refs|
      modifies this`refs, this`freelist
      ensures old(freelist) == [] <==> f < 0
      ensures f < 0 ==> Snap() == old(Snap())
      ensures f >= 0 ==> f == old(freelist)[0] && Snap() == old(Snap()).(k := Kalloc(old(Snap()).k))
    {
      if freelist == [] {
        return -1;
      }
      f := freelist[0];
      freelist := freelist[1..];
      refs := refs[f := 1];
    }

    /** kfree. */
    method KfreeFrame(f: nat, junk: C)
      requires f < |refs| && f < |ram|
      modifies this`ram, this`refs, this`freelist
      ensures Snap() == old(Snap()).(k := Kfree(old(Snap()).k, f, junk))
    {
      if refs[f] > 0 {
        refs := refs[f := refs[f] - 1];
      }
      if refs[f] != 0 {
        return;
      }
      ram := ram[f := junk];
      freelist := [f] + freelist;
    }

    /** handle_cow. */
    method CowFault(pid: nat, va: nat) returns (handled: bool, panicked: bool)
      requires Sane(Snap(), pid) && va < |pts[pid]| && pts[pid][va].p
      modifies this
      ensures match HandleCow(old(Snap()), pid, va)
        case Handled(m) => handled && !panicked && Snap() == m
        case NotHandled => !handled && !panicked && Snap() == old(Snap())
        case Panic => panicked
    {
      hide TableInv, FirstFree, FirstWithVa;
      var pte := pts[pid][va];
      if pte.w || !pte.cow {
        return false, false;
      }
      if refs[pte.addr] > 1 {
        var f := KallocFrame();
        if f < 0 {
          return false, true;
        }
        ram := ram[f := ram[pte.addr]];
        refs := refs[pte.addr := refs[pte.addr] - 1];
        pts := Put(pts, pid, va, Pte(true, true, true, false, false, f));
      } else {
        pts := Put(pts, pid, va, pte.(cow := false, w := true));
      }
      return true, false;
    }

    /** handle_pf. */
    method PageFault(pid: nat, va: nat, victim: nat, junk: C) returns (handled: bool, panicked: bool)
      requires Sane(Snap(), pid) && va < |pts[pid]| && victim < MAX_PSYC_PAGES
      modifies this
      ensures match HandlePf(old(Snap()), pid, va, victim, junk)
        case Handled(m) => handled && !panicked && Snap() == m
        case NotHandled => !handled && !panicked && Snap() == old(Snap())
        case Panic => panicked
    {
      hide FirstFree, FirstWithVa;
      var pte := pts[pid][va];
      if pte.p || !pte.pg {
        return false, false;
      }
      var f := KallocFrame();
      var t := tabs[pid];
      var slot := NextFree(t.mem);
      var needSwap := slot < 0;
      if needSwap {
        slot := victim;
      }
      var oldPage := t.mem[slot];
      if f < 0 {
        return false, true;
      }
      pts := Put(pts, pid, va, ToMemory(pte, f));
      var j := IndexOfVa(t.file, va);
      if j < 0 || j >= |t.swap| {
        return false, true;
      }
      var buffer := t.swap[j];
      var mem := t.mem[slot := t.file[j]];
      var file := t.file[j := t.file[j].(used := false)];
      var swap := t.swap;
      if needSwap {
        var out := pts[pid][oldPage.va];
        swap := WriteSlot(swap, j, ram[out.addr]);
        file := file[j := Slot(true, oldPage.va)];
        pts := Put(pts, pid, oldPage.va, ToDisk(out));
        KfreeFrame(out.addr, junk);
      }
      tabs := tabs[pid := Tables(mem, file, swap)];
      ram := ram[f := buffer];
      return true, false;
    }

    /** The loop body of allocuvm, with swap. */
    method GrowPage(pid: nat, victim: nat, zero: C, junk: C) returns (ok: bool)
      requires Sane(Snap(), pid) && victim < MAX_PSYC_PAGES
      modifies this
      ensures match Grow(old(Snap()), pid, victim, zero, junk)
        case Handled(m) => ok && Snap() == m
        case _ => !ok
      ensures Inv(old(Snap())) && |old(pts)[pid]| < MAX_TOTAL_PAGES && old(freelist) != [] ==>
        && ok && Inv(Snap()) && CanStore(Snap(), pid, |old(pts)[pid]|) && Page(Snap(), pid, |old(pts)[pid]|) == Some(zero)
    {
      hide FirstFree, Inv, Page, CanStore;
      if Inv(Snap()) && |pts[pid]| < MAX_TOTAL_PAGES && freelist != [] {
        GrowGives(Snap(), pid, victim, zero, junk);
      }
      var t := tabs[pid];
      var va := |pts[pid]|;
      var f := KallocFrame();
      if f < 0 {
        return false;
      }
      ram := ram[f := zero];
      pts := Put(pts, pid, va, NewPte(f));
      var slot := NextFree(t.mem);
      if slot >= 0 {
        tabs := tabs[pid := t.(mem := t.mem[slot := Slot(true, va)])];
        return true;
      }
      var j := NextFree(t.file);
      if j < 0 || j > |t.swap| {
        tabs := tabs[pid := t.(file := t.file[MAX_PSYC_PAGES - 1 := Slot(true, va)])];
        return true;
      }
      var out := t.mem[victim].va;
      var pte := pts[pid][out];
      var swap := WriteSlot(t.swap, j, ram[pte.addr]);
      var file := t.file[j := Slot(true, out)];
      KfreeFrame(pte.addr, junk);
      var mem := t.mem[victim := t.mem[victim].(used := false)];
      pts := Put(pts, pid, out, ToDisk(pte));
      tabs := tabs[pid := Tables(mem[victim := Slot(true, va)], file, swap)];
      return true;
    }

    /** allocuvm: its test and its loop, with the victims that the policy picks. */
    method AllocUvm(pid: nat, victims: seq<nat>, zero: C, junk: C) returns (ok: bool)
      requires Sane(Snap(), pid) && Victims(victims)
      modifies this
      ensures match Alloc(old(Snap()), pid, victims, zero, junk)
        case Handled(m) => ok && Snap() == m
        case _ => !ok
      ensures |victims| > MAX_TOTAL_PAGES ==> Snap() == old(Snap())
    {
      hide AllocPages, Sane, Grow;
      if |victims| > MAX_TOTAL_PAGES {
        return false;
      }
      ghost var m0 := Snap();
      NoPages(m0, pid, [], zero, junk);
      assert victims[..0] == [];
      var i := 0;
      while i < |victims|
        invariant 0 <= i <= |victims| && Victims(victims[..i])
        invariant AllocPages(m0, pid, victims[..i], zero, junk) == Handled(Snap())
      {
        var upTo := victims[..i + 1];
        assert upTo[..i] == victims[..i];
        AllocUnfold(m0, pid, upTo, zero, junk);
        var grown := GrowPage(pid, victims[i], zero, junk);
        if !grown {
          AllocStops(m0, pid, victims, i + 1, zero, junk);
          return false;
        }
        i := i + 1;
      }
      assert victims[..i] == victims;
      return true;
    }

    /** copyonwriteuvm. `tables` are the page table pages that mappages has created for the child; a
        paged-out page that has none panics in set_page_flags_in_disk. */
    method CopyOnWriteUvm(parent: nat, child: nat) returns (panicked: bool)
      requires parent in pts && child !in pts && EntriesOk(Kmem(ram, refs, freelist), pts[parent])
      modifies this`refs, this`pts
      ensures match ForkWalk(old(Snap()).k, old(pts), parent, child, |old(pts)[parent]|)
        case Handled(w) => !panicked && (Kmem(ram, refs, freelist), pts) == w
        case _ => panicked
    {
      hide Put, Share, ForkWalk, ForkPages, EntriesOk, HasTable, TablesAre;
      ghost var k0, pts0 := Kmem(ram, refs, freelist), pts;
      WalkStart(k0, pts0, parent, child);
      var n := |pts[parent]|;
      var tables: set<nat> := {};
      pts := pts[child := []];
      NoTables();
      var i := 0;
      while i < n
        invariant 0 <= i <= n == |pts0[parent]| && parent in pts && child in pts && |pts[child]| == i
        invariant ForkWalk(k0, pts0, parent, child, i) == Handled((Kmem(ram, refs, freelist), pts))
        invariant TablesAre(pts[child], tables)
      {
        WalkUnfold(k0, pts0, parent, child, i);
        var pte := pts[parent][i];
        assert HasTable(pts[child], i) <==> i / NPTENTRIES in tables by { TableThere(pts[child], tables, i); }
        if pte.pg {
          if i / NPTENTRIES !in tables {
            WalkEnds(k0, pts0, parent, child, i + 1, n);
            return true;
          }
          assert TablesAre(Put(pts, child, i, PAGED_OUT)[child], tables) by { PutAbsent(pts, child, tables, i); }
          pts := Put(pts, child, i, PAGED_OUT);
        } else {
          assert TablesAre(Share(pts, parent, child, i)[child], tables + {i / NPTENTRIES}) by {
            ShareAdds(pts, parent, child, tables, i);
          }
          refs := refs[pte.addr := refs[pte.addr] + 1];
          pts := Share(pts, parent, child, i);
          tables := tables + {i / NPTENTRIES};
        }
        i := i + 1;
      }
      return false;
    }

    /** fork, as far as memory is concerned: page tables, the two paging tables and the swap file. */
    method ForkProc(parent: nat, child: nat) returns (panicked: bool)
      requires Forkable(Snap(), parent) && child !in pts
      modifies this
      ensures match Fork(old(Snap()), parent, child)
        case Handled(m) => !panicked && Snap() == m
        case _ => panicked
    {
      hide UsedArePrefix, ForkPages, ForkWalk, CopySwap;
      panicked := CopyOnWriteUvm(parent, child);
      if !panicked {
        var t := tabs[parent];
        var swap := CopySwapFile(t.file, t.swap);
        tabs := tabs[child := Tables(t.mem, t.file, swap)];
      }
    }

    /** deallocuvm from 0, as freevm calls it, and the end of the address space. */
    method FreeVm(pid: nat, junk: C)
      requires pid in pts && EntriesInRange(Kmem(ram, refs, freelist), pts[pid])
      modifies this
      ensures Snap() == Free(old(Snap()), pid, junk)
    {
      hide Put, Kfree;
      ghost var k0, pts0 := Kmem(ram, refs, freelist), pts;
      var n := |pts[pid]|;
      var va := 0;
      while va < n
        invariant 0 <= va <= n == |pts0[pid]|
        invariant (Kmem(ram, refs, freelist), pts) == FreePages(k0, pts0, pid, va, junk)
        invariant tabs == old(tabs)
      {
        var pte := pts[pid][va];
        assert pte == pts0[pid][va];
        if pte.p {
          KfreeFrame(pte.addr, junk);
          pts := Put(pts, pid, va, ABSENT);
        }
        va := va + 1;
      }
      pts := pts - {pid};
      tabs := tabs - {pid};
    }
  }
}
