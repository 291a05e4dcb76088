/**
  fork with copy-on-write page tables and a copied swap file (copyonwriteuvm in vm.c, fork in
  proc.c), and the release of an address space (deallocuvm, freevm).
 */
module VmFork {
  import opened Common
  import opened Params
  import opened Frames
  import opened Tables
  import opened Vm

  // ---------- copyonwriteuvm ----------

  /** The entry set_page_flags_in_disk leaves in a child entry that was zero. */
  const PAGED_OUT := Pte(false, false, false, false, true, 0)

  /** An entry for the same page in the same place. */
  ghost predicate SamePlace(a: Pte, b: Pte) {
    a.p == b.p && (a.p ==> a.addr == b.addr && a.u == b.u) && (Placed(b) ==> Placed(a))
  }

  ghost predicate EntriesOk<C>(k: Kmem<C>, pt: seq<Pte>) {
    forall va {:trigger pt[va]} :: 0 <= va < |pt| ==> Placed(pt[va]) && (pt[va].p ==> pt[va].addr < |k.refs|)
  }

  /** The first n pages of the loop in copyonwriteuvm, from a child page table that is empty. */
  ghost function ForkPages<C>(k: Kmem<C>, pts: PageTables, parent: nat, child: nat, n: nat): (r: (Kmem<C>, PageTables))
    requires parent in pts && child !in pts && n <= |pts[parent]| && EntriesOk(k, pts[parent])
    ensures |r.0.refs| == |k.refs| && r.0.ram == k.ram
    ensures r.1.Keys == pts.Keys + {child} && |r.1[parent]| == |pts[parent]| && |r.1[child]| == n
    ensures forall va {:trigger r.1[parent][va]} :: 0 <= va < |pts[parent]| ==> SamePlace(r.1[parent][va], pts[parent][va])
    ensures forall va {:trigger r.1[child][va]} :: 0 <= va < n ==> SamePlace(r.1[child][va], pts[parent][va])
    ensures forall q :: q in pts && q != parent ==> r.1[q] == pts[q]
  {
    if n == 0 then (k, pts[child := []])
    else
      var (k1, pts1) := ForkPages(k, pts, parent, child, n - 1);
      var pte := pts1[parent][n - 1];
      if pte.pg then (k1, Put(pts1, child, n - 1, PAGED_OUT))
      else (IncCounter(k1, pte.addr), Share(pts1, parent, child, n - 1))
  }

  /** The entries under one page table page. */
  const NPTENTRIES := 1024

  /** The child has a page table page for the address: it got one with the first page mapped under it. */
  ghost predicate HasTable(pt: seq<Pte>, va: nat) {
    exists j :: 0 <= j < |pt| && pt[j].p && j / NPTENTRIES == va / NPTENTRIES
  }

  /**
    copyonwriteuvm's loop with its panic: for a paged-out page walkpgdir is asked for the child's entry
    without creating a page table page, and set_page_flags_in_disk panics when there is none.
   */
  ghost function ForkWalk<C>(k: Kmem<C>, pts: PageTables, parent: nat, child: nat, n: nat): (r: Outcome<(Kmem<C>,
      PageTables)>)
    requires parent in pts && child !in pts && n <= |pts[parent]| && EntriesOk(k, pts[parent])
    ensures r.Handled? ==> r.m == ForkPages(k, pts, parent, child, n)
  {
    if n == 0 then Handled((k, pts[child := []]))
    else
      match ForkWalk(k, pts, parent, child, n - 1)
      case Handled(w) =>
        var pte := w.1[parent][n - 1];
        if pte.pg then
          if HasTable(w.1[child], n - 1) then Handled((w.0, Put(w.1, child, n - 1, PAGED_OUT))) else Panic
        else Handled((IncCounter(w.0, pte.addr), Share(w.1, parent, child, n - 1)))
      case _ => Panic
  }

  /** A resident page comes before va under the same page table page. */
  ghost predicate TabledBefore(pt: seq<Pte>, va: nat) {
    exists j :: 0 <= j < va && j < |pt| && pt[j].p && j / NPTENTRIES == va / NPTENTRIES
  }

  /** One pass of the loop, on the state it has reached. */
  lemma {:induction false} WalkUnfold<C>(k: Kmem<C>, pts: PageTables, parent: nat, child: nat, n: nat)
    requires parent in pts && child !in pts && n < |pts[parent]| && EntriesOk(k, pts[parent])
    requires ForkWalk(k, pts, parent, child, n).Handled?
    ensures var w := ForkWalk(k, pts, parent, child, n).m;
      && parent in w.1 && child in w.1 && |w.1[parent]| == |pts[parent]| && |w.1[child]| == n
      && var pte := w.1[parent][n];
      && (!pte.pg ==> pte.p && pte.addr < |w.0.refs|)
      && ForkWalk(k, pts, parent, child, n + 1) ==
         if !pte.pg then Handled((IncCounter(w.0, pte.addr), Share(w.1, parent, child, n)))
         else if HasTable(w.1[child], n) then Handled((w.0, Put(w.1, child, n, PAGED_OUT))) else Panic
  {
    hide Put, Share, ForkPages, HasTable;
    ForkPagesUnfold(k, pts, parent, child, n);
    assert Placed(pts[parent][n]);
  }

  /** After a panic the loop is over. */
  lemma {:induction false} WalkEnds<C>(k: Kmem<C>, pts: PageTables, parent: nat, child: nat, i: nat, n: nat)
    requires parent in pts && child !in pts && i <= n <= |pts[parent]| && EntriesOk(k, pts[parent])
    requires ForkWalk(k, pts, parent, child, i) == Panic
    ensures ForkWalk(k, pts, parent, child, n) == Panic
    decreases n - i
  {
    hide ForkWalk, EntriesOk;
    if i < n {
      WalkStuck(k, pts, parent, child, i);
      WalkEnds(k, pts, parent, child, i + 1, n);
    }
  }

  /** One pass. */
  lemma {:induction false} WalkStep<C>(k: Kmem<C>, pts: PageTables, parent: nat, child: nat, n: nat)
    requires parent in pts && child !in pts && n < |pts[parent]| && EntriesOk(k, pts[parent])
    requires ForkWalk(k, pts, parent, child, n).Handled?
    ensures var r := ForkWalk(k, pts, parent, child, n + 1);
      !r.NotHandled? && (r.Handled? <==> pts[parent][n].p || TabledBefore(pts[parent], n))
  {
    hide Put, Share, ForkPages, TabledBefore, HasTable, ForkWalk, EntriesOk;
    WalkUnfold(k, pts, parent, child, n);
    EntryPlaced(k, pts[parent], n);
    var pts1 := ForkPages(k, pts, parent, child, n).1;
    assert SamePlace(pts1[parent][n], pts[parent][n]);
    SameTables(pts1[child], pts[parent], n);
  }

  lemma {:induction false} WalkStuck<C>(k: Kmem<C>, pts: PageTables, parent: nat, child: nat, n: nat)
    requires parent in pts && child !in pts && n < |pts[parent]| && EntriesOk(k, pts[parent])
    requires !ForkWalk(k, pts, parent, child, n).Handled?
    ensures ForkWalk(k, pts, parent, child, n + 1) == Panic
  {
    hide Put, Share, ForkPages;
  }

  /** The loop comes to its end exactly when every paged-out page has a resident one before it. */
  lemma {:induction false} WalkIsPages<C>(k: Kmem<C>, pts: PageTables, parent: nat, child: nat, n: nat)
    requires parent in pts && child !in pts && n <= |pts[parent]| && EntriesOk(k, pts[parent])
    ensures var r := ForkWalk(k, pts, parent, child, n);
      && !r.NotHandled?
      && (r.Handled? ==> r.m == ForkPages(k, pts, parent, child, n))
      && (r.Handled? <==> forall i: nat :: i < n && !pts[parent][i].p ==> TabledBefore(pts[parent], i))
  {
    hide ForkWalk, ForkPages, EntriesOk, TabledBefore;
    if n == 0 {
      WalkStart(k, pts, parent, child);
    } else {
      WalkIsPages(k, pts, parent, child, n - 1);
      if ForkWalk(k, pts, parent, child, n - 1).Handled? {
        WalkStep(k, pts, parent, child, n - 1);
      } else {
        WalkStuck(k, pts, parent, child, n - 1);
      }
    }
  }

  lemma {:induction false} WalkStart<C>(k: Kmem<C>, pts: PageTables, parent: nat, child: nat)
    requires parent in pts && child !in pts && EntriesOk(k, pts[parent])
    ensures ForkWalk(k, pts, parent, child, 0) == Handled((k, pts[child := []]))
  {
  }

  lemma {:induction false} EntryPlaced<C>(k: Kmem<C>, pt: seq<Pte>, va: nat)
    requires EntriesOk(k, pt) && va < |pt|
    ensures Placed(pt[va])
  {
  }

  lemma {:induction false} SameTables(a: seq<Pte>, b: seq<Pte>, n: nat)
    requires |a| == n <= |b| && forall va {:trigger a[va]} :: 0 <= va < n ==> SamePlace(a[va], b[va])
    ensures HasTable(a, n) <==> TabledBefore(b, n)
  {
    if TabledBefore(b, n) {
      var j :| 0 <= j < n && j < |b| && b[j].p && j / NPTENTRIES == n / NPTENTRIES;
      assert a[j].p;
    }
  }

  lemma {:induction false} ForkPagesUnfold<C>(k: Kmem<C>, pts: PageTables, parent: nat, child: nat, n: nat)
    requires parent in pts && child !in pts && n < |pts[parent]| && EntriesOk(k, pts[parent])
    ensures var (k1, pts1) := ForkPages(k, pts, parent, child, n);
      var pte := pts1[parent][n];
      && SamePlace(pte, pts[parent][n]) && (!pte.pg ==> pte.addr < |k1.refs|)
      && ForkPages(k, pts, parent, child, n + 1) ==
           if pte.pg then (k1, Put(pts1, child, n, PAGED_OUT)) else (IncCounter(k1, pte.addr), Share(pts1, parent, child, n))
  {
    hide Put, Share;
  }

  lemma {:induction false} ForkPagesKeepInv<C>(k: Kmem<C>, pts: PageTables, parent: nat, child: nat, n: nat)
    requires parent in pts && child !in pts && n <= |pts[parent]| && EntriesOk(k, pts[parent])
    requires FrameInv(k, pts)
    ensures var r := ForkPages(k, pts, parent, child, n); FrameInv(r.0, r.1)
  {
    if n == 0 {
      SameMappersKeepInv(k, pts, pts[child := []]);
    } else {
      ForkPagesKeepInv(k, pts, parent, child, n - 1);
      var r := ForkPages(k, pts, parent, child, n - 1);
      if !r.1[parent][n - 1].p {
        UnmappedKeepsInv(r.0, r.1, child, n - 1, PAGED_OUT);
      } else {
        ShareKeepsInv(r.0, r.1, parent, child, n - 1);
      }
    }
  }

  // ---------- The swap file ----------

  /** fork's copy of the used slots, in slot order, to an empty file. */
  ghost function CopySwap<C>(file: seq<Slot>, swap: seq<C>, n: nat): (r: seq<C>)
    requires n <= |file| && UsedArePrefix(file)
    requires forall i :: 0 <= i < |file| && file[i].used ==> i < |swap|
    ensures forall i :: 0 <= i < n && file[i].used ==> i < |r| && r[i] == swap[i]
    ensures n > 0 && file[n - 1].used ==> |r| == n
    ensures |r| <= n
  {
    if n == 0 then []
    else
      var prev := CopySwap(file, swap, n - 1);
      if file[n - 1].used then
        assert n > 1 ==> file[n - 2].used;
        WriteSlot(prev, n - 1, swap[n - 1])
      else prev
  }

  lemma {:induction false} CopiedSwapOk<C>(pt: seq<Pte>, t: Tables<C>)
    requires TableInv(pt, t)
    ensures TableInv(pt, t.(swap := CopySwap(t.file, t.swap, |t.file|)))
  {
  }

  // ---------- fork ----------

  ghost predicate Forkable<C>(m: Machine<C>, parent: nat) {
    && parent in m.pts && parent in m.tabs
    && EntriesOk(m.k, m.pts[parent]) && UsedArePrefix(m.tabs[parent].file)
    && forall i :: 0 <= i < |m.tabs[parent].file| && m.tabs[parent].file[i].used ==> i < |m.tabs[parent].swap|
  }

  /** fork of a paged process. */
  ghost function Fork<C>(m: Machine<C>, parent: nat, child: nat): (r: Outcome<Machine<C>>)
    requires Forkable(m, parent) && child !in m.pts
  {
    var t := m.tabs[parent];
    match ForkWalk(m.k, m.pts, parent, child, |m.pts[parent]|)
    case Handled(w) =>
      Handled(Machine(w.0, w.1, m.tabs[child := Tables(t.mem, t.file, CopySwap(t.file, t.swap, |t.file|))]))
    case _ => Panic
  }

  /** A fork that succeeds is the loop without its panics. */
  lemma {:induction false} ForkIsPages<C>(m: Machine<C>, parent: nat, child: nat)
    requires Forkable(m, parent) && child !in m.pts
    ensures var r, t, w := Fork(m, parent, child), m.tabs[parent], ForkPages(m.k, m.pts, parent, child, |m.pts[parent]|);
      !r.NotHandled? &&
      (r.Handled? ==> r.m == Machine(w.0, w.1, m.tabs[child := Tables(t.mem, t.file, CopySwap(t.file, t.swap, |t.file|))]))
  {
    hide ForkPages, ForkWalk, CopySwap, UsedArePrefix;
    WalkIsPages(m.k, m.pts, parent, child, |m.pts[parent]|);
  }

  lemma {:induction false} CanFork<C>(m: Machine<C>, parent: nat)
    requires Inv(m) && parent in m.pts
    ensures Forkable(m, parent)
  {
    hide FirstFree, FrameInv;
    InvIsSane(m, parent);
  }

  lemma {:induction false} ForkKeepsInv<C>(m: Machine<C>, parent: nat, child: nat)
    requires Inv(m) && Forkable(m, parent) && child !in m.pts
    ensures Fork(m, parent, child).Handled? ==> Inv(Fork(m, parent, child).m)
  {
    hide TableInv, FrameInv, CopySwap, ForkPages, UsedArePrefix, Fork;
    var r := Fork(m, parent, child);
    ForkIsPages(m, parent, child);
    if r.Handled? {
      InvIsSane(m, parent);
      ForkPagesKeepInv(m.k, m.pts, parent, child, |m.pts[parent]|);
      var m' := r.m;
      SamePlaces(m.pts[parent], m'.pts[parent], m.tabs[parent]);
      SamePlaces(m.pts[parent], m'.pts[child], m.tabs[parent]);
      CopiedSwapOk(m'.pts[child], m.tabs[parent]);
    }
  }

  lemma {:induction false} ForkPageContents<C>(m: Machine<C>, parent: nat, child: nat, q: nat, v: nat)
    requires Inv(m) && Forkable(m, parent) && child !in m.pts
    requires Fork(m, parent, child).Handled?
    requires q in m.pts || q == child
    requires v < |m.pts[if q == child then parent else q]|
    ensures Page(Fork(m, parent, child).m, q, v) == Page(m, if q == child then parent else q, v)
  {
    hide Inv, TableInv, FrameInv, ForkPages, UsedArePrefix, FirstWithVa, Fork;
    InvIsSane(m, parent);
    ForkIsPages(m, parent, child);
    var m' := Fork(m, parent, child).m;
    if q == child {
      assert SamePlace(m'.pts[child][v], m.pts[parent][v]);
      if !m.pts[parent][v].p {
        LookupFindsSlot(m.pts[parent], m.tabs[parent], v);
      }
    } else if q == parent {
      assert SamePlace(m'.pts[parent][v], m.pts[parent][v]);
    }
  }

  /** Copy-on-write fork refines eager copying: the child sees a copy of the parent's memory, resident
      and paged-out pages alike, and nobody else sees a change. */
  lemma {:induction false} ForkRefines<C>(m: Machine<C>, a: map<nat, seq<C>>, parent: nat, child: nat)
    requires Inv(m) && Shows(m, a) && Forkable(m, parent) && child !in m.pts
    requires Fork(m, parent, child).Handled?
    ensures var m' := Fork(m, parent, child).m;
      Inv(m') && Shows(m', a[child := a[parent]])
  {
    hide Inv, Page, ForkPages, UsedArePrefix, CopySwap, Fork;
    ForkIsPages(m, parent, child);
    ForkKeepsInv(m, parent, child);
    var m', a' := Fork(m, parent, child).m, a[child := a[parent]];
    assert Sees(m, parent, a[parent]);
    forall q: nat | q in a'
      ensures Sees(m', q, a'[q])
    {
      var src := if q == child then parent else q;
      assert Sees(m, src, a[src]);
      forall v: nat {:trigger a'[q][v]} | v < |a'[q]|
        ensures Page(m', q, v) == Some(a'[q][v])
      {
        assert Page(m, src, v) == Some(a[src][v]);
        ForkPageContents(m, parent, child, q, v);
      }
    }
  }

  /**
    fork succeeds if and only if the page at address 0 is resident: within MAX_TOTAL_PAGES pages there is
    one page table page, and page 0 is the first that can bring it about.
   */
  lemma {:induction false} ForkSucceedsIff<C>(m: Machine<C>, parent: nat, child: nat)
    requires Inv(m) && Forkable(m, parent) && child !in m.pts
    ensures Fork(m, parent, child).Handled? <==> m.pts[parent] == [] || m.pts[parent][0].p
  {
    hide ForkWalk, TableInv, FrameInv, UsedArePrefix, CopySwap;
    var pt := m.pts[parent];
    InvIsSane(m, parent);
    WalkIsPages(m.k, m.pts, parent, child, |pt|);
    assert |pt| <= MAX_TOTAL_PAGES by { PageLimit(pt, m.tabs[parent]); }
    if pt != [] {
      assert !TabledBefore(pt, 0);
      forall i: nat | i < |pt| && !pt[i].p && pt[0].p
        ensures TabledBefore(pt, i)
      {
        assert 0 / NPTENTRIES == i / NPTENTRIES && i != 0;
      }
    }
  }

  lemma {:induction false} PageLimit<C>(pt: seq<Pte>, t: Tables<C>)
    requires TableInv(pt, t)
    ensures |pt| <= MAX_TOTAL_PAGES
  {
  }

  // ---------- freevm ----------

  const ABSENT := Pte(false, false, false, false, false, 0)

  /** The first n pages of deallocuvm's loop: frames of resident pages are released. */
  ghost function FreePages<C>(k: Kmem<C>, pts: PageTables, pid: nat, n: nat, junk: C): (r: (Kmem<C>, PageTables))
    requires pid in pts && n <= |pts[pid]| && EntriesInRange(k, pts[pid])
    ensures |r.0.refs| == |k.refs| && |r.0.ram| == |k.ram|
    ensures r.1.Keys == pts.Keys && |r.1[pid]| == |pts[pid]|
    ensures forall va {:trigger r.1[pid][va]} :: 0 <= va < |pts[pid]| ==>
        if va < n then !r.1[pid][va].p else r.1[pid][va] == pts[pid][va]
    ensures forall q :: q in pts && q != pid ==> r.1[q] == pts[q]
  {
    if n == 0 then (k, pts)
    else
      var (k1, pts1) := FreePages(k, pts, pid, n - 1, junk);
      var pte := pts1[pid][n - 1];
      if !pte.p then (k1, pts1)
      else (Kfree(k1, pte.addr, junk), Put(pts1, pid, n - 1, ABSENT))
  }

  ghost predicate EntriesInRange<C>(k: Kmem<C>, pt: seq<Pte>) {
    |k.refs| == |k.ram| && forall va {:trigger pt[va]} :: 0 <= va < |pt| && pt[va].p ==> pt[va].addr < |k.refs|
  }

  lemma {:induction false} FreePagesKeep<C>(k: Kmem<C>, pts: PageTables, pid: nat, n: nat, junk: C)
    requires pid in pts && n <= |pts[pid]| && EntriesInRange(k, pts[pid]) && FrameInv(k, pts)
    ensures var r := FreePages(k, pts, pid, n, junk);
      && FrameInv(r.0, r.1)
      && (forall q: nat, v: nat {:trigger pts[q][v]} :: q in pts && q != pid && v < |pts[q]| && pts[q][v].p ==>
            pts[q][v].addr < |k.ram| && r.0.ram[pts[q][v].addr] == k.ram[pts[q][v].addr])
  {
    hide FrameInv;
    if n == 0 {
      forall q: nat, v: nat {:trigger pts[q][v]} | q in pts && v < |pts[q]| && pts[q][v].p
        ensures pts[q][v].addr < |k.ram|
      {
        HasMapper(k, pts, q, v);
      }
    } else {
      FreePagesKeep(k, pts, pid, n - 1, junk);
      var r := FreePages(k, pts, pid, n - 1, junk);
      if r.1[pid][n - 1].p {
        Unmap(r.0, r.1, pid, n - 1, ABSENT, junk);
        forall q: nat, v: nat {:trigger pts[q][v]} | q in pts && q != pid && v < |pts[q]| && pts[q][v].p
          ensures Kfree(r.0, r.1[pid][n - 1].addr, junk).ram[pts[q][v].addr] == r.0.ram[pts[q][v].addr]
        {
          KfreeKeepsOthers(r.0, r.1, pid, n - 1, junk, q, v);
        }
      }
    }
  }

  /** freevm: the process is gone, and frames nobody else maps are free. */
  ghost function Free<C>(m: Machine<C>, pid: nat, junk: C): (r: Machine<C>)
    requires pid in m.pts && EntriesInRange(m.k, m.pts[pid])
  {
    var (k, pts) := FreePages(m.k, m.pts, pid, |m.pts[pid]|, junk);
    Machine(k, pts - {pid}, m.tabs - {pid})
  }

  lemma {:induction false} CanFree<C>(m: Machine<C>, pid: nat)
    requires Inv(m) && pid in m.pts
    ensures EntriesInRange(m.k, m.pts[pid])
  {
    hide TableInv, FrameInv;
    InvIsSane(m, pid);
  }

  lemma {:induction false} FreeKeepsInv<C>(m: Machine<C>, pid: nat, junk: C)
    requires Inv(m) && pid in m.pts && EntriesInRange(m.k, m.pts[pid])
    ensures Inv(Free(m, pid, junk))
  {
    hide TableInv, FrameInv, FreePages;
    FreePagesKeep(m.k, m.pts, pid, |m.pts[pid]|, junk);
    var r := FreePages(m.k, m.pts, pid, |m.pts[pid]|, junk);
    SameMappersKeepInv(r.0, r.1, r.1 - {pid});
  }

  /** Releasing an address space leaves every other process its memory. */
  lemma {:induction false} FreeRefines<C>(m: Machine<C>, a: map<nat, seq<C>>, pid: nat, junk: C)
    requires Inv(m) && Shows(m, a) && pid in m.pts && EntriesInRange(m.k, m.pts[pid])
    ensures Inv(Free(m, pid, junk)) && Shows(Free(m, pid, junk), a - {pid})
  {
    hide Inv, FrameInv, FreePages, FirstWithVa;
    FreeKeepsInv(m, pid, junk);
    InvIsSane(m, pid);
    FreePagesKeep(m.k, m.pts, pid, |m.pts[pid]|, junk);
    var m', a' := Free(m, pid, junk), a - {pid};
    forall q: nat | q in a'
      ensures Sees(m', q, a'[q])
    {
      assert Sees(m, q, a[q]);
      forall v: nat {:trigger a'[q][v]} | v < |a'[q]|
        ensures Page(m', q, v) == Some(a'[q][v])
      {
        assert Page(m, q, v) == Some(a[q][v]);
        assert m'.pts[q][v] == m.pts[q][v];
      }
    }
  }
}
