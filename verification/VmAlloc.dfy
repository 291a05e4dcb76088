/**
  allocuvm as a whole (vm.c): its test of the pages asked for, and its loop. The test bounds the pages of
  one call; what matters is the pages of the process.
 */
module VmAlloc {
  import opened Common
  import opened Params
  import opened Frames
  import opened Tables
  import opened Vm
  import opened VmGrow

  /** Any choice of slots to evict. */
  ghost predicate Victims(vs: seq<nat>) {
    forall i :: 0 <= i < |vs| ==> vs[i] < MAX_PSYC_PAGES
  }

  /** The loop, one page for every victim in vs; a victim matters only when memory is full. */
  ghost function AllocPages<C>(m: Machine<C>, pid: nat, vs: seq<nat>, zero: C, junk: C): (r: Outcome<Machine<C>>)
    requires Sane(m, pid) && Victims(vs)
    ensures r.Handled? ==> Sane(r.m, pid)
  {
    if |vs| == 0 then Handled(m)
    else
      match AllocPages(m, pid, vs[..|vs| - 1], zero, junk)
      case Handled(m1) =>
        GrowSane(m1, pid, vs[|vs| - 1], zero, junk);
        Grow(m1, pid, vs[|vs| - 1], zero, junk)
      case other => other
  }

  /** allocuvm: it refuses a call for more than MAX_TOTAL_PAGES pages. */
  ghost function Alloc<C>(m: Machine<C>, pid: nat, vs: seq<nat>, zero: C, junk: C): (r: Outcome<Machine<C>>)
    requires Sane(m, pid) && Victims(vs)
  {
    if |vs| > MAX_TOTAL_PAGES then NotHandled else AllocPages(m, pid, vs, zero, junk)
  }

  lemma {:induction false} GrowSane<C>(m: Machine<C>, pid: nat, victim: nat, zero: C, junk: C)
    requires Sane(m, pid) && victim < MAX_PSYC_PAGES
    ensures Grow(m, pid, victim, zero, junk).Handled? ==> Sane(Grow(m, pid, victim, zero, junk).m, pid)
  {
    hide FirstFree;
  }

  /** A page costs at most one frame. */
  lemma {:induction false} GrowFrames<C>(m: Machine<C>, pid: nat, victim: nat, zero: C, junk: C)
    requires Sane(m, pid) && victim < MAX_PSYC_PAGES && m.k.free != []
    ensures var r := Grow(m, pid, victim, zero, junk);
      && r.Handled? && |r.m.k.free| >= |m.k.free| - 1
      && r.m.pts.Keys == m.pts.Keys && |r.m.pts[pid]| == |m.pts[pid]| + 1
  {
    hide FirstFree;
  }

  lemma {:induction false} AllocUnfold<C>(m: Machine<C>, pid: nat, vs: seq<nat>, zero: C, junk: C)
    requires Sane(m, pid) && Victims(vs) && |vs| > 0
    ensures Victims(vs[..|vs| - 1]) && vs[|vs| - 1] < MAX_PSYC_PAGES
    ensures var r := AllocPages(m, pid, vs[..|vs| - 1], zero, junk);
      AllocPages(m, pid, vs, zero, junk) == if r.Handled? then Grow(r.m, pid, vs[|vs| - 1], zero, junk) else r
  {
    hide Grow, Sane;
  }

  /** A call that fails stays failed. */
  lemma {:induction false} AllocStops<C>(m: Machine<C>, pid: nat, vs: seq<nat>, i: nat, zero: C, junk: C)
    requires Sane(m, pid) && Victims(vs) && i <= |vs| && Victims(vs[..i])
    requires !AllocPages(m, pid, vs[..i], zero, junk).Handled?
    ensures !AllocPages(m, pid, vs, zero, junk).Handled?
    decreases |vs|
  {
    hide AllocPages, Sane;
    if i == |vs| {
      assert vs[..i] == vs;
    } else {
      var last := |vs| - 1;
      assert vs[..last][..i] == vs[..i];
      AllocStops(m, pid, vs[..last], i, zero, junk);
      AllocUnfold(m, pid, vs, zero, junk);
    }
  }

  /** Up to MAX_TOTAL_PAGES pages in all, the loop appends zero pages to what the process sees. */
  lemma {:induction false} AllocGood<C>(m: Machine<C>, a: map<nat, seq<C>>, pid: nat, vs: seq<nat>, zero: C, junk: C)
    requires Inv(m) && Shows(m, a) && pid in m.pts && Sane(m, pid) && Victims(vs)
    requires |vs| <= |m.k.free| && |m.pts[pid]| + |vs| <= MAX_TOTAL_PAGES
    ensures pid in a
    ensures var r := AllocPages(m, pid, vs, zero, junk);
      && r.Handled? && Inv(r.m) && Shows(r.m, a[pid := a[pid] + Copies(zero, |vs|)])
      && |r.m.k.free| >= |m.k.free| - |vs| && pid in r.m.pts && |r.m.pts[pid]| == |m.pts[pid]| + |vs|
    decreases |vs|
  {
    hide Inv, Sees, Sane, Grow, AllocPages, Victims;
    if |vs| == 0 {
      NoPages(m, pid, vs, zero, junk);
      assert a[pid] + Copies(zero, 0) == a[pid];
      assert a[pid := a[pid] + Copies(zero, 0)] == a;
    } else {
      var n := |vs| - 1;
      AllocUnfold(m, pid, vs, zero, junk);
      AllocGood(m, a, pid, vs[..n], zero, junk);
      var m1 := AllocPages(m, pid, vs[..n], zero, junk).m;
      var b := a[pid := a[pid] + Copies(zero, n)];
      GrowRefines(m1, b, pid, vs[n], zero, junk);
      GrowFrames(m1, pid, vs[n], zero, junk);
      assert a[pid] + Copies(zero, n) + [zero] == a[pid] + Copies(zero, n + 1);
      assert b[pid := b[pid] + [zero]] == a[pid := a[pid] + Copies(zero, n + 1)];
    }
  }

  lemma {:induction false} NoPages<C>(m: Machine<C>, pid: nat, vs: seq<nat>, zero: C, junk: C)
    requires Sane(m, pid) && Victims(vs) && |vs| == 0
    ensures AllocPages(m, pid, vs, zero, junk) == Handled(m)
  {
  }

  // ---------- One page too many ----------

  ghost predicate Full(s: seq<Slot>) {
    forall i :: 0 <= i < |s| ==> s[i].used
  }

  /** Page w is marked paged out and no slot of the file has it: its contents are lost. */
  ghost predicate Lost<C>(m: Machine<C>, pid: nat, w: nat) {
    && pid in m.pts && pid in m.tabs && w < |m.pts[pid]| && !m.pts[pid][w].p
    && Full(m.tabs[pid].mem) && Full(m.tabs[pid].file)
    && forall i :: 0 <= i < |m.tabs[pid].file| ==> m.tabs[pid].file[i].va != w
  }

  /** With both tables full, growing records the page in the last slot of the file and evicts nothing. */
  lemma {:induction false} GrowWithoutSlot<C>(m: Machine<C>, pid: nat, victim: nat, zero: C, junk: C)
    requires Sane(m, pid) && victim < MAX_PSYC_PAGES && m.k.free != []
    requires Full(m.tabs[pid].mem) && Full(m.tabs[pid].file)
    ensures var r, va := Grow(m, pid, victim, zero, junk), |m.pts[pid]|;
      && r.Handled? && pid in r.m.pts && pid in r.m.tabs
      && r.m.pts[pid] == m.pts[pid] + [NewPte(m.k.free[0])] && r.m.tabs[pid] == NoSlot(m.tabs[pid], va)
  {
  }

  /** A full process loses the page in the last slot of its swap file. */
  lemma {:induction false} FirstLoss<C>(m: Machine<C>, pid: nat, victim: nat, zero: C, junk: C)
    requires Inv(m) && pid in m.pts && Sane(m, pid) && victim < MAX_PSYC_PAGES && m.k.free != []
    requires |m.pts[pid]| == MAX_TOTAL_PAGES
    ensures Grow(m, pid, victim, zero, junk).Handled?
    ensures Lost(Grow(m, pid, victim, zero, junk).m, pid, m.tabs[pid].file[MAX_PSYC_PAGES - 1].va)
  {
    hide Inv, FrameInv, TableInv, Sane, Grow, MemSlotsOk;
    InvIsSane(m, pid);
    NoSlotLeftIff(m.pts[pid], m.tabs[pid]);
    TablesSized(m.pts[pid], m.tabs[pid]);
    GrowWithoutSlot(m, pid, victim, zero, junk);
  }

  lemma {:induction false} StillLost<C>(m: Machine<C>, pid: nat, victim: nat, w: nat, zero: C, junk: C)
    requires Sane(m, pid) && victim < MAX_PSYC_PAGES && m.k.free != [] && Lost(m, pid, w)
    ensures Grow(m, pid, victim, zero, junk).Handled? && Lost(Grow(m, pid, victim, zero, junk).m, pid, w)
  {
    hide Grow;
    GrowWithoutSlot(m, pid, victim, zero, junk);
  }

  /** Beyond MAX_TOTAL_PAGES pages in all, some page has lost its contents. */
  lemma {:induction false} AllocBad<C>(m: Machine<C>, a: map<nat, seq<C>>, pid: nat, vs: seq<nat>, zero: C, junk: C) returns (w: nat)
    requires Inv(m) && Shows(m, a) && pid in m.pts && Sane(m, pid) && Victims(vs)
    requires |vs| <= |m.k.free| && |m.pts[pid]| + |vs| > MAX_TOTAL_PAGES
    ensures var r := AllocPages(m, pid, vs, zero, junk);
      && r.Handled? && Lost(r.m, pid, w)
      && |r.m.k.free| >= |m.k.free| - |vs| && |r.m.pts[pid]| == |m.pts[pid]| + |vs|
    decreases |vs|
  {
    hide Inv, Shows, Sane, Grow, AllocPages, Victims, Lost;
    var n := |vs| - 1;
    assert |m.pts[pid]| <= MAX_TOTAL_PAGES by { WithinLimit(m, pid); }
    AllocUnfold(m, pid, vs, zero, junk);
    if |m.pts[pid]| + n <= MAX_TOTAL_PAGES {
      AllocGood(m, a, pid, vs[..n], zero, junk);
      var m1 := AllocPages(m, pid, vs[..n], zero, junk).m;
      FirstLoss(m1, pid, vs[n], zero, junk);
      GrowFrames(m1, pid, vs[n], zero, junk);
      SaneTables(m1, pid);
      w := m1.tabs[pid].file[MAX_PSYC_PAGES - 1].va;
    } else {
      w := AllocBad(m, a, pid, vs[..n], zero, junk);
      var m1 := AllocPages(m, pid, vs[..n], zero, junk).m;
      StillLost(m1, pid, vs[n], w, zero, junk);
      GrowFrames(m1, pid, vs[n], zero, junk);
    }
  }

  lemma {:induction false} SaneTables<C>(m: Machine<C>, pid: nat)
    requires Sane(m, pid)
    ensures pid in m.tabs && |m.tabs[pid].file| == MAX_PSYC_PAGES
  {
  }

  lemma {:induction false} WithinLimit<C>(m: Machine<C>, pid: nat)
    requires Inv(m) && pid in m.pts
    ensures |m.pts[pid]| <= MAX_TOTAL_PAGES
  {
  }

  /** Nobody can be shown a memory in which a lost page has contents. */
  lemma {:induction false} LostIsNotShown<C>(m: Machine<C>, b: map<nat, seq<C>>, pid: nat, w: nat)
    requires Lost(m, pid, w)
    ensures Page(m, pid, w) == None && !Shows(m, b)
  {
    hide Full;
    if Shows(m, b) {
      ShownHasContents(m, b, pid, w);
    }
  }

  lemma {:induction false} ShownHasContents<C>(m: Machine<C>, b: map<nat, seq<C>>, pid: nat, w: nat)
    requires Shows(m, b) && pid in m.pts && w < |m.pts[pid]|
    ensures Page(m, pid, w).Some?
  {
    hide Page;
    assert Sees(m, pid, b[pid]);
    assert Page(m, pid, w) == Some(b[pid][w]);
  }

  /**
    For a call that its test lets through, allocuvm grows the process by zero pages, as far as anybody
    can see, if and only if the process then has at most MAX_TOTAL_PAGES pages.
   */
  lemma {:induction false} AllocShowsIff<C>(m: Machine<C>, a: map<nat, seq<C>>, pid: nat, vs: seq<nat>, zero: C, junk: C)
    requires Inv(m) && Shows(m, a) && pid in m.pts && Sane(m, pid) && Victims(vs) && |vs| <= |m.k.free|
    requires |vs| <= MAX_TOTAL_PAGES
    ensures pid in a
    ensures var r := Alloc(m, pid, vs, zero, junk);
      && r.Handled?
      && (Inv(r.m) && Shows(r.m, a[pid := a[pid] + Copies(zero, |vs|)]) <==> |m.pts[pid]| + |vs| <= MAX_TOTAL_PAGES)
      && (|m.pts[pid]| + |vs| > MAX_TOTAL_PAGES ==> exists w: nat :: w < |r.m.pts[pid]| && Page(r.m, pid, w) == None)
  {
    hide Inv, Sees, Sane, AllocPages, Victims, Lost, Page;
    if |m.pts[pid]| + |vs| <= MAX_TOTAL_PAGES {
      AllocGood(m, a, pid, vs, zero, junk);
    } else {
      var w := AllocBad(m, a, pid, vs, zero, junk);
      var r := AllocPages(m, pid, vs, zero, junk);
      LostIsNotShown(r.m, a[pid := a[pid] + Copies(zero, |vs|)], pid, w);
      assert w < |r.m.pts[pid]| by { LostIsThere(r.m, pid, w); }
    }
  }

  lemma {:induction false} LostIsThere<C>(m: Machine<C>, pid: nat, w: nat)
    requires Lost(m, pid, w)
    ensures pid in m.pts && w < |m.pts[pid]|
  {
  }
}
