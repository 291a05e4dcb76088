/**
  Runs from boot that reach the cases the virtual memory system gets wrong: a fork that panics, a guard
  page that takes a store, and a process that outgrows its tables.
 */
module VmCases {
  import opened Common
  import opened Params
  import opened Frames
  import opened Tables
  import opened Vm
  import opened VmGrow
  import opened VmAlloc
  import opened VmFork
  import opened VmRun
  import opened VmGuard

  lemma {:induction false} RunOn<C>(ms: seq<Machine<C>>, steps: seq<Step<C>>, st: Step<C>, m': Machine<C>, zero: C,
      junk: C)
    requires Run(ms, steps, zero, junk) && Takes(ms[|steps|], st, m', zero, junk)
    ensures Run(ms + [m'], steps + [st], zero, junk)
  {
    hide Takes;
  }

  /** A process with n pages, all of them in memory in the order in which it got them. */
  ghost predicate Resident<C>(m: Machine<C>, pid: nat, n: nat) {
    && pid in m.pts && pid in m.tabs && |m.pts[pid]| == n <= |m.tabs[pid].mem| == MAX_PSYC_PAGES
    && (forall i :: 0 <= i < n ==> m.pts[pid][i].p && m.pts[pid][i].w && m.tabs[pid].mem[i] == Slot(true, i))
    && (forall i :: n <= i < MAX_PSYC_PAGES ==> !m.tabs[pid].mem[i].used)
  }

  lemma {:induction false} GrowResident<C>(m: Machine<C>, pid: nat, n: nat, zero: C, junk: C)
    requires Resident(m, pid, n) && n < MAX_PSYC_PAGES && Sane(m, pid) && m.k.free != []
    ensures Grow(m, pid, 0, zero, junk).Handled? && Takes(m, GrowPage(pid, 0), Grow(m, pid, 0, zero, junk).m, zero, junk)
    ensures Resident(Grow(m, pid, 0, zero, junk).m, pid, n + 1)
  {
    hide Sane;
    SaneFrames(m, pid);
    FirstFreeIs(m.tabs[pid].mem, n);
    hide FirstFree;
    GrowFrames(m, pid, 0, zero, junk);
  }

  lemma {:induction false} FirstFreeIs(s: seq<Slot>, n: nat)
    requires n < |s| && !s[n].used && forall i :: 0 <= i < n ==> s[i].used
    ensures FirstFree(s) == n
  {
  }

  lemma {:induction false} NoneFree(s: seq<Slot>)
    requires forall i :: 0 <= i < |s| ==> s[i].used
    ensures FirstFree(s) < 0
  {
  }

  /** Booted, a process grows by n pages. */
  lemma {:induction false} BootGrows<C>(ram: seq<C>, pid: nat, n: nat, zero: C, junk: C) returns (ms: seq<Machine<C>>, steps: seq<Step<C>>)
    requires n <= MAX_PSYC_PAGES && n <= |ram|
    ensures Run(ms, steps, zero, junk) && |steps| == n && ms[0] == Boot(ram, pid, junk)
    ensures Inv(ms[n]) && Resident(ms[n], pid, n) && |ms[n].k.free| >= |ram| - n && ms[n].pts.Keys == {pid}
    decreases n
  {
    hide Inv, Shows, Takes, Boot, Grow, Sane;
    if n == 0 {
      ms, steps := [Boot(ram, pid, junk)], [];
      BootInv(ram, pid, junk);
      BootIsEmpty(ram, pid, junk);
    } else {
      ms, steps := BootGrows(ram, pid, n - 1, zero, junk);
      var m := ms[n - 1];
      InvIsSane(m, pid);
      GrowResident(m, pid, n - 1, zero, junk);
      GrowFrames(m, pid, 0, zero, junk);
      GrowKeepsInv(m, pid, 0, zero, junk);
      var m', st := Grow(m, pid, 0, zero, junk).m, GrowPage(pid, 0);
      RunOn(ms, steps, st, m', zero, junk);
      ms, steps := ms + [m'], steps + [st];
    }
  }

  lemma {:induction false} BootIsEmpty<C>(ram: seq<C>, pid: nat, junk: C)
    ensures var m := Boot(ram, pid, junk); Resident(m, pid, 0) && |m.k.free| == |ram| && m.pts.Keys == {pid}
  {
  }

  /** With memory full, growing with victim va pages out page va. */
  lemma {:induction false} GrowFull<C>(m: Machine<C>, pid: nat, va: nat, zero: C, junk: C)
    requires Inv(m) && Sane(m, pid) && va < MAX_PSYC_PAGES && m.k.free != []
    requires pid in m.pts && pid in m.tabs && |m.pts[pid]| == MAX_PSYC_PAGES
    requires forall i :: 0 <= i < |m.tabs[pid].mem| ==> m.tabs[pid].mem[i] == Slot(true, i)
    ensures var r := Grow(m, pid, va, zero, junk);
      && r.Handled? && Takes(m, GrowPage(pid, va), r.m, zero, junk) && Inv(r.m)
      && r.m.pts.Keys == m.pts.Keys && pid in r.m.pts && |r.m.pts[pid]| == MAX_PSYC_PAGES + 1 && !r.m.pts[pid][va].p && |r.m.k.free| >= |m.k.free| - 1
  {
    hide Inv, Sane, Grow, FirstFree;
    SaneFrames(m, pid);
    NoneFree(m.tabs[pid].mem);
    GrowEvicts(m, pid, va, zero, junk);
    GrowKeepsInv(m, pid, va, zero, junk);
    GrowFrames(m, pid, va, zero, junk);
  }

  // ---------- fork ----------

  /** A process that grows to 17 pages, with slot 0 as the victim, cannot fork. */
  lemma {:induction false} ForkPanicsInARun<C>(ram: seq<C>, pid: nat, child: nat, zero: C, junk: C)
      returns (ms: seq<Machine<C>>, steps: seq<Step<C>>)
    requires |ram| > MAX_PSYC_PAGES && child != pid
    ensures Run(ms, steps, zero, junk) && ms[0] == Boot(ram, pid, junk)
    ensures var m := ms[|steps|]; Forkable(m, pid) && child !in m.pts && Fork(m, pid, child) == Panic
  {
    hide Inv, Takes, Boot, Grow, Sane, Fork, Forkable;
    ms, steps := BootGrows(ram, pid, MAX_PSYC_PAGES, zero, junk);
    var m := ms[|steps|];
    InvIsSane(m, pid);
    GrowFull(m, pid, 0, zero, junk);
    var m', st := Grow(m, pid, 0, zero, junk).m, GrowPage(pid, 0);
    RunOn(ms, steps, st, m', zero, junk);
    ms, steps := ms + [m'], steps + [st];
    CanFork(m', pid);
    ForkSucceedsIff(m', pid, child);
    ForkIsPages(m', pid, child);
  }

  // ---------- The guard page ----------

  /** A page is closed by clearpteu, paged out, and comes back on the next fault open to the user. */
  lemma {:induction false} GuardTakesAStore<C>(ram: seq<C>, pid: nat, va: nat, c: C, zero: C, junk: C)
      returns (ms: seq<Machine<C>>, steps: seq<Step<C>>)
    requires |ram| > MAX_PSYC_PAGES + 1 && va < MAX_PSYC_PAGES
    ensures Run(ms, steps, zero, junk) && ms[0] == Boot(ram, pid, junk) && |steps| == MAX_PSYC_PAGES + 4
    ensures steps[MAX_PSYC_PAGES..] == [GuardPage(pid, va), GrowPage(pid, va), Fault(pid, va, 0), UserStore(pid, va, c)]
    ensures Closed(ms[MAX_PSYC_PAGES + 1], pid, va)
  {
    hide Inv, Takes, Boot, Resident, Closed;
    ms, steps := BootGrows(ram, pid, MAX_PSYC_PAGES, zero, junk);
    var m1, m2, m3, m4 := GuardSteps(ms[MAX_PSYC_PAGES], pid, va, c, zero, junk);
    RunOn(ms, steps, GuardPage(pid, va), m1, zero, junk);
    ms, steps := ms + [m1], steps + [GuardPage(pid, va)];
    RunOn(ms, steps, GrowPage(pid, va), m2, zero, junk);
    ms, steps := ms + [m2], steps + [GrowPage(pid, va)];
    RunOn(ms, steps, Fault(pid, va, 0), m3, zero, junk);
    ms, steps := ms + [m3], steps + [Fault(pid, va, 0)];
    RunOn(ms, steps, UserStore(pid, va, c), m4, zero, junk);
    ms, steps := ms + [m4], steps + [UserStore(pid, va, c)];
  }

  lemma {:induction false} GuardSteps<C>(m: Machine<C>, pid: nat, va: nat, c: C, zero: C, junk: C)
      returns (m1: Machine<C>, m2: Machine<C>, m3: Machine<C>, m4: Machine<C>)
    requires Inv(m) && Resident(m, pid, MAX_PSYC_PAGES) && va < MAX_PSYC_PAGES && |m.k.free| >= 2
    ensures Takes(m, GuardPage(pid, va), m1, zero, junk) && Closed(m1, pid, va)
    ensures Takes(m1, GrowPage(pid, va), m2, zero, junk) && Takes(m2, Fault(pid, va, 0), m3, zero, junk)
    ensures Takes(m3, UserStore(pid, va, c), m4, zero, junk)
  {
    hide Inv, Takes, Grow, Sane, CanStore, Store, Closed;
    InvIsSane(m, pid);
    m1 := CloseStep(m, pid, va, zero, junk);
    InvIsSane(m1, pid);
    GrowFull(m1, pid, va, zero, junk);
    m2 := Grow(m1, pid, va, zero, junk).m;
    InvIsSane(m2, pid);
    m3 := OpenStep(m2, pid, va, zero, junk);
    StoreStep(m3, pid, va, c, zero, junk);
    m4 := Store(m3, pid, va, c);
  }

  lemma {:induction false} CloseStep<C>(m: Machine<C>, pid: nat, va: nat, zero: C, junk: C) returns (m': Machine<C>)
    requires Inv(m) && Sane(m, pid) && Resident(m, pid, MAX_PSYC_PAGES) && va < MAX_PSYC_PAGES
    ensures Takes(m, GuardPage(pid, va), m', zero, junk) && Inv(m') && Closed(m', pid, va)
    ensures m'.pts.Keys == m.pts.Keys && pid in m'.pts && |m'.pts[pid]| == |m.pts[pid]| && m'.k == m.k
    ensures m'.tabs == m.tabs
  {
    hide Inv, Sane;
    m' := ClearUser(m, pid, va);
    ClearUserKeepsInv(m, pid, va);
    InvIsSane(m, pid);
    assert PteOk(m.k, m.pts[pid][va]);
    ClearUserCloses(m, pid, va);
  }

  lemma {:induction false} OpenStep<C>(m: Machine<C>, pid: nat, va: nat, zero: C, junk: C) returns (m': Machine<C>)
    requires Inv(m) && Sane(m, pid) && va < |m.pts[pid]| && !m.pts[pid][va].p && m.k.free != []
    ensures Takes(m, Fault(pid, va, 0), m', zero, junk) && Inv(m') && CanStore(m', pid, va)
  {
    hide Inv, Sane, HandlePf, HandleCow, CanStore;
    SaneFrames(m, pid);
    FaultIsHandled(m, pid, va, 0, junk);
    m' := HandlePf(m, pid, va, 0, junk).m;
    PfKeepsInv(m, pid, va, 0, junk);
  }

  lemma {:induction false} StoreStep<C>(m: Machine<C>, pid: nat, va: nat, c: C, zero: C, junk: C)
    requires Inv(m) && CanStore(m, pid, va)
    ensures Takes(m, UserStore(pid, va, c), Store(m, pid, va, c), zero, junk)
  {
    hide Inv, Sane;
    InvIsSane(m, pid);
  }

  // ---------- More pages than slots ----------

  /**
    From boot, a process is given MAX_TOTAL_PAGES pages. The next call, for one page, passes the test of
    allocuvm, and then some page has no contents.
   */
  lemma {:induction false} OnePageTooMany<C>(ram: seq<C>, pid: nat, vs: seq<nat>, v: nat, zero: C, junk: C)
    requires |ram| > MAX_TOTAL_PAGES && |vs| == MAX_TOTAL_PAGES && Victims(vs) && v < MAX_PSYC_PAGES
    ensures var m := Boot(ram, pid, junk);
      && Sane(m, pid) && Alloc(m, pid, vs, zero, junk).Handled?
      && var m1 := Alloc(m, pid, vs, zero, junk).m;
      && Sane(m1, pid) && Inv(m1) && Alloc(m1, pid, [v], zero, junk).Handled?
      && var m2 := Alloc(m1, pid, [v], zero, junk).m;
      pid in m2.pts && exists w: nat :: w < |m2.pts[pid]| && Page(m2, pid, w) == None
  {
    hide Inv, Sane, Boot, AllocPages, Page, Shows;
    var m := Boot(ram, pid, junk);
    BootInv(ram, pid, junk);
    BootIsEmpty(ram, pid, junk);
    InvIsSane(m, pid);
    var a: map<nat, seq<C>> := map[pid := []];
    AllocGood(m, a, pid, vs, zero, junk);
    var m1 := AllocPages(m, pid, vs, zero, junk).m;
    InvIsSane(m1, pid);
    var b := a[pid := a[pid] + Copies(zero, |vs|)];
    AllocShowsIff(m1, b, pid, [v], zero, junk);
    var w := AllocBad(m1, b, pid, [v], zero, junk);
    LostIsThere(AllocPages(m1, pid, [v], zero, junk).m, pid, w);
  }
}
