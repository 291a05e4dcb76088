/**
  Whole runs of the virtual memory system: any interleaving of user stores, page faults,
  copy-on-write faults, growth, fork and release shows every process the memory it would have with
  eager copying and everything resident.
 */
module VmRun {
  import opened Common
  import opened Params
  import opened Frames
  import opened Tables
  import opened Vm
  import opened VmGrow
  import opened VmFork

  // ---------- Traps ----------

  /** The page-fault branch of trap: handle_pf, and handle_cow if that did nothing. */
  ghost function Trap<C>(m: Machine<C>, pid: nat, va: nat, victim: nat, junk: C): (r: Outcome<Machine<C>>)
    requires Sane(m, pid) && va < |m.pts[pid]| && victim < MAX_PSYC_PAGES
  {
    match HandlePf(m, pid, va, victim, junk)
    case Handled(m') => Handled(m')
    case Panic => Panic
    case NotHandled => HandleCow(m, pid, va)
  }

  /** One trap is enough for a store to a user page to go through, while a frame is free. */
  lemma {:induction false} StoreGoesThrough<C>(m: Machine<C>, pid: nat, va: nat, victim: nat, junk: C)
    requires Inv(m) && Sane(m, pid) && va < |m.pts[pid]| && victim < MAX_PSYC_PAGES && m.k.free != []
    requires m.pts[pid][va].p ==> m.pts[pid][va].u
    ensures CanStore(m, pid, va) ||
            (Trap(m, pid, va, victim, junk).Handled? && CanStore(Trap(m, pid, va, victim, junk).m, pid, va))
  {
    hide TableInv, FirstFree, FirstWithVa;
    InvIsSane(m, pid);
    if m.pts[pid][va].p {
      HasMapper(m.k, m.pts, pid, va);
      assert PteOk(m.k, m.pts[pid][va]);
    } else {
      FaultIsHandled(m, pid, va, victim, junk);
    }
  }

  lemma {:induction false} FaultIsHandled<C>(m: Machine<C>, pid: nat, va: nat, victim: nat, junk: C)
    requires Inv(m) && Sane(m, pid) && va < |m.pts[pid]| && victim < MAX_PSYC_PAGES && m.k.free != []
    requires !m.pts[pid][va].p
    ensures HandlePf(m, pid, va, victim, junk).Handled?
    ensures CanStore(HandlePf(m, pid, va, victim, junk).m, pid, va)
  {
    hide Inv, TableInv, FirstFree, FirstWithVa, Sane;
    SaneOf(m, pid, va);
    InvIsSane(m, pid);
    LookupFindsSlot(m.pts[pid], m.tabs[pid], va);
    PfResult(m, pid, va, victim, junk);
  }

  // ---------- Steps ----------

  datatype Step<C> =
    | UserStore(pid: nat, va: nat, c: C)
    | Fault(pid: nat, va: nat, victim: nat)
    | GrowPage(pid: nat, victim: nat)
    | ForkProc(pid: nat, child: nat)
    | FreeProc(pid: nat)
    | GuardPage(pid: nat, va: nat)

  /** A step the machine can take from m to m'; processes stay within MAX_TOTAL_PAGES pages. */
  ghost predicate Takes<C>(m: Machine<C>, st: Step<C>, m': Machine<C>, zero: C, junk: C) {
    && st.pid in m.pts && Sane(m, st.pid)
    && match st
      case UserStore(pid, va, c) => CanStore(m, pid, va) && m' == Store(m, pid, va, c)
      case Fault(pid, va, victim) =>
        va < |m.pts[pid]| && victim < MAX_PSYC_PAGES && Trap(m, pid, va, victim, junk) == Handled(m')
      case GrowPage(pid, victim) =>
        |m.pts[pid]| < MAX_TOTAL_PAGES && victim < MAX_PSYC_PAGES && Grow(m, pid, victim, zero, junk) == Handled(m')
      case ForkProc(pid, child) =>
        child !in m.pts && Forkable(m, pid) && Fork(m, pid, child) == Handled(m')
      case FreeProc(pid) => EntriesInRange(m.k, m.pts[pid]) && m' == Free(m, pid, junk)
      case GuardPage(pid, va) => va < |m.pts[pid]| && m' == ClearUser(m, pid, va)
  }

  /** The same step with eager copying and everything resident. */
  ghost function Eager<C>(a: map<nat, seq<C>>, st: Step<C>, zero: C): map<nat, seq<C>> {
    if st.pid !in a then a
    else match st
      case UserStore(pid, va, c) => if va < |a[pid]| then a[pid := a[pid][va := c]] else a
      case Fault(_, _, _) => a
      case GrowPage(pid, _) => a[pid := a[pid] + [zero]]
      case ForkProc(pid, child) => a[child := a[pid]]
      case FreeProc(pid) => a - {pid}
      case GuardPage(_, _) => a
  }

  lemma {:induction false} TrapRefines<C>(m: Machine<C>, a: map<nat, seq<C>>, pid: nat, va: nat, victim: nat, junk: C)
    requires Inv(m) && Shows(m, a) && Sane(m, pid) && va < |m.pts[pid]| && victim < MAX_PSYC_PAGES
    requires Trap(m, pid, va, victim, junk).Handled?
    ensures Inv(Trap(m, pid, va, victim, junk).m) && Shows(Trap(m, pid, va, victim, junk).m, a)
  {
    hide Inv, Shows, HandlePf, HandleCow, Sane;
    SaneOf(m, pid, va);
    if HandlePf(m, pid, va, victim, junk).Handled? {
      PfRefines(m, a, pid, va, victim, junk);
    } else {
      NotPagedOut(m, pid, va, victim, junk);
      CowRefines(m, a, pid, va);
    }
  }

  lemma {:induction false} NotPagedOut<C>(m: Machine<C>, pid: nat, va: nat, victim: nat, junk: C)
    requires Sane(m, pid) && va < |m.pts[pid]| && victim < MAX_PSYC_PAGES
    requires HandlePf(m, pid, va, victim, junk).NotHandled?
    ensures m.pts[pid][va].p
  {
    SaneOf(m, pid, va);
  }

  /** Every step keeps the invariant and agrees with the eager step. */
  lemma {:induction false} StepRefines<C>(m: Machine<C>, a: map<nat, seq<C>>, st: Step<C>, m': Machine<C>, zero: C,
      junk: C)
    requires Inv(m) && Shows(m, a) && Takes(m, st, m', zero, junk)
    ensures Inv(m') && Shows(m', Eager(a, st, zero))
  {
    hide Inv, Sees, Trap, Grow, Fork, Free, Store, ClearUser, Sane, Forkable, EntriesInRange, CanStore;
    match st {
      case UserStore(pid, va, c) => StoreRefines(m, a, pid, va, c);
      case Fault(pid, va, victim) => TrapRefines(m, a, pid, va, victim, junk);
      case GrowPage(pid, victim) =>
        GrowNeedsFrame(m, pid, victim, zero, junk);
        GrowRefines(m, a, pid, victim, zero, junk);
      case ForkProc(pid, child) => ForkRefines(m, a, pid, child);
      case FreeProc(pid) => FreeRefines(m, a, pid, junk);
      case GuardPage(pid, va) => ClearUserRefines(m, a, pid, va);
    }
  }

  lemma {:induction false} GrowNeedsFrame<C>(m: Machine<C>, pid: nat, victim: nat, zero: C, junk: C)
    requires Sane(m, pid) && victim < MAX_PSYC_PAGES && Grow(m, pid, victim, zero, junk).Handled?
    ensures m.k.free != []
  {
  }

  // ---------- Runs ----------

  /** The machine goes through the states ms taking the steps. */
  ghost predicate Run<C>(ms: seq<Machine<C>>, steps: seq<Step<C>>, zero: C, junk: C) {
    && |ms| == |steps| + 1
    && forall i :: 0 <= i < |steps| ==> Takes(ms[i], steps[i], ms[i + 1], zero, junk)
  }

  ghost function EagerRun<C>(a: map<nat, seq<C>>, steps: seq<Step<C>>, zero: C): map<nat, seq<C>> {
    if steps == [] then a else Eager(EagerRun(a, steps[..|steps| - 1], zero), steps[|steps| - 1], zero)
  }

  /** Over every run, every process sees exactly the memory that the same steps give it with eager
      copying and everything resident; and the frame and table invariants hold throughout. */
  lemma {:induction false} RunRefines<C>(ms: seq<Machine<C>>, steps: seq<Step<C>>, a: map<nat, seq<C>>, zero: C, junk: C)
    requires Run(ms, steps, zero, junk) && Inv(ms[0]) && Shows(ms[0], a)
    ensures Inv(ms[|steps|]) && Shows(ms[|steps|], EagerRun(a, steps, zero))
    decreases |steps|
  {
    hide Inv, Shows, Takes, Eager;
    var n := |steps|;
    if n > 0 {
      RunRefines(ms[..n], steps[..n - 1], a, zero, junk);
      StepRefines(ms[n - 1], EagerRun(a, steps[..n - 1], zero), steps[n - 1], ms[n], zero, junk);
    }
  }

  /** In every state that a run reaches, a process can be released, and it can fork if and only if it
      has no pages or its page at address 0 is resident. */
  lemma {:induction false} ForkAndExit<C>(ms: seq<Machine<C>>, steps: seq<Step<C>>, a: map<nat, seq<C>>, zero: C,
      junk: C, pid: nat, child: nat)
    requires Run(ms, steps, zero, junk) && Inv(ms[0]) && Shows(ms[0], a)
    requires pid in ms[|steps|].pts && child !in ms[|steps|].pts
    ensures var m := ms[|steps|];
      && (exists m' :: Takes(m, FreeProc(pid), m', zero, junk))
      && ((exists m' :: Takes(m, ForkProc(pid, child), m', zero, junk)) <==> m.pts[pid] == [] || m.pts[pid][0].p)
  {
    hide Inv, Shows, Sane, Forkable, EntriesInRange, Fork, Free;
    RunRefines(ms, steps, a, zero, junk);
    var m := ms[|steps|];
    InvIsSane(m, pid);
    CanFree(m, pid);
    CanFork(m, pid);
    assert Takes(m, FreeProc(pid), Free(m, pid, junk), zero, junk);
    ForkSucceedsIff(m, pid, child);
    var r := Fork(m, pid, child);
    if r.Handled? {
      assert Takes(m, ForkProc(pid, child), r.m, zero, junk);
    }
  }

  // ---------- The start ----------

  /** freerange over the frames 0 .. n-1 of a kmem whose counters are zero. */
  ghost function FreeRange<C>(ram: seq<C>, n: nat, junk: C): (k: Kmem<C>)
    requires n <= |ram|
    ensures |k.ram| == |k.refs| == |ram| && |k.free| == n
    ensures forall f :: 0 <= f < |ram| ==> k.refs[f] == 0
    ensures forall i :: 0 <= i < n ==> k.free[i] == n - 1 - i
  {
    if n == 0 then Kmem(ram, Copies(0, |ram|), []) else Kfree(FreeRange(ram, n - 1, junk), n - 1, junk)
  }

  function Unused(n: nat): (r: seq<Slot>)
    ensures |r| == n && forall i :: 0 <= i < n ==> !r[i].used
  {
    if n == 0 then [] else Unused(n - 1) + [Slot(false, 0)]
  }

  /** A machine with one process that has no pages yet. */
  ghost function Boot<C>(ram: seq<C>, pid: nat, junk: C): Machine<C> {
    Machine(FreeRange(ram, |ram|, junk), map[pid := []], map[pid := Tables(Unused(MAX_PSYC_PAGES), Unused(MAX_PSYC_PAGES), [])])
  }

  lemma {:induction false} BootInv<C>(ram: seq<C>, pid: nat, junk: C)
    ensures Inv(Boot(ram, pid, junk)) && Shows(Boot(ram, pid, junk), map[pid := []])
  {
    hide FreeRange;
    var m := Boot(ram, pid, junk);
    var k := m.k;
    forall f: nat | f < |k.refs|
      ensures k.refs[f] == |Mappers(m.pts, f)| && f in k.free
    {
      assert Mappers(m.pts, f) == {};
      assert k.free[|ram| - 1 - f] == f;
    }
    CountNone(Unused(MAX_PSYC_PAGES));
    assert TableInv(m.pts[pid], m.tabs[pid]);
  }

  lemma {:induction false} CountNone(s: seq<Slot>)
    requires forall i :: 0 <= i < |s| ==> !s[i].used
    ensures Count(s) == 0
  {
    if s != [] {
      CountNone(s[..|s| - 1]);
    }
  }

  /** From boot, demand paging and copy-on-write are transparent in every run. */
  lemma {:induction false} Transparent<C>(ms: seq<Machine<C>>, steps: seq<Step<C>>, ram: seq<C>, pid: nat, zero: C,
      junk: C)
    requires Run(ms, steps, zero, junk) && ms[0] == Boot(ram, pid, junk)
    ensures Inv(ms[|steps|]) && Shows(ms[|steps|], EagerRun(map[pid := []], steps, zero))
  {
    hide Inv, Shows, Takes, Boot;
    BootInv(ram, pid, junk);
    RunRefines(ms, steps, map[pid := []], zero, junk);
  }
}
