/**
  When fork makes a process that is killed already (proc.c): kill matches any slot with the pid, unused ones
  included, and allocproc does not clear the mark.
 */
module ProcKilled {
  import opened ProcTree

  /** A run with the states it goes through. */
  ghost predicate Trace(ss: seq<State>, steps: seq<Step>) {
    && |ss| == |steps| + 1
    && forall i :: 0 <= i < |steps| ==> Enabled(ss[i], steps[i]) && ss[i + 1] == Do(ss[i], steps[i])
  }

  lemma {:induction false} TraceInv(ss: seq<State>, steps: seq<Step>, n: nat)
    requires Trace(ss, steps) && Booted(ss[0]) && n <= |steps|
    ensures Inv(ss[n]) && |ss[n].procs| == |ss[0].procs| && ss[n].procs[INIT].pid == 1
  {
    hide Inv, Do, Enabled, Booted;
    if n == 0 {
      BootInv(ss[0]);
      BootPid(ss[0]);
    } else {
      TraceInv(ss, steps, n - 1);
      StepKeepsInv(ss[n - 1], steps[n - 1]);
      StepKeepsInit(ss[n - 1], steps[n - 1]);
    }
  }

  lemma {:induction false} BootPid(s: State)
    requires Booted(s)
    ensures |s.procs| > 0 && s.procs[INIT].pid == 1
  {
  }

  /** init keeps its slot and its pid. */
  lemma {:induction false} StepKeepsInit(s: State, st: Step)
    requires Inv(s) && Enabled(s, st)
    ensures |Do(s, st).procs| == |s.procs| > 0 && Do(s, st).procs[INIT].pid == s.procs[INIT].pid
  {
    hide Waits, Pids, HasZombieChild, HasChild;
    assert TreeAt(s.procs, INIT);
  }

  // ---------- Which steps mark a slot ----------

  /** kill finds slot c. */
  ghost predicate Hits(s: State, st: Step, c: nat) {
    st.Kill? && FirstPid(s.procs, st.pid) == c
  }

  /** wait reaps slot c, and clears its mark. */
  ghost predicate Reaps(s: State, st: Step, c: nat) {
    st.Wait? && FirstZombie(s.procs, st.p) == c
  }

  lemma {:induction false} StepMarks(s: State, st: Step, c: nat)
    requires Inv(s) && Enabled(s, st) && c < |s.procs|
    ensures |Do(s, st).procs| == |s.procs|
    ensures Do(s, st).procs[c].killed == (Hits(s, st, c) || (s.procs[c].killed && !Reaps(s, st, c)))
  {
    hide Inv, HasZombieChild, HasChild;
  }

  /** Only wait makes the slot of a process or zombie unused. */
  lemma {:induction false} StepKeepsProcess(s: State, st: Step, c: nat)
    requires Inv(s) && Enabled(s, st) && c < |s.procs| && !Reaps(s, st, c)
    requires Live(s.procs[c]) || s.procs[c].state == ZOMBIE
    ensures |Do(s, st).procs| == |s.procs| && (Live(Do(s, st).procs[c]) || Do(s, st).procs[c].state == ZOMBIE)
  {
    hide Inv, HasZombieChild, HasChild;
    if st.AllocFails? || st.SetParent? || st.ForkDone? {
      hide Do, Enabled;
      ForkStepEffect(s, st);
      ChildIsEmbryo(s, st.p);
    }
  }

  lemma {:induction false} ChildIsEmbryo(s: State, p: nat)
    requires Inv(s) && p < |s.procs| && s.procs[p].pc.Forking?
    ensures s.procs[p].pc.child < |s.procs| && s.procs[s.procs[p].pc.child].state == EMBRYO
  {
    hide Waits, Pids, Tree;
    assert ForkAt(s.procs, p);
  }

  /** Since then slot c has not been reaped. */
  ghost predicate NotReapedSince(ss: seq<State>, steps: seq<Step>, c: nat, k: nat)
    requires |ss| == |steps| + 1
  {
    forall j :: k < j < |steps| ==> !Reaps(ss[j], steps[j], c)
  }

  ghost predicate MarkedAt(ss: seq<State>, steps: seq<Step>, c: nat, k: nat)
    requires |ss| == |steps| + 1
  {
    k < |steps| && Hits(ss[k], steps[k], c) && NotReapedSince(ss, steps, c, k)
  }

  /** A slot is marked if and only if a kill has found it and no wait has reaped it since. */
  lemma {:induction false} KilledIff(ss: seq<State>, steps: seq<Step>, c: nat)
    requires Trace(ss, steps) && Booted(ss[0]) && c < |ss[0].procs|
    ensures |ss[|steps|].procs| == |ss[0].procs|
    ensures ss[|steps|].procs[c].killed <==> exists k: nat :: MarkedAt(ss, steps, c, k)
    decreases |steps|
  {
    hide Do, Enabled, Inv, Hits, Reaps;
    var n := |steps|;
    TraceInv(ss, steps, n);
    if n > 0 {
      var ss1, steps1 := ss[..n], steps[..n - 1];
      KilledIff(ss1, steps1, c);
      TraceInv(ss, steps, n - 1);
      StepMarks(ss[n - 1], steps[n - 1], c);
      if k: nat :| MarkedAt(ss1, steps1, c, k) {
        assert !Reaps(ss[n - 1], steps[n - 1], c) ==> MarkedAt(ss, steps, c, k);
      }
      if k: nat :| MarkedAt(ss, steps, c, k) {
        assert k < n - 1 ==> MarkedAt(ss1, steps1, c, k) && !Reaps(ss[n - 1], steps[n - 1], c);
      }
      assert Hits(ss[n - 1], steps[n - 1], c) ==> MarkedAt(ss, steps, c, n - 1);
    } else {
      NobodyKilled(ss[0], c);
    }
  }

  lemma {:induction false} NobodyKilled(s: State, c: nat)
    requires Booted(s) && c < |s.procs|
    ensures !s.procs[c].killed
  {
  }

  /** A slot that is unused now and was not reaped since k was unused or an embryo then. */
  lemma {:induction false} WasNoProcess(ss: seq<State>, steps: seq<Step>, c: nat, k: nat, n: nat)
    requires Trace(ss, steps) && Booted(ss[0]) && c < |ss[0].procs| && k <= n <= |steps|
    requires forall j :: k <= j < n ==> !Reaps(ss[j], steps[j], c)
    ensures c < |ss[n].procs| == |ss[k].procs|
    ensures ss[n].procs[c].state == UNUSED ==> ss[k].procs[c].state == UNUSED || ss[k].procs[c].state == EMBRYO
    decreases n - k
  {
    hide Do, Enabled, Inv, Reaps;
    TraceInv(ss, steps, k);
    TraceInv(ss, steps, n);
    if k < n {
      WasNoProcess(ss, steps, c, k + 1, n);
      if Live(ss[k].procs[c]) || ss[k].procs[c].state == ZOMBIE {
        StepKeepsProcess(ss[k], steps[k], c);
      }
    }
  }

  /** A kill that found the slot when it was nobody's, or a fork's that failed. */
  ghost predicate StrayAt(ss: seq<State>, steps: seq<Step>, c: nat, k: nat)
    requires |ss| == |steps| + 1
  {
    && MarkedAt(ss, steps, c, k) && c < |ss[k].procs|
    && (ss[k].procs[c].state == UNUSED || ss[k].procs[c].state == EMBRYO)
  }

  /**
    Over every run: a process that fork is about to make is born killed if and only if a kill has found its
    slot, unused or an embryo at the time, and the slot has not been reaped since.
   */
  lemma {:induction false} BornKilledIff(ss: seq<State>, steps: seq<Step>, p: nat, c: nat)
    requires Trace(ss, steps) && Booted(ss[0]) && Enabled(ss[|steps|], Alloc(p, c))
    ensures c < |Do(ss[|steps|], Alloc(p, c)).procs|
    ensures Do(ss[|steps|], Alloc(p, c)).procs[c].killed <==> exists k: nat :: StrayAt(ss, steps, c, k)
  {
    hide Inv, Booted, Hits, Reaps, Trace;
    var n := |steps|;
    TraceLength(ss, steps);
    TraceInv(ss, steps, n);
    KilledIff(ss, steps, c);
    if k: nat :| MarkedAt(ss, steps, c, k) {
      HitIsNoReap(ss[k], steps[k], c);
      WasNoProcess(ss, steps, c, k, n);
      assert StrayAt(ss, steps, c, k);
    }
  }

  lemma {:induction false} TraceLength(ss: seq<State>, steps: seq<Step>)
    requires Trace(ss, steps)
    ensures |ss| == |steps| + 1
  {
  }

  lemma {:induction false} HitIsNoReap(s: State, st: Step, c: nat)
    requires Hits(s, st, c)
    ensures !Reaps(s, st, c)
  {
  }

  // ---------- Which pids can do it ----------

  ghost predicate KillsOnly(steps: seq<Step>, pids: iset<nat>) {
    forall i :: 0 <= i < |steps| && steps[i].Kill? ==> steps[i].pid in pids
  }

  /** A run from s in which only these pids are killed comes to a fork whose process is born killed. */
  ghost predicate BearsIn(s: State, pids: iset<nat>, ss: seq<State>, steps: seq<Step>, p: nat, c: nat) {
    && Trace(ss, steps) && ss[0] == s && KillsOnly(steps, pids) && Enabled(ss[|steps|], Alloc(p, c))
    && Do(ss[|steps|], Alloc(p, c)).procs[c].killed
  }

  ghost predicate BearsKilled(s: State, pids: iset<nat>) {
    exists ss, steps, p: nat, c: nat {:trigger BearsIn(s, pids, ss, steps, p, c)} :: BearsIn(s, pids, ss, steps, p, c)
  }

  /** A kill of init's pid finds init and no other slot. */
  lemma {:induction false} InitIsFirst(s: State)
    requires |s.procs| > 0 && s.procs[INIT].pid == 1
    ensures FirstPid(s.procs, 1) == INIT
  {
  }

  lemma {:induction false} NoStrayKill(s: State, pids: iset<nat>, ss: seq<State>, steps: seq<Step>, p: nat, c: nat)
    requires Booted(s) && forall pid :: pid in pids ==> pid == 1
    ensures !BearsIn(s, pids, ss, steps, p, c)
  {
    hide Inv, Booted, Do, StrayAt, FirstPid;
    if BearsIn(s, pids, ss, steps, p, c) {
      hide Trace;
      TraceLength(ss, steps);
      BornKilledIff(ss, steps, p, c);
      TraceInv(ss, steps, |steps|);
      UnusedIsNotInit(ss[|steps|], c);
      var k: nat :| StrayAt(ss, steps, c, k);
      StrayIsEarlier(ss, steps, c, k);
      TraceInv(ss, steps, k);
      InitIsFirst(ss[k]);
      OnlyInitHit(ss, steps, c, k, pids);
    }
  }

  lemma {:induction false} StrayIsEarlier(ss: seq<State>, steps: seq<Step>, c: nat, k: nat)
    requires |ss| == |steps| + 1 && StrayAt(ss, steps, c, k)
    ensures k < |steps|
  {
  }

  lemma {:induction false} UnusedIsNotInit(s: State, c: nat)
    requires Inv(s) && c < |s.procs| && s.procs[c].state == UNUSED
    ensures c != INIT
  {
    hide Waits, Pids, Forks;
  }

  lemma {:induction false} OnlyInitHit(ss: seq<State>, steps: seq<Step>, c: nat, k: nat, pids: iset<nat>)
    requires |ss| == |steps| + 1 && KillsOnly(steps, pids) && (forall pid :: pid in pids ==> pid == 1) && c != INIT
    requires k < |steps| ==> FirstPid(ss[k].procs, 1) == INIT
    ensures !StrayAt(ss, steps, c, k)
  {
    hide FirstPid, Reaps;
  }

  // ---------- A stray kill ----------

  /** init runs, and slot 1 is unused with a pid that no process has; nextpid is the next one after it. */
  ghost function Churned(s: State, pid: nat): State
    requires |s.procs| >= 2
  {
    State(s.procs[INIT := s.procs[INIT].(state := RUNNING)][1 := s.procs[1].(pid := pid)], if pid == 0 then 2 else pid + 1, [])
  }

  lemma {:induction false} TraceOn(ss: seq<State>, steps: seq<Step>, st: Step)
    requires Trace(ss, steps) && Enabled(ss[|steps|], st)
    ensures Trace(ss + [Do(ss[|steps|], st)], steps + [st])
  {
    hide Do, Enabled;
  }

  /** A fork that fails leaves the next pid in the slot. */
  lemma {:induction false} FailedFork(s: State, pid: nat)
    requires Booted(s) && |s.procs| >= 2 && pid >= 2
    ensures var m := Churned(s, if pid == 2 then 0 else pid - 1);
      && Enabled(m, Alloc(INIT, 1)) && Enabled(Do(m, Alloc(INIT, 1)), AllocFails(INIT))
      && Do(Do(m, Alloc(INIT, 1)), AllocFails(INIT)) == Churned(s, pid)
  {
    var m := Churned(s, if pid == 2 then 0 else pid - 1);
    var t := Do(Do(m, Alloc(INIT, 1)), AllocFails(INIT));
    assert t.procs == Churned(s, pid).procs;
  }

  lemma {:induction false} Churn(s: State, pid: nat) returns (ss: seq<State>, steps: seq<Step>)
    requires Booted(s) && |s.procs| >= 2 && pid != 1
    ensures Trace(ss, steps) && ss[0] == s && ss[|steps|] == Churned(s, pid)
    ensures forall i :: 0 <= i < |steps| ==> !steps[i].Kill?
    decreases pid
  {
    if pid == 0 {
      ss, steps := [s, Do(s, Schedule(INIT))], [Schedule(INIT)];
      assert ss[1].procs == Churned(s, 0).procs;
    } else {
      hide Do, Enabled, Trace, Churned;
      ss, steps := Churn(s, if pid == 2 then 0 else pid - 1);
      FailedFork(s, pid);
      TraceLength(ss, steps);
      TraceOn(ss, steps, Alloc(INIT, 1));
      ss, steps := ss + [Do(ss[|steps|], Alloc(INIT, 1))], steps + [Alloc(INIT, 1)];
      TraceOn(ss, steps, AllocFails(INIT));
      ss, steps := ss + [Do(ss[|steps|], AllocFails(INIT))], steps + [AllocFails(INIT)];
    }
  }

  /** A kill of that pid marks the slot, and the next fork takes it. */
  lemma {:induction false} KillThenFork(s: State, pid: nat)
    requires Booted(s) && |s.procs| >= 2 && pid != 1
    ensures var t := Do(Churned(s, pid), Kill(pid));
      Enabled(t, Alloc(INIT, 1)) && Do(t, Alloc(INIT, 1)).procs[1].killed
  {
    var m := Churned(s, pid);
    assert m.procs[0].pid == 1 && m.procs[1].pid == pid;
    assert FirstPid(m.procs, pid) == 1;
  }

  lemma {:induction false} StrayKill(s: State, pids: iset<nat>, pid: nat)
    requires Booted(s) && |s.procs| >= 2 && pid in pids && pid != 1
    ensures BearsKilled(s, pids)
  {
    hide Do, Trace, Churned, Booted;
    var ss, steps := Churn(s, pid);
    TraceLength(ss, steps);
    KillThenFork(s, pid);
    TraceOn(ss, steps, Kill(pid));
    ss, steps := ss + [Do(ss[|steps|], Kill(pid))], steps + [Kill(pid)];
    assert BearsIn(s, pids, ss, steps, INIT, 1);
  }

  /**
    In a table with room for a child, some run whose kills are of the given pids bears a killed process if
    and only if there is a pid among them other than init's.
   */
  lemma {:induction false} BearsKilledIff(s: State, pids: iset<nat>)
    requires Booted(s) && |s.procs| >= 2
    ensures BearsKilled(s, pids) <==> exists pid: nat :: pid in pids && pid != 1
  {
    hide Booted, BearsIn;
    if pid: nat :| pid in pids && pid != 1 {
      StrayKill(s, pids, pid);
    } else {
      forall ss, steps, p: nat, c: nat {:trigger BearsIn(s, pids, ss, steps, p, c)}
        ensures !BearsIn(s, pids, ss, steps, p, c)
      {
        NoStrayKill(s, pids, ss, steps, p, c);
      }
    }
  }
}
