/**
  What fork, wait, kill, sleep and wakeup do for their callers (proc.c), over every run of the process
  table: which processes there are, who wakes whom, and when wait returns.
 */
module ProcCalls {
  import opened ProcTree
  import opened ProcKilled

  // ---------- kill ----------

  /** kill marks the first slot with the pid and leaves it awake; it changes no other slot. */
  lemma {:induction false} KillMarksAndWakes(s: State, pid: nat, i: nat)
    requires i < |s.procs| && s.procs[i].pid == pid && forall j :: 0 <= j < i ==> s.procs[j].pid != pid
    ensures var t := Do(s, Kill(pid));
      && |t.procs| == |s.procs| && t.procs[i].killed && t.procs[i].state != SLEEPING
      && t.procs[i].state == (if s.procs[i].state == SLEEPING then RUNNABLE else s.procs[i].state)
      && t.procs[i] == s.procs[i].(killed := true, state := t.procs[i].state)
      && (forall j :: 0 <= j < |s.procs| && j != i ==> t.procs[j] == s.procs[j])
      && t.nextpid == s.nextpid && t.reaped == s.reaped
  {
    assert FirstPid(s.procs, pid) == i;
  }

  lemma {:induction false} KillOfNobody(s: State, pid: nat)
    requires forall j :: 0 <= j < |s.procs| ==> s.procs[j].pid != pid
    ensures Do(s, Kill(pid)) == s
  {
  }

  /** The process goes to sleep, in sleep or in a pass of wait. */
  predicate OwnSleep(st: Step, c: nat) {
    (st.Sleep? && st.p == c) || (st.Wait? && st.p == c)
  }

  lemma {:induction false} StaysAwake(s: State, st: Step, c: nat)
    requires Enabled(s, st) && c < |s.procs| && s.procs[c].state != SLEEPING && !OwnSleep(st, c)
    ensures |Do(s, st).procs| == |s.procs| && Do(s, st).procs[c].state != SLEEPING
  {
    hide HasZombieChild, HasChild;
  }

  /** Over every run: whoever a kill has found is awake until it goes to sleep again by itself. */
  lemma {:induction false} AwakeAfterKill(ss: seq<State>, steps: seq<Step>, c: nat, k: nat, n: nat)
    requires Trace(ss, steps) && k < n <= |steps| && c < |ss[k].procs| && Hits(ss[k], steps[k], c)
    requires forall j :: k < j < n ==> !OwnSleep(steps[j], c)
    ensures c < |ss[n].procs| && ss[n].procs[c].state != SLEEPING
    decreases n
  {
    hide Enabled, Do;
    if n == k + 1 {
      KillMarksAndWakes(ss[k], steps[k].pid, c);
    } else {
      AwakeAfterKill(ss, steps, c, k, n - 1);
      StaysAwake(ss[n - 1], steps[n - 1], c);
    }
  }

  // ---------- sleep and wakeup ----------

  /** A step that wakes the process: a wakeup of its channel, or a kill that finds it. */
  ghost predicate Wakes(s: State, st: Step, c: nat) {
    c < |s.procs| && (st == Wakeup(s.procs[c].chan) || Hits(s, st, c))
  }

  /** Asleep on a channel that is not a process. */
  predicate AsleepOn(s: State, c: nat, chan: int) {
    c < |s.procs| && s.procs[c].state == SLEEPING && s.procs[c].chan == chan
  }

  /** sleep puts its caller to sleep on the channel, and touches nobody else. */
  lemma {:induction false} SleepSleeps(s: State, p: nat, chan: int)
    requires Enabled(s, Sleep(p, chan))
    ensures var t := Do(s, Sleep(p, chan));
      AsleepOn(t, p, chan) && |t.procs| == |s.procs| && forall j :: 0 <= j < |s.procs| && j != p ==> t.procs[j] == s.procs[j]
  {
  }

  /** wakeup leaves nobody asleep on the channel, makes those who were runnable, and touches nobody else. */
  lemma {:induction false} WakeupWakes(s: State, chan: int, c: nat)
    requires Enabled(s, Wakeup(chan)) && c < |s.procs|
    ensures var t := Do(s, Wakeup(chan));
      && |t.procs| == |s.procs| && !AsleepOn(t, c, chan)
      && t.procs[c] == if AsleepOn(s, c, chan) then s.procs[c].(state := RUNNABLE) else s.procs[c]
  {
  }

  /** A step leaves a sleeper asleep on its channel if and only if it does not wake it. */
  lemma {:induction false} SleepsOnIff(s: State, st: Step, c: nat, chan: int)
    requires Enabled(s, st) && AsleepOn(s, c, chan) && chan < NONE && Inv(s)
    ensures AsleepOn(Do(s, st), c, chan) <==> !Wakes(s, st, c)
  {
    hide Waits, Pids, Forks, HasZombieChild, HasChild;
    if st.Exit? {
      assert TreeAt(s.procs, st.p);
    } else if st.AllocFails? || st.SetParent? || st.ForkDone? {
      ChildIsEmbryo(s, st.p);
    }
  }

  /** Over every run: a process sleeps on through all states if and only if no step wakes it. */
  lemma {:induction false} SleepsThroughoutIff(ss: seq<State>, steps: seq<Step>, c: nat, chan: int, k: nat, n: nat)
    requires Trace(ss, steps) && Booted(ss[0]) && k <= n <= |steps| && AsleepOn(ss[k], c, chan) && chan < NONE
    ensures (forall j :: k <= j <= n ==> AsleepOn(ss[j], c, chan)) <==>
      (forall j :: k <= j < n ==> !Wakes(ss[j], steps[j], c))
    decreases n
  {
    hide Enabled, Do, Inv, Booted, Wakes, AsleepOn;
    if k < n {
      SleepsThroughoutIff(ss, steps, c, chan, k, n - 1);
      if AsleepOn(ss[n - 1], c, chan) {
        TraceInv(ss, steps, n - 1);
        SleepsOnIff(ss[n - 1], steps[n - 1], c, chan);
        assert ss[n] == Do(ss[n - 1], steps[n - 1]);
      }
    }
  }

  // ---------- the CPU ----------

  /** A step in which the process gives up the CPU: yield, sleep, exit, or a wait with nothing to collect. */
  predicate GivesUpCpu(s: State, st: Step, c: nat) {
    || st == Yield(c) || st == Exit(c) || (st.Sleep? && st.p == c)
    || (st == Wait(c) && c < |s.procs| && !HasZombieChild(s.procs, c) && HasChild(s.procs, c) && !s.procs[c].killed)
  }

  /** A process runs after a step if and only if the scheduler just picked it, or it ran and kept the CPU. */
  lemma {:induction false} RunningIff(s: State, st: Step, c: nat)
    requires Inv(s) && Enabled(s, st) && c < |s.procs|
    ensures |Do(s, st).procs| == |s.procs|
    ensures Do(s, st).procs[c].state == RUNNING <==>
      st == Schedule(c) || (s.procs[c].state == RUNNING && !GivesUpCpu(s, st, c))
  {
    hide Waits, Pids, Forks, HasZombieChild, HasChild;
    if st.AllocFails? || st.SetParent? || st.ForkDone? {
      ChildIsEmbryo(s, st.p);
    } else if st.Wait? && FirstZombie(s.procs, st.p) >= 0 {
      assert TreeAt(s.procs, FirstZombie(s.procs, st.p));
    }
  }

  /** Over every run: a process off the CPU stays off it until the scheduler picks it. */
  lemma {:induction false} OffUntilScheduled(ss: seq<State>, steps: seq<Step>, c: nat, k: nat, n: nat)
    requires Trace(ss, steps) && Booted(ss[0]) && k <= n <= |steps| && c < |ss[k].procs| && ss[k].procs[c].state != RUNNING
    requires forall j :: k <= j < n ==> steps[j] != Schedule(c)
    ensures c < |ss[n].procs| && ss[n].procs[c].state != RUNNING
    decreases n
  {
    hide Enabled, Do, Inv, Booted, GivesUpCpu;
    if k < n {
      OffUntilScheduled(ss, steps, c, k, n - 1);
      TraceInv(ss, steps, n - 1);
      RunningIff(ss[n - 1], steps[n - 1], c);
      assert ss[n] == Do(ss[n - 1], steps[n - 1]);
    }
  }

  // ---------- wait ----------

  /** wait returns the pid of a zombie child and frees its slot; the caller goes on. */
  lemma {:induction false} WaitReaps(s: State, p: nat)
    requires Inv(s) && Enabled(s, Wait(p)) && HasZombieChild(s.procs, p)
    ensures var t := Do(s, Wait(p));
      && |t.reaped| == |s.reaped| + 1 && t.reaped[..|s.reaped|] == s.reaped && |t.procs| == |s.procs|
      && t.procs[p].state == RUNNING && t.procs[p].pc == User
      && exists z :: 0 <= z < |s.procs| && z != p && s.procs[z].parent == p && s.procs[z].state == ZOMBIE
           && t.reaped[|s.reaped|] == s.procs[z].pid && t.procs[z].state == UNUSED && t.procs[z].parent == NONE
           && t.procs[z].pid == 0 && !t.procs[z].killed
           && forall j :: 0 <= j < |s.procs| && j != z && j != p ==> t.procs[j] == s.procs[j]
  {
    hide Waits, Pids, Forks, HasChild;
    var z := FirstZombie(s.procs, p);
    assert TreeAt(s.procs, z);
    var t := Do(s, Wait(p));
    assert t.reaped[|s.reaped|] == s.procs[z].pid;
  }

  /** Without a zombie child wait gives up if and only if its caller has no children or is killed; otherwise it sleeps. */
  lemma {:induction false} WaitGivesUpIff(s: State, p: nat)
    requires Enabled(s, Wait(p)) && !HasZombieChild(s.procs, p)
    ensures var t := Do(s, Wait(p));
      && t.reaped == s.reaped && |t.procs| == |s.procs| && (forall j :: 0 <= j < |s.procs| && j != p ==> t.procs[j] == s.procs[j])
      && (t.procs[p].state == RUNNING && t.procs[p].pc == User <==>
            s.procs[p].killed || forall c :: 0 <= c < |s.procs| ==> s.procs[c].parent != p)
      && (t.procs[p].state == RUNNING || (AsleepOn(t, p, p) && t.procs[p].pc == InWait))
  {
  }

  // ---------- which processes there are ----------

  /** Forked to the end, and not reaped yet. */
  predicate Settled(q: Proc) {
    Live(q) || q.state == ZOMBIE
  }

  /** The pids of the processes that fork has made, and init's. */
  ghost function BornAfter(s: State, st: Step, born: set<nat>): set<nat>
    requires Enabled(s, st)
  {
    if st.ForkDone? then born + {s.procs[s.procs[st.p].pc.child].pid} else born
  }

  ghost function Born(ss: seq<State>, steps: seq<Step>, n: nat): set<nat>
    requires Trace(ss, steps) && n <= |steps|
  {
    if n == 0 then {1} else BornAfter(ss[n - 1], steps[n - 1], Born(ss, steps, n - 1))
  }

  ghost predicate InTable(s: State, pid: nat) {
    exists c :: 0 <= c < |s.procs| && Settled(s.procs[c]) && s.procs[c].pid == pid
  }

  /** Every process made is in the table or has been returned by wait, and nothing else is. */
  ghost predicate Accounted(s: State, born: set<nat>) {
    forall pid: nat :: pid in born <==> InTable(s, pid) || pid in s.reaped
  }

  /** A step that keeps who is settled under which pid. */
  lemma {:induction false} SameTable(s: State, t: State)
    requires |t.procs| == |s.procs|
    requires forall c :: 0 <= c < |s.procs| ==> Settled(t.procs[c]) == Settled(s.procs[c])
    requires forall c :: 0 <= c < |s.procs| && Settled(s.procs[c]) ==> t.procs[c].pid == s.procs[c].pid
    ensures forall pid: nat :: InTable(t, pid) <==> InTable(s, pid)
  {
    forall pid: nat
      ensures InTable(t, pid) <==> InTable(s, pid)
    {
      if c :| 0 <= c < |s.procs| && Settled(s.procs[c]) && s.procs[c].pid == pid {
        assert Settled(t.procs[c]) && t.procs[c].pid == pid;
      }
      if c :| 0 <= c < |t.procs| && Settled(t.procs[c]) && t.procs[c].pid == pid {
        assert Settled(s.procs[c]) && s.procs[c].pid == pid;
      }
    }
  }

  lemma {:induction false} PlainStep(s: State, st: Step)
    requires Inv(s) && Enabled(s, st) && !st.ForkDone? && !(st.Wait? && HasZombieChild(s.procs, st.p))
    ensures var t := Do(s, st);
      && |t.procs| == |s.procs| && t.reaped == s.reaped
      && (forall c :: 0 <= c < |s.procs| ==> Settled(t.procs[c]) == Settled(s.procs[c]))
      && (forall c :: 0 <= c < |s.procs| && Settled(s.procs[c]) ==> t.procs[c].pid == s.procs[c].pid)
  {
    hide Inv, HasZombieChild, HasChild;
    if st.AllocFails? || st.SetParent? {
      hide Do, Enabled;
      ForkStepEffect(s, st);
      ChildIsEmbryo(s, st.p);
      ForkStepPids(s, st);
    }
  }

  lemma {:induction false} ForkStepPids(s: State, st: Step)
    requires Enabled(s, st) && (st.AllocFails? || st.SetParent? || st.ForkDone?)
    ensures var t := Do(s, st);
      && |t.procs| == |s.procs| && t.reaped == s.reaped
      && (forall c :: 0 <= c < |s.procs| ==> t.procs[c].pid == s.procs[c].pid)
      && (st.AllocFails? ==> t.procs[s.procs[st.p].pc.child].state == UNUSED)
      && (st.ForkDone? ==> t.procs[s.procs[st.p].pc.child].state == RUNNABLE)
      && (forall c :: 0 <= c < |s.procs| && (st.SetParent? || c != s.procs[st.p].pc.child) ==> t.procs[c].state == s.procs[c].state)
  {
  }

  lemma {:induction false} ForkDoneAccounts(s: State, p: nat, born: set<nat>)
    requires Inv(s) && Enabled(s, ForkDone(p)) && Accounted(s, born)
    ensures Accounted(Do(s, ForkDone(p)), BornAfter(s, ForkDone(p), born))
  {
    hide Inv, Do;
    var st := ForkDone(p);
    ForkStepPids(s, st);
    ChildIsEmbryo(s, p);
    var t, c := Do(s, st), s.procs[p].pc.child;
    forall pid: nat
      ensures InTable(t, pid) <==> InTable(s, pid) || pid == s.procs[c].pid
    {
      if i :| 0 <= i < |s.procs| && Settled(s.procs[i]) && s.procs[i].pid == pid {
        assert Settled(t.procs[i]) && t.procs[i].pid == pid;
      }
      if i :| 0 <= i < |t.procs| && Settled(t.procs[i]) && t.procs[i].pid == pid {
        assert i != c ==> Settled(s.procs[i]) && s.procs[i].pid == pid;
      }
      assert Settled(t.procs[c]);
    }
  }

  lemma {:induction false} ReapAccounts(s: State, p: nat, born: set<nat>)
    requires Inv(s) && Enabled(s, Wait(p)) && HasZombieChild(s.procs, p) && Accounted(s, born)
    ensures Accounted(Do(s, Wait(p)), born)
  {
    hide Inv, Do, HasZombieChild;
    WaitReaps(s, p);
    var t := Do(s, Wait(p));
    var z :| 0 <= z < |s.procs| && z != p && s.procs[z].state == ZOMBIE && t.reaped[|s.reaped|] == s.procs[z].pid
           && t.procs[z].state == UNUSED && forall j :: 0 <= j < |s.procs| && j != z && j != p ==> t.procs[j] == s.procs[j];
    ReaperStays(s, p);
    forall pid: nat
      ensures InTable(s, pid) || pid in s.reaped <==> InTable(t, pid) || pid in t.reaped
    {
      assert t.reaped == t.reaped[..|s.reaped|] + [t.reaped[|s.reaped|]];
      if i :| 0 <= i < |s.procs| && Settled(s.procs[i]) && s.procs[i].pid == pid {
        assert i != z ==> Settled(t.procs[i]) && t.procs[i].pid == pid;
      }
      if i :| 0 <= i < |t.procs| && Settled(t.procs[i]) && t.procs[i].pid == pid {
        assert Settled(s.procs[i]) && s.procs[i].pid == pid;
      }
      assert InTable(s, s.procs[z].pid) by { assert Settled(s.procs[z]); }
    }
  }

  lemma {:induction false} ReaperStays(s: State, p: nat)
    requires Enabled(s, Wait(p))
    ensures p < |s.procs| && s.procs[p].state == RUNNING && p < |Do(s, Wait(p)).procs|
    ensures FirstZombie(s.procs, p) != p ==> Do(s, Wait(p)).procs[p].pid == s.procs[p].pid
    ensures FirstZombie(s.procs, p) != p
  {
    hide HasZombieChild, HasChild;
  }

  lemma {:induction false} StepAccounts(s: State, st: Step, born: set<nat>)
    requires Inv(s) && Enabled(s, st) && Accounted(s, born)
    ensures Accounted(Do(s, st), BornAfter(s, st, born))
  {
    hide Inv, Do, Enabled, HasZombieChild, InTable;
    if st.ForkDone? {
      ForkDoneAccounts(s, st.p, born);
    } else if st.Wait? && HasZombieChild(s.procs, st.p) {
      ReapAccounts(s, st.p, born);
    } else {
      PlainStep(s, st);
      SameTable(s, Do(s, st));
    }
  }

  /**
    Over every run: init and every process that fork has made is in the table, live or a zombie, or wait has
    returned its pid; and there is no other process in the table, and no other pid that wait has returned.
   */
  lemma {:induction false} NobodyIsLost(ss: seq<State>, steps: seq<Step>, n: nat)
    requires Trace(ss, steps) && Booted(ss[0]) && n <= |steps|
    ensures Accounted(ss[n], Born(ss, steps, n))
  {
    hide Inv, Do, Enabled, Accounted, BornAfter, Booted;
    if n == 0 {
      BootAccounts(ss[0]);
    } else {
      NobodyIsLost(ss, steps, n - 1);
      TraceInv(ss, steps, n - 1);
      StepAccounts(ss[n - 1], steps[n - 1], Born(ss, steps, n - 1));
    }
  }

  lemma {:induction false} BootAccounts(s: State)
    requires Booted(s)
    ensures Accounted(s, {1})
  {
    assert Settled(s.procs[INIT]);
  }
}
