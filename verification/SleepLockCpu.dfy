/**
  Who runs and who sleeps while processes contend for a sleep lock (sleep, wakeup, yield, kill and the
  scheduler in proc.c): each condition is exact, for every step of every reachable state.
 */
module SleepLockCpu {
  import opened SleepLock

  /** The process enters sched: in yield, in a sleep elsewhere, or asleep on the lock. */
  predicate Leaves(s: State, st: Step, p: nat) {
    || st == Yield(p) || (st.SleepElsewhere? && st.p == p)
    || (st == Act(p) && p < |s.procs| && !s.procs[p].yielded && s.procs[p].pc == SleepGo)
  }

  lemma {:induction false} ActRunning(s: State, q: nat, p: nat)
    requires Inv(s) && Enabled(s, Act(q)) && p < |s.procs|
    ensures |Next(s, q).procs| == |s.procs|
    ensures Next(s, q).procs[p].run == Running <==> s.procs[p].run == Running && !Leaves(s, Act(q), p)
  {
    hide OneHolder, HasHolder, NoLostWakeup;
    ProcInvAt(s, p);
  }

  lemma {:induction false} OtherRunning(s: State, st: Step, p: nat)
    requires Enabled(s, st) && !st.Act? && p < |s.procs|
    ensures |Do(s, st).procs| == |s.procs|
    ensures Do(s, st).procs[p].run == Running <==> st == Dispatch(p) || (s.procs[p].run == Running && !Leaves(s, st, p))
  {
    hide Next, HoldsLk, HoldsPt;
  }

  /** A process has a CPU after a step if and only if the scheduler just gave it one, or it had one and
      kept it. */
  lemma {:induction false} RunningIff(s: State, st: Step, p: nat)
    requires Inv(s) && Enabled(s, st) && p < |s.procs|
    ensures |Do(s, st).procs| == |s.procs|
    ensures Do(s, st).procs[p].run == Running <==> st == Dispatch(p) || (s.procs[p].run == Running && !Leaves(s, st, p))
  {
    hide Inv, Next, Leaves;
    if st.Act? {
      ActRunning(s, st.p, p);
    } else {
      OtherRunning(s, st, p);
    }
  }

  /** The step wakes the sleepers on a channel. */
  predicate WakesUp(s: State, st: Step, chan: nat) {
    || st == WakeElsewhere(chan)
    || (st.Act? && st.p < |s.procs| && !s.procs[st.p].yielded && s.procs[st.p].pc == RelWake && chan == LOCK_CHAN)
  }

  lemma {:induction false} ActSleeps(s: State, q: nat, p: nat)
    requires Inv(s) && Enabled(s, Act(q)) && p < |s.procs| && s.procs[p].run == Sleeping
    ensures var t := Next(s, q);
      && |t.procs| == |s.procs|
      && (t.procs[p].run == Sleeping && t.procs[p].chan == s.procs[p].chan <==> !WakesUp(s, Act(q), s.procs[p].chan))
  {
    hide OneHolder, HasHolder, NoLostWakeup;
    ProcInvAt(s, p);
  }

  lemma {:induction false} OtherSleeps(s: State, st: Step, p: nat)
    requires Enabled(s, st) && !st.Act? && p < |s.procs| && s.procs[p].run == Sleeping
    ensures var t := Do(s, st);
      && |t.procs| == |s.procs|
      && (t.procs[p].run == Sleeping && t.procs[p].chan == s.procs[p].chan <==>
           st != Kill(p) && !WakesUp(s, st, s.procs[p].chan))
  {
    hide Next, HoldsLk, HoldsPt;
  }

  /** A sleeper sleeps on, on the same channel, if and only if it is not killed and nobody wakes the
      channel. */
  lemma {:induction false} SleepsOnIff(s: State, st: Step, p: nat)
    requires Inv(s) && Enabled(s, st) && p < |s.procs| && s.procs[p].run == Sleeping
    ensures var t := Do(s, st);
      && |t.procs| == |s.procs|
      && (t.procs[p].run == Sleeping && t.procs[p].chan == s.procs[p].chan <==>
           st != Kill(p) && !WakesUp(s, st, s.procs[p].chan))
  {
    hide Inv, Next, WakesUp;
    if st.Act? {
      ActSleeps(s, st.p, p);
    } else {
      OtherSleeps(s, st, p);
    }
  }

  /** The scheduler has ptable.lock after a step if and only if it just took it or was handed it, or had
      it and neither dropped it nor handed it on. */
  lemma {:induction false} SchedulerHoldsIff(s: State, st: Step)
    requires Inv(s) && Enabled(s, st)
    ensures Do(s, st).pt == Scheduler <==>
      st.SchedAcquire? || (exists p: nat :: Leaves(s, st, p)) || (s.pt == Scheduler && !st.SchedRelease? && !st.Dispatch?)
  {
    hide OneHolder, HasHolder, NoLostWakeup;
    if st.Act? {
      ProcInvAt(s, st.p);
      assert Leaves(s, st, st.p) <==> !s.procs[st.p].yielded && s.procs[st.p].pc == SleepGo;
    } else if st.Yield? || st.SleepElsewhere? {
      assert Leaves(s, st, st.p);
    }
  }

  predicate PtOwner(s: State) {
    s.pt.By? ==> s.pt.p < |s.procs|
  }

  lemma {:induction false} StepKeepsPtOwner(s: State, st: Step)
    requires Enabled(s, st) && PtOwner(s)
    ensures PtOwner(Do(s, st))
  {
    StepSize(s, st);
  }

  lemma {:induction false} RunKeepsPtOwner(s: State, steps: seq<Step>, t: State)
    requires Inv(s) && Runs(s, steps, t) && PtOwner(s)
    ensures Inv(t) && PtOwner(t)
    decreases |steps|
  {
    hide Inv, Enabled, Do, PtOwner;
    if steps != [] {
      StepKeepsInv(s, steps[0]);
      StepKeepsPtOwner(s, steps[0]);
      RunKeepsPtOwner(Do(s, steps[0]), steps[1..], t);
    }
  }

  lemma {:induction false} OwnersGoOn(s: State)
    requires Inv(s) && PtOwner(s)
    ensures s.pt.By? ==> Enabled(s, Act(s.pt.p))
    ensures s.lk.By? ==> Enabled(s, Act(s.lk.p)) || s.pt != Free
  {
    hide OneHolder, HasHolder, NoLostWakeup;
    if s.pt.By? {
      ProcInvAt(s, s.pt.p);
    }
    if s.lk.By? {
      ProcInvAt(s, s.lk.p);
    }
  }

  /** No spinlock is held for ever: whoever has ptable.lock can take its next statement, or it is the
      scheduler and can drop it; whoever has the inner spinlock can take its next statement, unless that is
      to acquire ptable.lock and it is not free. */
  lemma {:induction false} HoldersGoOn(s: State, steps: seq<Step>, t: State)
    requires Init(s) && Runs(s, steps, t)
    ensures t.pt.By? ==> Enabled(t, Act(t.pt.p))
    ensures t.pt == Scheduler ==> Enabled(t, SchedRelease)
    ensures t.lk.By? ==> Enabled(t, Act(t.lk.p)) || t.pt != Free
  {
    hide Runs;
    assert Inv(s);
    RunKeepsPtOwner(s, steps, t);
    OwnersGoOn(t);
  }

  // ---------- Channels ----------

  /** Outside sleep a process is on no channel. */
  predicate Clear(pr: Proc) {
    pr.run == Running && !pr.yielded && pr.pc != SleepWoken ==> pr.chan == 0
  }

  lemma {:induction false} StepKeepsClear(s: State, st: Step, p: nat)
    requires Inv(s) && Enabled(s, st) && p < |s.procs| && Clear(s.procs[p])
    ensures |Do(s, st).procs| == |s.procs| && Clear(Do(s, st).procs[p])
  {
    hide OneHolder, HasHolder, NoLostWakeup;
    ProcInvAt(s, p);
  }

  /** Over every run: p->chan is zero whenever the process is not in sleep. */
  lemma {:induction false} NoStaleChannel(s: State, steps: seq<Step>, t: State, p: nat)
    requires Inv(s) && Runs(s, steps, t) && p < |s.procs| && Clear(s.procs[p])
    ensures p < |t.procs| && Clear(t.procs[p])
    decreases |steps|
  {
    hide Inv, Enabled, Do, Clear;
    if steps != [] {
      StepKeepsInv(s, steps[0]);
      StepKeepsClear(s, steps[0], p);
      NoStaleChannel(Do(s, steps[0]), steps[1..], t, p);
    }
  }
}
