/**
  A sleep lock changes hands (sleeplock.c): a run in which one process takes the lock, another sleeps on
  it, and the release of the first lets the second take it.
 */
module SleepLockRun {
  import opened SleepLock

  lemma {:induction false} RunsOn(s: State, steps: seq<Step>, t: State, more: seq<Step>, u: State)
    requires Runs(s, steps, t) && Runs(t, more, u)
    ensures Runs(s, steps + more, u)
    decreases |steps|
  {
    hide Enabled, Do;
    if steps == [] {
      assert steps + more == more;
    } else {
      RunsOn(Do(s, steps[0]), steps[1..], t, more, u);
      assert (steps + more)[0] == steps[0] && (steps + more)[1..] == steps[1..] + more;
    }
  }

  lemma {:induction false} RunsOne(s: State, st: Step)
    requires Enabled(s, st)
    ensures Runs(s, [st], Do(s, st))
  {
    hide Enabled, Do;
    assert [st][1..] == [];
    assert Runs(Do(s, st), [], Do(s, st));
  }

  lemma {:induction false} RunsThen(s: State, steps: seq<Step>, t: State, st: Step)
    requires Runs(s, steps, t) && Enabled(t, st)
    ensures Runs(s, steps + [st], Do(t, st))
  {
    hide Runs, Enabled, Do;
    RunsOne(t, st);
    RunsOn(s, steps, t, [st], Do(t, st));
  }

  /** Outside the lock's code, with a CPU. */
  predicate Ready(s: State, p: nat) {
    p < |s.procs| && s.procs[p].run == Running && !s.procs[p].yielded && s.procs[p].pc == Idle
  }

  /** acquiresleep of a free lock. */
  lemma {:induction false} TakesFree(s: State, p: nat) returns (steps: seq<Step>, t: State)
    requires Ready(s, p) && !s.procs[p].holds && !s.locked && s.lk == Free
    ensures Runs(s, steps, t) && t == s.(locked := true, procs := s.procs[p := s.procs[p].(holds := true)])
  {
    hide Runs;
    RunsOne(s, CallAcquire(p));
    steps, t := [CallAcquire(p)], Do(s, CallAcquire(p));
    for i := 0 to 3
      invariant p < |t.procs| == |s.procs| && Runs(s, steps, t)
      invariant var pr := s.procs[p];
        t == match i
          case 0 => s.(procs := s.procs[p := pr.(pc := AcqEntry)])
          case 1 => s.(procs := s.procs[p := pr.(pc := AcqTest)], lk := By(p))
          case 2 => s.(procs := s.procs[p := pr.(pc := AcqTaken, holds := true)], lk := By(p), locked := true)
          case _ => s.(procs := s.procs[p := pr.(holds := true)], locked := true)
    {
      RunsThen(s, steps, t, Act(p));
      steps, t := steps + [Act(p)], Do(t, Act(p));
    }
  }

  /** acquiresleep of a lock that is taken, up to sched. */
  lemma {:induction false} SleepsOnIt(s: State, p: nat) returns (steps: seq<Step>, t: State)
    requires Ready(s, p) && !s.procs[p].holds && s.locked && s.lk == Free && s.pt == Free
    ensures Runs(s, steps, t)
    ensures t == s.(procs := s.procs[p := s.procs[p].(pc := Asleep, run := Sleeping, chan := LOCK_CHAN)])
  {
    hide Runs;
    RunsOne(s, CallAcquire(p));
    steps, t := [CallAcquire(p)], Do(s, CallAcquire(p));
    for i := 0 to 5
      invariant p < |t.procs| == |s.procs| && Runs(s, steps, t)
      invariant var pr := s.procs[p];
        t == match i
          case 0 => s.(procs := s.procs[p := pr.(pc := AcqEntry)])
          case 1 => s.(procs := s.procs[p := pr.(pc := AcqTest)], lk := By(p))
          case 2 => s.(procs := s.procs[p := pr.(pc := SleepPt)], lk := By(p))
          case 3 => s.(procs := s.procs[p := pr.(pc := SleepRel)], lk := By(p), pt := By(p))
          case 4 => s.(procs := s.procs[p := pr.(pc := SleepGo)], pt := By(p))
          case _ => s.(procs := s.procs[p := pr.(pc := Asleep, run := Sleeping, chan := LOCK_CHAN)], pt := Scheduler)
    {
      RunsThen(s, steps, t, Act(p));
      steps, t := steps + [Act(p)], Do(t, Act(p));
    }
    RunsThen(s, steps, t, SchedRelease);
    steps, t := steps + [SchedRelease], Do(t, SchedRelease);
  }

  /** releasesleep. */
  lemma {:induction false} Releases(s: State, p: nat) returns (steps: seq<Step>, t: State)
    requires Ready(s, p) && s.procs[p].holds && s.locked && s.lk == Free && s.pt == Free
    ensures Runs(s, steps, t)
    ensures t == s.(locked := false, procs := Wakeup1(s.procs, LOCK_CHAN)[p := s.procs[p].(holds := false)])
  {
    hide Runs;
    RunsOne(s, CallRelease(p));
    steps, t := [CallRelease(p)], Do(s, CallRelease(p));
    for i := 0 to 6
      invariant p < |t.procs| == |s.procs| && Runs(s, steps, t)
      invariant var pr, woken := s.procs[p], Wakeup1(s.procs, LOCK_CHAN);
        t == match i
          case 0 => s.(procs := s.procs[p := pr.(pc := RelEntry)])
          case 1 => s.(procs := s.procs[p := pr.(pc := RelClear)], lk := By(p))
          case 2 => s.(procs := s.procs[p := pr.(pc := RelWakePt, holds := false)], lk := By(p), locked := false)
          case 3 => s.(procs := s.procs[p := pr.(pc := RelWake, holds := false)], lk := By(p), pt := By(p), locked := false)
          case 4 => s.(procs := woken[p := pr.(pc := RelPt, holds := false)], lk := By(p), pt := By(p), locked := false)
          case 5 => s.(procs := woken[p := pr.(pc := RelDone, holds := false)], lk := By(p), locked := false)
          case _ => s.(procs := woken[p := pr.(holds := false)], locked := false)
    {
      RunsThen(s, steps, t, Act(p));
      steps, t := steps + [Act(p)], Do(t, Act(p));
    }
  }

  /** A woken sleeper is dispatched, tests again and takes the lock. */
  lemma {:induction false} WakesAndTakes(s: State, p: nat) returns (steps: seq<Step>, t: State)
    requires p < |s.procs| && !s.locked && s.lk == Free && s.pt == Free
    requires s.procs[p] == Proc(Asleep, Runnable, LOCK_CHAN, false, false)
    ensures Runs(s, steps, t) && t == s.(locked := true, procs := s.procs[p := Proc(Idle, Running, 0, true, false)])
  {
    hide Runs;
    RunsOne(s, SchedAcquire);
    steps, t := [SchedAcquire], Do(s, SchedAcquire);
    RunsThen(s, steps, t, Dispatch(p));
    steps, t := steps + [Dispatch(p)], Do(t, Dispatch(p));
    for i := 0 to 4
      invariant p < |t.procs| == |s.procs| && Runs(s, steps, t)
      invariant t == match i
          case 0 => s.(procs := s.procs[p := Proc(SleepWoken, Running, LOCK_CHAN, false, false)], pt := By(p))
          case 1 => s.(procs := s.procs[p := Proc(AcqEntry, Running, 0, false, false)])
          case 2 => s.(procs := s.procs[p := Proc(AcqTest, Running, 0, false, false)], lk := By(p))
          case 3 => s.(procs := s.procs[p := Proc(AcqTaken, Running, 0, true, false)], lk := By(p), locked := true)
          case _ => s.(procs := s.procs[p := Proc(Idle, Running, 0, true, false)], locked := true)
    {
      RunsThen(s, steps, t, Act(p));
      steps, t := steps + [Act(p)], Do(t, Act(p));
    }
  }

  /** From the start, for any two processes: a run in which the second sleeps on the lock of the first, and
      gets it when the first releases it. */
  lemma {:induction false} Handover(s: State, p: nat, q: nat) returns (before: seq<Step>, mid: State, after: seq<Step>, t: State)
    requires Init(s) && p < |s.procs| && q < |s.procs| && p != q
    ensures Runs(s, before, mid) && p < |mid.procs| && q < |mid.procs| && mid.procs[p].holds && mid.procs[q].run == Sleeping && mid.procs[q].chan == LOCK_CHAN
    ensures Runs(mid, after, t) && Ready(t, p) && !t.procs[p].holds && Ready(t, q) && t.procs[q].holds && t.locked
  {
    hide Runs;
    var a, s1 := TakesFree(s, p);
    var b, s2 := SleepsOnIt(s1, q);
    RunsOn(s, a, s1, b, s2);
    before, mid := a + b, s2;
    var c, s3 := Releases(s2, p);
    assert s3.procs[q] == Proc(Asleep, Runnable, LOCK_CHAN, false, false);
    var d, s4 := WakesAndTakes(s3, q);
    RunsOn(s2, c, s3, d, s4);
    after, t := c + d, s4;
  }
}
