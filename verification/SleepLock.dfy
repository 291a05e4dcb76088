/**
  Sleep locks (sleeplock.c) over sleep and wakeup (proc.c) as a step system: any number of
  processes on any number of CPUs, interleaved between all accesses to the lock's inner spinlock
  and to ptable.lock. Spinlock acquire and release are the primitives.
 */
module SleepLock {

  /** Where a process is. "lk" is the sleep lock's inner spinlock, "pt" is ptable.lock. */
  datatype Pc =
    | Idle        // outside acquiresleep and releasesleep
    | AcqEntry    // about to acquire lk
    | AcqTest     // holds lk: tests locked
    | AcqTaken    // holds lk: has set locked, about to release lk
    | SleepPt     // in sleep, holds lk: about to acquire pt
    | SleepRel    // in sleep, holds lk and pt: about to release lk
    | SleepGo     // in sleep, holds pt: about to become SLEEPING and enter the scheduler
    | Asleep      // in sched
    | SleepWoken  // back from sched, holds pt: about to release it and reacquire lk
    | RelEntry    // about to acquire lk
    | RelClear    // holds lk: about to clear locked
    | RelWakePt   // in wakeup, holds lk: about to acquire pt
    | RelWake     // in wakeup, holds lk and pt: about to run wakeup1
    | RelPt       // in wakeup, holds lk and pt: about to release pt
    | RelDone     // holds lk: about to release it

  datatype RunState = Running | Runnable | Sleeping

  /** `chan` is the channel a process sleeps on; `holds` is ghost knowledge of who took the lock;
      `yielded` marks a process that gave up the CPU in yield, or in a sleep elsewhere, and has yet to
      release pt. */
  datatype Proc = Proc(pc: Pc, run: RunState, chan: nat, holds: bool, yielded: bool)

  datatype Owner = Free | By(p: nat) | Scheduler

  /** The address of the sleep lock, as a sleep channel. */
  const LOCK_CHAN := 1

  datatype State = State(procs: seq<Proc>, lk: Owner, pt: Owner, locked: bool)

  datatype Step =
    | Act(p: nat)                       // the next statement of process p
    | CallAcquire(p: nat)
    | CallRelease(p: nat)
    | Yield(p: nat)                     // timer interrupt
    | SleepElsewhere(p: nat, c: nat)    // the process sleeps on another channel
    | WakeElsewhere(c: nat)
    | Kill(p: nat)
    | SchedAcquire
    | SchedRelease
    | Dispatch(p: nat)

  // ---------- Steps ----------

  predicate NeedsLk(pc: Pc) {
    pc == AcqEntry || pc == RelEntry
  }

  predicate NeedsPt(pc: Pc) {
    pc == SleepPt || pc == RelWakePt
  }

  predicate HoldsLk(pc: Pc) {
    pc in {AcqTest, AcqTaken, SleepPt, SleepRel, RelClear, RelWakePt, RelWake, RelPt, RelDone}
  }

  predicate HoldsPt(pr: Proc) {
    pr.run == Running && (pr.yielded || pr.pc in {SleepRel, SleepGo, SleepWoken, RelWake, RelPt})
  }

  predicate NoSpinlock(pr: Proc) {
    !HoldsLk(pr.pc) && !HoldsPt(pr)
  }

  predicate Enabled(s: State, st: Step) {
    match st
    case Act(p) => p < |s.procs| && var pr := s.procs[p];
      && pr.run == Running
      && (pr.yielded || (pr.pc != Idle && pr.pc != Asleep))
      && (!pr.yielded && NeedsLk(pr.pc) ==> s.lk == Free)
      && (!pr.yielded && NeedsPt(pr.pc) ==> s.pt == Free)
    case CallAcquire(p) => p < |s.procs| && var pr := s.procs[p]; pr.run == Running && !pr.yielded && pr.pc == Idle && !pr.holds
    case CallRelease(p) => p < |s.procs| && var pr := s.procs[p]; pr.run == Running && !pr.yielded && pr.pc == Idle && pr.holds
    case Yield(p) => p < |s.procs| && s.pt == Free && var pr := s.procs[p]; pr.run == Running && NoSpinlock(pr)
    case SleepElsewhere(p, c) => p < |s.procs| && s.pt == Free && c != LOCK_CHAN &&
      var pr := s.procs[p]; pr.run == Running && !pr.yielded && pr.pc == Idle
    case WakeElsewhere(c) => s.pt == Free && c != LOCK_CHAN
    case Kill(p) => p < |s.procs| && s.pt == Free
    case SchedAcquire => s.pt == Free
    case SchedRelease => s.pt == Scheduler
    case Dispatch(p) => p < |s.procs| && s.pt == Scheduler && s.procs[p].run == Runnable
  }

  /** wakeup1. */
  function Wakeup1(procs: seq<Proc>, chan: nat): (r: seq<Proc>)
    ensures |r| == |procs|
    ensures forall i {:trigger r[i]} :: 0 <= i < |r| ==>
      r[i] == if procs[i].run == Sleeping && procs[i].chan == chan then procs[i].(run := Runnable) else procs[i]
  {
    seq(|procs|, i requires 0 <= i < |procs| =>
      if procs[i].run == Sleeping && procs[i].chan == chan then procs[i].(run := Runnable) else procs[i])
  }

  /** The loop of wakeup1. */
  method Wakeup1Loop(procs: array<Proc>, chan: nat)
    modifies procs
    ensures procs[..] == Wakeup1(old(procs[..]), chan)
  {
    var i := 0;
    while i < procs.Length
      invariant 0 <= i <= procs.Length
      invariant forall j :: 0 <= j < i ==> procs[j] == Wakeup1(old(procs[..]), chan)[j]
      invariant forall j :: i <= j < procs.Length ==> procs[j] == old(procs[j])
    {
      if procs[i].run == Sleeping && procs[i].chan == chan {
        procs[i] := procs[i].(run := Runnable);
      }
      i := i + 1;
    }
  }

  function SetPc(s: State, p: nat, pc: Pc): State
    requires p < |s.procs|
  {
    s.(procs := s.procs[p := s.procs[p].(pc := pc)])
  }

  /** The next statement of process p. */
  function Next(s: State, p: nat): (t: State)
    requires Enabled(s, Act(p))
  {
    var pr := s.procs[p];
    if pr.yielded then s.(pt := Free, procs := s.procs[p := pr.(yielded := false, chan := 0)])
    else match pr.pc
      case AcqEntry => SetPc(s, p, AcqTest).(lk := By(p))
      case AcqTest =>
        if s.locked then SetPc(s, p, SleepPt)
        else s.(locked := true, procs := s.procs[p := pr.(pc := AcqTaken, holds := true)])
      case AcqTaken => SetPc(s, p, Idle).(lk := Free)
      case SleepPt => SetPc(s, p, SleepRel).(pt := By(p))
      case SleepRel => SetPc(s, p, SleepGo).(lk := Free)
      case SleepGo => s.(pt := Scheduler, procs := s.procs[p := pr.(pc := Asleep, run := Sleeping, chan := LOCK_CHAN)])
      case SleepWoken => s.(pt := Free, procs := s.procs[p := pr.(pc := AcqEntry, chan := 0)])
      case RelEntry => SetPc(s, p, RelClear).(lk := By(p))
      case RelClear => s.(locked := false, procs := s.procs[p := pr.(pc := RelWakePt, holds := false)])
      case RelWakePt => SetPc(s, p, RelWake).(pt := By(p))
      case RelWake => SetPc(s.(procs := Wakeup1(s.procs, LOCK_CHAN)), p, RelPt)
      case RelPt => SetPc(s, p, RelDone).(pt := Free)
      case RelDone => SetPc(s, p, Idle).(lk := Free)
      case Idle => s
      case Asleep => s
  }

  function Do(s: State, st: Step): (t: State)
    requires Enabled(s, st)
  {
    match st
    case Act(p) => Next(s, p)
    case CallAcquire(p) => SetPc(s, p, AcqEntry)
    case CallRelease(p) => SetPc(s, p, RelEntry)
    case Yield(p) => s.(pt := Scheduler, procs := s.procs[p := s.procs[p].(run := Runnable, yielded := true)])
    case SleepElsewhere(p, c) => s.(pt := Scheduler, procs := s.procs[p := s.procs[p].(run := Sleeping, chan := c)])
    case WakeElsewhere(c) => s.(procs := Wakeup1(s.procs, c))
    case Kill(p) => s.(procs := s.procs[p := if s.procs[p].run == Sleeping then s.procs[p].(run := Runnable) else s.procs[p]])
    case SchedAcquire => s.(pt := Scheduler)
    case SchedRelease => s.(pt := Free)
    case Dispatch(p) =>
      var pr := s.procs[p].(run := Running);
      s.(pt := By(p), procs := s.procs[p := if pr.yielded then pr else if pr.pc == Asleep then pr.(pc := SleepWoken) else pr.(yielded := true)])
  }

  // ---------- The invariant ----------

  /** What is true of each process. */
  ghost predicate ProcInv(s: State, p: nat)
    requires p < |s.procs|
  {
    var pr := s.procs[p];
    && (HoldsLk(pr.pc) <==> s.lk == By(p))
    && (HoldsPt(pr) <==> s.pt == By(p))
    && (HoldsLk(pr.pc) ==> pr.run == Running && !pr.yielded)
    && (pr.pc in {SleepGo, SleepWoken} ==> pr.run == Running && !pr.yielded)
    && (pr.pc == Asleep ==> pr.run != Running && !pr.yielded)
    && (pr.run == Sleeping ==> !pr.yielded && (pr.chan == LOCK_CHAN ==> pr.pc == Asleep))
    && (pr.holds ==> s.locked)
    && (pr.pc in {SleepPt, SleepRel} ==> s.locked)
    && (pr.pc in {AcqTaken, RelEntry, RelClear} ==> pr.holds)
    && (pr.pc in {RelWakePt, RelWake, RelPt, RelDone} ==> !s.locked)
    && (pr.pc in {AcqEntry, AcqTest, SleepPt, SleepRel, SleepGo, Asleep, SleepWoken} ==> !pr.holds)
  }

  /** A process that sleeps on the lock, or is about to and can no longer be kept from it. */
  predicate Waits(pr: Proc) {
    (pr.run == Sleeping && pr.chan == LOCK_CHAN) || pr.pc == SleepGo
  }

  /** If somebody waits for a lock that is not locked, the process that holds lk is about to wake
      them up. */
  ghost predicate NoLostWakeup(s: State) {
    !s.locked && (exists w :: 0 <= w < |s.procs| && Waits(s.procs[w])) ==>
      s.lk.By? && s.lk.p < |s.procs| && s.procs[s.lk.p].pc in {RelWakePt, RelWake}
  }

  ghost predicate OneHolder(s: State) {
    forall p, q :: 0 <= p < q < |s.procs| ==> !(s.procs[p].holds && s.procs[q].holds)
  }

  /** A locked lock has a holder. */
  ghost predicate HasHolder(s: State) {
    s.locked ==> exists p :: 0 <= p < |s.procs| && s.procs[p].holds
  }

  ghost predicate Inv(s: State) {
    && HasHolder(s)
    && (forall p :: 0 <= p < |s.procs| ==> ProcInv(s, p))
    && OneHolder(s)
    && NoLostWakeup(s)
    && s.lk != Scheduler
    && (s.lk.By? ==> s.lk.p < |s.procs|)
  }

  lemma {:induction false} ProcInvAt(s: State, p: nat)
    requires Inv(s) && p < |s.procs|
    ensures ProcInv(s, p)
  {
  }

  /** One process takes its next statement: the others keep their part of the invariant. */
  lemma {:induction false} NextKeepsProcInv(s: State, p: nat, q: nat)
    requires Inv(s) && Enabled(s, Act(p)) && q < |s.procs|
    ensures |Next(s, p).procs| == |s.procs| && ProcInv(Next(s, p), q)
  {
    hide NoLostWakeup;
    ProcInvAt(s, p);
    ProcInvAt(s, q);
    if q != p {
      assert !(s.procs[p].holds && s.procs[q].holds);
    }
  }

  lemma {:induction false} NextKeepsOneHolder(s: State, p: nat)
    requires Inv(s) && Enabled(s, Act(p))
    ensures OneHolder(Next(s, p))
  {
    hide NoLostWakeup;
    var t := Next(s, p);
    ProcInvAt(s, p);
    forall q, r | 0 <= q < r < |t.procs|
      ensures !(t.procs[q].holds && t.procs[r].holds)
    {
      ProcInvAt(s, q);
      ProcInvAt(s, r);
    }
  }

  lemma {:induction false} NextKeepsHolder(s: State, p: nat)
    requires Inv(s) && Enabled(s, Act(p))
    ensures HasHolder(Next(s, p))
  {
    hide NoLostWakeup, OneHolder;
    var t := Next(s, p);
    ProcInvAt(s, p);
    if t.locked {
      if s.locked {
        var h :| 0 <= h < |s.procs| && s.procs[h].holds;
        assert t.procs[h].holds;
      } else {
        assert t.procs[p].holds;
      }
    }
  }

  lemma {:induction false} NextKeepsWakeup(s: State, p: nat)
    requires Inv(s) && Enabled(s, Act(p))
    ensures NoLostWakeup(Next(s, p))
  {
    var t := Next(s, p);
    ProcInvAt(s, p);
    if !t.locked {
      forall w | 0 <= w < |t.procs| && Waits(t.procs[w])
        ensures t.lk.By? && t.lk.p < |t.procs| && t.procs[t.lk.p].pc in {RelWakePt, RelWake}
      {
        ProcInvAt(s, w);
        if s.lk.By? {
          ProcInvAt(s, s.lk.p);
        }
        assert s.locked || Waits(s.procs[w]) || w == p;
      }
    }
  }

  lemma {:induction false} NextKeepsInv(s: State, p: nat)
    requires Inv(s) && Enabled(s, Act(p))
    ensures Inv(Next(s, p))
  {
    hide ProcInv, OneHolder, NoLostWakeup, HasHolder, Next;
    forall q | 0 <= q < |s.procs|
      ensures |Next(s, p).procs| == |s.procs| && ProcInv(Next(s, p), q)
    {
      NextKeepsProcInv(s, p, q);
    }
    NextKeepsProcInv(s, p, p);
    NextKeepsOneHolder(s, p);
    NextKeepsHolder(s, p);
    NextKeepsWakeup(s, p);
    NextLk(s, p);
  }

  lemma {:induction false} NextLk(s: State, p: nat)
    requires Inv(s) && Enabled(s, Act(p))
    ensures Next(s, p).lk != Scheduler && (Next(s, p).lk.By? ==> Next(s, p).lk.p < |s.procs|)
  {
  }

  /** What a step that is not a statement of the lock code does to a process: it keeps its part of the
      invariant, its hold on the lock, and does not begin to wait. */
  ghost predicate OtherFrame(s: State, st: Step, q: nat)
    requires Enabled(s, st) && q < |s.procs|
  {
    var t := Do(s, st);
    && |t.procs| == |s.procs| && t.lk == s.lk && t.locked == s.locked
    && ProcInv(t, q) && t.procs[q].holds == s.procs[q].holds
    && (Waits(t.procs[q]) ==> Waits(s.procs[q]))
    && (s.lk == By(q) ==> t.procs[q].pc == s.procs[q].pc)
  }

  lemma {:induction false} CallFrame(s: State, st: Step, q: nat)
    requires Inv(s) && Enabled(s, st) && (st.CallAcquire? || st.CallRelease? || st.Yield?) && q < |s.procs|
    ensures OtherFrame(s, st, q)
  {
    hide NoLostWakeup, OneHolder, HasHolder, Next, Wakeup1;
    ProcInvAt(s, q);
  }

  lemma {:induction false} ElsewhereFrame(s: State, st: Step, q: nat)
    requires Inv(s) && Enabled(s, st) && (st.SleepElsewhere? || st.WakeElsewhere? || st.Kill?) && q < |s.procs|
    ensures OtherFrame(s, st, q)
  {
    hide NoLostWakeup, OneHolder, HasHolder, Next, Wakeup1;
    ProcInvAt(s, q);
  }

  lemma {:induction false} SchedFrame(s: State, st: Step, q: nat)
    requires Inv(s) && Enabled(s, st) && (st.SchedAcquire? || st.SchedRelease? || st.Dispatch?) && q < |s.procs|
    ensures OtherFrame(s, st, q)
  {
    hide NoLostWakeup, OneHolder, HasHolder, Next, Wakeup1;
    ProcInvAt(s, q);
  }

  lemma {:induction false} OtherKeepsProc(s: State, st: Step, q: nat)
    requires Inv(s) && Enabled(s, st) && !st.Act? && q < |s.procs|
    ensures OtherFrame(s, st, q)
  {
    hide Inv, Enabled, OtherFrame;
    if st.CallAcquire? || st.CallRelease? || st.Yield? {
      CallFrame(s, st, q);
    } else if st.SleepElsewhere? || st.WakeElsewhere? || st.Kill? {
      ElsewhereFrame(s, st, q);
    } else {
      SchedFrame(s, st, q);
    }
  }

  lemma {:induction false} OtherSize(s: State, st: Step)
    requires Enabled(s, st) && !st.Act?
    ensures |Do(s, st).procs| == |s.procs| && Do(s, st).lk == s.lk && Do(s, st).locked == s.locked
  {
    hide Next;
  }

  /** The steps that are not a statement of the lock code. */
  lemma {:induction false} OtherKeepsInv(s: State, st: Step)
    requires Inv(s) && Enabled(s, st) && !st.Act?
    ensures Inv(Do(s, st))
  {
    hide Enabled, Do, ProcInv, Waits;
    var t := Do(s, st);
    OtherSize(s, st);
    forall q | 0 <= q < |s.procs|
      ensures ProcInv(t, q) && t.procs[q].holds == s.procs[q].holds && (Waits(t.procs[q]) ==> Waits(s.procs[q]))
      ensures s.lk == By(q) ==> t.procs[q].pc == s.procs[q].pc
    {
      OtherKeepsProc(s, st, q);
    }
    if s.locked {
      var h :| 0 <= h < |s.procs| && s.procs[h].holds;
      assert t.procs[h].holds;
    }
  }

  // ---------- Runs ----------

  ghost predicate Init(s: State) {
    && s.lk == Free && s.pt == Free && !s.locked
    && forall p :: 0 <= p < |s.procs| ==>
        s.procs[p].pc == Idle && s.procs[p].run == Running && !s.procs[p].holds && !s.procs[p].yielded
  }

  ghost predicate Runs(s: State, steps: seq<Step>, t: State)
    decreases |steps|
  {
    if steps == [] then s == t else Enabled(s, steps[0]) && Runs(Do(s, steps[0]), steps[1..], t)
  }

  lemma {:induction false} RunKeepsInv(s: State, steps: seq<Step>, t: State)
    requires Inv(s) && Runs(s, steps, t)
    ensures Inv(t)
    decreases |steps|
  {
    hide Inv, Do, Enabled;
    if steps != [] {
      StepKeepsInv(s, steps[0]);
      RunKeepsInv(Do(s, steps[0]), steps[1..], t);
    }
  }

  lemma {:induction false} StepKeepsInv(s: State, st: Step)
    requires Inv(s) && Enabled(s, st)
    ensures Inv(Do(s, st))
  {
    hide Inv, Next, Enabled;
    if st.Act? {
      NextKeepsInv(s, st.p);
    } else {
      OtherKeepsInv(s, st);
    }
  }

  /** Over every interleaving: the sleep lock is locked exactly when one process holds it, never two,
      and whenever the inner spinlock is free no process sleeps on a lock that is not locked. */
  lemma {:induction false} SleepLockIsSafe(s: State, steps: seq<Step>, t: State)
    requires Init(s) && Runs(s, steps, t)
    ensures forall p, q :: 0 <= p < |t.procs| && 0 <= q < |t.procs| && t.procs[p].holds && t.procs[q].holds ==> p == q
    ensures t.locked <==> exists p :: 0 <= p < |t.procs| && t.procs[p].holds
    ensures t.lk == Free && !t.locked ==>
      forall p :: 0 <= p < |t.procs| ==> !(t.procs[p].run == Sleeping && t.procs[p].chan == LOCK_CHAN)
  {
    assert Inv(s);
    RunKeepsInv(s, steps, t);
    forall p | 0 <= p < |t.procs|
      ensures ProcInv(t, p)
      ensures t.lk == Free && !t.locked ==> !Waits(t.procs[p])
    {
    }
  }

  // ---------- Between acquiresleep and releasesleep ----------

  predicate InAcquire(pc: Pc) {
    pc in {AcqEntry, AcqTest, AcqTaken, SleepPt, SleepRel, SleepGo, Asleep, SleepWoken}
  }

  predicate InRelease(pc: Pc) {
    pc in {RelEntry, RelClear, RelWakePt, RelWake, RelPt, RelDone}
  }

  /** The step is the return of a call of process p that it was in. */
  predicate Returns(s: State, st: Step, p: nat)
    requires Enabled(s, st)
  {
    p < |s.procs| && p < |Do(s, st).procs| && s.procs[p].pc != Idle && Do(s, st).procs[p].pc == Idle
  }

  /** The processes that have returned from acquiresleep and not called releasesleep since. */
  ghost function InsideAfter(s: State, st: Step, inside: set<nat>): set<nat>
    requires Enabled(s, st)
  {
    if st.CallRelease? then inside - {st.p}
    else inside + set p: nat | p < |s.procs| && InAcquire(s.procs[p].pc) && Returns(s, st, p)
  }

  ghost function Inside(s: State, steps: seq<Step>, inside: set<nat>): set<nat>
    requires exists t :: Runs(s, steps, t)
    decreases |steps|
  {
    if steps == [] then inside
    else
      var t :| Runs(s, steps, t);
      assert Runs(Do(s, steps[0]), steps[1..], t);
      Inside(Do(s, steps[0]), steps[1..], InsideAfter(s, steps[0], inside))
  }

  /** Whoever is inside holds the lock, and whoever holds it is inside or on the way in or out. */
  ghost predicate InsideHolds(s: State, inside: set<nat>) {
    forall p: nat :: p in inside <==> p < |s.procs| && s.procs[p].holds && s.procs[p].pc == Idle
  }

  /** A call of acquiresleep returns with the lock taken; one of releasesleep returns with the lock cleared. */
  lemma {:induction false} ReturnMeansDone(s: State, st: Step, p: nat)
    requires Inv(s) && Enabled(s, st) && Returns(s, st, p)
    ensures InAcquire(s.procs[p].pc) || InRelease(s.procs[p].pc)
    ensures InAcquire(s.procs[p].pc) ==> Do(s, st).locked && Do(s, st).procs[p].holds
    ensures InRelease(s.procs[p].pc) ==> !Do(s, st).locked && !Do(s, st).procs[p].holds
  {
    hide Inv, NoLostWakeup, OneHolder, HasHolder, Wakeup1;
    ReturnIsAct(s, st, p);
    ProcInvAt(s, p);
  }

  /** Calls return by their last statement. */
  lemma {:induction false} ReturnIsAct(s: State, st: Step, p: nat)
    requires Enabled(s, st) && Returns(s, st, p)
    ensures st == Act(p) && (s.procs[p].pc == AcqTaken || s.procs[p].pc == RelDone)
  {
    hide Wakeup1;
  }

  /** What one step does to one process between its calls. */
  ghost predicate IdleKept(s: State, st: Step, p: nat)
    requires Enabled(s, st) && p < |s.procs|
  {
    && |Do(s, st).procs| == |s.procs|
    && var a, b := s.procs[p], Do(s, st).procs[p];
    && (st != CallRelease(p) && a.holds && a.pc == Idle ==> b.holds && b.pc == Idle)
    && (st == CallRelease(p) ==> b.pc != Idle)
    && (a.pc == Idle && b.pc == Idle ==> b.holds == a.holds)
  }

  lemma {:induction false} ActIdle(s: State, q: nat, p: nat)
    requires Enabled(s, Act(q)) && p < |s.procs|
    ensures IdleKept(s, Act(q), p)
  {
    hide Wakeup1;
  }

  lemma {:induction false} OtherIdle(s: State, st: Step, p: nat)
    requires Enabled(s, st) && !st.Act? && p < |s.procs|
    ensures IdleKept(s, st, p)
  {
    hide Wakeup1, Next;
  }

  lemma {:induction false} IdleStep(s: State, st: Step, p: nat)
    requires Enabled(s, st) && p < |s.procs|
    ensures IdleKept(s, st, p)
  {
    hide IdleKept, Enabled;
    if st.Act? {
      ActIdle(s, st.p, p);
    } else {
      OtherIdle(s, st, p);
    }
  }

  lemma {:induction false} StepKeepsInside(s: State, st: Step, inside: set<nat>)
    requires Inv(s) && Enabled(s, st) && InsideHolds(s, inside)
    ensures InsideHolds(Do(s, st), InsideAfter(s, st, inside))
  {
    hide Inv, Enabled, Do;
    var t, now := Do(s, st), InsideAfter(s, st, inside);
    forall p: nat
      ensures p in now <==> p < |t.procs| && t.procs[p].holds && t.procs[p].pc == Idle
    {
      StepSize(s, st);
      if p < |s.procs| {
        IdleStep(s, st, p);
        if Returns(s, st, p) {
          ReturnMeansDone(s, st, p);
          ReturnIsAct(s, st, p);
        }
      }
    }
  }

  lemma {:induction false} StepSize(s: State, st: Step)
    requires Enabled(s, st)
    ensures |Do(s, st).procs| == |s.procs|
  {
  }

  /**
    Over every interleaving: the processes between a return from acquiresleep and the next call of
    releasesleep are those that hold the lock there, and there is never more than one.
   */
  lemma {:induction false} InsideIsHolding(s: State, steps: seq<Step>, t: State, inside: set<nat>)
    requires Inv(s) && Runs(s, steps, t) && InsideHolds(s, inside)
    ensures Inv(t) && InsideHolds(t, Inside(s, steps, inside))
    decreases |steps|
  {
    hide Inv, Enabled, Do, InsideHolds, InsideAfter;
    if steps != [] {
      StepKeepsInv(s, steps[0]);
      StepKeepsInside(s, steps[0], inside);
      InsideIsHolding(Do(s, steps[0]), steps[1..], t, InsideAfter(s, steps[0], inside));
    }
  }

  /** From the start: never two processes inside, and the lock is locked while one is. */
  lemma {:induction false} MutualExclusion(s: State, steps: seq<Step>, t: State)
    requires Init(s) && Runs(s, steps, t)
    ensures forall p, q :: p in Inside(s, steps, {}) && q in Inside(s, steps, {}) ==> p == q
    ensures Inside(s, steps, {}) != {} ==> t.locked
  {
    hide Runs, Inside;
    SleepLockIsSafe(s, steps, t);
    assert Inv(s);
    InsideIsHolding(s, steps, t, {});
  }
}
