/**
  When an end of a pipe is open, and what kill does to a process in pipewrite or piperead (pipe.c).
 */
module PipeEnds {
  import opened Blocks
  import opened Pipe
  import opened PipeSystem

  // ---------- pipeclose ----------

  /** The process has called pipeclose for that end and not yet reached the statement that closes it. */
  predicate Closing(pc: Pc, w: bool) {
    (pc.Entry? || pc.Body?) && pc.op == CloseEnd(w)
  }

  predicate Open(s: State, w: bool) {
    if w then s.writeopen else s.readopen
  }

  predicate HasFd(s: State, w: bool) {
    if w then s.wfd else s.rfd
  }

  predicate ClosingAt(s: State, q: nat, w: bool) {
    q < |s.procs| && Closing(s.procs[q].pc, w)
  }

  ghost predicate NoneClosing(s: State, w: bool) {
    forall q: nat :: !ClosingAt(s, q, w)
  }

  ghost predicate OneClosing(s: State, w: bool) {
    exists p: nat :: ClosingAt(s, p, w) && forall q: nat :: ClosingAt(s, q, w) ==> q == p
  }

  /** An end is open while it has a descriptor, and until the one process that closes it does. */
  ghost predicate EndOk(s: State, w: bool) {
    if HasFd(s, w) then Open(s, w) && NoneClosing(s, w) else if Open(s, w) then OneClosing(s, w) else NoneClosing(s, w)
  }

  lemma {:induction false} BodyEndsClosing(s: State, p: nat, w: bool)
    requires p < |s.procs| && s.procs[p].pc.Body? && |s.ring.data| == PIPESIZE
    ensures |BodyStep(s, p).procs| == |s.procs| && !Closing(BodyStep(s, p).procs[p].pc, w)
  {
    hide Full, Empty, Push, Pop, Front;
  }

  lemma {:induction false} MoveCloses(s: State, p: nat, w: bool, q: nat)
    requires p < |s.procs| && q < |s.procs| && !s.procs[p].pc.Body? && ProcInv(s, p)
    ensures |MoveStep(s, p).procs| == |s.procs|
    ensures Closing(MoveStep(s, p).procs[q].pc, w) <==> Closing(s.procs[q].pc, w)
  {
    hide Full, Empty;
  }

  lemma {:induction false} CallCloses(s: State, p: nat, v: bool, w: bool, q: nat)
    requires Enabled(s, CallClose(p, v)) && |s.ring.data| == PIPESIZE && q < |s.procs|
    ensures |Do(s, CallClose(p, v)).procs| == |s.procs|
    ensures Closing(Do(s, CallClose(p, v)).procs[q].pc, w) <==> (p == q && v == w) || Closing(s.procs[q].pc, w)
  {
    hide Writing, Reading, Next;
  }

  lemma {:induction false} BeginCloses(s: State, st: Step, w: bool, q: nat)
    requires Enabled(s, st) && (st.CallWrite? || st.CallRead? || st.Kill?) && |s.ring.data| == PIPESIZE && q < |s.procs|
    ensures |Do(s, st).procs| == |s.procs|
    ensures Closing(Do(s, st).procs[q].pc, w) <==> Closing(s.procs[q].pc, w)
  {
    hide Writing, Reading, Next;
  }

  lemma {:induction false} SchedCloses(s: State, st: Step, w: bool, q: nat)
    requires Enabled(s, st) && (st.SchedAcquire? || st.SchedRelease? || st.Dispatch?) && |s.ring.data| == PIPESIZE && q < |s.procs|
    ensures |Do(s, st).procs| == |s.procs|
    ensures Closing(Do(s, st).procs[q].pc, w) <==> Closing(s.procs[q].pc, w)
  {
    hide Writing, Reading, Next;
  }

  /** Who is on the way to close an end after a step. */
  lemma {:induction false} StepCloses(s: State, st: Step, w: bool, q: nat)
    requires Inv(s) && Enabled(s, st) && |s.ring.data| == PIPESIZE && q < |s.procs|
    ensures var t := Do(s, st);
      && |t.procs| == |s.procs|
      && (Closing(t.procs[q].pc, w) <==>
           st == CallClose(q, w) || (Closing(s.procs[q].pc, w) && !(st == Act(q) && s.procs[q].pc.Body?)))
  {
    hide Closing, BodyStep, MoveStep, Inv, ProcInv;
    if st.CallClose? {
      CallCloses(s, st.p, st.writable, w, q);
    } else if st.CallWrite? || st.CallRead? || st.Kill? {
      BeginCloses(s, st, w, q);
    } else if !st.Act? {
      SchedCloses(s, st, w, q);
    } else if s.procs[st.p].pc.Body? {
      BodyEndsClosing(s, st.p, w);
      BodyFrame(s, st.p);
    } else {
      ProcInvAt(s, st.p);
      MoveCloses(s, st.p, w, q);
    }
  }

  lemma {:induction false} BodyOpens(s: State, p: nat, w: bool)
    requires p < |s.procs| && s.procs[p].pc.Body? && |s.ring.data| == PIPESIZE
    ensures Open(BodyStep(s, p), w) <==> Open(s, w) && s.procs[p].pc != Body(CloseEnd(w))
  {
    hide Full, Empty, Push, Pop, Front;
  }

  lemma {:induction false} StepOpens(s: State, st: Step, w: bool)
    requires Enabled(s, st) && |s.ring.data| == PIPESIZE
    ensures var t := Do(s, st);
      && (HasFd(t, w) <==> HasFd(s, w) && !Closes(st, w))
      && (Open(t, w) <==> Open(s, w) && !(st.Act? && s.procs[st.p].pc == Body(CloseEnd(w))))
  {
    hide BodyStep;
    if st.Act? && s.procs[st.p].pc.Body? {
      BodyOpens(s, st.p, w);
      BodyFrame(s, st.p);
    }
  }

  predicate Closes(st: Step, w: bool) {
    st.CallClose? && st.writable == w
  }

  /** The step takes the process past pipeclose's assignment. */
  predicate Passes(s: State, st: Step, q: nat) {
    st == Act(q) && q < |s.procs| && s.procs[q].pc.Body?
  }

  /** How the processes closing an end change in a step. */
  ghost predicate ClosersAfter(s: State, st: Step, t: State, w: bool) {
    forall q: nat :: ClosingAt(t, q, w) <==> st == CallClose(q, w) || (ClosingAt(s, q, w) && !Passes(s, st, q))
  }

  lemma {:induction false} StepClosers(s: State, st: Step, w: bool)
    requires Inv(s) && Enabled(s, st) && |s.ring.data| == PIPESIZE
    ensures ClosersAfter(s, st, Do(s, st), w)
  {
    hide Inv, Do, Closing;
    var t := Do(s, st);
    StepSize(s, st);
    forall q: nat
      ensures ClosingAt(t, q, w) <==> st == CallClose(q, w) || (ClosingAt(s, q, w) && !Passes(s, st, q))
    {
      if q < |s.procs| {
        StepCloses(s, st, w, q);
      }
    }
  }

  lemma {:induction false} CallKeepsEnd(s: State, p: nat, t: State, w: bool)
    requires ClosersAfter(s, CallClose(p, w), t, w) && NoneClosing(s, w)
    ensures OneClosing(t, w)
  {
    hide ClosingAt;
    assert ClosingAt(t, p, w);
  }

  lemma {:induction false} ClosingKeepsEnd(s: State, p: nat, t: State, w: bool)
    requires ClosersAfter(s, Act(p), t, w) && Passes(s, Act(p), p) && ClosingAt(s, p, w) && OneClosing(s, w)
    ensures NoneClosing(t, w)
  {
    hide ClosingAt, Passes;
  }

  lemma {:induction false} PlainKeepsEnd(s: State, st: Step, t: State, w: bool)
    requires ClosersAfter(s, st, t, w) && forall q: nat :: st != CallClose(q, w) && !(Passes(s, st, q) && ClosingAt(s, q, w))
    ensures NoneClosing(s, w) ==> NoneClosing(t, w)
    ensures OneClosing(s, w) ==> OneClosing(t, w)
  {
    hide ClosingAt, Passes;
    if OneClosing(s, w) {
      var p: nat :| ClosingAt(s, p, w) && forall q: nat :: ClosingAt(s, q, w) ==> q == p;
      assert ClosingAt(t, p, w);
    }
  }

  lemma {:induction false} StepKeepsEnd(s: State, st: Step, w: bool)
    requires Inv(s) && Enabled(s, st) && |s.ring.data| == PIPESIZE && EndOk(s, w)
    ensures EndOk(Do(s, st), w)
  {
    hide Inv, Do, ClosersAfter, NoneClosing, OneClosing;
    var t := Do(s, st);
    StepOpens(s, st, w);
    StepClosers(s, st, w);
    if Closes(st, w) {
      CallKeepsEnd(s, st.p, t, w);
    } else if st.Act? && s.procs[st.p].pc == Body(CloseEnd(w)) {
      NotNone(s, st.p, w);
      ClosingKeepsEnd(s, st.p, t, w);
    } else {
      PlainKeepsEnd(s, st, t, w);
    }
  }

  lemma {:induction false} NotNone(s: State, p: nat, w: bool)
    requires ClosingAt(s, p, w)
    ensures !NoneClosing(s, w)
  {
  }

  lemma {:induction false} StepSize(s: State, st: Step)
    requires Enabled(s, st) && |s.ring.data| == PIPESIZE
    ensures |Do(s, st).procs| == |s.procs|
  {
    hide BodyStep;
    if st.Act? && s.procs[st.p].pc.Body? {
      BodyFrame(s, st.p);
    }
  }

  lemma {:induction false} RunKeepsEnds(s: State, steps: seq<Step>, t: State, w: bool)
    requires Inv(s) && Runs(s, steps, t) && EndOk(s, w)
    ensures EndOk(t, w)
    ensures HasFd(t, w) <==> HasFd(s, w) && forall i :: 0 <= i < |steps| ==> !Closes(steps[i], w)
    decreases |steps|
  {
    hide Inv, Do, Enabled, EndOk, HasFd, Closes;
    if steps != [] {
      StepKeepsInv(s, steps[0]);
      StepKeepsEnd(s, steps[0], w);
      StepOpens(s, steps[0], w);
      RunKeepsEnds(Do(s, steps[0]), steps[1..], t, w);
      assert forall i :: 0 <= i < |steps| ==> steps[i] == if i == 0 then steps[0] else steps[1..][i - 1];
      assert forall i :: 0 <= i < |steps[1..]| ==> steps[1..][i] == steps[i + 1];
    }
  }

  /** Over every run, an end of the pipe is open if and only if its last descriptor has not been closed,
      or the process closing it has yet to reach the statement that does. */
  lemma {:induction false} EndOpenIff(s: State, steps: seq<Step>, t: State, w: bool)
    requires Init(s) && Runs(s, steps, t)
    ensures Open(t, w) <==> (forall i :: 0 <= i < |steps| ==> !Closes(steps[i], w)) || !NoneClosing(t, w)
  {
    hide Inv, Runs;
    InitInv(s);
    RunKeepsEnds(s, steps, t, w);
  }

  // ---------- kill ----------

  /** Killed, and not already past the test that comes before sleep. */
  predicate Doomed(pr: Proc) {
    && pr.killed && !pr.sleeping
    && !pr.pc.SleepPt? && !pr.pc.SleepRel? && !pr.pc.SleepGo? && !pr.pc.Asleep?
    && ((pr.pc.WakePt? || pr.pc.WakeDo? || pr.pc.WakeRel?) ==> pr.pc.after == ThenLeave)
  }

  lemma {:induction false} DoomedLeaves(s: State, p: nat)
    requires p < |s.procs| && s.procs[p].pc.Body? && |s.ring.data| == PIPESIZE && Doomed(s.procs[p])
    ensures |BodyStep(s, p).procs| == |s.procs| && Doomed(BodyStep(s, p).procs[p])
  {
    hide Full, Empty, Push, Pop, Front;
  }

  lemma {:induction false} DoomedMoves(s: State, p: nat, q: nat)
    requires p < |s.procs| && q < |s.procs| && !s.procs[p].pc.Body? && Doomed(s.procs[q])
    ensures |MoveStep(s, p).procs| == |s.procs| && Doomed(MoveStep(s, p).procs[q])
  {
  }

  lemma {:induction false} DoomedStays(s: State, st: Step, q: nat)
    requires Enabled(s, st) && |s.ring.data| == PIPESIZE && q < |s.procs| && Doomed(s.procs[q])
    ensures |Do(s, st).procs| == |s.procs| && Doomed(Do(s, st).procs[q])
  {
    hide BodyStep, MoveStep;
    if st.Act? {
      if s.procs[st.p].pc.Body? {
        BodyFrame(s, st.p);
        if q == st.p {
          DoomedLeaves(s, q);
        }
      } else {
        DoomedMoves(s, st.p, q);
      }
    }
  }

  /** Over every run: a process killed before its test for room or for bytes never sleeps in the pipe
      again, in this call or a later one. */
  lemma {:induction false} KilledNeverSleeps(s: State, steps: seq<Step>, t: State, p: nat)
    requires Runs(s, steps, t) && p < |s.procs| && Doomed(s.procs[p])
    ensures p < |t.procs| && !t.procs[p].pc.Asleep? && t.procs[p].killed
    decreases |steps|
  {
    hide Do, Enabled;
    if steps != [] {
      DoomedStays(s, steps[0], p);
      KilledNeverSleeps(Do(s, steps[0]), steps[1..], t, p);
    }
  }

  /** kill wakes a sleeper, and once dispatched it is doomed: it tests again and leaves. */
  lemma {:induction false} KillWakes(s: State, p: nat)
    requires Enabled(s, Kill(p)) && |s.ring.data| == PIPESIZE
    ensures var t := Do(s, Kill(p));
      && p < |t.procs| == |s.procs| && t.procs[p].killed && !t.procs[p].sleeping && t.procs[p].pc == s.procs[p].pc
      && (t.procs[p].pc.Asleep? && Enabled(t, SchedAcquire) ==>
            && Enabled(Do(t, SchedAcquire), Dispatch(p))
            && p < |Do(Do(t, SchedAcquire), Dispatch(p)).procs|
            && Doomed(Do(Do(t, SchedAcquire), Dispatch(p)).procs[p]))
  {
    hide Full, Empty, Push, Pop, Front;
  }

  // ---------- Progress ----------

  predicate PtOwner(s: State) {
    s.pt.By? ==> s.pt.p < |s.procs|
  }

  lemma {:induction false} StepKeepsPtOwner(s: State, st: Step)
    requires Enabled(s, st) && |s.ring.data| == PIPESIZE && PtOwner(s)
    ensures PtOwner(Do(s, st))
  {
    hide BodyStep;
    StepSize(s, st);
    if st.Act? && s.procs[st.p].pc.Body? {
      BodyFrame(s, st.p);
    }
  }

  lemma {:induction false} RunKeepsPtOwner(s: State, steps: seq<Step>, t: State)
    requires Inv(s) && Runs(s, steps, t) && PtOwner(s)
    ensures Inv(t) && PtOwner(t)
    decreases |steps|
  {
    hide Inv, Enabled, Do, PtOwner;
    if steps != [] {
      StepKeepsInv(s, steps[0]);
      StepKeepsPtOwner(s, steps[0]);
      RunKeepsPtOwner(Do(s, steps[0]), steps[1..], t);
    }
  }

  lemma {:induction false} OwnersGoOn(s: State)
    requires Inv(s) && PtOwner(s)
    ensures s.pt.By? ==> Enabled(s, Act(s.pt.p))
    ensures s.pl.By? ==> Enabled(s, Act(s.pl.p)) || s.pt != Free
  {
    hide Carries, NoLostReader, NoLostWriter, Full, Empty;
    if s.pt.By? {
      ProcInvAt(s, s.pt.p);
    }
    if s.pl.By? {
      ProcInvAt(s, s.pl.p);
    }
  }

  /** No spinlock is held for ever: whoever has ptable.lock can take its next statement, or it is the
      scheduler and can drop it; whoever has the pipe's lock can take its next statement, unless that is to
      acquire ptable.lock and it is not free. */
  lemma {:induction false} HoldersGoOn(s: State, steps: seq<Step>, t: State)
    requires Init(s) && Runs(s, steps, t)
    ensures t.pt.By? ==> Enabled(t, Act(t.pt.p))
    ensures t.pt == Scheduler ==> Enabled(t, SchedRelease)
    ensures t.pl.By? ==> Enabled(t, Act(t.pl.p)) || t.pt != Free
  {
    hide Inv, Runs;
    InitInv(s);
    RunKeepsPtOwner(s, steps, t);
    OwnersGoOn(t);
  }
}
