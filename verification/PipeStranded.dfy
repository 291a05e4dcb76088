/**
  When a reader of a pipe can be left asleep beside bytes it could read: exactly when a process may be
  killed and there is another one to sleep.
 */
module PipeStranded {
  import opened Common
  import opened Blocks
  import opened Pipe
  import opened PipeSystem

  /** A reader sleeps on a pipe with bytes in it, or without writers, while nobody is at work on the pipe. */
  ghost predicate Stranded(s: State) {
    s.pl == Free && (!Empty(s.ring) || !s.writeopen) && exists p: nat :: SleepsOn(s, p, NRead)
  }

  ghost predicate Alive(s: State) {
    forall p :: 0 <= p < |s.procs| ==> !s.procs[p].killed
  }

  // ---------- Without kill ----------

  /** Whoever stored bytes that readers have not been told of is still on the way to telling them. */
  ghost predicate TellerAtWork(s: State) {
    && s.pl.By? && s.pl.p < |s.procs|
    && var pc := s.procs[s.pl.p].pc;
       (pc.Body? && pc.op.Write?) || ((pc.WakePt? || pc.WakeDo?) && pc.c == NRead)
  }

  ghost predicate Tells(s: State) {
    s.unsaid && s.readopen ==> TellerAtWork(s)
  }

  lemma {:induction false} BodyTells(s: State, p: nat)
    requires Inv(s) && p < |s.procs| && s.procs[p].pc.Body? && |s.ring.data| == PIPESIZE && Tells(s) && !s.procs[p].killed
    ensures Tells(BodyStep(s, p)) && BodyStep(s, p).procs == s.procs[p := s.procs[p].(pc := BodyStep(s, p).procs[p].pc)]
  {
    hide Carries, NoLostReader, NoLostWriter, Full, Empty, Push, Pop, Front;
    ProcInvAt(s, p);
  }

  lemma {:induction false} MoveTells(s: State, p: nat)
    requires Inv(s) && Enabled(s, Act(p)) && !s.procs[p].pc.Body? && Tells(s)
    ensures Tells(MoveStep(s, p))
    ensures forall q :: 0 <= q < |s.procs| == |MoveStep(s, p).procs| ==> MoveStep(s, p).procs[q].killed == s.procs[q].killed
  {
    hide Carries, NoLostReader, NoLostWriter, Full, Empty, Wakeup1;
    ProcInvAt(s, p);
    if s.pl.By? && s.pl.p < |s.procs| {
      ProcInvAt(s, s.pl.p);
    }
  }

  lemma {:induction false} OtherTells(s: State, st: Step)
    requires Inv(s) && Enabled(s, st) && !st.Act? && !st.Kill? && |s.ring.data| == PIPESIZE && Tells(s) && Alive(s)
    ensures Tells(Do(s, st)) && Alive(Do(s, st))
  {
    hide Carries, NoLostReader, NoLostWriter, Full, Empty, ProcInv, Next;
    if s.pl.By? {
      OwnerStays(s, st);
    }
  }

  lemma {:induction false} StepTells(s: State, st: Step)
    requires Inv(s) && Enabled(s, st) && |s.ring.data| == PIPESIZE && Tells(s) && Alive(s) && !st.Kill?
    ensures Tells(Do(s, st)) && Alive(Do(s, st))
  {
    hide Inv, BodyStep, MoveStep, Tells;
    if st.Act? {
      if s.procs[st.p].pc.Body? {
        BodyTells(s, st.p);
      } else {
        MoveTells(s, st.p);
        MoveSize(s, st.p);
      }
    } else {
      OtherTells(s, st);
    }
  }

  lemma {:induction false} MoveSize(s: State, p: nat)
    requires p < |s.procs|
    ensures |MoveStep(s, p).procs| == |s.procs|
  {
  }

  ghost predicate NoKill(steps: seq<Step>) {
    forall i :: 0 <= i < |steps| ==> !steps[i].Kill?
  }

  lemma {:induction false} RunTells(s: State, steps: seq<Step>, t: State)
    requires Inv(s) && Runs(s, steps, t) && Tells(s) && Alive(s) && NoKill(steps)
    ensures Inv(t) && Tells(t)
    decreases |steps|
  {
    hide Inv, Do, Enabled, Tells, Alive;
    if steps != [] {
      StepKeepsInv(s, steps[0]);
      StepTells(s, steps[0]);
      RunTells(Do(s, steps[0]), steps[1..], t);
    }
  }

  /** Without kill no reader is stranded. */
  lemma {:induction false} NoKillNoStranded(s: State, steps: seq<Step>, t: State)
    requires Init(s) && Alive(s) && Runs(s, steps, t) && NoKill(steps)
    ensures !Stranded(t)
  {
    hide Inv, Runs, Alive, Full, Empty;
    InitInv(s);
    RunTells(s, steps, t);
    if Stranded(t) {
      var p: nat :| SleepsOn(t, p, NRead);
      assert Waits(t.procs[p].pc, t.procs[p].sleeping, NRead);
      WaitingReaderHasFd(t);
      PipeLosesNoWakeup(s, steps, t);
      assert false;
    }
  }

  // ---------- One process ----------

  ghost predicate AloneOk(s: State) {
    |s.procs| <= 1 && (SomeoneWaits(s, NRead) ==> Empty(s.ring) && s.writeopen)
  }

  lemma {:induction false} ActAlone(s: State, p: nat)
    requires Inv(s) && Enabled(s, Act(p)) && |s.ring.data| == PIPESIZE && AloneOk(s)
    ensures AloneOk(Do(s, Act(p)))
  {
    hide Carries, NoLostReader, NoLostWriter, Full, Empty, BodyStep, Wakeup1, SomeoneWaits;
    ProcInvAt(s, 0);
    AloneWaits(s);
    AloneWaits(Do(s, Act(p)));
    if s.procs[p].pc.Body? {
      BodyFrame(s, p);
    }
  }

  lemma {:induction false} OtherAlone(s: State, st: Step)
    requires Inv(s) && Enabled(s, st) && !st.Act? && |s.ring.data| == PIPESIZE && AloneOk(s)
    ensures AloneOk(Do(s, st))
  {
    hide Do, Inv, Full, Empty, SomeoneWaits, Enabled;
    OtherFrame(s, st);
    OtherWaits(s, st);
    OtherSize(s, st);
  }

  lemma {:induction false} StepAlone(s: State, st: Step)
    requires Inv(s) && Enabled(s, st) && |s.ring.data| == PIPESIZE && AloneOk(s)
    ensures AloneOk(Do(s, st))
  {
    hide Inv, Do, AloneOk;
    if st.Act? {
      ActAlone(s, st.p);
    } else {
      OtherAlone(s, st);
    }
  }

  lemma {:induction false} AloneWaits(s: State)
    ensures |s.procs| == 1 ==> (SomeoneWaits(s, NRead) <==> Waits(s.procs[0].pc, s.procs[0].sleeping, NRead))
  {
  }

  lemma {:induction false} RunAlone(s: State, steps: seq<Step>, t: State)
    requires Inv(s) && Runs(s, steps, t) && AloneOk(s)
    ensures AloneOk(t)
    decreases |steps|
  {
    hide Inv, Do, Enabled, AloneOk;
    if steps != [] {
      StepKeepsInv(s, steps[0]);
      StepAlone(s, steps[0]);
      RunAlone(Do(s, steps[0]), steps[1..], t);
    }
  }

  /** A process alone with the pipe is never stranded. */
  lemma {:induction false} AloneNotStranded(s: State, steps: seq<Step>, t: State)
    requires Init(s) && |s.procs| <= 1 && Runs(s, steps, t)
    ensures !Stranded(t)
  {
    hide Inv, Runs, Full, Empty;
    InitInv(s);
    assert AloneOk(s) by { InitAlone(s); }
    RunAlone(s, steps, t);
    forall p: nat | SleepsOn(t, p, NRead)
      ensures SomeoneWaits(t, NRead)
    {
      assert Waits(t.procs[p].pc, t.procs[p].sleeping, NRead);
    }
  }

  lemma {:induction false} InitAlone(s: State)
    requires Init(s) && |s.procs| <= 1
    ensures AloneOk(s)
  {
  }

  // ---------- How a killed writer strands a reader ----------

  lemma {:induction false} RunsStep(s: State, steps: seq<Step>, t: State, st: Step)
    requires Runs(s, steps, t) && Enabled(t, st) && |t.ring.data| == PIPESIZE
    ensures Runs(s, steps + [st], Do(t, st))
    decreases |steps|
  {
    hide Do, Enabled;
    if steps == [] {
      assert [st][1..] == [] && steps + [st] == [st];
      assert Runs(Do(s, st), [], Do(t, st));
    } else {
      RunsStep(Do(s, steps[0]), steps[1..], t, st);
      assert (steps + [st])[1..] == steps[1..] + [st];
    }
  }

  lemma {:induction false} RunsNothing(s: State)
    ensures Runs(s, [], s)
  {
  }

  /** A pipe that two processes, or more, have not used yet. */
  ghost predicate Fresh(s: State) {
    Init(s) && |s.procs| >= 2 && Alive(s)
  }

  /** Process 0 in a place of piperead, everyone else idle, the pipe unused. */
  function Reader(s: State, pc: Pc, pl: Owner, pt: Owner): State
    requires |s.procs| >= 2
  {
    s.(procs := s.procs[0 := Proc(pc, pc.Asleep?, false)], pl := pl, pt := pt)
  }

  lemma {:induction false} ReaderMoves(s: State, pc: Pc, pl: Owner, pt: Owner, pc': Pc, pl': Owner, pt': Owner)
    requires Fresh(s) && !pc.Asleep? && !pc.Idle?
    requires Enabled(Reader(s, pc, pl, pt), Act(0))
    requires if pc.Body? then pc.op.ReadTest? && pc' == SleepPt(NRead, pc.op) && pl' == pl && pt' == pt
             else MoveOf(Reader(s, pc, pl, pt), 0) == Move(pc', pl', pt') && !pc.WakeDo?
    requires pc.SleepGo? <==> pc'.Asleep?
    ensures Do(Reader(s, pc, pl, pt), Act(0)) == Reader(s, pc', pl', pt')
  {
    var r := Reader(s, pc, pl, pt);
    assert r.procs[0 := r.procs[0].(pc := pc', sleeping := pc.SleepGo?)] == Reader(s, pc', pl', pt').procs;
    assert pc.Body? ==> r.procs[0 := r.procs[0].(pc := pc')] == Reader(s, pc', pl', pt').procs;
  }

  lemma {:induction false} ReaderStep(s0: State, steps: seq<Step>, pc: Pc, pl: Owner, pt: Owner, pc': Pc, pl': Owner,
      pt': Owner)
    requires Fresh(s0) && !pc.Asleep? && !pc.Idle?
    requires Enabled(Reader(s0, pc, pl, pt), Act(0)) && Runs(s0, steps, Reader(s0, pc, pl, pt))
    requires if pc.Body? then pc.op.ReadTest? && pc' == SleepPt(NRead, pc.op) && pl' == pl && pt' == pt
             else MoveOf(Reader(s0, pc, pl, pt), 0) == Move(pc', pl', pt') && !pc.WakeDo?
    requires pc.SleepGo? <==> pc'.Asleep?
    ensures Runs(s0, steps + [Act(0)], Reader(s0, pc', pl', pt'))
  {
    hide Runs, Do, Enabled, MoveOf, Alive;
    ReaderMoves(s0, pc, pl, pt, pc', pl', pt');
    RunsStep(s0, steps, Reader(s0, pc, pl, pt), Act(0));
  }

  /** The reader, process 0, falls asleep on the empty pipe. */
  lemma {:induction false} ReaderSleeps(s0: State) returns (steps: seq<Step>)
    requires Fresh(s0)
    ensures Runs(s0, steps, Reader(s0, Asleep(NRead, ReadTest(1)), Free, Free))
  {
    hide Runs, Do, Alive;
    var op := ReadTest(1);
    var c := CallRead(0, 1);
    RunsNothing(s0);
    RunsStep(s0, [], s0, c);
    assert Do(s0, c) == Reader(s0, Entry(op), Free, Free) by { CallIs(s0, 1); }
    steps := [] + [c];
    ReaderStep(s0, steps, Entry(op), Free, Free, Body(op), By(0), Free);
    steps := steps + [Act(0)];
    ReaderStep(s0, steps, Body(op), By(0), Free, SleepPt(NRead, op), By(0), Free);
    steps := steps + [Act(0)];
    ReaderStep(s0, steps, SleepPt(NRead, op), By(0), Free, SleepRel(NRead, op), By(0), By(0));
    steps := steps + [Act(0)];
    ReaderStep(s0, steps, SleepRel(NRead, op), By(0), By(0), SleepGo(NRead, op), Free, By(0));
    steps := steps + [Act(0)];
    ReaderStep(s0, steps, SleepGo(NRead, op), Free, By(0), Asleep(NRead, op), Free, Scheduler);
    steps := steps + [Act(0)];
    RunsStep(s0, steps, Reader(s0, Asleep(NRead, op), Free, Scheduler), SchedRelease);
    assert Do(Reader(s0, Asleep(NRead, op), Free, Scheduler), SchedRelease) == Reader(s0, Asleep(NRead, op), Free, Free) by {
      ReleaseIs(s0, op);
    }
    steps := steps + [SchedRelease];
  }

  lemma {:induction false} CallIs(s0: State, n: nat)
    requires Fresh(s0) && Enabled(s0, CallRead(0, n))
    ensures Do(s0, CallRead(0, n)) == Reader(s0, Entry(ReadTest(n)), Free, Free)
  {
  }

  lemma {:induction false} ReleaseIs(s0: State, op: Op)
    requires Fresh(s0) && Enabled(Reader(s0, Asleep(NRead, op), Free, Scheduler), SchedRelease)
    ensures Do(Reader(s0, Asleep(NRead, op), Free, Scheduler), SchedRelease) == Reader(s0, Asleep(NRead, op), Free, Free)
  {
  }

  /** Process 0 sleeps, and process 1 has been killed and is at pc. */
  function Beside(s: State, pc: Pc, pl: Owner): State
    requires |s.procs| >= 2
  {
    s.(procs := s.procs[0 := Proc(Asleep(NRead, ReadTest(1)), true, false)][1 := Proc(pc, false, true)], pl := pl)
  }

  /** The other process is killed and calls pipewrite. */
  lemma {:induction false} KilledWriterEnters(s0: State, bytes: seq<Byte>) returns (steps: seq<Step>)
    requires Fresh(s0)
    ensures Runs(s0, steps, Beside(s0, Body(Write(bytes)), By(1)))
  {
    hide Runs;
    steps := ReaderSleeps(s0);
    var s1 := Reader(s0, Asleep(NRead, ReadTest(1)), Free, Free);
    RunsStep(s0, steps, s1, Kill(1));
    assert Do(s1, Kill(1)) == Beside(s0, Idle, Free);
    RunsStep(s0, steps + [Kill(1)], Beside(s0, Idle, Free), CallWrite(1, bytes));
    assert Do(Beside(s0, Idle, Free), CallWrite(1, bytes)) == Beside(s0, Entry(Write(bytes)), Free);
    RunsStep(s0, steps + [Kill(1)] + [CallWrite(1, bytes)], Beside(s0, Entry(Write(bytes)), Free), Act(1));
    assert Do(Beside(s0, Entry(Write(bytes)), Free), Act(1)) == Beside(s0, Body(Write(bytes)), By(1));
    steps := steps + [Kill(1)] + [CallWrite(1, bytes)] + [Act(1)];
  }

  /** Process 1 writes bytes while the pipe has room. */
  lemma {:induction false} FillPipe(s0: State, steps0: seq<Step>, s: State, todo: seq<Byte>)
    returns (steps: seq<Step>, t: State, left: seq<Byte>)
    requires Runs(s0, steps0, s) && |s.procs| >= 2 && s.procs[1].pc == Body(Write(todo)) && s.read == []
    requires Carries(s.ring, s.written, s.read) && |todo| + |s.written| > PIPESIZE
    ensures Runs(s0, steps, t) && left != [] && t.procs == s.procs[1 := s.procs[1].(pc := Body(Write(left)))]
    ensures Carries(t.ring, t.written, t.read) && Full(t.ring) && t.pl == s.pl && t.readopen == s.readopen
    decreases |todo|
  {
    hide Runs, Carries, Full, Empty, Push, Pop, Front, Enabled, Do;
    CarriesTests(s.ring, s.written, s.read);
    CarriesSize(s.ring, s.written, s.read);
    if Full(s.ring) {
      steps, t, left := steps0, s, todo;
      assert s.procs == s.procs[1 := s.procs[1].(pc := Body(Write(left)))];
    } else {
      ActEnabled(s);
      RunsStep(s0, steps0, s, Act(1));
      var n := Do(s, Act(1));
      WriteOne(s, todo);
      PushCarries(s.ring, s.written, s.read, todo[0]);
      steps, t, left := FillPipe(s0, steps0 + [Act(1)], n, todo[1..]);
    }
  }

  lemma {:induction false} WriteOne(s: State, todo: seq<Byte>)
    requires |s.procs| >= 2 && s.procs[1].pc == Body(Write(todo)) && todo != [] && !Full(s.ring)
    requires |s.ring.data| == PIPESIZE && Enabled(s, Act(1))
    ensures var n := Do(s, Act(1));
      && n.procs == s.procs[1 := s.procs[1].(pc := Body(Write(todo[1..])))]
      && n.ring == Push(s.ring, todo[0]) && n.written == s.written + [todo[0]] && n.read == s.read
      && n.pl == s.pl && n.readopen == s.readopen
  {
    hide Full, Push;
  }

  lemma {:induction false} CarriesSize(r: Ring, written: seq<Byte>, read: seq<Byte>)
    requires Carries(r, written, read)
    ensures |r.data| == PIPESIZE && |written| - |read| <= PIPESIZE
  {
  }

  lemma {:induction false} ActEnabled(s: State)
    requires |s.procs| >= 2 && (s.procs[1].pc.Body? || s.procs[1].pc.Leave?)
    ensures Enabled(s, Act(1))
  {
  }

  lemma {:induction false} GivesUp(s: State, left: seq<Byte>)
    requires |s.procs| >= 2 && s.procs[1] == Proc(Body(Write(left)), false, true) && left != [] && Full(s.ring)
    requires |s.ring.data| == PIPESIZE && Enabled(s, Act(1))
    ensures var n := Do(s, Act(1));
      && n == s.(procs := s.procs[1 := Proc(Leave, false, true)])
      && Enabled(n, Act(1)) && Do(n, Act(1)) == n.(procs := n.procs[1 := Proc(Idle, false, true)], pl := Free)
  {
    hide Full, Empty, Push;
  }

  /** A killed writer fills the pipe and gives up without waking the reader, which sleeps on a full
      pipe with both locks free. */
  lemma {:induction false} KilledWriterLosesWakeup(s0: State, bytes: seq<Byte>) returns (steps: seq<Step>, t: State)
    requires Fresh(s0) && |bytes| > PIPESIZE
    ensures Runs(s0, steps, t) && Stranded(t) && Full(t.ring) && SleepsOn(t, 0, NRead)
  {
    hide Runs, Full, Empty, Push, Pop, Enabled, Do, Carries;
    var steps0 := KilledWriterEnters(s0, bytes);
    var s1 := Beside(s0, Body(Write(bytes)), By(1));
    assert Carries(s1.ring, s1.written, s1.read) by { FreshCarries(s0); }
    var steps1, s2, left := FillPipe(s0, steps0, s1, bytes);
    CarriesTests(s2.ring, s2.written, s2.read);
    CarriesSize(s2.ring, s2.written, s2.read);
    ActEnabled(s2);
    GivesUp(s2, left);
    RunsStep(s0, steps1, s2, Act(1));
    var s3 := Do(s2, Act(1));
    RunsStep(s0, steps1 + [Act(1)], s3, Act(1));
    steps, t := steps1 + [Act(1)] + [Act(1)], Do(s3, Act(1));
    assert SleepsOn(t, 0, NRead);
  }

  lemma {:induction false} FreshCarries(s: State)
    requires Init(s)
    ensures Carries(s.ring, s.written, s.read) && s.read == []
  {
    InitInv(s);
  }

  // ---------- The exact condition ----------

  /** No run, with or without Kill steps, strands a reader. */
  ghost predicate Safe(s: State, mayKill: bool) {
    forall steps, t {:trigger Runs(s, steps, t)} :: Runs(s, steps, t) && (mayKill || NoKill(steps)) ==> !Stranded(t)
  }

  /** Readers are never stranded if and only if no process is killed or there is only one. */
  lemma {:induction false} ReadersSafeIff(s: State, mayKill: bool)
    requires Init(s) && Alive(s)
    ensures Safe(s, mayKill) <==> !mayKill || |s.procs| <= 1
  {
    hide Runs, Stranded, Init, Alive, NoKill;
    if !mayKill || |s.procs| <= 1 {
      forall steps, t {:trigger Runs(s, steps, t)} | Runs(s, steps, t) && (mayKill || NoKill(steps))
        ensures !Stranded(t)
      {
        if |s.procs| <= 1 {
          AloneNotStranded(s, steps, t);
        } else {
          NoKillNoStranded(s, steps, t);
        }
      }
    } else {
      var steps, t := KilledWriterLosesWakeup(s, Copies<Byte>(0, PIPESIZE + 1));
      assert Runs(s, steps, t);
    }
  }
}
