/**
  Readers, writers and closers of one pipe, interleaved between all accesses to the pipe's spinlock
  ("pl") and to ptable.lock ("pt"). A process that is not asleep may take its next statement at any
  time its locks allow, so every number of CPUs and every schedule is covered.
 */
module PipeSystem {
  import opened Blocks
  import opened Pipe

  /** The two sleep channels, &p->nread and &p->nwrite. */
  datatype Chan = NRead | NWrite

  /** What a process in the pipe code is doing: bytes still to write, bytes still wanted. */
  datatype Op =
    | Write(todo: seq<Byte>)
    | ReadTest(want: nat)   // piperead, before the copy loop
    | ReadCopy(want: nat)   // piperead, in the copy loop
    | CloseEnd(writable: bool)

  /** What follows a wakeup. */
  datatype After = ThenSleep | ThenLeave

  datatype Pc =
    | Idle
    | Entry(op: Op)                             // about to acquire pl
    | Body(op: Op)                              // holds pl
    | WakePt(c: Chan, op: Op, after: After)     // in wakeup, holds pl: about to acquire pt
    | WakeDo(c: Chan, op: Op, after: After)     // in wakeup, holds pl and pt: about to run wakeup1
    | WakeRel(c: Chan, op: Op, after: After)    // in wakeup, holds pl and pt: about to release pt
    | SleepPt(c: Chan, op: Op)                  // in sleep, holds pl: about to acquire pt
    | SleepRel(c: Chan, op: Op)                 // in sleep, holds pl and pt: about to release pl
    | SleepGo(c: Chan, op: Op)                  // in sleep, holds pt: about to become SLEEPING
    | Asleep(c: Chan, op: Op)                   // in sched
    | Woken(op: Op)                             // back from sched, holds pt: about to release it
    | Leave                                     // holds pl: about to release it and return

  /** `sleeping` is SLEEPING, as opposed to RUNNABLE or RUNNING. */
  datatype Proc = Proc(pc: Pc, sleeping: bool, killed: bool)

  datatype Owner = Free | By(p: nat) | Scheduler

  /** `wfd` and `rfd` say whether a file descriptor for that end is open; `written` and `read` are
      the bytes that went in and came out; `unsaid` records that bytes were stored since readers were
      last woken. */
  datatype State = State(procs: seq<Proc>, pl: Owner, pt: Owner, ring: Ring, readopen: bool, writeopen: bool,
                         wfd: bool, rfd: bool, written: seq<Byte>, read: seq<Byte>, unsaid: bool)

  datatype Step =
    | Act(p: nat)
    | CallWrite(p: nat, bytes: seq<Byte>)
    | CallRead(p: nat, n: nat)
    | CallClose(p: nat, writable: bool)
    | Kill(p: nat)
    | SchedAcquire
    | SchedRelease
    | Dispatch(p: nat)

  predicate HoldsPl(pc: Pc) {
    pc.Body? || pc.WakePt? || pc.WakeDo? || pc.WakeRel? || pc.SleepPt? || pc.SleepRel? || pc.Leave?
  }

  predicate HoldsPt(pc: Pc) {
    pc.WakeDo? || pc.WakeRel? || pc.SleepRel? || pc.SleepGo? || pc.Woken?
  }

  predicate Enabled(s: State, st: Step) {
    match st
    case Act(p) => p < |s.procs| && var pc := s.procs[p].pc;
      && !pc.Idle? && !pc.Asleep?
      && (pc.Entry? ==> s.pl == Free)
      && (pc.WakePt? || pc.SleepPt? ==> s.pt == Free)
    case CallWrite(p, _) => p < |s.procs| && s.procs[p].pc == Idle && s.wfd
    case CallRead(p, _) => p < |s.procs| && s.procs[p].pc == Idle && s.rfd
    case CallClose(p, w) => p < |s.procs| && s.procs[p].pc == Idle && (if w then s.wfd else s.rfd) &&
      // the last descriptor is closed: no process can be using that end
      forall q :: 0 <= q < |s.procs| ==> !(if w then Writing(s.procs[q].pc) else Reading(s.procs[q].pc))
    case Kill(p) => p < |s.procs| && s.pt == Free
    case SchedAcquire => s.pt == Free
    case SchedRelease => s.pt == Scheduler
    case Dispatch(p) => p < |s.procs| && s.pt == Scheduler && s.procs[p].pc.Asleep? && !s.procs[p].sleeping
  }

  predicate Busy(pc: Pc) {
    !pc.Idle? && !pc.Leave?
  }

  predicate Writing(pc: Pc) {
    Busy(pc) && pc.op.Write?
  }

  predicate Reading(pc: Pc) {
    Busy(pc) && (pc.op.ReadTest? || pc.op.ReadCopy?)
  }

  /** wakeup1. */
  function Wakeup1(procs: seq<Proc>, c: Chan): (r: seq<Proc>)
    ensures |r| == |procs|
    ensures forall i {:trigger r[i]} :: 0 <= i < |r| ==>
      r[i] == if procs[i].pc.Asleep? && procs[i].pc.c == c then procs[i].(sleeping := false) else procs[i]
  {
    seq(|procs|, i requires 0 <= i < |procs| =>
      if procs[i].pc.Asleep? && procs[i].pc.c == c then procs[i].(sleeping := false) else procs[i])
  }

  function At(s: State, p: nat, pc: Pc): State
    requires p < |s.procs|
  {
    s.(procs := s.procs[p := s.procs[p].(pc := pc)])
  }

  /** What a statement under the pipe's lock leaves: the process's next place and the pipe. */
  datatype Effect = Effect(pc: Pc, ring: Ring, readopen: bool, writeopen: bool,
                           written: seq<Byte>, read: seq<Byte>, unsaid: bool)

  function Goto(s: State, pc: Pc): Effect {
    Effect(pc, s.ring, s.readopen, s.writeopen, s.written, s.read, s.unsaid)
  }

  /** A statement of pipewrite, piperead or pipeclose under the pipe's lock. */
  function BodyEffect(s: State, op: Op, killed: bool): (e: Effect)
    requires |s.ring.data| == PIPESIZE
  {
    match op
    case Write(todo) =>
      if todo == [] then Goto(s, WakePt(NRead, op, ThenLeave))
      else if Full(s.ring) then
        if !s.readopen || killed then Goto(s, Leave)
        else Goto(s, WakePt(NRead, op, ThenSleep))
      else Goto(s, Body(Write(todo[1..]))).(ring := Push(s.ring, todo[0]), written := s.written + [todo[0]], unsaid := true)
    case ReadTest(want) =>
      if Empty(s.ring) && s.writeopen then
        if killed then Goto(s, Leave) else Goto(s, SleepPt(NRead, op))
      else Goto(s, Body(ReadCopy(want)))
    case ReadCopy(want) =>
      if want == 0 || Empty(s.ring) then Goto(s, WakePt(NWrite, op, ThenLeave))
      else Goto(s, Body(ReadCopy(want - 1))).(ring := Pop(s.ring), read := s.read + [Front(s.ring)])
    case CloseEnd(w) =>
      if w then Goto(s, WakePt(NRead, op, ThenLeave)).(writeopen := false)
      else Goto(s, WakePt(NWrite, op, ThenLeave)).(readopen := false)
  }

  function BodyStep(s: State, p: nat): (t: State)
    requires p < |s.procs| && s.procs[p].pc.Body? && |s.ring.data| == PIPESIZE
  {
    var e := BodyEffect(s, s.procs[p].pc.op, s.procs[p].killed);
    At(s, p, e.pc).(ring := e.ring, readopen := e.readopen, writeopen := e.writeopen,
                    written := e.written, read := e.read, unsaid := e.unsaid)
  }

  /** What a statement outside the pipe's critical sections leaves: the process's next place and the
      two locks. */
  datatype Move = Move(pc: Pc, pl: Owner, pt: Owner)

  function MoveOf(s: State, p: nat): (m: Move)
    requires p < |s.procs|
  {
    match s.procs[p].pc
    case Entry(op) => Move(Body(op), By(p), s.pt)
    case WakePt(c, op, k) => Move(WakeDo(c, op, k), s.pl, By(p))
    case WakeDo(c, op, k) => Move(WakeRel(c, op, k), s.pl, s.pt)
    case WakeRel(c, op, k) => Move(if k == ThenSleep then SleepPt(NWrite, op) else Leave, s.pl, Free)
    case SleepPt(c, op) => Move(SleepRel(c, op), s.pl, By(p))
    case SleepRel(c, op) => Move(SleepGo(c, op), Free, s.pt)
    case SleepGo(c, op) => Move(Asleep(c, op), s.pl, Scheduler)
    case Woken(op) => Move(Entry(op), s.pl, Free)
    case Leave => Move(Idle, Free, s.pt)
    case _ => Move(s.procs[p].pc, s.pl, s.pt)
  }

  /** wakeup1 runs at WakeDo, and SleepGo is where a process becomes SLEEPING. */
  function MoveStep(s: State, p: nat): (t: State)
    requires p < |s.procs|
  {
    var m, pc := MoveOf(s, p), s.procs[p].pc;
    var procs := if pc.WakeDo? then Wakeup1(s.procs, pc.c) else s.procs;
    s.(pl := m.pl, pt := m.pt, procs := procs[p := s.procs[p].(pc := m.pc, sleeping := pc.SleepGo?)],
       unsaid := s.unsaid && !(pc.WakeDo? && pc.c == NRead))
  }

  function Next(s: State, p: nat): (t: State)
    requires Enabled(s, Act(p)) && |s.ring.data| == PIPESIZE
  {
    if s.procs[p].pc.Body? then BodyStep(s, p) else MoveStep(s, p)
  }

  function Do(s: State, st: Step): (t: State)
    requires Enabled(s, st) && |s.ring.data| == PIPESIZE
  {
    match st
    case Act(p) => Next(s, p)
    case CallWrite(p, bytes) => At(s, p, Entry(Write(bytes)))
    case CallRead(p, n) => At(s, p, Entry(ReadTest(n)))
    case CallClose(p, w) => if w then At(s, p, Entry(CloseEnd(w))).(wfd := false) else At(s, p, Entry(CloseEnd(w))).(rfd := false)
    case Kill(p) => s.(procs := s.procs[p := s.procs[p].(killed := true, sleeping := false)])
    case SchedAcquire => s.(pt := Scheduler)
    case SchedRelease => s.(pt := Free)
    case Dispatch(p) => At(s, p, Woken(s.procs[p].pc.op)).(pt := By(p))
  }

  // ---------- The invariant ----------

  ghost predicate ProcInv(s: State, p: nat)
    requires p < |s.procs|
  {
    var pc := s.procs[p].pc;
    && (HoldsPl(pc) <==> s.pl == By(p))
    && (HoldsPt(pc) <==> s.pt == By(p))
    && (s.procs[p].sleeping ==> pc.Asleep?)
    && (Writing(pc) ==> s.wfd)
    && (Reading(pc) ==> s.rfd)
    && (pc.SleepPt? || pc.SleepRel? || pc.SleepGo? || pc.Asleep? ==> if pc.c == NRead then pc.op.ReadTest? else pc.op.Write?)
    && ((pc.SleepPt? || pc.SleepRel?) && pc.c == NRead ==> Empty(s.ring) && s.writeopen)
    && ((pc.SleepPt? || pc.SleepRel?) && pc.c == NWrite ==> Full(s.ring) && s.readopen)
    && ((pc.WakePt? || pc.WakeDo? || pc.WakeRel?) && pc.after == ThenSleep ==> pc.op.Write? && Full(s.ring) && s.readopen)
    && (pc.Woken? ==> pc.op.ReadTest? || pc.op.Write?)
    && (pc.Entry? ==> !pc.op.ReadCopy?)
    && (Busy(pc) && pc.op.CloseEnd? ==> if pc.op.writable then !s.wfd else !s.rfd)
  }

  /** A process asleep on a channel, or about to be and no longer stoppable. */
  predicate Waits(pc: Pc, sleeping: bool, c: Chan) {
    (pc.Asleep? && sleeping && pc.c == c) || (pc.SleepGo? && pc.c == c)
  }

  predicate SomeoneWaits(s: State, c: Chan) {
    exists w :: 0 <= w < |s.procs| && Waits(s.procs[w].pc, s.procs[w].sleeping, c)
  }

  /** The process in the critical section is bound to wake the sleepers on the channel. A writer that
      is still storing is not: it may give up. */
  predicate WillWake(pc: Pc, c: Chan) {
    || ((pc.WakePt? || pc.WakeDo?) && pc.c == c)
    || (pc.Body? && pc.op.ReadCopy? && c == NWrite)
  }

  predicate WakerAtWork(s: State, c: Chan) {
    s.pl.By? && s.pl.p < |s.procs| && WillWake(s.procs[s.pl.p].pc, c)
  }

  ghost predicate NoLostReader(s: State) {
    SomeoneWaits(s, NRead) && (!Empty(s.ring) || !s.writeopen) ==> WakerAtWork(s, NRead) || s.unsaid
  }

  ghost predicate NoLostWriter(s: State) {
    SomeoneWaits(s, NWrite) && (!Full(s.ring) || !s.readopen) ==> WakerAtWork(s, NWrite)
  }

  ghost predicate Ends(s: State) {
    && (!s.writeopen ==> !s.wfd)
    && (!s.readopen ==> !s.rfd)
    && s.pl != Scheduler
    && (s.pl.By? ==> s.pl.p < |s.procs|)
  }

  ghost predicate Inv(s: State) {
    && (forall p :: 0 <= p < |s.procs| ==> ProcInv(s, p))
    && Carries(s.ring, s.written, s.read)
    && Ends(s)
    && NoLostReader(s)
    && NoLostWriter(s)
  }

  lemma {:induction false} ProcInvAt(s: State, p: nat)
    requires Inv(s) && p < |s.procs|
    ensures ProcInv(s, p)
  {
  }

  // ---------- Statements under the pipe's lock ----------

  /** Only process p moves, and it stays in the critical section. */
  lemma {:induction false} BodyFrame(s: State, p: nat)
    requires p < |s.procs| && s.procs[p].pc.Body? && |s.ring.data| == PIPESIZE
    ensures var t := BodyStep(s, p);
      && t.pl == s.pl && t.pt == s.pt && t.wfd == s.wfd && t.rfd == s.rfd
      && |t.procs| == |s.procs| && t.procs == s.procs[p := s.procs[p].(pc := t.procs[p].pc)]
      && (t.procs[p].pc.Body? || t.procs[p].pc.WakePt? || t.procs[p].pc.SleepPt? || t.procs[p].pc.Leave?)
  {
    hide Push, Pop, Full, Empty, Front;
  }

  lemma {:induction false} WriteKeepsMine(s: State, p: nat)
    requires p < |s.procs| && ProcInv(s, p) && s.procs[p].pc.Body? && s.procs[p].pc.op.Write? && |s.ring.data| == PIPESIZE
    ensures |BodyStep(s, p).procs| == |s.procs| && ProcInv(BodyStep(s, p), p)
  {
    hide Push, Pop, Full, Empty, Front;
  }

  lemma {:induction false} TestKeepsMine(s: State, p: nat)
    requires p < |s.procs| && ProcInv(s, p) && s.procs[p].pc.Body? && s.procs[p].pc.op.ReadTest?
    requires |s.ring.data| == PIPESIZE
    ensures |BodyStep(s, p).procs| == |s.procs| && ProcInv(BodyStep(s, p), p)
  {
    hide Push, Pop, Full, Empty, Front;
  }

  lemma {:induction false} CopyKeepsMine(s: State, p: nat)
    requires p < |s.procs| && ProcInv(s, p) && s.procs[p].pc.Body? && s.procs[p].pc.op.ReadCopy?
    requires |s.ring.data| == PIPESIZE
    ensures |BodyStep(s, p).procs| == |s.procs| && ProcInv(BodyStep(s, p), p)
  {
    hide Push, Pop, Full, Empty, Front;
  }

  lemma {:induction false} CloseKeepsMine(s: State, p: nat)
    requires p < |s.procs| && ProcInv(s, p) && s.procs[p].pc.Body? && s.procs[p].pc.op.CloseEnd?
    requires |s.ring.data| == PIPESIZE
    ensures |BodyStep(s, p).procs| == |s.procs| && ProcInv(BodyStep(s, p), p)
  {
    hide Push, Pop, Full, Empty, Front;
  }

  lemma {:induction false} BodyKeepsMine(s: State, p: nat)
    requires p < |s.procs| && ProcInv(s, p) && s.procs[p].pc.Body? && |s.ring.data| == PIPESIZE
    ensures |BodyStep(s, p).procs| == |s.procs| && ProcInv(BodyStep(s, p), p)
  {
    hide BodyStep, ProcInv;
    match s.procs[p].pc.op {
      case Write(_) => WriteKeepsMine(s, p);
      case ReadTest(_) => TestKeepsMine(s, p);
      case ReadCopy(_) => CopyKeepsMine(s, p);
      case CloseEnd(_) => CloseKeepsMine(s, p);
    }
  }

  lemma {:induction false} BodyKeepsProcInv(s: State, p: nat, q: nat)
    requires Inv(s) && p < |s.procs| && s.procs[p].pc.Body? && q < |s.procs| && |s.ring.data| == PIPESIZE
    ensures |BodyStep(s, p).procs| == |s.procs| && ProcInv(BodyStep(s, p), q)
  {
    hide Carries, NoLostReader, NoLostWriter, Full, Empty, BodyStep;
    ProcInvAt(s, p);
    ProcInvAt(s, q);
    if q == p {
      BodyKeepsMine(s, p);
    } else {
      BodyFrame(s, p);
    }
  }

  /** The bytes read remain a prefix of the bytes written. */
  lemma {:induction false} BodyKeepsCarries(s: State, p: nat)
    requires Carries(s.ring, s.written, s.read) && p < |s.procs| && s.procs[p].pc.Body? && |s.ring.data| == PIPESIZE
    ensures Carries(BodyStep(s, p).ring, BodyStep(s, p).written, BodyStep(s, p).read)
  {
    hide Carries, Push, Pop, Full, Empty, Front;
    match s.procs[p].pc.op {
      case Write(todo) =>
        if todo != [] && !Full(s.ring) {
          PushCarries(s.ring, s.written, s.read, todo[0]);
        }
      case ReadCopy(want) =>
        if want != 0 && !Empty(s.ring) {
          PopCarries(s.ring, s.written, s.read);
        }
      case _ =>
    }
  }

  lemma {:induction false} BodyWaiters(s: State, p: nat, c: Chan)
    requires p < |s.procs| && s.procs[p].pc.Body? && |s.ring.data| == PIPESIZE
    ensures SomeoneWaits(BodyStep(s, p), c) ==> SomeoneWaits(s, c)
  {
    hide BodyStep;
    BodyFrame(s, p);
    var t := BodyStep(s, p);
    if w :| 0 <= w < |t.procs| && Waits(t.procs[w].pc, t.procs[w].sleeping, c) {
      assert Waits(s.procs[w].pc, s.procs[w].sleeping, c);
    }
  }

  lemma {:induction false} BodyKeepsReaders(s: State, p: nat)
    requires Inv(s) && p < |s.procs| && s.procs[p].pc.Body? && |s.ring.data| == PIPESIZE
    ensures NoLostReader(BodyStep(s, p))
  {
    hide Carries, Push, Pop, Full, Front, SomeoneWaits, NoLostWriter;
    ProcInvAt(s, p);
    BodyWaiters(s, p, NRead);
    var t := BodyStep(s, p);
    if SomeoneWaits(t, NRead) {
      WaitingReaderHasFd(s);
      EmptyStays(s, p);
    }
  }

  /** While nobody copies in or out, the tests do not change; and popping does not make a ring
      non-empty that was empty. */
  lemma {:induction false} EmptyStays(s: State, p: nat)
    requires p < |s.procs| && s.procs[p].pc.Body? && |s.ring.data| == PIPESIZE
    ensures s.procs[p].pc.op.ReadTest? || s.procs[p].pc.op.CloseEnd? ==> BodyStep(s, p).ring == s.ring
    ensures s.procs[p].pc.op.ReadCopy? && Empty(s.ring) ==> BodyStep(s, p).ring == s.ring
    ensures s.procs[p].pc.op.Write? && Full(s.ring) ==> BodyStep(s, p).ring == s.ring
  {
    hide Push, Pop, Full, Empty, Front;
  }

  lemma {:induction false} WaitingReaderHasFd(s: State)
    requires Inv(s) && SomeoneWaits(s, NRead)
    ensures s.rfd && s.readopen
  {
    hide Carries, NoLostReader, NoLostWriter, Full, Empty;
    var w :| 0 <= w < |s.procs| && Waits(s.procs[w].pc, s.procs[w].sleeping, NRead);
    ProcInvAt(s, w);
  }

  lemma {:induction false} BodyKeepsWriters(s: State, p: nat)
    requires Inv(s) && p < |s.procs| && s.procs[p].pc.Body? && |s.ring.data| == PIPESIZE
    ensures NoLostWriter(BodyStep(s, p))
  {
    hide Carries, Push, Pop, Full, Empty, Front, SomeoneWaits, NoLostReader;
    ProcInvAt(s, p);
    BodyWaiters(s, p, NWrite);
    if SomeoneWaits(BodyStep(s, p), NWrite) {
      EmptyStays(s, p);
    }
  }

  lemma {:induction false} BodyKeepsInv(s: State, p: nat)
    requires Inv(s) && p < |s.procs| && s.procs[p].pc.Body? && |s.ring.data| == PIPESIZE
    ensures Inv(BodyStep(s, p))
  {
    hide ProcInv, NoLostReader, NoLostWriter, Carries, BodyStep, Ends;
    forall q | 0 <= q < |s.procs|
      ensures |BodyStep(s, p).procs| == |s.procs| && ProcInv(BodyStep(s, p), q)
    {
      BodyKeepsProcInv(s, p, q);
    }
    BodyKeepsProcInv(s, p, p);
    BodyKeepsCarries(s, p);
    BodyKeepsReaders(s, p);
    BodyKeepsWriters(s, p);
    BodyKeepsEnds(s, p);
  }

  lemma {:induction false} BodyKeepsEnds(s: State, p: nat)
    requires Inv(s) && p < |s.procs| && s.procs[p].pc.Body? && |s.ring.data| == PIPESIZE
    ensures Ends(BodyStep(s, p))
  {
    hide NoLostReader, NoLostWriter, Carries, Push, Pop, Full, Empty;
    ProcInvAt(s, p);
  }

  // ---------- Moves between critical sections ----------

  /** A step that leaves the pipe itself alone. */
  predicate SamePipe(s: State, t: State) {
    && t.ring == s.ring && t.readopen == s.readopen && t.writeopen == s.writeopen
    && t.written == s.written && t.read == s.read
  }

  lemma {:induction false} MoveKeepsMine(s: State, p: nat)
    requires p < |s.procs| && ProcInv(s, p) && Enabled(s, Act(p)) && !s.procs[p].pc.Body?
    ensures ProcInv(MoveStep(s, p), p)
  {
    hide Full, Empty, Wakeup1;
  }

  lemma {:induction false} MoveKeepsProcInv(s: State, p: nat, q: nat)
    requires Inv(s) && Enabled(s, Act(p)) && !s.procs[p].pc.Body? && q < |s.procs|
    ensures |MoveStep(s, p).procs| == |s.procs| && ProcInv(MoveStep(s, p), q)
  {
    hide Carries, NoLostReader, NoLostWriter, Full, Empty, Wakeup1;
    ProcInvAt(s, p);
    ProcInvAt(s, q);
    if q == p {
      MoveKeepsMine(s, p);
    }
  }

  lemma {:induction false} MoveKeepsPipe(s: State, p: nat)
    requires Inv(s) && Enabled(s, Act(p)) && !s.procs[p].pc.Body?
    ensures SamePipe(s, MoveStep(s, p)) && Ends(MoveStep(s, p))
  {
    hide Carries, NoLostReader, NoLostWriter, Full, Empty, ProcInv, Wakeup1;
  }

  /** There is a reason for a process to be awake that waits on the channel. */
  predicate Reason(s: State, c: Chan) {
    if c == NRead then !Empty(s.ring) || !s.writeopen else !Full(s.ring) || !s.readopen
  }

  lemma {:induction false} WakerOf(s: State, c: Chan)
    requires Inv(s) && SomeoneWaits(s, c) && Reason(s, c)
    ensures WakerAtWork(s, c) || (c == NRead && s.unsaid)
  {
    hide Carries, Full, Empty, ProcInv, SomeoneWaits, WakerAtWork;
  }

  /** Who waits after a move waited before it, except a process that has just reached SleepGo; and a
      waker that moves on has run wakeup1. */
  lemma {:induction false} MoveKeepsWakeup(s: State, p: nat, c: Chan)
    requires Inv(s) && Enabled(s, Act(p)) && !s.procs[p].pc.Body?
    ensures SomeoneWaits(MoveStep(s, p), c) && Reason(s, c) ==>
      WakerAtWork(MoveStep(s, p), c) || (c == NRead && MoveStep(s, p).unsaid)
  {
    hide Inv, Full, Empty, Wakeup1;
    var t := MoveStep(s, p);
    if Reason(s, c) {
      if w :| 0 <= w < |t.procs| && Waits(t.procs[w].pc, t.procs[w].sleeping, c) {
        ProcInvAt(s, p);
        ProcInvAt(s, w);
        assert Waits(s.procs[w].pc, s.procs[w].sleeping, c);
        WakerOf(s, c);
        if s.pl.By? && s.pl.p < |s.procs| {
          ProcInvAt(s, s.pl.p);
        }
      }
    }
  }

  lemma {:induction false} MoveKeepsInv(s: State, p: nat)
    requires Inv(s) && Enabled(s, Act(p)) && !s.procs[p].pc.Body?
    ensures Inv(MoveStep(s, p))
  {
    hide ProcInv, MoveStep, Carries, SomeoneWaits, WakerAtWork, Ends, Full, Empty;
    forall q | 0 <= q < |s.procs|
      ensures |MoveStep(s, p).procs| == |s.procs| && ProcInv(MoveStep(s, p), q)
    {
      MoveKeepsProcInv(s, p, q);
    }
    MoveKeepsProcInv(s, p, p);
    MoveKeepsPipe(s, p);
    MoveKeepsWakeup(s, p, NRead);
    MoveKeepsWakeup(s, p, NWrite);
  }

  // ---------- Calls, kill and the scheduler ----------

  lemma {:induction false} CallKeepsProcInv(s: State, st: Step, q: nat)
    requires Inv(s) && Enabled(s, st) && (st.CallWrite? || st.CallRead?) && q < |s.procs| && |s.ring.data| == PIPESIZE
    ensures |Do(s, st).procs| == |s.procs| && ProcInv(Do(s, st), q)
  {
    hide Next, Carries, NoLostReader, NoLostWriter, Full, Empty;
    ProcInvAt(s, q);
  }

  lemma {:induction false} CloseKeepsProcInv(s: State, st: Step, q: nat)
    requires Inv(s) && Enabled(s, st) && (st.CallClose?) && q < |s.procs| && |s.ring.data| == PIPESIZE
    ensures |Do(s, st).procs| == |s.procs| && ProcInv(Do(s, st), q)
  {
    hide Next, Carries, NoLostReader, NoLostWriter, Full, Empty;
    ProcInvAt(s, q);
  }

  lemma {:induction false} SchedKeepsProcInv(s: State, st: Step, q: nat)
    requires Inv(s) && Enabled(s, st) && (st.Kill? || st.SchedAcquire? || st.SchedRelease? || st.Dispatch?)
    requires q < |s.procs| && |s.ring.data| == PIPESIZE
    ensures |Do(s, st).procs| == |s.procs| && ProcInv(Do(s, st), q)
  {
    hide Next, Carries, NoLostReader, NoLostWriter, Full, Empty;
    ProcInvAt(s, q);
  }

  lemma {:induction false} OtherKeepsProcInv(s: State, st: Step, q: nat)
    requires Inv(s) && Enabled(s, st) && !st.Act? && q < |s.procs| && |s.ring.data| == PIPESIZE
    ensures |Do(s, st).procs| == |s.procs| && ProcInv(Do(s, st), q)
  {
    hide Do, Inv, ProcInv, Enabled;
    match st {
      case CallWrite(_, _) => CallKeepsProcInv(s, st, q);
      case CallRead(_, _) => CallKeepsProcInv(s, st, q);
      case CallClose(_, _) => CloseKeepsProcInv(s, st, q);
      case _ => SchedKeepsProcInv(s, st, q);
    }
  }

  lemma {:induction false} OtherFrame(s: State, st: Step)
    requires Enabled(s, st) && !st.Act? && |s.ring.data| == PIPESIZE
    ensures var t := Do(s, st);
      t == s.(procs := t.procs, pt := t.pt, wfd := t.wfd, rfd := t.rfd) && (t.wfd ==> s.wfd) && (t.rfd ==> s.rfd)
  {
    hide Next, Writing, Reading;
    match st {
      case CallWrite(_, _) =>
      case CallRead(_, _) =>
      case CallClose(_, _) =>
      case Kill(_) =>
      case SchedAcquire =>
      case SchedRelease =>
      case Dispatch(_) =>
    }
  }

  lemma {:induction false} OtherWaiter(s: State, st: Step, w: nat, c: Chan)
    requires Enabled(s, st) && !st.Act? && |s.ring.data| == PIPESIZE && w < |s.procs| == |Do(s, st).procs|
    requires Waits(Do(s, st).procs[w].pc, Do(s, st).procs[w].sleeping, c)
    ensures Waits(s.procs[w].pc, s.procs[w].sleeping, c)
  {
    hide Next, Writing, Reading;
    match st {
      case CallWrite(_, _) =>
      case CallRead(_, _) =>
      case CallClose(_, _) =>
      case Kill(_) =>
      case SchedAcquire =>
      case SchedRelease =>
      case Dispatch(_) =>
    }
  }

  lemma {:induction false} OtherWaits(s: State, st: Step)
    requires Enabled(s, st) && !st.Act? && |s.ring.data| == PIPESIZE
    ensures forall c: Chan :: SomeoneWaits(Do(s, st), c) ==> SomeoneWaits(s, c)
  {
    hide Do, Enabled, Waits;
    OtherSize(s, st);
    var t := Do(s, st);
    forall c: Chan | SomeoneWaits(t, c)
      ensures SomeoneWaits(s, c)
    {
      var w :| 0 <= w < |t.procs| && Waits(t.procs[w].pc, t.procs[w].sleeping, c);
      OtherWaiter(s, st, w, c);
    }
  }

  lemma {:induction false} OtherKeepsInv(s: State, st: Step)
    requires Inv(s) && Enabled(s, st) && !st.Act? && |s.ring.data| == PIPESIZE
    ensures Inv(Do(s, st))
  {
    hide Do, Enabled, Carries, Full, Empty, ProcInv, WillWake, SomeoneWaits;
    var t := Do(s, st);
    forall q | 0 <= q < |s.procs|
      ensures |t.procs| == |s.procs| && ProcInv(t, q)
    {
      OtherKeepsProcInv(s, st, q);
    }
    OtherSize(s, st);
    OtherFrame(s, st);
    OtherWaits(s, st);
    if s.pl.By? {
      OwnerStays(s, st);
    }
  }

  lemma {:induction false} OtherSize(s: State, st: Step)
    requires Enabled(s, st) && !st.Act? && |s.ring.data| == PIPESIZE
    ensures |Do(s, st).procs| == |s.procs|
  {
    hide Next, Writing, Reading;
    match st {
      case CallWrite(_, _) =>
      case CallRead(_, _) =>
      case CallClose(_, _) =>
      case Kill(_) =>
      case SchedAcquire =>
      case SchedRelease =>
      case Dispatch(_) =>
    }
  }

  /** Calls, kill and the scheduler do not move the process in the critical section. */
  lemma {:induction false} OwnerStays(s: State, st: Step)
    requires Inv(s) && Enabled(s, st) && !st.Act? && |s.ring.data| == PIPESIZE && s.pl.By?
    ensures Do(s, st).pl == s.pl && s.pl.p < |s.procs| == |Do(s, st).procs|
    ensures Do(s, st).procs[s.pl.p].pc == s.procs[s.pl.p].pc
  {
    hide Next, Carries, NoLostReader, NoLostWriter, Full, Empty;
    ProcInvAt(s, s.pl.p);
  }

  // ---------- Runs ----------

  ghost predicate Init(s: State) {
    && |s.ring.data| == PIPESIZE && s.ring.nread == 0 && s.ring.nwrite == 0
    && s.pl == Free && s.pt == Free && s.readopen && s.writeopen && s.wfd && s.rfd
    && s.written == [] && s.read == [] && !s.unsaid
    && forall p :: 0 <= p < |s.procs| ==> s.procs[p].pc == Idle && !s.procs[p].sleeping
  }

  ghost predicate Runs(s: State, steps: seq<Step>, t: State)
    decreases |steps|
  {
    if steps == [] then s == t
    else Enabled(s, steps[0]) && |s.ring.data| == PIPESIZE && Runs(Do(s, steps[0]), steps[1..], t)
  }

  lemma {:induction false} StepKeepsInv(s: State, st: Step)
    requires Inv(s) && Enabled(s, st) && |s.ring.data| == PIPESIZE
    ensures Inv(Do(s, st))
  {
    hide Inv, BodyStep, MoveStep;
    if st.Act? {
      if s.procs[st.p].pc.Body? {
        BodyKeepsInv(s, st.p);
      } else {
        MoveKeepsInv(s, st.p);
      }
    } else {
      OtherKeepsInv(s, st);
    }
  }

  lemma {:induction false} RunKeepsInv(s: State, steps: seq<Step>, t: State)
    requires Inv(s) && Runs(s, steps, t)
    ensures Inv(t)
    decreases |steps|
  {
    hide Inv, Do, Enabled;
    if steps != [] {
      StepKeepsInv(s, steps[0]);
      RunKeepsInv(Do(s, steps[0]), steps[1..], t);
    }
  }

  lemma {:induction false} InitInv(s: State)
    requires Init(s)
    ensures Inv(s)
  {
  }

  /** Over every interleaving the pipe is a FIFO: what was read is a prefix of what was written, at
      most PIPESIZE bytes are in flight, and the kernel's tests on the wrapping counters are exact. */
  lemma {:induction false} PipeIsFifo(s: State, steps: seq<Step>, t: State)
    requires Init(s) && Runs(s, steps, t)
    ensures t.read <= t.written && |t.written| - |t.read| <= PIPESIZE
    ensures Full(t.ring) <==> |t.written| - |t.read| == PIPESIZE
    ensures Empty(t.ring) <==> t.read == t.written
  {
    InitInv(s);
    RunKeepsInv(s, steps, t);
    CarriesTests(t.ring, t.written, t.read);
  }

  ghost predicate SleepsOn(s: State, p: nat, c: Chan) {
    p < |s.procs| && s.procs[p].pc.Asleep? && s.procs[p].sleeping && s.procs[p].pc.c == c
  }

  /** Over every interleaving, whenever the pipe's lock is free no writer sleeps on a pipe with room or
      without readers, and no reader sleeps on a pipe with bytes in it or without writers, unless bytes
      were stored that readers have not been told of. */
  lemma {:induction false} PipeLosesNoWakeup(s: State, steps: seq<Step>, t: State)
    requires Init(s) && Runs(s, steps, t) && t.pl == Free
    ensures !Full(t.ring) || !t.readopen ==> forall p: nat :: !SleepsOn(t, p, NWrite)
    ensures !t.unsaid && (!Empty(t.ring) || !t.writeopen) ==> forall p: nat :: !SleepsOn(t, p, NRead)
  {
    hide Full, Empty, Carries, ProcInv;
    InitInv(s);
    RunKeepsInv(s, steps, t);
    forall p, c | 0 <= p < |t.procs| && Waits(t.procs[p].pc, t.procs[p].sleeping, c)
      ensures SomeoneWaits(t, c)
    {
    }
  }
}
