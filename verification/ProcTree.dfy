/**
  The process table (proc.c): fork, exit, wait, kill and the scheduler as steps that each run under
  ptable.lock, so that the states between steps are those in which the lock is free. Processes are
  table slots; slot 0 is init. fork touches its new slot in several steps, some without the lock.
 */
module ProcTree {

  datatype ProcState = UNUSED | EMBRYO | SLEEPING | RUNNABLE | RUNNING | ZOMBIE

  /** What a process is in the middle of. */
  datatype Pc =
    | User
    | Forking(child: nat)  // between allocproc and the end of fork
    | InWait               // in wait's loop

  const INIT := 0
  const NONE := -1

  /** `parent` is a slot or NONE. A process in wait sleeps on its own slot number; all other
      channels are below NONE. */
  datatype Proc = Proc(state: ProcState, pid: nat, parent: int, chan: int, killed: bool, pc: Pc)

  /** The table, the next pid, and the pids that wait has returned so far. */
  datatype State = State(procs: seq<Proc>, nextpid: nat, reaped: seq<nat>)

  datatype Step =
    | Alloc(p: nat, c: nat)      // fork: allocproc takes slot c
    | AllocFails(p: nat)         // fork gives its slot back
    | SetParent(p: nat)          // fork: np->parent = curproc, without the lock
    | ForkDone(p: nat)           // fork: the child becomes RUNNABLE
    | Exit(p: nat)
    | Wait(p: nat)               // one pass of wait's loop, up to return or sleep
    | Kill(pid: nat)
    | Sleep(p: nat, chan: int)   // on a channel that is not a process
    | Wakeup(chan: int)
    | Schedule(p: nat)
    | Yield(p: nat)

  // ---------- wakeup1, exit and wait on the table ----------

  function WokenBy(q: Proc, chan: int): Proc {
    if q.state == SLEEPING && q.chan == chan then q.(state := RUNNABLE) else q
  }

  function Wakeup1(procs: seq<Proc>, chan: int): (r: seq<Proc>)
    ensures |r| == |procs|
    ensures forall i {:trigger r[i]} :: 0 <= i < |r| ==> r[i] == WokenBy(procs[i], chan)
  {
    seq(|procs|, i requires 0 <= i < |procs| => WokenBy(procs[i], chan))
  }

  predicate HasZombieChild(procs: seq<Proc>, p: int) {
    exists c :: 0 <= c < |procs| && procs[c].parent == p && procs[c].state == ZOMBIE
  }

  /** What exit leaves of slot i when process p exits. */
  function AfterExit(procs: seq<Proc>, p: nat, i: nat): (q: Proc)
    requires p < |procs| && i < |procs|
  {
    var q := WokenBy(procs[i], procs[p].parent);
    var q := if HasZombieChild(procs, p) then WokenBy(q, INIT) else q;
    var q := if q.parent == p then q.(parent := INIT) else q;
    if i == p then q.(state := ZOMBIE) else q
  }

  function ExitProcs(procs: seq<Proc>, p: nat): (r: seq<Proc>)
    requires p < |procs|
    ensures |r| == |procs|
    ensures forall i {:trigger r[i]} :: 0 <= i < |r| ==> r[i] == AfterExit(procs, p, i)
  {
    seq(|procs|, i requires 0 <= i < |procs| => AfterExit(procs, p, i))
  }

  /** The first zombie child of p, or -1. */
  function FirstZombie(procs: seq<Proc>, p: int): (i: int)
    ensures -1 <= i < |procs|
    ensures i < 0 <==> !HasZombieChild(procs, p)
    ensures i >= 0 ==> procs[i].parent == p && procs[i].state == ZOMBIE
    ensures i >= 0 ==> forall j :: 0 <= j < i ==> !(procs[j].parent == p && procs[j].state == ZOMBIE)
  {
    if procs == [] then -1
    else
      var i := FirstZombie(procs[..|procs| - 1], p);
      var q := procs[|procs| - 1];
      if i >= 0 then i else if q.parent == p && q.state == ZOMBIE then |procs| - 1 else -1
  }

  predicate HasChild(procs: seq<Proc>, p: int) {
    exists c :: 0 <= c < |procs| && procs[c].parent == p
  }

  // ---------- Steps ----------

  predicate Enabled(s: State, st: Step) {
    match st
    case Alloc(p, c) => Runs(s, p, User) && c < |s.procs| && s.procs[c].state == UNUSED
    case AllocFails(p) => InFork(s, p) && s.procs[s.procs[p].pc.child].parent == NONE
    case SetParent(p) => InFork(s, p) && s.procs[s.procs[p].pc.child].parent == NONE
    case ForkDone(p) => InFork(s, p) && s.procs[s.procs[p].pc.child].parent == p
    case Exit(p) => Runs(s, p, User) && p != INIT
    case Wait(p) => Runs(s, p, User) || Runs(s, p, InWait)
    case Kill(_) => true
    case Sleep(p, chan) => p < |s.procs| && s.procs[p].state == RUNNING && s.procs[p].pc != InWait && chan < NONE
    case Wakeup(chan) => chan < NONE
    case Schedule(p) => p < |s.procs| && s.procs[p].state == RUNNABLE
    case Yield(p) => p < |s.procs| && s.procs[p].state == RUNNING
  }

  predicate Runs(s: State, p: nat, pc: Pc) {
    p < |s.procs| && s.procs[p].state == RUNNING && s.procs[p].pc == pc
  }

  predicate InFork(s: State, p: nat) {
    p < |s.procs| && s.procs[p].state == RUNNING && s.procs[p].pc.Forking? && s.procs[p].pc.child < |s.procs|
  }

  function Put(s: State, p: nat, q: Proc): State
    requires p < |s.procs|
  {
    s.(procs := s.procs[p := q])
  }

  /** One pass of wait's loop: reap the first zombie child, give up, or sleep. */
  function WaitStep(s: State, p: nat): (t: State)
    requires p < |s.procs|
  {
    var q := s.procs[p];
    var z := FirstZombie(s.procs, p);
    if z >= 0 then
      var t := Put(s, z, s.procs[z].(state := UNUSED, pid := 0, parent := NONE, killed := false));
      Put(t, p, t.procs[p].(pc := User)).(reaped := s.reaped + [s.procs[z].pid])
    else if !HasChild(s.procs, p) || q.killed then Put(s, p, q.(pc := User))
    else Put(s, p, q.(state := SLEEPING, chan := p, pc := InWait))
  }

  /** The first slot with the pid, or -1. */
  function FirstPid(procs: seq<Proc>, pid: nat): (i: int)
    ensures -1 <= i < |procs|
    ensures i < 0 ==> forall j :: 0 <= j < |procs| ==> procs[j].pid != pid
    ensures i >= 0 ==> procs[i].pid == pid && forall j :: 0 <= j < i ==> procs[j].pid != pid
  {
    if procs == [] then -1
    else
      var i := FirstPid(procs[..|procs| - 1], pid);
      if i >= 0 then i else if procs[|procs| - 1].pid == pid then |procs| - 1 else -1
  }

  /** kill marks a process, and wakes it if it sleeps. */
  function Killed(q: Proc): Proc {
    q.(killed := true, state := if q.state == SLEEPING then RUNNABLE else q.state)
  }

  function KillStep(s: State, pid: nat): State {
    var i := FirstPid(s.procs, pid);
    if i < 0 then s else Put(s, i, Killed(s.procs[i]))
  }

  function Do(s: State, st: Step): (t: State)
    requires Enabled(s, st)
  {
    match st
    case Alloc(p, c) =>
      var t := Put(s, c, s.procs[c].(state := EMBRYO, pid := s.nextpid));
      Put(t, p, t.procs[p].(pc := Forking(c))).(nextpid := s.nextpid + 1)
    case AllocFails(p) =>
      var c := s.procs[p].pc.child;
      var t := Put(s, c, s.procs[c].(state := UNUSED));
      Put(t, p, t.procs[p].(pc := User))
    case SetParent(p) =>
      var c := s.procs[p].pc.child;
      Put(s, c, s.procs[c].(parent := p))
    case ForkDone(p) =>
      var c := s.procs[p].pc.child;
      var t := Put(s, c, s.procs[c].(state := RUNNABLE));
      Put(t, p, t.procs[p].(pc := User))
    case Exit(p) => s.(procs := ExitProcs(s.procs, p))
    case Wait(p) => WaitStep(s, p)
    case Kill(pid) => KillStep(s, pid)
    case Sleep(p, chan) => Put(s, p, s.procs[p].(state := SLEEPING, chan := chan))
    case Wakeup(chan) => s.(procs := Wakeup1(s.procs, chan))
    case Schedule(p) => Put(s, p, s.procs[p].(state := RUNNING))
    case Yield(p) => Put(s, p, s.procs[p].(state := RUNNABLE))
  }

  // ---------- The invariant ----------

  predicate Live(q: Proc) {
    q.state == SLEEPING || q.state == RUNNABLE || q.state == RUNNING
  }

  /** Parents are live processes; only init and slots not yet adopted have none. */
  ghost predicate TreeAt(procs: seq<Proc>, c: nat)
    requires c < |procs|
  {
    var q := procs[c];
    && (q.parent == NONE || (0 <= q.parent < |procs| && q.parent != c && Live(procs[q.parent])))
    && (q.state == UNUSED ==> q.parent == NONE)
    && (c != INIT && (Live(q) || q.state == ZOMBIE) ==> q.parent != NONE)
  }

  ghost predicate Tree(procs: seq<Proc>) {
    && |procs| > 0 && Live(procs[INIT]) && procs[INIT].parent == NONE
    && forall c :: 0 <= c < |procs| ==> TreeAt(procs, c)
  }

  predicate AsleepInWait(procs: seq<Proc>, p: nat)
    requires p < |procs|
  {
    procs[p].state == SLEEPING && procs[p].pc == InWait
  }

  /** A process asleep in wait has a child, and none of its children is a zombie. */
  ghost predicate WaitAt(procs: seq<Proc>, p: nat)
    requires p < |procs|
  {
    && (procs[p].state == SLEEPING ==> if procs[p].pc == InWait then procs[p].chan == p else procs[p].chan < NONE)
    && (AsleepInWait(procs, p) ==> !HasZombieChild(procs, p) && HasChild(procs, p))
  }

  ghost predicate Waits(procs: seq<Proc>) {
    forall p :: 0 <= p < |procs| ==> WaitAt(procs, p)
  }

  /** A fork in progress owns an EMBRYO slot of its own. */
  ghost predicate ForkAt(procs: seq<Proc>, p: nat)
    requires p < |procs|
  {
    procs[p].pc.Forking? ==>
      var c := procs[p].pc.child;
      Live(procs[p]) && c < |procs| && procs[c].state == EMBRYO && (procs[c].parent == NONE || procs[c].parent == p)
  }

  ghost predicate Forks(procs: seq<Proc>) {
    && (forall p :: 0 <= p < |procs| ==> ForkAt(procs, p))
    && (forall p, q :: 0 <= p < q < |procs| && procs[p].pc.Forking? && procs[q].pc.Forking? ==>
        procs[p].pc.child != procs[q].pc.child)
    && (forall c :: 0 <= c < |procs| && procs[c].state == EMBRYO && procs[c].parent != NONE ==>
          0 <= procs[c].parent < |procs| && procs[procs[c].parent].pc == Forking(c))
    && (forall c :: 0 <= c < |procs| && !Live(procs[c]) ==> procs[c].pc == User)
  }

  /** Pids in use and pids returned by wait are all different. */
  ghost predicate Pids(s: State) {
    && (forall i :: 0 <= i < |s.procs| ==> s.procs[i].pid < s.nextpid)
    && (forall i, j :: 0 <= i < j < |s.procs| && s.procs[i].state != UNUSED && s.procs[j].state != UNUSED ==>
        s.procs[i].pid != s.procs[j].pid)
    && (forall k :: 0 <= k < |s.reaped| ==> s.reaped[k] < s.nextpid)
    && (forall k, l :: 0 <= k < l < |s.reaped| ==> s.reaped[k] != s.reaped[l])
    && (forall i, k :: 0 <= i < |s.procs| && 0 <= k < |s.reaped| && s.procs[i].state != UNUSED ==> s.procs[i].pid != s.reaped[k])
  }

  ghost predicate Inv(s: State) {
    Tree(s.procs) && Waits(s.procs) && Forks(s.procs) && Pids(s)
  }

  // ---------- exit ----------

  lemma {:induction false} ExitKeepsTree(s: State, p: nat)
    requires Inv(s) && Enabled(s, Exit(p))
    ensures Tree(ExitProcs(s.procs, p))
  {
    hide Pids, Waits, HasZombieChild, ExitProcs;
    var t := ExitProcs(s.procs, p);
    forall c | 0 <= c < |t|
      ensures TreeAt(t, c)
    {
      assert TreeAt(s.procs, c);
    }
    assert t[INIT] == AfterExit(s.procs, p, INIT);
  }

  /** Whoever still sleeps in wait after p's exit is not concerned by it. */
  lemma {:induction false} StillAsleep(procs: seq<Proc>, p: nat, w: nat)
    requires p < |procs| && w < |procs| && WaitAt(procs, w) && AsleepInWait(ExitProcs(procs, p), w)
    ensures AsleepInWait(procs, w) && w != p && procs[p].parent != w && !(w == INIT && HasZombieChild(procs, p))
    ensures ExitProcs(procs, p)[w].chan == procs[w].chan
  {
    hide HasZombieChild, HasChild;
  }

  lemma {:induction false} ExitKeepsWaitAt(procs: seq<Proc>, p: nat, w: nat)
    requires p < |procs| && w < |procs| && WaitAt(procs, w) && procs[p].parent != p && procs[p].state == RUNNING
    ensures WaitAt(ExitProcs(procs, p), w)
  {
    hide ExitProcs;
    var t := ExitProcs(procs, p);
    if AsleepInWait(t, w) {
      StillAsleep(procs, p, w);
      forall c | 0 <= c < |t|
        ensures !(t[c].parent == w && t[c].state == ZOMBIE)
      {
        assert t[c] == AfterExit(procs, p, c);
      }
      var c :| 0 <= c < |procs| && procs[c].parent == w;
      assert t[c].parent == w;
    } else {
      assert t[w] == AfterExit(procs, p, w);
    }
  }

  lemma {:induction false} ExitKeepsWaits(s: State, p: nat)
    requires Inv(s) && Enabled(s, Exit(p))
    ensures Waits(ExitProcs(s.procs, p))
  {
    hide Pids, Forks, ExitProcs, WaitAt;
    assert TreeAt(s.procs, p);
    forall w | 0 <= w < |s.procs|
      ensures WaitAt(ExitProcs(s.procs, p), w)
    {
      ExitKeepsWaitAt(s.procs, p, w);
    }
  }

  lemma {:induction false} ExitKeepsForks(s: State, p: nat)
    requires Inv(s) && Enabled(s, Exit(p))
    ensures Forks(ExitProcs(s.procs, p))
  {
    hide Pids, Waits, ExitProcs, Tree;
    var procs, t := s.procs, ExitProcs(s.procs, p);
    forall i | 0 <= i < |t|
      ensures t[i].pc == procs[i].pc && (Live(t[i]) <==> Live(procs[i]) && i != p) && (t[i].state == EMBRYO <==>
          procs[i].state == EMBRYO)
      ensures t[i].parent == if procs[i].parent == p then INIT else procs[i].parent
    {
      assert t[i] == AfterExit(procs, p, i);
    }
    hide AfterExit;
    forall q | 0 <= q < |t|
      ensures ForkAt(t, q)
    {
      assert ForkAt(procs, q);
    }
    forall c | 0 <= c < |t| && t[c].state == EMBRYO && t[c].parent != NONE
      ensures 0 <= t[c].parent < |t| && t[t[c].parent].pc == Forking(c)
    {
      assert procs[c].state == EMBRYO && procs[c].parent != NONE;
    }
  }

  lemma {:induction false} ExitKeepsPids(s: State, p: nat)
    requires Inv(s) && Enabled(s, Exit(p))
    ensures Pids(s.(procs := ExitProcs(s.procs, p)))
  {
    hide Forks, Waits, Tree, HasZombieChild, ExitProcs;
    var t := ExitProcs(s.procs, p);
    forall i | 0 <= i < |t|
      ensures t[i].pid == s.procs[i].pid && (t[i].state == UNUSED <==> s.procs[i].state == UNUSED)
    {
    }
  }

  // ---------- wait ----------

  lemma {:induction false} ReapKeepsTree(s: State, p: nat)
    requires Inv(s) && Enabled(s, Wait(p)) && FirstZombie(s.procs, p) >= 0
    ensures Tree(WaitStep(s, p).procs)
  {
    hide Pids, Waits, Forks, HasZombieChild, HasChild, FirstZombie;
    var t := WaitStep(s, p).procs;
    forall c | 0 <= c < |t|
      ensures TreeAt(t, c)
    {
      assert TreeAt(s.procs, c);
    }
  }

  lemma {:induction false} ReapKeepsWaits(s: State, p: nat)
    requires Inv(s) && Enabled(s, Wait(p)) && FirstZombie(s.procs, p) >= 0
    ensures Waits(WaitStep(s, p).procs)
  {
    hide Pids, Forks, FirstZombie;
    var procs, t := s.procs, WaitStep(s, p).procs;
    forall w | 0 <= w < |t|
      ensures WaitAt(t, w)
    {
      assert WaitAt(procs, w);
      if AsleepInWait(t, w) {
        forall c | 0 <= c < |t|
          ensures !(t[c].parent == w && t[c].state == ZOMBIE)
        {
        }
        var c :| 0 <= c < |procs| && procs[c].parent == w;
        assert t[c].parent == w;
      }
    }
  }

  lemma {:induction false} ReapKeepsForks(s: State, p: nat)
    requires Inv(s) && Enabled(s, Wait(p)) && FirstZombie(s.procs, p) >= 0
    ensures Forks(WaitStep(s, p).procs)
  {
    hide Pids, Waits, Tree, HasZombieChild, HasChild, FirstZombie;
    var procs, t := s.procs, WaitStep(s, p).procs;
    forall q | 0 <= q < |t|
      ensures ForkAt(t, q)
    {
      assert ForkAt(procs, q);
    }
  }

  lemma {:induction false} ReapKeepsPids(s: State, p: nat)
    requires Inv(s) && Enabled(s, Wait(p)) && FirstZombie(s.procs, p) >= 0
    ensures Pids(WaitStep(s, p))
  {
    hide Forks, Waits, Tree, HasZombieChild, HasChild, FirstZombie;
  }

  /** Giving up or going to sleep changes only the waiting process. */
  lemma {:induction false} NoZombieKeepsInv(s: State, p: nat)
    requires Inv(s) && Enabled(s, Wait(p)) && FirstZombie(s.procs, p) < 0
    ensures Inv(WaitStep(s, p))
  {
    hide FirstZombie, Pids;
    var procs, t := s.procs, WaitStep(s, p).procs;
    assert t == procs[p := t[p]] && Live(t[p]) && t[p].parent == procs[p].parent && t[p].pid == procs[p].pid;
    SameTree(procs, t);
    SameForks(procs, t);
    SamePids(s, WaitStep(s, p));
    forall w | 0 <= w < |t|
      ensures WaitAt(t, w)
    {
      assert WaitAt(procs, w);
      SameChildren(procs, t, w);
    }
  }

  // ---------- Steps that change states only ----------

  /** Slots keep parent and pid, and stay live or not. */
  ghost predicate SameShape(procs: seq<Proc>, t: seq<Proc>) {
    && |t| == |procs|
    && forall i {:trigger t[i]} :: 0 <= i < |t| ==>
         && t[i].parent == procs[i].parent && t[i].pid == procs[i].pid
         && (t[i].state == procs[i].state || (Live(t[i]) && Live(procs[i])))
  }

  lemma {:induction false} SameTree(procs: seq<Proc>, t: seq<Proc>)
    requires Tree(procs) && SameShape(procs, t)
    ensures Tree(t)
  {
    forall c | 0 <= c < |t|
      ensures TreeAt(t, c)
    {
      assert TreeAt(procs, c);
    }
  }

  lemma {:induction false} SameForks(procs: seq<Proc>, t: seq<Proc>)
    requires Forks(procs) && SameShape(procs, t)
    requires forall i {:trigger t[i]} :: 0 <= i < |t| ==>
        t[i].pc == procs[i].pc || (!t[i].pc.Forking? && !procs[i].pc.Forking? && Live(t[i]))
    ensures Forks(t)
  {
    forall q | 0 <= q < |t|
      ensures ForkAt(t, q)
    {
      assert ForkAt(procs, q);
    }
    forall c | 0 <= c < |t| && t[c].state == EMBRYO && t[c].parent != NONE
      ensures 0 <= t[c].parent < |t| && t[t[c].parent].pc == Forking(c)
    {
      assert procs[c].state == EMBRYO && procs[c].parent != NONE;
    }
  }

  lemma {:induction false} SamePids(s: State, t: State)
    requires Pids(s) && SameShape(s.procs, t.procs) && t.nextpid == s.nextpid && t.reaped == s.reaped
    ensures Pids(t)
  {
  }

  lemma {:induction false} SameChildren(procs: seq<Proc>, t: seq<Proc>, w: int)
    requires SameShape(procs, t)
    ensures HasZombieChild(t, w) <==> HasZombieChild(procs, w)
    ensures HasChild(t, w) <==> HasChild(procs, w)
  {
    forall c | 0 <= c < |t|
      ensures t[c].parent == procs[c].parent && (t[c].state == ZOMBIE <==> procs[c].state == ZOMBIE)
    {
    }
  }

  /** kill, sleep, wakeup and the scheduler. */
  lemma {:induction false} StateStepKeepsInv(s: State, st: Step)
    requires Inv(s) && Enabled(s, st)
    requires st.Kill? || st.Sleep? || st.Wakeup? || st.Schedule? || st.Yield?
    ensures Inv(Do(s, st))
  {
    hide Pids, Tree, Forks, HasChild, HasZombieChild, FirstPid;
    var procs, t := s.procs, Do(s, st).procs;
    assert SameShape(procs, t);
    SameTree(procs, t);
    SameForks(procs, t);
    SamePids(s, Do(s, st));
    forall w | 0 <= w < |t|
      ensures WaitAt(t, w)
    {
      assert WaitAt(procs, w);
      SameChildren(procs, t, w);
    }
  }

  // ---------- fork ----------

  lemma {:induction false} ForkStepKeepsTree(s: State, st: Step)
    requires Inv(s) && Enabled(s, st) && (st.Alloc? || st.AllocFails? || st.SetParent? || st.ForkDone?)
    ensures Tree(Do(s, st).procs)
  {
    hide Pids, Waits, HasChild, HasZombieChild;
    var procs, t := s.procs, Do(s, st).procs;
    assert ForkAt(procs, st.p);
    forall c | 0 <= c < |t|
      ensures TreeAt(t, c)
    {
      assert TreeAt(procs, c);
    }
  }

  lemma {:induction false} AllocKeepsForks(s: State, p: nat, c: nat)
    requires Inv(s) && Enabled(s, Alloc(p, c))
    ensures Forks(Do(s, Alloc(p, c)).procs)
  {
    hide Pids, Waits, Tree, HasChild, HasZombieChild;
    var procs, t := s.procs, Do(s, Alloc(p, c)).procs;
    NewSlotIsNobodys(s, c);
    assert t == procs[c := procs[c].(state := EMBRYO, pid := s.nextpid)][p := procs[p].(pc := Forking(c))];
    hide Do, Enabled;
    forall q | 0 <= q < |t|
      ensures ForkAt(t, q)
    {
      assert ForkAt(procs, q);
    }
  }

  /** fork's later steps touch the forking process and its child. */
  lemma {:induction false} ForkStepEffect(s: State, st: Step)
    requires Inv(s) && Enabled(s, st) && (st.AllocFails? || st.SetParent? || st.ForkDone?)
    ensures st.p < |s.procs| && s.procs[st.p].pc.Forking?
    ensures var procs, t, p := s.procs, Do(s, st).procs, st.p;
      var c := procs[p].pc.child;
      && c < |procs| && p != c && |t| == |procs| && t == procs[c := t[c]][p := t[p]]
      && (st.SetParent? ==> t[c] == procs[c].(parent := p) && t[p] == procs[p])
      && (!st.SetParent? ==>
            t[c].state != EMBRYO && t[c].parent == procs[c].parent && t[c].pc == procs[c].pc && t[p] == procs[p].(pc := User))
  {
    hide Pids, Waits, Tree, HasChild, HasZombieChild;
    assert ForkAt(s.procs, st.p);
  }

  lemma {:induction false} ForkStepKeepsForks(s: State, st: Step)
    requires Inv(s) && Enabled(s, st) && (st.AllocFails? || st.SetParent? || st.ForkDone?)
    ensures Forks(Do(s, st).procs)
  {
    hide Pids, Waits, Tree, HasChild, HasZombieChild, Do, Enabled;
    var procs, t, p := s.procs, Do(s, st).procs, st.p;
    ForkStepEffect(s, st);
    var c := procs[p].pc.child;
    assert ForkAt(procs, p);
    assert t[c].pc == procs[c].pc == User;
    forall q | 0 <= q < |t|
      ensures ForkAt(t, q)
    {
      assert ForkAt(procs, q);
      assert q != p && procs[q].pc.Forking? ==> procs[q].pc.child != c;
    }
    forall d | 0 <= d < |t| && t[d].state == EMBRYO && t[d].parent != NONE
      ensures 0 <= t[d].parent < |t| && t[t[d].parent].pc == Forking(d)
    {
      assert procs[d].state == EMBRYO;
    }
  }

  lemma {:induction false} NewSlotIsNobodys(s: State, c: nat)
    requires Inv(s) && c < |s.procs| && s.procs[c].state == UNUSED
    ensures s.procs[c].parent == NONE && s.procs[c].pc == User
    ensures forall q :: 0 <= q < |s.procs| && s.procs[q].pc.Forking? ==> s.procs[q].pc.child != c
  {
    hide Pids, Waits, HasChild, HasZombieChild;
    assert TreeAt(s.procs, c);
    forall q | 0 <= q < |s.procs| && s.procs[q].pc.Forking?
      ensures s.procs[q].pc.child != c
    {
      assert ForkAt(s.procs, q);
    }
  }

  lemma {:induction false} ForkStepKeepsWaits(s: State, st: Step)
    requires Inv(s) && Enabled(s, st) && (st.Alloc? || st.AllocFails? || st.SetParent? || st.ForkDone?)
    ensures Waits(Do(s, st).procs)
  {
    hide Pids;
    var procs, t := s.procs, Do(s, st).procs;
    assert ForkAt(procs, st.p);
    forall w | 0 <= w < |t|
      ensures WaitAt(t, w)
    {
      assert WaitAt(procs, w);
      if AsleepInWait(t, w) {
        assert AsleepInWait(procs, w);
        forall c | 0 <= c < |t|
          ensures !(t[c].parent == w && t[c].state == ZOMBIE)
        {
        }
        var c :| 0 <= c < |procs| && procs[c].parent == w;
        assert t[c].parent == w;
      }
    }
  }

  lemma {:induction false} AllocKeepsPids(s: State, p: nat, c: nat)
    requires Inv(s) && Enabled(s, Alloc(p, c))
    ensures Pids(Do(s, Alloc(p, c)))
  {
    hide Waits, Tree, Forks, HasChild, HasZombieChild;
    var t := Do(s, Alloc(p, c));
    assert t.procs == s.procs[c := s.procs[c].(state := EMBRYO, pid := s.nextpid)][p := s.procs[p].(pc := Forking(c))];
  }

  lemma {:induction false} ForkStepKeepsPids(s: State, st: Step)
    requires Inv(s) && Enabled(s, st) && (st.AllocFails? || st.SetParent? || st.ForkDone?)
    ensures Pids(Do(s, st))
  {
    hide Waits, Tree, HasChild, HasZombieChild;
    assert ForkAt(s.procs, st.p);
    var t := Do(s, st);
    forall i | 0 <= i < |t.procs|
      ensures t.procs[i].pid == s.procs[i].pid && (s.procs[i].state == UNUSED ==> t.procs[i].state == UNUSED)
    {
    }
    hide Forks, Do, Enabled;
    FewerPids(s, t);
  }

  lemma {:induction false} FewerPids(s: State, t: State)
    requires Pids(s) && |t.procs| == |s.procs| && t.nextpid == s.nextpid && t.reaped == s.reaped
    requires forall i {:trigger t.procs[i]} :: 0 <= i < |t.procs| ==>
      t.procs[i].pid == s.procs[i].pid && (s.procs[i].state == UNUSED ==> t.procs[i].state == UNUSED)
    ensures Pids(t)
  {
  }

  // ---------- Runs ----------

  lemma {:induction false} StepKeepsInv(s: State, st: Step)
    requires Inv(s) && Enabled(s, st)
    ensures Inv(Do(s, st))
  {
    hide Tree, Waits, Forks, Pids, Enabled, WaitStep, ExitProcs;
    match st {
      case Exit(p) =>
        ExitKeepsTree(s, p);
        ExitKeepsWaits(s, p);
        ExitKeepsForks(s, p);
        ExitKeepsPids(s, p);
      case Wait(p) =>
        if FirstZombie(s.procs, p) >= 0 {
          ReapKeepsTree(s, p);
          ReapKeepsWaits(s, p);
          ReapKeepsForks(s, p);
          ReapKeepsPids(s, p);
        } else {
          NoZombieKeepsInv(s, p);
        }
      case Alloc(_, _) => ForkStepKeepsInv(s, st);
      case AllocFails(_) => ForkStepKeepsInv(s, st);
      case SetParent(_) => ForkStepKeepsInv(s, st);
      case ForkDone(_) => ForkStepKeepsInv(s, st);
      case _ => StateStepKeepsInv(s, st);
    }
  }

  lemma {:induction false} ForkStepKeepsInv(s: State, st: Step)
    requires Inv(s) && Enabled(s, st) && (st.Alloc? || st.AllocFails? || st.SetParent? || st.ForkDone?)
    ensures Inv(Do(s, st))
  {
    hide Tree, Waits, Forks, Pids, Enabled;
    ForkStepKeepsTree(s, st);
    ForkStepKeepsWaits(s, st);
    if st.Alloc? {
      AllocKeepsForks(s, st.p, st.c);
      AllocKeepsPids(s, st.p, st.c);
    } else {
      ForkStepKeepsForks(s, st);
      ForkStepKeepsPids(s, st);
    }
  }

  ghost predicate Run(s: State, steps: seq<Step>, t: State)
    decreases |steps|
  {
    if steps == [] then s == t else Enabled(s, steps[0]) && Run(Do(s, steps[0]), steps[1..], t)
  }

  /** init alone in a table of unused slots. */
  ghost predicate Booted(s: State) {
    && |s.procs| > 0 && s.nextpid == 2 && s.reaped == []
    && s.procs[INIT] == Proc(RUNNABLE, 1, NONE, NONE, false, User)
    && forall i :: 0 < i < |s.procs| ==> s.procs[i] == Proc(UNUSED, 0, NONE, NONE, false, User)
  }

  lemma {:induction false} RunKeepsInv(s: State, steps: seq<Step>, t: State)
    requires Inv(s) && Run(s, steps, t)
    ensures Inv(t)
    decreases |steps|
  {
    hide Inv, Do, Enabled;
    if steps != [] {
      StepKeepsInv(s, steps[0]);
      RunKeepsInv(Do(s, steps[0]), steps[1..], t);
    }
  }

  lemma {:induction false} BootInv(s: State)
    requires Booted(s)
    ensures Inv(s)
  {
    forall c | 0 <= c < |s.procs|
      ensures TreeAt(s.procs, c) && WaitAt(s.procs, c) && ForkAt(s.procs, c)
    {
    }
  }

  /** Over every run, whenever ptable.lock is free: no process has an exited parent, and every live or
      zombie process but init has a parent; nobody sleeps in wait next to a zombie child, or without
      a child that could wake it; and wait has returned no pid twice. */
  lemma {:induction false} ProcessTreeIsSafe(s: State, steps: seq<Step>, t: State)
    requires Booted(s) && Run(s, steps, t)
    ensures forall c :: 0 <= c < |t.procs| && t.procs[c].parent != NONE ==>
      0 <= t.procs[c].parent < |t.procs| && Live(t.procs[t.procs[c].parent])
    ensures forall c :: 0 < c < |t.procs| && (Live(t.procs[c]) || t.procs[c].state == ZOMBIE) ==> t.procs[c].parent != NONE
    ensures forall p :: 0 <= p < |t.procs| && AsleepInWait(t.procs, p) ==> !HasZombieChild(t.procs, p) && HasChild(t.procs, p)
    ensures forall k, l :: 0 <= k < l < |t.reaped| ==> t.reaped[k] != t.reaped[l]
  {
    hide Forks, HasChild, HasZombieChild;
    BootInv(s);
    RunKeepsInv(s, steps, t);
    forall c | 0 <= c < |t.procs|
      ensures t.procs[c].parent != NONE ==> 0 <= t.procs[c].parent < |t.procs| && Live(t.procs[t.procs[c].parent])
      ensures 0 < c && (Live(t.procs[c]) || t.procs[c].state == ZOMBIE) ==> t.procs[c].parent != NONE
      ensures AsleepInWait(t.procs, c) ==> !HasZombieChild(t.procs, c) && HasChild(t.procs, c)
    {
      assert TreeAt(t.procs, c) && WaitAt(t.procs, c);
    }
  }

  /** exit passes every child to init, dead or alive, and makes the process a zombie. */
  lemma {:induction false} ExitGivesChildrenToInit(s: State, p: nat, c: nat)
    requires Inv(s) && Enabled(s, Exit(p)) && c < |s.procs| && s.procs[c].parent == p
    ensures Do(s, Exit(p)).procs[c].parent == INIT && Do(s, Exit(p)).procs[p].state == ZOMBIE
    ensures s.procs[c].state == ZOMBIE ==> Do(s, Exit(p)).procs[INIT].state != SLEEPING || Do(s, Exit(p)).procs[INIT].pc != InWait
  {
    hide Pids, Forks, Tree, HasChild;
    assert WaitAt(s.procs, INIT);
    assert s.procs[c].state == ZOMBIE ==> HasZombieChild(s.procs, p);
  }
}
