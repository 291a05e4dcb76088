/**
  The process table updated in place, with the loops of proc.c: each method does to the table what
  the step functions of ProcTree say.
 */
module ProcTable {
  import opened ProcTree

  /** ptable.proc, and the pids wait has returned. */
  class Table {
    const proc: array<Proc>
    var reaped: seq<nat>

    constructor (n: nat)
      ensures fresh(proc) && proc.Length == n && reaped == []
    {
      proc := new Proc[n](i => Proc(UNUSED, 0, NONE, NONE, false, User));
      reaped := [];
    }

    /** wakeup1. */
    method WakeAll(chan: int)
      modifies proc
      ensures proc[..] == Wakeup1(old(proc[..]), chan)
    {
      var i := 0;
      while i < proc.Length
        invariant 0 <= i <= proc.Length
        invariant forall j :: 0 <= j < proc.Length ==> proc[j] == if j < i then WokenBy(old(proc[j]), chan) else old(proc[j])
      {
        if proc[i].state == SLEEPING && proc[i].chan == chan {
          proc[i] := proc[i].(state := RUNNABLE);
        }
        i := i + 1;
      }
    }

    /** exit, from wakeup1(parent) to the ZOMBIE state. */
    method ExitProc(p: nat)
      requires p < proc.Length
      modifies proc
      ensures proc[..] == ExitProcs(old(proc[..]), p)
    {
      ghost var procs := proc[..];
      WakeAll(proc[p].parent);
      assert forall j :: 0 <= j < proc.Length ==> proc[..][j] == proc[j];
      var i := 0;
      while i < proc.Length
        invariant 0 <= i <= proc.Length
        invariant forall j :: 0 <= j < proc.Length ==> proc[j] == InExit(procs, p, i, j)
      {
        if proc[i].parent == p {
          proc[i] := proc[i].(parent := INIT);
          if proc[i].state == ZOMBIE {
            WakeAll(INIT);
            assert forall j :: 0 <= j < proc.Length ==> proc[..][j] == proc[j];
          }
        }
        i := i + 1;
      }
      proc[p] := proc[p].(state := ZOMBIE);
    }

    /** One pass of wait's loop: a reaped pid, -1 to give up, or None after going to sleep. */
    method WaitPass(p: nat) returns (result: Result)
      requires p < proc.Length
      modifies this`reaped, proc
      ensures var t := WaitStep(State(old(proc[..]), 0, old(reaped)), p); proc[..] == t.procs && reaped == t.reaped
      ensures var z := FirstZombie(old(proc[..]), p);
        result == if z >= 0 then Reaped(old(proc[..])[z].pid)
                  else if !HasChild(old(proc[..]), p) || old(proc[p]).killed then GaveUp else Slept
    {
      ghost var procs := proc[..];
      var havekids := false;
      var i := 0;
      while i < proc.Length
        invariant 0 <= i <= proc.Length && proc[..] == procs && reaped == old(reaped)
        invariant havekids <==> exists c :: 0 <= c < i && procs[c].parent == p
        invariant forall c :: 0 <= c < i ==> !(procs[c].parent == p && procs[c].state == ZOMBIE)
      {
        if proc[i].parent == p {
          havekids := true;
          assert procs[i].parent == p;
          if proc[i].state == ZOMBIE {
            assert FirstZombie(procs, p) == i;
            var pid := proc[i].pid;
            proc[i] := proc[i].(state := UNUSED, pid := 0, parent := NONE, killed := false);
            proc[p] := proc[p].(pc := User);
            reaped := reaped + [pid];
            return Reaped(pid);
          }
        }
        i := i + 1;
      }
      assert FirstZombie(procs, p) < 0;
      assert havekids <==> HasChild(procs, p);
      if !havekids || proc[p].killed {
        proc[p] := proc[p].(pc := User);
        return GaveUp;
      }
      proc[p] := proc[p].(state := SLEEPING, chan := p, pc := InWait);
      return Slept;
    }

    /** kill: 0 if a slot has the pid. */
    method KillPid(pid: nat) returns (found: bool)
      modifies proc
      ensures proc[..] == KillStep(State(old(proc[..]), 0, []), pid).procs
      ensures found <==> exists j :: 0 <= j < proc.Length && old(proc[j]).pid == pid
      ensures found ==>
        var i := FirstPid(old(proc[..]), pid);
        && proc[i].killed && proc[i].state == (if old(proc[i]).state == SLEEPING then RUNNABLE else old(proc[i]).state)
        && proc[i] == old(proc[i]).(killed := true, state := proc[i].state)
        && forall j :: 0 <= j < proc.Length && j != i ==> proc[j] == old(proc[j])
    {
      ghost var procs := proc[..];
      var i := 0;
      while i < proc.Length
        invariant 0 <= i <= proc.Length && proc[..] == procs
        invariant forall j :: 0 <= j < i ==> procs[j].pid != pid
      {
        if proc[i].pid == pid {
          assert procs[i].pid == pid && FirstPid(procs, pid) == i;
          proc[i] := proc[i].(killed := true);
          if proc[i].state == SLEEPING {
            proc[i] := proc[i].(state := RUNNABLE);
          }
          return true;
        }
        i := i + 1;
      }
      return false;
    }
  }

  datatype Result = Reaped(pid: nat) | GaveUp | Slept

  /** Slot j when exit's loop is about to look at slot i. */
  ghost function InExit(procs: seq<Proc>, p: nat, i: nat, j: nat): Proc
    requires p < |procs| && j < |procs| && i <= |procs|
  {
    var q := WokenBy(procs[j], procs[p].parent);
    var q := if HasZombieChild(procs[..i], p) then WokenBy(q, INIT) else q;
    if j < i && q.parent == p then q.(parent := INIT) else q
  }
}
