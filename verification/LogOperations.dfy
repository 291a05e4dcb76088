/**
  Operations that make given lists of log_write calls (log.c): any number of them at a time, interleaved in
  any way. A list is safe beside all well-behaved ones if and only if it stays within the reservation at
  every call.
 */
module LogOperations {
  import opened Common
  import opened Params
  import opened FsCost
  import R = LogReservation

  /** An operation's calls, and how many of them it has made. */
  datatype Plan = Plan(calls: seq<nat>, made: nat)

  /** The log, and a plan for each outstanding operation. */
  datatype System = System(log: R.State, plans: seq<Plan>)

  datatype Act =
    | Start(calls: seq<nat>)  // begin_op finds room
    | Call(i: nat)            // the next log_write, up to acquire
    | Enter(i: nat)           // the same, under the lock
    | Finish(i: nat)          // end_op, once all calls are made
    | Clear
    | Done

  const IDLE := System(R.INIT, [])

  /** The step of the log that an act is. */
  function StepOf(y: System, a: Act): R.Step {
    match a
    case Start(_) => R.Begin
    case Call(i) =>
      if i < |y.plans| && y.plans[i].made < |y.plans[i].calls| then R.Check(i, y.plans[i].calls[y.plans[i].made]) else R.Begin
    case Enter(i) => R.Record(i)
    case Finish(i) => R.End(i)
    case Clear => R.Clear
    case Done => R.Done
  }

  predicate CanAct(y: System, a: Act, lists: iset<seq<nat>>) {
    && R.Possible(y.log, StepOf(y, a))
    && match a
       case Start(calls) => calls in lists
       case Call(i) => i < |y.plans| && y.plans[i].made < |y.plans[i].calls|
       case Enter(i) => i < |y.plans|
       case Finish(i) => i < |y.plans| && y.plans[i].made == |y.plans[i].calls|
       case _ => true
  }

  function Next(y: System, a: Act): (z: System)
    requires R.Possible(y.log, StepOf(y, a)) && (a.Enter? || a.Finish? ==> a.i < |y.plans|)
  {
    var plans := match a
      case Start(calls) => y.plans + [Plan(calls, 0)]
      case Enter(i) => y.plans[i := y.plans[i].(made := y.plans[i].made + 1)]
      case Finish(i) => y.plans[..i] + y.plans[i + 1..]
      case _ => y.plans;
    System(R.Do(y.log, StepOf(y, a)), plans)
  }

  /** A run in which operations take their calls from the lists, and which has not panicked. */
  ghost predicate Runs(y: System, acts: seq<Act>, z: System, size: nat, lists: iset<seq<nat>>)
    decreases |acts|
  {
    if acts == [] then y == z
    else
      && CanAct(y, acts[0], lists) && !R.Panics(y.log, StepOf(y, acts[0]), size)
      && Runs(Next(y, acts[0]), acts[1..], z, size, lists)
  }

  /** No run of such operations comes to a panic. */
  ghost predicate Safe(size: nat, lists: iset<seq<nat>>) {
    forall acts, y, a {:trigger Runs(IDLE, acts, y, size, lists), CanAct(y, a, lists)} ::
      Runs(IDLE, acts, y, size, lists) && CanAct(y, a, lists) ==> !R.Panics(y.log, StepOf(y, a), size)
  }

  // ---------- Lists within the limit ----------

  /** What the log knows of an operation is what its plan says. */
  ghost predicate OpFollows(op: R.Op, p: Plan) {
    && p.made <= |p.calls| && op.spent == Elems(p.calls[..p.made])
    && (op.pending == [] || (p.made < |p.calls| && op.pending == [p.calls[p.made]]))
  }

  ghost predicate Follows(y: System) {
    |y.plans| == |y.log.ops| && forall i :: 0 <= i < |y.plans| ==> OpFollows(y.log.ops[i], y.plans[i])
  }

  ghost predicate AllWithin(y: System) {
    forall i :: 0 <= i < |y.plans| ==> WithinLimit(y.plans[i].calls)
  }

  lemma {:induction false} EnterFollows(op: R.Op, p: Plan)
    requires OpFollows(op, p) && op.pending != []
    ensures OpFollows(R.Op(op.spent + {op.pending[0]}, []), p.(made := p.made + 1))
  {
    hide Elems;
    var k := p.made;
    ElemsAdd(p.calls[..k], p.calls[k]);
    assert p.calls[..k] + [p.calls[k]] == p.calls[..k + 1];
  }

  lemma {:induction false} StartFollows(calls: seq<nat>)
    ensures OpFollows(R.Op({}, []), Plan(calls, 0))
  {
  }

  /** Every act, of the operation or of others, keeps plans and log together. */
  lemma {:induction false} ActFollows(y: System, a: Act, lists: iset<seq<nat>>)
    requires Follows(y) && CanAct(y, a, lists)
    ensures Follows(Next(y, a))
  {
    hide Elems, OpFollows;
    var z := Next(y, a);
    match a
    case Start(calls) => StartFollows(calls);
    case Call(i) => CallFollows(y.log.ops[i], y.plans[i]);
    case Enter(i) => EnterFollows(y.log.ops[i], y.plans[i]);
    case Finish(i) =>
      forall j | 0 <= j < |z.plans|
        ensures OpFollows(z.log.ops[j], z.plans[j])
      {
        assert OpFollows(y.log.ops[if j < i then j else j + 1], y.plans[if j < i then j else j + 1]);
      }
    case _ =>
  }

  lemma {:induction false} CallFollows(op: R.Op, p: Plan)
    requires OpFollows(op, p) && p.made < |p.calls|
    ensures OpFollows(op.(pending := [p.calls[p.made]]), p)
  {
  }

  /** An act of a system whose lists are within the limit is a step that the log admits. */
  lemma {:induction false} ActIsAdmitted(y: System, a: Act, lists: iset<seq<nat>>)
    requires Follows(y) && AllWithin(y) && CanAct(y, a, lists)
    ensures R.Enabled(y.log, StepOf(y, a), MAXOPBLOCKS - 1) && R.Enabled(y.log, StepOf(y, a), MAXOPBLOCKS)
  {
    hide Elems;
    if a.Call? {
      var p := y.plans[a.i];
      assert OpFollows(y.log.ops[a.i], p);
      assert CallFits(p.calls, p.made);
      ElemsAdd(p.calls[..p.made], p.calls[p.made]);
      assert p.calls[..p.made] + [p.calls[p.made]] == p.calls[..p.made + 1];
    }
  }

  ghost predicate ListsWithin(lists: iset<seq<nat>>) {
    forall calls :: calls in lists ==> WithinLimit(calls)
  }

  /** A run of operations is a run of the log within its limit. */
  lemma {:induction false} RunIsLogRun(y: System, acts: seq<Act>, z: System, size: nat, lists: iset<seq<nat>>)
      returns (steps: seq<R.Step>)
    requires Runs(y, acts, z, size, lists) && Follows(y) && AllWithin(y) && ListsWithin(lists)
    ensures R.Runs(y.log, steps, z.log, size, MAXOPBLOCKS - 1) && Follows(z) && AllWithin(z)
    decreases |acts|
  {
    hide Follows, WithinLimit, R.Possible, R.Panics, R.Do;
    if acts == [] {
      steps := [];
    } else {
      ActIsAdmitted(y, acts[0], lists);
      ActFollows(y, acts[0], lists);
      var rest := RunIsLogRun(Next(y, acts[0]), acts[1..], z, size, lists);
      steps := [StepOf(y, acts[0])] + rest;
      assert steps[1..] == rest;
    }
  }

  /** Any number of operations whose lists are within the limit, interleaved in any way, never panic. */
  lemma {:induction false} WithinLimitNeverPanics(size: nat, lists: iset<seq<nat>>)
    requires size > LOGSIZE && ListsWithin(lists)
    ensures Safe(size, lists)
  {
    forall acts, y, a {:trigger Runs(IDLE, acts, y, size, lists), CanAct(y, a, lists)}
      | Runs(IDLE, acts, y, size, lists) && CanAct(y, a, lists)
      ensures !R.Panics(y.log, StepOf(y, a), size)
    {
      hide Runs, CanAct, R.Enabled, R.Panics, R.Runs, StepOf, R.Safe, ListsWithin;
      var steps := RunIsLogRun(IDLE, acts, y, size, lists);
      ActIsAdmitted(y, a, lists);
      LogDoesNotPanic(steps, y.log, StepOf(y, a), size);
    }
  }

  lemma {:induction false} LogDoesNotPanic(steps: seq<R.Step>, s: R.State, st: R.Step, size: nat)
    requires size > LOGSIZE && R.Runs(R.INIT, steps, s, size, MAXOPBLOCKS - 1)
    requires R.Enabled(s, st, MAXOPBLOCKS - 1) && R.Enabled(s, st, MAXOPBLOCKS)
    ensures !R.Panics(s, st, size)
  {
    hide R.Enabled, R.Panics, R.Runs;
    R.SafeIffWithinLimit(size, MAXOPBLOCKS - 1);
    assert R.Reachable(s, size, MAXOPBLOCKS - 1);
  }

  // ---------- A list that is not ----------

  /** Every list within the limit, and one more. */
  ghost function Beside(calls: seq<nat>): iset<seq<nat>> {
    iset c | WithinLimit(c) || c == calls
  }

  /** The first call that comes when the reservation is used up. */
  lemma {:induction false} FirstOver(calls: seq<nat>, n: nat) returns (k: nat)
    requires n < |calls| && |Elems(calls[..n])| >= MAXOPBLOCKS
    ensures k <= n && |Elems(calls[..k])| == MAXOPBLOCKS
    ensures forall j :: 0 <= j < k ==> Spends(calls, j) < MAXOPBLOCKS
    decreases n
  {
    hide Elems;
    if n > 0 && |Elems(calls[..n - 1])| >= MAXOPBLOCKS {
      k := FirstOver(calls, n - 1);
    } else {
      assert n > 0 by { NoElems(calls); }
      k := n;
      ElemsAdd(calls[..n - 1], calls[n - 1]);
      assert calls[..n - 1] + [calls[n - 1]] == calls[..n];
      R.OneMoreIn(Elems(calls[..n - 1]), calls[n - 1]);
      forall j | 0 <= j < k
        ensures Spends(calls, j) < MAXOPBLOCKS
      {
        PrefixElems(calls, j, n - 1);
      }
    }
  }

  lemma {:induction false} NoElems(calls: seq<nat>)
    ensures Elems(calls[..0]) == {}
  {
  }

  ghost function Spends(calls: seq<nat>, j: nat): nat
    requires j <= |calls|
  {
    |Elems(calls[..j])|
  }

  lemma {:induction false} SomeCallIsOver(calls: seq<nat>) returns (k: nat)
    requires !WithinLimit(calls)
    ensures k < |calls| && |Elems(calls[..k])| == MAXOPBLOCKS
    ensures forall j :: 0 <= j < k ==> Spends(calls, j) < MAXOPBLOCKS
  {
    hide Elems;
    var n :| 0 <= n < |calls| && !CallFits(calls, n);
    ElemsAdd(calls[..n], calls[n]);
    assert calls[..n] + [calls[n]] == calls[..n + 1];
    R.OneMoreIn(Elems(calls[..n]), calls[n]);
    k := FirstOver(calls, n);
  }

  /** Operation i has made m calls, and the log holds these as well. */
  ghost predicate Made(y: System, z: System, i: nat, m: nat) {
    && i < |y.plans| == |y.log.ops| && m <= |y.plans[i].calls|
    && z.plans == y.plans[i := Plan(y.plans[i].calls, m)]
    && z.log == R.State(z.log.lh, y.log.outstanding, y.log.committing, y.log.ops[i := R.Op(Elems(y.plans[i].calls[..m]), [])])
    && Distinct(z.log.lh) && Elems(z.log.lh) == Elems(y.log.lh) + Elems(y.plans[i].calls[..m])
  }

  lemma {:induction false} MadeNone(y: System, i: nat)
    requires i < |y.plans| == |y.log.ops| && y.plans[i].made == 0 && y.log.ops[i] == R.Op({}, []) && Distinct(y.log.lh)
    ensures Made(y, y, i, 0)
  {
    NoElems(y.plans[i].calls);
  }

  lemma {:induction false} OneCall(y: System, z: System, i: nat, m: nat, size: nat, lists: iset<seq<nat>>)
      returns (acts: seq<Act>, u: System)
    requires Made(y, z, i, m) && m < |y.plans[i].calls| && size > LOGSIZE
    requires y.log.outstanding >= 1 && |z.log.lh| < LOGSIZE
    ensures Runs(z, acts, u, size, lists) && Made(y, u, i, m + 1)
  {
    hide Elems;
    var c := y.plans[i].calls;
    var mid := Next(z, Call(i));
    u := Next(mid, Enter(i));
    acts := [Call(i), Enter(i)];
    assert acts[1..] == [Enter(i)] && [Enter(i)][1..] == [];
    assert Runs(mid, [Enter(i)], u, size, lists);
    ElemsAdd(c[..m], c[m]);
    assert c[..m] + [c[m]] == c[..m + 1];
    ElemsAdd(z.log.lh, c[m]);
    InElems(z.log.lh, c[m]);
    assert u.log.ops == y.log.ops[i := R.Op(Elems(c[..m + 1]), [])];
  }

  lemma {:induction false} InElems(s: seq<nat>, x: nat)
    ensures x in s <==> x in Elems(s)
  {
  }

  lemma {:induction false} CardDistinct(s: seq<nat>)
    requires Distinct(s)
    ensures |Elems(s)| == |s|
    decreases |s|
  {
    if |s| > 0 {
      var n := |s| - 1;
      CardDistinct(s[..n]);
      ElemsAdd(s[..n], s[n]);
      assert s[..n] + [s[n]] == s;
      assert s[n] !in Elems(s[..n]);
    } else {
      assert Elems(s) == {};
    }
  }

  lemma {:induction false} RunsOn(y: System, a: seq<Act>, m: System, b: seq<Act>, z: System, size: nat, lists: iset<seq<nat>>)
    requires Runs(y, a, m, size, lists) && Runs(m, b, z, size, lists)
    ensures Runs(y, a + b, z, size, lists)
    decreases |a|
  {
    hide Next, R.Panics, StepOf, R.Possible;
    if a == [] {
      assert a + b == b;
    } else {
      RunsOn(Next(y, a[0]), a[1..], m, b, z, size, lists);
      assert (a + b)[1..] == a[1..] + b;
    }
  }

  /** An operation makes its first m calls, as long as the log has room. */
  lemma {:induction false} MakeCalls(y: System, i: nat, m: nat, used: nat, size: nat, lists: iset<seq<nat>>)
      returns (acts: seq<Act>, z: System)
    requires i < |y.plans| == |y.log.ops| && y.plans[i].made == 0 && y.log.ops[i] == R.Op({}, []) && Distinct(y.log.lh)
    requires m <= |y.plans[i].calls| && y.log.outstanding >= 1 && size > LOGSIZE && |y.log.lh| == used
    requires forall j :: 0 <= j < m ==> used + Spends(y.plans[i].calls, j) < LOGSIZE
    ensures Runs(y, acts, z, size, lists) && Made(y, z, i, m)
    decreases m
  {
    hide Runs, Made, Elems;
    if m == 0 {
      acts, z := [], y;
      MadeNone(y, i);
      assert Runs(y, [], y, size, lists) by { NoActs(y, size, lists); }
    } else {
      var before, mid := MakeCalls(y, i, m - 1, used, size, lists);
      assert |mid.log.lh| < LOGSIZE by { MadeFits(y, mid, i, m - 1); }
      var one;
      one, z := OneCall(y, mid, i, m - 1, size, lists);
      RunsOn(y, before, mid, one, z, size, lists);
      acts := before + one;
    }
  }

  lemma {:induction false} NoActs(y: System, size: nat, lists: iset<seq<nat>>)
    ensures Runs(y, [], y, size, lists)
  {
  }

  lemma {:induction false} MadeFits(y: System, z: System, i: nat, m: nat)
    requires Made(y, z, i, m) && Distinct(y.log.lh)
    ensures |z.log.lh| <= |y.log.lh| + Spends(y.plans[i].calls, m)
  {
    hide Elems;
    CardDistinct(z.log.lh);
    CardDistinct(y.log.lh);
    CardUnion(Elems(y.log.lh), Elems(y.plans[i].calls[..m]));
  }

  /** A number above all blocks of a list. */
  ghost function Above(calls: seq<nat>): (n: nat)
    ensures forall i :: 0 <= i < |calls| ==> calls[i] < n
  {
    if calls == [] then 0
    else
      var n := Above(calls[..|calls| - 1]);
      if n > calls[|calls| - 1] then n else calls[|calls| - 1] + 1
  }

  /** A full reservation of blocks from a number on. */
  lemma {:induction false} RangeIsWithin(from: nat)
    ensures WithinLimit(R.Range(from, MAXOPBLOCKS)) && |Elems(R.Range(from, MAXOPBLOCKS))| == MAXOPBLOCKS
    ensures forall j :: 0 <= j <= MAXOPBLOCKS ==> Spends(R.Range(from, MAXOPBLOCKS), j) == j
    ensures forall x :: x in Elems(R.Range(from, MAXOPBLOCKS)) <==> from <= x < from + MAXOPBLOCKS
  {
    hide R.Range;
    var r := R.Range(from, MAXOPBLOCKS);
    forall j | 0 <= j <= MAXOPBLOCKS
      ensures Spends(r, j) == j
    {
      CardDistinct(r[..j]);
    }
    assert r[..MAXOPBLOCKS] == r && Spends(r, MAXOPBLOCKS) == MAXOPBLOCKS;
    forall k | 0 <= k < |r|
      ensures CallFits(r, k)
    {
      assert Spends(r, k) == k && Spends(r, k + 1) == k + 1;
    }
    forall x | from <= x < from + MAXOPBLOCKS
      ensures x in Elems(r)
    {
      assert r[x - from] == x;
    }
  }

  /** Three operations are admitted to an idle log. */
  lemma {:induction false} StartThree(a: seq<nat>, b: seq<nat>, c: seq<nat>, size: nat, lists: iset<seq<nat>>)
    requires a in lists && b in lists && c in lists
    ensures Runs(IDLE, [Start(a), Start(b), Start(c)], Three(a, b, c), size, lists)
  {
    var y1, y2 := Next(IDLE, Start(a)), Next(Next(IDLE, Start(a)), Start(b));
    var acts := [Start(a), Start(b), Start(c)];
    assert acts[1..] == [Start(b), Start(c)] && [Start(b), Start(c)][1..] == [Start(c)] && [Start(c)][1..] == [];
    assert Next(y2, Start(c)) == Three(a, b, c);
    assert Runs(y2, [Start(c)], Three(a, b, c), size, lists);
    assert Runs(y1, [Start(b), Start(c)], Three(a, b, c), size, lists);
  }

  ghost function Three(a: seq<nat>, b: seq<nat>, c: seq<nat>): System {
    System(R.State([], 3, false, [R.Op({}, []), R.Op({}, []), R.Op({}, [])]), [Plan(a, 0), Plan(b, 0), Plan(c, 0)])
  }

  /** Two operations use up their reservations, and the third its own before its last call. */
  lemma {:induction false} FillTheLog(calls: seq<nat>, k: nat, size: nat, lists: iset<seq<nat>>)
      returns (acts: seq<Act>, y: System)
    requires size > LOGSIZE && k < |calls| && |Elems(calls[..k])| == MAXOPBLOCKS
    requires forall j :: 0 <= j < k ==> Spends(calls, j) < MAXOPBLOCKS
    requires var n := Above(calls);
      R.Range(n, MAXOPBLOCKS) in lists && R.Range(n + MAXOPBLOCKS, MAXOPBLOCKS) in lists && calls in lists
    ensures Runs(IDLE, acts, y, size, lists) && |y.log.lh| == LOGSIZE
    ensures |y.plans| == |y.log.ops| == 3 && y.plans[2] == Plan(calls, k) && y.log.ops[2].pending == []
  {
    hide Runs, Elems, R.Range, Above;
    var n := Above(calls);
    var a, b := R.Range(n, MAXOPBLOCKS), R.Range(n + MAXOPBLOCKS, MAXOPBLOCKS);
    RangeIsWithin(n);
    RangeIsWithin(n + MAXOPBLOCKS);
    StartThree(a, b, calls, size, lists);
    var y0 := Three(a, b, calls);
    var p0, y1 := MakeCalls(y0, 0, MAXOPBLOCKS, 0, size, lists);
    assert a[..MAXOPBLOCKS] == a && b[..MAXOPBLOCKS] == b;
    assert Elems(y0.log.lh) == {} by { NoElems(y0.log.lh); assert y0.log.lh[..0] == y0.log.lh; }
    CardDistinct(y1.log.lh);
    assert {} + Elems(a) == Elems(a);
    assert |y1.log.lh| == MAXOPBLOCKS;
    var p1, y2 := MakeCalls(y1, 1, MAXOPBLOCKS, MAXOPBLOCKS, size, lists);
    CardDistinct(y2.log.lh);
    CardDisjoint(Elems(a), Elems(b));
    assert |y2.log.lh| == 2 * MAXOPBLOCKS;
    var p2;
    p2, y := MakeCalls(y2, 2, k, 2 * MAXOPBLOCKS, size, lists);
    CardDistinct(y.log.lh);
    BelowAbove(calls, k);
    CardDisjoint(Elems(a) + Elems(b), Elems(calls[..k]));
    acts := [Start(a), Start(b), Start(calls)];
    RunsOn(IDLE, acts, y0, p0, y1, size, lists);
    RunsOn(IDLE, acts + p0, y1, p1, y2, size, lists);
    RunsOn(IDLE, acts + p0 + p1, y2, p2, y, size, lists);
    acts := acts + p0 + p1 + p2;
  }

  lemma {:induction false} BelowAbove(calls: seq<nat>, k: nat)
    requires k <= |calls|
    ensures forall x :: x in Elems(calls[..k]) ==> x < Above(calls)
  {
    hide Above;
  }

  /** A call that comes when the reservation is used up can find the log full. */
  lemma {:induction false} OverTheLimitPanics(size: nat, calls: seq<nat>)
    requires size > LOGSIZE && !WithinLimit(calls)
    ensures !Safe(size, Beside(calls))
  {
    hide Runs, Elems, R.Range, Above;
    var n := Above(calls);
    RangeIsWithin(n);
    RangeIsWithin(n + MAXOPBLOCKS);
    var k := SomeCallIsOver(calls);
    var acts, y := FillTheLog(calls, k, size, Beside(calls));
    assert CanAct(y, Call(2), Beside(calls));
  }

  /**
    A list of calls can be made beside any operations that keep the limit, without a panic in any run, if
    and only if it keeps the limit itself.
   */
  lemma {:induction false} SafeBesideIff(size: nat, calls: seq<nat>)
    requires size > LOGSIZE
    ensures Safe(size, Beside(calls)) <==> WithinLimit(calls)
  {
    hide Safe, WithinLimit;
    if WithinLimit(calls) {
      WithinLimitNeverPanics(size, Beside(calls));
    } else {
      OverTheLimitPanics(size, calls);
    }
  }
}
