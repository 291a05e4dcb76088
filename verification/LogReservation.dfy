/**
  Log space under concurrency (begin_op, log_write, end_op): a step system in which any number of
  file system operations interleave at the granularity of log.lock. log_write is two steps, since
  its panic checks read log.lh.n and log.outstanding before it takes the lock.
 */
module LogReservation {
  import opened Common
  import opened Params

  /** An operation between begin_op and end_op: the distinct blocks it has logged, and the block of
      a log_write that has passed its checks but has not taken the lock. */
  datatype Op = Op(spent: set<nat>, pending: seq<nat>)

  /** `lh` is log.lh.block[..log.lh.n]; `ops` are the outstanding operations. */
  datatype State = State(lh: seq<nat>, outstanding: int, committing: bool, ops: seq<Op>)

  datatype Step =
    | Begin                    // begin_op finds room
    | Check(i: nat, b: nat)    // log_write, up to acquire
    | Record(i: nat)           // log_write, under the lock
    | End(i: nat)              // end_op, up to release
    | Clear                    // commit sets log.lh.n to 0
    | Done                     // end_op resets log.committing

  const INIT := State([], 0, false, [])

  /** Operation i can come to the step. */
  predicate Possible(s: State, st: Step) {
    match st
    case Begin => !s.committing && |s.lh| + (s.outstanding + 1) * MAXOPBLOCKS <= LOGSIZE
    case Check(i, b) => i < |s.ops| && s.ops[i].pending == []
    case Record(i) => i < |s.ops| && s.ops[i].pending != []
    case End(i) => i < |s.ops| && s.ops[i].pending == []
    case Clear => s.committing
    case Done => s.committing && s.lh == []
  }

  /** Operation i may take the step. `limit` is the discipline of the callers: log_write is only
      called with at most `limit` distinct blocks logged so far, and never takes an operation over
      MAXOPBLOCKS distinct blocks. */
  predicate Enabled(s: State, st: Step, limit: nat) {
    && Possible(s, st)
    && (st.Check? ==> |s.ops[st.i].spent| <= limit && |s.ops[st.i].spent + {st.b}| <= MAXOPBLOCKS)
  }

  /** The panics of log_write and end_op, and an index past log.lh.block. */
  predicate Panics(s: State, st: Step, size: nat) {
    match st
    case Check(_, _) => |s.lh| >= LOGSIZE || |s.lh| >= size - 1 || s.outstanding < 1
    case Record(i) => i < |s.ops| && s.ops[i].pending != [] && s.ops[i].pending[0] !in s.lh && |s.lh| >= LOGSIZE
    case End(_) => s.committing
    case _ => false
  }

  function Do(s: State, st: Step): (t: State)
    requires Possible(s, st)
  {
    match st
    case Begin => s.(outstanding := s.outstanding + 1, ops := s.ops + [Op({}, [])])
    case Check(i, b) => s.(ops := s.ops[i := s.ops[i].(pending := [b])])
    case Record(i) =>
      var b := s.ops[i].pending[0];
      s.(lh := if b in s.lh then s.lh else s.lh + [b],
         ops := s.ops[i := Op(s.ops[i].spent + {b}, [])])
    case End(i) =>
      s.(outstanding := s.outstanding - 1, committing := s.outstanding == 1, ops := s.ops[..i] + s.ops[i + 1..])
    case Clear => s.(lh := [])
    case Done => s.(committing := false)
  }

  /** A run that respects the discipline and has not panicked. */
  ghost predicate Runs(s: State, steps: seq<Step>, t: State, size: nat, limit: nat)
    decreases |steps|
  {
    if steps == [] then s == t
    else
      && Enabled(s, steps[0], limit) && Enabled(s, steps[0], MAXOPBLOCKS) && !Panics(s, steps[0], size)
      && Runs(Do(s, steps[0]), steps[1..], t, size, limit)
  }

  ghost predicate Reachable(s: State, size: nat, limit: nat) {
    exists steps :: Runs(INIT, steps, s, size, limit)
  }

  // ---------- The invariant ----------

  /** The log space outstanding operations may still use. */
  function Allowance(ops: seq<Op>): int {
    if ops == [] then 0 else Allowance(ops[..|ops| - 1]) + MAXOPBLOCKS - |ops[|ops| - 1].spent|
  }

  /** What an operation has logged is in the log, and a checked log_write stays within its limit. */
  ghost predicate OpInv(op: Op, h: seq<nat>) {
    && |op.spent| <= MAXOPBLOCKS
    && (forall b :: b in op.spent ==> b in h)
    && |op.pending| <= 1
    && (op.pending != [] ==> |op.spent + {op.pending[0]}| <= MAXOPBLOCKS)
  }

  ghost predicate Inv(s: State) {
    && s.outstanding == |s.ops|
    && Distinct(s.lh)
    && (forall i :: 0 <= i < |s.ops| ==> OpInv(s.ops[i], s.lh))
    && |s.lh| + Allowance(s.ops) <= LOGSIZE
    && (s.committing ==> s.ops == [])
    && (s.ops == [] && !s.committing ==> s.lh == [])
  }

  lemma {:induction false} AllowanceBounds(ops: seq<Op>, h: seq<nat>)
    requires forall i :: 0 <= i < |ops| ==> OpInv(ops[i], h)
    ensures 0 <= Allowance(ops) <= |ops| * MAXOPBLOCKS
  {
    if ops != [] {
      AllowanceBounds(ops[..|ops| - 1], h);
    }
  }

  lemma {:induction false} AllowanceUpdate(ops: seq<Op>, i: nat, op: Op)
    requires i < |ops|
    ensures Allowance(ops[i := op]) == Allowance(ops) + |ops[i].spent| - |op.spent|
  {
    var n := |ops| - 1;
    if i < n {
      AllowanceUpdate(ops[..n], i, op);
      assert ops[i := op][..n] == ops[..n][i := op];
    } else {
      assert ops[i := op][..n] == ops[..n];
    }
  }

  lemma {:induction false} AllowanceRemove(ops: seq<Op>, i: nat)
    requires i < |ops|
    ensures Allowance(ops[..i] + ops[i + 1..]) == Allowance(ops) - MAXOPBLOCKS + |ops[i].spent|
  {
    var n := |ops| - 1;
    var rest := ops[..i] + ops[i + 1..];
    if i < n {
      AllowanceRemove(ops[..n], i);
      assert rest[..n - 1] == ops[..n][..i] + ops[..n][i + 1..];
    } else {
      assert rest == ops[..n];
    }
  }

  /** An operation that has not used up its limit leaves room in the log for it. */
  lemma {:induction false} RoomFor(ops: seq<Op>, h: seq<nat>, i: nat)
    requires i < |ops|
    requires forall k :: 0 <= k < |ops| ==> OpInv(ops[k], h)
    ensures Allowance(ops) >= MAXOPBLOCKS - |ops[i].spent|
  {
    AllowanceRemove(ops, i);
    AllowanceBounds(ops[..i] + ops[i + 1..], h);
  }

  lemma {:induction false} RecordKeepsInv(s: State, i: nat)
    requires Inv(s) && Enabled(s, Record(i), MAXOPBLOCKS)
    ensures !Panics(s, Record(i), LOGSIZE + 1)
    ensures Inv(Do(s, Record(i)))
  {
    var op := s.ops[i];
    var b := op.pending[0];
    var t := Do(s, Record(i));
    assert OpInv(op, s.lh);
    AllowanceUpdate(s.ops, i, Op(op.spent + {b}, []));
    RoomFor(s.ops, s.lh, i);
    forall k | 0 <= k < |t.ops|
      ensures OpInv(t.ops[k], t.lh)
    {
      assert OpInv(s.ops[k], s.lh);
    }
  }

  lemma {:induction false} EndKeepsInv(s: State, i: nat)
    requires Inv(s) && Enabled(s, End(i), MAXOPBLOCKS)
    ensures !Panics(s, End(i), LOGSIZE + 1)
    ensures Inv(Do(s, End(i)))
  {
    AllowanceRemove(s.ops, i);
    assert OpInv(s.ops[i], s.lh);
  }

  /** Every step that is taken keeps the invariant, and only log_write's unlocked check can panic. */
  lemma {:induction false} StepKeepsInv(s: State, st: Step, size: nat, limit: nat)
    requires Inv(s) && Enabled(s, st, limit) && Enabled(s, st, MAXOPBLOCKS)
    ensures Inv(Do(s, st))
    ensures Panics(s, st, size) ==> st.Check?
  {
    match st
    case Begin =>
      var t := Do(s, st);
      assert t.ops[..|s.ops|] == s.ops;
      AllowanceBounds(s.ops, s.lh);
    case Check(i, b) =>
      AllowanceUpdate(s.ops, i, s.ops[i].(pending := [b]));
      assert OpInv(s.ops[i], s.lh);
    case Record(i) => RecordKeepsInv(s, i);
    case End(i) => EndKeepsInv(s, i);
    case Clear =>
    case Done =>
  }

  /** The reservation invariant over every interleaving. */
  lemma {:induction false} RunKeepsInv(s: State, steps: seq<Step>, t: State, size: nat, limit: nat)
    requires Inv(s) && Runs(s, steps, t, size, limit)
    ensures Inv(t)
    decreases |steps|
  {
    if steps != [] {
      StepKeepsInv(s, steps[0], size, limit);
      RunKeepsInv(Do(s, steps[0]), steps[1..], t, size, limit);
    }
  }

  /** Over all runs: log.lh.n plus the unspent allowance stays within LOGSIZE, logged block numbers
      are distinct, a commit runs only with nothing outstanding, and an idle log is empty. */
  lemma {:induction false} ReservationHolds(s: State, size: nat, limit: nat)
    requires Reachable(s, size, limit)
    ensures |s.lh| + Allowance(s.ops) <= LOGSIZE
    ensures Distinct(s.lh)
    ensures s.committing ==> s.outstanding == 0
    ensures s.outstanding == 0 && !s.committing ==> s.lh == []
  {
    var steps :| Runs(INIT, steps, s, size, limit);
    RunKeepsInv(INIT, steps, s, size, limit);
  }

  /** end_op never finds a commit in progress, log_write never runs past log.lh.block, and the only
      panic left is log_write's check of a log that is full. */
  lemma {:induction false} OnlyFullLogPanics(s: State, st: Step, size: nat, limit: nat)
    requires Reachable(s, size, limit) && Enabled(s, st, limit) && Enabled(s, st, MAXOPBLOCKS)
    ensures Panics(s, st, size) <==> st.Check? && (|s.lh| == LOGSIZE || |s.lh| >= size - 1)
    ensures Panics(s, st, size) && size > LOGSIZE ==>
              forall k :: 0 <= k < |s.ops| ==> |s.ops[k].spent| == MAXOPBLOCKS
  {
    var steps :| Runs(INIT, steps, s, size, limit);
    RunKeepsInv(INIT, steps, s, size, limit);
    StepKeepsInv(s, st, size, limit);
    AllowanceBounds(s.ops, s.lh);
    forall k | 0 <= k < |s.ops|
      ensures Allowance(s.ops) >= MAXOPBLOCKS - |s.ops[k].spent| && |s.ops[k].spent| <= MAXOPBLOCKS
    {
      RoomFor(s.ops, s.lh, k);
      assert OpInv(s.ops[k], s.lh);
    }
  }

  // ---------- Exactly when no run panics ----------

  /** After the last operation ends, the commit empties the log and the next operations find it as at the
      start. */
  lemma {:induction false} CommitStartsOver(s: State)
    requires Inv(s) && |s.ops| == 1 && s.ops[0].pending == []
    ensures Possible(s, End(0))
    ensures var ended := Do(s, End(0));
      && ended.committing && ended.lh == s.lh && !Possible(ended, Begin) && Possible(ended, Clear)
      && Possible(Do(ended, Clear), Done) && Do(Do(ended, Clear), Done) == INIT
  {
  }


  ghost predicate Safe(size: nat, limit: nat) {
    forall s, st {:trigger Reachable(s, size, limit), Panics(s, st, size)} ::
      Reachable(s, size, limit) && Enabled(s, st, limit) && Enabled(s, st, MAXOPBLOCKS) ==> !Panics(s, st, size)
  }

  /** The blocks from .. from+count-1, as a sequence and as a set. */
  function Range(from: nat, count: nat): (r: seq<nat>)
    ensures |r| == count && forall i :: 0 <= i < count ==> r[i] == from + i
  {
    seq(count, i requires 0 <= i => from + i)
  }

  function RangeSet(from: nat, count: nat): (r: set<nat>)
    ensures forall b :: b in r <==> from <= b < from + count
    ensures |r| == count
  {
    if count == 0 then {} else RangeSet(from, count - 1) + {from + count - 1}
  }

  /** Operation i logs one more fresh block. */
  lemma {:induction false} LogOne(s: State, i: nat, b: nat, size: nat)
    requires i < |s.ops| && s.ops[i].pending == [] && s.outstanding >= 1
    requires |s.ops[i].spent| < MAXOPBLOCKS && |s.lh| < LOGSIZE && |s.lh| < size - 1
    requires b !in s.lh && b !in s.ops[i].spent
    ensures Runs(s, [Check(i, b), Record(i)],
                 s.(lh := s.lh + [b], ops := s.ops[i := Op(s.ops[i].spent + {b}, [])]), size, MAXOPBLOCKS - 1)
  {
    var m := Do(s, Check(i, b));
    assert m.ops[i] == Op(s.ops[i].spent, [b]);
    var t := Do(m, Record(i));
    assert t.ops == s.ops[i := Op(s.ops[i].spent + {b}, [])];
    TwoSteps(s, Check(i, b), Record(i), size, MAXOPBLOCKS - 1);
  }

  /** The state once operation i has logged the blocks from .. from+count-1. */
  function Logged(s: State, i: nat, from: nat, count: nat): State
    requires i < |s.ops|
  {
    s.(lh := s.lh + Range(from, count), ops := s.ops[i := Op(RangeSet(from, count), [])])
  }

  lemma {:induction false} LoggedNext(s: State, i: nat, from: nat, count: nat)
    requires i < |s.ops| && forall b :: b in s.lh ==> b < from
    ensures var m, b := Logged(s, i, from, count), from + count;
      && Logged(s, i, from, count + 1) == m.(lh := m.lh + [b], ops := m.ops[i := Op(m.ops[i].spent + {b}, [])])
      && b !in m.lh && b !in m.ops[i].spent && |m.ops[i].spent| == count
  {
    var m, t, b := Logged(s, i, from, count), Logged(s, i, from, count + 1), from + count;
    assert m.lh + [b] == t.lh;
    assert m.ops[i := Op(m.ops[i].spent + {b}, [])] == t.ops;
  }

  lemma {:induction false} LoggedNone(s: State, i: nat, from: nat, size: nat)
    requires i < |s.ops| && s.ops[i] == Op({}, [])
    ensures Runs(s, [], Logged(s, i, from, 0), size, MAXOPBLOCKS - 1)
  {
    assert s.ops[i := Op({}, [])] == s.ops;
    assert s.lh + Range(from, 0) == s.lh;
  }

  lemma {:induction false} LogRange(s: State, i: nat, from: nat, count: nat, size: nat) returns (steps: seq<Step>)
    requires i < |s.ops| && s.ops[i] == Op({}, []) && s.outstanding >= 1
    requires count <= MAXOPBLOCKS && |s.lh| + count <= LOGSIZE && (count > 0 ==> |s.lh| + count <= size - 1)
    requires forall b :: b in s.lh ==> b < from
    ensures Runs(s, steps, Logged(s, i, from, count), size, MAXOPBLOCKS - 1)
  {
    hide Runs, RangeSet, Range;
    if count == 0 {
      steps := [];
      LoggedNone(s, i, from, size);
    } else {
      var m, b := Logged(s, i, from, count - 1), from + count - 1;
      LoggedNext(s, i, from, count - 1);
      assert |m.lh| == |s.lh| + count - 1 && m.ops[i].pending == [] && i < |m.ops| && m.outstanding == s.outstanding;
      var before := LogRange(s, i, from, count - 1, size);
      LogOne(m, i, b, size);
      RunsConcat(s, before, m, [Check(i, b), Record(i)], Logged(s, i, from, count), size, MAXOPBLOCKS - 1);
      steps := before + [Check(i, b), Record(i)];
    }
  }

  lemma {:induction false} TwoSteps(s: State, a: Step, b: Step, size: nat, limit: nat)
    requires Enabled(s, a, limit) && Enabled(s, a, MAXOPBLOCKS) && !Panics(s, a, size)
    requires Enabled(Do(s, a), b, limit) && Enabled(Do(s, a), b, MAXOPBLOCKS) && !Panics(Do(s, a), b, size)
    ensures Runs(s, [a, b], Do(Do(s, a), b), size, limit)
  {
    assert [a, b][1..] == [b] && [b][1..] == [];
    assert Runs(Do(s, a), [b], Do(Do(s, a), b), size, limit);
  }

  lemma {:induction false} RunsConcat(s: State, a: seq<Step>, m: State, b: seq<Step>, t: State, size: nat, limit: nat)
    requires Runs(s, a, m, size, limit) && Runs(m, b, t, size, limit)
    ensures Runs(s, a + b, t, size, limit)
    decreases |a|
  {
    if a == [] {
      assert a + b == b;
    } else {
      RunsConcat(Do(s, a[0]), a[1..], m, b, t, size, limit);
      assert (a + b)[1..] == a[1..] + b;
    }
  }

  lemma {:induction false} WiderLimit(s: State, steps: seq<Step>, t: State, size: nat, limit: nat, limit': nat)
    requires limit <= limit' && Runs(s, steps, t, size, limit)
    ensures Runs(s, steps, t, size, limit')
    decreases |steps|
  {
    if steps != [] {
      WiderLimit(Do(s, steps[0]), steps[1..], t, size, limit, limit');
    }
  }

  function ThreeOps(h: seq<nat>, a: nat, b: nat, c: nat): State {
    State(h, 3, false, [Op(RangeSet(0, a), []), Op(RangeSet(10, b), []), Op(RangeSet(20, c), [])])
  }

  /** Three operations can be admitted to an empty log. */
  lemma {:induction false} AdmitThree(size: nat)
    ensures Runs(INIT, [Begin, Begin] + [Begin], State([], 3, false, [Op({}, []), Op({}, []), Op({}, [])]), size, MAXOPBLOCKS - 1)
  {
    var k := MAXOPBLOCKS - 1;
    var s2 := State([], 2, false, [Op({}, []), Op({}, [])]);
    var s3 := State([], 3, false, [Op({}, []), Op({}, []), Op({}, [])]);
    assert Do(Do(INIT, Begin), Begin) == s2 && Do(s2, Begin) == s3;
    TwoSteps(INIT, Begin, Begin, size, k);
    assert [Begin][1..] == [];
    assert Runs(s2, [Begin], s3, size, k);
    RunsConcat(INIT, [Begin, Begin], s2, [Begin], s3, size, k);
  }

  /** The share of operation i when three operations fill a log in turn. */
  function Share(fill: nat, i: nat): nat {
    if fill <= 10 * i then 0 else if fill < 10 * i + 10 then fill - 10 * i else 10
  }

  function Filled(fill: nat): State {
    ThreeOps(Range(0, fill), Share(fill, 0), Share(fill, 1), Share(fill, 2))
  }

  /** Together they can fill any part of it, each within its limit. */
  lemma {:induction false} FillLog(fill: nat, size: nat) returns (steps: seq<Step>)
    requires fill <= LOGSIZE && (fill > 0 ==> fill <= size - 1)
    ensures Runs(INIT, steps, Filled(fill), size, MAXOPBLOCKS - 1)
  {
    hide Runs, RangeSet, Do;
    var k := MAXOPBLOCKS - 1;
    AdmitThree(size);
    var s3 := State([], 3, false, [Op({}, []), Op({}, []), Op({}, [])]);
    steps := [Begin, Begin] + [Begin];
    var t0 := Logged(s3, 0, 0, Share(fill, 0));
    var t1 := Logged(t0, 1, 10, Share(fill, 1));
    var t2 := Logged(t1, 2, 20, Share(fill, 2));
    var p0 := LogRange(s3, 0, 0, Share(fill, 0), size);
    var p1 := LogRange(t0, 1, 10, Share(fill, 1), size);
    var p2 := LogRange(t1, 2, 20, Share(fill, 2), size);
    assert t2.lh == Range(0, fill);
    assert t2.ops == Filled(fill).ops;
    RunsConcat(INIT, steps, s3, p0, t0, size, k);
    RunsConcat(INIT, steps + p0, t0, p1, t1, size, k);
    RunsConcat(INIT, steps + p0 + p1, t1, p2, t2, size, k);
    steps := steps + p0 + p1 + p2;
  }

  lemma {:induction false} Unsafe(steps: seq<Step>, s: State, st: Step, size: nat, limit: nat)
    requires Runs(INIT, steps, s, size, limit)
    requires Enabled(s, st, limit) && Enabled(s, st, MAXOPBLOCKS) && Panics(s, st, size)
    ensures !Safe(size, limit)
  {
    assert Reachable(s, size, limit);
  }

  /** Logging a block again panics when the log is full: the check comes before absorption. */
  lemma {:induction false} RelogPanics(size: nat, limit: nat)
    requires size > LOGSIZE && limit >= MAXOPBLOCKS
    ensures !Safe(size, limit)
  {
    hide Runs, RangeSet, Safe, Range;
    var steps := FillLog(LOGSIZE, size);
    var s := Filled(LOGSIZE);
    WiderLimit(INIT, steps, s, size, MAXOPBLOCKS - 1, limit);
    assert s.ops[0].spent + {0} == s.ops[0].spent;
    Unsafe(steps, s, Check(0, 0), size, limit);
  }

  /** A log without a block for each of LOGSIZE entries besides the header can run out. */
  lemma {:induction false} SmallLogPanics(size: nat)
    requires size <= LOGSIZE
    ensures !Safe(size, MAXOPBLOCKS - 1)
  {
    hide Runs, RangeSet, Safe, Range;
    var fill := if size == 0 then 0 else size - 1;
    var steps := FillLog(fill, size);
    var s := Filled(fill);
    var i := fill / 10;
    assert |s.ops[i].spent| == fill - 10 * i;
    assert |s.ops[i].spent + {fill}| <= MAXOPBLOCKS by { OneMoreIn(s.ops[i].spent, fill); }
    Unsafe(steps, s, Check(i, fill), size, MAXOPBLOCKS - 1);
  }

  lemma {:induction false} OneMoreIn(s: set<nat>, b: nat)
    ensures |s + {b}| <= |s| + 1
  {
    if b in s {
      assert s + {b} == s;
    }
  }

  lemma {:induction false} WithinLimitIsSafe(size: nat, limit: nat)
    requires size > LOGSIZE && limit < MAXOPBLOCKS
    ensures Safe(size, limit)
  {
    forall s, st {:trigger Reachable(s, size, limit), Panics(s, st, size)}
      | Reachable(s, size, limit) && Enabled(s, st, limit) && Enabled(s, st, MAXOPBLOCKS)
      ensures !Panics(s, st, size)
    {
      hide Reachable;
      OnlyFullLogPanics(s, st, size, limit);
    }
  }

  /** With room for LOGSIZE blocks after the header, no run panics if and only if operations stop
      calling log_write once they have logged MAXOPBLOCKS distinct blocks. */
  lemma {:induction false} SafeIffWithinLimit(size: nat, limit: nat)
    requires size > LOGSIZE
    ensures Safe(size, limit) <==> limit < MAXOPBLOCKS
  {
    hide Safe;
    if limit < MAXOPBLOCKS {
      WithinLimitIsSafe(size, limit);
    } else {
      RelogPanics(size, limit);
    }
  }

  /** Operations within their limit never panic if and only if the log has a block for each of
      LOGSIZE entries besides the header; a log of LOGSIZE blocks in all is one too small. */
  lemma {:induction false} SafeIffLogLargeEnough(size: nat)
    ensures Safe(size, MAXOPBLOCKS - 1) <==> size > LOGSIZE
  {
    hide Safe;
    if size > LOGSIZE {
      WithinLimitIsSafe(size, MAXOPBLOCKS - 1);
    } else {
      SmallLogPanics(size);
    }
  }
}
