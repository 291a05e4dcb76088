/**
  What one call of pipewrite or piperead does, among all the others: the bytes a write stores are its own,
  in order, whatever else is stored in between, and a read takes no more than it asked for.
 */
module PipeCalls {
  import opened Blocks
  import opened Pipe
  import opened PipeSystem

  /** Every call made so far; which call each process made last (-1: none); and, for every byte that went
      into the pipe and every byte that came out, the call that moved it. */
  datatype Book = Book(calls: seq<Step>, cur: seq<int>, wtag: seq<int>, rtag: seq<int>)

  predicate IsCall(st: Step) {
    st.CallWrite? || st.CallRead? || st.CallClose?
  }

  function Copies(n: int, k: int): (r: seq<int>) {
    if n <= 0 then [] else seq(n, _ => k)
  }

  /** The bytes a step moves are its process's last call's. */
  function Note(b: Book, s: State, st: Step): (r: Book)
    requires Enabled(s, st) && |s.ring.data| == PIPESIZE && |b.cur| == |s.procs|
  {
    if IsCall(st) then b.(calls := b.calls + [st], cur := b.cur[st.p := |b.calls|])
    else if st.Act? then
      var t := Do(s, st);
      b.(wtag := b.wtag + Copies(|t.written| - |s.written|, b.cur[st.p]),
         rtag := b.rtag + Copies(|t.read| - |s.read|, b.cur[st.p]))
    else b
  }

  /** The bytes with a given tag, in order. */
  ghost function Select(bytes: seq<Byte>, tags: seq<int>, k: int): (r: seq<Byte>)
    requires |bytes| == |tags|
    decreases |bytes|
  {
    if bytes == [] then [] else
      var n := |bytes| - 1;
      Select(bytes[..n], tags[..n], k) + if tags[n] == k then [bytes[n]] else []
  }

  lemma {:induction false} SelectMore(bytes: seq<Byte>, tags: seq<int>, x: Byte, g: int, k: int)
    requires |bytes| == |tags|
    ensures Select(bytes + [x], tags + [g], k) == Select(bytes, tags, k) + if g == k then [x] else []
  {
    assert (bytes + [x])[..|bytes|] == bytes && (tags + [g])[..|tags|] == tags;
  }

  lemma {:induction false} SelectNone(bytes: seq<Byte>, tags: seq<int>, k: int)
    requires |bytes| == |tags| && forall i :: 0 <= i < |tags| ==> tags[i] != k
    ensures Select(bytes, tags, k) == []
    decreases |bytes|
  {
    if bytes != [] {
      var n := |bytes| - 1;
      SelectNone(bytes[..n], tags[..n], k);
    }
  }

  predicate Fits(s: State, b: Book) {
    |b.cur| == |s.procs| && |b.wtag| == |s.written| && |b.rtag| == |s.read|
  }

  /** What call k has stored, and what it has taken. */
  ghost function Put(s: State, b: Book, k: int): seq<Byte>
    requires Fits(s, b)
  {
    Select(s.written, b.wtag, k)
  }

  ghost function Got(s: State, b: Book, k: int): seq<Byte>
    requires Fits(s, b)
  {
    Select(s.read, b.rtag, k)
  }

  predicate CallAt(b: Book, k: int) {
    0 <= k < |b.calls|
  }

  /** What a call that has returned did: a write stored all its bytes, or a first part of them if its
      process was killed or nobody reads; a read took at most n bytes, and took some of them unless its
      process was killed or nobody writes. */
  ghost predicate Done(s: State, b: Book, k: int)
    requires Fits(s, b) && CallAt(b, k)
  {
    match b.calls[k]
    case CallWrite(p, bytes) =>
      Put(s, b, k) <= bytes && (Put(s, b, k) == bytes || !s.readopen || (p < |s.procs| && s.procs[p].killed))
    case CallRead(p, n) =>
      |Got(s, b, k)| <= n && (n > 0 && Got(s, b, k) == [] ==> !s.writeopen || (p < |s.procs| && s.procs[p].killed))
    case _ => true
  }

  predicate InWakeup(pc: Pc) {
    pc.WakePt? || pc.WakeDo? || pc.WakeRel?
  }

  /** A call under way: what it moved and what is left make up what was asked. */
  ghost predicate Pending(s: State, b: Book, k: int, pc: Pc)
    requires Fits(s, b) && CallAt(b, k) && Busy(pc)
  {
    match pc.op
    case Write(todo) =>
      && b.calls[k].CallWrite? && Put(s, b, k) + todo == b.calls[k].bytes
      && (InWakeup(pc) && pc.after == ThenLeave ==> todo == [])
    case ReadTest(want) =>
      b.calls[k].CallRead? && Got(s, b, k) == [] && want == b.calls[k].n && !InWakeup(pc)
    case ReadCopy(want) =>
      && b.calls[k].CallRead? && |Got(s, b, k)| + want == b.calls[k].n && (pc.Body? || InWakeup(pc))
      && (Got(s, b, k) == [] && want > 0 ==> !s.writeopen || (pc.Body? && !Empty(s.ring)))
      && (InWakeup(pc) && want > 0 ==> Empty(s.ring))
    case CloseEnd(_) => b.calls[k].CallClose?
  }

  /** A call that still holds the pipe's lock and is about to return stopped short only because the pipe
      was full, or empty. */
  ghost predicate Returning(s: State, b: Book, k: int)
    requires Fits(s, b) && CallAt(b, k)
  {
    match b.calls[k]
    case CallWrite(_, bytes) => Put(s, b, k) == bytes || Full(s.ring)
    case CallRead(_, n) => |Got(s, b, k)| == n || Empty(s.ring)
    case _ => true
  }

  predicate Made(b: Book, k: int, p: nat)
    requires CallAt(b, k)
  {
    IsCall(b.calls[k]) && b.calls[k].p == p
  }

  ghost predicate Kept(s: State, b: Book, p: nat)
    requires Fits(s, b) && p < |s.procs|
  {
    && (b.cur[p] == -1 ==> s.procs[p].pc.Idle?)
    && (b.cur[p] != -1 ==> CallAt(b, b.cur[p]) && Made(b, b.cur[p], p))
    && (b.cur[p] != -1 && Busy(s.procs[p].pc) ==> Pending(s, b, b.cur[p], s.procs[p].pc))
    && (b.cur[p] != -1 && !Busy(s.procs[p].pc) ==> Done(s, b, b.cur[p]))
    && (b.cur[p] != -1 && s.procs[p].pc.Leave? ==> Returning(s, b, b.cur[p]))
  }

  /** A call that its process has made others after. */
  predicate Past(s: State, b: Book, k: int)
    requires Fits(s, b)
  {
    CallAt(b, k) && forall p :: 0 <= p < |b.cur| ==> b.cur[p] != k
  }

  ghost predicate Tagged(s: State, b: Book)
    requires Fits(s, b)
  {
    && (forall k :: 0 <= k < |b.calls| ==> IsCall(b.calls[k]) && b.calls[k].p < |s.procs|)
    && (forall i :: 0 <= i < |b.wtag| ==> CallAt(b, b.wtag[i]) && b.calls[b.wtag[i]].CallWrite?)
    && (forall i :: 0 <= i < |b.rtag| ==> CallAt(b, b.rtag[i]) && b.calls[b.rtag[i]].CallRead?)
  }

  ghost predicate BookInv(s: State, b: Book) {
    && Fits(s, b) && Tagged(s, b)
    && (forall p :: 0 <= p < |s.procs| ==> Kept(s, b, p))
    && (forall k :: Past(s, b, k) ==> Done(s, b, k))
  }

  // ---------- Steps ----------

  /** From one moment to a later one: calls are only added, a killed process stays killed, a closed end
      stays closed, and no call but k0 moves a byte. */
  ghost predicate Later(s: State, b: Book, t: State, c: Book, k0: int) {
    && Fits(s, b) && Fits(t, c) && |t.procs| == |s.procs| && b.calls <= c.calls
    && (t.readopen ==> s.readopen) && (t.writeopen ==> s.writeopen)
    && (forall p :: 0 <= p < |s.procs| && s.procs[p].killed ==> t.procs[p].killed)
    && (forall k :: CallAt(b, k) && k != k0 ==> Put(t, c, k) == Put(s, b, k) && Got(t, c, k) == Got(s, b, k))
  }

  lemma {:induction false} DoneStays(s: State, b: Book, t: State, c: Book, k0: int, k: int)
    requires Later(s, b, t, c, k0) && CallAt(b, k) && k != k0 && Done(s, b, k)
    ensures CallAt(c, k) && Done(t, c, k)
  {
    hide Put, Got, Fits;
  }

  /** What another process's step leaves of a call. */
  lemma {:induction false} KeptStays(s: State, b: Book, t: State, c: Book, k0: int, q: nat)
    requires Later(s, b, t, c, k0) && q < |s.procs| && Kept(s, b, q)
    requires c.cur[q] == b.cur[q] != k0
    requires t.procs[q].pc == s.procs[q].pc && (HoldsPl(t.procs[q].pc) ==> t.ring == s.ring)
    ensures Kept(t, c, q)
  {
    hide Put, Got, Empty, Full;
    if b.cur[q] != -1 && !Busy(s.procs[q].pc) {
      DoneStays(s, b, t, c, k0, b.cur[q]);
    }
  }

  lemma {:induction false} NothingMoved(s: State, b: Book, t: State, c: Book)
    requires Fits(s, b) && |c.cur| == |t.procs|
    requires t.written == s.written && t.read == s.read && c.wtag == b.wtag && c.rtag == b.rtag
    ensures Fits(t, c) && forall k :: Put(t, c, k) == Put(s, b, k) && Got(t, c, k) == Got(s, b, k)
  {
  }

  /** A new call has moved nothing yet, and its process's last call has returned. */
  lemma {:induction false} CallKeepsBook(s: State, b: Book, st: Step)
    requires BookInv(s, b) && Enabled(s, st) && |s.ring.data| == PIPESIZE && IsCall(st)
    ensures BookInv(Do(s, st), Note(b, s, st))
  {
    hide Put, Got, Empty, Full, Select, Returning, Done;
    var t, c := Do(s, st), Note(b, s, st);
    NothingMoved(s, b, t, c);
    SelectNone(s.written, b.wtag, |b.calls|);
    SelectNone(s.read, b.rtag, |b.calls|);
    NewCallIsPending(s, b, st);
    forall q | 0 <= q < |t.procs|
      ensures Kept(t, c, q)
    {
      if q != st.p {
        KeptStays(s, b, t, c, -2, q);
      }
    }
    forall k | Past(t, c, k)
      ensures Done(t, c, k)
    {
      assert k != |b.calls| by { assert c.cur[st.p] == |b.calls|; }
      CallWasDone(s, b, st, k);
      DoneStays(s, b, t, c, -2, k);
    }
  }

  lemma {:induction false} NewCallIsPending(s: State, b: Book, st: Step)
    requires Fits(s, b) && Enabled(s, st) && |s.ring.data| == PIPESIZE && IsCall(st)
    requires Select(s.written, b.wtag, |b.calls|) == [] && Select(s.read, b.rtag, |b.calls|) == []
    ensures var t, c := Do(s, st), Note(b, s, st); Fits(t, c) && Kept(t, c, st.p)
  {
    hide Select, Empty, Full, Returning;
  }

  lemma {:induction false} CallWasDone(s: State, b: Book, st: Step, k: int)
    requires BookInv(s, b) && Enabled(s, st) && |s.ring.data| == PIPESIZE && IsCall(st)
    requires CallAt(b, k) && |Note(b, s, st).cur| == |b.cur|
    requires forall p :: 0 <= p < |b.cur| ==> Note(b, s, st).cur[p] != k
    ensures Done(s, b, k)
  {
    hide Done, Pending, Tagged;
    if b.cur[st.p] == k {
      assert Kept(s, b, st.p);
    } else {
      forall p | 0 <= p < |b.cur|
        ensures b.cur[p] != k
      {
        assert p != st.p ==> Note(b, s, st).cur[p] == b.cur[p];
      }
      assert Past(s, b, k);
    }
  }

  /** Outside the critical section no byte moves. */
  lemma {:induction false} MoveIsQuiet(s: State, b: Book, p: nat)
    requires Fits(s, b) && Enabled(s, Act(p)) && |s.ring.data| == PIPESIZE && !s.procs[p].pc.Body?
    ensures Note(b, s, Act(p)) == b
    ensures var t := Do(s, Act(p));
      && t == MoveStep(s, p) && |t.procs| == |s.procs| && Later(s, b, t, b, -2) && t.ring == s.ring
      && t.procs[p].pc == MoveOf(s, p).pc && t.readopen == s.readopen && t.writeopen == s.writeopen
      && forall q :: 0 <= q < |t.procs| && q != p ==> t.procs[q].pc == s.procs[q].pc
  {
    hide Select;
    var t := Do(s, Act(p));
    NothingMoved(s, b, t, b);
  }

  lemma {:induction false} MoveKeepsMine(s: State, b: Book, p: nat)
    requires Fits(s, b) && p < |s.procs| && Kept(s, b, p) && ProcInv(s, p) && !s.procs[p].pc.Body?
    requires !s.procs[p].pc.Idle? && !s.procs[p].pc.Asleep? && |s.ring.data| == PIPESIZE
    ensures Fits(MoveStep(s, p), b) && Kept(MoveStep(s, p), b, p)
  {
    hide Put, Got, Empty, Full;
    NothingMoved(s, b, MoveStep(s, p), b);
  }

  lemma {:induction false} MoveKeepsBook(s: State, b: Book, p: nat)
    requires BookInv(s, b) && Inv(s) && Enabled(s, Act(p)) && |s.ring.data| == PIPESIZE && !s.procs[p].pc.Body?
    ensures BookInv(Do(s, Act(p)), Note(b, s, Act(p)))
  {
    hide Inv, Do, Note, MoveStep, MoveOf, Pending, Done, Later, Enabled;
    var t := Do(s, Act(p));
    MoveIsQuiet(s, b, p);
    assert !s.procs[p].pc.Idle? && !s.procs[p].pc.Asleep? && p < |s.procs| by { ActsWhere(s, p); }
    ProcInvAt(s, p);
    MoveKeepsMine(s, b, p);
    LaterFits(s, b, t, b, -2);
    forall q | 0 <= q < |t.procs|
      ensures Kept(t, b, q)
    {
      if q != p {
        KeptStays(s, b, t, b, -2, q);
      }
    }
    PastStays(s, b, t, b, -2);
  }

  lemma {:induction false} ActsWhere(s: State, p: nat)
    requires Enabled(s, Act(p))
    ensures p < |s.procs| && !s.procs[p].pc.Idle? && !s.procs[p].pc.Asleep?
  {
  }

  lemma {:induction false} LaterFits(s: State, b: Book, t: State, c: Book, k0: int)
    requires Later(s, b, t, c, k0)
    ensures Fits(s, b) && Fits(t, c) && |t.procs| == |s.procs| && b.calls <= c.calls
  {
    hide Put, Got;
  }

  lemma {:induction false} PastStays(s: State, b: Book, t: State, c: Book, k0: int)
    requires Later(s, b, t, c, k0) && Fits(s, b) && Fits(t, c)
    requires c.cur == b.cur && c.calls == b.calls && (forall k :: Past(s, b, k) ==> Done(s, b, k))
    requires k0 < 0 || !Past(s, b, k0)
    ensures forall k :: Past(t, c, k) ==> Done(t, c, k)
  {
    hide Later, Done;
    forall k | Past(t, c, k)
      ensures Done(t, c, k)
    {
      assert Past(s, b, k);
      DoneStays(s, b, t, c, k0, k);
    }
  }

  lemma {:induction false} OtherIsQuiet(s: State, b: Book, st: Step)
    requires Fits(s, b) && Enabled(s, st) && |s.ring.data| == PIPESIZE && !st.Act? && !IsCall(st)
    ensures var t := Do(s, st);
      && Note(b, s, st) == b && Later(s, b, t, b, -2) && |t.procs| == |s.procs| && t.ring == s.ring
      && (st.Dispatch? ==> st.p < |s.procs| && s.procs[st.p].pc.Asleep? && t.procs[st.p].pc == Woken(s.procs[st.p].pc.op))
      && (forall q :: 0 <= q < |s.procs| && !(st.Dispatch? && q == st.p) ==> t.procs[q].pc == s.procs[q].pc)
  {
    hide Select;
    NothingMoved(s, b, Do(s, st), b);
  }

  lemma {:induction false} DispatchKept(s: State, b: Book, t: State, p: nat)
    requires Later(s, b, t, b, -2) && p < |s.procs| && Kept(s, b, p)
    requires s.procs[p].pc.Asleep? && t.procs[p].pc == Woken(s.procs[p].pc.op)
    ensures Kept(t, b, p)
  {
    hide Put, Got, Empty, Full;
  }

  /** kill, the scheduler taking and dropping ptable.lock, and a return from sched. */
  lemma {:induction false} OtherKeepsBook(s: State, b: Book, st: Step)
    requires BookInv(s, b) && Enabled(s, st) && |s.ring.data| == PIPESIZE && !st.Act? && !IsCall(st)
    ensures BookInv(Do(s, st), Note(b, s, st))
  {
    hide Do, Note, Pending, Done, Returning, Later, Enabled;
    var t := Do(s, st);
    OtherIsQuiet(s, b, st);
    LaterFits(s, b, t, b, -2);
    forall q | 0 <= q < |t.procs|
      ensures Kept(t, b, q)
    {
      if st.Dispatch? && q == st.p {
        DispatchKept(s, b, t, q);
      } else {
        KeptStays(s, b, t, b, -2, q);
      }
    }
    PastStays(s, b, t, b, -2);
  }

  // ---------- Statements under the pipe's lock ----------

  lemma {:induction false} Credit(bytes: seq<Byte>, tags: seq<int>, more: seq<Byte>, k0: int, k: int)
    requires |bytes| == |tags| && bytes <= more && |more| <= |bytes| + 1
    ensures var tags' := tags + Copies(|more| - |bytes|, k0);
      && |tags'| == |more|
      && Select(more, tags', k) == Select(bytes, tags, k) + if k == k0 then more[|bytes|..] else []
  {
    var tags' := tags + Copies(|more| - |bytes|, k0);
    if |more| == |bytes| {
      assert more == bytes && tags' == tags && more[|bytes|..] == [];
    } else {
      assert more == bytes + [more[|bytes|]] && tags' == tags + [k0] && more[|bytes|..] == [more[|bytes|]];
      SelectMore(bytes, tags, more[|bytes|], k0, k);
    }
  }

  lemma {:induction false} BodyGrows(s: State, p: nat)
    requires p < |s.procs| && s.procs[p].pc.Body? && |s.ring.data| == PIPESIZE
    ensures var t := BodyStep(s, p);
      && s.written <= t.written && |t.written| <= |s.written| + 1
      && s.read <= t.read && |t.read| <= |s.read| + 1
      && (t.readopen ==> s.readopen) && (t.writeopen ==> s.writeopen)
      && (t.written != s.written ==> s.procs[p].pc.op.Write?) && (t.read != s.read ==> s.procs[p].pc.op.ReadCopy?)
  {
    hide Push, Pop, Front, Full, Empty;
  }

  lemma {:induction false} BodyMoves(s: State, b: Book, p: nat)
    requires Fits(s, b) && Enabled(s, Act(p)) && |s.ring.data| == PIPESIZE && s.procs[p].pc.Body?
    ensures var t, c, k0 := BodyStep(s, p), Note(b, s, Act(p)), b.cur[p];
      && Later(s, b, t, c, k0) && c.cur == b.cur && c.calls == b.calls
      && s.written <= t.written && s.read <= t.read
      && Put(t, c, k0) == Put(s, b, k0) + t.written[|s.written|..]
      && Got(t, c, k0) == Got(s, b, k0) + t.read[|s.read|..]
  {
    hide Select, BodyStep, Copies;
    var t, c, k0 := BodyStep(s, p), Note(b, s, Act(p)), b.cur[p];
    BodyGrows(s, p);
    BodyFrame(s, p);
    forall k
      ensures |c.wtag| == |t.written| && |c.rtag| == |t.read|
      ensures Select(t.written, c.wtag, k) == Select(s.written, b.wtag, k) + if k == k0 then t.written[|s.written|..] else []
      ensures Select(t.read, c.rtag, k) == Select(s.read, b.rtag, k) + if k == k0 then t.read[|s.read|..] else []
    {
      Credit(s.written, b.wtag, t.written, k0, k);
      Credit(s.read, b.rtag, t.read, k0, k);
    }
  }

  // A statement of pipewrite, piperead or pipeclose keeps what its own call moved and what is left in step.

  lemma {:induction false} StoreKeepsCall(s: State, b: Book, p: nat)
    requires Fits(s, b) && Enabled(s, Act(p)) && |s.ring.data| == PIPESIZE && s.procs[p].pc.Body? && Kept(s, b, p)
    requires s.procs[p].pc.op.Write? && s.procs[p].pc.op.todo != [] && !Full(s.ring)
    ensures var t, c := BodyStep(s, p), Note(b, s, Act(p)); Fits(t, c) && p < |t.procs| && Kept(t, c, p)
  {
    hide Select, Put, Got, Push, Pop, Front, Full, Empty, Note, Later, Done, Returning;
    var t, todo := BodyStep(s, p), s.procs[p].pc.op.todo;
    BodyMoves(s, b, p);
    BodyFrame(s, p);
    LaterFits(s, b, t, Note(b, s, Act(p)), b.cur[p]);
    assert todo == [todo[0]] + todo[1..] && t.written[|s.written|..] == [todo[0]];
  }

  lemma {:induction false} StopKeepsCall(s: State, b: Book, p: nat)
    requires Fits(s, b) && Enabled(s, Act(p)) && |s.ring.data| == PIPESIZE && s.procs[p].pc.Body? && Kept(s, b, p)
    requires s.procs[p].pc.op.Write? && (s.procs[p].pc.op.todo == [] || Full(s.ring))
    ensures var t, c := BodyStep(s, p), Note(b, s, Act(p)); Fits(t, c) && p < |t.procs| && Kept(t, c, p)
  {
    hide Select, Put, Got, Push, Pop, Front, Full, Empty, Note, Later;
    var t := BodyStep(s, p);
    BodyMoves(s, b, p);
    BodyFrame(s, p);
    LaterFits(s, b, t, Note(b, s, Act(p)), b.cur[p]);
    assert t.written[|s.written|..] == [];
  }

  lemma {:induction false} TestKeepsCall(s: State, b: Book, p: nat)
    requires Fits(s, b) && Enabled(s, Act(p)) && |s.ring.data| == PIPESIZE && s.procs[p].pc.Body? && Kept(s, b, p)
    requires s.procs[p].pc.op.ReadTest?
    ensures var t, c := BodyStep(s, p), Note(b, s, Act(p)); Fits(t, c) && p < |t.procs| && Kept(t, c, p)
  {
    hide Select, Put, Got, Push, Pop, Front, Full, Empty, Note, Later;
    BodyMoves(s, b, p);
    BodyFrame(s, p);
    LaterFits(s, b, BodyStep(s, p), Note(b, s, Act(p)), b.cur[p]);
  }

  lemma {:induction false} CopyKeepsCall(s: State, b: Book, p: nat)
    requires Fits(s, b) && Enabled(s, Act(p)) && |s.ring.data| == PIPESIZE && s.procs[p].pc.Body? && Kept(s, b, p)
    requires s.procs[p].pc.op.ReadCopy?
    ensures var t, c := BodyStep(s, p), Note(b, s, Act(p)); Fits(t, c) && p < |t.procs| && Kept(t, c, p)
  {
    hide Select, Put, Got, Push, Pop, Front, Full, Empty, Note, Later;
    BodyMoves(s, b, p);
    BodyFrame(s, p);
    LaterFits(s, b, BodyStep(s, p), Note(b, s, Act(p)), b.cur[p]);
  }

  lemma {:induction false} CloseKeepsCall(s: State, b: Book, p: nat)
    requires Fits(s, b) && Enabled(s, Act(p)) && |s.ring.data| == PIPESIZE && s.procs[p].pc.Body? && Kept(s, b, p)
    requires s.procs[p].pc.op.CloseEnd?
    ensures var t, c := BodyStep(s, p), Note(b, s, Act(p)); Fits(t, c) && p < |t.procs| && Kept(t, c, p)
  {
    hide Select, Put, Got, Push, Pop, Front, Full, Empty, Note, Later;
    BodyMoves(s, b, p);
    BodyFrame(s, p);
    LaterFits(s, b, BodyStep(s, p), Note(b, s, Act(p)), b.cur[p]);
  }

  lemma {:induction false} BodyKeepsCall(s: State, b: Book, p: nat)
    requires Fits(s, b) && Enabled(s, Act(p)) && |s.ring.data| == PIPESIZE && s.procs[p].pc.Body? && Kept(s, b, p)
    ensures var t, c := BodyStep(s, p), Note(b, s, Act(p)); Fits(t, c) && p < |t.procs| && Kept(t, c, p)
  {
    hide Kept, BodyStep, Note, Fits, Enabled;
    assert p < |s.procs| by { ActsWhere(s, p); }
    match s.procs[p].pc.op {
      case Write(todo) =>
        if todo != [] && !Full(s.ring) {
          StoreKeepsCall(s, b, p);
        } else {
          StopKeepsCall(s, b, p);
        }
      case ReadTest(_) => TestKeepsCall(s, b, p);
      case ReadCopy(_) => CopyKeepsCall(s, b, p);
      case CloseEnd(_) => CloseKeepsCall(s, b, p);
    }
  }

  /** A byte is stored by a write, and taken by a read. */
  lemma {:induction false} BodyKeepsTags(s: State, b: Book, p: nat)
    requires Fits(s, b) && Tagged(s, b) && Enabled(s, Act(p)) && |s.ring.data| == PIPESIZE
    requires s.procs[p].pc.Body? && Kept(s, b, p)
    requires Fits(BodyStep(s, p), Note(b, s, Act(p)))
    ensures Tagged(BodyStep(s, p), Note(b, s, Act(p)))
  {
    hide Put, Got, BodyStep, Empty, Full;
    BodyFrame(s, p);
    BodyGrows(s, p);
  }

  lemma {:induction false} BodyKeepsBook(s: State, b: Book, p: nat)
    requires BookInv(s, b) && Inv(s) && Enabled(s, Act(p)) && |s.ring.data| == PIPESIZE && s.procs[p].pc.Body?
    ensures BookInv(Do(s, Act(p)), Note(b, s, Act(p)))
  {
    hide Inv, Note, Enabled, BodyStep, Pending, Done, Returning, Later, Tagged;
    ActsWhere(s, p);
    var t, c := BodyStep(s, p), Note(b, s, Act(p));
    assert Kept(s, b, p);
    BodyKeepsCall(s, b, p);
    BodyKeepsTags(s, b, p);
    BodyMoves(s, b, p);
    BodyFrame(s, p);
    forall q | 0 <= q < |t.procs|
      ensures Kept(t, c, q)
    {
      if q != p {
        assert Kept(s, b, q);
        ProcInvAt(s, p);
        ProcInvAt(s, q);
        KeptStays(s, b, t, c, b.cur[p], q);
      }
    }
    assert b.cur[p] != -1 ==> !Past(s, b, b.cur[p]);
    PastStays(s, b, t, c, b.cur[p]);
  }

  lemma {:induction false} StepKeepsBook(s: State, b: Book, st: Step)
    requires BookInv(s, b) && Inv(s) && Enabled(s, st) && |s.ring.data| == PIPESIZE
    ensures BookInv(Do(s, st), Note(b, s, st))
  {
    hide BookInv, Inv, Do;
    assert |b.cur| == |s.procs| by { BookFits(s, b); }
    if IsCall(st) {
      CallKeepsBook(s, b, st);
    } else if !st.Act? {
      OtherKeepsBook(s, b, st);
    } else if s.procs[st.p].pc.Body? {
      BodyKeepsBook(s, b, st.p);
    } else {
      MoveKeepsBook(s, b, st.p);
    }
  }

  lemma {:induction false} BookFits(s: State, b: Book)
    requires BookInv(s, b)
    ensures Fits(s, b)
  {
  }

  // ---------- Runs ----------

  /** The book kept along a run. */
  ghost function Ledger(s: State, b: Book, steps: seq<Step>, t: State): (r: Book)
    requires Runs(s, steps, t)
    decreases |steps|
  {
    if steps == [] || |b.cur| != |s.procs| then b
    else Ledger(Do(s, steps[0]), Note(b, s, steps[0]), steps[1..], t)
  }

  lemma {:induction false} RunKeepsBook(s: State, b: Book, steps: seq<Step>, t: State)
    requires BookInv(s, b) && Inv(s) && Runs(s, steps, t)
    ensures BookInv(t, Ledger(s, b, steps, t))
    decreases |steps|
  {
    hide BookInv, Inv, Do, Enabled, Note;
    if steps != [] {
      BookFits(s, b);
      StepKeepsInv(s, steps[0]);
      StepKeepsBook(s, b, steps[0]);
      RunKeepsBook(Do(s, steps[0]), Note(b, s, steps[0]), steps[1..], t);
    }
  }

  ghost function Start(s: State): Book {
    Book([], seq(|s.procs|, _ => -1), [], [])
  }

  lemma {:induction false} StartInv(s: State)
    requires Init(s)
    ensures BookInv(s, Start(s))
  {
  }

  /** The calls in a run, in order. */
  ghost function CallsIn(steps: seq<Step>): (r: seq<Step>)
    decreases |steps|
  {
    if steps == [] then [] else (if IsCall(steps[0]) then [steps[0]] else []) + CallsIn(steps[1..])
  }

  lemma {:induction false} NoteLists(s: State, b: Book, st: Step)
    requires Fits(s, b) && Enabled(s, st) && |s.ring.data| == PIPESIZE
    ensures Note(b, s, st).calls == b.calls + if IsCall(st) then [st] else []
  {
    hide Do;
  }

  lemma {:induction false} ListsJoin(a: seq<Step>, one: seq<Step>, rest: seq<Step>)
    ensures (a + one) + rest == a + (one + rest)
  {
  }

  lemma {:induction false} LedgerLists(s: State, b: Book, steps: seq<Step>, t: State)
    requires BookInv(s, b) && Inv(s) && Runs(s, steps, t)
    ensures Ledger(s, b, steps, t).calls == b.calls + CallsIn(steps)
    decreases |steps|
  {
    hide BookInv, Inv, Do, Enabled, Note, IsCall;
    if steps != [] {
      BookFits(s, b);
      StepKeepsInv(s, steps[0]);
      StepKeepsBook(s, b, steps[0]);
      LedgerLists(Do(s, steps[0]), Note(b, s, steps[0]), steps[1..], t);
      NoteLists(s, b, steps[0]);
      ListsJoin(b.calls, if IsCall(steps[0]) then [steps[0]] else [], CallsIn(steps[1..]));
    } else {
      assert CallsIn(steps) == [];
    }
  }

  /** Call k is the one its process is in, with these bytes or this count to go. */
  ghost predicate UnderWay(t: State, b: Book, k: int, p: nat, op: Op) {
    p < |t.procs| == |b.cur| && b.cur[p] == k && Busy(t.procs[p].pc) && t.procs[p].pc.op == op
  }

  /** Over every run, every byte in the pipe's history was stored by one of its write calls and every byte
      that came out was taken by one of its read calls. A write call's bytes are there in its own order,
      all of them, unless it is under way (the rest is what it has to go), or its process was killed or
      nobody reads. A read call took at most n bytes, and is under way with the rest to go, or took
      something, or asked for nothing, or its process was killed or nobody writes. */
  lemma {:induction false} EveryCall(s: State, steps: seq<Step>, t: State, k: nat)
    requires Init(s) && Runs(s, steps, t) && k < |CallsIn(steps)|
    ensures var b := Ledger(s, Start(s), steps, t);
      && b.calls == CallsIn(steps) && Fits(t, b) && Tagged(t, b) && b.calls[k].p < |t.procs|
      && (b.calls[k].CallWrite? ==> var p, bytes, put := b.calls[k].p, b.calls[k].bytes, Put(t, b, k);
           && put <= bytes
           && (put == bytes || t.procs[p].killed || !t.readopen || UnderWay(t, b, k, p, Write(bytes[|put|..]))))
      && (b.calls[k].CallRead? ==> var p, n, got := b.calls[k].p, b.calls[k].n, Got(t, b, k);
           && |got| <= n
           && (got != [] || n == 0 || t.procs[p].killed || !t.writeopen || UnderWay(t, b, k, p, ReadTest(n))
               || UnderWay(t, b, k, p, ReadCopy(n))))
  {
    hide Select, Put, Got, Full, Empty, Runs, Ledger, Init, Start, Inv;
    InitInv(s);
    StartInv(s);
    RunKeepsBook(s, Start(s), steps, t);
    LedgerLists(s, Start(s), steps, t);
    var b := Ledger(s, Start(s), steps, t);
    assert Start(s).calls == [] by { StartsEmpty(s); }
    var p := b.calls[k].p;
    if b.cur[p] == k {
      assert Kept(t, b, p);
    } else {
      forall q | 0 <= q < |b.cur|
        ensures b.cur[q] != k
      {
        assert Kept(t, b, q);
      }
      assert Past(t, b, k);
    }
  }

  lemma {:induction false} StartsEmpty(s: State)
    ensures Start(s).calls == []
  {
  }

  /** Over every run, the call a process is returning from (it holds the pipe's lock for the last time)
      stored all its bytes or left the pipe full, or took all it asked for or left the pipe empty. */
  lemma {:induction false} ShortOnlyAtTheEdge(s: State, steps: seq<Step>, t: State, p: nat)
    requires Init(s) && Runs(s, steps, t) && p < |t.procs| && t.procs[p].pc.Leave?
    ensures var b := Ledger(s, Start(s), steps, t);
      Fits(t, b) && CallAt(b, b.cur[p]) && Made(b, b.cur[p], p) && Returning(t, b, b.cur[p])
  {
    hide Select, Put, Got, Full, Empty, Runs, Ledger, Init, Start, Inv;
    InitInv(s);
    StartInv(s);
    RunKeepsBook(s, Start(s), steps, t);
    assert Kept(t, Ledger(s, Start(s), steps, t), p);
  }
}
