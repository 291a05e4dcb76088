/**
  The physical redo log (log.c): group commit as an ordered list of single-block disk writes,
  crash between any two of them, recovery that may itself be cut off any number of times.
 */
module Log {
  import opened Common
  import opened Blocks
  import opened Params

  /** One bwrite: the disk changes one block at a time. */
  datatype Write<B> = Write(bn: nat, data: B)

  /** Where the log lives (the header at `start`, logged copies at start+1 .. start+size-1) and how
      write_head stores a header in a buffer and read_head finds it again. */
  datatype Layout<!B(!new)> = Layout(start: nat, size: nat, read: B -> Option<Header>, write: (B, Header) -> B) {
    predicate InLog(b: int) {
      start <= b < start + size
    }

    /** read_head undoes write_head, whatever the header buffer held before. */
    ghost predicate RoundTrips() {
      forall b: B, h: Header :: read(write(b, h)) == Some(h)
    }
  }

  type Disk<B> = seq<B>
  type Header = h: seq<Uint> | |h| <= LOGSIZE witness []

  function Apply<B(!new)>(d: Disk<B>, w: Write<B>): (r: Disk<B>)
    ensures |r| == |d|
  {
    if w.bn < |d| then d[w.bn := w.data] else d
  }

  /** The disk after a list of block writes. */
  function ApplyAll<B(!new)>(d: Disk<B>, ws: seq<Write<B>>): (r: Disk<B>)
    ensures |r| == |d|
  {
    if ws == [] then d else Apply(ApplyAll(d, ws[..|ws| - 1]), ws[|ws| - 1])
  }

  lemma {:induction false} ApplyAllConcat<B(!new)>(d: Disk<B>, a: seq<Write<B>>, b: seq<Write<B>>)
    ensures ApplyAll(d, a + b) == ApplyAll(ApplyAll(d, a), b)
  {
    if b == [] {
      assert a + b == a;
    } else {
      assert (a + b)[..|a + b| - 1] == a + b[..|b| - 1];
      ApplyAllConcat(d, a, b[..|b| - 1]);
    }
  }

  lemma {:induction false} ApplyNext<B(!new)>(d: Disk<B>, ws: seq<Write<B>>, k: nat)
    requires k < |ws|
    ensures ApplyAll(d, ws[..k + 1]) == Apply(ApplyAll(d, ws[..k]), ws[k])
  {
    assert ws[..k + 1][..k] == ws[..k];
  }

  // ---------- The order of block writes ----------

  /** A header this disk can carry: distinct home blocks, and room in the log for each. */
  ghost predicate Loggable<B(!new)>(lo: Layout<B>, d: Disk<B>, h: Header) {
    && lo.start + lo.size <= |d|
    && lo.RoundTrips()
    && |h| < lo.size
    && Distinct(h)
    && forall i :: 0 <= i < |h| ==> h[i] < |d| && !lo.InLog(h[i])
  }

  /** The current contents of block b: the pinned buffer if there is one, otherwise the disk. */
  function View<B(!new)>(d: Disk<B>, dirty: map<nat, B>, b: nat): B
    requires b < |d|
  {
    if b in dirty then dirty[b] else d[b]
  }

  /** write_log: copy the cached blocks to the log. */
  ghost function LogWrites<B(!new)>(lo: Layout<B>, d: Disk<B>, dirty: map<nat, B>, h: Header): (ws: seq<Write<B>>)
    requires Loggable(lo, d, h)
  {
    seq(|h|, i requires 0 <= i < |h| => Write(lo.start + 1 + i, View(d, dirty, h[i])))
  }

  /** install_trans: copy the log blocks of d to their home locations. */
  ghost function InstallWrites<B(!new)>(lo: Layout<B>, d: Disk<B>, h: Header): (ws: seq<Write<B>>)
    requires Loggable(lo, d, h)
  {
    seq(|h|, i requires 0 <= i < |h| => Write(h[i], d[lo.start + 1 + i]))
  }

  /** write_head. */
  function HeadWrite<B(!new)>(lo: Layout<B>, d: Disk<B>, h: Header): Write<B>
    requires lo.start < |d|
  {
    Write(lo.start, lo.write(d[lo.start], h))
  }

  /** install_trans followed by the clearing write_head. */
  ghost function InstallAndClear<B(!new)>(lo: Layout<B>, d: Disk<B>, h: Header): (ws: seq<Write<B>>)
    requires Loggable(lo, d, h)
  {
    InstallWrites(lo, d, h) + [HeadWrite(lo, ApplyAll(d, InstallWrites(lo, d, h)), [])]
  }

  /** The disk once the transaction is committed: log blocks and header written, nothing installed. */
  ghost function Committed<B(!new)>(lo: Layout<B>, d: Disk<B>, dirty: map<nat, B>, h: Header): (r: Disk<B>)
    requires Loggable(lo, d, h)
    ensures |r| == |d|
  {
    var logged := ApplyAll(d, LogWrites(lo, d, dirty, h));
    Apply(logged, HeadWrite(lo, logged, h))
  }

  /** Every block write of commit(), in order. */
  ghost function CommitWrites<B(!new)>(lo: Layout<B>, d: Disk<B>, dirty: map<nat, B>, h: Header): (ws: seq<Write<B>>)
    requires Loggable(lo, d, h)
  {
    if h == [] then [] else
    var w := LogWrites(lo, d, dirty, h);
    w + [HeadWrite(lo, ApplyAll(d, w), h)] + InstallAndClear(lo, Committed(lo, d, dirty, h), h)
  }

  /** A disk on which recovery can start: its header is readable and loggable. */
  ghost predicate Recoverable<B(!new)>(lo: Layout<B>, d: Disk<B>) {
    lo.start < |d| && lo.read(d[lo.start]).Some? && Loggable(lo, d, lo.read(d[lo.start]).value)
  }

  /** Every block write of recover_from_log(), in order. */
  ghost function RecoverWrites<B(!new)>(lo: Layout<B>, d: Disk<B>): (ws: seq<Write<B>>)
    requires Recoverable(lo, d)
  {
    InstallAndClear(lo, d, lo.read(d[lo.start]).value)
  }

  // ---------- What a disk means ----------

  /** Disk<B> d stands for the home blocks `home`: committed log entries count as installed. */
  ghost predicate Denotes<B(!new)>(lo: Layout<B>, d: Disk<B>, home: Disk<B>) {
    && Recoverable(lo, d)
    && |home| == |d|
    && var h := lo.read(d[lo.start]).value;
      && (forall i :: 0 <= i < |h| ==> home[h[i]] == d[lo.start + 1 + i])
      && (forall b {:trigger home[b]} :: 0 <= b < |d| && !lo.InLog(b) && b !in h ==> home[b] == d[b])
  }

  /** Equal outside the log area. */
  ghost predicate SameHome<B(!new)>(lo: Layout<B>, d: Disk<B>, e: Disk<B>) {
    |d| == |e| && forall b {:trigger d[b]} :: 0 <= b < |d| && !lo.InLog(b) ==> d[b] == e[b]
  }

  /** A disk between transactions: the header says that the log is empty. */
  ghost predicate Quiet<B(!new)>(lo: Layout<B>, d: Disk<B>) {
    Recoverable(lo, d) && lo.read(d[lo.start]) == Some([])
  }

  lemma {:induction false} EmptyIsQuiet<B(!new)>(lo: Layout<B>, d: Disk<B>)
    requires lo.RoundTrips() && 0 < lo.size && lo.start + lo.size <= |d| && lo.read(d[lo.start]) == Some([])
    ensures Quiet(lo, d)
  {
  }

  /** Recovery of a quiet disk whose header block is already the cleared one changes nothing. */
  lemma {:induction false} NothingToInstall<B(!new)>(lo: Layout<B>, d: Disk<B>)
    requires Quiet(lo, d) && lo.write(d[lo.start], []) == d[lo.start]
    ensures ApplyAll(d, RecoverWrites(lo, d)) == d
  {
    hide Loggable;
    assert InstallWrites(lo, d, []) == [];
    assert RecoverWrites(lo, d) == [Write(lo.start, d[lo.start])];
    assert RecoverWrites(lo, d)[..0] == [];
  }

  /** The home blocks the transaction asks for. */
  function Target<B(!new)>(d: Disk<B>, dirty: map<nat, B>, h: Header): (r: Disk<B>)
    ensures |r| == |d|
  {
    seq(|d|, b requires 0 <= b < |d| => if b in h then View(d, dirty, b) else d[b])
  }

  // ---------- Prefixes of the write lists ----------

  lemma {:induction false} LogPrefix<B(!new)>(lo: Layout<B>, d: Disk<B>, dirty: map<nat, B>, h: Header, k: nat)
    requires Loggable(lo, d, h) && k <= |h|
    ensures var e := ApplyAll(d, LogWrites(lo, d, dirty, h)[..k]);
      && (forall b {:trigger e[b]} :: 0 <= b < |d| && !(lo.start < b <= lo.start + k) ==> e[b] == d[b])
      && (forall i :: 0 <= i < k ==> e[lo.start + 1 + i] == View(d, dirty, h[i]))
  {
    var ws := LogWrites(lo, d, dirty, h);
    if k > 0 {
      LogPrefix(lo, d, dirty, h, k - 1);
      assert ws[..k][..k - 1] == ws[..k - 1];
    }
  }

  /** Disk e is d with the first k log entries of h copied home. */
  ghost predicate Installed<B(!new)>(lo: Layout<B>, d: Disk<B>, h: Header, k: nat, e: Disk<B>)
    requires Loggable(lo, d, h)
  {
    && |e| == |d|
    && (forall b {:trigger e[b]} :: 0 <= b < |d| && b !in h ==> e[b] == d[b])
    && (forall i :: 0 <= i < |h| ==> e[h[i]] == if i < k then d[lo.start + 1 + i] else d[h[i]])
  }

  lemma {:induction false} InstallPrefix<B(!new)>(lo: Layout<B>, d: Disk<B>, h: Header, k: nat)
    requires Loggable(lo, d, h) && k <= |h|
    ensures Installed(lo, d, h, k, ApplyAll(d, InstallWrites(lo, d, h)[..k]))
  {
    if k > 0 {
      var ws := InstallWrites(lo, d, h);
      InstallPrefix(lo, d, h, k - 1);
      ApplyNext(d, ws, k - 1);
      var e := ApplyAll(d, ws[..k - 1]);
      assert ws[k - 1] == Write(h[k - 1], d[lo.start + k]);
      hide ApplyAll, InstallWrites;
      assert ApplyAll(d, ws[..k]) == e[h[k - 1] := d[lo.start + k]];
    }
  }

  /** A disk with some log entries installed means what it meant before. */
  lemma {:induction false} InstalledPart<B(!new)>(lo: Layout<B>, d: Disk<B>, home: Disk<B>, h: Header, k: nat, e: Disk<B>)
    requires Denotes(lo, d, home) && lo.read(d[lo.start]) == Some(h) && Installed(lo, d, h, k, e)
    ensures Denotes(lo, e, home)
  {
    assert forall b :: lo.InLog(b) ==> b !in h && e[b] == d[b];
  }

  lemma {:induction false} ClearedPart<B(!new)>(lo: Layout<B>, d: Disk<B>, home: Disk<B>, h: Header)
    requires Denotes(lo, d, home) && lo.read(d[lo.start]) == Some(h)
    ensures var e := ApplyAll(d, InstallAndClear(lo, d, h)); Quiet(lo, e) && Denotes(lo, e, home)
  {
    hide InstallWrites, InstallAndClear, ApplyAll;
    InstalledAndCleared(lo, d, h);
  }

  /** Installing, cut off after k writes, does not change what the disk means. */
  lemma {:induction false} InstallKeepsMeaning<B(!new)>(lo: Layout<B>, d: Disk<B>, home: Disk<B>, k: nat)
    requires Denotes(lo, d, home)
    requires k <= |RecoverWrites(lo, d)|
    ensures Denotes(lo, ApplyAll(d, RecoverWrites(lo, d)[..k]), home)
    ensures k == |RecoverWrites(lo, d)| ==> Quiet(lo, ApplyAll(d, RecoverWrites(lo, d)[..k]))
  {
    hide ApplyAll, InstallWrites, Installed, Loggable;
    var h := lo.read(d[lo.start]).value;
    var ins, ws := InstallWrites(lo, d, h), RecoverWrites(lo, d);
    InstallSize(lo, d, h);
    if k <= |h| {
      assert ws[..k] == ins[..k];
      InstallPrefix(lo, d, h, k);
      InstalledPart(lo, d, home, h, k, ApplyAll(d, ins[..k]));
    } else {
      assert ws[..k] == ws;
      ClearedPart(lo, d, home, h);
    }
  }

  lemma {:induction false} InstallSize<B(!new)>(lo: Layout<B>, d: Disk<B>, h: Header)
    requires Loggable(lo, d, h)
    ensures |InstallWrites(lo, d, h)| == |h|
  {
  }

  /** The whole of install_trans and write_head: log empty, home blocks as logged, the rest untouched. */
  lemma {:induction false} InstalledAndCleared<B(!new)>(lo: Layout<B>, d: Disk<B>, h: Header)
    requires Loggable(lo, d, h)
    ensures var e := ApplyAll(d, InstallAndClear(lo, d, h));
      && Quiet(lo, e)
      && (forall i :: 0 <= i < |h| ==> e[h[i]] == d[lo.start + 1 + i])
      && (forall b {:trigger e[b]} :: 0 <= b < |d| && b != lo.start && b !in h ==> e[b] == d[b])
  {
    var ins := InstallWrites(lo, d, h);
    var ws := InstallAndClear(lo, d, h);
    InstallPrefix(lo, d, h, |h|);
    assert ins[..|h|] == ins;
    assert ws[..|ws| - 1] == ins;
  }

  lemma {:induction false} CommittedBlocks<B(!new)>(lo: Layout<B>, d: Disk<B>, dirty: map<nat, B>, h: Header)
    requires Loggable(lo, d, h)
    ensures var e := Committed(lo, d, dirty, h);
      && lo.read(e[lo.start]) == Some(h)
      && (forall i :: 0 <= i < |h| ==> e[lo.start + 1 + i] == View(d, dirty, h[i]))
      && (forall b {:trigger e[b]} :: 0 <= b < |d| && !lo.InLog(b) ==> e[b] == d[b])
  {
    var ws := LogWrites(lo, d, dirty, h);
    var logged := ApplyAll(d, ws);
    LogPrefix(lo, d, dirty, h, |h|);
    assert ws[..|h|] == ws;
    assert Committed(lo, d, dirty, h) == logged[lo.start := lo.write(logged[lo.start], h)];
  }

  lemma {:induction false} CommittedMeansTarget<B(!new)>(lo: Layout<B>, d: Disk<B>, dirty: map<nat, B>, h: Header)
    requires Loggable(lo, d, h)
    ensures Recoverable(lo, Committed(lo, d, dirty, h))
    ensures lo.read(Committed(lo, d, dirty, h)[lo.start]) == Some(h)
    ensures Denotes(lo, Committed(lo, d, dirty, h), Target(d, dirty, h))
  {
    CommittedBlocks(lo, d, dirty, h);
    var e, home := Committed(lo, d, dirty, h), Target(d, dirty, h);
    assert Loggable(lo, e, h);
    forall i | 0 <= i < |h|
      ensures home[h[i]] == e[lo.start + 1 + i]
    {
      assert h[i] in h;
    }
  }

  /** A commit cut off after k block writes means the old home blocks up to the header write,
      and the transaction's home blocks from the header write on. */
  lemma {:induction false} CommitPrefixMeaning<B(!new)>(lo: Layout<B>, d: Disk<B>, dirty: map<nat, B>, h: Header, k: nat)
    requires Quiet(lo, d) && Loggable(lo, d, h)
    requires k <= |CommitWrites(lo, d, dirty, h)|
    ensures Denotes(lo, ApplyAll(d, CommitWrites(lo, d, dirty, h)[..k]),
                    if k <= |h| then d else Target(d, dirty, h))
    ensures k == |CommitWrites(lo, d, dirty, h)| ==>
              Quiet(lo, ApplyAll(d, CommitWrites(lo, d, dirty, h)[..k]))
  {
    if k <= |h| {
      CommitBeforeHeader(lo, d, dirty, h, k);
    } else {
      CommitAfterHeader(lo, d, dirty, h, k);
    }
  }

  /** Write-ahead: no home block changes on disk before the transaction's header write. */
  lemma {:induction false} WriteAhead<B(!new)>(lo: Layout<B>, d: Disk<B>, dirty: map<nat, B>, h: Header, k: nat)
    requires Loggable(lo, d, h) && k <= |h|
    ensures k <= |CommitWrites(lo, d, dirty, h)|
    ensures SameHome(lo, ApplyAll(d, CommitWrites(lo, d, dirty, h)[..k]), d)
    ensures ApplyAll(d, CommitWrites(lo, d, dirty, h)[..k])[lo.start] == d[lo.start]
  {
    var ws := LogWrites(lo, d, dirty, h);
    if h == [] {
      assert CommitWrites(lo, d, dirty, h)[..k] == [];
    } else {
      assert CommitWrites(lo, d, dirty, h)[..k] == ws[..k];
      LogPrefix(lo, d, dirty, h, k);
    }
  }

  lemma {:induction false} CommitBeforeHeader<B(!new)>(lo: Layout<B>, d: Disk<B>, dirty: map<nat, B>, h: Header, k: nat)
    requires Quiet(lo, d) && Loggable(lo, d, h) && k <= |h|
    ensures k <= |CommitWrites(lo, d, dirty, h)|
    ensures Denotes(lo, ApplyAll(d, CommitWrites(lo, d, dirty, h)[..k]), d)
  {
    WriteAhead(lo, d, dirty, h, k);
    var e := ApplyAll(d, CommitWrites(lo, d, dirty, h)[..k]);
    assert forall b {:trigger d[b]} :: 0 <= b < |d| && !lo.InLog(b) ==> d[b] == e[b];
  }

  lemma {:induction false} CommitAfterHeader<B(!new)>(lo: Layout<B>, d: Disk<B>, dirty: map<nat, B>, h: Header, k: nat)
    requires Loggable(lo, d, h)
    requires |h| < k <= |CommitWrites(lo, d, dirty, h)|
    ensures Denotes(lo, ApplyAll(d, CommitWrites(lo, d, dirty, h)[..k]), Target(d, dirty, h))
    ensures k == |CommitWrites(lo, d, dirty, h)| ==>
              Quiet(lo, ApplyAll(d, CommitWrites(lo, d, dirty, h)[..k]))
  {
    var ws := LogWrites(lo, d, dirty, h);
    var head := HeadWrite(lo, ApplyAll(d, ws), h);
    var c := Committed(lo, d, dirty, h);
    CommittedMeansTarget(lo, d, dirty, h);
    var rest := RecoverWrites(lo, c);
    var j := k - |h| - 1;
    assert CommitWrites(lo, d, dirty, h)[..k] == (ws + [head]) + rest[..j];
    assert (ws + [head])[..|ws|] == ws;
    ApplyAllConcat(d, ws + [head], rest[..j]);
    InstallKeepsMeaning(lo, c, Target(d, dirty, h), j);
  }

  /** On a quiet disk the home blocks are what the disk means. */
  lemma {:induction false} QuietMeansItself<B(!new)>(lo: Layout<B>, d: Disk<B>, home: Disk<B>)
    requires Quiet(lo, d) && Denotes(lo, d, home)
    ensures SameHome(lo, d, home)
  {
    forall b | 0 <= b < |d| && !lo.InLog(b)
      ensures d[b] == home[b]
    {
      assert home[b] == d[b];
    }
  }

  // ---------- Crash atomicity ----------

  /** The disk after a series of recoveries, the i-th cut off after cuts[i] block writes. */
  ghost function CutRecoveries<B(!new)>(lo: Layout<B>, d: Disk<B>, cuts: seq<nat>): (r: Disk<B>)
    requires Recoverable(lo, d)
    ensures |r| == |d|
    decreases |cuts|
  {
    if cuts == [] then d else
    var ws := RecoverWrites(lo, d);
    var e := ApplyAll(d, if cuts[0] < |ws| then ws[..cuts[0]] else ws);
    if Recoverable(lo, e) then CutRecoveries(lo, e, cuts[1..]) else e
  }

  /** Recoveries keep the meaning of a disk however often they are cut off. */
  lemma {:induction false} CutRecoveriesKeepMeaning<B(!new)>(lo: Layout<B>, d: Disk<B>, home: Disk<B>, cuts: seq<nat>)
    requires Denotes(lo, d, home)
    ensures Denotes(lo, CutRecoveries(lo, d, cuts), home)
    decreases |cuts|
  {
    if cuts != [] {
      var ws := RecoverWrites(lo, d);
      var k := if cuts[0] < |ws| then cuts[0] else |ws|;
      assert ws[..|ws|] == ws;
      InstallKeepsMeaning(lo, d, home, k);
      CutRecoveriesKeepMeaning(lo, ApplyAll(d, ws[..k]), home, cuts[1..]);
    }
  }

  /** The disk after a crash in commit() at write k, cut-off recoveries, and one full recovery. */
  ghost function AfterCrash<B(!new)>(lo: Layout<B>, d: Disk<B>, dirty: map<nat, B>, h: Header, k: nat,
      cuts: seq<nat>): (r: Disk<B>)
    requires Quiet(lo, d) && Loggable(lo, d, h)
    requires k <= |CommitWrites(lo, d, dirty, h)|
  {
    CommitPrefixMeaning(lo, d, dirty, h, k);
    var crashed := ApplyAll(d, CommitWrites(lo, d, dirty, h)[..k]);
    CutRecoveriesKeepMeaning(lo, crashed, if k <= |h| then d else Target(d, dirty, h), cuts);
    var cut := CutRecoveries(lo, crashed, cuts);
    ApplyAll(cut, RecoverWrites(lo, cut))
  }

  /** Crash atomicity: all home blocks as before the transaction, or all as after it; the header
      write is the commit point; and the log is empty again. */
  lemma {:induction false} CrashAtomicity<B(!new)>(lo: Layout<B>, d: Disk<B>, dirty: map<nat, B>, h: Header, k: nat,
      cuts: seq<nat>)
    requires Quiet(lo, d) && Loggable(lo, d, h)
    requires k <= |CommitWrites(lo, d, dirty, h)|
    ensures Quiet(lo, AfterCrash(lo, d, dirty, h, k, cuts))
    ensures SameHome(lo, AfterCrash(lo, d, dirty, h, k, cuts), if k <= |h| then d else Target(d, dirty, h))
  {
    CommitPrefixMeaning(lo, d, dirty, h, k);
    var crashed := ApplyAll(d, CommitWrites(lo, d, dirty, h)[..k]);
    var home := if k <= |h| then d else Target(d, dirty, h);
    CutRecoveriesKeepMeaning(lo, crashed, home, cuts);
    var cut := CutRecoveries(lo, crashed, cuts);
    var ws := RecoverWrites(lo, cut);
    assert ws[..|ws|] == ws;
    InstallKeepsMeaning(lo, cut, home, |ws|);
    QuietMeansItself(lo, ApplyAll(cut, ws), home);
  }

  // ---------- Runs of many transactions ----------

  datatype Txn<B> = Txn(h: Header, dirty: map<nat, B>)

  ghost predicate AllLoggable<B(!new)>(lo: Layout<B>, d: Disk<B>, ts: seq<Txn<B>>) {
    forall i :: 0 <= i < |ts| ==> Loggable(lo, d, ts[i].h)
  }

  /** The home blocks after a list of transactions, each taken as one atomic update. */
  ghost function Atomically<B(!new)>(d: Disk<B>, ts: seq<Txn<B>>): (r: Disk<B>)
    ensures |r| == |d|
  {
    if ts == [] then d else
    var e := Atomically(d, ts[..|ts| - 1]);
    Target(e, ts[|ts| - 1].dirty, ts[|ts| - 1].h)
  }

  /** The disk after the block writes of a list of commits. */
  ghost function CommitAll<B(!new)>(lo: Layout<B>, d: Disk<B>, ts: seq<Txn<B>>): (r: Disk<B>)
    requires Quiet(lo, d) && AllLoggable(lo, d, ts)
    ensures |r| == |d| && Quiet(lo, r)
  {
    if ts == [] then d else
    var e := CommitAll(lo, d, ts[..|ts| - 1]);
    var t := ts[|ts| - 1];
    assert Loggable(lo, e, t.h);
    CommitIsAtomic(lo, e, t.dirty, t.h);
    ApplyAll(e, CommitWrites(lo, e, t.dirty, t.h))
  }

  /** Block-by-block commits amount to atomic updates of the home blocks. */
  lemma {:induction false} CommitAllIsAtomic<B(!new)>(lo: Layout<B>, d: Disk<B>, ts: seq<Txn<B>>)
    requires Quiet(lo, d) && AllLoggable(lo, d, ts)
    ensures SameHome(lo, CommitAll(lo, d, ts), Atomically(d, ts))
  {
    if ts != [] {
      var pre := ts[..|ts| - 1];
      CommitAllIsAtomic(lo, d, pre);
      var e := CommitAll(lo, d, pre);
      var t := ts[|ts| - 1];
      assert Loggable(lo, e, t.h);
      CommitIsAtomic(lo, e, t.dirty, t.h);
      TargetRespectsHome(lo, e, Atomically(d, pre), t);
    }
  }

  /** commit() run to its end installs the transaction and empties the log. */
  lemma {:induction false} CommitIsAtomic<B(!new)>(lo: Layout<B>, d: Disk<B>, dirty: map<nat, B>, h: Header)
    requires Quiet(lo, d) && Loggable(lo, d, h)
    ensures Quiet(lo, ApplyAll(d, CommitWrites(lo, d, dirty, h)))
    ensures SameHome(lo, ApplyAll(d, CommitWrites(lo, d, dirty, h)), Target(d, dirty, h))
  {
    var ws := CommitWrites(lo, d, dirty, h);
    if h == [] {
    } else {
      assert ws[..|ws|] == ws;
      CommitAfterHeader(lo, d, dirty, h, |ws|);
      QuietMeansItself(lo, ApplyAll(d, ws), Target(d, dirty, h));
    }
  }

  lemma {:induction false} TargetRespectsHome<B(!new)>(lo: Layout<B>, e: Disk<B>, f: Disk<B>, t: Txn<B>)
    requires SameHome(lo, e, f) && Loggable(lo, e, t.h)
    ensures SameHome(lo, Target(e, t.dirty, t.h), Target(f, t.dirty, t.h))
  {
  }

  /** Durability and atomicity over a whole run: after any number of commits, a crash anywhere in
      the next one and any number of cut-off recoveries, the recovered home blocks are those of
      exactly the transactions whose header write reached the disk. */
  lemma {:induction false} RunSurvivesCrash<B(!new)>(lo: Layout<B>, d: Disk<B>, ts: seq<Txn<B>>, t: Txn<B>, k: nat,
      cuts: seq<nat>)
    requires Quiet(lo, d) && AllLoggable(lo, d, ts) && Loggable(lo, d, t.h)
    requires Loggable(lo, CommitAll(lo, d, ts), t.h)
    requires k <= |CommitWrites(lo, CommitAll(lo, d, ts), t.dirty, t.h)|
    ensures SameHome(lo, AfterCrash(lo, CommitAll(lo, d, ts), t.dirty, t.h, k, cuts),
                     Atomically(d, if k <= |t.h| then ts else ts + [t]))
  {
    var e := CommitAll(lo, d, ts);
    CrashAtomicity(lo, e, t.dirty, t.h, k, cuts);
    CommitAllIsAtomic(lo, d, ts);
    TargetRespectsHome(lo, e, Atomically(d, ts), t);
    assert (ts + [t])[..|ts|] == ts;
  }
}
