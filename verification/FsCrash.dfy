/**
  A file write and a crash (file.c, fs.c and log.c together): each chunk of a write is one transaction of
  the log, so after a crash anywhere the recovered disk is the file system with the first chunks written.
 */
module FsCrash {
  import opened Common
  import opened Params
  import opened Blocks
  import opened Fs
  import opened FsFile
  import opened FsFoot
  import opened FsCost
  import opened FileWrite
  import L = Log

  // ---------- the file system on the disk ----------

  /** How bits and inodes lie in a block: any way will do. */
  datatype Codec = Codec(bits: seq<bool> -> Block, inodes: seq<Inode> -> Block)

  /** The elements of s that share the k-th block, n to a block. */
  ghost function Slice<T>(s: seq<T>, k: nat, n: nat): (r: seq<T>) {
    if k * n >= |s| then [] else if (k + 1) * n >= |s| then s[k * n..] else s[k * n..(k + 1) * n]
  }

  lemma {:induction false} SlicesAgree<T>(s: seq<T>, t: seq<T>, k: nat, n: nat)
    requires |s| == |t| && n > 0 && forall i :: 0 <= i < |s| && i / n == k ==> s[i] == t[i]
    ensures Slice(s, k, n) == Slice(t, k, n)
  {
    forall i | k * n <= i < (k + 1) * n && i < |s|
      ensures s[i] == t[i]
    {
      Quotient(i, k, n);
    }
    if k * n < |s| {
      var e := if (k + 1) * n >= |s| then |s| else (k + 1) * n;
      assert k * n <= e by { assert (k + 1) * n == k * n + n; }
      assert s[k * n..e] == t[k * n..e];
    }
  }

  lemma {:induction false} Quotient(i: nat, k: nat, n: nat)
    requires n > 0 && k * n <= i < (k + 1) * n
    ensures i / n == k
  {
    var q := i / n;
    assert q * n <= i < q * n + n by { assert i == q * n + i % n; }
    assert (k + 1) * n == k * n + n && (q + 1) * n == q * n + n;
    if q < k {
      Monotone(q + 1, k, n);
    } else if q > k {
      Monotone(k + 1, q, n);
    }
  }

  lemma {:induction false} Monotone(a: nat, b: nat, n: nat)
    requires a <= b
    ensures a * n <= b * n
  {
  }

  ghost function RawBlock(sb: Super, c: Codec, d: Disk, x: nat): Block
    requires x < |d.blocks|
  {
    if x >= sb.data then d.blocks[x]
    else if x >= sb.bmapstart then c.bits(Slice(d.used, x - sb.bmapstart, BPB))
    else if x >= sb.inodestart then c.inodes(Slice(d.inodes, x - sb.inodestart, IPB))
    else d.blocks[x]
  }

  /** The blocks of the disk; what is in the log area does not matter. */
  ghost function Encode(sb: Super, c: Codec, d: Disk): (r: seq<Block>)
    ensures |r| == |d.blocks| && forall x :: 0 <= x < |r| ==> r[x] == RawBlock(sb, c, d, x)
  {
    seq(|d.blocks|, x requires 0 <= x < |d.blocks| => RawBlock(sb, c, d, x))
  }

  /** A block that no change is in is the same on disk. */
  lemma {:induction false} EncodeOutside(sb: Super, c: Codec, d: Disk, u: Disk, s: set<nat>, x: nat)
    requires OnlyIn(sb, d, u, s) && x < |d.blocks| && x !in s
    ensures Encode(sb, c, u)[x] == Encode(sb, c, d)[x]
  {
    if sb.bmapstart <= x < sb.data {
      SlicesAgree(d.used, u.used, x - sb.bmapstart, BPB);
    } else if sb.inodestart <= x < sb.data {
      SlicesAgree(d.inodes, u.inodes, x - sb.inodestart, IPB);
    }
  }

  // ---------- transactions ----------

  /** The transaction that takes the disk to u by the blocks tx: its header lists them, its buffers hold them. */
  ghost predicate Commits(sb: Super, c: Codec, u: Disk, tx: set<nat>, t: L.Txn<Block>) {
    && Distinct(t.h) && (forall x: nat :: x in t.h <==> x in tx)
    && (forall x: nat :: x in tx && x < |u.blocks| ==> x in t.dirty && t.dirty[x] == Encode(sb, c, u)[x])
  }

  lemma {:induction false} TargetIsNext(lo: L.Layout<Block>, sb: Super, c: Codec, raw: seq<Block>, d: Disk, u: Disk,
      tx: set<nat>, t: L.Txn<Block>)
    requires L.SameHome(lo, raw, Encode(sb, c, d)) && OnlyIn(sb, d, u, tx) && Commits(sb, c, u, tx, t)
    ensures L.SameHome(lo, L.Target(raw, t.dirty, t.h), Encode(sb, c, u))
  {
    hide OnlyIn, Encode;
    assert |u.blocks| == |d.blocks| by { SameLength(sb, d, u, tx); }
    var r := L.Target(raw, t.dirty, t.h);
    forall b {:trigger r[b]} | 0 <= b < |r| && !lo.InLog(b)
      ensures r[b] == Encode(sb, c, u)[b]
    {
      if b !in tx {
        EncodeOutside(sb, c, d, u, tx, b);
      }
    }
  }

  lemma {:induction false} SameLength(sb: Super, d: Disk, u: Disk, s: set<nat>)
    requires OnlyIn(sb, d, u, s)
    ensures |u.blocks| == |d.blocks|
  {
  }

  /** The images and the blocks of the transactions between them. */
  ghost predicate Chain(sb: Super, imgs: seq<Disk>, txs: seq<seq<nat>>) {
    |imgs| == |txs| + 1 && forall i {:trigger txs[i]} :: 0 <= i < |txs| ==> OnlyIn(sb, imgs[i], imgs[i + 1], Elems(txs[i]))
  }

  ghost predicate AllCommit(sb: Super, c: Codec, imgs: seq<Disk>, txs: seq<seq<nat>>, ts: seq<L.Txn<Block>>) {
    |ts| <= |txs| < |imgs| && forall i {:trigger ts[i]} :: 0 <= i < |ts| ==> Commits(sb, c, imgs[i + 1], Elems(txs[i]), ts[i])
  }

  /** Transactions taken as atomic updates lead from image to image. */
  lemma {:induction false} AtomicallyIs(lo: L.Layout<Block>, sb: Super, c: Codec, raw: seq<Block>, imgs: seq<Disk>,
      txs: seq<seq<nat>>, ts: seq<L.Txn<Block>>)
    requires Chain(sb, imgs, txs) && AllCommit(sb, c, imgs, txs, ts) && L.SameHome(lo, raw, Encode(sb, c, imgs[0]))
    ensures L.SameHome(lo, L.Atomically(raw, ts), Encode(sb, c, imgs[|ts|]))
    decreases |ts|
  {
    hide OnlyIn, Commits, L.SameHome, L.Target, Encode, Elems;
    if ts != [] {
      var n := |ts| - 1;
      AtomicallyIs(lo, sb, c, raw, imgs, txs, ts[..n]);
      assert Commits(sb, c, imgs[n + 1], Elems(txs[n]), ts[n]);
      TargetIsNext(lo, sb, c, L.Atomically(raw, ts[..n]), imgs[n], imgs[n + 1], Elems(txs[n]), ts[n]);
    }
  }

  // ---------- the log area ----------

  /** The log lies before the inodes and holds an operation's reservation. */
  ghost predicate LogBefore(lo: L.Layout<Block>, sb: Super, d: Disk) {
    && lo.start + lo.size <= sb.inodestart && lo.size > MAXOPBLOCKS && lo.RoundTrips() && Layout(sb, d)
    && sb.bmapstart <= sb.data <= sb.size && sb.inodestart <= sb.bmapstart
  }

  lemma {:induction false} HeaderFits(lo: L.Layout<Block>, sb: Super, c: Codec, d: Disk, u: Disk, raw: seq<Block>,
      tx: set<nat>, t: L.Txn<Block>)
    requires LogBefore(lo, sb, d) && |raw| == sb.size && FsBlocks(sb, |d.inodes|, tx) && |tx| <= MAXOPBLOCKS
    requires Commits(sb, c, u, tx, t)
    ensures L.Loggable(lo, raw, t.h)
  {
    HeaderLength(t.h, tx);
    forall i | 0 <= i < |t.h|
      ensures t.h[i] < |raw| && !lo.InLog(t.h[i])
    {
      var x: nat := t.h[i];
      assert x in tx;
      if IsBBlock(sb, x) {
        var b: nat :| b < sb.size && x == BBlock(sb, b);
      } else if IsIBlock(sb, |d.inodes|, x) {
        var k: nat :| k < |d.inodes| && x == IBlock(sb, k);
        assert x < sb.bmapstart;
      }
    }
  }

  /** A list without repetitions is as long as its set. */
  lemma {:induction false} HeaderLength(h: seq<Uint>, s: set<nat>)
    requires Distinct(h) && forall x: nat :: x in h <==> x in s
    ensures |h| == |s|
    decreases |h|
  {
    if h == [] {
      assert s == {};
    } else {
      var n := |h| - 1;
      var last: nat := h[n];
      assert last in h;
      assert last in s;
      forall x: nat
        ensures x in h[..n] <==> x in s - {last}
      {
        if x in h[..n] {
          var i :| 0 <= i < n && h[i] == x;
          assert h[i] in h;
        }
        if x in s - {last} {
          var i :| 0 <= i < |h| && h[i] == x;
          assert h[..n][i] == x;
        }
      }
      HeaderLength(h[..n], s - {last});
      assert s == (s - {last}) + {last};
    }
  }

  // ---------- the theorem ----------

  /**
    A write in chunks, each committed as one transaction, is cut off by a crash at any point k of the
    commit of chunk |ts|, and recovery is itself cut off any number of times. The recovered disk is that of
    a file system in which every block has one owner, no file has a hole, and the file holds exactly the
    chunks whose header reached the disk.
   */
  lemma {:induction false} FilewriteSurvivesCrash(lo: L.Layout<Block>, sb: Super, c: Codec, raw: seq<Block>,
      imgs: seq<Disk>, txs: seq<seq<nat>>,
      ino: nat, off: nat, addr: seq<Byte>, ts: seq<L.Txn<Block>>, t: L.Txn<Block>, k: nat, cuts: seq<nat>)
    requires Chunks(sb, imgs, txs, ino, off, addr) && LogBefore(lo, sb, imgs[0])
    requires L.Quiet(lo, raw) && L.SameHome(lo, raw, Encode(sb, c, imgs[0]))
    requires |ts| < |txs| && AllCommit(sb, c, imgs, txs, ts + [t])
    ensures L.AllLoggable(lo, raw, ts) && L.Loggable(lo, L.CommitAll(lo, raw, ts), t.h)
    ensures k <= |L.CommitWrites(lo, L.CommitAll(lo, raw, ts), t.dirty, t.h)| ==>
      var done := if k <= |t.h| then |ts| else |ts| + 1;
      && L.SameHome(lo, L.AfterCrash(lo, L.CommitAll(lo, raw, ts), t.dirty, t.h, k, cuts), Encode(sb, c, imgs[done]))
      && Owned(sb, imgs[done]) && NoHoles(imgs[done])
      && FileWritten(imgs[0], imgs[done], ino, off, addr[..ChunksEnd(done, |addr|)])
  {
    hide L.Quiet, L.SameHome, L.CommitAll, L.CommitWrites, L.AfterCrash, L.Atomically, L.Loggable;
    hide Owned, NoHoles, FileWritten, Encode, OnlyIn, Commits, FsBlocks, LogBefore, Elems, WithinLimit;
    Sized(lo, sb, c, raw, imgs[0]);
    forall i | 0 <= i < |ts| + 1
      ensures L.Loggable(lo, raw, (ts + [t])[i].h)
    {
      HeaderFits(lo, sb, c, imgs[0], imgs[i + 1], raw, Elems(txs[i]), (ts + [t])[i]);
    }
    assert (ts + [t])[|ts|] == t;
    assert forall i :: 0 <= i < |ts| ==> (ts + [t])[i] == ts[i];
    StillLoggable(lo, raw, ts, t.h);
    if k <= |L.CommitWrites(lo, L.CommitAll(lo, raw, ts), t.dirty, t.h)| {
      L.RunSurvivesCrash(lo, raw, ts, t, k, cuts);
      assert AllCommit(sb, c, imgs, txs, ts);
      AtomicallyIs(lo, sb, c, raw, imgs, txs, ts);
      AtomicallyIs(lo, sb, c, raw, imgs, txs, ts + [t]);
      HomeIsTransitive(lo, L.AfterCrash(lo, L.CommitAll(lo, raw, ts), t.dirty, t.h, k, cuts),
                       L.Atomically(raw, if k <= |t.h| then ts else ts + [t]),
                       Encode(sb, c, imgs[if k <= |t.h| then |ts| else |ts| + 1]));
    }
  }

  lemma {:induction false} Sized(lo: L.Layout<Block>, sb: Super, c: Codec, raw: seq<Block>, d: Disk)
    requires L.SameHome(lo, raw, Encode(sb, c, d)) && Owned(sb, d)
    ensures |raw| == sb.size
  {
  }

  lemma {:induction false} StillLoggable(lo: L.Layout<Block>, raw: seq<Block>, ts: seq<L.Txn<Block>>, h: L.Header)
    requires L.Quiet(lo, raw) && L.AllLoggable(lo, raw, ts) && L.Loggable(lo, raw, h)
    ensures L.Loggable(lo, L.CommitAll(lo, raw, ts), h)
  {
    hide L.CommitAll, L.Quiet, L.AllLoggable;
  }

  lemma {:induction false} HomeIsTransitive(lo: L.Layout<Block>, a: seq<Block>, b: seq<Block>, d: seq<Block>)
    requires L.SameHome(lo, a, b) && L.SameHome(lo, b, d)
    ensures L.SameHome(lo, a, d)
  {
  }
}
