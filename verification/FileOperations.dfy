/**
  The file system's writes and closes as operations of the log (file.c, fs.c, log.c): any number of them at
  a time, interleaved in any way, never panic in log_write.
 */
module FileOperations {
  import opened Params
  import opened Fs
  import opened FsFile
  import opened FsFoot
  import opened FsCost
  import opened FileSystem
  import opened FileWrite
  import opened TruncBound
  import O = LogOperations

  /** The calls of log_write of one chunk of a filewrite, on any disk without holes. */
  ghost predicate IsChunk(calls: seq<nat>) {
    exists sb: Super, d: Disk, u: Disk, ino: nat, off: nat, n: nat {:trigger ChunkOf(sb, d, u, ino, off, n, calls)} ::
      ChunkOf(sb, d, u, ino, off, n, calls)
  }

  /** The chunk of n bytes at off takes the disk from d to u with these calls, as Writei does. */
  ghost predicate ChunkOf(sb: Super, d: Disk, u: Disk, ino: nat, off: nat, n: nat, calls: seq<nat>) {
    && NoHoles(d) && Owned(sb, u) && ino < |d.inodes| && off <= d.inodes[ino].size && n <= MAX_CHUNK
    && Covers(d, u, ino, FirstBlock(off), EndBlock(off, n)) && InodeLast(sb, {}, calls, d, u, ino, off, n)
  }

  /** The calls of a close that frees its file, on any disk with fewer than MAXOPBLOCKS - 1 bitmap blocks. */
  ghost predicate IsClose(calls: seq<nat>) {
    exists sb: Super, d: Disk, ino: nat {:trigger CloseOf(sb, d, ino, calls)} :: CloseOf(sb, d, ino, calls)
  }

  ghost predicate CloseOf(sb: Super, d: Disk, ino: nat, calls: seq<nat>) {
    && Owned(sb, d) && ino < |d.inodes| && Layout(sb, d) && sb.size <= (MAXOPBLOCKS - 2) * BPB
    && calls == PutCalls(sb, d, ino)
  }

  lemma {:induction false} ChunkIsWithin(calls: seq<nat>)
    requires IsChunk(calls)
    ensures WithinLimit(calls)
  {
    hide NoHoles, Owned, Covers, InodeLast, WithinLimit, Elems, FirstBlock, EndBlock;
    var sb: Super, d: Disk, u: Disk, ino: nat, off: nat, n: nat :| ChunkOf(sb, d, u, ino, off, n, calls);
    ChunkWithinLimit(sb, d, u, ino, off, n, calls);
  }

  lemma {:induction false} CloseIsWithin(calls: seq<nat>)
    requires IsClose(calls)
    ensures WithinLimit(calls)
  {
    hide Owned, Layout, WithinLimit, PutCalls;
    var sb: Super, d: Disk, ino: nat :| CloseOf(sb, d, ino, calls);
    SmallDiskFits(sb, d, ino);
  }

  /** Concurrent chunks and closes never panic, with a log area that has a block for each of LOGSIZE entries. */
  lemma {:induction false} FileOperationsNeverPanic(size: nat)
    requires size > LOGSIZE
    ensures O.Safe(size, iset calls | IsChunk(calls) || IsClose(calls))
  {
    hide IsChunk, IsClose, WithinLimit, O.Safe;
    var lists := iset calls | IsChunk(calls) || IsClose(calls);
    forall calls | calls in lists
      ensures WithinLimit(calls)
    {
      if IsChunk(calls) {
        ChunkIsWithin(calls);
      } else {
        CloseIsWithin(calls);
      }
    }
    O.WithinLimitNeverPanics(size, lists);
  }
}
