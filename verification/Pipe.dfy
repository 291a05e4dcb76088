/**
  The ring buffer of a pipe (pipe.c) with its 32-bit counters that wrap around: what it carries, and the
  loops that fill and drain it.
 */
module Pipe {
  import opened Common
  import opened Blocks

  const PIPESIZE := 512

  // ---------- The ring buffer ----------

  /** struct pipe: nread and nwrite are 32-bit counters. */
  datatype Ring = Ring(data: seq<Byte>, nread: nat, nwrite: nat)

  predicate Full(r: Ring) {
    r.nwrite == (r.nread + PIPESIZE) % TWO_32
  }

  predicate Empty(r: Ring) {
    r.nread == r.nwrite
  }

  /** p->data[p->nwrite++ % PIPESIZE] = b. */
  function Push(r: Ring, b: Byte): Ring
    requires |r.data| == PIPESIZE
  {
    r.(data := r.data[r.nwrite % PIPESIZE := b], nwrite := (r.nwrite + 1) % TWO_32)
  }

  function Front(r: Ring): Byte
    requires |r.data| == PIPESIZE
  {
    r.data[r.nread % PIPESIZE]
  }

  function Pop(r: Ring): Ring {
    r.(nread := (r.nread + 1) % TWO_32)
  }

  /** The ring holds the bytes written so far beyond those read so far: the reads are a prefix of the
      writes, at most PIPESIZE bytes are in flight, and the counters count modulo 2^32. */
  ghost predicate Carries(r: Ring, written: seq<Byte>, read: seq<Byte>) {
    && |r.data| == PIPESIZE
    && read <= written && |written| - |read| <= PIPESIZE
    && r.nwrite == |written| % TWO_32 && r.nread == |read| % TWO_32
    && forall i {:trigger written[i]} :: |read| <= i < |written| ==> r.data[i % PIPESIZE] == written[i]
  }

  /** Wrapped counters still tell how many bytes are in flight. */
  lemma {:induction false} WrappedCounters(a: nat, b: nat)
    requires b <= a <= b + PIPESIZE
    ensures (a % TWO_32 == (b % TWO_32 + PIPESIZE) % TWO_32) <==> a == b + PIPESIZE
    ensures (b % TWO_32 == a % TWO_32) <==> a == b
    ensures (a % TWO_32) % PIPESIZE == a % PIPESIZE
    ensures (a % TWO_32 + 1) % TWO_32 == (a + 1) % TWO_32
  {
    var q, d := b / TWO_32, b % TWO_32;
    assert b == TWO_32 * q + d;
    if d + (a - b) < TWO_32 {
      assert a == TWO_32 * q + (d + (a - b));
      ModIs(a, q, d + (a - b));
    } else {
      assert a == TWO_32 * (q + 1) + (d + (a - b) - TWO_32);
      ModIs(a, q + 1, d + (a - b) - TWO_32);
    }
    RingIndex(a);
  }

  lemma {:induction false} ModIs(a: nat, q: nat, r: nat)
    requires a == TWO_32 * q + r && r < TWO_32
    ensures a % TWO_32 == r
  {
  }

  lemma {:induction false} RingIndex(a: nat)
    ensures (a % TWO_32) % PIPESIZE == a % PIPESIZE
    ensures (a % TWO_32 + 1) % TWO_32 == (a + 1) % TWO_32
  {
    var q, r := a / TWO_32, a % TWO_32;
    assert a == PIPESIZE * (q * (TWO_32 / PIPESIZE)) + r;
    assert a + 1 == TWO_32 * q + (r + 1);
    if r + 1 < TWO_32 {
      ModIs(a + 1, q, r + 1);
    } else {
      ModIs(a + 1, q + 1, 0);
    }
  }

  lemma {:induction false} CarriesTests(r: Ring, written: seq<Byte>, read: seq<Byte>)
    requires Carries(r, written, read)
    ensures Full(r) <==> |written| == |read| + PIPESIZE
    ensures Empty(r) <==> |written| == |read|
  {
    WrappedCounters(|written|, |read|);
  }

  lemma {:induction false} PushCarries(r: Ring, written: seq<Byte>, read: seq<Byte>, b: Byte)
    requires Carries(r, written, read) && !Full(r)
    ensures Carries(Push(r, b), written + [b], read)
  {
    CarriesTests(r, written, read);
    RingIndex(|written|);
    var w, r' := written + [b], Push(r, b);
    forall i {:trigger w[i]} | |read| <= i < |w|
      ensures r'.data[i % PIPESIZE] == w[i]
    {
      if i < |written| {
        assert w[i] == written[i];
        SameSlot(i, |written|);
      }
    }
  }

  lemma {:induction false} SameSlot(i: nat, j: nat)
    requires i < j < i + PIPESIZE
    ensures i % PIPESIZE != j % PIPESIZE
  {
  }

  lemma {:induction false} PopCarries(r: Ring, written: seq<Byte>, read: seq<Byte>)
    requires Carries(r, written, read) && !Empty(r)
    ensures |read| < |written| && Front(r) == written[|read|]
    ensures Carries(Pop(r), written, read + [Front(r)])
  {
    CarriesTests(r, written, read);
    RingIndex(|read|);
    assert written[|read|] == r.data[|read| % PIPESIZE];
    assert read + [Front(r)] <= written;
  }

  // ---------- The copy loops ----------

  /** The pipe's buffer and counters, updated in place. */
  class Buffer {
    const data: array<Byte>
    var nread: nat
    var nwrite: nat
    ghost var written: seq<Byte>
    ghost var read: seq<Byte>

    ghost predicate Valid()
      reads this, data
    {
      Carries(Ring(data[..], nread, nwrite), written, read)
    }

    /** The bytes in flight, oldest first. */
    ghost function InFlight(): seq<Byte>
      reads this, data
      requires Valid()
    {
      written[|read|..]
    }

    constructor ()
      ensures Valid() && fresh(data) && InFlight() == []
    {
      data := new Byte[PIPESIZE](i => 0);
      nread, nwrite, written, read := 0, 0, [], [];
    }

    /** pipewrite between two sleeps: stores bytes of addr from index i on until the pipe is full. */
    method Fill(addr: seq<Byte>, i: nat) returns (j: nat)
      requires Valid() && i <= |addr|
      modifies this`nwrite, this`written, data
      ensures Valid() && i <= j <= |addr|
      ensures InFlight() == old(InFlight()) + addr[i..j]
      ensures j < |addr| ==> |InFlight()| == PIPESIZE
    {
      j := i;
      while j < |addr| && nwrite != (nread + PIPESIZE) % TWO_32
        invariant i <= j <= |addr| && Valid()
        invariant written == old(written) + addr[i..j]
      {
        ghost var r := Ring(data[..], nread, nwrite);
        PushCarries(r, written, read, addr[j]);
        data[nwrite % PIPESIZE] := addr[j];
        nwrite := (nwrite + 1) % TWO_32;
        written := written + [addr[j]];
        assert Ring(data[..], nread, nwrite) == Push(r, addr[j]);
        assert addr[i..j + 1] == addr[i..j] + [addr[j]];
        j := j + 1;
      }
      CarriesTests(Ring(data[..], nread, nwrite), written, read);
    }

    /** piperead's copy loop: takes up to n bytes, the oldest first. */
    method Drain(n: nat) returns (addr: seq<Byte>)
      requires Valid()
      modifies this`nread, this`read
      ensures Valid() && written == old(written)
      ensures old(InFlight()) == addr + InFlight()
      ensures |addr| == if n < |old(InFlight())| then n else |old(InFlight())|
    {
      addr := [];
      var i := 0;
      while i < n && nread != nwrite
        invariant 0 <= i <= n && |addr| == i && Valid() && written == old(written)
        invariant read == old(read) + addr
      {
        ghost var r := Ring(data[..], nread, nwrite);
        PopCarries(r, written, read);
        var b := data[nread % PIPESIZE];
        assert b == Front(r);
        addr := addr + [b];
        nread := (nread + 1) % TWO_32;
        read := read + [b];
        assert Ring(data[..], nread, nwrite) == Pop(r);
        i := i + 1;
      }
      CarriesTests(Ring(data[..], nread, nwrite), written, read);
      assert written[|old(read)|..] == addr + written[|read|..];
    }
  }
}
