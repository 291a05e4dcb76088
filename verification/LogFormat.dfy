/**
  The on-disk log header: word 0 of the header block is the count, the words after it are the
  home block numbers. write_head overwrites only those words of the buffer it read.
 */
module LogFormat {
  import opened Common
  import opened Blocks
  import opened Log
  import opened Params

  /** Stores the first k block numbers after the count. */
  function StoreEntries(b: Block, h: Header, k: nat): (r: Block)
    requires k <= |h|
    ensures Word(r, 0) == Word(b, 0)
    ensures forall i: nat :: i < k ==> Word(r, 1 + i) == h[i]
  {
    if k == 0 then b else SetWord(StoreEntries(b, h, k - 1), k, h[k - 1])
  }

  /** What write_head leaves in a header buffer that held b. */
  function EncodeHeader(b: Block, h: Header): (r: Block) {
    StoreEntries(SetWord(b, 0, |h|), h, |h|)
  }

  /** What read_head finds in a header block; a count beyond LOGSIZE has no meaning. */
  function DecodeHeader(b: Block): (h: Option<Header>) {
    if Word(b, 0) > LOGSIZE then None else Some(seq(Word(b, 0), i requires 0 <= i < LOGSIZE => Word(b, 1 + i)))
  }

  function Xv6Layout(start: nat, size: nat): (lo: Layout<Block>)
    ensures lo.start == start && lo.size == size && lo.RoundTrips()
  {
    var lo := Layout(start, size, DecodeHeader, EncodeHeader);
    assert lo.RoundTrips() by {
      forall b: Block, h: Header
        ensures lo.read(lo.write(b, h)) == Some(h)
      {
        HeaderRoundTrip(b, h);
      }
    }
    lo
  }

  /** read_head undoes write_head, whatever the header buffer held before. */
  lemma {:induction false} HeaderRoundTrip(b: Block, h: Header)
    ensures DecodeHeader(EncodeHeader(b, h)) == Some(h)
  {
    hide SetWord, Word, Join;
    var r := EncodeHeader(b, h);
    var got := DecodeHeader(r).value;
    forall i | 0 <= i < |h|
      ensures got[i] == h[i]
    {
      assert got[i] == Word(r, 1 + i);
    }
    assert got == h;
  }

  /** The loop of write_head computes EncodeHeader. */
  method StoreHeader(buf: Block, h: Header) returns (hb: Block)
    ensures hb == EncodeHeader(buf, h)
  {
    hide SetWord, Word, Join;
    hb := SetWord(buf, 0, |h|);
    var i := 0;
    while i < |h|
      invariant 0 <= i <= |h|
      invariant hb == StoreEntries(SetWord(buf, 0, |h|), h, i)
    {
      hb := SetWord(hb, 1 + i, h[i]);
      i := i + 1;
    }
  }

  /** The loop of read_head computes DecodeHeader. */
  method LoadHeader(hb: Block) returns (h: Header)
    requires DecodeHeader(hb).Some?
    ensures DecodeHeader(hb) == Some(h)
  {
    hide Word;
    h := [];
    var i, n := 0, Word(hb, 0);
    while i < n
      invariant 0 <= i <= n <= LOGSIZE
      invariant |h| == i && forall j :: 0 <= j < i ==> h[j] == Word(hb, 1 + j)
    {
      h := h + [Word(hb, 1 + i)];
      i := i + 1;
    }
    assert DecodeHeader(hb).value == h;
  }

  // ---------- A new disk ----------

  lemma {:induction false} ZeroWord(i: nat)
    requires i < WORDS
    ensures Word(ZeroBlock(), i) == 0
  {
  }

  /** The zeroed header block that mkfs leaves holds no transaction. */
  lemma {:induction false} ZeroHeaderIsEmpty()
    ensures DecodeHeader(ZeroBlock()) == Some([])
  {
    hide ZeroBlock, Word;
    ZeroWord(0);
  }

  lemma {:induction false} ZeroAgain(b: Block)
    requires forall i :: 0 <= i < BSIZE ==> b.bytes[i] == 0
    ensures SetWord(b, 0, 0) == b
  {
    hide Word, Join;
    assert SetWord(b, 0, 0).bytes == b.bytes;
  }

  lemma {:induction false} ClearingZeroes()
    ensures EncodeHeader(ZeroBlock(), []) == ZeroBlock()
  {
    hide Word, Join, SetWord, Copies;
    ZeroAgain(ZeroBlock());
  }

  /** So the first recover_from_log on a new disk changes no block at all. */
  lemma {:induction false} NewDiskIsQuiet(lo: Layout<Block>, d: Disk<Block>)
    requires lo == Xv6Layout(lo.start, lo.size)
    requires 0 < lo.size && lo.start + lo.size <= |d| && d[lo.start] == ZeroBlock()
    ensures Quiet(lo, d) && ApplyAll(d, RecoverWrites(lo, d)) == d
  {
    hide ZeroBlock, DecodeHeader, EncodeHeader, RecoverWrites, Loggable;
    ZeroHeaderIsEmpty();
    ClearingZeroes();
    assert lo.read(d[lo.start]) == Some([]) && lo.write(d[lo.start], []) == d[lo.start];
    EmptyIsQuiet(lo, d);
    NothingToInstall(lo, d);
  }
}
