/**
  malloc, free and morecore of umalloc.c on a memory of headers linked in a ring. Addresses are counted
  in header units; `base` has address 0. The ghost fields say what the ring stands for: the list of free
  blocks in address order, the live blocks, and the units obtained from sbrk.
 */
module Umalloc {
  import opened Common
  import opened FreeList

  datatype Header = Header(ptr: nat, size: nat)

  const MIN_CORE := 4096
  // ---------- sizes ----------

  /** malloc's unit count in 32-bit unsigned arithmetic: a header and enough 8-byte units. */
  function NUnits(nbytes: nat): (n: nat)
    requires nbytes < TWO_32
    ensures n > 0
  {
    (nbytes + 7) % TWO_32 / 8 + 1
  }

  function CoreUnits(nunits: nat): (nu: nat)
    ensures nu >= nunits && nu > 0
  {
    if nunits < MIN_CORE then MIN_CORE else nunits
  }

  /** The int that sbrk receives: nu * 8 truncated to 32 bits and read as signed. */
  function SbrkArgument(nu: nat): (n: int) {
    var w := nu * 8 % TWO_32;
    if w < 0x8000_0000 then w else w - TWO_32
  }

  /** The units returned hold the bytes asked for exactly when the rounding does not wrap. */
  lemma {:induction false} UnitsHoldBytesIff(nbytes: nat)
    requires nbytes < TWO_32
    ensures (NUnits(nbytes) - 1) * 8 >= nbytes <==> nbytes <= TWO_32 - 8
    ensures nbytes <= TWO_32 - 8 ==> (NUnits(nbytes) - 1) * 8 < nbytes + 8
  {
    if nbytes <= TWO_32 - 8 {
      assert (nbytes + 7) % TWO_32 == nbytes + 7;
    } else {
      assert (nbytes + 7) % TWO_32 == nbytes + 7 - TWO_32;
    }
  }

  /** The largest request gets a bare header. */
  lemma {:induction false} LargestRequestGetsNothing()
    ensures NUnits(TWO_32 - 1) == 1
  {
  }

  /** sbrk is asked for the bytes morecore then frees exactly when the request is below 2 GiB. */
  lemma {:induction false} SbrkAskedRightIff(nbytes: nat)
    requires nbytes <= TWO_32 - 8
    ensures SbrkArgument(CoreUnits(NUnits(nbytes))) == 8 * CoreUnits(NUnits(nbytes)) <==> nbytes <= 0x8000_0000 - 16
  {
    assert (nbytes + 7) % TWO_32 == nbytes + 7;
    var nu := CoreUnits(NUnits(nbytes));
    assert nu * 8 % TWO_32 <= nu * 8;
  }

  /** sbrk was asked for nu units and returned a region above everything it gave before. */
  ghost predicate Grants(region: int, nu: nat, core: set<nat>) {
    SbrkArgument(nu) == 8 * nu && region > BASE && forall u :: u in core ==> u < region
  }

  // ---------- the ring ----------

  function Follow(fs: seq<Blk>, i: int): nat {
    if 0 <= i && i + 1 < |fs| then fs[i + 1].addr else BASE
  }

  ghost predicate Node(mem: map<nat, Header>, fs: seq<Blk>, i: int) {
    0 <= i < |fs| ==> fs[i].addr in mem && mem[fs[i].addr] == Header(Follow(fs, i), fs[i].size)
  }

  ghost predicate Linked(mem: map<nat, Header>, fs: seq<Blk>) {
    forall i :: Node(mem, fs, i)
  }

  ghost predicate Headed(mem: map<nat, Header>, live: set<Blk>) {
    forall b :: b in live ==> b.addr in mem && mem[b.addr].size == b.size
  }

  /** Steps forward around a ring of n from position a to position b. */
  function Dist(a: int, b: int, n: int): int {
    if b >= a then b - a else b - a + n
  }

  lemma {:induction false} AddrsAscend(fs: seq<Blk>, i: int, j: int)
    requires Ordered(fs) && 0 <= i < j < |fs|
    ensures fs[i].addr < fs[j].addr
  {
  }

  lemma {:induction false} PositionExists(fs: seq<Blk>, bp: nat) returns (i: nat)
    requires Ordered(fs) && bp > BASE
    requires forall k :: 0 <= k < |fs| ==> fs[k].addr != bp
    ensures Position(fs, i, bp)
  {
    i := 0;
    while i + 1 < |fs| && fs[i + 1].addr < bp
      invariant 0 <= i < |fs| && fs[i].addr < bp
    {
      i := i + 1;
    }
  }

  /** free's two exits from its search together mean: bp goes right after p. */
  lemma {:induction false} SearchStops(fs: seq<Blk>, k: int, bp: nat)
    requires Ordered(fs) && 0 <= k < |fs| && bp > BASE
    ensures var p, q := fs[k].addr, Follow(fs, k);
      ((p < bp < q) || (p >= q && (bp > p || bp < q))) <==> Position(fs, k, bp)
  {
    if k + 1 < |fs| {
      AddrsAscend(fs, k, k + 1);
    }
  }

  // ---------- free's pointer writes ----------

  /** bp's header after free's first test: joined with the successor q when they touch. */
  function RightHeader(mem: map<nat, Header>, bp: nat, q: nat): (h: Header)
    requires bp in mem && q in mem
  {
    if bp + mem[bp].size == q then Header(mem[q].ptr, mem[bp].size + mem[q].size)
    else Header(q, mem[bp].size)
  }

  /** p's header after free's second test: joined with bp when they touch. */
  function LeftHeader(mem: map<nat, Header>, p: nat, bp: nat): (h: Header)
    requires p in mem && bp in mem
  {
    if p + mem[p].size == bp then Header(mem[bp].ptr, mem[p].size + mem[bp].size)
    else Header(bp, mem[p].size)
  }

  /** Linked everywhere but at i, whose own link still skips the block after it. */
  ghost predicate AlmostLinked(mem: map<nat, Header>, fs: seq<Blk>, i: int) {
    && (forall j :: j != i ==> Node(mem, fs, j))
    && 0 <= i < |fs| && fs[i].addr in mem && mem[fs[i].addr].size == fs[i].size
  }

  lemma {:induction false} SpliceLinks(mem: map<nat, Header>, fs: seq<Blk>, i: nat, b: Blk)
    requires Linked(mem, fs) && Ordered(fs) && i < |fs|
    requires b.addr in mem && mem[b.addr].size == b.size
    requires forall k :: 0 <= k < |fs| ==> fs[k].addr != b.addr
    ensures AlmostLinked(mem[b.addr := Header(Follow(fs, i), b.size)], Splice(fs, i, b), i)
  {
    hide Splice, Ordered;
    SpliceAt(fs, i, b);
    var r := Splice(fs, i, b);
    var m := mem[b.addr := Header(Follow(fs, i), b.size)];
    forall j | j != i
      ensures Node(m, r, j)
    {
      assert Node(mem, fs, j) && Node(mem, fs, j - 1);
    }
    assert Node(mem, fs, i);
  }

  function Joined(fs: seq<Blk>, k: nat): Header
    requires k + 1 < |fs|
  {
    Header(Follow(fs, k + 1), fs[k].size + fs[k + 1].size)
  }

  lemma {:induction false} JoinLinks(mem: map<nat, Header>, fs: seq<Blk>, k: nat, skip: int, m: map<nat, Header>)
    requires Ordered(fs) && Touch(fs, k) && k > 0
    requires forall j :: j != skip ==> Node(mem, fs, j)
    requires skip <= k
    requires fs[k].addr in mem && m == mem[fs[k].addr := Joined(fs, k)]
    ensures forall j :: j != skip || j == k ==> Node(m, Join(fs, k), j)
  {
    hide Join, Ordered;
    JoinAt(fs, k);
    var r := Join(fs, k);
    assert Node(mem, fs, k + 1);
    forall j | j != skip || j == k
      ensures Node(m, r, j)
    {
      assert j != skip ==> Node(mem, fs, j);
      assert Node(mem, fs, j + 1) || j + 1 == skip;
      if 0 <= j < k {
        AddrsAscend(fs, j, k);
      } else if k < j < |r| {
        AddrsAscend(fs, k, j + 1);
      }
    }
  }

  lemma {:induction false} RelinkRight(mem: map<nat, Header>, fs: seq<Blk>, i: nat, b: Blk)
    requires Linked(mem, fs) && Chain(fs) && Outside(b, fs) && Position(fs, i, b.addr)
    requires b.addr in mem && mem[b.addr].size == b.size
    ensures Follow(fs, i) in mem
    ensures AlmostLinked(mem[b.addr := RightHeader(mem, b.addr, Follow(fs, i))], Join(Splice(fs, i, b), i + 1), i)
    ensures var t := Join(Splice(fs, i, b), i + 1);
      Ordered(t) && i + 1 < |t| && t[i] == fs[i] && t[i + 1].addr == b.addr
  {
    hide Splice, Join, Ordered;
    var r := Splice(fs, i, b);
    SpliceAt(fs, i, b);
    SpliceOrdered(fs, i, b);
    JoinOrdered(r, i + 1);
    assert forall k :: 0 <= k < |fs| ==> fs[k].addr != b.addr by { AwayFromAddrs(b, fs); }
    SpliceLinks(mem, fs, i, b);
    assert Node(mem, fs, i) && Node(mem, fs, i + 1) && Node(mem, fs, 0);
    assert fs[0].addr == BASE by { BaseFirst(fs); }
    if Touch(r, i + 1) {
      JoinAt(r, i + 1);
      var m := mem[b.addr := Header(Follow(fs, i), b.size)];
      JoinLinks(m, r, i + 1, i, mem[b.addr := RightHeader(mem, b.addr, Follow(fs, i))]);
    } else {
      JoinSame(r, i + 1);
    }
  }

  lemma {:induction false} AwayFromAddrs(b: Blk, fs: seq<Blk>)
    requires Outside(b, fs) && Ordered(fs)
    ensures forall k :: 0 <= k < |fs| ==> fs[k].addr != b.addr
  {
  }

  lemma {:induction false} BaseFirst(fs: seq<Blk>)
    requires Ordered(fs)
    ensures |fs| > 0 && fs[0] == Blk(BASE, 0) && !Touch(fs, 0)
  {
  }

  lemma {:induction false} RelinkLeft(mem: map<nat, Header>, t: seq<Blk>, i: nat)
    requires Ordered(t) && i + 1 < |t| && AlmostLinked(mem, t, i)
    ensures t[i + 1].addr in mem
    ensures Linked(mem[t[i].addr := LeftHeader(mem, t[i].addr, t[i + 1].addr)], Join(t, i))
  {
    hide Join, Ordered;
    assert Node(mem, t, i + 1);
    BaseFirst(t);
    var m := mem[t[i].addr := LeftHeader(mem, t[i].addr, t[i + 1].addr)];
    if Touch(t, i) {
      JoinLinks(mem, t, i, i, m);
    } else {
      JoinSame(t, i);
      forall j
        ensures Node(m, t, j)
      {
        if j != i && 0 <= j < |t| {
          AddrsAscend(t, if j < i then j else i, if j < i then i else j);
          assert Node(mem, t, j);
        }
      }
    }
  }

  lemma {:induction false} LinkedAt(mem: map<nat, Header>, fs: seq<Blk>, i: int)
    requires Linked(mem, fs)
    ensures Node(mem, fs, i)
  {
  }

  lemma {:induction false} LiveOutside(fs: seq<Blk>, live: set<Blk>, core: set<nat>, b: Blk)
    requires Sound(fs, live, core) && b in live
    ensures Chain(fs) && Outside(b, fs) && b.addr > BASE
    ensures forall j :: 0 <= j < |fs| ==> fs[j].addr != b.addr
  {
  }

  /** No other live block has its header where free writes. */
  lemma {:induction false} LiveAway(fs: seq<Blk>, live: set<Blk>, core: set<nat>, i: nat, b: Blk)
    requires Sound(fs, live, core) && b in live && i < |fs|
    ensures forall a :: a in live - {b} ==> a.addr != b.addr && a.addr != fs[i].addr
  {
    forall a | a in live - {b}
      ensures a.addr != b.addr && a.addr != fs[i].addr
    {
      assert Apart(a, b) && Apart(a, fs[i]);
    }
  }

  lemma {:induction false} InsertStart(t: seq<Blk>, i: nat)
    requires i < |t|
    ensures i < |Join(t, i)| && Join(t, i)[i].addr == t[i].addr
  {
  }

  // ---------- malloc's pointer writes ----------

  /** Unlinking fs[i], or cutting n units off its end, leaves the ring of the remaining list. */
  lemma {:induction false} UnlinkLinks(mem: map<nat, Header>, fs: seq<Blk>, i: nat, n: nat)
    requires Linked(mem, fs) && Ordered(fs) && 0 < i < |fs| && n == fs[i].size
    ensures Linked(mem[fs[i - 1].addr := Header(Follow(fs, i), fs[i - 1].size)], Take(fs, i, n))
  {
    hide Take, Ordered;
    TakeAt(fs, i, n);
    var m, r := mem[fs[i - 1].addr := Header(Follow(fs, i), fs[i - 1].size)], Take(fs, i, n);
    forall j
      ensures Node(m, r, j)
    {
      assert Node(mem, fs, j) && Node(mem, fs, j + 1);
      if 0 <= j < i - 1 {
        AddrsAscend(fs, j, i - 1);
      } else if i <= j < |r| {
        AddrsAscend(fs, i - 1, j + 1);
      }
    }
  }

  lemma {:induction false} CutLinks(mem: map<nat, Header>, fs: seq<Blk>, i: nat, n: nat, h: Header)
    requires Linked(mem, fs) && Ordered(fs) && 0 < i < |fs| && 0 < n < fs[i].size
    ensures Linked(mem[fs[i].addr := Header(Follow(fs, i), fs[i].size - n)][Taken(fs, i, n).addr := h], Take(fs, i, n))
  {
    hide Take, Ordered;
    TakeAt(fs, i, n);
    var m, r := mem[fs[i].addr := Header(Follow(fs, i), fs[i].size - n)][Taken(fs, i, n).addr := h], Take(fs, i, n);
    forall j
      ensures Node(m, r, j)
    {
      assert Node(mem, fs, j);
      if 0 <= j < i {
        AddrsAscend(fs, j, i);
      } else if i < j < |r| {
        BlockEnds(fs, i, j);
      }
    }
  }

  lemma {:induction false} BlockEnds(fs: seq<Blk>, i: int, j: int)
    requires Ordered(fs) && 0 <= i < j < |fs|
    ensures fs[i].addr + fs[i].size <= fs[j].addr
  {
  }

  /** No live block has its header where malloc writes. */
  lemma {:induction false} LiveAwayFromTake(fs: seq<Blk>, live: set<Blk>, core: set<nat>, i: nat, n: nat)
    requires Sound(fs, live, core) && 0 < i < |fs| && 0 < n <= fs[i].size
    ensures forall a :: a in live ==> a.addr != fs[i - 1].addr && a.addr != fs[i].addr && a.addr != Taken(fs, i, n).addr
  {
    forall a | a in live
      ensures a.addr != fs[i - 1].addr && a.addr != fs[i].addr && a.addr != Taken(fs, i, n).addr
    {
      assert Apart(a, fs[i - 1]) && Apart(a, fs[i]);
    }
  }

  lemma {:induction false} SoundOrdered(fs: seq<Blk>, live: set<Blk>, core: set<nat>)
    requires Sound(fs, live, core)
    ensures Ordered(fs)
  {
  }

  lemma {:induction false} TakeStart(fs: seq<Blk>, i: nat, n: nat)
    requires 0 < i < |fs| && n <= fs[i].size
    ensures i - 1 < |Take(fs, i, n)| && Take(fs, i, n)[i - 1] == fs[i - 1]
  {
  }

  /** Some block around the insertion point holds at least what was inserted. */
  lemma {:induction false} InsertHolds(fs: seq<Blk>, i: nat, b: Blk) returns (j: nat)
    requires i < |fs|
    ensures j < |Insert(fs, i, b)| && Insert(fs, i, b)[j].size >= b.size && (j == i || j == i + 1)
  {
    var r := Splice(fs, i, b);
    var t := Join(r, i + 1);
    assert t[i] == fs[i] && t[i + 1].size >= b.size;
    j := if Touch(t, i) then i else i + 1;
    if Touch(t, i) {
      JoinAt(t, i);
    } else {
      JoinSame(t, i);
    }
  }

  lemma {:induction false} RegionAway(fs: seq<Blk>, live: set<Blk>, core: set<nat>, b: Blk)
    requires Sound(fs, live, core) && b.addr > BASE && forall u :: u in core ==> u < b.addr
    ensures forall j :: 0 <= j < |fs| ==> fs[j].addr < b.addr
    ensures forall a :: a in live ==> a.addr != b.addr
  {
    FreeBelow(fs, live, core, b);
    forall j | 0 <= j < |fs|
      ensures fs[j].addr < b.addr
    {
      assert j > 0 ==> fs[j].size > 0;
    }
    forall a | a in live
      ensures a.addr != b.addr
    {
      assert a.Covers(a.addr) && LiveUnit(live, a.addr);
      assert a.addr in core;
    }
  }

  lemma {:induction false} FrameLinked(mem: map<nat, Header>, m: map<nat, Header>, fs: seq<Blk>)
    requires Linked(mem, fs)
    requires forall j :: 0 <= j < |fs| ==> fs[j].addr in mem ==> fs[j].addr in m && m[fs[j].addr] == mem[fs[j].addr]
    ensures Linked(m, fs)
  {
    forall j
      ensures Node(m, fs, j)
    {
      assert Node(mem, fs, j);
    }
  }

  // ---------- malloc's walk ----------

  function After(i: nat, n: nat): nat {
    if i + 1 < n then i + 1 else 0
  }

  /** What a header on the ring says. */
  lemma {:induction false} RingStep(mem: map<nat, Header>, fs: seq<Blk>, live: set<Blk>, core: set<nat>, i: nat)
    requires Sound(fs, live, core) && Linked(mem, fs) && i < |fs|
    ensures fs[i].addr in mem && mem[fs[i].addr] == Header(fs[After(i, |fs|)].addr, fs[i].size)
    ensures fs[i].size > 0 ==> i > 0
  {
    assert Node(mem, fs, i);
  }

  /** The order in which malloc looks at the blocks: from the one after freep around to freep itself. */
  function Rank(at: int, j: int, n: int): int {
    if j > at then j - at else j - at + n
  }

  lemma {:induction false} RankStep(at: int, i: int, n: int)
    requires 0 <= at < n && 0 <= i < n
    ensures 1 <= Rank(at, i, n) <= n && (Rank(at, i, n) == n <==> i == at)
    ensures i != at ==> Rank(at, After(i, n), n) == Rank(at, i, n) + 1
  {
  }

  ghost predicate NoneFits(fs: seq<Blk>, n: nat) {
    forall j :: 0 <= j < |fs| ==> fs[j].size < n
  }

  ghost predicate NoneFitsBefore(fs: seq<Blk>, at: int, n: nat, rank: int) {
    forall j :: 0 <= j < |fs| && Rank(at, j, |fs|) < rank ==> fs[j].size < n
  }

  lemma {:induction false} StartRing(mem: map<nat, Header>, fs: seq<Blk>, live: set<Blk>)
    requires fs == [Blk(BASE, 0)] && live == {}
    ensures Linked(mem[BASE := Header(BASE, 0)], fs) && Headed(mem[BASE := Header(BASE, 0)], live)
  {
  }

  lemma {:induction false} SamePlace(fs: seq<Blk>, live: set<Blk>, core: set<nat>, i: int, j: int)
    requires Sound(fs, live, core) && 0 <= i < |fs| && 0 <= j < |fs| && fs[i].addr == fs[j].addr
    ensures i == j
  {
    if i < j {
      AddrsAscend(fs, i, j);
    } else if j < i {
      AddrsAscend(fs, j, i);
    }
  }

  lemma {:induction false} SomeFits(fs: seq<Blk>, i: int, n: nat)
    requires 0 <= i < |fs| && fs[i].size >= n
    ensures !NoneFits(fs, n)
  {
  }

  lemma {:induction false} NoneBeforeFirst(fs: seq<Blk>, at: int, n: nat)
    requires 0 <= at < |fs|
    ensures NoneFitsBefore(fs, at, n, Rank(at, After(at, |fs|), |fs|))
  {
  }

  lemma {:induction false} NoneBeforeNext(fs: seq<Blk>, at: int, n: nat, i: int)
    requires 0 <= at < |fs| && 0 <= i < |fs| && fs[i].size < n
    requires NoneFitsBefore(fs, at, n, Rank(at, i, |fs|))
    ensures NoneFitsBefore(fs, at, n, Rank(at, i, |fs|) + 1)
  {
  }

  lemma {:induction false} NoneBeforeEnd(fs: seq<Blk>, at: int, n: nat)
    requires 0 <= at < |fs| && NoneFitsBefore(fs, at, n, |fs| + 1)
    ensures NoneFits(fs, n)
  {
  }

  class Heap {
    var mem: map<nat, Header>
    var freep: nat
    var started: bool
    ghost var fs: seq<Blk>
    ghost var at: nat
    ghost var live: set<Blk>
    ghost var core: set<nat>

    /** The ring is the address-ordered list, freep is somewhere on it, and live and free units partition the core. */
    ghost predicate Valid()
      reads this
    {
      && Sound(fs, live, core) && Headed(mem, live)
      && at < |fs| && fs[at].addr == freep
      && if started then Linked(mem, fs) else fs == [Blk(BASE, 0)] && live == {}
    }

    constructor ()
      ensures Valid() && live == {} && core == {} && !started
    {
      mem, freep, started := map[], BASE, false;
      fs, at, live, core := [Blk(BASE, 0)], 0, {}, {};
    }

    /** free's search ends at the one place for bp, from wherever freep is. */
    method Search(bp: nat) returns (p: nat, ghost k: nat)
      requires Valid() && started && bp > BASE
      requires forall j :: 0 <= j < |fs| ==> fs[j].addr != bp
      ensures Position(fs, k, bp) && fs[k].addr == p
    {
      hide Touch;
      ghost var goal := PositionExists(fs, bp);
      p, k := freep, at;
      assert Node(mem, fs, k);
      while !(bp > p && bp < mem[p].ptr)
        invariant 0 <= k < |fs| && fs[k].addr == p && Node(mem, fs, k)
        decreases Dist(k, goal, |fs|)
      {
        SearchStops(fs, k, bp);
        if p >= mem[p].ptr && (bp > p || bp < mem[p].ptr) {
          break;
        }
        p := mem[p].ptr;
        k := if k + 1 < |fs| then k + 1 else 0;
        assert Node(mem, fs, k);
      }
      SearchStops(fs, k, bp);
    }

    /** free gives the block's units back, joined with the free neighbours they touch. */
    method Free(ap: nat, ghost b: Blk) returns (ghost i: nat)
      requires Valid() && started && b in live && ap == b.addr + 1
      modifies this
      ensures Valid() && started && live == old(live) - {b} && core == old(core)
      ensures Position(old(fs), i, b.addr) && fs == Insert(old(fs), i, b) && at == i
    {
      hide Join, Splice, Touch, Apart, Ordered, Linked, AlmostLinked, Sound, Chain, Outside;
      var bp := ap - 1;
      LiveOutside(fs, live, core, b);
      var p;
      p, i := Search(bp);
      assert Node(mem, fs, i) by { LinkedAt(mem, fs, i); }
      RelinkRight(mem, fs, i, b);
      ghost var t := Join(Splice(fs, i, b), i + 1);
      var q := mem[p].ptr;
      if bp + mem[bp].size == q {
        mem := mem[bp := Header(mem[q].ptr, mem[bp].size + mem[q].size)];
      } else {
        mem := mem[bp := Header(q, mem[bp].size)];
      }
      RelinkLeft(mem, t, i);
      if p + mem[p].size == bp {
        mem := mem[p := Header(mem[bp].ptr, mem[p].size + mem[bp].size)];
      } else {
        mem := mem[p := Header(bp, mem[p].size)];
      }
      freep := p;
      InsertKeepsSound(fs, live, core, i, b);
      LiveAway(fs, live, core, i, b);
      InsertStart(t, i);
      fs, live, at := Insert(fs, i, b), live - {b}, i;
    }

    /** A region from sbrk becomes free; nothing changes when sbrk fails. */
    method Morecore(nunits: nat, region: int) returns (ok: bool, ghost i: nat, ghost w: nat)
      requires Valid() && started
      requires region == -1 || Grants(region, CoreUnits(nunits), core)
      modifies this
      ensures Valid() && started && live == old(live) && ok == (region != -1)
      ensures !ok ==> fs == old(fs) && core == old(core) && mem == old(mem) && freep == old(freep) && at == old(at)
      ensures ok ==>
        var b := Blk(region, CoreUnits(nunits));
        i < |old(fs)| && core == old(core) + Units(b) && fs == Insert(old(fs), i, b) && at == i
      ensures ok ==> w < |fs| && fs[w].size >= nunits
    {
      hide Insert, Sound, Units;
      i, w := 0, 0;
      var nu := nunits;
      if nu < MIN_CORE {
        nu := MIN_CORE;
      }
      ok := region != -1;
      if ok {
        ghost var b := Blk(region, nu);
        assert forall j :: 0 <= j < |fs| ==> fs[j].addr != region && fs[j].addr < region by { RegionAway(fs, live, core, b); }
        assert forall a :: a in live ==> a.addr != region by { RegionAway(fs, live, core, b); }
        GrowKeepsSound(fs, live, core, b);
        mem := mem[region := Header(0, nu)];
        assert Linked(mem, fs) by { FrameLinked(old(mem), mem, fs); }
        live, core := live + {b}, core + Units(b);
        i := Free(region + 1, b);
        w := InsertHolds(old(fs), i, b);
      }
    }

    /** malloc takes a block that fits: all of it, or its tail end. */
    method Carve(prevp: nat, at0: nat, nunits: nat, ghost i: nat) returns (p: nat)
      requires Valid() && started && nunits > 0
      requires 0 < i < |fs| && fs[i].size >= nunits && fs[i].addr == at0 && fs[i - 1].addr == prevp
      modifies this
      ensures Valid() && started && core == old(core) && fs == Take(old(fs), i, nunits) && at == i - 1
      ensures Blk(p, nunits) == Taken(old(fs), i, nunits) && live == old(live) + {Blk(p, nunits)}
      ensures Blk(p, nunits) !in old(live)
    {
      hide Take, Sound, Ordered, Chain, Linked;
      assert Ordered(fs) by { SoundOrdered(fs, live, core); }
      assert Node(mem, fs, i) && Node(mem, fs, i - 1) by {
        LinkedAt(mem, fs, i);
        LinkedAt(mem, fs, i - 1);
      }
      LiveAwayFromTake(fs, live, core, i, nunits);
      TakeKeepsSound(fs, live, core, i, nunits);
      TakeStart(fs, i, nunits);
      p := at0;
      if mem[p].size == nunits {
        UnlinkLinks(mem, fs, i, nunits);
        mem := mem[prevp := Header(mem[p].ptr, mem[prevp].size)];
      } else {
        var rest := mem[p].size - nunits;
        CutLinks(mem, fs, i, nunits, Header(0, nunits));
        mem := mem[p := Header(mem[p].ptr, rest)];
        p := p + rest;
        mem := mem[p := Header(0, nunits)];
      }
      freep := prevp;
      fs, live, at := Take(fs, i, nunits), live + {Blk(p, nunits)}, i - 1;
    }

    /** The first call links base to itself. */
    method Start()
      requires Valid() && !started
      modifies `mem, `freep, `started
      ensures Valid() && started
    {
      hide Linked, Headed, Sound;
      StartRing(mem, fs, live);
      mem := mem[BASE := Header(BASE, 0)];
      freep, started := BASE, true;
    }

    /**
      malloc takes the first fit after freep. Only when no free block fits does it call sbrk, once, and
      then it always succeeds; it returns null exactly when that call fails.
     */
    method Malloc(nbytes: nat, region: int) returns (ap: nat, grew: bool, ghost i: nat)
      requires Valid() && nbytes < TWO_32
      requires region == -1 || Grants(region, CoreUnits(NUnits(nbytes)), core)
      modifies this
      ensures Valid() && started
      ensures grew == (NoneFits(old(fs), NUnits(nbytes)) && region != -1)
      ensures core == if grew then old(core) + Units(Blk(region, CoreUnits(NUnits(nbytes)))) else old(core)
      ensures ap == 0 <==> NoneFits(old(fs), NUnits(nbytes)) && region == -1
      ensures ap == 0 ==> live == old(live) && fs == old(fs)
      ensures ap > 0 ==>
        var b := Blk(ap - 1, NUnits(nbytes));
        b !in old(live) && live == old(live) + {b}
      ensures ap > 0 && !grew ==>
        var n := NUnits(nbytes);
        && 0 < i < |old(fs)| && n <= old(fs)[i].size && fs == Take(old(fs), i, n) && at == i - 1
        && Blk(ap - 1, n) == Taken(old(fs), i, n)
        && NoneFitsBefore(old(fs), old(at), n, Rank(old(at), i, |old(fs)|))
    {
      hide Take, Taken, Insert, Sound, Chain, Ordered, Headed, Linked, Units, NoneFits, NoneFitsBefore, NUnits;
      hide Rank, Node, SbrkArgument;
      var n := NUnits(nbytes);
      if !started {
        Start();
      }
      grew, i := false, 0;
      var prevp := freep;
      ghost var k: nat := at;
      RingStep(mem, fs, live, core, k);
      var p := mem[prevp].ptr;
      i := After(k, |fs|);
      ghost var w: nat := 0;
      NoneBeforeFirst(fs, at, n);
      while true
        invariant Valid() && started && live == old(live)
        invariant k < |fs| && fs[k].addr == prevp && i == After(k, |fs|) && fs[i].addr == p
        invariant NoneFitsBefore(fs, at, n, Rank(at, i, |fs|))
        invariant !grew ==> fs == old(fs) && core == old(core) && at == old(at)
        invariant grew ==> region != -1 && NoneFits(old(fs), n) && w < |fs| && fs[w].size >= n
        invariant grew ==> core == old(core) + Units(Blk(region, CoreUnits(n)))
        decreases !grew, |fs| - Rank(at, i, |fs|)
      {
        RingStep(mem, fs, live, core, i);
        if mem[p].size >= n {
          SomeFits(fs, i, n);
          var r := Carve(prevp, p, n, i);
          ap := r + 1;
          return;
        }
        NoneBeforeNext(fs, at, n, i);
        RankStep(at, i, |fs|);
        if p == freep {
          assert i == at by { SamePlace(fs, live, core, i, at); }
          NoneBeforeEnd(fs, at, n);
          assert !grew by {
            if grew {
              SomeFits(fs, w, n);
            }
          }
          var ok;
          ghost var at1;
          ok, at1, w := Morecore(n, region);
          if !ok {
            ap := 0;
            return;
          }
          grew, p, i := true, freep, at1;
          NoneBeforeFirst(fs, at, n);
          RingStep(mem, fs, live, core, i);
        }
        prevp, k := p, i;
        p := mem[p].ptr;
        i := After(k, |fs|);
      }
    }
  }
}
