/**
  The free list of malloc and free (umalloc.c) as a list of blocks in address order, in units of one
  header. The list starts with the static `base`, an empty block below all others.
 */
module FreeList {

  const BASE := 0

  datatype Blk = Blk(addr: nat, size: nat) {
    predicate Covers(u: nat) {
      addr <= u < addr + size
    }
  }

  predicate Apart(a: Blk, b: Blk) {
    a.addr + a.size <= b.addr || b.addr + b.size <= a.addr
  }

  /** Address order without overlap. */
  ghost predicate Ordered(fs: seq<Blk>) {
    && |fs| > 0 && fs[0] == Blk(BASE, 0)
    && (forall i :: 0 < i < |fs| ==> fs[i].size > 0 && fs[i].addr > BASE)
    && (forall i, j :: 0 <= i < j < |fs| ==> fs[i].addr + fs[i].size <= fs[j].addr)
  }

  ghost predicate Touch(fs: seq<Blk>, k: int) {
    0 <= k && k + 1 < |fs| && fs[k].addr + fs[k].size == fs[k + 1].addr
  }

  /** Address order, and no two neighbours touch: every free region is one block. */
  ghost predicate Chain(fs: seq<Blk>) {
    Ordered(fs) && forall k :: !Touch(fs, k)
  }

  ghost predicate FreeUnit(fs: seq<Blk>, u: nat) {
    exists i :: 0 <= i < |fs| && fs[i].Covers(u)
  }

  ghost predicate LiveUnit(live: set<Blk>, u: nat) {
    exists b :: b in live && b.Covers(u)
  }

  ghost function Units(b: Blk): (us: set<nat>)
    ensures forall u: nat :: u in us <==> b.Covers(u)
  {
    set u: nat | u < b.addr + b.size && b.Covers(u)
  }

  /** A block that lies in none of the free blocks. */
  ghost predicate Outside(b: Blk, fs: seq<Blk>) {
    b.size > 0 && b.addr > BASE && forall i :: 0 <= i < |fs| ==> Apart(b, fs[i])
  }

  /** Live and free blocks are disjoint and together are exactly the units obtained from sbrk. */
  ghost predicate Sound(fs: seq<Blk>, live: set<Blk>, core: set<nat>) {
    && Chain(fs)
    && (forall b :: b in live ==> Outside(b, fs))
    && (forall a, b :: a in live && b in live && a != b ==> Apart(a, b))
    && (forall u: nat {:trigger u in core} :: u in core <==> FreeUnit(fs, u) || LiveUnit(live, u))
  }

  // ---------- free ----------

  /** bp belongs right after fs[i]. */
  ghost predicate Position(fs: seq<Blk>, i: int, bp: nat) {
    0 <= i < |fs| && fs[i].addr < bp && (i + 1 < |fs| ==> bp < fs[i + 1].addr)
  }

  function Splice(fs: seq<Blk>, i: nat, b: Blk): (r: seq<Blk>)
    requires i < |fs|
    ensures |r| == |fs| + 1
  {
    fs[..i + 1] + [b] + fs[i + 1..]
  }

  /** Make one block of fs[k] and its successor when they touch. */
  function Join(fs: seq<Blk>, k: nat): (r: seq<Blk>)
    requires k < |fs|
  {
    if k + 1 < |fs| && fs[k].addr + fs[k].size == fs[k + 1].addr then
      fs[..k] + [Blk(fs[k].addr, fs[k].size + fs[k + 1].size)] + fs[k + 2..]
    else fs
  }

  /** free's relinking: join the block with its successor, then with its predecessor. */
  function Insert(fs: seq<Blk>, i: nat, b: Blk): (r: seq<Blk>)
    requires i < |fs|
  {
    Join(Join(Splice(fs, i, b), i + 1), i)
  }

  lemma {:induction false} SpliceAt(fs: seq<Blk>, i: nat, b: Blk)
    requires i < |fs|
    ensures var r := Splice(fs, i, b);
      && |r| == |fs| + 1
      && forall k {:trigger r[k]} :: 0 <= k < |r| ==> r[k] == if k <= i then fs[k] else if k == i + 1 then b else fs[k - 1]
  {
  }

  lemma {:induction false} SpliceOrdered(fs: seq<Blk>, i: nat, b: Blk)
    requires Chain(fs) && Outside(b, fs) && Position(fs, i, b.addr)
    ensures Ordered(Splice(fs, i, b)) && |Splice(fs, i, b)| == |fs| + 1
  {
    hide Splice, Touch;
    SpliceAt(fs, i, b);
    var r := Splice(fs, i, b);
    assert Apart(b, fs[i]);
    assert i + 1 < |fs| ==> Apart(b, fs[i + 1]);
    forall k, l | 0 <= k < l < |r|
      ensures r[k].addr + r[k].size <= r[l].addr
    {
      if k == i + 1 {
        assert l == i + 2 || fs[i + 1].addr + fs[i + 1].size <= fs[l - 1].addr;
      }
    }
  }

  /** Only the new block can touch a neighbour. */
  lemma {:induction false} SpliceTouches(fs: seq<Blk>, i: nat, b: Blk, k: int)
    requires Chain(fs) && i < |fs| && Touch(Splice(fs, i, b), k)
    ensures k == i || k == i + 1
  {
    hide Splice, Ordered;
    SpliceAt(fs, i, b);
    assert k < i ==> Touch(fs, k);
    assert k > i + 1 ==> Touch(fs, k - 1);
  }

  lemma {:induction false} SpliceUnits(fs: seq<Blk>, i: nat, b: Blk, u: nat)
    requires i < |fs|
    ensures FreeUnit(Splice(fs, i, b), u) <==> FreeUnit(fs, u) || b.Covers(u)
  {
    var r := Splice(fs, i, b);
    if FreeUnit(r, u) {
      var k :| 0 <= k < |r| && r[k].Covers(u);
      assert k <= i ==> fs[k].Covers(u);
      assert k > i + 1 ==> fs[k - 1].Covers(u);
    }
    if FreeUnit(fs, u) {
      var k :| 0 <= k < |fs| && fs[k].Covers(u);
      assert r[if k <= i then k else k + 1].Covers(u);
    }
    assert r[i + 1] == b;
  }

  lemma {:induction false} JoinAt(fs: seq<Blk>, k: nat)
    requires Touch(fs, k)
    ensures var r := Join(fs, k);
      && |r| == |fs| - 1
      && forall j {:trigger r[j]} :: 0 <= j < |r| ==>
        r[j] == if j < k then fs[j] else if j == k then Blk(fs[k].addr, fs[k].size + fs[k + 1].size) else fs[j + 1]
  {
    var r, m := Join(fs, k), Blk(fs[k].addr, fs[k].size + fs[k + 1].size);
    assert r == fs[..k] + [m] + fs[k + 2..];
    assert forall j :: k < j < |r| ==> r[j] == fs[k + 2..][j - k - 1];
  }

  lemma {:induction false} JoinSame(fs: seq<Blk>, k: nat)
    requires k < |fs| && !Touch(fs, k)
    ensures Join(fs, k) == fs
  {
  }

  lemma {:induction false} JoinOrdered(fs: seq<Blk>, k: nat)
    requires Ordered(fs) && k < |fs|
    ensures Ordered(Join(fs, k)) && k < |Join(fs, k)|
  {
    hide Join;
    if Touch(fs, k) {
      JoinAt(fs, k);
    } else {
      JoinSame(fs, k);
    }
  }

  /** Joining at k takes the touch at k away and moves the later ones down. */
  lemma {:induction false} JoinTouches(fs: seq<Blk>, k: nat, j: int)
    requires k < |fs| && Touch(Join(fs, k), j)
    ensures if !Touch(fs, k) then Touch(fs, j) else Touch(fs, if j < k then j else j + 1)
  {
    hide Join;
    if Touch(fs, k) {
      JoinAt(fs, k);
    } else {
      JoinSame(fs, k);
    }
  }

  lemma {:induction false} JoinUnits(fs: seq<Blk>, k: nat, u: nat)
    requires k < |fs|
    ensures FreeUnit(Join(fs, k), u) <==> FreeUnit(fs, u)
  {
    var r := Join(fs, k);
    if r != fs {
      assert r[k].Covers(u) <==> fs[k].Covers(u) || fs[k + 1].Covers(u);
      if FreeUnit(r, u) {
        var j :| 0 <= j < |r| && r[j].Covers(u);
        assert j < k ==> fs[j].Covers(u);
        assert j > k ==> fs[j + 1].Covers(u);
      }
      if FreeUnit(fs, u) {
        var j :| 0 <= j < |fs| && fs[j].Covers(u);
        assert r[if j <= k then j else j - 1].Covers(u);
      }
    }
  }

  lemma {:induction false} InsertKeepsChain(fs: seq<Blk>, i: nat, b: Blk)
    requires Chain(fs) && Outside(b, fs) && Position(fs, i, b.addr)
    ensures Chain(Insert(fs, i, b))
  {
    hide Join, Splice, Ordered, Touch, Outside;
    var s := Splice(fs, i, b);
    SpliceOrdered(fs, i, b);
    JoinOrdered(s, i + 1);
    var t := Join(s, i + 1);
    JoinOrdered(t, i);
    forall k
      ensures !Touch(Insert(fs, i, b), k)
    {
      if Touch(Insert(fs, i, b), k) {
        JoinTouches(t, i, k);
        var k1 := if Touch(t, i) && k >= i then k + 1 else k;
        JoinTouches(s, i + 1, k1);
        SpliceTouches(fs, i, b, if Touch(s, i + 1) && k1 > i then k1 + 1 else k1);
        assert false;
      }
    }
  }

  /** free gives back exactly the block's units: live and free units stay a partition of the core. */
  lemma {:induction false} InsertKeepsSound(fs: seq<Blk>, live: set<Blk>, core: set<nat>, i: nat, b: Blk)
    requires Sound(fs, live, core) && b in live && Position(fs, i, b.addr)
    ensures Sound(Insert(fs, i, b), live - {b}, core)
  {
    hide Insert, Chain;
    var r, rest := Insert(fs, i, b), live - {b};
    InsertKeepsChain(fs, i, b);
    forall u: nat {:trigger u in core}
      ensures u in core <==> FreeUnit(r, u) || LiveUnit(rest, u)
    {
      InsertUnits(fs, i, b, u);
      assert LiveUnit(live, u) <==> LiveUnit(rest, u) || b.Covers(u);
    }
    forall a | a in rest
      ensures Outside(a, r)
    {
      forall k | 0 <= k < |r|
        ensures Apart(a, r[k])
      {
        InsertApart(fs, i, b, a, k);
      }
    }
  }

  lemma {:induction false} InsertUnits(fs: seq<Blk>, i: nat, b: Blk, u: nat)
    requires Chain(fs) && Outside(b, fs) && Position(fs, i, b.addr)
    ensures FreeUnit(Insert(fs, i, b), u) <==> FreeUnit(fs, u) || b.Covers(u)
  {
    hide Join, Splice, FreeUnit;
    SpliceOrdered(fs, i, b);
    SpliceUnits(fs, i, b, u);
    JoinOrdered(Splice(fs, i, b), i + 1);
    JoinUnits(Splice(fs, i, b), i + 1, u);
    JoinUnits(Join(Splice(fs, i, b), i + 1), i, u);
  }

  lemma {:induction false} InsertApart(fs: seq<Blk>, i: nat, b: Blk, a: Blk, k: nat)
    requires Chain(fs) && Outside(b, fs) && Position(fs, i, b.addr) && k < |Insert(fs, i, b)|
    requires Outside(a, fs) && Apart(a, b)
    ensures Apart(a, Insert(fs, i, b)[k])
  {
    hide Insert, Touch;
    var r := Insert(fs, i, b);
    InsertKeepsChain(fs, i, b);
    if !Apart(a, r[k]) {
      var u := if a.addr >= r[k].addr then a.addr else r[k].addr;
      assert r[k].Covers(u);
      InsertUnits(fs, i, b, u);
      OutsideCoversNone(a, fs, u);
      assert false;
    }
  }

  lemma {:induction false} OutsideCoversNone(a: Blk, fs: seq<Blk>, u: nat)
    requires Outside(a, fs) && a.Covers(u)
    ensures !FreeUnit(fs, u)
  {
  }

  // ---------- malloc ----------

  /** malloc's choice at fs[i]: the whole block when it fits exactly, its tail end otherwise. */
  function Taken(fs: seq<Blk>, i: nat, n: nat): (b: Blk)
    requires i < |fs| && n <= fs[i].size
  {
    Blk(fs[i].addr + fs[i].size - n, n)
  }

  function Take(fs: seq<Blk>, i: nat, n: nat): (r: seq<Blk>)
    requires i < |fs| && n <= fs[i].size
  {
    if fs[i].size == n then fs[..i] + fs[i + 1..]
    else fs[i := Blk(fs[i].addr, fs[i].size - n)]
  }

  lemma {:induction false} TakeAt(fs: seq<Blk>, i: nat, n: nat)
    requires i < |fs| && n <= fs[i].size
    ensures var r := Take(fs, i, n);
      && |r| == (if fs[i].size == n then |fs| - 1 else |fs|)
      && forall k {:trigger r[k]} :: 0 <= k < |r| ==>
        r[k] == if fs[i].size == n && k >= i then fs[k + 1] else if k == i then Blk(fs[i].addr, fs[i].size - n) else fs[k]
  {
  }

  lemma {:induction false} TakeKeepsChain(fs: seq<Blk>, i: nat, n: nat)
    requires Chain(fs) && 0 < i < |fs| && 0 < n <= fs[i].size
    ensures Chain(Take(fs, i, n))
  {
    TakeKeepsOrdered(fs, i, n);
    forall k
      ensures !Touch(Take(fs, i, n), k)
    {
      TakeTouches(fs, i, n, k);
    }
  }

  lemma {:induction false} TakeKeepsOrdered(fs: seq<Blk>, i: nat, n: nat)
    requires Ordered(fs) && 0 < i < |fs| && 0 < n <= fs[i].size
    ensures Ordered(Take(fs, i, n))
  {
    hide Take;
    TakeAt(fs, i, n);
  }

  lemma {:induction false} TakeTouches(fs: seq<Blk>, i: nat, n: nat, k: int)
    requires Chain(fs) && 0 < i < |fs| && 0 < n <= fs[i].size
    ensures !Touch(Take(fs, i, n), k)
  {
    hide Take;
    TakeAt(fs, i, n);
    assert !Touch(fs, k) && !Touch(fs, k + 1);
  }

  lemma {:induction false} TakeUnits(fs: seq<Blk>, i: nat, n: nat, u: nat)
    requires i < |fs| && n <= fs[i].size
    ensures FreeUnit(fs, u) <==> FreeUnit(Take(fs, i, n), u) || Taken(fs, i, n).Covers(u)
  {
    hide Take;
    TakeAt(fs, i, n);
    var r, b := Take(fs, i, n), Taken(fs, i, n);
    if FreeUnit(r, u) {
      var k :| 0 <= k < |r| && r[k].Covers(u);
      var j := if fs[i].size == n && k >= i then k + 1 else k;
      assert fs[j].Covers(u);
    }
    if FreeUnit(fs, u) && !b.Covers(u) {
      var k :| 0 <= k < |fs| && fs[k].Covers(u);
      var j := if fs[i].size == n && k > i then k - 1 else k;
      assert r[j].Covers(u);
    }
    if b.Covers(u) {
      assert fs[i].Covers(u);
    }
  }

  /** malloc's block comes out of the free units and becomes live: the partition is kept. */
  lemma {:induction false} TakeKeepsSound(fs: seq<Blk>, live: set<Blk>, core: set<nat>, i: nat, n: nat)
    requires Sound(fs, live, core) && 0 < i < |fs| && 0 < n <= fs[i].size
    ensures Sound(Take(fs, i, n), live + {Taken(fs, i, n)}, core)
    ensures Taken(fs, i, n) !in live
  {
    hide Take, Chain;
    var r, b := Take(fs, i, n), Taken(fs, i, n);
    TakeKeepsChain(fs, i, n);
    assert forall a :: a in live ==> Apart(a, b);
    assert b.addr > BASE && forall k :: 0 <= k < |r| ==> Apart(b, r[k]) by { TakenApart(fs, i, n); }
    forall u: nat {:trigger u in core}
      ensures u in core <==> FreeUnit(r, u) || LiveUnit(live + {b}, u)
    {
      TakeUnits(fs, i, n, u);
      assert LiveUnit(live + {b}, u) <==> LiveUnit(live, u) || b.Covers(u);
    }
    forall a | a in live
      ensures Outside(a, r)
    {
      forall k | 0 <= k < |r|
        ensures Apart(a, r[k])
      {
        TakeSubset(fs, i, n, k);
      }
    }
  }

  lemma {:induction false} TakenApart(fs: seq<Blk>, i: nat, n: nat)
    requires Chain(fs) && 0 < i < |fs| && 0 < n <= fs[i].size
    ensures Taken(fs, i, n).addr > BASE
    ensures forall k :: 0 <= k < |Take(fs, i, n)| ==> Apart(Taken(fs, i, n), Take(fs, i, n)[k])
  {
    hide Take, Touch;
    TakeAt(fs, i, n);
  }

  /** Every block malloc leaves lies inside one that was there. */
  lemma {:induction false} TakeSubset(fs: seq<Blk>, i: nat, n: nat, k: nat)
    requires i < |fs| && n <= fs[i].size && k < |Take(fs, i, n)|
    ensures var b := Take(fs, i, n)[k];
      exists j :: 0 <= j < |fs| && fs[j].addr <= b.addr && b.addr + b.size <= fs[j].addr + fs[j].size
  {
    var j := if fs[i].size == n && k >= i then k + 1 else k;
    assert fs[j].addr <= Take(fs, i, n)[k].addr;
  }

  // ---------- morecore ----------

  /** A fresh region above everything known, counted as live until it is freed into the list. */
  lemma {:induction false} GrowKeepsSound(fs: seq<Blk>, live: set<Blk>, core: set<nat>, b: Blk)
    requires Sound(fs, live, core) && b.size > 0 && b.addr > BASE
    requires forall u :: u in core ==> u < b.addr
    ensures b !in live
    ensures Sound(fs, live + {b}, core + Units(b))
  {
    hide Chain;
    forall a | a in live
      ensures a.addr + a.size <= b.addr
    {
      assert a.Covers(a.addr + a.size - 1);
      assert LiveUnit(live, a.addr + a.size - 1);
      assert a.addr + a.size - 1 in core;
    }
    assert forall k :: 0 <= k < |fs| ==> Apart(b, fs[k]) by { FreeBelow(fs, live, core, b); }
    forall u: nat {:trigger u in core + Units(b)}
      ensures u in core + Units(b) <==> FreeUnit(fs, u) || LiveUnit(live + {b}, u)
    {
      assert LiveUnit(live + {b}, u) <==> LiveUnit(live, u) || b.Covers(u);
      assert u in core <==> FreeUnit(fs, u) || LiveUnit(live, u);
    }
  }

  lemma {:induction false} FreeBelow(fs: seq<Blk>, live: set<Blk>, core: set<nat>, b: Blk)
    requires Sound(fs, live, core) && b.addr > BASE
    requires forall u :: u in core ==> u < b.addr
    ensures forall k :: 0 <= k < |fs| ==> fs[k].addr + fs[k].size <= b.addr
  {
    forall k | 0 <= k < |fs|
      ensures fs[k].addr + fs[k].size <= b.addr
    {
      if k > 0 {
        assert fs[k].Covers(fs[k].addr + fs[k].size - 1);
        assert FreeUnit(fs, fs[k].addr + fs[k].size - 1);
        assert fs[k].addr + fs[k].size - 1 in core;
      }
    }
  }
}
