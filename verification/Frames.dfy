/**
  Physical frames, their reference counts and free list (kalloc.c), and the page tables that map
  them (vm.c). Page contents are of any type C: only copying, sharing and overwriting matter here.
 */
module Frames {

  /** kmem: frame contents, references_count and freelist. */
  datatype Kmem<C> = Kmem(ram: seq<C>, refs: seq<nat>, free: seq<nat>)

  /** The flags of a PTE the kernel looks at, and its frame. */
  datatype Pte = Pte(p: bool, w: bool, u: bool, cow: bool, pg: bool, addr: nat)

  type PageTables = map<nat, seq<Pte>>

  // ---------- kalloc.c ----------

  predicate CanAlloc<C>(k: Kmem<C>) {
    k.free != [] && k.free[0] < |k.refs|
  }

  function Kalloc<C>(k: Kmem<C>): (r: Kmem<C>)
    requires CanAlloc(k)
  {
    k.(refs := k.refs[k.free[0] := 1], free := k.free[1..])
  }

  /** kfree drops one reference, and returns the frame to the free list with the last one. */
  function Kfree<C>(k: Kmem<C>, f: nat, junk: C): (r: Kmem<C>)
    requires f < |k.refs| && f < |k.ram|
    ensures |r.ram| == |k.ram| && |r.refs| == |k.refs|
  {
    var refs := if k.refs[f] > 0 then k.refs[f := k.refs[f] - 1] else k.refs;
    if refs[f] != 0 then k.(refs := refs)
    else Kmem(k.ram[f := junk], refs, [f] + k.free)
  }

  function IncCounter<C>(k: Kmem<C>, f: nat): (r: Kmem<C>)
    requires f < |k.refs|
  {
    k.(refs := k.refs[f := k.refs[f] + 1])
  }

  function DecCounter<C>(k: Kmem<C>, f: nat): (r: Kmem<C>)
    requires f < |k.refs| && k.refs[f] > 0
  {
    k.(refs := k.refs[f := k.refs[f] - 1])
  }

  // ---------- Who maps a frame ----------

  predicate Maps(pts: PageTables, f: nat, pid: nat, va: nat) {
    pid in pts && va < |pts[pid]| && pts[pid][va].p && pts[pid][va].addr == f
  }

  ghost function Mappers(pts: PageTables, f: nat): (r: set<(nat, nat)>)
    ensures forall pid: nat, va: nat :: (pid, va) in r <==> Maps(pts, f, pid, va)
  {
    set pid, va | pid in pts && 0 <= va < |pts[pid]| && Maps(pts, f, pid, va) :: (pid, va)
  }

  /** Page va of process pid gets an entry: the next page is appended, an existing one replaced. */
  function Put(pts: PageTables, pid: nat, va: nat, pte: Pte): (r: PageTables)
    requires pid in pts && va <= |pts[pid]|
  {
    pts[pid := if va < |pts[pid]| then pts[pid][va := pte] else pts[pid] + [pte]]
  }

  function Bit(b: bool): nat {
    if b then 1 else 0
  }

  /** Changing one entry changes the number of mappers of a frame by that entry. */
  lemma {:induction false} MappersPut(pts: PageTables, pid: nat, va: nat, pte: Pte, f: nat)
    requires pid in pts && va <= |pts[pid]|
    ensures |Mappers(Put(pts, pid, va, pte), f)|
         == |Mappers(pts, f)| - Bit(Maps(pts, f, pid, va)) + Bit(pte.p && pte.addr == f)
  {
    var a, b := Mappers(pts, f), Mappers(Put(pts, pid, va, pte), f);
    forall q: nat, v: nat | (q, v) != (pid, va)
      ensures (q, v) in a <==> (q, v) in b
    {
      assert Maps(pts, f, q, v) <==> Maps(Put(pts, pid, va, pte), f, q, v);
    }
    OneElement(a, b, (pid, va));
  }

  lemma {:induction false} OneElement<T>(a: set<T>, b: set<T>, x: T)
    requires a - {x} == b - {x}
    ensures |b| == |a| - Bit(x in a) + Bit(x in b)
  {
    assert a == if x in a then (a - {x}) + {x} else a - {x};
    assert b == if x in b then (b - {x}) + {x} else b - {x};
  }

  // ---------- The invariant ----------

  ghost predicate FreeListOk<C>(k: Kmem<C>) {
    && |k.refs| == |k.ram|
    && (forall i :: 0 <= i < |k.free| ==> k.free[i] < |k.ram| && k.refs[k.free[i]] == 0)
    && (forall i, j :: 0 <= i < j < |k.free| ==> k.free[i] != k.free[j])
  }

  ghost predicate Counted<C>(k: Kmem<C>, pts: PageTables) {
    forall f: nat {:trigger k.refs[f]} :: f < |k.refs| ==> k.refs[f] == |Mappers(pts, f)|
  }

  /** A present entry maps a frame; a writable one is its only mapper; the others are copy-on-write. */
  ghost predicate PteOk<C>(k: Kmem<C>, pte: Pte) {
    pte.p ==> pte.addr < |k.refs| && (pte.w ==> k.refs[pte.addr] == 1) && (pte.w || pte.cow)
  }

  ghost predicate PtesOk<C>(k: Kmem<C>, pts: PageTables) {
    forall pid: nat, va: nat {:trigger pts[pid][va]} :: pid in pts && va < |pts[pid]| ==> PteOk(k, pts[pid][va])
  }

  /** A frame is on the free list exactly when nobody maps it. */
  ghost predicate NoLeak<C>(k: Kmem<C>) {
    forall f: nat {:trigger k.refs[f]} :: f < |k.refs| && k.refs[f] == 0 ==> f in k.free
  }

  ghost predicate FrameInv<C>(k: Kmem<C>, pts: PageTables) {
    FreeListOk(k) && Counted(k, pts) && PtesOk(k, pts) && NoLeak(k)
  }

  /** A frame with one reference has one mapper. */
  lemma {:induction false} OnlyMapper<C>(k: Kmem<C>, pts: PageTables, f: nat, pid: nat, va: nat, pid': nat, va': nat)
    requires Counted(k, pts) && f < |k.refs| && k.refs[f] <= 1
    requires Maps(pts, f, pid, va) && Maps(pts, f, pid', va')
    ensures pid == pid' && va == va'
  {
    var a, x := Mappers(pts, f), (pid, va);
    assert x in a && (pid', va') in a;
    assert k.refs[f] == |a| && |a - {x}| == |a| - 1;
    assert a - {x} == {};
  }

  lemma {:induction false} HasMapper<C>(k: Kmem<C>, pts: PageTables, pid: nat, va: nat)
    requires FrameInv(k, pts) && pid in pts && va < |pts[pid]| && pts[pid][va].p
    ensures var f := pts[pid][va].addr; f < |k.refs| && k.refs[f] >= 1 && f !in k.free
  {
    var f := pts[pid][va].addr;
    assert PteOk(k, pts[pid][va]);
    assert Maps(pts, f, pid, va) && (pid, va) in Mappers(pts, f);
    assert k.refs[f] == |Mappers(pts, f)|;
  }

  /** The free list after kalloc, kfree and a dropped reference. */
  lemma {:induction false} KallocLists<C>(k: Kmem<C>)
    requires FreeListOk(k) && NoLeak(k) && k.free != []
    ensures CanAlloc(k) && FreeListOk(Kalloc(k)) && NoLeak(Kalloc(k))
  {
    assert k.free == [k.free[0]] + Kalloc(k).free;
  }

  lemma {:induction false} KfreeLists<C>(k: Kmem<C>, f: nat, junk: C)
    requires FreeListOk(k) && NoLeak(k) && f < |k.refs| && k.refs[f] >= 1
    ensures f < |k.ram| && FreeListOk(Kfree(k, f, junk)) && NoLeak(Kfree(k, f, junk))
  {
  }

  lemma {:induction false} DecLists<C>(k: Kmem<C>, f: nat)
    requires FreeListOk(k) && NoLeak(k) && f < |k.refs| && k.refs[f] >= 2
    ensures FreeListOk(DecCounter(k, f)) && NoLeak(DecCounter(k, f))
  {
  }

  // ---------- Changes of one entry ----------

  /** A fresh frame is mapped where nothing was mapped before. */
  lemma {:induction false} MapFresh<C>(k: Kmem<C>, pts: PageTables, pid: nat, va: nat, pte: Pte)
    requires FrameInv(k, pts) && pid in pts && va <= |pts[pid]| && k.free != []
    requires va < |pts[pid]| ==> !pts[pid][va].p
    requires pte.p && pte.addr == k.free[0] && (pte.w || pte.cow)
    ensures CanAlloc(k) && FrameInv(Kalloc(k), Put(pts, pid, va, pte))
  {
    hide FreeListOk, NoLeak;
    KallocLists(k);
    var f, k', pts' := k.free[0], Kalloc(k), Put(pts, pid, va, pte);
    FreeFrame(k);
    forall g: nat | g < |k'.refs|
      ensures k'.refs[g] == |Mappers(pts', g)|
    {
      MappersPut(pts, pid, va, pte, g);
      assert k.refs[g] == |Mappers(pts, g)|;
    }
    forall q: nat, v: nat | q in pts' && v < |pts'[q]|
      ensures PteOk(k', pts'[q][v])
    {
      if (q, v) != (pid, va) {
        assert pts'[q][v] == pts[q][v] && PteOk(k, pts[q][v]);
        if pts[q][v].p {
          HasMapper(k, pts, q, v);
        }
      }
    }
  }

  lemma {:induction false} FreeFrame<C>(k: Kmem<C>)
    requires FreeListOk(k) && k.free != []
    ensures |k.refs| == |k.ram| && k.free[0] < |k.refs| && k.refs[k.free[0]] == 0
  {
  }

  /** A mapped page is taken away: its frame loses one reference. */
  lemma {:induction false} Unmap<C>(k: Kmem<C>, pts: PageTables, pid: nat, va: nat, pte: Pte, junk: C)
    requires FrameInv(k, pts) && pid in pts && va < |pts[pid]| && pts[pid][va].p && !pte.p
    ensures pts[pid][va].addr < |k.ram| == |k.refs|
    ensures FrameInv(Kfree(k, pts[pid][va].addr, junk), Put(pts, pid, va, pte))
  {
    hide FreeListOk, NoLeak;
    HasMapper(k, pts, pid, va);
    var f := pts[pid][va].addr;
    KfreeLists(k, f, junk);
    var k', pts' := Kfree(k, f, junk), Put(pts, pid, va, pte);
    forall g: nat | g < |k'.refs|
      ensures k'.refs[g] == |Mappers(pts', g)|
    {
      MappersPut(pts, pid, va, pte, g);
      assert k.refs[g] == |Mappers(pts, g)|;
    }
    DroppedReference(k, pts, pid, va, k', pts');
  }

  /** The entries that stay when (pid, va) gives up its frame remain in order. */
  lemma {:induction false} DroppedReference<C>(k: Kmem<C>, pts: PageTables, pid: nat, va: nat, k': Kmem<C>,
      pts': PageTables)
    requires FrameInv(k, pts) && pid in pts && va < |pts[pid]| && pts[pid][va].p
    requires pts[pid][va].addr < |k.refs| && k.refs[pts[pid][va].addr] >= 1
    requires k'.refs == k.refs[pts[pid][va].addr := k.refs[pts[pid][va].addr] - 1]
    requires exists pte :: pts' == Put(pts, pid, va, pte) && !pte.p
    ensures PtesOk(k', pts')
  {
    var f := pts[pid][va].addr;
    forall q: nat, v: nat | q in pts' && v < |pts'[q]|
      ensures PteOk(k', pts'[q][v])
    {
      if (q, v) != (pid, va) {
        assert pts'[q][v] == pts[q][v] && PteOk(k, pts[q][v]);
        if pts[q][v].p && pts[q][v].addr == f && pts[q][v].w {
          OnlyMapper(k, pts, f, pid, va, q, v);
        }
      }
    }
  }

  /** copyonwriteuvm for one resident page: the parent's entry becomes copy-on-write and the child,
      whose next page this is, maps the same frame. */
  function Share(pts: PageTables, parent: nat, child: nat, va: nat): (r: PageTables)
    requires parent in pts && child in pts && parent != child && va < |pts[parent]|
  {
    var pte := pts[parent][va].(cow := true, w := false);
    Put(Put(pts, parent, va, pte), child, |pts[child]|, pte)
  }

  lemma {:induction false} ShareKeepsInv<C>(k: Kmem<C>, pts: PageTables, parent: nat, child: nat, va: nat)
    requires FrameInv(k, pts) && parent in pts && child in pts && parent != child
    requires va < |pts[parent]| && pts[parent][va].p
    ensures pts[parent][va].addr < |k.refs|
    ensures FrameInv(IncCounter(k, pts[parent][va].addr), Share(pts, parent, child, va))
  {
    HasMapper(k, pts, parent, va);
    var f := pts[parent][va].addr;
    var pte := pts[parent][va].(cow := true, w := false);
    var k', pts1, pts' := IncCounter(k, f), Put(pts, parent, va, pte), Share(pts, parent, child, va);
    forall g: nat | g < |k'.refs|
      ensures k'.refs[g] == |Mappers(pts', g)|
    {
      MappersPut(pts, parent, va, pte, g);
      MappersPut(pts1, child, |pts[child]|, pte, g);
      assert k.refs[g] == |Mappers(pts, g)|;
    }
    forall q: nat, v: nat | q in pts' && v < |pts'[q]|
      ensures PteOk(k', pts'[q][v])
    {
      if (q, v) != (parent, va) && (q, v) != (child, |pts[child]|) {
        assert pts'[q][v] == pts[q][v] && PteOk(k, pts[q][v]);
        if pts[q][v].p && pts[q][v].addr == f && pts[q][v].w {
          OnlyMapper(k, pts, f, parent, va, q, v);
        }
      }
    }
  }

  /** handle_cow on a shared frame: a fresh frame takes the place of one reference to the old one. */
  lemma {:induction false} CopyKeepsInv<C>(k: Kmem<C>, pts: PageTables, pid: nat, va: nat, pte: Pte)
    requires FrameInv(k, pts) && pid in pts && va < |pts[pid]| && pts[pid][va].p && k.free != []
    requires pts[pid][va].addr < |k.refs| && k.refs[pts[pid][va].addr] > 1
    requires pte.p && pte.addr == k.free[0] && (pte.w || pte.cow)
    ensures CanAlloc(k) && Kalloc(k).refs[pts[pid][va].addr] > 0
    ensures FrameInv(DecCounter(Kalloc(k), pts[pid][va].addr), Put(pts, pid, va, pte))
  {
    hide FreeListOk, NoLeak;
    HasMapper(k, pts, pid, va);
    var f := pts[pid][va].addr;
    KallocLists(k);
    FreeFrame(k);
    DecLists(Kalloc(k), f);
    var k', pts' := DecCounter(Kalloc(k), f), Put(pts, pid, va, pte);
    forall g: nat | g < |k'.refs|
      ensures k'.refs[g] == |Mappers(pts', g)|
    {
      MappersPut(pts, pid, va, pte, g);
      assert k.refs[g] == |Mappers(pts, g)|;
    }
    forall q: nat, v: nat | q in pts' && v < |pts'[q]|
      ensures PteOk(k', pts'[q][v])
    {
      if (q, v) != (pid, va) {
        assert pts'[q][v] == pts[q][v] && PteOk(k, pts[q][v]);
        if pts[q][v].p {
          HasMapper(k, pts, q, v);
        }
      }
    }
  }

  /** handle_cow on a frame of its own: the page just becomes writable again. */
  lemma {:induction false} OwnKeepsInv<C>(k: Kmem<C>, pts: PageTables, pid: nat, va: nat)
    requires FrameInv(k, pts) && pid in pts && va < |pts[pid]| && pts[pid][va].p
    requires k.refs[pts[pid][va].addr] <= 1
    ensures FrameInv(k, Put(pts, pid, va, pts[pid][va].(cow := false, w := true)))
  {
    HasMapper(k, pts, pid, va);
    var pte := pts[pid][va].(cow := false, w := true);
    var pts' := Put(pts, pid, va, pte);
    forall g: nat | g < |k.refs|
      ensures k.refs[g] == |Mappers(pts', g)|
    {
      MappersPut(pts, pid, va, pte, g);
    }
    forall q: nat, v: nat | q in pts' && v < |pts'[q]|
      ensures PteOk(k, pts'[q][v])
    {
      if (q, v) != (pid, va) {
        assert pts'[q][v] == pts[q][v] && PteOk(k, pts[q][v]);
      }
    }
  }

  /** An entry may change its other flags. */
  lemma {:induction false} FlagKeepsInv<C>(k: Kmem<C>, pts: PageTables, pid: nat, va: nat, pte: Pte)
    requires FrameInv(k, pts) && pid in pts && va < |pts[pid]|
    requires var was := pts[pid][va]; pte.p == was.p && pte.addr == was.addr && pte.w == was.w && pte.cow == was.cow
    ensures FrameInv(k, Put(pts, pid, va, pte))
  {
    var pts' := Put(pts, pid, va, pte);
    forall g: nat | g < |k.refs|
      ensures k.refs[g] == |Mappers(pts', g)|
    {
      MappersPut(pts, pid, va, pte, g);
    }
    forall q: nat, v: nat | q in pts' && v < |pts'[q]|
      ensures PteOk(k, pts'[q][v])
    {
      assert PteOk(k, pts[q][v]);
    }
  }

  /** An entry that maps nothing may come, change or go. */
  lemma {:induction false} UnmappedKeepsInv<C>(k: Kmem<C>, pts: PageTables, pid: nat, va: nat, pte: Pte)
    requires FrameInv(k, pts) && pid in pts && va <= |pts[pid]|
    requires va < |pts[pid]| ==> !pts[pid][va].p
    requires !pte.p
    ensures FrameInv(k, Put(pts, pid, va, pte))
  {
    var pts' := Put(pts, pid, va, pte);
    forall g: nat | g < |k.refs|
      ensures k.refs[g] == |Mappers(pts', g)|
    {
      MappersPut(pts, pid, va, pte, g);
    }
    forall q: nat, v: nat | q in pts' && v < |pts'[q]|
      ensures PteOk(k, pts'[q][v])
    {
      if (q, v) != (pid, va) {
        assert pts'[q][v] == pts[q][v] && PteOk(k, pts[q][v]);
      }
    }
  }

  /** A process with no resident page may come or go. */
  lemma {:induction false} SameMappersKeepInv<C>(k: Kmem<C>, pts: PageTables, pts': PageTables)
    requires FrameInv(k, pts)
    requires forall f: nat, pid: nat, va: nat :: Maps(pts, f, pid, va) <==> Maps(pts', f, pid, va)
    requires forall pid: nat, va: nat {:trigger pts'[pid][va]} :: pid in pts' && va < |pts'[pid]| && pts'[pid][va].p ==>
               pid in pts && va < |pts[pid]| && pts[pid][va] == pts'[pid][va]
    ensures FrameInv(k, pts')
  {
    forall g: nat | g < |k.refs|
      ensures k.refs[g] == |Mappers(pts', g)|
    {
      assert Mappers(pts, g) == Mappers(pts', g);
    }
  }
}
