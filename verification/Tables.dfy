/**
  The two page tables that demand paging keeps for a process (memory_pages and file_pages of
  vm.c) and its swap file: which page sits in which slot. Addresses are page numbers.
 */
module Tables {
  import opened Params
  import opened Frames

  datatype Slot = Slot(used: bool, va: nat)

  /** memory_pages, file_pages and the swap file, one element per page. */
  datatype Tables<C> = Tables(mem: seq<Slot>, file: seq<Slot>, swap: seq<C>)

  // ---------- Slot lookups ----------

  /** next_free_i_in_mem and next_free_i_in_file: the first unused slot, or -1. */
  function FirstFree(s: seq<Slot>): (i: int)
    ensures -1 <= i < |s|
    ensures i < 0 ==> forall j :: 0 <= j < |s| ==> s[j].used
    ensures i >= 0 ==> !s[i].used && forall j :: 0 <= j < i ==> s[j].used
  {
    if s == [] then -1
    else
      var i := FirstFree(s[..|s| - 1]);
      if i >= 0 then i else if !s[|s| - 1].used then |s| - 1 else -1
  }

  /** get_i_of_va_in_file: the first slot that carries the address, used or not, or -1. */
  function FirstWithVa(s: seq<Slot>, va: nat): (i: int)
    ensures -1 <= i < |s|
    ensures i < 0 ==> forall j :: 0 <= j < |s| ==> s[j].va != va
    ensures i >= 0 ==> s[i].va == va && forall j :: 0 <= j < i ==> s[j].va != va
  {
    if s == [] then -1
    else
      var i := FirstWithVa(s[..|s| - 1], va);
      if i >= 0 then i else if s[|s| - 1].va == va then |s| - 1 else -1
  }

  /** The slot that holds a page. */
  ghost predicate Holds(s: seq<Slot>, i: int, va: nat) {
    0 <= i < |s| && s[i].used && s[i].va == va
  }

  function Count(s: seq<Slot>): (n: nat)
    ensures n <= |s|
  {
    if s == [] then 0 else Count(s[..|s| - 1]) + Bit(s[|s| - 1].used)
  }

  lemma {:induction false} CountUpdate(s: seq<Slot>, i: nat, x: Slot)
    requires i < |s|
    ensures Count(s[i := x]) == Count(s) - Bit(s[i].used) + Bit(x.used)
  {
    var n := |s| - 1;
    if i < n {
      CountUpdate(s[..n], i, x);
      assert s[i := x][..n] == s[..n][i := x];
    } else {
      assert s[i := x][..n] == s[..n];
    }
  }

  lemma {:induction false} CountFull(s: seq<Slot>)
    ensures Count(s) == |s| <==> FirstFree(s) < 0
  {
    if s != [] {
      CountFull(s[..|s| - 1]);
    }
  }

  // ---------- The invariant of one process ----------

  /** No two used slots hold the same page. */
  ghost predicate OneSlotEach(s: seq<Slot>) {
    forall i, j :: 0 <= i < j < |s| && s[i].used && s[j].used ==> s[i].va != s[j].va
  }

  ghost predicate UsedArePrefix(s: seq<Slot>) {
    forall i, j :: 0 <= i < j < |s| && s[j].used ==> s[i].used
  }

  /** A page is resident, or it is paged out and its entry carries no frame. */
  ghost predicate Placed(pte: Pte) {
    if pte.p then !pte.pg else pte.pg && pte.addr == 0
  }

  ghost predicate MemSlotsOk(pt: seq<Pte>, mem: seq<Slot>) {
    && OneSlotEach(mem)
    && (forall i :: 0 <= i < |mem| && mem[i].used ==> mem[i].va < |pt| && pt[mem[i].va].p)
    && (forall va :: 0 <= va < |pt| && pt[va].p ==> exists i :: Holds(mem, i, va))
  }

  ghost predicate FileSlotsOk<C>(pt: seq<Pte>, file: seq<Slot>, swap: seq<C>) {
    && OneSlotEach(file)
    && UsedArePrefix(file)
    && (forall i :: 0 <= i < |file| && file[i].used ==> i < |swap| && file[i].va < |pt| && !pt[file[i].va].p)
    && (forall va :: 0 <= va < |pt| && !pt[va].p ==> exists i :: Holds(file, i, va))
  }

  /** Each page is in exactly one used slot of one table, the table its entry says; the used swap
      slots are a prefix; and memory is full whenever a swap slot is used. */
  ghost predicate TableInv<C>(pt: seq<Pte>, t: Tables<C>) {
    && |t.mem| == |t.file| == MAX_PSYC_PAGES
    && |pt| <= MAX_TOTAL_PAGES
    && (forall va :: 0 <= va < |pt| ==> Placed(pt[va]))
    && MemSlotsOk(pt, t.mem)
    && FileSlotsOk(pt, t.file, t.swap)
    && ((exists i :: 0 <= i < |t.file| && t.file[i].used) ==> FirstFree(t.mem) < 0)
    && Count(t.mem) + Count(t.file) == |pt|
  }

  /** The swap slot of a paged-out page. The kernel's lookup finds it although it ignores is_used,
      because unused slots come after all used ones. */
  lemma {:induction false} LookupFindsSlot<C>(pt: seq<Pte>, t: Tables<C>, va: nat)
    requires TableInv(pt, t) && va < |pt| && !pt[va].p
    ensures Holds(t.file, FirstWithVa(t.file, va), va)
    ensures FirstWithVa(t.file, va) < |t.swap|
    ensures FirstFree(t.mem) < 0
  {
    var i :| Holds(t.file, i, va);
    var j := FirstWithVa(t.file, va);
    assert 0 <= j <= i;
  }

  // ---------- Transitions ----------

  /** A write of one page at slot i of a file; it fails (here: is not possible) past the end. */
  function WriteSlot<C>(swap: seq<C>, i: nat, c: C): (r: seq<C>)
    requires i <= |swap|
    ensures i < |r| && r[i] == c
    ensures forall j :: 0 <= j < |swap| && j != i ==> j < |r| && r[j] == swap[j]
  {
    if i < |swap| then swap[i := c] else swap + [c]
  }

  /** set_page_flags_in_disk. */
  function ToDisk(pte: Pte): (r: Pte) {
    pte.(pg := true, p := false, addr := 0)
  }

  /** A new page takes a free slot. */
  lemma {:induction false} AddResident<C>(pt: seq<Pte>, t: Tables<C>, pte: Pte)
    requires TableInv(pt, t) && FirstFree(t.mem) >= 0 && pte.p && !pte.pg && |pt| < MAX_TOTAL_PAGES
    ensures TableInv(pt + [pte], t.(mem := t.mem[FirstFree(t.mem) := Slot(true, |pt|)]))
  {
    var i, va := FirstFree(t.mem), |pt|;
    var mem', pt' := t.mem[i := Slot(true, va)], pt + [pte];
    CountUpdate(t.mem, i, Slot(true, va));
    forall v | 0 <= v < |pt'| && pt'[v].p
      ensures exists j :: Holds(mem', j, v)
    {
      if v < |pt| {
        var j :| Holds(t.mem, j, v);
        assert Holds(mem', j, v);
      } else {
        assert Holds(mem', i, v);
      }
    }
    forall v | 0 <= v < |pt'| && !pt'[v].p
      ensures exists j :: Holds(t.file, j, v)
    {
      var j :| Holds(t.file, j, v);
    }
  }

  /** With memory full and room for one more page, swap finds a slot, and it is in or just past the
      part of the swap file already written. */
  lemma {:induction false} SwapSlotExists<C>(pt: seq<Pte>, t: Tables<C>)
    requires TableInv(pt, t) && FirstFree(t.mem) < 0 && |pt| < MAX_TOTAL_PAGES
    ensures 0 <= FirstFree(t.file) <= |t.swap|
  {
    CountFull(t.mem);
    CountFull(t.file);
    var j := FirstFree(t.file);
    assert j > 0 ==> t.file[j - 1].used;
  }

  /** Page `into` becomes resident and page `out` is paged out; nothing else changes. */
  ghost predicate Trade(pt: seq<Pte>, pt': seq<Pte>, into: nat, out: nat) {
    && |pt| <= |pt'| && into < |pt'| && out < |pt| && into != out
    && pt'[into].p && (into < |pt| ==> !pt[into].p)
    && pt[out].p && !pt'[out].p
    && forall v {:trigger pt'[v]} :: 0 <= v < |pt'| && v != into && v != out ==> v < |pt| && pt'[v].p == pt[v].p
  }

  lemma {:induction false} TradeInMemory(pt: seq<Pte>, pt': seq<Pte>, into: nat, out: nat, mem: seq<Slot>, i: nat)
    requires MemSlotsOk(pt, mem) && Trade(pt, pt', into, out) && Holds(mem, i, out)
    ensures MemSlotsOk(pt', mem[i := Slot(true, into)])
  {
    var mem' := mem[i := Slot(true, into)];
    forall v | 0 <= v < |pt'| && pt'[v].p
      ensures exists k :: Holds(mem', k, v)
    {
      if v == into {
        assert Holds(mem', i, v);
      } else {
        var k :| Holds(mem, k, v);
        assert Holds(mem', k, v);
      }
    }
  }

  /** The paged-out page takes the slot that `into` leaves, or the first free one. */
  lemma {:induction false} TradeInFile<C>(pt: seq<Pte>, pt': seq<Pte>, into: nat, out: nat, file: seq<Slot>,
      swap: seq<C>, j: nat, c: C)
    requires FileSlotsOk(pt, file, swap) && Trade(pt, pt', into, out)
    requires j < |file| && j <= |swap|
    requires if into < |pt| then Holds(file, j, into) else j == FirstFree(file)
    ensures FileSlotsOk(pt', file[j := Slot(true, out)], WriteSlot(swap, j, c))
  {
    var file' := file[j := Slot(true, out)];
    forall v | 0 <= v < |pt'| && !pt'[v].p
      ensures exists k :: Holds(file', k, v)
    {
      if v == out {
        assert Holds(file', j, v);
      } else {
        var k :| Holds(file, k, v);
        assert Holds(file', k, v);
      }
    }
  }

  lemma {:induction false} StillFull(mem: seq<Slot>, i: nat, va: nat)
    requires FirstFree(mem) < 0 && i < |mem|
    ensures FirstFree(mem[i := Slot(true, va)]) < 0
  {
    var mem' := mem[i := Slot(true, va)];
    assert forall j :: 0 <= j < |mem'| ==> mem'[j].used;
  }

  /** allocuvm with memory full: the new page takes the victim's slot, the victim the first free
      swap slot. */
  lemma {:induction false} AddEvicting<C>(pt: seq<Pte>, t: Tables<C>, victim: nat, pte: Pte, c: C)
    requires TableInv(pt, t) && FirstFree(t.mem) < 0 && |pt| < MAX_TOTAL_PAGES
    requires victim < MAX_PSYC_PAGES && pte.p && !pte.pg
    ensures t.mem[victim].used && t.mem[victim].va < |pt|
    ensures 0 <= FirstFree(t.file) <= |t.swap|
    ensures var j, va := FirstFree(t.file), t.mem[victim].va;
      TableInv(pt[va := ToDisk(pt[va])] + [pte],
               Tables(t.mem[victim := Slot(true, |pt|)], t.file[j := Slot(true, va)], WriteSlot(t.swap, j, c)))
  {
    hide MemSlotsOk, FileSlotsOk, FirstFree, Count;
    SwapSlotExists(pt, t);
    VictimIsResident(pt, t.mem, victim);
    var j, va := FirstFree(t.file), t.mem[victim].va;
    var pt' := pt[va := ToDisk(pt[va])] + [pte];
    CountUpdate(t.mem, victim, Slot(true, |pt|));
    CountUpdate(t.file, j, Slot(true, va));
    TradeInMemory(pt, pt', |pt|, va, t.mem, victim);
    TradeInFile(pt, pt', |pt|, va, t.file, t.swap, j, c);
    StillFull(t.mem, victim, |pt|);
  }

  lemma {:induction false} VictimIsResident(pt: seq<Pte>, mem: seq<Slot>, i: nat)
    requires MemSlotsOk(pt, mem) && FirstFree(mem) < 0 && i < |mem|
    ensures mem[i].used && mem[i].va < |pt| && pt[mem[i].va].p
  {
  }

  /** handle_pf: the page and the victim change places. */
  lemma {:induction false} Exchange<C>(pt: seq<Pte>, t: Tables<C>, va: nat, victim: nat, pte: Pte, c: C)
    requires TableInv(pt, t) && va < |pt| && !pt[va].p
    requires victim < MAX_PSYC_PAGES && pte.p && !pte.pg
    ensures FirstFree(t.mem) < 0 && t.mem[victim].used && t.mem[victim].va < |pt| && t.mem[victim].va != va
    ensures Holds(t.file, FirstWithVa(t.file, va), va) && FirstWithVa(t.file, va) < |t.swap|
    ensures var j, out := FirstWithVa(t.file, va), t.mem[victim].va;
      TableInv(pt[va := pte][out := ToDisk(pt[out])],
               Tables(t.mem[victim := Slot(true, va)], t.file[j := Slot(true, out)], WriteSlot(t.swap, j, c)))
  {
    hide MemSlotsOk, FileSlotsOk, FirstFree, FirstWithVa, Count;
    LookupFindsSlot(pt, t, va);
    VictimIsResident(pt, t.mem, victim);
    var j, out := FirstWithVa(t.file, va), t.mem[victim].va;
    var pt' := pt[va := pte][out := ToDisk(pt[out])];
    CountUpdate(t.mem, victim, Slot(true, va));
    CountUpdate(t.file, j, Slot(true, out));
    TradeInMemory(pt, pt', va, out, t.mem, victim);
    TradeInFile(pt, pt', va, out, t.file, t.swap, j, c);
    StillFull(t.mem, victim, va);
  }

  /** Only where pages are matters to the tables, not their flags or frames. */
  lemma {:induction false} SamePlaces<C>(pt: seq<Pte>, pt': seq<Pte>, t: Tables<C>)
    requires TableInv(pt, t) && |pt'| == |pt|
    requires forall va {:trigger pt'[va]} :: 0 <= va < |pt| ==> pt'[va].p == pt[va].p && Placed(pt'[va])
    ensures TableInv(pt', t)
  {
    forall va | 0 <= va < |pt'| && pt'[va].p
      ensures exists i :: Holds(t.mem, i, va)
    {
      assert pt[va].p;
    }
    forall va | 0 <= va < |pt'| && !pt'[va].p
      ensures exists i :: Holds(t.file, i, va)
    {
      assert !pt[va].p;
    }
  }

  lemma {:induction false} LookupIsTheSlot<C>(pt: seq<Pte>, t: Tables<C>, j: int, va: nat)
    requires TableInv(pt, t) && Holds(t.file, j, va)
    ensures FirstWithVa(t.file, va) == j
  {
    var i := FirstWithVa(t.file, va);
    assert 0 <= i <= j;
  }

  /** Both tables are full exactly when the process has MAX_TOTAL_PAGES pages: allocuvm's own check,
      which bounds only the number of pages added by one call, does not keep a process from growing
      to the point where swap finds no free slot. */
  lemma {:induction false} NoSlotLeftIff<C>(pt: seq<Pte>, t: Tables<C>)
    requires TableInv(pt, t)
    ensures FirstFree(t.mem) < 0 && FirstFree(t.file) < 0 <==> |pt| == MAX_TOTAL_PAGES
  {
    CountFull(t.mem);
    CountFull(t.file);
  }

  lemma {:induction false} TablesSized<C>(pt: seq<Pte>, t: Tables<C>)
    requires TableInv(pt, t)
    ensures |t.mem| == |t.file| == MAX_PSYC_PAGES && MemSlotsOk(pt, t.mem) && FileSlotsOk(pt, t.file, t.swap)
  {
  }
}
