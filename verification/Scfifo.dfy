/**
  Second-chance page replacement (SCFIFO_next and the selection loop of next_i_in_mem_to_remove in
  vm.c): the kernel keeps no queue, only load times; the reference is the queue they stand for.
 */
module Scfifo {
  import opened Params

  const MAX_UINT := 0xFFFF_FFFF

  /** A memory slot: in use, when it was loaded, and the accessed bit of its page. */
  datatype Entry = Entry(used: bool, time: nat, accessed: bool)

  /** q lists the used slots in load order. */
  ghost predicate IsQueue(pages: seq<Entry>, q: seq<nat>) {
    && (forall k :: 0 <= k < |q| ==> q[k] < |pages| && pages[q[k]].used)
    && (forall j, k :: 0 <= j < k < |q| ==> pages[q[j]].time < pages[q[k]].time)
    && (forall i: nat :: i < |pages| && pages[i].used ==> i in q)
  }

  /** Load times are in the past. */
  ghost predicate Past(pages: seq<Entry>, timestamp: nat) {
    forall i :: 0 <= i < |pages| && pages[i].used ==> pages[i].time < timestamp
  }

  /** How many pages at the front of the queue have been accessed. */
  ghost function AccessedFront(pages: seq<Entry>, q: seq<nat>): (k: nat)
    requires forall i :: 0 <= i < |q| ==> q[i] < |pages|
    ensures k <= |q|
    ensures forall i :: 0 <= i < k ==> pages[q[i]].accessed
    ensures k < |q| ==> !pages[q[k]].accessed
  {
    if q == [] || !pages[q[0]].accessed then 0 else 1 + AccessedFront(pages, q[1..])
  }

  /** The page at the front gets its second chance: bit cleared, loaded now. */
  function Requeued(pages: seq<Entry>, i: nat, timestamp: nat): (r: seq<Entry>)
    requires i < |pages|
  {
    pages[i := pages[i].(accessed := false, time := timestamp)]
  }

  /** Requeueing the front page rotates the queue by one. */
  lemma {:induction false} RequeueRotates(pages: seq<Entry>, q: seq<nat>, timestamp: nat)
    requires IsQueue(pages, q) && q != []
    requires Past(pages, timestamp)
    ensures Past(Requeued(pages, q[0], timestamp), timestamp + 1)
    ensures IsQueue(Requeued(pages, q[0], timestamp), q[1..] + [q[0]])
  {
    var r, q' := Requeued(pages, q[0], timestamp), q[1..] + [q[0]];
    forall j, k | 0 <= j < k < |q'|
      ensures r[q'[j]].time < r[q'[k]].time
    {
      assert q'[j] == q[j + 1] && pages[q[0]].time < pages[q[j + 1]].time;
      if k < |q| - 1 {
        assert q'[k] == q[k + 1] && pages[q[0]].time < pages[q[k + 1]].time;
      }
    }
    forall i: nat | i < |r| && r[i].used
      ensures i in q'
    {
      assert i in q;
      assert q == [q[0]] + q[1..];
    }
  }

  /** The pages a selection passes over: the first k of the queue, loaded at consecutive times. */
  ghost function PassedOver(pages: seq<Entry>, q: seq<nat>, k: nat, timestamp: nat): (r: seq<Entry>)
    requires k <= |q| && forall i :: 0 <= i < |q| ==> q[i] < |pages|
    ensures |r| == |pages|
  {
    if k == 0 then pages else Requeued(PassedOver(pages, q, k - 1, timestamp), q[k - 1], timestamp + k - 1)
  }

  /** Exactly the first k pages of the queue are requeued, in their old order, behind the others. */
  lemma {:induction false} PassedOverAt(pages: seq<Entry>, q: seq<nat>, k: nat, timestamp: nat)
    requires IsQueue(pages, q) && k <= |q|
    ensures var r := PassedOver(pages, q, k, timestamp);
      && (forall j :: 0 <= j < |q| ==>
          r[q[j]] == if j < k then pages[q[j]].(accessed := false, time := timestamp + j) else pages[q[j]])
      && (forall i: nat {:trigger r[i]} :: i < |pages| && i !in q ==> r[i] == pages[i])
  {
    hide IsQueue;
    InRange(pages, q);
    QueueDistinct(pages, q);
    if k > 0 {
      PassedOverAt(pages, q, k - 1, timestamp);
    }
  }

  lemma {:induction false} InRange(pages: seq<Entry>, q: seq<nat>)
    requires IsQueue(pages, q)
    ensures forall i :: 0 <= i < |q| ==> q[i] < |pages|
  {
  }

  lemma {:induction false} QueueDistinct(pages: seq<Entry>, q: seq<nat>)
    requires IsQueue(pages, q)
    ensures forall j, k :: 0 <= j < k < |q| ==> q[j] != q[k]
  {
  }

  lemma {:induction false} NonePassed(pages: seq<Entry>, q: seq<nat>, timestamp: nat)
    requires forall i :: 0 <= i < |q| ==> q[i] < |pages|
    ensures PassedOver(pages, q, 0, timestamp) == pages
  {
  }

  lemma {:induction false} OneMorePassed(pages: seq<Entry>, q: seq<nat>, k: nat, timestamp: nat)
    requires k < |q| && forall i :: 0 <= i < |q| ==> q[i] < |pages|
    ensures PassedOver(pages, q, k + 1, timestamp) == Requeued(PassedOver(pages, q, k, timestamp), q[k], timestamp + k)
  {
  }

  lemma {:induction false} PassedOverRotates(pages: seq<Entry>, q: seq<nat>, k: nat, timestamp: nat)
    requires IsQueue(pages, q) && k <= |q|
    requires Past(pages, timestamp)
    ensures IsQueue(PassedOver(pages, q, k, timestamp), q[k..] + q[..k])
    ensures Past(PassedOver(pages, q, k, timestamp), timestamp + k)
  {
    hide IsQueue, Past, Requeued;
    InRange(pages, q);
    if k == 0 {
      assert q[k..] + q[..k] == q;
    } else {
      PassedOverRotates(pages, q, k - 1, timestamp);
      var r, q1 := PassedOver(pages, q, k - 1, timestamp), q[k - 1..] + q[..k - 1];
      assert q1[0] == q[k - 1];
      RequeueRotates(r, q1, timestamp + k - 1);
      assert q1[1..] + [q1[0]] == q[k..] + q[..k];
    }
  }

  /** Distinct slots are at most as many as there are slots. */
  lemma {:induction false} QueueFits(pages: seq<Entry>, q: seq<nat>)
    requires IsQueue(pages, q)
    ensures |q| <= |pages|
  {
    QueueDistinct(pages, q);
    Pigeonhole(q, |pages|);
  }

  lemma {:induction false} Pigeonhole(q: seq<nat>, n: nat)
    requires forall k :: 0 <= k < |q| ==> q[k] < n
    requires forall j, k :: 0 <= j < k < |q| ==> q[j] != q[k]
    ensures |q| <= n
  {
    if q == [] {
    } else if exists k :: 0 <= k < |q| && q[k] == n - 1 {
      var k :| 0 <= k < |q| && q[k] == n - 1;
      Pigeonhole(q[..k] + q[k + 1..], n - 1);
    } else {
      assert q[0] < n;
      Pigeonhole(q, n - 1);
    }
  }

  ghost predicate InLoadOrder(pages: seq<Entry>, q: seq<nat>) {
    && (forall k :: 0 <= k < |q| ==> q[k] < |pages|)
    && forall j, k :: 0 <= j < k < |q| ==> pages[q[j]].time < pages[q[k]].time
  }

  ghost function Insert(pages: seq<Entry>, q: seq<nat>, n: nat): (r: seq<nat>)
    requires InLoadOrder(pages, q) && n < |pages|
    requires forall k :: 0 <= k < |q| ==> pages[q[k]].time != pages[n].time
    ensures forall x :: x in r <==> x in q || x == n
    ensures InLoadOrder(pages, r)
  {
    if q == [] then [n]
    else if pages[n].time < pages[q[0]].time then [n] + q
    else
      var rest := Insert(pages, q[1..], n);
      assert q == [q[0]] + q[1..];
      assert forall k :: 0 <= k < |rest| ==> pages[q[0]].time < pages[rest[k]].time by {
        forall k | 0 <= k < |rest|
          ensures pages[q[0]].time < pages[rest[k]].time
        {
          assert rest[k] in rest;
        }
      }
      [q[0]] + rest
  }

  /** Distinct load times put the used slots in a queue. */
  lemma {:induction false} QueueExists(pages: seq<Entry>, n: nat) returns (q: seq<nat>)
    requires n <= |pages|
    requires forall i, j :: 0 <= i < j < |pages| && pages[i].used && pages[j].used ==> pages[i].time != pages[j].time
    ensures InLoadOrder(pages, q)
    ensures forall i: nat :: i in q <==> i < n && pages[i].used
    ensures n == |pages| ==> IsQueue(pages, q)
  {
    hide Insert, IsQueue;
    q := [];
    if n > 0 {
      q := QueueExists(pages, n - 1);
      if pages[n - 1].used {
        assert forall k :: 0 <= k < |q| ==> q[k] in q;
        q := Insert(pages, q, n - 1);
      }
    }
    if n == |pages| {
      OrderedIsQueue(pages, q);
    }
  }

  lemma {:induction false} OrderedIsQueue(pages: seq<Entry>, q: seq<nat>)
    requires InLoadOrder(pages, q) && forall i: nat :: i in q <==> i < |pages| && pages[i].used
    ensures IsQueue(pages, q)
  {
    assert forall k :: 0 <= k < |q| ==> q[k] in q;
  }

  /** A process's slots and clock. */
  class Pager {
    var pages: seq<Entry>
    var timestamp: nat

    constructor (pages: seq<Entry>, timestamp: nat)
      ensures this.pages == pages && this.timestamp == timestamp
    {
      this.pages, this.timestamp := pages, timestamp;
    }

    /** SCFIFO_next: the oldest page, unless it was accessed, in which case it is requeued. */
    method Next(ghost q: seq<nat>) returns (next: int, panicked: bool)
      requires IsQueue(pages, q) && Past(pages, timestamp) && timestamp < MAX_UINT
      modifies this
      ensures panicked <==> q == []
      ensures !panicked && old(pages)[q[0]].accessed ==>
        next == -1 && pages == Requeued(old(pages), q[0], old(timestamp)) && timestamp == old(timestamp) + 1
      ensures !panicked && !old(pages)[q[0]].accessed ==>
        next == q[0] && pages == old(pages) && timestamp == old(timestamp)
    {
      next := -1;
      var min := MAX_UINT;
      var i := 0;
      while i < |pages|
        invariant 0 <= i <= |pages|
        invariant next == -1 ==> min == MAX_UINT && forall j :: 0 <= j < i ==> !pages[j].used
        invariant next != -1 ==> 0 <= next < i && pages[next].used && pages[next].time == min
        invariant forall j :: 0 <= j < i && pages[j].used ==> min <= pages[j].time
      {
        if pages[i].used && pages[i].time < min {
          next, min := i, pages[i].time;
        }
        i := i + 1;
      }
      assert q != [] ==> pages[q[0]].used;
      assert next != -1 ==> next in q;
      if next == -1 {
        return -1, true;
      }
      panicked := false;
      if pages[next].accessed {
        pages := Requeued(pages, next, timestamp);
        timestamp := timestamp + 1;
        next := -1;
      }
    }

    /** The do-while loop: it makes at most one call more than there are slots, picks the first page
        in load order that was not accessed, or the oldest if all were, and requeues exactly the
        accessed pages it passed over. */
    method Select(ghost q: seq<nat>) returns (next: int, panicked: bool, ghost calls: nat)
      requires IsQueue(pages, q) && |pages| == MAX_PSYC_PAGES && Past(pages, timestamp) && timestamp + |q| < MAX_UINT
      modifies this
      ensures panicked <==> q == []
      ensures calls <= MAX_PSYC_PAGES + 1
      ensures !panicked ==>
        var k := AccessedFront(old(pages), q);
        && next == q[if k < |q| then k else 0]
        && calls == k + 1
        && timestamp == old(timestamp) + k
        && pages == PassedOver(old(pages), q, k, old(timestamp))
        && IsQueue(pages, q[k..] + q[..k])
    {
      hide IsQueue, Past, PassedOver, AccessedFront, Requeued;
      InRange(pages, q);
      ghost var ps, ts := pages, timestamp;
      ghost var k := 0;
      NonePassed(ps, q, ts);
      calls := 0;
      next, panicked := -1, false;
      QueueFits(pages, q);
      while next == -1
        invariant 0 <= k <= |q| && k <= AccessedFront(ps, q)
        invariant pages == PassedOver(ps, q, k, ts) && timestamp == ts + k
        invariant !panicked
        invariant next == -1 ==> calls == k
        invariant next != -1 ==> q != [] && k == AccessedFront(ps, q) && calls == k + 1 && next == q[if k < |q| then k else 0]
        decreases if next == -1 then |q| + 1 - k else 0
      {
        PassedOverRotates(ps, q, k, ts);
        PassedOverAt(ps, q, k, ts);
        ghost var q1 := q[k..] + q[..k];
        assert q != [] ==> q1[0] == q[if k < |q| then k else 0];
        next, panicked := Next(q1);
        calls := calls + 1;
        if panicked {
          return;
        }
        if next == -1 {
          OneMorePassed(ps, q, k, ts);
          k := k + 1;
        }
      }
      PassedOverRotates(ps, q, k, ts);
    }
  }
}
