/**
  The buffer cache's circular list (bio.c): every buffer and the list head have a next and a prev link.
  The list head is number n. Each method is the corresponding step of module Bio on the list it stands for.
 */
module BufferCache {
  import opened Common
  import opened Bio

  // ---------- the circular list ----------

  /** The k-th element from the head; positions -1 and |lru| are the head itself. */
  function Elem(lru: seq<nat>, n: nat, k: int): nat {
    if 0 <= k < |lru| then lru[k] else n
  }

  /** The elements at k and k + 1 point at each other. */
  ghost predicate Pair(next: seq<nat>, prev: seq<nat>, lru: seq<nat>, n: nat, k: int) {
    -1 <= k < |lru| ==>
      && Elem(lru, n, k) < |next| && Elem(lru, n, k + 1) < |prev|
      && next[Elem(lru, n, k)] == Elem(lru, n, k + 1) && prev[Elem(lru, n, k + 1)] == Elem(lru, n, k)
  }

  ghost predicate Linked(next: seq<nat>, prev: seq<nat>, lru: seq<nat>, n: nat) {
    && |next| == |prev| == n + 1
    && (forall k :: 0 <= k < |lru| ==> lru[k] < n)
    && forall k :: Pair(next, prev, lru, n, k)
  }

  /** Unlinking the element at p. */
  lemma {:induction false} UnlinkKeepsList(next: seq<nat>, prev: seq<nat>, lru: seq<nat>, n: nat, p: nat)
    requires Linked(next, prev, lru, n) && Distinct(lru) && p < |lru|
    ensures var b := lru[p];
      && |next| == |prev| == n + 1 && b < n && next[b] < |prev| && prev[b] < |next|
      && Linked(next[prev[b] := next[b]], prev[next[b] := prev[b]], lru[..p] + lru[p + 1..], n)
  {
    var b, r := lru[p], lru[..p] + lru[p + 1..];
    assert Pair(next, prev, lru, n, p - 1) && Pair(next, prev, lru, n, p);
    var next1, prev1 := next[prev[b] := next[b]], prev[next[b] := prev[b]];
    forall k
      ensures Pair(next1, prev1, r, n, k)
    {
      assert Pair(next, prev, lru, n, k) && Pair(next, prev, lru, n, k + 1);
      assert Elem(r, n, k) == if k < p then Elem(lru, n, k) else Elem(lru, n, k + 1);
      assert Elem(r, n, k + 1) == if k + 1 < p then Elem(lru, n, k + 1) else Elem(lru, n, k + 2);
    }
  }

  /** Linking an element that is not on the list at its front. */
  lemma {:induction false} PushKeepsList(next: seq<nat>, prev: seq<nat>, lru: seq<nat>, n: nat, b: nat)
    requires Linked(next, prev, lru, n) && b < n && b !in lru
    ensures |next| == |prev| == n + 1 && next[n] < |prev|
    ensures Linked(next[b := next[n]][n := b], prev[b := n][next[n] := b], [b] + lru, n)
  {
    var r := [b] + lru;
    assert Pair(next, prev, lru, n, -1);
    var next1, prev1 := next[b := next[n]][n := b], prev[b := n][next[n] := b];
    forall k
      ensures Pair(next1, prev1, r, n, k)
    {
      assert Pair(next, prev, lru, n, k - 1) && Pair(next, prev, lru, n, -1);
      assert k > 0 ==> Elem(r, n, k) == Elem(lru, n, k - 1) && Elem(r, n, k + 1) == Elem(lru, n, k);
    }
  }

  class Cache<B> {
    const n: nat
    var bufs: seq<Buf<B>>
    var next: seq<nat>
    var prev: seq<nat>
    ghost var lru: seq<nat>

    ghost predicate Valid()
      reads this
    {
      |bufs| == n && LruOk(lru, n) && Linked(next, prev, lru, n)
    }

    /** binit links the buffers one after the other at the front. */
    constructor (n: nat, zero: B)
      ensures this.n == n && Valid()
      ensures forall i :: 0 <= i < n ==> bufs[i] == Buf(Id(0, 0), false, false, 0, zero)
      ensures forall k :: 0 <= k < n ==> lru[k] == n - 1 - k
    {
      this.n := n;
      bufs := seq(n, i => Buf(Id(0, 0), false, false, 0, zero));
      next, prev, lru := seq(n + 1, i => n), seq(n + 1, i => n), [];
      new;
      var b := 0;
      while b < n
        invariant b <= n && |lru| == b && Linked(next, prev, lru, n)
        invariant |bufs| == n && forall i :: 0 <= i < n ==> bufs[i] == Buf(Id(0, 0), false, false, 0, zero)
        invariant forall k :: 0 <= k < b ==> lru[k] == b - 1 - k
      {
        PushKeepsList(next, prev, lru, n, b);
        next := next[b := next[n]];
        prev := prev[b := n];
        prev := prev[next[n] := b];
        next := next[n := b];
        lru := [b] + lru;
        b := b + 1;
      }
      forall i | 0 <= i < n
        ensures i in lru
      {
        assert lru[n - 1 - i] == i;
      }
    }

    /** bget's scan for the block from the front; n if it is not there. */
    method FindBlock(id: Id) returns (b: nat)
      requires Valid()
      ensures b == Elem(lru, n, FindFrom(bufs, lru, id, 0))
    {
      hide Linked, Pair;
      b := Follow(n, -1);
      ghost var k: nat := 0;
      while b != n
        invariant k <= n && b == Elem(lru, n, k) && FindFrom(bufs, lru, id, k) == FindFrom(bufs, lru, id, 0)
        decreases n - k
      {
        if bufs[b].id == id {
          return b;
        }
        b := Follow(b, k);
        k := k + 1;
      }
    }

    /** bget's scan for an unused buffer from the back; n if there is none. */
    method FindUnused() returns (b: nat)
      requires Valid()
      ensures b == Elem(lru, n, VictimBelow(bufs, lru, n))
    {
      hide Linked, Pair;
      ghost var p: nat := n;
      b := Precede(n, n);
      while b != n
        invariant p <= n && b == Elem(lru, n, p - 1) && VictimBelow(bufs, lru, p) == VictimBelow(bufs, lru, n)
        decreases p
      {
        if bufs[b].refcnt == 0 && !bufs[b].dirty {
          return b;
        }
        b := Precede(b, p - 1);
        p := p - 1;
      }
    }

    /** bget takes the buffer that has the block, or recycles an unused one; -1 where it panics. */
    method Bget(id: Id) returns (i: int)
      requires Valid()
      modifies `bufs
      ensures Valid() && i == Target(old(bufs), lru, id)
      ensures bufs == if i < 0 then old(bufs) else old(bufs)[i := Taken(old(bufs)[i], id)]
    {
      hide Linked, FindFrom, VictimBelow;
      var b := FindBlock(id);
      if b != n {
        bufs := bufs[b := Grab(bufs[b])];
        return b;
      }
      b := FindUnused();
      if b != n {
        bufs := bufs[b := Recycle(bufs[b], id)];
        return b;
      }
      i := -1;
    }

    method Follow(b: nat, ghost k: int) returns (c: nat)
      requires Valid() && -1 <= k < n && b == Elem(lru, n, k)
      ensures c == Elem(lru, n, k + 1)
    {
      assert Pair(next, prev, lru, n, k);
      c := next[b];
    }

    method Precede(b: nat, ghost k: int) returns (c: nat)
      requires Valid() && 0 <= k <= n && b == Elem(lru, n, k)
      ensures c == Elem(lru, n, k - 1)
    {
      assert Pair(next, prev, lru, n, k - 1);
      c := prev[b];
    }

    /** brelse drops the reference and moves a buffer that nobody references to the front. */
    method Brelse(i: nat)
      requires Valid() && i < n && bufs[i].refcnt > 0
      modifies this
      ensures Valid() && bufs == old(bufs)[i := old(bufs)[i].(refcnt := old(bufs)[i].refcnt - 1)]
      ensures lru == if bufs[i].refcnt == 0 then ToFront(old(lru), i) else old(lru)
    {
      hide Linked, Pair, LruOk, ToFront, Without;
      bufs := bufs[i := bufs[i].(refcnt := bufs[i].refcnt - 1)];
      if bufs[i].refcnt == 0 {
        ghost var p := PlaceOf(lru, n, i);
        UnlinkKeepsList(next, prev, lru, n, p);
        next, prev := next[prev[i] := next[i]], prev[next[i] := prev[i]];
        lru := Without(lru, i);
        PushKeepsList(next, prev, lru, n, i);
        next := next[i := next[n]];
        prev := prev[i := n];
        prev := prev[next[n] := i];
        next := next[n := i];
        FrontIsList(old(lru), n, i);
        lru := ToFront(old(lru), i);
      }
    }
  }

  lemma {:induction false} PlaceOf(lru: seq<nat>, n: nat, i: nat) returns (p: nat)
    requires LruOk(lru, n) && i < n
    ensures p < |lru| && lru[p] == i && Distinct(lru) && Without(lru, i) == lru[..p] + lru[p + 1..]
  {
    assert i in lru;
    p :| 0 <= p < |lru| && lru[p] == i;
    WithoutAt(lru, p);
  }

  lemma {:induction false} FrontIsList(lru: seq<nat>, n: nat, i: nat)
    requires LruOk(lru, n) && i < n
    ensures ToFront(lru, i) == [i] + Without(lru, i) && i !in Without(lru, i) && LruOk(ToFront(lru, i), n)
  {
    assert i in lru;
    var p :| 0 <= p < |lru| && lru[p] == i;
    ToFrontAt(lru, p);
  }
}
