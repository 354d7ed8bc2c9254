/** The doubly linked list of bio.c that keeps the buffers in order of last use.
    A buffer pointer is the buffer's index in `bcache.buf`; the sentinel
    `bcache.head` is the index `n`. */
module LruLists {
  import opened Common

  function Without(order: seq<nat>, k: nat): seq<nat>
    requires k < |order|
  {
    order[..k] + order[k + 1..]
  }

  /** `next` and `prev` go round `ring` forwards and backwards, and `ring` starts at
      the sentinel `n` and visits nothing twice. */
  ghost predicate Linked(n: nat, next: seq<nat>, prev: seq<nat>, ring: seq<nat>) {
    && |next| == |prev| == n + 1
    && ring != [] && ring[0] == n && Distinct(ring)
    && (forall i :: 0 <= i < |ring| ==> ring[i] <= n)
    && (forall i :: 0 <= i < |ring| ==> LinkedAt(next, prev, ring, i))
  }

  ghost predicate LinkedAt(next: seq<nat>, prev: seq<nat>, ring: seq<nat>, i: nat)
    requires i < |ring|
  {
    var p, q := ring[i], ring[Succ(|ring|, i)];
    p < |next| && q < |prev| && next[p] == q && prev[q] == p
  }

  /** The four assignments that insert `b` behind the sentinel. */
  lemma {:induction false} InsertLinked(n: nat, next: seq<nat>, prev: seq<nat>, ring: seq<nat>, b: nat)
    requires Linked(n, next, prev, ring) && b < n && b !in ring
    ensures next[n] <= n
    ensures Linked(n, next[b := next[n]][n := b], prev[b := n][next[n] := b], [n, b] + ring[1..])
  {
    assert LinkedAt(next, prev, ring, 0);
    var ring', next', prev' := [n, b] + ring[1..], next[b := next[n]][n := b], prev[b := n][next[n] := b];
    forall i | 0 <= i < |ring'|
      ensures LinkedAt(next', prev', ring', i)
    {
      if i >= 2 {
        assert ring'[i] == ring[i - 1];
        assert LinkedAt(next, prev, ring, i - 1);
      }
    }
  }

  /** The two assignments that take the element at position `k` of the ring out. */
  lemma {:induction false} UnlinkLinked(n: nat, next: seq<nat>, prev: seq<nat>, ring: seq<nat>, k: nat)
    requires Linked(n, next, prev, ring) && 0 < k < |ring|
    ensures var b := ring[k];
      next[b] <= n && prev[b] <= n &&
      Linked(n, next[prev[b] := next[b]], prev[next[b] := prev[b]], Without(ring, k))
  {
    var b := ring[k];
    assert LinkedAt(next, prev, ring, k) && LinkedAt(next, prev, ring, k - 1);
    var p, q := prev[b], next[b];
    var ring', next', prev' := Without(ring, k), next[p := q], prev[q := p];
    forall i | 0 <= i < |ring'|
      ensures LinkedAt(next', prev', ring', i)
    {
      UnlinkAt(next, prev, ring, k, i, p, q);
    }
  }

  lemma UnlinkAt(next: seq<nat>, prev: seq<nat>, ring: seq<nat>, k: nat, i: nat, p: nat, q: nat)
    requires 0 < k < |ring| && i < |ring| - 1 && Distinct(ring)
    requires p == ring[k - 1] && q == ring[Succ(|ring|, k)] && p < |next| && q < |prev|
    requires LinkedAt(next, prev, ring, if i < k then i else i + 1)
    ensures LinkedAt(next[p := q], prev[q := p], Without(ring, k), i)
  {
    var ring' := Without(ring, k);
    var j := if i < k then i else i + 1;
    assert ring'[i] == ring[j];
    if i == k - 1 {
      assert ring'[Succ(|ring'|, i)] == q;
    } else {
      var m, l := Succ(|ring|, j), Succ(|ring|, k);
      assert ring'[Succ(|ring'|, i)] == ring[m];
      assert m != l;
      assert ring[m] != ring[l];
      assert ring[j] != p;
    }
  }

  class LruList {
    const n: nat
    const next: array<nat>
    const prev: array<nat>
    /** The buffers from most to least recently used. */
    ghost var order: seq<nat>
    /** When a buffer was last put at the front, and a time later than all of these. */
    ghost var stamp: map<nat, nat>
    ghost var clock: nat

    /** The pointers form one circle through the sentinel and `order`, and `order`
        is by decreasing time of the last move to the front. */
    ghost predicate Valid()
      reads this, next, prev
    {
      && next.Length == n + 1 && prev.Length == n + 1 && next != prev
      && Linked(n, next[..], prev[..], [n] + order)
      && Ordered(n, order, stamp, clock)
    }

    /** binit's list: every buffer inserted behind the sentinel in turn. */
    constructor (n: nat)
      ensures Valid() && this.n == n
      ensures |order| == n && fresh(next) && fresh(prev)
      ensures forall i :: 0 <= i < n ==> order[i] == n - 1 - i
    {
      this.n := n;
      next, prev := new nat[n + 1], new nat[n + 1];
      order, stamp, clock := [], map[], 0;
      new;
      prev[n] := n;
      next[n] := n;
      var b := 0;
      while b < n
        invariant 0 <= b <= n
        invariant Valid() && |order| == b
        invariant forall i :: 0 <= i < b ==> order[i] == b - 1 - i
        modifies this, next, prev
      {
        PushFront(b);
        b := b + 1;
      }
    }

    /** `b->next = head.next; b->prev = &head; head.next->prev = b; head.next = b`. */
    method PushFront(b: nat)
      requires Valid() && b < n && b !in order
      modifies this, next, prev
      ensures Valid() && order == [b] + old(order)
      ensures stamp == old(stamp)[b := old(clock)] && clock == old(clock) + 1
    {
      InsertLinked(n, next[..], prev[..], [n] + order, b);
      assert ([n] + order)[1..] == order;
      assert [n, b] + order == [n] + ([b] + order);
      next[b] := next[n];
      prev[b] := n;
      prev[next[n]] := b;
      next[n] := b;
      order := [b] + order;
      stamp := stamp[b := clock];
      clock := clock + 1;
    }

    /** Unlinks the buffer at position `k` and puts it at the front, as brelse does. */
    method MoveToFront(b: nat, ghost k: nat)
      requires Valid() && k < |order| && order[k] == b
      modifies this, next, prev
      ensures Valid() && order == [b] + Without(old(order), k)
      ensures stamp == old(stamp)[b := old(clock)] && clock == old(clock) + 1
    {
      UnlinkLinked(n, next[..], prev[..], [n] + order, k + 1);
      assert Without([n] + order, k + 1) == [n] + Without(order, k);
      prev[next[b]] := prev[b];
      next[prev[b]] := next[b];
      order := Without(order, k);
      PushFront(b);
    }
  }

  /** `order` lists buffers by strictly decreasing time stamp. */
  ghost predicate Ordered(n: nat, order: seq<nat>, stamp: map<nat, nat>, clock: nat) {
    && (forall i :: 0 <= i < |order| ==> order[i] < n && order[i] in stamp && stamp[order[i]] < clock)
    && (forall i, j :: 0 <= i < j < |order| ==> stamp[order[i]] > stamp[order[j]])
  }
}
