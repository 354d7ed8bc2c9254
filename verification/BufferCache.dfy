/** The buffer cache of bio.c over the memory disk of memide.c. */
module BufferCaches {
  import opened Common
  import opened LruLists

  const BSIZE := 512
  /** A disk block as 32-bit words, which is how log.c reads and writes its header block. */
  const WORDS := BSIZE / 4
  datatype Block = Block(words: seq<nat>)
  const ROOTDEV: nat := 1

  /** The disk of memide.c. One request reads or writes one whole block, and a crash
      leaves the image as it was between two requests: `history` lists every image
      the disk has held. */
  class Disk {
    var image: seq<Block>
    ghost var history: seq<seq<Block>>

    ghost predicate Valid()
      reads this
    {
      history != [] && history[|history| - 1] == image
    }

    constructor (image: seq<Block>)
      ensures Valid() && this.image == image && history == [image]
    {
      this.image := image;
      history := [image];
    }

    method Write(blockno: nat, data: Block)
      requires Valid() && blockno < |image|
      modifies this
      ensures Valid() && image == old(image)[blockno := data]
      ensures history == old(history) + [image]
    {
      image := image[blockno := data];
      history := history + [image];
    }
  }

  /** `struct buf` without its list pointers, which LruList keeps. */
  datatype Buf = Buf(valid: bool, dirty: bool, dev: nat, blockno: nat, refcnt: nat, locked: bool, data: Block)

  /** What the cache promises about one buffer. */
  ghost predicate BufOk(b: Buf, image: seq<Block>) {
    && (b.dev != 0 ==> b.dev == ROOTDEV && b.blockno < |image|)
    && (b.dirty || b.locked ==> b.dev == ROOTDEV)
    && (b.locked ==> b.refcnt > 0)
    && (b.dirty ==> b.valid)
    && (b.dev != 0 && b.valid && !b.dirty && !b.locked ==> b.data == image[b.blockno])
  }

  ghost predicate Holds(b: Buf, blockno: nat) {
    b.dev == ROOTDEV && b.blockno == blockno
  }

  /** No two buffers hold the same block, and `slot` finds the one that does. */
  ghost predicate SlotsOk(buf: seq<Buf>, slot: map<nat, nat>) {
    && (forall k :: k in slot ==> slot[k] < |buf| && Holds(buf[slot[k]], k))
    && (forall i :: 0 <= i < |buf| && buf[i].dev == ROOTDEV ==> buf[i].blockno in slot && slot[buf[i].blockno] == i)
  }

  ghost predicate CacheOk(buf: seq<Buf>, slot: map<nat, nat>, image: seq<Block>) {
    && SlotsOk(buf, slot)
    && forall i :: 0 <= i < |buf| ==> BufOk(buf[i], image)
  }

  /** The reference count of a buffer is that of its users: the holder of its lock and the
      processes that wait for the lock, each for the block that the buffer holds. */
  ghost predicate UsersOk(buf: seq<Buf>, waiting: seq<multiset<nat>>) {
    && |waiting| == |buf|
    && forall i :: 0 <= i < |buf| ==>
         && buf[i].refcnt == |waiting[i]| + (if buf[i].locked then 1 else 0)
         && forall k :: k in waiting[i] ==> Holds(buf[i], k)
  }

  /** Buffer `b` with the users `m` besides the holder of its lock. */
  lemma UsersChanged(buf: seq<Buf>, waiting: seq<multiset<nat>>, b: nat, x: Buf, m: multiset<nat>)
    requires UsersOk(buf, waiting) && b < |buf|
    requires x.refcnt == |m| + (if x.locked then 1 else 0) && forall k :: k in m ==> Holds(x, k)
    ensures UsersOk(buf[b := x], waiting[b := m])
  {
  }

  /** A change that concerns neither its users nor its block. */
  lemma UsersKept(buf: seq<Buf>, waiting: seq<multiset<nat>>, b: nat, x: Buf)
    requires UsersOk(buf, waiting) && b < |buf| && x.refcnt == buf[b].refcnt && x.locked == buf[b].locked
    requires x.dev == buf[b].dev && x.blockno == buf[b].blockno
    ensures UsersOk(buf[b := x], waiting)
  {
  }

  /** A buffer that a process waits for keeps its block and is not to be recycled. */
  ghost predicate WaitedKept(waiting: seq<multiset<nat>>, buf: seq<Buf>, buf': seq<Buf>)
    requires |waiting| == |buf| == |buf'|
  {
    forall i :: 0 <= i < |buf| && waiting[i] != multiset{} ==>
      buf'[i].dev == buf[i].dev && buf'[i].blockno == buf[i].blockno && !Reusable(buf'[i])
  }

  /** A buffer that a process waits for is not recycled. */
  lemma WaitedFor(buf: seq<Buf>, waiting: seq<multiset<nat>>, b: nat)
    requires UsersOk(buf, waiting) && b < |buf|
    ensures waiting[b] != multiset{} ==> !Reusable(buf[b])
    ensures buf[b].refcnt == |waiting[b]| + if buf[b].locked then 1 else 0
  {
  }

  /** The contents of the blocks whose buffers are dirty: written to the cache
      and pinned there, but not yet on the disk. */
  ghost function PendingOf(buf: seq<Buf>, slot: map<nat, nat>): map<nat, Block> {
    map k | k in slot && slot[k] < |buf| && buf[slot[k]].dirty :: buf[slot[k]].data
  }

  /** What a read of block `k` returns: the pending contents if there are any, else the disk's. */
  ghost function Contents(pending: map<nat, Block>, image: seq<Block>, k: nat): Block
    requires k < |image|
  {
    if k in pending then pending[k] else image[k]
  }

  /** The slot table after `bget` gave buffer `b` to block `blockno`. */
  ghost function Rekeyed(buf: seq<Buf>, slot: map<nat, nat>, b: nat, blockno: nat): map<nat, nat>
    requires b < |buf|
  {
    (if buf[b].dev == ROOTDEV then slot - {buf[b].blockno} else slot)[blockno := b]
  }

  /** A buffer that bget may recycle. */
  predicate Reusable(b: Buf) {
    b.refcnt == 0 && !b.dirty
  }

  /** How bget and bread end: with the buffer held, with the caller asleep until the buffer is
      released, or in the panic "bget: no buffers". */
  datatype Getting = Held(b: nat) | Waits(b: nat) | NoBuffers

  class BufferCache {
    const disk: Disk
    const buf: array<Buf>
    const lru: LruList
    /** The buffer that holds a cached block. */
    ghost var slot: map<nat, nat>
    /** The blocks asked for by the processes asleep on each buffer's lock. */
    ghost var waiting: seq<multiset<nat>>

    ghost predicate Valid()
      reads this, disk, buf, lru, lru.next, lru.prev
    {
      && disk.Valid()
      && lru.Valid() && lru.n == buf.Length
      && Complete()
      && CacheOk(buf[..], slot, disk.image)
      && UsersOk(buf[..], waiting)
    }

    /** The list has every buffer on it exactly once. */
    ghost predicate Complete()
      reads lru, buf
    {
      && |lru.order| == buf.Length
      && (forall b: nat :: b < buf.Length ==> b in lru.order)
    }

    ghost function Repr(): set<object> {
      {this, disk, buf, lru, lru.next, lru.prev}
    }

    ghost function Pending(): map<nat, Block>
      reads this, buf
    {
      PendingOf(buf[..], slot)
    }

    /** binit: all buffers unused, on the list in the order of insertion. */
    constructor (nbuf: nat, disk: Disk, zero: Block)
      requires disk.Valid()
      ensures Valid() && this.disk == disk && buf.Length == nbuf
      ensures fresh(Repr() - {disk})
      ensures slot == map[] && Pending() == map[] && waiting == seq(nbuf, _ => multiset{})
      ensures forall i :: 0 <= i < nbuf ==> buf[i].refcnt == 0
    {
      this.disk := disk;
      buf := new Buf[nbuf](_ => Buf(false, false, 0, 0, 0, false, zero));
      lru := new LruList(nbuf);
      slot := map[];
      waiting := seq(nbuf, _ => multiset{});
      new;
      forall b: nat | b < buf.Length
        ensures b in lru.order
      {
        assert lru.order[nbuf - 1 - b] == b;
      }
    }

    /** bget's first loop, along `next`. */
    method FindCached(blockno: nat) returns (b: nat)
      requires Valid()
      ensures if blockno in slot then b == slot[blockno] else b == buf.Length
    {
      var n := lru.n;
      ghost var k := 0;
      ghost var ring := [n] + lru.order;
      assert blockno in slot ==> slot[blockno] in lru.order;
      assert LinkedAt(lru.next[..], lru.prev[..], ring, 0);
      b := lru.next[n];
      while b != n
        invariant 0 <= k <= |lru.order|
        invariant b == if k == |lru.order| then n else lru.order[k]
        invariant forall j :: 0 <= j < k ==> !Holds(buf[lru.order[j]], blockno)
        decreases |lru.order| - k
      {
        if buf[b].dev == ROOTDEV && buf[b].blockno == blockno {
          return;
        }
        assert LinkedAt(lru.next[..], lru.prev[..], ring, k + 1);
        b := lru.next[b];
        k := k + 1;
      }
    }

    /** bget's second loop, along `prev`: the buffer released longest ago among those
        that are not in use. */
    method FindVictim() returns (b: nat)
      requires Valid()
      ensures b == buf.Length <==> forall i :: 0 <= i < buf.Length ==> !Reusable(buf[i])
      ensures b != buf.Length ==> b < buf.Length && Reusable(buf[b])
      ensures b != buf.Length ==> b in lru.stamp && forall i: nat :: i < buf.Length && Reusable(buf[i]) ==>
        i in lru.stamp && lru.stamp[b] <= lru.stamp[i]
    {
      var n := lru.n;
      ghost var k := |lru.order|;
      ghost var ring := [n] + lru.order;
      assert LinkedAt(lru.next[..], lru.prev[..], ring, k);
      b := lru.prev[n];
      while b != n
        invariant 0 <= k <= |lru.order|
        invariant b == if k == 0 then n else lru.order[k - 1]
        invariant forall j :: k <= j < |lru.order| ==> !Reusable(buf[lru.order[j]])
        decreases k
      {
        if buf[b].refcnt == 0 && !buf[b].dirty {
          forall i: nat | i < buf.Length && Reusable(buf[i])
            ensures i in lru.stamp && lru.stamp[b] <= lru.stamp[i]
          {
            assert i in lru.order;
            var j :| 0 <= j < |lru.order| && lru.order[j] == i;
          }
          return;
        }
        assert LinkedAt(lru.next[..], lru.prev[..], ring, k - 1);
        b := lru.prev[b];
        k := k - 1;
      }
      forall i: nat | i < buf.Length
        ensures !Reusable(buf[i])
      {
        assert i in lru.order;
        var j :| 0 <= j < |lru.order| && lru.order[j] == i;
      }
    }

    /** bget: the buffer of a cached block, else the least recently released buffer
        that is neither in use nor dirty. If the cached buffer's sleeping lock is taken, the
        caller goes to sleep on it with its reference counted; Resume is the rest. */
    method Bget(blockno: nat) returns (r: Getting)
      requires Valid() && blockno < |disk.image|
      modifies this, buf
      ensures Valid() && (!r.NoBuffers? ==> r.b < buf.Length)
      ensures r.NoBuffers? <==> blockno !in old(slot) && forall i :: 0 <= i < buf.Length ==> !Reusable(old(buf[..])[i])
      ensures r.Waits? <==> blockno in old(slot) && old(buf[..])[old(slot)[blockno]].locked
      ensures r.NoBuffers? ==> buf[..] == old(buf[..]) && slot == old(slot)
      ensures r.Waits? ==>
        && r.b == old(slot)[blockno] && slot == old(slot)
        && buf[r.b].refcnt == old(buf[..])[r.b].refcnt + 1
        && buf[..] == old(buf[..])[r.b := old(buf[..])[r.b].(refcnt := buf[r.b].refcnt)]
        && waiting == old(waiting)[r.b := old(waiting)[r.b] + multiset{blockno}]
      ensures !r.Waits? ==> waiting == old(waiting)
      ensures WaitedKept(old(waiting), old(buf[..]), buf[..])
      ensures r.Held? && blockno in old(slot) ==>
        && r.b == old(slot)[blockno] && slot == old(slot)
        && buf[..] == old(buf[..])[r.b := Acquired(old(buf[..])[r.b])]
      ensures r.Held? && blockno !in old(slot) ==>
        && Reusable(old(buf[..])[r.b])
        && (forall i: nat :: i < buf.Length && Reusable(old(buf[..])[i]) ==>
              i in lru.stamp && r.b in lru.stamp && lru.stamp[r.b] <= lru.stamp[i])
        && slot == Rekeyed(old(buf[..]), old(slot), r.b, blockno)
        && buf[..] == old(buf[..])[r.b := Recycled(old(buf[..])[r.b], blockno)]
    {
      hide CacheOk, UsersOk, WaitedKept, Rekeyed, Recycled, Acquired;
      ghost var buf0 := buf[..];
      NobodyWaits(buf0, waiting);
      var b := FindCached(blockno);
      CachedIs(buf0, slot, disk.image, blockno);
      if b != buf.Length {
        if buf[b].locked {
          AwaitOk(buf0, slot, disk.image, waiting, b, blockno);
          buf[b] := buf[b].(refcnt := buf[b].refcnt + 1);
          waiting := waiting[b := waiting[b] + multiset{blockno}];
          return Waits(b);
        }
        AcquireOk(buf0, slot, disk.image, waiting, b);
        buf[b] := Acquired(buf[b]);
        return Held(b);
      }
      b := FindVictim();
      if b != buf.Length {
        RecycleOk(buf0, slot, disk.image, b, blockno);
        RecycleUsers(buf0, waiting, b, blockno);
        slot := Rekeyed(buf[..], slot, b, blockno);
        buf[b] := Recycled(buf[b], blockno);
        return Held(b);
      }
      return NoBuffers;
    }

    /** iderw: writes a dirty buffer to the disk and clears the flag, or fills an invalid
        buffer; false is one of its four panics. */
    method Iderw(b: nat) returns (ok: bool)
      requires disk.Valid() && b < buf.Length
      modifies buf, disk
      ensures ok <==>
        && old(buf[b]).locked && (old(buf[b]).dirty || !old(buf[b]).valid)
        && old(buf[b]).dev == ROOTDEV && old(buf[b]).blockno < |old(disk.image)|
      ensures disk.Valid()
      ensures !ok ==> buf[..] == old(buf[..]) && disk.image == old(disk.image) && disk.history == old(disk.history)
      ensures ok && old(buf[b]).dirty ==>
        && buf[..] == old(buf[..])[b := old(buf[b]).(dirty := false, valid := true)]
        && disk.image == old(disk.image)[buf[b].blockno := buf[b].data]
        && disk.history == old(disk.history) + [disk.image]
      ensures ok && !old(buf[b]).dirty ==>
        && buf[..] == old(buf[..])[b := old(buf[b]).(data := old(disk.image[buf[b].blockno]), valid := true)]
        && disk.image == old(disk.image) && disk.history == old(disk.history)
    {
      if !buf[b].locked {
        return false;
      }
      if buf[b].valid && !buf[b].dirty {
        return false;
      }
      if buf[b].dev != ROOTDEV {
        return false;
      }
      if buf[b].blockno >= |disk.image| {
        return false;
      }
      if buf[b].dirty {
        buf[b] := buf[b].(dirty := false);
        disk.Write(buf[b].blockno, buf[b].data);
      } else {
        buf[b] := buf[b].(data := disk.image[buf[b].blockno]);
      }
      buf[b] := buf[b].(valid := true);
      return true;
    }

    /** bread: a locked buffer with the block's contents, which are the pending ones if
        the block is dirty in the cache, else those on the disk. */
    method Bread(blockno: nat) returns (r: Getting)
      requires Valid() && blockno < |disk.image|
      modifies this, buf, disk
      ensures Valid() && (!r.NoBuffers? ==> r.b < buf.Length)
      ensures r.NoBuffers? <==> blockno !in old(slot) && forall i :: 0 <= i < buf.Length ==> !Reusable(old(buf[..])[i])
      ensures r.Waits? <==> blockno in old(slot) && old(buf[..])[old(slot)[blockno]].locked
      ensures r.NoBuffers? ==> buf[..] == old(buf[..]) && slot == old(slot)
      ensures r.Waits? ==>
        && r.b == old(slot)[blockno] && slot == old(slot)
        && buf[..] == old(buf[..])[r.b := old(buf[..])[r.b].(refcnt := old(buf[..])[r.b].refcnt + 1)]
        && waiting == old(waiting)[r.b := old(waiting)[r.b] + multiset{blockno}]
      ensures !r.Waits? ==> waiting == old(waiting)
      ensures disk.image == old(disk.image) && disk.history == old(disk.history)
      ensures Pending() == old(Pending())
      ensures r.Held? ==> var b := r.b; var was := old(buf[..])[b];
        && (if blockno in old(slot) then old(slot)[blockno] == b else Reusable(was))
        && blockno in slot && slot[blockno] == b
        && (was.dirty <==> blockno in Pending())
        && buf[..] == old(buf[..])[b := Buf(true, was.dirty, ROOTDEV, blockno, was.refcnt + 1, true,
                                            Contents(old(Pending()), disk.image, blockno))]
    {
      hide Rekeyed, LruList.Valid, SlotsOk, UsersOk, PendingOf, WaitedKept;
      ghost var buf0, slot0 := buf[..], slot;
      CachedIs(buf0, slot0, disk.image, blockno);
      r := Bget(blockno);
      if r.Held? {
        var b := r.b;
        PendingAfterBget(buf0, slot0, buf[..], slot, b, blockno);
        CachedContents(buf0, slot0, disk.image, blockno);
        CachedIs(buf[..], slot, disk.image, blockno);
        PendingIff(buf[..], slot, disk.image, b);
        FillHeld(b);
      } else if r.Waits? {
        PendingWhileAwaited(buf0, slot0, r.b, buf[r.b].refcnt);
      }
    }

    /** The rest of bget, and of bread, for a process that slept on the buffer's lock until it
        was free: the buffer still holds the block the process asked for. */
    method Resume(b: nat, blockno: nat)
      requires Valid() && b < buf.Length && blockno in waiting[b] && !buf[b].locked
      modifies this, buf, disk
      ensures Valid() && slot == old(slot) && blockno in slot && slot[blockno] == b
      ensures waiting == old(waiting)[b := old(waiting)[b] - multiset{blockno}]
      ensures disk.image == old(disk.image) && disk.history == old(disk.history)
      ensures Pending() == old(Pending())
      ensures blockno < |disk.image| && var was := old(buf[..])[b];
        buf[..] == old(buf[..])[b := Buf(true, was.dirty, ROOTDEV, blockno, was.refcnt, true,
                                         Contents(old(Pending()), disk.image, blockno))]
    {
      hide CacheOk, UsersOk, LruList.Valid, PendingOf;
      ghost var buf0 := buf[..];
      ResumeOk(buf0, slot, disk.image, waiting, b, blockno);
      CachedContents(buf0, slot, disk.image, blockno);
      buf[b] := buf[b].(locked := true);
      waiting := waiting[b := waiting[b] - multiset{blockno}];
      FillHeld(b);
    }

    /** The rest of bread: `if((b->flags & B_VALID) == 0) iderw(b)`. */
    method FillHeld(b: nat)
      requires Valid() && b < buf.Length && buf[b].locked
      modifies buf, disk
      ensures Valid() && Pending() == old(Pending())
      ensures disk.image == old(disk.image) && disk.history == old(disk.history)
      ensures buf[b].blockno < |disk.image|
      ensures buf[..] == old(buf[..])[b := if old(buf[b]).valid then old(buf[b])
                                           else old(buf[b]).(valid := true, data := disk.image[buf[b].blockno])]
    {
      hide CacheOk, UsersOk, LruList.Valid, PendingOf;
      CachedIs(buf[..], slot, disk.image, buf[b].blockno);
      assert BufOk(buf[b], disk.image);
      if !buf[b].valid {
        ghost var x := buf[b].(data := disk.image[buf[b].blockno], valid := true);
        FillOk(buf[..], slot, disk.image, b, x.data);
        UsersKept(buf[..], waiting, b, x);
        assert x == buf[b].(data := x.data, valid := true);
        var ok := Iderw(b);
      }
    }

    /** The client's change to a buffer it holds. */
    method SetData(b: nat, data: Block)
      requires Valid() && b < buf.Length && buf[b].locked
      modifies buf
      ensures Valid() && buf[..] == old(buf[..])[b := old(buf[b]).(data := data)]
      ensures Pending() == if buf[b].dirty then old(Pending())[buf[b].blockno := data] else old(Pending())
    {
      hide CacheOk, UsersOk, PendingOf, LruList.Valid;
      ghost var x := buf[b].(data := data);
      CachedIs(buf[..], slot, disk.image, x.blockno);
      PutOk(buf[..], slot, disk.image, b, x, disk.image);
      UsersKept(buf[..], waiting, b, x);
      PendingIff(buf[..], slot, disk.image, b);
      PendingSame(Pending(), x.blockno);
      buf[b] := buf[b].(data := data);
    }

    /** The last line of log_write: pin the buffer with B_DIRTY. */
    method Pin(b: nat)
      requires Valid() && b < buf.Length && buf[b].locked && buf[b].valid
      modifies buf
      ensures Valid() && buf[..] == old(buf[..])[b := old(buf[b]).(dirty := true)]
      ensures Pending() == old(Pending())[buf[b].blockno := buf[b].data]
    {
      hide CacheOk, UsersOk, PendingOf, LruList.Valid;
      ghost var x := buf[b].(dirty := true);
      CachedIs(buf[..], slot, disk.image, x.blockno);
      PutOk(buf[..], slot, disk.image, b, x, disk.image);
      UsersKept(buf[..], waiting, b, x);
      buf[b] := buf[b].(dirty := true);
    }

    /** bwrite: the buffer goes to the disk and is no longer pending. */
    method Bwrite(b: nat)
      requires Valid() && b < buf.Length && buf[b].locked && buf[b].valid
      modifies buf, disk
      ensures Valid() && buf[..] == old(buf[..])[b := old(buf[b]).(dirty := false)]
      ensures disk.image == old(disk.image)[buf[b].blockno := buf[b].data]
      ensures disk.history == old(disk.history) + [disk.image]
      ensures Pending() == old(Pending()) - {buf[b].blockno}
    {
      hide CacheOk, UsersOk, PendingOf, LruList.Valid;
      ghost var buf0, x := buf[..], buf[b].(dirty := false);
      CachedIs(buf0, slot, disk.image, x.blockno);
      PutOk(buf0, slot, disk.image, b, x, disk.image[x.blockno := x.data]);
      UsersKept(buf0, waiting, b, x);
      buf[b] := buf[b].(dirty := true);
      var ok := Iderw(b);
      assert buf[..] == buf0[b := x];
    }

    /** brelse: the last release moves the buffer to the front of the list. */
    method Brelse(b: nat)
      requires Valid() && b < buf.Length && buf[b].locked && buf[b].valid
      requires !buf[b].dirty ==> buf[b].data == disk.image[buf[b].blockno]
      modifies buf, lru, lru.next, lru.prev
      ensures Valid() && buf[..] == old(buf[..])[b := old(buf[b]).(refcnt := old(buf[b]).refcnt - 1, locked := false)]
      ensures Pending() == old(Pending())
      ensures b < |waiting|
      ensures waiting[b] != multiset{} ==> !Reusable(buf[b]) && forall k :: k in waiting[b] ==> Holds(buf[b], k)
      ensures if buf[b].refcnt == 0 then lru.stamp == old(lru.stamp)[b := old(lru.clock)] && lru.clock > old(lru.clock)
        else lru.stamp == old(lru.stamp) && lru.clock == old(lru.clock)
    {
      hide CacheOk, UsersOk, PendingOf, Linked, Ordered;
      CachedIs(buf[..], slot, disk.image, buf[b].blockno);
      assert BufOk(buf[b], disk.image);
      NobodyWaits(buf[..], waiting);
      ghost var x := buf[b].(refcnt := buf[b].refcnt - 1, locked := false);
      PutOk(buf[..], slot, disk.image, b, x, disk.image);
      PendingIff(buf[..], slot, disk.image, b);
      PendingSame(Pending(), x.blockno);
      ReleaseUsers(buf[..], waiting, b, x);
      buf[b] := buf[b].(refcnt := buf[b].refcnt - 1, locked := false);
      if buf[b].refcnt == 0 {
        assert b in lru.order;
        ghost var k :| 0 <= k < |lru.order| && lru.order[k] == b;
        ghost var order := lru.order;
        lru.MoveToFront(b, k);
        forall i: nat | i < buf.Length
          ensures i in lru.order
        {
          WithoutKeeps(order, k, i);
        }
      }
    }
  }

  /** A new value for the buffer of a block, with the disk perhaps changed at that block. */
  lemma {:induction false} PutOk(buf: seq<Buf>, slot: map<nat, nat>, image: seq<Block>, b: nat, x: Buf,
                                 image': seq<Block>)
    requires CacheOk(buf, slot, image) && b < |buf| && Holds(buf[b], x.blockno) && x.dev == ROOTDEV
    requires BufOk(x, image') && |image'| == |image|
    requires forall k :: 0 <= k < |image| && k != x.blockno ==> image'[k] == image[k]
    ensures CacheOk(buf[b := x], slot, image')
    ensures PendingOf(buf[b := x], slot)
         == if x.dirty then PendingOf(buf, slot)[x.blockno := x.data] else PendingOf(buf, slot) - {x.blockno}
  {
    var buf' := buf[b := x];
    assert forall i :: 0 <= i < |buf| && i != b ==> buf'[i] == buf[i];
    assert slot[x.blockno] == b;
    assert forall i :: 0 <= i < |buf| && i != b && buf[i].dev == ROOTDEV ==> buf[i].blockno != x.blockno;
  }

  /** The same, when it is pending neither before nor after, or with the same contents. */
  lemma PendingSame(pending: map<nat, Block>, k: nat)
    ensures k in pending ==> pending[k := pending[k]] == pending
    ensures k !in pending ==> pending - {k} == pending
  {
  }

  lemma PendingIff(buf: seq<Buf>, slot: map<nat, nat>, image: seq<Block>, b: nat)
    requires CacheOk(buf, slot, image) && b < |buf| && buf[b].dev == ROOTDEV
    ensures buf[b].blockno in PendingOf(buf, slot) <==> buf[b].dirty
    ensures buf[b].dirty ==> PendingOf(buf, slot)[buf[b].blockno] == buf[b].data
    ensures buf[b].blockno in slot && slot[buf[b].blockno] == b && buf[b].blockno < |image|
  {
    assert BufOk(buf[b], image);
  }

  /** A cached valid block that nobody holds has its pending contents, else the disk's. */
  lemma CachedContents(buf: seq<Buf>, slot: map<nat, nat>, image: seq<Block>, k: nat)
    requires CacheOk(buf, slot, image) && k < |image|
    requires k in slot ==> !buf[slot[k]].locked
    ensures k in slot && buf[slot[k]].valid ==> buf[slot[k]].data == Contents(PendingOf(buf, slot), image, k)
    ensures (k in slot ==> !buf[slot[k]].valid) ==> Contents(PendingOf(buf, slot), image, k) == image[k]
  {
  }

  /** Filling an invalid buffer keeps the cache consistent and what is pending. */
  lemma FillOk(buf: seq<Buf>, slot: map<nat, nat>, image: seq<Block>, b: nat, data: Block)
    requires CacheOk(buf, slot, image) && b < |buf|
    requires buf[b].locked && !buf[b].valid
    ensures CacheOk(buf[b := buf[b].(data := data, valid := true)], slot, image)
    ensures PendingOf(buf[b := buf[b].(data := data, valid := true)], slot) == PendingOf(buf, slot)
  {
    var buf' := buf[b := buf[b].(data := data, valid := true)];
    assert forall i :: 0 <= i < |buf| && i != b ==> buf'[i] == buf[i];
  }

  lemma WithoutKeeps(order: seq<nat>, k: nat, i: nat)
    requires k < |order| && i in order
    ensures i in [order[k]] + Without(order, k)
  {
    var j :| 0 <= j < |order| && order[j] == i;
    var order' := [order[k]] + Without(order, k);
    if j < k {
      assert order'[1 + j] == i;
    } else if j > k {
      assert order'[j] == i;
    }
  }

  /** bget changes no dirty buffer's data, and recycles none. */
  lemma {:induction false} PendingAfterBget(buf: seq<Buf>, slot: map<nat, nat>, buf': seq<Buf>, slot': map<nat, nat>,
                                            b: nat, blockno: nat)
    requires SlotsOk(buf, slot) && SlotsOk(buf', slot') && b < |buf|
    requires if blockno in slot then b == slot[blockno] && slot' == slot && buf' == buf[b := Acquired(buf[b])]
      else Reusable(buf[b]) && slot' == Rekeyed(buf, slot, b, blockno) && buf' == buf[b := Recycled(buf[b], blockno)]
    ensures PendingOf(buf', slot') == PendingOf(buf, slot)
  {
    var p, p' := PendingOf(buf, slot), PendingOf(buf', slot');
    forall k
      ensures k in p <==> k in p'
      ensures k in p ==> p[k] == p'[k]
    {
    }
  }

  /** `b->refcnt++` and `acquiresleep(&b->lock)`. */
  function Acquired(b: Buf): Buf {
    b.(refcnt := b.refcnt + 1, locked := true)
  }

  lemma PendingWhileAwaited(buf: seq<Buf>, slot: map<nat, nat>, b: nat, refcnt: nat)
    requires b < |buf|
    ensures PendingOf(buf[b := buf[b].(refcnt := refcnt)], slot) == PendingOf(buf, slot)
  {
  }

  lemma CachedIs(buf: seq<Buf>, slot: map<nat, nat>, image: seq<Block>, k: nat)
    requires CacheOk(buf, slot, image)
    ensures k in slot ==> slot[k] < |buf| && Holds(buf[slot[k]], k)
    ensures forall i :: 0 <= i < |buf| && Holds(buf[i], k) ==> k in slot && slot[k] == i
    ensures forall i :: 0 <= i < |buf| ==> BufOk(buf[i], image)
  {
  }

  lemma NobodyWaits(buf: seq<Buf>, waiting: seq<multiset<nat>>)
    requires UsersOk(buf, waiting)
    ensures |waiting| == |buf| && WaitedKept(waiting, buf, buf)
  {
    forall i | 0 <= i < |buf|
      ensures waiting[i] != multiset{} ==> !Reusable(buf[i])
    {
      WaitedFor(buf, waiting, i);
    }
  }

  lemma AwaitOk(buf: seq<Buf>, slot: map<nat, nat>, image: seq<Block>, waiting: seq<multiset<nat>>, b: nat, k: nat)
    requires CacheOk(buf, slot, image) && UsersOk(buf, waiting) && b < |buf| && Holds(buf[b], k) && buf[b].locked
    ensures var buf' := buf[b := buf[b].(refcnt := buf[b].refcnt + 1)];
      && CacheOk(buf', slot, image) && UsersOk(buf', waiting[b := waiting[b] + multiset{k}])
      && WaitedKept(waiting, buf, buf')
  {
    var buf' := buf[b := buf[b].(refcnt := buf[b].refcnt + 1)];
    NobodyWaits(buf, waiting);
    UsersChanged(buf, waiting, b, buf'[b], waiting[b] + multiset{k});
    assert forall i :: 0 <= i < |buf| && i != b ==> buf'[i] == buf[i];
  }

  lemma AcquireOk(buf: seq<Buf>, slot: map<nat, nat>, image: seq<Block>, waiting: seq<multiset<nat>>, b: nat)
    requires CacheOk(buf, slot, image) && UsersOk(buf, waiting) && b < |buf| && !buf[b].locked && buf[b].dev == ROOTDEV
    ensures var buf' := buf[b := Acquired(buf[b])];
      CacheOk(buf', slot, image) && UsersOk(buf', waiting) && WaitedKept(waiting, buf, buf')
  {
    var buf' := buf[b := Acquired(buf[b])];
    NobodyWaits(buf, waiting);
    UsersChanged(buf, waiting, b, buf'[b], waiting[b]);
    assert waiting[b := waiting[b]] == waiting;
    assert forall i :: 0 <= i < |buf| && i != b ==> buf'[i] == buf[i];
  }

  lemma ResumeOk(buf: seq<Buf>, slot: map<nat, nat>, image: seq<Block>, waiting: seq<multiset<nat>>, b: nat, k: nat)
    requires CacheOk(buf, slot, image) && UsersOk(buf, waiting) && b < |buf| && k in waiting[b] && !buf[b].locked
    ensures |waiting| == |buf| && k in slot && slot[k] == b && Holds(buf[b], k) && k < |image|
    ensures var buf' := buf[b := buf[b].(locked := true)];
      && CacheOk(buf', slot, image) && UsersOk(buf', waiting[b := waiting[b] - multiset{k}])
      && PendingOf(buf', slot) == PendingOf(buf, slot)
  {
    assert BufOk(buf[b], image);
    var x := buf[b].(locked := true);
    UsersChanged(buf, waiting, b, x, waiting[b] - multiset{k});
    PutOk(buf, slot, image, b, x, image);
    PendingIff(buf, slot, image, b);
    PendingSame(PendingOf(buf, slot), k);
  }

  lemma ReleaseUsers(buf: seq<Buf>, waiting: seq<multiset<nat>>, b: nat, x: Buf)
    requires UsersOk(buf, waiting) && b < |buf| && buf[b].locked && Holds(buf[b], x.blockno) && x.dev == ROOTDEV
    requires x.refcnt == buf[b].refcnt - 1 && !x.locked
    ensures UsersOk(buf[b := x], waiting)
    ensures waiting[b] != multiset{} ==> !Reusable(x) && forall k :: k in waiting[b] ==> Holds(x, k)
  {
    UsersChanged(buf, waiting, b, x, waiting[b]);
    assert waiting[b := waiting[b]] == waiting;
    WaitedFor(buf[b := x], waiting, b);
  }

  lemma RecycleUsers(buf: seq<Buf>, waiting: seq<multiset<nat>>, b: nat, blockno: nat)
    requires UsersOk(buf, waiting) && b < |buf| && Reusable(buf[b])
    ensures var buf' := buf[b := Recycled(buf[b], blockno)];
      UsersOk(buf', waiting) && WaitedKept(waiting, buf, buf')
  {
    var buf' := buf[b := Recycled(buf[b], blockno)];
    NobodyWaits(buf, waiting);
    WaitedFor(buf, waiting, b);
    UsersChanged(buf, waiting, b, buf'[b], waiting[b]);
    assert waiting[b := waiting[b]] == waiting;
  }

  function Recycled(b: Buf, blockno: nat): Buf {
    Buf(false, false, ROOTDEV, blockno, 1, true, b.data)
  }

  lemma {:induction false} RecycleOk(buf: seq<Buf>, slot: map<nat, nat>, image: seq<Block>, b: nat, blockno: nat)
    requires CacheOk(buf, slot, image) && b < |buf| && Reusable(buf[b])
    requires blockno !in slot && blockno < |image|
    ensures CacheOk(buf[b := Recycled(buf[b], blockno)], Rekeyed(buf, slot, b, blockno), image)
  {
    var buf', slot' := buf[b := Recycled(buf[b], blockno)], Rekeyed(buf, slot, b, blockno);
    forall k | k in slot'
      ensures slot'[k] < |buf'| && Holds(buf'[slot'[k]], k)
    {
      assert k == blockno || k in slot;
    }
    forall i | 0 <= i < |buf'| && buf'[i].dev == ROOTDEV
      ensures buf'[i].blockno in slot' && slot'[buf'[i].blockno] == i
    {
      assert i != b ==> buf'[i] == buf[i];
    }
    assert forall i :: 0 <= i < |buf'| && i != b ==> buf'[i] == buf[i];
  }
}
