/** The redo log of log.c, running on the buffer cache. */
module Logs {
  import opened Common
  import opened BufferCaches
  import opened LogSpec

  /** Nobody holds a buffer. */
  ghost predicate Quiet(buf: seq<Buf>) {
    forall i :: 0 <= i < |buf| ==> buf[i].refcnt == 0
  }

  /** Nobody holds the buffer of block `b`. */
  ghost predicate Unheld(buf: seq<Buf>, b: nat) {
    forall i :: 0 <= i < |buf| && Holds(buf[i], b) ==> buf[i].refcnt == 0
  }

  /** Nobody holds the buffer of a block of the log or of one listed. */
  ghost predicate Apart(buf: seq<Buf>, a: Area, blocks: seq<nat>) {
    forall b: nat :: InArea(a, b) || b in blocks ==> Unheld(buf, b)
  }

  /** bget finds a buffer to recycle. */
  ghost predicate Spare(buf: seq<Buf>) {
    exists i :: 0 <= i < |buf| && Reusable(buf[i])
  }

  ghost predicate TwoSpare(buf: seq<Buf>) {
    exists i, j :: 0 <= i < j < |buf| && Reusable(buf[i]) && Reusable(buf[j])
  }

  /** The buffers others hold are as they were, and no more are held. */
  ghost predicate SameHeld(buf: seq<Buf>, buf': seq<Buf>) {
    |buf'| == |buf| && forall k :: 0 <= k < |buf| ==> HeldAsBefore(buf[k], buf'[k])
  }

  ghost predicate HeldAsBefore(b: Buf, b': Buf) {
    if b.refcnt > 0 then b' == b else b'.refcnt == 0
  }

  lemma ApartKept(buf: seq<Buf>, buf': seq<Buf>, a: Area, blocks: seq<nat>)
    requires Apart(buf, a, blocks) && SameHeld(buf, buf')
    ensures Apart(buf', a, blocks)
  {
    forall b: nat | InArea(a, b) || b in blocks
      ensures Unheld(buf', b)
    {
      assert Unheld(buf, b);
      forall i | 0 <= i < |buf'| && Holds(buf'[i], b)
        ensures buf'[i].refcnt == 0
      {
        assert HeldAsBefore(buf[i], buf'[i]);
      }
    }
  }

  lemma SameHeldTrans(buf: seq<Buf>, buf1: seq<Buf>, buf2: seq<Buf>)
    requires SameHeld(buf, buf1) && SameHeld(buf1, buf2)
    ensures SameHeld(buf, buf2)
  {
    forall k | 0 <= k < |buf|
      ensures HeldAsBefore(buf[k], buf2[k])
    {
      assert HeldAsBefore(buf[k], buf1[k]) && HeldAsBefore(buf1[k], buf2[k]);
    }
  }

  /** Fewer pending blocks than buffers leave a buffer clean. */
  lemma {:induction false} SomeClean(buf: seq<Buf>, slot: map<nat, nat>, image: seq<Block>)
    requires CacheOk(buf, slot, image) && |PendingOf(buf, slot)| < |buf|
    ensures exists i :: 0 <= i < |buf| && !buf[i].dirty
  {
    if forall i :: 0 <= i < |buf| ==> buf[i].dirty {
      forall i | 0 <= i < |buf|
        ensures buf[i].blockno in PendingOf(buf, slot)
      {
        assert buf[i].dev == ROOTDEV;
      }
      DirtyCount(buf, slot, PendingOf(buf, slot).Keys, |buf|);
      assert false;
    }
  }

  lemma {:induction false} DirtyCount(buf: seq<Buf>, slot: map<nat, nat>, keys: set<nat>, m: nat)
    requires m <= |buf| && SlotsOk(buf, slot)
    requires forall i :: 0 <= i < m ==> buf[i].blockno in keys && buf[i].dev == ROOTDEV
    ensures |keys| >= m
  {
    if m > 0 {
      DirtyCount(buf, slot, keys - {buf[m - 1].blockno}, m - 1);
    }
  }

  lemma {:induction false} SlotCount(slot: map<nat, nat>, keys: set<nat>, places: set<nat>)
    requires forall k :: k in keys ==> k in slot && slot[k] in places
    requires forall k, m :: k in keys && m in keys && slot[k] == slot[m] ==> k == m
    ensures |keys| <= |places|
  {
    if keys != {} {
      var k :| k in keys;
      SlotCount(slot, keys - {k}, places - {slot[k]});
    }
  }

  /** A clean buffer leaves fewer pending blocks than buffers. */
  lemma {:induction false} CleanCount(buf: seq<Buf>, slot: map<nat, nat>, image: seq<Block>, i: nat)
    requires CacheOk(buf, slot, image) && i < |buf| && !buf[i].dirty
    ensures |PendingOf(buf, slot)| < |buf|
  {
    RangeSize(0, |buf|);
    SlotCount(slot, PendingOf(buf, slot).Keys, Range(0, |buf|) - {i});
    assert |Range(0, |buf|) - {i}| == |buf| - 1;
    assert |PendingOf(buf, slot).Keys| == |PendingOf(buf, slot)|;
  }

  /** A buffer to recycle is one more than the pending blocks need; if nobody holds a buffer,
      that is all it takes. */
  lemma {:induction false} SpareIff(bc: BufferCache)
    requires bc.Valid()
    ensures Spare(bc.buf[..]) ==> |bc.Pending()| < bc.buf.Length
    ensures Quiet(bc.buf[..]) && |bc.Pending()| < bc.buf.Length ==> Spare(bc.buf[..])
  {
    if Spare(bc.buf[..]) {
      var i :| 0 <= i < bc.buf.Length && Reusable(bc.buf[..][i]);
      CleanCount(bc.buf[..], bc.slot, bc.disk.image, i);
    }
    if Quiet(bc.buf[..]) && |bc.Pending()| < bc.buf.Length {
      SomeClean(bc.buf[..], bc.slot, bc.disk.image);
      assert exists i :: 0 <= i < bc.buf.Length && Reusable(bc.buf[..][i]);
    }
  }

  /** A block that is neither pending nor held is read exactly if there is a buffer to recycle. */
  lemma {:induction false} FirstRead(bc: BufferCache, blockno: nat)
    requires bc.Valid() && Unheld(bc.buf[..], blockno) && blockno !in bc.Pending()
    ensures Spare(bc.buf[..]) <==>
      blockno in bc.slot || exists i :: 0 <= i < bc.buf.Length && Reusable(bc.buf[..][i])
    ensures blockno in bc.slot ==>
      bc.slot[blockno] < bc.buf.Length && !bc.buf[bc.slot[blockno]].locked && bc.buf[bc.slot[blockno]].refcnt == 0
  {
    if blockno in bc.slot {
      assert Holds(bc.buf[..][bc.slot[blockno]], blockno);
      assert Reusable(bc.buf[..][bc.slot[blockno]]);
    }
  }

  /** The read of a second block while buffer `i` is held. */
  lemma {:induction false} SecondRead(bc: BufferCache, i: nat, second: nat)
    requires bc.Valid() && Unheld(bc.buf[..], second)
    requires second in bc.Pending() || exists k :: 0 <= k < bc.buf.Length && k != i && Reusable(bc.buf[..][k])
    ensures second in bc.slot || exists k :: 0 <= k < bc.buf.Length && Reusable(bc.buf[..][k])
    ensures second in bc.slot ==>
      bc.slot[second] < bc.buf.Length && !bc.buf[bc.slot[second]].locked && bc.buf[bc.slot[second]].refcnt == 0
  {
    if second in bc.slot {
      assert Holds(bc.buf[..][bc.slot[second]], second);
    }
  }

  lemma OtherSpare(buf: seq<Buf>, buf': seq<Buf>, i: nat)
    requires TwoSpare(buf) && |buf'| == |buf| && forall k :: 0 <= k < |buf| && k != i ==> buf'[k] == buf[k]
    ensures exists k :: 0 <= k < |buf'| && k != i && Reusable(buf'[k])
  {
    var p, q :| 0 <= p < q < |buf| && Reusable(buf[p]) && Reusable(buf[q]);
    var k := if p == i then q else p;
    assert Reusable(buf'[k]);
  }

  /** How end_op ends: it returns, or it panics "log.committing" or "bget: no buffers". */
  datatype Ending = Ended | Committing | OutOfBuffers

  class Log {
    const bc: BufferCache
    const area: Area
    const block: array<nat>
    var n: nat
    var outstanding: nat
    var committing: bool

    /** The parts of the cache, for frames. */
    ghost function Repr(): set<object> {
      {this, block} + bc.Repr()
    }

    function Blocks(): seq<nat>
      requires n <= block.Length
      reads this, block
    {
      block[..n]
    }

    ghost predicate Wf()
      reads this, bc, bc.disk, bc.buf, bc.lru, bc.lru.next, bc.lru.prev, block
    {
      && bc.Valid() && block as object !in bc.Repr() && this !in bc.Repr()
      && block.Length == LOGSIZE && n <= LOGSIZE
      && Listed(area, Blocks(), |bc.disk.image|)
    }

    /** Outside commit: the header on disk is empty, and the dirty buffers are exactly
        those of the logged blocks. */
    ghost predicate Valid()
      reads this, bc, bc.disk, bc.buf, bc.lru, bc.lru.next, bc.lru.prev, block
    {
      Wf() && EmptyHeader(area, bc.disk.image) && PendingIs(bc.Pending(), Blocks())
    }

    /** The log before initlog has recovered it. */
    constructor (bc: BufferCache, area: Area)
      requires bc.Valid() && WfDisk(area, bc.disk.image)
      ensures Wf() && n == 0 && outstanding == 0 && !committing
      ensures this.bc == bc && this.area == area && fresh(block)
    {
      this.bc, this.area := bc, area;
      block := new nat[LOGSIZE];
      n, outstanding, committing := 0, 0, false;
    }

    /** The two reads that start a round of write_log or install_trans; false is the panic
        "no buffers", which the first meets exactly if there is no buffer to recycle. The
        second never does: its block is either pending, hence cached, or there were two. */
    method ReadPair(first: nat, second: nat) returns (ok: bool, i: nat, j: nat)
      requires bc.Valid() && Unheld(bc.buf[..], first) && Unheld(bc.buf[..], second) && first !in bc.Pending()
      requires first < |bc.disk.image| && second < |bc.disk.image| && first != second
      requires second in bc.Pending() || TwoSpare(bc.buf[..])
      modifies bc, bc.buf, bc.disk
      ensures ok <==> Spare(old(bc.buf[..]))
      ensures bc.Valid() && (if ok then HeldPair(old(bc.buf[..]), bc.buf[..], i, j) else bc.buf[..] == old(bc.buf[..]))
      ensures ok ==>
        && bc.buf[i].blockno == first && bc.buf[j].blockno == second
        && bc.buf[i].data == Contents(bc.Pending(), bc.disk.image, first)
        && bc.buf[j].data == Contents(bc.Pending(), bc.disk.image, second)
        && !bc.buf[i].dirty && bc.buf[j].dirty == (second in bc.Pending())
      ensures bc.Pending() == old(bc.Pending())
      ensures bc.disk.image == old(bc.disk.image) && bc.disk.history == old(bc.disk.history)
    {
      hide BufferCache.Valid, BufferCache.Pending, Spare, TwoSpare, Unheld;
      FirstRead(bc, first);
      ghost var buf0 := bc.buf[..];
      var r := bc.Bread(first);
      if r.NoBuffers? {
        return false, 0, 0;
      }
      ok, i := true, r.b;
      ghost var buf1 := bc.buf[..];
      StillUnheld(buf0, buf1, i, first, second);
      if second !in bc.Pending() {
        OtherSpare(buf0, buf1, i);
      }
      SecondRead(bc, i, second);
      r := bc.Bread(second);
      j := r.b;
      assert forall k :: 0 <= k < |buf0| && k != i ==> buf1[k] == buf0[k];
    }

    /** The rest of a round: memmove, bwrite and two times brelse. */
    method CopyPair(from: nat, to: nat, ghost buf0: seq<Buf>)
      requires bc.Valid() && HeldPair(buf0, bc.buf[..], from, to)
      requires bc.buf[from].blockno != bc.buf[to].blockno && bc.buf[to].blockno < |bc.disk.image|
      requires bc.buf[from].blockno < |bc.disk.image|
      requires !bc.buf[from].dirty ==> bc.buf[from].data == bc.disk.image[bc.buf[from].blockno]
      modifies bc.buf, bc.disk, bc.lru, bc.lru.next, bc.lru.prev
      ensures bc.Valid() && bc.Pending() == old(bc.Pending()) - {old(bc.buf[to]).blockno}
      ensures SameHeld(buf0, bc.buf[..]) && Reusable(bc.buf[to])
      ensures !old(bc.buf[from]).dirty ==> Reusable(bc.buf[from])
      ensures bc.disk.image == old(bc.disk.image)[old(bc.buf[to]).blockno := old(bc.buf[from]).data]
      ensures bc.disk.history == old(bc.disk.history) + [bc.disk.image]
    {
      hide BufferCache.Valid, BufferCache.Pending;
      bc.SetData(to, bc.buf[from].data);
      bc.Bwrite(to);
      bc.Brelse(from);
      bc.Brelse(to);
    }

    /** One round of write_log; false is the panic "no buffers". */
    method WriteLogBlock(tail: nat) returns (ok: bool)
      requires bc.Valid() && block as object !in bc.Repr() && tail < block.Length
      requires area.start + tail + 1 < |bc.disk.image| && block[tail] < |bc.disk.image|
      requires Unheld(bc.buf[..], area.start + tail + 1) && Unheld(bc.buf[..], block[tail])
      requires block[tail] in bc.Pending() && area.start + tail + 1 !in bc.Pending()
      modifies bc, bc.buf, bc.disk, bc.lru, bc.lru.next, bc.lru.prev
      ensures ok <==> Spare(old(bc.buf[..]))
      ensures bc.Valid() && SameHeld(old(bc.buf[..]), bc.buf[..]) && bc.Pending() == old(bc.Pending())
      ensures ok ==>
        && Spare(bc.buf[..])
        && bc.disk.image == old(bc.disk.image)[area.start + tail + 1 := bc.Pending()[block[tail]]]
        && bc.disk.history == old(bc.disk.history) + [bc.disk.image]
      ensures !ok ==>
        bc.buf[..] == old(bc.buf[..]) && bc.disk.image == old(bc.disk.image) && bc.disk.history == old(bc.disk.history)
    {
      hide BufferCache.Valid, BufferCache.Pending, Unheld, TwoSpare, SameHeld;
      var to, from;
      ok, to, from := ReadPair(area.start + tail + 1, block[tail]);
      if !ok {
        SameHeldSelf(bc.buf[..]);
        return;
      }
      SwapPair(old(bc.buf[..]), bc.buf[..], to, from);
      CopyPair(from, to, old(bc.buf[..]));
      WithoutAbsent(old(bc.Pending()), area.start + tail + 1);
      assert Reusable(bc.buf[..][to]);
    }

    /** One round of install_trans. */
    method InstallBlock(tail: nat)
      requires bc.Valid() && block as object !in bc.Repr() && tail < block.Length
      requires area.start + tail + 1 < |bc.disk.image| && block[tail] < |bc.disk.image|
      requires area.start + tail + 1 != block[tail]
      requires Unheld(bc.buf[..], area.start + tail + 1) && Unheld(bc.buf[..], block[tail])
      requires Spare(bc.buf[..]) && (block[tail] in bc.Pending() || TwoSpare(bc.buf[..]))
      requires area.start + tail + 1 !in bc.Pending()
      modifies bc, bc.buf, bc.disk, bc.lru, bc.lru.next, bc.lru.prev
      ensures bc.Valid() && bc.Pending() == old(bc.Pending()) - {block[tail]}
      ensures SameHeld(old(bc.buf[..]), bc.buf[..]) && Spare(bc.buf[..]) && TwoSpare(bc.buf[..])
      ensures bc.disk.image == old(bc.disk.image)[block[tail] := old(bc.disk.image)[area.start + tail + 1]]
      ensures bc.disk.history == old(bc.disk.history) + [bc.disk.image]
    {
      hide BufferCache.Valid, BufferCache.Pending, Unheld, SameHeld;
      var ok, lbuf, dbuf := ReadPair(area.start + tail + 1, block[tail]);
      CopyPair(lbuf, dbuf, old(bc.buf[..]));
      BothSpare(bc.buf[..], lbuf, dbuf);
    }

    /** What commit and recovery need of the cache: nobody holds a buffer of the log or of a
        block listed, and there is a buffer to recycle, two if nothing is pending. */
    ghost predicate Ready()
      reads this, bc, bc.disk, bc.buf, bc.lru, bc.lru.next, bc.lru.prev, block
    {
      && Wf() && n < area.size && Apart(bc.buf[..], area, Blocks()) && |bc.disk.image[area.start].words| == WORDS
      && Spare(bc.buf[..]) && (bc.Pending() == map[] ==> TwoSpare(bc.buf[..]))
    }

    /** The loop invariant of write_log: `tail` blocks are in the log. */
    ghost predicate Logging(image: seq<Block>, history: seq<seq<Block>>, blocks: seq<nat>, pending: map<nat, Block>,
                            buf: seq<Buf>, tail: nat)
      reads bc, bc.disk, bc.buf, bc.lru, bc.lru.next, bc.lru.prev
    {
      && Listed(area, blocks, |image|) && (forall b :: b in blocks ==> b in pending) && tail <= |blocks|
      && bc.Valid() && bc.Pending() == pending && SameHeld(buf, bc.buf[..])
      && (if tail == 0 then bc.buf[..] == buf && bc.disk.image == image && bc.disk.history == history
          else
            && |blocks| < area.size && Spare(buf) && Spare(bc.buf[..])
            && bc.disk.image == Logged(area, image, blocks, pending, tail)
            && bc.disk.history == history + LogTrace(area, image, blocks, pending, tail))
    }

    /** write_log; false is the panic "no buffers", which happens before any write and
        exactly if there is no buffer to recycle. */
    method WriteLog() returns (ok: bool)
      requires Wf() && Apart(bc.buf[..], area, Blocks()) && PendingIs(bc.Pending(), Blocks())
      requires n < area.size || !Spare(bc.buf[..])
      modifies bc, bc.buf, bc.disk, bc.lru, bc.lru.next, bc.lru.prev
      ensures ok <==> n == 0 || Spare(old(bc.buf[..]))
      ensures Wf() && SameHeld(old(bc.buf[..]), bc.buf[..]) && bc.Pending() == old(bc.Pending())
      ensures ok ==>
        && n < area.size && (n > 0 ==> Spare(bc.buf[..]))
        && bc.disk.image == Logged(area, old(bc.disk.image), Blocks(), bc.Pending(), n)
        && bc.disk.history == old(bc.disk.history) + LogTrace(area, old(bc.disk.image), Blocks(), bc.Pending(), n)
      ensures !ok ==> bc.disk.image == old(bc.disk.image) && bc.disk.history == old(bc.disk.history)
    {
      hide BufferCache.Valid, BufferCache.Pending, Apart, SameHeld, Spare, Listed, PendingIs, Logged, LogTrace;
      ghost var image, history, blocks, pending := bc.disk.image, bc.disk.history, Blocks(), bc.Pending();
      ghost var buf := bc.buf[..];
      PendingAll(pending, blocks);
      SameHeldSelf(buf);
      assert Logging(image, history, blocks, pending, buf, 0);
      hide Logging;
      var tail := 0;
      while tail < n
        invariant 0 <= tail <= n && Logging(image, history, blocks, pending, buf, tail)
      {
        ok := LogRound(tail, image, history, blocks, pending, buf);
        if !ok {
          return;
        }
        tail := tail + 1;
      }
      LoggingEnds(image, history, blocks, pending, buf, n);
      ok := true;
    }

    /** One round of write_log, seen from the log. */
    method LogRound(tail: nat, ghost image: seq<Block>, ghost history: seq<seq<Block>>, ghost blocks: seq<nat>,
                    ghost pending: map<nat, Block>, ghost buf: seq<Buf>) returns (ok: bool)
      requires Logging(image, history, blocks, pending, buf, tail) && tail < |blocks| && block as object !in bc.Repr()
      requires tail < block.Length && block[tail] == blocks[tail] && PendingIs(pending, blocks)
      requires Apart(buf, area, blocks) && (|blocks| < area.size || !Spare(buf))
      modifies bc, bc.buf, bc.disk, bc.lru, bc.lru.next, bc.lru.prev
      ensures ok <==> Spare(buf)
      ensures if ok then Logging(image, history, blocks, pending, buf, tail + 1)
        else Logging(image, history, blocks, pending, buf, 0)
    {
      hide BufferCache.Valid, BufferCache.Pending, Apart, SameHeld, Spare, Listed, PendingIs, Logged, LogTrace, Unheld;
      LogBegins(image, history, blocks, pending, buf, tail);
      ghost var buf1 := bc.buf[..];
      hide InArea;
      ok := WriteLogBlock(tail);
      SameHeldTrans(buf, buf1, bc.buf[..]);
      if ok {
        LogStep(area, image, blocks, pending, tail);
        LogStep(area, image, blocks, pending, tail + 1);
      }
    }

    lemma LogBegins(image: seq<Block>, history: seq<seq<Block>>, blocks: seq<nat>, pending: map<nat, Block>,
                    buf: seq<Buf>, tail: nat)
      requires Logging(image, history, blocks, pending, buf, tail) && tail < |blocks| && PendingIs(pending, blocks)
      requires Apart(buf, area, blocks)
      ensures area.start + tail + 1 < |bc.disk.image| && blocks[tail] < |bc.disk.image|
      ensures Unheld(bc.buf[..], area.start + tail + 1) && Unheld(bc.buf[..], blocks[tail])
      ensures blocks[tail] in bc.Pending() && area.start + tail + 1 !in bc.Pending()
    {
      hide BufferCache.Valid, BufferCache.Pending, SameHeld, Spare, Logged, LogTrace, Unheld;
      ApartKept(buf, bc.buf[..], area, blocks);
      assert InArea(area, area.start + tail + 1) && blocks[tail] in blocks;
    }

    lemma LoggingEnds(image: seq<Block>, history: seq<seq<Block>>, blocks: seq<nat>, pending: map<nat, Block>,
                      buf: seq<Buf>, tail: nat)
      requires Logging(image, history, blocks, pending, buf, tail)
      ensures Listed(area, blocks, |image|) && |bc.disk.image| == |image|
      ensures bc.Valid() && bc.Pending() == pending && SameHeld(buf, bc.buf[..])
      ensures tail == 0 ==> bc.buf[..] == buf && bc.disk.image == image && bc.disk.history == history
      ensures tail > 0 ==> Spare(buf) && Spare(bc.buf[..])
      ensures (tail > 0 || blocks == []) && (forall b :: b in blocks ==> b in pending) ==>
        && |blocks| < area.size && tail <= |blocks|
        && bc.disk.image == Logged(area, image, blocks, pending, tail)
        && bc.disk.history == history + LogTrace(area, image, blocks, pending, tail)
    {
      hide BufferCache.Valid, BufferCache.Pending, SameHeld, Spare;
    }

    /** The loop invariant of install_trans: `tail` blocks are installed. `image`, `history`,
        `blocks` and `buf` are from before the loop. */
    ghost predicate Installing(image: seq<Block>, history: seq<seq<Block>>, blocks: seq<nat>, buf: seq<Buf>, tail: nat)
      reads bc, bc.disk, bc.buf, bc.lru, bc.lru.next, bc.lru.prev
    {
      && WfBlocks(area, blocks, |image|) && tail <= |blocks|
      && bc.Valid() && SameHeld(buf, bc.buf[..]) && Spare(bc.buf[..])
      && (bc.Pending() == map[] ==> TwoSpare(bc.buf[..]))
      && PendingRest(bc.Pending(), blocks, tail)
      && bc.disk.image == Installed(area, image, blocks, tail)
      && bc.disk.history == history + InstallTrace(area, image, blocks, tail)
    }

    /** One round of install_trans, seen from the log. */
    method InstallRound(tail: nat, ghost image: seq<Block>, ghost history: seq<seq<Block>>, ghost blocks: seq<nat>,
                        ghost buf: seq<Buf>)
      requires Installing(image, history, blocks, buf, tail) && tail < |blocks| && block as object !in bc.Repr()
      requires tail < block.Length && block[tail] == blocks[tail] && Apart(buf, area, blocks)
      modifies bc, bc.buf, bc.disk, bc.lru, bc.lru.next, bc.lru.prev
      ensures Installing(image, history, blocks, buf, tail + 1)
    {
      hide BufferCache.Valid, BufferCache.Pending, WfBlocks, PendingRest, Installed, InstallTrace;
      hide SameHeld, Spare, TwoSpare, Unheld, Apart;
      InstallBegins(image, history, blocks, buf, tail);
      ghost var buf1 := bc.buf[..];
      InstallBlock(tail);
      SameHeldTrans(buf, buf1, bc.buf[..]);
    }

    /** What one round finds, and what it has to leave. */
    lemma InstallBegins(image: seq<Block>, history: seq<seq<Block>>, blocks: seq<nat>, buf: seq<Buf>, tail: nat)
      requires Installing(image, history, blocks, buf, tail) && tail < |blocks| && Apart(buf, area, blocks)
      ensures area.start + tail + 1 < |bc.disk.image| && blocks[tail] < |bc.disk.image|
      ensures area.start + tail + 1 != blocks[tail] && area.start + tail + 1 !in bc.Pending()
      ensures blocks[tail] in bc.Pending() || bc.Pending() == map[]
      ensures Unheld(bc.buf[..], area.start + tail + 1) && Unheld(bc.buf[..], blocks[tail])
      ensures PendingRest(bc.Pending() - {blocks[tail]}, blocks, tail + 1)
      ensures var image' := bc.disk.image[blocks[tail] := bc.disk.image[area.start + tail + 1]];
        && image' == Installed(area, image, blocks, tail + 1)
        && bc.disk.history + [image'] == history + InstallTrace(area, image, blocks, tail + 1)
    {
      hide BufferCache.Valid, BufferCache.Pending, WfBlocks, PendingRest, Installed, InstallTrace, InArea;
      hide SameHeld, Spare, TwoSpare, Unheld;
      WfAt(area, blocks, |image|, tail);
      LogBlockKept(area, image, blocks, tail);
      InstallStep(area, image, blocks, tail + 1);
      PendingShrinks(bc.Pending(), area, blocks, |image|, tail);
      ApartKept(buf, bc.buf[..], area, blocks);
      assert blocks[tail] in blocks;
    }

    /** install_trans, for a commit, whose blocks are pending, or for a recovery, where
        nothing is. */
    method InstallTrans()
      requires Ready() && PendingRest(bc.Pending(), Blocks(), 0)
      modifies bc, bc.buf, bc.disk, bc.lru, bc.lru.next, bc.lru.prev
      ensures Ready() && bc.Pending() == map[] && SameHeld(old(bc.buf[..]), bc.buf[..])
      ensures bc.disk.image == Installed(area, old(bc.disk.image), Blocks(), n)
      ensures bc.disk.history == old(bc.disk.history) + InstallTrace(area, old(bc.disk.image), Blocks(), n)
    {
      hide BufferCache.Valid, BufferCache.Pending, Listed, PendingRest, Installed, InstallTrace;
      hide SameHeld, Spare, TwoSpare, Apart;
      ghost var image, history, blocks, buf := bc.disk.image, bc.disk.history, Blocks(), bc.buf[..];
      InstallStep(area, image, blocks, 0);
      SameHeldSelf(buf);
      assert Installing(image, history, blocks, buf, 0);
      hide Installing;
      var tail := 0;
      while tail < n
        invariant 0 <= tail <= n && Installing(image, history, blocks, buf, tail)
      {
        InstallRound(tail, image, history, blocks, buf);
        tail := tail + 1;
      }
      InstallEnds(image, history, blocks, buf);
      ApartKept(buf, bc.buf[..], area, blocks);
    }

    lemma InstallEnds(image: seq<Block>, history: seq<seq<Block>>, blocks: seq<nat>, buf: seq<Buf>)
      requires Installing(image, history, blocks, buf, |blocks|)
      ensures bc.Valid() && bc.Pending() == map[] && SameHeld(buf, bc.buf[..])
      ensures Spare(bc.buf[..]) && TwoSpare(bc.buf[..])
      ensures bc.disk.image == Installed(area, image, blocks, |blocks|)
      ensures bc.disk.history == history + InstallTrace(area, image, blocks, |blocks|)
      ensures area.start < |bc.disk.image| && bc.disk.image[area.start] == image[area.start]
    {
      hide BufferCache.Valid, BufferCache.Pending, WfBlocks, PendingRest, Installed, InstallTrace;
      hide SameHeld, Spare, TwoSpare;
      NothingLeft(bc.Pending(), blocks);
      StartKept(area, image, blocks);
    }

    /** The bread of the header block. */
    method HoldHead(ghost blocks: seq<nat>) returns (b: nat)
      requires bc.Valid() && Apart(bc.buf[..], area, blocks) && Spare(bc.buf[..])
      requires 0 < area.size && area.start < |bc.disk.image| && area.start !in bc.Pending()
      modifies bc, bc.buf, bc.disk
      ensures bc.Valid() && HeldOne(old(bc.buf[..]), bc.buf[..], b) && b < bc.buf.Length
      ensures bc.buf[b].locked && bc.buf[b].valid && !bc.buf[b].dirty
      ensures bc.buf[b].blockno == area.start && bc.buf[b].data == bc.disk.image[area.start]
      ensures bc.Pending() == old(bc.Pending())
      ensures bc.disk.image == old(bc.disk.image) && bc.disk.history == old(bc.disk.history)
    {
      hide BufferCache.Valid, BufferCache.Pending, Spare, Apart, Unheld;
      StartUnheld(bc.buf[..], area, blocks);
      FirstRead(bc, area.start);
      var r := bc.Bread(area.start);
      b := r.b;
    }

    /** Writes the in-memory header to disk, over the words of the block it covers. */
    method WriteHead()
      requires Ready() && area.start !in bc.Pending()
      modifies bc, bc.buf, bc.disk, bc.lru, bc.lru.next, bc.lru.prev
      ensures Ready() && bc.Pending() == old(bc.Pending()) && SameHeld(old(bc.buf[..]), bc.buf[..])
      ensures bc.disk.image == old(bc.disk.image)[area.start := SetHeader(old(bc.disk.image)[area.start], Blocks())]
      ensures bc.disk.history == old(bc.disk.history) + [bc.disk.image]
    {
      hide BufferCache.Valid, BufferCache.Pending, Listed, SetHeader, Spare, TwoSpare, Apart, SameHeld;
      hide HeldOne, Reusable, EmptyHeader;
      ListedStart(area, Blocks(), |bc.disk.image|);
      ghost var buf0 := bc.buf[..];
      var b := HoldHead(Blocks());
      var hb := EncodeHeader(bc.buf[b].data.words);
      PutBlock(b, hb, buf0);
      ApartKept(buf0, bc.buf[..], area, Blocks());
    }

    /** The change to a buffer, bwrite and brelse. */
    method PutBlock(b: nat, data: Block, ghost buf0: seq<Buf>)
      requires bc.Valid() && b < bc.buf.Length && bc.buf[b].locked && bc.buf[b].valid && !bc.buf[b].dirty
      requires HeldOne(buf0, bc.buf[..], b)
      requires bc.buf[b].blockno !in bc.Pending() && bc.buf[b].blockno < |bc.disk.image|
      modifies bc.buf, bc.disk, bc.lru, bc.lru.next, bc.lru.prev
      ensures bc.Valid() && bc.Pending() == old(bc.Pending())
      ensures SameHeld(buf0, bc.buf[..]) && Reusable(bc.buf[..][b])
      ensures Spare(bc.buf[..]) && (TwoSpare(buf0) ==> TwoSpare(bc.buf[..]))
      ensures bc.disk.image == old(bc.disk.image)[old(bc.buf[b]).blockno := data]
      ensures bc.disk.history == old(bc.disk.history) + [bc.disk.image]
    {
      hide BufferCache.Valid, BufferCache.Pending, Spare, TwoSpare;
      bc.SetData(b, data);
      WithoutAbsent(bc.Pending(), bc.buf[b].blockno);
      bc.Bwrite(b);
      bc.Brelse(b);
      SparesKept(buf0, bc.buf[..], b);
    }

    method EncodeHeader(h: seq<nat>) returns (r: Block)
      requires n <= block.Length && n < WORDS == |h|
      ensures r == SetHeader(Block(h), Blocks()) && |r.words| == WORDS && r.words[0] == n
      ensures forall i :: 0 <= i < n ==> r.words[1 + i] == block[i]
      ensures forall i :: n < i < WORDS ==> r.words[i] == h[i]
    {
      var hb := h[0 := n];
      var i := 0;
      while i < n
        invariant 0 <= i <= n
        invariant hb == [n] + block[..i] + h[1 + i..]
      {
        hb := hb[1 + i := block[i]];
        i := i + 1;
      }
      return Block(hb);
    }

    /** Reads the header from disk into memory. */
    method ReadHead()
      requires Ready() && bc.Pending() == map[] && WfDisk(area, bc.disk.image)
      requires Apart(bc.buf[..], area, HeaderBlocks(bc.disk.image[area.start]))
      modifies this`n, block, bc, bc.buf, bc.disk, bc.lru, bc.lru.next, bc.lru.prev
      ensures Ready() && bc.Pending() == map[]
      ensures HeaderOk(bc.disk.image[area.start]) && Blocks() == HeaderBlocks(bc.disk.image[area.start])
      ensures bc.disk.image == old(bc.disk.image) && bc.disk.history == old(bc.disk.history)
    {
      hide BufferCache.Valid, BufferCache.Pending, Spare, TwoSpare, Apart, Unheld, SameHeld;
      ghost var buf0, image := bc.buf[..], bc.disk.image;
      var b := HoldHead(Blocks());
      DecodeHeader(bc.buf[b].data.words);
      bc.Brelse(b);
      OneReleased(buf0, bc.buf[..], b);
      ApartKept(buf0, bc.buf[..], area, HeaderBlocks(image[area.start]));
      SparesKept(buf0, bc.buf[..], b);
    }

    method DecodeHeader(h: seq<nat>)
      requires |h| == WORDS && h[0] <= block.Length < WORDS
      modifies this`n, block
      ensures n == h[0] && Blocks() == HeaderBlocks(Block(h)) && forall i :: 0 <= i < n ==> block[i] == h[1 + i]
    {
      n := h[0];
      var i := 0;
      while i < n
        invariant 0 <= i <= n == h[0]
        invariant block[..i] == h[1..1 + i]
      {
        block[i] := h[1 + i];
        i := i + 1;
      }
    }

    /** recover_from_log: the disk goes through RecoveryTrace, block write by block write. */
    method RecoverFromLog()
      requires Ready() && bc.Pending() == map[] && WfDisk(area, bc.disk.image)
      requires Apart(bc.buf[..], area, HeaderBlocks(bc.disk.image[area.start]))
      modifies this`n, block, bc, bc.buf, bc.disk, bc.lru, bc.lru.next, bc.lru.prev
      ensures Ready() && n == 0 && bc.Pending() == map[]
      ensures bc.disk.image == Recovered(area, old(bc.disk.image)) && EmptyHeader(area, bc.disk.image)
      ensures bc.disk.history == old(bc.disk.history) + RecoveryTrace(area, old(bc.disk.image))
    {
      hide BufferCache.Valid, BufferCache.Pending, Spare, TwoSpare, Unheld, SameHeld, Apart;
      ReadHead();
      ghost var image, blocks := bc.disk.image, Blocks();
      InstallTrans();
      InstalledElsewhere(area, image, blocks, n, area.start);
      n := 0;
      ApartNone(bc.buf[..], area, blocks);
      WriteHead();
    }

    /** The rest of commit: write_head, install_trans, and write_head with an empty list. */
    method Apply()
      requires Ready() && PendingRest(bc.Pending(), Blocks(), 0) && area.start !in bc.Pending()
      modifies this`n, bc, bc.buf, bc.disk, bc.lru, bc.lru.next, bc.lru.prev
      ensures Ready() && n == 0 && bc.Pending() == map[] && SameHeld(old(bc.buf[..]), bc.buf[..])
      ensures var blocks, image := old(Blocks()), old(bc.disk.image);
        var committed := image[area.start := SetHeader(image[area.start], blocks)];
        var installed := Installed(area, committed, blocks, |blocks|);
        && |installed[area.start].words| == WORDS
        && bc.disk.image == installed[area.start := SetHeader(installed[area.start], [])]
        && bc.disk.history
           == old(bc.disk.history) + [committed] + InstallTrace(area, committed, blocks, |blocks|) + [bc.disk.image]
    {
      hide BufferCache.Valid, BufferCache.Pending, Listed, PendingRest, Installed, InstallTrace, SetHeader;
      hide Spare, TwoSpare, SameHeld, Apart;
      ghost var buf, blocks := bc.buf[..], Blocks();
      WriteHead();
      ghost var buf1 := bc.buf[..];
      InstallTrans();
      ghost var buf2 := bc.buf[..];
      n := 0;
      assert Blocks() == [];
      ApartNone(buf2, area, blocks);
      ListedNone(area, blocks, |bc.disk.image|);
      WriteHead();
      SameHeldTrans(buf, buf1, buf2);
      SameHeldTrans(buf, buf2, bc.buf[..]);
    }

    /** commit: the disk goes through CommitTrace, block write by block write, and afterwards
        nothing is pending and the log is empty again. False is the panic "no buffers" of its
        first read, before any write; no later read panics. */
    method Commit() returns (ok: bool)
      requires Valid() && Apart(bc.buf[..], area, Blocks())
      requires n < area.size || !Spare(bc.buf[..])
      modifies this`n, bc, bc.buf, bc.disk, bc.lru, bc.lru.next, bc.lru.prev
      ensures ok <==> old(n) == 0 || Spare(old(bc.buf[..]))
      ensures Valid() && SameHeld(old(bc.buf[..]), bc.buf[..])
      ensures !ok ==> n == old(n) && bc.Pending() == old(bc.Pending()) && bc.disk.history == old(bc.disk.history)
      ensures ok ==> n == 0 && bc.Pending() == map[]
      ensures forall b :: b in old(Blocks()) ==> b in old(bc.Pending())
      ensures ok ==> WfBlocks(area, old(Blocks()), |old(bc.disk.image)|)
      ensures ok ==>
        && SameHome(area, bc.disk.image, Applied(old(bc.disk.image), old(Blocks()), old(bc.Pending())))
        && bc.disk.history == old(bc.disk.history)
           + if old(n) == 0 then [] else CommitTrace(area, old(bc.disk.image), old(Blocks()), old(bc.Pending()))
    {
      hide BufferCache.Valid, BufferCache.Pending, Listed, PendingIs, PendingRest, Installed, InstallTrace,
        Logged, LogTrace, Committed, CommitTrace, Recovered, SameHome, HeaderBlocks, Applied, SetHeader;
      hide Spare, TwoSpare, Unheld, SameHeld, Apart;
      ghost var image, blocks, pending, buf := bc.disk.image, Blocks(), bc.Pending(), bc.buf[..];
      PendingAll(pending, blocks);
      SameHeldSelf(buf);
      if n > 0 {
        ok := WriteLog();
        if !ok {
          return;
        }
        ghost var buf1 := bc.buf[..];
        CommitReady(area, image, blocks, pending);
        CommitShape(area, image, blocks, pending);
        CommitMeans(area, image, blocks, pending);
        ApartKept(buf, buf1, area, blocks);
        Apply();
        SameHeldTrans(buf, buf1, bc.buf[..]);
      } else {
        NothingPending(pending, blocks);
        ListedStart(area, blocks, |image|);
        CommitMeans(area, image, blocks, pending);
      }
      ok := true;
    }

    /** log_write; false is one of its two panics. A block already logged is absorbed,
        but the test for room is made before that is known. */
    method LogWrite(b: nat) returns (ok: bool)
      requires Valid() && b < bc.buf.Length && bc.buf[b].locked && bc.buf[b].valid
      requires !InArea(area, bc.buf[b].blockno)
      modifies this`n, block, bc.buf
      ensures ok <==> old(n) < LOGSIZE && old(n) < area.size - 1 && outstanding >= 1
      ensures !ok ==> n == old(n) && block[..] == old(block[..]) && bc.buf[..] == old(bc.buf[..])
      ensures ok ==> Valid() && n < area.size
      ensures ok ==> bc.buf[..] == old(bc.buf[..])[b := old(bc.buf[b]).(dirty := true)]
      ensures ok ==> bc.Pending() == old(bc.Pending())[bc.buf[b].blockno := bc.buf[b].data]
      ensures ok ==> Blocks() == Absorb(old(Blocks()), bc.buf[b].blockno)
    {
      hide BufferCache.Pending, BufferCache.Valid, Listed, PendingIs;
      if n >= LOGSIZE || n >= area.size - 1 {
        return false;
      }
      if outstanding < 1 {
        return false;
      }
      Append(b);
      return true;
    }

    /** The rest of log_write, under the lock. Other processes may have logged blocks since the
        tests, so the list may outgrow the log area. */
    method Append(b: nat)
      requires Valid() && b < bc.buf.Length && bc.buf[b].locked && bc.buf[b].valid
      requires !InArea(area, bc.buf[b].blockno) && n < LOGSIZE && 2 <= area.size
      modifies this`n, block, bc.buf
      ensures Valid()
      ensures bc.buf[..] == old(bc.buf[..])[b := old(bc.buf[b]).(dirty := true)]
      ensures bc.Pending() == old(bc.Pending())[bc.buf[b].blockno := bc.buf[b].data]
      ensures Blocks() == Absorb(old(Blocks()), bc.buf[b].blockno)
    {
      hide BufferCache.Pending, BufferCache.Valid, Listed, PendingIs, Absorb;
      PinnedHome(bc, b);
      AbsorbOk(area, Blocks(), |bc.disk.image|, bc.buf[b].blockno, bc.Pending(), bc.buf[b].data);
      Record(bc.buf[b].blockno);
      bc.Pin(b);
    }

    /** The loop of log_write. */
    method Record(b: nat)
      requires n < block.Length
      modifies this`n, block
      ensures n <= block.Length && Blocks() == Absorb(old(Blocks()), b)
      ensures if b in old(Blocks()) then Blocks() == old(Blocks()) else Blocks() == old(Blocks()) + [b]
    {
      ghost var blocks := Blocks();
      var i := 0;
      while i < n && block[i] != b
        invariant 0 <= i <= n
        invariant forall j :: 0 <= j < i ==> block[j] != b
      {
        i := i + 1;
      }
      block[i] := b;
      if i == n {
        n := n + 1;
      }
      assert Blocks() == if i < |blocks| then blocks else blocks + [b];
    }

    /** One pass of the loop in begin_op; false means the caller sleeps and tries again. An
        operation is admitted if no commit runs and the log will hold whatever all open
        operations and this one may log. */
    method TryBeginOp() returns (admitted: bool)
      requires n <= block.Length
      modifies this`outstanding
      ensures admitted <==> !committing && RoomFor(Blocks(), old(outstanding) + 1)
      ensures admitted ==> outstanding == old(outstanding) + 1 && RoomFor(Blocks(), outstanding)
      ensures !admitted ==> outstanding == old(outstanding)
    {
      RoomForIff(Blocks(), outstanding + 1);
      if committing {
        return false;
      } else if n + (outstanding + 1) * MAXOPBLOCKS > LOGSIZE {
        return false;
      }
      outstanding := outstanding + 1;
      return true;
    }

    /** end_op. The last operation commits. */
    method EndOp() returns (r: Ending)
      requires Valid() && outstanding >= 1
      requires outstanding == 1 && !committing ==>
        Apart(bc.buf[..], area, Blocks()) && (n < area.size || !Spare(bc.buf[..]))
      modifies this`n, this`outstanding, this`committing
      modifies bc, bc.buf, bc.disk, bc.lru, bc.lru.next, bc.lru.prev
      ensures r.Committing? <==> old(committing)
      ensures r.OutOfBuffers? <==>
        !old(committing) && old(outstanding) == 1 && old(n) >= 1 && !Spare(old(bc.buf[..]))
      ensures Valid() && outstanding == old(outstanding) - 1 && committing == !r.Ended?
      ensures !r.Ended? || outstanding > 0 ==>
        n == old(n) && bc.Pending() == old(bc.Pending()) && bc.disk.history == old(bc.disk.history)
      ensures forall b :: b in old(Blocks()) ==> b in old(bc.Pending())
      ensures r.Ended? && outstanding == 0 ==>
        && n == 0 && WfBlocks(area, old(Blocks()), |old(bc.disk.image)|)
        && SameHome(area, bc.disk.image, Applied(old(bc.disk.image), old(Blocks()), old(bc.Pending())))
        && bc.disk.history == old(bc.disk.history)
           + if old(n) == 0 then [] else CommitTrace(area, old(bc.disk.image), old(Blocks()), old(bc.Pending()))
    {
      hide BufferCache.Valid, BufferCache.Pending, Listed, PendingIs, CommitTrace, SameHome, Applied;
      hide EmptyHeader, Spare, Apart, SameHeld;
      PendingAll(bc.Pending(), Blocks());
      outstanding := outstanding - 1;
      if committing {
        return Committing;
      }
      if outstanding == 0 {
        committing := true;
        var ok := Commit();
        if !ok {
          return OutOfBuffers;
        }
        committing := false;
      }
      return Ended;
    }
  }

  /** With no more buffers than the log area has blocks, a list that outgrew the area leaves no
      buffer to recycle: commit panics before it writes. So whatever the interleaving of
      log_writes, a transaction that gets as far as a write of the disk fits the area. */
  lemma {:induction false} FitsOrPanics(log: Log)
    requires log.Valid() && log.bc.buf.Length <= log.area.size
    ensures log.n < log.area.size || !Spare(log.bc.buf[..])
  {
    SpareIff(log.bc);
    PendingCount(log.area, log.bc.Pending(), log.Blocks(), |log.bc.disk.image|);
  }

  /** If nobody holds a buffer, commit runs out of buffers exactly if there are no more of them
      than blocks to commit. */
  lemma {:induction false} StarvesIff(log: Log)
    requires log.Valid() && Quiet(log.bc.buf[..])
    ensures Spare(log.bc.buf[..]) <==> log.n < log.bc.buf.Length
    ensures Apart(log.bc.buf[..], log.area, log.Blocks())
  {
    SpareIff(log.bc);
    PendingCount(log.area, log.bc.Pending(), log.Blocks(), |log.bc.disk.image|);
  }

  lemma SameHeldSelf(buf: seq<Buf>)
    ensures SameHeld(buf, buf)
  {
  }

  lemma ApartNone(buf: seq<Buf>, a: Area, blocks: seq<nat>)
    requires Apart(buf, a, blocks)
    ensures Apart(buf, a, [])
  {
  }

  lemma ListedNone(a: Area, blocks: seq<nat>, diskSize: nat)
    requires Listed(a, blocks, diskSize)
    ensures Listed(a, [], diskSize)
  {
  }

  lemma ListedStart(a: Area, blocks: seq<nat>, diskSize: nat)
    requires Listed(a, blocks, diskSize)
    ensures 0 < a.size && a.start < diskSize
  {
  }

  lemma StartUnheld(buf: seq<Buf>, a: Area, blocks: seq<nat>)
    requires Apart(buf, a, blocks) && 0 < a.size
    ensures Unheld(buf, a.start)
  {
    assert InArea(a, a.start);
  }

  /** The first read holds a buffer nobody held, so the second block is still not held. */
  lemma StillUnheld(buf: seq<Buf>, buf': seq<Buf>, i: nat, first: nat, second: nat)
    requires Unheld(buf, second) && first != second && |buf'| == |buf| && i < |buf|
    requires buf' == buf[i := buf'[i]] && buf'[i].blockno == first
    ensures Unheld(buf', second)
  {
    forall k | 0 <= k < |buf'| && Holds(buf'[k], second)
      ensures buf'[k].refcnt == 0
    {
      assert k != i && buf'[k] == buf[k];
    }
  }

  lemma SwapPair(buf0: seq<Buf>, buf: seq<Buf>, i: nat, j: nat)
    requires HeldPair(buf0, buf, i, j)
    ensures HeldPair(buf0, buf, j, i)
  {
  }

  lemma BothSpare(buf: seq<Buf>, i: nat, j: nat)
    requires i < |buf| && j < |buf| && i != j && Reusable(buf[i]) && Reusable(buf[j])
    ensures Spare(buf) && TwoSpare(buf)
  {
  }

  /** A buffer that was used and released cleanly leaves as many to recycle. */
  lemma SparesKept(buf: seq<Buf>, buf': seq<Buf>, b: nat)
    requires |buf'| == |buf| && b < |buf| && Reusable(buf'[b])
    requires forall k :: 0 <= k < |buf| && k != b ==> buf'[k] == buf[k]
    ensures Spare(buf') && (TwoSpare(buf) ==> TwoSpare(buf'))
  {
    if TwoSpare(buf) {
      OtherSpare(buf, buf', b);
      var k :| 0 <= k < |buf'| && k != b && Reusable(buf'[k]);
      BothSpare(buf', k, b);
    }
  }

  lemma OneReleased(buf: seq<Buf>, buf': seq<Buf>, b: nat)
    requires |buf'| == |buf| && b < |buf| && buf[b].refcnt == 0 && Reusable(buf'[b])
    requires forall k :: 0 <= k < |buf| && k != b ==> buf'[k] == buf[k]
    ensures SameHeld(buf, buf')
  {
    forall k | 0 <= k < |buf|
      ensures HeldAsBefore(buf[k], buf'[k])
    {
      assert k != b ==> buf'[k] == buf[k];
    }
  }

  /** As many blocks are pending as are listed. */
  lemma {:induction false} PendingCount(a: Area, pending: map<nat, Block>, blocks: seq<nat>, diskSize: nat)
    requires Listed(a, blocks, diskSize) && PendingIs(pending, blocks)
    ensures |pending| == |blocks|
  {
    ElementCount(pending.Keys, blocks);
    assert |pending.Keys| == |pending|;
  }

  lemma PinnedHome(bc: BufferCache, b: nat)
    requires bc.Valid() && b < bc.buf.Length && bc.buf[b].locked
    ensures bc.buf[b].blockno < |bc.disk.image|
  {
  }

  lemma NothingPending(pending: map<nat, Block>, blocks: seq<nat>)
    requires PendingIs(pending, blocks) && blocks == []
    ensures pending == map[]
  {
  }

  /** The disk images at the phases of a commit, as the calls of commit produce them. */
  lemma CommitShape(a: Area, image: seq<Block>, blocks: seq<nat>, pending: map<nat, Block>)
    requires WfBlocks(a, blocks, |image|) && EmptyHeader(a, image) && PendingIs(pending, blocks)
    requires forall b :: b in blocks ==> b in pending
    ensures a.start < |image|
    ensures var logged := Logged(a, image, blocks, pending, |blocks|);
      var committed := Committed(a, image, blocks, pending);
      var installed := Installed(a, committed, blocks, |blocks|);
      && logged[a.start] == image[a.start] && committed == logged[a.start := SetHeader(logged[a.start], blocks)]
      && |installed| == |image| && |installed[a.start].words| == WORDS
      && Recovered(a, committed) == installed[a.start := SetHeader(installed[a.start], [])]
      && CommitTrace(a, image, blocks, pending)
         == LogTrace(a, image, blocks, pending, |blocks|) + [committed] + InstallTrace(a, committed, blocks, |blocks|)
            + [Recovered(a, committed)]
  {
    hide LogTrace, InstallTrace;
    var committed := Committed(a, image, blocks, pending);
    LoggedAt(a, image, blocks, pending, |blocks|, a.start);
    InstalledElsewhere(a, committed, blocks, |blocks|, a.start);
  }

  lemma CommitReady(a: Area, image: seq<Block>, blocks: seq<nat>, pending: map<nat, Block>)
    requires WfBlocks(a, blocks, |image|) && EmptyHeader(a, image) && PendingIs(pending, blocks)
    ensures |image[a.start].words| == WORDS && 0 < a.size
    ensures a.start !in pending && |pending| == |blocks| && PendingRest(pending, blocks, 0)
    ensures PendingIs(map[], []) && WfBlocks(a, [], |image|)
  {
    PendingCount(a, pending, blocks, |image|);
    assert blocks[0..] == blocks;
  }

  lemma AbsorbOk(a: Area, blocks: seq<nat>, diskSize: nat, b: nat, pending: map<nat, Block>, data: Block)
    requires Listed(a, blocks, diskSize) && PendingIs(pending, blocks)
    requires |blocks| < LOGSIZE && 2 <= a.size && b < diskSize && !InArea(a, b)
    ensures Listed(a, Absorb(blocks, b), diskSize)
    ensures PendingIs(pending[b := data], Absorb(blocks, b))
  {
    assert b !in blocks ==> forall i :: 0 <= i < |blocks| ==> blocks[i] != b;
  }

  lemma WithoutAbsent(m: map<nat, Block>, k: nat)
    requires k !in m
    ensures m - {k} == m
  {
  }

  /** The pending blocks are exactly those listed. */
  ghost predicate PendingIs(pending: map<nat, Block>, blocks: seq<nat>) {
    && (forall i :: 0 <= i < |blocks| ==> blocks[i] in pending)
    && (forall k :: k in pending ==> k in blocks)
  }

  /** What is pending during install_trans: in a commit the blocks from `tail` on, in a recovery nothing. */
  ghost predicate PendingRest(pending: map<nat, Block>, blocks: seq<nat>, tail: nat) {
    tail <= |blocks| && (PendingIs(pending, blocks[tail..]) || pending == map[])
  }

  lemma NothingLeft(pending: map<nat, Block>, blocks: seq<nat>)
    requires PendingRest(pending, blocks, |blocks|)
    ensures pending == map[]
  {
  }

  lemma WfAt(a: Area, blocks: seq<nat>, diskSize: nat, tail: nat)
    requires WfBlocks(a, blocks, diskSize) && tail < |blocks|
    ensures blocks[tail] < diskSize && !InArea(a, blocks[tail])
    ensures a.start + tail + 1 < diskSize && InArea(a, a.start + tail + 1)
    ensures blocks[tail] != a.start && blocks[tail] != a.start + tail + 1
  {
  }

  /** Installing never overwrites a log block. */
  lemma LogBlockKept(a: Area, image: seq<Block>, blocks: seq<nat>, tail: nat)
    requires WfBlocks(a, blocks, |image|) && tail < |blocks|
    ensures Installed(a, image, blocks, tail)[a.start + tail + 1] == image[a.start + tail + 1]
  {
    InstalledElsewhere(a, image, blocks, tail, a.start + tail + 1);
  }

  lemma StartKept(a: Area, image: seq<Block>, blocks: seq<nat>)
    requires WfBlocks(a, blocks, |image|)
    ensures a.start < |image| && Installed(a, image, blocks, |blocks|)[a.start] == image[a.start]
  {
    InstalledElsewhere(a, image, blocks, |blocks|, a.start);
  }

  lemma PendingAll(pending: map<nat, Block>, blocks: seq<nat>)
    requires PendingIs(pending, blocks)
    ensures forall b :: b in blocks ==> b in pending
  {
  }

  lemma PendingShrinks(pending: map<nat, Block>, a: Area, blocks: seq<nat>, diskSize: nat, tail: nat)
    requires WfBlocks(a, blocks, diskSize) && tail < |blocks|
    requires PendingRest(pending, blocks, tail)
    ensures blocks[tail] in pending || pending == map[]
    ensures a.start + tail + 1 !in pending
    ensures PendingRest(pending - {blocks[tail]}, blocks, tail + 1)
  {
    var list, rest := blocks[tail..], pending - {blocks[tail]};
    assert rest.Keys == pending.Keys - {blocks[tail]};
    assert list == [blocks[tail]] + blocks[tail + 1..];
    if pending != map[] {
      assert list[0] in pending;
      var list' := blocks[tail + 1..];
      forall i | 0 <= i < |list'|
        ensures list'[i] in rest
      {
        assert list[i + 1] in pending;
      }
    }
  }

  /** Buffer `b`, which nobody held, is in use once; all others are as they were. */
  ghost predicate HeldOne(buf0: seq<Buf>, buf: seq<Buf>, b: nat) {
    && |buf| == |buf0| && b < |buf| && buf0[b].refcnt == 0 && buf[b].refcnt == 1
    && forall k :: 0 <= k < |buf| && k != b ==> buf[k] == buf0[k]
  }

  /** So are the buffers `i` and `j`. */
  ghost predicate HeldPair(buf0: seq<Buf>, buf: seq<Buf>, i: nat, j: nat) {
    && |buf| == |buf0| && i < |buf| && j < |buf| && i != j
    && (forall k :: 0 <= k < |buf| && k != i && k != j ==> buf[k] == buf0[k])
    && buf0[i].refcnt == 0 && buf0[j].refcnt == 0 && buf[i].refcnt == 1 && buf[j].refcnt == 1
    && buf[i].locked && buf[j].locked && buf[i].valid && buf[j].valid
  }
}
