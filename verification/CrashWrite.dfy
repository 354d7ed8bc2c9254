/** The file system on the log's disk: a crash at any write of the disk during filewrite. */
module CrashWrites {
  import opened Common
  import opened LogSpec
  import opened LogHistory
  import opened FsSpec
  import opened FileSystems
  import opened FileWrites
  import BufferCaches

  /** What a block of the file system holds: data, or the free map's bits or the inodes that
      are in it. */
  datatype Held = Held(data: Block, bits: map<nat, bool>, inodes: map<nat, Dinode>)

  function HeldIn(sb: Super, im: Image, c: nat): Held {
    Held(if c < |im.blocks| then im.blocks[c] else [],
         map b: nat | b < |im.bitmap| && BBlock(sb, b) == c :: im.bitmap[b],
         map i: nat | i < |im.dinodes| && IBlock(sb, i) == c :: im.dinodes[i])
  }

  /** The words of a block, for what it holds; any encoding will do. */
  type Encoding = Held -> BufferCaches.Block

  /** The home blocks of the disk hold the file system's blocks, bitmap and inodes. */
  ghost predicate Represents(sb: Super, a: Area, enc: Encoding, disk: seq<BufferCaches.Block>, im: Image) {
    forall c: nat :: c < |disk| && !InArea(a, c) ==> disk[c] == enc(HeldIn(sb, im, c))
  }

  /** mkfs's order of the disk: log, inodes, bitmap, data. */
  predicate Layout(sb: Super, a: Area, im: Image) {
    && 0 < |im.bitmap| && 0 < |im.dinodes|
    && a.start + a.size <= sb.inodestart && IBlock(sb, |im.dinodes| - 1) < sb.bmapstart
    && BBlock(sb, |im.bitmap| - 1) < sb.datastart <= sb.size && MAXOPBLOCKS < a.size
  }

  lemma HomeBlock(sb: Super, a: Area, im: Image, c: nat)
    requires Layout(sb, a, im) && InLayout(sb, im, c)
    ensures !InArea(a, c) && c < sb.size
  {
    assert BBlock(sb, |im.bitmap| - 1) >= sb.bmapstart && IBlock(sb, |im.dinodes| - 1) >= sb.inodestart;
  }

  /** The transaction that commits what was logged on the way to image `im`, its blocks in any
      order. */
  ghost predicate CommitsImage(sb: Super, enc: Encoding, im: Image, t: Transaction) {
    && Distinct(t.blocks) && (forall b :: b in t.blocks <==> b in im.logged)
    && (forall b :: b in t.blocks ==> b in t.pending && t.pending[b] == enc(HeldIn(sb, im, b)))
  }

  /** A block that is not logged holds the same before and after. */
  lemma {:induction false} Unlogged(sb: Super, im: Image, im': Image, c: nat)
    requires Recorded(sb, im.(logged := {}), im') && c !in im'.logged
    ensures HeldIn(sb, im', c) == HeldIn(sb, im, c)
  {
    var h, h' := HeldIn(sb, im, c), HeldIn(sb, im', c);
    assert h'.data == h.data;
    assert h'.bits == h.bits by {
      forall b: nat | b < |im.bitmap| && BBlock(sb, b) == c
        ensures im'.bitmap[b] == im.bitmap[b]
      {
      }
    }
    assert h'.inodes == h.inodes by {
      forall i: nat | i < |im.dinodes| && IBlock(sb, i) == c
        ensures im'.dinodes[i] == im.dinodes[i]
      {
      }
    }
  }

  /** Committing what was logged takes the disk from one image to the next. */
  lemma {:induction false} CommitRepresents(sb: Super, a: Area, enc: Encoding, disk: seq<BufferCaches.Block>,
                                            im: Image, im': Image, t: Transaction)
    requires Represents(sb, a, enc, disk, im) && Recorded(sb, im.(logged := {}), im') && CommitsImage(sb, enc, im', t)
    ensures Represents(sb, a, enc, Applied(disk, t.blocks, t.pending), im')
  {
    hide HeldIn, Recorded;
    forall c: nat | c < |disk| && !InArea(a, c)
      ensures Applied(disk, t.blocks, t.pending)[c] == enc(HeldIn(sb, im', c))
    {
      if c !in t.blocks {
        Unlogged(sb, im, im', c);
      }
    }
  }

  /** Each transaction commits the next image. */
  ghost predicate CommitsTrail(sb: Super, enc: Encoding, images: seq<Image>, ts: seq<Transaction>) {
    && |images| == |ts| + 1
    && (forall j: nat :: j < |ts| ==> TransactionAt(sb, images, j))
    && (forall j: nat :: j < |ts| ==> CommitsImage(sb, enc, images[j + 1], ts[j]))
  }

  lemma {:induction false} AppliedTrail(sb: Super, a: Area, enc: Encoding, disk: seq<BufferCaches.Block>,
                                        images: seq<Image>, ts: seq<Transaction>, m: nat)
    requires CommitsTrail(sb, enc, images, ts) && Represents(sb, a, enc, disk, images[0]) && m <= |ts|
    ensures forall i, b :: 0 <= i < m && b in ts[..m][i].blocks ==> b in ts[..m][i].pending
    ensures Represents(sb, a, enc, AllApplied(disk, ts[..m]), images[m])
    decreases m
  {
    hide Represents, Recorded;
    assert forall i: nat :: i < m ==> CommitsImage(sb, enc, images[i + 1], ts[i]);
    if m > 0 {
      assert TransactionAt(sb, images, 0) && CommitsImage(sb, enc, images[1], ts[0]);
      CommitRepresents(sb, a, enc, disk, images[0], images[1], ts[0]);
      RestCommits(sb, enc, images, ts);
      AppliedTrail(sb, a, enc, Applied(disk, ts[0].blocks, ts[0].pending), images[1..], ts[1..], m - 1);
      assert ts[..m][1..] == ts[1..][..m - 1] && ts[..m][0] == ts[0];
    }
  }

  lemma {:induction false} RestCommits(sb: Super, enc: Encoding, images: seq<Image>, ts: seq<Transaction>)
    requires CommitsTrail(sb, enc, images, ts) && ts != []
    ensures CommitsTrail(sb, enc, images[1..], ts[1..])
  {
    hide Recorded, CommitsImage;
    forall j: nat | j < |ts| - 1
      ensures TransactionAt(sb, images[1..], j) && CommitsImage(sb, enc, images[1..][j + 1], ts[1..][j])
    {
      assert TransactionAt(sb, images, j + 1) && CommitsImage(sb, enc, images[j + 2], ts[j + 1]);
    }
  }

  lemma {:induction false} LayoutKept(sb: Super, a: Area, enc: Encoding, images: seq<Image>, ts: seq<Transaction>,
                                      j: nat)
    requires CommitsTrail(sb, enc, images, ts) && Layout(sb, a, images[0]) && j < |images|
    ensures Layout(sb, a, images[j])
  {
    if j > 0 {
      LayoutKept(sb, a, enc, images, ts, j - 1);
      assert TransactionAt(sb, images, j - 1);
    }
  }

  /** Every transaction fits the log. */
  lemma {:induction false} TrailFits(sb: Super, a: Area, enc: Encoding, images: seq<Image>, ts: seq<Transaction>)
    requires CommitsTrail(sb, enc, images, ts) && Layout(sb, a, images[0])
    ensures AllFit(a, ts, sb.size)
  {
    forall j: nat | j < |ts|
      ensures Fits(a, ts[j], sb.size)
    {
      LayoutKept(sb, a, enc, images, ts, j);
      assert TransactionAt(sb, images, j);
      TransactionFits(sb, a, enc, images[j], images[j + 1], ts[j]);
    }
  }

  lemma {:induction false} TransactionFits(sb: Super, a: Area, enc: Encoding, im: Image, im': Image, t: Transaction)
    requires Recorded(sb, im.(logged := {}), im') && |im'.logged| <= MAXOPBLOCKS
    requires CommitsImage(sb, enc, im', t) && Layout(sb, a, im)
    ensures Fits(a, t, sb.size)
  {
    hide HeldIn, InLayout;
    ElementCount(im'.logged, t.blocks);
    forall i | 0 <= i < |t.blocks|
      ensures t.blocks[i] < sb.size && !InArea(a, t.blocks[i])
    {
      assert t.blocks[i] in im'.logged;
      assert InLayout(sb, im.(logged := {}), t.blocks[i]);
      HomeBlock(sb, a, im.(logged := {}), t.blocks[i]);
    }
    assert BBlock(sb, |im.bitmap| - 1) >= sb.bmapstart;
  }

  /** A crash at any write of the disk while the transactions commit in turn, then any number of
      crashed recoveries: the one that completes leaves the image between two transactions. */
  lemma {:induction false} CrashDuringTrail(sb: Super, a: Area, enc: Encoding, disk: seq<BufferCaches.Block>,
                                            images: seq<Image>, ts: seq<Transaction>, k: nat, crashes: seq<nat>,
                                            crashed: seq<BufferCaches.Block>)
    requires CommitsTrail(sb, enc, images, ts) && Layout(sb, a, images[0])
    requires |disk| == sb.size && EmptyHeader(a, disk) && Represents(sb, a, enc, disk, images[0])
    requires AllFit(a, ts, |disk|) && k < |History(a, disk, ts)|
    requires CrashRun(a, History(a, disk, ts)[k], crashes, crashed)
    ensures WfDisk(a, crashed)
    ensures Represents(sb, a, enc, Recovered(a, crashed), images[Durable(ts, k)])
  {
    hide WfBlocks, EmptyHeader, Recovered, CommitTrace, Applied, CrashRun, History, Durable, CommitsTrail, HeldIn;
    HistoryAtomic(a, disk, ts, k);
    RepeatedRecovery(a, History(a, disk, ts)[k], crashes, crashed);
    AppliedTrail(sb, a, enc, disk, images, ts, Durable(ts, k));
    SameHomeTrans(a, Recovered(a, crashed), Recovered(a, History(a, disk, ts)[k]),
                  AllApplied(disk, ts[..Durable(ts, k)]));
  }

  /** The transactions of a filewrite, whose contract gives the trail, each committed by its
      end_op: after a crash at any write of the disk the file has a whole number of chunks
      written, and every other file is as it was. */
  lemma {:induction false} CrashDuringFilewrite(sb: Super, a: Area, enc: Encoding, disk: seq<BufferCaches.Block>,
                                                images: seq<Image>, ts: seq<Transaction>, k: nat, crashes: seq<nat>,
                                                crashed: seq<BufferCaches.Block>, w: Opening, inum: nat,
                                                addr: seq<int>, n: nat)
    requires Trail(sb, images, w, inum, addr, n) && |images| == |ts| + 1
    requires forall j: nat :: j < |ts| ==> CommitsImage(sb, enc, images[j + 1], ts[j])
    requires Layout(sb, a, images[0]) && |disk| == sb.size && EmptyHeader(a, disk)
    requires Represents(sb, a, enc, disk, images[0])
    ensures AllFit(a, ts, |disk|)
    ensures k < |History(a, disk, ts)| && CrashRun(a, History(a, disk, ts)[k], crashes, crashed) ==>
      var m := Durable(ts, k);
      && WfDisk(a, crashed) && Represents(sb, a, enc, Recovered(a, crashed), images[m])
      && WrittenIn(images[m], w, inum, addr, ChunkEnd(m, n))
  {
    hide Layout, Represents, EmptyHeader, CommitsImage, Recorded, WrittenIn, WfBlocks, History, CrashRun, Recovered;
    assert CommitsTrail(sb, enc, images, ts);
    TrailFits(sb, a, enc, images, ts);
    if k < |History(a, disk, ts)| && CrashRun(a, History(a, disk, ts)[k], crashes, crashed) {
      CrashDuringTrail(sb, a, enc, disk, images, ts, k, crashes, crashed);
    }
  }

  /** With an encoding that can be undone, the disk determines inodes, bitmap and data blocks. */
  lemma {:induction false} OneImage(sb: Super, a: Area, enc: Encoding, dec: BufferCaches.Block -> Held,
                                    disk: seq<BufferCaches.Block>, im: Image, im': Image)
    requires forall h :: dec(enc(h)) == h
    requires Represents(sb, a, enc, disk, im) && Represents(sb, a, enc, disk, im') && |disk| == sb.size
    requires Layout(sb, a, im) && |im'.bitmap| == |im.bitmap| && |im'.dinodes| == |im.dinodes|
    requires |im'.blocks| == |im.blocks| == sb.size
    ensures im'.bitmap == im.bitmap && im'.dinodes == im.dinodes
    ensures forall c: nat :: InData(sb, c) ==> im'.blocks[c] == im.blocks[c]
  {
    forall c: nat | InLayout(sb, im, c)
      ensures HeldIn(sb, im', c) == HeldIn(sb, im, c)
    {
      HomeBlock(sb, a, im, c);
      assert dec(enc(HeldIn(sb, im, c))) == dec(disk[c]) == dec(enc(HeldIn(sb, im', c)));
    }
    forall b: nat | b < |im.bitmap|
      ensures im'.bitmap[b] == im.bitmap[b]
    {
      BitmapBlock(sb, im, b);
      assert b in HeldIn(sb, im, BBlock(sb, b)).bits;
    }
    forall i: nat | i < |im.dinodes|
      ensures im'.dinodes[i] == im.dinodes[i]
    {
      InodeBlock(sb, im, i);
      assert i in HeldIn(sb, im, IBlock(sb, i)).inodes;
    }
    forall c: nat | InData(sb, c)
      ensures im'.blocks[c] == im.blocks[c]
    {
      assert HeldIn(sb, im', c) == HeldIn(sb, im, c);
    }
  }
}
