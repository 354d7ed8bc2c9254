/** filewrite of file.c: a write cut into transactions that fit the log. */
module FileWrites {
  import opened Common
  import opened FsSpec
  import opened FileSystems

  class File {
    const writable: bool
    const ip: Inode
    var off: nat

    constructor (writable: bool, ip: Inode, off: nat)
      ensures this.writable == writable && this.ip == ip && this.off == off
    {
      this.writable, this.ip, this.off := writable, ip, off;
    }
  }

  /** How many of `n` bytes filewrite gets written: all if the file has room, else the
      whole chunks that fit. */
  function Accepted(size: nat, off: nat, n: nat): nat {
    if off > size || off > MAXFILE * BSIZE then 0
    else if off + n <= MAXFILE * BSIZE then n
    else (MAXFILE * BSIZE - off) / CHUNK * CHUNK
  }

  /** That is as much as whole chunks can take: all of it exactly if it fits, and otherwise the
      next chunk would not fit. */
  lemma AcceptedMost(size: nat, off: nat, n: nat)
    requires off <= size <= MAXFILE * BSIZE
    ensures Accepted(size, off, n) <= n && off + Accepted(size, off, n) <= MAXFILE * BSIZE
    ensures Accepted(size, off, n) == n <==> off + n <= MAXFILE * BSIZE
    ensures Accepted(size, off, n) < n ==>
      Accepted(size, off, n) % CHUNK == 0 && off + Accepted(size, off, n) + CHUNK > MAXFILE * BSIZE
  {
    MostChunks(MAXFILE * BSIZE - off);
  }

  lemma MostChunks(a: nat)
    ensures a / CHUNK * CHUNK <= a < a / CHUNK * CHUNK + CHUNK && a / CHUNK * CHUNK % CHUNK == 0
  {
    assert CHUNK == 1536;
    var q := a / 1536;
    assert q * 1536 % 1536 == 0;
  }

  lemma SpliceTwice(file: seq<int>, off: nat, a: seq<int>, b: seq<int>)
    requires off <= |file|
    ensures Splice(Splice(file, off, a), off + |a|, b) == Splice(file, off, a + b)
  {
  }

  lemma SpliceMore(file: seq<int>, off: nat, addr: seq<int>, i: nat, m: nat)
    requires i + m <= |addr|
    ensures off <= |file| ==>
      && off + i <= |Splice(file, off, addr[..i])|
      && Splice(Splice(file, off, addr[..i]), off + i, addr[i..i + m]) == Splice(file, off, addr[..i + m])
      && Splice(file, off, addr[..0]) == file
  {
    if off <= |file| {
      SpliceTwice(file, off, addr[..i], addr[i..i + m]);
      assert addr[..i] + addr[i..i + m] == addr[..i + m];
    }
  }

  /** Whether the next chunk is written, and what it means if it is not. */
  lemma ChunkAccepted(size: nat, off: nat, size1: nat, n: nat, i: nat, n1: nat)
    requires i < n && i % CHUNK == 0 && n1 == if n - i > CHUNK then CHUNK else n - i
    requires i > 0 ==> off <= size && off + i <= MAXFILE * BSIZE
    requires size1 == if i > 0 then Max(size, off + i) else size
    ensures WriteAllowed(size1, off + i, n1) <==> off <= size && off + i + n1 <= MAXFILE * BSIZE
    ensures !WriteAllowed(size1, off + i, n1) ==> Accepted(size, off, n) == i && i != n
    ensures WriteAllowed(size1, off + i, n1) ==>
      Max(size1, off + i + n1) == Max(size, off + i + n1) && (i + n1 < n ==> (i + n1) % CHUNK == 0)
  {
    if off <= MAXFILE * BSIZE && i <= MAXFILE * BSIZE - off < i + n1 {
      WholeChunks(MAXFILE * BSIZE - off, i);
    }
    if n - i > CHUNK {
      NextChunk(i);
    }
  }

  lemma WholeChunks(a: nat, i: nat)
    requires i <= a < i + CHUNK && i % CHUNK == 0
    ensures a / CHUNK * CHUNK == i
  {
  }

  lemma NextChunk(i: nat)
    requires i % CHUNK == 0
    ensures (i + CHUNK) % CHUNK == 0
  {
  }

  lemma AcceptedAll(size: nat, off: nat, n: int, i: nat)
    requires n > 0 && i == n && off <= size && off + i <= MAXFILE * BSIZE
    ensures Accepted(size, off, n) == n
  {
  }

  lemma OthersKeptSelf(inum: nat, blocks: seq<Block>, tab: seq<Dinode>)
    ensures OthersKept(inum, blocks, tab, blocks, tab)
  {
  }

  lemma OthersKeptTrans(inum: nat, blocks: seq<Block>, tab: seq<Dinode>, blocks1: seq<Block>, tab1: seq<Dinode>,
                        blocks2: seq<Block>, tab2: seq<Dinode>)
    requires OthersKept(inum, blocks, tab, blocks1, tab1) && OthersKept(inum, blocks1, tab1, blocks2, tab2)
    ensures OthersKept(inum, blocks, tab, blocks2, tab2)
  {
  }

  /** One transaction of filewrite: begin_op, writei, end_op. It logs no more blocks than
      begin_op reserved for it. None is the panic for want of free blocks. */
  method WriteChunk(fs: FileSystem, f: File, chunk: seq<int>) returns (r: Option<int>)
    requires fs.AtRest(f.ip) && f.off < WORD && 0 < |chunk| <= CHUNK
    requires f as object != fs && f as object != f.ip && fs as object != f.ip
    modifies fs, f`off, f.ip
    ensures r.None? <==>
      && WriteAllowed(old(f.ip.size), old(f.off), |chunk|)
      && |FreeBlocks(old(fs.bitmap))| < SlotsFor(Max(old(f.ip.size), old(f.off) + |chunk|)) - SlotsFor(old(f.ip.size))
    ensures r.Some? ==> |fs.logged| <= MAXOPBLOCKS && fs.AtRest(f.ip) && f.ip.meta == old(f.ip.meta)
    ensures r.Some? ==> Recorded(fs.sb, old(fs.Now().(logged := {})), fs.Now())
    ensures r.Some? ==> fs.dinodes == old(fs.dinodes)[f.ip.inum := f.ip.Value()]
    ensures r.Some? && !WriteAllowed(old(f.ip.size), old(f.off), |chunk|) ==>
      && r == Some(-1) && f.off == old(f.off) && unchanged(f.ip)
      && fs.blocks == old(fs.blocks) && fs.dinodes == old(fs.dinodes) && fs.bitmap == old(fs.bitmap)
    ensures r.Some? && WriteAllowed(old(f.ip.size), old(f.off), |chunk|) ==>
      && r.value == |chunk| && f.off == old(f.off) + |chunk|
      && f.ip.size == Max(old(f.ip.size), old(f.off) + |chunk|)
      && Content(fs.blocks, f.ip.Value()) == Splice(old(Content(fs.blocks, f.ip.Value())), old(f.off), chunk)
      && OthersKept(f.ip.inum, old(fs.blocks), old(fs.dinodes), fs.blocks, fs.dinodes)
      && |FreeBlocks(fs.bitmap)| == |FreeBlocks(old(fs.bitmap))| - (SlotsFor(f.ip.size) - SlotsFor(old(f.ip.size)))
  {
    RecordedSelf(fs.sb, fs.Now().(logged := {}));
    hide FsInv, Content, Splice, SlotsFor, FreeBlocks, Recorded;
    fs.logged := {};
    if f.off <= f.ip.size {
      ChunkFits(f.ip.size, f.off, |chunk|);
    }
    r := fs.Writei(f.ip, chunk, f.off);
    if r.None? {
      return;
    }
    if r.value > 0 {
      f.off := f.off + r.value;
    }
  }

  /** The chunks written are part of what is accepted, and grow the file no further. */
  lemma ChunkWithin(size: nat, off: nat, n: nat, i: nat, n1: nat)
    requires i + n1 <= n && i % CHUNK == 0 && n1 == if n - i > CHUNK then CHUNK else n - i
    requires off <= size && off + i + n1 <= MAXFILE * BSIZE
    ensures i + n1 <= Accepted(size, off, n)
    ensures SlotsFor(Max(size, off + i + n1)) <= SlotsFor(Max(size, off + Accepted(size, off, n)))
  {
    if off + n > MAXFILE * BSIZE {
      assert n1 == CHUNK;
      ChunkCount(MAXFILE * BSIZE - off, i);
    }
    SlotsMonotone(Max(size, off + i + n1), Max(size, off + Accepted(size, off, n)));
  }

  lemma ChunkCount(a: nat, i: nat)
    requires i + CHUNK <= a && i % CHUNK == 0
    ensures i + CHUNK <= a / CHUNK * CHUNK
  {
  }

  /** How many bytes filewrite writes, and the size it leaves a file with. */
  function Taken(size: nat, off: nat, n: int, writable: bool): nat {
    if writable && n > 0 then Accepted(size, off, n) else 0
  }

  function SizeWritten(size: nat, off: nat, m: nat): nat {
    if m > 0 then Max(size, off + m) else size
  }

  /** What filewrite started from. */
  datatype Opening = Opening(off: nat, size: nat, meta: Meta, file: seq<int>, blocks: seq<Block>, dinodes: seq<Dinode>,
                             bitmap: seq<bool>)

  /** The loop invariant of filewrite: the first `i` bytes are written. */
  ghost predicate Ongoing(fs: FileSystem, f: File, w: Opening, addr: seq<int>, n: nat, i: nat)
    reads fs, f, f.ip
  {
    && |w.file| == w.size && i <= n <= |addr| && (i < n ==> i % CHUNK == 0)
    && fs.AtRest(f.ip) && f.off == w.off + i && f.off < WORD && f.ip.meta == w.meta
    && f.ip.inum < |w.dinodes| && fs.dinodes == w.dinodes[f.ip.inum := f.ip.Value()]
    && f.ip.size == (if i > 0 then Max(w.size, w.off + i) else w.size)
    && (i > 0 ==> w.off <= w.size && w.off + i <= MAXFILE * BSIZE)
    && (if i == 0 then fs.blocks == w.blocks && fs.dinodes == w.dinodes && Content(fs.blocks, f.ip.Value()) == w.file
        else Content(fs.blocks, f.ip.Value()) == Splice(w.file, w.off, addr[..i]))
    && OthersKept(f.ip.inum, w.blocks, w.dinodes, fs.blocks, fs.dinodes)
    && |FreeBlocks(fs.bitmap)| == |FreeBlocks(w.bitmap)| - (SlotsFor(f.ip.size) - SlotsFor(w.size))
  }

  // ----- The transactions of a filewrite -----

  ghost function Open(fs: FileSystem, f: File): Opening
    reads fs, f, f.ip
  {
    Opening(f.off, f.ip.size, f.ip.meta, Content(fs.blocks, f.ip.Value()), fs.blocks, fs.dinodes, fs.bitmap)
  }

  predicate SameDisk(a: Image, b: Image) {
    a.blocks == b.blocks && a.bitmap == b.bitmap && a.dinodes == b.dinodes
  }

  /** How many of `n` bytes are written after `j` chunks. */
  function ChunkEnd(j: nat, n: nat): nat {
    Min(j * CHUNK, n)
  }

  /** From image `j` to the next one transaction logs all that changes, and not too much. */
  ghost predicate TransactionAt(sb: Super, images: seq<Image>, j: nat)
    requires j + 1 < |images|
  {
    Recorded(sb, images[j].(logged := {}), images[j + 1]) && |images[j + 1].logged| <= MAXOPBLOCKS
  }

  /** Image `im` is that of the start, with the file's first `m` bytes from addr written. */
  ghost predicate WrittenIn(im: Image, w: Opening, inum: nat, addr: seq<int>, m: nat) {
    && inum < |im.dinodes| && m <= |addr| && OthersKept(inum, w.blocks, w.dinodes, im.blocks, im.dinodes)
    && (if m == 0 then im.blocks == w.blocks && im.dinodes == w.dinodes && im.bitmap == w.bitmap
        else w.off <= |w.file| && Content(im.blocks, im.dinodes[inum]) == Splice(w.file, w.off, addr[..m]))
  }

  /** The disk between the transactions of a filewrite: image `j` has the first `j` chunks. */
  ghost predicate Trail(sb: Super, images: seq<Image>, w: Opening, inum: nat, addr: seq<int>, n: nat) {
    && images != []
    && (forall j: nat :: j < |images| ==> WrittenIn(images[j], w, inum, addr, ChunkEnd(j, n)))
    && (forall j: nat :: j + 1 < |images| ==> TransactionAt(sb, images, j))
  }

  lemma TrailMore(sb: Super, images: seq<Image>, w: Opening, inum: nat, addr: seq<int>, n: nat, im: Image)
    requires Trail(sb, images, w, inum, addr, n) && WrittenIn(im, w, inum, addr, ChunkEnd(|images|, n))
    requires Recorded(sb, images[|images| - 1].(logged := {}), im) && |im.logged| <= MAXOPBLOCKS
    ensures Trail(sb, images + [im], w, inum, addr, n)
  {
    hide WrittenIn, Recorded;
    var more := images + [im];
    forall j: nat | j + 1 < |more|
      ensures TransactionAt(sb, more, j)
    {
      if j + 1 < |images| {
        assert TransactionAt(sb, images, j);
      }
    }
  }

  /** The trail has come as far as filewrite. */
  ghost predicate Trailing(fs: FileSystem, f: File, w: Opening, addr: seq<int>, n: nat, i: nat, images: seq<Image>)
    reads fs
  {
    && Trail(fs.sb, images, w, f.ip.inum, addr, n) && i == ChunkEnd(|images| - 1, n)
    && SameDisk(images[|images| - 1], fs.Now())
  }

  lemma TrailRound(fs: FileSystem, f: File, w: Opening, addr: seq<int>, n: nat, i: nat, m: nat, images: seq<Image>,
                   before: Image)
    requires Trail(fs.sb, images, w, f.ip.inum, addr, n) && i == ChunkEnd(|images| - 1, n) < n
    requires SameDisk(images[|images| - 1], before) && Recorded(fs.sb, before.(logged := {}), fs.Now())
    requires |fs.logged| <= MAXOPBLOCKS && m == Min(n - i, CHUNK) && Ongoing(fs, f, w, addr, n, i + m)
    ensures Trailing(fs, f, w, addr, n, i + m, images + [fs.Now()])
  {
    hide Trail, Recorded, FsInv, Content, Splice, OthersKept, FreeBlocks, SlotsFor;
    assert images != [] by {
      TrailSome(fs.sb, images, w, f.ip.inum, addr, n);
    }
    assert images[|images| - 1].(logged := {}) == before.(logged := {});
    assert i + m == ChunkEnd(|images|, n);
    TrailMore(fs.sb, images, w, f.ip.inum, addr, n, fs.Now());
  }

  lemma TrailSome(sb: Super, images: seq<Image>, w: Opening, inum: nat, addr: seq<int>, n: nat)
    requires Trail(sb, images, w, inum, addr, n)
    ensures images != []
  {
  }

  /** One round of filewrite. */
  method FileRound(fs: FileSystem, f: File, addr: seq<int>, n: nat, i: nat, ghost w: Opening,
                   ghost images: seq<Image>) returns (r: Option<int>, ghost images': seq<Image>)
    requires Ongoing(fs, f, w, addr, n, i) && i < n && Trailing(fs, f, w, addr, n, i, images)
    requires f as object != fs && f as object != f.ip && fs as object != f.ip
    modifies fs, f`off, f.ip
    ensures r.None? ==>
      |FreeBlocks(w.bitmap)| < SlotsFor(SizeWritten(w.size, w.off, Taken(w.size, w.off, n, true))) - SlotsFor(w.size)
    ensures r.Some? && r.value < 0 ==> Ongoing(fs, f, w, addr, n, i) && Accepted(w.size, w.off, n) == i
    ensures r.Some? && r.value >= 0 ==> r.value > 0 && Ongoing(fs, f, w, addr, n, i + r.value)
    ensures r.None? ==> Trail(fs.sb, images', w, f.ip.inum, addr, n)
    ensures r.Some? ==> Trailing(fs, f, w, addr, n, if r.value < 0 then i else i + r.value, images')
  {
    hide FsInv, Content, Splice, SlotsFor, Accepted, WriteAllowed, LogBound;
    hide FileSystem.Inv, Max, OthersKept, FreeBlocks, Recorded, Trail;
    ghost var blocks1, dinodes1, before := fs.blocks, fs.dinodes, fs.Now();
    images' := images;
    var n1 := n - i;
    if n1 > CHUNK {
      n1 := CHUNK;
    }
    MaxSelf(w.size, w.off);
    ChunkAccepted(w.size, w.off, f.ip.size, n, i, n1);
    SpliceMore(w.file, w.off, addr, i, n1);
    if w.off <= w.size && w.off + i + n1 <= MAXFILE * BSIZE {
      ChunkWithin(w.size, w.off, n, i, n1);
    }
    r := WriteChunk(fs, f, addr[i..i + n1]);
    if r.Some? && r.value > 0 {
      OthersKeptTrans(f.ip.inum, w.blocks, w.dinodes, blocks1, dinodes1, fs.blocks, fs.dinodes);
      TrailRound(fs, f, w, addr, n, i, n1, images, before);
      images' := images + [fs.Now()];
    }
  }

  /** What filewrite has done when it returns `r`. */
  ghost predicate Finished(fs: FileSystem, f: File, w: Opening, addr: seq<int>, n: int, r: int)
    requires n <= |addr|
    reads fs, f, f.ip
  {
    var m := Taken(w.size, w.off, n, f.writable);
    && r == (if f.writable && m == n then n else -1) && m <= |addr|
    && fs.AtRest(f.ip) && f.off == w.off + m && f.ip.meta == w.meta
    && f.ip.inum < |w.dinodes| && fs.dinodes == w.dinodes[f.ip.inum := f.ip.Value()]
    && (m > 0 ==> w.off <= |w.file| && Content(fs.blocks, f.ip.Value()) == Splice(w.file, w.off, addr[..m]))
    && (m == 0 ==> fs.blocks == w.blocks && fs.dinodes == w.dinodes)
    && OthersKept(f.ip.inum, w.blocks, w.dinodes, fs.blocks, fs.dinodes)
    && |FreeBlocks(fs.bitmap)| == |FreeBlocks(w.bitmap)| - (SlotsFor(f.ip.size) - SlotsFor(w.size))
  }

  /** filewrite. None is the panic for want of free blocks. `images` is the disk between its
      transactions, from the start on. */
  method Filewrite(fs: FileSystem, f: File, addr: seq<int>, n: int) returns (r: Option<int>, ghost images: seq<Image>)
    requires fs.AtRest(f.ip) && f.off < WORD && n <= |addr|
    requires f as object != fs && f as object != f.ip && fs as object != f.ip
    modifies fs, f`off, f.ip
    ensures r.None? <==>
      var m := Taken(old(f.ip.size), old(f.off), n, f.writable);
      |FreeBlocks(old(fs.bitmap))| < SlotsFor(SizeWritten(old(f.ip.size), old(f.off), m)) - SlotsFor(old(f.ip.size))
    ensures r.Some? ==> Finished(fs, f, old(Open(fs, f)), addr, n, r.value)
    ensures Trail(fs.sb, images, old(Open(fs, f)), f.ip.inum, addr, Requested(n))
    ensures r.Some? ==> TrailEnds(fs, old(Open(fs, f)), n, f.writable, images)
  {
    ghost var w := Open(fs, f);
    images := [fs.Now()];
    Begin(fs, f, w, addr, n, images);
    hide FsInv, Trail, OthersKept, WrittenIn, FileSystem.Inv, FreeBlocks, Content, Open, Ongoing, Taken, SizeWritten;
    if !f.writable {
      return Some(-1), images;
    }
    var i := 0;
    while i < n
      invariant 0 <= i <= Requested(n) && Ongoing(fs, f, w, addr, Requested(n), i)
      invariant Trailing(fs, f, w, addr, Requested(n), i, images)
    {
      r, images := FileRound(fs, f, addr, n, i, w, images);
      if r.None? {
        return;
      }
      if r.value < 0 {
        break;
      }
      OngoingBound(fs, f, w, addr, Requested(n), i + r.value);
      i := i + r.value;
    }
    Ended(fs, f, w, addr, n, i);
    r := Some(if i == n then n else -1);
  }

  /** The bytes asked for. */
  function Requested(n: int): nat {
    if n < 0 then 0 else n
  }

  /** The trail ends at the disk as it is, with all that filewrite takes. */
  ghost predicate TrailEnds(fs: FileSystem, w: Opening, n: int, writable: bool, images: seq<Image>)
    reads fs
  {
    && images != [] && SameDisk(images[|images| - 1], fs.Now())
    && ChunkEnd(|images| - 1, Requested(n)) == Taken(w.size, w.off, n, writable)
  }

  /** Before the loop, or without one. */
  lemma Begin(fs: FileSystem, f: File, w: Opening, addr: seq<int>, n: int, images: seq<Image>)
    requires fs.AtRest(f.ip) && f.off < WORD && n <= |addr| && w == Open(fs, f) && images == [fs.Now()]
    ensures Ongoing(fs, f, w, addr, Requested(n), 0) && Trailing(fs, f, w, addr, Requested(n), 0, images)
    ensures Trail(fs.sb, images, w, f.ip.inum, addr, Requested(n))
    ensures !f.writable ==>
      && Finished(fs, f, w, addr, n, -1) && TrailEnds(fs, w, n, false, images) && Taken(w.size, w.off, n, false) == 0
      && SizeWritten(w.size, w.off, 0) == w.size
  {
    hide FsInv, FreeBlocks, SlotsFor;
    OthersKeptSelf(f.ip.inum, fs.blocks, fs.dinodes);
    assert fs.dinodes == fs.dinodes[f.ip.inum := f.ip.Value()];
  }

  lemma OngoingBound(fs: FileSystem, f: File, w: Opening, addr: seq<int>, n: nat, i: nat)
    requires Ongoing(fs, f, w, addr, n, i)
    ensures i <= n
  {
  }

  /** Where filewrite stops, all that is accepted is written. */
  lemma Ended(fs: FileSystem, f: File, w: Opening, addr: seq<int>, n: int, i: nat)
    requires Ongoing(fs, f, w, addr, Requested(n), i) && f.writable && n <= |addr|
    requires i == Requested(n) || Accepted(w.size, w.off, Requested(n)) == i
    ensures i == Taken(w.size, w.off, n, true) && Finished(fs, f, w, addr, n, if i == n then n else -1)
    ensures |FreeBlocks(w.bitmap)| >= SlotsFor(SizeWritten(w.size, w.off, i)) - SlotsFor(w.size)
  {
    hide FsInv, Content, Splice, SlotsFor, WriteAllowed, FileSystem.Inv, Max, OthersKept, FreeBlocks, Accepted;
    if i == n && n > 0 {
      AcceptedAll(w.size, w.off, n, i);
    }
  }
}
