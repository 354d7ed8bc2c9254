/** The bound of ten logged blocks on a transaction of filewrite is attained: disks on which
    one chunk needs all ten, and such a disk. */
module WriteBounds {
  import opened Common
  import opened FsSpec
  import opened FileSystems
  import opened FileWrites

  function Fill(x: int): Block {
    seq(BSIZE, _ => x)
  }

  function Chunk(): seq<int> {
    seq(CHUNK, _ => 2)
  }

  const SIZE := 10 * BSIZE + 1

  /** The disk has four free blocks, under four bitmap blocks, and file `inum` has ten blocks
      and one byte; no other file has an indirect block. */
  ghost predicate Spread(sb: Super, a: Image, owner: seq<Owner>, inum: nat, free: seq<nat>) {
    && inum < |a.dinodes| && FsInv(sb, a.blocks, a.bitmap, owner, a.dinodes, inum, SlotsFor(SIZE))
    && a.dinodes[inum].size == SIZE && |a.dinodes[inum].addrs| == NDIRECT + 1
    && |free| == 4 && FreeBlocks(a.bitmap) == {free[0], free[1], free[2], free[3]}
    && (forall i :: 0 <= i < 4 ==> FreeAt(sb, a, inum, free[i]))
    && BBlock(sb, free[0]) < BBlock(sb, free[1]) < BBlock(sb, free[2]) < BBlock(sb, free[3])
    && (forall s :: 0 <= s <= 10 ==> FullAt(a, a.dinodes[inum].addrs[s]))
    && (forall i :: 0 <= i < |a.dinodes| && i != inum ==>
          |a.dinodes[i].addrs| == NDIRECT + 1 && a.dinodes[i].addrs[NDIRECT] == 0)
  }

  ghost predicate FreeAt(sb: Super, a: Image, inum: nat, b: nat) {
    && InData(sb, b) && b < |a.blocks| && a.blocks[b] == Fill(1)
    && IBlock(sb, inum) < BBlock(sb, b) < sb.datastart
  }

  ghost predicate FullAt(a: Image, b: int) {
    0 < b < |a.blocks| && a.blocks[b] == Fill(3)
  }

  /** What WriteChunk promises after a chunk was written at the end of the file. */
  ghost predicate Appended(sb: Super, a: Image, b: Image, owner: seq<Owner>, inum: nat) {
    && Recorded(sb, a, b) && inum < |a.dinodes| && a.dinodes[inum].size == SIZE
    && b.dinodes == a.dinodes[inum := b.dinodes[inum]] && b.dinodes[inum].size == SIZE + CHUNK
    && FsInv(sb, b.blocks, b.bitmap, owner, b.dinodes, inum, SlotsFor(SIZE + CHUNK))
    && Content(b.blocks, b.dinodes[inum]) == Splice(Content(a.blocks, a.dinodes[inum]), SIZE, Chunk())
    && FreeBlocks(b.bitmap) == {}
  }

  /** A block another file owns after the write it owned before, and the other way round. */
  lemma {:induction false} OthersOwn(sb: Super, a: Image, owner0: seq<Owner>, free: seq<nat>, b: Image,
                                     owner: seq<Owner>, inum: nat, i: nat, s: nat, c: nat)
    requires Spread(sb, a, owner0, inum, free) && Appended(sb, a, b, owner, inum) && i != inum && c < sb.size
    ensures |owner0| == |owner| == sb.size && (owner0[c] == Own(i, s) <==> owner[c] == Own(i, s))
  {
    assert OwnerOk(sb, a.blocks, a.bitmap, owner0, a.dinodes, c);
    assert OwnerOk(sb, b.blocks, b.bitmap, owner, b.dinodes, c);
    if i < |a.dinodes| && s < NSLOT {
      var addrs := a.dinodes[i].addrs;
      assert b.dinodes[i] == a.dinodes[i];
      assert FileOk(sb, a.blocks, owner0, i, addrs, Used(a.dinodes, inum, SlotsFor(SIZE), i));
      assert FileOk(sb, b.blocks, owner, i, addrs, Used(b.dinodes, inum, SlotsFor(SIZE + CHUNK), i));
      assert SlotOk(sb, a.blocks, owner0, i, addrs, Used(a.dinodes, inum, SlotsFor(SIZE), i), s);
      assert SlotOk(sb, b.blocks, owner, i, addrs, Used(b.dinodes, inum, SlotsFor(SIZE + CHUNK), i), s);
      assert Slot(a.blocks, addrs, s) == Slot(b.blocks, addrs, s);
    }
  }

  /** The bytes of the file before the write. */
  lemma {:induction false} OldByte(sb: Super, a: Image, owner: seq<Owner>, inum: nat, free: seq<nat>, pos: nat)
    requires Spread(sb, a, owner, inum, free) && pos < SIZE
    ensures Content(a.blocks, a.dinodes[inum])[pos] == 3
  {
    assert FullAt(a, a.dinodes[inum].addrs[pos / BSIZE]);
  }

  lemma {:induction false} NewByte(sb: Super, a: Image, owner0: seq<Owner>, free: seq<nat>, b: Image,
                                   owner: seq<Owner>, inum: nat, pos: nat)
    requires Spread(sb, a, owner0, inum, free) && Appended(sb, a, b, owner, inum) && pos < SIZE + CHUNK
    ensures ByteAt(b.blocks, b.dinodes[inum].addrs, pos) == if pos < SIZE then 3 else 2
  {
    hide Spread, FsInv, Recorded, FreeBlocks, ByteAt;
    var file := Content(b.blocks, b.dinodes[inum]);
    assert file[pos] == ByteAt(b.blocks, b.dinodes[inum].addrs, pos);
    if pos < SIZE {
      OldByte(sb, a, owner0, inum, free, pos);
    }
  }

  lemma ZeroWord(b: Block, i: nat, x: int)
    requires b == Fill(x) && i < NINDIRECT && x > 0
    ensures GetWord(b, i) > 0
  {
  }

  /** Every block of the file differs from what the free blocks held, and from slot 10 on also
      from what the file's blocks held. */
  lemma {:induction false} SlotBytes(sb: Super, a: Image, owner0: seq<Owner>, free: seq<nat>, b: Image,
                                     owner: seq<Owner>, inum: nat, s: nat)
    requires Spread(sb, a, owner0, inum, free) && Appended(sb, a, b, owner, inum) && s < 15
    ensures var c := Slot(b.blocks, b.dinodes[inum].addrs, s);
      && InData(sb, c) && 0 < c < |b.blocks| && c < |owner| && owner[c] == Own(inum, s)
      && b.blocks[c] != Fill(1) && (s >= 10 ==> b.blocks[c] != Fill(3))
  {
    hide Spread, Recorded, Content, FreeBlocks, GetWord, Splice;
    var addrs := b.dinodes[inum].addrs;
    assert FileOk(sb, b.blocks, owner, inum, addrs, Used(b.dinodes, inum, SlotsFor(SIZE + CHUNK), inum));
    assert SlotOk(sb, b.blocks, owner, inum, addrs, 15, s);
    var c := Slot(b.blocks, addrs, s);
    if s == NDIRECT {
      assert SlotOk(sb, b.blocks, owner, inum, addrs, 15, 15);
      if b.blocks[c] == Fill(1) {
        ZeroWord(b.blocks[c], 2, 1);
      } else if b.blocks[c] == Fill(3) {
        ZeroWord(b.blocks[c], 2, 3);
      }
    } else {
      var bn := if s < NDIRECT then s else s - 1;
      NewByte(sb, a, owner0, free, b, owner, inum, bn * BSIZE);
      assert ByteAt(b.blocks, addrs, bn * BSIZE) == b.blocks[c][0];
      if s == 10 {
        NewByte(sb, a, owner0, free, b, owner, inum, SIZE);
        assert ByteAt(b.blocks, addrs, SIZE) == b.blocks[c][1];
      }
    }
  }

  /** So the four blocks that were free are logged, with their bitmap blocks. */
  lemma {:induction false} FreeLogged(sb: Super, a: Image, owner0: seq<Owner>, free: seq<nat>, b: Image,
                                      owner: seq<Owner>, inum: nat, i: nat)
    requires Spread(sb, a, owner0, inum, free) && Appended(sb, a, b, owner, inum) && i < 4
    ensures free[i] in b.logged && BBlock(sb, free[i]) in b.logged
  {
    var c := free[i];
    assert FreeAt(sb, a, inum, c) && c in FreeBlocks(a.bitmap) && c !in FreeBlocks(b.bitmap);
    assert OwnerOk(sb, a.blocks, a.bitmap, owner0, a.dinodes, c);
    assert OwnerOk(sb, b.blocks, b.bitmap, owner, b.dinodes, c);
    if owner[c].inum != inum {
      OthersOwn(sb, a, owner0, free, b, owner, inum, owner[c].inum, owner[c].slot, c);
    }
    assert FileOk(sb, b.blocks, owner, inum, b.dinodes[inum].addrs,
                  Used(b.dinodes, inum, SlotsFor(SIZE + CHUNK), inum));
    assert SlotOk(sb, b.blocks, owner, inum, b.dinodes[inum].addrs, 15, owner[c].slot);
    SlotBytes(sb, a, owner0, free, b, owner, inum, owner[c].slot);
  }

  /** A block from slot 10 on that was not free is logged too. */
  lemma {:induction false} OldLogged(sb: Super, a: Image, owner0: seq<Owner>, free: seq<nat>, b: Image,
                                     owner: seq<Owner>, inum: nat, s: nat)
    requires Spread(sb, a, owner0, inum, free) && Appended(sb, a, b, owner, inum) && 10 <= s < 15
    ensures var c := Slot(b.blocks, b.dinodes[inum].addrs, s);
      InData(sb, c) && (c !in free ==> c in b.logged)
  {
    SlotBytes(sb, a, owner0, free, b, owner, inum, s);
    var c := Slot(b.blocks, b.dinodes[inum].addrs, s);
    if c !in free {
      assert c !in FreeBlocks(a.bitmap);
      assert OwnerOk(sb, a.blocks, a.bitmap, owner0, a.dinodes, c);
      var o := owner0[c];
      if o.inum != inum {
        OthersOwn(sb, a, owner0, free, b, owner, inum, o.inum, o.slot, c);
      }
      assert FileOk(sb, a.blocks, owner0, inum, a.dinodes[inum].addrs, Used(a.dinodes, inum, SlotsFor(SIZE), inum));
      assert SlotOk(sb, a.blocks, owner0, inum, a.dinodes[inum].addrs, 11, o.slot);
      assert FullAt(a, a.dinodes[inum].addrs[o.slot]);
    }
  }

  /** Five different blocks cannot all be among four. */
  lemma {:induction false} SomeOld(sb: Super, a: Image, owner0: seq<Owner>, free: seq<nat>, b: Image,
                                   owner: seq<Owner>, inum: nat) returns (c: nat)
    requires Spread(sb, a, owner0, inum, free) && Appended(sb, a, b, owner, inum)
    ensures InData(sb, c) && c !in free && c in b.logged
  {
    hide FsInv, Recorded, FreeBlocks, Slot, Content, Splice;
    var five: set<nat> := {};
    var s := 10;
    while s < 15
      invariant 10 <= s <= 15 && |five| == s - 10
      invariant forall x :: x in five ==> x in free && x < |owner| && owner[x].Own? && owner[x].slot < s
    {
      SlotBytes(sb, a, owner0, free, b, owner, inum, s);
      OldLogged(sb, a, owner0, free, b, owner, inum, s);
      c := Slot(b.blocks, b.dinodes[inum].addrs, s);
      if c !in free {
        return;
      }
      five := five + {c};
      s := s + 1;
    }
    SubsetSize(five, {free[0], free[1], free[2], free[3]});
    Four(free[0], free[1], free[2], free[3]);
    assert false;
  }

  lemma Four(w: nat, x: nat, y: nat, z: nat)
    ensures |{w, x, y, z}| <= 4
  {
  }

  /** The inode block, four bitmap blocks, four new blocks, and one that was the file's. */
  lemma {:induction false} TenLogged(sb: Super, a: Image, owner0: seq<Owner>, free: seq<nat>, b: Image,
                                     owner: seq<Owner>, inum: nat)
    requires Spread(sb, a, owner0, inum, free) && Appended(sb, a, b, owner, inum)
    ensures |b.logged| >= 10
  {
    hide FsInv, FreeBlocks, Content, Splice, BBlock, IBlock;
    var c := SomeOld(sb, a, owner0, free, b, owner, inum);
    assert b.dinodes[inum] != a.dinodes[inum];
    forall i: nat | i < 4
      ensures FreeAt(sb, a, inum, free[i]) && free[i] in b.logged && BBlock(sb, free[i]) in b.logged
    {
      FreeLogged(sb, a, owner0, free, b, owner, inum, i);
    }
    assert free[0] < free[1] < free[2] < free[3] by {
      Ordered(sb, free[0], free[1]);
      Ordered(sb, free[1], free[2]);
      Ordered(sb, free[2], free[3]);
    }
    var low := [IBlock(sb, inum), BBlock(sb, free[0]), BBlock(sb, free[1]), BBlock(sb, free[2]), BBlock(sb, free[3])];
    CountTen(b.logged, sb.datastart, low, free, c);
  }

  lemma Ordered(sb: Super, x: nat, y: nat)
    requires BBlock(sb, x) < BBlock(sb, y)
    ensures x < y
  {
  }

  lemma CountTen(logged: set<nat>, mid: nat, low: seq<nat>, high: seq<nat>, c: nat)
    requires |low| == 5 && |high| == 4 && c !in high && c in logged && mid <= c
    requires low[0] < low[1] < low[2] < low[3] < low[4] < mid <= high[0] < high[1] < high[2] < high[3]
    requires (forall i :: 0 <= i < 5 ==> low[i] in logged) && (forall i :: 0 <= i < 4 ==> high[i] in logged)
    ensures |logged| >= 10
  {
    var lows, highs := {low[0], low[1], low[2], low[3], low[4]}, {c, high[0], high[1], high[2], high[3]};
    assert |lows| == 5 && |highs| == 5 && lows !! highs;
    SubsetSize(lows + highs, logged);
  }

  /** On such a disk, appending one chunk to the file is a transaction of MAXOPBLOCKS blocks. */
  method FullTransaction(fs: FileSystem, f: File, ghost free: seq<nat>) returns (r: Option<int>)
    requires fs.AtRest(f.ip) && f.off == SIZE && Spread(fs.sb, fs.Now(), fs.owner, f.ip.inum, free)
    requires f as object != fs && f as object != f.ip && fs as object != f.ip
    modifies fs, f`off, f.ip
    ensures r == Some(CHUNK) && |fs.logged| == MAXOPBLOCKS
  {
    hide FsInv, Recorded, Content, Splice;
    ghost var a, owner0 := fs.Now().(logged := {}), fs.owner;
    assert f.ip.size == SIZE && Spread(fs.sb, a, owner0, f.ip.inum, free);
    FourFree(fs.sb, free, FreeBlocks(a.bitmap));
    hide FreeBlocks;
    r := WriteChunk(fs, f, Chunk());
    assert FreeBlocks(fs.bitmap) == {};
    assert fs.Tab(f.ip) == fs.dinodes;
    TenLogged(fs.sb, a, owner0, free, fs.Now(), fs.owner, f.ip.inum);
  }

  lemma FourFree(sb: Super, free: seq<nat>, blocks: set<nat>)
    requires |free| == 4 && blocks == {free[0], free[1], free[2], free[3]}
    requires BBlock(sb, free[0]) < BBlock(sb, free[1]) < BBlock(sb, free[2]) < BBlock(sb, free[3])
    ensures |blocks| == 4
  {
  }

  // ----- Such a disk -----

  /** mkfs's layout for a disk of 12289 blocks and 32376 inodes: four bitmap blocks, and data
      from block 4084 on. */
  const SB := Super(12289, 32376, 32, 4080, 4084)

  /** The last block under each of the first three bitmap blocks, and the only one under the
      fourth. */
  const FREE: seq<nat> := [4095, 8191, 12287, 12288]

  /** Inode 1 has the eleven data blocks under the first bitmap block; inodes 2 to 456 have nine
      blocks each under the second, and inodes 457 to 911 under the third. */
  function First(i: nat): nat {
    if i == 1 then 4084 else if i < 457 then 4096 + 9 * (i - 2) else 8192 + 9 * (i - 457)
  }

  function Count(i: nat): nat {
    if i == 1 then 11 else if 2 <= i < 912 then 9 else 0
  }

  function InodeAt(i: nat): Dinode {
    Dinode(Meta(2, 0, 0, 1), if i == 1 then SIZE else Count(i) * BSIZE,
           seq(NDIRECT + 1, s => if s < Count(i) then First(i) + s else 0))
  }

  function OwnerAt(b: nat): Owner {
    if b < 4084 || b in FREE then Free
    else if b < 4095 then Own(1, b - 4084)
    else if b < 8191 then Own(2 + (b - 4096) / 9, (b - 4096) % 9)
    else Own(457 + (b - 8192) / 9, (b - 8192) % 9)
  }

  function BlockAt(b: nat): Block {
    Fill(if b in FREE then 1 else if 4084 <= b < 4095 then 3 else 0)
  }

  function Disk(): Image {
    Image(seq(12289, b requires 0 <= b => BlockAt(b)), seq(12289, b => b !in FREE),
          seq(32376, i requires 0 <= i => InodeAt(i)), {})
  }

  function Owners(): seq<Owner> {
    seq(12289, b requires 0 <= b => OwnerAt(b))
  }

  lemma SlotAt(i: nat, s: nat)
    requires i < 32376 && s < NSLOT
    ensures Slot(Disk().blocks, InodeAt(i).addrs, s) == if s < Count(i) then First(i) + s else 0
    ensures s < Count(i) ==> 4084 <= First(i) + s < 12289 && OwnerAt(First(i) + s) == Own(i, s)
  {
  }

  lemma AddrAt(i: nat, s: nat)
    requires i < 32376 && s <= NDIRECT
    ensures Disk().dinodes[i] == InodeAt(i)
    ensures InodeAt(i).addrs[s] == if s < Count(i) then First(i) + s else 0
  {
  }

  lemma OwnedAt(b: nat)
    requires b < 12289 && OwnerAt(b).Own?
    ensures var o := OwnerAt(b);
      4084 <= b && o.inum < 912 && o.slot < Count(o.inum) && First(o.inum) + o.slot == b && b !in FREE
  {
  }

  lemma {:induction false} DiskOk()
    ensures FsInv(SB, Disk().blocks, Disk().bitmap, Owners(), Disk().dinodes, 1, SlotsFor(SIZE))
  {
    var disk, owner := Disk(), Owners();
    forall i | 0 <= i < |disk.dinodes|
      ensures FileOk(SB, disk.blocks, owner, i, disk.dinodes[i].addrs, Used(disk.dinodes, 1, SlotsFor(SIZE), i))
    {
      forall s | 0 <= s < NSLOT
        ensures SlotOk(SB, disk.blocks, owner, i, disk.dinodes[i].addrs, Used(disk.dinodes, 1, SlotsFor(SIZE), i), s)
      {
        SlotAt(i, s);
      }
    }
    forall b | 0 <= b < SB.size
      ensures OwnerOk(SB, disk.blocks, disk.bitmap, owner, disk.dinodes, b)
    {
      if OwnerAt(b).Own? {
        OwnedAt(b);
        SlotAt(OwnerAt(b).inum, OwnerAt(b).slot);
      }
    }
  }

  lemma {:induction false} DiskSpread()
    ensures Spread(SB, Disk(), Owners(), 1, FREE)
  {
    DiskOk();
    hide FsInv;
    var disk := Disk();
    forall i | 0 <= i < 4
      ensures FreeAt(SB, disk, 1, FREE[i])
    {
      assert FREE[i] in FREE;
    }
    forall s | 0 <= s <= 10
      ensures FullAt(disk, disk.dinodes[1].addrs[s])
    {
      AddrAt(1, s);
    }
    forall i | 0 <= i < |disk.dinodes|
      ensures |disk.dinodes[i].addrs| == NDIRECT + 1 && disk.dinodes[i].addrs[NDIRECT] == 0
    {
      AddrAt(i, NDIRECT);
    }
    assert FreeBlocks(Disk().bitmap) == {FREE[0], FREE[1], FREE[2], FREE[3]};
  }

  /** A file system on which FullTransaction can be called. */
  method SpreadDisk() returns (fs: FileSystem, f: File)
    ensures fresh(fs) && fresh(f) && fresh(f.ip)
    ensures f as object != fs && f as object != f.ip && fs as object != f.ip
    ensures fs.AtRest(f.ip) && f.off == SIZE && Spread(fs.sb, fs.Now(), fs.owner, f.ip.inum, FREE)
  {
    var disk := Disk();
    DiskSpread();
    var ip := new Inode(1, InodeAt(1));
    fs := new FileSystem(SB, disk.blocks, disk.bitmap, disk.dinodes, Owners());
    f := new File(true, ip, SIZE);
    assert fs.Now() == disk && fs.Tab(ip) == disk.dinodes;
  }
}
