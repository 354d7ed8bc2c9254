/** The layout fs.c gives a disk: block addresses of a file, its bytes, and who owns
    which block. */
module FsSpec {
  import opened Common

  const BSIZE := 512
  const NDIRECT := 12
  const NINDIRECT := BSIZE / 4
  const MAXFILE := NDIRECT + NINDIRECT
  const BPB := BSIZE * 8
  const IPB := 8

  /** The bytes of one block. */
  type Block = seq<int>

  datatype Meta = Meta(typ: int, major: int, minor: int, nlink: int)
  datatype Dinode = Dinode(meta: Meta, size: nat, addrs: seq<int>)

  /** The superblock; `datastart` is the first block behind the bitmap. */
  datatype Super = Super(size: nat, ninodes: nat, inodestart: nat, bmapstart: nat, datastart: nat)

  function IBlock(sb: Super, inum: nat): nat {
    inum / IPB + sb.inodestart
  }

  function BBlock(sb: Super, b: nat): nat {
    b / BPB + sb.bmapstart
  }

  function Zeros(): Block {
    seq(BSIZE, _ => 0)
  }

  /** Entry `i` of a block of little-endian 32-bit words. */
  function GetWord(b: Block, i: nat): int
    requires |b| == BSIZE && i < NINDIRECT
  {
    b[4 * i] + 0x100 * (b[4 * i + 1] + 0x100 * (b[4 * i + 2] + 0x100 * b[4 * i + 3]))
  }

  function PutWord(b: Block, i: nat, v: nat): (r: Block)
    requires |b| == BSIZE && i < NINDIRECT
    ensures |r| == BSIZE
  {
    var v1 := v / 0x100;
    var v2 := v1 / 0x100;
    b[4 * i := v % 0x100][4 * i + 1 := v1 % 0x100][4 * i + 2 := v2 % 0x100][4 * i + 3 := v2 / 0x100]
  }

  lemma PutGet(b: Block, i: nat, v: nat, j: nat)
    requires |b| == BSIZE && i < NINDIRECT && j < NINDIRECT
    ensures GetWord(PutWord(b, i, v), j) == if i == j then v else GetWord(b, j)
  {
  }

  function Power256(j: nat): nat {
    if j == 0 then 1 else 0x100 * Power256(j - 1)
  }

  /** The least significant byte comes first, and no other byte of the block changes. */
  lemma {:induction false} WordBytes(b: Block, i: nat, v: nat, j: nat)
    requires |b| == BSIZE && i < NINDIRECT && v < Power256(4)
    ensures j < 4 ==> PutWord(b, i, v)[4 * i + j] == v / Power256(j) % 0x100
    ensures j < BSIZE && j / 4 != i ==> PutWord(b, i, v)[j] == b[j]
  {
    assert Power256(1) == 0x100 && Power256(2) == 0x1_0000 && Power256(3) == 0x100_0000 && Power256(4) == 0x1_0000_0000;
    var v1 := v / 0x100;
    assert v1 / 0x100 == v / 0x1_0000 && v1 / 0x100 / 0x100 == v / 0x100_0000;
  }

  /** Inodes of 64 bytes lie one behind another from `inodestart` on, and so do the bits of the
      free map from `bmapstart` on: the block named is the one that the byte or bit lies in. */
  const INODESIZE := BSIZE / IPB

  lemma {:induction false} Placement(sb: Super, i: nat)
    ensures var at := sb.inodestart * BSIZE + i * INODESIZE;
      IBlock(sb, i) * BSIZE <= at && at + INODESIZE <= (IBlock(sb, i) + 1) * BSIZE
    ensures var at := sb.bmapstart * BSIZE * 8 + i; BBlock(sb, i) * BSIZE * 8 <= at < (BBlock(sb, i) + 1) * BSIZE * 8
    ensures INODESIZE == 64
  {
    var q, r := i / IPB, i % IPB;
    assert i * INODESIZE == q * BSIZE + r * INODESIZE;
  }

  /** A file's block pointers as one list in the order bmap fills it: the direct
      addresses, the address of the indirect block (slot NDIRECT), its entries. */
  const NSLOT := MAXFILE + 1

  function Slot(blocks: seq<Block>, addrs: seq<int>, s: nat): int {
    if |addrs| != NDIRECT + 1 || s >= NSLOT then 0
    else if s <= NDIRECT then addrs[s]
    else if 0 < addrs[NDIRECT] < |blocks| && |blocks[addrs[NDIRECT]]| == BSIZE
      then GetWord(blocks[addrs[NDIRECT]], s - NDIRECT - 1)
    else 0
  }

  /** The slot of file block `bn`. */
  function SlotOf(bn: nat): nat {
    if bn < NDIRECT then bn else bn + 1
  }

  /** How many slots a file of `size` bytes uses. */
  function Blocks(size: nat): nat {
    (size + BSIZE - 1) / BSIZE
  }

  function SlotsFor(size: nat): nat {
    if Blocks(size) <= NDIRECT then Blocks(size) else Blocks(size) + 1
  }

  datatype Owner = Free | Own(inum: nat, slot: nat)

  predicate InData(sb: Super, b: int) {
    sb.datastart <= b < sb.size
  }

  ghost predicate SlotOk(sb: Super, blocks: seq<Block>, owner: seq<Owner>, inum: nat, addrs: seq<int>, k: nat, s: nat) {
    var b := Slot(blocks, addrs, s);
    if s < k then InData(sb, b) && b < |owner| && owner[b] == Own(inum, s) else b == 0
  }

  /** The file's first `k` slots, and no others, hold data blocks, which it owns. */
  ghost predicate FileOk(sb: Super, blocks: seq<Block>, owner: seq<Owner>, inum: nat, addrs: seq<int>, k: nat) {
    && |addrs| == NDIRECT + 1 && k <= NSLOT
    && forall s :: 0 <= s < NSLOT ==> SlotOk(sb, blocks, owner, inum, addrs, k, s)
  }

  /** A block is marked in use exactly if it is outside the data area or some file owns
      it, and the file that owns it has it in just the slot recorded. */
  ghost predicate OwnerOk(sb: Super, blocks: seq<Block>, bitmap: seq<bool>, owner: seq<Owner>, tab: seq<Dinode>, b: nat)
    requires b < |bitmap| && b < |owner|
  {
    && (bitmap[b] <==> !InData(sb, b) || owner[b] != Free)
    && (owner[b].Own? ==> InData(sb, b) && owner[b].inum < |tab| && owner[b].slot < NSLOT
                          && Slot(blocks, tab[owner[b].inum].addrs, owner[b].slot) == b)
  }

  ghost predicate StoreOk(sb: Super, blocks: seq<Block>, bitmap: seq<bool>, owner: seq<Owner>) {
    && 0 < sb.datastart <= sb.size && |blocks| == |bitmap| == |owner| == sb.size
    && forall b :: 0 <= b < |blocks| ==> |blocks[b]| == BSIZE
  }

  function Used(tab: seq<Dinode>, inum: nat, k: nat, i: nat): nat
    requires i < |tab|
  {
    if i == inum then k else SlotsFor(tab[i].size)
  }

  /** The invariant of the file system while file `inum` uses its first `k` slots; every
      other file uses just the slots its size calls for. */
  ghost predicate FsInv(sb: Super, blocks: seq<Block>, bitmap: seq<bool>, owner: seq<Owner>, tab: seq<Dinode>,
                        inum: nat, k: nat) {
    && StoreOk(sb, blocks, bitmap, owner)
    && inum < |tab|
    && (forall i :: 0 <= i < |tab| ==>
          FileOk(sb, blocks, owner, i, tab[i].addrs, Used(tab, inum, k, i)))
    && (forall b :: 0 <= b < sb.size ==> OwnerOk(sb, blocks, bitmap, owner, tab, b))
  }

  /** Block contents and addresses after slot `k` got block `b`. */
  function StoreBlocks(blocks: seq<Block>, addrs: seq<int>, k: nat, b: nat): seq<Block>
    requires b < |blocks|
    requires NDIRECT < k < NSLOT ==>
      && |addrs| == NDIRECT + 1 && 0 <= addrs[NDIRECT] < |blocks|
      && addrs[NDIRECT] != b && |blocks[addrs[NDIRECT]]| == BSIZE
  {
    if NDIRECT < k < NSLOT
    then blocks[b := Zeros()][addrs[NDIRECT] := PutWord(blocks[addrs[NDIRECT]], k - NDIRECT - 1, b)]
    else blocks[b := Zeros()]
  }

  function StoreAddrs(addrs: seq<int>, k: nat, b: nat): seq<int>
    requires |addrs| == NDIRECT + 1
  {
    if k <= NDIRECT then addrs[k := b] else addrs
  }

  lemma {:induction false} StoredSlot(sb: Super, blocks: seq<Block>, owner: seq<Owner>, inum: nat, addrs: seq<int>,
                                      k: nat, b: nat, s: nat)
    requires FileOk(sb, blocks, owner, inum, addrs, k) && k < NSLOT && s < NSLOT
    requires 0 < sb.datastart && InData(sb, b) && |blocks| == |owner| == sb.size && owner[b] == Free
    requires forall c :: 0 <= c < |blocks| ==> |blocks[c]| == BSIZE
    ensures NDIRECT < k ==>
      0 < addrs[NDIRECT] < |blocks| && addrs[NDIRECT] != b && owner[addrs[NDIRECT]] == Own(inum, NDIRECT)
    ensures Slot(StoreBlocks(blocks, addrs, k, b), StoreAddrs(addrs, k, b), s)
         == if s == k then b else Slot(blocks, addrs, s)
  {
    assert SlotOk(sb, blocks, owner, inum, addrs, k, NDIRECT);
    assert SlotOk(sb, blocks, owner, inum, addrs, k, s);
    if k > NDIRECT && s > NDIRECT {
      PutGet(blocks[addrs[NDIRECT]], k - NDIRECT - 1, b, s - NDIRECT - 1);
    } else if k == NDIRECT && s > NDIRECT {
      assert GetWord(Zeros(), s - NDIRECT - 1) == 0;
    }
  }

  /** Giving the next slot of file `inum` a free block keeps the invariant. */
  lemma {:induction false} AllocKeeps(sb: Super, blocks: seq<Block>, bitmap: seq<bool>, owner: seq<Owner>,
                                      tab: seq<Dinode>, inum: nat, k: nat, b: nat)
    requires FsInv(sb, blocks, bitmap, owner, tab, inum, k) && k < NSLOT
    requires b < sb.size && !bitmap[b]
    ensures var addrs := tab[inum].addrs;
      && InData(sb, b) && owner[b] == Free && |addrs| == NDIRECT + 1
      && (NDIRECT < k ==> 0 <= addrs[NDIRECT] < |blocks| && addrs[NDIRECT] != b)
      && FsInv(sb, StoreBlocks(blocks, addrs, k, b), bitmap[b := true], owner[b := Own(inum, k)],
               tab[inum := tab[inum].(addrs := StoreAddrs(addrs, k, b))], inum, k + 1)
  {
    var addrs := tab[inum].addrs;
    assert OwnerOk(sb, blocks, bitmap, owner, tab, b);
    assert FileOk(sb, blocks, owner, inum, addrs, Used(tab, inum, k, inum));
    StoredSlot(sb, blocks, owner, inum, addrs, k, b, 0);
    var blocks', bitmap', owner' := StoreBlocks(blocks, addrs, k, b), bitmap[b := true], owner[b := Own(inum, k)];
    var tab' := tab[inum := tab[inum].(addrs := StoreAddrs(addrs, k, b))];
    forall i | 0 <= i < |tab'|
      ensures FileOk(sb, blocks', owner', i, tab'[i].addrs, Used(tab', inum, k + 1, i))
    {
      assert FileOk(sb, blocks, owner, i, tab[i].addrs, Used(tab, inum, k, i));
      var addrs', used := tab'[i].addrs, Used(tab', inum, k + 1, i);
      forall s | 0 <= s < NSLOT
        ensures SlotOk(sb, blocks', owner', i, addrs', used, s)
      {
        AllocSlotOk(sb, blocks, owner, tab, inum, k, b, i, s);
      }
    }
    forall c | 0 <= c < sb.size
      ensures OwnerOk(sb, blocks', bitmap', owner', tab', c)
    {
      assert OwnerOk(sb, blocks, bitmap, owner, tab, c);
      assert SlotOk(sb, blocks, owner, inum, addrs, k, k);
      var o := if c == b then Own(inum, k) else owner[c];
      if o.Own? {
        assert FileOk(sb, blocks, owner, o.inum, tab[o.inum].addrs, Used(tab, inum, k, o.inum));
        AllocSlotOk(sb, blocks, owner, tab, inum, k, b, o.inum, o.slot);
      }
    }
  }

  /** The slots of every file after the allocation. */
  lemma {:induction false} AllocSlotOk(sb: Super, blocks: seq<Block>, owner: seq<Owner>, tab: seq<Dinode>,
                                       inum: nat, k: nat, b: nat, i: nat, s: nat)
    requires inum < |tab| && i < |tab| && k < NSLOT && s < NSLOT
    requires FileOk(sb, blocks, owner, inum, tab[inum].addrs, k)
    requires FileOk(sb, blocks, owner, i, tab[i].addrs, Used(tab, inum, k, i))
    requires 0 < sb.datastart && InData(sb, b) && |blocks| == |owner| == sb.size && owner[b] == Free
    requires forall c :: 0 <= c < |blocks| ==> |blocks[c]| == BSIZE
    requires NDIRECT < k ==>
      && 0 < tab[inum].addrs[NDIRECT] < |blocks| && tab[inum].addrs[NDIRECT] != b
      && owner[tab[inum].addrs[NDIRECT]] == Own(inum, NDIRECT)
    ensures var addrs := tab[inum].addrs;
      var blocks', owner' := StoreBlocks(blocks, addrs, k, b), owner[b := Own(inum, k)];
      var tab' := tab[inum := tab[inum].(addrs := StoreAddrs(addrs, k, b))];
      && Slot(blocks', tab'[i].addrs, s) == (if i == inum && s == k then b else Slot(blocks, tab[i].addrs, s))
      && SlotOk(sb, blocks', owner', i, tab'[i].addrs, Used(tab', inum, k + 1, i), s)
  {
    assert SlotOk(sb, blocks, owner, i, tab[i].addrs, Used(tab, inum, k, i), s);
    if i == inum {
      StoredSlot(sb, blocks, owner, inum, tab[inum].addrs, k, b, s);
    } else {
      assert SlotOk(sb, blocks, owner, i, tab[i].addrs, Used(tab, inum, k, i), NDIRECT);
    }
  }

  /** The byte of the file at `pos`. */
  function ByteAt(blocks: seq<Block>, addrs: seq<int>, pos: nat): int {
    var b := Slot(blocks, addrs, SlotOf(pos / BSIZE));
    if 0 <= b < |blocks| && |blocks[b]| == BSIZE then blocks[b][pos % BSIZE] else 0
  }

  /** A file as a string of bytes. */
  function Content(blocks: seq<Block>, d: Dinode): (r: seq<int>)
    ensures |r| == d.size
  {
    seq(d.size, i requires 0 <= i => ByteAt(blocks, d.addrs, i))
  }

  /** Every byte of an allocated block of any file is the same in both states. */
  ghost predicate SameBytes(blocks: seq<Block>, tab: seq<Dinode>, inum: nat, k: nat, blocks': seq<Block>,
                            tab': seq<Dinode>) {
    && |tab'| == |tab|
    && forall i: nat, pos: nat :: i < |tab| && SlotOf(pos / BSIZE) < Used(tab, inum, k, i) ==>
         ByteAt(blocks', tab'[i].addrs, pos) == ByteAt(blocks, tab[i].addrs, pos)
  }

  lemma {:induction false} AllocBytes(sb: Super, blocks: seq<Block>, bitmap: seq<bool>, owner: seq<Owner>,
                                      tab: seq<Dinode>, inum: nat, k: nat, b: nat)
    requires FsInv(sb, blocks, bitmap, owner, tab, inum, k) && k < NSLOT
    requires b < sb.size && !bitmap[b]
    requires |tab[inum].addrs| == NDIRECT + 1
    requires NDIRECT < k ==> 0 <= tab[inum].addrs[NDIRECT] < |blocks| && tab[inum].addrs[NDIRECT] != b
    ensures SameBytes(blocks, tab, inum, k, StoreBlocks(blocks, tab[inum].addrs, k, b),
                      tab[inum := tab[inum].(addrs := StoreAddrs(tab[inum].addrs, k, b))])
  {
    var addrs := tab[inum].addrs;
    var blocks' := StoreBlocks(blocks, addrs, k, b);
    var tab' := tab[inum := tab[inum].(addrs := StoreAddrs(addrs, k, b))];
    assert OwnerOk(sb, blocks, bitmap, owner, tab, b);
    assert FileOk(sb, blocks, owner, inum, addrs, Used(tab, inum, k, inum));
    StoredSlot(sb, blocks, owner, inum, addrs, k, b, 0);
    forall i: nat, pos: nat | i < |tab| && SlotOf(pos / BSIZE) < Used(tab, inum, k, i)
      ensures ByteAt(blocks', tab'[i].addrs, pos) == ByteAt(blocks, tab[i].addrs, pos)
    {
      var s := SlotOf(pos / BSIZE);
      assert FileOk(sb, blocks, owner, i, tab[i].addrs, Used(tab, inum, k, i));
      assert SlotOk(sb, blocks, owner, i, tab[i].addrs, Used(tab, inum, k, i), s);
      AllocSlotOk(sb, blocks, owner, tab, inum, k, b, i, s);
    }
  }

  /** Overwriting the data of file block `bn` keeps the invariant and changes no other byte. */
  lemma {:induction false} PatchKeeps(sb: Super, blocks: seq<Block>, bitmap: seq<bool>, owner: seq<Owner>,
                                      tab: seq<Dinode>, inum: nat, k: nat, bn: nat, data: Block)
    requires FsInv(sb, blocks, bitmap, owner, tab, inum, k)
    requires SlotOf(bn) < k && |data| == BSIZE
    ensures var b := Slot(blocks, tab[inum].addrs, SlotOf(bn));
      && 0 <= b < |blocks|
      && FsInv(sb, blocks[b := data], bitmap, owner, tab, inum, k)
      && forall i: nat, pos: nat :: i < |tab| && SlotOf(pos / BSIZE) < Used(tab, inum, k, i) ==>
           ByteAt(blocks[b := data], tab[i].addrs, pos)
           == if i == inum && pos / BSIZE == bn then data[pos % BSIZE] else ByteAt(blocks, tab[i].addrs, pos)
  {
    var addrs := tab[inum].addrs;
    assert FileOk(sb, blocks, owner, inum, addrs, Used(tab, inum, k, inum));
    assert SlotOk(sb, blocks, owner, inum, addrs, k, SlotOf(bn));
    var b := Slot(blocks, addrs, SlotOf(bn));
    var blocks' := blocks[b := data];
    forall i | 0 <= i < |tab|
      ensures FileOk(sb, blocks', owner, i, tab[i].addrs, Used(tab, inum, k, i))
    {
      PatchFile(sb, blocks, owner, tab, inum, k, bn, data, i);
    }
    forall c | 0 <= c < sb.size
      ensures OwnerOk(sb, blocks', bitmap, owner, tab, c)
    {
      assert OwnerOk(sb, blocks, bitmap, owner, tab, c);
      if owner[c].Own? {
        PatchFile(sb, blocks, owner, tab, inum, k, bn, data, owner[c].inum);
      }
    }
    forall i: nat, pos: nat | i < |tab| && SlotOf(pos / BSIZE) < Used(tab, inum, k, i)
      ensures ByteAt(blocks', tab[i].addrs, pos)
           == if i == inum && pos / BSIZE == bn then data[pos % BSIZE] else ByteAt(blocks, tab[i].addrs, pos)
    {
      PatchFile(sb, blocks, owner, tab, inum, k, bn, data, i);
      assert SlotOk(sb, blocks, owner, i, tab[i].addrs, Used(tab, inum, k, i), SlotOf(pos / BSIZE));
    }
  }

  lemma {:induction false} PatchFile(sb: Super, blocks: seq<Block>, owner: seq<Owner>, tab: seq<Dinode>,
                                     inum: nat, k: nat, bn: nat, data: Block, i: nat)
    requires inum < |tab| && i < |tab| && SlotOf(bn) < k && |data| == BSIZE
    requires |blocks| == |owner| == sb.size && 0 < sb.datastart
    requires forall j :: 0 <= j < |tab| ==> FileOk(sb, blocks, owner, j, tab[j].addrs, Used(tab, inum, k, j))
    ensures var b := Slot(blocks, tab[inum].addrs, SlotOf(bn));
      && 0 <= b < |blocks|
      && (forall s: nat :: s < NSLOT ==> Slot(blocks[b := data], tab[i].addrs, s) == Slot(blocks, tab[i].addrs, s))
      && FileOk(sb, blocks[b := data], owner, i, tab[i].addrs, Used(tab, inum, k, i))
  {
    var b := Slot(blocks, tab[inum].addrs, SlotOf(bn));
    assert FileOk(sb, blocks, owner, inum, tab[inum].addrs, Used(tab, inum, k, inum));
    assert SlotOk(sb, blocks, owner, inum, tab[inum].addrs, k, SlotOf(bn));
    var used, addrs := Used(tab, inum, k, i), tab[i].addrs;
    assert FileOk(sb, blocks, owner, i, addrs, used);
    assert SlotOk(sb, blocks, owner, i, addrs, used, NDIRECT);
    assert addrs[NDIRECT] != b;
    var blocks' := blocks[b := data];
    forall s | 0 <= s < NSLOT
      ensures Slot(blocks', addrs, s) == Slot(blocks, addrs, s)
      ensures SlotOk(sb, blocks', owner, i, addrs, used, s)
    {
      assert SlotOk(sb, blocks, owner, i, addrs, used, s);
    }
  }

  /** Whether a slot of the current file is used can be read off the slot. */
  lemma SlotFacts(sb: Super, blocks: seq<Block>, bitmap: seq<bool>, owner: seq<Owner>, tab: seq<Dinode>, inum: nat,
                  k: nat, s: nat)
    requires FsInv(sb, blocks, bitmap, owner, tab, inum, k) && s < NSLOT
    ensures |tab[inum].addrs| == NDIRECT + 1 && k <= NSLOT
    ensures |blocks| == |bitmap| == sb.size && forall b :: 0 <= b < |blocks| ==> |blocks[b]| == BSIZE
    ensures var b := Slot(blocks, tab[inum].addrs, s); if s < k then 0 < b < |blocks| && InData(sb, b) else b == 0
  {
    assert FileOk(sb, blocks, owner, inum, tab[inum].addrs, Used(tab, inum, k, inum));
    assert SlotOk(sb, blocks, owner, inum, tab[inum].addrs, k, s);
  }

  lemma SameBytesTrans(blocks: seq<Block>, tab: seq<Dinode>, inum: nat, k: nat, blocks1: seq<Block>, tab1: seq<Dinode>,
                       k1: nat, blocks2: seq<Block>, tab2: seq<Dinode>)
    requires SameBytes(blocks, tab, inum, k, blocks1, tab1) && SameBytes(blocks1, tab1, inum, k1, blocks2, tab2)
    requires k <= k1 && forall i :: 0 <= i < |tab| ==> tab1[i].size == tab[i].size
    ensures SameBytes(blocks, tab, inum, k, blocks2, tab2)
  {
    forall i: nat, pos: nat | i < |tab| && SlotOf(pos / BSIZE) < Used(tab, inum, k, i)
      ensures ByteAt(blocks2, tab2[i].addrs, pos) == ByteAt(blocks, tab[i].addrs, pos)
    {
      assert SlotOf(pos / BSIZE) < Used(tab1, inum, k1, i);
    }
  }

  lemma SameBytesSelf(blocks: seq<Block>, tab: seq<Dinode>, inum: nat, k: nat)
    ensures SameBytes(blocks, tab, inum, k, blocks, tab)
  {
  }

  /** After the first `tot` bytes of `src` went to offset `off` of file `inum`: these bytes
      are there, and every other byte of an allocated block, of any file, is as it was. */
  ghost predicate Written(blocks0: seq<Block>, tab0: seq<Dinode>, inum: nat, k0: nat, off: nat, src: seq<int>, tot: nat,
                          blocks: seq<Block>, tab: seq<Dinode>, k: nat)
    requires inum < |tab0|
  {
    && |tab| == |tab0| && k0 <= k && tot <= |src|
    && (forall i :: 0 <= i < |tab| ==> tab[i].size == tab0[i].size)
    && (forall x: nat :: x < tot ==> ByteIs(blocks, tab[inum].addrs, k, off + x, src[x]))
    && (forall i: nat, pos: nat :: i < |tab0| && !(i == inum && off <= pos < off + tot) ==>
          ByteKept(blocks0, tab0[i].addrs, Used(tab0, inum, k0, i), blocks, tab[i].addrs, pos))
  }

  /** The byte at `pos` is in one of the first `k` slots and is `v`. */
  predicate ByteIs(blocks: seq<Block>, addrs: seq<int>, k: nat, pos: nat, v: int) {
    SlotOf(pos / BSIZE) < k && ByteAt(blocks, addrs, pos) == v
  }

  /** The byte at `pos`, if it was in one of the first `used` slots, is what it was. */
  predicate ByteKept(blocks0: seq<Block>, addrs0: seq<int>, used: nat, blocks: seq<Block>, addrs: seq<int>, pos: nat) {
    SlotOf(pos / BSIZE) < used ==> ByteAt(blocks, addrs, pos) == ByteAt(blocks0, addrs0, pos)
  }

  /** `m` bytes of `src` from `tot` on copied into a block at `o`. */
  function Patched(b: Block, o: nat, src: seq<int>, tot: nat, m: nat): Block
    requires |b| == BSIZE && o + m <= BSIZE && tot + m <= |src|
  {
    b[..o] + src[tot..tot + m] + b[o + m..]
  }

  /** What the copy of `m` bytes to file position `at` does to every byte. */
  lemma {:induction false} PatchedByte(sb: Super, blocks: seq<Block>, bitmap: seq<bool>, owner: seq<Owner>,
                                       tab: seq<Dinode>,
                                       inum: nat, k: nat, at: nat, src: seq<int>, tot: nat, m: nat, i: nat, pos: nat)
    requires FsInv(sb, blocks, bitmap, owner, tab, inum, k) && SlotOf(at / BSIZE) < k
    requires 0 < m && tot + m <= |src| && at % BSIZE + m <= BSIZE
    requires i < |tab| && inum < |tab| && SlotOf(pos / BSIZE) < Used(tab, inum, k, i)
    ensures var b := Slot(blocks, tab[inum].addrs, SlotOf(at / BSIZE));
      && 0 <= b < |blocks| && |blocks[b]| == BSIZE
      && ByteAt(blocks[b := Patched(blocks[b], at % BSIZE, src, tot, m)], tab[i].addrs, pos)
         == if i == inum && at <= pos < at + m then src[tot + (pos - at)] else ByteAt(blocks, tab[i].addrs, pos)
  {
    hide FsInv;
    var bn, o := at / BSIZE, at % BSIZE;
    FileBlockFacts(sb, blocks, bitmap, owner, tab, inum, k, bn);
    var b := Slot(blocks, tab[inum].addrs, SlotOf(bn));
    var data := Patched(blocks[b], o, src, tot, m);
    PatchKeeps(sb, blocks, bitmap, owner, tab, inum, k, bn, data);
    if i == inum && pos / BSIZE == bn {
      assert pos == bn * BSIZE + pos % BSIZE && at == bn * BSIZE + o;
    }
  }

  lemma SameBlock(at: nat, d: nat, m: nat)
    requires d < m && at % BSIZE + m <= BSIZE
    ensures (at + d) / BSIZE == at / BSIZE
  {
  }

  /** One round of writei's loop. */
  lemma {:induction false} WrittenStep(
      blocks0: seq<Block>, tab0: seq<Dinode>, inum: nat, k0: nat, off: nat, src: seq<int>, tot: nat,
      blocks: seq<Block>, tab: seq<Dinode>, k: nat, blocks1: seq<Block>, tab1: seq<Dinode>, k1: nat,
      sb: Super, bitmap: seq<bool>, owner: seq<Owner>, m: nat)
    requires inum < |tab0| && Written(blocks0, tab0, inum, k0, off, src, tot, blocks, tab, k)
    requires SameBytes(blocks, tab, inum, k, blocks1, tab1) && k <= k1
    requires forall i :: 0 <= i < |tab1| ==> tab1[i].size == tab0[i].size
    requires FsInv(sb, blocks1, bitmap, owner, tab1, inum, k1) && SlotOf((off + tot) / BSIZE) < k1
    requires 0 < m && tot + m <= |src| && (off + tot) % BSIZE + m <= BSIZE
    ensures var b := Slot(blocks1, tab1[inum].addrs, SlotOf((off + tot) / BSIZE));
      && 0 <= b < |blocks1| && |blocks1[b]| == BSIZE
      && var blocks2 := blocks1[b := Patched(blocks1[b], (off + tot) % BSIZE, src, tot, m)];
         && FsInv(sb, blocks2, bitmap, owner, tab1, inum, k1)
         && Written(blocks0, tab0, inum, k0, off, src, tot + m, blocks2, tab1, k1)
  {
    StillWritten(blocks0, tab0, inum, k0, off, src, tot, blocks, tab, k, blocks1, tab1, k1);
    PatchWritten(blocks0, tab0, inum, k0, off, src, tot, blocks1, tab1, k1, sb, bitmap, owner, m);
  }

  /** The round's copy. */
  lemma {:induction false} PatchWritten(
      blocks0: seq<Block>, tab0: seq<Dinode>, inum: nat, k0: nat, off: nat, src: seq<int>, tot: nat,
      blocks: seq<Block>, tab: seq<Dinode>, k: nat, sb: Super, bitmap: seq<bool>, owner: seq<Owner>, m: nat)
    requires inum < |tab0| && Written(blocks0, tab0, inum, k0, off, src, tot, blocks, tab, k)
    requires FsInv(sb, blocks, bitmap, owner, tab, inum, k) && SlotOf((off + tot) / BSIZE) < k
    requires 0 < m && tot + m <= |src| && (off + tot) % BSIZE + m <= BSIZE
    ensures var b := Slot(blocks, tab[inum].addrs, SlotOf((off + tot) / BSIZE));
      && 0 <= b < |blocks| && |blocks[b]| == BSIZE
      && var blocks' := blocks[b := Patched(blocks[b], (off + tot) % BSIZE, src, tot, m)];
         && FsInv(sb, blocks', bitmap, owner, tab, inum, k)
         && Written(blocks0, tab0, inum, k0, off, src, tot + m, blocks', tab, k)
  {
    hide FsInv, ByteAt, Slot, SlotOf, Patched;
    var at := off + tot;
    FileBlockFacts(sb, blocks, bitmap, owner, tab, inum, k, at / BSIZE);
    var b := Slot(blocks, tab[inum].addrs, SlotOf(at / BSIZE));
    var data := Patched(blocks[b], at % BSIZE, src, tot, m);
    PatchedLength(blocks[b], at % BSIZE, src, tot, m);
    PatchKeeps(sb, blocks, bitmap, owner, tab, inum, k, at / BSIZE, data);
    var blocks' := blocks[b := data];
    forall x: nat | x < tot + m
      ensures ByteIs(blocks', tab[inum].addrs, k, off + x, src[x])
    {
      if x >= tot {
        SameBlock(at, x - tot, m);
        assert off + x == at + (x - tot);
      } else {
        assert ByteIs(blocks, tab[inum].addrs, k, off + x, src[x]);
      }
      PatchedByte(sb, blocks, bitmap, owner, tab, inum, k, at, src, tot, m, inum, off + x);
    }
    forall i: nat, pos: nat | i < |tab0| && !(i == inum && off <= pos < off + tot + m)
      ensures ByteKept(blocks0, tab0[i].addrs, Used(tab0, inum, k0, i), blocks', tab[i].addrs, pos)
    {
      assert ByteKept(blocks0, tab0[i].addrs, Used(tab0, inum, k0, i), blocks, tab[i].addrs, pos);
      if SlotOf(pos / BSIZE) < Used(tab0, inum, k0, i) {
        UsedMore(tab0, tab, inum, k0, k, i);
        PatchedByte(sb, blocks, bitmap, owner, tab, inum, k, at, src, tot, m, i, pos);
      }
    }
  }

  lemma UsedMore(tab: seq<Dinode>, tab': seq<Dinode>, inum: nat, k: nat, k': nat, i: nat)
    requires i < |tab| == |tab'| && tab'[i].size == tab[i].size && k <= k'
    ensures Used(tab, inum, k, i) <= Used(tab', inum, k', i)
  {
  }

  lemma PatchedLength(b: Block, o: nat, src: seq<int>, tot: nat, m: nat)
    requires |b| == BSIZE && o + m <= BSIZE && tot + m <= |src|
    ensures |Patched(b, o, src, tot, m)| == BSIZE
  {
  }

  /** The round's bmap changes no byte. */
  lemma {:induction false} StillWritten(
      blocks0: seq<Block>, tab0: seq<Dinode>, inum: nat, k0: nat, off: nat, src: seq<int>, tot: nat,
      blocks: seq<Block>, tab: seq<Dinode>, k: nat, blocks1: seq<Block>, tab1: seq<Dinode>, k1: nat)
    requires inum < |tab0| && Written(blocks0, tab0, inum, k0, off, src, tot, blocks, tab, k)
    requires SameBytes(blocks, tab, inum, k, blocks1, tab1) && k <= k1
    requires forall i :: 0 <= i < |tab1| ==> tab1[i].size == tab0[i].size
    ensures Written(blocks0, tab0, inum, k0, off, src, tot, blocks1, tab1, k1)
  {
    hide ByteAt, Slot, SlotOf;
    forall x: nat | x < tot
      ensures ByteIs(blocks1, tab1[inum].addrs, k1, off + x, src[x])
    {
      assert ByteIs(blocks, tab[inum].addrs, k, off + x, src[x]);
      assert SlotOf((off + x) / BSIZE) < Used(tab, inum, k, inum);
    }
    forall i: nat, pos: nat | i < |tab0| && !(i == inum && off <= pos < off + tot)
      ensures ByteKept(blocks0, tab0[i].addrs, Used(tab0, inum, k0, i), blocks1, tab1[i].addrs, pos)
    {
      assert ByteKept(blocks0, tab0[i].addrs, Used(tab0, inum, k0, i), blocks, tab[i].addrs, pos);
      UsedMore(tab0, tab, inum, k0, k, i);
    }
  }

  lemma FileBlockFacts(sb: Super, blocks: seq<Block>, bitmap: seq<bool>, owner: seq<Owner>, tab: seq<Dinode>,
                       inum: nat, k: nat, bn: nat)
    requires FsInv(sb, blocks, bitmap, owner, tab, inum, k) && SlotOf(bn) < k
    ensures SlotOf(bn) < NSLOT
    ensures var b := Slot(blocks, tab[inum].addrs, SlotOf(bn));
            0 < b < |blocks| && InData(sb, b) && |blocks[b]| == BSIZE
  {
    assert FileOk(sb, blocks, owner, inum, tab[inum].addrs, Used(tab, inum, k, inum));
    SlotFacts(sb, blocks, bitmap, owner, tab, inum, k, SlotOf(bn));
  }

  /** The bytes of a file after `src` was written at offset `off`. */
  function Splice(file: seq<int>, off: nat, src: seq<int>): seq<int>
    requires off <= |file|
  {
    file[..off] + src + if off + |src| < |file| then file[off + |src|..] else []
  }

  /** Each byte is the new one in the range written and the old one elsewhere, so reading the
      range gives back what was written. */
  lemma {:induction false} SpliceReads(file: seq<int>, off: nat, src: seq<int>)
    requires off <= |file|
    ensures var r := Splice(file, off, src);
      && |r| == Max(|file|, off + |src|) && r[off..off + |src|] == src
      && forall x :: 0 <= x < |r| && !(off <= x < off + |src|) ==> x < |file| && r[x] == file[x]
  {
    var r := Splice(file, off, src);
    assert forall x :: 0 <= x < |src| ==> r[off..off + |src|][x] == src[x];
  }

  /** How the slots in use grow with one round of writei. */
  lemma SlotsStep(size: nat, at: nat, m: nat)
    requires 0 < m && at % BSIZE + m <= BSIZE
    ensures var k := SlotsFor(Max(size, at));
      SlotsFor(Max(size, at + m)) == if k <= SlotOf(at / BSIZE) then SlotOf(at / BSIZE) + 1 else k
    ensures at <= size ==> at / BSIZE <= Blocks(size)
    ensures SlotsFor(size) != NDIRECT + 1
  {
  }

  /** The file block a byte below the size is in has a slot. */
  lemma SlotInUse(size: nat, pos: nat)
    requires pos < size
    ensures SlotOf(pos / BSIZE) < SlotsFor(size)
  {
  }

  /** The blocks that `t` bytes from `off` on touch. */
  function Rounds(off: nat, t: nat): nat {
    if t == 0 then 0 else (off + t - 1) / BSIZE - off / BSIZE + 1
  }

  lemma RoundsStep(off: nat, t: nat, m: nat)
    requires t > 0 ==> (off + t) % BSIZE == 0
    requires 0 < m && (off + t) % BSIZE + m <= BSIZE
    ensures Rounds(off, t + m) == Rounds(off, t) + 1
  {
  }

  /** What a whole write means for the files as byte strings. */
  lemma {:induction false} WrittenContent(blocks0: seq<Block>, tab0: seq<Dinode>, inum: nat, off: nat, src: seq<int>,
                                          blocks: seq<Block>, tab: seq<Dinode>, k: nat)
    requires inum < |tab0| && Written(blocks0, tab0, inum, SlotsFor(tab0[inum].size), off, src, |src|, blocks, tab, k)
    requires off <= tab0[inum].size
    ensures Content(blocks, tab[inum].(size := Max(tab0[inum].size, off + |src|)))
         == Splice(Content(blocks0, tab0[inum]), off, src)
    ensures forall i :: 0 <= i < |tab0| && i != inum ==> Content(blocks, tab[i]) == Content(blocks0, tab0[i])
  {
    hide ByteAt, SlotOf, SlotsFor;
    var size, k0 := tab0[inum].size, SlotsFor(tab0[inum].size);
    var c0 := Content(blocks0, tab0[inum]);
    var c := Content(blocks, tab[inum].(size := Max(size, off + |src|)));
    forall pos: nat | pos < |c|
      ensures c[pos] == Splice(c0, off, src)[pos]
    {
      if off <= pos < off + |src| {
        assert ByteIs(blocks, tab[inum].addrs, k, off + (pos - off), src[pos - off]);
      } else {
        SlotInUse(size, pos);
        assert ByteKept(blocks0, tab0[inum].addrs, Used(tab0, inum, k0, inum), blocks, tab[inum].addrs, pos);
      }
    }
    assert c == Splice(c0, off, src);
    forall i | 0 <= i < |tab0| && i != inum
      ensures Content(blocks, tab[i]) == Content(blocks0, tab0[i])
    {
      forall pos: nat | pos < tab[i].size
        ensures Content(blocks, tab[i])[pos] == Content(blocks0, tab0[i])[pos]
      {
        SlotInUse(tab0[i].size, pos);
        assert ByteKept(blocks0, tab0[i].addrs, Used(tab0, inum, k0, i), blocks, tab[i].addrs, pos);
      }
    }
  }

  /** The size of the file being changed is not part of the invariant. */
  lemma {:induction false} SetSize(sb: Super, blocks: seq<Block>, bitmap: seq<bool>, owner: seq<Owner>,
                                   tab: seq<Dinode>, inum: nat, k: nat, size: nat)
    requires FsInv(sb, blocks, bitmap, owner, tab, inum, k)
    ensures FsInv(sb, blocks, bitmap, owner, tab[inum := tab[inum].(size := size)], inum, k)
  {
    var tab' := tab[inum := tab[inum].(size := size)];
    forall i | 0 <= i < |tab'|
      ensures FileOk(sb, blocks, owner, i, tab'[i].addrs, Used(tab', inum, k, i))
    {
      assert FileOk(sb, blocks, owner, i, tab[i].addrs, Used(tab, inum, k, i));
    }
    forall b | 0 <= b < sb.size
      ensures OwnerOk(sb, blocks, bitmap, owner, tab', b)
    {
      assert OwnerOk(sb, blocks, bitmap, owner, tab, b);
    }
  }

  /** Nothing is written yet. */
  lemma WrittenNone(blocks: seq<Block>, tab: seq<Dinode>, inum: nat, k: nat, off: nat, src: seq<int>)
    requires inum < |tab|
    ensures Written(blocks, tab, inum, k, off, src, 0, blocks, tab, k)
  {
  }

  /** Whether block `b` is in one of the slots `done` of the file. */
  predicate HeldIn(owner: seq<Owner>, inum: nat, done: set<nat>, b: nat)
    requires b < |owner|
  {
    owner[b].Own? && owner[b].inum == inum && owner[b].slot in done
  }

  /** The free map after the blocks in the slots `done` of the file were freed. */
  ghost predicate Freed(bitmap0: seq<bool>, owner: seq<Owner>, inum: nat, done: set<nat>, bitmap: seq<bool>) {
    && |bitmap| == |bitmap0| == |owner|
    && forall b :: 0 <= b < |bitmap| ==> bitmap[b] == (bitmap0[b] && !HeldIn(owner, inum, done, b))
  }

  /** Freeing one more slot: its block is still marked, so bfree does not panic. */
  lemma {:induction false} FreedStep(sb: Super, blocks: seq<Block>, bitmap0: seq<bool>, owner: seq<Owner>,
                                     tab: seq<Dinode>, inum: nat, k: nat, done: set<nat>, s: nat, bitmap: seq<bool>)
    requires FsInv(sb, blocks, bitmap0, owner, tab, inum, k) && s < NSLOT && s !in done
    requires Freed(bitmap0, owner, inum, done, bitmap)
    ensures var b := Slot(blocks, tab[inum].addrs, s);
      if s < k then 0 < b < |bitmap| && bitmap[b] && Freed(bitmap0, owner, inum, done + {s}, bitmap[b := false])
      else b == 0 && Freed(bitmap0, owner, inum, done + {s}, bitmap)
  {
    var addrs := tab[inum].addrs;
    assert FileOk(sb, blocks, owner, inum, addrs, Used(tab, inum, k, inum));
    assert SlotOk(sb, blocks, owner, inum, addrs, k, s);
    var b := Slot(blocks, addrs, s);
    var bitmap' := if s < k then bitmap[b := false] else bitmap;
    if s < k {
      assert OwnerOk(sb, blocks, bitmap0, owner, tab, b);
    }
    forall c | 0 <= c < |bitmap'|
      ensures bitmap'[c] == (bitmap0[c] && !HeldIn(owner, inum, done + {s}, c))
    {
      assert OwnerOk(sb, blocks, bitmap0, owner, tab, c);
    }
  }

  lemma FreedNone(bitmap: seq<bool>, owner: seq<Owner>, inum: nat)
    requires |bitmap| == |owner|
    ensures Freed(bitmap, owner, inum, {}, bitmap)
  {
  }

  function ReleasedOwner(o: Owner, inum: nat): Owner {
    if o.Own? && o.inum == inum then Free else o
  }

  function Released(owner: seq<Owner>, inum: nat): (r: seq<Owner>)
    ensures |r| == |owner|
  {
    seq(|owner|, b requires 0 <= b < |owner| => ReleasedOwner(owner[b], inum))
  }

  const NOADDRS: seq<int> := [0, 0, 0, 0, 0, 0, 0, 0, 0, 0, 0, 0, 0]

  /** With every slot freed and every address cleared, the file is empty and the rest of
      the file system as before. */
  lemma {:induction false} TruncKeeps(sb: Super, blocks: seq<Block>, bitmap0: seq<bool>, owner: seq<Owner>,
                                      tab: seq<Dinode>, inum: nat, k: nat, done: set<nat>, bitmap: seq<bool>, size: nat)
    requires FsInv(sb, blocks, bitmap0, owner, tab, inum, k)
    requires Freed(bitmap0, owner, inum, done, bitmap) && forall s: nat :: s < NSLOT ==> s in done
    ensures FsInv(sb, blocks, bitmap, Released(owner, inum),
                  tab[inum := tab[inum].(addrs := NOADDRS, size := size)], inum, 0)
  {
    var owner', tab' := Released(owner, inum), tab[inum := tab[inum].(addrs := NOADDRS, size := size)];
    forall i | 0 <= i < |tab'|
      ensures FileOk(sb, blocks, owner', i, tab'[i].addrs, Used(tab', inum, 0, i))
    {
      assert FileOk(sb, blocks, owner, i, tab[i].addrs, Used(tab, inum, k, i));
      var addrs', used := tab'[i].addrs, Used(tab', inum, 0, i);
      forall s | 0 <= s < NSLOT
        ensures SlotOk(sb, blocks, owner', i, addrs', used, s)
      {
        if i != inum {
          assert SlotOk(sb, blocks, owner, i, tab[i].addrs, Used(tab, inum, k, i), s);
        }
      }
    }
    forall b | 0 <= b < sb.size
      ensures OwnerOk(sb, blocks, bitmap, owner', tab', b)
    {
      assert OwnerOk(sb, blocks, bitmap0, owner, tab, b);
      assert owner[b].Own? ==> owner[b].slot in done;
    }
  }

  /** Slots that are not in use need no freeing. */
  lemma {:induction false} FreedRest(sb: Super, blocks: seq<Block>, bitmap0: seq<bool>, owner: seq<Owner>,
                                     tab: seq<Dinode>,
                                     inum: nat, k: nat, done: set<nat>, bitmap: seq<bool>, all: set<nat>)
    requires FsInv(sb, blocks, bitmap0, owner, tab, inum, k) && Freed(bitmap0, owner, inum, done, bitmap)
    requires done <= all && forall s: nat :: s < k ==> s in done
    ensures Freed(bitmap0, owner, inum, all, bitmap)
  {
    assert FileOk(sb, blocks, owner, inum, tab[inum].addrs, Used(tab, inum, k, inum));
    forall b | 0 <= b < |bitmap|
      ensures bitmap[b] == (bitmap0[b] && !HeldIn(owner, inum, all, b))
    {
      assert OwnerOk(sb, blocks, bitmap0, owner, tab, b);
      if HeldIn(owner, inum, all, b) {
        assert SlotOk(sb, blocks, owner, inum, tab[inum].addrs, k, owner[b].slot);
      }
    }
  }

  ghost predicate Refers(blocks: seq<Block>, tab: seq<Dinode>, i: nat, s: nat, b: nat) {
    i < |tab| && s < NSLOT && Slot(blocks, tab[i].addrs, s) == b
  }

  /** Block conservation. Between operations a data block is marked in use exactly if some
      block pointer refers to it, no two pointers refer to the same block, and a file has
      a block for just the parts below its size. */
  lemma {:induction false} BlockConservation(sb: Super, blocks: seq<Block>, bitmap: seq<bool>, owner: seq<Owner>,
                                             tab: seq<Dinode>, inum: nat)
    requires inum < |tab| && FsInv(sb, blocks, bitmap, owner, tab, inum, SlotsFor(tab[inum].size))
    ensures forall b: nat :: b < |bitmap| && InData(sb, b) ==>
      (bitmap[b] <==> exists i, s :: Refers(blocks, tab, i, s, b))
    ensures forall i: nat, s: nat, j: nat, t: nat, b: nat ::
      Refers(blocks, tab, i, s, b) && Refers(blocks, tab, j, t, b) && b > 0 ==> i == j && s == t
    ensures forall i: nat, bn: nat :: i < |tab| && bn < MAXFILE ==>
      (Slot(blocks, tab[i].addrs, SlotOf(bn)) != 0 <==> bn < Blocks(tab[i].size))
  {
    forall i: nat, s: nat, b: nat | Refers(blocks, tab, i, s, b)
      ensures b > 0 ==> b < |owner| && owner[b] == Own(i, s)
      ensures b > 0 <==> s < SlotsFor(tab[i].size)
    {
      assert FileOk(sb, blocks, owner, i, tab[i].addrs, Used(tab, inum, SlotsFor(tab[inum].size), i));
      assert SlotOk(sb, blocks, owner, i, tab[i].addrs, SlotsFor(tab[i].size), s);
    }
    forall b: nat | b < |bitmap| && InData(sb, b)
      ensures bitmap[b] <==> exists i, s :: Refers(blocks, tab, i, s, b)
    {
      assert OwnerOk(sb, blocks, bitmap, owner, tab, b);
      if bitmap[b] {
        assert Refers(blocks, tab, owner[b].inum, owner[b].slot, b);
      }
    }
    forall i: nat, bn: nat | i < |tab| && bn < MAXFILE
      ensures Slot(blocks, tab[i].addrs, SlotOf(bn)) != 0 <==> bn < Blocks(tab[i].size)
    {
      assert FileOk(sb, blocks, owner, i, tab[i].addrs, Used(tab, inum, SlotsFor(tab[inum].size), i));
      assert SlotOk(sb, blocks, owner, i, tab[i].addrs, SlotsFor(tab[i].size), SlotOf(bn));
    }
  }

  /** Every file but `inum` holds the same bytes in both states. */
  ghost predicate OthersKept(inum: nat, blocks: seq<Block>, tab: seq<Dinode>, blocks': seq<Block>, tab': seq<Dinode>) {
    && |tab'| == |tab|
    && forall i :: 0 <= i < |tab| && i != inum ==>
         tab'[i].size == tab[i].size && Content(blocks', tab'[i]) == Content(blocks, tab[i])
  }
}
