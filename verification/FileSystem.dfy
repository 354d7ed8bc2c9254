/** The block and inode operations of fs.c. A block read with bread and changed is the
    entry of `blocks`, and the blocks passed to log_write are collected in `logged`. */
module FileSystems {
  import opened Common
  import opened FsSpec

  /** What the disk will hold once the transaction is committed, and the blocks logged in it. */
  datatype Image = Image(blocks: seq<Block>, bitmap: seq<bool>, dinodes: seq<Dinode>, logged: set<nat>)

  /** A data block, a bitmap block or an inode block. */
  predicate InLayout(sb: Super, im: Image, c: nat) {
    || InData(sb, c)
    || (|im.bitmap| > 0 && sb.bmapstart <= c <= BBlock(sb, |im.bitmap| - 1))
    || (|im.dinodes| > 0 && sb.inodestart <= c <= IBlock(sb, |im.dinodes| - 1))
  }

  /** Every block that changed from the first state to the second is logged: data blocks,
      bitmap blocks and inode blocks; and no other block is. */
  ghost predicate Recorded(sb: Super, a: Image, b: Image) {
    && |b.blocks| == |a.blocks| && |b.bitmap| == |a.bitmap| && |b.dinodes| == |a.dinodes| && a.logged <= b.logged
    && (forall c: nat :: c < |a.blocks| && b.blocks[c] != a.blocks[c] ==> c in b.logged)
    && (forall c: nat :: c < |a.bitmap| && b.bitmap[c] != a.bitmap[c] ==> BBlock(sb, c) in b.logged)
    && (forall i: nat :: i < |a.dinodes| && b.dinodes[i] != a.dinodes[i] ==> IBlock(sb, i) in b.logged)
    && (forall c: nat :: c in b.logged && c !in a.logged ==> InLayout(sb, a, c))
  }

  lemma BitmapBlock(sb: Super, im: Image, x: nat)
    requires x < |im.bitmap|
    ensures InLayout(sb, im, BBlock(sb, x))
  {
    assert x / BPB <= (|im.bitmap| - 1) / BPB;
  }

  lemma InodeBlock(sb: Super, im: Image, i: nat)
    requires i < |im.dinodes|
    ensures InLayout(sb, im, IBlock(sb, i))
  {
    assert i / IPB <= (|im.dinodes| - 1) / IPB;
  }

  /** What an allocation of block `x` logs; `y` is the block of the pointer to it, if that is a
      block. */
  lemma AllocRecorded(sb: Super, a: Image, b: Image, x: nat, y: nat)
    requires x < |a.bitmap| == |a.blocks| && InData(sb, x) && InData(sb, y) && b.dinodes == a.dinodes
    requires b.bitmap == a.bitmap[x := true] && |b.blocks| == |a.blocks|
    requires forall c :: 0 <= c < |a.blocks| && c != x && c != y ==> b.blocks[c] == a.blocks[c]
    requires b.logged == a.logged + {BBlock(sb, x), x, y}
    ensures Recorded(sb, a, b)
  {
    BitmapBlock(sb, a, x);
  }

  lemma RecordedSelf(sb: Super, a: Image)
    ensures Recorded(sb, a, a)
  {
  }

  lemma RecordedTrans(sb: Super, a: Image, b: Image, c: Image)
    requires Recorded(sb, a, b) && Recorded(sb, b, c)
    ensures Recorded(sb, a, c)
  {
  }

  /** What writei started from. */
  datatype Start = Start(size: nat, addrs: seq<int>, tab: seq<Dinode>, image: Image)

  /** The in-memory copy of an inode, held locked. */
  class Inode {
    const inum: nat
    var meta: Meta
    var size: nat
    var addrs: seq<int>

    constructor (inum: nat, d: Dinode)
      ensures this.inum == inum && Value() == d
    {
      this.inum := inum;
      meta, size, addrs := d.meta, d.size, d.addrs;
    }

    function Value(): Dinode
      reads this
    {
      Dinode(meta, size, addrs)
    }
  }

  /** The number of free blocks. */
  ghost function FreeBlocks(bitmap: seq<bool>): set<nat> {
    set b: nat | b < |bitmap| && !bitmap[b]
  }

  lemma TakeFree(bitmap: seq<bool>, b: nat)
    requires b < |bitmap| && !bitmap[b]
    ensures |FreeBlocks(bitmap[b := true])| == |FreeBlocks(bitmap)| - 1
  {
    assert FreeBlocks(bitmap[b := true]) == FreeBlocks(bitmap) - {b};
  }

  lemma NoneFree(bitmap: seq<bool>)
    requires forall b :: 0 <= b < |bitmap| ==> bitmap[b]
    ensures |FreeBlocks(bitmap)| == 0
  {
    assert FreeBlocks(bitmap) == {};
  }

  class FileSystem {
    const sb: Super
    var blocks: seq<Block>
    /** The bits of the free map, by block number. */
    var bitmap: seq<bool>
    /** The inodes as the inode blocks hold them. */
    var dinodes: seq<Dinode>
    /** The blocks log_write was called on in the current transaction. */
    var logged: set<nat>
    ghost var owner: seq<Owner>

    constructor (sb: Super, blocks: seq<Block>, bitmap: seq<bool>, dinodes: seq<Dinode>, ghost owner: seq<Owner>)
      ensures this.sb == sb && this.blocks == blocks && this.bitmap == bitmap && this.dinodes == dinodes
      ensures logged == {} && this.owner == owner
    {
      this.sb, this.blocks, this.bitmap, this.dinodes := sb, blocks, bitmap, dinodes;
      logged, this.owner := {}, owner;
    }

    ghost function Now(): Image
      reads this
    {
      Image(blocks, bitmap, dinodes, logged)
    }

    /** The inodes with the in-memory copy in place of the one on disk. */
    ghost function Tab(ip: Inode): seq<Dinode>
      requires ip.inum < |dinodes|
      reads this, ip
    {
      dinodes[ip.inum := ip.Value()]
    }

    ghost predicate Inv(ip: Inode, k: nat)
      reads this, ip
    {
      ip.inum < |dinodes| && FsInv(sb, blocks, bitmap, owner, Tab(ip), ip.inum, k)
    }

    /** Between operations: the in-memory inode agrees with the disk. */
    ghost predicate AtRest(ip: Inode)
      reads this, ip
    {
      Inv(ip, SlotsFor(ip.size)) && dinodes[ip.inum] == ip.Value()
    }

    method LogWrite(b: nat)
      modifies this`logged
      ensures logged == old(logged) + {b}
    {
      logged := logged + {b};
    }

    /** The first free block, marked in use and zeroed; None is the panic "out of blocks". */
    method Balloc() returns (r: Option<nat>)
      requires |blocks| == |bitmap| == sb.size
      modifies this`blocks, this`bitmap, this`logged
      ensures r.None? <==> forall b :: 0 <= b < sb.size ==> old(bitmap)[b]
      ensures r.None? ==> blocks == old(blocks) && bitmap == old(bitmap) && logged == old(logged)
      ensures r.Some? ==>
        && r.value < sb.size && !old(bitmap)[r.value] && (forall c :: 0 <= c < r.value ==> old(bitmap)[c])
        && bitmap == old(bitmap)[r.value := true] && blocks == old(blocks)[r.value := Zeros()]
        && logged == old(logged) + {BBlock(sb, r.value), r.value}
    {
      var b := 0;
      while b < sb.size
        invariant 0 <= b && b % BPB == 0
        invariant forall c :: 0 <= c < b && c < sb.size ==> bitmap[c]
      {
        var bi := 0;
        while bi < BPB && b + bi < sb.size
          invariant 0 <= bi <= BPB
          invariant forall c :: 0 <= c < b + bi && c < sb.size ==> bitmap[c]
        {
          if !bitmap[b + bi] {
            bitmap := bitmap[b + bi := true];
            LogWrite(BBlock(sb, b + bi));
            Bzero(b + bi);
            return Some(b + bi);
          }
          bi := bi + 1;
        }
        b := b + BPB;
      }
      return None;
    }

    method Bzero(b: nat)
      requires b < |blocks|
      modifies this`blocks, this`logged
      ensures blocks == old(blocks)[b := Zeros()] && logged == old(logged) + {b}
    {
      blocks := blocks[b := Zeros()];
      LogWrite(b);
    }

    /** false is the panic "freeing free block". */
    method Bfree(b: nat) returns (ok: bool)
      requires b < |bitmap|
      modifies this`bitmap, this`logged
      ensures ok <==> old(bitmap)[b]
      ensures bitmap == old(bitmap)[b := false]
      ensures logged == if ok then old(logged) + {BBlock(sb, b)} else old(logged)
      ensures Recorded(sb, old(Now()), Now())
    {
      BitmapBlock(sb, Now(), b);
      if !bitmap[b] {
        return false;
      }
      bitmap := bitmap[b := false];
      LogWrite(BBlock(sb, b));
      return true;
    }

    /** Writes the in-memory inode through to its inode block. */
    method Iupdate(ip: Inode)
      requires ip.inum < |dinodes|
      modifies this`dinodes, this`logged
      ensures dinodes == old(dinodes)[ip.inum := ip.Value()] && logged == old(logged) + {IBlock(sb, ip.inum)}
    {
      dinodes := dinodes[ip.inum := Dinode(ip.meta, ip.size, ip.addrs)];
      LogWrite(IBlock(sb, ip.inum));
    }

    /** The last step of an allocation, after balloc returned `b`: file `ip` has the block
        in slot `k`. */
    ghost method Own(ip: Inode, k: nat, b: nat, blocks0: seq<Block>, bitmap0: seq<bool>, tab0: seq<Dinode>)
      requires k < NSLOT && ip.inum < |dinodes|
      requires FsInv(sb, blocks0, bitmap0, owner, tab0, ip.inum, k) && b < sb.size && !bitmap0[b]
      requires |tab0[ip.inum].addrs| == NDIRECT + 1
      requires NDIRECT < k ==>
        0 <= tab0[ip.inum].addrs[NDIRECT] < |blocks0| && tab0[ip.inum].addrs[NDIRECT] != b
      requires b < |blocks0| && (forall c :: 0 <= c < |blocks0| ==> |blocks0[c]| == BSIZE)
      requires blocks == StoreBlocks(blocks0, tab0[ip.inum].addrs, k, b) && bitmap == bitmap0[b := true]
      requires Tab(ip) == tab0[ip.inum := tab0[ip.inum].(addrs := StoreAddrs(tab0[ip.inum].addrs, k, b))]
      modifies this`owner
      ensures Inv(ip, k + 1) && SameBytes(blocks0, tab0, ip.inum, k, blocks, Tab(ip))
      ensures |FreeBlocks(bitmap)| == |FreeBlocks(bitmap0)| - 1
      ensures Slot(blocks, ip.addrs, k) == b && InData(sb, b)
    {
      AllocKeeps(sb, blocks0, bitmap0, owner, tab0, ip.inum, k, b);
      AllocBytes(sb, blocks0, bitmap0, owner, tab0, ip.inum, k, b);
      AllocSlot(sb, blocks0, bitmap0, owner, tab0, ip.inum, k, b);
      TakeFree(bitmap0, b);
      assert Tab(ip)[ip.inum].addrs == ip.addrs;
      owner := owner[b := Owner.Own(ip.inum, k)];
    }

    /** The block that holds file block `bn`, allocated if it is the next one of the file;
        None is a panic. `k` is the number of block slots the file uses. */
    method Bmap(ip: Inode, bn: nat, ghost k: nat) returns (r: Option<nat>, ghost k': nat, ghost maps: set<nat>)
      requires Inv(ip, k) && k != NDIRECT + 1 && bn <= FileBlocks(k)
      modifies this, ip`addrs
      ensures r.None? <==> bn >= MAXFILE || |FreeBlocks(old(bitmap))| < SlotOf(bn) + 1 - k
      ensures k' == if k <= SlotOf(bn) then SlotOf(bn) + 1 else k
      ensures r.Some? ==> Inv(ip, k') && r.value < |blocks| && r.value == Slot(blocks, ip.addrs, SlotOf(bn))
      ensures r.Some? ==> dinodes == old(dinodes)
      ensures r.Some? ==> SameBytes(old(blocks), old(Tab(ip)), ip.inum, k, blocks, Tab(ip))
      ensures r.Some? ==> |FreeBlocks(bitmap)| == |FreeBlocks(old(bitmap))| - (k' - k)
      ensures r.Some? ==> |maps| <= k' - k && logged <= old(logged) + maps + Touched(ip.addrs, bn, r.value)
      ensures r.Some? && k' == k ==> unchanged(this) && unchanged(ip)
      ensures r.Some? ==> SameIndirect(old(ip.addrs), ip.addrs) && Recorded(sb, old(Now()), Now())
    {
      RecordedSelf(sb, Now());
      hide Recorded;
      ghost var blocks0, bitmap0, tab0, image0 := blocks, bitmap, Tab(ip), Now();
      maps := {};
      k' := if k <= SlotOf(bn) then SlotOf(bn) + 1 else k;
      SameBytesSelf(blocks, tab0, ip.inum, k);
      if bn < NDIRECT {
        SlotFacts(sb, blocks, bitmap, owner, tab0, ip.inum, k, bn);
        var addr := ip.addrs[bn];
        if addr == 0 {
          r := Balloc();
          if r.None? {
            NoneFree(bitmap0);
            return;
          }
          addr := r.value;
          ip.addrs := ip.addrs[bn := addr];
          maps := {BBlock(sb, addr)};
          Own(ip, k, addr, blocks0, bitmap0, tab0);
          AllocRecorded(sb, image0, Now(), addr, addr);
        }
        return Some(addr), k', maps;
      }
      if bn - NDIRECT < NINDIRECT {
        r, maps := BmapIndirect(ip, bn, k);
        return;
      }
      return None, k', maps;
    }

    /** bmap's second half: the indirect block, and the entry in it. */
    method BmapIndirect(ip: Inode, bn: nat, ghost k: nat) returns (r: Option<nat>, ghost maps: set<nat>)
      requires Inv(ip, k) && k != NDIRECT + 1 && NDIRECT <= bn <= FileBlocks(k) && bn < MAXFILE
      modifies this, ip`addrs
      ensures r.None? <==> |FreeBlocks(old(bitmap))| < SlotOf(bn) + 1 - k
      ensures var k' := if k <= SlotOf(bn) then SlotOf(bn) + 1 else k;
        r.Some? ==>
        && Inv(ip, k') && r.value < |blocks| && r.value == Slot(blocks, ip.addrs, SlotOf(bn))
        && dinodes == old(dinodes)
        && SameBytes(old(blocks), old(Tab(ip)), ip.inum, k, blocks, Tab(ip))
        && |FreeBlocks(bitmap)| == |FreeBlocks(old(bitmap))| - (k' - k)
        && |maps| <= k' - k && logged <= old(logged) + maps + Touched(ip.addrs, bn, r.value)
        && (k' == k ==> unchanged(this) && unchanged(ip))
        && SameIndirect(old(ip.addrs), ip.addrs) && Recorded(sb, old(Now()), Now())
    {
      hide FsInv, SameBytes, FreeBlocks, Slot, Recorded;
      ghost var blocks0, tab0, image0 := blocks, Tab(ip), Now();
      maps := {};
      ghost var maps1;
      var addr;
      addr, maps1 := IndirectBlock(ip, k);
      if addr.None? {
        return None, maps;
      }
      ghost var k1 := if k <= NDIRECT then NDIRECT + 1 else k;
      ghost var blocks1, tab1, image1 := blocks, Tab(ip), Now();
      ghost var maps2;
      r, maps2 := IndirectEntry(ip, bn, addr.value, k1);
      maps := maps1 + maps2;
      if r.Some? {
        SameBytesTrans(blocks0, tab0, ip.inum, k, blocks1, tab1, k1, blocks, Tab(ip));
        RecordedTrans(sb, image0, image1, Now());
      }
    }

    method IndirectBlock(ip: Inode, ghost k: nat) returns (r: Option<nat>, ghost maps: set<nat>)
      requires Inv(ip, k) && NDIRECT <= k
      modifies this, ip`addrs
      ensures r.None? <==> k == NDIRECT && |FreeBlocks(old(bitmap))| == 0
      ensures var k' := if k <= NDIRECT then NDIRECT + 1 else k;
        r.Some? ==>
        && Inv(ip, k') && |ip.addrs| == NDIRECT + 1 && 0 < r.value == ip.addrs[NDIRECT] < |blocks|
        && dinodes == old(dinodes)
        && SameBytes(old(blocks), old(Tab(ip)), ip.inum, k, blocks, Tab(ip))
        && |FreeBlocks(bitmap)| == |FreeBlocks(old(bitmap))| - (k' - k)
        && |maps| <= k' - k && logged <= old(logged) + maps + {r.value}
        && (k' == k ==> unchanged(this) && unchanged(ip))
        && SameIndirect(old(ip.addrs), ip.addrs) && Recorded(sb, old(Now()), Now())
    {
      RecordedSelf(sb, Now());
      hide FsInv, SameBytes, Recorded;
      ghost var blocks0, bitmap0, tab0, image0 := blocks, bitmap, Tab(ip), Now();
      SameBytesSelf(blocks, tab0, ip.inum, k);
      maps := {};
      SlotFacts(sb, blocks, bitmap, owner, tab0, ip.inum, k, NDIRECT);
      var addr := ip.addrs[NDIRECT];
      if addr == 0 {
        r := Balloc();
        if r.None? {
          NoneFree(bitmap0);
          return;
        }
        addr := r.value;
        ip.addrs := ip.addrs[NDIRECT := addr];
        maps := {BBlock(sb, addr)};
        Own(ip, k, addr, blocks0, bitmap0, tab0);
        SlotFacts(sb, blocks, bitmap, owner, Tab(ip), ip.inum, k + 1, NDIRECT);
        AllocRecorded(sb, image0, Now(), addr, addr);
      }
      return Some(addr), maps;
    }

    method IndirectEntry(ip: Inode, bn: nat, addr: nat, ghost k: nat) returns (r: Option<nat>, ghost maps: set<nat>)
      requires Inv(ip, k) && NDIRECT < k && NDIRECT <= bn <= FileBlocks(k) && bn < MAXFILE
      requires |ip.addrs| == NDIRECT + 1 && 0 < addr == ip.addrs[NDIRECT] < |blocks|
      modifies this
      ensures r.None? <==> |FreeBlocks(old(bitmap))| < SlotOf(bn) + 1 - k
      ensures var k' := if k <= SlotOf(bn) then SlotOf(bn) + 1 else k;
        r.Some? ==>
        && Inv(ip, k') && r.value < |blocks| && r.value == Slot(blocks, ip.addrs, SlotOf(bn))
        && dinodes == old(dinodes)
        && SameBytes(old(blocks), old(Tab(ip)), ip.inum, k, blocks, Tab(ip))
        && |FreeBlocks(bitmap)| == |FreeBlocks(old(bitmap))| - (k' - k)
        && |maps| <= k' - k && logged <= old(logged) + maps + {r.value, addr}
        && (k' == k ==> unchanged(this)) && Recorded(sb, old(Now()), Now())
    {
      RecordedSelf(sb, Now());
      hide FsInv, SameBytes, Recorded;
      ghost var blocks1, bitmap1, tab1, image1 := blocks, bitmap, Tab(ip), Now();
      SlotFacts(sb, blocks, bitmap, owner, tab1, ip.inum, k, NDIRECT);
      SameBytesSelf(blocks, tab1, ip.inum, k);
      maps := {};
      SlotFacts(sb, blocks, bitmap, owner, tab1, ip.inum, k, SlotOf(bn));
      var a := GetWord(blocks[addr], bn - NDIRECT);
      if a == 0 {
        r := Balloc();
        if r.None? {
          NoneFree(bitmap1);
          return;
        }
        a := r.value;
        AllocKeeps(sb, blocks1, bitmap1, owner, tab1, ip.inum, k, a);
        blocks := blocks[addr := PutWord(blocks[addr], bn - NDIRECT, a)];
        LogWrite(addr);
        maps := {BBlock(sb, a)};
        assert Tab(ip) == tab1;
        Own(ip, k, a, blocks1, bitmap1, tab1);
        AllocRecorded(sb, image1, Now(), a, addr);
      }
      return Some(a), maps;
    }

    /** One round of writei's loop: `m` bytes from `src[tot..]` go to file position `at`;
        None is a panic of bmap. */
    method WriteRound(ip: Inode, src: seq<int>, at: nat, tot: nat, ghost off: nat, ghost blocks0: seq<Block>,
                      ghost tab0: seq<Dinode>, ghost k0: nat, ghost k: nat)
      returns (m: Option<nat>, ghost k': nat, ghost maps: set<nat>, ghost data: nat)
      requires Inv(ip, k) && k != NDIRECT + 1 && at / BSIZE <= FileBlocks(k) && at / BSIZE < MAXFILE
      requires tot < |src| && at == off + tot && ip.inum < |tab0|
      requires Written(blocks0, tab0, ip.inum, k0, off, src, tot, blocks, Tab(ip), k)
      modifies this, ip`addrs
      ensures m.None? <==> |FreeBlocks(old(bitmap))| < SlotOf(at / BSIZE) + 1 - k
      ensures k' == if k <= SlotOf(at / BSIZE) then SlotOf(at / BSIZE) + 1 else k
      ensures m.Some? ==> m.value == Min(|src| - tot, BSIZE - at % BSIZE) && Inv(ip, k') && dinodes == old(dinodes)
      ensures m.Some? ==> Written(blocks0, tab0, ip.inum, k0, off, src, tot + m.value, blocks, Tab(ip), k')
      ensures m.Some? ==> |FreeBlocks(bitmap)| == |FreeBlocks(old(bitmap))| - (k' - k)
      ensures m.Some? ==> |maps| <= k' - k && SameIndirect(old(ip.addrs), ip.addrs)
      ensures m.Some? ==> logged <= old(logged) + maps + {data} + Indirect(ip.addrs)
      ensures m.Some? && k' == k ==> ip.addrs == old(ip.addrs)
      ensures m.Some? ==> Recorded(sb, old(Now()), Now())
    {
      hide FsInv, SameBytes, Written, FreeBlocks, Slot, SlotOf, Recorded;
      ghost var blocks1, tab1, image0 := blocks, Tab(ip), Now();
      var b;
      data := 0;
      b, k', maps := Bmap(ip, at / BSIZE, k);
      if b.None? {
        return None, k', maps, data;
      }
      data := b.value;
      UsedSlot(at / BSIZE, k, k');
      assert Tab(ip)[ip.inum].addrs == ip.addrs;
      FileBlockFacts(sb, blocks, bitmap, owner, Tab(ip), ip.inum, k', at / BSIZE);
      TouchedIndirect(sb, blocks, bitmap, owner, Tab(ip), ip.inum, k', at / BSIZE, b.value);
      m := Some(Min(|src| - tot, BSIZE - at % BSIZE));
      SizesKept(blocks0, tab0, ip.inum, k0, off, src, tot, blocks1, tab1, k);
      assert forall i :: 0 <= i < |tab1| ==> Tab(ip)[i].size == tab1[i].size;
      WrittenStep(blocks0, tab0, ip.inum, k0, off, src, tot, blocks1, tab1, k, blocks, Tab(ip), k',
                  sb, bitmap, owner, m.value);
      ghost var image1 := Now();
      blocks := blocks[b.value := Patched(blocks[b.value], at % BSIZE, src, tot, m.value)];
      LogWrite(b.value);
      PatchRecorded(sb, image1, Now(), b.value);
      RecordedTrans(sb, image0, image1, Now());
    }

    /** writei. None is a panic, for want of free blocks only; otherwise -1 for an offset
        behind the end of the file or a file that would be too large, and else the number
        of bytes, which replace just the bytes from `off` on. */
    method Writei(ip: Inode, src: seq<int>, off: nat) returns (r: Option<int>)
      requires AtRest(ip) && off < WORD && |src| < WORD
      modifies this, ip
      ensures !WriteAllowed(old(ip.size), off, |src|) ==> r == Some(-1) && unchanged(this) && unchanged(ip)
      ensures WriteAllowed(old(ip.size), off, |src|) ==>
        && (r.None? <==>
              |FreeBlocks(old(bitmap))| < SlotsFor(SizeAfter(old(ip.size), off, |src|)) - SlotsFor(old(ip.size)))
        && (r.Some? ==> r.value == |src|)
      ensures r.Some? ==> AtRest(ip)
      ensures r.Some? && WriteAllowed(old(ip.size), off, |src|) ==>
        && ip.size == SizeAfter(old(ip.size), off, |src|) && ip.meta == old(ip.meta)
        && dinodes == old(dinodes)[ip.inum := ip.Value()] && Recorded(sb, old(Now()), Now())
        && Content(blocks, ip.Value()) == Splice(old(Content(blocks, ip.Value())), off, src)
        && OthersKept(ip.inum, old(blocks), old(dinodes), blocks, dinodes)
        && |FreeBlocks(bitmap)| == |FreeBlocks(old(bitmap))| - (SlotsFor(ip.size) - SlotsFor(old(ip.size)))
        && |logged| <= |old(logged)| + LogBound(old(ip.size), off, |src|)
    {
      hide FsInv, Written, FreeBlocks, SlotsFor, SlotOf, Rounds, Content, Splice, WriteAllowed, Recorded;
      WriteAllowedIff(ip.size, off, |src|);
      var n := |src|;
      if off > ip.size || (off + n) % WORD < off {
        return Some(-1);
      }
      if off + n > MAXFILE * BSIZE {
        return Some(-1);
      }
      ghost var size, k0, blocks0, tab0, image0 := ip.size, SlotsFor(ip.size), blocks, Tab(ip), Now();
      assert tab0 == dinodes;
      var at, k := WriteLoop(ip, src, off);
      if at.None? {
        return None;
      }
      SlotsAfter(size, off, n);
      WrittenContent(blocks0, tab0, ip.inum, off, src, blocks, Tab(ip), k);
      SetSize(sb, blocks, bitmap, owner, Tab(ip), ip.inum, k, Max(size, off + n));
      ghost var tab, image := Tab(ip), Now();
      if n > 0 && at.value > ip.size {
        ip.size := at.value;
        Iupdate(ip);
        InodeRecorded(sb, image, Now(), ip.inum);
        RecordedTrans(sb, image0, image, Now());
      }
      assert Tab(ip) == tab[ip.inum := tab[ip.inum].(size := Max(size, off + n))];
      return Some(n);
    }

    /** The loop of writei; None is a panic. */
    method WriteLoop(ip: Inode, src: seq<int>, off: nat) returns (r: Option<nat>, ghost k: nat)
      requires Inv(ip, SlotsFor(ip.size)) && off <= ip.size && off + |src| <= MAXFILE * BSIZE
      modifies this, ip`addrs
      ensures r.None? <==> |FreeBlocks(old(bitmap))| < SlotsFor(Max(ip.size, off + |src|)) - SlotsFor(ip.size)
      ensures r.Some? ==>
        && r.value == off + |src| && k == SlotsFor(Max(ip.size, off + |src|))
        && Inv(ip, k) && dinodes == old(dinodes)
        && Written(old(blocks), old(Tab(ip)), ip.inum, SlotsFor(ip.size), off, src, |src|, blocks, Tab(ip), k)
        && |FreeBlocks(bitmap)| == |FreeBlocks(old(bitmap))| - (k - SlotsFor(ip.size))
        && (k == SlotsFor(ip.size) ==> ip.addrs == old(ip.addrs))
        && |logged| <= |old(logged)| + Rounds(off, |src|) + (k - SlotsFor(ip.size)) + 1
        && Recorded(sb, old(Now()), Now())
    {
      hide FsInv, Written, FreeBlocks, SlotsFor, Rounds, Max, LogCount;
      ghost var w := Start(ip.size, ip.addrs, Tab(ip), Now());
      k := SlotsFor(ip.size);
      MaxSelf(ip.size, off);
      WrittenNone(blocks, w.tab, ip.inum, k, off, src);
      RoundsNone(off);
      LogCountNone(logged, ip.addrs);
      ghost var data, maps: set<nat> := {}, {};
      var tot, at := 0, off;
      assert Progress(ip, w, src, off, 0, k, data, maps);
      hide Progress;
      while tot < |src|
        invariant tot <= |src| && at == off + tot && dinodes == old(dinodes)
        invariant Progress(ip, w, src, off, tot, k, data, maps)
      {
        var m;
        m, k, data, maps := WriteStep(ip, src, off, at, tot, w, k, data, maps);
        if m.None? {
          return None, k;
        }
        tot, at := tot + m.value, at + m.value;
      }
      Finished(ip, w, src, off, k, data, maps);
      return Some(at), k;
    }

    /** The loop invariant of writei: `tot` bytes are written, over blocks of which the file
        now uses slots s < k; `data` and `maps` are the blocks logged for them. */
    ghost predicate Progress(ip: Inode, w: Start, src: seq<int>, off: nat, tot: nat, k: nat, data: set<nat>,
                             maps: set<nat>)
      reads this, ip
    {
      && tot <= |src| && (0 < tot < |src| ==> (off + tot) % BSIZE == 0)
      && Inv(ip, k) && SlotsFor(w.size) <= k == SlotsFor(Max(w.size, off + tot)) && ip.inum < |w.tab|
      && Written(w.image.blocks, w.tab, ip.inum, SlotsFor(w.size), off, src, tot, blocks, Tab(ip), k)
      && |FreeBlocks(bitmap)| == |FreeBlocks(w.image.bitmap)| - (k - SlotsFor(w.size))
      && (k == SlotsFor(w.size) ==> ip.addrs == w.addrs)
      && LogCount(logged, w.image.logged, data, maps, ip.addrs, Rounds(off, tot), k - SlotsFor(w.size))
      && Recorded(sb, w.image, Now())
    }

    /** One round, by position `at == off + tot`. */
    method WriteStep(ip: Inode, src: seq<int>, ghost off: nat, at: nat, tot: nat, ghost w: Start, ghost k: nat,
                     ghost data: set<nat>, ghost maps: set<nat>)
      returns (m: Option<nat>, ghost k': nat, ghost data': set<nat>, ghost maps': set<nat>)
      requires Progress(ip, w, src, off, tot, k, data, maps) && tot < |src| && at == off + tot
      requires off <= w.size && off + |src| <= MAXFILE * BSIZE
      modifies this, ip`addrs
      ensures m.None? ==> |FreeBlocks(w.image.bitmap)| < SlotsFor(Max(w.size, off + |src|)) - SlotsFor(w.size)
      ensures m.Some? ==>
        && 0 < m.value <= |src| - tot && dinodes == old(dinodes)
        && Progress(ip, w, src, off, tot + m.value, k', data', maps')
    {
      hide FsInv, Written, FreeBlocks, SlotsFor, SlotOf, Rounds, SameIndirect, Max, Min, FileBlocks, LogCount, Recorded;
      hide FileSystem.Inv, Progress, Indirect;
      ghost var image, addrs := Now(), ip.addrs;
      Opened(ip, w, src, off, tot, k, data, maps);
      ghost var more, b;
      m, k', more, b := WriteRound(ip, src, at, tot, off, w.image.blocks, w.tab, SlotsFor(w.size), k);
      data', maps' := data + {b}, maps + more;
      if m.Some? {
        RoundDone(ip, w, src, off, tot, m.value, k, k', data, maps, more, b, image, addrs);
      }
    }

    /** What a round of the loop finds. */
    lemma Opened(ip: Inode, w: Start, src: seq<int>, off: nat, tot: nat, k: nat, data: set<nat>, maps: set<nat>)
      requires Progress(ip, w, src, off, tot, k, data, maps) && tot < |src|
      requires off <= w.size && off + |src| <= MAXFILE * BSIZE
      ensures ip.inum < |dinodes| && ip.inum < |w.tab| && (tot > 0 ==> (off + tot) % BSIZE == 0)
      ensures Inv(ip, k) && SlotsFor(w.size) <= k == SlotsFor(Max(w.size, off + tot))
      ensures Written(w.image.blocks, w.tab, ip.inum, SlotsFor(w.size), off, src, tot, blocks, Tab(ip), k)
      ensures |FreeBlocks(bitmap)| == |FreeBlocks(w.image.bitmap)| - (k - SlotsFor(w.size))
      ensures k == SlotsFor(w.size) ==> ip.addrs == w.addrs
      ensures LogCount(logged, w.image.logged, data, maps, ip.addrs, Rounds(off, tot), k - SlotsFor(w.size))
      ensures Recorded(sb, w.image, Now())
      ensures var at := off + tot; var m := Min(|src| - tot, BSIZE - at % BSIZE);
        && 0 < m <= |src| - tot && k != NDIRECT + 1 && at / BSIZE <= FileBlocks(k) && at / BSIZE < MAXFILE
        && SlotOf(at / BSIZE) + 1 <= SlotsFor(Max(w.size, off + |src|))
    {
      hide FsInv, Written, FreeBlocks, SlotsFor, SlotOf, Rounds, Max, Min, FileBlocks, LogCount, Recorded;
      RoundSize(off + tot, |src| - tot);
      NextRound(w.size, off, tot, |src|, Min(|src| - tot, BSIZE - (off + tot) % BSIZE));
    }

    /** What a round of the loop adds to its invariant; `image` and `addrs` are from before it. */
    lemma RoundDone(ip: Inode, w: Start, src: seq<int>, off: nat, tot: nat, m: nat, k: nat, k': nat,
                    data: set<nat>, maps: set<nat>, more: set<nat>, b: nat, image: Image, addrs: seq<int>)
      requires tot < |src| && off <= w.size && off + |src| <= MAXFILE * BSIZE && ip.inum < |w.tab|
      requires tot > 0 ==> (off + tot) % BSIZE == 0
      requires m == Min(|src| - tot, BSIZE - (off + tot) % BSIZE) && tot + m <= |src|
      requires SlotsFor(w.size) <= k == SlotsFor(Max(w.size, off + tot))
      requires k' == if k <= SlotOf((off + tot) / BSIZE) then SlotOf((off + tot) / BSIZE) + 1 else k
      requires |FreeBlocks(image.bitmap)| == |FreeBlocks(w.image.bitmap)| - (k - SlotsFor(w.size))
      requires LogCount(image.logged, w.image.logged, data, maps, addrs, Rounds(off, tot), k - SlotsFor(w.size))
      requires Recorded(sb, w.image, image) && Recorded(sb, image, Now())
      requires k == SlotsFor(w.size) ==> addrs == w.addrs
      requires Inv(ip, k') && SameIndirect(addrs, ip.addrs) && (k' == k ==> ip.addrs == addrs)
      requires Written(w.image.blocks, w.tab, ip.inum, SlotsFor(w.size), off, src, tot + m, blocks, Tab(ip), k')
      requires |FreeBlocks(bitmap)| == |FreeBlocks(image.bitmap)| - (k' - k)
      requires |more| <= k' - k && logged <= image.logged + more + {b} + Indirect(ip.addrs)
      ensures Progress(ip, w, src, off, tot + m, k', data + {b}, maps + more)
    {
      hide FsInv, Written, FreeBlocks, SlotsFor, SlotOf, Rounds, SameIndirect, Max, Min, FileBlocks, LogCount, Recorded;
      hide Indirect;
      NextRound(w.size, off, tot, |src|, m);
      RecordedTrans(sb, w.image, image, Now());
      LogCountStep(w.image.logged, image.logged, addrs, data, maps, Rounds(off, tot), k - SlotsFor(w.size),
                   more, k' - k, b, logged, ip.addrs);
    }

    lemma Finished(ip: Inode, w: Start, src: seq<int>, off: nat, k: nat, data: set<nat>, maps: set<nat>)
      requires Progress(ip, w, src, off, |src|, k, data, maps)
      ensures Inv(ip, k) && SlotsFor(w.size) <= k == SlotsFor(Max(w.size, off + |src|))
      ensures Written(w.image.blocks, w.tab, ip.inum, SlotsFor(w.size), off, src, |src|, blocks, Tab(ip), k)
      ensures |FreeBlocks(bitmap)| == |FreeBlocks(w.image.bitmap)| - (k - SlotsFor(w.size))
      ensures k == SlotsFor(w.size) ==> ip.addrs == w.addrs
      ensures |logged| <= |w.image.logged| + Rounds(off, |src|) + (k - SlotsFor(w.size)) + 1
      ensures Recorded(sb, w.image, Now())
    {
      hide FsInv, Written, FreeBlocks, SlotsFor, Rounds, Max, LogCount, Recorded;
      CountLogged(logged, w.image.logged, data, maps, ip.addrs, Rounds(off, |src|), k - SlotsFor(w.size));
    }

    /** readi: the bytes from `off` on, as many of `n` as the file has. It allocates nothing
        and changes nothing; the panic of bmap is unreachable. */
    method Readi(ip: Inode, off: nat, n: nat) returns (r: int, dst: seq<int>)
      requires AtRest(ip) && off < WORD && n < WORD
      modifies this, ip`addrs
      ensures unchanged(this) && unchanged(ip)
      ensures off > ip.size || off + n >= WORD ==> r == -1 && dst == []
      ensures off <= ip.size && off + n < WORD ==>
        && r == Min(n, ip.size - off)
        && dst == Content(blocks, ip.Value())[off..off + r]
    {
      hide FsInv, SlotsFor, SlotOf, FreeBlocks, Content, Slot, Recorded, SameBytes, SameIndirect, Touched;
      ghost var file := Content(blocks, ip.Value());
      dst := [];
      if off > ip.size || (off + n) % WORD < off {
        return -1, dst;
      }
      var n' := if off + n > ip.size then ip.size - off else n;
      ghost var k := SlotsFor(ip.size);
      var tot, at := 0, off;
      while tot < n'
        invariant tot <= n' && at == off + tot
        invariant unchanged(this) && unchanged(ip)
        invariant dst == file[off..at]
      {
        SlotFacts(sb, blocks, bitmap, owner, Tab(ip), ip.inum, k, 0);
        InFile(ip.size, at);
        FileBlockFacts(sb, blocks, bitmap, owner, Tab(ip), ip.inum, k, at / BSIZE);
        ghost var k', maps;
        var b;
        b, k', maps := Bmap(ip, at / BSIZE, k);
        assert b.Some? && k' == k;
        var m := Min(n' - tot, BSIZE - at % BSIZE);
        assert Tab(ip)[ip.inum].addrs == ip.addrs;
        ReadBlock(blocks, ip.Value(), at, m, b.value);
        assert file[off..at] + file[at..at + m] == file[off..at + m];
        dst := dst + blocks[b.value][at % BSIZE..at % BSIZE + m];
        tot, at := tot + m, at + m;
      }
      return n', dst;
    }

    /** itrunc: every block of the file is free again, every other file is as it was, and
        no bfree panics. */
    method Itrunc(ip: Inode) returns (ok: bool)
      requires AtRest(ip)
      modifies this, ip
      ensures ok && AtRest(ip) && ip.size == 0 && ip.addrs == NOADDRS && ip.meta == old(ip.meta)
      ensures blocks == old(blocks) && dinodes == old(dinodes)[ip.inum := ip.Value()]
      ensures |FreeBlocks(bitmap)| == |FreeBlocks(old(bitmap))| + SlotsFor(old(ip.size))
      ensures Recorded(sb, old(Now()), Now())
      ensures forall b :: 0 <= b < |bitmap| ==> bitmap[b] == (old(bitmap)[b] && !OwnedBy(old(owner), ip.inum, b))
    {
      hide FsInv, FreeBlocks, Freed, Slot, Recorded;
      ghost var bitmap0, tab0, k, image0 := bitmap, Tab(ip), SlotsFor(ip.size), Now();
      ghost var done: set<nat>;
      ok, done := FreeDirect(ip, k);
      if !ok {
        return;
      }
      SlotFacts(sb, blocks, bitmap0, owner, tab0, ip.inum, k, NDIRECT);
      IndirectSlot(blocks, tab0[ip.inum].addrs);
      if ip.addrs[NDIRECT] != 0 {
        ghost var image1 := Now();
        ok, done := FreeIndirect(ip, k, bitmap0, tab0, done);
        if !ok {
          return;
        }
        RecordedTrans(sb, image0, image1, Now());
        ip.addrs := ip.addrs[NDIRECT := 0];
      }
      ip.size := 0;
      ghost var all := set s: nat | s < NSLOT && IsSlot(s);
      assert NOADDRS[NDIRECT := 0] == NOADDRS;
      assert ip.addrs == NOADDRS;
      FreedRest(sb, blocks, bitmap0, owner, tab0, ip.inum, k, done, bitmap, done + all);
      TruncKeeps(sb, blocks, bitmap0, owner, tab0, ip.inum, k, done + all, bitmap, 0);
      FreedAll(sb, blocks, bitmap0, owner, tab0, ip.inum, k, done + all, bitmap);
      assert Tab(ip) == tab0[ip.inum := tab0[ip.inum].(addrs := NOADDRS, size := 0)];
      ghost var tab, image := Tab(ip), Now();
      owner := Released(owner, ip.inum);
      Iupdate(ip);
      InodeRecorded(sb, image, Now(), ip.inum);
      RecordedTrans(sb, image0, image, Now());
      assert Tab(ip) == tab && SlotsFor(0) == 0;
    }

    /** itrunc's first loop. */
    method FreeDirect(ip: Inode, ghost k: nat) returns (ok: bool, ghost done: set<nat>)
      requires Inv(ip, k)
      modifies this`bitmap, this`logged, ip`addrs
      ensures ok && Freed(old(bitmap), owner, ip.inum, done, bitmap)
      ensures forall s :: s in done <==> 0 <= s < NDIRECT
      ensures old(ip.inum < |dinodes|) && |ip.addrs| == NDIRECT + 1 && |old(ip.addrs)| == NDIRECT + 1
      ensures ip.addrs == NOADDRS[NDIRECT := old(ip.addrs)[NDIRECT]]
      ensures |FreeBlocks(bitmap)| == |FreeBlocks(old(bitmap))| + Min(NDIRECT, k)
      ensures Recorded(sb, old(Now()), Now())
    {
      RecordedSelf(sb, Now());
      hide FsInv, FreeBlocks, Freed, Recorded;
      ghost var bitmap0, tab0, addrs0, image0 := bitmap, Tab(ip), ip.addrs, Now();
      ok, done := true, {};
      SlotFacts(sb, blocks, bitmap0, owner, tab0, ip.inum, k, 0);
      OwnerLength(sb, blocks, bitmap0, owner, tab0, ip.inum, k);
      FreedNone(bitmap0, owner, ip.inum);
      var i := 0;
      while i < NDIRECT
        invariant 0 <= i <= NDIRECT && |ip.addrs| == NDIRECT + 1
        invariant forall s :: s in done <==> 0 <= s < i
        invariant Freed(bitmap0, owner, ip.inum, done, bitmap)
        invariant forall s :: 0 <= s <= NDIRECT ==> ip.addrs[s] == if s < i then 0 else addrs0[s]
        invariant |FreeBlocks(bitmap)| == |FreeBlocks(bitmap0)| + Min(i, k)
        invariant Recorded(sb, image0, Now())
      {
        SlotFacts(sb, blocks, bitmap0, owner, tab0, ip.inum, k, i);
        FreedStep(sb, blocks, bitmap0, owner, tab0, ip.inum, k, done, i, bitmap);
        if ip.addrs[i] != 0 {
          GiveFree(bitmap, ip.addrs[i]);
          ghost var image := Now();
          ok := Bfree(ip.addrs[i]);
          RecordedTrans(sb, image0, image, Now());
          if !ok {
            return;
          }
          ip.addrs := ip.addrs[i := 0];
        }
        done := done + {i};
        i := i + 1;
      }
    }

    /** itrunc's indirect part: the entries, then the indirect block itself. */
    method FreeIndirect(ip: Inode, ghost k: nat, ghost bitmap0: seq<bool>, ghost tab0: seq<Dinode>,
                        ghost done0: set<nat>)
      returns (ok: bool, ghost done: set<nat>)
      requires ip.inum < |dinodes| && FsInv(sb, blocks, bitmap0, owner, tab0, ip.inum, k)
      requires |ip.addrs| == NDIRECT + 1 == |tab0[ip.inum].addrs|
      requires ip.addrs[NDIRECT] == tab0[ip.inum].addrs[NDIRECT] != 0
      requires Freed(bitmap0, owner, ip.inum, done0, bitmap) && forall s :: s in done0 <==> 0 <= s < NDIRECT
      modifies this`bitmap, this`logged
      ensures ok && Freed(bitmap0, owner, ip.inum, done, bitmap)
      ensures done0 <= done && forall s: nat :: s < NSLOT ==> s in done
      ensures |FreeBlocks(bitmap)| == |FreeBlocks(old(bitmap))| + k - NDIRECT && k > NDIRECT
      ensures Recorded(sb, old(Now()), Now())
    {
      RecordedSelf(sb, Now());
      hide FsInv, FreeBlocks, Freed, Recorded;
      ghost var bitmap1, image0 := bitmap, Now();
      ok, done := true, done0;
      SlotFacts(sb, blocks, bitmap0, owner, tab0, ip.inum, k, NDIRECT);
      var a := blocks[ip.addrs[NDIRECT]];
      var j := 0;
      while j < NINDIRECT
        invariant 0 <= j <= NINDIRECT
        invariant forall s :: s in done <==> 0 <= s < NDIRECT || NDIRECT < s <= NDIRECT + j
        invariant Freed(bitmap0, owner, ip.inum, done, bitmap)
        invariant |FreeBlocks(bitmap)| == |FreeBlocks(bitmap1)| + Min(j, k - NDIRECT - 1)
        invariant Recorded(sb, image0, Now())
      {
        ghost var s := NDIRECT + 1 + j;
        SlotFacts(sb, blocks, bitmap0, owner, tab0, ip.inum, k, s);
        FreedStep(sb, blocks, bitmap0, owner, tab0, ip.inum, k, done, s, bitmap);
        if GetWord(a, j) != 0 {
          GiveFree(bitmap, GetWord(a, j));
          ghost var image := Now();
          ok := Bfree(GetWord(a, j));
          RecordedTrans(sb, image0, image, Now());
          if !ok {
            return;
          }
        }
        done := done + {s};
        j := j + 1;
      }
      FreedStep(sb, blocks, bitmap0, owner, tab0, ip.inum, k, done, NDIRECT, bitmap);
      GiveFree(bitmap, ip.addrs[NDIRECT]);
      ghost var image := Now();
      ok := Bfree(ip.addrs[NDIRECT]);
      RecordedTrans(sb, image0, image, Now());
      done := done + {NDIRECT};
    }
  }

  lemma PatchRecorded(sb: Super, a: Image, b: Image, c: nat)
    requires c < |a.blocks| && InData(sb, c) && |b.blocks| == |a.blocks|
    requires b.bitmap == a.bitmap && b.dinodes == a.dinodes
    requires b.blocks == a.blocks[c := b.blocks[c]] && b.logged == a.logged + {c}
    ensures Recorded(sb, a, b)
  {
  }

  lemma InodeRecorded(sb: Super, a: Image, b: Image, i: nat)
    requires i < |a.dinodes| && |b.dinodes| == |a.dinodes| && b.bitmap == a.bitmap && b.blocks == a.blocks
    requires b.dinodes == a.dinodes[i := b.dinodes[i]] && b.logged == a.logged + {IBlock(sb, i)}
    ensures Recorded(sb, a, b)
  {
    InodeBlock(sb, a, i);
  }

  predicate IsSlot(s: nat) {
    s < NSLOT
  }

  predicate OwnedBy(owner: seq<Owner>, inum: nat, b: nat)
    requires b < |owner|
  {
    owner[b].Own? && owner[b].inum == inum
  }

  lemma GiveFree(bitmap: seq<bool>, b: nat)
    requires b < |bitmap| && bitmap[b]
    ensures |FreeBlocks(bitmap[b := false])| == |FreeBlocks(bitmap)| + 1
  {
    assert FreeBlocks(bitmap[b := false]) == FreeBlocks(bitmap) + {b};
  }

  lemma OwnerLength(sb: Super, blocks: seq<Block>, bitmap: seq<bool>, owner: seq<Owner>, tab: seq<Dinode>, inum: nat,
                    k: nat)
    requires FsInv(sb, blocks, bitmap, owner, tab, inum, k)
    ensures |owner| == |bitmap|
  {
  }

  lemma IndirectSlot(blocks: seq<Block>, addrs: seq<int>)
    requires |addrs| == NDIRECT + 1
    ensures Slot(blocks, addrs, NDIRECT) == addrs[NDIRECT]
  {
  }

  /** Freeing all slots frees just the blocks the file owned. */
  lemma FreedAll(sb: Super, blocks: seq<Block>, bitmap0: seq<bool>, owner: seq<Owner>, tab: seq<Dinode>,
                 inum: nat, k: nat, all: set<nat>, bitmap: seq<bool>)
    requires FsInv(sb, blocks, bitmap0, owner, tab, inum, k) && Freed(bitmap0, owner, inum, all, bitmap)
    requires forall s: nat :: s < NSLOT ==> s in all
    ensures |bitmap| == |bitmap0| == |owner|
    ensures forall b :: 0 <= b < |bitmap| ==> bitmap[b] == (bitmap0[b] && !OwnedBy(owner, inum, b))
  {
    forall b | 0 <= b < |bitmap|
      ensures bitmap[b] == (bitmap0[b] && !OwnedBy(owner, inum, b))
    {
      assert OwnerOk(sb, blocks, bitmap0, owner, tab, b);
      assert owner[b].Own? ==> owner[b].slot in all;
    }
  }

  lemma InFile(size: nat, at: nat)
    requires at < size
    ensures var k := SlotsFor(size); k != NDIRECT + 1 && at / BSIZE <= FileBlocks(k) && SlotOf(at / BSIZE) < k
    ensures SlotsFor(size) <= NSLOT ==> at / BSIZE < MAXFILE
  {
  }

  /** The part of one block that lies in the file. */
  lemma {:induction false} ReadBlock(blocks: seq<Block>, d: Dinode, at: nat, m: nat, b: nat)
    requires b == Slot(blocks, d.addrs, SlotOf(at / BSIZE)) && b < |blocks| && |blocks[b]| == BSIZE
    requires at % BSIZE + m <= BSIZE && at + m <= d.size
    ensures blocks[b][at % BSIZE..at % BSIZE + m] == Content(blocks, d)[at..at + m]
  {
    var part, file := blocks[b][at % BSIZE..at % BSIZE + m], Content(blocks, d)[at..at + m];
    forall x | 0 <= x < m
      ensures part[x] == file[x]
    {
      ReadByte(blocks, d, at, m, b, x);
    }
  }

  lemma {:induction false} ReadByte(blocks: seq<Block>, d: Dinode, at: nat, m: nat, b: nat, x: nat)
    requires b == Slot(blocks, d.addrs, SlotOf(at / BSIZE)) && b < |blocks| && |blocks[b]| == BSIZE
    requires at % BSIZE + m <= BSIZE && x < m
    ensures ByteAt(blocks, d.addrs, at + x) == blocks[b][at % BSIZE + x]
  {
    hide Slot, SlotOf;
    SameBlock(at, x, m);
    assert (at + x) % BSIZE == at % BSIZE + x;
  }

  const WORD := 0x1_0000_0000

  predicate WriteAllowed(size: nat, off: nat, n: nat) {
    off <= size && off + n <= MAXFILE * BSIZE
  }

  function SizeAfter(size: nat, off: nat, n: nat): nat {
    if n == 0 then size else Max(size, off + n)
  }

  /** The two tests at the start of writei, the first of them in 32-bit arithmetic. */
  lemma WriteAllowedIff(size: nat, off: nat, n: nat)
    requires off < WORD && n < WORD
    ensures WriteAllowed(size, off, n) <==> !(off > size || (off + n) % WORD < off) && off + n <= MAXFILE * BSIZE
  {
  }

  /** A chunk of filewrite, at any offset of the file, logs at most MAXOPBLOCKS blocks. */
  lemma ChunkFits(size: nat, off: nat, n: nat)
    requires off <= size && n <= CHUNK
    ensures LogBound(size, off, n) <= MAXOPBLOCKS
  {
    hide SlotsFor;
    ChunkRounds(off, n);
    ChunkSlots(size, SizeAfter(size, off, n));
    if n > 0 && off % BSIZE != 0 {
      assert Blocks(SizeAfter(size, off, n)) <= Blocks(size) + 3;
    }
  }

  lemma ChunkRounds(off: nat, n: nat)
    requires n <= CHUNK
    ensures Rounds(off, n) <= 4 && (off % BSIZE == 0 ==> Rounds(off, n) <= 3)
  {
  }

  lemma ChunkSlots(size: nat, size': nat)
    requires size <= size'
    ensures SlotsFor(size') - SlotsFor(size) <= Blocks(size') - Blocks(size) + 1
  {
  }

  /** `max` in filewrite. */
  const CHUNK := (MAXOPBLOCKS - 1 - 1 - 2) / 2 * 512

  /** How many blocks one call of writei may log: the data blocks it touches, a bitmap
      block for each block it allocates, the indirect block, the inode's block. */
  function LogBound(size: nat, off: nat, n: nat): int {
    Rounds(off, n) + (SlotsFor(SizeAfter(size, off, n)) - SlotsFor(size)) + 2
  }

  lemma RoundsNone(off: nat)
    ensures Rounds(off, 0) == 0
  {
  }

  /** The arithmetic of one round of writei's loop. */
  lemma NextRound(size: nat, off: nat, tot: nat, n: nat, m: nat)
    requires tot < n && off <= size && off + n <= MAXFILE * BSIZE && (tot > 0 ==> (off + tot) % BSIZE == 0)
    requires m == Min(n - tot, BSIZE - (off + tot) % BSIZE)
    ensures var at, k := off + tot, SlotsFor(Max(size, off + tot));
      && 0 < m <= n - tot && k != NDIRECT + 1 && at / BSIZE <= FileBlocks(k) && at / BSIZE < MAXFILE
      && SlotsFor(Max(size, at + m)) == (if k <= SlotOf(at / BSIZE) then SlotOf(at / BSIZE) + 1 else k)
      && SlotsFor(size) <= k && SlotsFor(Max(size, at + m)) <= SlotsFor(Max(size, off + n))
      && SlotOf(at / BSIZE) + 1 <= SlotsFor(Max(size, off + n))
      && Rounds(off, tot + m) == Rounds(off, tot) + 1
      && (tot + m < n ==> (at + m) % BSIZE == 0)
  {
    hide SlotsFor, SlotOf, Rounds, FileBlocks;
    var at := off + tot;
    RoundSize(at, n - tot);
    NextBlock(size, at);
    SlotsStep(size, at, m);
    RoundsStep(off, tot, m);
    SlotsMonotone(size, Max(size, at));
    SlotsMonotone(Max(size, at + m), Max(size, off + n));
  }

  lemma RoundSize(at: nat, left: nat)
    requires left > 0
    ensures var m := Min(left, BSIZE - at % BSIZE);
      0 < m <= left && at % BSIZE + m <= BSIZE && (m < left ==> (at + m) % BSIZE == 0)
  {
  }

  lemma NextBlock(size: nat, at: nat)
    ensures var k := SlotsFor(Max(size, at)); k != NDIRECT + 1 && at / BSIZE <= FileBlocks(k)
  {
  }

  lemma SlotsMonotone(a: nat, b: nat)
    requires a <= b
    ensures SlotsFor(a) <= SlotsFor(b)
  {
  }

  lemma SlotsAfter(size: nat, off: nat, n: nat)
    requires off <= size
    ensures SizeAfter(size, off, n) == Max(size, off + n)
    ensures SlotsFor(size) <= SlotsFor(Max(size, off + n))
    ensures LogBound(size, off, n) == Rounds(off, n) + (SlotsFor(Max(size, off + n)) - SlotsFor(size)) + 2
  {
    SlotsMonotone(size, Max(size, off + n));
  }

  /** Since `logged0`, only `data` blocks, `maps` of the bitmap and the indirect block were
      logged, and there are at most `d` and `m` of the first two. */
  ghost predicate LogCount(logged: set<nat>, logged0: set<nat>, data: set<nat>, maps: set<nat>, addrs: seq<int>,
                           d: nat, m: nat) {
    |data| <= d && |maps| <= m && logged <= logged0 + data + maps + Indirect(addrs)
  }

  lemma LogCountNone(logged: set<nat>, addrs: seq<int>)
    ensures LogCount(logged, logged, {}, {}, addrs, 0, 0)
  {
  }

  lemma LogCountStep(logged0: set<nat>, logged: set<nat>, addrs: seq<int>, data: set<nat>, maps: set<nat>, d: nat,
                     m: nat, maps': set<nat>, m': nat, b: nat, logged': set<nat>, addrs': seq<int>)
    requires LogCount(logged, logged0, data, maps, addrs, d, m) && SameIndirect(addrs, addrs')
    requires |maps'| <= m' && logged' <= logged + maps' + {b} + Indirect(addrs')
    ensures LogCount(logged', logged0, data + {b}, maps + maps', addrs', d + 1, m + m')
  {
    assert Indirect(addrs) <= Indirect(addrs');
    UnionSize(data, {b});
    UnionSize(maps, maps');
  }

  lemma UnionSize(a: set<nat>, b: set<nat>)
    ensures |a + b| <= |a| + |b|
  {
    assert a + b == a + (b - a);
    SubsetSize(b - a, b);
  }

  lemma CountLogged(logged: set<nat>, logged0: set<nat>, data: set<nat>, maps: set<nat>, addrs: seq<int>, d: nat,
                    m: nat)
    requires LogCount(logged, logged0, data, maps, addrs, d, m)
    ensures |logged| <= |logged0| + d + m + 1
  {
    SubsetSize(logged, logged0 + data + maps + Indirect(addrs));
    UnionSize(logged0 + data + maps, Indirect(addrs));
    UnionSize(logged0 + data, maps);
    UnionSize(logged0, data);
  }

  lemma {:induction false} SubsetSize(a: set<nat>, b: set<nat>)
    requires a <= b
    ensures |a| <= |b|
  {
    if a != {} {
      var x :| x in a;
      SubsetSize(a - {x}, b - {x});
    }
  }

  function Indirect(addrs: seq<int>): set<nat> {
    if |addrs| == NDIRECT + 1 && addrs[NDIRECT] > 0 then {addrs[NDIRECT]} else {}
  }

  lemma TouchedIndirect(sb: Super, blocks: seq<Block>, bitmap: seq<bool>, owner: seq<Owner>, tab: seq<Dinode>,
                        inum: nat, k: nat, bn: nat, b: nat)
    requires FsInv(sb, blocks, bitmap, owner, tab, inum, k) && SlotOf(bn) < k
    ensures Touched(tab[inum].addrs, bn, b) <= {b} + Indirect(tab[inum].addrs)
  {
    SlotFacts(sb, blocks, bitmap, owner, tab, inum, k, NDIRECT);
  }

  lemma UsedSlot(bn: nat, k: nat, k': nat)
    requires k' == if k <= SlotOf(bn) then SlotOf(bn) + 1 else k
    ensures SlotOf(bn) < k' && k <= k'
  {
  }

  lemma SizesKept(blocks0: seq<Block>, tab0: seq<Dinode>, inum: nat, k0: nat, off: nat, src: seq<int>, tot: nat,
                  blocks: seq<Block>, tab: seq<Dinode>, k: nat)
    requires inum < |tab0| && Written(blocks0, tab0, inum, k0, off, src, tot, blocks, tab, k)
    ensures |tab| == |tab0| && forall i :: 0 <= i < |tab| ==> tab[i].size == tab0[i].size
  {
  }

  /** The file blocks that `k` used slots make. */
  function FileBlocks(k: nat): nat {
    if k <= NDIRECT then k else k - 1
  }

  /** Once a file has an indirect block, it keeps it. */
  predicate SameIndirect(addrs: seq<int>, addrs': seq<int>) {
    |addrs| == |addrs'| == NDIRECT + 1 && (addrs[NDIRECT] != 0 ==> addrs'[NDIRECT] == addrs[NDIRECT])
  }

  /** The blocks bmap may log besides bitmap blocks. */
  function Touched(addrs: seq<int>, bn: nat, b: nat): set<nat> {
    if bn >= NDIRECT && |addrs| == NDIRECT + 1 && addrs[NDIRECT] >= 0 then {b, addrs[NDIRECT]} else {b}
  }

  lemma AllocSlot(sb: Super, blocks: seq<Block>, bitmap: seq<bool>, owner: seq<Owner>, tab: seq<Dinode>, inum: nat,
                  k: nat, b: nat)
    requires FsInv(sb, blocks, bitmap, owner, tab, inum, k) && k < NSLOT && b < sb.size && !bitmap[b]
    requires |tab[inum].addrs| == NDIRECT + 1
    requires NDIRECT < k ==> 0 <= tab[inum].addrs[NDIRECT] < |blocks| && tab[inum].addrs[NDIRECT] != b
    ensures Slot(StoreBlocks(blocks, tab[inum].addrs, k, b), StoreAddrs(tab[inum].addrs, k, b), k) == b
  {
    assert OwnerOk(sb, blocks, bitmap, owner, tab, b);
    assert FileOk(sb, blocks, owner, inum, tab[inum].addrs, Used(tab, inum, k, inum));
    StoredSlot(sb, blocks, owner, inum, tab[inum].addrs, k, b, k);
  }
}
