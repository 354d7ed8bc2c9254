/** Any sequence of writei and itrunc calls on any files: the file system of fs.c behaves as
    one in which files are strings of bytes. */
module FileCalls {
  import opened Common
  import opened FsSpec
  import opened FileSystems

  /** Every file as a string of bytes, by inode number, and the number of free blocks. */
  datatype Files = Files(bytes: seq<seq<int>>, free: nat)

  datatype Call = Write(inum: nat, src: seq<int>, off: nat) | Truncate(inum: nat)

  /** What a call does to the files; None is the panic for want of free blocks. */
  function Do(f: Files, c: Call): Option<Files>
    requires c.inum < |f.bytes|
  {
    var file := f.bytes[c.inum];
    match c
    case Write(i, src, off) =>
      if !WriteAllowed(|file|, off, |src|) then Some(f)
      else
        var need := SlotsFor(SizeAfter(|file|, off, |src|)) - SlotsFor(|file|);
        if f.free < need then None else Some(Files(f.bytes[i := Splice(file, off, src)], f.free - need))
    case Truncate(i) =>
      Some(Files(f.bytes[i := []], f.free + SlotsFor(|file|)))
  }

  function DoAll(f: Files, cs: seq<Call>): (r: Option<Files>)
    requires forall c :: c in cs ==> c.inum < |f.bytes|
    ensures r.Some? ==> |r.value.bytes| == |f.bytes|
  {
    if cs == [] then Some(f)
    else
      var before := DoAll(f, cs[..|cs| - 1]);
      if before.None? then None else Do(before.value, cs[|cs| - 1])
  }

  lemma {:induction false} Stopped(f: Files, cs: seq<Call>, k: nat)
    requires (forall c :: c in cs ==> c.inum < |f.bytes|) && k <= |cs| && DoAll(f, cs[..k]).None?
    ensures DoAll(f, cs).None?
    decreases |cs| - k
  {
    if k < |cs| {
      assert cs[..k + 1][..k] == cs[..k];
      Stopped(f, cs, k + 1);
    } else {
      assert cs[..k] == cs;
    }
  }

  /** The blocks that `files` take, with their indirect blocks. */
  function AllSlots(files: seq<seq<int>>): nat {
    if files == [] then 0 else AllSlots(files[..|files| - 1]) + SlotsFor(|files[|files| - 1]|)
  }

  lemma {:induction false} AllSlotsUpdate(files: seq<seq<int>>, i: nat, file: seq<int>)
    requires i < |files|
    ensures AllSlots(files[i := file]) == AllSlots(files) - SlotsFor(|files[i]|) + SlotsFor(|file|)
  {
    var n := |files| - 1;
    if i == n {
      assert files[i := file][..n] == files[..n];
    } else {
      AllSlotsUpdate(files[..n], i, file);
      assert files[i := file][..n] == files[..n][i := file];
    }
  }

  lemma {:induction false} CallAddsUp(f: Files, c: Call)
    requires c.inum < |f.bytes|
    ensures var r := Do(f, c);
      r.Some? ==> r.value.free + AllSlots(r.value.bytes) == f.free + AllSlots(f.bytes)
  {
    hide SlotsFor, AllSlots;
    var r := Do(f, c);
    if r.Some? {
      AllSlotsUpdate(f.bytes, c.inum, r.value.bytes[c.inum]);
      if c.Write? && WriteAllowed(|f.bytes[c.inum]|, c.off, |c.src|) {
        assert |r.value.bytes[c.inum]| == SizeAfter(|f.bytes[c.inum]|, c.off, |c.src|);
      } else if c.Write? {
        assert f.bytes[c.inum := f.bytes[c.inum]] == f.bytes;
      } else {
        assert SlotsFor(0) == 0 by {
          NoSlots();
        }
      }
    }
  }

  lemma NoSlots()
    ensures SlotsFor(0) == 0
  {
  }

  /** Whatever is called, the free blocks and those of the files, with the indirect blocks,
      add up to the same number: no block is lost and none is used twice. */
  lemma {:induction false} BlocksAddUp(f: Files, cs: seq<Call>)
    requires forall c :: c in cs ==> c.inum < |f.bytes|
    ensures var r := DoAll(f, cs);
      r.Some? ==> r.value.free + AllSlots(r.value.bytes) == f.free + AllSlots(f.bytes)
  {
    hide Do;
    if cs != [] {
      BlocksAddUp(f, cs[..|cs| - 1]);
      var before := DoAll(f, cs[..|cs| - 1]);
      if before.Some? {
        CallAddsUp(before.value, cs[|cs| - 1]);
      }
    }
  }

  // ----- The file system -----

  function Contents(blocks: seq<Block>, tab: seq<Dinode>): seq<seq<int>> {
    seq(|tab|, i requires 0 <= i < |tab| => Content(blocks, tab[i]))
  }

  ghost function Seen(fs: FileSystem): Files
    reads fs
  {
    Files(Contents(fs.blocks, fs.dinodes), |FreeBlocks(fs.bitmap)|)
  }

  lemma OneChanged(blocks: seq<Block>, tab: seq<Dinode>, blocks': seq<Block>, tab': seq<Dinode>, i: nat)
    requires i < |tab| && OthersKept(i, blocks, tab, blocks', tab')
    ensures Contents(blocks', tab') == Contents(blocks, tab)[i := Content(blocks', tab'[i])]
  {
    hide Content;
  }

  /** The inodes in memory, by number, agree with the disk. */
  ghost predicate Cached(fs: FileSystem, ips: map<nat, Inode>)
    reads fs, ips.Values
  {
    forall i :: i in ips ==> ips[i].inum == i && fs.AtRest(ips[i])
  }

  /** An inode that no call was made on is still at rest. */
  lemma {:induction false} StaysAtRest(fs: FileSystem, a: Inode, b: Inode)
    requires fs.AtRest(a) && b.inum < |fs.dinodes| && fs.dinodes[b.inum] == b.Value()
    ensures fs.AtRest(b)
  {
    assert fs.Tab(a) == fs.dinodes && fs.Tab(b) == fs.dinodes;
    AnyFile(fs.sb, fs.blocks, fs.bitmap, fs.owner, fs.dinodes, a.inum, b.inum);
  }

  /** Between operations the invariant is about no file in particular. */
  lemma {:induction false} AnyFile(sb: Super, blocks: seq<Block>, bitmap: seq<bool>, owner: seq<Owner>,
                                   tab: seq<Dinode>, i: nat, j: nat)
    requires i < |tab| && j < |tab| && FsInv(sb, blocks, bitmap, owner, tab, i, SlotsFor(tab[i].size))
    ensures FsInv(sb, blocks, bitmap, owner, tab, j, SlotsFor(tab[j].size))
  {
    forall x | 0 <= x < |tab|
      ensures FileOk(sb, blocks, owner, x, tab[x].addrs, Used(tab, j, SlotsFor(tab[j].size), x))
    {
      assert FileOk(sb, blocks, owner, x, tab[x].addrs, Used(tab, i, SlotsFor(tab[i].size), x));
    }
  }

  /** The calls gave `after`, or panicked where that is None. */
  ghost predicate Does(fs: FileSystem, ips: map<nat, Inode>, after: Option<Files>, ok: bool)
    reads fs, ips.Values
  {
    (ok <==> after.Some?) && (ok ==> Cached(fs, ips) && Seen(fs) == after.value)
  }

  /** Work on inode `inum` changed no other inode in memory or on the disk, where `tab` was
      before. */
  lemma StillCached(fs: FileSystem, ips: map<nat, Inode>, tab: seq<Dinode>, inum: nat)
    requires inum in ips && fs.AtRest(ips[inum]) && inum < |tab|
    requires forall i :: i in ips ==> ips[i].inum == i && i < |tab| && (i != inum ==> ips[i].Value() == tab[i])
    requires fs.dinodes == tab[inum := ips[inum].Value()]
    ensures Cached(fs, ips)
  {
    hide FileSystem.AtRest;
    forall i | i in ips
      ensures ips[i].inum == i && fs.AtRest(ips[i])
    {
      if i != inum {
        StaysAtRest(fs, ips[inum], ips[i]);
      }
    }
  }

  method PerformWrite(fs: FileSystem, ips: map<nat, Inode>, inum: nat, src: seq<int>, off: nat) returns (ok: bool)
    requires Cached(fs, ips) && inum in ips && off < WORD && |src| < WORD
    modifies fs, ips.Values
    ensures inum < |old(Seen(fs)).bytes|
    ensures Does(fs, ips, Do(old(Seen(fs)), Write(inum, src, off)), ok)
  {
    hide FsInv, Content, Splice, SlotsFor, FreeBlocks, Recorded, OthersKept;
    ghost var blocks0, tab0 := fs.blocks, fs.dinodes;
    var r := fs.Writei(ips[inum], src, off);
    ok := r.Some?;
    if ok && WriteAllowed(|Content(blocks0, tab0[inum])|, off, |src|) {
      OneChanged(blocks0, tab0, fs.blocks, fs.dinodes, inum);
      StillCached(fs, ips, tab0, inum);
    }
  }

  method PerformTruncate(fs: FileSystem, ips: map<nat, Inode>, inum: nat) returns (ok: bool)
    requires Cached(fs, ips) && inum in ips
    modifies fs, ips.Values
    ensures inum < |old(Seen(fs)).bytes|
    ensures Does(fs, ips, Do(old(Seen(fs)), Truncate(inum)), ok)
  {
    hide FsInv, SlotsFor, FreeBlocks, Recorded;
    ghost var blocks0, tab0 := fs.blocks, fs.dinodes;
    ok := fs.Itrunc(ips[inum]);
    assert Content(fs.blocks, fs.dinodes[inum]) == [];
    OneChanged(blocks0, tab0, fs.blocks, fs.dinodes, inum);
    StillCached(fs, ips, tab0, inum);
  }

  /** One call does to the files what Do says, and panics exactly if Do does. */
  method Perform(fs: FileSystem, ips: map<nat, Inode>, c: Call) returns (ok: bool)
    requires Cached(fs, ips) && c.inum in ips && (c.Write? ==> c.off < WORD && |c.src| < WORD)
    modifies fs, ips.Values
    ensures c.inum < |old(Seen(fs)).bytes|
    ensures Does(fs, ips, Do(old(Seen(fs)), c), ok)
  {
    match c
    case Write(i, src, off) =>
      ok := PerformWrite(fs, ips, i, src, off);
    case Truncate(i) =>
      ok := PerformTruncate(fs, ips, i);
  }

  /** Any sequence of calls, on any files: it does what DoAll says, and it stops in a panic
      exactly if DoAll does. */
  method Calls(fs: FileSystem, ips: map<nat, Inode>, cs: seq<Call>) returns (ok: bool)
    requires Cached(fs, ips)
    requires forall c :: c in cs ==> c.inum in ips && (c.Write? ==> c.off < WORD && |c.src| < WORD)
    modifies fs, ips.Values
    ensures forall c :: c in cs ==> c.inum < |old(Seen(fs)).bytes|
    ensures Does(fs, ips, DoAll(old(Seen(fs)), cs), ok)
  {
    ghost var f := Seen(fs);
    assert forall i :: i in ips ==> fs.AtRest(ips[i]);
    hide Do, FileSystem.AtRest;
    for k := 0 to |cs|
      invariant Does(fs, ips, DoAll(f, cs[..k]), true)
    {
      assert cs[..k + 1][..k] == cs[..k];
      ok := Perform(fs, ips, cs[k]);
      if !ok {
        Stopped(f, cs, k + 1);
        return;
      }
    }
    assert cs[..|cs|] == cs;
    ok := true;
  }

  /** readi on any file: the bytes that the model has there, and nothing changes. */
  method Read(fs: FileSystem, ips: map<nat, Inode>, inum: nat, off: nat, n: nat) returns (r: int, dst: seq<int>)
    requires Cached(fs, ips) && inum in ips && off < WORD && n < WORD
    modifies fs, ips.Values
    ensures Cached(fs, ips) && Seen(fs) == old(Seen(fs)) && inum < |Seen(fs).bytes|
    ensures var file := Seen(fs).bytes[inum];
      if off <= |file| && off + n < WORD then r == Min(n, |file| - off) && dst == file[off..off + r]
      else r == -1 && dst == []
  {
    hide FsInv, SlotsFor, FreeBlocks, Content;
    r, dst := fs.Readi(ips[inum], off, n);
  }

  /** What was written at a place of a file is read there, and elsewhere what was there before,
      whatever happened to other files meanwhile. */
  lemma {:induction false} ReadsWritten(f: Files, w: Call, cs: seq<Call>, off: nat, n: nat)
    requires w.Write? && w.inum < |f.bytes| && WriteAllowed(|f.bytes[w.inum]|, w.off, |w.src|)
    requires Do(f, w).Some? && forall c :: c in cs ==> c.inum < |f.bytes| && c.inum != w.inum
    requires DoAll(Do(f, w).value, cs).Some?
    ensures var old0, file := f.bytes[w.inum], DoAll(Do(f, w).value, cs).value.bytes[w.inum];
      && |file| == Max(|old0|, w.off + |w.src|) && file[w.off..w.off + |w.src|] == w.src
      && (off + n <= |old0| && (off + n <= w.off || w.off + |w.src| <= off) ==>
            file[off..off + n] == old0[off..off + n])
  {
    hide Splice;
    SpliceReads(f.bytes[w.inum], w.off, w.src);
    OthersAlone(Do(f, w).value, cs, w.inum);
  }

  /** Calls on other files leave a file alone. */
  lemma {:induction false} OthersAlone(f: Files, cs: seq<Call>, i: nat)
    requires i < |f.bytes| && (forall c :: c in cs ==> c.inum < |f.bytes| && c.inum != i) && DoAll(f, cs).Some?
    ensures DoAll(f, cs).value.bytes[i] == f.bytes[i]
    decreases |cs|
  {
    if cs != [] {
      OthersAlone(f, cs[..|cs| - 1], i);
    }
  }
}
