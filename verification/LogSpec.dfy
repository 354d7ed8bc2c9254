/** What the redo log of log.c does to the disk, block write by block write, and why a
    crash at any of those writes is harmless. The log area is the header block at
    `start` and the `size - 1` blocks behind it. */
module LogSpec {
  import opened Common
  import opened BufferCaches

  const LOGSIZE := MAXOPBLOCKS * 3

  datatype Area = Area(start: nat, size: nat)

  predicate InArea(a: Area, b: nat) {
    a.start <= b < a.start + a.size
  }

  /** The block list after log_write of block `b`. */
  function Absorb(blocks: seq<nat>, b: nat): seq<nat> {
    if b in blocks then blocks else blocks + [b]
  }

  function AbsorbAll(blocks: seq<nat>, more: seq<nat>): seq<nat>
    decreases |more|
  {
    if more == [] then blocks else AbsorbAll(Absorb(blocks, more[0]), more[1..])
  }

  /** The log holds whatever `k` operations log, on top of what is logged already. */
  ghost predicate RoomFor(blocks: seq<nat>, k: nat) {
    forall more: seq<nat> :: |more| <= k * MAXOPBLOCKS ==> |AbsorbAll(blocks, more)| <= LOGSIZE
  }

  lemma {:induction false} AbsorbAllCount(blocks: seq<nat>, more: seq<nat>)
    ensures |AbsorbAll(blocks, more)| <= |blocks| + |more|
    ensures Distinct(more) && (forall b :: b in more ==> b !in blocks) ==>
      |AbsorbAll(blocks, more)| == |blocks| + |more|
    decreases |more|
  {
    if more != [] {
      var blocks' := Absorb(blocks, more[0]);
      AbsorbAllCount(blocks', more[1..]);
      if Distinct(more) && forall b :: b in more ==> b !in blocks {
        forall b | b in more[1..]
          ensures b !in blocks'
        {
          var i :| 0 <= i < |more[1..]| && more[1..][i] == b;
          assert more[i + 1] == b;
        }
      }
    }
  }

  lemma {:induction false} Above(blocks: seq<nat>) returns (m: nat)
    ensures forall b :: b in blocks ==> b < m
  {
    if blocks == [] {
      m := 0;
    } else {
      m := Above(blocks[1..]);
      m := Max(m, blocks[0] + 1);
      assert blocks == [blocks[0]] + blocks[1..];
    }
  }

  /** begin_op's sum is exactly the room needed. */
  lemma {:induction false} RoomForIff(blocks: seq<nat>, k: nat)
    ensures RoomFor(blocks, k) <==> |blocks| + k * MAXOPBLOCKS <= LOGSIZE
  {
    var m := Above(blocks);
    var worst := seq(k * MAXOPBLOCKS, i => m + i);
    AbsorbAllCount(blocks, worst);
    forall more: seq<nat> | |more| <= k * MAXOPBLOCKS
      ensures |AbsorbAll(blocks, more)| <= |blocks| + k * MAXOPBLOCKS
    {
      AbsorbAllCount(blocks, more);
    }
  }

  /** A block list the in-memory header can hold: distinct home blocks outside the log. */
  ghost predicate Listed(a: Area, blocks: seq<nat>, diskSize: nat) {
    && 0 < a.size && a.start + a.size <= diskSize
    && |blocks| <= LOGSIZE && (blocks != [] ==> 2 <= a.size)
    && Distinct(blocks)
    && (forall i :: 0 <= i < |blocks| ==> blocks[i] < diskSize && !InArea(a, blocks[i]))
  }

  /** A block list the log area has room for. */
  ghost predicate WfBlocks(a: Area, blocks: seq<nat>, diskSize: nat) {
    Listed(a, blocks, diskSize) && |blocks| < a.size
  }

  /** The block list an on-disk header holds. */
  function HeaderBlocks(h: Block): seq<nat>
    requires HeaderOk(h)
  {
    h.words[1..1 + h.words[0]]
  }

  predicate HeaderOk(h: Block) {
    |h.words| == WORDS && h.words[0] < WORDS
  }

  /** The header after write_head: count and entries replaced, the other words as they were. */
  function SetHeader(h: Block, blocks: seq<nat>): (r: Block)
    requires |h.words| == WORDS && |blocks| < WORDS
    ensures HeaderOk(r) && HeaderBlocks(r) == blocks
  {
    Block([|blocks|] + blocks + h.words[1 + |blocks|..])
  }

  ghost predicate EmptyHeader(a: Area, image: seq<Block>) {
    a.start < |image| && HeaderOk(image[a.start]) && HeaderBlocks(image[a.start]) == []
  }

  ghost predicate WfDisk(a: Area, image: seq<Block>) {
    && a.start < |image| && HeaderOk(image[a.start])
    && WfBlocks(a, HeaderBlocks(image[a.start]), |image|)
  }

  /** The disk after write_log has copied the first `j` pending blocks. */
  function Logged(a: Area, image: seq<Block>, blocks: seq<nat>, pending: map<nat, Block>, j: nat): (r: seq<Block>)
    requires WfBlocks(a, blocks, |image|) && j <= |blocks|
    requires forall b :: b in blocks ==> b in pending
    ensures |r| == |image|
  {
    if j == 0 then image
    else Logged(a, image, blocks, pending, j - 1)[a.start + j := pending[blocks[j - 1]]]
  }

  /** The disk after install_trans has copied the first `j` log blocks home. */
  function Installed(a: Area, image: seq<Block>, blocks: seq<nat>, j: nat): (r: seq<Block>)
    requires WfBlocks(a, blocks, |image|) && j <= |blocks|
    ensures |r| == |image|
  {
    if j == 0 then image else Installed(a, image, blocks, j - 1)[blocks[j - 1] := image[a.start + j]]
  }

  lemma {:induction false} LoggedAt(a: Area, image: seq<Block>, blocks: seq<nat>, pending: map<nat, Block>, j: nat,
                                    b: nat)
    requires WfBlocks(a, blocks, |image|) && j <= |blocks| && b < |image|
    requires forall b :: b in blocks ==> b in pending
    ensures Logged(a, image, blocks, pending, j)[b]
         == if a.start < b <= a.start + j then pending[blocks[b - a.start - 1]] else image[b]
  {
    if j > 0 {
      LoggedAt(a, image, blocks, pending, j - 1, b);
    }
  }

  /** Installing writes nothing but the listed blocks. */
  lemma {:induction false} InstalledElsewhere(a: Area, image: seq<Block>, blocks: seq<nat>, j: nat, b: nat)
    requires WfBlocks(a, blocks, |image|) && j <= |blocks| && b < |image|
    requires forall i :: 0 <= i < j ==> blocks[i] != b
    ensures Installed(a, image, blocks, j)[b] == image[b]
  {
    if j > 0 {
      InstalledElsewhere(a, image, blocks, j - 1, b);
    }
  }

  lemma {:induction false} InstalledEntry(a: Area, image: seq<Block>, blocks: seq<nat>, j: nat, i: nat)
    requires WfBlocks(a, blocks, |image|) && i < j <= |blocks|
    ensures Installed(a, image, blocks, j)[blocks[i]] == image[a.start + 1 + i]
  {
    if i < j - 1 {
      InstalledEntry(a, image, blocks, j - 1, i);
      assert blocks[i] != blocks[j - 1];
    }
  }

  function Cleared(a: Area, image: seq<Block>): seq<Block>
    requires a.start < |image| && |image[a.start].words| == WORDS
  {
    image[a.start := SetHeader(image[a.start], [])]
  }

  /** The disk after recover_from_log has run to completion. */
  function Recovered(a: Area, image: seq<Block>): seq<Block>
    requires WfDisk(a, image)
  {
    var blocks := HeaderBlocks(image[a.start]);
    InstalledElsewhere(a, image, blocks, |blocks|, a.start);
    Cleared(a, Installed(a, image, blocks, |blocks|))
  }

  function LogTrace(a: Area, image: seq<Block>, blocks: seq<nat>, pending: map<nat, Block>,
                    j: nat): (t: seq<seq<Block>>)
    requires WfBlocks(a, blocks, |image|) && j <= |blocks|
    requires forall b :: b in blocks ==> b in pending
    ensures |t| == j
  {
    if j == 0 then [] else LogTrace(a, image, blocks, pending, j - 1) + [Logged(a, image, blocks, pending, j)]
  }

  function InstallTrace(a: Area, image: seq<Block>, blocks: seq<nat>, j: nat): (t: seq<seq<Block>>)
    requires WfBlocks(a, blocks, |image|) && j <= |blocks|
    ensures |t| == j
  {
    if j == 0 then [] else InstallTrace(a, image, blocks, j - 1) + [Installed(a, image, blocks, j)]
  }

  /** How one more round changes the disk and its history. */
  lemma LogStep(a: Area, image: seq<Block>, blocks: seq<nat>, pending: map<nat, Block>, j: nat)
    requires WfBlocks(a, blocks, |image|) && j <= |blocks|
    requires forall b :: b in blocks ==> b in pending
    ensures Logged(a, image, blocks, pending, j) == if j == 0 then image
      else Logged(a, image, blocks, pending, j - 1)[a.start + j := pending[blocks[j - 1]]]
    ensures LogTrace(a, image, blocks, pending, j) == if j == 0 then []
      else LogTrace(a, image, blocks, pending, j - 1) + [Logged(a, image, blocks, pending, j)]
  {
  }

  lemma InstallStep(a: Area, image: seq<Block>, blocks: seq<nat>, j: nat)
    requires WfBlocks(a, blocks, |image|) && j <= |blocks|
    ensures Installed(a, image, blocks, j) == if j == 0 then image
      else Installed(a, image, blocks, j - 1)[blocks[j - 1] := image[a.start + j]]
    ensures InstallTrace(a, image, blocks, j) == if j == 0 then []
      else InstallTrace(a, image, blocks, j - 1) + [Installed(a, image, blocks, j)]
  {
  }

  lemma {:induction false} LogTraceAt(a: Area, image: seq<Block>, blocks: seq<nat>, pending: map<nat, Block>, j: nat,
                                      i: nat)
    requires WfBlocks(a, blocks, |image|) && i < j <= |blocks|
    requires forall b :: b in blocks ==> b in pending
    ensures LogTrace(a, image, blocks, pending, j)[i] == Logged(a, image, blocks, pending, i + 1)
  {
    if i < j - 1 {
      LogTraceAt(a, image, blocks, pending, j - 1, i);
    }
  }

  lemma {:induction false} InstallTraceAt(a: Area, image: seq<Block>, blocks: seq<nat>, j: nat, i: nat)
    requires WfBlocks(a, blocks, |image|) && i < j <= |blocks|
    ensures InstallTrace(a, image, blocks, j)[i] == Installed(a, image, blocks, i + 1)
  {
    if i < j - 1 {
      InstallTraceAt(a, image, blocks, j - 1, i);
    }
  }

  /** Every image the disk goes through during recovery, one per block write. */
  function RecoveryTrace(a: Area, image: seq<Block>): seq<seq<Block>>
    requires WfDisk(a, image)
  {
    var blocks := HeaderBlocks(image[a.start]);
    InstallTrace(a, image, blocks, |blocks|) + [Recovered(a, image)]
  }

  /** The disk right after write_head has written the block list: the commit point. */
  function Committed(a: Area, image: seq<Block>, blocks: seq<nat>, pending: map<nat, Block>): (r: seq<Block>)
    requires WfBlocks(a, blocks, |image|) && EmptyHeader(a, image)
    requires forall b :: b in blocks ==> b in pending
    ensures WfDisk(a, r) && HeaderBlocks(r[a.start]) == blocks && |r| == |image|
  {
    var logged := Logged(a, image, blocks, pending, |blocks|);
    LoggedAt(a, image, blocks, pending, |blocks|, a.start);
    logged[a.start := SetHeader(logged[a.start], blocks)]
  }

  /** Every image the disk goes through during commit. */
  function CommitTrace(a: Area, image: seq<Block>, blocks: seq<nat>, pending: map<nat, Block>): seq<seq<Block>>
    requires WfBlocks(a, blocks, |image|) && EmptyHeader(a, image)
    requires forall b :: b in blocks ==> b in pending
  {
    var committed := Committed(a, image, blocks, pending);
    LogTrace(a, image, blocks, pending, |blocks|) + [committed] + RecoveryTrace(a, committed)
  }

  /** The home blocks of two disks agree. */
  ghost predicate SameHome(a: Area, d: seq<Block>, d': seq<Block>) {
    |d| == |d'| && forall b: nat :: b < |d| && !InArea(a, b) ==> d[b] == d'[b]
  }

  lemma SameHomeTrans(a: Area, d: seq<Block>, d': seq<Block>, d'': seq<Block>)
    requires SameHome(a, d, d') && SameHome(a, d', d'')
    ensures SameHome(a, d, d'')
  {
  }

  /** The disk with the whole transaction applied. */
  function Applied(image: seq<Block>, blocks: seq<nat>, pending: map<nat, Block>): (r: seq<Block>)
    requires forall b :: b in blocks ==> b in pending
    ensures |r| == |image|
    ensures forall b: nat :: b < |image| ==> r[b] == if b in blocks then pending[b] else image[b]
  {
    seq(|image|, b requires 0 <= b < |image| => if b in blocks then pending[b] else image[b])
  }

  /** Once the header is written, recovery applies exactly the transaction. */
  lemma {:induction false} CommittedRecovers(a: Area, image: seq<Block>, blocks: seq<nat>, pending: map<nat, Block>)
    requires WfBlocks(a, blocks, |image|) && EmptyHeader(a, image)
    requires forall b :: b in blocks ==> b in pending
    ensures SameHome(a, Recovered(a, Committed(a, image, blocks, pending)), Applied(image, blocks, pending))
  {
    var recovered := Recovered(a, Committed(a, image, blocks, pending));
    forall b: nat | b < |image| && !InArea(a, b)
      ensures recovered[b] == Applied(image, blocks, pending)[b]
    {
      CommittedRecoversAt(a, image, blocks, pending, b);
    }
  }

  lemma {:induction false} CommittedRecoversAt(a: Area, image: seq<Block>, blocks: seq<nat>, pending: map<nat,
                                               Block>, b: nat)
    requires WfBlocks(a, blocks, |image|) && EmptyHeader(a, image) && b < |image| && !InArea(a, b)
    requires forall b :: b in blocks ==> b in pending
    ensures Recovered(a, Committed(a, image, blocks, pending))[b] == if b in blocks then pending[b] else image[b]
  {
    hide Installed, Logged, SetHeader;
    var committed := Committed(a, image, blocks, pending);
    if b in blocks {
      var i :| 0 <= i < |blocks| && blocks[i] == b;
      InstalledEntry(a, committed, blocks, |blocks|, i);
      LoggedAt(a, image, blocks, pending, |blocks|, a.start + 1 + i);
    } else {
      InstalledElsewhere(a, committed, blocks, |blocks|, b);
      LoggedAt(a, image, blocks, pending, |blocks|, b);
    }
  }

  /** Installing all blocks again over a partial install gives the full install. */
  lemma {:induction false} InstallResumes(a: Area, image: seq<Block>, blocks: seq<nat>, j: nat)
    requires WfBlocks(a, blocks, |image|) && j <= |blocks|
    ensures Installed(a, Installed(a, image, blocks, j), blocks, |blocks|) == Installed(a, image, blocks, |blocks|)
    ensures forall b: nat :: b < |image| && InArea(a, b) ==> Installed(a, image, blocks, j)[b] == image[b]
  {
    var n := |blocks|;
    var part := Installed(a, image, blocks, j);
    forall b: nat | b < |image|
      ensures Installed(a, part, blocks, n)[b] == Installed(a, image, blocks, n)[b]
      ensures InArea(a, b) ==> part[b] == image[b]
    {
      if b in blocks {
        var i :| 0 <= i < n && blocks[i] == b;
        InstalledEntry(a, part, blocks, n, i);
        InstalledEntry(a, image, blocks, n, i);
        InstalledElsewhere(a, image, blocks, j, a.start + 1 + i);
      } else {
        InstalledElsewhere(a, part, blocks, n, b);
        InstalledElsewhere(a, image, blocks, n, b);
        InstalledElsewhere(a, image, blocks, j, b);
      }
    }
  }

  /** Recovery interrupted after any of its writes leaves a disk that recovers to the same home blocks. */
  lemma {:induction false} RecoveryResumes(a: Area, image: seq<Block>, k: nat)
    requires WfDisk(a, image) && k < |RecoveryTrace(a, image)|
    ensures WfDisk(a, RecoveryTrace(a, image)[k])
    ensures SameHome(a, Recovered(a, RecoveryTrace(a, image)[k]), Recovered(a, image))
  {
    var blocks := HeaderBlocks(image[a.start]);
    if k < |blocks| {
      InstallResumes(a, image, blocks, k + 1);
      InstallTraceAt(a, image, blocks, |blocks|, k);
    } else {
      ClearedRecovers(a, Recovered(a, image));
    }
  }

  /** A disk with an empty header recovers to its own home blocks. */
  lemma ClearedRecovers(a: Area, image: seq<Block>)
    requires a.start + a.size <= |image| && 0 < a.size && EmptyHeader(a, image)
    ensures WfDisk(a, image) && SameHome(a, Recovered(a, image), image)
  {
  }

  /** A crash at any write of a commit is all-or-nothing: the old home blocks up to the
      write of the header, the whole transaction from there on. */
  lemma {:induction false} CommitAtomic(a: Area, image: seq<Block>, blocks: seq<nat>, pending: map<nat, Block>, k: nat)
    requires WfBlocks(a, blocks, |image|) && EmptyHeader(a, image)
    requires forall b :: b in blocks ==> b in pending
    requires k < |CommitTrace(a, image, blocks, pending)|
    ensures var crash := CommitTrace(a, image, blocks, pending)[k];
      && WfDisk(a, crash)
      && SameHome(a, Recovered(a, crash), if k < |blocks| then image else Applied(image, blocks, pending))
  {
    hide *;
    var n := |blocks|;
    CommitTraceAt(a, image, blocks, pending, k);
    if k < n {
      CrashWhileLogging(a, image, blocks, pending, k + 1);
    } else {
      CommittedRecovers(a, image, blocks, pending);
      if k > n {
        RecoveryResumes(a, Committed(a, image, blocks, pending), k - n - 1);
        SameHomeTrans(a, Recovered(a, CommitTrace(a, image, blocks, pending)[k]),
                      Recovered(a, Committed(a, image, blocks, pending)), Applied(image, blocks, pending));
      }
    }
  }

  /** The three phases of a commit. */
  lemma CommitTraceAt(a: Area, image: seq<Block>, blocks: seq<nat>, pending: map<nat, Block>, k: nat)
    requires WfBlocks(a, blocks, |image|) && EmptyHeader(a, image)
    requires forall b :: b in blocks ==> b in pending
    requires k < |CommitTrace(a, image, blocks, pending)|
    ensures var crash := CommitTrace(a, image, blocks, pending)[k];
      var n, committed := |blocks|, Committed(a, image, blocks, pending);
      if k < n then crash == Logged(a, image, blocks, pending, k + 1)
      else if k == n then crash == committed
      else k - n - 1 < |RecoveryTrace(a, committed)| && crash == RecoveryTrace(a, committed)[k - n - 1]
  {
    if k < |blocks| {
      LogTraceAt(a, image, blocks, pending, |blocks|, k);
    }
  }

  lemma CrashWhileLogging(a: Area, image: seq<Block>, blocks: seq<nat>, pending: map<nat, Block>, j: nat)
    requires WfBlocks(a, blocks, |image|) && j <= |blocks| && EmptyHeader(a, image)
    requires forall b :: b in blocks ==> b in pending
    ensures var crash := Logged(a, image, blocks, pending, j);
      WfDisk(a, crash) && SameHome(a, Recovered(a, crash), image)
  {
    var crash := Logged(a, image, blocks, pending, j);
    forall b: nat | b < |image| && (b == a.start || !InArea(a, b))
      ensures crash[b] == image[b]
    {
      LoggedAt(a, image, blocks, pending, j, b);
    }
    ClearedRecovers(a, crash);
  }

  /** What commit has achieved at its end, with or without blocks to write. */
  lemma CommitMeans(a: Area, image: seq<Block>, blocks: seq<nat>, pending: map<nat, Block>)
    requires WfBlocks(a, blocks, |image|) && EmptyHeader(a, image)
    requires forall b :: b in blocks ==> b in pending
    ensures var committed := Committed(a, image, blocks, pending);
      && WfDisk(a, committed) && EmptyHeader(a, Recovered(a, committed))
      && SameHome(a, Recovered(a, committed), Applied(image, blocks, pending))
      && (blocks == [] ==> SameHome(a, image, Applied(image, blocks, pending)))
  {
    CommittedRecovers(a, image, blocks, pending);
    InstalledElsewhere(a, Committed(a, image, blocks, pending), blocks, |blocks|, a.start);
  }

  /** `image` is what repeated crashes during recovery leave: recovery started from
      `image0` crashed after its write `crashes[0]`, the next one after `crashes[1]`, ... */
  ghost predicate CrashRun(a: Area, image0: seq<Block>, crashes: seq<nat>, image: seq<Block>)
    decreases |crashes|
  {
    if crashes == [] then image == image0
    else
      && WfDisk(a, image0) && crashes[0] < |RecoveryTrace(a, image0)|
      && CrashRun(a, RecoveryTrace(a, image0)[crashes[0]], crashes[1..], image)
  }

  lemma {:induction false} RepeatedRecovery(a: Area, image0: seq<Block>, crashes: seq<nat>, image: seq<Block>)
    requires WfDisk(a, image0) && CrashRun(a, image0, crashes, image)
    ensures WfDisk(a, image) && SameHome(a, Recovered(a, image), Recovered(a, image0))
    decreases |crashes|
  {
    if crashes != [] {
      RecoveryResumes(a, image0, crashes[0]);
      RepeatedRecovery(a, RecoveryTrace(a, image0)[crashes[0]], crashes[1..], image);
    }
  }

  /** Crash atomicity. Stop a commit after any of its writes, then crash any number of
      recoveries after any of theirs; the recovery that completes leaves every home block
      as before the transaction if the header was not yet written, and else every
      home block as after it. */
  lemma {:induction false} CrashAtomicity(a: Area, image: seq<Block>, blocks: seq<nat>, pending: map<nat, Block>,
                                          k: nat, crashes: seq<nat>, crashed: seq<Block>)
    requires WfBlocks(a, blocks, |image|) && EmptyHeader(a, image)
    requires forall b :: b in blocks ==> b in pending
    requires k < |CommitTrace(a, image, blocks, pending)|
    requires CrashRun(a, CommitTrace(a, image, blocks, pending)[k], crashes, crashed)
    ensures WfDisk(a, crashed)
    ensures SameHome(a, Recovered(a, crashed), if k < |blocks| then image else Applied(image, blocks, pending))
  {
    CommitAtomic(a, image, blocks, pending, k);
    RepeatedRecovery(a, CommitTrace(a, image, blocks, pending)[k], crashes, crashed);
  }
}
