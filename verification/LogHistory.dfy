/** Crashes anywhere in a history of many transactions. */
module LogHistory {
  import opened BufferCaches
  import opened LogSpec

  /** What one commit writes: the listed blocks, with their pending contents. */
  datatype Transaction = Transaction(blocks: seq<nat>, pending: map<nat, Block>)

  ghost predicate Fits(a: Area, t: Transaction, diskSize: nat) {
    WfBlocks(a, t.blocks, diskSize) && forall b :: b in t.blocks ==> b in t.pending
  }

  ghost predicate AllFit(a: Area, ts: seq<Transaction>, diskSize: nat) {
    forall i :: 0 <= i < |ts| ==> Fits(a, ts[i], diskSize)
  }

  /** The disk when the commit of `t` has returned. */
  ghost function Done(a: Area, image: seq<Block>, t: Transaction): (r: seq<Block>)
    requires Fits(a, t, |image|) && EmptyHeader(a, image)
    ensures |r| == |image| && EmptyHeader(a, r) && SameHome(a, r, Applied(image, t.blocks, t.pending))
  {
    CommitMeans(a, image, t.blocks, t.pending);
    if t.blocks == [] then image else Recovered(a, Committed(a, image, t.blocks, t.pending))
  }

  ghost function Trace(a: Area, image: seq<Block>, t: Transaction): seq<seq<Block>>
    requires Fits(a, t, |image|) && EmptyHeader(a, image)
  {
    if t.blocks == [] then [] else CommitTrace(a, image, t.blocks, t.pending)
  }

  /** Every image the disk goes through while the transactions commit in turn. */
  ghost function History(a: Area, image: seq<Block>, ts: seq<Transaction>): seq<seq<Block>>
    requires AllFit(a, ts, |image|) && EmptyHeader(a, image)
    decreases |ts|
  {
    if ts == [] then []
    else Trace(a, image, ts[0]) + History(a, Done(a, image, ts[0]), ts[1..])
  }

  /** The home blocks after whole transactions. */
  ghost function AllApplied(image: seq<Block>, ts: seq<Transaction>): (r: seq<Block>)
    requires forall i, b :: 0 <= i < |ts| && b in ts[i].blocks ==> b in ts[i].pending
    ensures |r| == |image|
    decreases |ts|
  {
    if ts == [] then image else AllApplied(Applied(image, ts[0].blocks, ts[0].pending), ts[1..])
  }

  /** The disk writes of one commit: the blocks into the log, the header, the blocks
      home, the header again. */
  function Writes(t: Transaction): nat {
    if t.blocks == [] then 0 else 2 * |t.blocks| + 2
  }

  /** How many transactions have their header on the disk after write `k` of the history. */
  function Durable(ts: seq<Transaction>, k: nat): (m: nat)
    ensures m <= |ts|
    decreases |ts|
  {
    if ts == [] then 0
    else if k >= Writes(ts[0]) then 1 + Durable(ts[1..], k - Writes(ts[0]))
    else if k < |ts[0].blocks| then 0 else 1
  }

  lemma {:induction false} AppliedSame(a: Area, d: seq<Block>, d': seq<Block>, ts: seq<Transaction>)
    requires SameHome(a, d, d')
    requires forall i, b :: 0 <= i < |ts| && b in ts[i].blocks ==> b in ts[i].pending
    ensures SameHome(a, AllApplied(d, ts), AllApplied(d', ts))
    decreases |ts|
  {
    if ts != [] {
      AppliedSame(a, Applied(d, ts[0].blocks, ts[0].pending), Applied(d', ts[0].blocks, ts[0].pending), ts[1..]);
    }
  }

  lemma TraceLength(a: Area, image: seq<Block>, t: Transaction)
    requires Fits(a, t, |image|) && EmptyHeader(a, image)
    ensures |Trace(a, image, t)| == Writes(t)
  {
  }

  /** A crash after any write of the history recovers to the home blocks after a whole number
      of transactions: those whose header was written, and no part of another. */
  lemma {:induction false} HistoryAtomic(a: Area, image: seq<Block>, ts: seq<Transaction>, k: nat)
    requires AllFit(a, ts, |image|) && EmptyHeader(a, image) && k < |History(a, image, ts)|
    ensures var crash := History(a, image, ts)[k];
      WfDisk(a, crash) && SameHome(a, Recovered(a, crash), AllApplied(image, ts[..Durable(ts, k)]))
    decreases |ts|
  {
    hide Applied, CommitTrace, Recovered, WfBlocks, EmptyHeader, SameHome;
    var t := ts[0];
    TraceLength(a, image, t);
    var m := Durable(ts, k);
    if k < Writes(t) {
      CommitAtomic(a, image, t.blocks, t.pending, k);
      assert m == 1 ==> ts[..m][0] == t && ts[..m][1..] == [];
    } else {
      var done := Done(a, image, t);
      var applied := Applied(image, t.blocks, t.pending);
      HistoryAtomic(a, done, ts[1..], k - Writes(t));
      AppliedSame(a, done, applied, ts[1..][..m - 1]);
      SameHomeTrans(a, Recovered(a, History(a, image, ts)[k]), AllApplied(done, ts[1..][..m - 1]),
                    AllApplied(applied, ts[1..][..m - 1]));
      assert ts[..m][0] == t && ts[..m][1..] == ts[1..][..m - 1];
    }
  }

  /** What a file system computes from the home blocks is, after a crash at any write and any
      number of crashed recoveries, what it was between two transactions. */
  lemma {:induction false} CrashView<V>(a: Area, image: seq<Block>, ts: seq<Transaction>, k: nat, crashes: seq<nat>,
                                        crashed: seq<Block>, view: seq<Block> -> V)
    requires AllFit(a, ts, |image|) && EmptyHeader(a, image) && k < |History(a, image, ts)|
    requires CrashRun(a, History(a, image, ts)[k], crashes, crashed)
    requires forall d, d' :: SameHome(a, d, d') ==> view(d) == view(d')
    ensures WfDisk(a, crashed)
    ensures view(Recovered(a, crashed)) == view(AllApplied(image, ts[..Durable(ts, k)]))
  {
    hide WfBlocks, EmptyHeader, SameHome, Recovered, CommitTrace, Applied, CrashRun, History, Durable;
    HistoryAtomic(a, image, ts, k);
    RepeatedRecovery(a, History(a, image, ts)[k], crashes, crashed);
    SameHomeTrans(a, Recovered(a, crashed), Recovered(a, History(a, image, ts)[k]),
                  AllApplied(image, ts[..Durable(ts, k)]));
  }
}
