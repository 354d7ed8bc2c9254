/** Which log areas are large enough for the protocol of LogProtocol: for every number of
    processes and every area, when log_write can panic and when it can overrun the area. */
module LogLimits {
  import opened Common
  import opened LogSpec
  import opened LogProtocol

  ghost predicate Reaches(nproc: nat, size: nat, s: State) {
    exists steps :: Run(nproc, size, steps, s)
  }

  lemma Extend(nproc: nat, size: nat, s: State, step: Step)
    requires Reaches(nproc, size, s) && Enabled(s, step)
    ensures Reaches(nproc, size, Next(s, size, step))
  {
    var steps :| Run(nproc, size, steps, s);
    var steps' := steps + [step];
    assert steps'[..|steps'| - 1] == steps && steps'[|steps'| - 1] == step;
    assert Run(nproc, size, steps'[..|steps'| - 1], s);
    assert Run(nproc, size, steps', Next(s, size, step));
  }

  // ----- Two processes can fill any log -----

  /** In the fill below, process 1 logs the blocks below ten, ends its operation while that of
      process 0 is open, and begins another; from then on the two take turns. */
  predicate Logs(j: int, k: nat, i: nat) {
    if k < MAXOPBLOCKS then j == 1 else i >= MAXOPBLOCKS && i % 2 == j
  }

  /** What process `j` has logged in its current operation when blocks 0 to k - 1 are logged. */
  function Mine(j: int, k: nat): set<nat> {
    set i: nat | i < k && Logs(j, k, i) :: i
  }

  function Filler(j: int, k: nat): Process {
    if j == 0 || j == 1 then InOp(Mine(j, k)) else Idle
  }

  function Filled(nproc: nat, k: nat): State {
    State(seq(k, i => i), 2, false, seq(nproc, j => Filler(j, k)), NoPanic)
  }

  /** Whose turn it is to log block `k`. */
  function Turn(k: nat): nat {
    if k < MAXOPBLOCKS then 1 else k % 2
  }

  function Quota(j: int, k: nat): nat {
    if k < MAXOPBLOCKS then if j == 1 then k else 0
    else if j == 0 then (k - MAXOPBLOCKS + 1) / 2 else (k - MAXOPBLOCKS) / 2
  }

  lemma MineNext(j: int, k: nat)
    requires j == 0 || j == 1
    ensures k + 1 != MAXOPBLOCKS ==> Mine(j, k + 1) == if Turn(k) == j then Mine(j, k) + {k} else Mine(j, k)
    ensures k + 1 == MAXOPBLOCKS ==> Mine(j, k + 1) == {}
  {
    if k + 1 != MAXOPBLOCKS {
      var mine := if Turn(k) == j then Mine(j, k) + {k} else Mine(j, k);
      forall i: nat
        ensures i in Mine(j, k + 1) <==> i in mine
      {
        assert Logs(j, k, i) || !Logs(j, k, i);
        assert Logs(j, k + 1, i) || !Logs(j, k + 1, i);
      }
    }
  }

  lemma QuotaNext(j: int, k: nat)
    requires j == 0 || j == 1
    ensures k + 1 != MAXOPBLOCKS ==> Quota(j, k + 1) == Quota(j, k) + if Turn(k) == j then 1 else 0
    ensures k + 1 == MAXOPBLOCKS ==> Quota(j, k + 1) == 0
  {
  }

  lemma NotYet(j: int, k: nat)
    ensures k !in Mine(j, k)
  {
  }

  lemma {:induction false} MineCount(j: int, k: nat)
    requires j == 0 || j == 1
    ensures |Mine(j, k)| == Quota(j, k) && k !in Mine(j, k)
  {
    NotYet(j, k);
    if k == 0 {
      assert Mine(j, 0) == {};
    } else {
      MineCount(j, k - 1);
      MineNext(j, k - 1);
      QuotaNext(j, k - 1);
      hide Mine, Quota, Turn;
    }
  }

  /** One more block logged in the fill. */
  lemma {:induction false} FillNext(nproc: nat, size: nat, k: nat)
    requires 2 <= nproc && k < LOGSIZE && k + 1 < size && Reaches(nproc, size, Filled(nproc, k))
    ensures Reaches(nproc, size, Filled(nproc, k + 1))
  {
    hide Run, Mine;
    var s, j := Filled(nproc, k), Turn(k);
    MineCount(j, k);
    Extend(nproc, size, s, TestLogWrite(j, k));
    var s1 := Next(s, size, TestLogWrite(j, k));
    Extend(nproc, size, s1, AppendBlock(j));
    var s2 := Next(s1, size, AppendBlock(j));
    MineNext(0, k);
    MineNext(1, k);
    assert s2.lh == Filled(nproc, k + 1).lh;
    if k + 1 == MAXOPBLOCKS {
      MineCount(0, k);
      Extend(nproc, size, s2, EndOp(1));
      var s3 := Next(s2, size, EndOp(1));
      Extend(nproc, size, s3, BeginOp(1));
      SameProcs(nproc, k + 1, Next(s3, size, BeginOp(1)).procs);
    } else {
      SameProcs(nproc, k + 1, s2.procs);
    }
  }

  lemma SameProcs(nproc: nat, k: nat, procs: seq<Process>)
    requires 2 <= nproc == |procs|
    requires forall j :: 0 <= j < nproc ==> procs[j] == Filler(j, k)
    ensures procs == Filled(nproc, k).procs
  {
  }

  lemma {:induction false} FillLog(nproc: nat, size: nat, k: nat)
    requires 2 <= nproc && k <= LOGSIZE && (k == 0 || k < size)
    ensures Reaches(nproc, size, Filled(nproc, k))
  {
    if k == 0 {
      var s0 := Init(nproc);
      assert Run(nproc, size, [], s0);
      Extend(nproc, size, s0, BeginOp(0));
      var s1 := Next(s0, size, BeginOp(0));
      Extend(nproc, size, s1, BeginOp(1));
      assert Mine(0, 0) == {} && Mine(1, 0) == {};
      SameProcs(nproc, 0, Next(s1, size, BeginOp(1)).procs);
      assert Next(s1, size, BeginOp(1)) == Filled(nproc, 0);
    } else {
      FillLog(nproc, size, k - 1);
      FillNext(nproc, size, k - 1);
    }
  }

  // ----- A single process -----

  function Alone(k: nat): State {
    State(seq(k, i => i), 1, false, [InOp(Range(0, k))], NoPanic)
  }

  lemma {:induction false} FillAlone(size: nat, k: nat)
    requires k <= MAXOPBLOCKS && (k == 0 || k < size)
    ensures Reaches(1, size, Alone(k))
  {
    if k == 0 {
      RangeSize(0, 0);
      var s0 := Init(1);
      assert Run(1, size, [], s0);
      Extend(1, size, s0, BeginOp(0));
      assert Next(s0, size, BeginOp(0)) == Alone(0);
    } else {
      FillAlone(size, k - 1);
      AloneNext(size, k - 1);
    }
  }

  lemma AloneNext(size: nat, k: nat)
    requires k < MAXOPBLOCKS && k + 1 < size && Reaches(1, size, Alone(k))
    ensures Reaches(1, size, Alone(k + 1))
  {
    hide Run, Range;
    RangeSize(0, k);
    RangeSize(0, k + 1);
    RangeNext(0, k);
    var s := Alone(k);
    Extend(1, size, s, TestLogWrite(0, k));
    var s1 := Next(s, size, TestLogWrite(0, k));
    Extend(1, size, s1, AppendBlock(0));
    assert Next(s1, size, AppendBlock(0)).lh == Alone(k + 1).lh;
    assert Next(s1, size, AppendBlock(0)) == Alone(k + 1);
  }

  /** A single process logs no more than one operation's blocks before it commits, and
      nothing happens between its test and its append. */
  ghost predicate AloneOk(s: State, size: nat) {
    && |s.procs| == 1
    && match s.procs[0]
       case Idle => s.lh == [] && !s.committing && s.outstanding == 0
       case InOp(mine) => |s.lh| <= |mine| <= MAXOPBLOCKS && (|s.lh| < size || s.lh == []) && !s.committing
       case Tested(mine, b) => |s.lh| <= |mine| && |mine + {b}| <= MAXOPBLOCKS && |s.lh| + 1 < size && !s.committing
         && (b in mine ==> b in s.lh)
       case Committing => |s.lh| <= MAXOPBLOCKS && (|s.lh| < size || s.lh == [])
       case Committed => s.lh == []
  }

  lemma {:induction false} AloneStep(s: State, size: nat, step: Step)
    requires Inv(s) && AloneOk(s, size) && Enabled(s, step)
    ensures AloneOk(Next(s, size, step), size)
  {
    var q := s.procs[0];
    assert ProcessOk(s, q);
    if q.InOp? && step.TestLogWrite? {
      ShareGrows(q.mine, step.b);
    }
    if q.Tested? {
      ShareGrows(q.mine, q.b);
    }
    OneActive(s.procs);
  }

  lemma OneActive(procs: seq<Process>)
    requires |procs| == 1
    ensures Operations(procs) == if Active(procs[0]) then 1 else 0
  {
    assert procs[1..] == [];
  }

  lemma {:induction false} AloneRun(size: nat, steps: seq<Step>, s: State)
    requires Run(1, size, steps, s)
    ensures Inv(s) && AloneOk(s, size)
    decreases |steps|
  {
    RunInv(1, size, steps, s);
    if steps != [] {
      var last := steps[|steps| - 1];
      var s0 :| Run(1, size, steps[..|steps| - 1], s0) && Enabled(s0, last) && s == Next(s0, size, last);
      AloneRun(size, steps[..|steps| - 1], s0);
      AloneStep(s0, size, last);
    }
  }

  /** With an area of one block nothing is ever logged. */
  lemma {:induction false} TinyRun(nproc: nat, size: nat, steps: seq<Step>, s: State)
    requires Run(nproc, size, steps, s) && size <= 1
    ensures s.lh == [] && forall p :: 0 <= p < |s.procs| ==> !s.procs[p].Tested?
    decreases |steps|
  {
    if steps != [] {
      var last := steps[|steps| - 1];
      var s0 :| Run(nproc, size, steps[..|steps| - 1], s0) && Enabled(s0, last) && s == Next(s0, size, last);
      TinyRun(nproc, size, steps[..|steps| - 1], s0);
    }
  }

  // ----- The limits -----

  /** The most blocks the header can hold: what one operation may log if there is only one
      process, else LOGSIZE. */
  function Capacity(nproc: nat): nat {
    if nproc == 0 then 0 else if nproc == 1 then MAXOPBLOCKS else LOGSIZE
  }

  /** In state `s`, log_write of block `b` by process `p` raises "too big a transaction". */
  ghost predicate Panics(nproc: nat, size: nat, s: State, p: nat, b: nat) {
    Reaches(nproc, size, s) && Enabled(s, TestLogWrite(p, b)) && Next(s, size, TestLogWrite(p, b)).panic == TooBig
  }

  lemma {:induction false} AppendAlone(size: nat, steps: seq<Step>, s: State, p: nat, b: nat)
    requires Run(1, size, steps, s) && Enabled(s, TestLogWrite(p, b)) && b !in s.lh && size > MAXOPBLOCKS
    ensures Next(s, size, TestLogWrite(p, b)).panic == NoPanic
  {
    AloneRun(size, steps, s);
    var q := s.procs[0];
    assert ProcessOk(s, q);
    ShareGrows(q.mine, b);
    OneActive(s.procs);
  }

  /** A log_write that appends, by operations within their limits, can never panic if and
      only if the log area is larger than the most the header can hold. */
  lemma {:induction false} AppendSafeIff(nproc: nat, size: nat)
    ensures (forall s, p, b :: Panics(nproc, size, s, p, b) ==> b in s.lh) <==> nproc == 0 || size > Capacity(nproc)
  {
    hide Run, Reaches;
    if nproc == 0 || size > Capacity(nproc) {
      forall s, p, b | Panics(nproc, size, s, p, b)
        ensures b in s.lh
      {
        AppendSafe(nproc, size, s, p, b);
      }
    } else if nproc == 1 {
      AlonePanics(size);
    } else {
      FilledPanics(nproc, size);
    }
  }

  lemma {:induction false} AppendSafe(nproc: nat, size: nat, s: State, p: nat, b: nat)
    requires (nproc == 0 || size > Capacity(nproc)) && Panics(nproc, size, s, p, b)
    ensures b in s.lh
  {
    hide Next;
    var steps :| Run(nproc, size, steps, s);
    RunInv(nproc, size, steps, s);
    if b !in s.lh {
      if nproc == 1 {
        AppendAlone(size, steps, s, p, b);
      } else {
        AppendHasRoom(nproc, size, steps, s, p, b);
      }
    }
  }

  lemma AlonePanics(size: nat)
    requires size <= MAXOPBLOCKS
    ensures exists s, p, b :: Panics(1, size, s, p, b) && b !in s.lh
  {
    hide Range;
    var k := if size == 0 then 0 else size - 1;
    FillAlone(size, k);
    RangeSize(0, k);
    RangeSize(0, k + 1);
    RangeNext(0, k);
    assert Panics(1, size, Alone(k), 0, k);
    assert k !in Alone(k).lh;
  }

  lemma FilledPanics(nproc: nat, size: nat)
    requires nproc >= 2 && size <= LOGSIZE
    ensures exists s, p, b :: Panics(nproc, size, s, p, b) && b !in s.lh
  {
    hide Mine;
    var k := if size == 0 then 0 else size - 1;
    var p := if k < MAXOPBLOCKS then 0 else 1;
    FillLog(nproc, size, k);
    MineCount(p, k);
    ShareGrows(Mine(p, k), k);
    assert |Filled(nproc, k).lh| == k && k !in Filled(nproc, k).lh;
    assert Panics(nproc, size, Filled(nproc, k), p, k);
  }

  /** log_write can panic on a block it would only have absorbed if and only if there is room
      to log anything and the header can grow to where the test fails. */
  lemma {:induction false} AbsorbPanicsIff(nproc: nat, size: nat)
    ensures (exists s, p, b :: Panics(nproc, size, s, p, b) && b in s.lh)
       <==> size >= 2 && (nproc >= 2 || (nproc == 1 && size <= MAXOPBLOCKS + 1))
  {
    if size >= 2 && (nproc >= 2 || (nproc == 1 && size <= MAXOPBLOCKS + 1)) {
      var k := Min(size - 1, LOGSIZE);
      if nproc == 1 {
        FillAlone(size, k);
        AbsorbAlone(size, k);
      } else {
        FillLog(nproc, size, k);
        AbsorbFilled(nproc, size, k);
      }
    }
    if s, p, b :| Panics(nproc, size, s, p, b) && b in s.lh {
      var steps :| Run(nproc, size, steps, s);
      RunInv(nproc, size, steps, s);
      if size <= 1 {
        TinyRun(nproc, size, steps, s);
      }
      if nproc == 1 {
        AloneRun(size, steps, s);
      }
    }
  }

  lemma AbsorbAlone(size: nat, k: nat)
    requires 1 <= k == size - 1 <= MAXOPBLOCKS && Reaches(1, size, Alone(k))
    ensures Panics(1, size, Alone(k), 0, 0) && 0 in Alone(k).lh
  {
    RangeSize(0, k);
    assert 0 in Range(0, k) && Range(0, k) + {0} == Range(0, k);
    assert Alone(k).lh[0] == 0;
  }

  lemma AbsorbFilled(nproc: nat, size: nat, k: nat)
    requires nproc >= 2 && 1 <= k == Min(size - 1, LOGSIZE) && Reaches(nproc, size, Filled(nproc, k))
    ensures exists s, p, b :: Panics(nproc, size, s, p, b) && b in s.lh
  {
    var s := Filled(nproc, k);
    var p := if k < MAXOPBLOCKS then 1 else 0;
    var b := if k > MAXOPBLOCKS then MAXOPBLOCKS else 0;
    MineCount(p, k);
    assert Logs(p, k, b) || k == MAXOPBLOCKS;
    assert k != MAXOPBLOCKS ==> Mine(p, k) + {b} == Mine(p, k);
    assert |s.lh| == k && s.lh[b] == b;
    assert Panics(nproc, size, s, p, b);
  }

  /** The header stays within the log area, whatever the interleaving, if and only if the area
      is larger than LOGSIZE, or no two processes can be between the test of log_write and
      its append. mkfs makes the area LOGSIZE. */
  lemma {:induction false} StaysInAreaIff(nproc: nat, size: nat)
    ensures (forall s :: Reaches(nproc, size, s) ==> |s.lh| < size)
       <==> size >= 1 && (nproc <= 1 || size == 1 || size > LOGSIZE)
  {
    if size >= 1 && (nproc <= 1 || size == 1 || size > LOGSIZE) {
      forall s | Reaches(nproc, size, s)
        ensures |s.lh| < size
      {
        var steps :| Run(nproc, size, steps, s);
        RunInv(nproc, size, steps, s);
        if size == 1 {
          TinyRun(nproc, size, steps, s);
        } else if nproc == 1 {
          AloneRun(size, steps, s);
        } else if nproc == 0 {
          NobodyLogs(size, steps, s);
        } else {
          LogNeverOverflows(nproc, size, steps, s);
        }
      }
    } else if size == 0 {
      assert Run(nproc, size, [], Init(nproc));
      assert Reaches(nproc, size, Init(nproc));
    } else {
      var s := Overrun(nproc, size);
    }
  }

  lemma {:induction false} NobodyLogs(size: nat, steps: seq<Step>, s: State)
    requires Run(0, size, steps, s)
    ensures s.lh == []
    decreases |steps|
  {
    if steps != [] {
      var last := steps[|steps| - 1];
      var s0 :| Run(0, size, steps[..|steps| - 1], s0) && Enabled(s0, last) && s == Next(s0, size, last);
      RunInv(0, size, steps[..|steps| - 1], s0);
      assert false;
    }
  }

  /** Processes 0 to m - 1 are in their operations, and nothing else goes on. */
  predicate OpenOnly(s: State, nproc: nat, m: nat) {
    && |s.procs| == nproc && m <= nproc && s.outstanding == m && !s.committing && s.panic == NoPanic
    && forall j :: 0 <= j < m ==> s.procs[j].InOp?
  }

  /** Two processes pass the test when one block is left, and both append: the last entry
      belongs to a block behind the log area. */
  lemma {:induction false} Overrun(nproc: nat, size: nat) returns (s: State)
    requires nproc >= 2 && 2 <= size <= LOGSIZE
    ensures Reaches(nproc, size, s) && |s.lh| == size && OpenOnly(s, nproc, 2)
  {
    hide Run, Mine;
    var k := size - 2;
    var s0 := Filled(nproc, k);
    FillLog(nproc, size, k);
    MineCount(0, k);
    MineCount(1, k);
    ShareGrows(Mine(0, k), k);
    ShareGrows(Mine(1, k), k + 1);
    Extend(nproc, size, s0, TestLogWrite(0, k));
    var s1 := Next(s0, size, TestLogWrite(0, k));
    Extend(nproc, size, s1, TestLogWrite(1, k + 1));
    var s2 := Next(s1, size, TestLogWrite(1, k + 1));
    Extend(nproc, size, s2, AppendBlock(0));
    var s3 := Next(s2, size, AppendBlock(0));
    Extend(nproc, size, s3, AppendBlock(1));
    s := Next(s3, size, AppendBlock(1));
    assert s.lh == s0.lh + [k, k + 1];
  }

  // ----- Three processes -----

  /** Three processes take turns, each within one operation. */
  predicate Third(i: nat, j: nat) {
    i % 3 == j
  }

  function Thirds(j: nat, k: nat): set<nat> {
    set i: nat | i < k && Third(i, j) :: i
  }

  function Trio(nproc: nat, k: nat): State {
    State(seq(k, i => i), 3, false,
          seq(nproc, j requires 0 <= j => if j < 3 then InOp(Thirds(j, k)) else Idle), NoPanic)
  }

  lemma ThirdsNext(j: nat, k: nat)
    ensures Thirds(j, k + 1) == if k % 3 == j then Thirds(j, k) + {k} else Thirds(j, k)
    ensures k !in Thirds(j, k)
  {
    var next := if k % 3 == j then Thirds(j, k) + {k} else Thirds(j, k);
    forall i: nat
      ensures i in Thirds(j, k + 1) <==> i in next
    {
      assert Third(i, j) || !Third(i, j);
    }
  }

  lemma {:induction false} ThirdsCount(j: nat, k: nat)
    requires j < 3
    ensures |Thirds(j, k)| == (k + 2 - j) / 3
    ensures forall b: nat :: b >= k ==> b !in Thirds(j, k)
  {
    if k == 0 {
      assert Thirds(j, 0) == {};
    } else {
      ThirdsCount(j, k - 1);
      ThirdsNext(j, k - 1);
      hide Thirds;
      ThirdsRound(j, k - 1);
    }
  }

  lemma ThirdsRound(j: nat, k: nat)
    requires j < 3
    ensures (k + 3 - j) / 3 == (k + 2 - j) / 3 + if k % 3 == j then 1 else 0
  {
  }

  lemma {:induction false} FillTrio(nproc: nat, size: nat, k: nat)
    requires 3 <= nproc && k <= LOGSIZE - 3 && (k == 0 || k < size)
    ensures Reaches(nproc, size, Trio(nproc, k))
  {
    hide Run, Thirds;
    if k == 0 {
      TrioBegins(nproc, size);
    } else {
      FillTrio(nproc, size, k - 1);
      TrioNext(nproc, size, k - 1);
    }
  }

  lemma NoThirds(j: nat)
    ensures Thirds(j, 0) == {}
  {
  }

  lemma {:induction false} TrioBegins(nproc: nat, size: nat)
    requires 3 <= nproc
    ensures Reaches(nproc, size, Trio(nproc, 0))
  {
    var s0 := Init(nproc);
    assert Run(nproc, size, [], s0);
    hide Run;
    Extend(nproc, size, s0, BeginOp(0));
    var s1 := Next(s0, size, BeginOp(0));
    Extend(nproc, size, s1, BeginOp(1));
    var s2 := Next(s1, size, BeginOp(1));
    Extend(nproc, size, s2, BeginOp(2));
    forall j: nat | j < 3
      ensures Thirds(j, 0) == {}
    {
      NoThirds(j);
    }
    hide Thirds;
    assert Next(s2, size, BeginOp(2)).procs == Trio(nproc, 0).procs;
    assert Next(s2, size, BeginOp(2)) == Trio(nproc, 0);
  }

  lemma {:induction false} TrioNext(nproc: nat, size: nat, k: nat)
    requires 3 <= nproc && k < LOGSIZE - 3 && k + 1 < size && Reaches(nproc, size, Trio(nproc, k))
    ensures Reaches(nproc, size, Trio(nproc, k + 1))
  {
    hide Run, Thirds;
    var s, j := Trio(nproc, k), k % 3;
    ThirdsCount(j, k);
    ShareGrows(Thirds(j, k), k);
    Extend(nproc, size, s, TestLogWrite(j, k));
    var s1 := Next(s, size, TestLogWrite(j, k));
    Extend(nproc, size, s1, AppendBlock(j));
    var s2 := Next(s1, size, AppendBlock(j));
    ThirdsNext(0, k);
    ThirdsNext(1, k);
    ThirdsNext(2, k);
    assert s2.lh == Trio(nproc, k + 1).lh;
    assert s2.procs == Trio(nproc, k + 1).procs;
  }

  /** Three processes pass the test when one block is left, and all of them append. */
  lemma {:induction false} OverrunTwice(nproc: nat, size: nat) returns (s: State)
    requires nproc >= 3 && 2 <= size < LOGSIZE
    ensures Reaches(nproc, size, s) && |s.lh| == size + 1 && OpenOnly(s, nproc, 3)
  {
    hide Run, Thirds;
    var k := size - 2;
    FillTrio(nproc, size, k);
    var s3 := ThreeTests(nproc, size, k);
    Extend(nproc, size, s3, AppendBlock(0));
    var s4 := Next(s3, size, AppendBlock(0));
    Extend(nproc, size, s4, AppendBlock(1));
    var s5 := Next(s4, size, AppendBlock(1));
    Extend(nproc, size, s5, AppendBlock(2));
    s := Next(s5, size, AppendBlock(2));
    assert s.lh == s3.lh + [k, k + 1, k + 2];
  }

  lemma {:induction false} ThreeTests(nproc: nat, size: nat, k: nat) returns (s: State)
    requires nproc >= 3 && k + 2 <= size && k <= LOGSIZE - 3 && Reaches(nproc, size, Trio(nproc, k))
    ensures Reaches(nproc, size, s) && |s.procs| == nproc && s.lh == Trio(nproc, k).lh
    ensures s.outstanding == 3 && !s.committing && s.panic == NoPanic
    ensures forall j: nat :: j < 3 ==> s.procs[j] == Tested(Thirds(j, k), k + j)
  {
    hide Run, Thirds;
    var s0 := Trio(nproc, k);
    forall j: nat | j < 3
      ensures |Thirds(j, k) + {k + j}| <= MAXOPBLOCKS
    {
      ThirdsCount(j, k);
      ShareGrows(Thirds(j, k), k + j);
    }
    Extend(nproc, size, s0, TestLogWrite(0, k));
    var s1 := Next(s0, size, TestLogWrite(0, k));
    Extend(nproc, size, s1, TestLogWrite(1, k + 1));
    var s2 := Next(s1, size, TestLogWrite(1, k + 1));
    Extend(nproc, size, s2, TestLogWrite(2, k + 2));
    s := Next(s2, size, TestLogWrite(2, k + 2));
  }

  // ----- The largest header -----

  /** The most blocks the header can hold, whatever the interleaving: what begin_op lets the
      operations log together, and no more than the processes that can be past the test of
      log_write at once append after it last passed. begin_op never lets in a fourth. */
  function Largest(nproc: nat, size: nat): nat {
    if nproc == 0 || size <= 1 then 0 else Min(Capacity(nproc), size - 2 + Min(nproc, 3))
  }

  function Testing(procs: seq<Process>): nat {
    if procs == [] then 0 else Testing(procs[1..]) + if procs[0].Tested? then 1 else 0
  }

  lemma {:induction false} TestingReplaced(procs: seq<Process>, p: nat, q: Process)
    requires p < |procs|
    ensures Testing(procs[p := q])
         == Testing(procs) + (if q.Tested? then 1 else 0) - (if procs[p].Tested? then 1 else 0)
  {
    if p == 0 {
      assert procs[p := q][1..] == procs[1..];
    } else {
      TestingReplaced(procs[1..], p - 1, q);
      assert procs[p := q][1..] == procs[1..][p - 1 := q];
    }
  }

  lemma {:induction false} TestingBound(procs: seq<Process>)
    ensures Testing(procs) <= Operations(procs) <= |procs|
  {
    if procs != [] {
      TestingBound(procs[1..]);
    }
  }

  lemma {:induction false} NobodyTests(procs: seq<Process>)
    requires forall p :: 0 <= p < |procs| ==> procs[p] == Idle
    ensures Testing(procs) == 0
  {
    if procs != [] {
      NobodyTests(procs[1..]);
    }
  }

  ghost predicate Bounded(s: State, size: nat) {
    s.outstanding <= 3 && (size >= 2 ==> |s.lh| + Testing(s.procs) <= size - 2 + Max(1, Min(|s.procs|, 3)))
  }

  lemma {:induction false} BoundedStep(s: State, size: nat, step: Step)
    requires Inv(s) && Bounded(s, size) && Enabled(s, step) && Inv(Next(s, size, step))
    ensures Bounded(Next(s, size, step), size)
  {
    hide Inv, Testing, Operations;
    assert && s.outstanding == Operations(s.procs)
           && Next(s, size, step).outstanding == Operations(Next(s, size, step).procs)
    by {
      CountsAgree(s);
      CountsAgree(Next(s, size, step));
    }
    var s' := Next(s, size, step);
    TestingReplaced(s.procs, step.p, s'.procs[step.p]);
    assert s'.procs == s.procs[step.p := s'.procs[step.p]];
    TestingBound(s'.procs);
  }

  lemma CountsAgree(s: State)
    requires Inv(s)
    ensures s.outstanding == Operations(s.procs)
  {
  }

  lemma {:induction false} BoundedRun(nproc: nat, size: nat, steps: seq<Step>, s: State)
    requires Run(nproc, size, steps, s)
    ensures Bounded(s, size) && |s.procs| == nproc
    decreases |steps|
  {
    RunInv(nproc, size, steps, s);
    if steps == [] {
      NobodyTests(s.procs);
    } else {
      var last := steps[|steps| - 1];
      var s0 :| Run(nproc, size, steps[..|steps| - 1], s0) && Enabled(s0, last) && s == Next(s0, size, last);
      RunInv(nproc, size, steps[..|steps| - 1], s0);
      BoundedRun(nproc, size, steps[..|steps| - 1], s0);
      BoundedStep(s0, size, last);
    }
  }

  lemma {:induction false} LargestBound(nproc: nat, size: nat, s: State)
    requires Reaches(nproc, size, s)
    ensures |s.lh| <= Largest(nproc, size)
  {
    var steps :| Run(nproc, size, steps, s);
    BoundedRun(nproc, size, steps, s);
    LogNeverOverflows(nproc, size, steps, s);
    if nproc == 0 {
      NobodyLogs(size, steps, s);
    } else if size <= 1 {
      TinyRun(nproc, size, steps, s);
    } else if nproc == 1 {
      RunInv(nproc, size, steps, s);
      AloneRun(size, steps, s);
      AloneBound(s, size);
    }
  }

  lemma AloneBound(s: State, size: nat)
    requires AloneOk(s, size)
    ensures |s.lh| <= MAXOPBLOCKS
  {
    if s.procs[0].Tested? {
      ShareGrows(s.procs[0].mine, s.procs[0].b);
    }
  }

  // ----- Commits -----

  /** In state `s`, process `p` is about to commit at least one block. */
  ghost predicate Commits(nproc: nat, size: nat, s: State, p: nat) {
    Reaches(nproc, size, s) && p < |s.procs| && s.procs[p] == Committing && s.lh != []
  }

  lemma {:induction false} CommitTwo(nproc: nat, size: nat, s: State) returns (s': State)
    requires Reaches(nproc, size, s) && OpenOnly(s, nproc, 2) && s.lh != []
    ensures Commits(nproc, size, s', 1) && s'.lh == s.lh
  {
    hide Run;
    Extend(nproc, size, s, EndOp(0));
    var s1 := Next(s, size, EndOp(0));
    Extend(nproc, size, s1, EndOp(1));
    s' := Next(s1, size, EndOp(1));
  }

  lemma {:induction false} CommitThree(nproc: nat, size: nat, s: State) returns (s': State)
    requires Reaches(nproc, size, s) && OpenOnly(s, nproc, 3) && s.lh != []
    ensures Commits(nproc, size, s', 2) && s'.lh == s.lh
  {
    hide Run;
    Extend(nproc, size, s, EndOp(0));
    var s1 := Next(s, size, EndOp(0));
    Extend(nproc, size, s1, EndOp(1));
    var s2 := Next(s1, size, EndOp(1));
    Extend(nproc, size, s2, EndOp(2));
    s' := Next(s2, size, EndOp(2));
  }

  /** A commit of any number of blocks up to the largest header. The header only grows on the
      way there, so that never more than that many blocks are pinned. */
  lemma {:induction false} CommitOf(nproc: nat, size: nat, k: nat) returns (s: State, p: nat)
    requires 1 <= k <= Largest(nproc, size)
    ensures Commits(nproc, size, s, p) && |s.lh| == k
  {
    hide Run, Mine, Range;
    if nproc == 1 {
      FillAlone(size, k);
      Extend(1, size, Alone(k), EndOp(0));
      s, p := Next(Alone(k), size, EndOp(0)), 0;
    } else if k < size {
      FillLog(nproc, size, k);
      s := CommitTwo(nproc, size, Filled(nproc, k));
      p := 1;
    } else if k == size {
      s := Overrun(nproc, size);
      s := CommitTwo(nproc, size, s);
      p := 1;
    } else {
      s := OverrunTwice(nproc, size);
      s := CommitThree(nproc, size, s);
      p := 2;
    }
  }

  /** The header can hold exactly the numbers of blocks up to Largest. */
  lemma {:induction false} HeaderIff(nproc: nat, size: nat, k: nat)
    ensures (exists s :: Reaches(nproc, size, s) && |s.lh| == k) <==> k <= Largest(nproc, size)
  {
    if k == 0 {
      assert Run(nproc, size, [], Init(nproc));
      assert Reaches(nproc, size, Init(nproc)) && |Init(nproc).lh| == 0;
    } else if k <= Largest(nproc, size) {
      var s, p := CommitOf(nproc, size, k);
      assert Reaches(nproc, size, s);
    } else {
      forall s | Reaches(nproc, size, s)
        ensures |s.lh| != k
      {
        LargestBound(nproc, size, s);
      }
    }
  }

  /** A commit of as many blocks as there are buffers: every buffer is pinned, and the first
      read of commit panics. */
  ghost predicate Starves(nproc: nat, size: nat, nbuf: nat, s: State, p: nat) {
    Commits(nproc, size, s, p) && |s.lh| == nbuf
  }

  /** With `nbuf` buffers, commit can run out of them if and only if the header can hold as many
      blocks. It can with the area that mkfs makes and the buffers of param.h, LOGSIZE both. */
  lemma {:induction false} CommitStarvesIff(nproc: nat, size: nat, nbuf: nat)
    ensures (exists s, p :: Starves(nproc, size, nbuf, s, p)) <==> 1 <= nbuf <= Largest(nproc, size)
  {
    if 1 <= nbuf <= Largest(nproc, size) {
      var s, p := CommitOf(nproc, size, nbuf);
      assert Starves(nproc, size, nbuf, s, p);
    }
    if s, p :| Starves(nproc, size, nbuf, s, p) {
      LargestBound(nproc, size, s);
    }
  }

  /** Every transaction that leaves a buffer to recycle, and so gets as far as a write of the
      disk, fits the log area if and only if no header outgrows the area or there are no more
      buffers than the area has blocks. */
  lemma {:induction false} WrittenFitsIff(nproc: nat, size: nat, nbuf: nat)
    ensures (forall s, p :: Commits(nproc, size, s, p) && |s.lh| < nbuf ==> |s.lh| < size)
       <==> size == 0 || Largest(nproc, size) < size || nbuf <= size
  {
    if size == 0 || Largest(nproc, size) < size || nbuf <= size {
      forall s, p | Commits(nproc, size, s, p) && |s.lh| < nbuf
        ensures |s.lh| < size
      {
        LargestBound(nproc, size, s);
      }
    } else {
      var s, p := CommitOf(nproc, size, size);
      assert Commits(nproc, size, s, p) && |s.lh| < nbuf;
    }
  }
}
