/** begin_op, log_write and end_op of log.c run by any number of processes: every
    critical section under log.lock is one step, and so is the unlocked test at the
    start of log_write. */
module LogProtocol {
  import opened Common
  import opened LogSpec

  /** Where one process is. `mine` are the blocks its operation has logged. */
  datatype Process =
    | Idle
    | InOp(mine: set<nat>)
    | Tested(mine: set<nat>, b: nat)   // inside log_write, past the unlocked tests
    | Committing                       // inside end_op, in commit()
    | Committed                        // past commit(), before `log.committing = 0`

  datatype Panic = NoPanic | TooBig | OutsideTrans | LogCommitting

  datatype State = State(lh: seq<nat>, outstanding: int, committing: bool, procs: seq<Process>, panic: Panic)

  datatype Step =
    | BeginOp(p: nat)
    | TestLogWrite(p: nat, b: nat)
    | AppendBlock(p: nat)
    | EndOp(p: nat)
    | ClearLog(p: nat)
    | FinishCommit(p: nat)

  /** All processes idle, nothing logged. */
  function Init(nproc: nat): State {
    State([], 0, false, seq(nproc, _ => Idle), NoPanic)
  }

  /** Whether process `p` may take the step. A process logs at most MAXOPBLOCKS distinct
      blocks in one operation; begin_op waits unless the log has room to spare. */
  ghost predicate Enabled(s: State, step: Step) {
    && step.p < |s.procs| && s.panic == NoPanic
    && match step
       case BeginOp(p) => s.procs[p] == Idle && !s.committing && |s.lh| + (s.outstanding + 1) * MAXOPBLOCKS <= LOGSIZE
       case TestLogWrite(p, b) => s.procs[p].InOp? && |s.procs[p].mine + {b}| <= MAXOPBLOCKS
       case AppendBlock(p) => s.procs[p].Tested?
       case EndOp(p) => s.procs[p].InOp?
       case ClearLog(p) => s.procs[p] == Committing
       case FinishCommit(p) => s.procs[p] == Committed
  }

  function Next(s: State, size: nat, step: Step): State
    requires step.p < |s.procs|
    requires step.TestLogWrite? ==> s.procs[step.p].InOp?
    requires step.AppendBlock? ==> s.procs[step.p].Tested?
  {
    var p := step.p;
    match step
    case BeginOp(_) => s.(outstanding := s.outstanding + 1, procs := s.procs[p := InOp({})])
    case TestLogWrite(_, b) =>
      if |s.lh| >= LOGSIZE || |s.lh| >= size - 1 then s.(panic := TooBig)
      else if s.outstanding < 1 then s.(panic := OutsideTrans)
      else s.(procs := s.procs[p := Tested(s.procs[p].mine, b)])
    case AppendBlock(_) =>
      var b := s.procs[p].b;
      s.(lh := Absorb(s.lh, b), procs := s.procs[p := InOp(s.procs[p].mine + {b})])
    case EndOp(_) =>
      var outstanding := s.outstanding - 1;
      if s.committing then s.(outstanding := outstanding, panic := LogCommitting)
      else if outstanding == 0 then s.(outstanding := 0, committing := true, procs := s.procs[p := Committing])
      else s.(outstanding := outstanding, procs := s.procs[p := Idle])
    case ClearLog(_) => s.(lh := [], procs := s.procs[p := Committed])
    case FinishCommit(_) => s.(committing := false, procs := s.procs[p := Idle])
  }

  /** `s` is reached from the initial state by the steps listed. */
  ghost predicate Run(nproc: nat, size: nat, steps: seq<Step>, s: State)
    decreases |steps|
  {
    if steps == [] then s == Init(nproc)
    else
      var last := steps[|steps| - 1];
      exists s0 :: Run(nproc, size, steps[..|steps| - 1], s0) && Enabled(s0, last) && s == Next(s0, size, last)
  }

  predicate Active(q: Process) {
    q.InOp? || q.Tested?
  }

  /** The operations in progress, and the log blocks still reserved for them. */
  function Operations(procs: seq<Process>): nat {
    if procs == [] then 0 else Operations(procs[1..]) + if Active(procs[0]) then 1 else 0
  }

  function Share(q: Process): int {
    if Active(q) then MAXOPBLOCKS - |q.mine| else 0
  }

  function Reserved(procs: seq<Process>): int {
    if procs == [] then 0 else Reserved(procs[1..]) + Share(procs[0])
  }

  lemma {:induction false} Replaced(procs: seq<Process>, p: nat, q: Process)
    requires p < |procs|
    ensures Operations(procs[p := q]) == Operations(procs)
      + (if Active(q) then 1 else 0) - (if Active(procs[p]) then 1 else 0)
    ensures Reserved(procs[p := q]) == Reserved(procs) + Share(q) - Share(procs[p])
  {
    if p == 0 {
      assert procs[p := q][1..] == procs[1..];
    } else {
      Replaced(procs[1..], p - 1, q);
      assert procs[p := q][1..] == procs[1..][p - 1 := q];
    }
  }

  lemma {:induction false} NoOperations(procs: seq<Process>, p: nat)
    requires p < |procs| && Active(procs[p])
    ensures Operations(procs) > 0
  {
    if p > 0 {
      NoOperations(procs[1..], p - 1);
    }
  }

  /** Reserved space is bounded by the operations in progress. */
  lemma {:induction false} ReservedBound(procs: seq<Process>)
    ensures Reserved(procs) <= Operations(procs) * MAXOPBLOCKS
  {
    if procs != [] {
      ReservedBound(procs[1..]);
    }
  }

  lemma {:induction false} ReservedShare(procs: seq<Process>, p: nat)
    requires p < |procs|
    requires forall q :: 0 <= q < |procs| ==> Share(procs[q]) >= 0
    ensures Reserved(procs) >= Share(procs[p]) && Reserved(procs) >= 0
  {
    if p > 0 {
      ReservedShare(procs[1..], p - 1);
    } else if |procs| > 1 {
      ReservedShare(procs[1..], 0);
    }
  }

  predicate Finishing(q: Process) {
    q.Committing? || q.Committed?
  }

  ghost predicate ProcessOk(s: State, q: Process) {
    && (Active(q) ==> |q.mine| <= MAXOPBLOCKS && (forall b :: b in q.mine ==> b in s.lh))
    && (q.Tested? ==> |q.mine + {q.b}| <= MAXOPBLOCKS)
    && (Finishing(q) ==> s.committing)
    && (q.Committed? ==> s.lh == [])
  }

  /** The invariant: what is logged and what is reserved fit in the log together, and
      nobody is inside an operation during a commit. */
  ghost predicate Inv(s: State) {
    && s.outstanding == Operations(s.procs)
    && |s.lh| + Reserved(s.procs) <= LOGSIZE
    && Distinct(s.lh)
    && (forall p :: 0 <= p < |s.procs| ==> ProcessOk(s, s.procs[p]))
    && (s.committing ==> s.outstanding == 0)
    && (forall p, q :: 0 <= p < q < |s.procs| ==> !(Finishing(s.procs[p]) && Finishing(s.procs[q])))
    && s.panic != OutsideTrans && s.panic != LogCommitting
  }

  lemma {:induction false} InitInv(nproc: nat)
    ensures Inv(Init(nproc))
  {
    NothingReserved(Init(nproc).procs);
  }

  lemma ShareGrows(mine: set<nat>, b: nat)
    ensures |mine + {b}| == |mine| + if b in mine then 0 else 1
  {
    if b in mine {
      assert mine + {b} == mine;
    }
  }

  /** Every step keeps the invariant. */
  lemma {:induction false} NextInv(s: State, size: nat, step: Step)
    requires Inv(s) && Enabled(s, step)
    ensures Inv(Next(s, size, step))
  {
    hide Next, ProcessOk, Operations, Reserved, Distinct, Finishing;
    NextCounts(s, size, step);
    var s' := Next(s, size, step);
    forall r: nat | r < |s'.procs|
      ensures ProcessOk(s', s'.procs[r])
    {
      NextProcess(s, size, step, r);
    }
    forall r: nat, t: nat | r < t < |s'.procs|
      ensures !(Finishing(s'.procs[r]) && Finishing(s'.procs[t]))
    {
      NextFinishing(s, size, step, r, t);
    }
  }

  lemma {:induction false} NextCounts(s: State, size: nat, step: Step)
    requires Inv(s) && Enabled(s, step)
    ensures var s' := Next(s, size, step);
      && |s'.procs| == |s.procs|
      && s'.outstanding == Operations(s'.procs) && |s'.lh| + Reserved(s'.procs) <= LOGSIZE
      && Distinct(s'.lh) && (s'.committing ==> s'.outstanding == 0)
      && s'.panic != OutsideTrans && s'.panic != LogCommitting
  {
    hide Operations, Reserved;
    var p, s' := step.p, Next(s, size, step);
    var q := s.procs[p];
    assert ProcessOk(s, q);
    Replaced(s.procs, p, s'.procs[p]);
    assert s'.procs == s.procs[p := s'.procs[p]];
    if Active(q) {
      NoOperations(s.procs, p);
    }
    match step
    case BeginOp(_) =>
      ReservedBound(s.procs);
    case AppendBlock(_) =>
      ShareGrows(q.mine, q.b);
    case TestLogWrite(_, b) =>
    case EndOp(_) =>
    case ClearLog(_) =>
      NobodyActive(s);
      NothingReserved(s'.procs);
    case FinishCommit(_) =>
  }

  lemma {:induction false} NextProcess(s: State, size: nat, step: Step, r: nat)
    requires Inv(s) && Enabled(s, step) && r < |s.procs|
    ensures var s' := Next(s, size, step); ProcessOk(s', s'.procs[r])
  {
    hide Operations, Reserved, Distinct, ProcessOk;
    assert ProcessOk(s, s.procs[r]) && ProcessOk(s, s.procs[step.p]);
    if r == step.p {
      MoverOk(s, size, step);
    } else {
      if s.committing {
        NobodyActive(s);
        assert !Active(s.procs[r]) && !Active(s.procs[step.p]);
      }
      assert r < step.p || step.p < r;
      assert !(Finishing(s.procs[r]) && Finishing(s.procs[step.p]));
      assert ProcessOk(s, s.procs[step.p]);
      OtherOk(s, size, step, s.procs[r]);
    }
  }

  lemma {:induction false} MoverOk(s: State, size: nat, step: Step)
    requires Enabled(s, step) && ProcessOk(s, s.procs[step.p])
    ensures var s' := Next(s, size, step); ProcessOk(s', s'.procs[step.p])
  {
    if step.AppendBlock? {
      AppenderOk(s, size, step);
    } else if step.TestLogWrite? {
      TesterOk(s, size, step);
    }
  }

  lemma {:induction false} AppenderOk(s: State, size: nat, step: Step)
    requires step.AppendBlock? && Enabled(s, step) && ProcessOk(s, s.procs[step.p])
    ensures var s' := Next(s, size, step); ProcessOk(s', s'.procs[step.p])
  {
    Appended(s.lh, s.procs[step.p].mine, s.procs[step.p].b);
  }

  lemma {:induction false} TesterOk(s: State, size: nat, step: Step)
    requires step.TestLogWrite? && Enabled(s, step) && ProcessOk(s, s.procs[step.p])
    ensures var s' := Next(s, size, step); ProcessOk(s', s'.procs[step.p])
  {
  }

  lemma Appended(lh: seq<nat>, mine: set<nat>, b: nat)
    requires forall x :: x in mine ==> x in lh
    ensures forall x :: x in mine + {b} ==> x in Absorb(lh, b)
  {
  }

  lemma {:induction false} OtherOk(s: State, size: nat, step: Step, q: Process)
    requires Enabled(s, step) && ProcessOk(s, q) && ProcessOk(s, s.procs[step.p])
    requires s.committing ==> !Active(q) && !Active(s.procs[step.p])
    requires !(Finishing(q) && Finishing(s.procs[step.p]))
    ensures ProcessOk(Next(s, size, step), q)
  {
    match step
    case AppendBlock(_) =>
      if Active(q) {
        Appended(s.lh, q.mine, s.procs[step.p].b);
      }
    case _ =>
  }

  lemma {:induction false} NextFinishing(s: State, size: nat, step: Step, r: nat, t: nat)
    requires Inv(s) && Enabled(s, step) && r < t < |s.procs|
    ensures var s' := Next(s, size, step); !(Finishing(s'.procs[r]) && Finishing(s'.procs[t]))
  {
    hide Operations, Reserved, Distinct;
    assert ProcessOk(s, s.procs[r]) && ProcessOk(s, s.procs[t]);
  }

  lemma {:induction false} NothingReserved(procs: seq<Process>)
    requires forall p :: 0 <= p < |procs| ==> !Active(procs[p])
    ensures Operations(procs) == 0 && Reserved(procs) == 0
  {
    if procs != [] {
      NothingReserved(procs[1..]);
    }
  }

  lemma {:induction false} NobodyActive(s: State)
    requires Inv(s) && s.outstanding == 0
    ensures forall p :: 0 <= p < |s.procs| ==> !Active(s.procs[p])
  {
    forall p: nat | p < |s.procs|
      ensures !Active(s.procs[p])
    {
      if Active(s.procs[p]) {
        NoOperations(s.procs, p);
        assert false;
      }
    }
  }

  lemma {:induction false} RunInv(nproc: nat, size: nat, steps: seq<Step>, s: State)
    requires Run(nproc, size, steps, s)
    ensures Inv(s) && |s.procs| == nproc
    decreases |steps|
  {
    if steps == [] {
      InitInv(nproc);
    } else {
      var last := steps[|steps| - 1];
      var s0 :| Run(nproc, size, steps[..|steps| - 1], s0) && Enabled(s0, last) && s == Next(s0, size, last);
      RunInv(nproc, size, steps[..|steps| - 1], s0);
      NextInv(s0, size, last);
    }
  }

  /** Over every interleaving: the header never overflows and never repeats a block, no
      process is inside log_write during a commit, and of the three panics only "too big
      a transaction" can be raised. */
  lemma {:induction false} LogNeverOverflows(nproc: nat, size: nat, steps: seq<Step>, s: State)
    requires Run(nproc, size, steps, s)
    ensures |s.lh| <= LOGSIZE && Distinct(s.lh)
    ensures s.committing ==> forall p :: 0 <= p < |s.procs| ==> !s.procs[p].InOp? && !s.procs[p].Tested?
    ensures s.panic == NoPanic || s.panic == TooBig
  {
    RunInv(nproc, size, steps, s);
    ReservedNat(s.procs, s);
    if s.committing {
      NobodyActive(s);
      assert forall p :: 0 <= p < |s.procs| ==> !Active(s.procs[p]);
    }
  }

  lemma {:induction false} ReservedNat(procs: seq<Process>, s: State)
    requires forall p :: 0 <= p < |procs| ==> ProcessOk(s, procs[p])
    ensures Reserved(procs) >= 0
  {
    if procs != [] {
      assert ProcessOk(s, procs[0]);
      ReservedNat(procs[1..], s);
    }
  }

  /** A log_write that appends finds room when the log area is larger than LOGSIZE. */
  lemma {:induction false} AppendHasRoom(nproc: nat, size: nat, steps: seq<Step>, s: State, p: nat, b: nat)
    requires Run(nproc, size, steps, s) && Enabled(s, TestLogWrite(p, b))
    requires b !in s.lh && size > LOGSIZE
    ensures Next(s, size, TestLogWrite(p, b)).panic == NoPanic
  {
    RunInv(nproc, size, steps, s);
    assert ProcessOk(s, s.procs[p]);
    ShareGrows(s.procs[p].mine, b);
    forall q: nat | q < |s.procs|
      ensures Share(s.procs[q]) >= 0
    {
      assert ProcessOk(s, s.procs[q]);
    }
    ReservedShare(s.procs, p);
    NoOperations(s.procs, p);
  }
}
