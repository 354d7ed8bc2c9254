/** proc.c: the hand-off of CPUs between the per-CPU schedulers and the kernel threads of
    processes, as steps of any number of CPUs and processes. The holder of ptable.lock is a
    CPU: a thread may take the lock and, after swtch, another may release it. */
module Scheduler {
  import opened Common

  datatype State = UNUSED | EMBRYO | SLEEPING | RUNNABLE | RUNNING | ZOMBIE

  /** p->context: where swtch(_, p->context) continues. `Exited` would be the panic "zombie
      exit"; `Active` is the context of a thread that is executing, which is stale. */
  datatype Context = NoContext | Forkret | InSched | Exited | Active

  /** `child` is the thread's local `np` while it is in fork or clone. `home` is the CPU that
      last marked the process RUNNING; only the proof uses it. */
  datatype Proc = Proc(state: State, kstack: Option<nat>, context: Context, child: Option<nat>, home: nat)

  /** What a CPU executes: its scheduler, or the kernel thread of process `t`. */
  datatype Where =
    | Idle          // the scheduler, between release and acquire
    | Scan          // in the loop over the table
    | Chosen        // c->proc = p is done
    | Switching     // p->state = RUNNING is done
    | Back          // swtch has returned
    | Thread(t: nat, pc: Pc)

  datatype Pc =
    | Run               // anywhere without ptable.lock
    | Locked            // with ptable.lock
    | Leaving           // the state is set, swtch is next
    | Reaping(z: nat)   // in wait or join, after kfree(z->kstack)

  datatype Cpu = Cpu(proc: Option<nat>, at: Where)

  datatype Sys = Sys(lock: Option<nat>, procs: seq<Proc>, cpus: seq<Cpu>)

  datatype Event =
    | SchedAcquire(c: nat) | SchedRelease(c: nat)
    | Choose(c: nat, p: nat) | MarkRunning(c: nat) | SwitchTo(c: nat) | Clear(c: nat)
    | Acquire(c: nat) | Release(c: nat)
    | SetState(c: nat, st: State) | SwitchOut(c: nat)
    | Wake(c: nat, q: nat)
    | Embryo(c: nat, q: nat) | GiveStack(c: nat, page: nat) | AbortFork(c: nat) | Leak(c: nat) | Launch(c: nat)
    | Reap(c: nat, z: nat) | ReapDone(c: nat)

  predicate InThread(s: Sys, c: nat, pc: Pc) {
    c < |s.cpus| && s.cpus[c].at.Thread? && s.cpus[c].at.pc == pc && s.cpus[c].at.t < |s.procs|
  }

  /** The CPU's scheduler is at `w`. */
  predicate InScheduler(s: Sys, c: nat, w: Where) {
    c < |s.cpus| && s.cpus[c].at == w && !w.Thread?
  }

  /** `c->proc` is a process. */
  predicate HasProc(s: Sys, c: nat) {
    c < |s.cpus| && s.cpus[c].proc.Some? && s.cpus[c].proc.value < |s.procs|
  }

  /** The thread executing on CPU `c` is in fork, for process ChildOf. */
  predicate Forks(s: Sys, c: nat, pc: Pc) {
    InThread(s, c, pc) && var p := s.procs[s.cpus[c].at.t]; p.child.Some? && p.child.value < |s.procs|
  }

  /** kalloc gives out no page that is a kernel stack. */
  predicate FreshStack(s: Sys, page: nat) {
    forall p :: 0 <= p < |s.procs| ==> s.procs[p].kstack != Some(page)
  }

  predicate Enabled(s: Sys, e: Event) {
    match e
    case SchedAcquire(c) => InScheduler(s, c, Idle) && s.lock == None
    case SchedRelease(c) => InScheduler(s, c, Scan)
    case Choose(c, p) => InScheduler(s, c, Scan) && p < |s.procs| && s.procs[p].state == RUNNABLE
    case MarkRunning(c) => InScheduler(s, c, Chosen) && HasProc(s, c)
    case SwitchTo(c) => InScheduler(s, c, Switching) && HasProc(s, c)
    case Clear(c) => InScheduler(s, c, Back)
    case Acquire(c) => InThread(s, c, Run) && s.lock == None
    case Release(c) => InThread(s, c, Locked)
    case SetState(c, st) =>
      && InThread(s, c, Locked) && HasProc(s, c)
      && (st == RUNNABLE || st == SLEEPING || (st == ZOMBIE && s.procs[s.cpus[c].at.t].child == None))
    case SwitchOut(c) => InThread(s, c, Leaving) && HasProc(s, c)
    case Wake(c, q) => InThread(s, c, Locked) && q < |s.procs| && s.procs[q].state == SLEEPING
    case Embryo(c, q) =>
      InThread(s, c, Locked) && s.procs[s.cpus[c].at.t].child == None && q < |s.procs| && s.procs[q].state == UNUSED
    case GiveStack(c, page) =>
      Forks(s, c, Run) && s.procs[s.procs[s.cpus[c].at.t].child.value].kstack == None && FreshStack(s, page)
    case AbortFork(c) => Forks(s, c, Run)
    case Leak(c) => Forks(s, c, Run)
    case Launch(c) => Forks(s, c, Locked) && s.procs[s.procs[s.cpus[c].at.t].child.value].kstack.Some?
    case Reap(c, z) => InThread(s, c, Locked) && z < |s.procs| && s.procs[z].state == ZOMBIE
    case ReapDone(c) =>
      c < |s.cpus| && s.cpus[c].at.Thread? && s.cpus[c].at.pc.Reaping? && s.cpus[c].at.pc.z < |s.procs|
  }

  function PutCpu(s: Sys, c: nat, cpu: Cpu): Sys
    requires c < |s.cpus|
  {
    s.(cpus := s.cpus[c := cpu])
  }

  function PutProc(s: Sys, p: nat, proc: Proc): Sys
    requires p < |s.procs|
  {
    s.(procs := s.procs[p := proc])
  }

  function At(s: Sys, c: nat, w: Where): Sys
    requires c < |s.cpus|
  {
    PutCpu(s, c, s.cpus[c].(at := w))
  }

  function Next(s: Sys, e: Event): Sys
    requires Enabled(s, e)
  {
    match e
    case SchedAcquire(c) => At(s, c, Scan).(lock := Some(c))
    case SchedRelease(c) => At(s, c, Idle).(lock := None)
    case Choose(c, p) => PutCpu(s, c, Cpu(Some(p), Chosen))
    case MarkRunning(c) =>
      var p := s.cpus[c].proc.value;
      At(PutProc(s, p, s.procs[p].(state := RUNNING, home := c)), c, Switching)
    case SwitchTo(c) =>
      var p := s.cpus[c].proc.value;
      At(PutProc(s, p, s.procs[p].(context := Active)), c, Thread(p, Locked))
    case Clear(c) => PutCpu(s, c, Cpu(None, Scan))
    case Acquire(c) => At(s, c, Thread(s.cpus[c].at.t, Locked)).(lock := Some(c))
    case Release(c) => At(s, c, Thread(s.cpus[c].at.t, Run)).(lock := None)
    case SetState(c, st) =>
      var p := s.cpus[c].proc.value; // myproc()
      At(PutProc(s, p, s.procs[p].(state := st)), c, Thread(s.cpus[c].at.t, Leaving))
    case SwitchOut(c) =>
      var t := s.cpus[c].at.t;
      At(PutProc(s, t, s.procs[t].(context := if s.procs[t].state == ZOMBIE then Exited else InSched)), c, Back)
    case Wake(_, q) => PutProc(s, q, s.procs[q].(state := RUNNABLE))
    case Embryo(c, q) =>
      var t := s.cpus[c].at.t;
      var s1 := PutProc(s, q, s.procs[q].(state := EMBRYO));
      PutProc(s1, t, s1.procs[t].(child := Some(q)))
    case GiveStack(c, page) =>
      var q := s.procs[s.cpus[c].at.t].child.value;
      PutProc(s, q, s.procs[q].(kstack := Some(page), context := Forkret))
    case AbortFork(c) =>
      var t := s.cpus[c].at.t;
      var q := s.procs[t].child.value;
      var s1 := PutProc(s, q, s.procs[q].(state := UNUSED, kstack := None));
      PutProc(s1, t, s1.procs[t].(child := None))
    case Leak(c) =>
      var t := s.cpus[c].at.t;
      PutProc(s, t, s.procs[t].(child := None))
    case Launch(c) =>
      var t := s.cpus[c].at.t;
      var q := s.procs[t].child.value;
      var s1 := PutProc(s, q, s.procs[q].(state := RUNNABLE));
      PutProc(s1, t, s1.procs[t].(child := None))
    case Reap(c, z) => At(PutProc(s, z, s.procs[z].(kstack := None)), c, Thread(s.cpus[c].at.t, Reaping(z)))
    case ReapDone(c) =>
      var z := s.cpus[c].at.pc.z;
      At(PutProc(s, z, s.procs[z].(state := UNUSED)), c, Thread(s.cpus[c].at.t, Locked))
  }

  /** After boot: every CPU in its scheduler, one process made by userinit, and nothing else. */
  predicate Init(s: Sys) {
    && s.lock == None
    && (forall c :: 0 <= c < |s.cpus| ==> s.cpus[c] == Cpu(None, Idle))
    && (forall p :: 0 <= p < |s.procs| ==>
          if p == 0 then
            && s.procs[p].state == RUNNABLE && s.procs[p].kstack.Some?
            && s.procs[p].context == Forkret && s.procs[p].child == None
          else s.procs[p] == Proc(UNUSED, None, NoContext, None, 0))
  }

  // ----- The invariant -----

  predicate Holds(w: Where) {
    w == Scan || w == Chosen || w == Switching || w == Back || (w.Thread? && w.pc != Run)
  }

  /** c->proc, what the CPU executes, and the state of that process go together. */
  predicate CpuOk(s: Sys, c: nat)
    requires c < |s.cpus|
  {
    var cpu := s.cpus[c];
    && (Holds(cpu.at) <==> s.lock == Some(c))
    && (cpu.proc == None <==> cpu.at == Idle || cpu.at == Scan)
    && (cpu.proc.Some? ==>
          var p := cpu.proc.value;
          && p < |s.procs|
          && var proc := s.procs[p];
             && (cpu.at == Chosen ==> proc.state == RUNNABLE && (proc.context == Forkret || proc.context == InSched))
             && (cpu.at == Switching ==> proc.state == RUNNING && (proc.context == Forkret || proc.context == InSched))
             && (cpu.at == Back ==> Off(proc.state) && proc.context == if proc.state == ZOMBIE then Exited else InSched)
             && (cpu.at.Thread? ==> cpu.at.t == p && proc.context == Active)
             && (cpu.at.Thread? && cpu.at.pc == Leaving ==> Off(proc.state))
             && (cpu.at.Thread? && cpu.at.pc != Leaving ==> proc.state == RUNNING)
             && (cpu.at.Thread? && cpu.at.pc.Reaping? ==>
                   var z := cpu.at.pc.z; z < |s.procs| && s.procs[z].state == ZOMBIE && s.procs[z].kstack == None)
             && (proc.state == RUNNING ==> proc.home == c))
  }

  /** The states a process gives up its CPU with. */
  predicate Off(st: State) {
    st == RUNNABLE || st == SLEEPING || st == ZOMBIE
  }

  predicate OnCpu(s: Sys, p: nat, c: nat) {
    c < |s.cpus| && s.cpus[c].proc == Some(p)
  }

  predicate ReapedBy(s: Sys, z: nat, c: nat) {
    c < |s.cpus| && s.cpus[c].at.Thread? && s.cpus[c].at.pc == Reaping(z)
  }

  predicate ProcOk(s: Sys, p: nat)
    requires p < |s.procs|
  {
    var proc := s.procs[p];
    && (proc.state == RUNNING ==> OnCpu(s, p, proc.home))
    && (proc.state == RUNNABLE || proc.state == SLEEPING || proc.state == RUNNING ==> proc.kstack.Some?)
    && (proc.state == UNUSED ==> proc.kstack == None)
    && (proc.state == ZOMBIE && proc.kstack == None ==> s.lock.Some? && ReapedBy(s, p, s.lock.value))
    && (proc.state == RUNNABLE || proc.state == SLEEPING ==> proc.context != Exited && proc.context != NoContext)
    && (proc.state == EMBRYO && proc.kstack.Some? ==> proc.context == Forkret)
    && (proc.child.Some? ==>
          proc.child.value < |s.procs| && s.procs[proc.child.value].state == EMBRYO
          && (proc.state == RUNNABLE || proc.state == SLEEPING || proc.state == RUNNING))
  }

  /** A context is `Active` only for the thread a CPU executes. */
  predicate ActiveOk(s: Sys, p: nat)
    requires p < |s.procs|
  {
    s.procs[p].context == Active && Off(s.procs[p].state) && s.procs[p].state != ZOMBIE ==>
      s.lock.Some? && OnCpu(s, p, s.lock.value)
  }

  ghost predicate Inv(s: Sys) {
    && (s.lock.Some? ==> s.lock.value < |s.cpus|)
    && (forall c: nat :: c < |s.cpus| ==> CpuOk(s, c))
    && (forall p: nat :: p < |s.procs| ==> ProcOk(s, p) && ActiveOk(s, p))
    && (forall c: nat, d: nat, p: nat :: OnCpu(s, p, c) && OnCpu(s, p, d) ==> c == d)
    && Apart(s)
  }

  /** Kernel stacks, and the children being made, are each for one process. */
  predicate Apart(s: Sys) {
    forall p: nat, q: nat :: p < |s.procs| && q < |s.procs| && p != q ==> ApartPair(s, p, q)
  }

  predicate ApartPair(s: Sys, p: nat, q: nat)
    requires p < |s.procs| && q < |s.procs|
  {
    && (s.procs[p].kstack.Some? ==> s.procs[p].kstack != s.procs[q].kstack)
    && (s.procs[p].child.Some? ==> s.procs[p].child != s.procs[q].child)
  }

  lemma InitInv(s: Sys)
    requires Init(s)
    ensures Inv(s)
  {
  }

  /** The facts about the two CPUs and the process of a step. */
  lemma Facts(s: Sys, e: Event, c: nat)
    requires Inv(s) && Enabled(s, e) && c < |s.cpus|
    ensures e.c < |s.cpus| && CpuOk(s, c) && CpuOk(s, e.c)
    ensures s.cpus[c].proc.Some? ==>
      var p := s.cpus[c].proc.value; p < |s.procs| && OnCpu(s, p, c) && ProcOk(s, p) && ActiveOk(s, p)
    ensures forall p: nat :: OnCpu(s, p, c) && OnCpu(s, p, e.c) ==> c == e.c
  {
    assert CpuOk(s, c);
  }

  predicate SchedulerStep(e: Event) {
    e.SchedAcquire? || e.SchedRelease? || e.Choose? || e.MarkRunning? || e.SwitchTo? || e.Clear?
  }

  predicate ForkStep(e: Event) {
    e.Embryo? || e.GiveStack? || e.AbortFork? || e.Leak? || e.Launch?
  }

  lemma {:induction false} CpuInvScheduler(s: Sys, e: Event, c: nat)
    requires Inv(s) && Enabled(s, e) && c < |s.cpus| && SchedulerStep(e)
    ensures CpuOk(Next(s, e), c)
  {
    Facts(s, e, c);
    Facts(s, e, e.c);
    if e.Choose? {
      assert ProcOk(s, e.p) && ActiveOk(s, e.p);
    }
  }

  lemma {:induction false} CpuInvFork(s: Sys, e: Event, c: nat)
    requires Inv(s) && Enabled(s, e) && c < |s.cpus| && ForkStep(e)
    ensures CpuOk(Next(s, e), c)
  {
    Facts(s, e, c);
    Facts(s, e, e.c);
  }

  lemma {:induction false} CpuInvThread(s: Sys, e: Event, c: nat)
    requires Inv(s) && Enabled(s, e) && c < |s.cpus| && !SchedulerStep(e) && !ForkStep(e)
    ensures CpuOk(Next(s, e), c)
  {
    Facts(s, e, c);
    Facts(s, e, e.c);
  }

  lemma {:induction false} ProcInvScheduler(s: Sys, e: Event, p: nat)
    requires Inv(s) && Enabled(s, e) && p < |s.procs| && SchedulerStep(e)
    ensures ProcOk(Next(s, e), p) && ActiveOk(Next(s, e), p)
  {
    Facts(s, e, e.c);
    assert ProcOk(s, p) && ActiveOk(s, p);
  }

  lemma {:induction false} ProcInvFork(s: Sys, e: Event, p: nat)
    requires Inv(s) && Enabled(s, e) && p < |s.procs| && ForkStep(e)
    ensures ProcOk(Next(s, e), p) && ActiveOk(Next(s, e), p)
  {
    Facts(s, e, e.c);
    assert ProcOk(s, p) && ActiveOk(s, p);
    if s.cpus[e.c].at.t != p {
      assert ApartPair(s, p, s.cpus[e.c].at.t);
    }
  }

  lemma {:induction false} ProcInvThread(s: Sys, e: Event, p: nat)
    requires Inv(s) && Enabled(s, e) && p < |s.procs| && !SchedulerStep(e) && !ForkStep(e)
    ensures ProcOk(Next(s, e), p) && ActiveOk(Next(s, e), p)
  {
    Facts(s, e, e.c);
    assert ProcOk(s, p) && ActiveOk(s, p);
  }

  /** A CPU takes on only a process that no CPU has. */
  lemma {:induction false} OneCpu(s: Sys, e: Event, p: nat, c: nat, d: nat)
    requires Inv(s) && Enabled(s, e) && OnCpu(Next(s, e), p, c) && OnCpu(Next(s, e), p, d)
    ensures c == d
  {
    CurrentAfter(s, e, p, c);
    CurrentAfter(s, e, p, d);
    if e.Choose? {
      assert CpuOk(s, e.c);
      NobodyHas(s, e.p, e.c, c);
      NobodyHas(s, e.p, e.c, d);
    }
  }

  /** No CPU has a RUNNABLE process but, perhaps, the holder of ptable.lock. */
  lemma NobodyHas(s: Sys, p: nat, c: nat, d: nat)
    requires Inv(s) && p < |s.procs| && s.procs[p].state == RUNNABLE && s.lock == Some(c)
    ensures OnCpu(s, p, d) ==> d == c
  {
    if d < |s.cpus| {
      assert CpuOk(s, d);
    }
  }

  /** No other step puts a process on a CPU. */
  lemma {:induction false} CurrentAfter(s: Sys, e: Event, p: nat, c: nat)
    requires Enabled(s, e) && OnCpu(Next(s, e), p, c)
    ensures OnCpu(s, p, c) || (e.Choose? && p == e.p && c == e.c)
  {
  }

  lemma {:induction false} ApartInv(s: Sys, e: Event, p: nat, q: nat)
    requires Inv(s) && Enabled(s, e) && p < |s.procs| && q < |s.procs| && p != q
    ensures ApartPair(Next(s, e), p, q)
  {
    hide CpuOk, ActiveOk, OnCpu;
    assert ApartPair(s, p, q) && ProcOk(s, p) && ProcOk(s, q);
    hide Inv, Apart;
    if ForkStep(e) {
      ApartFork(s, e, p, q);
    }
  }

  lemma {:induction false} ApartFork(s: Sys, e: Event, p: nat, q: nat)
    requires Enabled(s, e) && ForkStep(e) && p < |s.procs| && q < |s.procs| && p != q
    requires ApartPair(s, p, q) && ProcOk(s, p) && ProcOk(s, q)
    ensures ApartPair(Next(s, e), p, q)
  {
  }

  /** Every step keeps the invariant. */
  lemma {:induction false} NextInv(s: Sys, e: Event)
    requires Inv(s) && Enabled(s, e)
    ensures Inv(Next(s, e))
  {
    hide CpuOk, ProcOk, ActiveOk, ApartPair, OnCpu;
    var s' := Next(s, e);
    assert |s'.cpus| == |s.cpus| && |s'.procs| == |s.procs|;
    forall c: nat | c < |s'.cpus|
      ensures CpuOk(s', c)
    {
      if SchedulerStep(e) {
        CpuInvScheduler(s, e, c);
      } else if ForkStep(e) {
        CpuInvFork(s, e, c);
      } else {
        CpuInvThread(s, e, c);
      }
    }
    forall p: nat | p < |s'.procs|
      ensures ProcOk(s', p) && ActiveOk(s', p)
    {
      if SchedulerStep(e) {
        ProcInvScheduler(s, e, p);
      } else if ForkStep(e) {
        ProcInvFork(s, e, p);
      } else {
        ProcInvThread(s, e, p);
      }
    }
    forall c: nat, d: nat, p: nat | OnCpu(s', p, c) && OnCpu(s', p, d)
      ensures c == d
    {
      OneCpu(s, e, p, c, d);
    }
    forall p: nat, q: nat | p < |s'.procs| && q < |s'.procs| && p != q
      ensures ApartPair(s', p, q)
    {
      ApartInv(s, e, p, q);
    }
  }

  // ----- What holds in every run -----

  predicate IsRun(s: Sys, es: seq<Event>)
    decreases |es|
  {
    es == [] || (Enabled(s, es[0]) && IsRun(Next(s, es[0]), es[1..]))
  }

  function After(s: Sys, es: seq<Event>): Sys
    requires IsRun(s, es)
    decreases |es|
  {
    if es == [] then s else After(Next(s, es[0]), es[1..])
  }

  lemma {:induction false} RunInv(s: Sys, es: seq<Event>)
    requires Inv(s) && IsRun(s, es)
    ensures Inv(After(s, es))
    decreases |es|
  {
    if es != [] {
      NextInv(s, es[0]);
      RunInv(Next(s, es[0]), es[1..]);
    }
  }

  /** CPU `c` executes the kernel thread of process `p`. */
  predicate Executes(s: Sys, c: nat, p: nat) {
    c < |s.cpus| && s.cpus[c].at.Thread? && s.cpus[c].at.t == p
  }

  /** Whenever ptable.lock is free, the RUNNING processes are those that are current on a CPU,
      each on one CPU, which executes it. */
  lemma {:induction false} HandOff(s0: Sys, es: seq<Event>, p: nat)
    requires Init(s0) && IsRun(s0, es) && After(s0, es).lock == None && p < |After(s0, es).procs|
    ensures var s := After(s0, es);
      && (s.procs[p].state == RUNNING <==> exists c: nat :: OnCpu(s, p, c))
      && (forall c: nat, d: nat :: OnCpu(s, p, c) && OnCpu(s, p, d) ==> c == d)
      && (forall c: nat :: OnCpu(s, p, c) <==> Executes(s, c, p))
  {
    InitInv(s0);
    RunInv(s0, es);
    var s := After(s0, es);
    assert ProcOk(s, p);
    forall c: nat
      ensures OnCpu(s, p, c) ==> s.procs[p].state == RUNNING
      ensures OnCpu(s, p, c) <==> Executes(s, c, p)
    {
      if c < |s.cpus| {
        assert CpuOk(s, c);
      }
    }
  }

  /** The kernel stack wait or join frees is that of a process no CPU is executing, and no CPU
      executes on that page. */
  lemma {:induction false} ReapSafe(s0: Sys, es: seq<Event>, c: nat, z: nat, d: nat)
    requires Init(s0) && IsRun(s0, es) && Enabled(After(s0, es), Reap(c, z)) && d < |After(s0, es).cpus|
    ensures var s := After(s0, es);
      && s.procs[z].kstack.Some? && !Executes(s, d, z) && s.cpus[d].proc != Some(z)
      && (s.cpus[d].at.Thread? ==> s.cpus[d].at.t < |s.procs| && s.procs[s.cpus[d].at.t].kstack != s.procs[z].kstack)
  {
    InitInv(s0);
    RunInv(s0, es);
    var s := After(s0, es);
    assert CpuOk(s, c) && CpuOk(s, d) && ProcOk(s, z);
    if s.cpus[d].at.Thread? {
      assert ApartPair(s, z, s.cpus[d].at.t);
    }
  }

  /** At any time the CPUs that execute kernel threads do so on different kernel stacks. */
  lemma {:induction false} StacksApart(s0: Sys, es: seq<Event>, c: nat, d: nat, p: nat, q: nat)
    requires Init(s0) && IsRun(s0, es) && Executes(After(s0, es), c, p) && Executes(After(s0, es), d, q)
    ensures var s := After(s0, es);
      p < |s.procs| && q < |s.procs| && s.procs[p].kstack.Some? && (c != d ==> s.procs[p].kstack != s.procs[q].kstack)
  {
    InitInv(s0);
    RunInv(s0, es);
    var s := After(s0, es);
    assert CpuOk(s, c) && CpuOk(s, d) && OnCpu(s, p, c) && OnCpu(s, q, d);
    assert ProcOk(s, p) && ProcOk(s, q);
    if p != q {
      assert ApartPair(s, p, q);
    }
  }

  /** At swtch in sched() the CPU holds ptable.lock and its process is not RUNNING, which are
      two of the four checks made there; and swtch never resumes a thread that has exited. The
      other two checks, of `ncli` and FL_IF, concern state that is not modelled. */
  lemma {:induction false} SwitchSafe(s0: Sys, es: seq<Event>, c: nat)
    requires Init(s0) && IsRun(s0, es)
    ensures var s := After(s0, es); InThread(s, c, Leaving) ==>
      s.lock == Some(c) && s.cpus[c].proc == Some(s.cpus[c].at.t) && s.procs[s.cpus[c].at.t].state != RUNNING
    ensures var s := After(s0, es); Enabled(s, SwitchTo(c)) ==>
      var x := s.procs[s.cpus[c].proc.value].context; x == Forkret || x == InSched
  {
    InitInv(s0);
    RunInv(s0, es);
    var s := After(s0, es);
    if c < |s.cpus| {
      assert CpuOk(s, c);
    }
  }

  /** What the holder of ptable.lock can do next on the way to releasing it. */
  function HolderStep(s: Sys, c: nat): Event
    requires c < |s.cpus|
  {
    match s.cpus[c].at
    case Scan => SchedRelease(c)
    case Chosen => MarkRunning(c)
    case Switching => SwitchTo(c)
    case Thread(_, Locked) => Release(c)
    case Thread(_, Leaving) => SwitchOut(c)
    case Thread(_, Reaping(_)) => ReapDone(c)
    case _ => Clear(c)
  }

  /** ptable.lock is never held for good: its holder can always step on, and is at most three
      steps from releasing it. */
  function StepsLeft(w: Where): nat {
    match w
    case Chosen => 3
    case Switching => 2
    case Thread(_, Leaving) => 3
    case Thread(_, Reaping(_)) => 2
    case Back => 2
    case _ => 1
  }

  lemma {:induction false} HolderMoves(s: Sys)
    requires Inv(s) && s.lock.Some?
    ensures var c, e := s.lock.value, HolderStep(s, s.lock.value);
      && Enabled(s, e)
      && (Next(s, e).lock != None ==>
            Next(s, e).lock == s.lock && StepsLeft(Next(s, e).cpus[c].at) < StepsLeft(s.cpus[c].at))
  {
    assert CpuOk(s, s.lock.value);
  }

  // ----- What becomes of a process -----

  lemma RunOne(s: Sys, e: Event, es: seq<Event>)
    requires Enabled(s, e) && IsRun(Next(s, e), es)
    ensures IsRun(s, [e] + es) && After(s, [e] + es) == After(Next(s, e), es)
  {
    assert ([e] + es)[1..] == es;
  }

  lemma {:induction false} RunAppend(s: Sys, a: seq<Event>, b: seq<Event>)
    requires IsRun(s, a) && IsRun(After(s, a), b)
    ensures IsRun(s, a + b) && After(s, a + b) == After(After(s, a), b)
    decreases |a|
  {
    if a == [] {
      assert a + b == b;
    } else {
      assert (a + b)[0] == a[0] && (a + b)[1..] == a[1..] + b;
      RunAppend(Next(s, a[0]), a[1..], b);
    }
  }

  predicate StateIs(s: Sys, p: nat, st: State) {
    p < |s.procs| && s.procs[p].state == st
  }

  /** The states a process goes through, and the only events that change its state. */
  lemma {:induction false} LifeCycle(s: Sys, e: Event, p: nat)
    requires Inv(s) && Enabled(s, e) && p < |s.procs| && Next(s, e).procs[p].state != s.procs[p].state
    ensures match s.procs[p].state
            case UNUSED => e.Embryo? && e.q == p && StateIs(Next(s, e), p, EMBRYO)
            case EMBRYO =>
              && e.c < |s.cpus| && s.cpus[e.c].at.Thread? && s.cpus[e.c].at.t < |s.procs|
              && s.procs[s.cpus[e.c].at.t].child == Some(p)
              && ((e.AbortFork? && StateIs(Next(s, e), p, UNUSED)) || (e.Launch? && StateIs(Next(s, e), p, RUNNABLE)))
            case RUNNABLE => e.MarkRunning? && OnCpu(s, p, e.c) && StateIs(Next(s, e), p, RUNNING)
            case RUNNING => e.SetState? && Executes(s, e.c, p) && Off(e.st) && StateIs(Next(s, e), p, e.st)
            case SLEEPING => e.Wake? && e.q == p && StateIs(Next(s, e), p, RUNNABLE)
            case ZOMBIE => e.ReapDone? && ReapedBy(s, p, e.c) && StateIs(Next(s, e), p, UNUSED)
  {
    Facts(s, e, e.c);
    assert ProcOk(s, p);
    if s.cpus[e.c].at.Thread? {
      assert ProcOk(s, s.cpus[e.c].at.t);
    }
  }

  /** A process that sleeps does so, and no CPU executes it, until it is woken. */
  lemma {:induction false} SleepsUntilWoken(s: Sys, es: seq<Event>, p: nat)
    requires Inv(s) && IsRun(s, es) && StateIs(s, p, SLEEPING)
    requires forall i :: 0 <= i < |es| ==> !(es[i].Wake? && es[i].q == p)
    ensures var s' := After(s, es);
      StateIs(s', p, SLEEPING) && (s'.lock == None ==> forall c: nat :: !Executes(s', c, p))
    decreases |es|
  {
    hide Enabled, Next, IsRun, Inv;
    if es == [] {
      NotExecuted(s, p);
    } else {
      StateKept(s, es, p);
      SleepsUntilWoken(Next(s, es[0]), es[1..], p);
    }
  }

  /** Nobody is about to free the process. */
  predicate NotReaped(s: Sys, p: nat) {
    forall c: nat :: c < |s.cpus| ==> !ReapedBy(s, p, c)
  }

  /** Nor does any CPU execute a process that has exited, until it is reaped. */
  lemma {:induction false} ExitedUntilReaped(s: Sys, es: seq<Event>, p: nat)
    requires Inv(s) && IsRun(s, es) && StateIs(s, p, ZOMBIE) && NotReaped(s, p)
    requires forall i :: 0 <= i < |es| ==> !(es[i].Reap? && es[i].z == p)
    ensures var s' := After(s, es);
      StateIs(s', p, ZOMBIE) && (s'.lock == None ==> forall c: nat :: !Executes(s', c, p))
    decreases |es|
  {
    hide Enabled, Next, IsRun, Inv;
    if es == [] {
      NotExecuted(s, p);
    } else {
      StateKept(s, es, p);
      StillNotReaped(s, es[0], p);
      ExitedUntilReaped(Next(s, es[0]), es[1..], p);
    }
  }

  /** No CPU is about to mark the process RUNNING. */
  predicate NotChosen(s: Sys, p: nat) {
    forall c :: 0 <= c < |s.cpus| && s.cpus[c].at == Chosen ==> s.cpus[c].proc != Some(p)
  }

  /** A process that can run stays so until a scheduler chooses it. */
  lemma {:induction false} RunnableUntilChosen(s: Sys, es: seq<Event>, p: nat)
    requires Inv(s) && IsRun(s, es) && StateIs(s, p, RUNNABLE) && NotChosen(s, p)
    requires forall i :: 0 <= i < |es| ==> !(es[i].Choose? && es[i].p == p)
    ensures StateIs(After(s, es), p, RUNNABLE) && NotChosen(After(s, es), p)
    decreases |es|
  {
    if es != [] {
      NextInv(s, es[0]);
      StillNotChosen(s, es[0], p);
      if Next(s, es[0]).procs[p].state != RUNNABLE {
        LifeCycle(s, es[0], p);
      }
      hide Inv, NotChosen;
      RunnableUntilChosen(Next(s, es[0]), es[1..], p);
    }
  }

  lemma StillNotReaped(s: Sys, e: Event, p: nat)
    requires Enabled(s, e) && NotReaped(s, p) && !(e.Reap? && e.z == p)
    ensures NotReaped(Next(s, e), p)
  {
    var s' := Next(s, e);
    forall c: nat | c < |s'.cpus|
      ensures !ReapedBy(s', p, c)
    {
      assert !ReapedBy(s, p, c);
    }
  }

  lemma StillNotChosen(s: Sys, e: Event, p: nat)
    requires Enabled(s, e) && NotChosen(s, p) && !(e.Choose? && e.p == p)
    ensures NotChosen(Next(s, e), p)
  {
  }

  lemma {:induction false} StateKept(s: Sys, es: seq<Event>, p: nat)
    requires Inv(s) && IsRun(s, es) && es != [] && p < |s.procs|
    requires
      || (s.procs[p].state == SLEEPING && !(es[0].Wake? && es[0].q == p))
      || (s.procs[p].state == ZOMBIE && !ReapedBy(s, p, es[0].c))
    ensures Enabled(s, es[0]) && Inv(Next(s, es[0])) && IsRun(Next(s, es[0]), es[1..])
    ensures StateIs(Next(s, es[0]), p, s.procs[p].state) && After(s, es) == After(Next(s, es[0]), es[1..])
  {
    NextInv(s, es[0]);
    if Next(s, es[0]).procs[p].state != s.procs[p].state {
      LifeCycle(s, es[0], p);
    }
  }

  lemma NotExecuted(s: Sys, p: nat)
    requires Inv(s) && p < |s.procs| && s.procs[p].state != RUNNING
    ensures s.lock == None ==> forall c: nat :: !Executes(s, c, p)
  {
    forall c: nat | s.lock == None && c < |s.cpus|
      ensures !Executes(s, c, p)
    {
      assert CpuOk(s, c);
    }
  }

  /** The steps by which CPU `d`, in its loop, switches to process `p`. */
  function Switch(d: nat, p: nat): seq<Event> {
    [Choose(d, p), MarkRunning(d), SwitchTo(d)]
  }

  /** CPU `d` executes process `p`, which is RUNNING, and holds ptable.lock, as sched and forkret
      expect; all other processes are as in `s`. */
  predicate RunsOn(s: Sys, s': Sys, d: nat, p: nat) {
    && InThread(s', d, Locked) && Executes(s', d, p) && OnCpu(s', p, d) && s'.lock == Some(d)
    && StateIs(s', p, RUNNING) && |s'.procs| == |s.procs|
    && forall q :: 0 <= q < |s.procs| && q != p ==> s'.procs[q] == s.procs[q]
  }

  /** A scheduler may choose any process that is RUNNABLE, and its CPU then executes it. */
  lemma {:induction false} Taken(s: Sys, d: nat, p: nat)
    requires Inv(s) && InScheduler(s, d, Scan) && StateIs(s, p, RUNNABLE)
    ensures IsRun(s, Switch(d, p)) && RunsOn(s, After(s, Switch(d, p)), d, p)
  {
    hide Inv;
    ScanHolds(s, d);
    var s1 := Next(s, Choose(d, p));
    var s2 := Next(s1, MarkRunning(d));
    var s3 := Next(s2, SwitchTo(d));
    assert RunsOn(s, s3, d, p);
    hide Next, RunsOn;
    RunOne(s2, SwitchTo(d), []);
    RunOne(s1, MarkRunning(d), [SwitchTo(d)]);
    RunOne(s, Choose(d, p), [MarkRunning(d), SwitchTo(d)]);
    assert [MarkRunning(d)] + [SwitchTo(d)] == [MarkRunning(d), SwitchTo(d)];
    assert [Choose(d, p)] + [MarkRunning(d), SwitchTo(d)] == Switch(d, p);
  }

  lemma ScanHolds(s: Sys, d: nat)
    requires Inv(s) && InScheduler(s, d, Scan)
    ensures s.lock == Some(d)
  {
    assert CpuOk(s, d);
  }

  /** So does the CPU of any scheduler that waits for ptable.lock, once the lock is free. */
  lemma {:induction false} TakenByAny(s: Sys, d: nat, p: nat)
    requires Inv(s) && InScheduler(s, d, Idle) && s.lock == None && StateIs(s, p, RUNNABLE)
    ensures IsRun(s, [SchedAcquire(d)] + Switch(d, p))
    ensures RunsOn(s, After(s, [SchedAcquire(d)] + Switch(d, p)), d, p)
  {
    NextInv(s, SchedAcquire(d));
    Taken(Next(s, SchedAcquire(d)), d, p);
    RunOne(s, SchedAcquire(d), Switch(d, p));
  }

  /** yield, sleep and exit from the assignment of the state to the scheduler's loop. */
  function GiveUp(c: nat, st: State): seq<Event> {
    [SetState(c, st), SwitchOut(c), Clear(c)]
  }

  /** The process has just the state it gave itself, and the CPU is free for others. */
  lemma {:induction false} GivesUp(s: Sys, c: nat, st: State)
    requires Inv(s) && InThread(s, c, Locked) && Off(st)
    requires st == ZOMBIE ==> s.procs[s.cpus[c].at.t].child == None
    ensures IsRun(s, GiveUp(c, st))
    ensures var s', p := After(s, GiveUp(c, st)), s.cpus[c].at.t;
      && s'.lock == Some(c) && s'.cpus == s.cpus[c := Cpu(None, Scan)] && |s'.procs| == |s.procs|
      && StateIs(s', p, st) && s'.procs[p].kstack == s.procs[p].kstack && s'.procs[p].child == s.procs[p].child
      && forall q :: 0 <= q < |s.procs| && q != p ==> s'.procs[q] == s.procs[q]
  {
    ThreadHolds(s, c);
    hide Inv;
    var s1 := Next(s, SetState(c, st));
    var s2 := Next(s1, SwitchOut(c));
    var s3 := Next(s2, Clear(c));
    assert s3.cpus == s.cpus[c := Cpu(None, Scan)];
    RunOne(s2, Clear(c), []);
    RunOne(s1, SwitchOut(c), [Clear(c)]);
    RunOne(s, SetState(c, st), [SwitchOut(c), Clear(c)]);
    assert [SwitchOut(c)] + [Clear(c)] == [SwitchOut(c), Clear(c)];
    assert [SetState(c, st)] + [SwitchOut(c), Clear(c)] == GiveUp(c, st);
  }

  lemma ThreadHolds(s: Sys, c: nat)
    requires Inv(s) && InThread(s, c, Locked)
    ensures s.lock == Some(c) && s.cpus[c].proc == Some(s.cpus[c].at.t) && StateIs(s, s.cpus[c].at.t, RUNNING)
  {
    assert CpuOk(s, c);
  }

  /** A process that yields is RUNNABLE, and runs on as soon as the scheduler of its CPU, or that
      of any other CPU that waits for the lock, chooses it. */
  lemma {:induction false} YieldRunsOn(s: Sys, c: nat, d: nat)
    requires Inv(s) && InThread(s, c, Locked) && (d == c || InScheduler(s, d, Idle))
    ensures IsRun(s, YieldAndSwitch(s, c, d)) && RunsOn(s, After(s, YieldAndSwitch(s, c, d)), d, s.cpus[c].at.t)
  {
    var p := s.cpus[c].at.t;
    GivesUp(s, c, RUNNABLE);
    RunInv(s, GiveUp(c, RUNNABLE));
    var s1 := After(s, GiveUp(c, RUNNABLE));
    NextInv(s1, SchedRelease(c));
    var s2 := Next(s1, SchedRelease(c));
    TakenByAny(s2, d, p);
    RunOne(s1, SchedRelease(c), [SchedAcquire(d)] + Switch(d, p));
    RunAppend(s, GiveUp(c, RUNNABLE), [SchedRelease(c)] + ([SchedAcquire(d)] + Switch(d, p)));
  }

  function YieldAndSwitch(s: Sys, c: nat, d: nat): seq<Event>
    requires InThread(s, c, Locked)
  {
    GiveUp(c, RUNNABLE) + ([SchedRelease(c)] + ([SchedAcquire(d)] + Switch(d, s.cpus[c].at.t)))
  }

  /** A process that was woken runs on any CPU whose scheduler waits for the lock. */
  lemma {:induction false} WokenRunsOn(s: Sys, c: nat, q: nat, d: nat)
    requires Inv(s) && Enabled(s, Wake(c, q)) && InScheduler(s, d, Idle)
    ensures var es := [Wake(c, q)] + ([Release(c)] + ([SchedAcquire(d)] + Switch(d, q)));
      IsRun(s, es) && RunsOn(s, After(s, es), d, q)
  {
    ReleasedRunsOn(s, Wake(c, q), q, d);
  }

  /** The child of fork or clone: it has its own kernel stack and starts at forkret. */
  lemma {:induction false} ChildRunsOn(s: Sys, c: nat, d: nat)
    requires Inv(s) && Enabled(s, Launch(c)) && InScheduler(s, d, Idle)
    ensures var t := s.cpus[c].at.t;
      var q := s.procs[t].child.value;
      var es := [Launch(c)] + ([Release(c)] + ([SchedAcquire(d)] + Switch(d, q)));
      && q != t && s.procs[q].kstack.Some? && s.procs[q].context == Forkret
      && IsRun(s, es) && RunsOn(Next(s, Launch(c)), After(s, es), d, q) && After(s, es).procs[t].child == None
  {
    ChildIs(s, c);
    ReleasedRunsOn(s, Launch(c), s.procs[s.cpus[c].at.t].child.value, d);
  }

  lemma ChildIs(s: Sys, c: nat)
    requires Inv(s) && Enabled(s, Launch(c))
    ensures var t := s.cpus[c].at.t; var q := s.procs[t].child.value;
      q != t && s.procs[q].context == Forkret && s.procs[t].state == RUNNING && s.procs[q].state == EMBRYO
  {
    Facts(s, Launch(c), c);
    assert ProcOk(s, s.cpus[c].at.t) && ProcOk(s, s.procs[s.cpus[c].at.t].child.value);
  }

  lemma {:induction false} ReleasedRunsOn(s: Sys, e: Event, q: nat, d: nat)
    requires Inv(s) && Enabled(s, e) && InScheduler(s, d, Idle) && (e.Wake? || e.Launch?)
    requires StateIs(Next(s, e), q, RUNNABLE)
    ensures var es := [e] + ([Release(e.c)] + ([SchedAcquire(d)] + Switch(d, q)));
      IsRun(s, es) && RunsOn(Next(s, e), After(s, es), d, q)
  {
    NextInv(s, e);
    var s1 := Next(s, e);
    NextInv(s1, Release(e.c));
    var s2 := Next(s1, Release(e.c));
    TakenByAny(s2, d, q);
    RunOne(s1, Release(e.c), [SchedAcquire(d)] + Switch(d, q));
    RunOne(s, e, [Release(e.c)] + ([SchedAcquire(d)] + Switch(d, q)));
  }

  /** A slot given up by a failed fork, or by wait or join, can be a new process again. */
  lemma {:induction false} SlotFree(s: Sys, e: Event, d: nat, q: nat)
    requires Inv(s) && Enabled(s, e) && (e.AbortFork? || e.ReapDone?)
    requires q == if e.AbortFork? then s.procs[s.cpus[e.c].at.t].child.value else s.cpus[e.c].at.pc.z
    ensures var s' := Next(s, e); StateIs(s', q, UNUSED) && s'.procs[q].kstack == None
    ensures var s' := Next(s, e);
      InThread(s', d, Locked) && s'.procs[s'.cpus[d].at.t].child == None ==>
        Enabled(s', Embryo(d, q)) && StateIs(Next(s', Embryo(d, q)), q, EMBRYO)
  {
    NextInv(s, e);
    Facts(s, e, e.c);
    if e.AbortFork? {
      assert ProcOk(s, s.cpus[e.c].at.t);
    }
    assert ProcOk(Next(s, e), q);
  }

  /** While ptable.lock is free every CPU can take it. */
  lemma {:induction false} EveryCpuMoves(s: Sys, c: nat)
    requires Inv(s) && s.lock == None && c < |s.cpus|
    ensures Enabled(s, SchedAcquire(c)) || Enabled(s, Acquire(c))
  {
    assert CpuOk(s, c);
  }

  /** fork and clone, with a free slot of the table and a page for the stack: the child is
      RUNNABLE at forkret on that stack, and the parent goes on. */
  lemma {:induction false} ForkRun(s: Sys, c: nat, q: nat, page: nat)
    requires Inv(s) && InThread(s, c, Locked) && s.procs[s.cpus[c].at.t].child == None
    requires StateIs(s, q, UNUSED) && FreshStack(s, page)
    ensures var es := [Embryo(c, q), Release(c), GiveStack(c, page), Acquire(c), Launch(c)];
      && IsRun(s, es)
      && var s' := After(s, es);
         && s'.cpus == s.cpus && s'.lock == s.lock && |s'.procs| == |s.procs|
         && s'.procs[q] == s.procs[q].(state := RUNNABLE, kstack := Some(page), context := Forkret)
         && forall p :: 0 <= p < |s.procs| && p != q ==> s'.procs[p] == s.procs[p]
  {
    ThreadHolds(s, c);
    assert ProcOk(s, q);
    hide Inv, IsRun, After;
    var s1 := Next(s, Embryo(c, q));
    var s2 := Next(s1, Release(c));
    var s3 := Next(s2, GiveStack(c, page));
    var s4 := Next(s3, Acquire(c));
    var s5 := Next(s4, Launch(c));
    assert s5.cpus == s.cpus && s5.lock == s.lock && |s5.procs| == |s.procs|;
    assert s5.procs[q] == s.procs[q].(state := RUNNABLE, kstack := Some(page), context := Forkret);
    assert forall p :: 0 <= p < |s.procs| && p != q ==> s5.procs[p] == s.procs[p];
    hide Next, Enabled;
    FiveSteps(s, Embryo(c, q), Release(c), GiveStack(c, page), Acquire(c), Launch(c), s1, s2, s3, s4);
  }

  lemma FiveSteps(s: Sys, e1: Event, e2: Event, e3: Event, e4: Event, e5: Event, s1: Sys, s2: Sys, s3: Sys, s4: Sys)
    requires Enabled(s, e1) && s1 == Next(s, e1) && Enabled(s1, e2) && s2 == Next(s1, e2)
    requires Enabled(s2, e3) && s3 == Next(s2, e3) && Enabled(s3, e4) && s4 == Next(s3, e4) && Enabled(s4, e5)
    ensures IsRun(s, [e1, e2, e3, e4, e5]) && After(s, [e1, e2, e3, e4, e5]) == Next(s4, e5)
  {
    hide Enabled, Next;
    RunOne(s4, e5, []);
    RunOne(s3, e4, [e5]);
    assert [e4] + [e5] == [e4, e5];
    RunOne(s2, e3, [e4, e5]);
    assert [e3] + [e4, e5] == [e3, e4, e5];
    RunOne(s1, e2, [e3, e4, e5]);
    assert [e2] + [e3, e4, e5] == [e2, e3, e4, e5];
    RunOne(s, e1, [e2, e3, e4, e5]);
    assert [e1] + [e2, e3, e4, e5] == [e1, e2, e3, e4, e5];
  }

  /** wait and join, for any process that has exited: its slot is free. */
  lemma {:induction false} ReapRun(s: Sys, c: nat, z: nat)
    requires Inv(s) && InThread(s, c, Locked) && StateIs(s, z, ZOMBIE)
    ensures IsRun(s, [Reap(c, z), ReapDone(c)])
    ensures var s' := After(s, [Reap(c, z), ReapDone(c)]);
      && s'.cpus == s.cpus && s'.lock == s.lock && |s'.procs| == |s.procs|
      && s'.procs[z] == s.procs[z].(state := UNUSED, kstack := None)
      && forall p :: 0 <= p < |s.procs| && p != z ==> s'.procs[p] == s.procs[p]
  {
    var s1 := Next(s, Reap(c, z));
    var s2 := Next(s1, ReapDone(c));
    assert s2.cpus == s.cpus;
    RunOne(s1, ReapDone(c), []);
    RunOne(s, Reap(c, z), [ReapDone(c)]);
    assert [Reap(c, z)] + [ReapDone(c)] == [Reap(c, z), ReapDone(c)];
  }

  /** A thread with the lock can wake any sleeper, whichever it is. */
  lemma {:induction false} WakeRun(s: Sys, c: nat, q: nat)
    requires Inv(s) && InThread(s, c, Locked) && StateIs(s, q, SLEEPING)
    ensures Enabled(s, Wake(c, q))
    ensures var s' := Next(s, Wake(c, q));
      && s'.cpus == s.cpus && s'.lock == s.lock
      && s'.procs == s.procs[q := s.procs[q].(state := RUNNABLE)]
  {
  }
}
