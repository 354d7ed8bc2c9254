/** sleeplock.c over sleep and wakeup of proc.c: one sleep lock and any number of processes,
    stepping at single lock operations. `lk` is the spinlock inside the sleep lock, `pt` is
    ptable.lock. Which process holds the sleep lock is kept in `holder`, not as a pid. */
module SleepLock {
  import opened Common

  datatype State = RUNNABLE | SLEEPING

  datatype Pc =
    | Away             // not using the lock
    // acquiresleep
    | Trying            // acquire(&lk->lk) is done; at while(lk->locked)
    | Taken           // lk->locked = 1 is done
    | Inside          // acquiresleep has returned
    // sleep(lk, &lk->lk), called from acquiresleep
    | ToSleep         // at acquire(&ptable.lock)
    | BothLocks       // at release(lk)
    | Commit          // at p->chan = chan; p->state = SLEEPING
    | Asleep          // the state is set; in sched(), ptable.lock still held
    | Parked          // the scheduler has released ptable.lock
    | Woken           // resumed, with ptable.lock
    | Again           // at acquire(lk)
    // releasesleep
    | ToClear         // acquire(&lk->lk) is done; at lk->locked = 0
    | ToWake          // at acquire(&ptable.lock) in wakeup
    | Waking(i: nat)  // in wakeup1's loop, at process i
    | Awoken          // wakeup has returned; at release(&lk->lk)

  /** `onLock`: p->chan is the sleep lock. */
  datatype Proc = Proc(pc: Pc, state: State, onLock: bool)

  datatype Sys = Sys(locked: bool, holder: Option<nat>, lk: Option<nat>, pt: Option<nat>, procs: seq<Proc>)

  /** A process takes its next step, or is woken by kill. */
  datatype Event = Step(p: nat) | Kill(p: nat)

  predicate Enabled(s: Sys, e: Event) {
    && e.p < |s.procs|
    && match e
       case Kill(p) => s.pt == None && s.procs[p].state == SLEEPING
       case Step(p) =>
         match s.procs[p].pc
         case Away => s.lk == None
         case Inside => s.lk == None
         case ToSleep => s.pt == None
         case Parked => s.procs[p].state == RUNNABLE && s.pt == None
         case Again => s.lk == None
         case ToWake => s.pt == None
         case _ => true
  }

  /** wakeup1's test and assignment for one process. */
  function WakeOne(proc: Proc): Proc {
    if proc.state == SLEEPING && proc.onLock then proc.(state := RUNNABLE) else proc
  }

  function At(proc: Proc, pc: Pc): Proc {
    Proc(pc, proc.state, proc.onLock)
  }

  /** The state with new values for process `p` and the two locks. */
  function Move(s: Sys, p: nat, proc: Proc, lk: Option<nat>, pt: Option<nat>): Sys
    requires p < |s.procs|
  {
    Sys(s.locked, s.holder, lk, pt, s.procs[p := proc])
  }

  function AcquireStep(s: Sys, p: nat): Sys
    requires p < |s.procs|
  {
    var proc := s.procs[p];
    match proc.pc
    case Away => Move(s, p, At(proc, Trying), Some(p), s.pt)
    case Trying =>
      if s.locked then Move(s, p, At(proc, ToSleep), s.lk, s.pt)
      else Sys(true, Some(p), s.lk, s.pt, s.procs[p := At(proc, Taken)])
    case Taken => Move(s, p, At(proc, Inside), None, s.pt)
    case _ => s
  }

  function SleepStep(s: Sys, p: nat): Sys
    requires p < |s.procs|
  {
    var proc := s.procs[p];
    match proc.pc
    case ToSleep => Move(s, p, At(proc, BothLocks), s.lk, Some(p))
    case BothLocks => Move(s, p, At(proc, Commit), None, s.pt)
    case Commit => Move(s, p, Proc(Asleep, SLEEPING, true), s.lk, s.pt)
    case Asleep => Move(s, p, At(proc, Parked), s.lk, None)
    case Parked => Move(s, p, At(proc, Woken), s.lk, Some(p))
    case Woken => Move(s, p, Proc(Again, proc.state, false), s.lk, None)
    case Again => Move(s, p, At(proc, Trying), Some(p), s.pt)
    case _ => s
  }

  function ReleaseStep(s: Sys, p: nat): Sys
    requires p < |s.procs|
  {
    var proc := s.procs[p];
    match proc.pc
    case Inside => Move(s, p, At(proc, ToClear), Some(p), s.pt)
    case ToClear => Sys(false, None, s.lk, s.pt, s.procs[p := At(proc, ToWake)])
    case ToWake => Move(s, p, At(proc, Waking(0)), s.lk, Some(p))
    case Waking(i) =>
      if i < |s.procs| then
        Sys(s.locked, s.holder, s.lk, s.pt, s.procs[i := WakeOne(s.procs[i])][p := At(proc, Waking(i + 1))])
      else Move(s, p, At(proc, Awoken), s.lk, None)
    case Awoken => Move(s, p, At(proc, Away), None, s.pt)
    case _ => s
  }

  function Next(s: Sys, e: Event): Sys
    requires Enabled(s, e)
  {
    var proc := s.procs[e.p];
    if e.Kill? then Move(s, e.p, Proc(proc.pc, RUNNABLE, proc.onLock), s.lk, s.pt)
    else if InAcquire(proc.pc) then AcquireStep(s, e.p)
    else if InSleep(proc.pc) then SleepStep(s, e.p)
    else ReleaseStep(s, e.p)
  }

  predicate InAcquire(pc: Pc) {
    pc == Away || pc == Trying || pc == Taken
  }

  predicate InSleep(pc: Pc) {
    pc == ToSleep || pc == BothLocks || pc == Commit || pc == Asleep || pc == Parked || pc == Woken || pc == Again
  }

  predicate Init(s: Sys) {
    && !s.locked && s.holder == None && s.lk == None && s.pt == None
    && forall p :: 0 <= p < |s.procs| ==> s.procs[p] == Proc(Away, RUNNABLE, false)
  }

  predicate HoldsLk(pc: Pc) {
    || pc == Trying || pc == Taken || pc == ToSleep || pc == BothLocks
    || pc == ToClear || pc == ToWake || pc.Waking? || pc == Awoken
  }

  predicate HoldsPt(pc: Pc) {
    pc == BothLocks || pc == Commit || pc == Asleep || pc == Woken || pc.Waking?
  }

  /** Asleep on the lock, or past the point where it could still notice that it is free. */
  predicate Sleepy(proc: Proc) {
    proc.pc == Commit || proc.state == SLEEPING
  }

  /** Some process has cleared `locked` and its wakeup will still get to process `p`. */
  predicate WakeComing(s: Sys, p: nat) {
    && s.lk.Some? && s.lk.value < |s.procs|
    && var pc := s.procs[s.lk.value].pc;
       pc == ToWake || (pc.Waking? && pc.i <= p)
  }

  predicate ProcOk(s: Sys, p: nat)
    requires p < |s.procs|
  {
    var proc := s.procs[p];
    && (HoldsLk(proc.pc) <==> s.lk == Some(p))
    && (HoldsPt(proc.pc) <==> s.pt == Some(p))
    && (proc.pc == Taken || proc.pc == Inside || proc.pc == ToClear <==> s.holder == Some(p))
    && (proc.pc == ToSleep || proc.pc == BothLocks ==> s.locked)
    && (proc.pc == ToWake || proc.pc.Waking? || proc.pc == Awoken ==> !s.locked)
    && (proc.state == SLEEPING ==> (proc.pc == Asleep || proc.pc == Parked) && proc.onLock)
    && (proc.pc == Asleep ==> proc.state == SLEEPING)
    && (!s.locked && Sleepy(proc) ==> WakeComing(s, p))
  }

  predicate FieldsOk(s: Sys) {
    && (s.locked <==> s.holder.Some?)
    && (s.lk.Some? ==> s.lk.value < |s.procs|)
    && (s.pt.Some? ==> s.pt.value < |s.procs|)
    && (s.holder.Some? ==> s.holder.value < |s.procs|)
  }

  predicate Inv(s: Sys) {
    && FieldsOk(s)
    && forall p: nat :: p < |s.procs| ==> ProcOk(s, p)
  }

  // ----- What holds in every run -----

  predicate IsRun(s: Sys, es: seq<Event>)
    decreases |es|
  {
    es == [] || (Enabled(s, es[0]) && IsRun(Next(s, es[0]), es[1..]))
  }

  function After(s: Sys, es: seq<Event>): Sys
    requires IsRun(s, es)
    decreases |es|
  {
    if es == [] then s else After(Next(s, es[0]), es[1..])
  }

  /** Between the assignment to `locked` in acquiresleep and that in releasesleep. */
  predicate Holder(s: Sys, p: nat) {
    p < |s.procs| && (s.procs[p].pc == Taken || s.procs[p].pc == Inside || s.procs[p].pc == ToClear)
  }

  /** At most one process holds the sleep lock, and `locked` says whether one does. */
  lemma {:induction false} MutualExclusion(s0: Sys, es: seq<Event>, p: nat, q: nat)
    requires Init(s0) && IsRun(s0, es)
    ensures var s := After(s0, es);
      && (Holder(s, p) && Holder(s, q) ==> p == q)
      && (s.locked <==> exists r: nat :: Holder(s, r))
  {
    InitInv(s0);
    RunInv(s0, es);
    var s := After(s0, es);
    if p < |s.procs| {
      assert ProcOk(s, p);
    }
    if q < |s.procs| {
      assert ProcOk(s, q);
    }
    if s.locked {
      assert ProcOk(s, s.holder.value) && Holder(s, s.holder.value);
    }
    if r: nat :| Holder(s, r) {
      assert ProcOk(s, r);
    }
  }

  /** About to sleep on the lock, or asleep on it. */
  predicate WillWait(s: Sys, p: nat) {
    && p < |s.procs|
    && var proc := s.procs[p];
       proc.pc == ToSleep || proc.pc == BothLocks || proc.pc == Commit || proc.state == SLEEPING
  }

  /** No lost wakeup: while the lock is free and some process is about to sleep on it, or
      asleep, another process has cleared `locked` and its wakeup scan has not passed the
      sleeper. So when nobody is at that point, nobody sleeps on a free lock. */
  lemma {:induction false} NoLostWakeup(s0: Sys, es: seq<Event>, p: nat)
    requires Init(s0) && IsRun(s0, es)
    ensures var s := After(s0, es); !s.locked && WillWait(s, p) ==>
      exists q: nat ::
        q != p && q < |s.procs| && (s.procs[q].pc == ToWake || (s.procs[q].pc.Waking? && s.procs[q].pc.i <= p))
    ensures var s := After(s0, es); !s.locked && s.lk == None ==> !WillWait(s, p)
  {
    InitInv(s0);
    RunInv(s0, es);
    var s := After(s0, es);
    if !s.locked && WillWait(s, p) {
      assert ProcOk(s, p) && WakeComing(s, p) && ProcOk(s, s.lk.value);
      assert s.procs[s.lk.value].pc == ToWake || s.procs[s.lk.value].pc.Waking?;
    }
  }

  /** The process table after wakeup1. */
  function WokenFrom(procs: seq<Proc>, i: nat): (r: seq<Proc>)
    ensures |r| == |procs|
    ensures forall k :: 0 <= k < |procs| ==> r[k] == if k < i then procs[k] else WakeOne(procs[k])
    decreases |procs| - i
  {
    if i >= |procs| then procs else WokenFrom(procs[i := WakeOne(procs[i])], i + 1)
  }

  function Steps(p: nat, n: nat): seq<Event> {
    if n == 0 then [] else [Step(p)] + Steps(p, n - 1)
  }

  /** The scan steps of a process that has ptable.lock add up to wakeup1. */
  lemma {:induction false} ScanWakesAll(s: Sys, p: nat, n: nat)
    requires Inv(s) && p < |s.procs| && s.procs[p].pc.Waking? && s.procs[p].pc.i + n == |s.procs|
    ensures IsRun(s, Steps(p, n))
    ensures After(s, Steps(p, n)).procs
         == WokenFrom(s.procs, s.procs[p].pc.i)[p := s.procs[p].(pc := Waking(|s.procs|))]
    decreases n
  {
    if n > 0 {
      var i, e, s' := s.procs[p].pc.i, Step(p), Next(s, Step(p));
      ScanStep(s, p);
      NextInv(s, e);
      ScanWakesAll(s', p, n - 1);
      hide Inv, Next, WakeOne, IsRun;
      assert Steps(p, n)[1..] == Steps(p, n - 1);
      ScanAround(s.procs, p, i);
    }
  }

  /** wakeup1 on the table itself. */
  method Wakeup1(ptable: array<Proc>)
    modifies ptable
    ensures ptable[..] == WokenFrom(old(ptable[..]), 0)
  {
    var i := 0;
    while i < ptable.Length
      invariant 0 <= i <= ptable.Length
      invariant forall k :: 0 <= k < i ==> ptable[k] == WakeOne(old(ptable[k]))
      invariant forall k :: i <= k < ptable.Length ==> ptable[k] == old(ptable[k])
    {
      if ptable[i].state == SLEEPING && ptable[i].onLock {
        ptable[i] := ptable[i].(state := RUNNABLE);
      }
      i := i + 1;
    }
  }

  // ----- Why every step keeps the invariant -----

  lemma {:induction false} RunInv(s: Sys, es: seq<Event>)
    requires Inv(s) && IsRun(s, es)
    ensures Inv(After(s, es))
    decreases |es|
  {
    if es != [] {
      NextInv(s, es[0]);
      RunInv(Next(s, es[0]), es[1..]);
    }
  }

  /** Every step keeps the invariant. */
  lemma {:induction false} NextInv(s: Sys, e: Event)
    requires Inv(s) && Enabled(s, e)
    ensures Inv(Next(s, e))
  {
    hide ProcOk, Next, AcquireStep, SleepStep, ReleaseStep;
    var s' := Next(s, e);
    NextFields(s, e);
    forall p: nat | p < |s'.procs|
      ensures ProcOk(s', p)
    {
      StepOk(s, e, p);
    }
  }

  lemma InitInv(s: Sys)
    requires Init(s)
    ensures Inv(s)
  {
  }

  lemma Facts(s: Sys, p: nat)
    requires Inv(s) && p < |s.procs|
    ensures ProcOk(s, p) && (s.locked <==> s.holder.Some?)
    ensures s.lk.Some? ==> ProcOk(s, s.lk.value)
    ensures s.pt.Some? ==> ProcOk(s, s.pt.value)
    ensures s.holder.Some? ==> ProcOk(s, s.holder.value)
  {
  }

  lemma {:induction false} KillKeeps(s: Sys, e: Event, p: nat)
    requires Inv(s) && Enabled(s, e) && p < |s.procs| && e.Kill?
    ensures ProcOk(Next(s, e), p)
  {
    hide Inv, AcquireStep, SleepStep, ReleaseStep;
    Facts(s, p);
    Facts(s, e.p);
  }

  lemma {:induction false} AcquireMover(s: Sys, e: Event)
    requires Inv(s) && Enabled(s, e) && e.Step? && InAcquire(s.procs[e.p].pc)
    ensures ProcOk(Next(s, e), e.p)
  {
    hide Inv, SleepStep, ReleaseStep;
    Facts(s, e.p);
  }

  lemma {:induction false} AcquireOther(s: Sys, e: Event, p: nat)
    requires Inv(s) && Enabled(s, e) && p < |s.procs| && p != e.p && e.Step? && InAcquire(s.procs[e.p].pc)
    ensures ProcOk(Next(s, e), p)
  {
    hide Inv, SleepStep, ReleaseStep;
    Facts(s, p);
    Facts(s, e.p);
  }

  lemma {:induction false} SleepMover(s: Sys, e: Event)
    requires Inv(s) && Enabled(s, e) && e.Step? && InSleep(s.procs[e.p].pc)
    ensures ProcOk(Next(s, e), e.p)
  {
    hide Inv, AcquireStep, ReleaseStep;
    Facts(s, e.p);
  }

  lemma {:induction false} SleepOther(s: Sys, e: Event, p: nat)
    requires Inv(s) && Enabled(s, e) && p < |s.procs| && p != e.p && e.Step? && InSleep(s.procs[e.p].pc)
    ensures ProcOk(Next(s, e), p)
  {
    hide Inv, AcquireStep, ReleaseStep;
    Facts(s, p);
    Facts(s, e.p);
  }

  lemma {:induction false} ReleaseMover(s: Sys, e: Event)
    requires Inv(s) && Enabled(s, e) && e.Step? && !InAcquire(s.procs[e.p].pc) && !InSleep(s.procs[e.p].pc)
    ensures ProcOk(Next(s, e), e.p)
  {
    hide Inv, AcquireStep, SleepStep;
    Facts(s, e.p);
  }

  lemma {:induction false} ReleaseOther(s: Sys, e: Event, p: nat)
    requires Inv(s) && Enabled(s, e) && p < |s.procs| && p != e.p && e.Step? && !InAcquire(s.procs[e.p].pc)
    requires !InSleep(s.procs[e.p].pc)
    ensures ProcOk(Next(s, e), p)
  {
    hide Inv, AcquireStep, SleepStep;
    Facts(s, p);
    Facts(s, e.p);
  }

  lemma {:induction false} StepOk(s: Sys, e: Event, p: nat)
    requires Inv(s) && Enabled(s, e) && p < |s.procs|
    ensures ProcOk(Next(s, e), p)
  {
    hide ProcOk, Next, AcquireStep, SleepStep, ReleaseStep, Inv;
    var pc := s.procs[e.p].pc;
    if e.Kill? {
      KillKeeps(s, e, p);
    } else if InAcquire(pc) {
      if p == e.p { AcquireMover(s, e); } else { AcquireOther(s, e, p); }
    } else if InSleep(pc) {
      if p == e.p { SleepMover(s, e); } else { SleepOther(s, e, p); }
    } else {
      if p == e.p { ReleaseMover(s, e); } else { ReleaseOther(s, e, p); }
    }
  }

  lemma NextFields(s: Sys, e: Event)
    requires FieldsOk(s) && Enabled(s, e)
    ensures |Next(s, e).procs| == |s.procs| && FieldsOk(Next(s, e))
  {
    AcquireFields(s, e.p);
    SleepFields(s, e.p);
    ReleaseFields(s, e.p);
    hide AcquireStep, SleepStep, ReleaseStep;
  }

  lemma AcquireFields(s: Sys, p: nat)
    requires FieldsOk(s) && p < |s.procs|
    ensures |AcquireStep(s, p).procs| == |s.procs| && FieldsOk(AcquireStep(s, p))
  {
  }

  lemma SleepFields(s: Sys, p: nat)
    requires FieldsOk(s) && p < |s.procs|
    ensures |SleepStep(s, p).procs| == |s.procs| && FieldsOk(SleepStep(s, p))
  {
  }

  lemma ReleaseFields(s: Sys, p: nat)
    requires FieldsOk(s) && p < |s.procs|
    ensures |ReleaseStep(s, p).procs| == |s.procs| && FieldsOk(ReleaseStep(s, p))
  {
  }

  lemma ScanStep(s: Sys, p: nat)
    requires Inv(s) && p < |s.procs| && s.procs[p].pc.Waking? && s.procs[p].pc.i < |s.procs|
    ensures Enabled(s, Step(p))
    ensures var i := s.procs[p].pc.i;
      Next(s, Step(p)).procs == s.procs[i := WakeOne(s.procs[i])][p := At(s.procs[p], Waking(i + 1))]
    ensures s.procs[p].state == RUNNABLE
  {
    assert ProcOk(s, p);
  }

  /** Scanning the rest does not look at where the scanning process itself is. */
  lemma ScanAround(procs: seq<Proc>, p: nat, i: nat)
    requires p < |procs| && i < |procs| && procs[p].state == RUNNABLE
    ensures var rest := procs[i := WakeOne(procs[i])][p := At(procs[p], Waking(i + 1))];
      var end := At(procs[p], Waking(|procs|));
      WokenFrom(rest, i + 1)[p := end] == WokenFrom(procs, i)[p := end]
  {
    var a := WokenFrom(procs[i := WakeOne(procs[i])][p := At(procs[p], Waking(i + 1))], i + 1);
    var b := WokenFrom(procs, i);
    forall k | 0 <= k < |procs| && k != p
      ensures a[k] == b[k]
    {
    }
  }

  // ----- What a call does -----

  /** In acquiresleep. */
  predicate Acquiring(pc: Pc) {
    pc == Trying || pc == Taken || InSleep(pc)
  }

  /** In releasesleep, at or behind the assignment to `locked`. */
  predicate Releasing(pc: Pc) {
    pc == ToClear || pc == ToWake || pc.Waking? || pc == Awoken
  }

  /** In some state of the run acquiresleep has returned to process `p`. */
  predicate GetsInside(s: Sys, es: seq<Event>, p: nat)
    requires IsRun(s, es) && p < |s.procs|
    decreases |es|
  {
    || s.procs[p].pc == Inside
    || (es != [] && p < |Next(s, es[0]).procs| && GetsInside(Next(s, es[0]), es[1..], p))
  }

  /** A process goes through its calls in order, by its own steps only, and only its own
      assignment in releasesleep ends its holding the lock. */
  lemma {:induction false} CallStep(s: Sys, e: Event, p: nat)
    requires Inv(s) && Enabled(s, e) && p < |s.procs|
    ensures |Next(s, e).procs| == |s.procs|
    ensures var pc, pc' := s.procs[p].pc, Next(s, e).procs[p].pc;
      && (e != Step(p) ==> pc' == pc)
      && (Acquiring(pc) ==> Acquiring(pc') || pc' == Inside)
      && (pc == Inside ==> pc' == Inside || pc' == ToClear)
      && (Releasing(pc) ==> Releasing(pc') || (pc' == Away && pc == Awoken))
      && (pc == Away ==> pc' == Away || pc' == Trying)
    ensures s.holder == Some(p) && Next(s, e).holder != Some(p) ==> e == Step(p) && s.procs[p].pc == ToClear
  {
    hide Inv, WakeOne;
    Facts(s, p);
    Facts(s, e.p);
    OthersAt(s, e, p);
  }

  lemma OthersAt(s: Sys, e: Event, p: nat)
    requires Enabled(s, e) && p < |s.procs|
    ensures |Next(s, e).procs| == |s.procs|
    ensures e.p != p ==> Next(s, e).procs[p].pc == s.procs[p].pc
  {
    hide AcquireStep, SleepStep, ReleaseStep;
    AcquireAt(s, e.p, p);
    SleepAt(s, e.p, p);
    ReleaseAt(s, e.p, p);
  }

  lemma AcquireAt(s: Sys, q: nat, p: nat)
    requires q < |s.procs| && p < |s.procs|
    ensures |AcquireStep(s, q).procs| == |s.procs|
    ensures p != q ==> AcquireStep(s, q).procs[p].pc == s.procs[p].pc
  {
  }

  lemma SleepAt(s: Sys, q: nat, p: nat)
    requires q < |s.procs| && p < |s.procs|
    ensures |SleepStep(s, q).procs| == |s.procs|
    ensures p != q ==> SleepStep(s, q).procs[p].pc == s.procs[p].pc
  {
  }

  lemma ReleaseAt(s: Sys, q: nat, p: nat)
    requires q < |s.procs| && p < |s.procs|
    ensures |ReleaseStep(s, q).procs| == |s.procs|
    ensures p != q ==> ReleaseStep(s, q).procs[p].pc == s.procs[p].pc
  {
  }

  /** So a process that was in acquiresleep and is not any more has got the lock meanwhile, and
      between the return of acquiresleep and releasesleep it holds the lock. */
  lemma {:induction false} AcquireGetsLock(s: Sys, es: seq<Event>, p: nat)
    requires Inv(s) && IsRun(s, es) && p < |s.procs| && Acquiring(s.procs[p].pc)
    ensures p < |After(s, es).procs| && (Acquiring(After(s, es).procs[p].pc) || GetsInside(s, es, p))
    ensures After(s, es).procs[p].pc == Inside ==> After(s, es).holder == Some(p) && After(s, es).locked
    decreases |es|
  {
    if es == [] {
      Facts(s, p);
    } else {
      CallStep(s, es[0], p);
      NextInv(s, es[0]);
      var s' := Next(s, es[0]);
      if Acquiring(s'.procs[p].pc) {
        hide Inv, Next, Enabled, Acquiring;
        AcquireGetsLock(s', es[1..], p);
      } else {
        RunInv(s', es[1..]);
        SameLength(s', es[1..]);
        Facts(After(s, es), p);
      }
    }
  }

  lemma {:induction false} SameLength(s: Sys, es: seq<Event>)
    requires Inv(s) && IsRun(s, es)
    ensures |After(s, es).procs| == |s.procs|
    decreases |es|
  {
    if es != [] {
      NextInv(s, es[0]);
      OthersAt(s, es[0], es[0].p);
      hide Inv, Next;
      SameLength(Next(s, es[0]), es[1..]);
    }
  }

  /** A process that finds the lock free has it two steps later. */
  lemma {:induction false} TakesFree(s: Sys, p: nat)
    requires Inv(s) && p < |s.procs| && s.procs[p].pc == Trying && !s.locked
    ensures IsRun(s, [Step(p), Step(p)])
    ensures var s' := After(s, [Step(p), Step(p)]);
      p < |s'.procs| && s'.procs[p].pc == Inside && s'.locked && s'.holder == Some(p) && s'.lk == None
  {
    var s1 := Next(s, Step(p));
    var s2 := Next(s1, Step(p));
    assert s2.procs[p].pc == Inside && s2.locked && s2.holder == Some(p) && s2.lk == None;
    hide Inv, Next;
    var one, two := [Step(p)], [Step(p), Step(p)];
    assert two[1..] == one && one[1..] == [];
    assert After(s2, []) == s2 && IsRun(s2, []);
    assert After(s1, one) == After(s2, one[1..]);
    assert After(s, two) == After(s1, two[1..]);
  }

  /** How many steps a process has at most before its call returns or it sleeps. */
  function StepsLeft(pc: Pc, n: nat): nat {
    match pc
    case Woken => 11
    case Again => 10
    case Trying => 9
    case ToSleep => 8
    case BothLocks => 7
    case Commit => 6
    case Asleep => 5
    case Parked => 4
    case Taken => 1
    case ToClear => n + 5
    case ToWake => n + 4
    case Waking(i) => if i <= n then n - i + 2 else 2
    case Awoken => 1
    case Inside => 0
    case Away => 0
  }

  /** Only a wakeup or a new call gets a process further than that. */
  lemma {:induction false} StepsEnd(s: Sys, p: nat)
    requires Inv(s) && Enabled(s, Step(p)) && (Acquiring(s.procs[p].pc) || Releasing(s.procs[p].pc))
    requires s.procs[p].pc != Parked
    ensures |Next(s, Step(p)).procs| == |s.procs|
    ensures StepsLeft(Next(s, Step(p)).procs[p].pc, |s.procs|) < StepsLeft(s.procs[p].pc, |s.procs|)
  {
    hide Inv, WakeOne;
    OthersAt(s, Step(p), p);
  }

  /** Asleep, until it is woken. */
  predicate Sleeps(proc: Proc) {
    proc.pc == Parked && proc.state == SLEEPING
  }

  predicate InCall(pc: Pc) {
    Acquiring(pc) || Releasing(pc)
  }

  /** If a process is in a call and not asleep, some process in a call can step; and a process
      outside can begin a call whenever the spinlock is free. */
  lemma {:induction false} NoneStuck(s: Sys, p: nat)
    requires Inv(s) && p < |s.procs|
    ensures InCall(s.procs[p].pc) && !Sleeps(s.procs[p]) ==>
      exists q: nat :: q < |s.procs| && InCall(s.procs[q].pc) && Enabled(s, Step(q))
    ensures !InCall(s.procs[p].pc) && s.lk == None ==> Enabled(s, Step(p))
  {
    Facts(s, p);
    if InCall(s.procs[p].pc) && !Sleeps(s.procs[p]) {
      if s.pt.Some? {
        assert InCall(s.procs[s.pt.value].pc) && Enabled(s, Step(s.pt.value));
      } else if s.lk.Some? {
        assert InCall(s.procs[s.lk.value].pc) && Enabled(s, Step(s.lk.value));
      } else {
        assert Enabled(s, Step(p));
      }
    }
  }
}
