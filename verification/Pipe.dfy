/** pipe.c: one pipe and any number of processes reading, writing and closing it, stepping at
    single lock operations and loop rounds. `lk` is p->lock, `pt` is ptable.lock. */
module Pipes {
  import opened Common

  const PIPESIZE := 512
  const UINT := 0x1_0000_0000

  /** A char of the buffer. */
  type Byte = int

  /** struct pipe. `written` and `taken` record every byte ever stored and fetched. */
  datatype Ring = Ring(data: seq<Byte>, nread: nat, nwrite: nat, readopen: bool, writeopen: bool,
                       written: seq<Byte>, taken: seq<Byte>)

  predicate Full(r: Ring) {
    r.nwrite == (r.nread + PIPESIZE) % UINT
  }

  predicate Empty(r: Ring) {
    r.nread == r.nwrite
  }

  /** `p->data[p->nwrite++ % PIPESIZE] = b` */
  function Store(r: Ring, b: Byte): (r': Ring)
    requires PIPESIZE <= |r.data|
    ensures r'.readopen == r.readopen && r'.writeopen == r.writeopen && r'.taken == r.taken
  {
    r.(data := r.data[r.nwrite % PIPESIZE := b], nwrite := (r.nwrite + 1) % UINT, written := r.written + [b])
  }

  function Fetched(r: Ring): Byte
    requires PIPESIZE <= |r.data|
  {
    r.data[r.nread % PIPESIZE]
  }

  /** `p->data[p->nread++ % PIPESIZE]` */
  function Fetch(r: Ring): (r': Ring)
    requires PIPESIZE <= |r.data|
    ensures r'.readopen == r.readopen && r'.writeopen == r.writeopen && r'.taken == r.taken + [Fetched(r)]
  {
    r.(nread := (r.nread + 1) % UINT, taken := r.taken + [Fetched(r)])
  }

  // ----- The ring buffer -----

  /** The buffer holds the written bytes that have not been fetched, in a ring indexed by
      counters that wrap at 2^32. */
  predicate RingOk(r: Ring) {
    && |r.data| == PIPESIZE
    && r.nwrite == |r.written| % UINT && r.nread == |r.taken| % UINT
    && |r.taken| <= |r.written| <= |r.taken| + PIPESIZE
    && r.taken == r.written[..|r.taken|]
    && forall j :: |r.taken| <= j < |r.written| ==> r.data[j % PIPESIZE] == r.written[j]
  }

  /** Full and Empty mean what they say in spite of the wraparound. */
  lemma {:induction false} FullEmpty(r: Ring)
    requires RingOk(r)
    ensures Full(r) <==> |r.written| == |r.taken| + PIPESIZE
    ensures Empty(r) <==> |r.written| == |r.taken|
    ensures r.nwrite % PIPESIZE == |r.written| % PIPESIZE && r.nread % PIPESIZE == |r.taken| % PIPESIZE
  {
    ModMod(|r.written|);
    ModMod(|r.taken|);
    ModNear(|r.taken|, |r.written|);
  }

  lemma ModMod(a: nat)
    ensures a % UINT % PIPESIZE == a % PIPESIZE
    ensures (a % UINT + 1) % UINT == (a + 1) % UINT
  {
    var q, r := a / UINT, a % UINT;
    assert a == (q * 0x80_0000 + r / PIPESIZE) * PIPESIZE + r % PIPESIZE;
  }

  lemma ModNear(a: nat, b: nat)
    requires a <= b <= a + PIPESIZE
    ensures b % UINT == (a % UINT + PIPESIZE) % UINT <==> b == a + PIPESIZE
    ensures a % UINT == b % UINT <==> a == b
  {
  }

  lemma DistinctSlots(a: nat, j: nat, b: nat)
    requires a <= j < b < a + PIPESIZE
    ensures j % PIPESIZE != b % PIPESIZE
  {
  }

  lemma {:induction false} StoreOk(r: Ring, b: Byte)
    requires RingOk(r) && !Full(r)
    ensures RingOk(Store(r, b))
  {
    FullEmpty(r);
    var r', n := Store(r, b), |r.written|;
    ModMod(n);
    forall j | |r.taken| <= j < |r'.written|
      ensures r'.data[j % PIPESIZE] == r'.written[j]
    {
      if j < n {
        DistinctSlots(|r.taken|, j, n);
      }
    }
  }

  /** What is fetched is the oldest byte not fetched yet. */
  lemma {:induction false} FetchOk(r: Ring)
    requires RingOk(r) && !Empty(r)
    ensures RingOk(Fetch(r)) && |r.taken| < |r.written| && Fetched(r) == r.written[|r.taken|]
  {
    FullEmpty(r);
    var n := |r.taken|;
    ModMod(n);
    assert r.written[..n + 1] == r.written[..n] + [r.written[n]];
  }

  // ----- Processes -----

  datatype State = RUNNABLE | SLEEPING

  /** The two sleep channels, &p->nread and &p->nwrite. */
  datatype Chan = NRead | NWrite

  datatype Kind = Write | Read | CloseRead | CloseWrite

  datatype Pc =
    | Idle
    | Acq(k: Kind)                          // at acquire(&p->lock)
    | Loop(k: Kind)                         // pipewrite: at i < n; piperead: at the while test; pipeclose: at the flag
    | Copy                                  // piperead: at i < n
    | Wake(ch: Chan, sleep: bool)           // in wakeup(ch), at acquire(&ptable.lock); then to sleep, or to the end
    | Waking(ch: Chan, sleep: bool)         // in wakeup(ch), at wakeup1
    | Pause(at: Point, k: Kind)             // in sleep(ChanOf(k), &p->lock)
    | Rel(ok: bool)                         // at release(&p->lock), to return a count or -1

  /** Where in sleep: at acquire(&ptable.lock), at release(lk), at the assignment of the state,
      in sched with ptable.lock, switched out, and resumed. */
  datatype Point = Entry | BothLocks | Commit | Asleep | Parked | Woken

  /** `bytes` is what is left to write; `want` and `got` are for a read. */
  datatype Proc = Proc(pc: Pc, state: State, killed: bool, bytes: seq<Byte>, want: nat, got: seq<Byte>)

  /** `lost`: a pipewrite that returned -1 left readers asleep, and nobody has woken the
      readers since; see LostReaders. */
  datatype Sys = Sys(ring: Ring, lk: Option<nat>, pt: Option<nat>, procs: seq<Proc>, lost: bool)

  datatype Event = BeginWrite(p: nat, bytes: seq<Byte>) | BeginRead(p: nat, want: nat) | Close(p: nat, writable: bool)
                 | Step(p: nat) | Kill(p: nat)

  /** The channel a process sleeps on in an operation of this kind. */
  function ChanOf(k: Kind): Chan {
    if k == Write then NWrite else NRead
  }

  predicate CanStep(proc: Proc, lk: Option<nat>, pt: Option<nat>) {
    match proc.pc
    case Idle => false
    case Acq(_) => lk == None
    case Wake(_, _) => pt == None
    case Pause(at, _) => (at == Entry ==> pt == None) && (at == Parked ==> proc.state == RUNNABLE && pt == None)
    case _ => true
  }

  predicate Enabled(s: Sys, e: Event) {
    && e.p < |s.procs| && PIPESIZE <= |s.ring.data|
    && match e
       case Kill(p) => s.pt == None
       case Step(p) => CanStep(s.procs[p], s.lk, s.pt)
       case _ => s.procs[e.p].pc == Idle
  }

  predicate SleepsOn(proc: Proc, ch: Chan) {
    && proc.state == SLEEPING && proc.pc.Pause? && (proc.pc.at == Asleep || proc.pc.at == Parked)
    && ChanOf(proc.pc.k) == ch
  }

  predicate WaitsOn(proc: Proc, ch: Chan) {
    SleepsOn(proc, ch) || (proc.pc.Pause? && proc.pc.at == Commit && ChanOf(proc.pc.k) == ch)
  }

  /** Some reader sleeps, or is about to. */
  predicate ReaderWaits(procs: seq<Proc>) {
    exists i :: 0 <= i < |procs| && WaitsOn(procs[i], NRead)
  }

  function WakeOne(proc: Proc, ch: Chan): Proc {
    if SleepsOn(proc, ch) then proc.(state := RUNNABLE) else proc
  }

  /** wakeup1 */
  function WakeAll(procs: seq<Proc>, ch: Chan): (r: seq<Proc>)
    ensures |r| == |procs|
    ensures forall i :: 0 <= i < |procs| ==> r[i] == WakeOne(procs[i], ch)
  {
    if procs == [] then [] else [WakeOne(procs[0], ch)] + WakeAll(procs[1..], ch)
  }

  /** The state with new values for process `p` and the locks. */
  function Move(s: Sys, p: nat, proc: Proc, lk: Option<nat>, pt: Option<nat>): (r: Sys)
    requires p < |s.procs|
    ensures |r.procs| == |s.procs|
  {
    Sys(s.ring, lk, pt, s.procs[p := proc], s.lost)
  }

  /** The same with a new pipe. */
  function Change(s: Sys, p: nat, proc: Proc, ring: Ring): (r: Sys)
    requires p < |s.procs|
    ensures |r.procs| == |s.procs|
  {
    Sys(ring, s.lk, s.pt, s.procs[p := proc], s.lost)
  }

  function At(proc: Proc, pc: Pc): Proc {
    proc.(pc := pc)
  }

  /** A round in pipewrite, piperead or pipeclose, before the copying. */
  function LoopRound(s: Sys, p: nat, k: Kind): (r: Sys)
    requires p < |s.procs| && PIPESIZE <= |s.ring.data|
    ensures |r.procs| == |s.procs|
  {
    var proc := s.procs[p];
    match k
    case Write =>
      if proc.bytes == [] then Change(s, p, At(proc, Wake(NRead, false)), s.ring)
      else if !Full(s.ring) then Change(s, p, proc.(bytes := proc.bytes[1..]), Store(s.ring, proc.bytes[0]))
      else if !s.ring.readopen || proc.killed then
        Sys(s.ring, s.lk, s.pt, s.procs[p := At(proc, Rel(false))], s.lost || ReaderWaits(s.procs))
      else Change(s, p, At(proc, Wake(NRead, true)), s.ring)
    case Read =>
      if !(Empty(s.ring) && s.ring.writeopen) then Change(s, p, At(proc, Copy), s.ring)
      else if proc.killed then Change(s, p, At(proc, Rel(false)), s.ring)
      else Change(s, p, At(proc, Pause(Entry, Read)), s.ring)
    case CloseRead => Change(s, p, At(proc, Wake(NWrite, false)), s.ring.(readopen := false))
    case CloseWrite => Change(s, p, At(proc, Wake(NRead, false)), s.ring.(writeopen := false))
  }

  /** A round of piperead's for loop. */
  function CopyRound(s: Sys, p: nat): (r: Sys)
    requires p < |s.procs| && PIPESIZE <= |s.ring.data|
    ensures |r.procs| == |s.procs|
  {
    var proc := s.procs[p];
    if |proc.got| < proc.want && !Empty(s.ring) then
      Change(s, p, proc.(got := proc.got + [Fetched(s.ring)]), Fetch(s.ring))
    else Change(s, p, At(proc, Wake(NWrite, false)), s.ring)
  }

  /** A step of sleep(ChanOf(k), &p->lock). */
  function SleepStep(s: Sys, p: nat, at: Point, k: Kind): (r: Sys)
    requires p < |s.procs|
    ensures |r.procs| == |s.procs|
  {
    var proc := s.procs[p];
    match at
    case Entry => Move(s, p, At(proc, Pause(BothLocks, k)), s.lk, Some(p))
    case BothLocks => Move(s, p, At(proc, Pause(Commit, k)), None, s.pt)
    case Commit => Move(s, p, At(proc, Pause(Asleep, k)).(state := SLEEPING), s.lk, s.pt)
    case Asleep => Move(s, p, At(proc, Pause(Parked, k)), s.lk, None)
    case Parked => Move(s, p, At(proc, Pause(Woken, k)), s.lk, Some(p))
    case Woken => Move(s, p, At(proc, Acq(k)), s.lk, None)
  }

  function StepOf(s: Sys, p: nat): (r: Sys)
    requires Enabled(s, Step(p))
    ensures |r.procs| == |s.procs|
  {
    var proc := s.procs[p];
    match proc.pc
    case Acq(k) => Move(s, p, At(proc, Loop(k)), Some(p), s.pt)
    case Loop(k) => LoopRound(s, p, k)
    case Copy => CopyRound(s, p)
    case Wake(ch, sleep) => Move(s, p, At(proc, Waking(ch, sleep)), s.lk, Some(p))
    case Waking(ch, sleep) =>
      var procs := WakeAll(s.procs, ch)[p := At(proc, if sleep then Pause(Entry, Write) else Rel(true))];
      Sys(s.ring, s.lk, None, procs, s.lost && ch != NRead)
    case Pause(at, k) => SleepStep(s, p, at, k)
    case Rel(_) => Move(s, p, At(proc, Idle), None, s.pt)
  }

  function Next(s: Sys, e: Event): (r: Sys)
    requires Enabled(s, e)
    ensures |r.procs| == |s.procs|
  {
    match e
    case BeginWrite(p, bytes) => Move(s, p, At(s.procs[p], Acq(Write)).(bytes := bytes), s.lk, s.pt)
    case BeginRead(p, want) => Move(s, p, At(s.procs[p], Acq(Read)).(want := want, got := []), s.lk, s.pt)
    case Close(p, writable) => Move(s, p, At(s.procs[p], Acq(if writable then CloseWrite else CloseRead)), s.lk, s.pt)
    case Step(p) => StepOf(s, p)
    case Kill(p) => Move(s, p, s.procs[p].(killed := true, state := RUNNABLE), s.lk, s.pt)
  }

  /** pipealloc. */
  predicate Init(s: Sys) {
    && |s.ring.data| == PIPESIZE && s.ring.nread == 0 && s.ring.nwrite == 0 && s.ring.readopen && s.ring.writeopen
    && s.lk == None && s.pt == None && s.ring.written == [] && s.ring.taken == [] && !s.lost
    && forall p :: 0 <= p < |s.procs| ==>
         s.procs[p].pc == Idle && s.procs[p].state == RUNNABLE && s.procs[p].bytes == []
  }

  // ----- Sleeping and waking -----

  predicate HoldsLk(pc: Pc) {
    pc.Loop? || pc.Copy? || pc.Wake? || pc.Waking? || (pc.Pause? && (pc.at == Entry || pc.at == BothLocks)) || pc.Rel?
  }

  predicate HoldsPt(pc: Pc) {
    pc.Waking? || (pc.Pause? && (pc.at == BothLocks || pc.at == Commit || pc.at == Asleep || pc.at == Woken))
  }

  /** The holder of the pipe lock will still wake `ch` before it lets go of the lock (or, for
      the readers, returns -1 from pipewrite). */
  predicate WillWake(pc: Pc, ch: Chan) {
    match pc
    case Wake(c, _) => c == ch
    case Waking(c, _) => c == ch
    case Copy => ch == NWrite
    case Loop(k) => k == Write && ch == NRead
    case _ => false
  }

  predicate WakeComing(s: Sys, ch: Chan) {
    s.lk.Some? && s.lk.value < |s.procs| && WillWake(s.procs[s.lk.value].pc, ch)
  }

  /** What a process waits for on a channel. */
  predicate Blocked(r: Ring, ch: Chan) {
    if ch == NWrite then Full(r) && r.readopen else Empty(r) && r.writeopen
  }

  /** Which locks a process holds, and what it has seen that is still so. */
  predicate LocksOk(proc: Proc, p: nat, lk: Option<nat>, pt: Option<nat>, ring: Ring) {
    && (HoldsLk(proc.pc) <==> lk == Some(p))
    && (HoldsPt(proc.pc) <==> pt == Some(p))
    && (proc.pc.Pause? ==> proc.pc.k == Write || proc.pc.k == Read)
    && ((proc.pc.Waking? || proc.pc.Wake?) && proc.pc.sleep ==> proc.pc.ch == NRead && Blocked(ring, NWrite))
    && (proc.pc.Pause? && (proc.pc.at == Entry || proc.pc.at == BothLocks) ==> Blocked(ring, ChanOf(proc.pc.k)))
    && (proc.state == SLEEPING ==> proc.pc.Pause? && (proc.pc.at == Asleep || proc.pc.at == Parked))
    && (proc.pc.Pause? && proc.pc.at == Asleep ==> proc.state == SLEEPING)
  }

  /** Sleepers have reason to sleep, or will be woken. */
  predicate SleepOk(s: Sys, proc: Proc) {
    && (WaitsOn(proc, NWrite) ==> Blocked(s.ring, NWrite) || WakeComing(s, NWrite))
    && (WaitsOn(proc, NRead) ==> Blocked(s.ring, NRead) || WakeComing(s, NRead) || s.lost)
  }

  /** A read has got the bytes last taken from the pipe, with none of another read between. */
  predicate GotOk(proc: Proc, taken: seq<Byte>) {
    && ((proc.pc.Acq? || proc.pc.Loop? || proc.pc.Pause?) && proc.pc.k == Read ==> proc.got == [])
    && (proc.pc == Copy ==> IsSuffix(proc.got, taken) && |proc.got| <= proc.want)
  }

  predicate IsSuffix(a: seq<Byte>, b: seq<Byte>) {
    |a| <= |b| && a == b[|b| - |a|..]
  }

  predicate ProcOk(s: Sys, p: nat)
    requires p < |s.procs|
  {
    LocksOk(s.procs[p], p, s.lk, s.pt, s.ring) && SleepOk(s, s.procs[p]) && GotOk(s.procs[p], s.ring.taken)
  }

  predicate Inv(s: Sys) {
    && RingOk(s.ring)
    && (s.lk.Some? ==> s.lk.value < |s.procs|)
    && (s.pt.Some? ==> s.pt.value < |s.procs|)
    && forall p: nat :: p < |s.procs| ==> ProcOk(s, p)
  }

  lemma InitInv(s: Sys)
    requires Init(s)
    ensures Inv(s)
  {
  }

  lemma Facts(s: Sys, p: nat)
    requires Inv(s) && p < |s.procs|
    ensures ProcOk(s, p)
    ensures s.lk.Some? ==> s.lk.value < |s.procs| && ProcOk(s, s.lk.value)
    ensures s.pt.Some? ==> s.pt.value < |s.procs| && ProcOk(s, s.pt.value)
  {
  }

  lemma {:induction false} BeginKeeps(s: Sys, e: Event, p: nat)
    requires Inv(s) && Enabled(s, e) && p < |s.procs| && !e.Step?
    ensures ProcOk(Next(s, e), p)
  {
    hide Inv, Full, Empty, RingOk, Store, Fetch, Fetched, StepOf;
    Facts(s, p);
    Facts(s, e.p);
  }

  lemma FlagsApart(r: Ring)
    ensures Full(r.(readopen := false)) == Full(r) && Full(r.(writeopen := false)) == Full(r)
    ensures Empty(r.(readopen := false)) == Empty(r) && Empty(r.(writeopen := false)) == Empty(r)
  {
  }

  lemma {:induction false} WriteKeeps(s: Sys, e: Event, p: nat)
    requires Inv(s) && Enabled(s, e) && p < |s.procs| && e.Step? && s.procs[e.p].pc == Loop(Write)
    ensures ProcOk(Next(s, e), p)
  {
    hide Inv, Full, Empty, RingOk, Store, Fetch, Fetched, WakeAll, SleepStep, CopyRound;
    Facts(s, p);
    Facts(s, e.p);
    assert WaitsOn(s.procs[p], NRead) ==> ReaderWaits(s.procs);
  }

  lemma {:induction false} LoopKeeps(s: Sys, e: Event, p: nat)
    requires Inv(s) && Enabled(s, e) && p < |s.procs| && e.Step? && s.procs[e.p].pc.Loop? && s.procs[e.p].pc.k != Write
    ensures ProcOk(Next(s, e), p)
  {
    hide Inv, Full, Empty, RingOk, Store, Fetch, Fetched, WakeAll, SleepStep, CopyRound;
    Facts(s, p);
    Facts(s, e.p);
    FlagsApart(s.ring);
  }

  lemma {:induction false} CopyKeeps(s: Sys, e: Event, p: nat)
    requires Inv(s) && Enabled(s, e) && p < |s.procs| && e.Step? && s.procs[e.p].pc.Copy?
    ensures ProcOk(Next(s, e), p)
  {
    hide Inv, Full, Empty, RingOk, Store, Fetch, Fetched, WakeAll, SleepStep, LoopRound;
    Facts(s, p);
    Facts(s, e.p);
  }

  lemma {:induction false} WakingKeeps(s: Sys, e: Event, p: nat)
    requires Inv(s) && Enabled(s, e) && p < |s.procs| && e.Step? && s.procs[e.p].pc.Waking?
    ensures ProcOk(Next(s, e), p)
  {
    hide Inv, Full, Empty, RingOk, Store, Fetch, Fetched, LoopRound, CopyRound, SleepStep;
    Facts(s, p);
    Facts(s, e.p);
  }

  predicate Dozing(at: Point) {
    at == Entry || at == BothLocks || at == Commit
  }

  lemma {:induction false} DozeKeeps(s: Sys, e: Event, p: nat)
    requires Inv(s) && Enabled(s, e) && p < |s.procs| && e.Step? && s.procs[e.p].pc.Pause? && Dozing(s.procs[e.p].pc.at)
    ensures ProcOk(Next(s, e), p)
  {
    hide Inv, Full, Empty, RingOk, Store, Fetch, Fetched, LoopRound, CopyRound, WakeAll;
    Facts(s, p);
    Facts(s, e.p);
  }

  lemma {:induction false} RiseKeeps(s: Sys, e: Event, p: nat)
    requires Inv(s) && Enabled(s, e) && p < |s.procs| && e.Step?
    requires s.procs[e.p].pc.Pause? && !Dozing(s.procs[e.p].pc.at)
    ensures ProcOk(Next(s, e), p)
  {
    hide Inv, Full, Empty, RingOk, Store, Fetch, Fetched, LoopRound, CopyRound, WakeAll, GotOk, Blocked;
    Facts(s, p);
    Facts(s, e.p);
    assert GotOk(Next(s, e).procs[p], Next(s, e).ring.taken) by {
      GotKept(s, e, p);
    }
  }

  /** A step of sleep takes no bytes. */
  lemma GotKept(s: Sys, e: Event, p: nat)
    requires Inv(s) && Enabled(s, e) && p < |s.procs| && e.Step? && s.procs[e.p].pc.Pause?
    ensures GotOk(Next(s, e).procs[p], Next(s, e).ring.taken)
  {
    hide Inv, LocksOk, SleepOk;
    Facts(s, p);
    Facts(s, e.p);
  }

  lemma {:induction false} EdgeKeeps(s: Sys, e: Event, p: nat)
    requires Inv(s) && Enabled(s, e) && p < |s.procs| && e.Step?
    requires s.procs[e.p].pc.Acq? || s.procs[e.p].pc.Wake? || s.procs[e.p].pc.Rel?
    ensures ProcOk(Next(s, e), p)
  {
    hide Inv, Full, Empty, RingOk, Store, Fetch, Fetched, LoopRound, CopyRound, WakeAll, SleepStep;
    Facts(s, p);
    Facts(s, e.p);
  }

  lemma {:induction false} RingInv(s: Sys, e: Event)
    requires RingOk(s.ring) && Enabled(s, e)
    ensures RingOk(Next(s, e).ring)
  {
    if e.Step? && s.procs[e.p].pc == Loop(Write) && s.procs[e.p].bytes != [] && !Full(s.ring) {
      StoreOk(s.ring, s.procs[e.p].bytes[0]);
    } else if e.Step? && s.procs[e.p].pc == Copy && !Empty(s.ring) {
      FetchOk(s.ring);
    }
  }

  /** Every step keeps the invariant. */
  lemma {:induction false} NextInv(s: Sys, e: Event)
    requires Inv(s) && Enabled(s, e)
    ensures Inv(Next(s, e))
  {
    hide RingOk, ProcOk, LoopRound, CopyRound, SleepStep, WakeAll;
    var s' := Next(s, e);
    RingInv(s, e);
    NextLocks(s, e);
    forall p: nat | p < |s'.procs|
      ensures ProcOk(s', p)
    {
      if !e.Step? {
        BeginKeeps(s, e, p);
      } else {
        var pc := s.procs[e.p].pc;
        if pc == Loop(Write) { WriteKeeps(s, e, p); }
        else if pc.Loop? { LoopKeeps(s, e, p); }
        else if pc.Copy? { CopyKeeps(s, e, p); }
        else if pc.Waking? { WakingKeeps(s, e, p); }
        else if pc.Pause? && Dozing(pc.at) { DozeKeeps(s, e, p); }
        else if pc.Pause? { RiseKeeps(s, e, p); }
        else { EdgeKeeps(s, e, p); }
      }
    }
  }

  lemma NextLocks(s: Sys, e: Event)
    requires Inv(s) && Enabled(s, e)
    ensures var s' := Next(s, e);
      (s'.lk.Some? ==> s'.lk.value < |s'.procs|) && (s'.pt.Some? ==> s'.pt.value < |s'.procs|)
  {
  }

  // ----- What holds in every run -----

  predicate IsRun(s: Sys, es: seq<Event>)
    decreases |es|
  {
    es == [] || (Enabled(s, es[0]) && IsRun(Next(s, es[0]), es[1..]))
  }

  function After(s: Sys, es: seq<Event>): Sys
    requires IsRun(s, es)
    decreases |es|
  {
    if es == [] then s else After(Next(s, es[0]), es[1..])
  }

  lemma {:induction false} RunInv(s: Sys, es: seq<Event>)
    requires Inv(s) && IsRun(s, es)
    ensures Inv(After(s, es))
    decreases |es|
  {
    if es != [] {
      NextInv(s, es[0]);
      RunInv(Next(s, es[0]), es[1..]);
    }
  }

  /** The pipe is a queue of at most PIPESIZE bytes: what was stored is what was fetched
      followed by the buffered bytes, in ring order, whatever the counters wrapped to. */
  lemma {:induction false} Fifo(s0: Sys, es: seq<Event>)
    requires Init(s0) && IsRun(s0, es)
    ensures var r := After(s0, es).ring;
      && |r.data| == PIPESIZE && r.nwrite == |r.written| % UINT && r.nread == |r.taken| % UINT
      && var n := |r.written| - |r.taken|;
         && 0 <= n <= PIPESIZE && (Full(r) <==> n == PIPESIZE) && (Empty(r) <==> n == 0)
         && r.written == r.taken + seq(n, i requires 0 <= i < n => r.data[(r.nread + i) % PIPESIZE])
  {
    InitInv(s0);
    RunInv(s0, es);
    var r := After(s0, es).ring;
    FullEmpty(r);
    hide Full, Empty, After, IsRun;
    var n := |r.written| - |r.taken|;
    var buffered := seq(n, i requires 0 <= i < n => r.data[(r.nread + i) % PIPESIZE]);
    forall i | 0 <= i < n
      ensures buffered[i] == r.written[|r.taken| + i]
    {
      ModAdd(r.nread, |r.taken|, i);
    }
    assert r.written == r.taken + buffered;
  }

  lemma ModAdd(a: nat, b: nat, i: nat)
    requires a % PIPESIZE == b % PIPESIZE
    ensures (a + i) % PIPESIZE == (b + i) % PIPESIZE
  {
  }

  /** What a piperead has got when its loop ends: consecutive bytes of what was written, in
      order, up to the last byte any read has taken; as many as were asked for, or all there were. */
  lemma {:induction false} ReadReturns(s0: Sys, es: seq<Event>, p: nat)
    requires Init(s0) && IsRun(s0, es) && p < |After(s0, es).procs| && After(s0, es).procs[p].pc == Copy
    ensures var s := After(s0, es);
      var proc, n := s.procs[p], |s.ring.taken|;
      && |proc.got| <= n <= |s.ring.written| && proc.got == s.ring.written[n - |proc.got|..n]
      && Enabled(s, Step(p))
      && (Next(s, Step(p)).procs[p].pc != Copy ==>
            && Next(s, Step(p)).procs[p].got == proc.got
            && (|proc.got| == proc.want || (|proc.got| < proc.want && n == |s.ring.written|)))
  {
    InitInv(s0);
    RunInv(s0, es);
    var s := After(s0, es);
    assert ProcOk(s, p);
    FullEmpty(s.ring);
  }

  /** Whenever the pipe lock is free, a sleeping writer means a full buffer that can still be
      read, and so does, for an empty buffer that can still be written, a sleeping reader,
      unless a pipewrite that returned -1 left readers asleep and nobody has woken them since. */
  lemma {:induction false} SleepersBlocked(s0: Sys, es: seq<Event>, p: nat)
    requires Init(s0) && IsRun(s0, es) && After(s0, es).lk == None && p < |After(s0, es).procs|
    ensures var s := After(s0, es);
      && (WaitsOn(s.procs[p], NWrite) ==> Full(s.ring) && s.ring.readopen)
      && (WaitsOn(s.procs[p], NRead) ==> (Empty(s.ring) && s.ring.writeopen) || s.lost)
  {
    InitInv(s0);
    RunInv(s0, es);
    assert ProcOk(After(s0, es), p);
  }

  /** A step of pipewrite that returns -1. */
  predicate Fails(s: Sys, e: Event) {
    && Enabled(s, e) && e.Step? && s.procs[e.p].pc == Loop(Write)
    && s.procs[e.p].bytes != [] && Full(s.ring) && (!s.ring.readopen || s.procs[e.p].killed)
  }

  /** Every waiting reader has reason to wait, or will be woken. */
  predicate ReadersFine(s: Sys) {
    forall p :: 0 <= p < |s.procs| && WaitsOn(s.procs[p], NRead) ==> Blocked(s.ring, NRead) || WakeComing(s, NRead)
  }

  /** Exactly one kind of step breaks this: a pipewrite returning -1 while a reader waits. It
      skips the wakeup for the bytes it has stored. */
  lemma {:induction false} LostReaders(s: Sys, e: Event)
    requires Inv(s) && !s.lost && Enabled(s, e)
    ensures ReadersFine(Next(s, e)) <==> !(Fails(s, e) && ReaderWaits(s.procs))
    ensures Next(s, e).lost <==> Fails(s, e) && ReaderWaits(s.procs)
  {
    NextInv(s, e);
    var s' := Next(s, e);
    if Fails(s, e) && ReaderWaits(s.procs) {
      var i :| 0 <= i < |s.procs| && WaitsOn(s.procs[i], NRead);
      assert ProcOk(s, e.p);
      assert s'.procs[i] == s.procs[i];
      FullEmpty(s.ring);
    } else {
      FineUnlessLost(s');
    }
  }

  lemma {:induction false} FineUnlessLost(s: Sys)
    requires Inv(s) && !s.lost
    ensures ReadersFine(s)
  {
    forall p | 0 <= p < |s.procs| && WaitsOn(s.procs[p], NRead)
      ensures Blocked(s.ring, NRead) || WakeComing(s, NRead)
    {
      assert ProcOk(s, p);
    }
  }

  lemma {:induction false} RunAppend(s: Sys, a: seq<Event>, b: seq<Event>)
    requires IsRun(s, a) && IsRun(After(s, a), b)
    ensures IsRun(s, a + b) && After(s, a + b) == After(After(s, a), b)
    decreases |a|
  {
    if a == [] {
      assert a + b == b;
    } else {
      assert (a + b)[0] == a[0] && (a + b)[1..] == a[1..] + b;
      RunAppend(Next(s, a[0]), a[1..], b);
    }
  }

  /** A writer that has the lock stores bytes until the buffer is full. */
  lemma {:induction false} Fill(s: Sys, k: nat)
    requires Inv(s) && |s.procs| == 2 && s.procs[1].pc == Loop(Write) && k < |s.procs[1].bytes|
    requires |s.ring.written| - |s.ring.taken| == PIPESIZE - k
    ensures var es := seq(k, _ => Step(1));
      && IsRun(s, es)
      && var s' := After(s, es);
         && Full(s'.ring) && |s'.procs| == 2 && s'.procs[0] == s.procs[0] && s'.lk == s.lk && s'.pt == s.pt
         && s'.procs[1].pc == Loop(Write) && s'.procs[1].bytes != [] && s'.procs[1].killed == s.procs[1].killed
    decreases k
  {
    FullEmpty(s.ring);
    if k > 0 {
      NextInv(s, Step(1));
      var es := seq(k, _ => Step(1));
      assert es[1..] == seq(k - 1, _ => Step(1));
      Fill(Next(s, Step(1)), k - 1);
    }
  }

  /** How that happens: a reader sleeps on the empty pipe; a writer of more than PIPESIZE
      bytes is killed, fills the buffer and returns -1. The lock is free, the buffer full,
      and the reader asleep. */
  lemma {:induction false} LostReaderRun(data: seq<Byte>) returns (s0: Sys, es: seq<Event>)
    requires |data| == PIPESIZE
    ensures Init(s0) && IsRun(s0, es)
    ensures var s := After(s0, es);
      |s.procs| == 2 && s.lk == None && SleepsOn(s.procs[0], NRead) && Full(s.ring) && !Empty(s.ring)
  {
    var idle := Proc(Idle, RUNNABLE, false, [], 0, []);
    s0 := Sys(Ring(data, 0, 0, true, true, [], []), None, None, [idle, idle], false);
    var s1 := AfterReader(s0);
    var sleep := [BeginRead(0, 1), Step(0), Step(0), Step(0), Step(0), Step(0), Step(0)];
    InitInv(s0);
    RunInv(s0, sleep);
    var bytes := data + [0];
    var start := [BeginWrite(1, bytes), Step(1), Kill(1)];
    StartRun(s1, bytes);
    RunAppend(s0, sleep, start);
    var s2 := After(s1, start);
    RunInv(s1, start);
    var fill := seq(PIPESIZE, _ => Step(1));
    Fill(s2, PIPESIZE);
    RunAppend(s0, sleep + start, fill);
    var s3 := After(s2, fill);
    RunInv(s2, fill);
    FullEmpty(s3.ring);
    var end := [Step(1), Step(1)];
    EndRun(s3);
    RunAppend(s0, sleep + start + fill, end);
    es := sleep + start + fill + end;
  }

  /** A reader goes to sleep on the empty pipe. */
  lemma AfterReader(s0: Sys) returns (s1: Sys)
    requires Init(s0) && |s0.procs| == 2 && !s0.procs[0].killed
    ensures var es := [BeginRead(0, 1), Step(0), Step(0), Step(0), Step(0), Step(0), Step(0)];
      && IsRun(s0, es) && After(s0, es) == s1
    ensures s1.ring == s0.ring && s1.lk == None && s1.pt == None && |s1.procs| == 2
    ensures SleepsOn(s1.procs[0], NRead) && s1.procs[1] == s0.procs[1]
  {
    hide IsRun, After;
    var t1 := Next(s0, BeginRead(0, 1));
    var t2 := Next(t1, Step(0));
    var t3 := Next(t2, Step(0));
    assert t3.procs[0].pc == Pause(Entry, Read);
    s1 := FallAsleep(t3);
    var rest := [Step(0), Step(0), Step(0), Step(0)];
    RunOne(t2, Step(0), rest);
    RunOne(t1, Step(0), [Step(0)] + rest);
    RunOne(s0, BeginRead(0, 1), [Step(0)] + ([Step(0)] + rest));
    assert [BeginRead(0, 1)] + ([Step(0)] + ([Step(0)] + rest))
        == [BeginRead(0, 1), Step(0), Step(0), Step(0), Step(0), Step(0), Step(0)];
  }

  lemma FallAsleep(s: Sys) returns (s1: Sys)
    requires |s.procs| == 2 && |s.ring.data| == PIPESIZE && s.procs[0].pc == Pause(Entry, Read) && s.pt == None
    ensures var es := [Step(0), Step(0), Step(0), Step(0)];
      && IsRun(s, es) && After(s, es) == s1
    ensures s1.ring == s.ring && s1.lk == None && s1.pt == None && |s1.procs| == 2
    ensures SleepsOn(s1.procs[0], NRead) && s1.procs[1] == s.procs[1]
  {
    var t1 := Next(s, Step(0));
    var t2 := Next(t1, Step(0));
    var t3 := Next(t2, Step(0));
    s1 := Next(t3, Step(0));
    hide IsRun, After;
    RunNone(s1);
    RunOne(t3, Step(0), []);
    RunOne(t2, Step(0), [Step(0)]);
    RunOne(t1, Step(0), [Step(0), Step(0)]);
    RunOne(s, Step(0), [Step(0), Step(0), Step(0)]);
  }

  lemma RunNone(s: Sys)
    ensures IsRun(s, []) && After(s, []) == s
  {
  }

  lemma RunOne(s: Sys, e: Event, es: seq<Event>)
    requires Enabled(s, e) && IsRun(Next(s, e), es)
    ensures IsRun(s, [e] + es) && After(s, [e] + es) == After(Next(s, e), es)
  {
    assert ([e] + es)[1..] == es;
  }

  lemma StartRun(s: Sys, bytes: seq<Byte>)
    requires |s.procs| == 2 && s.lk == None && s.pt == None && s.procs[1].pc == Idle && |s.ring.data| == PIPESIZE
    ensures var es := [BeginWrite(1, bytes), Step(1), Kill(1)];
      && IsRun(s, es)
      && var s' := After(s, es);
         && s'.ring == s.ring && s'.lk == Some(1) && s'.pt == None && |s'.procs| == 2
         && s'.procs[0] == s.procs[0] && s'.procs[1].pc == Loop(Write)
         && s'.procs[1].bytes == bytes && s'.procs[1].killed
  {
    var t1 := Next(s, BeginWrite(1, bytes));
    var t2 := Next(t1, Step(1));
    RunOne(t2, Kill(1), []);
    RunOne(t1, Step(1), [Kill(1)]);
    RunOne(s, BeginWrite(1, bytes), [Step(1), Kill(1)]);
  }

  lemma EndRun(s: Sys)
    requires |s.procs| == 2 && |s.ring.data| == PIPESIZE && Full(s.ring)
    requires s.procs[1].pc == Loop(Write) && s.procs[1].bytes != [] && s.procs[1].killed
    ensures IsRun(s, [Step(1), Step(1)])
    ensures var s' := After(s, [Step(1), Step(1)]);
      |s'.procs| == 2 && s'.lk == None && s'.procs[0] == s.procs[0] && s'.ring == s.ring
  {
    var t1 := Next(s, Step(1));
    assert t1.procs[1].pc == Rel(false);
    RunOne(t1, Step(1), []);
    RunOne(s, Step(1), [Step(1)]);
  }

  // ----- Readers over a whole run -----

  /** No pipewrite of the run returns -1 while a reader waits. */
  predicate NoneLost(s: Sys, es: seq<Event>)
    requires IsRun(s, es)
    decreases |es|
  {
    es == [] || (!(Fails(s, es[0]) && ReaderWaits(s.procs)) && NoneLost(Next(s, es[0]), es[1..]))
  }

  /** Readers wait for good reason in every state of the run. */
  predicate AlwaysFine(s: Sys, es: seq<Event>)
    requires IsRun(s, es)
    decreases |es|
  {
    ReadersFine(s) && (es == [] || AlwaysFine(Next(s, es[0]), es[1..]))
  }

  /** The exact condition, over whole runs from any state in which no wakeup is lost. */
  lemma {:induction false} AlwaysFineIff(s: Sys, es: seq<Event>)
    requires Inv(s) && !s.lost && IsRun(s, es)
    ensures AlwaysFine(s, es) <==> NoneLost(s, es)
    ensures NoneLost(s, es) ==> !After(s, es).lost
    decreases |es|
  {
    hide LoopRound, CopyRound, StepOf, WakeAll, ReaderWaits, Fails;
    FineUnlessLost(s);
    if es != [] {
      LostReaders(s, es[0]);
      NextInv(s, es[0]);
      if Fails(s, es[0]) && ReaderWaits(s.procs) {
        assert !AlwaysFine(Next(s, es[0]), es[1..]);
      } else {
        AlwaysFineIff(Next(s, es[0]), es[1..]);
      }
    }
  }

  /** So if no pipewrite returns -1 while a reader waits, then whenever the pipe lock is free a
      sleeping reader means an empty buffer that can still be written. */
  lemma {:induction false} ReadersBlocked(s0: Sys, es: seq<Event>, p: nat)
    requires Init(s0) && IsRun(s0, es) && After(s0, es).lk == None && p < |After(s0, es).procs|
    requires NoneLost(s0, es)
    ensures var s := After(s0, es); WaitsOn(s.procs[p], NRead) ==> Empty(s.ring) && s.ring.writeopen
  {
    InitInv(s0);
    AlwaysFineIff(s0, es);
    SleepersBlocked(s0, es, p);
  }

  /** At every round of a pipewrite the read end is open and the writer is not killed. */
  predicate WritersSafe(s: Sys, es: seq<Event>)
    requires IsRun(s, es)
    decreases |es|
  {
    es != [] ==>
      && (es[0].Step? && s.procs[es[0].p].pc == Loop(Write) ==> s.ring.readopen && !s.procs[es[0].p].killed)
      && WritersSafe(Next(s, es[0]), es[1..])
  }

  lemma {:induction false} SafeLosesNone(s: Sys, es: seq<Event>)
    requires IsRun(s, es) && WritersSafe(s, es)
    ensures NoneLost(s, es)
    decreases |es|
  {
    if es != [] {
      SafeLosesNone(Next(s, es[0]), es[1..]);
    }
  }

  /** With no writer killed and the read end open, as each pipewrite finds them: readers may be
      killed, and either end closed, at any other time. */
  lemma {:induction false} SafeReadersBlocked(s0: Sys, es: seq<Event>, p: nat)
    requires Init(s0) && IsRun(s0, es) && After(s0, es).lk == None && p < |After(s0, es).procs|
    requires WritersSafe(s0, es)
    ensures var s := After(s0, es); WaitsOn(s.procs[p], NRead) ==> Empty(s.ring) && s.ring.writeopen
  {
    SafeLosesNone(s0, es);
    ReadersBlocked(s0, es, p);
  }
}
