/** What single calls of pipewrite, piperead and pipeclose do over a run, whatever the other
    processes do meanwhile. */
module PipeCalls {
  import opened Common
  import opened Pipes

  /** What a step adds to the bytes written, and to the bytes taken. */
  function Appended(s: Sys, e: Event): seq<Byte>
    requires Enabled(s, e)
  {
    var w, w' := s.ring.written, Next(s, e).ring.written;
    if |w| <= |w'| then w'[|w|..] else []
  }

  function Removed(s: Sys, e: Event): seq<Byte>
    requires Enabled(s, e)
  {
    var t, t' := s.ring.taken, Next(s, e).ring.taken;
    if |t| <= |t'| then t'[|t|..] else []
  }

  /** The bytes that the steps of process `p` put into the pipe, and that they took out. */
  function StoredBy(s: Sys, es: seq<Event>, p: nat): seq<Byte>
    requires IsRun(s, es)
    decreases |es|
  {
    if es == [] then []
    else (if es[0] == Step(p) then Appended(s, es[0]) else []) + StoredBy(Next(s, es[0]), es[1..], p)
  }

  function TakenBy(s: Sys, es: seq<Event>, p: nat): seq<Byte>
    requires IsRun(s, es)
    decreases |es|
  {
    if es == [] then []
    else (if es[0] == Step(p) then Removed(s, es[0]) else []) + TakenBy(Next(s, es[0]), es[1..], p)
  }

  /** Process `p` makes no other call in the run. */
  predicate OneCall(es: seq<Event>, p: nat) {
    forall i :: 0 <= i < |es| && es[i].p == p ==> es[i].Step? || es[i].Kill?
  }

  /** Process `p` is in pipewrite, or has left it. `Rel(true)` is the return of n, `Rel(false)`
      that of -1. */
  predicate Writing(s: Sys, p: nat)
    requires p < |s.procs|
  {
    var proc := s.procs[p];
    match proc.pc
    case Acq(k) => k == Write
    case Loop(k) => k == Write
    case Wake(ch, sleep) => ch == NRead && (sleep <==> proc.bytes != [])
    case Waking(ch, sleep) => ch == NRead && (sleep <==> proc.bytes != [])
    case Pause(_, k) => k == Write
    case Rel(ok) =>
      if ok then proc.bytes == [] else proc.bytes != [] && Full(s.ring) && (proc.killed || !s.ring.readopen)
    case Idle => true
    case Copy => false
  }

  /** Only the holder of the pipe lock changes the pipe, and only its own step what a process
      has left to write. */
  lemma {:induction false} OthersLeave(s: Sys, e: Event, p: nat)
    requires Inv(s) && Enabled(s, e) && p < |s.procs| && e.p != p
    ensures var proc, proc' := s.procs[p], Next(s, e).procs[p];
      && proc'.pc == proc.pc && proc'.killed == proc.killed && proc'.bytes == proc.bytes
      && proc'.got == proc.got && proc'.want == proc.want
    ensures HoldsLk(s.procs[p].pc) ==> Next(s, e).ring == s.ring
  {
    hide Inv, Full, Empty, RingOk, Store, Fetch, Fetched;
    Facts(s, p);
    Facts(s, e.p);
  }

  /** A step outside the loops changes neither the pipe nor what the call has to do. */
  predicate Onward(pc: Pc, pc': Pc) {
    match pc
    case Acq(k) => pc' == Loop(k)
    case Wake(ch, sleep) => pc' == Waking(ch, sleep)
    case Waking(_, sleep) => pc' == if sleep then Pause(Entry, Write) else Rel(true)
    case Pause(at, k) =>
      if at == Woken then pc' == Acq(k) else pc'.Pause? && pc'.k == k && PointsLeft(pc'.at) < PointsLeft(at)
    case Rel(_) => pc' == Idle
    case _ => false
  }

  function PointsLeft(at: Point): nat {
    match at
    case Entry => 5
    case BothLocks => 4
    case Commit => 3
    case Asleep => 2
    case Parked => 1
    case Woken => 0
  }

  lemma QuietStep(s: Sys, p: nat)
    requires Enabled(s, Step(p)) && !s.procs[p].pc.Loop? && !s.procs[p].pc.Copy?
    ensures var s' := Next(s, Step(p));
      && s'.ring == s.ring && Onward(s.procs[p].pc, s'.procs[p].pc)
      && s'.procs[p] == s.procs[p].(pc := s'.procs[p].pc, state := s'.procs[p].state)
  {
    hide LoopRound, CopyRound, WakeAll;
  }

  lemma KillStep(s: Sys, p: nat)
    requires Enabled(s, Kill(p))
    ensures var s' := Next(s, Kill(p));
      s'.ring == s.ring && s'.procs[p] == s.procs[p].(killed := true, state := RUNNABLE)
  {
    hide StepOf;
  }

  /** The round of pipewrite's loop. */
  lemma WriteRound(s: Sys, p: nat)
    requires Inv(s) && Enabled(s, Step(p)) && s.procs[p].pc == Loop(Write)
    ensures var s', proc := Next(s, Step(p)), s.procs[p];
      && Writing(s', p) && !s'.procs[p].pc.Idle? && StepsLeft(s'.procs[p]) < StepsLeft(proc)
      && s'.ring.written == s.ring.written + Appended(s, Step(p))
      && Appended(s, Step(p)) + s'.procs[p].bytes == proc.bytes
      && (MidWrite(s'.procs[p].pc) || s'.procs[p].bytes == [] || Fails(s, Step(p)))
  {
    hide Inv, RingOk, Fetch, Fetched, WakeAll, SleepStep, CopyRound;
    Facts(s, p);
    hide ProcOk;
    var proc := s.procs[p];
    if proc.bytes != [] && !Full(s.ring) {
      assert Next(s, Step(p)).ring == Store(s.ring, proc.bytes[0]);
      assert Appended(s, Step(p)) == [proc.bytes[0]];
    } else {
      assert Next(s, Step(p)).ring == s.ring;
      assert Appended(s, Step(p)) == [];
    }
  }

  lemma {:induction false} WritingStep(s: Sys, e: Event, p: nat)
    requires Inv(s) && Enabled(s, e) && p < |s.procs| && Writing(s, p) && (e.p == p ==> e.Step? || e.Kill?)
    ensures Writing(Next(s, e), p)
    ensures (if e == Step(p) then Appended(s, e) else []) + Next(s, e).procs[p].bytes == s.procs[p].bytes
  {
    hide Inv, Enabled, Next, Full;
    if e.p != p {
      OthersLeave(s, e, p);
    } else if e.Kill? {
      KillStep(s, p);
    } else if s.procs[p].pc.Loop? {
      WriteRound(s, p);
    } else {
      QuietStep(s, p);
    }
  }

  /** What a pipewrite has stored so far, followed by what it has left, is its argument: so if
      it returns n it has stored just that, in order, and if it returns -1 a part of it, because
      the buffer was full and the writer killed or the read end closed. */
  lemma {:induction false} WriteStores(s: Sys, bytes: seq<Byte>, es: seq<Event>, p: nat)
    requires Inv(s) && Enabled(s, BeginWrite(p, bytes)) && IsRun(Next(s, BeginWrite(p, bytes)), es) && OneCall(es, p)
    ensures var s0 := Next(s, BeginWrite(p, bytes));
      var s1 := After(s0, es);
      && p < |s1.procs| && StoredBy(s0, es, p) + s1.procs[p].bytes == bytes
      && (s1.procs[p].pc == Rel(true) ==> StoredBy(s0, es, p) == bytes)
      && (s1.procs[p].pc == Rel(false) ==>
            StoredBy(s0, es, p) != bytes && Full(s1.ring) && (s1.procs[p].killed || !s1.ring.readopen))
  {
    NextInv(s, BeginWrite(p, bytes));
    WritingRun(Next(s, BeginWrite(p, bytes)), es, p);
  }

  lemma {:induction false} WritingRun(s: Sys, es: seq<Event>, p: nat)
    requires Inv(s) && p < |s.procs| && Writing(s, p) && IsRun(s, es) && OneCall(es, p)
    ensures p < |After(s, es).procs| && Writing(After(s, es), p)
    ensures StoredBy(s, es, p) + After(s, es).procs[p].bytes == s.procs[p].bytes
    decreases |es|
  {
    hide Inv, Writing, Enabled, Next, Appended;
    if es != [] {
      RunFirst(s, es);
      WritingStep(s, es[0], p);
      WritingRun(Next(s, es[0]), es[1..], p);
    }
  }

  lemma RunFirst(s: Sys, es: seq<Event>)
    requires Inv(s) && IsRun(s, es) && es != []
    ensures Enabled(s, es[0]) && Inv(Next(s, es[0])) && |Next(s, es[0]).procs| == |s.procs|
    ensures IsRun(Next(s, es[0]), es[1..]) && After(s, es) == After(Next(s, es[0]), es[1..])
  {
    NextInv(s, es[0]);
  }

  // ----- Who wrote what -----

  /** The writer of each byte that the run adds. */
  function Writers(s: Sys, es: seq<Event>): seq<nat>
    requires IsRun(s, es)
    decreases |es|
  {
    if es == [] then []
    else seq(|Appended(s, es[0])|, _ => es[0].p) + Writers(Next(s, es[0]), es[1..])
  }

  function Of(bytes: seq<Byte>, owners: seq<nat>, p: nat): seq<Byte>
    requires |bytes| == |owners|
  {
    if bytes == [] then [] else (if owners[0] == p then [bytes[0]] else []) + Of(bytes[1..], owners[1..], p)
  }

  lemma {:induction false} OfAppend(a: seq<Byte>, oa: seq<nat>, b: seq<Byte>, ob: seq<nat>, p: nat)
    requires |a| == |oa| && |b| == |ob|
    ensures Of(a + b, oa + ob, p) == Of(a, oa, p) + Of(b, ob, p)
  {
    if a == [] {
      assert a + b == b && oa + ob == ob;
    } else {
      assert (a + b)[0] == a[0] && (oa + ob)[0] == oa[0];
      assert (a + b)[1..] == a[1..] + b && (oa + ob)[1..] == oa[1..] + ob;
      OfAppend(a[1..], oa[1..], b, ob, p);
      var one := if oa[0] == p then [a[0]] else [];
      assert one + (Of(a[1..], oa[1..], p) + Of(b, ob, p)) == (one + Of(a[1..], oa[1..], p)) + Of(b, ob, p);
    }
  }

  lemma {:induction false} OfOne(a: seq<Byte>, q: nat, p: nat)
    ensures Of(a, seq(|a|, _ => q), p) == if q == p then a else []
  {
    if a != [] {
      assert seq(|a|, _ => q)[1..] == seq(|a| - 1, _ => q);
      OfOne(a[1..], q, p);
    }
  }

  /** A step that adds bytes is one of a process in pipewrite, and adds at the end. */
  lemma {:induction false} AppendStep(s: Sys, e: Event)
    requires Inv(s) && Enabled(s, e)
    ensures Next(s, e).ring.written == s.ring.written + Appended(s, e)
    ensures Appended(s, e) != [] ==> e == Step(e.p) && s.procs[e.p].pc == Loop(Write)
    ensures Next(s, e).ring.taken == s.ring.taken + Removed(s, e)
    ensures Removed(s, e) != [] ==> e == Step(e.p) && s.procs[e.p].pc == Copy
  {
    hide Inv, Full, Empty, RingOk, Fetched;
    Facts(s, e.p);
  }

  /** The writes of all processes interleave to the bytes written, and each process has there
      just what its steps stored, in order. */
  lemma {:induction false} Interleaved(s: Sys, es: seq<Event>, p: nat)
    requires Inv(s) && IsRun(s, es)
    ensures var w, w' := s.ring.written, After(s, es).ring.written;
      w <= w' && |Writers(s, es)| == |w'| - |w| && StoredBy(s, es, p) == Of(w'[|w|..], Writers(s, es), p)
    decreases |es|
  {
    hide Inv, Enabled, Next, Appended;
    if es != [] {
      RunFirst(s, es);
      AppendStep(s, es[0]);
      var s1, a := Next(s, es[0]), Appended(s, es[0]);
      Interleaved(s1, es[1..], p);
      var w, w1, w' := s.ring.written, s1.ring.written, After(s, es).ring.written;
      assert w'[|w|..] == a + w'[|w1|..];
      var owners := seq(|a|, _ => es[0].p);
      OfAppend(a, owners, w'[|w1|..], Writers(s1, es[1..]), p);
      OfOne(a, es[0].p, p);
      OfOne([], es[0].p, p);
    }
  }

  // ----- One writer -----

  /** The arguments of all calls of pipewrite in the run, one after another. */
  function Arguments(es: seq<Event>): seq<Byte> {
    if es == [] then [] else (if es[0].BeginWrite? then es[0].bytes else []) + Arguments(es[1..])
  }

  /** No pipewrite of the run returns -1. */
  predicate NoneFails(s: Sys, es: seq<Event>)
    requires IsRun(s, es)
    decreases |es|
  {
    es == [] || (!Fails(s, es[0]) && NoneFails(Next(s, es[0]), es[1..]))
  }

  predicate MidWrite(pc: Pc) {
    match pc
    case Acq(k) => k == Write
    case Loop(k) => k == Write
    case Pause(_, k) => k == Write
    case Wake(_, sleep) => sleep
    case Waking(_, sleep) => sleep
    case _ => false
  }

  /** Only `w` is in pipewrite. */
  predicate OnlyWriter(s: Sys, w: nat) {
    && w < |s.procs| && (MidWrite(s.procs[w].pc) || s.procs[w].bytes == [])
    && forall q :: 0 <= q < |s.procs| && q != w ==> !MidWrite(s.procs[q].pc)
  }

  lemma {:induction false} OneWriterStep(s: Sys, e: Event, w: nat)
    requires Inv(s) && Enabled(s, e) && OnlyWriter(s, w) && !Fails(s, e) && (e.BeginWrite? ==> e.p == w)
    ensures OnlyWriter(Next(s, e), w)
    ensures Next(s, e).ring.written + Next(s, e).procs[w].bytes
         == s.ring.written + s.procs[w].bytes + if e.BeginWrite? then e.bytes else []
  {
    StillOnlyWriter(s, e, w);
    WriterIs(s, w);
    AppendStep(s, e);
    MovedOn(s, e, w);
    var s' := Next(s, e);
    hide *;
    Regroup(s.ring.written, s'.ring.written, Appended(s, e), s.procs[w].bytes, s'.procs[w].bytes,
            if e.BeginWrite? then e.bytes else []);
  }

  lemma Regroup(a: seq<Byte>, a': seq<Byte>, b: seq<Byte>, c: seq<Byte>, c': seq<Byte>, d: seq<Byte>)
    requires a' == a + b && b + c' == c + d
    ensures a' + c' == a + c + d
  {
    assert a + b + c' == a + (b + c');
  }

  lemma {:induction false} StillOnlyWriter(s: Sys, e: Event, w: nat)
    requires Inv(s) && Enabled(s, e) && OnlyWriter(s, w) && !Fails(s, e) && (e.BeginWrite? ==> e.p == w)
    ensures OnlyWriter(Next(s, e), w)
  {
    assert e.p < |s.procs|;
    hide Inv, Enabled, Next, Fails, Appended;
    forall q | 0 <= q < |s.procs| && q != w
      ensures !MidWrite(Next(s, e).procs[q].pc)
    {
      if q != e.p {
        OthersLeave(s, e, q);
      } else {
        StaysOut(s, e);
      }
    }
    if e.p != w {
      OthersLeave(s, e, w);
    } else {
      WriterStep(s, e);
    }
  }

  lemma {:induction false} MovedOn(s: Sys, e: Event, w: nat)
    requires Inv(s) && Enabled(s, e) && OnlyWriter(s, w) && !Fails(s, e) && (e.BeginWrite? ==> e.p == w)
    ensures Appended(s, e) + Next(s, e).procs[w].bytes == s.procs[w].bytes + if e.BeginWrite? then e.bytes else []
  {
    assert e.p < |s.procs|;
    hide Inv, Enabled, Next, Fails, Appended;
    if e.p != w {
      OthersLeave(s, e, w);
      AppendStep(s, e);
    } else {
      WriterStep(s, e);
    }
  }

  /** A process outside pipewrite stays so, but by a call. */
  lemma StaysOut(s: Sys, e: Event)
    requires Inv(s) && Enabled(s, e) && !MidWrite(s.procs[e.p].pc) && !e.BeginWrite?
    ensures !MidWrite(Next(s, e).procs[e.p].pc)
    ensures Next(s, e).procs[e.p].bytes == s.procs[e.p].bytes
  {
    if e.Step? && !s.procs[e.p].pc.Loop? && !s.procs[e.p].pc.Copy? {
      hide Inv;
      Facts(s, e.p);
      QuietStep(s, e.p);
    } else {
      hide Inv, RingOk, WakeAll, SleepStep;
      Facts(s, e.p);
    }
  }

  lemma WriterStep(s: Sys, e: Event)
    requires Inv(s) && Enabled(s, e) && !Fails(s, e)
    requires MidWrite(s.procs[e.p].pc) || s.procs[e.p].bytes == []
    ensures var proc, proc' := s.procs[e.p], Next(s, e).procs[e.p];
      && (MidWrite(proc'.pc) || proc'.bytes == [])
      && Appended(s, e) + proc'.bytes == proc.bytes + if e.BeginWrite? then e.bytes else []
  {
    AppendStep(s, e);
    if e.BeginWrite? {
      hide Inv, StepOf;
    } else if !MidWrite(s.procs[e.p].pc) {
      StaysOut(s, e);
    } else if e.Kill? {
      KillStep(s, e.p);
    } else if s.procs[e.p].pc == Loop(Write) {
      WriteRound(s, e.p);
    } else {
      QuietStep(s, e.p);
    }
  }

  /** With one writer, none of whose writes fails, the bytes read so far are the first of the
      bytes it was given, in order. */
  lemma {:induction false} OneWriter(s0: Sys, es: seq<Event>, w: nat)
    requires Init(s0) && IsRun(s0, es) && w < |s0.procs| && NoneFails(s0, es)
    requires forall i :: 0 <= i < |es| && es[i].BeginWrite? ==> es[i].p == w
    ensures var s := After(s0, es);
      && s.ring.taken <= s.ring.written <= Arguments(es) && |s.procs| == |s0.procs|
      && s.ring.written + s.procs[w].bytes == Arguments(es)
  {
    InitInv(s0);
    OneWriterRun(s0, es, w);
    RunInv(s0, es);
    var s := After(s0, es);
    TakenFirst(s);
    hide Init, IsRun, After, NoneFails, Inv;
    assert s.ring.written == (s.ring.written + s.procs[w].bytes)[..|s.ring.written|];
  }

  lemma TakenFirst(s: Sys)
    requires Inv(s)
    ensures s.ring.taken <= s.ring.written
  {
    assert RingOk(s.ring);
  }

  lemma {:induction false} OneWriterRun(s: Sys, es: seq<Event>, w: nat)
    requires Inv(s) && IsRun(s, es) && OnlyWriter(s, w) && NoneFails(s, es)
    requires forall i :: 0 <= i < |es| && es[i].BeginWrite? ==> es[i].p == w
    ensures var s' := After(s, es);
      && |s'.procs| == |s.procs|
      && s'.ring.written + s'.procs[w].bytes == s.ring.written + s.procs[w].bytes + Arguments(es)
    decreases |es|
  {
    hide Inv, Enabled, Next, Fails, OnlyWriter;
    if es != [] {
      RunFirst(s, es);
      assert w < |s.procs| by {
        WriterIs(s, w);
      }
      var s1, b := Next(s, es[0]), if es[0].BeginWrite? then es[0].bytes else [];
      OneWriterStep(s, es[0], w);
      OneWriterRun(s1, es[1..], w);
      var has := s.ring.written + s.procs[w].bytes;
      assert (has + b) + Arguments(es[1..]) == has + (b + Arguments(es[1..]));
    }
  }

  lemma WriterIs(s: Sys, w: nat)
    requires OnlyWriter(s, w)
    ensures w < |s.procs|
  {
  }

  // ----- piperead -----

  /** Process `p` is in piperead, or has left it. */
  predicate Reading(s: Sys, p: nat)
    requires p < |s.procs|
  {
    var proc := s.procs[p];
    match proc.pc
    case Acq(k) => k == Read && proc.got == []
    case Loop(k) => k == Read && proc.got == []
    case Pause(_, k) => k == Read && proc.got == []
    case Copy => |proc.got| <= proc.want && (proc.got == [] ==> !(Empty(s.ring) && s.ring.writeopen))
    case Wake(ch, sleep) => ch == NWrite && !sleep && HasRead(s, p)
    case Waking(ch, sleep) => ch == NWrite && !sleep && HasRead(s, p)
    case Rel(ok) => if ok then HasRead(s, p) else proc.got == [] && proc.killed
    case Idle => true
  }

  /** All that was asked for, or all there was; nothing only at the end of the stream. */
  predicate HasRead(s: Sys, p: nat)
    requires p < |s.procs|
  {
    var proc := s.procs[p];
    && |proc.got| <= proc.want && (|proc.got| < proc.want ==> Empty(s.ring))
    && (proc.got == [] && proc.want > 0 ==> !s.ring.writeopen)
  }

  lemma {:induction false} ReadingStep(s: Sys, e: Event, p: nat)
    requires Inv(s) && Enabled(s, e) && p < |s.procs| && Reading(s, p) && (e.p == p ==> e.Step? || e.Kill?)
    ensures Reading(Next(s, e), p) && Next(s, e).procs[p].want == s.procs[p].want
    ensures Next(s, e).procs[p].got == s.procs[p].got + if e == Step(p) then Removed(s, e) else []
  {
    hide Inv, Enabled, Next, Empty;
    AppendStep(s, e);
    if e.p != p {
      OthersLeave(s, e, p);
    } else if e.Kill? {
      KillStep(s, p);
    } else if s.procs[p].pc.Loop? || s.procs[p].pc.Copy? {
      ReadRound(s, p);
    } else {
      QuietStep(s, p);
    }
  }

  /** A round of piperead's loops. */
  lemma ReadRound(s: Sys, p: nat)
    requires Inv(s) && Enabled(s, Step(p)) && Reading(s, p) && (s.procs[p].pc.Loop? || s.procs[p].pc.Copy?)
    ensures var s', proc := Next(s, Step(p)), s.procs[p];
      && Reading(s', p) && s'.procs[p].want == proc.want && StepsLeft(s'.procs[p]) < StepsLeft(proc)
      && s'.procs[p].got == proc.got + Removed(s, Step(p))
  {
    hide Inv, RingOk, Store, Fetched, WakeAll, SleepStep;
    Facts(s, p);
    hide ProcOk;
  }

  lemma {:induction false} ReadingRun(s: Sys, es: seq<Event>, p: nat)
    requires Inv(s) && p < |s.procs| && Reading(s, p) && IsRun(s, es) && OneCall(es, p)
    ensures p < |After(s, es).procs| && Reading(After(s, es), p) && After(s, es).procs[p].want == s.procs[p].want
    ensures After(s, es).procs[p].got == s.procs[p].got + TakenBy(s, es, p)
    decreases |es|
  {
    hide Inv, Reading, Enabled, Next, Removed;
    if es != [] {
      RunFirst(s, es);
      ReadingStep(s, es[0], p);
      ReadingRun(Next(s, es[0]), es[1..], p);
    }
  }

  /** A piperead has got just the bytes that its steps took out. If it returns their number,
      they are as many as it asked for or the buffer is empty, and there are none, unless none
      were asked for, only if the write end is closed; if it returns -1, it took none and was
      killed. */
  lemma {:induction false} ReadTakes(s: Sys, want: nat, es: seq<Event>, p: nat)
    requires Inv(s) && Enabled(s, BeginRead(p, want)) && IsRun(Next(s, BeginRead(p, want)), es) && OneCall(es, p)
    ensures var s0 := Next(s, BeginRead(p, want));
      var s1, took := After(s0, es), TakenBy(s0, es, p);
      && p < |s1.procs| && s1.procs[p].got == took
      && (s1.procs[p].pc == Rel(true) ==>
            && |took| <= want && (|took| < want ==> Empty(s1.ring))
            && (took == [] && want > 0 ==> !s1.ring.writeopen))
      && (s1.procs[p].pc == Rel(false) ==> took == [] && s1.procs[p].killed)
  {
    NextInv(s, BeginRead(p, want));
    ReadingRun(Next(s, BeginRead(p, want)), es, p);
  }

  // ----- pipeclose -----

  lemma ClosedStep(s: Sys, e: Event)
    requires Enabled(s, e)
    ensures Next(s, e).ring.readopen ==> s.ring.readopen
    ensures Next(s, e).ring.writeopen ==> s.ring.writeopen
  {
    hide Full, Empty, Fetched, WakeAll;
  }

  /** A closed end stays closed. */
  lemma {:induction false} StaysClosed(s: Sys, es: seq<Event>)
    requires Inv(s) && IsRun(s, es)
    ensures After(s, es).ring.readopen ==> s.ring.readopen
    ensures After(s, es).ring.writeopen ==> s.ring.writeopen
    decreases |es|
  {
    if es != [] {
      RunFirst(s, es);
      ClosedStep(s, es[0]);
      hide Inv, Next, Enabled;
      StaysClosed(Next(s, es[0]), es[1..]);
    }
  }

  predicate Closing(s: Sys, p: nat, writable: bool)
    requires p < |s.procs|
  {
    var shut := if writable then !s.ring.writeopen else !s.ring.readopen;
    match s.procs[p].pc
    case Acq(k) => k == if writable then CloseWrite else CloseRead
    case Loop(k) => k == if writable then CloseWrite else CloseRead
    case Wake(_, sleep) => !sleep && shut
    case Waking(_, sleep) => !sleep && shut
    case Rel(ok) => ok && shut
    case Idle => shut
    case _ => false
  }

  lemma {:induction false} ClosingStep(s: Sys, e: Event, p: nat, writable: bool)
    requires Inv(s) && Enabled(s, e) && p < |s.procs| && Closing(s, p, writable) && (e.p == p ==> e.Step? || e.Kill?)
    ensures Closing(Next(s, e), p, writable)
  {
    ClosedStep(s, e);
    hide Inv, Enabled, Next;
    if e.p != p {
      OthersLeave(s, e, p);
    } else if e.Kill? {
      KillStep(s, p);
    } else if s.procs[p].pc.Loop? {
      CloseRound(s, p);
    } else {
      QuietStep(s, p);
    }
  }

  /** pipeclose's assignment. */
  lemma CloseRound(s: Sys, p: nat)
    requires Enabled(s, Step(p)) && (s.procs[p].pc == Loop(CloseRead) || s.procs[p].pc == Loop(CloseWrite))
    ensures var s', proc := Next(s, Step(p)), s.procs[p];
      && Closing(s', p, proc.pc.k == CloseWrite) && StepsLeft(s'.procs[p]) < StepsLeft(proc) && !s'.procs[p].pc.Idle?
  {
    hide WakeAll, SleepStep, CopyRound;
  }

  /** pipeclose has closed its end when it returns. */
  lemma {:induction false} CloseShuts(s: Sys, writable: bool, es: seq<Event>, p: nat)
    requires Inv(s) && Enabled(s, Close(p, writable)) && IsRun(Next(s, Close(p, writable)), es) && OneCall(es, p)
    ensures var s1 := After(Next(s, Close(p, writable)), es);
      && p < |s1.procs|
      && (s1.procs[p].pc == Idle ==> if writable then !s1.ring.writeopen else !s1.ring.readopen)
  {
    NextInv(s, Close(p, writable));
    ClosingRun(Next(s, Close(p, writable)), es, p, writable);
  }

  lemma {:induction false} ClosingRun(s: Sys, es: seq<Event>, p: nat, writable: bool)
    requires Inv(s) && p < |s.procs| && Closing(s, p, writable) && IsRun(s, es) && OneCall(es, p)
    ensures p < |After(s, es).procs| && Closing(After(s, es), p, writable)
    decreases |es|
  {
    hide Inv, Closing, Enabled, Next;
    if es != [] {
      RunFirst(s, es);
      ClosingStep(s, es[0], p, writable);
      ClosingRun(Next(s, es[0]), es[1..], p, writable);
    }
  }

  // ----- Every call ends or sleeps -----

  /** How many steps a process has at most before its call returns or it sleeps. */
  function StepsLeft(proc: Proc): nat {
    match proc.pc
    case Pause(at, _) => if at == Woken then 11 + |proc.bytes| + proc.want else PointsLeft(at)
    case Acq(_) => 10 + |proc.bytes| + proc.want
    case Loop(_) => 9 + |proc.bytes| + proc.want
    case Copy => 8 + if |proc.got| < proc.want then proc.want - |proc.got| else 0
    case Wake(_, _) => 7
    case Waking(_, _) => 6
    case Rel(_) => 1
    case Idle => 0
  }

  /** Only a wakeup, a lock that becomes free or a new call gets a process further than that. */
  lemma {:induction false} StepsEnd(s: Sys, e: Event)
    requires Inv(s) && Enabled(s, e) && e.Step? && (s.procs[e.p].pc.Pause? ==> s.procs[e.p].pc.at != Parked)
    ensures StepsLeft(Next(s, e).procs[e.p]) < StepsLeft(s.procs[e.p])
  {
    hide Inv, RingOk;
    Facts(s, e.p);
    var pc := s.procs[e.p].pc;
    if pc == Loop(Write) {
      WriteRound(s, e.p);
    } else if pc == Loop(CloseRead) || pc == Loop(CloseWrite) {
      CloseRound(s, e.p);
    } else if pc.Loop? || pc.Copy? {
      ReadStep(s, e.p);
    } else {
      QuietStep(s, e.p);
    }
  }

  lemma ReadStep(s: Sys, p: nat)
    requires Inv(s) && Enabled(s, Step(p)) && (s.procs[p].pc == Loop(Read) || s.procs[p].pc == Copy)
    ensures StepsLeft(Next(s, Step(p)).procs[p]) < StepsLeft(s.procs[p])
  {
    hide Full, RingOk, Store, Fetched, WakeAll, SleepStep;
    Facts(s, p);
    hide Inv;
  }

  /** Asleep, until it is woken. */
  predicate Sleeps(proc: Proc) {
    proc.pc.Pause? && proc.pc.at == Parked && proc.state == SLEEPING
  }

  /** Unless every process is outside its calls or asleep, some process in a call can step. */
  lemma {:induction false} NoneStuck(s: Sys, p: nat)
    requires Inv(s) && p < |s.procs| && s.procs[p].pc != Idle && !Sleeps(s.procs[p])
    ensures exists q: nat :: q < |s.procs| && Enabled(s, Step(q))
  {
    Facts(s, p);
    if s.pt.Some? {
      assert Enabled(s, Step(s.pt.value));
    } else if s.lk.Some? {
      assert Enabled(s, Step(s.lk.value));
    } else {
      assert Enabled(s, Step(p));
    }
  }
}
