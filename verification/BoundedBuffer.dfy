/** Practical HW5, client.c and server.c: any number of clients put messages into a ring of ten
    slots in shared memory, and one server prints them. The two counting semaphores and the
    mutex are System V semaphores; every semop, store and index update is a step. */
module BoundedBuffer {
  import opened Common

  const SLOTS := 10

  /** What sprintf puts into a slot. */
  type Message = string

  datatype ClientPc =
    | Idle        // in fgets
    | Want        // at semop(buffer_count_sem, -1)
    | GotSlot     // at semop(mutex_sem, -1)
    | Inside      // at sprintf
    | Wrote       // at ++buffer_index
    | Bumped      // at if(buffer_index == 10)
    | Leaving     // at semop(mutex_sem, 1)
    | Unsignalled // at semop(server_signal_sem, 1)

  datatype Client = Client(pc: ClientPc, message: Message)

  datatype ServerPc =
    | Waiting     // at semop(server_signal_sem, -1)
    | Printing    // at printf
    | Advancing   // at buffer_print_index++
    | Wrapping    // at if(buffer_print_index == 10)
    | Posting     // at semop(buffer_count_sem, 1)

  /** The semaphores buffer_count, server_signal and mutex. */
  datatype Sems = Sems(count: nat, signal: nat, mutex: nat)

  /** The shared memory. `log` is the messages in the order of the critical sections, `printed`
      what the server has printed. */
  datatype Memory = Memory(buf: seq<Message>, index: nat, printIndex: nat, log: seq<Message>, printed: seq<Message>)

  /** `owner` is the client in its critical section; only the proof uses it. */
  datatype Sys = Sys(sems: Sems, mem: Memory, clients: seq<Client>, server: ServerPc, owner: Option<nat>)

  datatype Event = Type(c: nat, m: Message) | Step(c: nat) | Serve

  predicate ClientReady(s: Sys, client: Client) {
    match client.pc
    case Idle => false
    case Want => s.sems.count > 0
    case GotSlot => s.sems.mutex > 0
    case Inside => s.mem.index < SLOTS
    case _ => true
  }

  predicate Enabled(s: Sys, e: Event) {
    && |s.mem.buf| == SLOTS
    && match e
       case Type(c, m) => c < |s.clients| && s.clients[c].pc == Idle
       case Step(c) => c < |s.clients| && ClientReady(s, s.clients[c])
       case Serve => (s.server == Waiting ==> s.sems.signal > 0) && (s.server == Printing ==> s.mem.printIndex < SLOTS)
  }

  /** What a client's step does to the semaphores. */
  function SemsAfter(sems: Sems, pc: ClientPc): Sems
    requires (pc == Want ==> sems.count > 0) && (pc == GotSlot ==> sems.mutex > 0)
  {
    match pc
    case Want => Sems(sems.count - 1, sems.signal, sems.mutex)
    case GotSlot => Sems(sems.count, sems.signal, sems.mutex - 1)
    case Leaving => Sems(sems.count, sems.signal, sems.mutex + 1)
    case Unsignalled => Sems(sems.count, sems.signal + 1, sems.mutex)
    case _ => sems
  }

  /** And to the shared memory. */
  function MemoryAfter(mem: Memory, pc: ClientPc, m: Message): Memory
    requires |mem.buf| == SLOTS && (pc == Inside ==> mem.index < SLOTS)
  {
    match pc
    case Inside => Memory(mem.buf[mem.index := m], mem.index, mem.printIndex, mem.log + [m], mem.printed)
    case Wrote => Memory(mem.buf, mem.index + 1, mem.printIndex, mem.log, mem.printed)
    case Bumped => Memory(mem.buf, if mem.index == SLOTS then 0 else mem.index, mem.printIndex, mem.log, mem.printed)
    case _ => mem
  }

  function PcAfter(pc: ClientPc): ClientPc {
    match pc
    case Idle => Want
    case Want => GotSlot
    case GotSlot => Inside
    case Inside => Wrote
    case Wrote => Bumped
    case Bumped => Leaving
    case Leaving => Unsignalled
    case Unsignalled => Idle
  }

  function ClientStep(s: Sys, c: nat): Sys
    requires Enabled(s, Step(c))
  {
    var client := s.clients[c];
    Sys(SemsAfter(s.sems, client.pc), MemoryAfter(s.mem, client.pc, client.message),
        s.clients[c := Client(PcAfter(client.pc), client.message)], s.server,
        if client.pc == GotSlot then Some(c) else if client.pc == Leaving then None else s.owner)
  }

  function PrintedMemory(mem: Memory, server: ServerPc): Memory
    requires |mem.buf| == SLOTS && (server == Printing ==> mem.printIndex < SLOTS)
  {
    match server
    case Printing => Memory(mem.buf, mem.index, mem.printIndex, mem.log, mem.printed + [mem.buf[mem.printIndex]])
    case Advancing => Memory(mem.buf, mem.index, mem.printIndex + 1, mem.log, mem.printed)
    case Wrapping =>
      Memory(mem.buf, mem.index, if mem.printIndex == SLOTS then 0 else mem.printIndex, mem.log, mem.printed)
    case _ => mem
  }

  function NextServer(server: ServerPc): ServerPc {
    match server
    case Waiting => Printing
    case Printing => Advancing
    case Advancing => Wrapping
    case Wrapping => Posting
    case Posting => Waiting
  }

  function ServerStep(s: Sys): Sys
    requires Enabled(s, Serve)
  {
    var sems := match s.server
      case Waiting => Sems(s.sems.count, s.sems.signal - 1, s.sems.mutex)
      case Posting => Sems(s.sems.count + 1, s.sems.signal, s.sems.mutex)
      case _ => s.sems;
    Sys(sems, PrintedMemory(s.mem, s.server), s.clients, NextServer(s.server), s.owner)
  }

  function Next(s: Sys, e: Event): Sys
    requires Enabled(s, e)
  {
    match e
    case Type(c, m) => Sys(s.sems, s.mem, s.clients[c := Client(Want, m)], s.server, s.owner)
    case Step(c) => ClientStep(s, c)
    case Serve => ServerStep(s)
  }

  /** After the server has set up the semaphores. */
  predicate Init(s: Sys) {
    && s.sems == Sems(SLOTS, 0, 1) && |s.mem.buf| == SLOTS && s.mem.index == 0 && s.mem.printIndex == 0
    && s.mem.log == [] && s.mem.printed == [] && s.server == Waiting && s.owner == None
    && forall c :: 0 <= c < |s.clients| ==> s.clients[c].pc == Idle
  }

  // ----- Counting clients -----

  /** Has a slot that the server has not been told of. */
  predicate HasSlot(pc: ClientPc) {
    pc != Idle && pc != Want
  }

  /** Has written its message and not signalled yet. */
  predicate HasWritten(pc: ClientPc) {
    pc == Wrote || pc == Bumped || pc == Leaving || pc == Unsignalled
  }

  predicate InSection(pc: ClientPc) {
    pc == Inside || pc == Wrote || pc == Bumped || pc == Leaving
  }

  function Slots(clients: seq<Client>): (n: nat) {
    if clients == [] then 0 else (if HasSlot(clients[0].pc) then 1 else 0) + Slots(clients[1..])
  }

  function Written(clients: seq<Client>): (n: nat) {
    if clients == [] then 0 else (if HasWritten(clients[0].pc) then 1 else 0) + Written(clients[1..])
  }

  lemma {:induction false} CountPut(clients: seq<Client>, c: nat, x: Client)
    requires c < |clients|
    ensures Slots(clients[c := x])
         == Slots(clients) - (if HasSlot(clients[c].pc) then 1 else 0) + if HasSlot(x.pc) then 1 else 0
    ensures Written(clients[c := x])
         == Written(clients) - (if HasWritten(clients[c].pc) then 1 else 0) + if HasWritten(x.pc) then 1 else 0
  {
    if c > 0 {
      CountPut(clients[1..], c - 1, x);
      assert clients[c := x][1..] == clients[1..][c - 1 := x];
    }
  }

  /** Whoever has written has a slot; so does a client about to write. */
  lemma {:induction false} SlotsCover(clients: seq<Client>, c: nat)
    ensures Written(clients) <= Slots(clients)
    ensures c < |clients| && HasSlot(clients[c].pc) && !HasWritten(clients[c].pc) ==> Written(clients) < Slots(clients)
  {
    if clients != [] {
      SlotsCover(clients[1..], if c > 0 then c - 1 else 0);
    }
  }

  lemma {:induction false} SomeSlot(clients: seq<Client>) returns (c: nat)
    requires Slots(clients) > 0
    ensures c < |clients| && HasSlot(clients[c].pc)
  {
    if HasSlot(clients[0].pc) {
      c := 0;
    } else {
      var d := SomeSlot(clients[1..]);
      c := d + 1;
    }
  }

  lemma {:induction false} NoneIdle(clients: seq<Client>)
    requires forall c :: 0 <= c < |clients| ==> clients[c].pc == Idle
    ensures Slots(clients) == 0 && Written(clients) == 0
  {
    if clients != [] {
      NoneIdle(clients[1..]);
    }
  }

  // ----- The invariant -----

  /** Every slot is free, on its way through a client, signalled, or with the server. */
  predicate Conserved(s: Sys) {
    s.sems.count + s.sems.signal + Slots(s.clients) + (if s.server == Waiting then 0 else 1) == SLOTS
  }

  /** The unprinted messages are those of clients that have not signalled, those signalled, and
      one the server is about to print. */
  predicate Balanced(s: Sys) {
    |s.mem.log| == |s.mem.printed| + Written(s.clients) + s.sems.signal + if s.server == Printing then 1 else 0
  }

  predicate MutexOk(s: Sys) {
    && s.sems.mutex == (if s.owner == None then 1 else 0)
    && (s.owner.Some? ==> s.owner.value < |s.clients|)
    && forall c: nat :: c < |s.clients| ==> (InSection(s.clients[c].pc) <==> s.owner == Some(c))
  }

  /** Where the client inside is; Leaving if there is none. */
  function Phase(s: Sys): ClientPc {
    if s.owner.Some? && s.owner.value < |s.clients| then s.clients[s.owner.value].pc else Leaving
  }

  predicate IndexOk(mem: Memory, phase: ClientPc) {
    var n := |mem.log|;
    if phase == Wrote then n > 0 && mem.index == (n - 1) % SLOTS
    else if phase == Bumped then n > 0 && mem.index == (n - 1) % SLOTS + 1
    else mem.index == n % SLOTS
  }

  predicate PrintIndexOk(mem: Memory, server: ServerPc) {
    var n := |mem.printed|;
    if server == Advancing then n > 0 && mem.printIndex == (n - 1) % SLOTS
    else if server == Wrapping then n > 0 && mem.printIndex == (n - 1) % SLOTS + 1
    else mem.printIndex == n % SLOTS
  }

  /** What has been printed is a prefix of the messages, and the rest is in the buffer. */
  predicate DataOk(mem: Memory) {
    && |mem.buf| == SLOTS && |mem.printed| <= |mem.log| && mem.printed == mem.log[..|mem.printed|]
    && forall j :: |mem.printed| <= j < |mem.log| ==> mem.buf[j % SLOTS] == mem.log[j]
  }

  predicate Inv(s: Sys) {
    && Conserved(s) && Balanced(s) && MutexOk(s) && IndexOk(s.mem, Phase(s)) && PrintIndexOk(s.mem, s.server)
    && DataOk(s.mem)
  }

  lemma InitInv(s: Sys)
    requires Init(s)
    ensures Inv(s)
  {
    NoneIdle(s.clients);
  }

  lemma {:induction false} CountsKept(s: Sys, e: Event)
    requires Inv(s) && Enabled(s, e)
    ensures Conserved(Next(s, e)) && Balanced(Next(s, e))
  {
    hide DataOk, IndexOk, PrintIndexOk, MutexOk;
    match e
    case Type(c, m) => CountPut(s.clients, c, Client(Want, m));
    case Step(c) => CountPut(s.clients, c, Client(PcAfter(s.clients[c].pc), s.clients[c].message));
    case Serve =>
  }

  lemma {:induction false} MutexKept(s: Sys, e: Event)
    requires Inv(s) && Enabled(s, e)
    ensures MutexOk(Next(s, e))
  {
    hide DataOk, IndexOk, PrintIndexOk, Conserved, Balanced, MemoryAfter;
  }

  /** The two assignments to an index add one modulo SLOTS. */
  lemma NextIndex(n: nat)
    requires n > 0
    ensures n % SLOTS == if (n - 1) % SLOTS + 1 == SLOTS then 0 else (n - 1) % SLOTS + 1
  {
  }

  /** The index after one statement of the critical section. */
  lemma SectionIndex(mem: Memory, pc: ClientPc, m: Message)
    requires |mem.buf| == SLOTS && IndexOk(mem, pc) && (pc == Inside ==> mem.index < SLOTS)
    ensures InSection(pc) && pc != Leaving ==> IndexOk(MemoryAfter(mem, pc, m), PcAfter(pc))
    ensures !InSection(pc) || pc == Leaving ==> MemoryAfter(mem, pc, m) == mem
    ensures MemoryAfter(mem, pc, m).printIndex == mem.printIndex && MemoryAfter(mem, pc, m).printed == mem.printed
  {
    if |mem.log| > 0 {
      NextIndex(|mem.log|);
    }
  }

  /** Outside those statements the index is where the next message goes. */
  lemma SettledIndex(mem: Memory, pc: ClientPc, pc': ClientPc)
    requires pc != Wrote && pc != Bumped && pc' != Wrote && pc' != Bumped
    ensures IndexOk(mem, pc) <==> IndexOk(mem, pc')
  {
  }

  lemma {:induction false} ClientIndex(s: Sys, c: nat)
    requires MutexOk(s) && IndexOk(s.mem, Phase(s)) && Enabled(s, Step(c))
    ensures IndexOk(ClientStep(s, c).mem, Phase(ClientStep(s, c)))
    ensures ClientStep(s, c).mem.printIndex == s.mem.printIndex && ClientStep(s, c).mem.printed == s.mem.printed
  {
    hide IndexOk, SemsAfter, MemoryAfter;
    var pc, s' := s.clients[c].pc, ClientStep(s, c);
    if InSection(pc) {
      assert Phase(s) == pc;
      SectionIndex(s.mem, pc, s.clients[c].message);
    } else {
      SettledIndex(s.mem, pc, Leaving);
      if pc == GotSlot {
        SettledIndex(s.mem, Leaving, Inside);
      }
      SettledMemory(s.mem, pc, s.clients[c].message);
      assert s.owner.Some? ==> s.owner.value != c;
    }
  }

  lemma SettledMemory(mem: Memory, pc: ClientPc, m: Message)
    requires |mem.buf| == SLOTS && !InSection(pc)
    ensures MemoryAfter(mem, pc, m) == mem
  {
  }

  lemma ServerIndex(mem: Memory, server: ServerPc)
    requires |mem.buf| == SLOTS && PrintIndexOk(mem, server) && (server == Printing ==> mem.printIndex < SLOTS)
    ensures PrintIndexOk(PrintedMemory(mem, server), NextServer(server))
    ensures PrintedMemory(mem, server).index == mem.index && PrintedMemory(mem, server).log == mem.log
  {
    if |mem.printed| > 0 {
      NextIndex(|mem.printed|);
    }
  }

  lemma {:induction false} IndexKept(s: Sys, e: Event)
    requires Inv(s) && Enabled(s, e)
    ensures IndexOk(Next(s, e).mem, Phase(Next(s, e))) && PrintIndexOk(Next(s, e).mem, Next(s, e).server)
  {
    hide DataOk, Conserved, Balanced, SemsAfter;
    if e.Serve? {
      ServerIndex(s.mem, s.server);
    } else if e.Step? {
      ClientIndex(s, e.c);
    }
  }

  /** There is room for a message in the slot a client is about to write. */
  lemma {:induction false} SlotFree(s: Sys, c: nat)
    requires Inv(s) && c < |s.clients| && s.clients[c].pc == Inside
    ensures |s.mem.log| < |s.mem.printed| + SLOTS && s.mem.index == |s.mem.log| % SLOTS
  {
    SlotsCover(s.clients, c);
  }

  lemma {:induction false} StoreOk(mem: Memory, m: Message)
    requires DataOk(mem) && |mem.log| < |mem.printed| + SLOTS && mem.index == |mem.log| % SLOTS
    ensures DataOk(MemoryAfter(mem, Inside, m))
  {
    var mem' := MemoryAfter(mem, Inside, m);
    forall j | |mem.printed| <= j < |mem'.log|
      ensures mem'.buf[j % SLOTS] == mem'.log[j]
    {
      if j < |mem.log| {
        SlotsDiffer(|mem.printed|, j, |mem.log|);
      }
    }
  }

  /** The server prints the oldest message not printed yet. */
  lemma {:induction false} PrintsNext(s: Sys)
    requires Inv(s) && s.server == Printing
    ensures |s.mem.printed| < |s.mem.log| && s.mem.printIndex < SLOTS
    ensures s.mem.buf[s.mem.printIndex] == s.mem.log[|s.mem.printed|]
  {
    SlotsCover(s.clients, 0);
  }

  lemma {:induction false} DataKept(s: Sys, e: Event)
    requires Inv(s) && Enabled(s, e)
    ensures DataOk(Next(s, e).mem)
  {
    hide Conserved, Balanced, SemsAfter;
    if e.Step? && s.clients[e.c].pc == Inside {
      SlotFree(s, e.c);
      StoreOk(s.mem, s.clients[e.c].message);
    } else if e.Serve? && s.server == Printing {
      PrintsNext(s);
      var n := |s.mem.printed|;
      assert s.mem.log[..n + 1] == s.mem.log[..n] + [s.mem.log[n]];
    }
  }

  /** Every step keeps the invariant. */
  lemma {:induction false} NextInv(s: Sys, e: Event)
    requires Inv(s) && Enabled(s, e)
    ensures Inv(Next(s, e))
  {
    CountsKept(s, e);
    MutexKept(s, e);
    IndexKept(s, e);
    DataKept(s, e);
  }

  // ----- What holds in every run -----

  predicate IsRun(s: Sys, es: seq<Event>)
    decreases |es|
  {
    es == [] || (Enabled(s, es[0]) && IsRun(Next(s, es[0]), es[1..]))
  }

  function After(s: Sys, es: seq<Event>): Sys
    requires IsRun(s, es)
    decreases |es|
  {
    if es == [] then s else After(Next(s, es[0]), es[1..])
  }

  lemma {:induction false} RunInv(s: Sys, es: seq<Event>)
    requires Inv(s) && IsRun(s, es)
    ensures Inv(After(s, es))
    decreases |es|
  {
    if es != [] {
      NextInv(s, es[0]);
      RunInv(Next(s, es[0]), es[1..]);
    }
  }

  /** The two counting semaphores, the slots on their way through clients, and the server's add
      up to ten; what the server has printed is a prefix of the messages in the order of the
      critical sections, and everything not printed yet is in its slot. */
  lemma {:induction false} Delivery(s0: Sys, es: seq<Event>)
    requires Init(s0) && IsRun(s0, es)
    ensures var s := After(s0, es);
      && s.sems.count + s.sems.signal + Slots(s.clients) + (if s.server == Waiting then 0 else 1) == SLOTS
      && s.mem.printed <= s.mem.log && |s.mem.log| <= |s.mem.printed| + SLOTS && |s.mem.buf| == SLOTS
      && forall j :: |s.mem.printed| <= j < |s.mem.log| ==> s.mem.buf[j % SLOTS] == s.mem.log[j]
  {
    InitInv(s0);
    RunInv(s0, es);
    SlotsCover(After(s0, es).clients, 0);
  }

  /** A client writes inside the buffer, alone, and over no message that is not printed. */
  lemma {:induction false} NoOverwrite(s0: Sys, es: seq<Event>, c: nat, d: nat, j: nat)
    requires Init(s0) && IsRun(s0, es) && c < |After(s0, es).clients| && After(s0, es).clients[c].pc == Inside
    ensures var s := After(s0, es);
      && s.mem.index < SLOTS
      && (|s.mem.printed| <= j < |s.mem.log| ==> j % SLOTS != s.mem.index)
      && (d < |s.clients| && InSection(s.clients[d].pc) ==> d == c)
  {
    InitInv(s0);
    RunInv(s0, es);
    var s := After(s0, es);
    SlotFree(s, c);
    hide Conserved, Balanced, DataOk, IsRun, After;
    if |s.mem.printed| <= j < |s.mem.log| {
      SlotsDiffer(|s.mem.printed|, j, |s.mem.log|);
    }
  }

  lemma SlotsDiffer(a: nat, j: nat, b: nat)
    requires a <= j < b < a + SLOTS
    ensures j % SLOTS != b % SLOTS
  {
  }

  /** The server prints a slot that has been written and not printed, and no step of a client
      changes that slot before it has. */
  lemma {:induction false} PrintsWritten(s0: Sys, es: seq<Event>, e: Event)
    requires Init(s0) && IsRun(s0, es) && After(s0, es).server == Printing && Enabled(After(s0, es), e)
    ensures var s := After(s0, es);
      && |s.mem.printed| < |s.mem.log| && s.mem.printIndex < SLOTS
      && s.mem.buf[s.mem.printIndex] == s.mem.log[|s.mem.printed|]
      && var mem' := Next(s, e).mem; |mem'.buf| == SLOTS && mem'.buf[s.mem.printIndex] == s.mem.buf[s.mem.printIndex]
  {
    InitInv(s0);
    RunInv(s0, es);
    var s := After(s0, es);
    PrintsNext(s);
    if e.Step? && s.clients[e.c].pc == Inside {
      SlotFree(s, e.c);
      SlotsDiffer(|s.mem.printed|, |s.mem.printed|, |s.mem.log|);
    }
    hide Conserved, Balanced, DataOk, IndexOk, IsRun, After;
  }

  /** No deadlock: unless every client is waiting for input and everything is printed, some
      client or the server can take a step. */
  lemma {:induction false} NoDeadlock(s0: Sys, es: seq<Event>)
    requires Init(s0) && IsRun(s0, es)
    requires var s := After(s0, es);
      (exists c :: 0 <= c < |s.clients| && s.clients[c].pc != Idle) || s.mem.printed != s.mem.log || s.server != Waiting
    ensures var s := After(s0, es); Enabled(s, Serve) || exists c: nat :: Enabled(s, Step(c))
  {
    InitInv(s0);
    RunInv(s0, es);
    var s := After(s0, es);
    SlotsCover(s.clients, 0);
    if s.server == Waiting && s.sems.signal == 0 {
      if s.owner.Some? {
        assert InSection(s.clients[s.owner.value].pc);
        assert Enabled(s, Step(s.owner.value));
      } else if Slots(s.clients) > 0 {
        var c := SomeSlot(s.clients);
        assert Enabled(s, Step(c));
      } else {
        assert s.mem.log[..|s.mem.log|] == s.mem.log;
        var c :| 0 <= c < |s.clients| && s.clients[c].pc != Idle;
        SlotsZero(s.clients, c);
        assert Enabled(s, Step(c));
      }
    } else if s.server == Printing {
      PrintsNext(s);
    }
  }

  lemma {:induction false} SlotsZero(clients: seq<Client>, c: nat)
    requires Slots(clients) == 0 && c < |clients|
    ensures clients[c].pc == Idle || clients[c].pc == Want
  {
    if c > 0 {
      SlotsZero(clients[1..], c - 1);
    }
  }

  // ----- What each client sends -----

  /** What a step adds to the messages in the buffer. */
  function Appended(s: Sys, e: Event): seq<Message>
    requires Enabled(s, e)
  {
    var l, l' := s.mem.log, Next(s, e).mem.log;
    if |l| <= |l'| then l'[|l|..] else []
  }

  /** The messages that the steps of client `c` put into the buffer. */
  function SentBy(s: Sys, es: seq<Event>, c: nat): seq<Message>
    requires IsRun(s, es)
    decreases |es|
  {
    if es == [] then []
    else (if es[0] == Step(c) then Appended(s, es[0]) else []) + SentBy(Next(s, es[0]), es[1..], c)
  }

  /** The messages typed to client `c`. */
  function TypedTo(es: seq<Event>, c: nat): seq<Message> {
    if es == [] then []
    else (if es[0].Type? && es[0].c == c then [es[0].m] else []) + TypedTo(es[1..], c)
  }

  /** The message that a client has not put into the buffer yet. */
  function Unsent(client: Client): seq<Message> {
    if client.pc == Want || client.pc == GotSlot || client.pc == Inside then [client.message] else []
  }

  lemma {:induction false} SendStep(s: Sys, e: Event, c: nat)
    requires Enabled(s, e) && c < |s.clients|
    ensures |Next(s, e).clients| == |s.clients|
    ensures (if e == Step(c) then Appended(s, e) else []) + Unsent(Next(s, e).clients[c])
         == Unsent(s.clients[c]) + if e.Type? && e.c == c then [e.m] else []
  {
  }

  /** Every client puts into the buffer just the messages typed to it, in order; the last of
      them it may still have in hand. */
  lemma {:induction false} SendsTyped(s0: Sys, es: seq<Event>, c: nat)
    requires Init(s0) && IsRun(s0, es) && c < |s0.clients|
    ensures c < |After(s0, es).clients| && SentBy(s0, es, c) + Unsent(After(s0, es).clients[c]) == TypedTo(es, c)
  {
    SendsRun(s0, es, c);
  }

  lemma {:induction false} SendsRun(s: Sys, es: seq<Event>, c: nat)
    requires IsRun(s, es) && c < |s.clients|
    ensures c < |After(s, es).clients|
    ensures SentBy(s, es, c) + Unsent(After(s, es).clients[c]) == Unsent(s.clients[c]) + TypedTo(es, c)
    decreases |es|
  {
    hide Next, Unsent, Appended;
    if es != [] {
      SendStep(s, es[0], c);
      var s1 := Next(s, es[0]);
      SendsRun(s1, es[1..], c);
      var now := if es[0] == Step(c) then Appended(s, es[0]) else [];
      var typed := if es[0].Type? && es[0].c == c then [es[0].m] else [];
      Regroup(now, SentBy(s1, es[1..], c), Unsent(After(s, es).clients[c]), Unsent(s1.clients[c]),
              Unsent(s.clients[c]), typed, TypedTo(es[1..], c));
    }
  }

  lemma Regroup(now: seq<Message>, sent: seq<Message>, left: seq<Message>, left1: seq<Message>, left0: seq<Message>,
                typed: seq<Message>, more: seq<Message>)
    requires now + left1 == left0 + typed && sent + left == left1 + more
    ensures now + sent + left == left0 + (typed + more)
  {
    assert now + sent + left == now + (sent + left) == (now + left1) + more;
  }

  /** The client that sent each message the run adds. */
  function Senders(s: Sys, es: seq<Event>): seq<nat>
    requires IsRun(s, es)
    decreases |es|
  {
    if es == [] then []
    else seq(|Appended(s, es[0])|, _ => if es[0].Step? then es[0].c else 0) + Senders(Next(s, es[0]), es[1..])
  }

  function Of(messages: seq<Message>, senders: seq<nat>, c: nat): seq<Message>
    requires |messages| == |senders|
  {
    if messages == [] then []
    else (if senders[0] == c then [messages[0]] else []) + Of(messages[1..], senders[1..], c)
  }

  lemma {:induction false} AppendStep(s: Sys, e: Event)
    requires Enabled(s, e)
    ensures Next(s, e).mem.log == s.mem.log + Appended(s, e)
    ensures Appended(s, e) != [] ==> e.Step? && |Appended(s, e)| == 1
  {
  }

  /** The buffer gets the messages of all clients interleaved, those of each in its order. */
  lemma {:induction false} Interleaved(s: Sys, es: seq<Event>, c: nat)
    requires IsRun(s, es)
    ensures var l, l' := s.mem.log, After(s, es).mem.log;
      l <= l' && |Senders(s, es)| == |l'| - |l| && SentBy(s, es, c) == Of(l'[|l|..], Senders(s, es), c)
    decreases |es|
  {
    hide Enabled, Next, Appended;
    if es != [] {
      AppendStep(s, es[0]);
      var s1, a := Next(s, es[0]), Appended(s, es[0]);
      Interleaved(s1, es[1..], c);
      var l, l1, l' := s.mem.log, s1.mem.log, After(s, es).mem.log;
      assert l'[|l|..] == a + l'[|l1|..];
      if a == [] {
        assert Senders(s, es) == Senders(s1, es[1..]);
      } else {
        assert Senders(s, es) == [es[0].c] + Senders(s1, es[1..]);
        OfMore(a[0], l'[|l1|..], es[0].c, Senders(s1, es[1..]), c);
      }
    }
  }

  lemma OfMore(m: Message, messages: seq<Message>, d: nat, senders: seq<nat>, c: nat)
    requires |messages| == |senders|
    ensures Of([m] + messages, [d] + senders, c) == (if d == c then [m] else []) + Of(messages, senders, c)
  {
    assert ([m] + messages)[1..] == messages && ([d] + senders)[1..] == senders;
  }

  // ----- Everything is printed in the end -----

  /** How many steps of clients and server a client's message still takes. */
  function Steps(pc: ClientPc): nat {
    match pc
    case Idle => 0
    case Unsignalled => 6
    case Leaving => 7
    case Bumped => 8
    case Wrote => 9
    case Inside => 10
    case GotSlot => 11
    case Want => 12
  }

  function ServerSteps(server: ServerPc): nat {
    match server
    case Waiting => 0
    case Posting => 1
    case Wrapping => 2
    case Advancing => 3
    case Printing => 4
  }

  function AllSteps(clients: seq<Client>): nat {
    if clients == [] then 0 else Steps(clients[0].pc) + AllSteps(clients[1..])
  }

  function Work(s: Sys): nat {
    AllSteps(s.clients) + 5 * s.sems.signal + ServerSteps(s.server)
  }

  lemma {:induction false} StepsPut(clients: seq<Client>, c: nat, x: Client)
    requires c < |clients|
    ensures AllSteps(clients[c := x]) == AllSteps(clients) - Steps(clients[c].pc) + Steps(x.pc)
  {
    if c > 0 {
      StepsPut(clients[1..], c - 1, x);
      assert clients[c := x][1..] == clients[1..][c - 1 := x];
    }
  }

  lemma {:induction false} WorkStep(s: Sys, e: Event)
    requires Enabled(s, e)
    ensures Work(Next(s, e)) == if e.Type? then Work(s) + 12 else Work(s) - 1
  {
    match e
    case Type(c, m) => StepsPut(s.clients, c, Client(Want, m));
    case Step(c) => StepsPut(s.clients, c, Client(PcAfter(s.clients[c].pc), s.clients[c].message));
    case Serve =>
  }

  /** How many messages are typed in the run. */
  function Messages(es: seq<Event>): nat {
    if es == [] then 0 else (if es[0].Type? then 1 else 0) + Messages(es[1..])
  }

  /** Each message takes twelve steps; no run takes more, so clients and server come to rest when
      nothing more is typed, and with NoDeadlock everything has been printed then. */
  lemma {:induction false} TwelveSteps(s0: Sys, es: seq<Event>)
    requires Init(s0) && IsRun(s0, es)
    ensures |es| + Work(After(s0, es)) == 13 * Messages(es)
    ensures Work(After(s0, es)) == 0 <==>
      (var s := After(s0, es);
       && s.mem.printed == s.mem.log && s.server == Waiting
       && forall c :: 0 <= c < |s.clients| ==> s.clients[c].pc == Idle)
  {
    InitInv(s0);
    NoSteps(s0.clients);
    WorkRun(s0, es);
    RunInv(s0, es);
    var s := After(s0, es);
    NoSteps(s.clients);
    SlotsCover(s.clients, 0);
    if forall c :: 0 <= c < |s.clients| ==> s.clients[c].pc == Idle {
      NoneIdle(s.clients);
    }
    assert s.mem.log[..|s.mem.log|] == s.mem.log;
  }

  lemma {:induction false} WorkRun(s: Sys, es: seq<Event>)
    requires IsRun(s, es)
    ensures |es| + Work(After(s, es)) == Work(s) + 13 * Messages(es)
    decreases |es|
  {
    if es != [] {
      WorkStep(s, es[0]);
      WorkRun(Next(s, es[0]), es[1..]);
    }
  }

  lemma {:induction false} NoSteps(clients: seq<Client>)
    ensures AllSteps(clients) == 0 <==> forall c :: 0 <= c < |clients| ==> clients[c].pc == Idle
  {
    if clients != [] {
      NoSteps(clients[1..]);
      if AllSteps(clients) == 0 {
        forall c | 0 <= c < |clients|
          ensures clients[c].pc == Idle
        {
          assert c > 0 ==> clients[c] == clients[1..][c - 1];
        }
      }
      assert (forall c :: 0 <= c < |clients| ==> clients[c].pc == Idle) ==>
        forall c :: 0 <= c < |clients[1..]| ==> clients[1..][c].pc == Idle;
    }
  }
}
