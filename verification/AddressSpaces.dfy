/** Any sequence of calls that make, resize, copy and free address spaces: each address space is
    a size and the contents of its pages, and no call touches another's. */
module AddressSpaces {
  import opened Common
  import opened VmSpec
  import opened VmGrowth
  import opened Vms

  /** A page of user memory: the flags of its table entry, the rights the hardware gives to it
      and its words. */
  datatype UserPage = UserPage(flags: int, write: bool, user: bool, words: Page)

  datatype AddressSpace = AddressSpace(sz: nat, pages: seq<UserPage>)

  /** setupkvm; allocuvm or deallocuvm; copyuvm; freevm. */
  datatype Request = Make | Resize(d: nat, sz: nat) | Duplicate(d: nat) | Drop(d: nat)

  /** `Made` gives the new directory. */
  datatype Outcome = Failed | Done | Made(d: nat)

  function ZeroPage(): UserPage {
    UserPage(PTE_P + PTE_W + PTE_U, true, true, Filled(0))
  }

  function Resized(s: AddressSpace, sz: nat): AddressSpace {
    AddressSpace(sz,
                 if PageUp(sz) <= |s.pages| then s.pages[..PageUp(sz)]
                 else s.pages + seq(PageUp(sz) - |s.pages|, _ => ZeroPage()))
  }

  /** What a request that ended in `o` means for the address spaces. */
  function Step(spaces: map<nat, AddressSpace>, r: Request, o: Outcome): map<nat, AddressSpace> {
    match r
    case Make => if o.Made? then spaces[o.d := AddressSpace(0, [])] else spaces
    case Resize(d, sz) => if o.Done? && d in spaces then spaces[d := Resized(spaces[d], sz)] else spaces
    case Duplicate(d) => if o.Made? && d in spaces then spaces[o.d := spaces[d]] else spaces
    case Drop(d) => if o.Done? then spaces - {d} else spaces
  }

  function StepAll(spaces: map<nat, AddressSpace>, rs: seq<Request>, os: seq<Outcome>): map<nat, AddressSpace>
    requires |rs| == |os|
  {
    if rs == [] then spaces
    else
      var k := |rs| - 1;
      Step(StepAll(spaces, rs[..k], os[..k]), rs[k], os[k])
  }

  // ----- The machine's memory -----

  ghost function UserPages(mem: seq<Page>, d: nat, sz: nat): seq<UserPage> {
    seq(PageUp(sz), v requires 0 <= v => PageOf(mem, d, v))
  }

  ghost function PageOf(mem: seq<Page>, d: nat, v: nat): UserPage {
    var x := Translate(mem, d, v);
    UserPage(PteFlags(Pte(mem, d, v)), x.Access? && x.write, x.Access? && x.user,
             if x.Access? && 0 <= x.page < |mem| then mem[x.page] else [])
  }

  /** Directory `d` has exactly the user pages below `sz`. */
  ghost predicate Sized(mem: seq<Page>, own: seq<Owner>, lo: nat, hi: nat, d: nat, sz: nat) {
    && SpaceOk(mem, own, lo, hi, d) && NoLoose(own, d) && sz < KERNBASE
    && forall v: nat :: v < USERPAGES ==> (Present(Pte(mem, d, v)) <==> v < PageUp(sz))
  }

  ghost predicate Table(m: Machine, sizes: map<nat, nat>)
    reads m
  {
    && m.Ok() && DataPageOk(m.dataPage)
    && forall d :: d in sizes ==> Sized(m.mem, m.own, m.lo, m.hi, d, sizes[d])
  }

  ghost function View(mem: seq<Page>, sizes: map<nat, nat>): map<nat, AddressSpace> {
    map d | d in sizes :: AddressSpace(sizes[d], UserPages(mem, d, sizes[d]))
  }

  /** A page below the size is the directory's own. */
  lemma OwnPage(mem: seq<Page>, own: seq<Owner>, lo: nat, hi: nat, d: nat, sz: nat, v: nat)
    requires Sized(mem, own, lo, hi, d, sz) && v < PageUp(sz)
    ensures v < USERPAGES && Present(Pte(mem, d, v))
    ensures var p := PteAddr(Pte(mem, d, v)); 0 <= p < |mem| == |own| && own[p] == Data(d, v)
  {
    PagesBelow(0, sz);
    assert DataAt(mem, own, lo, hi, d, v);
  }

  lemma SamePages(mem: seq<Page>, mem': seq<Page>, d: nat, sz: nat)
    requires forall v: nat :: v < PageUp(sz) ==> PageOf(mem', d, v) == PageOf(mem, d, v)
    ensures UserPages(mem', d, sz) == UserPages(mem, d, sz)
  {
  }

  /** A call on directory `d` leaves any other address space as it was. */
  lemma {:induction false} OtherStays(mem: seq<Page>, own: seq<Owner>, mem': seq<Page>, own': seq<Owner>, lo: nat,
                                      hi: nat, d: nat, e: nat, sz: nat)
    requires Sized(mem, own, lo, hi, e, sz) && OnlyTouches(mem, own, mem', own', d) && MemOk(mem', own', lo, hi)
    requires e != d
    ensures Sized(mem', own', lo, hi, e, sz) && UserPages(mem', e, sz) == UserPages(mem, e, sz)
  {
    OthersKept(mem, own, mem', own', lo, hi, d, e);
    forall p | 0 <= p < |own'|
      ensures own'[p] != Loose(e)
    {
      assert Touch(mem[p], own[p], mem'[p], own'[p], d);
    }
    PagesBelow(0, sz);
    hide SpaceOk, OnlyTouches, MemOk;
    forall v: nat | v < PageUp(sz)
      ensures PageOf(mem', e, v) == PageOf(mem, e, v)
    {
      OwnPage(mem, own, lo, hi, e, sz, v);
    }
    SamePages(mem, mem', e, sz);
  }

  /** allocuvm from size `sz` to `sz'`. */
  lemma {:induction false} GrownView(mem: seq<Page>, own: seq<Owner>, mem': seq<Page>, own': seq<Owner>, lo: nat,
                                     hi: nat, d: nat, sz: nat, sz': nat)
    requires Sized(mem, own, lo, hi, d, sz) && SpaceOk(mem', own', lo, hi, d) && sz <= sz' < KERNBASE
    requires Grown(mem, own, mem', own', d, PageUp(sz), PageUp(sz'), -1)
    ensures Sized(mem', own', lo, hi, d, sz')
    ensures UserPages(mem', d, sz') == Resized(AddressSpace(sz, UserPages(mem, d, sz)), sz').pages
  {
    PagesBelow(sz, sz');
    PagesBelow(0, sz);
    forall p | 0 <= p < |own'|
      ensures own'[p] != Loose(d)
    {
      assert GrownPage(mem[p], own[p], mem'[p], own'[p], d, PageUp(sz), PageUp(sz'), InHand(p, -1));
    }
    forall v: nat | v < USERPAGES
      ensures Present(Pte(mem', d, v)) <==> v < PageUp(sz')
    {
      assert GrownEntry(mem, own, mem', own', d, PageUp(sz), PageUp(sz'), v);
    }
    GrownAccess(mem, own, mem', own', lo, hi, d, PageUp(sz), PageUp(sz'));
    TranslateIs(mem, own, lo, hi, d);
    TranslateIs(mem', own', lo, hi, d);
    hide SpaceOk, Translate;
    forall v: nat | v < PageUp(sz')
      ensures PageOf(mem', d, v) == if v < PageUp(sz) then PageOf(mem, d, v) else ZeroPage()
    {
      assert GrownEntry(mem, own, mem', own', d, PageUp(sz), PageUp(sz'), v);
      if v < PageUp(sz) {
        OwnPage(mem, own, lo, hi, d, sz, v);
        var p := PteAddr(Pte(mem, d, v));
        assert GrownPage(mem[p], own[p], mem'[p], own'[p], d, PageUp(sz), PageUp(sz'), InHand(p, -1));
      }
    }
    var pages, grown := UserPages(mem', d, sz'), Resized(AddressSpace(sz, UserPages(mem, d, sz)), sz').pages;
    assert forall v :: 0 <= v < |pages| ==> pages[v] == grown[v];
  }

  /** allocuvm that ran out of pages. */
  lemma {:induction false} RestoredView(mem: seq<Page>, own: seq<Owner>, mem': seq<Page>, own': seq<Owner>, lo: nat,
                                        hi: nat, d: nat, sz: nat)
    requires Sized(mem, own, lo, hi, d, sz) && SpaceOk(mem', own', lo, hi, d)
    requires Restored(mem, own, mem', own', d, -1)
    ensures Sized(mem', own', lo, hi, d, sz) && UserPages(mem', d, sz) == UserPages(mem, d, sz)
  {
    PagesBelow(0, sz);
    forall p | 0 <= p < |own'|
      ensures own'[p] != Loose(d)
    {
      assert RestoredPage(mem[p], own[p], mem'[p], own'[p], d, InHand(p, -1));
    }
    forall v: nat | v < USERPAGES
      ensures Present(Pte(mem', d, v)) <==> v < PageUp(sz)
    {
      assert SameEntry(Pte(mem, d, v), Pte(mem', d, v));
    }
    RestoredAccess(mem, own, mem', own', lo, hi, d);
    TranslateIs(mem, own, lo, hi, d);
    TranslateIs(mem', own', lo, hi, d);
    hide SpaceOk, Translate;
    forall v: nat | v < PageUp(sz)
      ensures PageOf(mem', d, v) == PageOf(mem, d, v)
    {
      OwnPage(mem, own, lo, hi, d, sz, v);
      assert SameEntry(Pte(mem, d, v), Pte(mem', d, v));
      var p := PteAddr(Pte(mem, d, v));
      assert RestoredPage(mem[p], own[p], mem'[p], own'[p], d, InHand(p, -1));
    }
    SamePages(mem, mem', d, sz);
  }

  /** deallocuvm from size `sz` to `sz'`. */
  lemma {:induction false} ShrunkView(mem: seq<Page>, own: seq<Owner>, mem': seq<Page>, own': seq<Owner>, lo: nat,
                                      hi: nat, d: nat, sz: nat, sz': nat)
    requires Sized(mem, own, lo, hi, d, sz) && SpaceOk(mem', own', lo, hi, d) && sz' < sz
    requires Shrunk(mem, own, mem', own', d, PageUp(sz'), PageUp(sz))
    ensures Sized(mem', own', lo, hi, d, sz')
    ensures UserPages(mem', d, sz') == Resized(AddressSpace(sz, UserPages(mem, d, sz)), sz').pages
  {
    PagesBelow(sz', sz);
    PagesBelow(0, sz);
    forall p | 0 <= p < |own'|
      ensures own'[p] != Loose(d)
    {
      assert own'[p] == Unmapped(own[p], d, PageUp(sz'), PageUp(sz));
    }
    assert !Present(0);
    ShrunkAccess(mem, own, mem', own', lo, hi, d, PageUp(sz'), PageUp(sz));
    TranslateIs(mem, own, lo, hi, d);
    TranslateIs(mem', own', lo, hi, d);
    hide SpaceOk, Translate;
    forall v: nat | v < PageUp(sz')
      ensures PageOf(mem', d, v) == PageOf(mem, d, v)
    {
      OwnPage(mem, own, lo, hi, d, sz, v);
      var p := PteAddr(Pte(mem, d, v));
      assert own'[p] == Unmapped(own[p], d, PageUp(sz'), PageUp(sz));
      assert Kept(mem[p], own[p], mem'[p], own'[p], d);
    }
    SamePages(mem, mem', d, sz');
    assert UserPages(mem, d, sz') == UserPages(mem, d, sz)[..PageUp(sz')];
  }

  /** setupkvm. */
  lemma EmptyView(mem: seq<Page>, own: seq<Owner>, lo: nat, hi: nat, d: nat, dataPage: nat)
    requires SpaceOk(mem, own, lo, hi, d) && NoLoose(own, d)
    requires forall v: nat :: v < VPAGES ==> Pte(mem, d, v) == KernelPte(v, dataPage)
    ensures Sized(mem, own, lo, hi, d, 0) && UserPages(mem, d, 0) == []
  {
    assert !Present(0);
  }

  /** copyuvm. */
  lemma {:induction false} CopiedView(mem: seq<Page>, own: seq<Owner>, mem': seq<Page>, own': seq<Owner>, lo: nat,
                                      hi: nat, parent: nat, d: nat, sz: nat, dataPage: nat)
    requires Sized(mem, own, lo, hi, parent, sz) && SpaceOk(mem', own', lo, hi, d) && NoLoose(own', d)
    requires Copied(mem, own, mem', own', parent, d, PageUp(sz))
    requires forall v: nat :: PageUp(sz) <= v < VPAGES ==> Pte(mem', d, v) == KernelPte(v, dataPage)
    ensures Sized(mem', own', lo, hi, d, sz) && UserPages(mem', d, sz) == UserPages(mem, parent, sz)
  {
    PagesBelow(0, sz);
    assert !Present(0);
    forall v: nat | v < USERPAGES
      ensures Present(Pte(mem', d, v)) <==> v < PageUp(sz)
    {
      if v < PageUp(sz) {
        assert CopiedPage(mem, own, mem', own', parent, d, v);
      }
    }
    CopiedAccess(mem, own, mem', own', lo, hi, parent, d, PageUp(sz));
    TranslateIs(mem, own, lo, hi, parent);
    TranslateIs(mem', own', lo, hi, d);
    hide SpaceOk, Translate;
    forall v: nat | v < PageUp(sz)
      ensures PageOf(mem', d, v) == PageOf(mem, parent, v)
    {
      OwnPage(mem, own, lo, hi, parent, sz, v);
      assert CopiedPage(mem, own, mem', own', parent, d, v);
    }
    var pages, copied := UserPages(mem, parent, sz), UserPages(mem', d, sz);
    assert forall v :: 0 <= v < |pages| ==> copied[v] == pages[v];
  }

  lemma {:induction false} OthersStay(mem: seq<Page>, own: seq<Owner>, mem': seq<Page>, own': seq<Owner>, lo: nat,
                                      hi: nat, d: nat, sizes: map<nat, nat>)
    requires forall e :: e in sizes ==> Sized(mem, own, lo, hi, e, sizes[e])
    requires OnlyTouches(mem, own, mem', own', d) && MemOk(mem', own', lo, hi)
    ensures forall e :: e in sizes && e != d ==>
      Sized(mem', own', lo, hi, e, sizes[e]) && UserPages(mem', e, sizes[e]) == UserPages(mem, e, sizes[e])
  {
    forall e | e in sizes && e != d
      ensures Sized(mem', own', lo, hi, e, sizes[e]) && UserPages(mem', e, sizes[e]) == UserPages(mem, e, sizes[e])
    {
      OtherStays(mem, own, mem', own', lo, hi, d, e, sizes[e]);
    }
  }

  /** A call that changed nothing but the contents of free pages. */
  lemma {:induction false} AllStay(mem: seq<Page>, own: seq<Owner>, mem': seq<Page>, lo: nat, hi: nat,
                                   sizes: map<nat, nat>)
    requires forall e :: e in sizes ==> Sized(mem, own, lo, hi, e, sizes[e])
    requires |mem'| == |mem| == |own| && MemOk(mem', own, lo, hi)
    requires forall p :: 0 <= p < |own| && own[p] != FreePage ==> mem'[p] == mem[p]
    ensures forall e :: e in sizes ==>
      Sized(mem', own, lo, hi, e, sizes[e]) && UserPages(mem', e, sizes[e]) == UserPages(mem, e, sizes[e])
  {
    assert OnlyTouches(mem, own, mem', own, |mem|);
    assert |mem| in sizes ==> Sized(mem, own, lo, hi, |mem|, sizes[|mem|]);
    OthersStay(mem, own, mem', own, lo, hi, |mem|, sizes);
  }

  /** A directory that was free before is none of those in use. */
  lemma FreshDir(mem: seq<Page>, own: seq<Owner>, mem': seq<Page>, own': seq<Owner>, lo: nat, hi: nat, d: nat,
                 sizes: map<nat, nat>)
    requires forall e :: e in sizes ==> Sized(mem, own, lo, hi, e, sizes[e])
    requires NewSpace(mem, own, mem', own', d) && SpaceOk(mem', own', lo, hi, d)
    ensures d !in sizes
  {
    assert NewPage(mem[d], own[d], mem'[d], own'[d], d);
    assert d in sizes ==> Sized(mem, own, lo, hi, d, sizes[d]);
  }

  lemma DirInMemory(mem: seq<Page>, own: seq<Owner>, lo: nat, hi: nat, d: nat)
    requires SpaceOk(mem, own, lo, hi, d)
    ensures d < |mem| == |own|
  {
  }

  lemma LeadingAll(mem: seq<Page>, own: seq<Owner>, lo: nat, hi: nat, d: nat, sz: nat)
    requires Sized(mem, own, lo, hi, d, sz)
    ensures Leading(mem, d, PageUp(sz)) == PageUp(sz) && PageUp(sz) <= USERPAGES
  {
    PagesBelow(0, sz);
  }

  lemma ResizedIs(s: AddressSpace, sz: nat)
    ensures Resized(s, sz) == AddressSpace(sz, Resized(s, sz).pages)
  {
  }

  lemma OkMem(m: Machine)
    requires m.Ok()
    ensures MemOk(m.mem, m.own, m.lo, m.hi)
  {
  }

  /** When a request is refused: for want of free pages, for a size that reaches the kernel, or
      for a directory that does not exist. */
  ghost predicate Refused(mem: seq<Page>, free: nat, sizes: map<nat, nat>, r: Request) {
    match r
    case Make => free < KERNELPAGES
    case Resize(d, sz) =>
      d in sizes && d < |mem| ==>
        sizes[d] < sz && (KERNBASE <= sz || free < Need(Tabled(mem[d]), PageUp(sizes[d]), PageUp(sz), 1))
    case Duplicate(d) => d in sizes ==> free < KERNELPAGES + UserNeed(PageUp(sizes[d]))
    case Drop(d) => d !in sizes
  }

  /** The request has done what its outcome says. */
  ghost predicate Served(m: Machine, sizes: map<nat, nat>, before: map<nat, AddressSpace>, r: Request, o: Outcome)
    reads m
  {
    && Table(m, sizes) && View(m.mem, sizes) == Step(before, r, o)
    && (o.Made? ==> o.d !in before)
  }

  method ServeMake(m: Machine, sizes: map<nat, nat>) returns (o: Outcome, sizes': map<nat, nat>)
    requires Table(m, sizes)
    modifies m
    ensures Served(m, sizes', old(View(m.mem, sizes)), Make, o)
    ensures o.Failed? <==> old(Refused(m.mem, |m.free|, sizes, Make))
  {
    hide SpaceOk, FreeOk, NoOrphans, NewSpace, OnlyTouches, Pte, Present, UserPages;
    OkMem(m);
    ghost var mem0, own0 := m.mem, m.own;
    var r := m.Setupkvm();
    OkMem(m);
    if r.None? {
      AllStay(mem0, own0, m.mem, m.lo, m.hi, sizes);
      return Failed, sizes;
    }
    var d := r.value;
    NewSpaceTouches(mem0, own0, m.mem, m.own, d);
    FreshDir(mem0, own0, m.mem, m.own, m.lo, m.hi, d, sizes);
    OthersStay(mem0, own0, m.mem, m.own, m.lo, m.hi, d, sizes);
    EmptyView(m.mem, m.own, m.lo, m.hi, d, m.dataPage);
    return Made(d), sizes[d := 0];
  }

  method ServeCopy(m: Machine, sizes: map<nat, nat>, d: nat) returns (o: Outcome, sizes': map<nat, nat>)
    requires Table(m, sizes) && d in sizes
    modifies m
    ensures Served(m, sizes', old(View(m.mem, sizes)), Duplicate(d), o)
    ensures o.Failed? <==> old(Refused(m.mem, |m.free|, sizes, Duplicate(d)))
  {
    hide SpaceOk, FreeOk, NoOrphans, NewSpace, OnlyTouches, Pte, Present, UserPages, Copied;
    OkMem(m);
    ghost var mem0, own0 := m.mem, m.own;
    LeadingAll(mem0, own0, m.lo, m.hi, d, sizes[d]);
    var r := m.Copyuvm(d, sizes[d]);
    OkMem(m);
    if r.NoRoom? {
      AllStay(mem0, own0, m.mem, m.lo, m.hi, sizes);
      return Failed, sizes;
    }
    NewSpaceTouches(mem0, own0, m.mem, m.own, r.d);
    FreshDir(mem0, own0, m.mem, m.own, m.lo, m.hi, r.d, sizes);
    OthersStay(mem0, own0, m.mem, m.own, m.lo, m.hi, r.d, sizes);
    CopiedView(mem0, own0, m.mem, m.own, m.lo, m.hi, d, r.d, sizes[d], m.dataPage);
    return Made(r.d), sizes[r.d := sizes[d]];
  }

  method ServeDrop(m: Machine, sizes: map<nat, nat>, d: nat) returns (sizes': map<nat, nat>)
    requires Table(m, sizes) && d in sizes
    modifies m
    ensures Served(m, sizes', old(View(m.mem, sizes)), Drop(d), Done)
  {
    hide SpaceOk, FreeOk, NoOrphans, OnlyTouches, Pte, Present, UserPages, Gone;
    ghost var mem0, own0 := m.mem, m.own;
    m.Freevm(d);
    OkMem(m);
    GoneTouches(Memory(mem0, own0), Memory(m.mem, m.own), d);
    OthersStay(mem0, own0, m.mem, m.own, m.lo, m.hi, d, sizes);
    return sizes - {d};
  }

  method ServeGrow(m: Machine, sizes: map<nat, nat>, d: nat, sz: nat) returns (o: Outcome, sizes': map<nat, nat>)
    requires Table(m, sizes) && d in sizes && sizes[d] < sz
    modifies m
    ensures Served(m, sizes', old(View(m.mem, sizes)), Resize(d, sz), o)
    ensures o.Failed? <==> old(Refused(m.mem, |m.free|, sizes, Resize(d, sz)))
  {
    hide SpaceOk, FreeOk, NoOrphans, OnlyTouches, Pte, Present, UserPages, Grown, Restored, Need, Tabled, Resized;
    ghost var mem0, own0 := m.mem, m.own;
    DirInMemory(mem0, own0, m.lo, m.hi, d);
    var r := m.Allocuvm(d, sizes[d], sz);
    OkMem(m);
    if r == 0 {
      if sz < KERNBASE {
        GrownTouches(mem0, own0, m.mem, m.own, d, PageUp(sizes[d]), PageUp(sz));
        OthersStay(mem0, own0, m.mem, m.own, m.lo, m.hi, d, sizes);
        RestoredView(mem0, own0, m.mem, m.own, m.lo, m.hi, d, sizes[d]);
      }
      return Failed, sizes;
    }
    GrownTouches(mem0, own0, m.mem, m.own, d, PageUp(sizes[d]), PageUp(sz));
    OthersStay(mem0, own0, m.mem, m.own, m.lo, m.hi, d, sizes);
    GrownView(mem0, own0, m.mem, m.own, m.lo, m.hi, d, sizes[d], sz);
    ResizedIs(AddressSpace(sizes[d], UserPages(mem0, d, sizes[d])), sz);
    return Done, sizes[d := sz];
  }

  method ServeShrink(m: Machine, sizes: map<nat, nat>, d: nat, sz: nat) returns (sizes': map<nat, nat>)
    requires Table(m, sizes) && d in sizes && sz <= sizes[d]
    modifies m
    ensures Served(m, sizes', old(View(m.mem, sizes)), Resize(d, sz), Done)
    ensures !old(Refused(m.mem, |m.free|, sizes, Resize(d, sz)))
  {
    hide SpaceOk, FreeOk, NoOrphans, OnlyTouches, Pte, Present, Shrunk;
    ghost var mem0, own0 := m.mem, m.own;
    DirInMemory(mem0, own0, m.lo, m.hi, d);
    var _ := m.Deallocuvm(d, sizes[d], sz);
    OkMem(m);
    if sz < sizes[d] {
      ShrunkTouches(mem0, own0, m.mem, m.own, d, PageUp(sz), PageUp(sizes[d]));
      OthersStay(mem0, own0, m.mem, m.own, m.lo, m.hi, d, sizes);
      ShrunkView(mem0, own0, m.mem, m.own, m.lo, m.hi, d, sizes[d], sz);
    } else {
      assert UserPages(mem0, d, sz)[..PageUp(sz)] == UserPages(mem0, d, sz);
    }
    return sizes[d := sz];
  }

  /** One request. It fails exactly if it is refused, and then changes no address space. */
  method Serve(m: Machine, sizes: map<nat, nat>, r: Request) returns (o: Outcome, sizes': map<nat, nat>)
    requires Table(m, sizes)
    modifies m
    ensures Served(m, sizes', old(View(m.mem, sizes)), r, o)
    ensures o.Failed? <==> old(Refused(m.mem, |m.free|, sizes, r))
  {
    hide Served, Table, View;
    match r
    case Make =>
      o, sizes' := ServeMake(m, sizes);
    case Resize(d, sz) =>
      if d !in sizes {
        NotServed(m, sizes, r);
        return Failed, sizes;
      }
      if sizes[d] < sz {
        o, sizes' := ServeGrow(m, sizes, d, sz);
      } else {
        sizes' := ServeShrink(m, sizes, d, sz);
        o := Done;
      }
    case Duplicate(d) =>
      if d !in sizes {
        NotServed(m, sizes, r);
        return Failed, sizes;
      }
      o, sizes' := ServeCopy(m, sizes, d);
    case Drop(d) =>
      if d !in sizes {
        NotServed(m, sizes, r);
        return Failed, sizes;
      }
      sizes' := ServeDrop(m, sizes, d);
      o := Done;
  }

  lemma NotServed(m: Machine, sizes: map<nat, nat>, r: Request)
    requires Table(m, sizes)
    ensures Served(m, sizes, View(m.mem, sizes), r, Failed)
  {
  }

  /** Any requests in turn: every address space is what the requests on it have made of it, and
      the copies made of it what it was then. */
  method ServeAll(m: Machine, sizes: map<nat, nat>, rs: seq<Request>) returns (os: seq<Outcome>, sizes': map<nat, nat>)
    requires Table(m, sizes)
    modifies m
    ensures |os| == |rs| && Table(m, sizes')
    ensures View(m.mem, sizes') == StepAll(old(View(m.mem, sizes)), rs, os)
  {
    hide Step, View, Table;
    ghost var before := View(m.mem, sizes);
    os, sizes' := [], sizes;
    for k := 0 to |rs|
      invariant |os| == k && Table(m, sizes') && View(m.mem, sizes') == StepAll(before, rs[..k], os)
    {
      var o;
      o, sizes' := Serve(m, sizes', rs[k]);
      assert rs[..k + 1][..k] == rs[..k] && (os + [o])[..k] == os;
      os := os + [o];
    }
    assert rs[..|rs|] == rs;
  }
}
