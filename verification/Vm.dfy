/** kalloc.c and vm.c: the page allocator, and address spaces built from its pages. */
module Vms {
  import opened Common
  import opened VmSpec
  import opened VmGrowth

  /** How mappages ends: with 0, with -1 for want of a page for a page table, or in the panic
      "remap". */
  datatype Mapping = Mapped | NoPage | Remap

  /** How copyuvm ends; PagePanic is one of its two panics, of a page that is absent. */
  datatype CopyResult = Copy(d: nat) | NoRoom | PagePanic

  class Machine {
    var mem: seq<Page>
    var freelist: int
    /** The pages a kernel may allocate: from `end` to PHYSTOP. */
    const lo: nat
    const hi: nat
    /** The kernel's mappings; see KernelPte. */
    const dataPage: nat
    ghost var free: seq<nat>
    ghost var own: seq<Owner>

    ghost predicate Ok()
      reads this
    {
      FreeOk(mem, own, lo, hi, freelist, free) && NoOrphans(own)
    }

    ghost predicate Space(d: nat)
      reads this
    {
      SpaceOk(mem, own, lo, hi, d)
    }

    constructor (mem: seq<Page>, lo: nat, hi: nat, dataPage: nat, freelist: int, ghost free: seq<nat>,
                 ghost own: seq<Owner>)
      requires FreeOk(mem, own, lo, hi, freelist, free) && NoOrphans(own)
      ensures Ok() && this.mem == mem && this.own == own && this.lo == lo && this.hi == hi && this.dataPage == dataPage
    {
      this.mem, this.freelist, this.lo, this.hi, this.dataPage := mem, freelist, lo, hi, dataPage;
      this.free, this.own := free, own;
    }

    /** kalloc: a page from the free list, for directory `d`, or to become one. */
    method Kalloc(ghost d: Option<nat>) returns (r: Option<nat>)
      requires Ok() && (d.Some? ==> d.value < |own| && own[d.value] == Dir(d.value))
      modifies this`freelist, this`free, this`own
      ensures Ok() && mem == old(mem)
      ensures r.None? <==> old(free) == []
      ensures r.None? ==> unchanged(this)
      ensures r.Some? ==>
        && lo <= r.value < hi <= |own| && old(own)[r.value] == FreePage
        && own == old(own)[r.value := if d.Some? then Loose(d.value) else Dir(r.value)]
        && old(free) == [r.value] + free
    {
      var p := freelist;
      if p == 0 {
        assert free == [] by {
          assert free != [] ==> FreeAt(mem, own, lo, hi, free, 0);
        }
        return None;
      }
      ghost var o := if d.Some? then Loose(d.value) else Dir(p);
      Pop(mem, own, lo, hi, freelist, free, o);
      freelist := mem[p][0];
      free, own := free[1..], own[p := o];
      return Some(p);
    }

    /** kfree: the page gets junk and goes to the front of the free list. */
    method Kfree(p: nat)
      requires Ok() && lo <= p < hi && own[p] != FreePage
      requires own[p].Dir? ==> forall q :: 0 <= q < |own| && q != p ==> !OwnedBy(own[q], own[p].d)
      modifies this
      ensures Ok() && own == old(own)[p := FreePage] && free == [p] + old(free)
      ensures |mem| == |old(mem)| && |mem[p]| == NPTENTRIES && mem == old(mem)[p := mem[p]]
      ensures mem[p][0] == old(freelist) && forall i :: 0 < i < NPTENTRIES ==> mem[p][i] == 0x0101_0101
    {
      var junk := Filled(0x0101_0101);
      Push(mem, own, lo, hi, freelist, free, p, junk[0 := freelist]);
      mem := mem[p := junk[0 := freelist]];
      freelist := p;
      free, own := [p] + free, own[p := FreePage];
    }

    /** freerange, at boot: every whole page between two addresses goes to the free list. */
    method Freerange(start: nat, end: nat)
      requires Ok()
      requires PageUp(start) < end / PGSIZE ==> lo <= PageUp(start) && end / PGSIZE <= hi <= |own|
      requires forall p :: PageUp(start) <= p < end / PGSIZE && p < |own| ==> own[p] == Held
      modifies this
      ensures Ok() && |own| == |old(own)| && |mem| == |old(mem)|
      ensures forall p :: 0 <= p < |own| ==>
        own[p] == if PageUp(start) <= p < end / PGSIZE then FreePage else old(own)[p]
      ensures forall p :: 0 <= p < |own| && !(PageUp(start) <= p < end / PGSIZE) ==> mem[p] == old(mem)[p]
      ensures |free| == |old(free)| + if PageUp(start) < end / PGSIZE then end / PGSIZE - PageUp(start) else 0
    {
      hide FreeOk, NoOrphans;
      StillOk(mem, own, lo, hi, freelist, free);
      var first := PageUp(start);
      var p := first;
      while (p + 1) * PGSIZE <= end
        invariant Ok() && first <= p && (p > first ==> p <= end / PGSIZE)
        invariant |own| == |old(own)| && |mem| == |old(mem)| && |mem| == |own|
        invariant forall q :: 0 <= q < |own| ==> own[q] == if first <= q < p then FreePage else old(own)[q]
        invariant forall q :: 0 <= q < |own| && !(first <= q < p) ==> mem[q] == old(mem)[q]
        invariant |free| == |old(free)| + (p - first)
        decreases end / PGSIZE - p
      {
        assert p < end / PGSIZE;
        Kfree(p);
        StillOk(mem, own, lo, hi, freelist, free);
        p := p + 1;
      }
    }

    /** walkpgdir: the page table that holds entry `v`, made if `alloc` says so. */
    method Walkpgdir(d: nat, v: nat, alloc: bool) returns (r: Option<nat>)
      requires Ok() && Space(d) && v < VPAGES
      modifies this
      ensures Ok() && Space(d) && Grows(old(mem), old(own), mem, own, d)
      ensures forall u: nat :: u < VPAGES ==> Pte(mem, d, u) == Pte(old(mem), d, u)
      ensures forall u: nat :: u < VPAGES ==> Translate(mem, d, u) == Translate(old(mem), d, u)
      ensures forall p :: 0 <= p < |own| && old(own)[p] != FreePage ==> own[p] == old(own)[p]
      ensures r.Some? ==>
        var pde := mem[d][v / NPTENTRIES];
        Present(pde) && Writable(pde) && ForUser(pde) && r.value == PteAddr(pde)
      ensures r.Some? ==>
        && Tabled(mem[d]) == Tabled(old(mem)[d])[v / NPTENTRIES := true]
        && (if Tabled(old(mem)[d])[v / NPTENTRIES] then free == old(free) else |free| == |old(free)| - 1)
      ensures r.None? ==> unchanged(this) && !Present(mem[d][v / NPTENTRIES]) && (alloc ==> free == [])
      ensures !alloc || Present(old(mem[d][v / NPTENTRIES])) ==> unchanged(this)
    {
      var pde := mem[d][v / NPTENTRIES];
      GrowsSelf(mem, own, d);
      TabledAfter(mem[d], v / NPTENTRIES, 1);
      if Present(pde) {
        assert TableAt(mem, own, lo, hi, d, v / NPTENTRIES);
        return Some(PteAddr(pde));
      }
      if !alloc {
        return None;
      }
      var t;
      t := TakePage(d, Filled(0));
      if t.None? {
        return None;
      }
      ghost var mem0, own0 := mem, own;
      AddTable(mem, own, lo, hi, d, v / NPTENTRIES, t.value);
      TabledAfter(mem[d], v / NPTENTRIES, Entry(t.value, PTE_W + PTE_U));
      mem := mem[d := mem[d][v / NPTENTRIES := Entry(t.value, PTE_W + PTE_U)]];
      own := own[t.value := Table(d, v / NPTENTRIES)];
      FreeKept(mem0, own0, lo, hi, freelist, free, mem, own);
      assert TableAt(mem, own, lo, hi, d, v / NPTENTRIES);
      SameAccess(old(mem), old(own), mem, own, lo, hi, d);
      return t;
    }

    /** A page for directory `d`, filled with `contents`. */
    method TakePage(ghost d: nat, contents: Page) returns (r: Option<nat>)
      requires Ok() && Space(d) && |contents| == NPTENTRIES
      modifies this
      ensures Ok() && Space(d)
      ensures forall u: nat :: u < VPAGES ==> Pte(mem, d, u) == Pte(old(mem), d, u)
      ensures r.None? ==> unchanged(this) && free == []
      ensures r.Some? ==>
        && lo <= r.value < hi && old(own)[r.value] == FreePage && own == old(own)[r.value := Loose(d)]
        && mem == old(mem)[r.value := contents] && r.value != d && |free| == |old(free)| - 1
    {
      ghost var mem0, own0 := mem, own;
      r := Kalloc(Some(d));
      if r.None? {
        return;
      }
      RetagTables(mem, own0, lo, hi, d, r.value, Loose(d));
      DataSame(mem, own0, lo, hi, d, mem, own);
      ghost var own1 := own;
      WritePage(mem, own, lo, hi, d, r.value, contents);
      mem := mem[r.value := contents];
      DataSame(mem0, own1, lo, hi, d, mem, own);
      FreeKept(mem0, own1, lo, hi, freelist, free, mem, own);
    }

    /** Page `p` was taken for directory `d` and is not mapped yet. */
    ghost predicate IsLoose(d: nat, p: int)
      reads this
    {
      lo <= p < hi && p < |own| && own[p] == Loose(d)
    }

    /** mappages: entries for the virtual pages from `va` to `va + size - 1`, onto the
        physical pages from `pa` on, as far as the first page that is mapped already, where
        it panics. `upto` is the first page not mapped. */
    method Mappages(d: nat, va: nat, size: nat, pa: nat, perm: nat) returns (r: Mapping, ghost upto: nat)
      requires Ok() && Space(d) && 0 < size && va + size <= VPAGES * PGSIZE && perm < PGSIZE && pa % PGSIZE == 0
      requires forall p :: pa / PGSIZE <= p <= pa / PGSIZE + ((va + size - 1) / PGSIZE - va / PGSIZE) ==>
        p - pa / PGSIZE + va / PGSIZE < USERPAGES ==> IsLoose(d, p)
      modifies this
      ensures Ok() && Space(d) && Grows(old(mem), old(own), mem, own, d)
      ensures var a, end := va / PGSIZE, (va + size - 1) / PGSIZE + 1;
        var stop := FirstPresent(old(mem), d, a, end);
        && (r.NoPage? <==> |old(free)| < Need(Tabled(old(mem)[d]), a, stop, 0))
        && (r.Remap? <==> |old(free)| >= Need(Tabled(old(mem)[d]), a, stop, 0) && stop < end)
        && a <= upto <= stop && (if r.NoPage? then upto < stop && free == [] else upto == stop)
        && (!r.NoPage? ==> |free| == |old(free)| - Need(Tabled(old(mem)[d]), a, stop, 0))
        && (!r.NoPage? ==> Tabled(mem[d]) == Opened(Tabled(old(mem)[d]), a, stop))
      ensures forall v: nat :: v < VPAGES ==>
        Pte(mem, d, v)
        == if va / PGSIZE <= v < upto then Entry(pa / PGSIZE + (v - va / PGSIZE), perm) else Pte(old(mem), d, v)
      ensures forall v: nat :: v < VPAGES ==>
        Translate(mem, d, v)
        == if va / PGSIZE <= v < upto then Access(pa / PGSIZE + (v - va / PGSIZE), Writable(perm), ForUser(perm))
           else Translate(old(mem), d, v)
      ensures forall p :: 0 <= p < |own| && old(own)[p] == Loose(d) && own[p] != Loose(d) ==>
        pa / PGSIZE <= p < pa / PGSIZE + (upto - va / PGSIZE) && p - pa / PGSIZE + va / PGSIZE < USERPAGES
    {
      hide TablesOk, DataOk, FreeOk, NoOrphans, Grows, Pte, Present, Tabled, Need, Opened, FirstPresent;
      hide Translate;
      r, upto := MapRange(d, va / PGSIZE, (va + size - 1) / PGSIZE, pa / PGSIZE, perm);
      MappedAccess(old(mem), old(own), mem, own, lo, hi, d, va / PGSIZE, upto, pa / PGSIZE, perm);
    }

    /** The loop of mappages, in page numbers: the virtual pages `first` to `last` onto the
        physical pages from `base` on. */
    method MapRange(d: nat, first: nat, last: nat, base: nat, perm: nat) returns (r: Mapping, ghost upto: nat)
      requires Ok() && Space(d) && first <= last < VPAGES && perm < PGSIZE
      requires forall p :: base <= p <= base + (last - first) && p - base + first < USERPAGES ==> IsLoose(d, p)
      modifies this
      ensures Ok() && Space(d) && Grows(old(mem), old(own), mem, own, d)
      ensures var stop := FirstPresent(old(mem), d, first, last + 1);
        && (r.NoPage? <==> |old(free)| < Need(Tabled(old(mem)[d]), first, stop, 0))
        && (r.Remap? <==> |old(free)| >= Need(Tabled(old(mem)[d]), first, stop, 0) && stop <= last)
        && first <= upto <= stop && (if r.NoPage? then upto < stop && free == [] else upto == stop)
        && (!r.NoPage? ==> |free| == |old(free)| - Need(Tabled(old(mem)[d]), first, stop, 0))
        && (!r.NoPage? ==> Tabled(mem[d]) == Opened(Tabled(old(mem)[d]), first, stop))
      ensures forall v: nat :: v < VPAGES ==>
        Pte(mem, d, v) == if first <= v < upto then Entry(base + (v - first), perm) else Pte(old(mem), d, v)
      ensures forall p :: 0 <= p < |own| && old(own)[p] == Loose(d) && own[p] != Loose(d) ==>
        base <= p < base + (upto - first) && p - base + first < USERPAGES
    {
      hide TablesOk, DataOk, FreeOk, NoOrphans, Grows, Pte, Present, Tabled, Need, Opened, FirstPresent;
      OwnLength(mem, own, lo, hi, d);
      var a, page := first, base;
      ghost var stop, tables := FirstPresent(mem, d, first, last + 1), Tabled(mem[d]);
      ghost var spare := |free| - Need(tables, first, stop, 0);
      TabledLength(mem, own, lo, hi, d, a);
      OpenedStep(tables, first, a);
      GrowsSelf(mem, own, d);
      while true
        invariant Ok() && Space(d) && Grows(old(mem), old(own), mem, own, d)
        invariant |own| == |old(own)| && first <= a <= last && a <= stop && page == base + (a - first)
        invariant forall v: nat :: v < VPAGES ==>
          Pte(mem, d, v) == if first <= v < a then Entry(base + (v - first), perm) else Pte(old(mem), d, v)
        invariant forall p :: 0 <= p < |own| && old(own)[p] == Loose(d) && own[p] != Loose(d) ==>
          base <= p < page && p - base + first < USERPAGES
        invariant d < |mem| && |free| - Need(Tabled(mem[d]), a, stop, 0) == spare
        invariant Tabled(mem[d]) == Opened(tables, first, a)
        decreases last - a
      {
        TabledLength(mem, own, lo, hi, d, a);
        OpenedStep(tables, first, a);
        if a < stop {
          NeedStep(Tabled(mem[d]), a, stop, 0);
        } else {
          NeedNone(Tabled(mem[d]), a, 0);
        }
        assert Pte(mem, d, a) == Pte(old(mem), d, a) && (a < USERPAGES ==> old(IsLoose(d, page)));
        ghost var mem0, own0 := mem, own;
        r := MapEntry(d, a, page, perm);
        if !r.Mapped? {
          return r, a;
        }
        GrowsTrans(old(mem), old(own), mem0, own0, mem, own, d);
        if a == last {
          NeedNone(Tabled(mem[d]), a + 1, 0);
          return Mapped, a + 1;
        }
        a := a + 1;
        page := page + 1;
      }
    }

    /** One round of mappages. */
    method MapEntry(d: nat, v: nat, page: nat, perm: nat) returns (r: Mapping)
      requires Ok() && Space(d) && v < VPAGES && perm < PGSIZE
      requires v < USERPAGES ==> lo <= page < hi && page < |own| && own[page] == Loose(d)
      modifies this
      ensures Ok() && Space(d) && d < |mem| == |own| == |old(own)|
      ensures r.Remap? <==> Present(Pte(old(mem), d, v))
      ensures r.NoPage? ==> free == [] && !Tabled(old(mem)[d])[v / NPTENTRIES]
      ensures !r.Mapped? ==> unchanged(this)
      ensures r.Mapped? ==> Grows(old(mem), old(own), mem, own, d)
      ensures r.Mapped? ==>
        forall u: nat :: u < VPAGES ==> Pte(mem, d, u) == if u == v then Entry(page, perm) else Pte(old(mem), d, u)
      ensures r.Mapped? ==>
        && Tabled(mem[d]) == Tabled(old(mem)[d])[v / NPTENTRIES := true]
        && (if Tabled(old(mem)[d])[v / NPTENTRIES] then |free| == |old(free)| else |free| == |old(free)| - 1)
      ensures r.Mapped? ==>
        forall p :: 0 <= p < |own| && old(own)[p] == Loose(d) && own[p] != Loose(d) ==> p == page && v < USERPAGES
    {
      hide TablesOk, DataOk, FreeOk, NoOrphans, Grows, Pte, Present, Tabled;
      OwnLength(mem, own, lo, hi, d);
      TabledLength(mem, own, lo, hi, d, v);
      NoEntry(mem, d, v);
      var pte := Walkpgdir(d, v, true);
      OwnLength(mem, own, lo, hi, d);
      if pte.None? {
        return NoPage;
      }
      EntryIs(mem, own, lo, hi, d, v);
      if Present(mem[pte.value][v % NPTENTRIES]) {
        return Remap;
      }
      GrowsLength(old(mem), old(own), mem, own, d);
      ghost var mem1, own1 := mem, own;
      SetEntry(d, v, pte.value, page, perm);
      GrowsTrans(old(mem), old(own), mem1, own1, mem, own, d);
      GrowsLength(mem1, own1, mem, own, d);
      return Mapped;
    }

    /** `*pte = pa | perm | PTE_P`. */
    method SetEntry(d: nat, v: nat, t: nat, page: nat, perm: nat)
      requires Ok() && Space(d) && v < VPAGES && perm < PGSIZE
      requires Present(mem[d][v / NPTENTRIES]) && t == PteAddr(mem[d][v / NPTENTRIES]) && !Present(Pte(mem, d, v))
      requires v < USERPAGES ==> lo <= page < hi && own[page] == Loose(d)
      modifies this
      ensures Ok() && Space(d) && Grows(old(mem), old(own), mem, own, d)
      ensures forall u: nat :: u < VPAGES ==>
        Pte(mem, d, u) == if u == v then Entry(page, perm) else Pte(old(mem), d, u)
      ensures own == if v < USERPAGES then old(own)[page := Data(d, v)] else old(own)
      ensures free == old(free) && mem[d] == old(mem)[d]
    {
      ghost var mem0, own0 := mem, own;
      SetPte(mem, own, lo, hi, d, v, Entry(page, perm));
      mem := mem[t := mem[t][v % NPTENTRIES := Entry(page, perm)]];
      if v < USERPAGES {
        RetagTables(mem, own, lo, hi, d, page, Data(d, v));
        own := own[page := Data(d, v)];
      }
      DataChanged(mem0, own0, lo, hi, d, mem, own, v, if v < USERPAGES then page else 0);
      FreeKept(mem0, own0, lo, hi, freelist, free, mem, own);
    }

    /** deallocuvm: unmaps and frees the user pages from PGROUNDUP(newsz) up to oldsz. The
        jump over absent page tables leaves out nothing. */
    method Deallocuvm(d: nat, oldsz: nat, newsz: nat) returns (r: nat)
      requires Ok() && Space(d) && oldsz <= KERNBASE
      modifies this
      ensures Ok() && Space(d)
      ensures r == if newsz >= oldsz then oldsz else newsz
      ensures newsz >= oldsz ==> unchanged(this)
      ensures newsz < oldsz ==> Shrunk(old(mem), old(own), mem, own, d, PageUp(newsz), PageUp(oldsz))
      ensures newsz < oldsz ==> forall v: nat :: v < VPAGES ==>
        Translate(mem, d, v) == if PageUp(newsz) <= v < PageUp(oldsz) then Fault else Translate(old(mem), d, v)
    {
      hide TablesOk, DataOk, FreeOk, NoOrphans, Shrunk, Pte, Present, Translate;
      if newsz >= oldsz {
        return oldsz;
      }
      ghost var mem0, own0, from, end := mem, own, PageUp(newsz), PageUp(oldsz);
      OwnLength(mem, own, lo, hi, d);
      ShrunkNone(mem, own, d, from);
      PagesBelow(newsz, oldsz);
      var a := PageUp(newsz);
      while a * PGSIZE < oldsz
        invariant Ok() && Space(d) && from <= a && (a * PGSIZE < oldsz <==> a < end) && end <= USERPAGES
        invariant Shrunk(mem0, own0, mem, own, d, from, if a < end then a else end)
        decreases end - a
      {
        var pte := Walkpgdir(d, a, false);
        OwnLength(mem, own, lo, hi, d);
        if pte.None? {
          NoTable(mem, d, a);
          var next := (a / NPTENTRIES + 1) * NPTENTRIES - 1;
          ShrunkSkip(mem0, own0, mem, own, lo, hi, d, from, a, if next + 1 < end then next + 1 else end);
          a := next;
        } else {
          EntryIs(mem, own, lo, hi, d, a);
          if Present(mem[pte.value][a % NPTENTRIES]) {
            ghost var mem1, own1, p := mem, own, PteAddr(Pte(mem, d, a));
            ClearEntry(d, a, pte.value);
            OwnLength(mem, own, lo, hi, d);
            ShrunkStep(mem0, own0, mem1, own1, lo, hi, d, from, a, mem, own, p);
          } else {
            ShrunkSkip(mem0, own0, mem, own, lo, hi, d, from, a, a + 1);
          }
        }
        a := a + 1;
        PagesBelow(a * PGSIZE, oldsz);
      }
      ShrunkAccess(mem0, own0, mem, own, lo, hi, d, from, end);
      return newsz;
    }

    /** `kfree(P2V(PTE_ADDR(*pte))); *pte = 0`. */
    method ClearEntry(d: nat, v: nat, t: nat)
      requires Ok() && Space(d) && v < USERPAGES
      requires Present(mem[d][v / NPTENTRIES]) && t == PteAddr(mem[d][v / NPTENTRIES]) && Present(Pte(mem, d, v))
      modifies this
      ensures Ok() && Space(d) && |mem| == |old(mem)|
      ensures var p := PteAddr(Pte(old(mem), d, v));
        && 0 <= p < |own| && own == old(own)[p := FreePage]
        && forall q :: 0 <= q < |mem| && q != p && !(old(own)[q].Table? && old(own)[q].d == d) ==> mem[q] == old(mem)[q]
      ensures forall u: nat :: u < VPAGES ==> Pte(mem, d, u) == if u == v then 0 else Pte(old(mem), d, u)
    {
      ghost var mem0, own0 := mem, own;
      assert TableAt(mem, own, lo, hi, d, v / NPTENTRIES) && DataAt(mem, own, lo, hi, d, v);
      var p := PteAddr(mem[t][v % NPTENTRIES]);
      Kfree(p);
      RetagTables(mem0, own0, lo, hi, d, p, FreePage);
      WritePage(mem0, own, lo, hi, d, p, mem[p]);
      ghost var mem1 := mem;
      SetPte(mem, own, lo, hi, d, v, 0);
      mem := mem[t := mem[t][v % NPTENTRIES := 0]];
      DataChanged(mem0, own0, lo, hi, d, mem, own, v, p);
      FreeKept(mem1, own, lo, hi, freelist, free, mem, own);
    }

    /** freevm: the user pages, then the page tables, then the directory. */
    method Freevm(d: nat)
      requires Ok() && Space(d) && NoLoose(own, d)
      modifies this
      ensures Ok() && Gone(old(mem), old(own), mem, own, d)
    {
      hide TablesOk, DataOk, FreeOk, NoOrphans, Shrunk, Going, Gone, NoLoose;
      ghost var mem0, own0 := mem, own;
      var _ := Deallocuvm(d, KERNBASE, 0);
      ghost var mem1, own1 := mem, own;
      OwnLength(mem, own, lo, hi, d);
      GoingNone(mem, own, d);
      var i := 0;
      while i < NPDENTRIES
        invariant Ok() && 0 <= i <= NPDENTRIES && Going(mem1, own1, mem, own, d, i)
      {
        GoingStep(mem1, own1, lo, hi, mem, own, d, i, []);
        if Present(mem[d][i]) {
          var t := PteAddr(mem[d][i]);
          ghost var mem2, own2 := mem, own;
          Kfree(t);
          GoingStep(mem1, own1, lo, hi, mem2, own2, d, i, mem[t]);
        }
        i := i + 1;
      }
      LastPage(mem0, own0, lo, hi, mem1, own1, mem, own, d, []);
      ghost var mem2, own2 := mem, own;
      Kfree(d);
      LastPage(mem0, own0, lo, hi, mem1, own1, mem2, own2, d, mem[d]);
    }

    /** setupkvm: a new directory with the kernel's mappings and no user page. */
    method Setupkvm() returns (r: Option<nat>)
      requires Ok() && DataPageOk(dataPage)
      modifies this
      ensures Ok()
      ensures r.Some? <==> |old(free)| >= KERNELPAGES
      ensures r.None? ==> own == old(own) && |mem| == |old(mem)|
      ensures r.None? ==> forall p :: 0 <= p < |own| && own[p] != FreePage ==> mem[p] == old(mem)[p]
      ensures r.Some? ==>
        && Space(r.value) && NoLoose(own, r.value) && NewSpace(old(mem), old(own), mem, own, r.value)
        && r.value < |old(own)| && old(own)[r.value] == FreePage
        && |free| == |old(free)| - KERNELPAGES && r.value < |mem|
        && Tabled(mem[r.value]) == KernelTables(NKMAP, dataPage)
        && (forall v: nat :: v < VPAGES ==> Pte(mem, r.value, v) == KernelPte(v, dataPage))
        && (forall v: nat :: v < VPAGES ==> Translate(mem, r.value, v) == KernelAccess(v, dataPage))
    {
      hide Translate, KernelAccess;
      hide TablesOk, DataOk, FreeOk, NoOrphans, NewSpace, Gone, NoLoose, Grows, Pte, Present, KmapRow;
      hide Region, KernelPte, Tabled, Need, Opened, KernelTables;
      ghost var mem0, own0 := mem, own;
      r := NewDirectory();
      if r.None? {
        return;
      }
      var d := r.value;
      var k := 0;
      while k < NKMAP
        invariant Ok() && 0 <= k <= NKMAP && Space(d) && NoLoose(own, d) && NewSpace(mem0, own0, mem, own, d)
        invariant forall v: nat :: v < VPAGES ==>
          Pte(mem, d, v) == if Region(v, dataPage) < k then KernelPte(v, dataPage) else 0
        invariant d < |mem| && Tabled(mem[d]) == KernelTables(k, dataPage)
        invariant |free| == |old(free)| - 1 - KernelNeed(k, dataPage)
      {
        KernelRow(k, dataPage);
        var row := KmapRow(k, dataPage);
        KmapMeaning(k, dataPage, 0);
        forall v: nat | v < VPAGES
          ensures row.virt / PGSIZE <= v < (row.virt + (row.end - row.start) - 1) / PGSIZE + 1 <==>
            Region(v, dataPage) == k
          ensures Region(v, dataPage) == k ==>
            KernelPte(v, dataPage) == Entry(row.start / PGSIZE + (v - row.virt / PGSIZE), row.perm)
        {
          KmapMeaning(k, dataPage, v);
        }
        NotPresent();
        ghost var mem1, own1 := mem, own;
        var mapping, upto := Mappages(d, row.virt, row.end - row.start, row.start, row.perm);
        OwnLength(mem, own, lo, hi, d);
        NewSpaceGrows(mem0, own0, mem1, own1, mem, own, d);
        if !mapping.Mapped? {
          ghost var mem2, own2 := mem, own;
          Freevm(d);
          BuiltAndGone(mem0, own0, mem2, own2, mem, own, d);
          return None;
        }
        k := k + 1;
      }
      forall v: nat | v < VPAGES
        ensures Pte(mem, d, v) == KernelPte(v, dataPage)
      {
        RegionRange(v, dataPage);
      }
      KernelAccessIs(mem, own, lo, hi, d, dataPage, 0);
    }

    /** A zeroed page to be a directory. */
    method NewDirectory() returns (r: Option<nat>)
      requires Ok()
      modifies this
      ensures Ok()
      ensures r.None? ==> unchanged(this) && free == []
      ensures r.Some? ==>
        && |free| == |old(free)| - 1 && r.value < |mem| && Tabled(mem[r.value]) == KernelTables(0, dataPage)
        && Space(r.value) && NoLoose(own, r.value) && NewSpace(old(mem), old(own), mem, own, r.value)
        && r.value < |old(own)| && old(own)[r.value] == FreePage
        && forall v: nat :: v < VPAGES ==> Pte(mem, r.value, v) == 0
    {
      ghost var own0 := own;
      r := Kalloc(None);
      if r.None? {
        return;
      }
      EmptySpace(mem, own0, lo, hi, r.value);
      ghost var mem1 := mem;
      mem := mem[r.value := Filled(0)];
      FreeKept(mem1, own, lo, hi, freelist, free, mem, own);
      assert Tabled(mem[r.value]) == KernelTables(0, dataPage);
    }

    /** One round of allocuvm: a zeroed page, mapped at virtual page `a`. If that fails the
        page, if there is one, is still in hand. */
    method MapZeroed(d: nat, a: nat, ghost mem0: seq<Page>, ghost own0: seq<Owner>,
                     ghost from: nat) returns (ok: bool, page: Option<nat>)
      requires Ok() && Space(d) && Grown(mem0, own0, mem, own, d, from, a, -1) && from <= a < USERPAGES
      requires !Present(Pte(mem0, d, a))
      modifies this
      ensures Ok() && Space(d) && d < |mem|
      ensures ok ==>
        && Grown(mem0, own0, mem, own, d, from, a + 1, -1)
        && Tabled(mem[d]) == Tabled(old(mem)[d])[a / NPTENTRIES := true]
        && |free| == |old(free)| - if Tabled(old(mem)[d])[a / NPTENTRIES] then 1 else 2
      ensures !ok ==>
        && Grown(mem0, own0, mem, own, d, from, a, if page.Some? then page.value else -1)
        && (page.Some? ==>
              && lo <= page.value < hi && page.value < |own| == |own0|
              && own[page.value] == Loose(d) && own0[page.value] == FreePage)
        && |old(free)| < if Tabled(old(mem)[d])[a / NPTENTRIES] then 1 else 2
    {
      hide TablesOk, DataOk, FreeOk, NoOrphans, Grown, Grows, Pte, Present, Tabled, Need, Opened;
      OwnLength(mem, own, lo, hi, d);
      TabledLength(mem, own, lo, hi, d, a);
      ghost var mem1, own1 := mem, own;
      page := TakePage(d, Filled(0));
      if page.None? {
        return false, None;
      }
      GrownTake(mem0, own0, mem1, own1, d, from, a, page.value, mem);
      ghost var mem2, own2 := mem, own;
      NotMapped(mem0, own0, mem, own, d, from, a, page.value);
      NeedOne(Tabled(mem[d]), a);
      OpenedStep(Tabled(mem[d]), a, a);
      var mapping, upto := Mappages(d, a * PGSIZE, PGSIZE, page.value * PGSIZE, PTE_W + PTE_U);
      ok := mapping.Mapped?;
      OwnLength(mem, own, lo, hi, d);
      GrowsLength(mem2, own2, mem, own, d);
      GrownMap(mem0, own0, mem2, own2, lo, hi, d, from, a, page.value, mem, own, ok);
    }

    /** allocuvm: zeroed pages for the user pages from PGROUNDUP(oldsz) up to newsz, or, for
        want of free pages, nothing but some page tables. */
    method Allocuvm(d: nat, oldsz: nat, newsz: nat) returns (r: nat)
      requires Ok() && Space(d)
      requires forall v: nat :: PageUp(oldsz) <= v < PageUp(newsz) && v < USERPAGES ==> !Present(Pte(mem, d, v))
      modifies this
      ensures Ok() && Space(d)
      ensures newsz >= KERNBASE ==> r == 0 && unchanged(this)
      ensures newsz < KERNBASE && newsz < oldsz ==> r == oldsz && unchanged(this)
      ensures oldsz <= newsz < KERNBASE ==>
        var need := Need(Tabled(old(mem)[d]), PageUp(oldsz), PageUp(newsz), 1);
        if |old(free)| >= need then
          && r == newsz && |free| == |old(free)| - need
          && Grown(old(mem), old(own), mem, own, d, PageUp(oldsz), PageUp(newsz), -1)
        else
          r == 0 && Restored(old(mem), old(own), mem, own, d, -1)
      ensures oldsz <= newsz < KERNBASE ==> forall v: nat :: v < VPAGES ==>
        if r == newsz && PageUp(oldsz) <= v < PageUp(newsz) then OpenToUser(Translate(mem, d, v))
        else Translate(mem, d, v) == Translate(old(mem), d, v)
    {
      hide Translate, OpenToUser;
      hide TablesOk, DataOk, FreeOk, NoOrphans, Shrunk, Grown, Restored, Grows, Pte, Present, Tabled, Need;
      if newsz >= KERNBASE {
        return 0;
      }
      if newsz < oldsz {
        return oldsz;
      }
      ghost var mem0, own0, from, end := mem, own, PageUp(oldsz), PageUp(newsz);
      OwnLength(mem, own, lo, hi, d);
      GrownNone(mem, own, d, from);
      PagesBelow(oldsz, newsz);
      var a := PageUp(oldsz);
      while a * PGSIZE < newsz
        invariant Ok() && Space(d) && from <= a <= end <= USERPAGES && (a * PGSIZE < newsz <==> a < end)
        invariant Grown(mem0, own0, mem, own, d, from, a, -1)
        invariant d < |mem|
        invariant |free| - Need(Tabled(mem[d]), a, end, 1) == |old(free)| - Need(Tabled(mem0[d]), from, end, 1)
        decreases end - a
      {
        TabledLength(mem, own, lo, hi, d, a);
        NeedStep(Tabled(mem[d]), a, end, 1);
        var ok, page := MapZeroed(d, a, mem0, own0, from);
        if !ok {
          ghost var mem1, own1, spare: int := mem, own, if page.Some? then page.value else -1;
          var _ := Deallocuvm(d, newsz, oldsz);
          GrownShrunk(mem0, own0, mem1, own1, lo, hi, d, from, a, spare, mem, own, end);
          if page.Some? {
            StillInHand(mem1, own1, mem, own, d, page.value, from, end);
            ghost var mem2, own2 := mem, own;
            Kfree(page.value);
            SpareBack(mem2, own2, lo, hi, d, page.value, mem[page.value]);
            RestoredBack(mem0, own0, mem2, own2, lo, hi, d, page.value, mem[page.value]);
          }
          RestoredAccess(mem0, own0, mem, own, lo, hi, d);
          return 0;
        }
        a := a + 1;
        OwnLength(mem, own, lo, hi, d);
        PagesBelow(a * PGSIZE, newsz);
      }
      NeedNone(Tabled(mem[d]), a, 1);
      GrownAccess(mem0, own0, mem, own, lo, hi, d, from, end);
      return newsz;
    }

    /** One round of copyuvm: virtual page `a` of `d` becomes a copy of physical page `src`.
        If that fails, the page taken for it is free again. */
    method CopyPage(d: nat, a: nat, src: nat, flags: nat, ghost parent: nat, ghost mem0: seq<Page>,
                    ghost own0: seq<Owner>) returns (ok: bool)
      requires Ok() && Space(d) && NoLoose(own, d) && Copying(mem0, own0, mem, own, parent, d, a, dataPage)
      requires a < USERPAGES && flags < PGSIZE
      requires Present(Pte(mem0, parent, a)) && flags == PteFlags(Pte(mem0, parent, a))
      requires src == PteAddr(Pte(mem0, parent, a))
      requires src < |mem| == |mem0| && mem[src] == mem0[src]
      modifies this
      ensures Ok() && Space(d) && NoLoose(own, d) && NewSpace(mem0, own0, mem, own, d) && d < |mem|
      ensures ok ==>
        && Copying(mem0, own0, mem, own, parent, d, a + 1, dataPage)
        && Tabled(mem[d]) == Tabled(old(mem)[d])[a / NPTENTRIES := true]
        && |free| == |old(free)| - if Tabled(old(mem)[d])[a / NPTENTRIES] then 1 else 2
      ensures !ok ==> |old(free)| < if Tabled(old(mem)[d])[a / NPTENTRIES] then 1 else 2
    {
      hide TablesOk, DataOk, FreeOk, NoOrphans, Copied, NewSpace, Grows, Pte, Present;
      hide Tabled, Need, Opened, NoLoose, KernelPte;
      OwnLength(mem, own, lo, hi, d);
      TabledLength(mem, own, lo, hi, d, a);
      ghost var mem1, own1 := mem, own;
      StillOk(mem, own, lo, hi, freelist, free);
      var page := TakePage(d, mem[src]);
      if page.None? {
        return false;
      }
      CopyTake(mem0, own0, mem1, own1, parent, d, a, dataPage, page.value, mem);
      ghost var mem2, own2 := mem, own;
      NotUser(a, dataPage);
      NeedOne(Tabled(mem[d]), a);
      OpenedStep(Tabled(mem[d]), a, a);
      var mapping, upto := Mappages(d, a * PGSIZE, PGSIZE, page.value * PGSIZE, flags);
      ok := mapping.Mapped?;
      OwnLength(mem, own, lo, hi, d);
      NewSpaceGrows(mem0, own0, mem2, own2, mem, own, d);
      if ok {
        CopyMap(mem0, own0, mem2, own2, lo, hi, parent, d, a, dataPage, page.value, mem, own, flags);
        CopyHome(own1, own2, mem2, own, mem, lo, hi, d, a, page.value);
      } else {
        ghost var mem3, own3 := mem, own;
        Kfree(page.value);
        SpareBack(mem3, own3, lo, hi, d, page.value, mem[page.value]);
        NewSpaceBack(mem0, own0, mem3, own3, d, page.value, mem[page.value]);
        SpareHome(own1, mem2, own2, mem3, own3, d, page.value);
      }
    }

    /** copyuvm's look at entry `v` of the parent; None is one of its panics, that the entry
        does not exist or that the page is not present. */
    method PresentEntry(d: nat, v: nat) returns (w: Option<int>)
      requires Ok() && Space(d) && v < VPAGES
      modifies this
      ensures unchanged(this)
      ensures w == if Present(Pte(mem, d, v)) then Some(Pte(mem, d, v)) else None
    {
      hide TablesOk, DataOk, FreeOk, NoOrphans, Grows, Pte, Present, Tabled;
      OwnLength(mem, own, lo, hi, d);
      var pte := Walkpgdir(d, v, false);
      if pte.None? {
        NoTable(mem, d, v);
        assert !Present(Pte(mem, d, v));
        return None;
      }
      EntryIs(mem, own, lo, hi, d, v);
      var e := mem[pte.value][v % NPTENTRIES];
      return if Present(e) then Some(e) else None;
    }

    /** copyuvm: a new address space with a copy of every user page of `pgdir`, or, for want
        of free pages, nothing changed. It panics at the first page below `sz` that is absent,
        if there are free pages for the copies of those before it. */
    method Copyuvm(pgdir: nat, sz: nat) returns (r: CopyResult)
      requires Ok() && Space(pgdir) && DataPageOk(dataPage) && sz <= KERNBASE
      modifies this
      ensures Ok() && Space(pgdir)
      ensures forall v: nat :: v < VPAGES ==> Pte(mem, pgdir, v) == Pte(old(mem), pgdir, v)
      ensures var k := Leading(old(mem), pgdir, PageUp(sz));
        && (r.NoRoom? <==> |old(free)| < KERNELPAGES + UserNeed(k))
        && (r.PagePanic? <==> |old(free)| >= KERNELPAGES + UserNeed(k) && k < PageUp(sz))
      ensures r.NoRoom? ==> own == old(own) && |mem| == |old(mem)|
      ensures r.NoRoom? ==> forall p :: 0 <= p < |own| && own[p] != FreePage ==> mem[p] == old(mem)[p]
      ensures r.PagePanic? ==> exists d: nat :: NewSpace(old(mem), old(own), mem, own, d)
      ensures r.Copy? ==>
        && Space(r.d) && NoLoose(own, r.d) && NewSpace(old(mem), old(own), mem, own, r.d)
        && Copied(old(mem), old(own), mem, own, pgdir, r.d, PageUp(sz))
        && (forall v: nat :: PageUp(sz) <= v < VPAGES ==> Pte(mem, r.d, v) == KernelPte(v, dataPage))
        && (forall v: nat :: v < PageUp(sz) ==>
              SameRights(Translate(mem, r.d, v), Translate(old(mem), pgdir, v)))
        && (forall v: nat :: PageUp(sz) <= v < VPAGES ==> Translate(mem, r.d, v) == KernelAccess(v, dataPage))
    {
      hide Translate, SameRights, KernelAccess;
      hide TablesOk, DataOk, FreeOk, NoOrphans, Copied, NewSpace, Gone, Grows, Pte, Present;
      hide Tabled, Need, NoLoose, KernelTables, KernelPte;
      hide Leading;
      ghost var mem0, own0, end := mem, own, PageUp(sz);
      ghost var stop := Leading(mem0, pgdir, end);
      OwnLength(mem, own, lo, hi, pgdir);
      PagesBelow(0, sz);
      var dir := Setupkvm();
      if dir.None? {
        StillOk(mem, own, lo, hi, freelist, free);
        UsedKept(mem0, own0, mem, lo, hi, pgdir, pgdir + 1);
        return NoRoom;
      }
      var d := dir.value;
      OwnLength(mem, own, lo, hi, d);
      NotDir(mem0, own0, lo, hi, pgdir, d);
      NothingCopied(mem0, own0, mem, own, pgdir, d, dataPage);
      UserNeedKernel(dataPage, stop);
      var a := 0;
      while a * PGSIZE < sz
        invariant Ok() && Space(d) && NoLoose(own, d) && 0 <= a <= stop && (a * PGSIZE < sz <==> a < end) && d < |mem|
        invariant Copying(mem0, own0, mem, own, pgdir, d, a, dataPage)
        invariant |free| - Need(Tabled(mem[d]), a, stop, 1) == |old(free)| - KERNELPAGES - UserNeed(stop)
      {
        TabledLength(mem, own, lo, hi, d, a);
        StillOk(mem, own, lo, hi, freelist, free);
        NewSpaceTouches(mem0, own0, mem, own, d);
        OthersKept(mem0, own0, mem, own, lo, hi, d, pgdir);
        var w := PresentEntry(pgdir, a);
        if w.None? {
          NeedNone(Tabled(mem[d]), a, 1);
          return PagePanic;
        }
        NeedStep(Tabled(mem[d]), a, stop, 1);
        ParentPage(mem0, own0, mem, own, lo, hi, pgdir, d, a);
        var ok := CopyPage(d, a, PteAddr(w.value), PteFlags(w.value), pgdir, mem0, own0);
        if !ok {
          ghost var mem1, own1 := mem, own;
          Freevm(d);
          BuiltAndGone(mem0, own0, mem1, own1, mem, own, d);
          StillOk(mem, own, lo, hi, freelist, free);
          UsedKept(mem0, own0, mem, lo, hi, pgdir, d);
          return NoRoom;
        }
        a := a + 1;
        PagesBelow(a * PGSIZE, sz);
      }
      NeedNone(Tabled(mem[d]), a, 1);
      StillOk(mem, own, lo, hi, freelist, free);
      NewSpaceTouches(mem0, own0, mem, own, d);
      OthersKept(mem0, own0, mem, own, lo, hi, d, pgdir);
      CopiedAccess(mem0, own0, mem, own, lo, hi, pgdir, d, end);
      KernelAccessIs(mem, own, lo, hi, d, dataPage, end);
      return Copy(d);
    }
  }

  function PageUp(size: nat): nat {
    (size + PGSIZE - 1) / PGSIZE
  }

  lemma PagesBelow(a: nat, size: nat)
    requires size <= KERNBASE
    ensures PageUp(size) <= USERPAGES
    ensures a <= size ==> PageUp(a) <= PageUp(size)
    ensures PageUp(a) * PGSIZE < size <==> PageUp(a) < PageUp(size)
    ensures a % PGSIZE == 0 ==> PageUp(a) == a / PGSIZE
  {
  }

  lemma NoEntry(mem: seq<Page>, d: nat, v: nat)
    requires d < |mem| && v < VPAGES && |mem[d]| == NPDENTRIES
    ensures Present(Pte(mem, d, v)) ==> Present(mem[d][v / NPTENTRIES])
  {
  }

  lemma NoTable(mem: seq<Page>, d: nat, a: nat)
    requires d < |mem| && a / NPTENTRIES < |mem[d]| == NPDENTRIES && !Present(mem[d][a / NPTENTRIES])
    ensures forall v: nat :: a <= v < (a / NPTENTRIES + 1) * NPTENTRIES && v < VPAGES ==> !Present(Pte(mem, d, v))
  {
  }

  lemma EntryIs(mem: seq<Page>, own: seq<Owner>, lo: nat, hi: nat, d: nat, v: nat)
    requires SpaceOk(mem, own, lo, hi, d) && v < VPAGES && Present(mem[d][v / NPTENTRIES])
    ensures var t := PteAddr(mem[d][v / NPTENTRIES]);
      0 <= t < |mem| && |mem[t]| == NPTENTRIES && mem[t][v % NPTENTRIES] == Pte(mem, d, v)
  {
    assert TableAt(mem, own, lo, hi, d, v / NPTENTRIES);
  }

  lemma OwnLength(mem: seq<Page>, own: seq<Owner>, lo: nat, hi: nat, d: nat)
    requires SpaceOk(mem, own, lo, hi, d)
    ensures |mem| == |own| && d < hi <= |own| && |mem[d]| == NPDENTRIES
  {
  }

  lemma GrowsLength(mem: seq<Page>, own: seq<Owner>, mem': seq<Page>, own': seq<Owner>, d: nat)
    requires Grows(mem, own, mem', own', d)
    ensures |mem'| == |mem| == |own| == |own'|
  {
  }

  lemma GrowsSelf(mem: seq<Page>, own: seq<Owner>, d: nat)
    requires |mem| == |own|
    ensures Grows(mem, own, mem, own, d)
  {
  }

  lemma GoingNone(mem: seq<Page>, own: seq<Owner>, d: nat)
    requires |mem| == |own|
    ensures Going(mem, own, mem, own, d, 0)
  {
  }

  lemma NotPresent()
    ensures !Present(0)
  {
  }

  lemma RegionRange(v: nat, dataPage: nat)
    ensures Region(v, dataPage) <= NKMAP
    ensures Region(v, dataPage) == NKMAP ==> KernelPte(v, dataPage) == 0
  {
  }

  lemma TabledLength(mem: seq<Page>, own: seq<Owner>, lo: nat, hi: nat, d: nat, a: nat)
    requires SpaceOk(mem, own, lo, hi, d) && a < VPAGES
    ensures |Tabled(mem[d])| == NPDENTRIES && a / NPTENTRIES < NPDENTRIES
    ensures Tabled(mem[d])[a / NPTENTRIES] == Present(mem[d][a / NPTENTRIES])
  {
  }

  lemma NeedNone(tables: seq<bool>, a: nat, each: nat)
    ensures Need(tables, a, a, each) == 0
  {
  }

  lemma NeedOne(tables: seq<bool>, a: nat)
    requires a / NPTENTRIES < |tables|
    ensures Need(tables, a, a + 1, 0) == if tables[a / NPTENTRIES] then 0 else 1
  {
  }

  /** What allocuvm is about to map is not mapped yet. */
  lemma NotMapped(mem0: seq<Page>, own0: seq<Owner>, mem: seq<Page>, own: seq<Owner>, d: nat, from: nat, a: nat, p: nat)
    requires Grown(mem0, own0, mem, own, d, from, a, p) && a < VPAGES && !Present(Pte(mem0, d, a))
    ensures !Present(Pte(mem, d, a))
  {
    assert GrownEntry(mem0, own0, mem, own, d, from, a, a);
  }

  lemma StillInHand(mem1: seq<Page>, own1: seq<Owner>, mem: seq<Page>, own: seq<Owner>, d: nat, p: nat, from: nat,
                    end: nat)
    requires Shrunk(mem1, own1, mem, own, d, from, end) && p < |own1| && own1[p] == Loose(d)
    ensures p < |own| == |mem| && own[p] == Loose(d)
  {
    assert own[p] == Unmapped(own1[p], d, from, end);
  }

  lemma NotUser(v: nat, dataPage: nat)
    requires v < USERPAGES
    ensures KernelPte(v, dataPage) == 0 && !Present(0)
  {
  }

  lemma StillOk(mem: seq<Page>, own: seq<Owner>, lo: nat, hi: nat, freelist: int, free: seq<nat>)
    requires FreeOk(mem, own, lo, hi, freelist, free)
    ensures MemOk(mem, own, lo, hi)
  {
  }

  lemma NotDir(mem: seq<Page>, own: seq<Owner>, lo: nat, hi: nat, e: nat, d: nat)
    requires SpaceOk(mem, own, lo, hi, e) && d < |own| && own[d] == FreePage
    ensures d != e
  {
  }

  lemma NothingCopied(mem0: seq<Page>, own0: seq<Owner>, mem: seq<Page>, own: seq<Owner>, parent: nat, d: nat,
                      dataPage: nat)
    requires NewSpace(mem0, own0, mem, own, d)
    requires forall v: nat :: v < VPAGES ==> Pte(mem, d, v) == KernelPte(v, dataPage)
    ensures Copying(mem0, own0, mem, own, parent, d, 0, dataPage)
  {
  }

  lemma UserNeedKernel(dataPage: nat, n: nat)
    requires DataPageOk(dataPage) && n <= USERPAGES
    ensures Need(KernelTables(NKMAP, dataPage), 0, n, 1) == UserNeed(n)
  {
    UserNeedIs(KernelTables(NKMAP, dataPage), n);
  }

  /** The parent's page for virtual page `a` has not changed. */
  lemma ParentPage(mem0: seq<Page>, own0: seq<Owner>, mem: seq<Page>, own: seq<Owner>, lo: nat, hi: nat, parent: nat,
                   d: nat, a: nat)
    requires SpaceOk(mem0, own0, lo, hi, parent) && NewSpace(mem0, own0, mem, own, d) && d != parent
    requires a < USERPAGES && Present(Pte(mem0, parent, a)) && Pte(mem, parent, a) == Pte(mem0, parent, a)
    ensures var q := PteAddr(Pte(mem0, parent, a)); 0 <= q < |mem| == |mem0| && mem[q] == mem0[q]
    ensures 0 <= PteFlags(Pte(mem0, parent, a)) < PGSIZE
    ensures parent < |mem| && |mem[parent]| == NPDENTRIES && Present(mem[parent][a / NPTENTRIES])
  {
    assert DataAt(mem0, own0, lo, hi, parent, a) && TableAt(mem0, own0, lo, hi, parent, a / NPTENTRIES);
    var q := PteAddr(Pte(mem0, parent, a));
    assert NewPage(mem0[q], own0[q], mem[q], own[q], d);
    assert NewPage(mem0[parent], own0[parent], mem[parent], own[parent], d);
  }

  /** A page taken and mapped is not loose any more. */
  lemma CopyHome(own1: seq<Owner>, own2: seq<Owner>, mem2: seq<Page>, own: seq<Owner>, mem: seq<Page>, lo: nat,
                 hi: nat, d: nat, a: nat, p: nat)
    requires NoLoose(own1, d) && p < |own1| && own2 == own1[p := Loose(d)] && Grows(mem2, own2, mem, own, d)
    requires SpaceOk(mem, own, lo, hi, d) && a < USERPAGES && Present(Pte(mem, d, a)) && PteAddr(Pte(mem, d, a)) == p
    ensures NoLoose(own, d)
  {
    assert DataAt(mem, own, lo, hi, d, a);
    forall q | 0 <= q < |own|
      ensures own[q] != Loose(d)
    {
      assert Grow(mem2[q], own2[q], mem[q], own[q], d);
    }
  }

  lemma SpareHome(own1: seq<Owner>, mem2: seq<Page>, own2: seq<Owner>, mem3: seq<Page>, own3: seq<Owner>, d: nat,
                  p: nat)
    requires NoLoose(own1, d) && p < |own1| && own2 == own1[p := Loose(d)] && Grows(mem2, own2, mem3, own3, d)
    ensures p < |own3| && NoLoose(own3[p := FreePage], d)
  {
    var own4 := own3[p := FreePage];
    forall q | 0 <= q < |own3|
      ensures own4[q] != Loose(d)
    {
      assert Grow(mem2[q], own2[q], mem3[q], own3[q], d);
    }
  }
}
