/** What allocuvm and copyuvm do to an address space, as relations between machine states. */
module VmGrowth {
  import opened VmSpec

  /** Which page tables a directory has. */
  function Tabled(dir: Page): seq<bool> {
    seq(|dir|, i requires 0 <= i < |dir| => Present(dir[i]))
  }

  /** How many free pages mapping the virtual pages from `a` up to `end` takes: one for each
      missing page table, and `each` more for every page. */
  function Need(tables: seq<bool>, a: nat, end: nat, each: nat): nat
    decreases end - a
  {
    if a >= end || a / NPTENTRIES >= |tables| then 0
    else if tables[a / NPTENTRIES] then each + Need(tables, a + 1, end, each)
    else each + 1 + Need(tables[a / NPTENTRIES := true], a + 1, end, each)
  }

  lemma NeedStep(tables: seq<bool>, a: nat, end: nat, each: nat)
    requires a < end && a / NPTENTRIES < |tables|
    ensures Need(tables, a, end, each) ==
            each + (if tables[a / NPTENTRIES] then 0 else 1) + Need(tables[a / NPTENTRIES := true], a + 1, end, each)
  {
    if tables[a / NPTENTRIES] {
      assert tables[a / NPTENTRIES := true] == tables;
    }
  }

  lemma TabledAfter(dir: Page, i: nat, w: int)
    requires i < |dir| && Present(w)
    ensures Tabled(dir[i := w]) == Tabled(dir)[i := true]
    ensures Tabled(dir)[i] == Present(dir[i])
    ensures Present(dir[i]) ==> Tabled(dir)[i := true] == Tabled(dir)
  {
    assert Tabled(dir[i := w]) == Tabled(dir)[i := true];
  }

  /** A stretch of virtual pages takes a page table for each directory entry it touches,
      the first perhaps excepted. */
  lemma {:induction false} NeedOpen(tables: seq<bool>, a: nat, end: nat, each: nat)
    requires a < end <= VPAGES && |tables| == NPDENTRIES
    requires forall i :: a / NPTENTRIES < i <= (end - 1) / NPTENTRIES ==> !tables[i]
    ensures Need(tables, a, end, each) ==
            each * (end - a) + (end - 1) / NPTENTRIES - a / NPTENTRIES + if tables[a / NPTENTRIES] then 0 else 1
    decreases end - a
  {
    NeedStep(tables, a, end, each);
    if a + 1 < end {
      NeedOpen(tables[a / NPTENTRIES := true], a + 1, end, each);
    }
  }

  /** The page tables after mapping the virtual pages from `a` up to `end`. */
  function Opened(tables: seq<bool>, a: nat, end: nat): seq<bool> {
    seq(|tables|, i requires 0 <= i < |tables| =>
          tables[i] || (a < end && a / NPTENTRIES <= i <= (end - 1) / NPTENTRIES))
  }

  lemma OpenedStep(tables: seq<bool>, a: nat, b: nat)
    requires a <= b < VPAGES && |tables| == NPDENTRIES
    ensures Opened(tables, a, a) == tables
    ensures Opened(tables, a, b)[b / NPTENTRIES := true] == Opened(tables, a, b + 1)
    ensures Opened(tables, b, b + 1) == tables[b / NPTENTRIES := true]
  {
    assert Opened(tables, a, a) == tables;
    assert Opened(tables, a, b)[b / NPTENTRIES := true] == Opened(tables, a, b + 1);
    assert Opened(tables, b, b + 1) == tables[b / NPTENTRIES := true];
  }

  const KERNTABLE := USERPAGES / NPTENTRIES

  /** The page tables of a directory with the first `k` rows of kmap, and how many. */
  function KernelTables(k: nat, dataPage: nat): seq<bool> {
    seq(NPDENTRIES, i =>
      || (k > 0 && i == KERNTABLE)
      || (k > 1 && KERNTABLE <= i <= KERNTABLE + (dataPage - 1) / NPTENTRIES)
      || (k > 2 && KERNTABLE <= i <= (USERPAGES + PHYSTOP / PGSIZE - 1) / NPTENTRIES)
      || (k > 3 && i >= DEVSPACE / PGSIZE / NPTENTRIES))
  }

  function KernelNeed(k: nat, dataPage: nat): nat
    requires DataPageOk(dataPage)
  {
    if k == 0 then 0
    else if k == 1 then 1
    else if k == 2 then 1 + (dataPage - 1) / NPTENTRIES
    else if k == 3 then 56
    else 64
  }

  /** The pages of an address space without user pages: the directory and 64 tables. */
  const KERNELPAGES := 65

  function RowFirst(k: nat, dataPage: nat): nat {
    if k == 0 then USERPAGES
    else if k == 1 then USERPAGES + EXTMEM / PGSIZE
    else if k == 2 then USERPAGES + dataPage
    else DEVSPACE / PGSIZE
  }

  function RowSize(k: nat, dataPage: nat): nat
    requires DataPageOk(dataPage)
  {
    if k == 0 then EXTMEM / PGSIZE
    else if k == 1 then dataPage - EXTMEM / PGSIZE
    else if k == 2 then PHYSTOP / PGSIZE - dataPage
    else VPAGES - DEVSPACE / PGSIZE
  }

  lemma RowPages(k: nat, dataPage: nat)
    requires DataPageOk(dataPage) && k < NKMAP
    ensures var r := KmapRow(k, dataPage);
      && r.start < r.end && r.virt + (r.end - r.start) <= ADDRESSES && r.virt / PGSIZE == RowFirst(k, dataPage)
      && (r.virt + (r.end - r.start) - 1) / PGSIZE + 1 == RowFirst(k, dataPage) + RowSize(k, dataPage)
  {
    assert (KERNBASE + dataPage * PGSIZE) / PGSIZE == USERPAGES + dataPage;
    assert (KERNBASE + dataPage * PGSIZE - 1) / PGSIZE == USERPAGES + dataPage - 1;
  }

  lemma {:induction false} KernelRow(k: nat, dataPage: nat)
    requires DataPageOk(dataPage) && k < NKMAP
    ensures var r, tables := KmapRow(k, dataPage), KernelTables(k, dataPage);
      && r.start < r.end && r.virt + (r.end - r.start) <= ADDRESSES
      && var a, end := r.virt / PGSIZE, (r.virt + (r.end - r.start) - 1) / PGSIZE + 1;
         && Need(tables, a, end, 0) == KernelNeed(k + 1, dataPage) - KernelNeed(k, dataPage)
         && Opened(tables, a, end) == KernelTables(k + 1, dataPage)
  {
    hide KmapRow, Need, Opened, KernelNeed;
    RowPages(k, dataPage);
    var a, tables := RowFirst(k, dataPage), KernelTables(k, dataPage);
    var end := a + RowSize(k, dataPage);
    RowOpens(k, dataPage);
    NeedOpen(tables, a, end, 0);
    RowCount(k, dataPage);
  }

  lemma RowCount(k: nat, dataPage: nat)
    requires DataPageOk(dataPage) && k < NKMAP
    ensures var a, end := RowFirst(k, dataPage), RowFirst(k, dataPage) + RowSize(k, dataPage);
      (end - 1) / NPTENTRIES - a / NPTENTRIES + (if KernelTables(k, dataPage)[a / NPTENTRIES] then 0 else 1)
      == KernelNeed(k + 1, dataPage) - KernelNeed(k, dataPage)
  {
    if k == 1 {
      assert (USERPAGES + dataPage - 1) / NPTENTRIES == KERNTABLE + (dataPage - 1) / NPTENTRIES;
    } else if k == 2 {
      assert (USERPAGES + dataPage) / NPTENTRIES == KERNTABLE + dataPage / NPTENTRIES;
    }
  }

  lemma RowOpens(k: nat, dataPage: nat)
    requires DataPageOk(dataPage) && k < NKMAP
    ensures Opened(KernelTables(k, dataPage), RowFirst(k, dataPage), RowFirst(k, dataPage) + RowSize(k, dataPage))
         == KernelTables(k + 1, dataPage)
  {
    assert Opened(KernelTables(k, dataPage), RowFirst(k, dataPage), RowFirst(k, dataPage) + RowSize(k, dataPage))
        == KernelTables(k + 1, dataPage);
  }

  /** The virtual pages from `from` up to `a` of directory `d` are now mapped to zeroed pages
      that were free; no other translation, and no page in use, has changed. `spare` is a
      page in hand that is not mapped yet, or -1. */
  ghost predicate Grown(mem0: seq<Page>, own0: seq<Owner>, mem: seq<Page>, own: seq<Owner>, d: nat, from: nat,
                        a: nat, spare: int) {
    && |mem| == |mem0| == |own| == |own0|
    && (forall p :: 0 <= p < |own| ==> GrownPage(mem0[p], own0[p], mem[p], own[p], d, from, a, InHand(p, spare)))
    && (forall v: nat :: v < VPAGES ==> GrownEntry(mem0, own0, mem, own, d, from, a, v))
  }

  predicate InHand(p: int, spare: int) {
    p == spare
  }

  ghost predicate GrownPage(page0: Page, o0: Owner, page: Page, o: Owner, d: nat, from: nat, a: nat, spare: bool) {
    if o0 == FreePage then
      || o == FreePage || (o.Table? && o.d == d)
      || (o.Data? && o.d == d && from <= o.v < a && page == Filled(0))
      || (spare && o == Loose(d) && page == Filled(0))
    else if o0 == Dir(d) || (o0.Table? && o0.d == d) then o == o0
    else o == o0 && page == page0
  }

  ghost predicate GrownEntry(mem0: seq<Page>, own0: seq<Owner>, mem: seq<Page>, own: seq<Owner>, d: nat, from: nat,
                             a: nat, v: nat)
    requires |mem| == |mem0| == |own| == |own0|
  {
    if from <= v < a then
      var p := PteAddr(Pte(mem, d, v));
      && 0 <= p < |own| && own0[p] == FreePage && own[p] == Data(d, v) && mem[p] == Filled(0)
      && Pte(mem, d, v) == Entry(p, PTE_W + PTE_U)
    else Pte(mem, d, v) == Pte(mem0, d, v)
  }

  lemma GrownNone(mem: seq<Page>, own: seq<Owner>, d: nat, from: nat)
    requires |mem| == |own|
    ensures Grown(mem, own, mem, own, d, from, from, -1)
  {
  }

  lemma {:induction false} GrownTake(mem0: seq<Page>, own0: seq<Owner>, mem: seq<Page>, own: seq<Owner>, d: nat,
                                     from: nat, a: nat, p: nat, mem': seq<Page>)
    requires Grown(mem0, own0, mem, own, d, from, a, -1) && p < |own|
    requires own[p] == FreePage && mem' == mem[p := Filled(0)]
    requires forall v: nat :: v < VPAGES ==> Pte(mem', d, v) == Pte(mem, d, v)
    ensures Grown(mem0, own0, mem', own[p := Loose(d)], d, from, a, p) && own0[p] == FreePage
  {
    assert GrownPage(mem0[p], own0[p], mem[p], own[p], d, from, a, InHand(p, -1));
    var own' := own[p := Loose(d)];
    forall q | 0 <= q < |own'|
      ensures GrownPage(mem0[q], own0[q], mem'[q], own'[q], d, from, a, InHand(q, p))
    {
      assert GrownPage(mem0[q], own0[q], mem[q], own[q], d, from, a, InHand(q, -1));
    }
    forall v: nat | v < VPAGES
      ensures GrownEntry(mem0, own0, mem', own', d, from, a, v)
    {
      assert GrownEntry(mem0, own0, mem, own, d, from, a, v);
    }
  }

  /** mappages for the page in hand, which it mapped if `ok`. */
  lemma {:induction false} GrownMap(mem0: seq<Page>, own0: seq<Owner>, mem: seq<Page>, own: seq<Owner>, lo: nat,
                                    hi: nat, d: nat, from: nat, a: nat, p: nat,
                                    mem': seq<Page>, own': seq<Owner>, ok: bool)
    requires Grown(mem0, own0, mem, own, d, from, a, p) && p < |own| && own[p] == Loose(d) && own0[p] == FreePage
    requires Grows(mem, own, mem', own', d) && SpaceOk(mem', own', lo, hi, d) && from <= a < USERPAGES
    requires forall v: nat :: v < VPAGES ==>
      Pte(mem', d, v) == if ok && v == a then Entry(p, PTE_W + PTE_U) else Pte(mem, d, v)
    requires forall q :: 0 <= q < |own| && own[q] == Loose(d) && !(ok && q == p) ==> own'[q] == Loose(d)
    ensures Grown(mem0, own0, mem', own', d, from, if ok then a + 1 else a, if ok then -1 else p) && |own'| == |own0|
  {
    if ok {
      assert DataAt(mem', own', lo, hi, d, a);
    }
    var a', spare := if ok then a + 1 else a, if ok then -1 else p;
    forall q | 0 <= q < |own'|
      ensures GrownPage(mem0[q], own0[q], mem'[q], own'[q], d, from, a', InHand(q, spare))
    {
      assert GrownPage(mem0[q], own0[q], mem[q], own[q], d, from, a, InHand(q, p));
      assert Grow(mem[q], own[q], mem'[q], own'[q], d);
    }
    forall v: nat | v < VPAGES
      ensures GrownEntry(mem0, own0, mem', own', d, from, a', v)
    {
      assert GrownEntry(mem0, own0, mem, own, d, from, a, v);
      if ok && v == a {
        assert Grow(mem[p], own[p], mem'[p], own'[p], d);
        assert GrownPage(mem0[p], own0[p], mem[p], own[p], d, from, a, InHand(p, p));
      } else if from <= v < a {
        var q := PteAddr(Pte(mem, d, v));
        assert Grow(mem[q], own[q], mem'[q], own'[q], d);
      }
    }
  }

  /** Every translation of directory `d`, and every page that was in use, is as it was; free
      pages may only have become page tables (or be the one in hand). */
  ghost predicate Restored(mem0: seq<Page>, own0: seq<Owner>, mem: seq<Page>, own: seq<Owner>, d: nat, spare: int) {
    && |mem| == |mem0| == |own| == |own0|
    && (forall p :: 0 <= p < |own| ==> RestoredPage(mem0[p], own0[p], mem[p], own[p], d, InHand(p, spare)))
    && (forall v: nat :: v < VPAGES ==> SameEntry(Pte(mem0, d, v), Pte(mem, d, v)))
  }

  ghost predicate RestoredPage(page0: Page, o0: Owner, page: Page, o: Owner, d: nat, spare: bool) {
    if o0 == FreePage then o == FreePage || (o.Table? && o.d == d) || (spare && o == Loose(d))
    else if o0 == Dir(d) || (o0.Table? && o0.d == d) then o == o0
    else o == o0 && page == page0
  }

  predicate SameEntry(w0: int, w: int) {
    if Present(w0) then w == w0 else !Present(w)
  }

  lemma {:induction false} GrownShrunk(mem0: seq<Page>, own0: seq<Owner>, mem: seq<Page>, own: seq<Owner>, lo: nat,
                                       hi: nat, d: nat, from: nat, a: nat, spare: int,
                                       mem': seq<Page>, own': seq<Owner>, end: nat)
    requires Grown(mem0, own0, mem, own, d, from, a, spare) && Shrunk(mem, own, mem', own', d, from, end)
    requires SpaceOk(mem0, own0, lo, hi, d) && from <= a <= end <= USERPAGES
    requires forall v: nat :: from <= v < end ==> !Present(Pte(mem0, d, v))
    ensures Restored(mem0, own0, mem', own', d, spare)
  {
    forall q | 0 <= q < |own'|
      ensures RestoredPage(mem0[q], own0[q], mem'[q], own'[q], d, InHand(q, spare))
    {
      assert GrownPage(mem0[q], own0[q], mem[q], own[q], d, from, a, InHand(q, spare));
      assert own'[q] == Unmapped(own[q], d, from, end) && Kept(mem[q], own[q], mem'[q], own'[q], d);
      assert DataUsed(mem0, own0, d, q);
    }
    forall v: nat | v < VPAGES
      ensures SameEntry(Pte(mem0, d, v), Pte(mem', d, v))
    {
      assert GrownEntry(mem0, own0, mem, own, d, from, a, v);
    }
  }

  /** Giving back the page in hand. */
  lemma {:induction false} SpareBack(mem: seq<Page>, own: seq<Owner>, lo: nat, hi: nat, d: nat, p: nat, page: Page)
    requires SpaceOk(mem, own, lo, hi, d) && p < |own| && own[p] == Loose(d) && |page| == NPTENTRIES
    ensures SpaceOk(mem[p := page], own[p := FreePage], lo, hi, d)
    ensures forall v: nat :: v < VPAGES ==> Pte(mem[p := page], d, v) == Pte(mem, d, v)
  {
    RetagTables(mem, own, lo, hi, d, p, FreePage);
    WritePage(mem, own[p := FreePage], lo, hi, d, p, page);
    DataSame(mem, own, lo, hi, d, mem[p := page], own[p := FreePage]);
  }

  lemma {:induction false} RestoredBack(mem0: seq<Page>, own0: seq<Owner>, mem: seq<Page>, own: seq<Owner>, lo: nat,
                                        hi: nat, d: nat, p: nat, page: Page)
    requires Restored(mem0, own0, mem, own, d, p) && SpaceOk(mem, own, lo, hi, d) && p < |own| && own[p] == Loose(d)
    requires own0[p] == FreePage && |page| == NPTENTRIES
    ensures Restored(mem0, own0, mem[p := page], own[p := FreePage], d, -1)
  {
    var mem', own' := mem[p := page], own[p := FreePage];
    SpareBack(mem, own, lo, hi, d, p, page);
    forall q | 0 <= q < |own'|
      ensures RestoredPage(mem0[q], own0[q], mem'[q], own'[q], d, InHand(q, -1))
    {
      assert RestoredPage(mem0[q], own0[q], mem[q], own[q], d, InHand(q, p));
    }
    forall v: nat | v < VPAGES
      ensures SameEntry(Pte(mem0, d, v), Pte(mem', d, v))
    {
      assert SameEntry(Pte(mem0, d, v), Pte(mem, d, v));
    }
  }

  /** What allocuvm has grown is for the user to read and write. */
  predicate OpenToUser(x: Access) {
    x.Access? && x.write && x.user
  }

  lemma {:induction false} GrownAccess(mem0: seq<Page>, own0: seq<Owner>, mem: seq<Page>, own: seq<Owner>, lo: nat,
                                       hi: nat, d: nat, from: nat, a: nat)
    requires TablesOk(mem0, own0, lo, hi, d) && TablesOk(mem, own, lo, hi, d)
    requires Grown(mem0, own0, mem, own, d, from, a, -1)
    ensures forall v: nat :: v < VPAGES ==>
      if from <= v < a then OpenToUser(Translate(mem, d, v)) else Translate(mem, d, v) == Translate(mem0, d, v)
  {
    TranslateIs(mem0, own0, lo, hi, d);
    TranslateIs(mem, own, lo, hi, d);
    hide TablesOk, Translate, Pte;
    forall v: nat | v < VPAGES
      ensures if from <= v < a then OpenToUser(EntryAccess(Pte(mem, d, v))) else Pte(mem, d, v) == Pte(mem0, d, v)
    {
      assert GrownEntry(mem0, own0, mem, own, d, from, a, v);
      if from <= v < a {
        EntryBits(PteAddr(Pte(mem, d, v)), PTE_W + PTE_U);
      }
    }
  }

  lemma {:induction false} RestoredAccess(mem0: seq<Page>, own0: seq<Owner>, mem: seq<Page>, own: seq<Owner>, lo: nat,
                                          hi: nat, d: nat)
    requires TablesOk(mem0, own0, lo, hi, d) && TablesOk(mem, own, lo, hi, d)
    requires Restored(mem0, own0, mem, own, d, -1)
    ensures forall v: nat :: v < VPAGES ==> Translate(mem, d, v) == Translate(mem0, d, v)
  {
    TranslateIs(mem0, own0, lo, hi, d);
    TranslateIs(mem, own, lo, hi, d);
    hide TablesOk, Translate, Pte;
    forall v: nat | v < VPAGES
      ensures EntryAccess(Pte(mem, d, v)) == EntryAccess(Pte(mem0, d, v))
    {
      assert SameEntry(Pte(mem0, d, v), Pte(mem, d, v));
    }
  }

  lemma {:induction false} ShrunkAccess(mem: seq<Page>, own: seq<Owner>, mem': seq<Page>, own': seq<Owner>, lo: nat,
                                        hi: nat, d: nat, from: nat, to: nat)
    requires TablesOk(mem, own, lo, hi, d) && TablesOk(mem', own', lo, hi, d) && to <= USERPAGES
    requires Shrunk(mem, own, mem', own', d, from, to)
    ensures forall v: nat :: v < VPAGES ==>
      Translate(mem', d, v) == if from <= v < to then Fault else Translate(mem, d, v)
  {
    TranslateIs(mem, own, lo, hi, d);
    TranslateIs(mem', own', lo, hi, d);
    hide TablesOk, Translate, Pte;
    assert !Present(0);
  }

  /** Growing, or failing to, concerns no other address space. */
  lemma {:induction false} GrownTouches(mem0: seq<Page>, own0: seq<Owner>, mem: seq<Page>, own: seq<Owner>, d: nat,
                                        from: nat, a: nat)
    requires Grown(mem0, own0, mem, own, d, from, a, -1) || Restored(mem0, own0, mem, own, d, -1)
    ensures OnlyTouches(mem0, own0, mem, own, d)
  {
    if Grown(mem0, own0, mem, own, d, from, a, -1) {
      forall p | 0 <= p < |own|
        ensures Touch(mem0[p], own0[p], mem[p], own[p], d)
      {
        assert GrownPage(mem0[p], own0[p], mem[p], own[p], d, from, a, InHand(p, -1));
      }
    } else {
      forall p | 0 <= p < |own|
        ensures Touch(mem0[p], own0[p], mem[p], own[p], d)
      {
        assert RestoredPage(mem0[p], own0[p], mem[p], own[p], d, InHand(p, -1));
      }
    }
  }

  /** The user pages below `a` of directory `d` are copies of those of `parent` at the start:
      the same flags and words, on pages that were free then. */
  ghost predicate Copied(mem0: seq<Page>, own0: seq<Owner>, mem: seq<Page>, own: seq<Owner>, parent: nat, d: nat,
                         a: nat) {
    && |mem| == |mem0| == |own| == |own0|
    && forall v: nat :: v < a ==> CopiedPage(mem0, own0, mem, own, parent, d, v)
  }

  ghost predicate CopiedPage(mem0: seq<Page>, own0: seq<Owner>, mem: seq<Page>, own: seq<Owner>, parent: nat, d: nat,
                             v: nat)
    requires |mem| == |mem0| == |own| == |own0|
  {
    var p, q := PteAddr(Pte(mem, d, v)), PteAddr(Pte(mem0, parent, v));
    && Present(Pte(mem, d, v)) && PteFlags(Pte(mem, d, v)) == PteFlags(Pte(mem0, parent, v))
    && 0 <= p < |own| && 0 <= q < |own| && own0[p] == FreePage && own[p] == Data(d, v) && mem[p] == mem0[q]
  }

  /** The same rights, to another page. */
  predicate SameRights(x: Access, y: Access) {
    x.Access? && y.Access? && x.write == y.write && x.user == y.user
  }

  lemma {:induction false} CopiedAccess(mem0: seq<Page>, own0: seq<Owner>, mem: seq<Page>, own: seq<Owner>, lo: nat,
                                        hi: nat, parent: nat, d: nat, a: nat)
    requires TablesOk(mem0, own0, lo, hi, parent) && TablesOk(mem, own, lo, hi, d) && a <= VPAGES
    requires Copied(mem0, own0, mem, own, parent, d, a)
    requires forall v: nat :: v < a ==> Present(Pte(mem0, parent, v))
    ensures forall v: nat :: v < a ==> SameRights(Translate(mem, d, v), Translate(mem0, parent, v))
  {
    TranslateIs(mem0, own0, lo, hi, parent);
    TranslateIs(mem, own, lo, hi, d);
    hide TablesOk, Translate, Pte;
    forall v: nat | v < a
      ensures SameRights(EntryAccess(Pte(mem, d, v)), EntryAccess(Pte(mem0, parent, v)))
    {
      assert CopiedPage(mem0, own0, mem, own, parent, d, v);
      FlagBits(Pte(mem, d, v));
      FlagBits(Pte(mem0, parent, v));
    }
  }

  /** The bits of an entry are those of its flags. */
  lemma FlagBits(w: int)
    ensures Writable(w) == Writable(PteFlags(w)) && ForUser(w) == ForUser(PteFlags(w))
  {
    assert w == w / PGSIZE * PGSIZE + w % PGSIZE;
    LowBits(w / PGSIZE, w % PGSIZE);
  }

  /** The pages copyuvm takes for `n` user pages: the copies and their page tables. */
  function UserNeed(n: nat): nat {
    n + (n + NPTENTRIES - 1) / NPTENTRIES
  }

  /** The first virtual page from `a` on that is present, if it is below `end`. */
  function FirstPresent(mem: seq<Page>, d: nat, a: nat, end: nat): (k: nat)
    requires a <= end
    ensures a <= k <= end && (forall v: nat :: a <= v < k ==> !Present(Pte(mem, d, v)))
    ensures k < end ==> Present(Pte(mem, d, k))
    decreases end - a
  {
    if a == end || Present(Pte(mem, d, a)) then a else FirstPresent(mem, d, a + 1, end)
  }

  /** How many of the first `n` virtual pages are present before the first that is not. */
  function Leading(mem: seq<Page>, d: nat, n: nat): (k: nat)
    ensures k <= n && (forall v: nat :: v < k ==> Present(Pte(mem, d, v)))
    ensures k < n ==> !Present(Pte(mem, d, k))
  {
    if n == 0 then 0
    else
      var k := Leading(mem, d, n - 1);
      if k == n - 1 && Present(Pte(mem, d, k)) then n else k
  }

  lemma {:induction false} UserNeedIs(tables: seq<bool>, n: nat)
    requires |tables| == NPDENTRIES && n <= USERPAGES && forall i :: 0 <= i < KERNTABLE ==> !tables[i]
    ensures Need(tables, 0, n, 1) == UserNeed(n)
  {
    if n > 0 {
      NeedOpen(tables, 0, n, 1);
    }
  }

  /** A directory being filled by copyuvm: its first `a` user pages are copies, and the rest of
      its entries are still those setupkvm made. */
  ghost predicate Copying(mem0: seq<Page>, own0: seq<Owner>, mem: seq<Page>, own: seq<Owner>, parent: nat, d: nat,
                          a: nat, dataPage: nat) {
    && NewSpace(mem0, own0, mem, own, d) && Copied(mem0, own0, mem, own, parent, d, a)
    && forall v: nat :: a <= v < VPAGES ==> Pte(mem, d, v) == KernelPte(v, dataPage)
  }

  lemma {:induction false} CopyTake(mem0: seq<Page>, own0: seq<Owner>, mem: seq<Page>, own: seq<Owner>, parent: nat,
                                    d: nat, a: nat, dataPage: nat, p: nat, mem': seq<Page>)
    requires Copying(mem0, own0, mem, own, parent, d, a, dataPage) && p < |own| && own[p] == FreePage
    requires |mem'| == |mem| && mem' == mem[p := mem'[p]]
    requires forall v: nat :: v < VPAGES ==> Pte(mem', d, v) == Pte(mem, d, v)
    requires a <= USERPAGES
    ensures Copying(mem0, own0, mem', own[p := Loose(d)], parent, d, a, dataPage) && own0[p] == FreePage
  {
    var own' := own[p := Loose(d)];
    assert NewPage(mem0[p], own0[p], mem[p], own[p], d);
    forall q | 0 <= q < |own'|
      ensures NewPage(mem0[q], own0[q], mem'[q], own'[q], d)
    {
      assert NewPage(mem0[q], own0[q], mem[q], own[q], d);
    }
    forall v: nat | v < a
      ensures CopiedPage(mem0, own0, mem', own', parent, d, v)
    {
      assert CopiedPage(mem0, own0, mem, own, parent, d, v);
    }
  }

  /** mappages for the copy in page `p`. */
  lemma {:induction false} CopyMap(mem0: seq<Page>, own0: seq<Owner>, mem: seq<Page>, own: seq<Owner>, lo: nat,
                                   hi: nat, parent: nat, d: nat, a: nat, dataPage: nat,
                                   p: nat, mem': seq<Page>, own': seq<Owner>, flags: nat)
    requires Copying(mem0, own0, mem, own, parent, d, a, dataPage)
    requires p < |own| && own[p] == Loose(d) && own0[p] == FreePage
    requires Grows(mem, own, mem', own', d) && SpaceOk(mem', own', lo, hi, d) && a < USERPAGES && flags < PGSIZE
    requires forall v: nat :: v < VPAGES ==> Pte(mem', d, v) == if v == a then Entry(p, flags) else Pte(mem, d, v)
    requires Present(Pte(mem0, parent, a)) && flags == PteFlags(Pte(mem0, parent, a))
    requires var q := PteAddr(Pte(mem0, parent, a)); 0 <= q < |mem0| && mem[p] == mem0[q]
    ensures Copying(mem0, own0, mem', own', parent, d, a + 1, dataPage)
  {
    assert DataAt(mem', own', lo, hi, d, a);
    NewSpaceGrows(mem0, own0, mem, own, mem', own', d);
    forall v: nat | v < a + 1
      ensures CopiedPage(mem0, own0, mem', own', parent, d, v)
    {
      if v < a {
        assert CopiedPage(mem0, own0, mem, own, parent, d, v);
        var q := PteAddr(Pte(mem, d, v));
        assert Grow(mem[q], own[q], mem'[q], own'[q], d);
      } else {
        assert Grow(mem[p], own[p], mem'[p], own'[p], d);
      }
    }
  }

  /** Giving back the page in hand. */
  lemma NewSpaceBack(mem0: seq<Page>, own0: seq<Owner>, mem: seq<Page>, own: seq<Owner>, d: nat, p: nat, page: Page)
    requires NewSpace(mem0, own0, mem, own, d) && p < |own| && own[p] == Loose(d) && own0[p] == FreePage
    ensures NewSpace(mem0, own0, mem[p := page], own[p := FreePage], d)
  {
    forall q | 0 <= q < |own|
      ensures NewPage(mem0[q], own0[q], mem[p := page][q], own[p := FreePage][q], d)
    {
      assert NewPage(mem0[q], own0[q], mem[q], own[q], d);
    }
  }

  lemma NewSpaceTouches(mem0: seq<Page>, own0: seq<Owner>, mem: seq<Page>, own: seq<Owner>, d: nat)
    requires NewSpace(mem0, own0, mem, own, d)
    ensures OnlyTouches(mem0, own0, mem, own, d)
  {
    forall p | 0 <= p < |own|
      ensures Touch(mem0[p], own0[p], mem[p], own[p], d)
    {
      assert NewPage(mem0[p], own0[p], mem[p], own[p], d);
    }
  }

  /** Pages in use that did not change keep the address spaces made of them. */
  lemma {:induction false} UsedKept(mem: seq<Page>, own: seq<Owner>, mem': seq<Page>, lo: nat, hi: nat, e: nat, d: nat)
    requires SpaceOk(mem, own, lo, hi, e) && MemOk(mem', own, lo, hi) && |mem'| == |mem| && d != e
    requires forall p :: 0 <= p < |own| && own[p] != FreePage ==> mem'[p] == mem[p]
    ensures SpaceOk(mem', own, lo, hi, e)
    ensures forall v: nat :: v < VPAGES ==> Pte(mem', e, v) == Pte(mem, e, v)
  {
    forall p | 0 <= p < |mem|
      ensures Touch(mem[p], own[p], mem'[p], own[p], d)
    {
    }
    OthersKept(mem, own, mem', own, lo, hi, d, e);
  }

  // ----- Any calls on other directories -----

  datatype Memory = Memory(mem: seq<Page>, own: seq<Owner>)

  /** What one call on directory `d` may do, by the contracts of the methods of Machine:
      walkpgdir and mappages, allocuvm, deallocuvm, freevm, setupkvm and copyuvm, or
      nothing but to free pages' contents. */
  ghost predicate Called(m: Memory, m': Memory, d: nat) {
    || Grows(m.mem, m.own, m'.mem, m'.own, d)
    || (exists from, a :: Grown(m.mem, m.own, m'.mem, m'.own, d, from, a, -1))
    || Restored(m.mem, m.own, m'.mem, m'.own, d, -1)
    || (exists from, to :: Shrunk(m.mem, m.own, m'.mem, m'.own, d, from, to))
    || Gone(m.mem, m.own, m'.mem, m'.own, d)
    || NewSpace(m.mem, m.own, m'.mem, m'.own, d)
    || Unused(m, m')
  }

  ghost predicate Unused(m: Memory, m': Memory) {
    && |m'.mem| == |m.mem| == |m.own| && m'.own == m.own
    && forall p :: 0 <= p < |m.own| && m.own[p] != FreePage ==> m'.mem[p] == m.mem[p]
  }

  lemma ShrunkTouches(mem: seq<Page>, own: seq<Owner>, mem': seq<Page>, own': seq<Owner>, d: nat, from: nat, to: nat)
    requires Shrunk(mem, own, mem', own', d, from, to)
    ensures OnlyTouches(mem, own, mem', own', d)
  {
    forall p | 0 <= p < |own|
      ensures Touch(mem[p], own[p], mem'[p], own'[p], d)
    {
      assert Kept(mem[p], own[p], mem'[p], own'[p], d);
    }
  }

  lemma GoneTouches(m: Memory, m': Memory, d: nat)
    requires Gone(m.mem, m.own, m'.mem, m'.own, d) || Unused(m, m')
    ensures OnlyTouches(m.mem, m.own, m'.mem, m'.own, d)
  {
  }

  lemma {:induction false} CalledTouches(m: Memory, m': Memory, d: nat)
    requires Called(m, m', d)
    ensures OnlyTouches(m.mem, m.own, m'.mem, m'.own, d)
  {
    hide OnlyTouches, Grows, Grown, Restored, Shrunk, Gone, NewSpace, Unused;
    if Grows(m.mem, m.own, m'.mem, m'.own, d) {
      GrowsTouches(m.mem, m.own, m'.mem, m'.own, d);
    } else if from, a :| Grown(m.mem, m.own, m'.mem, m'.own, d, from, a, -1) {
      GrownTouches(m.mem, m.own, m'.mem, m'.own, d, from, a);
    } else if Restored(m.mem, m.own, m'.mem, m'.own, d, -1) {
      GrownTouches(m.mem, m.own, m'.mem, m'.own, d, 0, 0);
    } else if from, to :| Shrunk(m.mem, m.own, m'.mem, m'.own, d, from, to) {
      ShrunkTouches(m.mem, m.own, m'.mem, m'.own, d, from, to);
    } else if NewSpace(m.mem, m.own, m'.mem, m'.own, d) {
      NewSpaceTouches(m.mem, m.own, m'.mem, m'.own, d);
    } else {
      GoneTouches(m, m', d);
    }
  }

  /** A call on directory `d`, and the memory when it has returned. */
  datatype Call = Call(d: nat, after: Memory)

  /** The calls, made in turn from memory `m` on, are on directories other than `e`. */
  ghost predicate CallsElsewhere(m: Memory, calls: seq<Call>, lo: nat, hi: nat, e: nat)
    decreases |calls|
  {
    calls != [] ==>
      && Called(m, calls[0].after, calls[0].d) && calls[0].d != e
      && MemOk(calls[0].after.mem, calls[0].after.own, lo, hi)
      && CallsElsewhere(calls[0].after, calls[1..], lo, hi, e)
  }

  function Last(m: Memory, calls: seq<Call>): Memory {
    if calls == [] then m else calls[|calls| - 1].after
  }

  /** Isolation: whatever calls are made on other directories, in any order, an address space
      keeps its tables, its translations and the contents of its pages. */
  lemma {:induction false} Isolation(m: Memory, calls: seq<Call>, lo: nat, hi: nat, e: nat)
    requires SpaceOk(m.mem, m.own, lo, hi, e) && CallsElsewhere(m, calls, lo, hi, e)
    ensures var last := Last(m, calls);
      && SpaceOk(last.mem, last.own, lo, hi, e) && |last.mem| == |last.own| == |m.own| == |m.mem|
      && (forall v: nat :: v < VPAGES ==> Pte(last.mem, e, v) == Pte(m.mem, e, v))
      && (forall p :: 0 <= p < |m.own| && OwnedBy(m.own[p], e) ==>
            last.own[p] == m.own[p] && last.mem[p] == m.mem[p])
    decreases |calls|
  {
    assert |m.mem| == |m.own| by {
      assert MemOk(m.mem, m.own, lo, hi);
    }
    hide TablesOk, DataOk, Called, Pte;
    if calls != [] {
      var m' := calls[0].after;
      CalledTouches(m, m', calls[0].d);
      OthersKept(m.mem, m.own, m'.mem, m'.own, lo, hi, calls[0].d, e);
      Isolation(m', calls[1..], lo, hi, e);
    }
  }
}
