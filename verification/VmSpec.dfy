/** Two-level page tables over physical pages: 32-bit paging of the Intel SDM, volume 3A,
    section 4.3. A page is named by its number, physical address / PGSIZE, and a virtual
    page by virtual address / PGSIZE. */
module VmSpec {
  const PGSIZE := 4096
  const NPDENTRIES := 1024
  const NPTENTRIES := 1024
  const KERNBASE := 0x8000_0000
  /** Virtual pages below this one are the user's. */
  const USERPAGES := KERNBASE / PGSIZE
  const VPAGES := NPDENTRIES * NPTENTRIES

  const PTE_P := 1
  const PTE_W := 2
  const PTE_U := 4

  /** The 1024 words of a page. */
  type Page = seq<int>

  function Filled(w: int): Page {
    seq(NPTENTRIES, _ => w)
  }

  predicate Present(w: int) {
    w % 2 == 1
  }

  /** Bits 1 and 2 of an entry, of a directory or of a table: writing is allowed, and so is
      access by user code. */
  predicate Writable(w: int) {
    w / 2 % 2 == 1
  }

  predicate ForUser(w: int) {
    w / 4 % 2 == 1
  }

  /** PTE_ADDR as a page number, and PTE_FLAGS. */
  function PteAddr(w: int): int {
    w / PGSIZE
  }

  function PteFlags(w: int): int {
    w % PGSIZE
  }

  /** `pa | perm | PTE_P` for a page-aligned pa. */
  function Entry(page: nat, perm: nat): (w: int)
    requires perm < PGSIZE
    ensures Present(w) && PteAddr(w) == page
    ensures PteFlags(w) == if perm % 2 == 1 then perm else perm + PTE_P
  {
    page * PGSIZE + if perm % 2 == 1 then perm else perm + PTE_P
  }

  lemma EntryBits(page: nat, perm: nat)
    requires perm < PGSIZE
    ensures Writable(Entry(page, perm)) == Writable(perm) && ForUser(Entry(page, perm)) == ForUser(perm)
  {
    var flags := if perm % 2 == 1 then perm else perm + PTE_P;
    LowBits(page, flags);
    assert flags / 2 == perm / 2 && flags / 4 == perm / 4;
  }

  /** The rights are among the low bits. */
  lemma LowBits(page: int, flags: nat)
    ensures var w := page * PGSIZE + flags; Writable(w) == Writable(flags) && ForUser(w) == ForUser(flags)
  {
    Halved(page * 2048, flags);
    Halved(page * 1024, flags / 2);
    Halved(page * 512, flags / 4);
    Quarter(page * PGSIZE + flags);
    Quarter(flags);
  }

  lemma Halved(a: int, x: int)
    ensures (2 * a + x) / 2 == a + x / 2 && (2 * a + x) % 2 == x % 2
  {
  }

  lemma Quarter(x: int)
    ensures x / 4 == x / 2 / 2
  {
  }

  /** What a physical page is used for: on the free list, the directory `d` itself, its
      page table `i`, its user page `v`, allocated for it but not yet linked into it, or
      anything else. */
  datatype Owner = FreePage | Dir(d: nat) | Table(d: nat, i: nat) | Data(d: nat, v: nat) | Loose(d: nat) | Held

  predicate OwnedBy(o: Owner, d: nat) {
    (o.Dir? || o.Table? || o.Data? || o.Loose?) && o.d == d
  }

  /** Entry `v` of the tables of directory `d`; 0 where there is no table. */
  function Pte(mem: seq<Page>, d: nat, v: nat): int {
    if d >= |mem| || |mem[d]| != NPDENTRIES || v >= VPAGES || !Present(mem[d][v / NPTENTRIES]) then 0
    else
      var t := PteAddr(mem[d][v / NPTENTRIES]);
      if 0 <= t < |mem| && |mem[t]| == NPTENTRIES then mem[t][v % NPTENTRIES] else 0
  }

  /** What an access to a virtual page reaches: a page fault, or a physical page with the
      rights to it. */
  datatype Access = Fault | Access(page: int, write: bool, user: bool)

  /** The rights are those that the directory entry and the table entry both give: section 4.6
      of the Intel SDM, volume 3A. */
  function Translate(mem: seq<Page>, d: nat, v: nat): Access {
    if d >= |mem| || |mem[d]| != NPDENTRIES || v >= VPAGES || !Present(mem[d][v / NPTENTRIES]) then Fault
    else
      var pde := mem[d][v / NPTENTRIES];
      var t := PteAddr(pde);
      if !(0 <= t < |mem| && |mem[t]| == NPTENTRIES) || !Present(mem[t][v % NPTENTRIES]) then Fault
      else
        var pte := mem[t][v % NPTENTRIES];
        Access(PteAddr(pte), Writable(pde) && Writable(pte), ForUser(pde) && ForUser(pte))
  }

  /** What a table entry alone says. */
  function EntryAccess(w: int): Access {
    if Present(w) then Access(PteAddr(w), Writable(w), ForUser(w)) else Fault
  }

  ghost predicate MemOk(mem: seq<Page>, own: seq<Owner>, lo: nat, hi: nat) {
    && 0 < lo <= hi <= |mem| == |own|
    && forall p :: 0 <= p < |mem| ==> |mem[p]| == NPTENTRIES
  }

  ghost predicate TableAt(mem: seq<Page>, own: seq<Owner>, lo: nat, hi: nat, d: nat, i: nat)
    requires d < |mem| && i < |mem[d]|
  {
    Present(mem[d][i]) ==>
      && Writable(mem[d][i]) && ForUser(mem[d][i])
      && var t := PteAddr(mem[d][i]); lo <= t < hi && t < |own| && own[t] == Table(d, i)
  }

  ghost predicate TableUsed(mem: seq<Page>, own: seq<Owner>, d: nat, p: nat)
    requires p < |own| && d < |mem| && |mem[d]| == NPDENTRIES
  {
    && (own[p] == Dir(d) ==> p == d)
    && (own[p].Table? && own[p].d == d ==>
          own[p].i < NPDENTRIES && Present(mem[d][own[p].i]) && PteAddr(mem[d][own[p].i]) == p)
  }

  /** Directory `d` owns its own page and its page tables, each through one entry. */
  ghost predicate TablesOk(mem: seq<Page>, own: seq<Owner>, lo: nat, hi: nat, d: nat) {
    && MemOk(mem, own, lo, hi) && lo <= d < hi && own[d] == Dir(d)
    && (forall i :: 0 <= i < NPDENTRIES ==> TableAt(mem, own, lo, hi, d, i))
    && (forall p :: 0 <= p < |own| ==> TableUsed(mem, own, d, p))
  }

  ghost predicate DataAt(mem: seq<Page>, own: seq<Owner>, lo: nat, hi: nat, d: nat, v: nat) {
    Present(Pte(mem, d, v)) ==>
      var p := PteAddr(Pte(mem, d, v)); lo <= p < hi && p < |own| && own[p] == Data(d, v)
  }

  ghost predicate DataUsed(mem: seq<Page>, own: seq<Owner>, d: nat, p: nat)
    requires p < |own|
  {
    own[p].Data? && own[p].d == d ==>
      own[p].v < USERPAGES && Present(Pte(mem, d, own[p].v)) && PteAddr(Pte(mem, d, own[p].v)) == p
  }

  /** Directory `d` owns the pages its user entries map, each through one entry. */
  ghost predicate DataOk(mem: seq<Page>, own: seq<Owner>, lo: nat, hi: nat, d: nat) {
    && (forall v :: 0 <= v < USERPAGES ==> DataAt(mem, own, lo, hi, d, v))
    && (forall p :: 0 <= p < |own| ==> DataUsed(mem, own, d, p))
  }

  ghost predicate SpaceOk(mem: seq<Page>, own: seq<Owner>, lo: nat, hi: nat, d: nat) {
    TablesOk(mem, own, lo, hi, d) && DataOk(mem, own, lo, hi, d)
  }

  /** From one state to the other only free pages and pages of `d` changed, in contents
      or in use; free pages may have gone to `d`, or pages of `d` become free. */
  ghost predicate OnlyTouches(mem: seq<Page>, own: seq<Owner>, mem': seq<Page>, own': seq<Owner>, d: nat) {
    && |mem'| == |mem| == |own| == |own'|
    && forall p :: 0 <= p < |mem| ==> Touch(mem[p], own[p], mem'[p], own'[p], d)
  }

  ghost predicate Touch(page: Page, o: Owner, page': Page, o': Owner, d: nat) {
    if o == FreePage || OwnedBy(o, d) then o' == FreePage || OwnedBy(o', d) else o' == o && page' == page
  }

  /** Work on directory `d` leaves every other address space alone: its tables, its
      translations and the contents of its pages. */
  lemma {:induction false} OthersKept(mem: seq<Page>, own: seq<Owner>, mem': seq<Page>, own': seq<Owner>, lo: nat,
                                      hi: nat, d: nat, e: nat)
    requires SpaceOk(mem, own, lo, hi, e) && OnlyTouches(mem, own, mem', own', d) && MemOk(mem', own', lo, hi) && e != d
    ensures SpaceOk(mem', own', lo, hi, e)
    ensures forall v: nat :: v < VPAGES ==> Pte(mem', e, v) == Pte(mem, e, v)
    ensures forall p :: 0 <= p < |own| && OwnedBy(own[p], e) ==> own'[p] == own[p] && mem'[p] == mem[p]
  {
    assert Touch(mem[e], own[e], mem'[e], own'[e], d);
    forall p | 0 <= p < |own| && OwnedBy(own[p], e)
      ensures own'[p] == own[p] && mem'[p] == mem[p]
    {
      assert Touch(mem[p], own[p], mem'[p], own'[p], d);
    }
    forall v: nat | v < VPAGES
      ensures Pte(mem', e, v) == Pte(mem, e, v)
    {
      var i := v / NPTENTRIES;
      assert TableAt(mem, own, lo, hi, e, i);
      if Present(mem[e][i]) {
        var t := PteAddr(mem[e][i]);
        assert Touch(mem[t], own[t], mem'[t], own'[t], d);
      }
    }
    forall i | 0 <= i < NPDENTRIES
      ensures TableAt(mem', own', lo, hi, e, i)
    {
      assert TableAt(mem, own, lo, hi, e, i);
      if Present(mem[e][i]) {
        var t := PteAddr(mem[e][i]);
        assert Touch(mem[t], own[t], mem'[t], own'[t], d);
      }
    }
    forall p | 0 <= p < |own'|
      ensures TableUsed(mem', own', e, p) && DataUsed(mem', own', e, p)
    {
      assert Touch(mem[p], own[p], mem'[p], own'[p], d);
      assert TableUsed(mem, own, e, p) && DataUsed(mem, own, e, p);
    }
    forall v | 0 <= v < USERPAGES
      ensures DataAt(mem', own', lo, hi, e, v)
    {
      assert DataAt(mem, own, lo, hi, e, v);
      if Present(Pte(mem, e, v)) {
        var p := PteAddr(Pte(mem, e, v));
        assert Touch(mem[p], own[p], mem'[p], own'[p], d);
      }
    }
  }

  /** The free list: `free` in order, linked through the first words of the pages. */
  ghost predicate FreeOk(mem: seq<Page>, own: seq<Owner>, lo: nat, hi: nat, freelist: int, free: seq<nat>) {
    && MemOk(mem, own, lo, hi)
    && freelist == HeadOf(free)
    && (forall i :: 0 <= i < |free| ==> FreeAt(mem, own, lo, hi, free, i))
    && (forall i, j :: 0 <= i < j < |free| ==> free[i] != free[j])
    && (forall p :: 0 <= p < |own| && own[p] == FreePage ==> p in free)
  }

  function HeadOf(free: seq<nat>): int {
    if free == [] then 0 else free[0]
  }

  ghost predicate FreeAt(mem: seq<Page>, own: seq<Owner>, lo: nat, hi: nat, free: seq<nat>, i: nat)
    requires i < |free|
  {
    var p := free[i];
    lo <= p < hi && p < |mem| && p < |own| && |mem[p]| == NPTENTRIES
    && own[p] == FreePage && mem[p][0] == HeadOf(free[i + 1..])
  }

  lemma {:induction false} Pop(mem: seq<Page>, own: seq<Owner>, lo: nat, hi: nat, freelist: int, free: seq<nat>,
                               o: Owner)
    requires FreeOk(mem, own, lo, hi, freelist, free) && free != [] && o != FreePage
    ensures lo <= free[0] < hi && own[free[0]] == FreePage && |mem[free[0]]| == NPTENTRIES
    ensures FreeOk(mem, own[free[0] := o], lo, hi, mem[free[0]][0], free[1..])
  {
    assert FreeAt(mem, own, lo, hi, free, 0);
    var own', free' := own[free[0] := o], free[1..];
    forall i | 0 <= i < |free'|
      ensures FreeAt(mem, own', lo, hi, free', i)
    {
      assert FreeAt(mem, own, lo, hi, free, i + 1);
      assert free'[i + 1..] == free[i + 2..];
    }
    forall p | 0 <= p < |own'| && own'[p] == FreePage
      ensures p in free'
    {
      assert p in free;
      var i :| 0 <= i < |free| && free[i] == p;
      assert free'[i - 1] == p;
    }
  }

  lemma {:induction false} Push(mem: seq<Page>, own: seq<Owner>, lo: nat, hi: nat, freelist: int, free: seq<nat>,
                                p: nat, page: Page)
    requires FreeOk(mem, own, lo, hi, freelist, free) && lo <= p < hi && own[p] != FreePage
    requires |page| == NPTENTRIES && page[0] == freelist
    ensures FreeOk(mem[p := page], own[p := FreePage], lo, hi, p, [p] + free)
  {
    var mem', own', free' := mem[p := page], own[p := FreePage], [p] + free;
    forall i | 0 <= i < |free'|
      ensures FreeAt(mem', own', lo, hi, free', i)
    {
      if i > 0 {
        assert FreeAt(mem, own, lo, hi, free, i - 1);
        assert free'[i + 1..] == free[i..];
      } else {
        assert free'[1..] == free;
      }
    }
    forall i, j | 0 <= i < j < |free'|
      ensures free'[i] != free'[j]
    {
      assert FreeAt(mem, own, lo, hi, free, j - 1);
    }
    forall q | 0 <= q < |own'| && own'[q] == FreePage
      ensures q in free'
    {
      assert q != p ==> q in free;
    }
  }

  /** A change to pages that are not free keeps the free list. */
  lemma {:induction false} FreeKept(mem: seq<Page>, own: seq<Owner>, lo: nat, hi: nat, freelist: int, free: seq<nat>,
                                    mem': seq<Page>, own': seq<Owner>)
    requires FreeOk(mem, own, lo, hi, freelist, free) && MemOk(mem', own', lo, hi) && |mem'| == |mem|
    requires forall p :: 0 <= p < |own| ==> (own'[p] == FreePage <==> own[p] == FreePage)
    requires forall p :: 0 <= p < |own| && own[p] == FreePage ==> mem'[p] == mem[p]
    ensures FreeOk(mem', own', lo, hi, freelist, free)
  {
    forall i | 0 <= i < |free|
      ensures FreeAt(mem', own', lo, hi, free, i)
    {
      assert FreeAt(mem, own, lo, hi, free, i);
    }
  }

  /** Directory entries restrict nothing, so what is reached is what the table entries say. */
  lemma {:induction false} TranslateIs(mem: seq<Page>, own: seq<Owner>, lo: nat, hi: nat, d: nat)
    requires TablesOk(mem, own, lo, hi, d)
    ensures forall v: nat :: v < VPAGES ==> Translate(mem, d, v) == EntryAccess(Pte(mem, d, v))
  {
    forall v: nat | v < VPAGES
      ensures Translate(mem, d, v) == EntryAccess(Pte(mem, d, v))
    {
      assert TableAt(mem, own, lo, hi, d, v / NPTENTRIES);
    }
  }

  lemma {:induction false} SameAccess(mem: seq<Page>, own: seq<Owner>, mem': seq<Page>, own': seq<Owner>, lo: nat,
                                      hi: nat, d: nat)
    requires TablesOk(mem, own, lo, hi, d) && TablesOk(mem', own', lo, hi, d)
    requires forall v: nat :: v < VPAGES ==> Pte(mem', d, v) == Pte(mem, d, v)
    ensures forall v: nat :: v < VPAGES ==> Translate(mem', d, v) == Translate(mem, d, v)
  {
    TranslateIs(mem, own, lo, hi, d);
    TranslateIs(mem', own', lo, hi, d);
  }

  /** What mappages gives: exactly the rights asked for. */
  lemma {:induction false} MappedAccess(mem: seq<Page>, own: seq<Owner>, mem': seq<Page>, own': seq<Owner>, lo: nat,
                                        hi: nat, d: nat, first: nat, upto: nat, base: nat, perm: nat)
    requires TablesOk(mem, own, lo, hi, d) && TablesOk(mem', own', lo, hi, d) && perm < PGSIZE
    requires forall v: nat :: v < VPAGES ==>
      Pte(mem', d, v) == if first <= v < upto then Entry(base + (v - first), perm) else Pte(mem, d, v)
    ensures forall v: nat :: v < VPAGES ==>
      Translate(mem', d, v)
      == if first <= v < upto then Access(base + (v - first), Writable(perm), ForUser(perm)) else Translate(mem, d, v)
  {
    TranslateIs(mem, own, lo, hi, d);
    TranslateIs(mem', own', lo, hi, d);
    hide TablesOk, Translate, Pte;
    forall v: nat | v < VPAGES && first <= v < upto
      ensures EntryAccess(Pte(mem', d, v)) == Access(base + (v - first), Writable(perm), ForUser(perm))
    {
      EntryBits(base + (v - first), perm);
    }
  }

  /** A new, zeroed page table changes no translation. */
  lemma {:induction false} AddTable(mem: seq<Page>, own: seq<Owner>, lo: nat, hi: nat, d: nat, i: nat, t: nat)
    requires SpaceOk(mem, own, lo, hi, d) && i < NPDENTRIES && !Present(mem[d][i])
    requires lo <= t < hi && own[t] == Loose(d) && mem[t] == Filled(0)
    ensures var mem', own' := mem[d := mem[d][i := Entry(t, PTE_W + PTE_U)]], own[t := Table(d, i)];
      && SpaceOk(mem', own', lo, hi, d)
      && forall v: nat :: v < VPAGES ==> Pte(mem', d, v) == Pte(mem, d, v)
  {
    var mem', own' := mem[d := mem[d][i := Entry(t, PTE_W + PTE_U)]], own[t := Table(d, i)];
    EntryBits(t, PTE_W + PTE_U);
    forall v: nat | v < VPAGES
      ensures Pte(mem', d, v) == Pte(mem, d, v)
    {
      assert TableAt(mem, own, lo, hi, d, v / NPTENTRIES);
    }
    forall j | 0 <= j < NPDENTRIES
      ensures TableAt(mem', own', lo, hi, d, j)
    {
      assert TableAt(mem, own, lo, hi, d, j);
    }
    forall p | 0 <= p < |own'|
      ensures TableUsed(mem', own', d, p) && DataUsed(mem', own', d, p)
    {
      assert TableUsed(mem, own, d, p) && DataUsed(mem, own, d, p);
    }
    forall v | 0 <= v < USERPAGES
      ensures DataAt(mem', own', lo, hi, d, v)
    {
      assert DataAt(mem, own, lo, hi, d, v);
    }
  }

  /** Writing one page table entry changes just that translation. */
  lemma {:induction false} SetPte(mem: seq<Page>, own: seq<Owner>, lo: nat, hi: nat, d: nat, v: nat, w: int)
    requires TablesOk(mem, own, lo, hi, d) && v < VPAGES && Present(mem[d][v / NPTENTRIES])
    ensures var t := PteAddr(mem[d][v / NPTENTRIES]);
      && lo <= t < hi && own[t] == Table(d, v / NPTENTRIES)
      && var mem' := mem[t := mem[t][v % NPTENTRIES := w]];
         && TablesOk(mem', own, lo, hi, d)
         && forall u: nat :: u < VPAGES ==> Pte(mem', d, u) == if u == v then w else Pte(mem, d, u)
  {
    var i := v / NPTENTRIES;
    assert TableAt(mem, own, lo, hi, d, i);
    var t := PteAddr(mem[d][i]);
    var mem' := mem[t := mem[t][v % NPTENTRIES := w]];
    forall j | 0 <= j < NPDENTRIES
      ensures TableAt(mem', own, lo, hi, d, j)
    {
      assert TableAt(mem, own, lo, hi, d, j);
    }
    forall p | 0 <= p < |own|
      ensures TableUsed(mem', own, d, p)
    {
      assert TableUsed(mem, own, d, p);
    }
    forall u: nat | u < VPAGES
      ensures Pte(mem', d, u) == if u == v then w else Pte(mem, d, u)
    {
      var j := u / NPTENTRIES;
      assert TableAt(mem, own, lo, hi, d, j);
      assert u == j * NPTENTRIES + u % NPTENTRIES && v == i * NPTENTRIES + v % NPTENTRIES;
    }
  }

  /** Changing the use of one page of `d` other than its tables. */
  lemma {:induction false} RetagTables(mem: seq<Page>, own: seq<Owner>, lo: nat, hi: nat, d: nat, p: nat, o: Owner)
    requires TablesOk(mem, own, lo, hi, d) && p < |own| && (own[p].Loose? || own[p].Data? || own[p] == FreePage)
    requires o.Loose? || o.Data? || o == FreePage
    ensures TablesOk(mem, own[p := o], lo, hi, d)
  {
    var own' := own[p := o];
    forall i | 0 <= i < NPDENTRIES
      ensures TableAt(mem, own', lo, hi, d, i)
    {
      assert TableAt(mem, own, lo, hi, d, i);
    }
    forall q | 0 <= q < |own'|
      ensures TableUsed(mem, own', d, q)
    {
      assert TableUsed(mem, own, d, q);
    }
  }

  /** The contents of a page that is no table do not matter to the tables. */
  lemma {:induction false} WritePage(mem: seq<Page>, own: seq<Owner>, lo: nat, hi: nat, d: nat, p: nat, page: Page)
    requires TablesOk(mem, own, lo, hi, d) && p < |own| && |page| == NPTENTRIES && !own[p].Dir? && !own[p].Table?
    ensures TablesOk(mem[p := page], own, lo, hi, d)
    ensures forall v: nat :: v < VPAGES ==> Pte(mem[p := page], d, v) == Pte(mem, d, v)
  {
    var mem' := mem[p := page];
    forall i | 0 <= i < NPDENTRIES
      ensures TableAt(mem', own, lo, hi, d, i)
    {
      assert TableAt(mem, own, lo, hi, d, i);
    }
    forall q | 0 <= q < |own|
      ensures TableUsed(mem', own, d, q)
    {
      assert TableUsed(mem, own, d, q);
    }
    forall v: nat | v < VPAGES
      ensures Pte(mem', d, v) == Pte(mem, d, v)
    {
      assert TableAt(mem, own, lo, hi, d, v / NPTENTRIES);
    }
  }

  /** The user pages after entry `v` changed from `was` to `w`, and page `p` its use. */
  lemma {:induction false} DataChanged(mem: seq<Page>, own: seq<Owner>, lo: nat, hi: nat, d: nat, mem': seq<Page>,
                                       own': seq<Owner>, v: nat, p: nat)
    requires DataOk(mem, own, lo, hi, d) && v < VPAGES && p < |own| == |own'|
    requires forall u: nat :: u < VPAGES && u != v ==> Pte(mem', d, u) == Pte(mem, d, u)
    requires forall q :: 0 <= q < |own| && q != p ==> own'[q] == own[q]
    requires v < USERPAGES ==>
      if Present(Pte(mem', d, v))
      then
        && !Present(Pte(mem, d, v)) && PteAddr(Pte(mem', d, v)) == p
        && own[p] == Loose(d) && own'[p] == Data(d, v) && lo <= p < hi
      else Present(Pte(mem, d, v)) && PteAddr(Pte(mem, d, v)) == p && own'[p] == FreePage
    requires v >= USERPAGES ==> own' == own
    ensures DataOk(mem', own', lo, hi, d)
  {
    assert v < USERPAGES ==> DataAt(mem, own, lo, hi, d, v);
    forall u | 0 <= u < USERPAGES
      ensures DataAt(mem', own', lo, hi, d, u)
    {
      assert DataAt(mem, own, lo, hi, d, u);
    }
    forall q | 0 <= q < |own'|
      ensures DataUsed(mem', own', d, q)
    {
      assert DataUsed(mem, own, d, q);
    }
  }

  /** The user pages when no translation changed and no page that is one changed its use. */
  lemma {:induction false} DataSame(mem: seq<Page>, own: seq<Owner>, lo: nat, hi: nat, d: nat, mem': seq<Page>,
                                    own': seq<Owner>)
    requires DataOk(mem, own, lo, hi, d) && |own| == |own'|
    requires forall u: nat :: u < VPAGES ==> Pte(mem', d, u) == Pte(mem, d, u)
    requires forall q :: 0 <= q < |own| ==> own'[q] == own[q] || (!own[q].Data? && !own'[q].Data?)
    ensures DataOk(mem', own', lo, hi, d)
  {
    forall u | 0 <= u < USERPAGES
      ensures DataAt(mem', own', lo, hi, d, u)
    {
      assert DataAt(mem, own, lo, hi, d, u);
    }
    forall q | 0 <= q < |own'|
      ensures DataUsed(mem', own', d, q)
    {
      assert DataUsed(mem, own, d, q);
    }
  }

  /** Pages are owned by directories that exist. */
  ghost predicate NoOrphans(own: seq<Owner>) {
    forall p :: 0 <= p < |own| ==> HasDir(own, own[p])
  }

  ghost predicate HasDir(own: seq<Owner>, o: Owner) {
    o.Dir? || o.Table? || o.Data? || o.Loose? ==> o.d < |own| && own[o.d] == Dir(o.d)
  }

  /** What walkpgdir and mappages may do to directory `d`: take free pages for tables, and
      map loose pages. */
  ghost predicate Grows(mem: seq<Page>, own: seq<Owner>, mem': seq<Page>, own': seq<Owner>, d: nat) {
    && |mem'| == |mem| == |own| == |own'|
    && forall p :: 0 <= p < |mem| ==> Grow(mem[p], own[p], mem'[p], own'[p], d)
  }

  ghost predicate Grow(page: Page, o: Owner, page': Page, o': Owner, d: nat) {
    if o == FreePage then (o' == FreePage && page' == page) || (o'.Table? && o'.d == d)
    else if o == Dir(d) || (o.Table? && o.d == d) then o' == o
    else if o == Loose(d) then page' == page && (o' == o || (o'.Data? && o'.d == d))
    else o' == o && page' == page
  }

  lemma GrowsTrans(mem: seq<Page>, own: seq<Owner>, mem1: seq<Page>, own1: seq<Owner>, mem2: seq<Page>,
                   own2: seq<Owner>, d: nat)
    requires Grows(mem, own, mem1, own1, d) && Grows(mem1, own1, mem2, own2, d)
    ensures Grows(mem, own, mem2, own2, d)
  {
    forall p | 0 <= p < |mem|
      ensures Grow(mem[p], own[p], mem2[p], own2[p], d)
    {
      assert Grow(mem[p], own[p], mem1[p], own1[p], d) && Grow(mem1[p], own1[p], mem2[p], own2[p], d);
    }
  }

  lemma GrowsTouches(mem: seq<Page>, own: seq<Owner>, mem': seq<Page>, own': seq<Owner>, d: nat)
    requires Grows(mem, own, mem', own', d)
    ensures OnlyTouches(mem, own, mem', own', d)
  {
    forall p | 0 <= p < |mem|
      ensures Touch(mem[p], own[p], mem'[p], own'[p], d)
    {
      assert Grow(mem[p], own[p], mem'[p], own'[p], d);
    }
  }

  /** The use of a page after the user pages `from` up to `to` of directory `d` were freed. */
  function Unmapped(o: Owner, d: nat, from: nat, to: nat): Owner {
    if o.Data? && o.d == d && from <= o.v < to then FreePage else o
  }

  /** The user pages `from` up to `to` of directory `d` are unmapped and free; nothing else
      changed but the contents of pages that are free now and of d's tables. */
  ghost predicate Shrunk(mem: seq<Page>, own: seq<Owner>, mem': seq<Page>, own': seq<Owner>, d: nat, from: nat,
                         to: nat) {
    && |mem'| == |mem| == |own| == |own'|
    && (forall p :: 0 <= p < |own| ==> own'[p] == Unmapped(own[p], d, from, to))
    && (forall p :: 0 <= p < |own| ==> Kept(mem[p], own[p], mem'[p], own'[p], d))
    && (forall v: nat :: v < VPAGES ==>
          Pte(mem', d, v) == if from <= v < to && v < USERPAGES && Present(Pte(mem, d, v)) then 0 else Pte(mem, d, v))
  }

  ghost predicate Kept(page: Page, o: Owner, page': Page, o': Owner, d: nat) {
    o' == FreePage || (o.Table? && o.d == d) || page' == page
  }

  lemma ShrunkNone(mem: seq<Page>, own: seq<Owner>, d: nat, from: nat)
    requires |mem| == |own|
    ensures Shrunk(mem, own, mem, own, d, from, from)
  {
  }

  /** Page table entries that do not exist need no unmapping. */
  lemma {:induction false} ShrunkSkip(mem0: seq<Page>, own0: seq<Owner>, mem: seq<Page>, own: seq<Owner>, lo: nat,
                                      hi: nat, d: nat, from: nat, a: nat, a': nat)
    requires Shrunk(mem0, own0, mem, own, d, from, a) && DataOk(mem, own, lo, hi, d) && from <= a <= a'
    requires forall v: nat :: a <= v < a' && v < VPAGES ==> !Present(Pte(mem, d, v))
    ensures Shrunk(mem0, own0, mem, own, d, from, a')
  {
    forall p | 0 <= p < |own|
      ensures own[p] == Unmapped(own0[p], d, from, a')
    {
      assert DataUsed(mem, own, d, p);
      assert own[p] == Unmapped(own0[p], d, from, a);
    }
  }

  lemma {:induction false} ShrunkStep(mem0: seq<Page>, own0: seq<Owner>, mem: seq<Page>, own: seq<Owner>, lo: nat,
                                      hi: nat, d: nat, from: nat, a: nat, mem': seq<Page>, own': seq<Owner>, p: nat)
    requires Shrunk(mem0, own0, mem, own, d, from, a) && SpaceOk(mem, own, lo, hi, d) && from <= a < USERPAGES
    requires Present(Pte(mem, d, a)) && p == PteAddr(Pte(mem, d, a)) && |mem'| == |own'| == |mem|
    requires 0 <= p < |own|
    requires own' == own[p := FreePage]
    requires forall q :: 0 <= q < |mem| && q != p && !(own[q].Table? && own[q].d == d) ==> mem'[q] == mem[q]
    requires forall v: nat :: v < VPAGES ==> Pte(mem', d, v) == if v == a then 0 else Pte(mem, d, v)
    ensures Shrunk(mem0, own0, mem', own', d, from, a + 1)
  {
    assert DataAt(mem, own, lo, hi, d, a);
    forall q | 0 <= q < |own|
      ensures own'[q] == Unmapped(own0[q], d, from, a + 1)
      ensures Kept(mem0[q], own0[q], mem'[q], own'[q], d)
    {
      assert own[q] == Unmapped(own0[q], d, from, a) && Kept(mem0[q], own0[q], mem[q], own[q], d);
      assert DataUsed(mem, own, d, q);
    }
  }

  ghost predicate NoLoose(own: seq<Owner>, d: nat) {
    forall p :: 0 <= p < |own| ==> own[p] != Loose(d)
  }

  function FreedOf(o: Owner, d: nat): Owner {
    if OwnedBy(o, d) then FreePage else o
  }

  /** Everything directory `d` owned is free; nothing else changed but free pages' contents. */
  ghost predicate Gone(mem: seq<Page>, own: seq<Owner>, mem': seq<Page>, own': seq<Owner>, d: nat) {
    && |mem'| == |mem| == |own| == |own'|
    && forall p :: 0 <= p < |own| ==> own'[p] == FreedOf(own[p], d) && (own'[p] == FreePage || mem'[p] == mem[p])
  }

  /** freevm's loop: the first `i` page tables are free. */
  function TablesGone(o: Owner, d: nat, i: nat): Owner {
    if o.Table? && o.d == d && o.i < i then FreePage else o
  }

  ghost predicate Going(mem: seq<Page>, own: seq<Owner>, mem': seq<Page>, own': seq<Owner>, d: nat, i: nat) {
    && |mem'| == |mem| == |own| == |own'|
    && forall p :: 0 <= p < |own| ==> own'[p] == TablesGone(own[p], d, i) && (own'[p] == FreePage || mem'[p] == mem[p])
  }

  /** What freevm's loop finds at entry `i`. */
  lemma {:induction false} GoingStep(mem1: seq<Page>, own1: seq<Owner>, lo: nat, hi: nat, mem: seq<Page>,
                                     own: seq<Owner>, d: nat, i: nat, page: Page)
    requires TablesOk(mem1, own1, lo, hi, d) && Going(mem1, own1, mem, own, d, i) && i < NPDENTRIES
    ensures d < |mem| == |own| && |mem[d]| == NPDENTRIES && mem[d] == mem1[d]
    ensures Present(mem[d][i]) ==> var t := PteAddr(mem[d][i]); lo <= t < hi && t < |own| && own[t] == Table(d, i)
    ensures !Present(mem[d][i]) ==> Going(mem1, own1, mem, own, d, i + 1)
    ensures Present(mem[d][i]) ==> var t := PteAddr(mem[d][i]);
      Going(mem1, own1, mem[t := page], own[t := FreePage], d, i + 1)
  {
    assert own[d] == TablesGone(own1[d], d, i);
    assert TableAt(mem1, own1, lo, hi, d, i);
    var t := PteAddr(mem[d][i]);
    forall p | 0 <= p < |own| && own1[p] == Table(d, i)
      ensures Present(mem[d][i]) && p == t
    {
      assert TableUsed(mem1, own1, d, p);
    }
  }

  /** After the loop only the directory itself is left. */
  lemma {:induction false} LastPage(mem0: seq<Page>, own0: seq<Owner>, lo: nat, hi: nat, mem1: seq<Page>,
                                    own1: seq<Owner>, mem: seq<Page>, own: seq<Owner>, d: nat, page: Page)
    requires SpaceOk(mem0, own0, lo, hi, d) && NoLoose(own0, d)
    requires Shrunk(mem0, own0, mem1, own1, d, 0, USERPAGES) && TablesOk(mem1, own1, lo, hi, d)
    requires Going(mem1, own1, mem, own, d, NPDENTRIES)
    ensures lo <= d < hi && d < |mem| == |own| && own[d] == Dir(d) && forall q :: 0 <= q < |own| && q != d ==>
      !OwnedBy(own[q], d)
    ensures Gone(mem0, own0, mem[d := page], own[d := FreePage], d)
  {
    forall q | 0 <= q < |own|
      ensures own[q] == if q == d then Dir(d) else FreedOf(own0[q], d)
      ensures own[q] == FreePage || mem[q] == mem0[q] || q == d
    {
      assert TableUsed(mem0, own0, d, q) && DataUsed(mem0, own0, d, q) && TableUsed(mem1, own1, d, q);
      assert own1[q] == Unmapped(own0[q], d, 0, USERPAGES) && Kept(mem0[q], own0[q], mem1[q], own1[q], d);
      assert own[q] == TablesGone(own1[q], d, NPDENTRIES);
    }
  }

  /** Directory `d` is new: all its pages were free in the first state, and no page that was
      in use then has changed. */
  ghost predicate NewSpace(mem: seq<Page>, own: seq<Owner>, mem': seq<Page>, own': seq<Owner>, d: nat) {
    && |mem'| == |mem| == |own| == |own'|
    && forall p :: 0 <= p < |own| ==> NewPage(mem[p], own[p], mem'[p], own'[p], d)
  }

  ghost predicate NewPage(page: Page, o: Owner, page': Page, o': Owner, d: nat) {
    if o == FreePage then o' == FreePage || OwnedBy(o', d) else o' == o && page' == page && !OwnedBy(o, d)
  }

  lemma NewSpaceGrows(mem: seq<Page>, own: seq<Owner>, mem1: seq<Page>, own1: seq<Owner>, mem2: seq<Page>,
                      own2: seq<Owner>, d: nat)
    requires NewSpace(mem, own, mem1, own1, d) && Grows(mem1, own1, mem2, own2, d)
    ensures NewSpace(mem, own, mem2, own2, d)
    ensures NoLoose(own1, d) ==> NoLoose(own2, d)
  {
    forall p | 0 <= p < |own|
      ensures NewPage(mem[p], own[p], mem2[p], own2[p], d)
      ensures own2[p] == Loose(d) ==> own1[p] == Loose(d)
    {
      assert NewPage(mem[p], own[p], mem1[p], own1[p], d) && Grow(mem1[p], own1[p], mem2[p], own2[p], d);
    }
  }

  /** Building a directory and freeing it again restores the use of every page, and the
      contents of every page in use. */
  lemma {:induction false} BuiltAndGone(mem: seq<Page>, own: seq<Owner>, mem1: seq<Page>, own1: seq<Owner>,
                                        mem2: seq<Page>, own2: seq<Owner>, d: nat)
    requires NewSpace(mem, own, mem1, own1, d) && Gone(mem1, own1, mem2, own2, d)
    ensures own2 == own && |mem2| == |mem|
    ensures forall p :: 0 <= p < |own| && own[p] != FreePage ==> mem2[p] == mem[p]
  {
    forall p | 0 <= p < |own|
      ensures own2[p] == own[p] && (own[p] != FreePage ==> mem2[p] == mem[p])
    {
      assert NewPage(mem[p], own[p], mem1[p], own1[p], d);
      assert own2[p] == FreedOf(own1[p], d) && (own2[p] == FreePage || mem2[p] == mem1[p]);
    }
    assert own2 == own;
  }

  lemma {:induction false} EmptySpace(mem: seq<Page>, own: seq<Owner>, lo: nat, hi: nat, d: nat)
    requires MemOk(mem, own, lo, hi) && NoOrphans(own) && lo <= d < hi && own[d] == FreePage
    ensures var mem', own' := mem[d := Filled(0)], own[d := Dir(d)];
      && SpaceOk(mem', own', lo, hi, d) && NoLoose(own', d) && NewSpace(mem, own, mem', own', d)
      && forall v: nat :: v < VPAGES ==> Pte(mem', d, v) == 0
  {
    var mem', own' := mem[d := Filled(0)], own[d := Dir(d)];
    forall p | 0 <= p < |own|
      ensures !OwnedBy(own[p], d)
    {
      assert HasDir(own, own[p]);
    }
    forall p | 0 <= p < |own'|
      ensures TableUsed(mem', own', d, p) && DataUsed(mem', own', d, p)
    {
      assert !OwnedBy(own[p], d);
    }
  }

  const EXTMEM := 0x10_0000
  const PHYSTOP := 0xE00_0000
  const DEVSPACE := 0xFE00_0000
  const ADDRESSES := 0x1_0000_0000

  /** A row of kmap[]; the end address 0 of the last one is 2^32. */
  datatype Kmap = Kmap(virt: nat, start: nat, end: nat, perm: nat)

  const NKMAP := 4

  function KmapRow(k: nat, dataPage: nat): Kmap {
    if k == 0 then Kmap(KERNBASE, 0, EXTMEM, PTE_W)
    else if k == 1 then Kmap(KERNBASE + EXTMEM, EXTMEM, dataPage * PGSIZE, 0)
    else if k == 2 then Kmap(KERNBASE + dataPage * PGSIZE, dataPage * PGSIZE, PHYSTOP, PTE_W)
    else Kmap(DEVSPACE, DEVSPACE, ADDRESSES, PTE_W)
  }

  /** The kernel's data section begins on a page between the I/O hole and PHYSTOP. */
  predicate DataPageOk(dataPage: nat) {
    EXTMEM / PGSIZE < dataPage < PHYSTOP / PGSIZE
  }

  /** Which row maps virtual page `v`; NKMAP if none. */
  function Region(v: nat, dataPage: nat): nat {
    if v < USERPAGES then NKMAP
    else if v < USERPAGES + EXTMEM / PGSIZE then 0
    else if v < USERPAGES + dataPage then 1
    else if v < USERPAGES + PHYSTOP / PGSIZE then 2
    else if v < DEVSPACE / PGSIZE then NKMAP
    else 3
  }

  /** The kernel half of every address space: physical memory from KERNBASE up, its text
      read-only, and the devices at their own addresses. */
  function KernelPte(v: nat, dataPage: nat): int {
    if Region(v, dataPage) == NKMAP then 0
    else Entry(if v >= DEVSPACE / PGSIZE then v else v - USERPAGES, if Region(v, dataPage) == 1 then 0 else PTE_W)
  }

  /** The kernel may write all of its memory but its text, and user code may access none. */
  function KernelAccess(v: nat, dataPage: nat): Access {
    var kern := KERNBASE / PGSIZE;
    if v < kern then Fault
    else if v < kern + EXTMEM / PGSIZE then Access(v - kern, true, false)
    else if v < kern + dataPage then Access(v - kern, false, false)
    else if v < kern + PHYSTOP / PGSIZE then Access(v - kern, true, false)
    else if v < DEVSPACE / PGSIZE then Fault
    else Access(v, true, false)
  }

  lemma {:induction false} KernelAccessIs(mem: seq<Page>, own: seq<Owner>, lo: nat, hi: nat, d: nat, dataPage: nat,
                                          from: nat)
    requires TablesOk(mem, own, lo, hi, d) && DataPageOk(dataPage)
    requires forall v: nat :: from <= v < VPAGES ==> Pte(mem, d, v) == KernelPte(v, dataPage)
    ensures forall v: nat :: from <= v < VPAGES ==> Translate(mem, d, v) == KernelAccess(v, dataPage)
  {
    TranslateIs(mem, own, lo, hi, d);
    hide TablesOk, Translate, Pte;
    forall v: nat | from <= v < VPAGES
      ensures EntryAccess(KernelPte(v, dataPage)) == KernelAccess(v, dataPage)
    {
      if Region(v, dataPage) != NKMAP {
        EntryBits(if v >= DEVSPACE / PGSIZE then v else v - USERPAGES, if Region(v, dataPage) == 1 then 0 else PTE_W);
      }
    }
  }

  lemma {:induction false} KmapMeaning(k: nat, dataPage: nat, v: nat)
    requires DataPageOk(dataPage) && k < NKMAP && v < VPAGES
    ensures var r := KmapRow(k, dataPage);
      && r.start < r.end && r.virt % PGSIZE == 0 && r.start % PGSIZE == 0
      && r.perm < PGSIZE && r.virt + (r.end - r.start) <= ADDRESSES
      && USERPAGES <= r.virt / PGSIZE
      && (r.virt / PGSIZE <= v < (r.virt + (r.end - r.start) - 1) / PGSIZE + 1 <==> Region(v, dataPage) == k)
      && (Region(v, dataPage) == k ==>
            KernelPte(v, dataPage) == Entry(r.start / PGSIZE + (v - r.virt / PGSIZE), r.perm))
  {
    assert (KERNBASE + dataPage * PGSIZE) / PGSIZE == USERPAGES + dataPage;
    assert (KERNBASE + dataPage * PGSIZE - 1) / PGSIZE == USERPAGES + dataPage - 1;
  }
}
