/** malloc, morecore and free of umalloc.c. */
module Mallocs {
  import opened Common
  import opened MallocSpec

  const HEADER := 8
  const MORECORE := 4096
  const WORD := 0x1_0000_0000

  /** The units malloc looks for, computed in 32 bits: the request rounded up to whole
      headers, and one header more. */
  function Units(nbytes: nat): nat {
    (nbytes + HEADER - 1) % WORD / HEADER + 1
  }

  /** The block is large enough, with less than a unit to spare, exactly if the sum does not wrap
      round; if it does, the block has just its header. */
  lemma UnitsSuffice(nbytes: nat)
    requires nbytes < WORD
    ensures (Units(nbytes) - 1) * HEADER >= nbytes <==> nbytes + HEADER - 1 < WORD
    ensures nbytes + HEADER - 1 < WORD ==> (Units(nbytes) - 1) * HEADER < nbytes + HEADER
    ensures nbytes + HEADER - 1 >= WORD ==> Units(nbytes) == 1
  {
  }

  class Malloc {
    const base: nat
    /** The header fields, by the address of the header. */
    var next: map<nat, nat>
    var size: map<nat, nat>
    var freep: Option<nat>
    ghost var list: seq<nat>
    ghost var live: map<nat, nat>
    ghost var cell: map<nat, nat>

    ghost predicate Valid()
      reads this
    {
      if freep.None? then list == [base] && live == map[] && cell == map[]
      else HeapOk(base, list, next, size, live, cell) && freep.value in list
    }

    constructor (base: nat)
      ensures Valid() && this.base == base && live == map[] && cell == map[]
    {
      this.base := base;
      next, size, freep := map[], map[], None;
      list, live, cell := [base], map[], map[];
    }

    /** free of the block whose header is at `bp`. Its search goes round the list from
        freep and ends at the one place where the block belongs. */
    method Free(bp: nat)
      requires Valid() && freep.Some? && bp in live
      modifies this
      ensures Valid() && freep.Some? && live == old(live) - {bp} && cell.Keys == old(cell.Keys)
      ensures Large(list, size, old(live)[bp])
      ensures exists c: nat :: Place(old(list), bp, c) && freep == Some(old(list)[c])
    {
      hide Shape, Links;
      Bounds(base, list, next, size, live, cell, bp);
      ghost var c := FindPlace(list, bp);
      ghost var i :| 0 <= i < |list| && list[i] == freep.value;
      NextOf(list, next, i);
      var p := freep.value;
      while !(bp > p && bp < next[p]) && !(p >= next[p] && (bp > p || bp < next[p]))
        invariant 0 <= i < |list| && p == list[i] && p in next && next[p] == list[Succ(|list|, i)]
        decreases if i <= c then c - i else |list| - i + c
        modifies {}
      {
        NotHere(list, bp, c, i);
        NextOf(list, next, Succ(|list|, i));
        p := next[p];
        i := Succ(|list|, i);
      }
      Here(list, bp, c, i);
      Join(bp, p, c);
    }

    /** The rest of free, at the right place. */
    method Join(bp: nat, p: nat, ghost c: nat)
      requires Valid() && freep.Some? && bp in live && Place(list, bp, c) && p == list[c]
      modifies this
      ensures Valid() && freep.Some? && live == old(live) - {bp} && cell.Keys == old(cell.Keys)
      ensures Large(list, size, old(live)[bp]) && freep == Some(p)
    {
      JoinAbove(bp, p, c);
      JoinBelow(bp, p, c);
    }

    /** free's first join, with the block right above. */
    method JoinAbove(bp: nat, p: nat, ghost c: nat)
      requires Valid() && freep.Some? && bp in live && Place(list, bp, c) && p == list[c]
      modifies this
      ensures freep.Some? && live == old(live) - {bp} && cell.Keys == old(cell.Keys)
      ensures Halfway(base, list, next, size, live, cell, c) && list[c] == p && list[c + 1] == bp
      ensures bp in size && size[bp] >= old(live)[bp]
    {
      hide Tiles, FreeSet, NoTouch, Links, Shape, Inserted, Dropped, Merged, Ascending;
      Bounds(base, list, next, size, live, cell, bp);
      NextOf(list, next, c);
      DropNew(list, c, bp);
      if bp + size[bp] == next[p] {
        NextOf(list, next, c + 1);
        JoinUpShape(base, list, size, live, cell, bp, c);
        LinksReplace(list, next, bp, c);
        MergedKeys(cell, next[p], bp);
        cell := Merged(cell, next[p], bp);
        size := size[bp := size[bp] + size[next[p]]];
        next := next[bp := next[next[p]]];
        list := list[c + 1 := bp];
      } else {
        InsertShape(base, list, size, live, cell, bp, c);
        LinksInsert(list, next, bp, c);
        next := next[bp := next[p]];
        list := Inserted(list, c, bp);
      }
      live := live - {bp};
    }

    /** free's second join, with the block right below. */
    method JoinBelow(bp: nat, p: nat, ghost c: nat)
      requires Halfway(base, list, next, size, live, cell, c) && list[c] == p && list[c + 1] == bp
      modifies this
      ensures Valid() && freep.Some? && live == old(live) && cell.Keys == old(cell.Keys)
      ensures bp in old(size) && Large(list, size, old(size)[bp]) && freep == Some(p)
    {
      hide Tiles, FreeSet, NoTouch, Links, Shape;
      SizeOf(base, list, size, live, cell, c, c);
      SizeOf(base, list, size, live, cell, c, c + 1);
      if p + size[p] == bp {
        JoinDownShape(base, list, size, live, cell, c);
        MergedKeys(cell, bp, p);
        cell := Merged(cell, bp, p);
        size := size[p := size[p] + size[bp]];
        next := next[p := next[bp]];
        list := Dropped(list, c + 1);
        assert list[c] == p;
      } else {
        TightShape(base, list, size, live, cell, c);
        next := next[p := bp];
        assert list[c + 1] == bp;
      }
      freep := Some(p);
      assert list[c] == p;
    }

    /** morecore; `sbrk` is what sbrk answers: None, or the address of new memory above all
        of the heap. */
    method Morecore(nu: nat, sbrk: Option<nat>) returns (r: Option<nat>)
      requires Valid() && freep.Some? && nu > 0
      requires sbrk.Some? ==> base < sbrk.value && forall a :: sbrk.value <= a ==> a !in cell
      modifies this
      ensures Valid() && freep.Some? && live == old(live)
      ensures r.None? <==> sbrk.None?
      ensures r.None? ==> unchanged(this)
      ensures r.Some? ==> r == freep && Large(list, size, nu)
      ensures r.Some? ==> cell.Keys == old(cell.Keys) + Range(sbrk.value, Max(nu, MORECORE))
    {
      hide Tiles, FreeSet, NoTouch, Links, Shape, Large, Range;
      var n := Max(nu, MORECORE);
      if sbrk.None? {
        return None;
      }
      var hp := sbrk.value;
      GrowHeap(base, list, next, size, live, cell, hp, n);
      size := size[hp := n];
      cell := Grown(cell, hp, n);
      live := live[hp := n];
      Free(hp);
      LargeMore(list, size, n, nu);
      return freep;
    }

    /** malloc; the result is the address behind the header. The search ends, and asks for
        memory at most once; it fails only if no free block is large enough and sbrk
        has nothing. */
    method Alloc(nbytes: nat, sbrk: Option<nat>) returns (r: Option<nat>)
      requires Valid()
      requires sbrk.Some? ==> base < sbrk.value && forall a :: sbrk.value <= a ==> a !in cell
      modifies this
      ensures Valid() && freep.Some?
      ensures r.Some? <==> sbrk.Some? || (old(freep).Some? && Large(old(list), old(size), Units(nbytes)))
      ensures r.None? ==> live == old(live) && cell == old(cell)
      ensures old(freep).Some? && Large(old(list), old(size), Units(nbytes)) ==>
        && cell.Keys == old(cell.Keys)
        && exists i: nat :: NextFit(old(list), old(size), Units(nbytes), old(freep).value, i, r, freep)
      ensures r.Some? ==> r.value > 0 && r.value - 1 !in old(live) && live == old(live)[r.value - 1 := Units(nbytes)]
      ensures r.Some? && !(old(freep).Some? && Large(old(list), old(size), Units(nbytes))) ==>
        cell.Keys == old(cell.Keys) + Range(sbrk.value, Max(Units(nbytes), MORECORE))
    {
      hide Tiles, FreeSet, NoTouch, Links, Shape, Large, Range, Ascending, Ahead, NextFit, Fits, Searching;
      var nunits := Units(nbytes);
      if freep.None? {
        next := next[base := base];
        size := size[base := 0];
        freep := Some(base);
        Empty(base, next, size, nunits);
      }
      ghost var list0, size0, freep0, grown := list, size, freep, false;
      ghost var f :| 0 <= f < |list| && list[f] == freep.value;
      ghost var i := f;
      NextOf(list, next, i);
      var prevp := freep.value;
      var p := next[prevp];
      SearchStart(list, size, nunits, f);
      while true
        invariant Valid() && freep.Some? && live == old(live) && (!grown ==> cell == old(cell) && freep == freep0)
        invariant 0 <= i < |list| && prevp == list[i] && p == list[Succ(|list|, i)]
        invariant 0 <= f < |list| && freep.value == list[f]
        invariant Searching(list0, size0, list, size, nunits, grown, f, Succ(|list|, i))
        invariant grown ==>
          sbrk.Some? && cell.Keys == old(cell.Keys) + Range(sbrk.value, Max(nunits, MORECORE))
        decreases if grown then 0 else 1, Ahead(|list|, f, Succ(|list|, i))
      {
        ghost var k := Succ(|list|, i);
        SizeOf(base, list, size, live, cell, -1, k);
        if size[p] >= nunits {
          SearchFound(list0, size0, list, size, nunits, grown, f, i);
          p := HandOut(prevp, p, i, nunits);
          return Some(p + 1);
        }
        SamePlace(base, list, size, live, cell, k, f);
        SearchOn(list0, size0, list, size, nunits, grown, f, k);
        if p == freep.value {
          var more := Morecore(nunits, sbrk);
          if more.None? {
            return None;
          }
          p := more.value;
          grown := true;
          f :| 0 <= f < |list| && list[f] == freep.value;
          k := f;
          SearchMore(list0, size0, list, size, nunits, f);
        }
        NextOf(list, next, k);
        prevp := p;
        p := next[p];
        i := k;
      }
    }

    /** What malloc does with a block that is large enough. */
    method HandOut(prevp: nat, p: nat, ghost i: nat, nunits: nat) returns (q: nat)
      requires Valid() && freep.Some? && i + 1 < |list| && prevp == list[i] && p == list[i + 1]
      requires p in size && 0 < nunits <= size[p]
      modifies this
      ensures Valid() && freep == Some(prevp) && p in old(size) && q == p + (old(size)[p] - nunits)
      ensures q !in old(live) && live == old(live)[q := nunits] && cell.Keys == old(cell.Keys)
    {
      hide Tiles, FreeSet, NoTouch, Links, Shape, Dropped;
      if size[p] == nunits {
        Unlink(prevp, p, i);
        q := p;
      } else {
        q := Split(p, i + 1, nunits, prevp, i);
      }
    }

    /** malloc's exact fit: the block at `p` leaves the list. */
    method Unlink(prevp: nat, p: nat, ghost i: nat)
      requires Valid() && freep.Some? && i + 1 < |list| && prevp == list[i] && p == list[i + 1]
      modifies this
      ensures Valid() && freep.Some? && p in old(size)
      ensures p !in old(live) && live == old(live)[p := old(size)[p]] && cell == old(cell)
      ensures freep == Some(prevp) && list == Dropped(old(list), i + 1)
    {
      hide Tiles, FreeSet, NoTouch, Links, Shape, Dropped;
      SizeOf(base, list, size, live, cell, -1, i + 1);
      TakeShape(base, list, size, live, cell, i + 1);
      LinksDrop(list, next, i);
      KeptBefore(list, i);
      live := live[p := size[p]];
      next := next[prevp := next[p]];
      list := Dropped(list, i + 1);
      freep := Some(prevp);
    }

    /** malloc's split: the block keeps its lower part, the upper part is handed out. */
    method Split(p: nat, ghost k: nat, nunits: nat, prevp: nat, ghost i: nat) returns (q: nat)
      requires Valid() && freep.Some? && 0 < k < |list| && p == list[k] && i < |list| && prevp == list[i]
      requires p in size && 0 < nunits < size[p]
      modifies this
      ensures Valid() && freep.Some?
      ensures q !in old(live) && live == old(live)[q := nunits] && cell.Keys == old(cell.Keys)
      ensures freep == Some(prevp) && list == old(list) && p in old(size)
      ensures old(size)[p] > nunits && q == p + (old(size)[p] - nunits)
    {
      hide Tiles, FreeSet, NoTouch, Links, Shape;
      SplitShape(base, list, size, live, cell, k, nunits);
      size := size[p := size[p] - nunits];
      q := p + size[p];
      size := size[q := nunits];
      live := live[q := nunits];
      CarvedKeys(cell, q, nunits);
      cell := Carved(cell, q, nunits);
      freep := Some(prevp);
    }
  }

  lemma KeptBefore(list: seq<nat>, i: nat)
    requires i + 1 < |list|
    ensures list[i] in Dropped(list, i + 1)
  {
    assert Dropped(list, i + 1)[i] == list[i];
  }

  lemma CarvedKeys(cell: map<nat, nat>, q: nat, n: nat)
    ensures Carved(cell, q, n).Keys == cell.Keys
  {
  }

  lemma GrowHeap(base: nat, list: seq<nat>, next: map<nat, nat>, size: map<nat, nat>, live: map<nat, nat>,
                 cell: map<nat, nat>, q: nat, n: nat)
    requires HeapOk(base, list, next, size, live, cell) && n > 0 && q > base && forall a :: q <= a ==> a !in cell
    ensures q !in live && HeapOk(base, list, next, size[q := n], live[q := n], Grown(cell, q, n))
    ensures Grown(cell, q, n).Keys == cell.Keys + Range(q, n)
    ensures live[q := n] - {q} == live
  {
    hide Tiles, FreeSet, NoTouch, Links;
    GrowShape(base, list, size, live, cell, q, n);
    assert Grown(cell, q, n).Keys == cell.Keys + Range(q, n);
    assert live[q := n] - {q} == live;
  }

  lemma Empty(base: nat, next: map<nat, nat>, size: map<nat, nat>, n: nat)
    requires base in next && next[base] == base && base in size && size[base] == 0 && n > 0
    ensures HeapOk(base, [base], next, size, map[], map[]) && !Large([base], size, n)
  {
    assert Links([base], next);
  }

  lemma LargeMore(list: seq<nat>, size: map<nat, nat>, n: nat, m: nat)
    requires Large(list, size, n) && m <= n
    ensures Large(list, size, m)
  {
  }

  /** How far the search is from freep, at position `f`, when it looks at position `k`. */
  function Ahead(n: nat, f: nat, k: nat): nat
    requires f < n && k < n
  {
    if k <= f then f - k else n - k + f
  }

  ghost predicate Fits(list: seq<nat>, size: map<nat, nat>, n: nat, m: nat) {
    m < |list| && list[m] in size && size[list[m]] >= n
  }

  /** No block the search has passed on its way to position `k` is large enough. */
  ghost predicate Visited(list: seq<nat>, size: map<nat, nat>, n: nat, f: nat, k: nat)
    requires f < |list| && k < |list|
  {
    forall m: nat :: m < |list| && Ahead(|list|, f, m) > Ahead(|list|, f, k) ==> !Fits(list, size, n, m)
  }

  /** A block large enough is still ahead. */
  ghost predicate Waiting(list: seq<nat>, size: map<nat, nat>, n: nat, f: nat, k: nat)
    requires f < |list| && k < |list|
  {
    exists m: nat :: m < |list| && Ahead(|list|, f, m) <= Ahead(|list|, f, k) && Fits(list, size, n, m)
  }

  /** First fit from freep on, where the last search ended: the upper units of the first block
      large enough are handed out, and the next search starts before it. */
  ghost predicate NextFit(list: seq<nat>, size: map<nat, nat>, n: nat, from: nat, i: nat, r: Option<nat>,
                          freep: Option<nat>) {
    && i < |list| && Fits(list, size, n, Succ(|list|, i))
    && (exists f: nat :: f < |list| && list[f] == from && Visited(list, size, n, f, Succ(|list|, i)))
    && var p := list[Succ(|list|, i)]; r == Some(p + (size[p] - n) + 1) && freep == Some(list[i])
  }

  /** malloc's search, from position `f` on, has come to position `k`: before it asked for memory
      it has passed no block large enough, and after that one is ahead. */
  ghost predicate Searching(list0: seq<nat>, size0: map<nat, nat>, list: seq<nat>, size: map<nat, nat>, n: nat,
                            grown: bool, f: nat, k: nat) {
    && f < |list| && k < |list|
    && if grown then !Large(list0, size0, n) && Waiting(list, size, n, f, k)
       else list == list0 && size == size0 && Visited(list, size, n, f, k)
  }

  lemma SearchStart(list: seq<nat>, size: map<nat, nat>, n: nat, f: nat)
    requires f < |list|
    ensures Searching(list, size, list, size, n, false, f, Succ(|list|, f))
  {
  }

  lemma SearchFound(list0: seq<nat>, size0: map<nat, nat>, list: seq<nat>, size: map<nat, nat>, n: nat, grown: bool,
                    f: nat, i: nat)
    requires i < |list| && Searching(list0, size0, list, size, n, grown, f, Succ(|list|, i)) && n > 0
    requires list[Succ(|list|, i)] in size && size[list[Succ(|list|, i)]] >= n
    requires size[list[Succ(|list|, i)]] == 0 <==> Succ(|list|, i) == 0
    ensures i + 1 < |list| && (grown <==> !Large(list0, size0, n))
    ensures var p := list[i + 1];
      !grown ==> NextFit(list0, size0, n, list[f], i, Some(p + (size[p] - n) + 1), Some(list[i]))
  {
  }

  lemma SearchOn(list0: seq<nat>, size0: map<nat, nat>, list: seq<nat>, size: map<nat, nat>, n: nat, grown: bool,
                 f: nat, k: nat)
    requires Searching(list0, size0, list, size, n, grown, f, k) && n > 0
    requires list[k] in size && size[list[k]] < n
    ensures k != f ==>
      && Searching(list0, size0, list, size, n, grown, f, Succ(|list|, k))
      && Ahead(|list|, f, Succ(|list|, k)) < Ahead(|list|, f, k)
    ensures k == f ==> !grown && !Large(list0, size0, n)
  {
    if k == f {
      NoneLeft(list, size, n, f, k);
    } else {
      Onward(list, size, n, f, k);
    }
  }

  lemma SearchMore(list0: seq<nat>, size0: map<nat, nat>, list: seq<nat>, size: map<nat, nat>, n: nat, f: nat)
    requires f < |list| && !Large(list0, size0, n) && Large(list, size, n)
    ensures Searching(list0, size0, list, size, n, true, f, Succ(|list|, f))
  {
    var m :| 0 < m < |list| && list[m] in size && size[list[m]] >= n;
    assert Fits(list, size, n, m);
  }

  lemma SamePlace(base: nat, list: seq<nat>, size: map<nat, nat>, live: map<nat, nat>, cell: map<nat, nat>, k: nat,
                  f: nat)
    requires Shape(base, list, size, live, cell, -1) && k < |list| && f < |list|
    ensures list[k] == list[f] <==> k == f
  {
  }

  /** At freep everything has been passed. */
  lemma NoneLeft(list: seq<nat>, size: map<nat, nat>, n: nat, f: nat, k: nat)
    requires f < |list| && k < |list| && !Fits(list, size, n, k) && k == f
    ensures !Waiting(list, size, n, f, k)
    ensures Visited(list, size, n, f, k) ==> !Large(list, size, n)
  {
    if Visited(list, size, n, f, k) && Large(list, size, n) {
      var m :| 0 < m < |list| && list[m] in size && size[list[m]] >= n;
      assert Fits(list, size, n, m);
    }
  }

  lemma Onward(list: seq<nat>, size: map<nat, nat>, n: nat, f: nat, k: nat)
    requires f < |list| && k < |list| && !Fits(list, size, n, k) && k != f
    ensures Ahead(|list|, f, Succ(|list|, k)) < Ahead(|list|, f, k)
    ensures Visited(list, size, n, f, k) ==> Visited(list, size, n, f, Succ(|list|, k))
    ensures Waiting(list, size, n, f, k) ==> Waiting(list, size, n, f, Succ(|list|, k))
  {
  }

  /** Between free's two joins: the block is in `list` behind `c`, but the pointer at `c`
      is not yet set, to it or past it. */
  ghost predicate Halfway(base: nat, list: seq<nat>, next: map<nat, nat>, size: map<nat, nat>, live: map<nat, nat>,
                          cell: map<nat, nat>, c: nat) {
    && Shape(base, list, size, live, cell, c) && c + 1 < |list| && list[c + 1] in next
    && Links(list, next[list[c] := list[c + 1]])
    && Links(Dropped(list, c + 1), next[list[c] := next[list[c + 1]]])
  }

  lemma DropNew(list: seq<nat>, c: nat, b: nat)
    requires c < |list|
    ensures Dropped(Inserted(list, c, b), c + 1) == list
    ensures |Inserted(list, c, b)| == |list| + 1
    ensures Inserted(list, c, b)[c] == list[c] && Inserted(list, c, b)[c + 1] == b
    ensures c + 1 < |list| ==> Dropped(list[c + 1 := b], c + 1) == Dropped(list, c + 1)
  {
    var list' := Inserted(list, c, b);
    assert list'[..c + 1] == list[..c + 1] && list'[c + 2..] == list[c + 1..];
    assert Dropped(list', c + 1) == list[..c + 1] + list[c + 1..];
  }

  lemma MergedKeys(cell: map<nat, nat>, b: nat, p: nat)
    ensures Merged(cell, b, p).Keys == cell.Keys
  {
  }

  lemma SizeOf(base: nat, list: seq<nat>, size: map<nat, nat>, live: map<nat, nat>, cell: map<nat, nat>, loose: int,
               i: nat)
    requires Shape(base, list, size, live, cell, loose) && i < |list|
    ensures list[i] in size && (size[list[i]] == 0 <==> i == 0) && Ascending(list)
  {
    if i > 0 {
      FreeBlock(base, list, size, live, cell, loose, i);
    }
  }

  /** Some free block has at least `n` units. */
  ghost predicate Large(list: seq<nat>, size: map<nat, nat>, n: nat) {
    exists i :: 0 < i < |list| && list[i] in size && size[list[i]] >= n
  }

  lemma Bounds(base: nat, list: seq<nat>, next: map<nat, nat>, size: map<nat, nat>, live: map<nat, nat>,
               cell: map<nat, nat>, bp: nat)
    requires HeapOk(base, list, next, size, live, cell) && bp in live
    ensures bp in size && size[bp] == live[bp] && list != []
    ensures list[0] == base && base < bp && Ascending(list) && bp !in list
  {
    NotListed(list, bp);
  }

  lemma NextOf(list: seq<nat>, next: map<nat, nat>, i: nat)
    requires Links(list, next) && i < |list|
    ensures list[i] in next && next[list[i]] == list[Succ(|list|, i)]
  {
    assert LinkAt(list, next, i);
  }

  /** Where in the list a block belongs. */
  ghost function FindPlace(list: seq<nat>, b: nat): (c: nat)
    requires Ascending(list) && list != [] && list[0] < b && b !in list
    ensures Place(list, b, c)
  {
    if |list| == 1 || list[|list| - 1] < b then |list| - 1
    else FindPlace(list[..|list| - 1], b)
  }

  /** free's search stops nowhere else ... */
  lemma NotHere(list: seq<nat>, b: nat, c: nat, i: nat)
    requires Ascending(list) && Place(list, b, c) && i < |list| && list[0] < b && b !in list
    requires var p, q := list[i], list[Succ(|list|, i)]; !(b > p && b < q) && !(p >= q && (b > p || b < q))
    ensures i != c
  {
  }

  /** ... and does stop there. */
  lemma Here(list: seq<nat>, b: nat, c: nat, i: nat)
    requires Ascending(list) && Place(list, b, c) && i < |list| && list[0] < b && b !in list
    requires var p, q := list[i], list[Succ(|list|, i)]; (b > p && b < q) || (p >= q && (b > p || b < q))
    ensures i == c
  {
  }
}
