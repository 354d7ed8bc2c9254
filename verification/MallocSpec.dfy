/** The heap of umalloc.c. Addresses count units of one Header; `list` is the circular
    free list read from `base` on, `live` the blocks handed out with their sizes, and
    `cell` says of every unit obtained from sbrk which block it belongs to. */
module MallocSpec {
  import opened Common

  ghost predicate Ascending(list: seq<nat>) {
    forall i, j :: 0 <= i < j < |list| ==> list[i] < list[j]
  }

  /** `next` goes round `list`. */
  ghost predicate Links(list: seq<nat>, next: map<nat, nat>) {
    forall i :: 0 <= i < |list| ==> LinkAt(list, next, i)
  }

  ghost predicate LinkAt(list: seq<nat>, next: map<nat, nat>, i: nat)
    requires i < |list|
  {
    list[i] in next && next[list[i]] == list[Succ(|list|, i)]
  }

  /** No two neighbours on the list touch, but for the one at `loose` and its successor. */
  ghost predicate NoTouch(list: seq<nat>, size: map<nat, nat>, loose: int) {
    forall i :: 0 < i < |list| - 1 && i != loose ==> Apart(list, size, i)
  }

  ghost predicate Apart(list: seq<nat>, size: map<nat, nat>, i: nat)
    requires i + 1 < |list|
  {
    list[i] in size && list[i] + size[list[i]] < list[i + 1]
  }

  /** The free blocks: all of the list but `base`. */
  function FreeSet(list: seq<nat>): set<nat> {
    set i | 0 < i < |list| :: list[i]
  }

  ghost predicate Covers(size: map<nat, nat>, cell: map<nat, nat>, b: nat) {
    b in size && size[b] > 0 && forall a :: b <= a < b + size[b] ==> a in cell && cell[a] == b
  }

  ghost predicate InCell(blocks: set<nat>, size: map<nat, nat>, cell: map<nat, nat>, a: nat)
    requires a in cell
  {
    cell[a] in blocks && cell[a] in size && cell[a] <= a < cell[a] + size[cell[a]]
  }

  /** Every unit of the heap is in exactly one of the blocks, and every unit of a block is
      in the heap. */
  ghost predicate Tiles(blocks: set<nat>, size: map<nat, nat>, cell: map<nat, nat>) {
    && (forall b :: b in blocks ==> Covers(size, cell, b))
    && (forall a :: a in cell ==> InCell(blocks, size, cell, a))
  }

  /** The cells after block `b` became part of block `p`. */
  function Merged(cell: map<nat, nat>, b: nat, p: nat): map<nat, nat> {
    map a | a in cell :: if cell[a] == b then p else cell[a]
  }

  /** The cells after the units from `q` on, `n` of them, became a block. */
  function Carved(cell: map<nat, nat>, q: nat, n: nat): map<nat, nat> {
    map a | a in cell :: if q <= a < q + n then q else cell[a]
  }

  function Grown(cell: map<nat, nat>, q: nat, n: nat): map<nat, nat> {
    map a | a in cell.Keys + Range(q, n) :: if a in cell then cell[a] else q
  }

  lemma NoOverlap(blocks: set<nat>, size: map<nat, nat>, cell: map<nat, nat>, b: nat, d: nat)
    requires Tiles(blocks, size, cell) && b in blocks && d in blocks && b < d
    ensures b in size && b + size[b] <= d
  {
    assert Covers(size, cell, b) && Covers(size, cell, d);
    assert d in cell && cell[d] == d;
    if b + size[b] > d {
      assert false;
    }
  }

  /** Joining block `b` to the block `p` right below it. */
  lemma {:induction false} TilesMerge(blocks: set<nat>, size: map<nat, nat>, cell: map<nat, nat>, p: nat, b: nat)
    requires Tiles(blocks, size, cell) && p in blocks && b in blocks
    requires p in size && b in size && p + size[p] == b
    ensures Tiles(blocks - {b}, size[p := size[p] + size[b]], Merged(cell, b, p))
    ensures forall a :: a in Merged(cell, b, p) ==> a in cell
  {
    var size', cell' := size[p := size[p] + size[b]], Merged(cell, b, p);
    assert Covers(size, cell, p) && Covers(size, cell, b);
    forall d | d in blocks - {b}
      ensures Covers(size', cell', d)
    {
      assert Covers(size, cell, d);
    }
    forall a | a in cell'
      ensures InCell(blocks - {b}, size', cell', a)
    {
      assert InCell(blocks, size, cell, a);
    }
  }

  /** Splitting the upper `n` units off block `p`. */
  lemma {:induction false} TilesSplit(blocks: set<nat>, size: map<nat, nat>, cell: map<nat, nat>, p: nat, n: nat)
    requires Tiles(blocks, size, cell) && p in blocks && p in size && 0 < n < size[p]
    ensures var q := p + (size[p] - n);
      q !in blocks && Tiles(blocks + {q}, size[p := size[p] - n][q := n], Carved(cell, q, n))
  {
    hide Covers, InCell;
    var q := p + (size[p] - n);
    var blocks', size', cell' := blocks + {q}, size[p := size[p] - n][q := n], Carved(cell, q, n);
    Beside(blocks, size, cell, p, if q in blocks then q else p);
    forall d | d in blocks'
      ensures Covers(size', cell', d)
    {
      SplitCovers(blocks, size, cell, p, n, d);
    }
    forall a | a in cell'
      ensures InCell(blocks', size', cell', a)
    {
      SplitCell(blocks, size, cell, p, n, a);
    }
    assert Tiles(blocks', size', cell');
  }

  lemma SplitCovers(blocks: set<nat>, size: map<nat, nat>, cell: map<nat, nat>, p: nat, n: nat, d: nat)
    requires Tiles(blocks, size, cell) && p in blocks && p in size && 0 < n < size[p]
    requires d in blocks || d == p + (size[p] - n)
    ensures var q := p + (size[p] - n); Covers(size[p := size[p] - n][q := n], Carved(cell, q, n), d)
  {
    assert Covers(size, cell, p);
    if d != p + (size[p] - n) {
      assert Covers(size, cell, d);
      Beside(blocks, size, cell, p, d);
    }
  }

  lemma SplitCell(blocks: set<nat>, size: map<nat, nat>, cell: map<nat, nat>, p: nat, n: nat, a: nat)
    requires Tiles(blocks, size, cell) && p in blocks && p in size && 0 < n < size[p] && a in cell
    ensures var q := p + (size[p] - n); InCell(blocks + {q}, size[p := size[p] - n][q := n], Carved(cell, q, n), a)
  {
    assert InCell(blocks, size, cell, a);
    assert Covers(size, cell, p);
    Beside(blocks, size, cell, p, cell[a]);
  }

  lemma Beside(blocks: set<nat>, size: map<nat, nat>, cell: map<nat, nat>, p: nat, d: nat)
    requires Tiles(blocks, size, cell) && p in blocks && d in blocks
    ensures p in size && d in size
    ensures d < p ==> d + size[d] <= p
    ensures p < d ==> p + size[p] <= d
  {
    assert Covers(size, cell, p) && Covers(size, cell, d);
    if d < p {
      NoOverlap(blocks, size, cell, d, p);
    } else if p < d {
      NoOverlap(blocks, size, cell, p, d);
    }
  }

  /** Unit `a` after sbrk's `n` units from `q` on have joined the heap. */
  lemma GrownAt(cell: map<nat, nat>, q: nat, n: nat, a: nat)
    ensures a in Grown(cell, q, n) <==> a in cell || q <= a < q + n
    ensures a in Grown(cell, q, n) ==> Grown(cell, q, n)[a] == if a in cell then cell[a] else q
  {
    assert a in Range(q, n) <==> q <= a < q + n && AtLeast(q, a);
  }

  lemma CoversGrown(size: map<nat, nat>, cell: map<nat, nat>, q: nat, n: nat, d: nat)
    requires forall a :: q <= a < q + n ==> a !in cell
    requires if d == q then n > 0 else Covers(size, cell, d)
    ensures Covers(size[q := n], Grown(cell, q, n), d)
  {
    hide Grown;
    var size', cell' := size[q := n], Grown(cell, q, n);
    forall a | d <= a < d + size'[d]
      ensures a in cell' && cell'[a] == d
    {
      GrownAt(cell, q, n, a);
    }
  }

  /** A block of `n` new units from sbrk. */
  lemma {:induction false} TilesGrow(blocks: set<nat>, size: map<nat, nat>, cell: map<nat, nat>, q: nat, n: nat)
    requires Tiles(blocks, size, cell) && n > 0
    requires forall a :: q <= a < q + n ==> a !in cell
    ensures q !in blocks && Tiles(blocks + {q}, size[q := n], Grown(cell, q, n))
  {
    hide Grown;
    var size', cell' := size[q := n], Grown(cell, q, n);
    assert q !in cell;
    assert q !in blocks by {
      assert q in blocks ==> Covers(size, cell, q);
    }
    forall d | d in blocks + {q}
      ensures Covers(size', cell', d)
    {
      assert d in blocks ==> Covers(size, cell, d);
      CoversGrown(size, cell, q, n, d);
    }
    forall a | a in cell'
      ensures InCell(blocks + {q}, size', cell', a)
    {
      GrownAt(cell, q, n, a);
      if a in cell {
        assert InCell(blocks, size, cell, a);
        assert cell[a] != q;
      } else {
        assert cell'[a] == q && size'[q] == n;
      }
    }
  }

  /** All of the heap but the pointers: the list by address with `base`, of size 0, first,
      no two free blocks touching (but for the one at `loose` and its successor), free and
      live blocks tiling the heap. */
  ghost predicate Shape(base: nat, list: seq<nat>, size: map<nat, nat>, live: map<nat, nat>, cell: map<nat, nat>,
                        loose: int) {
    && list != [] && list[0] == base && base in size && size[base] == 0
    && Ascending(list) && NoTouch(list, size, loose)
    && FreeSet(list) !! live.Keys && Tiles(FreeSet(list) + live.Keys, size, cell)
    && (forall b :: b in live ==> b > base && b in size && size[b] == live[b])
    && (forall a :: a in cell ==> a > base)
  }

  ghost predicate HeapOk(base: nat, list: seq<nat>, next: map<nat, nat>, size: map<nat, nat>, live: map<nat, nat>,
                         cell: map<nat, nat>) {
    Shape(base, list, size, live, cell, -1) && Links(list, next)
  }

  /** Block `b` belongs behind `list[c]`. */
  ghost predicate Place(list: seq<nat>, b: nat, c: nat) {
    c < |list| && list[c] < b && (c + 1 < |list| ==> b < list[c + 1])
  }

  function Inserted(list: seq<nat>, c: nat, b: nat): seq<nat>
    requires c < |list|
  {
    list[..c + 1] + [b] + list[c + 1..]
  }

  function Dropped(list: seq<nat>, k: nat): seq<nat>
    requires k < |list|
  {
    list[..k] + list[k + 1..]
  }

  lemma {:induction false} InsertedSet(list: seq<nat>, c: nat, b: nat)
    requires Ascending(list) && Place(list, b, c)
    ensures Ascending(Inserted(list, c, b))
    ensures FreeSet(Inserted(list, c, b)) == FreeSet(list) + {b} && b !in FreeSet(list)
  {
    var list' := Inserted(list, c, b);
    forall d
      ensures d in FreeSet(list') <==> d in FreeSet(list) + {b}
    {
      if d in FreeSet(list) {
        var i :| 0 < i < |list| && list[i] == d;
        assert list'[if i <= c then i else i + 1] == d;
      } else if d == b {
        assert list'[c + 1] == b;
      }
    }
  }

  lemma {:induction false} DroppedSet(list: seq<nat>, k: nat)
    requires Ascending(list) && 0 < k < |list|
    ensures Ascending(Dropped(list, k)) && FreeSet(Dropped(list, k)) == FreeSet(list) - {list[k]}
  {
    var list' := Dropped(list, k);
    forall d
      ensures d in FreeSet(list') <==> d in FreeSet(list) - {list[k]}
    {
      if d in FreeSet(list) {
        var i :| 0 < i < |list| && list[i] == d;
        if i != k {
          assert list'[if i < k then i else i - 1] == d;
        }
      }
    }
  }

  lemma {:induction false} ReplacedSet(list: seq<nat>, c: nat, b: nat)
    requires Ascending(list) && Place(list, b, c) && c + 1 < |list|
    ensures Ascending(list[c + 1 := b]) && FreeSet(list[c + 1 := b]) == FreeSet(list) - {list[c + 1]} + {b}
    ensures b !in FreeSet(list)
  {
    InsertedSet(list, c, b);
    DroppedSet(list, c + 1);
    InsertedSet(Dropped(list, c + 1), c, b);
    assert Inserted(Dropped(list, c + 1), c, b) == list[c + 1 := b];
  }

  /** free without a join above: `b` goes from the live blocks into the list. */
  lemma {:induction false} InsertShape(base: nat, list: seq<nat>, size: map<nat, nat>, live: map<nat, nat>,
                                       cell: map<nat, nat>, b: nat, c: nat)
    requires Shape(base, list, size, live, cell, -1) && b in live && Place(list, b, c)
    requires c + 1 < |list| ==> b + size[b] != list[c + 1]
    ensures Shape(base, Inserted(list, c, b), size, live - {b}, cell, c)
  {
    var list', live' := Inserted(list, c, b), live - {b};
    InsertedSet(list, c, b);
    assert FreeSet(list') + live'.Keys == FreeSet(list) + live.Keys;
    if c + 1 < |list| {
      assert list[c + 1] in FreeSet(list);
      NoOverlap(FreeSet(list) + live.Keys, size, cell, b, list[c + 1]);
    }
    forall i | 0 < i < |list'| - 1 && i != c
      ensures Apart(list', size, i)
    {
      if i < c {
        assert Apart(list, size, i);
      } else if i > c + 1 {
        assert Apart(list, size, i - 1);
      }
    }
  }

  lemma FreeBlock(base: nat, list: seq<nat>, size: map<nat, nat>, live: map<nat, nat>, cell: map<nat, nat>,
                  loose: int, i: nat)
    requires Shape(base, list, size, live, cell, loose) && 0 < i < |list|
    ensures list[i] in FreeSet(list) && list[i] in size && size[list[i]] > 0 && list[i] !in live
  {
    assert list[i] in FreeSet(list);
    assert Covers(size, cell, list[i]);
  }

  /** free with a join above: `b` takes the place of its upper neighbour. */
  lemma {:induction false} JoinUpShape(base: nat, list: seq<nat>, size: map<nat, nat>, live: map<nat, nat>,
                                       cell: map<nat, nat>, b: nat, c: nat)
    requires Shape(base, list, size, live, cell, -1) && b in live && Place(list, b, c)
    requires c + 1 < |list| && b + size[b] == list[c + 1]
    ensures list[c + 1] in size
    ensures Shape(base, list[c + 1 := b], size[b := size[b] + size[list[c + 1]]], live - {b},
                  Merged(cell, list[c + 1], b), c)
  {
    hide Tiles, Covers, Merged, FreeSet;
    var nx := list[c + 1];
    var blocks := FreeSet(list) + live.Keys;
    FreeBlock(base, list, size, live, cell, -1, c + 1);
    TilesMerge(blocks, size, cell, b, nx);
    var list', size', live', cell' := list[c + 1 := b], size[b := size[b] + size[nx]], live - {b}, Merged(cell, nx, b);
    ReplacedSet(list, c, b);
    assert FreeSet(list') + live'.Keys == blocks - {nx};
    forall i | 0 < i < |list'| - 1 && i != c
      ensures Apart(list', size', i)
    {
      assert Apart(list, size, i);
    }
  }

  /** free with a join below: the block at `c + 1` becomes part of the one at `c`. */
  lemma {:induction false} JoinDownShape(base: nat, list: seq<nat>, size: map<nat, nat>, live: map<nat, nat>,
                                         cell: map<nat, nat>, c: nat)
    requires Shape(base, list, size, live, cell, c) && 0 < c && c + 1 < |list|
    requires list[c] in size && list[c] + size[list[c]] == list[c + 1]
    ensures list[c + 1] in size
    ensures Shape(base, Dropped(list, c + 1), size[list[c] := size[list[c]] + size[list[c + 1]]], live,
                  Merged(cell, list[c + 1], list[c]), -1)
  {
    hide Tiles, Covers, Merged, FreeSet;
    var p, b := list[c], list[c + 1];
    var blocks := FreeSet(list) + live.Keys;
    FreeBlock(base, list, size, live, cell, c, c);
    FreeBlock(base, list, size, live, cell, c, c + 1);
    TilesMerge(blocks, size, cell, p, b);
    var list', size', cell' := Dropped(list, c + 1), size[p := size[p] + size[b]], Merged(cell, b, p);
    DroppedSet(list, c + 1);
    assert FreeSet(list') + live.Keys == blocks - {b};
    forall i | 0 < i < |list'| - 1
      ensures Apart(list', size', i)
    {
      if i < c {
        assert Apart(list, size, i);
      } else {
        assert Apart(list, size, i + 1);
      }
    }
  }

  /** No join below. */
  lemma TightShape(base: nat, list: seq<nat>, size: map<nat, nat>, live: map<nat, nat>, cell: map<nat, nat>, c: nat)
    requires Shape(base, list, size, live, cell, c) && c + 1 < |list|
    requires list[c] in size && list[c] + size[list[c]] != list[c + 1]
    ensures Shape(base, list, size, live, cell, -1)
  {
    if c > 0 {
      assert list[c] in FreeSet(list) && list[c + 1] in FreeSet(list);
      NoOverlap(FreeSet(list) + live.Keys, size, cell, list[c], list[c + 1]);
    }
    forall i | 0 < i < |list| - 1
      ensures Apart(list, size, i)
    {
    }
  }

  /** The pointer assignments at the end of free, by case: joined above or not, below or not. */
  lemma {:induction false} LinksInsert(list: seq<nat>, next: map<nat, nat>, b: nat, c: nat)
    requires Ascending(list) && Links(list, next) && Place(list, b, c)
    ensures list[c] in next && Links(Inserted(list, c, b), next[b := next[list[c]]][list[c] := b])
    ensures Links(list, next[b := next[list[c]]][list[c] := next[list[c]]])
  {
    assert LinkAt(list, next, c);
    var list', next' := Inserted(list, c, b), next[b := next[list[c]]][list[c] := b];
    forall i | 0 <= i < |list'|
      ensures LinkAt(list', next', i)
    {
      if i <= c {
        assert LinkAt(list, next, i);
      } else if i > c + 1 {
        assert LinkAt(list, next, i - 1);
      }
    }
    LinksBeside(list, next, b, c);
  }

  lemma {:induction false} LinksBeside(list: seq<nat>, next: map<nat, nat>, b: nat, c: nat)
    requires Ascending(list) && Links(list, next) && Place(list, b, c) && list[c] in next
    ensures Links(list, next[b := next[list[c]]][list[c] := next[list[c]]])
  {
    var next' := next[b := next[list[c]]][list[c] := next[list[c]]];
    forall i | 0 <= i < |list|
      ensures LinkAt(list, next', i)
    {
      assert LinkAt(list, next, i);
    }
  }

  lemma {:induction false} LinksReplace(list: seq<nat>, next: map<nat, nat>, b: nat, c: nat)
    requires Ascending(list) && Links(list, next) && Place(list, b, c) && c + 1 < |list|
    ensures list[c + 1] in next
    ensures Links(list[c + 1 := b], next[b := next[list[c + 1]]][list[c] := b])
    ensures Links(Dropped(list, c + 1), next[b := next[list[c + 1]]][list[c] := next[list[c + 1]]])
  {
    assert LinkAt(list, next, c + 1) && LinkAt(list, next, c);
    var nn := next[list[c + 1]];
    var list', next' := list[c + 1 := b], next[b := nn][list[c] := b];
    forall i | 0 <= i < |list'|
      ensures LinkAt(list', next', i)
    {
      assert LinkAt(list, next, i);
    }
    var list'', next'' := Dropped(list, c + 1), next[b := nn][list[c] := nn];
    forall i | 0 <= i < |list''|
      ensures LinkAt(list'', next'', i)
    {
      assert LinkAt(list, next, if i <= c then i else i + 1);
      if i == c {
        assert Succ(|list|, c + 1) == 0 || list''[Succ(|list''|, c)] == list[c + 2];
      }
    }
  }

  /** malloc's unlinking of an exact fit. */
  lemma {:induction false} LinksDrop(list: seq<nat>, next: map<nat, nat>, c: nat)
    requires Ascending(list) && Links(list, next) && c + 1 < |list|
    ensures list[c + 1] in next && Links(Dropped(list, c + 1), next[list[c] := next[list[c + 1]]])
  {
    assert LinkAt(list, next, c + 1) && LinkAt(list, next, c);
    var nn := next[list[c + 1]];
    var list'', next'' := Dropped(list, c + 1), next[list[c] := nn];
    forall i | 0 <= i < |list''|
      ensures LinkAt(list'', next'', i)
    {
      assert LinkAt(list, next, if i <= c then i else i + 1);
    }
  }

  /** malloc's split: the list keeps the lower part, the upper part is handed out. */
  lemma {:induction false} SplitShape(base: nat, list: seq<nat>, size: map<nat, nat>, live: map<nat, nat>,
                                      cell: map<nat, nat>, i: nat, n: nat)
    requires Shape(base, list, size, live, cell, -1) && 0 < i < |list| && list[i] in size && 0 < n < size[list[i]]
    ensures var p := list[i];
      var q := p + (size[p] - n);
      && q !in live && q !in list
      && Shape(base, list, size[p := size[p] - n][q := n], live[q := n], Carved(cell, q, n), -1)
  {
    hide Tiles, FreeSet;
    var p := list[i];
    var q := p + (size[p] - n);
    var blocks := FreeSet(list) + live.Keys;
    FreeBlock(base, list, size, live, cell, -1, i);
    TilesSplit(blocks, size, cell, p, n);
    CellBlock(blocks, size, cell, base, p);
    NotListed(list, q);
    assert FreeSet(list) + live[q := n].Keys == blocks + {q};
    var size' := size[p := size[p] - n][q := n];
    forall j | 0 < j < |list| - 1
      ensures Apart(list, size', j)
    {
      assert Apart(list, size, j);
    }
  }

  lemma NotListed(list: seq<nat>, q: nat)
    requires q !in FreeSet(list) && list != [] && q != list[0]
    ensures q !in list
  {
    forall i | 0 <= i < |list|
      ensures list[i] != q
    {
      assert i > 0 ==> list[i] in FreeSet(list);
    }
  }

  lemma CellBlock(blocks: set<nat>, size: map<nat, nat>, cell: map<nat, nat>, base: nat, b: nat)
    requires Tiles(blocks, size, cell) && b in blocks && forall a :: a in cell ==> a > base
    ensures b > base && b in size && size[b] > 0
  {
    assert Covers(size, cell, b);
    assert b in cell;
  }

  /** malloc's exact fit: the block leaves the list. */
  lemma {:induction false} TakeShape(base: nat, list: seq<nat>, size: map<nat, nat>, live: map<nat, nat>,
                                     cell: map<nat, nat>, i: nat)
    requires Shape(base, list, size, live, cell, -1) && 0 < i < |list| && list[i] in size
    ensures list[i] !in live
    ensures Shape(base, Dropped(list, i), size, live[list[i] := size[list[i]]], cell, -1)
  {
    hide Tiles, FreeSet;
    var p, list' := list[i], Dropped(list, i);
    var blocks := FreeSet(list) + live.Keys;
    FreeBlock(base, list, size, live, cell, -1, i);
    DroppedSet(list, i);
    CellBlock(blocks, size, cell, base, p);
    assert FreeSet(list') + live[p := size[p]].Keys == blocks;
    forall j | 0 < j < |list'| - 1
      ensures Apart(list', size, j)
    {
      if j + 1 < i {
        assert Apart(list, size, j);
      } else if j + 1 == i {
        assert Apart(list, size, j) && Apart(list, size, j + 1);
      } else {
        assert Apart(list, size, j + 1);
      }
    }
  }

  /** morecore's new block, not yet freed. */
  lemma {:induction false} GrowShape(base: nat, list: seq<nat>, size: map<nat, nat>, live: map<nat, nat>,
                                     cell: map<nat, nat>, q: nat, n: nat)
    requires Shape(base, list, size, live, cell, -1) && n > 0 && q > base
    requires forall a :: q <= a ==> a !in cell
    ensures q !in live && q !in list && Shape(base, list, size[q := n], live[q := n], Grown(cell, q, n), -1)
  {
    hide Tiles, FreeSet;
    var blocks := FreeSet(list) + live.Keys;
    TilesGrow(blocks, size, cell, q, n);
    NotListed(list, q);
    assert FreeSet(list) + live[q := n].Keys == blocks + {q};
    var size' := size[q := n];
    forall j | 0 < j < |list| - 1
      ensures Apart(list, size', j)
    {
      assert Apart(list, size, j);
    }
  }

  ghost function Pick(blocks: set<nat>): (b: nat)
    requires blocks != {}
    ensures b in blocks
  {
    var b :| b in blocks; b
  }

  /** The units in a set of blocks. */
  ghost function Total(blocks: set<nat>, size: map<nat, nat>): nat
    requires forall b :: b in blocks ==> b in size
  {
    if blocks == {} then 0 else size[Pick(blocks)] + Total(blocks - {Pick(blocks)}, size)
  }

  /** The part of the heap that some of its blocks make. */
  function Part(cell: map<nat, nat>, blocks: set<nat>): map<nat, nat> {
    map a | a in cell && cell[a] in blocks :: cell[a]
  }

  lemma {:induction false} PartTotal(blocks: set<nat>, size: map<nat, nat>, cell: map<nat, nat>, some: set<nat>)
    requires Tiles(blocks, size, cell) && some <= blocks
    ensures forall b :: b in some ==> b in size
    ensures Total(some, size) == |Part(cell, some)|
  {
    assert forall b :: b in some ==> Covers(size, cell, b);
    hide Tiles, Covers, Part, Range;
    if some == {} {
      assert Part(cell, some) == map[];
    } else {
      var b := Pick(some);
      var rest := some - {b};
      PartTotal(blocks, size, cell, rest);
      RangeSize(b, size[b]);
      PartSplit(blocks, size, cell, some, b);
      assert |Part(cell, some).Keys| == |Part(cell, rest).Keys| + |Range(b, size[b])|;
    }
  }

  lemma PartSplit(blocks: set<nat>, size: map<nat, nat>, cell: map<nat, nat>, some: set<nat>, b: nat)
    requires Tiles(blocks, size, cell) && some <= blocks && b in some && b in size
    ensures Part(cell, some).Keys == Part(cell, some - {b}).Keys + Range(b, size[b])
    ensures Part(cell, some - {b}).Keys !! Range(b, size[b])
  {
    assert Covers(size, cell, b);
    forall a
      ensures a in Part(cell, some) <==> a in Part(cell, some - {b}).Keys + Range(b, size[b])
      ensures !(a in Part(cell, some - {b}) && a in Range(b, size[b]))
    {
      if a in cell {
        assert InCell(blocks, size, cell, a);
      }
    }
  }

  /** Conservation: the free units and the live units together are the units from sbrk. */
  lemma {:induction false} Conservation(base: nat, list: seq<nat>, next: map<nat, nat>, size: map<nat, nat>,
                                        live: map<nat, nat>, cell: map<nat, nat>)
    requires HeapOk(base, list, next, size, live, cell)
    ensures forall b :: b in FreeSet(list) || b in live ==> b in size
    ensures Total(FreeSet(list), size) + Total(live.Keys, size) == |cell|
  {
    var blocks := FreeSet(list) + live.Keys;
    PartTotal(blocks, size, cell, FreeSet(list));
    PartTotal(blocks, size, cell, live.Keys);
    Halves(blocks, size, cell, FreeSet(list), live.Keys);
    assert |cell.Keys| == |Part(cell, FreeSet(list)).Keys| + |Part(cell, live.Keys).Keys|;
  }

  lemma Halves(blocks: set<nat>, size: map<nat, nat>, cell: map<nat, nat>, some: set<nat>, others: set<nat>)
    requires Tiles(blocks, size, cell) && blocks == some + others && some !! others
    ensures cell.Keys == Part(cell, some).Keys + Part(cell, others).Keys
    ensures Part(cell, some).Keys !! Part(cell, others).Keys
  {
    assert forall a :: a in cell ==> InCell(blocks, size, cell, a);
  }

  ghost predicate InBlock(list: seq<nat>, live: map<nat, nat>, size: map<nat, nat>, b: nat, a: nat) {
    (b in FreeSet(list) || b in live) && b in size && b <= a < b + size[b]
  }

  /** A unit was obtained from sbrk exactly if it is in a block, and then in just one:
      blocks overlap nothing, free or live. */
  lemma {:induction false} OneBlockEach(base: nat, list: seq<nat>, next: map<nat, nat>, size: map<nat, nat>,
                                        live: map<nat, nat>, cell: map<nat, nat>, a: nat)
    requires HeapOk(base, list, next, size, live, cell)
    ensures a in cell <==> exists b :: InBlock(list, live, size, b, a)
    ensures forall b, d :: InBlock(list, live, size, b, a) && InBlock(list, live, size, d, a) ==> b == d
  {
    var blocks := FreeSet(list) + live.Keys;
    if a in cell {
      assert InCell(blocks, size, cell, a);
      assert InBlock(list, live, size, cell[a], a);
    }
    forall b | InBlock(list, live, size, b, a)
      ensures a in cell && cell[a] == b
    {
      assert Covers(size, cell, b);
    }
  }

  /** free fully coalesces: the memory between two free blocks is never empty. */
  lemma NeverAdjacent(base: nat, list: seq<nat>, next: map<nat, nat>, size: map<nat, nat>, live: map<nat, nat>,
                      cell: map<nat, nat>, b: nat, d: nat)
    requires HeapOk(base, list, next, size, live, cell) && b in FreeSet(list) && d in FreeSet(list)
    ensures b in size && b + size[b] != d
  {
    var i :| 0 < i < |list| && list[i] == b;
    var j :| 0 < j < |list| && list[j] == d;
    FreeBlock(base, list, size, live, cell, -1, i);
    if i < j {
      assert Apart(list, size, i);
    }
  }
}
