/** What several of the models use. */
module Common {
  /** Of param.h: most blocks one file system operation may log. */
  const MAXOPBLOCKS := 10

  datatype Option<+T> = None | Some(value: T)

  function Max(a: nat, b: nat): nat {
    if a > b then a else b
  }

  lemma MaxSelf(a: nat, b: nat)
    ensures b <= a ==> Max(a, b) == a
  {
  }

  function Min(a: int, b: int): int {
    if a < b then a else b
  }

  predicate AtLeast(q: nat, a: nat) {
    q <= a
  }

  /** The `n` numbers from `q` on. */
  function Range(q: nat, n: nat): set<nat> {
    set a: nat | a < q + n && AtLeast(q, a)
  }

  lemma {:induction false} RangeSize(q: nat, n: nat)
    ensures |Range(q, n)| == n
  {
    if n == 0 {
      assert Range(q, 0) == {};
    } else {
      RangeSize(q, n - 1);
      RangeNext(q, n - 1);
    }
  }

  lemma RangeNext(q: nat, n: nat)
    ensures Range(q, n + 1) == Range(q, n) + {q + n} && q + n !in Range(q, n)
  {
    assert AtLeast(q, q + n);
  }

  /** The position after `i`, going round `n` of them. */
  function Succ(n: nat, i: nat): nat
    requires i < n
  {
    if i + 1 == n then 0 else i + 1
  }

  ghost predicate Distinct(s: seq<nat>) {
    forall i, j :: 0 <= i < j < |s| ==> s[i] != s[j]
  }

  lemma {:induction false} ElementCount(keys: set<nat>, blocks: seq<nat>)
    requires Distinct(blocks) && forall k :: k in keys <==> k in blocks
    ensures |keys| == |blocks|
  {
    if blocks != [] {
      var rest, last := blocks[..|blocks| - 1], blocks[|blocks| - 1];
      assert blocks == rest + [last];
      ElementCount(keys - {last}, rest);
    } else {
      assert keys == {};
    }
  }
}
