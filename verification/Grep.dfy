/** grep.c, lines 72 to 106: the regular expression matcher. Strings are without their
    terminating NUL, so the test `*text == '\0'` is `text == ""`. */
module Grep {
  /** One character, or any number of them; '.' stands for any character. */
  datatype Item = One(c: char) | Many(c: char)

  /** What a pattern after an optional '^' denotes: items, and whether a final '$' demands the
      end of the text. */
  datatype Regex = Regex(items: seq<Item>, toEnd: bool)

  /** The reading of a pattern. A '*' after any character repeats it, whatever the character
      is; a '*' in first position, or after a starred item, is itself. */
  function Parse(re: string): Regex {
    if re == "" then Regex([], false)
    else if |re| > 1 && re[1] == '*' then
      var rest := Parse(re[2..]);
      Regex([Many(re[0])] + rest.items, rest.toEnd)
    else if re == "$" then Regex([], true)
    else
      var rest := Parse(re[1..]);
      Regex([One(re[0])] + rest.items, rest.toEnd)
  }

  predicate Fits(c: char, x: char) {
    c == '.' || c == x
  }

  ghost predicate InItem(item: Item, s: string) {
    match item
    case One(c) => |s| == 1 && Fits(c, s[0])
    case Many(c) => forall i :: 0 <= i < |s| ==> Fits(c, s[i])
  }

  /** The language of a list of items: concatenations of one string for each. */
  ghost predicate In(items: seq<Item>, s: string) {
    if items == [] then s == ""
    else exists k :: 0 <= k <= |s| && InItem(items[0], s[..k]) && In(items[1..], s[k..])
  }

  /** A string of the language starts at `i` and ends at `k`. */
  ghost predicate Occurs(r: Regex, text: string, i: nat, k: nat) {
    i <= k <= |text| && In(r.items, text[i..k]) && (r.toEnd ==> k == |text|)
  }

  ghost predicate OccursAt(r: Regex, text: string, i: nat) {
    exists k: nat :: Occurs(r, text, i, k)
  }

  /** What `match` is for: the pattern without '^' occurs somewhere in the text, or at its
      start if there is a '^'. */
  ghost predicate Meaning(re: string, text: string) {
    if re != "" && re[0] == '^' then OccursAt(Parse(re[1..]), text, 0)
    else exists i: nat :: i <= |text| && OccursAt(Parse(re), text, i)
  }

  /** The pattern a regex comes from. */
  function Show(r: Regex): string
    decreases |r.items|
  {
    if r.items == [] then if r.toEnd then "$" else ""
    else
      var rest := Show(Regex(r.items[1..], r.toEnd));
      match r.items[0]
      case One(c) => [c] + rest
      case Many(c) => [c, '*'] + rest
  }

  /** The regexes some pattern denotes: there is no way to write a '*' by itself after a
      single item, nor a '$' by itself in last position. */
  predicate Writable(r: Regex) {
    && (forall i :: 0 <= i < |r.items| - 1 && r.items[i].One? ==> r.items[i + 1].c != '*')
    && (r.items != [] && r.items[|r.items| - 1] == One('$') ==> r.toEnd)
  }

  /** Parsing loses nothing, and yields what can be written. */
  lemma {:induction false} ShowParse(re: string)
    ensures Show(Parse(re)) == re && Writable(Parse(re))
  {
    if re == "" || re == "$" {
    } else {
      var starred := |re| > 1 && re[1] == '*';
      var rest := Parse(re[if starred then 2 else 1..]);
      ShowParse(re[if starred then 2 else 1..]);
      assert Parse(re) == Regex([if starred then Many(re[0]) else One(re[0])] + rest.items, rest.toEnd);
      assert Parse(re).items[1..] == rest.items;
      FirstChar(rest);
    }
  }

  lemma FirstChar(r: Regex)
    ensures r.items != [] ==> Show(r) != "" && Show(r)[0] == r.items[0].c
    ensures r.items == [] ==> Show(r) == if r.toEnd then "$" else ""
  {
  }

  lemma {:induction false} WritableRest(r: Regex)
    requires Writable(r) && r.items != []
    ensures Writable(Regex(r.items[1..], r.toEnd))
  {
    var items := r.items[1..];
    forall i | 0 <= i < |items| - 1 && items[i].One?
      ensures items[i + 1].c != '*'
    {
      assert r.items[i + 1].One?;
    }
  }

  /** What may follow the first item. */
  lemma NextChar(r: Regex)
    requires Writable(r) && r.items != []
    ensures var rest := Show(Regex(r.items[1..], r.toEnd));
      r.items[0].One? ==> (rest != "" ==> rest[0] != '*') && (rest == "" ==> r.items[0].c != '$')
  {
    FirstChar(Regex(r.items[1..], r.toEnd));
  }

  lemma {:induction false} ParseShow(r: Regex)
    ensures Parse(Show(r)) == r <==> Writable(r)
    decreases |r.items|
  {
    ShowParse(Show(r));
    if Writable(r) && r.items != [] {
      var rest := Regex(r.items[1..], r.toEnd);
      WritableRest(r);
      ParseShow(rest);
      NextChar(r);
      hide Parse, Writable;
      ParseFirst(r.items[0], Show(rest));
      assert [r.items[0]] + rest.items == r.items;
    }
  }

  lemma ParseFirst(item: Item, rest: string)
    requires item.One? ==> (rest != "" ==> rest[0] != '*') && (rest == "" ==> item.c != '$')
    ensures Parse((if item.One? then [item.c] else [item.c, '*']) + rest)
         == Regex([item] + Parse(rest).items, Parse(rest).toEnd)
  {
    var re := (if item.One? then [item.c] else [item.c, '*']) + rest;
    assert re[if item.One? then 1 else 2..] == rest;
  }

  lemma OccursShift(r: Regex, text: string, i: nat, k: nat)
    requires i <= |text|
    ensures Occurs(r, text[i..], 0, k) <==> Occurs(r, text, i, i + k)
  {
    if i + k <= |text| {
      assert text[i..][0..k] == text[i..i + k];
    }
  }

  /** Occurring at `i` is a matter of the text from `i` on. */
  lemma OccursSuffix(r: Regex, text: string, i: nat)
    requires i <= |text|
    ensures OccursAt(r, text[i..], 0) <==> OccursAt(r, text, i)
  {
    if OccursAt(r, text[i..], 0) {
      var k: nat :| Occurs(r, text[i..], 0, k);
      OccursShift(r, text, i, k);
    }
    if OccursAt(r, text, i) {
      var k: nat :| Occurs(r, text, i, k);
      OccursShift(r, text, i, k - i);
    }
  }

  /** A first item takes some characters, and the rest of the items follow. */
  lemma {:induction false} FirstItem(item: Item, r: Regex, text: string)
    ensures OccursAt(Regex([item] + r.items, r.toEnd), text, 0) <==>
            exists j: nat :: j <= |text| && InItem(item, text[..j]) && OccursAt(r, text, j)
  {
    var r' := Regex([item] + r.items, r.toEnd);
    assert r'.items[1..] == r.items;
    if OccursAt(r', text, 0) {
      var k: nat :| Occurs(r', text, 0, k);
      var s := text[0..k];
      var j :| 0 <= j <= |s| && InItem(item, s[..j]) && In(r.items, s[j..]);
      assert s[..j] == text[..j] && s[j..] == text[j..k];
      assert Occurs(r, text, j, k);
    }
    if j: nat :| j <= |text| && InItem(item, text[..j]) && OccursAt(r, text, j) {
      var k: nat :| Occurs(r, text, j, k);
      var s := text[0..k];
      assert s[..j] == text[..j] && s[j..] == text[j..k];
      assert Occurs(r', text, 0, k);
    }
  }

  /** Matching a regex without items: at once, or at the end only. */
  lemma NoItems(toEnd: bool, text: string)
    ensures OccursAt(Regex([], toEnd), text, 0) <==> !toEnd || text == ""
  {
    var r := Regex([], toEnd);
    if !toEnd || text == "" {
      assert Occurs(r, text, 0, 0);
    }
  }

  /** match */
  method Match(re: string, text: string) returns (r: bool)
    ensures r <==> Meaning(re, text)
  {
    if re != "" && re[0] == '^' {
      r := MatchHere(re[1..], text);
      return;
    }
    var t := 0;
    while true // the rest is tried before it is known not to be empty
      invariant t <= |text|
      invariant forall i: nat :: i < t ==> !OccursAt(Parse(re), text, i)
      decreases |text| - t
    {
      OccursSuffix(Parse(re), text, t);
      r := MatchHere(re, text[t..]);
      if r {
        return;
      }
      if text[t..] == "" {
        return false;
      }
      t := t + 1;
    }
  }

  /** matchhere: does `re` occur at the beginning of the text? */
  method MatchHere(re: string, text: string) returns (r: bool)
    ensures r <==> OccursAt(Parse(re), text, 0)
    decreases |re|, 0
  {
    NoItems(false, text);
    NoItems(true, text);
    if re == "" {
      return true;
    }
    if |re| > 1 && re[1] == '*' {
      r := MatchStar(re[0], re[2..], text);
      FirstItem(Many(re[0]), Parse(re[2..]), text);
      return;
    }
    if re == "$" {
      return text == "";
    }
    FirstItem(One(re[0]), Parse(re[1..]), text);
    if text != "" && (re[0] == '.' || re[0] == text[0]) {
      r := MatchHere(re[1..], text[1..]);
      OccursSuffix(Parse(re[1..]), text, 1);
      assert InItem(One(re[0]), text[..1]);
      return;
    }
    return false;
  }

  /** matchstar: does `c*re` occur at the beginning of the text? */
  method MatchStar(c: char, re: string, text: string) returns (r: bool)
    ensures r <==> exists j: nat :: j <= |text| && InItem(Many(c), text[..j]) && OccursAt(Parse(re), text, j)
    decreases |re|, 1
  {
    var t := 0;
    while true // the first try is without any character
      invariant t <= |text| && InItem(Many(c), text[..t])
      invariant forall j: nat :: j < t ==> !OccursAt(Parse(re), text, j)
      decreases |text| - t
    {
      OccursSuffix(Parse(re), text, t);
      r := MatchHere(re, text[t..]);
      if r {
        return;
      }
      if !(t < |text| && (text[t] == c || c == '.')) {
        forall j: nat | t < j <= |text|
          ensures !InItem(Many(c), text[..j])
        {
          assert text[..j][t] == text[t];
        }
        return false;
      }
      t := t + 1;
    }
  }
}
