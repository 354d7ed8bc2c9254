/** The grammar of sh.c, as trees that name no parser: which lines are accepted and what each of
    them means. */
module ShellGrammar {
  import opened ShellSpec

  /** A word or a redirection of a simple command. */
  datatype Item = Arg(word: string) | To(op: Token, file: string)

  /** '|' binds tighter than '&', which takes the whole pipeline, and ';', and both '|' and ';'
      associate to the right. */
  datatype CmdTree = Simple(items: seq<Item>) | Group(line: LineTree, redirs: seq<Item>)
  datatype PipeTree = Last(cmd: CmdTree) | Piped(cmd: CmdTree, pipe: PipeTree)
  datatype LineTree = Ends(pipe: PipeTree, amps: nat) | Then(pipe: PipeTree, amps: nat, line: LineTree)

  /** The tokens of a tree. */
  function ShowItems(items: seq<Item>): seq<Token> {
    if items == [] then []
    else (match items[0] case Arg(w) => [Word(w)] case To(op, file) => [op, Word(file)]) + ShowItems(items[1..])
  }

  function ShowCmd(c: CmdTree): seq<Token> {
    match c
    case Simple(items) => ShowItems(items)
    case Group(line, redirs) => [Sym('(')] + ShowLine(line) + [Sym(')')] + ShowItems(redirs)
  }

  function ShowPipe(p: PipeTree): seq<Token> {
    match p
    case Last(cmd) => ShowCmd(cmd)
    case Piped(cmd, pipe) => ShowCmd(cmd) + [Sym('|')] + ShowPipe(pipe)
  }

  function Amps(n: nat): seq<Token> {
    seq(n, _ => Sym('&'))
  }

  function ShowLine(l: LineTree): seq<Token> {
    match l
    case Ends(pipe, amps) => ShowPipe(pipe) + Amps(amps)
    case Then(pipe, amps, line) => ShowPipe(pipe) + Amps(amps) + [Sym(';')] + ShowLine(line)
  }

  /** The command a tree stands for. */
  function WordsOf(items: seq<Item>): seq<string> {
    if items == [] then [] else (if items[0].Arg? then [items[0].word] else []) + WordsOf(items[1..])
  }

  /** The redirections apply from left to right, wherever the words are. */
  function Redirected(c: Cmd<string>, items: seq<Item>): Cmd<string>
    decreases |items|
  {
    if items == [] then c
    else Redirected(if items[0].To? then RedirOf(c, items[0].op, items[0].file) else c, items[1..])
  }

  function CmdOf(c: CmdTree): Cmd<string> {
    match c
    case Simple(items) => Redirected(Exec(WordsOf(items)), items)
    case Group(line, redirs) => Redirected(LineOf(line), redirs)
  }

  function PipeOf(p: PipeTree): Cmd<string> {
    match p
    case Last(cmd) => CmdOf(cmd)
    case Piped(cmd, pipe) => Pipe(CmdOf(cmd), PipeOf(pipe))
  }

  function Backed(c: Cmd<string>, n: nat): Cmd<string> {
    if n == 0 then c else Back(Backed(c, n - 1))
  }

  function LineOf(l: LineTree): Cmd<string> {
    match l
    case Ends(pipe, amps) => Backed(PipeOf(pipe), amps)
    case Then(pipe, amps, line) => List(Backed(PipeOf(pipe), amps), LineOf(line))
  }

  /** Fewer than MAXARGS words, the three forms of redirection, and no words behind a group. */
  predicate ItemsOk(items: seq<Item>) {
    forall i :: 0 <= i < |items| && items[i].To? ==> IsRedir([items[i].op])
  }

  predicate CmdOk(c: CmdTree) {
    match c
    case Simple(items) => ItemsOk(items) && |WordsOf(items)| < MAXARGS
    case Group(line, redirs) =>
      LineTreeOk(line) && ItemsOk(redirs) && forall i :: 0 <= i < |redirs| ==> redirs[i].To?
  }

  predicate PipeTreeOk(p: PipeTree) {
    match p
    case Last(cmd) => CmdOk(cmd)
    case Piped(cmd, pipe) => CmdOk(cmd) && PipeTreeOk(pipe)
  }

  predicate LineTreeOk(l: LineTree) {
    match l
    case Ends(pipe, _) => PipeTreeOk(pipe)
    case Then(pipe, _, line) => PipeTreeOk(pipe) && LineTreeOk(line)
  }

  // ----- Every tree is accepted -----

  /** A simple command from the redirections on, with `argc` words read. */
  function Items(c: Cmd<string>, argc: nat, ts: seq<Token>): Parsed {
    var r := Redirs(c, ts);
    if r.Bad? then r else Args(r.cmd, argc, r.rest)
  }

  /** What the parser builds from the items, one after another. */
  function Filled(c: Cmd<string>, items: seq<Item>): Cmd<string>
    decreases |items|
  {
    if items == [] then c
    else
      var x := items[0];
      Filled(if x.To? then RedirOf(c, x.op, x.file) else AddArg(c, x.word), items[1..])
  }

  lemma {:induction false} ItemsParse(c: Cmd<string>, argc: nat, items: seq<Item>, rest: seq<Token>)
    requires ItemsOk(items) && argc + |WordsOf(items)| < MAXARGS && EndsArgs(rest)
    ensures Items(c, argc, ShowItems(items) + rest) == Got(Filled(c, items), rest)
    decreases |items|
  {
    hide Args, Redirs;
    var ts := ShowItems(items) + rest;
    if items == [] {
      assert ts == rest;
      NoItem(c, argc, ts);
    } else {
      var x, more := items[0], ShowItems(items[1..]) + rest;
      assert ItemsOk(items[1..]);
      if x.To? {
        assert ts == [x.op, Word(x.file)] + more;
        assert IsRedir([x.op]);
        ToItem(c, argc, x, more);
        ItemsParse(RedirOf(c, x.op, x.file), argc, items[1..], rest);
      } else {
        assert ts == [Word(x.word)] + more;
        ArgItem(c, argc, x, more);
        ItemsParse(AddArg(c, x.word), argc + 1, items[1..], rest);
      }
    }
  }

  lemma NoItem(c: Cmd<string>, argc: nat, ts: seq<Token>)
    requires EndsArgs(ts)
    ensures Items(c, argc, ts) == Got(c, ts)
  {
  }

  lemma ToItem(c: Cmd<string>, argc: nat, x: Item, more: seq<Token>)
    requires x.To? && IsRedir([x.op])
    ensures Items(c, argc, [x.op, Word(x.file)] + more) == Items(RedirOf(c, x.op, x.file), argc, more)
  {
    hide Args;
    var ts := [x.op, Word(x.file)] + more;
    assert IsRedir(ts) && ts[2..] == more;
  }

  lemma ArgItem(c: Cmd<string>, argc: nat, x: Item, more: seq<Token>)
    requires x.Arg? && argc + 1 < MAXARGS
    ensures Items(c, argc, [Word(x.word)] + more) == Items(AddArg(c, x.word), argc + 1, more)
  {
    var ts := [Word(x.word)] + more;
    assert !IsRedir(ts) && !EndsArgs(ts) && ts[1..] == more;
  }

  lemma {:induction false} RedirectedMore(c: Cmd<string>, a: seq<Item>, b: seq<Item>)
    ensures Redirected(c, a + b) == Redirected(Redirected(c, a), b)
    decreases |a|
  {
    if a == [] {
      assert a + b == b;
    } else {
      assert (a + b)[0] == a[0] && (a + b)[1..] == a[1..] + b;
      RedirectedMore(if a[0].To? then RedirOf(c, a[0].op, a[0].file) else c, a[1..], b);
    }
  }

  /** A word goes to the command under the redirections. */
  lemma {:induction false} AddUnder(c: Cmd<string>, items: seq<Item>, w: string)
    ensures AddArg(Redirected(c, items), w) == Redirected(AddArg(c, w), items)
    decreases |items|
  {
    if items != [] {
      AddUnder(if items[0].To? then RedirOf(c, items[0].op, items[0].file) else c, items[1..], w);
    }
  }

  lemma {:induction false} FilledIs(ws: seq<string>, done: seq<Item>, items: seq<Item>)
    ensures Filled(Redirected(Exec(ws), done), items) == Redirected(Exec(ws + WordsOf(items)), done + items)
    decreases |items|
  {
    if items == [] {
      assert ws + WordsOf(items) == ws && done + items == done;
    } else {
      var x := items[0];
      RedirectedMore(Exec(ws), done, [x]);
      assert [x][1..] == [];
      assert (done + [x]) + items[1..] == done + items;
      if x.To? {
        assert Redirected(Exec(ws), done + [x]) == RedirOf(Redirected(Exec(ws), done), x.op, x.file);
        assert [] + WordsOf(items[1..]) == WordsOf(items[1..]);
        FilledIs(ws, done + [x], items[1..]);
      } else {
        AddUnder(Exec(ws), done, x.word);
        RedirectedMore(Exec(ws + [x.word]), done, [x]);
        assert ws + ([x.word] + WordsOf(items[1..])) == (ws + [x.word]) + WordsOf(items[1..]);
        FilledIs(ws + [x.word], done + [x], items[1..]);
      }
    }
  }

  /** What is read behind a group. */
  lemma {:induction false} RedirsParse(c: Cmd<string>, redirs: seq<Item>, rest: seq<Token>)
    requires ItemsOk(redirs) && !IsRedir(rest) && forall i :: 0 <= i < |redirs| ==> redirs[i].To?
    ensures Redirs(c, ShowItems(redirs) + rest) == Got(Redirected(c, redirs), rest)
    decreases |redirs|
  {
    var ts := ShowItems(redirs) + rest;
    if redirs == [] {
      assert ts == rest;
    } else {
      hide Redirs;
      var x, more := redirs[0], ShowItems(redirs[1..]) + rest;
      assert ts == [x.op, Word(x.file)] + more && IsRedir([x.op]);
      RedirParse(c, x, more);
      RedirsParse(RedirOf(c, x.op, x.file), redirs[1..], rest);
    }
  }

  lemma RedirParse(c: Cmd<string>, x: Item, more: seq<Token>)
    requires x.To? && IsRedir([x.op])
    ensures Redirs(c, [x.op, Word(x.file)] + more) == Redirs(RedirOf(c, x.op, x.file), more)
  {
    var ts := [x.op, Word(x.file)] + more;
    assert IsRedir(ts) && ts[2..] == more;
  }

  lemma {:induction false} SimpleParse(items: seq<Item>, rest: seq<Token>)
    requires ItemsOk(items) && |WordsOf(items)| < MAXARGS && EndsArgs(rest)
    ensures Command(ShowItems(items) + rest) == Got(Redirected(Exec(WordsOf(items)), items), rest)
  {
    ItemsParse(Exec([]), 0, items, rest);
    FilledIs([], [], items);
    assert [] + WordsOf(items) == WordsOf(items) && [] + items == items;
    var ts := ShowItems(items) + rest;
    assert !StartsWith(ts, '(') by {
      if items != [] && items[0].To? {
        assert IsRedir([items[0].op]) && ts[0] == items[0].op;
      } else if items == [] {
        assert ts == rest;
      }
    }
  }

  lemma GroupParts(a: seq<Token>, b: seq<Token>, rest: seq<Token>)
    ensures var after := [Sym(')')] + (b + rest);
      var ts := [Sym('(')] + a + [Sym(')')] + b + rest;
      StartsWith(ts, '(') && ts[1..] == a + after && StartsWith(after, ')') && after[1..] == b + rest
  {
  }

  lemma {:induction false} CommandParse(c: CmdTree, rest: seq<Token>)
    requires CmdOk(c) && EndsArgs(rest)
    ensures Command(ShowCmd(c) + rest) == Got(CmdOf(c), rest)
    decreases c, 0
  {
    match c
    case Simple(items) => SimpleParse(items, rest);
    case Group(line, redirs) =>
      hide Line, Redirs, ShowLine, ShowItems;
      var after := [Sym(')')] + (ShowItems(redirs) + rest);
      LineParse(line, after);
      RedirsParse(LineOf(line), redirs, rest);
      GroupParts(ShowLine(line), ShowItems(redirs), rest);
  }

  /** What may follow a pipeline. */
  predicate EndsPipe(ts: seq<Token>) {
    EndsArgs(ts) && !StartsWith(ts, '|')
  }

  lemma {:induction false} PipeParse(p: PipeTree, rest: seq<Token>)
    requires PipeTreeOk(p) && EndsPipe(rest)
    ensures Pipeline(ShowPipe(p) + rest) == Got(PipeOf(p), rest)
    decreases p, 0
  {
    hide Command;
    match p
    case Last(cmd) => CommandParse(cmd, rest);
    case Piped(cmd, pipe) =>
      var after := [Sym('|')] + (ShowPipe(pipe) + rest);
      assert ShowPipe(p) + rest == ShowCmd(cmd) + after && after[1..] == ShowPipe(pipe) + rest;
      CommandParse(cmd, after);
      PipeParse(pipe, rest);
  }

  lemma {:induction false} BacksParse(c: Cmd<string>, n: nat, m: nat, rest: seq<Token>)
    requires !StartsWith(rest, '&')
    ensures Backs(Backed(c, n), Amps(m) + rest) == Got(Backed(c, n + m), rest)
    decreases m
  {
    var ts := Amps(m) + rest;
    if m == 0 {
      assert ts == rest;
    } else {
      assert ts[1..] == Amps(m - 1) + rest;
      BacksParse(c, n + 1, m - 1, rest);
    }
  }

  lemma {:induction false} LineParse(l: LineTree, rest: seq<Token>)
    requires LineTreeOk(l) && Closed(rest)
    ensures Line(ShowLine(l) + rest) == Got(LineOf(l), rest)
    decreases l, 1
  {
    hide Pipeline;
    var after := if l.Then? then [Sym(';')] + (ShowLine(l.line) + rest) else rest;
    assert ShowLine(l) + rest == ShowPipe(l.pipe) + (Amps(l.amps) + after);
    PipeParse(l.pipe, Amps(l.amps) + after);
    BacksParse(PipeOf(l.pipe), 0, l.amps, after);
    if l.Then? {
      assert after[1..] == ShowLine(l.line) + rest;
      LineParse(l.line, rest);
    }
  }

  // ----- Every accepted line is the tokens of a tree -----

  lemma {:induction false} RedirsTree(c: Cmd<string>, ts: seq<Token>) returns (items: seq<Item>)
    requires Redirs(c, ts).Got?
    ensures ItemsOk(items) && forall i :: 0 <= i < |items| ==> items[i].To?
    ensures ShowItems(items) + Redirs(c, ts).rest == ts && Redirected(c, items) == Redirs(c, ts).cmd
    decreases |ts|
  {
    items := [];
    if IsRedir(ts) {
      var x := To(ts[0], ts[1].text);
      TwoTokens(ts);
      var more := RedirsTree(RedirOf(c, x.op, x.file), ts[2..]);
      items := [x] + more;
      hide ShowItems;
      OneMore(c, x, more, Redirs(c, ts).rest);
      assert items[1..] == more;
    }
  }

  lemma {:induction false} ShowMore(a: seq<Item>, b: seq<Item>)
    ensures ShowItems(a + b) == ShowItems(a) + ShowItems(b) && WordsOf(a + b) == WordsOf(a) + WordsOf(b)
    decreases |a|
  {
    if a == [] {
      assert a + b == b;
    } else {
      assert (a + b)[0] == a[0] && (a + b)[1..] == a[1..] + b;
      ShowMore(a[1..], b);
    }
  }

  lemma {:induction false} ItemsTree(c: Cmd<string>, argc: nat, ts: seq<Token>) returns (items: seq<Item>)
    requires Items(c, argc, ts).Got? && argc < MAXARGS
    ensures ItemsOk(items) && argc + |WordsOf(items)| < MAXARGS
    ensures ShowItems(items) + Items(c, argc, ts).rest == ts && Filled(c, items) == Items(c, argc, ts).cmd
    decreases |ts|
  {
    ItemsStart(c, argc, ts);
    hide Items, ShowItems, WordsOf, Filled, ItemsOk;
    if IsRedir(ts) {
      var x := To(ts[0], ts[1].text);
      TwoTokens(ts);
      ToItem(c, argc, x, ts[2..]);
      var more := ItemsTree(RedirOf(c, x.op, x.file), argc, ts[2..]);
      items := [x] + more;
      OneMore(c, x, more, Items(c, argc, ts).rest);
    } else if EndsArgs(ts) {
      items := [];
      NoItem(c, argc, ts);
      NoItems(c, ts);
    } else {
      var x := Arg(ts[0].text);
      OneToken(ts);
      ArgItem(c, argc, x, ts[1..]);
      var more := ItemsTree(AddArg(c, x.word), argc + 1, ts[1..]);
      items := [x] + more;
      OneMore(c, x, more, Items(c, argc, ts).rest);
    }
  }

  lemma OneToken(ts: seq<Token>)
    requires ts != [] && ts[0].Word?
    ensures ts == [Word(ts[0].text)] + ts[1..]
  {
  }

  lemma TwoTokens(ts: seq<Token>)
    requires IsRedir(ts) && |ts| >= 2 && ts[1].Word?
    ensures ts == [ts[0], Word(ts[1].text)] + ts[2..] && IsRedir([ts[0]])
  {
  }

  lemma NoItems(c: Cmd<string>, ts: seq<Token>)
    ensures ItemsOk([]) && WordsOf([]) == [] && ShowItems([]) + ts == ts && Filled(c, []) == c
  {
  }

  lemma ItemsStart(c: Cmd<string>, argc: nat, ts: seq<Token>)
    requires Items(c, argc, ts).Got?
    ensures IsRedir(ts) ==> |ts| >= 2 && ts[1].Word?
    ensures !IsRedir(ts) && !EndsArgs(ts) ==> ts[0].Word? && argc + 1 < MAXARGS
  {
  }

  lemma OneMore(c: Cmd<string>, x: Item, more: seq<Item>, rest: seq<Token>)
    requires ItemsOk(more) && (x.To? ==> IsRedir([x.op]))
    ensures var items := [x] + more;
      && ItemsOk(items) && |WordsOf(items)| == |WordsOf(more)| + (if x.Arg? then 1 else 0)
      && Filled(c, items) == Filled(if x.To? then RedirOf(c, x.op, x.file) else AddArg(c, x.word), more)
      && ShowItems(items) + rest
         == (if x.To? then [x.op, Word(x.file)] else [Word(x.word)]) + (ShowItems(more) + rest)
  {
    assert ([x] + more)[1..] == more;
  }

  lemma GroupTokens(ts: seq<Token>, a: seq<Token>, after: seq<Token>, b: seq<Token>, rest: seq<Token>)
    requires StartsWith(ts, '(') && ts[1..] == a + after && StartsWith(after, ')') && after[1..] == b + rest
    ensures [Sym('(')] + a + [Sym(')')] + b + rest == ts
  {
    assert after == [Sym(')')] + (b + rest);
    assert ts == [Sym('(')] + (a + after);
  }

  lemma {:induction false} CommandTree(ts: seq<Token>) returns (c: CmdTree)
    requires Command(ts).Got?
    ensures CmdOk(c) && ShowCmd(c) + Command(ts).rest == ts && CmdOf(c) == Command(ts).cmd
    decreases |ts|, 0
  {
    if StartsWith(ts, '(') {
      hide Redirs;
      var l := Line(ts[1..]);
      hide Line;
      var line := LineTreeFor(ts[1..]);
      var redirs := RedirsTree(l.cmd, l.rest[1..]);
      c := Group(line, redirs);
      GroupTokens(ts, ShowLine(line), l.rest, ShowItems(redirs), Command(ts).rest);
    } else {
      c := SimpleTree(ts);
    }
  }

  lemma {:induction false} SimpleTree(ts: seq<Token>) returns (c: CmdTree)
    requires ShellSpec.Simple(ts).Got?
    ensures var r := ShellSpec.Simple(ts); CmdOk(c) && ShowCmd(c) + r.rest == ts && CmdOf(c) == r.cmd
  {
    assert ShellSpec.Simple(ts) == Items(Exec([]), 0, ts);
    hide Items, ShellSpec.Simple;
    var items := ItemsTree(Exec([]), 0, ts);
    c := Simple(items);
    FilledIs([], [], items);
    assert [] + WordsOf(items) == WordsOf(items) && [] + items == items;
  }

  lemma {:induction false} PipeTreeFor(ts: seq<Token>) returns (p: PipeTree)
    requires Pipeline(ts).Got?
    ensures PipeTreeOk(p) && ShowPipe(p) + Pipeline(ts).rest == ts && PipeOf(p) == Pipeline(ts).cmd
    decreases |ts|, 1
  {
    hide Command;
    var e := Command(ts);
    var cmd := CommandTree(ts);
    p := Last(cmd);
    if StartsWith(e.rest, '|') {
      var pipe := PipeTreeFor(e.rest[1..]);
      p := Piped(cmd, pipe);
      assert e.rest == [Sym('|')] + e.rest[1..];
    }
  }

  lemma AmpsMore(ts: seq<Token>, m: nat, rest: seq<Token>)
    requires StartsWith(ts, '&') && ts[1..] == Amps(m) + rest
    ensures Amps(m + 1) + rest == ts
  {
    assert Amps(m + 1) == [Sym('&')] + Amps(m);
    assert ts == [Sym('&')] + (Amps(m) + rest);
  }

  lemma {:induction false} BacksTree(c: Cmd<string>, k: nat, ts: seq<Token>) returns (n: nat)
    ensures Amps(n) + Backs(Backed(c, k), ts).rest == ts && Backs(Backed(c, k), ts).cmd == Backed(c, k + n)
    decreases |ts|
  {
    hide Amps;
    if StartsWith(ts, '&') {
      assert Back(Backed(c, k)) == Backed(c, k + 1);
      var m := BacksTree(c, k + 1, ts[1..]);
      n := m + 1;
      AmpsMore(ts, m, Backs(Backed(c, k), ts).rest);
    } else {
      n := 0;
      NoAmps(ts);
    }
  }

  lemma NoAmps(ts: seq<Token>)
    ensures Amps(0) + ts == ts
  {
  }

  lemma ThenTokens(a: seq<Token>, n: nat, after: seq<Token>, b: seq<Token>, rest: seq<Token>)
    requires StartsWith(after, ';') && after[1..] == b + rest
    ensures a + Amps(n) + [Sym(';')] + b + rest == a + (Amps(n) + after)
  {
    assert after == [Sym(';')] + (b + rest);
  }

  lemma LineIs(ts: seq<Token>)
    ensures Pipeline(ts).Bad? ==> Line(ts) == Pipeline(ts)
    ensures Pipeline(ts).Got? ==>
      var b := Backs(Pipeline(ts).cmd, Pipeline(ts).rest);
      && |b.rest| <= |ts|
      && Line(ts) == if !StartsWith(b.rest, ';') then b
                     else var l := Line(b.rest[1..]); if l.Bad? then l else Got(List(b.cmd, l.cmd), l.rest)
  {
    hide Pipeline, Backs;
  }

  lemma {:induction false} LineTreeFor(ts: seq<Token>) returns (l: LineTree)
    requires Line(ts).Got?
    ensures LineTreeOk(l) && ShowLine(l) + Line(ts).rest == ts && LineOf(l) == Line(ts).cmd
    decreases |ts|, 2
  {
    hide Pipeline, Amps, Backs, Line;
    LineIs(ts);
    var p := Pipeline(ts);
    var pipe := PipeTreeFor(ts);
    var b := Backs(p.cmd, p.rest);
    assert p.cmd == Backed(p.cmd, 0);
    var n := BacksTree(p.cmd, 0, p.rest);
    hide Backed;
    if StartsWith(b.rest, ';') {
      var line := LineTreeFor(b.rest[1..]);
      l := Then(pipe, n, line);
      ThenTokens(ShowPipe(pipe), n, b.rest, ShowLine(line), Line(ts).rest);
    } else {
      l := Ends(pipe, n);
      assert ShowPipe(pipe) + Amps(n) + b.rest == ShowPipe(pipe) + (Amps(n) + b.rest);
    }
  }

  /** Exactly the lines whose tokens are those of a tree are accepted, and each means what its
      tree stands for, which the tokens determine. */
  lemma {:induction false} MeaningIff(s: string, c: Cmd<string>)
    ensures Meaning(s) == Got(c, []) <==> exists l :: LineTreeOk(l) && ShowLine(l) == Tokens(s) && LineOf(l) == c
  {
    if Meaning(s) == Got(c, []) {
      var l := LineTreeFor(Tokens(s));
      assert ShowLine(l) + [] == ShowLine(l);
    }
    if l :| LineTreeOk(l) && ShowLine(l) == Tokens(s) && LineOf(l) == c {
      LineParse(l, []);
      assert ShowLine(l) + [] == ShowLine(l);
    }
  }

  // ----- Parentheses only where they are needed -----

  /** How loosely a command's topmost operator binds. */
  function Level(c: Cmd<string>): nat {
    match c
    case Exec(_) => 0
    case Redir(_, _, _, _) => 0
    case Pipe(_, _) => 1
    case Back(_) => 2
    case List(_, _) => 3
  }

  /** The rendering of a command without parentheses around it, and as an operand that may bind
      as loosely as `level`. */
  function Body(c: Cmd<string>): seq<Token>
    decreases c, 0
  {
    match c
    case Exec(argv) => Words(argv)
    case Redir(cmd, file, _, fd) => Operand(cmd, 0) + [Sym(if fd == 0 then '<' else '>'), Word(file)]
    case Pipe(left, right) => Operand(left, 0) + [Sym('|')] + Operand(right, 1)
    case Back(cmd) => Operand(cmd, 2) + [Sym('&')]
    case List(left, right) => Operand(left, 2) + [Sym(';')] + Operand(right, 3)
  }

  function Operand(c: Cmd<string>, level: nat): seq<Token>
    decreases c, 1
  {
    if Level(c) <= level then Body(c) else [Sym('(')] + Body(c) + [Sym(')')]
  }

  /** The rendering of a command with parentheses only where precedence demands them. */
  function Flat(c: Cmd<string>): seq<Token> {
    Operand(c, 3)
  }

  function ArgItems(argv: seq<string>): seq<Item> {
    if argv == [] then [] else [Arg(argv[0])] + ArgItems(argv[1..])
  }

  lemma {:induction false} ArgItemsAre(argv: seq<string>, c: Cmd<string>)
    ensures var items := ArgItems(argv);
      && ItemsOk(items) && WordsOf(items) == argv && ShowItems(items) == Words(argv) && Redirected(c, items) == c
  {
    if argv != [] {
      ArgItemsAre(argv[1..], c);
      assert ArgItems(argv)[1..] == ArgItems(argv[1..]);
    }
  }

  /** Where to stop: an operand in parentheses is a line again. */
  function Rank(c: Cmd<string>, level: nat): nat {
    if Level(c) > level then 4 + level else if level > 3 then 0 else level - Level(c)
  }

  lemma {:induction false} CmdFor(c: Cmd<string>) returns (t: CmdTree)
    requires WellFormed(c)
    ensures CmdOk(t) && ShowCmd(t) == Operand(c, 0) && CmdOf(t) == c
    decreases c, Rank(c, 0)
  {
    match c
    case Exec(argv) =>
      t := Simple(ArgItems(argv));
      ArgItemsAre(argv, c);
    case Redir(cmd, file, mode, fd) =>
      var under := CmdFor(cmd);
      t := WithRedir(under, Sym(if fd == 0 then '<' else '>'), file);
    case _ =>
      var line := LineFor(c);
      t := Group(line, []);
      assert ShowCmd(t) == [Sym('(')] + ShowLine(line) + [Sym(')')];
  }

  /** One more redirection. */
  lemma WithRedir(c: CmdTree, op: Token, file: string) returns (t: CmdTree)
    requires CmdOk(c) && IsRedir([op])
    ensures CmdOk(t) && ShowCmd(t) == ShowCmd(c) + [op, Word(file)] && CmdOf(t) == RedirOf(CmdOf(c), op, file)
  {
    var x := [To(op, file)];
    assert x[1..] == [] && ShowItems(x) == [op, Word(file)] && WordsOf(x) == [];
    match c
    case Simple(items) =>
      t := Simple(items + x);
      ShowMore(items, x);
      RedirectedMore(Exec(WordsOf(items)), items, x);
      assert WordsOf(items + x) == WordsOf(items);
    case Group(line, redirs) =>
      t := Group(line, redirs + x);
      ShowMore(redirs, x);
      RedirectedMore(LineOf(line), redirs, x);
      assert ShowCmd(t) == ShowCmd(c) + [op, Word(file)];
  }

  lemma {:induction false} PipeFor(c: Cmd<string>) returns (t: PipeTree)
    requires WellFormed(c)
    ensures PipeTreeOk(t) && ShowPipe(t) == Operand(c, 1) && PipeOf(t) == c
    decreases c, Rank(c, 1)
  {
    if c.Pipe? {
      var left := CmdFor(c.left);
      var right := PipeFor(c.right);
      t := Piped(left, right);
    } else {
      var cmd := CmdFor(c);
      t := Last(cmd);
    }
  }

  lemma {:induction false} BackFor(c: Cmd<string>) returns (t: PipeTree, n: nat)
    requires WellFormed(c)
    ensures PipeTreeOk(t) && ShowPipe(t) + Amps(n) == Operand(c, 2) && Backed(PipeOf(t), n) == c
    decreases c, Rank(c, 2)
  {
    if c.Back? {
      var m;
      t, m := BackFor(c.cmd);
      n := m + 1;
      assert Amps(n) == Amps(m) + [Sym('&')];
      assert ShowPipe(t) + Amps(n) == Operand(c.cmd, 2) + [Sym('&')];
    } else {
      t := PipeFor(c);
      n := 0;
      assert ShowPipe(t) + Amps(0) == ShowPipe(t);
    }
  }

  lemma {:induction false} LineFor(c: Cmd<string>) returns (t: LineTree)
    requires WellFormed(c)
    ensures LineTreeOk(t) && ShowLine(t) == Body(c) && LineOf(t) == c
    decreases c, Rank(c, 3)
  {
    if c.List? {
      var pipe, n := BackFor(c.left);
      var right := LineFor(c.right);
      t := Then(pipe, n, right);
      assert ShowLine(t) == Operand(c.left, 2) + [Sym(';')] + ShowLine(right);
    } else {
      var pipe, n := BackFor(c);
      t := Ends(pipe, n);
    }
  }

  lemma {:induction false} BodyOk(c: Cmd<string>)
    requires WellFormed(c)
    ensures TokensOk(Body(c))
  {
    match c
    case Exec(argv) => WordsOk(argv);
    case Redir(cmd, _, _, _) => BodyOk(cmd);
    case Pipe(left, right) => BodyOk(left); BodyOk(right);
    case List(left, right) => BodyOk(left); BodyOk(right);
    case Back(cmd) => BodyOk(cmd);
  }

  /** A line with parentheses only where precedence demands them means its tree, for every tree
      and however the line is spaced. */
  lemma {:induction false} FlatMeans(c: Cmd<string>, s: string)
    requires WellFormed(c)
    ensures Meaning(Spell(Flat(c))) == Got(c, [])
    ensures Tokens(s) == Flat(c) ==> Meaning(s) == Got(c, [])
  {
    var l := LineFor(c);
    BodyOk(c);
    TokensSpell(Flat(c));
    MeaningIff(Spell(Flat(c)), c);
    MeaningIff(s, c);
  }

  /** The three forms of redirection: O_RDONLY for descriptor 0, O_WRONLY and O_CREATE for
      descriptor 1. '>>' appends nothing; it means the same as '>'. */
  lemma RedirForms(c: Cmd<string>, file: string)
    ensures RedirOf(c, Sym('<'), file) == Redir(c, file, 0x000, 0)
    ensures RedirOf(c, Sym('>'), file) == RedirOf(c, Append, file) == Redir(c, file, 0x201, 1)
  {
  }

  // ----- Spacing -----

  predicate Blank(gap: string) {
    forall i :: 0 <= i < |gap| ==> Space(gap[i])
  }

  /** Tokens with blanks around them: one gap before each and one at the end. */
  function LayOut(ts: seq<Token>, gaps: seq<string>): string
    requires |gaps| == |ts| + 1
  {
    if ts == [] then gaps[0] else gaps[0] + (Text(ts[0]) + LayOut(ts[1..], gaps[1..]))
  }

  /** Two tokens that would be read as others without a blank between them. */
  predicate Glues(t: Token, u: Token) {
    (t.Word? && u.Word?) || (t == Sym('>') && (u == Sym('>') || u == Append))
  }

  predicate GapsOk(ts: seq<Token>, gaps: seq<string>)
    requires |gaps| == |ts| + 1
  {
    && Blank(gaps[0])
    && (ts != [] ==> GapsOk(ts[1..], gaps[1..]))
    && (|ts| >= 2 && Glues(ts[0], ts[1]) ==> gaps[1] != "")
  }

  lemma {:induction false} SkipBlank(gap: string, s: string)
    requires Blank(gap) && (s != "" ==> !Space(s[0]))
    ensures Skip(gap + s) == s
  {
    if gap == "" {
      assert gap + s == s;
    } else {
      assert (gap + s)[0] == gap[0] && (gap + s)[1..] == gap[1..] + s;
      SkipBlank(gap[1..], s);
    }
  }

  lemma {:induction false} BlankSkipped(s: string)
    ensures var t := Skip(s); Blank(s[..|s| - |t|]) && s == s[..|s| - |t|] + t
  {
    if s != "" && Space(s[0]) {
      BlankSkipped(s[1..]);
      var t := Skip(s);
      assert s[..|s| - |t|] == [s[0]] + s[1..][..|s| - 1 - |t|];
    }
  }

  /** `rest` does not go on with token `t`. */
  predicate Stops(t: Token, rest: string) {
    rest == "" || ((t.Word? ==> !WordChar(rest[0])) && (t == Sym('>') ==> rest[0] != '>'))
  }

  lemma FirstIs(t: Token, rest: string)
    requires TokenOk(t) && Stops(t, rest)
    ensures var s := Text(t) + rest;
      s != "" && !Space(s[0]) && First(s) == t && FirstLength(s) == |Text(t)| && s[FirstLength(s)..] == rest
  {
    var s := Text(t) + rest;
    assert s[|Text(t)|..] == rest && s[..|Text(t)|] == Text(t);
    if t.Word? {
      WordEnds(t.text, rest);
    }
  }

  lemma {:induction false} LaidOut(ts: seq<Token>, gaps: seq<string>)
    requires TokensOk(ts) && |gaps| == |ts| + 1 && GapsOk(ts, gaps)
    ensures Tokens(LayOut(ts, gaps)) == ts
  {
    if ts == [] {
      assert gaps[0] + "" == gaps[0];
      SkipBlank(gaps[0], "");
    } else {
      var rest := LayOut(ts[1..], gaps[1..]);
      LayOutStops(ts, gaps);
      FirstIs(ts[0], rest);
      SkipBlank(gaps[0], Text(ts[0]) + rest);
      LaidOut(ts[1..], gaps[1..]);
    }
  }

  lemma LayOutStops(ts: seq<Token>, gaps: seq<string>)
    requires TokensOk(ts) && |gaps| == |ts| + 1 && GapsOk(ts, gaps) && ts != []
    ensures Stops(ts[0], LayOut(ts[1..], gaps[1..]))
  {
    var rest := LayOut(ts[1..], gaps[1..]);
    assert GapsOk(ts[1..], gaps[1..]);
    if gaps[1] != "" {
      assert rest[0] == gaps[1][0];
    } else if |ts| >= 2 {
      assert rest[0] == Text(ts[1])[0] && TokenOk(ts[1]);
    }
  }

  lemma {:induction false} LayoutOf(s: string) returns (gaps: seq<string>)
    ensures |gaps| == |Tokens(s)| + 1 && GapsOk(Tokens(s), gaps) && LayOut(Tokens(s), gaps) == s
    decreases |s|
  {
    var t := Skip(s);
    BlankSkipped(s);
    if t == "" {
      gaps := [s];
    } else {
      var rest := t[FirstLength(t)..];
      var more := LayoutOf(rest);
      gaps := [s[..|s| - |t|]] + more;
      LexedOk(rest);
      TextOfFirst(t);
      OneMoreGap(First(t), Tokens(rest), s[..|s| - |t|], more);
    }
  }

  lemma OneMoreGap(t: Token, ts: seq<Token>, gap: string, gaps: seq<string>)
    requires |gaps| == |ts| + 1 && GapsOk(ts, gaps) && Blank(gap) && TokensOk(ts) && Stops(t, LayOut(ts, gaps))
    ensures GapsOk([t] + ts, [gap] + gaps)
    ensures LayOut([t] + ts, [gap] + gaps) == gap + (Text(t) + LayOut(ts, gaps))
  {
    assert ([t] + ts)[1..] == ts && ([gap] + gaps)[1..] == gaps;
    if ts != [] && gaps[0] == "" {
      assert TokenOk(ts[0]);
      assert LayOut(ts, gaps)[0] == Text(ts[0])[0];
    }
  }

  lemma TextOfFirst(t: string)
    requires t != "" && !Space(t[0])
    ensures t == Text(First(t)) + t[FirstLength(t)..] && Stops(First(t), t[FirstLength(t)..])
  {
    WordTaken(t);
  }

  /** Reading a line as tokens: exactly the ways to write a list of tokens with any blanks around
      them, and some where two would be read as one, are read as that list. */
  lemma {:induction false} TokensIff(s: string, ts: seq<Token>)
    ensures Tokens(s) == ts <==>
      TokensOk(ts) && exists gaps :: |gaps| == |ts| + 1 && GapsOk(ts, gaps) && LayOut(ts, gaps) == s
  {
    if Tokens(s) == ts {
      LexedOk(s);
      var gaps := LayoutOf(s);
    }
    if gaps :| TokensOk(ts) && |gaps| == |ts| + 1 && GapsOk(ts, gaps) && LayOut(ts, gaps) == s {
      LaidOut(ts, gaps);
    }
  }
}
