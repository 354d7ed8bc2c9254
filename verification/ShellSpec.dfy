/** sh.c: what a command line means. Characters make tokens; tokens make command trees. The
    grammar below is the one the recursive descent of sh.c accepts, on token lists. */
module ShellSpec {
  const MAXARGS := 10
  const O_RDONLY := 0x000
  const O_WRONLY := 0x001
  const O_CREATE := 0x200

  predicate Space(c: char) {
    c == ' ' || c == '\t' || c == '\r' || c == '\n' || c == '\U{0B}'
  }

  predicate Symbol(c: char) {
    c in "<|>&;()"
  }

  predicate WordChar(c: char) {
    !Space(c) && !Symbol(c)
  }

  predicate IsWord(w: string) {
    w != "" && forall i :: 0 <= i < |w| ==> WordChar(w[i])
  }

  datatype Token = Word(text: string) | Sym(c: char) | Append

  function Skip(s: string): (r: string)
    ensures |r| <= |s| && (r != "" ==> !Space(r[0]))
  {
    if s != "" && Space(s[0]) then Skip(s[1..]) else s
  }

  function WordLength(s: string): (n: nat)
    ensures n <= |s|
  {
    if s != "" && WordChar(s[0]) then 1 + WordLength(s[1..]) else 0
  }

  /** How many characters the token at the front of `s` has. */
  function FirstLength(s: string): (n: nat)
    requires s != "" && !Space(s[0])
    ensures 0 < n <= |s|
  {
    if s[0] == '>' && |s| > 1 && s[1] == '>' then 2
    else if Symbol(s[0]) then 1
    else WordLength(s)
  }

  function First(s: string): Token
    requires s != "" && !Space(s[0])
  {
    if s[0] == '>' && |s| > 1 && s[1] == '>' then Append
    else if Symbol(s[0]) then Sym(s[0])
    else Word(s[..WordLength(s)])
  }

  function Tokens(s: string): seq<Token>
    decreases |s|
  {
    var t := Skip(s);
    if t == "" then [] else [First(t)] + Tokens(t[FirstLength(t)..])
  }

  /** A command tree whose words are of type W. */
  datatype Cmd<W> =
    | Exec(argv: seq<W>)
    | Redir(cmd: Cmd<W>, file: W, mode: int, fd: int)
    | Pipe(left: Cmd<W>, right: Cmd<W>)
    | List(left: Cmd<W>, right: Cmd<W>)
    | Back(cmd: Cmd<W>)

  /** The panics of the parser. */
  datatype Error = MissingFile | MissingParen | SyntaxError | TooManyArgs | Leftovers

  datatype Parsed = Got(cmd: Cmd<string>, rest: seq<Token>) | Bad(error: Error)

  /** `cmd->argv[argc] = q` where `cmd` is the command under the redirections of `ret`. */
  function AddArg<W>(ret: Cmd<W>, w: W): Cmd<W> {
    match ret
    case Exec(argv) => Exec(argv + [w])
    case Redir(cmd, file, mode, fd) => Redir(AddArg(cmd, w), file, mode, fd)
    case _ => ret
  }

  predicate IsRedir(ts: seq<Token>) {
    ts != [] && (ts[0] == Sym('<') || ts[0] == Sym('>') || ts[0] == Append)
  }

  predicate StartsWith(ts: seq<Token>, c: char) {
    ts != [] && ts[0] == Sym(c)
  }

  /** What ends the words of a simple command. */
  predicate EndsArgs(ts: seq<Token>) {
    ts == [] || StartsWith(ts, '|') || StartsWith(ts, ')') || StartsWith(ts, '&') || StartsWith(ts, ';')
  }

  function RedirOf<W>(cmd: Cmd<W>, t: Token, file: W): Cmd<W> {
    if t == Sym('<') then Redir(cmd, file, O_RDONLY, 0) else Redir(cmd, file, O_WRONLY + O_CREATE, 1)
  }

  function Redirs(cmd: Cmd<string>, ts: seq<Token>): (r: Parsed)
    ensures r.Got? ==> |r.rest| <= |ts| && !IsRedir(r.rest)
    decreases |ts|
  {
    if !IsRedir(ts) then Got(cmd, ts)
    else if |ts| < 2 || !ts[1].Word? then Bad(MissingFile)
    else Redirs(RedirOf(cmd, ts[0], ts[1].text), ts[2..])
  }

  function Args(ret: Cmd<string>, argc: nat, ts: seq<Token>): (r: Parsed)
    ensures r.Got? ==> |r.rest| <= |ts|
    decreases |ts|
  {
    if EndsArgs(ts) then Got(ret, ts)
    else if !ts[0].Word? then Bad(SyntaxError)
    else if argc + 1 >= MAXARGS then Bad(TooManyArgs)
    else
      var r := Redirs(AddArg(ret, ts[0].text), ts[1..]);
      if r.Bad? then r else Args(r.cmd, argc + 1, r.rest)
  }

  function Simple(ts: seq<Token>): (r: Parsed)
    ensures r.Got? ==> |r.rest| <= |ts|
  {
    var r := Redirs(Exec([]), ts);
    if r.Bad? then r else Args(r.cmd, 0, r.rest)
  }

  function Backs(cmd: Cmd<string>, ts: seq<Token>): (r: Parsed)
    ensures r.Got? && |r.rest| <= |ts| && !StartsWith(r.rest, '&')
    decreases |ts|
  {
    if StartsWith(ts, '&') then Backs(Back(cmd), ts[1..]) else Got(cmd, ts)
  }

  function Line(ts: seq<Token>): (r: Parsed)
    ensures r.Got? ==> |r.rest| <= |ts|
    decreases |ts|, 3
  {
    var p := Pipeline(ts);
    if p.Bad? then p
    else
      var b := Backs(p.cmd, p.rest);
      if !StartsWith(b.rest, ';') then b
      else
        var l := Line(b.rest[1..]);
        if l.Bad? then l else Got(List(b.cmd, l.cmd), l.rest)
  }

  function Pipeline(ts: seq<Token>): (r: Parsed)
    ensures r.Got? ==> |r.rest| <= |ts|
    decreases |ts|, 2
  {
    var e := Command(ts);
    if e.Bad? || !StartsWith(e.rest, '|') then e
    else
      var p := Pipeline(e.rest[1..]);
      if p.Bad? then p else Got(Pipe(e.cmd, p.cmd), p.rest)
  }

  function Command(ts: seq<Token>): (r: Parsed)
    ensures r.Got? ==> |r.rest| <= |ts|
    decreases |ts|, 1
  {
    if StartsWith(ts, '(') then Block(ts) else Simple(ts)
  }

  function Block(ts: seq<Token>): (r: Parsed)
    requires StartsWith(ts, '(')
    ensures r.Got? ==> |r.rest| <= |ts|
    decreases |ts|, 0
  {
    var l := Line(ts[1..]);
    if l.Bad? then l
    else if !StartsWith(l.rest, ')') then Bad(MissingParen)
    else Redirs(l.cmd, l.rest[1..])
  }

  /** The meaning of a whole line. */
  function Meaning(s: string): (r: Parsed)
    ensures r.Got? ==> r.rest == []
  {
    var r := Line(Tokens(s));
    if r.Got? && r.rest != [] then Bad(Leftovers) else r
  }

  /** A tree the parser can build. */
  predicate WellFormed(c: Cmd<string>) {
    match c
    case Exec(argv) => |argv| < MAXARGS && forall i :: 0 <= i < |argv| ==> IsWord(argv[i])
    case Redir(cmd, file, mode, fd) =>
      WellFormed(cmd) && IsWord(file) && ((mode == O_RDONLY && fd == 0) || (mode == O_WRONLY + O_CREATE && fd == 1))
    case Pipe(left, right) => WellFormed(left) && WellFormed(right)
    case List(left, right) => WellFormed(left) && WellFormed(right)
    case Back(cmd) => WellFormed(cmd)
  }

  function Words(argv: seq<string>): (ts: seq<Token>)
    ensures |ts| == |argv|
  {
    if argv == [] then [] else [Word(argv[0])] + Words(argv[1..])
  }

  /** The fully parenthesised form of a command. */
  function Form(c: Cmd<string>): seq<Token>
    decreases c, 0
  {
    match c
    case Exec(argv) => Words(argv)
    case Redir(cmd, file, mode, fd) => Nested(cmd) + [Sym(if fd == 0 then '<' else '>'), Word(file)]
    case Pipe(left, right) => Nested(left) + [Sym('|')] + Nested(right)
    case List(left, right) => Nested(left) + [Sym(';')] + Nested(right)
    case Back(cmd) => Nested(cmd) + [Sym('&')]
  }

  function Nested(c: Cmd<string>): seq<Token>
    decreases c, 1
  {
    [Sym('(')] + Form(c) + [Sym(')')]
  }

  predicate Closed(rest: seq<Token>) {
    rest == [] || StartsWith(rest, ')')
  }

  lemma {:induction false} ArgsForm(args: seq<string>, argv: seq<string>, rest: seq<Token>)
    requires |args| + |argv| < MAXARGS && Closed(rest)
    ensures Args(Exec(args), |args|, Words(argv) + rest) == Got(Exec(args + argv), rest)
    decreases |argv|
  {
    if argv == [] {
      assert args + argv == args;
      assert Words(argv) + rest == rest;
    } else {
      var ts := Words(argv) + rest;
      assert ts[1..] == Words(argv[1..]) + rest;
      assert args + [argv[0]] + argv[1..] == args + argv;
      ArgsForm(args + [argv[0]], argv[1..], rest);
      assert !IsRedir(ts[1..]);
    }
  }

  /** A parenthesised command, then redirections. */
  lemma {:induction false} BlockForm(c: Cmd<string>, rest: seq<Token>)
    requires WellFormed(c)
    ensures Command(Nested(c) + rest) == Redirs(c, rest)
    decreases c, 1
  {
    var ts := Nested(c) + rest;
    assert ts[1..] == Form(c) + ([Sym(')')] + rest);
    LineForm(c, [Sym(')')] + rest);
    assert ([Sym(')')] + rest)[1..] == rest;
  }

  lemma PlainRest(c: Cmd<string>, rest: seq<Token>)
    requires !IsRedir(rest)
    ensures Redirs(c, rest) == Got(c, rest)
  {
  }

  lemma LineAfter(ts: seq<Token>, c: Cmd<string>, rest: seq<Token>)
    requires Pipeline(ts) == Got(c, rest) && !StartsWith(rest, '&')
    ensures Line(ts) == if StartsWith(rest, ';') then
                          (var l := Line(rest[1..]); if l.Bad? then l else Got(List(c, l.cmd), l.rest))
                        else Got(c, rest)
  {
  }

  /** The parser reads back what the rendering of a tree says, whatever follows it. */
  lemma {:induction false} LineForm(c: Cmd<string>, rest: seq<Token>)
    requires WellFormed(c) && Closed(rest)
    ensures Line(Form(c) + rest) == Got(c, rest)
    decreases c, 0
  {
    hide Line, Pipeline, Command, Redirs;
    match c
    case Exec(argv) => ExecForm(argv, rest);
    case Redir(cmd, file, mode, fd) =>
      BlockForm(cmd, [Sym(if fd == 0 then '<' else '>'), Word(file)] + rest);
      RedirForm(c, rest);
    case Pipe(left, right) =>
      BlockForm(left, [Sym('|')] + (Nested(right) + rest));
      BlockForm(right, rest);
      PipeForm(left, right, rest);
    case List(left, right) =>
      BlockForm(left, [Sym(';')] + (Nested(right) + rest));
      BlockForm(right, rest);
      ListForm(left, right, rest);
    case Back(cmd) =>
      BlockForm(cmd, [Sym('&')] + rest);
      BackForm(cmd, rest);
  }

  lemma ExecForm(argv: seq<string>, rest: seq<Token>)
    requires |argv| < MAXARGS && Closed(rest)
    ensures Line(Words(argv) + rest) == Got(Exec(argv), rest)
  {
    ArgsForm([], argv, rest);
    assert [] + argv == argv;
    PlainRest(Exec([]), Words(argv) + rest);
    LineAfter(Words(argv) + rest, Exec(argv), rest);
  }

  lemma RedirForm(c: Cmd<string>, rest: seq<Token>)
    requires c.Redir? && WellFormed(c) && Closed(rest)
    requires var tail := [Sym(if c.fd == 0 then '<' else '>'), Word(c.file)] + rest;
      Command(Nested(c.cmd) + tail) == Redirs(c.cmd, tail)
    ensures Line(Form(c) + rest) == Got(c, rest)
  {
    var tail := [Sym(if c.fd == 0 then '<' else '>'), Word(c.file)] + rest;
    assert Form(c) + rest == Nested(c.cmd) + tail;
    assert tail[2..] == rest;
    PlainRest(c, rest);
    LineAfter(Form(c) + rest, c, rest);
  }

  lemma PipeForm(left: Cmd<string>, right: Cmd<string>, rest: seq<Token>)
    requires Closed(rest) && Command(Nested(right) + rest) == Redirs(right, rest)
    requires var tail := [Sym('|')] + (Nested(right) + rest); Command(Nested(left) + tail) == Redirs(left, tail)
    ensures Line(Form(Pipe(left, right)) + rest) == Got(Pipe(left, right), rest)
  {
    var tail := [Sym('|')] + (Nested(right) + rest);
    assert Form(Pipe(left, right)) + rest == Nested(left) + tail;
    PlainRest(left, tail);
    PlainRest(right, rest);
    assert tail[1..] == Nested(right) + rest;
    LineAfter(Nested(left) + tail, Pipe(left, right), rest);
  }

  lemma ListForm(left: Cmd<string>, right: Cmd<string>, rest: seq<Token>)
    requires Closed(rest) && Command(Nested(right) + rest) == Redirs(right, rest)
    requires var tail := [Sym(';')] + (Nested(right) + rest); Command(Nested(left) + tail) == Redirs(left, tail)
    ensures Line(Form(List(left, right)) + rest) == Got(List(left, right), rest)
  {
    var tail := [Sym(';')] + (Nested(right) + rest);
    assert Form(List(left, right)) + rest == Nested(left) + tail;
    PlainRest(left, tail);
    PlainRest(right, rest);
    assert tail[1..] == Nested(right) + rest;
    LineAfter(Nested(right) + rest, right, rest);
    LineAfter(Nested(left) + tail, left, tail);
  }

  lemma BackForm(cmd: Cmd<string>, rest: seq<Token>)
    requires Closed(rest) && Command(Nested(cmd) + ([Sym('&')] + rest)) == Redirs(cmd, [Sym('&')] + rest)
    ensures Line(Form(Back(cmd)) + rest) == Got(Back(cmd), rest)
  {
    var tail := [Sym('&')] + rest;
    assert Form(Back(cmd)) + rest == Nested(cmd) + tail;
    assert tail[1..] == rest;
    PlainRest(cmd, tail);
    assert Pipeline(Nested(cmd) + tail) == Got(cmd, tail);
    assert Backs(cmd, tail) == Backs(Back(cmd), rest) == Got(Back(cmd), rest);
  }

  // ----- Characters and tokens -----

  predicate TokenOk(t: Token) {
    match t
    case Word(w) => IsWord(w)
    case Sym(c) => Symbol(c)
    case Append => true
  }

  predicate TokensOk(ts: seq<Token>) {
    forall i :: 0 <= i < |ts| ==> TokenOk(ts[i])
  }

  function Text(t: Token): string {
    match t
    case Word(w) => w
    case Sym(c) => [c]
    case Append => ">>"
  }

  /** Tokens written with a space after each. */
  function Spell(ts: seq<Token>): string {
    if ts == [] then "" else Text(ts[0]) + " " + Spell(ts[1..])
  }

  lemma {:induction false} WordEnds(w: string, rest: string)
    requires (forall i :: 0 <= i < |w| ==> WordChar(w[i])) && (rest != "" ==> !WordChar(rest[0]))
    ensures WordLength(w + rest) == |w|
  {
    if w == "" {
      assert w + rest == rest;
    } else {
      assert (w + rest)[1..] == w[1..] + rest;
      WordEnds(w[1..], rest);
    }
  }

  lemma {:induction false} WordTaken(s: string)
    ensures forall i :: 0 <= i < WordLength(s) ==> WordChar(s[i])
    ensures WordLength(s) < |s| ==> !WordChar(s[WordLength(s)])
  {
    if s != "" && WordChar(s[0]) {
      WordTaken(s[1..]);
    }
  }

  lemma SpellFirst(t: Token, rest: string)
    requires TokenOk(t)
    ensures Tokens(Text(t) + " " + rest) == [t] + Tokens(rest)
  {
    var s := Text(t) + " " + rest;
    if t.Word? {
      WordEnds(t.text, " " + rest);
      assert s == t.text + (" " + rest);
    }
    assert Skip(s) == s;
    assert s[FirstLength(s)..] == " " + rest;
    assert Skip(" " + rest) == Skip((" " + rest)[1..]) && (" " + rest)[1..] == rest;
  }

  lemma {:induction false} TokensSpell(ts: seq<Token>)
    requires TokensOk(ts)
    ensures Tokens(Spell(ts)) == ts
  {
    if ts != [] {
      SpellFirst(ts[0], Spell(ts[1..]));
      TokensSpell(ts[1..]);
    }
  }

  lemma {:induction false} LexedOk(s: string)
    ensures TokensOk(Tokens(s))
    decreases |s|
  {
    var t := Skip(s);
    if t != "" {
      WordTaken(t);
      LexedOk(t[FirstLength(t)..]);
    }
  }

  lemma {:induction false} FormOk(c: Cmd<string>)
    requires WellFormed(c)
    ensures TokensOk(Form(c))
  {
    match c
    case Exec(argv) => WordsOk(argv);
    case Redir(cmd, _, _, _) => FormOk(cmd);
    case Pipe(left, right) => FormOk(left); FormOk(right);
    case List(left, right) => FormOk(left); FormOk(right);
    case Back(cmd) => FormOk(cmd);
  }

  lemma {:induction false} WordsOk(argv: seq<string>)
    requires forall i :: 0 <= i < |argv| ==> IsWord(argv[i])
    ensures TokensOk(Words(argv))
  {
    if argv != [] {
      WordsOk(argv[1..]);
    }
  }

  /** Every well-formed tree has a rendering, and the parser maps each of its renderings,
      however spaced, back to it. */
  lemma {:induction false} RoundTrip(c: Cmd<string>, s: string)
    requires WellFormed(c)
    ensures Meaning(Spell(Form(c))) == Got(c, [])
    ensures Tokens(s) == Form(c) ==> Meaning(s) == Got(c, [])
  {
    assert Form(c) + [] == Form(c);
    LineForm(c, []);
    FormOk(c);
    TokensSpell(Form(c));
  }

  // ----- What the parser can build -----

  /** An Exec with `argc` words under redirections. */
  predicate IsSimple(c: Cmd<string>, argc: nat) {
    match c
    case Exec(argv) => |argv| == argc
    case Redir(cmd, _, _, _) => IsSimple(cmd, argc)
    case _ => false
  }

  predicate Good(r: Parsed) {
    r.Got? ==> WellFormed(r.cmd) && TokensOk(r.rest)
  }

  lemma {:induction false} AddArgOk(c: Cmd<string>, argc: nat, w: string)
    requires WellFormed(c) && IsSimple(c, argc) && argc + 1 < MAXARGS && IsWord(w)
    ensures WellFormed(AddArg(c, w)) && IsSimple(AddArg(c, w), argc + 1)
  {
    if c.Redir? {
      AddArgOk(c.cmd, argc, w);
    }
  }

  lemma {:induction false} RedirsOk(cmd: Cmd<string>, ts: seq<Token>, argc: nat)
    requires WellFormed(cmd) && TokensOk(ts)
    ensures Good(Redirs(cmd, ts))
    ensures IsSimple(cmd, argc) && Redirs(cmd, ts).Got? ==> IsSimple(Redirs(cmd, ts).cmd, argc)
    decreases |ts|
  {
    if IsRedir(ts) && |ts| >= 2 && ts[1].Word? {
      assert TokenOk(ts[1]);
      RedirsOk(RedirOf(cmd, ts[0], ts[1].text), ts[2..], argc);
    }
  }

  lemma {:induction false} ArgsOk(ret: Cmd<string>, argc: nat, ts: seq<Token>)
    requires WellFormed(ret) && IsSimple(ret, argc) && TokensOk(ts)
    ensures Good(Args(ret, argc, ts))
    decreases |ts|
  {
    if !EndsArgs(ts) && ts[0].Word? && argc + 1 < MAXARGS {
      assert TokenOk(ts[0]);
      AddArgOk(ret, argc, ts[0].text);
      RedirsOk(AddArg(ret, ts[0].text), ts[1..], argc + 1);
      var r := Redirs(AddArg(ret, ts[0].text), ts[1..]);
      if r.Got? {
        ArgsOk(r.cmd, argc + 1, r.rest);
      }
    }
  }

  lemma {:induction false} BacksOk(cmd: Cmd<string>, ts: seq<Token>)
    requires WellFormed(cmd) && TokensOk(ts)
    ensures Good(Backs(cmd, ts))
    decreases |ts|
  {
    if StartsWith(ts, '&') {
      BacksOk(Back(cmd), ts[1..]);
    }
  }

  lemma {:induction false} LineOk(ts: seq<Token>)
    requires TokensOk(ts)
    ensures Good(Line(ts))
    decreases |ts|, 3
  {
    PipelineOk(ts);
    var p := Pipeline(ts);
    if p.Got? {
      BacksOk(p.cmd, p.rest);
      var b := Backs(p.cmd, p.rest);
      if StartsWith(b.rest, ';') {
        LineOk(b.rest[1..]);
      }
    }
  }

  lemma {:induction false} PipelineOk(ts: seq<Token>)
    requires TokensOk(ts)
    ensures Good(Pipeline(ts))
    decreases |ts|, 2
  {
    CommandOk(ts);
    var e := Command(ts);
    if e.Got? && StartsWith(e.rest, '|') {
      PipelineOk(e.rest[1..]);
    }
  }

  lemma {:induction false} CommandOk(ts: seq<Token>)
    requires TokensOk(ts)
    ensures Good(Command(ts))
    decreases |ts|, 1
  {
    if StartsWith(ts, '(') {
      LineOk(ts[1..]);
      var l := Line(ts[1..]);
      if l.Got? && StartsWith(l.rest, ')') {
        RedirsOk(l.cmd, l.rest[1..], 0);
      }
    } else {
      RedirsOk(Exec([]), ts, 0);
      var r := Redirs(Exec([]), ts);
      if r.Got? {
        ArgsOk(r.cmd, 0, r.rest);
      }
    }
  }

  /** What any accepted line means is well formed, so rendering it gives a line with the same
      meaning: the trees of the parser are exactly the well-formed ones. */
  lemma {:induction false} Normalised(s: string)
    requires Meaning(s).Got?
    ensures WellFormed(Meaning(s).cmd)
    ensures Meaning(Spell(Form(Meaning(s).cmd))) == Meaning(s)
  {
    LexedOk(s);
    LineOk(Tokens(s));
    RoundTrip(Meaning(s).cmd, s);
  }
}
