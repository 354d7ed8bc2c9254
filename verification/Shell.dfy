/** sh.c, lines 265 to 493: the recursive descent parser over a line in memory. */
module Shell {
  import opened ShellSpec

  const NUL := '\0'

  /** `q` and `eq`: where a word begins, and where it ends. */
  datatype Span = Span(q: nat, eq: nat)

  datatype Result = Ok(cmd: Cmd<Span>) | Err(error: Error)

  function At(text: string, w: Span): string {
    if w.q <= w.eq <= |text| then text[w.q..w.eq] else ""
  }

  function AllAt(text: string, argv: seq<Span>): seq<string> {
    seq(|argv|, i requires 0 <= i < |argv| => At(text, argv[i]))
  }

  /** The tree with its words read from the line. */
  function Read(text: string, c: Cmd<Span>): Cmd<string> {
    match c
    case Exec(argv) => Exec(AllAt(text, argv))
    case Redir(cmd, file, mode, fd) => Redir(Read(text, cmd), At(text, file), mode, fd)
    case Pipe(left, right) => Pipe(Read(text, left), Read(text, right))
    case List(left, right) => List(Read(text, left), Read(text, right))
    case Back(cmd) => Back(Read(text, cmd))
  }

  /** A whole word of the line: the character after it is not part of one. */
  predicate SpanOk(text: string, w: Span) {
    && w.q < w.eq <= |text|
    && (forall i :: w.q <= i < w.eq ==> WordChar(text[i]))
    && (w.eq < |text| ==> !WordChar(text[w.eq]))
  }

  predicate SpansOk(text: string, c: Cmd<Span>) {
    match c
    case Exec(argv) => forall i :: 0 <= i < |argv| ==> SpanOk(text, argv[i])
    case Redir(cmd, file, _, _) => SpansOk(text, cmd) && SpanOk(text, file)
    case Pipe(left, right) => SpansOk(text, left) && SpansOk(text, right)
    case List(left, right) => SpansOk(text, left) && SpansOk(text, right)
    case Back(cmd) => SpansOk(text, cmd)
  }

  /** A word of the tree ends at position `i`. */
  predicate EndsAt(c: Cmd<Span>, i: nat) {
    match c
    case Exec(argv) => exists k :: 0 <= k < |argv| && argv[k].eq == i
    case Redir(cmd, file, _, _) => EndsAt(cmd, i) || file.eq == i
    case Pipe(left, right) => EndsAt(left, i) || EndsAt(right, i)
    case List(left, right) => EndsAt(left, i) || EndsAt(right, i)
    case Back(cmd) => EndsAt(cmd, i)
  }

  /** The C string that starts at position `q`. */
  function CString(buf: string, q: nat): string
    decreases |buf| - q
  {
    if q >= |buf| || buf[q] == NUL then "" else [buf[q]] + CString(buf, q + 1)
  }

  function AllStrings(buf: string, argv: seq<Span>): seq<string> {
    seq(|argv|, i requires 0 <= i < |argv| => CString(buf, argv[i].q))
  }

  /** The tree as runcmd sees it: its words are C strings. */
  function Strings(buf: string, c: Cmd<Span>): Cmd<string> {
    match c
    case Exec(argv) => Exec(AllStrings(buf, argv))
    case Redir(cmd, file, mode, fd) => Redir(Strings(buf, cmd), CString(buf, file.q), mode, fd)
    case Pipe(left, right) => Pipe(Strings(buf, left), Strings(buf, right))
    case List(left, right) => List(Strings(buf, left), Strings(buf, right))
    case Back(cmd) => Back(Strings(buf, cmd))
  }

  predicate Line0(text: string) {
    forall i :: 0 <= i < |text| ==> text[i] != NUL
  }

  /** The line after nulterminate: NUL where a word of `c` ends. */
  predicate Terminated(text: string, buf: string, c: Cmd<Span>) {
    |buf| == |text| + 1 && forall i :: 0 <= i < |buf| ==>
      buf[i] == if i == |text| || EndsAt(c, i) then NUL else text[i]
  }

  lemma {:induction false} CStringIs(buf: string, text: string, q: nat, eq: nat)
    requires q <= eq <= |text| && eq < |buf| && buf[eq] == NUL
    requires forall i :: q <= i < eq ==> buf[i] == text[i] && buf[i] != NUL
    ensures CString(buf, q) == text[q..eq]
    decreases eq - q
  {
    if q < eq {
      CStringIs(buf, text, q + 1, eq);
    }
  }

  lemma {:induction false} NotInside(text: string, c: Cmd<Span>, i: nat)
    requires SpansOk(text, c) && i < |text| && WordChar(text[i])
    ensures !EndsAt(c, i)
  {
    match c
    case Exec(argv) =>
    case Redir(cmd, file, _, _) => NotInside(text, cmd, i);
    case Pipe(left, right) => NotInside(text, left, i); NotInside(text, right, i);
    case List(left, right) => NotInside(text, left, i); NotInside(text, right, i);
    case Back(cmd) => NotInside(text, cmd, i);
  }

  lemma {:induction false} WordIsString(text: string, buf: string, c: Cmd<Span>, w: Span)
    requires Line0(text) && SpansOk(text, c) && SpanOk(text, w) && Terminated(text, buf, c)
    requires w.eq == |text| || EndsAt(c, w.eq)
    ensures CString(buf, w.q) == At(text, w)
  {
    forall i | w.q <= i < w.eq
      ensures buf[i] == text[i] && buf[i] != NUL
    {
      NotInside(text, c, i);
    }
    CStringIs(buf, text, w.q, w.eq);
  }

  /** Terminating the words of one tree leaves each of them readable: no NUL lands inside. */
  lemma {:induction false} StringsAreWords(text: string, buf: string, c: Cmd<Span>, part: Cmd<Span>)
    requires Line0(text) && SpansOk(text, c) && Terminated(text, buf, c) && SpansOk(text, part)
    requires forall i: nat :: EndsAt(part, i) ==> EndsAt(c, i)
    ensures Strings(buf, part) == Read(text, part)
    decreases part
  {
    match part
    case Exec(argv) =>
      forall k | 0 <= k < |argv|
        ensures CString(buf, argv[k].q) == At(text, argv[k])
      {
        assert EndsAt(part, argv[k].eq);
        WordIsString(text, buf, c, argv[k]);
      }
      assert AllStrings(buf, argv) == AllAt(text, argv);
    case Redir(cmd, file, _, _) =>
      assert EndsAt(part, file.eq);
      WordIsString(text, buf, c, file);
      StringsAreWords(text, buf, c, cmd);
    case Pipe(left, right) =>
      StringsAreWords(text, buf, c, left);
      StringsAreWords(text, buf, c, right);
    case List(left, right) =>
      StringsAreWords(text, buf, c, left);
      StringsAreWords(text, buf, c, right);
    case Back(cmd) => StringsAreWords(text, buf, c, cmd);
  }

  lemma {:induction false} ReadAddArg(text: string, c: Cmd<Span>, w: Span)
    requires SpansOk(text, c) && SpanOk(text, w)
    ensures Read(text, AddArg(c, w)) == AddArg(Read(text, c), At(text, w)) && SpansOk(text, AddArg(c, w))
  {
    match c
    case Exec(argv) => assert AllAt(text, argv + [w]) == AllAt(text, argv) + [At(text, w)];
    case Redir(cmd, _, _, _) => ReadAddArg(text, cmd, w);
    case _ =>
  }

  /** What a parser method returned is what the grammar says. */
  ghost predicate Agrees(text: string, r: Result, p: Parsed, rest: seq<Token>) {
    match p
    case Got(c, ts) => r.Ok? && SpansOk(text, r.cmd) && Read(text, r.cmd) == c && rest == ts
    case Bad(e) => r == Err(e)
  }

  lemma SkipSpace(s: string)
    requires s != "" && Space(s[0])
    ensures Skip(s) == Skip(s[1..]) && Tokens(s) == Tokens(s[1..])
  {
  }

  /** gettoken's result for a token. */
  function Code(t: Token): (c: char)
    ensures TokenOk(t) ==> (c == 'a' <==> t.Word?) && (c == '<' <==> t == Sym('<')) && c != NUL
  {
    match t
    case Word(_) => 'a'
    case Sym(c) => c
    case Append => '+'
  }

  /** The token begins with one of the symbols `toks`. */
  predicate BeginsWith(t: Token, toks: string) {
    match t
    case Word(_) => false
    case Sym(c) => c in toks
    case Append => '>' in toks
  }

  class Parser {
    const buf: array<char>
    /** `*ps` */
    var s: nat
    ghost const text: string

    ghost predicate Valid()
      reads this, buf
    {
      buf[..] == text + [NUL] && Line0(text) && s <= |text|
    }

    /** The tokens still to come. */
    ghost function Rest(): seq<Token>
      reads this
      requires s <= |text|
    {
      Tokens(text[s..])
    }

    constructor (buf: array<char>, ghost text: string)
      requires buf[..] == text + [NUL] && Line0(text)
      ensures Valid() && this.buf == buf && this.text == text && s == 0
    {
      this.buf, this.s, this.text := buf, 0, text;
    }

    /** `while(s < es && strchr(whitespace, *s)) s++` */
    method SkipBlanks()
      requires Valid()
      modifies this`s
      ensures Valid() && Rest() == old(Rest()) && old(s) <= s
      ensures text[s..] == Skip(text[old(s)..])
    {
      while s < buf.Length - 1 && Space(buf[s])
        invariant Valid() && old(s) <= s && Rest() == old(Rest())
        invariant Skip(text[s..]) == Skip(text[old(s)..])
        decreases |text| - s
      {
        assert text[s..][1..] == text[s + 1..] && text[s..][0] == buf[s];
        SkipSpace(text[s..]);
        s := s + 1;
      }
      assert s < |text| ==> text[s] == buf[s];
    }

    /** peek: is the next character one of `toks`? */
    method Peek(toks: string) returns (b: bool)
      requires Valid() && forall i :: 0 <= i < |toks| ==> Symbol(toks[i])
      modifies this`s
      ensures Valid() && Rest() == old(Rest()) && old(s) <= s
      ensures b <==> Rest() != [] && BeginsWith(Rest()[0], toks)
      ensures s == |text| <==> Rest() == []
      ensures b ==> s < |text|
    {
      SkipBlanks();
      assert s < |text| ==> text[s..][0] == text[s] == buf[s];
      if s < |text| && WordLength(text[s..]) > 0 {
        assert WordChar(text[s]);
      }
      b := buf[s] != NUL && buf[s] in toks;
    }

    /** gettoken: takes the next token, which is buf[q..eq]. */
    method GetToken() returns (tok: char, q: nat, eq: nat)
      requires Valid()
      modifies this`s
      ensures Valid() && old(s) <= s
      ensures old(Rest()) == [] ==> tok == NUL && Rest() == []
      ensures old(Rest()) != [] ==>
        && TokenOk(old(Rest())[0]) && tok == Code(old(Rest())[0]) && Rest() == old(Rest())[1..] && old(s) < s
        && (old(Rest())[0].Word? ==> SpanOk(text, Span(q, eq)) && At(text, Span(q, eq)) == old(Rest())[0].text)
    {
      hide Tokens, SpanOk, At, First, FirstLength, Code;
      SkipBlanks();
      q := s;
      NextToken(text, old(s), q);
      LexedOk(text[old(s)..]);
      if buf[s] == NUL {
        return NUL, q, s;
      }
      tok := TakeToken();
      eq := s;
      if First(text[q..]).Word? {
        WordSpan(text, q, s);
      }
      assert text[q..][eq - q..] == text[eq..];
      SkipBlanks();
    }

    /** The switch of gettoken, at the first character of a token. */
    method TakeToken() returns (tok: char)
      requires Valid() && s < |text| && !Space(text[s])
      modifies this`s
      ensures Valid() && s == old(s) + FirstLength(text[old(s)..]) && tok == Code(First(text[old(s)..]))
      ensures First(text[old(s)..]).Word? ==>
        WordLength(text[old(s)..]) == s - old(s) > 0 && First(text[old(s)..]).text == text[old(s)..][..s - old(s)]
    {
      ghost var rest := text[s..];
      tok := buf[s];
      assert tok == rest[0];
      if tok == '>' {
        s := s + 1;
        assert s < |text| ==> rest[1] == text[s] == buf[s];
        if buf[s] == '>' {
          tok := '+';
          s := s + 1;
        }
      } else if tok in "|();&<" {
        s := s + 1;
      } else {
        tok := 'a';
        TakeWord();
      }
    }

    /** parseredirs */
    method ParseRedirs(cmd: Cmd<Span>) returns (r: Result)
      requires Valid() && SpansOk(text, cmd)
      modifies this`s
      ensures Valid() && old(s) <= s
      ensures Agrees(text, r, Redirs(Read(text, cmd), old(Rest())), Rest())
    {
      hide Tokens, SpanOk, At;
      var ret := cmd;
      var more := Peek("<>");
      while more
        invariant Valid() && old(s) <= s && SpansOk(text, ret)
        invariant Redirs(Read(text, ret), Rest()) == Redirs(Read(text, cmd), old(Rest()))
        invariant more <==> IsRedir(Rest())
        decreases |text| - s
      {
        var tok, _, _ := GetToken();
        var word, q, eq := GetToken();
        if word != 'a' {
          return Err(MissingFile);
        }
        if tok == '<' {
          ret := Redir(ret, Span(q, eq), O_RDONLY, 0);
        } else {
          ret := Redir(ret, Span(q, eq), O_WRONLY + O_CREATE, 1);
        }
        more := Peek("<>");
      }
      return Ok(ret);
    }

    /** parseline */
    method ParseLine() returns (r: Result)
      requires Valid()
      modifies this`s
      ensures Valid() && old(s) <= s
      ensures Agrees(text, r, Line(old(Rest())), Rest())
      decreases |text| - s, 3
    {
      hide Tokens, SpanOk, At, Pipeline;
      r := ParsePipe();
      if r.Err? {
        return;
      }
      var cmd := r.cmd;
      ghost var p := Pipeline(old(Rest()));
      var more := Peek("&");
      while more
        invariant Valid() && old(s) <= s && SpansOk(text, cmd)
        invariant Backs(Read(text, cmd), Rest()) == Backs(p.cmd, p.rest)
        invariant more <==> StartsWith(Rest(), '&')
        decreases |text| - s
      {
        var _, _, _ := GetToken();
        cmd := Back(cmd);
        more := Peek("&");
      }
      var list := Peek(";");
      if !list {
        return Ok(cmd);
      }
      var _, _, _ := GetToken();
      r := ParseLine();
      if r.Err? {
        return;
      }
      return Ok(List(cmd, r.cmd));
    }

    /** parsepipe */
    method ParsePipe() returns (r: Result)
      requires Valid()
      modifies this`s
      ensures Valid() && old(s) <= s
      ensures Agrees(text, r, Pipeline(old(Rest())), Rest())
      decreases |text| - s, 2
    {
      hide Tokens, SpanOk, At, Command;
      r := ParseExec();
      if r.Err? {
        return;
      }
      var cmd := r.cmd;
      var more := Peek("|");
      if !more {
        return;
      }
      var _, _, _ := GetToken();
      r := ParsePipe();
      if r.Err? {
        return;
      }
      return Ok(Pipe(cmd, r.cmd));
    }

    /** parseblock; the panic "parseblock" cannot happen. */
    method ParseBlock() returns (r: Result)
      requires Valid() && StartsWith(Rest(), '(')
      modifies this`s
      ensures Valid() && old(s) <= s
      ensures Agrees(text, r, Block(old(Rest())), Rest())
      decreases |text| - s, 0
    {
      hide Tokens, SpanOk, At, Line, Redirs;
      var _, _, _ := GetToken();
      r := ParseLine();
      if r.Err? {
        return;
      }
      var closed := Peek(")");
      if !closed {
        return Err(MissingParen);
      }
      var _, _, _ := GetToken();
      r := ParseRedirs(r.cmd);
    }

    /** parseexec */
    method ParseExec() returns (r: Result)
      requires Valid()
      modifies this`s
      ensures Valid() && old(s) <= s
      ensures Agrees(text, r, Command(old(Rest())), Rest())
      decreases |text| - s, 1
    {
      hide Tokens, SpanOk, At, Redirs, Block;
      var open := Peek("(");
      if open {
        r := ParseBlock();
        return;
      }
      ghost var ts := Rest();
      assert AllAt(text, []) == [];
      var argc := 0;
      r := ParseRedirs(Exec([]));
      if r.Err? {
        return;
      }
      var end := Peek("|)&;");
      while !end
        invariant Valid() && old(s) <= s && r.Ok? && SpansOk(text, r.cmd) && 0 <= argc < MAXARGS
        invariant Args(Read(text, r.cmd), argc, Rest()) == Simple(ts)
        invariant end ==> EndsArgs(Rest())
        invariant !end && Rest() != [] ==> !EndsArgs(Rest())
        decreases |text| - s
      {
        var tok, q, eq := GetToken();
        if tok == NUL {
          break;
        }
        if tok != 'a' {
          return Err(SyntaxError);
        }
        ReadAddArg(text, r.cmd, Span(q, eq));
        var cmd := AddArg(r.cmd, Span(q, eq));
        argc := argc + 1;
        if argc >= MAXARGS {
          return Err(TooManyArgs);
        }
        r := ParseRedirs(cmd);
        if r.Err? {
          return;
        }
        end := Peek("|)&;");
      }
    }

    /** parsecmd: the meaning of the line, with its words now NUL-terminated in place. */
    method ParseCmd() returns (r: Result)
      requires Valid() && s == 0
      modifies this`s, buf
      ensures match Meaning(text)
        case Got(c, _) => r.Ok? && Strings(buf[..], r.cmd) == c
        case Bad(e) => r == Err(e)
    {
      hide Tokens, Line, SpanOk, At;
      assert text[0..] == text;
      r := ParseLine();
      if r.Err? {
        return;
      }
      var _ := Peek("");
      if s != buf.Length - 1 {
        return Err(Leftovers);
      }
      Nulterminate(r.cmd);
      StringsAreWords(text, buf[..], r.cmd, r.cmd);
    }

    /** nulterminate */
    method Nulterminate(c: Cmd<Span>)
      requires buf.Length == |text| + 1 && SpansOk(text, c)
      modifies buf
      ensures forall i :: 0 <= i < buf.Length ==> buf[i] == if EndsAt(c, i) then NUL else old(buf[i])
      decreases c
    {
      match c
      case Exec(argv) =>
        var k := 0;
        while k < |argv|
          invariant 0 <= k <= |argv|
          invariant forall i :: 0 <= i < buf.Length ==>
            buf[i] == if exists j :: 0 <= j < k && argv[j].eq == i then NUL else old(buf[i])
        {
          assert SpanOk(text, argv[k]);
          buf[argv[k].eq] := NUL;
          k := k + 1;
        }
      case Redir(cmd, file, _, _) =>
        Nulterminate(cmd);
        buf[file.eq] := NUL;
      case Pipe(left, right) =>
        Nulterminate(left);
        Nulterminate(right);
      case List(left, right) =>
        Nulterminate(left);
        Nulterminate(right);
      case Back(cmd) => Nulterminate(cmd);
    }

    /** The loop of gettoken over the characters of a word. */
    method TakeWord()
      requires Valid()
      modifies this`s
      ensures Valid() && s == old(s) + WordLength(text[old(s)..])
    {
      while s < buf.Length - 1 && !Space(buf[s]) && !Symbol(buf[s])
        invariant Valid() && old(s) <= s && WordLength(text[old(s)..]) == s - old(s) + WordLength(text[s..])
        decreases |text| - s
      {
        assert text[s..][0] == text[s] == buf[s] && text[s..][1..] == text[s + 1..];
        s := s + 1;
      }
      assert s < |text| ==> text[s..][0] == text[s] == buf[s];
    }
  }

  lemma NextToken(text: string, s: nat, q: nat)
    requires s <= q <= |text| && text[q..] == Skip(text[s..])
    ensures text[q..] == "" ==> Tokens(text[s..]) == []
    ensures text[q..] != "" ==>
      !Space(text[q..][0]) && Tokens(text[s..]) == [First(text[q..])] + Tokens(text[q..][FirstLength(text[q..])..])
    ensures text[q..] != "" && !Symbol(text[q..][0]) ==> WordLength(text[q..]) > 0
  {
  }

  lemma WordSpan(text: string, q: nat, s: nat)
    requires q <= s <= |text| && WordLength(text[q..]) == s - q > 0
    ensures SpanOk(text, Span(q, s)) && At(text, Span(q, s)) == text[q..][..s - q]
  {
    WordTaken(text[q..]);
    forall i | q <= i < s
      ensures WordChar(text[i])
    {
      assert text[i] == text[q..][i - q];
    }
  }
}
