/** Where the text of a command stands in the line, and what the parser does there (sh.c): tokens, redirections,
    arguments, and the small steps from which the round trip of printing and parsing is put together for whole
    commands. */
module ShellText {
  import opened Basics
  import opened ShellSpec

  /** The text t stands at position p. */
  predicate Stands(s: string, p: nat, t: string)
  {
    p + |t| <= |s| && forall k :: 0 <= k < |t| ==> s[p+k] == t[k]
  }

  lemma {:induction false} StandsBoth(s: string, p: nat, a: string, b: string)
    requires Stands(s, p, a + b)
    ensures Stands(s, p, a) && Stands(s, p + |a|, b)
  {
    forall k | 0 <= k < |a| ensures s[p+k] == a[k] { assert (a + b)[k] == a[k]; }
    forall k | 0 <= k < |b| ensures s[p+|a|+k] == b[k] { assert (a + b)[|a|+k] == b[k]; }
  }

  lemma {:induction false} StandsChar(s: string, p: nat, c: char)
    requires Stands(s, p, [c])
    ensures p < |s| && s[p] == c
  {
    assert s[p+0] == [c][0];
  }

  lemma {:induction false} SkipNone(s: string, p: nat)
    requires p <= |s| && !Blank(Char(s, p))
    ensures Skip(s, p) == p
  {}

  /** The parser functions skip blanks first. */
  lemma {:induction false} SkipTwice(s: string, p: nat)
    requires p <= |s|
    ensures Skip(s, Skip(s, p)) == Skip(s, p)
  {}

  lemma {:induction false} RedirsSkip(s: string, p: nat, c: Cmd<Span>)
    requires '\0' !in s && p <= |s|
    ensures ParseRedirs(s, Skip(s, p), c) == ParseRedirs(s, p, c)
  {}

  lemma {:induction false} RestSkip(s: string, p: nat, c: Cmd<Span>, argc: nat)
    requires '\0' !in s && p <= |s|
    ensures ParseRest(s, Skip(s, p), c, argc) == ParseRest(s, p, c, argc)
  {
    RedirsSkip(s, p, c);
  }

  lemma {:induction false} WordEndIs(s: string, p: nat, w: string)
    requires Stands(s, p, w) && Word(w) && !Plain(Char(s, p + |w|)) && '\0' !in s
    ensures WordEnd(s, p) == p + |w|
  {
    forall k | p <= k < p + |w| ensures Plain(s[k]) { assert s[p+(k-p)] == w[k-p]; }
    assert p + |w| < |s| ==> s[p+|w|] in s;
  }

  /** gettoken at a word. */
  lemma {:induction false} WordToken(s: string, p: nat, w: string)
    requires '\0' !in s && Stands(s, p, w) && Word(w) && !Plain(Char(s, p + |w|))
    ensures GetToken(s, p) == Token('a', Span(p, p + |w|), Skip(s, p + |w|))
    ensures Text(s, Span(p, p + |w|)) == w && !Blank(s[p]) && !Symbol(s[p])
  {
    assert s[p] == w[0] && Plain(w[0]);
    SkipNone(s, p);
    WordEndIs(s, p, w);
    assert s[p..p+|w|] == w;
  }

  /** gettoken at a symbol that is not >>. */
  lemma {:induction false} SymbolToken(s: string, p: nat)
    requires '\0' !in s && p < |s| && Symbol(s[p]) && !(s[p] == '>' && Char(s, p + 1) == '>')
    ensures GetToken(s, p) == Token(s[p], Span(p, p + 1), Skip(s, p + 1)) && Skip(s, p) == p
  {
    SkipNone(s, p);
  }

  // ----- redirections -----

  lemma {:induction false} RedirTokens(s: string, p: nat, f: string, o: bool)
    requires '\0' !in s && Word(f) && Stands(s, p, (if o then ">" else "<") + f) && !Plain(Char(s, p + 1 + |f|))
    ensures p < |s| && s[p] == (if o then '>' else '<') && Skip(s, p) == p && p + 1 + |f| <= |s|
    ensures GetToken(s, p) == Token(s[p], Span(p, p + 1), p + 1)
    ensures GetToken(s, p + 1) == Token('a', Span(p + 1, p + 1 + |f|), Skip(s, p + 1 + |f|))
    ensures Text(s, Span(p + 1, p + 1 + |f|)) == f
  {
    var op := if o then ">" else "<";
    StandsBoth(s, p, op, f);
    StandsChar(s, p, op[0]);
    WordToken(s, p + 1, f);
    SymbolToken(s, p);
    SkipNone(s, p + 1);
  }

  lemma {:induction false} RedirStep(s: string, p: nat, f: string, o: bool, cmd: Cmd<Span>)
    requires '\0' !in s && Word(f) && Stands(s, p, (if o then ">" else "<") + f) && !Plain(Char(s, p + 1 + |f|))
    ensures p + 1 + |f| <= |s|
    ensures ParseRedirs(s, p, cmd) == ParseRedirs(s, p + 1 + |f|, Redir(cmd, Span(p + 1, p + 1 + |f|), o))
    ensures Text(s, Span(p + 1, p + 1 + |f|)) == f && Arrow(s[p])
  {
    hide GetToken;
    hide Skip;
    hide Stands;
    hide Word;
    hide Plain;
    RedirTokens(s, p, f, o);
    RedirsSkip(s, p + 1 + |f|, Redir(cmd, Span(p + 1, p + 1 + |f|), o));
  }

  // ----- arguments -----

  /** The exec node with the first n arguments, which stand from p on. */
  function ArgsAt(argv: seq<string>, n: nat, p: nat): (r: seq<Span>)
    requires n <= |argv|
    ensures |r| == n
  {
    if n == 0 then []
    else
      var e := p + |PrintArgs(argv, n)|;
      ArgsAt(argv, n - 1, p) + [Span(e - |argv[n-1]|, e)]
  }

  /** One argument: a blank and a word. */
  lemma {:induction false} ArgStep(s: string, p: nat, w: string, cmd: Cmd<Span>, argc: nat)
    requires '\0' !in s && Word(w) && Stands(s, p, " " + w) && !Plain(Char(s, p + 1 + |w|)) && argc + 1 < MAXARGS
    ensures ParseRest(s, p, cmd, argc) == ParseRest(s, p + 1 + |w|, AddArg(cmd, Span(p + 1, p + 1 + |w|)), argc + 1)
    ensures Text(s, Span(p + 1, p + 1 + |w|)) == w && !Plain(s[p])
  {
    StandsBoth(s, p, " ", w);
    StandsChar(s, p, ' ');
    WordToken(s, p + 1, w);
    SkipNone(s, p + 1);
    assert Skip(s, p) == p + 1;
    assert ParseRedirs(s, p, cmd) == Ok(cmd, p + 1);
    assert ParseRest(s, p, cmd, argc) == ParseArgs(s, p + 1, cmd, argc);
    RestSkip(s, p + 1 + |w|, AddArg(cmd, Span(p + 1, p + 1 + |w|)), argc + 1);
  }

  lemma {:induction false} PrintArgsIs(argv: seq<string>, n: nat)
    requires n <= |argv|
    ensures if n == 0 then PrintArgs(argv, n) == ""
            else PrintArgs(argv, n) == PrintArgs(argv, n - 1) + (" " + argv[n-1])
  {}

  lemma {:induction false} ArgsStep(s: string, p: nat, argv: seq<string>, n: nat)
    requires '\0' !in s && n <= |argv| < MAXARGS && WellFormed(Exec(argv)) && Stands(s, p, PrintArgs(argv, n))
    requires !Plain(Char(s, p + |PrintArgs(argv, n)|))
    ensures ParseRest(s, p, Exec([]), 0) == ParseRest(s, p + |PrintArgs(argv, n)|, Exec(ArgsAt(argv, n, p)), n)
    ensures forall k :: 0 <= k < n ==> Text(s, ArgsAt(argv, n, p)[k]) == argv[k]
    decreases n
  {
    hide ParseRest;
    hide Word;
    hide Stands;
    hide Text;
    hide Plain;
    hide PrintArgs;
    PrintArgsIs(argv, n);
    if n > 0 {
      var before, w := PrintArgs(argv, n - 1), argv[n-1];
      var e := p + |before|;
      StandsBoth(s, p, before, " " + w);
      var cmd := Exec(ArgsAt(argv, n - 1, p));
      ArgStep(s, e, w, cmd, n - 1);
      ArgsStep(s, p, argv, n - 1);
    }
  }

  lemma {:induction false} FirstArg(s: string, p: nat, argv: seq<string>, n: nat)
    requires 1 <= n <= |argv| && Stands(s, p, PrintArgs(argv, n)) && (forall k :: 0 <= k < |argv| ==> Word(argv[k]))
    ensures p + 1 < |s| && s[p] == ' ' && Plain(s[p+1])
    decreases n
  {
    var before, w := PrintArgs(argv, n - 1), argv[n-1];
    assert PrintArgs(argv, n) == before + (" " + w);
    StandsBoth(s, p, before, " " + w);
    if n == 1 {
      StandsBoth(s, p, " ", w);
      StandsChar(s, p, ' ');
      assert Word(w) && s[p+1+0] == w[0];
    } else {
      FirstArg(s, p, argv, n - 1);
    }
  }

  // ----- what may follow -----

  /** After an exec a redirection, |, &, ;, ) or the end; after the others fewer. */
  predicate AfterArgs(c: char) { Arrow(c) || EndsArgs(c) || c == '\0' }

  predicate AfterExec(c: char) { EndsArgs(c) || c == '\0' }

  predicate AfterPipe(c: char) { c == '&' || c == ';' || c == ')' || c == '\0' }

  predicate AfterLine(c: char) { c == ')' || c == '\0' }

  /** Redirections around an exec. */
  predicate Simple(c: Cmd<string>) { c.Exec? || (c.Redir? && Simple(c.cmd)) }

  predicate Compound(c: Cmd<string>) { c.Pipe? || c.List? || c.Back? }

  lemma {:induction false} PipeSkip(s: string, p: nat)
    requires '\0' !in s && p <= |s|
    ensures ParsePipe(s, Skip(s, p)) == ParsePipe(s, p) && ParseLine(s, Skip(s, p)) == ParseLine(s, p)
  {
    SkipTwice(s, p);
    assert ParseExec(s, Skip(s, p)) == ParseExec(s, p);
  }

  lemma {:induction false} WordsExec(s: string, argv: seq<string>, spans: seq<Span>)
    requires |spans| == |argv| && forall k :: 0 <= k < |argv| ==> Text(s, spans[k]) == argv[k]
    ensures Words(s, Exec(spans)) == Exec(argv)
  {
    assert Words(s, Exec(spans)).argv == argv;
  }

  lemma {:induction false} ExecStarts(s: string, p: nat)
    requires '\0' !in s && p <= |s| && Char(s, Skip(s, p)) != '('
    ensures ParseExec(s, p) == ParseRest(s, p, Exec([]), 0)
  {
    hide ParseRest;
    RestSkip(s, p, Exec([]), 0);
  }

  lemma {:induction false} ExecBase(s: string, p: nat, argv: seq<string>)
    requires '\0' !in s && WellFormed(Exec(argv)) && Stands(s, p, PrintArgs(argv, |argv|))
    requires AfterArgs(Char(s, p + |PrintArgs(argv, |argv|)|))
    ensures ParseExec(s, p) == ParseRest(s, p + |PrintArgs(argv, |argv|)|, Exec(ArgsAt(argv, |argv|, p)), |argv|)
    ensures Words(s, Exec(ArgsAt(argv, |argv|, p))) == Exec(argv)
  {
    hide ParseRest;
    hide ParseExec;
    ArgsStep(s, p, argv, |argv|);
    WordsExec(s, argv, ArgsAt(argv, |argv|, p));
    if |argv| > 0 {
      FirstArg(s, p, argv, |argv|);
      SkipNone(s, p + 1);
      assert Skip(s, p) == p + 1;
    } else {
      SkipNone(s, p);
    }
    ExecStarts(s, p);
  }

  /** A redirection after something. */
  lemma {:induction false} StandsRedir(s: string, p: nat, t: string, f: string, o: bool)
    requires Stands(s, p, t + (if o then ">" else "<") + f)
    ensures Stands(s, p, t) && Stands(s, p + |t|, (if o then ">" else "<") + f) && Arrow(Char(s, p + |t|))
  {
    var op := if o then ">" else "<";
    assert t + op + f == t + (op + f);
    StandsBoth(s, p, t, op + f);
    StandsBoth(s, p + |t|, op, f);
    StandsChar(s, p + |t|, op[0]);
  }

  lemma {:induction false} StandsBlock(s: string, p: nat, t: string)
    requires Stands(s, p, "(" + t + ")")
    ensures p + 1 + |t| < |s| && s[p] == '(' && Stands(s, p + 1, t) && s[p+1+|t|] == ')'
  {
    assert "(" + t + ")" == "(" + (t + ")");
    StandsBoth(s, p, "(", t + ")");
    StandsChar(s, p, '(');
    StandsBoth(s, p + 1, t, ")");
    StandsChar(s, p + 1 + |t|, ')');
  }

  /** An exec with redirections: the parser is left in its loop. */
  lemma {:induction false} SimpleParses(s: string, p: nat, c: Cmd<string>) returns (cmd: Cmd<Span>, argc: nat)
    requires '\0' !in s && WellFormed(c) && Simple(c) && Stands(s, p, PrintExec(c))
    requires AfterArgs(Char(s, p + |PrintExec(c)|))
    ensures ParseExec(s, p) == ParseRest(s, p + |PrintExec(c)|, cmd, argc) && Words(s, cmd) == c
    decreases c
  {
    hide ParseRest;
    hide ParseExec;
    hide Word;
    hide PrintArgs;
    hide Stands;
    hide Plain;
    hide Text;
    AfterNotPlain(Char(s, p + |PrintExec(c)|));
    match c
    case Exec(argv) =>
      argc := |argv|;
      cmd := Exec(ArgsAt(argv, argc, p));
      ExecBase(s, p, argv);
    case Redir(d, f, o) =>
      StandsRedir(s, p, PrintExec(d), f, o);
      var e := p + |PrintExec(d)|;
      cmd, argc := SimpleParses(s, p, d);
      RestRedir(s, e, f, o, cmd, argc);
      RedirStep(s, e, f, o, cmd);
      cmd := Redir(cmd, Span(e + 1, e + 1 + |f|), o);
  }

  lemma {:induction false} RestRedir(s: string, p: nat, f: string, o: bool, cmd: Cmd<Span>, argc: nat)
    requires '\0' !in s && Word(f) && Stands(s, p, (if o then ">" else "<") + f) && !Plain(Char(s, p + 1 + |f|))
    ensures ParseRest(s, p, cmd, argc) == ParseRest(s, p + 1 + |f|, Redir(cmd, Span(p + 1, p + 1 + |f|), o), argc)
  {
    RedirStep(s, p, f, o, cmd);
  }

  lemma {:induction false} RestEnds(s: string, p: nat, cmd: Cmd<Span>, argc: nat)
    requires '\0' !in s && p <= |s| && AfterExec(Char(s, p))
    ensures ParseRest(s, p, cmd, argc) == Ok(cmd, p) && ParseRedirs(s, p, cmd) == Ok(cmd, p)
  {
    SkipNone(s, p);
    assert Char(s, p) == '\0' ==> p == |s| by { if p < |s| { assert s[p] in s; } }
  }

  /** Parentheses. */
  lemma {:induction false} BlockIs(s: string, p: nat, cmd: Cmd<Span>, e: nat)
    requires '\0' !in s && p < e < |s| && s[p] == '(' && ParseLine(s, p + 1) == Ok(cmd, e) && s[e] == ')'
    ensures ParseExec(s, p) == ParseRedirs(s, e + 1, cmd)
  {
    hide GetToken;
    hide Skip;
    hide ParseLine;
    hide ParseRedirs;
    hide ParseRest;
    SymbolToken(s, p);
    SymbolToken(s, e);
    PipeSkip(s, p + 1);
    RedirsSkip(s, e + 1, cmd);
  }

  lemma {:induction false} PrintCompound(c: Cmd<string>)
    requires !c.Exec?
    ensures Compound(c) ==> PrintExec(c) == "(" + PrintLine(c) + ")"
    ensures c.Redir? ==> PrintExec(c) == PrintExec(c.cmd) + (if c.output then ">" else "<") + c.file
  {
    match c
    case Redir(d, f, o) =>
    case Pipe(l, r) => assert PrintLine(c) == PrintBack(c) && PrintBack(c) == PrintPipe(c);
    assert PrintPipe(c) == PrintExec(l) + "|" + PrintPipe(r);
    case List(l, r) => assert PrintLine(c) == PrintBack(l) + ";" + PrintLine(r);
    case Back(d) => assert PrintLine(c) == PrintBack(d) + "&";
  }

  lemma {:induction false} AfterNotPlain(c: char)
    requires AfterArgs(c)
    ensures !Plain(c)
  {}

  lemma {:induction false} PipeIs(s: string, p: nat, l: Cmd<Span>, e: nat, r: Cmd<Span>, e': nat)
    requires '\0' !in s && p <= e < |s| && s[e] == '|' && ParseExec(s, p) == Ok(l, e)
    requires ParsePipe(s, e + 1) == Ok(r, e')
    ensures ParsePipe(s, p) == Ok(Pipe(l, r), e')
  {
    SymbolToken(s, e);
    PipeSkip(s, e + 1);
  }

  lemma {:induction false} PipeEnds(s: string, p: nat, cmd: Cmd<Span>, e: nat)
    requires '\0' !in s && p <= e <= |s| && ParseExec(s, p) == Ok(cmd, e) && AfterPipe(Char(s, e))
    ensures ParsePipe(s, p) == Ok(cmd, e)
  {
    hide ParseExec;
    SkipNone(s, e);
  }

  lemma {:induction false} TailEnds(s: string, p: nat, cmd: Cmd<Span>)
    requires '\0' !in s && p <= |s| && AfterLine(Char(s, p))
    ensures ParseTail(s, p, cmd) == Ok(cmd, p)
  {
    SkipNone(s, p);
  }

  lemma {:induction false} TailBack(s: string, p: nat, cmd: Cmd<Span>)
    requires '\0' !in s && p < |s| && s[p] == '&'
    ensures ParseTail(s, p, cmd) == ParseTail(s, p + 1, Back(cmd))
  {
    SymbolToken(s, p);
    SkipTwice(s, p + 1);
  }

  lemma {:induction false} TailList(s: string, p: nat, cmd: Cmd<Span>)
    requires '\0' !in s && p < |s| && s[p] == ';'
    ensures ParseTail(s, p, cmd) == var r := ParseLine(s, p + 1); if r.Panic? then Panic else Ok(List(cmd, r.cmd), r.p)
  {
    SymbolToken(s, p);
    PipeSkip(s, p + 1);
  }

  lemma {:induction false} NoNulArgs(argv: seq<string>, n: nat)
    requires n <= |argv| && forall k :: 0 <= k < |argv| ==> Word(argv[k])
    ensures '\0' !in PrintArgs(argv, n)
  {
    if n > 0 {
      NoNulArgs(argv, n - 1);
      assert Word(argv[n-1]);
    }
  }
}
