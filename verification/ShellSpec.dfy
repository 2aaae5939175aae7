/** The shell's grammar (sh.c): tokens, the parser as functions of a position, and a printer. */
module ShellSpec {
  import opened Basics
  import opened Options

  const MAXARGS: nat := 10

  // ----- tokens -----

  predicate Blank(c: char) { c == ' ' || c == '\t' || c == '\r' || c == '\n' || c == '\U{000B}' }

  predicate Symbol(c: char) { c == '<' || c == '|' || c == '>' || c == '&' || c == ';' || c == '(' || c == ')' }

  predicate Arrow(c: char) { c == '<' || c == '>' }

  /** What ends the arguments of a command. */
  predicate EndsArgs(c: char) { c == '|' || c == ')' || c == '&' || c == ';' }

  /** A character of a word. */
  predicate Plain(c: char) { !Blank(c) && !Symbol(c) && c != '\0' }

  function Skip(s: string, p: nat): (r: nat)
    requires p <= |s|
    ensures p <= r <= |s| && !Blank(Char(s, r)) && forall k :: p <= k < r ==> Blank(s[k])
    decreases |s| - p
  {
    if p < |s| && Blank(s[p]) then Skip(s, p + 1) else p
  }

  function WordEnd(s: string, p: nat): (r: nat)
    requires p <= |s|
    ensures p <= r <= |s| && (r < |s| ==> Blank(s[r]) || Symbol(s[r]))
    ensures forall k :: p <= k < r ==> !Blank(s[k]) && !Symbol(s[k])
    decreases |s| - p
  {
    if p < |s| && !Blank(s[p]) && !Symbol(s[p]) then WordEnd(s, p + 1) else p
  }

  /** A stretch of the buffer: the pointers q and eq. */
  datatype Span = Span(q: nat, eq: nat)

  /** gettoken's result: NUL at the end, 'a' for a word, '+' for >>, else the symbol; and where to go on. */
  datatype Token = Token(kind: char, span: Span, next: nat)

  function GetToken(s: string, p: nat): (t: Token)
    requires p <= |s|
    ensures p <= t.span.q <= t.span.eq <= t.next <= |s|
    ensures t.kind != '\0' && '\0' !in s ==> t.span.q < t.span.eq
    ensures t.kind == '\0' && '\0' !in s ==> t.next == |s|
  {
    var q := Skip(s, p);
    var c := Char(s, q);
    if c == '\0' then Token('\0', Span(q, q), Skip(s, q))
    else if c == '>' && Char(s, q + 1) == '>' then Token('+', Span(q, q + 2), Skip(s, q + 2))
    else if Symbol(c) then Token(c, Span(q, q + 1), Skip(s, q + 1))
    else Token('a', Span(q, WordEnd(s, q)), Skip(s, WordEnd(s, q)))
  }

  // ----- commands -----

  /** A command tree whose words are of type W: spans of the buffer, or strings. */
  datatype Cmd<W> =
    | Exec(argv: seq<W>)
    | Redir(cmd: Cmd<W>, file: W, output: bool)
    | Pipe(left: Cmd<W>, right: Cmd<W>)
    | List(left: Cmd<W>, right: Cmd<W>)
    | Back(cmd: Cmd<W>)

  /** A command and the position after it, or a panic. */
  datatype Res = Ok(cmd: Cmd<Span>, p: nat) | Panic

  /** A further argument for the exec node, which redirections may already have wrapped. */
  function AddArg(c: Cmd<Span>, w: Span): Cmd<Span>
  {
    match c
    case Exec(argv) => Exec(argv + [w])
    case Redir(d, f, o) => Redir(AddArg(d, w), f, o)
    case _ => c
  }

  function ParseRedirs(s: string, p: nat, cmd: Cmd<Span>): (r: Res)
    requires '\0' !in s && p <= |s|
    ensures r.Ok? ==> p <= r.p <= |s|
    decreases |s| - p
  {
    var p1 := Skip(s, p);
    if !Arrow(Char(s, p1)) then Ok(cmd, p1)
    else
      var t := GetToken(s, p1);
      var f := GetToken(s, t.next);
      if f.kind != 'a' then Panic else ParseRedirs(s, f.next, Redir(cmd, f.span, t.kind != '<'))
  }

  /** parseexec's loop over arguments. */
  function ParseArgs(s: string, p: nat, cmd: Cmd<Span>, argc: nat): (r: Res)
    requires '\0' !in s && p <= |s|
    ensures r.Ok? ==> p <= r.p <= |s|
    decreases |s| - p, 0
  {
    var p1 := Skip(s, p);
    if EndsArgs(Char(s, p1)) then Ok(cmd, p1)
    else
      var t := GetToken(s, p1);
      if t.kind == '\0' then Ok(cmd, t.next)
      else if t.kind != 'a' || argc + 1 >= MAXARGS then Panic
      else ParseRest(s, t.next, AddArg(cmd, t.span), argc + 1)
  }

  /** Redirections, then arguments. */
  function ParseRest(s: string, p: nat, cmd: Cmd<Span>, argc: nat): (r: Res)
    requires '\0' !in s && p <= |s|
    ensures r.Ok? ==> p <= r.p <= |s|
    decreases |s| - p, 1
  {
    var r := ParseRedirs(s, p, cmd);
    if r.Panic? then Panic else ParseArgs(s, r.p, r.cmd, argc)
  }

  function ParseExec(s: string, p: nat): (r: Res)
    requires '\0' !in s && p <= |s|
    ensures r.Ok? ==> p <= r.p <= |s|
    decreases |s| - p, 1
  {
    var p1 := Skip(s, p);
    if Char(s, p1) == '(' then ParseBlock(s, p1) else ParseRest(s, p1, Exec([]), 0)
  }

  function ParseBlock(s: string, p: nat): (r: Res)
    requires '\0' !in s && p <= |s|
    ensures r.Ok? ==> p <= r.p <= |s|
    decreases |s| - p, 0
  {
    var p1 := Skip(s, p);
    if Char(s, p1) != '(' then Panic
    else
      var r := ParseLine(s, GetToken(s, p1).next);
      if r.Panic? || Char(s, Skip(s, r.p)) != ')' then Panic
      else ParseRedirs(s, GetToken(s, Skip(s, r.p)).next, r.cmd)
  }

  function ParsePipe(s: string, p: nat): (r: Res)
    requires '\0' !in s && p <= |s|
    ensures r.Ok? ==> p <= r.p <= |s|
    decreases |s| - p, 2
  {
    var l := ParseExec(s, p);
    if l.Panic? then Panic
    else
      var p1 := Skip(s, l.p);
      if Char(s, p1) != '|' then Ok(l.cmd, p1)
      else
        var r := ParsePipe(s, GetToken(s, p1).next);
        if r.Panic? then Panic else Ok(Pipe(l.cmd, r.cmd), r.p)
  }

  /** parseline after its first pipe: any number of &, then perhaps ; and another line. */
  function ParseTail(s: string, p: nat, cmd: Cmd<Span>): (r: Res)
    requires '\0' !in s && p <= |s|
    ensures r.Ok? ==> p <= r.p <= |s|
    decreases |s| - p, 0
  {
    var p1 := Skip(s, p);
    if Char(s, p1) == '&' then ParseTail(s, GetToken(s, p1).next, Back(cmd))
    else if Char(s, p1) == ';' then
      var r := ParseLine(s, GetToken(s, p1).next);
      if r.Panic? then Panic else Ok(List(cmd, r.cmd), r.p)
    else Ok(cmd, p1)
  }

  function ParseLine(s: string, p: nat): (r: Res)
    requires '\0' !in s && p <= |s|
    ensures r.Ok? ==> p <= r.p <= |s|
    decreases |s| - p, 3
  {
    var r := ParsePipe(s, p);
    if r.Panic? then Panic else ParseTail(s, r.p, r.cmd)
  }

  /** parsecmd, before nulterminate: the whole line, or a panic. */
  function ParseCmd(s: string): (r: Option<Cmd<Span>>)
    requires '\0' !in s
  {
    var r := ParseLine(s, 0);
    if r.Panic? || Skip(s, r.p) != |s| then None else Some(r.cmd)
  }

  // ----- printing -----

  predicate Word(w: string) { |w| >= 1 && forall k :: 0 <= k < |w| ==> Plain(w[k]) }

  /** What can be typed: words for arguments and files, fewer than MAXARGS arguments. */
  predicate WellFormed(c: Cmd<string>)
  {
    match c
    case Exec(argv) => |argv| < MAXARGS && forall k :: 0 <= k < |argv| ==> Word(argv[k])
    case Redir(d, f, _) => WellFormed(d) && Word(f)
    case Pipe(l, r) => WellFormed(l) && WellFormed(r)
    case List(l, r) => WellFormed(l) && WellFormed(r)
    case Back(d) => WellFormed(d)
  }

  function PrintArgs(argv: seq<string>, n: nat): string
    requires n <= |argv|
  {
    if n == 0 then "" else PrintArgs(argv, n - 1) + " " + argv[n-1]
  }

  /** Parentheses around what is not an exec or a redirection. */
  function PrintExec(c: Cmd<string>): string
    decreases c, 0
  {
    match c
    case Exec(argv) => PrintArgs(argv, |argv|)
    case Redir(d, f, o) => PrintExec(d) + (if o then ">" else "<") + f
    case Pipe(l, r) => "(" + (PrintExec(l) + "|" + PrintPipe(r)) + ")"
    case List(l, r) => "(" + (PrintBack(l) + ";" + PrintLine(r)) + ")"
    case Back(d) => "(" + (PrintBack(d) + "&") + ")"
  }

  function PrintPipe(c: Cmd<string>): string
    decreases c, 1
  {
    match c
    case Pipe(l, r) => PrintExec(l) + "|" + PrintPipe(r)
    case _ => PrintExec(c)
  }

  function PrintBack(c: Cmd<string>): string
    decreases c, 2
  {
    match c
    case Back(d) => PrintBack(d) + "&"
    case _ => PrintPipe(c)
  }

  function PrintLine(c: Cmd<string>): string
    decreases c, 3
  {
    match c
    case List(l, r) => PrintBack(l) + ";" + PrintLine(r)
    case _ => PrintBack(c)
  }

  /** The tree with its words read from the buffer. */
  function Text(s: string, w: Span): string
  {
    if w.q <= w.eq <= |s| then s[w.q..w.eq] else ""
  }

  function Words(s: string, c: Cmd<Span>): Cmd<string>
  {
    match c
    case Exec(argv) => Exec(seq(|argv|, i requires 0 <= i < |argv| => Text(s, argv[i])))
    case Redir(d, f, o) => Redir(Words(s, d), Text(s, f), o)
    case Pipe(l, r) => Pipe(Words(s, l), Words(s, r))
    case List(l, r) => List(Words(s, l), Words(s, r))
    case Back(d) => Back(Words(s, d))
  }
}
