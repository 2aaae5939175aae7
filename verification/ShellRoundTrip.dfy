/** Printing a command and parsing it gives the command back (sh.c). */
module ShellRoundTrip {
  import opened Options
  import opened Basics
  import opened ShellSpec
  import opened ShellText

  /** A parenthesised command with redirections: the parser is left in parseredirs. */
  lemma {:induction false} BlockParses(s: string, p: nat, c: Cmd<string>) returns (cmd: Cmd<Span>)
    requires '\0' !in s && WellFormed(c) && !Simple(c) && Stands(s, p, PrintExec(c))
    requires AfterArgs(Char(s, p + |PrintExec(c)|))
    ensures ParseExec(s, p) == ParseRedirs(s, p + |PrintExec(c)|, cmd) && Words(s, cmd) == c
    decreases c, if Compound(c) then 4 else 1
  {
    hide ParseRedirs;
    hide ParseExec;
    hide Stands;
    hide PrintLine;
    hide Word;
    hide Plain;
    hide Text;
    hide PrintExec;
    AfterNotPlain(Char(s, p + |PrintExec(c)|));
    PrintCompound(c);
    if Compound(c) {
      StandsBlock(s, p, PrintLine(c));
      cmd := LineParses(s, p + 1, c);
      BlockIs(s, p, cmd, p + 1 + |PrintLine(c)|);
    } else {
      var e := p + |PrintExec(c.cmd)|;
      StandsRedir(s, p, PrintExec(c.cmd), c.file, c.output);
      cmd := BlockParses(s, p, c.cmd);
      RedirStep(s, e, c.file, c.output, cmd);
      cmd := Redir(cmd, Span(e + 1, e + 1 + |c.file|), c.output);
    }
  }

  lemma {:induction false} ExecParses(s: string, p: nat, c: Cmd<string>) returns (cmd: Cmd<Span>)
    requires '\0' !in s && WellFormed(c) && Stands(s, p, PrintExec(c)) && AfterExec(Char(s, p + |PrintExec(c)|))
    ensures ParseExec(s, p) == Ok(cmd, p + |PrintExec(c)|) && Words(s, cmd) == c
    decreases c, if Compound(c) then 5 else 2
  {
    hide ParseExec;
    hide ParseRest;
    hide ParseRedirs;
    hide PrintExec;
    hide WellFormed;
    hide Words;
    var e := p + |PrintExec(c)|;
    if Simple(c) {
      var argc;
      cmd, argc := SimpleParses(s, p, c);
      RestEnds(s, e, cmd, argc);
    } else {
      cmd := BlockParses(s, p, c);
      RestEnds(s, e, cmd, 0);
    }
  }

  lemma {:induction false} PipeParses(s: string, p: nat, c: Cmd<string>) returns (cmd: Cmd<Span>)
    requires '\0' !in s && WellFormed(c) && Stands(s, p, PrintPipe(c)) && AfterPipe(Char(s, p + |PrintPipe(c)|))
    ensures ParsePipe(s, p) == Ok(cmd, p + |PrintPipe(c)|) && Words(s, cmd) == c
    decreases c, if c.Pipe? then 1 else 6
  {
    hide ParseExec;
    hide ParsePipe;
    hide PrintExec;
    var e := p + |PrintPipe(c)|;
    if c.Pipe? {
      var e1 := p + |PrintExec(c.left)|;
      assert PrintPipe(c) == PrintExec(c.left) + ("|" + PrintPipe(c.right));
      StandsBoth(s, p, PrintExec(c.left), "|" + PrintPipe(c.right));
      StandsBoth(s, e1, "|", PrintPipe(c.right));
      StandsChar(s, e1, '|');
      var l := ExecParses(s, p, c.left);
      var r := PipeParses(s, e1 + 1, c.right);
      PipeIs(s, p, l, e1, r, e);
      cmd := Pipe(l, r);
    } else {
      cmd := ExecParses(s, p, c);
      PipeEnds(s, p, cmd, e);
    }
  }

  /** A pipe with & after it: the parser is left in parseline's loop. */
  lemma {:induction false} BackParses(s: string, p: nat, c: Cmd<string>) returns (cmd: Cmd<Span>)
    requires '\0' !in s && WellFormed(c) && Stands(s, p, PrintBack(c)) && AfterPipe(Char(s, p + |PrintBack(c)|))
    ensures ParseLine(s, p) == ParseTail(s, p + |PrintBack(c)|, cmd) && Words(s, cmd) == c
    decreases c, if c.Back? || c.Pipe? then 2 else 7
  {
    hide ParseTail;
    if c.Back? {
      var e1 := p + |PrintBack(c.cmd)|;
      StandsBoth(s, p, PrintBack(c.cmd), "&");
      StandsChar(s, e1, '&');
      cmd := BackParses(s, p, c.cmd);
      TailBack(s, e1, cmd);
      cmd := Back(cmd);
    } else {
      cmd := PipeParses(s, p, c);
    }
  }

  lemma {:induction false} LineParses(s: string, p: nat, c: Cmd<string>) returns (cmd: Cmd<Span>)
    requires '\0' !in s && WellFormed(c) && Stands(s, p, PrintLine(c)) && AfterLine(Char(s, p + |PrintLine(c)|))
    ensures ParseLine(s, p) == Ok(cmd, p + |PrintLine(c)|) && Words(s, cmd) == c
    decreases c, if Compound(c) then 3 else 8
  {
    hide ParseLine;
    hide ParseTail;
    hide PrintBack;
    if c.List? {
      var e1 := p + |PrintBack(c.left)|;
      assert PrintLine(c) == PrintBack(c.left) + (";" + PrintLine(c.right));
      StandsBoth(s, p, PrintBack(c.left), ";" + PrintLine(c.right));
      StandsBoth(s, e1, ";", PrintLine(c.right));
      StandsChar(s, e1, ';');
      var l := BackParses(s, p, c.left);
      var r := LineParses(s, e1 + 1, c.right);
      TailList(s, e1, l);
      cmd := List(l, r);
    } else {
      cmd := BackParses(s, p, c);
      TailEnds(s, p + |PrintLine(c)|, cmd);
    }
  }

  lemma {:induction false} NoNul(c: Cmd<string>)
    requires WellFormed(c)
    ensures '\0' !in PrintExec(c) && '\0' !in PrintPipe(c) && '\0' !in PrintBack(c) && '\0' !in PrintLine(c)
  {
    match c
    case Exec(argv) => NoNulArgs(argv, |argv|);
    case Redir(d, f, o) => NoNul(d); assert '\0' !in f;
    case Pipe(l, r) => NoNul(l); NoNul(r);
    case List(l, r) => NoNul(l); NoNul(r);
    case Back(d) => NoNul(d);
  }

  /** ROUND TRIP. Every command tree with words for its arguments and files, and fewer than MAXARGS arguments to an
      exec, is what the parser makes of its printed form. */
  lemma {:induction false} RoundTrip(c: Cmd<string>)
    requires WellFormed(c)
    ensures '\0' !in PrintLine(c)
    ensures ParseCmd(PrintLine(c)).Some? && Words(PrintLine(c), ParseCmd(PrintLine(c)).value) == c
  {
    var s := PrintLine(c);
    NoNul(c);
    var cmd := LineParses(s, 0, c);
    SkipNone(s, |s|);
  }

  // ----- what the parser accepts -----

  /** A word in the buffer, up to a character that is none of its own. */
  predicate SpanOk(s: string, w: Span)
  {
    w.q < w.eq <= |s| && !Plain(Char(s, w.eq)) && forall k :: w.q <= k < w.eq ==> Plain(s[k])
  }

  predicate CmdOk(s: string, c: Cmd<Span>)
  {
    match c
    case Exec(argv) => |argv| < MAXARGS && forall k :: 0 <= k < |argv| ==> SpanOk(s, argv[k])
    case Redir(d, f, _) => CmdOk(s, d) && SpanOk(s, f)
    case Pipe(l, r) => CmdOk(s, l) && CmdOk(s, r)
    case List(l, r) => CmdOk(s, l) && CmdOk(s, r)
    case Back(d) => CmdOk(s, d)
  }

  /** An exec with argc arguments, under redirections. */
  predicate HasArgs(c: Cmd<Span>, argc: nat)
  {
    match c
    case Exec(argv) => |argv| == argc
    case Redir(d, _, _) => HasArgs(d, argc)
    case _ => false
  }

  lemma {:induction false} WordOk(s: string, p: nat)
    requires '\0' !in s && p <= |s| && GetToken(s, p).kind == 'a'
    ensures SpanOk(s, GetToken(s, p).span)
  {
    var w := GetToken(s, p).span;
    forall k | w.q <= k < w.eq ensures Plain(s[k]) { assert s[k] in s; }
  }

  lemma {:induction false} RedirsOk(s: string, p: nat, cmd: Cmd<Span>, argc: nat)
    requires '\0' !in s && p <= |s| && CmdOk(s, cmd)
    ensures var r := ParseRedirs(s, p, cmd); r.Ok? ==> CmdOk(s, r.cmd) && (HasArgs(cmd, argc) ==> HasArgs(r.cmd, argc))
    decreases |s| - p
  {
    var p1 := Skip(s, p);
    if Arrow(Char(s, p1)) {
      var t := GetToken(s, p1);
      var f := GetToken(s, t.next);
      if f.kind == 'a' {
        WordOk(s, t.next);
        RedirsOk(s, f.next, Redir(cmd, f.span, t.kind != '<'), argc);
      }
    }
  }

  lemma {:induction false} AddArgOk(s: string, c: Cmd<Span>, w: Span, argc: nat)
    requires CmdOk(s, c) && HasArgs(c, argc) && SpanOk(s, w) && argc + 1 < MAXARGS
    ensures CmdOk(s, AddArg(c, w)) && HasArgs(AddArg(c, w), argc + 1)
  {
    if c.Redir? { AddArgOk(s, c.cmd, w, argc); }
  }

  lemma {:induction false} ArgsOk(s: string, p: nat, cmd: Cmd<Span>, argc: nat)
    requires '\0' !in s && p <= |s| && CmdOk(s, cmd) && HasArgs(cmd, argc)
    ensures var r := ParseArgs(s, p, cmd, argc); r.Ok? ==> CmdOk(s, r.cmd)
    decreases |s| - p, 0
  {
    var p1 := Skip(s, p);
    var t := GetToken(s, p1);
    if !EndsArgs(Char(s, p1)) && t.kind == 'a' && argc + 1 < MAXARGS {
      WordOk(s, p1);
      AddArgOk(s, cmd, t.span, argc);
      RestOk(s, t.next, AddArg(cmd, t.span), argc + 1);
    }
  }

  lemma {:induction false} RestOk(s: string, p: nat, cmd: Cmd<Span>, argc: nat)
    requires '\0' !in s && p <= |s| && CmdOk(s, cmd) && HasArgs(cmd, argc)
    ensures var r := ParseRest(s, p, cmd, argc); r.Ok? ==> CmdOk(s, r.cmd)
    decreases |s| - p, 1
  {
    RedirsOk(s, p, cmd, argc);
    var r := ParseRedirs(s, p, cmd);
    if r.Ok? { ArgsOk(s, r.p, r.cmd, argc); }
  }

  lemma {:induction false} ExecOk(s: string, p: nat)
    requires '\0' !in s && p <= |s|
    ensures var r := ParseExec(s, p); r.Ok? ==> CmdOk(s, r.cmd)
    decreases |s| - p, 1
  {
    var p1 := Skip(s, p);
    if Char(s, p1) == '(' {
      var p2 := GetToken(s, p1).next;
      SkipTwice(s, p);
      LineOk(s, p2);
      var r := ParseLine(s, p2);
      if r.Ok? && Char(s, Skip(s, r.p)) == ')' { RedirsOk(s, GetToken(s, Skip(s, r.p)).next, r.cmd, 0); }
    } else {
      RestOk(s, p1, Exec([]), 0);
    }
  }

  lemma {:induction false} PipeOk(s: string, p: nat)
    requires '\0' !in s && p <= |s|
    ensures var r := ParsePipe(s, p); r.Ok? ==> CmdOk(s, r.cmd)
    decreases |s| - p, 2
  {
    ExecOk(s, p);
    var l := ParseExec(s, p);
    if l.Ok? && Char(s, Skip(s, l.p)) == '|' { PipeOk(s, GetToken(s, Skip(s, l.p)).next); }
  }

  lemma {:induction false} TailOk(s: string, p: nat, cmd: Cmd<Span>)
    requires '\0' !in s && p <= |s| && CmdOk(s, cmd)
    ensures var r := ParseTail(s, p, cmd); r.Ok? ==> CmdOk(s, r.cmd)
    decreases |s| - p, 0
  {
    var p1 := Skip(s, p);
    if Char(s, p1) == '&' { TailOk(s, GetToken(s, p1).next, Back(cmd)); }
    if Char(s, p1) == ';' { LineOk(s, GetToken(s, p1).next); }
  }

  lemma {:induction false} LineOk(s: string, p: nat)
    requires '\0' !in s && p <= |s|
    ensures var r := ParseLine(s, p); r.Ok? ==> CmdOk(s, r.cmd)
    decreases |s| - p, 3
  {
    PipeOk(s, p);
    var r := ParsePipe(s, p);
    if r.Ok? { TailOk(s, r.p, r.cmd); }
  }

  lemma {:induction false} WordsOk(s: string, c: Cmd<Span>)
    requires '\0' !in s && CmdOk(s, c)
    ensures WellFormed(Words(s, c))
  {
    match c
    case Exec(argv) =>
      forall k | 0 <= k < |argv| ensures Word(Text(s, argv[k])) { assert SpanOk(s, argv[k]); }
    case Redir(d, f, _) => WordsOk(s, d);
    case Pipe(l, r) => WordsOk(s, l); WordsOk(s, r);
    case List(l, r) => WordsOk(s, l); WordsOk(s, r);
    case Back(d) => WordsOk(s, d);
  }

  /** NORMAL FORM. Whatever line the parser accepts, its tree is well formed; printed and parsed, it is the same
      tree. */
  lemma {:induction false} AcceptedRoundTrip(s: string)
    requires '\0' !in s && ParseCmd(s).Some?
    ensures var c := Words(s, ParseCmd(s).value);
            && CmdOk(s, ParseCmd(s).value) && WellFormed(c) && '\0' !in PrintLine(c)
            && ParseCmd(PrintLine(c)).Some? && Words(PrintLine(c), ParseCmd(PrintLine(c)).value) == c
  {
    LineOk(s, 0);
    WordsOk(s, ParseCmd(s).value);
    RoundTrip(Words(s, ParseCmd(s).value));
  }
}
