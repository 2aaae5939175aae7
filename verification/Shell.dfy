/** The shell's parser (sh.c), which moves a cursor over the line, and nulterminate. */
module Shell {
  import opened Options
  import opened Basics
  import opened ShellSpec
  import opened ShellRoundTrip
  import opened ShellText

  class Parser {
    const s: string        // the line; es is its end
    var p: nat             // the cursor *ps

    constructor (s: string)
      ensures this.s == s && p == 0
    {
      this.s := s;
      p := 0;
    }

    method SkipBlanks()
      requires p <= |s|
      modifies this
      ensures p == Skip(s, old(p))
    {
      while p < |s| && Blank(s[p])
        invariant old(p) <= p <= |s| && Skip(s, p) == Skip(s, old(p))
      {
        p := p + 1;
      }
    }

    method NextToken() returns (kind: char, w: Span)
      requires p <= |s|
      modifies this
      ensures Token(kind, w, p) == GetToken(s, old(p))
    {
      SkipBlanks();
      var q := p;
      kind := Char(s, p);
      if kind == '\0' {
      } else if kind == '|' || kind == '(' || kind == ')' || kind == ';' || kind == '&' || kind == '<' {
        p := p + 1;
      } else if kind == '>' {
        p := p + 1;
        if Char(s, p) == '>' {
          kind := '+';
          p := p + 1;
        }
      } else {
        kind := 'a';
        while p < |s| && !Blank(s[p]) && !Symbol(s[p])
          invariant q <= p <= |s| && WordEnd(s, p) == WordEnd(s, q)
        {
          p := p + 1;
        }
      }
      w := Span(q, p);
      SkipBlanks();
    }

    method Peek(toks: string) returns (r: bool)
      requires p <= |s|
      modifies this
      ensures p == Skip(s, old(p)) && (r <==> Char(s, p) != '\0' && Char(s, p) in toks)
    {
      SkipBlanks();
      return Char(s, p) != '\0' && Char(s, p) in toks;
    }

    /** The method's outcome is the function's: a command and the cursor after it, or a panic. */
    ghost predicate Is(r: Option<Cmd<Span>>, spec: Res)
      reads this
    {
      if spec.Ok? then r == Some(spec.cmd) && p == spec.p else r == None
    }

    method Redirs(c: Cmd<Span>) returns (r: Option<Cmd<Span>>)
      requires '\0' !in s && p <= |s|
      modifies this
      ensures Is(r, ParseRedirs(s, old(p), c))
    {
      hide Skip;
      hide GetToken;
      hide ParseRedirs;
      var cmd := c;
      var more := Peek("<>");
      RedirsSkip(s, old(p), c);
      while more
        invariant p <= |s| && p == Skip(s, p) && (more <==> Arrow(Char(s, p)))
        invariant ParseRedirs(s, p, cmd) == ParseRedirs(s, old(p), c)
        decreases |s| - p, more
      {
        RedirsOnce(s, p, cmd);
        var tok, _ := NextToken();
        var kind, w := NextToken();
        if kind != 'a' {
          return None;
        }
        cmd := Redir(cmd, w, tok != '<');
        RedirsSkip(s, p, cmd);
        more := Peek("<>");
      }
      RedirsOnce(s, p, cmd);
      return Some(cmd);
    }

    method Exec() returns (r: Option<Cmd<Span>>)
      requires '\0' !in s && p <= |s|
      modifies this
      ensures Is(r, ParseExec(s, old(p)))
      decreases |s| - p, 1
    {
      var block := Peek("(");
      if block {
        SkipTwice(s, old(p));
        r := Block();
        return;
      }
      r := Args();
    }

    /** parseexec when there is no parenthesis. */
    method Args() returns (r: Option<Cmd<Span>>)
      requires '\0' !in s && p <= |s|
      modifies this
      ensures Is(r, ParseRest(s, old(p), ShellSpec.Exec([]), 0))
    {
      hide Skip;
      hide GetToken;
      hide ParseRedirs;
      hide ParseArgs;
      hide ParseRest;
      hide AddArg;
      var argc := 0;
      RestOnce(s, p, ShellSpec.Exec([]), 0);
      r := Redirs(ShellSpec.Exec([]));
      if r.None? {
        return;
      }
      ghost var goal := ParseRest(s, old(p), ShellSpec.Exec([]), 0);
      ArgsSkip(s, p, r.value, argc);
      var stop := Peek("|)&;");
      while !stop
        invariant p <= |s| && p == Skip(s, p) && r.Some? && (stop <==> EndsArgs(Char(s, p)))
        invariant ParseArgs(s, p, r.value, argc) == goal
        decreases |s| - p, !stop
      {
        ArgsOnce(s, p, r.value, argc);
        var tok, w := NextToken();
        if tok == '\0' {
          break;
        }
        if tok != 'a' {
          return None;
        }
        r := Some(AddArg(r.value, w));
        argc := argc + 1;
        if argc >= MAXARGS {
          return None;
        }
        RestOnce(s, p, r.value, argc);
        r := Redirs(r.value);
        if r.None? {
          return;
        }
        ArgsSkip(s, p, r.value, argc);
        stop := Peek("|)&;");
      }
      if stop { ArgsOnce(s, p, r.value, argc); }
    }

    method Block() returns (r: Option<Cmd<Span>>)
      requires '\0' !in s && p <= |s|
      modifies this
      ensures Is(r, ParseBlock(s, old(p)))
      decreases |s| - p, 0
    {
      var open := Peek("(");
      if !open {
        return None;
      }
      var tok, _ := NextToken();
      r := Line();
      if r.None? {
        return;
      }
      var close := Peek(")");
      if !close {
        return None;
      }
      var tok', _ := NextToken();
      r := Redirs(r.value);
    }

    method PipeLine() returns (r: Option<Cmd<Span>>)
      requires '\0' !in s && p <= |s|
      modifies this
      ensures Is(r, ParsePipe(s, old(p)))
      decreases |s| - p, 2
    {
      r := Exec();
      if r.None? {
        return;
      }
      var more := Peek("|");
      if more {
        var tok, _ := NextToken();
        var right := PipeLine();
        if right.None? {
          return None;
        }
        r := Some(Pipe(r.value, right.value));
      }
    }

    method Line() returns (r: Option<Cmd<Span>>)
      requires '\0' !in s && p <= |s|
      modifies this
      ensures Is(r, ParseLine(s, old(p)))
      decreases |s| - p, 3
    {
      hide Skip;
      hide GetToken;
      hide ParseTail;
      hide ParsePipe;
      r := PipeLine();
      if r.None? {
        return;
      }
      ghost var goal := ParseLine(s, old(p));
      TailSkip(s, p, r.value);
      var more := Peek("&");
      while more
        invariant old(p) <= p <= |s| && p == Skip(s, p) && r.Some? && (more <==> Char(s, p) == '&')
        invariant ParseTail(s, p, r.value) == goal
        decreases |s| - p, more
      {
        TailOnce(s, p, r.value);
        var tok, _ := NextToken();
        r := Some(Back(r.value));
        TailSkip(s, p, r.value);
        more := Peek("&");
      }
      TailOnce(s, p, r.value);
      more := Peek(";");
      if more {
        var tok, _ := NextToken();
        var right := Line();
        if right.None? {
          return None;
        }
        r := Some(List(r.value, right.value));
      }
    }
  }

  /** One turn of parseredirs, of parseexec's loop and of parseline's, at a character that is not blank. */
  lemma {:induction false} RedirsOnce(s: string, p: nat, c: Cmd<Span>)
    requires '\0' !in s && p <= |s| && Skip(s, p) == p
    ensures ParseRedirs(s, p, c) ==
            if !Arrow(Char(s, p)) then Ok(c, p)
            else
              var t := GetToken(s, p);
              var f := GetToken(s, t.next);
              if f.kind != 'a' then ShellSpec.Panic else ParseRedirs(s, f.next, Redir(c, f.span, t.kind != '<'))
    ensures Arrow(Char(s, p)) ==> GetToken(s, p).next > p
  {}

  lemma {:induction false} RestOnce(s: string, p: nat, c: Cmd<Span>, argc: nat)
    requires '\0' !in s && p <= |s|
    ensures ParseRest(s, p, c, argc) ==
            var r := ParseRedirs(s, p, c); if r.Panic? then ShellSpec.Panic else ParseArgs(s, r.p, r.cmd, argc)
  {}

  lemma {:induction false} ArgsOnce(s: string, p: nat, c: Cmd<Span>, argc: nat)
    requires '\0' !in s && p <= |s| && Skip(s, p) == p
    ensures ParseArgs(s, p, c, argc) ==
            if EndsArgs(Char(s, p)) then Ok(c, p)
            else
              var t := GetToken(s, p);
              if t.kind == '\0' then Ok(c, t.next)
              else if t.kind != 'a' || argc + 1 >= MAXARGS then ShellSpec.Panic
              else ParseRest(s, t.next, AddArg(c, t.span), argc + 1)
    ensures !EndsArgs(Char(s, p)) && GetToken(s, p).kind != '\0' ==> GetToken(s, p).next > p
  {}

  lemma {:induction false} TailOnce(s: string, p: nat, c: Cmd<Span>)
    requires '\0' !in s && p <= |s| && Skip(s, p) == p
    ensures Char(s, p) == '&' ==>
              ParseTail(s, p, c) == ParseTail(s, GetToken(s, p).next, Back(c)) && GetToken(s, p).next > p
    ensures Char(s, p) == ';' ==> GetToken(s, p).next > p
    ensures Char(s, p) == ';' ==>
              var r := ParseLine(s, GetToken(s, p).next);
              ParseTail(s, p, c) == if r.Panic? then ShellSpec.Panic else Ok(List(c, r.cmd), r.p)
    ensures Char(s, p) != '&' && Char(s, p) != ';' ==> ParseTail(s, p, c) == Ok(c, p)
  {}

  lemma {:induction false} ArgsSkip(s: string, p: nat, c: Cmd<Span>, argc: nat)
    requires '\0' !in s && p <= |s|
    ensures ParseArgs(s, Skip(s, p), c, argc) == ParseArgs(s, p, c, argc)
  {
    SkipTwice(s, p);
  }

  lemma {:induction false} TailSkip(s: string, p: nat, c: Cmd<Span>)
    requires '\0' !in s && p <= |s|
    ensures ParseTail(s, Skip(s, p), c) == ParseTail(s, p, c)
  {
    SkipTwice(s, p);
  }

  // ----- nulterminate -----

  /** The positions just after the words of a command. */
  function WordEnds(c: Cmd<Span>): set<nat>
  {
    match c
    case Exec(argv) => set k | 0 <= k < |argv| :: argv[k].eq
    case Redir(d, f, _) => WordEnds(d) + {f.eq}
    case Pipe(l, r) => WordEnds(l) + WordEnds(r)
    case List(l, r) => WordEnds(l) + WordEnds(r)
    case Back(d) => WordEnds(d)
  }

  /** A NUL after every word, and nothing else. */
  method NulTerminate(c: Cmd<Span>, buf: array<char>)
    requires forall e :: e in WordEnds(c) ==> e < buf.Length
    modifies buf
    ensures forall k :: 0 <= k < buf.Length ==> buf[k] == if k in WordEnds(c) then '\0' else old(buf[k])
    decreases c
  {
    match c
    case Exec(argv) =>
      var i := 0;
      while i < |argv|
        invariant 0 <= i <= |argv|
        invariant forall k ::
                    0 <= k < buf.Length ==>
                      buf[k] == if exists j :: 0 <= j < i && argv[j].eq == k then '\0' else old(buf[k])
      {
        assert argv[i].eq in WordEnds(c);
        buf[argv[i].eq] := '\0';
        i := i + 1;
      }
    case Redir(d, f, _) =>
      assert WordEnds(d) <= WordEnds(c) && f.eq in WordEnds(c);
      NulTerminate(d, buf);
      buf[f.eq] := '\0';
    case Pipe(l, r) =>
      assert WordEnds(l) <= WordEnds(c) && WordEnds(r) <= WordEnds(c);
      NulTerminate(l, buf);
      NulTerminate(r, buf);
    case List(l, r) =>
      assert WordEnds(l) <= WordEnds(c) && WordEnds(r) <= WordEnds(c);
      NulTerminate(l, buf);
      NulTerminate(r, buf);
    case Back(d) =>
      assert WordEnds(d) == WordEnds(c);
      NulTerminate(d, buf);
  }

  /** In buf, the string that starts at w.q is the word that stood at w in s. */
  predicate StringIs(buf: seq<char>, s: string, w: Span)
  {
    w.q < w.eq < |buf| && w.eq <= |s| && buf[w.eq] == '\0' && buf[w.q..w.eq] == s[w.q..w.eq] && '\0' !in s[w.q..w.eq]
  }

  predicate StringsAre(buf: seq<char>, s: string, c: Cmd<Span>)
  {
    match c
    case Exec(argv) => forall k :: 0 <= k < |argv| ==> StringIs(buf, s, argv[k])
    case Redir(d, f, _) => StringsAre(buf, s, d) && StringIs(buf, s, f)
    case Pipe(l, r) => StringsAre(buf, s, l) && StringsAre(buf, s, r)
    case List(l, r) => StringsAre(buf, s, l) && StringsAre(buf, s, r)
    case Back(d) => StringsAre(buf, s, d)
  }

  /** The NULs fall on no character of a word. */
  lemma {:induction false} EndsOutside(s: string, c: Cmd<Span>, e: nat)
    requires CmdOk(s, c) && e in WordEnds(c)
    ensures e <= |s| && !Plain(Char(s, e))
  {
    match c
    case Exec(argv) => var k :| 0 <= k < |argv| && argv[k].eq == e; assert SpanOk(s, argv[k]);
    case Redir(d, f, _) => if e in WordEnds(d) { EndsOutside(s, d, e); }
    case Pipe(l, r) => if e in WordEnds(l) { EndsOutside(s, l, e); } else { EndsOutside(s, r, e); }
    case List(l, r) => if e in WordEnds(l) { EndsOutside(s, l, e); } else { EndsOutside(s, r, e); }
    case Back(d) => EndsOutside(s, d, e);
  }

  lemma {:induction false} StringKept(s: string, buf: seq<char>, ends: set<nat>, w: Span)
    requires '\0' !in s && SpanOk(s, w) && |buf| == |s| + 1 && w.eq in ends
    requires forall e :: e in ends ==> e <= |s| && !Plain(Char(s, e))
    requires forall k :: 0 <= k < |buf| ==> buf[k] == if k in ends then '\0' else Char(s, k)
    ensures StringIs(buf, s, w)
  {
    forall k | w.q <= k < w.eq ensures buf[k] == s[k] { assert Plain(s[k]); assert Char(s, k) == s[k]; }
  }

  lemma {:induction false} StringsKept(s: string, buf: seq<char>, ends: set<nat>, c: Cmd<Span>)
    requires '\0' !in s && CmdOk(s, c) && |buf| == |s| + 1 && WordEnds(c) <= ends
    requires forall e :: e in ends ==> e <= |s| && !Plain(Char(s, e))
    requires forall k :: 0 <= k < |buf| ==> buf[k] == if k in ends then '\0' else Char(s, k)
    ensures StringsAre(buf, s, c)
  {
    match c
    case Exec(argv) =>
      forall k | 0 <= k < |argv| ensures StringIs(buf, s, argv[k]) {
        assert SpanOk(s, argv[k]) && argv[k].eq in WordEnds(c);
        StringKept(s, buf, ends, argv[k]);
      }
    case Redir(d, f, _) => StringsKept(s, buf, ends, d); StringKept(s, buf, ends, f);
    case Pipe(l, r) => StringsKept(s, buf, ends, l); StringsKept(s, buf, ends, r);
    case List(l, r) => StringsKept(s, buf, ends, l); StringsKept(s, buf, ends, r);
    case Back(d) => StringsKept(s, buf, ends, d);
  }

  /** parsecmd on a buffer that holds a line and its NUL: the tree, whose words are now C strings in the buffer; or a
      panic, and then nothing was written. */
  method ParseCommand(buf: array<char>) returns (r: Option<Cmd<Span>>)
    requires buf.Length > 0 && buf[buf.Length - 1] == '\0' && '\0' !in buf[..buf.Length - 1]
    modifies buf
    ensures r == ParseCmd(old(buf[..buf.Length - 1]))
    ensures r.Some? ==> StringsAre(buf[..], old(buf[..buf.Length - 1]), r.value)
    ensures r.None? ==> buf[..] == old(buf[..])
  {
    var s := buf[..buf.Length - 1];
    var ps := new Parser(s);
    r := ps.Line();
    if r.None? {
      return;
    }
    var _ := ps.Peek("");
    if ps.p != |s| {
      return None;
    }
    LineOk(s, 0);
    forall e | e in WordEnds(r.value) ensures e <= |s| && !Plain(Char(s, e)) { EndsOutside(s, r.value, e); }
    NulTerminate(r.value, buf);
    StringsKept(s, buf[..], WordEnds(r.value), r.value);
  }
}
