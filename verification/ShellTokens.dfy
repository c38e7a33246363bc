/**
 The grammar of sh.c on token sequences. What the parser does with a line
 depends on its tokens alone: the functions here take a token sequence apart as
 the source does, and the parser over positions agrees with them.
 */
module ShellTokens {
  import opened ShellLex
  import opened ShellParse

  // ---------- Reading words back ----------

  function SpanText(s: string, sp: Span): string {
    if sp.q <= sp.eq <= |s| then s[sp.q..sp.eq] else ""
  }

  function SpanTexts(s: string, sps: seq<Span>): (r: seq<string>)
    ensures |r| == |sps| && forall k | 0 <= k < |sps| :: r[k] == SpanText(s, sps[k])
  {
    seq(|sps|, k requires 0 <= k < |sps| => SpanText(s, sps[k]))
  }

  function FileTexts(s: string, rs: seq<Redirect<Span>>): (r: seq<Redirect<string>>)
    ensures |r| == |rs| && forall k | 0 <= k < |rs| :: r[k] == Redirect(SpanText(s, rs[k].file), rs[k].out)
  {
    seq(|rs|, k requires 0 <= k < |rs| => Redirect(SpanText(s, rs[k].file), rs[k].out))
  }

  function TextOf(s: string, c: Cmd<Span>): Cmd<string> {
    match c
    case Exec(argv) => Exec(SpanTexts(s, argv))
    case Redir(a, f, out) => Redir(TextOf(s, a), SpanText(s, f), out)
    case Pipe(a, b) => Pipe(TextOf(s, a), TextOf(s, b))
    case List(a, b) => List(TextOf(s, a), TextOf(s, b))
    case Back(a) => Back(TextOf(s, a))
  }

  lemma {:induction false} WrapTexts(s: string, c: Cmd<Span>, rs: seq<Redirect<Span>>)
    ensures TextOf(s, Wrap(c, rs)) == Wrap(TextOf(s, c), FileTexts(s, rs))
  {
    if rs != [] {
      WrapTexts(s, c, rs[..|rs| - 1]);
      assert FileTexts(s, rs)[..|rs| - 1] == FileTexts(s, rs[..|rs| - 1]);
    }
  }

  // ---------- Taking tokens apart ----------

  predicate HeadIn(ts: seq<Lexeme>, toks: string) {
    ts != [] && Head(ts[0]) in toks
  }

  datatype Files = Files(list: seq<Redirect<string>>, rest: seq<Lexeme>) | NoFile

  datatype Outcome = Took(cmd: Cmd<string>, rest: seq<Lexeme>) | Broke(error: Error)

  function TakeRedirs(ts: seq<Lexeme>, rs: seq<Redirect<string>>): (r: Files)
    ensures r.Files? ==> |r.rest| <= |ts| && !HeadIn(r.rest, "<>")
    decreases |ts|
  {
    if !HeadIn(ts, "<>") then Files(rs, ts)
    else if |ts| < 2 || !ts[1].Text? then NoFile
    else TakeRedirs(ts[2..], rs + [Redirect(ts[1].w, ts[0] != Sym('<'))])
  }

  function TakeArgs(ts: seq<Lexeme>, args: seq<string>, rs: seq<Redirect<string>>): (r: Outcome)
    ensures r.Took? ==> |r.rest| <= |ts|
    decreases |ts|
  {
    if ts == [] || HeadIn(ts, "|)&;") then Took(Wrap(Exec(args), rs), ts)
    else if !ts[0].Text? then Broke(Syntax)
    else if |args| + 1 >= MAXARGS then Broke(TooManyArgs)
    else
      var r := TakeRedirs(ts[1..], rs);
      if r.NoFile? then Broke(MissingFile) else TakeArgs(r.rest, args + [ts[0].w], r.list)
  }

  /** Redirections and words, as far as they go. */
  function TakeSimple(ts: seq<Lexeme>, args: seq<string>, rs: seq<Redirect<string>>): (r: Outcome)
    ensures r.Took? ==> |r.rest| <= |ts|
  {
    var r := TakeRedirs(ts, rs);
    if r.NoFile? then Broke(MissingFile) else TakeArgs(r.rest, args, r.list)
  }

  function TakeExec(ts: seq<Lexeme>): (r: Outcome)
    ensures r.Took? ==> |r.rest| <= |ts|
    decreases |ts|, 0
  {
    if !HeadIn(ts, "(") then TakeSimple(ts, [], [])
    else
      var r := TakeLine(ts[1..]);
      if r.Broke? then r
      else if !HeadIn(r.rest, ")") then Broke(MissingParen)
      else
        var f := TakeRedirs(r.rest[1..], []);
        if f.NoFile? then Broke(MissingFile) else Took(Wrap(r.cmd, f.list), f.rest)
  }

  function TakePipe(ts: seq<Lexeme>): (r: Outcome)
    ensures r.Took? ==> |r.rest| <= |ts|
    decreases |ts|, 1
  {
    var r := TakeExec(ts);
    if r.Broke? || !HeadIn(r.rest, "|") then r
    else
      var r2 := TakePipe(r.rest[1..]);
      if r2.Broke? then r2 else Took(Pipe(r.cmd, r2.cmd), r2.rest)
  }

  function TakeBacks(ts: seq<Lexeme>, c: Cmd<string>): (r: Outcome)
    ensures r.Took? && |r.rest| <= |ts|
    decreases |ts|
  {
    if HeadIn(ts, "&") then TakeBacks(ts[1..], Back(c)) else Took(c, ts)
  }

  function TakeLine(ts: seq<Lexeme>): (r: Outcome)
    ensures r.Took? ==> |r.rest| <= |ts|
    decreases |ts|, 2
  {
    var r := TakePipe(ts);
    if r.Broke? then r
    else
      var b := TakeBacks(r.rest, r.cmd);
      if !HeadIn(b.rest, ";") then b
      else
        var r2 := TakeLine(b.rest[1..]);
        if r2.Broke? then r2 else Took(List(b.cmd, r2.cmd), r2.rest)
  }

  function TakeCmd(ts: seq<Lexeme>): Outcome {
    var r := TakeLine(ts);
    if r.Took? && r.rest != [] then Broke(Leftovers) else r
  }

  // ---------- The parser agrees ----------

  ghost predicate Agree(s: string, r: Parsed, o: Outcome)
    requires NoNul(s)
  {
    match r
    case Ok(d, j) => j <= |s| && o == Took(TextOf(s, d), Lex(s, j))
    case Fail(e) => o == Broke(e)
  }

  /** Consuming the first token. */
  lemma Take(s: string, i: nat)
    requires i <= |s| && NoNul(s) && Lex(s, i) != []
    ensures Lex(s, After(s, i)) == Lex(s, i)[1..] && Scan(s, i).kind != End && LexemeOf(s, Scan(s, i)) == Lex(s, i)[0]
    ensures Lex(s, i)[0].Text? <==> Scan(s, i).kind == Word
    ensures Lex(s, i)[0].Text? ==> SpanText(s, Span(Scan(s, i).q, Scan(s, i).eq)) == Lex(s, i)[0].w
    ensures Lex(s, i)[0] == Sym('<') <==> Scan(s, i).kind == Symbol('<')
  {
    LexStep(s, i);
  }

  lemma See(s: string, i: nat, toks: string)
    requires i <= |s| && NoNul(s) && forall c | c in toks :: IsSymbol(c)
    ensures Peek(s, i, toks) <==> HeadIn(Lex(s, i), toks)
    ensures Lex(s, Skip(s, i)) == Lex(s, i)
    ensures Scan(s, i).kind == End <==> Lex(s, i) == []
  {
    PeekIs(s, i, toks);
    LexSkip(s, i);
    LexStep(s, i);
  }

  lemma {:induction false} RedirsAgree(s: string, i: nat, rs: seq<Redirect<Span>>)
    requires i <= |s| && NoNul(s)
    ensures var r, o := ParseRedirs(s, i, rs), TakeRedirs(Lex(s, i), FileTexts(s, rs));
            if r.Some? then o == Files(FileTexts(s, r.list), Lex(s, r.next)) else r.error == MissingFile && o == NoFile
    decreases |s| - i
  {
    hide Scan, Peek, Lex, After, LexemeOf;
    See(s, i, "<>");
    if Peek(s, i, "<>") {
      Take(s, i);
      var i1 := After(s, i);
      See(s, i1, "<>");
      if Lex(s, i1) != [] { Take(s, i1); }
      var t, f := Scan(s, i), Scan(s, i1);
      if f.kind == Word {
        var more := rs + [Redirect(Span(f.q, f.eq), t.kind != Symbol('<'))];
        RedirsAgree(s, After(s, i1), more);
        assert Lex(s, i)[1..][1..] == Lex(s, i)[2..];
        assert FileTexts(s, more) == FileTexts(s, rs) + [Redirect(Lex(s, i)[1].w, Lex(s, i)[0] != Sym('<'))];
      }
    }
  }

  lemma {:induction false} ArgsAgree(s: string, i: nat, args: seq<Span>, rs: seq<Redirect<Span>>)
    requires i <= |s| && NoNul(s)
    ensures Agree(s, ParseArgs(s, i, args, rs), TakeArgs(Lex(s, i), SpanTexts(s, args), FileTexts(s, rs)))
    decreases |s| - i
  {
    hide Scan, Peek, Lex, After, LexemeOf, ParseRedirs, TakeRedirs;
    See(s, i, "|)&;");
    WrapTexts(s, Exec(args), rs);
    if Peek(s, i, "|)&;") {
    } else if Scan(s, i).kind == End {
      EndStays(s, i);
    } else {
      Take(s, i);
      var t := Scan(s, i);
      if t.kind == Word && |args| + 1 < MAXARGS {
        RedirsAgree(s, After(s, i), rs);
        var r := ParseRedirs(s, After(s, i), rs);
        var more := args + [Span(t.q, t.eq)];
        assert SpanTexts(s, more) == SpanTexts(s, args) + [Lex(s, i)[0].w];
        if r.Some? { ArgsAgree(s, r.next, more, r.list); }
      }
    }
  }

  lemma EndStays(s: string, i: nat)
    requires i <= |s| && NoNul(s) && Scan(s, i).kind == End
    ensures Lex(s, After(s, i)) == []
  {
    LexEnd(s);
  }

  lemma {:induction false} ExecAgrees(s: string, i: nat)
    requires i <= |s| && NoNul(s)
    ensures Agree(s, ParseExec(s, i), TakeExec(Lex(s, i)))
    decreases |s| - i, 1
  {
    hide Scan, Peek, Lex, After, LexemeOf, ParseRedirs, TakeRedirs, ParseArgs, TakeArgs, ParseLine, TakeLine;
    See(s, i, "(");
    if Peek(s, i, "(") {
      Take(s, i);
      LineAgrees(s, After(s, i));
      var r := ParseLine(s, After(s, i));
      if r.Ok? {
        See(s, r.next, ")");
        if Peek(s, r.next, ")") {
          Take(s, r.next);
          RedirsAgree(s, After(s, r.next), []);
          var rr := ParseRedirs(s, After(s, r.next), []);
          assert FileTexts(s, []) == [];
          if rr.Some? { WrapTexts(s, r.cmd, rr.list); }
        }
      }
    } else {
      RedirsAgree(s, i, []);
      assert FileTexts(s, []) == [] && SpanTexts(s, []) == [];
      var r := ParseRedirs(s, i, []);
      if r.Some? { ArgsAgree(s, r.next, [], r.list); }
    }
  }

  lemma {:induction false} PipeAgrees(s: string, i: nat)
    requires i <= |s| && NoNul(s)
    ensures Agree(s, ParsePipe(s, i), TakePipe(Lex(s, i)))
    decreases |s| - i, 2
  {
    hide Scan, Peek, Lex, After, LexemeOf, ParseExec, TakeExec;
    ExecAgrees(s, i);
    var r := ParseExec(s, i);
    if r.Ok? {
      See(s, r.next, "|");
      if Peek(s, r.next, "|") {
        Take(s, r.next);
        PipeAgrees(s, After(s, r.next));
      }
    }
  }

  lemma {:induction false} BacksAgree(s: string, i: nat, c: Cmd<Span>)
    requires i <= |s| && NoNul(s)
    ensures Agree(s, ParseBacks(s, i, c), TakeBacks(Lex(s, i), TextOf(s, c)))
    decreases |s| - i
  {
    hide Scan, Peek, Lex, After, LexemeOf;
    See(s, i, "&");
    if Peek(s, i, "&") {
      Take(s, i);
      BacksAgree(s, After(s, i), Back(c));
    }
  }

  lemma {:induction false} LineAgrees(s: string, i: nat)
    requires i <= |s| && NoNul(s)
    ensures Agree(s, ParseLine(s, i), TakeLine(Lex(s, i)))
    decreases |s| - i, 3
  {
    hide Scan, Peek, Lex, After, LexemeOf, ParsePipe, TakePipe, ParseBacks, TakeBacks;
    PipeAgrees(s, i);
    var r := ParsePipe(s, i);
    if r.Ok? {
      BacksAgree(s, r.next, r.cmd);
      var b := ParseBacks(s, r.next, r.cmd);
      See(s, b.next, ";");
      if Peek(s, b.next, ";") {
        Take(s, b.next);
        LineAgrees(s, After(s, b.next));
      }
    }
  }

  /** What the shell makes of a line is what its tokens say. */
  lemma CmdAgrees(s: string)
    requires NoNul(s)
    ensures var r, o := ParseCmd(s), TakeCmd(Lex(s, 0));
            if r.Ok? then o == Took(TextOf(s, r.cmd), []) else o == Broke(r.error)
  {
    hide ParseLine, TakeLine, Lex, Scan;
    LineAgrees(s, 0);
    var r := ParseLine(s, 0);
    if r.Ok? {
      See(s, r.next, ";");
      AtEnd(s, r.next);
    }
  }

  lemma AtEnd(s: string, i: nat)
    requires i <= |s| && NoNul(s)
    ensures Skip(s, i) == |s| <==> Scan(s, i).kind == End
  {
  }
}
