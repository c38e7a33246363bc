/**
 The grammar of sh.c as functions from a position to a command and the position
 behind it, and the round trip: printing a command and parsing it again.
 */
module ShellParse {
  import opened ShellLex

  const MAXARGS: nat := 10

  /** Where a word starts and ends, as argv/eargv and file/efile record it. */
  datatype Span = Span(q: nat, eq: nat)

  /** Commands over their words: spans after parsing, strings in the abstract. out tells O_WRONLY|O_CREATE on 1 from O_RDONLY on 0. */
  datatype Cmd<T> =
    | Exec(argv: seq<T>)
    | Redir(cmd: Cmd<T>, file: T, out: bool)
    | Pipe(left: Cmd<T>, right: Cmd<T>)
    | List(left: Cmd<T>, right: Cmd<T>)
    | Back(cmd: Cmd<T>)

  datatype Error = Syntax | MissingFile | MissingParen | TooManyArgs | Leftovers

  datatype Parsed = Ok(cmd: Cmd<Span>, next: nat) | Fail(error: Error)

  /** A redirection, to be wrapped around a command. */
  datatype Redirect<T> = Redirect(file: T, out: bool)

  datatype Redirects = Some(list: seq<Redirect<Span>>, next: nat) | Bad(error: Error)

  /** Each redirection encloses what came before it. */
  function Wrap<T>(cmd: Cmd<T>, rs: seq<Redirect<T>>): Cmd<T> {
    if rs == [] then cmd else Redir(Wrap(cmd, rs[..|rs| - 1]), rs[|rs| - 1].file, rs[|rs| - 1].out)
  }

  // ---------- The grammar ----------

  /** parseredirs: the redirections read so far are rs. */
  function ParseRedirs(s: string, i: nat, rs: seq<Redirect<Span>>): (r: Redirects)
    requires i <= |s| && NoNul(s)
    ensures r.Some? ==> i <= r.next <= |s|
    decreases |s| - i
  {
    if Peek(s, i, "<>") then
      var t, i1 := Scan(s, i), After(s, i);
      var f := Scan(s, i1);
      if f.kind != Word then Bad(MissingFile)
      else ParseRedirs(s, After(s, i1), rs + [Redirect(Span(f.q, f.eq), t.kind != Symbol('<'))])
    else Some(rs, Skip(s, i))
  }

  /** parseexec's loop: args and redirections read so far; the redirections enclose the command args belong to. */
  function ParseArgs(s: string, i: nat, args: seq<Span>, rs: seq<Redirect<Span>>): (r: Parsed)
    requires i <= |s| && NoNul(s)
    ensures r.Ok? ==> i <= r.next <= |s|
    decreases |s| - i
  {
    if Peek(s, i, "|)&;") then Ok(Wrap(Exec(args), rs), Skip(s, i))
    else
      var t := Scan(s, i);
      if t.kind == End then Ok(Wrap(Exec(args), rs), After(s, i))
      else if t.kind != Word then Fail(Syntax)
      else if |args| + 1 >= MAXARGS then Fail(TooManyArgs)
      else
        var r := ParseRedirs(s, After(s, i), rs);
        if r.Bad? then Fail(r.error) else ParseArgs(s, r.next, args + [Span(t.q, t.eq)], r.list)
  }

  function ParseExec(s: string, i: nat): (r: Parsed)
    requires i <= |s| && NoNul(s)
    ensures r.Ok? ==> i <= r.next <= |s|
    decreases |s| - i, 1
  {
    if Peek(s, i, "(") then ParseBlock(s, i)
    else
      var r := ParseRedirs(s, i, []);
      if r.Bad? then Fail(r.error) else ParseArgs(s, r.next, [], r.list)
  }

  function ParseBlock(s: string, i: nat): (r: Parsed)
    requires i <= |s| && NoNul(s) && Peek(s, i, "(")
    ensures r.Ok? ==> i <= r.next <= |s|
    decreases |s| - i, 0
  {
    var r := ParseLine(s, After(s, i));
    if r.Fail? then r
    else if !Peek(s, r.next, ")") then Fail(MissingParen)
    else
      var rr := ParseRedirs(s, After(s, r.next), []);
      if rr.Bad? then Fail(rr.error) else Ok(Wrap(r.cmd, rr.list), rr.next)
  }

  function ParsePipe(s: string, i: nat): (r: Parsed)
    requires i <= |s| && NoNul(s)
    ensures r.Ok? ==> i <= r.next <= |s|
    decreases |s| - i, 2
  {
    var r := ParseExec(s, i);
    if r.Fail? then r
    else if Peek(s, r.next, "|") then
      var r2 := ParsePipe(s, After(s, r.next));
      if r2.Fail? then r2 else Ok(Pipe(r.cmd, r2.cmd), r2.next)
    else Ok(r.cmd, Skip(s, r.next))
  }

  /** parseline's loop over &. */
  function ParseBacks(s: string, i: nat, cmd: Cmd<Span>): (r: Parsed)
    requires i <= |s| && NoNul(s)
    ensures r.Ok? && i <= r.next <= |s|
    decreases |s| - i
  {
    if Peek(s, i, "&") then ParseBacks(s, After(s, i), Back(cmd)) else Ok(cmd, Skip(s, i))
  }

  function ParseLine(s: string, i: nat): (r: Parsed)
    requires i <= |s| && NoNul(s)
    ensures r.Ok? ==> i <= r.next <= |s|
    decreases |s| - i, 3
  {
    var r := ParsePipe(s, i);
    if r.Fail? then r
    else
      var b := ParseBacks(s, r.next, r.cmd);
      if Peek(s, b.next, ";") then
        var r2 := ParseLine(s, After(s, b.next));
        if r2.Fail? then r2 else Ok(List(b.cmd, r2.cmd), r2.next)
      else Ok(b.cmd, Skip(s, b.next))
  }

  /** parsecmd, before nulterminate. */
  function ParseCmd(s: string): Parsed
    requires NoNul(s)
  {
    var r := ParseLine(s, 0);
    if r.Ok? && Skip(s, r.next) != |s| then Fail(Leftovers) else r
  }

  // ---------- Words are whole tokens ----------

  /** A span of word characters that ends where they end. */
  predicate SpanOk(s: string, sp: Span) {
    && sp.q < sp.eq <= |s| && (forall k | sp.q <= k < sp.eq :: IsWordChar(s[k]))
    && (sp.eq < |s| ==> !IsWordChar(s[sp.eq]))
  }

  predicate AllSpans(s: string, c: Cmd<Span>) {
    match c
    case Exec(argv) => forall k | 0 <= k < |argv| :: SpanOk(s, argv[k])
    case Redir(d, f, _) => AllSpans(s, d) && SpanOk(s, f)
    case Pipe(a, b) => AllSpans(s, a) && AllSpans(s, b)
    case List(a, b) => AllSpans(s, a) && AllSpans(s, b)
    case Back(d) => AllSpans(s, d)
  }

  predicate RedirectSpans(s: string, rs: seq<Redirect<Span>>) {
    forall k | 0 <= k < |rs| :: SpanOk(s, rs[k].file)
  }

  lemma ScanSpan(s: string, i: nat)
    requires i <= |s| && NoNul(s) && Scan(s, i).kind == Word
    ensures SpanOk(s, Span(Scan(s, i).q, Scan(s, i).eq))
  {
  }

  lemma {:induction false} WrapSpans(s: string, c: Cmd<Span>, rs: seq<Redirect<Span>>)
    requires AllSpans(s, c) && RedirectSpans(s, rs)
    ensures AllSpans(s, Wrap(c, rs))
  {
    if rs != [] { WrapSpans(s, c, rs[..|rs| - 1]); }
  }

  lemma {:induction false} RedirsSpans(s: string, i: nat, rs: seq<Redirect<Span>>)
    requires i <= |s| && NoNul(s) && RedirectSpans(s, rs) && ParseRedirs(s, i, rs).Some?
    ensures RedirectSpans(s, ParseRedirs(s, i, rs).list)
    decreases |s| - i
  {
    hide Scan, SpanOk;
    if Peek(s, i, "<>") {
      var i1 := After(s, i);
      ScanSpan(s, i1);
      var f := Scan(s, i1);
      RedirsSpans(s, After(s, i1), rs + [Redirect(Span(f.q, f.eq), Scan(s, i).kind != Symbol('<'))]);
    }
  }

  lemma {:induction false} ArgsSpans(s: string, i: nat, args: seq<Span>, rs: seq<Redirect<Span>>)
    requires i <= |s| && NoNul(s) && AllSpans(s, Exec(args)) && RedirectSpans(s, rs) && ParseArgs(s, i, args, rs).Ok?
    ensures AllSpans(s, ParseArgs(s, i, args, rs).cmd)
    decreases |s| - i
  {
    hide Scan, SpanOk;
    if Peek(s, i, "|)&;") || Scan(s, i).kind == End {
      WrapSpans(s, Exec(args), rs);
    } else {
      var t := Scan(s, i);
      ScanSpan(s, i);
      RedirsSpans(s, After(s, i), rs);
      var r := ParseRedirs(s, After(s, i), rs);
      ArgsSpans(s, r.next, args + [Span(t.q, t.eq)], r.list);
    }
  }

  lemma {:induction false} BacksSpans(s: string, i: nat, c: Cmd<Span>)
    requires i <= |s| && NoNul(s) && AllSpans(s, c)
    ensures AllSpans(s, ParseBacks(s, i, c).cmd)
    decreases |s| - i
  {
    if Peek(s, i, "&") { BacksSpans(s, After(s, i), Back(c)); }
  }

  lemma {:induction false} ExecSpans(s: string, i: nat)
    requires i <= |s| && NoNul(s) && ParseExec(s, i).Ok?
    ensures AllSpans(s, ParseExec(s, i).cmd)
    decreases |s| - i, 1
  {
    hide SpanOk;
    if Peek(s, i, "(") {
      LineSpans(s, After(s, i));
      var r := ParseLine(s, After(s, i));
      RedirsSpans(s, After(s, r.next), []);
      WrapSpans(s, r.cmd, ParseRedirs(s, After(s, r.next), []).list);
    } else {
      RedirsSpans(s, i, []);
      var r := ParseRedirs(s, i, []);
      ArgsSpans(s, r.next, [], r.list);
    }
  }

  lemma {:induction false} PipeSpans(s: string, i: nat)
    requires i <= |s| && NoNul(s) && ParsePipe(s, i).Ok?
    ensures AllSpans(s, ParsePipe(s, i).cmd)
    decreases |s| - i, 2
  {
    ExecSpans(s, i);
    var r := ParseExec(s, i);
    if Peek(s, r.next, "|") { PipeSpans(s, After(s, r.next)); }
  }

  /** Every word of a parsed command is a whole token of the line. */
  lemma {:induction false} LineSpans(s: string, i: nat)
    requires i <= |s| && NoNul(s) && ParseLine(s, i).Ok?
    ensures AllSpans(s, ParseLine(s, i).cmd)
    decreases |s| - i, 3
  {
    PipeSpans(s, i);
    var r := ParsePipe(s, i);
    BacksSpans(s, r.next, r.cmd);
    var b := ParseBacks(s, r.next, r.cmd);
    if Peek(s, b.next, ";") { LineSpans(s, After(s, b.next)); }
  }
}
