/**
 The parser of sh.c over its line buffer: gettoken and peek move the cursor,
 the parse methods follow the grammar, nulterminate writes into the buffer.
 */
module Shell {
  import opened ShellLex
  import opened ShellParse
  import opened ShellTokens
  import opened ShellGrammar
  import opened ShellAccepts

  // ---------- Words as C strings ----------

  /** The string at address q. */
  function CString(mem: seq<char>, q: nat): string
    decreases |mem| - q
  {
    if q >= |mem| || mem[q] == '\0' then "" else [mem[q]] + CString(mem, q + 1)
  }

  function CStrings(mem: seq<char>, sps: seq<Span>): (r: seq<string>)
    ensures |r| == |sps| && forall k | 0 <= k < |sps| :: r[k] == CString(mem, sps[k].q)
  {
    seq(|sps|, k requires 0 <= k < |sps| => CString(mem, sps[k].q))
  }

  /** The command as runcmd sees it: every argv and file pointer read as a string. */
  function Seen(mem: seq<char>, c: Cmd<Span>): Cmd<string> {
    match c
    case Exec(argv) => Exec(CStrings(mem, argv))
    case Redir(a, f, out) => Redir(Seen(mem, a), CString(mem, f.q), out)
    case Pipe(a, b) => Pipe(Seen(mem, a), Seen(mem, b))
    case List(a, b) => List(Seen(mem, a), Seen(mem, b))
    case Back(a) => Back(Seen(mem, a))
  }

  /** Where nulterminate writes. */
  function Ends(c: Cmd<Span>): set<nat> {
    match c
    case Exec(argv) => ArgEnds(argv)
    case Redir(a, f, _) => Ends(a) + {f.eq}
    case Pipe(a, b) => Ends(a) + Ends(b)
    case List(a, b) => Ends(a) + Ends(b)
    case Back(a) => Ends(a)
  }

  function ArgEnds(argv: seq<Span>): set<nat> {
    set k: nat | k < |argv| :: argv[k].eq
  }

  /** The line with NULs at the given places and behind its end. */
  ghost predicate Cut(s: string, mem: seq<char>, ends: set<nat>) {
    && |mem| == |s| + 1 && mem[|s|] == '\0'
    && forall k: nat | k < |s| :: mem[k] == if k in ends then '\0' else s[k]
  }

  /** No place where a word ends lies inside a word. */
  ghost predicate BetweenWords(s: string, ends: set<nat>) {
    forall e | e in ends :: e <= |s| && (e < |s| ==> !IsWordChar(s[e]))
  }

  lemma {:induction false} WordCut(s: string, mem: seq<char>, ends: set<nat>, q: nat, eq: nat)
    requires Cut(s, mem, ends) && BetweenWords(s, ends) && q <= eq <= |s| && (eq in ends || eq == |s|)
    requires forall k | q <= k < eq :: IsWordChar(s[k])
    ensures CString(mem, q) == s[q..eq]
    decreases eq - q
  {
    if q < eq {
      WordCut(s, mem, ends, q + 1, eq);
      assert s[q..eq] == [s[q]] + s[q + 1..eq];
    }
  }

  lemma {:induction false} EndsBetween(s: string, c: Cmd<Span>)
    requires AllSpans(s, c)
    ensures BetweenWords(s, Ends(c))
  {
    match c
    case Exec(argv) => forall e | e in Ends(c) ensures e <= |s| && (e < |s| ==> !IsWordChar(s[e])) {
      var k: nat :| k < |argv| && argv[k].eq == e;
      assert SpanOk(s, argv[k]);
    }
    case Redir(a, f, _) => EndsBetween(s, a);
    case Pipe(a, b) => EndsBetween(s, a); EndsBetween(s, b);
    case List(a, b) => EndsBetween(s, a); EndsBetween(s, b);
    case Back(a) => EndsBetween(s, a);
  }

  /** Once all words end in a NUL, runcmd sees exactly the tokens of the line. */
  lemma {:induction false} SeenWhole(s: string, mem: seq<char>, ends: set<nat>, c: Cmd<Span>)
    requires Cut(s, mem, ends) && BetweenWords(s, ends) && AllSpans(s, c) && Ends(c) <= ends
    ensures Seen(mem, c) == TextOf(s, c)
  {
    hide Cut, BetweenWords;
    match c
    case Exec(argv) =>
      forall k: nat | k < |argv| ensures CString(mem, argv[k].q) == SpanText(s, argv[k]) {
        assert SpanOk(s, argv[k]);
        assert argv[k].eq in Ends(c);
        WordCut(s, mem, ends, argv[k].q, argv[k].eq);
      }
      assert CStrings(mem, argv) == SpanTexts(s, argv);
    case Redir(a, f, _) => SeenWhole(s, mem, ends, a); WordCut(s, mem, ends, f.q, f.eq);
    case Pipe(a, b) => SeenWhole(s, mem, ends, a); SeenWhole(s, mem, ends, b);
    case List(a, b) => SeenWhole(s, mem, ends, a); SeenWhole(s, mem, ends, b);
    case Back(a) => SeenWhole(s, mem, ends, a);
  }

  /** gettoken's return value. */
  function Code(k: Kind): char {
    match k
    case End => '\0'
    case Symbol(c) => c
    case Append => '+'
    case Word => 'a'
  }

  class Parser {
    /** The buffer: the line and its terminating NUL at es. */
    const line: array<char>
    const es: nat
    var ps: nat

    constructor (s: string)
      requires NoNul(s)
      ensures fresh(line) && line[..] == s + ['\0'] && es == |s| && ps == 0 && Valid() && Line() == s
    {
      line := new char[|s| + 1](k requires 0 <= k < |s| + 1 => if k < |s| then s[k] else '\0');
      es := |s|;
      ps := 0;
      new;
      assert line[..] == s + ['\0'];
      assert line[..es] == s;
    }

    /** The line. */
    ghost function Line(): string
      requires es < line.Length
      reads line
    {
      line[..es]
    }

    ghost predicate Valid()
      reads this, line
    {
      ps <= es && line.Length == es + 1 && line[es] == '\0' && NoNul(Line())
    }

    /** Moves past white space, up to the end of the line. */
    method SkipSpaces(from: nat) returns (i: nat)
      requires Valid() && from <= es
      ensures i == Skip(Line(), from)
    {
      i := from;
      while i < es && IsSpace(line[i])
        invariant from <= i <= es && Skip(Line(), i) == Skip(Line(), from)
      {
        i := i + 1;
      }
    }

    method GetToken() returns (ret: char, q: nat, eq: nat)
      requires Valid()
      modifies this`ps
      ensures Valid() && ps == After(Line(), old(ps))
      ensures Token(Scan(Line(), old(ps)).kind, q, eq) == Scan(Line(), old(ps)) && ret == Code(Scan(Line(), old(ps)).kind)
    {
      ghost var s := Line();
      q := SkipSpaces(ps);
      var i := q;
      ret := line[i];
      if ret == '\0' {
        assert i == es;
      } else if ret == '|' || ret == '(' || ret == ')' || ret == ';' || ret == '&' || ret == '<' {
        i := i + 1;
      } else if ret == '>' {
        i := i + 1;
        if line[i] == '>' {
          ret := '+';
          i := i + 1;
        }
      } else {
        ret := 'a';
        while i < es && !IsSpace(line[i]) && !IsSymbol(line[i])
          invariant q <= i <= es && WordEnd(s, i) == WordEnd(s, q)
        {
          i := i + 1;
        }
      }
      eq := i;
      assert Scan(s, old(ps)).eq == eq;
      ps := SkipSpaces(i);
    }

    method PeekAt(toks: string) returns (r: bool)
      requires Valid() && '\0' !in toks
      modifies this`ps
      ensures Valid() && ps == Skip(Line(), old(ps)) && r == Peek(Line(), old(ps), toks)
    {
      ps := SkipSpaces(ps);
      return line[ps] != '\0' && line[ps] in toks;
    }

    /** parseredirs; the redirections are kept in the order in which they enclose the command. */
    method ReadRedirs(rs0: seq<Redirect<Span>>) returns (r: Redirects)
      requires Valid()
      modifies this`ps
      ensures Valid() && old(ps) <= ps && r == ParseRedirs(Line(), old(ps), rs0) && (r.Some? ==> ps == r.next)
    {
      hide Scan, Skip, Peek, After;
      ghost var s := Line();
      var rs := rs0;
      ghost var i := ps;
      var more := PeekAt("<>");
      while more
        invariant Valid() && old(ps) <= i <= ps == Skip(s, i) && more == Peek(s, i, "<>")
        invariant ParseRedirs(s, i, rs) == ParseRedirs(s, old(ps), rs0)
        decreases |s| - i
      {
        SkipSame(s, i);
        var tok, q0, eq0 := GetToken();
        var w, q, eq := GetToken();
        if w != 'a' {
          return Bad(MissingFile);
        }
        rs := rs + [Redirect(Span(q, eq), tok != '<')];
        i := ps;
        more := PeekAt("<>");
      }
      return Some(rs, ps);
    }

    /** parseexec, when the command is not parenthesised: the loop over its words. */
    method ReadWords() returns (r: Parsed)
      requires Valid()
      modifies this`ps
      ensures Valid() && old(ps) <= ps
      ensures r == (var rr := ParseRedirs(Line(), old(ps), []); if rr.Bad? then Fail(rr.error) else ParseArgs(Line(), rr.next, [], rr.list))
      ensures r.Ok? ==> ps == r.next
    {
      hide Scan, Skip, Peek, After, ParseRedirs;
      ghost var s := Line();
      var argv: seq<Span> := [];
      var rs := ReadRedirs([]);
      if rs.Bad? { return Fail(rs.error); }
      ghost var i, start := ps, rs;
      var stop := PeekAt("|)&;");
      while !stop
        invariant Valid() && old(ps) <= i <= ps == Skip(s, i) && stop == Peek(s, i, "|)&;") && rs.Some?
        invariant ParseArgs(s, i, argv, rs.list) == ParseArgs(s, start.next, [], start.list)
        decreases |s| - i
      {
        SkipSame(s, i);
        var tok, q, eq := GetToken();
        if tok == '\0' { return Ok(Wrap(Exec(argv), rs.list), ps); }
        if tok != 'a' { return Fail(Syntax); }
        argv := argv + [Span(q, eq)];
        if |argv| >= MAXARGS { return Fail(TooManyArgs); }
        rs := ReadRedirs(rs.list);
        if rs.Bad? { return Fail(rs.error); }
        i := ps;
        stop := PeekAt("|)&;");
      }
      return Ok(Wrap(Exec(argv), rs.list), ps);
    }

    /** parseexec */
    method ReadExec() returns (r: Parsed)
      requires Valid()
      modifies this`ps
      ensures Valid() && old(ps) <= ps && r == ParseExec(Line(), old(ps)) && (r.Ok? ==> ps == r.next)
      decreases es - ps, 1
    {
      hide Scan, Skip, Peek, After, ParseRedirs, ParseArgs, ParseLine;
      ghost var s, i := Line(), ps;
      var open := PeekAt("(");
      SkipSame(s, i);
      if open {
        r := ReadBlock();
      } else {
        r := ReadWords();
        SkipRedirs(s, i);
      }
    }

    /** parseblock */
    method ReadBlock() returns (r: Parsed)
      requires Valid() && Peek(Line(), ps, "(")
      modifies this`ps
      ensures Valid() && old(ps) <= ps && r == ParseBlock(Line(), old(ps)) && (r.Ok? ==> ps == r.next)
      decreases es - ps, 0
    {
      hide Scan, Skip, Peek, After, ParseRedirs, ParseArgs, ParseLine;
      ghost var s, i := Line(), ps;
      SkipSame(s, i);
      var open := PeekAt("(");
      var tok, q, eq := GetToken();
      r := ReadLine();
      if r.Fail? { return; }
      var cmd := r.cmd;
      SkipSame(s, r.next);
      var close := PeekAt(")");
      if !close { return Fail(MissingParen); }
      tok, q, eq := GetToken();
      var rs := ReadRedirs([]);
      if rs.Bad? { return Fail(rs.error); }
      return Ok(Wrap(cmd, rs.list), ps);
    }

    /** parsepipe */
    method ReadPipe() returns (r: Parsed)
      requires Valid()
      modifies this`ps
      ensures Valid() && old(ps) <= ps && r == ParsePipe(Line(), old(ps)) && (r.Ok? ==> ps == r.next)
      decreases es - ps, 2
    {
      hide Scan, Skip, Peek, After, ParseExec;
      ghost var s := Line();
      r := ReadExec();
      if r.Fail? { return; }
      var left := r.cmd;
      SkipSame(s, ps);
      var bar := PeekAt("|");
      if !bar { return Ok(left, ps); }
      var tok, q, eq := GetToken();
      r := ReadPipe();
      if r.Ok? { r := Ok(Pipe(left, r.cmd), r.next); }
    }

    /** parseline */
    method ReadLine() returns (r: Parsed)
      requires Valid()
      modifies this`ps
      ensures Valid() && old(ps) <= ps && r == ParseLine(Line(), old(ps)) && (r.Ok? ==> ps == r.next)
      decreases es - ps, 3
    {
      hide Scan, Skip, Peek, After, ParsePipe;
      ghost var s := Line();
      r := ReadPipe();
      if r.Fail? { return; }
      var cmd := r.cmd;
      ghost var i, first := ps, r;
      SkipSame(s, ps);
      var amp := PeekAt("&");
      while amp
        invariant Valid() && old(ps) <= i <= ps == Skip(s, i) && amp == Peek(s, i, "&")
        invariant ParseBacks(s, i, cmd) == ParseBacks(s, first.next, first.cmd)
        decreases |s| - i
      {
        SkipSame(s, i);
        var tok, q, eq := GetToken();
        cmd := Back(cmd);
        i := ps;
        amp := PeekAt("&");
      }
      SkipSame(s, i);
      SkipSame(s, ps);
      i := ps;
      var semi := PeekAt(";");
      if !semi { return Ok(cmd, ps); }
      var tok, q, eq := GetToken();
      r := ReadLine();
      if r.Ok? { r := Ok(List(cmd, r.cmd), r.next); }
    }

    /** nulterminate */
    method NulTerminate(cmd: Cmd<Span>)
      requires forall e | e in Ends(cmd) :: e < line.Length
      modifies line
      ensures forall k: nat | k < line.Length :: line[k] == if k in Ends(cmd) then '\0' else old(line[k])
      decreases cmd
    {
      match cmd
      case Exec(argv) =>
        var i := 0;
        while i < |argv|
          invariant i <= |argv|
          invariant forall k: nat | k < line.Length :: line[k] == if k in ArgEnds(argv[..i]) then '\0' else old(line[k])
        {
          assert argv[i].eq in Ends(cmd);
          ArgEndsMore(argv, i);
          line[argv[i].eq] := '\0';
          i := i + 1;
        }
        assert argv[..i] == argv;
      case Redir(c, f, _) =>
        assert Ends(cmd) == Ends(c) + {f.eq};
        NulTerminate(c);
        line[f.eq] := '\0';
      case Pipe(a, b) =>
        assert Ends(cmd) == Ends(a) + Ends(b);
        NulTerminate(a);
        NulTerminate(b);
      case List(a, b) =>
        assert Ends(cmd) == Ends(a) + Ends(b);
        NulTerminate(a);
        NulTerminate(b);
      case Back(c) =>
        assert Ends(cmd) == Ends(c);
        NulTerminate(c);
    }

    /**
     parsecmd: the command that the tokens of the line spell, every word of which
     now reads as its token, or the error for the rule they break.
     */
    method ParseCommand() returns (r: Parsed)
      requires Valid() && ps == 0
      modifies this`ps, line
      ensures r == ParseCmd(old(Line())) && (r.Fail? ==> line[..] == old(line[..]))
      ensures r.Ok? ==> Seen(line[..], r.cmd) == TextOf(old(Line()), r.cmd)
      ensures r.Ok? <==> IsSpelled(Lex(old(Line()), 0))
      ensures r.Ok? ==> Spells(Lex(old(Line()), 0), Seen(line[..], r.cmd))
      ensures forall e :: r == Fail(e) <==> CmdBreaks(Lex(old(Line()), 0), e)
    {
      hide Scan, Skip, Peek, After, ParseLine, AllSpans, Ends, IsSpelled, Spells, CmdBreaks, Lex;
      ghost var s := Line();
      AcceptsIffSpelled(s);
      forall e ensures ParseCmd(s) == Fail(e) <==> CmdBreaks(Lex(s, 0), e) { RefusesIffBroken(s, e); }
      r := ReadLine();
      if r.Fail? { return; }
      LineSpans(s, 0);
      SkipSame(s, r.next);
      var none := PeekAt("");
      if ps != es {
        return Fail(Leftovers);
      }
      EndsBetween(s, r.cmd);
      NulTerminate(r.cmd);
      assert Cut(s, line[..], Ends(r.cmd));
      SeenWhole(s, line[..], Ends(r.cmd), r.cmd);
    }
  }

  lemma ArgEndsMore(argv: seq<Span>, i: nat)
    requires i < |argv|
    ensures ArgEnds(argv[..i + 1]) == ArgEnds(argv[..i]) + {argv[i].eq}
  {
    var a, b := argv[..i], argv[..i + 1];
    forall e ensures e in ArgEnds(b) <==> e in ArgEnds(a) + {argv[i].eq} {
      if e in ArgEnds(b) {
        var k: nat :| k < |b| && b[k].eq == e;
        assert k < i ==> a[k].eq == e;
      }
      if e in ArgEnds(a) {
        var k: nat :| k < |a| && a[k].eq == e;
        assert b[k].eq == e;
      }
      assert b[i].eq in ArgEnds(b);
    }
  }

  lemma SkipRedirs(s: string, i: nat)
    requires i <= |s| && NoNul(s)
    ensures ParseRedirs(s, Skip(s, i), []) == ParseRedirs(s, i, [])
  {
    SkipSame(s, i);
  }

  /** Looking first changes nothing about what comes next. */
  lemma SkipSame(s: string, i: nat)
    requires i <= |s| && NoNul(s)
    ensures Scan(s, Skip(s, i)) == Scan(s, i) && After(s, Skip(s, i)) == After(s, i)
    ensures Skip(s, Skip(s, i)) == Skip(s, i)
    ensures forall toks: string :: Peek(s, Skip(s, i), toks) == Peek(s, i, toks)
    ensures forall toks: string | Peek(s, i, toks) :: Scan(s, i).kind != End
  {
    LexSkip(s, i);
    SkipTwice(s, i);
  }
}
