/** The parser reads exactly what the grammar spells, and fails exactly where the grammar breaks. */
module ShellAccepts {
  import opened ShellLex
  import opened ShellParse
  import opened ShellTokens
  import opened ShellGrammar

  // ---------- What is spelled is read ----------

  lemma Slices<T>(ts: seq<T>, a: nat, b: nat, k: nat)
    requires a <= b <= k <= |ts|
    ensures ts[..k][a..b] == ts[a..b] == ts[a..][..b - a] && ts[a..][b - a..] == ts[b..] && ts[..k][a..] == ts[a..][..k - a]
  {
  }

  lemma {:induction false} TakesExec(ts: seq<Lexeme>, k: nat, c: Cmd<string>, tail: Tail)
    requires k <= |ts| && IsExec(ts[..k], c, tail) && ExecStops(ts[k..], tail)
    ensures TakeExec(ts) == Took(c, ts[k..])
    decreases |ts|, 2
  {
    hide TakeExec, Flat, ArgsOf, FilesOf, IsLine, BlockBy;
    if tail == Plain {
      assert ts == ts[..k] + ts[k..];
      var items :| SimpleBy(ts[..k], c, items);
      SimpleHead(items, ts[k..]);
      SimpleEnds(ts, items, ts[k..]);
      ExecPlain(ts);
    } else {
      assert IsBlock(ts[..k], c);
      var m: nat, d, items :| BlockBy(ts[..k], c, m, d, items);
      TakesBlock(ts, k, c, m, d, items);
    }
  }

  /** The two ways of parseexec. */
  lemma ExecPlain(ts: seq<Lexeme>)
    requires !HeadIn(ts, "(")
    ensures TakeExec(ts) == TakeSimple(ts, [], [])
    ensures forall e, items, rest | SimpleBroken(ts, e, items, rest) :: ExecBreaks(ts, e)
  {
    hide TakeSimple, SimpleBroken, TakeLine, LineBreaks, TakeRedirs;
  }

  lemma ExecParen(ts: seq<Lexeme>, d: Cmd<string>, rest: seq<Lexeme>)
    requires HeadIn(ts, "(") && TakeLine(ts[1..]) == Took(d, rest)
    ensures !HeadIn(rest, ")") ==> TakeExec(ts) == Broke(MissingParen)
    ensures HeadIn(rest, ")") ==>
              var f := TakeRedirs(rest[1..], []);
              TakeExec(ts) == if f.NoFile? then Broke(MissingFile) else Took(Wrap(d, f.list), f.rest)
  {
    hide TakeSimple, TakeLine, TakeRedirs;
  }

  lemma {:induction false} TakesBlock(ts: seq<Lexeme>, k: nat, c: Cmd<string>, m: nat, d: Cmd<string>, items: seq<Item>)
    requires k <= |ts| && BlockBy(ts[..k], c, m, d, items) && !HeadIn(ts[k..], "<>")
    ensures TakeExec(ts) == Took(c, ts[k..])
    decreases |ts|, 1
  {
    hide TakeExec, TakeRedirs, TakeLine, Flat, FilesOf, IsLine;
    Slices(ts, 1, m, k);
    Slices(ts, m + 1, k, k);
    assert SomeLine(ts[..k][1..m], d);
    var tl :| IsLine(ts[..k][1..m], d, tl);
    assert ts[m..][0] == Sym(')') && ts[m..][1..] == ts[m + 1..];
    TakesLine(ts[1..], m - 1, d, tl);
    ExecParen(ts, d, ts[m..]);
    assert ts[m + 1..] == ts[m + 1..][..k - (m + 1)] + ts[m + 1..][k - (m + 1)..];
    FilesEnd(ts[m + 1..], items, ts[k..]);
  }

  /** A simple command does not begin with a parenthesis. */
  lemma SimpleHead(items: seq<Item>, rest: seq<Lexeme>)
    requires Proper(items) && ExecStops(rest, Plain)
    ensures !HeadIn(Flat(items) + rest, "(")
  {
    if items != [] {
      assert items[0].File? ==> IsRedirection(items[0].op);
      assert (Flat(items) + rest)[0] == Flat(items)[0];
    } else {
      assert Flat(items) + rest == rest;
    }
  }

  lemma {:induction false} TakesPipe(ts: seq<Lexeme>, k: nat, c: Cmd<string>, tail: Tail)
    requires k <= |ts| && IsPipe(ts[..k], c, tail) && PipeStops(ts[k..], tail)
    ensures TakePipe(ts) == Took(c, ts[k..])
    decreases |ts|, 3
  {
    hide TakeExec, IsExec;
    if IsExec(ts[..k], c, tail) {
      TakesExec(ts, k, c, tail);
    } else {
      var m: nat :| PipeAt(ts[..k], c, tail, m);
      assert SomeExec(ts[..k][..m], c.left);
      var tl :| IsExec(ts[..k][..m], c.left, tl);
      assert ts[..k][..m] == ts[..m] && ts[m..][0] == Sym('|') && ts[m..][1..] == ts[m + 1..];
      TakesExec(ts, m, c.left, tl);
      Slices(ts, m + 1, k, k);
      TakesPipe(ts[m + 1..], k - m - 1, c.right, tail);
    }
  }

  /** A pipe and the & behind it: the loop over & has come to c. */
  lemma {:induction false} TakesBack(ts: seq<Lexeme>, k: nat, c: Cmd<string>, tail: Tail)
    requires k <= |ts| && IsBack(ts[..k], c, tail) && (tail == Amp || PipeStops(ts[k..], tail))
    ensures TakePipe(ts).Took? && TakeBacks(TakePipe(ts).rest, TakePipe(ts).cmd) == TakeBacks(ts[k..], c)
    decreases |ts|, 4, k
  {
    hide TakePipe, IsPipe;
    if IsPipe(ts[..k], c, tail) {
      PipeTail(ts[..k], c, tail);
      TakesPipe(ts, k, c, tail);
    } else {
      assert SomeBack(ts[..k][..k - 1], c.cmd);
      var tl :| IsBack(ts[..k][..k - 1], c.cmd, tl);
      assert ts[..k][..k - 1] == ts[..k - 1] && ts[k - 1..][0] == Sym('&') && ts[k - 1..][1..] == ts[k..];
      TakesBack(ts, k - 1, c.cmd, tl);
    }
  }

  lemma {:induction false} PipeTail(ts: seq<Lexeme>, c: Cmd<string>, tail: Tail)
    requires IsPipe(ts, c, tail)
    ensures tail != Amp
    decreases |ts|
  {
    if !IsExec(ts, c, tail) {
      var m: nat :| PipeAt(ts, c, tail, m);
      PipeTail(ts[m + 1..], c.right, tail);
    }
  }

  lemma {:induction false} TakesLine(ts: seq<Lexeme>, k: nat, c: Cmd<string>, tail: Tail)
    requires k <= |ts| && IsLine(ts[..k], c, tail) && LineStops(ts[k..], tail)
    ensures TakeLine(ts) == Took(c, ts[k..])
    decreases |ts|, 5
  {
    hide TakePipe, IsBack;
    if IsBack(ts[..k], c, tail) {
      TakesBack(ts, k, c, tail);
    } else {
      var m: nat :| LineAt(ts[..k], c, tail, m);
      assert SomeBack(ts[..k][..m], c.left);
      var tl :| IsBack(ts[..k][..m], c.left, tl);
      assert ts[..k][..m] == ts[..m] && ts[m..][0] == Sym(';') && ts[m..][1..] == ts[m + 1..];
      TakesBack(ts, m, c.left, tl);
      Slices(ts, m + 1, k, k);
      TakesLine(ts[m + 1..], k - m - 1, c.right, tail);
    }
  }

  // ---------- What is read was spelled, and what fails was broken ----------

  lemma SymHead(ts: seq<Lexeme>, k: nat, c: char)
    requires k <= |ts| && HeadIn(ts[k..], [c]) && c != '>' && c != ' '
    ensures k < |ts| && ts[k] == Sym(c) && ts[k..][1..] == ts[k + 1..]
  {
    assert ts[k..][0] == ts[k];
  }

  lemma ReadsSimple(ts: seq<Lexeme>) returns (k: nat)
    requires !HeadIn(ts, "(")
    ensures var o := TakeExec(ts);
            if o.Took? then k <= |ts| && IsExec(ts[..k], o.cmd, Plain) && o.rest == ts[k..] && ExecStops(ts[k..], Plain)
            else ExecBreaks(ts, o.error)
  {
    hide Flat, ArgsOf, FilesOf, TakeSimple, TakeExec, ExecBreaks, IsBlock;
    var items, rest := Itemize(ts, 0);
    SimpleEnds(ts, items, rest);
    ExecPlain(ts);
    k := |Flat(items)|;
    assert ts[..k] == Flat(items) && ts[k..] == rest;
    if rest == [] || HeadIn(rest, "|)&;") {
      assert SimpleBy(ts[..k], TakeExec(ts).cmd, items);
    } else {
      var e :| Cause(rest, |ArgsOf(items)|, e);
      assert SimpleBroken(ts, e, items, rest);
    }
  }

  /** Behind '(' and a line. */
  lemma ReadsBlock(ts: seq<Lexeme>, k: nat, d: Cmd<string>, tail: Tail) returns (n: nat)
    requires HeadIn(ts, "(") && 0 < k <= |ts| && TakeLine(ts[1..]) == Took(d, ts[k..])
    requires IsLine(ts[1..k], d, tail) && LineStops(ts[k..], tail)
    ensures var o := TakeExec(ts);
            if o.Took? then n <= |ts| && IsExec(ts[..n], o.cmd, Paren) && o.rest == ts[n..] && ExecStops(ts[n..], Paren)
            else ExecBreaks(ts, o.error)
  {
    hide Flat, FilesOf, TakeLine, TakeExec, IsLine, TakeRedirs;
    n := k;
    ExecParen(ts, d, ts[k..]);
    if HeadIn(ts[k..], ")") {
      SymHead(ts, k, ')');
      SymHead(ts, 0, '(') by { assert ts[0..] == ts; }
      var items, rest := Filed(ts[k + 1..]);
      FilesEnd(ts[k + 1..], items, rest);
      if HeadIn(rest, "<>") {
        assert FilesBroken(ts[k + 1..], items, rest);
        assert BlockBroken(ts, MissingFile, k, d, tail);
      } else {
        n := k + 1 + |Flat(items)|;
        BlockSpelled(ts, k, d, tail, items, rest);
        assert BlockBy(ts[..n], TakeExec(ts).cmd, k, d, items);
        assert IsBlock(ts[..n], TakeExec(ts).cmd);
      }
    } else {
      assert BlockBroken(ts, MissingParen, k, d, tail);
    }
  }

  lemma BlockSpelled(ts: seq<Lexeme>, k: nat, d: Cmd<string>, tail: Tail, items: seq<Item>, rest: seq<Lexeme>)
    requires 0 < k < |ts| && ts[0] == Sym('(') && ts[k] == Sym(')') && IsLine(ts[1..k], d, tail)
    requires ts[k + 1..] == Flat(items) + rest && Proper(items) && forall j | 0 <= j < |items| :: items[j].File?
    ensures var n := k + 1 + |Flat(items)|;
            n <= |ts| && ts[n..] == rest && BlockBy(ts[..n], Wrap(d, FilesOf(items)), k, d, items)
  {
    hide Flat, FilesOf, IsLine;
    var n := k + 1 + |Flat(items)|;
    assert ts[n..] == ts[k + 1..][|Flat(items)|..];
    assert ts[..n][k + 1..] == ts[k + 1..][..|Flat(items)|] == Flat(items);
    assert ts[..n][1..k] == ts[1..k];
    assert SomeLine(ts[1..k], d);
  }

  lemma {:induction false} ReadsExec(ts: seq<Lexeme>) returns (k: nat, tail: Tail)
    ensures var o := TakeExec(ts);
            if o.Took? then k <= |ts| && IsExec(ts[..k], o.cmd, tail) && o.rest == ts[k..] && ExecStops(ts[k..], tail)
            else ExecBreaks(ts, o.error)
    decreases |ts|, 1
  {
    hide TakeSimple, TakeLine, IsExec, IsLine, LineBreaks;
    if HeadIn(ts, "(") {
      k, tail := ReadsLine(ts[1..]);
      var o := TakeLine(ts[1..]);
      if o.Took? {
        assert ts[1..][..k] == ts[1..k + 1] && ts[1..][k..] == ts[k + 1..];
        k := ReadsBlock(ts, k + 1, o.cmd, tail);
        tail := Paren;
      }
    } else {
      k := ReadsSimple(ts);
      tail := Plain;
    }
  }

  lemma {:induction false} ReadsPipe(ts: seq<Lexeme>) returns (k: nat, tail: Tail)
    ensures var o := TakePipe(ts);
            if o.Took? then k <= |ts| && IsPipe(ts[..k], o.cmd, tail) && o.rest == ts[k..] && PipeStops(ts[k..], tail)
            else PipeBreaks(ts, o.error)
    decreases |ts|, 2
  {
    hide TakeExec, IsExec, ExecBreaks, ExecStops;
    k, tail := ReadsExec(ts);
    var o := TakeExec(ts);
    if o.Took? && HeadIn(o.rest, "|") {
      var m := k;
      SymHead(ts, m, '|');
      assert SomeExec(ts[..m], o.cmd);
      k, tail := ReadsPipe(ts[m + 1..]);
      var o2 := TakePipe(ts[m + 1..]);
      if o2.Took? {
        var n := m + 1 + k;
        assert ts[..n][..m] == ts[..m] && ts[..n][m + 1..] == ts[m + 1..][..k] && ts[m + 1..][k..] == ts[n..];
        assert PipeAt(ts[..n], Pipe(o.cmd, o2.cmd), tail, m);
        k := n;
      } else {
        assert PipeBroken(ts, o2.error, m, o.cmd);
      }
    }
  }

  lemma {:induction false} ReadsBacks(ts: seq<Lexeme>, k: nat, c: Cmd<string>, tail: Tail) returns (n: nat, tl: Tail)
    requires k <= |ts| && IsBack(ts[..k], c, tail) && (tail == Amp || PipeStops(ts[k..], tail))
    ensures var o := TakeBacks(ts[k..], c);
            n <= |ts| && IsBack(ts[..n], o.cmd, tl) && o.rest == ts[n..] && BackStops(ts[n..], tl)
    decreases |ts| - k
  {
    hide IsPipe;
    n, tl := k, tail;
    if HeadIn(ts[k..], "&") {
      SymHead(ts, k, '&');
      assert ts[..k + 1][..k] == ts[..k];
      assert SomeBack(ts[..k], c);
      n, tl := ReadsBacks(ts, k + 1, Back(c), Amp);
    }
  }

  lemma {:induction false} ReadsLine(ts: seq<Lexeme>) returns (k: nat, tail: Tail)
    ensures var o := TakeLine(ts);
            if o.Took? then k <= |ts| && IsLine(ts[..k], o.cmd, tail) && o.rest == ts[k..] && LineStops(ts[k..], tail)
            else LineBreaks(ts, o.error)
    decreases |ts|, 3
  {
    hide TakePipe, TakeBacks, IsBack, PipeBreaks, BackStops;
    k, tail := ReadsPipe(ts);
    var p := TakePipe(ts);
    if p.Took? {
      PipeIsBack(ts[..k], p.cmd, tail);
      var m, tl := ReadsBacks(ts, k, p.cmd, tail);
      var b := TakeBacks(p.rest, p.cmd);
      k, tail := m, tl;
      if HeadIn(b.rest, ";") {
        SymHead(ts, m, ';');
        assert SomeBack(ts[..m], b.cmd);
        k, tail := ReadsLine(ts[m + 1..]);
        var o2 := TakeLine(ts[m + 1..]);
        if o2.Took? {
          var n := m + 1 + k;
          assert ts[..n][..m] == ts[..m] && ts[..n][m + 1..] == ts[m + 1..][..k] && ts[m + 1..][k..] == ts[n..];
          assert LineAt(ts[..n], List(b.cmd, o2.cmd), tail, m);
          k := n;
        } else {
          assert LineBroken(ts, o2.error, m, b.cmd);
        }
      }
    }
  }

  lemma PipeIsBack(ts: seq<Lexeme>, c: Cmd<string>, tail: Tail)
    requires IsPipe(ts, c, tail)
    ensures IsBack(ts, c, tail)
  {
    hide IsPipe;
  }

  // ---------- What is broken fails ----------

  lemma {:induction false} FailsExec(ts: seq<Lexeme>, e: Error)
    requires ExecBreaks(ts, e)
    ensures TakeExec(ts) == Broke(e)
    decreases |ts|, 1
  {
    hide TakeSimple, TakeLine, IsLine, LineBreaks, Flat, ArgsOf, FilesOf, TakeRedirs;
    if !HeadIn(ts, "(") {
      var items, rest :| SimpleBroken(ts, e, items, rest);
      SimpleEnds(ts, items, rest);
      ExecPlain(ts);
    } else if LineBreaks(ts[1..], e) {
      FailsLine(ts[1..], e);
    } else {
      var k: nat, d, tail :| BlockBroken(ts, e, k, d, tail);
      assert ts[1..][..k - 1] == ts[1..k] && ts[1..][k - 1..] == ts[k..];
      TakesLine(ts[1..], k - 1, d, tail);
      if HeadIn(ts[k..], ")") {
        SymHead(ts, k, ')');
        var items, rest :| FilesBroken(ts[k + 1..], items, rest);
        FilesEnd(ts[k + 1..], items, rest);
      }
    }
  }

  lemma {:induction false} FailsPipe(ts: seq<Lexeme>, e: Error)
    requires PipeBreaks(ts, e)
    ensures TakePipe(ts) == Broke(e)
    decreases |ts|, 2
  {
    hide TakeExec, IsExec, ExecBreaks;
    if ExecBreaks(ts, e) {
      FailsExec(ts, e);
    } else {
      var k: nat, d :| PipeBroken(ts, e, k, d);
      assert SomeExec(ts[..k], d);
      var tail :| IsExec(ts[..k], d, tail);
      assert ts[k..][0] == Sym('|') && ts[k..][1..] == ts[k + 1..];
      TakesExec(ts, k, d, tail);
      FailsPipe(ts[k + 1..], e);
    }
  }

  lemma {:induction false} FailsLine(ts: seq<Lexeme>, e: Error)
    requires LineBreaks(ts, e)
    ensures TakeLine(ts) == Broke(e)
    decreases |ts|, 3
  {
    hide TakePipe, IsBack, PipeBreaks;
    if PipeBreaks(ts, e) {
      FailsPipe(ts, e);
    } else {
      var k: nat, d :| LineBroken(ts, e, k, d);
      assert SomeBack(ts[..k], d);
      var tail :| IsBack(ts[..k], d, tail);
      assert ts[k..][0] == Sym(';') && ts[k..][1..] == ts[k + 1..];
      TakesBack(ts, k, d, tail);
      FailsLine(ts[k + 1..], e);
    }
  }

  // ---------- Lines ----------

  /** The tokens of a whole line spell command c. */
  ghost predicate Spells(ts: seq<Lexeme>, c: Cmd<string>) {
    SomeLine(ts, c)
  }

  ghost predicate IsSpelled(ts: seq<Lexeme>) {
    exists c :: Spells(ts, c)
  }

  lemma TakesSpelled(ts: seq<Lexeme>, c: Cmd<string>)
    requires Spells(ts, c)
    ensures TakeCmd(ts) == Took(c, [])
  {
    hide TakeLine, IsLine;
    assert SomeLine(ts, c);
    var tail :| IsLine(ts, c, tail);
    assert ts[..|ts|] == ts && ts[|ts|..] == [];
    TakesLine(ts, |ts|, c, tail);
  }

  lemma TakesBroken(ts: seq<Lexeme>, e: Error)
    requires CmdBreaks(ts, e)
    ensures TakeCmd(ts) == Broke(e)
  {
    hide TakeLine, IsLine, LineBreaks;
    if LineBreaks(ts, e) {
      FailsLine(ts, e);
    } else {
      var k: nat, d, tail :| LeftOver(ts, k, d, tail);
      TakesLine(ts, k, d, tail);
      assert ts[k..] != [];
    }
  }

  lemma ReadsCmd(ts: seq<Lexeme>)
    ensures var o := TakeCmd(ts); if o.Took? then o.rest == [] && Spells(ts, o.cmd) else CmdBreaks(ts, o.error)
  {
    hide TakeLine, IsLine, LineBreaks, LineStops;
    var k, tail := ReadsLine(ts);
    var o := TakeLine(ts);
    if o.Took? {
      if o.rest == [] {
        assert ts[..k] == ts;
      } else {
        assert LeftOver(ts, k, o.cmd, tail);
      }
    }
  }

  /**
   The shell accepts a line exactly if its tokens spell a command, and reads it
   as that command; no line spells two.
   */
  lemma AcceptsIffSpelled(s: string)
    requires NoNul(s)
    ensures ParseCmd(s).Ok? <==> IsSpelled(Lex(s, 0))
    ensures ParseCmd(s).Ok? ==> forall c :: Spells(Lex(s, 0), c) <==> c == TextOf(s, ParseCmd(s).cmd)
  {
    hide ParseCmd, TakeCmd, Spells, CmdBreaks;
    CmdAgrees(s);
    ReadsCmd(Lex(s, 0));
    forall c | Spells(Lex(s, 0), c) ensures TakeCmd(Lex(s, 0)) == Took(c, []) { TakesSpelled(Lex(s, 0), c); }
  }

  /** It reports an error exactly if the tokens break the rule the error stands for. */
  lemma RefusesIffBroken(s: string, e: Error)
    requires NoNul(s)
    ensures ParseCmd(s) == Fail(e) <==> CmdBreaks(Lex(s, 0), e)
  {
    hide ParseCmd, TakeCmd, Spells, CmdBreaks;
    CmdAgrees(s);
    ReadsCmd(Lex(s, 0));
    if CmdBreaks(Lex(s, 0), e) { TakesBroken(Lex(s, 0), e); }
  }

  /** In a line the token behind a simple command that is a syntax error is an opening parenthesis. */
  lemma SyntaxIsParen(s: string, i: nat)
    requires i <= |s| && NoNul(s) && Cause(Lex(s, i), 0, Syntax)
    ensures Lex(s, i)[0] == Sym('(')
  {
    LexStep(s, i);
  }
}
