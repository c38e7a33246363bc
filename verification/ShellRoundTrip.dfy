/** Printing a command, with parentheses where the grammar needs them, and parsing it gives the command back. */
module ShellRoundTrip {
  import opened ShellLex
  import opened ShellParse
  import opened ShellTokens
  import opened ShellGrammar
  import opened ShellAccepts

  // ---------- The printer ----------

  /** The grammar level at which a command needs no parentheses: 0 line, 1 before ; , 2 pipe, 3 exec. */
  function Home<T>(c: Cmd<T>): nat {
    match c
    case List(_, _) => 0
    case Back(_) => 1
    case Pipe(_, _) => 2
    case Exec(_) => 3
    case Redir(_, _, _) => 3
  }

  /** Levels still to go through, parentheses leading from 3 back to 0. */
  function Rank<T>(c: Cmd<T>, level: nat): nat
    requires level < 4
  {
    if level <= Home(c) then Home(c) - level else Home(c) + 4 - level
  }

  function Words(ws: seq<string>): (r: seq<Lexeme>)
    ensures |r| == |ws| && forall k | 0 <= k < |ws| :: r[k] == Text(ws[k])
  {
    seq(|ws|, k requires 0 <= k < |ws| => Text(ws[k]))
  }

  function RedirTok(file: string, out: bool): seq<Lexeme> {
    [Sym(if out then '>' else '<'), Text(file)]
  }

  function Tok(c: Cmd<string>, level: nat): seq<Lexeme>
    requires level < 4
    decreases c, Rank(c, level)
  {
    if level == Home(c) then
      match c
      case List(a, b) => Tok(a, 1) + [Sym(';')] + Tok(b, 0)
      case Back(a) => Tok(a, 1) + [Sym('&')]
      case Pipe(a, b) => Tok(a, 3) + [Sym('|')] + Tok(b, 2)
      case Exec(ws) => Words(ws)
      case Redir(a, f, out) => Tok(a, 3) + RedirTok(f, out)
    else if level == 3 then [Sym('(')] + Tok(c, 0) + [Sym(')')]
    else Tok(c, level + 1)
  }

  predicate Legal(c: Cmd<string>) {
    match c
    case Exec(ws) => |ws| < MAXARGS && forall k | 0 <= k < |ws| :: LegalWord(ws[k])
    case Redir(a, f, _) => Legal(a) && LegalWord(f)
    case Pipe(a, b) => Legal(a) && Legal(b)
    case List(a, b) => Legal(a) && Legal(b)
    case Back(a) => Legal(a)
  }

  function Print(c: Cmd<string>): string {
    Render(Tok(c, 0))
  }

  // ---------- What is printed is spelled ----------

  lemma {:induction false} FlatMore(items: seq<Item>, x: Item)
    requires x.File?
    ensures Flat(items + [x]) == Flat(items) + [x.op, Text(x.w)]
    ensures ArgsOf(items + [x]) == ArgsOf(items) && FilesOf(items + [x]) == FilesOf(items) + [Redirect(x.w, x.op != Sym('<'))]
    decreases |items|
  {
    hide Flat, ArgsOf, FilesOf;
    var all := items + [x];
    FirstItem(all);
    if items == [] {
      assert all == [x] && all[1..] == [];
      NoItems([]);
    } else {
      assert all[1..] == items[1..] + [x];
      FlatMore(items[1..], x);
      FirstItem(items);
    }
  }

  /** One more redirection. */
  lemma FileAdded(ts: seq<Lexeme>, a: Cmd<string>, tail: Tail, x: Item)
    requires IsExec(ts, a, tail) && x.File? && IsRedirection(x.op)
    ensures IsExec(ts + [x.op, Text(x.w)], Redir(a, x.w, x.op != Sym('<')), tail)
  {
    hide BlockBy, SimpleBy;
    if tail == Plain {
      var items :| SimpleBy(ts, a, items);
      FileToSimple(ts, a, items, x);
    } else {
      assert IsBlock(ts, a);
      var k: nat, d, items :| BlockBy(ts, a, k, d, items);
      FileToBlock(ts, a, k, d, items, x);
      assert IsBlock(ts + [x.op, Text(x.w)], Redir(a, x.w, x.op != Sym('<')));
    }
  }

  lemma FileToSimple(ts: seq<Lexeme>, a: Cmd<string>, items: seq<Item>, x: Item)
    requires SimpleBy(ts, a, items) && x.File? && IsRedirection(x.op)
    ensures SimpleBy(ts + [x.op, Text(x.w)], Redir(a, x.w, x.op != Sym('<')), items + [x])
  {
    FlatMore(items, x);
    WrapMore(Exec(ArgsOf(items)), FilesOf(items), Redirect(x.w, x.op != Sym('<')));
    hide Flat, ArgsOf, FilesOf;
  }

  lemma FileToBlock(ts: seq<Lexeme>, a: Cmd<string>, k: nat, d: Cmd<string>, items: seq<Item>, x: Item)
    requires BlockBy(ts, a, k, d, items) && x.File? && IsRedirection(x.op)
    ensures BlockBy(ts + [x.op, Text(x.w)], Redir(a, x.w, x.op != Sym('<')), k, d, items + [x])
  {
    hide Flat, ArgsOf, FilesOf, IsLine;
    FlatMore(items, x);
    WrapMore(d, FilesOf(items), Redirect(x.w, x.op != Sym('<')));
    var more := ts + [x.op, Text(x.w)];
    assert more[1..k] == ts[1..k] && more[k + 1..] == ts[k + 1..] + [x.op, Text(x.w)];
  }

  lemma WrapMore(c: Cmd<string>, rs: seq<Redirect<string>>, r: Redirect<string>)
    ensures Wrap(c, rs + [r]) == Redir(Wrap(c, rs), r.file, r.out)
  {
    assert (rs + [r])[..|rs|] == rs;
  }

  function AsArgs(ws: seq<string>): (items: seq<Item>)
    ensures |items| == |ws| && forall k | 0 <= k < |ws| :: items[k] == Arg(ws[k])
  {
    seq(|ws|, k requires 0 <= k < |ws| => Arg(ws[k]))
  }

  lemma {:induction false} WordsFlat(ws: seq<string>)
    ensures Flat(AsArgs(ws)) == Words(ws) && ArgsOf(AsArgs(ws)) == ws && FilesOf(AsArgs(ws)) == []
  {
    hide Flat, ArgsOf, FilesOf;
    NoItems([]);
    if ws != [] {
      WordsFlat(ws[1..]);
      assert AsArgs(ws)[1..] == AsArgs(ws[1..]) && Words(ws) == [Text(ws[0])] + Words(ws[1..]);
      FirstItem(AsArgs(ws));
    }
  }

  lemma WordsSpelled(ws: seq<string>)
    requires |ws| < MAXARGS
    ensures IsExec(Words(ws), Exec(ws), Plain)
  {
    WordsFlat(ws);
    assert SimpleBy(Words(ws), Exec(ws), AsArgs(ws));
  }

  lemma ParenSpelled(inner: seq<Lexeme>, c: Cmd<string>, tail: Tail)
    requires IsLine(inner, c, tail)
    ensures IsExec([Sym('(')] + inner + [Sym(')')], c, Paren)
  {
    hide IsLine;
    var ts, k := [Sym('(')] + inner + [Sym(')')], |inner| + 1;
    assert ts[1..k] == inner && ts[k + 1..] == [] == Flat([]);
    assert SomeLine(inner, c);
    assert BlockBy(ts, c, k, c, []);
    assert IsBlock(ts, c);
  }

  /** The tokens printed for a command spell it at every level of the grammar. */
  lemma {:induction false} TokSpelled(c: Cmd<string>, level: nat) returns (tail: Tail)
    requires Legal(c) && level < 4
    ensures level == 3 ==> IsExec(Tok(c, 3), c, tail)
    ensures level == 2 ==> IsPipe(Tok(c, 2), c, tail)
    ensures level == 1 ==> IsBack(Tok(c, 1), c, tail)
    ensures level == 0 ==> IsLine(Tok(c, 0), c, tail)
    decreases c, 1 + Rank(c, level)
  {
    hide IsExec, IsPipe, IsBack, IsLine;
    if level == 3 {
      match c
      case Exec(ws) =>
        tail := Plain;
        WordsSpelled(ws);
      case Redir(a, f, out) =>
        tail := TokSpelled(a, 3);
        FileAdded(Tok(a, 3), a, tail, File(Sym(if out then '>' else '<'), f));
      case _ =>
        tail := TokSpelled(c, 0);
        ParenSpelled(Tok(c, 0), c, tail);
        tail := Paren;
    } else if level != Home(c) {
      tail := TokSpelled(c, level + 1);
      Lifted(Tok(c, level), c, tail);
    } else {
      tail := Joined(c);
    }
  }

  /** What a level spells the levels above it spell. */
  lemma Lifted(ts: seq<Lexeme>, c: Cmd<string>, tail: Tail)
    ensures IsExec(ts, c, tail) ==> IsPipe(ts, c, tail)
    ensures IsPipe(ts, c, tail) ==> IsBack(ts, c, tail)
    ensures IsBack(ts, c, tail) ==> IsLine(ts, c, tail)
  {
    hide IsExec;
  }

  lemma {:induction false} Joined(c: Cmd<string>) returns (tail: Tail)
    requires Legal(c) && (c.List? || c.Back? || c.Pipe?)
    ensures c.Pipe? ==> IsPipe(Tok(c, 2), c, tail)
    ensures c.Back? ==> IsBack(Tok(c, 1), c, tail)
    ensures c.List? ==> IsLine(Tok(c, 0), c, tail)
    decreases c, 0
  {
    hide IsExec;
    match c
    case Pipe(a, b) =>
      var tl := TokSpelled(a, 3);
      tail := TokSpelled(b, 2);
      PipeJoined(Tok(a, 3), Tok(b, 2), a, b, tl, tail);
    case Back(a) =>
      var tl := TokSpelled(a, 1);
      tail := Amp;
      BackJoined(Tok(a, 1), a, tl);
    case List(a, b) =>
      var tl := TokSpelled(a, 1);
      tail := TokSpelled(b, 0);
      ListJoined(Tok(a, 1), Tok(b, 0), a, b, tl, tail);
  }

  lemma PipeJoined(x: seq<Lexeme>, y: seq<Lexeme>, a: Cmd<string>, b: Cmd<string>, tl: Tail, tail: Tail)
    requires IsExec(x, a, tl) && IsPipe(y, b, tail)
    ensures IsPipe(x + [Sym('|')] + y, Pipe(a, b), tail)
  {
    hide IsExec;
    var ts := x + [Sym('|')] + y;
    assert ts[..|x|] == x && ts[|x| + 1..] == y;
    assert SomeExec(x, a);
    assert PipeAt(ts, Pipe(a, b), tail, |x|);
  }

  lemma BackJoined(x: seq<Lexeme>, a: Cmd<string>, tl: Tail)
    requires IsBack(x, a, tl)
    ensures IsBack(x + [Sym('&')], Back(a), Amp)
  {
    hide IsPipe;
    assert (x + [Sym('&')])[..|x|] == x;
    assert SomeBack(x, a);
  }

  lemma ListJoined(x: seq<Lexeme>, y: seq<Lexeme>, a: Cmd<string>, b: Cmd<string>, tl: Tail, tail: Tail)
    requires IsBack(x, a, tl) && IsLine(y, b, tail)
    ensures IsLine(x + [Sym(';')] + y, List(a, b), tail)
  {
    hide IsBack;
    var ts := x + [Sym(';')] + y;
    assert ts[..|x|] == x && ts[|x| + 1..] == y;
    assert SomeBack(x, a);
    assert LineAt(ts, List(a, b), tail, |x|);
  }

  // ---------- The round trip ----------

  /** Any line that spells the tokens of a command, with whatever spacing, parses to that command. */
  lemma ParsesTokens(s: string, c: Cmd<string>)
    requires NoNul(s) && Legal(c) && Lex(s, 0) == Tok(c, 0)
    ensures ParseCmd(s).Ok? && TextOf(s, ParseCmd(s).cmd) == c
  {
    hide ParseCmd, IsLine, Tok;
    var tail := TokSpelled(c, 0);
    assert Spells(Lex(s, 0), c);
    AcceptsIffSpelled(s);
  }

  lemma {:induction false} TokLegal(c: Cmd<string>, level: nat)
    requires Legal(c) && level < 4
    ensures forall k | 0 <= k < |Tok(c, level)| :: LegalLexeme(Tok(c, level)[k])
    decreases c, Rank(c, level)
  {
    if level == Home(c) {
      match c
      case List(a, b) => TokLegal(a, 1); TokLegal(b, 0);
      case Back(a) => TokLegal(a, 1);
      case Pipe(a, b) => TokLegal(a, 3); TokLegal(b, 2);
      case Exec(ws) =>
      case Redir(a, f, out) => TokLegal(a, 3);
    } else if level == 3 {
      TokLegal(c, 0);
    } else {
      TokLegal(c, level + 1);
    }
  }

  /** Parsing what was printed gives the command back, for every command with legal words and at most 9 arguments each. */
  lemma RoundTrip(c: Cmd<string>)
    requires Legal(c)
    ensures NoNul(Print(c)) && ParseCmd(Print(c)).Ok? && TextOf(Print(c), ParseCmd(Print(c)).cmd) == c
  {
    hide ParseCmd, Tok, Render;
    TokLegal(c, 0);
    RenderNoNul(Tok(c, 0));
    assert Print(c)[0..] == Render(Tok(c, 0));
    LexRender(Print(c), 0, Tok(c, 0));
    ParsesTokens(Print(c), c);
  }

  // ---------- >> ----------

  /** At every position >> and > do the same: the file is opened for writing, and not at its end. */
  lemma AppendIsWrite(s: string, i: nat, rs: seq<Redirect<Span>>)
    requires i <= |s| && NoNul(s) && (Scan(s, i).kind == Append || Scan(s, i).kind == Symbol('>'))
    requires Scan(s, After(s, i)).kind == Word
    ensures var f := Scan(s, After(s, i));
            ParseRedirs(s, i, rs) == ParseRedirs(s, After(s, After(s, i)), rs + [Redirect(Span(f.q, f.eq), true)])
  {
    PeekIs(s, i, "<>");
    LexStep(s, i);
  }

  /** The line of one redirection. */
  lemma RedirLine(s: string, l: Lexeme, f: string)
    requires NoNul(s) && Lex(s, 0) == [l, Text(f)] && (l == Double || l == Sym('>'))
    ensures ParseCmd(s).Ok? && TextOf(s, ParseCmd(s).cmd) == Redir(Exec([]), f, true)
  {
    hide ParseCmd, Lex;
    var ts, c, items := [l, Text(f)], Redir(Exec([]), f, true), [File(l, f)];
    OneFile(l, f);
    assert SimpleBy(ts, c, items);
    assert IsExec(ts, c, Plain);
    Lifted(ts, c, Plain);
    assert Spells(ts, c);
    AcceptsIffSpelled(s);
  }

  lemma OneFile(l: Lexeme, f: string)
    ensures var items := [File(l, f)];
            && Flat(items) == [l, Text(f)] && ArgsOf(items) == []
            && Wrap(Exec([]), FilesOf(items)) == Redir(Exec([]), f, l != Sym('<'))
  {
    var items := [File(l, f)];
    assert items[1..] == [] && FilesOf(items) == [Redirect(f, l != Sym('<'))];
  }

  lemma RenderedRedir(l: Lexeme, f: string)
    requires LegalWord(f) && (l == Double || l == Sym('>'))
    ensures var a := Render([l, Text(f)]);
            NoNul(a) && ParseCmd(a).Ok? && TextOf(a, ParseCmd(a).cmd) == Redir(Exec([]), f, true)
  {
    hide ParseCmd, Render, TextOf, Lex;
    var ts := [l, Text(f)];
    RenderNoNul(ts);
    assert Render(ts)[0..] == Render(ts);
    LexRender(Render(ts), 0, ts);
    RedirLine(Render(ts), l, f);
  }

  lemma LinesDiffer(f: string)
    ensures Render([Double, Text(f)]) != Render([Sym('>'), Text(f)])
  {
    assert Render([Double, Text(f)])[1] == '>' && Render([Sym('>'), Text(f)])[1] == ' ';
  }

  /** Two lines that differ only in >> and > are the same command to the shell, for every file name; "f" is one. */
  lemma AppendLine(f: string)
    requires LegalWord(f)
    ensures var a, w := Render([Double, Text(f)]), Render([Sym('>'), Text(f)]);
            && a != w && NoNul(a) && NoNul(w) && ParseCmd(a).Ok? && ParseCmd(w).Ok?
            && TextOf(a, ParseCmd(a).cmd) == TextOf(w, ParseCmd(w).cmd) == Redir(Exec([]), f, true)
    ensures LegalWord("f")
  {
    hide ParseCmd, Render, TextOf;
    LinesDiffer(f);
    RenderedRedir(Double, f);
    RenderedRedir(Sym('>'), f);
  }
}
