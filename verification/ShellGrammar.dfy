/**
 The language of the shell, told as a grammar on token sequences:

   line  = back [';' line]            back = pipe {'&'}
   pipe  = exec ['|' pipe]            exec = '(' line ')' {file} | {word | file}
   file  = ('<' | '>' | '>>') word

 and which sequences break which rule. The parser accepts exactly this language
 and reports exactly these errors.
 */
module ShellGrammar {
  import opened ShellLex
  import opened ShellParse
  import opened ShellTokens

  // ---------- The grammar ----------

  /** What a reading ended with: a word or file of a simple command, a parenthesised command with its files, or &. */
  datatype Tail = Plain | Paren | Amp

  /** A word, or a redirection with its symbol. */
  datatype Item = Arg(w: string) | File(op: Lexeme, w: string)

  predicate IsRedirection(l: Lexeme) { l == Sym('<') || l == Sym('>') || l == Double }

  function Flat(items: seq<Item>): seq<Lexeme> {
    if items == [] then []
    else (match items[0]
          case Arg(w) => [Text(w)]
          case File(op, w) => [op, Text(w)]) + Flat(items[1..])
  }

  function ArgsOf(items: seq<Item>): seq<string> {
    if items == [] then [] else (if items[0].Arg? then [items[0].w] else []) + ArgsOf(items[1..])
  }

  function FilesOf(items: seq<Item>): seq<Redirect<string>> {
    if items == [] then [] else (if items[0].File? then [Redirect(items[0].w, items[0].op != Sym('<'))] else []) + FilesOf(items[1..])
  }

  predicate Proper(items: seq<Item>) {
    forall k | 0 <= k < |items| && items[k].File? :: IsRedirection(items[k].op)
  }

  ghost predicate SimpleBy(ts: seq<Lexeme>, c: Cmd<string>, items: seq<Item>) {
    Proper(items) && ts == Flat(items) && |ArgsOf(items)| < 10 && c == Wrap(Exec(ArgsOf(items)), FilesOf(items))
  }

  /** Redirections only. */
  ghost predicate FilesBy(ts: seq<Lexeme>, items: seq<Item>) {
    Proper(items) && ts == Flat(items) && forall k | 0 <= k < |items| :: items[k].File?
  }

  ghost predicate IsBlock(ts: seq<Lexeme>, c: Cmd<string>)
    decreases |ts|, 1
  {
    exists k: nat, d, items :: BlockBy(ts, c, k, d, items)
  }

  ghost predicate BlockBy(ts: seq<Lexeme>, c: Cmd<string>, k: nat, d: Cmd<string>, items: seq<Item>)
    decreases |ts|, 0
  {
    && 0 < k < |ts| && ts[0] == Sym('(') && ts[k] == Sym(')') && SomeLine(ts[1..k], d)
    && FilesBy(ts[k + 1..], items) && c == Wrap(d, FilesOf(items))
  }

  ghost predicate IsExec(ts: seq<Lexeme>, c: Cmd<string>, tail: Tail)
    decreases |ts|, 2
  {
    match tail
    case Plain => exists items :: SimpleBy(ts, c, items)
    case Paren => IsBlock(ts, c)
    case Amp => false
  }

  ghost predicate IsPipe(ts: seq<Lexeme>, c: Cmd<string>, tail: Tail)
    decreases |ts|, 3
  {
    IsExec(ts, c, tail) || (c.Pipe? && exists k: nat :: PipeAt(ts, c, tail, k))
  }

  ghost predicate PipeAt(ts: seq<Lexeme>, c: Cmd<string>, tail: Tail, k: nat)
    requires c.Pipe?
    decreases |ts|, 0
  {
    k < |ts| && ts[k] == Sym('|') && SomeExec(ts[..k], c.left) && IsPipe(ts[k + 1..], c.right, tail)
  }

  ghost predicate IsBack(ts: seq<Lexeme>, c: Cmd<string>, tail: Tail)
    decreases |ts|, 4
  {
    || IsPipe(ts, c, tail)
    || (tail == Amp && c.Back? && ts != [] && ts[|ts| - 1] == Sym('&') && SomeBack(ts[..|ts| - 1], c.cmd))
  }

  ghost predicate IsLine(ts: seq<Lexeme>, c: Cmd<string>, tail: Tail)
    decreases |ts|, 5
  {
    IsBack(ts, c, tail) || (c.List? && exists k: nat :: LineAt(ts, c, tail, k))
  }

  ghost predicate LineAt(ts: seq<Lexeme>, c: Cmd<string>, tail: Tail, k: nat)
    requires c.List?
    decreases |ts|, 0
  {
    k < |ts| && ts[k] == Sym(';') && SomeBack(ts[..k], c.left) && IsLine(ts[k + 1..], c.right, tail)
  }

  ghost predicate SomeExec(ts: seq<Lexeme>, c: Cmd<string>)
    decreases |ts|, 3
  {
    exists tail :: IsExec(ts, c, tail)
  }

  ghost predicate SomeBack(ts: seq<Lexeme>, c: Cmd<string>)
    decreases |ts|, 5
  {
    exists tail :: IsBack(ts, c, tail)
  }

  ghost predicate SomeLine(ts: seq<Lexeme>, c: Cmd<string>)
    decreases |ts|, 6
  {
    exists tail :: IsLine(ts, c, tail)
  }

  // ---------- Where a reading stops ----------

  /** Nothing that follows belongs to the simple or parenthesised command just read. */
  predicate ExecStops(rest: seq<Lexeme>, tail: Tail) {
    rest == [] || if tail == Plain then HeadIn(rest, "|)&;") else tail == Paren ==> !HeadIn(rest, "<>")
  }

  predicate PipeStops(rest: seq<Lexeme>, tail: Tail) {
    ExecStops(rest, tail) && !HeadIn(rest, "|")
  }

  predicate BackStops(rest: seq<Lexeme>, tail: Tail) {
    ExecStops(rest, tail) && (tail != Amp ==> !HeadIn(rest, "|")) && !HeadIn(rest, "&")
  }

  predicate LineStops(rest: seq<Lexeme>, tail: Tail) {
    BackStops(rest, tail) && !HeadIn(rest, ";")
  }

  // ---------- What breaks a line ----------

  /** The parser, having read n words, cannot go on with these tokens, nor stop before them. */
  predicate Cause(rest: seq<Lexeme>, n: nat, e: Error) {
    match e
    case MissingFile => HeadIn(rest, "<>") && (|rest| < 2 || !rest[1].Text?)
    case TooManyArgs => rest != [] && rest[0].Text? && n == 9
    case Syntax => rest != [] && !rest[0].Text? && !HeadIn(rest, "|)&;<>")
    case _ => false
  }

  ghost predicate SimpleBroken(ts: seq<Lexeme>, e: Error, items: seq<Item>, rest: seq<Lexeme>) {
    Proper(items) && ts == Flat(items) + rest && |ArgsOf(items)| < 10 && Cause(rest, |ArgsOf(items)|, e)
  }

  ghost predicate FilesBroken(ts: seq<Lexeme>, items: seq<Item>, rest: seq<Lexeme>) {
    Proper(items) && ts == Flat(items) + rest && (forall k | 0 <= k < |items| :: items[k].File?) && Cause(rest, 0, MissingFile)
  }

  ghost predicate FilesBreak(ts: seq<Lexeme>) {
    exists items, rest :: FilesBroken(ts, items, rest)
  }

  ghost predicate ExecBreaks(ts: seq<Lexeme>, e: Error)
    decreases |ts|, 1
  {
    if !HeadIn(ts, "(") then exists items, rest :: SimpleBroken(ts, e, items, rest)
    else LineBreaks(ts[1..], e) || exists k: nat, d, tail :: BlockBroken(ts, e, k, d, tail)
  }

  /** Behind '(' and a line there is no ')', or a redirection behind the ')' lacks its file. */
  ghost predicate BlockBroken(ts: seq<Lexeme>, e: Error, k: nat, d: Cmd<string>, tail: Tail) {
    && 0 < k <= |ts| && IsLine(ts[1..k], d, tail) && LineStops(ts[k..], tail)
    && if HeadIn(ts[k..], ")") then e == MissingFile && FilesBreak(ts[k + 1..]) else e == MissingParen
  }

  ghost predicate PipeBreaks(ts: seq<Lexeme>, e: Error)
    decreases |ts|, 2
  {
    ExecBreaks(ts, e) || exists k: nat, d :: PipeBroken(ts, e, k, d)
  }

  ghost predicate PipeBroken(ts: seq<Lexeme>, e: Error, k: nat, d: Cmd<string>)
    decreases |ts|, 0
  {
    k < |ts| && ts[k] == Sym('|') && SomeExec(ts[..k], d) && PipeBreaks(ts[k + 1..], e)
  }

  ghost predicate LineBreaks(ts: seq<Lexeme>, e: Error)
    decreases |ts|, 3
  {
    PipeBreaks(ts, e) || exists k: nat, d :: LineBroken(ts, e, k, d)
  }

  ghost predicate LineBroken(ts: seq<Lexeme>, e: Error, k: nat, d: Cmd<string>)
    decreases |ts|, 0
  {
    k < |ts| && ts[k] == Sym(';') && SomeBack(ts[..k], d) && LineBreaks(ts[k + 1..], e)
  }

  /** A whole line of commands with something behind it. */
  ghost predicate LeftOver(ts: seq<Lexeme>, k: nat, d: Cmd<string>, tail: Tail) {
    k < |ts| && IsLine(ts[..k], d, tail) && LineStops(ts[k..], tail)
  }

  ghost predicate CmdBreaks(ts: seq<Lexeme>, e: Error) {
    LineBreaks(ts, e) || (e == Leftovers && exists k: nat, d, tail :: LeftOver(ts, k, d, tail))
  }

  // ---------- Simple commands ----------

  /** One item at a time. */
  lemma SimpleStep(ts: seq<Lexeme>, args: seq<string>, rs: seq<Redirect<string>>)
    ensures ts == [] || HeadIn(ts, "|)&;") ==> TakeSimple(ts, args, rs) == Took(Wrap(Exec(args), rs), ts)
    ensures HeadIn(ts, "<>") && (|ts| < 2 || !ts[1].Text?) ==> TakeSimple(ts, args, rs) == Broke(MissingFile)
    ensures HeadIn(ts, "<>") && |ts| >= 2 && ts[1].Text? ==>
              TakeSimple(ts, args, rs) == TakeSimple(ts[2..], args, rs + [Redirect(ts[1].w, ts[0] != Sym('<'))])
    ensures ts != [] && ts[0].Text? && |args| + 1 >= MAXARGS ==> TakeSimple(ts, args, rs) == Broke(TooManyArgs)
    ensures ts != [] && ts[0].Text? && |args| + 1 < MAXARGS ==> TakeSimple(ts, args, rs) == TakeSimple(ts[1..], args + [ts[0].w], rs)
    ensures ts != [] && !ts[0].Text? && !HeadIn(ts, "|)&;<>") ==> TakeSimple(ts, args, rs) == Broke(Syntax)
  {
  }

  lemma FirstItem(items: seq<Item>)
    requires items != []
    ensures items[0].Arg? ==>
              && Flat(items) == [Text(items[0].w)] + Flat(items[1..]) && FilesOf(items) == FilesOf(items[1..])
              && ArgsOf(items) == [items[0].w] + ArgsOf(items[1..])
    ensures items[0].File? ==>
              && Flat(items) == [items[0].op, Text(items[0].w)] + Flat(items[1..]) && ArgsOf(items) == ArgsOf(items[1..])
              && FilesOf(items) == [Redirect(items[0].w, items[0].op != Sym('<'))] + FilesOf(items[1..])
  {
    assert [] + ArgsOf(items[1..]) == ArgsOf(items[1..]) && [] + FilesOf(items[1..]) == FilesOf(items[1..]);
  }

  lemma ArgFirst(items: seq<Item>, rest: seq<Lexeme>, args: seq<string>)
    requires items != [] && items[0].Arg?
    ensures Flat(items) + rest == [Text(items[0].w)] + (Flat(items[1..]) + rest)
    ensures args + ArgsOf(items) == args + [items[0].w] + ArgsOf(items[1..]) && FilesOf(items) == FilesOf(items[1..])
    ensures |ArgsOf(items)| == 1 + |ArgsOf(items[1..])|
  {
    var w := items[0].w;
    hide Flat, ArgsOf, FilesOf;
    FirstItem(items);
    Assoc([Text(w)], Flat(items[1..]), rest);
    Assoc(args, [w], ArgsOf(items[1..]));
  }

  lemma FileFirst(items: seq<Item>, rest: seq<Lexeme>, rs: seq<Redirect<string>>)
    requires items != [] && items[0].File?
    ensures Flat(items) + rest == [items[0].op, Text(items[0].w)] + (Flat(items[1..]) + rest)
    ensures rs + FilesOf(items) == rs + [Redirect(items[0].w, items[0].op != Sym('<'))] + FilesOf(items[1..])
    ensures ArgsOf(items) == ArgsOf(items[1..])
  {
    var r := Redirect(items[0].w, items[0].op != Sym('<'));
    hide Flat, ArgsOf, FilesOf;
    FirstItem(items);
    Assoc([items[0].op, Text(items[0].w)], Flat(items[1..]), rest);
    Assoc(rs, [r], FilesOf(items[1..]));
  }

  lemma Assoc<T>(a: seq<T>, b: seq<T>, c: seq<T>)
    ensures a + b + c == a + (b + c)
  {
  }

  /** A simple command is read item by item. */
  lemma {:induction false} TakesItems(items: seq<Item>, rest: seq<Lexeme>, args: seq<string>, rs: seq<Redirect<string>>)
    requires Proper(items) && |args| + |ArgsOf(items)| < MAXARGS
    ensures TakeSimple(Flat(items) + rest, args, rs) == TakeSimple(rest, args + ArgsOf(items), rs + FilesOf(items))
    decreases |items|
  {
    if items == [] {
      assert Flat(items) + rest == rest && args + ArgsOf(items) == args && rs + FilesOf(items) == rs;
    } else {
      hide TakeSimple, Flat, ArgsOf, FilesOf;
      var ts, more := Flat(items) + rest, items[1..];
      SimpleStep(ts, args, rs);
      match items[0]
      case Arg(w) =>
        ArgFirst(items, rest, args);
        TakesItems(more, rest, args + [w], rs);
        assert ts[1..] == Flat(more) + rest;
      case File(op, w) =>
        FileFirst(items, rest, rs);
        TakesItems(more, rest, args, rs + [Redirect(w, op != Sym('<'))]);
        assert IsRedirection(op) && HeadIn(ts, "<>");
        assert ts[2..] == Flat(more) + rest;
    }
  }

  /** The same for redirections alone. */
  lemma {:induction false} TakesFiles(items: seq<Item>, rest: seq<Lexeme>, rs: seq<Redirect<string>>)
    requires Proper(items) && forall k | 0 <= k < |items| :: items[k].File?
    ensures TakeRedirs(Flat(items) + rest, rs) == TakeRedirs(rest, rs + FilesOf(items))
    decreases |items|
  {
    if items == [] {
      assert Flat(items) + rest == rest && rs + FilesOf(items) == rs;
    } else {
      hide Flat, FilesOf;
      var ts, op, w := Flat(items) + rest, items[0].op, items[0].w;
      FileFirst(items, rest, rs);
      TakesFiles(items[1..], rest, rs + [Redirect(w, op != Sym('<'))]);
      assert IsRedirection(op) && HeadIn(ts, "<>");
      assert ts[2..] == Flat(items[1..]) + rest;
    }
  }

  /** Reading a simple command ends here, well or badly. */
  ghost predicate Halted(rest: seq<Lexeme>, n: nat) {
    rest == [] || HeadIn(rest, "|)&;") || exists e :: Cause(rest, n, e)
  }

  lemma NoItems(ts: seq<Lexeme>)
    ensures Flat([]) + ts == ts && ArgsOf([]) == [] && FilesOf([]) == []
  {
  }

  /** Any tokens are items as far as those go, and then something to stop at or to fail at. */
  lemma {:induction false} Itemize(ts: seq<Lexeme>, n: nat) returns (items: seq<Item>, rest: seq<Lexeme>)
    requires n < MAXARGS
    ensures Proper(items) && ts == Flat(items) + rest && n + |ArgsOf(items)| < MAXARGS
    ensures Halted(rest, n + |ArgsOf(items)|)
    decreases |ts|
  {
    hide Flat, ArgsOf, FilesOf;
    items, rest := [], ts;
    NoItems(ts);
    if ts == [] || HeadIn(ts, "|)&;") {
    } else if ts[0].Text? && n + 1 < MAXARGS {
      var more;
      more, rest := Itemize(ts[1..], n + 1);
      items := [Arg(ts[0].w)] + more;
      assert items[1..] == more;
      ArgFirst(items, rest, []);
      assert ts == [ts[0]] + ts[1..];
    } else if HeadIn(ts, "<>") && |ts| >= 2 && ts[1].Text? {
      var more;
      more, rest := Itemize(ts[2..], n);
      items := [File(ts[0], ts[1].w)] + more;
      assert items[1..] == more;
      FileFirst(items, rest, []);
      assert ts == [ts[0], ts[1]] + ts[2..];
      RedirectionHead(ts);
    } else {
      assert Cause(ts, n, if ts[0].Text? then TooManyArgs else if HeadIn(ts, "<>") then MissingFile else Syntax);
    }
  }

  lemma RedirectionHead(ts: seq<Lexeme>)
    requires HeadIn(ts, "<>")
    ensures IsRedirection(ts[0])
  {
  }

  /** How reading a simple command ends. */
  lemma SimpleEnds(ts: seq<Lexeme>, items: seq<Item>, rest: seq<Lexeme>)
    requires Proper(items) && ts == Flat(items) + rest && |ArgsOf(items)| < MAXARGS
    ensures rest == [] || HeadIn(rest, "|)&;") ==> TakeSimple(ts, [], []) == Took(Wrap(Exec(ArgsOf(items)), FilesOf(items)), rest)
    ensures forall e | Cause(rest, |ArgsOf(items)|, e) :: TakeSimple(ts, [], []) == Broke(e)
  {
    hide TakeSimple;
    TakesItems(items, rest, [], []);
    assert [] + ArgsOf(items) == ArgsOf(items) && [] + FilesOf(items) == FilesOf(items);
    SimpleStep(rest, ArgsOf(items), FilesOf(items));
  }

  lemma FilesEnd(ts: seq<Lexeme>, items: seq<Item>, rest: seq<Lexeme>)
    requires Proper(items) && ts == Flat(items) + rest && forall k | 0 <= k < |items| :: items[k].File?
    ensures !HeadIn(rest, "<>") ==> TakeRedirs(ts, []) == Files(FilesOf(items), rest)
    ensures Cause(rest, 0, MissingFile) ==> TakeRedirs(ts, []) == NoFile
  {
    TakesFiles(items, rest, []);
    assert [] + FilesOf(items) == FilesOf(items);
  }

  /** Any tokens are redirections as far as those go. */
  lemma {:induction false} Filed(ts: seq<Lexeme>) returns (items: seq<Item>, rest: seq<Lexeme>)
    ensures Proper(items) && ts == Flat(items) + rest && forall k | 0 <= k < |items| :: items[k].File?
    ensures !HeadIn(rest, "<>") || Cause(rest, 0, MissingFile)
    decreases |ts|
  {
    items, rest := [], ts;
    if HeadIn(ts, "<>") && |ts| >= 2 && ts[1].Text? {
      var more;
      more, rest := Filed(ts[2..]);
      items := [File(ts[0], ts[1].w)] + more;
      assert items[1..] == more;
      FileFirst(items, rest, []);
      assert ts == [ts[0], ts[1]] + ts[2..];
      RedirectionHead(ts);
    } else {
      assert ts == Flat([]) + ts;
    }
  }
}
