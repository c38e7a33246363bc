/**
 The tokens of sh.c. A position counts characters from the start of the line;
 the line holds no NUL, and its end is where the source sees one.
 */
module ShellLex {
  predicate IsSpace(c: char) {
    c == ' ' || c == '\t' || c == '\r' || c == '\n' || c == '\U{0B}'
  }

  predicate IsSymbol(c: char) {
    c == '<' || c == '|' || c == '>' || c == '&' || c == ';' || c == '(' || c == ')'
  }

  predicate IsWordChar(c: char) {
    !IsSpace(c) && !IsSymbol(c) && c != '\0'
  }

  predicate NoNul(s: string) {
    forall i | 0 <= i < |s| :: s[i] != '\0'
  }

  /** Past white space. */
  function Skip(s: string, i: nat): (r: nat)
    requires i <= |s|
    ensures i <= r <= |s| && (r < |s| ==> !IsSpace(s[r]))
    decreases |s| - i
  {
    if i < |s| && IsSpace(s[i]) then Skip(s, i + 1) else i
  }

  function WordEnd(s: string, i: nat): (r: nat)
    requires i <= |s|
    ensures i <= r <= |s| && (r < |s| ==> !IsWordChar(s[r])) && forall k | i <= k < r :: IsWordChar(s[k])
    decreases |s| - i
  {
    if i < |s| && IsWordChar(s[i]) then WordEnd(s, i + 1) else i
  }

  datatype Kind = End | Symbol(c: char) | Append | Word

  /** What gettoken finds: its kind, and where it starts and ends. */
  datatype Token = Token(kind: Kind, q: nat, eq: nat)

  function Scan(s: string, i: nat): (t: Token)
    requires i <= |s| && NoNul(s)
    ensures i <= t.q <= t.eq <= |s| && (t.kind == End <==> t.q == |s|) && (t.kind != End ==> t.q < t.eq)
    ensures t.kind.Symbol? ==> IsSymbol(t.kind.c)
  {
    var q := Skip(s, i);
    if q == |s| then Token(End, q, q)
    else if s[q] == '>' && q + 1 < |s| && s[q + 1] == '>' then Token(Append, q, q + 2)
    else if IsSymbol(s[q]) then Token(Symbol(s[q]), q, q + 1)
    else Token(Word, q, WordEnd(s, q))
  }

  /** Where gettoken leaves the cursor. */
  function After(s: string, i: nat): (r: nat)
    requires i <= |s| && NoNul(s)
    ensures i <= r <= |s| && (Scan(s, i).kind != End ==> i < r)
  {
    Skip(s, Scan(s, i).eq)
  }

  /** peek, for a set of symbols. */
  predicate Peek(s: string, i: nat, toks: string)
    requires i <= |s|
  {
    Skip(s, i) < |s| && s[Skip(s, i)] in toks
  }

  // ---------- The whole token sequence ----------

  datatype Lexeme = Sym(c: char) | Double | Text(w: string)

  function LexemeOf(s: string, t: Token): Lexeme
    requires t.kind != End && t.q <= t.eq <= |s|
  {
    match t.kind
    case Symbol(c) => Sym(c)
    case Append => Double
    case Word => Text(s[t.q..t.eq])
  }

  /** The tokens from position i on. */
  function Lex(s: string, i: nat): seq<Lexeme>
    requires i <= |s| && NoNul(s)
    decreases |s| - i
  {
    var t := Scan(s, i);
    if t.kind == End then [] else [LexemeOf(s, t)] + Lex(s, t.eq)
  }

  lemma {:induction false} SkipTwice(s: string, i: nat)
    requires i <= |s|
    ensures Skip(s, Skip(s, i)) == Skip(s, i)
    decreases |s| - i
  {
    if i < |s| && IsSpace(s[i]) { SkipTwice(s, i + 1); }
  }

  lemma LexSkip(s: string, i: nat)
    requires i <= |s| && NoNul(s)
    ensures Lex(s, Skip(s, i)) == Lex(s, i) && Scan(s, Skip(s, i)) == Scan(s, i)
  {
    SkipTwice(s, i);
  }

  /** Lexing step by step, as the parser does it. */
  lemma LexStep(s: string, i: nat)
    requires i <= |s| && NoNul(s)
    ensures Scan(s, i).kind == End <==> Lex(s, i) == []
    ensures Scan(s, i).kind != End ==> Lex(s, i)[0] == LexemeOf(s, Scan(s, i)) && Lex(s, After(s, i)) == Lex(s, i)[1..]
  {
    if Scan(s, i).kind != End { LexSkip(s, Scan(s, i).eq); }
  }

  /** The symbol a token begins with. */
  function Head(l: Lexeme): char {
    match l
    case Sym(c) => c
    case Double => '>'
    case Text(_) => ' '
  }

  /** peek sees the first token's symbol. */
  lemma PeekIs(s: string, i: nat, toks: string)
    requires i <= |s| && NoNul(s) && forall c | c in toks :: IsSymbol(c)
    ensures Peek(s, i, toks) <==> Lex(s, i) != [] && Head(Lex(s, i)[0]) in toks
  {
  }

  // ---------- Printing ----------

  predicate LegalWord(w: string) {
    w != "" && forall i | 0 <= i < |w| :: IsWordChar(w[i])
  }

  predicate LegalLexeme(l: Lexeme) {
    match l
    case Sym(c) => IsSymbol(c)
    case Double => true
    case Text(w) => LegalWord(w)
  }

  function Spelled(l: Lexeme): string {
    match l
    case Sym(c) => [c]
    case Double => ">>"
    case Text(w) => w
  }

  /** Every token followed by a space. */
  function Render(ts: seq<Lexeme>): string {
    if ts == [] then "" else Spelled(ts[0]) + " " + Render(ts[1..])
  }

  lemma {:induction false} RenderNoNul(ts: seq<Lexeme>)
    requires forall k | 0 <= k < |ts| :: LegalLexeme(ts[k])
    ensures NoNul(Render(ts))
  {
    if ts != [] {
      RenderNoNul(ts[1..]);
      assert LegalLexeme(ts[0]);
    }
  }

  lemma {:induction false} WordEndIs(s: string, i: nat, e: nat)
    requires i <= e < |s| && !IsWordChar(s[e]) && forall k | i <= k < e :: IsWordChar(s[k])
    ensures WordEnd(s, i) == e
    decreases e - i
  {
    if i < e { WordEndIs(s, i + 1, e); }
  }

  /** A token followed by a space is scanned as itself. */
  lemma ScanSpelled(s: string, i: nat, l: Lexeme)
    requires NoNul(s) && LegalLexeme(l) && i + |Spelled(l)| < |s|
    requires s[i..i + |Spelled(l)|] == Spelled(l) && s[i + |Spelled(l)|] == ' '
    ensures Scan(s, i).kind != End && LexemeOf(s, Scan(s, i)) == l && Scan(s, i).eq == i + |Spelled(l)|
  {
    var p := Spelled(l);
    forall k | 0 <= k < |p| ensures s[i + k] == p[k] { assert s[i..i + |p|][k] == p[k]; }
    assert s[i] == p[0];
    if l.Text? {
      WordEndIs(s, i, i + |p|);
    }
  }

  lemma RenderFront(s: string, i: nat, ts: seq<Lexeme>)
    requires i <= |s| && s[i..] == Render(ts) && ts != []
    ensures var e := i + |Spelled(ts[0])|;
            e < |s| && s[i..e] == Spelled(ts[0]) && s[e] == ' ' && s[e + 1..] == Render(ts[1..])
  {
    var p := Spelled(ts[0]);
    var r := s[i..];
    assert r == (p + " ") + Render(ts[1..]);
    assert r[..|p|] == p && r[|p|] == ' ' && r[|p| + 1..] == Render(ts[1..]);
    assert s[i..i + |p|] == r[..|p|] && s[i + |p| + 1..] == r[|p| + 1..];
  }

  lemma LexSpace(s: string, i: nat)
    requires NoNul(s) && i < |s| && IsSpace(s[i])
    ensures Lex(s, i) == Lex(s, i + 1)
  {
    LexSkip(s, i);
    LexSkip(s, i + 1);
  }

  lemma {:induction false} LexRender(s: string, i: nat, ts: seq<Lexeme>)
    requires NoNul(s) && i <= |s| && s[i..] == Render(ts) && forall k | 0 <= k < |ts| :: LegalLexeme(ts[k])
    ensures Lex(s, i) == ts
    decreases |ts|
  {
    hide Scan, Skip, Spelled;
    if ts == [] {
      assert i == |s|;
      LexEnd(s);
    } else {
      var e := i + |Spelled(ts[0])|;
      RenderFront(s, i, ts);
      hide Render;
      ScanSpelled(s, i, ts[0]);
      LexRender(s, e + 1, ts[1..]);
      LexSpace(s, e);
    }
  }

  lemma LexEnd(s: string)
    requires NoNul(s)
    ensures Lex(s, |s|) == []
  {
  }

  // ---------- What the tokens of a line are ----------

  /** whitespace[] and symbols[] of sh.c. */
  const BLANKS: string := [' ', '\t', '\r', '\n', '\U{0B}']
  const SYMBOLS: string := "<|>&;()"

  /** A token in its own right: a symbol, >>, or a word without blanks and symbols. */
  predicate Wellformed(l: Lexeme) {
    match l
    case Sym(c) => c in SYMBOLS
    case Double => true
    case Text(w) => w != "" && forall k | 0 <= k < |w| :: w[k] !in BLANKS && w[k] !in SYMBOLS
  }

  /** A word ends where a blank or symbol follows, and > where no other > does. */
  predicate EndsBefore(l: Lexeme, rest: string) {
    match l
    case Sym(c) => c == '>' ==> rest == "" || rest[0] != '>'
    case Double => true
    case Text(w) => rest == "" || rest[0] in BLANKS || rest[0] in SYMBOLS
  }

  /** String s is the tokens ts written one behind the other, with blanks between them or none. */
  ghost predicate WrittenAs(s: string, ts: seq<Lexeme>)
    decreases |ts|, 1
  {
    if ts == [] then forall k | 0 <= k < |s| :: s[k] in BLANKS else exists g: nat :: WrittenFrom(s, ts, g)
  }

  ghost predicate WrittenFrom(s: string, ts: seq<Lexeme>, g: nat)
    requires ts != []
    decreases |ts|, 0
  {
    var e := g + |Spelled(ts[0])|;
    && e <= |s| && (forall k | 0 <= k < g :: s[k] in BLANKS)
    && Wellformed(ts[0]) && s[g..e] == Spelled(ts[0]) && EndsBefore(ts[0], s[e..]) && WrittenAs(s[e..], ts[1..])
  }

  lemma CharKinds(c: char)
    ensures IsSpace(c) <==> c in BLANKS
    ensures IsSymbol(c) <==> c in SYMBOLS
  {
    assert BLANKS[0] == ' ' && BLANKS[1] == '\t' && BLANKS[2] == '\r' && BLANKS[3] == '\n' && BLANKS[4] == '\U{0B}';
    assert SYMBOLS[0] == '<' && SYMBOLS[1] == '|' && SYMBOLS[2] == '>' && SYMBOLS[3] == '&' && SYMBOLS[4] == ';' && SYMBOLS[5] == '(' && SYMBOLS[6] == ')';
  }

  lemma {:induction false} SkipBlanks(s: string, i: nat, j: nat)
    requires i <= j <= |s| && forall k | i <= k < j :: IsSpace(s[k])
    ensures Skip(s, i) == Skip(s, j)
    decreases j - i
  {
    if i < j { SkipBlanks(s, i + 1, j); }
  }

  lemma {:induction false} SkippedBlank(s: string, i: nat)
    requires i <= |s|
    ensures forall k | i <= k < Skip(s, i) :: IsSpace(s[k])
    decreases |s| - i
  {
    if i < |s| && IsSpace(s[i]) { SkippedBlank(s, i + 1); }
  }

  lemma {:induction false} WordUpTo(s: string, i: nat, e: nat)
    requires i <= e <= |s| && (e < |s| ==> !IsWordChar(s[e])) && forall k | i <= k < e :: IsWordChar(s[k])
    ensures WordEnd(s, i) == e
    decreases e - i
  {
    if i < e { WordUpTo(s, i + 1, e); }
  }

  /** A token written here is the one scanned here. */
  lemma ScansWritten(s: string, i: nat, l: Lexeme)
    requires NoNul(s) && i + |Spelled(l)| <= |s| && Wellformed(l)
    requires s[i..i + |Spelled(l)|] == Spelled(l) && EndsBefore(l, s[i + |Spelled(l)|..])
    ensures Scan(s, i).kind != End && LexemeOf(s, Scan(s, i)) == l && Scan(s, i).eq == i + |Spelled(l)|
  {
    hide Wellformed, EndsBefore;
    var p, e := Spelled(l), i + |Spelled(l)|;
    forall k | 0 <= k < |p| ensures s[i + k] == p[k] { assert s[i..e][k] == p[k]; }
    NextOk(s, e, l);
    FirstOk(l);
    assert s[i] == p[0];
    assert Skip(s, i) == i;
    if l.Text? {
      forall k | i <= k < e ensures IsWordChar(s[k]) { assert s[k] == p[k - i]; }
      WordUpTo(s, i, e);
    }
  }

  lemma NextOk(s: string, e: nat, l: Lexeme)
    requires e <= |s| && EndsBefore(l, s[e..])
    ensures l.Text? && e < |s| ==> !IsWordChar(s[e])
    ensures l == Sym('>') && e < |s| ==> s[e] != '>'
  {
    if e < |s| {
      assert s[e..][0] == s[e];
      CharKinds(s[e]);
    }
  }

  lemma FirstOk(l: Lexeme)
    requires Wellformed(l)
    ensures Spelled(l) != "" && !IsSpace(Spelled(l)[0])
    ensures l.Sym? ==> IsSymbol(l.c)
    ensures l.Text? ==> forall k | 0 <= k < |l.w| :: !IsSpace(l.w[k]) && !IsSymbol(l.w[k])
  {
    match l
    case Sym(c) => CharKinds(c);
    case Double =>
    case Text(w) => forall k | 0 <= k < |w| ensures !IsSpace(w[k]) && !IsSymbol(w[k]) { CharKinds(w[k]); }
  }

  lemma {:induction false} LexWritten(s: string, i: nat, ts: seq<Lexeme>)
    requires NoNul(s) && i <= |s| && WrittenAs(s[i..], ts)
    ensures Lex(s, i) == ts
    decreases |ts|
  {
    hide Scan, Spelled, Wellformed, EndsBefore;
    if ts == [] {
      forall k | i <= k < |s| ensures IsSpace(s[k]) { CharKinds(s[k]); assert s[i..][k - i] in BLANKS; }
      SkipBlanks(s, i, |s|);
      LexSkip(s, i);
      LexEnd(s);
    } else {
      var g: nat :| WrittenFrom(s[i..], ts, g);
      var q, e := i + g, i + g + |Spelled(ts[0])|;
      forall k | i <= k < q ensures IsSpace(s[k]) { CharKinds(s[k]); assert s[i..][k - i] in BLANKS; }
      assert s[i..][g..e - i] == s[q..e] && s[i..][e - i..] == s[e..];
      SkipBlanks(s, i, q);
      ScansWritten(s, q, ts[0]);
      LexWritten(s, e, ts[1..]);
      LexSkip(s, i);
      LexSkip(s, q);
      assert Lex(s, q) == [ts[0]] + Lex(s, e);
    }
  }

  lemma ScanIsWritten(s: string, i: nat)
    requires NoNul(s) && i <= |s| && Scan(s, i).kind != End
    ensures var t := Scan(s, i);
            var l := LexemeOf(s, t);
            && t.q == Skip(s, i) && t.eq == t.q + |Spelled(l)| && s[t.q..t.eq] == Spelled(l) && Wellformed(l) && EndsBefore(l, s[t.eq..])
  {
    var t := Scan(s, i);
    CharKinds(s[t.q]);
    if t.eq < |s| {
      CharKinds(s[t.eq]);
      assert s[t.eq..][0] == s[t.eq];
    }
    if t.kind == Word {
      forall k | t.q <= k < t.eq ensures s[k] !in BLANKS && s[k] !in SYMBOLS { CharKinds(s[k]); }
    }
  }

  lemma {:induction false} WrittenLex(s: string, i: nat)
    requires NoNul(s) && i <= |s|
    ensures WrittenAs(s[i..], Lex(s, i))
    decreases |s| - i
  {
    hide Spelled, Wellformed, EndsBefore, LexemeOf;
    var t, ts := Scan(s, i), Lex(s, i);
    SkippedBlank(s, i);
    if t.kind == End {
      forall k | 0 <= k < |s[i..]| ensures s[i..][k] in BLANKS { CharKinds(s[i + k]); }
    } else {
      ScanIsWritten(s, i);
      hide Scan;
      WrittenLex(s, t.eq);
      var g, e := t.q - i, t.eq - i;
      forall k | 0 <= k < g ensures s[i..][k] in BLANKS { CharKinds(s[i + k]); }
      assert s[i..][g..e] == s[t.q..t.eq] && s[i..][e..] == s[t.eq..];
      assert ts[1..] == Lex(s, t.eq);
      assert WrittenFrom(s[i..], ts, g);
    }
  }

  /** The tokens of a line are the one way of writing it in tokens. */
  lemma LexIsWritten(s: string, ts: seq<Lexeme>)
    requires NoNul(s)
    ensures WrittenAs(s, ts) <==> Lex(s, 0) == ts
  {
    hide WrittenAs, Lex;
    assert s[0..] == s;
    WrittenLex(s, 0);
    if WrittenAs(s, ts) { LexWritten(s, 0, ts); }
  }
}
