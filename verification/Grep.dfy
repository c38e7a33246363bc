/**
 The matcher of grep.c against the language of its patterns. Strings carry no
 terminating NUL; the end of the sequence is where the source sees it.
 */
module Grep {
  // ---------- The language ----------

  /** One character, or any number of them; '.' is any character. */
  datatype Item = One(c: char) | Star(c: char)

  predicate Fits(c: char, x: char) {
    c == '.' || c == x
  }

  function Items(re: string): seq<Item> {
    if re == "" || re == "$" then []
    else if |re| >= 2 && re[1] == '*' then [Star(re[0])] + Items(re[2..])
    else [One(re[0])] + Items(re[1..])
  }

  /** The pattern, read item by item, ends in a $ of its own. */
  predicate Anchored(re: string) {
    if re == "" then false
    else if re == "$" then true
    else if |re| >= 2 && re[1] == '*' then Anchored(re[2..])
    else Anchored(re[1..])
  }

  predicate Piece(item: Item, w: string) {
    match item
    case One(c) => |w| == 1 && Fits(c, w[0])
    case Star(c) => forall i | 0 <= i < |w| :: Fits(c, w[i])
  }

  /** Piece i of w, cut at the given places, belongs to item i. */
  predicate PieceAt(items: seq<Item>, w: string, cuts: seq<nat>, i: nat)
    requires i < |items| && |cuts| == |items| + 1
  {
    cuts[i] <= cuts[i + 1] <= |w| && Piece(items[i], w[cuts[i]..cuts[i + 1]])
  }

  predicate Cuts(items: seq<Item>, w: string, cuts: seq<nat>) {
    && |cuts| == |items| + 1 && cuts[0] == 0 && cuts[|items|] == |w|
    && forall i: nat | i < |items| :: PieceAt(items, w, cuts, i)
  }

  /** w is a concatenation of pieces, one for each item in order. */
  ghost predicate InLanguage(items: seq<Item>, w: string) {
    exists cuts :: Cuts(items, w, cuts)
  }

  /** The first k characters of text are a match. */
  ghost predicate Prefix(re: string, text: string, k: nat) {
    k <= |text| && InLanguage(Items(re), text[..k]) && (Anchored(re) ==> k == |text|)
  }

  ghost predicate Here(re: string, text: string) {
    exists k: nat :: Prefix(re, text, k)
  }

  /** Some suffix of the text, the whole text after ^, begins with a match. */
  ghost predicate Matches(re: string, text: string) {
    if re != "" && re[0] == '^' then Here(re[1..], text)
    else exists i: nat :: i <= |text| && Here(re, text[i..])
  }

  // ---------- Concatenations, item by item ----------

  lemma LanguageNil(w: string)
    ensures InLanguage([], w) <==> w == ""
  {
    if w == "" { assert Cuts([], w, [0]); }
  }

  function Shift(cuts: seq<nat>, j: nat): (r: seq<nat>)
    ensures |r| == |cuts| && forall i | 0 <= i < |cuts| :: r[i] == cuts[i] + j
  {
    seq(|cuts|, i requires 0 <= i < |cuts| => cuts[i] + j)
  }

  /** A first piece in front of a concatenation. */
  lemma LanguageCons(item: Item, rest: seq<Item>, w: string, j: nat)
    requires j <= |w| && Piece(item, w[..j]) && InLanguage(rest, w[j..])
    ensures InLanguage([item] + rest, w)
  {
    hide Piece;
    var v := w[j..];
    var cuts :| Cuts(rest, v, cuts);
    var items, cuts' := [item] + rest, [0] + Shift(cuts, j);
    forall i: nat | i < |items| ensures PieceAt(items, w, cuts', i) {
      if i == 0 {
        assert w[0..j] == w[..j];
      } else {
        assert PieceAt(rest, v, cuts, i - 1);
        assert w[cuts'[i]..cuts'[i + 1]] == v[cuts[i - 1]..cuts[i]];
      }
    }
    assert Cuts(items, w, cuts');
  }

  /** The first piece taken off. */
  lemma LanguageUncons(item: Item, rest: seq<Item>, w: string) returns (j: nat)
    requires InLanguage([item] + rest, w)
    ensures j <= |w| && Piece(item, w[..j]) && InLanguage(rest, w[j..])
  {
    hide Piece;
    var items := [item] + rest;
    var cuts :| Cuts(items, w, cuts);
    j := cuts[1];
    assert PieceAt(items, w, cuts, 0);
    assert w[0..j] == w[..j];
    var v := w[j..];
    CutsGrow(items, w, cuts);
    var cuts': seq<nat> := seq(|rest| + 1, i requires 0 <= i < |rest| + 1 => CutAfter(cuts, i, j));
    forall i: nat | i < |rest| ensures PieceAt(rest, v, cuts', i) {
      assert PieceAt(items, w, cuts, i + 1);
      assert v[cuts'[i]..cuts'[i + 1]] == w[cuts[i + 1]..cuts[i + 2]];
    }
    assert Cuts(rest, v, cuts');
  }

  function CutAfter(cuts: seq<nat>, i: nat, j: nat): nat
    requires i + 1 < |cuts|
  {
    if cuts[i + 1] >= j then cuts[i + 1] - j else 0
  }

  lemma CutsGrow(items: seq<Item>, w: string, cuts: seq<nat>)
    requires Cuts(items, w, cuts) && |items| >= 1
    ensures forall i | 1 <= i < |cuts| :: cuts[1] <= cuts[i]
  {
    var n := 2;
    while n < |cuts|
      invariant 2 <= n && forall i | 1 <= i < n && i < |cuts| :: cuts[1] <= cuts[i]
    {
      assert PieceAt(items, w, cuts, n - 1);
      n := n + 1;
    }
  }

  // ---------- What matchhere and matchstar look for ----------

  lemma HereEnd(text: string)
    ensures Here("", text)
  {
    LanguageNil(text[..0]);
    assert Prefix("", text, 0);
  }

  lemma HereDollar(text: string)
    ensures Here("$", text) <==> text == ""
  {
    if text == "" {
      LanguageNil(text[..0]);
      assert Prefix("$", text, 0);
    }
    if Here("$", text) {
      var k: nat :| Prefix("$", text, k);
      LanguageNil(text[..k]);
    }
  }

  lemma HereOne(re: string, text: string)
    requires re != "" && re != "$" && !(|re| >= 2 && re[1] == '*')
    ensures Here(re, text) <==> text != "" && Fits(re[0], text[0]) && Here(re[1..], text[1..])
  {
    hide InLanguage;
    var rest := Items(re[1..]);
    if Here(re, text) {
      var k: nat :| Prefix(re, text, k);
      var j := LanguageUncons(One(re[0]), rest, text[..k]);
      assert text[..k][j..] == text[1..][..k - 1];
      assert Prefix(re[1..], text[1..], k - 1);
    }
    if text != "" && Fits(re[0], text[0]) && Here(re[1..], text[1..]) {
      var k: nat :| Prefix(re[1..], text[1..], k);
      assert text[..k + 1][1..] == text[1..][..k] && text[..k + 1][..1] == [text[0]];
      LanguageCons(One(re[0]), rest, text[..k + 1], 1);
      assert Prefix(re, text, k + 1);
    }
  }

  /** The first i characters fit c, and re matches behind them. */
  ghost predicate StarAt(c: char, re: string, text: string, i: nat) {
    i <= |text| && (forall x | 0 <= x < i :: Fits(c, text[x])) && Here(re, text[i..])
  }

  lemma HereStar(re: string, text: string)
    requires |re| >= 2 && re[1] == '*'
    ensures Here(re, text) <==> exists i: nat :: StarAt(re[0], re[2..], text, i)
  {
    hide InLanguage;
    var c, rest := re[0], Items(re[2..]);
    if Here(re, text) {
      var k: nat :| Prefix(re, text, k);
      var j := LanguageUncons(Star(c), rest, text[..k]);
      assert text[..k][j..] == text[j..][..k - j];
      assert Prefix(re[2..], text[j..], k - j);
      forall x | 0 <= x < j ensures Fits(c, text[x]) { assert text[..k][..j][x] == text[x]; }
      assert StarAt(c, re[2..], text, j);
    }
    if exists i: nat :: StarAt(c, re[2..], text, i) {
      var i: nat :| StarAt(c, re[2..], text, i);
      var k: nat :| Prefix(re[2..], text[i..], k);
      assert text[..i + k][i..] == text[i..][..k];
      LanguageCons(Star(c), rest, text[..i + k], i);
      assert Prefix(re, text, i + k);
    }
  }

  // ---------- The matcher ----------

  method MatchHere(re: string, text: string) returns (r: bool)
    ensures r <==> Here(re, text)
    decreases |re|, 0
  {
    if re == "" {
      HereEnd(text);
      return true;
    }
    if |re| >= 2 && re[1] == '*' {
      HereStar(re, text);
      r := MatchStar(re[0], re[2..], text);
      return;
    }
    if re[0] == '$' && |re| == 1 {
      assert re == "$";
      HereDollar(text);
      return text == "";
    }
    HereOne(re, text);
    if text != "" && (re[0] == '.' || re[0] == text[0]) {
      r := MatchHere(re[1..], text[1..]);
      return;
    }
    return false;
  }

  method MatchStar(c: char, re: string, text: string) returns (r: bool)
    ensures r <==> exists i: nat :: StarAt(c, re, text, i)
    decreases |re|, 1
  {
    var i := 0;
    while true
      invariant i <= |text| && forall x | 0 <= x < i :: Fits(c, text[x])
      invariant forall j: nat | j < i :: !Here(re, text[j..])
      decreases |text| - i
    {
      var m := MatchHere(re, text[i..]);
      if m {
        assert StarAt(c, re, text, i);
        return true;
      }
      if !(i < |text| && (text[i] == c || c == '.')) { break; }
      i := i + 1;
    }
    assert i < |text| ==> !Fits(c, text[i]);
    return false;
  }

  /** match: it finds a match exactly when the language has one. */
  method Match(re: string, text: string) returns (r: bool)
    ensures r <==> Matches(re, text)
  {
    if re != "" && re[0] == '^' {
      r := MatchHere(re[1..], text);
      return;
    }
    var i := 0;
    while true
      invariant i <= |text| && forall j: nat | j < i :: !Here(re, text[j..])
      decreases |text| - i
    {
      var m := MatchHere(re, text[i..]);
      if m { return true; }
      if i == |text| { break; }
      i := i + 1;
    }
    return false;
  }
}
