/** The regular expression matcher of user/grep.c against the language of the expression. */
module GrepMatch {
  /** A piece of an expression: one character, any character, or a repeated one ('.' for any). */
  datatype Item = One(c: char) | Any | Star(c: char)

  /** The pieces in order, and whether a final $ ties the match to the end of the text. */
  datatype Expr = Expr(items: seq<Item>, dollar: bool)

  /** How an expression without ^ reads. */
  function Parse(re: string): Expr
    decreases |re|
  {
    if re == "" then Expr([], false)
    else if |re| >= 2 && re[1] == '*' then var e := Parse(re[2..]); Expr([Star(re[0])] + e.items, e.dollar)
    else if re == "$" then Expr([], true)
    else var e := Parse(re[1..]); Expr([if re[0] == '.' then Any else One(re[0])] + e.items, e.dollar)
  }

  predicate Fits(c: char, x: char) { c == '.' || c == x }

  predicate AllFit(c: char, w: string) { forall i :: 0 <= i < |w| ==> Fits(c, w[i]) }

  predicate ItemLang(item: Item, w: string) {
    match item
    case One(c) => w == [c]
    case Any => |w| == 1
    case Star(c) => AllFit(c, w)
  }

  /** w is a word of the language of these items: it splits into words of each. */
  ghost predicate Lang(items: seq<Item>, w: string)
    decreases |items|
  {
    if items == [] then w == ""
    else exists k :: 0 <= k <= |w| && ItemLang(items[0], w[..k]) && Lang(items[1..], w[k..])
  }

  /** Some prefix of the text is a word of re, and with $ the whole text is. */
  ghost predicate MatchesHere(re: string, text: string) {
    var e := Parse(re);
    exists n :: 0 <= n <= |text| && Lang(e.items, text[..n]) && (e.dollar ==> n == |text|)
  }

  /** Some position of the text begins a match; only the first one when re starts with ^. */
  ghost predicate Matches(re: string, text: string) {
    if re != "" && re[0] == '^' then MatchesHere(re[1..], text)
    else exists i :: 0 <= i <= |text| && MatchesHere(re, text[i..])
  }

  // ----- One item off the front -----

  lemma SplitMatch(re: string, rest: string, item: Item, text: string)
    requires Parse(re).items == [item] + Parse(rest).items && Parse(re).dollar == Parse(rest).dollar && MatchesHere(re, text)
    ensures exists k :: 0 <= k <= |text| && ItemLang(item, text[..k]) && MatchesHere(rest, text[k..])
  {
    hide Parse, ItemLang;
    var e, f := Parse(re), Parse(rest);
    assert e.items[1..] == f.items;
    var n :| 0 <= n <= |text| && Lang(e.items, text[..n]) && (e.dollar ==> n == |text|);
    var w := text[..n];
    var k :| 0 <= k <= |w| && ItemLang(e.items[0], w[..k]) && Lang(e.items[1..], w[k..]);
    assert w[..k] == text[..k] && w[k..] == text[k..][..n - k];
    assert MatchesHere(rest, text[k..]);
  }

  lemma JoinMatch(re: string, rest: string, item: Item, text: string, k: int)
    requires Parse(re).items == [item] + Parse(rest).items && Parse(re).dollar == Parse(rest).dollar
    requires 0 <= k <= |text| && ItemLang(item, text[..k]) && MatchesHere(rest, text[k..])
    ensures MatchesHere(re, text)
  {
    hide Parse, ItemLang;
    var e, f := Parse(re), Parse(rest);
    var t := text[k..];
    var m :| 0 <= m <= |t| && Lang(f.items, t[..m]) && (f.dollar ==> m == |t|);
    var w := text[..k + m];
    assert w[..k] == text[..k] && w[k..] == t[..m] && e.items[1..] == f.items;
    assert Lang(e.items, w);
  }

  /** A match of re splits into a word of its first item and a match of the rest. */
  lemma FirstItem(re: string, rest: string, item: Item, text: string)
    requires Parse(re).items == [item] + Parse(rest).items && Parse(re).dollar == Parse(rest).dollar
    ensures MatchesHere(re, text) <==> exists k :: 0 <= k <= |text| && ItemLang(item, text[..k]) && MatchesHere(rest, text[k..])
  {
    hide Parse, ItemLang, MatchesHere;
    if MatchesHere(re, text) {
      SplitMatch(re, rest, item, text);
    }
    forall k | 0 <= k <= |text| && ItemLang(item, text[..k]) && MatchesHere(rest, text[k..]) ensures MatchesHere(re, text) {
      JoinMatch(re, rest, item, text, k);
    }
  }

  lemma HereEmpty(text: string)
    ensures MatchesHere("", text)
  {
    assert Lang([], text[..0]);
  }

  lemma HereDollar(text: string)
    ensures MatchesHere("$", text) <==> text == ""
  {
    assert Lang([], text[..0]);
  }

  lemma HereOne(re: string, text: string)
    requires re != "" && !(|re| >= 2 && re[1] == '*') && re != "$"
    ensures MatchesHere(re, text) <==> text != "" && Fits(re[0], text[0]) && MatchesHere(re[1..], text[1..])
  {
    var item := if re[0] == '.' then Any else One(re[0]);
    FirstItem(re, re[1..], item, text);
    forall k | 0 <= k <= |text| ensures ItemLang(item, text[..k]) <==> k == 1 && Fits(re[0], text[0]) {
    }
  }

  lemma HereStar(c: char, rest: string, text: string)
    ensures MatchesHere([c, '*'] + rest, text) <==> exists k :: 0 <= k <= |text| && AllFit(c, text[..k]) && MatchesHere(rest, text[k..])
  {
    var re := [c, '*'] + rest;
    assert re[2..] == rest;
    FirstItem(re, rest, Star(c), text);
  }

  // ----- The code -----

  /** matchhere. */
  method Matchhere(re: string, text: string) returns (b: bool)
    ensures b <==> MatchesHere(re, text)
    decreases |re|, 0
  {
    if re == "" {
      HereEmpty(text);
      return true;
    }
    if |re| >= 2 && re[1] == '*' {
      assert re == [re[0], '*'] + re[2..];
      HereStar(re[0], re[2..], text);
      b := Matchstar(re[0], re[2..], text);
      return;
    }
    if re[0] == '$' && |re| == 1 {
      assert re == "$";
      HereDollar(text);
      return text == "";
    }
    HereOne(re, text);
    if text != "" && (re[0] == '.' || re[0] == text[0]) {
      b := Matchhere(re[1..], text[1..]);
      return;
    }
    return false;
  }

  /** matchstar: c* and then re at the beginning of the text. */
  method Matchstar(c: char, re: string, text: string) returns (b: bool)
    ensures b <==> exists k :: 0 <= k <= |text| && AllFit(c, text[..k]) && MatchesHere(re, text[k..])
    decreases |re|, 1
  {
    var i := 0;
    while true
      invariant 0 <= i <= |text| && AllFit(c, text[..i])
      invariant forall k :: 0 <= k < i ==> !MatchesHere(re, text[k..])
      decreases |text| - i
    {
      var here := Matchhere(re, text[i..]);
      if here {
        return true;
      }
      if !(i < |text| && (text[i] == c || c == '.')) {
        break;
      }
      i := i + 1;
    }
    forall k | i < k <= |text| ensures !AllFit(c, text[..k]) {
      assert !Fits(c, text[..k][i]);
    }
    b := false;
  }

  /** match. */
  method Match(re: string, text: string) returns (b: bool)
    ensures b <==> Matches(re, text)
  {
    if re != "" && re[0] == '^' {
      b := Matchhere(re[1..], text);
      return;
    }
    var i := 0;
    while true
      invariant 0 <= i <= |text| && forall k :: 0 <= k < i ==> !MatchesHere(re, text[k..])
      decreases |text| - i
    {
      var here := Matchhere(re, text[i..]);
      if here {
        return true;
      }
      if i == |text| {
        break;
      }
      i := i + 1;
    }
    b := false;
  }
}
