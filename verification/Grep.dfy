/** The pattern matcher of `grep.c` (The Practice of Programming, chapter 9)
    against the set of strings a pattern denotes. */
module Grep {
  /** One character, or any number of them. */
  datatype Atom = Any | Lit(c: char)
  datatype Item = One(a: Atom) | Star(a: Atom)

  /** A pattern without its leading `^`. */
  datatype Pattern = Pattern(items: seq<Item>, atEnd: bool)

  function AtomOf(c: char): Atom {
    if c == '.' then Any else Lit(c)
  }

  /** `$` is special only at the very end, and `*` only after a character. */
  function PatternOf(re: string): Pattern {
    if re == "" then Pattern([], false)
    else if |re| >= 2 && re[1] == '*' then
      var p := PatternOf(re[2..]);
      p.(items := [Star(AtomOf(re[0]))] + p.items)
    else if re == "$" then Pattern([], true)
    else
      var p := PatternOf(re[1..]);
      p.(items := [One(AtomOf(re[0]))] + p.items)
  }

  // ---- What a pattern denotes ----

  predicate Fits(a: Atom, c: char) {
    a == Any || a == Lit(c)
  }

  predicate InItem(i: Item, w: string) {
    match i
    case One(a) => |w| == 1 && Fits(a, w[0])
    case Star(a) => forall k | 0 <= k < |w| :: Fits(a, w[k])
  }

  /** Concatenations of a string of each item. */
  ghost predicate InLanguage(items: seq<Item>, w: string) {
    if items == [] then w == ""
    else exists k | 0 <= k <= |w| :: InItem(items[0], w[..k]) && InLanguage(items[1..], w[k..])
  }

  /** Some prefix of `text` is in the language, all of it when `$` ends the pattern. */
  ghost predicate Here(p: Pattern, text: string) {
    exists n | 0 <= n <= |text| :: InLanguage(p.items, text[..n]) && (p.atEnd ==> n == |text|)
  }

  /** What match decides: `^` ties the match to the start of the text. */
  ghost predicate Matches(re: string, text: string) {
    if re != "" && re[0] == '^' then Here(PatternOf(re[1..]), text)
    else exists i | 0 <= i <= |text| :: Here(PatternOf(re), text[i..])
  }

  // ---- One step of the pattern at a time ----

  lemma HereNothing(p: Pattern, text: string)
    requires p.items == []
    ensures Here(p, text) <==> (p.atEnd ==> text == "")
  {
    if p.atEnd ==> text == "" {
      assert InLanguage([], text[..0]);
    }
  }

  lemma HereFirst(p: Pattern, text: string)
    requires p.items != []
    ensures Here(p, text) <==>
            exists k | 0 <= k <= |text| ::
              InItem(p.items[0], text[..k]) && Here(p.(items := p.items[1..]), text[k..])
  {
    var rest := p.(items := p.items[1..]);
    if n :| 0 <= n <= |text| && InLanguage(p.items, text[..n]) && (p.atEnd ==> n == |text|) {
      var k :| 0 <= k <= n && InItem(p.items[0], text[..n][..k]) && InLanguage(p.items[1..], text[..n][k..]);
      assert text[..n][..k] == text[..k] && text[..n][k..] == text[k..][..n - k];
      assert Here(rest, text[k..]);
    }
    if k :| 0 <= k <= |text| && InItem(p.items[0], text[..k]) && Here(rest, text[k..]) {
      var m :| 0 <= m <= |text| - k && InLanguage(rest.items, text[k..][..m]) && (p.atEnd ==> m == |text| - k);
      var n := k + m;
      assert text[..n][..k] == text[..k] && text[..n][k..] == text[k..][..m];
      assert InLanguage(p.items, text[..n]);
    }
  }

  lemma HereOne(re: string, text: string)
    requires re != "" && !(|re| >= 2 && re[1] == '*') && re != "$"
    ensures Here(PatternOf(re), text) <==>
            text != "" && (re[0] == '.' || re[0] == text[0]) && Here(PatternOf(re[1..]), text[1..])
  {
    var p, rest := PatternOf(re), PatternOf(re[1..]);
    assert p.items[1..] == rest.items && p.(items := p.items[1..]) == rest;
    HereFirst(p, text);
    if k :| 0 <= k <= |text| && InItem(p.items[0], text[..k]) && Here(rest, text[k..]) {
      assert k == 1 && text[..1][0] == text[0];
    }
    if text != "" && (re[0] == '.' || re[0] == text[0]) && Here(rest, text[1..]) {
      assert InItem(p.items[0], text[..1]);
    }
  }

  /** A star takes some number of fitting characters off the front. */
  lemma HereStar(re: string, text: string)
    requires |re| >= 2 && re[1] == '*'
    ensures Here(PatternOf(re), text) <==> StarHere(re[0], PatternOf(re[2..]), text)
  {
    var p, rest := PatternOf(re), PatternOf(re[2..]);
    assert p.items[1..] == rest.items && p.(items := p.items[1..]) == rest;
    HereFirst(p, text);
    forall k | 0 <= k <= |text|
      ensures InItem(p.items[0], text[..k]) <==> forall j | 0 <= j < k :: Fits(AtomOf(re[0]), text[j])
    {
      assert forall j | 0 <= j < k :: text[..k][j] == text[j];
    }
  }

  ghost predicate StarHere(c: char, p: Pattern, text: string) {
    exists k | 0 <= k <= |text| :: (forall j | 0 <= j < k :: Fits(AtomOf(c), text[j])) && Here(p, text[k..])
  }

  // ---- The code ----

  method MatchHere(re: string, text: string) returns (r: bool)
    ensures r == Here(PatternOf(re), text)
    decreases |re|, |text|
  {
    if re == "" {
      HereNothing(PatternOf(re), text);
      return true;
    }
    if |re| >= 2 && re[1] == '*' {
      HereStar(re, text);
      r := MatchStar(re[0], re[2..], text);
      return;
    }
    if re[0] == '$' && |re| == 1 {
      HereNothing(PatternOf(re), text);
      return text == "";
    }
    HereOne(re, text);
    if text != "" && (re[0] == '.' || re[0] == text[0]) {
      r := MatchHere(re[1..], text[1..]);
      return;
    }
    r := false;
  }

  /** Looks for `c*re` at the start of the text, the shortest run first. */
  method MatchStar(c: char, re: string, text: string) returns (r: bool)
    ensures r == StarHere(c, PatternOf(re), text)
    decreases |re| + 1, |text|
  {
    var i := 0;
    while true
      invariant 0 <= i <= |text|
      invariant forall j | 0 <= j < i :: Fits(AtomOf(c), text[j])
      invariant forall k | 0 <= k < i :: !Here(PatternOf(re), text[k..])
      decreases |text| - i
    {
      var here := MatchHere(re, text[i..]);
      if here {
        return true;
      }
      if i == |text| || !(text[i] == c || c == '.') {
        break;
      }
      i := i + 1;
    }
    r := false;
  }

  /** 1 exactly when some suffix of the text (the whole text after `^`) starts
      with a string of the pattern. */
  method Match(re: string, text: string) returns (r: bool)
    ensures r == Matches(re, text)
  {
    if re != "" && re[0] == '^' {
      r := MatchHere(re[1..], text);
      return;
    }
    var i := 0;
    while true
      invariant 0 <= i <= |text|
      invariant forall k | 0 <= k < i :: !Here(PatternOf(re), text[k..])
      decreases |text| - i
    {
      var here := MatchHere(re, text[i..]);
      if here {
        return true;
      }
      if i == |text| {
        break;
      }
      i := i + 1;
    }
    r := false;
  }
}
