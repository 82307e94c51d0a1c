/** The parser of `sh.c`: tokens, the recursive descent over them, and the
    termination of the strings in place. */
module Shell {
  const MAXARGS: nat := 10
  const NUL: char := '\0'

  /** Commands over words of type W: strings for what is meant, spans of the
      input for what the parser builds. */
  datatype Cmd<W> =
    | Exec(argv: seq<W>)
    | Redir(cmd: Cmd<W>, file: W, output: bool)
    | Pipe(left: Cmd<W>, right: Cmd<W>)
    | List(left: Cmd<W>, right: Cmd<W>)
    | Back(cmd: Cmd<W>)

  datatype Span = Span(q: nat, eq: nat)

  /** The panics of the parser. */
  datatype Fault = MissingFile | MissingParen | Syntax | TooManyArgs | Leftovers

  datatype Parsed<C, R> = Ok(cmd: C, rest: R) | Fail(fault: Fault)

  // ---- Tokens ----

  predicate IsSpace(c: char) {
    c == ' ' || c == '\t' || c == '\r' || c == '\n' || c == '\U{000b}'
  }

  predicate IsSymbol(c: char) {
    c == '<' || c == '|' || c == '>' || c == '&' || c == ';' || c == '(' || c == ')'
  }

  predicate IsWordChar(c: char) {
    !IsSpace(c) && !IsSymbol(c)
  }

  /** `>>` is the symbol `+`. */
  datatype Token = Sym(c: char) | Word(w: string)

  function Skip(text: string, p: nat): (s: nat)
    requires p <= |text|
    ensures p <= s <= |text| && (s < |text| ==> !IsSpace(text[s]))
    ensures forall i | p <= i < s :: IsSpace(text[i])
    decreases |text| - p
  {
    if p < |text| && IsSpace(text[p]) then Skip(text, p + 1) else p
  }

  function WordEnd(text: string, p: nat): (s: nat)
    requires p <= |text|
    ensures p <= s <= |text| && (s < |text| ==> !IsWordChar(text[s]))
    ensures forall i | p <= i < s :: IsWordChar(text[i])
    decreases |text| - p
  {
    if p < |text| && IsWordChar(text[p]) then WordEnd(text, p + 1) else p
  }

  /** Where the token starting at `p` ends. */
  function End(text: string, p: nat): (e: nat)
    requires p < |text| && !IsSpace(text[p])
    ensures p < e <= |text|
  {
    if text[p] == '>' && p + 1 < |text| && text[p + 1] == '>' then p + 2
    else if IsSymbol(text[p]) then p + 1
    else WordEnd(text, p)
  }

  function TokenAt(text: string, p: nat): Token
    requires p < |text| && !IsSpace(text[p])
  {
    if text[p] == '>' && p + 1 < |text| && text[p + 1] == '>' then Sym('+')
    else if IsSymbol(text[p]) then Sym(text[p])
    else Word(text[p..WordEnd(text, p)])
  }

  /** The tokens from `p` on. */
  function Lex(text: string, p: nat): seq<Token>
    requires p <= |text|
    decreases |text| - p
  {
    var s := Skip(text, p);
    if s == |text| then [] else [TokenAt(text, s)] + Lex(text, End(text, s))
  }

  lemma SkipTwice(text: string, p: nat)
    requires p <= |text|
    ensures Skip(text, Skip(text, p)) == Skip(text, p) && Lex(text, Skip(text, p)) == Lex(text, p)
  {
  }

  /** A blank, tab, return, newline or vertical tab between tokens counts for nothing,
      and ends a word. */
  lemma BlankSkipped(text: string, p: nat)
    requires p < |text| && text[p] in [' ', '\t', '\r', '\n', '\U{000b}']
    ensures Lex(text, p) == Lex(text, p + 1) && WordEnd(text, p) == p
  {
  }

  /** The whole extent of a word: nothing before its end could be another's end. */
  predicate IsToken(text: string, s: Span) {
    && s.q < s.eq <= |text|
    && (forall i | s.q <= i < s.eq :: IsWordChar(text[i]))
    && (s.eq < |text| ==> !IsWordChar(text[s.eq]))
  }

  // ---- The grammar, over tokens ----

  function Starts(toks: seq<Token>, cs: string): (b: bool)
    ensures b ==> |toks| > 0
  {
    toks != [] && toks[0].Sym? && toks[0].c in cs
  }

  /** Gives the innermost command its arguments. */
  function SetArgs<W>(c: Cmd<W>, args: seq<W>): Cmd<W> {
    match c
    case Exec(_) => Exec(args)
    case Redir(d, file, output) => Redir(SetArgs(d, args), file, output)
    case _ => c
  }

  type Result = Parsed<Cmd<string>, seq<Token>>

  function RedirsOf(c: Cmd<string>, toks: seq<Token>): (r: Result)
    ensures r.Ok? ==> |r.rest| <= |toks|
    decreases |toks|
  {
    if Starts(toks, "<>+") then
      if |toks| < 2 || !toks[1].Word? then Fail(MissingFile)
      else RedirsOf(Redir(c, toks[1].w, toks[0].c != '<'), toks[2..])
    else Ok(c, toks)
  }

  function ArgsOf(c: Cmd<string>, args: seq<string>, toks: seq<Token>): (r: Result)
    ensures r.Ok? ==> |r.rest| <= |toks|
    decreases |toks|
  {
    if toks == [] || Starts(toks, "|)&;") then Ok(SetArgs(c, args), toks)
    else if toks[0].Sym? then Fail(Syntax)
    else if |args| + 1 >= MAXARGS then Fail(TooManyArgs)
    else
      var r := RedirsOf(c, toks[1..]);
      if r.Fail? then r else ArgsOf(r.cmd, args + [toks[0].w], r.rest)
  }

  function ExecOf(toks: seq<Token>): (r: Result)
    ensures r.Ok? ==> |r.rest| <= |toks|
    decreases |toks|, 1
  {
    if Starts(toks, "(") then BlockOf(toks)
    else
      var r := RedirsOf(Exec([]), toks);
      if r.Fail? then r else ArgsOf(r.cmd, [], r.rest)
  }

  function BlockOf(toks: seq<Token>): (r: Result)
    requires Starts(toks, "(")
    ensures r.Ok? ==> |r.rest| <= |toks|
    decreases |toks|, 0
  {
    var r := LineOf(toks[1..]);
    if r.Fail? then r
    else if !Starts(r.rest, ")") then Fail(MissingParen)
    else RedirsOf(r.cmd, r.rest[1..])
  }

  function PipeOf(toks: seq<Token>): (r: Result)
    ensures r.Ok? ==> |r.rest| <= |toks|
    decreases |toks|, 2
  {
    var r := ExecOf(toks);
    if r.Ok? && Starts(r.rest, "|") then
      var r' := PipeOf(r.rest[1..]);
      if r'.Fail? then r' else Ok(Pipe(r.cmd, r'.cmd), r'.rest)
    else r
  }

  function BacksOf(c: Cmd<string>, toks: seq<Token>): (r: Result)
    ensures r.Ok? && |r.rest| <= |toks|
    decreases |toks|
  {
    if Starts(toks, "&") then BacksOf(Back(c), toks[1..]) else Ok(c, toks)
  }

  function LineOf(toks: seq<Token>): (r: Result)
    ensures r.Ok? ==> |r.rest| <= |toks|
    decreases |toks|, 3
  {
    var p := PipeOf(toks);
    if p.Fail? then p
    else
      var r := BacksOf(p.cmd, p.rest);
      if Starts(r.rest, ";") then
        var r' := LineOf(r.rest[1..]);
        if r'.Fail? then r' else Ok(List(r.cmd, r'.cmd), r'.rest)
      else r
  }

  function CmdOf(toks: seq<Token>): Result {
    var r := LineOf(toks);
    if r.Ok? && r.rest != [] then Fail(Leftovers) else r
  }

  // ---- The grammar, by splitting the tokens ----

  predicate IsRedir(t: Token) {
    t.Sym? && (t.c == '<' || t.c == '>' || t.c == '+')
  }

  /** Words, and redirections with their files. */
  predicate Plain(toks: seq<Token>) {
    forall k | 0 <= k < |toks| && toks[k].Sym? :: IsRedir(toks[k]) && k + 1 < |toks| && toks[k + 1].Word?
  }

  /** The words that are no files. */
  function Arguments(toks: seq<Token>): seq<string> {
    if toks == [] then []
    else if toks[0].Sym? then (if |toks| < 2 then [] else Arguments(toks[2..]))
    else [toks[0].w] + Arguments(toks[1..])
  }

  /** `c` with the redirections, the first innermost. */
  function Redirected(c: Cmd<string>, toks: seq<Token>): Cmd<string>
    decreases |toks|
  {
    if toks == [] then c
    else if toks[0].Word? then Redirected(c, toks[1..])
    else if |toks| < 2 || !toks[1].Word? then c
    else Redirected(Redir(c, toks[1].w, toks[0].c != '<'), toks[2..])
  }

  predicate IsSimple(toks: seq<Token>, c: Cmd<string>) {
    Plain(toks) && |Arguments(toks)| < 10 && c == Redirected(Exec(Arguments(toks)), toks)
  }

  ghost predicate IsBlock(toks: seq<Token>, c: Cmd<string>)
    decreases |toks|, 0
  {
    exists k, d | 0 < k < |toks| ::
      && toks[0] == Sym('(') && toks[k] == Sym(')') && IsLine(toks[1..k], d)
      && Plain(toks[k + 1..]) && Arguments(toks[k + 1..]) == [] && c == Redirected(d, toks[k + 1..])
  }

  ghost predicate IsExec(toks: seq<Token>, c: Cmd<string>)
    decreases |toks|, 1
  {
    IsSimple(toks, c) || IsBlock(toks, c)
  }

  ghost predicate IsPipe(toks: seq<Token>, c: Cmd<string>)
    decreases |toks|, 2
  {
    || IsExec(toks, c)
    || (c.Pipe? && exists k | 0 <= k < |toks| ::
          toks[k] == Sym('|') && IsExec(toks[..k], c.left) && IsPipe(toks[k + 1..], c.right))
  }

  ghost predicate IsBacks(toks: seq<Token>, c: Cmd<string>)
    decreases |toks|, 3
  {
    || IsPipe(toks, c)
    || (c.Back? && toks != [] && toks[|toks| - 1] == Sym('&') && IsBacks(toks[..|toks| - 1], c.cmd))
  }

  /** The tokens are those of a line that means `c`. */
  ghost predicate IsLine(toks: seq<Token>, c: Cmd<string>)
    decreases |toks|, 4
  {
    || IsBacks(toks, c)
    || (c.List? && exists k | 0 <= k < |toks| ::
          toks[k] == Sym(';') && IsBacks(toks[..k], c.left) && IsLine(toks[k + 1..], c.right))
  }

  // ---- What is parsed is a line ----

  /** The parser has taken the first `n` tokens. */
  predicate Took(toks: seq<Token>, r: Result, n: nat) {
    r.Ok? && n <= |toks| && r.rest == toks[n..]
  }

  lemma {:induction false} PlainJoins(a: seq<Token>, b: seq<Token>, c: Cmd<string>)
    requires Plain(a)
    ensures Plain(b) ==> Plain(a + b)
    ensures Arguments(a + b) == Arguments(a) + Arguments(b)
    ensures Redirected(c, a + b) == Redirected(Redirected(c, a), b)
    decreases |a|
  {
    if a == [] {
      assert a + b == b;
    } else {
      var n := if a[0].Word? then 1 else 2;
      assert (a + b)[n..] == a[n..] + b && (a + b)[0] == a[0];
      PlainTail(a, n);
      if a[0].Word? {
        PlainJoins(a[1..], b, c);
      } else {
        assert (a + b)[1] == a[1];
        PlainJoins(a[2..], b, Redir(c, a[1].w, a[0].c != '<'));
      }
      if Plain(b) {
        forall k | 0 <= k < |a + b| && (a + b)[k].Sym?
          ensures IsRedir((a + b)[k]) && k + 1 < |a + b| && (a + b)[k + 1].Word?
        {
          assert (a + b)[k] == if k < |a| then a[k] else b[k - |a|];
        }
      }
    }
  }

  lemma PlainTail(a: seq<Token>, n: nat)
    requires Plain(a) && n <= |a|
    ensures Plain(a[n..])
  {
    var b := a[n..];
    forall k | 0 <= k < |b| && b[k].Sym? ensures IsRedir(b[k]) && k + 1 < |b| && b[k + 1].Word? {
      assert a[n + k].Sym?;
    }
  }

  lemma {:induction false} SetArgsRedirected(c: Cmd<string>, toks: seq<Token>, args: seq<string>)
    ensures SetArgs(Redirected(c, toks), args) == Redirected(SetArgs(c, args), toks)
    decreases |toks|
  {
    if toks != [] {
      if toks[0].Word? {
        SetArgsRedirected(c, toks[1..], args);
      } else if |toks| >= 2 && toks[1].Word? {
        SetArgsRedirected(Redir(c, toks[1].w, toks[0].c != '<'), toks[2..], args);
      }
    }
  }

  lemma {:induction false} RedirsSound(c: Cmd<string>, toks: seq<Token>) returns (n: nat)
    requires RedirsOf(c, toks).Ok?
    ensures Took(toks, RedirsOf(c, toks), n) && Plain(toks[..n]) && Arguments(toks[..n]) == []
    ensures RedirsOf(c, toks).cmd == Redirected(c, toks[..n])
    decreases |toks|
  {
    if Starts(toks, "<>+") {
      var d := Redir(c, toks[1].w, toks[0].c != '<');
      var m := RedirsSound(d, toks[2..]);
      n := m + 2;
      var a, b := toks[..2], toks[2..][..m];
      assert toks[..n] == a + b && toks[2..][m..] == toks[n..];
      assert a[2..] == [];
      PlainJoins(a, b, c);
    } else {
      n := 0;
    }
  }

  lemma TokensTaken<T>(s: seq<T>, m: nat, l: nat)
    requires 1 + m + l <= |s|
    ensures var a, b := s[1..][..m], s[1 + m..][..l];
      && s[1..][m..] == s[1 + m..] && s[..1 + m + l] == [s[0]] + (a + b) && s[1 + m..][l..] == s[1 + m + l..]
  {
  }

  /** A word, then redirections, then more of a simple command. */
  lemma WordFirst(w: string, a: seq<Token>, b: seq<Token>, c: Cmd<string>, args: seq<string>)
    requires Plain(a) && Plain(b) && Arguments(a) == []
    ensures var toks := [Word(w)] + (a + b);
      && Plain(toks) && Arguments(toks) == [w] + Arguments(b) && Redirected(c, toks) == Redirected(Redirected(c, a), b)
      && args + Arguments(toks) == (args + [w]) + Arguments(b)
  {
    var x := [Word(w)];
    assert x[1..] == [] && Plain(x);
    PlainJoins(a, b, c);
    PlainJoins(x, a + b, c);
    assert Arguments(x) == [w] && Redirected(c, x) == c;
    assert [] + Arguments(b) == Arguments(b);
  }

  lemma ArgsIs(c: Cmd<string>, args: seq<string>, toks: seq<Token>)
    requires toks != [] && !Starts(toks, "|)&;") && ArgsOf(c, args, toks).Ok?
    ensures toks[0].Word? && |args| + 1 < MAXARGS
    ensures var r := RedirsOf(c, toks[1..]);
      r.Ok? && ArgsOf(c, args, toks) == ArgsOf(r.cmd, args + [toks[0].w], r.rest)
  {
  }

  lemma {:induction false} ArgsSound(c: Cmd<string>, args: seq<string>, toks: seq<Token>) returns (n: nat)
    requires ArgsOf(c, args, toks).Ok? && |args| < MAXARGS
    ensures Took(toks, ArgsOf(c, args, toks), n) && Plain(toks[..n]) && |args| + |Arguments(toks[..n])| < MAXARGS
    ensures ArgsOf(c, args, toks).cmd == SetArgs(Redirected(c, toks[..n]), args + Arguments(toks[..n]))
    decreases |toks|
  {
    if toks == [] || Starts(toks, "|)&;") {
      assert args + Arguments(toks[..0]) == args;
      return 0;
    }
    ArgsIs(c, args, toks);
    hide RedirsOf, ArgsOf, Arguments, Redirected, Plain, SetArgs, Starts;
    var m := RedirsSound(c, toks[1..]);
    var r := RedirsOf(c, toks[1..]);
    var l := ArgsSound(r.cmd, args + [toks[0].w], r.rest);
    n := 1 + m + l;
    TokensTaken(toks, m, l);
    WordFirst(toks[0].w, toks[1..][..m], r.rest[..l], c, args);
  }

  lemma {:induction false} ExecSound(toks: seq<Token>) returns (n: nat)
    requires ExecOf(toks).Ok?
    ensures Took(toks, ExecOf(toks), n) && IsExec(toks[..n], ExecOf(toks).cmd)
    decreases |toks|, 1
  {
    if Starts(toks, "(") {
      n := BlockSound(toks);
    } else {
      var m := RedirsSound(Exec([]), toks);
      var d, rest := RedirsOf(Exec([]), toks).cmd, RedirsOf(Exec([]), toks).rest;
      var l := ArgsSound(d, [], rest);
      n := m + l;
      var a, b := toks[..m], rest[..l];
      assert toks[..n] == a + b && rest[l..] == toks[n..];
      PlainJoins(a, b, Exec([]));
      SetArgsRedirected(Exec([]), a + b, Arguments(b));
      assert Arguments(a + b) == Arguments(b) && [] + Arguments(b) == Arguments(b);
    }
  }

  lemma IsBlockAt(toks: seq<Token>, k: nat, d: Cmd<string>, c: Cmd<string>)
    requires 0 < k < |toks| && toks[0] == Sym('(') && toks[k] == Sym(')') && IsLine(toks[1..k], d)
    requires Plain(toks[k + 1..]) && Arguments(toks[k + 1..]) == [] && c == Redirected(d, toks[k + 1..])
    ensures IsBlock(toks, c)
  {
  }

  lemma BlockIs(toks: seq<Token>, r: Result)
    requires Starts(toks, "(") && r == LineOf(toks[1..]) && BlockOf(toks).Ok?
    ensures r.Ok? && Starts(r.rest, ")") && BlockOf(toks) == RedirsOf(r.cmd, r.rest[1..])
  {
  }

  lemma ParenHeads(toks: seq<Token>, rest: seq<Token>)
    requires Starts(toks, "(") && Starts(rest, ")")
    ensures toks[0] == Sym('(') && rest[0] == Sym(')')
  {
  }

  lemma BlockTaken(toks: seq<Token>, l: nat, rest: seq<Token>, m: nat)
    requires 1 + l < |toks| && rest == toks[1..][l..] && 1 + m <= |rest|
    ensures var n, k := l + 2 + m, l + 1;
      && n <= |toks| && rest[0] == toks[k] && rest[1..][m..] == toks[n..]
      && toks[..n][1..k] == toks[1..][..l] && toks[..n][k + 1..] == rest[1..][..m]
      && toks[..n][0] == toks[0] && toks[..n][k] == toks[k]
  {
    assert rest == toks[l + 1..];
    assert rest[1..] == toks[l + 2..];
  }

  lemma {:induction false} BlockSound(toks: seq<Token>) returns (n: nat)
    requires Starts(toks, "(") && BlockOf(toks).Ok?
    ensures Took(toks, BlockOf(toks), n) && IsBlock(toks[..n], BlockOf(toks).cmd)
    decreases |toks|, 0
  {
    var l := LineSound(toks[1..]);
    var r := LineOf(toks[1..]);
    var m := RedirsSound(r.cmd, r.rest[1..]);
    n := l + 2 + m;
    hide LineOf, RedirsOf, BlockOf, IsLine, IsBlock, Arguments, Redirected, Plain, Starts;
    BlockTaken(toks, l, r.rest, m);
    assert toks[0] == Sym('(') && toks[l + 1] == Sym(')') by {
      ParenHeads(toks, r.rest);
    }
    BlockIs(toks, r);
    IsBlockAt(toks[..n], l + 1, r.cmd, BlockOf(toks).cmd);
  }

  lemma {:induction false} PipeSound(toks: seq<Token>) returns (n: nat)
    requires PipeOf(toks).Ok?
    ensures Took(toks, PipeOf(toks), n) && IsPipe(toks[..n], PipeOf(toks).cmd)
    decreases |toks|, 2
  {
    n := ExecSound(toks);
    var r := ExecOf(toks);
    if Starts(r.rest, "|") {
      var k := n;
      var m := PipeSound(r.rest[1..]);
      n := k + 1 + m;
      assert r.rest[1..] == toks[k + 1..] && toks[k + 1..][m..] == toks[n..];
      assert toks[..n][..k] == toks[..k] && toks[..n][k + 1..] == r.rest[1..][..m] && toks[..n][k] == Sym('|');
    }
  }

  lemma {:induction false} BacksSound(c: Cmd<string>, all: seq<Token>, k: nat) returns (n: nat)
    requires k <= |all| && IsBacks(all[..k], c)
    ensures k <= n && Took(all, BacksOf(c, all[k..]), n) && IsBacks(all[..n], BacksOf(c, all[k..]).cmd)
    decreases |all| - k
  {
    if Starts(all[k..], "&") {
      assert all[..k + 1][..k] == all[..k] && all[..k + 1][k] == Sym('&') && all[k..][1..] == all[k + 1..];
      n := BacksSound(Back(c), all, k + 1);
    } else {
      n := k;
    }
  }

  lemma {:induction false} LineSound(toks: seq<Token>) returns (n: nat)
    requires LineOf(toks).Ok?
    ensures Took(toks, LineOf(toks), n) && IsLine(toks[..n], LineOf(toks).cmd)
    decreases |toks|, 3
  {
    var m := PipeSound(toks);
    var p := PipeOf(toks);
    n := BacksSound(p.cmd, toks, m);
    var r := BacksOf(p.cmd, p.rest);
    if Starts(r.rest, ";") {
      var k := n;
      var l := LineSound(r.rest[1..]);
      n := k + 1 + l;
      assert r.rest[1..] == toks[k + 1..] && toks[k + 1..][l..] == toks[n..];
      assert toks[..n][..k] == toks[..k] && toks[..n][k + 1..] == r.rest[1..][..l] && toks[..n][k] == Sym(';');
    }
  }

  // ---- Every line is parsed ----

  predicate Follow(toks: seq<Token>, cs: string) {
    toks == [] || Starts(toks, cs)
  }

  lemma {:induction false} RedirsComplete(c: Cmd<string>, pre: seq<Token>, rest: seq<Token>)
    requires Plain(pre) && Arguments(pre) == [] && !Starts(rest, "<>+")
    ensures RedirsOf(c, pre + rest) == Ok(Redirected(c, pre), rest)
    decreases |pre|
  {
    if pre == [] {
      assert pre + rest == rest;
    } else {
      assert pre[0].Sym? && pre[1].Word?;
      assert (pre + rest)[0] == pre[0] && (pre + rest)[1] == pre[1] && (pre + rest)[2..] == pre[2..] + rest;
      PlainTail(pre, 2);
      RedirsComplete(Redir(c, pre[1].w, pre[0].c != '<'), pre[2..], rest);
    }
  }

  /** The redirections that come first. */
  lemma {:induction false} FirstRedirs(toks: seq<Token>) returns (n: nat)
    requires Plain(toks)
    ensures n <= |toks| && Plain(toks[..n]) && Arguments(toks[..n]) == [] && Plain(toks[n..])
    ensures n < |toks| ==> toks[n].Word?
    decreases |toks|
  {
    if toks != [] && toks[0].Sym? {
      PlainTail(toks, 2);
      var m := FirstRedirs(toks[2..]);
      n := m + 2;
      var a, b := toks[..2], toks[2..][..m];
      assert toks[..n] == a + b && toks[n..] == toks[2..][m..] && a[2..] == [];
      PlainJoins(a, b, Exec([]));
    } else {
      n := 0;
    }
  }

  lemma {:induction false} ArgsComplete(c: Cmd<string>, args: seq<string>, pre: seq<Token>, rest: seq<Token>)
    requires Plain(pre) && (pre != [] ==> pre[0].Word?) && |args| + |Arguments(pre)| < MAXARGS && Follow(rest, "|)&;")
    ensures ArgsOf(c, args, pre + rest) == Ok(SetArgs(Redirected(c, pre), args + Arguments(pre)), rest)
    decreases |pre|
  {
    if pre == [] {
      assert pre + rest == rest && args + Arguments(pre) == args;
      return;
    }
    PlainTail(pre, 1);
    var tail := pre[1..];
    var m := FirstRedirs(tail);
    var a, b := tail[..m], tail[m..];
    assert (pre + rest)[0] == pre[0] && pre == [pre[0]] + (a + b) && (pre + rest)[1..] == a + (b + rest);
    NotRedir(b, rest);
    hide RedirsOf, Arguments, Redirected, Plain, SetArgs;
    RedirsComplete(c, a, b + rest);
    WordFirst(pre[0].w, a, b, c, args);
    ArgsComplete(Redirected(c, a), args + [pre[0].w], b, rest);
  }

  lemma SetNoArgs(args: seq<string>)
    ensures SetArgs(Exec([]), args) == Exec(args) && [] + args == args
  {
  }

  /** Where redirections end. */
  lemma NotRedir(b: seq<Token>, rest: seq<Token>)
    requires (b != [] ==> b[0].Word?) && Follow(rest, "|)&;")
    ensures !Starts(b + rest, "<>+")
  {
    assert if b == [] then b + rest == rest else (b + rest)[0] == b[0];
  }

  lemma NotParen(pre: seq<Token>, rest: seq<Token>)
    requires Plain(pre) && Follow(rest, "|)&;")
    ensures !Starts(pre + rest, "(")
  {
    assert if pre == [] then pre + rest == rest else (pre + rest)[0] == pre[0];
  }

  lemma SimpleComplete(pre: seq<Token>, c: Cmd<string>, rest: seq<Token>)
    requires IsSimple(pre, c) && Follow(rest, "|)&;")
    ensures ExecOf(pre + rest) == Ok(c, rest)
  {
    var m := FirstRedirs(pre);
    var a, b := pre[..m], pre[m..];
    assert pre == a + b && pre + rest == a + (b + rest);
    NotRedir(b, rest);
    NotParen(pre, rest);
    PlainJoins(a, b, Exec([]));
    assert Arguments(pre) == [] + Arguments(b) == Arguments(b);
    hide RedirsOf, ArgsOf, Arguments, Redirected, Plain, SetArgs, Starts, BlockOf;
    RedirsComplete(Exec([]), a, b + rest);
    ArgsComplete(Redirected(Exec([]), a), [], b, rest);
    SetArgsRedirected(Exec([]), pre, Arguments(b));
    SetNoArgs(Arguments(b));
  }

  lemma BetweenParens<T>(s: seq<T>, k: nat, rest: seq<T>)
    requires 0 < k < |s|
    ensures var after := [s[k]] + (s[k + 1..] + rest);
      (s + rest)[0] == s[0] && (s + rest)[1..] == s[1..k] + after && after[1..] == s[k + 1..] + rest
  {
    assert s == [s[0]] + (s[1..k] + ([s[k]] + s[k + 1..]));
  }

  lemma {:induction false} ExecComplete(pre: seq<Token>, c: Cmd<string>, rest: seq<Token>)
    requires IsExec(pre, c) && Follow(rest, "|)&;")
    ensures ExecOf(pre + rest) == Ok(c, rest)
    decreases |pre|, 1
  {
    if IsSimple(pre, c) {
      SimpleComplete(pre, c, rest);
    } else {
      assert IsBlock(pre, c);
      var k, d :| 0 < k < |pre| && pre[0] == Sym('(') && pre[k] == Sym(')') && IsLine(pre[1..k], d)
                  && Plain(pre[k + 1..]) && Arguments(pre[k + 1..]) == [] && c == Redirected(d, pre[k + 1..]);
      var after := [Sym(')')] + (pre[k + 1..] + rest);
      BetweenParens(pre, k, rest);
      hide IsSimple, IsBlock, IsLine, Plain, Arguments, Redirected, LineOf, RedirsOf;
      LineComplete(pre[1..k], d, after);
      RedirsComplete(d, pre[k + 1..], rest);
    }
  }

  lemma SplitAt<T>(s: seq<T>, k: nat, rest: seq<T>)
    requires k < |s|
    ensures var after := [s[k]] + (s[k + 1..] + rest);
      s + rest == s[..k] + after && after[1..] == s[k + 1..] + rest
  {
    assert s == s[..k] + ([s[k]] + s[k + 1..]);
  }

  lemma {:induction false} PipeComplete(pre: seq<Token>, c: Cmd<string>, rest: seq<Token>)
    requires IsPipe(pre, c) && Follow(rest, ")&;")
    ensures PipeOf(pre + rest) == Ok(c, rest)
    decreases |pre|, 2
  {
    if IsExec(pre, c) {
      ExecComplete(pre, c, rest);
    } else {
      var k :| 0 <= k < |pre| && pre[k] == Sym('|') && IsExec(pre[..k], c.left) && IsPipe(pre[k + 1..], c.right);
      var after := [Sym('|')] + (pre[k + 1..] + rest);
      SplitAt(pre, k, rest);
      ExecComplete(pre[..k], c.left, after);
      PipeComplete(pre[k + 1..], c.right, rest);
    }
  }

  lemma {:induction false} BacksComplete(pre: seq<Token>, c: Cmd<string>, rest: seq<Token>)
    requires IsBacks(pre, c) && Follow(rest, ")&;")
    ensures var p := PipeOf(pre + rest);
      p.Ok? && BacksOf(p.cmd, p.rest) == BacksOf(c, rest)
    decreases |pre|, 3
  {
    if IsPipe(pre, c) {
      PipeComplete(pre, c, rest);
    } else {
      var n := |pre| - 1;
      var after := [Sym('&')] + rest;
      assert pre + rest == pre[..n] + after && after[1..] == rest;
      BacksComplete(pre[..n], c.cmd, after);
    }
  }

  lemma {:induction false} LineComplete(pre: seq<Token>, c: Cmd<string>, rest: seq<Token>)
    requires IsLine(pre, c) && Follow(rest, ")")
    ensures LineOf(pre + rest) == Ok(c, rest)
    decreases |pre|, 4
  {
    if IsBacks(pre, c) {
      BacksComplete(pre, c, rest);
    } else {
      var k :| 0 <= k < |pre| && pre[k] == Sym(';') && IsBacks(pre[..k], c.left) && IsLine(pre[k + 1..], c.right);
      var after := [Sym(';')] + (pre[k + 1..] + rest);
      SplitAt(pre, k, rest);
      BacksComplete(pre[..k], c.left, after);
      LineComplete(pre[k + 1..], c.right, rest);
    }
  }

  /** The parser accepts exactly the lines, each as what it means. */
  lemma ParsesExactly(toks: seq<Token>, c: Cmd<string>)
    ensures CmdOf(toks) == Ok(c, []) <==> IsLine(toks, c)
  {
    if IsLine(toks, c) {
      LineComplete(toks, c, []);
      assert toks + [] == toks;
    }
    if CmdOf(toks) == Ok(c, []) {
      var n := LineSound(toks);
      assert n == |toks| && toks[..n] == toks;
    }
  }

  // ---- Printing ----

  /** The tokens of a command where a line, a list element, a pipeline or a
      simple command is expected; parentheses where the level is too low. */
  function LineToks(c: Cmd<string>): seq<Token>
    decreases c, 4
  {
    match c
    case List(l, r) => BackToks(l) + [Sym(';')] + LineToks(r)
    case _ => BackToks(c)
  }

  function BackToks(c: Cmd<string>): seq<Token>
    decreases c, 3
  {
    match c
    case Back(d) => BackToks(d) + [Sym('&')]
    case _ => PipeToks(c)
  }

  function PipeToks(c: Cmd<string>): seq<Token>
    decreases c, 2
  {
    match c
    case Pipe(l, r) => ExecToks(l) + [Sym('|')] + PipeToks(r)
    case _ => ExecToks(c)
  }

  function ExecToks(c: Cmd<string>): seq<Token>
    decreases c, 1
  {
    match c
    case Exec(args) => Words(args)
    case Redir(d, file, output) => ExecToks(d) + [Sym(if output then '>' else '<'), Word(file)]
    case Back(d) => [Sym('(')] + BackToks(d) + [Sym('&'), Sym(')')]
    case Pipe(l, r) => [Sym('(')] + ExecToks(l) + [Sym('|')] + PipeToks(r) + [Sym(')')]
    case List(l, r) => [Sym('(')] + BackToks(l) + [Sym(';')] + LineToks(r) + [Sym(')')]
  }

  function Words(args: seq<string>): seq<Token> {
    seq(|args|, i requires 0 <= i < |args| => Word(args[i]))
  }

  // ---- What is printed is a line ----

  /** At most nine arguments everywhere. */
  predicate FewArgs(c: Cmd<string>) {
    match c
    case Exec(args) => |args| < MAXARGS
    case Redir(d, _, _) => FewArgs(d)
    case Pipe(l, r) => FewArgs(l) && FewArgs(r)
    case List(l, r) => FewArgs(l) && FewArgs(r)
    case Back(d) => FewArgs(d)
  }

  /** A line, list element, pipeline or simple command is printed as one. */
  lemma {:induction false} Printed(c: Cmd<string>)
    requires FewArgs(c)
    ensures IsExec(ExecToks(c), c) && IsPipe(PipeToks(c), c) && IsBacks(BackToks(c), c) && IsLine(LineToks(c), c)
  {
    if c.Exec? {
      WordsPlain(c.argv, c);
    } else if c.Redir? {
      Printed(c.cmd);
      OneMoreRedir(ExecToks(c.cmd), c.cmd, Sym(if c.output then '>' else '<'), c.file);
    } else {
      match c {
        case Pipe(l, r) =>
          Printed(l);
          Printed(r);
        case Back(d) =>
          Printed(d);
        case List(l, r) =>
          Printed(l);
          Printed(r);
      }
      PrintedNode(c);
    }
  }

  lemma PrintedNode(c: Cmd<string>)
    requires !c.Exec? && !c.Redir?
    requires c.Pipe? ==> IsExec(ExecToks(c.left), c.left) && IsPipe(PipeToks(c.right), c.right)
    requires c.Back? ==> IsBacks(BackToks(c.cmd), c.cmd)
    requires c.List? ==> IsBacks(BackToks(c.left), c.left) && IsLine(LineToks(c.right), c.right)
    ensures IsExec(ExecToks(c), c) && IsPipe(PipeToks(c), c) && IsBacks(BackToks(c), c) && IsLine(LineToks(c), c)
  {
    InParentheses(c);
    match c {
      case Pipe(l, r) =>
        var k, toks := |ExecToks(l)|, PipeToks(c);
        assert toks == ExecToks(l) + [Sym('|')] + PipeToks(r);
        assert toks[..k] == ExecToks(l) && toks[k] == Sym('|') && toks[k + 1..] == PipeToks(r);
        hide ExecToks, PipeToks, IsExec, IsBacks, IsLine;
        PipeAt(toks, k, c);
      case Back(d) =>
        var toks := BackToks(c);
        assert toks == BackToks(d) + [Sym('&')];
        assert toks[|toks| - 1] == Sym('&') && toks[..|toks| - 1] == BackToks(d);
        hide ExecToks, PipeToks, IsExec, IsPipe;
      case List(l, r) =>
        var k, toks := |BackToks(l)|, LineToks(c);
        assert toks == BackToks(l) + [Sym(';')] + LineToks(r);
        assert toks[..k] == BackToks(l) && toks[k] == Sym(';') && toks[k + 1..] == LineToks(r);
        hide ExecToks, PipeToks, IsExec, IsPipe, IsBacks, IsLine;
        ListAt(toks, k, c);
    }
    InParens(LineToks(c), c);
    InLine(ExecToks(c), c);
  }

  lemma InParentheses(c: Cmd<string>)
    requires !c.Exec? && !c.Redir?
    ensures ExecToks(c) == [Sym('(')] + LineToks(c) + [Sym(')')]
    ensures LineToks(c) == if c.List? then LineToks(c) else if c.Back? then BackToks(c) else PipeToks(c)
    ensures c.Pipe? ==> BackToks(c) == PipeToks(c)
    ensures c.Back? || c.List? ==> PipeToks(c) == ExecToks(c)
    ensures c.List? ==> BackToks(c) == ExecToks(c)
  {
    match c {
      case Pipe(l, r) =>
        assert LineToks(c) == BackToks(c) == PipeToks(c) == ExecToks(l) + [Sym('|')] + PipeToks(r);
      case Back(d) =>
        assert LineToks(c) == BackToks(c) == BackToks(d) + [Sym('&')];
      case List(l, r) =>
        assert LineToks(c) == BackToks(l) + [Sym(';')] + LineToks(r);
    }
  }

  lemma InLine(toks: seq<Token>, c: Cmd<string>)
    ensures IsExec(toks, c) ==> IsPipe(toks, c)
    ensures IsPipe(toks, c) ==> IsBacks(toks, c)
    ensures IsBacks(toks, c) ==> IsLine(toks, c)
  {
  }

  lemma PipeAt(toks: seq<Token>, k: nat, c: Cmd<string>)
    requires c.Pipe? && k < |toks| && toks[k] == Sym('|') && IsExec(toks[..k], c.left) && IsPipe(toks[k + 1..], c.right)
    ensures IsPipe(toks, c) && IsLine(toks, c)
  {
  }

  lemma ListAt(toks: seq<Token>, k: nat, c: Cmd<string>)
    requires c.List? && k < |toks| && toks[k] == Sym(';')
    requires IsBacks(toks[..k], c.left) && IsLine(toks[k + 1..], c.right)
    ensures IsLine(toks, c)
  {
  }

  lemma InParens(toks: seq<Token>, c: Cmd<string>)
    requires IsLine(toks, c)
    ensures IsBlock([Sym('(')] + toks + [Sym(')')], c)
  {
    var all := [Sym('(')] + toks + [Sym(')')];
    var k := |toks| + 1;
    assert all[1..k] == toks && all[k + 1..] == [];
    hide IsLine;
    IsBlockAt(all, k, c, c);
  }

  lemma {:induction false} WordsPlain(args: seq<string>, c: Cmd<string>)
    ensures Plain(Words(args)) && Arguments(Words(args)) == args && Redirected(c, Words(args)) == c
  {
    if args != [] {
      WordsPlain(args[1..], c);
      assert Words(args)[1..] == Words(args[1..]);
    }
  }

  lemma OneMoreRedir(toks: seq<Token>, c: Cmd<string>, sym: Token, file: string)
    requires IsExec(toks, c) && IsRedir(sym)
    ensures IsExec(toks + [sym, Word(file)], Redir(c, file, sym.c != '<'))
  {
    var pair := [sym, Word(file)];
    assert Plain(pair) && Arguments(pair) == [] && forall d :: Redirected(d, pair) == Redir(d, file, sym.c != '<') by {
      assert pair[2..] == [];
    }
    if IsSimple(toks, c) {
      PlainJoins(toks, pair, Exec(Arguments(toks)));
      assert Arguments(toks) + [] == Arguments(toks);
    } else {
      assert IsBlock(toks, c);
      var k, d :| 0 < k < |toks| && toks[0] == Sym('(') && toks[k] == Sym(')') && IsLine(toks[1..k], d)
                  && Plain(toks[k + 1..]) && Arguments(toks[k + 1..]) == [] && c == Redirected(d, toks[k + 1..]);
      var all := toks + pair;
      assert all[1..k] == toks[1..k] && all[k + 1..] == toks[k + 1..] + pair;
      PlainJoins(toks[k + 1..], pair, d);
      hide IsLine, Plain, Arguments, Redirected;
      IsBlockAt(all, k, d, Redir(c, file, sym.c != '<'));
    }
  }

  lemma ExecRoundTrip(c: Cmd<string>, rest: seq<Token>)
    requires FewArgs(c) && Follow(rest, "|)&;")
    ensures ExecOf(ExecToks(c) + rest) == Ok(c, rest)
  {
    Printed(c);
    ExecComplete(ExecToks(c), c, rest);
  }

  lemma LineRoundTrip(c: Cmd<string>, rest: seq<Token>)
    requires FewArgs(c) && Follow(rest, ")")
    ensures LineOf(LineToks(c) + rest) == Ok(c, rest)
  {
    Printed(c);
    LineComplete(LineToks(c), c, rest);
  }

  /** Whatever the spacing, a text whose tokens are those of a command parses to it. */
  lemma ParsesAsPrinted(c: Cmd<string>, text: string)
    requires FewArgs(c) && Lex(text, 0) == LineToks(c)
    ensures CmdOf(Lex(text, 0)) == Ok(c, [])
  {
    LineRoundTrip(c, []);
    assert LineToks(c) + [] == LineToks(c);
  }

  // ---- Spelling out tokens ----

  predicate GoodWord(w: string) {
    w != "" && forall i | 0 <= i < |w| :: IsWordChar(w[i])
  }

  predicate GoodToken(t: Token) {
    match t
    case Sym(c) => IsSymbol(c)
    case Word(w) => GoodWord(w)
  }

  predicate GoodTokens(toks: seq<Token>) {
    forall i | 0 <= i < |toks| :: GoodToken(toks[i])
  }

  predicate GoodWords(c: Cmd<string>) {
    match c
    case Exec(args) => forall i | 0 <= i < |args| :: GoodWord(args[i])
    case Redir(d, file, _) => GoodWords(d) && GoodWord(file)
    case Pipe(l, r) => GoodWords(l) && GoodWords(r)
    case List(l, r) => GoodWords(l) && GoodWords(r)
    case Back(d) => GoodWords(d)
  }

  function Spell(t: Token): string {
    match t
    case Sym(c) => [c]
    case Word(w) => w
  }

  /** One blank after each token. */
  function Show(toks: seq<Token>): string {
    if toks == [] then "" else Spell(toks[0]) + " " + Show(toks[1..])
  }

  lemma {:induction false} WordEndAt(text: string, p: nat, e: nat)
    requires p <= e < |text| && !IsWordChar(text[e]) && forall i | p <= i < e :: IsWordChar(text[i])
    ensures WordEnd(text, p) == e
    decreases e - p
  {
    if p < e {
      WordEndAt(text, p + 1, e);
    }
  }

  /** Reading one token that a blank follows. */
  lemma LexOne(text: string, p: nat, t: Token)
    requires GoodToken(t) && p + |Spell(t)| < |text| && text[p..p + |Spell(t)|] == Spell(t)
    requires text[p + |Spell(t)|] == ' '
    ensures Lex(text, p) == [t] + Lex(text, p + |Spell(t)| + 1)
  {
    var w, e := Spell(t), p + |Spell(t)|;
    assert forall i | 0 <= i < |w| :: text[p + i] == text[p..e][i] == w[i];
    assert text[p] == w[0];
    if t.Word? {
      forall i | p <= i < e ensures IsWordChar(text[i]) {
        assert text[i] == w[i - p];
      }
      WordEndAt(text, p, e);
    } else {
      assert text[p + 1] == ' ';
    }
    assert Skip(text, p) == p && TokenAt(text, p) == t && End(text, p) == e;
    assert Skip(text, e) == Skip(text, e + 1);
  }

  lemma Parts(text: string, p: nat, w: string, rest: string)
    requires p <= |text| && text[p..] == w + " " + rest
    ensures p + |w| < |text| && text[p..p + |w|] == w && text[p + |w|] == ' ' && text[p + |w| + 1..] == rest
  {
    assert text[p..p + |w|] == text[p..][..|w|];
    assert text[p + |w|] == text[p..][|w|];
    assert text[p + |w| + 1..] == text[p..][|w| + 1..];
  }

  lemma LexNothing(text: string, p: nat)
    requires p <= |text| && text[p..] == ""
    ensures Lex(text, p) == []
  {
    assert |text[p..]| == 0;
  }

  lemma ShowCons(toks: seq<Token>)
    requires toks != []
    ensures Show(toks) == Spell(toks[0]) + " " + Show(toks[1..]) && toks == [toks[0]] + toks[1..]
  {
    FirstAndRest(toks);
    hide Spell;
  }

  lemma FirstAndRest(toks: seq<Token>)
    requires toks != []
    ensures toks == [toks[0]] + toks[1..]
  {
    hide *;
  }

  lemma {:induction false} LexShow(text: string, p: nat, toks: seq<Token>)
    requires p <= |text| && text[p..] == Show(toks) && GoodTokens(toks)
    ensures Lex(text, p) == toks
    decreases |toks|
  {
    hide Lex, GoodToken, Spell;
    if toks == [] {
      LexNothing(text, p);
    } else {
      hide Show;
      ShowCons(toks);
      var w := Spell(toks[0]);
      Parts(text, p, w, Show(toks[1..]));
      LexShow(text, p + |w| + 1, toks[1..]);
      LexOne(text, p, toks[0]);
    }
  }

  /** Symbols around and between good tokens. */
  lemma GoodAround(x: char, a: seq<Token>, y: char, b: seq<Token>, z: char)
    requires GoodTokens(a) && GoodTokens(b) && IsSymbol(x) && IsSymbol(y) && IsSymbol(z)
    ensures GoodTokens(a + [Sym(y)] + b) && GoodTokens([Sym(x)] + a + [Sym(y)] + b + [Sym(z)])
    ensures GoodTokens(a + [Sym(y)]) && GoodTokens([Sym(x)] + a + [Sym(y), Sym(z)])
  {
    hide GoodWord, IsSymbol;
  }

  lemma {:induction false} PrintedTokens(c: Cmd<string>)
    requires GoodWords(c)
    ensures GoodTokens(ExecToks(c)) && GoodTokens(PipeToks(c)) && GoodTokens(BackToks(c)) && GoodTokens(LineToks(c))
  {
    match c
    case Exec(args) =>
    case Redir(d, file, _) => PrintedTokens(d);
    case Pipe(l, r) =>
      PrintedTokens(l);
      PrintedTokens(r);
      GoodAround('(', ExecToks(l), '|', PipeToks(r), ')');
      hide GoodTokens;
    case List(l, r) =>
      PrintedTokens(l);
      PrintedTokens(r);
      GoodAround('(', BackToks(l), ';', LineToks(r), ')');
      hide GoodTokens;
    case Back(d) =>
      PrintedTokens(d);
      GoodAround('(', BackToks(d), '&', [], ')');
      hide GoodTokens;
  }

  /** Printing a command and parsing the text gives the command back. */
  lemma RoundTrip(c: Cmd<string>)
    requires FewArgs(c) && GoodWords(c)
    ensures CmdOf(Lex(Show(LineToks(c)), 0)) == Ok(c, [])
  {
    var text := Show(LineToks(c));
    PrintedTokens(c);
    assert text[0..] == text;
    LexShow(text, 0, LineToks(c));
    ParsesAsPrinted(c, text);
  }

  // ---- The parser over the text ----

  function Spelled(text: string, s: Span): string
    requires s.q <= s.eq <= |text|
  {
    text[s.q..s.eq]
  }

  /** Every string of the command is a whole token of the text. */
  predicate Whole(text: string, c: Cmd<Span>) {
    match c
    case Exec(args) => forall i | 0 <= i < |args| :: IsToken(text, args[i])
    case Redir(d, file, _) => Whole(text, d) && IsToken(text, file)
    case Pipe(l, r) => Whole(text, l) && Whole(text, r)
    case List(l, r) => Whole(text, l) && Whole(text, r)
    case Back(d) => Whole(text, d)
  }

  function Texts(text: string, args: seq<Span>): seq<string>
    requires forall i | 0 <= i < |args| :: IsToken(text, args[i])
  {
    seq(|args|, i requires 0 <= i < |args| && IsToken(text, args[i]) => Spelled(text, args[i]))
  }

  /** The command with its spans read out of the text. */
  function Meant(text: string, c: Cmd<Span>): Cmd<string>
    requires Whole(text, c)
  {
    match c
    case Exec(args) => Exec(Texts(text, args))
    case Redir(d, file, output) => Redir(Meant(text, d), Spelled(text, file), output)
    case Pipe(l, r) => Pipe(Meant(text, l), Meant(text, r))
    case List(l, r) => List(Meant(text, l), Meant(text, r))
    case Back(d) => Back(Meant(text, d))
  }

  function At(text: string, p: nat): char {
    if p < |text| then text[p] else NUL
  }

  method SkipSpaces(text: string, ps: nat) returns (s: nat)
    requires ps <= |text|
    ensures s == Skip(text, ps)
  {
    s := ps;
    while s < |text| && IsSpace(text[s])
      invariant ps <= s <= |text| && Skip(text, s) == Skip(text, ps)
    {
      s := s + 1;
    }
  }

  /** `ret` is 0 at the end, `a` for a word and `+` for `>>`. */
  method GetToken(text: string, ps: nat) returns (ret: char, q: nat, eq: nat, ps': nat)
    requires ps <= |text| && NUL !in text
    ensures q == Skip(text, ps) && ps <= q <= eq <= ps' <= |text|
    ensures q == |text| ==> ret == NUL && eq == q && ps' == q
    ensures q < |text| ==> eq == End(text, q) && ps' == Skip(text, eq) && ps < ps'
    ensures q < |text| && TokenAt(text, q).Sym? ==> ret == TokenAt(text, q).c && ret != 'a' && ret != NUL
    ensures q < |text| && TokenAt(text, q).Word? ==>
              ret == 'a' && IsToken(text, Span(q, eq)) && TokenAt(text, q).w == text[q..eq]
  {
    q := SkipSpaces(text, ps);
    var s := q;
    ret := At(text, s);
    if ret == NUL {
      assert q == |text|;
    } else if ret in "|();&<" {
      s := s + 1;
    } else if ret == '>' {
      s := s + 1;
      if At(text, s) == '>' {
        ret := '+';
        s := s + 1;
      }
    } else {
      ret := 'a';
      while s < |text| && !IsSpace(text[s]) && !IsSymbol(text[s])
        invariant q <= s <= |text| && WordEnd(text, s) == WordEnd(text, q)
      {
        s := s + 1;
      }
    }
    eq := s;
    ps' := SkipSpaces(text, eq);
  }

  method Peek(text: string, ps: nat, toks: string) returns (r: bool, ps': nat)
    requires ps <= |text| && NUL !in text && NUL !in toks
    ensures ps' == Skip(text, ps) && r == (ps' < |text| && text[ps'] in toks)
  {
    ps' := SkipSpaces(text, ps);
    r := At(text, ps') != NUL && At(text, ps') in toks;
  }

  type Built = Parsed<Cmd<Span>, nat>

  /** What a parsing method owes the grammar: the same verdict, the same
      command, and the rest of the tokens still to come. */
  ghost predicate Agrees(text: string, ps: nat, b: Built, r: Result) {
    if r.Fail? then b == Fail(r.fault)
    else
      && b.Ok? && ps <= b.rest <= |text| && Lex(text, b.rest) == r.rest
      && Whole(text, b.cmd) && Meant(text, b.cmd) == r.cmd
  }

  /** peek looks at the next token's first character. */
  lemma PeekToken(text: string, ps: nat)
    requires ps <= |text|
    ensures var p, toks := Skip(text, ps), Lex(text, ps);
      && (p == |text| <==> toks == [])
      && (p < |text| ==> toks == [TokenAt(text, p)] + Lex(text, End(text, p)))
      && (p < |text| && TokenAt(text, p).Word? ==> IsWordChar(text[p]))
      && (p < |text| && TokenAt(text, p).Sym? && text[p] != '>' ==> TokenAt(text, p) == Sym(text[p]))
      && (p < |text| && text[p] == '>' ==> TokenAt(text, p) == Sym('>') || TokenAt(text, p) == Sym('+'))
      && (p < |text| ==> (IsSymbol(text[p]) <==> TokenAt(text, p).Sym?))
      && Lex(text, p) == toks && Skip(text, p) == p
  {
    SkipTwice(text, ps);
  }

  lemma RedirsStep(c: Cmd<string>, t: Token, file: string, rest: seq<Token>)
    requires t == Sym('<') || t == Sym('>') || t == Sym('+')
    ensures RedirsOf(c, [t] + ([Word(file)] + rest)) == RedirsOf(Redir(c, file, t.c != '<'), rest)
  {
    assert ([t] + ([Word(file)] + rest))[2..] == rest;
  }

  lemma RedirsMissing(c: Cmd<string>, t: Token, rest: seq<Token>)
    requires t == Sym('<') || t == Sym('>') || t == Sym('+')
    requires rest == [] || rest[0].Sym?
    ensures RedirsOf(c, [t] + rest) == Fail(MissingFile)
  {
  }

  lemma RedirsNone(c: Cmd<string>, toks: seq<Token>)
    requires toks == [] || toks[0].Word? || toks[0].c !in "<>+"
    ensures RedirsOf(c, toks) == Ok(c, toks)
  {
  }

  method ParseRedirs(text: string, cmd: Cmd<Span>, ps: nat) returns (r: Built)
    requires ps <= |text| && NUL !in text && Whole(text, cmd)
    ensures Agrees(text, ps, r, RedirsOf(Meant(text, cmd), Lex(text, ps)))
  {
    hide Lex, Skip, TokenAt, End, WordEnd, RedirsOf;
    var p, ret := ps, cmd;
    while true
      invariant ps <= p <= |text| && Whole(text, ret)
      invariant RedirsOf(Meant(text, ret), Lex(text, p)) == RedirsOf(Meant(text, cmd), Lex(text, ps))
      decreases |text| - p
    {
      var more;
      PeekToken(text, p);
      more, p := Peek(text, p, "<>");
      ghost var toks, t := Lex(text, p), Sym(' ');
      if !more {
        RedirsNone(Meant(text, ret), toks);
        return Ok(ret, p);
      }
      var tok, q, eq;
      t := TokenAt(text, p);
      tok, q, eq, p := GetToken(text, p);
      SkipTwice(text, eq);
      PeekToken(text, p);
      assert toks == [t] + Lex(text, p);
      var file;
      ghost var rest := Lex(text, p);
      file, q, eq, p := GetToken(text, p);
      if file != 'a' {
        RedirsMissing(Meant(text, ret), t, rest);
        return Fail(MissingFile);
      }
      SkipTwice(text, eq);
      RedirsStep(Meant(text, ret), t, text[q..eq], Lex(text, p));
      ret := Redir(ret, Span(q, eq), tok != '<');
    }
  }

  lemma {:induction false} MeantArgs(text: string, c: Cmd<Span>, args: seq<Span>)
    requires Whole(text, c) && forall i | 0 <= i < |args| :: IsToken(text, args[i])
    ensures Whole(text, SetArgs(c, args))
    ensures Meant(text, SetArgs(c, args)) == SetArgs(Meant(text, c), Texts(text, args))
  {
    if c.Redir? {
      MeantArgs(text, c.cmd, args);
    }
  }

  lemma TextsMore(text: string, args: seq<Span>, s: Span)
    requires IsToken(text, s) && forall i | 0 <= i < |args| :: IsToken(text, args[i])
    ensures forall i | 0 <= i < |args + [s]| :: IsToken(text, (args + [s])[i])
    ensures Texts(text, args + [s]) == Texts(text, args) + [Spelled(text, s)]
  {
  }

  lemma ArgsEnd(c: Cmd<string>, args: seq<string>, toks: seq<Token>)
    requires toks == [] || (toks[0].Sym? && toks[0].c in "|)&;")
    ensures ArgsOf(c, args, toks) == Ok(SetArgs(c, args), toks)
  {
  }

  lemma ArgsBad(c: Cmd<string>, args: seq<string>, toks: seq<Token>)
    requires toks != [] && toks[0].Sym? && toks[0].c !in "|)&;"
    ensures ArgsOf(c, args, toks) == Fail(Syntax)
  {
  }

  lemma ArgsStep(c: Cmd<string>, args: seq<string>, w: string, rest: seq<Token>)
    ensures ArgsOf(c, args, [Word(w)] + rest) ==
            if |args| + 1 >= MAXARGS then Fail(TooManyArgs)
            else
              var r := RedirsOf(c, rest);
              if r.Fail? then r else ArgsOf(r.cmd, args + [w], r.rest)
  {
    assert ([Word(w)] + rest)[1..] == rest;
  }

  /** The loop of parseexec over a simple command. The C code's `cmd` is the
      innermost command of `ret`, here given its arguments at the end. */
  method ParseArgs(text: string, cmd: Cmd<Span>, ps: nat) returns (r: Built)
    requires ps <= |text| && NUL !in text && Whole(text, cmd)
    ensures Agrees(text, ps, r, ArgsOf(Meant(text, cmd), [], Lex(text, ps)))
  {
    hide Lex, Skip, TokenAt, End, WordEnd, RedirsOf, ArgsOf;
    var p, ret, args := ps, cmd, [];
    assert Texts(text, args) == [];
    while true
      invariant ps <= p <= |text| && Whole(text, ret) && forall i | 0 <= i < |args| :: IsToken(text, args[i])
      invariant ArgsOf(Meant(text, ret), Texts(text, args), Lex(text, p)) == ArgsOf(Meant(text, cmd), [], Lex(text, ps))
      decreases |text| - p
    {
      var stop;
      PeekToken(text, p);
      stop, p := Peek(text, p, "|)&;");
      ghost var toks := Lex(text, p);
      var tok, q, eq := NUL, 0, 0;
      if !stop {
        tok, q, eq, p := GetToken(text, p);
      }
      if tok == NUL {
        ArgsEnd(Meant(text, ret), Texts(text, args), toks);
        MeantArgs(text, ret, args);
        return Ok(SetArgs(ret, args), p);
      }
      if tok != 'a' {
        ArgsBad(Meant(text, ret), Texts(text, args), toks);
        return Fail(Syntax);
      }
      SkipTwice(text, eq);
      ArgsStep(Meant(text, ret), Texts(text, args), text[q..eq], Lex(text, p));
      TextsMore(text, args, Span(q, eq));
      args := args + [Span(q, eq)];
      if |args| >= MAXARGS {
        return Fail(TooManyArgs);
      }
      var b := ParseRedirs(text, ret, p);
      if b.Fail? {
        return b;
      }
      ret, p := b.cmd, b.rest;
    }
  }

  lemma Opens(text: string, ps: nat, c: char)
    requires ps <= |text| && c in "()&;|"
    ensures var p := Skip(text, ps);
      Starts(Lex(text, ps), [c]) <==> p < |text| && text[p] == c
    ensures Starts(Lex(text, ps), [c]) ==> Lex(text, ps)[1..] == Lex(text, End(text, Skip(text, ps)))
  {
    PeekToken(text, ps);
  }

  method ParseExec(text: string, ps: nat) returns (r: Built)
    requires ps <= |text| && NUL !in text
    ensures Agrees(text, ps, r, ExecOf(Lex(text, ps)))
    decreases |text| - ps, 1
  {
    hide Lex, Skip, TokenAt, End, WordEnd, RedirsOf, ArgsOf, BlockOf;
    var block, p;
    SkipTwice(text, ps);
    Opens(text, ps, '(');
    block, p := Peek(text, ps, "(");
    if block {
      r := ParseBlock(text, p);
      return;
    }
    assert Meant(text, Exec([])) == Exec([]);
    r := ParseRedirs(text, Exec([]), p);
    if r.Ok? {
      r := ParseArgs(text, r.cmd, r.rest);
    }
  }

  method ParseBlock(text: string, ps: nat) returns (r: Built)
    requires ps <= |text| && NUL !in text && Starts(Lex(text, ps), "(")
    ensures Agrees(text, ps, r, BlockOf(Lex(text, ps)))
    decreases |text| - ps, 0
  {
    hide Lex, Skip, TokenAt, End, WordEnd, RedirsOf, LineOf;
    Opens(text, ps, '(');
    PeekToken(text, ps);
    var open, p := Peek(text, ps, "(");
    assert open;
    var tok, q, eq;
    tok, q, eq, p := GetToken(text, p);
    SkipTwice(text, eq);
    r := ParseLine(text, p);
    if r.Fail? {
      return;
    }
    var cmd, close := r.cmd, false;
    Opens(text, r.rest, ')');
    PeekToken(text, r.rest);
    close, p := Peek(text, r.rest, ")");
    if !close {
      return Fail(MissingParen);
    }
    tok, q, eq, p := GetToken(text, p);
    SkipTwice(text, eq);
    r := ParseRedirs(text, cmd, p);
  }

  method ParsePipe(text: string, ps: nat) returns (r: Built)
    requires ps <= |text| && NUL !in text
    ensures Agrees(text, ps, r, PipeOf(Lex(text, ps)))
    decreases |text| - ps, 2
  {
    hide Lex, Skip, TokenAt, End, WordEnd, ExecOf;
    r := ParseExec(text, ps);
    if r.Fail? {
      return;
    }
    var cmd := r.cmd;
    Opens(text, r.rest, '|');
    PeekToken(text, r.rest);
    var more, p := Peek(text, r.rest, "|");
    if !more {
      return Ok(cmd, p);
    }
    var tok, q, eq;
    tok, q, eq, p := GetToken(text, p);
    SkipTwice(text, eq);
    r := ParsePipe(text, p);
    if r.Ok? {
      r := Ok(Pipe(cmd, r.cmd), r.rest);
    }
  }

  method ParseLine(text: string, ps: nat) returns (r: Built)
    requires ps <= |text| && NUL !in text
    ensures Agrees(text, ps, r, LineOf(Lex(text, ps)))
    decreases |text| - ps, 3
  {
    hide Lex, Skip, TokenAt, End, WordEnd, PipeOf;
    r := ParsePipe(text, ps);
    if r.Fail? {
      return;
    }
    var cmd, p := r.cmd, r.rest;
    ghost var first := PipeOf(Lex(text, ps));
    while true
      invariant ps <= p <= |text| && Whole(text, cmd)
      invariant BacksOf(Meant(text, cmd), Lex(text, p)) == BacksOf(first.cmd, first.rest)
      decreases |text| - p
    {
      var back;
      Opens(text, p, '&');
      PeekToken(text, p);
      back, p := Peek(text, p, "&");
      if !back {
        break;
      }
      var tok, q, eq;
      tok, q, eq, p := GetToken(text, p);
      SkipTwice(text, eq);
      cmd := Back(cmd);
    }
    var tok, q, eq, more;
    Opens(text, p, ';');
    PeekToken(text, p);
    more, p := Peek(text, p, ";");
    if !more {
      return Ok(cmd, p);
    }
    tok, q, eq, p := GetToken(text, p);
    SkipTwice(text, eq);
    r := ParseLine(text, p);
    if r.Ok? {
      r := Ok(List(cmd, r.cmd), r.rest);
    }
  }

  // ---- Termination in place ----

  /** The strings of a command. */
  function Strings(c: Cmd<Span>): set<Span> {
    match c
    case Exec(args) => set i | 0 <= i < |args| :: args[i]
    case Redir(d, file, _) => Strings(d) + {file}
    case Pipe(l, r) => Strings(l) + Strings(r)
    case List(l, r) => Strings(l) + Strings(r)
    case Back(d) => Strings(d)
  }

  predicate EndsAt(c: Cmd<Span>, i: nat) {
    exists s | s in Strings(c) :: s.eq == i
  }

  /** The characters from `p` to the next NUL. */
  function CString(s: seq<char>, p: nat): string
    requires p <= |s|
    decreases |s| - p
  {
    if p == |s| || s[p] == NUL then "" else [s[p]] + CString(s, p + 1)
  }

  lemma {:induction false} CStringIs(s: seq<char>, p: nat, e: nat)
    requires p <= e < |s| && s[e] == NUL && forall i | p <= i < e :: s[i] != NUL
    ensures CString(s, p) == s[p..e]
    decreases e - p
  {
    if p < e {
      CStringIs(s, p + 1, e);
      assert s[p..e] == [s[p]] + s[p + 1..e];
    }
  }

  lemma {:induction false} WholeStrings(text: string, c: Cmd<Span>)
    requires Whole(text, c)
    ensures forall s | s in Strings(c) :: IsToken(text, s)
  {
    match c
    case Exec(args) =>
    case Redir(d, file, _) => WholeStrings(text, d);
    case Pipe(l, r) => WholeStrings(text, l); WholeStrings(text, r);
    case List(l, r) => WholeStrings(text, l); WholeStrings(text, r);
    case Back(d) => WholeStrings(text, d);
  }

  /** Writing a NUL at the end of every string spoils none of them: each reads
      as exactly its token. */
  lemma TerminatedStrings(text: string, c: Cmd<Span>, s: seq<char>, sp: Span)
    requires Whole(text, c) && NUL !in text && |text| < |s| && sp in Strings(c)
    requires forall i | 0 <= i < |text| :: s[i] == if EndsAt(c, i) then NUL else text[i]
    requires s[|text|] == NUL
    ensures sp.q <= sp.eq <= |text| && CString(s, sp.q) == text[sp.q..sp.eq]
  {
    WholeStrings(text, c);
    assert EndsAt(c, sp.eq);
    forall i | sp.q <= i < sp.eq ensures s[i] == text[i] && text[i] != NUL {
      assert IsWordChar(text[i]);
      assert text[i] in text;
    }
    CStringIs(s, sp.q, sp.eq);
    assert s[sp.q..sp.eq] == text[sp.q..sp.eq];
  }

  method NulTerminate(c: Cmd<Span>, buf: array<char>)
    requires forall s | s in Strings(c) :: s.eq < buf.Length
    modifies buf
    ensures forall i | 0 <= i < buf.Length :: buf[i] == if EndsAt(c, i) then NUL else old(buf[i])
    decreases c
  {
    match c {
      case Exec(args) =>
        var i := 0;
        while i < |args|
          invariant 0 <= i <= |args|
          invariant forall k | 0 <= k < i :: buf[args[k].eq] == NUL
          invariant forall j | 0 <= j < buf.Length :: buf[j] == old(buf[j]) || (buf[j] == NUL && EndsAt(c, j))
        {
          assert args[i] in Strings(c);
          buf[args[i].eq] := NUL;
          i := i + 1;
        }
      case Redir(d, file, _) =>
        NulTerminate(d, buf);
        assert file in Strings(c) && file.eq < buf.Length;
        forall i ensures EndsAt(c, i) <==> EndsAt(d, i) || i == file.eq {
          EndsOfParts(c, i);
        }
        buf[file.eq] := NUL;
      case Pipe(l, r) =>
        NulTerminate(l, buf);
        NulTerminate(r, buf);
        forall i ensures EndsAt(c, i) <==> EndsAt(l, i) || EndsAt(r, i) {
          EndsOfParts(c, i);
        }
      case List(l, r) =>
        NulTerminate(l, buf);
        NulTerminate(r, buf);
        forall i ensures EndsAt(c, i) <==> EndsAt(l, i) || EndsAt(r, i) {
          EndsOfParts(c, i);
        }
      case Back(d) =>
        NulTerminate(d, buf);
    }
  }

  lemma EndsOfParts(c: Cmd<Span>, i: nat)
    ensures c.Redir? ==> (EndsAt(c, i) <==> EndsAt(c.cmd, i) || i == c.file.eq)
    ensures c.Pipe? || c.List? ==> (EndsAt(c, i) <==> EndsAt(c.left, i) || EndsAt(c.right, i))
  {
    match c
    case Redir(d, file, _) => assert file in Strings(c);
    case Pipe(l, r) => assert forall s :: s in Strings(c) <==> s in Strings(l) || s in Strings(r);
    case List(l, r) => assert forall s :: s in Strings(c) <==> s in Strings(l) || s in Strings(r);
    case _ =>
  }

  /** The command in the buffer's string, whose words are afterwards C strings
      in that buffer; on a syntax error the buffer is as it was. */
  method ParseCmd(buf: array<char>) returns (r: Built, ghost text: string)
    requires exists i | 0 <= i < buf.Length :: buf[i] == NUL
    modifies buf
    ensures text < old(buf[..]) && NUL !in text && old(buf[..])[|text|] == NUL
    ensures match CmdOf(Lex(text, 0))
      case Fail(f) => r == Fail(f) && buf[..] == old(buf[..])
      case Ok(meant, _) =>
        && r.Ok? && Whole(text, r.cmd) && Meant(text, r.cmd) == meant
        && forall s | s in Strings(r.cmd) :: s.q <= s.eq <= |text| && CString(buf[..], s.q) == text[s.q..s.eq]
  {
    var es := 0;
    while buf[es] != NUL
      invariant 0 <= es < buf.Length && NUL !in buf[..es]
      invariant exists i | es <= i < buf.Length :: buf[i] == NUL
      decreases buf.Length - es
    {
      es := es + 1;
    }
    var t := buf[..es];
    text := t;
    r := ParseLine(t, 0);
    if r.Fail? {
      return;
    }
    SkipTwice(t, r.rest);
    PeekToken(t, r.rest);
    var any, p := Peek(t, r.rest, "");
    if p != es {
      return Fail(Leftovers), text;
    }
    WholeStrings(t, r.cmd);
    NulTerminate(r.cmd, buf);
    forall s | s in Strings(r.cmd) ensures s.q <= s.eq <= |text| && CString(buf[..], s.q) == text[s.q..s.eq] {
      TerminatedStrings(text, r.cmd, buf[..], s);
    }
  }
}
