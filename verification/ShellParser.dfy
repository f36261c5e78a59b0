/** The parser of user/sh.c as it runs: a cursor moves over the line, words are spans of it, and
    nulterminate writes into the line. */
module ShellParser {
  import opened ShellGrammar
  import opened ShellLex

  /** q and eq of a word. */
  datatype Span = Span(q: int, e: int)

  /** A word of s: all word characters, and it ends where they end. */
  ghost predicate GoodSpan(s: string, x: Span) {
    && 0 <= x.q < x.e <= |s|
    && (forall k :: x.q <= k < x.e ==> IsWordChar(s[k]))
    && (x.e < |s| ==> !IsWordChar(s[x.e]))
  }

  ghost predicate GoodSpans(s: string, xs: seq<Span>) {
    forall k :: 0 <= k < |xs| ==> GoodSpan(s, xs[k])
  }

  ghost predicate GoodRedirSpans(s: string, rs: seq<Redirection<Span>>) {
    forall k :: 0 <= k < |rs| ==> GoodSpan(s, rs[k].file)
  }

  ghost predicate GoodCmd(s: string, c: Cmd<Span>) {
    match c
    case Exec(args) => GoodSpans(s, args)
    case Redir(d, f, _) => GoodCmd(s, d) && GoodSpan(s, f)
    case Pipe(l, r) => GoodCmd(s, l) && GoodCmd(s, r)
    case List(l, r) => GoodCmd(s, l) && GoodCmd(s, r)
    case Back(d) => GoodCmd(s, d)
  }

  ghost function TextOf(s: string, x: Span): (w: string)
    requires GoodSpan(s, x)
  {
    s[x.q..x.e]
  }

  ghost function TextsOf(s: string, xs: seq<Span>): (ws: seq<string>)
    requires GoodSpans(s, xs)
    ensures |ws| == |xs|
  {
    if |xs| == 0 then [] else TextsOf(s, xs[..|xs| - 1]) + [TextOf(s, xs[|xs| - 1])]
  }

  ghost function RedirTexts(s: string, rs: seq<Redirection<Span>>): (r: seq<Redirection<string>>)
    requires GoodRedirSpans(s, rs)
    ensures |r| == |rs|
  {
    if |rs| == 0 then []
    else RedirTexts(s, rs[..|rs| - 1]) + [Redirection(TextOf(s, rs[|rs| - 1].file), rs[|rs| - 1].mode)]
  }

  /** The tree with the text of its words. */
  ghost function Tree(s: string, c: Cmd<Span>): (t: Cmd<string>)
    requires GoodCmd(s, c)
  {
    match c
    case Exec(args) => Exec(TextsOf(s, args))
    case Redir(d, f, m) => Redir(Tree(s, d), TextOf(s, f), m)
    case Pipe(l, r) => Pipe(Tree(s, l), Tree(s, r))
    case List(l, r) => List(Tree(s, l), Tree(s, r))
    case Back(d) => Back(Tree(s, d))
  }

  lemma {:induction false} WrapTree(s: string, c: Cmd<Span>, rs: seq<Redirection<Span>>)
    requires GoodCmd(s, c) && GoodRedirSpans(s, rs)
    ensures GoodCmd(s, Wrap(c, rs)) && Tree(s, Wrap(c, rs)) == Wrap(Tree(s, c), RedirTexts(s, rs))
    decreases |rs|
  {
    hide GoodSpan;
    if |rs| > 0 {
      WrapTree(s, c, rs[..|rs| - 1]);
      var r := RedirTexts(s, rs);
      assert r[..|r| - 1] == RedirTexts(s, rs[..|rs| - 1]);
    }
  }

  lemma SnocText(s: string, xs: seq<Span>, x: Span)
    requires GoodSpans(s, xs) && GoodSpan(s, x)
    ensures GoodSpans(s, xs + [x]) && TextsOf(s, xs + [x]) == TextsOf(s, xs) + [TextOf(s, x)]
  {
    assert (xs + [x])[..|xs|] == xs;
  }

  lemma SnocRedir(s: string, rs: seq<Redirection<Span>>, x: Redirection<Span>)
    requires GoodRedirSpans(s, rs) && GoodSpan(s, x.file)
    ensures GoodRedirSpans(s, rs + [x])
            && RedirTexts(s, rs + [x]) == RedirTexts(s, rs) + [Redirection(TextOf(s, x.file), x.mode)]
  {
    assert (rs + [x])[..|rs|] == rs;
  }

  /** parseredirs adds to the redirections there are already. */
  function RedirsOnto(done: seq<Redirection<string>>, ts: seq<Tok>): (r: Parsed<seq<Redirection<string>>>) {
    match Redirs(ts)
    case Panic => Panic
    case Ok(rs, rest) => Ok(done + rs, rest)
  }

  lemma OntoStep(done: seq<Redirection<string>>, ts: seq<Tok>)
    requires IsRedir(ts) && |ts| >= 2 && ts[1].Word?
    ensures RedirsOnto(done, ts) == RedirsOnto(done + [Redirection(ts[1].w, ModeOf(ts[0]))], ts[2..])
  {
    var x := Redirection(ts[1].w, ModeOf(ts[0]));
    match Redirs(ts[2..])
    case Panic =>
    case Ok(rs, rest) => assert done + ([x] + rs) == done + [x] + rs;
  }

  class Parser {
    const s: string
    var pos: nat

    ghost predicate Valid()
      reads this
    {
      pos <= |s|
    }

    constructor (s: string)
      ensures Valid() && this.s == s && pos == 0
    {
      this.s, pos := s, 0;
    }

    method SkipBlanks()
      requires Valid()
      modifies this
      ensures Valid() && pos == Skip(s, old(pos))
    {
      while pos < |s| && IsSpace(s[pos])
        invariant old(pos) <= pos <= |s| && Skip(s, pos) == Skip(s, old(pos))
      {
        pos := pos + 1;
      }
    }

    /** peek. */
    method Peek(toks: string) returns (b: bool)
      requires Valid()
      modifies this
      ensures Valid() && old(pos) <= pos && Lex(s, pos) == Lex(s, old(pos))
      ensures pos == |s| || !IsSpace(s[pos])
      ensures b <==> pos < |s| && s[pos] in toks
    {
      hide Lex, IsSpace;
      LexSkip(s, pos);
      SkipBlanks();
      b := pos < |s| && s[pos] in toks;
    }

    /** The switch of gettoken. */
    method Scan() returns (ret: char)
      requires pos < |s| && !IsSpace(s[pos])
      modifies this
      ensures Valid() && pos == TokEnd(s, old(pos)) && Code(ret, TokAt(s, old(pos)))
    {
      hide IsSpace;
      ghost var q := pos;
      ret := s[pos];
      if ret == '|' || ret == '(' || ret == ')' || ret == ';' || ret == '&' || ret == '<' {
        pos := pos + 1;
      } else if ret == '>' {
        pos := pos + 1;
        if pos < |s| && s[pos] == '>' {
          ret := '+';
          pos := pos + 1;
        }
      } else {
        ret := 'a';
        while pos < |s| && !IsSpace(s[pos]) && !IsSymbol(s[pos])
          invariant q <= pos <= |s| && WordEnd(s, pos) == WordEnd(s, q)
        {
          pos := pos + 1;
        }
      }
    }

    /** gettoken: 0 at the end of the line, else the symbol, '+' for ">>" or 'a' for a word. */
    method Gettoken() returns (ret: char, q: nat, eq: nat)
      requires Valid()
      modifies this
      ensures Valid() && old(pos) <= q <= eq <= pos
      ensures ret == '\0' <==> Lex(s, old(pos)) == []
      ensures ret == '\0' ==> pos == |s|
      ensures ret != '\0' ==>
                q < eq && q < |s| && !IsSpace(s[q]) && eq == TokEnd(s, q)
                && Lex(s, old(pos)) == [TokAt(s, q)] + Lex(s, pos)
      ensures ret != '\0' ==> Code(ret, TokAt(s, q))
    {
      hide Lex, IsSpace, TokAt, TokEnd, Code;
      LexAt(s, pos);
      SkipBlanks();
      q, eq := pos, pos;
      if pos == |s| {
        return '\0', q, eq;
      }
      ret := Scan();
      NotNul(ret, TokAt(s, q));
      eq := pos;
      LexSkip(s, eq);
      SkipBlanks();
    }

    /** parseredirs, on top of the redirections found before; false is its panic. */
    method ParseRedirs(done: seq<Redirection<Span>>) returns (ok: bool, rs: seq<Redirection<Span>>)
      requires Valid() && GoodRedirSpans(s, done)
      modifies this
      ensures Valid() && old(pos) <= pos
      ensures !ok ==> RedirsOnto(RedirTexts(s, done), Lex(s, old(pos))).Panic?
      ensures ok ==>
                GoodRedirSpans(s, rs)
                && RedirsOnto(RedirTexts(s, done), Lex(s, old(pos))) == Ok(RedirTexts(s, rs), Lex(s, pos))
    {
      hide Lex, IsSpace, TokAt, TokEnd, GoodRedirSpans, GoodSpan, RedirTexts, TextOf, RedirsOnto, Redirs;
      rs := done;
      ok := true;
      var more := Peek("<>");
      PeekRedir(s, pos);
      while more
        invariant Valid() && old(pos) <= pos && GoodRedirSpans(s, rs) && (more <==> IsRedir(Lex(s, pos)))
        invariant RedirsOnto(RedirTexts(s, done), Lex(s, old(pos))) == RedirsOnto(RedirTexts(s, rs), Lex(s, pos))
        decreases |s| - pos
      {
        ghost var ts := Lex(s, pos);
        var tok, q0, e0 := Gettoken();
        ghost var ts1 := Lex(s, pos);
        ghost var p1 := pos;
        assert ts[1..] == ts1;
        var tok2, q, eq := Gettoken();
        RedirMode(tok, TokAt(s, q0));
        if tok2 != 'a' {
          MissingFile(RedirTexts(s, rs), ts, ts1, tok2, s, q);
          return false, rs;
        }
        NotNul(tok2, TokAt(s, q));
        WordSpan(s, q);
        var x := Redirection(Span(q, eq), if tok == '<' then In else if tok == '>' then Out else Append);
        SnocRedir(s, rs, x);
        assert ts[2..] == Lex(s, pos);
        OntoStep(RedirTexts(s, rs), ts);
        rs := rs + [x];
        more := Peek("<>");
        PeekRedir(s, pos);
      }
      OntoEnd(s, rs, Lex(s, pos));
    }

    /** The rest of parseexec for a command that is no block. */
    method ParseWords() returns (r: Result)
      requires Valid()
      modifies this
      ensures Valid() && old(pos) <= pos
      ensures Matches(s, SimpleCmd(Lex(s, old(pos))), r, pos)
    {
      hide Lex, IsSpace, TokAt, TokEnd, GoodRedirSpans, GoodSpan, GoodSpans, RedirTexts, TextsOf, TextOf, RedirsOnto,
          Redirs, Args, Wrap, Code;
      var args: seq<Span> := [];
      NoSpans(s);
      var ok, rs := ParseRedirs([]);
      SimpleStart(s, Lex(s, old(pos)));
      if !ok {
        return Fail;
      }
      var stop := Peek("|)&;");
      PeekEnd(s, pos);
      while !stop
        invariant Valid() && old(pos) <= pos && GoodSpans(s, args) && GoodRedirSpans(s, rs) && |args| < MAXARGS
        invariant stop ==> EndsExec(Lex(s, pos))
        invariant !stop ==> !EndsExec(Lex(s, pos)) || pos == |s|
        invariant SimpleCmd(Lex(s, old(pos))) == Args(TextsOf(s, args), RedirTexts(s, rs), Lex(s, pos))
        decreases |s| - pos
      {
        ghost var ts := Lex(s, pos);
        var tok, q, eq := Gettoken();
        if tok == '\0' {
          break;
        }
        assert ts[1..] == Lex(s, pos);
        NotNul(tok, TokAt(s, q));
        if tok != 'a' {
          ArgsNoWord(TextsOf(s, args), RedirTexts(s, rs), ts);
          return Fail;
        }
        WordSpan(s, q);
        SnocText(s, args, Span(q, eq));
        ghost var args0 := args;
        args := args + [Span(q, eq)];
        ArgsWord(TextsOf(s, args0), RedirTexts(s, rs), ts);
        if |args| >= MAXARGS {
          return Fail;
        }
        ok, rs := ParseRedirs(rs);
        if !ok {
          return Fail;
        }
        stop := Peek("|)&;");
        PeekEnd(s, pos);
      }
      ArgsDone(TextsOf(s, args), RedirTexts(s, rs), Lex(s, pos));
      GoodExec(s, args);
      WrapTree(s, Exec(args), rs);
      r := Built(Wrap(Exec(args), rs));
    }

    /** parseexec and parseblock. */
    method ParseExec() returns (r: Result)
      requires Valid()
      modifies this
      ensures Valid() && old(pos) <= pos
      ensures Matches(s, ExecCmd(Lex(s, old(pos))), r, pos)
      decreases |s| - pos, 0
    {
      hide Lex, IsSpace, TokAt, TokEnd, GoodRedirSpans, GoodSpan, GoodSpans, RedirTexts, TextsOf, TextOf, Redirs,
          Args, Wrap, Code, LineCmd, GoodCmd, Tree;
      var block := Peek("(");
      PeekSym(s, pos, '(');
      ghost var ts := Lex(s, pos);
      ExecCases(ts);
      if !block {
        r := ParseWords();
        return;
      }
      var tok, q, eq := Gettoken();
      assert ts[1..] == Lex(s, pos);
      r := ParseLine();
      if r.Fail? {
        return;
      }
      ghost var rest := Lex(s, pos);
      var close := Peek(")");
      PeekSym(s, pos, ')');
      if !close {
        return Fail;
      }
      tok, q, eq := Gettoken();
      assert rest[1..] == Lex(s, pos);
      NoSpans(s);
      var ok, rs := ParseRedirs([]);
      OntoNone(rest[1..]);
      if !ok {
        return Fail;
      }
      WrapTree(s, r.c, rs);
      r := Built(Wrap(r.c, rs));
    }

    /** parsepipe. */
    method ParsePipe() returns (r: Result)
      requires Valid()
      modifies this
      ensures Valid() && old(pos) <= pos
      ensures Matches(s, PipeCmd(Lex(s, old(pos))), r, pos)
      decreases |s| - pos, 1
    {
      hide Lex, IsSpace, TokAt, TokEnd, GoodSpan, GoodSpans, TextsOf, TextOf, Code, ExecCmd;
      r := ParseExec();
      if r.Fail? {
        return;
      }
      ghost var ts := Lex(s, pos);
      var more := Peek("|");
      PeekSym(s, pos, '|');
      if more {
        var tok, q, eq := Gettoken();
        assert ts[1..] == Lex(s, pos);
        var right := ParsePipe();
        if right.Fail? {
          return Fail;
        }
        r := Built(Pipe(r.c, right.c));
      }
    }

    /** parseline. */
    method ParseLine() returns (r: Result)
      requires Valid()
      modifies this
      ensures Valid() && old(pos) <= pos
      ensures Matches(s, LineCmd(Lex(s, old(pos))), r, pos)
      decreases |s| - pos, 2
    {
      hide Lex, IsSpace, TokAt, TokEnd, GoodSpan, GoodSpans, TextsOf, TextOf, Code, PipeCmd;
      r := ParsePipe();
      if r.Fail? {
        return;
      }
      ghost var first := PipeCmd(Lex(s, old(pos)));
      var back := Peek("&");
      PeekSym(s, pos, '&');
      while back
        invariant Valid() && old(pos) <= pos && r.Built? && GoodCmd(s, r.c) && (back <==> Starts(Lex(s, pos), '&'))
        invariant Backs(first.val, first.rest) == Backs(Tree(s, r.c), Lex(s, pos))
        decreases |s| - pos
      {
        ghost var ts := Lex(s, pos);
        var tok, q, eq := Gettoken();
        assert ts[1..] == Lex(s, pos);
        r := Built(Back(r.c));
        back := Peek("&");
        PeekSym(s, pos, '&');
      }
      ghost var ts := Lex(s, pos);
      var more := Peek(";");
      PeekSym(s, pos, ';');
      if more {
        var tok, q, eq := Gettoken();
        assert ts[1..] == Lex(s, pos);
        var second := ParseLine();
        if second.Fail? {
          return Fail;
        }
        r := Built(List(r.c, second.c));
      }
    }

    /** parsecmd without nulterminate: it panics, or it has consumed the whole line and built the tree of
        its tokens. */
    method ParseCmd() returns (r: Result)
      requires pos == 0
      modifies this
      ensures r.Fail? <==> Parse(Lex(s, 0)).Panic?
      ensures r.Built? ==> GoodCmd(s, r.c) && Parse(Lex(s, 0)) == Ok(Tree(s, r.c), []) && pos == |s|
    {
      hide Lex, IsSpace, LineCmd, GoodCmd, Tree, TokAt;
      r := ParseLine();
      if r.Fail? {
        return;
      }
      var none := Peek("");
      LexAt(s, pos);
      if pos != |s| {
        NotEmpty(s, pos);
        return Fail;
      }
    }
  }

  /** A panic, or the tree built. */
  datatype Result = Fail | Built(c: Cmd<Span>)

  /** The outcome of a parser method is that of the function on tokens. */
  ghost predicate Matches(s: string, p: Parsed<Cmd<string>>, r: Result, pos: nat)
    requires pos <= |s|
  {
    match p
    case Panic => r.Fail?
    case Ok(t, rest) => r.Built? && GoodCmd(s, r.c) && Tree(s, r.c) == t && Lex(s, pos) == rest
  }

  function SimpleCmd(ts: seq<Tok>): (r: Parsed<Cmd<string>>) {
    match Redirs(ts)
    case Panic => Panic
    case Ok(rs, rest) => Args([], rs, rest)
  }

  lemma ExecCases(ts: seq<Tok>)
    ensures !Starts(ts, '(') ==> ExecCmd(ts) == SimpleCmd(ts)
    ensures Starts(ts, '(') ==>
              ExecCmd(ts) == match LineCmd(ts[1..]) {
                               case Panic => Panic
                               case Ok(c, rest) =>
                                 if !Starts(rest, ')') then Panic
                                 else match Redirs(rest[1..]) { case Panic => Panic case Ok(rs,
                                     rest2) => Ok(Wrap(c, rs), rest2) } }
  {
  }

  lemma NoSpans(s: string)
    ensures GoodRedirSpans(s, []) && RedirTexts(s, []) == [] && GoodSpans(s, []) && TextsOf(s, []) == []
  {
  }

  lemma OntoNone(ts: seq<Tok>)
    ensures RedirsOnto([], ts) == Redirs(ts)
  {
    match Redirs(ts)
    case Panic =>
    case Ok(rs, rest) => assert [] + rs == rs;
  }

  lemma SimpleStart(s: string, ts: seq<Tok>)
    ensures SimpleCmd(ts) == match RedirsOnto([], ts) { case Panic => Panic case Ok(rs, rest) => Args([], rs, rest) }
  {
    OntoNone(ts);
  }

  lemma PeekEnd(s: string, i: nat)
    requires i <= |s| && (i == |s| || !IsSpace(s[i]))
    ensures EndsExec(Lex(s, i)) <==> i == |s| || s[i] in "|)&;"
  {
    LexAt(s, i);
  }

  lemma PeekSym(s: string, i: nat, c: char)
    requires i <= |s| && (i == |s| || !IsSpace(s[i])) && IsSymbol(c) && c != '>'
    ensures Starts(Lex(s, i), c) <==> i < |s| && s[i] == c
  {
    LexAt(s, i);
  }

  lemma NotEmpty(s: string, i: nat)
    requires i < |s| && !IsSpace(s[i])
    ensures Lex(s, i) != []
  {
    LexAt(s, i);
  }

  lemma ArgsNoWord(args: seq<string>, rs: seq<Redirection<string>>, ts: seq<Tok>)
    requires |ts| > 0 && !EndsExec(ts) && !ts[0].Word?
    ensures Args(args, rs, ts).Panic?
  {
  }

  lemma ArgsWord(args: seq<string>, rs: seq<Redirection<string>>, ts: seq<Tok>)
    requires |ts| > 0 && ts[0].Word?
    ensures |args| + 1 >= MAXARGS ==> Args(args, rs, ts).Panic?
    ensures |args| + 1 < MAXARGS ==>
              Args(args, rs, ts) ==
                  match RedirsOnto(rs, ts[1..]) { case Panic => Panic case Ok(all, rest) => Args(args + [ts[0].w],
                  all, rest) }
  {
  }

  lemma ArgsDone(args: seq<string>, rs: seq<Redirection<string>>, ts: seq<Tok>)
    requires EndsExec(ts)
    ensures Args(args, rs, ts) == Ok(Wrap(Exec(args), rs), ts)
  {
  }

  lemma GoodExec(s: string, args: seq<Span>)
    requires GoodSpans(s, args)
    ensures GoodCmd(s, Exec(args)) && Tree(s, Exec(args)) == Exec(TextsOf(s, args))
  {
  }

  lemma PeekRedir(s: string, i: nat)
    requires i <= |s| && (i == |s| || !IsSpace(s[i]))
    ensures IsRedir(Lex(s, i)) <==> i < |s| && s[i] in "<>"
  {
    LexAt(s, i);
  }

  lemma RedirMode(ret: char, t: Tok)
    requires Code(ret, t)
    ensures t == Sym('<') || t == Sym('>') || t == Sym('+') ==>
              ModeOf(t) == if ret == '<' then In else if ret == '>' then Out else Append
  {
  }

  lemma MissingFile(done: seq<Redirection<string>>, ts: seq<Tok>, ts1: seq<Tok>, ret: char, s: string, q: nat)
    requires IsRedir(ts) && ts1 == ts[1..] && ret != 'a'
    requires ret == '\0' <==> ts1 == []
    requires ret != '\0' ==> q < |s| && !IsSpace(s[q]) && |ts1| > 0 && ts1[0] == TokAt(s, q) && Code(ret, TokAt(s, q))
    ensures RedirsOnto(done, ts).Panic?
  {
  }

  /** The span gettoken gives for a word. */
  lemma WordSpan(s: string, q: nat)
    requires q < |s| && !IsSpace(s[q]) && TokAt(s, q).Word?
    ensures GoodSpan(s, Span(q, TokEnd(s, q))) && TokAt(s, q) == Word(TextOf(s, Span(q, TokEnd(s, q))))
  {
  }

  lemma OntoEnd(s: string, rs: seq<Redirection<Span>>, ts: seq<Tok>)
    requires GoodRedirSpans(s, rs) && !IsRedir(ts)
    ensures RedirsOnto(RedirTexts(s, rs), ts) == Ok(RedirTexts(s, rs), ts)
  {
    hide RedirTexts, GoodRedirSpans;
    assert RedirTexts(s, rs) + [] == RedirTexts(s, rs);
  }

  /** The return value of gettoken for a token. */
  predicate Code(ret: char, t: Tok) {
    if t.Word? then ret == 'a' else t.c == ret && (IsSymbol(ret) || ret == '+')
  }

  lemma NotNul(ret: char, t: Tok)
    requires Code(ret, t)
    ensures ret != '\0' && (ret == 'a' <==> t.Word?)
  {
  }

  lemma LexAt(s: string, i: nat)
    requires i <= |s|
    ensures var j := Skip(s, i);
            if j == |s| then Lex(s, i) == [] else Lex(s, i) == [TokAt(s, j)] + Lex(s, TokEnd(s, j))
  {
  }
}
