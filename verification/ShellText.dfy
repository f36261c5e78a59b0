/** Printing a tree as text and parsing it again; and that the parser builds only such trees. */
module ShellText {
  import opened ShellGrammar
  import opened ShellRoundTrip
  import opened ShellLex

  ghost predicate AllWords(args: seq<string>) {
    forall k :: 0 <= k < |args| ==> IsWord(args[k])
  }

  /** Fewer than MAXARGS words in each command, and all words and file names are words. */
  ghost predicate Printable(t: Cmd<string>) {
    match t
    case Exec(args) => |args| < MAXARGS && AllWords(args)
    case Redir(c, f, _) => Printable(c) && IsWord(f)
    case Pipe(l, r) => Printable(l) && Printable(r)
    case List(l, r) => Printable(l) && Printable(r)
    case Back(c) => Printable(c)
  }

  lemma PrintableSmall(t: Cmd<string>)
    requires Printable(t)
    ensures Small(t)
  {
  }

  lemma {:induction false} WordsToks(args: seq<string>)
    requires AllWords(args)
    ensures AllToks(WordToks(args))
    decreases |args|
  {
    hide IsWord;
    if |args| > 0 {
      WordsToks(args[1..]);
    }
  }

  lemma ConcatToks(a: seq<Tok>, b: seq<Tok>)
    requires AllToks(a) && AllToks(b)
    ensures AllToks(a + b)
  {
    hide IsTok;
  }

  lemma SymToks(c: char)
    requires IsSymbol(c) || c == '+'
    ensures AllToks([Sym(c)])
  {
  }

  lemma RedirIsToks(f: string, m: Mode)
    requires IsWord(f)
    ensures AllToks(RedirToks(f, m))
  {
  }

  lemma {:induction false} ExecToks(t: Cmd<string>)
    requires Printable(t)
    ensures AllToks(PrintExec(t))
    decreases Size(t), Rank(0, t)
  {
    hide AllToks, AllWords, IsWord;
    match t {
      case Exec(args) => WordsToks(args);
      case Redir(c, f, m) =>
        ExecToks(c);
        RedirIsToks(f, m);
        ConcatToks(PrintExec(c), RedirToks(f, m));
      case _ =>
        Parentheses(t);
        LineToks(t);
        SymToks('(');
        SymToks(')');
        ConcatToks([Sym('(')], PrintLine(t));
        ConcatToks([Sym('(')] + PrintLine(t), [Sym(')')]);
    }
  }

  lemma {:induction false} PipeToks(t: Cmd<string>)
    requires Printable(t)
    ensures AllToks(PrintPipe(t))
    decreases Size(t), Rank(1, t)
  {
    hide AllToks, PrintExec;
    if t.Pipe? {
      ExecToks(t.left);
      PipeToks(t.right);
      SymToks('|');
      ConcatToks(PrintExec(t.left), [Sym('|')]);
      ConcatToks(PrintExec(t.left) + [Sym('|')], PrintPipe(t.right));
    } else {
      ExecToks(t);
    }
  }

  lemma {:induction false} BackToks(t: Cmd<string>)
    requires Printable(t)
    ensures AllToks(PrintBack(t))
    decreases Size(t), Rank(2, t)
  {
    hide AllToks, PrintPipe;
    if t.Back? {
      BackToks(t.job);
      SymToks('&');
      ConcatToks(PrintBack(t.job), [Sym('&')]);
    } else {
      PipeToks(t);
    }
  }

  lemma {:induction false} LineToks(t: Cmd<string>)
    requires Printable(t)
    ensures AllToks(PrintLine(t))
    decreases Size(t), Rank(3, t)
  {
    hide AllToks, PrintBack;
    if t.List? {
      BackToks(t.first);
      LineToks(t.second);
      SymToks(';');
      ConcatToks(PrintBack(t.first), [Sym(';')]);
      ConcatToks(PrintBack(t.first) + [Sym(';')], PrintLine(t.second));
    } else {
      BackToks(t);
    }
  }

  /** The printed line of a tree. */
  function Show(t: Cmd<string>): (s: string) {
    Text(PrintLine(t))
  }

  /** Parsing the printed form of a tree gives that tree back. */
  lemma TextRoundTrip(t: Cmd<string>)
    requires Printable(t)
    ensures Parse(Lex(Show(t), 0)) == Ok(t, [])
  {
    hide Printable, PrintLine, Parse, Lex, Text;
    LineToks(t);
    LexText(PrintLine(t), "");
    assert "" + Show(t) == Show(t);
    PrintableSmall(t);
    TokenRoundTrip(t);
  }

  // ---------------------------------------------------------------- what the parser builds

  lemma {:induction false} LexToks(s: string, i: nat)
    requires i <= |s|
    ensures AllToks(Lex(s, i))
    decreases |s| - i
  {
    var j := Skip(s, i);
    if j < |s| {
      LexToks(s, TokEnd(s, j));
      OneTok(s, j);
      ConcatToks([TokAt(s, j)], Lex(s, TokEnd(s, j)));
    }
  }

  lemma OneTok(s: string, j: nat)
    requires j < |s| && !IsSpace(s[j])
    ensures AllToks([TokAt(s, j)])
  {
    if IsWordChar(s[j]) {
      var w := s[j..WordEnd(s, j)];
      assert forall k :: 0 <= k < |w| ==> w[k] == s[j + k];
    }
  }

  ghost predicate GoodRedirs(rs: seq<Redirection<string>>) {
    forall k :: 0 <= k < |rs| ==> IsWord(rs[k].file)
  }

  lemma AllRest(ts: seq<Tok>, n: nat)
    requires AllToks(ts) && n <= |ts|
    ensures AllToks(ts[n..])
    ensures forall k :: 0 <= k < |ts| && ts[k].Word? ==> IsWord(ts[k].w)
  {
  }

  lemma {:induction false} RedirsGood(ts: seq<Tok>)
    requires AllToks(ts) && Redirs(ts).Ok?
    ensures AllToks(Redirs(ts).rest) && GoodRedirs(Redirs(ts).val)
    decreases |ts|
  {
    hide AllToks, IsWord;
    if IsRedir(ts) {
      AllRest(ts, 2);
      RedirsGood(ts[2..]);
    }
  }

  lemma {:induction false} WrapPrintable(c: Cmd<string>, rs: seq<Redirection<string>>)
    requires Printable(c) && GoodRedirs(rs)
    ensures Printable(Wrap(c, rs))
    decreases |rs|
  {
    hide IsWord;
    if |rs| > 0 {
      WrapPrintable(c, rs[..|rs| - 1]);
    }
  }

  lemma {:induction false} ArgsGood(args: seq<string>, rs: seq<Redirection<string>>, ts: seq<Tok>)
    requires AllToks(ts) && |args| < MAXARGS && AllWords(args) && GoodRedirs(rs) && Args(args, rs, ts).Ok?
    ensures AllToks(Args(args, rs, ts).rest) && Printable(Args(args, rs, ts).val)
    decreases |ts|
  {
    hide AllToks, IsWord, Wrap;
    if EndsExec(ts) {
      WrapPrintable(Exec(args), rs);
    } else {
      AllRest(ts, 1);
      RedirsGood(ts[1..]);
      var p := Redirs(ts[1..]);
      ArgsGood(args + [ts[0].w], rs + p.val, p.rest);
    }
  }

  lemma {:induction false} ExecGood(ts: seq<Tok>)
    requires AllToks(ts) && ExecCmd(ts).Ok?
    ensures AllToks(ExecCmd(ts).rest) && Printable(ExecCmd(ts).val)
    decreases |ts|, 0
  {
    hide AllToks, Printable, GoodRedirs, Wrap, Args, Redirs;
    if Starts(ts, '(') {
      AllRest(ts, 1);
      LineGood(ts[1..]);
      var p := LineCmd(ts[1..]);
      AllRest(p.rest, 1);
      RedirsGood(p.rest[1..]);
      WrapPrintable(p.val, Redirs(p.rest[1..]).val);
    } else {
      RedirsGood(ts);
      ArgsGood([], Redirs(ts).val, Redirs(ts).rest);
    }
  }

  lemma {:induction false} PipeGood(ts: seq<Tok>)
    requires AllToks(ts) && PipeCmd(ts).Ok?
    ensures AllToks(PipeCmd(ts).rest) && Printable(PipeCmd(ts).val)
    decreases |ts|, 1
  {
    hide AllToks, ExecCmd;
    ExecGood(ts);
    var p := ExecCmd(ts);
    if Starts(p.rest, '|') {
      AllRest(p.rest, 1);
      PipeGood(p.rest[1..]);
    }
  }

  lemma {:induction false} BacksGood(c: Cmd<string>, ts: seq<Tok>)
    requires AllToks(ts) && Printable(c)
    ensures AllToks(Backs(c, ts).1) && Printable(Backs(c, ts).0)
    decreases |ts|
  {
    hide AllToks;
    if Starts(ts, '&') {
      AllRest(ts, 1);
      BacksGood(Back(c), ts[1..]);
    }
  }

  lemma {:induction false} LineGood(ts: seq<Tok>)
    requires AllToks(ts) && LineCmd(ts).Ok?
    ensures AllToks(LineCmd(ts).rest) && Printable(LineCmd(ts).val)
    decreases |ts|, 2
  {
    hide AllToks, PipeCmd, Backs;
    PipeGood(ts);
    var p := PipeCmd(ts);
    BacksGood(p.val, p.rest);
    var (d, rest) := Backs(p.val, p.rest);
    if Starts(rest, ';') {
      AllRest(rest, 1);
      LineGood(rest[1..]);
    }
  }

  /** Every line that parses gives a tree whose printed form parses to the same tree. */
  lemma ParsePrintParse(s: string)
    requires Parse(Lex(s, 0)).Ok?
    ensures Parse(Lex(Show(Parse(Lex(s, 0)).val), 0)) == Parse(Lex(s, 0))
  {
    hide LineCmd, Lex, AllToks, Printable, Show;
    LexToks(s, 0);
    LineGood(Lex(s, 0));
    TextRoundTrip(Parse(Lex(s, 0)).val);
  }
}
