/** Parsing the printed form of a tree gives the tree back. */
module ShellRoundTrip {
  import opened ShellGrammar

  /** The trees the parser can build: no command has MAXARGS words. */
  predicate Small(t: Cmd<string>) {
    match t
    case Exec(args) => |args| < MAXARGS
    case Redir(c, _, _) => Small(c)
    case Pipe(l, r) => Small(l) && Small(r)
    case List(l, r) => Small(l) && Small(r)
    case Back(c) => Small(c)
  }

  // ---------------------------------------------------------------- redirections and words

  function RedirsToks(rs: seq<Redirection<string>>): (ts: seq<Tok>) {
    if |rs| == 0 then [] else RedirToks(rs[0].file, rs[0].mode) + RedirsToks(rs[1..])
  }

  lemma {:induction false} RedirsBack(rs: seq<Redirection<string>>, rest: seq<Tok>)
    requires !IsRedir(rest)
    ensures Redirs(RedirsToks(rs) + rest) == Ok(rs, rest)
    decreases |rs|
  {
    if |rs| == 0 {
      assert RedirsToks(rs) + rest == rest;
    } else {
      var ts := RedirsToks(rs) + rest;
      assert ts[0] == RedirToks(rs[0].file, rs[0].mode)[0] && ts[1] == Word(rs[0].file);
      assert ts[2..] == RedirsToks(rs[1..]) + rest;
      RedirsBack(rs[1..], rest);
      assert [rs[0]] + rs[1..] == rs;
    }
  }

  lemma {:induction false} RedirsSnoc(rs: seq<Redirection<string>>, x: Redirection<string>)
    ensures RedirsToks(rs + [x]) == RedirsToks(rs) + RedirToks(x.file, x.mode)
    decreases |rs|
  {
    if |rs| == 0 {
      assert rs + [x] == [x];
      assert [x][1..] == [];
    } else {
      assert (rs + [x])[1..] == rs[1..] + [x];
      RedirsSnoc(rs[1..], x);
    }
  }

  /** A command without its outer redirections, and those redirections in order. */
  function Base(t: Cmd<string>): (b: Cmd<string>) {
    if t.Redir? then Base(t.cmd) else t
  }

  function RedirsOf(t: Cmd<string>): (rs: seq<Redirection<string>>) {
    if t.Redir? then RedirsOf(t.cmd) + [Redirection(t.file, t.mode)] else []
  }

  lemma {:induction false} Decompose(t: Cmd<string>)
    requires Small(t)
    ensures !Base(t).Redir? && Wrap(Base(t), RedirsOf(t)) == t && Size(Base(t)) <= Size(t) && Small(Base(t))
    ensures PrintExec(t) == PrintExec(Base(t)) + RedirsToks(RedirsOf(t))
    decreases t
  {
    if t.Redir? {
      Decompose(t.cmd);
      RedirsSnoc(RedirsOf(t.cmd), Redirection(t.file, t.mode));
      assert RedirsOf(t)[..|RedirsOf(t)| - 1] == RedirsOf(t.cmd);
    }
  }

  /** One more word, whatever follows it. */
  lemma ArgsStep(done: seq<string>, w: string, more: seq<Redirection<string>>, ts: seq<Tok>, rest: seq<Tok>)
    requires |ts| > 0 && ts[0] == Word(w) && |done| + 1 < MAXARGS && Redirs(ts[1..]) == Ok(more, rest)
    ensures Args(done, [], ts) == Args(done + [w], more, rest)
  {
    hide Redirs, Wrap;
    assert [] + more == more;
  }

  lemma {:induction false} WordToksAt(args: seq<string>, tail: seq<Tok>)
    requires |args| > 0
    ensures var ts := WordToks(args) + tail; |ts| > 0 && ts[0] == Word(args[0]) && ts[1..] == WordToks(args[1..]) + tail
  {
    var w := WordToks(args[1..]);
    assert WordToks(args) == [Word(args[0])] + w;
    hide WordToks;
    assert ([Word(args[0])] + w + tail)[1..] == w + tail;
  }

  lemma {:induction false} ArgsBack(done: seq<string>, args: seq<string>, rs: seq<Redirection<string>>, rest: seq<Tok>)
    requires |done| + |args| < MAXARGS && EndsExec(rest) && |args| > 0
    ensures Args(done, [], WordToks(args) + (RedirsToks(rs) + rest)) == Ok(Wrap(Exec(done + args), rs), rest)
    decreases |args|
  {
    hide Redirs, Wrap, WordToks, RedirsToks, Args;
    var tail := RedirsToks(rs) + rest;
    var ts := WordToks(args) + tail;
    WordToksAt(args, tail);
    if |args| == 1 {
      assert WordToks(args[1..]) == [] by { NoWords(args[1..]); }
      assert ts[1..] == tail;
      RedirsBack(rs, rest);
      ArgsStep(done, args[0], rs, ts, rest);
      assert done + [args[0]] == done + args;
      ArgsEnd(done + args, rs, rest);
    } else {
      WordToksAt(args[1..], tail);
      NoRedirs(ts[1..]);
      ArgsStep(done, args[0], [], ts, ts[1..]);
      ArgsBack(done + [args[0]], args[1..], rs, rest);
      assert done + [args[0]] + args[1..] == done + args;
    }
  }

  lemma NoWords(args: seq<string>)
    requires |args| == 0
    ensures WordToks(args) == []
  {
  }

  lemma NoRedirs(ts: seq<Tok>)
    requires !IsRedir(ts)
    ensures Redirs(ts) == Ok([], ts)
  {
  }

  lemma ArgsEnd(args: seq<string>, rs: seq<Redirection<string>>, rest: seq<Tok>)
    requires EndsExec(rest)
    ensures Args(args, rs, rest) == Ok(Wrap(Exec(args), rs), rest)
  {
  }

  lemma NoParen(rs: seq<Redirection<string>>, rest: seq<Tok>)
    requires EndsExec(rest)
    ensures !Starts(RedirsToks(rs) + rest, '(')
  {
    if |rs| == 0 {
      assert RedirsToks(rs) + rest == rest;
    }
  }

  /** A simple command. */
  lemma SimpleBack(args: seq<string>, rs: seq<Redirection<string>>, rest: seq<Tok>)
    requires |args| < MAXARGS && EndsExec(rest)
    ensures ExecCmd(WordToks(args) + (RedirsToks(rs) + rest)) == Ok(Wrap(Exec(args), rs), rest)
  {
    hide Redirs, Wrap, WordToks, RedirsToks, Args;
    var tail := RedirsToks(rs) + rest;
    var ts := WordToks(args) + tail;
    if |args| == 0 {
      NoWords(args);
      assert ts == tail;
      NoParen(rs, rest);
      RedirsBack(rs, rest);
      ArgsEnd([], rs, rest);
      assert args == [];
    } else {
      WordToksAt(args, tail);
      NoRedirs(ts);
      ArgsBack([], args, rs, rest);
      assert [] + args == args;
    }
  }

  // ---------------------------------------------------------------- commands

  predicate EndsPipe(ts: seq<Tok>) {
    |ts| == 0 || ts[0] == Sym(')') || ts[0] == Sym('&') || ts[0] == Sym(';')
  }

  /** Order of the lemmas below: a command that is printed in parentheses comes back as a line. */
  function Rank(level: nat, t: Cmd<string>): (r: nat) {
    if level == 0 then 4
    else if (t.List? && level >= 3) || (t.Back? && level >= 2) || (t.Pipe? && level >= 1) then level
    else 4 + level
  }

  lemma Parentheses(t: Cmd<string>)
    requires !t.Exec? && !t.Redir?
    ensures PrintExec(t) == [Sym('(')] + PrintLine(t) + [Sym(')')]
  {
    if t.Pipe? {
      assert PrintLine(t) == PrintBack(t) == PrintPipe(t);
    } else if t.Back? {
      assert PrintLine(t) == PrintBack(t);
    }
  }

  lemma {:induction false} ExecBack(t: Cmd<string>, rest: seq<Tok>)
    requires Small(t) && EndsExec(rest)
    ensures ExecCmd(PrintExec(t) + rest) == Ok(t, rest)
    decreases Size(t), Rank(0, t)
  {
    hide Redirs, Wrap, RedirsToks, Args, PrintExec, PrintLine, WordToks, Size, LineCmd;
    var b, rs := Base(t), RedirsOf(t);
    Decompose(t);
    BaseSame(t);
    var ts := PrintExec(t) + rest;
    if b.Exec? {
      PrintWords(b.args);
      assert ts == WordToks(b.args) + (RedirsToks(rs) + rest);
      SimpleBack(b.args, rs, rest);
    } else {
      var tail := [Sym(')')] + (RedirsToks(rs) + rest);
      Parentheses(b);
      assert ts == [Sym('(')] + (PrintLine(b) + tail);
      assert ts[1..] == PrintLine(b) + tail;
      LineBack(b, tail);
      assert tail[1..] == RedirsToks(rs) + rest;
      RedirsBack(rs, rest);
    }
  }

  lemma PrintWords(args: seq<string>)
    ensures PrintExec(Exec(args)) == WordToks(args)
  {
  }

  lemma BaseSame(t: Cmd<string>)
    ensures !t.Redir? ==> Base(t) == t
    ensures t.Redir? ==> Size(Base(t)) < Size(t)
  {
  }

  lemma {:induction false} PipeBack(t: Cmd<string>, rest: seq<Tok>)
    requires Small(t) && EndsPipe(rest)
    ensures PipeCmd(PrintPipe(t) + rest) == Ok(t, rest)
    decreases Size(t), Rank(1, t)
  {
    hide PrintExec, ExecCmd;
    if t.Pipe? {
      var tail := [Sym('|')] + (PrintPipe(t.right) + rest);
      assert PrintPipe(t) + rest == PrintExec(t.left) + tail;
      ExecBack(t.left, tail);
      assert tail[1..] == PrintPipe(t.right) + rest;
      PipeBack(t.right, rest);
    } else {
      ExecBack(t, rest);
    }
  }

  lemma {:induction false} BacksBack(t: Cmd<string>, rest: seq<Tok>)
    requires Small(t) && EndsPipe(rest)
    ensures var p := PipeCmd(PrintBack(t) + rest); p.Ok? && Backs(p.val, p.rest) == Backs(t, rest)
    decreases Size(t), Rank(2, t)
  {
    hide PrintPipe, PipeCmd;
    if t.Back? {
      var tail := [Sym('&')] + rest;
      assert PrintBack(t) + rest == PrintBack(t.job) + tail;
      BacksBack(t.job, tail);
      assert tail[1..] == rest;
    } else {
      PipeBack(t, rest);
    }
  }

  lemma {:induction false} LineBack(t: Cmd<string>, rest: seq<Tok>)
    requires Small(t) && (|rest| == 0 || rest[0] == Sym(')'))
    ensures LineCmd(PrintLine(t) + rest) == Ok(t, rest)
    decreases Size(t), Rank(3, t)
  {
    hide PrintBack, PipeCmd;
    if t.List? {
      var tail := [Sym(';')] + (PrintLine(t.second) + rest);
      assert PrintLine(t) + rest == PrintBack(t.first) + tail;
      BacksBack(t.first, tail);
      assert tail[1..] == PrintLine(t.second) + rest;
      LineBack(t.second, rest);
    } else {
      BacksBack(t, rest);
    }
  }

  /** Parsing undoes printing, for every tree with fewer than MAXARGS words in a command. */
  lemma TokenRoundTrip(t: Cmd<string>)
    requires Small(t)
    ensures Parse(PrintLine(t)) == Ok(t, [])
  {
    hide PrintLine, LineCmd;
    LineBack(t, []);
    assert PrintLine(t) + [] == PrintLine(t);
  }
}
