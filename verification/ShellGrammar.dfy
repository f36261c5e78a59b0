/** The command language of user/sh.c: tokens, trees, the parser as a function on tokens, and a printer. */
module ShellGrammar {
  /** What gettoken returns: a symbol character, '+' for ">>", or a word. */
  datatype Tok = Sym(c: char) | Word(w: string)

  /** open() modes of a redirection: "<" reads, ">" truncates, ">>" does not. */
  datatype Mode = In | Out | Append

  datatype Cmd<W> =
    | Exec(args: seq<W>)
    | Redir(cmd: Cmd<W>, file: W, mode: Mode)
    | Pipe(left: Cmd<W>, right: Cmd<W>)
    | List(first: Cmd<W>, second: Cmd<W>)
    | Back(job: Cmd<W>)

  datatype Redirection<W> = Redirection(file: W, mode: Mode)

  /** A parser's panic, or what it built and the tokens left. */
  datatype Parsed<T> = Panic | Ok(val: T, rest: seq<Tok>)

  const MAXARGS := 10

  /** redircmd for each redirection in turn. */
  function Wrap<W>(c: Cmd<W>, rs: seq<Redirection<W>>): (r: Cmd<W>)
    decreases |rs|
  {
    if |rs| == 0 then c else Redir(Wrap(c, rs[..|rs| - 1]), rs[|rs| - 1].file, rs[|rs| - 1].mode)
  }

  predicate IsRedir(ts: seq<Tok>) {
    |ts| > 0 && (ts[0] == Sym('<') || ts[0] == Sym('>') || ts[0] == Sym('+'))
  }

  function ModeOf(t: Tok): (m: Mode) {
    if t == Sym('<') then In else if t == Sym('>') then Out else Append
  }

  /** parseredirs. */
  function Redirs(ts: seq<Tok>): (r: Parsed<seq<Redirection<string>>>)
    ensures r.Ok? ==> |r.rest| <= |ts| && !IsRedir(r.rest)
    decreases |ts|
  {
    if !IsRedir(ts) then Ok([], ts)
    else if |ts| < 2 || !ts[1].Word? then Panic
    else
      match Redirs(ts[2..])
      case Panic => Panic
      case Ok(rs, rest) => Ok([Redirection(ts[1].w, ModeOf(ts[0]))] + rs, rest)
  }

  predicate EndsExec(ts: seq<Tok>) {
    |ts| == 0 || ts[0] == Sym('|') || ts[0] == Sym(')') || ts[0] == Sym('&') || ts[0] == Sym(';')
  }

  /** The loop of parseexec, with the arguments and redirections so far. */
  function Args(args: seq<string>, rs: seq<Redirection<string>>, ts: seq<Tok>): (r: Parsed<Cmd<string>>)
    ensures r.Ok? ==> |r.rest| <= |ts|
    decreases |ts|
  {
    if EndsExec(ts) then Ok(Wrap(Exec(args), rs), ts)
    else if !ts[0].Word? then Panic
    else if |args| + 1 >= MAXARGS then Panic
    else
      match Redirs(ts[1..])
      case Panic => Panic
      case Ok(more, rest) => Args(args + [ts[0].w], rs + more, rest)
  }

  predicate Starts(ts: seq<Tok>, c: char) {
    |ts| > 0 && ts[0] == Sym(c)
  }

  /** parseexec and parseblock. */
  function ExecCmd(ts: seq<Tok>): (r: Parsed<Cmd<string>>)
    ensures r.Ok? ==> |r.rest| <= |ts|
    decreases |ts|, 0
  {
    if Starts(ts, '(') then
      match LineCmd(ts[1..])
      case Panic => Panic
      case Ok(c, rest) =>
        if !Starts(rest, ')') then Panic
        else
          match Redirs(rest[1..])
          case Panic => Panic
          case Ok(rs, rest2) => Ok(Wrap(c, rs), rest2)
    else
      match Redirs(ts)
      case Panic => Panic
      case Ok(rs, rest) => Args([], rs, rest)
  }

  /** parsepipe. */
  function PipeCmd(ts: seq<Tok>): (r: Parsed<Cmd<string>>)
    ensures r.Ok? ==> |r.rest| <= |ts|
    decreases |ts|, 1
  {
    match ExecCmd(ts)
    case Panic => Panic
    case Ok(c, rest) =>
      if Starts(rest, '|') then
        match PipeCmd(rest[1..])
        case Panic => Panic
        case Ok(d, rest2) => Ok(Pipe(c, d), rest2)
      else Ok(c, rest)
  }

  /** The loop of parseline. */
  function Backs(c: Cmd<string>, ts: seq<Tok>): (r: (Cmd<string>, seq<Tok>))
    ensures |r.1| <= |ts| && !Starts(r.1, '&')
    decreases |ts|
  {
    if Starts(ts, '&') then Backs(Back(c), ts[1..]) else (c, ts)
  }

  /** parseline. */
  function LineCmd(ts: seq<Tok>): (r: Parsed<Cmd<string>>)
    ensures r.Ok? ==> |r.rest| <= |ts|
    decreases |ts|, 2
  {
    match PipeCmd(ts)
    case Panic => Panic
    case Ok(c, rest) =>
      var (d, rest2) := Backs(c, rest);
      if Starts(rest2, ';') then
        match LineCmd(rest2[1..])
        case Panic => Panic
        case Ok(e, rest3) => Ok(List(d, e), rest3)
      else Ok(d, rest2)
  }

  /** parsecmd: leftovers are a panic. */
  function Parse(ts: seq<Tok>): (r: Parsed<Cmd<string>>) {
    match LineCmd(ts)
    case Panic => Panic
    case Ok(c, rest) => if |rest| > 0 then Panic else Ok(c, rest)
  }

  // ---------------------------------------------------------------- printing

  function RedirToks(file: string, m: Mode): (ts: seq<Tok>) {
    [Sym(match m case In => '<' case Out => '>' case Append => '+'), Word(file)]
  }

  function WordToks(args: seq<string>): (ts: seq<Tok>) {
    if |args| == 0 then [] else [Word(args[0])] + WordToks(args[1..])
  }

  /** Size of a tree, for termination. */
  function Size(t: Cmd<string>): (n: nat) {
    match t
    case Exec(_) => 1
    case Redir(c, _, _) => Size(c) + 1
    case Pipe(l, r) => Size(l) + Size(r) + 1
    case List(l, r) => Size(l) + Size(r) + 1
    case Back(c) => Size(c) + 1
  }

  /** Print where the grammar has a line, a line without ';', a pipe, and a single command. A single command
      that is not an EXEC with redirections goes into parentheses. */
  function PrintLine(t: Cmd<string>): (ts: seq<Tok>)
    decreases Size(t), 3
  {
    match t
    case List(l, r) => PrintBack(l) + [Sym(';')] + PrintLine(r)
    case _ => PrintBack(t)
  }

  function PrintBack(t: Cmd<string>): (ts: seq<Tok>)
    decreases Size(t), 2
  {
    match t
    case Back(c) => PrintBack(c) + [Sym('&')]
    case _ => PrintPipe(t)
  }

  function PrintPipe(t: Cmd<string>): (ts: seq<Tok>)
    decreases Size(t), 1
  {
    match t
    case Pipe(l, r) => PrintExec(l) + [Sym('|')] + PrintPipe(r)
    case _ => PrintExec(t)
  }

  function PrintExec(t: Cmd<string>): (ts: seq<Tok>)
    decreases Size(t), 0
  {
    match t
    case Exec(args) => WordToks(args)
    case Redir(c, f, m) => PrintExec(c) + RedirToks(f, m)
    case List(l, r) => [Sym('(')] + (PrintBack(l) + [Sym(';')] + PrintLine(r)) + [Sym(')')]
    case Back(c) => [Sym('(')] + (PrintBack(c) + [Sym('&')]) + [Sym(')')]
    case Pipe(l, r) => [Sym('(')] + (PrintExec(l) + [Sym('|')] + PrintPipe(r)) + [Sym(')')]
  }
}
