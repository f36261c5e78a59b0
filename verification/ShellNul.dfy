/** nulterminate (user/sh.c:448-493): the words of a parsed line become C strings in place. */
module ShellNul {
  import opened ShellGrammar
  import opened ShellLex
  import opened ShellParser

  /** x is an argument or a file name in the tree. */
  ghost predicate HasSpan(c: Cmd<Span>, x: Span) {
    match c
    case Exec(args) => x in args
    case Redir(d, f, _) => x == f || HasSpan(d, x)
    case Pipe(l, r) => HasSpan(l, x) || HasSpan(r, x)
    case List(l, r) => HasSpan(l, x) || HasSpan(r, x)
    case Back(d) => HasSpan(d, x)
  }

  /** A word of the tree ends at i. */
  ghost predicate IsEnd(c: Cmd<Span>, i: int) {
    match c
    case Exec(args) => exists k :: 0 <= k < |args| && args[k].e == i
    case Redir(d, f, _) => f.e == i || IsEnd(d, i)
    case Pipe(l, r) => IsEnd(l, i) || IsEnd(r, i)
    case List(l, r) => IsEnd(l, i) || IsEnd(r, i)
    case Back(d) => IsEnd(d, i)
  }

  /** The C string at q. */
  function StringAt(buf: seq<char>, q: nat): (s: string)
    decreases |buf| - q
  {
    if q < |buf| && buf[q] != '\0' then [buf[q]] + StringAt(buf, q + 1) else ""
  }

  class Line {
    var buf: seq<char>

    constructor (s: string)
      ensures buf == s + ['\0']
    {
      buf := s + ['\0'];
    }

    /** NULs go to the ends of the words of the tree and nowhere else. */
    method Nulterminate(s: string, c: Cmd<Span>)
      requires GoodCmd(s, c) && |buf| == |s| + 1
      modifies this
      ensures |buf| == |s| + 1
      ensures forall i :: 0 <= i < |buf| ==> buf[i] == if IsEnd(c, i) then '\0' else old(buf)[i]
      decreases c
    {
      hide GoodSpan;
      match c {
        case Exec(args) =>
          var k := 0;
          while k < |args|
            invariant 0 <= k <= |args| && |buf| == |s| + 1
            invariant forall i :: 0 <= i < |buf| ==> buf[i] == if EndsBefore(args, k, i) then '\0' else old(buf)[i]
          {
            SpanRange(s, args[k]);
            buf := buf[args[k].e := '\0'];
            k := k + 1;
          }
        case Redir(d, f, _) =>
          Nulterminate(s, d);
          SpanRange(s, f);
          buf := buf[f.e := '\0'];
        case Pipe(l, r) =>
          Nulterminate(s, l);
          Nulterminate(s, r);
        case List(l, r) =>
          Nulterminate(s, l);
          Nulterminate(s, r);
        case Back(d) =>
          Nulterminate(s, d);
      }
    }
  }

  ghost predicate EndsBefore(args: seq<Span>, n: int, i: int)
    requires 0 <= n <= |args|
  {
    exists k :: 0 <= k < n && args[k].e == i
  }

  lemma SpanRange(s: string, x: Span)
    requires GoodSpan(s, x)
    ensures 0 <= x.e <= |s|
  {
  }

  /** A word ends at the end of the line, at a blank or at a symbol. */
  lemma {:induction false} EndOutside(s: string, c: Cmd<Span>, i: int)
    requires GoodCmd(s, c) && IsEnd(c, i)
    ensures 0 <= i <= |s| && (i == |s| || !IsWordChar(s[i]))
    decreases c
  {
    match c {
      case Exec(args) =>
        var k :| 0 <= k < |args| && args[k].e == i;
        assert GoodSpan(s, args[k]);
      case Redir(d, f, _) => if f.e != i { EndOutside(s, d, i); }
      case Pipe(l, r) => if IsEnd(l, i) { EndOutside(s, l, i); } else { EndOutside(s, r, i); }
      case List(l, r) => if IsEnd(l, i) { EndOutside(s, l, i); } else { EndOutside(s, r, i); }
      case Back(d) => EndOutside(s, d, i);
    }
  }

  lemma {:induction false} SpanGood(s: string, c: Cmd<Span>, x: Span)
    requires GoodCmd(s, c) && HasSpan(c, x)
    ensures GoodSpan(s, x) && IsEnd(c, x.e)
    decreases c
  {
    hide GoodSpan;
    match c {
      case Exec(args) =>
        var k :| 0 <= k < |args| && args[k] == x;
        assert GoodSpan(s, args[k]) && args[k].e == x.e;
      case Redir(d, f, _) => if f != x { SpanGood(s, d, x); }
      case Pipe(l, r) => if HasSpan(l, x) { SpanGood(s, l, x); } else { SpanGood(s, r, x); }
      case List(l, r) => if HasSpan(l, x) { SpanGood(s, l, x); } else { SpanGood(s, r, x); }
      case Back(d) => SpanGood(s, d, x);
    }
  }

  lemma {:induction false} ReadsTo(buf: seq<char>, w: string, q: nat)
    requires q + |w| < |buf| && buf[q..q + |w|] == w && buf[q + |w|] == '\0' && (forall k :: 0 <= k < |w| ==>
                 w[k] != '\0')
    ensures StringAt(buf, q) == w
    decreases |w|
  {
    if |w| > 0 {
      assert buf[q] == buf[q..q + |w|][0] == w[0];
      assert buf[q + 1..q + 1 + |w[1..]|] == buf[q..q + |w|][1..] == w[1..];
      ReadsTo(buf, w[1..], q + 1);
    }
  }

  /** After nulterminate every argument and file name is the C string of exactly its token. */
  lemma WordIsToken(s: string, c: Cmd<Span>, x: Span, buf: seq<char>)
    requires GoodCmd(s, c) && HasSpan(c, x) && |buf| == |s| + 1 && (forall k :: 0 <= k < |s| ==> s[k] != '\0')
    requires forall i :: 0 <= i < |buf| ==> buf[i] == if IsEnd(c, i) || i == |s| then '\0' else s[i]
    ensures GoodSpan(s, x) && StringAt(buf, x.q) == TextOf(s, x)
  {
    hide HasSpan, IsEnd, GoodCmd, IsWordChar;
    SpanGood(s, c, x);
    forall k | x.q <= k < x.e
      ensures buf[k] == s[k]
    {
      if IsEnd(c, k) {
        EndOutside(s, c, k);
      }
    }
    var w := s[x.q..x.e];
    assert buf[x.q..x.e] == w;
    ReadsTo(buf, w, x.q);
  }

  /** parsecmd: parse the line, then cut it into strings. */
  method Parsecmd(s: string) returns (r: Result, line: Line)
    requires forall k :: 0 <= k < |s| ==> s[k] != '\0'
    ensures r.Fail? <==> Parse(Lex(s, 0)).Panic?
    ensures r.Built? ==> GoodCmd(s, r.c) && Parse(Lex(s, 0)) == Ok(Tree(s, r.c), [])
    ensures r.Built? ==> forall x :: HasSpan(r.c, x) ==> GoodSpan(s, x) && StringAt(line.buf, x.q) == TextOf(s, x)
  {
    hide Lex, Parse, GoodCmd, Tree, HasSpan, StringAt, TextOf, IsEnd, IsWordChar;
    line := new Line(s);
    var parser := new Parser(s);
    r := parser.ParseCmd();
    if r.Built? {
      line.Nulterminate(s, r.c);
      forall x | HasSpan(r.c, x)
        ensures GoodSpan(s, x) && StringAt(line.buf, x.q) == TextOf(s, x)
      {
        WordIsToken(s, r.c, x, line.buf);
      }
    }
  }
}
