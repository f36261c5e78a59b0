/** Tokens of a command line (user/sh.c:262-320), and the text of a token list. */
module ShellLex {
  import opened ShellGrammar

  predicate IsSpace(c: char) {
    c == ' ' || c == '\t' || c == '\r' || c == '\n' || c == '\U{00000B}'
  }

  predicate IsSymbol(c: char) {
    c == '<' || c == '|' || c == '>' || c == '&' || c == ';' || c == '(' || c == ')'
  }

  predicate IsWordChar(c: char) {
    !IsSpace(c) && !IsSymbol(c)
  }

  /** The first position from i on that is no whitespace. */
  function Skip(s: string, i: nat): (j: nat)
    requires i <= |s|
    ensures i <= j <= |s| && (j < |s| ==> !IsSpace(s[j])) && (forall k :: i <= k < j ==> IsSpace(s[k]))
    decreases |s| - i
  {
    if i < |s| && IsSpace(s[i]) then Skip(s, i + 1) else i
  }

  /** The end of the word that starts at i. */
  function WordEnd(s: string, i: nat): (j: nat)
    requires i <= |s|
    ensures i <= j <= |s| && (j < |s| ==> !IsWordChar(s[j])) && (forall k :: i <= k < j ==> IsWordChar(s[k]))
    ensures i < |s| && IsWordChar(s[i]) ==> i < j
    decreases |s| - i
  {
    if i < |s| && IsWordChar(s[i]) then WordEnd(s, i + 1) else i
  }

  function TokEnd(s: string, i: nat): (j: nat)
    requires i < |s| && !IsSpace(s[i])
    ensures i < j <= |s|
  {
    if s[i] == '>' && i + 1 < |s| && s[i + 1] == '>' then i + 2
    else if IsSymbol(s[i]) then i + 1
    else WordEnd(s, i)
  }

  function TokAt(s: string, i: nat): (t: Tok)
    requires i < |s| && !IsSpace(s[i])
  {
    if s[i] == '>' && i + 1 < |s| && s[i + 1] == '>' then Sym('+')
    else if IsSymbol(s[i]) then Sym(s[i])
    else Word(s[i..WordEnd(s, i)])
  }

  /** The tokens from position i on. */
  function Lex(s: string, i: nat): (ts: seq<Tok>)
    requires i <= |s|
    decreases |s| - i
  {
    var j := Skip(s, i);
    if j == |s| then [] else [TokAt(s, j)] + Lex(s, TokEnd(s, j))
  }

  lemma LexSkip(s: string, i: nat)
    requires i <= |s|
    ensures Lex(s, i) == Lex(s, Skip(s, i))
  {
    SkipTwice(s, i);
  }

  lemma SkipTwice(s: string, i: nat)
    requires i <= |s|
    ensures Skip(s, Skip(s, i)) == Skip(s, i)
  {
  }

  // ---------------------------------------------------------------- printing text

  predicate IsWord(w: string) {
    |w| > 0 && forall k :: 0 <= k < |w| ==> IsWordChar(w[k])
  }

  predicate IsTok(t: Tok) {
    match t
    case Sym(c) => IsSymbol(c) || c == '+'
    case Word(w) => IsWord(w)
  }

  function TokText(t: Tok): (s: string) {
    match t
    case Sym(c) => if c == '+' then ">>" else [c]
    case Word(w) => w
  }

  /** The tokens with a blank after each. */
  function Text(ts: seq<Tok>): (s: string) {
    if |ts| == 0 then "" else TokText(ts[0]) + " " + Text(ts[1..])
  }

  lemma {:induction false} WordEndIs(s: string, i: nat, n: nat)
    requires i + n < |s| && (forall k :: i <= k < i + n ==> IsWordChar(s[k])) && !IsWordChar(s[i + n])
    ensures WordEnd(s, i) == i + n
    decreases n
  {
    if n > 0 {
      WordEndIs(s, i + 1, n - 1);
    }
  }

  /** A token that stands at position i, with a blank after it, is read back. */
  lemma ReadBack(s: string, i: nat, t: Tok)
    requires IsTok(t) && i + |TokText(t)| < |s| && s[i..i + |TokText(t)|] == TokText(t) && s[i + |TokText(t)|] == ' '
    ensures i < |s| && !IsSpace(s[i]) && TokAt(s, i) == t && TokEnd(s, i) == i + |TokText(t)|
  {
    var w := TokText(t);
    assert forall k :: 0 <= k < |w| ==> s[i + k] == w[k] by {
      assert forall k :: 0 <= k < |w| ==> s[i..i + |w|][k] == w[k];
    }
    if t.Word? {
      assert forall k :: i <= k < i + |w| ==> IsWordChar(s[k]) by {
        assert forall k :: i <= k < i + |w| ==> s[k] == w[k - i];
      }
      WordEndIs(s, i, |w|);
      assert s[i] == w[0];
    }
  }

  lemma LexBlank(s: string, i: nat)
    requires i < |s| && s[i] == ' '
    ensures Lex(s, i) == Lex(s, i + 1)
  {
    assert Skip(s, i) == Skip(s, i + 1);
  }

  lemma {:induction false} LexOne(s: string, i: nat, t: Tok)
    requires IsTok(t) && i + |TokText(t)| < |s| && s[i..i + |TokText(t)|] == TokText(t) && s[i + |TokText(t)|] == ' '
    ensures Lex(s, i) == [t] + Lex(s, i + |TokText(t)| + 1)
  {
    ReadBack(s, i, t);
    hide IsTok, TokText, IsSpace, TokAt, TokEnd;
    assert Skip(s, i) == i;
    LexBlank(s, i + |TokText(t)|);
  }

  lemma Split(p: string, w: string, u: string)
    ensures var s := p + (w + " " + u);
            && |s| == |p| + |w| + 1 + |u| && s[|p|..|p| + |w|] == w && s[|p| + |w|] == ' '
            && s == (p + w + " ") + u && |p + w + " "| == |p| + |w| + 1
  {
  }

  lemma TextSplit(ts: seq<Tok>)
    requires |ts| > 0
    ensures Text(ts) == TokText(ts[0]) + " " + Text(ts[1..])
  {
    hide TokText;
  }

  lemma NoText(ts: seq<Tok>, p: string)
    requires |ts| == 0
    ensures Lex(p + Text(ts), |p|) == ts
  {
    assert p + Text(ts) == p;
  }

  ghost predicate AllToks(ts: seq<Tok>) {
    forall k :: 0 <= k < |ts| ==> IsTok(ts[k])
  }

  lemma AllTail(ts: seq<Tok>)
    requires AllToks(ts) && |ts| > 0
    ensures IsTok(ts[0]) && AllToks(ts[1..])
  {
    hide IsTok;
  }

  /** Reading the text of a token list gives the list. */
  lemma {:induction false} LexText(ts: seq<Tok>, p: string)
    requires AllToks(ts)
    ensures Lex(p + Text(ts), |p|) == ts
    decreases |ts|
  {
    hide IsTok, TokText, Lex, Text, AllToks;
    if |ts| == 0 {
      NoText(ts, p);
    } else {
      var w, u := TokText(ts[0]), Text(ts[1..]);
      TextSplit(ts);
      AllTail(ts);
      Split(p, w, u);
      var s := p + (w + " " + u);
      LexOne(s, |p|, ts[0]);
      LexText(ts[1..], p + w + " ");
      assert ts == [ts[0]] + ts[1..];
    }
  }

  // ---------------------------------------------------------------- no character is lost

  /** The characters that are no blanks. */
  function NonBlanks(s: string): (r: string) {
    if s == "" then "" else (if IsSpace(s[0]) then "" else [s[0]]) + NonBlanks(s[1..])
  }

  function Joined(ts: seq<Tok>): (r: string) {
    if |ts| == 0 then "" else TokText(ts[0]) + Joined(ts[1..])
  }

  lemma {:induction false} BlanksDropped(s: string, i: nat, j: nat)
    requires i <= j <= |s| && forall k :: i <= k < j ==> IsSpace(s[k])
    ensures NonBlanks(s[i..]) == NonBlanks(s[j..])
    decreases j - i
  {
    if i < j {
      assert s[i..][1..] == s[i + 1..];
      BlanksDropped(s, i + 1, j);
    }
  }

  lemma {:induction false} OthersKept(s: string, i: nat, j: nat)
    requires i <= j <= |s| && forall k :: i <= k < j ==> !IsSpace(s[k])
    ensures NonBlanks(s[i..]) == s[i..j] + NonBlanks(s[j..])
    decreases j - i
  {
    if i < j {
      assert s[i..][1..] == s[i + 1..];
      OthersKept(s, i + 1, j);
      assert s[i..j] == [s[i]] + s[i + 1..j];
    }
  }

  lemma TokenIsText(s: string, i: nat)
    requires i < |s| && !IsSpace(s[i])
    ensures IsTok(TokAt(s, i)) && TokText(TokAt(s, i)) == s[i..TokEnd(s, i)]
    ensures forall k :: i <= k < TokEnd(s, i) ==> !IsSpace(s[k])
  {
  }

  /** The tokens of a line are words and symbols, and their texts in order are the characters of the line that are
      no blanks. */
  lemma {:induction false} LexKeepsText(s: string, i: nat)
    requires i <= |s|
    ensures AllToks(Lex(s, i)) && Joined(Lex(s, i)) == NonBlanks(s[i..])
    decreases |s| - i
  {
    hide IsTok, TokText, TokAt, TokEnd, IsSpace, NonBlanks;
    var j := Skip(s, i);
    BlanksDropped(s, i, j);
    if j == |s| {
      assert NonBlanks(s[j..]) == "" by { NoCharacters(s[j..]); }
    } else {
      var e := TokEnd(s, j);
      TokenIsText(s, j);
      OthersKept(s, j, e);
      LexKeepsText(s, e);
      var ts := Lex(s, i);
      assert ts[1..] == Lex(s, e);
    }
  }

  lemma NoCharacters(s: string)
    requires |s| == 0
    ensures NonBlanks(s) == ""
  {
  }

  /** The whole line. */
  lemma LineKeepsText(s: string)
    ensures AllToks(Lex(s, 0)) && Joined(Lex(s, 0)) == NonBlanks(s)
  {
    LexKeepsText(s, 0);
    assert s[0..] == s;
  }
}
