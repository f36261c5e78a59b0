/** Path names (kernel/fs.c:584-676): skipelem and namex. */
module DirPath {
  import opened DirNames

  /** A path element cut to DIRSIZ characters. */
  function CutName(w: string): (s: string) {
    if |w| >= DIRSIZ then w[..DIRSIZ] else w
  }

  function SkipSlashes(p: string, i: nat): (j: nat)
    requires i <= |p|
    ensures i <= j <= |p| && (j < |p| ==> p[j] != '/')
    decreases |p| - i
  {
    if i < |p| && p[i] == '/' then SkipSlashes(p, i + 1) else i
  }

  function ElemEnd(p: string, i: nat): (j: nat)
    requires i <= |p|
    ensures i <= j <= |p| && (j < |p| ==> p[j] == '/') && (forall k :: i <= k < j ==> p[k] != '/')
    ensures i < |p| && p[i] != '/' ==> i < j
    decreases |p| - i
  {
    if i < |p| && p[i] != '/' then ElemEnd(p, i + 1) else i
  }

  /** The elements of a path, as skipelem finds them one after the other. */
  function Elements(p: string, i: nat): (cs: seq<string>)
    requires i <= |p|
    decreases |p| - i
  {
    var s := SkipSlashes(p, i);
    if s == |p| then [] else [CutName(p[s..ElemEnd(p, s)])] + Elements(p, ElemEnd(p, s))
  }

  // ---------------------------------------------------------------- the pieces between slashes

  /** The pieces of a path between slashes, empty ones included. */
  function Pieces(p: string): (ps: seq<string>)
    ensures |ps| > 0
  {
    if |p| == 0 then [""]
    else
      var rest := Pieces(p[1..]);
      if p[0] == '/' then [""] + rest else [[p[0]] + rest[0]] + rest[1..]
  }

  /** The pieces that are not empty, cut to DIRSIZ. */
  function Named(ps: seq<string>): (cs: seq<string>) {
    if |ps| == 0 then [] else (if ps[0] == "" then [] else [CutName(ps[0])]) + Named(ps[1..])
  }

  /** The first piece is the text up to the first slash. */
  lemma {:induction false} FirstPiece(p: string, i: nat)
    requires i <= |p|
    ensures var ps := Pieces(p[i..]); var e := ElemEnd(p, i);
            ps[0] == p[i..e] && ps[1..] == if e < |p| then Pieces(p[e + 1..]) else []
    decreases |p| - i
  {
    var q := p[i..];
    if i == |p| {
      assert q == "";
    } else {
      assert q[1..] == p[i + 1..];
      if p[i] != '/' {
        FirstPiece(p, i + 1);
        var e := ElemEnd(p, i + 1);
        assert [p[i]] + p[i + 1..e] == p[i..e];
      } else {
        assert Pieces(q)[1..] == Pieces(q[1..]);
      }
    }
  }

  lemma ElementsSlash(p: string, i: nat)
    requires i < |p| && p[i] == '/'
    ensures Elements(p, i) == Elements(p, i + 1)
  {
    assert SkipSlashes(p, i) == SkipSlashes(p, i + 1);
  }

  lemma ElementsWord(p: string, i: nat)
    requires i < |p| && p[i] != '/'
    ensures var e := ElemEnd(p, i);
            Elements(p, i) == [CutName(p[i..e])] + (if e < |p| then Elements(p, e + 1) else [])
  {
    var e := ElemEnd(p, i);
    assert SkipSlashes(p, i) == i;
    if e < |p| {
      ElementsSlash(p, e);
    }
  }

  lemma NamedCons(ps: seq<string>)
    requires |ps| > 0
    ensures Named(ps) == (if ps[0] == "" then [] else [CutName(ps[0])]) + Named(ps[1..])
  {
  }

  lemma NoElements(p: string)
    ensures Elements(p, |p|) == []
  {
  }

  /** skipelem yields exactly the non-empty pieces. */
  lemma {:induction false} ElementsArePieces(p: string, i: nat)
    requires i <= |p|
    ensures Elements(p, i) == Named(Pieces(p[i..]))
    decreases |p| - i
  {
    hide Elements, Pieces, CutName, Named;
    FirstPiece(p, i);
    var ps, e := Pieces(p[i..]), ElemEnd(p, i);
    NamedCons(ps);
    assert Named([]) == [] by { NamedNone(); }
    if i == |p| {
      NoElements(p);
    } else if p[i] == '/' {
      ElementsSlash(p, i);
      assert e == i;
      ElementsArePieces(p, i + 1);
    } else {
      ElementsWord(p, i);
      if e < |p| {
        ElementsArePieces(p, e + 1);
      }
    }
  }

  lemma NamedNone()
    ensures Named([]) == []
  {
  }

  // ---------------------------------------------------------------- skipelem

  /** The name field after an element of w was copied into it. */
  function Filled(name: Field, w: string): (r: Field) {
    if |w| >= DIRSIZ then w[..DIRSIZ] else w + ['\0'] + name[|w| + 1..]
  }

  lemma {:induction false} FilledFrom(name: Field, w: string, i: nat)
    requires (forall k :: 0 <= k < |w| ==> w[k] != '\0') && i <= |CutName(w)|
    ensures NameFrom(Filled(name, w), i) == CutName(w)[i..]
    decreases |CutName(w)| - i
  {
    if i < |CutName(w)| {
      FilledFrom(name, w, i + 1);
      assert Filled(name, w)[i] == w[i];
      assert CutName(w)[i..] == [w[i]] + CutName(w)[i + 1..];
    }
  }

  /** skipelem. Old contents of the name field do not matter. */
  method Skipelem(p: string, i: nat, name: Field) returns (found: bool, j: nat, r: Field)
    requires i <= |p| && forall k :: 0 <= k < |p| ==> p[k] != '\0'
    ensures i <= j <= |p|
    ensures !found ==> Elements(p, i) == [] && r == name
    ensures found ==> i < j && Elements(p, i) == [NameOf(r)] + Elements(p, j) && (j == |p| <==> Elements(p, j) == [])
  {
    j := i;
    while j < |p| && p[j] == '/'
      invariant i <= j <= |p| && SkipSlashes(p, j) == SkipSlashes(p, i)
    {
      j := j + 1;
    }
    if j == |p| {
      return false, j, name;
    }
    var s := j;
    while j < |p| && p[j] != '/'
      invariant s <= j <= |p| && ElemEnd(p, j) == ElemEnd(p, s)
    {
      j := j + 1;
    }
    ghost var e := j;
    var w := p[s..j];
    r := Filled(name, w);
    FilledFrom(name, w, 0);
    assert CutName(w)[0..] == CutName(w);
    while j < |p| && p[j] == '/'
      invariant e <= j <= |p| && SkipSlashes(p, j) == SkipSlashes(p, e)
    {
      j := j + 1;
    }
    found := true;
    SkipThen(p, e, j);
    SkipThen(p, i, s);
  }

  lemma SkipThen(p: string, i: nat, j: nat)
    requires i <= j <= |p| && SkipSlashes(p, j) == SkipSlashes(p, i) && j == SkipSlashes(p, j)
    ensures Elements(p, i) == Elements(p, j)
    ensures j == |p| <==> Elements(p, j) == []
  {
  }

  // ---------------------------------------------------------------- namex

  /** An inode as namex sees it. */
  datatype Node = Node(isDir: bool, entries: seq<Dirent>)

  /** Found an inode, found none, or ilock panics on an inode that is not allocated. */
  datatype Outcome = At(i: int) | Missing | Panics

  ghost function Step(fs: map<int, Node>, i: int, c: string): (r: Outcome) {
    if i !in fs then Panics
    else if !fs[i].isDir then Missing
    else if Find(fs[i].entries, c) == 0 then Missing
    else At(Find(fs[i].entries, c))
  }

  /** Follow the elements one after the other. */
  ghost function Follow(fs: map<int, Node>, i: int, cs: seq<string>): (r: Outcome)
    decreases |cs|
  {
    if |cs| == 0 then At(i)
    else
      match Step(fs, i, cs[0])
      case At(n) => Follow(fs, n, cs[1..])
      case o => o
  }

  /** Follow all elements but the last; the directory it is in must be one. */
  ghost function FollowParent(fs: map<int, Node>, i: int, cs: seq<string>): (r: Outcome)
    decreases |cs|
  {
    if |cs| == 0 then Missing
    else if |cs| == 1 then (if i !in fs then Panics else if !fs[i].isDir then Missing else At(i))
    else
      match Step(fs, i, cs[0])
      case At(n) => FollowParent(fs, n, cs[1..])
      case o => o
  }

  // ---------------------------------------------------------------- paths as chains of inodes

  /** Inode i is an allocated directory that has an entry with name c and number n. */
  ghost predicate Leads(fs: map<int, Node>, i: int, c: string, n: int) {
    i in fs && fs[i].isDir && exists k :: Binds(fs[i].entries, k, c) && fs[i].entries[k].inum == n
  }

  /** Each inode leads to the next one. */
  ghost predicate IsChain(fs: map<int, Node>, ns: seq<int>, cs: seq<string>) {
    |ns| == |cs| + 1 && forall k :: 0 <= k < |cs| ==> Leads(fs, ns[k], cs[k], ns[k + 1])
  }

  /** There is a chain from i to n along the names cs. */
  ghost predicate Reaches(fs: map<int, Node>, i: int, cs: seq<string>, n: int) {
    exists ns :: IsChain(fs, ns, cs) && ns[0] == i && ns[|cs|] == n
  }

  ghost predicate AllUnique(fs: map<int, Node>) {
    forall i :: i in fs ==> Unique(fs[i].entries)
  }

  lemma StepLeads(fs: map<int, Node>, i: int, c: string, n: int)
    requires AllUnique(fs)
    ensures Step(fs, i, c) == At(n) <==> Leads(fs, i, c, n)
  {
    hide NameOf;
    if Leads(fs, i, c, n) {
      var k :| Binds(fs[i].entries, k, c) && fs[i].entries[k].inum == n;
      FindIs(fs[i].entries, k);
    }
    if Step(fs, i, c) == At(n) {
      var k :| Binds(fs[i].entries, k, c);
      FindIs(fs[i].entries, k);
    }
  }

  lemma {:induction false} ChainFollowed(fs: map<int, Node>, ns: seq<int>, cs: seq<string>)
    requires AllUnique(fs) && IsChain(fs, ns, cs)
    ensures Follow(fs, ns[0], cs) == At(ns[|cs|])
    decreases |cs|
  {
    hide Step, Leads, AllUnique;
    if |cs| > 0 {
      assert Leads(fs, ns[0], cs[0], ns[1]);
      StepLeads(fs, ns[0], cs[0], ns[1]);
      assert IsChain(fs, ns[1..], cs[1..]) by {
        forall k | 0 <= k < |cs| - 1
          ensures Leads(fs, ns[1..][k], cs[1..][k], ns[1..][k + 1])
        {
          assert Leads(fs, ns[k + 1], cs[k + 1], ns[k + 2]);
        }
      }
      ChainFollowed(fs, ns[1..], cs[1..]);
    }
  }

  lemma {:induction false} FollowedChain(fs: map<int, Node>, i: int, cs: seq<string>) returns (ns: seq<int>)
    requires AllUnique(fs) && Follow(fs, i, cs).At?
    ensures IsChain(fs, ns, cs) && ns[0] == i && ns[|cs|] == Follow(fs, i, cs).i
    decreases |cs|
  {
    hide Step, Leads, AllUnique;
    ns := [i];
    if |cs| > 0 {
      var n := Step(fs, i, cs[0]).i;
      StepLeads(fs, i, cs[0], n);
      var rest := FollowedChain(fs, n, cs[1..]);
      ns := [i] + rest;
      forall k | 0 <= k < |cs|
        ensures Leads(fs, ns[k], cs[k], ns[k + 1])
      {
        assert k > 0 ==> Leads(fs, rest[k - 1], cs[1..][k - 1], rest[k]);
      }
    }
  }

  lemma FollowIsReach(fs: map<int, Node>, i: int, cs: seq<string>, n: int)
    requires AllUnique(fs)
    ensures Follow(fs, i, cs) == At(n) <==> Reaches(fs, i, cs, n)
  {
    hide Follow, AllUnique;
    if Reaches(fs, i, cs, n) {
      var ns :| IsChain(fs, ns, cs) && ns[0] == i && ns[|cs|] == n;
      ChainFollowed(fs, ns, cs);
    }
    if Follow(fs, i, cs) == At(n) {
      var ns := FollowedChain(fs, i, cs);
    }
  }

  /** ilock panics at an inode that a shorter chain reaches and that is not allocated. */
  ghost predicate Breaks(fs: map<int, Node>, i: int, cs: seq<string>) {
    exists k, n :: 0 <= k < |cs| && Follow(fs, i, cs[..k]) == At(n) && n !in fs
  }

  lemma {:induction false} FollowBreaks(fs: map<int, Node>, i: int, cs: seq<string>)
    ensures Follow(fs, i, cs) == Panics <==> Breaks(fs, i, cs)
    ensures FollowParent(fs, i, cs) == Panics <==> Breaks(fs, i, cs)
    decreases |cs|
  {
    if |cs| > 0 {
      assert Follow(fs, i, cs[..0]) == At(i);
      var o := Step(fs, i, cs[0]);
      forall k | 0 < k < |cs|
        ensures cs[..k][0] == cs[0] && cs[..k][1..] == cs[1..][..k - 1]
      {
      }
      if o.At? {
        FollowBreaks(fs, o.i, cs[1..]);
        if Breaks(fs, o.i, cs[1..]) {
          var k, n :| 0 <= k < |cs| - 1 && Follow(fs, o.i, cs[1..][..k]) == At(n) && n !in fs;
          assert Follow(fs, i, cs[..k + 1]) == At(n);
        }
        if k, n :| 0 <= k < |cs| && Follow(fs, i, cs[..k]) == At(n) && n !in fs {
          assert k > 0;
          assert Follow(fs, o.i, cs[1..][..k - 1]) == At(n);
        }
      }
    }
  }

  lemma {:induction false} ParentIsReach(fs: map<int, Node>, i: int, cs: seq<string>)
    requires |cs| > 0
    ensures forall n :: FollowParent(fs, i, cs) == At(n) <==>
              Follow(fs, i, cs[..|cs| - 1]) == At(n) && n in fs && fs[n].isDir
    decreases |cs|
  {
    if |cs| > 1 {
      assert cs[..|cs| - 1][0] == cs[0] && cs[..|cs| - 1][1..] == cs[1..][..|cs| - 2];
      var o := Step(fs, i, cs[0]);
      if o.At? {
        ParentIsReach(fs, o.i, cs[1..]);
      }
    }
  }

  /** What namex gives, by chains alone. */
  ghost predicate ByChains(fs: map<int, Node>, start: int, cs: seq<string>, parent: bool, r: Outcome) {
    && (forall n :: r == At(n) <==>
          if parent then |cs| > 0 && Reaches(fs, start, cs[..|cs| - 1], n) && n in fs && fs[n].isDir
          else Reaches(fs, start, cs, n))
    && (r == Panics <==> exists k, n :: 0 <= k < |cs| && Reaches(fs, start, cs[..k], n) && n !in fs)
  }

  lemma NamexByChains(fs: map<int, Node>, start: int, cs: seq<string>, parent: bool, r: Outcome)
    requires AllUnique(fs) && r == if parent then FollowParent(fs, start, cs) else Follow(fs, start, cs)
    ensures ByChains(fs, start, cs, parent, r)
  {
    hide Follow, FollowParent, Reaches, AllUnique;
    forall k, n | 0 <= k <= |cs|
      ensures Follow(fs, start, cs[..k]) == At(n) <==> Reaches(fs, start, cs[..k], n)
    {
      FollowIsReach(fs, start, cs[..k], n);
    }
    assert cs[..|cs|] == cs;
    FollowBreaks(fs, start, cs);
    if |cs| > 0 {
      ParentIsReach(fs, start, cs);
    } else if parent {
      NoParent(fs, start, cs);
    }
  }

  lemma NoParent(fs: map<int, Node>, start: int, cs: seq<string>)
    requires |cs| == 0
    ensures FollowParent(fs, start, cs) == Missing
  {
  }

  /** namex: exactly the non-empty pieces of the path are followed, from the root or from cwd. */
  method Namex(fs: map<int, Node>, cwd: int, p: string, parent: bool, name0: Field) returns (r: Outcome, name: Field)
    requires (forall k :: 0 <= k < |p| ==> p[k] != '\0') && forall i :: i in fs ==> Unique(fs[i].entries)
    ensures var start := if |p| > 0 && p[0] == '/' then ROOTINO else cwd;
            var cs := Named(Pieces(p));
            && r == (if parent then FollowParent(fs, start, cs) else Follow(fs, start, cs))
            && (r.At? && |cs| > 0 ==> NameOf(name) == cs[|cs| - 1])
            && ByChains(fs, start, cs, parent, r)
  {
    r, name := NamexLoop(fs, cwd, p, parent, name0);
    NamexByChains(fs, if |p| > 0 && p[0] == '/' then ROOTINO else cwd, Named(Pieces(p)), parent, r);
  }

  /** The loop of namex. */
  method NamexLoop(fs: map<int, Node>, cwd: int, p: string, parent: bool, name0: Field)
      returns (r: Outcome, name: Field)
    requires (forall k :: 0 <= k < |p| ==> p[k] != '\0') && forall i :: i in fs ==> Unique(fs[i].entries)
    ensures var start := if |p| > 0 && p[0] == '/' then ROOTINO else cwd;
            var cs := Named(Pieces(p));
            && r == (if parent then FollowParent(fs, start, cs) else Follow(fs, start, cs))
            && (r.At? && |cs| > 0 ==> NameOf(name) == cs[|cs| - 1])
  {
    hide NameOf, Elements, Named, Pieces, Find, Unique;
    assert p[0..] == p;
    ElementsArePieces(p, 0);
    var ip := if |p| > 0 && p[0] == '/' then ROOTINO else cwd;
    ghost var start, cs := ip, Elements(p, 0);
    var j := 0;
    name := name0;
    var found := true;
    ghost var k := 0;
    while found
      invariant j <= |p| && 0 <= k <= |cs|
      invariant Elements(p, j) == cs[k..]
      invariant !found ==> k == |cs|
      invariant !parent ==> Follow(fs, start, cs) == Follow(fs, ip, cs[k..])
      invariant parent ==> FollowParent(fs, start, cs) == FollowParent(fs, ip, cs[k..])
      invariant k > 0 ==> NameOf(name) == cs[k - 1]
      decreases |p| - j, found
    {
      ghost var rest := cs[k..];
      found, j, name := Skipelem(p, j, name);
      if !found {
        break;
      }
      assert rest[0] == NameOf(name) && rest[1..] == cs[k + 1..];
      assert rest[1..] == Elements(p, j);
      if ip !in fs {
        StepFails(fs, ip, rest);
        return Panics, name;
      }
      if !fs[ip].isDir {
        StepFails(fs, ip, rest);
        return Missing, name;
      }
      if parent && j == |p| {
        assert |rest| == 1;
        return At(ip), name;
      }
      var m := Dirlookup(fs[ip].entries, name);
      if m < 0 {
        NotFound(fs[ip].entries, NameOf(name));
        return Missing, name;
      }
      FoundIs(fs[ip].entries, m, NameOf(name));
      ip := fs[ip].entries[m].inum;
      k := k + 1;
    }
    assert cs[k..] == [];
    if parent {
      return Missing, name;
    }
    r := At(ip);
  }

  lemma StepFails(fs: map<int, Node>, i: int, cs: seq<string>)
    requires |cs| > 0 && (i !in fs || !fs[i].isDir)
    ensures Follow(fs, i, cs) == (if i !in fs then Panics else Missing) == FollowParent(fs, i, cs)
  {
  }

  lemma NotFound(es: seq<Dirent>, n: string)
    requires !Bound(es, n)
    ensures Find(es, n) == 0
  {
  }

  lemma FoundIs(es: seq<Dirent>, k: int, n: string)
    requires Unique(es) && Binds(es, k, n)
    ensures Find(es, n) == es[k].inum != 0
  {
    FindIs(es, k);
  }
}
