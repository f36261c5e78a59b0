/** Directory entries and their names (kernel/fs.c:520-582, kernel/fs.h:54-59). Names are fixed fields of
    DIRSIZ characters that end at the first NUL, if there is one. */
module DirNames {
  const DIRSIZ := 14
  const MAXENTRIES := 17152     // MAXFILE * BSIZE / sizeof(struct dirent)
  const ROOTINO := 1

  type Field = f: seq<char> | |f| == 14 witness seq(14, i => '\0')

  datatype Dirent = Dirent(inum: int, name: Field)

  /** The name a field holds from position i on. */
  function NameFrom(f: Field, i: nat): (s: string)
    requires i <= DIRSIZ
    decreases DIRSIZ - i
  {
    if i < DIRSIZ && f[i] != '\0' then [f[i]] + NameFrom(f, i + 1) else ""
  }

  function NameOf(f: Field): (s: string) {
    NameFrom(f, 0)
  }

  /** strncmp(s, t, DIRSIZ) == 0, from position i on. */
  predicate SameFrom(s: Field, t: Field, i: nat)
    requires i <= DIRSIZ
    decreases DIRSIZ - i
  {
    if i == DIRSIZ || (s[i] == '\0' && t[i] == '\0') then true
    else s[i] == t[i] && SameFrom(s, t, i + 1)
  }

  /** namecmp finds two fields equal iff they hold the same name, whatever follows the NUL. */
  lemma {:induction false} SameName(s: Field, t: Field, i: nat)
    requires i <= DIRSIZ
    ensures SameFrom(s, t, i) <==> NameFrom(s, i) == NameFrom(t, i)
    decreases DIRSIZ - i
  {
    if i < DIRSIZ && s[i] != '\0' && t[i] != '\0' {
      SameName(s, t, i + 1);
      if NameFrom(s, i) == NameFrom(t, i) {
        assert s[i] == NameFrom(s, i)[0] == NameFrom(t, i)[0] == t[i];
        assert NameFrom(s, i + 1) == NameFrom(s, i)[1..] == NameFrom(t, i)[1..] == NameFrom(t, i + 1);
      }
    }
  }

  /** strncpy(dst, src, DIRSIZ): copy up to a NUL, then fill with NULs. */
  function CopyFrom(src: Field, i: nat): (r: seq<char>)
    requires i <= DIRSIZ
    ensures |r| == DIRSIZ - i
    decreases DIRSIZ - i
  {
    if i == DIRSIZ then [] else if src[i] == '\0' then seq(DIRSIZ - i, k => '\0') else [src[i]] + CopyFrom(src, i + 1)
  }

  function Copied(src: Field): (r: Field) {
    CopyFrom(src, 0)
  }

  lemma {:induction false} CopyAt(src: Field, dst: Field, i: nat)
    requires i <= DIRSIZ && dst[i..] == CopyFrom(src, i)
    ensures NameFrom(dst, i) == NameFrom(src, i)
    decreases DIRSIZ - i
  {
    if i < DIRSIZ {
      assert dst[i] == dst[i..][0] == CopyFrom(src, i)[0];
      if src[i] != '\0' {
        assert dst[i + 1..] == dst[i..][1..] == CopyFrom(src, i)[1..] == CopyFrom(src, i + 1);
        CopyAt(src, dst, i + 1);
      }
    }
  }

  /** A copied name is the same name. */
  lemma CopiedName(src: Field)
    ensures NameOf(Copied(src)) == NameOf(src)
  {
    assert Copied(src)[0..] == Copied(src);
    CopyAt(src, Copied(src), 0);
  }

  // ---------------------------------------------------------------- a directory as a finite map

  predicate Live(es: seq<Dirent>, k: int) {
    0 <= k < |es| && es[k].inum != 0
  }

  ghost predicate Binds(es: seq<Dirent>, k: int, name: string) {
    Live(es, k) && NameOf(es[k].name) == name
  }

  /** Live names are unique. */
  ghost predicate Unique(es: seq<Dirent>) {
    forall k, m :: Live(es, k) && Live(es, m) && k != m ==> NameOf(es[k].name) != NameOf(es[m].name)
  }

  ghost predicate Bound(es: seq<Dirent>, name: string) {
    exists k :: Binds(es, k, name)
  }

  /** The inode number a name is bound to, or 0. */
  ghost function Find(es: seq<Dirent>, name: string): (inum: int)
    ensures Bound(es, name) ==> inum != 0
    ensures !Bound(es, name) ==> inum == 0
  {
    if Bound(es, name) then
      var k :| Binds(es, k, name); es[k].inum
    else 0
  }

  lemma FindIs(es: seq<Dirent>, k: int)
    requires Unique(es) && Live(es, k)
    ensures Find(es, NameOf(es[k].name)) == es[k].inum
  {
    hide NameOf;
    assert Binds(es, k, NameOf(es[k].name));
  }

  /** An entry put into a free slot, or after the last one. */
  function PutAt(es: seq<Dirent>, k: int, e: Dirent): (r: seq<Dirent>)
    requires 0 <= k <= |es|
  {
    if k == |es| then es + [e] else es[k := e]
  }

  /** Linking a new name adds exactly one binding. */
  lemma PutBinds(es: seq<Dirent>, k: int, e: Dirent, name: string)
    requires Unique(es) && 0 <= k <= |es| && (k < |es| ==> es[k].inum == 0) && e.inum != 0 && !Bound(es, NameOf(e.name))
    ensures Unique(PutAt(es, k, e))
    ensures Find(PutAt(es, k, e), name) == if name == NameOf(e.name) then e.inum else Find(es, name)
  {
    hide NameOf;
    var r := PutAt(es, k, e);
    assert forall m :: 0 <= m < |r| && m != k ==> r[m] == es[m];
    assert r[k] == e;
    forall m, n | Live(r, m) && Live(r, n) && m != n
      ensures NameOf(r[m].name) != NameOf(r[n].name)
    {
      if m == k {
        assert !Binds(es, n, NameOf(e.name));
      } else if n == k {
        assert !Binds(es, m, NameOf(e.name));
      }
    }
    PutFind(es, k, e, name);
  }

  lemma PutFind(es: seq<Dirent>, k: int, e: Dirent, name: string)
    requires Unique(es) && 0 <= k <= |es| && (k < |es| ==> es[k].inum == 0) && e.inum != 0 && !Bound(es, NameOf(e.name))
    requires Unique(PutAt(es, k, e))
    ensures Find(PutAt(es, k, e), name) == if name == NameOf(e.name) then e.inum else Find(es, name)
  {
    hide NameOf;
    var r := PutAt(es, k, e);
    assert forall m :: 0 <= m < |r| && m != k ==> r[m] == es[m];
    assert r[k] == e;
    if name == NameOf(e.name) {
      FindIs(r, k);
    } else if Bound(es, name) {
      var m :| Binds(es, m, name);
      FindIs(es, m);
      assert r[m] == es[m];
      FindIs(r, m);
    } else {
      forall m
        ensures !Binds(r, m, name)
      {
        assert !Binds(es, m, name);
      }
    }
  }

  /** Clearing an entry removes exactly its binding. */
  lemma ClearBinds(es: seq<Dirent>, k: int, e: Dirent, name: string)
    requires Unique(es) && Live(es, k) && e.inum == 0
    ensures Unique(es[k := e])
    ensures Find(es[k := e], name) == if name == NameOf(es[k].name) then 0 else Find(es, name)
  {
    hide NameOf;
    var r := es[k := e];
    assert forall m :: 0 <= m < |r| && m != k ==> r[m] == es[m];
    if name == NameOf(es[k].name) {
      forall m
        ensures !Binds(r, m, name)
      {
      }
    } else if Bound(es, name) {
      var m :| Binds(es, m, name);
      FindIs(es, m);
      FindIs(r, m);
    } else {
      forall m
        ensures !Binds(r, m, name)
      {
        assert !Binds(es, m, name);
      }
    }
  }

  // ---------------------------------------------------------------- the loops

  /** dirlookup: the slot of the name, or -1. */
  method Dirlookup(es: seq<Dirent>, name: Field) returns (k: int)
    ensures k >= 0 ==> Binds(es, k, NameOf(name))
    ensures k < 0 ==> !Bound(es, NameOf(name))
  {
    k := 0;
    while k < |es|
      invariant 0 <= k <= |es|
      invariant forall m :: 0 <= m < k ==> !Binds(es, m, NameOf(name))
    {
      if es[k].inum != 0 {
        SameName(name, es[k].name, 0);
        if SameFrom(name, es[k].name, 0) {
          return;
        }
      }
      k := k + 1;
    }
    k := -1;
  }

  /** Some slot of the directory is empty. */
  ghost predicate HasEmpty(es: seq<Dirent>) {
    exists k :: 0 <= k < |es| && es[k].inum == 0
  }

  /** A directory that cannot take another entry: every slot is in use, and writei lets it grow no more. */
  ghost predicate FullDir(es: seq<Dirent>) {
    !HasEmpty(es) && |es| >= MAXENTRIES
  }

  /** dirlink: -1 iff the name is bound, and the panic of writei's failure iff it is not and the directory is
      full; otherwise it binds the name and changes no other binding. */
  method Dirlink(es: seq<Dirent>, name: Field, inum: int) returns (ok: bool, panic: bool, r: seq<Dirent>, k: int)
    requires Unique(es) && inum != 0 && |es| <= MAXENTRIES
    ensures panic <==> !Bound(es, NameOf(name)) && FullDir(es)
    ensures ok <==> !Bound(es, NameOf(name)) && !panic
    ensures !ok ==> r == es
    ensures ok ==> 0 <= k <= |es| && (k < |es| ==> es[k].inum == 0) && r == PutAt(es, k, Dirent(inum, Copied(name)))
    ensures ok ==> Unique(r) && |r| == (if HasEmpty(es) then |es| else |es| + 1) <= MAXENTRIES
    ensures ok ==> forall n :: Find(r, n) == if n == NameOf(name) then inum else Find(es, n)
  {
    hide NameOf, Copied;
    k := Dirlookup(es, name);
    r, panic := es, false;
    if k >= 0 {
      return false, false, r, k;
    }
    k := 0;
    while k < |es| && es[k].inum != 0
      invariant 0 <= k <= |es|
      invariant forall m :: 0 <= m < k ==> es[m].inum != 0
    {
      k := k + 1;
    }
    if k >= MAXENTRIES {
      return false, true, r, k;
    }
    var e := Dirent(inum, Copied(name));
    CopiedName(name);
    forall n
      ensures Unique(PutAt(es, k, e)) && Find(PutAt(es, k, e), n) == if n == NameOf(name) then inum else Find(es, n)
    {
      PutBinds(es, k, e, n);
    }
    PutBinds(es, k, e, "");
    r := PutAt(es, k, e);
    ok := true;
  }
}
