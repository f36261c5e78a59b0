/** Link counts (kernel/fs.c:333-358, kernel/sysfile.c:118-284): which directory entries name an inode. */
module DirLinks {
  import opened DirNames
  import opened Sets

  datatype Kind = Dir | File | Dev

  datatype Inode = Inode(kind: Kind, nlink: int, entries: seq<Dirent>)

  predicate IsDots(name: string) {
    name == "." || name == ".."
  }

  /** Slot k of directory d names inode i, and is neither "." nor "..". */
  predicate NamesAt(fs: map<int, Inode>, i: int, d: int, k: int) {
    d in fs && Live(fs[d].entries, k) && fs[d].entries[k].inum == i && !IsDots(NameOf(fs[d].entries[k].name))
  }

  /** All names of inode i. */
  ghost function Names(fs: map<int, Inode>, i: int): (r: set<(int, int)>) {
    set d, k | d in fs && 0 <= k < |fs[d].entries| && NamesAt(fs, i, d, k) :: (d, k)
  }

  predicate IsKid(fs: map<int, Inode>, d: int, k: int) {
    && d in fs && Live(fs[d].entries, k) && !IsDots(NameOf(fs[d].entries[k].name))
    && fs[d].entries[k].inum in fs && fs[fs[d].entries[k].inum].kind == Dir
  }

  /** The entries of directory d that name directories; each of those has a ".." that counts for d. */
  ghost function Kids(fs: map<int, Inode>, d: int): (r: set<(int, int)>) {
    set k | d in fs && 0 <= k < |fs[d].entries| && IsKid(fs, d, k) :: (d, k)
  }

  function OwedTo(owed: map<int, nat>, i: int): (n: nat) {
    if i in owed then owed[i] else 0
  }

  /** nlink is at least the number of names and of subdirectories, plus what calls in progress still owe. The
      root has a link of its own. */
  ghost predicate CountOk(fs: map<int, Inode>, owed: map<int, nat>, i: int) {
    && (i in fs ==> fs[i].nlink >= |Names(fs, i)| + |Kids(fs, i)| + OwedTo(owed, i) + if i == ROOTINO then 1 else 0)
    && (i !in fs ==> Names(fs, i) == {} && OwedTo(owed, i) == 0)
  }

  ghost predicate DirOk(x: Inode) {
    && Unique(x.entries)
    && (x.kind != Dir ==> x.entries == [])
    && (x.kind == Dir ==> Binds(x.entries, 0, ".") && Binds(x.entries, 1, ".."))
  }

  ghost predicate Ok(fs: map<int, Inode>, owed: map<int, nat>) {
    && (forall d :: d in fs ==> DirOk(fs[d]))
    && (forall i :: CountOk(fs, owed, i))
    && 0 !in fs
  }

  lemma CountAt(fs: map<int, Inode>, owed: map<int, nat>, i: int)
    requires Ok(fs, owed)
    ensures CountOk(fs, owed, i) && (i in fs ==> DirOk(fs[i]))
  {
  }

  /** An entry that is neither "." nor ".." names an allocated inode with nlink > 0. */
  lemma NamedIsAllocated(fs: map<int, Inode>, owed: map<int, nat>, i: int, d: int, k: int)
    requires Ok(fs, owed) && NamesAt(fs, i, d, k)
    ensures i in fs && fs[i].nlink >= 1
  {
    hide NamesAt, Kids, Ok;
    assert d in fs && 0 <= k < |fs[d].entries| by { InRange(fs, i, d, k); }
    assert (d, k) in Names(fs, i);
    assert |Names(fs, i)| >= 1 by { NotEmptySet(Names(fs, i), (d, k)); }
    CountAt(fs, owed, i);
  }

  lemma InRange(fs: map<int, Inode>, i: int, d: int, k: int)
    requires NamesAt(fs, i, d, k)
    ensures d in fs && 0 <= k < |fs[d].entries|
  {
  }

  lemma NotEmptySet<T>(s: set<T>, x: T)
    requires x in s
    ensures |s| >= 1
  {
    assert s == {x} + (s - {x});
  }

  // ---------------------------------------------------------------- one entry more, one less

  function WithEntries(fs: map<int, Inode>, d: int, es: seq<Dirent>): (r: map<int, Inode>)
    requires d in fs
  {
    fs[d := fs[d].(entries := es)]
  }

  /** Directory d gains an entry e in slot k. */
  lemma AddNames(fs: map<int, Inode>, d: int, k: int, e: Dirent, i: int)
    requires d in fs && 0 <= k <= |fs[d].entries| && (k < |fs[d].entries| ==> fs[d].entries[k].inum == 0)
    requires e.inum != 0 && !IsDots(NameOf(e.name))
    ensures var fs' := WithEntries(fs, d, PutAt(fs[d].entries, k, e));
            && (d, k) !in Names(fs, i)
            && Names(fs', i) == if i == e.inum then Names(fs, i) + {(d, k)} else Names(fs, i)
  {
    hide NameOf, IsDots;
    var es := PutAt(fs[d].entries, k, e);
    var fs' := WithEntries(fs, d, es);
    assert forall m :: 0 <= m < |es| && m != k ==> es[m] == fs[d].entries[m];
    assert es[k] == e;
    forall c, m
      ensures NamesAt(fs', i, c, m) <==> NamesAt(fs, i, c, m) || (c == d && m == k && i == e.inum)
    {
    }
    var a, b := Names(fs', i), Names(fs, i);
    forall c, m
      ensures (c, m) in a <==> (c, m) in b || (c == d && m == k && i == e.inum)
    {
      assert (c, m) in a <==> NamesAt(fs', i, c, m);
      assert (c, m) in b <==> NamesAt(fs, i, c, m);
    }
  }

  lemma AddKids(fs: map<int, Inode>, d: int, k: int, e: Dirent, c: int)
    requires d in fs && 0 <= k <= |fs[d].entries| && (k < |fs[d].entries| ==> fs[d].entries[k].inum == 0)
    requires e.inum in fs && e.inum != 0 && !IsDots(NameOf(e.name))
    ensures var fs' := WithEntries(fs, d, PutAt(fs[d].entries, k, e));
            && (d, k) !in Kids(fs, c)
            && Kids(fs', c) == if c == d && fs[e.inum].kind == Dir then Kids(fs, c) + {(d, k)} else Kids(fs, c)
  {
    hide NameOf, IsDots;
    var es := PutAt(fs[d].entries, k, e);
    var fs' := WithEntries(fs, d, es);
    assert forall m :: 0 <= m < |es| && m != k ==> es[m] == fs[d].entries[m];
    assert es[k] == e;
    forall m
      ensures IsKid(fs', c, m) <==> IsKid(fs, c, m) || (c == d && m == k && fs[e.inum].kind == Dir)
    {
    }
  }

  /** Directory d loses the entry in slot k. */
  lemma DropNames(fs: map<int, Inode>, d: int, k: int, e: Dirent, i: int)
    requires d in fs && Live(fs[d].entries, k) && e.inum == 0 && !IsDots(NameOf(fs[d].entries[k].name))
    ensures var fs' := WithEntries(fs, d, fs[d].entries[k := e]);
            Names(fs', i) == Names(fs, i) - {(d, k)} && ((d, k) in Names(fs, i) <==> i == fs[d].entries[k].inum)
  {
    hide NameOf, IsDots;
    var fs' := WithEntries(fs, d, fs[d].entries[k := e]);
    var a, b := Names(fs', i), Names(fs, i);
    forall c, m
      ensures (c, m) in a <==> (c, m) in b && (c != d || m != k)
    {
      assert (c, m) in a <==> NamesAt(fs', i, c, m);
      assert (c, m) in b <==> NamesAt(fs, i, c, m);
    }
  }

  lemma DropKids(fs: map<int, Inode>, d: int, k: int, e: Dirent, c: int)
    requires d in fs && Live(fs[d].entries, k) && e.inum == 0 && !IsDots(NameOf(fs[d].entries[k].name))
             && fs[d].entries[k].inum in fs
    ensures var fs' := WithEntries(fs, d, fs[d].entries[k := e]);
            && Kids(fs', c) == Kids(fs, c) - {(d, k)}
            && ((d, k) in Kids(fs, c) <==> c == d && fs[fs[d].entries[k].inum].kind == Dir)
  {
    hide NameOf, IsDots;
    var fs' := WithEntries(fs, d, fs[d].entries[k := e]);
    forall m
      ensures IsKid(fs', c, m) <==> IsKid(fs, c, m) && (c != d || m != k)
    {
    }
  }

  /** A change of link counts only. */
  lemma SameNames(fs: map<int, Inode>, i: int, n: int, c: int)
    requires i in fs
    ensures var fs' := fs[i := fs[i].(nlink := n)]; Names(fs', c) == Names(fs, c) && Kids(fs', c) == Kids(fs, c)
  {
    hide NameOf, IsDots;
    var fs' := fs[i := fs[i].(nlink := n)];
    forall d, m
      ensures NamesAt(fs', c, d, m) <==> NamesAt(fs, c, d, m)
      ensures IsKid(fs', d, m) <==> IsKid(fs, d, m)
    {
    }
    var a, b := Names(fs', c), Names(fs, c);
    forall d, m
      ensures (d, m) in a <==> (d, m) in b
    {
      assert (d, m) in a <==> NamesAt(fs', c, d, m);
      assert (d, m) in b <==> NamesAt(fs, c, d, m);
    }
  }

  /** A new inode has no names yet, and its own "." and ".." are not counted. */
  lemma NewInode(fs: map<int, Inode>, n: int, x: Inode, i: int)
    requires n !in fs && Names(fs, n) == {} && (forall k :: Live(x.entries, k) ==> IsDots(NameOf(x.entries[k].name)))
    ensures Names(fs[n := x], i) == Names(fs, i)
    ensures Kids(fs[n := x], i) == Kids(fs, i) && Kids(fs[n := x], n) == {}
  {
    hide NameOf, IsDots;
    var fs' := fs[n := x];
    forall d, m
      ensures NamesAt(fs', i, d, m) <==> NamesAt(fs, i, d, m)
      ensures IsKid(fs', d, m) <==> IsKid(fs, d, m)
    {
      if d in fs && Live(fs[d].entries, m) && fs[d].entries[m].inum == n {
        assert (d, m) !in Names(fs, n);
        assert !NamesAt(fs, n, d, m);
      }
    }
    var a, b := Names(fs', i), Names(fs, i);
    forall d, m
      ensures (d, m) in a <==> (d, m) in b
    {
      assert (d, m) in a <==> NamesAt(fs', i, d, m);
      assert (d, m) in b <==> NamesAt(fs, i, d, m);
    }
  }

  lemma FreedNames(fs: map<int, Inode>, n: int, i: int)
    ensures Names(fs - {n}, i) <= Names(fs, i) && Kids(fs - {n}, i) <= Kids(fs, i)
  {
    hide NameOf, IsDots;
    var fs' := fs - {n};
    forall d, m | (d, m) in Names(fs', i)
      ensures (d, m) in Names(fs, i)
    {
      assert NamesAt(fs', i, d, m);
      assert NamesAt(fs, i, d, m);
    }
    forall d, m | (d, m) in Kids(fs', i)
      ensures (d, m) in Kids(fs, i)
    {
      assert IsKid(fs', i, m) && d == i;
      assert IsKid(fs, i, m);
    }
  }

  /** Freeing an inode without links: no name of it is left. */
  lemma FreeOk(fs: map<int, Inode>, owed: map<int, nat>, n: int)
    requires Ok(fs, owed) && n in fs && fs[n].nlink == 0
    ensures Names(fs, n) == {} && Ok(fs - {n}, owed) && n != ROOTINO
  {
    hide DirOk, Names, Kids;
    CountAt(fs, owed, n);
    forall i
      ensures CountOk(fs - {n}, owed, i)
    {
      CountAt(fs, owed, i);
      FreedNames(fs, n, i);
      SubsetSize(Names(fs - {n}, i), Names(fs, i));
      SubsetSize(Kids(fs - {n}, i), Kids(fs, i));
    }
  }

  lemma CountFrom(fs: map<int, Inode>, owed: map<int, nat>)
    requires (forall d :: d in fs ==> DirOk(fs[d])) && (forall i :: CountOk(fs, owed, i)) && 0 !in fs
    ensures Ok(fs, owed)
  {
  }

  /** More links and more owed, by the same amount. */
  lemma OweOk(fs: map<int, Inode>, owed: map<int, nat>, i: int, n: int)
    requires Ok(fs, owed) && i in fs && OwedTo(owed, i) + n >= 0
    ensures Ok(fs[i := fs[i].(nlink := fs[i].nlink + n)], owed[i := OwedTo(owed, i) + n])
  {
    hide DirOk, Names, Kids, Ok;
    var fs', owed' := fs[i := fs[i].(nlink := fs[i].nlink + n)], owed[i := OwedTo(owed, i) + n];
    forall c
      ensures CountOk(fs', owed', c)
    {
      CountAt(fs, owed, c);
      SameNames(fs, i, fs[i].nlink + n, c);
    }
    forall d | d in fs'
      ensures DirOk(fs'[d])
    {
      CountAt(fs, owed, d);
      SameDir(fs[d], fs'[d]);
    }
    NoZero(fs, owed);
    CountFrom(fs', owed');
  }

  lemma SameDir(x: Inode, y: Inode)
    requires DirOk(x) && x.kind == y.kind && x.entries == y.entries
    ensures DirOk(y)
  {
  }

  lemma NoZero(fs: map<int, Inode>, owed: map<int, nat>)
    requires Ok(fs, owed)
    ensures 0 !in fs
  {
  }

  /** A link that was owed becomes an entry. */
  lemma EnterOk(fs: map<int, Inode>, owed: map<int, nat>, d: int, k: int, e: Dirent, up: int)
    requires Ok(fs, owed) && d in fs && fs[d].kind == Dir && 0 <= k <= |fs[d].entries| && (k < |fs[d].entries| ==>
                 fs[d].entries[k].inum == 0)
    requires e.inum in fs && !IsDots(NameOf(e.name)) && !Bound(fs[d].entries, NameOf(e.name))
             && OwedTo(owed, e.inum) >= 1
    requires up == if fs[e.inum].kind == Dir then 1 else 0
    ensures var fs1 := WithEntries(fs, d, PutAt(fs[d].entries, k, e));
            Ok(fs1[d := fs1[d].(nlink := fs1[d].nlink + up)], owed[e.inum := OwedTo(owed, e.inum) - 1])
  {
    hide NameOf, IsDots, Names, Kids, Ok, DirOk, PutAt;
    var fs1 := WithEntries(fs, d, PutAt(fs[d].entries, k, e));
    var fs' := fs1[d := fs1[d].(nlink := fs1[d].nlink + up)];
    var owed' := owed[e.inum := OwedTo(owed, e.inum) - 1];
    NoZero(fs, owed);
    forall c
      ensures CountOk(fs', owed', c)
    {
      CountAt(fs, owed, c);
      AddNames(fs, d, k, e, c);
      AddKids(fs, d, k, e, c);
      SameNames(fs1, d, fs1[d].nlink + up, c);
    }
    forall c | c in fs'
      ensures DirOk(fs'[c])
    {
      CountAt(fs, owed, c);
      if c == d {
        EnterDir(fs[d], fs'[d], k, e);
      } else {
        SameDir(fs[c], fs'[c]);
      }
    }
    CountFrom(fs', owed');
  }

  lemma EnterDir(x: Inode, y: Inode, k: int, e: Dirent)
    requires DirOk(x) && x.kind == Dir && 0 <= k <= |x.entries| && (k < |x.entries| ==> x.entries[k].inum == 0)
    requires e.inum != 0 && !Bound(x.entries, NameOf(e.name)) && y.kind == Dir && y.entries == PutAt(x.entries, k, e)
    ensures DirOk(y)
  {
    hide NameOf;
    PutBinds(x.entries, k, e, "");
    assert k >= 2;
    hide Bound;
  }

  /** An entry goes away; its link is owed until nlink is decremented. */
  lemma LeaveOk(fs: map<int, Inode>, owed: map<int, nat>, d: int, k: int, e: Dirent, down: int)
    requires Ok(fs, owed) && d in fs && fs[d].kind == Dir && Live(fs[d].entries, k) && e.inum == 0
             && !IsDots(NameOf(fs[d].entries[k].name))
    requires fs[d].entries[k].inum in fs && down == if fs[fs[d].entries[k].inum].kind == Dir then 1 else 0
    ensures var i := fs[d].entries[k].inum; var fs1 := WithEntries(fs, d, fs[d].entries[k := e]);
            Ok(fs1[d := fs1[d].(nlink := fs1[d].nlink - down)], owed[i := OwedTo(owed, i) + 1])
  {
    hide NameOf, IsDots, Names, Kids, Ok, DirOk, CountOk;
    var i := fs[d].entries[k].inum;
    var fs1 := WithEntries(fs, d, fs[d].entries[k := e]);
    var fs' := fs1[d := fs1[d].(nlink := fs1[d].nlink - down)];
    var owed' := owed[i := OwedTo(owed, i) + 1];
    NoZero(fs, owed);
    forall c
      ensures CountOk(fs', owed', c)
    {
      LeaveCount(fs, owed, d, k, e, down, c);
    }
    forall c | c in fs'
      ensures DirOk(fs'[c])
    {
      CountAt(fs, owed, c);
      if c == d {
        LeaveDir(fs[d], fs'[d], k, e);
      } else {
        SameDir(fs[c], fs'[c]);
      }
    }
    CountFrom(fs', owed');
  }

  lemma LeaveCount(fs: map<int, Inode>, owed: map<int, nat>, d: int, k: int, e: Dirent, down: int, c: int)
    requires Ok(fs, owed) && d in fs && Live(fs[d].entries, k) && e.inum == 0 && !IsDots(NameOf(fs[d].entries[k].name))
    requires fs[d].entries[k].inum in fs && down == if fs[fs[d].entries[k].inum].kind == Dir then 1 else 0
    ensures var i := fs[d].entries[k].inum; var fs1 := WithEntries(fs, d, fs[d].entries[k := e]);
            CountOk(fs1[d := fs1[d].(nlink := fs1[d].nlink - down)], owed[i := OwedTo(owed, i) + 1], c)
  {
    hide NameOf, IsDots, Names, Kids, Ok, DirOk;
    CountAt(fs, owed, c);
    LeaveNames(fs, d, k, e, down, c);
    LeaveKids(fs, d, k, e, down, c);
  }

  lemma LeaveNames(fs: map<int, Inode>, d: int, k: int, e: Dirent, down: int, c: int)
    requires d in fs && Live(fs[d].entries, k) && e.inum == 0 && !IsDots(NameOf(fs[d].entries[k].name))
    ensures var i := fs[d].entries[k].inum; var fs1 := WithEntries(fs, d, fs[d].entries[k := e]);
            var fs' := fs1[d := fs1[d].(nlink := fs1[d].nlink - down)];
            && |Names(fs', c)| == |Names(fs, c)| - (if c == i then 1 else 0)
            && (Names(fs, c) == {} ==> Names(fs', c) == {})
  {
    hide NameOf, IsDots, Names, Kids;
    var fs1 := WithEntries(fs, d, fs[d].entries[k := e]);
    DropNames(fs, d, k, e, c);
    SameNames(fs1, d, fs1[d].nlink - down, c);
    DropOne(Names(fs, c), (d, k));
  }

  lemma LeaveKids(fs: map<int, Inode>, d: int, k: int, e: Dirent, down: int, c: int)
    requires d in fs && Live(fs[d].entries, k) && e.inum == 0 && !IsDots(NameOf(fs[d].entries[k].name))
    requires fs[d].entries[k].inum in fs && down == if fs[fs[d].entries[k].inum].kind == Dir then 1 else 0
    ensures var fs1 := WithEntries(fs, d, fs[d].entries[k := e]);
            var fs' := fs1[d := fs1[d].(nlink := fs1[d].nlink - down)];
            |Kids(fs', c)| == |Kids(fs, c)| - (if c == d then down else 0)
  {
    hide NameOf, IsDots, Names, Kids;
    var fs1 := WithEntries(fs, d, fs[d].entries[k := e]);
    DropKids(fs, d, k, e, c);
    SameNames(fs1, d, fs1[d].nlink - down, c);
    DropOne(Kids(fs, c), (d, k));
  }

  lemma DropOne<T>(s: set<T>, x: T)
    ensures |s - {x}| == |s| - (if x in s then 1 else 0)
  {
  }

  lemma LeaveDir(x: Inode, y: Inode, k: int, e: Dirent)
    requires DirOk(x) && x.kind == Dir && Live(x.entries, k) && e.inum == 0 && !IsDots(NameOf(x.entries[k].name))
    requires y.kind == Dir && y.entries == x.entries[k := e]
    ensures DirOk(y)
  {
    hide NameOf;
    ClearBinds(x.entries, k, e, "");
    hide Bound;
  }

  /** A directory has an entry after the first two iff it has a name besides "." and "..". */
  lemma EmptyIff(x: Inode)
    requires DirOk(x) && x.kind == Dir
    ensures (exists k :: 2 <= k < |x.entries| && x.entries[k].inum != 0) <==>
              exists n :: Bound(x.entries, n) && !IsDots(n)
  {
    hide NameOf;
    if k :| 2 <= k < |x.entries| && x.entries[k].inum != 0 {
      assert Live(x.entries, k) && Binds(x.entries, k, NameOf(x.entries[k].name));
      assert Bound(x.entries, NameOf(x.entries[k].name)) && !IsDots(NameOf(x.entries[k].name));
    }
    if n :| Bound(x.entries, n) && !IsDots(n) {
      var k :| Binds(x.entries, k, n);
      assert k != 0 && k != 1;
    }
  }

  /** A new inode with one link, owed to it. */
  lemma AllocOk(fs: map<int, Inode>, owed: map<int, nat>, n: int, x: Inode)
    requires Ok(fs, owed) && n !in fs && n != 0 && n != ROOTINO && DirOk(x) && x.nlink == 1
    requires forall k :: Live(x.entries, k) ==> IsDots(NameOf(x.entries[k].name))
    ensures Ok(fs[n := x], owed[n := 1])
  {
    hide NameOf, IsDots, Names, Kids, Ok, DirOk;
    CountAt(fs, owed, n);
    NoZero(fs, owed);
    NewInode(fs, n, x, n);
    var fs', owed' := fs[n := x], owed[n := 1];
    forall c
      ensures CountOk(fs', owed', c)
    {
      CountAt(fs, owed, c);
      NewInode(fs, n, x, c);
    }
    forall c | c in fs'
      ensures DirOk(fs'[c])
    {
      CountAt(fs, owed, c);
    }
    CountFrom(fs', owed');
  }

  // ---------------------------------------------------------------- what "." and ".." hold

  /** The inode in slot 1 of a directory, which holds "..". */
  function Up(fs: map<int, Inode>, d: int): (i: int) {
    if d in fs && |fs[d].entries| >= 2 then fs[d].entries[1].inum else 0
  }

  /** Slot 0 of every directory holds itself, ".." of a directory that is named in d holds d, and the root holds
      itself. */
  ghost predicate DotsOk(fs: map<int, Inode>) {
    && ROOTINO in fs && fs[ROOTINO].kind == Dir && Up(fs, ROOTINO) == ROOTINO
    && (forall d :: d in fs && fs[d].kind == Dir ==> |fs[d].entries| >= 2 && fs[d].entries[0].inum == d)
    && (forall d, k :: IsKid(fs, d, k) ==> Up(fs, fs[d].entries[k].inum) == d)
  }

  lemma DotsAfterLinks(fs: map<int, Inode>, i: int, n: int)
    requires DotsOk(fs) && i in fs
    ensures DotsOk(fs[i := fs[i].(nlink := n)])
  {
    hide NameOf, IsDots;
    var fs' := fs[i := fs[i].(nlink := n)];
    forall d, k | IsKid(fs', d, k)
      ensures Up(fs', fs'[d].entries[k].inum) == d
    {
      assert IsKid(fs, d, k);
    }
  }

  lemma DotsAfterFree(fs: map<int, Inode>, n: int)
    requires DotsOk(fs) && n != ROOTINO
    ensures DotsOk(fs - {n})
  {
    hide NameOf, IsDots;
    var fs' := fs - {n};
    forall d, k | IsKid(fs', d, k)
      ensures Up(fs', fs'[d].entries[k].inum) == d
    {
      assert IsKid(fs, d, k);
    }
  }

  lemma DotsAfterAlloc(fs: map<int, Inode>, n: int, x: Inode)
    requires DotsOk(fs) && n !in fs && Names(fs, n) == {}
    requires forall k :: Live(x.entries, k) ==> IsDots(NameOf(x.entries[k].name))
    requires x.kind == Dir ==> |x.entries| >= 2 && x.entries[0].inum == n
    ensures DotsOk(fs[n := x])
  {
    hide NameOf, IsDots, Names;
    var fs' := fs[n := x];
    forall d, k | IsKid(fs', d, k)
      ensures Up(fs', fs'[d].entries[k].inum) == d
    {
      assert d != n;
      NotNamed(fs, n, d, k);
      assert IsKid(fs, d, k);
    }
  }

  lemma NotNamed(fs: map<int, Inode>, n: int, d: int, k: int)
    requires Names(fs, n) == {}
    ensures !NamesAt(fs, n, d, k)
  {
    hide NameOf, IsDots;
    assert (d, k) !in Names(fs, n);
  }

  lemma DotsAfterEnter(fs: map<int, Inode>, d: int, k: int, e: Dirent, nlink: int)
    requires DotsOk(fs) && d in fs && fs[d].kind == Dir && 2 <= k <= |fs[d].entries|
    requires e.inum in fs && (fs[e.inum].kind == Dir ==> Up(fs, e.inum) == d)
    ensures DotsOk(fs[d := fs[d].(nlink := nlink, entries := PutAt(fs[d].entries, k, e))])
  {
    hide NameOf, IsDots;
    var es := PutAt(fs[d].entries, k, e);
    var fs' := fs[d := fs[d].(nlink := nlink, entries := es)];
    assert es[0] == fs[d].entries[0] && es[1] == fs[d].entries[1] && es[k] == e;
    assert forall m :: 0 <= m < |es| && m != k ==> es[m] == fs[d].entries[m];
    forall c, m | IsKid(fs', c, m)
      ensures Up(fs', fs'[c].entries[m].inum) == c
    {
      if c != d || m != k {
        assert IsKid(fs, c, m);
      }
    }
  }

  lemma DotsAfterLeave(fs: map<int, Inode>, d: int, k: int, e: Dirent, nlink: int)
    requires DotsOk(fs) && d in fs && fs[d].kind == Dir && 2 <= k < |fs[d].entries| && e.inum == 0
    ensures DotsOk(fs[d := fs[d].(nlink := nlink, entries := fs[d].entries[k := e])])
  {
    hide NameOf, IsDots;
    var fs' := fs[d := fs[d].(nlink := nlink, entries := fs[d].entries[k := e])];
    forall c, m | IsKid(fs', c, m)
      ensures Up(fs', fs'[c].entries[m].inum) == c
    {
      assert IsKid(fs, c, m);
    }
  }

  /** A slot for a name that is not bound, or of a name that is neither "." nor "..", is not one of the first two. */
  lemma AfterDots(x: Inode, k: int)
    requires DirOk(x) && x.kind == Dir && 0 <= k <= |x.entries|
    requires k < |x.entries| ==> x.entries[k].inum == 0 || !IsDots(NameOf(x.entries[k].name))
    ensures k >= 2
  {
    hide NameOf;
  }

  /** Name n of directory d, which is neither "." nor "..", is that of a directory. */
  ghost predicate IsSubdir(fs: map<int, Inode>, d: int, n: string) {
    && d in fs && fs[d].kind == Dir && Bound(fs[d].entries, n) && !IsDots(n)
    && var c := Find(fs[d].entries, n);
       c in fs && fs[c].kind == Dir
  }

  lemma SubdirUp(fs: map<int, Inode>, owed: map<int, nat>, d: int, n: string)
    requires Ok(fs, owed) && DotsOk(fs) && IsSubdir(fs, d, n)
    ensures Find(fs[Find(fs[d].entries, n)].entries, "..") == d
  {
    hide NameOf, Find, Ok;
    var c := Find(fs[d].entries, n);
    CountAt(fs, owed, d);
    CountAt(fs, owed, c);
    var k :| Binds(fs[d].entries, k, n);
    FindIs(fs[d].entries, k);
    assert IsKid(fs, d, k);
    FindIs(fs[c].entries, 1);
  }

  /** The same by names: "." is the directory, ".." of a directory that is named in d is d, and ".." of the root is
      the root. */
  lemma DotsByNames(fs: map<int, Inode>, owed: map<int, nat>)
    requires Ok(fs, owed) && DotsOk(fs)
    ensures ROOTINO in fs && Find(fs[ROOTINO].entries, "..") == ROOTINO
    ensures forall d :: d in fs && fs[d].kind == Dir ==> Find(fs[d].entries, ".") == d
    ensures forall d, n :: IsSubdir(fs, d, n) ==> Find(fs[Find(fs[d].entries, n)].entries, "..") == d
  {
    hide NameOf, Find, Ok;
    CountAt(fs, owed, ROOTINO);
    FindIs(fs[ROOTINO].entries, 1);
    forall d | d in fs && fs[d].kind == Dir
      ensures Find(fs[d].entries, ".") == d
    {
      CountAt(fs, owed, d);
      FindIs(fs[d].entries, 0);
    }
    forall d, n | IsSubdir(fs, d, n)
      ensures Find(fs[Find(fs[d].entries, n)].entries, "..") == d
    {
      SubdirUp(fs, owed, d, n);
    }
  }
}
