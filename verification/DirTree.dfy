/** The calls that change names: link, unlink, create and mkdir, and iput (kernel/sysfile.c:118-284,
    kernel/fs.c:239-284, 333-358). A method is one stretch under the locks of the inodes it changes; what
    a call still has to do to nlink is `owed`. */
module DirTree {
  import opened DirNames
  import opened DirLinks

  const MAXLINK := 0x7fff

  /** nlink is a short: one more than MAXLINK wraps around. */
  function Short(n: int): (r: int) {
    if n == MAXLINK + 1 then -MAXLINK - 1 else n
  }

  function Padded(s: string): (f: Field)
    requires |s| <= DIRSIZ
  {
    s + seq(DIRSIZ - |s|, i => '\0')
  }

  lemma DotNames()
    ensures NameOf(Padded(".")) == "." && NameOf(Padded("..")) == ".."
  {
    var d, e := Padded("."), Padded("..");
    assert NameFrom(d, 1) == "" && NameFrom(e, 2) == "";
    assert NameFrom(e, 1) == ".";
  }

  class Tree {
    var fs: map<int, Inode>
    var ref: map<int, int>               // ip->ref
    var owed: map<int, nat>              // link counts ahead of the names, by calls in progress

    ghost predicate Valid()
      reads this
    {
      && Ok(fs, owed) && DotsOk(fs)
      && (forall i :: i in ref && ref[i] > 0 ==> i in fs)
      && (forall i :: i in fs ==> fs[i].nlink <= MAXLINK && |fs[i].entries| <= MAXENTRIES)
    }

    /** Any tree of names with the right link counts and no call in progress. */
    constructor (fs: map<int, Inode>)
      requires Ok(fs, map[]) && DotsOk(fs)
      requires forall i :: i in fs ==> fs[i].nlink <= MAXLINK && |fs[i].entries| <= MAXENTRIES
      ensures Valid() && this.fs == fs && owed == map[] && ref == map[]
    {
      this.fs, ref, owed := fs, map[], map[];
    }

    /** iget: one reference more. An ordinary entry that was just looked up names an allocated inode. */
    method Iget(i: int)
      requires Valid() && i in fs
      modifies this`ref
      ensures Valid() && ref == old(ref)[i := (if i in old(ref) then old(ref)[i] else 0) + 1]
    {
      ref := ref[i := (if i in ref then ref[i] else 0) + 1];
    }

    /** iput. The inode is freed only when no entry but "." and ".." names it. */
    method Iput(i: int, valid: bool) returns (freed: bool)
      requires Valid() && i in ref && ref[i] > 0
      modifies this
      ensures Valid() && owed == old(owed) && ref == old(ref)[i := old(ref)[i] - 1]
      ensures freed <==> old(ref)[i] == 1 && valid && old(fs)[i].nlink == 0
      ensures fs == if freed then old(fs) - {i} else old(fs)
      ensures freed ==> Names(old(fs), i) == {}
    {
      hide Ok, Names, DotsOk;
      freed := false;
      if ref[i] == 1 && valid && fs[i].nlink == 0 {
        FreeOk(fs, owed, i);
        DotsAfterFree(fs, i);
        fs := fs - {i};
        freed := true;
      }
      ref := ref[i := ref[i] - 1];
    }

    /** The first part of sys_link: nlink is raised before the new name exists. The counts stay right iff it
        does not wrap around. */
    method LinkBegin(i: int) returns (ok: bool)
      requires Valid() && i in ref && ref[i] > 0
      modifies this`fs, this`owed
      ensures ok <==> old(fs)[i].kind != Dir
      ensures Valid() <==> !(ok && old(fs)[i].nlink == MAXLINK)
      ensures fs == if ok then old(fs)[i := old(fs)[i].(nlink := Short(old(fs)[i].nlink + 1))] else old(fs)
      ensures owed == if ok then old(owed)[i := OwedTo(old(owed), i) + 1] else old(owed)
    {
      hide Ok, DotsOk;
      if fs[i].kind == Dir {
        return false;
      }
      OweOk(fs, owed, i, 1);
      DotsAfterLinks(fs, i, Short(fs[i].nlink + 1));
      fs := fs[i := fs[i].(nlink := Short(fs[i].nlink + 1))];
      owed := owed[i := OwedTo(owed, i) + 1];
      ok := true;
      NegativeLinks(fs, owed, i);
    }

    /** The second part of sys_link: the name is entered, or nlink goes down again. It panics in dirlink iff
        the name is not bound and the directory is full. */
    method LinkEnd(i: int, d: int, name: Field) returns (ok: bool, panic: bool)
      requires Valid() && i in ref && ref[i] > 0 && d in ref && ref[d] > 0 && fs[d].kind == Dir && fs[i].kind != Dir
               && OwedTo(owed, i) >= 1
      modifies this`fs, this`owed
      ensures panic <==> !Bound(old(fs)[d].entries, NameOf(name)) && FullDir(old(fs)[d].entries)
      ensures panic ==> fs == old(fs) && owed == old(owed)
      ensures !panic ==> Valid() && owed == old(owed)[i := OwedTo(old(owed), i) - 1]
      ensures ok <==> !Bound(old(fs)[d].entries, NameOf(name)) && !panic
      ensures !ok && !panic ==> fs == old(fs)[i := old(fs)[i].(nlink := old(fs)[i].nlink - 1)]
      ensures ok ==> Entered(old(fs), fs, d, NameOf(name), i) && fs[d].nlink == old(fs)[d].nlink
    {
      hide Ok, NameOf, Copied, DirOk, HasEmpty, DotsOk;
      var es: seq<Dirent>;
      var k: int;
      CountAt(fs, owed, d);
      NotDots(fs[d], NameOf(name));
      ok, panic, es, k := Dirlink(fs[d].entries, name, AllocatedNumber(fs, owed, i));
      if panic {
        return;
      }
      if ok {
        CopiedName(name);
        EnterOk(fs, owed, d, k, Dirent(i, Copied(name)), 0);
        AfterDots(fs[d], k);
        DotsAfterEnter(fs, d, k, Dirent(i, Copied(name)), fs[d].nlink);
        RaisedBy(fs, d, es, 0);
        fs := fs[d := fs[d].(entries := es)];
      } else {
        OweOk(fs, owed, i, -1);
        DotsAfterLinks(fs, i, fs[i].nlink - 1);
        fs := fs[i := fs[i].(nlink := fs[i].nlink - 1)];
      }
      owed := owed[i := OwedTo(owed, i) - 1];
    }

    /** The "." and ".." of a new directory; false is the panic "create dots". */
    method Dots(i: int, d: int) returns (ok: bool, es: seq<Dirent>)
      requires i != 0 && d != 0
      ensures ok && DirOk(Inode(Dir, 1, es)) && (forall k :: Live(es, k) ==> IsDots(NameOf(es[k].name))) && |es| == 2
      ensures es[0].inum == i && es[1].inum == d
      ensures forall m :: Find(es, m) == NewName(Dir, i, d, m)
    {
      DotNames();
      hide NameOf, Padded, DirOk;
      var k: int;
      var ok1, panic;
      var none: seq<Dirent> := [];
      assert forall m :: Find(none, m) == 0 && !Bound(none, m);
      hide Bound, Live, Find;
      ok, panic, es, k := Dirlink(none, Padded("."), i);
      ghost var one := es;
      assert one == [Dirent(i, Copied(Padded(".")))];
      assert Find(one, "..") == Find(none, "..") == 0;
      ok1, panic, es, k := Dirlink(es, Padded(".."), d);
      ok := ok && ok1;
      OnlyDots(none, one, es, i, d);
    }

    /** create under the lock of the parent directory d: Existing if the name is bound, else a new inode
        with the free number n that ialloc found. It panics in dirlink iff the name is not bound and d is
        full; the panics "create dots" and "create: dirlink" are not reached. */
    method Create(d: int, name: Field, kind: Kind, n: int) returns (r: Created)
      requires Valid() && d in ref && ref[d] > 0 && fs[d].kind == Dir && n !in fs && n != 0
      modifies this`fs, this`owed
      ensures r == CreatePanic <==> !Bound(old(fs)[d].entries, NameOf(name)) && FullDir(old(fs)[d].entries)
      ensures r != CreatePanic ==> (Valid() <==> !(r.New? && kind == Dir && old(fs)[d].nlink == MAXLINK))
      ensures r.Existing? <==> Bound(old(fs)[d].entries, NameOf(name))
      ensures r.Existing? ==> fs == old(fs) && owed == old(owed) && r.inum == Find(fs[d].entries, NameOf(name))
      ensures r.New? ==> n in fs && fs[n].kind == kind && fs[n].nlink == 1
      ensures r.New? ==> Entered(old(fs)[n := fs[n]], fs, d, NameOf(name), n)
      ensures r.New? ==> fs[d].nlink == if kind == Dir then Short(old(fs)[d].nlink + 1) else old(fs)[d].nlink
      ensures r.New? ==> forall m :: Find(fs[n].entries, m) == NewName(kind, n, d, m)
      ensures r.New? ==> |fs[n].entries| == NewSlots(kind)
      ensures r.New? ==> owed == old(owed)[n := 0]
    {
      hide Ok, NameOf, Copied, DirOk, Find, Live, Bound, HasEmpty, DotsOk;
      CountAt(fs, owed, d);
      NotDots(fs[d], NameOf(name));
      var k := Dirlookup(fs[d].entries, name);
      if k >= 0 {
        FoundAt(fs[d].entries, k, NameOf(name));
        return Existing(fs[d].entries[k].inum);
      }
      var ok := Ialloc(d, kind, n);
      var entered := Enter(d, name, n);
      r := if ok && entered then New else CreatePanic;
    }

    /** A new inode with nlink 1; that link is owed until its name is entered. */
    method Ialloc(d: int, kind: Kind, n: int) returns (ok: bool)
      requires Valid() && d in fs && n !in fs && n != 0
      modifies this`fs, this`owed
      ensures Valid() && ok && n in fs && fs == old(fs)[n := fs[n]] && owed == old(owed)[n := 1]
      ensures fs[n].kind == kind && fs[n].nlink == 1 && |fs[n].entries| == NewSlots(kind)
      ensures kind == Dir ==> Up(fs, n) == d
      ensures forall m :: Find(fs[n].entries, m) == NewName(kind, n, d, m)
    {
      hide Ok, NameOf, DirOk, Find, Live, Bound, DotsOk, CountOk, Names;
      NotRoot(fs, n);
      ok := true;
      var es: seq<Dirent> := [];
      if kind == Dir {
        ok, es := Dots(n, AllocatedNumber(fs, owed, d));
      } else {
        PlainFile(kind, es);
        assert forall m :: Find(es, m) == 0;
      }
      AllocOk(fs, owed, n, Inode(kind, 1, es));
      assert Names(fs, n) == {} by { NoNameYet(fs, owed, n); }
      DotsAfterAlloc(fs, n, Inode(kind, 1, es));
      fs := fs[n := Inode(kind, 1, es)];
      owed := owed[n := 1];
    }

    /** The name of a new inode n is entered into d; a new directory is a link to d. */
    method Enter(d: int, name: Field, n: int) returns (ok: bool)
      requires Valid() && d in fs && fs[d].kind == Dir && n in fs && OwedTo(owed, n) == 1 && d != n
               && !Bound(fs[d].entries, NameOf(name)) && (fs[n].kind == Dir ==> Up(fs, n) == d)
      modifies this`fs, this`owed
      ensures ok <==> !FullDir(old(fs)[d].entries)
      ensures ok ==> (Valid() <==> !(old(fs)[n].kind == Dir && old(fs)[d].nlink == MAXLINK))
      ensures ok ==> Entered(old(fs), fs, d, NameOf(name), n) && owed == old(owed)[n := 0]
      ensures ok ==> fs[d].nlink == if fs[n].kind == Dir then Short(old(fs)[d].nlink + 1) else old(fs)[d].nlink
    {
      hide Ok, NameOf, Copied, DirOk, Find, Live, Bound, HasEmpty, DotsOk;
      CountAt(fs, owed, d);
      NotDots(fs[d], NameOf(name));
      var k: int;
      var ds: seq<Dirent>;
      var panic;
      ok, panic, ds, k := Dirlink(fs[d].entries, name, AllocatedNumber(fs, owed, n));
      if !ok {
        return;
      }
      CopiedName(name);
      var up := if fs[n].kind == Dir then 1 else 0;
      EnterOk(fs, owed, d, k, Dirent(n, Copied(name)), up);
      AfterDots(fs[d], k);
      DotsAfterEnter(fs, d, k, Dirent(n, Copied(name)), Short(fs[d].nlink + up));
      RaisedBy(fs, d, ds, up);
      fs := fs[d := fs[d].(nlink := if fs[n].kind == Dir then Short(fs[d].nlink + 1) else fs[d].nlink, entries := ds)];
      owed := owed[n := 0];
      NegativeLinks(fs, owed, d);
    }

    /** isdirempty: nothing after the first two entries. */
    method Isdirempty(es: seq<Dirent>) returns (b: bool)
      ensures b <==> forall k :: 2 <= k < |es| ==> es[k].inum == 0
    {
      var k := 2;
      while k < |es|
        invariant 2 <= k && forall m :: 2 <= m < k && m < |es| ==> es[m].inum == 0
      {
        if es[k].inum != 0 {
          return false;
        }
        k := k + 1;
      }
      b := true;
    }

    /** sys_unlink up to the point where the entry is gone: nlink of the inode is still to go down. Neither
        the panic "unlink: nlink < 1" nor the one of ilock on an inode without type is reached. */
    method UnlinkEntry(d: int, name: Field) returns (r: Unlinked)
      requires Valid() && d in ref && ref[d] > 0 && fs[d].kind == Dir
      modifies this`fs, this`owed
      ensures Valid() && r != UnlinkPanic
      ensures r == Refused ==> fs == old(fs) && owed == old(owed)
      ensures r == Refused <==>
                IsDots(NameOf(name)) || !Bound(old(fs)[d].entries, NameOf(name))
                || NotEmptyDir(old(fs), Find(old(fs)[d].entries, NameOf(name)))
      ensures r.Gone? ==> r.inum == Find(old(fs)[d].entries, NameOf(name)) && Entered(old(fs), fs, d, NameOf(name), 0)
      ensures r.Gone? ==> r.inum in fs && fs[d].nlink == old(fs)[d].nlink - if old(fs)[r.inum].kind == Dir then 1 else 0
      ensures r.Gone? ==> owed == old(owed)[r.inum := OwedTo(old(owed), r.inum) + 1]
    {
      DotNames();
      hide Ok, NameOf, DirOk, Find, Live, Bound, Padded, DotsOk;
      CountAt(fs, owed, d);
      SameName(name, Padded("."), 0);
      SameName(name, Padded(".."), 0);
      NameFromZero(name);
      if SameFrom(name, Padded("."), 0) || SameFrom(name, Padded(".."), 0) {
        return Refused;
      }
      NotDots(fs[d], NameOf(name));
      var k := Dirlookup(fs[d].entries, name);
      if k < 0 {
        return Refused;
      }
      FoundAt(fs[d].entries, k, NameOf(name));
      var i := fs[d].entries[k].inum;
      NamedIsAllocated(fs, owed, i, d, k);
      if i !in fs || fs[i].nlink < 1 {
        return UnlinkPanic;
      }
      var empty := Isdirempty(fs[i].entries);
      if fs[i].kind == Dir && !empty {
        return Refused;
      }
      var down := if fs[i].kind == Dir then 1 else 0;
      var e := Dirent(0, Padded(""));
      LeaveOk(fs, owed, d, k, e, down);
      AfterDots(fs[d], k);
      DotsAfterLeave(fs, d, k, e, fs[d].nlink - down);
      RaisedBy(fs, d, fs[d].entries[k := e], -down);
      forall n
        ensures Find(fs[d].entries[k := e], n) == if n == NameOf(name) then 0 else Find(fs[d].entries, n)
      {
        ClearBinds(fs[d].entries, k, e, n);
      }
      fs := fs[d := fs[d].(nlink := fs[d].nlink - down, entries := fs[d].entries[k := e])];
      owed := owed[i := OwedTo(owed, i) + 1];
      r := Gone(i);
    }

    /** The rest of sys_unlink: nlink goes down. */
    method UnlinkEnd(i: int)
      requires Valid() && i in fs && OwedTo(owed, i) >= 1
      modifies this`fs, this`owed
      ensures Valid() && fs == old(fs)[i := old(fs)[i].(nlink := old(fs)[i].nlink - 1)]
              && owed == old(owed)[i := OwedTo(old(owed), i) - 1]
    {
      hide Ok, DotsOk;
      OweOk(fs, owed, i, -1);
      DotsAfterLinks(fs, i, fs[i].nlink - 1);
      fs := fs[i := fs[i].(nlink := fs[i].nlink - 1)];
      owed := owed[i := OwedTo(owed, i) - 1];
    }
  }

  datatype Created = New | Existing(inum: int) | CreatePanic

  datatype Unlinked = Gone(inum: int) | Refused | UnlinkPanic

  ghost predicate NotEmptyDir(fs: map<int, Inode>, i: int) {
    i in fs && fs[i].kind == Dir && exists k :: 2 <= k < |fs[i].entries| && fs[i].entries[k].inum != 0
  }

  /** A negative link count is wrong. */
  lemma NegativeLinks(fs: map<int, Inode>, owed: map<int, nat>, i: int)
    ensures i in fs && fs[i].nlink < 0 ==> !Ok(fs, owed)
  {
    hide Names, Kids, DirOk;
    if Ok(fs, owed) {
      CountAt(fs, owed, i);
    }
  }

  /** An inode has at least as many links as names, so one with a name is never freed. */
  lemma NlinkCoversNames(fs: map<int, Inode>, owed: map<int, nat>, i: int)
    requires Ok(fs, owed) && i in fs
    ensures fs[i].nlink >= |Names(fs, i)|
    ensures fs[i].nlink == 0 ==> Names(fs, i) == {}
  {
    hide Names, Kids, DirOk;
    CountAt(fs, owed, i);
  }

  lemma NotRoot(fs: map<int, Inode>, n: int)
    requires DotsOk(fs) && n !in fs
    ensures n != ROOTINO
  {
  }

  lemma NoNameYet(fs: map<int, Inode>, owed: map<int, nat>, n: int)
    requires Ok(fs, owed) && n !in fs
    ensures Names(fs, n) == {}
  {
    hide Names, Kids, DirOk;
    CountAt(fs, owed, n);
  }

  lemma NameFromZero(f: Field)
    ensures NameOf(f) == NameFrom(f, 0) && NameOf(Padded(".")) == NameFrom(Padded("."), 0)
            && NameOf(Padded("..")) == NameFrom(Padded(".."), 0)
  {
  }

  lemma RaisedBy(fs: map<int, Inode>, d: int, es: seq<Dirent>, n: int)
    requires d in fs
    ensures var fs1 := WithEntries(fs, d, es);
            && fs1[d := fs1[d].(nlink := fs1[d].nlink + n)] == fs[d := fs[d].(nlink := fs[d].nlink + n, entries := es)]
            && (n == 0 ==> fs1[d := fs1[d].(nlink := fs1[d].nlink + n)] == fs[d := fs[d].(entries := es)])
  {
  }

  lemma PlainFile(kind: Kind, es: seq<Dirent>)
    requires kind != Dir && es == []
    ensures DirOk(Inode(kind, 1, es)) && (forall m :: !Bound(es, m)) && forall k :: Live(es, k) ==>
              IsDots(NameOf(es[k].name))
  {
  }

  lemma FoundAt(es: seq<Dirent>, k: int, n: string)
    requires Unique(es) && Binds(es, k, n)
    ensures 0 <= k < |es| && Live(es, k) && Find(es, n) == es[k].inum != 0 && NameOf(es[k].name) == n && Bound(es, n)
  {
    FindIs(es, k);
  }

  lemma OnlyDots(none: seq<Dirent>, one: seq<Dirent>, two: seq<Dirent>, i: int, d: int)
    requires none == [] && one == PutAt(none, 0, Dirent(i, Copied(Padded(".")))) && i != 0 && d != 0
    requires two == PutAt(one, 1, Dirent(d, Copied(Padded("..")))) && Unique(two)
    ensures DirOk(Inode(Dir, 1, two)) && forall k :: Live(two, k) ==> IsDots(NameOf(two[k].name))
    ensures |two| == 2 && two[0].inum == i && two[1].inum == d
  {
    DotNames();
    CopiedName(Padded("."));
    CopiedName(Padded(".."));
    hide NameOf, Copied, Padded;
    assert Binds(two, 0, ".") && Binds(two, 1, "..");
  }

  /** The names of a new inode n below directory d. */
  function NewName(kind: Kind, n: int, d: int, name: string): (i: int) {
    if kind != Dir then 0 else if name == "." then n else if name == ".." then d else 0
  }

  function NewSlots(kind: Kind): (n: nat) {
    if kind == Dir then 2 else 0
  }

  /** In directory d the name is now bound to i, or to nothing if i is 0, and no other binding changed. */
  ghost predicate Entered(fs: map<int, Inode>, fs': map<int, Inode>, d: int, name: string, i: int) {
    && d in fs && d in fs' && fs'.Keys == fs.Keys
    && (forall c :: c in fs && c != d ==> fs'[c] == fs[c])
    && fs'[d].kind == fs[d].kind
    && (forall n :: Find(fs'[d].entries, n) == if n == name then i else Find(fs[d].entries, n))
    && |fs'[d].entries| == if i == 0 || HasEmpty(fs[d].entries) then |fs[d].entries| else |fs[d].entries| + 1
  }

  function AllocatedNumber(fs: map<int, Inode>, ghost owed: map<int, nat>, i: int): (n: int)
    requires Ok(fs, owed) && i in fs
    ensures n == i && n != 0
  {
    i
  }

  lemma NotDots(x: Inode, n: string)
    requires DirOk(x) && x.kind == Dir
    ensures Unique(x.entries) && (!Bound(x.entries, n) ==> !IsDots(n))
  {
    hide NameOf;
    assert Bound(x.entries, ".") && Bound(x.entries, "..");
  }

  /** A root directory with "." and ".." alone is such a tree. */
  lemma RootAlone(entries: seq<Dirent>)
    requires Unique(entries) && Binds(entries, 0, ".") && Binds(entries, 1, "..")
    requires forall k :: Live(entries, k) ==> IsDots(NameOf(entries[k].name))
    ensures Ok(map[ROOTINO := Inode(Dir, 1, entries)], map[])
    ensures entries[0].inum == entries[1].inum == ROOTINO ==> DotsOk(map[ROOTINO := Inode(Dir, 1, entries)])
  {
    hide NameOf, IsDots;
    var fs := map[ROOTINO := Inode(Dir, 1, entries)];
    forall i
      ensures CountOk(fs, map[], i)
    {
      NoNames(fs, i);
    }
  }

  lemma NoNames(fs: map<int, Inode>, i: int)
    requires forall d, k :: d in fs && Live(fs[d].entries, k) ==> IsDots(NameOf(fs[d].entries[k].name))
    ensures Names(fs, i) == {} && Kids(fs, i) == {}
  {
    hide NameOf, IsDots;
    forall d, k
      ensures !NamesAt(fs, i, d, k) && !IsKid(fs, d, k)
    {
    }
  }
}
