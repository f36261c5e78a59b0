/** Runs of the calls that change names, as steps on directories that are finite maps from names to inode
    numbers. */
module DirRun {
  import opened DirNames
  import opened DirLinks
  import opened DirTree

  /** An inode: its type, links and names, and how many slots for entries it has. */
  datatype Node = Node(kind: Kind, nlink: int, names: map<string, int>, slots: nat)

  /** Inodes, references and links counted ahead of their names. */
  datatype World = World(nodes: map<int, Node>, ref: map<int, int>, owed: map<int, nat>)

  // ---------------------------------------------------------------- entries as a map

  ghost function NameSet(es: seq<Dirent>): (s: set<string>) {
    set k | 0 <= k < |es| && Live(es, k) :: NameOf(es[k].name)
  }

  ghost function NamesOf(es: seq<Dirent>): (m: map<string, int>) {
    map n | n in NameSet(es) :: Find(es, n)
  }

  lemma NamesAre(es: seq<Dirent>, n: string)
    ensures n in NamesOf(es) <==> Bound(es, n)
    ensures n in NamesOf(es) <==> Find(es, n) != 0
    ensures n in NamesOf(es) ==> NamesOf(es)[n] == Find(es, n)
  {
    hide NameOf;
    if Bound(es, n) {
      var k :| Binds(es, k, n);
      assert NameOf(es[k].name) in NameSet(es);
    }
    if n in NameSet(es) {
      var k :| 0 <= k < |es| && Live(es, k) && NameOf(es[k].name) == n;
      assert Binds(es, k, n);
    }
  }

  /** name is bound to i, or to nothing if i is 0. */
  function Bind(m: map<string, int>, name: string, i: int): (r: map<string, int>) {
    if i == 0 then m - {name} else m[name := i]
  }

  lemma BindNames(es: seq<Dirent>, es': seq<Dirent>, name: string, i: int)
    requires forall n :: Find(es', n) == if n == name then i else Find(es, n)
    ensures NamesOf(es') == Bind(NamesOf(es), name, i)
  {
    hide NamesOf, Find;
    var a, b := NamesOf(es'), Bind(NamesOf(es), name, i);
    forall n
      ensures n in a <==> n in b
      ensures n in a ==> a[n] == b[n]
    {
      NamesAre(es, n);
      NamesAre(es', n);
    }
    assert a == b;
  }

  ghost function NewNames(kind: Kind, n: int, d: int): (m: map<string, int>) {
    if kind == Dir then map["." := n, ".." := d] else map[]
  }

  lemma NewNamesAre(es: seq<Dirent>, kind: Kind, n: int, d: int)
    requires n != 0 && d != 0 && forall m :: Find(es, m) == NewName(kind, n, d, m)
    ensures NamesOf(es) == NewNames(kind, n, d)
  {
    hide NamesOf, Find;
    var a, b := NamesOf(es), NewNames(kind, n, d);
    forall m
      ensures m in a <==> m in b
      ensures m in a ==> a[m] == b[m]
    {
      NamesAre(es, m);
    }
    assert a == b;
  }

  // ---------------------------------------------------------------- slots

  lemma {:induction false} AtMostSlots(es: seq<Dirent>)
    ensures |NameSet(es)| <= |es|
  {
    hide NameOf;
    if |es| > 0 {
      var k := |es| - 1;
      AtMostSlots(es[..k]);
      LastSlot(es);
      assert |NameSet(es[..k]) + {NameOf(es[k].name)}| <= |NameSet(es[..k])| + 1;
    }
  }

  lemma LastSlot(es: seq<Dirent>)
    requires |es| > 0
    ensures var k := |es| - 1;
            NameSet(es) == if Live(es, k) then NameSet(es[..k]) + {NameOf(es[k].name)} else NameSet(es[..k])
  {
    hide NameOf;
    var k := |es| - 1;
    forall n | n in NameSet(es)
      ensures n in NameSet(es[..k]) || (Live(es, k) && n == NameOf(es[k].name))
    {
      var m :| 0 <= m < |es| && Live(es, m) && NameOf(es[m].name) == n;
      if m < k {
        assert es[..k][m] == es[m] && Live(es[..k], m);
      }
    }
    forall n | n in NameSet(es[..k])
      ensures n in NameSet(es)
    {
      var m :| 0 <= m < k && Live(es[..k], m) && NameOf(es[..k][m].name) == n;
      assert Live(es, m) && es[m] == es[..k][m];
    }
  }

  /** A slot is empty iff there are fewer names than slots. */
  lemma {:induction false} EmptyIffFewer(es: seq<Dirent>)
    requires Unique(es)
    ensures HasEmpty(es) <==> |NameSet(es)| < |es|
  {
    hide NameOf;
    if |es| > 0 {
      var k := |es| - 1;
      var rest := es[..k];
      assert forall m :: 0 <= m < k ==> rest[m] == es[m];
      assert Unique(rest) by {
        forall m, n | Live(rest, m) && Live(rest, n) && m != n
          ensures NameOf(rest[m].name) != NameOf(rest[n].name)
        {
          assert Live(es, m) && Live(es, n);
        }
      }
      EmptyIffFewer(rest);
      LastSlot(es);
      AtMostSlots(rest);
      if Live(es, k) {
        LastIsNew(es);
      }
      assert HasEmpty(es) <==> HasEmpty(rest) || es[k].inum == 0;
    }
  }

  lemma LastIsNew(es: seq<Dirent>)
    requires Unique(es) && |es| > 0 && Live(es, |es| - 1)
    ensures NameOf(es[|es| - 1].name) !in NameSet(es[..|es| - 1])
  {
    hide NameOf;
  }

  lemma SlotsLeft(es: seq<Dirent>)
    requires Unique(es)
    ensures HasEmpty(es) <==> |NamesOf(es)| < |es|
  {
    EmptyIffFewer(es);
    assert NamesOf(es).Keys == NameSet(es);
  }

  ghost function NodeOf(x: Inode): (y: Node) {
    Node(x.kind, x.nlink, NamesOf(x.entries), |x.entries|)
  }

  /** The slots after one more name. */
  function SlotsWith(x: Node): (n: nat) {
    if |x.names| < x.slots then x.slots else x.slots + 1
  }

  ghost function NodesOf(fs: map<int, Inode>): (r: map<int, Node>) {
    map i | i in fs :: NodeOf(fs[i])
  }

  lemma EnteredNodes(fs: map<int, Inode>, fs': map<int, Inode>, d: int, name: string, i: int)
    requires Entered(fs, fs', d, name, i) && Unique(fs[d].entries)
    ensures var x := NodeOf(fs[d]);
            var slots := if i == 0 then x.slots else SlotsWith(x);
            NodesOf(fs') == NodesOf(fs)[d := Node(x.kind, fs'[d].nlink, Bind(x.names, name, i), slots)]
  {
    hide NamesOf, Find, HasEmpty;
    BindNames(fs[d].entries, fs'[d].entries, name, i);
    SlotsLeft(fs[d].entries);
    var x := NodeOf(fs[d]);
    var y := Node(x.kind, fs'[d].nlink, Bind(x.names, name, i), if i == 0 then x.slots else SlotsWith(x));
    var a, b := NodesOf(fs'), NodesOf(fs)[d := y];
    assert a.Keys == b.Keys;
    forall j | j in a
      ensures a[j] == b[j]
    {
    }
    assert a == b;
  }

  lemma SameLinks(fs: map<int, Inode>, i: int, n: int)
    requires i in fs
    ensures NodesOf(fs[i := fs[i].(nlink := n)]) == NodesOf(fs)[i := NodeOf(fs[i]).(nlink := n)]
  {
    hide NamesOf;
  }

  // ---------------------------------------------------------------- steps

  datatype Command =
    | DoIget(i: int)
    | DoIput(i: int, valid: bool)
    | DoLinkBegin(i: int)
    | DoLinkEnd(i: int, d: int, name: Field)
    | DoCreate(d: int, name: Field, kind: Kind, n: int)
    | DoUnlinkEntry(d: int, name: Field)
    | DoUnlinkEnd(i: int)

  predicate Holds(w: World, i: int) {
    i in w.nodes && i in w.ref && w.ref[i] > 0
  }

  predicate HoldsDir(w: World, d: int) {
    Holds(w, d) && w.nodes[d].kind == Dir
  }

  /** The step can happen, short of overflow of nlink. */
  predicate Possible(w: World, c: Command) {
    match c
    case DoIget(i) => i in w.nodes
    case DoIput(i, _) => Holds(w, i)
    case DoLinkBegin(i) => Holds(w, i) && w.nodes[i].nlink < MAXLINK
    case DoLinkEnd(i, d, _) => Holds(w, i) && HoldsDir(w, d) && w.nodes[i].kind != Dir && OwedTo(w.owed, i) >= 1
    case DoCreate(d, _, kind, n) => HoldsDir(w, d) && n !in w.nodes && n != 0
        && (kind == Dir ==> w.nodes[d].nlink < MAXLINK)
    case DoUnlinkEntry(d, _) => HoldsDir(w, d)
    case DoUnlinkEnd(i) => i in w.nodes && OwedTo(w.owed, i) >= 1
  }

  /** Unlink refuses "." and "..", names that are not bound and directories with further names. */
  ghost predicate Refuses(w: World, d: int, n: string)
    requires d in w.nodes
  {
    var names := w.nodes[d].names;
    || IsDots(n) || n !in names || names[n] !in w.nodes
    || (w.nodes[names[n]].kind == Dir && exists m :: m in w.nodes[names[n]].names && !IsDots(m))
  }

  function Relink(w: World, i: int, up: int): (nodes: map<int, Node>)
    requires i in w.nodes
  {
    w.nodes[i := w.nodes[i].(nlink := w.nodes[i].nlink + up)]
  }

  /** The directory d after name is bound to i, and a change of its link count. */
  function Rename(w: World, d: int, name: string, i: int, up: int): (nodes: map<int, Node>)
    requires d in w.nodes
  {
    var x := w.nodes[d];
    w.nodes[d := Node(x.kind, x.nlink + up, Bind(x.names, name, i), if i == 0 then x.slots else SlotsWith(x))]
  }

  /** The step is the panic of dirlink: it enters a name that is not bound into a full directory. */
  predicate Panics(w: World, c: Command) {
    && Possible(w, c) && (c.DoLinkEnd? || c.DoCreate?)
    && var x := w.nodes[c.d];
       NameOf(c.name) !in x.names && |x.names| >= x.slots && x.slots >= MAXENTRIES
  }

  ghost function Next(w: World, c: Command): (w': World)
    requires Possible(w, c) && !Panics(w, c)
  {
    match c
    case DoIget(i) => w.(ref := w.ref[i := (if i in w.ref then w.ref[i] else 0) + 1])
    case DoIput(i, valid) =>
      var gone := w.ref[i] == 1 && valid && w.nodes[i].nlink == 0;
      World(if gone then w.nodes - {i} else w.nodes, w.ref[i := w.ref[i] - 1], w.owed)
    case DoLinkBegin(i) =>
      if w.nodes[i].kind == Dir then w else w.(nodes := Relink(w, i, 1), owed := w.owed[i := OwedTo(w.owed, i) + 1])
    case DoLinkEnd(i, d, name) =>
      w.(nodes := if NameOf(name) in w.nodes[d].names then Relink(w, i, -1) else Rename(w, d, NameOf(name), i, 0),
         owed := w.owed[i := OwedTo(w.owed, i) - 1])
    case DoCreate(d, name, kind, n) =>
      if NameOf(name) in w.nodes[d].names then w
      else
        var w1 := w.(nodes := w.nodes[n := Node(kind, 1, NewNames(kind, n, d), NewSlots(kind))]);
        w1.(nodes := Rename(w1, d, NameOf(name), n, if kind == Dir then 1 else 0), owed := w.owed[n := 0])
    case DoUnlinkEntry(d, name) =>
      if Refuses(w, d, NameOf(name)) then w
      else
        var i := w.nodes[d].names[NameOf(name)];
        w.(nodes := Rename(w, d, NameOf(name), 0, if w.nodes[i].kind == Dir then -1 else 0),
            owed := w.owed[i := OwedTo(w.owed, i) + 1])
    case DoUnlinkEnd(i) => w.(nodes := Relink(w, i, -1), owed := w.owed[i := OwedTo(w.owed, i) - 1])
  }

  ghost function Exec(w: World, cmds: seq<Command>): (w': World) {
    if cmds == [] then w
    else
      var t := Exec(w, cmds[..|cmds| - 1]);
      var c := cmds[|cmds| - 1];
      if Possible(t, c) && !Panics(t, c) then Next(t, c) else t
  }

  ghost function WorldOf(t: Tree): (w: World)
    reads t
  {
    World(NodesOf(t.fs), t.ref, t.owed)
  }

  // ---------------------------------------------------------------- the code does these steps

  /** What the tests of a step see of the tree. */
  lemma WorldAt(t: Tree, i: int)
    requires t.Valid()
    ensures i in t.fs <==> i in WorldOf(t).nodes
    ensures i in t.fs ==> WorldOf(t).nodes[i] == NodeOf(t.fs[i])
    ensures i in t.ref && t.ref[i] > 0 ==> i in t.fs
  {
    hide Ok, DotsOk, NodeOf;
  }

  predicate Held(t: Tree, i: int)
    reads t
  {
    i in t.ref && t.ref[i] > 0
  }

  /** A directory is full exactly if the step panics. */
  lemma FullIff(t: Tree, d: int, name: string)
    requires t.Valid() && d in t.fs && t.fs[d].kind == Dir
    ensures d in WorldOf(t).nodes && Unique(t.fs[d].entries)
    ensures var x := WorldOf(t).nodes[d];
            && (FullDir(t.fs[d].entries) <==> |x.names| >= x.slots && x.slots >= MAXENTRIES)
            && (Bound(t.fs[d].entries, name) <==> name in x.names)
  {
    hide NameOf, Ok, DotsOk, NamesOf, Bound, HasEmpty;
    WorldAt(t, d);
    CountAt(t.fs, t.owed, d);
    NotDots(t.fs[d], name);
    SlotsLeft(t.fs[d].entries);
    NamesAre(t.fs[d].entries, name);
  }

  method LinkEndStep(t: Tree, i: int, d: int, name: Field) returns (panic: bool)
    requires t.Valid() && Possible(WorldOf(t), DoLinkEnd(i, d, name))
    modifies t
    ensures panic <==> Panics(old(WorldOf(t)), DoLinkEnd(i, d, name))
    ensures panic ==> t.Valid() && WorldOf(t) == old(WorldOf(t))
    ensures !panic ==> t.Valid() && WorldOf(t) == Next(old(WorldOf(t)), DoLinkEnd(i, d, name))
  {
    hide Ok, DotsOk, NameOf, Find, NamesOf, Bound, Entered, FullDir, Unique;
    ghost var fs := t.fs;
    FullIff(t, d, NameOf(name));
    var ok;
    ok, panic := t.LinkEnd(i, d, name);
    if ok {
      EnteredNodes(fs, t.fs, d, NameOf(name), i);
      AllocatedHere(t, i);
    } else if !panic {
      SameLinks(fs, i, fs[i].nlink - 1);
    }
  }

  lemma AllocatedHere(t: Tree, i: int)
    requires t.Valid() && i in t.fs
    ensures i != 0
  {
    hide NamesOf;
  }

  method CreateStep(t: Tree, d: int, name: Field, kind: Kind, n: int) returns (panic: bool)
    requires t.Valid() && Possible(WorldOf(t), DoCreate(d, name, kind, n))
    modifies t
    ensures panic <==> Panics(old(WorldOf(t)), DoCreate(d, name, kind, n))
    ensures !panic ==> t.Valid() && WorldOf(t) == Next(old(WorldOf(t)), DoCreate(d, name, kind, n))
  {
    hide Ok, DotsOk, NameOf, Find, NamesOf, Bound, Entered, FullDir, Unique;
    ghost var fs := t.fs;
    FullIff(t, d, NameOf(name));
    AllocatedHere(t, d);
    var r := t.Create(d, name, kind, n);
    panic := r == CreatePanic;
    if r.New? {
      ghost var fs1 := fs[n := t.fs[n]];
      NewNamesAre(t.fs[n].entries, kind, n, d);
      NewNode(fs, n, t.fs[n]);
      EnteredNodes(fs1, t.fs, d, NameOf(name), n);
    }
  }

  lemma NewNode(fs: map<int, Inode>, n: int, x: Inode)
    ensures NodesOf(fs[n := x]) == NodesOf(fs)[n := NodeOf(x)]
  {
    hide NamesOf;
  }

  /** The tests of unlink, on names. */
  lemma RefusesIff(t: Tree, d: int, n: string)
    requires t.Valid() && d in t.fs && t.fs[d].kind == Dir
    ensures d in WorldOf(t).nodes
    ensures Refuses(WorldOf(t), d, n) <==>
              IsDots(n) || !Bound(t.fs[d].entries, n) || NotEmptyDir(t.fs, Find(t.fs[d].entries, n))
  {
    hide NameOf, Ok, DotsOk, NamesOf, Find, Bound;
    WorldAt(t, d);
    var es := t.fs[d].entries;
    NamesAre(es, n);
    if !IsDots(n) && Bound(es, n) {
      var i := Find(es, n);
      NamedHere(t, d, n);
      WorldAt(t, i);
      CountAt(t.fs, t.owed, i);
      if t.fs[i].kind == Dir {
        EmptyIff(t.fs[i]);
        OtherNames(t.fs[i].entries);
      }
    }
  }

  lemma OtherNames(es: seq<Dirent>)
    ensures (exists m :: m in NamesOf(es) && !IsDots(m)) <==> exists m :: Bound(es, m) && !IsDots(m)
  {
    hide NameOf, NamesOf, Find, Bound;
    forall m
      ensures m in NamesOf(es) <==> Bound(es, m)
    {
      NamesAre(es, m);
    }
  }

  lemma NamedHere(t: Tree, d: int, n: string)
    requires t.Valid() && d in t.fs && !IsDots(n) && Bound(t.fs[d].entries, n)
    ensures Find(t.fs[d].entries, n) in t.fs
  {
    hide NameOf, Ok, DotsOk, Find;
    CountAt(t.fs, t.owed, d);
    var k :| Binds(t.fs[d].entries, k, n);
    FindIs(t.fs[d].entries, k);
    NamedIsAllocated(t.fs, t.owed, t.fs[d].entries[k].inum, d, k);
  }

  method UnlinkStep(t: Tree, d: int, name: Field) returns (panic: bool)
    requires t.Valid() && Possible(WorldOf(t), DoUnlinkEntry(d, name))
    modifies t
    ensures t.Valid() && !panic && WorldOf(t) == Next(old(WorldOf(t)), DoUnlinkEntry(d, name))
  {
    hide Ok, DotsOk, NameOf, Find, NamesOf, Bound, Entered, Refuses, NotEmptyDir, IsDots;
    ghost var fs := t.fs;
    RefusesIff(t, d, NameOf(name));
    FullIff(t, d, NameOf(name));
    NamesAre(fs[d].entries, NameOf(name));
    if !IsDots(NameOf(name)) && Bound(fs[d].entries, NameOf(name)) {
      NamedHere(t, d, NameOf(name));
    }
    var r := t.UnlinkEntry(d, name);
    panic := r == UnlinkPanic;
    if r.Gone? {
      EnteredNodes(fs, t.fs, d, NameOf(name), 0);
    }
  }

  method Step(t: Tree, c: Command) returns (panic: bool)
    requires t.Valid()
    modifies t
    ensures panic <==> Panics(old(WorldOf(t)), c)
    ensures !panic ==>
              t.Valid() && WorldOf(t) == var w := old(WorldOf(t)); if Possible(w, c) then Next(w, c) else w
  {
    hide Ok, DotsOk, NameOf, Find, NamesOf, Bound, Entered, Refuses;
    panic := false;
    ghost var fs := t.fs;
    match c {
      case DoIget(i) =>
        WorldAt(t, i);
        if i in t.fs {
          t.Iget(i);
        }
      case DoIput(i, valid) =>
        WorldAt(t, i);
        if Held(t, i) {
          FreedNodes(fs, i);
          var freed := t.Iput(i, valid);
        }
      case DoLinkBegin(i) =>
        WorldAt(t, i);
        if Held(t, i) && t.fs[i].nlink < MAXLINK {
          SameLinks(fs, i, fs[i].nlink + 1);
          var ok := t.LinkBegin(i);
        }
      case DoLinkEnd(i, d, name) =>
        WorldAt(t, i);
        WorldAt(t, d);
        if Held(t, i) && Held(t, d) && t.fs[d].kind == Dir && t.fs[i].kind != Dir && OwedTo(t.owed, i) >= 1 {
          panic := LinkEndStep(t, i, d, name);
        }
      case DoCreate(d, name, kind, n) =>
        WorldAt(t, d);
        WorldAt(t, n);
        if Held(t, d) && t.fs[d].kind == Dir && n !in t.fs && n != 0 && (kind == Dir ==> t.fs[d].nlink < MAXLINK) {
          panic := CreateStep(t, d, name, kind, n);
        }
      case DoUnlinkEntry(d, name) =>
        WorldAt(t, d);
        if Held(t, d) && t.fs[d].kind == Dir {
          panic := UnlinkStep(t, d, name);
        }
      case DoUnlinkEnd(i) =>
        WorldAt(t, i);
        if i in t.fs && OwedTo(t.owed, i) >= 1 {
          SameLinks(fs, i, fs[i].nlink - 1);
          t.UnlinkEnd(i);
        }
    }
  }

  lemma FreedNodes(fs: map<int, Inode>, i: int)
    ensures NodesOf(fs - {i}) == NodesOf(fs) - {i}
  {
    hide NodeOf;
  }

  /** Any interleaving of the stretches of any number of calls, short of overflow of nlink, up to the first
      that enters a name into a full directory: the bindings, link counts, references and slots are what the
      steps make of them, every name but "." and ".." is that of an allocated inode with at least as many
      links as names, and no other panic is reached. */
  method Run(t: Tree, cmds: seq<Command>) returns (panic: bool, n: nat)
    requires t.Valid()
    modifies t
    ensures n <= |cmds| && (panic <==> n < |cmds|)
    ensures forall k :: 0 <= k < n ==> !Panics(Exec(old(WorldOf(t)), cmds[..k]), cmds[k])
    ensures panic ==> Panics(Exec(old(WorldOf(t)), cmds[..n]), cmds[n])
    ensures !panic ==> t.Valid() && WorldOf(t) == Exec(old(WorldOf(t)), cmds)
    ensures !panic ==> forall i :: i in t.fs ==> t.fs[i].nlink >= |Names(t.fs, i)|
    ensures !panic ==> forall i, d, k :: NamesAt(t.fs, i, d, k) ==> i in t.fs
    ensures !panic ==>
              && ROOTINO in t.fs && Find(t.fs[ROOTINO].entries, "..") == ROOTINO
              && (forall d :: d in t.fs && t.fs[d].kind == Dir ==> Find(t.fs[d].entries, ".") == d)
              && (forall d, n :: IsSubdir(t.fs, d, n) ==> Find(t.fs[Find(t.fs[d].entries, n)].entries, "..") == d)
  {
    hide Ok, DotsOk, Names, NamesAt, NodesOf, Possible, Panics, Next, Find, IsSubdir;
    panic, n := false, 0;
    while n < |cmds|
      invariant n <= |cmds| && t.Valid() && !panic && WorldOf(t) == Exec(old(WorldOf(t)), cmds[..n])
      invariant forall k :: 0 <= k < n ==> !Panics(Exec(old(WorldOf(t)), cmds[..k]), cmds[k])
    {
      assert cmds[..n + 1][..n] == cmds[..n];
      panic := Step(t, cmds[n]);
      if panic {
        return;
      }
      n := n + 1;
    }
    assert cmds[..|cmds|] == cmds;
    forall i | i in t.fs
      ensures t.fs[i].nlink >= |Names(t.fs, i)|
    {
      NlinkCoversNames(t.fs, t.owed, i);
    }
    forall i, d, k | NamesAt(t.fs, i, d, k)
      ensures i in t.fs
    {
      NamedIsAllocated(t.fs, t.owed, i, d, k);
    }
    DotsByNames(t.fs, t.owed);
  }
}
