/** The operations of kernel/vm.c on the memory of a process: growing, copying and freeing it. Each may
    run out of pages at any allocation, and undoes what it did except for table pages, which stay part
    of the tree. */
module UserVm {
  import opened PageTable
  import opened Vm

  /** The pages [a, b) map to zeroed pages with the given flags. */
  ghost predicate ZeroPages(mem: Mem, leaf: map<int, int>, a: int, b: int, flags: int) {
    forall v :: a <= v < b ==>
      v in leaf && Flags(leaf[v]) == flags && Ppn(leaf[v]) in mem && mem[Ppn(leaf[v])] == Zero()
  }

  /** Page a was mapped to a page p taken from the free list, and tables were added from it. */
  ghost predicate AddedFrame(free: seq<int>, t: Tree, free': seq<int>, t': Tree, a: int, p: int, perm: int)
    requires 0 <= perm < 1024
  {
    && t'.leaf == t.leaf[a := MakePte(p, perm)]
    && Nodes(t) <= Nodes(t')
    && Elems(free) == Elems(free') + {p} + (Nodes(t') - Nodes(t))
    && p !in Elems(free') && p !in Nodes(t') && p !in Nodes(t)
  }

  lemma OwnsAdd(mem: Mem, free: seq<int>, t: Tree, mem': Mem, free': seq<int>, t': Tree, lo: int, hi: int,
                first: int, a: int, p: int, perm: int)
    requires OwnsFrames(mem, free, lo, hi, t, first, a) && first <= a && a !in t.leaf
    requires 0 <= perm < 1024 && AddedFrame(free, t, free', t', a, p, perm)
    requires mem'.Keys == mem.Keys && lo <= p < hi && p in mem
    ensures OwnsFrames(mem', free', lo, hi, t', first, a + 1)
    ensures Frames(t'.leaf, first, a + 1) == Frames(t.leaf, first, a) + {p}
    ensures Cut(t'.leaf, first, a + 1) == Cut(t.leaf, first, a)
  {
    hide Nodes;
    assert Ppn(t'.leaf[a]) == p;
    forall v | v in t.leaf && first <= v < a
      ensures OwnedPage(mem', free', lo, hi, t', v) && Ppn(t.leaf[v]) != p
    {
      assert OwnedPage(mem, free, lo, hi, t, v);
      var q := Ppn(t.leaf[v]);
      assert q !in Elems(free) by { NotElem(free, q); }
      IsElem(free', q);
    }
    assert OwnedPage(mem', free', lo, hi, t', a) by { IsElem(free', p); }
    assert Frames(t'.leaf, first, a + 1) == Frames(t.leaf, first, a) + {p} by {
      assert forall v :: v in t.leaf && first <= v < a ==> v in t'.leaf && t'.leaf[v] == t.leaf[v];
    }
  }

  lemma OwnsMore(mem: Mem, free: seq<int>, mem': Mem, free': seq<int>, t: Tree, lo: int, hi: int, a: int, b: int,
                 c: int)
    requires OwnsFrames(mem, free, lo, hi, t, a, b) && b <= c
    requires forall v :: v in t.leaf ==> !(b <= v < c)
    requires mem'.Keys == mem.Keys && Elems(free') == Elems(free)
    ensures OwnsFrames(mem', free', lo, hi, t, a, c)
    ensures Frames(t.leaf, a, c) == Frames(t.leaf, a, b) && Cut(t.leaf, a, c) == Cut(t.leaf, a, b)
  {
    forall v | v in t.leaf && a <= v < c
      ensures OwnedPage(mem', free', lo, hi, t, v)
    {
      assert OwnedPage(mem, free, lo, hi, t, v);
      IsElem(free, Ppn(t.leaf[v]));
      IsElem(free', Ppn(t.leaf[v]));
    }
  }

  const USER_RWX := 30  // PTE_W | PTE_X | PTE_R | PTE_U

  ghost predicate KernelOk(k: Kernel, t: Tree)
    reads k
  {
    Sound(k.mem, k.head, k.free, k.lo, k.hi, t)
  }

  /** The frames of the pages [a, b) of t, and the tables added since t0, are what left the free list. */
  ghost predicate Took(free: seq<int>, t: Tree, free': seq<int>, t': Tree, a: int, b: int) {
    && t'.root == t.root
    && Nodes(t) <= Nodes(t')
    && Elems(free) == Elems(free') + Frames(t'.leaf, a, b) + (Nodes(t') - Nodes(t))
    && Frames(t'.leaf, a, b) !! Elems(free') && Frames(t'.leaf, a, b) !! Nodes(t')
  }

  lemma TookStep(free: seq<int>, t: Tree, free1: seq<int>, t1: Tree, free2: seq<int>, t2: Tree, a: int, b: int,
                 p: int, perm: int)
    requires Took(free, t, free1, t1, a, b) && 0 <= perm < 1024 && AddedFrame(free1, t1, free2, t2, b, p, perm)
    requires Elems(free) !! Nodes(t) && Elems(free1) !! Nodes(t1)
    requires Frames(t2.leaf, a, b + 1) == Frames(t1.leaf, a, b) + {p} && t2.root == t1.root
    ensures Took(free, t, free2, t2, a, b + 1)
  {
    hide Nodes, Elems, Frames, MakePte;
  }

  /** After a failed step only tables were added; the frames can be given back. */
  lemma TookFail(free: seq<int>, t: Tree, free1: seq<int>, t1: Tree, free2: seq<int>, t2: Tree, a: int, b: int)
    requires Took(free, t, free1, t1, a, b)
    requires Elems(free) !! Nodes(t) && Elems(free1) !! Nodes(t1)
    requires t2.leaf == t1.leaf && t2.root == t1.root && Nodes(t1) <= Nodes(t2)
    requires Elems(free1) == Elems(free2) + (Nodes(t2) - Nodes(t1)) && Elems(free2) !! Nodes(t2)
    ensures Took(free, t, free2, t2, a, b)
  {
    hide Nodes, Elems, Frames;
  }

  lemma OwnsFail(mem: Mem, free: seq<int>, t: Tree, mem': Mem, free': seq<int>, t': Tree, lo: int, hi: int, a: int,
                 b: int)
    requires OwnsFrames(mem, free, lo, hi, t, a, b)
    requires mem'.Keys == mem.Keys && t'.leaf == t.leaf && Nodes(t) <= Nodes(t')
    requires Elems(free) == Elems(free') + (Nodes(t') - Nodes(t))
    ensures OwnsFrames(mem', free', lo, hi, t', a, b)
  {
    hide Nodes;
    forall v | v in t.leaf && a <= v < b
      ensures OwnedPage(mem', free', lo, hi, t', v)
    {
      assert OwnedPage(mem, free, lo, hi, t, v);
      IsElem(free, Ppn(t.leaf[v]));
      IsElem(free', Ppn(t.leaf[v]));
    }
  }

  lemma ZeroPagesStep(mem: Mem, leaf: map<int, int>, a: int, b: int, p: int)
    requires a <= b && ZeroPages(mem, leaf, a, b, 31) && p in mem && mem[p] == Zero()
    ensures ZeroPages(mem, leaf[b := MakePte(p, USER_RWX)], a, b + 1, 31)
  {
  }

  lemma StartEmpty(mem: Mem, free: seq<int>, lo: int, hi: int, t: Tree, a: int)
    ensures Cut(t.leaf, a, a) == t.leaf
    ensures ZeroPages(mem, t.leaf, a, a, 31)
    ensures OwnsFrames(mem, free, lo, hi, t, a, a)
    ensures Took(free, t, free, t, a, a)
  {
  }

  lemma ZeroPagesLeaf(mem: Mem, leaf: map<int, int>, a: int, b: int)
    requires ZeroPages(mem, leaf, a, b, 31)
    ensures forall w :: w in leaf && a <= w < b ==> Flags(leaf[w]) != PTE_V
  {
  }

  lemma ZeroPagesKept(mem: Mem, free: seq<int>, t: Tree, mem': Mem, lo: int, hi: int, a: int, b: int)
    requires OwnsFrames(mem, free, lo, hi, t, a, b) && ZeroPages(mem, t.leaf, a, b, 31)
    requires Changed(mem, mem', Elems(free) + Nodes(t))
    ensures ZeroPages(mem', t.leaf, a, b, 31)
  {
    hide Nodes;
    forall v | a <= v < b
      ensures Ppn(t.leaf[v]) in mem' && mem'[Ppn(t.leaf[v])] == Zero()
    {
      assert OwnedPage(mem, free, lo, hi, t, v);
      IsElem(free, Ppn(t.leaf[v]));
    }
  }

  /** `uvmalloc`: grow from oldsz to newsz bytes with zeroed pages, or change no mapping and give every
      frame back. */
  method Uvmalloc(k: Kernel, root: int, oldsz: int, newsz: int, ghost t: Tree) returns (r: int, ghost t': Tree,
                  ghost ok: bool)
    requires KernelOk(k, t) && root == t.root
    requires 0 <= oldsz && 0 <= newsz <= MAXPAGE * PGSIZE && Pages(oldsz) <= MAXPAGE
    requires forall v :: v in t.leaf ==> !(Pages(oldsz) <= v < Pages(newsz))
    modifies k
    ensures KernelOk(k, t')
    ensures Changed(old(k.mem), k.mem, Elems(old(k.free)) + Nodes(t))
    ensures newsz < oldsz ==> r == oldsz && ok && t' == t && k.mem == old(k.mem) && k.free == old(k.free)
    ensures newsz >= oldsz && !ok ==> r == 0 && t'.leaf == t.leaf && Grown(old(k.free), t, k.free, t')
    ensures !ok ==> |old(k.free)| < 3 * (Pages(newsz) - Pages(oldsz))
    ensures newsz >= oldsz && ok ==>
              && r == newsz
              && Cut(t'.leaf, Pages(oldsz), Pages(newsz)) == t.leaf
              && ZeroPages(k.mem, t'.leaf, Pages(oldsz), Pages(newsz), 31)
              && OwnsFrames(k.mem, k.free, k.lo, k.hi, t', Pages(oldsz), Pages(newsz))
              && Took(old(k.free), t, k.free, t', Pages(oldsz), Pages(newsz))
  {
    hide FreeList, TreeOk, Nodes, Elems, OwnsFrames, Cut, Frames, ZeroPages, MakePte;
    t' := t;
    if newsz < oldsz {
      return oldsz, t', true;
    }
    var first := Pages(oldsz);
    var a := first;
    StartEmpty(k.mem, k.free, k.lo, k.hi, t, first);
    while a * PGSIZE < newsz
      invariant first <= a && (a <= Pages(newsz) || a == first) && |old(k.free)| - 3 * (a - first) <= |k.free|
      invariant KernelOk(k, t')
      invariant Changed(old(k.mem), k.mem, Elems(old(k.free)) + Nodes(t))
      invariant Cut(t'.leaf, first, a) == t.leaf
      invariant ZeroPages(k.mem, t'.leaf, first, a, 31)
      invariant OwnsFrames(k.mem, k.free, k.lo, k.hi, t', first, a)
      invariant Took(old(k.free), t, k.free, t', first, a)
      decreases newsz - a * PGSIZE
    {
      CutAt(t'.leaf, first, a, a);
      ghost var mem1, free1, t1 := k.mem, k.free, t';
      var done;
      ghost var p;
      done, t', p := k.MapZeroPage(root, a, USER_RWX, t');
      if !done {
        TookFail(old(k.free), t, free1, t1, k.free, t', first, a);
        OwnsFail(mem1, free1, t1, k.mem, k.free, t', k.lo, k.hi, first, a);
        ghost var t2 := t';
        ZeroPagesLeaf(mem1, t'.leaf, first, a);
        r, t' := k.Uvmdealloc(root, a * PGSIZE, first * PGSIZE, t');
        CutNone(t2.leaf, first);
        return 0, t', false;
      }
      OwnsAdd(mem1, free1, t1, k.mem, k.free, t', k.lo, k.hi, first, a, p, USER_RWX);
      TookStep(old(k.free), t, free1, t1, k.free, t', first, a, p, USER_RWX);
      ZeroPagesKept(mem1, free1, t1, k.mem, k.lo, k.hi, first, a);
      ZeroPagesStep(k.mem, t1.leaf, first, a, p);
      a := a + 1;
    }
    return newsz, t', true;
  }

  // ---------------------------------------------------------------- copying

  /** The pages below n are mapped in leaf' where they are in leaf, with the same flags and contents. */
  ghost predicate Copied(mem: Mem, leaf: map<int, int>, mem': Mem, leaf': map<int, int>, n: int) {
    forall v :: 0 <= v < n ==>
      && (v in leaf <==> v in leaf')
      && (v in leaf ==>
            && Flags(leaf'[v]) == Flags(leaf[v])
            && Ppn(leaf[v]) in mem && Ppn(leaf'[v]) in mem'
            && mem'[Ppn(leaf'[v])] == mem[Ppn(leaf[v])])
  }

  /** Work on tree u leaves tree t alone. */
  lemma OtherTree(mem: Mem, head: int, free: seq<int>, t: Tree, u: Tree, mem': Mem, head': int, free': seq<int>,
                  u': Tree, lo: int, hi: int, s: set<int>)
    requires Sound(mem, head, free, lo, hi, t) && Sound(mem', head', free', lo, hi, u')
    requires Changed(mem, mem', Elems(free) + Nodes(u) + s)
    requires Nodes(t) !! Nodes(u) && Nodes(t) !! s
    requires Nodes(u') <= Nodes(u) + Elems(free) && Elems(free') <= Elems(free) + s
    ensures Sound(mem', head', free', lo, hi, t) && Nodes(t) !! Nodes(u')
  {
    hide Nodes, Elems, FreeList, TreeOk;
    TreeFrame(mem, mem', t);
  }

  /** One iteration of `uvmcopy`. */
  method CopyPage(k: Kernel, old_: int, new_: int, v: int, ghost t: Tree, ghost u: Tree)
      returns (ok: bool, ghost u': Tree, ghost p: int)
    requires KernelOk(k, t) && KernelOk(k, u) && old_ == t.root && new_ == u.root && Nodes(t) !! Nodes(u)
    requires 0 <= v < MAXPAGE && v !in u.leaf
    requires v in t.leaf ==> Ppn(t.leaf[v]) in k.mem && Ppn(t.leaf[v]) !in Elems(k.free) && Ppn(t.leaf[v]) !in Nodes(u)
    modifies k
    ensures KernelOk(k, t) && KernelOk(k, u') && Nodes(t) !! Nodes(u') && u'.root == u.root && Nodes(u) <= Nodes(u')
    ensures Changed(old(k.mem), k.mem, Elems(old(k.free)) + Nodes(u))
    ensures v !in t.leaf ==> ok && u' == u && k.mem == old(k.mem) && k.free == old(k.free)
    ensures v in t.leaf && !ok ==> u'.leaf == u.leaf && Elems(old(k.free)) == Elems(k.free) + (Nodes(u') - Nodes(u))
    ensures !ok ==> |old(k.free)| < 3
    ensures v in t.leaf && ok ==> |old(k.free)| - 3 <= |k.free|
    ensures v in t.leaf && ok ==>
              && AddedFrame(old(k.free), u, k.free, u', v, p, Flags(t.leaf[v]))
              && k.lo <= p < k.hi && p in k.mem && k.mem[p] == old(k.mem)[Ppn(t.leaf[v])]
  {
    hide FreeList, TreeOk, Nodes, Elems, MakePte;
    u', p, ok := u, 0, true;
    var tbl;
    ghost var t';
    tbl, t' := k.Walk(old_, v, false, t);
    if tbl == 0 {
      LeafBelow(k.mem, t, v);
      return;
    }
    ReadLeaf(k.mem, t, v);
    var pte := k.mem[tbl][PX(0, v)];
    if !IsValid(pte) {
      return;
    }
    var data := k.mem[Ppn(pte)];
    ghost var mem0, head0, free0 := k.mem, k.head, k.free;
    var m := k.KallocFilled(data, u);
    p := m;
    if m == 0 {
      return false, u', p;
    }
    NotElem(k.free, m);
    ok, u' := k.MapFrame(new_, v, m, Flags(pte), u);
    assert Elems(k.free) <= Elems(free0) && Nodes(u') <= Nodes(u) + Elems(free0);
    OtherTree(mem0, head0, free0, t, u, k.mem, k.head, k.free, u', k.lo, k.hi, {});
  }

  /** The frames of the pages of t below n can be read while u is filled. */
  ghost predicate Readable(mem: Mem, free: set<int>, t: Tree, u: Tree, n: int) {
    forall v :: v in t.leaf && 0 <= v < n ==>
      var p := Ppn(t.leaf[v]);
      p in mem && p !in free && p !in Nodes(u) && Flags(t.leaf[v]) != PTE_V
  }

  lemma ReadableAt(mem: Mem, free: set<int>, t: Tree, u: Tree, n: int, v: int)
    requires Readable(mem, free, t, u, n) && v in t.leaf && 0 <= v < n
    ensures Ppn(t.leaf[v]) in mem && Ppn(t.leaf[v]) !in free && Ppn(t.leaf[v]) !in Nodes(u) && Flags(t.leaf[v]) != PTE_V
  {
  }

  /** A page that the source does not map. */
  lemma CopySkip(mem: Mem, mem': Mem, free: seq<int>, lo: int, hi: int, t: Tree, u: Tree, free0: seq<int>, u0: Tree,
                 v: int)
    requires v !in t.leaf && v !in u.leaf && 0 <= v
    requires Copied(mem, t.leaf, mem', u.leaf, v) && OwnsFrames(mem', free, lo, hi, u, 0, v)
             && Took(free0, u0, free, u, 0, v)
    ensures Copied(mem, t.leaf, mem', u.leaf, v + 1) && OwnsFrames(mem', free, lo, hi, u, 0, v + 1)
    ensures Took(free0, u0, free, u, 0, v + 1) && Cut(u.leaf, 0, v + 1) == Cut(u.leaf, 0, v)
  {
    hide Nodes, Elems;
    assert forall w :: w in u.leaf ==> !(v <= w < v + 1);
    OwnsMore(mem', free, mem', free, u, lo, hi, 0, v, v + 1);
  }

  /** Copies made so far are not touched. */
  lemma CopyKept(mem: Mem, leaf: map<int, int>, mem1: Mem, free: seq<int>, lo: int, hi: int, u: Tree, mem2: Mem, v: int)
    requires Copied(mem, leaf, mem1, u.leaf, v) && OwnsFrames(mem1, free, lo, hi, u, 0, v)
    requires Changed(mem1, mem2, Elems(free) + Nodes(u))
    ensures Copied(mem, leaf, mem2, u.leaf, v)
  {
    hide Nodes;
    forall w | 0 <= w < v && w in leaf
      ensures Ppn(u.leaf[w]) in mem2 && mem2[Ppn(u.leaf[w])] == mem1[Ppn(u.leaf[w])]
    {
      assert OwnedPage(mem1, free, lo, hi, u, w);
      IsElem(free, Ppn(u.leaf[w]));
    }
  }

  lemma CopyAdd(mem: Mem, leaf: map<int, int>, mem': Mem, leaf': map<int, int>, v: int, p: int)
    requires Copied(mem, leaf, mem', leaf', v) && 0 <= v && v in leaf
    requires IsValid(leaf[v]) && Ppn(leaf[v]) in mem && p in mem' && mem'[p] == mem[Ppn(leaf[v])]
    ensures Copied(mem, leaf, mem', leaf'[v := MakePte(p, Flags(leaf[v]))], v + 1)
  {
    SameFlags(leaf[v], p);
    hide MakePte, Flags, Ppn;
  }

  lemma OddFlags(pte: int)
    requires pte % 2 == 1
    ensures pte % 1024 % 2 == 1
  {
    var x := pte / 2 - 512 * (pte / 1024);
    assert pte % 1024 == 2 * x + 1;
  }

  /** Copying an entry with its flags keeps them. */
  lemma SameFlags(pte: int, p: int)
    requires IsValid(pte)
    ensures Flags(MakePte(p, Flags(pte))) == Flags(pte) && Ppn(MakePte(p, Flags(pte))) == p
  {
    hide MakePte, Ppn;
    OddFlags(pte);
    MakePteFields(p, pte % 1024);
  }

  lemma MakePteFields(p: int, f: int)
    requires 0 <= f < 1024 && f % 2 == 1
    ensures Flags(MakePte(p, f)) == f && Ppn(MakePte(p, f)) == p
  {
    assert MakePte(p, f) == 1024 * p + f;
  }

  lemma ValidLeaf(mem: Mem, t: Tree, v: int)
    requires TreeOk(mem, t) && v in t.leaf
    ensures IsValid(t.leaf[v])
  {
  }

  lemma CopiedFlags(mem: Mem, free: set<int>, t: Tree, u0: Tree, mem': Mem, leaf': map<int, int>, v: int, n: int)
    requires Copied(mem, t.leaf, mem', leaf', v) && Readable(mem, free, t, u0, n) && v <= n
    ensures forall w :: w in leaf' && 0 <= w < v ==> Flags(leaf'[w]) != PTE_V
  {
  }

  /** The number of pages below n that are mapped. */
  ghost function MappedCount(leaf: map<int, int>, n: int): (m: nat) {
    if n <= 0 then 0 else MappedCount(leaf, n - 1) + if n - 1 in leaf then 1 else 0
  }

  lemma {:induction false} MappedGrows(leaf: map<int, int>, n: int, m: int)
    requires n <= m
    ensures MappedCount(leaf, n) <= MappedCount(leaf, m)
    decreases m - n
  {
    if 0 < m && n < m {
      MappedGrows(leaf, n, m - 1);
    }
  }

  lemma {:induction false} MappedIs(leaf: map<int, int>, n: nat)
    ensures MappedCount(leaf, n) == |set v | v in leaf && 0 <= v < n|
  {
    var s := set v | v in leaf && 0 <= v < n;
    if n == 0 {
      assert s == {};
    } else {
      MappedIs(leaf, n - 1);
      var s1 := set v | v in leaf && 0 <= v < n - 1;
      assert s == if n - 1 in leaf then s1 + {n - 1} else s1;
    }
  }

  /** A copy that fails at page v had less than three free pages for each page it had to copy. */
  lemma CopyBudget(leaf: map<int, int>, v: nat, n: int, free0: int, free1: int)
    requires v < n && v in leaf && free0 - 3 * MappedCount(leaf, v) <= free1 < 3
    ensures free0 < 3 * MappedCount(leaf, n)
  {
    MappedGrows(leaf, v + 1, n);
  }

  /** `uvmcopy`: give u a copy of every mapped page of t below sz, or change no mapping of u and give
      every frame back. The source keeps its tables and its contents. */
  method Uvmcopy(k: Kernel, old_: int, new_: int, sz: int, ghost t: Tree, ghost u: Tree) returns (ok: bool,
                 ghost u': Tree)
    requires KernelOk(k, t) && KernelOk(k, u) && old_ == t.root && new_ == u.root && Nodes(t) !! Nodes(u)
    requires 0 <= sz <= MAXPAGE * PGSIZE
    requires Readable(k.mem, Elems(k.free), t, u, Pages(sz))
    requires forall v :: v in u.leaf ==> !(0 <= v < Pages(sz))
    modifies k
    ensures KernelOk(k, t) && KernelOk(k, u') && Nodes(t) !! Nodes(u') && u'.root == u.root
    ensures Changed(old(k.mem), k.mem, Elems(old(k.free)) + Nodes(u))
    ensures !ok ==> u'.leaf == u.leaf && Grown(old(k.free), u, k.free, u')
    ensures !ok ==> |old(k.free)| < 3 * MappedCount(t.leaf, Pages(sz))
    ensures ok ==> |old(k.free)| - 3 * MappedCount(t.leaf, Pages(sz)) <= |k.free|
    ensures ok ==>
              && Cut(u'.leaf, 0, Pages(sz)) == u.leaf
              && Copied(old(k.mem), t.leaf, k.mem, u'.leaf, Pages(sz))
              && OwnsFrames(k.mem, k.free, k.lo, k.hi, u', 0, Pages(sz))
              && Took(old(k.free), u, k.free, u', 0, Pages(sz))
  {
    hide FreeList, TreeOk, Nodes, Elems, OwnsFrames, Cut, Frames, MakePte, Readable, Copied;
    u' := u;
    var v := 0;
    StartEmpty(k.mem, k.free, k.lo, k.hi, u, 0);
    assert Copied(old(k.mem), t.leaf, k.mem, u.leaf, 0) by { CopiedNone(old(k.mem), t.leaf, k.mem, u.leaf); }
    while v * PGSIZE < sz
      invariant 0 <= v <= Pages(sz) && |old(k.free)| - 3 * MappedCount(t.leaf, v) <= |k.free|
      invariant KernelOk(k, t) && KernelOk(k, u') && Nodes(t) !! Nodes(u')
      invariant Changed(old(k.mem), k.mem, Elems(old(k.free)) + Nodes(u))
      invariant Cut(u'.leaf, 0, v) == u.leaf
      invariant Copied(old(k.mem), t.leaf, k.mem, u'.leaf, v)
      invariant OwnsFrames(k.mem, k.free, k.lo, k.hi, u', 0, v)
      invariant Took(old(k.free), u, k.free, u', 0, v)
      decreases sz - v * PGSIZE
    {
      CutAt(u'.leaf, 0, v, v);
      if v in t.leaf {
        ReadableAt(old(k.mem), Elems(old(k.free)), t, u, Pages(sz), v);
        ValidLeaf(k.mem, t, v);
      }
      ghost var mem1, free1, u1 := k.mem, k.free, u';
      ghost var p;
      ok, u', p := CopyPage(k, old_, new_, v, t, u');
      if !ok {
        CopyBudget(t.leaf, v, Pages(sz), |old(k.free)|, |free1|);
        TookFail(old(k.free), u, free1, u1, k.free, u', 0, v);
        OwnsFail(mem1, free1, u1, k.mem, k.free, u', k.lo, k.hi, 0, v);
        CopiedFlags(old(k.mem), Elems(old(k.free)), t, u, mem1, u'.leaf, v, Pages(sz));
        ghost var mem2, head2, free2, u2 := k.mem, k.head, k.free, u';
        u' := k.Uvmunmap(new_, 0, v, true, u');
        OtherTree(mem2, head2, free2, t, u2, k.mem, k.head, k.free, u', k.lo, k.hi, Frames(u2.leaf, 0, v));
        return;
      }
      if v in t.leaf {
        OwnsAdd(mem1, free1, u1, k.mem, k.free, u', k.lo, k.hi, 0, v, p, Flags(t.leaf[v]));
        TookStep(old(k.free), u, free1, u1, k.free, u', 0, v, p, Flags(t.leaf[v]));
        CopyKept(old(k.mem), t.leaf, mem1, free1, k.lo, k.hi, u1, k.mem, v);
        CopyAdd(old(k.mem), t.leaf, k.mem, u1.leaf, v, p);
      } else {
        CopySkip(old(k.mem), k.mem, k.free, k.lo, k.hi, t, u', old(k.free), u, v);
      }
      v := v + 1;
    }
    ok := true;
  }

  lemma CopiedNone(mem: Mem, leaf: map<int, int>, mem': Mem, leaf': map<int, int>)
    ensures Copied(mem, leaf, mem', leaf', 0)
  {
  }
}
