/** The user page table of a process, kernel/proc.c: creating it with the trampoline and trapframe
    pages, and freeing it with everything it maps. */
module ProcVm {
  import opened PageTable
  import opened Vm
  import opened UserVm
  import opened FreeWalk

  lemma CutAll(leaf: map<int, int>, n: int)
    requires forall v :: v in leaf ==> 0 <= v < n
    ensures Cut(leaf, 0, n) == map[]
  {
    assert forall v :: v !in Cut(leaf, 0, n);
  }

  /** `uvmfree`: free the user pages below sz and then all tables; nothing else may be mapped. */
  method Uvmfree(k: Kernel, root: int, sz: int, ghost t: Tree) returns (ok: bool)
    requires KernelOk(k, t) && root == t.root && 0 <= sz && Pages(sz) <= MAXPAGE
    requires forall v :: v in t.leaf ==> 0 <= v < Pages(sz) && Flags(t.leaf[v]) != PTE_V
    requires OwnsFrames(k.mem, k.free, k.lo, k.hi, t, 0, Pages(sz))
    modifies k
    ensures ok
    ensures FreeList(k.mem, k.head, k.free, k.lo, k.hi)
    ensures Elems(k.free) == Elems(old(k.free)) + Nodes(t) + Frames(t.leaf, 0, Pages(sz))
    ensures Changed(old(k.mem), k.mem, Nodes(t) + Frames(t.leaf, 0, Pages(sz)))
  {
    hide FreeList, TreeOk, Elems, Nodes, OwnsFrames, Frames;
    ghost var t' := t;
    if sz > 0 {
      t' := k.Uvmunmap(root, 0, Pages(sz), true, t);
    } else {
      CutNone(t.leaf, 0);
    }
    CutAll(t.leaf, Pages(sz));
    KeysOf(k.mem, t');
    SubRoot(t');
    ok := Freewalk(k, root, 2, 0, t', k.mem);
  }

  const TRAMP_PERM := 10  // PTE_R | PTE_X
  const TRAPF_PERM := 6   // PTE_R | PTE_W

  /** The mappings of a new process: only the trampoline and its trapframe. */
  ghost function KernelLeaves(tramp: int, tf: int): (m: map<int, int>) {
    map[TRAMPOLINE := MakePte(tramp, TRAMP_PERM), TRAPFRAME := MakePte(tf, TRAPF_PERM)]
  }

  /** A zeroed page is a tree without entries. */
  lemma EmptyTree(mem: Mem, head: int, free: seq<int>, lo: int, hi: int, p: int)
    requires FreeList(mem, head, free, lo, hi) && lo <= p < hi && p in mem && mem[p] == Zero() && p !in free
    ensures var t := Tree(p, map[], map[], map[]);
            Sound(mem, head, free, lo, hi, t) && Nodes(t) == {p}
  {
    hide FreeList;
    IsElem(free, p);
  }

  /** `uvmcreate`. */
  method Uvmcreate(k: Kernel) returns (root: int)
    requires FreeList(k.mem, k.head, k.free, k.lo, k.hi)
    modifies k
    ensures FreeList(k.mem, k.head, k.free, k.lo, k.hi)
    ensures root == 0 ==> k.mem == old(k.mem) && k.free == old(k.free) == []
    ensures root != 0 ==> |k.free| == |old(k.free)| - 1
    ensures root != 0 ==>
              var t := Tree(root, map[], map[], map[]);
              && KernelOk(k, t) && Nodes(t) == {root}
              && Elems(old(k.free)) == Elems(k.free) + {root} && root !in Elems(k.free)
              && Changed(old(k.mem), k.mem, {root})
  {
    hide FreeList, TreeOk, Elems;
    root := k.Kalloc();
    if root != 0 {
      ghost var mem1 := k.mem;
      k.mem := k.mem[root := Zero()];
      FreeFrame(mem1, k.mem, k.head, k.free, k.lo, k.hi);
      NotElem(k.free, root);
      EmptyTree(k.mem, k.head, k.free, k.lo, k.hi, root);
    }
  }

  /** `mappages` of one page that is not mapped. */
  method MapPage(k: Kernel, root: int, v: int, ppn: int, perm: int, ghost t: Tree) returns (ok: bool, ghost t': Tree)
    requires KernelOk(k, t) && root == t.root && 0 <= v < MAXPAGE && v !in t.leaf && 0 <= perm < 1024
    modifies k
    ensures KernelOk(k, t') && Grown(old(k.free), t, k.free, t')
    ensures Changed(old(k.mem), k.mem, Elems(old(k.free)) + Nodes(t))
    ensures t'.leaf == if ok then t.leaf[v := MakePte(ppn, perm)] else t.leaf
    ensures |old(k.free)| - 2 <= |k.free| && (!ok ==> |old(k.free)| <= 1)
  {
    hide FreeList, TreeOk, Elems, Nodes, MapRange, MakePte;
    var r;
    ghost var n;
    r, t', n := k.Mappages(root, v * PGSIZE, PGSIZE, ppn, perm, t);
    MapRangeOne(t.leaf, v, ppn, perm);
    ok := r == Mapped;
  }

  /** `proc_pagetable`: the root of a new page table, or 0 with every page it took given back. */
  method ProcPagetable(k: Kernel, tramp: int, tf: int) returns (root: int, ghost t: Tree)
    requires FreeList(k.mem, k.head, k.free, k.lo, k.hi)
    modifies k
    ensures FreeList(k.mem, k.head, k.free, k.lo, k.hi)
    ensures Changed(old(k.mem), k.mem, Elems(old(k.free)))
    ensures root == 0 ==> Elems(k.free) == Elems(old(k.free)) && |old(k.free)| < 5
    ensures root != 0 ==> |old(k.free)| - 5 <= |k.free|
    ensures root != 0 ==>
              && KernelOk(k, t) && t.root == root
              && t.leaf == KernelLeaves(tramp, tf)
              && Elems(old(k.free)) == Elems(k.free) + Nodes(t)
  {
    hide FreeList, TreeOk, Elems, Nodes, OwnsFrames, OwnedPage, Frames, Cut, MakePte, Flags, MapRange;
    root := Uvmcreate(k);
    t := Tree(root, map[], map[], map[]);
    if root == 0 {
      return;
    }
    var ok;
    ok, t := MapPage(k, root, TRAMPOLINE, tramp, TRAMP_PERM, t);
    if !ok {
      NoUserLeaves(k, t);
      ok := Uvmfree(k, root, 0, t);
      root := 0;
      return;
    }
    ghost var free2, t2 := k.free, t;
    ok, t := MapPage(k, root, TRAPFRAME, tf, TRAPF_PERM, t);
    if !ok {
      TrampFlags(tramp);
      t := k.Uvmunmap(root, TRAMPOLINE, 1, false, t);
      CutOne(map[], TRAMPOLINE, MakePte(tramp, TRAMP_PERM));
      NoUserLeaves(k, t);
      ok := Uvmfree(k, root, 0, t);
      root := 0;
      return;
    }
  }

  lemma NoUserLeaves(k: Kernel, t: Tree)
    requires t.leaf == map[]
    ensures OwnsFrames(k.mem, k.free, k.lo, k.hi, t, 0, 0)
    ensures Frames(t.leaf, 0, 0) == {}
  {
  }

  lemma TrampFlags(p: int)
    ensures Flags(MakePte(p, TRAMP_PERM)) != PTE_V
  {
    assert MakePte(p, TRAMP_PERM) == 1024 * p + 11;
  }

  lemma CutOne(leaf: map<int, int>, v: int, pte: int)
    requires v !in leaf
    ensures Cut(leaf[v := pte], v, v + 1) == leaf
  {
  }

  /** Besides user pages below n, only the trampoline and the trapframe are mapped. */
  ghost predicate ProcLeaves(leaf: map<int, int>, n: int) {
    forall v :: v in leaf ==> Flags(leaf[v]) != PTE_V && (0 <= v < n || v == TRAMPOLINE || v == TRAPFRAME)
  }

  lemma UnmapKernelPages(leaf: map<int, int>, n: int)
    requires ProcLeaves(leaf, n) && 0 <= n <= TRAPFRAME
    ensures var leaf' := Cut(Cut(leaf, TRAMPOLINE, TRAMPOLINE + 1), TRAPFRAME, TRAPFRAME + 1);
            && (forall v :: v in leaf' ==> 0 <= v < n && Flags(leaf'[v]) != PTE_V)
            && Frames(leaf', 0, n) == Frames(leaf, 0, n)
            && (forall v :: v in leaf && 0 <= v < n ==> v in leaf' && leaf'[v] == leaf[v])
  {
    hide Flags;
    var leaf' := Cut(Cut(leaf, TRAMPOLINE, TRAMPOLINE + 1), TRAPFRAME, TRAPFRAME + 1);
    assert forall v :: v in leaf && 0 <= v < n ==> v in leaf' && leaf'[v] == leaf[v];
  }

  /** The frames stay owned when table entries outside the range go. */
  lemma OwnsKept(mem: Mem, free: seq<int>, mem': Mem, free': seq<int>, lo: int, hi: int, t: Tree, t': Tree, n: int)
    requires OwnsFrames(mem, free, lo, hi, t, 0, n) && Elems(free') == Elems(free) && Nodes(t') == Nodes(t)
    requires mem'.Keys == mem.Keys
    requires forall v :: v in t'.leaf ==> v in t.leaf && t'.leaf[v] == t.leaf[v]
    ensures OwnsFrames(mem', free', lo, hi, t', 0, n)
  {
    hide Nodes;
    forall v | v in t'.leaf && 0 <= v < n
      ensures OwnedPage(mem', free', lo, hi, t', v)
    {
      assert OwnedPage(mem, free, lo, hi, t, v);
      IsElem(free, Ppn(t.leaf[v]));
      IsElem(free', Ppn(t.leaf[v]));
    }
  }

  /** `proc_freepagetable`: every table page and user frame is given back, and `freewalk` finds no leaf. */
  method ProcFreepagetable(k: Kernel, root: int, sz: int, ghost t: Tree) returns (ok: bool)
    requires KernelOk(k, t) && root == t.root && 0 <= sz && Pages(sz) <= TRAPFRAME
    requires ProcLeaves(t.leaf, Pages(sz))
    requires OwnsFrames(k.mem, k.free, k.lo, k.hi, t, 0, Pages(sz))
    modifies k
    ensures ok
    ensures FreeList(k.mem, k.head, k.free, k.lo, k.hi)
    ensures Elems(k.free) == Elems(old(k.free)) + Nodes(t) + Frames(t.leaf, 0, Pages(sz))
    ensures Changed(old(k.mem), k.mem, Nodes(t) + Frames(t.leaf, 0, Pages(sz)))
  {
    hide FreeList, TreeOk, Elems, Nodes, OwnsFrames, Frames, Cut, Flags;
    UnmapKernelPages(t.leaf, Pages(sz));
    ghost var t1 := k.Uvmunmap(root, TRAMPOLINE, 1, false, t);
    forall w | w in t1.leaf
      ensures w in t.leaf && t1.leaf[w] == t.leaf[w]
    {
      CutAt(t.leaf, TRAMPOLINE, TRAMPOLINE + 1, w);
    }
    ghost var t2 := k.Uvmunmap(root, TRAPFRAME, 1, false, t1);
    forall w | w in t2.leaf
      ensures w in t.leaf && t2.leaf[w] == t.leaf[w]
    {
      CutAt(t1.leaf, TRAPFRAME, TRAPFRAME + 1, w);
    }
    OwnsKept(old(k.mem), old(k.free), k.mem, k.free, k.lo, k.hi, t, t2, Pages(sz));
    ok := Uvmfree(k, root, sz, t2);
  }

  /** The part of `allocproc` that takes memory: a trapframe page and a page table. */
  method AllocProc(k: Kernel, tramp: int) returns (tf: int, root: int, ghost t: Tree)
    requires FreeList(k.mem, k.head, k.free, k.lo, k.hi)
    modifies k
    ensures FreeList(k.mem, k.head, k.free, k.lo, k.hi)
    ensures Changed(old(k.mem), k.mem, Elems(old(k.free)))
    ensures root == 0 ==> Elems(k.free) == Elems(old(k.free)) && |old(k.free)| < 6
    ensures root != 0 ==> |old(k.free)| - 6 <= |k.free|
    ensures root != 0 ==>
              && KernelOk(k, t) && t.root == root && t.leaf == KernelLeaves(tramp, tf)
              && k.lo <= tf < k.hi && tf in k.mem && tf !in Elems(k.free) && tf !in Nodes(t)
              && Elems(old(k.free)) == Elems(k.free) + Nodes(t) + {tf}
  {
    hide FreeList, TreeOk, Elems, Nodes, KernelLeaves;
    t := Tree(0, map[], map[], map[]);
    tf := k.Kalloc();
    if tf == 0 {
      return tf, 0, t;
    }
    NotElem(k.free, tf);
    ghost var mem1 := k.mem;
    root, t := ProcPagetable(k, tramp, tf);
    if root == 0 {
      assert tf !in k.free by { IsElem(k.free, tf); }
      k.Kfree(tf);
    }
  }
}
