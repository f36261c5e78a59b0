/** The memory of all processes, and what a process sees of its own: user memory below sz that has no
    page yet reads as zero. */
module LazyMemory {
  import opened PageTable
  import opened Vm
  import opened UserVm
  import opened ProcVm

  /** The address space of one process: its page table, its size and its trapframe page. */
  datatype Space = Space(t: Tree, sz: int, tf: int)

  /** `growproc` keeps the size in a uint and sys_sbrk returns it as an int. */
  const MAXSZ := 0x8000_0000

  /** PTE_U: user code and system calls on its behalf may use the page. */
  predicate UserBit(pte: int) {
    Flags(pte) / PTE_U % 2 == 1
  }

  ghost predicate UserLeaves(s: Space) {
    && TRAMPOLINE in s.t.leaf && TRAPFRAME in s.t.leaf
    && Flags(s.t.leaf[TRAMPOLINE]) == PTE_V + TRAMP_PERM && Flags(s.t.leaf[TRAPFRAME]) == PTE_V + TRAPF_PERM
    && forall v :: v in s.t.leaf && v != TRAMPOLINE && v != TRAPFRAME ==>
         0 <= v < Pages(s.sz) && UserBit(s.t.leaf[v])
  }

  /** The frames of the user pages. */
  ghost function UserFrames(s: Space): (r: set<int>) {
    Frames(s.t.leaf, 0, Pages(s.sz))
  }

  /** The allocator pages of an address space: tables, user pages and the trapframe. */
  ghost function Own(s: Space): (r: set<int>) {
    Nodes(s.t) + UserFrames(s) + {s.tf}
  }

  ghost predicate SpaceOk(mem: Mem, head: int, free: seq<int>, lo: int, hi: int, s: Space) {
    && Sound(mem, head, free, lo, hi, s.t)
    && 0 <= s.sz < MAXSZ
    && UserLeaves(s)
    && OwnsFrames(mem, free, lo, hi, s.t, 0, Pages(s.sz))
    && lo <= s.tf < hi && s.tf in mem && s.tf !in Elems(free) && s.tf !in Nodes(s.t) && s.tf !in UserFrames(s)
  }

  /** What the process sees: each page below sz, zero if it has no frame yet. */
  ghost function View(mem: Mem, s: Space): (r: map<int, Page>) {
    map v | 0 <= v < Pages(s.sz) :: PageView(mem, s.t.leaf, v)
  }

  ghost function PageView(mem: Mem, leaf: map<int, int>, v: int): (r: Page) {
    if v in leaf && Ppn(leaf[v]) in mem then mem[Ppn(leaf[v])] else Zero()
  }

  lemma FrameAt(leaf: map<int, int>, a: int, b: int, v: int)
    requires v in leaf && a <= v < b
    ensures Ppn(leaf[v]) in Frames(leaf, a, b)
  {
  }

  /** The pages of a process are allocated. */
  lemma OwnNotFree(mem: Mem, head: int, free: seq<int>, lo: int, hi: int, s: Space)
    requires SpaceOk(mem, head, free, lo, hi, s)
    ensures Own(s) !! Elems(free)
    ensures UserFrames(s) !! Nodes(s.t)
    ensures forall p :: p in Own(s) ==> lo <= p < hi && p in mem
  {
    hide Nodes, FreeList, TreeOk;
    forall p | p in UserFrames(s)
      ensures p !in Elems(free) && p !in Nodes(s.t) && lo <= p < hi && p in mem
    {
      var v :| v in s.t.leaf && 0 <= v < Pages(s.sz) && Ppn(s.t.leaf[v]) == p;
      assert OwnedPage(mem, free, lo, hi, s.t, v);
      IsElem(free, p);
    }
  }

  /** Work elsewhere leaves an address space and what its process sees alone. */
  lemma OtherSpace(mem: Mem, head: int, free: seq<int>, mem': Mem, head': int, free': seq<int>, lo: int, hi: int,
                   s: Space, x: set<int>)
    requires SpaceOk(mem, head, free, lo, hi, s) && FreeList(mem', head', free', lo, hi)
    requires Changed(mem, mem', x) && x !! Own(s) && Elems(free') !! Own(s)
    ensures SpaceOk(mem', head', free', lo, hi, s)
    ensures View(mem', s) == View(mem, s)
  {
    hide Nodes, FreeList, TreeOk, Elems;
    OwnNotFree(mem, head, free, lo, hi, s);
    TreeFrame(mem, mem', s.t);
    forall v | v in s.t.leaf && 0 <= v < Pages(s.sz)
      ensures OwnedPage(mem', free', lo, hi, s.t, v) && PageView(mem', s.t.leaf, v) == PageView(mem, s.t.leaf, v)
    {
      assert OwnedPage(mem, free, lo, hi, s.t, v);
      FrameAt(s.t.leaf, 0, Pages(s.sz), v);
      IsElem(free', Ppn(s.t.leaf[v]));
    }
    assert OwnsFrames(mem', free', lo, hi, s.t, 0, Pages(s.sz));
    forall v | 0 <= v < Pages(s.sz)
      ensures PageView(mem', s.t.leaf, v) == PageView(mem, s.t.leaf, v)
    {
    }
  }

  // ---------------------------------------------------------------- all processes

  ghost predicate Disjoint(spaces: map<int, Space>) {
    forall p, q :: p in spaces && q in spaces && p != q ==> Own(spaces[p]) !! Own(spaces[q])
  }

  ghost predicate AllOk(mem: Mem, head: int, free: seq<int>, lo: int, hi: int, spaces: map<int, Space>) {
    && FreeList(mem, head, free, lo, hi)
    && (forall p :: p in spaces ==> SpaceOk(mem, head, free, lo, hi, spaces[p]))
    && Disjoint(spaces)
  }

  /** The pages that belong to processes. */
  ghost function AllOwned(spaces: map<int, Space>): (r: set<int>) {
    set p, x | p in spaces && x in Own(spaces[p]) :: x
  }

  /** Every page of the pool is free or belongs to exactly one process. */
  ghost predicate Conserved(free: seq<int>, spaces: map<int, Space>, pool: set<int>) {
    Elems(free) + AllOwned(spaces) == pool
  }

  lemma OwnedIn(spaces: map<int, Space>, p: int, x: int)
    requires p in spaces && x in Own(spaces[p])
    ensures x in AllOwned(spaces)
  {
  }

  lemma OwnerOf(spaces: map<int, Space>, x: int) returns (p: int)
    requires x in AllOwned(spaces)
    ensures p in spaces && x in Own(spaces[p])
  {
    p :| p in spaces && x in Own(spaces[p]);
  }

  /** A step on process p that trades pages only with the free list. */
  lemma ReplaceSpace(mem: Mem, head: int, free: seq<int>, mem': Mem, head': int, free': seq<int>, lo: int, hi: int,
                     spaces: map<int, Space>, p: int, s': Space, pool: set<int>)
    requires AllOk(mem, head, free, lo, hi, spaces) && p in spaces && Conserved(free, spaces, pool)
    requires SpaceOk(mem', head', free', lo, hi, s')
    requires Changed(mem, mem', Elems(free) + Own(spaces[p]))
    requires Elems(free') + Own(s') == Elems(free) + Own(spaces[p])
    ensures AllOk(mem', head', free', lo, hi, spaces[p := s']) && Conserved(free', spaces[p := s'], pool)
    ensures forall q :: q in spaces && q != p ==> View(mem', spaces[q]) == View(mem, spaces[q])
  {
    hide SpaceOk, View, Elems, Own;
    OwnFree(mem, head, free, lo, hi, spaces[p]);
    OwnFree(mem', head', free', lo, hi, s');
    forall q | q in spaces && q != p
      ensures SpaceOk(mem', head', free', lo, hi, spaces[q]) && View(mem', spaces[q]) == View(mem, spaces[q])
      ensures Own(spaces[q]) !! Own(s')
    {
      OwnFree(mem, head, free, lo, hi, spaces[q]);
      OtherSpace(mem, head, free, mem', head', free', lo, hi, spaces[q], Elems(free) + Own(spaces[p]));
    }
    OwnedReplace(spaces, p, s');
    hide AllOwned;
  }

  lemma OwnFree(mem: Mem, head: int, free: seq<int>, lo: int, hi: int, s: Space)
    requires SpaceOk(mem, head, free, lo, hi, s)
    ensures Own(s) !! Elems(free) && FreeList(mem, head, free, lo, hi)
  {
    OwnNotFree(mem, head, free, lo, hi, s);
  }

  lemma OwnSubset(spaces: map<int, Space>, p: int)
    requires p in spaces
    ensures Own(spaces[p]) <= AllOwned(spaces)
  {
    forall x | x in Own(spaces[p])
      ensures x in AllOwned(spaces)
    {
      OwnedIn(spaces, p, x);
    }
  }

  lemma OwnedReplace(spaces: map<int, Space>, p: int, s': Space)
    requires p in spaces
    ensures AllOwned(spaces[p := s']) + Own(spaces[p]) == AllOwned(spaces) + Own(s')
    ensures Own(spaces[p]) <= AllOwned(spaces) && Own(s') <= AllOwned(spaces[p := s'])
  {
    hide Own;
    OwnSubset(spaces, p);
    OwnSubset(spaces[p := s'], p);
    var spaces' := spaces[p := s'];
    forall x | x in AllOwned(spaces') + Own(spaces[p])
      ensures x in AllOwned(spaces) + Own(s')
    {
      if x in AllOwned(spaces') {
        var q := OwnerOf(spaces', x);
        if q != p {
          OwnedIn(spaces, q, x);
        }
      } else {
        OwnedIn(spaces, p, x);
      }
    }
    forall x | x in AllOwned(spaces) + Own(s')
      ensures x in AllOwned(spaces') + Own(spaces[p])
    {
      if x in Own(s') {
        OwnedIn(spaces', p, x);
      } else {
        var q := OwnerOf(spaces, x);
        if q != p {
          OwnedIn(spaces', q, x);
        }
      }
    }
  }

  /** A new process takes its pages from the free list. */
  lemma AddSpace(mem: Mem, head: int, free: seq<int>, mem': Mem, head': int, free': seq<int>, lo: int, hi: int,
                 spaces: map<int, Space>, c: int, s': Space, pool: set<int>)
    requires AllOk(mem, head, free, lo, hi, spaces) && c !in spaces && Conserved(free, spaces, pool)
    requires SpaceOk(mem', head', free', lo, hi, s')
    requires Changed(mem, mem', Elems(free))
    requires Elems(free') + Own(s') == Elems(free)
    ensures AllOk(mem', head', free', lo, hi, spaces[c := s']) && Conserved(free', spaces[c := s'], pool)
    ensures forall q :: q in spaces ==> View(mem', spaces[q]) == View(mem, spaces[q])
  {
    hide SpaceOk, View, Elems, Own;
    OwnFree(mem', head', free', lo, hi, s');
    forall q | q in spaces
      ensures SpaceOk(mem', head', free', lo, hi, spaces[q]) && View(mem', spaces[q]) == View(mem, spaces[q])
      ensures Own(spaces[q]) !! Own(s')
    {
      OwnFree(mem, head, free, lo, hi, spaces[q]);
      OtherSpace(mem, head, free, mem', head', free', lo, hi, spaces[q], Elems(free));
    }
    OwnedAdd(spaces, c, s');
    hide AllOwned;
  }

  lemma OwnedAdd(spaces: map<int, Space>, c: int, s': Space)
    requires c !in spaces
    ensures AllOwned(spaces[c := s']) == AllOwned(spaces) + Own(s')
  {
    hide Own;
    OwnSubset(spaces[c := s'], c);
    forall x | x in AllOwned(spaces[c := s']) && x !in Own(s')
      ensures x in AllOwned(spaces)
    {
      var q := OwnerOf(spaces[c := s'], x);
      OwnedIn(spaces, q, x);
    }
    forall x | x in AllOwned(spaces)
      ensures x in AllOwned(spaces[c := s'])
    {
      var q := OwnerOf(spaces, x);
      OwnedIn(spaces[c := s'], q, x);
    }
  }

  /** A process that is freed gives all its pages back. */
  lemma RemoveSpace(mem: Mem, head: int, free: seq<int>, mem': Mem, head': int, free': seq<int>, lo: int, hi: int,
                    spaces: map<int, Space>, p: int, pool: set<int>)
    requires AllOk(mem, head, free, lo, hi, spaces) && p in spaces && Conserved(free, spaces, pool)
    requires FreeList(mem', head', free', lo, hi)
    requires Changed(mem, mem', Own(spaces[p]))
    requires Elems(free') == Elems(free) + Own(spaces[p])
    ensures AllOk(mem', head', free', lo, hi, spaces - {p}) && Conserved(free', spaces - {p}, pool)
    ensures forall q :: q in spaces && q != p ==> View(mem', spaces[q]) == View(mem, spaces[q])
  {
    hide SpaceOk, View, Elems, Own, FreeList;
    forall q | q in spaces && q != p
      ensures SpaceOk(mem', head', free', lo, hi, spaces[q]) && View(mem', spaces[q]) == View(mem, spaces[q])
    {
      OwnFree(mem, head, free, lo, hi, spaces[q]);
      OtherSpace(mem, head, free, mem', head', free', lo, hi, spaces[q], Own(spaces[p]));
    }
    assert spaces == (spaces - {p})[p := spaces[p]];
    OwnedAdd(spaces - {p}, p, spaces[p]);
    hide AllOwned;
  }

  // ---------------------------------------------------------------- steps of one process

  /** Page v below sz got a zeroed frame p: the process sees no difference. */
  lemma FaultedSpace(mem: Mem, head: int, free: seq<int>, mem': Mem, head': int, free': seq<int>, lo: int, hi: int,
                     s: Space, t': Tree, v: int, p: int, perm: int)
    requires SpaceOk(mem, head, free, lo, hi, s) && Sound(mem', head', free', lo, hi, t')
    requires 0 <= v < Pages(s.sz) && v !in s.t.leaf && 1 < perm < 1024 && UserBit(perm)
    requires AddedFrame(free, s.t, free', t', v, p, perm)
    requires Changed(mem, mem', Elems(free) + Nodes(s.t))
    requires lo <= p < hi && p in mem' && mem'[p] == Zero()
    ensures SpaceOk(mem', head', free', lo, hi, s.(t := t'))
    ensures View(mem', s.(t := t')) == View(mem, s)
    ensures Elems(free') + Own(s.(t := t')) == Elems(free) + Own(s)
  {
    hide FreeList, TreeOk, Nodes, Elems;
    var s' := s.(t := t');
    MadeFields(p, perm);
    hide MakePte;
    OwnNotFree(mem, head, free, lo, hi, s);
    FramesInsert(s.t.leaf, t'.leaf, 0, Pages(s.sz), v);
    forall w | w in s.t.leaf && 0 <= w < Pages(s.sz)
      ensures OwnedPage(mem', free', lo, hi, t', w) && Ppn(s.t.leaf[w]) != p
      ensures PageView(mem', t'.leaf, w) == PageView(mem, s.t.leaf, w)
    {
      assert OwnedPage(mem, free, lo, hi, s.t, w);
      FrameAt(s.t.leaf, 0, Pages(s.sz), w);
      IsElem(free', Ppn(s.t.leaf[w]));
    }
    assert OwnedPage(mem', free', lo, hi, t', v) by { IsElem(free', p); }
    assert OwnsFrames(mem', free', lo, hi, t', 0, Pages(s.sz));
    assert Pages(s.sz) <= TRAPFRAME;
  }

  lemma MadeFields(p: int, perm: int)
    requires 1 < perm < 1024 && UserBit(perm)
    ensures Ppn(MakePte(p, perm)) == p && UserBit(MakePte(p, perm))
  {
    assert MakePte(p, perm) == 1024 * p + if perm % 2 == 1 then perm else perm + 1;
  }

  lemma FramesInsert(leaf: map<int, int>, leaf': map<int, int>, a: int, b: int, v: int)
    requires v !in leaf && v in leaf' && leaf' == leaf[v := leaf'[v]] && a <= v < b
    ensures Frames(leaf', a, b) == Frames(leaf, a, b) + {Ppn(leaf'[v])}
  {
    assert forall w :: w in leaf ==> w in leaf' && leaf'[w] == leaf[w];
  }

  /** Only tables were added. */
  lemma GrownSpace(mem: Mem, head: int, free: seq<int>, mem': Mem, head': int, free': seq<int>, lo: int, hi: int,
                   s: Space, t': Tree)
    requires SpaceOk(mem, head, free, lo, hi, s) && Sound(mem', head', free', lo, hi, t')
    requires t'.leaf == s.t.leaf && Nodes(s.t) <= Nodes(t') && Elems(free) == Elems(free') + (Nodes(t') - Nodes(s.t))
    requires Changed(mem, mem', Elems(free) + Nodes(s.t))
    ensures SpaceOk(mem', head', free', lo, hi, s.(t := t'))
    ensures View(mem', s.(t := t')) == View(mem, s)
    ensures Elems(free') + Own(s.(t := t')) == Elems(free) + Own(s)
  {
    hide FreeList, TreeOk, Nodes, Elems;
    OwnNotFree(mem, head, free, lo, hi, s);
    OwnsFail(mem, free, s.t, mem', free', t', lo, hi, 0, Pages(s.sz));
    forall w | w in s.t.leaf && 0 <= w < Pages(s.sz)
      ensures PageView(mem', t'.leaf, w) == PageView(mem, s.t.leaf, w)
    {
      FrameAt(s.t.leaf, 0, Pages(s.sz), w);
    }
  }

  lemma FramesSplit(leaf: map<int, int>, a: int, b: int, c: int)
    requires a <= b <= c
    ensures Frames(leaf, a, c) == Frames(Cut(leaf, b, c), a, b) + Frames(leaf, b, c)
    ensures Frames(Cut(leaf, b, c), a, b) == Frames(leaf, a, b)
  {
    assert forall v :: v in leaf && a <= v < b ==> v in Cut(leaf, b, c) && Cut(leaf, b, c)[v] == leaf[v];
  }

  lemma OwnsPart(mem: Mem, free: seq<int>, lo: int, hi: int, t: Tree, a: int, b: int, c: int)
    requires OwnsFrames(mem, free, lo, hi, t, a, c) && a <= b <= c
    ensures OwnsFrames(mem, free, lo, hi, t, b, c)
    ensures Frames(t.leaf, a, b) !! Frames(t.leaf, b, c)
  {
  }

  lemma ShrunkFrames(mem: Mem, free: seq<int>, mem': Mem, free': seq<int>, lo: int, hi: int, t: Tree, t': Tree,
                     a: int, b: int)
    requires OwnsFrames(mem, free, lo, hi, t, 0, b) && 0 <= a <= b
    requires t' == t.(leaf := Cut(t.leaf, a, b)) && Nodes(t') == Nodes(t)
    requires Elems(free') == Elems(free) + Frames(t.leaf, a, b)
    requires Changed(mem, mem', Nodes(t) + Frames(t.leaf, a, b))
    ensures OwnsFrames(mem', free', lo, hi, t', 0, a)
    ensures forall w :: 0 <= w < a ==> PageView(mem', t'.leaf, w) == PageView(mem, t.leaf, w)
  {
    hide Nodes, Elems;
    OwnsPart(mem, free, lo, hi, t, 0, a, b);
    forall w | w in t.leaf && 0 <= w < a
      ensures w in t'.leaf && t'.leaf[w] == t.leaf[w]
      ensures OwnedPage(mem', free', lo, hi, t', w)
      ensures PageView(mem', t'.leaf, w) == PageView(mem, t.leaf, w)
    {
      assert OwnedPage(mem, free, lo, hi, t, w);
      FrameAt(t.leaf, 0, a, w);
      IsElem(free, Ppn(t.leaf[w]));
      IsElem(free', Ppn(t.leaf[w]));
    }
  }

  /** The pages from Pages(newsz) on were unmapped and freed. */
  lemma ShrunkSpace(mem: Mem, head: int, free: seq<int>, mem': Mem, head': int, free': seq<int>, lo: int, hi: int,
                    s: Space, t': Tree, newsz: int)
    requires SpaceOk(mem, head, free, lo, hi, s) && Sound(mem', head', free', lo, hi, t')
    requires 0 <= newsz < s.sz
    requires t' == s.t.(leaf := Cut(s.t.leaf, Pages(newsz), Pages(s.sz))) && Nodes(t') == Nodes(s.t)
    requires Elems(free') == Elems(free) + Frames(s.t.leaf, Pages(newsz), Pages(s.sz))
    requires Changed(mem, mem', Nodes(s.t) + Frames(s.t.leaf, Pages(newsz), Pages(s.sz)))
    ensures SpaceOk(mem', head', free', lo, hi, Space(t', newsz, s.tf))
    ensures View(mem', Space(t', newsz, s.tf)) == map v | v in View(mem, s) && v < Pages(newsz) :: View(mem, s)[v]
    ensures Elems(free') + Own(Space(t', newsz, s.tf)) == Elems(free) + Own(s)
  {
    hide FreeList, TreeOk, Nodes, Elems, OwnsFrames, Frames, PageView;
    var a, b := Pages(newsz), Pages(s.sz);
    OwnNotFree(mem, head, free, lo, hi, s);
    FramesSplit(s.t.leaf, 0, a, b);
    OwnsPart(mem, free, lo, hi, s.t, 0, a, b);
    ShrunkFrames(mem, free, mem', free', lo, hi, s.t, t', a, b);
    assert b <= TRAPFRAME;
  }

  /** A store to word w of the frame of page v. */
  lemma StoredSpace(mem: Mem, head: int, free: seq<int>, lo: int, hi: int, s: Space, v: int, w: int, x: int)
    requires SpaceOk(mem, head, free, lo, hi, s) && v in s.t.leaf && 0 <= v < Pages(s.sz) && 0 <= w < 512
    ensures var f := Ppn(s.t.leaf[v]);
            && f in mem && f in Own(s)
            && var mem' := mem[f := mem[f][w := x]];
            && SpaceOk(mem', head, free, lo, hi, s)
            && View(mem', s) == View(mem, s)[v := View(mem, s)[v][w := x]]
  {
    hide FreeList, TreeOk, Nodes, Elems;
    OwnNotFree(mem, head, free, lo, hi, s);
    FrameAt(s.t.leaf, 0, Pages(s.sz), v);
    var f := Ppn(s.t.leaf[v]);
    assert OwnedPage(mem, free, lo, hi, s.t, v);
    var mem' := mem[f := mem[f][w := x]];
    TreeFrame(mem, mem', s.t);
    IsElem(free, f);
    FreeFrame(mem, mem', head, free, lo, hi);
    forall u | u in s.t.leaf && 0 <= u < Pages(s.sz)
      ensures OwnedPage(mem', free, lo, hi, s.t, u)
    {
      assert OwnedPage(mem, free, lo, hi, s.t, u);
    }
    forall u | 0 <= u < Pages(s.sz)
      ensures PageView(mem', s.t.leaf, u) == if u == v then PageView(mem, s.t.leaf, v)[w := x]
              else PageView(mem, s.t.leaf, u)
    {
    }
  }
}
