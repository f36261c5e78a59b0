/** Processes that grow, shrink, fault, load, store, fork and are freed, over the lazily allocated
    memory of kernel/trap.c, kernel/sysproc.c and kernel/vm.c. The invariant of the machine is the
    refinement itself: in every state that any run of these operations reaches, what each process sees
    is what eagerly allocated, zero-filled memory would hold after the same stores and resizes. */
module LazyMachine {
  import opened PageTable
  import opened Vm
  import opened UserVm
  import opened ProcVm
  import opened LazyMemory
  import opened Sets

  // ---------------------------------------------------------------- eager memory

  /** Memory in which every page below sz exists. */
  datatype Eager = Eager(sz: int, pages: map<int, Page>)

  datatype Event = Resized(sz: int) | Stored(v: int, w: int, x: int)

  ghost function Resize(e: Eager, sz: int): (r: Eager) {
    Eager(sz, map v | 0 <= v < Pages(sz) :: if v in e.pages then e.pages[v] else Zero())
  }

  ghost function Write(e: Eager, v: int, w: int, x: int): (r: Eager) {
    if v in e.pages && 0 <= w < 512 then e.(pages := e.pages[v := e.pages[v][w := x]]) else e
  }

  ghost function Replay(log: seq<Event>): (e: Eager)
    ensures forall v :: v in e.pages <==> 0 <= v < Pages(e.sz)
  {
    if log == [] then Eager(0, map[])
    else
      var e := Replay(log[..|log| - 1]);
      match log[|log| - 1]
      case Resized(sz) => Resize(e, sz)
      case Stored(v, w, x) => Write(e, v, w, x)
  }

  ghost function SizeOf(log: seq<Event>): (sz: int) {
    Replay(log).sz
  }

  /** The last value stored at word w of page v since the page was last beyond the size, else zero. */
  ghost function LastStored(log: seq<Event>, v: int, w: int): (x: int) {
    if log == [] then 0
    else
      var rest := log[..|log| - 1];
      match log[|log| - 1]
      case Resized(sz) => if v < Pages(sz) then LastStored(rest, v, w) else 0
      case Stored(v', w', x) => if v' == v && w' == w then x else LastStored(rest, v, w)
  }

  /** Stores happen only to pages below the size. */
  ghost predicate GoodLog(log: seq<Event>) {
    log != [] ==>
      && GoodLog(log[..|log| - 1])
      && var last := log[|log| - 1];
         && (last.Stored? ==> last.v in Replay(log[..|log| - 1]).pages && 0 <= last.w < 512)
         && (last.Resized? ==> last.sz >= 0)
  }

  /** Eager memory is exactly the last stores. */
  lemma {:induction false} ReplayIsLastStored(log: seq<Event>, v: int, w: int)
    requires GoodLog(log) && 0 <= w < 512
    ensures var e := Replay(log);
            if v in e.pages then e.pages[v][w] == LastStored(log, v, w) else v >= 0 ==> LastStored(log, v, w) == 0
  {
    if log != [] {
      ReplayIsLastStored(log[..|log| - 1], v, w);
    }
  }

  // ---------------------------------------------------------------- the machine

  /** What process s sees, as eager memory. */
  ghost function Memory(mem: Mem, s: Space): (e: Eager) {
    Eager(s.sz, View(mem, s))
  }

  datatype Proc = Proc(root: int, sz: int, tf: int, killed: bool)

  ghost predicate Matches(p: Proc, s: Space) {
    p.root == s.t.root && p.sz == s.sz && p.tf == s.tf
  }

  /** Each process sees the eager memory of its own history. */
  ghost predicate Refines(mem: Mem, procs: map<int, Proc>, spaces: map<int, Space>, logs: map<int, seq<Event>>) {
    && procs.Keys == spaces.Keys == logs.Keys
    && forall p :: p in spaces ==>
         Matches(procs[p], spaces[p]) && GoodLog(logs[p]) && Memory(mem, spaces[p]) == Replay(logs[p])
  }

  ghost predicate MachineOk(mem: Mem, head: int, free: seq<int>, lo: int, hi: int, procs: map<int, Proc>,
                            spaces: map<int, Space>, logs: map<int, seq<Event>>, pool: set<int>) {
    && AllOk(mem, head, free, lo, hi, spaces)
    && Conserved(free, spaces, pool)
    && Refines(mem, procs, spaces, logs)
  }

  /** A step of process p that its history explains. */
  lemma StepOk(mem: Mem, head: int, free: seq<int>, mem': Mem, head': int, free': seq<int>, lo: int, hi: int,
               procs: map<int, Proc>,
               spaces: map<int, Space>, logs: map<int, seq<Event>>, pool: set<int>, p: int, proc': Proc, s': Space,
                   log': seq<Event>)
    requires MachineOk(mem, head, free, lo, hi, procs, spaces, logs, pool) && p in spaces
    requires SpaceOk(mem', head', free', lo, hi, s') && Matches(proc', s')
    requires Changed(mem, mem', Elems(free) + Own(spaces[p])) && Elems(free') + Own(s') == Elems(free) + Own(spaces[p])
    requires GoodLog(log') && Memory(mem', s') == Replay(log')
    ensures MachineOk(mem', head', free', lo, hi, procs[p := proc'], spaces[p := s'], logs[p := log'], pool)
  {
    hide AllOk, SpaceOk, Conserved, Own, Elems, View, Replay, GoodLog;
    ReplaceSpace(mem, head, free, mem', head', free', lo, hi, spaces, p, s', pool);
  }

  lemma ReplayAppend(log: seq<Event>, ev: Event)
    ensures Replay(log + [ev]) == if ev.Resized? then Resize(Replay(log), ev.sz)
            else Write(Replay(log), ev.v, ev.w, ev.x)
    ensures GoodLog(log) && (ev.Stored? ==> ev.v in Replay(log).pages && 0 <= ev.w < 512) && (ev.Resized? ==>
                ev.sz >= 0)
            ==> GoodLog(log + [ev])
  {
    assert (log + [ev])[..|log|] == log;
  }

  /** Growing sz alone shows the process zeroes. */
  lemma ResizeUp(mem: Mem, head: int, free: seq<int>, lo: int, hi: int, s: Space, sz: int, log: seq<Event>)
    requires SpaceOk(mem, head, free, lo, hi, s) && s.sz <= sz < MAXSZ
    requires GoodLog(log) && Memory(mem, s) == Replay(log)
    ensures var s' := s.(sz := sz);
            && SpaceOk(mem, head, free, lo, hi, s') && Own(s') == Own(s)
            && GoodLog(log + [Resized(sz)]) && Memory(mem, s') == Replay(log + [Resized(sz)])
  {
    hide FreeList, TreeOk, Nodes, Elems, GoodLog, Replay;
    ReplayAppend(log, Resized(sz));
    OwnsMore(mem, free, mem, free, s.t, lo, hi, 0, Pages(s.sz), Pages(sz));
  }

  lemma ResizeDown(mem: Mem, head: int, free: seq<int>, mem': Mem, head': int, free': seq<int>, lo: int, hi: int,
                   s: Space, t': Tree, sz: int, log: seq<Event>)
    requires SpaceOk(mem, head, free, lo, hi, s) && Sound(mem', head', free', lo, hi, t')
    requires 0 <= sz < s.sz
    requires t' == s.t.(leaf := Cut(s.t.leaf, Pages(sz), Pages(s.sz))) && Nodes(t') == Nodes(s.t)
    requires Elems(free') == Elems(free) + Frames(s.t.leaf, Pages(sz), Pages(s.sz))
    requires Changed(mem, mem', Nodes(s.t) + Frames(s.t.leaf, Pages(sz), Pages(s.sz)))
    requires GoodLog(log) && Memory(mem, s) == Replay(log)
    ensures var s' := Space(t', sz, s.tf);
            && SpaceOk(mem', head', free', lo, hi, s') && Elems(free') + Own(s') == Elems(free) + Own(s)
            && Changed(mem, mem', Elems(free) + Own(s))
            && GoodLog(log + [Resized(sz)]) && Memory(mem', s') == Replay(log + [Resized(sz)])
  {
    hide FreeList, TreeOk, Nodes, Elems, GoodLog, Replay, SpaceOk, PageView, UserLeaves, OwnsFrames;
    ShrunkSpace(mem, head, free, mem', head', free', lo, hi, s, t', sz);
    ReplayAppend(log, Resized(sz));
    FramesSplit(s.t.leaf, 0, Pages(sz), Pages(s.sz));
    hide Frames, Cut;
    var s' := Space(t', sz, s.tf);
    assert View(mem', s') == Resize(Replay(log), sz).pages;
  }

  /** The memory of a forked child: a trapframe, a page table and a copy of the parent's pages. If any
      allocation fails, everything is given back. */
  method ForkMemory(k: Kernel, tramp: int, parent: int, sz: int, ghost s: Space) returns (tf: int, root: int,
                    ghost s': Space)
    requires SpaceOk(k.mem, k.head, k.free, k.lo, k.hi, s) && parent == s.t.root && sz == s.sz
    modifies k
    ensures FreeList(k.mem, k.head, k.free, k.lo, k.hi) && Changed(old(k.mem), k.mem, Elems(old(k.free)))
    ensures root == 0 ==> Elems(k.free) == Elems(old(k.free)) && |old(k.free)| < 6 + 3 * |Resident(s)|
    ensures root != 0 ==> |old(k.free)| - 6 - 3 * |Resident(s)| <= |k.free|
    ensures root != 0 ==>
              && SpaceOk(k.mem, k.head, k.free, k.lo, k.hi, s') && s'.t.root == root && s'.sz == sz && s'.tf == tf
              && Elems(k.free) + Own(s') == Elems(old(k.free))
              && View(k.mem, s') == View(old(k.mem), s) && Resident(s') == Resident(s)
  {
    hide Own, Elems, View, Nodes, FreeList, TreeOk, KernelLeaves, OwnsFrames, Took, Frames, Copied, Cut, UserLeaves,
         MappedCount;
    ghost var mem0, head0, free0 := k.mem, k.head, k.free;
    s' := s;
    assert MappedCount(s.t.leaf, Pages(s.sz)) == |Resident(s)| by { MappedIs(s.t.leaf, Pages(s.sz)); }
    ghost var u, u';
    tf, root, u := AllocProc(k, tramp);
    if root == 0 {
      return;
    }
    ghost var mem1, head1, free1 := k.mem, k.head, k.free;
    CanCopy(mem0, head0, free0, k.mem, k.head, k.free, k.lo, k.hi, s, u, tramp, tf);
    var ok;
    ok, u' := Uvmcopy(k, parent, root, sz, s.t, u);
    if !ok {
      FailedCopy(k.lo, k.hi, u', tramp, tf);
      UndoAlloc(k, tf, root, u');
      root := 0;
    } else {
      ForkSpace(mem0, head0, free0, mem1, head1, free1, k.mem, k.head, k.free, k.lo, k.hi, s, u, u', tramp, tf);
      s' := Space(u', sz, tf);
    }
  }

  /** `freeproc` of a process that got no user memory. */
  method UndoAlloc(k: Kernel, tf: int, root: int, ghost u: Tree)
    requires KernelOk(k, u) && root == u.root && k.lo <= tf < k.hi && tf in k.mem && tf !in Elems(k.free)
             && tf !in Nodes(u)
    requires ProcLeaves(u.leaf, 0) && Frames(u.leaf, 0, 0) == {}
    modifies k
    ensures FreeList(k.mem, k.head, k.free, k.lo, k.hi)
    ensures Elems(k.free) == Elems(old(k.free)) + Nodes(u) + {tf}
    ensures Changed(old(k.mem), k.mem, Nodes(u) + {tf})
  {
    hide Elems, Nodes, FreeList, TreeOk, Frames, ProcLeaves;
    IsElem(k.free, tf);
    k.Kfree(tf);
    TreeFrame(old(k.mem), k.mem, u);
    StartEmpty(k.mem, k.free, k.lo, k.hi, u, 0);
    var ok := ProcFreepagetable(k, root, 0, u);
  }

  /** The user pages that have a frame. */
  ghost function Resident(s: Space): (r: set<int>) {
    set v | v in s.t.leaf && 0 <= v < Pages(s.sz)
  }

  ghost function Residents(spaces: map<int, Space>): (r: map<int, set<int>>) {
    map p | p in spaces :: Resident(spaces[p])
  }

  lemma ResidentsSet(spaces: map<int, Space>, p: int, s: Space)
    ensures Residents(spaces[p := s]) == Residents(spaces)[p := Resident(s)]
    ensures p in spaces ==> Residents(spaces)[p := Resident(spaces[p])] == Residents(spaces)
  {
    hide Resident;
  }

  lemma ResidentsRemove(spaces: map<int, Space>, p: int)
    ensures Residents(spaces - {p}) == Residents(spaces) - {p}
  {
    hide Resident;
  }

  lemma NoneResident(u: Tree, tf: int)
    ensures Resident(Space(u, 0, tf)) == {}
  {
  }

  /** The pages with a frame after one was given to page v, or not. */
  ghost function Plus(r: set<int>, given: bool, v: int): (r': set<int>)
    ensures v in r ==> r' == r
  {
    if given then r + {v} else r
  }

  lemma ResidentAdd(s: Space, t': Tree, v: int)
    requires 0 <= v < Pages(s.sz) && v in t'.leaf && t'.leaf == s.t.leaf[v := t'.leaf[v]]
    ensures Resident(s.(t := t')) == Resident(s) + {v}
  {
  }

  /** The pages with a frame after the size changed by n to sz. */
  ghost function Shrunk(r: set<int>, n: int, sz: int): (r': set<int>) {
    if n < 0 then set v | v in r && v < Pages(sz) else r
  }

  lemma ResidentGrow(s: Space, sz: int)
    requires UserLeaves(s) && 0 <= s.sz <= sz < MAXSZ
    ensures Resident(s.(sz := sz)) == Resident(s)
  {
  }

  lemma ResidentCut(s: Space, t': Tree, sz: int)
    requires 0 <= sz <= s.sz && t'.leaf == Cut(s.t.leaf, Pages(sz), Pages(s.sz))
    ensures Resident(Space(t', sz, s.tf)) == set v | v in Resident(s) && v < Pages(sz)
  {
  }

  /** The pages of n words from va on. */
  ghost function PagesOf(va: int, n: nat): (r: set<int>) {
    set i | 0 <= i < n :: (va + 8 * i) / PGSIZE
  }

  lemma NoPages(va: int, r: set<int>)
    ensures r + PagesOf(va, 0) == r && PagesBefore(va, 0) == 0
  {
  }

  /** The number of pages that the words before word i reach into. */
  function PagesBefore(va: int, i: nat): (n: int) {
    if i == 0 then 0 else (va + 8 * i - 1) / PGSIZE - va / PGSIZE + 1
  }

  lemma PagesSpanned(va: int, i: nat, end: nat, v: int)
    requires 0 <= va && va % 8 == 0 && 0 <= v == (va + 8 * i) / PGSIZE && i < end
    requires va + 8 * end <= (v + 1) * PGSIZE && (i == 0 || (va + 8 * i) % PGSIZE == 0)
    ensures PagesBefore(va, i) == v - va / PGSIZE && PagesBefore(va, end) == PagesBefore(va, i) + 1
    ensures PagesBefore(va, end) <= (va + 8 * end) / PGSIZE - va / PGSIZE + 1
  {
    assert (va + 8 * end - 1) / PGSIZE == v;
    if i != 0 {
      assert va + 8 * i == v * PGSIZE;
      assert (va + 8 * i - 1) / PGSIZE == v - 1;
    }
  }

  lemma PagesMore(va: int, i: nat, end: nat, v: int)
    requires 0 <= va && 0 <= v && i < end && v * PGSIZE <= va + 8 * i && va + 8 * end <= (v + 1) * PGSIZE
    ensures PagesOf(va, end) == PagesOf(va, i) + {v}
  {
    forall k | i <= k < end
      ensures (va + 8 * k) / PGSIZE == v
    {
      WithinPage(va + 8 * k, v);
    }
    assert (va + 8 * i) / PGSIZE in PagesOf(va, end);
  }

  /** Every word of n from va on is in a page that has a frame, or that starts below sz and not below the
      stack pointer, so that `walkaddr` gives it one. */
  ghost predicate Reaches(res: set<int>, sz: int, va: int, n: nat, sp: int) {
    forall i :: 0 <= i < n ==> ReachesWord(res, sz, va + 8 * i, sp)
  }

  ghost predicate ReachesWord(res: set<int>, sz: int, va: int, sp: int) {
    va / PGSIZE in res || sp <= PageStart(va / PGSIZE) < sz
  }

  lemma ReachedPage(res: set<int>, sz: int, va: int, n: nat, v: int, sp: int)
    requires Reaches(res, sz, va, n, sp)
    ensures v in PagesOf(va, n) ==> v in res || sp <= PageStart(v) < sz
  {
    if v in PagesOf(va, n) {
      var i :| 0 <= i < n && (va + 8 * i) / PGSIZE == v;
      assert ReachesWord(res, sz, va + 8 * i, sp);
    }
  }

  lemma ReachesMore(res: set<int>, sz: int, va: int, i: nat, end: nat, v: int, sp: int)
    requires Reaches(res, sz, va, i, sp) && (v in res || sp <= PageStart(v) < sz)
    requires 0 <= va && 0 <= v && i < end && v * PGSIZE <= va + 8 * i && va + 8 * end <= (v + 1) * PGSIZE
    ensures Reaches(res, sz, va, end, sp)
  {
    forall k | 0 <= k < end
      ensures ReachesWord(res, sz, va + 8 * k, sp)
    {
      if k >= i {
        WithinPage(va + 8 * k, v);
      }
    }
  }

  /** A load or store. A page that has a frame is never refused. Another one is refused if the address is not
      below sz or the page is below that of the stack pointer, and otherwise gets a frame if three pages are
      free: the frame and two tables. */
  ghost predicate AccessOk(spaces: map<int, Space>, spaces': map<int, Space>, p: int, va: int, sp: int, kill: bool,
                           free0: seq<int>, free: seq<int>) {
    && p in spaces
    && var s, v := spaces[p], va / PGSIZE;
       && (v in Resident(s) ==> !kill && free == free0)
       && (v !in Resident(s) && (va >= s.sz || v < sp / PGSIZE) ==> kill && free == free0)
       && (v !in Resident(s) && va < s.sz && v >= sp / PGSIZE ==>
             && (kill ==> |free| <= 1 && |free0| < 3)
             && |free0| - 3 <= |free| <= |free0|)
       && Residents(spaces') == Residents(spaces)[p := Plus(Resident(s), !kill, v)]
  }

  /** A copy of n words from va on, between the kernel and the pages of process p. It stops only at a page
      that has no frame, because `walkaddr` gives it none or because there is no memory: three free pages
      are enough for each page of the copy. */
  ghost predicate CopyOk(spaces: map<int, Space>, spaces': map<int, Space>, p: int, va: int, n: nat, sp: int, ok: bool,
                         free0: seq<int>, free: seq<int>) {
    && p in spaces
    && var s, v := spaces[p], (va + 8 * n) / PGSIZE;
       && Reaches(Resident(s), s.sz, va, n, sp)
       && Residents(spaces') == Residents(spaces)[p := Resident(s) + PagesOf(va, n)]
       && |free0| - 3 * (v - va / PGSIZE + 1) <= |free| <= |free0|
       && (!ok ==>
             && v !in Resident(s)
             && (sp <= PageStart(v) < s.sz ==> |free| <= 1 && |free0| < 3 * (v - va / PGSIZE + 1)))
  }

  /** A copy of n words from va on has done the first i, up to the end of a page or of the copy. */
  ghost predicate Copying(spaces: map<int, Space>, spaces': map<int, Space>, p: int, va: int, i: nat, n: nat, sp: int,
                          free0: seq<int>, free: seq<int>) {
    && p in spaces && 0 <= va && va % 8 == 0
    && (i == 0 || i == n || (va + 8 * i) % PGSIZE == 0)
    && |free0| - 3 * PagesBefore(va, i) <= |free| <= |free0|
    && PagesBefore(va, i) <= (va + 8 * i) / PGSIZE - va / PGSIZE + 1
    && Reaches(Resident(spaces[p]), spaces[p].sz, va, i, sp)
    && Residents(spaces') == Residents(spaces)[p := Resident(spaces[p]) + PagesOf(va, i)]
  }

  lemma StartCopy(spaces: map<int, Space>, p: int, va: int, n: nat, sp: int, free: seq<int>)
    requires p in spaces && 0 <= va && va % 8 == 0
    ensures Copying(spaces, spaces, p, va, 0, n, sp, free, free)
  {
    NoPages(va, Resident(spaces[p]));
    ResidentsSet(spaces, p, spaces[p]);
  }

  lemma CopyDone(spaces: map<int, Space>, spaces': map<int, Space>, p: int, va: int, n: nat, sp: int,
                 free0: seq<int>, free: seq<int>)
    requires Copying(spaces, spaces', p, va, n, n, sp, free0, free)
    ensures CopyOk(spaces, spaces', p, va, n, sp, true, free0, free)
  {
    hide Reaches, Resident, Residents, PagesOf, PagesBefore;
  }

  /** The copy goes on in page v, which has a frame now. */
  lemma CopyOn(spaces: map<int, Space>, spaces1: map<int, Space>, spaces': map<int, Space>, p: int, va: int, i: nat,
               n: nat, sp: int, end: nat, v: int, free0: seq<int>, free1: seq<int>, free: seq<int>)
    requires Copying(spaces, spaces1, p, va, i, n, sp, free0, free1) && i < end <= n
    requires 0 <= v == (va + 8 * i) / PGSIZE && v * PGSIZE <= va + 8 * i && va + 8 * end <= (v + 1) * PGSIZE
    requires end == n || va + 8 * end == (v + 1) * PGSIZE
    requires |free1| - 3 <= |free| <= |free1| && p in spaces1
    requires v in Resident(spaces1[p]) || sp <= PageStart(v) < spaces[p].sz
    requires Residents(spaces') == Residents(spaces1)[p := Plus(Resident(spaces1[p]), true, v)]
    ensures Copying(spaces, spaces', p, va, end, n, sp, free0, free)
  {
    hide Reaches, Resident, Residents, PagesOf, PagesBefore;
    var res := Resident(spaces[p]);
    ResidentsAt(spaces1, p);
    PagesSpanned(va, i, end, v);
    ReachedPage(res, spaces[p].sz, va, i, v, sp);
    PagesMore(va, i, end, v);
    ReachesMore(res, spaces[p].sz, va, i, end, v, sp);
    assert res + PagesOf(va, i) + {v} == res + PagesOf(va, end);
  }

  /** The copy stops at page v. */
  lemma CopyStops(spaces: map<int, Space>, spaces1: map<int, Space>, spaces': map<int, Space>, p: int, va: int, i: nat,
                  n: nat, sp: int, v: int, free0: seq<int>, free1: seq<int>, free: seq<int>)
    requires Copying(spaces, spaces1, p, va, i, n, sp, free0, free1) && i < n
    requires 0 <= v == (va + 8 * i) / PGSIZE && |free1| - 3 <= |free| <= |free1| && p in spaces1
    requires v !in Resident(spaces1[p]) && Residents(spaces') == Residents(spaces1)[p := Resident(spaces1[p])]
    requires sp <= PageStart(v) < spaces[p].sz ==> |free| <= 1 && |free1| < 3
    ensures CopyOk(spaces, spaces', p, va, i, sp, false, free0, free)
  {
    hide Reaches, Resident, Residents, PagesOf, PagesBefore;
    ResidentsAt(spaces1, p);
    WordInPage(va, i, v);
    PagesSpanned(va, i, i + 1, v);
  }

  lemma WordInPage(va: int, i: nat, v: int)
    requires 0 <= va && va % 8 == 0 && v == (va + 8 * i) / PGSIZE
    ensures va + 8 * (i + 1) <= (v + 1) * PGSIZE
  {
  }

  lemma ResidentsAt(spaces: map<int, Space>, p: int)
    requires p in spaces
    ensures p in Residents(spaces) && Residents(spaces)[p] == Resident(spaces[p])
  {
  }

  lemma ResidentSame(s: Space, t': Tree)
    requires t'.leaf == s.t.leaf
    ensures Resident(s.(t := t')) == Resident(s)
  {
  }

  lemma PagesBelow(sz: int)
    requires 0 <= sz < MAXSZ
    ensures Pages(sz) <= TRAPFRAME
  {
  }

  lemma FaultBits()
    ensures UserBit(22) && UserBit(30)
  {
  }

  /** Rounding down keeps the order of the page numbers; rounding up keeps that of page addresses. */
  lemma Rounding(va: int, v: int, sp: int)
    ensures va < sp / PGSIZE * PGSIZE <==> va / PGSIZE < sp / PGSIZE
    ensures v * PGSIZE < (sp + PGSIZE - 1) / PGSIZE * PGSIZE <==> v * PGSIZE < sp
  {
  }

  /** Each element is listed once. */
  lemma {:induction false} Count(free: seq<int>)
    requires forall i, j :: 0 <= i < j < |free| ==> free[i] != free[j]
    ensures |Elems(free)| == |free|
  {
    if free != [] {
      var n := |free| - 1;
      Count(free[..n]);
      assert Elems(free) == Elems(free[..n]) + {free[n]};
    }
  }

  lemma CountLess(mem: Mem, head: int, free: seq<int>, mem': Mem, head': int, free': seq<int>, lo: int, hi: int)
    requires FreeList(mem, head, free, lo, hi) && FreeList(mem', head', free', lo, hi) && Elems(free) <= Elems(free')
    ensures |free| <= |free'|
  {
    Count(free);
    Count(free');
    SubsetSize(Elems(free), Elems(free'));
  }

  function PageStart(v: int): (va: int) {
    v * PGSIZE
  }

  class Machine {
    const k: Kernel
    const tramp: int
    ghost const pool: set<int>
    var procs: map<int, Proc>
    ghost var spaces: map<int, Space>
    ghost var logs: map<int, seq<Event>>

    ghost predicate Valid()
      reads this, k
    {
      MachineOk(k.mem, k.head, k.free, k.lo, k.hi, procs, spaces, logs, pool)
    }

    /** No processes; every page of the pool is free. */
    constructor (k: Kernel, tramp: int)
      requires FreeList(k.mem, k.head, k.free, k.lo, k.hi)
      ensures Valid() && this.k == k && procs == map[] && pool == Elems(k.free)
    {
      this.k, this.tramp, this.pool := k, tramp, Elems(k.free);
      this.procs, this.spaces, this.logs := map[], map[], map[];
    }

    ghost predicate Running(p: int)
      reads this
    {
      p in procs && p in spaces && p in logs && procs[p].root == spaces[p].t.root && procs[p].sz == spaces[p].sz
    }

    /** `growproc(n)` for n <= 0, whose uint arithmetic turns a shrink below zero into no change. */
    method Growproc(p: int, n: int)
      requires Valid() && p in procs && -MAXSZ <= n <= 0
      modifies this`procs, this`spaces, this`logs, k
      ensures Valid() && |old(k.free)| <= |k.free|
      ensures var sz := old(procs)[p].sz + n;
              if n == 0 || sz < 0 then
                procs == old(procs) && logs == old(logs) && Residents(spaces) == Residents(old(spaces))
              else
                && procs == old(procs)[p := old(procs)[p].(sz := sz)]
                && logs == old(logs)[p := old(logs)[p] + [Resized(sz)]]
                && Residents(spaces) ==
                   Residents(old(spaces))[p := Shrunk(Resident(old(spaces)[p]), n, sz)]
    {
      hide AllOk, Conserved, Own, Elems, View, Replay, GoodLog, Nodes, FreeList, TreeOk, UserLeaves, OwnsFrames,
          Frames, Cut, Resident, Residents;
      ghost var s := SpaceAt(p);
      var sz := procs[p].sz;
      if n < 0 {
        var newsz := if sz + n < 0 then sz + n + 0x1_0000_0000 else sz + n;
        ghost var mem0, head0, free0 := k.mem, k.head, k.free;
        if newsz < sz {
          CanShrink(k.mem, k.head, k.free, k.lo, k.hi, s, newsz);
        } else {
          NoShrink(k.mem, k.free, k.lo, k.hi, s, newsz);
        }
        ghost var t';
        sz, t' := k.Uvmdealloc(procs[p].root, sz, newsz, s.t);
        CountLess(mem0, head0, free0, k.mem, k.head, k.free, k.lo, k.hi);
        if newsz < s.sz {
          ResizeDown(mem0, head0, free0, k.mem, k.head, k.free, k.lo, k.hi, s, t', newsz, logs[p]);
          StepOk(mem0, head0, free0, k.mem, k.head, k.free, k.lo, k.hi, procs, spaces, logs, pool, p,
                 procs[p].(sz := sz), Space(t', newsz, s.tf), logs[p] + [Resized(newsz)]);
          ResidentCut(s, t', newsz);
          ResidentsSet(spaces, p, Space(t', newsz, s.tf));
          spaces, logs := spaces[p := Space(t', newsz, s.tf)], logs[p := logs[p] + [Resized(newsz)]];
        }
      }
      procs := procs[p := procs[p].(sz := sz)];
    }

    /** `sys_sbrk(n)`: growing only moves sz. */
    method Sbrk(p: int, n: int)
      requires Valid() && p in procs
      requires -MAXSZ <= n && procs[p].sz + n < MAXSZ
      modifies this`procs, this`spaces, this`logs, k
      ensures Valid() && |old(k.free)| <= |k.free|
      ensures var sz := old(procs)[p].sz + n;
              if n == 0 || sz < 0 then
                procs == old(procs) && logs == old(logs) && Residents(spaces) == Residents(old(spaces))
              else
                && procs == old(procs)[p := old(procs)[p].(sz := sz)]
                && logs == old(logs)[p := old(logs)[p] + [Resized(sz)]]
                && Residents(spaces) ==
                   Residents(old(spaces))[p := Shrunk(Resident(old(spaces)[p]), n, sz)]
    {
      hide AllOk, Conserved, Own, Elems, View, Replay, GoodLog, Nodes, FreeList, TreeOk, UserLeaves, OwnsFrames,
           Resident, Residents;
      ghost var s := SpaceAt(p);
      if n > 0 {
        var sz := procs[p].sz + n;
        ResizeUp(k.mem, k.head, k.free, k.lo, k.hi, s, sz, logs[p]);
        StepOk(k.mem, k.head, k.free, k.mem, k.head, k.free, k.lo, k.hi, procs, spaces, logs, pool, p,
               procs[p].(sz := sz), s.(sz := sz), logs[p] + [Resized(sz)]);
        procs := procs[p := procs[p].(sz := sz)];
        ResidentGrow(s, sz);
        ResidentsSet(spaces, p, s.(sz := sz));
        spaces, logs := spaces[p := s.(sz := sz)], logs[p := logs[p] + [Resized(sz)]];
      } else {
        Growproc(p, n);
      }
    }

    /** A zeroed page for page v: kalloc, memset and mappages, as the fault handler and `walkaddr` do it. */
    method GivePage(p: int, v: int, perm: int) returns (ok: bool)
      requires Valid() && p in procs && p in spaces && 0 <= v < Pages(procs[p].sz) && v !in spaces[p].t.leaf
      requires perm == 22 || perm == 30
      modifies this`spaces, k
      ensures Valid() && p in spaces && (!ok ==> |k.free| <= 1 && |old(k.free)| < 3)
      ensures |old(k.free)| - 3 <= |k.free| <= |old(k.free)|
      ensures Residents(spaces) == Residents(old(spaces))[p := Plus(Resident(old(spaces)[p]), ok, v)]
      ensures ok ==> v in spaces[p].t.leaf && Flags(spaces[p].t.leaf[v]) == perm + 1
    {
      hide AllOk, Conserved, Own, Elems, View, Replay, GoodLog, Nodes, FreeList, TreeOk, UserLeaves, OwnsFrames,
           MakePte, Flags, UserBit, Resident, Residents;
      ghost var s := SpaceAt(p);
      ghost var mem0, head0, free0 := k.mem, k.head, k.free;
      PagesBelow(s.sz);
      FaultBits();
      ghost var t', f;
      ok, t', f := k.MapZeroPage(procs[p].root, v, perm, s.t);
      OwnNodes(s);
      if ok {
        FaultedSpace(mem0, head0, free0, k.mem, k.head, k.free, k.lo, k.hi, s, t', v, f, perm);
        FaultFlags(f);
        ResidentAdd(s, t', v);
      } else {
        GrownSpace(mem0, head0, free0, k.mem, k.head, k.free, k.lo, k.hi, s, t');
        ResidentSame(s, t');
      }
      StepOk(mem0, head0, free0, k.mem, k.head, k.free, k.lo, k.hi, procs, spaces, logs, pool, p, procs[p],
             s.(t := t'), logs[p]);
      ResidentsSet(spaces, p, s.(t := t'));
      spaces := spaces[p := s.(t := t')];
      assert procs[p := procs[p]] == procs && logs[p := logs[p]] == logs;
    }

    /** The page-fault branch of `usertrap`: an address below sz and not below the stack page gets a
        zeroed page, any other kills the process. So does running out of pages, which takes less than three
        free pages and leaves at most one. A fault on a page that has a frame already is the panic "remap" of
        mappages. */
    method PageFault(p: int, va: int, sp: int) returns (kill: bool, panic: bool)
      requires Valid() && p in procs && 0 <= va
      modifies this`procs, this`spaces, k
      ensures p in old(spaces)
      ensures var inside := va < old(procs)[p].sz && va / PGSIZE >= sp / PGSIZE;
              && (panic <==> inside && va / PGSIZE in old(spaces)[p].t.leaf && old(k.free) != [])
              && (!panic && !inside ==> kill && k.mem == old(k.mem) && k.free == old(k.free))
              && (!panic && inside && kill ==> |k.free| <= 1 && |old(k.free)| < 3)
      ensures !panic ==> Valid() && procs == old(procs)[p := old(procs)[p].(killed := old(procs)[p].killed || kill)]
      ensures |old(k.free)| - 3 <= |k.free| <= |old(k.free)|
      ensures !panic ==>
                && p in spaces
                && Residents(spaces) ==
                   Residents(old(spaces))[p := Plus(Resident(old(spaces)[p]), !kill, va / PGSIZE)]
      ensures !panic && !kill ==> va / PGSIZE in spaces[p].t.leaf && Flags(spaces[p].t.leaf[va / PGSIZE]) == 23
    {
      hide AllOk, Conserved, Own, Elems, View, Replay, GoodLog, Nodes, FreeList, TreeOk, UserLeaves, OwnsFrames,
           MakePte, Flags, Resident, Residents;
      ghost var s := SpaceAt(p);
      panic := false;
      ResidentsSet(spaces, p, s);
      Rounding(va, 0, sp);
      if va >= procs[p].sz || va < sp / PGSIZE * PGSIZE {
        kill := true;
      } else {
        BelowSize(va, s.sz);
        var mapped, f0, user := Translate(p, va / PGSIZE);
        if mapped {
          FreeListOf(k.mem, k.head, k.free, k.lo, k.hi, spaces);
          var pa := k.Kalloc();
          kill, panic := pa == 0, pa != 0;
          if kill {
            procs := procs[p := procs[p].(killed := true)];
            SetKilled(k.mem, old(procs), spaces, logs, p, procs[p]);
          }
          return;
        }
        var ok := GivePage(p, va / PGSIZE, PTE_W + PTE_R + PTE_U);
        kill := !ok;
        s := SpaceAt(p);
      }
      SetKilled(k.mem, procs, spaces, logs, p, procs[p].(killed := procs[p].killed || kill));
      procs := procs[p := procs[p].(killed := procs[p].killed || kill)];
    }

    /** A user load of the word at va. It takes a page fault if the page has no frame yet, and gives
        what was last stored there, unless the fault kills the process. */
    method Load(p: int, va: int, sp: int) returns (kill: bool, x: int)
      requires Valid() && p in procs && 0 <= va && va / PGSIZE < TRAPFRAME
      modifies this`procs, this`spaces, k
      ensures Valid() && logs == old(logs)
      ensures kill ==> procs == old(procs)[p := old(procs)[p].(killed := true)]
      ensures !kill ==> procs == old(procs) && x == LastStored(logs[p], va / PGSIZE, va % PGSIZE / 8)
      ensures !kill ==> va / PGSIZE < Pages(procs[p].sz)
      ensures AccessOk(old(spaces), spaces, p, va, sp, kill, old(k.free), k.free)
    {
      hide AllOk, Conserved, Own, Elems, Replay, GoodLog, Nodes, FreeList, TreeOk, UserLeaves, OwnsFrames,
          LastStored, Flags, Residents;
      x, kill := 0, false;
      ghost var s := SpaceAt(p);
      var v, w := va / PGSIZE, va % PGSIZE / 8;
      UserPage(k.mem, k.head, k.free, k.lo, k.hi, s, v);
      ResidentsSet(spaces, p, s);
      var mapped, f, user := Translate(p, v);
      if !mapped {
        var panic;
        kill, panic := PageFault(p, va, sp);
        s := SpaceAt(p);
        if kill {
          return;
        }
        BelowSize(va, s.sz);
        assert procs == old(procs);
        mapped, f, user := Translate(p, v);
      }
      MappedView(k.mem, k.head, k.free, k.lo, k.hi, s, v);
      x := k.mem[f][w];
      ReplayIsLastStored(logs[p], v, w);
    }

    /** A user store of x to the word at va. */
    method Store(p: int, va: int, sp: int, x: int) returns (kill: bool)
      requires Valid() && p in procs && 0 <= va && va / PGSIZE < TRAPFRAME
      modifies this`procs, this`spaces, this`logs, k
      ensures Valid()
      ensures kill ==> procs == old(procs)[p := old(procs)[p].(killed := true)] && logs == old(logs)
      ensures !kill ==>
                procs == old(procs) && logs == old(logs)[p := old(logs)[p] + [Stored(va / PGSIZE, va % PGSIZE / 8, x)]]
      ensures !kill ==> va / PGSIZE < Pages(procs[p].sz)
      ensures AccessOk(old(spaces), spaces, p, va, sp, kill, old(k.free), k.free)
    {
      hide AllOk, Conserved, Elems, Replay, GoodLog, Nodes, FreeList, TreeOk, UserLeaves, OwnsFrames, Own, View, Flags,
           Residents;
      kill := false;
      ghost var s := SpaceAt(p);
      var v, w := va / PGSIZE, va % PGSIZE / 8;
      UserPage(k.mem, k.head, k.free, k.lo, k.hi, s, v);
      ResidentsSet(spaces, p, s);
      var mapped, f, user := Translate(p, v);
      if !mapped {
        var panic;
        kill, panic := PageFault(p, va, sp);
        s := SpaceAt(p);
        if kill {
          return;
        }
        BelowSize(va, s.sz);
        assert procs == old(procs);
        mapped, f, user := Translate(p, v);
      }
      PutWord(p, va, f, x);
    }

    /** `walkaddr` on the page table of the process: the frame of the page of va, or 0. A page without a
        frame gets one here too, outside the page that holds the stack pointer and the pages below it. */
    method Walkaddr(p: int, va: int, sp: int) returns (pa: int)
      requires Valid() && p in procs && 0 <= va
      modifies this`spaces, k
      ensures Valid() && procs == old(procs) && p in old(spaces) && p in spaces
      ensures pa != 0 ==>
                va / PGSIZE < TRAPFRAME && va / PGSIZE in spaces[p].t.leaf && pa == Ppn(spaces[p].t.leaf[va / PGSIZE])
      ensures var v, s := va / PGSIZE, old(spaces)[p];
              var inside := va < s.sz && va >= (sp + PGSIZE - 1) / PGSIZE * PGSIZE;
              && (v in Resident(s) ==> pa != 0 && k.free == old(k.free))
              && (v !in Resident(s) && !inside ==> pa == 0 && k.mem == old(k.mem) && k.free == old(k.free))
              && (pa == 0 && inside ==> |k.free| <= 1 && |old(k.free)| < 3)
              && |old(k.free)| - 3 <= |k.free| <= |old(k.free)|
              && Residents(spaces) == Residents(old(spaces))[p := Plus(Resident(s), pa != 0, v)]
    {
      hide AllOk, Conserved, Own, Elems, View, Replay, GoodLog, Nodes, FreeList, TreeOk, OwnsFrames,
           MakePte, Flags, Residents;
      ghost var s := SpaceAt(p);
      var v := va / PGSIZE;
      ResidentsSet(spaces, p, s);
      ResidentPage(s, v);
      hide UserLeaves, Resident, UserBit;
      var mapped, f, user := Translate(p, v);
      if !mapped {
        if va >= procs[p].sz || va < (sp + PGSIZE - 1) / PGSIZE * PGSIZE {
          return 0;
        }
        BelowSize(va, s.sz);
        var ok := GivePage(p, v, PTE_W + PTE_R + PTE_U + PTE_X);
        if !ok {
          return 0;
        }
        mapped, f, user := Translate(p, v);
        s := SpaceAt(p);
        FrameNotZero(k.mem, k.head, k.free, k.lo, k.hi, s, v);
        return f;
      }
      if !user {
        return 0;
      }
      UserPage(k.mem, k.head, k.free, k.lo, k.hi, s, v);
      FrameNotZero(k.mem, k.head, k.free, k.lo, k.hi, s, v);
      assert Resident(s) + {v} == Resident(s);
      pa := f;
    }

    /** One word of the memmove in `copyout`, through the frame that `walkaddr` returned. */
    method PutWord(p: int, va: int, pa: int, x: int)
      requires Valid() && p in procs && 0 <= va && va / PGSIZE < TRAPFRAME
      requires va / PGSIZE in spaces[p].t.leaf && pa == Ppn(spaces[p].t.leaf[va / PGSIZE])
      modifies this`logs, k
      ensures Valid() && logs == old(logs)[p := old(logs)[p] + [StoreAt(va, x)]] && k.free == old(k.free)
    {
      hide AllOk, Conserved, Elems, Replay, GoodLog, Nodes, FreeList, TreeOk, UserLeaves, OwnsFrames, Own, View, Flags;
      ghost var s := SpaceAt(p);
      ghost var v := va / PGSIZE;
      var w := va % PGSIZE / 8;
      UserPage(k.mem, k.head, k.free, k.lo, k.hi, s, v);
      StoreStep(k.mem, k.head, k.free, k.lo, k.hi, s, v, w, x, logs[p]);
      ghost var mem0 := k.mem;
      k.mem := k.mem[pa := k.mem[pa][w := x]];
      StepOk(mem0, k.head, k.free, k.mem, k.head, k.free, k.lo, k.hi, procs, spaces, logs, pool, p, procs[p], s,
          logs[p] + [Stored(v, w, x)]);
      logs := logs[p := logs[p] + [Stored(v, w, x)]];
      assert procs[p := procs[p]] == procs && spaces[p := s] == spaces;
    }

    /** The memmove of `copyout`: the words [i0, end) of src go into page v. */
    method PutWords(p: int, dstva: int, src: seq<int>, i0: nat, end: nat, v: int, pa: int, ghost log0: seq<Event>)
      requires Valid() && p in procs && p in spaces && p in logs && i0 <= end <= |src| && 0 <= v < TRAPFRAME
      requires v in spaces[p].t.leaf && pa == Ppn(spaces[p].t.leaf[v])
      requires i0 < end ==> v * PGSIZE <= dstva + 8 * i0 && dstva + 8 * end <= (v + 1) * PGSIZE
      requires logs[p] == log0 + Stores(dstva, src[..i0])
      modifies this`logs, k
      ensures Valid() && logs == old(logs)[p := log0 + Stores(dstva, src[..end])] && k.free == old(k.free)
    {
      hide MachineOk, Stores, StoreAt;
      var i := i0;
      while i < end
        invariant i0 <= i <= end && Valid() && p in logs && k.free == old(k.free)
        invariant logs == old(logs)[p := log0 + Stores(dstva, src[..i])]
      {
        WithinPage(dstva + 8 * i, v);
        PutWord(p, dstva + 8 * i, pa, src[i]);
        MoreStores(log0, dstva, src, i);
        i := i + 1;
      }
    }

    /** One iteration of the loops of `copyout` and `copyin`: the page of word i, the first word that is not
        in it, and its frame or 0. */
    method ReachPage(p: int, va: int, i: nat, n: nat, sp: int, ghost spaces0: map<int, Space>, ghost free0: seq<int>)
        returns (v: int, end: nat, pa: int)
      requires Valid() && p in procs && i < n && Copying(spaces0, spaces, p, va, i, n, sp, free0, k.free)
      requires procs[p].sz == spaces0[p].sz && 0 <= va && va % 8 == 0
      modifies this`spaces, k
      ensures Valid() && p in spaces
      ensures 0 <= v && i < end <= n && v * PGSIZE <= va + 8 * i && va + 8 * end <= (v + 1) * PGSIZE
      ensures pa != 0 ==>
                && Copying(spaces0, spaces, p, va, end, n, sp, free0, k.free)
                && v < TRAPFRAME && v in spaces[p].t.leaf && pa == Ppn(spaces[p].t.leaf[v])
      ensures pa == 0 ==> CopyOk(spaces0, spaces, p, va, i, sp, false, free0, k.free)
    {
      hide MachineOk, UserBit, SpaceOk, Memory, Replay, GoodLog, Resident, Residents, Reaches, PagesOf, PagesBefore,
           Copying, CopyOk;
      ghost var s := SpaceAt(p);
      v, end := Piece(va, i, n);
      Rounding(0, v, sp);
      pa := Walkaddr(p, v * PGSIZE, sp);
      if pa != 0 {
        CopyOn(spaces0, old(spaces), spaces, p, va, i, n, sp, end, v, free0, old(k.free), k.free);
      } else {
        CopyStops(spaces0, old(spaces), spaces, p, va, i, n, sp, v, free0, old(k.free), k.free);
      }
    }

    /** `copyout` of the words src: it stores them in order, all of them if it succeeds, else those before
        the first page it cannot reach. */
    method Copyout(p: int, dstva: int, src: seq<int>, sp: int) returns (ok: bool, n: int)
      requires Valid() && p in procs && 0 <= dstva && dstva % 8 == 0
      modifies this`spaces, this`logs, k
      ensures Valid() && procs == old(procs) && p in old(logs)
      ensures 0 <= n <= |src| && (ok <==> n == |src|)
      ensures logs == old(logs)[p := old(logs)[p] + Stores(dstva, src[..n])]
      ensures CopyOk(old(spaces), spaces, p, dstva, n, sp, ok, old(k.free), k.free)
    {
      hide MachineOk, Stores, SpaceOk, Memory, Replay, GoodLog, Copying, CopyOk;
      ghost var s := SpaceAt(p);
      var i: nat := 0;
      NoStores(logs[p], dstva, src);
      StartCopy(spaces, p, dstva, |src|, sp, k.free);
      while i < |src|
        invariant i <= |src| && Valid() && procs == old(procs) && p in spaces && p in logs
        invariant logs == old(logs)[p := old(logs)[p] + Stores(dstva, src[..i])]
        invariant Copying(old(spaces), spaces, p, dstva, i, |src|, sp, old(k.free), k.free)
      {
        var v, end, pa := ReachPage(p, dstva, i, |src|, sp, old(spaces), old(k.free));
        if pa == 0 {
          return false, i;
        }
        PutWords(p, dstva, src, i, end, v, pa, old(logs)[p]);
        i := end;
      }
      CopyDone(old(spaces), spaces, p, dstva, |src|, sp, old(k.free), k.free);
      ok, n := true, i;
    }

    /** The page of word i of n from va on, and the first word that is not in it. */
    method Piece(va: int, i: nat, n: nat) returns (v: int, end: nat)
      requires 0 <= va && va % 8 == 0 && i < n
      ensures 0 <= v && v * PGSIZE / PGSIZE == v && v == (va + 8 * i) / PGSIZE
      ensures i < end <= n && v * PGSIZE <= va + 8 * i && va + 8 * end <= (v + 1) * PGSIZE
      ensures end == n || va + 8 * end == (v + 1) * PGSIZE
    {
      v := (va + 8 * i) / PGSIZE;
      end := i + (PGSIZE - (va + 8 * i) % PGSIZE) / 8;
      if end > n {
        end := n;
      }
    }

    /** `copyin` of n words: each is the word last stored there, or zero. */
    method Copyin(p: int, srcva: int, n: nat, sp: int) returns (ok: bool, dst: seq<int>)
      requires Valid() && p in procs && 0 <= srcva && srcva % 8 == 0
      modifies this`spaces, k
      ensures Valid() && procs == old(procs) && p in logs
      ensures |dst| <= n && (ok <==> |dst| == n)
      ensures IsRead(logs[p], srcva, dst)
      ensures CopyOk(old(spaces), spaces, p, srcva, |dst|, sp, ok, old(k.free), k.free)
    {
      hide MachineOk, LastStored, SpaceOk, Memory, Replay, GoodLog, IsRead, Copying, CopyOk;
      ghost var s := SpaceAt(p);
      dst := [];
      NothingRead(logs[p], srcva);
      StartCopy(spaces, p, srcva, n, sp, k.free);
      while |dst| < n
        invariant |dst| <= n && Valid() && procs == old(procs) && p in spaces
        invariant IsRead(logs[p], srcva, dst)
        invariant Copying(old(spaces), spaces, p, srcva, |dst|, n, sp, old(k.free), k.free)
        decreases n - |dst|
      {
        var v, end, pa := ReachPage(p, srcva, |dst|, n, sp, old(spaces), old(k.free));
        if pa == 0 {
          return false, dst;
        }
        dst := GetWords(p, srcva, dst, end, v, pa);
      }
      CopyDone(old(spaces), spaces, p, srcva, n, sp, old(k.free), k.free);
      ok := true;
    }

    /** The memmove of `copyin`, from page v. */
    method GetWords(p: int, srcva: int, dst0: seq<int>, end: nat, v: int, pa: int) returns (dst: seq<int>)
      requires Valid() && p in procs && p in spaces && p in logs && |dst0| <= end && 0 <= v < TRAPFRAME
      requires v in spaces[p].t.leaf && pa == Ppn(spaces[p].t.leaf[v])
      requires |dst0| < end ==> v * PGSIZE <= srcva + 8 * |dst0| && srcva + 8 * end <= (v + 1) * PGSIZE
      requires IsRead(logs[p], srcva, dst0)
      ensures |dst| == end && IsRead(logs[p], srcva, dst)
    {
      hide MachineOk, WordAt;
      dst := dst0;
      while |dst| < end
        invariant |dst0| <= |dst| <= end && IsRead(logs[p], srcva, dst)
        decreases end - |dst|
      {
        WithinPage(srcva + 8 * |dst|, v);
        GetWord(p, srcva + 8 * |dst|, pa);
        dst := dst + [k.mem[pa][(srcva + 8 * |dst|) % PGSIZE / 8]];
      }
    }

    /** What a word of the frame of a user page holds. */
    lemma GetWord(p: int, va: int, pa: int)
      requires Valid() && p in procs && 0 <= va && p in spaces && va / PGSIZE < TRAPFRAME
      requires va / PGSIZE in spaces[p].t.leaf && pa == Ppn(spaces[p].t.leaf[va / PGSIZE])
      ensures pa in k.mem && p in logs && k.mem[pa][va % PGSIZE / 8] == WordAt(logs[p], va)
    {
      hide MachineOk, LastStored;
      var s := SpaceAt(p);
      var v, w := va / PGSIZE, va % PGSIZE / 8;
      UserPage(k.mem, k.head, k.free, k.lo, k.hi, s, v);
      MappedView(k.mem, k.head, k.free, k.lo, k.hi, s, v);
      ReplayIsLastStored(logs[p], v, w);
    }

    /** A process with no memory, as `allocproc` makes it. */
    method Spawn(c: int) returns (ok: bool)
      requires Valid() && c !in procs
      modifies this`procs, this`spaces, this`logs, k
      ensures Valid()
      ensures !ok ==> procs == old(procs) && logs == old(logs) && Elems(k.free) == Elems(old(k.free))
      ensures |k.free| <= |old(k.free)| && (!ok ==> |k.free| == |old(k.free)|)
      ensures if ok then |old(k.free)| - 6 <= |k.free| else |old(k.free)| < 6
      ensures ok ==>
                logs == old(logs)[c := []] && procs.Keys == old(procs).Keys + {c} && procs[c].sz == 0
                && !procs[c].killed
      ensures Residents(spaces) == if ok then Residents(old(spaces))[c := {}] else Residents(old(spaces))
      ensures forall q :: q in old(procs) ==> q in procs && procs[q] == old(procs)[q]
    {
      hide Resident, Residents, AllOk, SpaceOk, Conserved, Own, Elems, View, Replay, GoodLog, Nodes, FreeList,
           TreeOk, KernelLeaves;
      ghost var mem0, head0, free0 := k.mem, k.head, k.free;
      FreeListOf(mem0, head0, free0, k.lo, k.hi, spaces);
      var tf, root;
      ghost var u;
      tf, root, u := AllocProc(k, tramp);
      ok := root != 0;
      if ok {
        NewSpace(k.mem, k.head, k.free, k.lo, k.hi, u, tramp, tf);
        EmptyLog();
        ForkOk(mem0, head0, free0, k.mem, k.head, k.free, k.lo, k.hi, procs, spaces, logs, pool, c,
            Proc(root, 0, tf, false), Space(u, 0, tf), []);
        procs := procs[c := Proc(root, 0, tf, false)];
        ResidentsSet(spaces, c, Space(u, 0, tf));
        NoneResident(u, tf);
        spaces, logs := spaces[c := Space(u, 0, tf)], logs[c := []];
      } else {
        IdleOk(mem0, head0, free0, k.mem, k.head, k.free, k.lo, k.hi, procs, spaces, logs, pool);
        CountLess(mem0, head0, free0, k.mem, k.head, k.free, k.lo, k.hi);
      }
      CountLess(k.mem, k.head, k.free, mem0, head0, free0, k.lo, k.hi);
    }

    /** `fork`: the child starts with the parent's view on pages of its own. A failure at any point
        gives every page back. */
    method Fork(p: int, c: int) returns (ok: bool)
      requires Valid() && p in procs && c !in procs
      modifies this`procs, this`spaces, this`logs, k
      ensures Valid()
      ensures !ok ==> procs == old(procs) && logs == old(logs) && Elems(k.free) == Elems(old(k.free))
      ensures |k.free| <= |old(k.free)| && (!ok ==> |k.free| == |old(k.free)|) && p in old(spaces)
      ensures var need := 6 + 3 * |Resident(old(spaces)[p])|;
              if ok then |old(k.free)| - need <= |k.free| else |old(k.free)| < need
      ensures ok ==> logs == old(logs)[c := old(logs)[p]] && procs.Keys == old(procs).Keys + {c}
      ensures ok ==> procs[c].sz == old(procs)[p].sz && !procs[c].killed
      ensures p in old(spaces) && Residents(spaces) ==
              if ok then Residents(old(spaces))[c := Resident(old(spaces)[p])] else Residents(old(spaces))
      ensures forall q :: q in old(procs) ==> q in procs && procs[q] == old(procs)[q]
    {
      hide Resident, Residents, AllOk, SpaceOk, Conserved, Own, Elems, View, Replay, GoodLog, Nodes, FreeList, TreeOk;
      ghost var mem0, head0, free0 := k.mem, k.head, k.free;
      ghost var s := SpaceAt(p);
      FreeListOf(mem0, head0, free0, k.lo, k.hi, spaces);
      var tf, root;
      ghost var s';
      tf, root, s' := ForkMemory(k, tramp, procs[p].root, procs[p].sz, s);
      ok := root != 0;
      if ok {
        ForkOk(mem0, head0, free0, k.mem, k.head, k.free, k.lo, k.hi, procs, spaces, logs, pool, c,
            Proc(root, s.sz, tf, false), s', logs[p]);
        ResidentsSet(spaces, c, s');
        spaces, logs := spaces[c := s'], logs[c := logs[p]];
        procs := procs[c := Proc(root, procs[p].sz, tf, false)];
      } else {
        IdleOk(mem0, head0, free0, k.mem, k.head, k.free, k.lo, k.hi, procs, spaces, logs, pool);
        CountLess(mem0, head0, free0, k.mem, k.head, k.free, k.lo, k.hi);
      }
      CountLess(k.mem, k.head, k.free, mem0, head0, free0, k.lo, k.hi);
    }

    /** `freeproc`: every page of the process returns to the free list. */
    method Free(p: int)
      requires Valid() && p in procs
      modifies this`procs, this`spaces, this`logs, k
      ensures Valid() && procs == old(procs) - {p} && logs == old(logs) - {p}
      ensures Elems(k.free) == Elems(old(k.free)) + Own(old(spaces)[p]) && |old(k.free)| <= |k.free|
      ensures Residents(spaces) == Residents(old(spaces)) - {p}
    {
      hide AllOk, SpaceOk, Conserved, Elems, Resident, Residents, View, Replay, GoodLog, Nodes, FreeList,
           TreeOk, OwnsFrames, Frames;
      ghost var mem0, head0, free0 := k.mem, k.head, k.free;
      ghost var s := SpaceAt(p);
      CanFree(mem0, head0, free0, k.lo, k.hi, s);
      var tf := procs[p].tf;
      k.Kfree(tf);
      AfterKfree(mem0, head0, free0, k.mem, k.head, k.free, k.lo, k.hi, s);
      var ok := ProcFreepagetable(k, procs[p].root, procs[p].sz, s.t);
      FreeOk(mem0, head0, free0, k.mem, k.head, k.free, k.lo, k.hi, procs, spaces, logs, pool, p);
      CountLess(mem0, head0, free0, k.mem, k.head, k.free, k.lo, k.hi);
      procs := procs - {p};
      ResidentsRemove(spaces, p);
      spaces, logs := spaces - {p}, logs - {p};
    }

    /** The address translation of the hardware: the frame of page v, found by the same walk. */
    method Translate(p: int, v: int) returns (mapped: bool, f: int, user: bool)
      requires Valid() && p in procs && 0 <= v
      modifies k
      ensures k.mem == old(k.mem) && k.head == old(k.head) && k.free == old(k.free) && Valid()
      ensures mapped <==> v in spaces[p].t.leaf
      ensures mapped ==> f == Ppn(spaces[p].t.leaf[v]) && user == UserBit(spaces[p].t.leaf[v])
    {
      hide AllOk, Conserved, Own, Elems, View, Replay, GoodLog, Nodes, FreeList, TreeOk, UserLeaves, OwnsFrames;
      ghost var s := SpaceAt(p);
      mapped, f, user := false, 0, false;
      if v >= MAXPAGE {
        NoLeafBeyond(k.mem, k.head, k.free, k.lo, k.hi, s, v);
        return;
      }
      var tbl;
      ghost var t';
      tbl, t' := k.Walk(procs[p].root, v, false, s.t);
      if tbl == 0 {
        LeafBelow(k.mem, s.t, v);
        return;
      }
      ReadLeaf(k.mem, s.t, v);
      var pte := k.mem[tbl][PX(0, v)];
      mapped, f, user := IsValid(pte), Ppn(pte), UserBit(pte);
    }

    /** Word w of page v of process p shows what was last stored there. */
    ghost predicate Shows(p: int, v: int, w: int)
      requires 0 <= w < 512
      reads this, k
    {
      && p in spaces && p in logs && v in View(k.mem, spaces[p])
      && View(k.mem, spaces[p])[v][w] == LastStored(logs[p], v, w)
    }

    /** Page x of the pool is free or belongs to exactly one process. */
    ghost predicate OwnedOnce(x: int)
      reads this, k
    {
      && (x in Elems(k.free) <==> forall p :: p in spaces ==> x !in Own(spaces[p]))
      && (forall p, q :: p in spaces && q in spaces && x in Own(spaces[p]) && x in Own(spaces[q]) ==> p == q)
    }

    /** What the invariant says about one word. */
    lemma Seen(p: int, v: int, w: int)
      requires Valid() && p in procs && 0 <= v < Pages(procs[p].sz) && 0 <= w < 512
      ensures Shows(p, v, w)
    {
      hide AllOk, Conserved, LastStored;
      var s := SpaceAt(p);
      ReplayIsLastStored(logs[p], v, w);
    }

    lemma Histories()
      requires Valid()
      ensures procs.Keys == logs.Keys == spaces.Keys
      ensures forall p :: p in procs ==> procs[p].sz == spaces[p].sz == SizeOf(logs[p])
    {
      hide AllOk, Conserved, Own, Elems, View, Replay, GoodLog;
    }

    lemma Owner(x: int)
      requires Valid() && x in pool
      ensures OwnedOnce(x)
    {
      hide AllOk, Conserved, Own, Elems, Refines;
      OneOwner(k.mem, k.head, k.free, k.lo, k.hi, spaces, pool, x);
    }

    lemma SpaceAt(p: int) returns (s: Space)
      requires Valid() && p in procs
      ensures p in spaces && p in logs && s == spaces[p] && Matches(procs[p], s)
      ensures SpaceOk(k.mem, k.head, k.free, k.lo, k.hi, s)
      ensures GoodLog(logs[p]) && Memory(k.mem, s) == Replay(logs[p])
      ensures 0 <= s.sz < MAXSZ
    {
      s := spaces[p];
    }
  }

  ghost function WordAt(log: seq<Event>, va: int): (x: int) {
    LastStored(log, va / PGSIZE, va % PGSIZE / 8)
  }

  ghost function StoreAt(va: int, x: int): (e: Event) {
    Stored(va / PGSIZE, va % PGSIZE / 8, x)
  }

  /** The stores of consecutive words from va on. */
  ghost function Stores(va: int, src: seq<int>): (r: seq<Event>) {
    if |src| == 0 then [] else Stores(va, src[..|src| - 1]) + [StoreAt(va + 8 * (|src| - 1), src[|src| - 1])]
  }

  lemma MoreStores(log: seq<Event>, va: int, src: seq<int>, i: nat)
    requires i < |src|
    ensures log + Stores(va, src[..i]) + [StoreAt(va + 8 * i, src[i])] == log + Stores(va, src[..i + 1])
  {
    assert src[..i + 1][..i] == src[..i];
  }

  lemma NoStores(log: seq<Event>, va: int, src: seq<int>)
    ensures log + Stores(va, src[..0]) == log
  {
  }

  lemma WithinPage(va: int, v: int)
    requires 0 <= v && v * PGSIZE <= va < (v + 1) * PGSIZE
    ensures 0 <= va && va / PGSIZE == v && 0 <= va % PGSIZE / 8 < 512
  {
  }

  /** dst holds the words from va on. */
  ghost predicate IsRead(log: seq<Event>, va: int, dst: seq<int>) {
    forall i :: 0 <= i < |dst| ==> dst[i] == WordAt(log, va + 8 * i)
  }

  lemma NothingRead(log: seq<Event>, va: int)
    ensures IsRead(log, va, [])
  {
  }

  /** The pages with a frame are those that user code may use; the trapframe and the trampoline are not. */
  lemma ResidentPage(s: Space, v: int)
    requires UserLeaves(s) && 0 <= s.sz < MAXSZ
    ensures v in Resident(s) <==> v in s.t.leaf && UserBit(s.t.leaf[v])
    ensures v in Resident(s) ==> 0 <= v < TRAPFRAME && v < Pages(s.sz)
  {
  }

  lemma FrameNotZero(mem: Mem, head: int, free: seq<int>, lo: int, hi: int, s: Space, v: int)
    requires SpaceOk(mem, head, free, lo, hi, s) && v in s.t.leaf && 0 <= v < Pages(s.sz)
    ensures Ppn(s.t.leaf[v]) != 0
  {
    assert OwnedPage(mem, free, lo, hi, s.t, v);
  }

  lemma BelowSize(va: int, sz: int)
    requires 0 <= va < sz < MAXSZ
    ensures 0 <= va / PGSIZE < Pages(sz) <= TRAPFRAME
  {
  }

  lemma FaultFlags(f: int)
    ensures Flags(MakePte(f, 22)) == 23 && Flags(MakePte(f, 30)) == 31
  {
    assert MakePte(f, 22) == 1024 * f + 23;
    assert MakePte(f, 30) == 1024 * f + 31;
  }

  lemma OwnNodes(s: Space)
    ensures Nodes(s.t) <= Own(s)
  {
  }

  lemma SetKilled(mem: Mem, procs: map<int, Proc>, spaces: map<int, Space>, logs: map<int, seq<Event>>, p: int,
                  proc': Proc)
    requires Refines(mem, procs, spaces, logs) && p in procs && Matches(proc', spaces[p])
    ensures Refines(mem, procs[p := proc'], spaces, logs)
  {
  }

  /** Below the trapframe only pages below sz are mapped. */
  lemma UserPage(mem: Mem, head: int, free: seq<int>, lo: int, hi: int, s: Space, v: int)
    requires SpaceOk(mem, head, free, lo, hi, s) && v < TRAPFRAME
    ensures v in s.t.leaf ==> 0 <= v < Pages(s.sz)
  {
  }

  lemma NoLeafBeyond(mem: Mem, head: int, free: seq<int>, lo: int, hi: int, s: Space, v: int)
    requires SpaceOk(mem, head, free, lo, hi, s) && v >= MAXPAGE
    ensures v !in s.t.leaf
  {
  }

  lemma MappedView(mem: Mem, head: int, free: seq<int>, lo: int, hi: int, s: Space, v: int)
    requires SpaceOk(mem, head, free, lo, hi, s) && v in s.t.leaf && 0 <= v < Pages(s.sz)
    ensures Ppn(s.t.leaf[v]) in mem && v in View(mem, s) && View(mem, s)[v] == mem[Ppn(s.t.leaf[v])]
  {
    assert OwnedPage(mem, free, lo, hi, s.t, v);
  }

  lemma StoreStep(mem: Mem, head: int, free: seq<int>, lo: int, hi: int, s: Space, v: int, w: int, x: int,
                  log: seq<Event>)
    requires SpaceOk(mem, head, free, lo, hi, s) && v in s.t.leaf && 0 <= v < Pages(s.sz) && 0 <= w < 512
    requires GoodLog(log) && Memory(mem, s) == Replay(log)
    ensures var f := Ppn(s.t.leaf[v]);
            && f in mem
            && var mem' := mem[f := mem[f][w := x]];
            && SpaceOk(mem', head, free, lo, hi, s) && Changed(mem, mem', Elems(free) + Own(s))
            && GoodLog(log + [Stored(v, w, x)]) && Memory(mem', s) == Replay(log + [Stored(v, w, x)])
  {
    hide SpaceOk, Own, Elems, Replay, GoodLog;
    StoredSpace(mem, head, free, lo, hi, s, v, w, x);
    ReplayAppend(log, Stored(v, w, x));
    assert v in View(mem, s);
  }

  lemma FreeListOf(mem: Mem, head: int, free: seq<int>, lo: int, hi: int, spaces: map<int, Space>)
    requires AllOk(mem, head, free, lo, hi, spaces)
    ensures FreeList(mem, head, free, lo, hi)
  {
  }

  lemma EmptyLog()
    ensures GoodLog([]) && Replay([]) == Eager(0, map[])
  {
  }

  /** Pages were taken from the free list and given back. */
  lemma IdleOk(mem: Mem, head: int, free: seq<int>, mem': Mem, head': int, free': seq<int>, lo: int, hi: int,
               procs: map<int, Proc>,
               spaces: map<int, Space>, logs: map<int, seq<Event>>, pool: set<int>)
    requires MachineOk(mem, head, free, lo, hi, procs, spaces, logs, pool)
    requires FreeList(mem', head', free', lo, hi) && Changed(mem, mem', Elems(free)) && Elems(free') == Elems(free)
    ensures MachineOk(mem', head', free', lo, hi, procs, spaces, logs, pool)
  {
    hide SpaceOk, Own, Elems, View, Replay, GoodLog, FreeList;
    forall q | q in spaces
      ensures SpaceOk(mem', head', free', lo, hi, spaces[q]) && View(mem', spaces[q]) == View(mem, spaces[q])
    {
      OwnFree(mem, head, free, lo, hi, spaces[q]);
      OtherSpace(mem, head, free, mem', head', free', lo, hi, spaces[q], Elems(free));
    }
  }

  lemma ForkOk(mem: Mem, head: int, free: seq<int>, mem': Mem, head': int, free': seq<int>, lo: int, hi: int,
               procs: map<int, Proc>,
               spaces: map<int, Space>, logs: map<int, seq<Event>>, pool: set<int>, c: int, proc': Proc, s': Space,
                   log': seq<Event>)
    requires MachineOk(mem, head, free, lo, hi, procs, spaces, logs, pool) && c !in procs
    requires SpaceOk(mem', head', free', lo, hi, s') && Matches(proc', s')
    requires Changed(mem, mem', Elems(free)) && Elems(free') + Own(s') == Elems(free)
    requires GoodLog(log') && Memory(mem', s') == Replay(log')
    ensures MachineOk(mem', head', free', lo, hi, procs[c := proc'], spaces[c := s'], logs[c := log'], pool)
  {
    hide AllOk, SpaceOk, Conserved, Own, Elems, View, Replay, GoodLog;
    AddSpace(mem, head, free, mem', head', free', lo, hi, spaces, c, s', pool);
  }

  lemma FreeOk(mem: Mem, head: int, free: seq<int>, mem': Mem, head': int, free': seq<int>, lo: int, hi: int,
               procs: map<int, Proc>,
               spaces: map<int, Space>, logs: map<int, seq<Event>>, pool: set<int>, p: int)
    requires MachineOk(mem, head, free, lo, hi, procs, spaces, logs, pool) && p in spaces
    requires FreeList(mem', head', free', lo, hi)
    requires Changed(mem, mem', Own(spaces[p])) && Elems(free') == Elems(free) + Own(spaces[p])
    ensures MachineOk(mem', head', free', lo, hi, procs - {p}, spaces - {p}, logs - {p}, pool)
  {
    hide AllOk, SpaceOk, Conserved, Own, Elems, View, Replay, GoodLog, FreeList;
    RemoveSpace(mem, head, free, mem', head', free', lo, hi, spaces, p, pool);
  }

  lemma KernelFlags(tramp: int, tf: int)
    ensures var m := KernelLeaves(tramp, tf);
            && (forall v :: v in m <==> v == TRAMPOLINE || v == TRAPFRAME)
            && Flags(m[TRAMPOLINE]) == PTE_V + TRAMP_PERM && Flags(m[TRAPFRAME]) == PTE_V + TRAPF_PERM
  {
    assert MakePte(tramp, TRAMP_PERM) == 1024 * tramp + 11;
    assert MakePte(tf, TRAPF_PERM) == 1024 * tf + 7;
  }

  lemma NewSpace(mem: Mem, head: int, free: seq<int>, lo: int, hi: int, u: Tree, tramp: int, tf: int)
    requires Sound(mem, head, free, lo, hi, u) && u.leaf == KernelLeaves(tramp, tf)
    requires lo <= tf < hi && tf in mem && tf !in Elems(free) && tf !in Nodes(u)
    ensures var s := Space(u, 0, tf);
            SpaceOk(mem, head, free, lo, hi, s) && Own(s) == Nodes(u) + {tf} && View(mem, s) == map[]
  {
    hide FreeList, TreeOk, Nodes, Elems, KernelLeaves, Flags;
    KernelFlags(tramp, tf);
    assert Frames(u.leaf, 0, 0) == {};
  }

  lemma FailedCopy(lo: int, hi: int, u: Tree, tramp: int, tf: int)
    requires u.leaf == KernelLeaves(tramp, tf)
    ensures ProcLeaves(u.leaf, 0) && Frames(u.leaf, 0, 0) == {}
  {
    KernelFlags(tramp, tf);
  }

  lemma CanCopy(mem: Mem, head: int, free: seq<int>, mem': Mem, head': int, free': seq<int>, lo: int, hi: int,
                s: Space, u: Tree, tramp: int, tf: int)
    requires SpaceOk(mem, head, free, lo, hi, s) && Sound(mem', head', free', lo, hi, u)
    requires u.leaf == KernelLeaves(tramp, tf)
    requires Changed(mem, mem', Elems(free)) && Elems(free) == Elems(free') + Nodes(u) + {tf}
    ensures Sound(mem', head', free', lo, hi, s.t) && Nodes(s.t) !! Nodes(u)
    ensures 0 <= s.sz <= MAXPAGE * PGSIZE
    ensures Readable(mem', Elems(free'), s.t, u, Pages(s.sz))
    ensures forall v :: v in u.leaf ==> !(0 <= v < Pages(s.sz))
  {
    hide FreeList, TreeOk, Nodes, Elems, KernelLeaves, Flags;
    KernelFlags(tramp, tf);
    OwnNotFree(mem, head, free, lo, hi, s);
    TreeFrame(mem, mem', s.t);
    forall v | v in s.t.leaf && 0 <= v < Pages(s.sz)
      ensures Ppn(s.t.leaf[v]) in mem' && Ppn(s.t.leaf[v]) !in Elems(free') && Ppn(s.t.leaf[v]) !in Nodes(u)
    {
      FrameAt(s.t.leaf, 0, Pages(s.sz), v);
    }
  }

  /** The address space that a successful copy gives the child. */
  lemma ForkSpace(mem0: Mem, head0: int, free0: seq<int>, mem1: Mem, head1: int, free1: seq<int>, mem: Mem,
                  head: int, free: seq<int>,
                  lo: int, hi: int, s: Space, u: Tree, u': Tree, tramp: int, tf: int)
    requires SpaceOk(mem0, head0, free0, lo, hi, s)
    requires u.leaf == KernelLeaves(tramp, tf) && lo <= tf < hi && tf in mem1 && tf !in Elems(free1) && tf !in Nodes(u)
    requires Changed(mem0, mem1, Elems(free0)) && Elems(free0) == Elems(free1) + Nodes(u) + {tf}
    requires Sound(mem, head, free, lo, hi, u') && Changed(mem1, mem, Elems(free1) + Nodes(u))
    requires Cut(u'.leaf, 0, Pages(s.sz)) == u.leaf
    requires Copied(mem1, s.t.leaf, mem, u'.leaf, Pages(s.sz))
    requires OwnsFrames(mem, free, lo, hi, u', 0, Pages(s.sz))
    requires Took(free1, u, free, u', 0, Pages(s.sz))
    ensures var s' := Space(u', s.sz, tf);
            && SpaceOk(mem, head, free, lo, hi, s') && Elems(free) + Own(s') == Elems(free0)
            && Changed(mem0, mem, Elems(free0)) && View(mem, s') == View(mem0, s) && Resident(s') == Resident(s)
  {
    hide FreeList, TreeOk, Nodes, Elems, KernelLeaves, Flags, Frames;
    OwnNotFree(mem0, head0, free0, lo, hi, s);
    ForkLeaves(s, u, u', mem1, mem, tramp, tf);
    forall v | 0 <= v < Pages(s.sz)
      ensures PageView(mem, u'.leaf, v) == PageView(mem0, s.t.leaf, v)
    {
      if v in s.t.leaf {
        FrameAt(s.t.leaf, 0, Pages(s.sz), v);
      }
    }
  }

  lemma ForkLeaves(s: Space, u: Tree, u': Tree, mem1: Mem, mem: Mem, tramp: int, tf: int)
    requires UserLeaves(s) && 0 <= s.sz < MAXSZ && u.leaf == KernelLeaves(tramp, tf)
    requires Cut(u'.leaf, 0, Pages(s.sz)) == u.leaf && Copied(mem1, s.t.leaf, mem, u'.leaf, Pages(s.sz))
    ensures UserLeaves(Space(u', s.sz, tf))
  {
    hide Flags, KernelLeaves;
    KernelFlags(tramp, tf);
    var n := Pages(s.sz);
    forall v | v in u'.leaf
      ensures Flags(u'.leaf[v]) != PTE_V && (v == TRAMPOLINE || v == TRAPFRAME || 0 <= v < n)
    {
      CutAt(u'.leaf, 0, n, v);
    }
    CutAt(u'.leaf, 0, n, TRAMPOLINE);
    CutAt(u'.leaf, 0, n, TRAPFRAME);
  }

  lemma CanFree(mem: Mem, head: int, free: seq<int>, lo: int, hi: int, s: Space)
    requires SpaceOk(mem, head, free, lo, hi, s)
    ensures FreeList(mem, head, free, lo, hi) && lo <= s.tf < hi && s.tf in mem && s.tf !in free
    ensures ProcLeaves(s.t.leaf, Pages(s.sz)) && 0 <= s.sz && Pages(s.sz) <= TRAPFRAME
  {
    hide FreeList, TreeOk, Nodes, Flags;
    IsElem(free, s.tf);
  }

  lemma AfterKfree(mem: Mem, head: int, free: seq<int>, mem': Mem, head': int, free': seq<int>, lo: int, hi: int,
                   s: Space)
    requires SpaceOk(mem, head, free, lo, hi, s) && FreeList(mem', head', free', lo, hi)
    requires Changed(mem, mem', {s.tf}) && Elems(free') == Elems(free) + {s.tf}
    ensures Sound(mem', head', free', lo, hi, s.t)
    ensures OwnsFrames(mem', free', lo, hi, s.t, 0, Pages(s.sz))
  {
    hide FreeList, TreeOk, Nodes, Elems;
    OwnNotFree(mem, head, free, lo, hi, s);
    TreeFrame(mem, mem', s.t);
    forall v | v in s.t.leaf && 0 <= v < Pages(s.sz)
      ensures OwnedPage(mem', free', lo, hi, s.t, v)
    {
      assert OwnedPage(mem, free, lo, hi, s.t, v);
      FrameAt(s.t.leaf, 0, Pages(s.sz), v);
      IsElem(free', Ppn(s.t.leaf[v]));
    }
  }

  lemma CanShrink(mem: Mem, head: int, free: seq<int>, lo: int, hi: int, s: Space, newsz: int)
    requires SpaceOk(mem, head, free, lo, hi, s) && 0 <= newsz < s.sz
    ensures forall w :: w in s.t.leaf && Pages(newsz) <= w < Pages(s.sz) ==> Flags(s.t.leaf[w]) != PTE_V
    ensures OwnsFrames(mem, free, lo, hi, s.t, Pages(newsz), Pages(s.sz))
    ensures Pages(s.sz) <= MAXPAGE
  {
    OwnsPart(mem, free, lo, hi, s.t, 0, Pages(newsz), Pages(s.sz));
  }

  lemma NoShrink(mem: Mem, free: seq<int>, lo: int, hi: int, s: Space, newsz: int)
    requires 0 <= s.sz <= newsz && s.sz < MAXSZ
    ensures Pages(newsz) >= Pages(s.sz)
    ensures OwnsFrames(mem, free, lo, hi, s.t, Pages(newsz), Pages(s.sz))
    ensures Pages(s.sz) <= MAXPAGE
  {
  }

  // ---------------------------------------------------------------- every run

  /** Each page of the pool has exactly one owner: the free list or one process. */
  lemma OneOwner(mem: Mem, head: int, free: seq<int>, lo: int, hi: int, spaces: map<int, Space>, pool: set<int>, x: int)
    requires AllOk(mem, head, free, lo, hi, spaces) && Conserved(free, spaces, pool) && x in pool
    ensures x in Elems(free) <==> forall p :: p in spaces ==> x !in Own(spaces[p])
    ensures forall p, q :: p in spaces && q in spaces && x in Own(spaces[p]) && x in Own(spaces[q]) ==> p == q
  {
    hide SpaceOk, Own, Elems, FreeList;
    if x in Elems(free) {
      forall p | p in spaces
        ensures x !in Own(spaces[p])
      {
        OwnFree(mem, head, free, lo, hi, spaces[p]);
      }
    } else {
      var p := OwnerOf(spaces, x);
    }
  }
}
