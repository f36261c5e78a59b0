/** kernel/kalloc.c and kernel/vm.c: the free list threaded through the free pages, and the operations
    on page tables, each changing the pages of memory in place.

    Every operation on a page table is proved against the flat map `leaf` of its `Tree`, and says
    where each page it took from or gave to the free list went. */
module Vm {
  import opened PageTable

  // ---------------------------------------------------------------- the free list

  function Elems(s: seq<int>): (r: set<int>) {
    set p | p in s
  }

  ghost function NextFree(free: seq<int>, i: nat): (p: int)
    requires i < |free|
  {
    if i + 1 < |free| then free[i + 1] else 0
  }

  /** `free` is the list that starts at head and runs through the first word of each free page. */
  ghost predicate FreeList(mem: Mem, head: int, free: seq<int>, lo: int, hi: int) {
    && 0 < lo <= hi
    && head == (if free == [] then 0 else free[0])
    && (forall i :: 0 <= i < |free| ==> lo <= free[i] < hi && free[i] in mem && mem[free[i]][0] == NextFree(free, i))
    && (forall i, j :: 0 <= i < j < |free| ==> free[i] != free[j])
  }

  lemma FreePop(mem: Mem, head: int, free: seq<int>, lo: int, hi: int)
    requires FreeList(mem, head, free, lo, hi) && free != []
    ensures head == free[0] && lo <= head < hi && head in mem && head !in free[1..]
    ensures FreeList(mem, mem[head][0], free[1..], lo, hi)
    ensures Elems(free) == Elems(free[1..]) + {head}
  {
    assert mem[free[0]][0] == NextFree(free, 0);
    assert free == [free[0]] + free[1..];
    forall i | 0 <= i < |free| - 1
      ensures mem[free[1..][i]][0] == NextFree(free[1..], i)
    {
      assert free[1..][i] == free[i + 1];
    }
  }

  lemma PushAt(free: seq<int>, p: int, i: nat)
    requires i <= |free|
    ensures ([p] + free)[i] == if i == 0 then p else free[i - 1]
    ensures NextFree([p] + free, i) == if i == 0 then (if free == [] then 0 else free[0]) else NextFree(free, i - 1)
  {
  }

  lemma FreePush(mem: Mem, head: int, free: seq<int>, lo: int, hi: int, p: int)
    requires FreeList(mem, head, free, lo, hi)
    requires lo <= p < hi && p !in free && p in mem && mem[p][0] == head
    ensures FreeList(mem, p, [p] + free, lo, hi)
    ensures Elems([p] + free) == Elems(free) + {p}
  {
    hide NextFree;
    var f := [p] + free;
    forall i | 0 <= i < |f|
      ensures lo <= f[i] < hi && f[i] in mem && mem[f[i]][0] == NextFree(f, i)
    {
      PushAt(free, p, i);
    }
    forall i, j | 0 <= i < j < |f|
      ensures f[i] != f[j]
    {
      PushAt(free, p, i);
      PushAt(free, p, j);
    }
  }

  lemma FreeFrame(mem: Mem, mem': Mem, head: int, free: seq<int>, lo: int, hi: int)
    requires FreeList(mem, head, free, lo, hi)
    requires forall p :: p in free && p in mem ==> p in mem' && mem'[p] == mem[p]
    ensures FreeList(mem', head, free, lo, hi)
  {
    assert forall i :: 0 <= i < |free| ==> free[i] in free;
  }

  // ---------------------------------------------------------------- free list and one tree

  /** The free list and the table pages of t are disjoint sets of allocator pages. */
  ghost predicate Sound(mem: Mem, head: int, free: seq<int>, lo: int, hi: int, t: Tree) {
    && FreeList(mem, head, free, lo, hi)
    && TreeOk(mem, t)
    && Elems(free) !! Nodes(t)
    && forall p :: p in Nodes(t) ==> lo <= p < hi && p in mem
  }

  /** Only the given pages changed. */
  ghost predicate Changed(mem: Mem, mem': Mem, s: set<int>) {
    mem'.Keys == mem.Keys && forall p :: p in mem && p !in s ==> mem'[p] == mem[p]
  }

  /** t' is t with more table pages, which came from the free list. */
  ghost predicate Grown(free: seq<int>, t: Tree, free': seq<int>, t': Tree) {
    && t'.root == t.root
    && Nodes(t) <= Nodes(t')
    && Elems(free) == Elems(free') + (Nodes(t') - Nodes(t))
  }

  lemma GrownTrans(free: seq<int>, t: Tree, free1: seq<int>, t1: Tree, free2: seq<int>, t2: Tree)
    requires Grown(free, t, free1, t1) && Grown(free1, t1, free2, t2)
    requires Elems(free) !! Nodes(t)
    ensures Grown(free, t, free2, t2)
  {
  }

  /** `walk` takes the first free page for a table below the root. */
  lemma GrowLevel1(mem: Mem, head: int, free: seq<int>, lo: int, hi: int, t: Tree, k: int)
    requires Sound(mem, head, free, lo, hi, t) && free != []
    requires 0 <= k < ENTRIES && k !in t.l1
    ensures var page := free[0];
            && page in mem && t.root in mem
            && var mem', t' := mem[page := Zero()][t.root := mem[t.root][k := MakePte(page, 0)]],
               t.(l1 := t.l1[k := MakePte(page, 0)]);
            && Sound(mem', mem[page][0], free[1..], lo, hi, t')
            && Grown(free, t, free[1..], t')
            && Changed(mem, mem', Elems(free) + Nodes(t))
  {
    hide TreeOk, Nodes;
    FreePop(mem, head, free, lo, hi);
    hide FreeList;
    var page := free[0];
    assert page in Elems(free);
    NodesOf(t);
    AddTable1(mem, t, k, page);
    NodesAdd1(t, k, page);
    var mem' := mem[page := Zero()][t.root := mem[t.root][k := MakePte(page, 0)]];
    assert t.root !in free by { assert t.root !in Elems(free); }
    FreeFrame(mem, mem', mem[page][0], free[1..], lo, hi);
  }

  lemma GrowLevel0(mem: Mem, head: int, free: seq<int>, lo: int, hi: int, t: Tree, k: int)
    requires Sound(mem, head, free, lo, hi, t) && free != []
    requires k / 512 in t.l1 && k !in t.l0
    ensures var page, p := free[0], Ppn(t.l1[k / 512]);
            && page in mem && p in mem
            && var mem', t' := mem[page := Zero()][p := mem[p][k % 512 := MakePte(page, 0)]],
               t.(l0 := t.l0[k := MakePte(page, 0)]);
            && Sound(mem', mem[page][0], free[1..], lo, hi, t')
            && Grown(free, t, free[1..], t')
            && Changed(mem, mem', Elems(free) + Nodes(t))
  {
    hide TreeOk, Nodes;
    FreePop(mem, head, free, lo, hi);
    hide FreeList;
    var page, p := free[0], Ppn(t.l1[k / 512]);
    assert page in Elems(free);
    NodesOf(t);
    AddTable0(mem, t, k, page);
    NodesAdd0(t, k, page);
    var mem' := mem[page := Zero()][p := mem[p][k % 512 := MakePte(page, 0)]];
    assert p !in free by { assert p !in Elems(free); }
    FreeFrame(mem, mem', mem[page][0], free[1..], lo, hi);
  }

  /** Writing a leaf entry of t. */
  lemma StoreLeaf(mem: Mem, head: int, free: seq<int>, lo: int, hi: int, t: Tree, v: int, pte: int)
    requires Sound(mem, head, free, lo, hi, t) && v / 512 in t.l0 && IsValid(pte)
    ensures var p := Ppn(t.l0[v / 512]);
            && p in mem && p in Nodes(t)
            && var t' := t.(leaf := t.leaf[v := pte]);
            && Nodes(t') == Nodes(t)
            && Sound(mem[p := mem[p][v % 512 := pte]], head, free, lo, hi, t')
  {
    hide FreeList, TreeOk;
    var p := Ppn(t.l0[v / 512]);
    SetLeaf(mem, t, v, pte);
    NodesOf(t);
    assert p !in Elems(free);
    FreeFrame(mem, mem[p := mem[p][v % 512 := pte]], head, free, lo, hi);
  }

  lemma EraseLeaf(mem: Mem, head: int, free: seq<int>, lo: int, hi: int, t: Tree, v: int)
    requires Sound(mem, head, free, lo, hi, t) && v / 512 in t.l0
    ensures var p := Ppn(t.l0[v / 512]);
            && p in mem && p in Nodes(t)
            && var t' := t.(leaf := t.leaf - {v});
            && Nodes(t') == Nodes(t)
            && Sound(mem[p := mem[p][v % 512 := 0]], head, free, lo, hi, t')
  {
    hide FreeList, TreeOk;
    var p := Ppn(t.l0[v / 512]);
    ClearLeaf(mem, t, v);
    NodesOf(t);
    assert p !in Elems(free);
    FreeFrame(mem, mem[p := mem[p][v % 512 := 0]], head, free, lo, hi);
  }

  /** The flat map after mapping n pages from v to physical pages from ppn. */
  ghost function MapRange(leaf: map<int, int>, v: int, n: nat, ppn: int, perm: int): (r: map<int, int>)
    requires 0 <= perm < 1024
  {
    if n == 0 then leaf else MapRange(leaf, v, n - 1, ppn, perm)[v + n - 1 := MakePte(ppn + n - 1, perm)]
  }

  lemma {:induction false} MapRangeAt(leaf: map<int, int>, v: int, n: nat, ppn: int, perm: int, w: int)
    requires 0 <= perm < 1024
    ensures var r := MapRange(leaf, v, n, ppn, perm);
            && (w in r <==> v <= w < v + n || w in leaf)
            && (w in r ==> r[w] == if v <= w < v + n then MakePte(ppn + w - v, perm) else leaf[w])
  {
    if n > 0 {
      MapRangeAt(leaf, v, n - 1, ppn, perm, w);
    }
  }

  lemma MapRangeOne(leaf: map<int, int>, v: int, ppn: int, perm: int)
    requires 0 <= perm < 1024
    ensures MapRange(leaf, v, 0, ppn, perm) == leaf
    ensures MapRange(leaf, v, 1, ppn, perm) == leaf[v := MakePte(ppn, perm)]
  {
  }

  datatype MapResult = Mapped | NoMemory | Remap

  /** The flat map without the pages [a, b). */
  ghost function Cut(leaf: map<int, int>, a: int, b: int): (r: map<int, int>) {
    map v | v in leaf && !(a <= v < b) :: leaf[v]
  }

  /** The physical pages that the pages [a, b) are mapped to. */
  ghost function Frames(leaf: map<int, int>, a: int, b: int): (r: set<int>) {
    set v | v in leaf && a <= v < b :: Ppn(leaf[v])
  }

  /** Entry v maps an allocator page that is neither free nor a table of t. */
  ghost predicate OwnedPage(mem: Mem, free: seq<int>, lo: int, hi: int, t: Tree, v: int)
    requires v in t.leaf
  {
    var p := Ppn(t.leaf[v]);
    lo <= p < hi && p in mem && p !in free && p !in Nodes(t)
  }

  /** The pages [a, b) are mapped to allocator pages of their own. */
  ghost predicate OwnsFrames(mem: Mem, free: seq<int>, lo: int, hi: int, t: Tree, a: int, b: int) {
    && (forall v :: v in t.leaf && a <= v < b ==> OwnedPage(mem, free, lo, hi, t, v))
    && (forall v, w :: v in t.leaf && w in t.leaf && a <= v < w < b ==> Ppn(t.leaf[v]) != Ppn(t.leaf[w]))
  }

  lemma CutNone(leaf: map<int, int>, a: int)
    ensures Cut(leaf, a, a) == leaf && Frames(leaf, a, a) == {}
  {
  }

  lemma CutAt(leaf: map<int, int>, a: int, b: int, v: int)
    ensures v in Cut(leaf, a, b) <==> v in leaf && !(a <= v < b)
    ensures v in Cut(leaf, a, b) ==> Cut(leaf, a, b)[v] == leaf[v]
  {
  }

  lemma OwnsFirst(mem: Mem, free: seq<int>, lo: int, hi: int, t: Tree, a: int, b: int)
    requires OwnsFrames(mem, free, lo, hi, t, a, b) && a < b && a in t.leaf
    ensures OwnedPage(mem, free, lo, hi, t, a)
  {
  }

  lemma CutStep(leaf: map<int, int>, a: int, b: int)
    requires a <= b
    ensures b !in leaf ==> Cut(leaf, a, b + 1) == Cut(leaf, a, b) && Frames(leaf, a, b + 1) == Frames(leaf, a, b)
    ensures b in leaf ==>
              Cut(leaf, a, b + 1) == Cut(leaf, a, b) - {b}
              && Frames(leaf, a, b + 1) == Frames(leaf, a, b) + {Ppn(leaf[b])}
  {
  }

  /** Unmapping page b and freeing its frame leaves the frames of the later pages owned. */
  lemma OwnedStill(mem: Mem, free: seq<int>, mem': Mem, free': seq<int>, lo: int, hi: int, t: Tree, t': Tree, b: int,
                   e: int)
    requires OwnsFrames(mem, free, lo, hi, t, b, e) && b < e
    requires t' == t.(leaf := t.leaf - {b}) && Nodes(t') == Nodes(t)
    requires mem'.Keys == mem.Keys
    requires Elems(free') <= Elems(free) + if b in t.leaf then {Ppn(t.leaf[b])} else {}
    ensures OwnsFrames(mem', free', lo, hi, t', b + 1, e)
  {
    hide Nodes;
    forall v | v in t'.leaf && b + 1 <= v < e
      ensures OwnedPage(mem', free', lo, hi, t', v)
    {
      assert OwnedPage(mem, free, lo, hi, t, v);
      var p := Ppn(t.leaf[v]);
      assert p !in Elems(free) by { NotElem(free, p); }
      assert p !in Elems(free');
    }
  }

  /** PGROUNDUP(sz) / PGSIZE. */
  function Pages(sz: int): (n: int) {
    (sz + PGSIZE - 1) / PGSIZE
  }

  /** Table pages are not free, not null and distinct from the list. */
  lemma TableNotFree(mem: Mem, head: int, free: seq<int>, lo: int, hi: int, t: Tree, p: int)
    requires Sound(mem, head, free, lo, hi, t)
    requires p == t.root || (exists q :: q in t.l1 && p == Ppn(t.l1[q])) || exists q :: q in t.l0 && p == Ppn(t.l0[q])
    ensures p in Nodes(t) && p !in free && p in mem && p != 0
  {
    NodesOf(t);
    assert p !in Elems(free);
  }

  /** What `walk` reads on its way down. */
  lemma ReadRoot(mem: Mem, t: Tree, v: int)
    requires TreeOk(mem, t) && 0 <= v < MAXPAGE
    ensures var k := v / 0x4_0000;
            && k == PX(2, v) && 0 <= k < ENTRIES && t.root in mem
            && mem[t.root][k] == (if k in t.l1 then t.l1[k] else 0)
            && (k in t.l1 <==> IsValid(mem[t.root][k]))
  {
    EntryAt(mem, t.root, 0, t.l1, v / 0x4_0000);
  }

  lemma NotBelow(mem: Mem, t: Tree, v: int)
    requires TreeOk(mem, t) && v / 0x4_0000 !in t.l1
    ensures v / 512 !in t.l0
  {
    assert v / 512 / 512 == v / 0x4_0000;
  }

  lemma ReadLevel1(mem: Mem, t: Tree, v: int)
    requires TreeOk(mem, t) && 0 <= v < MAXPAGE && v / 0x4_0000 in t.l1
    ensures var k, p := v / 512, Ppn(t.l1[v / 0x4_0000]);
            && k % 512 == PX(1, v) && p in mem && k / 512 == v / 0x4_0000
            && mem[p][k % 512] == (if k in t.l0 then t.l0[k] else 0)
            && (k in t.l0 <==> IsValid(mem[p][k % 512]))
  {
    assert v / 512 / 512 == v / 0x4_0000;
    EntryAt(mem, Ppn(t.l1[v / 0x4_0000]), v / 0x4_0000, t.l0, v / 512);
  }

  lemma LeafBelow(mem: Mem, t: Tree, v: int)
    requires TreeOk(mem, t) && v / 512 !in t.l0
    ensures v !in t.leaf
  {
  }

  lemma IsElem(s: seq<int>, p: int)
    ensures p in s <==> p in Elems(s)
  {
  }

  lemma NotElem(s: seq<int>, p: int)
    requires p !in s
    ensures p !in Elems(s)
  {
  }

  lemma ReadLeaf(mem: Mem, t: Tree, v: int)
    requires TreeOk(mem, t) && v / 512 in t.l0
    ensures var p := Ppn(t.l0[v / 512]);
            && p in mem && p in Nodes(t)
            && mem[p][v % 512] == (if v in t.leaf then t.leaf[v] else 0)
            && (v in t.leaf <==> IsValid(mem[p][v % 512]))
  {
    EntryAt(mem, Ppn(t.l0[v / 512]), v / 512, t.leaf, v);
  }

  lemma SoundTree(mem: Mem, head: int, free: seq<int>, lo: int, hi: int, t: Tree)
    requires Sound(mem, head, free, lo, hi, t)
    ensures TreeOk(mem, t)
  {
  }

  /** A write to a table of the grown tree. */
  lemma LeafStored(mem0: Mem, mem: Mem, free0: seq<int>, t0: Tree, free: seq<int>, t: Tree, tbl: int, data: Page,
                   t': Tree)
    requires Changed(mem0, mem, Elems(free0) + Nodes(t0)) && Grown(free0, t0, free, t) && tbl in Nodes(t) && tbl in mem
    requires Nodes(t') == Nodes(t) && t'.root == t.root
    ensures Changed(mem0, mem[tbl := data], Elems(free0) + Nodes(t0)) && Grown(free0, t0, free, t')
  {
    hide Nodes, Elems;
  }

  const JUNK5: Page := seq(512, i => 0x0505_0505_0505_0505)
  const JUNK1: Page := seq(512, i => 0x0101_0101_0101_0101)

  /** Page p lies in the bytes [start, end). */
  ghost predicate Whole(start: int, end: int, p: int) {
    start <= p * PGSIZE && (p + 1) * PGSIZE <= end
  }

  lemma SameKeys(mem: Mem, mem': Mem, s: set<int>)
    requires Changed(mem, mem', s)
    ensures mem'.Keys == mem.Keys
  {
  }

  class Kernel {
    const lo: int   // first allocator page, PGROUNDUP(end) / PGSIZE
    const hi: int   // PHYSTOP / PGSIZE
    var mem: Mem
    var head: int   // kmem.freelist
    ghost var free: seq<int>

    constructor (lo: int, hi: int, mem: Mem)
      requires 0 < lo <= hi && forall p :: lo <= p < hi ==> p in mem
      ensures this.lo == lo && this.hi == hi && this.mem == mem && free == []
      ensures FreeList(mem, head, free, lo, hi)
    {
      this.lo, this.hi, this.mem, this.head, this.free := lo, hi, mem, 0, [];
    }

    method Kfree(p: int)
      requires FreeList(mem, head, free, lo, hi) && lo <= p < hi && p in mem && p !in free
      modifies this
      ensures FreeList(mem, head, free, lo, hi) && free == [p] + old(free)
      ensures Changed(old(mem), mem, {p})
      ensures Elems(free) == Elems(old(free)) + {p}
    {
      mem := mem[p := JUNK1];
      mem := mem[p := mem[p][0 := head]];
      FreeFrame(old(mem), mem, head, free, lo, hi);
      FreePush(mem, head, free, lo, hi, p);
      head := p;
      free := [p] + free;
    }

    method Kalloc() returns (p: int)
      requires FreeList(mem, head, free, lo, hi)
      modifies this
      ensures FreeList(mem, head, free, lo, hi)
      ensures p == 0 <==> old(free) == []
      ensures p == 0 ==> mem == old(mem) && head == old(head) && free == old(free)
      ensures p != 0 ==> p == old(free)[0] && free == old(free)[1..] && p in old(mem) && mem == old(mem)[p := JUNK5]
      ensures p != 0 ==> head == old(mem)[p][0] && lo <= p < hi && p !in free && Elems(old(free)) == Elems(free) + {p}
    {
      p := head;
      if p != 0 {
        FreePop(mem, head, free, lo, hi);
        head := mem[p][0];
        free := free[1..];
        mem := mem[p := JUNK5];
        FreeFrame(old(mem), mem, head, free, lo, hi);
      }
    }

    /** `kfree` of a byte address; false is its panic. */
    method KfreeAddress(pa: int) returns (ok: bool)
      requires FreeList(mem, head, free, lo, hi)
      requires InPool(pa) ==> pa / PGSIZE in mem && pa / PGSIZE !in free
      modifies this
      ensures FreeList(mem, head, free, lo, hi) && (ok <==> InPool(pa))
      ensures ok ==> free == [pa / PGSIZE] + old(free) && Changed(old(mem), mem, {pa / PGSIZE})
      ensures !ok ==> mem == old(mem) && head == old(head) && free == old(free)
    {
      if pa % PGSIZE != 0 || pa < lo * PGSIZE || pa >= hi * PGSIZE {
        return false;
      }
      Kfree(pa / PGSIZE);
      ok := true;
    }

    /** A page-aligned address between `end` and PHYSTOP. */
    predicate InPool(pa: int) {
      pa % PGSIZE == 0 && lo * PGSIZE <= pa < hi * PGSIZE
    }

    /** `freerange`: the pages that lie in the bytes [start, end) whole, freed in turn. It panics iff one of
        them is not a page of the allocator. */
    method FreeRange(start: nat, end: nat) returns (ok: bool)
      requires FreeList(mem, head, free, lo, hi)
      requires forall p :: Whole(start, end, p) && lo <= p < hi ==> p in mem && p !in free
      modifies this
      ensures FreeList(mem, head, free, lo, hi)
      ensures ok <==> forall p :: Whole(start, end, p) ==> lo <= p < hi
      ensures ok ==> forall p :: p in free <==> p in old(free) || Whole(start, end, p)
    {
      hide FreeList, Changed;
      var p := (start + PGSIZE - 1) / PGSIZE;
      ghost var p0 := p;
      while (p + 1) * PGSIZE <= end
        invariant p0 <= p && FreeList(mem, head, free, lo, hi) && mem.Keys == old(mem).Keys
        invariant forall q :: p0 <= q < p ==> Whole(start, end, q) && lo <= q < hi
        invariant forall q :: q in free <==> q in old(free) || p0 <= q < p
        decreases end - p * PGSIZE
      {
        assert Whole(start, end, p);
        ghost var mem0 := mem;
        ok := KfreeAddress(p * PGSIZE);
        if !ok {
          return;
        }
        assert p * PGSIZE / PGSIZE == p && lo <= p < hi;
        SameKeys(mem0, mem, {p});
        p := p + 1;
      }
      ok := true;
    }

    /** One level of `walk`: follow entry i of table pt, or point it at a new zeroed page. */
    method Descend(pt: int, i: int, alloc: bool) returns (next: int)
      requires FreeList(mem, head, free, lo, hi) && pt in mem && pt !in free && 0 <= i < ENTRIES
      modifies this
      ensures IsValid(old(mem)[pt][i]) ==> next == Ppn(old(mem)[pt][i])
      ensures IsValid(old(mem)[pt][i]) || !alloc || old(free) == [] ==>
                mem == old(mem) && head == old(head) && free == old(free)
      ensures !IsValid(old(mem)[pt][i]) && (!alloc || old(free) == []) ==> next == 0
      ensures !IsValid(old(mem)[pt][i]) && alloc && old(free) != [] ==>
                && next == old(free)[0] && next in old(mem) && next != 0
                && mem == old(mem)[next := Zero()][pt := old(mem)[pt][i := MakePte(next, 0)]]
                && free == old(free)[1..] && head == old(mem)[next][0]
    {
      hide FreeList;
      var pte := mem[pt][i];
      if IsValid(pte) {
        return Ppn(pte);
      }
      if !alloc {
        return 0;
      }
      next := Kalloc();
      if next == 0 {
        return 0;
      }
      mem := mem[next := Zero()];
      mem := mem[pt := mem[pt][i := MakePte(next, 0)]];
      assert next in old(free);
      assert mem == old(mem)[next := Zero()][pt := old(mem)[pt][i := MakePte(next, 0)]];
    }

    /** `walk`: the page of the level-0 table that holds the entry for page v, or 0. The entry is the
        one at index PX(0, va). A failing `walk` may already have added a level-1 table. */
    method Walk(root: int, v: int, alloc: bool, ghost t: Tree) returns (tbl: int, ghost t': Tree)
      requires Sound(mem, head, free, lo, hi, t) && root == t.root && 0 <= v < MAXPAGE
      modifies this
      ensures Sound(mem, head, free, lo, hi, t') && Grown(old(free), t, free, t') && t'.leaf == t.leaf
      ensures Changed(old(mem), mem, Elems(old(free)) + Nodes(t))
      ensures tbl != 0 ==> v / 512 in t'.l0 && tbl == Ppn(t'.l0[v / 512])
      ensures tbl == 0 && alloc ==> free == [] && |old(free)| <= 1
      ensures |old(free)| - 2 <= |free| <= |old(free)|
      ensures !alloc ==> mem == old(mem) && head == old(head) && free == old(free) && t' == t
      ensures !alloc ==> (tbl == 0 <==> v / 512 !in t.l0)
    {
      hide FreeList, TreeOk, Nodes, Elems;
      t' := t;
      tbl := root;
      TableNotFree(mem, head, free, lo, hi, t, root);
      for level := 3 downto 1
        invariant Sound(mem, head, free, lo, hi, t') && Grown(old(free), t, free, t') && t'.leaf == t.leaf
        invariant Changed(old(mem), mem, Elems(old(free)) + Nodes(t))
        invariant !alloc ==> mem == old(mem) && head == old(head) && free == old(free) && t' == t
        invariant tbl != 0 && |old(free)| - (3 - level) <= |free| <= |old(free)|
        invariant level == 3 ==> tbl == root && t' == t
        invariant level == 2 ==> v / 0x4_0000 in t'.l1 && tbl == Ppn(t'.l1[v / 0x4_0000])
        invariant level == 1 ==> v / 512 in t'.l0 && tbl == Ppn(t'.l0[v / 512])
      {
        if level == 2 {
          ReadRoot(mem, t', v);
          TableNotFree(mem, head, free, lo, hi, t', t'.root);
          if v / 0x4_0000 in t'.l1 {
            TableNotFree(mem, head, free, lo, hi, t', Ppn(t'.l1[v / 0x4_0000]));
          } else {
            NotBelow(mem, t', v);
          }
          if v / 0x4_0000 !in t'.l1 && free != [] {
            GrowLevel1(mem, head, free, lo, hi, t', v / 0x4_0000);
          }
        } else {
          ReadLevel1(mem, t', v);
          TableNotFree(mem, head, free, lo, hi, t', tbl);
          if v / 512 in t'.l0 {
            TableNotFree(mem, head, free, lo, hi, t', Ppn(t'.l0[v / 512]));
          }
          if v / 512 !in t'.l0 && free != [] {
            GrowLevel0(mem, head, free, lo, hi, t', v / 512);
          }
        }
        var next := Descend(tbl, PX(level, v), alloc);
        tbl := next;
        if next == 0 {
          return;
        }
        if level == 2 {
          if v / 0x4_0000 !in t'.l1 {
            t' := t'.(l1 := t'.l1[v / 0x4_0000 := MakePte(next, 0)]);
          }
        } else {
          if v / 512 !in t'.l0 {
            t' := t'.(l0 := t'.l0[v / 512 := MakePte(next, 0)]);
          }
        }
      }
    }

    /** One iteration of `mappages`. */
    method MapOne(root: int, a: int, pa: int, perm: int, ghost t: Tree) returns (r: MapResult, ghost t': Tree)
      requires Sound(mem, head, free, lo, hi, t) && root == t.root && 0 <= a < MAXPAGE && 0 <= perm < 1024
      modifies this
      ensures Sound(mem, head, free, lo, hi, t') && Grown(old(free), t, free, t')
      ensures Changed(old(mem), mem, Elems(old(free)) + Nodes(t))
      ensures r == Mapped ==> a !in t.leaf && t'.leaf == t.leaf[a := MakePte(pa, perm)]
      ensures r == NoMemory ==> free == [] && t'.leaf == t.leaf && |old(free)| <= 1
      ensures r == Remap ==> a in t.leaf && t'.leaf == t.leaf
      ensures |old(free)| - 2 <= |free| <= |old(free)|
    {
      hide FreeList, TreeOk, Nodes, Elems, MakePte, Sound, Grown, Changed;
      var tbl;
      tbl, t' := Walk(root, a, true, t);
      if tbl == 0 {
        return NoMemory, t';
      }
      SoundTree(mem, head, free, lo, hi, t');
      ReadLeaf(mem, t', a);
      if IsValid(mem[tbl][PX(0, a)]) {
        return Remap, t';
      }
      MakePteInverse(pa, perm);
      StoreLeaf(mem, head, free, lo, hi, t', a, MakePte(pa, perm));
      LeafStored(old(mem), mem, old(free), t, free, t', tbl, mem[tbl][PX(0, a) := MakePte(pa, perm)],
          t'.(leaf := t'.leaf[a := MakePte(pa, perm)]));
      mem := mem[tbl := mem[tbl][PX(0, a) := MakePte(pa, perm)]];
      t' := t'.(leaf := t'.leaf[a := MakePte(pa, perm)]);
      return Mapped, t';
    }

    /** `mappages` on the bytes [va, va + size). On failure the first k pages stay mapped. */
    method Mappages(root: int, va: int, size: int, ppn: int, perm: int, ghost t: Tree)
        returns (r: MapResult, ghost t': Tree, ghost k: nat)
      requires Sound(mem, head, free, lo, hi, t) && root == t.root
      requires 0 <= va && 0 < size && va + size <= MAXPAGE * PGSIZE && 0 <= perm < 1024
      modifies this
      ensures Sound(mem, head, free, lo, hi, t') && Grown(old(free), t, free, t')
      ensures Changed(old(mem), mem, Elems(old(free)) + Nodes(t))
      ensures t'.leaf == MapRange(t.leaf, va / PGSIZE, k, ppn, perm)
      ensures forall w :: va / PGSIZE <= w < va / PGSIZE + k ==> w !in t.leaf
      ensures var n := (va + size - 1) / PGSIZE - va / PGSIZE + 1;
              && (r == Mapped ==> k == n)
              && (r == NoMemory ==> k < n && free == [] && |old(free)| <= 2 * k + 1)
              && (r == Remap ==> k < n && va / PGSIZE + k in t.leaf)
              && |old(free)| - 2 * n <= |free| <= |old(free)|
    {
      hide FreeList, TreeOk, Nodes, Elems, MakePte;
      var a, last, pa := va / PGSIZE, (va + size - 1) / PGSIZE, ppn;
      t', k := t, 0;
      while true
        invariant va / PGSIZE <= a <= last && a == va / PGSIZE + k && pa == ppn + k
        invariant |old(free)| - 2 * k <= |free| <= |old(free)|
        invariant Sound(mem, head, free, lo, hi, t') && Grown(old(free), t, free, t')
        invariant Changed(old(mem), mem, Elems(old(free)) + Nodes(t))
        invariant t'.leaf == MapRange(t.leaf, va / PGSIZE, k, ppn, perm)
        invariant forall w :: va / PGSIZE <= w < va / PGSIZE + k ==> w !in t.leaf
        decreases last - a
      {
        ghost var free1, t1 := free, t';
        MapRangeAt(t.leaf, va / PGSIZE, k, ppn, perm, a);
        r, t' := MapOne(root, a, pa, perm, t');
        GrownTrans(old(free), t, free1, t1, free, t');
        if r != Mapped {
          return;
        }
        k := k + 1;
        if a == last {
          break;
        }
        a, pa := a + 1, pa + 1;
      }
    }

    /** One iteration of `uvmunmap`: page a is unmapped, and its frame freed if asked. */
    method UnmapOne(root: int, a: int, doFree: bool, ghost t: Tree) returns (ghost t': Tree)
      requires Sound(mem, head, free, lo, hi, t) && root == t.root && 0 <= a < MAXPAGE
      requires a in t.leaf ==> Flags(t.leaf[a]) != PTE_V
      requires doFree && a in t.leaf ==> OwnedPage(mem, free, lo, hi, t, a)
      modifies this
      ensures t' == t.(leaf := t.leaf - {a})
      ensures Sound(mem, head, free, lo, hi, t') && Nodes(t') == Nodes(t)
      ensures Changed(old(mem), mem, Nodes(t) + Elems(free) - Elems(old(free)))
      ensures Elems(free) == Elems(old(free)) + if doFree && a in t.leaf then {Ppn(t.leaf[a])} else {}
    {
      hide FreeList, TreeOk, Nodes, Elems;
      var tbl;
      tbl, t' := Walk(root, a, false, t);
      t' := t.(leaf := t.leaf - {a});
      if tbl == 0 {
        LeafBelow(mem, t, a);
        assert t' == t;
        return;
      }
      ReadLeaf(mem, t, a);
      var pte := mem[tbl][PX(0, a)];
      if !IsValid(pte) {
        assert t' == t;
        return;
      }
      if doFree {
        var pa := Ppn(pte);
        assert pa !in Elems(free) by { NotElem(free, pa); }
        Kfree(pa);
        TreeFrame(old(mem), mem, t);
      }
      EraseLeaf(mem, head, free, lo, hi, t, a);
      mem := mem[tbl := mem[tbl][PX(0, a) := 0]];
    }

    /** `uvmunmap` of npages pages from v. */
    method Uvmunmap(root: int, v: int, npages: int, doFree: bool, ghost t: Tree) returns (ghost t': Tree)
      requires Sound(mem, head, free, lo, hi, t) && root == t.root
      requires 0 <= v && 0 <= npages && v + npages <= MAXPAGE
      requires forall w :: w in t.leaf && v <= w < v + npages ==> Flags(t.leaf[w]) != PTE_V
      requires doFree ==> OwnsFrames(mem, free, lo, hi, t, v, v + npages)
      modifies this
      ensures t' == t.(leaf := Cut(t.leaf, v, v + npages))
      ensures Sound(mem, head, free, lo, hi, t') && Nodes(t') == Nodes(t)
      ensures Elems(free) == Elems(old(free)) + if doFree then Frames(t.leaf, v, v + npages) else {}
      ensures Changed(old(mem), mem, Nodes(t) + if doFree then Frames(t.leaf, v, v + npages) else {})
    {
      hide FreeList, TreeOk, Nodes, Elems, OwnsFrames, OwnedPage, Cut, Frames;
      t' := t;
      CutNone(t.leaf, v);
      var a := v;
      while a < v + npages
        invariant v <= a <= v + npages
        invariant t' == t.(leaf := Cut(t.leaf, v, a))
        invariant Sound(mem, head, free, lo, hi, t') && Nodes(t') == Nodes(t)
        invariant doFree ==> OwnsFrames(mem, free, lo, hi, t', a, v + npages)
        invariant Elems(free) == Elems(old(free)) + if doFree then Frames(t.leaf, v, a) else {}
        invariant Changed(old(mem), mem, Nodes(t) + if doFree then Frames(t.leaf, v, a) else {})
      {
        CutAt(t.leaf, v, a, a);
        CutStep(t.leaf, v, a);
        ghost var mem1, free1, t1 := mem, free, t';
        if doFree && a in t1.leaf {
          OwnsFirst(mem, free, lo, hi, t1, a, v + npages);
        }
        t' := UnmapOne(root, a, doFree, t');
        if doFree {
          OwnedStill(mem1, free1, mem, free, lo, hi, t1, t', a, v + npages);
        }
        a := a + 1;
      }
    }

    /** `uvmdealloc`: shrink from oldsz to newsz bytes. */
    method Uvmdealloc(root: int, oldsz: int, newsz: int, ghost t: Tree) returns (r: int, ghost t': Tree)
      requires Sound(mem, head, free, lo, hi, t) && root == t.root
      requires 0 <= oldsz && 0 <= newsz && Pages(oldsz) <= MAXPAGE
      requires forall w :: w in t.leaf && Pages(newsz) <= w < Pages(oldsz) ==> Flags(t.leaf[w]) != PTE_V
      requires OwnsFrames(mem, free, lo, hi, t, Pages(newsz), Pages(oldsz))
      modifies this
      ensures r == if newsz >= oldsz then oldsz else newsz
      ensures newsz >= oldsz ==> mem == old(mem) && head == old(head) && free == old(free)
      ensures t' == t.(leaf := if newsz < oldsz then Cut(t.leaf, Pages(newsz), Pages(oldsz)) else t.leaf)
      ensures Sound(mem, head, free, lo, hi, t') && Nodes(t') == Nodes(t)
      ensures Elems(free) == Elems(old(free)) + if newsz < oldsz then Frames(t.leaf, Pages(newsz), Pages(oldsz)) else {}
      ensures Changed(old(mem), mem, Nodes(t) + if newsz < oldsz then Frames(t.leaf, Pages(newsz), Pages(oldsz))
              else {})
    {
      hide FreeList, TreeOk, Nodes, Elems, OwnsFrames, Cut, Frames;
      t' := t;
      if newsz >= oldsz {
        return oldsz, t';
      }
      if Pages(newsz) < Pages(oldsz) {
        t' := Uvmunmap(root, Pages(newsz), Pages(oldsz) - Pages(newsz), true, t);
      } else {
        CutNone(t.leaf, Pages(newsz));
      }
      return newsz, t';
    }

    /** mappages of one page, and kfree of its frame if that fails. */
    method MapFrame(root: int, a: int, pa: int, perm: int, ghost t: Tree) returns (ok: bool, ghost t': Tree)
      requires Sound(mem, head, free, lo, hi, t) && root == t.root
      requires 0 <= a < MAXPAGE && a !in t.leaf && 0 <= perm < 1024
      requires lo <= pa < hi && pa in mem && pa !in free && pa !in Nodes(t)
      modifies this
      ensures Sound(mem, head, free, lo, hi, t') && t'.root == t.root && Nodes(t) <= Nodes(t') && pa !in Nodes(t')
      ensures Changed(old(mem), mem, Elems(old(free)) + Nodes(t) + {pa})
      ensures !ok ==>
                && t'.leaf == t.leaf && Elems(old(free)) + {pa} == Elems(free) + (Nodes(t') - Nodes(t))
                && free == [pa] && |old(free)| <= 1
      ensures |old(free)| - 2 <= |free| && (ok ==> |free| <= |old(free)|)
      ensures ok ==>
                && t'.leaf == t.leaf[a := MakePte(pa, perm)]
                && Elems(old(free)) == Elems(free) + (Nodes(t') - Nodes(t))
                && mem[pa] == old(mem)[pa]
    {
      hide FreeList, TreeOk, Nodes, Elems, MapRange;
      NotElem(free, pa);
      var r;
      ghost var k;
      r, t', k := Mappages(root, a * PGSIZE, PGSIZE, pa, perm, t);
      MapRangeOne(t.leaf, a, pa, perm);
      ok := r == Mapped;
      if !ok {
        NotElem(free, pa);
        ghost var mem1 := mem;
        assert pa !in free by { IsElem(free, pa); }
        Kfree(pa);
        TreeFrame(mem1, mem, t');
      }
    }

    /** kalloc of a page and filling it. */
    method KallocFilled(data: Page, ghost t: Tree) returns (pa: int)
      requires Sound(mem, head, free, lo, hi, t)
      modifies this
      ensures Sound(mem, head, free, lo, hi, t)
      ensures pa == 0 ==> mem == old(mem) && free == old(free) == []
      ensures pa != 0 ==> |free| == |old(free)| - 1
      ensures pa != 0 ==>
                && Elems(old(free)) == Elems(free) + {pa} && pa !in free && pa in Elems(old(free)) && pa !in Nodes(t)
                && lo <= pa < hi && pa in old(mem) && mem == old(mem)[pa := data]
    {
      hide FreeList, TreeOk, Nodes, Elems;
      pa := Kalloc();
      if pa != 0 {
        mem := mem[pa := data];
        TreeFrame(old(mem), mem, t);
        FreeFrame(old(mem)[pa := JUNK5], mem, head, free, lo, hi);
      }
    }

    /** kalloc, memset to zero, mappages of one page, and kfree if that fails: the sequence that
        `uvmalloc`, `walkaddr` and the page-fault handler share. */
    method MapZeroPage(root: int, a: int, perm: int, ghost t: Tree) returns (ok: bool, ghost t': Tree, ghost p: int)
      requires Sound(mem, head, free, lo, hi, t) && root == t.root
      requires 0 <= a < MAXPAGE && a !in t.leaf && 0 <= perm < 1024
      modifies this
      ensures Sound(mem, head, free, lo, hi, t') && t'.root == t.root && Nodes(t) <= Nodes(t')
      ensures Changed(old(mem), mem, Elems(old(free)) + Nodes(t))
      ensures !ok ==> t'.leaf == t.leaf && Elems(old(free)) == Elems(free) + (Nodes(t') - Nodes(t)) && |free| <= 1
      ensures !ok ==> |old(free)| <= 2
      ensures |old(free)| - 3 <= |free| <= |old(free)| && (ok ==> |free| < |old(free)|)
      ensures ok ==>
                && t'.leaf == t.leaf[a := MakePte(p, perm)]
                && Elems(old(free)) == Elems(free) + {p} + (Nodes(t') - Nodes(t))
                && lo <= p < hi && p in mem && mem[p] == Zero()
                && p in Elems(old(free)) && p !in Elems(free) && p !in Nodes(t')
    {
      hide FreeList, TreeOk, Nodes, Elems;
      t' := t;
      var pa := KallocFilled(Zero(), t);
      p := pa;
      if pa == 0 {
        return false, t', p;
      }
      NotElem(free, pa);
      ok, t' := MapFrame(root, a, pa, perm, t);
    }
  }
}
