/** Sv39 page tables as kernel/vm.c keeps them: three levels of 512-entry tables in physical pages.
    A page is its 512 64-bit words; a physical address is its page number, and a virtual address its
    page number v = va / PGSIZE. Shifts and masks by powers of two are written as / and %. */
module PageTable {
  const PGSIZE := 4096
  const ENTRIES := 512
  const MAXPAGE := 0x400_0000       // MAXVA / PGSIZE
  const TRAMPOLINE := MAXPAGE - 1
  const TRAPFRAME := MAXPAGE - 2

  const PTE_V := 1
  const PTE_R := 2
  const PTE_W := 4
  const PTE_X := 8
  const PTE_U := 16

  type Page = p: seq<int> | |p| == 512 witness seq(512, i => 0)
  type Mem = map<int, Page>

  function Zero(): (p: Page)
    ensures forall i :: 0 <= i < 512 ==> p[i] == 0
  {
    seq(512, i => 0)
  }

  /** PTE2PA, PTE_FLAGS and the PTE_V test. */
  function Ppn(pte: int): (p: int) {
    pte / 1024
  }

  function Flags(pte: int): (f: int) {
    pte % 1024
  }

  predicate IsValid(pte: int) {
    pte % 2 == 1
  }

  /** `PA2PTE(pa) | perm | PTE_V`. */
  function MakePte(ppn: int, perm: int): (pte: int)
    requires 0 <= perm < 1024
  {
    1024 * ppn + if perm % 2 == 1 then perm else perm + 1
  }

  /** PTE2PA inverts PA2PTE whatever the flags, and the flags come back with the valid bit set. */
  lemma MakePteInverse(ppn: int, perm: int)
    requires 0 <= perm < 1024
    ensures var pte := MakePte(ppn, perm);
            && Ppn(pte) == ppn && IsValid(pte)
            && Flags(pte) / 2 == perm / 2
  {
  }

  /** PX(level, va). */
  function PX(level: nat, v: int): (i: int)
    requires level <= 2
  {
    if level == 2 then v / 0x4_0000 % 512 else if level == 1 then v / 512 % 512 else v % 512
  }

  /** The tree as a value: for each level, the valid entries by the number of the range of addresses
      they cover. Entry i of the table for range q covers range 512 * q + i of the level below. */
  datatype Tree = Tree(root: int, l1: map<int, int>, l0: map<int, int>, leaf: map<int, int>)

  /** Table page p holds the entries of m for range q, and zero elsewhere. */
  ghost predicate TableOk(mem: Mem, p: int, q: int, m: map<int, int>) {
    && p in mem
    && forall i :: 0 <= i < ENTRIES ==> mem[p][i] == if 512 * q + i in m then m[512 * q + i] else 0
  }

  /** Every entry is valid, and lies below an entry of the level above. */
  ghost predicate Below(m: map<int, int>, up: map<int, int>) {
    forall k :: k in m ==> IsValid(m[k]) && k / 512 in up
  }

  ghost predicate Level1Ok(mem: Mem, t: Tree) {
    && TableOk(mem, t.root, 0, t.l1)
    && forall k :: k in t.l1 ==> 0 <= k < ENTRIES && IsValid(t.l1[k])
  }

  ghost predicate Level0Ok(mem: Mem, t: Tree) {
    && (forall q :: q in t.l1 ==> TableOk(mem, Ppn(t.l1[q]), q, t.l0))
    && Below(t.l0, t.l1)
  }

  ghost predicate LeavesOk(mem: Mem, t: Tree) {
    && (forall q :: q in t.l0 ==> TableOk(mem, Ppn(t.l0[q]), q, t.leaf))
    && Below(t.leaf, t.l0)
  }

  /** Entries that point to tables have no permission bits. */
  ghost predicate Pointers(m: map<int, int>) {
    forall k :: k in m ==> m[k] == MakePte(Ppn(m[k]), 0)
  }

  /** No page is used for two tables. */
  ghost predicate NodesDistinct(t: Tree) {
    && (forall q :: q in t.l1 ==> Ppn(t.l1[q]) != t.root)
    && (forall q :: q in t.l0 ==> Ppn(t.l0[q]) != t.root)
    && (forall q, r :: q in t.l1 && r in t.l1 && q != r ==> Ppn(t.l1[q]) != Ppn(t.l1[r]))
    && (forall q, r :: q in t.l0 && r in t.l0 && q != r ==> Ppn(t.l0[q]) != Ppn(t.l0[r]))
    && (forall q, r :: q in t.l1 && r in t.l0 ==> Ppn(t.l1[q]) != Ppn(t.l0[r]))
  }

  ghost predicate TreeOk(mem: Mem, t: Tree) {
    && Level1Ok(mem, t) && Level0Ok(mem, t) && LeavesOk(mem, t)
    && Pointers(t.l1) && Pointers(t.l0)
    && NodesDistinct(t)
  }

  /** The pages that hold the tables of t. */
  ghost function Nodes(t: Tree): (s: set<int>) {
    {t.root} + (set q | q in t.l1 :: Ppn(t.l1[q])) + (set q | q in t.l0 :: Ppn(t.l0[q]))
  }

  // ---------------------------------------------------------------- reading

  lemma EntryAt(mem: Mem, p: int, q: int, m: map<int, int>, k: int)
    requires TableOk(mem, p, q, m) && k / 512 == q
    ensures p in mem && mem[p][k % 512] == if k in m then m[k] else 0
  {
    assert 512 * q + k % 512 == k;
  }

  /** The table for range q of the lowest level has its own page, so distinct pages have distinct
      entries. */
  lemma DistinctSlots(mem: Mem, t: Tree, v: int, w: int)
    requires TreeOk(mem, t) && v / 512 in t.l0 && w / 512 in t.l0
    requires Ppn(t.l0[v / 512]) == Ppn(t.l0[w / 512]) && v % 512 == w % 512
    ensures v == w
  {
  }

  // ---------------------------------------------------------------- writing

  /** A tree depends on its own table pages only. */
  lemma TreeFrame(mem: Mem, mem': Mem, t: Tree)
    requires TreeOk(mem, t)
    requires forall p :: p in Nodes(t) ==> p in mem && p in mem' && mem'[p] == mem[p]
    ensures TreeOk(mem', t)
  {
    assert t.root in Nodes(t);
    assert forall q :: q in t.l1 ==> Ppn(t.l1[q]) in Nodes(t);
    assert forall q :: q in t.l0 ==> Ppn(t.l0[q]) in Nodes(t);
  }

  /** Writing entry k of the table for its range. */
  lemma SetEntry(mem: Mem, p: int, m: map<int, int>, k: int, pte: int)
    requires TableOk(mem, p, k / 512, m)
    ensures TableOk(mem[p := mem[p][k % 512 := pte]], p, k / 512, m[k := pte])
  {
  }

  lemma ClearEntry(mem: Mem, p: int, m: map<int, int>, k: int)
    requires TableOk(mem, p, k / 512, m)
    ensures TableOk(mem[p := mem[p][k % 512 := 0]], p, k / 512, m - {k})
  {
  }

  /** A table for another range on another page is not affected. */
  lemma OtherEntry(mem: Mem, mem': Mem, p: int, q: int, m: map<int, int>, m': map<int, int>, k: int)
    requires TableOk(mem, p, q, m) && k / 512 != q
    requires p in mem' && mem'[p] == mem[p]
    requires forall x :: x != k ==> (x in m <==> x in m') && (x in m ==> m'[x] == m[x])
    ensures TableOk(mem', p, q, m')
  {
    forall i | 0 <= i < ENTRIES
      ensures mem'[p][i] == if 512 * q + i in m' then m'[512 * q + i] else 0
    {
      assert (512 * q + i) / 512 == q;
    }
  }

  lemma InMem(mem: Mem, p: int, q: int, m: map<int, int>)
    requires TableOk(mem, p, q, m)
    ensures p in mem
  {
  }

  lemma SamePage(mem: Mem, mem': Mem, p: int, q: int, m: map<int, int>)
    requires TableOk(mem, p, q, m) && p in mem' && mem'[p] == mem[p]
    ensures TableOk(mem', p, q, m)
  {
  }

  lemma FreshTable(mem: Mem, p: int, q: int, m: map<int, int>)
    requires p in mem && mem[p] == Zero()
    requires forall k :: k in m ==> k / 512 != q
    ensures TableOk(mem, p, q, m)
  {
    forall i | 0 <= i < ENTRIES
      ensures mem[p][i] == if 512 * q + i in m then m[512 * q + i] else 0
    {
      assert (512 * q + i) / 512 == q;
    }
  }

  /** The pages of the tables, one by one. */
  lemma NodesOf(t: Tree)
    ensures t.root in Nodes(t)
    ensures forall q :: q in t.l1 ==> Ppn(t.l1[q]) in Nodes(t)
    ensures forall q :: q in t.l0 ==> Ppn(t.l0[q]) in Nodes(t)
  {
  }

  /** A table page that is not one of t's. */
  lemma NodesDistinctAdd1(t: Tree, k: int, page: int)
    requires NodesDistinct(t) && page !in Nodes(t) && k !in t.l1
    ensures NodesDistinct(t.(l1 := t.l1[k := MakePte(page, 0)]))
  {
    NodesOf(t);
    assert Ppn(MakePte(page, 0)) == page;
  }

  lemma NodesDistinctAdd0(t: Tree, k: int, page: int)
    requires NodesDistinct(t) && page !in Nodes(t) && k !in t.l0
    ensures NodesDistinct(t.(l0 := t.l0[k := MakePte(page, 0)]))
  {
    NodesOf(t);
    assert Ppn(MakePte(page, 0)) == page;
  }

  lemma AddTable1Upper(mem: Mem, mem': Mem, t: Tree, k: int, page: int)
    requires TreeOk(mem, t) && 0 <= k < ENTRIES && k !in t.l1 && page !in Nodes(t) && t.root in mem
    requires mem' == mem[page := Zero()][t.root := mem[t.root][k := MakePte(page, 0)]]
    ensures TableOk(mem', t.root, 0, t.l1[k := MakePte(page, 0)])
    ensures TableOk(mem', page, k, t.l0)
  {
    var mem1 := mem[page := Zero()];
    NodesOf(t);
    hide NodesDistinct, Pointers, LeavesOk, MakePte;
    SamePage(mem, mem1, t.root, 0, t.l1);
    SetEntry(mem1, t.root, t.l1, k, MakePte(page, 0));
    hide TableOk;
    FreshTable(mem', page, k, t.l0);
  }

  lemma AddTable1Lower(mem: Mem, mem': Mem, t: Tree, k: int, page: int)
    requires TreeOk(mem, t) && 0 <= k < ENTRIES && k !in t.l1 && page !in Nodes(t) && t.root in mem
    requires mem' == mem[page := Zero()][t.root := mem[t.root][k := MakePte(page, 0)]]
    ensures forall q :: q in t.l1 ==> TableOk(mem', Ppn(t.l1[q]), q, t.l0)
    ensures forall q :: q in t.l0 ==> TableOk(mem', Ppn(t.l0[q]), q, t.leaf)
  {
    hide TableOk, Pointers, MakePte;
    NodesOf(t);
    forall q | q in t.l1
      ensures TableOk(mem', Ppn(t.l1[q]), q, t.l0)
    {
      InMem(mem, Ppn(t.l1[q]), q, t.l0);
      SamePage(mem, mem', Ppn(t.l1[q]), q, t.l0);
    }
    forall q | q in t.l0
      ensures TableOk(mem', Ppn(t.l0[q]), q, t.leaf)
    {
      InMem(mem, Ppn(t.l0[q]), q, t.leaf);
      SamePage(mem, mem', Ppn(t.l0[q]), q, t.leaf);
    }
  }

  /** A new entry that points to a table. */
  lemma MorePointers(m: map<int, int>, k: int, page: int)
    requires Pointers(m)
    ensures Pointers(m[k := MakePte(page, 0)]) && Ppn(MakePte(page, 0)) == page && IsValid(MakePte(page, 0))
  {
    MakePteInverse(page, 0);
    hide MakePte;
  }

  lemma BelowMore(m: map<int, int>, up: map<int, int>, k: int, pte: int)
    requires Below(m, up)
    ensures Below(m, up[k := pte])
    ensures IsValid(pte) && k / 512 in up ==> Below(m[k := pte], up)
  {
  }

  /** `walk` adds a level-1 table: a zeroed page and an entry for it in the root. */
  lemma AddTable1(mem: Mem, t: Tree, k: int, page: int)
    requires TreeOk(mem, t) && 0 <= k < ENTRIES && k !in t.l1 && page !in Nodes(t)
    ensures var pte := MakePte(page, 0);
            && t.root in mem
            && TreeOk(mem[page := Zero()][t.root := mem[t.root][k := pte]], t.(l1 := t.l1[k := pte]))
  {
    hide TableOk, NodesDistinct, Pointers, MakePte, IsValid, Below, Nodes, Ppn;
    InMem(mem, t.root, 0, t.l1);
    var pte := MakePte(page, 0);
    var mem' := mem[page := Zero()][t.root := mem[t.root][k := pte]];
    AddTable1Upper(mem, mem', t, k, page);
    AddTable1Lower(mem, mem', t, k, page);
    MorePointers(t.l1, k, page);
    BelowMore(t.l0, t.l1, k, pte);
    NodesDistinctAdd1(t, k, page);
  }

  lemma AddTable0Upper(mem: Mem, mem': Mem, t: Tree, k: int, page: int)
    requires TreeOk(mem, t) && k / 512 in t.l1 && k !in t.l0 && page !in Nodes(t)
    requires var p := Ppn(t.l1[k / 512]);
             p in mem && mem' == mem[page := Zero()][p := mem[p][k % 512 := MakePte(page, 0)]]
    ensures TableOk(mem', t.root, 0, t.l1)
    ensures forall q :: q in t.l1 ==> TableOk(mem', Ppn(t.l1[q]), q, t.l0[k := MakePte(page, 0)])
  {
    hide TableOk, Pointers, LeavesOk;
    var pte, p := MakePte(page, 0), Ppn(t.l1[k / 512]);
    NodesOf(t);
    InMem(mem, t.root, 0, t.l1);
    SamePage(mem, mem', t.root, 0, t.l1);
    forall q | q in t.l1
      ensures TableOk(mem', Ppn(t.l1[q]), q, t.l0[k := pte])
    {
      InMem(mem, Ppn(t.l1[q]), q, t.l0);
      if q == k / 512 {
        SamePage(mem, mem[page := Zero()], p, q, t.l0);
        SetEntry(mem[page := Zero()], p, t.l0, k, pte);
      } else {
        OtherEntry(mem, mem', Ppn(t.l1[q]), q, t.l0, t.l0[k := pte], k);
      }
    }
  }

  lemma AddTable0Lower(mem: Mem, mem': Mem, t: Tree, k: int, page: int)
    requires TreeOk(mem, t) && k / 512 in t.l1 && k !in t.l0 && page !in Nodes(t)
    requires var p := Ppn(t.l1[k / 512]);
             p in mem && mem' == mem[page := Zero()][p := mem[p][k % 512 := MakePte(page, 0)]]
    ensures var l0 := t.l0[k := MakePte(page, 0)];
            forall q :: q in l0 ==> TableOk(mem', Ppn(l0[q]), q, t.leaf)
  {
    hide TableOk, Pointers, Level1Ok, Level0Ok;
    var l0 := t.l0[k := MakePte(page, 0)];
    NodesOf(t);
    forall q | q in l0
      ensures TableOk(mem', Ppn(l0[q]), q, t.leaf)
    {
      if q == k {
        FreshTable(mem', page, k, t.leaf);
      } else {
        InMem(mem, Ppn(t.l0[q]), q, t.leaf);
        SamePage(mem, mem', Ppn(t.l0[q]), q, t.leaf);
      }
    }
  }

  /** `walk` adds a level-0 table. */
  lemma AddTable0(mem: Mem, t: Tree, k: int, page: int)
    requires TreeOk(mem, t) && k / 512 in t.l1 && k !in t.l0 && page !in Nodes(t)
    ensures var pte, p := MakePte(page, 0), Ppn(t.l1[k / 512]);
            && p in mem
            && TreeOk(mem[page := Zero()][p := mem[p][k % 512 := pte]], t.(l0 := t.l0[k := pte]))
  {
    hide TableOk, NodesDistinct, Pointers, MakePte, IsValid, Below, Nodes, Ppn;
    var pte, p := MakePte(page, 0), Ppn(t.l1[k / 512]);
    InMem(mem, p, k / 512, t.l0);
    var mem' := mem[page := Zero()][p := mem[p][k % 512 := pte]];
    AddTable0Upper(mem, mem', t, k, page);
    AddTable0Lower(mem, mem', t, k, page);
    MorePointers(t.l0, k, page);
    BelowMore(t.l0, t.l1, k, pte);
    BelowMore(t.leaf, t.l0, k, pte);
    NodesDistinctAdd0(t, k, page);
  }

  /** Writing a leaf entry. */
  lemma SetLeaf(mem: Mem, t: Tree, v: int, pte: int)
    requires TreeOk(mem, t) && v / 512 in t.l0 && IsValid(pte)
    ensures var p := Ppn(t.l0[v / 512]);
            && p in mem
            && TreeOk(mem[p := mem[p][v % 512 := pte]], t.(leaf := t.leaf[v := pte]))
  {
    var p := Ppn(t.l0[v / 512]);
    var mem', t' := mem[p := mem[p][v % 512 := pte]], t.(leaf := t.leaf[v := pte]);
    SetEntry(mem, p, t.leaf, v, pte);
    forall q | q in t.l0 && q != v / 512
      ensures TableOk(mem', Ppn(t.l0[q]), q, t'.leaf)
    {
      OtherEntry(mem, mem', Ppn(t.l0[q]), q, t.leaf, t'.leaf, v);
    }
  }

  lemma ClearLeaf(mem: Mem, t: Tree, v: int)
    requires TreeOk(mem, t) && v / 512 in t.l0
    ensures var p := Ppn(t.l0[v / 512]);
            && p in mem
            && TreeOk(mem[p := mem[p][v % 512 := 0]], t.(leaf := t.leaf - {v}))
  {
    var p := Ppn(t.l0[v / 512]);
    var mem', t' := mem[p := mem[p][v % 512 := 0]], t.(leaf := t.leaf - {v});
    ClearEntry(mem, p, t.leaf, v);
    forall q | q in t.l0 && q != v / 512
      ensures TableOk(mem', Ppn(t.l0[q]), q, t'.leaf)
    {
      OtherEntry(mem, mem', Ppn(t.l0[q]), q, t.leaf, t'.leaf, v);
    }
  }

  lemma NodesAdd1(t: Tree, k: int, page: int)
    requires k !in t.l1
    ensures Nodes(t.(l1 := t.l1[k := MakePte(page, 0)])) == Nodes(t) + {page}
  {
    var l1 := t.l1[k := MakePte(page, 0)];
    assert (set q | q in l1 :: Ppn(l1[q])) == (set q | q in t.l1 :: Ppn(t.l1[q])) + {page} by {
      assert k in l1 && Ppn(l1[k]) == page;
      assert forall q :: q in t.l1 ==> q in l1 && l1[q] == t.l1[q];
    }
  }

  lemma NodesAdd0(t: Tree, k: int, page: int)
    requires k !in t.l0
    ensures Nodes(t.(l0 := t.l0[k := MakePte(page, 0)])) == Nodes(t) + {page}
  {
    var l0 := t.l0[k := MakePte(page, 0)];
    assert (set q | q in l0 :: Ppn(l0[q])) == (set q | q in t.l0 :: Ppn(t.l0[q])) + {page} by {
      assert k in l0 && Ppn(l0[k]) == page;
      assert forall q :: q in t.l0 ==> q in l0 && l0[q] == t.l0[q];
    }
  }
}
