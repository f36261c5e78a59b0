/** `freewalk` and `uvmfree` of kernel/vm.c: a tree without leaves gives all its table pages back. */
module FreeWalk {
  import opened PageTable
  import opened Vm

  /** A table of t: the root at level 2, or the table for range q at level 1 or 0. */
  ghost predicate IsTable(t: Tree, level: nat, q: int) {
    if level == 2 then q == 0 else if level == 1 then q in t.l1 else level == 0 && q in t.l0
  }

  ghost function PageOf(t: Tree, level: nat, q: int): (p: int)
    requires IsTable(t, level, q)
  {
    if level == 2 then t.root else if level == 1 then Ppn(t.l1[q]) else Ppn(t.l0[q])
  }

  /** The entries of a table, by the range they cover. */
  ghost function Entries(t: Tree, level: nat): (m: map<int, int>)
    requires level <= 2
  {
    if level == 2 then t.l1 else if level == 1 then t.l0 else t.leaf
  }

  /** The table pages below the first i entries of a table. */
  ghost function Kids(t: Tree, level: nat, q: int, i: int): (s: set<int>) {
    if level == 2 then (set c | c in t.l1 && c < i :: Ppn(t.l1[c])) + (set x | x in t.l0 && x / 512 < i :: Ppn(t.l0[x]))
    else if level == 1 then set x | x in t.l0 && x / 512 == q && x % 512 < i :: Ppn(t.l0[x])
    else {}
  }

  /** A table page and all pages below it. */
  ghost function Sub(t: Tree, level: nat, q: int): (s: set<int>)
    requires IsTable(t, level, q)
  {
    {PageOf(t, level, q)} + Kids(t, level, q, 512)
  }

  lemma EntryOf(mem: Mem, t: Tree, level: nat, q: int, i: int)
    requires TreeOk(mem, t) && level <= 2 && IsTable(t, level, q) && 0 <= i < ENTRIES
    ensures var p, m, c := PageOf(t, level, q), Entries(t, level), 512 * q + i;
            && p in mem
            && mem[p][i] == (if c in m then m[c] else 0)
            && (c in m <==> IsValid(mem[p][i]))
            && (level > 0 && c in m ==>
                   IsTable(t, level - 1, c) && PageOf(t, level - 1, c) == Ppn(m[c]) && Flags(m[c]) == PTE_V)
  {
    EntryAt(mem, PageOf(t, level, q), q, Entries(t, level), 512 * q + i);
    if level > 0 && 512 * q + i in Entries(t, level) {
      var pte := Entries(t, level)[512 * q + i];
      assert pte == MakePte(Ppn(pte), 0) == 1024 * Ppn(pte) + 1;
    }
  }

  lemma KidsNone(t: Tree, level: nat, q: int, i: int)
    requires TreeKeys(t) && level <= 2 && IsTable(t, level, q) && 0 <= i < ENTRIES && 512 * q + i !in Entries(t, level)
    ensures Kids(t, level, q, i + 1) == Kids(t, level, q, i)
  {
  }

  lemma KidsStart(t: Tree, level: nat, q: int)
    requires TreeKeys(t) && level <= 2 && IsTable(t, level, q)
    ensures Kids(t, level, q, 0) == {}
    ensures PageOf(t, level, q) !in Kids(t, level, q, 512)
  {
  }

  lemma KidsGrow(t: Tree, level: nat, q: int, i: int)
    requires i <= 512
    ensures Kids(t, level, q, i) <= Kids(t, level, q, 512)
  {
  }

  lemma LeafEntry(t: Tree, c: int)
    requires t.leaf == map[]
    ensures c !in Entries(t, 0)
  {
  }

  /** Where the keys of each level lie. */
  ghost predicate TreeKeys(t: Tree) {
    && (forall k :: k in t.l1 ==> 0 <= k < ENTRIES)
    && (forall k :: k in t.l0 ==> k / 512 in t.l1)
    && NodesDistinct(t)
  }

  lemma KidsSome(t: Tree, level: nat, q: int, i: int)
    requires TreeKeys(t) && 1 <= level <= 2 && IsTable(t, level, q) && 0 <= i < ENTRIES
             && 512 * q + i in Entries(t, level)
    ensures var c := 512 * q + i;
            && IsTable(t, level - 1, c)
            && Kids(t, level, q, i + 1) == Kids(t, level, q, i) + Sub(t, level - 1, c)
            && Sub(t, level - 1, c) !! Kids(t, level, q, i)
            && PageOf(t, level, q) !in Sub(t, level - 1, c)
  {
    var c := 512 * q + i;
    if level == 2 {
      assert Kids(t, 1, c, 512) == set x | x in t.l0 && x / 512 == c :: Ppn(t.l0[x]);
    } else {
      assert Kids(t, 0, c, 512) == {};
      assert c / 512 == q && c % 512 == i;
    }
  }

  lemma SubRoot(t: Tree)
    requires TreeKeys(t)
    ensures Sub(t, 2, 0) == Nodes(t)
  {
  }

  lemma KeysOf(mem: Mem, t: Tree)
    requires TreeOk(mem, t)
    ensures TreeKeys(t)
  {
  }

  /** The pages s are allocated, and hold what they held in mem0. */
  ghost predicate Intact(mem: Mem, free: seq<int>, lo: int, hi: int, mem0: Mem, s: set<int>) {
    forall p :: p in s ==> lo <= p < hi && p in mem && p in mem0 && mem[p] == mem0[p] && p !in Elems(free)
  }

  lemma IntactRest(mem: Mem, free: seq<int>, mem': Mem, free': seq<int>, lo: int, hi: int, mem0: Mem, s: set<int>,
                   done: set<int>, r: set<int>)
    requires Intact(mem, free, lo, hi, mem0, s) && r <= s && r !! done
    requires Changed(mem, mem', done) && Elems(free') <= Elems(free) + done
    ensures Intact(mem', free', lo, hi, mem0, r)
  {
    hide Elems;
  }

  /** The pages that one iteration of `freewalk` frees. */
  ghost function Child(t: Tree, level: nat, q: int, i: int): (s: set<int>)
    requires level <= 2 && IsTable(t, level, q)
  {
    if level > 0 && 512 * q + i in Entries(t, level) && IsTable(t, level - 1, 512 * q + i)
    then Sub(t, level - 1, 512 * q + i) else {}
  }

  lemma KidsStep(t: Tree, level: nat, q: int, i: int)
    requires TreeKeys(t) && level <= 2 && IsTable(t, level, q) && 0 <= i < ENTRIES && t.leaf == map[]
    ensures Kids(t, level, q, i + 1) == Kids(t, level, q, i) + Child(t, level, q, i)
    ensures Child(t, level, q, i) !! Kids(t, level, q, i) + {PageOf(t, level, q)}
    ensures Child(t, level, q, i) <= Sub(t, level, q)
  {
    hide Kids, NodesDistinct;
    KidsGrow(t, level, q, i + 1);
    if level > 0 && 512 * q + i in Entries(t, level) {
      KidsSome(t, level, q, i);
    } else {
      KidsNone(t, level, q, i);
    }
  }

  /** One iteration of `freewalk`: the table below entry i is freed and the entry cleared. */
  method FreeEntry(k: Kernel, pt: int, i: int, ghost level: nat, ghost q: int, ghost t: Tree,
                   ghost mem0: Mem) returns (ok: bool)
    requires FreeList(k.mem, k.head, k.free, k.lo, k.hi) && TreeOk(mem0, t) && t.leaf == map[]
    requires level <= 2 && IsTable(t, level, q) && pt == PageOf(t, level, q) && 0 <= i < ENTRIES
    requires pt in k.mem && pt in mem0 && k.mem[pt][i] == mem0[pt][i]
    requires pt !in Elems(k.free) && pt !in Child(t, level, q, i)
    requires Intact(k.mem, k.free, k.lo, k.hi, mem0, Child(t, level, q, i))
    modifies k
    ensures ok
    ensures FreeList(k.mem, k.head, k.free, k.lo, k.hi)
    ensures Elems(k.free) == Elems(old(k.free)) + Child(t, level, q, i)
    ensures Changed(old(k.mem), k.mem, Child(t, level, q, i) + {pt})
    ensures pt in k.mem && forall j :: 0 <= j < ENTRIES && j != i ==> k.mem[pt][j] == old(k.mem)[pt][j]
    decreases level, 0
  {
    hide FreeList, TreeOk, Elems, Kids, PageOf, Entries, NodesDistinct, Sub;
    EntryOf(mem0, t, level, q, i);
    LeafEntry(t, 512 * q + i);
    ok := true;
    var pte := k.mem[pt][i];
    if IsValid(pte) && pte / 2 % 8 == 0 {
      ok := Freewalk(k, Ppn(pte), level - 1, 512 * q + i, t, mem0);
      assert pt !in k.free by { IsElem(k.free, pt); }
      FreeFrame(k.mem, k.mem[pt := k.mem[pt][i := 0]], k.head, k.free, k.lo, k.hi);
      k.mem := k.mem[pt := k.mem[pt][i := 0]];
    } else if IsValid(pte) {
      ok := false;  // panic("freewalk: leaf")
    }
  }

  /** `freewalk` of the table pt. The result says that it did not panic on a leaf. */
  method Freewalk(k: Kernel, pt: int, ghost level: nat, ghost q: int, ghost t: Tree, ghost mem0: Mem) returns (ok: bool)
    requires FreeList(k.mem, k.head, k.free, k.lo, k.hi) && TreeOk(mem0, t) && t.leaf == map[]
    requires level <= 2 && IsTable(t, level, q) && pt == PageOf(t, level, q)
    requires Intact(k.mem, k.free, k.lo, k.hi, mem0, Sub(t, level, q))
    modifies k
    ensures ok
    ensures FreeList(k.mem, k.head, k.free, k.lo, k.hi)
    ensures Elems(k.free) == Elems(old(k.free)) + Sub(t, level, q)
    ensures Changed(old(k.mem), k.mem, Sub(t, level, q))
    decreases level, 1
  {
    hide FreeList, TreeOk, Elems, Kids, PageOf, IsTable, Entries, NodesDistinct, Child;
    KeysOf(mem0, t);
    KidsStart(t, level, q);
    ghost var all := Sub(t, level, q);
    ok := true;
    for i := 0 to ENTRIES
      invariant ok && FreeList(k.mem, k.head, k.free, k.lo, k.hi)
      invariant Kids(t, level, q, i) <= all && pt !in Kids(t, level, q, i)
      invariant Elems(k.free) == Elems(old(k.free)) + Kids(t, level, q, i)
      invariant Changed(old(k.mem), k.mem, Kids(t, level, q, i) + {pt})
      invariant pt in k.mem && pt in mem0 && forall j :: i <= j < ENTRIES ==> k.mem[pt][j] == mem0[pt][j]
    {
      KidsStep(t, level, q, i);
      IntactRest(old(k.mem), old(k.free), k.mem, k.free, k.lo, k.hi, mem0, all, Kids(t, level, q, i) + {pt},
          Child(t, level, q, i));
      ok := FreeEntry(k, pt, i, level, q, t, mem0);
    }
    assert pt !in k.free by { IsElem(k.free, pt); }
    k.Kfree(pt);
  }
}
