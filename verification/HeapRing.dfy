/** The free list of user/umalloc.c in memory: headers linked into a ring. */
module HeapRing {
  import opened HeapList

  datatype Header = Header(ptr: int, size: int)

  const NULL := 0

  function Succ(i: int, n: int): (k: int)
    requires 0 <= i < n
    ensures 0 <= k < n
  {
    if i + 1 == n then 0 else i + 1
  }

  /** The ring of headers in memory is the list of free blocks. */
  ghost predicate Ring(mem: map<int, Header>, bs: seq<Blk>) {
    forall i :: 0 <= i < |bs| ==> bs[i].a in mem && mem[bs[i].a] == Header(bs[Succ(i, |bs|)].a, bs[i].n)
  }

  ghost predicate InLive(live: map<int, int>, u: int) {
    exists a :: a in live && InBlock(Blk(a, live[a]), u)
  }

  /** Blocks in use: their headers hold their sizes, they overlap neither each other nor free blocks. */
  ghost predicate LiveOk(mem: map<int, Header>, bs: seq<Blk>, live: map<int, int>) {
    && (forall a :: a in live ==> live[a] > 0 && a in mem && mem[a].size == live[a] && Clear(bs, Blk(a, live[a])))
    && (forall a, b :: a in live && b in live && a < b ==> End(Blk(a, live[a])) <= b)
  }

  /** Every unit obtained from the system is in a free block or in a block in use. */
  ghost predicate Covered(bs: seq<Blk>, live: map<int, int>, obtained: set<int>) {
    forall u :: u in obtained <==> InFree(bs, u) || InLive(live, u)
  }

  /** Block j is the one to insert bp after. */
  lemma FoundPlace(mem: map<int, Header>, bs: seq<Blk>, j: int, b: Blk)
    requires Ordered(bs) && Ring(mem, bs) && 0 <= j < |bs| && bs[0].a < b.a && Clear(bs, b) && b.n > 0
    requires var p := bs[j].a; (b.a > p && b.a < mem[p].ptr) || (p >= mem[p].ptr && (b.a > p || b.a < mem[p].ptr))
    ensures Place(bs, j, b)
  {
    if j + 1 < |bs| {
      assert bs[j].a < bs[j + 1].a;
    }
  }

  /** The search of `free` gets past block j only if the block to insert belongs elsewhere. */
  lemma NotYet(mem: map<int, Header>, bs: seq<Blk>, j: int, b: Blk)
    requires Ordered(bs) && Ring(mem, bs) && 0 <= j < |bs| && bs[0].a < b.a && Clear(bs, b) && b.n > 0
    requires var p := bs[j].a; !(b.a > p && b.a < mem[p].ptr) && !(p >= mem[p].ptr && (b.a > p || b.a < mem[p].ptr))
    ensures b.a < bs[j].a || (j + 1 < |bs| && bs[j + 1].a < b.a)
  {
    assert b.a != bs[j].a;
    if j + 1 < |bs| {
      assert b.a != bs[j + 1].a;
    }
  }

  lemma {:induction false} PlaceExists(bs: seq<Blk>, b: Blk, m: int) returns (j: int)
    requires Ordered(bs) && bs[0].a < b.a && Clear(bs, b) && b.n > 0
    requires 0 <= m < |bs| && bs[m].a < b.a
    ensures Place(bs, j, b)
    decreases |bs| - m
  {
    j := m;
    if m + 1 < |bs| && bs[m + 1].a < b.a {
      j := PlaceExists(bs, b, m + 1);
    } else if m + 1 < |bs| {
      assert b.a != bs[m + 1].a;
    }
  }

  lemma PlaceOnce(bs: seq<Blk>, b: Blk, i: int, j: int)
    requires Ordered(bs) && Place(bs, j, b) && 0 <= i < |bs| && (b.a < bs[i].a || (i + 1 < |bs| && bs[i + 1].a < b.a))
    ensures i != j
  {
  }

  // ---------------------------------------------------------------- free

  /** The two joins at the end of `free`. */
  function JoinUp(mem: map<int, Header>, p: int, bp: int): (r: map<int, Header>)
    requires p in mem && bp in mem && mem[p].ptr in mem
  {
    var q := mem[p].ptr;
    mem[bp := if bp + mem[bp].size == q then Header(mem[q].ptr, mem[bp].size + mem[q].size)
        else Header(q, mem[bp].size)]
  }

  function JoinDown(mem: map<int, Header>, p: int, bp: int): (r: map<int, Header>)
    requires p in mem && bp in mem
  {
    mem[p := if p + mem[p].size == bp then Header(mem[bp].ptr, mem[p].size + mem[bp].size) else Header(bp, mem[p].size)]
  }

  function Up(bs: seq<Blk>, j: int, b: Blk): (r: seq<Blk>)
    requires 0 <= j < |bs|
  {
    var s1 := InsertAt(bs, j, b);
    if Touch(s1, j + 1) then MergeAt(s1, j + 1) else s1
  }

  /** After the first join the ring is complete but for the link from block j. */
  ghost predicate AlmostRing(mem: map<int, Header>, bs: seq<Blk>, j: int)
    requires 0 <= j < |bs|
  {
    && (forall i :: 0 <= i < |bs| ==> bs[i].a in mem && mem[bs[i].a].size == bs[i].n)
    && (forall i :: 0 <= i < |bs| && i != j ==> mem[bs[i].a].ptr == bs[Succ(i, |bs|)].a)
  }

  /** The list after the first join, element by element. */
  lemma UpIx(bs: seq<Blk>, j: int, b: Blk, i: int)
    requires 0 <= j < |bs|
    ensures var joined := j + 1 < |bs| && End(b) == bs[j + 1].a;
            && |Up(bs, j, b)| == (if joined then |bs| else |bs| + 1)
            && (0 <= i < |Up(bs, j, b)| ==>
                  Up(bs, j, b)[i] == if i <= j then bs[i]
                                     else if i == j + 1 then (if joined then Blk(b.a, b.n + bs[j + 1].n) else b)
                                     else if joined then bs[i] else bs[i - 1])
  {
    var s1 := InsertAt(bs, j, b);
    InsertIx(bs, j, b, j + 1);
    if j + 1 < |bs| {
      InsertIx(bs, j, b, j + 2);
    }
    if 0 <= i <= |bs| {
      InsertIx(bs, j, b, i);
    }
    if 0 <= i + 1 <= |bs| {
      InsertIx(bs, j, b, i + 1);
    }
    if Touch(s1, j + 1) && 0 <= i < |bs| {
      MergeIx(s1, j + 1, i);
    }
    hide InsertAt;
  }

  lemma RingAt(mem: map<int, Header>, bs: seq<Blk>, i: int)
    requires Ring(mem, bs) && 0 <= i < |bs|
    ensures bs[i].a in mem && mem[bs[i].a] == Header(bs[Succ(i, |bs|)].a, bs[i].n)
  {
  }

  lemma AlmostAt(mem: map<int, Header>, bs: seq<Blk>, j: int, i: int)
    requires 0 <= j < |bs| && AlmostRing(mem, bs, j) && 0 <= i < |bs|
    ensures bs[i].a in mem && mem[bs[i].a].size == bs[i].n && (i != j ==> mem[bs[i].a].ptr == bs[Succ(i, |bs|)].a)
  {
  }

  lemma ApartAt(bs: seq<Blk>, b: Blk, i: int)
    requires Ordered(bs) && Clear(bs, b) && b.n > 0 && 0 <= i < |bs|
    ensures bs[i].a != b.a && bs[0].a < b.a
  {
  }

  lemma UpAt(mem: map<int, Header>, bs: seq<Blk>, j: int, b: Blk, i: int)
    requires Ordered(bs) && Ring(mem, bs) && Place(bs, j, b) && Clear(bs, b) && b.n > 0 && b.a in mem
             && mem[b.a].size == b.n
    requires 0 <= i < |Up(bs, j, b)|
    ensures bs[j].a in mem && mem[bs[j].a].ptr in mem
    ensures var r := Up(bs, j, b); var mem' := JoinUp(mem, bs[j].a, b.a);
            r[i].a in mem' && mem'[r[i].a].size == r[i].n && (i != j ==> mem'[r[i].a].ptr == r[Succ(i, |r|)].a)
  {
    hide Up, Ordered, Clear, Ring;
    var r := Up(bs, j, b);
    RingAt(mem, bs, j);
    RingAt(mem, bs, Succ(j, |bs|));
    ApartAt(bs, b, j);
    var joined := j + 1 < |bs| && End(b) == bs[j + 1].a;
    UpIx(bs, j, b, i);
    UpIx(bs, j, b, Succ(i, |r|));
    if i != j + 1 {
      var m := if i <= j || joined then i else i - 1;
      ApartAt(bs, b, m);
      RingAt(mem, bs, m);
    } else if joined {
      RingAt(mem, bs, j + 1);
    }
  }

  lemma UpRing(mem: map<int, Header>, bs: seq<Blk>, j: int, b: Blk)
    requires Ordered(bs) && Ring(mem, bs) && Place(bs, j, b) && Clear(bs, b) && b.n > 0 && b.a in mem
             && mem[b.a].size == b.n
    ensures bs[j].a in mem && mem[bs[j].a].ptr in mem
    ensures |Up(bs, j, b)| > j + 1 && Up(bs, j, b)[j] == bs[j] && Up(bs, j, b)[j + 1].a == b.a
    ensures AlmostRing(JoinUp(mem, bs[j].a, b.a), Up(bs, j, b), j)
  {
    var r := Up(bs, j, b);
    UpIx(bs, j, b, j);
    UpIx(bs, j, b, j + 1);
    UpAt(mem, bs, j, b, j);
    var mem' := JoinUp(mem, bs[j].a, b.a);
    hide Up, Ordered, Clear, Ring, JoinUp;
    forall i | 0 <= i < |r|
      ensures r[i].a in mem' && mem'[r[i].a].size == r[i].n && (i != j ==> mem'[r[i].a].ptr == r[Succ(i, |r|)].a)
    {
      UpAt(mem, bs, j, b, i);
    }
  }

  lemma DownAt(mem: map<int, Header>, bs: seq<Blk>, j: int, i: int)
    requires Ordered(bs) && 0 <= j && Touch(bs, j) && AlmostRing(mem, bs, j) && 0 <= i < |bs| - 1
    ensures bs[j].a in mem && bs[j + 1].a in mem
    ensures var mem' := JoinDown(mem, bs[j].a, bs[j + 1].a); var r := MergeAt(bs, j);
            |r| == |bs| - 1 && r[i].a in mem' && mem'[r[i].a] == Header(r[Succ(i, |r|)].a, r[i].n)
  {
    hide MergeAt, Ordered, AlmostRing;
    MergeIx(bs, j, i);
    MergeIx(bs, j, Succ(i, |bs| - 1));
    AlmostAt(mem, bs, j, j);
    AlmostAt(mem, bs, j, j + 1);
    if i != j {
      var m := if i <= j then i else i + 1;
      AlmostAt(mem, bs, j, m);
      assert bs[m].a != bs[j].a by { Distinct(bs); }
    }
  }

  lemma RelinkAt(mem: map<int, Header>, bs: seq<Blk>, j: int, i: int)
    requires Ordered(bs) && 0 <= j && j + 1 < |bs| && !Touch(bs, j) && AlmostRing(mem, bs, j) && 0 <= i < |bs|
    ensures bs[j].a in mem && bs[j + 1].a in mem
    ensures var mem' := JoinDown(mem, bs[j].a, bs[j + 1].a);
            bs[i].a in mem' && mem'[bs[i].a] == Header(bs[Succ(i, |bs|)].a, bs[i].n)
  {
    hide Ordered, AlmostRing;
    AlmostAt(mem, bs, j, j);
    AlmostAt(mem, bs, j, j + 1);
    AlmostAt(mem, bs, j, i);
    if i != j {
      assert bs[i].a != bs[j].a by { Distinct(bs); }
    }
  }

  lemma DownRing(mem: map<int, Header>, bs: seq<Blk>, j: int)
    requires Ordered(bs) && 0 <= j && j + 1 < |bs| && AlmostRing(mem, bs, j)
    ensures bs[j].a in mem && bs[j + 1].a in mem
    ensures Ring(JoinDown(mem, bs[j].a, bs[j + 1].a), if Touch(bs, j) then MergeAt(bs, j) else bs)
  {
    hide MergeAt, Ordered, JoinDown, AlmostRing, Ring, Touch;
    AlmostAt(mem, bs, j, j);
    AlmostAt(mem, bs, j, j + 1);
    var mem' := JoinDown(mem, bs[j].a, bs[j + 1].a);
    if Touch(bs, j) {
      var r := MergeAt(bs, j);
      MergeIx(bs, j, 0);
      forall i | 0 <= i < |r|
        ensures r[i].a in mem' && mem'[r[i].a] == Header(r[Succ(i, |r|)].a, r[i].n)
      {
        DownAt(mem, bs, j, i);
      }
      RingFrom(mem', r);
    } else {
      forall i | 0 <= i < |bs|
        ensures bs[i].a in mem' && mem'[bs[i].a] == Header(bs[Succ(i, |bs|)].a, bs[i].n)
      {
        RelinkAt(mem, bs, j, i);
      }
      RingFrom(mem', bs);
    }
  }

  lemma Distinct(bs: seq<Blk>)
    requires Ordered(bs)
    ensures forall i, k :: 0 <= i < |bs| && 0 <= k < |bs| && i != k ==> bs[i].a != bs[k].a
  {
    forall i, k | 0 <= i < k < |bs|
      ensures bs[i].a != bs[k].a
    {
      assert End(bs[i]) <= bs[k].a;
    }
  }

  lemma ClearFreed(bs: seq<Blk>, j: int, b: Blk, x: Blk)
    requires Ordered(bs) && Coalesced(bs) && Place(bs, j, b) && Clear(bs, b) && b.n > 0
    requires x.n > 0 && Clear(bs, x) && (End(x) <= b.a || End(b) <= x.a) && bs[0].a < x.a
    ensures Clear(Freed(bs, j, b), x)
  {
    hide InsertAt, MergeAt;
    var s1 := InsertAt(bs, j, b);
    InsertOrdered(bs, j, b);
    assert Clear(s1, x) by { ClearInsert(bs, j, b, x); }
    var s2 := s1;
    if Touch(s1, j + 1) {
      s2 := MergeAt(s1, j + 1);
      MergeOrdered(s1, j + 1);
      ClearMerge(s1, j + 1, x);
    }
    if Touch(s2, j) {
      NotBase(s2, j);
      ClearMerge(s2, j, x);
    }
  }

  lemma ClearInsert(bs: seq<Blk>, j: int, b: Blk, x: Blk)
    requires 0 <= j < |bs| && Clear(bs, x) && (End(x) <= b.a || End(b) <= x.a)
    ensures Clear(InsertAt(bs, j, b), x)
  {
    var r := InsertAt(bs, j, b);
    assert forall i :: 0 <= i < |r| ==> r[i] == if i <= j then bs[i] else if i == j + 1 then b else bs[i - 1];
  }

  lemma ClearMerge(bs: seq<Blk>, k: int, x: Blk)
    requires Ordered(bs) && 1 <= k && Touch(bs, k) && Clear(bs, x) && x.n > 0
    ensures Clear(MergeAt(bs, k), x)
  {
    var r := MergeAt(bs, k);
    assert forall i :: 0 <= i < |r| ==> r[i] == if i < k then bs[i]
        else if i == k then Blk(bs[k].a, bs[k].n + bs[k + 1].n) else bs[i + 1];
  }

  /** Taking block a out of use. */
  function Remove(live: map<int, int>, a: int): (r: map<int, int>) {
    map x | x in live && x != a :: live[x]
  }

  lemma LiveFreed(mem: map<int, Header>, bs: seq<Blk>, live: map<int, int>, j: int, a: int, mem': map<int, Header>)
    requires Ordered(bs) && Coalesced(bs) && LiveOk(mem, bs, live) && a in live && Place(bs, j, Blk(a, live[a]))
    requires forall x :: x in mem && x != a && x != bs[j].a ==> x in mem' && mem'[x] == mem[x]
    ensures LiveOk(mem', Freed(bs, j, Blk(a, live[a])), Remove(live, a))
  {
    var b := Blk(a, live[a]);
    hide Freed, Ordered, Coalesced, Clear;
    forall x | x in Remove(live, a)
      ensures x in mem' && mem'[x].size == live[x] && Clear(Freed(bs, j, b), Blk(x, live[x]))
    {
      ApartAt(bs, Blk(x, live[x]), j);
      ClearFreed(bs, j, b, Blk(x, live[x]));
    }
  }

  lemma CoveredFreed(bs: seq<Blk>, live: map<int, int>, obtained: set<int>, a: int, bs': seq<Blk>)
    requires Covered(bs, live, obtained) && a in live
    requires forall u :: InFree(bs', u) <==> InFree(bs, u) || InBlock(Blk(a, live[a]), u)
    ensures Covered(bs', Remove(live, a), obtained)
  {
    hide InFree, InBlock;
    forall u
      ensures InFree(bs, u) || InLive(live, u) <==> InFree(bs', u) || InLive(Remove(live, a), u)
    {
      if InLive(live, u) {
        var x :| x in live && InBlock(Blk(x, live[x]), u);
        assert x == a || x in Remove(live, a);
      }
      if InLive(Remove(live, a), u) {
        var x :| x in Remove(live, a) && InBlock(Blk(x, Remove(live, a)[x]), u);
        assert x in live && InBlock(Blk(x, live[x]), u);
      }
    }
  }

  // ---------------------------------------------------------------- malloc

  lemma DropRing(mem: map<int, Header>, bs: seq<Blk>, k: int)
    requires Ordered(bs) && Ring(mem, bs) && 1 <= k < |bs|
    ensures bs[k - 1].a in mem && bs[k].a in mem
    ensures Ring(mem[bs[k - 1].a := mem[bs[k - 1].a].(ptr := mem[bs[k].a].ptr)], Drop(bs, k))
  {
    hide Ordered, Ring, Drop;
    RingAt(mem, bs, k - 1);
    RingAt(mem, bs, k);
    var mem' := mem[bs[k - 1].a := mem[bs[k - 1].a].(ptr := mem[bs[k].a].ptr)];
    var r := Drop(bs, k);
    DropAt(bs, k, 0);
    forall i | 0 <= i < |r|
      ensures r[i].a in mem' && mem'[r[i].a] == Header(r[Succ(i, |r|)].a, r[i].n)
    {
      DropAt(bs, k, i);
      DropAt(bs, k, Succ(i, |r|));
      var m := if i < k then i else i + 1;
      RingAt(mem, bs, m);
      assert m != k - 1 ==> bs[m].a != bs[k - 1].a by { Distinct(bs); }
    }
    RingFrom(mem', r);
  }

  lemma RingFrom(mem: map<int, Header>, bs: seq<Blk>)
    requires forall i :: 0 <= i < |bs| ==> bs[i].a in mem && mem[bs[i].a] == Header(bs[Succ(i, |bs|)].a, bs[i].n)
    ensures Ring(mem, bs)
  {
  }

  lemma ShrinkRing(mem: map<int, Header>, bs: seq<Blk>, k: int, n: int, h: Header)
    requires Ordered(bs) && Ring(mem, bs) && 1 <= k < |bs| && 0 < n < bs[k].n
    ensures bs[k].a in mem
    ensures Ring(mem[bs[k].a := mem[bs[k].a].(size := bs[k].n - n)][CutBlock(bs, k, n).a := h], Shrink(bs, k, n))
  {
    var mem' := mem[bs[k].a := mem[bs[k].a].(size := bs[k].n - n)][CutBlock(bs, k, n).a := h];
    var r := Shrink(bs, k, n);
    forall i | 0 <= i < |r|
      ensures r[i].a in mem' && mem'[r[i].a] == Header(r[Succ(i, |r|)].a, r[i].n)
    {
      RingAt(mem, bs, i);
      NotInside(bs, k, i, CutBlock(bs, k, n).a);
      assert i != k ==> bs[i].a != bs[k].a by { Distinct(bs); }
    }
  }

  /** An address strictly inside a free block is the header of none. */
  lemma NotInside(bs: seq<Blk>, k: int, i: int, x: int)
    requires Ordered(bs) && 1 <= k < |bs| && 0 <= i < |bs| && bs[k].a < x < End(bs[k])
    ensures bs[i].a != x
  {
    if i < k {
      assert End(bs[i]) <= bs[k].a;
    } else if i > k {
      assert End(bs[k]) <= bs[i].a;
    }
  }

  lemma LiveCut(mem: map<int, Header>, bs: seq<Blk>, live: map<int, int>, k: int, n: int, mem': map<int, Header>)
    requires Ordered(bs) && Coalesced(bs) && LiveOk(mem, bs, live) && 1 <= k < |bs| && 0 < n <= bs[k].n
    requires var b := CutBlock(bs, k, n);
             && b.a in mem' && mem'[b.a].size == n
             && (forall x :: x in mem && x != b.a && x != bs[k].a && x != bs[k - 1].a ==>
                    x in mem' && mem'[x] == mem[x])
    ensures CutBlock(bs, k, n).a !in live
    ensures LiveOk(mem', Cut(bs, k, n), live[CutBlock(bs, k, n).a := n])
  {
    var b := CutBlock(bs, k, n);
    CutOk(bs, k, n);
    forall x | x in live
      ensures x != b.a && x in mem' && mem'[x] == mem[x] && Clear(Cut(bs, k, n), Blk(x, live[x]))
              && (End(Blk(x, live[x])) <= b.a || End(b) <= x)
    {
      LiveCutAt(bs, k, n, Blk(x, live[x]));
    }
    hide Ordered, Coalesced, Clear, Cut;
  }

  lemma LiveCutAt(bs: seq<Blk>, k: int, n: int, x: Blk)
    requires Ordered(bs) && 1 <= k < |bs| && 0 < n <= bs[k].n && x.n > 0 && Clear(bs, x)
    ensures x.a != CutBlock(bs, k, n).a && x.a != bs[k].a && x.a != bs[k - 1].a
    ensures End(x) <= CutBlock(bs, k, n).a || End(CutBlock(bs, k, n)) <= x.a
    ensures Clear(Cut(bs, k, n), x)
  {
    ApartAt(bs, x, k);
    ApartAt(bs, x, k - 1);
    var r := Cut(bs, k, n);
    if bs[k].n == n {
      forall i | 0 <= i < |r|
        ensures r[i] == bs[if i < k then i else i + 1]
      {
        DropAt(bs, k, i);
      }
    }
  }

  lemma CoveredCut(bs: seq<Blk>, live: map<int, int>, obtained: set<int>, b: Blk, bs': seq<Blk>)
    requires Covered(bs, live, obtained) && b.a !in live
    requires forall u :: InFree(bs, u) <==> InFree(bs', u) || InBlock(b, u)
    ensures Covered(bs', live[b.a := b.n], obtained)
  {
    hide InFree, InBlock;
    var live' := live[b.a := b.n];
    forall u
      ensures InFree(bs, u) || InLive(live, u) <==> InFree(bs', u) || InLive(live', u)
    {
      if InBlock(b, u) {
        assert b.a in live' && InBlock(Blk(b.a, live'[b.a]), u);
      }
      if InLive(live, u) {
        var x :| x in live && InBlock(Blk(x, live[x]), u);
        assert x in live' && InBlock(Blk(x, live'[x]), u);
      }
      if InLive(live', u) {
        var x :| x in live' && InBlock(Blk(x, live'[x]), u);
        assert x == b.a || x in live;
      }
    }
  }
}
