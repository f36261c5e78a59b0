/** The free list of user/umalloc.c as a sequence of blocks in address order. Addresses and sizes are in
    units of one header. */
module HeapList {
  datatype Blk = Blk(a: int, n: int)

  function End(b: Blk): (e: int) {
    b.a + b.n
  }

  predicate Touch(bs: seq<Blk>, i: int)
    requires 0 <= i
  {
    i + 1 < |bs| && End(bs[i]) == bs[i + 1].a
  }

  /** Block 0 is `base`, of size 0; the others are above it, not empty, ordered and do not overlap. */
  ghost predicate Ordered(bs: seq<Blk>) {
    && |bs| > 0 && bs[0].n == 0
    && (forall i :: 1 <= i < |bs| ==> bs[i].n > 0 && bs[0].a < bs[i].a)
    && (forall i, k :: 0 <= i < k < |bs| ==> End(bs[i]) <= bs[k].a)
  }

  /** No two free blocks are adjacent. */
  ghost predicate Coalesced(bs: seq<Blk>) {
    forall i :: 0 <= i < |bs| ==> !Touch(bs, i)
  }

  ghost predicate InBlock(b: Blk, u: int) {
    b.a <= u < End(b)
  }

  /** Unit u is in a free block. */
  ghost predicate InFree(bs: seq<Blk>, u: int) {
    exists i :: 0 <= i < |bs| && InBlock(bs[i], u)
  }

  /** Block b does not overlap any block of the list. */
  ghost predicate Clear(bs: seq<Blk>, b: Blk) {
    forall i :: 0 <= i < |bs| ==> (if i == 0 then bs[i].a < b.a else End(b) <= bs[i].a || End(bs[i]) <= b.a)
  }

  /** Where block b belongs: after block j. */
  predicate Place(bs: seq<Blk>, j: int, b: Blk) {
    && 0 <= j < |bs|
    && bs[j].a < b.a
    && (j + 1 < |bs| ==> b.a < bs[j + 1].a)
  }

  function InsertAt(bs: seq<Blk>, j: int, b: Blk): (r: seq<Blk>)
    requires 0 <= j < |bs|
  {
    bs[..j + 1] + [b] + bs[j + 1..]
  }

  /** Blocks k and k + 1 become one. */
  function MergeAt(bs: seq<Blk>, k: int): (r: seq<Blk>)
    requires 0 <= k && k + 1 < |bs|
  {
    bs[..k] + [Blk(bs[k].a, bs[k].n + bs[k + 1].n)] + bs[k + 2..]
  }

  lemma InsertIx(bs: seq<Blk>, j: int, b: Blk, i: int)
    requires 0 <= j < |bs| && 0 <= i <= |bs|
    ensures |InsertAt(bs, j, b)| == |bs| + 1
    ensures InsertAt(bs, j, b)[i] == if i <= j then bs[i] else if i == j + 1 then b else bs[i - 1]
  {
  }

  lemma MergeIx(bs: seq<Blk>, k: int, i: int)
    requires 0 <= k && k + 1 < |bs| && 0 <= i < |bs| - 1
    ensures |MergeAt(bs, k)| == |bs| - 1
    ensures MergeAt(bs, k)[i] == if i < k then bs[i] else if i == k then Blk(bs[k].a, bs[k].n + bs[k + 1].n)
            else bs[i + 1]
  {
  }

  /** Ordered, pair by pair. */
  lemma OrderedFrom(bs: seq<Blk>)
    requires |bs| > 0 && bs[0].n == 0
    requires forall i :: 1 <= i < |bs| ==> bs[i].n > 0 && bs[0].a < bs[i].a
    requires forall i, k :: 0 <= i < k < |bs| ==> End(bs[i]) <= bs[k].a
    ensures Ordered(bs)
  {
  }

  lemma OrderedAt(bs: seq<Blk>, i: int, k: int)
    requires Ordered(bs) && 0 <= i <= k < |bs|
    ensures i < k ==> End(bs[i]) <= bs[k].a
    ensures bs[0].n == 0 && (i > 0 ==> bs[i].n > 0 && bs[0].a < bs[i].a) && (k > 0 ==> bs[k].n > 0 && bs[0].a < bs[k].a)
  {
  }

  /** The new block and a block before or after it. */
  lemma PlaceAt(bs: seq<Blk>, j: int, b: Blk, i: int)
    requires Ordered(bs) && Place(bs, j, b) && Clear(bs, b) && b.n > 0 && 0 <= i < |bs|
    ensures i <= j ==> End(bs[i]) <= b.a
    ensures i > j ==> End(b) <= bs[i].a
    ensures bs[0].a < b.a
  {
    OrderedAt(bs, if i <= j then i else j, if i <= j then j else i);
    if i > j {
      OrderedAt(bs, j + 1, i);
    }
  }

  lemma InsertOrdered(bs: seq<Blk>, j: int, b: Blk)
    requires Ordered(bs) && Coalesced(bs) && Place(bs, j, b) && Clear(bs, b) && b.n > 0
    ensures Ordered(InsertAt(bs, j, b))
    ensures forall i :: 0 <= i < |bs| + 1 && i != j && i != j + 1 ==> !Touch(InsertAt(bs, j, b), i)
  {
    hide InsertAt, Ordered, Clear;
    var r := InsertAt(bs, j, b);
    InsertIx(bs, j, b, 0);
    OrderedAt(bs, 0, 0);
    forall i | 1 <= i < |r|
      ensures r[i].n > 0 && r[0].a < r[i].a
    {
      InsertIx(bs, j, b, i);
      PlaceAt(bs, j, b, 0);
      if i != j + 1 {
        OrderedAt(bs, 0, if i <= j then i else i - 1);
      }
    }
    forall i, k | 0 <= i < k < |r|
      ensures End(r[i]) <= r[k].a
    {
      InsertIx(bs, j, b, i);
      InsertIx(bs, j, b, k);
      if k == j + 1 {
        PlaceAt(bs, j, b, i);
      } else if i == j + 1 {
        PlaceAt(bs, j, b, k - 1);
      } else {
        OrderedAt(bs, if i <= j then i else i - 1, if k <= j then k else k - 1);
      }
    }
    OrderedFrom(r);
    forall i | 0 <= i < |r| && i != j && i != j + 1
      ensures !Touch(r, i)
    {
      InsertIx(bs, j, b, i);
      if i + 1 < |r| {
        InsertIx(bs, j, b, i + 1);
      }
      assert !Touch(bs, if i > j then i - 1 else i);
    }
  }

  lemma MergeOrdered(bs: seq<Blk>, k: int)
    requires Ordered(bs) && 1 <= k && Touch(bs, k)
    ensures Ordered(MergeAt(bs, k))
    ensures forall i :: 0 <= i < k - 1 && !Touch(bs, i) ==> !Touch(MergeAt(bs, k), i)
    ensures Touch(MergeAt(bs, k), k - 1) <==> Touch(bs, k - 1)
    ensures forall i :: k <= i < |bs| - 1 && !Touch(bs, i + 1) ==> !Touch(MergeAt(bs, k), i)
  {
    hide MergeAt, Ordered;
    var r := MergeAt(bs, k);
    MergeIx(bs, k, 0);
    OrderedAt(bs, 0, 0);
    forall i | 1 <= i < |r|
      ensures r[i].n > 0 && r[0].a < r[i].a
    {
      MergeIx(bs, k, i);
      OrderedAt(bs, 0, if i <= k then i else i + 1);
      OrderedAt(bs, k, k + 1);
    }
    forall i, m | 0 <= i < m < |r|
      ensures End(r[i]) <= r[m].a
    {
      MergeIx(bs, k, i);
      MergeIx(bs, k, m);
      OrderedAt(bs, if i < k then i else i + 1, if m <= k then (if i < k then m else m + 1) else m + 1);
    }
    OrderedFrom(r);
    forall i | 0 <= i < |r|
      ensures i < k - 1 && !Touch(bs, i) ==> !Touch(r, i)
      ensures i == k - 1 ==> (Touch(r, i) <==> Touch(bs, i))
      ensures k <= i && !Touch(bs, i + 1) ==> !Touch(r, i)
    {
      MergeIx(bs, k, i);
      if i + 1 < |r| {
        MergeIx(bs, k, i + 1);
      }
    }
  }

  lemma InsertCovers(bs: seq<Blk>, j: int, b: Blk, u: int)
    requires 0 <= j < |bs|
    ensures InFree(InsertAt(bs, j, b), u) <==> InFree(bs, u) || InBlock(b, u)
  {
    hide InBlock;
    var r := InsertAt(bs, j, b);
    if InFree(bs, u) {
      var i :| 0 <= i < |bs| && InBlock(bs[i], u);
      assert r[if i <= j then i else i + 1] == bs[i];
    }
    if InBlock(b, u) {
      assert r[j + 1] == b;
    }
    if InFree(r, u) {
      var i :| 0 <= i < |r| && InBlock(r[i], u);
      if i != j + 1 {
        assert r[i] == bs[if i <= j then i else i - 1];
      }
    }
  }

  lemma MergeCovers(bs: seq<Blk>, k: int, u: int)
    requires 0 <= k && Touch(bs, k) && bs[k].n >= 0 && bs[k + 1].n >= 0
    ensures InFree(MergeAt(bs, k), u) <==> InFree(bs, u)
  {
    var r := MergeAt(bs, k);
    if InFree(bs, u) {
      var i :| 0 <= i < |bs| && InBlock(bs[i], u);
      var m := if i <= k then i else i - 1;
      assert InBlock(r[m], u);
    }
    if InFree(r, u) {
      var i :| 0 <= i < |r| && InBlock(r[i], u);
      if i == k {
        assert InBlock(bs[k], u) || InBlock(bs[k + 1], u);
      } else {
        assert r[i] == bs[if i < k then i else i + 1];
      }
    }
  }

  /** `free`: insert after block j, then join with the block above and with the block below. */
  function Freed(bs: seq<Blk>, j: int, b: Blk): (r: seq<Blk>)
    requires 0 <= j < |bs|
  {
    var s1 := InsertAt(bs, j, b);
    var s2 := if Touch(s1, j + 1) then MergeAt(s1, j + 1) else s1;
    if Touch(s2, j) then MergeAt(s2, j) else s2
  }

  lemma FreedShape(bs: seq<Blk>, j: int, b: Blk)
    requires Ordered(bs) && Coalesced(bs) && Place(bs, j, b) && Clear(bs, b) && b.n > 0
    ensures Ordered(Freed(bs, j, b)) && Coalesced(Freed(bs, j, b))
  {
    hide InsertAt, MergeAt, Ordered, Touch;
    var s1 := InsertAt(bs, j, b);
    InsertOrdered(bs, j, b);
    InsertLength(bs, j, b);
    var s2 := s1;
    if Touch(s1, j + 1) {
      MergeLength(s1, j + 1);
      s2 := MergeAt(s1, j + 1);
      MergeOrdered(s1, j + 1);
    }
    assert forall i :: 0 <= i < |s2| && i != j ==> !Touch(s2, i) by { AfterUp(bs, j, b); }
    if Touch(s2, j) {
      MergeLength(s2, j);
      NotBase(s2, j);
      MergeOrdered(s2, j);
      AfterDown(s2, j);
    }
  }

  lemma InsertLength(bs: seq<Blk>, j: int, b: Blk)
    requires 0 <= j < |bs|
    ensures |InsertAt(bs, j, b)| == |bs| + 1
  {
  }

  lemma MergeLength(bs: seq<Blk>, k: int)
    requires 0 <= k && Touch(bs, k)
    ensures k + 1 < |bs| && |MergeAt(bs, k)| == |bs| - 1
  {
  }

  lemma NotBase(bs: seq<Blk>, j: int)
    requires Ordered(bs) && 0 <= j && Touch(bs, j)
    ensures j >= 1
  {
  }

  /** Joined with the block above: only block j may touch its successor. */
  lemma AfterUp(bs: seq<Blk>, j: int, b: Blk)
    requires Ordered(bs) && Coalesced(bs) && Place(bs, j, b) && Clear(bs, b) && b.n > 0
    ensures var s1 := InsertAt(bs, j, b); var s2 := if Touch(s1, j + 1) then MergeAt(s1, j + 1) else s1;
            forall i :: 0 <= i < |s2| && i != j ==> !Touch(s2, i)
  {
    hide InsertAt, MergeAt, Ordered;
    var s1 := InsertAt(bs, j, b);
    InsertOrdered(bs, j, b);
    InsertLength(bs, j, b);
    if Touch(s1, j + 1) {
      MergeOrdered(s1, j + 1);
      MergeLength(s1, j + 1);
      var s2 := MergeAt(s1, j + 1);
      forall i | 0 <= i < |s2| && i != j
        ensures !Touch(s2, i)
      {
        if i > j {
          assert !Touch(s1, i + 1);
        } else {
          assert !Touch(s1, i);
        }
      }
    }
  }

  lemma AfterDown(bs: seq<Blk>, k: int)
    requires Ordered(bs) && 1 <= k && Touch(bs, k) && forall i :: 0 <= i < |bs| && i != k ==> !Touch(bs, i)
    ensures Coalesced(MergeAt(bs, k))
  {
    hide MergeAt, Ordered;
    MergeOrdered(bs, k);
    MergeLength(bs, k);
    var r := MergeAt(bs, k);
    forall i | 0 <= i < |r|
      ensures !Touch(r, i)
    {
      if i >= k {
        assert !Touch(bs, i + 1);
      } else {
        assert !Touch(bs, i);
      }
    }
  }

  /** The list keeps its shape and gains exactly the units of the block. */
  lemma FreedOk(bs: seq<Blk>, j: int, b: Blk)
    requires Ordered(bs) && Coalesced(bs) && Place(bs, j, b) && Clear(bs, b) && b.n > 0
    ensures Ordered(Freed(bs, j, b)) && Coalesced(Freed(bs, j, b))
    ensures forall u :: InFree(Freed(bs, j, b), u) <==> InFree(bs, u) || InBlock(b, u)
  {
    FreedShape(bs, j, b);
    hide InFree, InBlock, Freed;
    forall u
      ensures InFree(Freed(bs, j, b), u) <==> InFree(bs, u) || InBlock(b, u)
    {
      FreedCovers(bs, j, b, u);
    }
  }

  lemma FreedCovers(bs: seq<Blk>, j: int, b: Blk, u: int)
    requires Ordered(bs) && Coalesced(bs) && Place(bs, j, b) && Clear(bs, b) && b.n > 0
    ensures InFree(Freed(bs, j, b), u) <==> InFree(bs, u) || InBlock(b, u)
  {
    hide InFree, InBlock, InsertAt, MergeAt;
    var s1 := InsertAt(bs, j, b);
    InsertOrdered(bs, j, b);
    InsertCovers(bs, j, b, u);
    var s2 := s1;
    if Touch(s1, j + 1) {
      s2 := MergeAt(s1, j + 1);
      MergeOrdered(s1, j + 1);
      MergeCovers(s1, j + 1, u);
    }
    if Touch(s2, j) {
      MergeCovers(s2, j, u);
    }
  }

  // ---------------------------------------------------------------- malloc

  function Drop(bs: seq<Blk>, k: int): (r: seq<Blk>)
    requires 0 <= k < |bs|
  {
    bs[..k] + bs[k + 1..]
  }

  function Shrink(bs: seq<Blk>, k: int, n: int): (r: seq<Blk>)
    requires 0 <= k < |bs|
  {
    bs[k := Blk(bs[k].a, bs[k].n - n)]
  }

  /** `malloc` from block k: the whole block, or the upper n units of it. */
  function Cut(bs: seq<Blk>, k: int, n: int): (r: seq<Blk>)
    requires 0 <= k < |bs|
  {
    if bs[k].n == n then Drop(bs, k) else Shrink(bs, k, n)
  }

  function CutBlock(bs: seq<Blk>, k: int, n: int): (b: Blk)
    requires 0 <= k < |bs|
  {
    Blk(End(bs[k]) - n, n)
  }

  lemma DropAt(bs: seq<Blk>, k: int, i: int)
    requires 0 <= k < |bs| && 0 <= i < |bs| - 1
    ensures |Drop(bs, k)| == |bs| - 1 && Drop(bs, k)[i] == bs[if i < k then i else i + 1]
  {
  }

  lemma DropShape(bs: seq<Blk>, k: int)
    requires Ordered(bs) && Coalesced(bs) && 1 <= k < |bs|
    ensures Ordered(Drop(bs, k)) && Coalesced(Drop(bs, k)) && Clear(Drop(bs, k), bs[k])
  {
    var r := Drop(bs, k);
    assert forall i :: 0 <= i < |r| ==> r[i] == bs[if i < k then i else i + 1];
    hide Drop;
    forall i | 0 <= i < |r|
      ensures !Touch(r, i)
    {
      if i == k - 1 && i + 1 < |r| {
        assert End(bs[k - 1]) <= bs[k].a < End(bs[k]) <= bs[k + 1].a;
      } else if i + 1 < |r| {
        assert !Touch(bs, if i < k then i else i + 1);
      }
    }
  }

  lemma ShrinkShape(bs: seq<Blk>, k: int, n: int)
    requires Ordered(bs) && Coalesced(bs) && 1 <= k < |bs| && 0 < n < bs[k].n
    ensures Ordered(Shrink(bs, k, n)) && Coalesced(Shrink(bs, k, n)) && Clear(Shrink(bs, k, n), CutBlock(bs, k, n))
  {
    var r := Shrink(bs, k, n);
    forall i | 0 <= i < |r|
      ensures !Touch(r, i)
    {
      assert !Touch(bs, i);
      if i == k && i + 1 < |r| {
        assert End(r[k]) < End(bs[k]) <= bs[k + 1].a;
      }
    }
  }

  lemma DropCovers(bs: seq<Blk>, k: int, u: int)
    requires 0 <= k < |bs|
    ensures InFree(bs, u) <==> InFree(Drop(bs, k), u) || InBlock(bs[k], u)
  {
    hide InBlock;
    var r := Drop(bs, k);
    if InFree(bs, u) {
      var i :| 0 <= i < |bs| && InBlock(bs[i], u);
      if i != k {
        assert r[if i < k then i else i - 1] == bs[i];
      }
    }
    if InFree(r, u) {
      var i :| 0 <= i < |r| && InBlock(r[i], u);
      DropAt(bs, k, i);
    }
  }

  lemma ShrinkCovers(bs: seq<Blk>, k: int, n: int, u: int)
    requires 0 <= k < |bs| && 0 <= n <= bs[k].n
    ensures InFree(bs, u) <==> InFree(Shrink(bs, k, n), u) || InBlock(CutBlock(bs, k, n), u)
  {
    var r := Shrink(bs, k, n);
    if InFree(bs, u) {
      var i :| 0 <= i < |bs| && InBlock(bs[i], u);
      assert InBlock(r[i], u) || InBlock(CutBlock(bs, k, n), u);
    }
    if InBlock(CutBlock(bs, k, n), u) {
      assert InBlock(bs[k], u);
    }
    if InFree(r, u) {
      var i :| 0 <= i < |r| && InBlock(r[i], u);
      assert InBlock(bs[i], u);
    }
  }

  /** The list keeps its shape and loses exactly the units of the block. */
  lemma CutOk(bs: seq<Blk>, k: int, n: int)
    requires Ordered(bs) && Coalesced(bs) && 1 <= k < |bs| && 0 < n <= bs[k].n
    ensures Ordered(Cut(bs, k, n)) && Coalesced(Cut(bs, k, n))
    ensures Clear(Cut(bs, k, n), CutBlock(bs, k, n))
    ensures forall u :: InFree(bs, u) <==> InFree(Cut(bs, k, n), u) || InBlock(CutBlock(bs, k, n), u)
  {
    hide InFree, InBlock, Drop, Shrink, Ordered, Coalesced, Clear;
    if bs[k].n == n {
      DropShape(bs, k);
      assert CutBlock(bs, k, n) == bs[k];
    } else {
      ShrinkShape(bs, k, n);
    }
    forall u
      ensures InFree(bs, u) <==> InFree(Cut(bs, k, n), u) || InBlock(CutBlock(bs, k, n), u)
    {
      if bs[k].n == n {
        DropCovers(bs, k, u);
      } else {
        ShrinkCovers(bs, k, n, u);
      }
    }
  }
}
