/** What a write allocates and logs (kernel/fs.c:377-405, 484-516), and that one chunk of `filewrite`
    fits into a transaction (kernel/file.c:155-175). */
module FsCost {
  import opened FsBits
  import opened FsMap
  import opened Sets

  const MAXOPBLOCKS := 10
  const MAXCHUNK := ((MAXOPBLOCKS - 1 - 1 - 2) / 2) * BSIZE

  /** IBLOCK(i, sb). */
  function InodeBlock(l: Layout, i: int): (b: int) {
    l.inode + i / 16
  }

  /** Addresses stay once they are there. */
  ghost predicate Kept(d0: Disk, n0: map<int, Inode>, d: Disk, n: map<int, Inode>)
    requires InodesOk(n0) && InodesOk(n)
  {
    && n.Keys == n0.Keys
    && forall j, s :: j in n0 && 0 <= s < SLOTS && Addr(d0, n0[j], s) != 0 ==> Addr(d, n[j], s) == Addr(d0, n0[j], s)
  }

  /** Blocks logged for one slot: the block in it and, if it is new, the bitmap block of its bit. */
  ghost function Cost(l: Layout, d0: Disk, n0: map<int, Inode>, d: Disk, n: map<int, Inode>, i: int,
                      s: int): (c: set<int>)
    requires InodesOk(n0) && InodesOk(n) && i in n0 && i in n && 0 <= s < SLOTS
  {
    var a := Addr(d, n[i], s);
    if a == 0 then {} else if Addr(d0, n0[i], s) != 0 then {a} else {a, BitmapBlock(l, a)}
  }

  /** Logged by `bmap` and a write to the block in slot s. */
  ghost predicate LogsSlot(l: Layout, d0: Disk, n0: map<int, Inode>, log0: set<int>, d: Disk, n: map<int, Inode>,
                           log: set<int>, i: int, s: int)
    requires InodesOk(n0) && InodesOk(n) && i in n0 && i in n && 0 <= s < SLOTS
  {
    log <= log0 + Cost(l, d0, n0, d, n, i, INDIRECT) + Cost(l, d0, n0, d, n, i, s)
  }

  /** Block bn of a file holds one of the bytes [lo, hi). */
  ghost predicate Touches(lo: int, hi: int, bn: int) {
    0 <= bn < MAXFILE && lo < hi && lo < (bn + 1) * BSIZE && bn * BSIZE < hi
  }

  ghost predicate LoggedFor(l: Layout, d0: Disk, n0: map<int, Inode>, d: Disk, n: map<int, Inode>, i: int, lo: int,
                            hi: int, m: int)
    requires InodesOk(n0) && InodesOk(n) && i in n0 && i in n
  {
    || m == InodeBlock(l, i)
    || m in Cost(l, d0, n0, d, n, i, INDIRECT)
    || exists bn :: Touches(lo, hi, bn) && m in Cost(l, d0, n0, d, n, i, Slot(bn))
  }

  /** All a write of the bytes [lo, hi) of file i logs. */
  ghost predicate LogsOnly(l: Layout, d0: Disk, n0: map<int, Inode>, log0: set<int>, d: Disk, n: map<int, Inode>,
                           log: set<int>, i: int, lo: int, hi: int)
    requires InodesOk(n0) && InodesOk(n) && i in n0 && i in n
  {
    forall m :: m in log ==> m in log0 || LoggedFor(l, d0, n0, d, n, i, lo, hi, m)
  }

  lemma CostLater(l: Layout, d0: Disk, n0: map<int, Inode>, d1: Disk, n1: map<int, Inode>, d2: Disk, n2: map<int,
                  Inode>, i: int, s: int)
    requires InodesOk(n0) && InodesOk(n1) && InodesOk(n2) && i in n0 && 0 <= s < SLOTS
    requires Kept(d0, n0, d1, n1) && Kept(d1, n1, d2, n2)
    ensures Cost(l, d0, n0, d1, n1, i, s) <= Cost(l, d0, n0, d2, n2, i, s)
    ensures Cost(l, d1, n1, d2, n2, i, s) <= Cost(l, d0, n0, d2, n2, i, s)
  {
    hide Addr, BitmapBlock;
  }

  /** A write one block further. */
  lemma LogsMore(l: Layout, d0: Disk, n0: map<int, Inode>, log0: set<int>, d1: Disk, n1: map<int, Inode>,
                 log1: set<int>, d2: Disk, n2: map<int, Inode>, log2: set<int>,
                 i: int, lo: int, hi: int, off: int)
    requires InodesOk(n0) && InodesOk(n1) && InodesOk(n2) && i in n0 && i in n1 && i in n2
    requires Kept(d0, n0, d1, n1) && Kept(d1, n1, d2, n2)
    requires 0 <= lo <= off < hi <= MAXFILE * BSIZE && 0 <= Slot(off / BSIZE) < SLOTS
    requires LogsOnly(l, d0, n0, log0, d1, n1, log1, i, lo, hi)
    requires LogsSlot(l, d1, n1, log1, d2, n2, log2, i, Slot(off / BSIZE))
    ensures LogsOnly(l, d0, n0, log0, d2, n2, log2, i, lo, hi)
  {
    hide Cost, Kept, InodeBlock;
    assert Touches(lo, hi, off / BSIZE);
    CostLater(l, d0, n0, d1, n1, d2, n2, i, INDIRECT);
    CostLater(l, d0, n0, d1, n1, d2, n2, i, Slot(off / BSIZE));
    forall m | m in log2 && m !in log0
      ensures LoggedFor(l, d0, n0, d2, n2, i, lo, hi, m)
    {
      if m in log1 && exists bn :: Touches(lo, hi, bn) && m in Cost(l, d0, n0, d1, n1, i, Slot(bn)) {
        var bn :| Touches(lo, hi, bn) && m in Cost(l, d0, n0, d1, n1, i, Slot(bn));
        CostLater(l, d0, n0, d1, n1, d2, n2, i, Slot(bn));
      }
    }
  }

  lemma KeptTrans(d0: Disk, n0: map<int, Inode>, d1: Disk, n1: map<int, Inode>, d2: Disk, n2: map<int, Inode>)
    requires InodesOk(n0) && InodesOk(n1) && InodesOk(n2) && Kept(d0, n0, d1, n1) && Kept(d1, n1, d2, n2)
    ensures Kept(d0, n0, d2, n2)
  {
    hide Addr;
  }

  // ---------------------------------------------------------------- nothing is changed without being logged

  /** Every block that changed was logged, except perhaps block `but`. */
  ghost predicate Covers(d0: Disk, log0: set<int>, d: Disk, log: set<int>, but: int) {
    && |d| == |d0| && log0 <= log
    && forall b :: 0 <= b < |d| && d[b] != d0[b] && b != but ==> b in log
  }

  lemma CoversTrans(d0: Disk, log0: set<int>, d1: Disk, log1: set<int>, d2: Disk, log2: set<int>, but: int)
    requires Covers(d0, log0, d1, log1, -1) && Covers(d1, log1, d2, log2, but)
    ensures Covers(d0, log0, d2, log2, but)
  {
  }

  lemma CoversNone(d: Disk, log: set<int>)
    ensures Covers(d, log, d, log, -1)
  {
  }

  lemma CoversWrite(d: Disk, log: set<int>, a: int, data: Block)
    requires 0 <= a < |d|
    ensures Covers(d, log, d[a := data], log + {a}, -1) && Covers(d, log, d[a := data], log, a)
  {
  }

  lemma CoversMore(d0: Disk, log0: set<int>, d: Disk, log: set<int>, but: int, m: int)
    requires Covers(d0, log0, d, log, but)
    ensures Covers(d0, log0, d, log + {m}, but)
  {
  }

  // ---------------------------------------------------------------- files without holes

  /** Every block of a file below its size is there. */
  ghost predicate Dense(disk: Disk, ip: Inode)
    requires InodeOk(ip)
  {
    forall bn :: Touches(0, ip.size, bn) ==> Addr(disk, ip, Slot(bn)) != 0
  }

  ghost predicate AllDense(disk: Disk, inodes: map<int, Inode>)
    requires InodesOk(inodes)
  {
    forall j :: j in inodes ==> Dense(disk, inodes[j])
  }

  /** The blocks of the bytes [lo, hi) of a file are there. */
  ghost predicate Filled(disk: Disk, ip: Inode, lo: int, hi: int)
    requires InodeOk(ip)
  {
    forall bn :: Touches(lo, hi, bn) ==> Addr(disk, ip, Slot(bn)) != 0
  }

  lemma FilledMore(d1: Disk, n1: map<int, Inode>, d2: Disk, n2: map<int, Inode>, i: int, lo: int, off: int, hi: int)
    requires InodesOk(n1) && InodesOk(n2) && i in n1 && Kept(d1, n1, d2, n2)
    requires 0 <= lo <= off < MAXFILE * BSIZE && off <= hi <= (off / BSIZE + 1) * BSIZE
             && 0 <= Slot(off / BSIZE) < SLOTS
    requires Filled(d1, n1[i], lo, off) && Addr(d2, n2[i], Slot(off / BSIZE)) != 0
    ensures Filled(d2, n2[i], lo, hi)
  {
    hide Addr;
    forall bn | Touches(lo, hi, bn)
      ensures Addr(d2, n2[i], Slot(bn)) != 0
    {
      if bn != off / BSIZE {
        assert Touches(lo, off, bn);
      }
    }
  }

  /** A file written from at most its size on has no holes if it had none. */
  lemma DenseMore(d1: Disk, n1: map<int, Inode>, d2: Disk, n2: map<int, Inode>, i: int, lo: int, hi: int)
    requires InodesOk(n1) && InodesOk(n2) && i in n1 && Kept(d1, n1, d2, n2)
    requires 0 <= lo <= n1[i].size && lo <= hi && Filled(d2, n2[i], lo, hi)
    requires forall j :: j in n1 ==> n2[j].size == if j == i && hi > n1[j].size then hi else n1[j].size
    requires AllDense(d1, n1)
    ensures AllDense(d2, n2)
  {
    hide Addr;
    forall j, bn | j in n2 && Touches(0, n2[j].size, bn)
      ensures Addr(d2, n2[j], Slot(bn)) != 0
    {
      assert Touches(0, n1[j].size, bn) || Touches(lo, hi, bn);
    }
  }

  // ---------------------------------------------------------------- counting

  lemma SumOfFive(a: set<int>, b: set<int>, c: set<int>, d: set<int>, e: set<int>)
    ensures |a + b + c + d + e| <= |a| + |b| + |c| + |d| + |e|
  {
    assert |a + b + c| <= |a| + |b| + |c|;
  }

  ghost function TouchCost(l: Layout, d0: Disk, n0: map<int, Inode>, d: Disk, n: map<int, Inode>, i: int, lo: int,
                           hi: int, bn: int): (c: set<int>)
    requires InodesOk(n0) && InodesOk(n) && i in n0 && i in n
  {
    if Touches(lo, hi, bn) then Cost(l, d0, n0, d, n, i, Slot(bn)) else {}
  }

  lemma CostSize(l: Layout, d0: Disk, n0: map<int, Inode>, d: Disk, n: map<int, Inode>, i: int, lo: int, hi: int,
                 bn: int)
    requires InodesOk(n0) && InodesOk(n) && i in n0 && i in n
    ensures |TouchCost(l, d0, n0, d, n, i, lo, hi, bn)| <= 2
    ensures |Cost(l, d0, n0, d, n, i, INDIRECT)| <= 2
    ensures !Touches(lo, hi, bn) || Addr(d0, n0[i], Slot(bn)) != 0 ==> |TouchCost(l, d0, n0, d, n, i, lo, hi, bn)| <= 1
  {
    hide Addr, BitmapBlock, Touches;
  }

  /** A chunk touches at most four blocks, and four only if it starts inside one. */
  lemma ChunkTouches(lo: int, hi: int, bn: int)
    requires 0 <= lo <= hi <= lo + MAXCHUNK && Touches(lo, hi, bn)
    ensures lo / BSIZE <= bn <= lo / BSIZE + 3
    ensures lo % BSIZE == 0 ==> bn <= lo / BSIZE + 2
  {
  }

  /** One chunk of `filewrite` logs at most MAXOPBLOCKS blocks: the start of the chunk is in a block
      that is there already, or on a block boundary. */
  lemma ChunkFitsTransaction(l: Layout, d0: Disk, n0: map<int, Inode>, log0: set<int>, d: Disk, n: map<int, Inode>,
                             log: set<int>, i: int, lo: int, hi: int)
    requires InodesOk(n0) && InodesOk(n) && i in n0 && i in n
    requires 0 <= lo <= hi <= lo + MAXCHUNK && lo <= n0[i].size && Dense(d0, n0[i])
    requires LogsOnly(l, d0, n0, log0, d, n, log, i, lo, hi)
    ensures |log - log0| <= MAXOPBLOCKS
  {
    hide Addr, BitmapBlock, Cost, InodeBlock, TouchCost, LoggedFor;
    var b := lo / BSIZE;
    var c0 := TouchCost(l, d0, n0, d, n, i, lo, hi, b);
    var c1 := TouchCost(l, d0, n0, d, n, i, lo, hi, b + 1);
    var c2 := TouchCost(l, d0, n0, d, n, i, lo, hi, b + 2);
    var c3 := TouchCost(l, d0, n0, d, n, i, lo, hi, b + 3);
    var ind := {InodeBlock(l, i)} + Cost(l, d0, n0, d, n, i, INDIRECT);
    CostSize(l, d0, n0, d, n, i, lo, hi, b + 1);
    CostSize(l, d0, n0, d, n, i, lo, hi, b + 2);
    FirstAndLast(l, d0, n0, d, n, i, lo, hi);
    SumOfFive(ind, c0, c1, c2, c3);
    forall m | m in log - log0
      ensures m in ind + c0 + c1 + c2 + c3
    {
      ChunkCovered(l, d0, n0, d, n, i, lo, hi, m);
    }
    SubsetSize(log - log0, ind + c0 + c1 + c2 + c3);
  }

  /** Of the first and the fourth block of a chunk at most one is new. */
  lemma FirstAndLast(l: Layout, d0: Disk, n0: map<int, Inode>, d: Disk, n: map<int, Inode>, i: int, lo: int, hi: int)
    requires InodesOk(n0) && InodesOk(n) && i in n0 && i in n
    requires 0 <= lo <= hi <= lo + MAXCHUNK && lo <= n0[i].size && Dense(d0, n0[i])
    ensures |TouchCost(l, d0, n0, d, n, i, lo, hi, lo / BSIZE)| + |TouchCost(l, d0, n0, d, n, i, lo, hi,
            lo / BSIZE + 3)| <= 3
  {
    hide Addr, BitmapBlock, Cost;
    var b := lo / BSIZE;
    CostSize(l, d0, n0, d, n, i, lo, hi, b);
    CostSize(l, d0, n0, d, n, i, lo, hi, b + 3);
    if lo % BSIZE != 0 {
      if Touches(lo, hi, b) {
        assert Touches(0, n0[i].size, b);
      }
    } else if Touches(lo, hi, b + 3) {
      ChunkTouches(lo, hi, b + 3);
    }
  }

  lemma ChunkCovered(l: Layout, d0: Disk, n0: map<int, Inode>, d: Disk, n: map<int, Inode>, i: int, lo: int, hi: int,
                     m: int)
    requires InodesOk(n0) && InodesOk(n) && i in n0 && i in n && 0 <= lo <= hi <= lo + MAXCHUNK
    requires LoggedFor(l, d0, n0, d, n, i, lo, hi, m)
    ensures var b := lo / BSIZE;
            || m == InodeBlock(l, i)
            || m in Cost(l, d0, n0, d, n, i, INDIRECT)
            || m in TouchCost(l, d0, n0, d, n, i, lo, hi, b)
            || m in TouchCost(l, d0, n0, d, n, i, lo, hi, b + 1)
            || m in TouchCost(l, d0, n0, d, n, i, lo, hi, b + 2)
            || m in TouchCost(l, d0, n0, d, n, i, lo, hi, b + 3)
  {
    hide Addr, BitmapBlock, Cost, InodeBlock;
    if m != InodeBlock(l, i) && m !in Cost(l, d0, n0, d, n, i, INDIRECT) {
      var bn :| Touches(lo, hi, bn) && m in Cost(l, d0, n0, d, n, i, Slot(bn));
      ChunkTouches(lo, hi, bn);
    }
  }

  /** The block in a slot as a set, and the one bitmap block of a disk of at most BPB blocks. */
  lemma OneBitmapBlock(l: Layout, d0: Disk, n0: map<int, Inode>, d: Disk, n: map<int, Inode>, owner: map<int,
                       (int, int)>, i: int, s: int)
    requires InodesOk(n0) && FsOk(l, d, n, owner) && l.size <= BPB && i in n0 && i in n && 0 <= s < SLOTS
    ensures InodesOk(n) && Cost(l, d0, n0, d, n, i, s) <= {Addr(d, n[i], s), l.bmap}
  {
    hide Addr;
    DataAddr(l, d, n, owner, i, s);
  }

  /** With a single bitmap block a chunk logs at most seven blocks. */
  lemma ChunkLogsSeven(l: Layout, d0: Disk, n0: map<int, Inode>, log0: set<int>, d: Disk, n: map<int, Inode>,
                       owner: map<int, (int, int)>, log: set<int>, i: int, lo: int, hi: int)
    requires InodesOk(n0) && InodesOk(n) && FsOk(l, d, n, owner) && l.size <= BPB && i in n0 && i in n
    requires 0 <= lo <= hi <= lo + MAXCHUNK
    requires LogsOnly(l, d0, n0, log0, d, n, log, i, lo, hi)
    ensures |log - log0| <= 7
  {
    hide Addr, BitmapBlock, Cost, InodeBlock, FsOk, Slot;
    var b := lo / BSIZE;
    var all := {InodeBlock(l, i), l.bmap, Addr(d, n[i], INDIRECT)} + BlockOf(d, n[i], b) + BlockOf(d, n[i], b + 1)
        + BlockOf(d, n[i], b + 2) + BlockOf(d, n[i], b + 3);
    OneBitmapBlock(l, d0, n0, d, n, owner, i, INDIRECT);
    BlockCost(l, d0, n0, d, n, owner, i, lo, hi, b);
    BlockCost(l, d0, n0, d, n, owner, i, lo, hi, b + 1);
    BlockCost(l, d0, n0, d, n, owner, i, lo, hi, b + 2);
    BlockCost(l, d0, n0, d, n, owner, i, lo, hi, b + 3);
    forall m | m in log - log0
      ensures m in all
    {
      ChunkCovered(l, d0, n0, d, n, i, lo, hi, m);
    }
    SubsetSize(log - log0, all);
  }

  ghost function BlockOf(d: Disk, ip: Inode, bn: int): (c: set<int>)
    requires InodeOk(ip)
  {
    if 0 <= bn < MAXFILE then {Addr(d, ip, Slot(bn))} else {}
  }

  lemma BlockCost(l: Layout, d0: Disk, n0: map<int, Inode>, d: Disk, n: map<int, Inode>, owner: map<int, (int, int)>,
                  i: int, lo: int, hi: int, bn: int)
    requires InodesOk(n0) && InodesOk(n) && FsOk(l, d, n, owner) && l.size <= BPB && i in n0 && i in n
    ensures TouchCost(l, d0, n0, d, n, i, lo, hi, bn) <= BlockOf(d, n[i], bn) + {l.bmap}
    ensures |BlockOf(d, n[i], bn)| <= 1
  {
    hide Addr, BitmapBlock, Cost, FsOk;
    if Touches(lo, hi, bn) {
      OneBitmapBlock(l, d0, n0, d, n, owner, i, Slot(bn));
    }
  }
}
