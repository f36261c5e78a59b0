/** Freeing all blocks of one inode (kernel/fs.c:88-103, 409-437). */
module FsTrunc {
  import opened FsBits
  import opened FsMap

  /** Block c was in one of the given slots of ip. */
  ghost predicate InSlots(disk: Disk, ip: Inode, done: set<int>, c: int)
    requires InodeOk(ip)
  {
    c != 0 && exists s :: s in done && 0 <= s < SLOTS && Addr(disk, ip, s) == c
  }

  /** The slots below k. */
  ghost function UpTo(k: nat): (r: set<int>)
    ensures forall s :: s in r <==> 0 <= s < k
  {
    if k == 0 then {} else UpTo(k - 1) + {k - 1}
  }

  /** The bits of exactly the blocks in the given slots of ip were cleared; no data block changed. */
  ghost predicate FreedBits(l: Layout, d0: Disk, ip: Inode, done: set<int>, d: Disk)
    requires LayoutOk(l, d0) && InodeOk(ip)
  {
    && LayoutOk(l, d)
    && (forall b :: l.data <= b < l.size ==> d[b] == d0[b])
    && (forall c :: 0 <= c < l.size ==> Used(l, d, c) == (Used(l, d0, c) && !InSlots(d0, ip, done, c)))
  }

  lemma FreedNone(l: Layout, d0: Disk, ip: Inode)
    requires LayoutOk(l, d0) && InodeOk(ip)
    ensures FreedBits(l, d0, ip, {}, d0)
  {
  }

  lemma InSlotsMore(disk: Disk, ip: Inode, done: set<int>, s: int, c: int)
    requires InodeOk(ip) && 0 <= s < SLOTS
    ensures InSlots(disk, ip, done + {s}, c) <==> InSlots(disk, ip, done, c) || (c != 0 && c == Addr(disk, ip, s))
  {
    hide Addr;
    if c != 0 && c == Addr(disk, ip, s) {
      assert s in done + {s};
    }
    if InSlots(disk, ip, done, c) {
      var t :| t in done && 0 <= t < SLOTS && Addr(disk, ip, t) == c;
      assert t in done + {s};
    }
  }

  lemma FreedEmpty(l: Layout, d0: Disk, ip: Inode, done: set<int>, d: Disk, s: int)
    requires LayoutOk(l, d0) && InodeOk(ip) && 0 <= s < SLOTS && Addr(d0, ip, s) == 0
    requires FreedBits(l, d0, ip, done, d)
    ensures FreedBits(l, d0, ip, done + {s}, d)
  {
    hide Addr, Used, InSlots;
    forall c | 0 <= c < l.size
      ensures InSlots(d0, ip, done + {s}, c) == InSlots(d0, ip, done, c)
    {
      InSlotsMore(d0, ip, done, s, c);
    }
  }

  /** The block in one more slot is still marked, and clearing its bit frees it alone. */
  lemma FreedMore(l: Layout, d0: Disk, n0: map<int, Inode>, owner: map<int, (int, int)>, i: int, done: set<int>,
                  d: Disk, s: int)
    requires FsOk(l, d0, n0, owner) && i in n0 && 0 <= s < SLOTS && s !in done && Addr(d0, n0[i], s) != 0
    requires FreedBits(l, d0, n0[i], done, d)
    ensures var a := Addr(d0, n0[i], s);
            && l.data <= a < l.size && Used(l, d, a) && 0 <= BitmapBlock(l, a) < l.data
            && FreedBits(l, d0, n0[i], done + {s}, WithBit(l, d, a, false))
  {
    var a := Addr(d0, n0[i], s);
    OwnsAt(l, d0, n0, owner, i, s);
    WithBitOnly(l, d, a, false);
    var d' := WithBit(l, d, a, false);
    hide Addr, Used, WithBit, BitmapBlock;
    forall t | t in done && 0 <= t < SLOTS
      ensures Addr(d0, n0[i], t) != a
    {
      if Addr(d0, n0[i], t) == a {
        OwnedOnce(l, d0, n0, owner, i, s, i, t);
      }
    }
    assert Used(l, d, a);
    forall c | 0 <= c < l.size
      ensures LayoutOk(l, d') && Used(l, d', c) == (Used(l, d0, c) && !InSlots(d0, n0[i], done + {s}, c))
    {
      WithBitAt(l, d, a, false, c);
      InSlotsMore(d0, n0[i], done, s, c);
    }
  }

  /** The inode after `itrunc`. */
  function Emptied(ip: Inode): (r: Inode) {
    ip.(size := 0, addrs := [0, 0, 0, 0, 0, 0, 0, 0, 0, 0, 0, 0, 0])
  }

  /** All slots freed and cleared: the other files and their blocks are as before. */
  lemma Truncated(l: Layout, d0: Disk, n0: map<int, Inode>, owner: map<int, (int, int)>, i: int, done: set<int>,
                  d: Disk)
    requires FsOk(l, d0, n0, owner) && i in n0 && FreedBits(l, d0, n0[i], done, d)
    ensures FsOk(l, d, n0[i := Emptied(n0[i])], owner)
    ensures forall j, off :: j in n0 && j != i && 0 <= off < MAXFILE * BSIZE ==>
              ByteAt(d, n0[j], off) == ByteAt(d0, n0[j], off)
  {
    var n := n0[i := Emptied(n0[i])];
    hide Used, BitmapBlock;
    assert InodesOk(n);
    forall b | 0 <= b < l.data
      ensures Used(l, d, b)
    {
      MetaKept(l, d0, n0, owner, i, done, b);
    }
    forall j, s | j in n && 0 <= s < SLOTS
      ensures Owns(l, d, owner, j, s, Addr(d, n[j], s))
      ensures j != i ==> Addr(d, n[j], s) == Addr(d0, n0[j], s)
    {
      if j != i {
        OthersKept(l, d0, n0, owner, i, done, d, j, s);
      }
    }
    forall j, off | j in n0 && j != i && 0 <= off < MAXFILE * BSIZE
      ensures ByteAt(d, n0[j], off) == ByteAt(d0, n0[j], off)
    {
      SlotOf(off);
      OthersKept(l, d0, n0, owner, i, done, d, j, Slot(off / BSIZE));
    }
  }

  lemma MetaKept(l: Layout, d0: Disk, n0: map<int, Inode>, owner: map<int, (int, int)>, i: int, done: set<int>, b: int)
    requires FsOk(l, d0, n0, owner) && i in n0 && 0 <= b < l.data
    ensures !InSlots(d0, n0[i], done, b)
  {
    hide Addr, Used;
    forall t | t in done && 0 <= t < SLOTS && Addr(d0, n0[i], t) != 0
      ensures Addr(d0, n0[i], t) != b
    {
      DataAddr(l, d0, n0, owner, i, t);
    }
  }

  lemma OthersKept(l: Layout, d0: Disk, n0: map<int, Inode>, owner: map<int, (int, int)>, i: int, done: set<int>,
                   d: Disk, j: int, s: int)
    requires FsOk(l, d0, n0, owner) && i in n0 && j in n0 && j != i && 0 <= s < SLOTS
    requires FreedBits(l, d0, n0[i], done, d)
    ensures Addr(d, n0[j], s) == Addr(d0, n0[j], s) && Owns(l, d, owner, j, s, Addr(d, n0[j], s))
    ensures var a := Addr(d0, n0[j], s); a == 0 || (l.data <= a < l.size && d[a] == d0[a])
  {
    DataAddr(l, d0, n0, owner, j, INDIRECT);
    AddrSame(d0, d, n0[j], s);
    hide Addr, Used;
    OwnsAt(l, d0, n0, owner, j, s);
    var a := Addr(d0, n0[j], s);
    forall t | t in done && 0 <= t < SLOTS && Addr(d0, n0[i], t) != 0
      ensures Addr(d0, n0[i], t) != a
    {
      if Addr(d0, n0[i], t) == a {
        OwnedOnce(l, d0, n0, owner, i, t, j, s);
      }
    }
  }
}
