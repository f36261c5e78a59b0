/** The files of an image as `mkfs` builds it (mkfs/mkfs.c): a bitmap with the first bits set, files with
    exactly the blocks their sizes need, and what appending to one of them means. */
module MkfsFiles {
  import opened FsBits
  import opened FsMap
  import opened FsCost
  import opened Fs
  import opened MkfsTable

  /** The bitmap block with the first k bits set. */
  function Prefix(k: nat): (b: Block)
    requires k <= BPB
  {
    if k == 0 then ZeroBlock() else PutBlockBit(Prefix(k - 1), k - 1, true)
  }

  lemma {:induction false} PrefixBit(k: nat, i: int)
    requires k <= BPB && 0 <= i < BPB
    ensures BlockBit(Prefix(k), i) == (i < k)
  {
    if k > 0 {
      hide BlockBit, PutBlockBit;
      PrefixBit(k - 1, i);
      PutBlockBitAt(Prefix(k - 1), k - 1, true, i);
    } else {
      ZeroBit(i % 8);
    }
  }

  /** Exactly the blocks handed out are marked. */
  lemma MarkedUsed(l: Layout, disk: Disk, k: nat, b: int)
    requires LayoutOk(l, disk) && k < BPB && 0 <= b < l.size
    requires forall m :: l.bmap <= m < l.data ==> disk[m] == ZeroBlock()
    ensures LayoutOk(l, Marked(l, disk, k)) && Used(l, Marked(l, disk, k), b) == (b < k)
  {
    if b < BPB {
      hide BlockBit;
      PrefixBit(k, b);
    } else {
      var m := BitmapBlock(l, b);
      assert b / BPB <= (l.size - 1) / BPB;
      assert disk[m] == ZeroBlock();
      ZeroBit(b % BPB % 8);
    }
  }

  function Marked(l: Layout, disk: Disk, k: nat): (r: Disk)
    requires 0 <= l.bmap < |disk| && k <= BPB
  {
    disk[l.bmap := Prefix(k)]
  }

  /** Taking the next block from the counter is an allocation. */
  lemma NextBlock(l: Layout, disk: Disk, k: nat)
    requires LayoutOk(l, disk) && l.data <= k < l.size && k + 1 < BPB && disk[k] == ZeroBlock()
    ensures LayoutOk(l, Marked(l, disk, k)) && !Used(l, Marked(l, disk, k), k)
    ensures 0 <= BitmapBlock(l, k) < l.size
    ensures Marked(l, disk, k + 1) == Allocated(l, Marked(l, disk, k), k)
  {
    hide BlockBit, PutBlockBit;
    PrefixBit(k, k);
    assert BitmapBlock(l, k) == l.bmap && k % BPB == k;
    var m := Marked(l, disk, k);
    var d := WithBit(l, m, k, true);
    assert d == m[l.bmap := Prefix(k + 1)];
    assert d[k] == ZeroBlock();
  }

  lemma MarkedWrite(l: Layout, disk: Disk, k: nat, a: int, data: Block)
    requires LayoutOk(l, disk) && k <= BPB && l.data <= a < l.size
    ensures Marked(l, disk[a := data], k) == Marked(l, disk, k)[a := data]
  {
  }

  lemma FreshInode(l: Layout, disk: Disk, inodes: map<int, Inode>, owner: map<int, (int, int)>, i: int, ip: Inode)
    requires FsOk(l, disk, inodes, owner) && i !in inodes && InodeOk(ip) && ip.size == 0 && forall s :: 0 <= s < 13 ==>
               ip.addrs[s] == 0
    ensures FsOk(l, disk, inodes[i := ip], owner)
    ensures Packed(disk, inodes) && i >= 0 ==> Packed(disk, inodes[i := ip])
    ensures forall off :: 0 <= off < MAXFILE * BSIZE ==> ByteAt(disk, ip, off) == 0
  {
    hide Used;
    var n := inodes[i := ip];
    forall j, s | j in n && 0 <= s < SLOTS
      ensures Owns(l, disk, owner, j, s, Addr(disk, n[j], s))
    {
      if j != i {
        OwnsAt(l, disk, inodes, owner, j, s);
      }
    }
  }

  /** data was appended to file i, and no other byte changed. */
  ghost predicate Appended(d0: Disk, n0: map<int, Inode>, d: Disk, n: map<int, Inode>, i: int, data: seq<int>)
    requires InodesOk(n0) && InodesOk(n)
  {
    && i in n0 && SizedTo(n0, n, i, n0[i].size + |data|)
    && Spliced(d0, n0, d, n, i, n0[i].size, data, |data|)
  }

  /** A file holds exactly data. */
  ghost predicate HasFile(d: Disk, ip: Inode, data: seq<int>)
    requires InodeOk(ip)
  {
    && ip.size == |data|
    && forall off :: 0 <= off < |data| ==> ByteAt(d, ip, off) == data[off]
  }

  ghost predicate Contents(d: Disk, n: map<int, Inode>, c: map<int, seq<int>>)
    requires InodesOk(n)
  {
    c.Keys == n.Keys && forall j :: j in n ==> HasFile(d, n[j], c[j])
  }

  lemma ContentsAppend(d0: Disk, n0: map<int, Inode>, c: map<int, seq<int>>, d: Disk, n: map<int, Inode>, i: int,
                       data: seq<int>)
    requires InodesOk(n0) && InodesOk(n) && Contents(d0, n0, c) && Appended(d0, n0, d, n, i, data)
    ensures Contents(d, n, c[i := c[i] + data])
  {
    hide ByteAt;
    var c' := c[i := c[i] + data];
    forall j | j in n
      ensures HasFile(d, n[j], c'[j])
    {
      forall off | 0 <= off < |c'[j]|
        ensures ByteAt(d, n[j], off) == c'[j][off]
      {
        assert ByteAt(d, n[j], off) == SplicedByte(d0, n0, i, n0[i].size, data, |data|, j, off);
      }
    }
  }

  /** The contents of inode 1, the root, and of the host files, numbered from 2. */
  ghost function FileMap(root: seq<int>, files: seq<seq<int>>): (c: map<int, seq<int>>) {
    if |files| == 0 then map[1 := root]
    else FileMap(root, files[..|files| - 1])[|files| + 1 := files[|files| - 1]]
  }

  lemma RootOnly(root: seq<int>)
    ensures FileMap(root, []) == map[1 := root]
  {
  }

  lemma {:induction false} FileMapRoot(root: seq<int>, files: seq<seq<int>>)
    ensures 1 in FileMap(root, files) && FileMap(root, files)[1] == root
    ensures forall i :: i in FileMap(root, files) <==> 1 <= i <= |files| + 1
    ensures forall i :: 2 <= i <= |files| + 1 ==> FileMap(root, files)[i] == files[i - 2]
  {
    if |files| > 0 {
      FileMapRoot(root, files[..|files| - 1]);
    }
  }

  lemma FileMapMore(root: seq<int>, root': seq<int>, files: seq<seq<int>>, file: seq<int>)
    ensures FileMap(root', files + [file]) == FileMap(root, files)[1 := root'][|files| + 2 := file]
  {
    hide FileMap;
    FileMapRoot(root, files);
    FileMapRoot(root', files + [file]);
    var a, b := FileMap(root', files + [file]), FileMap(root, files)[1 := root'][|files| + 2 := file];
    forall i: int
      ensures i in a <==> i in b
      ensures i in a ==> a[i] == b[i]
    {
      assert i in a <==> 1 <= i <= |files| + 2;
      if 2 <= i <= |files| + 1 {
        assert (files + [file])[i - 2] == files[i - 2];
      }
    }
  }

  /** The image holds the root directory and exactly the host files. */
  ghost predicate Installed(d: Disk, n: map<int, Inode>, root: seq<int>, files: seq<seq<int>>)
    requires InodesOk(n)
  {
    FileMapRoot(root, files);
    Rounded(d, n, 1, FileMap(root, files))
  }

  ghost function Concat(s: seq<seq<int>>): (r: seq<int>) {
    if |s| == 0 then [] else Concat(s[..|s| - 1]) + s[|s| - 1]
  }

  lemma ConcatMore(s: seq<seq<int>>, k: nat)
    requires k < |s|
    ensures Concat(s[..k + 1]) == Concat(s[..k]) + s[k]
  {
    assert s[..k + 1][..k] == s[..k];
  }

  lemma {:induction false} ConcatLength(s: seq<seq<int>>, k: nat)
    requires k <= |s|
    ensures |Concat(s[..k])| <= |Concat(s)|
    decreases |s| - k
  {
    if k == |s| {
      assert s[..k] == s;
    } else {
      ConcatMore(s, k);
      ConcatLength(s, k + 1);
    }
  }

  lemma SizeOf(d: Disk, n: map<int, Inode>, c: map<int, seq<int>>, i: int)
    requires InodesOk(n) && Contents(d, n, c) && i in n
    ensures i in c && n[i].size == |c[i]|
  {
  }

  lemma ConcatTwo(s: seq<seq<int>>)
    requires 2 <= |s|
    ensures Concat(s[..2]) == [] + s[0] + s[1]
  {
    assert s[..0] == [];
    ConcatMore(s, 0);
    ConcatMore(s, 1);
  }

  lemma NoFiles(d: Disk)
    ensures Packed(d, map[]) && Contents(d, map[], map[])
  {
  }

  /** Rounding up a size adds a hole iff it is on a block boundary. */
  lemma RoundedDense(d: Disk, n: map<int, Inode>, i: int, ip: Inode)
    requires InodesOk(n) && Packed(d, n) && i in n && InodeOk(ip)
    requires ip == n[i].(size := (n[i].size / BSIZE + 1) * BSIZE)
    ensures InodesOk(n[i := ip]) && Filled(d, ip, 0, n[i].size) && (AllDense(d, n[i := ip]) <==> n[i].size % BSIZE != 0)
    ensures n[i].size % BSIZE == 0 ==> 0 <= Slot(n[i].size / BSIZE) < SLOTS && Addr(d, ip, Slot(n[i].size / BSIZE)) == 0
  {
    var sz := n[i].size;
    var n' := n[i := ip];
    assert forall s :: 0 <= s < SLOTS ==> Addr(d, ip, s) == Addr(d, n[i], s);
    hide Addr;
    if sz % BSIZE == 0 {
      var bn := sz / BSIZE;
      SlotApart(0, bn);
      assert bn * BSIZE >= BlocksEnd(n, -1, 0, i);
      assert Touches(0, ip.size, bn);
      assert !Dense(d, n'[i]);
    } else {
      forall bn | Touches(0, ip.size, bn)
        ensures Addr(d, ip, Slot(bn)) != 0
      {
        assert Touches(0, n[i].size, bn);
      }
    }
  }

  /** At most slot s of file i changed, and its indirect block if slot s is in there. */
  ghost predicate SlotOnly(d0: Disk, n0: map<int, Inode>, d: Disk, n: map<int, Inode>, i: int, s: int)
    requires InodesOk(n0) && InodesOk(n)
  {
    && n.Keys == n0.Keys
    && forall j, t :: j in n0 && 0 <= t < SLOTS && !(j == i && (t == s || (t == INDIRECT && s > INDIRECT))) ==>
         Addr(d, n[j], t) == Addr(d0, n0[j], t)
  }

  lemma SlotOnlyRefl(d: Disk, n: map<int, Inode>, i: int, s: int)
    requires InodesOk(n)
    ensures SlotOnly(d, n, d, n, i, s)
  {
  }

  lemma SlotOnlyAt(d0: Disk, n0: map<int, Inode>, d: Disk, n: map<int, Inode>, i: int, s: int, t: int)
    requires InodesOk(n0) && InodesOk(n) && i in n0 && SlotOnly(d0, n0, d, n, i, s) && 0 <= t < SLOTS
    requires t != s && t != INDIRECT
    ensures Addr(d, n[i], t) == Addr(d0, n0[i], t)
  {
    hide Addr;
  }

  lemma SlotOnlyAny(d0: Disk, n0: map<int, Inode>, d: Disk, n: map<int, Inode>, i: int, s: int)
    requires InodesOk(n0) && InodesOk(n) && SlotOnly(d0, n0, d, n, i, INDIRECT) && s > INDIRECT
    ensures SlotOnly(d0, n0, d, n, i, s)
  {
    hide Addr;
  }

  lemma SlotOnlyTrans(d0: Disk, n0: map<int, Inode>, d1: Disk, n1: map<int, Inode>, d: Disk, n: map<int, Inode>,
                      i: int, s: int)
    requires InodesOk(n0) && InodesOk(n1) && InodesOk(n)
    requires SlotOnly(d0, n0, d1, n1, i, INDIRECT) && SlotOnly(d1, n1, d, n, i, s) && s > INDIRECT
    ensures SlotOnly(d0, n0, d, n, i, s)
  {
    hide Addr;
  }

  /** Where the blocks of file j end, if those of file i end at hi. */
  function BlocksEnd(n: map<int, Inode>, i: int, hi: int, j: int): (e: int)
    requires j in n
  {
    if j == i then hi else n[j].size
  }

  /** No file has a block that starts past its end, or an indirect block that it does not need. */
  ghost predicate Snug(d: Disk, n: map<int, Inode>, i: int, hi: int)
    requires InodesOk(n)
  {
    && (forall j, bn :: j in n && 0 <= bn < MAXFILE && bn * BSIZE >= BlocksEnd(n, i, hi, j) ==>
          Addr(d, n[j], Slot(bn)) == 0)
    && (forall j :: j in n && BlocksEnd(n, i, hi, j) <= NDIRECT * BSIZE ==> Addr(d, n[j], INDIRECT) == 0)
  }

  /** Every file has exactly the blocks its size needs. */
  ghost predicate Packed(d: Disk, n: map<int, Inode>)
    requires InodesOk(n)
  {
    AllDense(d, n) && Snug(d, n, -1, 0)
  }

  lemma PackedParts(d: Disk, n: map<int, Inode>)
    requires InodesOk(n) && Packed(d, n)
    ensures AllDense(d, n)
  {
  }

  lemma DenseAt(d: Disk, n: map<int, Inode>, i: int)
    requires InodesOk(n) && AllDense(d, n) && i in n
    ensures Filled(d, n[i], 0, n[i].size)
  {
    hide Addr;
    assert Dense(d, n[i]);
  }

  lemma PackedFrom(d: Disk, n: map<int, Inode>)
    requires InodesOk(n) && AllDense(d, n) && Snug(d, n, -1, 0)
    ensures Packed(d, n)
  {
  }

  lemma SnugStart(d: Disk, n: map<int, Inode>, i: int)
    requires InodesOk(n) && i in n && i >= 0 && Packed(d, n)
    ensures Snug(d, n, i, n[i].size)
  {
    hide Addr, AllDense;
  }

  /** A block for the next bytes of file i. */
  lemma SnugMore(d0: Disk, n0: map<int, Inode>, d: Disk, n: map<int, Inode>, i: int, off: int, hi: int)
    requires InodesOk(n0) && InodesOk(n) && GrewIn(n0, n, i) && Snug(d0, n0, i, off) && 0 <= off < hi
             && off < MAXFILE * BSIZE
    requires SlotOnly(d0, n0, d, n, i, Slot(off / BSIZE))
    ensures Snug(d, n, i, hi)
  {
    hide Addr;
    forall j, bn | j in n && 0 <= bn < MAXFILE && bn * BSIZE >= BlocksEnd(n, i, hi, j)
      ensures Addr(d, n[j], Slot(bn)) == 0
    {
      assert bn * BSIZE >= BlocksEnd(n0, i, off, j);
      SlotApart(off, bn);
    }
  }

  lemma SlotApart(off: int, bn: int)
    requires 0 <= off < MAXFILE * BSIZE && 0 <= bn < MAXFILE
    ensures 0 <= Slot(bn) < SLOTS && Slot(bn) != INDIRECT
    ensures bn * BSIZE > off ==> Slot(bn) != Slot(off / BSIZE)
  {
  }

  /** Writing the contents of blocks. */
  lemma SnugWrite(d1: Disk, d2: Disk, n: map<int, Inode>, i: int, hi: int)
    requires InodesOk(n) && Snug(d1, n, i, hi)
    requires forall j, t :: j in n && 0 <= t < SLOTS ==> Addr(d2, n[j], t) == Addr(d1, n[j], t)
    ensures Snug(d2, n, i, hi)
  {
    hide Addr;
    forall j, bn | j in n && 0 <= bn < MAXFILE && bn * BSIZE >= BlocksEnd(n, i, hi, j)
      ensures Addr(d2, n[j], Slot(bn)) == 0
    {
      SlotApart(0, bn);
    }
  }

  lemma SnugEnd(d: Disk, n: map<int, Inode>, i: int, ip: Inode)
    requires InodesOk(n) && i in n && -1 !in n && InodeOk(ip) && ip.addrs == n[i].addrs && Snug(d, n, i, ip.size)
    ensures InodesOk(n[i := ip]) && Snug(d, n[i := ip], -1, 0)
  {
    var n' := n[i := ip];
    assert forall j, s :: j in n && 0 <= s < SLOTS ==> Addr(d, n'[j], s) == Addr(d, n[j], s);
    hide Addr;
    forall j, bn | j in n' && 0 <= bn < MAXFILE && bn * BSIZE >= BlocksEnd(n', -1, 0, j)
      ensures Addr(d, n'[j], Slot(bn)) == 0
    {
      SlotApart(0, bn);
      assert bn * BSIZE >= BlocksEnd(n, i, ip.size, j);
    }
  }

  lemma KeptRefl(d: Disk, n: map<int, Inode>)
    requires InodesOk(n)
    ensures Kept(d, n, d, n)
  {
  }

  lemma KeptWrite(d0: Disk, n0: map<int, Inode>, d1: Disk, d2: Disk, n: map<int, Inode>)
    requires InodesOk(n0) && InodesOk(n) && Kept(d0, n0, d1, n)
    requires forall j, t :: j in n && 0 <= t < SLOTS ==> Addr(d2, n[j], t) == Addr(d1, n[j], t)
    ensures Kept(d0, n0, d2, n)
  {
    hide Addr;
  }

  lemma KeptResize(d0: Disk, n0: map<int, Inode>, d: Disk, n: map<int, Inode>, i: int, ip: Inode)
    requires InodesOk(n0) && InodesOk(n) && Kept(d0, n0, d, n) && i in n && InodeOk(ip) && ip.addrs == n[i].addrs
    ensures InodesOk(n[i := ip]) && Kept(d0, n0, d, n[i := ip])
  {
    var n' := n[i := ip];
    assert forall j, s :: j in n && 0 <= s < SLOTS ==> Addr(d, n'[j], s) == Addr(d, n[j], s);
    hide Addr;
  }

  lemma GainedKept(d0: Disk, n0: map<int, Inode>, d: Disk, n: map<int, Inode>, i: int, s: int, a: int)
    requires InodesOk(n0) && InodesOk(n) && i in n0 && 0 <= s < SLOTS && Addr(d0, n0[i], s) == 0
    requires Gained(d0, n0, d, n, i, s, a)
    ensures Kept(d0, n0, d, n) && SlotOnly(d0, n0, d, n, i, s)
  {
    hide Addr;
  }

  lemma GainedAddr(d0: Disk, n0: map<int, Inode>, d: Disk, n: map<int, Inode>, i: int, s: int, a: int)
    requires InodesOk(n0) && InodesOk(n) && i in n0 && 0 <= s < SLOTS && Gained(d0, n0, d, n, i, s, a)
    ensures i in n && Addr(d, n[i], s) == a
  {
    hide Addr;
  }

  lemma BelowCounter(l: Layout, disk: Disk, k: nat, inodes: map<int, Inode>, owner: map<int, (int, int)>, i: int,
                     s: int)
    requires LayoutOk(l, disk) && k < BPB && FsOk(l, Marked(l, disk, k), inodes, owner) && i in inodes && 0 <= s < SLOTS
    requires forall m :: l.bmap <= m < l.data ==> disk[m] == ZeroBlock()
    ensures InodesOk(inodes) && var a := Addr(Marked(l, disk, k), inodes[i], s); a == 0 || l.data <= a < k
  {
    hide Used, Addr, Prefix;
    var img := Marked(l, disk, k);
    OwnsAt(l, img, inodes, owner, i, s);
    var a := Addr(img, inodes[i], s);
    if a != 0 {
      MarkedUsed(l, disk, k, a);
    }
  }

  lemma MarkedSame(l: Layout, disk: Disk, k: nat, b: int)
    requires LayoutOk(l, disk) && k <= BPB && l.data <= b < l.size
    ensures |Marked(l, disk, k)| == |disk| && Marked(l, disk, k)[b] == disk[b]
  {
  }

  lemma DirectAddr(img: Disk, ip: Inode, bn: int)
    requires InodeOk(ip) && 0 <= bn < NDIRECT
    ensures Slot(bn) == bn && Addr(img, ip, bn) == ip.addrs[bn]
  {
  }

  lemma IndirectAddr(img: Disk, ip: Inode)
    requires InodeOk(ip)
    ensures Addr(img, ip, INDIRECT) == ip.addrs[INDIRECT]
  {
  }

  lemma OwnedUsed(l: Layout, img: Disk, inodes: map<int, Inode>, owner: map<int, (int, int)>, i: int, s: int)
    requires FsOk(l, img, inodes, owner) && i in inodes && 0 <= s < SLOTS && InodeOk(inodes[i])
             && Addr(img, inodes[i], s) != 0
    ensures var a := Addr(img, inodes[i], s); l.data <= a < l.size && LayoutOk(l, img) && Used(l, img, a)
  {
    hide Used;
    OwnsAt(l, img, inodes, owner, i, s);
  }

  // ---------------------------------------------------------------- how many blocks

  /** The blocks of a file of n bytes, its indirect block included. */
  function BlocksFor(n: int): (k: int) {
    var nb := (n + BSIZE - 1) / BSIZE;
    if nb > NDIRECT then nb + 1 else nb
  }

  lemma EmptyFile()
    ensures BlocksFor(0) == 0
  {
  }

  lemma BlocksMonotone(m: int, n: int)
    requires m <= n
    ensures BlocksFor(m) <= BlocksFor(n)
  {
  }

  /** The blocks that have to be taken to write file block bn. */
  ghost function Missing(d: Disk, ip: Inode, bn: int): (k: int)
    requires InodeOk(ip) && 0 <= bn < MAXFILE
  {
    (if Addr(d, ip, Slot(bn)) == 0 then 1 else 0) + (if bn >= NDIRECT && ip.addrs[INDIRECT] == 0 then 1 else 0)
  }

  lemma NeedsIndirect(d: Disk, ip: Inode, bn: int)
    requires InodeOk(ip) && NDIRECT <= bn < MAXFILE && Addr(d, ip, Slot(bn)) != 0
    ensures ip.addrs[INDIRECT] != 0
  {
  }

  /** Appending to a file takes the blocks that the new size needs more. */
  lemma MissingCount(d: Disk, n: map<int, Inode>, i: int, off: int, n1: int)
    requires InodesOk(n) && i in n && 0 <= off < MAXFILE * BSIZE && 0 < n1 && off % BSIZE + n1 <= BSIZE
    requires Snug(d, n, i, off) && Filled(d, n[i], 0, off)
    ensures Missing(d, n[i], off / BSIZE) == BlocksFor(off + n1) - BlocksFor(off)
  {
    IndirectAddr(d, n[i]);
    hide Addr;
    var bn := off / BSIZE;
    if off % BSIZE != 0 {
      assert Touches(0, off, bn);
      if bn >= NDIRECT {
        NeedsIndirect(d, n[i], bn);
      }
    } else {
      assert bn * BSIZE >= BlocksEnd(n, i, off, i);
      if bn > NDIRECT {
        assert Touches(0, off, bn - 1);
        NeedsIndirect(d, n[i], bn - 1);
      }
    }
  }

  // ---------------------------------------------------------------- writing the inode table

  lemma PackedSame(d: Disk, d': Disk, n: map<int, Inode>)
    requires InodesOk(n) && SameFiles(d, d', n) && Packed(d, n)
    ensures Packed(d', n)
  {
    hide Addr, ByteAt;
    forall j, bn | j in n && 0 <= bn < MAXFILE
      ensures Addr(d', n[j], Slot(bn)) == Addr(d, n[j], Slot(bn))
    {
      SlotApart(0, bn);
    }
    forall j | j in n
      ensures Dense(d', n[j])
    {
      assert Dense(d, n[j]);
    }
  }

  lemma AppendedSame(d0: Disk, n0: map<int, Inode>, d: Disk, d': Disk, n: map<int, Inode>, i: int, data: seq<int>)
    requires InodesOk(n0) && InodesOk(n) && SameFiles(d, d', n) && Appended(d0, n0, d, n, i, data)
    ensures Appended(d0, n0, d', n, i, data)
  {
    hide ByteAt;
  }

  lemma FilesSame(d: Disk, d': Disk, n: map<int, Inode>, c: map<int, seq<int>>)
    requires InodesOk(n) && SameFiles(d, d', n) && Contents(d, n, c)
    ensures Contents(d', n, c)
  {
    hide ByteAt;
    forall j | j in n
      ensures HasFile(d', n[j], c[j])
    {
      assert HasFile(d, n[j], c[j]);
    }
  }

  lemma MarkedBelow(l: Layout, disk: Disk, k: nat)
    requires LayoutOk(l, disk) && k <= BPB
    ensures |Marked(l, disk, k)| == |disk| && forall b :: 0 <= b < l.bmap ==> Marked(l, disk, k)[b] == disk[b]
  {
  }

  lemma MarkedAbove(l: Layout, disk: Disk, disk': Disk, k: nat)
    requires SameAbove(l, disk, disk') && k <= BPB
    ensures SameAbove(l, Marked(l, disk, k), Marked(l, disk', k))
  {
  }

  lemma TableLess(l: Layout, disk: Disk, n: map<int, Inode>, i: int)
    requires Table(l, disk, n) && i in n
    ensures Table(l, disk, n - {i}) && InTable(l, i)
  {
  }

  /** An append leaves the table as it was, but for the inode it works on. */
  lemma TableKept(l: Layout, d0: Disk, d: Disk, n0: map<int, Inode>, n: map<int, Inode>, i: int)
    requires Table(l, d0, n0) && GrewIn(n0, n, i) && |d| == |d0| && forall b :: 0 <= b < l.bmap ==> d[b] == d0[b]
    ensures Table(l, d, n - {i}) && InTable(l, i)
  {
    hide Stored;
    TableSame(l, d0, d, n0);
    assert forall j :: j in n - {i} ==> j in n0 && n[j] == n0[j];
  }

  // ---------------------------------------------------------------- the finished image

  /** The files are there, and the root directory with its size rounded up past its last block. There is a
      hole iff its entries fill whole blocks: the block after them. */
  ghost predicate Rounded(d: Disk, n: map<int, Inode>, root: int, c: map<int, seq<int>>)
    requires InodesOk(n)
  {
    && n.Keys == c.Keys && root in n
    && (forall j :: j in n && j != root ==> HasFile(d, n[j], c[j]))
    && |c[root]| < n[root].size == (|c[root]| / BSIZE + 1) * BSIZE
    && (forall off :: 0 <= off < |c[root]| ==> ByteAt(d, n[root], off) == c[root][off])
    && Filled(d, n[root], 0, |c[root]|) && (AllDense(d, n) <==> |c[root]| % BSIZE != 0)
    && (|c[root]| % BSIZE == 0 ==> Addr(d, n[root], Slot(|c[root]| / BSIZE)) == 0)
  }

  lemma RoundUp(d: Disk, n: map<int, Inode>, root: int, c: map<int, seq<int>>, ip: Inode)
    requires InodesOk(n) && Contents(d, n, c) && Packed(d, n) && root in n && InodeOk(ip)
    requires ip == n[root].(size := (n[root].size / BSIZE + 1) * BSIZE)
    ensures InodesOk(n[root := ip]) && Rounded(d, n[root := ip], root, c)
  {
    RoundedDense(d, n, root, ip);
    assert HasFile(d, n[root], c[root]);
    SplicedNone(d, n, root, 0, []);
    SplicedResize(d, n, d, n, root, ip, 0, [], 0);
    hide Addr, ByteAt, Packed, AllDense, Filled;
    var n' := n[root := ip];
    forall off | 0 <= off < |c[root]|
      ensures ByteAt(d, n'[root], off) == c[root][off]
    {
      assert ByteAt(d, n'[root], off) == SplicedByte(d, n, root, 0, [], 0, root, off);
    }
    forall j | j in n' && j != root
      ensures HasFile(d, n'[j], c[j])
    {
      assert HasFile(d, n[j], c[j]);
    }
  }

  lemma DenseSame(d: Disk, d': Disk, n: map<int, Inode>)
    requires InodesOk(n) && SameFiles(d, d', n)
    ensures AllDense(d', n) <==> AllDense(d, n)
    ensures forall j, lo, hi :: j in n ==> (Filled(d', n[j], lo, hi) <==> Filled(d, n[j], lo, hi))
  {
    hide Addr, ByteAt;
    forall j, bn | j in n && 0 <= bn < MAXFILE
      ensures Addr(d', n[j], Slot(bn)) == Addr(d, n[j], Slot(bn))
    {
      SlotApart(0, bn);
    }
    assert forall j :: j in n ==> (Dense(d', n[j]) <==> Dense(d, n[j]));
  }

  lemma RoundedSame(d: Disk, d': Disk, n: map<int, Inode>, root: int, c: map<int, seq<int>>)
    requires InodesOk(n) && SameFiles(d, d', n) && Rounded(d, n, root, c)
    ensures Rounded(d', n, root, c)
  {
    DenseSame(d, d', n);
    hide Addr, ByteAt, AllDense, Filled;
    forall j | j in n && j != root
      ensures HasFile(d', n[j], c[j])
    {
      assert HasFile(d, n[j], c[j]);
    }
    if |c[root]| % BSIZE == 0 {
      assert InodeOk(n[root]);
      SlotApart(0, |c[root]| / BSIZE);
    }
  }

  /** The blocks of all the files. */
  function FilesBlocks(files: seq<seq<int>>): (k: int) {
    if |files| == 0 then 0 else FilesBlocks(files[..|files| - 1]) + BlocksFor(|files[|files| - 1]|)
  }

  lemma FilesBlocksMore(files: seq<seq<int>>, k: nat)
    requires k < |files|
    ensures FilesBlocks(files[..k + 1]) == FilesBlocks(files[..k]) + BlocksFor(|files[k]|)
  {
    assert files[..k + 1][..k] == files[..k];
  }

  lemma {:induction false} FilesBlocksGrow(files: seq<seq<int>>, k: nat)
    requires k <= |files|
    ensures FilesBlocks(files[..k]) <= FilesBlocks(files)
    decreases |files| - k
  {
    if k == |files| {
      assert files[..k] == files;
    } else {
      FilesBlocksMore(files, k);
      FilesBlocksGrow(files, k + 1);
    }
  }

  lemma InstalledKeys(d: Disk, n: map<int, Inode>, root: seq<int>, files: seq<seq<int>>)
    requires InodesOk(n) && Installed(d, n, root, files)
    ensures forall i :: i in n <==> 1 <= i <= |files| + 1
  {
    FileMapRoot(root, files);
  }

  /** What the image says of the root directory. */
  lemma InstalledRoot(d: Disk, n: map<int, Inode>, root: seq<int>, files: seq<seq<int>>)
    requires InodesOk(n) && Installed(d, n, root, files)
    ensures 1 in n && |root| < n[1].size == (|root| / BSIZE + 1) * BSIZE
    ensures Filled(d, n[1], 0, |root|) && (AllDense(d, n) <==> |root| % BSIZE != 0)
    ensures |root| % BSIZE == 0 ==> 0 <= Slot(|root| / BSIZE) < SLOTS && Addr(d, n[1], Slot(|root| / BSIZE)) == 0
  {
    hide Addr, ByteAt, HasFile, AllDense, Filled;
    FileMapRoot(root, files);
  }
}
