/** Which disk block belongs to which inode (kernel/fs.c): the free bitmap and the direct and indirect
    block addresses of inodes. The disk is the one the file system sees through the log. */
module FsMap {
  import opened FsBits

  /** Inodes as the inode cache holds them; addrs[12] is the indirect block. */
  datatype Inode = Inode(kind: int, nlink: int, size: int, addrs: seq<int>)

  /** sb.size, sb.inodestart, sb.bmapstart and the first data block. */
  datatype Layout = Layout(size: int, inode: int, bmap: int, data: int)

  type Disk = seq<Block>

  const SLOTS := 269   // 12 direct addresses, the indirect block, 256 indirect addresses
  const INDIRECT := 12

  ghost predicate LayoutOk(l: Layout, disk: Disk) {
    && 0 < l.bmap && l.bmap + (l.size - 1) / BPB < l.data < l.size
    && |disk| == l.size
  }

  ghost predicate InodeOk(ip: Inode) {
    |ip.addrs| == NDIRECT + 1 && 0 <= ip.size <= MAXFILE * BSIZE
  }

  /** BBLOCK(b, sb). */
  function BitmapBlock(l: Layout, b: int): (r: int) {
    l.bmap + b / BPB
  }

  ghost predicate Used(l: Layout, disk: Disk, b: int)
    requires LayoutOk(l, disk) && 0 <= b < l.size
  {
    BlockBit(disk[BitmapBlock(l, b)], b % BPB)
  }

  /** The address in a slot of an inode, 0 if there is none. */
  ghost function Addr(disk: Disk, ip: Inode, s: int): (a: int)
    requires InodeOk(ip) && 0 <= s < SLOTS
  {
    if s <= INDIRECT then ip.addrs[s]
    else if 0 < ip.addrs[INDIRECT] < |disk| then Word(disk[ip.addrs[INDIRECT]], s - 13)
    else 0
  }

  /** The slot of file block bn. */
  function Slot(bn: int): (s: int) {
    if bn < NDIRECT then bn else bn + 1
  }

  /** Byte off of a file; a block that was never written reads as zero. */
  ghost function ByteAt(disk: Disk, ip: Inode, off: int): (x: int)
    requires InodeOk(ip) && 0 <= off < MAXFILE * BSIZE
  {
    var a := Addr(disk, ip, Slot(off / BSIZE));
    if 0 < a < |disk| then disk[a][off % BSIZE] else 0
  }

  /** Address a is an allocated data block that belongs to slot s of inode i and to nothing else. */
  ghost predicate Owns(l: Layout, disk: Disk, owner: map<int, (int, int)>, i: int, s: int, a: int)
    requires LayoutOk(l, disk)
  {
    a != 0 ==> l.data <= a < l.size && Used(l, disk, a) && a in owner && owner[a] == (i, s)
  }

  ghost predicate InodesOk(inodes: map<int, Inode>) {
    forall i :: i in inodes ==> InodeOk(inodes[i])
  }

  ghost predicate OwnersOk(l: Layout, disk: Disk, inodes: map<int, Inode>, owner: map<int, (int, int)>)
    requires LayoutOk(l, disk) && InodesOk(inodes)
  {
    forall i, s :: i in inodes && 0 <= s < SLOTS ==> Owns(l, disk, owner, i, s, Addr(disk, inodes[i], s))
  }

  ghost predicate MetaUsed(l: Layout, disk: Disk)
    requires LayoutOk(l, disk)
  {
    forall b :: 0 <= b < l.data ==> Used(l, disk, b)
  }

  /** Every address in an inode or indirect block is an allocated data block with one owner. */
  ghost predicate FsOk(l: Layout, disk: Disk, inodes: map<int, Inode>, owner: map<int, (int, int)>) {
    && LayoutOk(l, disk)
    && InodesOk(inodes)
    && MetaUsed(l, disk)
    && OwnersOk(l, disk, inodes, owner)
  }

  lemma OwnsAt(l: Layout, disk: Disk, inodes: map<int, Inode>, owner: map<int, (int, int)>, i: int, s: int)
    requires FsOk(l, disk, inodes, owner) && i in inodes && 0 <= s < SLOTS
    ensures InodeOk(inodes[i]) && LayoutOk(l, disk)
    ensures Owns(l, disk, owner, i, s, Addr(disk, inodes[i], s))
  {
  }

  /** No block is in two slots. */
  lemma OwnedOnce(l: Layout, disk: Disk, inodes: map<int, Inode>, owner: map<int, (int, int)>, i: int, s: int,
                  j: int, t: int)
    requires FsOk(l, disk, inodes, owner) && i in inodes && j in inodes && 0 <= s < SLOTS && 0 <= t < SLOTS
    requires Addr(disk, inodes[i], s) != 0 && Addr(disk, inodes[i], s) == Addr(disk, inodes[j], t)
    ensures i == j && s == t
  {
    OwnsAt(l, disk, inodes, owner, i, s);
    OwnsAt(l, disk, inodes, owner, j, t);
  }

  // ---------------------------------------------------------------- the bitmap

  function WithBit(l: Layout, disk: Disk, b: int, v: bool): (r: Disk)
    requires 0 <= b < l.size && 0 <= BitmapBlock(l, b) < |disk|
  {
    var m := BitmapBlock(l, b);
    disk[m := PutBlockBit(disk[m], b % BPB, v)]
  }

  /** Writing the bit of block b changes the bit of no other block. */
  lemma WithBitAt(l: Layout, disk: Disk, b: int, v: bool, c: int)
    requires LayoutOk(l, disk) && 0 <= b < l.size && 0 <= c < l.size
    ensures 0 <= BitmapBlock(l, b) < l.data
    ensures var d := WithBit(l, disk, b, v);
            LayoutOk(l, d) && Used(l, d, c) == if c == b then v else Used(l, disk, c)
  {
    assert b / BPB <= (l.size - 1) / BPB;
    assert c / BPB <= (l.size - 1) / BPB;
    if b / BPB == c / BPB {
      PutBlockBitAt(disk[BitmapBlock(l, b)], b % BPB, v, c % BPB);
    }
  }

  /** A data block does not hold bits. */
  lemma DataWriteBits(l: Layout, disk: Disk, a: int, data: Block, c: int)
    requires LayoutOk(l, disk) && l.data <= a < l.size && 0 <= c < l.size
    ensures LayoutOk(l, disk[a := data]) && Used(l, disk[a := data], c) == Used(l, disk, c)
  {
    assert c / BPB <= (l.size - 1) / BPB;
  }

  // ---------------------------------------------------------------- what an address change keeps

  ghost predicate NotOwned(disk: Disk, inodes: map<int, Inode>, a: int)
    requires InodesOk(inodes)
  {
    forall j, t :: j in inodes && 0 <= t < SLOTS ==> Addr(disk, inodes[j], t) != a
  }

  /** The same bytes in every file. */
  ghost predicate SameBytes(disk: Disk, inodes: map<int, Inode>, disk': Disk, inodes': map<int, Inode>)
    requires InodesOk(inodes) && InodesOk(inodes')
  {
    && inodes'.Keys == inodes.Keys
    && forall j, off :: j in inodes && 0 <= off < MAXFILE * BSIZE ==>
         ByteAt(disk', inodes'[j], off) == ByteAt(disk, inodes[j], off)
  }

  lemma AddrSame(disk: Disk, disk': Disk, ip: Inode, s: int)
    requires InodeOk(ip) && 0 <= s < SLOTS && |disk'| == |disk|
    requires 0 < ip.addrs[INDIRECT] < |disk| ==> disk'[ip.addrs[INDIRECT]] == disk[ip.addrs[INDIRECT]]
    ensures Addr(disk', ip, s) == Addr(disk, ip, s)
  {
  }

  /** Slots whose blocks hold file data. */
  lemma SlotOf(off: int)
    requires 0 <= off < MAXFILE * BSIZE
    ensures 0 <= Slot(off / BSIZE) < SLOTS && Slot(off / BSIZE) != INDIRECT
  {
  }

  /** The bitmap and an unowned block changed: every address and byte is as before. */
  lemma UnownedWrite(l: Layout, disk: Disk, disk': Disk, inodes: map<int, Inode>, owner: map<int, (int, int)>, a: int)
    requires FsOk(l, disk, inodes, owner) && |disk'| == |disk|
    requires forall b :: l.data <= b < l.size && b != a ==> disk'[b] == disk[b]
    requires NotOwned(disk, inodes, a)
    ensures forall j, t :: j in inodes && 0 <= t < SLOTS ==> Addr(disk', inodes[j], t) == Addr(disk, inodes[j], t)
    ensures SameBytes(disk, inodes, disk', inodes)
  {
    hide Owns, Used;
    forall j, t | j in inodes && 0 <= t < SLOTS
      ensures Addr(disk', inodes[j], t) == Addr(disk, inodes[j], t)
    {
      DataAddr(l, disk, inodes, owner, j, INDIRECT);
      AddrSame(disk, disk', inodes[j], t);
    }
    forall j, off | j in inodes && 0 <= off < MAXFILE * BSIZE
      ensures ByteAt(disk', inodes[j], off) == ByteAt(disk, inodes[j], off)
    {
      SlotOf(off);
      DataAddr(l, disk, inodes, owner, j, Slot(off / BSIZE));
    }
  }

  lemma DataAddr(l: Layout, disk: Disk, inodes: map<int, Inode>, owner: map<int, (int, int)>, j: int, t: int)
    requires FsOk(l, disk, inodes, owner) && j in inodes && 0 <= t < SLOTS
    ensures var x := Addr(disk, inodes[j], t); x == 0 || l.data <= x < l.size
  {
    OwnsAt(l, disk, inodes, owner, j, t);
  }

  lemma UnusedNotOwned(l: Layout, disk: Disk, inodes: map<int, Inode>, owner: map<int, (int, int)>, a: int)
    requires FsOk(l, disk, inodes, owner) && 0 < a < l.size && !Used(l, disk, a)
    ensures NotOwned(disk, inodes, a) && l.data <= a
  {
    hide Used;
    forall j, t | j in inodes && 0 <= t < SLOTS
      ensures Addr(disk, inodes[j], t) != a
    {
      OwnsAt(l, disk, inodes, owner, j, t);
    }
  }

  /** The disk after `balloc` returned block a. */
  function Allocated(l: Layout, disk: Disk, a: int): (r: Disk)
    requires 0 <= a < l.size && 0 <= BitmapBlock(l, a) < |disk| && a < |disk|
  {
    WithBit(l, disk, a, true)[a := ZeroBlock()]
  }

  /** Allocating a free block changes no file. */
  lemma AllocKeeps(l: Layout, disk: Disk, inodes: map<int, Inode>, owner: map<int, (int, int)>, a: int)
    requires FsOk(l, disk, inodes, owner) && 0 < a < l.size && !Used(l, disk, a)
    ensures 0 <= BitmapBlock(l, a) < l.data <= a
    ensures var disk' := Allocated(l, disk, a);
            && FsOk(l, disk', inodes, owner) && Used(l, disk', a) && disk'[a] == ZeroBlock()
            && NotOwned(disk', inodes, a)
            && SameBytes(disk, inodes, disk', inodes)
            && (forall j, t :: j in inodes && 0 <= t < SLOTS ==> Addr(disk', inodes[j], t) == Addr(disk, inodes[j], t))
  {
    UnusedNotOwned(l, disk, inodes, owner, a);
    WithBitAt(l, disk, a, true, a);
    var disk1 := WithBit(l, disk, a, true);
    var disk' := disk1[a := ZeroBlock()];
    hide Used, SameBytes, Addr, WithBit;
    assert forall b :: l.data <= b < l.size && b != a ==> disk'[b] == disk[b] by { WithBitOnly(l, disk, a, true); }
    UnownedWrite(l, disk, disk', inodes, owner, a);
    forall c | 0 <= c < l.size
      ensures LayoutOk(l, disk') && Used(l, disk', c) == (c == a || Used(l, disk, c))
    {
      WithBitAt(l, disk, a, true, c);
      DataWriteBits(l, disk1, a, ZeroBlock(), c);
    }
  }

  lemma WithBitOnly(l: Layout, disk: Disk, b: int, v: bool)
    requires LayoutOk(l, disk) && 0 <= b < l.size
    ensures 0 <= BitmapBlock(l, b) < l.data
    ensures var d := WithBit(l, disk, b, v);
            |d| == |disk| && forall c :: l.data <= c < l.size ==> d[c] == disk[c]
  {
    WithBitAt(l, disk, b, v, b);
  }

  /** Block a is allocated, zeroed and in no slot. */
  ghost predicate FreshBlock(l: Layout, disk: Disk, inodes: map<int, Inode>, a: int) {
    && LayoutOk(l, disk) && InodesOk(inodes)
    && l.data <= a < l.size && Used(l, disk, a) && disk[a] == ZeroBlock()
    && NotOwned(disk, inodes, a)
  }

  /** Exactly one address changed, from 0 to a. */
  ghost predicate Gained(disk: Disk, inodes: map<int, Inode>, disk': Disk, inodes': map<int, Inode>, i: int, s: int,
                         a: int)
    requires InodesOk(inodes) && InodesOk(inodes')
  {
    && inodes'.Keys == inodes.Keys
    && forall j, t :: j in inodes && 0 <= t < SLOTS ==>
         Addr(disk', inodes'[j], t) == if j == i && t == s then a else Addr(disk, inodes[j], t)
  }

  /** A fresh block goes into an empty slot of the inode itself. */
  lemma DirectGain(l: Layout, disk: Disk, inodes: map<int, Inode>, owner: map<int, (int, int)>, i: int, s: int, a: int)
    requires FsOk(l, disk, inodes, owner) && FreshBlock(l, disk, inodes, a)
    requires i in inodes && 0 <= s <= INDIRECT && inodes[i].addrs[s] == 0
    ensures var inodes' := inodes[i := inodes[i].(addrs := inodes[i].addrs[s := a])];
            && FsOk(l, disk, inodes', owner[a := (i, s)])
            && Gained(disk, inodes, disk, inodes', i, s, a)
            && SameBytes(disk, inodes, disk, inodes')
  {
    var inodes' := inodes[i := inodes[i].(addrs := inodes[i].addrs[s := a])];
    hide Used, BitmapBlock;
    assert InodesOk(inodes');
    forall j, t | j in inodes && 0 <= t < SLOTS
      ensures Addr(disk, inodes'[j], t) == if j == i && t == s then a else Addr(disk, inodes[j], t)
    {
      if j == i && s == INDIRECT && t > INDIRECT {
        ZeroWord(disk[a], t - 13);
      }
    }
    GainOwners(l, disk, inodes, owner, disk, inodes', i, s, a);
    GainBytes(l, disk, inodes, owner, disk, inodes', i, s, a, 0);
  }

  lemma GainOwners(l: Layout, disk: Disk, inodes: map<int, Inode>, owner: map<int, (int, int)>, disk': Disk,
                   inodes': map<int, Inode>, i: int, s: int, a: int)
    requires FsOk(l, disk, inodes, owner) && FreshBlock(l, disk, inodes, a) && InodesOk(inodes')
    requires Gained(disk, inodes, disk', inodes', i, s, a)
    requires LayoutOk(l, disk') && forall c :: 0 <= c < l.size ==> Used(l, disk', c) == Used(l, disk, c)
    ensures FsOk(l, disk', inodes', owner[a := (i, s)])
  {
    hide Used, Addr;
    forall j, t | j in inodes' && 0 <= t < SLOTS
      ensures Owns(l, disk', owner[a := (i, s)], j, t, Addr(disk', inodes'[j], t))
    {
      OwnsAt(l, disk, inodes, owner, j, t);
    }
  }

  /** Bytes are as before if the data blocks are: ind is the indirect block that changed, or 0. */
  lemma GainBytes(l: Layout, disk: Disk, inodes: map<int, Inode>, owner: map<int, (int, int)>, disk': Disk,
                  inodes': map<int, Inode>, i: int, s: int, a: int, ind: int)
    requires FsOk(l, disk, inodes, owner) && FreshBlock(l, disk, inodes, a) && InodesOk(inodes') && i in inodes
             && 0 <= s < SLOTS
    requires Gained(disk, inodes, disk', inodes', i, s, a) && Addr(disk, inodes[i], s) == 0
    requires |disk'| == |disk| && forall c :: 0 <= c < l.size && c != ind ==> disk'[c] == disk[c]
    requires ind != 0 ==> ind == Addr(disk, inodes[i], INDIRECT)
    ensures SameBytes(disk, inodes, disk', inodes')
  {
    hide Used, Addr, BitmapBlock;
    forall j, off | j in inodes && 0 <= off < MAXFILE * BSIZE
      ensures ByteAt(disk', inodes'[j], off) == ByteAt(disk, inodes[j], off)
    {
      SlotOf(off);
      var t := Slot(off / BSIZE);
      var x := Addr(disk, inodes[j], t);
      DataAddr(l, disk, inodes, owner, j, t);
      if x == ind && x != 0 {
        OwnedOnce(l, disk, inodes, owner, i, INDIRECT, j, t);
      }
      if j == i && t == s {
        assert a != ind;
      }
    }
  }

  /** A fresh block goes into an empty entry of the indirect block. */
  lemma IndirectGain(l: Layout, disk: Disk, inodes: map<int, Inode>, owner: map<int, (int, int)>, i: int, n: int,
                     a: int)
    requires FsOk(l, disk, inodes, owner) && FreshBlock(l, disk, inodes, a)
    requires i in inodes && 0 <= n < NINDIRECT && inodes[i].addrs[INDIRECT] != 0 && Addr(disk, inodes[i], 13 + n) == 0
    ensures var ind := inodes[i].addrs[INDIRECT];
            && l.data <= ind < l.size
            && var disk' := disk[ind := PutWord(disk[ind], n, a)];
            && FsOk(l, disk', inodes, owner[a := (i, 13 + n)])
            && Gained(disk, inodes, disk', inodes, i, 13 + n, a)
            && SameBytes(disk, inodes, disk', inodes)
  {
    var ind := inodes[i].addrs[INDIRECT];
    OwnsAt(l, disk, inodes, owner, i, INDIRECT);
    var disk' := disk[ind := PutWord(disk[ind], n, a)];
    forall c | 0 <= c < l.size
      ensures LayoutOk(l, disk') && Used(l, disk', c) == Used(l, disk, c)
    {
      DataWriteBits(l, disk, ind, PutWord(disk[ind], n, a), c);
    }
    hide Used, BitmapBlock;
    forall j, t | j in inodes && 0 <= t < SLOTS
      ensures Addr(disk', inodes[j], t) == if j == i && t == 13 + n then a else Addr(disk, inodes[j], t)
    {
      if j == i {
        if t > INDIRECT {
          PutWordAt(disk[ind], n, a, t - 13);
        }
      } else {
        if inodes[j].addrs[INDIRECT] == ind {
          OwnedOnce(l, disk, inodes, owner, i, INDIRECT, j, INDIRECT);
        }
        AddrSame(disk, disk', inodes[j], t);
      }
    }
    GainOwners(l, disk, inodes, owner, disk', inodes, i, 13 + n, a);
    GainBytes(l, disk, inodes, owner, disk', inodes, i, 13 + n, a, ind);
  }

  /** Writing a data block of file i changes the bytes of that block of that file, and nothing else. */
  lemma DataWrite(l: Layout, disk: Disk, inodes: map<int, Inode>, owner: map<int, (int, int)>, i: int, bn: int,
                  a: int, data: Block)
    requires FsOk(l, disk, inodes, owner) && i in inodes && 0 <= bn < MAXFILE
    requires a == Addr(disk, inodes[i], Slot(bn)) != 0
    ensures l.data <= a < l.size
    ensures FsOk(l, disk[a := data], inodes, owner)
    ensures forall j, t :: j in inodes && 0 <= t < SLOTS ==>
              Addr(disk[a := data], inodes[j], t) == Addr(disk, inodes[j], t)
    ensures forall j, off :: j in inodes && 0 <= off < MAXFILE * BSIZE ==>
              ByteAt(disk[a := data], inodes[j], off) == WrittenByte(disk, inodes, i, bn, data, j, off)
  {
    var s := Slot(bn);
    OwnsAt(l, disk, inodes, owner, i, s);
    var disk' := disk[a := data];
    forall c | 0 <= c < l.size
      ensures LayoutOk(l, disk') && Used(l, disk', c) == Used(l, disk, c)
    {
      DataWriteBits(l, disk, a, data, c);
    }
    hide Used, BitmapBlock;
    forall j, t | j in inodes && 0 <= t < SLOTS
      ensures Addr(disk', inodes[j], t) == Addr(disk, inodes[j], t)
      ensures Owns(l, disk', owner, j, t, Addr(disk', inodes[j], t))
    {
      OwnsAt(l, disk, inodes, owner, j, t);
      if inodes[j].addrs[INDIRECT] == a {
        OwnedOnce(l, disk, inodes, owner, i, s, j, INDIRECT);
      }
      AddrSame(disk, disk', inodes[j], t);
    }
    forall j, off | j in inodes && 0 <= off < MAXFILE * BSIZE
      ensures ByteAt(disk', inodes[j], off) == WrittenByte(disk, inodes, i, bn, data, j, off)
    {
      WriteByte(l, disk, inodes, owner, i, bn, a, data, j, off);
    }
  }

  /** Byte off of file j after block bn of file i got new contents. */
  ghost function WrittenByte(disk: Disk, inodes: map<int, Inode>, i: int, bn: int, data: Block, j: int,
                             off: int): (x: int)
    requires j in inodes && InodeOk(inodes[j]) && 0 <= off < MAXFILE * BSIZE
  {
    if j == i && off / BSIZE == bn then data[off % BSIZE] else ByteAt(disk, inodes[j], off)
  }

  lemma WriteByte(l: Layout, disk: Disk, inodes: map<int, Inode>, owner: map<int, (int, int)>, i: int, bn: int,
                  a: int, data: Block, j: int, off: int)
    requires FsOk(l, disk, inodes, owner) && i in inodes && 0 <= bn < MAXFILE
    requires a == Addr(disk, inodes[i], Slot(bn)) != 0 && l.data <= a < l.size
    requires j in inodes && 0 <= off < MAXFILE * BSIZE
    requires Addr(disk[a := data], inodes[j], Slot(off / BSIZE)) == Addr(disk, inodes[j], Slot(off / BSIZE))
    ensures ByteAt(disk[a := data], inodes[j], off) == WrittenByte(disk, inodes, i, bn, data, j, off)
  {
    hide Addr;
    SlotOf(off);
    var t := Slot(off / BSIZE);
    if Addr(disk, inodes[j], t) == a {
      OwnedOnce(l, disk, inodes, owner, i, Slot(bn), j, t);
      SlotOnce(off / BSIZE, bn);
    }
  }

  lemma SlotOnce(m: int, n: int)
    requires Slot(m) == Slot(n)
    ensures m == n
  {
  }
}
