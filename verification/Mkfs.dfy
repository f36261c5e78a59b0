/** The image `mkfs` writes (mkfs/mkfs.c): blocks are handed out by a counter, and the bitmap is written
    last. The file system it will be is `Image`: the disk with the bits of the blocks handed out. */
module Mkfs {
  import opened FsBits
  import opened FsMap
  import opened FsCost
  import opened Fs
  import opened MkfsTable
  import opened MkfsFiles

  datatype MkResult = Done | Aborted

  /** The type of inode i: the root directory is the first one made. */
  function Kind(i: int): (kind: int) {
    if i == 1 then T_DIR else T_FILE
  }

  ghost predicate Kinds(inodes: map<int, Inode>) {
    forall i :: i in inodes ==> inodes[i].kind == Kind(i)
  }

  /** Where the counter has to stop: the end of the disk or of the one bitmap block that `balloc` writes. */
  function Limit(l: Layout): (k: int) {
    if l.size < BPB - 1 then l.size else BPB - 1
  }

  /** All blocks before the data blocks are the same. */
  ghost predicate MetaKept(l: Layout, d: Disk, d': Disk) {
    |d'| == |d| && l.data <= |d| && forall b :: 0 <= b < l.data ==> d'[b] == d[b]
  }

  /** Blocks that are not handed out are zero, and so is the bitmap; inodes are numbered in order. */
  ghost predicate Sane(l: Layout, disk: Disk, inodes: map<int, Inode>, freeblock: nat, freeinode: int)
    requires LayoutOk(l, disk)
  {
    && 0 <= l.inode <= l.bmap && l.data <= freeblock <= l.size
    && (forall b :: freeblock <= b < l.size ==> disk[b] == ZeroBlock())
    && (forall m :: l.bmap <= m < l.data ==> disk[m] == ZeroBlock())
    && 0 < freeinode && (forall i :: i in inodes ==> 0 < i < freeinode)
  }

  class Builder {
    const l: Layout
    var disk: Disk
    var inodes: map<int, Inode>       // the table's inodes, and the one an append is working on
    var freeblock: nat
    var freeinode: int
    ghost var owner: map<int, (int, int)>

    ghost predicate Valid()
      reads this
    {
      && LayoutOk(l, disk) && freeblock <= Limit(l)
      && Sane(l, disk, inodes, freeblock, freeinode)
      && FsOk(l, Image(), inodes, owner)
    }

    /** Between two operations: the files have exactly the blocks they need, and the inodes are on disk. */
    ghost predicate Ready()
      reads this
    {
      Valid() && InodesOk(inodes) && Packed(Image(), inodes) && Table(l, disk, inodes) && Kinds(inodes)
    }

    ghost function Image(): (d: Disk)
      requires LayoutOk(l, disk) && freeblock <= BPB
      reads this
    {
      Marked(l, disk, freeblock)
    }

    /** Every block written with zeroes; the superblock is not part of the model. */
    constructor (l: Layout)
      requires 0 < l.bmap && l.bmap + (l.size - 1) / BPB < l.data < l.size && l.data < BPB && 0 <= l.inode <= l.bmap
      ensures Ready() && this.l == l && inodes == map[] && freeinode == 1 && freeblock == l.data
    {
      this.l, disk, inodes, freeblock, freeinode, owner := l, seq(l.size, i => ZeroBlock()), map[], l.data, 1, map[];
      new;
      forall b | 0 <= b < l.data
        ensures Used(l, Image(), b)
      {
        MarkedUsed(l, disk, l.data, b);
      }
    }

    /** `rinode`. */
    method Rinode(i: int) returns (ip: Inode)
      requires LayoutOk(l, disk) && Table(l, disk, inodes) && i in inodes
      ensures ip == inodes[i]
    {
      StoredAt(l, disk, inodes, i);
      ip := Dinode(disk[InodeBlock(l, i)], i % IPB);
    }

    /** `winode`. */
    method Winode(i: int, ip: Inode)
      requires LayoutOk(l, disk) && 0 <= l.inode <= l.bmap && InTable(l, i) && InodeOk(ip)
      modifies this`disk
      ensures 0 <= InodeBlock(l, i) < l.bmap && disk == WithInode(l, old(disk), i, ip)
      ensures LayoutOk(l, disk) && SameAbove(l, old(disk), disk)
    {
      TableBlock(l, i);
      var bn := InodeBlock(l, i);
      var buf := PutDinode(disk[bn], i % IPB, ip);
      disk := disk[bn := buf];
    }

    /** `ialloc`, for an inode that the inode blocks have room for. */
    method Ialloc(kind: int) returns (i: int)
      requires Ready() && InTable(l, freeinode) && kind == Kind(freeinode)
      modifies this
      ensures Ready() && freeblock == old(freeblock) && freeinode == old(freeinode) + 1
      ensures i == old(freeinode) && i !in old(inodes) && InodesOk(old(inodes))
      ensures inodes == old(inodes)[i := Inode(kind, 1, 0, [0, 0, 0, 0, 0, 0, 0, 0, 0, 0, 0, 0, 0])]
      ensures SameFiles(old(Image()), Image(), old(inodes))
      ensures forall off :: 0 <= off < MAXFILE * BSIZE ==> ByteAt(Image(), inodes[i], off) == 0
    {
      hide FsOk, ByteAt, Packed, Table, WithInode, SameFiles, Marked, Prefix;
      ghost var img, d0 := Image(), disk;
      i := freeinode;
      freeinode := freeinode + 1;
      var din := Inode(kind, 1, 0, [0, 0, 0, 0, 0, 0, 0, 0, 0, 0, 0, 0, 0]);
      Winode(i, din);
      assert inodes - {i} == inodes;
      TableWrite(l, d0, inodes, i, din);
      MarkedAbove(l, d0, disk, freeblock);
      AboveKeeps(l, img, Image(), inodes, owner);
      PackedSame(img, Image(), inodes);
      FreshInode(l, Image(), inodes, owner, i, din);
      inodes := inodes[i := din];
    }

    /** freeblock++ into an empty slot of the inode. The image has no block left iff this fails. */
    method TakeDirect(i: int, s: int) returns (a: int)
      requires Valid() && i in inodes && 0 <= s <= INDIRECT && InodeOk(inodes[i]) && inodes[i].addrs[s] == 0
      modifies this
      ensures Valid() && InodesOk(inodes) && InodesOk(old(inodes))
              && SameBytes(old(Image()), old(inodes), Image(), inodes)
      ensures freeinode == old(freeinode) && MetaKept(l, old(disk), disk)
      ensures a == 0 <==> old(freeblock) == Limit(l)
      ensures a == 0 ==> inodes == old(inodes) && disk == old(disk) && freeblock == old(freeblock)
      ensures a != 0 ==> a == old(freeblock) && freeblock == a + 1
      ensures a != 0 ==> inodes == old(inodes)[i := old(inodes)[i].(addrs := old(inodes)[i].addrs[s := a])]
      ensures a != 0 ==> Gained(old(Image()), old(inodes), Image(), inodes, i, s, a)
    {
      hide Used, Addr, ByteAt, BitmapBlock, FreshBlock, FsOk, Prefix, SameBytes, Gained;
      ghost var img := Image();
      InodesOf(l, img, inodes, owner);
      if freeblock == l.size || freeblock + 1 == BPB {
        SameBytesRefl(img, inodes);
        return 0;
      }
      a := freeblock;
      NextBlock(l, disk, a);
      AllocKeeps(l, img, inodes, owner, a);
      freeblock := freeblock + 1;
      ghost var img1 := Image();
      FreshOne(l, img1, inodes, a);
      DirectGain(l, img1, inodes, owner, i, s, a);
      inodes := inodes[i := inodes[i].(addrs := inodes[i].addrs[s := a])];
      owner := owner[a := (i, s)];
      InodesOf(l, Image(), inodes, owner);
      SameBytesTrans(img, old(inodes), img1, old(inodes), Image(), inodes);
      GainedAfterAlloc(img, img1, old(inodes), Image(), inodes, i, s, a);
    }

    /** freeblock++ into an empty entry of the indirect block. */
    method TakeIndirect(i: int, n: int) returns (a: int)
      requires Valid() && i in inodes && InodeOk(inodes[i]) && 0 <= n < NINDIRECT
      requires 0 < inodes[i].addrs[INDIRECT] && Addr(Image(), inodes[i], 13 + n) == 0
      modifies this
      ensures Valid() && InodesOk(inodes) && inodes == old(inodes)
              && SameBytes(old(Image()), old(inodes), Image(), inodes)
      ensures freeinode == old(freeinode) && MetaKept(l, old(disk), disk)
      ensures a == 0 <==> old(freeblock) == Limit(l)
      ensures a == 0 ==> disk == old(disk) && freeblock == old(freeblock)
      ensures a != 0 ==> a == old(freeblock) && freeblock == a + 1
      ensures a != 0 ==> Gained(old(Image()), old(inodes), Image(), inodes, i, 13 + n, a)
    {
      hide Used, Addr, ByteAt, BitmapBlock, FreshBlock, FsOk, Prefix, SameBytes, Gained, PutWord, Allocated;
      ghost var img := Image();
      InodesOf(l, img, inodes, owner);
      if freeblock == l.size || freeblock + 1 == BPB {
        SameBytesRefl(img, inodes);
        return 0;
      }
      a := freeblock;
      NextBlock(l, disk, a);
      AllocKeeps(l, img, inodes, owner, a);
      freeblock := freeblock + 1;
      ghost var img1 := Image();
      FreshOne(l, img1, inodes, a);
      var ind := inodes[i].addrs[INDIRECT];
      IndirectAddr(img, inodes[i]);
      OwnedUsed(l, img, inodes, owner, i, INDIRECT);
      MarkedUsed(l, old(disk), a, ind);
      IndirectGain(l, img1, inodes, owner, i, n, a);
      MarkedWrite(l, disk, freeblock, ind, PutWord(disk[ind], n, a));
      disk := disk[ind := PutWord(disk[ind], n, a)];
      owner := owner[a := (i, 13 + n)];
      SameBytesTrans(img, inodes, img1, inodes, Image(), inodes);
      GainedAfterAlloc(img, img1, inodes, Image(), inodes, i, 13 + n, a);
    }

    method MapDirect(i: int, s: int) returns (a: int)
      requires Valid() && i in inodes && 0 <= s <= INDIRECT
      modifies this
      ensures Valid() && InodesOk(inodes) && InodesOk(old(inodes))
              && SameBytes(old(Image()), old(inodes), Image(), inodes)
      ensures GrewIn(old(inodes), inodes, i) && Kept(old(Image()), old(inodes), Image(), inodes)
              && freeinode == old(freeinode) && MetaKept(l, old(disk), disk)
      ensures a == inodes[i].addrs[s] && SlotOnly(old(Image()), old(inodes), Image(), inodes, i, s)
      ensures var k := if old(inodes)[i].addrs[s] == 0 then 1 else 0;
              && (a == 0 <==> old(freeblock) + k > Limit(l))
              && freeblock == if a == 0 then old(freeblock) else old(freeblock) + k
    {
      hide ByteAt, FsOk, SameBytes, Word, Kept, Gained, Marked, SlotOnly;
      ghost var img := Image();
      InodesOf(l, img, inodes, owner);
      SameBytesRefl(img, inodes);
      KeptRefl(img, inodes);
      SlotOnlyRefl(img, inodes, i, s);
      a := inodes[i].addrs[s];
      if a == 0 {
        a := TakeDirect(i, s);
        if a != 0 {
          GainedKept(img, old(inodes), Image(), inodes, i, s, a);
        }
      }
    }

    method MapIndirect(i: int, n: int) returns (a: int)
      requires Valid() && i in inodes && 0 <= n < NINDIRECT && InodeOk(inodes[i])
               && l.data <= inodes[i].addrs[INDIRECT] < l.size
      modifies this
      ensures Valid() && InodesOk(inodes) && inodes == old(inodes)
              && SameBytes(old(Image()), old(inodes), Image(), inodes)
      ensures Kept(old(Image()), old(inodes), Image(), inodes) && freeinode == old(freeinode)
              && MetaKept(l, old(disk), disk)
      ensures a == Addr(Image(), inodes[i], 13 + n)
              && SlotOnly(old(Image()), old(inodes), Image(), inodes, i, 13 + n)
      ensures var k := if Addr(old(Image()), inodes[i], 13 + n) == 0 then 1 else 0;
              && (a == 0 <==> old(freeblock) + k > Limit(l))
              && freeblock == if a == 0 then old(freeblock) else old(freeblock) + k
    {
      hide ByteAt, FsOk, SameBytes, Word, Kept, Gained, Marked, SlotOnly;
      ghost var img := Image();
      InodesOf(l, img, inodes, owner);
      SameBytesRefl(img, inodes);
      KeptRefl(img, inodes);
      SlotOnlyRefl(img, inodes, i, 13 + n);
      var ind := inodes[i].addrs[INDIRECT];
      MarkedSame(l, disk, freeblock, ind);
      a := Word(disk[ind], n);
      assert a == Addr(img, inodes[i], 13 + n);
      if a == 0 {
        a := TakeIndirect(i, n);
        if a != 0 {
          GainedKept(img, old(inodes), Image(), inodes, i, 13 + n, a);
          GainedAddr(img, old(inodes), Image(), inodes, i, 13 + n, a);
        }
      }
    }

    /** The block of file block bn. The blocks that are missing are taken from the counter; the result is 0
        iff the image has fewer. */
    method MapBlock(i: int, bn: int) returns (a: int)
      requires Valid() && i in inodes && 0 <= bn < MAXFILE
      modifies this
      ensures Valid() && InodesOk(inodes) && InodesOk(old(inodes))
              && SameBytes(old(Image()), old(inodes), Image(), inodes)
      ensures GrewIn(old(inodes), inodes, i) && Kept(old(Image()), old(inodes), Image(), inodes)
              && freeinode == old(freeinode) && MetaKept(l, old(disk), disk)
      ensures a != 0 ==> a == Addr(Image(), inodes[i], Slot(bn)) && l.data <= a < freeblock
      ensures SlotOnly(old(Image()), old(inodes), Image(), inodes, i, Slot(bn))
      ensures var k := Missing(old(Image()), old(inodes)[i], bn);
              (a == 0 <==> old(freeblock) + k > Limit(l)) && (a != 0 ==> freeblock == old(freeblock) + k)
    {
      hide ByteAt, FsOk, SameBytes, Word, Kept, Gained, Marked, SlotOnly, Addr;
      ghost var img := Image();
      InodesOf(l, img, inodes, owner);
      if bn < NDIRECT {
        DirectAddr(img, inodes[i], bn);
        a := MapDirect(i, bn);
        DirectAddr(Image(), inodes[i], bn);
        BelowCounter(l, disk, freeblock, inodes, owner, i, bn);
        return;
      }
      var ind := MapDirect(i, INDIRECT);
      if ind == 0 {
        SlotOnlyAny(img, old(inodes), Image(), inodes, i, Slot(bn));
        return 0;
      }
      ghost var img1, inodes1 := Image(), inodes;
      IndirectAddr(img1, inodes[i]);
      BelowCounter(l, disk, freeblock, inodes, owner, i, INDIRECT);
      SlotOnlyAt(img, old(inodes), img1, inodes, i, INDIRECT, Slot(bn));
      a := MapIndirect(i, bn - NDIRECT);
      SameBytesTrans(img, old(inodes), img1, inodes1, Image(), inodes);
      KeptTrans(img, old(inodes), img1, inodes1, Image(), inodes);
      SlotOnlyTrans(img, old(inodes), img1, inodes1, Image(), inodes, i, Slot(bn));
      BelowCounter(l, disk, freeblock, inodes, owner, i, 13 + (bn - NDIRECT));
    }

    /** `iappend`: the bytes go to the end of file i and nothing else changes. It fails iff the file gets too
        long or the image has too few blocks left. */
    method Iappend(i: int, data: seq<int>) returns (r: MkResult)
      requires Ready() && i in inodes
      modifies this
      ensures Valid() && InodesOk(inodes) && InodesOk(old(inodes)) && freeinode == old(freeinode)
      ensures var m, n := old(inodes)[i].size, old(inodes)[i].size + |data|;
              && (r == Done <==>
                    n <= MAXFILE * BSIZE && old(freeblock) + BlocksFor(n) - BlocksFor(m) <= Limit(l))
              && (r == Done ==> freeblock == old(freeblock) + BlocksFor(n) - BlocksFor(m))
      ensures r == Done ==> Ready() && Appended(old(Image()), old(inodes), Image(), inodes, i, data)
    {
      hide FsOk, ByteAt, Spliced, Kept, Filled, Packed, AllDense, Snug, Marked, SameBytes, Prefix, Table, BlocksFor,
           SameAbove, WithInode;
      ghost var img := Image();
      InodesOf(l, img, inodes, owner);
      var din := Rinode(i);
      var off0 := din.size;
      SplicedNone(img, inodes, i, off0, data);
      PackedParts(img, inodes);
      DenseAt(img, inodes, i);
      SnugStart(img, inodes, i);
      var t := 0;
      while t < |data|
        invariant 0 <= t <= |data| && off0 + t <= MAXFILE * BSIZE
        invariant Valid() && InodesOk(inodes) && GrewIn(old(inodes), inodes, i)
                  && Kept(img, old(inodes), Image(), inodes) && MetaKept(l, old(disk), disk)
        invariant Spliced(img, old(inodes), Image(), inodes, i, off0, data, t)
                  && Filled(Image(), inodes[i], 0, off0 + t) && Snug(Image(), inodes, i, off0 + t)
        invariant freeinode == old(freeinode)
                  && freeblock == old(freeblock) + BlocksFor(off0 + t) - BlocksFor(off0)
      {
        var bn := (off0 + t) / BSIZE;
        if bn >= MAXFILE {
          return Aborted;
        }
        var n1 := if |data| - t < (bn + 1) * BSIZE - (off0 + t) then |data| - t else (bn + 1) * BSIZE - (off0 + t);
        BlocksMonotone(off0 + t + n1, off0 + |data|);
        var a := AppendStep(i, off0, data, t, n1, img, old(inodes));
        if a == 0 {
          return Aborted;
        }
        t := t + n1;
      }
      EndAppend(i, off0 + t, data, img, old(disk), old(inodes));
      r := Done;
    }

    /** The end of `iappend`: the new size, and the inode goes to the table. */
    method EndAppend(i: int, size: int, ghost data: seq<int>, ghost img: Disk, ghost d0: Disk,
                     ghost n0: map<int, Inode>)
      requires Valid() && InodesOk(inodes) && InodesOk(n0) && GrewIn(n0, inodes, i) && Kept(img, n0, Image(), inodes)
      requires size == n0[i].size + |data| <= MAXFILE * BSIZE && Packed(img, n0) && Kinds(n0)
      requires Table(l, d0, n0) && MetaKept(l, d0, disk)
      requires Spliced(img, n0, Image(), inodes, i, n0[i].size, data, |data|)
      requires Filled(Image(), inodes[i], 0, size) && Snug(Image(), inodes, i, size)
      modifies this`disk, this`inodes
      ensures Ready() && Appended(img, n0, Image(), inodes, i, data)
    {
      hide FsOk, ByteAt, Spliced, Kept, Filled, Packed, AllDense, Snug, Marked, SameBytes, Prefix, Table, WithInode,
           SameFiles;
      ghost var n1, img1, d1 := inodes, Image(), disk;
      var din := inodes[i].(size := size);
      ResizeKeeps(l, img1, inodes, owner, i, din);
      SplicedResize(img, n0, img1, inodes, i, din, n0[i].size, data, |data|);
      FilledResize(img1, inodes[i], din, 0, size);
      KeptResize(img, n0, img1, inodes, i, din);
      SnugEnd(img1, inodes, i, din);
      PackedParts(img, n0);
      DenseMore(img, n0, img1, inodes[i := din], i, 0, size);
      PackedFrom(img1, inodes[i := din]);
      TableKept(l, d0, d1, n0, n1, i);
      Winode(i, din);
      inodes := inodes[i := din];
      TableWrite(l, d1, n1, i, din);
      MarkedAbove(l, d1, disk, freeblock);
      AboveKeeps(l, img1, Image(), inodes, owner);
      PackedSame(img1, Image(), inodes);
      AppendedSame(img, n0, img1, Image(), inodes, i, data);
    }

    method AppendStep(i: int, off0: int, data: seq<int>, t: int, n1: int, ghost img: Disk, ghost n0: map<int, Inode>)
        returns (a: int)
      requires Valid() && InodesOk(inodes) && InodesOk(n0) && GrewIn(n0, inodes, i) && Kept(img, n0, Image(), inodes)
      requires 0 <= off0 && 0 <= t < |data| && off0 + t < MAXFILE * BSIZE && 0 < n1 && t + n1 <= |data|
               && (off0 + t) % BSIZE + n1 <= BSIZE
      requires Spliced(img, n0, Image(), inodes, i, off0, data, t)
      requires Filled(Image(), inodes[i], 0, off0 + t) && Snug(Image(), inodes, i, off0 + t)
      modifies this
      ensures Valid() && InodesOk(inodes) && GrewIn(n0, inodes, i) && freeinode == old(freeinode)
              && MetaKept(l, old(disk), disk)
      ensures var k := BlocksFor(off0 + t + n1) - BlocksFor(off0 + t);
              (a == 0 <==> old(freeblock) + k > Limit(l)) && (a != 0 ==> freeblock == old(freeblock) + k)
      ensures a != 0 ==>
                && Spliced(img, n0, Image(), inodes, i, off0, data, t + n1) && Kept(img, n0, Image(), inodes)
                && Filled(Image(), inodes[i], 0, off0 + t + n1) && Snug(Image(), inodes, i, off0 + t + n1)
    {
      hide FsOk, ByteAt, Spliced, Kept, Filled, Marked, Addr, Slot, SameBytes, Prefix, Snug, SlotOnly, Missing,
           BlocksFor;
      ghost var img1, inodes1 := Image(), inodes;
      var off := off0 + t;
      SlotOf(off);
      MissingCount(img1, inodes, i, off, n1);
      a := MapBlock(i, off / BSIZE);
      if a == 0 {
        return;
      }
      InodesOf(l, Image(), inodes, owner);
      ghost var img2 := Image();
      var o := off % BSIZE;
      var chunk := data[t..t + n1];
      var block := disk[a][..o] + chunk + disk[a][o + n1..];
      MarkedSame(l, disk, freeblock, a);
      DataWrite(l, img2, inodes, owner, i, off / BSIZE, a, block);
      MarkedWrite(l, disk, freeblock, a, block);
      SnugMore(img1, inodes1, img2, inodes, i, off, off + n1);
      SnugWrite(img2, img2[a := block], inodes, i, off + n1);
      disk := disk[a := block];
      ChunkBytes(img1, inodes1, img2, Image(), inodes, i, off, a, chunk, block);
      KeptWrite(img1, inodes1, img2, Image(), inodes);
      SplicedMore(img, n0, img1, inodes1, Image(), inodes, i, off0, data, t, t + n1, n1);
      KeptTrans(img, n0, img1, inodes1, Image(), inodes);
      FilledMore(img1, inodes1, Image(), inodes, i, 0, off, off + n1);
    }

    /** Read a host file piece by piece into inode i. */
    method CopyFile(i: int, file: seq<int>, ghost c: map<int, seq<int>>) returns (r: MkResult)
      requires Ready() && Contents(Image(), inodes, c) && i in inodes && c[i] == []
      modifies this
      ensures freeinode == old(freeinode)
      ensures r == Done <==> |file| <= MAXFILE * BSIZE && old(freeblock) + BlocksFor(|file|) <= Limit(l)
      ensures r == Done ==>
                Ready() && Contents(Image(), inodes, c[i := file]) && freeblock == old(freeblock) + BlocksFor(|file|)
    {
      hide Sane, FsOk, Packed, Marked, HasFile, Spliced, SizedTo, Table, BlocksFor;
      EmptyFile();
      var t := 0;
      assert c[i := file[..0]] == c;
      while t < |file|
        invariant 0 <= t <= |file| && Ready() && i in inodes && freeinode == old(freeinode)
        invariant freeblock == old(freeblock) + BlocksFor(t) && t <= MAXFILE * BSIZE
        invariant Contents(Image(), inodes, c[i := file[..t]])
      {
        var cc := if |file| - t < BSIZE then |file| - t else BSIZE;
        ghost var img, n0 := Image(), inodes;
        SizeOf(img, n0, c[i := file[..t]], i);
        BlocksMonotone(t + cc, |file|);
        r := Iappend(i, file[t..t + cc]);
        if r == Aborted {
          return;
        }
        ContentsAppend(img, n0, c[i := file[..t]], Image(), inodes, i, file[t..t + cc]);
        assert file[..t] + file[t..t + cc] == file[..t + cc];
        assert c[i := file[..t]][i := file[..t + cc]] == c[i := file[..t + cc]];
        t := t + cc;
      }
      assert file[..t] == file;
      r := Done;
    }

    method NewFile(kind: int, ghost c: map<int, seq<int>>) returns (i: int)
      requires Ready() && Contents(Image(), inodes, c) && InTable(l, freeinode) && kind == Kind(freeinode)
      modifies this
      ensures Ready() && i in inodes && i == old(freeinode) && freeinode == i + 1 && i !in old(inodes)
      ensures freeblock == old(freeblock)
      ensures Contents(Image(), inodes, c[i := []])
    {
      hide FsOk, Packed, Marked, ByteAt, Table, SameFiles;
      ghost var n0, img := inodes, Image();
      i := Ialloc(kind);
      FilesSame(img, Image(), n0, c);
      assert forall j :: j in n0 ==> inodes[j] == n0[j];
    }

    method AppendTo(i: int, data: seq<int>, ghost c: map<int, seq<int>>) returns (r: MkResult)
      requires Ready() && Contents(Image(), inodes, c) && i in inodes
      modifies this
      ensures freeinode == old(freeinode)
      ensures var m, n := |c[i]|, |c[i]| + |data|;
              && (r == Done <==>
                    n <= MAXFILE * BSIZE && old(freeblock) + BlocksFor(n) - BlocksFor(m) <= Limit(l))
              && (r == Done ==> freeblock == old(freeblock) + BlocksFor(n) - BlocksFor(m))
      ensures r == Done ==> Ready() && i in inodes && Contents(Image(), inodes, c[i := c[i] + data])
    {
      hide FsOk, Packed, Marked, HasFile, Spliced, SizedTo, Table, BlocksFor;
      ghost var img, n0 := Image(), inodes;
      SizeOf(img, n0, c, i);
      r := Iappend(i, data);
      if r == Done {
        ContentsAppend(img, n0, c, Image(), inodes, i, data);
      }
    }

    /** `balloc(freeblock)`: the bitmap of the blocks handed out. */
    method WriteBitmap()
      requires LayoutOk(l, disk) && freeblock < BPB
      modifies this`disk
      ensures LayoutOk(l, disk) && disk == old(Image())
    {
      hide PutBlockBit;
      var buf := ZeroBlock();
      var k := 0;
      while k < freeblock
        invariant 0 <= k <= freeblock < BPB && buf == Prefix(k)
      {
        buf := PutBlockBit(buf, k, true);
        k := k + 1;
      }
      disk := disk[l.bmap := buf];
    }

    /** The root directory's size is rounded up past its last block, then the bitmap is written. */
    method Finish(root: int, ghost c: map<int, seq<int>>)
      requires Ready() && Contents(Image(), inodes, c) && root in inodes && inodes[root].size < MAXFILE * BSIZE
      modifies this`disk, this`inodes
      ensures FsOk(l, disk, inodes, owner) && InodesOk(inodes) && Rounded(disk, inodes, root, c)
      ensures Table(l, disk, inodes) && Kinds(inodes)
    {
      hide FsOk, Packed, Marked, ByteAt, Rounded, Table, WithInode, SameFiles, Prefix;
      ghost var img, d0, n0 := Image(), disk, inodes;
      var din := Rinode(root);
      var off := din.size;
      off := (off / BSIZE + 1) * BSIZE;
      din := din.(size := off);
      ResizeKeeps(l, img, inodes, owner, root, din);
      RoundUp(img, inodes, root, c, din);
      TableLess(l, d0, n0, root);
      Winode(root, din);
      inodes := inodes[root := din];
      TableWrite(l, d0, n0, root, din);
      MarkedAbove(l, d0, disk, freeblock);
      AboveKeeps(l, img, Image(), inodes, owner);
      RoundedSame(img, Image(), inodes, root, c);
      ghost var d1 := disk;
      WriteBitmap();
      MarkedBelow(l, d1, freeblock);
      TableSame(l, d1, disk, inodes);
    }

    /** The root directory with its first two entries. */
    method MakeRoot(entries: seq<seq<int>>) returns (r: MkResult, root: int, ghost c: map<int, seq<int>>)
      requires Ready() && inodes == map[] && freeinode == 1 && 2 <= |entries| && InTable(l, 1)
      modifies this
      ensures var n := |Concat(entries[..2])|;
              && (r == Done <==> n <= MAXFILE * BSIZE && old(freeblock) + BlocksFor(n) <= Limit(l))
              && (r == Done ==> freeblock == old(freeblock) + BlocksFor(n))
      ensures r == Done ==> Ready() && freeinode == 2 && root == 1 && root in inodes
      ensures r == Done ==> c == FileMap(Concat(entries[..2]), []) && Contents(Image(), inodes, c)
    {
      hide Sane, FsOk, Packed, Marked, HasFile, ByteAt, FileMap, Concat, Table, BlocksFor;
      EmptyFile();
      assert Contents(Image(), inodes, map[]) by { NoFiles(Image()); }
      root := NewFile(T_DIR, map[]);
      c := map[root := []];
      ConcatTwo(entries);
      BlocksMonotone(|entries[0]|, |entries[0]| + |entries[1]|);
      r := AppendTo(root, entries[0], c);
      if r == Aborted {
        return;
      }
      c := c[root := [] + entries[0]];
      r := AppendTo(root, entries[1], c);
      c := c[root := c[root] + entries[1]];
      RootOnly(c[root]);
    }

    /** One iteration of the loop of `main`. */
    method AddFile(root: int, entries: seq<seq<int>>, files: seq<seq<int>>, k: nat,
                   ghost c: map<int, seq<int>>) returns (r: MkResult, ghost c': map<int, seq<int>>)
      requires k < |files| && |entries| == |files| + 2 && Ready() && freeinode == k + 2 && root == 1 && root in inodes
      requires InTable(l, freeinode)
      requires c == FileMap(Concat(entries[..k + 2]), files[..k]) && Contents(Image(), inodes, c)
      modifies this
      ensures var m, n := |Concat(entries[..k + 2])|, |Concat(entries[..k + 3])|;
              var more := BlocksFor(n) - BlocksFor(m) + BlocksFor(|files[k]|);
              && (r == Done <==>
                    n <= MAXFILE * BSIZE && |files[k]| <= MAXFILE * BSIZE && old(freeblock) + more <= Limit(l))
              && (r == Done ==> freeblock == old(freeblock) + more)
      ensures r == Done ==> Ready() && freeinode == k + 3 && root in inodes
      ensures r == Done ==> c' == FileMap(Concat(entries[..k + 3]), files[..k + 1]) && Contents(Image(), inodes, c')
    {
      hide Sane, FsOk, Packed, Marked, HasFile, ByteAt, FileMap, Concat, Table, BlocksFor;
      BlocksMonotone(0, |files[k]|);
      EmptyFile();
      c' := c;
      ConcatMore(entries, k + 2);
      FileMapRoot(Concat(entries[..k + 2]), files[..k]);
      var i := NewFile(T_FILE, c');
      c' := c'[i := []];
      r := AppendTo(root, entries[k + 2], c');
      if r == Aborted {
        return;
      }
      c' := c'[root := c'[root] + entries[k + 2]];
      r := CopyFile(i, files[k], c');
      if r == Aborted {
        return;
      }
      c' := c'[i := files[k]];
      assert files[..k + 1] == files[..k] + [files[k]];
      FileMapMore(Concat(entries[..k + 2]), Concat(entries[..k + 3]), files[..k], files[k]);
    }

    /** The root directory and the first m host files, whose inodes fit the inode blocks. */
    method AddFiles(entries: seq<seq<int>>, files: seq<seq<int>>, m: nat)
        returns (r: MkResult, ghost c: map<int, seq<int>>)
      requires Ready() && inodes == map[] && freeinode == 1 && freeblock == l.data
      requires |entries| == |files| + 2 && m <= |files| && m + 1 < Capacity(l)
      modifies this
      ensures r == Done <==> Room(l, Concat(entries[..m + 2]), files[..m])
      ensures r == Done ==>
                && Ready() && freeinode == m + 2 && 1 in inodes
                && c == FileMap(Concat(entries[..m + 2]), files[..m]) && Contents(Image(), inodes, c)
                && freeblock == l.data + BlocksFor(|Concat(entries[..m + 2])|) + FilesBlocks(files[..m])
    {
      hide FsOk, Packed, Marked, HasFile, ByteAt, FileMap, Concat, Table, BlocksFor, Room;
      var root: int;
      r, root, c := MakeRoot(entries);
      RoomStart(l, entries, files);
      RoomLess(l, entries, files, 0, m);
      if r == Aborted {
        return;
      }
      var k := 0;
      assert files[..0] == [];
      while k < m
        invariant 0 <= k <= m && Ready() && freeinode == k + 2 && root == 1 && root in inodes && r == Done
        invariant c == FileMap(Concat(entries[..k + 2]), files[..k]) && Contents(Image(), inodes, c)
        invariant freeblock == l.data + BlocksFor(|Concat(entries[..k + 2])|) + FilesBlocks(files[..k])
        invariant Room(l, Concat(entries[..k + 2]), files[..k])
      {
        RoomMore(l, entries, files, k);
        RoomLess(l, entries, files, k + 1, m);
        FilesBlocksMore(files, k);
        r, c := AddFile(root, entries, files, k, c);
        if r == Aborted {
          return;
        }
        k := k + 1;
      }
    }
  }

  /** The root directory and the files are not too long, and there are blocks for them. */
  ghost predicate Room(l: Layout, root: seq<int>, files: seq<seq<int>>) {
    && |root| <= MAXFILE * BSIZE
    && (forall k :: 0 <= k < |files| ==> |files[k]| <= MAXFILE * BSIZE)
    && l.data + BlocksFor(|root|) + FilesBlocks(files) <= Limit(l)
  }

  lemma RoomStart(l: Layout, entries: seq<seq<int>>, files: seq<seq<int>>)
    requires 2 <= |entries|
    ensures var n := |Concat(entries[..2])|;
            Room(l, Concat(entries[..2]), files[..0]) <==> n <= MAXFILE * BSIZE && l.data + BlocksFor(n) <= Limit(l)
    ensures FilesBlocks(files[..0]) == 0
  {
  }

  lemma RoomMore(l: Layout, entries: seq<seq<int>>, files: seq<seq<int>>, k: nat)
    requires |entries| == |files| + 2 && k < |files| && Room(l, Concat(entries[..k + 2]), files[..k])
    ensures var n := |Concat(entries[..k + 3])|;
            Room(l, Concat(entries[..k + 3]), files[..k + 1]) <==>
              && n <= MAXFILE * BSIZE && |files[k]| <= MAXFILE * BSIZE
              && l.data + BlocksFor(n) + FilesBlocks(files[..k]) + BlocksFor(|files[k]|) <= Limit(l)
  {
    hide BlocksFor, Concat;
    FilesBlocksMore(files, k);
    assert forall j :: 0 <= j < k ==> files[..k + 1][j] == files[..k][j];
    assert files[..k + 1][k] == files[k];
  }

  /** What has no room among the first files has none among more of them. */
  lemma RoomLess(l: Layout, entries: seq<seq<int>>, files: seq<seq<int>>, k: nat, m: nat)
    requires |entries| == |files| + 2 && k <= m <= |files|
    ensures Room(l, Concat(entries[..m + 2]), files[..m]) ==> Room(l, Concat(entries[..k + 2]), files[..k])
  {
    hide BlocksFor, Concat;
    assert entries[..m + 2][..k + 2] == entries[..k + 2] && files[..m][..k] == files[..k];
    ConcatLength(entries[..m + 2], k + 2);
    BlocksMonotone(|Concat(entries[..k + 2])|, |Concat(entries[..m + 2])|);
    FilesBlocksGrow(files[..m], k);
    assert forall j :: 0 <= j < k ==> files[..m][j] == files[..k][j];
  }

  // ---------------------------------------------------------------- the inode blocks

  /** The inodes 1 to k as they are on disk. */
  ghost function ReadTable(l: Layout, disk: Disk, k: int): (n: map<int, Inode>)
    requires 0 <= l.inode && InodeBlock(l, k) < |disk|
  {
    map i | 1 <= i <= k :: InodeAt(l, disk, i)
  }

  /** The image holds the root directory and the files, in the inodes as they are on disk. */
  ghost predicate Holds(l: Layout, disk: Disk, root: seq<int>, files: seq<seq<int>>) {
    && 0 <= l.inode && InodeBlock(l, |files| + 1) < |disk|
    && var n := ReadTable(l, disk, |files| + 1);
       InodesOk(n) && Kinds(n) && Installed(disk, n, root, files)
  }

  /** What is in the inode blocks is read back. */
  lemma InTableHolds(l: Layout, disk: Disk, n: map<int, Inode>, root: seq<int>, files: seq<seq<int>>)
    requires InodesOk(n) && Kinds(n) && Installed(disk, n, root, files) && Table(l, disk, n)
    ensures Holds(l, disk, root, files)
  {
    hide InodeAt, Rounded;
    FileMapRoot(root, files);
    InstalledKeys(disk, n, root, files);
    StoredAt(l, disk, n, |files| + 1);
    var m := ReadTable(l, disk, |files| + 1);
    forall i | 1 <= i <= |files| + 1
      ensures i in n && m[i] == n[i]
    {
      StoredAt(l, disk, n, i);
    }
    assert m == n;
  }

  /** The bit of block 0 makes the type of an inode odd. */
  lemma OddKind(used: nat)
    requires 0 < used < BPB
    ensures Dinode(Prefix(used), 0).kind != T_FILE
  {
    hide Prefix, Words;
    PrefixBit(used, 0);
    var b := Prefix(used);
    assert Bit(b[0], 0);
    assert Word(b, 16 * 0) == b[0] + 2 * (0x80 * b[1] + 0x8000 * b[2] + 0x80_0000 * b[3]);
  }

  /** The first inode behind the inode blocks is in the bitmap, and its type is that of no file. */
  lemma BitmapIsNoInode(l: Layout, disk: Disk, used: nat, root: seq<int>, files: seq<seq<int>>)
    requires LayoutOk(l, disk) && 0 <= l.inode < l.bmap && 0 < used < BPB && disk[l.bmap] == Prefix(used)
    requires |files| + 1 >= Capacity(l)
    ensures !Holds(l, disk, root, files)
  {
    hide Prefix, Installed, Dinode;
    var i := Capacity(l);
    assert InodeBlock(l, i) == l.bmap && i % IPB == 0;
    OddKind(used);
    if InodeBlock(l, |files| + 1) < |disk| {
      var n := ReadTable(l, disk, |files| + 1);
      assert i in n && n[i].kind != Kind(i);
    }
  }

  /** `main` of mkfs: the root directory with its entries, and one file for each host file. An inode that the
      inode blocks have no room for is written over other blocks; `rest` and `used` are the disk and the
      counter that all such files leave. The image holds the files exactly when no inode was such a one. */
  method Build(b: Builder, entries: seq<seq<int>>, files: seq<seq<int>>, rest: Disk, used: nat) returns (r: MkResult)
    requires b.Ready() && b.inodes == map[] && b.freeinode == 1 && b.freeblock == b.l.data
    requires |entries| == |files| + 2 && 0 <= b.l.inode < b.l.bmap && |rest| == b.l.size && used >= b.l.data
    modifies b
    ensures |files| + 1 < Capacity(b.l) ==>
              && (r == Done <==> Room(b.l, Concat(entries), files) && |Concat(entries)| < MAXFILE * BSIZE)
              && (r == Done ==>
                    && FsOk(b.l, b.disk, b.inodes, b.owner) && InodesOk(b.inodes)
                    && Installed(b.disk, b.inodes, Concat(entries), files)
                    && b.freeblock == b.l.data + BlocksFor(|Concat(entries)|) + FilesBlocks(files))
    ensures |files| + 1 >= Capacity(b.l) ==>
              (r == Done <==> Room(b.l, Concat(entries[..Capacity(b.l)]), files[..Capacity(b.l) - 2]) && used < BPB)
    ensures r == Done ==> (Holds(b.l, b.disk, Concat(entries), files) <==> |files| + 1 < Capacity(b.l))
  {
    hide FsOk, Packed, Marked, HasFile, ByteAt, FileMap, Concat, Table, BlocksFor, Room, Holds, Sane, Rounded, Prefix;
    var m := if |files| + 1 < Capacity(b.l) then |files| else Capacity(b.l) - 2;
    ghost var c;
    r, c := b.AddFiles(entries, files, m);
    if r == Aborted {
      assert entries[..|files| + 2] == entries && files[..|files|] == files;
      return;
    }
    if m < |files| {
      b.disk, b.freeblock := rest, used;
      if used >= BPB {
        return Aborted;
      }
      b.WriteBitmap();
      MarkedBitmap(b.l, rest, used);
      BitmapIsNoInode(b.l, b.disk, used, Concat(entries), files);
      return;
    }
    assert entries[..m + 2] == entries && files[..m] == files;
    FileMapRoot(Concat(entries), files);
    SizeOf(b.Image(), b.inodes, c, 1);
    if b.inodes[1].size >= MAXFILE * BSIZE {
      return Aborted;
    }
    b.Finish(1, c);
    InTableHolds(b.l, b.disk, b.inodes, Concat(entries), files);
  }

  lemma MarkedBitmap(l: Layout, disk: Disk, k: nat)
    requires LayoutOk(l, disk) && k <= BPB
    ensures Marked(l, disk, k)[l.bmap] == Prefix(k)
  {
  }

  // ---------------------------------------------------------------- when the root has a hole

  const DIRENT := 16    // sizeof(struct dirent)

  lemma {:induction false} EntriesLength(entries: seq<seq<int>>, n: nat)
    requires forall k :: 0 <= k < |entries| ==> |entries[k]| == n
    ensures |Concat(entries)| == n * |entries|
  {
    if |entries| > 0 {
      EntriesLength(entries[..|entries| - 1], n);
    }
  }

  /** The image of mkfs has a hole iff the number of its files, with "." and "..", is a multiple of 64. */
  lemma HoleIff(d: Disk, n: map<int, Inode>, entries: seq<seq<int>>, files: seq<seq<int>>)
    requires InodesOk(n) && Installed(d, n, Concat(entries), files) && |entries| == |files| + 2
    requires forall k :: 0 <= k < |entries| ==> |entries[k]| == DIRENT
    ensures AllDense(d, n) <==> (|files| + 2) % 64 != 0
  {
    hide AllDense, Concat, Installed;
    EntriesLength(entries, DIRENT);
    InstalledRoot(d, n, Concat(entries), files);
  }

  /** A read of the root directory is one that allocates iff it goes past entries that fill whole blocks. */
  lemma RootReads(d: Disk, n: map<int, Inode>, root: seq<int>, files: seq<seq<int>>, lo: int, hi: int)
    requires InodesOk(n) && Installed(d, n, root, files) && 1 in n && 0 <= lo < hi <= n[1].size
    ensures Filled(d, n[1], lo, hi) <==> |root| % BSIZE != 0 || hi <= |root|
  {
    hide Addr, Installed;
    InstalledRoot(d, n, root, files);
    var bn := |root| / BSIZE;
    if |root| % BSIZE != 0 {
      DenseFilled(d, n[1], lo, hi);
    } else if hi > |root| {
      assert Touches(lo, hi, bn);
    } else {
      forall b | Touches(lo, hi, b)
        ensures Addr(d, n[1], Slot(b)) != 0
      {
        assert Touches(0, |root|, b);
      }
    }
  }

  /** So a read of the entry after entries that fill whole blocks allocates a block, or panics if there is
      none. */
  method ReadPastEntries(fs: FileSystem, off: nat, ghost root: seq<int>,
                         ghost files: seq<seq<int>>) returns (r: ReadResult)
    requires fs.Valid() && InodesOk(fs.inodes) && Installed(fs.disk, fs.inodes, root, files)
    requires off == |root| && off % BSIZE == 0 && off < MAXFILE * BSIZE
    modifies fs
    ensures r == ReadPanic
            || (r == ReadOk && (fs.disk != old(fs.disk) || fs.inodes != old(fs.inodes) || fs.logged != old(fs.logged)))
  {
    InstalledRoot(fs.disk, fs.inodes, root, files);
    RootReads(fs.disk, fs.inodes, root, files, off, off + DIRENT);
    assert fs.inodes[1].size == off + BSIZE;
    hide Installed, Filled, FsOk, Dense, IsSlice, SameBytes, Kept, GrewIn, Full;
    var data;
    r, data := fs.Readi(1, off, DIRENT, DIRENT);
  }

  /** The layout of the image: FSSIZE is 1000, and there are 13 inode blocks. */
  const IMAGE := Layout(1000, 32, 45, 46)

  /** k empty files, with entries that are all zeroes. */
  method BuildEmpty(k: nat, rest: Disk, used: nat) returns (b: Builder, r: MkResult)
    requires |rest| == 1000 && 46 <= used < BPB && k <= 1000
    ensures fresh(b) && b.l == IMAGE && r == Done
    ensures var entries := seq(k + 2, i => seq(DIRENT, j => 0));
            && |Concat(entries)| == DIRENT * (k + 2)
            && (Holds(IMAGE, b.disk, Concat(entries), seq(k, i => [])) <==> k < 207)
            && (k < 207 ==>
                  && FsOk(IMAGE, b.disk, b.inodes, b.owner) && InodesOk(b.inodes)
                  && Installed(b.disk, b.inodes, Concat(entries), seq(k, i => [])))
  {
    hide Holds, Installed, FsOk, Concat, Room;
    b := new Builder(IMAGE);
    var entries := seq(k + 2, i => seq(DIRENT, j => 0));
    var files: seq<seq<int>> := seq(k, i => []);
    EntriesLength(entries, DIRENT);
    EmptyRoom(entries, files);
    if k >= 207 {
      assert |entries[..208]| == 208 && |files[..206]| == 206;
      EntriesLength(entries[..208], DIRENT);
      EmptyRoom(entries[..208], files[..206]);
    }
    r := Build(b, entries, files, rest, used);
  }

  lemma EmptyRoom(entries: seq<seq<int>>, files: seq<seq<int>>)
    requires |entries| <= 1002 && |Concat(entries)| == DIRENT * |entries|
    requires forall k :: 0 <= k < |files| ==> files[k] == []
    ensures Room(IMAGE, Concat(entries), files)
  {
    EmptyBlocks(files);
  }

  lemma {:induction false} EmptyBlocks(files: seq<seq<int>>)
    requires forall k :: 0 <= k < |files| ==> files[k] == []
    ensures FilesBlocks(files) == 0
  {
    if |files| > 0 {
      EmptyBlocks(files[..|files| - 1]);
    }
  }

  /** Such an image exists: 62 empty files give 64 entries, which fill one block. */
  method SixtyTwoFiles() returns (fs: FileSystem)
    ensures fresh(fs) && fs.Valid() && InodesOk(fs.inodes) && fs.l == IMAGE
    ensures Installed(fs.disk, fs.inodes, Concat(seq(64, i => seq(DIRENT, k => 0))), seq(62, i => []))
    ensures |Concat(seq(64, i => seq(DIRENT, k => 0)))| == BSIZE && !AllDense(fs.disk, fs.inodes)
  {
    hide AllDense, Addr, ByteAt, HasFile, FileMap, Concat, FsOk, Filled, Holds, Rounded;
    var b, r := BuildEmpty(62, seq(1000, i => ZeroBlock()), 46);
    var entries := seq(64, i => seq(DIRENT, k => 0));
    HoleIff(b.disk, b.inodes, entries, seq(62, i => []));
    fs := new FileSystem(b.l, b.disk, b.inodes, b.owner);
  }

  /** With 207 files the last inode is 208, the first in the bitmap block: the image does not hold them. */
  method TooManyFiles(rest: Disk, used: nat) returns (b: Builder, r: MkResult)
    requires |rest| == 1000 && 46 <= used < BPB
    ensures b.l == IMAGE && r == Done
    ensures !Holds(IMAGE, b.disk, Concat(seq(209, i => seq(DIRENT, k => 0))), seq(207, i => []))
  {
    hide Holds, Installed, FsOk, Concat;
    b, r := BuildEmpty(207, rest, used);
  }
}
