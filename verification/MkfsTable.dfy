/** The inode table of the image: inode i has the 64 bytes at place i % IPB of block IBLOCK(i) (kernel/fs.h,
    winode and rinode of mkfs/mkfs.c). */
module MkfsTable {
  import opened FsBits
  import opened FsMap
  import opened FsCost

  const IPB := 16          // inodes per block
  const T_DIR := 1
  const T_FILE := 2

  /** The inodes that the inode blocks have room for. */
  function Capacity(l: Layout): (n: int) {
    IPB * (l.bmap - l.inode)
  }

  predicate InTable(l: Layout, i: int) {
    0 <= i < Capacity(l)
  }

  lemma TableBlock(l: Layout, i: int)
    requires InTable(l, i)
    ensures l.inode <= InodeBlock(l, i) < l.bmap
  {
  }

  /** `struct dinode` as words: type and major, minor and nlink, size, addresses. */
  function Dinode(b: Block, s: int): (ip: Inode)
    requires 0 <= s < IPB
    ensures |ip.addrs| == NDIRECT + 1
  {
    Inode(Word(b, 16 * s) % 0x1_0000, Word(b, 16 * s + 1) / 0x1_0000, Word(b, 16 * s + 2), Words(b, 16 * s + 3, 13))
  }

  /** n words of a block from word `at` on. */
  function Words(b: Block, at: int, n: nat): (ws: seq<int>)
    requires 0 <= at && at + n <= NINDIRECT
    ensures |ws| == n && forall k :: 0 <= k < n ==> ws[k] == Word(b, at + k)
  {
    if n == 0 then [] else Words(b, at, n - 1) + [Word(b, at + n - 1)]
  }

  function PutWords(b: Block, at: int, ws: seq<int>): (r: Block)
    requires 0 <= at && at + |ws| <= NINDIRECT
  {
    if |ws| == 0 then b
    else PutWord(PutWords(b, at, ws[..|ws| - 1]), at + |ws| - 1, ws[|ws| - 1])
  }

  lemma {:induction false} PutWordsAt(b: Block, at: int, ws: seq<int>, j: int)
    requires 0 <= at && at + |ws| <= NINDIRECT && 0 <= j < NINDIRECT
    ensures Word(PutWords(b, at, ws), j) == if at <= j < at + |ws| then ws[j - at] else Word(b, j)
  {
    if |ws| > 0 {
      hide Word, PutWord;
      PutWordsAt(b, at, ws[..|ws| - 1], j);
      PutWordAt(PutWords(b, at, ws[..|ws| - 1]), at + |ws| - 1, ws[|ws| - 1], j);
    }
  }

  function DinodeWords(ip: Inode): (ws: seq<int>)
    requires InodeOk(ip)
    ensures |ws| == 16
  {
    [ip.kind, 0x1_0000 * ip.nlink, ip.size] + ip.addrs
  }

  /** A block of the table with one inode replaced. */
  function PutDinode(b: Block, s: int, ip: Inode): (r: Block)
    requires 0 <= s < IPB && InodeOk(ip)
  {
    PutWords(b, 16 * s, DinodeWords(ip))
  }

  lemma DinodeWord(b: Block, s: int, ip: Inode, t: int, k: int)
    requires 0 <= s < IPB && 0 <= t < IPB && InodeOk(ip) && 0 <= k < 16
    ensures Word(PutDinode(b, s, ip), 16 * t + k) == if t == s then DinodeWords(ip)[k] else Word(b, 16 * t + k)
  {
    hide Word, PutWords;
    PutWordsAt(b, 16 * s, DinodeWords(ip), 16 * t + k);
  }

  lemma DinodeAt(b: Block, s: int, ip: Inode, t: int)
    requires 0 <= s < IPB && 0 <= t < IPB && InodeOk(ip) && 0 <= ip.kind < 0x1_0000
    ensures Dinode(PutDinode(b, s, ip), t) == if t == s then ip else Dinode(b, t)
  {
    hide Word, PutDinode;
    var r := PutDinode(b, s, ip);
    DinodeWord(b, s, ip, t, 0);
    DinodeWord(b, s, ip, t, 1);
    DinodeWord(b, s, ip, t, 2);
    var ws, ws' := Words(b, 16 * t + 3, 13), Words(r, 16 * t + 3, 13);
    forall k | 0 <= k < 13
      ensures ws'[k] == if t == s then ip.addrs[k] else ws[k]
    {
      DinodeWord(b, s, ip, t, 3 + k);
      assert 16 * t + (3 + k) == 16 * t + 3 + k;
    }
    assert ws' == if t == s then ip.addrs else ws;
  }

  /** `rinode`. */
  function InodeAt(l: Layout, disk: Disk, i: int): (ip: Inode)
    requires 0 <= i && 0 <= InodeBlock(l, i) < |disk|
  {
    Dinode(disk[InodeBlock(l, i)], i % IPB)
  }

  /** `winode`. */
  function WithInode(l: Layout, disk: Disk, i: int, ip: Inode): (r: Disk)
    requires 0 <= i && 0 <= InodeBlock(l, i) < |disk| && InodeOk(ip)
  {
    var b := InodeBlock(l, i);
    disk[b := PutDinode(disk[b], i % IPB, ip)]
  }

  /** Writing an inode changes no other one. */
  lemma WithInodeAt(l: Layout, disk: Disk, i: int, ip: Inode, j: int)
    requires 0 <= i && 0 <= InodeBlock(l, i) < |disk| && InodeOk(ip) && 0 <= ip.kind < 0x1_0000
    requires 0 <= j && 0 <= InodeBlock(l, j) < |disk|
    ensures InodeAt(l, WithInode(l, disk, i, ip), j) == if j == i then ip else InodeAt(l, disk, j)
  {
    hide PutDinode, Dinode;
    if InodeBlock(l, i) == InodeBlock(l, j) {
      DinodeAt(disk[InodeBlock(l, i)], i % IPB, ip, j % IPB);
      assert i % IPB == j % IPB ==> i == j;
    }
  }

  /** The table holds these inodes. */
  ghost predicate Table(l: Layout, disk: Disk, inodes: map<int, Inode>) {
    && 0 <= l.inode <= l.bmap <= |disk|
    && forall i :: i in inodes ==> InTable(l, i) && Stored(l, disk, i, inodes[i])
  }

  ghost predicate Stored(l: Layout, disk: Disk, i: int, ip: Inode)
    requires 0 <= l.inode <= l.bmap <= |disk| && InTable(l, i)
  {
    TableBlock(l, i);
    InodeAt(l, disk, i) == ip
  }

  lemma StoredAt(l: Layout, disk: Disk, inodes: map<int, Inode>, i: int)
    requires Table(l, disk, inodes) && i in inodes
    ensures 0 <= i && 0 <= InodeBlock(l, i) < |disk| && InodeAt(l, disk, i) == inodes[i]
  {
    TableBlock(l, i);
  }

  /** Blocks behind the inode blocks do not matter to the table. */
  lemma TableSame(l: Layout, disk: Disk, disk': Disk, inodes: map<int, Inode>)
    requires Table(l, disk, inodes) && |disk'| == |disk| && forall b :: 0 <= b < l.bmap ==> disk'[b] == disk[b]
    ensures Table(l, disk', inodes)
  {
    hide Dinode;
    forall i | i in inodes
      ensures Stored(l, disk', i, inodes[i])
    {
      TableBlock(l, i);
      assert Stored(l, disk, i, inodes[i]);
    }
  }

  lemma TableWrite(l: Layout, disk: Disk, inodes: map<int, Inode>, i: int, ip: Inode)
    requires 0 <= l.inode <= l.bmap <= |disk| && InTable(l, i) && InodeOk(ip) && 0 <= ip.kind < 0x1_0000
    requires Table(l, disk, inodes - {i})
    ensures 0 <= InodeBlock(l, i) < l.bmap && Table(l, WithInode(l, disk, i, ip), inodes[i := ip])
  {
    hide Dinode, PutDinode, InodeAt, WithInode;
    TableBlock(l, i);
    var d, n := WithInode(l, disk, i, ip), inodes[i := ip];
    WithInodeLen(l, disk, i, ip);
    forall j | j in n
      ensures InTable(l, j) && Stored(l, d, j, n[j])
    {
      if j != i {
        assert j in inodes - {i};
        assert Stored(l, disk, j, inodes[j]);
      }
      TableBlock(l, j);
      WithInodeAt(l, disk, i, ip, j);
    }
  }

  lemma WithInodeLen(l: Layout, disk: Disk, i: int, ip: Inode)
    requires 0 <= i && 0 <= InodeBlock(l, i) < |disk| && InodeOk(ip)
    ensures var d := WithInode(l, disk, i, ip); |d| == |disk| && d == disk[InodeBlock(l, i) := d[InodeBlock(l, i)]]
  {
  }

  // ---------------------------------------------------------------- the rest of the image

  /** The bitmap and data blocks are the same. */
  ghost predicate SameAbove(l: Layout, d: Disk, d': Disk) {
    LayoutOk(l, d) && |d'| == |d| && forall b :: l.bmap <= b < l.size ==> d'[b] == d[b]
  }

  /** Every address and byte of a file is the same. */
  ghost predicate SameFiles(d: Disk, d': Disk, n: map<int, Inode>)
    requires InodesOk(n)
  {
    && (forall j, t :: j in n && 0 <= t < SLOTS ==> Addr(d', n[j], t) == Addr(d, n[j], t))
    && (forall j, off :: j in n && 0 <= off < MAXFILE * BSIZE ==> ByteAt(d', n[j], off) == ByteAt(d, n[j], off))
  }

  /** What the file system is made of lies behind the inode blocks. */
  lemma AboveKeeps(l: Layout, d: Disk, d': Disk, n: map<int, Inode>, owner: map<int, (int, int)>)
    requires FsOk(l, d, n, owner) && SameAbove(l, d, d')
    ensures FsOk(l, d', n, owner) && InodesOk(n) && SameFiles(d, d', n)
  {
    hide Addr, ByteAt;
    assert NotOwned(d, n, l.bmap) by {
      forall j, t | j in n && 0 <= t < SLOTS
        ensures Addr(d, n[j], t) != l.bmap
      {
        DataAddr(l, d, n, owner, j, t);
      }
    }
    UnownedWrite(l, d, d', n, owner, l.bmap);
    assert LayoutOk(l, d');
    forall b | 0 <= b < l.size
      ensures Used(l, d', b) == Used(l, d, b)
    {
      assert b / BPB <= (l.size - 1) / BPB;
    }
    hide Used;
    forall j, t | j in n && 0 <= t < SLOTS
      ensures Owns(l, d', owner, j, t, Addr(d', n[j], t))
    {
      OwnsAt(l, d, n, owner, j, t);
    }
  }
}
