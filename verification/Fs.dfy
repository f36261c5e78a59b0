/** Files as the loops of kernel/fs.c and kernel/file.c read, write and truncate them. `logged` is the
    set of blocks passed to log_write since it was last cleared. */
module Fs {
  import opened FsBits
  import opened FsMap
  import opened FsCost
  import opened FsTrunc

  const UINT := 0x1_0000_0000

  datatype WriteResult = Wrote | Rejected | CopyFailed | NoBlocks

  datatype ReadResult = ReadOk | ReadFailed | ReadPanic

  /** Of a write at off0 whose source can be read up to byte avail, the bytes in blocks copied whole. */
  function LoggedBytes(off0: nat, avail: nat): (t: int) {
    var start := (off0 + avail) / BSIZE * BSIZE;
    if start <= off0 then 0 else start - off0
  }

  /** Those that reach the file, if the copy that fails stops after `part` bytes of its block. */
  function ReachedBytes(off0: nat, avail: nat, part: nat): (t: int) {
    var t := LoggedBytes(off0, avail) + part;
    if t < avail then t else avail
  }

  /** A failed copy leaves bytes in a buffer that is not logged iff it copied anything of its last block. */
  lemma UnloggedIff(off0: nat, avail: nat, part: nat)
    ensures 0 <= LoggedBytes(off0, avail) <= ReachedBytes(off0, avail, part) <= avail
    ensures ReachedBytes(off0, avail, part) > LoggedBytes(off0, avail) <==>
            part > 0 && avail > 0 && (off0 % BSIZE + avail < BSIZE || (off0 + avail) % BSIZE != 0)
  {
    var q, r := (off0 + avail) / BSIZE, (off0 + avail) % BSIZE;
    assert off0 + avail == q * BSIZE + r;
    assert off0 == off0 / BSIZE * BSIZE + off0 % BSIZE;
  }

  /** For example, five bytes of ten at the start of a file. */
  lemma SomeBytesUnlogged()
    ensures LoggedBytes(0, 10) == 0 && ReachedBytes(0, 10, 5) == 5
  {
  }

  /** The block at which a copy fails. */
  lemma SameBlock(off0: nat, t: nat, m: nat, avail: nat)
    requires t <= avail < t + m && (off0 + t) % BSIZE + m <= BSIZE && (t == 0 || (off0 + t) % BSIZE == 0)
    ensures LoggedBytes(off0, avail) == t
    ensures forall part: nat :: ReachedBytes(off0, avail, part) == if t + part < avail then t + part else avail
  {
    var q := (off0 + t) / BSIZE;
    assert off0 + t == q * BSIZE + (off0 + t) % BSIZE;
    assert (off0 + avail) / BSIZE == q;
  }

  /** The one block that a write may leave changed and not logged: the one at which the copy failed. */
  ghost function Unlogged(disk: Disk, inodes: map<int, Inode>, i: int, off: int, r: WriteResult): (b: int)
    requires InodesOk(inodes) && i in inodes
  {
    if r == CopyFailed && 0 <= off < MAXFILE * BSIZE then
      SlotOf(off);
      Addr(disk, inodes[i], Slot(off / BSIZE))
    else -1
  }

  lemma UnloggedIs(disk: Disk, inodes: map<int, Inode>, i: int, ip: Inode, off: int)
    requires InodesOk(inodes) && i in inodes && InodeOk(ip) && ip.addrs == inodes[i].addrs
    ensures InodesOk(inodes[i := ip])
    ensures Unlogged(disk, inodes[i := ip], i, off, CopyFailed) == Unlogged(disk, inodes, i, off, CopyFailed)
  {
    if 0 <= off < MAXFILE * BSIZE {
      SlotOf(off);
    }
  }

  /** data is what file ip holds at off. */
  ghost predicate IsSlice(disk: Disk, ip: Inode, off: int, data: seq<int>)
    requires InodeOk(ip) && 0 <= off && off + |data| <= MAXFILE * BSIZE
  {
    forall k :: 0 <= k < |data| ==> data[k] == ByteAt(disk, ip, off + k)
  }

  /** The open file of `filewrite`: f->ip and f->off. */
  class File {
    const ip: int
    var off: int
    constructor (ip: int)
      ensures this.ip == ip && off == 0
    {
      this.ip, off := ip, 0;
    }
  }

  /** A transaction: the disk before and after it, as the file system sees it, and the blocks it logged. */
  datatype Txn = Txn(before: Disk, after: Disk, logged: set<int>)

  /** The transactions so far. */
  class Journal {
    ghost var txns: seq<Txn>
    constructor ()
      ensures txns == []
    {
      txns := [];
    }
  }

  /** The transactions since t0 lead from disk d0 to disk d. */
  ghost predicate Chained(t0: seq<Txn>, t: seq<Txn>, d0: Disk, d: Disk) {
    && t0 <= t
    && (if |t| == |t0| then d == d0 else t[|t0|].before == d0 && t[|t| - 1].after == d)
    && forall k :: |t0| < k < |t| ==> t[k].before == t[k - 1].after
  }

  /** Each of them logged at most n blocks. */
  ghost predicate AtMost(t0: seq<Txn>, t: seq<Txn>, n: int) {
    forall k :: |t0| <= k < |t| ==> |t[k].logged| <= n
  }

  /** Each of them logged every block it changed. */
  ghost predicate AllCover(t0: seq<Txn>, t: seq<Txn>) {
    forall k :: |t0| <= k < |t| ==> Covers(t[k].before, {}, t[k].after, t[k].logged, -1)
  }

  lemma TxnsNone(t: seq<Txn>, d: Disk)
    ensures Chained(t, t, d, d) && AllCover(t, t) && AtMost(t, t, 7) && AtMost(t, t, MAXOPBLOCKS)
  {
  }

  lemma TxnsMore(t0: seq<Txn>, t: seq<Txn>, tx: Txn, d0: Disk, d: Disk)
    requires Chained(t0, t, d0, d) && tx.before == d
    ensures Chained(t0, t + [tx], d0, tx.after)
    ensures AllCover(t0, t) && Covers(tx.before, {}, tx.after, tx.logged, -1) ==> AllCover(t0, t + [tx])
    ensures forall n :: AtMost(t0, t, n) && |tx.logged| <= n ==> AtMost(t0, t + [tx], n)
  {
    hide Covers;
  }

  /** The number of chunks that filewrite cuts n bytes into. */
  function ChunkCount(n: nat): (c: int)
    ensures n == 0 ==> c == 0
  {
    (n + MAXCHUNK - 1) / MAXCHUNK
  }

  lemma Chunks(n: int, k: int, c: int)
    requires 0 <= k < n && k == c * MAXCHUNK
    ensures n - k <= MAXCHUNK ==> c + 1 == ChunkCount(n)
    ensures n - k > MAXCHUNK ==> k + MAXCHUNK == (c + 1) * MAXCHUNK
  {
    if n - k <= MAXCHUNK {
      Quotient(n + MAXCHUNK - 1, MAXCHUNK, c + 1, n - k - 1);
    }
  }

  lemma Multiple(k: int, d: int)
    requires d > 0
    ensures k >= 1 ==> k * d >= d
    ensures k <= -1 ==> k * d <= -d
  {
  }

  lemma Quotient(x: int, d: int, q: int, r: int)
    requires 0 <= r < d && x == q * d + r
    ensures x / d == q
  {
    var q' := x / d;
    assert x == q' * d + x % d;
    assert (q - q') * d == q * d - q' * d;
    Multiple(q - q', d);
  }

  /** Every block is in use. */
  ghost predicate Full(l: Layout, disk: Disk) {
    LayoutOk(l, disk) && forall c :: 0 <= c < l.size ==> Used(l, disk, c)
  }

  /** Only addresses of inode i changed. */
  ghost predicate GrewIn(inodes: map<int, Inode>, inodes': map<int, Inode>, i: int) {
    && i in inodes && i in inodes'
    && inodes' == inodes[i := inodes[i].(addrs := inodes'[i].addrs)]
  }

  /** Only addresses of inode i changed, and its size grew to at least sz. */
  ghost predicate SizedTo(inodes: map<int, Inode>, inodes': map<int, Inode>, i: int, sz: int) {
    && i in inodes && i in inodes'
    && var size := if sz > inodes[i].size then sz else inodes[i].size;
       inodes' == inodes[i := inodes[i].(addrs := inodes'[i].addrs, size := size)]
  }

  /** Byte off of file j after the first k bytes of src went to offset off0 of file i. */
  ghost function SplicedByte(disk: Disk, inodes: map<int, Inode>, i: int, off0: int, src: seq<int>, k: int, j: int,
                             off: int): (x: int)
    requires j in inodes && InodeOk(inodes[j]) && 0 <= off < MAXFILE * BSIZE && 0 <= k <= |src|
  {
    if j == i && off0 <= off < off0 + k then src[off - off0] else ByteAt(disk, inodes[j], off)
  }

  /** The first k bytes of src went to offset off0 of file i, and no other byte of any file changed. */
  ghost predicate Spliced(disk: Disk, inodes: map<int, Inode>, disk': Disk, inodes': map<int, Inode>, i: int,
                          off0: int, src: seq<int>, k: int)
    requires InodesOk(inodes) && InodesOk(inodes') && 0 <= k <= |src|
  {
    && inodes'.Keys == inodes.Keys
    && forall j, off :: j in inodes && 0 <= off < MAXFILE * BSIZE ==>
         ByteAt(disk', inodes'[j], off) == SplicedByte(disk, inodes, i, off0, src, k, j, off)
  }

  lemma ChunkBytes(disk: Disk, inodes: map<int, Inode>, disk1: Disk, disk2: Disk, inodes': map<int, Inode>, i: int,
                   off0: int, a: int, chunk: seq<int>, data: Block)
    requires InodesOk(inodes) && InodesOk(inodes') && i in inodes && 0 <= off0 < MAXFILE * BSIZE
    requires SameBytes(disk, inodes, disk1, inodes') && 0 < a < |disk1|
    requires a == Addr(disk1, inodes'[i], Slot(off0 / BSIZE)) && off0 % BSIZE + |chunk| <= BSIZE
    requires data == disk1[a][..off0 % BSIZE] + chunk + disk1[a][off0 % BSIZE + |chunk|..]
    requires forall j, off :: j in inodes' && 0 <= off < MAXFILE * BSIZE ==>
               ByteAt(disk2, inodes'[j], off) == WrittenByte(disk1, inodes', i, off0 / BSIZE, data, j, off)
    ensures Spliced(disk, inodes, disk2, inodes', i, off0, chunk, |chunk|)
  {
    hide Addr, Slot;
    forall j, off | j in inodes && 0 <= off < MAXFILE * BSIZE
      ensures ByteAt(disk2, inodes'[j], off) == SplicedByte(disk, inodes, i, off0, chunk, |chunk|, j, off)
    {
      assert ByteAt(disk1, inodes'[j], off) == ByteAt(disk, inodes[j], off);
      if j == i && off / BSIZE == off0 / BSIZE {
        assert ByteAt(disk1, inodes'[i], off) == disk1[a][off % BSIZE];
        InChunk(disk1[a], off0 % BSIZE, chunk, off % BSIZE);
      }
    }
  }

  lemma InChunk(b: Block, o: int, chunk: seq<int>, x: int)
    requires 0 <= o && o + |chunk| <= BSIZE && 0 <= x < BSIZE
    ensures (b[..o] + chunk + b[o + |chunk|..])[x] == if o <= x < o + |chunk| then chunk[x - o] else b[x]
  {
  }

  lemma SplicedMore(d0: Disk, n0: map<int, Inode>, d1: Disk, n1: map<int, Inode>, d2: Disk, n2: map<int, Inode>,
                    i: int, off0: int, src: seq<int>, t: int, e: int, m: int)
    requires InodesOk(n0) && InodesOk(n1) && InodesOk(n2) && 0 <= t && 0 <= m && t + m <= e <= |src|
    requires Spliced(d0, n0, d1, n1, i, off0, src, t)
    requires Spliced(d1, n1, d2, n2, i, off0 + t, src[t..e], m)
    ensures Spliced(d0, n0, d2, n2, i, off0, src, t + m)
  {
    hide ByteAt;
    forall j, off | j in n0 && 0 <= off < MAXFILE * BSIZE
      ensures ByteAt(d2, n2[j], off) == SplicedByte(d0, n0, i, off0, src, t + m, j, off)
    {
      assert ByteAt(d2, n2[j], off) == SplicedByte(d1, n1, i, off0 + t, src[t..e], m, j, off);
      assert ByteAt(d1, n1[j], off) == SplicedByte(d0, n0, i, off0, src, t, j, off);
    }
  }

  lemma SplicedResize(d0: Disk, n0: map<int, Inode>, d1: Disk, n1: map<int, Inode>, i: int, ip: Inode, off0: int,
                      src: seq<int>, k: int)
    requires InodesOk(n0) && InodesOk(n1) && InodeOk(ip) && i in n1 && ip.addrs == n1[i].addrs && 0 <= k <= |src|
    requires Spliced(d0, n0, d1, n1, i, off0, src, k)
    ensures InodesOk(n1[i := ip]) && Spliced(d0, n0, d1, n1[i := ip], i, off0, src, k)
  {
    forall j, off | j in n1 && 0 <= off < MAXFILE * BSIZE
      ensures ByteAt(d1, n1[i := ip][j], off) == ByteAt(d1, n1[j], off)
    {
    }
  }

  lemma ResizeKeeps(l: Layout, disk: Disk, inodes: map<int, Inode>, owner: map<int, (int, int)>, i: int, ip: Inode)
    requires FsOk(l, disk, inodes, owner) && i in inodes && InodeOk(ip) && ip.addrs == inodes[i].addrs
    ensures FsOk(l, disk, inodes[i := ip], owner)
  {
    hide Used;
    var resized := inodes[i := ip];
    forall j, s | j in resized && 0 <= s < SLOTS
      ensures Owns(l, disk, owner, j, s, Addr(disk, resized[j], s))
    {
      OwnsAt(l, disk, inodes, owner, j, s);
      assert Addr(disk, resized[j], s) == Addr(disk, inodes[j], s);
    }
  }

  lemma SplicedNone(disk: Disk, inodes: map<int, Inode>, i: int, off0: int, src: seq<int>)
    requires InodesOk(inodes)
    ensures Spliced(disk, inodes, disk, inodes, i, off0, src, 0)
    ensures Kept(disk, inodes, disk, inodes)
  {
  }

  lemma NoLogs(l: Layout, d0: Disk, n0: map<int, Inode>, i: int, s: int, log: set<int>)
    requires InodesOk(n0) && i in n0 && 0 <= s < SLOTS
    ensures LogsSlot(l, d0, n0, log, d0, n0, log, i, s)
    ensures Kept(d0, n0, d0, n0)
  {
  }

  /** One gained address: what `bmap` promises for that slot. */
  lemma GainedSlot(l: Layout, d0: Disk, n0: map<int, Inode>, log0: set<int>, d: Disk, n: map<int, Inode>,
                   log: set<int>, i: int, s: int, a: int)
    requires InodesOk(n0) && InodesOk(n) && i in n0 && i in n && 0 <= s < SLOTS && a != 0
    requires Addr(d0, n0[i], s) == 0 && Gained(d0, n0, d, n, i, s, a)
    requires log <= log0 + {a, BitmapBlock(l, a)} + if s > INDIRECT then {n[i].addrs[INDIRECT]} else {}
    requires s > INDIRECT ==> n[i].addrs[INDIRECT] != 0
    ensures Kept(d0, n0, d, n) && LogsSlot(l, d0, n0, log0, d, n, log, i, s)
  {
    hide BitmapBlock, Word;
    if s > INDIRECT {
      assert Addr(d, n[i], INDIRECT) == n[i].addrs[INDIRECT];
    }
  }

  /** First the indirect block, then an entry of it. */
  lemma TwoSlots(l: Layout, d0: Disk, n0: map<int, Inode>, log0: set<int>, d1: Disk, n1: map<int, Inode>,
                 log1: set<int>, d2: Disk, n2: map<int, Inode>, log2: set<int>, i: int, s: int)
    requires InodesOk(n0) && InodesOk(n1) && InodesOk(n2) && i in n0 && i in n1 && i in n2 && 0 <= s < SLOTS
    requires Kept(d0, n0, d1, n1) && Kept(d1, n1, d2, n2)
    requires LogsSlot(l, d0, n0, log0, d1, n1, log1, i, INDIRECT)
    requires LogsSlot(l, d1, n1, log1, d2, n2, log2, i, s)
    ensures Kept(d0, n0, d2, n2) && LogsSlot(l, d0, n0, log0, d2, n2, log2, i, s)
  {
    KeptTrans(d0, n0, d1, n1, d2, n2);
    CostLater(l, d0, n0, d1, n1, d2, n2, i, INDIRECT);
    CostLater(l, d0, n0, d1, n1, d2, n2, i, s);
    hide Cost, Kept;
  }

  /** Writing the contents of the block in slot s, with or without logging it. */
  lemma SlotWritten(l: Layout, d0: Disk, n0: map<int, Inode>, log0: set<int>, d1: Disk, d2: Disk, n: map<int, Inode>,
                    log: set<int>, i: int, s: int, a: int)
    requires InodesOk(n0) && InodesOk(n) && i in n0 && i in n && 0 <= s < SLOTS
    requires Kept(d0, n0, d1, n) && LogsSlot(l, d0, n0, log0, d1, n, log, i, s)
    requires forall j, t :: j in n && 0 <= t < SLOTS ==> Addr(d2, n[j], t) == Addr(d1, n[j], t)
    requires a == Addr(d1, n[i], s) != 0
    ensures Kept(d0, n0, d2, n)
    ensures LogsSlot(l, d0, n0, log0, d2, n, log, i, s) && LogsSlot(l, d0, n0, log0, d2, n, log + {a}, i, s)
  {
    hide Addr, BitmapBlock;
    assert Cost(l, d0, n0, d2, n, i, s) == Cost(l, d0, n0, d1, n, i, s);
    assert Cost(l, d0, n0, d2, n, i, INDIRECT) == Cost(l, d0, n0, d1, n, i, INDIRECT);
  }

  lemma LogsNone(l: Layout, d0: Disk, n0: map<int, Inode>, log0: set<int>, i: int, lo: int, hi: int)
    requires InodesOk(n0) && i in n0
    ensures LogsOnly(l, d0, n0, log0, d0, n0, log0, i, lo, hi)
  {
  }

  lemma LogsResize(l: Layout, d0: Disk, n0: map<int, Inode>, log0: set<int>, d: Disk, n: map<int, Inode>,
                   log: set<int>, i: int, ip: Inode, lo: int, hi: int)
    requires InodesOk(n0) && InodesOk(n) && i in n0 && i in n && InodeOk(ip) && ip.addrs == n[i].addrs
    requires LogsOnly(l, d0, n0, log0, d, n, log, i, lo, hi) && Kept(d0, n0, d, n)
    ensures InodesOk(n[i := ip]) && Kept(d0, n0, d, n[i := ip])
    ensures LogsOnly(l, d0, n0, log0, d, n[i := ip], log + {InodeBlock(l, i)}, i, lo, hi)
  {
    var n' := n[i := ip];
    assert forall j, s :: j in n && 0 <= s < SLOTS ==> Addr(d, n'[j], s) == Addr(d, n[j], s);
    hide Addr, InodeBlock;
    assert forall s :: 0 <= s < SLOTS ==> Cost(l, d0, n0, d, n', i, s) == Cost(l, d0, n0, d, n, i, s);
    hide Cost;
    forall m | m in log && m !in log0
      ensures LoggedFor(l, d0, n0, d, n', i, lo, hi, m)
    {
      if exists bn :: Touches(lo, hi, bn) && m in Cost(l, d0, n0, d, n, i, Slot(bn)) {
        var bn :| Touches(lo, hi, bn) && m in Cost(l, d0, n0, d, n, i, Slot(bn));
        assert m in Cost(l, d0, n0, d, n', i, Slot(bn));
      }
    }
  }

  class FileSystem {
    const l: Layout
    var disk: Disk
    var inodes: map<int, Inode>
    ghost var owner: map<int, (int, int)>
    ghost var logged: set<int>

    ghost predicate Valid()
      reads this
    {
      FsOk(l, disk, inodes, owner)
    }

    constructor (l: Layout, disk: Disk, inodes: map<int, Inode>, ghost owner: map<int, (int, int)>)
      requires FsOk(l, disk, inodes, owner)
      ensures Valid() && this.l == l && this.disk == disk && this.inodes == inodes && logged == {}
    {
      this.l, this.disk, this.inodes, this.owner, this.logged := l, disk, inodes, owner, {};
    }

    /** `balloc`: the first free block, marked and zeroed; 0 is the panic "out of blocks". */
    method Balloc() returns (a: int)
      requires Valid()
      modifies this`disk, this`logged
      ensures LayoutOk(l, old(disk))
      ensures a == 0 <==> forall c :: 0 <= c < l.size ==> Used(l, old(disk), c)
      ensures a == 0 ==> disk == old(disk) && logged == old(logged)
      ensures a != 0 ==>
                && 0 < a < l.size && !Used(l, old(disk), a) && (forall c :: 0 <= c < a ==> Used(l, old(disk), c))
                && 0 <= BitmapBlock(l, a) < l.data <= a && disk == Allocated(l, old(disk), a)
                && logged == old(logged) + {BitmapBlock(l, a), a}
      ensures Covers(old(disk), old(logged), disk, logged, -1)
    {
      hide BlockBit, OwnersOk, InodesOk;
      var b := 0;
      while b < l.size
        invariant 0 <= b && b % BPB == 0
        invariant disk == old(disk) && logged == old(logged)
        invariant forall c :: 0 <= c < b && c < l.size ==> Used(l, disk, c)
      {
        var m := l.bmap + b / BPB;
        var bi := 0;
        while bi < BPB && b + bi < l.size
          invariant 0 <= bi <= BPB
          invariant disk == old(disk) && logged == old(logged)
          invariant forall c :: 0 <= c < b + bi && c < l.size ==> Used(l, disk, c)
        {
          assert (b + bi) / BPB == b / BPB && (b + bi) % BPB == bi;
          if !BlockBit(disk[m], bi) {
            a := b + bi;
            assert !Used(l, disk, a);
            assert a >= l.data;
            disk := disk[m := PutBlockBit(disk[m], bi, true)];
            logged := logged + {m};
            disk := disk[a := ZeroBlock()];
            logged := logged + {a};
            return;
          }
          assert Used(l, disk, b + bi);
          bi := bi + 1;
        }
        b := b + BPB;
      }
      a := 0;
    }

    /** Fill an empty slot of the inode itself with a new block. */
    method AddDirect(i: int, s: int) returns (a: int)
      requires Valid() && i in inodes && 0 <= s <= INDIRECT && |inodes[i].addrs| == 13 && inodes[i].addrs[s] == 0
      modifies this
      ensures Valid() && InodesOk(inodes) && InodesOk(old(inodes)) && SameBytes(old(disk), old(inodes), disk, inodes)
      ensures a == 0 ==> inodes == old(inodes) && disk == old(disk) && logged == old(logged) && Full(l, disk)
      ensures a != 0 ==> inodes == old(inodes)[i := old(inodes)[i].(addrs := old(inodes)[i].addrs[s := a])]
      ensures a != 0 ==> Gained(old(disk), old(inodes), disk, inodes, i, s, a)
      ensures a != 0 ==> logged == old(logged) + {a, BitmapBlock(l, a)}
      ensures Covers(old(disk), old(logged), disk, logged, -1)
    {
      hide Used, Addr, ByteAt, BitmapBlock, FreshBlock, OwnersOk, Covers;
      InodesOf(l, disk, inodes, owner);
      a := Balloc();
      if a == 0 {
        SameBytesRefl(disk, inodes);
        return;
      }
      AllocKeeps(l, old(disk), inodes, owner, a);
      ghost var disk1 := disk;
      FreshOne(l, disk, inodes, a);
      DirectGain(l, disk, inodes, owner, i, s, a);
      inodes := inodes[i := inodes[i].(addrs := inodes[i].addrs[s := a])];
      owner := owner[a := (i, s)];
      SameBytesTrans(old(disk), old(inodes), disk1, old(inodes), disk, inodes);
      GainedAfterAlloc(old(disk), disk1, old(inodes), disk, inodes, i, s, a);
    }

    /** Fill an empty entry of the indirect block with a new block. */
    method AddIndirect(i: int, n: int) returns (a: int)
      requires Valid() && i in inodes && InodeOk(inodes[i]) && 0 <= n < NINDIRECT
      requires 0 < inodes[i].addrs[INDIRECT] && Addr(disk, inodes[i], 13 + n) == 0
      modifies this
      ensures Valid() && InodesOk(inodes) && SameBytes(old(disk), old(inodes), disk, inodes)
      ensures inodes == old(inodes)
      ensures a == 0 ==> disk == old(disk) && logged == old(logged) && Full(l, disk)
      ensures a != 0 ==> Gained(old(disk), old(inodes), disk, inodes, i, 13 + n, a)
      ensures a != 0 ==> logged == old(logged) + {a, BitmapBlock(l, a)} + {inodes[i].addrs[INDIRECT]}
      ensures Covers(old(disk), old(logged), disk, logged, -1)
    {
      hide Used, Addr, ByteAt, BitmapBlock, FreshBlock, OwnersOk, Covers;
      InodesOf(l, disk, inodes, owner);
      a := Balloc();
      if a == 0 {
        SameBytesRefl(disk, inodes);
        return;
      }
      AllocKeeps(l, old(disk), inodes, owner, a);
      ghost var disk1 := disk;
      FreshOne(l, disk, inodes, a);
      IndirectGain(l, disk, inodes, owner, i, n, a);
      var ind := inodes[i].addrs[INDIRECT];
      CoversWrite(disk, logged, ind, PutWord(disk[ind], n, a));
      ghost var log1 := logged;
      disk := disk[ind := PutWord(disk[ind], n, a)];
      logged := logged + {ind};
      CoversTrans(old(disk), old(logged), disk1, log1, disk, logged, -1);
      owner := owner[a := (i, 13 + n)];
      SameBytesTrans(old(disk), old(inodes), disk1, old(inodes), disk, inodes);
      GainedAfterAlloc(old(disk), disk1, old(inodes), disk, inodes, i, 13 + n, a);
    }

    /** The first part of `bmap`: an address kept in the inode itself. */
    method MapDirect(i: int, s: int) returns (a: int)
      requires Valid() && i in inodes && 0 <= s <= INDIRECT
      modifies this
      ensures Valid() && InodesOk(inodes) && InodesOk(old(inodes)) && SameBytes(old(disk), old(inodes), disk, inodes)
      ensures GrewIn(old(inodes), inodes, i) && Kept(old(disk), old(inodes), disk, inodes)
      ensures a == inodes[i].addrs[s]
      ensures a == 0 ==> Full(l, disk)
      ensures old(inodes)[i].addrs[s] != 0 ==> inodes == old(inodes) && disk == old(disk) && logged == old(logged)
      ensures LogsSlot(l, old(disk), old(inodes), old(logged), disk, inodes, logged, i, s)
      ensures Covers(old(disk), old(logged), disk, logged, -1)
    {
      hide Used, ByteAt, OwnersOk, SameBytes, BitmapBlock, Word, Kept, LogsSlot, Gained, Covers;
      InodesOf(l, disk, inodes, owner);
      SameBytesRefl(disk, inodes);
      NoLogs(l, disk, inodes, i, s, logged);
      CoversNone(disk, logged);
      a := inodes[i].addrs[s];
      if a == 0 {
        a := AddDirect(i, s);
        if a != 0 {
          GainedSlot(l, old(disk), old(inodes), old(logged), disk, inodes, logged, i, s, a);
        }
      }
    }

    /** The second part of `bmap`: an address kept in the indirect block. */
    method MapIndirect(i: int, n: int) returns (a: int)
      requires Valid() && i in inodes && 0 <= n < NINDIRECT && InodeOk(inodes[i])
               && 0 < inodes[i].addrs[INDIRECT] < l.size
      modifies this
      ensures Valid() && InodesOk(inodes) && inodes == old(inodes) && SameBytes(old(disk), old(inodes), disk, inodes)
      ensures Kept(old(disk), old(inodes), disk, inodes)
      ensures a == Addr(disk, inodes[i], 13 + n)
      ensures a == 0 ==> Full(l, disk)
      ensures Addr(old(disk), inodes[i], 13 + n) != 0 ==> disk == old(disk) && logged == old(logged)
      ensures LogsSlot(l, old(disk), old(inodes), old(logged), disk, inodes, logged, i, 13 + n)
      ensures Covers(old(disk), old(logged), disk, logged, -1)
    {
      hide Used, ByteAt, OwnersOk, SameBytes, BitmapBlock, Word, Kept, LogsSlot, Covers;
      InodesOf(l, disk, inodes, owner);
      SameBytesRefl(disk, inodes);
      NoLogs(l, disk, inodes, i, 13 + n, logged);
      CoversNone(disk, logged);
      a := Word(disk[inodes[i].addrs[INDIRECT]], n);
      if a == 0 {
        a := AddIndirect(i, n);
        if a != 0 {
          GainedSlot(l, old(disk), old(inodes), old(logged), disk, inodes, logged, i, 13 + n, a);
        }
      }
    }

    /** `bmap`: the address of block bn of file i, allocated if there is none; 0 is the panic of
        `balloc`. No byte of any file changes. */
    method Bmap(i: int, bn: int) returns (a: int)
      requires Valid() && i in inodes && 0 <= bn < MAXFILE
      modifies this
      ensures Valid() && InodesOk(inodes) && InodesOk(old(inodes)) && SameBytes(old(disk), old(inodes), disk, inodes)
      ensures GrewIn(old(inodes), inodes, i) && Kept(old(disk), old(inodes), disk, inodes)
      ensures a == 0 ==> Full(l, disk)
      ensures a == Addr(disk, inodes[i], Slot(bn)) && (a == 0 || l.data <= a < l.size)
      ensures bn < NDIRECT ==> a == inodes[i].addrs[bn]
      ensures bn >= NDIRECT && a != 0 ==>
                var ind := inodes[i].addrs[INDIRECT]; 0 < ind < |disk| && a == Word(disk[ind], bn - NDIRECT)
      ensures Addr(old(disk), old(inodes)[i], Slot(bn)) != 0 ==>
                inodes == old(inodes) && disk == old(disk) && logged == old(logged)
      ensures LogsSlot(l, old(disk), old(inodes), old(logged), disk, inodes, logged, i, Slot(bn))
      ensures Covers(old(disk), old(logged), disk, logged, -1)
    {
      hide Used, ByteAt, FsOk, SameBytes, BitmapBlock, Word, Kept, LogsSlot, Full, Covers;
      InodesOf(l, disk, inodes, owner);
      if bn < NDIRECT {
        a := MapDirect(i, bn);
        DataAddr(l, disk, inodes, owner, i, bn);
        return;
      }
      var n := bn - NDIRECT;
      var ind := MapDirect(i, INDIRECT);
      if ind == 0 {
        assert Addr(old(disk), old(inodes)[i], Slot(bn)) == 0;
        LogsWider(l, old(disk), old(inodes), old(logged), disk, inodes, logged, i, Slot(bn));
        return 0;
      }
      DataAddr(l, disk, inodes, owner, i, INDIRECT);
      InodesOf(l, disk, inodes, owner);
      ghost var disk1, inodes1, logged1 := disk, inodes, logged;
      a := MapIndirect(i, n);
      SameBytesTrans(old(disk), old(inodes), disk1, inodes1, disk, inodes);
      TwoSlots(l, old(disk), old(inodes), old(logged), disk1, inodes1, logged1, disk, inodes, logged, i, 13 + n);
      CoversTrans(old(disk), old(logged), disk1, logged1, disk, logged, -1);
      DataAddr(l, disk, inodes, owner, i, 13 + n);
    }

    /** One iteration of the loop of `writei`: the bytes of chunk go into one block. A copy that fails
        part way leaves what it copied in the buffer and does not log it. */
    method WriteChunk(i: int, off: int, chunk: seq<int>, log: bool) returns (a: int)
      requires Valid() && i in inodes && 0 <= off < MAXFILE * BSIZE && off % BSIZE + |chunk| <= BSIZE
      modifies this
      ensures Valid() && InodesOk(inodes) && InodesOk(old(inodes))
      ensures GrewIn(old(inodes), inodes, i) && Kept(old(disk), old(inodes), disk, inodes)
      ensures Spliced(old(disk), old(inodes), disk, inodes, i, off, chunk, if a == 0 then 0 else |chunk|)
      ensures a == 0 ==> Full(l, disk)
      ensures a != 0 ==> a == Addr(disk, inodes[i], Slot(off / BSIZE))
      ensures LogsSlot(l, old(disk), old(inodes), old(logged), disk, inodes, logged, i, Slot(off / BSIZE))
      ensures Covers(old(disk), old(logged), disk, logged, if log || a == 0 then -1 else a)
    {
      hide ByteAt, FsOk, BitmapBlock, Word, Addr, Slot, Full, Kept, LogsSlot, Covers;
      SlotOf(off);
      a := Bmap(i, off / BSIZE);
      InodesOf(l, disk, inodes, owner);
      if a == 0 {
        return;
      }
      ghost var disk1 := disk;
      var o := off % BSIZE;
      var data := disk[a][..o] + chunk + disk[a][o + |chunk|..];
      DataWrite(l, disk, inodes, owner, i, off / BSIZE, a, data);
      SlotWritten(l, old(disk), old(inodes), old(logged), disk, disk[a := data], inodes, logged, i,
          Slot(off / BSIZE), a);
      CoversWrite(disk, logged, a, data);
      ghost var log1 := logged;
      disk := disk[a := data];
      if log {
        logged := logged + {a};
      }
      CoversTrans(old(disk), old(logged), disk1, log1, disk, logged, if log then -1 else a);
      ChunkBytes(old(disk), old(inodes), disk1, disk, inodes, i, off, a, chunk, data);
    }

    /** Iterations so far: t bytes of src went to off0 of file i since the state d0, n0, log0. */
    ghost predicate Writing(d0: Disk, n0: map<int, Inode>, log0: set<int>, i: int, off0: int, src: seq<int>, t: int)
      requires InodesOk(n0) && 0 <= t <= |src|
      reads this
    {
      && Valid() && InodesOk(inodes) && GrewIn(n0, inodes, i) && Kept(d0, n0, disk, inodes)
      && Spliced(d0, n0, disk, inodes, i, off0, src, t)
      && LogsOnly(l, d0, n0, log0, disk, inodes, logged, i, off0, off0 + |src|)
    }

    method WriteStep(i: int, off0: int, src: seq<int>, t: int, got: int, log: bool, ghost d0: Disk,
                     ghost n0: map<int, Inode>, ghost log0: set<int>)
        returns (a: int)
      requires InodesOk(n0) && 0 <= off0 && off0 + |src| <= MAXFILE * BSIZE && 0 <= t < |src| && 0 <= got
               && t + got <= |src|
      requires (off0 + t) % BSIZE + got <= BSIZE
      requires Writing(d0, n0, log0, i, off0, src, t) && Filled(disk, inodes[i], off0, off0 + t)
      requires Covers(d0, log0, disk, logged, -1)
      modifies this
      ensures Writing(d0, n0, log0, i, off0, src, if a == 0 then t else t + got)
      ensures a == 0 ==> Full(l, disk)
      ensures Covers(d0, log0, disk, logged, if log || a == 0 then -1 else a)
      ensures a != 0 ==> InodesOk(inodes) && a == Addr(disk, inodes[i], Slot((off0 + t) / BSIZE))
      ensures a != 0 ==> Filled(disk, inodes[i], off0, off0 + t + got)
    {
      hide Used, ByteAt, OwnersOk, BitmapBlock, Word, Addr, Slot, Spliced, LogsOnly, MetaUsed, Kept, Filled,
          LogsSlot, FsOk, Full, Covers;
      SlotOf(off0 + t);
      a := WriteChunk(i, off0 + t, src[t..t + got], log);
      SplicedMore(d0, n0, old(disk), old(inodes), disk, inodes, i, off0, src, t, t + got, if a == 0 then 0 else got);
      LogsMore(l, d0, n0, log0, old(disk), old(inodes), old(logged), disk, inodes, logged, i, off0, off0 + |src|,
          off0 + t);
      CoversTrans(d0, log0, old(disk), old(logged), disk, logged, if log || a == 0 then -1 else a);
      KeptTrans(d0, n0, old(disk), old(inodes), disk, inodes);
      if a != 0 {
        FilledMore(old(disk), old(inodes), disk, inodes, i, off0, off0 + t, off0 + t + got);
      }
    }

    /** `writei` of the bytes src at offset off0. The source is readable up to byte `avail`; a copy
        that runs past it fails after `part` bytes of the block at hand. A failed copy still updates the
        size, because the test `n > 0` is on an unsigned n that was set to -1. `done` counts the bytes
        that reached the file, of which the first `tot` were logged. NoBlocks is the panic of `balloc`. */
    method Writei(i: int, src: seq<int>, avail: nat, part: nat, off0: int)
        returns (r: WriteResult, ghost tot: int, ghost done: int)
      requires Valid() && i in inodes
      requires 0 <= off0 < UINT && |src| < UINT
      modifies this
      ensures Valid() && InodesOk(inodes) && InodesOk(old(inodes)) && 0 <= tot <= done <= |src|
      ensures r == Rejected <==>
                off0 > old(inodes)[i].size || (off0 + |src|) % UINT < off0 || (off0 + |src|) % UINT > MAXFILE * BSIZE
      ensures r == Rejected ==> disk == old(disk) && inodes == old(inodes) && logged == old(logged) && done == 0
      ensures r == Wrote ==> tot == done == |src| <= avail
      ensures r == CopyFailed ==>
                avail < |src| && tot == LoggedBytes(off0, avail) && done == ReachedBytes(off0, avail, part)
      ensures r == NoBlocks ==> Full(l, disk)
      ensures i in inodes && Covers(old(disk), old(logged), disk, logged, Unlogged(disk, inodes, i, off0 + tot, r))
      ensures (r == Wrote && |src| > 0) || r == CopyFailed ==> InodeBlock(l, i) in logged
      ensures Spliced(old(disk), old(inodes), disk, inodes, i, off0, src, done)
      ensures SizedTo(old(inodes), inodes, i, if r == Rejected || r == NoBlocks then 0 else off0 + tot)
      ensures r == Wrote ==> Filled(disk, inodes[i], off0, off0 + |src|)
      ensures r != NoBlocks && AllDense(old(disk), old(inodes)) ==> AllDense(disk, inodes)
      ensures r != Rejected ==>
                LogsOnly(l, old(disk), old(inodes), old(logged), disk, inodes, logged, i, off0, off0 + |src|)
    {
      hide FsOk, ByteAt, Spliced, LogsOnly, Kept, Filled, AllDense, Full, Covers, LoggedBytes, ReachedBytes;
      InodesOf(l, disk, inodes, owner);
      tot, done := 0, 0;
      SplicedNone(disk, inodes, i, off0, src);
      CoversNone(disk, logged);
      var n := |src|;
      if off0 > inodes[i].size || (off0 + n) % UINT < off0 {
        return Rejected, tot, done;
      }
      if (off0 + n) % UINT > MAXFILE * BSIZE {
        return Rejected, tot, done;
      }
      var failed, full, t;
      failed, full, t, done := WriteBlocks(i, src, avail, part, off0);
      tot := t;
      if full {
        return NoBlocks, tot, done;
      }
      if failed || n > 0 {
        var ip := inodes[i];
        if off0 + t > ip.size {
          ip := ip.(size := off0 + t);
        }
        FinishWrite(old(disk), old(inodes), old(logged), i, off0, src, t, done, ip);
        CoversMore(old(disk), old(logged), disk, logged,
            Unlogged(disk, inodes, i, off0 + t, if failed then CopyFailed else Wrote), InodeBlock(l, i));
        UnloggedIs(disk, inodes, i, ip, off0 + t);
        inodes := inodes[i := ip];
        logged := logged + {InodeBlock(l, i)};
      }
      r := if failed then CopyFailed else Wrote;
    }

    /** The loop of `writei`: t bytes are in blocks that were logged. */
    method WriteBlocks(i: int, src: seq<int>, avail: nat, part: nat, off0: int)
        returns (failed: bool, full: bool, t: int, ghost done: int)
      requires Valid() && i in inodes && 0 <= off0 && off0 + |src| <= MAXFILE * BSIZE
      modifies this
      ensures InodesOk(old(inodes)) && 0 <= t <= done <= |src|
      ensures Writing(old(disk), old(inodes), old(logged), i, off0, src, done)
      ensures !full ==> Filled(disk, inodes[i], off0, off0 + t)
      ensures full ==> Full(l, disk) && !failed && t == done
      ensures !failed && !full ==> t == done == |src| <= avail
      ensures src == [] ==> disk == old(disk) && inodes == old(inodes)
      ensures failed ==> avail < |src| && t == LoggedBytes(off0, avail) && done == ReachedBytes(off0, avail, part)
      ensures Covers(old(disk), old(logged), disk, logged,
                     Unlogged(disk, inodes, i, off0 + t, if failed then CopyFailed else Wrote))
    {
      hide FsOk, ByteAt, Spliced, LogsOnly, Kept, Filled, Full, Covers, LoggedBytes, ReachedBytes, Addr;
      InodesOf(l, disk, inodes, owner);
      failed, full, t, done := false, false, 0, 0;
      SplicedNone(disk, inodes, i, off0, src);
      CoversNone(disk, logged);
      LogsNone(l, disk, inodes, logged, i, off0, off0 + |src|);
      FilledNone(disk, inodes[i], off0);
      var n := |src|;
      while t < n
        invariant 0 <= t <= n && !failed && !full && done == t <= avail && (t == 0 || t == n || (off0 + t) % BSIZE == 0)
        invariant Writing(old(disk), old(inodes), old(logged), i, off0, src, t)
        invariant Filled(disk, inodes[i], off0, off0 + t) && Covers(old(disk), old(logged), disk, logged, -1)
        invariant t == 0 ==> disk == old(disk) && inodes == old(inodes)
      {
        var m := if n - t < BSIZE - (off0 + t) % BSIZE then n - t else BSIZE - (off0 + t) % BSIZE;
        failed := t + m > avail;
        var got := if !failed then m else if t + part < avail then part else avail - t;
        var a := WriteStep(i, off0, src, t, got, !failed, old(disk), old(inodes), old(logged));
        if a == 0 {
          failed, full := false, true;
          return;
        }
        done := done + got;
        if failed {
          SameBlock(off0, t, m, avail);
          FilledLess(disk, inodes[i], off0, off0 + t, off0 + done);
          break;
        }
        t := t + m;
      }
    }

    /** Iterations so far: data was read at off0 of file i since the state d0, n0, and hole is a block that
        had no address then and was touched, or -1. */
    ghost predicate Reading(d0: Disk, n0: map<int, Inode>, i: int, off0: int, data: seq<int>, hole: int)
      requires InodesOk(n0) && 0 <= off0 && off0 + |data| <= MAXFILE * BSIZE
      reads this
    {
      && Valid() && InodesOk(inodes) && SameBytes(d0, n0, disk, inodes)
      && GrewIn(n0, inodes, i) && Kept(d0, n0, disk, inodes)
      && IsSlice(d0, n0[i], off0, data)
      && (if hole == -1 then Filled(d0, n0[i], off0, off0 + |data|) else HoleFilled(d0, n0[i], disk, inodes[i], hole))
    }

    /** One iteration of the loop of `readi`. */
    method ReadBlock(i: int, off0: int, data: seq<int>, m: int, ghost d0: Disk, ghost n0: map<int, Inode>,
                     ghost hole0: int)
        returns (a: int, ghost hole: int)
      requires InodesOk(n0) && 0 <= off0 && 0 < m && off0 + |data| + m <= MAXFILE * BSIZE
               && (off0 + |data|) % BSIZE + m <= BSIZE
      requires Reading(d0, n0, i, off0, data, hole0)
      modifies this
      ensures Valid() && InodesOk(inodes) && SameBytes(d0, n0, disk, inodes) && GrewIn(n0, inodes, i)
              && Kept(d0, n0, disk, inodes)
      ensures a == 0 ==> Full(l, disk)
      ensures a != 0 ==> var o := (off0 + |data|) % BSIZE;
              0 < a < |disk| && Reading(d0, n0, i, off0, data + disk[a][o..o + m], hole)
      ensures var s := Slot((off0 + |data|) / BSIZE);
              0 <= s < SLOTS && InodesOk(old(inodes)) &&
              (Addr(old(disk), old(inodes)[i], s) != 0 ==>
                 a != 0 && disk == old(disk) && inodes == old(inodes) && logged == old(logged))
    {
      hide ByteAt, FsOk, Addr, Slot, Full, Kept, LogsSlot, SameBytes, Filled;
      var off := off0 + |data|;
      hole := hole0;
      SlotOf(off);
      a := Bmap(i, off / BSIZE);
      InodesOf(l, disk, inodes, owner);
      SameBytesTrans(d0, n0, old(disk), old(inodes), disk, inodes);
      KeptTrans(d0, n0, old(disk), old(inodes), disk, inodes);
      if a != 0 {
        SliceMore(d0, n0, disk, inodes, i, off0, data, a, m);
        if hole != -1 {
          HoleKept(d0, n0, old(disk), old(inodes), disk, inodes, i, hole);
        } else if Addr(d0, n0[i], Slot(off / BSIZE)) == 0 {
          hole := off / BSIZE;
        } else {
          FilledOn(d0, n0[i], off0, off, off + m);
        }
      }
    }

    /** `readi` into a buffer with room for `room` bytes. `fileread` calls it outside transactions; a file
        without holes is read without a change to the disk or the log. */
    method Readi(i: int, off0: int, n: int, room: nat) returns (r: ReadResult, data: seq<int>)
      requires Valid() && i in inodes && 0 <= off0 < UINT && 0 <= n < UINT
      modifies this
      ensures Valid() && InodesOk(inodes) && InodesOk(old(inodes)) && SameBytes(old(disk), old(inodes), disk, inodes)
      ensures GrewIn(old(inodes), inodes, i) && Kept(old(disk), old(inodes), disk, inodes)
      ensures var left := old(inodes)[i].size - off0;
              var k := if left < 0 || off0 + n >= UINT then 0 else if n < left then n else left;
              var whole := Filled(old(disk), old(inodes)[i], off0, off0 + k);
              && (r == ReadOk ==>
                     |data| == k <= room
                     && (k == 0 || (off0 + k <= MAXFILE * BSIZE && IsSlice(old(disk), old(inodes)[i], off0, data))))
              && (r == ReadFailed ==> room < k)
              && (r == ReadPanic ==> Full(l, disk))
              && (r == ReadOk ==> (disk == old(disk) && inodes == old(inodes) && logged == old(logged) <==> whole))
              && (whole ==> r != ReadPanic && disk == old(disk) && inodes == old(inodes) && logged == old(logged))
      ensures Dense(old(disk), old(inodes)[i]) ==>
                r != ReadPanic && disk == old(disk) && inodes == old(inodes) && logged == old(logged)
    {
      hide ByteAt, FsOk, Addr, Slot, Full, Kept, LogsSlot, SameBytes, Filled, Dense, HoleFilled;
      InodesOf(l, disk, inodes, owner);
      SameBytesRefl(disk, inodes);
      SplicedNone(disk, inodes, i, off0, []);
      data := [];
      if off0 > inodes[i].size || (off0 + n) % UINT < off0 {
        FilledNone(disk, inodes[i], off0);
        return ReadOk, [];
      }
      var k := n;
      if (off0 + n) % UINT > inodes[i].size {
        k := inodes[i].size - off0;
      }
      ghost var whole := Filled(disk, inodes[i], off0, off0 + k);
      if Dense(disk, inodes[i]) {
        DenseFilled(disk, inodes[i], off0, off0 + k);
      }
      FilledNone(disk, inodes[i], off0);
      ghost var hole := -1;
      while |data| < k
        invariant |data| <= k <= old(inodes)[i].size - off0 && |data| <= room
        invariant Reading(old(disk), old(inodes), i, off0, data, hole)
        invariant whole ==> disk == old(disk) && inodes == old(inodes) && logged == old(logged)
        decreases k - |data|
      {
        if whole {
          FilledAt(disk, inodes[i], off0, off0 + k, off0 + |data|);
        }
        var o := (off0 + |data|) % BSIZE;
        var m := if k - |data| < BSIZE - o then k - |data| else BSIZE - o;
        var a;
        a, hole := ReadBlock(i, off0, data, m, old(disk), old(inodes), hole);
        if a == 0 {
          return ReadPanic, data;
        }
        if |data| + m > room {
          return ReadFailed, data;
        }
        data := data + disk[a][o..o + m];
      }
      if hole != -1 {
        HoleChanges(old(disk), old(inodes)[i], disk, inodes[i], hole);
      }
      r := ReadOk;
    }

    /** A write and the read that follows it: the bytes read begin with the bytes written. A read of just
        those bytes always succeeds, and so does a longer one if no file has holes. */
    method WriteThenRead(i: int, src: seq<int>, off0: int, n: int, room: nat)
        returns (w: WriteResult, r: ReadResult, data: seq<int>)
      requires Valid() && i in inodes && 0 <= off0 < UINT && |src| <= n <= room && off0 + n < UINT
      modifies this
      ensures Valid() && InodesOk(old(inodes))
      ensures w == Wrote ==> r == ReadOk || r == ReadPanic
      ensures w == Wrote && r == ReadOk ==> |src| <= |data| && data[..|src|] == src
      ensures w == Wrote && (n == |src| || AllDense(old(disk), old(inodes))) ==> r == ReadOk
      ensures w == Wrote && n == |src| ==> data == src
    {
      hide FsOk, ByteAt, Spliced, LogsOnly, Kept, Filled, AllDense, Dense, Full, Covers, SameBytes, GrewIn;
      r, data := ReadPanic, [];
      ghost var tot, done;
      w, tot, done := Writei(i, src, |src|, 0, off0);
      if w == Wrote {
        ghost var d1, n1 := disk, inodes;
        if AllDense(d1, n1) {
          DenseFile(d1, n1, i);
        }
        r, data := Readi(i, off0, n, room);
        if r == ReadOk && src != [] {
          ReadsBack(old(disk), old(inodes), d1, n1, i, off0, src, data);
        }
      }
    }

    /** `bfree`: false is the panic "freeing free block". */
    method Bfree(b: int) returns (ok: bool)
      requires LayoutOk(l, disk) && 0 <= b < l.size
      modifies this`disk, this`logged
      ensures ok <==> Used(l, old(disk), b)
      ensures 0 <= BitmapBlock(l, b) < |old(disk)|
      ensures disk == if ok then WithBit(l, old(disk), b, false) else old(disk)
      ensures logged == if ok then old(logged) + {BitmapBlock(l, b)} else old(logged)
      ensures Covers(old(disk), old(logged), disk, logged, -1)
    {
      hide BlockBit, PutBlockBit;
      WithBitAt(l, disk, b, false, b);
      var m := BitmapBlock(l, b);
      var bi := b % BPB;
      if !BlockBit(disk[m], bi) {
        return false;
      }
      disk := disk[m := PutBlockBit(disk[m], bi, false)];
      logged := logged + {m};
      ok := true;
    }

    /** Free the block in slot s of file i, as the state d0 had it. */
    method FreeSlot(i: int, s: int, a: int, ghost d0: Disk, ghost n0: map<int, Inode>, ghost log0: set<int>,
                    ghost done: set<int>) returns (ok: bool)
      requires FsOk(l, d0, n0, owner) && i in n0 && 0 <= s < SLOTS && s !in done && FreedBits(l, d0, n0[i], done, disk)
      requires a == Addr(d0, n0[i], s)
      requires TruncLogs(l, i, log0, logged) && Covers(d0, log0, disk, logged, -1)
      modifies this`disk, this`logged
      ensures ok && LayoutOk(l, d0) && InodeOk(n0[i]) && FreedBits(l, d0, n0[i], done + {s}, disk)
      ensures TruncLogs(l, i, log0, logged) && Covers(d0, log0, disk, logged, -1)
    {
      hide FsOk, Addr, Used, BitmapBlock, FreedBits, WithBit, Covers;
      InodesOf(l, d0, n0, owner);
      ok := true;
      if a != 0 {
        FreedMore(l, d0, n0, owner, i, done, disk, s);
        FreedLayout(l, d0, n0[i], done, disk);
        BitmapRange(l, disk, a);
        ghost var d1, log1 := disk, logged;
        ok := Bfree(a);
        CoversTrans(d0, log0, d1, log1, disk, logged, -1);
      } else {
        FreedEmpty(l, d0, n0[i], done, disk, s);
      }
    }

    /** The first loop of `itrunc`. */
    method FreeDirect(i: int) returns (ok: bool)
      requires Valid() && i in inodes
      modifies this
      ensures ok && InodesOk(old(inodes)) && LayoutOk(l, old(disk)) && owner == old(owner)
      ensures FreedBits(l, old(disk), old(inodes)[i], UpTo(NDIRECT), disk) && TruncLogs(l, i, old(logged), logged)
      ensures Covers(old(disk), old(logged), disk, logged, -1)
      ensures inodes == old(inodes)[i := old(inodes)[i].(addrs := [0, 0, 0, 0, 0, 0, 0, 0, 0, 0, 0, 0,
              old(inodes)[i].addrs[INDIRECT]])]
    {
      hide FsOk, Used, BitmapBlock, FreedBits, Word, TruncLogs, Covers;
      InodesOf(l, disk, inodes, owner);
      ghost var d0, n0, log0 := disk, inodes, logged;
      FreedNone(l, disk, inodes[i]);
      NoTruncLogs(l, i, logged);
      CoversNone(disk, logged);
      ok := true;
      var k := 0;
      while k < NDIRECT
        invariant 0 <= k <= NDIRECT && ok && owner == old(owner)
        invariant FsOk(l, d0, n0, owner) && FreedBits(l, d0, n0[i], UpTo(k), disk) && TruncLogs(l, i, log0, logged)
        invariant Covers(d0, log0, disk, logged, -1)
        invariant i in inodes && inodes == n0[i := n0[i].(addrs := inodes[i].addrs)] && |inodes[i].addrs| == 13
        invariant forall s :: 0 <= s < 13 ==> inodes[i].addrs[s] == if s < k then 0 else n0[i].addrs[s]
      {
        var freed := FreeSlot(i, k, inodes[i].addrs[k], d0, n0, log0, UpTo(k));
        ok := ok && freed;
        inodes := inodes[i := inodes[i].(addrs := inodes[i].addrs[k := 0])];
        k := k + 1;
      }
      assert inodes[i].addrs == [0, 0, 0, 0, 0, 0, 0, 0, 0, 0, 0, 0, n0[i].addrs[INDIRECT]];
    }

    /** The second loop of `itrunc`, over the entries of the indirect block, and the block itself. */
    method FreeIndirect(i: int, ind: int, ghost d0: Disk, ghost n0: map<int, Inode>,
                        ghost log0: set<int>) returns (ok: bool)
      requires FsOk(l, d0, n0, owner) && i in n0 && ind == n0[i].addrs[INDIRECT] != 0
      requires FreedBits(l, d0, n0[i], UpTo(NDIRECT), disk) && TruncLogs(l, i, log0, logged)
      requires Covers(d0, log0, disk, logged, -1)
      modifies this`disk, this`logged
      ensures ok && LayoutOk(l, d0) && InodesOk(n0)
      ensures FreedBits(l, d0, n0[i], UpTo(SLOTS), disk) && TruncLogs(l, i, log0, logged)
      ensures Covers(d0, log0, disk, logged, -1)
    {
      hide FsOk, Used, BitmapBlock, FreedBits, Word, TruncLogs, UpTo, Covers;
      InodesOf(l, d0, n0, owner);
      DataAddr(l, d0, n0, owner, i, INDIRECT);
      ok := true;
      ghost var done := UpTo(NDIRECT);
      var j := 0;
      while j < NINDIRECT
        invariant 0 <= j <= NINDIRECT && ok
        invariant forall s :: s in done <==> 0 <= s < 12 || 13 <= s < 13 + j
        invariant FreedBits(l, d0, n0[i], done, disk) && TruncLogs(l, i, log0, logged)
        invariant Covers(d0, log0, disk, logged, -1)
      {
        FreedSame(l, d0, n0[i], done, disk, ind);
        var freed := FreeSlot(i, 13 + j, Word(disk[ind], j), d0, n0, log0, done);
        ok := ok && freed;
        done := done + {13 + j};
        j := j + 1;
      }
      var freed := FreeSlot(i, INDIRECT, ind, d0, n0, log0, done);
      ok := ok && freed;
      assert done + {INDIRECT} == UpTo(SLOTS);
    }

    /** `itrunc`: never panics, clears the bits of exactly the blocks of file i, and leaves every other
        file as it is. */
    method Itrunc(i: int) returns (ok: bool)
      requires Valid() && i in inodes
      modifies this
      ensures ok && Valid()
      ensures InodesOk(old(inodes)) && LayoutOk(l, old(disk))
              && FreedBits(l, old(disk), old(inodes)[i], UpTo(SLOTS), disk)
      ensures inodes == old(inodes)[i := Emptied(old(inodes)[i])]
      ensures inodes[i].size == 0 && forall s :: 0 <= s < |inodes[i].addrs| ==> inodes[i].addrs[s] == 0
      ensures forall c :: 0 < c < l.size ==>
                (Used(l, disk, c) <==>
                   && Used(l, old(disk), c)
                   && forall s :: 0 <= s < SLOTS ==> Addr(old(disk), old(inodes)[i], s) != c)
      ensures forall j, off :: j in inodes && j != i && 0 <= off < MAXFILE * BSIZE ==>
                ByteAt(disk, inodes[j], off) == ByteAt(old(disk), inodes[j], off)
      ensures TruncLogs(l, i, old(logged), logged) && InodeBlock(l, i) in logged
      ensures Covers(old(disk), old(logged), disk, logged, -1)
    {
      hide FsOk, ByteAt, Used, BitmapBlock, FreedBits, UpTo, Covers;
      InodesOf(l, disk, inodes, owner);
      ghost var d0, n0, log0 := disk, inodes, logged;
      ok := FreeDirect(i);
      var ind := inodes[i].addrs[INDIRECT];
      if ind != 0 {
        var freed := FreeIndirect(i, ind, d0, n0, log0);
        ok := ok && freed;
        inodes := inodes[i := inodes[i].(addrs := inodes[i].addrs[INDIRECT := 0])];
      } else {
        NoIndirect(l, d0, n0[i], disk, NDIRECT);
      }
      inodes := inodes[i := inodes[i].(size := 0)];
      CoversMore(d0, log0, disk, logged, -1, InodeBlock(l, i));
      logged := logged + {InodeBlock(l, i)};
      assert inodes[i].addrs == Emptied(n0[i]).addrs;
      assert inodes == n0[i := Emptied(n0[i])];
      Truncated(l, d0, n0, owner, i, UpTo(SLOTS), disk);
      AllSlotsFreed(l, d0, n0[i], disk);
    }

    /** One transaction of `filewrite`: begin_op, writei, end_op. */
    method WriteOp(j: Journal, i: int, src: seq<int>, avail: nat, part: nat, off0: int)
        returns (r: WriteResult, ghost tot: int, ghost done: int)
      requires Valid() && i in inodes && 0 <= off0 < UINT && |src| <= MAXCHUNK
      modifies this, j
      ensures Valid() && InodesOk(inodes) && InodesOk(old(inodes)) && 0 <= tot <= done <= |src|
      ensures r == Rejected <==> off0 > old(inodes)[i].size || off0 + |src| > MAXFILE * BSIZE
      ensures r == Wrote ==> tot == done == |src| <= avail
      ensures r == CopyFailed ==> avail < |src|
      ensures r == NoBlocks ==> Full(l, disk)
      ensures Spliced(old(disk), old(inodes), disk, inodes, i, off0, src, done)
      ensures SizedTo(old(inodes), inodes, i, if r == Rejected || r == NoBlocks then 0 else off0 + tot)
      ensures r != NoBlocks && AllDense(old(disk), old(inodes)) ==> AllDense(disk, inodes)
      ensures j.txns == old(j.txns) + [Txn(old(disk), disk, logged)]
      ensures i in inodes && Covers(old(disk), {}, disk, logged, Unlogged(disk, inodes, i, off0 + tot, r))
      ensures r != CopyFailed ==> Covers(old(disk), {}, disk, logged, -1)
      ensures AllDense(old(disk), old(inodes)) ==> |logged| <= MAXOPBLOCKS
      ensures l.size <= BPB ==> |logged| <= 7
    {
      hide ByteAt, FsOk, Full, Spliced, LogsOnly, AllDense, Covers;
      InodesOf(l, disk, inodes, owner);
      logged := {};
      r, tot, done := Writei(i, src, avail, part, off0);
      assert InodeOk(old(inodes)[i]);
      j.txns := j.txns + [Txn(old(disk), disk, logged)];
      TransactionSize(l, old(disk), old(inodes), disk, inodes, owner, logged, i, off0, |src|, r);
    }

    /** `filewrite` of the n bytes src to an inode, one transaction per chunk. The second result is the
        panic of `balloc`; "short filewrite" is never reached. `done` is the number of bytes that reached
        the file. */
    method Filewrite(j: Journal, f: File, src: seq<int>, n: int, avail: nat, part: nat)
        returns (ret: int, panicked: bool, ghost done: int)
      requires Valid() && f.ip in inodes && 0 <= f.off < UINT && |src| == (if n > 0 then n else 0) && n < 0x8000_0000
      modifies this, f, j
      ensures Valid() && InodesOk(inodes) && InodesOk(old(inodes)) && 0 <= done <= |src|
      ensures !panicked ==> ret == n || ret == -1
      ensures Spliced(old(disk), old(inodes), disk, inodes, f.ip, old(f.off), src, done)
      ensures !panicked && ret == n ==> done == |src| && f.off == old(f.off) + |src|
      ensures !panicked && ret == n && n > 0 ==> SizedTo(old(inodes), inodes, f.ip, f.off)
      ensures !panicked && n >= 0 ==>
                (ret == n <==>
                   && n <= avail
                   && (n == 0 || (old(f.off) <= old(inodes)[f.ip].size && old(f.off) + n <= MAXFILE * BSIZE)))
      ensures panicked ==> Full(l, disk)
      ensures Chained(old(j.txns), j.txns, old(disk), disk)
      ensures !panicked && ret == n ==> |j.txns| - |old(j.txns)| == ChunkCount(|src|)
      ensures !panicked && ret == n ==> AllCover(old(j.txns), j.txns)
      ensures AllDense(old(disk), old(inodes)) ==>
                AtMost(old(j.txns), j.txns, MAXOPBLOCKS) && (!panicked ==> AllDense(disk, inodes))
      ensures l.size <= BPB ==> AtMost(old(j.txns), j.txns, 7)
    {
      hide ByteAt, FsOk, Full, Spliced, LogsOnly, AllDense, Covers, AtMost, AllCover, Chained,
          Unlogged, ChunkCount;
      TxnsNone(j.txns, disk);
      InodesOf(l, disk, inodes, owner);
      var max := MAXCHUNK;
      var k := 0;
      ret, panicked, done := 0, false, 0;
      ghost var t0 := j.txns;
      SplicedNone(disk, inodes, f.ip, f.off, src);
      while k < n
        invariant 0 <= k && (n > 0 ==> k <= n) && (n <= 0 ==> k == 0) && done == k
        invariant Valid() && InodesOk(inodes) && f.ip in inodes && f.off == old(f.off) + k && 0 <= f.off < UINT
        invariant Spliced(old(disk), old(inodes), disk, inodes, f.ip, old(f.off), src, k)
        invariant SizedTo(old(inodes), inodes, f.ip, if k == 0 then 0 else f.off)
        invariant k <= avail && (k > 0 ==> old(f.off) <= old(inodes)[f.ip].size && f.off <= MAXFILE * BSIZE)
        invariant AllDense(old(disk), old(inodes)) ==> AllDense(disk, inodes) && AtMost(t0, j.txns, MAXOPBLOCKS)
        invariant l.size <= BPB ==> AtMost(t0, j.txns, 7)
        invariant Chained(t0, j.txns, old(disk), disk) && AllCover(t0, j.txns)
        invariant if k < n then k == (|j.txns| - |t0|) * MAXCHUNK else |j.txns| - |t0| == ChunkCount(k)
      {
        var n1 := n - k;
        if n1 > max {
          n1 := max;
        }
        ghost var disk1, inodes1, txns1 := disk, inodes, j.txns;
        Chunks(n, k, |j.txns| - |t0|);
        var r: WriteResult;
        ghost var tot, got;
        r, tot, got := WriteOp(j, f.ip, src[k..k + n1], if avail > k then avail - k else 0, part, f.off);
        SplicedMore(old(disk), old(inodes), disk1, inodes1, disk, inodes, f.ip, old(f.off), src, k, k + n1, got);
        ghost var tx := Txn(disk1, disk, logged);
        TxnsMore(t0, txns1, tx, old(disk), disk1);
        done := k + got;
        if r == NoBlocks {
          panicked := true;
          return;
        }
        if r == Wrote {
          f.off := f.off + n1;
        } else {
          break;
        }
        k := k + n1;
      }
      ret := if k == n then n else -1;
    }

    /** The size update at the end of `writei`. */
    lemma FinishWrite(d0: Disk, n0: map<int, Inode>, log0: set<int>, i: int, off0: int, src: seq<int>, t: int,
                      done: int, ip: Inode)
      requires InodesOk(n0) && 0 <= t <= done <= |src| && Writing(d0, n0, log0, i, off0, src, done)
      requires 0 <= off0 <= n0[i].size && off0 + t <= MAXFILE * BSIZE && Filled(disk, inodes[i], off0, off0 + t)
      requires ip == inodes[i].(size := if off0 + t > inodes[i].size then off0 + t else inodes[i].size)
      ensures FsOk(l, disk, inodes[i := ip], owner) && InodesOk(inodes[i := ip])
      ensures SizedTo(n0, inodes[i := ip], i, off0 + t) && Filled(disk, ip, off0, off0 + t)
      ensures Spliced(d0, n0, disk, inodes[i := ip], i, off0, src, done)
      ensures LogsOnly(l, d0, n0, log0, disk, inodes[i := ip], logged + {InodeBlock(l, i)}, i, off0, off0 + |src|)
      ensures AllDense(d0, n0) ==> AllDense(disk, inodes[i := ip])
    {
      hide FsOk, Spliced, LogsOnly, InodeBlock, Kept, Filled, AllDense;
      ResizeKeeps(l, disk, inodes, owner, i, ip);
      SplicedResize(d0, n0, disk, inodes, i, ip, off0, src, done);
      LogsResize(l, d0, n0, log0, disk, inodes, logged, i, ip, off0, off0 + |src|);
      FilledResize(disk, inodes[i], ip, off0, off0 + t);
      if AllDense(d0, n0) {
        DenseMore(d0, n0, disk, inodes[i := ip], i, off0, off0 + t);
      }
    }
  }

  /** `itrunc` logs bitmap blocks and the inode's block. */
  ghost predicate TruncLogs(l: Layout, i: int, log0: set<int>, logged: set<int>) {
    forall m :: m in logged ==> m in log0 || l.bmap <= m <= l.bmap + (l.size - 1) / BPB || m == InodeBlock(l, i)
  }

  lemma NoTruncLogs(l: Layout, i: int, log0: set<int>)
    ensures TruncLogs(l, i, log0, log0)
  {
  }

  /** Without an indirect block the remaining slots are empty. */
  lemma {:induction false} NoIndirect(l: Layout, d0: Disk, ip: Inode, d: Disk, k: nat)
    requires LayoutOk(l, d0) && InodeOk(ip) && NDIRECT <= k <= SLOTS && ip.addrs[INDIRECT] == 0
    requires FreedBits(l, d0, ip, UpTo(k), d)
    ensures FreedBits(l, d0, ip, UpTo(SLOTS), d)
    decreases SLOTS - k
  {
    hide FreedBits;
    if k < SLOTS {
      FreedEmpty(l, d0, ip, UpTo(k), d, k);
      NoIndirect(l, d0, ip, d, k + 1);
    }
  }

  /** Clearing every slot frees the blocks in them and no others. */
  lemma AllSlotsFreed(l: Layout, d0: Disk, ip: Inode, d: Disk)
    requires LayoutOk(l, d0) && InodeOk(ip) && FreedBits(l, d0, ip, UpTo(SLOTS), d)
    ensures LayoutOk(l, d)
    ensures forall c :: 0 < c < l.size ==>
              (Used(l, d, c) <==> Used(l, d0, c) && forall s :: 0 <= s < SLOTS ==> Addr(d0, ip, s) != c)
  {
    hide Used, Addr;
  }

  lemma BitmapRange(l: Layout, disk: Disk, b: int)
    requires LayoutOk(l, disk) && 0 <= b < l.size
    ensures l.bmap <= BitmapBlock(l, b) <= l.bmap + (l.size - 1) / BPB
  {
  }

  lemma FreedLayout(l: Layout, d0: Disk, ip: Inode, done: set<int>, d: Disk)
    requires LayoutOk(l, d0) && InodeOk(ip) && FreedBits(l, d0, ip, done, d)
    ensures LayoutOk(l, d)
  {
  }

  lemma FreedSame(l: Layout, d0: Disk, ip: Inode, done: set<int>, d: Disk, b: int)
    requires LayoutOk(l, d0) && InodeOk(ip) && FreedBits(l, d0, ip, done, d) && (b == 0 || l.data <= b < l.size)
    ensures |d| == l.size && (b != 0 ==> d[b] == d0[b])
  {
  }

  lemma TransactionSize(l: Layout, d0: Disk, n0: map<int, Inode>, d: Disk, n: map<int, Inode>, owner: map<int,
                        (int, int)>, logged: set<int>, i: int, off: int, k: int, r: WriteResult)
    requires InodesOk(n0) && InodesOk(n) && FsOk(l, d, n, owner) && i in n0 && i in n && 0 <= off && 0 <= k <= MAXCHUNK
    requires r == Rejected ==> logged == {}
    requires r != Rejected ==> off <= n0[i].size && LogsOnly(l, d0, n0, {}, d, n, logged, i, off, off + k)
    ensures AllDense(d0, n0) ==> |logged| <= MAXOPBLOCKS
    ensures l.size <= BPB ==> |logged| <= 7
  {
    hide FsOk, LogsOnly, Dense;
    if r != Rejected {
      assert logged - {} == logged;
      if AllDense(d0, n0) {
        ChunkFitsTransaction(l, d0, n0, {}, d, n, logged, i, off, off + k);
      }
      if l.size <= BPB {
        ChunkLogsSeven(l, d0, n0, {}, d, n, owner, logged, i, off, off + k);
      }
    }
  }

  /** One more piece of a block after the bytes read so far. */
  lemma SliceMore(d0: Disk, n0: map<int, Inode>, d: Disk, n: map<int, Inode>, i: int, off0: int, data: seq<int>,
                  a: int, m: int)
    requires InodesOk(n0) && InodesOk(n) && i in n0 && SameBytes(d0, n0, d, n)
    requires 0 <= off0 && 0 < m && off0 + |data| + m <= MAXFILE * BSIZE && (off0 + |data|) % BSIZE + m <= BSIZE
    requires 0 < a < |d| && a == Addr(d, n[i], Slot((off0 + |data|) / BSIZE))
    requires IsSlice(d0, n0[i], off0, data)
    ensures var o := (off0 + |data|) % BSIZE; IsSlice(d0, n0[i], off0, data + d[a][o..o + m])
  {
    hide Addr, Slot;
    var o := (off0 + |data|) % BSIZE;
    var data' := data + d[a][o..o + m];
    forall k | 0 <= k < |data'|
      ensures data'[k] == ByteAt(d0, n0[i], off0 + k)
    {
      if k >= |data| {
        var off := off0 + k;
        assert off / BSIZE == (off0 + |data|) / BSIZE && off % BSIZE == o + (k - |data|);
        assert ByteAt(d, n[i], off) == ByteAt(d0, n0[i], off);
      }
    }
  }

  /** What a read gets after the bytes src went to off0. */
  lemma ReadsBack(d0: Disk, n0: map<int, Inode>, d: Disk, n: map<int, Inode>, i: int, off0: int, src: seq<int>,
                  data: seq<int>)
    requires InodesOk(n0) && InodesOk(n) && i in n0 && i in n && Spliced(d0, n0, d, n, i, off0, src, |src|)
    requires 0 <= off0 && |src| <= |data| && off0 + |data| <= MAXFILE * BSIZE && IsSlice(d, n[i], off0, data)
    ensures data[..|src|] == src
  {
    hide ByteAt;
    forall k | 0 <= k < |src|
      ensures data[k] == src[k]
    {
      assert data[k] == ByteAt(d, n[i], off0 + k);
      assert ByteAt(d, n[i], off0 + k) == SplicedByte(d0, n0, i, off0, src, |src|, i, off0 + k);
    }
  }

  lemma DenseFile(disk: Disk, inodes: map<int, Inode>, i: int)
    requires InodesOk(inodes) && i in inodes && AllDense(disk, inodes)
    ensures Dense(disk, inodes[i])
  {
  }

  /** Block bn was a hole and now has an address. */
  ghost predicate HoleFilled(d0: Disk, ip0: Inode, d: Disk, ip: Inode, bn: int)
    requires InodeOk(ip0) && InodeOk(ip)
  {
    0 <= bn < MAXFILE && Addr(d0, ip0, Slot(bn)) == 0 && Addr(d, ip, Slot(bn)) != 0
  }

  lemma HoleKept(d0: Disk, n0: map<int, Inode>, d1: Disk, n1: map<int, Inode>, d: Disk, n: map<int, Inode>, i: int,
                 bn: int)
    requires InodesOk(n0) && InodesOk(n1) && InodesOk(n) && i in n0 && i in n1 && Kept(d1, n1, d, n)
    requires HoleFilled(d0, n0[i], d1, n1[i], bn)
    ensures i in n && HoleFilled(d0, n0[i], d, n[i], bn)
  {
    hide Addr;
  }

  lemma HoleChanges(d0: Disk, ip0: Inode, d: Disk, ip: Inode, bn: int)
    requires InodeOk(ip0) && InodeOk(ip) && HoleFilled(d0, ip0, d, ip, bn)
    ensures d != d0 || ip != ip0
  {
  }

  lemma FilledAt(disk: Disk, ip: Inode, lo: int, hi: int, off: int)
    requires InodeOk(ip) && Filled(disk, ip, lo, hi) && 0 <= lo <= off < hi && off < MAXFILE * BSIZE
    ensures 0 <= Slot(off / BSIZE) < SLOTS && Addr(disk, ip, Slot(off / BSIZE)) != 0
  {
    SlotOf(off);
    hide Addr;
    assert Touches(lo, hi, off / BSIZE);
  }

  lemma FilledOn(disk: Disk, ip: Inode, lo: int, off: int, hi: int)
    requires InodeOk(ip) && 0 <= lo <= off < MAXFILE * BSIZE && off <= hi <= (off / BSIZE + 1) * BSIZE
    requires Filled(disk, ip, lo, off) && 0 <= Slot(off / BSIZE) < SLOTS && Addr(disk, ip, Slot(off / BSIZE)) != 0
    ensures Filled(disk, ip, lo, hi)
  {
    hide Addr;
    forall bn | Touches(lo, hi, bn)
      ensures Addr(disk, ip, Slot(bn)) != 0
    {
      if bn != off / BSIZE {
        assert Touches(lo, off, bn);
      }
    }
  }

  lemma DenseFilled(disk: Disk, ip: Inode, lo: int, hi: int)
    requires InodeOk(ip) && Dense(disk, ip) && 0 <= lo && hi <= ip.size
    ensures Filled(disk, ip, lo, hi)
  {
    hide Addr;
    forall bn | Touches(lo, hi, bn)
      ensures Addr(disk, ip, Slot(bn)) != 0
    {
      assert Touches(0, ip.size, bn);
    }
  }

  lemma FilledNone(disk: Disk, ip: Inode, lo: int)
    requires InodeOk(ip)
    ensures Filled(disk, ip, lo, lo)
  {
  }

  lemma FilledLess(disk: Disk, ip: Inode, lo: int, mid: int, hi: int)
    requires InodeOk(ip) && Filled(disk, ip, lo, hi) && mid <= hi
    ensures Filled(disk, ip, lo, mid)
  {
    assert forall bn :: Touches(lo, mid, bn) ==> Touches(lo, hi, bn);
  }

  lemma FilledResize(disk: Disk, ip: Inode, ip': Inode, lo: int, hi: int)
    requires InodeOk(ip) && InodeOk(ip') && ip.addrs == ip'.addrs && Filled(disk, ip, lo, hi)
    ensures Filled(disk, ip', lo, hi)
  {
    assert forall s :: 0 <= s < SLOTS ==> Addr(disk, ip, s) == Addr(disk, ip', s);
    hide Addr;
  }

  /** Logged for the indirect block only. */
  lemma LogsWider(l: Layout, d0: Disk, n0: map<int, Inode>, log0: set<int>, d: Disk, n: map<int, Inode>,
                  log: set<int>, i: int, s: int)
    requires InodesOk(n0) && InodesOk(n) && i in n0 && i in n && 0 <= s < SLOTS
    requires LogsSlot(l, d0, n0, log0, d, n, log, i, INDIRECT)
    ensures LogsSlot(l, d0, n0, log0, d, n, log, i, s)
  {
    hide Cost;
  }

  lemma InodesOf(l: Layout, disk: Disk, inodes: map<int, Inode>, owner: map<int, (int, int)>)
    requires FsOk(l, disk, inodes, owner)
    ensures InodesOk(inodes) && LayoutOk(l, disk)
  {
  }

  lemma FreshOne(l: Layout, disk: Disk, inodes: map<int, Inode>, a: int)
    requires LayoutOk(l, disk) && InodesOk(inodes) && l.data <= a < l.size && Used(l, disk, a)
             && disk[a] == ZeroBlock() && NotOwned(disk, inodes, a)
    ensures FreshBlock(l, disk, inodes, a)
  {
  }

  lemma SameBytesRefl(disk: Disk, inodes: map<int, Inode>)
    requires InodesOk(inodes)
    ensures SameBytes(disk, inodes, disk, inodes)
  {
  }

  lemma SameBytesTrans(d1: Disk, n1: map<int, Inode>, d2: Disk, n2: map<int, Inode>, d3: Disk, n3: map<int, Inode>)
    requires InodesOk(n1) && InodesOk(n2) && InodesOk(n3)
    requires SameBytes(d1, n1, d2, n2) && SameBytes(d2, n2, d3, n3)
    ensures SameBytes(d1, n1, d3, n3)
  {
    hide ByteAt;
  }

  lemma GainedAfterAlloc(disk: Disk, disk1: Disk, inodes: map<int, Inode>, disk2: Disk, inodes2: map<int, Inode>,
                         i: int, s: int, a: int)
    requires InodesOk(inodes) && InodesOk(inodes2)
    requires forall j, t :: j in inodes && 0 <= t < SLOTS ==> Addr(disk1, inodes[j], t) == Addr(disk, inodes[j], t)
    requires Gained(disk1, inodes, disk2, inodes2, i, s, a)
    ensures Gained(disk, inodes, disk2, inodes2, i, s, a)
  {
    hide Addr;
  }
}
