/** The on-disk redo log of kernel/log.c: its layout, what recovery makes of a disk,
    and what the disk holds after each single-block write of a commit.

    A block is its 256 32-bit words, so the log header and the data blocks share one type.
    A disk write of one block is atomic; a crash may fall between any two of them. */
module LogDisk {
  const WORDS := 256   // BSIZE / sizeof(uint)
  const LOGSIZE := 30  // capacity of logheader.block[]

  type Word = x: int | 0 <= x < 0x1_0000_0000
  type Block = b: seq<Word> | |b| == WORDS witness seq(256, i => 0)
  type Disk = seq<Block>

  /** `log.start` and `log.size`: the header block followed by size - 1 log blocks. */
  datatype Area = Area(start: nat, size: nat)

  predicate InLog(a: Area, b: int) {
    a.start <= b < a.start + a.size
  }

  /** A block that file-system data may live in. */
  predicate Home(a: Area, d: Disk, b: int) {
    0 <= b < |d| && !InLog(a, b)
  }

  predicate Fits(a: Area, d: Disk) {
    1 <= a.size && a.start + a.size <= |d| <= 0x1_0000_0000
  }

  /** The fields of `struct logheader` as stored in the header block. */
  function HeadN(a: Area, d: Disk): Word
    requires Fits(a, d)
  {
    d[a.start][0]
  }

  function Target(a: Area, d: Disk, i: nat): Word
    requires Fits(a, d) && i < LOGSIZE
  {
    d[a.start][1 + i]
  }

  /** A header that names at most the log's capacity of home blocks. */
  predicate GoodHead(a: Area, len: nat, hb: Block) {
    && hb[0] <= LOGSIZE
    && hb[0] < a.size
    && forall t :: 1 <= t <= hb[0] ==> hb[t] < len && !InLog(a, hb[t])
  }

  predicate ValidHead(a: Area, d: Disk) {
    Fits(a, d) && GoodHead(a, |d|, d[a.start])
  }

  /** The header on disk lists exactly the blocks lh. */
  predicate HeadLists(a: Area, d: Disk, lh: seq<Word>) {
    && ValidHead(a, d)
    && HeadN(a, d) == |lh|
    && forall i :: 0 <= i < |lh| ==> lh[i] == Target(a, d, i)
  }

  /** The header block after `write_head`: n and block[0..n) replaced, later words stale. */
  function SetHead(hb: Block, lh: seq<Word>): (r: Block)
    requires |lh| <= LOGSIZE
    ensures r[0] == |lh|
    ensures forall i :: 0 <= i < |lh| ==> r[1 + i] == lh[i]
  {
    [|lh|] + lh + hb[1 + |lh|..]
  }

  /** The disk after the first k iterations of `install_trans`. */
  function Install(a: Area, d: Disk, k: nat): (r: Disk)
    requires ValidHead(a, d) && k <= HeadN(a, d)
    ensures |r| == |d| && r[a.start] == d[a.start]
  {
    if k == 0 then d else Install(a, d, k - 1)[Target(a, d, k - 1) := d[a.start + k]]
  }

  function ClearHead(a: Area, d: Disk): (r: Disk)
    requires Fits(a, d)
  {
    d[a.start := SetHead(d[a.start], [])]
  }

  /** What one completed `recover_from_log` makes of the disk it finds. */
  function Recovered(a: Area, d: Disk): (r: Disk)
    requires ValidHead(a, d)
    ensures |r| == |d|
  {
    ClearHead(a, Install(a, d, HeadN(a, d)))
  }

  /** The disk after k of the block writes of `recover_from_log`: n installs, then the header. */
  function RecoveryDisk(a: Area, d: Disk, k: nat): (r: Disk)
    requires ValidHead(a, d)
    ensures |r| == |d|
  {
    if k <= HeadN(a, d) then Install(a, d, k) else Recovered(a, d)
  }

  /** The disk after k iterations of `write_log`. */
  function LogWritten(a: Area, d: Disk, lh: seq<Word>, src: map<nat, Block>, k: nat): (r: Disk)
    requires Fits(a, d) && k <= |lh| < a.size
    requires forall b :: b in lh ==> b in src
    ensures |r| == |d| && r[a.start] == d[a.start]
  {
    if k == 0 then d else LogWritten(a, d, lh, src, k - 1)[a.start + k := src[lh[k - 1]]]
  }

  /** What `commit` relies on: a list of cached home blocks that fits the log. */
  predicate Committable(a: Area, d: Disk, lh: seq<Word>, src: map<nat, Block>) {
    && Fits(a, d)
    && |lh| <= LOGSIZE && |lh| < a.size
    && (forall b :: b in lh ==> b in src)
    && (forall i :: 0 <= i < |lh| ==> Home(a, d, lh[i]))
  }

  /** The disk right after the write of the header that commits the transaction. */
  function Committed(a: Area, d: Disk, lh: seq<Word>, src: map<nat, Block>): (r: Disk)
    requires Committable(a, d, lh, src)
    ensures |r| == |d| && HeadLists(a, r, lh)
  {
    LogWritten(a, d, lh, src, |lh|)[a.start := SetHead(d[a.start], lh)]
  }

  /** The disk after k of the 2n + 2 block writes of `commit`. */
  function CommitDisk(a: Area, d: Disk, lh: seq<Word>, src: map<nat, Block>, k: nat): (r: Disk)
    requires Committable(a, d, lh, src)
    ensures |r| == |d|
  {
    if k <= |lh| then LogWritten(a, d, lh, src, k)
    else RecoveryDisk(a, Committed(a, d, lh, src), k - |lh| - 1)
  }

  /** The disks that the first k block writes of a recovery leave, in order. */
  ghost function RecoveryTrace(a: Area, d: Disk, k: nat): (r: seq<Disk>)
    requires ValidHead(a, d)
    ensures |r| == k
  {
    if k == 0 then [] else RecoveryTrace(a, d, k - 1) + [RecoveryDisk(a, d, k)]
  }

  /** The disks that the first k iterations of `write_log` leave, in order. */
  ghost function LogTrace(a: Area, d: Disk, lh: seq<Word>, src: map<nat, Block>, k: nat): (r: seq<Disk>)
    requires Fits(a, d) && k <= |lh| < a.size
    requires forall b :: b in lh ==> b in src
    ensures |r| == k
  {
    if k == 0 then [] else LogTrace(a, d, lh, src, k - 1) + [LogWritten(a, d, lh, src, k)]
  }

  /** The disks that the block writes of a commit leave: the log, the header, then as in a recovery. */
  ghost function CommitTrace(a: Area, d: Disk, lh: seq<Word>, src: map<nat, Block>): (r: seq<Disk>)
    requires Committable(a, d, lh, src)
    ensures |r| == 2 * |lh| + 2
  {
    var c := Committed(a, d, lh, src);
    LogTrace(a, d, lh, src, |lh|) + [c] + RecoveryTrace(a, c, |lh| + 1)
  }

  lemma RecoveryTraceStart(a: Area, d: Disk)
    requires ValidHead(a, d)
    ensures Install(a, d, 0) == d && RecoveryTrace(a, d, 0) == []
  {
  }

  lemma RecoveryTraceStep(a: Area, d: Disk, k: nat)
    requires ValidHead(a, d) && k < HeadN(a, d)
    ensures RecoveryTrace(a, d, k + 1) == RecoveryTrace(a, d, k) + [Install(a, d, k + 1)]
  {
  }

  lemma LogTraceStart(a: Area, d: Disk, lh: seq<Word>, src: map<nat, Block>)
    requires Fits(a, d) && |lh| < a.size
    requires forall b :: b in lh ==> b in src
    ensures LogWritten(a, d, lh, src, 0) == d && LogTrace(a, d, lh, src, 0) == []
  {
  }

  lemma LogTraceStep(a: Area, d: Disk, lh: seq<Word>, src: map<nat, Block>, k: nat)
    requires Fits(a, d) && k < |lh| < a.size
    requires forall b :: b in lh ==> b in src
    ensures LogWritten(a, d, lh, src, k + 1) == LogWritten(a, d, lh, src, k)[a.start + k + 1 := src[lh[k]]]
    ensures LogTrace(a, d, lh, src, k + 1) == LogTrace(a, d, lh, src, k) + [LogWritten(a, d, lh, src, k + 1)]
  {
  }

  lemma {:induction false} RecoveryTraceAt(a: Area, d: Disk, k: nat, i: nat)
    requires ValidHead(a, d) && i < k
    ensures RecoveryTrace(a, d, k)[i] == RecoveryDisk(a, d, i + 1)
  {
    if i < k - 1 {
      RecoveryTraceAt(a, d, k - 1, i);
    }
  }

  lemma {:induction false} LogTraceAt(a: Area, d: Disk, lh: seq<Word>, src: map<nat, Block>, k: nat, i: nat)
    requires Fits(a, d) && i < k <= |lh| < a.size
    requires forall b :: b in lh ==> b in src
    ensures LogTrace(a, d, lh, src, k)[i] == LogWritten(a, d, lh, src, i + 1)
  {
    if i < k - 1 {
      LogTraceAt(a, d, lh, src, k - 1, i);
    }
  }

  lemma CommitTraceAt(a: Area, d: Disk, lh: seq<Word>, src: map<nat, Block>, i: nat)
    requires Committable(a, d, lh, src) && i < 2 * |lh| + 2
    ensures CommitTrace(a, d, lh, src)[i] == CommitDisk(a, d, lh, src, i + 1)
  {
    if i < |lh| {
      LogTraceAt(a, d, lh, src, |lh|, i);
    } else if i > |lh| {
      RecoveryTraceAt(a, Committed(a, d, lh, src), |lh| + 1, i - |lh| - 1);
    }
  }

  // ---------------------------------------------------------------- crash atomicity

  /** The last of the first k header slots that names block b, or -1. */
  function Writer(a: Area, d: Disk, k: nat, b: int): (w: int)
    requires Fits(a, d) && k <= LOGSIZE
    ensures -1 <= w < k
    ensures w >= 0 ==> Target(a, d, w) == b
    ensures forall i :: w < i < k ==> Target(a, d, i) != b
  {
    if k == 0 then -1
    else if Target(a, d, k - 1) == b then k - 1
    else Writer(a, d, k - 1, b)
  }

  /** Installing gives every block the log block of its last writer, and changes nothing else. */
  lemma {:induction false} InstallAt(a: Area, d: Disk, k: nat, b: int)
    requires ValidHead(a, d) && k <= HeadN(a, d)
    requires 0 <= b < |d|
    ensures var w := Writer(a, d, k, b);
            Install(a, d, k)[b] == if w < 0 then d[b] else d[a.start + 1 + w]
  {
    if k > 0 {
      InstallAt(a, d, k - 1, b);
      LogBlockKept(a, d, k - 1, a.start + k);
    }
  }

  lemma {:induction false} LogBlockKept(a: Area, d: Disk, k: nat, b: int)
    requires ValidHead(a, d) && k <= HeadN(a, d)
    requires InLog(a, b)
    ensures Install(a, d, k)[b] == d[b]
  {
    if k > 0 {
      LogBlockKept(a, d, k - 1, b);
    }
  }

  lemma {:induction false} LogWrittenAt(a: Area, d: Disk, lh: seq<Word>, src: map<nat, Block>, k: nat, b: int)
    requires Fits(a, d) && k <= |lh| < a.size
    requires forall x :: x in lh ==> x in src
    requires 0 <= b < |d|
    ensures LogWritten(a, d, lh, src, k)[b] == if a.start < b <= a.start + k then src[lh[b - a.start - 1]] else d[b]
  {
    if k > 0 {
      LogWrittenAt(a, d, lh, src, k - 1, b);
    }
  }

  lemma ReinstallAt(a: Area, d: Disk, k: nat, b: int)
    requires ValidHead(a, d) && k <= HeadN(a, d)
    requires 0 <= b < |d|
    ensures var n := HeadN(a, d);
            Install(a, Install(a, d, k), n)[b] == Install(a, d, n)[b]
  {
    var n, d' := HeadN(a, d), Install(a, d, k);
    SameWriter(a, d, d', n, b);
    InstallAt(a, d, k, b);
    InstallAt(a, d, n, b);
    InstallAt(a, d', n, b);
    var w := Writer(a, d, n, b);
    if w >= 0 {
      LogBlockKept(a, d, k, a.start + 1 + w);
    }
  }

  /** A crash inside recovery loses nothing: starting recovery over ends in the very same disk. */
  lemma RecoveryRestartable(a: Area, d: Disk, k: nat)
    requires ValidHead(a, d)
    ensures ValidHead(a, RecoveryDisk(a, d, k))
    ensures Recovered(a, RecoveryDisk(a, d, k)) == Recovered(a, d)
  {
    var n := HeadN(a, d);
    var d' := RecoveryDisk(a, d, k);
    if k <= n {
      forall b | 0 <= b < |d|
        ensures Install(a, d', n)[b] == Install(a, d, n)[b]
      {
        ReinstallAt(a, d, k, b);
      }
      assert Install(a, d', n) == Install(a, d, n);
    } else {
      assert SetHead(d'[a.start], []) == d'[a.start];
    }
  }

  lemma {:induction false} SameWriter(a: Area, d: Disk, d': Disk, k: nat, b: int)
    requires Fits(a, d) && Fits(a, d') && k <= LOGSIZE && d[a.start] == d'[a.start]
    ensures Writer(a, d, k, b) == Writer(a, d', k, b)
  {
    if k > 0 {
      SameWriter(a, d, d', k - 1, b);
    }
  }

  /** The disk after a run of crashed recoveries, the i-th of which managed ks[i] block writes. */
  function AfterCrashes(a: Area, d: Disk, ks: seq<nat>): (r: Disk)
    requires ValidHead(a, d)
    ensures ValidHead(a, r)
    decreases |ks|
  {
    if ks == [] then d
    else
      RecoveryRestartable(a, d, ks[0]);
      AfterCrashes(a, RecoveryDisk(a, d, ks[0]), ks[1..])
  }

  /** However often recovery crashes and wherever, one completed recovery gives the same disk. */
  lemma {:induction false} CrashesDuringRecovery(a: Area, d: Disk, ks: seq<nat>)
    requires ValidHead(a, d)
    ensures Recovered(a, AfterCrashes(a, d, ks)) == Recovered(a, d)
    decreases |ks|
  {
    if ks != [] {
      RecoveryRestartable(a, d, ks[0]);
      CrashesDuringRecovery(a, RecoveryDisk(a, d, ks[0]), ks[1..]);
    }
  }

  /** Every home block of r is as on disk d. */
  ghost predicate AllOld(a: Area, d: Disk, r: Disk) {
    |r| == |d| && forall b :: Home(a, d, b) ==> r[b] == d[b]
  }

  /** Every home block of r is the cached one if listed in lh, and otherwise as on disk d. */
  ghost predicate AllNew(a: Area, d: Disk, lh: seq<Word>, src: map<nat, Block>, r: Disk)
    requires forall b :: b in lh ==> b in src
  {
    |r| == |d| && forall b :: Home(a, d, b) ==> r[b] == if b in lh then src[b] else d[b]
  }

  lemma InstallListed(a: Area, c: Disk, lh: seq<Word>, k: nat, b: int) returns (w: int)
    requires HeadLists(a, c, lh) && k <= |lh| && 0 <= b < |c|
    ensures -1 <= w < k
    ensures w < 0 ==> b !in lh[..k] && Install(a, c, k)[b] == c[b]
    ensures w >= 0 ==> lh[..k][w] == b && Install(a, c, k)[b] == c[a.start + 1 + w]
  {
    InstallAt(a, c, k, b);
    w := Writer(a, c, k, b);
    assert forall i :: w < i < k ==> lh[i] == Target(a, c, i);
  }

  /** While a commit installs, the first k listed blocks are new and all other home blocks old. */
  lemma InstallCommittedAt(a: Area, d: Disk, lh: seq<Word>, src: map<nat, Block>, k: nat, b: int)
    requires Committable(a, d, lh, src) && k <= |lh| && Home(a, d, b)
    ensures Install(a, Committed(a, d, lh, src), k)[b] == if b in lh[..k] then src[b] else d[b]
  {
    var w := InstallListed(a, Committed(a, d, lh, src), lh, k, b);
    LogWrittenAt(a, d, lh, src, |lh|, if w < 0 then b else a.start + 1 + w);
  }

  lemma RecoveredCommit(a: Area, d: Disk, lh: seq<Word>, src: map<nat, Block>)
    requires Committable(a, d, lh, src)
    ensures AllNew(a, d, lh, src, Recovered(a, Committed(a, d, lh, src)))
  {
    var c := Committed(a, d, lh, src);
    forall b | Home(a, d, b)
      ensures Recovered(a, c)[b] == if b in lh then src[b] else d[b]
    {
      InstallCommittedAt(a, d, lh, src, |lh|, b);
      assert lh[..|lh|] == lh;
    }
  }

  /** Before the header is written, a crash leaves the header of an empty log and every home block as it was. */
  lemma CrashBeforeHeader(a: Area, d: Disk, lh: seq<Word>, src: map<nat, Block>, k: nat)
    requires Committable(a, d, lh, src) && HeadN(a, d) == 0 && k <= |lh|
    ensures var c := LogWritten(a, d, lh, src, k);
            ValidHead(a, c) && AllOld(a, d, Recovered(a, c))
  {
    hide LogWritten;
    forall b | Home(a, d, b)
      ensures LogWritten(a, d, lh, src, k)[b] == d[b]
    {
      LogWrittenAt(a, d, lh, src, k, b);
    }
  }

  /** A transaction is atomic: a crash after any k of the block writes of `commit`, then any number
      of crashed recoveries, then one completed recovery, leaves the home blocks all old when the
      header was not yet written (k <= n) and all new when it was. */
  lemma CommitAtomic(a: Area, d: Disk, lh: seq<Word>, src: map<nat, Block>, k: nat, ks: seq<nat>)
    requires Committable(a, d, lh, src)
    requires HeadN(a, d) == 0
    ensures ValidHead(a, CommitDisk(a, d, lh, src, k))
    ensures var r := Recovered(a, AfterCrashes(a, CommitDisk(a, d, lh, src, k), ks));
            if k <= |lh| then AllOld(a, d, r) else AllNew(a, d, lh, src, r)
  {
    hide LogWritten, Committed, RecoveryDisk, Recovered, AfterCrashes, GoodHead, AllOld, AllNew;
    if k <= |lh| {
      CrashBeforeHeader(a, d, lh, src, k);
    } else {
      RecoveryRestartable(a, Committed(a, d, lh, src), k - |lh| - 1);
      RecoveredCommit(a, d, lh, src);
    }
    CrashesDuringRecovery(a, CommitDisk(a, d, lh, src, k), ks);
  }

  /** A commit that is not interrupted installs the transaction and leaves an empty log. */
  lemma CommitCompletes(a: Area, d: Disk, lh: seq<Word>, src: map<nat, Block>)
    requires Committable(a, d, lh, src)
    ensures var r := CommitDisk(a, d, lh, src, 2 * |lh| + 2);
            AllNew(a, d, lh, src, r) && Fits(a, r) && HeadN(a, r) == 0
  {
    RecoveredCommit(a, d, lh, src);
  }

  lemma InstallStep(a: Area, c: Disk, lh: seq<Word>, k: nat)
    requires HeadLists(a, c, lh) && k < |lh|
    ensures var r := Install(a, c, k);
            Install(a, c, k + 1) == r[lh[k] := r[a.start + 1 + k]]
  {
    LogBlockKept(a, c, k, a.start + 1 + k);
  }

  /** Each block write of a commit, in terms of the disk the previous one left. */
  lemma CommitDiskStep(a: Area, d: Disk, lh: seq<Word>, src: map<nat, Block>, k: nat)
    requires Committable(a, d, lh, src) && k < 2 * |lh| + 2
    ensures var c, c' := CommitDisk(a, d, lh, src, k), CommitDisk(a, d, lh, src, k + 1);
            && |c| == |d|
            && c' == if k < |lh| then c[a.start + k + 1 := src[lh[k]]]
                     else if k == |lh| then c[a.start := SetHead(c[a.start], lh)]
                     else if k <= 2 * |lh| then c[lh[k - |lh| - 1] := c[a.start + k - |lh|]]
                     else ClearHead(a, c)
  {
    hide GoodHead;
    var m := Committed(a, d, lh, src);
    if k == |lh| {
      assert Install(a, m, 0) == m;
    } else if |lh| < k <= 2 * |lh| {
      hide Committed;
      InstallStep(a, m, lh, k - |lh| - 1);
    }
  }
}
