/** What every run of the log system keeps, and what a crash at any point of a run leaves behind. */
module LogSafety {
  import opened LogDisk
  import opened LogDevice
  import opened LogSystem

  /** The disk as it would be if every change had been written straight to it. */
  function Replay(d: Disk, hist: seq<Update>): (r: Disk)
    ensures |r| == |d|
  {
    if hist == [] then d
    else
      var u := hist[|hist| - 1];
      var r := Replay(d, hist[..|hist| - 1]);
      if 0 <= u.b < |r| then r[u.b := u.data] else r
  }

  function Logical(s: State): (r: Disk)
    ensures |r| == |s.init|
  {
    Replay(s.init, s.hist)
  }

  // ---------------------------------------------------------------- the invariant

  /** The list fits the log area. */
  predicate Fitting(a: Area, lh: seq<Word>) {
    |lh| < a.size
  }

  /** The list fits, or it is one block too long and pins every buffer. */
  ghost predicate LogOk(a: Area, len: nat, lh: seq<Word>) {
    && 1 <= a.size && a.start + a.size <= len <= 0x1_0000_0000
    && |lh| <= LOGSIZE && (Fitting(a, lh) || |lh| == a.size == NBUF)
    && (forall i :: 0 <= i < |lh| ==> lh[i] < len && !InLog(a, lh[i]))
    && (forall i, j :: 0 <= i < j < |lh| ==> lh[i] != lh[j])
  }

  /** References are counted, one per user and one per pin; a block that is pinned or in a writer's
      hands is cached; and what is cached is current. */
  ghost predicate BufOk(buf: Buf, pinned: bool, cur: Block) {
    && buf.refcnt == buf.users + (if pinned then 1 else 0)
    && buf.users >= (if buf.holder.Some? then 1 else 0)
    && (pinned || buf.holder.Some? ==> buf.data.Some?)
    && (buf.dirty ==> buf.holder.Some?)
    && (buf.data.Some? ==> buf.data.value == cur)
  }

  ghost predicate BufsOk(a: Area, bufs: map<int, Buf>, pins: seq<Word>, cur: Disk) {
    && (forall b :: b in bufs ==> Home(a, cur, b) && BufOk(bufs[b], b in pins, cur[b]))
    && (forall b :: b in pins ==> b in bufs)
  }

  ghost predicate DirtyBlock(bufs: map<int, Buf>, b: int) {
    b in bufs && bufs[b].dirty
  }

  /** A block that is neither pinned nor in a writer's hands is current on disk. */
  ghost predicate DiskOk(a: Area, disk: Disk, bufs: map<int, Buf>, pins: seq<Word>, cur: Disk) {
    && |disk| == |cur|
    && forall b :: Home(a, cur, b) && b !in pins && !DirtyBlock(bufs, b) ==> disk[b] == cur[b]
  }

  /** The contents that the running commit installs. */
  ghost function Src(lh: seq<Word>, cur: Disk): (m: map<nat, Block>)
    requires forall i :: 0 <= i < |lh| ==> lh[i] < |cur|
  {
    map b: nat | b in lh :: cur[b]
  }

  /** The last committed disk holds the first `mark` changes, and no others. */
  ghost predicate BaseOk(a: Area, base: Disk, init: Disk, hist: seq<Update>, mark: nat) {
    && mark <= |hist|
    && Fits(a, base) && |base| == |init|
    && HeadN(a, base) == 0
    && forall b :: Home(a, init, b) ==> base[b] == Replay(init, hist[..mark])[b]
  }

  /** The disk is the last committed one plus what the running commit has written. A commit of a list that
      does not fit has written nothing. */
  ghost predicate CommitOk(a: Area, s: State) {
    && (s.committing ==> s.ops == [])
    && if s.committing && Fitting(a, s.lh) then
      && LogOk(a, |s.init|, s.lh)
      && s.pc <= 2 * |s.lh| + 2 && (s.lh == [] ==> s.pc == 0)
      && Committable(a, s.base, s.lh, Src(s.lh, Logical(s)))
      && s.disk == CommitDisk(a, s.base, s.lh, Src(s.lh, Logical(s)), s.pc)
    else
      s.disk == s.base && s.pc == 0
  }

  /** Calls covered by the last commit are over, and share no id with later ones. */
  ghost predicate OpsOk(ops: seq<Op>, hist: seq<Update>, used: set<int>, mark: nat) {
    && mark <= |hist|
    && (forall i :: 0 <= i < |ops| ==> ops[i].id in used)
    && (forall k :: 0 <= k < |hist| ==> hist[k].op in used)
    && (forall k, i :: 0 <= k < mark && 0 <= i < |ops| ==> hist[k].op != ops[i].id)
    && (forall j, k :: 0 <= j < mark <= k < |hist| ==> hist[j].op != hist[k].op)
  }

  ghost predicate Active(ops: seq<Op>, id: int) {
    exists i :: 0 <= i < |ops| && ops[i].id == id
  }

  /** Only a call in progress has changes that are not yet logged. */
  ghost predicate DirtyOk(bufs: map<int, Buf>, ops: seq<Op>) {
    forall b :: b in bufs && bufs[b].dirty ==> bufs[b].holder.Some? && Active(ops, bufs[b].holder.value)
  }

  /** Log space that the calls in progress may still use. */
  function Reserve(ops: seq<Op>): (n: int) {
    if ops == [] then 0 else MAXOPBLOCKS - |ops[0].logged| + Reserve(ops[1..])
  }

  /** The log never promises more space than it has. */
  ghost predicate BudgetOk(ops: seq<Op>, lh: seq<Word>) {
    && (forall i :: 0 <= i < |ops| ==> |ops[i].logged| <= MAXOPBLOCKS)
    && (forall i, b :: 0 <= i < |ops| && b in ops[i].logged ==> b in lh)
    && |lh| + Reserve(ops) <= LOGSIZE
  }

  ghost predicate Inv(a: Area, s: State) {
    var pins, cur := Pins(s.lh, s.pc), Logical(s);
    && s.outstanding == |s.ops|
    && |s.bufs| <= NBUF
    && LogOk(a, |s.init|, s.lh)
    && BufsOk(a, s.bufs, pins, cur)
    && DiskOk(a, s.disk, s.bufs, pins, cur)
    && BaseOk(a, s.base, s.init, s.hist, s.mark)
    && CommitOk(a, s)
    && OpsOk(s.ops, s.hist, s.used, s.mark)
    && DirtyOk(s.bufs, s.ops)
    && BudgetOk(s.ops, s.lh)
  }

  // ---------------------------------------------------------------- every step keeps it

  lemma {:induction false} ReserveAppend(ops: seq<Op>, o: Op)
    ensures Reserve(ops + [o]) == Reserve(ops) + MAXOPBLOCKS - |o.logged|
  {
    if ops != [] {
      assert (ops + [o])[1..] == ops[1..] + [o];
      ReserveAppend(ops[1..], o);
    }
  }

  lemma {:induction false} ReserveUpdate(ops: seq<Op>, i: nat, o: Op)
    requires i < |ops|
    ensures Reserve(ops[i := o]) == Reserve(ops) + |ops[i].logged| - |o.logged|
  {
    if i > 0 {
      assert ops[i := o][1..] == ops[1..][i - 1 := o];
      ReserveUpdate(ops[1..], i - 1, o);
    }
  }

  lemma {:induction false} ReserveRemove(ops: seq<Op>, i: nat)
    requires i < |ops|
    ensures Reserve(ops[..i] + ops[i + 1..]) == Reserve(ops) - (MAXOPBLOCKS - |ops[i].logged|)
  {
    if i == 0 {
      assert ops[..0] + ops[1..] == ops[1..];
    } else {
      assert (ops[..i] + ops[i + 1..])[1..] == ops[1..][..i - 1] + ops[1..][i..];
      ReserveRemove(ops[1..], i - 1);
    }
  }

  lemma {:induction false} ReserveNonneg(ops: seq<Op>)
    requires forall i :: 0 <= i < |ops| ==> |ops[i].logged| <= MAXOPBLOCKS
    ensures Reserve(ops) >= 0
  {
    if ops != [] {
      ReserveNonneg(ops[1..]);
    }
  }

  lemma {:induction false} ReserveBound(ops: seq<Op>)
    ensures Reserve(ops) <= MAXOPBLOCKS * |ops|
  {
    if ops != [] {
      ReserveBound(ops[1..]);
    }
  }

  lemma BeginKeeps(a: Area, s: State, id: int)
    requires Inv(a, s) && Enabled(a, s, Begin(id))
    ensures Inv(a, Next(a, s, Begin(id)))
  {
    hide Replay, CommitDisk, BufsOk, DiskOk;
    var s' := Next(a, s, Begin(id));
    ReserveAppend(s.ops, Op(id, {}, None));
    ReserveBound(s.ops);
    assert forall i :: 0 <= i < |s.ops| ==> s'.ops[i] == s.ops[i];
  }

  lemma ChangeBufs(a: Area, bufs: map<int, Buf>, pins: seq<Word>, cur: Disk, b: int, buf: Buf)
    requires BufsOk(a, bufs, pins, cur) && Home(a, cur, b) && BufOk(buf, b in pins, cur[b])
    ensures BufsOk(a, bufs[b := buf], pins, cur)
  {
    hide BufOk;
  }

  lemma ChangeDisk(a: Area, disk: Disk, bufs: map<int, Buf>, pins: seq<Word>, cur: Disk, b: int, buf: Buf)
    requires DiskOk(a, disk, bufs, pins, cur) && buf.dirty == DirtyBlock(bufs, b)
    ensures DiskOk(a, disk, bufs[b := buf], pins, cur)
  {
    assert forall x :: DirtyBlock(bufs[b := buf], x) == DirtyBlock(bufs, x);
  }

  lemma ChangeDirty(bufs: map<int, Buf>, ops: seq<Op>, b: int, buf: Buf)
    requires DirtyOk(bufs, ops) && buf.dirty == DirtyBlock(bufs, b)
    requires buf.dirty ==> buf.holder == bufs[b].holder
    ensures DirtyOk(bufs[b := buf], ops)
  {
    hide Active;
  }

  /** Changing one buffer that is not dirty, or only its count, keeps the invariant. */
  lemma BufferChange(a: Area, s: State, b: int, buf: Buf)
    requires Inv(a, s) && Home(a, s.init, b) && CanGet(s, b)
    requires BufOk(buf, b in Pins(s.lh, s.pc), Logical(s)[b])
    requires buf.dirty == DirtyBlock(s.bufs, b)
    requires buf.dirty ==> buf.holder == s.bufs[b].holder
    ensures Inv(a, s.(bufs := s.bufs[b := buf]))
  {
    hide Replay, Pins, Src, CommitDisk, Committable, LogOk, BufsOk, BufOk, DiskOk, DirtyBlock, DirtyOk, BaseOk,
         OpsOk, BudgetOk;
    ChangeBufs(a, s.bufs, Pins(s.lh, s.pc), Logical(s), b, buf);
    ChangeDisk(a, s.disk, s.bufs, Pins(s.lh, s.pc), Logical(s), b, buf);
    ChangeDirty(s.bufs, s.ops, b, buf);
  }

  /** What the invariant says of one buffer. */
  lemma BufAt(a: Area, bufs: map<int, Buf>, pins: seq<Word>, cur: Disk, b: int)
    requires BufsOk(a, bufs, pins, cur)
    ensures b in bufs ==> Home(a, cur, b) && BufOk(bufs[b], b in pins, cur[b])
    ensures b !in bufs ==> b !in pins
  {
  }

  lemma CleanOnDisk(a: Area, disk: Disk, bufs: map<int, Buf>, pins: seq<Word>, cur: Disk, b: int)
    requires DiskOk(a, disk, bufs, pins, cur)
    ensures |disk| == |cur|
    ensures Home(a, cur, b) && b !in pins && !DirtyBlock(bufs, b) ==> disk[b] == cur[b]
  {
  }

  lemma BufferStepsKeep(a: Area, s: State, act: Action)
    requires Inv(a, s) && Enabled(a, s, act)
    requires act.Bget? || act.Lock? || act.Unlock? || act.Put?
    ensures Inv(a, Next(a, s, act))
  {
    hide Replay, Pins, BufsOk, DiskOk, LogOk, BaseOk, CommitOk, OpsOk, DirtyOk, BudgetOk;
    BufAt(a, s.bufs, Pins(s.lh, s.pc), Logical(s), act.b);
    CleanOnDisk(a, s.disk, s.bufs, Pins(s.lh, s.pc), Logical(s), act.b);
    BufferChange(a, s, act.b, Next(a, s, act).bufs[act.b]);
  }

  lemma RecycleKeeps(a: Area, s: State, b: int)
    requires Inv(a, s) && Enabled(a, s, Recycle(b))
    ensures Inv(a, Next(a, s, Recycle(b)))
  {
    hide Replay, Pins, Src, CommitDisk, Committable, LogOk, BaseOk, OpsOk, BudgetOk;
    BufAt(a, s.bufs, Pins(s.lh, s.pc), Logical(s), b);
    assert forall x :: DirtyBlock(s.bufs - {b}, x) == DirtyBlock(s.bufs, x);
  }

  lemma ReplayAppend(d: Disk, hist: seq<Update>, u: Update)
    requires 0 <= u.b < |d|
    ensures Replay(d, hist + [u]) == Replay(d, hist)[u.b := u.data]
  {
    assert (hist + [u])[..|hist|] == hist;
  }

  /** One more change to a block that a call holds. */
  lemma ModifyBufs(a: Area, disk: Disk, bufs: map<int, Buf>, pins: seq<Word>, cur: Disk, b: int, data: Block)
    requires BufsOk(a, bufs, pins, cur) && DiskOk(a, disk, bufs, pins, cur)
    requires b in bufs && bufs[b].holder.Some?
    ensures Home(a, cur, b)
    ensures BufsOk(a, bufs[b := bufs[b].(data := Some(data), dirty := true)], pins, cur[b := data])
    ensures DiskOk(a, disk, bufs[b := bufs[b].(data := Some(data), dirty := true)], pins, cur[b := data])
  {
    var bufs' := bufs[b := bufs[b].(data := Some(data), dirty := true)];
    BufAt(a, bufs, pins, cur, b);
    assert BufOk(bufs'[b], b in pins, data);
    hide BufOk;
    assert forall x :: x != b ==> DirtyBlock(bufs', x) == DirtyBlock(bufs, x);
  }

  lemma ModifyKeeps(a: Area, s: State, i: nat, b: int, data: Block)
    requires Inv(a, s) && Enabled(a, s, Modify(i, b, data))
    ensures Inv(a, Next(a, s, Modify(i, b, data)))
  {
    hide Replay, Pins, BudgetOk, Committable, CommitDisk, LogOk, BufsOk, DiskOk;
    var s' := Next(a, s, Modify(i, b, data));
    ModifyBufs(a, s.disk, s.bufs, Pins(s.lh, s.pc), Logical(s), b, data);
    ReplayAppend(s.init, s.hist, Update(s.ops[i].id, b, data));
    assert s'.hist[..s.mark] == s.hist[..s.mark];
  }

  /** The tests of log_write change nothing that the invariant speaks of. */
  lemma TestKeeps(a: Area, s: State, i: nat, b: int)
    requires Inv(a, s) && Enabled(a, s, LogTest(i, b))
    ensures Inv(a, Next(a, s, LogTest(i, b)))
  {
    hide Replay, CommitDisk, BufsOk, DiskOk, BaseOk, LogOk, Committable;
    var s' := Next(a, s, LogTest(i, b));
    ReserveUpdate(s.ops, i, s'.ops[i]);
    assert forall k :: 0 <= k < |s.ops| ==> s'.ops[k].id == s.ops[k].id && s'.ops[k].logged == s.ops[k].logged;
  }

  lemma AppendBudget(ops: seq<Op>, lh: seq<Word>, i: nat, b: Word)
    requires BudgetOk(ops, lh) && i < |ops| && |ops[i].logged + {b}| <= MAXOPBLOCKS
    ensures b !in lh ==> |ops[i].logged| < MAXOPBLOCKS
    ensures BudgetOk(ops[i := ops[i].(logged := ops[i].logged + {b}, test := None)], Absorb(lh, b))
    ensures |Absorb(lh, b)| <= LOGSIZE
  {
    ReserveUpdate(ops, i, ops[i].(logged := ops[i].logged + {b}, test := None));
    assert b in Absorb(lh, b);
    assert forall x :: x in lh ==> x in Absorb(lh, b);
    assert b in ops[i].logged ==> ops[i].logged + {b} == ops[i].logged;
    ReserveNonneg(ops[i := ops[i].(logged := ops[i].logged + {b}, test := None)]);
  }

  lemma AppendBuffers(a: Area, s: State, i: nat, b: int)
    requires Inv(a, s) && Enabled(a, s, LogAppend(i, b))
    ensures var s' := Next(a, s, LogAppend(i, b));
            && BufsOk(a, s'.bufs, s'.lh, Logical(s))
            && DiskOk(a, s'.disk, s'.bufs, s'.lh, Logical(s))
  {
    var lh' := Absorb(s.lh, b);
    assert !s.committing && Pins(s.lh, s.pc) == s.lh;
    assert forall x: int :: x in lh' <==> x in s.lh || x == b;
    assert BufOk(s.bufs[b], b in s.lh, Logical(s)[b]);
  }

  lemma AppendKeeps(a: Area, s: State, i: nat, b: int)
    requires Inv(a, s) && Enabled(a, s, LogAppend(i, b))
    requires a.size >= LOGSIZE || Fitting(a, Absorb(s.lh, b))
    ensures Inv(a, Next(a, s, LogAppend(i, b)))
  {
    hide Replay, BudgetOk, CommitDisk, DiskOk;
    var s' := Next(a, s, LogAppend(i, b));
    AppendBudget(s.ops, s.lh, i, b);
    AppendBuffers(a, s, i, b);
    assert forall k :: 0 <= k < |s.ops| ==> s'.ops[k].id == s.ops[k].id;
  }

  lemma EndOps(s: State, i: nat)
    requires OpsOk(s.ops, s.hist, s.used, s.mark) && DirtyOk(s.bufs, s.ops) && BudgetOk(s.ops, s.lh)
    requires i < |s.ops|
    requires forall b :: b in s.bufs && s.bufs[b].dirty ==> s.bufs[b].holder != Some(s.ops[i].id)
    ensures var ops' := s.ops[..i] + s.ops[i + 1..];
            OpsOk(ops', s.hist, s.used, s.mark) && DirtyOk(s.bufs, ops') && BudgetOk(ops', s.lh)
  {
    var ops' := s.ops[..i] + s.ops[i + 1..];
    ReserveRemove(s.ops, i);
    assert forall k :: 0 <= k < |ops'| ==> ops'[k] == if k < i then s.ops[k] else s.ops[k + 1];
    forall b | b in s.bufs && s.bufs[b].dirty
      ensures Active(ops', s.bufs[b].holder.value)
    {
      var k :| 0 <= k < |s.ops| && s.ops[k].id == s.bufs[b].holder.value;
      assert ops'[if k < i then k else k - 1] == s.ops[k];
    }
  }

  /** The list that a commit starts with can be committed. */
  lemma StartCommit(a: Area, s: State)
    requires Inv(a, s) && !s.committing && Fitting(a, s.lh)
    ensures Committable(a, s.base, s.lh, Src(s.lh, Logical(s)))
    ensures s.disk == CommitDisk(a, s.base, s.lh, Src(s.lh, Logical(s)), 0)
  {
    hide Replay, Pins, BufsOk, DiskOk, OpsOk, DirtyOk, BudgetOk;
  }

  lemma EndKeeps(a: Area, s: State, i: nat)
    requires Inv(a, s) && Enabled(a, s, End(i))
    ensures Inv(a, Next(a, s, End(i)))
  {
    hide Replay, Pins, Src, Committable, LogOk, BufsOk, DiskOk, BaseOk, OpsOk, DirtyOk, BudgetOk;
    EndOps(s, i);
    if s.outstanding == 1 && Fitting(a, s.lh) {
      StartCommit(a, s);
    }
  }

  lemma NotCached(a: Area, bufs: map<int, Buf>, pins: seq<Word>, cur: Disk, b: int)
    requires BufsOk(a, bufs, pins, cur)
    ensures InLog(a, b) ==> b !in bufs
  {
  }

  lemma {:induction false} DistinctCount(bs: seq<Word>, keys: set<int>)
    requires forall i, j :: 0 <= i < j < |bs| ==> bs[i] != bs[j]
    requires forall i :: 0 <= i < |bs| ==> bs[i] in keys
    ensures |keys| >= |bs|
  {
    if |bs| > 0 {
      var k := |bs| - 1;
      DistinctCount(bs[..k], keys - {bs[k]});
    }
  }

  /** Distinct logged blocks that are all pinned take as many buffers. If those are all there are, bget has
      none for a block of the log. */
  lemma AllPinned(a: Area, s: State)
    requires Inv(a, s) && s.pc == 0
    ensures |s.lh| <= |s.bufs|
    ensures |s.lh| == NBUF ==> |s.bufs| == NBUF && (a.size > 1 ==> !CanGet(s, a.start + 1))
  {
    hide Replay, CommitOk, DiskOk, BaseOk, OpsOk, DirtyOk, BudgetOk, BufOk;
    assert forall i :: 0 <= i < |s.lh| ==> s.lh[i] in s.bufs;
    DistinctCount(s.lh, s.bufs.Keys);
    NotCached(a, s.bufs, Pins(s.lh, s.pc), Logical(s), a.start + 1);
  }

  /** So a commit only ever writes a list that fits the log area. */
  lemma CommitFits(a: Area, s: State)
    requires Inv(a, s) && (Enabled(a, s, CommitWrite) || Enabled(a, s, CommitEnd))
    ensures Fitting(a, s.lh)
  {
    hide Replay, BufsOk, DiskOk, BaseOk, OpsOk, DirtyOk, BudgetOk, Committable, CommitDisk;
    if !Fitting(a, s.lh) {
      AllPinned(a, s);
    }
  }

  /** What each home block holds while a commit runs. */
  lemma CommitDiskAt(a: Area, d: Disk, lh: seq<Word>, src: map<nat, Block>, pc: nat, b: int)
    requires Committable(a, d, lh, src) && Home(a, d, b)
    requires pc <= 2 * |lh| + 2
    ensures |CommitDisk(a, d, lh, src, pc)| == |d|
    ensures CommitDisk(a, d, lh, src, pc)[b] == if b in lh[..Installed(|lh|, pc)] then src[b] else d[b]
  {
    hide Install, LogWritten, Committed;
    if pc <= |lh| {
      LogWrittenAt(a, d, lh, src, pc, b);
    } else {
      InstallCommittedAt(a, d, lh, src, Installed(|lh|, pc), b);
    }
  }

  /** The write that the code does next is the next one in the list of a commit's writes. */
  lemma WriteNextIsCommitDisk(a: Area, s: State)
    requires Inv(a, s) && Enabled(a, s, CommitWrite)
    ensures Committable(a, s.base, s.lh, Src(s.lh, Logical(s)))
    ensures WriteNext(a, s) == CommitDisk(a, s.base, s.lh, Src(s.lh, Logical(s)), s.pc + 1)
  {
    hide CommitDisk, Replay, DiskOk, BaseOk, OpsOk, BudgetOk;
    CommitFits(a, s);
    CommitDiskStep(a, s.base, s.lh, Src(s.lh, Logical(s)), s.pc);
    if s.pc < |s.lh| {
      var b := s.lh[s.pc];
      assert BufOk(s.bufs[b], b in Pins(s.lh, s.pc), Logical(s)[b]);
    }
  }

  lemma PinsNext(lh: seq<Word>, pc: nat)
    requires forall i, j :: 0 <= i < j < |lh| ==> lh[i] != lh[j]
    requires |lh| < pc <= 2 * |lh|
    ensures var b := lh[pc - |lh| - 1];
            && b in Pins(lh, pc) && b !in Pins(lh, pc + 1)
            && forall x :: x != b ==> (x in Pins(lh, pc) <==> x in Pins(lh, pc + 1))
  {
    var k := pc - |lh| - 1;
    assert Pins(lh, pc) == [lh[k]] + Pins(lh, pc + 1);
  }

  lemma UnpinBuffers(a: Area, bufs: map<int, Buf>, lh: seq<Word>, pc: nat, cur: Disk)
    requires forall i, j :: 0 <= i < j < |lh| ==> lh[i] != lh[j]
    requires BufsOk(a, bufs, Pins(lh, pc), cur)
    requires |lh| < pc <= 2 * |lh|
    ensures var b := lh[pc - |lh| - 1];
            && b in bufs
            && BufsOk(a, bufs[b := bufs[b].(refcnt := bufs[b].refcnt - 1)], Pins(lh, pc + 1), cur)
  {
    PinsNext(lh, pc);
    var b := lh[pc - |lh| - 1];
    assert BufOk(bufs[b], true, cur[b]);
  }

  lemma CommitWriteBuffers(a: Area, s: State)
    requires Inv(a, s) && Enabled(a, s, CommitWrite)
    ensures BufsOk(a, BufsNext(a, s), Pins(s.lh, s.pc + 1), Logical(s))
  {
    hide Replay, CommitDisk, BufsOk, DiskOk, BaseOk, OpsOk, DirtyOk, BudgetOk;
    CommitFits(a, s);
    if |s.lh| < s.pc <= 2 * |s.lh| {
      UnpinBuffers(a, s.bufs, s.lh, s.pc, Logical(s));
    } else {
      assert s.pc < |s.lh| ==> a.start + s.pc + 1 !in s.bufs by {
        assert InLog(a, a.start + s.pc + 1) || s.pc >= |s.lh|;
        NotCached(a, s.bufs, Pins(s.lh, s.pc), Logical(s), a.start + s.pc + 1);
      }
      assert Pins(s.lh, s.pc) == Pins(s.lh, s.pc + 1);
    }
  }

  lemma InstalledOrPinned(lh: seq<Word>, pc: nat, b: int)
    requires forall i, j :: 0 <= i < j < |lh| ==> lh[i] != lh[j]
    ensures b in Pins(lh, pc) <==> b in lh && b !in lh[..Installed(|lh|, pc)]
  {
    var k := Installed(|lh|, pc);
    assert lh == lh[..k] + lh[k..];
    assert Pins(lh, pc) == lh[k..];
  }

  /** While a commit runs, a home block that is not pinned is current on disk if it was before. */
  lemma CommitDiskCurrent(a: Area, base: Disk, lh: seq<Word>, cur: Disk, pc: nat, b: int)
    requires LogOk(a, |cur|, lh) && Committable(a, base, lh, Src(lh, cur)) && |base| == |cur|
    requires pc < 2 * |lh| + 2
    requires Home(a, cur, b)
    requires b !in Pins(lh, pc) ==> CommitDisk(a, base, lh, Src(lh, cur), pc)[b] == cur[b]
    ensures b !in Pins(lh, pc + 1) ==> CommitDisk(a, base, lh, Src(lh, cur), pc + 1)[b] == cur[b]
  {
    hide CommitDisk, Installed, Pins, Committable;
    InstalledOrPinned(lh, pc, b);
    InstalledOrPinned(lh, pc + 1, b);
    CommitDiskAt(a, base, lh, Src(lh, cur), pc, b);
    CommitDiskAt(a, base, lh, Src(lh, cur), pc + 1, b);
  }

  lemma CommitWriteDisk(a: Area, s: State)
    requires Inv(a, s) && Enabled(a, s, CommitWrite)
    ensures DiskOk(a, WriteNext(a, s), BufsNext(a, s), Pins(s.lh, s.pc + 1), Logical(s))
  {
    hide CommitDisk, Replay, Pins;
    CommitFits(a, s);
    var cur := Logical(s);
    WriteNextIsCommitDisk(a, s);
    forall b | Home(a, cur, b) && b !in Pins(s.lh, s.pc + 1)
      ensures WriteNext(a, s)[b] == cur[b]
    {
      assert !DirtyBlock(s.bufs, b);
      CommitDiskCurrent(a, s.base, s.lh, cur, s.pc, b);
    }
  }

  lemma CommitWriteKeeps(a: Area, s: State)
    requires Inv(a, s) && Enabled(a, s, CommitWrite)
    ensures Inv(a, Next(a, s, CommitWrite))
  {
    hide CommitDisk, Replay, WriteNext, Pins, BufsOk, DiskOk, OpsOk, BudgetOk, Committable;
    CommitFits(a, s);
    WriteNextIsCommitDisk(a, s);
    CommitWriteBuffers(a, s);
    CommitWriteDisk(a, s);
  }

  lemma CommitDiskDone(a: Area, d: Disk, lh: seq<Word>, src: map<nat, Block>, pc: nat)
    requires Committable(a, d, lh, src) && HeadN(a, d) == 0
    requires pc == if lh == [] then 0 else 2 * |lh| + 2
    ensures var r := CommitDisk(a, d, lh, src, pc);
            |r| == |d| && Fits(a, r) && HeadN(a, r) == 0
  {
    if lh != [] {
      CommitCompletes(a, d, lh, src);
    }
  }

  lemma CommitEndDisk(a: Area, s: State)
    requires Inv(a, s) && Enabled(a, s, CommitEnd)
    ensures |s.disk| == |s.init| && Fits(a, s.disk) && HeadN(a, s.disk) == 0
    ensures forall b :: Home(a, s.init, b) ==> s.disk[b] == Logical(s)[b]
  {
    hide Replay, BufsOk, OpsOk, BudgetOk, CommitDisk, Committable;
    CommitFits(a, s);
    CommitDiskDone(a, s.base, s.lh, Src(s.lh, Logical(s)), s.pc);
    assert Pins(s.lh, s.pc) == [];
    assert forall b :: !DirtyBlock(s.bufs, b);
  }

  lemma CommitEndKeeps(a: Area, s: State)
    requires Inv(a, s) && Enabled(a, s, CommitEnd)
    ensures Inv(a, Next(a, s, CommitEnd))
  {
    hide Replay, CommitDisk;
    CommitEndDisk(a, s);
    assert s.hist[..|s.hist|] == s.hist;
    assert Pins(s.lh, s.pc) == [];
  }

  /** In a log area with room for LOGSIZE blocks and the header no append overfills the list, although
      the tests were made earlier: begin_op's reservation alone keeps the list within LOGSIZE. */
  lemma AppendFits(a: Area, s: State, act: Action)
    requires Inv(a, s) && Enabled(a, s, act) && a.size > LOGSIZE
    ensures Fitting(a, Next(a, s, act).lh)
  {
    hide Reserve, Replay, CommitDisk, BufsOk, DiskOk, BaseOk, CommitOk, OpsOk, DirtyOk, Committable;
    match act
    case LogAppend(i, b) =>
      AppendBudget(s.ops, s.lh, i, b);
    case _ =>
  }

  /** Every step keeps the invariant if the log area has LOGSIZE blocks or the list fits it. */
  lemma StepKeeps(a: Area, s: State, act: Action)
    requires Inv(a, s) && Enabled(a, s, act)
    requires a.size >= LOGSIZE || Fitting(a, Next(a, s, act).lh)
    ensures Inv(a, Next(a, s, act))
  {
    hide Inv, Enabled;
    match act
    case Begin(id) => BeginKeeps(a, s, id);
    case Modify(i, b, data) => ModifyKeeps(a, s, i, b, data);
    case LogTest(i, b) => TestKeeps(a, s, i, b);
    case LogAppend(i, b) => AppendKeeps(a, s, i, b);
    case End(i) => EndKeeps(a, s, i);
    case CommitWrite => CommitWriteKeeps(a, s);
    case CommitEnd => CommitEndKeeps(a, s);
    case Recycle(b) => RecycleKeeps(a, s, b);
    case _ => BufferStepsKeep(a, s, act);
  }
}
