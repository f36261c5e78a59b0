/** Log space: which log areas are large enough for log_write, whose tests come before the search for the
    block and before the log's lock is taken. */
module LogSpace {
  import opened LogDisk
  import opened LogSystem
  import opened LogSafety
  import opened LogTheorems

  // ---------------------------------------------------------------- panics

  /** A call within its budget is about to log a block, and panics. */
  ghost predicate CallPanics(a: Area, s: State, i: nat, b: int) {
    MayLog(s, i, b) && s.ops[i].test.None? && LogWritePanics(a, s)
  }

  /** The same with a block that is not in the log yet. */
  ghost predicate NewBlockPanics(a: Area, s: State, i: nat, b: int) {
    CallPanics(a, s, i, b) && b !in s.lh
  }

  /** With room for LOGSIZE blocks and the header, begin_op's reservation is enough: no call that
      stays within MAXOPBLOCKS distinct blocks panics on a new block. */
  lemma ReservationSuffices(a: Area, d: Disk, acts: seq<Action>, i: nat, b: int)
    requires Fits(a, d) && HeadN(a, d) == 0 && a.size > LOGSIZE
    ensures !NewBlockPanics(a, Exec(a, Boot(d), acts), i, b)
  {
    hide Exec, Replay, CommitDisk, BufsOk, DiskOk, BaseOk, CommitOk, OpsOk, DirtyOk;
    var s := Exec(a, Boot(d), acts);
    BootOk(a, d);
    ExecKeeps(a, Boot(d), acts);
    if MayLog(s, i, b) && b !in s.lh {
      AppendBudget(s.ops, s.lh, i, b);
      ReserveAtLeast(s.ops, i);
    }
  }

  /** Even then a call within its budget panics exactly when the log is full. It is then logging a block
      again that the log already has. */
  lemma PanicsIffLogFull(a: Area, d: Disk, acts: seq<Action>, i: nat, b: int)
    requires Fits(a, d) && HeadN(a, d) == 0 && a.size > LOGSIZE
    requires MayLog(Exec(a, Boot(d), acts), i, b) && Exec(a, Boot(d), acts).ops[i].test.None?
    ensures var s := Exec(a, Boot(d), acts);
            && (LogWritePanics(a, s) <==> |s.lh| == LOGSIZE)
            && (LogWritePanics(a, s) ==> b in s.lh)
  {
    hide Exec, Reserve, Replay, CommitDisk, BufsOk, DiskOk, BaseOk, CommitOk, OpsOk, DirtyOk;
    var s := Exec(a, Boot(d), acts);
    BootOk(a, d);
    ExecKeeps(a, Boot(d), acts);
    ReservationSuffices(a, d, acts, i, b);
  }

  lemma {:induction false} ReserveAtLeast(ops: seq<Op>, i: nat)
    requires i < |ops|
    requires forall k :: 0 <= k < |ops| ==> |ops[k].logged| <= MAXOPBLOCKS
    ensures Reserve(ops) >= MAXOPBLOCKS - |ops[i].logged|
  {
    if i == 0 {
      ReserveNonneg(ops[1..]);
    } else {
      ReserveAtLeast(ops[1..], i - 1);
    }
  }

  // ---------------------------------------------------------------- runs that fill the log

  lemma Then(a: Area, s: State, acts: seq<Action>, act: Action)
    requires Enabled(a, Exec(a, s, acts), act)
    ensures Exec(a, s, acts + [act]) == Next(a, Exec(a, s, acts), act)
  {
    ExecSplit(a, s, acts, [act]);
    assert [act][1..] == [];
  }

  /** A buffer after a call has taken a reference to it and locked it. */
  function Taken(s: State, u: int, b: int): (buf: Buf)
    requires 0 <= b < |s.disk|
  {
    if b in s.bufs then s.bufs[b].(refcnt := s.bufs[b].refcnt + 1, users := s.bufs[b].users + 1, holder := Some(u))
    else Buf(1, Some(s.disk[b]), Some(u), 1, false)
  }

  /** The buffer of a logged block, with its data, that nobody has locked or changed. */
  ghost predicate Idle(buf: Buf) {
    buf.data.Some? && buf.holder.None? && buf.users >= 0 && buf.refcnt == buf.users + 1 && !buf.dirty
  }

  lemma TakeBuffer(a: Area, s: State, acts: seq<Action>, u: int, b: Word) returns (more: seq<Action>, s': State)
    requires var t := Exec(a, s, acts); Home(a, t.disk, b) && CanGet(t, b) && (b in t.bufs ==> Idle(t.bufs[b]))
    ensures s' == Exec(a, s, more)
    ensures var t := Exec(a, s, acts); s' == t.(bufs := t.bufs[b := Taken(t, u, b)])
  {
    hide Exec;
    Then(a, s, acts, Bget(b));
    Then(a, s, acts + [Bget(b)], Lock(u, b));
    more := acts + [Bget(b)] + [Lock(u, b)];
    s' := Exec(a, s, more);
  }

  lemma DropBuffer(a: Area, s: State, acts: seq<Action>, u: int, b: Word) returns (more: seq<Action>, s': State)
    requires var t := Exec(a, s, acts); Holds(t, u, b) && !t.bufs[b].dirty && t.bufs[b].users >= 1
    ensures s' == Exec(a, s, more)
    ensures var t := Exec(a, s, acts);
            var buf := t.bufs[b].(holder := None, refcnt := t.bufs[b].refcnt - 1, users := t.bufs[b].users - 1);
            s' == t.(bufs := t.bufs[b := buf])
  {
    hide Exec;
    Then(a, s, acts, Unlock(u, b));
    Then(a, s, acts + [Unlock(u, b)], Put(b));
    more := acts + [Unlock(u, b)] + [Put(b)];
    s' := Exec(a, s, more);
  }

  /** Three calls are in progress and have logged the first t blocks in turn; no buffer is locked. */
  ghost predicate Filled(s: State, homes: seq<Word>, t: nat)
    requires t <= |homes|
  {
    && s.lh == homes[..t] && !s.committing && s.pc == 0 && s.hist == []
    && FilledOps(s, homes, t) && FilledBufs(s.bufs, homes[..t])
  }

  ghost predicate FilledOps(s: State, homes: seq<Word>, t: nat)
    requires t <= |homes|
  {
    && s.outstanding == 3 && |s.ops| == 3
    && (forall i :: 0 <= i < 3 ==> s.ops[i].id == i && s.ops[i].test.None? && |s.ops[i].logged| <= (t + 2 - i) / 3)
    && (t > 0 ==> homes[t - 1] in s.ops[(t - 1) % 3].logged)
  }

  /** The cached blocks are bs, and all of them idle. */
  ghost predicate FilledBufs(bufs: map<int, Buf>, bs: seq<Word>) {
    && |bufs| == |bs|
    && (forall b :: b in bufs ==> b in bs && Idle(bufs[b]))
    && (forall b :: b in bs ==> b in bufs)
  }

  ghost predicate DistinctHomes(a: Area, d: Disk, homes: seq<Word>) {
    && (forall i :: 0 <= i < |homes| ==> Home(a, d, homes[i]))
    && (forall i, j :: 0 <= i < j < |homes| ==> homes[i] != homes[j])
  }

  lemma FillStart(a: Area, d: Disk, homes: seq<Word>) returns (acts: seq<Action>)
    ensures var s := Exec(a, Boot(d), acts);
            Filled(s, homes, 0) && s.disk == d
  {
    acts := [];
    Then(a, Boot(d), [], Begin(0));
    Then(a, Boot(d), [] + [Begin(0)], Begin(1));
    Then(a, Boot(d), [] + [Begin(0)] + [Begin(1)], Begin(2));
    acts := [] + [Begin(0)] + [Begin(1)] + [Begin(2)];
  }

  /** A call that holds a new block logs it. */
  lemma LogHeld(a: Area, s: State, acts: seq<Action>, i: nat, b: Word) returns (more: seq<Action>, s': State)
    requires Enabled(a, Exec(a, s, acts), LogTest(i, b)) && b !in Exec(a, s, acts).lh
    ensures s' == Exec(a, s, more)
    ensures var t := Exec(a, s, acts);
            && s'.lh == t.lh + [b]
            && s' == t.(lh := s'.lh,
                        bufs := t.bufs[b := t.bufs[b].(refcnt := t.bufs[b].refcnt + 1, dirty := false)],
                        ops := t.ops[i := t.ops[i].(logged := t.ops[i].logged + {b})])
  {
    hide Exec;
    var t := Exec(a, s, acts);
    Then(a, s, acts, LogTest(i, b));
    Then(a, s, acts + [LogTest(i, b)], LogAppend(i, b));
    more := acts + [LogTest(i, b)] + [LogAppend(i, b)];
    s' := Exec(a, s, more);
    assert s'.ops == t.ops[i := t.ops[i].(logged := t.ops[i].logged + {b})];
  }

  lemma {:induction false} FillReaches(a: Area, d: Disk, homes: seq<Word>, t: nat) returns (acts: seq<Action>)
    requires Fits(a, d) && DistinctHomes(a, d, homes)
    requires t <= |homes| && t <= LOGSIZE && t < a.size
    ensures var s := Exec(a, Boot(d), acts);
            Filled(s, homes, t) && s.disk == d
  {
    if t == 0 {
      acts := FillStart(a, d, homes);
    } else {
      acts := FillReaches(a, d, homes, t - 1);
      acts := FillOne(a, Boot(d), acts, homes, t);
    }
  }

  /** Call i holds block b that nobody else uses, and has logged nothing beyond its share. */
  lemma OpsFilled(s: State, s': State, homes: seq<Word>, t: nat)
    requires 0 < t <= |homes| && FilledOps(s, homes, t - 1)
    requires var b, i := homes[t - 1], (t - 1) % 3;
             s'.outstanding == s.outstanding && s'.ops == s.ops[i := s.ops[i].(logged := s.ops[i].logged + {b})]
    ensures FilledOps(s', homes, t)
  {
    var b, i := homes[t - 1], (t - 1) % 3;
    assert |s.ops[i].logged + {b}| <= |s.ops[i].logged| + 1;
  }

  /** The call whose turn it is, or will be next, has some of its budget left. */
  lemma ShareLeft(s: State, homes: seq<Word>, t: nat, i: nat, b: Word)
    requires t <= |homes| && FilledOps(s, homes, t)
    requires (i == t % 3 && t < LOGSIZE) || (i == (t + 1) % 3 && t + 1 < LOGSIZE)
    ensures i < |s.ops| && s.ops[i].id == i && s.ops[i].test.None? && |s.ops[i].logged + {b}| <= MAXOPBLOCKS
  {
    assert |s.ops[i].logged + {b}| <= |s.ops[i].logged| + 1;
  }

  lemma NotFilled(bufs: map<int, Buf>, bs: seq<Word>, b: Word)
    requires FilledBufs(bufs, bs)
    ensures |bufs| == |bs| && (b in bufs <==> b in bs) && (b in bs ==> Idle(bufs[b]))
  {
  }

  lemma OneMore(bufs: map<int, Buf>, bs: seq<Word>, b: Word, buf: Buf)
    requires FilledBufs(bufs, bs) && b !in bs && Idle(buf)
    ensures FilledBufs(bufs[b := buf], bs + [b])
  {
    hide Idle;
  }

  lemma FillOne(a: Area, s: State, acts: seq<Action>, homes: seq<Word>, t: nat) returns (more: seq<Action>)
    requires 0 < t <= |homes| && t <= LOGSIZE && t < a.size
    requires var s1 := Exec(a, s, acts); Filled(s1, homes, t - 1) && DistinctHomes(a, s1.disk, homes)
    ensures var s' := Exec(a, s, more);
            Filled(s', homes, t) && s'.disk == Exec(a, s, acts).disk
  {
    hide Exec, FilledBufs, FilledOps;
    var s1 := Exec(a, s, acts);
    var b, i := homes[t - 1], (t - 1) % 3;
    assert b !in homes[..t - 1];
    NotFilled(s1.bufs, homes[..t - 1], b);
    ShareLeft(s1, homes, t - 1, i, b);
    assert s1.outstanding == 3 by { ThreeCalls(s1, homes, t - 1); }
    var s2, s3, s4;
    more, s2 := TakeBuffer(a, s, acts, i, b);
    more, s3 := LogHeld(a, s, more, i, b);
    more, s4 := DropBuffer(a, s, more, i, b);
    assert homes[..t] == homes[..t - 1] + [b];
    OpsFilled(s1, s4, homes, t);
    OneMore(s1.bufs, homes[..t - 1], b, s4.bufs[b]);
    assert s4.bufs == s1.bufs[b := s4.bufs[b]];
  }

  lemma ThreeCalls(s: State, homes: seq<Word>, t: nat)
    requires t <= |homes| && FilledOps(s, homes, t)
    ensures s.outstanding == 3 && |s.ops| == 3
    ensures forall i :: 0 <= i < 3 ==> s.ops[i].id == i && s.ops[i].test.None?
  {
  }

  /** A new block runs into the panic exactly when the log area does not hold LOGSIZE blocks and the
      header. The image that mkfs builds has one block less than that. */
  lemma PanicsIffLogTooSmall(a: Area, d: Disk, homes: seq<Word>)
    requires Fits(a, d) && HeadN(a, d) == 0
    requires DistinctHomes(a, d, homes) && |homes| == LOGSIZE
    ensures (exists acts, i, b :: NewBlockPanics(a, Exec(a, Boot(d), acts), i, b)) <==> a.size <= LOGSIZE
  {
    hide Exec, NewBlockPanics;
    if a.size <= LOGSIZE {
      var acts, i, b := NewBlockRun(a, d, homes);
      assert NewBlockPanics(a, Exec(a, Boot(d), acts), i, b);
    } else {
      forall acts, i, b
        ensures !NewBlockPanics(a, Exec(a, Boot(d), acts), i, b)
      {
        ReservationSuffices(a, d, acts, i, b);
      }
    }
  }

  lemma NewBlockRun(a: Area, d: Disk, homes: seq<Word>) returns (acts: seq<Action>, i: nat, b: int)
    requires Fits(a, d) && HeadN(a, d) == 0 && a.size <= LOGSIZE
    requires DistinctHomes(a, d, homes) && |homes| == LOGSIZE
    ensures NewBlockPanics(a, Exec(a, Boot(d), acts), i, b)
  {
    hide Exec;
    var t := a.size - 1;
    i, b := t % 3, homes[t];
    acts := FillReaches(a, d, homes, t);
    assert b !in homes[..t];
    var s;
    acts, s := TakeBuffer(a, Boot(d), acts, i, b);
    assert |s.ops[i].logged + {b}| <= |s.ops[i].logged| + 1;
  }

  /** No log area is large enough for every call within its budget: both tests come before the search for
      the block, so three calls that have filled the log panic on logging a block a second time. */
  lemma SomeRunPanics(a: Area, d: Disk, homes: seq<Word>) returns (acts: seq<Action>, i: nat, b: int)
    requires Fits(a, d) && HeadN(a, d) == 0
    requires DistinctHomes(a, d, homes) && |homes| == LOGSIZE
    ensures CallPanics(a, Exec(a, Boot(d), acts), i, b)
  {
    hide Exec;
    if a.size <= LOGSIZE {
      acts, i, b := NewBlockRun(a, d, homes);
    } else {
      i, b := (LOGSIZE - 1) % 3, homes[LOGSIZE - 1];
      acts := FillReaches(a, d, homes, LOGSIZE);
      var s;
      acts, s := TakeBuffer(a, Boot(d), acts, i, b);
      assert s.ops[i].logged + {b} == s.ops[i].logged;
    }
  }

  // ---------------------------------------------------------------- a list that does not fit

  /** A log area of one block is the header alone: log_write always panics, and nothing is ever logged. */
  lemma {:induction false} HeaderOnly(a: Area, s: State, acts: seq<Action>)
    requires a.size == 1 && forall i :: 0 <= i < |s.ops| ==> s.ops[i].test.None?
    ensures Serial(a, s, acts)
    decreases |acts|
  {
    if acts != [] {
      HeaderOnly(a, if Enabled(a, s, acts[0]) then Next(a, s, acts[0]) else s, acts[1..]);
    }
  }

  /** Two calls in progress that hold a block each and are not inside log_write. */
  ghost predicate TwoHold(s: State, i: nat, b: int, j: nat, c: int) {
    && i != j && b != c
    && MayLog(s, i, b) && s.ops[i].test.None?
    && MayLog(s, j, c) && s.ops[j].test.None?
    && s.bufs[b].users >= 1 && s.bufs[c].users >= 1 && !s.bufs[b].dirty
  }

  /** Both make the tests of log_write, and only then both append. */
  lemma BothAppend(a: Area, s: State, acts: seq<Action>, i: nat, b: Word, j: nat, c: Word)
    returns (more: seq<Action>, s': State)
    requires var t := Exec(a, s, acts);
             TwoHold(t, i, b, j, c) && !LogWritePanics(a, t) && b !in t.lh && c !in t.lh
    ensures s' == Exec(a, s, more)
    ensures var t := Exec(a, s, acts);
            && s'.lh == t.lh + [b, c]
            && s' == t.(lh := s'.lh, bufs := s'.bufs, ops := s'.ops)
            && s'.bufs == t.bufs[b := t.bufs[b].(refcnt := t.bufs[b].refcnt + 1, dirty := false)]
                               [c := t.bufs[c].(refcnt := t.bufs[c].refcnt + 1, dirty := false)]
            && s'.ops == t.ops[i := t.ops[i].(logged := t.ops[i].logged + {b})]
                              [j := t.ops[j].(logged := t.ops[j].logged + {c})]
  {
    hide Exec;
    var t := Exec(a, s, acts);
    Then(a, s, acts, LogTest(i, b));
    more := acts + [LogTest(i, b)];
    Then(a, s, more, LogTest(j, c));
    more := more + [LogTest(j, c)];
    Then(a, s, more, LogAppend(i, b));
    more := more + [LogAppend(i, b)];
    Then(a, s, more, LogAppend(j, c));
    more := more + [LogAppend(j, c)];
    s' := Exec(a, s, more);
    assert s'.lh == t.lh + [b, c];
  }

  /** The blocks bs are logged and cached, no buffer is locked, and three calls are in progress. */
  ghost predicate Quiet(s: State, bs: seq<Word>) {
    && s.lh == bs && !s.committing && s.pc == 0
    && s.outstanding == 3 && |s.ops| == 3 && (forall k :: 0 <= k < 3 ==> s.ops[k].test.None?)
    && FilledBufs(s.bufs, bs)
  }

  ghost predicate JustTaken(buf: Buf) {
    buf.refcnt == buf.users == 1
  }

  lemma HoldTwo(a: Area, d: Disk, homes: seq<Word>, t: nat) returns (acts: seq<Action>, s: State)
    requires Fits(a, d) && DistinctHomes(a, d, homes) && t < a.size && t + 2 <= |homes| <= LOGSIZE
    ensures s == Exec(a, Boot(d), acts) && s.disk == d && s.init == d && s.hist == []
    ensures var b, c := homes[t], homes[t + 1];
            && b !in homes[..t] && c !in homes[..t]
            && TwoHold(s, t % 3, b, (t + 1) % 3, c)
            && s.bufs[b].data.Some? && JustTaken(s.bufs[b]) && JustTaken(s.bufs[c])
            && Quiet(s.(bufs := s.bufs - {b} - {c}), homes[..t])
            && forall k :: 0 <= k < 3 ==> s.ops[k].id == k
  {
    hide Exec, FilledBufs, FilledOps;
    var b, c, i, j := homes[t], homes[t + 1], t % 3, (t + 1) % 3;
    acts := FillReaches(a, d, homes, t);
    var s0 := Exec(a, Boot(d), acts);
    ExecHistory(a, Boot(d), acts);
    assert b !in homes[..t] && c !in homes[..t] && b != c;
    ThreeCalls(s0, homes, t);
    ShareLeft(s0, homes, t, i, b);
    ShareLeft(s0, homes, t, j, c);
    NotFilled(s0.bufs, homes[..t], b);
    NotFilled(s0.bufs, homes[..t], c);
    var s1;
    acts, s1 := TakeBuffer(a, Boot(d), acts, i, b);
    acts, s := TakeBuffer(a, Boot(d), acts, j, c);
    assert s.bufs - {b} - {c} == s0.bufs;
  }

  /** The second call changes its block before it logs it. */
  lemma HoldAndChange(a: Area, d: Disk, homes: seq<Word>, t: nat, data: Block) returns (acts: seq<Action>, s: State)
    requires Fits(a, d) && DistinctHomes(a, d, homes) && t < a.size && t + 2 <= |homes| <= LOGSIZE
    ensures s == Exec(a, Boot(d), acts) && s.disk == d && s.init == d
    ensures var b, c, j := homes[t], homes[t + 1], (t + 1) % 3;
            && b !in homes[..t] && c !in homes[..t]
            && TwoHold(s, t % 3, b, j, c) && s.hist == [Update(j, c, data)]
            && s.bufs[b].data.Some? && s.bufs[c].data == Some(data) && JustTaken(s.bufs[b]) && JustTaken(s.bufs[c])
            && Quiet(s.(bufs := s.bufs - {b} - {c}), homes[..t])
  {
    hide Exec, FilledBufs;
    var b, c, j := homes[t], homes[t + 1], (t + 1) % 3;
    var s0;
    acts, s0 := HoldTwo(a, d, homes, t);
    Then(a, Boot(d), acts, Modify(j, c, data));
    acts := acts + [Modify(j, c, data)];
    s := Exec(a, Boot(d), acts);
    assert s.bufs - {b} - {c} == s0.bufs - {b} - {c};
  }

  lemma TwoMore(bufs: map<int, Buf>, bufs': map<int, Buf>, bs: seq<Word>, b: Word, c: Word)
    requires FilledBufs(bufs - {b} - {c}, bs) && b in bufs' && c in bufs' && Idle(bufs'[b]) && Idle(bufs'[c])
    requires b !in bs && c !in bs && b != c && bufs' == bufs[b := bufs'[b]][c := bufs'[c]]
    ensures FilledBufs(bufs', bs + [b, c])
  {
    hide Idle, FilledBufs;
    OneMore(bufs - {b} - {c}, bs, b, bufs'[b]);
    OneMore((bufs - {b} - {c})[b := bufs'[b]], bs + [b], c, bufs'[c]);
    assert bufs' == (bufs - {b} - {c})[b := bufs'[b]][c := bufs'[c]];
    assert bs + [b] + [c] == bs + [b, c];
  }

  /** The list does not fit the log area: both calls passed the tests when it had room for one block. */
  lemma Overfill(a: Area, d: Disk, homes: seq<Word>, data: Block) returns (acts: seq<Action>, s: State)
    requires Fits(a, d) && 2 <= a.size <= LOGSIZE
    requires DistinctHomes(a, d, homes) && |homes| == LOGSIZE
    ensures s == Exec(a, Boot(d), acts) && s.disk == d && s.init == d
    ensures Quiet(s, homes[..a.size]) && s.bufs[homes[a.size - 1]].data == Some(data)
    ensures s.hist == [Update((a.size - 1) % 3, homes[a.size - 1], data)]
  {
    hide Exec, FilledBufs;
    var t := a.size - 2;
    var b, c, i, j := homes[t], homes[t + 1], t % 3, (t + 1) % 3;
    var s0, s1, s2;
    acts, s0 := HoldAndChange(a, d, homes, t, data);
    acts, s1 := BothAppend(a, Boot(d), acts, i, b, j, c);
    acts, s2 := DropBuffer(a, Boot(d), acts, s0.ops[i].id, b);
    acts, s := DropBuffer(a, Boot(d), acts, s0.ops[j].id, c);
    assert homes[..t + 2] == homes[..t] + [b, c];
    TwoMore(s0.bufs, s.bufs, homes[..t], b, c);
  }

  /** All three calls end, and the last one starts the commit. */
  lemma EndAll(a: Area, s: State, acts: seq<Action>, bs: seq<Word>) returns (more: seq<Action>, s': State)
    requires Quiet(Exec(a, s, acts), bs)
    ensures s' == Exec(a, s, more)
    ensures s' == Exec(a, s, acts).(committing := true, outstanding := 0, ops := [])
  {
    hide Exec;
    var t := Exec(a, s, acts);
    Then(a, s, acts, End(0));
    more := acts + [End(0)];
    Then(a, s, more, End(0));
    more := more + [End(0)];
    Then(a, s, more, End(0));
    more := more + [End(0)];
    s' := Exec(a, s, more);
    assert s'.ops == [];
  }

  /** A commit is about to start, and none of the blocks that write_log copies to is cached. */
  ghost predicate AboutToCommit(a: Area, s: State) {
    && s.committing && Fits(a, s.disk) && a.start + |s.lh| < |s.disk| && |s.lh| < NBUF
    && FilledBufs(s.bufs, s.lh)
    && forall b :: b in s.bufs ==> !(a.start < b <= a.start + |s.lh|)
  }

  /** The k-th block that write_log copies goes to block start + k, whatever the size of the log area. */
  lemma {:induction false} CopyBlocks(a: Area, s: State, acts: seq<Action>, k: nat)
    returns (more: seq<Action>, s': State)
    requires var t := Exec(a, s, acts); AboutToCommit(a, t) && t.pc == 0 && k <= |t.lh|
    ensures s' == Exec(a, s, more)
    ensures var t := Exec(a, s, acts);
            && s' == t.(disk := s'.disk, pc := k) && |s'.disk| == |t.disk|
            && s'.disk[a.start] == t.disk[a.start]
            && (k > 0 ==> t.lh[k - 1] in t.bufs && Some(s'.disk[a.start + k]) == t.bufs[t.lh[k - 1]].data)
  {
    hide Exec;
    if k == 0 {
      more, s' := acts, Exec(a, s, acts);
    } else {
      more, s' := CopyBlocks(a, s, acts, k - 1);
      Then(a, s, more, CommitWrite);
      more := more + [CommitWrite];
      s' := Exec(a, s, more);
    }
  }

  /** A commit of more blocks than the log area holds. */
  ghost predicate CommitsTooMuch(a: Area, s: State) {
    s.committing && |s.lh| >= a.size
  }

  lemma OverfullRun(a: Area, d: Disk, homes: seq<Word>, data: Block) returns (acts: seq<Action>, s: State)
    requires Fits(a, d) && 2 <= a.size <= LOGSIZE
    requires DistinctHomes(a, d, homes) && |homes| == LOGSIZE
    ensures s == Exec(a, Boot(d), acts) && CommitsTooMuch(a, s)
    ensures s.disk == d && s.init == d && s.pc == 0
    ensures s.lh == homes[..a.size] && FilledBufs(s.bufs, s.lh) && s.bufs[homes[a.size - 1]].data == Some(data)
    ensures s.hist == [Update((a.size - 1) % 3, homes[a.size - 1], data)]
  {
    hide Exec;
    acts, s := Overfill(a, d, homes, data);
    acts, s := EndAll(a, Boot(d), acts, homes[..a.size]);
  }

  lemma FittingList(a: Area, d: Disk, acts: seq<Action>)
    requires Fits(a, d) && HeadN(a, d) == 0 && (a.size == 1 || a.size > LOGSIZE)
    ensures RoomFor(a, Boot(d), acts) && !CommitsTooMuch(a, Exec(a, Boot(d), acts))
  {
    if a.size == 1 {
      HeaderOnly(a, Boot(d), acts);
    }
    BootOk(a, d);
    ExecKeeps(a, Boot(d), acts);
  }

  /** Some run starts to commit a list that does not fit the log area exactly when the area is more than the
      header and does not hold LOGSIZE blocks beside it: the tests of log_write are made before the lock is
      taken, so two calls can both pass them when there is room for one block. */
  lemma OverfullIff(a: Area, d: Disk, homes: seq<Word>)
    requires Fits(a, d) && HeadN(a, d) == 0
    requires DistinctHomes(a, d, homes) && |homes| == LOGSIZE
    ensures (exists acts :: CommitsTooMuch(a, Exec(a, Boot(d), acts))) <==> 2 <= a.size <= LOGSIZE
  {
    hide Exec, CommitsTooMuch;
    if 2 <= a.size <= LOGSIZE {
      var acts, s := OverfullRun(a, d, homes, d[a.start]);
    } else {
      forall acts
        ensures !CommitsTooMuch(a, Exec(a, Boot(d), acts))
      {
        FittingList(a, d, acts);
      }
    }
  }

  // ---------------------------------------------------------------- what it does to the disk

  /** The promise of CrashAtAnyPoint. */
  ghost predicate CrashSafe(a: Area, d: Disk, acts: seq<Action>, ks: seq<nat>) {
    var s := Exec(a, Boot(d), acts);
    && ValidHead(a, s.disk)
    && exists cut: nat ::
         BetweenCalls(s, cut) && HoldsChanges(a, d, s.hist[..cut], Recovered(a, AfterCrashes(a, s.disk, ks)))
  }

  /** If the log area is smaller than LOGSIZE, the block behind it gets the contents of another one, though no
      call changed it: write_log still finds a buffer for it. */
  lemma WritesBeyond(a: Area, d: Disk, homes: seq<Word>) returns (acts: seq<Action>, s: State)
    requires Fits(a, d) && 2 <= a.size < LOGSIZE && a.start + a.size < |d|
    requires DistinctHomes(a, d, homes) && |homes| == LOGSIZE && a.start + a.size !in homes
    ensures s == Exec(a, Boot(d), acts) && |s.disk| == |d| && s.disk[a.start] == d[a.start]
    ensures s.disk[a.start + a.size] != d[a.start + a.size]
    ensures forall u :: u in s.hist ==> u.b != a.start + a.size
  {
    hide Exec;
    var x := a.start + a.size;
    var data: Block := d[x][0 := if d[x][0] == 0 then 1 else 0];
    acts, s := OverfullRun(a, d, homes, data);
    assert forall b :: b in s.lh ==> b in homes;
    assert AboutToCommit(a, s);
    hide FilledBufs, AboutToCommit;
    acts, s := CopyBlocks(a, Boot(d), acts, a.size);
    assert data[0] != d[x][0];
  }

  lemma {:induction false} UntouchedBlock(d: Disk, hist: seq<Update>, b: int)
    requires 0 <= b < |d| && forall u :: u in hist ==> u.b != b
    ensures Replay(d, hist)[b] == d[b]
  {
    if hist != [] {
      UntouchedBlock(d, hist[..|hist| - 1], b);
    }
  }

  /** The log is crash safe in every run exactly when its area is the header alone, where every log_write
      panics, or has LOGSIZE blocks. With LOGSIZE blocks a list that does not fit pins every buffer, and the
      commit comes to a stop before its first write. */
  lemma CrashSafeIff(a: Area, d: Disk, homes: seq<Word>)
    requires Fits(a, d) && HeadN(a, d) == 0 && a.start + a.size < |d|
    requires DistinctHomes(a, d, homes) && |homes| == LOGSIZE && a.start + a.size !in homes
    ensures (forall acts, ks :: CrashSafe(a, d, acts, ks)) <==> a.size == 1 || a.size >= LOGSIZE
  {
    hide Exec, CrashSafe;
    if a.size == 1 || a.size >= LOGSIZE {
      forall acts, ks
        ensures CrashSafe(a, d, acts, ks)
      {
        LargeIsSafe(a, d, acts, ks);
      }
    } else {
      var acts, s := SmallIsUnsafe(a, d, homes);
      assert !CrashSafe(a, d, acts, []);
    }
  }

  lemma LargeIsSafe(a: Area, d: Disk, acts: seq<Action>, ks: seq<nat>)
    requires Fits(a, d) && HeadN(a, d) == 0 && (a.size == 1 || a.size >= LOGSIZE)
    ensures CrashSafe(a, d, acts, ks)
  {
    hide Exec, HoldsChanges, BetweenCalls, AfterCrashes, Recovered;
    if a.size == 1 {
      HeaderOnly(a, Boot(d), acts);
    }
    var cut := CrashAtAnyPoint(a, d, acts, ks);
  }

  lemma SmallIsUnsafe(a: Area, d: Disk, homes: seq<Word>) returns (acts: seq<Action>, s: State)
    requires Fits(a, d) && HeadN(a, d) == 0 && 2 <= a.size < LOGSIZE && a.start + a.size < |d|
    requires DistinctHomes(a, d, homes) && |homes| == LOGSIZE && a.start + a.size !in homes
    ensures s == Exec(a, Boot(d), acts) && |s.disk| == |d|
    ensures s.disk[a.start + a.size] != d[a.start + a.size]
    ensures forall u :: u in s.hist ==> u.b != a.start + a.size
    ensures !CrashSafe(a, d, acts, [])
  {
    hide Exec, Replay;
    acts, s := WritesBeyond(a, d, homes);
    var x := a.start + a.size;
    if CrashSafe(a, d, acts, []) {
      var r := Recovered(a, AfterCrashes(a, s.disk, []));
      var cut: nat :| BetweenCalls(s, cut) && HoldsChanges(a, d, s.hist[..cut], r);
      UntouchedBlock(d, s.hist[..cut], x);
    }
  }

  /** The image of mkfs, with FSSIZE blocks and nlog = LOGSIZE, is crash safe in every run. */
  lemma MkfsLogIsSafe(d: Disk, acts: seq<Action>, ks: seq<nat>)
    requires |d| == 1000 && HeadN(Area(2, LOGSIZE), d) == 0
    ensures CrashSafe(Area(2, LOGSIZE), d, acts, ks)
  {
    hide Exec, CrashSafe;
    LargeIsSafe(Area(2, LOGSIZE), d, acts, ks);
  }
}
