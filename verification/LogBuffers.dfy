/** A commit that has pinned every buffer of the cache. NBUF is LOGSIZE, so a full log leaves no buffer for
    the first block that write_log reads: bget panics, and nothing of the commit reaches the disk. */
module LogBuffers {
  import opened LogDisk
  import opened LogSystem
  import opened LogTheorems
  import opened LogSpace

  /** bget(b) panics with "no buffers". */
  ghost predicate NoBuffers(s: State, b: int) {
    b !in s.bufs && |s.bufs| == NBUF && forall x :: x in s.bufs ==> s.bufs[x].refcnt > 0
  }

  /** A commit of NBUF blocks before its first write. */
  ghost predicate Stuck(a: Area, s: State) {
    && s.committing && s.pc == 0 && s.ops == [] && |s.lh| == NBUF && a.size > 1
    && AllReferenced(a, s.bufs)
  }

  /** All NBUF buffers hold home blocks and are pinned. */
  ghost predicate AllReferenced(a: Area, bufs: map<int, Buf>) {
    && |bufs| == NBUF
    && forall b :: b in bufs ==>
         !InLog(a, b) && bufs[b].refcnt == bufs[b].users + 1 && bufs[b].users >= if bufs[b].holder.Some? then 1 else 0
  }

  /** Its next step is the panic, and every step that others can still take leaves it so. */
  lemma StuckStays(a: Area, s: State, act: Action)
    requires Stuck(a, s) && Enabled(a, s, act)
    ensures Stuck(a, Next(a, s, act)) && Next(a, s, act).disk == s.disk
  {
  }

  /** Such a commit never writes: whatever else happens, the disk stays as it is, and bget has no buffer for
      the first block of the log. */
  lemma {:induction false} StuckForever(a: Area, s: State, acts: seq<Action>)
    requires Stuck(a, s)
    ensures var s' := Exec(a, s, acts);
            Stuck(a, s') && s'.disk == s.disk && NoBuffers(s', LogBlock(a, s')) && !Enabled(a, s', CommitWrite)
    decreases |acts|
  {
    if acts != [] {
      if Enabled(a, s, acts[0]) {
        StuckStays(a, s, acts[0]);
      }
      StuckForever(a, if Enabled(a, s, acts[0]) then Next(a, s, acts[0]) else s, acts[1..]);
    }
  }

  // ---------------------------------------------------------------- which areas it happens in

  /** Calls that have passed the tests of log_write and not appended yet. */
  function Pending(ops: seq<Op>): (n: nat)
    ensures n <= |ops|
  {
    if ops == [] then 0 else (if ops[0].test.Some? then 1 else 0) + Pending(ops[1..])
  }

  lemma {:induction false} PendingAppend(ops: seq<Op>, o: Op)
    ensures Pending(ops + [o]) == Pending(ops) + if o.test.Some? then 1 else 0
  {
    if ops != [] {
      assert (ops + [o])[1..] == ops[1..] + [o];
      PendingAppend(ops[1..], o);
    }
  }

  lemma {:induction false} PendingUpdate(ops: seq<Op>, i: nat, o: Op)
    requires i < |ops|
    ensures Pending(ops[i := o]) ==
            Pending(ops) - (if ops[i].test.Some? then 1 else 0) + if o.test.Some? then 1 else 0
  {
    if i > 0 {
      assert ops[i := o][1..] == ops[1..][i - 1 := o];
      PendingUpdate(ops[1..], i - 1, o);
    }
  }

  lemma {:induction false} PendingRemove(ops: seq<Op>, i: nat)
    requires i < |ops|
    ensures Pending(ops[..i] + ops[i + 1..]) == Pending(ops) - if ops[i].test.Some? then 1 else 0
  {
    if i == 0 {
      assert ops[..0] + ops[1..] == ops[1..];
    } else {
      assert (ops[..i] + ops[i + 1..])[1..] == ops[1..][..i - 1] + ops[1..][i..];
      PendingRemove(ops[1..], i - 1);
    }
  }

  /** At most three calls are in progress, and what they have passed the tests for exceeds the log area by at
      most one block. */
  ghost predicate OneTooMany(a: Area, s: State) {
    s.outstanding == |s.ops| <= 3 && |s.lh| + Pending(s.ops) <= a.size + 1
  }

  lemma OneTooManyStays(a: Area, s: State, act: Action)
    requires OneTooMany(a, s) && Enabled(a, s, act)
    ensures OneTooMany(a, Next(a, s, act))
  {
    hide Pending;
    match act
    case Begin(id) => PendingAppend(s.ops, Op(id, {}, None));
    case LogTest(i, b) => PendingUpdate(s.ops, i, Next(a, s, act).ops[i]);
    case LogAppend(i, b) => PendingUpdate(s.ops, i, Next(a, s, act).ops[i]);
    case End(i) => PendingRemove(s.ops, i);
    case _ =>
  }

  lemma {:induction false} AtMostOneMore(a: Area, s: State, acts: seq<Action>)
    requires OneTooMany(a, s)
    ensures OneTooMany(a, Exec(a, s, acts))
    decreases |acts|
  {
    hide OneTooMany;
    if acts != [] {
      if Enabled(a, s, acts[0]) {
        OneTooManyStays(a, s, acts[0]);
      }
      AtMostOneMore(a, if Enabled(a, s, acts[0]) then Next(a, s, acts[0]) else s, acts[1..]);
    }
  }

  // ---------------------------------------------------------------- runs that reach it

  /** A call takes a block that is not cached and passes the tests for it. */
  lemma TakeAndTest(a: Area, s: State, acts: seq<Action>, i: nat, b: Word) returns (more: seq<Action>, s': State)
    requires var t := Exec(a, s, acts);
             && Home(a, t.disk, b) && b !in t.bufs && |t.bufs| < NBUF && !LogWritePanics(a, t)
             && i < |t.ops| && t.ops[i].test.None? && |t.ops[i].logged + {b}| <= MAXOPBLOCKS
    ensures s' == Exec(a, s, more)
    ensures var t := Exec(a, s, acts);
            s' == t.(bufs := t.bufs[b := Buf(1, Some(t.disk[b]), Some(t.ops[i].id), 1, false)],
                     ops := t.ops[i := t.ops[i].(test := Some(b))])
  {
    hide Exec;
    more, s' := TakeBuffer(a, s, acts, Exec(a, s, acts).ops[i].id, b);
    Then(a, s, more, LogTest(i, b));
    more := more + [LogTest(i, b)];
    s' := Exec(a, s, more);
  }

  /** With room for LOGSIZE - 2 blocks, three calls pass the tests for the last three. */
  lemma ThreeHold(a: Area, d: Disk, homes: seq<Word>) returns (acts: seq<Action>, s: State)
    requires Fits(a, d) && a.size == LOGSIZE - 1 && DistinctHomes(a, d, homes) && |homes| == LOGSIZE
    ensures s == Exec(a, Boot(d), acts) && s.disk == d
    ensures var t := LOGSIZE - 3;
            var b, c, e := homes[t], homes[t + 1], homes[t + 2];
            && b !in homes[..t] && c !in homes[..t] && e !in homes[..t] && b != c && e != b && e != c
            && TwoHold(s, 0, b, 1, c) && s.bufs[b].data.Some? && s.bufs[c].data.Some?
            && JustTaken(s.bufs[b]) && JustTaken(s.bufs[c]) && !s.bufs[c].dirty
            && MayLog(s, 2, e) && s.ops[2].test == Some(e)
            && s.bufs[e].data.Some? && JustTaken(s.bufs[e]) && !s.bufs[e].dirty
            && Quiet(s.(bufs := s.bufs - {b} - {c} - {e}, ops := s.ops[2 := s.ops[2].(test := None)]), homes[..t])
            && forall k :: 0 <= k < 3 ==> s.ops[k].id == k
  {
    hide Exec, FilledBufs, FilledOps;
    var t := LOGSIZE - 3;
    var b, c, e := homes[t], homes[t + 1], homes[t + 2];
    acts := FillReaches(a, d, homes, t);
    var s0 := Exec(a, Boot(d), acts);
    ThreeCalls(s0, homes, t);
    ShareLeft(s0, homes, t, 0, b);
    ShareLeft(s0, homes, t, 1, c);
    LastShare(s0, homes, e);
    NotFilled(s0.bufs, homes[..t], b);
    NotFilled(s0.bufs, homes[..t], c);
    NotFilled(s0.bufs, homes[..t], e);
    var s1, s2;
    acts, s1 := TakeAndTest(a, Boot(d), acts, 2, e);
    acts, s2 := TakeBuffer(a, Boot(d), acts, 0, b);
    acts, s := TakeBuffer(a, Boot(d), acts, 1, c);
    assert s.bufs - {b} - {c} - {e} == s0.bufs;
    assert s.ops[2 := s.ops[2].(test := None)] == s0.ops;
  }

  lemma LastShare(s: State, homes: seq<Word>, b: Word)
    requires |homes| == LOGSIZE && FilledOps(s, homes, LOGSIZE - 3)
    ensures |s.ops| == 3 && |s.ops[2].logged + {b}| <= MAXOPBLOCKS
  {
    assert |s.ops[2].logged + {b}| <= |s.ops[2].logged| + 1;
  }

  /** A call that has passed the tests appends its new block and releases it. */
  lemma AppendAndDrop(a: Area, s: State, acts: seq<Action>, i: nat, b: Word) returns (more: seq<Action>, s': State)
    requires var t := Exec(a, s, acts);
             && MayLog(t, i, b) && t.ops[i].test == Some(b) && b !in t.lh
             && JustTaken(t.bufs[b]) && t.bufs[b].data.Some? && !t.bufs[b].dirty
    ensures s' == Exec(a, s, more)
    ensures var t := Exec(a, s, acts);
            && s'.lh == t.lh + [b] && b in s'.bufs && Idle(s'.bufs[b])
            && s' == t.(lh := s'.lh, bufs := t.bufs[b := s'.bufs[b]],
                        ops := t.ops[i := Op(t.ops[i].id, t.ops[i].logged + {b}, None)])
  {
    hide Exec;
    Then(a, s, acts, LogAppend(i, b));
    more := acts + [LogAppend(i, b)];
    more, s' := DropBuffer(a, s, more, Exec(a, s, acts).ops[i].id, b);
  }

  lemma ThreeRace(a: Area, d: Disk, homes: seq<Word>) returns (acts: seq<Action>, s: State)
    requires Fits(a, d) && a.size == LOGSIZE - 1 && DistinctHomes(a, d, homes) && |homes| == LOGSIZE
    ensures s == Exec(a, Boot(d), acts) && s.disk == d && Quiet(s, homes)
  {
    hide Exec, FilledBufs;
    var t := LOGSIZE - 3;
    var b, c, e := homes[t], homes[t + 1], homes[t + 2];
    var s0, s1, s2, s3;
    acts, s0 := ThreeHold(a, d, homes);
    acts, s1 := BothAppend(a, Boot(d), acts, 0, b, 1, c);
    acts, s2 := DropBuffer(a, Boot(d), acts, 0, b);
    acts, s3 := DropBuffer(a, Boot(d), acts, 1, c);
    acts, s := AppendAndDrop(a, Boot(d), acts, 2, e);
    ThreeMore(s0.bufs, s.bufs, homes[..t], b, c, e);
    assert homes == homes[..t] + [b, c, e];
    assert homes[..t] + [b, c] + [e] == homes[..t] + [b, c, e];
  }

  lemma ThreeMore(bufs: map<int, Buf>, bufs': map<int, Buf>, bs: seq<Word>, b: Word, c: Word, e: Word)
    requires FilledBufs(bufs - {b} - {c} - {e}, bs) && b in bufs' && c in bufs' && e in bufs'
    requires Idle(bufs'[b]) && Idle(bufs'[c]) && Idle(bufs'[e]) && b !in bs && c !in bs && e !in bs
    requires b != c && e != b && e != c && bufs' == bufs[b := bufs'[b]][c := bufs'[c]][e := bufs'[e]]
    ensures FilledBufs(bufs', bs + [b, c, e])
  {
    hide Idle, FilledBufs;
    var rest := bufs - {e};
    assert bufs - {b} - {c} - {e} == rest - {b} - {c};
    TwoMore(rest, rest[b := bufs'[b]][c := bufs'[c]], bs, b, c);
    OneMore(rest[b := bufs'[b]][c := bufs'[c]], bs + [b, c], e, bufs'[e]);
    assert bufs' == rest[b := bufs'[b]][c := bufs'[c]][e := bufs'[e]];
    assert bs + [b, c] + [e] == bs + [b, c, e];
  }

  /** Three calls that log NBUF blocks between them and end. */
  lemma StuckRun(a: Area, d: Disk, homes: seq<Word>) returns (acts: seq<Action>)
    requires Fits(a, d) && a.size >= LOGSIZE - 1 && DistinctHomes(a, d, homes) && |homes| == LOGSIZE
    ensures Stuck(a, Exec(a, Boot(d), acts)) && Exec(a, Boot(d), acts).disk == d
  {
    hide Exec, FilledOps;
    var s;
    assert homes[..LOGSIZE] == homes;
    if a.size == LOGSIZE - 1 {
      acts, s := ThreeRace(a, d, homes);
    } else if a.size == LOGSIZE {
      acts, s := Overfill(a, d, homes, d[a.start]);
    } else {
      acts := FillReaches(a, d, homes, LOGSIZE);
      s := Exec(a, Boot(d), acts);
      ThreeCalls(s, homes, LOGSIZE);
    }
    acts, s := EndAll(a, Boot(d), acts, homes);
  }

  /** A commit runs out of buffers in some run exactly when the log area has at least LOGSIZE - 1 blocks. In a
      smaller one the list stays shorter than NBUF. The image of mkfs has LOGSIZE. */
  lemma StuckIff(a: Area, d: Disk, homes: seq<Word>)
    requires Fits(a, d) && DistinctHomes(a, d, homes) && |homes| == LOGSIZE
    ensures (exists acts :: Stuck(a, Exec(a, Boot(d), acts))) <==> a.size >= LOGSIZE - 1
  {
    hide Exec, OneTooMany;
    if a.size >= LOGSIZE - 1 {
      var acts := StuckRun(a, d, homes);
    } else {
      forall acts
        ensures !Stuck(a, Exec(a, Boot(d), acts))
      {
        ShorterList(a, d, acts);
      }
    }
  }

  lemma ShorterList(a: Area, d: Disk, acts: seq<Action>)
    requires a.size < LOGSIZE - 1
    ensures |Exec(a, Boot(d), acts).lh| < NBUF
  {
    hide Exec;
    AtMostOneMore(a, Boot(d), acts);
  }
}
