/** The log as the file system uses it: any interleaving of system calls that begin, read and change
    buffers, log them, release them and end, of buffer recycling, and of the block writes of the
    commit that the last one to end runs. Each step is one critical section of kernel/log.c or
    kernel/bio.c, one block write, or the two tests that log_write makes before it takes the log's lock.

    Next to the kernel's own state a run records the disk it started from and every change a system
    call made, so that the disk a crash leaves can be compared with the calls that ended. */
module LogSystem {
  import opened LogDisk
  import opened LogDevice

  const MAXOPBLOCKS := 10
  const NBUF := 30

  datatype Option<T> = None | Some(value: T)

  /** A buffer that is assigned to a home block. `users` counts the bget calls not yet matched by
      brelse; `dirty` says that the holder changed the data and has not yet called log_write. */
  datatype Buf = Buf(refcnt: int, data: Option<Block>, holder: Option<int>, users: int, dirty: bool)

  /** A change by system call `op`: block b got new contents. */
  datatype Update = Update(op: int, b: int, data: Block)

  /** A system call between begin_op and end_op, the distinct blocks it has logged, and the block for
      which it has passed the tests of log_write and has yet to take the lock. */
  datatype Op = Op(id: int, logged: set<int>, test: Option<int>)

  datatype State = State(
    disk: Disk,
    bufs: map<int, Buf>,      // the buffers that are assigned to home blocks
    lh: seq<Word>,
    outstanding: int,
    committing: bool,
    pc: nat,                  // block writes the running commit has done
    ops: seq<Op>,             // system calls in progress
    // history
    init: Disk,
    hist: seq<Update>,
    used: set<int>,           // ids of the system calls that began
    mark: nat,                // how much of hist the last completed commit covers
    base: Disk)               // the disk after the last completed commit

  datatype Action =
    | Begin(id: int)
    | Bget(b: int)                            // bget: take a reference
    | Lock(u: int, b: int)                    // bread: lock the buffer, read the block if not valid
    | Modify(i: nat, b: int, data: Block)     // a call changes a buffer it holds
    | LogTest(i: nat, b: int)                 // log_write: the tests, without the lock
    | LogAppend(i: nat, b: int)               // log_write: the search and the append, under the lock
    | Unlock(u: int, b: int)                  // brelse, first half
    | Put(b: int)                             // brelse, second half
    | End(i: nat)
    | CommitWrite                             // the next block write of commit
    | CommitEnd
    | Recycle(b: int)                         // bget gives an unused buffer to another block

  /** Blocks that the running commit has installed and unpinned. */
  function Installed(n: nat, pc: nat): (k: nat)
    ensures k <= n
  {
    if pc <= n + 1 then 0 else if pc - n - 1 <= n then pc - n - 1 else n
  }

  /** Logged blocks that are still pinned. */
  function Pins(lh: seq<Word>, pc: nat): (r: seq<Word>) {
    if pc <= |lh| + 1 then lh else lh[Installed(|lh|, pc)..]
  }

  predicate CommitDone(s: State) {
    s.pc == if s.lh == [] then 0 else 2 * |s.lh| + 2
  }

  /** The panic tests at the top of log_write. */
  predicate LogWritePanics(a: Area, s: State) {
    |s.lh| >= LOGSIZE || |s.lh| >= a.size - 1 || s.outstanding < 1
  }

  /** bget finds block b or can give it a buffer: one that is assigned to no home block, or that a Recycle
      has freed. Otherwise every buffer is referenced, and bget panics. */
  predicate CanGet(s: State, b: int) {
    b in s.bufs || |s.bufs| < NBUF
  }

  predicate Holds(s: State, u: int, b: int) {
    b in s.bufs && s.bufs[b].holder == Some(u)
  }

  /** Call i holds block b, and logging it stays within MAXOPBLOCKS distinct blocks. */
  predicate MayLog(s: State, i: nat, b: int) {
    && i < |s.ops|
    && Holds(s, s.ops[i].id, b) && 0 <= b < 0x1_0000_0000
    && |s.ops[i].logged + {b}| <= MAXOPBLOCKS
  }

  /** When a step can happen. For Modify, LogTest, LogAppend, Unlock and End this includes what the
      callers of the log promise: a call changes only buffers it holds, logs a change before it releases
      the buffer or ends, and logs at most MAXOPBLOCKS distinct blocks. A list that does not fit the log
      area is followed until write_log has copied all of it. */
  predicate Enabled(a: Area, s: State, act: Action) {
    match act
    case Begin(id) =>
      && id !in s.used
      && !s.committing
      && |s.lh| + (s.outstanding + 1) * MAXOPBLOCKS <= LOGSIZE
    case Bget(b) => Home(a, s.disk, b) && CanGet(s, b)
    case Lock(u, b) => b in s.bufs && s.bufs[b].users >= 1 && s.bufs[b].holder.None? && 0 <= b < |s.disk|
    case Modify(i, b, data) => i < |s.ops| && s.ops[i].test.None? && Holds(s, s.ops[i].id, b)
    case LogTest(i, b) => MayLog(s, i, b) && s.ops[i].test.None? && !LogWritePanics(a, s)
    case LogAppend(i, b) => MayLog(s, i, b) && s.ops[i].test == Some(b)
    case Unlock(u, b) => Holds(s, u, b) && !s.bufs[b].dirty
    case Put(b) => b in s.bufs && s.bufs[b].users > if s.bufs[b].holder.Some? then 1 else 0
    case End(i) =>
      && i < |s.ops| && s.ops[i].test.None? && !s.committing
      && forall b :: b in s.bufs && s.bufs[b].dirty ==> s.bufs[b].holder != Some(s.ops[i].id)
    case CommitWrite =>
      var n := |s.lh|;
      && s.committing && !CommitDone(s) && s.pc < 2 * n + 2
      && Fits(a, s.disk) && a.start + n < |s.disk| && n <= LOGSIZE && (n < a.size || s.pc < n)
      && CanGet(s, LogBlock(a, s))
      && (s.pc < n ==>
            var b, to := s.lh[s.pc], a.start + s.pc + 1;
            && b in s.bufs && s.bufs[b].data.Some? && s.bufs[b].holder.None?
            && (to in s.bufs ==> s.bufs[to].holder.None?))
      && (n < s.pc <= 2 * n ==>
            var b := s.lh[s.pc - n - 1];
            b < |s.disk| && b in s.bufs && s.bufs[b].holder.None?)
    case CommitEnd => s.committing && CommitDone(s)
    case Recycle(b) => b in s.bufs && s.bufs[b].refcnt == 0
  }

  /** The block of the log, or of the header, that the next write of commit reads or writes. */
  function LogBlock(a: Area, s: State): (b: int) {
    var n := |s.lh|;
    if s.pc < n then a.start + s.pc + 1
    else if n < s.pc <= 2 * n then a.start + s.pc - n
    else a.start
  }

  /** The disk after the next block write of commit, as the code computes it. */
  function WriteNext(a: Area, s: State): (d: Disk)
    requires Enabled(a, s, CommitWrite)
  {
    var n := |s.lh|;
    if s.pc < n then s.disk[a.start + s.pc + 1 := s.bufs[s.lh[s.pc]].data.value]
    else if s.pc == n then s.disk[a.start := SetHead(s.disk[a.start], s.lh)]
    else if s.pc <= 2 * n then s.disk[s.lh[s.pc - n - 1] := s.disk[a.start + s.pc - n]]
    else ClearHead(a, s.disk)
  }

  /** The buffers after that write: install_trans also unpins the block it installed, and write_log
      changes the buffer of the block it copies to. */
  function BufsNext(a: Area, s: State): (m: map<int, Buf>)
    requires Enabled(a, s, CommitWrite)
  {
    var n := |s.lh|;
    if n < s.pc <= 2 * n then
      var b := s.lh[s.pc - n - 1];
      s.bufs[b := s.bufs[b].(refcnt := s.bufs[b].refcnt - 1)]
    else if s.pc < n && a.start + s.pc + 1 in s.bufs then
      var to := a.start + s.pc + 1;
      s.bufs[to := s.bufs[to].(data := s.bufs[s.lh[s.pc]].data)]
    else s.bufs
  }

  function Next(a: Area, s: State, act: Action): (s': State)
    requires Enabled(a, s, act)
  {
    match act
    case Begin(id) =>
      s.(outstanding := s.outstanding + 1, ops := s.ops + [Op(id, {}, None)], used := s.used + {id})
    case Bget(b) =>
      if b in s.bufs
      then s.(bufs := s.bufs[b := s.bufs[b].(refcnt := s.bufs[b].refcnt + 1, users := s.bufs[b].users + 1)])
      else s.(bufs := s.bufs[b := Buf(1, None, None, 1, false)])
    case Lock(u, b) =>
      var data := if s.bufs[b].data.Some? then s.bufs[b].data else Some(s.disk[b]);
      s.(bufs := s.bufs[b := s.bufs[b].(holder := Some(u), data := data)])
    case Modify(i, b, data) =>
      s.(bufs := s.bufs[b := s.bufs[b].(data := Some(data), dirty := true)],
         hist := s.hist + [Update(s.ops[i].id, b, data)])
    case LogTest(i, b) => s.(ops := s.ops[i := s.ops[i].(test := Some(b))])
    case LogAppend(i, b) =>
      var pin := if b in s.lh then 0 else 1;
      s.(lh := Absorb(s.lh, b),
         bufs := s.bufs[b := s.bufs[b].(refcnt := s.bufs[b].refcnt + pin, dirty := false)],
         ops := s.ops[i := s.ops[i].(logged := s.ops[i].logged + {b}, test := None)])
    case Unlock(u, b) => s.(bufs := s.bufs[b := s.bufs[b].(holder := None)])
    case Put(b) =>
      s.(bufs := s.bufs[b := s.bufs[b].(refcnt := s.bufs[b].refcnt - 1, users := s.bufs[b].users - 1)])
    case End(i) =>
      s.(outstanding := s.outstanding - 1, ops := s.ops[..i] + s.ops[i + 1..],
         committing := s.outstanding - 1 == 0)
    case CommitWrite => s.(disk := WriteNext(a, s), bufs := BufsNext(a, s), pc := s.pc + 1)
    case CommitEnd => s.(committing := false, lh := [], pc := 0, mark := |s.hist|, base := s.disk)
    case Recycle(b) => s.(bufs := s.bufs - {b})
  }
}
