/** A commit comes to an end. Once end_op has started a commit, nothing but a full buffer cache or a buffer
    that some bread still holds can stop it: the block writes that commit does, one after another, and the
    critical section that follows them bring every change of the run to its home block. */
module LogProgress {
  import opened LogDisk
  import opened LogSystem
  import opened LogSafety
  import opened LogTheorems

  /** The number of block writes of a commit: the blocks and the header, the blocks again, and the header
      again. An empty list is not written at all. */
  function CommitWrites(lh: seq<Word>): (n: nat) {
    if lh == [] then 0 else |lh| + 1 + |lh| + 1
  }

  /** No bread holds a buffer, and there is a buffer left to give. */
  ghost predicate Quiet(s: State) {
    |s.bufs| < NBUF && forall b :: b in s.bufs ==> s.bufs[b].holder.None?
  }

  lemma LogBlockCached(a: Area, s: State, b: int)
    requires Inv(a, s) && b in Pins(s.lh, s.pc)
    ensures b in s.bufs && s.bufs[b].data.Some?
  {
    hide Pins, Replay, LogOk, DiskOk, BaseOk, CommitOk, OpsOk, DirtyOk, BudgetOk;
    BufAt(a, s.bufs, Pins(s.lh, s.pc), Logical(s), b);
  }

  lemma SameLength(a: Area, s: State)
    requires DiskOk(a, s.disk, s.bufs, Pins(s.lh, s.pc), Logical(s))
    ensures |s.disk| == |s.init|
  {
  }

  /** The next write of a commit can happen. */
  lemma CommitMayWrite(a: Area, s: State)
    requires Inv(a, s) && Writing(a, s) && Quiet(s) && s.pc < CommitWrites(s.lh)
    ensures Enabled(a, s, CommitWrite)
  {
    hide Replay, CommitDisk, Committable, BufsOk, DiskOk, BaseOk, OpsOk, DirtyOk, BudgetOk;
    SameLength(a, s);
    if s.pc < |s.lh| {
      LogBlockCached(a, s, s.lh[s.pc]);
    } else if |s.lh| < s.pc <= 2 * |s.lh| {
      assert s.lh[s.pc - |s.lh| - 1] in Pins(s.lh, s.pc);
      LogBlockCached(a, s, s.lh[s.pc - |s.lh| - 1]);
    }
  }

  lemma StaysQuiet(a: Area, s: State)
    requires Quiet(s) && Enabled(a, s, CommitWrite)
    ensures Quiet(Next(a, s, CommitWrite))
  {
    hide WriteNext;
    assert BufsNext(a, s).Keys == s.bufs.Keys;
    assert |BufsNext(a, s)| == |BufsNext(a, s).Keys| && |s.bufs| == |s.bufs.Keys|;
  }

  /** It leaves the commit ready for the one after it. */
  lemma CommitGoesOn(a: Area, s: State)
    requires Inv(a, s) && Writing(a, s) && Quiet(s) && s.pc < CommitWrites(s.lh)
    ensures Enabled(a, s, CommitWrite)
    ensures var s' := Next(a, s, CommitWrite);
            && Inv(a, s') && Writing(a, s') && Quiet(s')
            && s'.pc == s.pc + 1 && s'.lh == s.lh && s'.hist == s.hist && s'.init == s.init && s'.used == s.used
  {
    hide Inv, Enabled, Quiet, WriteNext, BufsNext;
    CommitMayWrite(a, s);
    CommitWriteKeeps(a, s);
    StaysQuiet(a, s);
  }

  lemma {:induction false} CommitWritesAll(a: Area, s: State, n: nat)
    requires Inv(a, s) && Writing(a, s) && Quiet(s) && s.pc + n == CommitWrites(s.lh)
    ensures var s' := Exec(a, s, seq(n, _ => CommitWrite));
            && Inv(a, s') && Enabled(a, s', CommitEnd)
            && s'.hist == s.hist && s'.init == s.init && s'.used == s.used
    decreases n
  {
    hide Inv, Next, Quiet;
    var acts := seq(n, _ => CommitWrite);
    if n > 0 {
      CommitGoesOn(a, s);
      assert acts[1..] == seq(n - 1, _ => CommitWrite);
      CommitWritesAll(a, Next(a, s, CommitWrite), n - 1);
    } else {
      assert acts == [];
    }
  }

  lemma EndedCommit(a: Area, s: State)
    requires Inv(a, s) && Enabled(a, s, CommitEnd)
    ensures var s' := Next(a, s, CommitEnd);
            && !s'.committing && s'.lh == [] && s'.hist == s.hist && s'.mark == |s.hist| && s'.used == s.used
            && HoldsChanges(a, s.init, s.hist, s'.disk) && Fits(a, s'.disk) && HeadN(a, s'.disk) == 0
            && forall id :: id !in s.used ==> Enabled(a, s', Begin(id))
  {
    hide Replay, CommitDisk, Committable, BufsOk, DiskOk, BaseOk, OpsOk, DirtyOk, BudgetOk;
    CommitEndDisk(a, s);
    assert s.ops == [];
  }

  /** Every commit finishes. In a reachable state with a commit under way, no buffer held and one to spare,
      the rest of its block writes and the critical section after them all happen. Then no commit is running,
      the list is empty, the header on disk is clear, every home block on disk holds what the changes of the
      run make of it, and a system call can begin. */
  lemma CommitFinishes(a: Area, d: Disk, acts: seq<Action>, n: nat)
    requires Fits(a, d) && HeadN(a, d) == 0 && RoomFor(a, Boot(d), acts)
    requires var s := Exec(a, Boot(d), acts);
             && s.committing && Fitting(a, s.lh) && Quiet(s)
             && s.pc + n == if s.lh == [] then 0 else 2 * |s.lh| + 2
    ensures var s := Exec(a, Boot(d), acts);
            var s' := Exec(a, Boot(d), acts + seq(n, _ => CommitWrite) + [CommitEnd]);
            && Enabled(a, Exec(a, Boot(d), acts + seq(n, _ => CommitWrite)), CommitEnd)
            && !s'.committing && s'.lh == [] && s'.hist == s.hist && s'.mark == |s.hist|
            && |s'.disk| == |d| && HeadN(a, s'.disk) == 0
            && (forall b :: Home(a, d, b) ==> s'.disk[b] == Replay(d, s.hist)[b])
            && forall id :: id !in s.used ==> Enabled(a, s', Begin(id))
  {
    hide Replay, Inv, Enabled, Quiet;
    var s := Exec(a, Boot(d), acts);
    var writes := seq(n, _ => CommitWrite);
    BootOk(a, d);
    ExecKeeps(a, Boot(d), acts);
    ExecHistory(a, Boot(d), acts);
    CommitWritesAll(a, s, n);
    ExecSplit(a, Boot(d), acts, writes);
    ExecSplit(a, Boot(d), acts + writes, [CommitEnd]);
    EndedCommit(a, Exec(a, s, writes));
  }

  /** With the durability of a completed commit: the changes of a run up to a commit survive every crash after
      it, however long ago and however often. */
  lemma FinishedIsDurable(a: Area, d: Disk, acts: seq<Action>, n: nat, more: seq<Action>, ks: seq<nat>)
    returns (cut: nat)
    requires Fits(a, d) && HeadN(a, d) == 0
    requires var writes := seq(n, _ => CommitWrite);
             RoomFor(a, Boot(d), acts) && RoomFor(a, Boot(d), acts + writes + [CommitEnd] + more)
    requires var s := Exec(a, Boot(d), acts);
             && s.committing && Fitting(a, s.lh) && Quiet(s)
             && s.pc + n == if s.lh == [] then 0 else 2 * |s.lh| + 2
    ensures var s := Exec(a, Boot(d), acts);
            var s' := Exec(a, Boot(d), acts + seq(n, _ => CommitWrite) + [CommitEnd] + more);
            && |s.hist| <= cut <= |s'.hist| && s.hist <= s'.hist
            && BetweenCalls(s', cut) && ValidHead(a, s'.disk)
            && HoldsChanges(a, d, s'.hist[..cut], Recovered(a, AfterCrashes(a, s'.disk, ks)))
  {
    hide Replay, Recovered, AfterCrashes, HoldsChanges, Enabled, Quiet, Serial, BetweenCalls;
    var writes := seq(n, _ => CommitWrite);
    CommitFinishes(a, d, acts, n);
    ExecHistory(a, Boot(d), acts + writes);
    ExecSplit(a, Boot(d), acts, writes);
    ExecHistory(a, Exec(a, Boot(d), acts), writes);
    cut := CommittedIsDurable(a, d, acts + writes, more, ks);
  }
}
