/** The promises of the log, over every run from a clean boot if the log area has LOGSIZE blocks, and over
    every run whose log_writes do not overtake one another's tests if it is smaller. What else smaller areas
    do is in LogSpace. */
module LogTheorems {
  import opened LogDisk
  import opened LogSystem
  import opened LogSafety

  /** The state after a boot that found an empty log. */
  function Boot(d: Disk): (s: State) {
    State(d, map[], [], 0, false, 0, [], d, [], {}, 0, d)
  }

  /** The state after trying the steps in turn; one that cannot happen has no effect. */
  function Exec(a: Area, s: State, acts: seq<Action>): (s': State)
    decreases |acts|
  {
    if acts == [] then s
    else Exec(a, if Enabled(a, s, acts[0]) then Next(a, s, acts[0]) else s, acts[1..])
  }

  lemma BootOk(a: Area, d: Disk)
    requires Fits(a, d) && HeadN(a, d) == 0
    ensures Inv(a, Boot(d))
  {
  }

  /** No append happens when the tests that log_write made before it would no longer pass. */
  ghost predicate Serial(a: Area, s: State, acts: seq<Action>)
    decreases |acts|
  {
    acts != [] ==>
      && (Enabled(a, s, acts[0]) && acts[0].LogAppend? ==> !LogWritePanics(a, s))
      && Serial(a, if Enabled(a, s, acts[0]) then Next(a, s, acts[0]) else s, acts[1..])
  }

  /** Every call of log_write gets the lock right after its tests. */
  ghost predicate Paired(acts: seq<Action>)
    decreases |acts|
  {
    acts != [] ==>
      if acts[0].LogTest? then
        |acts| >= 2 && acts[1] == LogAppend(acts[0].i, acts[0].b) && Paired(acts[2..])
      else !acts[0].LogAppend? && Paired(acts[1..])
  }

  lemma {:induction false} PairedIsSerial(a: Area, s: State, acts: seq<Action>)
    requires Paired(acts) && forall i :: 0 <= i < |s.ops| ==> s.ops[i].test.None?
    ensures Serial(a, s, acts)
    decreases |acts|
  {
    if acts != [] {
      var s1 := if Enabled(a, s, acts[0]) then Next(a, s, acts[0]) else s;
      if acts[0].LogTest? {
        PairedIsSerial(a, if Enabled(a, s1, acts[1]) then Next(a, s1, acts[1]) else s1, acts[2..]);
        assert acts[1..][1..] == acts[2..];
      } else {
        PairedIsSerial(a, s1, acts[1..]);
      }
    }
  }

  /** The log area has LOGSIZE blocks, or no two calls of log_write overlap in a way that matters. */
  ghost predicate RoomFor(a: Area, s: State, acts: seq<Action>) {
    a.size >= LOGSIZE || Serial(a, s, acts)
  }

  lemma {:induction false} ExecKeeps(a: Area, s: State, acts: seq<Action>)
    requires Inv(a, s) && RoomFor(a, s, acts)
    ensures Inv(a, Exec(a, s, acts))
    decreases |acts|
  {
    if acts != [] {
      if Enabled(a, s, acts[0]) {
        assert a.size >= LOGSIZE || Fitting(a, Next(a, s, acts[0]).lh);
        StepKeeps(a, s, acts[0]);
      }
      ExecKeeps(a, if Enabled(a, s, acts[0]) then Next(a, s, acts[0]) else s, acts[1..]);
    }
  }

  /** A point in the history that splits no system call: every call with a change before it has
      ended and has no change after it, and all that the last commit covered is before it. */
  ghost predicate BetweenCalls(s: State, cut: nat) {
    && s.mark <= cut <= |s.hist|
    && (forall j, k :: 0 <= j < cut <= k < |s.hist| ==> s.hist[j].op != s.hist[k].op)
    && (forall j, i :: 0 <= j < cut && 0 <= i < |s.ops| ==> s.hist[j].op != s.ops[i].id)
  }

  /** The home blocks of r are those of d after the given changes. */
  ghost predicate HoldsChanges(a: Area, d: Disk, hist: seq<Update>, r: Disk) {
    |r| == |d| && forall b :: Home(a, d, b) ==> r[b] == Replay(d, hist)[b]
  }

  /** A commit of a list that fits the log area is running. */
  ghost predicate Writing(a: Area, s: State) {
    s.committing && Fitting(a, s.lh)
  }

  /** What the running commit makes of the blocks it does not list: they are current already. */
  lemma UnlistedCurrent(a: Area, s: State, b: int)
    requires Inv(a, s) && Writing(a, s)
    requires Home(a, s.init, b) && b !in s.lh
    ensures s.base[b] == Logical(s)[b]
  {
    hide CommitDisk, Replay, OpsOk, BudgetOk;
    CommitDiskAt(a, s.base, s.lh, Src(s.lh, Logical(s)), s.pc, b);
    InstalledOrPinned(s.lh, s.pc, b);
    assert !DirtyBlock(s.bufs, b);
  }

  lemma CrashWhileCommitting(a: Area, s: State, ks: seq<nat>)
    requires Inv(a, s) && Writing(a, s)
    ensures ValidHead(a, s.disk)
    ensures var r := Recovered(a, AfterCrashes(a, s.disk, ks));
            HoldsChanges(a, s.init, if s.pc <= |s.lh| then s.hist[..s.mark] else s.hist, r)
  {
    hide CommitDisk, Replay, AfterCrashes, Recovered, BufsOk, DiskOk, OpsOk, BudgetOk, Committable;
    var src := Src(s.lh, Logical(s));
    CommitAtomic(a, s.base, s.lh, src, s.pc, ks);
    forall b | Home(a, s.init, b) && b !in s.lh
      ensures s.base[b] == Logical(s)[b]
    {
      UnlistedCurrent(a, s, b);
    }
  }

  lemma CrashWhileIdle(a: Area, s: State, ks: seq<nat>)
    requires Inv(a, s) && !Writing(a, s)
    ensures ValidHead(a, s.disk)
    ensures HoldsChanges(a, s.init, s.hist[..s.mark], Recovered(a, AfterCrashes(a, s.disk, ks)))
  {
    hide Replay, AfterCrashes, BufsOk, DiskOk, OpsOk, BudgetOk;
    CommitAtomic(a, s.base, [], map[], 0, ks);
    assert CommitDisk(a, s.base, [], map[], 0) == s.base;
  }

  /** Crash safety of whole runs. After any run from a clean boot, a crash, any number of crashed
      recoveries and one completed recovery leave exactly the changes of a set of finished system
      calls: none of them in part, and none missing that a completed commit covered. */
  lemma CrashAtAnyPoint(a: Area, d: Disk, acts: seq<Action>, ks: seq<nat>) returns (cut: nat)
    requires Fits(a, d) && HeadN(a, d) == 0 && RoomFor(a, Boot(d), acts)
    ensures var s := Exec(a, Boot(d), acts);
            && s.init == d
            && ValidHead(a, s.disk)
            && BetweenCalls(s, cut)
            && HoldsChanges(a, d, s.hist[..cut], Recovered(a, AfterCrashes(a, s.disk, ks)))
  {
    hide Replay, Recovered, AfterCrashes, CommitDisk, HoldsChanges;
    var s := Exec(a, Boot(d), acts);
    BootOk(a, d);
    ExecKeeps(a, Boot(d), acts);
    ExecHistory(a, Boot(d), acts);
    if Writing(a, s) {
      CrashWhileCommitting(a, s, ks);
      assert s.hist[..|s.hist|] == s.hist;
      cut := if s.pc <= |s.lh| then s.mark else |s.hist|;
    } else {
      CrashWhileIdle(a, s, ks);
      cut := s.mark;
    }
  }

  /** A later state extends the history, and never forgets a commit. */
  lemma {:induction false} ExecHistory(a: Area, s: State, acts: seq<Action>)
    ensures var s' := Exec(a, s, acts);
            s'.init == s.init && s.hist <= s'.hist && (s.mark <= |s.hist| ==> s.mark <= s'.mark)
    decreases |acts|
  {
    if acts != [] {
      ExecHistory(a, if Enabled(a, s, acts[0]) then Next(a, s, acts[0]) else s, acts[1..]);
    }
  }

  /** A commit is durable: what a completed commit covers survives every later crash. */
  lemma CommittedIsDurable(a: Area, d: Disk, acts: seq<Action>, more: seq<Action>, ks: seq<nat>) returns (cut: nat)
    requires Fits(a, d) && HeadN(a, d) == 0 && RoomFor(a, Boot(d), acts + [CommitEnd] + more)
    requires Enabled(a, Exec(a, Boot(d), acts), CommitEnd)
    ensures var s := Exec(a, Boot(d), acts);
            var s' := Exec(a, Boot(d), acts + [CommitEnd] + more);
            && |s.hist| <= cut <= |s'.hist| && s.hist <= s'.hist
            && BetweenCalls(s', cut) && ValidHead(a, s'.disk)
            && HoldsChanges(a, d, s'.hist[..cut], Recovered(a, AfterCrashes(a, s'.disk, ks)))
  {
    hide Replay, Recovered, AfterCrashes, HoldsChanges;
    var s := Exec(a, Boot(d), acts);
    ExecSplit(a, Boot(d), acts, [CommitEnd] + more);
    assert acts + [CommitEnd] + more == acts + ([CommitEnd] + more);
    assert ([CommitEnd] + more)[1..] == more;
    ExecHistory(a, Next(a, s, CommitEnd), more);
    cut := CrashAtAnyPoint(a, d, acts + [CommitEnd] + more, ks);
  }

  lemma {:induction false} ExecSplit(a: Area, s: State, acts: seq<Action>, more: seq<Action>)
    ensures Exec(a, s, acts + more) == Exec(a, Exec(a, s, acts), more)
    decreases |acts|
  {
    if acts == [] {
      assert acts + more == more;
    } else {
      assert (acts + more)[1..] == acts[1..] + more;
      ExecSplit(a, if Enabled(a, s, acts[0]) then Next(a, s, acts[0]) else s, acts[1..], more);
    }
  }

  /** The safety facts behind it, in every reachable state: while a commit runs no call is in
      progress, and a logged block stays referenced, and so cached, until it is installed. */
  lemma ReachableStates(a: Area, d: Disk, acts: seq<Action>)
    requires Fits(a, d) && HeadN(a, d) == 0 && RoomFor(a, Boot(d), acts)
    ensures var s := Exec(a, Boot(d), acts);
            && (s.committing ==> s.outstanding == 0 && s.ops == [])
            && (forall b :: b in Pins(s.lh, s.pc) ==> !Enabled(a, s, Recycle(b)) && b in s.bufs && s.bufs[b].data.Some?)
            && |s.lh| + Reserve(s.ops) <= LOGSIZE
  {
    hide Exec, Replay, CommitDisk, DiskOk, BaseOk, OpsOk, DirtyOk, Committable;
    var s := Exec(a, Boot(d), acts);
    BootOk(a, d);
    ExecKeeps(a, Boot(d), acts);
    forall b | b in Pins(s.lh, s.pc)
      ensures !Enabled(a, s, Recycle(b)) && b in s.bufs && s.bufs[b].data.Some?
    {
      assert BufOk(s.bufs[b], true, Logical(s)[b]);
    }
  }

  /** bread gives the current contents: the last change any call made to the block, whether it is on
      disk, in the log or only in the cache. */
  lemma BreadIsCurrent(a: Area, d: Disk, acts: seq<Action>, u: int, b: int)
    requires Fits(a, d) && HeadN(a, d) == 0 && RoomFor(a, Boot(d), acts)
    requires Enabled(a, Exec(a, Boot(d), acts), Lock(u, b))
    ensures var s := Exec(a, Boot(d), acts);
            && Home(a, Logical(s), b) && b in Next(a, s, Lock(u, b)).bufs
            && Next(a, s, Lock(u, b)).bufs[b].data == Some(Replay(s.init, s.hist)[b])
  {
    hide Exec, Replay, CommitDisk, BaseOk, OpsOk, BudgetOk, CommitOk, Committable;
    var s := Exec(a, Boot(d), acts);
    BootOk(a, d);
    ExecKeeps(a, Boot(d), acts);
    assert BufOk(s.bufs[b], b in Pins(s.lh, s.pc), Logical(s)[b]);
    assert !DirtyBlock(s.bufs, b);
  }
}
