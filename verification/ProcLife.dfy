/** The life of a process slot over every run: `fork` fills it, `exit` makes it a ZOMBIE and `wait` empties it
    again, in this order and never twice in a row. */
module ProcLife {
  import opened Proc
  import opened ProcSafety
  import opened ProcTheorems

  // ---------------------------------------------------------------- the three events of a slot

  /** The step is `wait` finding its child q a ZOMBIE and freeing it. */
  ghost predicate Reaps(s: State, a: Action, q: int) {
    && a.Thread? && a.t == WaitExamine(false) && ThreadEnabled(s, a.c, a.t)
    && s.procs[s.cpus[a.c].proc].pc == WaitLock(q) && s.procs[q].state == Zombie
  }

  /** The step is `exit` making q a ZOMBIE. */
  ghost predicate Dies(s: State, a: Action, q: int) {
    a.Thread? && a.t == ExitDie && ThreadEnabled(s, a.c, a.t) && s.cpus[a.c].proc == q
  }

  /** The step is `allocproc` taking slot q for a child. */
  ghost predicate Allocs(s: State, a: Action, q: int) {
    a.Thread? && a.t == ForkAlloc(q) && ThreadEnabled(s, a.c, a.t)
  }

  /** The thread is making a child in slot q. */
  predicate ForkingAt(pc: Pc, q: int) {
    pc == Forking(q) || pc == ForkParent(q)
  }

  ghost predicate NotForked(s: State, q: int) {
    forall r :: IsProc(s, r) ==> !ForkingAt(s.procs[r].pc, q)
  }

  // ---------------------------------------------------------------- what one step does to a slot

  lemma ThreadLife(s: State, c: int, t: Step, q: int)
    requires Inv(s) && ThreadEnabled(s, c, t) && IsProc(s, q)
    ensures var s' := ThreadNext(s, c, t); var a := Thread(c, t);
            && |s'.procs| == |s.procs|
            && (s.procs[q].state != Zombie && s'.procs[q].state == Zombie ==> Dies(s, a, q))
            && (s.procs[q].state == Zombie && s'.procs[q].state != Zombie ==> Reaps(s, a, q))
            && (s.procs[q].state == Unused && s'.procs[q].state != Unused ==> !NotForked(s, q))
  {
    hide Inv, ThreadNext;
    var p := s.cpus[c].proc;
    NextAt(s, c, t, q);
    ActiveAt(s, c);
    PcAt(s, p);
    assert ForkingAt(s.procs[p].pc, q) ==> !NotForked(s, q);
  }

  /** Only `exit` makes a ZOMBIE, only `wait` ends one, and only a fork under way fills a slot. */
  lemma StepLife(s: State, a: Action, q: int)
    requires Inv(s) && Enabled(s, a) && IsProc(s, q)
    ensures var s' := Next(s, a);
            && |s'.procs| == |s.procs|
            && (s.procs[q].state != Zombie && s'.procs[q].state == Zombie ==> Dies(s, a, q))
            && (s.procs[q].state == Zombie && s'.procs[q].state != Zombie ==> Reaps(s, a, q))
            && (s.procs[q].state == Unused && s'.procs[q].state != Unused ==> !NotForked(s, q))
  {
    hide Inv, ThreadNext, ThreadEnabled, Dies, Reaps, NotForked;
    if a.Thread? {
      ThreadLife(s, a.c, a.t, q);
    }
  }

  lemma ThreadForkAt(s: State, c: int, t: Step, q: int, r: int)
    requires Inv(s) && ThreadEnabled(s, c, t) && IsProc(s, r)
    ensures IsProc(ThreadNext(s, c, t), r)
    ensures ForkingAt(ThreadNext(s, c, t).procs[r].pc, q) ==>
              ForkingAt(s.procs[r].pc, q) || Allocs(s, Thread(c, t), q)
  {
    hide Inv, ThreadNext, Target;
    NextAt(s, c, t, r);
    BackAt(s, c);
  }

  lemma StepForkAt(s: State, a: Action, q: int, r: int)
    requires Inv(s) && Enabled(s, a) && IsProc(s, r)
    ensures IsProc(Next(s, a), r)
    ensures ForkingAt(Next(s, a).procs[r].pc, q) ==> ForkingAt(s.procs[r].pc, q) || Allocs(s, a, q)
  {
    hide Inv, ThreadNext, ThreadEnabled, Allocs;
    if a.Thread? {
      ThreadForkAt(s, a.c, a.t, q, r);
    }
  }

  /** Only `allocproc` starts a fork. */
  lemma StepFork(s: State, a: Action, q: int)
    requires Inv(s) && Enabled(s, a) && NotForked(s, q)
    ensures NotForked(Next(s, a), q) || Allocs(s, a, q)
  {
    hide Inv, Next, Enabled, ForkingAt, Allocs;
    var s' := Next(s, a);
    assert |s'.procs| == |s.procs| by { StepSize(s, a); }
    forall r | IsProc(s', r)
      ensures ForkingAt(s'.procs[r].pc, q) ==> Allocs(s, a, q)
    {
      StepForkAt(s, a, q, r);
    }
  }

  lemma StepSize(s: State, a: Action)
    requires Inv(s) && Enabled(s, a)
    ensures |Next(s, a).procs| == |s.procs|
  {
    hide Inv, Target, May, Mine, Theirs;
  }

  /** `wait` empties the slot: q is UNUSED, without a parent, not killed, unlocked and not being forked; the
      parent is out of `wait` and holds no lock; every other process is as it was. */
  lemma ReapFrees(s: State, a: Action, q: int)
    requires Inv(s) && Reaps(s, a, q)
    ensures var s' := Next(s, a); var p := s.cpus[a.c].proc;
            && IsProc(s, q) && |s'.procs| == |s.procs| && s'.cpus == s.cpus
            && s'.procs[q].state == Unused && s'.procs[q].parent == -1 && !s'.procs[q].killed
            && s'.procs[q].chan == NoChan && s'.procs[q].lock == -1 && s'.procs[q].cpu == -1
            && p != q && s'.procs[p].pc == User && s'.procs[p].lock == -1
            && NotForked(s', q)
            && forall r :: IsProc(s, r) && r != p && r != q ==> s'.procs[r] == s.procs[r]
  {
    hide Inv;
    var s' := Next(s, a);
    var p := s.cpus[a.c].proc;
    ActiveAt(s, a.c);
    CurrentAt(s, q);
    PcAt(s, p);
    forall r | IsProc(s', r)
      ensures !ForkingAt(s'.procs[r].pc, q)
    {
      PcAt(s, r);
    }
  }

  // ---------------------------------------------------------------- whole runs

  /** The states and the steps of a run from the boot. */
  ghost predicate Run(ss: seq<State>, acts: seq<Action>) {
    && |ss| == |acts| + 1 && Boot(ss[0])
    && forall i :: 0 <= i < |acts| ==> Enabled(ss[i], acts[i]) && ss[i + 1] == Next(ss[i], acts[i])
  }

  lemma {:induction false} RunInv(ss: seq<State>, acts: seq<Action>, i: nat)
    requires Run(ss, acts) && i <= |acts|
    ensures Inv(ss[i]) && |ss[i].procs| == |ss[0].procs|
  {
    hide Inv, Next, Enabled, Boot;
    if i == 0 {
      BootInv(ss[0]);
    } else {
      RunInv(ss, acts, i - 1);
      StepKeeps(ss[i - 1], acts[i - 1]);
      StepSize(ss[i - 1], acts[i - 1]);
    }
  }

  /** Such a run is an execution, up to each of its states. */
  lemma {:induction false} RunExecutes(ss: seq<State>, acts: seq<Action>, i: nat, j: nat)
    requires Run(ss, acts) && i <= j <= |acts|
    ensures Executes(ss[i], acts[i..j], ss[j])
    decreases j - i
  {
    hide Next, Enabled, Boot;
    if i < j {
      assert acts[i..j][1..] == acts[i + 1..j];
      RunExecutes(ss, acts, i + 1, j);
    }
  }

  lemma {:induction false} FindDeath(ss: seq<State>, acts: seq<Action>, i: nat, j: nat, q: int) returns (l: nat)
    requires Run(ss, acts) && i <= j <= |acts| && IsProc(ss[i], q) && IsProc(ss[j], q)
    requires ss[i].procs[q].state != Zombie && ss[j].procs[q].state == Zombie
    ensures i <= l < j && Dies(ss[l], acts[l], q)
    decreases j - i
  {
    hide Inv, Next, Enabled, Boot, Dies;
    RunInv(ss, acts, i);
    RunInv(ss, acts, i + 1);
    StepLife(ss[i], acts[i], q);
    if Dies(ss[i], acts[i], q) {
      l := i;
    } else {
      l := FindDeath(ss, acts, i + 1, j, q);
    }
  }

  lemma {:induction false} FindReap(ss: seq<State>, acts: seq<Action>, i: nat, j: nat, q: int) returns (l: nat)
    requires Run(ss, acts) && i <= j <= |acts| && IsProc(ss[i], q) && IsProc(ss[j], q)
    requires ss[i].procs[q].state == Zombie && ss[j].procs[q].state != Zombie
    ensures i <= l < j && Reaps(ss[l], acts[l], q)
    decreases j - i
  {
    hide Inv, Next, Enabled, Boot, Reaps;
    RunInv(ss, acts, i);
    RunInv(ss, acts, i + 1);
    StepLife(ss[i], acts[i], q);
    if Reaps(ss[i], acts[i], q) {
      l := i;
    } else {
      l := FindReap(ss, acts, i + 1, j, q);
    }
  }

  lemma {:induction false} FindAlloc(ss: seq<State>, acts: seq<Action>, i: nat, j: nat, q: int) returns (k: nat)
    requires Run(ss, acts) && i <= j <= |acts| && IsProc(ss[i], q) && IsProc(ss[j], q)
    requires ss[i].procs[q].state == Unused && NotForked(ss[i], q) && ss[j].procs[q].state != Unused
    ensures i <= k < j && Allocs(ss[k], acts[k], q)
    decreases j - i
  {
    hide Inv, Next, Enabled, Boot, Allocs, NotForked;
    RunInv(ss, acts, i);
    RunInv(ss, acts, i + 1);
    StepLife(ss[i], acts[i], q);
    StepFork(ss[i], acts[i], q);
    if Allocs(ss[i], acts[i], q) {
      k := i;
    } else {
      k := FindAlloc(ss, acts, i + 1, j, q);
    }
  }

  lemma DiesFacts(s: State, a: Action, q: int)
    requires Inv(s) && Dies(s, a, q)
    ensures Enabled(s, a) && IsProc(s, q) && s.procs[q].state == Running
    ensures IsProc(Next(s, a), q) && Next(s, a).procs[q].state == Zombie
  {
    hide Inv;
    ActiveAt(s, a.c);
  }

  /** Each death is reaped at most once: between two times that `wait` finds q a ZOMBIE, slot q was allocated
      again, and then the new process exited. */
  lemma ReapedOnce(ss: seq<State>, acts: seq<Action>, i: nat, j: nat, q: int) returns (k: nat, l: nat)
    requires Run(ss, acts) && i < j < |acts|
    requires Reaps(ss[i], acts[i], q) && Reaps(ss[j], acts[j], q)
    ensures i < k < l < j && Allocs(ss[k], acts[k], q) && Dies(ss[l], acts[l], q)
  {
    hide Inv, Next, Enabled, Boot, Dies, Allocs, NotForked, ThreadEnabled;
    RunInv(ss, acts, i);
    RunInv(ss, acts, i + 1);
    RunInv(ss, acts, j);
    ReapFrees(ss[i], acts[i], q);
    l := FindDeath(ss, acts, i + 1, j, q);
    RunInv(ss, acts, l);
    DiesFacts(ss[l], acts[l], q);
    k := FindAlloc(ss, acts, i + 1, l, q);
  }

  /** And each process that exits was reaped before its slot dies again. */
  lemma DeadUntilReaped(ss: seq<State>, acts: seq<Action>, i: nat, j: nat, q: int) returns (k: nat)
    requires Run(ss, acts) && i < j < |acts|
    requires Dies(ss[i], acts[i], q) && Dies(ss[j], acts[j], q)
    ensures i < k < j && Reaps(ss[k], acts[k], q)
  {
    hide Inv, Next, Enabled, Boot, Dies, Reaps;
    RunInv(ss, acts, i);
    RunInv(ss, acts, i + 1);
    RunInv(ss, acts, j);
    DiesFacts(ss[i], acts[i], q);
    DiesFacts(ss[j], acts[j], q);
    k := FindReap(ss, acts, i + 1, j, q);
  }

  // ---------------------------------------------------------------- wait without a child to free

  ghost predicate IsParent(s: State, p: int) {
    exists q :: IsProc(s, q) && s.procs[q].parent == p
  }

  /** A scan that has seen a child: it is still there. */
  ghost predicate KidsSeen(s: State) {
    forall p :: IsProc(s, p) && s.procs[p].pc.WaitScan? && s.procs[p].pc.kids ==> IsParent(s, p)
  }

  /** Only its parent takes the parent link of q away, and not while it scans. */
  lemma ThreadKeepsChild(s: State, c: int, t: Step, p: int, q: int)
    requires Inv(s) && ThreadEnabled(s, c, t) && IsProc(s, p) && IsProc(s, q) && s.procs[q].parent == p
    ensures var s' := ThreadNext(s, c, t);
            |s'.procs| == |s.procs| && (s'.procs[p].pc.WaitScan? ==> s'.procs[q].parent == p)
  {
    hide Inv, ThreadNext;
    NextAt(s, c, t, p);
    NextAt(s, c, t, q);
    ParentAt(s, q);
    PcAt(s, s.cpus[c].proc);
  }

  lemma ThreadKids(s: State, c: int, t: Step, p: int)
    requires Inv(s) && KidsSeen(s) && ThreadEnabled(s, c, t) && IsProc(s, p)
    ensures var s' := ThreadNext(s, c, t);
            && |s'.procs| == |s.procs|
            && (s'.procs[p].pc.WaitScan? && s'.procs[p].pc.kids ==> IsParent(s', p))
  {
    hide Inv, ThreadNext;
    var s' := ThreadNext(s, c, t);
    NextAt(s, c, t, p);
    if s'.procs[p].pc.WaitScan? && s'.procs[p].pc.kids {
      BackAt(s, c);
      PcAt(s, p);
      var q := if s.procs[p].pc.WaitScan? then Child(s, p) else s.procs[p].pc.k;
      ThreadKeepsChild(s, c, t, p, q);
      assert IsProc(s', q) && s'.procs[q].parent == p;
    }
  }

  ghost function Child(s: State, p: int): (q: int)
    requires IsParent(s, p)
    ensures IsProc(s, q) && s.procs[q].parent == p
  {
    var q :| IsProc(s, q) && s.procs[q].parent == p; q
  }

  lemma StepKids(s: State, a: Action)
    requires Inv(s) && KidsSeen(s) && Enabled(s, a)
    ensures KidsSeen(Next(s, a))
  {
    hide Inv, ThreadNext, ThreadEnabled, IsParent;
    var s' := Next(s, a);
    forall p | IsProc(s', p) && s'.procs[p].pc.WaitScan? && s'.procs[p].pc.kids
      ensures IsParent(s', p)
    {
      if a.Thread? {
        assert IsProc(s, p) by { StepSize(s, a); }
        ThreadKids(s, a.c, a.t, p);
      } else {
        OtherKids(s, a, p);
      }
    }
  }

  lemma OtherKids(s: State, a: Action, p: int)
    requires Inv(s) && Enabled(s, a) && !a.Thread? && KidsSeen(s)
    requires var s' := Next(s, a); IsProc(s', p) && s'.procs[p].pc.WaitScan? && s'.procs[p].pc.kids
    ensures IsParent(Next(s, a), p)
  {
    hide Inv;
    var q := Child(s, p);
    assert Next(s, a).procs[q].parent == p;
  }

  lemma {:induction false} ExecutesKids(s: State, acts: seq<Action>, s': State)
    requires Inv(s) && KidsSeen(s) && Executes(s, acts, s')
    ensures Inv(s') && KidsSeen(s')
    decreases |acts|
  {
    hide Inv, Next, Enabled, KidsSeen;
    if |acts| > 0 {
      StepKeeps(s, acts[0]);
      StepKids(s, acts[0]);
      ExecutesKids(Next(s, acts[0]), acts[1..], s');
    }
  }

  /** At the end of a scan that freed no child, `wait` in a process other than init gives up exactly if the process
      is killed or has no children. Otherwise, it sleeps until a child wakes it. */
  lemma WaitGivesUpIff(s: State, acts: seq<Action>, s': State, c: int)
    requires Boot(s) && Executes(s, acts, s') && ThreadEnabled(s', c, WaitFinish) && s'.cpus[c].proc != INIT
    ensures var p := s'.cpus[c].proc; var x' := ThreadNext(s', c, WaitFinish).procs[p];
            && (x'.pc == User && x'.lock == -1 <==>
                  s'.procs[p].killed || forall q :: IsProc(s', q) ==> s'.procs[q].parent != p)
            && (x'.pc == User || (x'.pc == WaitSched && x'.state == Sleeping && x'.chan == Own))
  {
    hide Inv;
    BootInv(s);
    ExecutesKids(s, acts, s');
    var p := s'.cpus[c].proc;
    forall q | IsProc(s', q)
      ensures !s'.procs[p].pc.kids ==> s'.procs[q].parent != p
    {
      ChildAt(s', p, q);
    }
  }

  // ---------------------------------------------------------------- kill

  /** The step is `fork` giving slot q up, because the copy of the memory failed. */
  ghost predicate GivesUp(s: State, a: Action, q: int) {
    && a.Thread? && a.t == ForkFail && ThreadEnabled(s, a.c, a.t)
    && s.procs[s.cpus[a.c].proc].pc == Forking(q)
  }

  lemma ThreadKilled(s: State, c: int, t: Step, q: int)
    requires Inv(s) && ThreadEnabled(s, c, t) && IsProc(s, q) && s.procs[q].killed
    ensures var s' := ThreadNext(s, c, t); var a := Thread(c, t);
            IsProc(s', q) && (s'.procs[q].killed || Reaps(s, a, q) || GivesUp(s, a, q))
  {
    hide Inv, ThreadNext;
    NextAt(s, c, t, q);
    PcAt(s, s.cpus[c].proc);
  }

  lemma StepKilled(s: State, a: Action, q: int)
    requires Inv(s) && Enabled(s, a) && IsProc(s, q) && s.procs[q].killed
    ensures var s' := Next(s, a); IsProc(s', q) && (s'.procs[q].killed || Reaps(s, a, q) || GivesUp(s, a, q))
  {
    hide Inv, ThreadNext, ThreadEnabled, Reaps, GivesUp;
    if a.Thread? {
      ThreadKilled(s, a.c, a.t, q);
    }
  }

  /** `kill` leaves q killed and awake, and q stays killed for as long as its slot is not emptied. */
  lemma {:induction false} KilledStays(ss: seq<State>, acts: seq<Action>, i: nat, j: nat, q: int)
    requires Run(ss, acts) && i < j <= |acts| && acts[i] == Kill(q)
    requires forall k :: i < k < j ==> !Reaps(ss[k], acts[k], q) && !GivesUp(ss[k], acts[k], q)
    ensures IsProc(ss[j], q) && ss[j].procs[q].killed
    ensures ss[i + 1].procs[q].state != Sleeping
    decreases j
  {
    hide Inv, Boot, Reaps, GivesUp, ThreadNext, ThreadEnabled;
    if j > i + 1 {
      KilledStays(ss, acts, i, j - 1, q);
      RunInv(ss, acts, j - 1);
      StepKilled(ss[j - 1], acts[j - 1], q);
    }
  }

  /** In every reachable state the parent of a process is neither UNUSED nor a ZOMBIE: `exit` has given the children
      of a process that is gone to init. */
  lemma ParentLives(s: State, acts: seq<Action>, s': State, q: int)
    requires Boot(s) && Executes(s, acts, s') && IsProc(s', q) && s'.procs[q].state != Unused && q != INIT
    ensures var p := s'.procs[q].parent;
            IsProc(s', p) && p != q && s'.procs[p].state != Unused && s'.procs[p].state != Zombie
  {
    hide Inv;
    BootInv(s);
    ExecutesKeeps(s, acts, s');
    ParentAt(s', q);
    ParentAt(s', INIT);
    ChildAt(s', s'.procs[q].parent, q);
  }

  // ---------------------------------------------------------------- fork, from end to end

  /** `fork` in a reachable state with a free slot: its three steps follow one another, and when they are done
      slot q holds a RUNNABLE process whose parent is the caller, unlocked and about to return to user space. The
      caller is back in user space, and no other process has changed. */
  lemma ForkMakesChild(s: State, acts: seq<Action>, s': State, c: int, q: int) returns (s'': State)
    requires Boot(s) && Executes(s, acts, s') && Active(s', c) && s'.procs[s'.cpus[c].proc].pc == User
    requires IsProc(s', q) && s'.procs[q].state == Unused && s'.procs[q].lock < 0
    ensures Executes(s', [Thread(c, ForkAlloc(q)), Thread(c, ForkSetParent), Thread(c, ForkRun)], s'')
    ensures var p := s'.cpus[c].proc;
            && p != q && s''.cpus == s'.cpus && |s''.procs| == |s'.procs|
            && s''.procs[q].state == Runnable && s''.procs[q].parent == p && s''.procs[q].lock == -1
            && s''.procs[q].pc == Forkret && s''.procs[p] == s'.procs[p]
            && (forall o :: IsProc(s', o) && o != q ==> s''.procs[o] == s'.procs[o])
  {
    hide Inv;
    BootInv(s);
    ExecutesKeeps(s, acts, s');
    ActiveAt(s', c);
    var a1, a2, a3 := Thread(c, ForkAlloc(q)), Thread(c, ForkSetParent), Thread(c, ForkRun);
    var s1 := Next(s', a1);
    var s2 := Next(s1, a2);
    s'' := Next(s2, a3);
    assert [a1, a2, a3][1..] == [a2, a3] && [a2, a3][1..] == [a3] && [a3][1..] == [];
    assert Executes(s2, [a3], s'') by { assert Executes(s'', [], s''); }
    assert Executes(s1, [a2, a3], s'');
  }
}
