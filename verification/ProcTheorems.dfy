/** Safety of the process system over every run. */
module ProcTheorems {
  import opened Proc
  import opened ProcSafety

  /** The invariant from its single facts. */
  lemma InvFrom(s: State)
    requires IsProc(s, INIT)
    requires forall c :: 0 <= c < |s.cpus| ==> CpuOk(s, c)
    requires forall p :: IsProc(s, p) ==> CurrentOk(s, p)
    requires forall p :: IsProc(s, p) ==> ParentOk(s, p)
    requires forall p :: IsProc(s, p) ==> PcOk(s, p)
    requires forall c, q :: 0 <= c < |s.cpus| && IsProc(s, q) ==> HoldOk(s, c, q)
    requires forall p, q :: IsProc(s, p) && IsProc(s, q) ==> ChildOk(s, p, q)
    ensures Inv(s)
  {
    hide CpuOk, CurrentOk, ParentOk, PcOk, HoldOk, ChildOk, IsProc;
  }

  lemma ThreadKeeps(s: State, c: int, t: Step)
    requires Inv(s) && ThreadEnabled(s, c, t)
    ensures Inv(ThreadNext(s, c, t))
  {
    hide Inv, ThreadNext, Target, May, CpuOk, CurrentOk, ParentOk, PcOk, HoldOk, ChildOk, Acted, Gentle;
    var s' := ThreadNext(s, c, t);
    var p0 := s.cpus[c].proc;
    Seen(s, c, t, p0);
    ParentAt(s, p0);
    forall b | 0 <= b < |s'.cpus| ensures CpuOk(s', b) { ThreadCpu(s, c, t, b); }
    forall p | IsProc(s', p) ensures CurrentOk(s', p) { ThreadCurrent(s, c, t, p); }
    forall p | IsProc(s', p) ensures ParentOk(s', p) { ThreadParent(s, c, t, p); }
    forall p | IsProc(s', p) ensures PcOk(s', p) { ThreadPc(s, c, t, p); }
    forall b, q | 0 <= b < |s'.cpus| && IsProc(s', q) ensures HoldOk(s', b, q) {
      if b == c { ThreadHoldOwn(s, c, t, q); } else { ThreadHoldOther(s, c, t, b, q); }
    }
    forall p, q | IsProc(s', p) && IsProc(s', q) ensures ChildOk(s', p, q) {
      if p == p0 { ThreadChildOfMe(s, c, t, q); } else { ThreadChildOther(s, c, t, p, q); }
    }
    InvFrom(s');
  }

  lemma ThreadPc(s: State, c: int, t: Step, p: int)
    requires Inv(s) && ThreadEnabled(s, c, t) && IsProc(s, p)
    ensures IsProc(ThreadNext(s, c, t), p) && PcOk(ThreadNext(s, c, t), p)
  {
    hide Inv, ThreadNext, Target, May, ExitOk, LinkOk;
    if p == s.cpus[c].proc {
      ThreadExitOwn(s, c, t);
      ThreadLinkOwn(s, c, t);
    } else {
      ThreadPcOther(s, c, t, p);
    }
  }

  // ---------------------------------------------------------------- scheduler, wakeup and kill

  lemma WakeKeeps(s: State, a: Action)
    requires Inv(s) && Enabled(s, a) && (a.Wakeup? || a.Kill?)
    ensures Inv(Next(s, a))
  {
    hide Inv, ThreadNext, ThreadEnabled;
    var s' := Next(s, a);
    ParentAt(s, a.q);
    forall b | 0 <= b < |s'.cpus| ensures CpuOk(s', b) { CpuAt(s, b); }
    forall p | IsProc(s', p) ensures CurrentOk(s', p) && ParentOk(s', p) && PcOk(s', p) {
      WakeAt(s, a, p);
    }
    forall b, q | 0 <= b < |s'.cpus| && IsProc(s', q) ensures HoldOk(s', b, q) { HoldAt(s, b, q); }
    forall p, q | IsProc(s', p) && IsProc(s', q) ensures ChildOk(s', p, q) { ChildAt(s, p, q); }
    InvFrom(s');
  }

  lemma WakeAt(s: State, a: Action, p: int)
    requires Inv(s) && Enabled(s, a) && (a.Wakeup? || a.Kill?) && IsProc(s, p)
    ensures var s' := Next(s, a); IsProc(s', p) && CurrentOk(s', p) && ParentOk(s', p) && PcOk(s', p)
  {
    hide Inv, ThreadNext, ThreadEnabled;
    PcAt(s, p);
    assert PcOk(Next(s, a), p);
    hide PcOk, HasOp, OpOf;
    CurrentAt(s, p);
    ParentAt(s, p);
  }

  lemma SchedKeeps(s: State, a: Action)
    requires Inv(s) && Enabled(s, a) && (a.Pick? || a.Swtch? || a.PutBack?)
    ensures Inv(Next(s, a))
  {
    hide Inv, Next, Enabled;
    var s' := Next(s, a);
    SchedShape(s, a);
    forall b | 0 <= b < |s'.cpus| ensures CpuOk(s', b) { SchedCpu(s, a, b); }
    forall p | IsProc(s', p) ensures CurrentOk(s', p) { SchedCurrent(s, a, p); }
    forall p | IsProc(s', p) ensures ParentOk(s', p) { SchedParent(s, a, p); }
    forall p | IsProc(s', p) ensures PcOk(s', p) { SchedPc(s, a, p); }
    forall b, q | 0 <= b < |s'.cpus| && IsProc(s', q) ensures HoldOk(s', b, q) { SchedHold(s, a, b, q); }
    forall p, q | IsProc(s', p) && IsProc(s', q) ensures ChildOk(s', p, q) { SchedChild(s, a, p, q); }
    InvFrom(s');
  }

  lemma SchedShape(s: State, a: Action)
    requires Inv(s) && Enabled(s, a) && (a.Pick? || a.Swtch? || a.PutBack?)
    ensures var s' := Next(s, a); |s'.cpus| == |s.cpus| && |s'.procs| == |s.procs| && IsProc(s', INIT)
  {
  }

  /** The process a scheduling step is about. */
  function Subject(s: State, a: Action): (p: int)
    requires Enabled(s, a) && (a.Pick? || a.Swtch? || a.PutBack?)
  {
    if a.Pick? then a.q else s.cpus[a.c].proc
  }

  lemma SchedCpu(s: State, a: Action, b: int)
    requires Inv(s) && Enabled(s, a) && (a.Pick? || a.Swtch? || a.PutBack?) && 0 <= b < |s.cpus|
    ensures var s' := Next(s, a); 0 <= b < |s'.cpus| && CpuOk(s', b)
  {
    hide Inv, ThreadNext, ThreadEnabled;
    CpuAt(s, b);
    CpuAt(s, a.c);
    CurrentAt(s, Subject(s, a));
  }

  lemma SchedCurrent(s: State, a: Action, p: int)
    requires Inv(s) && Enabled(s, a) && (a.Pick? || a.Swtch? || a.PutBack?) && IsProc(s, p)
    ensures var s' := Next(s, a); IsProc(s', p) && CurrentOk(s', p)
  {
    hide Inv, ThreadNext, ThreadEnabled;
    CurrentAt(s, p);
    CpuAt(s, a.c);
    CurrentAt(s, Subject(s, a));
    HoldAt(s, a.c, Subject(s, a));
  }

  lemma SchedParent(s: State, a: Action, p: int)
    requires Inv(s) && Enabled(s, a) && (a.Pick? || a.Swtch? || a.PutBack?) && IsProc(s, p)
    ensures var s' := Next(s, a); IsProc(s', p) && ParentOk(s', p)
  {
    hide Inv, ThreadNext, ThreadEnabled;
    ParentAt(s, p);
    CurrentAt(s, Subject(s, a));
  }

  lemma SchedPc(s: State, a: Action, p: int)
    requires Inv(s) && Enabled(s, a) && (a.Pick? || a.Swtch? || a.PutBack?) && IsProc(s, p)
    ensures var s' := Next(s, a); IsProc(s', p) && PcOk(s', p)
  {
    hide Inv, ThreadNext, ThreadEnabled;
    PcAt(s, p);
    if p != Subject(s, a) {
      hide HasOp, OpOf;
      CurrentAt(s, Subject(s, a));
    }
  }

  lemma SchedHold(s: State, a: Action, b: int, q: int)
    requires Inv(s) && Enabled(s, a) && (a.Pick? || a.Swtch? || a.PutBack?) && 0 <= b < |s.cpus| && IsProc(s, q)
    ensures var s' := Next(s, a); IsProc(s', q) && HoldOk(s', b, q)
  {
    hide Inv, ThreadNext, ThreadEnabled;
    HoldAt(s, b, q);
    CpuAt(s, b);
    CpuAt(s, a.c);
    CurrentAt(s, Subject(s, a));
    HoldAt(s, a.c, q);
    HoldAt(s, a.c, Subject(s, a));
  }

  lemma SchedChild(s: State, a: Action, p: int, q: int)
    requires Inv(s) && Enabled(s, a) && (a.Pick? || a.Swtch? || a.PutBack?) && IsProc(s, p) && IsProc(s, q)
    ensures var s' := Next(s, a); IsProc(s', p) && IsProc(s', q) && ChildOk(s', p, q)
  {
    hide Inv, ThreadNext, ThreadEnabled;
    ChildAt(s, p, q);
    CurrentAt(s, Subject(s, a));
  }

  // ---------------------------------------------------------------- every run

  lemma StepKeeps(s: State, a: Action)
    requires Inv(s) && Enabled(s, a)
    ensures Inv(Next(s, a))
  {
    hide Inv, ThreadNext, ThreadEnabled;
    match a
    case Thread(c, t) => ThreadKeeps(s, c, t);
    case Wakeup(_, _) => WakeKeeps(s, a);
    case Kill(_) => WakeKeeps(s, a);
    case _ => SchedKeeps(s, a);
  }

  /** After `procinit` and `userinit`: init is RUNNABLE, all other processes are UNUSED, and every CPU is
      about to enter the loop of `scheduler`. */
  ghost predicate Boot(s: State) {
    && 0 < |s.procs|
    && s.procs[INIT] == Proc(Runnable, -1, NoChan, false, -1, -1, Forkret)
    && (forall p :: 0 < p < |s.procs| ==> s.procs[p] == Proc(Unused, -1, NoChan, false, -1, -1, Forkret))
    && (forall c :: 0 <= c < |s.cpus| ==> s.cpus[c] == Cpu(-1, false))
  }

  lemma BootInv(s: State)
    requires Boot(s)
    ensures Inv(s)
  {
  }

  /** The actions lead from s to s'. */
  ghost predicate Executes(s: State, acts: seq<Action>, s': State)
    decreases |acts|
  {
    if |acts| == 0 then s' == s
    else Enabled(s, acts[0]) && Executes(Next(s, acts[0]), acts[1..], s')
  }

  lemma {:induction false} ExecutesKeeps(s: State, acts: seq<Action>, s': State)
    requires Inv(s) && Executes(s, acts, s')
    ensures Inv(s')
    decreases |acts|
  {
    hide Inv, Next, Enabled;
    if |acts| > 0 {
      StepKeeps(s, acts[0]);
      ExecutesKeeps(Next(s, acts[0]), acts[1..], s');
    }
  }

  /** In no reachable state does a process other than init sleep in `wait` while a child of it is a
      ZOMBIE. */
  lemma NoMissedExit(s: State, acts: seq<Action>, s': State, p: int, q: int)
    requires Boot(s) && Executes(s, acts, s')
    requires p != INIT && IsProc(s', p) && IsProc(s', q)
    requires s'.procs[q].parent == p && s'.procs[q].state == Zombie
    ensures !(s'.procs[p].state == Sleeping && s'.procs[p].chan == Own)
  {
    hide Inv;
    BootInv(s);
    ExecutesKeeps(s, acts, s');
    ChildAt(s', p, q);
  }

  /** In every reachable state a process is current on at most one CPU. While a CPU executes a process,
      that process is RUNNING or the CPU holds its lock. */
  lemma OneCpu(s: State, acts: seq<Action>, s': State, b: int, c: int)
    requires Boot(s) && Executes(s, acts, s')
    requires 0 <= b < |s'.cpus| && 0 <= c < |s'.cpus| && IsProc(s', s'.cpus[c].proc)
    ensures b != c ==> s'.cpus[b].proc != s'.cpus[c].proc
    ensures s'.procs[s'.cpus[c].proc].state == Running || s'.procs[s'.cpus[c].proc].lock == c
  {
    hide Inv;
    BootInv(s);
    ExecutesKeeps(s, acts, s');
    CpuAt(s', b);
    CpuAt(s', c);
    CurrentAt(s', s'.cpus[c].proc);
  }

  /** When `wait` frees a child, no CPU has it as its process and its thread is in its last `swtch`. Then the
      slot is UNUSED, without a parent, not killed and unlocked, and the parent is back in user space. */
  lemma FreedIsStopped(s: State, acts: seq<Action>, s': State, c: int, b: int)
    requires Boot(s) && Executes(s, acts, s') && ThreadEnabled(s', c, WaitExamine(false)) && 0 <= b < |s'.cpus|
    requires s'.procs[s'.procs[s'.cpus[c].proc].pc.k].state == Zombie
    ensures var q := s'.procs[s'.cpus[c].proc].pc.k;
            s'.cpus[b].proc != q && s'.procs[q].pc == Dead && s'.procs[q].parent == s'.cpus[c].proc
    ensures var p := s'.cpus[c].proc; var q := s'.procs[p].pc.k; var r := ThreadNext(s', c, WaitExamine(false));
            && p != q && |r.procs| == |s'.procs|
            && r.procs[q].state == Unused && r.procs[q].parent == -1 && !r.procs[q].killed && r.procs[q].lock == -1
            && r.procs[p].pc == User && r.procs[p].lock == -1
            && forall o :: IsProc(s', o) && o != p && o != q ==> r.procs[o] == s'.procs[o]
  {
    hide Inv;
    BootInv(s);
    ExecutesKeeps(s, acts, s');
    var q := s'.procs[s'.cpus[c].proc].pc.k;
    CpuAt(s', b);
    CurrentAt(s', q);
    PcAt(s', s'.cpus[c].proc);
  }

  /** The checks of `sched` never panic: the CPU holds the lock of its process and no other, and the
      process is not RUNNING. */
  lemma SchedChecks(s: State, acts: seq<Action>, s': State, c: int, r: int)
    requires Boot(s) && Executes(s, acts, s') && Enabled(s', Swtch(c)) && IsProc(s', r)
    ensures s'.procs[r].lock == c <==> r == s'.cpus[c].proc
    ensures s'.procs[s'.cpus[c].proc].state != Running
  {
    hide Inv, ThreadNext, ThreadEnabled;
    BootInv(s);
    ExecutesKeeps(s, acts, s');
    ActiveAt(s', c);
    HoldAt(s', c, r);
  }

  /** No step acquires a lock that its own CPU holds. */
  lemma NoDoubleAcquire(s: State, acts: seq<Action>, s': State, c: int)
    requires Boot(s) && Executes(s, acts, s') && Active(s', c)
    ensures var p := s'.cpus[c].proc; var x := s'.procs[p];
            && (x.pc == User || x.pc == ExitStart || x.pc == ExitRead || x.pc.ExitLockParent? ==>
                   forall r :: IsProc(s', r) ==> s'.procs[r].lock != c)
            && (x.pc.ExitLockSelf? ==> x.lock != c)
            && (x.pc.WaitLock? || x.pc.ReparentLock? ==> IsProc(s', x.pc.k) && s'.procs[x.pc.k].lock != c)
  {
    hide Inv, ThreadNext, ThreadEnabled;
    BootInv(s);
    ExecutesKeeps(s, acts, s');
    var p := s'.cpus[c].proc;
    var x := s'.procs[p];
    PcAt(s', p);
    HoldAt(s', c, p);
    ParentAt(s', p);
    if x.pc.WaitLock? || x.pc.ReparentLock? {
      HoldAt(s', c, x.pc.k);
      ParentAt(s', x.pc.k);
    }
    forall r | IsProc(s', r)
      ensures x.pc == User || x.pc == ExitStart || x.pc == ExitRead || x.pc.ExitLockParent? ==> s'.procs[r].lock != c
    {
      HoldAt(s', c, r);
    }
  }
}
