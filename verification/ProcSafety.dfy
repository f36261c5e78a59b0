/** What every step of the process system keeps. */
module ProcSafety {
  import opened Proc

  /** Program counters inside `swtch`, or about to return from it. */
  predicate Parked(pc: Pc) {
    pc == Dead || pc == WaitResume || pc == SleepResume || pc.YieldResume? || pc == Forkret
  }

  /** Thread p holds the lock of q when it is at pc. */
  predicate HeldAt(pc: Pc, p: int, q: int) {
    match pc
    case User | ExitStart | ExitRead | ExitLockParent(_) => false
    case Forking(np) => q == np
    case ForkParent(np) => q == np
    case ExitLockSelf(op) => q == op
    case Reparent(op, _) => q == op || q == p
    case ReparentLock(op, _) => q == op || q == p
    case ExitWake(op) => q == op || q == p
    case ExitZombie(op) => q == op || q == p
    case _ => q == p
  }

  /** CPU c holds the lock of q. */
  predicate Holds(s: State, c: int, q: int) {
    && 0 <= c < |s.cpus| && IsProc(s, s.cpus[c].proc)
    && (if s.cpus[c].inProc then HeldAt(s.procs[s.cpus[c].proc].pc, s.cpus[c].proc, q) else q == s.cpus[c].proc)
  }

  /** The parent an exiting process has read, or -1. */
  function OpOf(pc: Pc): (op: int) {
    match pc
    case ExitLockParent(op) => op
    case YieldSched(back) => if back.ExitLockParent? then back.op else -1
    case YieldResume(back) => if back.ExitLockParent? then back.op else -1
    case ExitLockSelf(op) => op
    case Reparent(op, _) => op
    case ReparentLock(op, _) => op
    case ExitWake(op) => op
    case ExitZombie(op) => op
    case _ => -1
  }

  /** The thread was made to yield when it was at `back`. */
  predicate Yielded(pc: Pc, back: Pc) {
    pc == YieldSched(back) || pc == YieldResume(back)
  }

  predicate HasOp(pc: Pc) {
    || ((pc.YieldSched? || pc.YieldResume?) && pc.back.ExitLockParent?)
    || pc.ExitLockParent? || pc.ExitLockSelf? || pc.Reparent? || pc.ReparentLock? || pc.ExitWake? || pc.ExitZombie?
  }

  /** Asleep in `wait`. */
  predicate InWait(x: Proc) {
    x.state == Sleeping && x.chan == Own
  }

  /** State and program counter of a thread that executes. */
  predicate ThreadOk(x: Proc) {
    && x.pc != Dead
    && (x.state == Running <==> !AtSched(x.pc))
    && (x.pc == DeadSched ==> x.state == Zombie)
    && (x.pc.YieldSched? ==> x.state == Runnable && Preemptible(x.pc.back))
    && (x.pc.YieldResume? ==> Preemptible(x.pc.back))
    && (x.pc == WaitSched ==> InWait(x))
    && (x.pc == SleepSched ==> x.state == Sleeping && x.chan.Other?)
  }

  /** State and program counter of a thread that does not. */
  predicate RestOk(x: Proc) {
    && Parked(x.pc)
    && x.state != Running
    && (x.pc.YieldResume? ==> x.state == Runnable && Preemptible(x.pc.back))
    && (x.state == Zombie <==> x.pc == Dead && x.state != Unused)
    && (x.state == Sleeping ==> (x.pc == WaitResume && x.chan == Own) || (x.pc == SleepResume && x.chan.Other?))
  }

  /** c->proc and p->cpu agree. */
  predicate CpuOk(s: State, c: int)
    requires 0 <= c < |s.cpus|
  {
    var k := s.cpus[c];
    && (k.proc == -1 || IsProc(s, k.proc))
    && (k.inProc ==> k.proc != -1)
    && (k.proc != -1 ==> s.procs[k.proc].cpu == c)
  }

  /** A process that is current on a CPU is RUNNING or that CPU holds its lock. */
  predicate CurrentOk(s: State, p: int)
    requires IsProc(s, p)
  {
    var x := s.procs[p];
    if x.cpu == -1 then RestOk(x)
    else
      && 0 <= x.cpu < |s.cpus| && s.cpus[x.cpu].proc == p && x.state != Unused
      && (x.state == Running || x.lock == x.cpu)
      && (if s.cpus[x.cpu].inProc then ThreadOk(x) else x.lock == x.cpu && RestOk(x))
  }

  /** Parent links. A process without a parent is init or unused; an unused one with a parent is being
      forked by it. */
  predicate ParentOk(s: State, p: int)
    requires IsProc(s, p)
  {
    var x := s.procs[p];
    && (x.parent == -1 || (IsProc(s, x.parent) && x.parent != p))
    && (p == INIT ==> x.state != Zombie && x.state != Unused && x.parent == -1)
    && (x.state == Unused && x.parent != -1 ==> s.procs[x.parent].pc == ForkParent(p))
    && (x.state != Unused && p != INIT ==> x.parent != -1)
  }

  /** What the program counter of an exiting thread says. */
  predicate ExitOk(s: State, p: int)
    requires IsProc(s, p)
  {
    var pc := s.procs[p].pc;
    && (pc.ExitStart? || pc.ExitRead? || HasOp(pc) || pc.DeadSched? ==> p != INIT)
    && (Yielded(pc, ExitStart) || Yielded(pc, ExitRead) ==> p != INIT)
    && (HasOp(pc) ==>
           IsProc(s, OpOf(pc)) && OpOf(pc) != p && (s.procs[p].parent == OpOf(pc) || s.procs[p].parent == INIT))
    && (HasOp(pc) ==> s.procs[OpOf(pc)].parent != p)
    && (pc.ExitZombie? ==> !InWait(s.procs[pc.op]))
  }

  /** What a program counter says about another process that it names. */
  predicate LinkOk(s: State, p: int)
    requires IsProc(s, p)
  {
    var pc := s.procs[p].pc;
    && (pc.Forking? ==> IsProc(s, pc.np) && pc.np != p && s.procs[pc.np].state == Unused && s.procs[pc.np].parent == -1)
    && (pc.ForkParent? ==>
           IsProc(s, pc.np) && pc.np != p && s.procs[pc.np].state == Unused && s.procs[pc.np].parent == p)
    && (pc.Reparent? || pc.WaitScan? ==> 0 <= pc.k <= |s.procs|)
    && (pc.ReparentLock? || pc.WaitLock? ==> IsProc(s, pc.k) && s.procs[pc.k].parent == p)
  }

  predicate PcOk(s: State, p: int)
    requires IsProc(s, p)
  {
    ExitOk(s, p) && LinkOk(s, p)
  }

  /** The locks a CPU holds are exactly those marked as its own. */
  predicate HoldOk(s: State, c: int, q: int)
    requires IsProc(s, q)
  {
    0 <= c < |s.cpus| ==> (Holds(s, c, q) <==> s.procs[q].lock == c)
  }

  /** A process x other than init, with number p, and a child y of it with number q. */
  predicate FamilyOk(x: Proc, p: int, y: Proc, q: int) {
    && x.state != Unused && x.state != Zombie
    && !x.pc.ExitWake? && !x.pc.ExitZombie? && !x.pc.DeadSched?
    && (x.pc.Reparent? || x.pc.ReparentLock? ==> q >= x.pc.k)
    && ((x.pc.WaitScan? || x.pc.WaitLock?) && q < x.pc.k ==> y.state != Zombie)
    && (x.pc.WaitScan? && !x.pc.kids ==> q >= x.pc.k)
    && (InWait(x) ==> y.state != Zombie)
    && (HasOp(y.pc) ==> OpOf(y.pc) == p)
    && x.parent != q
  }

  predicate ChildOk(s: State, p: int, q: int)
    requires IsProc(s, p) && IsProc(s, q)
  {
    p != INIT && s.procs[q].parent == p ==> FamilyOk(s.procs[p], p, s.procs[q], q)
  }

  ghost predicate Inv(s: State) {
    && IsProc(s, INIT)
    && (forall c :: 0 <= c < |s.cpus| ==> CpuOk(s, c))
    && (forall p :: IsProc(s, p) ==> CurrentOk(s, p))
    && (forall p :: IsProc(s, p) ==> ParentOk(s, p))
    && (forall p :: IsProc(s, p) ==> PcOk(s, p))
    && (forall c, q :: 0 <= c < |s.cpus| && IsProc(s, q) ==> HoldOk(s, c, q))
    && (forall p, q :: IsProc(s, p) && IsProc(s, q) ==> ChildOk(s, p, q))
  }

  // ---------------------------------------------------------------- single facts out of the invariant

  lemma CpuAt(s: State, c: int)
    requires Inv(s) && 0 <= c < |s.cpus|
    ensures CpuOk(s, c)
  {
  }

  lemma CurrentAt(s: State, p: int)
    requires Inv(s) && IsProc(s, p)
    ensures CurrentOk(s, p)
  {
  }

  lemma ParentAt(s: State, p: int)
    requires Inv(s) && IsProc(s, p)
    ensures ParentOk(s, p) && IsProc(s, INIT)
  {
  }

  lemma PcAt(s: State, p: int)
    requires Inv(s) && IsProc(s, p)
    ensures PcOk(s, p)
  {
  }

  lemma HoldAt(s: State, c: int, q: int)
    requires Inv(s) && IsProc(s, q)
    ensures HoldOk(s, c, q)
  {
  }

  lemma ChildAt(s: State, p: int, q: int)
    requires Inv(s) && IsProc(s, p) && IsProc(s, q)
    ensures ChildOk(s, p, q)
  {
  }

  /** The thread on CPU c. */
  lemma ActiveAt(s: State, c: int)
    requires Inv(s) && Active(s, c)
    ensures var p := s.cpus[c].proc;
            IsProc(s, p) && s.procs[p].cpu == c && s.procs[p].state != Unused && ThreadOk(s.procs[p])
  {
    hide Inv;
    CpuAt(s, c);
    CurrentAt(s, s.cpus[c].proc);
  }

  /** It returns from `yield` to a place without locks. */
  lemma BackAt(s: State, c: int)
    requires Inv(s) && Active(s, c)
    ensures var pc := s.procs[s.cpus[c].proc].pc; pc.YieldResume? ==> Preemptible(pc.back)
  {
    hide Inv;
    ActiveAt(s, c);
  }

  /** A process whose lock is free is not being forked. */
  lemma FreeUnused(s: State, q: int)
    requires Inv(s) && IsProc(s, q) && s.procs[q].state == Unused && s.procs[q].lock < 0
    ensures s.procs[q].parent == -1
  {
    hide Inv;
    ParentAt(s, q);
    var r := s.procs[q].parent;
    if r != -1 {
      CurrentAt(s, r);
      HoldAt(s, s.procs[r].cpu, q);
    }
  }

  // ---------------------------------------------------------------- what a step does to another process

  /** A step of thread p on CPU c changes another process y under its lock only, and in these ways. */
  predicate Gentle(y: Proc, y': Proc, p: int, c: int) {
    || y' == y
    || (&& y'.cpu == y.cpu
        && (y.lock < 0 || y.lock == c)
        && (y'.lock == y.lock || y'.lock < 0 || y'.lock == c)
        && (y'.pc == y.pc || (y.state == Unused && y'.pc == Forkret))
        && (y'.parent == y.parent || y.parent == p || (y.parent == -1 && y.state == Unused && y'.parent == p))
        && (y'.parent == y.parent || y'.parent == p || (y'.parent == INIT && y.parent == p && y.state != Unused)
           || (y'.parent == -1 && y'.state == Unused))
        && (|| y'.state == y.state
            || (y.state == Sleeping && y'.state == Runnable)
            || (y.state == Unused && y'.state == Runnable && y'.pc == Forkret && y.parent == p)
            || (y.state == Zombie && y'.state == Unused && y.parent == p && y'.parent == -1))
        && (y'.chan == y.chan || y'.state == Unused))
  }

  /** Every thread step is gentle to the process it looks at, unless that is the thread itself. */
  lemma GentleStep(s: State, c: int, t: Step)
    requires Inv(s) && ThreadEnabled(s, c, t)
    ensures var p := s.cpus[c].proc; var q := Target(s.procs[p], p, t);
            && (q == p ==> Theirs(s.procs[p], p, s.procs[q], c, t) == s.procs[q])
            && Gentle(s.procs[q], Theirs(s.procs[p], p, s.procs[q], c, t), p, c)
  {
    hide Inv;
    var p := s.cpus[c].proc;
    var q := Target(s.procs[p], p, t);
    ActiveAt(s, c);
    PcAt(s, p);
    ParentAt(s, q);
    HoldAt(s, c, q);
    if t.ForkAlloc? {
      FreeUnused(s, q);
    }
  }

  /** What a step does to the thread's own process, as far as others can tell. */
  predicate Acted(x: Proc, x': Proc, c: int) {
    && x'.cpu == x.cpu == c && x'.parent == x.parent && x'.state != Unused && x.state == Running
    && (x'.lock == x.lock || x.lock < 0 || x.lock == c)
    && (x'.lock == x.lock || x'.lock < 0 || x'.lock == c)
    && (x'.state == Running || x'.lock == c)
    && (InWait(x') ==> x.lock == c)
    && (x'.state == Zombie ==> x.pc.ExitZombie?)
    && ThreadOk(x')
  }

  lemma OwnStep(s: State, c: int, t: Step)
    requires Inv(s) && ThreadEnabled(s, c, t)
    ensures var p := s.cpus[c].proc; var q := Target(s.procs[p], p, t);
            Acted(s.procs[p], Mine(s.procs[p], p, s.procs[q], c, |s.procs|, t), c)
  {
    hide Inv, Theirs, Target;
    ActiveAt(s, c);
    HoldAt(s, c, s.cpus[c].proc);
  }

  /** The state after a thread step, at any index. */
  lemma NextAt(s: State, c: int, t: Step, r: int)
    requires ThreadEnabled(s, c, t) && IsProc(s, r)
    ensures var s' := ThreadNext(s, c, t); var p := s.cpus[c].proc; var q := Target(s.procs[p], p, t);
            && |s'.procs| == |s.procs| && s'.cpus == s.cpus
            && s'.procs[r] == if r == p then Mine(s.procs[p], p, s.procs[q], c, |s.procs|, t)
                              else if r == q then Theirs(s.procs[p], p, s.procs[q], c, t) else s.procs[r]
  {
    hide Mine, Theirs, Target, May;
  }

  /** A step as other processes see it. */
  lemma Seen(s: State, c: int, t: Step, r: int)
    requires Inv(s) && ThreadEnabled(s, c, t) && IsProc(s, r)
    ensures var s' := ThreadNext(s, c, t); var p := s.cpus[c].proc;
            && |s'.procs| == |s.procs| && s'.cpus == s.cpus
            && (r == p ==> Acted(s.procs[p], s'.procs[p], c))
            && (r != p ==> Gentle(s.procs[r], s'.procs[r], p, c))
  {
    hide Inv, Mine, Theirs, Target, May, Acted, ThreadNext;
    NextAt(s, c, t, r);
    OwnStep(s, c, t);
    GentleStep(s, c, t);
  }

  lemma ThreadCpu(s: State, c: int, t: Step, b: int)
    requires Inv(s) && ThreadEnabled(s, c, t) && 0 <= b < |s.cpus|
    ensures var s' := ThreadNext(s, c, t); |s'.cpus| == |s.cpus| && CpuOk(s', b)
  {
    hide Inv, ThreadNext, Target, May;
    CpuAt(s, b);
    Seen(s, c, t, s.cpus[c].proc);
    if s.cpus[b].proc != -1 {
      Seen(s, c, t, s.cpus[b].proc);
    }
  }

  lemma ThreadCurrent(s: State, c: int, t: Step, r: int)
    requires Inv(s) && ThreadEnabled(s, c, t) && IsProc(s, r)
    ensures var s' := ThreadNext(s, c, t); IsProc(s', r) && CurrentOk(s', r)
  {
    hide Inv, ThreadNext, Target, May;
    CurrentAt(s, r);
    Seen(s, c, t, r);
  }

  lemma ThreadParent(s: State, c: int, t: Step, r: int)
    requires Inv(s) && ThreadEnabled(s, c, t) && IsProc(s, r)
    ensures var s' := ThreadNext(s, c, t); IsProc(s', r) && ParentOk(s', r)
  {
    hide Inv, ThreadNext, Target, May;
    var p := s.cpus[c].proc;
    ParentAt(s, r);
    Seen(s, c, t, r);
    Seen(s, c, t, p);
    if r == p {
      PcAt(s, p);
    } else {
      var s' := ThreadNext(s, c, t);
      if s'.procs[r].state == Unused && s'.procs[r].parent == p {
        ForkedByMe(s, c, t, r);
      } else if s'.procs[r].state == Unused && s'.procs[r].parent != -1 {
        var u := s.procs[r].parent;
        Seen(s, c, t, u);
        CurrentAt(s, u);
      }
    }
  }

  /** An unused child of the thread after its step is the one it is forking. */
  lemma ForkedByMe(s: State, c: int, t: Step, r: int)
    requires Inv(s) && ThreadEnabled(s, c, t) && IsProc(s, r) && r != s.cpus[c].proc
    requires ThreadNext(s, c, t).procs[r].state == Unused && ThreadNext(s, c, t).procs[r].parent == s.cpus[c].proc
    ensures ThreadNext(s, c, t).procs[s.cpus[c].proc].pc == ForkParent(r)
  {
    hide Inv, ThreadNext;
    NextAt(s, c, t, r);
    NextAt(s, c, t, s.cpus[c].proc);
    ParentAt(s, r);
    PcAt(s, s.cpus[c].proc);
  }

  /** The program counter of another thread stays right: what it says is about a process whose lock it
      holds, or about a parent link that only the parent changes. */
  lemma ThreadPcOther(s: State, c: int, t: Step, r: int)
    requires Inv(s) && ThreadEnabled(s, c, t) && IsProc(s, r) && r != s.cpus[c].proc
    ensures var s' := ThreadNext(s, c, t); IsProc(s', r) && PcOk(s', r)
  {
    hide Inv, ThreadNext, Target, May;
    var pc := s.procs[r].pc;
    PcAt(s, r);
    Seen(s, c, t, r);
    var u := if pc.Forking? || pc.ForkParent? then pc.np else if pc.ReparentLock? || pc.WaitLock? then pc.k else r;
    var v := if HasOp(pc) then OpOf(pc) else r;
    Seen(s, c, t, u);
    Seen(s, c, t, v);
    CurrentAt(s, r);
    ActiveAt(s, c);
    HoldAt(s, s.procs[r].cpu, u);
    HoldAt(s, s.procs[r].cpu, v);
  }

  lemma ThreadExitOwn(s: State, c: int, t: Step)
    requires Inv(s) && ThreadEnabled(s, c, t)
    ensures var s' := ThreadNext(s, c, t); IsProc(s', s.cpus[c].proc) && ExitOk(s', s.cpus[c].proc)
  {
    hide Inv, ThreadNext, LinkOk, Target, May, HasOp, OpOf;
    NextAt(s, c, t, s.cpus[c].proc);
    ThreadNotInit(s, c, t);
    ThreadOp(s, c, t);
  }

  /** Init does not exit. */
  lemma ThreadNotInit(s: State, c: int, t: Step)
    requires Inv(s) && ThreadEnabled(s, c, t)
    ensures var s' := ThreadNext(s, c, t); var p := s.cpus[c].proc;
            && IsProc(s', p)
            && var pc := s'.procs[p].pc;
            && (pc.ExitStart? || pc.ExitRead? || HasOp(pc) || pc.DeadSched? ==> p != INIT)
            && (Yielded(pc, ExitStart) || Yielded(pc, ExitRead) ==> p != INIT)
  {
    hide Inv, ThreadNext, LinkOk, Theirs, Target, OpOf;
    var p := s.cpus[c].proc;
    PcAt(s, p);
    BackAt(s, c);
    NextAt(s, c, t, p);
  }

  /** What an exiting thread remembers of its parent. */
  lemma ThreadOp(s: State, c: int, t: Step)
    requires Inv(s) && ThreadEnabled(s, c, t)
    ensures var s' := ThreadNext(s, c, t); var p := s.cpus[c].proc;
            && IsProc(s', p)
            && var pc, op := s'.procs[p].pc, OpOf(s'.procs[p].pc);
            && (HasOp(pc) ==> IsProc(s', op) && op != p && (s'.procs[p].parent == op || s'.procs[p].parent == INIT))
            && (HasOp(pc) ==> s'.procs[op].parent != p)
            && (pc.ExitZombie? ==> !InWait(s'.procs[pc.op]))
  {
    hide Inv, ThreadNext, LinkOk;
    var p := s.cpus[c].proc;
    PcAt(s, p);
    ParentAt(s, p);
    ActiveAt(s, c);
    NextAt(s, c, t, p);
    OpStep(s, c, t);
    if HasOp(s.procs[p].pc) {
      NextAt(s, c, t, OpOf(s.procs[p].pc));
    } else if t.ExitReadParent? {
      ParentAt(s, s.procs[p].parent);
      ChildAt(s, s.procs[p].parent, p);
      NextAt(s, c, t, s.procs[p].parent);
    }
  }

  lemma ThreadLinkOwn(s: State, c: int, t: Step)
    requires Inv(s) && ThreadEnabled(s, c, t)
    ensures var s' := ThreadNext(s, c, t); IsProc(s', s.cpus[c].proc) && LinkOk(s', s.cpus[c].proc)
  {
    hide Inv, ThreadNext, ExitOk;
    var p := s.cpus[c].proc;
    var q := Target(s.procs[p], p, t);
    PcAt(s, p);
    ParentAt(s, p);
    NextAt(s, c, t, p);
    NextAt(s, c, t, q);
    BackAt(s, c);
    if t.ForkAlloc? {
      ActiveAt(s, c);
      FreeUnused(s, q);
    }
  }

  lemma ThreadHoldOther(s: State, c: int, t: Step, b: int, r: int)
    requires Inv(s) && ThreadEnabled(s, c, t) && 0 <= b < |s.cpus| && b != c && IsProc(s, r)
    ensures var s' := ThreadNext(s, c, t); IsProc(s', r) && HoldOk(s', b, r)
  {
    hide Inv, ThreadNext, Target, May;
    HoldAt(s, b, r);
    Seen(s, c, t, r);
    CpuAt(s, b);
    ActiveAt(s, c);
    if IsProc(s, s.cpus[b].proc) {
      Seen(s, c, t, s.cpus[b].proc);
      CurrentAt(s, s.cpus[b].proc);
    }
  }

  lemma ThreadHoldOwn(s: State, c: int, t: Step, r: int)
    requires Inv(s) && ThreadEnabled(s, c, t) && IsProc(s, r)
    ensures var s' := ThreadNext(s, c, t); IsProc(s', r) && HoldOk(s', c, r)
  {
    hide Inv, ThreadNext, ThreadOk;
    var p := s.cpus[c].proc;
    BackAt(s, c);
    HoldAt(s, c, r);
    PcAt(s, p);
    ParentAt(s, p);
    ActiveAt(s, c);
    NextAt(s, c, t, r);
    NextAt(s, c, t, p);
  }

  /** The thread as the parent: a new child is the one being forked. */
  lemma ThreadNewChild(s: State, c: int, t: Step, r: int)
    requires Inv(s) && ThreadEnabled(s, c, t) && IsProc(s, r) && s.procs[r].parent != s.cpus[c].proc
    requires s.cpus[c].proc != INIT && ThreadNext(s, c, t).procs[r].parent == s.cpus[c].proc
    ensures var s' := ThreadNext(s, c, t); var p := s.cpus[c].proc;
            IsProc(s', p) && FamilyOk(s'.procs[p], p, s'.procs[r], r)
  {
    hide Inv, ThreadNext, ExitOk;
    var p := s.cpus[c].proc;
    PcAt(s, p);
    NextAt(s, c, t, r);
    NextAt(s, c, t, p);
    CurrentAt(s, r);
    ActiveAt(s, c);
    if s.procs[p].parent == r {
      ChildAt(s, r, p);
      ParentAt(s, r);
    }
  }

  /** The thread as the parent of a process that was its child before. */
  lemma ThreadOldChild(s: State, c: int, t: Step, r: int)
    requires Inv(s) && ThreadEnabled(s, c, t) && IsProc(s, r) && s.procs[r].parent == s.cpus[c].proc
    requires s.cpus[c].proc != INIT && ThreadNext(s, c, t).procs[r].parent == s.cpus[c].proc
    ensures var s' := ThreadNext(s, c, t); var p := s.cpus[c].proc;
            IsProc(s', p) && FamilyOk(s'.procs[p], p, s'.procs[r], r)
  {
    hide Inv, ThreadNext, ParentOk, ExitOk, LinkOk;
    var p := s.cpus[c].proc;
    BackAt(s, c);
    ChildAt(s, p, r);
    ParentAt(s, r);
    Seen(s, c, t, r);
    NextAt(s, c, t, r);
    NextAt(s, c, t, p);
    assert r != p by { SelfParent(s, r); }
  }

  lemma SelfParent(s: State, r: int)
    requires Inv(s) && IsProc(s, r)
    ensures s.procs[r].parent != r
  {
    hide Inv;
    ParentAt(s, r);
  }

  lemma ThreadChildOfMe(s: State, c: int, t: Step, r: int)
    requires Inv(s) && ThreadEnabled(s, c, t) && IsProc(s, r)
    ensures var s' := ThreadNext(s, c, t); var p := s.cpus[c].proc; IsProc(s', p) && IsProc(s', r) && ChildOk(s', p, r)
  {
    hide Inv, ThreadNext, Target, May, FamilyOk;
    var s' := ThreadNext(s, c, t);
    var p := s.cpus[c].proc;
    Seen(s, c, t, r);
    if p != INIT && s'.procs[r].parent == p {
      if s.procs[r].parent == p {
        ThreadOldChild(s, c, t, r);
      } else {
        ThreadNewChild(s, c, t, r);
      }
    }
  }

  /** The thread as the child, and two other processes. */
  lemma ThreadChildOther(s: State, c: int, t: Step, p: int, r: int)
    requires Inv(s) && ThreadEnabled(s, c, t) && IsProc(s, p) && IsProc(s, r) && p != s.cpus[c].proc
    ensures var s' := ThreadNext(s, c, t); IsProc(s', p) && IsProc(s', r) && ChildOk(s', p, r)
  {
    hide Inv, ThreadNext, Target, May;
    ChildAt(s, p, r);
    Seen(s, c, t, p);
    Seen(s, c, t, r);
    ParentAt(s, r);
    if r == s.cpus[c].proc {
      ThreadIsChild(s, c, t, p);
    }
  }

  /** Exit reads the parent once and remembers it. */
  lemma OpStep(s: State, c: int, t: Step)
    requires Inv(s) && ThreadEnabled(s, c, t)
    ensures var s' := ThreadNext(s, c, t); var p := s.cpus[c].proc;
            && IsProc(s', p)
            && (HasOp(s'.procs[p].pc) ==>
                   OpOf(s'.procs[p].pc) == if HasOp(s.procs[p].pc) then OpOf(s.procs[p].pc) else s.procs[p].parent)
  {
    hide Inv, ThreadNext, Theirs, Target;
    BackAt(s, c);
    NextAt(s, c, t, s.cpus[c].proc);
  }

  /** A process that is about to become a ZOMBIE holds the lock of its parent, so the parent does not scan. */
  lemma ParentWaits(s: State, c: int, p: int)
    requires Inv(s) && Active(s, c) && IsProc(s, p) && p != INIT && p != s.cpus[c].proc
    requires s.procs[s.cpus[c].proc].pc.ExitZombie? && s.procs[s.cpus[c].proc].parent == p
    ensures !InWait(s.procs[p]) && !s.procs[p].pc.WaitScan? && !s.procs[p].pc.WaitLock?
  {
    hide Inv;
    var r := s.cpus[c].proc;
    ChildAt(s, p, r);
    PcAt(s, r);
    HoldAt(s, c, p);
    CurrentAt(s, p);
    HoldAt(s, s.procs[p].cpu, p);
  }

  lemma ThreadIsChild(s: State, c: int, t: Step, p: int)
    requires Inv(s) && ThreadEnabled(s, c, t) && IsProc(s, p) && p != s.cpus[c].proc
    ensures var s' := ThreadNext(s, c, t); var r := s.cpus[c].proc; IsProc(s', p) && IsProc(s', r) && ChildOk(s', p, r)
  {
    hide Inv, ThreadNext, Target, May;
    var r := s.cpus[c].proc;
    ChildAt(s, p, r);
    Seen(s, c, t, p);
    Seen(s, c, t, r);
    OpStep(s, c, t);
    if p != INIT && s.procs[r].parent == p && s.procs[r].pc.ExitZombie? {
      ParentWaits(s, c, p);
    }
  }
}
