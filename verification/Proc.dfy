/** Processes, locks and the scheduler (kernel/proc.c, kernel/spinlock.c) as a step system. A step is one
    acquire or release with the accesses next to it, and every access to another process without its
    lock is a step of its own; `swtch` is an atomic hand-off. */
module Proc {
  datatype PState = Unused | Sleeping | Runnable | Running | Zombie

  /** p->chan: Own is the process itself, which only `wait` sleeps on. */
  datatype Chan = NoChan | Own | Other(id: int)

  /** Where the kernel thread of a process is. */
  datatype Pc =
    | User
    | Forking(np: int) | ForkParent(np: int)
    | ExitStart | ExitRead | ExitLockParent(op: int) | ExitLockSelf(op: int)
    | Reparent(op: int, k: int) | ReparentLock(op: int, k: int) | ExitWake(op: int) | ExitZombie(op: int)
    | DeadSched | Dead
    | WaitScan(k: int, kids: bool) | WaitLock(k: int) | WaitSched | WaitResume
    | SleepSched | SleepResume
    | YieldSched(back: Pc) | YieldResume(back: Pc)
    | Forkret

  /** lock is the CPU that holds p->lock, or -1; cpu is the CPU whose c->proc is p, or -1. */
  datatype Proc = Proc(state: PState, parent: int, chan: Chan, killed: bool, lock: int, cpu: int, pc: Pc)

  /** c->proc, and whether the CPU is in that process or in `scheduler`. */
  datatype Cpu = Cpu(proc: int, inProc: bool)

  datatype State = State(procs: seq<Proc>, cpus: seq<Cpu>)

  /** Steps of the thread of a process. */
  datatype Step =
    | ForkAlloc(q: int) | ForkFail | ForkSetParent | ForkRun
    | ExitCall | ExitWakeInit | ExitReadParent | ExitAcquireParent | ExitAcquireSelf
    | ReparentCheck | ReparentSet | ReparentEnd | ExitWakeup | ExitDie
    | WaitCall | WaitCheck | WaitExamine(fault: bool) | WaitFinish
    | SleepCall(id: int) | YieldCall | Resume

  /** Pick, Swtch and PutBack are `scheduler` and `sched`; Wakeup and Kill are one process in the loops of
      `wakeup` and `kill`, on any CPU. */
  datatype Action =
    | Thread(c: int, t: Step) | Pick(c: int, q: int) | Swtch(c: int) | PutBack(c: int)
    | Wakeup(q: int, id: int) | Kill(q: int)

  const INIT := 0

  predicate IsProc(s: State, p: int) {
    0 <= p < |s.procs|
  }

  /** CPU c runs the thread of a process. */
  predicate Active(s: State, c: int) {
    0 <= c < |s.cpus| && s.cpus[c].inProc && IsProc(s, s.cpus[c].proc)
  }

  /** Where a thread holds no lock, so that interrupts are on and the timer can make it yield. */
  predicate Preemptible(pc: Pc) {
    pc == User || pc == ExitStart || pc == ExitRead || pc.ExitLockParent?
  }

  /** `wakeup1`. */
  function Woken(y: Proc): (r: Proc) {
    if y.chan == Own && y.state == Sleeping then y.(state := Runnable) else y
  }

  /** `freeproc`, with p->lock then released. */
  function Freed(y: Proc): (r: Proc) {
    Proc(Unused, -1, NoChan, false, -1, y.cpu, y.pc)
  }

  /** The other process a step of thread x, with number p, looks at. */
  function Target(x: Proc, p: int, t: Step): (q: int) {
    match t
    case ForkAlloc(q) => q
    case ForkFail | ForkSetParent | ForkRun => if x.pc.Forking? || x.pc.ForkParent? then x.pc.np else p
    case ExitWakeInit => INIT
    case ExitAcquireParent => if x.pc.ExitLockParent? then x.pc.op else p
    case ExitWakeup => if x.pc.ExitWake? then x.pc.op else p
    case ExitDie => if x.pc.ExitZombie? then x.pc.op else p
    case ReparentCheck => if x.pc.Reparent? then x.pc.k else p
    case ReparentSet => if x.pc.ReparentLock? then x.pc.k else p
    case WaitCheck => if x.pc.WaitScan? then x.pc.k else p
    case WaitExamine(_) => if x.pc.WaitLock? then x.pc.k else p
    case _ => p
  }

  /** Thread x, with number p of n, can take the step; y is the other process. An acquire waits until the
      lock is free. */
  predicate May(x: Proc, p: int, y: Proc, n: int, t: Step) {
    match t
    case ForkAlloc(_) => x.pc == User && y.lock < 0 && y.state == Unused
    case ForkFail => x.pc.Forking?
    case ForkSetParent => x.pc.Forking?
    case ForkRun => x.pc.ForkParent?
    case ExitCall => x.pc == User && p != INIT
    case ExitWakeInit => x.pc == ExitStart && y.lock < 0
    case ExitReadParent => x.pc == ExitRead && x.lock < 0
    case ExitAcquireParent => x.pc.ExitLockParent? && y.lock < 0
    case ExitAcquireSelf => x.pc.ExitLockSelf? && x.lock < 0
    case ReparentCheck => x.pc.Reparent? && x.pc.k < n
    case ReparentEnd => x.pc.Reparent? && x.pc.k == n
    case ReparentSet => x.pc.ReparentLock? && y.lock < 0
    case ExitWakeup => x.pc.ExitWake?
    case ExitDie => x.pc.ExitZombie?
    case WaitCall => x.pc == User && x.lock < 0
    case WaitCheck => x.pc.WaitScan? && x.pc.k < n
    case WaitExamine(_) => x.pc.WaitLock? && y.lock < 0
    case WaitFinish => x.pc.WaitScan? && x.pc.k == n
    case SleepCall(_) => x.pc == User && x.lock < 0
    case YieldCall => Preemptible(x.pc) && x.lock < 0
    case Resume => x.pc == WaitResume || x.pc == SleepResume || x.pc.YieldResume? || x.pc == Forkret
  }

  /** The other process after the step. */
  function Theirs(x: Proc, p: int, y: Proc, c: int, t: Step): (r: Proc) {
    match t
    case ForkAlloc(_) => y.(lock := c)
    case ForkFail => Freed(y)
    case ForkSetParent => y.(parent := p)
    case ForkRun => y.(state := Runnable, pc := Forkret, lock := -1)
    case ExitWakeInit => Woken(y)
    case ExitAcquireParent => y.(lock := c)
    case ReparentSet => y.(parent := INIT)
    case ExitWakeup => Woken(y)
    case ExitDie => y.(lock := -1)
    case WaitExamine(fault) => if y.state == Zombie && !fault then Freed(y) else y
    case _ => y
  }

  /** The process itself after the step. */
  function Mine(x: Proc, p: int, y: Proc, c: int, n: int, t: Step): (r: Proc)
    requires May(x, p, y, n, t)
  {
    match t
    case ForkAlloc(q) => x.(pc := Forking(q))
    case ForkFail => x.(pc := User)
    case ForkSetParent => x.(pc := ForkParent(x.pc.np))
    case ForkRun => x.(pc := User)
    case ExitCall => x.(pc := ExitStart)
    case ExitWakeInit => x.(pc := ExitRead)
    case ExitReadParent => x.(pc := ExitLockParent(x.parent))
    case ExitAcquireParent => x.(pc := ExitLockSelf(x.pc.op))
    case ExitAcquireSelf => x.(lock := c, pc := Reparent(x.pc.op, 0))
    case ReparentCheck => x.(pc := if y.parent == p then ReparentLock(x.pc.op, x.pc.k)
        else Reparent(x.pc.op, x.pc.k + 1))
    case ReparentEnd => x.(pc := ExitWake(x.pc.op))
    case ReparentSet => x.(pc := Reparent(x.pc.op, x.pc.k + 1))
    case ExitWakeup => x.(pc := ExitZombie(x.pc.op))
    case ExitDie => x.(state := Zombie, pc := DeadSched)
    case WaitCall => x.(lock := c, pc := WaitScan(0, false))
    case WaitCheck => x.(pc := if y.parent == p then WaitLock(x.pc.k) else WaitScan(x.pc.k + 1, x.pc.kids))
    case WaitExamine(_) => if y.state == Zombie then x.(lock := -1, pc := User)
        else x.(pc := WaitScan(x.pc.k + 1, true))
    case WaitFinish => if !x.pc.kids || x.killed then x.(lock := -1, pc := User)
        else x.(chan := Own, state := Sleeping, pc := WaitSched)
    case SleepCall(id) => x.(lock := c, chan := Other(id), state := Sleeping, pc := SleepSched)
    case YieldCall => x.(lock := c, state := Runnable, pc := YieldSched(x.pc))
    case Resume =>
      if x.pc == WaitResume then x.(chan := NoChan, pc := WaitScan(0, false))
      else if x.pc == SleepResume then x.(chan := NoChan, lock := -1, pc := User)
      else x.(lock := -1, pc := if x.pc.YieldResume? then x.pc.back else User)
  }

  predicate AtSched(pc: Pc) {
    pc == DeadSched || pc == WaitSched || pc == SleepSched || pc.YieldSched?
  }

  /** The program counter inside `swtch`. */
  function Parking(pc: Pc): (r: Pc)
    requires AtSched(pc)
  {
    match pc
    case DeadSched => Dead
    case WaitSched => WaitResume
    case SleepSched => SleepResume
    case YieldSched(back) => YieldResume(back)
  }

  predicate ThreadEnabled(s: State, c: int, t: Step) {
    && Active(s, c)
    && var p := s.cpus[c].proc;
    && IsProc(s, Target(s.procs[p], p, t))
    && May(s.procs[p], p, s.procs[Target(s.procs[p], p, t)], |s.procs|, t)
  }

  function ThreadNext(s: State, c: int, t: Step): (r: State)
    requires ThreadEnabled(s, c, t)
  {
    var p := s.cpus[c].proc;
    var q := Target(s.procs[p], p, t);
    var x, y := s.procs[p], s.procs[q];
    s.(procs := s.procs[q := Theirs(x, p, y, c, t)][p := Mine(x, p, y, c, |s.procs|, t)])
  }

  predicate Enabled(s: State, a: Action) {
    match a
    case Thread(c, t) => ThreadEnabled(s, c, t)
    case Pick(c, q) => 0 <= c < |s.cpus| && s.cpus[c] == Cpu(-1, false) && IsProc(s, q) && s.procs[q].lock < 0
        && s.procs[q].state == Runnable
    case Swtch(c) => Active(s, c) && AtSched(s.procs[s.cpus[c].proc].pc)
    case PutBack(c) => 0 <= c < |s.cpus| && !s.cpus[c].inProc && IsProc(s, s.cpus[c].proc)
    case Wakeup(q, _) => IsProc(s, q) && s.procs[q].lock < 0
    case Kill(q) => IsProc(s, q) && s.procs[q].lock < 0
  }

  function Next(s: State, a: Action): (r: State)
    requires Enabled(s, a)
  {
    match a
    case Thread(c, t) => ThreadNext(s, c, t)
    case Pick(c, q) => State(s.procs[q := s.procs[q].(state := Running, lock := c, cpu := c)],
        s.cpus[c := Cpu(q, true)])
    case Swtch(c) =>
      var p := s.cpus[c].proc;
      State(s.procs[p := s.procs[p].(pc := Parking(s.procs[p].pc))], s.cpus[c := Cpu(p, false)])
    case PutBack(c) =>
      var p := s.cpus[c].proc;
      State(s.procs[p := s.procs[p].(lock := -1, cpu := -1)], s.cpus[c := Cpu(-1, false)])
    case Wakeup(q, id) =>
      var y := s.procs[q];
      s.(procs := s.procs[q := if y.state == Sleeping && y.chan == Other(id) then y.(state := Runnable) else y])
    case Kill(q) =>
      var y := s.procs[q];
      s.(procs := s.procs[q := y.(killed := true, state := if y.state == Sleeping then Runnable else y.state)])
  }
}
