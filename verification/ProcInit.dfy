/** Init is the one process that may sleep in `wait` beside a ZOMBIE of its own: a run from boot that ends
    so, on any number of CPUs and with any process table of at least four entries. */
module ProcInit {
  import opened Proc
  import opened ProcSafety
  import opened ProcTheorems

  const FREE := Proc(Unused, -1, NoChan, false, -1, -1, Forkret)

  // ---------------------------------------------------------------- larger machines

  /** More processes, all unused, and more CPUs, all idle. */
  ghost function Wide(s: State, n: nat, m: nat): (r: State)
    requires |s.procs| <= n && |s.cpus| <= m
    ensures |r.procs| == n && |r.cpus| == m
    ensures forall p :: 0 <= p < n ==> r.procs[p] == if p < |s.procs| then s.procs[p] else FREE
    ensures forall c :: 0 <= c < m ==> r.cpus[c] == if c < |s.cpus| then s.cpus[c] else Cpu(-1, false)
  {
    State(s.procs + seq(n - |s.procs|, i => FREE), s.cpus + seq(m - |s.cpus|, i => Cpu(-1, false)))
  }

  /** The last step of a scan of the process table. */
  predicate EndsScan(a: Action) {
    a.Thread? && (a.t == ReparentEnd || a.t == WaitFinish)
  }

  lemma SameState(s: State, r: State)
    requires |s.procs| == |r.procs| && |s.cpus| == |r.cpus|
    requires forall p :: 0 <= p < |s.procs| ==> s.procs[p] == r.procs[p]
    requires forall c :: 0 <= c < |s.cpus| ==> s.cpus[c] == r.cpus[c]
    ensures s == r
  {
    assert s.procs == r.procs && s.cpus == r.cpus;
  }

  lemma WideThread(s: State, n: nat, m: nat, c: int, t: Step)
    requires |s.procs| <= n && |s.cpus| <= m && ThreadEnabled(s, c, t) && t != ReparentEnd && t != WaitFinish
    ensures ThreadEnabled(Wide(s, n, m), c, t) && ThreadNext(Wide(s, n, m), c, t) == Wide(ThreadNext(s, c, t), n, m)
  {
    hide Target, Theirs, Wide;
    var w := Wide(s, n, m);
    var p := s.cpus[c].proc;
    var q := Target(s.procs[p], p, t);
    var x, y := s.procs[p], s.procs[q];
    assert w.cpus[c] == s.cpus[c] && w.procs[p] == x && w.procs[q] == y;
    assert May(x, p, y, n, t) && Mine(x, p, y, c, n, t) == Mine(x, p, y, c, |s.procs|, t);
    hide May, Mine;
    SameState(ThreadNext(w, c, t), Wide(ThreadNext(s, c, t), n, m));
  }

  lemma WideStep(s: State, n: nat, m: nat, a: Action)
    requires |s.procs| <= n && |s.cpus| <= m && Enabled(s, a) && !EndsScan(a)
    ensures Enabled(Wide(s, n, m), a) && Next(Wide(s, n, m), a) == Wide(Next(s, a), n, m)
  {
    hide Wide, ThreadEnabled, ThreadNext;
    if a.Thread? {
      WideThread(s, n, m, a.c, a.t);
    } else {
      SameState(Next(Wide(s, n, m), a), Wide(Next(s, a), n, m));
    }
  }

  /** The thread on CPU c is at slot k of its scan. */
  predicate Scans(s: State, c: int, k: int) {
    Active(s, c) && var pc := s.procs[s.cpus[c].proc].pc; (pc.Reparent? || pc.WaitScan?) && pc.k == k
  }

  function AtSlot(s: State, c: int, k: int): (r: State)
    requires Scans(s, c, |s.procs|)
  {
    var p := s.cpus[c].proc;
    s.(procs := s.procs[p := s.procs[p].(pc := s.procs[p].pc.(k := k))])
  }

  /** The unused slots are nobody's children. */
  lemma {:induction false} ScanUnused(s: State, n: nat, m: nat, c: int, k: nat) returns (acts: seq<Action>)
    requires |s.procs| <= k <= n && |s.cpus| <= m && Scans(s, c, |s.procs|)
    ensures Executes(Wide(s, n, m), acts, Wide(AtSlot(s, c, k), n, m))
  {
    hide Executes;
    if k == |s.procs| {
      acts := Stay(Wide(s, n, m));
      SameState(Wide(s, n, m), Wide(AtSlot(s, c, k), n, m));
    } else {
      acts := ScanUnused(s, n, m, c, k - 1);
      var w := Wide(AtSlot(s, c, k - 1), n, m);
      var t := if s.procs[s.cpus[c].proc].pc.Reparent? then ReparentCheck else WaitCheck;
      hide Wide;
      assert Enabled(w, Thread(c, t));
      SameState(Next(w, Thread(c, t)), Wide(AtSlot(s, c, k), n, m));
      acts := Then(Wide(s, n, m), acts, w, Thread(c, t));
    }
  }

  lemma WideEnd(s: State, n: nat, m: nat, c: int, t: Step) returns (acts: seq<Action>)
    requires |s.procs| <= n && |s.cpus| <= m && ThreadEnabled(s, c, t) && (t == ReparentEnd || t == WaitFinish)
    ensures Executes(Wide(s, n, m), acts, Wide(ThreadNext(s, c, t), n, m))
  {
    hide Executes;
    assert Scans(s, c, |s.procs|);
    acts := ScanUnused(s, n, m, c, n);
    var w := Wide(AtSlot(s, c, n), n, m);
    hide Wide;
    assert Enabled(w, Thread(c, t));
    SameState(Next(w, Thread(c, t)), Wide(ThreadNext(s, c, t), n, m));
    acts := Then(Wide(s, n, m), acts, w, Thread(c, t));
  }

  /** A run of a small machine is one of every larger machine, up to the length of its scans. */
  lemma {:induction false} WideRun(s: State, acts: seq<Action>, s': State, n: nat, m: nat) returns (wide: seq<Action>)
    requires |s.procs| <= n && |s.cpus| <= m && Executes(s, acts, s')
    ensures |s'.procs| == |s.procs| && |s'.cpus| == |s.cpus| && Executes(Wide(s, n, m), wide, Wide(s', n, m))
    decreases |acts|
  {
    if |acts| == 0 {
      wide := Stay(Wide(s, n, m));
    } else {
      var a := acts[0];
      var s1 := Next(s, a);
      var first: seq<Action>;
      if EndsScan(a) {
        first := WideEnd(s, n, m, a.c, a.t);
      } else {
        WideStep(s, n, m, a);
        first := Stay(Wide(s, n, m));
        first := Then(Wide(s, n, m), first, Wide(s, n, m), a);
      }
      var rest := WideRun(s1, acts[1..], s', n, m);
      hide Executes, Enabled, Next, Wide;
      wide := Chain(Wide(s, n, m), first, Wide(s1, n, m), rest, Wide(s', n, m));
    }
  }

  // ---------------------------------------------------------------- building runs

  lemma Stay(s: State) returns (acts: seq<Action>)
    ensures Executes(s, acts, s)
  {
    acts := [];
  }

  lemma {:induction false} Chain(s: State, a: seq<Action>, t: State, b: seq<Action>,
                                 u: State) returns (acts: seq<Action>)
    requires Executes(s, a, t) && Executes(t, b, u)
    ensures Executes(s, acts, u) && acts == a + b
    decreases |a|
  {
    hide Next, Enabled;
    acts := a + b;
    if |a| == 0 {
      assert acts == b;
    } else {
      var rest := Chain(Next(s, a[0]), a[1..], t, b, u);
      assert acts[1..] == rest;
    }
  }

  lemma Then(s: State, a: seq<Action>, t: State, b: Action) returns (acts: seq<Action>)
    requires Executes(s, a, t) && Enabled(t, b)
    ensures Executes(s, acts, Next(t, b))
  {
    hide Next, Enabled;
    assert [b][1..] == [];
    assert Executes(Next(t, b), [], Next(t, b));
    assert Executes(t, [b], Next(t, b));
    acts := Chain(s, a, t, [b], Next(t, b));
  }

  // ---------------------------------------------------------------- the run, on one CPU

  const IDLE := [Cpu(-1, false)]

  /** A process that no CPU runs and nobody has locked. */
  function Rest(state: PState, parent: int, pc: Pc): (x: Proc) {
    Proc(state, parent, NoChan, false, -1, -1, pc)
  }

  function Asleep(): (x: Proc) {
    Proc(Sleeping, -1, Own, false, -1, -1, WaitResume)
  }

  function Four(x0: Proc, x1: Proc, x2: Proc, x3: Proc): (s: State) {
    State([x0, x1, x2, x3], IDLE)
  }

  ghost predicate Reaches(s: State, s': State) {
    exists acts :: Executes(s, acts, s')
  }

  lemma ReachesMore(s: State, t: State, u: State)
    requires Reaches(s, t) && Reaches(t, u)
    ensures Reaches(s, u)
  {
    hide Executes;
    var a :| Executes(s, a, t);
    var b :| Executes(t, b, u);
    var acts := Chain(s, a, t, b, u);
  }

  lemma ReachesBy(s: State, t: State, a: Action) returns (u: State)
    requires Reaches(s, t) && Enabled(t, a)
    ensures u == Next(t, a) && Reaches(s, u)
  {
    hide Executes, Next, Enabled;
    var acts :| Executes(s, acts, t);
    var more := Then(s, acts, t, a);
    u := Next(t, a);
  }

  lemma ReachesSelf(s: State)
    ensures Reaches(s, s)
  {
    var acts := Stay(s);
  }

  function S0(): (s: State) {
    Four(Rest(Runnable, -1, Forkret), FREE, FREE, FREE)
  }

  function S1(): (s: State) {
    Four(Rest(Runnable, -1, YieldResume(User)), Rest(Runnable, 0, Forkret), FREE, FREE)
  }

  function S2(): (s: State) {
    Four(Rest(Runnable, -1, YieldResume(User)), Rest(Runnable, 0, YieldResume(User)), Rest(Runnable, 1, Forkret), FREE)
  }

  function S3(): (s: State) {
    Four(Rest(Runnable, -1, YieldResume(User)), Rest(Runnable, 0, YieldResume(User)),
        Rest(Runnable, 1, YieldResume(User)), Rest(Runnable, 2, Forkret))
  }

  function S4(): (s: State) {
    Four(Rest(Runnable, -1, YieldResume(User)), Rest(Runnable, 0, YieldResume(User)),
        Rest(Runnable, 1, YieldResume(User)), Rest(Zombie, 2, Dead))
  }

  function S5(): (s: State) {
    Four(Rest(Runnable, -1, YieldResume(User)), Rest(Runnable, 0, YieldResume(User)),
        Rest(Runnable, 1, YieldResume(ExitRead)), Rest(Zombie, 2, Dead))
  }

  function S6(): (s: State) {
    Four(Asleep(), Rest(Runnable, 0, YieldResume(User)), Rest(Runnable, 1, YieldResume(ExitRead)),
        Rest(Zombie, 2, Dead))
  }

  function S7(): (s: State) {
    Four(Asleep(), Rest(Runnable, 0, YieldResume(User)), Rest(Zombie, 1, Dead), Rest(Zombie, 0, Dead))
  }

  /** Init forks process 1. */
  lemma InitForks()
    ensures Reaches(S0(), S1())
  {
    hide Reaches;
    var s := S0();
    ReachesSelf(s);
    var t1 := ReachesBy(s, s, Pick(0, 0));
    var t2 := ReachesBy(s, t1, Thread(0, Resume));
    var t3 := ReachesBy(s, t2, Thread(0, ForkAlloc(1)));
    var t4 := ReachesBy(s, t3, Thread(0, ForkSetParent));
    var t5 := ReachesBy(s, t4, Thread(0, ForkRun));
    var t6 := ReachesBy(s, t5, Thread(0, YieldCall));
    var t7 := ReachesBy(s, t6, Swtch(0));
    var t8 := ReachesBy(s, t7, PutBack(0));
    SameState(t8, S1());
  }

  /** Process 1 forks process 2. */
  lemma FirstForks()
    ensures Reaches(S1(), S2())
  {
    hide Reaches;
    var s := S1();
    ReachesSelf(s);
    var t1 := ReachesBy(s, s, Pick(0, 1));
    var t2 := ReachesBy(s, t1, Thread(0, Resume));
    var t3 := ReachesBy(s, t2, Thread(0, ForkAlloc(2)));
    var t4 := ReachesBy(s, t3, Thread(0, ForkSetParent));
    var t5 := ReachesBy(s, t4, Thread(0, ForkRun));
    var t6 := ReachesBy(s, t5, Thread(0, YieldCall));
    var t7 := ReachesBy(s, t6, Swtch(0));
    var t8 := ReachesBy(s, t7, PutBack(0));
    SameState(t8, S2());
  }

  /** Process 2 forks process 3. */
  lemma SecondForks()
    ensures Reaches(S2(), S3())
  {
    hide Reaches;
    var s := S2();
    ReachesSelf(s);
    var t1 := ReachesBy(s, s, Pick(0, 2));
    var t2 := ReachesBy(s, t1, Thread(0, Resume));
    var t3 := ReachesBy(s, t2, Thread(0, ForkAlloc(3)));
    var t4 := ReachesBy(s, t3, Thread(0, ForkSetParent));
    var t5 := ReachesBy(s, t4, Thread(0, ForkRun));
    var t6 := ReachesBy(s, t5, Thread(0, YieldCall));
    var t7 := ReachesBy(s, t6, Swtch(0));
    var t8 := ReachesBy(s, t7, PutBack(0));
    SameState(t8, S3());
  }

  /** Process 3 exits and is a ZOMBIE. */
  lemma ThirdExits()
    ensures Reaches(S3(), S4())
  {
    hide Reaches;
    var s := S3();
    ReachesSelf(s);
    var t1 := ReachesBy(s, s, Pick(0, 3));
    var t2 := ReachesBy(s, t1, Thread(0, Resume));
    var t3 := ReachesBy(s, t2, Thread(0, ExitCall));
    var t4 := ReachesBy(s, t3, Thread(0, ExitWakeInit));
    var t5 := ReachesBy(s, t4, Thread(0, ExitReadParent));
    var t6 := ReachesBy(s, t5, Thread(0, ExitAcquireParent));
    var t7 := ReachesBy(s, t6, Thread(0, ExitAcquireSelf));
    var t8 := ReachesBy(s, t7, Thread(0, ReparentCheck));
    var t9 := ReachesBy(s, t8, Thread(0, ReparentCheck));
    var t10 := ReachesBy(s, t9, Thread(0, ReparentCheck));
    var t11 := ReachesBy(s, t10, Thread(0, ReparentCheck));
    var t12 := ReachesBy(s, t11, Thread(0, ReparentEnd));
    var t13 := ReachesBy(s, t12, Thread(0, ExitWakeup));
    var t14 := ReachesBy(s, t13, Thread(0, ExitDie));
    var t15 := ReachesBy(s, t14, Swtch(0));
    var t16 := ReachesBy(s, t15, PutBack(0));
    SameState(t16, S4());
  }

  /** Process 2 begins to exit: it wakes init, and is preempted. */
  lemma SecondBegins()
    ensures Reaches(S4(), S5())
  {
    hide Reaches;
    var s := S4();
    ReachesSelf(s);
    var t1 := ReachesBy(s, s, Pick(0, 2));
    var t2 := ReachesBy(s, t1, Thread(0, Resume));
    var t3 := ReachesBy(s, t2, Thread(0, ExitCall));
    var t4 := ReachesBy(s, t3, Thread(0, ExitWakeInit));
    var t5 := ReachesBy(s, t4, Thread(0, YieldCall));
    var t6 := ReachesBy(s, t5, Swtch(0));
    var t7 := ReachesBy(s, t6, PutBack(0));
    SameState(t7, S5());
  }

  /** Init looks for a ZOMBIE among its children, finds none and goes to sleep. */
  lemma InitWaits()
    ensures Reaches(S5(), S6())
  {
    hide Reaches;
    var s := S5();
    ReachesSelf(s);
    var t1 := ReachesBy(s, s, Pick(0, 0));
    var t2 := ReachesBy(s, t1, Thread(0, Resume));
    var t3 := ReachesBy(s, t2, Thread(0, WaitCall));
    var t4 := ReachesBy(s, t3, Thread(0, WaitCheck));
    var t5 := ReachesBy(s, t4, Thread(0, WaitCheck));
    var t6 := ReachesBy(s, t5, Thread(0, WaitExamine(false)));
    var t7 := ReachesBy(s, t6, Thread(0, WaitCheck));
    var t8 := ReachesBy(s, t7, Thread(0, WaitCheck));
    var t9 := ReachesBy(s, t8, Thread(0, WaitFinish));
    var t10 := ReachesBy(s, t9, Swtch(0));
    var t11 := ReachesBy(s, t10, PutBack(0));
    SameState(t11, S6());
  }

  /** Process 2 gives process 3 to init, wakes its own parent and dies. */
  lemma SecondExits()
    ensures Reaches(S6(), S7())
  {
    hide Reaches;
    var s := S6();
    ReachesSelf(s);
    var t1 := ReachesBy(s, s, Pick(0, 2));
    var t2 := ReachesBy(s, t1, Thread(0, Resume));
    var t3 := ReachesBy(s, t2, Thread(0, ExitReadParent));
    var t4 := ReachesBy(s, t3, Thread(0, ExitAcquireParent));
    var t5 := ReachesBy(s, t4, Thread(0, ExitAcquireSelf));
    var t6 := ReachesBy(s, t5, Thread(0, ReparentCheck));
    var t7 := ReachesBy(s, t6, Thread(0, ReparentCheck));
    var t8 := ReachesBy(s, t7, Thread(0, ReparentCheck));
    var t9 := ReachesBy(s, t8, Thread(0, ReparentCheck));
    var t10 := ReachesBy(s, t9, Thread(0, ReparentSet));
    var t11 := ReachesBy(s, t10, Thread(0, ReparentEnd));
    var t12 := ReachesBy(s, t11, Thread(0, ExitWakeup));
    var t13 := ReachesBy(s, t12, Thread(0, ExitDie));
    var t14 := ReachesBy(s, t13, Swtch(0));
    var t15 := ReachesBy(s, t14, PutBack(0));
    SameState(t15, S7());
  }

  lemma WholeRun()
    ensures Reaches(S0(), S7())
  {
    hide Reaches, S0, S1, S2, S3, S4, S5, S6, S7;
    InitForks();
    FirstForks();
    SecondForks();
    ThirdExits();
    SecondBegins();
    InitWaits();
    SecondExits();
    ReachesMore(S0(), S1(), S2());
    ReachesMore(S0(), S2(), S3());
    ReachesMore(S0(), S3(), S4());
    ReachesMore(S0(), S4(), S5());
    ReachesMore(S0(), S5(), S6());
    ReachesMore(S0(), S6(), S7());
  }

  /** From every boot with at least four processes and a CPU, init can end up asleep in `wait` beside a
      ZOMBIE that was given to it, with no thread in `exit` left that would wake it. */
  lemma InitMissesZombie(s: State) returns (acts: seq<Action>, s': State)
    requires Boot(s) && |s.procs| >= 4 && |s.cpus| >= 1
    ensures Executes(s, acts, s') && |s'.procs| == |s.procs|
    ensures InWait(s'.procs[INIT]) && s'.procs[3].parent == INIT && s'.procs[3].state == Zombie
    ensures forall p :: IsProc(s', p) ==> Parked(s'.procs[p].pc) && !HasOp(s'.procs[p].pc)
  {
    hide Executes;
    WholeRun();
    var small :| Executes(S0(), small, S7());
    acts := WideRun(S0(), small, S7(), |s.procs|, |s.cpus|);
    SameState(s, Wide(S0(), |s.procs|, |s.cpus|));
    s' := Wide(S7(), |s.procs|, |s.cpus|);
  }

  /** Some run from s ends with p asleep in `wait` beside a ZOMBIE of its own. */
  ghost predicate MayMiss(s: State, p: int) {
    exists acts, s', q :: Executes(s, acts, s') && IsProc(s', p) && IsProc(s', q) && Missed(s', p, q)
  }

  predicate Missed(s: State, p: int, q: int)
    requires IsProc(s, p) && IsProc(s, q)
  {
    InWait(s.procs[p]) && s.procs[q].parent == p && s.procs[q].state == Zombie
  }

  /** Init is the only process this can happen to. */
  lemma MissesIffInit(s: State, p: int)
    requires Boot(s) && |s.procs| >= 4 && |s.cpus| >= 1 && IsProc(s, p)
    ensures MayMiss(s, p) <==> p == INIT
  {
    hide Executes;
    if p == INIT {
      var acts, s' := InitMissesZombie(s);
      assert Missed(s', INIT, 3);
    } else {
      forall acts, s', q | Executes(s, acts, s') && IsProc(s', p) && IsProc(s', q)
        ensures !Missed(s', p, q)
      {
        if s'.procs[q].parent == p && s'.procs[q].state == Zombie {
          NoMissedExit(s, acts, s', p, q);
        }
      }
    }
  }
}
