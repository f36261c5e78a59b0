/** Runs of the lazily allocated memory of LazyMachine, next to the eager memory that explains them: what each
    load, store and copy gives, when one is refused, and how many pages it takes. */
module LazyRun {
  import opened PageTable
  import opened Vm
  import opened UserVm
  import opened LazyMemory
  import opened LazyMachine

  datatype Command =
    | DoSpawn(c: int)
    | DoSbrk(p: int, n: int)
    | DoLoad(p: int, va: int, sp: int)
    | DoStore(p: int, va: int, sp: int, x: int)
    | DoCopyin(p: int, va: int, words: nat, sp: int)
    | DoCopyout(p: int, va: int, src: seq<int>, sp: int)
    | DoFork(p: int, c: int)
    | DoFree(p: int)

  /** What came of a command: it does not apply, was refused (the process is killed, or nothing is made),
      was done, gave these words, or stored this many. `oom` says that there was no memory for it, or for
      all of it. */
  datatype Outcome = Skipped | Refused(oom: bool) | Done | Got(words: seq<int>, oom: bool) | Put(n: nat, oom: bool)

  /** The history of each process, the pages it has touched and not given up since, and the number of free
      pages. */
  datatype World = World(logs: map<int, seq<Event>>, res: map<int, set<int>>, free: nat)

  /** The command is for a process that exists, or makes one that does not, and within the assumption on
      sizes. */
  ghost predicate Applies(w: World, c: Command) {
    match c
    case DoSpawn(q) => q !in w.logs
    case DoSbrk(p, n) => Exists(w, p) && -MAXSZ <= n && SizeOf(w.logs[p]) + n < MAXSZ
    case DoLoad(p, va, _) => Exists(w, p) && 0 <= va && va / PGSIZE < TRAPFRAME
    case DoStore(p, va, _, _) => Exists(w, p) && 0 <= va && va / PGSIZE < TRAPFRAME
    case DoCopyin(p, va, _, _) => Exists(w, p) && 0 <= va && va % 8 == 0
    case DoCopyout(p, va, _, _) => Exists(w, p) && 0 <= va && va % 8 == 0
    case DoFork(p, q) => Exists(w, p) && q !in w.logs
    case DoFree(p) => Exists(w, p)
  }

  ghost predicate Exists(w: World, p: int) {
    p in w.logs && p in w.res
  }

  /** A load or store at va ends with `good` or is refused. Touched pages are never refused. Others are refused
      if va is not below sz or in a page below that of the stack pointer, and otherwise only if there are less
      than three free pages: one for the page and two for tables. */
  ghost predicate AccessAllows(w: World, p: int, va: int, sp: int, o: Outcome, good: Outcome)
    requires Exists(w, p)
  {
    if va / PGSIZE in w.res[p] then o == good
    else if va < SizeOf(w.logs[p]) && va / PGSIZE >= sp / PGSIZE then o == good || (o == Refused(true) && w.free < 3)
    else o == Refused(false)
  }

  /** A copy of n words from va on stops after k. All words before are in pages that are touched, or that start
      below sz and not below the stack pointer; the next one is not, unless there are less than three free
      pages for each page of the copy up to there. */
  ghost predicate CopyAllows(w: World, p: int, va: int, n: nat, sp: int, k: nat, oom: bool)
    requires Exists(w, p)
  {
    var sz, v := SizeOf(w.logs[p]), (va + 8 * k) / PGSIZE;
    && k <= n && Reaches(w.res[p], sz, va, k, sp)
    && (k == n ==> !oom)
    && (k < n ==> v !in w.res[p] && oom == (sp <= v * PGSIZE < sz))
    && (oom ==> w.free < 3 * (v - va / PGSIZE + 1))
  }

  /** The outcomes that eager memory allows: sbrk and free are always done, an access is refused only for
      one of the reasons above, and every word a process gets is the one last stored there. */
  ghost predicate Allows(w: World, c: Command, o: Outcome)
    requires Applies(w, c)
  {
    match c
    case DoSpawn(_) => o == Done || (o == Refused(true) && w.free < 6)
    case DoSbrk(_, _) => o == Done
    case DoLoad(p, va, sp) => AccessAllows(w, p, va, sp, o, Got([WordAt(w.logs[p], va)], false))
    case DoStore(p, va, sp, _) => AccessAllows(w, p, va, sp, o, Done)
    case DoCopyin(p, va, n, sp) =>
      o.Got? && IsRead(w.logs[p], va, o.words) && CopyAllows(w, p, va, n, sp, |o.words|, o.oom)
    case DoCopyout(p, va, src, sp) => o.Put? && CopyAllows(w, p, va, |src|, sp, o.n, o.oom)
    case DoFork(p, _) => o == Done || (o == Refused(true) && w.free < 6 + 3 * |w.res[p]|)
    case DoFree(_) => o == Done
  }

  ghost predicate Explains(w: World, c: Command, o: Outcome) {
    if Applies(w, c) then Allows(w, c, o) else o == Skipped
  }

  /** The histories after a command with that outcome. */
  ghost function LogsAfter(w: World, c: Command, o: Outcome): (r: map<int, seq<Event>>)
    requires Applies(w, c) && Allows(w, c, o)
  {
    var logs := w.logs;
    match c
    case DoSpawn(q) => if o == Done then logs[q := []] else logs
    case DoSbrk(p, n) =>
      var sz := SizeOf(logs[p]) + n;
      if n == 0 || sz < 0 then logs else logs[p := logs[p] + [Resized(sz)]]
    case DoStore(p, va, _, x) => if o == Done then logs[p := logs[p] + [StoreAt(va, x)]] else logs
    case DoCopyout(p, va, src, _) => logs[p := logs[p] + Stores(va, src[..o.n])]
    case DoFork(p, q) => if o == Done then logs[q := logs[p]] else logs
    case DoFree(p) => logs - {p}
    case _ => logs
  }

  /** The touched pages after a command with that outcome. */
  ghost function ResAfter(w: World, c: Command, o: Outcome): (r: map<int, set<int>>)
    requires Applies(w, c) && Allows(w, c, o)
  {
    var res := w.res;
    match c
    case DoSpawn(q) => if o == Done then res[q := {}] else res
    case DoSbrk(p, n) =>
      var sz := SizeOf(w.logs[p]) + n;
      if n == 0 || sz < 0 then res else res[p := Shrunk(res[p], n, sz)]
    case DoLoad(p, va, _) => res[p := Plus(res[p], o.Got?, va / PGSIZE)]
    case DoStore(p, va, _, _) => res[p := Plus(res[p], o == Done, va / PGSIZE)]
    case DoCopyin(p, va, _, _) => res[p := res[p] + PagesOf(va, |o.words|)]
    case DoCopyout(p, va, _, _) => res[p := res[p] + PagesOf(va, o.n)]
    case DoFork(p, q) => if o == Done then res[q := res[p]] else res
    case DoFree(p) => res - {p}
  }

  /** The free pages after a command with that outcome: a page that is touched takes at most three, and neither
      sbrk nor a refusal takes any. */
  ghost predicate FreeAfter(w: World, c: Command, o: Outcome, free: nat)
    requires Applies(w, c) && Allows(w, c, o)
  {
    match c
    case DoSpawn(_) => if o == Done then w.free - 6 <= free <= w.free else free == w.free
    case DoFork(p, _) => if o == Done then w.free - 6 - 3 * |w.res[p]| <= free <= w.free else free == w.free
    case DoSbrk(_, _) => w.free <= free
    case DoFree(_) => w.free <= free
    case DoLoad(p, va, _) => AccessTakes(w, p, va, o, free)
    case DoStore(p, va, _, _) => AccessTakes(w, p, va, o, free)
    case DoCopyin(_, va, _, _) => CopyTakes(w, va, |o.words|, free)
    case DoCopyout(_, va, _, _) => CopyTakes(w, va, o.n, free)
  }

  ghost predicate AccessTakes(w: World, p: int, va: int, o: Outcome, free: nat)
    requires Exists(w, p)
  {
    if va / PGSIZE in w.res[p] || o == Refused(false) then free == w.free else w.free - 3 <= free <= w.free
  }

  ghost predicate CopyTakes(w: World, va: int, n: nat, free: nat) {
    w.free - 3 * ((va + 8 * n) / PGSIZE - va / PGSIZE + 1) <= free <= w.free
  }

  /** A command with that outcome leads from w to w'. */
  ghost predicate Leads(w: World, c: Command, o: Outcome, w': World) {
    && Explains(w, c, o)
    && if Applies(w, c) then
         w'.logs == LogsAfter(w, c, o) && w'.res == ResAfter(w, c, o) && FreeAfter(w, c, o, w'.free)
       else w' == w
  }

  /** The run of the commands on eager memory, with these outcomes, leads from w to w'. */
  ghost predicate Follows(w: World, commands: seq<Command>, outs: seq<Outcome>, w': World)
    requires |commands| == |outs|
    decreases |commands|
  {
    if |commands| == 0 then w' == w
    else
      var k := |commands| - 1;
      exists mid :: Follows(w, commands[..k], outs[..k], mid) && Leads(mid, commands[k], outs[k], w')
  }

  lemma FollowsMore(w: World, commands: seq<Command>, outs: seq<Outcome>, k: nat, mid: World, o: Outcome, w': World)
    requires |outs| == k < |commands| && Follows(w, commands[..k], outs, mid) && Leads(mid, commands[k], o, w')
    ensures Follows(w, commands[..k + 1], outs + [o], w')
  {
    hide Leads;
    assert commands[..k + 1][..k] == commands[..k] && (outs + [o])[..k] == outs;
  }

  // ---------------------------------------------------------------- when an access is refused

  /** The load or store of a page that has not been touched. With three free pages it is served if the address is
      below sz and its page is not below that of the stack pointer. Otherwise, it is always refused. */
  lemma UntouchedAccess(w: World, c: Command, o: Outcome)
    requires Applies(w, c) && Explains(w, c, o) && (c.DoLoad? || c.DoStore?) && c.va / PGSIZE !in w.res[c.p]
    ensures var sz := SizeOf(w.logs[c.p]);
            && (c.va < sz && c.va / PGSIZE >= c.sp / PGSIZE && w.free >= 3 ==> !o.Refused?)
            && (c.va >= sz || c.va / PGSIZE < c.sp / PGSIZE ==> o == Refused(false))
            && (o.Refused? ==> (o.oom <==> c.va < sz && c.va / PGSIZE >= c.sp / PGSIZE))
  {
    hide Replay;
  }

  /** Two addresses below sz in the same page have the same fate: one can be refused iff the other can. */
  lemma SamePageSameFate(w: World, c: Command, c': Command, oom: bool)
    requires Applies(w, c) && Applies(w, c') && (c.DoLoad? || c.DoStore?) && (c'.DoLoad? || c'.DoStore?)
    requires c.p == c'.p && c.sp == c'.sp && c.va / PGSIZE == c'.va / PGSIZE
    requires c.va < SizeOf(w.logs[c.p]) && c'.va < SizeOf(w.logs[c.p])
    ensures Allows(w, c, Refused(oom)) <==> Allows(w, c', Refused(oom))
  {
    hide Replay;
  }

  /** System calls and user code are refused the same pages that are not touched yet, without a lack of memory, iff
      the stack pointer is on a page boundary, the stack page is not below sz, or it is touched. */
  lemma SameLazyPages(w: World, p: int, sp: int)
    requires Exists(w, p) && 0 <= sp
    ensures (forall v :: 0 <= v && v !in w.res[p] ==>
               (AccessAllows(w, p, v * PGSIZE, sp, Refused(false), Done) <==>
                  CopyAllows(w, p, v * PGSIZE, 1, sp, 0, false)))
            <==> sp % PGSIZE == 0 || sp / PGSIZE * PGSIZE >= SizeOf(w.logs[p]) || sp / PGSIZE in w.res[p]
  {
    hide Replay;
    var v := sp / PGSIZE;
    assert v * PGSIZE / PGSIZE == v;
    if sp % PGSIZE != 0 && v * PGSIZE < SizeOf(w.logs[p]) && v !in w.res[p] {
      assert !AccessAllows(w, p, v * PGSIZE, sp, Refused(false), Done);
      assert CopyAllows(w, p, v * PGSIZE, 1, sp, 0, false);
    }
  }

  /** Commands that take at most three pages each. */
  predicate Small(c: Command) {
    c.DoLoad? || c.DoStore? || c.DoSbrk? || c.DoFree?
  }

  /** No access of a run is refused for lack of memory if there are three free pages for each command. */
  lemma {:induction false} AmpleMemory(w: World, commands: seq<Command>, outs: seq<Outcome>, w': World)
    requires |commands| == |outs| && Follows(w, commands, outs, w')
    requires w.free >= 3 * |commands| && forall k :: 0 <= k < |commands| ==> Small(commands[k])
    ensures w'.free >= w.free - 3 * |commands|
    ensures forall k :: 0 <= k < |commands| ==> outs[k] != Refused(true)
    decreases |commands|
  {
    if |commands| > 0 {
      var k := |commands| - 1;
      var mid :| Follows(w, commands[..k], outs[..k], mid) && Leads(mid, commands[k], outs[k], w');
      AmpleMemory(w, commands[..k], outs[..k], mid);
      SmallStep(mid, commands[k], outs[k], w');
      assert forall i :: 0 <= i < k ==> outs[i] == outs[..k][i];
    }
  }

  lemma SmallStep(w: World, c: Command, o: Outcome, w': World)
    requires Leads(w, c, o, w') && Small(c) && w.free >= 3
    ensures w'.free >= w.free - 3 && o != Refused(true)
  {
    hide Replay, LogsAfter, ResAfter;
  }

  /** The command frees process p, or shrinks it and may take pages away. */
  ghost predicate GivesUp(c: Command, p: int) {
    c == DoFree(p) || (c.DoSbrk? && c.p == p && c.n < 0)
  }

  /** A page that a process has touched stays touched until the process is freed or shrinks. */
  lemma {:induction false} TouchedStays(w: World, commands: seq<Command>, outs: seq<Outcome>, w': World, p: int, v: int)
    requires |commands| == |outs| && Follows(w, commands, outs, w') && Exists(w, p) && v in w.res[p]
    requires forall k :: 0 <= k < |commands| ==> !GivesUp(commands[k], p)
    ensures Exists(w', p) && v in w'.res[p]
    decreases |commands|
  {
    if |commands| > 0 {
      var k := |commands| - 1;
      var mid :| Follows(w, commands[..k], outs[..k], mid) && Leads(mid, commands[k], outs[k], w');
      TouchedStays(w, commands[..k], outs[..k], mid, p, v);
      TouchedKept(mid, commands[k], outs[k], w', p, v);
    }
  }

  lemma TouchedKept(w: World, c: Command, o: Outcome, w': World, p: int, v: int)
    requires Leads(w, c, o, w') && Exists(w, p) && v in w.res[p] && !GivesUp(c, p)
    ensures Exists(w', p) && v in w'.res[p]
  {
    hide AccessAllows, CopyAllows, IsRead, Replay, PagesOf, FreeAfter;
  }

  /** So no later load or store of a word that the process has stored is refused. */
  lemma StoredIsServed(w: World, store: Command, w1: World, commands: seq<Command>, outs: seq<Outcome>, w': World,
                       c: Command, o: Outcome)
    requires Applies(w, store) && store.DoStore? && Leads(w, store, Done, w1)
    requires |commands| == |outs| && Follows(w1, commands, outs, w') && Explains(w', c, o)
    requires forall k :: 0 <= k < |commands| ==> !GivesUp(commands[k], store.p)
    requires (c.DoLoad? || c.DoStore?) && c.p == store.p && c.va / PGSIZE == store.va / PGSIZE && 0 <= c.va
    ensures Exists(w', c.p)
    ensures c.DoLoad? ==> o == Got([WordAt(w'.logs[c.p], c.va)], false)
    ensures c.DoStore? ==> o == Done
  {
    hide Follows, WordAt;
    TouchedStays(w1, commands, outs, w', store.p, store.va / PGSIZE);
  }

  ghost function WorldOf(m: Machine): (w: World)
    reads m, m.k
  {
    World(m.logs, Residents(m.spaces), |m.k.free|)
  }

  /** A load or a store. */
  method StepAccess(m: Machine, c: Command) returns (o: Outcome)
    requires m.Valid() && (c.DoLoad? || c.DoStore?)
    modifies m, m.k
    ensures m.Valid() && Leads(old(WorldOf(m)), c, o, WorldOf(m))
    ensures !o.Skipped? && !o.Done? && o.oom ==> |m.k.free| <= 1
  {
    hide MachineOk, View, LastStored, Own, Elems, Replay, Stores, IsRead, Resident, PagesOf, Reaches;
    m.Histories();
    o := Skipped;
    match c {
      case DoLoad(p, va, sp) =>
        if p in m.procs && 0 <= va && va / PGSIZE < TRAPFRAME {
          var kill, x := m.Load(p, va, sp);
          o := if kill then Refused(va < m.procs[p].sz && va / PGSIZE >= sp / PGSIZE) else Got([x], false);
        }
      case DoStore(p, va, sp, x) =>
        if p in m.procs && 0 <= va && va / PGSIZE < TRAPFRAME {
          var kill := m.Store(p, va, sp, x);
          o := if kill then Refused(va < m.procs[p].sz && va / PGSIZE >= sp / PGSIZE) else Done;
        }
      case _ =>
    }
  }

  /** A copy between the kernel and user memory. */
  method StepCopy(m: Machine, c: Command) returns (o: Outcome)
    requires m.Valid() && (c.DoCopyin? || c.DoCopyout?)
    modifies m, m.k
    ensures m.Valid() && Leads(old(WorldOf(m)), c, o, WorldOf(m))
    ensures !o.Skipped? && !o.Done? && o.oom ==> |m.k.free| <= 1
  {
    hide MachineOk, View, LastStored, Own, Elems, Replay, Stores, IsRead, Resident, PagesOf, Reaches;
    m.Histories();
    o := Skipped;
    match c {
      case DoCopyin(p, va, n, sp) =>
        if p in m.procs && 0 <= va && va % 8 == 0 {
          var ok, dst := m.Copyin(p, va, n, sp);
          o := Got(dst, !ok && sp <= (va + 8 * |dst|) / PGSIZE * PGSIZE < m.procs[p].sz);
        }
      case DoCopyout(p, va, src, sp) =>
        if p in m.procs && 0 <= va && va % 8 == 0 {
          var ok, n := m.Copyout(p, va, src, sp);
          o := Put(n, !ok && sp <= (va + 8 * n) / PGSIZE * PGSIZE < m.procs[p].sz);
        }
      case _ =>
    }
  }

  /** A new process, or a change to the memory of one as a whole. */
  method StepProcess(m: Machine, c: Command) returns (o: Outcome)
    requires m.Valid() && (c.DoSpawn? || c.DoSbrk? || c.DoFork? || c.DoFree?)
    modifies m, m.k
    ensures m.Valid() && Leads(old(WorldOf(m)), c, o, WorldOf(m))
  {
    hide MachineOk, View, LastStored, Own, Elems, Replay, Stores, IsRead, Resident, PagesOf, Reaches;
    m.Histories();
    o := Skipped;
    match c {
      case DoSpawn(q) =>
        if q !in m.procs {
          var ok := m.Spawn(q);
          o := if ok then Done else Refused(true);
        }
      case DoSbrk(p, n) =>
        if p in m.procs && -MAXSZ <= n && m.procs[p].sz + n < MAXSZ {
          m.Sbrk(p, n);
          o := Done;
        }
      case DoFork(p, q) =>
        if p in m.procs && q !in m.procs {
          var ok := m.Fork(p, q);
          o := if ok then Done else Refused(true);
        }
      case DoFree(p) =>
        if p in m.procs {
          m.Free(p);
          o := Done;
        }
      case _ =>
    }
  }

  /** One command. */
  method Step(m: Machine, c: Command) returns (o: Outcome)
    requires m.Valid()
    modifies m, m.k
    ensures m.Valid() && Leads(old(WorldOf(m)), c, o, WorldOf(m))
    ensures (c.DoLoad? || c.DoStore? || c.DoCopyin? || c.DoCopyout?) && !o.Skipped? && !o.Done? && o.oom ==>
              |m.k.free| <= 1
  {
    hide MachineOk, Leads, WorldOf;
    if c.DoLoad? || c.DoStore? {
      o := StepAccess(m, c);
    } else if c.DoCopyin? || c.DoCopyout? {
      o := StepCopy(m, c);
    } else {
      o := StepProcess(m, c);
    }
  }

  /** Any sequence of commands, with kalloc failing whenever the free list is empty. The run is one that
      eager memory allows: every word a load or copyin gave is the one last stored there. Afterwards every
      word below sz is so too, and every page has one owner. */
  method Run(m: Machine, commands: seq<Command>) returns (outs: seq<Outcome>)
    requires m.Valid()
    modifies m, m.k
    ensures m.Valid() && |outs| == |commands| && Follows(old(WorldOf(m)), commands, outs, WorldOf(m))
    ensures forall p, v, w :: p in m.procs && 0 <= v < Pages(m.procs[p].sz) && 0 <= w < 512 ==> m.Shows(p, v, w)
    ensures forall x :: x in m.pool ==> m.OwnedOnce(x)
  {
    hide MachineOk, View, LastStored, Own, Elems, Leads;
    outs := [];
    for i := 0 to |commands|
      invariant m.Valid() && |outs| == i && Follows(old(WorldOf(m)), commands[..i], outs, WorldOf(m))
    {
      ghost var mid := WorldOf(m);
      var o := Step(m, commands[i]);
      FollowsMore(old(WorldOf(m)), commands, outs, i, mid, o, WorldOf(m));
      outs := outs + [o];
    }
    assert commands[..|commands|] == commands;
    forall p, v, w | p in m.procs && 0 <= v < Pages(m.procs[p].sz) && 0 <= w < 512
      ensures m.Shows(p, v, w)
    {
      m.Seen(p, v, w);
    }
    forall x | x in m.pool
      ensures m.OwnedOnce(x)
    {
      m.Owner(x);
    }
  }
}
