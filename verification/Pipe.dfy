/** Pipes (kernel/pipe.c). All of pipewrite, piperead and pipeclose runs under pi->lock, so a step is one
    stretch between getting the lock and giving it up in `sleep` or at the end. `stored` and `taken` are
    the bytes that ever went into and came out of the ring. */
module Pipe {
  const PIPESIZE := 512
  const UINT := 0x1_0000_0000

  /** A pipe as its users see it: the bytes that ever went in and came out, the open ends, and the
      processes asleep on &pi->nread and &pi->nwrite. */
  datatype State = State(stored: seq<int>, taken: seq<int>, readopen: bool, writeopen: bool, readers: set<int>,
      writers: set<int>)

  /** How a stretch of pipewrite ends, and the first byte of the source that it has not stored. */
  datatype WriteStep = Wrote(at: int) | WriteSleeps(at: int) | WriteFails(at: int)

  datatype ReadStep = DidRead(n: int) | ReadSleeps | ReadKilled

  /** The counters wrap around at 2^32, which PIPESIZE divides. */
  lemma Wrapped(k: nat, m: nat)
    requires m <= k <= m + PIPESIZE
    ensures k % UINT % PIPESIZE == k % PIPESIZE
    ensures (k + 1) % UINT == (k % UINT + 1) % UINT
    ensures k % UINT == m % UINT <==> k == m
    ensures k % UINT == (m % UINT + PIPESIZE) % UINT <==> k == m + PIPESIZE
  {
    var q := k / UINT;
    assert k == q * UINT + k % UINT;
    assert q * UINT == (q * 8388608) * PIPESIZE;
  }

  /** Slots of the bytes still in the ring are distinct. */
  lemma Slots(k: nat, j: nat)
    requires k < j < k + PIPESIZE
    ensures k % PIPESIZE != j % PIPESIZE
  {
  }

  /** The ring holds the bytes stored and not yet taken, in order. */
  ghost predicate RingOk(data: seq<int>, stored: seq<int>, taken: seq<int>, nread: int, nwrite: int) {
    && |data| == PIPESIZE
    && |taken| <= |stored| <= |taken| + PIPESIZE
    && taken == stored[..|taken|]
    && nread == |taken| % UINT && nwrite == |stored| % UINT
    && (forall k :: |taken| <= k < |stored| ==> data[k % PIPESIZE] == stored[k])
  }

  lemma PutByte(data: seq<int>, stored: seq<int>, taken: seq<int>, nread: int, nwrite: int, ch: int)
    requires RingOk(data, stored, taken, nread, nwrite) && nwrite != (nread + PIPESIZE) % UINT
    ensures 0 <= nwrite % PIPESIZE < |data|
    ensures RingOk(data[nwrite % PIPESIZE := ch], stored + [ch], taken, nread, (nwrite + 1) % UINT)
  {
    Wrapped(|stored|, |taken|);
    var data' := data[nwrite % PIPESIZE := ch];
    forall k | |taken| <= k < |stored| + 1
      ensures data'[k % PIPESIZE] == (stored + [ch])[k]
    {
      if k < |stored| {
        Slots(k, |stored|);
      }
    }
  }

  lemma GetByte(data: seq<int>, stored: seq<int>, taken: seq<int>, nread: int, nwrite: int)
    requires RingOk(data, stored, taken, nread, nwrite) && nread != nwrite
    ensures |taken| < |stored| && data[nread % PIPESIZE] == stored[|taken|]
    ensures RingOk(data, stored, taken + [stored[|taken|]], (nread + 1) % UINT, nwrite)
  {
    Wrapped(|stored|, |taken|);
    Wrapped(|taken|, |taken|);
  }

  lemma FullOrEmpty(data: seq<int>, stored: seq<int>, taken: seq<int>, nread: int, nwrite: int)
    requires RingOk(data, stored, taken, nread, nwrite)
    ensures nwrite == (nread + PIPESIZE) % UINT <==> |stored| == |taken| + PIPESIZE
    ensures nread == nwrite <==> |stored| == |taken|
  {
    Wrapped(|stored|, |taken|);
  }

  // ---------------------------------------------------------------- what a step does

  /** While pi->lock is free: what came out is a prefix of what went in, a sleeping writer sees a full pipe
      with a read end, and a sleeping reader both ends open. */
  ghost predicate Ok(s: State) {
    && s.taken <= s.stored && |s.stored| <= |s.taken| + PIPESIZE
    && (s.writers != {} ==> Full(s) && s.readopen)
    && (s.readers != {} ==> s.readopen && s.writeopen)
  }

  predicate Full(s: State) {
    |s.stored| == |s.taken| + PIPESIZE
  }

  predicate Empty(s: State) {
    |s.stored| == |s.taken|
  }

  /** A reader that sleeps has nothing to read. */
  predicate ReadersOk(s: State) {
    s.readers != {} ==> Empty(s)
  }

  /** Bytes that fit into the ring. */
  function Room(s: State): (n: int) {
    |s.taken| + PIPESIZE - |s.stored|
  }

  /** A write of n bytes from byte at on, of which `avail` can be read, finds the pipe full before its end. */
  predicate Blocks(s: State, n: int, at: int, avail: nat) {
    at + Room(s) < n && (Room(s) == 0 || at + Room(s) <= avail)
  }

  /** The first byte that such a write does not store. */
  function Stop(s: State, n: int, at: int, avail: nat): (i: int) {
    if Blocks(s, n, at, avail) then at + Room(s) else if avail <= at then at else if avail <= n then avail else n
  }

  function WriteOf(s: State, pid: int, src: seq<int>, at: int, avail: nat, killed: bool): (s': State)
    requires Ok(s) && 0 <= at <= |src|
  {
    var t := s.(stored := s.stored + src[at..Stop(s, |src|, at, avail)]);
    if !Blocks(s, |src|, at, avail) then t.(readers := {})
    else if !s.readopen || killed then t
    else t.(readers := {}, writers := s.writers + {pid})
  }

  /** How many bytes a read of n takes, if `room` can be copied out: a byte that cannot is taken and lost. */
  function TakeOf(s: State, n: nat, room: nat): (m: int) {
    var have := |s.stored| - |s.taken|;
    var m := if n <= have then n else have;
    if m <= room + 1 then m else room + 1
  }

  function ReadOf(s: State, pid: int, n: nat, room: nat, killed: bool): (s': State)
    requires Ok(s)
  {
    if Empty(s) && s.writeopen then (if killed then s else s.(readers := s.readers + {pid}))
    else s.(taken := s.stored[..|s.taken| + TakeOf(s, n, room)], writers := {})
  }

  function CloseOf(s: State, writable: bool): (s': State) {
    if writable then s.(writeopen := false, readers := {}) else s.(readopen := false, writers := {})
  }

  class Pipe {
    var data: seq<int>
    var nread: int
    var nwrite: int
    var readopen: bool
    var writeopen: bool
    var readers: set<int>
    var writers: set<int>
    ghost var stored: seq<int>
    ghost var taken: seq<int>

    ghost function View(): (s: State)
      reads this
    {
      State(stored, taken, readopen, writeopen, readers, writers)
    }

    ghost predicate Valid()
      reads this
    {
      RingOk(data, stored, taken, nread, nwrite) && Ok(View())
    }

    /** `pipealloc`. */
    constructor ()
      ensures Valid() && View() == State([], [], true, true, {}, {})
    {
      data := seq(PIPESIZE, i => 0);
      nread, nwrite, readopen, writeopen, readers, writers, stored, taken := 0, 0, true, true, {}, {}, [], [];
    }

    /** `pipewrite` of src from byte at on, by a process that has the lock: at the start of the call, or
        woken up in the inner loop. `avail` bytes of the source can be read. */
    method Pipewrite(pid: int, src: seq<int>, at: int, avail: nat, killed: bool) returns (r: WriteStep)
      requires Valid() && writeopen && 0 <= at <= |src|
      modifies this
      ensures Valid() && View() == WriteOf(old(View()), pid, src, at, avail, killed)
      ensures var i := Stop(old(View()), |src|, at, avail); var blocks := Blocks(old(View()), |src|, at, avail);
              r == if !blocks then Wrote(i) else if !old(readopen) || killed then WriteFails(i) else WriteSleeps(i)
      ensures at <= r.at <= |src| && stored == old(stored) + src[at..r.at] && taken == old(taken)
      ensures r.at == at || r.at <= avail
      ensures r.Wrote? ==> r.at == |src| || avail <= r.at
      ensures !r.Wrote? ==> r.at < |src| && |stored| == |taken| + PIPESIZE && (r.WriteSleeps? <==> readopen && !killed)
      ensures old(ReadersOk(View())) ==> (ReadersOk(View()) <==> !LosesReader(old(View()), |src|, at, avail, killed))
    {
      hide RingOk;
      var k := at;
      ghost var s := View();
      RingBounds(data, stored, taken, nread, nwrite);
      while k < |src|
        invariant at <= k <= |src| && k <= at + Room(s)
        invariant RingOk(data, stored, taken, nread, nwrite) && View() == s.(stored := s.stored + src[at..k])
        invariant k == at || k <= avail
        decreases |src| - k
      {
        FullOrEmpty(data, stored, taken, nread, nwrite);
        assert |src[at..k]| == k - at;
        if nwrite == (nread + PIPESIZE) % UINT {
          if !readopen || killed {
            return WriteFails(k);
          }
          readers := {};
          writers := writers + {pid};
          return WriteSleeps(k);
        }
        if k >= avail {
          break;
        }
        PutByte(data, stored, taken, nread, nwrite, src[k]);
        data := data[nwrite % PIPESIZE := src[k]];
        nwrite := (nwrite + 1) % UINT;
        stored := stored + [src[k]];
        RingBounds(data, stored, taken, nread, nwrite);
        assert src[at..k] + [src[k]] == src[at..k + 1];
        k := k + 1;
      }
      readers := {};
      r := Wrote(k);
    }

    /** `piperead` of up to n bytes by a process that has the lock; `room` of them can be copied out. */
    method Piperead(pid: int, n: nat, room: nat, killed: bool) returns (r: ReadStep, out: seq<int>)
      requires Valid() && readopen
      modifies this
      ensures Valid() && View() == ReadOf(old(View()), pid, n, room, killed)
      ensures var m := TakeOf(old(View()), n, room);
              r == if old(Empty(View())) && writeopen then (if killed then ReadKilled else ReadSleeps)
                   else DidRead(if m > room then room else m)
      ensures |out| == (if r.DidRead? then r.n else 0) && old(taken) + out <= stored == old(stored)
      ensures room >= n ==> taken == old(taken) + out
      ensures r.DidRead? && room >= n ==> |out| == n || taken == stored
      ensures old(ReadersOk(View())) ==> ReadersOk(View())
    {
      hide RingOk;
      FullOrEmpty(data, stored, taken, nread, nwrite);
      RingBounds(data, stored, taken, nread, nwrite);
      if nread == nwrite && writeopen {
        if killed {
          return ReadKilled, [];
        }
        readers := readers + {pid};
        return ReadSleeps, [];
      }
      r, out := CopyBytes(n, room);
      writers := {};
    }

    /** The copy loop of `piperead`. */
    method CopyBytes(n: nat, room: nat) returns (r: ReadStep, out: seq<int>)
      requires RingOk(data, stored, taken, nread, nwrite) && taken <= stored
      modifies this`nread, this`taken
      ensures RingOk(data, stored, taken, nread, nwrite)
      ensures var m := TakeOf(old(View()), n, room);
              && taken == stored[..|old(taken)| + m]
              && r == DidRead(if m > room then room else m)
              && |out| == r.n && old(taken) + out == stored[..|old(taken)| + r.n]
    {
      hide RingOk;
      ghost var t := |taken|;
      assert stored[..t] == taken;
      var i := 0;
      out := [];
      ghost var m := 0;
      while i < n
        invariant m == i <= n && i <= room && t + i <= |stored| && taken == stored[..t + i]
        invariant RingOk(data, stored, taken, nread, nwrite) && |out| == i && old(taken) + out == taken
      {
        FullOrEmpty(data, stored, taken, nread, nwrite);
        if nread == nwrite {
          break;
        }
        GetByte(data, stored, taken, nread, nwrite);
        var ch := data[nread % PIPESIZE];
        nread := (nread + 1) % UINT;
        assert taken + [ch] == stored[..t + i + 1];
        taken := taken + [ch];
        m := m + 1;
        if i >= room {
          break;
        }
        out := out + [ch];
        i := i + 1;
      }
      assert m == TakeOf(old(View()), n, room);
      r := DidRead(i);
    }

    /** `kill` of a process that may sleep here. */
    method Kill(pid: int)
      requires Valid()
      modifies this`readers, this`writers
      ensures Valid() && View() == old(View()).(readers := old(readers) - {pid}, writers := old(writers) - {pid})
      ensures old(ReadersOk(View())) ==> ReadersOk(View())
    {
      readers, writers := readers - {pid}, writers - {pid};
    }

    /** `pipeclose`. A read end is closed only when no process sleeps in a read of it. */
    method Pipeclose(writable: bool) returns (freed: bool)
      requires Valid() && (!writable ==> readers == {})
      modifies this`readopen, this`writeopen, this`readers, this`writers
      ensures Valid() && View() == CloseOf(old(View()), writable)
      ensures freed <==> !readopen && !writeopen
      ensures freed ==> readers == {} && writers == {}
      ensures old(ReadersOk(View())) ==> ReadersOk(View())
    {
      if writable {
        writeopen := false;
        readers := {};
      } else {
        readopen := false;
        writers := {};
      }
      freed := !readopen && !writeopen;
    }
  }

  lemma RingBounds(data: seq<int>, stored: seq<int>, taken: seq<int>, nread: int, nwrite: int)
    requires RingOk(data, stored, taken, nread, nwrite)
    ensures taken <= stored && |stored| <= |taken| + PIPESIZE
  {
  }

  // ---------------------------------------------------------------- every run

  datatype Command =
    | DoWrite(pid: int, src: seq<int>, at: int, avail: nat, dead: bool)
    | DoRead(pid: int, n: nat, room: nat, dead: bool)
    | DoKill(pid: int)
    | DoClose(writable: bool)

  /** The step can happen: a process that sleeps takes none, a write needs a write end and a read a read
      end, and no read end is closed under a reader. */
  predicate Possible(c: Command, s: State) {
    match c
    case DoWrite(pid, src, at, _, _) => s.writeopen && pid !in s.writers && 0 <= at <= |src|
    case DoRead(pid, _, _, _) => s.readopen && pid !in s.readers
    case DoKill(_) => true
    case DoClose(writable) => writable || s.readers == {}
  }

  function Next(s: State, c: Command): (s': State)
    requires Ok(s) && Possible(c, s)
  {
    match c
    case DoWrite(pid, src, at, avail, dead) => WriteOf(s, pid, src, at, avail, dead)
    case DoRead(pid, n, room, dead) => ReadOf(s, pid, n, room, dead)
    case DoKill(pid) => s.(readers := s.readers - {pid}, writers := s.writers - {pid})
    case DoClose(writable) => CloseOf(s, writable)
  }

  lemma NextOk(s: State, c: Command)
    requires Ok(s) && Possible(c, s)
    ensures Ok(Next(s, c))
  {
  }

  /** The pipe after the commands in turn; one that cannot happen has no effect. */
  ghost function Exec(s: State, cmds: seq<Command>): (s': State)
    requires Ok(s)
    ensures Ok(s')
  {
    if cmds == [] then s
    else
      var t := Exec(s, cmds[..|cmds| - 1]);
      var c := cmds[|cmds| - 1];
      if Possible(c, t) then (NextOk(t, c); Next(t, c)) else t
  }

  /** A write of a killed process, or to a pipe without a read end, fills the pipe beside a sleeping reader
      and returns without waking it. */
  predicate LosesReader(s: State, n: int, at: int, avail: nat, killed: bool) {
    s.readers != {} && (!s.readopen || killed) && Blocks(s, n, at, avail) && Room(s) > 0
  }

  predicate Loses(s: State, c: Command) {
    c.DoWrite? && LosesReader(s, |c.src|, c.at, c.avail, c.dead)
  }

  /** A step leaves a reader asleep beside bytes iff it is such a write. */
  lemma LosesIff(s: State, c: Command)
    requires Ok(s) && ReadersOk(s) && Possible(c, s)
    ensures ReadersOk(Next(s, c)) <==> !Loses(s, c)
  {
  }

  ghost predicate NeverLost(s: State, cmds: seq<Command>)
    requires Ok(s)
  {
    forall k :: 0 <= k <= |cmds| ==> ReadersOk(Exec(s, cmds[..k]))
  }

  /** Over a whole run: a sleeping reader always sees an empty pipe iff no command is such a write when its
      turn comes. */
  lemma {:induction false} NeverLostIff(s: State, cmds: seq<Command>)
    requires Ok(s) && ReadersOk(s)
    ensures NeverLost(s, cmds) <==>
            forall k :: 0 <= k < |cmds| ==>
                !(Possible(cmds[k], Exec(s, cmds[..k])) && Loses(Exec(s, cmds[..k]), cmds[k]))
  {
    if NeverLost(s, cmds) {
      forall k | 0 <= k < |cmds|
        ensures !(Possible(cmds[k], Exec(s, cmds[..k])) && Loses(Exec(s, cmds[..k]), cmds[k]))
      {
        assert ReadersOk(Exec(s, cmds[..k])) && ReadersOk(Exec(s, cmds[..k + 1]));
        ExecStep(s, cmds, k);
      }
    } else if forall k :: 0 <= k < |cmds| ==>
        !(Possible(cmds[k], Exec(s, cmds[..k])) && Loses(Exec(s, cmds[..k]), cmds[k])) {
      forall k | 0 <= k <= |cmds|
        ensures ReadersOk(Exec(s, cmds[..k]))
      {
        Unlost(s, cmds, k);
      }
    }
  }

  lemma {:induction false} Unlost(s: State, cmds: seq<Command>, k: nat)
    requires Ok(s) && ReadersOk(s) && k <= |cmds|
    requires forall j :: 0 <= j < |cmds| ==>
               !(Possible(cmds[j], Exec(s, cmds[..j])) && Loses(Exec(s, cmds[..j]), cmds[j]))
    ensures ReadersOk(Exec(s, cmds[..k]))
  {
    if k > 0 {
      Unlost(s, cmds, k - 1);
      ExecStep(s, cmds, k - 1);
    }
  }

  lemma ExecStep(s: State, cmds: seq<Command>, k: nat)
    requires Ok(s) && k < |cmds|
    ensures var t := Exec(s, cmds[..k]);
            && Exec(s, cmds[..k + 1]) == (if Possible(cmds[k], t) then Next(t, cmds[k]) else t)
            && (ReadersOk(t) && Possible(cmds[k], t) ==> (ReadersOk(Next(t, cmds[k])) <==> !Loses(t, cmds[k])))
  {
    assert cmds[..k + 1][..k] == cmds[..k];
    var t := Exec(s, cmds[..k]);
    if ReadersOk(t) && Possible(cmds[k], t) {
      LosesIff(t, cmds[k]);
    }
  }

  /** So it does if no killed process writes. */
  lemma {:induction false} NoneKilled(s: State, cmds: seq<Command>)
    requires Ok(s) && ReadersOk(s) && (forall k :: 0 <= k < |cmds| && cmds[k].DoWrite? ==> !cmds[k].dead)
    ensures var t := Exec(s, cmds); t.readers != {} ==> Empty(t) && t.writeopen
  {
    NeverLostIff(s, cmds);
    assert cmds[..|cmds|] == cmds;
  }

  // ---------------------------------------------------------------- what goes through

  datatype Outcome = Written(w: WriteStep) | Got(out: seq<int>) | Nothing

  /** The bytes that a write has stored, by its arguments and how far it got. */
  ghost function Piece(c: Command, o: Outcome): (bytes: seq<int>) {
    if c.DoWrite? && o.Written? && 0 <= c.at <= o.w.at <= |c.src| then c.src[c.at..o.w.at] else []
  }

  /** The bytes that a read has given. */
  function Bytes(o: Outcome): (bytes: seq<int>) {
    if o.Got? then o.out else []
  }

  ghost function Sent(cmds: seq<Command>, outs: seq<Outcome>): (bytes: seq<int>)
    requires |cmds| == |outs|
  {
    if cmds == [] then []
    else
      var k := |cmds| - 1;
      Sent(cmds[..k], outs[..k]) + Piece(cmds[k], outs[k])
  }

  ghost function Received(outs: seq<Outcome>): (bytes: seq<int>) {
    if outs == [] then [] else Received(outs[..|outs| - 1]) + Bytes(outs[|outs| - 1])
  }

  lemma OneMore(s: seq<int>, t: seq<int>, cmds: seq<Command>, outs: seq<Outcome>, k: nat, o: Outcome)
    requires |outs| == k < |cmds|
    ensures s + Sent(cmds[..k + 1], outs + [o]) == s + Sent(cmds[..k], outs) + Piece(cmds[k], o)
    ensures t + Received(outs + [o]) == t + Received(outs) + Bytes(o)
  {
    hide Piece, Bytes;
    assert cmds[..k + 1][..k] == cmds[..k] && (outs + [o])[..k] == outs;
  }

  /** Every read can copy out all it asks for. */
  predicate NoBadReads(cmds: seq<Command>) {
    forall k :: 0 <= k < |cmds| && cmds[k].DoRead? ==> cmds[k].room >= cmds[k].n
  }

  method RunStep(p: Pipe, c: Command) returns (o: Outcome)
    requires p.Valid()
    modifies p
    ensures p.Valid()
    ensures p.View() == var s := old(p.View()); if Possible(c, s) then Next(s, c) else s
    ensures o.Written? ==> c.DoWrite? && 0 <= c.at <= o.w.at <= |c.src|
    ensures p.stored == old(p.stored) + Piece(c, o)
    ensures (c.DoRead? ==> c.room >= c.n) ==> p.taken == old(p.taken) + Bytes(o)
  {
    hide WriteOf, ReadOf, CloseOf, RingOk, Ok, Stop, Blocks, TakeOf;
    o := Nothing;
    if Possible(c, State([], [], p.readopen, p.writeopen, p.readers, p.writers)) {
      match c {
        case DoWrite(pid, src, at, avail, dead) =>
          var w := p.Pipewrite(pid, src, at, avail, dead);
          o := Written(w);
        case DoRead(pid, n, room, dead) =>
          var step, out := p.Piperead(pid, n, room, dead);
          o := Got(out);
          assert p.stored + [] == p.stored;
        case DoKill(pid) =>
          p.Kill(pid);
        case DoClose(writable) =>
          var freed := p.Pipeclose(writable);
      }
    }
  }

  /** The code does these steps. What has gone in is what the writes say they have stored, in their order,
      and what the reads have given is the first of it. */
  method Run(p: Pipe, cmds: seq<Command>) returns (outs: seq<Outcome>)
    requires p.Valid()
    modifies p
    ensures p.Valid() && p.View() == Exec(old(p.View()), cmds) && |outs| == |cmds|
    ensures p.stored == old(p.stored) + Sent(cmds, outs)
    ensures NoBadReads(cmds) ==> p.taken == old(p.taken) + Received(outs) <= p.stored
  {
    hide WriteOf, ReadOf, CloseOf, RingOk, Possible, Next, Sent, Received, Piece, Bytes, Ok, Exec;
    outs := [];
    NoCommands(old(p.View()));
    assert cmds[..0] == [];
    for k := 0 to |cmds|
      invariant p.Valid() && p.View() == Exec(old(p.View()), cmds[..k]) && |outs| == k
      invariant p.stored == old(p.stored) + Sent(cmds[..k], outs)
      invariant NoBadReads(cmds) ==> p.taken == old(p.taken) + Received(outs)
    {
      ExecStep(old(p.View()), cmds, k);
      assert cmds[k].DoRead? && NoBadReads(cmds) ==> cmds[k].room >= cmds[k].n;
      var o := RunStep(p, cmds[k]);
      OneMore(old(p.stored), old(p.taken), cmds, outs, k, o);
      outs := outs + [o];
    }
    assert cmds[..|cmds|] == cmds;
    StillPrefix(p);
  }

  lemma NoCommands(s: State)
    requires Ok(s)
    ensures Exec(s, []) == s && s.stored + Sent([], []) == s.stored && s.taken + Received([]) == s.taken
  {
  }

  lemma StillPrefix(p: Pipe)
    requires p.Valid()
    ensures p.taken <= p.stored
  {
  }

  /** The smallest case: a killed writer with more than PIPESIZE bytes leaves a sleeping reader asleep
      beside a full pipe. */
  lemma ReaderLeftAsleep(src: seq<int>)
    requires |src| > PIPESIZE
    ensures var t := Exec(State([], [], true, true, {}, {}), [DoRead(1, 1, 1, false), DoWrite(2, src, 0, |src|, true)]);
            1 in t.readers && Full(t) && t.writeopen
  {
    var s := State([], [], true, true, {}, {});
    var cmds := [DoRead(1, 1, 1, false), DoWrite(2, src, 0, |src|, true)];
    assert cmds[..0] == [] && cmds[..1] == [cmds[0]] && cmds[..2] == cmds;
    ExecStep(s, cmds, 0);
    ExecStep(s, cmds, 1);
    var t := Exec(s, cmds[..1]);
    assert t == s.(readers := {1}) && Room(t) == PIPESIZE;
  }
}
