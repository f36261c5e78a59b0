/** The state of the virtio disk driver (kernel/virtio_disk.c) and the steps of driver and device. */
module VirtioDisk {
  import opened Virtio

  /** The requests in the table by first descriptor, the heads posted and completed so far, and how many of
      them the device has taken and virtio_disk_intr has processed. */
  datatype Traffic = Traffic(reqs: map<int, Req>, posts: seq<int>, seen: int, comps: seq<int>, done: int)

  class Disk {
    var free: seq<bool>            // disk.free
    var desc: seq<Desc>            // disk.desc
    var info: seq<int>             // disk.info[].b
    var avail: seq<int>            // disk.avail[2..]
    var availIdx: int              // disk.avail[1], 16 bits
    var lastAvail: int             // the device's own index into avail, 16 bits
    var used: seq<int>             // disk.used->elems[].id
    var usedId: int                // disk.used->id, 16 bits, written by the device
    var usedIdx: int               // disk.used_idx
    var busy: set<int>             // buffers with b->disk == 1
    var reqs: map<int, Req>        // the requests in the table, by first descriptor
    ghost var posts: seq<int>      // heads posted so far
    ghost var seen: int            // how many of them the device has taken
    ghost var comps: seq<int>      // heads completed so far
    ghost var done: int            // how many of them virtio_disk_intr has processed

    ghost predicate Valid()
      reads this
    {
      && ChainsOk(free, desc, info, reqs) && Complement(free, reqs)
      && RingOk(avail, availIdx, posts, seen, reqs, Posted)
      && RingOk(used, usedId, comps, done, reqs, Used)
      && BusyOk(busy, reqs)
      && usedIdx == done % NUM && lastAvail == seen % UINT16
    }

    ghost function View(): (q: Traffic)
      reads this
    {
      Traffic(reqs, posts, seen, comps, done)
    }

    /** The state `virtio_disk_init` leaves. */
    constructor ()
      ensures Valid() && View() == Traffic(map[], [], 0, [], 0) && free == seq(NUM, i => true)
    {
      free, desc, info, avail, used := seq(NUM, i => true), seq(NUM, i => Desc(false, 0)), seq(NUM, i => 0),
          seq(NUM, i => 0), seq(NUM, i => 0);
      availIdx, lastAvail, usedId, usedIdx, busy, reqs, posts, seen, comps, done := 0, 0, 0, 0, {}, map[], [], 0, [], 0;
    }

    /** `alloc_desc`: the first free descriptor, or -1. */
    method AllocDesc() returns (i: int)
      requires |free| == NUM
      modifies this`free
      ensures i == -1 ==> free == old(free) && forall k :: 0 <= k < NUM ==> !free[k]
      ensures i != -1 ==>
                0 <= i < NUM && old(free)[i] && free == old(free)[i := false] && forall k :: 0 <= k < i ==> !free[k]
    {
      i := 0;
      while i < NUM
        invariant 0 <= i <= NUM && free == old(free)
        invariant forall k :: 0 <= k < i ==> !free[k]
      {
        if free[i] {
          free := free[i := false];
          return;
        }
        i := i + 1;
      }
      i := -1;
    }

    /** `free_desc`: false is one of its panics. */
    method FreeDesc(i: int) returns (ok: bool)
      requires |free| == NUM && 0 <= i
      modifies this`free
      ensures ok <==> i < NUM && !old(free)[i]
      ensures free == if ok then old(free)[i := true] else old(free)
    {
      if i >= NUM {
        return false;
      }
      if free[i] {
        return false;
      }
      free := free[i := true];
      ok := true;
    }

    /** `alloc3_desc`: three free descriptors, or none and the flags as they were. */
    method Alloc3Desc() returns (ok: bool, idx: seq<int>)
      requires |free| == NUM
      modifies this`free
      ensures ok ==> |idx| == 3 && Distinct3(idx) && (forall k :: 0 <= k < 3 ==> old(free)[idx[k]])
      ensures ok ==> free == old(free)[idx[0] := false][idx[1] := false][idx[2] := false]
      ensures !ok ==> free == old(free) && |idx| < 3 && forall k :: 0 <= k < NUM && free[k] ==> k in idx
    {
      idx := [];
      ghost var free0 := free;
      ok := true;
      while |idx| < 3
        invariant |idx| <= 3 && |free| == NUM && ok
        invariant forall k :: 0 <= k < |idx| ==> 0 <= idx[k] < NUM && free0[idx[k]]
        invariant forall k, m :: 0 <= k < m < |idx| ==> idx[k] != idx[m]
        invariant forall k :: 0 <= k < NUM ==> free[k] == (free0[k] && k !in idx)
        decreases 3 - |idx|
      {
        var i := AllocDesc();
        if i < 0 {
          UndoAlloc(idx, free0);
          return false, idx;
        }
        idx := idx + [i];
      }
      assert free == free0[idx[0] := false][idx[1] := false][idx[2] := false];
    }

    /** The inner loop of `alloc3_desc`. */
    method UndoAlloc(idx: seq<int>, ghost free0: seq<bool>)
      requires |free| == NUM && |free0| == NUM && |idx| <= 3
      requires forall k :: 0 <= k < |idx| ==> 0 <= idx[k] < NUM && free0[idx[k]]
      requires forall k, m :: 0 <= k < m < |idx| ==> idx[k] != idx[m]
      requires forall k :: 0 <= k < NUM ==> free[k] == (free0[k] && k !in idx)
      modifies this`free
      ensures free == free0
    {
      var j := 0;
      while j < |idx|
        invariant 0 <= j <= |idx| && |free| == NUM
        invariant forall k :: 0 <= k < NUM ==> free[k] == (free0[k] && k !in idx[j..])
      {
        assert idx[j..] == [idx[j]] + idx[j + 1..];
        var ok := FreeDesc(idx[j]);
        j := j + 1;
      }
    }

    /** `virtio_disk_rw` up to the notification of the device. False: fewer than three descriptors were
        free, and the caller sleeps. */
    method Post(b: int) returns (posted: bool, h: int, x: Req)
      requires Valid() && Fresh(reqs, b)
      modifies this
      ensures Valid() && seen == old(seen) && comps == old(comps) && done == old(done) && usedIdx == old(usedIdx)
              && used == old(used) && usedId == old(usedId)
      ensures posted <==> |old(reqs)| < 2
      ensures !posted ==> reqs == old(reqs) && posts == old(posts) && free == old(free) && busy == old(busy)
      ensures posted ==>
                h !in old(reqs) && x.b == b && x.phase == Posted && reqs == old(reqs)[h := x]
                && posts == old(posts) + [h]
      ensures posted ==> busy == old(busy) + {b}
    {
      hide ChainsOk, Complement, RingOk, Apart, ChainOk, BusyOk;
      ChainsLength(free, desc, info, reqs);
      ghost var free0 := free;
      var idx: seq<int>;
      posted, idx := Alloc3Desc();
      h, x := -1, Req(0, 0, b, Posted);
      if |reqs| < 2 {
        OneIsFew(free0, reqs, idx[..if |idx| < 3 then |idx| else 2]);
      } else if posted {
        TwoAreMany(free0, desc, info, reqs, idx[0], idx[1], idx[2]);
      }
      if posted {
        h, x := Queue(b, idx, free0);
      }
    }

    /** Format the three descriptors. */
    method Format(idx: seq<int>, ghost x: Req)
      requires |desc| == NUM && |idx| == 3 && Distinct3(idx) && x.d1 == idx[1] && x.d2 == idx[2]
      modifies this`desc
      ensures desc == Linked(old(desc), idx[0], x)
    {
      desc := desc[idx[0] := Desc(true, idx[1])];
      desc := desc[idx[1] := Desc(true, idx[2])];
      desc := desc[idx[2] := Desc(false, 0)];
    }

    /** The descriptors are formatted and their first index goes to the avail ring. */
    method Queue(b: int, idx: seq<int>, ghost free0: seq<bool>) returns (h: int, x: Req)
      requires ChainsOk(free0, desc, info, reqs) && |free0| == NUM && Complement(free0, reqs) && BusyOk(busy, reqs)
      requires RingOk(avail, availIdx, posts, seen, reqs, Posted) && RingOk(used, usedId, comps, done, reqs, Used)
      requires |idx| == 3 && Distinct3(idx) && free0[idx[0]] && free0[idx[1]] && free0[idx[2]]
      requires free == Cleared(free0, idx[0], Req(idx[1], idx[2], b, Posted))
      requires Fresh(reqs, b)
      modifies this`desc, this`info, this`avail, this`availIdx, this`busy, this`reqs, this`posts
      ensures ChainsOk(free, desc, info, reqs) && Complement(free, reqs) && BusyOk(busy, reqs)
      ensures RingOk(avail, availIdx, posts, seen, reqs, Posted) && RingOk(used, usedId, comps, done, reqs, Used)
      ensures h !in old(reqs) && x.b == b && x.phase == Posted && reqs == old(reqs)[h := x]
              && posts == old(posts) + [h] && busy == old(busy) + {b}
    {
      hide ChainsOk, Complement, RingOk, Apart, ChainOk, BusyOk, Cleared, Linked, Fresh;
      ChainsLength(free0, desc, info, reqs);
      h, x := idx[0], Req(idx[1], idx[2], b, Posted);
      NewBusy(busy, reqs, h, x);
      assert forall g :: g in reqs ==> reqs[g].b != b by { FreshAll(reqs, b); }
      NewChain(free0, desc, info, reqs, h, x);
      RingShort(free0, desc, info, reqs, avail, availIdx, posts, seen, Posted);
      RingPush(avail, availIdx, posts, seen, reqs, Posted, h, x);
      RingOther(used, usedId, comps, done, reqs, Used, h, x);
      Format(idx, x);
      busy, info := busy + {b}, info[idx[0] := b];
      avail, availIdx := avail[availIdx % NUM := idx[0]], (availIdx + 1) % UINT16;
      reqs, posts := reqs[h := x], posts + [h];
    }

    /** The device takes the next posted chain: the entry it finds in the ring is the one that was posted. */
    method DeviceTake() returns (h: int)
      requires Valid() && lastAvail != availIdx
      modifies this`reqs, this`seen, this`lastAvail
      ensures Valid() && seen == old(seen) + 1 <= |posts| && h == posts[seen - 1]
      ensures h in old(reqs) && old(reqs)[h].phase == Posted && reqs == SetPhase(old(reqs), h, Taken)
    {
      hide ChainsOk, Complement, RingOk, Apart, ChainOk;
      RingShort(free, desc, info, reqs, avail, availIdx, posts, seen, Posted);
      RingAt(avail, availIdx, posts, seen, reqs, Posted, seen);
      Mod16(seen);
      h := avail[lastAvail % NUM];
      lastAvail := (lastAvail + 1) % UINT16;
      PhaseKeeps(free, desc, info, reqs, h, Taken);
      RingPop(avail, availIdx, posts, seen, reqs, Posted, Taken);
      RingOtherPhase(used, usedId, comps, done, reqs, Used, h, Taken);
      reqs := SetPhase(reqs, h, Taken);
      seen := seen + 1;
    }

    /** The device puts a chain it has taken on the used ring. */
    method DeviceComplete(h: int)
      requires Valid() && h in reqs && reqs[h].phase == Taken
      modifies this`reqs, this`used, this`usedId, this`comps
      ensures Valid() && reqs == SetPhase(old(reqs), h, Used) && comps == old(comps) + [h]
    {
      hide ChainsOk, Complement, RingOk, Apart, ChainOk;
      RingShort(free, desc, info, reqs, used, usedId, comps, done, Used);
      PhaseKeeps(free, desc, info, reqs, h, Used);
      RingPush(used, usedId, comps, done, reqs, Used, h, reqs[h].(phase := Used));
      RingOtherPhase(avail, availIdx, posts, seen, reqs, Posted, h, Used);
      used := used[usedId % NUM := h];
      usedId := (usedId + 1) % UINT16;
      reqs := SetPhase(reqs, h, Used);
      comps := comps + [h];
    }

    /** One iteration of the loop of `virtio_disk_intr`. */
    method IntrStep()
      requires Valid() && usedIdx % NUM != usedId % NUM
      modifies this`reqs, this`busy, this`usedIdx, this`done
      ensures Valid() && old(done) < |comps| && done == old(done) + 1
      ensures var h := comps[old(done)];
              h in old(reqs) && old(reqs)[h].phase == Used && reqs == SetPhase(old(reqs), h, Finished)
    {
      hide ChainsOk, ChainOk, Complement, RingOk, Apart, BusyOk, SetPhase;
      ChainsLength(free, desc, info, reqs);
      RingShort(free, desc, info, reqs, used, usedId, comps, done, Used);
      PendingTest(comps, done, usedId, usedIdx);
      RingAt(used, usedId, comps, done, reqs, Used, done);
      NextIndex(done);
      var id := used[usedIdx];
      InfoAt(free, desc, info, reqs, id);
      busy := busy - {info[id]};
      usedIdx := (usedIdx + 1) % NUM;
      PhaseKeeps(free, desc, info, reqs, id, Finished);
      RingPop(used, usedId, comps, done, reqs, Used, Finished);
      RingOtherPhase(avail, availIdx, posts, seen, reqs, Posted, id, Finished);
      OthersBusy(free, desc, info, reqs, old(busy), id);
      reqs := SetPhase(reqs, id, Finished);
      done := done + 1;
    }

    /** `virtio_disk_intr` finishes exactly the requests that were on the used ring. */
    method Intr()
      requires Valid()
      modifies this`reqs, this`busy, this`usedIdx, this`done
      ensures Valid() && done == |comps|
      ensures reqs.Keys == old(reqs).Keys
      ensures forall h :: h in reqs ==>
                reqs[h] == if old(reqs)[h].phase == Used then old(reqs)[h].(phase := Finished) else old(reqs)[h]
    {
      hide ChainsOk, Complement, RingOk;
      RingShort(free, desc, info, reqs, used, usedId, comps, done, Used);
      while usedIdx % NUM != usedId % NUM
        invariant Valid() && reqs.Keys == old(reqs).Keys && 0 <= done <= |comps|
        invariant forall h :: h in reqs ==>
                    reqs[h] == old(reqs)[h]
                    || (old(reqs)[h].phase == Used && reqs[h] == old(reqs)[h].(phase := Finished))
        decreases |comps| - done
      {
        IntrStep();
      }
      RingShort(free, desc, info, reqs, used, usedId, comps, done, Used);
      PendingTest(comps, done, usedId, usedIdx);
      RingDrained(used, usedId, comps, done, reqs, Used);
    }

    /** The end of `virtio_disk_rw`, once b->disk is 0: the three descriptors of the chain are freed, and
        none of the panics of `free_desc` is reached. */
    method Finish(h: int) returns (ok: bool)
      requires Valid() && h in reqs && reqs[h].b !in busy
      modifies this`free, this`info, this`reqs
      ensures Valid() && ok && reqs == old(reqs) - {h}
    {
      hide ChainsOk, Complement, RingOk, Apart;
      ChainsLength(free, desc, info, reqs);
      ChainAt(free, desc, info, reqs, h);
      EndChain(free, desc, info, reqs, h);
      RingDrop(avail, availIdx, posts, seen, reqs, Posted, h);
      RingDrop(used, usedId, comps, done, reqs, Used, h);
      info := info[h := 0];
      ok := FreeChain(h, reqs[h]);
      reqs := reqs - {h};
    }

    /** The tests of device and driver on the ring indices. */
    lemma Bounds()
      requires Valid()
      ensures 0 <= seen <= |posts| && 0 <= done <= |comps|
      ensures lastAvail != availIdx <==> seen < |posts|
      ensures usedIdx % NUM != usedId % NUM <==> done < |comps|
      ensures seen < |posts| ==> posts[seen] in reqs
      ensures done < |comps| ==> comps[done] in reqs
    {
      hide ChainsOk, Complement, RingOk, BusyOk;
      RingShort(free, desc, info, reqs, avail, availIdx, posts, seen, Posted);
      RingShort(free, desc, info, reqs, used, usedId, comps, done, Used);
      PostedTest(posts, seen, lastAvail, availIdx);
      PendingTest(comps, done, usedId, usedIdx);
      if seen < |posts| {
        RingAt(avail, availIdx, posts, seen, reqs, Posted, seen);
      }
      if done < |comps| {
        RingAt(used, usedId, comps, done, reqs, Used, done);
      }
    }

    /** `free_chain`. */
    method FreeChain(i0: int, ghost r: Req) returns (ok: bool)
      requires |free| == NUM && |desc| == NUM && 0 <= i0 < NUM && 0 <= r.d1 < NUM && 0 <= r.d2 < NUM
      requires i0 != r.d1 && i0 != r.d2 && r.d1 != r.d2 && !free[i0] && !free[r.d1] && !free[r.d2]
      requires desc[i0] == Desc(true, r.d1) && desc[r.d1] == Desc(true, r.d2) && !desc[r.d2].more
      modifies this`free
      ensures ok && free == old(free)[i0 := true][r.d1 := true][r.d2 := true]
    {
      var i := i0;
      ok := true;
      ghost var left := 3;
      while true
        invariant |free| == NUM && ok && 1 <= left <= 3
        invariant i == if left == 3 then i0 else if left == 2 then r.d1 else r.d2
        invariant free == if left == 3 then old(free) else if left == 2 then old(free)[i0 := true]
                  else old(free)[i0 := true][r.d1 := true]
        decreases left
      {
        var freed := FreeDesc(i);
        ok := ok && freed;
        if desc[i].more {
          i := desc[i].next;
        } else {
          break;
        }
        left := left - 1;
      }
    }
  }

  lemma NextIndex(done: nat)
    ensures 0 <= done % NUM < NUM && (done % NUM + 1) % NUM == (done + 1) % NUM
  {
  }

  lemma InfoAt(free: seq<bool>, desc: seq<Desc>, info: seq<int>, reqs: map<int, Req>, h: int)
    requires ChainsOk(free, desc, info, reqs) && h in reqs
    ensures 0 <= h < NUM && |info| == NUM && info[h] == reqs[h].b
  {
    hide ChainsOk;
    ChainsLength(free, desc, info, reqs);
    ChainAt(free, desc, info, reqs, h);
  }

  /** Finishing one request leaves the buffers of the others as they are. */
  lemma OthersBusy(free: seq<bool>, desc: seq<Desc>, info: seq<int>, reqs: map<int, Req>, busy: set<int>, h: int)
    requires ChainsOk(free, desc, info, reqs) && BusyOk(busy, reqs) && h in reqs
    ensures BusyOk(busy - {reqs[h].b}, SetPhase(reqs, h, Finished))
  {
    hide ChainsOk;
    forall g | g in reqs && g != h
      ensures reqs[g].b != reqs[h].b
    {
      ApartAt(free, desc, info, reqs, g, h);
    }
  }

  /** No request for buffer b is under way. */
  ghost predicate Fresh(reqs: map<int, Req>, b: int) {
    forall g :: g in reqs ==> reqs[g].b != b
  }

  lemma FreshAll(reqs: map<int, Req>, b: int)
    requires Fresh(reqs, b)
    ensures forall g :: g in reqs ==> reqs[g].b != b
  {
  }

  lemma NewBusy(busy: set<int>, reqs: map<int, Req>, h: int, x: Req)
    requires BusyOk(busy, reqs) && x.phase == Posted && Fresh(reqs, x.b)
    ensures BusyOk(busy + {x.b}, reqs[h := x])
  {
  }

  lemma RingDrained(ring: seq<int>, idx: int, log: seq<int>, lo: int, reqs: map<int, Req>, phase: Phase)
    requires RingOk(ring, idx, log, lo, reqs, phase) && lo == |log|
    ensures forall h :: h in reqs ==> reqs[h].phase != phase
  {
  }

  predicate Distinct3(idx: seq<int>)
    requires |idx| == 3
  {
    && (forall k :: 0 <= k < 3 ==> 0 <= idx[k] < NUM)
    && idx[0] != idx[1] && idx[0] != idx[2] && idx[1] != idx[2]
  }

  // ---------------------------------------------------------------- every run

  datatype Command = DoPost(b: int) | DoTake | DoComplete(h: int) | DoIntrStep | DoFinish(h: int)

  /** What a command does to the requests; h and x are the chain that a post gets. A post waits while two
      requests are in the table or one is for the same buffer. */
  ghost function Next(q: Traffic, c: Command, h: int, x: Req): (q': Traffic) {
    match c
    case DoPost(b) => if Fresh(q.reqs, b) && |q.reqs| < 2 then q.(reqs := q.reqs[h := x], posts := q.posts + [h]) else q
    case DoTake =>
      if 0 <= q.seen < |q.posts| && q.posts[q.seen] in q.reqs
      then q.(reqs := SetPhase(q.reqs, q.posts[q.seen], Taken), seen := q.seen + 1) else q
    case DoComplete(h) =>
      if h in q.reqs && q.reqs[h].phase == Taken then q.(reqs := SetPhase(q.reqs, h, Used), comps := q.comps + [h])
          else q
    case DoIntrStep =>
      if 0 <= q.done < |q.comps| && q.comps[q.done] in q.reqs
      then q.(reqs := SetPhase(q.reqs, q.comps[q.done], Finished), done := q.done + 1) else q
    case DoFinish(h) => if h in q.reqs && q.reqs[h].phase == Finished then q.(reqs := q.reqs - {h}) else q
  }

  ghost function Exec(q: Traffic, cmds: seq<Command>, hs: seq<(int, Req)>): (q': Traffic)
    requires |cmds| == |hs|
  {
    if |cmds| == 0 then q
    else
      var k := |cmds| - 1;
      Next(Exec(q, cmds[..k], hs[..k]), cmds[k], hs[k].0, hs[k].1)
  }

  lemma ExecMore(q: Traffic, cmds: seq<Command>, hs: seq<(int, Req)>, k: nat, h: int, x: Req)
    requires |hs| == k < |cmds|
    ensures Exec(q, cmds[..k + 1], hs + [(h, x)]) == Next(Exec(q, cmds[..k], hs), cmds[k], h, x)
  {
    hide Next;
    assert cmds[..k + 1][..k] == cmds[..k] && (hs + [(h, x)])[..k] == hs;
  }

  lemma ExecNext(q: Traffic, cmds: seq<Command>, hs: seq<(int, Req)>, k: nat)
    requires |cmds| == |hs| && k < |cmds|
    ensures Exec(q, cmds[..k + 1], hs[..k + 1]) == Next(Exec(q, cmds[..k], hs[..k]), cmds[k], hs[k].0, hs[k].1)
  {
    hide Next;
    assert cmds[..k + 1][..k] == cmds[..k] && hs[..k + 1][..k] == hs[..k];
  }

  /** The first request that is neither taken, completed nor processed goes through the rest of its life. */
  lemma LastServed(q: Traffic, h: int, hs: seq<(int, Req)>)
    requires q.seen == |q.posts| - 1 && q.done == |q.comps| && |hs| == 5
    requires h in q.reqs && q.reqs[h].phase == Posted && |q.posts| > 0 && q.posts[q.seen] == h
    ensures var q1 := Next(q, DoTake, hs[1].0, hs[1].1);
            var q2 := Next(q1, DoComplete(h), hs[2].0, hs[2].1);
            var q3 := Next(q2, DoIntrStep, hs[3].0, hs[3].1);
            var q4 := Next(q3, DoFinish(h), hs[4].0, hs[4].1);
            q4 == Traffic(q.reqs - {h}, q.posts, |q.posts|, q.comps + [h], |q.comps| + 1)
  {
    var q1 := Next(q, DoTake, hs[1].0, hs[1].1);
    assert q1 == Traffic(SetPhase(q.reqs, h, Taken), q.posts, |q.posts|, q.comps, q.done);
    var q2 := Next(q1, DoComplete(h), hs[2].0, hs[2].1);
    assert q2 == Traffic(SetPhase(q.reqs, h, Used), q.posts, |q.posts|, q.comps + [h], q.done);
    var q3 := Next(q2, DoIntrStep, hs[3].0, hs[3].1);
    assert q3 == Traffic(SetPhase(q.reqs, h, Finished), q.posts, |q.posts|, q.comps + [h], q.done + 1);
    assert q3.reqs - {h} == q.reqs - {h};
  }

  /** A request is served. If driver and device have nothing left to do, then a post, the device's two steps, one
      step of the interrupt loop and the end of virtio_disk_rw bring the table back to what it was, with one chain
      more posted, taken, completed and processed. */
  lemma {:induction false} RequestServed(q: Traffic, b: int, hs: seq<(int, Req)>)
    requires q.seen == |q.posts| && q.done == |q.comps| && Fresh(q.reqs, b) && |q.reqs| < 2
    requires |hs| == 5 && hs[0].0 !in q.reqs && hs[0].1.phase == Posted
    ensures var h := hs[0].0;
            Exec(q, [DoPost(b), DoTake, DoComplete(h), DoIntrStep, DoFinish(h)], hs)
            == Traffic(q.reqs, q.posts + [h], |q.posts| + 1, q.comps + [h], |q.comps| + 1)
  {
    hide Exec, Fresh, Next, SetPhase;
    var h, x := hs[0].0, hs[0].1;
    var cmds := [DoPost(b), DoTake, DoComplete(h), DoIntrStep, DoFinish(h)];
    ExecNone(q, cmds[..0], hs[..0]);
    ExecNext(q, cmds, hs, 0);
    ExecNext(q, cmds, hs, 1);
    ExecNext(q, cmds, hs, 2);
    ExecNext(q, cmds, hs, 3);
    ExecNext(q, cmds, hs, 4);
    assert cmds[..5] == cmds && hs[..5] == hs;
    var q0 := q.(reqs := q.reqs[h := x], posts := q.posts + [h]);
    assert Next(q, DoPost(b), h, x) == q0 by { PostNext(q, b, h, x); }
    LastServed(q0, h, hs);
    assert q0.reqs - {h} == q.reqs;
  }

  lemma PostNext(q: Traffic, b: int, h: int, x: Req)
    requires Fresh(q.reqs, b) && |q.reqs| < 2
    ensures Next(q, DoPost(b), h, x) == q.(reqs := q.reqs[h := x], posts := q.posts + [h])
  {
  }

  lemma ExecNone(q: Traffic, cmds: seq<Command>, hs: seq<(int, Req)>)
    requires |cmds| == |hs| == 0
    ensures Exec(q, cmds, hs) == q
  {
  }

  /** One command, with the tests that driver and device make. A step of the interrupt loop and the steps of
      the device come in any order. */
  method Step(d: Disk, c: Command) returns (ok: bool, h: int, x: Req)
    requires d.Valid()
    modifies d
    ensures d.Valid() && ok && d.View() == Next(old(d.View()), c, h, x)
  {
    hide RingOk, ChainsOk, Complement, BusyOk, SetPhase;
    ok, h, x := true, -1, Req(0, 0, 0, Posted);
    d.Bounds();
    match c {
      case DoPost(b) =>
        if forall g :: g in d.reqs ==> d.reqs[g].b != b {
          var posted;
          posted, h, x := d.Post(b);
        }
      case DoTake =>
        if d.lastAvail != d.availIdx {
          var g := d.DeviceTake();
        }
      case DoComplete(g) =>
        if g in d.reqs && d.reqs[g].phase == Taken {
          d.DeviceComplete(g);
        }
      case DoIntrStep =>
        if d.usedIdx % NUM != d.usedId % NUM {
          d.IntrStep();
        }
      case DoFinish(g) =>
        if g in d.reqs {
          FinishedIff(d.busy, d.reqs, g);
          if d.reqs[g].b !in d.busy {
            ok := d.Finish(g);
          }
        }
    }
  }

  lemma FinishedIff(busy: set<int>, reqs: map<int, Req>, h: int)
    requires BusyOk(busy, reqs) && h in reqs
    ensures reqs[h].b !in busy <==> reqs[h].phase == Finished
  {
  }

  /** Any run of driver and device: the requests are what the commands make of them, no three requests are ever in
      the table, the free flags are the complement of their chains, and `free_desc` never panics. */
  method Run(d: Disk, cmds: seq<Command>) returns (ok: bool, hs: seq<(int, Req)>)
    requires d.Valid()
    modifies d
    ensures d.Valid() && ok && |hs| == |cmds| && d.View() == Exec(old(d.View()), cmds, hs)
    ensures |d.reqs| <= 2
    ensures |d.free| == NUM && forall i :: 0 <= i < NUM ==>
              (d.free[i] <==> !exists h :: h in d.reqs && InChain(h, d.reqs[h], i))
  {
    hide RingOk, ChainsOk, Complement, BusyOk, SetPhase, Next;
    ok, hs := true, [];
    for k := 0 to |cmds|
      invariant d.Valid() && ok && |hs| == k && d.View() == Exec(old(d.View()), cmds[..k], hs)
    {
      var h, x;
      ok, h, x := Step(d, cmds[k]);
      ExecMore(old(d.View()), cmds, hs, k, h, x);
      hs := hs + [(h, x)];
    }
    assert cmds[..|cmds|] == cmds;
    ChainsLength(d.free, d.desc, d.info, d.reqs);
    AtMostTwo(d.free, d.desc, d.info, d.reqs);
    forall i | 0 <= i < NUM
      ensures d.free[i] <==> !exists h :: h in d.reqs && InChain(h, d.reqs[h], i)
    {
      FreeIffUnused(d.free, d.desc, d.info, d.reqs, i);
    }
  }
}
