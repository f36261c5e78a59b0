/** The buffer cache of kernel/bio.c: NBUF buffers on a circular doubly linked list through the list
    head, most recently used first. A pointer to bcache.buf[i] is the number i, and a pointer to
    bcache.head is HEAD. The ghost sequence `ring` is the list as a value, starting with the head; the
    ghost sequence `stamp` says when each buffer was last put at the front, which is when its last
    user released it. */
module Bcache {
  const NBUF := 30
  const HEAD := NBUF
  const UINT := 0x1_0000_0000

  /** `refcnt` is a uint, so counting down from zero wraps around. */
  function Dec(n: int): (r: int) {
    if n == 0 then UINT - 1 else n - 1
  }

  function Inc(n: int): (r: int) {
    if n == UINT - 1 then 0 else n + 1
  }

  datatype Buf = Buf(dev: nat, blockno: nat, refcnt: int, valid: bool)

  // ---------------------------------------------------------------- the list

  ghost predicate Distinct(ring: seq<nat>) {
    forall i, j :: 0 <= i < j < |ring| ==> ring[i] != ring[j]
  }

  /** The neighbours of position i. */
  ghost function After(ring: seq<nat>, i: nat): (b: nat)
    requires i < |ring|
  {
    if i == |ring| - 1 then HEAD else ring[i + 1]
  }

  ghost function Before(ring: seq<nat>, i: nat): (b: nat)
    requires i < |ring|
  {
    if i == 0 then ring[|ring| - 1] else ring[i - 1]
  }

  /** The head, then buffers. */
  ghost predicate Shape(ring: seq<nat>) {
    |ring| >= 1 && ring[0] == HEAD && forall i :: 1 <= i < |ring| ==> ring[i] < NBUF
  }

  /** The pointers agree with `ring` in both directions. */
  ghost predicate Linked(next: seq<nat>, prev: seq<nat>, ring: seq<nat>) {
    && |next| == |prev| == NBUF + 1
    && Shape(ring) && Distinct(ring)
    && (forall i :: 0 <= i < |ring| ==> next[ring[i]] == After(ring, i))
    && (forall i :: 0 <= i < |ring| ==> prev[ring[i]] == Before(ring, i))
  }

  ghost function Without(ring: seq<nat>, k: nat): (r: seq<nat>)
    requires k < |ring|
  {
    ring[..k] + ring[k + 1..]
  }

  ghost function WithFront(ring: seq<nat>, b: nat): (r: seq<nat>)
    requires |ring| >= 1
  {
    [HEAD, b] + ring[1..]
  }

  /** Each buffer came to the front later than the ones behind it. */
  ghost predicate Stamped(ring: seq<nat>, stamp: seq<nat>, clock: nat) {
    && |stamp| == NBUF && Shape(ring)
    && (forall i :: 1 <= i < |ring| ==> stamp[ring[i]] < clock)
    && (forall i, j :: 1 <= i < j < |ring| ==> stamp[ring[i]] > stamp[ring[j]])
  }

  lemma LinkedAt(next: seq<nat>, prev: seq<nat>, ring: seq<nat>, i: nat)
    requires Linked(next, prev, ring) && i < |ring|
    ensures |next| == |prev| == NBUF + 1 && ring[0] == HEAD && ring[i] <= NBUF && (i > 0 ==> ring[i] < NBUF)
    ensures Distinct(ring)
    ensures next[ring[i]] == After(ring, i) <= NBUF && prev[ring[i]] == Before(ring, i) <= NBUF
  {
  }

  lemma Apart(ring: seq<nat>, i: nat, j: nat)
    requires Distinct(ring) && i < |ring| && j < |ring|
    ensures i != j ==> ring[i] != ring[j]
  {
  }

  lemma PushFrontAt(next: seq<nat>, prev: seq<nat>, ring: seq<nat>, b: nat, i: nat)
    requires Linked(next, prev, ring) && b !in ring && b < NBUF
    requires 1 <= |ring| && i <= |ring|
    ensures var next1, prev1, ring' := next[b := next[HEAD]], prev[b := HEAD], WithFront(ring, b);
            && next[HEAD] == After(ring, 0) <= NBUF && ring'[i] <= NBUF
            && next1[HEAD := b][ring'[i]] == After(ring', i)
            && prev1[next1[HEAD] := b][ring'[i]] == Before(ring', i)
  {
    hide Linked, Distinct, Shape;
    LinkedAt(next, prev, ring, 0);
    var ring' := WithFront(ring, b);
    if i == 0 {
    } else if i == 1 {
      assert b != ring[0];
    } else {
      assert ring'[i] == ring[i - 1] && ring[i - 1] in ring;
      LinkedAt(next, prev, ring, i - 1);
      Apart(ring, 0, i - 1);
      Apart(ring, 1, i - 1);
    }
  }

  lemma PushFrontDistinct(ring: seq<nat>, b: nat)
    requires Distinct(ring) && |ring| >= 1 && ring[0] == HEAD && b !in ring && b < NBUF
    ensures Distinct(WithFront(ring, b))
  {
    var ring' := WithFront(ring, b);
    assert forall i :: 2 <= i < |ring'| ==> ring'[i] == ring[i - 1] && ring'[i] in ring;
  }

  lemma PushFrontLinks(next: seq<nat>, prev: seq<nat>, ring: seq<nat>, b: nat)
    requires Linked(next, prev, ring) && b !in ring && b < NBUF
    ensures var next1, prev1 := next[b := next[HEAD]], prev[b := HEAD];
            |next| == |prev| == NBUF + 1 && next[HEAD] <= NBUF && Shape(WithFront(ring, b))
                && Linked(next1[HEAD := b], prev1[next1[HEAD] := b], WithFront(ring, b))
  {
    hide After, Before;
    PushFrontDistinct(ring, b);
    var next1, prev1, ring' := next[b := next[HEAD]], prev[b := HEAD], WithFront(ring, b);
    PushFrontAt(next, prev, ring, b, 0);
    forall i | 0 <= i < |ring'|
      ensures ring'[i] <= NBUF && (i > 0 ==> ring'[i] < NBUF) && next1[HEAD := b][ring'[i]] == After(ring', i)
      ensures prev1[next1[HEAD] := b][ring'[i]] == Before(ring', i)
    {
      PushFrontAt(next, prev, ring, b, i);
    }
  }

  lemma UnlinkAt(next: seq<nat>, prev: seq<nat>, ring: seq<nat>, k: nat, i: nat)
    requires Linked(next, prev, ring) && 1 <= k < |ring| && i < |ring| - 1
    ensures var b, ring' := ring[k], Without(ring, k);
            && next[b] <= NBUF && prev[b] <= NBUF && ring'[i] <= NBUF
            && next[prev[b] := next[b]][ring'[i]] == After(ring', i)
            && prev[next[b] := prev[b]][ring'[i]] == Before(ring', i)
  {
    hide Linked, Distinct, Shape;
    var m := if i < k then i else i + 1;
    var ring' := Without(ring, k);
    LinkedAt(next, prev, ring, k);
    LinkedAt(next, prev, ring, m);
    Apart(ring, m, k - 1);
    Apart(ring, m, 0);
    if k < |ring| - 1 {
      Apart(ring, m, k + 1);
    }
    assert ring'[i] == ring[m];
  }

  lemma UnlinkLinks(next: seq<nat>, prev: seq<nat>, ring: seq<nat>, k: nat)
    requires Linked(next, prev, ring) && 1 <= k < |ring|
    ensures var b := ring[k];
            && b <= NBUF && |next| == |prev| == NBUF + 1
            && next[b] <= NBUF && prev[b] <= NBUF && next[b] != b
            && Shape(Without(ring, k))
            && Linked(next[prev[b] := next[b]], prev[next[b] := prev[b]], Without(ring, k))
  {
    var b, ring' := ring[k], Without(ring, k);
    UnlinkShape(ring, k);
    hide Before, After, Without, Distinct, Shape, Linked;
    LinkedAt(next, prev, ring, k);
    NextDiffers(next, prev, ring, k);
    var next', prev' := next[prev[b] := next[b]], prev[next[b] := prev[b]];
    forall i | 0 <= i < |ring'|
      ensures ring'[i] <= NBUF && next'[ring'[i]] == After(ring', i) && prev'[ring'[i]] == Before(ring', i)
    {
      UnlinkAt(next, prev, ring, k, i);
    }
    LinkedFrom(next', prev', ring');
  }

  lemma UnlinkShape(ring: seq<nat>, k: nat)
    requires Shape(ring) && Distinct(ring) && 1 <= k < |ring|
    ensures var r := Without(ring, k); Shape(r) && Distinct(r) && |r| == |ring| - 1
  {
    var r := Without(ring, k);
    assert forall i :: 0 <= i < |r| ==> r[i] == if i < k then ring[i] else ring[i + 1];
    hide Without;
  }

  lemma NextDiffers(next: seq<nat>, prev: seq<nat>, ring: seq<nat>, k: nat)
    requires Linked(next, prev, ring) && 1 <= k < |ring|
    ensures ring[k] <= NBUF && |next| == NBUF + 1 && next[ring[k]] != ring[k]
  {
    hide Linked, Before, Distinct;
    LinkedAt(next, prev, ring, k);
    Apart(ring, k, 0);
    if k < |ring| - 1 {
      Apart(ring, k, k + 1);
    }
  }

  lemma LinkedFrom(next: seq<nat>, prev: seq<nat>, ring: seq<nat>)
    requires |next| == |prev| == NBUF + 1 && Shape(ring) && Distinct(ring)
    requires forall i :: 0 <= i < |ring| ==>
               ring[i] <= NBUF && next[ring[i]] == After(ring, i) && prev[ring[i]] == Before(ring, i)
    ensures Linked(next, prev, ring)
  {
    hide After, Before, Distinct;
  }

  lemma PushFrontStamps(ring: seq<nat>, stamp: seq<nat>, clock: nat, b: nat)
    requires Stamped(ring, stamp, clock) && b !in ring && b < NBUF
    ensures Stamped(WithFront(ring, b), stamp[b := clock], clock + 1)
  {
  }

  lemma UnlinkStamps(ring: seq<nat>, stamp: seq<nat>, clock: nat, k: nat)
    requires Stamped(ring, stamp, clock) && 1 <= k < |ring|
    ensures Stamped(Without(ring, k), stamp, clock)
  {
    var ring' := Without(ring, k);
    assert forall i :: 0 <= i < |ring'| ==> ring'[i] == if i < k then ring[i] else ring[i + 1];
  }

  lemma EmptyRing(next: seq<nat>, prev: seq<nat>, stamp: seq<nat>, clock: nat)
    requires |next| == |prev| == NBUF + 1 && next[HEAD] == prev[HEAD] == HEAD && |stamp| == NBUF
    ensures Shape([HEAD]) && Linked(next, prev, [HEAD]) && Stamped([HEAD], stamp, clock)
  {
  }

  lemma Pushed(ring: seq<nat>, b: nat)
    requires |ring| >= 1
    ensures forall c :: c < NBUF && Shape(ring) ==> (c in WithFront(ring, b) <==> c == b || c in ring)
  {
    assert ring == [ring[0]] + ring[1..];
    assert WithFront(ring, b)[1] == b;
  }

  /** Moving a buffer to the front loses none. */
  lemma MovedToFront(ring: seq<nat>, k: nat)
    requires Distinct(ring) && 1 <= k < |ring|
    ensures ring[k] !in Without(ring, k)
    ensures forall c :: c in ring ==> c == ring[0] || c in WithFront(Without(ring, k), ring[k])
  {
    var ring' := WithFront(Without(ring, k), ring[k]);
    forall c | c in ring && c != ring[0]
      ensures c in ring'
    {
      var i :| 0 <= i < |ring| && ring[i] == c;
      assert ring'[if i == k then 1 else if i < k then i + 1 else i] == c;
    }
  }

  /** No block of a real device is in two buffers. */
  ghost predicate OneBufferPerBlock(buf: seq<Buf>) {
    forall i, j :: 0 <= i < j < |buf| && buf[i].dev != 0 && buf[i].dev == buf[j].dev ==>
        buf[i].blockno != buf[j].blockno
  }

  ghost predicate HoldsBlock(b: Buf, dev: nat, blockno: nat) {
    b.dev == dev && b.blockno == blockno
  }

  ghost predicate Cached(buf: seq<Buf>, dev: nat, blockno: nat) {
    exists i :: 0 <= i < |buf| && HoldsBlock(buf[i], dev, blockno)
  }

  /** Changing reference counts only. */
  lemma SameBlocks(buf: seq<Buf>, b: nat, refcnt: int)
    requires OneBufferPerBlock(buf) && b < |buf|
    ensures OneBufferPerBlock(buf[b := buf[b].(refcnt := refcnt)])
  {
  }

  lemma NewBlock(buf: seq<Buf>, b: nat, dev: nat, blockno: nat)
    requires OneBufferPerBlock(buf) && b < |buf| && !Cached(buf, dev, blockno)
    ensures OneBufferPerBlock(buf[b := Buf(dev, blockno, 1, false)])
  {
    assert forall i :: 0 <= i < |buf| ==> !HoldsBlock(buf[i], dev, blockno);
  }

  function Unused(n: nat): (buf: seq<Buf>)
    ensures |buf| == n && forall i :: 0 <= i < n ==> buf[i] == Buf(0, 0, 0, false)
  {
    seq(n, i => Buf(0, 0, 0, false))
  }

  function Same(n: nat, x: nat): (s: seq<nat>)
    ensures |s| == n && forall i :: 0 <= i < n ==> s[i] == x
  {
    seq(n, i => x)
  }

  lemma NoBlocksYet(buf: seq<Buf>)
    requires forall i :: 0 <= i < |buf| ==> buf[i].dev == 0
    ensures OneBufferPerBlock(buf)
  {
  }

  class Cache {
    var buf: seq<Buf>
    var next: seq<nat>
    var prev: seq<nat>
    ghost var ring: seq<nat>
    ghost var stamp: seq<nat>
    ghost var clock: nat

    ghost predicate ListOk()
      reads this
    {
      && |buf| == |stamp| == NBUF && |next| == |prev| == NBUF + 1 && |ring| >= 1 && Shape(ring)
      && Linked(next, prev, ring)
      && Stamped(ring, stamp, clock)
    }

    ghost predicate Valid()
      reads this
    {
      && ListOk()
      && OneBufferPerBlock(buf)
      && (forall b :: 0 <= b < NBUF ==> b in ring)
      && (forall b :: 0 <= b < NBUF ==> 0 <= buf[b].refcnt < UINT)
    }

    /** `b->next = head.next; b->prev = &head; head.next->prev = b; head.next = b`. */
    method PushFront(b: nat)
      requires ListOk() && b !in ring && b < NBUF
      modifies this`next, this`prev, this`ring, this`stamp, this`clock
      ensures ListOk() && ring == WithFront(old(ring), b)
      ensures stamp == old(stamp)[b := old(clock)] && clock == old(clock) + 1
    {
      hide Linked, Stamped, Shape;
      LinkedAt(next, prev, ring, 0);
      PushFrontLinks(next, prev, ring, b);
      PushFrontStamps(ring, stamp, clock, b);
      next := next[b := next[HEAD]];
      prev := prev[b := HEAD];
      prev := prev[next[HEAD] := b];
      next := next[HEAD := b];
      ring, stamp, clock := WithFront(ring, b), stamp[b := clock], clock + 1;
    }

    /** `b->next->prev = b->prev; b->prev->next = b->next`. */
    method Unlink(b: nat, ghost k: nat)
      requires ListOk() && 1 <= k < |ring| && ring[k] == b
      modifies this`next, this`prev, this`ring
      ensures ListOk() && ring == Without(old(ring), k)
    {
      hide Linked, Stamped, Shape;
      UnlinkStamps(ring, stamp, clock, k);
      UnlinkLinks(next, prev, ring, k);
      prev := prev[next[b] := prev[b]];
      next := next[prev[b] := next[b]];
      ring := Without(ring, k);
    }

    /** `binit`: NBUF unused buffers, each pushed to the front. */
    constructor ()
      ensures Valid()
      ensures forall b :: 0 <= b < NBUF ==> buf[b] == Buf(0, 0, 0, false)
    {
      hide Linked, Stamped, Shape, Unused, Same, OneBufferPerBlock, WithFront;
      buf := Unused(NBUF);
      next, prev := Same(NBUF + 1, HEAD), Same(NBUF + 1, HEAD);
      ring, stamp, clock := [HEAD], Same(NBUF, 0), 0;
      new;
      NoBlocksYet(buf);
      EmptyRing(next, prev, stamp, clock);
      for b := 0 to NBUF
        modifies this`next, this`prev, this`ring, this`stamp, this`clock
        invariant ListOk()
        invariant forall c :: 0 <= c < NBUF ==> (c in ring <==> c < b)
      {
        Pushed(ring, b);
        PushFront(b);
      }
    }

    /** The first loop of `bget`: the buffer that holds the block, or the list head. */
    method Find(dev: nat, blockno: nat) returns (b: nat)
      requires Valid()
      ensures b <= NBUF && (b == HEAD <==> !Cached(buf, dev, blockno))
      ensures b != HEAD ==> HoldsBlock(buf[b], dev, blockno)
    {
      hide Linked, Stamped, OneBufferPerBlock;
      LinkedAt(next, prev, ring, 0);
      b := next[HEAD];
      ghost var k := 1;
      while b != HEAD
        invariant 1 <= k <= |ring| && b == After(ring, k - 1) <= NBUF
        invariant forall i :: 1 <= i < k ==> !HoldsBlock(buf[ring[i]], dev, blockno)
        decreases |ring| - k
      {
        if buf[b].dev == dev && buf[b].blockno == blockno {
          return;
        }
        LinkedAt(next, prev, ring, k);
        b, k := next[b], k + 1;
      }
      forall c | 0 <= c < NBUF
        ensures !HoldsBlock(buf[c], dev, blockno)
      {
        assert c in ring;
        var i :| 0 <= i < |ring| && ring[i] == c;
      }
    }

    /** The second loop of `bget`: the unused buffer released longest ago, or the list head. */
    method FindVictim() returns (b: nat)
      requires Valid()
      ensures b <= NBUF && (b == HEAD <==> forall c :: 0 <= c < NBUF ==> buf[c].refcnt != 0)
      ensures b != HEAD ==> buf[b].refcnt == 0
      ensures b != HEAD ==> forall c :: 0 <= c < NBUF && c != b && buf[c].refcnt == 0 ==> stamp[b] < stamp[c]
    {
      hide Linked, OneBufferPerBlock;
      LinkedAt(next, prev, ring, 0);
      b := prev[HEAD];
      ghost var k := |ring| - 1;
      while b != HEAD
        invariant 0 <= k < |ring| && b == ring[k] <= NBUF
        invariant forall i :: k < i < |ring| ==> buf[ring[i]].refcnt != 0
        decreases k
      {
        if buf[b].refcnt == 0 {
          break;
        }
        LinkedAt(next, prev, ring, k);
        b, k := prev[b], k - 1;
      }
      Apart(ring, 0, k);
      forall c | 0 <= c < NBUF && c != b && buf[c].refcnt == 0
        ensures b != HEAD && stamp[b] < stamp[c]
      {
        assert c in ring;
        var i :| 0 <= i < |ring| && ring[i] == c;
      }
    }

    /** `bget` up to the sleep lock; HEAD is the panic "bget: no buffers". A cached block gains a
        reference. Otherwise the unused buffer that was released longest ago is given to the block. */
    method Bget(dev: nat, blockno: nat) returns (b: nat)
      requires Valid() && dev != 0
      modifies this`buf
      ensures Valid() && b <= NBUF
      ensures b == HEAD <==> !Cached(old(buf), dev, blockno) && forall c :: 0 <= c < NBUF ==> old(buf)[c].refcnt != 0
      ensures b == HEAD ==> buf == old(buf)
      ensures b != HEAD && Cached(old(buf), dev, blockno) ==>
                && HoldsBlock(old(buf)[b], dev, blockno)
                && buf == old(buf)[b := old(buf)[b].(refcnt := Inc(old(buf)[b].refcnt))]
      ensures b != HEAD && !Cached(old(buf), dev, blockno) ==>
                && old(buf)[b].refcnt == 0
                && buf == old(buf)[b := Buf(dev, blockno, 1, false)]
                && forall c :: 0 <= c < NBUF && c != b && old(buf)[c].refcnt == 0 ==> stamp[b] < stamp[c]
    {
      hide Linked, Stamped, Shape, OneBufferPerBlock;
      b := Find(dev, blockno);
      if b != HEAD {
        SameBlocks(buf, b, Inc(buf[b].refcnt));
        buf := buf[b := buf[b].(refcnt := Inc(buf[b].refcnt))];
        return;
      }
      b := FindVictim();
      if b != HEAD {
        NewBlock(buf, b, dev, blockno);
        buf := buf[b := Buf(dev, blockno, 1, false)];
      }
    }

    method Bpin(b: nat)
      requires Valid() && b < NBUF
      modifies this`buf
      ensures Valid() && buf == old(buf)[b := old(buf)[b].(refcnt := Inc(old(buf)[b].refcnt))]
    {
      hide Linked, Stamped, Shape, OneBufferPerBlock;
      SameBlocks(buf, b, Inc(buf[b].refcnt));
      buf := buf[b := buf[b].(refcnt := Inc(buf[b].refcnt))];
    }

    method Bunpin(b: nat)
      requires Valid() && b < NBUF
      modifies this`buf
      ensures Valid() && buf == old(buf)[b := old(buf)[b].(refcnt := Dec(old(buf)[b].refcnt))]
    {
      hide Linked, Stamped, Shape, OneBufferPerBlock;
      SameBlocks(buf, b, Dec(buf[b].refcnt));
      buf := buf[b := buf[b].(refcnt := Dec(buf[b].refcnt))];
    }

    /** `brelse` after the sleep lock is released: the last user moves the buffer to the front. */
    method Brelse(b: nat)
      requires Valid() && b < NBUF
      modifies this
      ensures Valid() && buf == old(buf)[b := old(buf)[b].(refcnt := Dec(old(buf)[b].refcnt))]
      ensures buf[b].refcnt != 0 ==> ring == old(ring) && stamp == old(stamp) && clock == old(clock)
      ensures buf[b].refcnt == 0 ==> stamp == old(stamp)[b := old(clock)] && clock > old(clock)
      ensures buf[b].refcnt == 0 ==>
                exists k :: 1 <= k < |old(ring)| && old(ring)[k] == b && ring == WithFront(Without(old(ring), k), b)
    {
      hide Linked, Stamped, Shape, OneBufferPerBlock;
      SameBlocks(buf, b, Dec(buf[b].refcnt));
      buf := buf[b := buf[b].(refcnt := Dec(buf[b].refcnt))];
      if buf[b].refcnt == 0 {
        ghost var k := Position(b);
        Unlink(b, k);
        MovedToFront(old(ring), k);
        PushFront(b);
      }
    }

    lemma Position(b: nat) returns (k: nat)
      requires Valid() && b < NBUF
      ensures 1 <= k < |ring| && ring[k] == b && Distinct(ring) && ring[0] == HEAD
    {
      assert b in ring;
      k :| 0 <= k < |ring| && ring[k] == b;
    }

    // -------------------------------------------------------------- reference counts by block

    /** `bget` in terms of the counts. */
    method GetBlock(dev: nat, x: nat, ghost m: map<nat, int>) returns (b: nat)
      requires Valid() && dev != 0 && Counts(buf, dev, m)
      modifies this`buf
      ensures Valid() && b <= NBUF && (b == HEAD <==> x !in m && |m| == NBUF)
      ensures b != HEAD ==> HoldsBlock(buf[b], dev, x) && Counts(buf, dev, Put(m, x, Inc(Cnt(m, x))))
      ensures b != HEAD ==> old(buf)[b].refcnt == 0 || HoldsBlock(old(buf)[b], dev, x)
      ensures forall k :: 0 <= k < NBUF && k != b ==> buf[k] == old(buf)[k]
    {
      hide Linked, Stamped, Shape, OneBufferPerBlock, Counts;
      AllBusyIff(buf, dev, m, x);
      ghost var buf0 := buf;
      b := Bget(dev, x);
      if b != HEAD {
        if Cached(buf0, dev, x) {
          CountsSet(buf0, dev, m, b, x, Inc(buf0[b].refcnt));
        } else {
          CountsRecycle(buf0, dev, m, b, x);
        }
      }
    }

    /** The count of the block in buffer b is lowered, by `bunpin` or `brelse`. */
    method PutBlock(dev: nat, x: nat, b: nat, unpin: bool, ghost m: map<nat, int>)
      requires Valid() && dev != 0 && Counts(buf, dev, m) && b < NBUF && HoldsBlock(buf[b], dev, x)
      modifies this
      ensures Valid() && Counts(buf, dev, Put(m, x, Dec(Cnt(m, x))))
      ensures forall k :: 0 <= k < NBUF ==> buf[k].dev == old(buf)[k].dev && buf[k].blockno == old(buf)[k].blockno
    {
      hide Linked, Stamped, Shape, OneBufferPerBlock, Counts;
      CountsSet(buf, dev, m, b, x, Dec(buf[b].refcnt));
      if unpin {
        Bunpin(b);
      } else {
        Brelse(b);
      }
    }

    /** One round of install_trans: the log block and the home block are both held while the data is copied,
        and the home block is unpinned before it is released. Its count ends one lower. */
    method InstallRound(dev: nat, log: nat, home: nat, ghost m: map<nat, int>) returns (ok: bool)
      requires Valid() && dev != 0 && Counts(buf, dev, m) && log != home && log !in m
      modifies this
      ensures Valid() && (ok <==> |m| + (if home in m then 1 else 2) <= NBUF)
      ensures ok ==> Counts(buf, dev, Put(m, home, Dec(Cnt(m, home))))
    {
      hide Linked, Stamped, Shape, OneBufferPerBlock, Counts;
      CountsRange(buf, dev, m);
      var lb := GetBlock(dev, log, m);
      if lb == HEAD {
        return false;
      }
      ghost var m1 := Put(m, log, 1);
      CountAt(buf, dev, m1, lb, log);
      var db := GetBlock(dev, home, m1);
      if db == HEAD {
        return false;
      }
      ghost var m2 := Put(m1, home, Inc(Cnt(m, home)));
      PutBlock(dev, home, db, true, m2);
      ghost var m3 := Put(m2, home, Dec(Cnt(m2, home)));
      PutBlock(dev, log, lb, false, m3);
      ghost var m4 := Put(m3, log, Dec(Cnt(m3, log)));
      PutBlock(dev, home, db, false, m4);
      RoundCounts(m, log, home);
      ok := true;
    }

    /** A block that a caller holds is pinned, as log_write does, and later installed: the counts are as
        before. */
    method PinAndInstall(dev: nat, log: nat, home: nat, b: nat, ghost m: map<nat, int>) returns (ok: bool)
      requires Valid() && dev != 0 && Counts(buf, dev, m) && log != home && log !in m
      requires b < NBUF && HoldsBlock(buf[b], dev, home) && home in m && m[home] < UINT - 1
      modifies this
      ensures Valid() && (ok <==> |m| < NBUF) && (ok ==> Counts(buf, dev, m))
    {
      hide Linked, Stamped, Shape, OneBufferPerBlock, Counts;
      CountsRange(buf, dev, m);
      CountsSet(buf, dev, m, b, home, Inc(buf[b].refcnt));
      Bpin(b);
      ok := InstallRound(dev, log, home, m[home := m[home] + 1]);
      assert m[home := m[home] + 1][home := m[home]] == m;
    }

    /** A block is read and released: read_head and write_head. */
    method Visit(dev: nat, x: nat, ghost m: map<nat, int>) returns (ok: bool)
      requires Valid() && dev != 0 && Counts(buf, dev, m) && x !in m
      modifies this
      ensures Valid() && (ok <==> |m| < NBUF) && (ok ==> Counts(buf, dev, m))
    {
      hide Linked, Stamped, Shape, OneBufferPerBlock, Counts;
      CountsRange(buf, dev, m);
      var b := GetBlock(dev, x, m);
      if b == HEAD {
        return false;
      }
      PutBlock(dev, x, b, false, m[x := 1]);
      assert m[x := 1] - {x} == m;
      ok := true;
    }

    /** recover_from_log with a cache that nobody references, for a header that names the home blocks lh. It
        panics with "bget: no buffers" iff there are NBUF of them or more. Otherwise exactly they are left
        with a wrapped count, so the counts are right iff there is none. */
    method RecoverReferences(dev: nat, start: nat, lh: seq<nat>) returns (ok: bool)
      requires Valid() && dev != 0 && (forall b :: 0 <= b < NBUF ==> buf[b].refcnt == 0)
      requires forall i, j :: 0 <= i < j < |lh| ==> lh[i] != lh[j]
      requires forall i :: 0 <= i < |lh| ==> !(start <= lh[i] <= start + |lh|)
      modifies this
      ensures Valid() && (ok <==> |lh| < NBUF)
      ensures ok ==> Counts(buf, dev, WrappedCounts(lh))
      ensures ok ==> ((forall b :: 0 <= b < NBUF ==> buf[b].refcnt == 0) <==> lh == [])
    {
      hide Linked, Stamped, Shape, OneBufferPerBlock, Counts, WrappedCounts;
      UnusedCounts(buf, dev);
      ok := Visit(dev, start, map[]);
      ok := InstallAll(dev, start, lh);
      if ok {
        WrappedSize(lh, |lh|);
        assert lh[..|lh|] == lh;
        assert start !in lh;
        ok := Visit(dev, start, WrappedCounts(lh));
        CountsZero(buf, dev, WrappedCounts(lh));
      }
    }

    /** The loop of install_trans on blocks that nobody pinned. */
    method InstallAll(dev: nat, start: nat, lh: seq<nat>) returns (ok: bool)
      requires Valid() && dev != 0 && Counts(buf, dev, map[])
      requires forall i, j :: 0 <= i < j < |lh| ==> lh[i] != lh[j]
      requires forall i :: 0 <= i < |lh| ==> !(start <= lh[i] <= start + |lh|)
      modifies this
      ensures Valid() && (ok <==> |lh| < NBUF)
      ensures ok ==> Counts(buf, dev, WrappedCounts(lh))
    {
      hide Linked, Stamped, Shape, OneBufferPerBlock, Counts, WrappedCounts;
      WrappedSize(lh, 0);
      var tail := 0;
      while tail < |lh|
        invariant 0 <= tail <= |lh| && Valid() && tail < NBUF
        invariant Counts(buf, dev, WrappedCounts(lh[..tail]))
      {
        ghost var m := WrappedCounts(lh[..tail]);
        WrappedSize(lh, tail);
        WrappedMore(lh, tail);
        ok := InstallRound(dev, start + tail + 1, lh[tail], m);
        if !ok {
          return;
        }
        tail := tail + 1;
      }
      assert lh[..|lh|] == lh;
      ok := true;
    }
  }

  // ---------------------------------------------------------------- counts

  /** The buffers in use. */
  ghost function Busy(buf: seq<Buf>): (s: set<int>) {
    set b | 0 <= b < |buf| && buf[b].refcnt != 0
  }

  /** The count of block x. */
  function Cnt(m: map<nat, int>, x: nat): (c: int) {
    if x in m then m[x] else 0
  }

  function Put(m: map<nat, int>, x: nat, c: int): (r: map<nat, int>) {
    if c == 0 then m - {x} else m[x := c]
  }

  /** The counts that are not zero are those of the blocks in m. */
  ghost predicate Counts(buf: seq<Buf>, dev: nat, m: map<nat, int>) {
    && (forall b :: 0 <= b < |buf| ==> buf[b].refcnt == if buf[b].dev == dev then Cnt(m, buf[b].blockno) else 0)
    && (forall x :: x in m ==> 0 < m[x] < UINT && Cached(buf, dev, x))
    && |Busy(buf)| == |m|
  }

  /** All counts of recovered blocks went below zero. */
  ghost function WrappedCounts(lh: seq<nat>): (m: map<nat, int>) {
    map x | x in lh :: UINT - 1
  }

  ghost function Indices(n: nat): (s: set<int>)
    ensures |s| == n && forall i :: i in s <==> 0 <= i < n
  {
    if n == 0 then {} else Indices(n - 1) + {n - 1}
  }

  lemma BusyFull(buf: seq<Buf>, n: nat)
    requires |buf| == n
    ensures |Busy(buf)| <= n && (|Busy(buf)| == n <==> forall b :: 0 <= b < n ==> buf[b].refcnt != 0)
  {
    var s, t := Busy(buf), Indices(n);
    hide Indices;
    assert t == s + (t - s);
    if |s| == n {
      forall b | 0 <= b < n
        ensures buf[b].refcnt != 0
      {
        assert b in t && t - s == {};
      }
    }
    if forall b :: 0 <= b < n ==> buf[b].refcnt != 0 {
      assert t - s == {};
    }
  }

  lemma CountsRange(buf: seq<Buf>, dev: nat, m: map<nat, int>)
    requires |buf| == NBUF && Counts(buf, dev, m)
    ensures |m| <= NBUF && forall x :: x in m ==> 0 < m[x] < UINT
  {
    BusyFull(buf, NBUF);
  }

  lemma CountAt(buf: seq<Buf>, dev: nat, m: map<nat, int>, b: nat, x: nat)
    requires Counts(buf, dev, m) && b < |buf| && HoldsBlock(buf[b], dev, x)
    ensures buf[b].refcnt == Cnt(m, x) && (Cnt(m, x) != 0 <==> x in m)
  {
  }

  /** No buffer is left for block x iff NBUF other blocks are in use. */
  lemma AllBusyIff(buf: seq<Buf>, dev: nat, m: map<nat, int>, x: nat)
    requires |buf| == NBUF && Counts(buf, dev, m)
    ensures !Cached(buf, dev, x) && (forall c :: 0 <= c < NBUF ==> buf[c].refcnt != 0) <==> x !in m && |m| == NBUF
  {
    BusyFull(buf, NBUF);
  }

  /** The buffer of block x gets the count c: what each buffer counts. */
  lemma CountsSetAt(buf: seq<Buf>, dev: nat, m: map<nat, int>, b: nat, x: nat, c: int, i: nat)
    requires Counts(buf, dev, m) && OneBufferPerBlock(buf) && dev != 0
    requires b < |buf| && HoldsBlock(buf[b], dev, x) && i < |buf|
    ensures var buf', m' := buf[b := buf[b].(refcnt := c)], Put(m, x, c);
            buf'[i].refcnt == if buf'[i].dev == dev then Cnt(m', buf'[i].blockno) else 0
  {
    hide OneBufferPerBlock, Busy, Cached;
    if i != b {
      OtherBlock(buf, dev, b, i);
    }
  }

  /** And which blocks are cached. */
  lemma CountsSetCached(buf: seq<Buf>, dev: nat, m: map<nat, int>, b: nat, x: nat, c: int, y: nat)
    requires Counts(buf, dev, m) && b < |buf| && HoldsBlock(buf[b], dev, x) && 0 <= c < UINT
    requires y in Put(m, x, c)
    ensures 0 < Put(m, x, c)[y] < UINT && Cached(buf[b := buf[b].(refcnt := c)], dev, y)
  {
    hide Busy;
    assert Cached(buf, dev, x);
    StillCached(buf, buf[b := buf[b].(refcnt := c)], dev, y);
  }

  /** The buffer of block x gets the count c. */
  lemma CountsSet(buf: seq<Buf>, dev: nat, m: map<nat, int>, b: nat, x: nat, c: int)
    requires |buf| == NBUF && Counts(buf, dev, m) && OneBufferPerBlock(buf) && dev != 0
    requires b < NBUF && HoldsBlock(buf[b], dev, x) && 0 <= c < UINT
    ensures buf[b].refcnt == Cnt(m, x) && Counts(buf[b := buf[b].(refcnt := c)], dev, Put(m, x, c))
  {
    hide OneBufferPerBlock, Busy, Cached, HoldsBlock, Put, Cnt;
    var buf' := buf[b := buf[b].(refcnt := c)];
    var m' := Put(m, x, c);
    forall i | 0 <= i < |buf'|
      ensures buf'[i].refcnt == if buf'[i].dev == dev then Cnt(m', buf'[i].blockno) else 0
    {
      CountsSetAt(buf, dev, m, b, x, c, i);
    }
    forall y | y in m'
      ensures 0 < m'[y] < UINT && Cached(buf', dev, y)
    {
      CountsSetCached(buf, dev, m, b, x, c, y);
    }
    CountAt(buf, dev, m, b, x);
    BusyOne(buf, buf', b);
    PutSize(m, x, c);
  }

  lemma StillCached(buf: seq<Buf>, buf': seq<Buf>, dev: nat, y: nat)
    requires |buf'| == |buf| && Cached(buf, dev, y)
    requires forall i :: 0 <= i < |buf| ==> buf'[i].dev == buf[i].dev && buf'[i].blockno == buf[i].blockno
    ensures Cached(buf', dev, y)
  {
    var i :| 0 <= i < |buf| && HoldsBlock(buf[i], dev, y);
    assert HoldsBlock(buf'[i], dev, y);
  }

  lemma OtherBlock(buf: seq<Buf>, dev: nat, b: nat, i: nat)
    requires OneBufferPerBlock(buf) && b < |buf| && i < |buf| && i != b && dev != 0 && buf[b].dev == dev
    ensures buf[i].dev == dev ==> buf[i].blockno != buf[b].blockno
  {
    if i < b {
      assert buf[i].dev != 0 && buf[i].dev == buf[b].dev ==> buf[i].blockno != buf[b].blockno;
    }
  }

  lemma BusyOne(buf: seq<Buf>, buf': seq<Buf>, b: nat)
    requires |buf'| == |buf| && b < |buf| && forall i :: 0 <= i < |buf| && i != b ==> buf'[i] == buf[i]
    ensures |Busy(buf')| == |Busy(buf)| + (if buf'[b].refcnt != 0 then 1 else 0) - (if buf[b].refcnt != 0 then 1 else 0)
  {
    var rest := Busy(buf) - {b};
    assert Busy(buf') == if buf'[b].refcnt != 0 then rest + {b} else rest;
    assert Busy(buf) == if buf[b].refcnt != 0 then rest + {b} else rest;
  }

  lemma PutSize(m: map<nat, int>, x: nat, c: int)
    ensures |Put(m, x, c)| == |m| + (if c != 0 then 1 else 0) - (if x in m then 1 else 0)
  {
    var rest := m - {x};
    assert x in m ==> m == rest[x := m[x]];
    assert x !in m ==> m == rest;
    assert m[x := c] == rest[x := c];
  }

  /** An unused buffer is given to block x. */
  lemma CountsRecycle(buf: seq<Buf>, dev: nat, m: map<nat, int>, b: nat, x: nat)
    requires |buf| == NBUF && Counts(buf, dev, m) && b < NBUF && buf[b].refcnt == 0 && !Cached(buf, dev, x)
    ensures x !in m && Counts(buf[b := Buf(dev, x, 1, false)], dev, m[x := 1])
  {
    var buf' := buf[b := Buf(dev, x, 1, false)];
    forall i | 0 <= i < NBUF && i != b
      ensures buf'[i].refcnt == if buf'[i].dev == dev then Cnt(m[x := 1], buf'[i].blockno) else 0
    {
      assert !HoldsBlock(buf[i], dev, x);
    }
    forall y | y in m
      ensures y != x && Cached(buf', dev, y)
    {
      var i :| 0 <= i < |buf| && HoldsBlock(buf[i], dev, y);
      assert buf[i].refcnt == m[y] != 0;
      assert HoldsBlock(buf'[i], dev, y);
    }
    assert HoldsBlock(buf'[b], dev, x);
    BusyOne(buf, buf', b);
  }

  /** What a round does to the counts. */
  lemma RoundCounts(m: map<nat, int>, log: nat, home: nat)
    requires log != home && log !in m && forall x :: x in m ==> 0 < m[x] < UINT
    ensures var m2 := Put(Put(m, log, 1), home, Inc(Cnt(m, home)));
            var m3 := Put(m2, home, Dec(Cnt(m2, home)));
            var m4 := Put(m3, log, Dec(Cnt(m3, log)));
            m4 == m && Put(m4, home, Dec(Cnt(m4, home))) == Put(m, home, Dec(Cnt(m, home)))
  {
    var m2 := Put(Put(m, log, 1), home, Inc(Cnt(m, home)));
    var m3 := Put(m2, home, Dec(Cnt(m2, home)));
    assert Cnt(m2, home) == Inc(Cnt(m, home));
    assert m3 == m[log := 1];
    assert m3 - {log} == m;
  }

  lemma UnusedCounts(buf: seq<Buf>, dev: nat)
    requires forall b :: 0 <= b < |buf| ==> buf[b].refcnt == 0
    ensures Counts(buf, dev, map[])
  {
    assert Busy(buf) == {};
  }

  lemma WrappedMore(lh: seq<nat>, k: nat)
    requires k < |lh| && lh[k] !in lh[..k]
    ensures WrappedCounts(lh[..k + 1]) == WrappedCounts(lh[..k])[lh[k] := UINT - 1]
  {
    assert lh[..k + 1] == lh[..k] + [lh[k]];
  }

  lemma {:induction false} WrappedSize(lh: seq<nat>, k: nat)
    requires k <= |lh| && forall i, j :: 0 <= i < j < |lh| ==> lh[i] != lh[j]
    ensures |WrappedCounts(lh[..k])| == k && (k < |lh| ==> lh[k] !in lh[..k])
    ensures forall x :: x in WrappedCounts(lh[..k]) <==> x in lh[..k]
    ensures k == 0 ==> WrappedCounts(lh[..k]) == map[]
  {
    if k > 0 {
      WrappedSize(lh, k - 1);
      WrappedMore(lh, k - 1);
    } else {
      assert lh[..0] == [];
    }
  }

  lemma CountsZero(buf: seq<Buf>, dev: nat, m: map<nat, int>)
    requires Counts(buf, dev, m)
    ensures (forall b :: 0 <= b < |buf| ==> buf[b].refcnt == 0) <==> |m| == 0
  {
    if |m| == 0 {
      assert Busy(buf) == {};
      forall b | 0 <= b < |buf|
        ensures buf[b].refcnt == 0
      {
        assert b !in Busy(buf);
      }
    }
    if forall b :: 0 <= b < |buf| ==> buf[b].refcnt == 0 {
      assert Busy(buf) == {};
    }
  }

  /** After such a recovery the next user of a recovered block holds a buffer whose count is zero, which
      `FindVictim` may give to another block. */
  method RecoveredBlockUnprotected(c: Cache, dev: nat, lh: seq<nat>, x: nat) returns (b: nat)
    requires c.Valid() && dev != 0 && Counts(c.buf, dev, WrappedCounts(lh)) && x in lh
    modifies c
    ensures c.Valid() && b < NBUF && HoldsBlock(c.buf[b], dev, x) && c.buf[b].refcnt == 0
  {
    hide Linked, Stamped, Shape, OneBufferPerBlock;
    b := c.GetBlock(dev, x, WrappedCounts(lh));
  }
}
