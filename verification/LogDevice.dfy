/** The loops of kernel/log.c as they run: each reads and writes blocks through the buffer cache,
    and a ghost trace records the disk after every block write. The trace is what a crash can find. */
module LogDevice {
  import opened LogDisk

  /** The list of logged blocks after `log_write` of block b: absorbed if already there. */
  function Absorb(lh: seq<Word>, b: Word): (r: seq<Word>) {
    if b in lh then lh else lh + [b]
  }

  /** The list after several calls of `log_write`, in the order in which they get the lock. */
  function AbsorbAll(lh: seq<Word>, bs: seq<Word>): (r: seq<Word>) {
    if bs == [] then lh else Absorb(AbsorbAll(lh, bs[..|bs| - 1]), bs[|bs| - 1])
  }

  datatype Outcome = Ok | Panic

  lemma AppendAssoc<T>(s: seq<T>, t: seq<T>, u: seq<T>)
    ensures s + t + u == s + (t + u)
  {
  }

  class Log {
    const area: Area
    var disk: Disk
    var cache: map<nat, Block>  // contents of the valid buffers
    var lh: seq<Word>           // log.lh.block[0..n)
    var outstanding: nat
    ghost var trace: seq<Disk>  // the disk after each bwrite

    /** Every cached block that is not logged equals its copy on disk. */
    ghost predicate Valid()
      reads this
    {
      && Fits(area, disk)
      && |lh| <= LOGSIZE && |lh| < area.size
      && (forall i :: 0 <= i < |lh| ==> Home(area, disk, lh[i]))
      && (forall b :: b in cache ==> b < |disk| && (b !in lh ==> cache[b] == disk[b]))
    }

    /** Mounting a disk: nothing is cached and no block is logged. */
    constructor (area: Area, disk: Disk)
      requires Fits(area, disk)
      ensures Valid() && this.area == area && this.disk == disk
      ensures cache == map[] && lh == [] && outstanding == 0 && trace == []
    {
      this.area, this.disk, this.cache, this.lh, this.outstanding := area, disk, map[], [], 0;
      this.trace := [];
    }

    method Bread(b: nat) returns (data: Block)
      requires Valid() && b < |disk|
      modifies this`cache
      ensures Valid() && b in cache && data == cache[b]
      ensures cache == if b in old(cache) then old(cache) else old(cache)[b := disk[b]]
    {
      if b !in cache {
        cache := cache[b := disk[b]];
      }
      data := cache[b];
    }

    /** Change the data of a buffer and write it to disk. */
    method Bwrite(b: nat, data: Block)
      requires Fits(area, disk) && b < |disk|
      modifies this`cache, this`disk, this`trace
      ensures cache == old(cache)[b := data] && disk == old(disk)[b := data]
      ensures trace == old(trace) + [disk]
    {
      cache := cache[b := data];
      disk := disk[b := data];
      trace := trace + [disk];
    }

    method WriteHead()
      requires Valid()
      modifies this`cache, this`disk, this`trace
      ensures Valid()
      ensures disk == old(disk)[area.start := SetHead(old(disk)[area.start], lh)]
      ensures trace == old(trace) + [disk]
      ensures cache.Keys == old(cache).Keys + {area.start}
      ensures forall b :: b in lh && b in old(cache) ==> cache[b] == old(cache)[b]
    {
      var hb := Bread(area.start);
      ghost var hb0 := hb;
      hb := hb[0 := |lh|];
      for i := 0 to |lh|
        invariant hb[0] == |lh|
        invariant forall j :: 0 <= j < i ==> hb[1 + j] == lh[j]
        invariant forall j :: i < j < WORDS ==> hb[j] == hb0[j]
      {
        hb := hb[1 + i := lh[i]];
      }
      assert hb == SetHead(hb0, lh);
      Bwrite(area.start, hb);
    }

    method ReadHead()
      requires Fits(area, disk) && ValidHead(area, disk)
      requires forall b :: b in cache ==> b < |disk| && cache[b] == disk[b]
      modifies this`cache, this`lh
      ensures Valid() && HeadLists(area, disk, lh)
      ensures forall b :: b in cache ==> b < |disk| && cache[b] == disk[b]
    {
      lh := [];
      var hb := Bread(area.start);
      var n := hb[0];
      for i := 0 to n
        modifies this`lh
        invariant |lh| == i
        invariant forall j :: 0 <= j < i ==> lh[j] == hb[1 + j]
      {
        lh := lh + [hb[1 + i]];
      }
    }

    /** One iteration of `write_log`. */
    method CopyToLog(tail: nat)
      requires Valid() && tail < |lh| && lh[tail] in cache
      modifies this`cache, this`disk, this`trace
      ensures Valid()
      ensures disk == old(disk)[area.start + tail + 1 := old(cache)[lh[tail]]]
      ensures trace == old(trace) + [disk]
      ensures forall b :: b in lh && b in old(cache) ==> b in cache && cache[b] == old(cache)[b]
    {
      var to := Bread(area.start + tail + 1);
      var from := Bread(lh[tail]);
      Bwrite(area.start + tail + 1, from);
    }

    method WriteLog()
      requires Valid() && Committable(area, disk, lh, cache)
      modifies this`cache, this`disk, this`trace
      ensures Valid() && Committable(area, old(disk), lh, cache)
      ensures forall b :: b in lh ==> cache[b] == old(cache)[b]
      ensures disk == LogWritten(area, old(disk), lh, old(cache), |lh|)
      ensures trace == old(trace) + LogTrace(area, old(disk), lh, old(cache), |lh|)
    {
      hide LogWritten, LogTrace;
      LogTraceStart(area, disk, lh, cache);
      for tail := 0 to |lh|
        invariant Valid() && |disk| == |old(disk)|
        invariant forall b :: b in lh ==> b in cache && cache[b] == old(cache)[b]
        invariant disk == LogWritten(area, old(disk), lh, old(cache), tail)
        invariant trace == old(trace) + LogTrace(area, old(disk), lh, old(cache), tail)
      {
        LogTraceStep(area, old(disk), lh, old(cache), tail);
        CopyToLog(tail);
        AppendAssoc(old(trace), LogTrace(area, old(disk), lh, old(cache), tail), [disk]);
      }
    }

    ghost predicate Installed(b: nat)
      reads this
    {
      b in cache && b < |disk| && cache[b] == disk[b]
    }

    /** One iteration of `install_trans`. */
    method CopyHome(tail: nat)
      requires Valid() && tail < |lh|
      modifies this`cache, this`disk, this`trace
      ensures Valid()
      ensures disk == old(disk)[lh[tail] := old(disk)[area.start + tail + 1]]
      ensures trace == old(trace) + [disk]
      ensures Installed(lh[tail])
      ensures forall i :: 0 <= i < |lh| && old(Installed(lh[i])) ==> Installed(lh[i])
    {
      var lbuf := Bread(area.start + tail + 1);
      var dbuf := Bread(lh[tail]);
      Bwrite(lh[tail], lbuf);
    }

    /** Copies the logged blocks home; the header on disk must already name them. */
    method InstallTrans()
      requires Valid() && HeadLists(area, disk, lh)
      modifies this`cache, this`disk, this`trace
      ensures Valid()
      ensures disk == Install(area, old(disk), |lh|)
      ensures trace == old(trace) + RecoveryTrace(area, old(disk), |lh|)
      ensures forall i :: 0 <= i < |lh| ==> Installed(lh[i])
    {
      hide Install, RecoveryTrace, GoodHead;
      RecoveryTraceStart(area, disk);
      for tail := 0 to |lh|
        invariant Valid() && |disk| == |old(disk)|
        invariant disk == Install(area, old(disk), tail)
        invariant trace == old(trace) + RecoveryTrace(area, old(disk), tail)
        invariant forall i :: 0 <= i < tail ==> Installed(lh[i])
      {
        InstallStep(area, old(disk), lh, tail);
        RecoveryTraceStep(area, old(disk), tail);
        CopyHome(tail);
        AppendAssoc(old(trace), RecoveryTrace(area, old(disk), tail), [disk]);
      }
    }

    /** `install_trans`, `log.lh.n = 0`, `write_head`: the common end of a commit and a recovery. */
    method InstallAndClear()
      requires Valid() && HeadLists(area, disk, lh)
      modifies this`cache, this`disk, this`trace, this`lh
      ensures Valid() && lh == []
      ensures disk == Recovered(area, old(disk))
      ensures trace == old(trace) + RecoveryTrace(area, old(disk), |old(lh)| + 1)
    {
      InstallTrans();
      lh := [];
      WriteHead();
    }

    /** `write_log`, `write_head`: up to the write that commits. */
    method WriteTransaction()
      requires Valid() && Committable(area, disk, lh, cache)
      modifies this`cache, this`disk, this`trace
      ensures Valid()
      ensures disk == Committed(area, old(disk), lh, old(cache))
      ensures trace == old(trace) + LogTrace(area, old(disk), lh, old(cache), |lh|) + [disk]
    {
      WriteLog();
      WriteHead();
    }

    /** The block writes of `commit` are exactly the ones that `CommitDisk` lists, in that order,
        and they leave an empty log and a cache that agrees with the disk. */
    method Commit()
      requires Valid() && Committable(area, disk, lh, cache)
      modifies this`cache, this`disk, this`trace, this`lh
      ensures Valid() && lh == []
      ensures old(lh) == [] ==> disk == old(disk) && trace == old(trace)
      ensures old(lh) != [] ==>
                && disk == Recovered(area, Committed(area, old(disk), old(lh), old(cache)))
                && trace == old(trace) + CommitTrace(area, old(disk), old(lh), old(cache))
    {
      if |lh| > 0 {
        WriteTransaction();
        ghost var c, t := disk, LogTrace(area, old(disk), lh, old(cache), |lh|);
        InstallAndClear();
        AppendAssoc(old(trace), t, [c]);
        AppendAssoc(old(trace), t + [c], RecoveryTrace(area, c, |old(lh)| + 1));
      }
    }

    /** `recover_from_log` turns the disk it finds into `Recovered`, and every disk on the way is one
        that `RecoveryDisk` lists. */
    method RecoverFromLog()
      requires ValidHead(area, disk) && cache == map[]
      modifies this`cache, this`disk, this`trace, this`lh
      ensures Valid() && lh == []
      ensures disk == Recovered(area, old(disk))
      ensures trace == old(trace) + RecoveryTrace(area, old(disk), HeadN(area, old(disk)) + 1)
    {
      ReadHead();
      InstallAndClear();
    }

    /** The tests at the top of `log_write`, made without the lock. They come before the search, so a
        full log panics even for a block that would be absorbed. */
    method LogTest() returns (r: Outcome)
      ensures r == Panic <==> |lh| >= LOGSIZE || |lh| >= area.size - 1 || outstanding < 1
    {
      if |lh| >= LOGSIZE || |lh| >= area.size - 1 {
        return Panic;
      }
      if outstanding < 1 {
        return Panic;
      }
      return Ok;
    }

    /** The rest of `log_write`, under the lock and without a test. */
    method LogAppend(b: Word)
      modifies this`lh
      ensures lh == Absorb(old(lh), b)
    {
      var i := 0;
      while i < |lh|
        invariant 0 <= i <= |lh|
        invariant b !in lh[..i]
      {
        if lh[i] == b {
          break;
        }
        i := i + 1;
      }
      lh := lh[..i] + [b] + if i == |lh| then [] else lh[i + 1..];
    }

    /** `log_write` on one CPU, while others append the blocks `between` after its tests and before it
        has the lock. What it tested is what the list was, not what it appends to. */
    method LogWrite(b: Word, between: seq<Word>) returns (r: Outcome)
      modifies this`lh
      ensures r == Panic <==> |old(lh)| >= LOGSIZE || |old(lh)| >= area.size - 1 || outstanding < 1
      ensures r == Panic ==> lh == old(lh)
      ensures r == Ok ==> lh == Absorb(AbsorbAll(old(lh), between), b)
    {
      r := LogTest();
      if r == Ok {
        for k := 0 to |between|
          invariant lh == AbsorbAll(old(lh), between[..k])
        {
          LogAppend(between[k]);
          assert between[..k + 1][..k] == between[..k];
        }
        assert between[..|between|] == between;
        LogAppend(b);
      }
    }
  }

  /** Every logged block is in the list once, and what was there stays in its place. */
  lemma {:induction false} AbsorbedOnce(lh: seq<Word>, bs: seq<Word>)
    requires forall i, j :: 0 <= i < j < |lh| ==> lh[i] != lh[j]
    ensures var r := AbsorbAll(lh, bs);
            && lh <= r && (forall b :: b in r <==> b in lh || b in bs)
            && forall i, j :: 0 <= i < j < |r| ==> r[i] != r[j]
  {
    if bs != [] {
      AbsorbedOnce(lh, bs[..|bs| - 1]);
      assert bs == bs[..|bs| - 1] + [bs[|bs| - 1]];
    }
  }
}
