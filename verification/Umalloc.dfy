/** The storage allocator of user/umalloc.c. Addresses are in units of one header; `grant` is the break
    when sbrk is asked for more, or -1 if sbrk fails. The argument and the result of sbrk are ints. */
module Umalloc {
  import opened HeapList
  import opened HeapRing

  const UNIT := 16
  const INT_END := 0x8000_0000

  /** The largest request for which morecore's argument to sbrk is an int. */
  const MAX_REQUEST := 0x7fff_ffe0

  type Uint = x: int | 0 <= x < 0x1_0000_0000

  /** How a call ends: it returns, the process is killed by a fault, or sbrk returns an address that is not
      the break and the model follows it no further. */
  datatype Outcome = Finished | Killed | Astray

  /** The int that a longer value is cut to. */
  function ToInt(x: int): (n: int)
    ensures -INT_END <= n < INT_END && (n == x <==> -INT_END <= x < INT_END)
  {
    (x + INT_END) % 0x1_0000_0000 - INT_END
  }

  /** The break after sbrk(n): a shrink by more than there is does nothing. */
  function Brk(sz: int, n: int): (sz': int) {
    if sz + n >= 0 then sz + n else sz
  }

  /** The units that sbrk has given after it was called with argument n and break `at`. */
  ghost function GivenAfter(given: set<int>, at: int, n: int): (r: set<int>) {
    var end := Brk(UNIT * at, n) / UNIT;
    if end >= at then given + Span(at, end - at) else given - Span(end, at - end)
  }

  /** (nbytes + sizeof(Header) - 1) / sizeof(Header) + 1. */
  function Units(nbytes: nat): (n: nat) {
    (nbytes + UNIT - 1) / UNIT + 1
  }

  /** The units a call of morecore asks for. */
  function Request(nu: int): (n: int)
    ensures n >= 4096 && n >= nu
  {
    if nu < 4096 then 4096 else nu
  }

  /** The header that morecore writes lies below the size of the process, or in a page that has a frame after
      the call of sbrk all the same. Otherwise the fault kills the process. */
  predicate Survives(n: int, mapped: bool) {
    n > 0 || mapped
  }

  ghost function Span(a: int, n: nat): (r: set<int>)
    ensures forall u :: u in r <==> a <= u < a + n
  {
    if n == 0 then {} else Span(a, n - 1) + {a + n - 1}
  }

  lemma LiveAt(mem: map<int, Header>, bs: seq<Blk>, live: map<int, int>, a: int)
    requires LiveOk(mem, bs, live) && a in live && Ordered(bs)
    ensures live[a] > 0 && a in mem && mem[a].size == live[a] && Clear(bs, Blk(a, live[a])) && |bs| > 0 && bs[0].a < a
  {
  }

  /** Index of the block e steps after block f in the ring. */
  function Ix(f: int, e: int, n: int): (i: int)
    requires 0 <= f < n && 0 <= e <= n
    ensures 0 <= i < n
  {
    if f + e < n then f + e else f + e - n
  }

  /** Steps from i to j around the ring. */
  function Distance(i: int, j: int, n: int): (d: int)
    requires 0 <= i < n && 0 <= j < n
    ensures 0 <= d < n
  {
    if i <= j then j - i else n - i + j
  }

  class Heap {
    const base: int
    var mem: map<int, Header>
    var freep: int
    ghost var bs: seq<Blk>             // the ring in address order, from base on
    ghost var live: map<int, int>      // blocks in use and their sizes
    ghost var claimed: set<int>        // units of all blocks, as the headers have them
    var top: int                       // the end of the last region
    ghost var given: set<int>          // units sbrk has given and not taken back
    var brk: int                       // the break after the last call of sbrk

    ghost predicate Valid()
      reads this
    {
      && NULL < base < top
      && Covered(bs, live, claimed)
      && (forall u :: u in claimed ==> base < u < top)
      && (if freep == NULL then bs == [] && live == map[] else Started())
    }

    /** The blocks are made of exactly the units that sbrk has given. */
    ghost predicate Sound()
      reads this
    {
      Valid() && claimed == given && brk == top
    }

    ghost predicate Started()
      reads this
    {
      && Ordered(bs) && Coalesced(bs) && Ring(mem, bs) && bs[0] == Blk(base, 0)
      && LiveOk(mem, bs, live)
      && IsFree(freep)
    }

    ghost predicate IsFree(p: int)
      reads this
    {
      exists i :: 0 <= i < |bs| && bs[i].a == p
    }

    constructor (base: int)
      requires NULL < base
      ensures Sound() && live == map[] && claimed == {} && top == base + 1 && this.base == base
    {
      this.base, mem, freep, bs, live, claimed, top := base, map[], NULL, [], map[], {}, base + 1;
      given, brk := {}, base + 1;
    }

    /** The search loop of `free`: the block to insert bp after. */
    method FindPlace(bp: int) returns (p: int, ghost j: int)
      requires Valid() && freep != NULL && bp in live
      ensures Place(bs, j, Blk(bp, live[bp])) && bs[j].a == p
    {
      hide Coalesced, Covered, Ordered, Ring, LiveOk, Clear, Place;
      ghost var b := Blk(bp, live[bp]);
      LiveAt(mem, bs, live, bp);
      p := freep;
      j :| 0 <= j < |bs| && bs[j].a == freep;
      ghost var goal := PlaceExists(bs, b, 0);
      RingAt(mem, bs, j);
      while !(bp > p && bp < mem[p].ptr)
        invariant 0 <= j < |bs| && bs[j].a == p && p in mem && mem[p] == Header(bs[Succ(j, |bs|)].a, bs[j].n)
        decreases Distance(j, goal, |bs|)
      {
        if p >= mem[p].ptr && (bp > p || bp < mem[p].ptr) {
          break;
        }
        NotYet(mem, bs, j, b);
        PlaceOnce(bs, b, j, goal);
        p := mem[p].ptr;
        j := Succ(j, |bs|);
        RingAt(mem, bs, j);
      }
      FoundPlace(mem, bs, j, b);
    }

    /** `free`. The units of the block are free again, and nothing else changes. */
    method Free(ap: int)
      requires Valid() && ap - 1 in live
      modifies this`mem, this`freep, this`bs, this`live
      ensures Valid() && live == Remove(old(live), ap - 1) && freep != NULL
      ensures forall u :: InFree(bs, u) <==> InFree(old(bs), u) || InBlock(Blk(ap - 1, old(live)[ap - 1]), u)
      ensures FreepReaches(bs, freep, old(live)[ap - 1])
    {
      hide Coalesced, Covered, Ordered, Ring, LiveOk, Clear, Place, InFree, InBlock, Freed;
      var bp := ap - 1;
      var p: int;
      ghost var j;
      p, j := FindPlace(bp);
      ghost var b := Blk(bp, live[bp]);
      LiveAt(mem, bs, live, bp);
      PlaceIn(bs, j, b);
      FreeMemory(mem, bs, j, b);
      ghost var bs1, mem0, live0 := Freed(bs, j, b), mem, live;
      var q := mem[p].ptr;
      if bp + mem[bp].size == q {
        mem := mem[bp := Header(mem[q].ptr, mem[bp].size + mem[q].size)];
      } else {
        mem := mem[bp := Header(q, mem[bp].size)];
      }
      if p + mem[p].size == bp {
        mem := mem[p := Header(mem[bp].ptr, mem[p].size + mem[bp].size)];
      } else {
        mem := mem[p := Header(bp, mem[p].size)];
      }
      freep := p;
      assert mem == JoinDown(JoinUp(mem0, p, bp), p, bp);
      FreedOk(bs, j, b);
      LiveFreed(mem0, bs, live, j, bp, mem);
      CoveredFreed(bs, live, claimed, bp, bs1);
      FreedFirst(bs, j, b);
      bs := bs1;
      live := Remove(live, bp);
      assert bs[j].a == p;
    }

    /** `morecore`. The headers take nu units to be there, whatever sbrk was asked for. `mapped` says that the
        page at the break has a frame after the call of sbrk. */
    method Morecore(nu0: Uint, grant: int, mapped: bool) returns (p: int, how: Outcome)
      requires Valid() && freep != NULL && nu0 > 0 && (grant == -1 || grant >= top)
      modifies this
      ensures Valid() && freep != NULL && live == old(live)
      ensures how == Astray <==> grant != -1 && UNIT * grant >= INT_END
      ensures how == Killed <==>
                grant != -1 && UNIT * grant < INT_END && !Survives(ToInt(UNIT * Request(nu0)), mapped)
      ensures grant == -1 || how != Finished ==>
                p == NULL && claimed == old(claimed) && given == old(given) && brk == old(brk) && mem == old(mem)
                && bs == old(bs) && freep == old(freep) && top == old(top)
      ensures grant != -1 && how == Finished ==>
                && p == freep && FreepReaches(bs, freep, nu0)
                && claimed == old(claimed) + Span(grant, Request(nu0)) && top == grant + Request(nu0)
                && given == GivenAfter(old(given), grant, ToInt(UNIT * Request(nu0)))
                && brk == Brk(UNIT * grant, ToInt(UNIT * Request(nu0))) / UNIT
    {
      hide Coalesced, Covered, Ordered, Ring, LiveOk, FreepReaches, GivenAfter, ToInt, Survives, Span, Brk;
      var nu: int := nu0;
      if nu < 4096 {
        nu := 4096;
      }
      if grant == -1 {
        return NULL, Finished;
      }
      var n := ToInt(UNIT * nu);
      if ToInt(UNIT * grant) != UNIT * grant {
        return NULL, Astray;
      }
      if !Survives(n, mapped) {
        return NULL, Killed;
      }
      AddRegion(grant, nu);
      given := GivenAfter(given, grant, n);
      brk := Brk(UNIT * grant, n) / UNIT;
      Reaches(bs, freep, nu0, nu);
      p, how := freep, Finished;
    }

    /** The header of a new region is written, and the region is freed as one block. */
    method AddRegion(hp: int, nu: int)
      requires Valid() && freep != NULL && nu > 0 && hp >= top
      modifies this`mem, this`freep, this`bs, this`live, this`claimed, this`top
      ensures Valid() && freep != NULL && live == old(live) && FreepReaches(bs, freep, nu)
      ensures claimed == old(claimed) + Span(hp, nu) && top == hp + nu
    {
      hide Coalesced, Covered, Ordered, Ring, LiveOk, Clear, Place, InFree, InBlock, FreepReaches;
      var h := Header(if hp in mem then mem[hp].ptr else 0, nu);
      Granted(mem, bs, live, claimed, base, top, hp, h);
      ghost var live0 := live;
      mem := mem[hp := h];
      live := live[hp := nu];
      claimed := claimed + Span(hp, nu);
      top := hp + nu;
      Free(hp + 1);
      assert live == live0;
    }

    /** The end of `malloc`: nu units of block k, whose predecessor in the ring is prevp. */
    method Take(prevp: int, p0: int, ghost k: int, nu: int) returns (r: int)
      requires Valid() && freep != NULL && 1 <= k < |bs| && 0 < nu <= bs[k].n && p0 == bs[k].a && prevp == bs[k - 1].a
      modifies this`mem, this`freep, this`bs, this`live
      ensures Valid() && freep != NULL && r - 1 !in old(live) && live == old(live)[r - 1 := nu] && r != NULL
      ensures bs == Cut(old(bs), k, nu)
    {
      hide Coalesced, Covered, Ordered, Ring, LiveOk, Clear, InFree, InBlock, Drop, Shrink;
      var p := p0;
      ghost var b := CutBlock(bs, k, nu);
      RingAt(mem, bs, k);
      RingAt(mem, bs, k - 1);
      CutOk(bs, k, nu);
      CutFirst(bs, k, nu);
      AboveBase(bs, k);
      AboveBase(bs, k - 1);
      ghost var mem0 := mem;
      if mem[p].size == nu {
        DropRing(mem, bs, k);
        mem := mem[prevp := mem[prevp].(ptr := mem[p].ptr)];
      } else {
        ghost var h := Header(if b.a in mem then mem[b.a].ptr else 0, nu);
        ShrinkRing(mem, bs, k, nu, h);
        mem := mem[p := mem[p].(size := mem[p].size - nu)];
        p := p + mem[p].size;
        mem := mem[p := Header(if p in mem then mem[p].ptr else 0, nu)];
      }
      LiveCut(mem0, bs, live, k, nu, mem);
      CoveredCut(bs, live, claimed, b, Cut(bs, k, nu));
      freep := prevp;
      bs := Cut(bs, k, nu);
      live := live[p := nu];
      r := p + 1;
    }

    /** A call that finds no block large enough asks sbrk for more, and sbrk does not fail. */
    ghost predicate Grows(nbytes: Uint, grant: int)
      reads this
    {
      NoFit(bs, Units(nbytes)) && grant != -1
    }

    /** `malloc`. It returns null iff nothing fits and sbrk fails; a block it returns was not in use. If it had
        to ask for more and returns, the blocks are still made of what sbrk has given exactly when the request
        is at most MAX_REQUEST bytes. A larger one may also be the end of the process. */
    method Malloc(nbytes: Uint, grant: int, mapped: bool) returns (r: int, how: Outcome)
      requires Sound() && (grant == -1 || grant >= top)
      modifies this
      ensures Valid() && (how != Finished ==> r == NULL)
      ensures how == Astray <==> old(Grows(nbytes, grant)) && UNIT * grant >= INT_END
      ensures how == Killed <==>
                && old(Grows(nbytes, grant)) && UNIT * grant < INT_END
                && !Survives(ToInt(UNIT * Request(Units(nbytes))), mapped)
      ensures how == Killed ==> nbytes > MAX_REQUEST
      ensures r == NULL <==>
                (forall i :: 0 <= i < |old(bs)| ==> old(bs)[i].n < Units(nbytes)) && (grant == -1 || how != Finished)
      ensures r == NULL ==> live == old(live)
      ensures r != NULL ==>
                && r - 1 !in old(live) && live == old(live)[r - 1 := Units(nbytes)]
                && nbytes <= UNIT * (Units(nbytes) - 1) < nbytes + UNIT
      ensures how == Finished ==> (Sound() <==> !old(Grows(nbytes, grant)) || nbytes <= MAX_REQUEST)
      ensures how == Finished && !Sound() ==> brk < top
      ensures claimed ==
              if old(Grows(nbytes, grant)) && how == Finished then old(claimed) + Span(grant, Request(Units(nbytes)))
              else old(claimed)
      ensures given ==
              if old(Grows(nbytes, grant)) && how == Finished then
                GivenAfter(old(given), grant, ToInt(UNIT * Request(Units(nbytes))))
              else old(given)
      ensures top == if old(Grows(nbytes, grant)) && how == Finished then grant + Request(Units(nbytes)) else old(top)
      ensures old(Grows(nbytes, grant)) && how == Finished ==>
                brk == Brk(UNIT * grant, ToInt(UNIT * Request(Units(nbytes)))) / UNIT
    {
      hide Coalesced, Covered, Ordered, Ring, LiveOk, InFree, FreepReaches, Cut, Span, NoFit, Units, GivenAfter, ToInt,
           Brk, Request;
      var nunits := Units(nbytes);
      UnitsEnough(nbytes);
      NoFitIs(bs, nunits);
      ghost var bs0 := if freep == NULL then [Blk(base, 0)] else bs;
      NoFitBase(bs, bs0, base, nunits);
      Start();
      if grant != -1 {
        SoundIff(claimed, given, grant, nbytes);
      }
      ghost var grown := false;
      while true
        invariant Valid() && freep != NULL && live == old(live)
        invariant grown ==> FreepReaches(bs, freep, nunits)
        invariant !grown ==> bs == bs0 && Sound() && claimed == old(claimed) && given == old(given) && top == old(top)
        invariant grown ==>
                    && NoFit(bs0, nunits) && grant != -1 && UNIT * grant < INT_END
                    && Survives(ToInt(UNIT * Request(nunits)), mapped)
                    && claimed == old(claimed) + Span(grant, Request(nunits)) && top == grant + Request(nunits)
                    && given == GivenAfter(old(given), grant, ToInt(UNIT * Request(nunits)))
                    && brk == Brk(UNIT * grant, ToInt(UNIT * Request(nunits))) / UNIT
        decreases if grown then 0 else 1
      {
        var found, prevp, p;
        ghost var k;
        found, prevp, p, k := Search(nunits);
        if found {
          Fits(bs, k, nunits);
          r := Take(prevp, p, k, nunits);
          return r, Finished;
        }
        if grown {
          ReachesFits(bs, freep, nunits);
        }
        p, how := Morecore(nunits, grant, mapped);
        if p == NULL {
          return NULL, how;
        }
        grown := true;
      }
    }

    /** One round of the search loop of `malloc`, from the block after freep to freep: the first block that
        is large enough and the block before it. */
    method Search(nunits: int) returns (found: bool, prevp: int, p: int, ghost k: int)
      requires Valid() && freep != NULL && nunits > 0
      ensures found ==> 1 <= k < |bs| && bs[k].n >= nunits && p == bs[k].a && prevp == bs[k - 1].a
      ensures !found ==> NoFit(bs, nunits)
    {
      hide Coalesced, Covered, Ordered, Ring, LiveOk, InFree, Small, NoFit;
      ghost var f, d := FreepIx(), 1;
      prevp := freep;
      RingAt(mem, bs, f);
      SmallNone(bs, f, nunits);
      p, k := mem[prevp].ptr, Ix(f, 1, |bs|);
      while true
        invariant 1 <= d <= |bs| && k == Ix(f, d, |bs|)
        invariant p == bs[k].a && prevp == bs[Ix(f, d - 1, |bs|)].a
        invariant Small(bs, f, d, nunits)
        decreases |bs| - d
      {
        RingAt(mem, bs, k);
        if mem[p].size >= nunits {
          NotFirst(bs, k);
          return true, prevp, p, k;
        }
        SameBlock(bs, f, d);
        SmallStep(bs, f, d, nunits);
        if p == freep {
          AllSmall(bs, f, nunits);
          return false, prevp, p, k;
        }
        prevp := p;
        p := mem[p].ptr;
        d := d + 1;
        k := Ix(f, d, |bs|);
      }
    }

    /** The first call makes the ring of base alone. */
    method Start()
      requires Valid()
      modifies this`mem, this`freep, this`bs
      ensures Valid() && freep != NULL && bs == if old(freep) == NULL then [Blk(base, 0)] else old(bs)
    {
      hide Coalesced, Covered, Ordered, Ring, LiveOk;
      if freep == NULL {
        freep := base;
        mem := mem[base := Header(base, 0)];
        bs := [Blk(base, 0)];
        OnlyBase(mem, bs, base, claimed);
        assert bs[0].a == freep;
      }
    }

    lemma HomeOf(u: int)
      requires Valid() && u in claimed
      ensures InFree(bs, u) != InLive(live, u)
    {
      if freep != NULL {
        OneHome(mem, bs, live, claimed, u);
      }
    }

    /** The new block at a meets none of the blocks that were in use before. */
    lemma LiveApartFrom(a: int, live0: map<int, int>)
      requires Valid() && a in live && a !in live0 && live == live0[a := live[a]]
      ensures NotLive(live0, a, live[a])
    {
      hide InFree, Covered, Ring, Coalesced;
      forall b | b in live0
        ensures b + live0[b] <= a || a + live[a] <= b
      {
        assert b in live && live[b] == live0[b];
        assert a < b ==> End(Blk(a, live[a])) <= b;
        assert b < a ==> End(Blk(b, live[b])) <= a;
      }
    }

    /** The position of freep in the list. */
    ghost function FreepIx(): (f: int)
      requires Started()
      reads this
      ensures 0 <= f < |bs| && bs[f].a == freep
    {
      var f :| 0 <= f < |bs| && bs[f].a == freep; f
    }
  }

  ghost predicate NoFit(bs: seq<Blk>, n: int) {
    forall i :: 0 <= i < |bs| ==> bs[i].n < n
  }

  lemma CutFirst(bs: seq<Blk>, k: int, n: int)
    requires 1 <= k < |bs|
    ensures |Cut(bs, k, n)| >= k && Cut(bs, k, n)[0] == bs[0] && Cut(bs, k, n)[k - 1] == bs[k - 1]
  {
  }

  lemma OnlyBase(mem: map<int, Header>, bs: seq<Blk>, base: int, obtained: set<int>)
    requires bs == [Blk(base, 0)] && base in mem && mem[base] == Header(base, 0) && Covered([], map[], obtained)
    ensures Ordered(bs) && Coalesced(bs) && Ring(mem, bs) && LiveOk(mem, bs, map[]) && Covered(bs, map[], obtained)
  {
  }

  /** The blocks after freep that the search has passed are too small. */
  ghost predicate Small(bs: seq<Blk>, f: int, d: int, n: int)
    requires 0 <= f < |bs| && d <= |bs| + 1
  {
    forall e :: 1 <= e < d ==> bs[Ix(f, e, |bs|)].n < n
  }

  lemma SmallNone(bs: seq<Blk>, f: int, n: int)
    requires 0 <= f < |bs|
    ensures Small(bs, f, 1, n)
  {
  }

  lemma SmallStep(bs: seq<Blk>, f: int, d: int, n: int)
    requires 0 <= f < |bs| && 1 <= d <= |bs| && Small(bs, f, d, n) && bs[Ix(f, d, |bs|)].n < n
    ensures Small(bs, f, d + 1, n)
  {
  }

  lemma Fits(bs: seq<Blk>, k: int, n: int)
    requires 0 <= k < |bs| && bs[k].n >= n
    ensures !NoFit(bs, n)
  {
  }

  lemma AboveBase(bs: seq<Blk>, k: int)
    requires Ordered(bs) && 0 <= k < |bs|
    ensures bs[0].a <= bs[k].a
  {
  }

  lemma NotFirst(bs: seq<Blk>, k: int)
    requires Ordered(bs) && 0 <= k < |bs| && bs[k].n > 0
    ensures k >= 1
  {
  }

  /** After d steps from freep the search is back at freep iff it has made the full round. */
  lemma SameBlock(bs: seq<Blk>, f: int, d: int)
    requires Ordered(bs) && 0 <= f < |bs| && 1 <= d <= |bs|
    ensures bs[Ix(f, d, |bs|)].a == bs[f].a <==> d == |bs|
  {
    hide Ordered;
    Distinct(bs);
  }

  lemma AllSmall(bs: seq<Blk>, f: int, n: int)
    requires 0 <= f < |bs| && Small(bs, f, |bs| + 1, n)
    ensures NoFit(bs, n)
  {
    forall i | 0 <= i < |bs|
      ensures bs[i].n < n
    {
      var e := if i > f then i - f else i - f + |bs|;
      assert Ix(f, e, |bs|) == i;
    }
  }

  lemma ReachesFits(bs: seq<Blk>, freep: int, n: int)
    requires FreepReaches(bs, freep, n)
    ensures !NoFit(bs, n)
  {
    var j :| 0 <= j < |bs| && bs[j].a == freep && (bs[j].n >= n || bs[Succ(j, |bs|)].n >= n);
    assert bs[j].n >= n || bs[Succ(j, |bs|)].n >= n;
  }

  lemma UnitsEnough(nbytes: Uint)
    ensures 0 < Units(nbytes) < 0x1_0000_0000 && nbytes <= UNIT * (Units(nbytes) - 1) < nbytes + UNIT
  {
  }

  lemma NoFitIs(bs: seq<Blk>, n: int)
    ensures NoFit(bs, n) <==> forall i :: 0 <= i < |bs| ==> bs[i].n < n
  {
  }

  /** What sbrk gives is what the headers claim exactly when its argument is not cut. */
  lemma SoundIff(claimed: set<int>, given: set<int>, grant: nat, nbytes: Uint)
    requires claimed == given
    ensures var nu := Request(Units(nbytes));
            var n := ToInt(UNIT * nu);
            && (nbytes <= MAX_REQUEST ==>
                  claimed + Span(grant, nu) == GivenAfter(given, grant, n) && Brk(UNIT * grant, n) / UNIT == grant + nu)
            && (nbytes > MAX_REQUEST ==> Brk(UNIT * grant, n) / UNIT < grant + nu)
            && (nbytes <= MAX_REQUEST ==> n > 0)
  {
  }

  lemma HugeUnits()
    ensures Request(Units(0xffff_ffff)) == Units(0xffff_ffff) == 0x1000_0001
    ensures ToInt(UNIT * Request(Units(0xffff_ffff))) == UNIT
  {
  }

  /** The largest request on a fresh heap: sbrk is asked for 16 bytes and gives one unit, and the block that
      malloc returns has 2^28 + 1. The break is left inside the block, so the next region that sbrk gives
      overlaps it. */
  method HugeRequest(h: Heap, grant: nat, mapped: bool) returns (r: int)
    requires h.Sound() && h.freep == NULL && h.given == {} && grant >= h.top && UNIT * grant < INT_END
    modifies h
    ensures h.live == map[grant := 0x1000_0001] && r == grant + 1
    ensures h.given == {grant} && h.brk == grant + 1 && !h.Sound()
  {
    hide ToInt, Units, Request, Span, Brk, GivenAfter, Covered, Ordered, Coalesced, Ring, LiveOk;
    HugeUnits();
    OneUnit(grant);
    var how;
    r, how := h.Malloc(0xffff_ffff, grant, mapped);
    OnlyBlock(h.bs, h.live, h.claimed, r - 1, 0x1000_0001, grant);
  }

  lemma OneUnit(grant: nat)
    ensures GivenAfter({}, grant, UNIT) == {grant} && Brk(UNIT * grant, UNIT) / UNIT == grant + 1
  {
    assert UNIT * grant + UNIT == UNIT * (grant + 1);
    assert Span(grant, 0) == {};
  }

  /** A block as large as all units there are starts where they start. */
  lemma OnlyBlock(bs: seq<Blk>, live: map<int, int>, claimed: set<int>, a: int, n: nat, grant: int)
    requires Covered(bs, live, claimed) && a in live && live[a] == n > 0 && claimed == {} + Span(grant, n)
    ensures a == grant
  {
    hide InFree, Span;
    assert InBlock(Blk(a, n), a) && InBlock(Blk(a, n), a + n - 1);
    assert InLive(live, a) && InLive(live, a + n - 1);
  }

  lemma NoFitBase(was: seq<Blk>, bs0: seq<Blk>, base: int, n: int)
    requires n > 0 && (bs0 == was || (was == [] && bs0 == [Blk(base, 0)]))
    ensures NoFit(was, n) == NoFit(bs0, n)
  {
  }

  lemma Reaches(bs: seq<Blk>, freep: int, n: int, m: int)
    requires FreepReaches(bs, freep, m) && n <= m
    ensures FreepReaches(bs, freep, n)
  {
    var j :| 0 <= j < |bs| && bs[j].a == freep && (bs[j].n >= m || bs[Succ(j, |bs|)].n >= m);
    assert bs[j].a == freep && (bs[j].n >= n || bs[Succ(j, |bs|)].n >= n);
  }

  /** A new region from sbrk is a block in use, above all others. */
  lemma Granted(mem: map<int, Header>, bs: seq<Blk>, live: map<int, int>, obtained: set<int>, base: int, top: int,
                hp: int, h: Header)
    requires Ordered(bs) && bs[0] == Blk(base, 0) && Ring(mem, bs) && LiveOk(mem, bs, live)
             && Covered(bs, live, obtained)
    requires base < top <= hp && h.size > 0 && forall u :: u in obtained ==> base < u < top
    ensures hp !in live && Ring(mem[hp := h], bs) && LiveOk(mem[hp := h], bs, live[hp := h.size])
    ensures Covered(bs, live[hp := h.size], obtained + Span(hp, h.size))
  {
    assert |bs| > 0;
    hide Ring, Covered, Ordered, Clear, LiveOk;
    forall i | 0 <= i < |bs|
      ensures bs[i].a < hp && End(bs[i]) <= hp
    {
      FreeBelow(bs, live, obtained, base, top, i);
    }
    forall a | a in live
      ensures a < hp && End(Blk(a, live[a])) <= hp
    {
      LiveBelow(mem, bs, live, obtained, base, top, a);
    }
    GrantedRing(mem, bs, hp, h);
    GrantedLive(mem, bs, live, base, hp, h);
    CoveredMore(bs, live, obtained, hp, h.size);
  }

  lemma FreeBelow(bs: seq<Blk>, live: map<int, int>, obtained: set<int>, base: int, top: int, i: int)
    requires Ordered(bs) && bs[0] == Blk(base, 0) && Covered(bs, live, obtained) && 0 <= i < |bs| && base < top
    requires forall u :: u in obtained ==> base < u < top
    ensures bs[i].a < top && End(bs[i]) <= top
  {
    if i > 0 {
      assert InBlock(bs[i], End(bs[i]) - 1);
      assert InFree(bs, End(bs[i]) - 1);
    }
  }

  lemma LiveBelow(mem: map<int, Header>, bs: seq<Blk>, live: map<int, int>, obtained: set<int>, base: int, top: int,
                  a: int)
    requires LiveOk(mem, bs, live) && Covered(bs, live, obtained) && a in live
    requires forall u :: u in obtained ==> base < u < top
    ensures a < top && End(Blk(a, live[a])) <= top
  {
    hide InFree, Clear;
    var b := Blk(a, live[a]);
    assert InBlock(b, End(b) - 1);
    assert InLive(live, End(b) - 1);
  }

  lemma GrantedRing(mem: map<int, Header>, bs: seq<Blk>, hp: int, h: Header)
    requires Ring(mem, bs) && forall i :: 0 <= i < |bs| ==> bs[i].a < hp
    ensures Ring(mem[hp := h], bs)
  {
  }

  lemma GrantedLive(mem: map<int, Header>, bs: seq<Blk>, live: map<int, int>, base: int, hp: int, h: Header)
    requires LiveOk(mem, bs, live) && h.size > 0 && |bs| > 0 && bs[0] == Blk(base, 0) && base < hp
    requires forall i :: 0 <= i < |bs| ==> End(bs[i]) <= hp
    requires forall a :: a in live ==> a < hp && End(Blk(a, live[a])) <= hp
    ensures hp !in live && LiveOk(mem[hp := h], bs, live[hp := h.size])
  {
  }

  lemma CoveredMore(bs: seq<Blk>, live: map<int, int>, obtained: set<int>, hp: int, n: nat)
    requires Covered(bs, live, obtained) && hp !in live
    ensures Covered(bs, live[hp := n], obtained + Span(hp, n))
  {
    hide InFree;
    var live' := live[hp := n];
    forall u
      ensures u in obtained + Span(hp, n) <==> InFree(bs, u) || InLive(live', u)
    {
      if InLive(live, u) {
        var x :| x in live && InBlock(Blk(x, live[x]), u);
        assert x in live' && InBlock(Blk(x, live'[x]), u);
      }
      if u in Span(hp, n) {
        assert hp in live' && InBlock(Blk(hp, live'[hp]), u);
      }
      if InLive(live', u) {
        var x :| x in live' && InBlock(Blk(x, live'[x]), u);
        assert x == hp || x in live;
      }
    }
  }

  /** freep or the block after it has at least n units. */
  ghost predicate FreepReaches(bs: seq<Blk>, freep: int, n: int) {
    exists j :: 0 <= j < |bs| && bs[j].a == freep && (bs[j].n >= n || bs[Succ(j, |bs|)].n >= n)
  }

  lemma PlaceIn(bs: seq<Blk>, j: int, b: Blk)
    requires Place(bs, j, b) && Ordered(bs)
    ensures 0 <= j < |bs| && bs[0].a <= bs[j].a
  {
  }

  /** The two joins make the ring of the new list. */
  lemma FreeMemory(mem: map<int, Header>, bs: seq<Blk>, j: int, b: Blk)
    requires Ordered(bs) && Coalesced(bs) && Ring(mem, bs) && Place(bs, j, b) && Clear(bs, b) && b.n > 0
             && b.a in mem && mem[b.a].size == b.n
    ensures bs[j].a in mem && mem[bs[j].a].ptr in mem && bs[j].a != b.a
    ensures var mem1 := JoinUp(mem, bs[j].a, b.a); Ring(JoinDown(mem1, bs[j].a, b.a), Freed(bs, j, b))
  {
    hide Ordered, Ring, Clear, InsertAt, MergeAt, JoinUp, JoinDown, AlmostRing;
    UpRing(mem, bs, j, b);
    ApartAt(bs, b, j);
    var r := Up(bs, j, b);
    UpOrdered(bs, j, b);
    DownRing(JoinUp(mem, bs[j].a, b.a), r, j);
  }

  lemma UpOrdered(bs: seq<Blk>, j: int, b: Blk)
    requires Ordered(bs) && Coalesced(bs) && Place(bs, j, b) && Clear(bs, b) && b.n > 0
    ensures Ordered(Up(bs, j, b))
  {
    hide Ordered, InsertAt, MergeAt;
    InsertOrdered(bs, j, b);
    if Touch(InsertAt(bs, j, b), j + 1) {
      MergeOrdered(InsertAt(bs, j, b), j + 1);
    }
  }

  /** Block j stays where it is, and it or its successor holds the new block. */
  lemma FreedFirst(bs: seq<Blk>, j: int, b: Blk)
    requires Ordered(bs) && Coalesced(bs) && Place(bs, j, b) && Clear(bs, b) && b.n > 0
    ensures |Freed(bs, j, b)| > j && Freed(bs, j, b)[j].a == bs[j].a && Freed(bs, j, b)[0] == bs[0]
    ensures FreepReaches(Freed(bs, j, b), bs[j].a, b.n)
  {
    var r := Up(bs, j, b);
    UpIx(bs, j, b, j);
    UpIx(bs, j, b, j + 1);
    UpIx(bs, j, b, 0);
    UpOrdered(bs, j, b);
    var f := Freed(bs, j, b);
    assert f == if Touch(r, j) then MergeAt(r, j) else r;
    hide Up, Freed, Clear;
    if Touch(r, j) {
      NotBase(r, j);
      MergeIx(r, j, j);
      MergeIx(r, j, 0);
    }
    hide MergeAt;
    assert 0 <= j < |f| && f[j].a == bs[j].a && (f[j].n >= b.n || f[Succ(j, |f|)].n >= b.n);
  }

  /** Conservation: a unit obtained from sbrk is in exactly one block, free or in use. */
  lemma OneHome(mem: map<int, Header>, bs: seq<Blk>, live: map<int, int>, obtained: set<int>, u: int)
    requires Ordered(bs) && LiveOk(mem, bs, live) && Covered(bs, live, obtained) && u in obtained
    ensures InFree(bs, u) != InLive(live, u)
    ensures forall a, b :: a in live && b in live && InBlock(Blk(a, live[a]), u) && InBlock(Blk(b, live[b]), u) ==>
              a == b
    ensures forall i, k :: 0 <= i < |bs| && 0 <= k < |bs| && InBlock(bs[i], u) && InBlock(bs[k], u) ==> i == k
  {
    forall i, k | 0 <= i < k < |bs|
      ensures !(InBlock(bs[i], u) && InBlock(bs[k], u))
    {
      assert End(bs[i]) <= bs[k].a;
    }
    forall i, a | 0 <= i < |bs| && a in live
      ensures !(InBlock(bs[i], u) && InBlock(Blk(a, live[a]), u))
    {
      assert Clear(bs, Blk(a, live[a]));
    }
  }

  // ---------------------------------------------------------------- every run

  datatype Command = DoMalloc(nbytes: Uint, granted: bool, gap: nat, mapped: bool) | DoFree(ap: int)

  /** The blocks in use after a call that returned r. A free of an address that malloc did not return is
      skipped. */
  function LiveAfter(live: map<int, int>, c: Command, r: int): (live': map<int, int>) {
    match c
    case DoMalloc(nbytes, _, _, _) => if r == NULL then live else live[r - 1 := Units(nbytes)]
    case DoFree(ap) => Remove(live, ap - 1)
  }

  ghost function LiveAfterAll(live: map<int, int>, cmds: seq<Command>, rs: seq<int>): (live': map<int, int>)
    requires |cmds| == |rs|
  {
    if |cmds| == 0 then live
    else
      var k := |cmds| - 1;
      LiveAfter(LiveAfterAll(live, cmds[..k], rs[..k]), cmds[k], rs[k])
  }

  /** Block [a, a + n) meets no block in use. */
  ghost predicate NotLive(live: map<int, int>, a: int, n: int) {
    forall b :: b in live ==> b + live[b] <= a || a + n <= b
  }

  /** A call of malloc succeeds if sbrk would, and gives a block of the right size that meets no other. */
  ghost predicate ReturnOk(live: map<int, int>, c: Command, r: int) {
    && (c.DoMalloc? && c.granted ==> r != NULL)
    && (c.DoMalloc? && r != NULL ==> NotLive(live, r - 1, Units(c.nbytes)) && c.nbytes <= UNIT * (Units(c.nbytes) - 1))
  }

  ghost predicate ReturnsOk(live: map<int, int>, cmds: seq<Command>, rs: seq<int>)
    requires |cmds| == |rs|
  {
    forall k :: 0 <= k < |cmds| ==> ReturnOk(LiveAfterAll(live, cmds[..k], rs[..k]), cmds[k], rs[k])
  }

  /** The most that a call can move the end of the heap. */
  function Growth(c: Command): (n: nat) {
    if c.DoMalloc? && c.granted then c.gap + Request(Units(c.nbytes)) else 0
  }

  function Reach(top: int, cmds: seq<Command>): (r: int)
    ensures r >= top
  {
    if |cmds| == 0 then top else Reach(top, cmds[..|cmds| - 1]) + Growth(cmds[|cmds| - 1])
  }

  /** With the heap ending at `top`, the call may pass sbrk an argument, or get from it an address, that is
      no int. */
  predicate Beyond(top: int, c: Command) {
    c.DoMalloc? && c.granted && (c.nbytes > MAX_REQUEST || UNIT * (top + c.gap) >= INT_END)
  }

  /** One call. It leaves the model, and `ok` is false, exactly when it has to grow the heap and that is
      beyond the ints. */
  method Step(h: Heap, c: Command, blocks: set<int>) returns (r: int, blocks': set<int>, ok: bool)
    requires h.Sound() && blocks == h.live.Keys
    modifies h
    ensures ok <==> !(c.DoMalloc? && NoFit(old(h.bs), Units(c.nbytes)) && Beyond(old(h.top), c))
    ensures ok ==>
              && h.Sound() && blocks' == h.live.Keys && h.top <= old(h.top) + Growth(c)
              && h.live == LiveAfter(old(h.live), c, r) && ReturnOk(old(h.live), c, r)
  {
    hide Covered, Ordered, Coalesced, Ring, InFree, InLive, Span, NoFit, Units, LiveOk, Remove, NotLive, GivenAfter,
         ToInt, Request;
    r, blocks', ok := NULL, blocks, true;
    match c {
      case DoMalloc(nbytes, granted, gap, mapped) =>
        var grant := if granted then h.top + gap else -1;
        ghost var grows := h.Grows(nbytes, grant);
        var how;
        r, how := h.Malloc(nbytes, grant, mapped);
        ok := how == Finished && (nbytes <= MAX_REQUEST || h.brk == h.top);
        if r != NULL {
          blocks' := blocks + {r - 1};
          h.LiveApartFrom(r - 1, old(h.live));
        }
      case DoFree(ap) =>
        if ap - 1 in blocks {
          h.Free(ap);
        }
        RemoveKeys(old(h.live), ap - 1);
        blocks' := blocks - {ap - 1};
    }
  }

  /** Any sequence of calls, with sbrk failing or giving memory at any distance above the last, up to the
      first that is beyond the ints. The blocks in use are those that were returned and not freed since, none
      of them overlapped another when it was returned, and every unit that sbrk gave is in exactly one block.
      If no request is larger than MAX_REQUEST and the heap stays below 2^31, all the calls are made. */
  method Run(h: Heap, cmds: seq<Command>) returns (rs: seq<int>)
    requires h.Sound() && h.live == map[]
    modifies h
    ensures |rs| <= |cmds| && ReturnsOk(map[], cmds[..|rs|], rs)
    ensures |rs| == |cmds| ==>
              && h.Sound() && h.live == LiveAfterAll(map[], cmds, rs)
              && forall u :: u in h.given ==> InFree(h.bs, u) != InLive(h.live, u)
    ensures |rs| < |cmds| ==> Beyond(Reach(old(h.top), cmds[..|rs|]), cmds[|rs|])
    ensures (forall k :: 0 <= k < |cmds| ==> !Beyond(Reach(old(h.top), cmds[..k]), cmds[k])) ==> |rs| == |cmds|
  {
    hide Covered, Ordered, Coalesced, Ring, InFree, InLive, LiveOk, LiveAfter, ReturnOk, Growth, NoFit;
    var blocks: set<int> := {};
    rs := [];
    for i := 0 to |cmds|
      invariant h.Sound() && blocks == h.live.Keys && |rs| == i && h.top <= Reach(old(h.top), cmds[..i])
      invariant h.live == LiveAfterAll(map[], cmds[..i], rs) && ReturnsOk(map[], cmds[..i], rs)
    {
      var r, ok;
      r, blocks, ok := Step(h, cmds[i], blocks);
      if !ok {
        return;
      }
      Returned(cmds, rs, i, r);
      assert cmds[..i + 1][..i] == cmds[..i];
      rs := rs + [r];
    }
    assert cmds[..|cmds|] == cmds;
    forall u | u in h.given
      ensures InFree(h.bs, u) != InLive(h.live, u)
    {
      h.HomeOf(u);
    }
  }

  lemma RemoveKeys(live: map<int, int>, a: int)
    ensures Remove(live, a).Keys == live.Keys - {a} && (a !in live ==> Remove(live, a) == live)
  {
  }

  /** One more call. */
  lemma Returned(cmds: seq<Command>, rs: seq<int>, i: nat, r: int)
    requires |rs| == i < |cmds| && ReturnsOk(map[], cmds[..i], rs)
    requires ReturnOk(LiveAfterAll(map[], cmds[..i], rs), cmds[i], r)
    ensures LiveAfterAll(map[], cmds[..i + 1], rs + [r]) == LiveAfter(LiveAfterAll(map[], cmds[..i], rs), cmds[i], r)
    ensures ReturnsOk(map[], cmds[..i + 1], rs + [r])
  {
    hide ReturnOk, LiveAfter;
    var cs, ts := cmds[..i + 1], rs + [r];
    assert cs[..i] == cmds[..i] && ts[..i] == rs;
    forall k | 0 <= k < |cs|
      ensures ReturnOk(LiveAfterAll(map[], cs[..k], ts[..k]), cs[k], ts[k])
    {
      if k < i {
        assert cs[..k] == cmds[..i][..k] && ts[..k] == rs[..k];
      }
    }
  }
}
