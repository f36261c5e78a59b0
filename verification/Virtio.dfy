/** The virtio disk driver (kernel/virtio_disk.c) and its device. Driver steps run under vdisk_lock; the
    device takes posted chains in order and completes them in any order. */
module Virtio {
  import opened Sets

  const NUM := 8
  const UINT16 := 0x1_0000

  /** The fields that make a chain: VRING_DESC_F_NEXT and next. */
  datatype Desc = Desc(more: bool, next: int)

  /** Posted to the avail ring, taken by the device, put on the used ring, or seen by virtio_disk_intr. */
  datatype Phase = Posted | Taken | Used | Finished

  /** A request in the table: its other two descriptors, its buffer and how far it is. */
  datatype Req = Req(d1: int, d2: int, b: int, phase: Phase)

  predicate InChain(h: int, r: Req, i: int) {
    i == h || i == r.d1 || i == r.d2
  }

  /** Three different descriptors, linked, not free, with the buffer recorded at the first. */
  predicate ChainOk(free: seq<bool>, desc: seq<Desc>, info: seq<int>, h: int, r: Req)
    requires |free| == NUM && |desc| == NUM && |info| == NUM
  {
    && 0 <= h < NUM && 0 <= r.d1 < NUM && 0 <= r.d2 < NUM && h != r.d1 && h != r.d2 && r.d1 != r.d2
    && desc[h] == Desc(true, r.d1) && desc[r.d1] == Desc(true, r.d2) && !desc[r.d2].more
    && !free[h] && !free[r.d1] && !free[r.d2]
    && info[h] == r.b
  }

  predicate Apart(h: int, r: Req, g: int, q: Req) {
    && h != g && h != q.d1 && h != q.d2
    && r.d1 != g && r.d1 != q.d1 && r.d1 != q.d2
    && r.d2 != g && r.d2 != q.d1 && r.d2 != q.d2
    && r.b != q.b
  }

  /** The chains of the requests in the table do not overlap. */
  ghost predicate ChainsOk(free: seq<bool>, desc: seq<Desc>, info: seq<int>, reqs: map<int, Req>) {
    && |free| == NUM && |desc| == NUM && |info| == NUM
    && (forall h :: h in reqs ==> ChainOk(free, desc, info, h, reqs[h]))
    && (forall h, g :: h in reqs && g in reqs && h != g ==> Apart(h, reqs[h], g, reqs[g]))
  }

  ghost predicate FreeOrUsed(free: seq<bool>, reqs: map<int, Req>, i: int)
    requires |free| == NUM && 0 <= i < NUM
  {
    free[i] || exists h :: h in reqs && InChain(h, reqs[h], i)
  }

  /** A descriptor that is not free is in a chain. */
  ghost predicate Complement(free: seq<bool>, reqs: map<int, Req>)
    requires |free| == NUM
  {
    forall i :: 0 <= i < NUM ==> FreeOrUsed(free, reqs, i)
  }

  /** A ring shared with the device: entries lo..|log| of the log are the requests in the given phase, each
      once, and are still in the ring. idx is the 16-bit index of the writer. */
  ghost predicate RingOk(ring: seq<int>, idx: int, log: seq<int>, lo: int, reqs: map<int, Req>, phase: Phase) {
    && |ring| == NUM && 0 <= lo <= |log| && idx == |log| % UINT16
    && (forall k :: lo <= k < |log| ==> log[k] in reqs && reqs[log[k]].phase == phase && ring[k % NUM] == log[k])
    && (forall k, m :: lo <= k < m < |log| ==> log[k] != log[m])
    && (forall h :: h in reqs && reqs[h].phase == phase ==> h in log[lo..])
  }

  /** b->disk is 1 until the request is finished. */
  ghost predicate BusyOk(busy: set<int>, reqs: map<int, Req>) {
    forall h :: h in reqs ==> (reqs[h].b in busy <==> reqs[h].phase != Finished)
  }

  // ---------------------------------------------------------------- at most two chains

  ghost function Below(n: nat): (s: set<int>)
    ensures |s| == n && forall i :: i in s <==> 0 <= i < n
  {
    if n == 0 then {} else Below(n - 1) + {n - 1}
  }

  lemma AtMostNum(s: set<int>)
    requires forall i :: i in s ==> 0 <= i < NUM
    ensures |s| <= NUM
  {
    var t := Below(NUM);
    hide Below;
    assert t == s + (t - s);
  }

  /** The descriptors of a request. */
  ghost function Chain(h: int, r: Req): (s: set<int>) {
    {h, r.d1, r.d2}
  }

  lemma ChainSize(h: int, r: Req)
    requires h != r.d1 && h != r.d2 && r.d1 != r.d2
    ensures |Chain(h, r)| == 3
  {
  }

  lemma ChainAt(free: seq<bool>, desc: seq<Desc>, info: seq<int>, reqs: map<int, Req>, h: int)
    requires ChainsOk(free, desc, info, reqs) && h in reqs
    ensures ChainOk(free, desc, info, h, reqs[h]) && |Chain(h, reqs[h])| == 3
    ensures forall i :: i in Chain(h, reqs[h]) ==> 0 <= i < NUM
  {
    ChainSize(h, reqs[h]);
  }

  lemma ApartAt(free: seq<bool>, desc: seq<Desc>, info: seq<int>, reqs: map<int, Req>, h: int, g: int)
    requires ChainsOk(free, desc, info, reqs) && h in reqs && g in reqs && h != g
    ensures Apart(h, reqs[h], g, reqs[g]) && Chain(h, reqs[h]) !! Chain(g, reqs[g])
  {
  }

  /** Disjoint sets of descriptors have at most NUM elements together. */
  lemma UnionSize(a: set<int>, b: set<int>, c: set<int>)
    requires a !! b && a !! c && b !! c
    requires (forall i :: i in a ==> 0 <= i < NUM) && (forall i :: i in b ==>
                 0 <= i < NUM) && (forall i :: i in c ==> 0 <= i < NUM)
    ensures |a| + |b| + |c| <= NUM
  {
    var ab := a + b;
    assert |ab| == |a| + |b|;
    var abc := ab + c;
    assert |abc| == |ab| + |c|;
    AtMostNum(abc);
  }

  /** No three requests fit into the table. */
  lemma TwoAtMost(free: seq<bool>, desc: seq<Desc>, info: seq<int>, reqs: map<int, Req>, f: int, g: int, h: int)
    requires ChainsOk(free, desc, info, reqs) && f in reqs && g in reqs && h in reqs
    ensures f == g || g == h || f == h
  {
    hide ChainsOk, ChainOk, Apart, Chain;
    if f != g && g != h && f != h {
      var a, b, c := Chain(f, reqs[f]), Chain(g, reqs[g]), Chain(h, reqs[h]);
      ChainAt(free, desc, info, reqs, f);
      ChainAt(free, desc, info, reqs, g);
      ChainAt(free, desc, info, reqs, h);
      ApartAt(free, desc, info, reqs, f, g);
      ApartAt(free, desc, info, reqs, f, h);
      ApartAt(free, desc, info, reqs, g, h);
      UnionSize(a, b, c);
    }
  }

  lemma RingAt(ring: seq<int>, idx: int, log: seq<int>, lo: int, reqs: map<int, Req>, phase: Phase, k: int)
    requires RingOk(ring, idx, log, lo, reqs, phase) && lo <= k < |log|
    ensures log[k] in reqs && reqs[log[k]].phase == phase && ring[k % NUM] == log[k]
    ensures forall m :: lo <= m < |log| && m != k ==> log[m] != log[k]
  {
  }

  lemma Pick(s: set<int>) returns (x: int)
    requires |s| > 0
    ensures x in s && |s - {x}| == |s| - 1
  {
    assert exists y :: y in s by {
      assert s != {};
      if forall y :: y !in s {
        assert false;
      }
    }
    x :| x in s;
  }

  lemma KeyCount(reqs: map<int, Req>)
    ensures |reqs.Keys| == |reqs|
  {
  }

  /** Three requests would be three different keys. */
  lemma AtMostTwo(free: seq<bool>, desc: seq<Desc>, info: seq<int>, reqs: map<int, Req>)
    requires ChainsOk(free, desc, info, reqs)
    ensures |reqs| <= 2
  {
    hide ChainsOk;
    KeyCount(reqs);
    var keys := reqs.Keys;
    if |keys| > 2 {
      var f := Pick(keys);
      var g := Pick(keys - {f});
      var h := Pick(keys - {f} - {g});
      TwoAtMost(free, desc, info, reqs, f, g, h);
    }
  }

  /** With two requests fewer than three descriptors are free. */
  lemma TwoAreMany(free: seq<bool>, desc: seq<Desc>, info: seq<int>, reqs: map<int, Req>, i: int, j: int, k: int)
    requires ChainsOk(free, desc, info, reqs) && |reqs| >= 2 && |free| == NUM
    requires 0 <= i < NUM && 0 <= j < NUM && 0 <= k < NUM && i != j && i != k && j != k
    ensures !(free[i] && free[j] && free[k])
  {
    ChainsLength(free, desc, info, reqs);
    hide ChainsOk, Apart;
    KeyCount(reqs);
    var f := Pick(reqs.Keys);
    var g := Pick(reqs.Keys - {f});
    ChainAt(free, desc, info, reqs, f);
    ChainAt(free, desc, info, reqs, g);
    ApartAt(free, desc, info, reqs, f, g);
    if free[i] && free[j] && free[k] {
      assert |{i, j, k}| == 3;
      UnionSize(Chain(f, reqs[f]), Chain(g, reqs[g]), {i, j, k});
    }
  }

  /** With fewer, three are. */
  lemma OneIsFew(free: seq<bool>, reqs: map<int, Req>, idx: seq<int>)
    requires |free| == NUM && Complement(free, reqs) && |reqs| < 2 && |idx| < 3
    ensures exists k :: 0 <= k < NUM && free[k] && k !in idx
  {
    hide Complement;
    KeyCount(reqs);
    var used: set<int> := {};
    if |reqs| == 1 {
      var h := Pick(reqs.Keys);
      assert reqs.Keys - {h} == {};
      assert reqs.Keys == {h};
      used := Chain(h, reqs[h]);
      OnlyChain(free, reqs, h);
    } else {
      assert reqs.Keys == {};
      NoChain(free, reqs);
    }
    var a := if |idx| > 0 then {idx[0]} else {};
    var b := if |idx| > 1 then {idx[1]} else {};
    var k := Spare(used, a, b, NUM);
    assert k !in idx;
  }

  lemma NoChain(free: seq<bool>, reqs: map<int, Req>)
    requires |free| == NUM && Complement(free, reqs) && reqs.Keys == {}
    ensures forall k :: 0 <= k < NUM ==> free[k]
  {
    forall k | 0 <= k < NUM
      ensures free[k]
    {
      assert FreeOrUsed(free, reqs, k);
    }
  }

  lemma OnlyChain(free: seq<bool>, reqs: map<int, Req>, h: int)
    requires |free| == NUM && Complement(free, reqs) && h in reqs && reqs.Keys == {h}
    ensures forall k :: 0 <= k < NUM && !free[k] ==> k in Chain(h, reqs[h])
  {
    forall k | 0 <= k < NUM && !free[k]
      ensures k in Chain(h, reqs[h])
    {
      assert FreeOrUsed(free, reqs, k);
    }
  }

  lemma Spare(used: set<int>, a: set<int>, b: set<int>, n: nat) returns (k: int)
    requires |used| + |a| + |b| < n
    ensures 0 <= k < n && k !in used && k !in a && k !in b
  {
    var t := Below(n);
    hide Below;
    var v := used + a + b;
    UnionBound(used, a);
    UnionBound(used + a, b);
    assert t == (t - v) + (t * v);
    SubsetSize(t * v, v);
    assert t - v != {};
    k :| k in t - v;
  }

  lemma UnionBound(a: set<int>, b: set<int>)
    ensures |a + b| <= |a| + |b|
  {
    assert a + b == a + (b - a);
    SubsetSize(b - a, b);
  }

  /** The free flags are the complement of the chains. */
  lemma FreeIffUnused(free: seq<bool>, desc: seq<Desc>, info: seq<int>, reqs: map<int, Req>, i: int)
    requires ChainsOk(free, desc, info, reqs) && |free| == NUM && Complement(free, reqs) && 0 <= i < NUM
    ensures free[i] <==> !exists h :: h in reqs && InChain(h, reqs[h], i)
  {
    hide ChainsOk, Apart;
    assert FreeOrUsed(free, reqs, i);
    forall h | h in reqs && InChain(h, reqs[h], i)
      ensures !free[i]
    {
      ChainAt(free, desc, info, reqs, h);
    }
  }

  /** So a ring never has more than two entries that wait. */
  lemma RingShort(free: seq<bool>, desc: seq<Desc>, info: seq<int>, reqs: map<int, Req>, ring: seq<int>, idx: int,
                  log: seq<int>, lo: int, phase: Phase)
    requires ChainsOk(free, desc, info, reqs) && RingOk(ring, idx, log, lo, reqs, phase)
    ensures 0 <= lo <= |log| <= lo + 2 && |ring| == NUM && idx == |log| % UINT16
  {
    hide ChainsOk;
    if |log| > lo + 2 {
      RingAt(ring, idx, log, lo, reqs, phase, lo);
      RingAt(ring, idx, log, lo, reqs, phase, lo + 1);
      RingAt(ring, idx, log, lo, reqs, phase, lo + 2);
      TwoAtMost(free, desc, info, reqs, log[lo], log[lo + 1], log[lo + 2]);
    }
  }

  // ---------------------------------------------------------------- what the steps keep

  function SetPhase(reqs: map<int, Req>, h: int, phase: Phase): (r: map<int, Req>)
    requires h in reqs
  {
    reqs[h := reqs[h].(phase := phase)]
  }

  lemma PhaseKeeps(free: seq<bool>, desc: seq<Desc>, info: seq<int>, reqs: map<int, Req>, h: int, phase: Phase)
    requires ChainsOk(free, desc, info, reqs) && Complement(free, reqs) && h in reqs
    ensures ChainsOk(free, desc, info, SetPhase(reqs, h, phase)) && Complement(free, SetPhase(reqs, h, phase))
  {
    var r := SetPhase(reqs, h, phase);
    assert ChainsOk(free, desc, info, r) by { hide Complement; }
    hide ChainsOk;
    forall i | 0 <= i < NUM && !free[i]
      ensures FreeOrUsed(free, r, i)
    {
      assert FreeOrUsed(free, reqs, i);
      var g :| g in reqs && InChain(g, reqs[g], i);
      assert g in r && InChain(g, r[g], i);
    }
  }

  /** The oldest waiting entry leaves the ring. */
  lemma RingPop(ring: seq<int>, idx: int, log: seq<int>, lo: int, reqs: map<int, Req>, phase: Phase, later: Phase)
    requires RingOk(ring, idx, log, lo, reqs, phase) && lo < |log| && later != phase
    ensures log[lo] in reqs && RingOk(ring, idx, log, lo + 1, SetPhase(reqs, log[lo], later), phase)
  {
    assert log[lo..] == [log[lo]] + log[lo + 1..];
  }

  /** A request enters the ring; at most two wait, so its slot is not in use. */
  lemma RingPush(ring: seq<int>, idx: int, log: seq<int>, lo: int, reqs: map<int, Req>, phase: Phase, h: int, x: Req)
    requires RingOk(ring, idx, log, lo, reqs, phase) && |log| <= lo + 2
    requires (h in reqs ==> reqs[h].phase != phase) && x.phase == phase
    ensures 0 <= idx % NUM < |ring|
    ensures RingOk(ring[idx % NUM := h], (idx + 1) % UINT16, log + [h], lo, reqs[h := x], phase)
  {
    var n := |log|;
    assert idx % NUM == n % NUM by { Mod16(n); }
    assert (idx + 1) % UINT16 == (n + 1) % UINT16 by { Mod16(n); }
    assert (log + [h])[lo..] == log[lo..] + [h];
    forall k | lo <= k < n
      ensures k % NUM != n % NUM && log[k] != h
    {
      Near(k, n);
    }
  }

  lemma Mod16(n: nat)
    ensures n % UINT16 % NUM == n % NUM
    ensures (n % UINT16 + 1) % UINT16 == (n + 1) % UINT16
  {
    var q := n / UINT16;
    assert n == q * UINT16 + n % UINT16;
    assert q * UINT16 == (q * 8192) * NUM;
  }

  lemma Near(k: nat, n: nat)
    requires k < n <= k + 2
    ensures k % NUM != n % NUM
  {
  }

  /** A change of another phase does not touch the ring. */
  lemma RingOther(ring: seq<int>, idx: int, log: seq<int>, lo: int, reqs: map<int, Req>, phase: Phase, h: int, x: Req)
    requires RingOk(ring, idx, log, lo, reqs, phase) && x.phase != phase && (h in reqs ==> reqs[h].phase != phase)
    ensures RingOk(ring, idx, log, lo, reqs[h := x], phase)
  {
  }

  lemma RingOtherPhase(ring: seq<int>, idx: int, log: seq<int>, lo: int, reqs: map<int, Req>, phase: Phase, h: int,
                       later: Phase)
    requires RingOk(ring, idx, log, lo, reqs, phase) && h in reqs && reqs[h].phase != phase && later != phase
    ensures RingOk(ring, idx, log, lo, SetPhase(reqs, h, later), phase)
  {
    hide RingOk;
    RingOther(ring, idx, log, lo, reqs, phase, h, reqs[h].(phase := later));
  }

  lemma RingDrop(ring: seq<int>, idx: int, log: seq<int>, lo: int, reqs: map<int, Req>, phase: Phase, h: int)
    requires RingOk(ring, idx, log, lo, reqs, phase) && h in reqs && reqs[h].phase != phase
    ensures RingOk(ring, idx, log, lo, reqs - {h}, phase)
  {
  }

  function Cleared(free: seq<bool>, h: int, x: Req): (r: seq<bool>)
    requires |free| == NUM && 0 <= h < NUM && 0 <= x.d1 < NUM && 0 <= x.d2 < NUM
  {
    free[h := false][x.d1 := false][x.d2 := false]
  }

  function Linked(desc: seq<Desc>, h: int, x: Req): (r: seq<Desc>)
    requires |desc| == NUM && 0 <= h < NUM && 0 <= x.d1 < NUM && 0 <= x.d2 < NUM
  {
    desc[h := Desc(true, x.d1)][x.d1 := Desc(true, x.d2)][x.d2 := Desc(false, 0)]
  }

  /** A new chain of three free descriptors. */
  lemma NewChain(free: seq<bool>, desc: seq<Desc>, info: seq<int>, reqs: map<int, Req>, h: int, x: Req)
    requires ChainsOk(free, desc, info, reqs) && Complement(free, reqs)
    requires 0 <= h < NUM && 0 <= x.d1 < NUM && 0 <= x.d2 < NUM && h != x.d1 && h != x.d2 && x.d1 != x.d2
    requires free[h] && free[x.d1] && free[x.d2] && (forall g :: g in reqs ==> reqs[g].b != x.b)
    ensures h !in reqs
    ensures var free' := Cleared(free, h, x);
            |free'| == NUM && ChainsOk(free', Linked(desc, h, x), info[h := x.b], reqs[h := x])
                && Complement(free', reqs[h := x])
  {
    assert |free| == NUM && |desc| == NUM && |info| == NUM;
    hide Complement, ChainsOk, Apart, ChainOk;
    var free' := Cleared(free, h, x);
    var desc' := Linked(desc, h, x);
    var r := reqs[h := x];
    forall g | g in reqs
      ensures g != h && Apart(g, reqs[g], h, x) && Apart(h, x, g, reqs[g])
              && ChainOk(free', desc', info[h := x.b], g, reqs[g])
    {
      ChainAt(free, desc, info, reqs, g);
      OldChain(free, desc, info, g, reqs[g], h, x);
    }
    assert ChainOk(free', desc', info[h := x.b], h, x) by { NewIsChain(free, desc, info, h, x); }
    forall g, f | g in r && f in r && g != f
      ensures Apart(g, r[g], f, r[f])
    {
      if g != h && f != h {
        ApartAt(free, desc, info, reqs, g, f);
      }
    }
    ChainsFrom(free', desc', info[h := x.b], r);
    NewComplement(free, reqs, h, x);
  }

  lemma ChainsFrom(free: seq<bool>, desc: seq<Desc>, info: seq<int>, reqs: map<int, Req>)
    requires |free| == NUM && |desc| == NUM && |info| == NUM
    requires forall h :: h in reqs ==> ChainOk(free, desc, info, h, reqs[h])
    requires forall h, g :: h in reqs && g in reqs && h != g ==> Apart(h, reqs[h], g, reqs[g])
    ensures ChainsOk(free, desc, info, reqs)
  {
  }

  lemma NewIsChain(free: seq<bool>, desc: seq<Desc>, info: seq<int>, h: int, x: Req)
    requires |free| == NUM && |desc| == NUM && |info| == NUM
    requires 0 <= h < NUM && 0 <= x.d1 < NUM && 0 <= x.d2 < NUM && h != x.d1 && h != x.d2 && x.d1 != x.d2
    ensures ChainOk(free[h := false][x.d1 := false][x.d2 := false],
                    desc[h := Desc(true, x.d1)][x.d1 := Desc(true, x.d2)][x.d2 := Desc(false, 0)], info[h := x.b], h, x)
  {
  }

  /** A chain and a new one made of free descriptors. */
  lemma OldChain(free: seq<bool>, desc: seq<Desc>, info: seq<int>, g: int, q: Req, h: int, x: Req)
    requires |free| == NUM && |desc| == NUM && |info| == NUM && ChainOk(free, desc, info, g, q)
    requires 0 <= h < NUM && 0 <= x.d1 < NUM && 0 <= x.d2 < NUM && free[h] && free[x.d1] && free[x.d2] && q.b != x.b
    ensures g != h && Apart(g, q, h, x) && Apart(h, x, g, q)
    ensures ChainOk(free[h := false][x.d1 := false][x.d2 := false],
                    desc[h := Desc(true, x.d1)][x.d1 := Desc(true, x.d2)][x.d2 := Desc(false, 0)], info[h := x.b], g, q)
  {
  }

  lemma NewComplement(free: seq<bool>, reqs: map<int, Req>, h: int, x: Req)
    requires |free| == NUM && Complement(free, reqs) && h !in reqs && 0 <= h < NUM && 0 <= x.d1 < NUM && 0 <= x.d2 < NUM
    ensures Complement(free[h := false][x.d1 := false][x.d2 := false], reqs[h := x])
  {
    var r := reqs[h := x];
    var free' := free[h := false][x.d1 := false][x.d2 := false];
    forall i | 0 <= i < NUM && !free'[i]
      ensures FreeOrUsed(free', r, i)
    {
      if InChain(h, x, i) {
        assert h in r && InChain(h, r[h], i);
      } else {
        assert FreeOrUsed(free, reqs, i);
        var g :| g in reqs && InChain(g, reqs[g], i);
        assert g in r && InChain(g, r[g], i);
      }
    }
  }

  /** A chain is freed. */
  lemma EndChain(free: seq<bool>, desc: seq<Desc>, info: seq<int>, reqs: map<int, Req>, h: int)
    requires ChainsOk(free, desc, info, reqs) && Complement(free, reqs) && h in reqs && 0 <= h < NUM
    requires 0 <= reqs[h].d1 < NUM && 0 <= reqs[h].d2 < NUM
    ensures var free' := free[h := true][reqs[h].d1 := true][reqs[h].d2 := true];
            ChainsOk(free', desc, info[h := 0], reqs - {h}) && Complement(free', reqs - {h})
  {
    hide Complement;
    var x := reqs[h];
    var free' := free[h := true][x.d1 := true][x.d2 := true];
    var r := reqs - {h};
    forall g | g in r
      ensures ChainOk(free', desc, info[h := 0], g, r[g])
    {
      assert Apart(g, reqs[g], h, x) && ChainOk(free, desc, info, g, reqs[g]);
    }
    EndComplement(free, reqs, h);
  }

  lemma EndComplement(free: seq<bool>, reqs: map<int, Req>, h: int)
    requires |free| == NUM && Complement(free, reqs) && h in reqs && 0 <= h < NUM && 0 <= reqs[h].d1 < NUM
             && 0 <= reqs[h].d2 < NUM
    ensures Complement(free[h := true][reqs[h].d1 := true][reqs[h].d2 := true], reqs - {h})
  {
    var r := reqs - {h};
    var free' := free[h := true][reqs[h].d1 := true][reqs[h].d2 := true];
    forall i | 0 <= i < NUM && !free'[i]
      ensures FreeOrUsed(free', r, i)
    {
      assert FreeOrUsed(free, reqs, i);
      var g :| g in reqs && InChain(g, reqs[g], i);
      assert g in r && InChain(g, r[g], i);
    }
  }

  lemma ChainsLength(free: seq<bool>, desc: seq<Desc>, info: seq<int>, reqs: map<int, Req>)
    requires ChainsOk(free, desc, info, reqs)
    ensures |free| == NUM && |desc| == NUM && |info| == NUM
  {
  }

  /** The device sees from the 16-bit index whether a chain is posted. */
  lemma PostedTest(posts: seq<int>, seen: int, lastAvail: int, availIdx: int)
    requires 0 <= seen <= |posts| <= seen + 2 && lastAvail == seen % UINT16 && availIdx == |posts| % UINT16
    ensures lastAvail != availIdx <==> seen < |posts|
  {
  }

  /** The driver's test for completions is right: at most two are pending. */
  lemma PendingTest(comps: seq<int>, done: int, usedId: int, usedIdx: int)
    requires 0 <= done <= |comps| <= done + 2 && usedId == |comps| % UINT16 && usedIdx == done % NUM
    ensures usedIdx % NUM != usedId % NUM <==> done < |comps|
  {
    Mod16(|comps|);
    if done < |comps| {
      Near(done, |comps|);
    }
  }
}
