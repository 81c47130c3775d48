/** Memory segments: the queue of resident segments in address order, first fit, growth and
    compaction (seg.c). */
module Segments {
  import opened Core
  import opened Seqs

  const NUSEG: int := 8
  const SIUSERP: int := 0
  const MSSIZE: int := 64

  class Seg {
    var mbase: int
    var dbase: int
    var size: int
    var core: bool          // SFCORE
    const down: bool        // SFDOWN
    const high: bool        // SFHIGH
    var urefc: int
    var lrefc: int

    constructor (size: int, mbase: int, dbase: int, core: bool, down: bool, high: bool)
      ensures this.size == size && this.mbase == mbase && this.dbase == dbase && this.core == core
      ensures this.down == down && this.high == high && urefc == 1 && lrefc == 1
    {
      this.size, this.mbase, this.dbase, this.core := size, mbase, dbase, core;
      this.down, this.high, urefc, lrefc := down, high, 1, 1;
    }
  }

  class Proc {
    var segp: seq<Seg?>     // p_segp
    var wired: bool         // PFLOCK, PFKERN, PFSWIO or PFSLIB
    var swap: bool          // PFSWAP
    var sproto: bool        // PFSPROTO

    constructor ()
      ensures segp == seq(NUSEG + 1, i => null)
    {
      segp, wired, swap, sproto := seq(NUSEG + 1, i => null), false, false, false;
    }
  }

  // ----- the queue -------------------------------------------------------------------

  /** The segments of q lie in [bot, top) in address order without overlap. */
  ghost predicate Laid(q: seq<Seg>, bot: int, top: int)
    reads q`mbase, q`size
  {
    && 0 <= bot <= top
    && (forall i {:trigger q[i]} :: 0 <= i < |q| ==>
          0 <= q[i].size && bot <= q[i].mbase && q[i].mbase + q[i].size <= top)
    && (forall i, j {:trigger q[i], q[j]} :: 0 <= i < j < |q| ==> q[i] != q[j] && q[i].mbase + q[i].size <= q[j].mbase)
  }

  /** The segments of q lie on the swap device in [bot, top) likewise, two blocks a click. */
  ghost predicate OnDisk(q: seq<Seg>, bot: int, top: int)
    reads q`dbase, q`size
  {
    && (forall i {:trigger q[i]} :: 0 <= i < |q| ==>
          0 <= q[i].size && bot <= q[i].dbase && q[i].dbase + 2 * q[i].size <= top)
    && (forall i, j {:trigger q[i], q[j]} :: 0 <= i < j < |q| ==>
          q[i] != q[j] && q[i].dbase + 2 * q[i].size <= q[j].dbase)
  }

  /** A hole of s clicks at block d in front of segment at. */
  ghost predicate DiskHole(q: seq<Seg>, bot: int, top: int, at: int, d: int, s: nat)
    reads q`dbase, q`size
  {
    && 0 <= at <= |q| && bot <= d && d + 2 * s <= top
    && forall k {:trigger q[k]} :: 0 <= k < |q| ==>
      if k < at then q[k].dbase + 2 * q[k].size <= d else d + 2 * s <= q[k].dbase
  }

  /** The room on the disk in front of segment k: where it begins and how long it is. */
  ghost function DiskFrom(q: seq<Seg>, bot: int, k: nat): int
    requires k <= |q|
    reads q`dbase, q`size
  {
    if k == 0 then bot else q[k - 1].dbase + 2 * q[k - 1].size
  }

  ghost function DiskRoom(q: seq<Seg>, bot: int, top: int, k: nat): int
    requires k <= |q|
    reads q`dbase, q`size
  {
    (if k == |q| then top else q[k].dbase) - DiskFrom(q, bot, k)
  }

  /** d is where sdalloc finds s clicks, in front of segment at: the lowest room large enough. */
  ghost predicate DiskFitted(q: seq<Seg>, bot: int, top: int, s: nat, at: nat, d: int)
    reads q`dbase, q`size
  {
    && at <= |q| && DiskHole(q, bot, top, at, d, s) && d == DiskFrom(q, bot, at)
    && forall k {:trigger DiskRoom(q, bot, top, k)} :: 0 <= k < at ==> DiskRoom(q, bot, top, k) < 2 * s
  }

  lemma {:induction false} DiskFittedIs(q: seq<Seg>, bot: int, top: int, s: nat, at: nat, d: int)
    requires DiskFitted(q, bot, top, s, at, d)
    ensures at <= |q| && DiskHole(q, bot, top, at, d, s)
  {
  }

  /** There is none. */
  ghost predicate DiskFull(q: seq<Seg>, bot: int, top: int, s: nat)
    reads q`dbase, q`size
  {
    forall k {:trigger DiskRoom(q, bot, top, k)} :: 0 <= k <= |q| ==>
      DiskRoom(q, bot, top, k) < 2 * s || DiskFrom(q, bot, k) >= top
  }

  lemma {:induction false} DiskFromGrows(q: seq<Seg>, bot: int, top: int, k: nat, l: nat)
    requires OnDisk(q, bot, top) && k <= l <= |q|
    ensures DiskFrom(q, bot, k) <= DiskFrom(q, bot, l)
  {
    if k < l { DiskFromGrows(q, bot, top, k, l - 1); }
  }

  lemma {:induction false} OnDiskWith(q: seq<Seg>, bot: int, top: int, at: int, sp: Seg)
    requires OnDisk(q, bot, top) && sp !in q && 0 <= sp.size && DiskHole(q, bot, top, at, sp.dbase, sp.size)
    ensures OnDisk(With(q, at, sp), bot, top)
  {
    var r := With(q, at, sp);
    forall k, l | 0 <= k < l < |r| ensures r[k] != r[l] && r[k].dbase + 2 * r[k].size <= r[l].dbase {
      if k == at { assert r[l] == q[l - 1]; } else if l == at { assert r[k] == q[k]; }
    }
  }

  lemma {:induction false} OnDiskWithout(q: seq<Seg>, bot: int, top: int, at: nat)
    requires OnDisk(q, bot, top) && at < |q|
    ensures OnDisk(Without(q, at), bot, top)
  {
  }

  lemma {:induction false} LaidWithout(q: seq<Seg>, bot: int, top: int, i: nat)
    requires Laid(q, bot, top) && i < |q|
    ensures Laid(Without(q, i), bot, top) && q[i] !in Without(q, i)
  {
  }

  /** The same of bases and sizes alone. */
  ghost predicate Apart(bs: seq<int>, zs: seq<int>, bot: int, top: int) {
    && 0 <= bot <= top && |bs| == |zs|
    && (forall i {:trigger bs[i]} {:trigger zs[i]} :: 0 <= i < |bs| ==>
          0 <= zs[i] && bot <= bs[i] && bs[i] + zs[i] <= top)
    && (forall i, j {:trigger bs[i], bs[j]} :: 0 <= i < j < |bs| ==> bs[i] + zs[i] <= bs[j])
  }

  ghost function Bases(q: seq<Seg>): (bs: seq<int>)
    reads q`mbase
    ensures |bs| == |q| && forall i {:trigger bs[i]} {:trigger q[i]} :: 0 <= i < |q| ==> bs[i] == q[i].mbase
  {
    if q == [] then [] else Bases(q[..|q| - 1]) + [q[|q| - 1].mbase]
  }

  ghost function Sizes(q: seq<Seg>): (zs: seq<int>)
    reads q`size
    ensures |zs| == |q| && forall i {:trigger zs[i]} {:trigger q[i]} :: 0 <= i < |q| ==> zs[i] == q[i].size
  {
    if q == [] then [] else Sizes(q[..|q| - 1]) + [q[|q| - 1].size]
  }

  lemma {:induction false} LaidIsApart(q: seq<Seg>, bot: int, top: int)
    ensures Laid(q, bot, top) <==>
      Apart(Bases(q), Sizes(q), bot, top) && forall i, j :: 0 <= i < j < |q| ==> q[i] != q[j]
  {
    hide Bases, Sizes;
    Columns(q);
  }

  lemma {:induction false} Columns(q: seq<Seg>)
    ensures |Bases(q)| == |Sizes(q)| == |q|
    ensures forall i {:trigger q[i]} {:trigger Bases(q)[i]} {:trigger Sizes(q)[i]} ::
      0 <= i < |q| ==> Bases(q)[i] == q[i].mbase && Sizes(q)[i] == q[i].size
  {
  }

  /** Sliding segment i down to the end of what precedes it keeps the order, and all
      contents. */
  lemma {:induction false} Slid(bs: seq<int>, zs: seq<int>, m: seq<Click>, bot: int, top: int, i: nat, b: int)
    requires Apart(bs, zs, bot, top) && top <= |m| && i < |bs|
    requires bot <= b <= bs[i] && (i == 0 || bs[i - 1] + zs[i - 1] == b)
    ensures Apart(bs[i := b], zs, bot, top)
    ensures forall k {:trigger bs[k]} :: 0 <= k < |bs| ==>
      Part(Moved(m, bs[i], b, zs[i]), bs[i := b][k], zs[k]) == Part(m, bs[k], zs[k])
  {
    assert zs[i] >= 0;
    var m', bs' := Moved(m, bs[i], b, zs[i]), bs[i := b];
    assert forall k {:trigger bs[k]} :: 0 <= k < i ==> bs[k] + zs[k] <= b by {
      if i > 0 { assert bs[i - 1] + zs[i - 1] <= bs[i] && zs[i - 1] >= 0; }
    }
    forall k | 0 <= k < |bs| ensures 0 <= zs[k] && Part(m', bs'[k], zs[k]) == Part(m, bs[k], zs[k]) {
      if k == i {
        MovedPart(m, bs[i], b, zs[i]);
      } else {
        PartStays(m, m', bs[k], zs[k]);
      }
    }
  }

  /** The end of what lies before segment i, and the start of what lies behind it. */
  ghost function Lo(q: seq<Seg>, bot: int, i: nat): int
    requires i <= |q|
    reads q`mbase, q`size
  {
    if i == 0 then bot else q[i - 1].mbase + q[i - 1].size
  }

  ghost function Hi(q: seq<Seg>, top: int, i: nat): int
    requires i <= |q|
    reads q`mbase
  {
    if i == |q| then top else q[i].mbase
  }

  /** The hole in front of segment i. */
  ghost function Gap(q: seq<Seg>, bot: int, top: int, i: nat): int
    requires i <= |q|
    reads q`mbase, q`size
  {
    Hi(q, top, i) - Lo(q, bot, i)
  }

  /** How many of the first k segments have another base than before, and their clicks. */
  ghost function HowMany(bs: seq<int>, was: seq<int>, k: nat): nat
    requires k <= |bs| == |was|
  {
    if k == 0 then 0 else HowMany(bs, was, k - 1) + if bs[k - 1] != was[k - 1] then 1 else 0
  }

  ghost function HowMuch(bs: seq<int>, was: seq<int>, zs: seq<int>, k: nat): int
    requires k <= |bs| == |was| == |zs|
  {
    if k == 0 then 0 else HowMuch(bs, was, zs, k - 1) + if bs[k - 1] != was[k - 1] then zs[k - 1] else 0
  }

  /** m segments among the first k have another base than before, c clicks in all. */
  ghost predicate Counted(bs: seq<int>, was: seq<int>, zs: seq<int>, k: int, m: int, c: int) {
    0 <= k <= |bs| == |was| == |zs| && m == HowMany(bs, was, k) && c == HowMuch(bs, was, zs, k)
  }

  lemma {:induction false} MovedSame(bs: seq<int>, bs': seq<int>, was: seq<int>, zs: seq<int>, k: nat)
    requires k <= |bs| == |bs'| == |was| == |zs| && forall j :: 0 <= j < k ==> bs'[j] == bs[j]
    ensures HowMany(bs', was, k) == HowMany(bs, was, k) && HowMuch(bs', was, zs, k) == HowMuch(bs, was, zs, k)
  {
    if k > 0 { MovedSame(bs, bs', was, zs, k - 1); }
  }

  lemma {:induction false} MovedNext(bs: seq<int>, bs': seq<int>, was: seq<int>, zs: seq<int>, k: nat, m: int, c: int)
    requires k < |bs| == |bs'| && bs' == bs[k := bs'[k]] && Counted(bs, was, zs, k, m, c)
    ensures if bs'[k] == was[k] then Counted(bs', was, zs, k + 1, m, c)
            else Counted(bs', was, zs, k + 1, m + 1, c + zs[k])
  {
    MovedSame(bs, bs', was, zs, k);
  }

  lemma {:induction false} NotMoved(bs: seq<int>, zs: seq<int>, k: nat)
    requires k <= |bs| == |zs|
    ensures Counted(bs, bs, zs, k, 0, 0)
  {
    if k > 0 { NotMoved(bs, zs, k - 1); }
  }

  /** Is there room for s clicks? */
  ghost predicate Room(q: seq<Seg>, bot: int, top: int, s: int)
    reads q`mbase, q`size
  {
    exists i :: 0 <= i <= |q| && Gap(q, bot, top, i) >= s
  }

  /** b is where sxalloc puts s clicks, in front of segment at: at the bottom of the lowest
      hole that is large enough, or, from the high end, at the top of the highest. */
  ghost predicate Fitted(q: seq<Seg>, bot: int, top: int, s: int, high: bool, at: nat, b: int)
    reads q`mbase, q`size
  {
    && at <= |q| && Gap(q, bot, top, at) >= s
    && b == (if high then Hi(q, top, at) - s else Lo(q, bot, at))
    && forall k :: 0 <= k <= |q| && (if high then at < k else k < at) ==> Gap(q, bot, top, k) < s
  }

  /** How much the first k segments take. */
  ghost function Taken(q: seq<Seg>, k: nat): int
    requires k <= |q|
    reads q`size
  {
    if k == 0 then 0 else Taken(q, k - 1) + q[k - 1].size
  }

  // ----- who holds a segment ------------------------------------------------------------

  /** A slot that forbids moving its segment: its process is wired down, or it is our own
      user area. */
  ghost predicate Pins(p: Proc, self: Proc, i: int)
    reads p`wired
  {
    p.wired || (i == SIUSERP && p == self)
  }

  /** The slots among the first k of p that name sp; all of them, or those of processes
      that are not swapped out. */
  ghost function Slots(segp: seq<Seg?>, k: nat, sp: Seg): nat
    requires k <= |segp|
  {
    if k == 0 then 0 else Slots(segp, k - 1, sp) + if segp[k - 1] == sp then 1 else 0
  }

  ghost function Users(procs: seq<Proc>, k: nat, sp: Seg): nat
    requires k <= |procs|
    reads procs`segp
  {
    if k == 0 then 0 else Users(procs, k - 1, sp) + Slots(procs[k - 1].segp, |procs[k - 1].segp|, sp)
  }

  ghost function Locks(procs: seq<Proc>, k: nat, sp: Seg): nat
    requires k <= |procs|
    reads procs`segp, procs`swap
  {
    if k == 0 then 0
    else Locks(procs, k - 1, sp) + if procs[k - 1].swap then 0 else Slots(procs[k - 1].segp, |procs[k - 1].segp|, sp)
  }

  /** The slots of processes that name sp, each a process and a number; of all processes, or
      of those that are not swapped out. */
  ghost function Holding(procs: seq<Proc>, k: nat, sp: Seg, resident: bool): set<(int, int)>
    requires k <= |procs|
    reads procs`segp, procs`swap
  {
    set j, i | 0 <= j < k && 0 <= i < |procs[j].segp| && procs[j].segp[i] == sp && !(resident && procs[j].swap) ::
      (j, i)
  }

  ghost function Numbers(segp: seq<Seg?>, k: nat, sp: Seg, j: int): (r: set<(int, int)>)
    requires k <= |segp|
  {
    set i | 0 <= i < k && segp[i] == sp :: (j, i)
  }

  lemma {:induction false} SlotsAre(segp: seq<Seg?>, k: nat, sp: Seg, j: int)
    requires k <= |segp|
    ensures |Numbers(segp, k, sp, j)| == Slots(segp, k, sp)
  {
    if k > 0 {
      SlotsAre(segp, k - 1, sp, j);
      var less := Numbers(segp, k - 1, sp, j);
      assert Numbers(segp, k, sp, j) == if segp[k - 1] == sp then less + {(j, k - 1)} else less;
    }
  }

  /** What segmove compares s_urefc and s_lrefc with: how many slots there are that name the
      segment, and how many of them belong to processes that are not swapped out. */
  lemma {:induction false} CountsAre(procs: seq<Proc>, k: nat, sp: Seg)
    requires k <= |procs|
    ensures Users(procs, k, sp) == |Holding(procs, k, sp, false)|
    ensures Locks(procs, k, sp) == |Holding(procs, k, sp, true)|
  {
    hide Slots, Holding, Numbers;
    if k == 0 {
      assert Holding(procs, 0, sp, false) == {} == Holding(procs, 0, sp, true) by { NoneHolding(procs, sp); }
    } else {
      CountsAre(procs, k - 1, sp);
      SlotsAre(procs[k - 1].segp, |procs[k - 1].segp|, sp, k - 1);
      OneMoreHolds(procs, k, sp, false);
      OneMoreHolds(procs, k, sp, true);
    }
  }

  lemma {:induction false} NoneHolding(procs: seq<Proc>, sp: Seg)
    ensures Holding(procs, 0, sp, false) == {} == Holding(procs, 0, sp, true)
  {
  }

  lemma {:induction false} OneMoreHolds(procs: seq<Proc>, k: nat, sp: Seg, resident: bool)
    requires 0 < k <= |procs|
    ensures var p := procs[k - 1]; var less := Holding(procs, k - 1, sp, resident);
      |Holding(procs, k, sp, resident)| ==
      |less| + if resident && p.swap then 0 else |Numbers(p.segp, |p.segp|, sp, k - 1)|
  {
    var p, less, all := procs[k - 1], Holding(procs, k - 1, sp, resident), Holding(procs, k, sp, resident);
    var mine := if resident && p.swap then {} else Numbers(p.segp, |p.segp|, sp, k - 1);
    forall x: (int, int) ensures x in all <==> x in less || x in mine {
    }
    assert all == less + mine;
    assert less !! mine;
  }

  ghost predicate Pinned(procs: seq<Proc>, self: Proc, sp: Seg)
    reads procs`segp, procs`wired
  {
    exists j, i :: 0 <= j < |procs| && 0 <= i < |procs[j].segp| && procs[j].segp[i] == sp && Pins(procs[j], self, i)
  }

  /** Is sp free to be moved?  It is resident, nobody who holds it is wired down, and every
      reference to it is a slot of a process and every lock on it that of a resident one. */
  ghost predicate Loose(procs: seq<Proc>, self: Proc, sp: Seg)
    reads procs`segp, procs`wired, procs`swap, sp`core, sp`urefc, sp`lrefc
  {
    && sp.core && !Pinned(procs, self, sp)
    && Users(procs, |procs|, sp) == sp.urefc != 0
    && Locks(procs, |procs|, sp) == sp.lrefc
  }

  /** May a segment end at nb + size?  One mapped from the top stays above address 0. */
  ghost predicate Reaches(down: bool, nb: int, size: int) {
    down ==> nb + size >= MSSIZE
  }

  lemma {:induction false} LaidAt(q: seq<Seg>, bot: int, top: int, i: nat)
    requires Laid(q, bot, top) && i <= |q|
    ensures bot <= Lo(q, bot, i) <= Hi(q, top, i) <= top
  {
    if 0 < i < |q| { assert q[i - 1].mbase + q[i - 1].size <= q[i].mbase; }
  }

  /** Where segment k ended up: against what precedes it, or where it was because it could
      not be moved there. */
  ghost predicate Settled(q: seq<Seg>, bot: int, bs: seq<int>, zs: seq<int>, was: seq<int>, loose: seq<bool>, k: nat)
    requires k < |bs| == |zs| == |was| == |loose| == |q|
  {
    var lo := if k == 0 then bot else bs[k - 1] + zs[k - 1];
    bs[k] == lo || (bs[k] == was[k] && !(loose[k] && Reaches(q[k].down, lo, zs[k])))
  }

  lemma {:induction false} SettledStep(q: seq<Seg>, bot: int, bs: seq<int>, zs: seq<int>, was: seq<int>,
                                     loose: seq<bool>,
                                       i: nat, bs': seq<int>)
    requires i < |bs| == |bs'| == |zs| == |was| == |loose| == |q| && bs' == bs[i := bs'[i]]
    requires var lo := if i == 0 then bot else bs[i - 1] + zs[i - 1];
      bs'[i] == lo || (bs'[i] == bs[i] == was[i] && !(loose[i] && Reaches(q[i].down, lo, zs[i])))
    requires forall k :: 0 <= k < i ==> Settled(q, bot, bs, zs, was, loose, k)
    ensures forall k :: 0 <= k <= i ==> Settled(q, bot, bs', zs, was, loose, k)
  {
    forall k | 0 <= k < i ensures Settled(q, bot, bs', zs, was, loose, k) {
      assert Settled(q, bot, bs, zs, was, loose, k);
    }
  }

  ghost predicate SameOutside(m: seq<Click>, m': seq<Click>, lo: int, hi: int) {
    |m| == |m'| && forall x {:trigger m'[x]} :: 0 <= x < |m| && !(lo <= x < hi) ==> m'[x] == m[x]
  }

  /** Segment i gets a new place between its neighbours: the order is kept, and so are the
      contents of the others when nothing outside that space is written. */
  lemma {:induction false} Replaced(bs: seq<int>, zs: seq<int>, m: seq<Click>, m': seq<Click>, bot: int, top: int,
                                    i: nat, lo: int, hi: int, b: int, s: int)
    requires Apart(bs, zs, bot, top) && top <= |m| == |m'| && i < |bs|
    requires lo == (if i == 0 then bot else bs[i - 1] + zs[i - 1]) && hi == if i + 1 == |bs| then top else bs[i + 1]
    requires lo <= b && 0 <= s && b + s <= hi
    requires SameOutside(m, m', lo, hi)
    ensures Apart(bs[i := b], zs[i := s], bot, top)
    ensures forall k {:trigger bs[k]} :: 0 <= k < |bs| && k != i ==> Part(m', bs[k], zs[k]) == Part(m, bs[k], zs[k])
  {
    assert forall k {:trigger bs[k]} :: 0 <= k < i ==> bs[k] + zs[k] <= lo by {
      if i > 0 { assert bs[i - 1] + zs[i - 1] <= bs[i] && zs[i - 1] >= 0; }
    }
    assert forall k {:trigger bs[k]} :: i < k < |bs| ==> hi <= bs[k] by {
      if i + 1 < |bs| { assert zs[i + 1] >= 0; }
    }
    assert bot <= lo <= hi <= top by {
      if i > 0 { assert zs[i - 1] >= 0 && bot <= bs[i - 1]; }
      if i + 1 < |bs| { assert zs[i + 1] >= 0 && bs[i + 1] + zs[i + 1] <= top; }
    }
    forall k | 0 <= k < |bs| && k != i ensures 0 <= zs[k] && Part(m', bs[k], zs[k]) == Part(m, bs[k], zs[k]) {
      PartStays(m, m', bs[k], zs[k]);
    }
  }

  /** A segment of s clicks made of contents c: cut, or with zeros added, at the end it
      grows at. */
  ghost function Grown(c: seq<Click>, s: nat, down: bool): seq<Click> {
    if s <= |c| then (if down then c[|c| - s..] else c[..s])
    else if down then Zeros(s - |c|) + c
    else c + Zeros(s - |c|)
  }

  lemma {:induction false} Shrunk(m: seq<Click>, b: int, z: nat, s: nat, down: bool)
    requires 0 <= b && b + z <= |m| && s <= z
    ensures Part(m, if down then b + z - s else b, s) == Grown(Part(m, b, z), s, down)
  {
    var l, r := Part(m, if down then b + z - s else b, s), Grown(Part(m, b, z), s, down);
    assert |l| == |r| && forall k {:trigger l[k]} :: 0 <= k < s ==> l[k] == r[k];
  }

  /** Memory that holds c at one end of s clicks from b on, and zeros in the rest. */
  ghost predicate Padded(m: seq<Click>, b: int, s: nat, c: seq<Click>, down: bool) {
    && 0 <= b && b + s <= |m| && |c| <= s
    && var at := if down then b + s - |c| else b;
    (forall k {:trigger m[k]} :: b <= k < b + s ==> m[k] == if at <= k < at + |c| then c[k - at] else ZERO)
  }

  lemma {:induction false} PaddedIsGrown(m: seq<Click>, b: int, s: nat, c: seq<Click>, down: bool)
    requires Padded(m, b, s, c, down)
    ensures Part(m, b, s) == Grown(c, s, down)
  {
    var l, r := Part(m, b, s), Grown(c, s, down);
    forall k | 0 <= k < s ensures l[k] == r[k] {
      assert l[k] == m[b + k];
    }
    assert l == r;
  }

  /** The space [lo, hi) and the segment of z clicks at b in it. */
  ghost predicate Space(m: seq<Click>, lo: int, hi: int, b: int, z: int) {
    0 <= lo <= b && 0 <= z && b + z <= hi <= |m|
  }

  /** Growing by d clicks at the free end, in place. */
  lemma {:induction false} InPlaceGrows(m: seq<Click>, lo: int, hi: int, b: int, z: int, d: nat, down: bool)
    requires Space(m, lo, hi, b, z) && (if down then lo <= b - d else b + z + d <= hi)
    ensures var m' := Cleared(m, if down then b - d else b + z, d);
      SameOutside(m, m', lo, hi) && Part(m', if down then b - d else b, z + d) == Grown(Part(m, b, z), z + d, down)
  {
    var m' := Cleared(m, if down then b - d else b + z, d);
    PaddedIsGrown(m', if down then b - d else b, z + d, Part(m, b, z), down);
  }

  /** Growing by d clicks after a move to the other end of the space. */
  lemma {:induction false} SlideGrows(m: seq<Click>, lo: int, hi: int, b: int, z: int, d: nat, down: bool)
    requires Space(m, lo, hi, b, z) && lo + z + d <= hi
    ensures var m1 := Moved(m, b, if down then hi - z else lo, z);
      var m2 := Cleared(m1, if down then hi - z - d else lo + z, d);
      SameOutside(m, m2, lo, hi) && Part(m2, if down then hi - z - d else lo, z + d) ==
        Grown(Part(m, b, z), z + d, down)
  {
    hide Grown, Padded;
    if down {
      PaddedSlide(m, b, z, hi - z - d, d, true);
      PaddedIsGrown(Cleared(Moved(m, b, hi - z, z), hi - z - d, d), hi - z - d, z + d, Part(m, b, z), true);
    } else {
      PaddedSlide(m, b, z, lo, d, false);
      PaddedIsGrown(Cleared(Moved(m, b, lo, z), lo + z, d), lo, z + d, Part(m, b, z), false);
    }
  }

  lemma {:induction false} PaddedSlide(m: seq<Click>, b: int, z: int, to: int, d: nat, down: bool)
    requires 0 <= b && 0 <= z && b + z <= |m| && 0 <= to && to + z + d <= |m|
    ensures var m2 := Cleared(Moved(m, b, if down then to + d else to, z), if down then to else to + z, d);
      Padded(m2, to, z + d, Part(m, b, z), down)
  {
  }

  /** Making room for d more clicks in a segment that already has them. */
  lemma {:induction false} StretchGrows(m: seq<Click>, b: int, z: int, d: nat, down: bool)
    requires 0 <= b && 0 <= z && b + z + d <= |m|
    ensures var m2 := if down then Cleared(Moved(m, b, b + d, z), b, d) else Cleared(m, b + z, d);
      SameOutside(m, m2, b, b + z + d) && Part(m2, b, z + d) == Grown(Part(m, b, z), z + d, down)
  {
    hide Grown;
    if down {
      PaddedIsGrown(Cleared(Moved(m, b, b + d, z), b, d), b, z + d, Part(m, b, z), true);
    } else {
      PaddedIsGrown(Cleared(m, b + z, d), b, z + d, Part(m, b, z), false);
    }
  }

  /** Growing by d clicks in a new place of its own. */
  lemma {:induction false} CopyGrows(m: seq<Click>, b: int, z: int, to: int, d: nat, down: bool)
    requires 0 <= b && 0 <= z && b + z <= |m| && 0 <= to && to + z + d <= |m|
    requires b + z <= to || to + z + d <= b
    ensures var m1 := Moved(m, b, if down then to + d else to, z);
      var m2 := Cleared(m1, if down then to else to + z, d);
      SameOutside(m, m2, to, to + z + d) && Part(m2, to, z + d) == Grown(Part(m, b, z), z + d, down)
  {
    hide Grown, Padded;
    var c := Part(m, b, z);
    if down {
      var m2 := Cleared(Moved(m, b, to + d, z), to, d);
      assert Padded(m2, to, z + d, c, true) by { PaddedSlide(m, b, z, to, d, true); }
      PaddedIsGrown(m2, to, z + d, c, true);
    } else {
      var m2 := Cleared(Moved(m, b, to, z), to + z, d);
      assert Padded(m2, to, z + d, c, false) by { PaddedSlide(m, b, z, to, d, false); }
      PaddedIsGrown(m2, to, z + d, c, false);
    }
  }

  /** How seggrow ends: well, with nothing done, or asleep until the swapper finds room. */
  datatype Outcome = Done | Refused | Asleep

  /** Memory, its resident segments, and the processes. */
  class Memory {
    const corebot: int
    const coretop: int
    const mem: array<Click>
    const procs: seq<Proc>      // the process table, from the procq ring
    const self: Proc
    const swapbot: int          // first and last block of the swap area
    const swaptop: int
    const disk: array<int>
    var q: seq<Seg>             // the segmq ring
    var dq: seq<Seg>            // the segdq ring
    var segpacks: int
    var segpackc: int

    ghost predicate Valid()
      reads this`q, q`mbase, q`size
    {
      Laid(q, corebot, coretop) && coretop <= mem.Length
    }

    constructor (bot: int, top: int, swapbot: int, swaptop: int, procs: seq<Proc>, self: Proc)
      requires 0 <= bot <= top && 0 <= swapbot <= swaptop
      ensures Valid() && SwapValid() && q == dq == [] && this.swapbot == swapbot && this.swaptop == swaptop
      ensures corebot == bot && coretop == top && this.procs == procs && this.self == self
    {
      corebot, coretop, this.procs, this.self := bot, top, procs, self;
      this.swapbot, this.swaptop := swapbot, swaptop;
      mem := new Click[top](i => ZERO);
      disk := new int[swaptop](i => 0);
      q, dq, segpacks, segpackc := [], [], 0, 0;
    }

    ghost predicate SwapValid()
      reads this`dq, dq`dbase, dq`size
    {
      0 <= swapbot <= swaptop <= disk.Length && OnDisk(dq, swapbot, swaptop)
    }

    /** What a swapped segment has on the swap device. */
    ghost function Image(sp: Seg): seq<int>
      reads sp`dbase, sp`size, disk
    {
      if 0 <= sp.dbase && 0 <= sp.size && sp.dbase + 2 * sp.size <= disk.Length then
        disk[sp.dbase..sp.dbase + 2 * sp.size]
      else []
    }

    /** The contents of a segment. */
    ghost function Body(sp: Seg): seq<Click>
      reads sp`mbase, sp`size, mem
    {
      if 0 <= sp.mbase && 0 <= sp.size && sp.mbase + sp.size <= mem.Length then Part(mem[..], sp.mbase, sp.size) else []
    }

    /** The contents of all resident segments, in order. */
    ghost function Bodies(): (b: seq<seq<Click>>)
      reads this`q, q`mbase, q`size, mem
      ensures |b| == |q| && forall k {:trigger b[k]} {:trigger q[k]} :: 0 <= k < |q| ==> b[k] == Body(q[k])
    {
      BodiesOf(q)
    }

    ghost function BodiesOf(c: seq<Seg>): (b: seq<seq<Click>>)
      reads c`mbase, c`size, mem
      ensures |b| == |c| && forall k {:trigger b[k]} {:trigger c[k]} :: 0 <= k < |c| ==> b[k] == Body(c[k])
    {
      if c == [] then [] else BodiesOf(c[..|c| - 1]) + [Body(c[|c| - 1])]
    }

    /** Whoever holds a segment that was moved is told, besides those that were told. */
    ghost predicate Marked(bs: seq<int>, was: seq<int>, told: set<Proc>)
      reads this`q, procs`segp, procs`sproto
      requires |bs| == |was| == |q|
    {
      && (forall p :: p in procs && p in told ==> p.sproto)
      && forall p, k :: p in procs && 0 <= k < |q| && bs[k] != was[k] && q[k] in p.segp ==> p.sproto
    }

    /** segmove's count of the slots of one process, marking it as it goes. */
    method Count(pp: Proc, sp: Seg) returns (pinned: bool, n: int)
      modifies pp`sproto
      ensures pinned <==> exists i :: 0 <= i < |pp.segp| && pp.segp[i] == sp && Pins(pp, self, i)
      ensures !pinned ==> n == Slots(pp.segp, |pp.segp|, sp)
      ensures old(pp.sproto) ==> pp.sproto
      ensures pp.sproto && !old(pp.sproto) ==> sp in pp.segp
      ensures !pinned && sp in pp.segp ==> pp.sproto
    {
      n := 0;
      var i := 0;
      while i < |pp.segp|
        invariant 0 <= i <= |pp.segp|
        invariant forall k :: 0 <= k < i && pp.segp[k] == sp ==> !Pins(pp, self, k) && pp.sproto
        invariant n == Slots(pp.segp, i, sp)
        invariant old(pp.sproto) ==> pp.sproto
        invariant pp.sproto && !old(pp.sproto) ==> sp in pp.segp
      {
        if pp.segp[i] == sp {
          if pp.wired { return true, n; }
          if i == SIUSERP && pp == self { return true, n; }
          pp.sproto := true;
          n := n + 1;
        }
        i := i + 1;
      }
      return false, n;
    }

    /** The same over the process table. */
    method CountAll(sp: Seg) returns (pinned: bool, n: int, c: int)
      modifies procs`sproto
      ensures pinned <==> Pinned(procs, self, sp)
      ensures !pinned ==> n == Users(procs, |procs|, sp) && c == Locks(procs, |procs|, sp)
      ensures forall p :: p in procs && old(p.sproto) ==> p.sproto
      ensures forall p :: p in procs && p.sproto && !old(p.sproto) ==> sp in p.segp
      ensures !pinned ==> forall p :: p in procs && sp in p.segp ==> p.sproto
    {
      hide Slots, Pins;
      n, c := 0, 0;
      var j := 0;
      while j < |procs|
        invariant 0 <= j <= |procs|
        invariant forall k, i :: 0 <= k < j && 0 <= i < |procs[k].segp| && procs[k].segp[i] == sp ==>
          !Pins(procs[k], self, i)
        invariant n == Users(procs, j, sp) && c == Locks(procs, j, sp)
        invariant forall p :: p in procs && old(p.sproto) ==> p.sproto
        invariant forall p :: p in procs && p.sproto && !old(p.sproto) ==> sp in p.segp
        invariant forall k :: 0 <= k < j && sp in procs[k].segp ==> procs[k].sproto
      {
        var pp := procs[j];
        var p, m := Count(pp, sp);
        if p {
          return true, n, c;
        }
        n := n + m;
        if !pp.swap {
          c := c + m;
        }
        j := j + 1;
      }
      return false, n, c;
    }

    /** segmove: move sp down to nb if that is safe, marking its owners. */
    method SegMove(sp: Seg, nb: int) returns (moved: bool)
      requires 0 <= nb <= sp.mbase && 0 <= sp.size && sp.mbase + sp.size <= mem.Length
      modifies procs`sproto, sp`mbase, mem
      ensures moved <==> Loose(procs, self, sp) && Reaches(sp.down, nb, sp.size)
      ensures moved ==> sp.mbase == nb && mem[..] == Moved(old(mem[..]), old(sp.mbase), nb, sp.size)
      ensures !moved ==> sp.mbase == old(sp.mbase) && mem[..] == old(mem[..])
      ensures forall p :: p in procs && old(p.sproto) ==> p.sproto
      ensures forall p :: p in procs && p.sproto && !old(p.sproto) ==> sp in p.segp
      ensures moved ==> forall p :: p in procs && sp in p.segp ==> p.sproto
    {
      hide Pinned, Users, Locks;
      if !sp.core {
        return false;
      }
      if sp.down && nb + sp.size < MSSIZE {
        return false;
      }
      var pinned, n, c := CountAll(sp);
      if pinned {
        return false;
      }
      if n == 0 || n != sp.urefc || c != sp.lrefc {
        return false;
      }
      SlrCopy(mem, sp.mbase, nb, sp.size);
      sp.mbase := nb;
      return true;
    }

    /** segpack's walk of the holes: how much is free, and the largest hole. */
    method Holes(ghost s: nat) returns (tot: int, big: int)
      requires Valid()
      ensures tot == coretop - corebot - Taken(q, |q|)
      ensures big >= s <==> Room(q, corebot, coretop, s)
    {
      hide Laid, Gap, Lo;
      tot, big := 0, 0;
      var b := corebot;
      var i := 0;
      ghost var w := 0;
      FirstGap(q, corebot, coretop);
      while true
        invariant 0 <= i <= |q| && b == Lo(q, corebot, i)
        invariant tot == b - corebot - Taken(q, i)
        invariant forall k :: 0 <= k < i ==> Gap(q, corebot, coretop, k) <= big
        invariant 0 <= w <= i && big <= Gap(q, corebot, coretop, w)
        decreases |q| - i
      {
        var gap := (if i == |q| then coretop else q[i].mbase) - b;
        GapIs(q, corebot, coretop, i);
        tot := tot + gap;
        if gap > big {
          big, w := gap, i;
        }
        if i == |q| {
          break;
        }
        b := q[i].mbase + q[i].size;
        i := i + 1;
      }
    }

    ghost predicate Snapshot(loose: seq<bool>)
      reads this`q, procs`segp, procs`wired, procs`swap, q`core, q`urefc, q`lrefc
    {
      |loose| == |q| && forall k {:trigger loose[k]} :: 0 <= k < |q| ==> loose[k] == Loose(procs, self, q[k])
    }

    ghost method TakeSnapshot() returns (loose: seq<bool>)
      ensures Snapshot(loose)
    {
      loose := [];
      while |loose| < |q|
        invariant |loose| <= |q|
        invariant forall k {:trigger loose[k]} :: 0 <= k < |loose| ==> loose[k] == Loose(procs, self, q[k])
        decreases |q| - |loose|
      {
        loose := loose + [Loose(procs, self, q[|loose|])];
      }
    }

    /** Move segment i if that is safe and would gain anything. */
    method TryMove(sp: Seg, b: int, ghost i: nat, ghost was: seq<int>, ghost told: set<Proc>) returns (moved: bool)
      requires i < |q| == |was| && q[i] == sp && (forall k :: 0 <= k < |q| && k != i ==> q[k] != sp)
      requires 0 <= b <= sp.mbase && 0 <= sp.size && sp.mbase + sp.size <= mem.Length
      requires |Bases(q)| == |q| && Marked(Bases(q), was, told)
      modifies procs`sproto, sp`mbase, mem
      ensures moved <==> sp.mbase < old(sp.mbase)
      ensures moved ==> sp.mbase == b && mem[..] == Moved(old(mem[..]), old(sp.mbase), b, sp.size)
      ensures !moved ==> sp.mbase == old(sp.mbase) && mem[..] == old(mem[..])
      ensures sp.mbase == b || !(old(Loose(procs, self, sp)) && Reaches(sp.down, b, sp.size))
      ensures Bases(q) == old(Bases(q))[i := sp.mbase] && |Bases(q)| == |q| && Marked(Bases(q), was, told)
    {
      hide Loose, Bases, Part, Moved;
      Columns(q);
      moved := false;
      if sp.mbase > b {
        moved := SegMove(sp, b);
      }
      Columns(q);
      assert Bases(q) == old(Bases(q))[i := sp.mbase];
    }

    /** One turn of segpack's loop: segment i goes down to the end of what precedes it, and
        nothing else in memory notices. */
    method Slide1(sp: Seg, b: int, ghost i: nat, ghost loose: seq<bool>, ghost was: seq<int>, ghost told: set<Proc>)
      returns (moved: bool)
      requires Valid() && Snapshot(loose) && i < |q| == |was| && q[i] == sp && b == Lo(q, corebot, i)
      requires |Bases(q)| == |q| && Marked(Bases(q), was, told)
      modifies procs`sproto, sp`mbase, mem
      ensures Valid()
      ensures moved <==> sp.mbase < old(sp.mbase)
      ensures moved ==> sp.mbase == b
      ensures !moved ==> sp.mbase == old(sp.mbase) && mem[..] == old(mem[..])
      ensures Snapshot(loose) && Sizes(q) == old(Sizes(q)) && Bases(q) == old(Bases(q))[i := sp.mbase]
      ensures i < |loose| && (sp.mbase == b || !(loose[i] && Reaches(sp.down, b, sp.size)))
      ensures Bodies() == old(Bodies())
      ensures |Bases(q)| == |q| && Marked(Bases(q), was, told)
    {
      hide Loose, Laid, Apart, Bases, Sizes, Part, Moved, Marked, Bodies;
      LaidAt(q, corebot, coretop, i);
      LaidIsApart(q, corebot, coretop);
      Columns(q);
      ghost var bs, m := Bases(q), mem[..];
      LaidFits(q, corebot, coretop);
      BodiesAre();
      moved := TryMove(sp, b, i, was, told);
      if moved {
        Slid(bs, Sizes(q), m, corebot, coretop, i, b);
        LaidIsApart(q, corebot, coretop);
      }
      LaidFits(q, corebot, coretop);
      BodiesAre();
      assert Bodies() == old(Bodies());
    }

    lemma {:induction false} BodiesAre()
      requires Valid()
      ensures |Bodies()| == |Bases(q)| == |Sizes(q)| == |q|
      ensures forall k {:trigger Bodies()[k]} :: 0 <= k < |q| ==>
        0 <= Bases(q)[k] && 0 <= Sizes(q)[k] && Bases(q)[k] + Sizes(q)[k] <= mem.Length &&
        Bodies()[k] == Part(mem[..], Bases(q)[k], Sizes(q)[k])
    {
      hide Part, Bodies, Bases, Sizes;
      BodiesBody();
      Columns(q);
    }

    lemma {:induction false} BodiesBody()
      ensures |Bodies()| == |q|
      ensures forall k {:trigger Bodies()[k]} :: 0 <= k < |q| ==> Bodies()[k] == Body(q[k])
    {
    }

    /** The loop of segpack with its first i turns done and b the end of what they left. */
    ghost predicate Sliding(i: nat, b: int, was: seq<int>, zs: seq<int>, loose: seq<bool>, told: set<Proc>)
      reads this`q, q`mbase, q`size, q`core, q`urefc, q`lrefc
      reads procs`segp, procs`wired, procs`swap, procs`sproto
    {
      var bs := Bases(q);
      && Valid() && Snapshot(loose) && i <= |q| == |bs| == |zs| == |was| == |loose| && Sizes(q) == zs
      && b == (if i == 0 then corebot else bs[i - 1] + zs[i - 1])
      && (forall k {:trigger bs[k]} :: 0 <= k < |q| ==> bs[k] <= was[k])
      && (forall k {:trigger bs[k]} :: i <= k < |q| ==> bs[k] == was[k])
      && (forall k :: 0 <= k < i ==> Settled(q, corebot, bs, zs, was, loose, k))
      && Marked(bs, was, told)
    }

    method SlideAt(i: int, b: int, ghost was: seq<int>, ghost zs: seq<int>, ghost loose: seq<bool>,
                   ghost told: set<Proc>, ghost n: int, ghost c: int)
      returns (sp: Seg, m: bool)
      requires 0 <= i < |q| && Sliding(i, b, was, zs, loose, told) && Counted(Bases(q), was, zs, i, n, c)
      modifies procs`sproto, q`mbase, mem
      ensures sp == q[i] && Sliding(i + 1, sp.mbase + sp.size, was, zs, loose, told) && Bodies() == old(Bodies())
      ensures !m ==> Bases(q) == old(Bases(q)) && mem[..] == old(mem[..])
      ensures if m then Counted(Bases(q), was, zs, i + 1, n + 1, c + sp.size)
              else Counted(Bases(q), was, zs, i + 1, n, c)
    {
      hide Valid, Laid, Lo, Part, Loose, Sizes, Bases, Snapshot, Settled, Bodies, Marked, HowMany, HowMuch;
      ghost var bs := Bases(q);
      LoIs(q, corebot, i);
      sp := q[i];
      m := Slide1(sp, b, i, loose, was, told);
      SettledStep(q, corebot, bs, zs, was, loose, i, Bases(q));
      LoIs(q, corebot, i + 1);
      assert Bases(q)[i] == sp.mbase;
      MovedNext(bs, Bases(q), was, zs, i, n, c);
    }

    /** The loop of segpack that slides everything down. */
    method Slide(ghost loose: seq<bool>, ghost told: set<Proc>) returns (moved: int)
      requires Valid() && Snapshot(loose) && forall p :: p in procs && p in told ==> p.sproto
      modifies q`mbase, procs`sproto, mem, this`segpackc
      ensures 0 <= moved <= |q| && (moved == 0 ==> Bases(q) == old(Bases(q)) && mem[..] == old(mem[..]))
      ensures Counted(Bases(q), old(Bases(q)), old(Sizes(q)), |q|, moved, segpackc - old(segpackc))
      ensures Bodies() == old(Bodies())
      ensures Sliding(|q|, Lo(q, corebot, |q|), old(Bases(q)), old(Sizes(q)), loose, told)
    {
      hide Valid, Laid, Lo, Part, Loose, Sizes, Bases, Snapshot, Settled, Bodies, Marked, Sliding, Counted;
      ghost var was, zs := Bases(q), Sizes(q);
      moved := 0;
      var b := corebot;
      var i := 0;
      SlideStart(loose, told);
      Columns(q);
      NotMoved(was, zs, 0);
      while i < |q|
        invariant 0 <= i <= |q| && Sliding(i, b, was, zs, loose, told) && Bodies() == old(Bodies())
        invariant 0 <= moved <= i && (moved == 0 ==> Bases(q) == was && mem[..] == old(mem[..]))
        invariant Counted(Bases(q), was, zs, i, moved, segpackc - old(segpackc))
      {
        var sp, m := SlideAt(i, b, was, zs, loose, told, moved, segpackc - old(segpackc));
        if m {
          segpackc := segpackc + sp.size;
          moved := moved + 1;
        }
        b := sp.mbase + sp.size;
        i := i + 1;
      }
      SlideEnd(b, was, zs, loose, told);
    }

    lemma {:induction false} SlideStart(loose: seq<bool>, told: set<Proc>)
      requires Valid() && Snapshot(loose) && forall p :: p in procs && p in told ==> p.sproto
      ensures Sliding(0, corebot, Bases(q), Sizes(q), loose, told)
    {
      hide Valid, Bases, Sizes;
      Columns(q);
    }

    lemma {:induction false} SlideEnd(b: int, was: seq<int>, zs: seq<int>, loose: seq<bool>, told: set<Proc>)
      requires Sliding(|q|, b, was, zs, loose, told)
      ensures b == Lo(q, corebot, |q|)
    {
      hide Valid, Bases, Sizes, Marked, Settled, Lo;
      LoIs(q, corebot, |q|);
    }

    /** If every segment could be moved, each lies right behind the one before. */
    lemma {:induction false} Packed(k: nat, b: int, was: seq<int>, zs: seq<int>, loose: seq<bool>, told: set<Proc>)
      requires Sliding(|q|, b, was, zs, loose, told) && k <= |q|
      requires forall j :: 0 <= j < |q| ==> loose[j] && Reaches(q[j].down, corebot + Taken(q, j), zs[j])
      ensures Lo(q, corebot, k) == corebot + Taken(q, k)
      decreases k
    {
      hide Valid, Bases, Sizes, Marked, Loose;
      if k > 0 {
        Packed(k - 1, b, was, zs, loose, told);
        LoIs(q, corebot, k - 1);
        LoIs(q, corebot, k);
        assert Settled(q, corebot, Bases(q), zs, was, loose, k - 1);
      }
    }

    /** segpack: when there is room for s clicks in all but not in one hole, slide every
        segment down that can be. */
    method SegPack(s: nat) returns (moved: int, ghost ran: bool, ghost loose: seq<bool>)
      requires Valid()
      modifies q`mbase, procs`sproto, mem, this`segpackc, this`segpacks
      ensures Valid() && Bodies() == old(Bodies()) && Sizes(q) == old(Sizes(q)) && Snapshot(loose)
      ensures moved >= 0 && (moved == 0 ==> Bases(q) == old(Bases(q)) && mem[..] == old(mem[..]))
      ensures ran <==> coretop - corebot - old(Taken(q, |q|)) >= s && !old(Room(q, corebot, coretop, s))
      ensures ran ==> Sliding(|q|, Lo(q, corebot, |q|), old(Bases(q)), old(Sizes(q)), loose, old(Told()))
      ensures !ran ==> moved == 0
      ensures Counted(Bases(q), old(Bases(q)), old(Sizes(q)), |q|, moved, segpackc - old(segpackc))
      ensures segpacks == old(segpacks) + if ran then 1 else 0
    {
      hide Valid, Laid, Lo, Gap, Taken, Part, Bodies, Loose, Sizes, Bases, Sliding, Snapshot, Room, Told, Counted;
      ghost var told := Told();
      ToldIs();
      Columns(q);
      NotMoved(Bases(q), Sizes(q), |q|);
      var tot, big := Holes(s);
      loose := TakeSnapshot();
      moved := 0;
      ran := false;
      if big < s && tot >= s {
        ran := true;
        moved := Compact(loose, told);
      }
    }

    method Compact(ghost loose: seq<bool>, ghost told: set<Proc>) returns (moved: int)
      requires Valid() && Snapshot(loose) && forall p :: p in procs && p in told ==> p.sproto
      modifies q`mbase, procs`sproto, mem, this`segpackc, this`segpacks
      ensures Valid() && Bodies() == old(Bodies()) && Sizes(q) == old(Sizes(q)) && Snapshot(loose)
      ensures Counted(Bases(q), old(Bases(q)), old(Sizes(q)), |q|, moved, segpackc - old(segpackc))
      ensures segpacks == old(segpacks) + 1
      ensures moved >= 0 && (moved == 0 ==> Bases(q) == old(Bases(q)) && mem[..] == old(mem[..]))
      ensures Sliding(|q|, Lo(q, corebot, |q|), old(Bases(q)), old(Sizes(q)), loose, told)
    {
      hide Valid, Laid, Lo, Part, Bodies, Loose, Sizes, Bases, Sliding, Snapshot, Counted;
      moved := Slide(loose, told);
      SlidingValid(|q|, Lo(q, corebot, |q|), old(Bases(q)), old(Sizes(q)), loose, told);
      segpacks := segpacks + 1;
    }

    ghost function Told(): set<Proc>
      reads procs`sproto
    {
      set p | p in procs && p.sproto
    }

    lemma {:induction false} ToldIs()
      ensures forall p :: p in procs && p in Told() ==> p.sproto
    {
    }

    /** What compaction promises: if every segment could be moved, all that is free is one
        hole at the top. */
    lemma {:induction false} OneHole(was: seq<int>, zs: seq<int>, loose: seq<bool>, told: set<Proc>)
      requires Sliding(|q|, Lo(q, corebot, |q|), was, zs, loose, told)
      requires forall j :: 0 <= j < |q| ==> loose[j] && Reaches(q[j].down, corebot + Taken(q, j), zs[j])
      ensures Gap(q, corebot, coretop, |q|) == coretop - corebot - Taken(q, |q|)
      ensures forall i :: 0 <= i < |q| ==> Gap(q, corebot, coretop, i) == 0
    {
      hide Valid, Bases, Sizes, Marked, Loose, Sliding, Lo, Taken;
      var b := Lo(q, corebot, |q|);
      Packed(|q|, b, was, zs, loose, told);
      forall i | 0 <= i < |q| ensures Gap(q, corebot, coretop, i) == 0 {
        Packed(i, b, was, zs, loose, told);
        Packed(i + 1, b, was, zs, loose, told);
        Next(q, corebot, i);
      }
    }

    lemma {:induction false} SlidingValid(i: nat, b: int, was: seq<int>, zs: seq<int>, loose: seq<bool>,
                                          told: set<Proc>)
      requires Sliding(i, b, was, zs, loose, told)
      ensures Valid() && Snapshot(loose) && Sizes(q) == zs
    {
    }

    /** Segment i of the queue has been given base b and size s between its neighbours. */
    lemma {:induction false} InPlace(bs: seq<int>, zs: seq<int>, bo: seq<seq<Click>>, m: seq<Click>, i: nat, lo: int,
                                     hi: int)
      requires Apart(bs, zs, corebot, coretop) && coretop <= |m| == mem.Length
      requires i < |q| == |bs| == |zs| == |bo| && forall j, k :: 0 <= j < k < |q| ==> q[j] != q[k]
      requires lo == if i == 0 then corebot else bs[i - 1] + zs[i - 1]
      requires hi == if i + 1 == |bs| then coretop else bs[i + 1]
      requires lo <= q[i].mbase && 0 <= q[i].size && q[i].mbase + q[i].size <= hi
      requires forall k {:trigger q[k]} :: 0 <= k < |q| && k != i ==> q[k].mbase == bs[k] && q[k].size == zs[k]
      requires forall k {:trigger bs[k]} :: 0 <= k < |q| ==>
        0 <= bs[k] && 0 <= zs[k] && bs[k] + zs[k] <= |m| && bo[k] == Part(m, bs[k], zs[k])
      requires SameOutside(m, mem[..], lo, hi)
      ensures Valid() && forall k :: 0 <= k < |q| && k != i ==> Body(q[k]) == bo[k]
    {
      hide Bases, Sizes, Apart, Part, Laid;
      Replaced(bs, zs, m, mem[..], corebot, coretop, i, lo, hi, q[i].mbase, q[i].size);
      Columns(q);
      assert Bases(q) == bs[i := q[i].mbase] && Sizes(q) == zs[i := q[i].size];
      LaidIsApart(q, corebot, coretop);
      LaidFits(q, corebot, coretop);
      forall k | 0 <= k < |q| && k != i ensures Body(q[k]) == bo[k] {
        assert bs[k] == Bases(q)[k] == q[k].mbase && zs[k] == Sizes(q)[k] == q[k].size;
      }
    }

    /** What is known around segment i. */
    lemma {:induction false} Around(i: nat)
      requires Valid() && i < |q|
      ensures var bs, zs, bo := Bases(q), Sizes(q), Bodies();
        && Apart(bs, zs, corebot, coretop) && |bs| == |zs| == |bo| == |q|
        && bs[i] == q[i].mbase && zs[i] == q[i].size >= 0 && Body(q[i]) == Part(mem[..], bs[i], zs[i])
        && Lo(q, corebot, i) == (if i == 0 then corebot else bs[i - 1] + zs[i - 1])
        && Hi(q, coretop, i + 1) == if i + 1 == |bs| then coretop else bs[i + 1]
      ensures 0 <= corebot <= Lo(q, corebot, i) <= q[i].mbase
      ensures q[i].mbase + q[i].size <= Hi(q, coretop, i + 1) <= coretop <= mem.Length
      ensures forall k {:trigger Bases(q)[k]} :: 0 <= k < |q| ==>
        0 <= Bases(q)[k] && 0 <= Sizes(q)[k] && Bases(q)[k] + Sizes(q)[k] <= mem.Length &&
        Bodies()[k] == Part(mem[..], Bases(q)[k], Sizes(q)[k])
      ensures forall j, k :: 0 <= j < k < |q| ==> q[j] != q[k]
    {
      hide Bases, Sizes, Bodies, Part, Apart;
      LaidIsApart(q, corebot, coretop);
      Columns(q);
      BodiesAre();
      LaidAt(q, corebot, coretop, i);
      LaidAt(q, corebot, coretop, i + 1);
    }

    /** seggrow when the segment does not get larger. */
    method Shrink(sp: Seg, s: nat, ghost i: nat)
      requires Valid() && i < |q| && q[i] == sp && s <= sp.size
      modifies sp`mbase, sp`size
      ensures Valid() && sp.size == s && Body(sp) == Grown(old(Body(sp)), s, sp.down)
      ensures if sp.down then sp.mbase + s == old(sp.mbase + sp.size) else sp.mbase == old(sp.mbase)
      ensures forall k :: 0 <= k < |q| && k != i ==> Body(q[k]) == old(Bodies())[k]
    {
      hide Valid, Laid, Apart, Bases, Sizes, Bodies, Part, Grown, Lo, Hi;
      Around(i);
      ghost var bs, zs, bo, m := Bases(q), Sizes(q), Bodies(), mem[..];
      ghost var lo, hi := Lo(q, corebot, i), Hi(q, coretop, i + 1);
      Shrunk(m, sp.mbase, sp.size, s, sp.down);
      Columns(q);
      var d := s - sp.size;
      if sp.down {
        sp.mbase := sp.mbase - d;
      }
      sp.size := s;
      InPlace(bs, zs, bo, m, i, lo, hi);
    }

    /** seggrow when there is room enough behind the segment. */
    method ExtendUp(sp: Seg, s: nat, ghost i: nat)
      requires Valid() && i < |q| && q[i] == sp && s > sp.size && !sp.down
      requires Hi(q, coretop, i + 1) - sp.mbase >= s
      modifies sp`size, mem
      ensures Valid() && sp.size == s && Body(sp) == Grown(old(Body(sp)), s, sp.down)
      ensures sp.mbase == old(sp.mbase)
      ensures forall k :: 0 <= k < |q| && k != i ==> Body(q[k]) == old(Bodies())[k]
    {
      hide Valid, Laid, Apart, Bases, Sizes, Bodies, Part, Grown, Lo, Hi, SameOutside, Moved, Cleared;
      Around(i);
      Columns(q);
      var d := s - sp.size;
      ghost var bs, zs, bo, m := Bases(q), Sizes(q), Bodies(), mem[..];
      ghost var lo, hi := Lo(q, corebot, i), Hi(q, coretop, i + 1);
      InPlaceGrows(m, lo, hi, sp.mbase, sp.size, d, false);
      SClear(mem, sp.mbase + sp.size, d);
      sp.size := s;
      InPlace(bs, zs, bo, m, i, lo, hi);
    }

    /** seggrow when there is room enough before a segment that grows down. */
    method ExtendDown(sp: Seg, s: nat, ghost i: nat)
      requires Valid() && i < |q| && q[i] == sp && s > sp.size && sp.down
      requires sp.mbase + sp.size - Lo(q, corebot, i) >= s
      modifies sp`mbase, sp`size, mem
      ensures Valid() && sp.size == s && Body(sp) == Grown(old(Body(sp)), s, sp.down)
      ensures sp.mbase + s == old(sp.mbase + sp.size)
      ensures forall k :: 0 <= k < |q| && k != i ==> Body(q[k]) == old(Bodies())[k]
    {
      hide Valid, Laid, Apart, Bases, Sizes, Bodies, Part, Grown, Lo, Hi, SameOutside, Moved, Cleared;
      Around(i);
      Columns(q);
      var d := s - sp.size;
      ghost var bs, zs, bo, m := Bases(q), Sizes(q), Bodies(), mem[..];
      ghost var lo, hi := Lo(q, corebot, i), Hi(q, coretop, i + 1);
      InPlaceGrows(m, lo, hi, sp.mbase, sp.size, d, true);
      sp.mbase := sp.mbase - d;
      SClear(mem, sp.mbase, d);
      sp.size := s;
      InPlace(bs, zs, bo, m, i, lo, hi);
    }

    /** seggrow when there is room enough before and behind together: pb and nb bound it. */
    method SlideBetween(sp: Seg, s: nat, pb: int, nb: int, ghost i: nat)
      requires Valid() && i < |q| && q[i] == sp && s > sp.size
      requires Hi(q, coretop, i + 1) - Lo(q, corebot, i) >= s && pb == Lo(q, corebot, i) && nb == Hi(q, coretop, i + 1)
      modifies sp`mbase, sp`size, mem
      ensures Valid() && sp.size == s && Body(sp) == Grown(old(Body(sp)), s, sp.down)
      ensures sp.mbase == if sp.down then nb - s else pb
      ensures forall k :: 0 <= k < |q| && k != i ==> Body(q[k]) == old(Bodies())[k]
    {
      hide Valid, Laid, Apart, Bases, Sizes, Bodies, Part, Grown, Lo, Hi, SameOutside, Moved, Cleared;
      Around(i);
      Columns(q);
      var d := s - sp.size;
      ghost var bs, zs, bo, m := Bases(q), Sizes(q), Bodies(), mem[..];
      ghost var lo, hi := Lo(q, corebot, i), Hi(q, coretop, i + 1);
      sp.mbase := SlideCopy(mem, sp.mbase, sp.size, pb, nb, d, sp.down);
      sp.size := s;
      InPlace(bs, zs, bo, m, i, lo, hi);
    }

    lemma {:induction false} ValidLaid()
      requires Valid()
      ensures Laid(q, corebot, coretop)
    {
    }

    /** A new descriptor, linked in front of segment i. */
    method Insert(i: int, s: nat, base: int, down: bool, high: bool) returns (sp: Seg)
      requires Valid() && 0 <= i <= |q|
      requires Lo(q, corebot, i) <= base && base + s <= Hi(q, coretop, i)
      modifies this`q
      ensures Valid() && Allocated(sp, s, down, high, old(q), i)
      ensures fresh(sp) && sp.mbase == base
    {
      hide Laid, Lo, Hi;
      sp := new Seg(s, base, 0, true, down, high);
      assert forall k :: 0 <= k < |q| ==> q[k] != sp;
      LaidWith(q, corebot, coretop, i, sp);
      Surgery(q, i, sp);
      q := q[..i] + [sp] + q[i..];
    }

    /** First fit: the lowest hole that is large enough, if there is one. */
    method FirstFit(s: nat) returns (found: bool, s1: int, i: nat)
      requires Valid()
      ensures found <==> Room(q, corebot, coretop, s)
      ensures found ==> i <= |q| && s1 == Lo(q, corebot, i) && s1 + s <= Hi(q, coretop, i)
      ensures found ==> forall k :: 0 <= k < i ==> Gap(q, corebot, coretop, k) < s
    {
      hide Laid, Lo, Hi, Gap, Valid, Room;
      s1, i := corebot, 0;
      ValidLaid();
      FirstGap(q, corebot, coretop);
      while true
        invariant 0 <= i <= |q| && s1 == Lo(q, corebot, i)
        invariant forall k :: 0 <= k < i ==> Gap(q, corebot, coretop, k) < s
        decreases |q| - i
      {
        var s2 := if i < |q| then q[i].mbase else coretop;
        GapIs(q, corebot, coretop, i);
        GapEnds(q, corebot, coretop, i);
        if s2 - s1 >= s {
          IsRoom(q, corebot, coretop, s, i);
          return true, s1, i;
        }
        if i == |q| {
          NoRoom(q, corebot, coretop, s);
          return false, s1, i;
        }
        s1 := q[i].mbase + q[i].size;
        i := i + 1;
      }
    }

    /** smalloc. */
    method SMalloc(s: nat, down: bool, high: bool, kalloc: bool) returns (sp: Seg?, at: nat)
      requires Valid()
      modifies this`q
      ensures Valid()
      ensures sp == null ==> q == old(q) && (kalloc ==> !Room(q, corebot, coretop, s))
      ensures sp != null ==>
        Allocated(sp, s, down, high, old(q), at) && fresh(sp) && sp.mbase == old(Lo(q, corebot, at))
      ensures sp != null ==> old(Gap(q, corebot, coretop, at)) >= s
      ensures sp != null ==> forall k :: 0 <= k < at ==> old(Gap(q, corebot, coretop, k)) < s
    {
      hide Laid, Valid, Allocated, Room;
      var found, s1, i := FirstFit(s);
      if !found || !kalloc {
        return null, 0;
      }
      assert forall k :: 0 <= k < i ==> Gap(q, corebot, coretop, k) == old(Gap(q, corebot, coretop, k));
      sp := Insert(i, s, s1, down, high);
      return sp, i;
    }

    /** shalloc: the top of the highest hole that is large enough. */
    method SHAlloc(s: nat, down: bool, high: bool, kalloc: bool) returns (sp: Seg?, at: nat)
      requires Valid()
      modifies this`q
      ensures Valid()
      ensures sp == null ==> q == old(q) && (kalloc ==> !Room(q, corebot, coretop, s))
      ensures sp != null ==>
        Allocated(sp, s, down, high, old(q), at) && fresh(sp) && sp.mbase == old(Hi(q, coretop, at)) - s
      ensures sp != null ==> old(Gap(q, corebot, coretop, at)) >= s
      ensures sp != null ==> forall k :: at < k <= |old(q)| ==> old(Gap(q, corebot, coretop, k)) < s
    {
      hide Laid, Lo, Hi, Gap, Valid, Allocated, Room;
      var s2 := coretop;
      var i := |q|;
      at := 0;
      GapEnds(q, corebot, coretop, i);
      while true
        invariant q == old(q) && Valid() && 0 <= i <= |q| && s2 == Hi(q, coretop, i)
        invariant forall k :: i < k <= |q| ==> Gap(q, corebot, coretop, k) == old(Gap(q, corebot, coretop, k)) < s
        decreases i
      {
        var s1 := if i > 0 then q[i - 1].mbase + q[i - 1].size else corebot;
        GapIs(q, corebot, coretop, i);
        GapEnds(q, corebot, coretop, i);
        if s2 - s1 >= s {
          if !kalloc {
            return null, i;
          }
          sp := Insert(i, s, s2 - s, down, high);
          return sp, i;
        }
        if i == 0 {
          NoRoom(q, corebot, coretop, s);
          return null, i;
        }
        i := i - 1;
        s2 := q[i].mbase;
        GapEnds(q, corebot, coretop, i);
      }
    }

    /** sp is a new segment in front of what was segment at. */
    ghost predicate Allocated(sp: Seg, s: nat, down: bool, high: bool, was: seq<Seg>, at: nat)
      reads this`q, sp
    {
      && at <= |was| && q == With(was, at, sp)
      && sp.size == s && sp.core && sp.down == down && sp.high == high && sp.urefc == 1 && sp.lrefc == 1
    }

    lemma {:induction false} AllocatedAt(sp: Seg, s: nat, down: bool, high: bool, was: seq<Seg>, at: nat)
      requires Allocated(sp, s, down, high, was, at)
      ensures at <= |was|
    {
    }

    /** sxalloc. */
    method SXAlloc(s: nat, down: bool, high: bool, kalloc: bool) returns (sp: Seg?, at: nat)
      requires Valid()
      modifies this`q
      ensures Valid()
      ensures sp == null ==> q == old(q) && (kalloc ==> !Room(q, corebot, coretop, s))
      ensures sp != null ==> fresh(sp) && Allocated(sp, s, down, high, old(q), at)
      ensures sp != null ==> Fitted(old(q), corebot, coretop, s, high, at, sp.mbase)
    {
      hide Valid, Room, Allocated, Lo, Hi, Gap;
      ghost var was := q;
      if high {
        sp, at := SHAlloc(s, down, high, kalloc);
      } else {
        sp, at := SMalloc(s, down, high, kalloc);
      }
      if sp != null {
        AllocatedAt(sp, s, down, high, was, at);
        assert Lo(was, corebot, at) == old(Lo(q, corebot, at)) && Hi(was, coretop, at) == old(Hi(q, coretop, at));
        forall k | 0 <= k <= |was| ensures Gap(was, corebot, coretop, k) == old(Gap(q, corebot, coretop, k)) {
        }
      }
    }

    /** Nothing that is resident is wired down, and nothing mapped from the top is too low. */
    ghost predicate Movable()
      reads this`q, procs`segp, procs`wired, procs`swap, q`core, q`urefc, q`lrefc, q`size
    {
      forall j :: 0 <= j < |q| ==> Loose(procs, self, q[j]) && Reaches(q[j].down, corebot + Taken(q, j), q[j].size)
    }

    /** segpack's verdict is right: after it has run where everything can be moved, there is
        room, and it has moved something. */
    lemma {:induction false} Worthwhile(s: nat, was: seq<int>, zs: seq<int>, loose: seq<bool>, told: set<Proc>)
      requires Sliding(|q|, Lo(q, corebot, |q|), was, zs, loose, told)
      requires Movable() && coretop - corebot - Taken(q, |q|) >= s
      ensures Room(q, corebot, coretop, s)
    {
      hide Loose, Valid, Reaches, Marked, Settled, Gap, Bases, Sizes;
      Columns(q);
      OneHole(was, zs, loose, told);
    }

    /** salloc with SFNSWP: compacts memory when there is room only in pieces, and places the
        segment among the others as they then lie.  clear: SFNCLR is not set. */
    method SAlloc(s: nat, down: bool, high: bool, clear: bool, kalloc: bool) returns (sp: Seg?, at: nat)
      requires Valid()
      modifies this`q, q`mbase, procs`sproto, mem, this`segpackc, this`segpacks
      ensures Valid()
      ensures sp == null ==> q == old(q)
      ensures sp == null && kalloc ==> !(Movable() && coretop - corebot - Taken(q, |q|) >= s)
      ensures sp != null ==> fresh(sp) && Allocated(sp, s, down, high, old(q), at)
      ensures sp != null ==> Fitted(old(q), corebot, coretop, s, high, at, sp.mbase)
      ensures kalloc && old(Room(q, corebot, coretop, s)) ==> sp != null && Bases(old(q)) == old(Bases(q))
      ensures sp != null && clear ==> Body(sp) == Zeros(s)
      ensures forall k {:trigger old(q)[k]} :: 0 <= k < |old(q)| ==> Body(old(q)[k]) == old(Bodies())[k]
    {
      hide Valid, Room, Allocated, Bodies, Body, Bases, Part, Lo, Hi, Taken, Movable, Fitted;
      BodiesBody();
      Columns(q);
      sp, at := SXAlloc(s, down, high, kalloc);
      if sp == null {
        sp, at := PackAndRetry(s, down, high, kalloc);
      }
      Columns(old(q));
      if sp != null && clear {
        ClearNew(sp, s, down, high, old(q), at);
      }
    }

    /** The clearing of a new segment, of which no other notices anything. */
    method ClearNew(sp: Seg, s: nat, ghost down: bool, ghost high: bool, ghost was: seq<Seg>, ghost at: nat)
      requires Valid() && Allocated(sp, s, down, high, was, at)
      modifies mem
      ensures Body(sp) == Zeros(s)
      ensures forall k {:trigger was[k]} :: 0 <= k < |was| ==> Body(was[k]) == old(Body(was[k]))
    {
      hide Valid, Laid, Part, Bodies, Cleared, Lo, Hi;
      assert q[at] == sp;
      BodyIs(sp, at);
      ValidLaid();
      ghost var m := mem[..];
      SClear(mem, sp.mbase, s);
      PartCleared(m, sp.mbase, s);
      BodyIs(sp, at);
      forall k | 0 <= k < |was| ensures Body(was[k]) == old(Body(was[k])) {
        var j := if k < at then k else k + 1;
        assert q[j] == was[k];
        BodyIs(was[k], j);
        Disjoint(q, corebot, coretop, at, j);
        PartBeside(m, sp.mbase, s, was[k].mbase, was[k].size);
      }
    }

    method PackAndRetry(s: nat, down: bool, high: bool, kalloc: bool) returns (sp: Seg?, at: nat)
      requires Valid() && (kalloc ==> !Room(q, corebot, coretop, s))
      modifies this`q, q`mbase, procs`sproto, mem, this`segpackc, this`segpacks
      ensures Valid()
      ensures sp == null ==> q == old(q)
      ensures sp == null && kalloc ==> !(Movable() && coretop - corebot - Taken(q, |q|) >= s)
      ensures sp != null ==> fresh(sp) && Allocated(sp, s, down, high, old(q), at)
      ensures sp != null ==> Fitted(old(q), corebot, coretop, s, high, at, sp.mbase)
      ensures forall k {:trigger old(q)[k]} :: 0 <= k < |old(q)| ==> Body(old(q)[k]) == old(Bodies())[k]
    {
      hide Fitted, Valid, Room, Allocated, Bodies, Part, Sliding, Snapshot, Lo, Hi, Taken, Movable, Told, Bases, Sizes;
      hide Loose, HasHole;
      RoomIs(q, corebot, coretop, s);
      var moved, ran, loose := SegPack(s);
      BodiesBody();
      sp, at := null, 0;
      if moved == 0 {
        if kalloc && Movable() && coretop - corebot - Taken(q, |q|) >= s {
          Worthwhile(s, old(Bases(q)), old(Sizes(q)), loose, old(Told()));
          RoomIs(q, corebot, coretop, s);
        }
        return;
      }
      if kalloc && Movable() && coretop - corebot - Taken(q, |q|) >= s {
        Worthwhile(s, old(Bases(q)), old(Sizes(q)), loose, old(Told()));
      }
      sp, at := SXAlloc(s, down, high, kalloc);
    }

    /** satcopy: sp takes the place of sp1 in the queue, and its base and size. */
    method SatCopy(sp: Seg, sp1: Seg, k: int, at: int)
      requires Valid() && 0 <= k < |q| && 0 <= at < |q| && k != at && q[k] == sp && q[at] == sp1
      modifies this`q, sp`mbase, sp`size
      ensures Valid() && sp.mbase == old(sp1.mbase) && sp.size == old(sp1.size)
      ensures q == Without(old(q)[at := sp], k)
    {
      hide Valid, Laid, Apart, Bases, Sizes;
      ValidIs();
      LaidIsApart(q, corebot, coretop);
      Columns(q);
      ghost var bs, zs, q1 := Bases(q), Sizes(q), q;
      var r := q[at := sp];
      WithoutIs(r, k);
      q := r[..k] + r[k + 1..];
      sp.size := sp1.size;
      sp.mbase := sp1.mbase;
      LaidFrom(q, bs, zs, corebot, coretop, k);
      ValidIs();
    }

    lemma {:induction false} ValidIs()
      ensures Valid() <==> Laid(q, corebot, coretop) && coretop <= mem.Length
    {
    }

    /** The contents of sp, and the space it grows by, in the place of sp1. */
    method CopyTo(sp: Seg, sp1: Seg, s: nat, ghost k: nat, ghost at: nat)
      requires Valid() && k < |q| && at < |q| && k != at && q[k] == sp && q[at] == sp1 && sp1.size == s > sp.size
      modifies mem
      ensures Part(mem[..], sp1.mbase, s) == Grown(old(Body(sp)), s, sp.down)
      ensures forall x :: 0 <= x < |q| && x != at ==> Body(q[x]) == old(Bodies())[x]
    {
      hide Valid, Laid, Apart, Bases, Sizes, Bodies, Part, Grown, Lo, Hi, SameOutside, Moved, Cleared;
      Around(at);
      BodyIs(sp, k);
      ValidLaid();
      Disjoint(q, corebot, coretop, k, at);
      Columns(q);
      ghost var bs, zs, bo, m := Bases(q), Sizes(q), Bodies(), mem[..];
      var d := s - sp.size;
      CopyAcross(mem, sp.mbase, sp.size, sp1.mbase, d, sp.down);
      SameWider(m, mem[..], sp1.mbase, sp1.mbase + s, Lo(q, corebot, at), Hi(q, coretop, at + 1));
      InPlace(bs, zs, bo, m, at, Lo(q, corebot, at), Hi(q, coretop, at + 1));
    }

    /** What remains of the fourth branch when its place is found. */
    method Relocate(sp: Seg, sp1: Seg, s: nat, i: nat, at: nat, ghost was: seq<Seg>, ghost bo: seq<seq<Click>>)
      requires Valid() && i < |was| == |bo| && was[i] == sp && at <= |was| && q == With(was, at, sp1) && sp1 !in was
      requires sp1.size == s > sp.size
      requires forall k {:trigger was[k]} :: 0 <= k < |was| ==> Body(was[k]) == bo[k]
      modifies this`q, sp`mbase, sp`size, mem
      ensures Valid() && sp in q && sp.size == s && Body(sp) == Grown(bo[i], s, sp.down)
      ensures SameOthers(sp, i, was, bo)
    {
      hide Valid, Laid, Grown, Part, Bodies, Body;
      var k := if i < at then i else i + 1;
      BodiesBody();
      CopyTo(sp, sp1, s, k, at);
      ValidLaid();
      LaidFits(q, corebot, coretop);
      forall j | 0 <= j < |was| ensures j != i ==> was[j] != sp && Body(was[j]) == bo[j] {
        assert q[if j < at then j else j + 1] == was[j];
      }
      SatCopy(sp, sp1, k, at);
      ChangedPlaces(was, i, at, sp1, k);
      assert q == Without(With(was, at, sp1)[at := sp], k);
      BodyIs(sp, if at < k then at else at - 1);
    }

    lemma {:induction false} BodyIs(sp: Seg, k: int)
      requires Valid() && 0 <= k < |q| && q[k] == sp
      ensures 0 <= sp.mbase && 0 <= sp.size && sp.mbase + sp.size <= mem.Length
      ensures Body(sp) == Part(mem[..], sp.mbase, sp.size)
    {
    }

    lemma {:induction false} SameNow(sp: Seg, i: nat, c: seq<Seg>, bo: seq<seq<Click>>)
      requires |c| == |bo| && q == c && forall k {:trigger c[k]} :: 0 <= k < |c| ==> Body(c[k]) == bo[k]
      ensures SameOthers(sp, i, c, bo)
    {
    }

    /** seggrow's fourth branch: a place of the right size elsewhere. */
    method Reallocate(sp: Seg, s: nat, kalloc: bool, i: nat) returns (ok: bool)
      requires Valid() && i < |q| && q[i] == sp && s > sp.size
      modifies this`q, q`mbase, sp`size, procs`sproto, mem, this`segpackc, this`segpacks
      ensures Valid()
      ensures if ok then sp in q && sp.size == s && Body(sp) == Grown(old(Body(sp)), s, sp.down)
        else q == old(q) && sp.size == old(sp.size) && Body(sp) == old(Body(sp))
      ensures !ok && kalloc ==> !(Movable() && coretop - corebot - Taken(q, |q|) >= s)
      ensures kalloc && old(Movable() && coretop - corebot - Taken(q, |q|) >= s) ==> ok
      ensures SameOthers(sp, i, old(q), old(Bodies()))
    {
      hide Valid, Bodies, Body, Movable, Taken, SameOthers, Grown;
      BodiesBody();
      var sp1, at := SAlloc(s, sp.down, sp.high, false, kalloc);
      if sp1 == null {
        SameNow(sp, i, old(q), old(Bodies()));
        assert q[i] == sp;
        return false;
      }
      Relocate(sp, sp1, s, i, at, old(q), old(Bodies()));
      return true;
    }

    /** The hole sdalloc finds on the swap device, in front of what was segment at. */
    method SDAlloc(s: nat, kalloc: bool) returns (found: bool, d: int, at: nat)
      requires SwapValid()
      ensures found ==> DiskFitted(dq, swapbot, swaptop, s, at, d)
      ensures !found && kalloc ==> DiskFull(dq, swapbot, swaptop, s)
      ensures !kalloc ==> !found
    {
      var d1 := swapbot;
      at := 0;
      while true
        invariant 0 <= at <= |dq| && swapbot <= d1 == DiskFrom(dq, swapbot, at)
        invariant forall k {:trigger dq[k]} :: 0 <= k < at ==> dq[k].dbase + 2 * dq[k].size <= d1
        invariant forall k {:trigger DiskRoom(dq, swapbot, swaptop, k)} :: 0 <= k < at ==>
          DiskRoom(dq, swapbot, swaptop, k) < 2 * s
        decreases |dq| - at
      {
        if d1 >= swaptop {
          forall k | at <= k <= |dq|
            ensures DiskFrom(dq, swapbot, k) >= swaptop
          {
            DiskFromGrows(dq, swapbot, swaptop, at, k);
          }
          return false, d1, at;
        }
        var d2 := if at < |dq| then dq[at].dbase else swaptop;
        assert d2 - d1 == DiskRoom(dq, swapbot, swaptop, at);
        if d2 - d1 >= 2 * s {
          return kalloc, d1, at;
        }
        if at == |dq| {
          return false, d1, at;
        }
        d1 := dq[at].dbase + 2 * dq[at].size;
        at := at + 1;
      }
    }

    /** swapio to the device: two blocks a click. */
    method SwapOut(c: int, d: int, n: nat)
      requires 0 <= c && c + n <= mem.Length && 0 <= d && d + 2 * n <= disk.Length
      modifies disk
      ensures Imaged(disk[..], d, Part(mem[..], c, n))
      ensures forall x :: 0 <= x < disk.Length && !(d <= x < d + 2 * n) ==> disk[x] == old(disk[x])
    {
      var i := 0;
      ghost var p := Part(mem[..], c, n);
      while i < n
        invariant 0 <= i <= n
        invariant forall k {:trigger p[k]} :: 0 <= k < i ==> p[k] == Click(disk[d + 2 * k], disk[d + 2 * k + 1])
        invariant forall x :: 0 <= x < disk.Length && !(d <= x < d + 2 * i) ==> disk[x] == old(disk[x])
      {
        disk[d + 2 * i] := mem[c + i].lo;
        disk[d + 2 * i + 1] := mem[c + i].hi;
        i := i + 1;
      }
    }

    /** swapio from the device. */
    method SwapIn(c: int, d: int, n: nat)
      requires 0 <= c && c + n <= mem.Length && 0 <= d && d + 2 * n <= disk.Length
      modifies mem
      ensures Imaged(disk[..], d, Part(mem[..], c, n))
      ensures SameOutside(old(mem[..]), mem[..], c, c + n)
    {
      var i := 0;
      while i < n
        invariant 0 <= i <= n
        invariant forall x {:trigger mem[x]} :: c <= x < c + i ==>
          mem[x] == Click(disk[d + 2 * (x - c)], disk[d + 2 * (x - c) + 1])
        invariant forall x {:trigger mem[x]} :: 0 <= x < mem.Length && !(c <= x < c + i) ==> mem[x] == old(mem[x])
      {
        mem[c + i] := Click(disk[d + 2 * i], disk[d + 2 * i + 1]);
        i := i + 1;
      }
    }

    /** segsext up to segfinm: the segment goes to the swap device, into a hole of s clicks. */
    method SwapAway(sp: Seg, s: nat, i: int, d: int, at: int)
      requires Valid() && SwapValid() && 0 <= i < |q| && q[i] == sp && sp !in dq && s > sp.size
      requires DiskHole(dq, swapbot, swaptop, at, d, s)
      modifies this`q, this`dq, sp`size, sp`dbase, sp`core, disk
      ensures Valid() && SwapValid() && q == Without(old(q), i) && dq == With(old(dq), at, sp)
      ensures sp.size == s && sp.dbase == d && !sp.core && sp !in q
      ensures Imaged(disk[..], d, old(Body(sp)))
      ensures forall t :: t in old(dq) ==> Image(t) == old(Image(t))
    {
      hide Laid, OnDisk, DiskHole, Part;
      ValidLaid();
      LaidFits(q, corebot, coretop);
      BodyIs(sp, i);
      HoleFits(dq, swapbot, swaptop, at, d, s);
      HoleMisses(dq, swapbot, swaptop, at, d, s);
      var z := sp.size;
      if z != 0 {
        SwapOut(sp.mbase, d, z);
      }
      forall t | t in dq ensures Image(t) == old(Image(t)) {
      }
      ToDisk(sp, s, i, d, at);
    }

    /** satcopy from the one queue to the other. */
    method ToDisk(sp: Seg, s: nat, i: int, d: int, at: int)
      requires Valid() && SwapValid() && 0 <= i < |q| && q[i] == sp && sp !in dq
      requires DiskHole(dq, swapbot, swaptop, at, d, s)
      modifies this`q, this`dq, sp`size, sp`dbase, sp`core
      ensures Valid() && SwapValid() && q == Without(old(q), i) && dq == With(old(dq), at, sp)
      ensures sp.size == s && sp.dbase == d && !sp.core && sp !in q
    {
      hide Laid, OnDisk, DiskHole;
      HoleFits(dq, swapbot, swaptop, at, d, s);
      LaidWithout(q, corebot, coretop, i);
      WithoutIs(q, i);
      Surgery(dq, at, sp);
      q := q[..i] + q[i + 1..];
      sp.size, sp.dbase, sp.core := s, d, false;
      OnDiskWith(dq, swapbot, swaptop, at, sp);
      dq := dq[..at] + [sp] + dq[at..];
    }

    /** swapio into a hole of memory. */
    method ReadIn(c: int, d: int, n: nat, ghost j: nat)
      requires Valid() && j <= |q| && Lo(q, corebot, j) <= c && c + n <= Hi(q, coretop, j)
      requires 0 <= d && d + 2 * n <= disk.Length
      modifies mem
      ensures c + n <= mem.Length && 0 <= c && Imaged(disk[..], d, Part(mem[..], c, n))
      ensures forall t :: t in q ==> Body(t) == old(Body(t))
    {
      hide Laid, Lo, Hi, Part;
      ValidLaid();
      LaidAt(q, corebot, coretop, j);
      LaidFits(q, corebot, coretop);
      Clear(q, corebot, coretop, j);
      SwapIn(c, d, n);
      forall t | t in q ensures Body(t) == old(Body(t)) {
        var k :| 0 <= k < |q| && q[k] == t;
        PartStays(old(mem[..]), mem[..], t.mbase, t.size);
      }
    }

    /** segcore, the swapper's answer to segfinm: back into the lowest hole that is large
        enough.  Without one the caller goes on sleeping. */
    method BringBack(sp: Seg, at: int) returns (found: bool)
      requires Valid() && SwapValid() && 0 <= at < |dq| && dq[at] == sp && sp !in q
      modifies this`q, this`dq, sp`mbase, sp`core, mem
      ensures Valid() && SwapValid()
      ensures !found ==> q == old(q) && dq == old(dq) && mem[..] == old(mem[..]) && !Room(q, corebot, coretop, sp.size)
      ensures if found then sp.core && dq == Without(old(dq), at) else sp.core == old(sp.core)
      ensures found ==> exists j: nat :: (j <= |old(q)| && q == With(old(q), j, sp)
                                          && Fitted(old(q), corebot, coretop, sp.size, false, j, sp.mbase))
      ensures found ==> 0 <= sp.size && 0 <= sp.mbase && sp.mbase + sp.size <= mem.Length
      ensures found ==> Imaged(disk[..], sp.dbase, Part(mem[..], sp.mbase, sp.size))
      ensures forall t :: t in old(q) ==> Body(t) == old(Body(t))
    {
      hide Valid, SwapValid, Laid, OnDisk, Lo, Hi, Room, Body, Part, Imaged;
      var s1, j;
      DiskBounds(at);
      found, s1, j := FirstFit(sp.size);
      if !found {
        return;
      }
      GapIs(q, corebot, coretop, j);
      ReadIn(s1, sp.dbase, sp.size, j);
      ghost var was := q;
      assert Fitted(was, corebot, coretop, sp.size, false, j, s1) by { GapEnds(was, corebot, coretop, j); }
      FromDisk(sp, at, s1, j);
    }

    lemma {:induction false} DiskBounds(at: int)
      requires SwapValid() && 0 <= at < |dq|
      ensures 0 <= dq[at].size && 0 <= dq[at].dbase && dq[at].dbase + 2 * dq[at].size <= disk.Length
    {
    }

    method FromDisk(sp: Seg, at: int, s1: int, j: int)
      requires Valid() && SwapValid() && 0 <= at < |dq| && dq[at] == sp && sp !in q
      requires 0 <= j <= |q| && Lo(q, corebot, j) <= s1 && s1 + sp.size <= Hi(q, coretop, j)
      modifies this`q, this`dq, sp`mbase, sp`core
      ensures Valid() && SwapValid() && sp.core && sp.mbase == s1
      ensures q == With(old(q), j, sp) && dq == Without(old(dq), at)
    {
      hide Laid, OnDisk, Lo, Hi;
      ValidLaid();
      DiskBounds(at);
      OnDiskWithout(dq, swapbot, swaptop, at);
      WithoutIs(dq, at);
      dq := dq[..at] + dq[at + 1..];
      sp.core, sp.mbase := true, s1;
      LaidWith(q, corebot, coretop, j, sp);
      Surgery(q, j, sp);
      q := q[..j] + [sp] + q[j..];
    }

    /** The segment waits on the swap device, in the lowest room for its new size, with what it
        had, and no hole in memory is large enough for it. */
    ghost predicate OutLarger(sp: Seg, s: nat, c: seq<Click>, was: seq<Seg>)
      reads this`q, this`dq, q`mbase, q`size, sp`dbase, sp`size, sp`core, was`dbase, was`size, disk
    {
      && sp.size == s && !sp.core && Imaged(disk[..], sp.dbase, c) && !Room(q, corebot, coretop, s)
      && exists at: nat :: (at <= |was| && dq == With(was, at, sp)
                            && DiskFitted(was, swapbot, swaptop, s, at, sp.dbase))
    }

    lemma {:induction false} OutIs(sp: Seg, s: nat, c: seq<Click>, was: seq<Seg>, at: nat, d: int)
      requires sp.size == s && !sp.core && sp.dbase == d && Imaged(disk[..], d, c) && !Room(q, corebot, coretop, s)
      requires at <= |was| && dq == With(was, at, sp) && DiskFitted(was, swapbot, swaptop, s, at, d)
      ensures OutLarger(sp, s, c, was)
    {
      hide Imaged, Room, DiskFitted;
    }

    /** segsext: out to the swap device and back in with a larger size.  The first clicks
        come back; what else it has then is whatever the device held. */
    method SegExt(sp: Seg, s: nat, i: int, sex: bool, kalloc: bool) returns (r: Outcome)
      requires Valid() && SwapValid() && 0 <= i < |q| && q[i] == sp && sp !in dq && s > sp.size
      modifies this`q, this`dq, sp`size, sp`dbase, sp`core, sp`mbase, mem, disk
      ensures Valid() && SwapValid()
      ensures r.Refused? ==> q == old(q) && dq == old(dq) && mem[..] == old(mem[..]) && disk[..] == old(disk[..])
      ensures r.Refused? ==> sp.size == old(sp.size) && sp.mbase == old(sp.mbase)
      ensures r.Done? ==> dq == old(dq) && sp.core && sp.size == s
      ensures r.Done? ==> 0 <= sp.mbase && 0 <= old(sp.size) && sp.mbase + s <= mem.Length
      ensures r.Done? ==> Part(mem[..], sp.mbase, old(sp.size)) == old(Body(sp))
      ensures r.Done? ==> exists j: nat :: (j < |old(q)| && q == With(Without(old(q), i), j, sp)
                                            && Fitted(Without(old(q), i), corebot, coretop, s, false, j, sp.mbase))
      ensures r.Asleep? ==> q == Without(old(q), i) && sp in dq && OutLarger(sp, s, old(Body(sp)), old(dq))
      ensures r.Refused? && sex && kalloc ==> DiskFull(dq, swapbot, swaptop, s)
      ensures !sex || !kalloc ==> r.Refused?
      ensures forall t :: t in old(q) && t != sp ==> Body(t) == old(Body(t))
      ensures forall t :: t in old(dq) ==> t.size == old(t.size) && Image(t) == old(Image(t))
    {
      hide Valid, SwapValid, Laid, OnDisk, DiskHole, Body, Image, Part, Room, Fitted, DiskFitted, DiskFull, OutLarger,
           Imaged;
      if !sex {
        return Refused;
      }
      var found, d, at := SDAlloc(s, kalloc);
      if !found {
        return Refused;
      }
      DiskFittedIs(dq, swapbot, swaptop, s, at, d);
      HoleFits(dq, swapbot, swaptop, at, d, s);
      ghost var z, c := sp.size, Body(sp);
      BodyIs(sp, i);
      InWithout(q, i);
      Surgery(dq, at, sp);
      ghost var was := dq;
      assert forall k :: 0 <= k < |was| ==> was[k] != sp;
      SwapAway(sp, s, i, d, at);
      assert dq[at] == sp;
      assert DiskFitted(was, swapbot, swaptop, s, at, d);
      ghost var out := disk[..];
      found := BringBack(sp, at);
      if !found {
        assert dq[at] == sp;
        OutIs(sp, s, c, was, at, d);
        return Asleep;
      }
      Restored(out, d, c, mem[..], sp.mbase, s);
      return Done;
    }

    /** The new part of a segment that has come back larger: cleared, and for one that
        grows down, in front of the contents. */
    method Stretch(sp: Seg, s: nat, d: nat, ghost j: nat)
      requires Valid() && j < |q| && q[j] == sp && sp.size == s && d <= s
      requires 0 <= sp.mbase && sp.mbase + s <= mem.Length
      modifies mem
      ensures Valid() && Body(sp) == Grown(Part(old(mem[..]), sp.mbase, s - d), s, sp.down)
      ensures forall k :: 0 <= k < |q| && k != j ==> Body(q[k]) == old(Bodies())[k]
    {
      hide Valid, Laid, Apart, Bases, Sizes, Bodies, Part, Grown, Lo, Hi, SameOutside;
      Around(j);
      Columns(q);
      ghost var bs, zs, bo, m := Bases(q), Sizes(q), Bodies(), mem[..];
      StretchIn(mem, sp.mbase, s - d, d, sp.down);
      SameWider(m, mem[..], sp.mbase, sp.mbase + s, Lo(q, corebot, j), Hi(q, coretop, j + 1));
      InPlace(bs, zs, bo, m, j, Lo(q, corebot, j), Hi(q, coretop, j + 1));
    }

    /** seggrow's last branch. */
    method SwapGrow(sp: Seg, s: nat, i: int, sex: bool, kalloc: bool) returns (r: Outcome)
      requires Valid() && SwapValid() && 0 <= i < |q| && q[i] == sp && sp !in dq && s > sp.size
      modifies this`q, this`dq, sp`size, sp`dbase, sp`core, sp`mbase, mem, disk
      ensures Valid() && SwapValid()
      ensures r.Refused? ==> q == old(q) && dq == old(dq) && sp.size == old(sp.size) && Body(sp) == old(Body(sp))
      ensures r.Done? ==>
        dq == old(dq) && sp in q && sp.core && sp.size == s && Body(sp) == Grown(old(Body(sp)), s, sp.down)
      ensures !r.Asleep? ==> forall t :: t in q <==> t in old(q)
      ensures r.Asleep? ==> q == Without(old(q), i) && sp in dq && OutLarger(sp, s, old(Body(sp)), old(dq))
      ensures r.Refused? && sex && kalloc ==> DiskFull(dq, swapbot, swaptop, s)
      ensures !sex || !kalloc ==> r.Refused?
      ensures forall t :: t in old(q) && t != sp ==> t in q && Body(t) == old(Body(t))
      ensures forall t :: t in old(dq) ==> t.size == old(t.size) && Image(t) == old(Image(t))
    {
      hide Valid, SwapValid, Body, Part, Grown, Image, Moved, Cleared, Fitted, OutLarger;
      var d := s - sp.size;
      ghost var c, z := Body(sp), sp.size;
      InWithout(q, i);
      BodyIs(sp, i);
      r := SegExt(sp, s, i, sex, kalloc);
      if r.Done? {
        ghost var j :| 0 <= j < |old(q)| && q == With(Without(old(q), i), j, sp);
        WithHas(Without(old(q), i), j, sp);
        Stretch(sp, s, d, j);
      } else if r.Refused? {
        BodyIs(sp, i);
      }
    }

    /** All but segment i of c are still in the queue, with contents bo; nothing is new. */
    ghost predicate SameOthers(sp: Seg, i: nat, c: seq<Seg>, bo: seq<seq<Click>>)
      requires |c| == |bo|
      reads this`q, c`mbase, c`size, mem
    {
      && (forall k {:trigger c[k]} :: 0 <= k < |c| && k != i ==> c[k] in q && Body(c[k]) == bo[k])
      && forall t :: t in q ==> t in c
    }

    /** seggrow when there is no room around the segment. */
    method Farther(sp: Seg, s: nat, i: int, sex: bool, k1: bool, k2: bool) returns (r: Outcome)
      requires Valid() && SwapValid() && 0 <= i < |q| && q[i] == sp && sp.core && sp !in dq && s > sp.size
      modifies this`q, this`dq, q`mbase, sp`size, sp`dbase, sp`core, procs`sproto,
        mem, disk, this`segpackc, this`segpacks
      ensures Valid()
      ensures r.Done? ==> sp in q && sp.core && sp.size == s && Body(sp) == Grown(old(Body(sp)), s, sp.down)
      ensures r.Refused? ==> sp in q && sp.size == old(sp.size) && Body(sp) == old(Body(sp))
      ensures r.Asleep? ==> sp in dq && OutLarger(sp, s, old(Body(sp)), old(dq))
      ensures r.Refused? && sex && k2 ==> DiskFull(dq, swapbot, swaptop, s)
      ensures k1 && old(Movable() && coretop - corebot - Taken(q, |q|) >= s) ==> r.Done?
      ensures SameOthers(sp, i, old(q), old(Bodies()))
      ensures forall t :: t in old(dq) ==> Image(t) == old(Image(t))
    {
      hide Valid, SwapValid, Bodies, Body, Grown, Image, Movable, Taken, Laid, OutLarger;
      var ok := Reallocate(sp, s, k1, i);
      if ok {
        return Done;
      }
      DistinctHere();
      r := SwapGrow(sp, s, i, sex, k2);
      InWithout(old(q), i);
      WithoutIn(old(q), i);
    }

    lemma {:induction false} DistinctHere()
      requires Valid()
      ensures forall j, k :: 0 <= j < k < |q| ==> q[j] != q[k]
    {
    }

    /** seggrow.  Whatever way it takes, the segment ends with s clicks: what it had, from
        its base or, growing down, from its top, and zeros; no other segment is touched.  It
        stays where it is if it can, moves between its neighbours if it must, and goes
        elsewhere if there is no room there. */
    method SegGrow(sp: Seg, s: nat, i: int, sex: bool, k1: bool, k2: bool) returns (r: Outcome)
      requires Valid() && SwapValid() && 0 <= i < |q| && q[i] == sp && sp.core && sp !in dq
      modifies this`q, this`dq, q`mbase, sp`size, sp`dbase, sp`core, procs`sproto,
        mem, disk, this`segpackc, this`segpacks
      ensures Valid()
      ensures r.Done? ==> sp in q && sp.core && sp.size == s && Body(sp) == Grown(old(Body(sp)), s, sp.down)
      ensures r.Refused? ==> sp in q && sp.size == old(sp.size) && Body(sp) == old(Body(sp))
      ensures r.Asleep? ==> sp in dq && OutLarger(sp, s, old(Body(sp)), old(dq))
      ensures r.Refused? && sex && k2 ==> DiskFull(dq, swapbot, swaptop, s)
      ensures s > old(sp.size) && k1 && old(Movable() && coretop - corebot - Taken(q, |q|) >= s) ==> r.Done?
      ensures SameOthers(sp, i, old(q), old(Bodies()))
      ensures s <= old(sp.size) ==> r.Done?
      ensures s > old(sp.size) && old(Gap(q, corebot, coretop, i) + sp.size + Gap(q, corebot, coretop, i + 1)) >= s ==>
        r.Done?
      ensures q == old(q) || (s > old(sp.size) &&
        old(Gap(q, corebot, coretop, i) + sp.size + Gap(q, corebot, coretop, i + 1)) < s)
      ensures s <= old(sp.size) || old(Gap(q, corebot, coretop, if sp.down then i else i + 1) + sp.size) >= s ==>
        if sp.down then sp.mbase + s == old(sp.mbase + sp.size) else sp.mbase == old(sp.mbase)
      ensures old(Gap(q, corebot, coretop, if sp.down then i else i + 1) + sp.size) < s ==>
        old(Gap(q, corebot, coretop, i) + sp.size + Gap(q, corebot, coretop, i + 1)) >= s > old(sp.size) ==>
        sp.mbase == if sp.down then old(Hi(q, coretop, i + 1)) - s else old(Lo(q, corebot, i))
      ensures forall t :: t in old(dq) ==> Image(t) == old(Image(t))
    {
      hide Valid, SwapValid, Bodies, Body, Grown, Image, Allocated, Movable, SameOthers, Taken, Laid, OutLarger;
      BodiesBody();
      GapEnds(q, corebot, coretop, i);
      GapEnds(q, corebot, coretop, i + 1);
      if s <= sp.size {
        Shrink(sp, s, i);
        OthersKept(sp, i, old(q), old(Bodies()));
        return Done;
      }
      var pb := if i == 0 then corebot else q[i - 1].mbase + q[i - 1].size;
      var nb := if i + 1 == |q| then coretop else q[i + 1].mbase;
      if !sp.down && nb - sp.mbase >= s {
        ExtendUp(sp, s, i);
        OthersKept(sp, i, old(q), old(Bodies()));
        return Done;
      }
      if sp.down && sp.mbase + sp.size - pb >= s {
        ExtendDown(sp, s, i);
        OthersKept(sp, i, old(q), old(Bodies()));
        return Done;
      }
      if nb - pb >= s {
        SlideBetween(sp, s, pb, nb, i);
        OthersKept(sp, i, old(q), old(Bodies()));
        return Done;
      }
      r := Farther(sp, s, i, sex, k1, k2);
    }

    lemma {:induction false} OthersKept(sp: Seg, i: nat, c: seq<Seg>, bo: seq<seq<Click>>)
      requires |c| == |bo| && q == c && forall k {:trigger c[k]} :: 0 <= k < |c| && k != i ==> Body(c[k]) == bo[k]
      ensures SameOthers(sp, i, c, bo)
    {
    }
  }

  /** No segment reaches into the hole in front of segment j. */
  lemma {:induction false} Clear(q: seq<Seg>, bot: int, top: int, j: nat)
    requires Laid(q, bot, top) && j <= |q|
    ensures forall k {:trigger q[k]} :: 0 <= k < |q| ==>
      if k < j then q[k].mbase + q[k].size <= Lo(q, bot, j) else Hi(q, top, j) <= q[k].mbase
    ensures bot <= Lo(q, bot, j) && Hi(q, top, j) <= top
  {
  }

  lemma {:induction false} HoleFits(q: seq<Seg>, bot: int, top: int, at: int, d: int, s: nat)
    requires DiskHole(q, bot, top, at, d, s)
    ensures 0 <= at <= |q| && bot <= d && d + 2 * s <= top
  {
  }

  lemma {:induction false} HoleMisses(q: seq<Seg>, bot: int, top: int, at: int, d: int, s: nat)
    requires DiskHole(q, bot, top, at, d, s)
    ensures forall t :: t in q ==> t.dbase + 2 * t.size <= d || d + 2 * s <= t.dbase
  {
  }

  /** The queue without segment k of one that had these bases and sizes. */
  lemma {:induction false} LaidFrom(q: seq<Seg>, bs: seq<int>, zs: seq<int>, bot: int, top: int, k: nat)
    requires Apart(bs, zs, bot, top) && k < |bs| == |q| + 1
    requires forall x {:trigger q[x]} :: 0 <= x < |q| ==>
      var y := if x < k then x else x + 1; q[x].mbase == bs[y] && q[x].size == zs[y]
    requires forall x, y :: 0 <= x < y < |q| ==> q[x] != q[y]
    ensures Laid(q, bot, top)
  {
  }

  lemma {:induction false} Disjoint(q: seq<Seg>, bot: int, top: int, i: nat, j: nat)
    requires Laid(q, bot, top) && i < |q| && j < |q| && i != j
    ensures q[i].mbase + q[i].size <= q[j].mbase || q[j].mbase + q[j].size <= q[i].mbase
  {
  }

  lemma {:induction false} SameWider(m: seq<Click>, m': seq<Click>, lo: int, hi: int, lo': int, hi': int)
    requires SameOutside(m, m', lo, hi) && lo' <= lo && hi <= hi'
    ensures SameOutside(m, m', lo', hi')
  {
  }

  /** Segment i of c goes to where x was put, and x is gone. */
  lemma {:induction false} ChangedPlaces<T>(c: seq<T>, i: nat, at: nat, x: T, k: nat)
    requires i < |c| && at <= |c| && k == if i < at then i else i + 1
    ensures var r := Without(With(c, at, x)[at := c[i]], k);
      && |r| == |c| && r[if at < k then at else at - 1] == c[i]
      && (forall j {:trigger c[j]} :: 0 <= j < |c| && j != i ==> c[j] in r) && forall t :: t in r ==> t in c
  {
    var w := With(c, at, x)[at := c[i]];
    var r := Without(w, k);
    forall j | 0 <= j < |c| && j != i ensures c[j] in r {
      var y := if j < at then j else j + 1;
      assert w[y] == c[j];
      assert r[if y < k then y else y - 1] == c[j];
    }
  }

  /** The device has c from block d on. */
  ghost predicate Imaged(disk: seq<int>, d: int, c: seq<Click>) {
    0 <= d && d + 2 * |c| <= |disk| &&
    forall k {:trigger c[k]} :: 0 <= k < |c| ==> c[k] == Click(disk[d + 2 * k], disk[d + 2 * k + 1])
  }

  lemma {:induction false} Restored(disk: seq<int>, d: int, c: seq<Click>, m: seq<Click>, b: int, s: int)
    requires 0 <= b && b + s <= |m| && |c| <= s && Imaged(disk, d, c) && Imaged(disk, d, Part(m, b, s))
    ensures Part(m, b, |c|) == c
  {
    var p, r := Part(m, b, s), Part(m, b, |c|);
    forall k | 0 <= k < |c| ensures r[k] == c[k] {
      assert r[k] == p[k];
    }
  }

  lemma {:induction false} InWithout<T>(c: seq<T>, i: int)
    requires 0 <= i < |c|
    ensures forall t :: t in c && t != c[i] ==> t in Without(c, i)
  {
    forall j | 0 <= j < |c| && j != i ensures c[j] in Without(c, i) {
      assert Without(c, i)[if j < i then j else j - 1] == c[j];
    }
  }

  lemma {:induction false} WithoutIn<T>(c: seq<T>, i: int)
    requires 0 <= i < |c|
    ensures forall t :: t in Without(c, i) ==> t in c
  {
  }

  lemma {:induction false} WithHas<T>(c: seq<T>, j: int, x: T)
    requires 0 <= j <= |c|
    ensures forall t :: t in With(c, j, x) <==> t == x || t in c
  {
    var w := With(c, j, x);
    assert w[j] == x;
    forall k | 0 <= k < |c| ensures c[k] in w {
      assert w[if k < j then k else k + 1] == c[k];
    }
  }

  lemma {:induction false} WithoutIs<T>(r: seq<T>, k: nat)
    requires k < |r|
    ensures r[..k] + r[k + 1..] == Without(r, k)
  {
  }

  lemma {:induction false} PartCleared(m: seq<Click>, b: int, n: nat)
    requires 0 <= b && b + n <= |m|
    ensures Part(Cleared(m, b, n), b, n) == Zeros(n)
  {
    var l, r := Part(Cleared(m, b, n), b, n), Zeros(n);
    assert forall i {:trigger l[i]} :: 0 <= i < n ==> l[i] == r[i];
  }

  lemma {:induction false} PartBeside(m: seq<Click>, at: int, n: nat, b: int, z: int)
    requires 0 <= b && 0 <= z && b + z <= |m| && (b + z <= at || at + n <= b)
    ensures Part(Cleared(m, at, n), b, z) == Part(m, b, z)
  {
    PartStays(m, Cleared(m, at, n), b, z);
  }

  /** Room, of bases and sizes alone. */
  ghost predicate HasHole(bs: seq<int>, zs: seq<int>, bot: int, top: int, s: int)
    requires |bs| == |zs|
  {
    exists i {:trigger EndAt(bs, zs, bot, i)} ::
      0 <= i <= |bs| && (if i == |bs| then top else bs[i]) - EndAt(bs, zs, bot, i) >= s
  }

  ghost function EndAt(bs: seq<int>, zs: seq<int>, bot: int, i: int): int
    requires |bs| == |zs|
  {
    if 0 < i <= |bs| then bs[i - 1] + zs[i - 1] else bot
  }

  lemma {:induction false} RoomIs(q: seq<Seg>, bot: int, top: int, s: int)
    ensures |Bases(q)| == |Sizes(q)| && (Room(q, bot, top, s) <==> HasHole(Bases(q), Sizes(q), bot, top, s))
  {
    hide Bases, Sizes;
    Columns(q);
    var bs, zs := Bases(q), Sizes(q);
    forall i | 0 <= i <= |q| ensures Gap(q, bot, top, i) == (if i == |bs| then top else bs[i]) - EndAt(bs, zs, bot, i) {
    }
  }

  lemma {:induction false} IsRoom(q: seq<Seg>, bot: int, top: int, s: int, i: nat)
    requires i <= |q| && Gap(q, bot, top, i) >= s
    ensures Room(q, bot, top, s)
  {
  }

  lemma {:induction false} NoRoom(q: seq<Seg>, bot: int, top: int, s: int)
    requires forall k :: 0 <= k <= |q| ==> Gap(q, bot, top, k) < s
    ensures !Room(q, bot, top, s)
  {
  }

  lemma {:induction false} GapEnds(q: seq<Seg>, bot: int, top: int, i: nat)
    requires i <= |q|
    ensures Lo(q, bot, i) == if i > 0 then q[i - 1].mbase + q[i - 1].size else bot
    ensures Hi(q, top, i) == if i < |q| then q[i].mbase else top
    ensures Gap(q, bot, top, i) == Hi(q, top, i) - Lo(q, bot, i)
  {
  }

  /** The two copies of seggrow's third branch. */
  method SlideCopy(mem: array<Click>, b: int, z: int, pb: int, nb: int, d: nat, down: bool) returns (b': int)
    requires Space(mem[..], pb, nb, b, z) && pb + z + d <= nb
    modifies mem
    ensures b' == if down then nb - z - d else pb
    ensures SameOutside(old(mem[..]), mem[..], pb, nb)
    ensures Part(mem[..], b', z + d) == Grown(Part(old(mem[..]), b, z), z + d, down)
  {
    hide Moved, Cleared, Part, Grown, SameOutside;
    SlideGrows(mem[..], pb, nb, b, z, d, down);
    if !down {
      SlrCopy(mem, b, pb, z);
      SClear(mem, pb + z, d);
      return pb;
    } else {
      SrlCopy(mem, b, nb - z, z);
      SClear(mem, nb - (z + d), d);
      return nb - (z + d);
    }
  }

  /** The two ways of its last. */
  method StretchIn(mem: array<Click>, b: int, z: nat, d: nat, down: bool)
    requires 0 <= b && b + z + d <= mem.Length
    modifies mem
    ensures SameOutside(old(mem[..]), mem[..], b, b + z + d)
    ensures Part(mem[..], b, z + d) == Grown(Part(old(mem[..]), b, z), z + d, down)
  {
    hide Moved, Cleared, Part, Grown, SameOutside;
    StretchGrows(mem[..], b, z, d, down);
    if !down {
      SClear(mem, b + z, d);
    } else {
      SrlCopy(mem, b, b + d, z);
      SClear(mem, b, d);
    }
  }

  /** The two copies of its fourth. */
  method CopyAcross(mem: array<Click>, b: int, z: int, to: int, d: nat, down: bool)
    requires 0 <= b && 0 <= z && b + z <= mem.Length && 0 <= to && to + z + d <= mem.Length
    requires b + z <= to || to + z + d <= b
    modifies mem
    ensures SameOutside(old(mem[..]), mem[..], to, to + z + d)
    ensures Part(mem[..], to, z + d) == Grown(Part(old(mem[..]), b, z), z + d, down)
  {
    hide Moved, Cleared, Part, Grown, SameOutside;
    CopyGrows(mem[..], b, z, to, d, down);
    if !down {
      SlrCopy(mem, b, to, z);
      SClear(mem, to + z, d);
    } else {
      SlrCopy(mem, b, to + d, z);
      SClear(mem, to, d);
    }
  }

  /** A new segment in the hole in front of segment i. */
  lemma {:induction false} LaidWith(q: seq<Seg>, bot: int, top: int, i: nat, sp: Seg)
    requires Laid(q, bot, top) && i <= |q| && sp !in q
    requires 0 <= sp.size && Lo(q, bot, i) <= sp.mbase && sp.mbase + sp.size <= Hi(q, top, i)
    ensures Laid(With(q, i, sp), bot, top)
  {
    hide Lo, Hi;
    var r := With(q, i, sp);
    Clear(q, bot, top, i);
    assert forall k {:trigger r[k]} :: 0 <= k < |r| ==>
      0 <= r[k].size && bot <= r[k].mbase && r[k].mbase + r[k].size <= top;
    forall k, l | 0 <= k < l < |r| ensures r[k] != r[l] && r[k].mbase + r[k].size <= r[l].mbase {
      if k == i { assert r[l] == q[l - 1]; } else if l == i { assert r[k] == q[k]; }
    }
  }

  lemma {:induction false} FirstGap(q: seq<Seg>, bot: int, top: int)
    requires Laid(q, bot, top)
    ensures Lo(q, bot, 0) == bot && Gap(q, bot, top, 0) >= 0
  {
    LaidAt(q, bot, top, 0);
  }

  lemma {:induction false} GapIs(q: seq<Seg>, bot: int, top: int, i: nat)
    requires i <= |q|
    ensures Gap(q, bot, top, i) == (if i == |q| then top else q[i].mbase) - Lo(q, bot, i)
    ensures i < |q| ==> Lo(q, bot, i + 1) == q[i].mbase + q[i].size
  {
  }

  lemma {:induction false} Next(q: seq<Seg>, bot: int, i: nat)
    requires i < |q|
    ensures Taken(q, i + 1) == Taken(q, i) + q[i].size
    ensures Lo(q, bot, i + 1) == q[i].mbase + q[i].size
  {
  }

  lemma {:induction false} LoIs(q: seq<Seg>, bot: int, i: nat)
    requires i <= |q|
    ensures |Bases(q)| == |Sizes(q)| == |q|
    ensures Lo(q, bot, i) == if i == 0 then bot else Bases(q)[i - 1] + Sizes(q)[i - 1]
    ensures i < |q| ==> Bases(q)[i] == q[i].mbase && Sizes(q)[i] == q[i].size
    ensures i > 0 ==> Bases(q)[i - 1] == q[i - 1].mbase && Sizes(q)[i - 1] == q[i - 1].size
  {
    Columns(q);
  }

  lemma {:induction false} LaidFits(q: seq<Seg>, bot: int, top: int)
    requires Laid(q, bot, top)
    ensures 0 <= bot <= top
    ensures forall i {:trigger q[i]} :: 0 <= i < |q| ==>
      0 <= q[i].mbase && 0 <= q[i].size && q[i].mbase + q[i].size <= top
    ensures forall i, j :: 0 <= i < j < |q| ==> q[i] != q[j]
  {
  }
}
