/** The kernel's arena (alloc.c).  A cell is as long as a header, which is a segmented pointer.
    A block is a header cell, whose word is twice the number of the next header, plus 1 if the
    block is in use, and then its data. */
module Arena {
  import opened Words

  const CELL: int := 4        // sizeof(ALL)

  function Link(w: int): int { w / 2 }
  predicate InUse(w: int) { w % 2 == 1 }

  /** alloc's count of cells for l bytes, in unsigned arithmetic. */
  function CellsFor(l: word): (n: word) { Add16(1, Add16(l, CELL - 1) / CELL) }

  /** It is enough, header included, except for the three sizes that wrap. */
  lemma {:induction false} Enough(l: word)
    ensures (CellsFor(l) - 1) * CELL >= l <==> l <= MAXU - (CELL - 1)
    ensures l <= MAXU - (CELL - 1) ==> (CellsFor(l) - 1) * CELL < l + CELL && CellsFor(l) >= 1
  {
  }

  /** The smallest of them gets a header and nothing else. */
  lemma {:induction false} NotEnough()
    ensures CellsFor(0xFFFD) == 1 && CellsFor(0xFFFC) == 0x4000
  {
  }

  // ----- kclear -----------------------------------------------------------------------------

  /** Byte i of a cell, the most significant one first. */
  function Byte(c: int, i: nat): int
    requires i < 4
  {
    if i == 0 then c / 0x1000000 % 256
    else if i == 1 then c / 0x10000 % 256
    else if i == 2 then c / 256 % 256
    else c % 256
  }

  /** A cell of which the first n words, or only the first byte, have been cleared. */
  function HalfClear(c: int, n: int, first: bool): int {
    if n >= 2 then 0 else if n == 1 then c % 0x10000 else if first then c % 0x1000000 else c
  }

  /** What kclear of l bytes makes of the k-th cell: it clears the first byte if l is odd, and
      then l / 2 words, from the first byte on as well. */
  function Kcleared(c: int, l: word, k: int): int { HalfClear(c, l / 2 - 2 * k, l % 2 == 1 && k == 0) }

  /** The number of bytes that are clear afterwards. */
  function ClearBytes(l: word): word { if l == 1 then 1 else l - l % 2 }

  lemma {:induction false} LowBytes(c: int)
    ensures Byte(c % 0x10000, 0) == Byte(c % 0x10000, 1) == 0 == Byte(c % 0x1000000, 0)
    ensures Byte(c % 0x10000, 2) == Byte(c, 2) && Byte(c % 0x10000, 3) == Byte(c, 3)
  {
    SmallCell(c % 0x10000);
    LowBytesKept(c / 0x10000, c % 0x10000);
    assert c % 0x1000000 / 0x1000000 == 0;
  }

  lemma {:induction false} SmallCell(r: int)
    requires 0 <= r < 0x10000
    ensures Byte(r, 0) == Byte(r, 1) == 0
  {
    assert r / 0x10000 == 0 && r / 0x1000000 == 0;
  }

  lemma {:induction false} LowBytesKept(q: int, r: int)
    requires 0 <= r < 0x10000
    ensures Byte(0x10000 * q + r, 2) == Byte(r, 2) && Byte(0x10000 * q + r, 3) == Byte(r, 3)
  {
    var c := 0x10000 * q + r;
    assert c / 256 == 256 * q + r / 256;
  }

  lemma {:induction false} ClearedByte(c: int, l: word, k: nat, i: nat)
    requires i < 4 && CELL * k + i < ClearBytes(l)
    ensures Byte(Kcleared(c, l, k), i) == 0
  {
    hide Byte;
    LowBytes(c);
    assert Byte(0, i) == 0 by { NoByte(i); }
    if l == 1 {
      assert k == 0 && i == 0;
    } else {
      assert CELL * k + i < 2 * (l / 2);
    }
  }

  lemma {:induction false} NoByte(i: nat)
    requires i < 4
    ensures Byte(0, i) == 0
  {
  }

  lemma {:induction false} KeptByte(c: int, l: word)
    requires l % 2 == 1 && l != 1
    ensures Byte(Kcleared(c, l, (l - 1) / CELL), (l - 1) % CELL) == Byte(c, (l - 1) % CELL)
  {
    hide Byte;
    LowBytes(c);
    var k, i := (l - 1) / CELL, (l - 1) % CELL;
    assert l == CELL * k + i + 1 && (i == 0 || i == 2);
  }

  /** The step from n words to one more, in the cells of which that is the n-th. */
  lemma {:induction false} HalfStep(c: int, n: int, first: bool)
    ensures HalfClear(c, n + 1, first) ==
      if n == 0 then HalfClear(c, 0, first) % 0x10000
      else if n == 1 then HalfClear(c, 1, first) - HalfClear(c, 1, first) % 0x10000
      else HalfClear(c, n, first)
  {
    if n == 0 && first {
      assert c == 0x1000000 * (c / 0x1000000) + c % 0x1000000;
      assert c % 0x1000000 % 0x10000 == c % 0x10000;
    }
  }

  /** kclear of l bytes from cell p on has come to word w; m is what there was before. */
  ghost predicate HalfCleared(m: seq<int>, mem: seq<int>, p: int, l: word, w: nat) {
    && |mem| == |m| && 0 <= p
    && forall x {:trigger mem[x]} :: 0 <= x < |m| ==>
      mem[x] == if p <= x < p + (l + CELL - 1) / CELL then HalfClear(m[x], w - 2 * (x - p), l % 2 == 1 && x == p)
        else m[x]
  }

  lemma {:induction false} ClearStarts(m: seq<int>, mem: seq<int>, p: int, l: word)
    requires 0 <= p < |m| && mem == if l % 2 == 1 then m[p := m[p] % 0x1000000] else m
    ensures HalfCleared(m, mem, p, l, 0)
  {
  }

  lemma {:induction false} ClearStep(m: seq<int>, mem: seq<int>, p: int, l: word, w: nat)
    requires HalfCleared(m, mem, p, l, w) && w < l / 2 && p + w / 2 < |m|
    ensures 0 <= p + w / 2 < |mem|
    ensures var x := p + w / 2;
      HalfCleared(m, mem[x := if w % 2 == 0 then mem[x] % 0x10000 else mem[x] - mem[x] % 0x10000], p, l, w + 1)
  {
    hide HalfClear;
    var x := p + w / 2;
    assert w / 2 < (l + CELL - 1) / CELL;
    var mem' := mem[x := if w % 2 == 0 then mem[x] % 0x10000 else mem[x] - mem[x] % 0x10000];
    forall y {:trigger mem'[y]} | 0 <= y < |m|
      ensures mem'[y] ==
        if p <= y < p + (l + CELL - 1) / CELL then HalfClear(m[y], w + 1 - 2 * (y - p), l % 2 == 1 && y == p) else m[y]
    {
      HalfStep(m[y], w - 2 * (y - p), l % 2 == 1 && y == p);
      assert mem[y] == mem[y];
    }
  }

  lemma {:induction false} ClearEnds(m: seq<int>, mem: seq<int>, p: int, l: word, w: nat)
    requires HalfCleared(m, mem, p, l, w) && w <= l / 2 && (w == l / 2 || p + w / 2 >= |m|)
    ensures |mem| == |m| && forall x {:trigger mem[x]} :: 0 <= x < |m| ==>
      mem[x] == if p <= x < p + (l + CELL - 1) / CELL then Kcleared(m[x], l, x - p) else m[x]
  {
  }

  ghost predicate ClearsAll(l: word) {
    forall c, k: nat, i: nat {:trigger Byte(Kcleared(c, l, k), i)} ::
      0 <= c < 0x100000000 && i < 4 && CELL * k + i < l ==> Byte(Kcleared(c, l, k), i) == 0
  }

  /** So it clears what it is asked to unless that is an odd number of bytes above 1: then the
      last byte stays. */
  lemma {:induction false} ClearsAllIff(l: word)
    ensures ClearsAll(l) <==> l % 2 == 0 || l == 1
  {
    forall c, k: nat, i: nat {:trigger Byte(Kcleared(c, l, k), i)} |
      0 <= c < 0x100000000 && i < 4 && CELL * k + i < ClearBytes(l)
      ensures Byte(Kcleared(c, l, k), i) == 0
    {
      ClearedByte(c, l, k, i);
    }
    if l % 2 == 0 || l == 1 {
      assert ClearBytes(l) == l;
      assert ClearsAll(l);
    } else {
      var k, i := (l - 1) / CELL, (l - 1) % CELL;
      assert CELL * k + i < l;
      KeptByte(0xFFFFFFFF, l);
      assert Byte(Kcleared(0xFFFFFFFF, l, k), i) == 255;
    }
  }

  /** Of the l bytes from cell p on those that kclear clears are clear. */
  ghost predicate ClearFrom(mem: seq<int>, p: int, l: word) {
    && 0 <= p && p + (l + CELL - 1) / CELL <= |mem|
    && forall x: nat, i: nat {:trigger Byte(mem[x], i)} :: p <= x && i < 4 && CELL * (x - p) + i < ClearBytes(l) ==>
      Byte(mem[x], i) == 0
  }

  lemma {:induction false} ClearBytesIn(mem: seq<int>, mem': seq<int>, p: int, l: word)
    requires 0 <= p && p + (l + CELL - 1) / CELL <= |mem| == |mem'|
    requires forall x {:trigger mem'[x]} :: 0 <= x < |mem| ==>
      mem'[x] == if p <= x < p + (l + CELL - 1) / CELL then Kcleared(mem[x], l, x - p) else mem[x]
    ensures ClearFrom(mem', p, l)
  {
    hide Byte, Kcleared;
    forall x: nat, i: nat {:trigger Byte(mem'[x], i)} | p <= x && i < 4 && CELL * (x - p) + i < ClearBytes(l)
      ensures Byte(mem'[x], i) == 0
    {
      assert x - p < (l + CELL - 1) / CELL;
      ClearedByte(mem[x], l, x - p, i);
    }
  }

  // ----- blocks from header to header ------------------------------------------------------

  ghost predicate All(live: seq<bool>, from: int, to: int, b: bool) {
    0 <= from && to <= |live| && forall x {:trigger live[x]} :: from <= x < to ==> live[x] == b
  }

  /** From header h on the cells up to the last one are tiled by blocks; live says which
      cells are in use.  The last header is a block in use without data. */
  ghost predicate Tiles(mem: seq<int>, live: seq<bool>, h: int)
    decreases |mem| - h
  {
    && 0 < |mem| == |live| + 1 && 0 <= h < |mem|
    && if h == |mem| - 1 then mem[h] == 1
       else
         && h < Link(mem[h]) < |mem| && All(live, h, Link(mem[h]), InUse(mem[h]))
         && Tiles(mem, live, Link(mem[h]))
  }

  /** The same for the blocks from header a up to header b. */
  ghost predicate Reach(mem: seq<int>, live: seq<bool>, a: int, b: int)
    decreases b - a
  {
    && 0 < |mem| == |live| + 1 && 0 <= a <= b < |mem|
    && (a < b ==>
         && a < Link(mem[a]) <= b && All(live, a, Link(mem[a]), InUse(mem[a]))
         && Reach(mem, live, Link(mem[a]), b))
  }

  /** s free cells in a row from c on, with no free cell before or behind them. */
  ghost predicate RunAt(live: seq<bool>, c: int, s: int) {
    && 0 <= c < c + s <= |live| && All(live, c, c + s, false)
    && (c == 0 || live[c - 1]) && (c + s == |live| || live[c + s])
  }

  /** The sizes that do not do: in the first pass all but n, in the second those below n. */
  predicate Unfit(s: int, n: int, first: bool) { if first then s != n else s < n }

  ghost predicate NoneBefore(live: seq<bool>, n: int, b: int, first: bool) {
    forall c, s {:trigger RunAt(live, c, s)} :: c < b && RunAt(live, c, s) ==> Unfit(s, n, first)
  }

  /** Room for n cells that no earlier run has, and no run exactly that room. */
  ghost predicate Right(live: seq<bool>, n: int, c: int, s: int) {
    s >= n && NoneBefore(live, n, c, s == n) && (s > n ==> NoneBefore(live, n, |live|, true))
  }

  /** What alloc looks for: the first run of exactly n cells or, where there is none, the first
      that has n cells. */
  ghost predicate Choice(live: seq<bool>, n: int, c: int) {
    exists s :: RunAt(live, c, s) && Right(live, n, c, s)
  }

  /** There is such a place as soon as any run is large enough, */
  lemma {:induction false} SomeChoice(live: seq<bool>, n: int, c: int, s: int) returns (d: int)
    requires n > 0 && RunAt(live, c, s) && s >= n
    ensures Choice(live, n, d)
  {
    hide RunAt;
    var exact := !NoneBefore(live, n, |live|, true);
    RunIn(live, c, s);
    var t;
    d, t := LeastRun(live, n, |live|, exact);
    assert Right(live, n, d, t);
  }

  lemma {:induction false} RunIn(live: seq<bool>, c: int, s: int)
    requires RunAt(live, c, s)
    ensures 0 <= c < |live|
  {
  }

  lemma {:induction false} LeastRun(live: seq<bool>, n: int, b: int, first: bool) returns (c: int, s: int)
    requires !NoneBefore(live, n, b, first) && 0 <= b
    ensures RunAt(live, c, s) && c < b && !Unfit(s, n, first) && NoneBefore(live, n, c, first)
    decreases b
  {
    hide RunAt;
    c, s :| c < b && RunAt(live, c, s) && !Unfit(s, n, first);
    RunIn(live, c, s);
    if !NoneBefore(live, n, c, first) { c, s := LeastRun(live, n, c, first); }
  }

  /** and there is at most one. */
  lemma {:induction false} OneChoice(live: seq<bool>, n: int, c: int, d: int)
    requires Choice(live, n, c) && Choice(live, n, d)
    ensures c == d
  {
    var s :| RunAt(live, c, s) && Right(live, n, c, s);
    var t :| RunAt(live, d, t) && Right(live, n, d, t);
    assert s == n <==> t == n;
  }

  /** Of the blocks from a up to b, none that is free does, and none is followed by another
      free one. */
  ghost predicate Tight(mem: seq<int>, live: seq<bool>, a: int, b: int, n: int, first: bool)
    requires Reach(mem, live, a, b)
    decreases b - a
  {
    a < b ==>
      (&& (!InUse(mem[a]) ==> (Unfit(Link(mem[a]) - a, n, first) && (Link(mem[a]) == |mem| - 1 || live[Link(mem[a])])))
       && Tight(mem, live, Link(mem[a]), b, n, first))
  }

  lemma {:induction false} TilesFrame(mem: seq<int>, live: seq<bool>, mem': seq<int>, live': seq<bool>, h: int)
    requires Tiles(mem, live, h) && |mem'| == |mem| && |live'| == |live|
    requires forall x {:trigger mem'[x]} :: h <= x < |mem| ==> mem'[x] == mem[x]
    requires forall x {:trigger live'[x]} :: h <= x < |live| ==> live'[x] == live[x]
    ensures Tiles(mem', live', h)
    decreases |mem| - h
  {
    if h < |mem| - 1 { TilesFrame(mem, live, mem', live', Link(mem[h])); }
  }

  lemma {:induction false} ReachFrame(mem: seq<int>, live: seq<bool>, mem': seq<int>, live': seq<bool>, a: int, b: int)
    requires Reach(mem, live, a, b) && |mem'| == |mem| && |live'| == |live|
    requires forall x {:trigger mem'[x]} :: a <= x < b ==> mem'[x] == mem[x]
    requires forall x {:trigger live'[x]} :: a <= x < b ==> live'[x] == live[x]
    ensures Reach(mem', live', a, b)
    decreases b - a
  {
    if a < b { ReachFrame(mem, live, mem', live', Link(mem[a]), b); }
  }

  lemma {:induction false} TightFrame(mem: seq<int>, live: seq<bool>, mem': seq<int>, a: int, b: int, n: int,
                                      first: bool)
    requires Reach(mem, live, a, b) && Reach(mem', live, a, b) && |mem'| == |mem| && Tight(mem, live, a, b, n, first)
    requires forall x {:trigger mem'[x]} :: a <= x < b ==> mem'[x] == mem[x]
    ensures Tight(mem', live, a, b, n, first)
    decreases b - a
  {
    if a < b { TightFrame(mem, live, mem', Link(mem[a]), b, n, first); }
  }

  /** What was passed and what is ahead make up the whole. */
  lemma {:induction false} Join(mem: seq<int>, live: seq<bool>, a: int, b: int)
    requires Reach(mem, live, a, b) && Tiles(mem, live, b)
    ensures Tiles(mem, live, a)
    decreases b - a
  {
    if a < b { Join(mem, live, Link(mem[a]), b); }
  }

  lemma {:induction false} Ahead(mem: seq<int>, live: seq<bool>, a: int, b: int)
    requires Reach(mem, live, a, b) && Tiles(mem, live, a)
    ensures Tiles(mem, live, b)
    decreases b - a
  {
    if a < b { Ahead(mem, live, Link(mem[a]), b); }
  }

  lemma {:induction false} Pass(mem: seq<int>, live: seq<bool>, a: int, b: int)
    requires Reach(mem, live, a, b) && Tiles(mem, live, b) && b < |mem| - 1
    ensures Reach(mem, live, a, Link(mem[b]))
    decreases b - a
  {
    if a < b { Pass(mem, live, Link(mem[a]), b); }
  }

  lemma {:induction false} PassTight(mem: seq<int>, live: seq<bool>, a: int, b: int, n: int, first: bool)
    requires Reach(mem, live, a, b) && Tiles(mem, live, b) && b < |mem| - 1 && Tight(mem, live, a, b, n, first)
    requires !InUse(mem[b]) ==> Unfit(Link(mem[b]) - b, n, first) && (Link(mem[b]) == |mem| - 1 || live[Link(mem[b])])
    ensures Reach(mem, live, a, Link(mem[b])) && Tight(mem, live, a, Link(mem[b]), n, first)
    decreases b - a
  {
    Pass(mem, live, a, b);
    if a < b { PassTight(mem, live, Link(mem[a]), b, n, first); }
  }

  /** Blocks that do not do leave no run that does. */
  lemma {:induction false} NoRun(mem: seq<int>, live: seq<bool>, a: int, b: int, n: int, first: bool, c: int, s: int)
    requires Reach(mem, live, a, b) && Tight(mem, live, a, b, n, first)
    requires a <= c < b && RunAt(live, c, s)
    ensures Unfit(s, n, first)
    decreases b - a
  {
    var next := Link(mem[a]);
    if next <= c {
      NoRun(mem, live, next, b, n, first, c, s);
    } else {
      assert !live[c];
      assert a == c;
      if next < c + s { assert false; }
      if c + s < next { assert live[c + s]; }
    }
  }

  // ----- what the steps of the allocator do to blocks ---------------------------------------

  lemma {:induction false} Cut(mem: seq<int>, live: seq<bool>, mem': seq<int>, a: int, b: int, n: int)
    requires Reach(mem, live, 0, a) && Tiles(mem, live, a) && a < |mem| - 1 && mem[a] == 2 * b && 0 < n < b - a
    requires |mem'| == |mem| && mem'[a] == 2 * (a + n) && mem'[a + n] == 2 * b
    requires forall x {:trigger mem'[x]} :: 0 <= x < |mem| && x != a && x != a + n ==> mem'[x] == mem[x]
    ensures Tiles(mem', live, 0) && Reach(mem', live, 0, a) && Tiles(mem', live, a)
  {
    TilesFrame(mem, live, mem', live, b);
    ReachFrame(mem, live, mem', live, 0, a);
    assert Tiles(mem', live, a + n);
    assert Tiles(mem', live, a);
    Join(mem', live, 0, a);
  }

  /** mem' is mem but for the words of the block at a, whose header keeps its link; live' is
      live but for the cells of that block, which are in use or not as the header says. */
  ghost predicate SameBut(mem: seq<int>, live: seq<bool>, mem': seq<int>, live': seq<bool>, a: int) {
    && |mem'| == |mem| == |live| + 1 && |live'| == |live| && 0 <= a < |mem| && a < Link(mem[a]) < |mem|
    && Link(mem'[a]) == Link(mem[a])
    && (forall x {:trigger mem'[x]} :: 0 <= x < |mem| && !(a <= x < Link(mem[a])) ==> mem'[x] == mem[x])
    && (forall x {:trigger live'[x]} :: 0 <= x < |live| ==>
          live'[x] == if a <= x < Link(mem[a]) then InUse(mem'[a]) else live[x])
  }

  lemma {:induction false} Changed(mem: seq<int>, live: seq<bool>, mem': seq<int>, live': seq<bool>, a: int)
    requires Reach(mem, live, 0, a) && Tiles(mem, live, a) && a < |mem| - 1 && SameBut(mem, live, mem', live', a)
    ensures Tiles(mem', live', 0) && Reach(mem', live', 0, a) && Tiles(mem', live', a)
  {
    TilesFrame(mem, live, mem', live', Link(mem[a]));
    ReachFrame(mem, live, mem', live', 0, a);
    assert Tiles(mem', live', a);
    Join(mem', live', 0, a);
  }

  lemma {:induction false} QInside(mem: seq<int>, live: seq<bool>, mem': seq<int>, live': seq<bool>, q: int)
    requires SameBut(mem, live, mem', live', q)
    ensures 0 <= q < |mem| == |mem'|
  {
  }

  /** Every header stays one. */
  lemma {:induction false} Others(mem: seq<int>, live: seq<bool>, mem': seq<int>, live': seq<bool>, q: int, a: int,
                                  h: int)
    requires SameBut(mem, live, mem', live', q) && Reach(mem, live, a, h)
    requires if a <= q then Reach(mem, live, a, q) else a >= Link(mem[q])
    ensures Reach(mem', live', a, h)
    decreases h - a
  {
    if a < h { Others(mem, live, mem', live', q, Link(mem[a]), h); }
  }

  /** After an allocation of the cells from q up to e, or none: a is a header of before and b one
      of after, and there is only free storage between them. */
  ghost predicate Along(mem: seq<int>, live: seq<bool>, mem': seq<int>, live': seq<bool>, q: int, e: int, a: int,
                        b: int) {
    && |mem'| == |mem| == |live| + 1 && |live'| == |live| && 0 <= a <= b < |mem|
    && (forall x {:trigger live[x]} :: 0 <= x < |live| && live[x] ==> mem'[x] == mem[x])
    && (forall x {:trigger live'[x]} :: 0 <= x < |live| ==> live'[x] == (live[x] || q <= x < e))
    && 0 <= q <= e <= |live| && All(live, q, e, false) && (q < e ==> Link(mem'[q]) == e)
    && All(live, a, b, false) && Tiles(mem', live', b) && (if b <= q then Reach(mem', live', b, q) else b >= e)
  }

  /** Coalescing and splitting leave every block in use a block in use. */
  lemma {:induction false} Stays(mem: seq<int>, live: seq<bool>, mem': seq<int>, live': seq<bool>, q: int, e: int,
                                 a: int, b: int, h: int)
    requires Along(mem, live, mem', live', q, e, a, b) && Reach(mem, live, a, h) && b <= h < |live| && live[h]
    ensures Reach(mem', live', b, h)
    decreases h - a + h - b
  {
    if b < h {
      if a < b && live[b] {
        assert !live[a] && !InUse(mem[a]);
        Stays(mem, live, mem', live', q, e, Link(mem[a]), b, h);
      } else if live[b] {
        assert a == b && live'[b] && InUse(mem[b]) && mem'[b] == mem[b];
        Stays(mem, live, mem', live', q, e, Link(mem[a]), Link(mem'[b]), h);
      } else {
        assert live'[h];
        assert live'[b] == InUse(mem'[b]);
        if InUse(mem'[b]) { assert b == q; }
        forall x {:trigger live[x]} | b <= x < Link(mem'[b]) ensures !live[x] { assert live'[x] == InUse(mem'[b]); }
        Stays(mem, live, mem', live', q, e, a, Link(mem'[b]), h);
      }
    }
  }

  lemma {:induction false} StillBlocks(mem: seq<int>, live: seq<bool>, mem': seq<int>, live': seq<bool>, q: int, e: int)
    requires Tiles(mem, live, 0) && Tiles(mem', live', 0) && |mem'| == |mem|
    requires forall x {:trigger live[x]} :: 0 <= x < |live| && live[x] ==> mem'[x] == mem[x]
    requires forall x {:trigger live'[x]} :: 0 <= x < |live| ==> live'[x] == (live[x] || q <= x < e)
    requires 0 <= q <= e <= |live| && All(live, q, e, false) && Reach(mem', live', 0, q)
    requires (q < e ==> Link(mem'[q]) == e)
    ensures forall h {:trigger Reach(mem', live', 0, h)} ::
      0 <= h < |mem| - 1 && Reach(mem, live, 0, h) && InUse(mem[h]) ==> Reach(mem', live', 0, h) && mem'[h] == mem[h]
  {
    forall h {:trigger Reach(mem', live', 0, h)} | 0 <= h < |live| && Reach(mem, live, 0, h) && InUse(mem[h])
      ensures Reach(mem', live', 0, h) && mem'[h] == mem[h]
    {
      Ahead(mem, live, 0, h);
      assert live[h];
      Stays(mem, live, mem', live', q, e, 0, 0, h);
    }
  }

  lemma {:induction false} Chosen(live: seq<bool>, n: int, c: int, d: int, second: bool)
    requires RunAt(live, c, d - c) && NoneBefore(live, n, c, !second)
    requires if second then NoneBefore(live, n, |live|, true) && d - c >= n else d - c == n
    ensures Choice(live, n, c)
  {
    if d - c == n && second { assert false; }
    assert Right(live, n, c, d - c);
  }

  lemma {:induction false} TooLarge(l: word)
    ensures l > MAXU - (CELL - 1) ==> CellsFor(l) == 1
  {
  }

  /** Clearing what is behind a block without data destroys the next header. */
  lemma {:induction false} Overrun(mem: seq<int>, live: seq<bool>, mem': seq<int>, a: int, l: word)
    requires Reach(mem, live, 0, a) && Tiles(mem, live, a) && a < |mem| - 1 && mem[a] == 2 * (a + 1) + 1
    requires |mem'| == |mem|
    requires l > MAXU - (CELL - 1)
    requires forall x {:trigger mem'[x]} :: 0 <= x < |mem| ==>
      mem'[x] == if a + 1 <= x < a + 1 + (l + CELL - 1) / CELL then Kcleared(mem[x], l, x - (a + 1)) else mem[x]
    ensures !Tiles(mem', live, 0)
  {
    assert mem'[a + 1] == 0 && mem'[a] == mem[a];
    if Tiles(mem', live, 0) {
      ReachFrame(mem, live, mem', live, 0, a);
      Ahead(mem', live, 0, a);
    }
  }

  /** The storage at p is new: n cells, header first, that were free.  All that was in use
      before is as it was. */
  ghost predicate Marked(live: seq<bool>, mem: seq<int>, l0: seq<bool>, m0: seq<int>, p: int, n: int) {
    && |live| == |l0| && |m0| == |mem| == |live| + 1 && 0 < p < p - 1 + n + 1 <= |mem|
    && All(l0, p - 1, p - 1 + n, false) && mem[p - 1] == 2 * (p - 1 + n) + 1
    && (forall x {:trigger live[x]} :: 0 <= x < |live| ==> live[x] == (l0[x] || p - 1 <= x < p - 1 + n))
    && (forall x {:trigger mem[x]} :: 0 <= x < |l0| && l0[x] ==> mem[x] == m0[x])
  }

  // facts for where the definitions are hidden

  lemma {:induction false} FreeBlock(mem: seq<int>, live: seq<bool>, a: int, n: int)
    requires Tiles(mem, live, a) && a < |mem| - 1 && !InUse(mem[a]) && 0 < n <= Link(mem[a]) - a
    ensures Link(mem[a]) < |mem| == |live| + 1 && All(live, a, a + n, false)
    ensures forall x {:trigger live[x]} :: a <= x < a + n ==> !live[x]
  {
  }

  lemma {:induction false} TurnedCells(mem: seq<int>, live: seq<bool>, mem': seq<int>, live': seq<bool>, a: int)
    requires SameBut(mem, live, mem', live', a) && InUse(mem'[a])
    ensures |live'| == |live| && a < Link(mem[a]) < |mem| && mem'[a] == 2 * Link(mem[a]) + 1
    ensures forall x {:trigger live'[x]} :: 0 <= x < |live| ==> live'[x] == (live[x] || a <= x < Link(mem[a]))
  {
  }

  lemma {:induction false} InUseNext(mem: seq<int>, live: seq<bool>, a: int)
    requires Tiles(mem, live, a) && a < |mem| - 1
    ensures 0 <= a < |mem| && a < Link(mem[a]) < |mem| == |live| + 1
    ensures InUse(mem[a]) ==> live[Link(mem[a]) - 1]
    ensures !InUse(mem[a]) ==> !live[a]
  {
  }

  lemma {:induction false} PassTiles(mem: seq<int>, live: seq<bool>, a: int)
    requires Tiles(mem, live, a) && a < |mem| - 1
    ensures a < Link(mem[a]) < |mem| && Tiles(mem, live, Link(mem[a]))
  {
  }

  lemma {:induction false} IsRun(live: seq<bool>, a: int, b: int)
    requires All(live, a, b, false) && 0 <= a < b <= |live| && (a == 0 || live[a - 1]) && (b == |live| || live[b])
    ensures RunAt(live, a, b - a)
  {
  }

  lemma {:induction false} AtStart(mem: seq<int>, live: seq<bool>, live0: seq<bool>)
    requires Tiles(mem, live, 0)
    ensures Reach(mem, live, 0, 0) && All(live0, 0, 0, false)
  {
  }

  lemma {:induction false} ClearedData(mem: seq<int>, live: seq<bool>, mem': seq<int>, a: int)
    requires Tiles(mem, live, a) && a < |mem| - 1 && |mem'| == |mem|
    requires forall x {:trigger mem'[x]} :: 0 <= x < |mem| && !(a < x < Link(mem[a])) ==> mem'[x] == mem[x]
    ensures SameBut(mem, live, mem', live, a)
  {
  }

  // ----- the allocator --------------------------------------------------------------------------

  class Heap {
    const mem: array<int>
    ghost var live: seq<bool>

    ghost predicate Valid()
      reads this`live, mem
    {
      0 < mem.Length && Tiles(mem[..], live, 0)
    }

    /** setarena: one free block, if there is room for one, and the end. */
    constructor (cells: nat)
      requires cells >= 1
      ensures Valid() && mem.Length == cells && live == seq(cells - 1, i => false) && fresh(mem)
    {
      mem := new int[cells](i => 0);
      live := seq(cells - 1, i => false);
      new;
      mem[0] := 2 * (cells - 1);
      mem[cells - 1] := 2 * 0;
      mem[cells - 1] := mem[cells - 1] + 1;
      assert Tiles(mem[..], live, cells - 1);
    }

    /** The inner loop of alloc: the first header in use behind the free one at ap1. */
    method RunEnd(ap1: int) returns (ap2: int)
      requires Tiles(mem[..], live, ap1) && ap1 < mem.Length - 1 && !InUse(mem[ap1])
      ensures ap1 < ap2 < mem.Length && Tiles(mem[..], live, ap2) && InUse(mem[ap2]) && All(live, ap1, ap2, false)
    {
      ap2 := Link(mem[ap1]);
      while !InUse(mem[ap2])
        invariant ap1 < ap2 < mem.Length && Tiles(mem[..], live, ap2) && All(live, ap1, ap2, false)
        decreases mem.Length - ap2
      {
        ap2 := Link(mem[ap2]);
      }
    }

    /** Free blocks in a row become one; nothing in use is touched. */
    method Coalesce(ap1: int) returns (ap2: int)
      requires Valid() && Reach(mem[..], live, 0, ap1) && Tiles(mem[..], live, ap1) && ap1 < mem.Length - 1
      requires !InUse(mem[ap1])
      modifies mem
      ensures Valid() && Reach(mem[..], live, 0, ap1) && Tiles(mem[..], live, ap1) && mem[ap1] == 2 * ap2
      ensures ap1 < ap2 < mem.Length && (ap2 == mem.Length - 1 || live[ap2])
      ensures forall x {:trigger mem[x]} :: 0 <= x < mem.Length && x != ap1 ==> mem[x] == old(mem[x])
      ensures All(live, ap1, ap2, false)
    {
      ghost var m := mem[..];
      ap2 := RunEnd(ap1);
      mem[ap1] := 2 * ap2;
      TilesFrame(m, live, mem[..], live, ap2);
      ReachFrame(m, live, mem[..], live, 0, ap1);
      assert Tiles(mem[..], live, ap1);
      Join(mem[..], live, 0, ap1);
    }

    /** Cut the free block at ap1, which ends at ap2, after n cells. */
    method Split(ap1: int, ap2: int, n: int)
      requires Valid() && Reach(mem[..], live, 0, ap1) && Tiles(mem[..], live, ap1) && 0 <= ap1 < mem.Length - 1
      requires mem[ap1] == 2 * ap2 && 0 < n < ap2 - ap1
      modifies mem
      ensures Valid() && Reach(mem[..], live, 0, ap1) && Tiles(mem[..], live, ap1) && mem[ap1] == 2 * (ap1 + n)
      ensures forall x {:trigger mem[x]} :: 0 <= x < mem.Length && x != ap1 && x != ap1 + n ==> mem[x] == old(mem[x])
    {
      hide Tiles, Reach, All;
      FreeBlock(mem[..], live, ap1, n);
      ghost var m := mem[..];
      var ap := ap1 + n;
      mem[ap] := 2 * ap2;
      mem[ap1] := 2 * ap;
      Cut(m, live, mem[..], ap1, ap2, n);
    }

    /** setused and setfree: the block at ap1, whose cells all turn. */
    method Turn(ap1: int, used: bool)
      requires Valid() && Reach(mem[..], live, 0, ap1) && Tiles(mem[..], live, ap1) && 0 <= ap1 < mem.Length - 1
      modifies this`live, mem
      ensures Valid() && Reach(mem[..], live, 0, ap1) && Tiles(mem[..], live, ap1)
      ensures SameBut(old(mem[..]), old(live), mem[..], live, ap1)
      ensures InUse(mem[ap1]) == used
      ensures forall x {:trigger mem[x]} :: 0 <= x < mem.Length && x != ap1 ==> mem[x] == old(mem[x])
    {
      hide Reach, All;
      ghost var m, l := mem[..], live;
      mem[ap1] := 2 * Link(mem[ap1]) + (if used then 1 else 0);
      ghost var next := Link(mem[ap1]);
      live := seq(|l|, x requires 0 <= x < |l| => if ap1 <= x < next then used else l[x]);
      Changed(m, l, mem[..], live, ap1);
    }

    /** h is the header of a block in use. */
    ghost predicate Block(h: int)
      reads this`live, mem
    {
      0 <= h < mem.Length - 1 && Reach(mem[..], live, 0, h) && InUse(mem[h])
    }

    /** Where the search of one pass of alloc stands. */
    ghost predicate Searched(ap1: int, n: int, first: bool)
      reads this`live, mem
    {
      && Valid() && Reach(mem[..], live, 0, ap1) && Tiles(mem[..], live, ap1) && Tight(mem[..], live, 0, ap1, n, first)
      && (ap1 == 0 || ap1 == mem.Length - 1 || live[ap1] || live[ap1 - 1])
    }

    /** One step of the search: a block that does not do is left behind. */
    method Step(ap1: int, n: int, first: bool) returns (found: bool, ap2: int)
      requires Searched(ap1, n, first) && ap1 < mem.Length - 1
      modifies mem
      ensures forall x {:trigger live[x]} :: 0 <= x < |live| && live[x] ==> mem[x] == old(mem[x])
      ensures ap1 < ap2 < mem.Length
      ensures !found ==> Searched(ap2, n, first)
      ensures found ==>
        Searched(ap1, n, first) && mem[ap1] == 2 * ap2 && RunAt(live, ap1, ap2 - ap1) && !Unfit(ap2 - ap1, n, first)
    {
      hide Reach, Tiles, Tight, All, RunAt;
      InUseNext(mem[..], live, ap1);
      ap2 := Link(mem[ap1]);
      if InUse(mem[ap1]) {
        PassTight(mem[..], live, 0, ap1, n, first);
        PassTiles(mem[..], live, ap1);
        return false, ap2;
      }
      ghost var m := mem[..];
      ap2 := Coalesce(ap1);
      TightFrame(m, live, mem[..], 0, ap1, n, first);
      IsRun(live, ap1, ap2);
      var s := ap2 - ap1;
      found := s >= n && !(s > n && first);
      if !found {
        PassTight(mem[..], live, 0, ap1, n, first);
        PassTiles(mem[..], live, ap1);
      }
    }

    /** One pass over the arena: the first block that does, or 0 and no run that does. */
    method Search(n: int, first: bool) returns (found: bool, ap1: int, ap2: int)
      requires Valid() && n > 0
      modifies mem
      ensures forall x {:trigger live[x]} :: 0 <= x < |live| && live[x] ==> mem[x] == old(mem[x])
      ensures Valid() && (!found ==> NoneBefore(live, n, |live|, first))
      ensures found ==> NoneBefore(live, n, ap1, first) && RunAt(live, ap1, ap2 - ap1) && !Unfit(ap2 - ap1, n, first)
      ensures found ==>
        Reach(mem[..], live, 0, ap1) && Tiles(mem[..], live, ap1) && ap1 < mem.Length - 1 && mem[ap1] == 2 * ap2
    {
      ap1, ap2, found := 0, 0, false;
      while Link(mem[ap1]) != 0
        invariant Searched(ap1, n, first)
        invariant forall x {:trigger live[x]} :: 0 <= x < |live| && live[x] ==> mem[x] == old(mem[x])
        decreases mem.Length - ap1
      {
        found, ap2 := Step(ap1, n, first);
        if found { break; }
        ap1 := ap2;
      }
      forall c, s {:trigger RunAt(live, c, s)} | c < ap1 && RunAt(live, c, s) ensures Unfit(s, n, first) {
        NoRun(mem[..], live, 0, ap1, n, first, c, s);
      }
    }

    /** kclear: l bytes from p on, as far as the arena goes. */
    method Clear(p: int, l: word)
      requires 0 <= p < mem.Length
      modifies mem
      ensures forall x {:trigger mem[x]} :: 0 <= x < mem.Length ==>
        mem[x] == if p <= x < p + (l + CELL - 1) / CELL then Kcleared(old(mem[x]), l, x - p) else old(mem[x])
    {
      hide Byte, HalfCleared, Kcleared;
      ghost var m := mem[..];
      if l % 2 == 1 { mem[p] := mem[p] % 0x1000000; }
      ClearStarts(m, mem[..], p, l);
      var w := 0;
      while w < l / 2 && p + w / 2 < mem.Length
        invariant 0 <= w <= l / 2 && HalfCleared(m, mem[..], p, l, w)
      {
        var x := p + w / 2;
        ClearStep(m, mem[..], p, l, w);
        mem[x] := if w % 2 == 0 then mem[x] % 0x10000 else mem[x] - mem[x] % 0x10000;
        w := w + 1;
      }
      ClearEnds(m, mem[..], p, l, w);
    }

    /** Mark the n cells found as a block in use. */
    method Take(ap1: int, ap2: int, n: int)
      requires Valid() && Reach(mem[..], live, 0, ap1) && Tiles(mem[..], live, ap1) && 0 <= ap1 < mem.Length - 1
      requires mem[ap1] == 2 * ap2 && 0 < n <= ap2 - ap1
      modifies this`live, mem
      ensures Valid() && Reach(mem[..], live, 0, ap1) && Tiles(mem[..], live, ap1)
      ensures Marked(live, mem[..], old(live), old(mem[..]), ap1 + 1, n)
    {
      hide Reach, Tiles, SameBut;
      FreeBlock(mem[..], live, ap1, ap2 - ap1);
      if ap2 - ap1 > n { Split(ap1, ap2, n); }
      ghost var m, l0 := mem[..], live;
      Turn(ap1, true);
      TurnedCells(m, l0, mem[..], live, ap1);
    }

    /** And it has room for l bytes, of which what kclear clears is clear. */
    ghost predicate Granted(l0: seq<bool>, m0: seq<int>, p: int, n: int, l: word)
      reads this`live, mem
    {
      Marked(live, mem[..], l0, m0, p, n) && l <= CELL * (n - 1) && ClearFrom(mem[..], p, l)
    }

    /** alloc: two passes.  0 is NULL.  A size that wraps gets a header, and kclear destroys what
        is behind it. */
    method Alloc(l: word) returns (p: int)
      requires Valid()
      modifies this`live, mem
      ensures Valid() <==> p == 0 || l <= MAXU - (CELL - 1)
      ensures p == 0 || l <= MAXU - (CELL - 1) ==> forall h {:trigger Block(h)} :: old(Block(h)) ==> Block(h)
      ensures p != 0 ==> Choice(old(live), CellsFor(l), p - 1)
      ensures p != 0 && l <= MAXU - (CELL - 1) ==> Granted(old(live), old(mem[..]), p, CellsFor(l), l) && Block(p - 1)
      ensures p == 0 ==> live == old(live) && NoneBefore(live, CellsFor(l), |live|, false)
      ensures p == 0 ==> forall x {:trigger live[x]} :: 0 <= x < |live| && live[x] ==> mem[x] == old(mem[x])
    {
      hide Reach, Tiles, All, Choice, NoneBefore, RunAt, Granted, Marked, Kcleared;
      Enough(l);
      TooLarge(l);
      ghost var m, l0 := mem[..], live;
      var n := CellsFor(l);
      var found, ap1, ap2 := Search(n, true);
      ghost var second := !found;
      if !found { found, ap1, ap2 := Search(n, false); }
      if !found {
        AtStart(mem[..], live, l0);
        StillBlocks(m, l0, mem[..], live, 0, 0);
        return 0;
      }
      Chosen(live, n, ap1, ap2, second);
      ghost var m' := mem[..];
      assert forall x {:trigger l0[x]} :: 0 <= x < |l0| && l0[x] ==> m'[x] == m[x];
      Take(ap1, ap2, n);
      MarkedIn(l0, m', ap1 + 1, n);
      ghost var m2 := mem[..];
      Clear(ap1 + 1, l);
      if l <= MAXU - (CELL - 1) {
        Cleared(m2, l0, m', ap1, n, l);
        Delivered(m, m', l0, ap1, n, l);
      } else {
        Overrun(m2, live, mem[..], ap1, l);
      }
      p := ap1 + 1;
    }

    lemma {:induction false} MarkedIn(l0: seq<bool>, m0: seq<int>, p: int, n: int)
      requires Marked(live, mem[..], l0, m0, p, n)
      ensures 0 < p < p + n <= mem.Length && mem[p - 1] == 2 * (p - 1 + n) + 1
    {
    }

    /** The data of the new block, clear where kclear has been. */
    lemma {:induction false} Cleared(m2: seq<int>, l0: seq<bool>, m': seq<int>, q: int, n: int, l: word)
      requires |m2| == mem.Length && Reach(m2, live, 0, q) && Tiles(m2, live, q) && 0 <= q < |m2| - 1
      requires 0 < n && l <= CELL * (n - 1) && Marked(live, m2, l0, m', q + 1, n)
      requires forall x {:trigger mem[x]} :: 0 <= x < mem.Length ==>
        mem[x] == if q + 1 <= x < q + 1 + (l + CELL - 1) / CELL then Kcleared(m2[x], l, x - (q + 1)) else m2[x]
      ensures Valid() && Reach(mem[..], live, 0, q) && Granted(l0, m', q + 1, n, l)
    {
      hide Reach, Tiles, SameBut, Kcleared, Byte;
      ClearBytesIn(m2, mem[..], q + 1, l);
      ClearedData(m2, live, mem[..], q);
      Changed(m2, live, mem[..], live, q);
    }

    /** What was granted of the storage that the search had coalesced, seen from before it. */
    lemma {:induction false} Delivered(m: seq<int>, m': seq<int>, l0: seq<bool>, q: int, n: int, l: word)
      requires Valid() && Tiles(m, l0, 0) && |m'| == |m| && Granted(l0, m', q + 1, n, l) && n > 0
      requires Reach(mem[..], live, 0, q)
      requires forall x {:trigger l0[x]} :: 0 <= x < |l0| && l0[x] ==> m'[x] == m[x]
      ensures Granted(l0, m, q + 1, n, l) && Block(q)
      ensures forall h {:trigger Block(h)} :: 0 <= h < |m| - 1 && Reach(m, l0, 0, h) && InUse(m[h]) ==> Block(h)
    {
      hide Reach, Tiles, All;
      StillBlocks(m, l0, mem[..], live, q, q + n);
    }

    /** free: false is the panic.  The pointer is one to the data behind a header. */
    method Free(p: int) returns (ok: bool)
      requires Valid() && 0 <= p - 1 < mem.Length - 1 && Reach(mem[..], live, 0, p - 1)
      modifies this`live, mem
      ensures Valid() && ok == old(Block(p - 1)) && (!ok ==> live == old(live))
      ensures ok ==> SameBut(old(mem[..]), old(live), mem[..], live, p - 1) && !InUse(mem[p - 1])
      ensures forall h {:trigger Block(h)} :: h != p - 1 && old(Block(h)) ==> Block(h)
      ensures forall x {:trigger mem[x]} :: 0 <= x < mem.Length && x != p - 1 ==> mem[x] == old(mem[x])
    {
      hide Reach, Tiles, SameBut;
      var ap := p - 1;
      Ahead(mem[..], live, 0, ap);
      ghost var m, l := mem[..], live;
      ok := InUse(mem[ap]);
      if ok {
        Turn(ap, false);
        OtherBlocks(m, l, ap);
      }
    }

    /** Turning block q leaves the other blocks blocks. */
    lemma {:induction false} OtherBlocks(m: seq<int>, l: seq<bool>, q: int)
      requires |m| == mem.Length && SameBut(m, l, mem[..], live, q) && Reach(m, l, 0, q)
      requires forall x {:trigger mem[x]} :: 0 <= x < mem.Length && x != q ==> mem[x] == m[x]
      ensures forall h {:trigger Block(h)} :: h != q && 0 <= h < |m| - 1 && Reach(m, l, 0, h) && InUse(m[h]) ==>
        Block(h)
    {
      hide Reach, SameBut;
      forall h {:trigger Block(h)} | h != q && 0 <= h < |m| - 1 && Reach(m, l, 0, h) && InUse(m[h]) ensures Block(h) {
        QInside(m, l, mem[..], live, q);
        Others(m, l, mem[..], live, q, 0, h);
      }
    }
  }
}
