/** disk.py when a file gets shorter: its trees pruned to their first leaves. */
module DiskShrink {
  import opened Blocks
  import opened BlockMap
  import opened Trees
  import opened FileTrees
  import opened FreeList
  import opened Inodes
  import opened DiskImage
  import opened DiskFiles

  /** The tree at b' is the one that was at b, cut down to its first keep leaves, and has no
      block that is not on the way to one of them. */
  ghost predicate Pruned(d0: Disk, b: int, d: Disk, b': int, l: nat, keep: int) {
    && (forall q {:trigger Walk(d, b', q)} :: Digits(q) && |q| == l ==>
          Walk(d, b', q) == if Number(q) < keep then Walk(d0, b, q) else 0)
    && Trim(d, b', l, keep)
  }

  /** What pruning a tree does to the volume. */
  ghost predicate Cut(d0: Disk, st0: seq<int>, b: int, d: Disk, st: seq<int>, b': int, l: nat, keep: int) {
    && Only(d0, d, Own(d0, b, l)) && multiset(st0) <= multiset(st)
    && Own(d, b', l) + multiset(st) == Own(d0, b, l) + multiset(st0)
    && Pruned(d0, b, d, b', l, keep)
  }

  lemma {:induction false} Uncut(d: Disk, st: seq<int>, b: int, l: nat, keep: int)
    requires b == 0 || keep >= Span(l)
    ensures Cut(d, st, b, d, st, b, l, keep)
  {
    hide Own, OwnKids, Walk, Trim;
    if b == 0 { TrimHole(d, l, keep); } else { TrimFull(d, b, l, keep); }
    forall q | Digits(q) && |q| == l ensures Walk(d, b, q) == if Number(q) < keep then Walk(d, b, q) else 0 {
      NumberBelow(q);
      HoleWalk(d, q);
    }
    OnlySame(d, Own(d, b, l));
  }

  lemma {:induction false} HoleWalk(d: Disk, q: seq<nat>)
    requires Digits(q)
    ensures Walk(d, 0, q) == 0
  {
  }

  /** A data block dropped. */
  lemma {:induction false} LeafCut(d0: Disk, st0: seq<int>, b: int, d: Disk, st: seq<int>, keep: int)
    requires b != 0 && keep <= 0 && st == st0 + [b] && Only(d0, d, multiset{b})
    ensures Cut(d0, st0, b, d, st, 0, 0, keep)
  {
    LeafOwnsSelf(d0, b);
    LeafOwnsSelf(d, 0);
    TrimHole(d, 0, keep);
    forall q | Digits(q) && |q| == 0 ensures Walk(d, 0, q) == if Number(q) < keep then Walk(d0, b, q) else 0 {
    }
  }

  // ----- the first block given back -----------------------------------------------------------

  predicate Blank(blk: Block) { forall j {:trigger Entry(blk, j)} :: 0 <= j < NBN ==> Entry(blk, j) == 0 }

  /** The first block that pruning the tree at e to keep leaves gives back, 0 if there is none. */
  ghost function SlotOut(d: Disk, e: int, l: nat, keep: int): int
    decreases l, 0
  {
    if e == 0 || keep >= Span(l) then 0
    else if l == 0 then e
    else TreeOut(d, e, l, if keep > 0 then keep else 0)
  }

  /** The same for a root, into which the code always looks. */
  ghost function TreeOut(d: Disk, b: int, l: nat, keep: int): int
    requires l > 0
    decreases l - 1, NBN + 2
  {
    if !(0 < b < |d|) then 0
    else if KidsOut(d, d[b], l - 1, keep, NBN) != 0 then KidsOut(d, d[b], l - 1, keep, NBN)
    else if Blank(d[b]) then b
    else 0
  }

  /** The same for the first s slots of an indirect block. */
  ghost function KidsOut(d: Disk, blk: Block, l: nat, keep: int, s: nat): int
    requires s <= NBN
    decreases l, s + 1
  {
    if s == 0 then 0
    else if KidsOut(d, blk, l, keep, s - 1) != 0 then KidsOut(d, blk, l, keep, s - 1)
    else SlotOut(d, Entry(blk, s - 1), l, keep - (s - 1) * Span(l))
  }

  lemma {:induction false} KidsOutNext(d: Disk, blk: Block, l: nat, keep: int, s: nat)
    requires s < NBN
    ensures KidsOut(d, blk, l, keep, 0) == 0
    ensures KidsOut(d, blk, l, keep, s + 1) ==
      if KidsOut(d, blk, l, keep, s) != 0 then KidsOut(d, blk, l, keep, s)
      else SlotOut(d, Entry(blk, s), l, keep - s * Span(l))
  {
  }

  lemma {:induction false} SlotOutIs(d: Disk, e: int, l: nat, keep: int)
    ensures SlotOut(d, e, l, keep) ==
      if e == 0 || keep >= Span(l) then 0 else if l == 0 then e else TreeOut(d, e, l, if keep > 0 then keep else 0)
  {
  }

  lemma {:induction false} TreeOutIs(d: Disk, b: int, l: nat, keep: int)
    requires l > 0 && 0 < b < |d|
    ensures var f := KidsOut(d, d[b], l - 1, keep, NBN);
      TreeOut(d, b, l, keep) == if f != 0 then f else if Blank(d[b]) then b else 0
  {
  }

  /** What has happened to the bottom of the free stack: it is as it was; or it is first, the
      first block given back, as that was; or nothing has happened at all. */
  ghost predicate Piled(d0: Disk, st0: seq<int>, d: Disk, st: seq<int>, first: int) {
    && |d| == |d0|
    && if st0 != [] then st != [] && st[0] == st0[0] && (0 <= st[0] < |d| ==> d[st[0]] == d0[st[0]])
       else if first == 0 then st == [] && d == d0
       else st != [] && st[0] == first && 0 <= first < |d| && d[first] == d0[first]
  }

  lemma {:induction false} PiledTwice(d0: Disk, st0: seq<int>, d: Disk, st: seq<int>, first: int, d': Disk,
                                      st': seq<int>, second: int)
    requires Piled(d0, st0, d, st, first) && Piled(d, st, d', st', second)
    ensures Piled(d0, st0, d', st', if first != 0 then first else second)
  {
  }

  lemma {:induction false} PiledSame(d: Disk, st: seq<int>)
    ensures Piled(d, st, d, st, 0)
  {
  }

  lemma {:induction false} PiledWrite(d0: Disk, st0: seq<int>, d: Disk, st: seq<int>, first: int, b: int, blk: Block)
    requires Piled(d0, st0, d, st, first) && st != [] && b !in st && 0 <= b < |d|
    ensures Piled(d0, st0, d[b := blk], st, first)
  {
  }

  // ----- one indirect block ------------------------------------------------------------------

  /** The first s slots of an indirect block are done; work is its new contents so far. */
  ghost predicate Pruning(d0: Disk, st0: seq<int>, blk: Block, l: nat, keep: int, s: nat, d: Disk, work: Block,
                          st: seq<int>) {
    && s <= NBN && multiset(st0) <= multiset(st)
    && (forall j :: s <= j < NBN ==> Entry(work, j) == Entry(blk, j))
    && Only(d0, d, OwnKids(d0, blk, l, s))
    && OwnKids(d, work, l, s) + multiset(st) == OwnKids(d0, blk, l, s) + multiset(st0)
    && (forall j {:trigger Entry(work, j)} :: 0 <= j < s ==>
          Pruned(d0, Entry(blk, j), d, Entry(work, j), l, keep - j * Span(l)))
  }

  lemma {:induction false} PruningStart(d: Disk, st: seq<int>, blk: Block, l: nat, keep: int)
    ensures Pruning(d, st, blk, l, keep, 0, d, blk, st)
  {
    OnlySame(d, OwnKids(d, blk, l, 0));
  }

  lemma {:induction false} KidsAlike(d: Disk, d': Disk, blk: Block, blk': Block, l: nat, n: nat)
    requires n <= NBN && forall j :: 0 <= j < n ==> Own(d', Entry(blk', j), l) == Own(d, Entry(blk, j), l)
    ensures OwnKids(d', blk', l, n) == OwnKids(d, blk, l, n)
    decreases n
  {
    hide Own, OwnKids;
    if n > 0 {
      KidsUnfold(d, blk, l, n);
      KidsUnfold(d', blk', l, n);
      KidsAlike(d, d', blk, blk', l, n - 1);
    } else {
      EmptyKids(d, blk, l, 0);
      EmptyKids(d', blk', l, 0);
    }
  }

  lemma {:induction false} LeftPart(x: multiset<int>, y: multiset<int>, m: multiset<int>, n: multiset<int>)
    requires x + m == y + n && n <= m
    ensures x <= y
  {
    forall z ensures x[z] <= y[z] {
      assert (x + m)[z] == (y + n)[z];
    }
  }

  lemma {:induction false} ApartIn(x: multiset<int>, y: multiset<int>, z: int)
    requires Once(x + y) && x[z] > 0
    ensures y[z] == 0
  {
    assert (x + y)[z] <= 1;
  }

  /** The next slot may be pruned on its own. */
  lemma {:induction false} NextSlot(d0: Disk, st0: seq<int>, blk: Block, l: nat, keep: int, s: nat, d: Disk,
                                    work: Block, st: seq<int>, lo: int, hi: int)
    requires s < NBN && Pruning(d0, st0, blk, l, keep, s, d, work, st)
    requires Once(OwnKids(d0, blk, l, NBN) + multiset(st0)) && InRange(OwnKids(d0, blk, l, NBN), lo, hi)
    ensures var e := Entry(blk, s);
      && Entry(work, s) == e && Agree(d0, d, Own(d0, e, l)) && Own(d, e, l) == Own(d0, e, l)
      && Once(Own(d, e, l) + multiset(st)) && InRange(Own(d, e, l), lo, hi)
    ensures Once(OwnKids(d0, blk, l, s) + Own(d0, Entry(blk, s), l))
    ensures OwnKids(d, work, l, s) <= OwnKids(d0, blk, l, s)
  {
    hide Own, OwnKids, Pruned, Entry, Once;
    var e, all, m := Entry(blk, s), OwnKids(d0, blk, l, NBN), OwnKids(d0, blk, l, s);
    KidsUnfold(d0, blk, l, s + 1);
    KidsWithin(d0, blk, l, s + 1, NBN);
    LeftPart(OwnKids(d, work, l, s), m, multiset(st), multiset(st0));
    assert m + Own(d0, e, l) <= all + multiset(st0);
    OncePart(m + Own(d0, e, l), all + multiset(st0));
    assert Own(d0, e, l) + m == m + Own(d0, e, l);
    GoneApart(d0, d, Own(d0, e, l), m);
    OwnFrame(d0, d, e, l);
    RightPart(OwnKids(d, work, l, s), m, multiset(st), multiset(st0));
    assert Own(d0, e, l) + multiset(st) <= all + multiset(st0);
    OncePart(Own(d0, e, l) + multiset(st), all + multiset(st0));
    forall x | Own(d0, e, l)[x] > 0 ensures lo <= x < hi { assert Own(d0, e, l)[x] <= all[x]; }
  }

  lemma {:induction false} RightPart(x: multiset<int>, y: multiset<int>, m: multiset<int>, n: multiset<int>)
    requires x + m == y + n
    ensures m <= y + n
  {
    assert x + m == m + x;
  }

  lemma {:induction false} KidsWithin(d: Disk, blk: Block, l: nat, s: nat, n: nat)
    requires s <= n <= NBN
    ensures OwnKids(d, blk, l, s) <= OwnKids(d, blk, l, n)
    decreases n
  {
    hide Own;
    if s < n { KidsWithin(d, blk, l, s, n - 1); }
  }

  /** A slot done before is not touched by what happens under slot s. */
  lemma {:induction false} EarlierSlot(d0: Disk, blk: Block, l: nat, s: nat, d: Disk, work: Block, d': Disk, j: nat,
                                       b: int, keep: int)
    requires j < s < NBN && OwnKids(d, work, l, s) <= OwnKids(d0, blk, l, s)
    requires Once(OwnKids(d0, blk, l, s) + Own(d0, Entry(blk, s), l)) && Only(d, d', Own(d0, Entry(blk, s), l))
    requires Pruned(d0, b, d, Entry(work, j), l, keep)
    ensures Own(d', Entry(work, j), l) == Own(d, Entry(work, j), l)
    ensures Pruned(d0, b, d', Entry(work, j), l, keep)
  {
    hide Own, OwnKids, Walk, Entry, Once, Number, Trim;
    var e := Entry(work, j);
    KidPart(d, work, l, s, j);
    forall x | 0 <= x < |d| && Own(d, e, l)[x] > 0 ensures d'[x] == d[x] {
      assert Own(d, e, l)[x] <= OwnKids(d, work, l, s)[x] <= OwnKids(d0, blk, l, s)[x];
      ApartIn(OwnKids(d0, blk, l, s), Own(d0, Entry(blk, s), l), x);
    }
    OwnFrame(d, d', e, l);
    TrimFrame(d, d', e, l, keep);
    forall q | Digits(q) && |q| == l ensures Walk(d', e, q) == if Number(q) < keep then Walk(d0, b, q) else 0 {
      WalkFrame(d, d', e, l, q);
    }
  }

  lemma {:induction false} SlotDone(d0: Disk, st0: seq<int>, blk: Block, l: nat, keep: int, s: nat, d: Disk,
                                    work: Block, st: seq<int>, d': Disk, work': Block, st': seq<int>, e': int,
                                    lo: int, hi: int)
    requires s < NBN && Pruning(d0, st0, blk, l, keep, s, d, work, st)
    requires Once(OwnKids(d0, blk, l, NBN) + multiset(st0)) && InRange(OwnKids(d0, blk, l, NBN), lo, hi)
    requires Cut(d, st, Entry(blk, s), d', st', e', l, keep - s * Span(l))
    requires forall j :: 0 <= j < NBN ==> Entry(work', j) == if j == s then e' else Entry(work, j)
    ensures Pruning(d0, st0, blk, l, keep, s + 1, d', work', st')
  {
    hide Own, OwnKids, Walk, Entry, Once, Span, Pruned;
    NextSlot(d0, st0, blk, l, keep, s, d, work, st, lo, hi);
    var e := Entry(blk, s);
    forall j | 0 <= j < s
      ensures Own(d', Entry(work', j), l) == Own(d, Entry(work, j), l)
      ensures Pruned(d0, Entry(blk, j), d', Entry(work', j), l, keep - j * Span(l))
    {
      EarlierSlot(d0, blk, l, s, d, work, d', j, Entry(blk, j), keep - j * Span(l));
    }
    KidsAlike(d, d', work, work', l, s);
    KidsUnfold(d0, blk, l, s + 1);
    KidsUnfold(d', work', l, s + 1);
    OnlyBoth(d0, d, d', OwnKids(d0, blk, l, s), Own(d0, e, l));
    assert OwnKids(d0, blk, l, s) + Own(d0, e, l) == OwnKids(d0, blk, l, s + 1);
    PrunedFrom(d0, d, e, d', e', l, keep - s * Span(l));
    assert Entry(work', s) == e';
    assert OwnKids(d', work', l, s + 1) + multiset(st') == OwnKids(d0, blk, l, s + 1) + multiset(st0) by {
      Conserve(OwnKids(d', work', l, s), Own(d', e', l), multiset(st'), Own(d, e, l), multiset(st),
               OwnKids(d0, blk, l, s), multiset(st0));
    }
  }

  lemma {:induction false} Conserve(done: multiset<int>, e': multiset<int>, st': multiset<int>,
                                    e: multiset<int>, st: multiset<int>,
                                    done0: multiset<int>, st0: multiset<int>)
    requires e' + st' == e + st && done + st == done0 + st0
    ensures (e' + done) + st' == (e + done0) + st0
  {
    forall x ensures ((e' + done) + st')[x] == ((e + done0) + st0)[x] {
      assert (e' + st')[x] == (e + st)[x] && (done + st)[x] == (done0 + st0)[x];
    }
  }

  lemma {:induction false} PrunedFrom(d0: Disk, d: Disk, e: int, d': Disk, e': int, l: nat, keep: int)
    requires Agree(d0, d, Own(d0, e, l)) && Pruned(d, e, d', e', l, keep)
    ensures Pruned(d0, e, d', e', l, keep)
  {
    hide Own, Walk, Number, Trim;
    forall q | Digits(q) && |q| == l ensures Walk(d', e', q) == if Number(q) < keep then Walk(d0, e, q) else 0 {
      WalkFrame(d0, d, e, l, q);
    }
  }

  /** All slots are done and the block is empty: its tree is gone but for the block itself. */
  lemma {:induction false} TreeGone(d0: Disk, st0: seq<int>, b: int, l: nat, keep: int, d: Disk, work: Block,
                                    st: seq<int>)
    requires 0 < b < |d0| && Pruning(d0, st0, d0[b], l, keep, NBN, d, work, st)
    requires forall j :: 0 <= j < NBN ==> Entry(work, j) == 0
    ensures multiset(st) + multiset{b} == Own(d0, b, l + 1) + multiset(st0)
    ensures Only(d0, d, Own(d0, b, l + 1)) && Pruned(d0, b, d, 0, l + 1, keep)
  {
    hide Own, OwnKids, Entry, Pruned;
    OwnUnfold(d0, b, l + 1);
    EmptyKids(d, work, l, NBN);
    var all := OwnKids(d0, d0[b], l, NBN);
    OnlyMore(d0, d, all, b);
    assert Only(d0, d, Own(d0, b, l + 1)) by { assert Own(d0, b, l + 1) == all + multiset{b}; }
    TrimHole(d, l + 1, keep);
    PrunedAbove(d0, b, d, 0, l, keep, work);
    assert OwnKids(d, work, l, NBN) == multiset{};
    forall x ensures (multiset(st) + multiset{b})[x] == ((all + multiset{b}) + multiset(st0))[x] {
      assert (multiset{} + multiset(st))[x] == (all + multiset(st0))[x];
    }
  }

  lemma {:induction false} OnlyMore(d0: Disk, d: Disk, m: multiset<int>, b: int)
    requires Only(d0, d, m)
    ensures Only(d0, d, m + multiset{b})
  {
    forall x | 0 <= x < |d0| && (m + multiset{b})[x] == 0 ensures d[x] == d0[x] {
      assert m[x] == 0;
    }
  }

  /** From the slots to the block: b' is a block with these slots, or, all empty, none. */
  lemma {:induction false} PrunedAbove(d0: Disk, b: int, d: Disk, b': int, l: nat, keep: int, work: Block)
    requires 0 < b < |d0| && (b' == 0 || 0 < b' < |d|)
    requires forall j :: 0 <= j < NBN ==> Entry(work, j) == if b' == 0 then 0 else Entry(d[b'], j)
    requires forall j {:trigger Entry(work, j)} :: 0 <= j < NBN ==>
      Pruned(d0, Entry(d0[b], j), d, Entry(work, j), l, keep - j * Span(l))
    requires Trim(d, b', l + 1, keep)
    ensures Pruned(d0, b, d, b', l + 1, keep)
  {
    hide Entry, Span, Pruned, Trim;
    forall q | Digits(q) && |q| == l + 1
      ensures Walk(d, b', q) == if Number(q) < keep then Walk(d0, b, q) else 0
    {
      var j := q[0];
      PrunedAt(d0, Entry(d0[b], j), d, Entry(work, j), l, keep - j * Span(l), q[1..]);
      HoleWalk(d, q[1..]);
    }
    PrunedIf(d0, b, d, b', l + 1, keep);
  }

  lemma {:induction false} PrunedAt(d0: Disk, b: int, d: Disk, b': int, l: nat, keep: int, q: seq<nat>)
    requires Pruned(d0, b, d, b', l, keep) && Digits(q) && |q| == l
    ensures Walk(d, b', q) == if Number(q) < keep then Walk(d0, b, q) else 0
  {
  }

  lemma {:induction false} PrunedIf(d0: Disk, b: int, d: Disk, b': int, l: nat, keep: int)
    requires forall q {:trigger Walk(d, b', q)} :: Digits(q) && |q| == l ==>
      Walk(d, b', q) == if Number(q) < keep then Walk(d0, b, q) else 0
    requires Trim(d, b', l, keep)
    ensures Pruned(d0, b, d, b', l, keep)
  {
  }

  lemma {:induction false} PrunedTrim(d0: Disk, b: int, d: Disk, b': int, l: nat, keep: int)
    requires Pruned(d0, b, d, b', l, keep)
    ensures Trim(d, b', l, keep)
  {
  }

  /** All slots are done and something is left: the block gets its new contents. */
  lemma {:induction false} TreeKept(d0: Disk, st0: seq<int>, b: int, l: nat, keep: int, d: Disk, work: Block,
                                    st: seq<int>)
    requires 0 < b < |d0| && Pruning(d0, st0, d0[b], l, keep, NBN, d, work, st)
    requires Once(Own(d0, b, l + 1) + multiset(st0)) && exists k :: 0 <= k < NBN && Entry(work, k) != 0
    ensures Cut(d0, st0, b, d[b := work], st, b, l + 1, keep)
    ensures b !in st && d[b] == d0[b]
  {
    hide Own, OwnKids, Entry, Pruned, Once, Span, Trim;
    var k :| 0 <= k < NBN && Entry(work, k) != 0;
    var blk := d0[b];
    var all, m := OwnKids(d0, blk, l, NBN), OwnKids(d, work, l, NBN);
    OwnUnfold(d0, b, l + 1);
    LeftPart(m, all, multiset(st), multiset(st0));
    KidsAvoid(d0, b, l, all, multiset(st0));
    RightPart(m, all, multiset(st), multiset(st0));
    assert multiset(st)[b] <= (all + multiset(st0))[b] == 0;
    assert m[b] <= all[b] == 0;
    var d' := d[b := work];
    forall j | 0 <= j < NBN
      ensures Own(d', Entry(work, j), l) == Own(d, Entry(work, j), l)
      ensures Pruned(d0, Entry(blk, j), d', Entry(work, j), l, keep - j * Span(l))
      ensures Trim(d', Entry(work, j), l, keep - j * Span(l))
    {
      BlockWritten(d0, Entry(blk, j), d, work, l, j, b, keep - j * Span(l));
      PrunedTrim(d0, Entry(blk, j), d', Entry(work, j), l, keep - j * Span(l));
    }
    TrimAbove(d', b, l, keep, k);
    KidsAlike(d, d', work, work, l, NBN);
    OwnUnfold(d', b, l + 1);
    OnlyMore(d0, d, all, b);
    OnlyBoth(d0, d, d', all, multiset{b});
    PrunedAbove(d0, b, d', b, l, keep, work);
    assert (m + multiset{b}) + multiset(st) == (all + multiset{b}) + multiset(st0) by {
      forall x ensures ((m + multiset{b}) + multiset(st))[x] == ((all + multiset{b}) + multiset(st0))[x] {
        assert (m + multiset(st))[x] == (all + multiset(st0))[x];
      }
    }
  }

  /** The block itself is neither below itself nor free. */
  lemma {:induction false} KidsAvoid(d0: Disk, b: int, l: nat, all: multiset<int>, f: multiset<int>)
    requires 0 < b < |d0| && all == OwnKids(d0, d0[b], l, NBN) && Once(Own(d0, b, l + 1) + f)
    ensures all[b] == 0 && f[b] == 0
  {
    hide OwnKids;
    OwnUnfold(d0, b, l + 1);
    assert (all + multiset{b} + f)[b] <= 1;
  }

  lemma {:induction false} BlockWritten(d0: Disk, e: int, d: Disk, work: Block, l: nat, j: nat, b: int, keep: int)
    requires 0 < b < |d| && j < NBN && OwnKids(d, work, l, NBN)[b] == 0 && Pruned(d0, e, d, Entry(work, j), l, keep)
    ensures Own(d[b := work], Entry(work, j), l) == Own(d, Entry(work, j), l)
    ensures Pruned(d0, e, d[b := work], Entry(work, j), l, keep)
  {
    hide Own, OwnKids, Walk, Entry, Number, Trim;
    KidPart(d, work, l, NBN, j);
    assert Own(d, Entry(work, j), l)[b] <= OwnKids(d, work, l, NBN)[b];
    OwnFrame(d, d[b := work], Entry(work, j), l);
    TrimFrame(d, d[b := work], Entry(work, j), l, keep);
    forall q | Digits(q) && |q| == l
      ensures Walk(d[b := work], Entry(work, j), q) == if Number(q) < keep then Walk(d0, e, q) else 0
    {
      WalkFrame(d, d[b := work], Entry(work, j), l, q);
    }
  }

  /** A block whose tree is gone goes back as well. */
  lemma {:induction false} RootGone(d0: Disk, st0: seq<int>, b: int, d: Disk, st: seq<int>, d': Disk, l: nat, keep: int)
    requires 0 < b < |d0| && multiset(st) + multiset{b} == Own(d0, b, l) + multiset(st0)
    requires multiset(st0) <= multiset(st)
    requires Only(d0, d, Own(d0, b, l)) && Pruned(d0, b, d, 0, l, keep) && Only(d, d', multiset{b})
    ensures Cut(d0, st0, b, d', st + [b], 0, l, keep)
  {
    hide Own, OwnKids, Walk, Number, Trim;
    TrimHole(d', l, keep);
    OwnsItself(d0, b, l);
    HoleOwns(d', l);
    assert multiset(st + [b]) == multiset(st) + multiset{b};
    forall x | 0 <= x < |d0| && Own(d0, b, l)[x] == 0 ensures d'[x] == d0[x] {
      assert multiset{b}[x] == 0;
    }
    forall q | Digits(q) && |q| == l ensures Walk(d', 0, q) == if Number(q) < keep then Walk(d0, b, q) else 0 {
      HoleWalk(d', q);
      HoleWalk(d, q);
      assert Walk(d, 0, q) == if Number(q) < keep then Walk(d0, b, q) else 0;
    }
  }

  /** One slot of _shrink_indirect: keep is what its tree may keep, counted from its start. */
  method ShrinkSlot(im: Image, e: int, l: nat, keep: int) returns (e': int)
    requires im.Loose() && Once(Own(im.disk, e, l) + multiset(im.st))
    requires InRange(Own(im.disk, e, l), im.isize, im.fsize)
    modifies im`nfree, im`tfree, im`st, im`disk, im.free
    ensures im.Loose() && (e' == e || e' == 0)
    ensures Cut(old(im.disk), old(im.st), e, im.disk, im.st, e', l, keep)
    ensures Piled(old(im.disk), old(im.st), im.disk, im.st, SlotOut(old(im.disk), e, l, keep))
    ensures (e' != e ==> im.st != [])
    decreases l, 2
  {
    hide Own, OwnKids, Once, Image.Loose, Cut, Walk, Span, InRange, SlotOut, TreeOut, Piled;
    SlotOutIs(im.disk, e, l, keep);
    if e == 0 || keep >= Span(l) {
      Uncut(im.disk, im.st, e, l, keep);
      PiledSame(im.disk, im.st);
      return e;
    }
    if l == 0 {
      SpanStep(0);
      ghost var d0, st0 := im.disk, im.st;
      LeafOwnsSelf(d0, e);
      LeafFree(im, e);
      LeafCut(d0, st0, e, im.disk, im.st, keep);
      return 0;
    }
    e' := ShrinkTree(im, e, l, if keep > 0 then keep else 0);
    CutBelowZero(old(im.disk), old(im.st), e, im.disk, im.st, e', l, keep);
  }

  /** No leaf has a negative number. */
  lemma {:induction false} CutBelowZero(d0: Disk, st0: seq<int>, b: int, d: Disk, st: seq<int>, b': int, l: nat,
                                        keep: int)
    requires Cut(d0, st0, b, d, st, b', l, if keep > 0 then keep else 0)
    ensures Cut(d0, st0, b, d, st, b', l, keep)
  {
    hide Trim;
    if keep < 0 {
      TrimNothing(d, b', l, 0);
      TrimHole(d, l, keep);
    }
  }

  method LeafFree(im: Image, b: int)
    requires im.Loose() && b != 0 && Once(multiset{b} + multiset(im.st))
    requires InRange(multiset{b}, im.isize, im.fsize)
    modifies im`nfree, im`tfree, im`st, im`disk, im.free
    ensures im.Loose() && im.st == old(im.st) + [b] && Only(old(im.disk), im.disk, multiset{b})
    ensures Piled(old(im.disk), old(im.st), im.disk, im.st, b)
  {
    hide Image.Loose, Image.Valid;
    NotFree(multiset{b}, im.st, b);
    assert multiset{b}[b] > 0;
    im.LooseIs();
    LooseFits(im);
    var ok := im.FreeBlock(b);
  }

  lemma {:induction false} LooseFits(im: Image)
    requires im.Loose()
    ensures 0 < im.isize <= im.fsize <= |im.disk|
  {
  }

  /** A tree is pruned, and its root given back if that left nothing. */
  method ShrinkTree(im: Image, b: int, l: nat, keep: int) returns (b': int)
    requires im.Loose() && b != 0 && l > 0
    requires Once(Own(im.disk, b, l) + multiset(im.st)) && InRange(Own(im.disk, b, l), im.isize, im.fsize)
    modifies im`nfree, im`tfree, im`st, im`disk, im.free
    ensures im.Loose() && (b' == b || b' == 0)
    ensures Cut(old(im.disk), old(im.st), b, im.disk, im.st, b', l, keep)
    ensures Piled(old(im.disk), old(im.st), im.disk, im.st, TreeOut(old(im.disk), b, l, keep))
    ensures (b' != b ==> im.st != [])
    decreases l, 1
  {
    hide Own, OwnKids, Once, Image.Loose, Cut, Walk, Pruned, Piled, TreeOut, KidsOut, Blank;
    ghost var d0, st0 := im.disk, im.st;
    TreeBounds(im, b, l);
    TreeOutIs(d0, b, l, keep);
    ghost var first := KidsOut(d0, d0[b], l - 1, keep, NBN);
    var empty := ShrinkIndirect(im, b, l, keep);
    ghost var d, st := im.disk, im.st;
    if !empty {
      PiledKept(d0, st0, d, st, first, TreeOut(d0, b, l, keep));
      return b;
    }
    OneLeft(Own(d0, b, l), st0, st, b);
    LeafFree(im, b);
    PiledTwice(d0, st0, d, st, first, im.disk, im.st, b);
    PiledGone(d0, st0, im.disk, im.st, if first != 0 then first else b, TreeOut(d0, b, l, keep));
    RootGone(d0, st0, b, d, st, im.disk, l, keep);
    return 0;
  }

  /** Which block is the first to be given back only matters for an empty stack. */
  lemma {:induction false} PiledKept(d0: Disk, st0: seq<int>, d: Disk, st: seq<int>, first: int, first': int)
    requires Piled(d0, st0, d, st, first) && (st0 == [] ==> first' == first)
    ensures Piled(d0, st0, d, st, first')
  {
  }

  lemma {:induction false} PiledGone(d0: Disk, st0: seq<int>, d: Disk, st: seq<int>, first: int, first': int)
    requires Piled(d0, st0, d, st, first) && (st0 == [] ==> first' == first)
    ensures Piled(d0, st0, d, st, first') && (first != 0 ==> st != [])
  {
  }

  lemma {:induction false} TreeBounds(im: Image, b: int, l: nat)
    requires im.Loose() && b != 0 && InRange(Own(im.disk, b, l), im.isize, im.fsize)
    ensures 0 < b < |im.disk| && im.isize <= b < im.fsize && InRange(multiset{b}, im.isize, im.fsize)
  {
    hide Own;
    OwnsItself(im.disk, b, l);
  }

  lemma {:induction false} OneLeft(own: multiset<int>, st0: seq<int>, st: seq<int>, b: int)
    requires multiset(st) + multiset{b} == own + multiset(st0) && Once(own + multiset(st0))
    ensures Once(multiset{b} + multiset(st))
  {
    assert multiset{b} + multiset(st) == own + multiset(st0);
  }

  /** _shrink_indirect: True if nothing is left below block b, which is then not written. */
  method ShrinkIndirect(im: Image, b: int, l: nat, keep: int) returns (empty: bool)
    requires im.Loose() && 0 < b < |im.disk| && l > 0
    requires Once(Own(im.disk, b, l) + multiset(im.st)) && InRange(Own(im.disk, b, l), im.isize, im.fsize)
    modifies im`nfree, im`tfree, im`st, im`disk, im.free
    ensures im.Loose() && multiset(old(im.st)) <= multiset(im.st)
    ensures empty ==>
      && multiset(im.st) + multiset{b} == Own(old(im.disk), b, l) + multiset(old(im.st))
      && Only(old(im.disk), im.disk, Own(old(im.disk), b, l)) && Pruned(old(im.disk), b, im.disk, 0, l, keep)
    ensures !empty ==> Cut(old(im.disk), old(im.st), b, im.disk, im.st, b, l, keep)
    ensures Piled(old(im.disk), old(im.st), im.disk, im.st, KidsOut(old(im.disk), old(im.disk)[b], l - 1, keep, NBN))
    ensures old(im.st) == [] && KidsOut(old(im.disk), old(im.disk)[b], l - 1, keep, NBN) == 0 ==>
      (empty <==> Blank(old(im.disk)[b]))
    decreases l, 0
  {
    hide Own, OwnKids, Once, Image.Loose, Cut, Walk, Pruned, Pruning, Entry, Span, InRange, SetEntry;
    hide KidsOut, SlotOut, TreeOut, Piled;
    ghost var d0, st0 := im.disk, im.st;
    var blk := im.disk[b];
    var work := blk;
    var dirty, allZero := false, true;
    TreeBelow(d0, st0, b, l, im.isize, im.fsize);
    PruningStart(d0, st0, blk, l - 1, keep);
    KidsOutNext(d0, blk, l - 1, keep, 0);
    PiledSame(d0, st0);
    var slot := 0;
    while slot < NBN
      invariant 0 <= slot <= NBN && im.Loose() && Pruning(d0, st0, blk, l - 1, keep, slot, im.disk, work, im.st)
      invariant allZero <==> forall j :: 0 <= j < slot ==> Entry(work, j) == 0
      invariant if dirty then im.st != [] else work == blk
      invariant Piled(d0, st0, im.disk, im.st, KidsOut(d0, blk, l - 1, keep, slot))
    {
      ghost var d, st, w := im.disk, im.st, work;
      NextSlot(d0, st0, blk, l - 1, keep, slot, d, work, st, im.isize, im.fsize);
      PruningIs(d0, st0, blk, l - 1, keep, slot, d, work, st);
      var entry := Entry(work, slot);
      var e' := ShrinkSlot(im, entry, l - 1, keep - slot * Span(l - 1));
      KidsOutNext(d0, blk, l - 1, keep, slot);
      PiledNext(d0, st0, d, st, KidsOut(d0, blk, l - 1, keep, slot), im.disk, im.st, entry,
                l - 1, keep - slot * Span(l - 1));
      if e' != entry {
        EntryCleared(work, slot);
        work := SetEntry(work, slot, 0);
        dirty := true;
      }
      if e' != 0 {
        allZero := false;
      }
      SlotDone(d0, st0, blk, l - 1, keep, slot, d, w, st, im.disk, work, im.st, e', im.isize, im.fsize);
      slot := slot + 1;
    }
    PruningIs(d0, st0, blk, l - 1, keep, NBN, im.disk, work, im.st);
    if allZero {
      TreeGone(d0, st0, b, l - 1, keep, im.disk, work, im.st);
    } else {
      TreeKept(d0, st0, b, l - 1, keep, im.disk, work, im.st);
      if dirty {
        PiledWrite(d0, st0, im.disk, im.st, KidsOut(d0, blk, l - 1, keep, NBN), b, work);
        im.WriteBlock(b, work);
      } else {
        assert im.disk[b := work] == im.disk;
      }
    }
    Unpiled(d0, st0, im.disk, im.st, KidsOut(d0, blk, l - 1, keep, NBN));
    return allZero;
  }

  lemma {:induction false} Unpiled(d0: Disk, st0: seq<int>, d: Disk, st: seq<int>, first: int)
    requires Piled(d0, st0, d, st, first)
    ensures st0 == [] && first == 0 ==> st == []
    ensures st0 != [] ==> st != []
  {
  }

  /** One more slot. */
  lemma {:induction false} PiledNext(d0: Disk, st0: seq<int>, d: Disk, st: seq<int>, first: int,
                                     d': Disk, st': seq<int>,
                                     e: int, l: nat, keep: int)
    requires Piled(d0, st0, d, st, first) && Piled(d, st, d', st', SlotOut(d, e, l, keep))
    ensures Piled(d0, st0, d', st', if first != 0 then first else SlotOut(d0, e, l, keep))
    ensures st != [] ==> st' != []
  {
    hide SlotOut;
  }

  lemma {:induction false} EntryCleared(work: Block, s: nat)
    requires s < NBN
    ensures forall j :: 0 <= j < NBN ==> Entry(SetEntry(work, s, 0), j) == if j == s then 0 else Entry(work, j)
  {
  }

  lemma {:induction false} PruningIs(d0: Disk, st0: seq<int>, blk: Block, l: nat, keep: int, s: nat, d: Disk,
                                     work: Block, st: seq<int>)
    requires Pruning(d0, st0, blk, l, keep, s, d, work, st)
    ensures |d| == |d0| && multiset(st0) <= multiset(st)
  {
  }

  lemma {:induction false} TreeBelow(d0: Disk, st0: seq<int>, b: int, l: nat, lo: int, hi: int)
    requires 0 < b < |d0| && l > 0 && Once(Own(d0, b, l) + multiset(st0)) && InRange(Own(d0, b, l), lo, hi)
    ensures Once(OwnKids(d0, d0[b], l - 1, NBN) + multiset(st0)) && InRange(OwnKids(d0, d0[b], l - 1, NBN), lo, hi)
  {
    hide OwnKids;
    OwnUnfold(d0, b, l);
    var kids := OwnKids(d0, d0[b], l - 1, NBN);
    OncePart(kids + multiset(st0), Own(d0, b, l) + multiset(st0));
    forall x | kids[x] > 0 ensures lo <= x < hi { assert kids[x] <= Own(d0, b, l)[x]; }
  }

  // ----- the inode -----------------------------------------------------------------------------

  /** How many leaves address i keeps of n logical blocks: cuts and caps of the code. */
  function Keep(n: nat, i: nat): int
    requires i < NADDR
  {
    if i < ND then n - i
    else
      var cut := if n > Base(i) then n - Base(i) else 0;
      if cut < Span(Height(i)) then cut else Span(Height(i))
  }

  /** The first i addresses are done. */
  ghost predicate FilePruning(d0: Disk, a0: Addrs, st0: seq<int>, n: nat, i: nat, d: Disk, a: Addrs, st: seq<int>) {
    && |a0| == |a| == NADDR && i <= NADDR && multiset(st0) <= multiset(st)
    && (forall j {:trigger a[j]} :: i <= j < NADDR ==> a[j] == a0[j])
    && Only(d0, d, FileOwn(d0, a0, i))
    && FileOwn(d, a, i) + multiset(st) == FileOwn(d0, a0, i) + multiset(st0)
    && (forall j {:trigger a[j]} :: 0 <= j < i ==> Pruned(d0, a0[j], d, a[j], Height(j), Keep(n, j)))
  }

  lemma {:induction false} FileStart(d: Disk, a: Addrs, st: seq<int>, n: nat, i: nat)
    requires |a| == NADDR && i <= n && i <= ND
    ensures FilePruning(d, a, st, n, i, d, a, st)
  {
    hide FileOwn, Own, Pruned;
    OnlySame(d, FileOwn(d, a, i));
    forall j | 0 <= j < i ensures Pruned(d, a[j], d, a[j], Height(j), Keep(n, j)) {
      SpanStep(0);
      UncutPruned(d, st, a[j], 0, n - j);
    }
  }

  lemma {:induction false} UncutPruned(d: Disk, st: seq<int>, b: int, l: nat, keep: int)
    requires b == 0 || keep >= Span(l)
    ensures Pruned(d, b, d, b, l, keep)
  {
    Uncut(d, st, b, l, keep);
  }

  lemma {:induction false} FileWithin(d: Disk, a: Addrs, s: nat, n: nat)
    requires s <= n <= |a|
    ensures FileOwn(d, a, s) <= FileOwn(d, a, n)
    decreases n
  {
    hide Own;
    if s < n { FileWithin(d, a, s, n - 1); }
  }

  lemma {:induction false} FileAlike(d: Disk, d': Disk, a: Addrs, a': Addrs, n: nat)
    requires n <= |a| == |a'| && forall j :: 0 <= j < n ==> Own(d', a'[j], Height(j)) == Own(d, a[j], Height(j))
    ensures FileOwn(d', a', n) == FileOwn(d, a, n)
    decreases n
  {
    hide Own;
    if n > 0 { FileAlike(d, d', a, a', n - 1); }
  }

  /** The next address may be pruned on its own. */
  lemma {:induction false} NextAddr(d0: Disk, a0: Addrs, st0: seq<int>, n: nat, i: nat, d: Disk, a: Addrs,
                                    st: seq<int>, lo: int, hi: int)
    requires i < NADDR && FilePruning(d0, a0, st0, n, i, d, a, st)
    requires Once(FileOwn(d0, a0, NADDR) + multiset(st0)) && InRange(FileOwn(d0, a0, NADDR), lo, hi)
    ensures var e, l := a0[i], Height(i);
      && a[i] == e && Agree(d0, d, Own(d0, e, l)) && Own(d, e, l) == Own(d0, e, l)
      && Once(Own(d, e, l) + multiset(st)) && InRange(Own(d, e, l), lo, hi)
    ensures Once(FileOwn(d0, a0, i) + Own(d0, a0[i], Height(i)))
    ensures FileOwn(d, a, i) <= FileOwn(d0, a0, i)
  {
    hide Own, FileOwn, Pruned, Once, Keep;
    var e, l, all, m := a0[i], Height(i), FileOwn(d0, a0, NADDR), FileOwn(d0, a0, i);
    FileUnfold(d0, a0, i + 1);
    FileWithin(d0, a0, i + 1, NADDR);
    LeftPart(FileOwn(d, a, i), m, multiset(st), multiset(st0));
    assert m + Own(d0, e, l) <= all + multiset(st0);
    OncePart(m + Own(d0, e, l), all + multiset(st0));
    assert Own(d0, e, l) + m == m + Own(d0, e, l);
    GoneApart(d0, d, Own(d0, e, l), m);
    OwnFrame(d0, d, e, l);
    RightPart(FileOwn(d, a, i), m, multiset(st), multiset(st0));
    assert Own(d0, e, l) + multiset(st) <= all + multiset(st0);
    OncePart(Own(d0, e, l) + multiset(st), all + multiset(st0));
    forall x | Own(d0, e, l)[x] > 0 ensures lo <= x < hi { assert Own(d0, e, l)[x] <= all[x]; }
  }

  lemma {:induction false} EarlierAddr(d0: Disk, a0: Addrs, i: nat, d: Disk, a: Addrs, d': Disk, j: nat, b: int,
                                       keep: int)
    requires j < i < NADDR && |a0| == |a| == NADDR && FileOwn(d, a, i) <= FileOwn(d0, a0, i)
    requires Once(FileOwn(d0, a0, i) + Own(d0, a0[i], Height(i))) && Only(d, d', Own(d0, a0[i], Height(i)))
    requires Pruned(d0, b, d, a[j], Height(j), keep)
    ensures Own(d', a[j], Height(j)) == Own(d, a[j], Height(j))
    ensures Pruned(d0, b, d', a[j], Height(j), keep)
  {
    hide Own, FileOwn, Walk, Once, Number, Trim;
    var e, l := a[j], Height(j);
    RootPart(d, a, i, j);
    forall x | 0 <= x < |d| && Own(d, e, l)[x] > 0 ensures d'[x] == d[x] {
      assert Own(d, e, l)[x] <= FileOwn(d, a, i)[x] <= FileOwn(d0, a0, i)[x];
      ApartIn(FileOwn(d0, a0, i), Own(d0, a0[i], Height(i)), x);
    }
    OwnFrame(d, d', e, l);
    TrimFrame(d, d', e, l, keep);
    forall q | Digits(q) && |q| == l ensures Walk(d', e, q) == if Number(q) < keep then Walk(d0, b, q) else 0 {
      WalkFrame(d, d', e, l, q);
    }
  }

  lemma {:induction false} AddrDone(d0: Disk, a0: Addrs, st0: seq<int>, n: nat, i: nat, d: Disk, a: Addrs, st: seq<int>,
                                    d': Disk, st': seq<int>, e': int, lo: int, hi: int)
    requires i < NADDR && FilePruning(d0, a0, st0, n, i, d, a, st)
    requires Once(FileOwn(d0, a0, NADDR) + multiset(st0)) && InRange(FileOwn(d0, a0, NADDR), lo, hi)
    requires Cut(d, st, a0[i], d', st', e', Height(i), Keep(n, i))
    ensures FilePruning(d0, a0, st0, n, i + 1, d', a[i := e'], st')
  {
    hide Own, FileOwn, Walk, Once, Span, Pruned, Keep;
    NextAddr(d0, a0, st0, n, i, d, a, st, lo, hi);
    var e, l, a' := a0[i], Height(i), a[i := e'];
    forall j | 0 <= j < i
      ensures Own(d', a'[j], Height(j)) == Own(d, a[j], Height(j))
      ensures Pruned(d0, a0[j], d', a'[j], Height(j), Keep(n, j))
    {
      EarlierAddr(d0, a0, i, d, a, d', j, a0[j], Keep(n, j));
    }
    FileAlike(d, d', a, a', i);
    FileUnfold(d0, a0, i + 1);
    FileUnfold(d', a', i + 1);
    OnlyBoth(d0, d, d', FileOwn(d0, a0, i), Own(d0, e, l));
    assert FileOwn(d0, a0, i) + Own(d0, e, l) == FileOwn(d0, a0, i + 1);
    PrunedFrom(d0, d, e, d', e', l, Keep(n, i));
    Conserve(FileOwn(d', a', i), Own(d', e', l), multiset(st'), Own(d, e, l), multiset(st),
             FileOwn(d0, a0, i), multiset(st0));
  }

  /** A file cut down to n logical blocks. */
  ghost predicate CutTo(d0: Disk, a0: Addrs, d: Disk, a: Addrs, n: nat) {
    |a0| == |a| == NADDR &&
    forall k: nat {:trigger FileBlock(d, a, k)} :: k < MAXBLOCKS ==>
      FileBlock(d, a, k) == if k < n then FileBlock(d0, a0, k) else 0
  }

  lemma {:induction false} CutFile(d0: Disk, a0: Addrs, st0: seq<int>, n: nat, d: Disk, a: Addrs, st: seq<int>)
    requires FilePruning(d0, a0, st0, n, NADDR, d, a, st)
    ensures CutTo(d0, a0, d, a, n) && Kept(d0, a0, multiset(st0), d, a, multiset(st))
  {
    hide FileOwn, Pruned, Walk, Classify, Keep, Number;
    forall k: nat | k < MAXBLOCKS ensures FileBlock(d, a, k) == if k < n then FileBlock(d0, a0, k) else 0 {
      var p := Classify(k);
      ClassifyIsPath(k);
      PathFor(k, n);
      PathIsPrefix(p);
      var i := p[0];
      assert a[i] == a[i];
      PrunedAt(d0, a0[i], d, a[i], Height(i), Keep(n, i), p[1..]);
    }
    forall x | 0 <= x < |d| && d[x] != d0[x] ensures (FileOwn(d0, a0, NADDR) + multiset(st0))[x] > 0 {
    }
  }

  /** No block is left that is not on the way to one of the first n. */
  lemma {:induction false} CutLean(d0: Disk, a0: Addrs, st0: seq<int>, n: nat, d: Disk, a: Addrs, st: seq<int>)
    requires FilePruning(d0, a0, st0, n, NADDR, d, a, st)
    ensures Lean(d, a, n)
  {
    hide FileOwn, Pruned, Walk, Trim, Low;
    forall p | Prefix(p) && Follow(d, a, p) != 0 ensures First(p) < n {
      var i := p[0];
      assert a[i] == a[i];
      PrunedTrim(d0, a0[i], d, a[i], Height(i), Keep(n, i));
      TrimAt(d, a[i], Height(i), Keep(n, i), p[1..]);
    }
  }

  /** The number of a leaf in its tree tells whether it is kept. */
  lemma {:induction false} PathFor(k: nat, n: nat)
    requires k < MAXBLOCKS
    ensures var p := Classify(k); IsPath(p) && 0 < |p| && p[0] < NADDR && Digits(p[1..]) && |p[1..]| == Height(p[0])
    ensures var p := Classify(k); Number(p[1..]) < Keep(n, p[0]) <==> k < n
  {
    hide Number, Span;
    var p := Classify(k);
    SpanStep(0);
    SpanStep(1);
    SpanStep(2);
    NumberBelow(p[1..]);
    Numbers(p[1..]);
    PathOfIndex(k);
  }

  /** The first block that the first i addresses give back. */
  ghost function FileOut(d: Disk, a: Addrs, n: nat, i: nat): int
    requires i <= |a| == NADDR
  {
    if i == 0 then 0
    else if FileOut(d, a, n, i - 1) != 0 then FileOut(d, a, n, i - 1)
    else AddrOut(d, a[i - 1], n, i - 1)
  }

  ghost function AddrOut(d: Disk, e: int, n: nat, i: nat): int
    requires i < NADDR
  {
    if i < ND then SlotOut(d, e, 0, n - i) else if e == 0 then 0 else TreeOut(d, e, Height(i), Keep(n, i))
  }

  lemma {:induction false} FileOutNext(d: Disk, a: Addrs, n: nat, i: nat)
    requires i < |a| == NADDR
    ensures FileOut(d, a, n, i + 1) == if FileOut(d, a, n, i) != 0 then FileOut(d, a, n, i) else AddrOut(d, a[i], n, i)
  {
  }

  lemma {:induction false} NothingOut(d: Disk, a: Addrs, n: nat, i: nat)
    requires |a| == NADDR && i <= n && i <= ND
    ensures FileOut(d, a, n, i) == 0
  {
    if i > 0 {
      NothingOut(d, a, n, i - 1);
      SpanStep(0);
    }
  }

  lemma {:induction false} PiledAddr(d0: Disk, st0: seq<int>, d: Disk, st: seq<int>, first: int,
                                     d': Disk, st': seq<int>,
                                     e: int, n: nat, i: nat)
    requires i < NADDR && Piled(d0, st0, d, st, first) && Piled(d, st, d', st', AddrOut(d, e, n, i))
    ensures Piled(d0, st0, d', st', if first != 0 then first else AddrOut(d0, e, n, i))
  {
    hide AddrOut;
  }

  /** _shrink_to_n_blocks.  The free list stays sound if and only if it was not empty, or
      nothing is given back, or the first block given back begins with a word of 0. */
  method ShrinkTo(im: Image, addr: array<int>, n: nat)
    requires addr.Length == NADDR && addr != im.free && Sound(im, addr[..])
    modifies im`nfree, im`tfree, im`st, im`disk, im.free, addr
    ensures im.Loose() && Placed(im, addr[..])
    ensures im.Valid() <==> Ends(old(im.disk), old(addr[..]), old(im.st), n)
    ensures Kept(old(im.disk), old(addr[..]), old(multiset(im.st)), im.disk, addr[..], multiset(im.st))
    ensures CutTo(old(im.disk), old(addr[..]), im.disk, addr[..], n)
    ensures Lean(im.disk, addr[..], n)
  {
    hide Lean, Sound, Kept, CutTo, Image.Valid, Image.Loose, Once, InRange, FileOwn, Own, FilePruning, Cut,
         Keep, Span, Placed;
    hide FileOut, AddrOut, SlotOut, TreeOut, Piled, Ends;
    ghost var d0, a0, st0 := im.disk, addr[..], im.st;
    SoundIs(im, a0);
    im.LooseIs();
    OwnedIs(d0, a0);
    var i := if n < ND then n else ND;
    FileStart(d0, a0, st0, n, i);
    NothingOut(d0, a0, n, i);
    PiledSame(d0, st0);
    while i < ND
      invariant (n < ND ==> n <= i) && i <= ND && im.Loose() && FilePruning(d0, a0, st0, n, i, im.disk, addr[..], im.st)
      invariant Piled(d0, st0, im.disk, im.st, FileOut(d0, a0, n, i))
    {
      ghost var d, a, st := im.disk, addr[..], im.st;
      NextAddr(d0, a0, st0, n, i, d, a, st, im.isize, im.fsize);
      KeepIs(n, i);
      FileOutNext(d0, a0, n, i);
      AddrOutIs(d, addr[i], n, i);
      var e := ShrinkSlot(im, addr[i], 0, n - i);
      PiledAddr(d0, st0, d, st, FileOut(d0, a0, n, i), im.disk, im.st, addr[i], n, i);
      addr[i] := e;
      AddrDone(d0, a0, st0, n, i, d, a, st, im.disk, im.st, e, im.isize, im.fsize);
      assert addr[..] == a[i := e];
      i := i + 1;
    }
    while i < NADDR
      invariant ND <= i <= NADDR && im.Loose() && FilePruning(d0, a0, st0, n, i, im.disk, addr[..], im.st)
      invariant Piled(d0, st0, im.disk, im.st, FileOut(d0, a0, n, i))
    {
      ghost var d, a, st := im.disk, addr[..], im.st;
      NextAddr(d0, a0, st0, n, i, d, a, st, im.isize, im.fsize);
      FileOutNext(d0, a0, n, i);
      AddrOutIs(d, addr[i], n, i);
      var e := addr[i];
      if e != 0 {
        e := ShrinkTree(im, e, i - ND + 1, Keep(n, i));
      } else {
        Uncut(d, st, 0, Height(i), Keep(n, i));
        PiledSame(d, st);
      }
      PiledAddr(d0, st0, d, st, FileOut(d0, a0, n, i), im.disk, im.st, addr[i], n, i);
      addr[i] := e;
      AddrDone(d0, a0, st0, n, i, d, a, st, im.disk, im.st, e, im.isize, im.fsize);
      assert addr[..] == a[i := e];
      i := i + 1;
    }
    CutFile(d0, a0, st0, n, im.disk, addr[..], im.st);
    CutLean(d0, a0, st0, n, im.disk, addr[..], im.st);
    PruningSound(im, d0, a0, st0, n, addr[..]);
    ValidAfter(im, d0, a0, st0, n);
  }

  lemma {:induction false} AddrOutIs(d: Disk, e: int, n: nat, i: nat)
    requires i < NADDR
    ensures AddrOut(d, e, n, i) == if i < ND then SlotOut(d, e, 0, n - i) else if e ==
      0 then 0 else TreeOut(d, e, Height(i), Keep(n, i))
    ensures i >= ND ==> Height(i) == i - ND + 1
  {
  }

  /** A file with these addresses can be cut to n blocks without harm to the free list st. */
  ghost predicate Ends(d: Disk, a: Addrs, st: seq<int>, n: nat)
    requires |a| == NADDR
  {
    var first := FileOut(d, a, n, NADDR);
    st != [] || first == 0 || (0 <= first < |d| && NFree(d[first]) == 0)
  }

  lemma {:induction false} ValidAfter(im: Image, d0: Disk, a0: Addrs, st0: seq<int>, n: nat)
    requires |a0| == NADDR && im.Loose() && Piled(d0, st0, im.disk, im.st, FileOut(d0, a0, n, NADDR))
    requires st0 != [] ==> 0 <= st0[0] < |d0| && NFree(d0[st0[0]]) == 0
    ensures im.Valid() <==> Ends(d0, a0, st0, n)
  {
    hide FileOut, Image.Loose, Image.Valid, NFree;
    im.LooseIs();
  }

  lemma {:induction false} KeepIs(n: nat, i: nat)
    requires i < ND
    ensures Keep(n, i) == n - i && Height(i) == 0
  {
  }

  lemma {:induction false} PruningSound(im: Image, d0: Disk, a0: Addrs, st0: seq<int>, n: nat, a: Addrs)
    requires im.Loose() && FilePruning(d0, a0, st0, n, NADDR, im.disk, a, im.st)
    requires Once(FileOwn(d0, a0, NADDR) + multiset(st0)) && InRange(FileOwn(d0, a0, NADDR), im.isize, im.fsize)
    ensures Placed(im, a)
  {
    hide FileOwn, Pruned, Once;
    LeftPart(FileOwn(im.disk, a, NADDR), FileOwn(d0, a0, NADDR), multiset(im.st), multiset(st0));
    forall x | FileOwn(im.disk, a, NADDR)[x] > 0 ensures im.isize <= x < im.fsize {
      assert FileOwn(im.disk, a, NADDR)[x] <= FileOwn(d0, a0, NADDR)[x];
    }
  }
}
