/** Trees of indirect blocks on a disk: the blocks they own and the walks through them. */
module Trees {
  import opened Blocks

  type Disk = seq<Block>

  /** The blocks of the tree of height l at b, each as often as it is referenced. */
  ghost function Own(disk: Disk, b: int, l: nat): multiset<int>
    decreases l, 0
  {
    if b == 0 then multiset{}
    else if l == 0 || !(0 < b < |disk|) then multiset{b}
    else OwnKids(disk, disk[b], l - 1, NBN) + multiset{b}
  }

  /** The blocks under the first n slots of an indirect block. */
  ghost function OwnKids(disk: Disk, blk: Block, l: nat, n: nat): multiset<int>
    requires n <= NBN
    decreases l, n + 1
  {
    if n == 0 then multiset{} else Own(disk, Entry(blk, n - 1), l) + OwnKids(disk, blk, l, n - 1)
  }

  /** No block twice. */
  ghost predicate Once(m: multiset<int>) {
    forall x :: m[x] <= 1
  }

  lemma OncePart(a: multiset<int>, b: multiset<int>)
    requires a <= b && Once(b)
    ensures Once(a)
  {
    forall x ensures a[x] <= 1 {
      assert a[x] <= b[x];
    }
  }

  predicate Digits(p: seq<nat>) {
    forall i :: 0 <= i < |p| ==> p[i] < NBN
  }

  /** The block at the end of a path from pb; 0 is a hole, -1 an address off the disk. */
  ghost function Walk(disk: Disk, pb: int, p: seq<nat>): int
    requires Digits(p)
    decreases |p|
  {
    if pb == 0 || p == [] then pb
    else if !(0 < pb < |disk|) then -1
    else Walk(disk, Entry(disk[pb], p[0]), p[1..])
  }

  // ----- parts of a footprint ---------------------------------------------------------

  lemma {:induction false} KidPart(disk: Disk, blk: Block, l: nat, n: nat, j: nat)
    requires j < n <= NBN
    ensures Own(disk, Entry(blk, j), l) <= OwnKids(disk, blk, l, n)
    decreases n
  {
    if j < n - 1 { KidPart(disk, blk, l, n - 1, j); }
  }

  lemma {:induction false} TwoKids(disk: Disk, blk: Block, l: nat, n: nat, j: nat, k: nat)
    requires j < k < n <= NBN
    ensures Own(disk, Entry(blk, j), l) + Own(disk, Entry(blk, k), l) <= OwnKids(disk, blk, l, n)
    decreases n
  {
    hide Own, OwnKids;
    KidsUnfold(disk, blk, l, n);
    if k < n - 1 { TwoKids(disk, blk, l, n - 1, j, k); } else { KidPart(disk, blk, l, n - 1, j); }
  }

  lemma {:induction false} KidsUnfold(disk: Disk, blk: Block, l: nat, n: nat)
    requires 0 < n <= NBN
    ensures OwnKids(disk, blk, l, n) == Own(disk, Entry(blk, n - 1), l) + OwnKids(disk, blk, l, n - 1)
  {
  }

  lemma {:induction false} KidOf(disk: Disk, b: int, l: nat, j: nat)
    requires 0 < b < |disk| && 0 < l && j < NBN
    ensures Own(disk, Entry(disk[b], j), l - 1) + multiset{b} <= Own(disk, b, l)
  {
    KidPart(disk, disk[b], l - 1, NBN, j);
  }

  /** Different slots lead to disjoint trees. */
  lemma {:induction false} KidsApart(disk: Disk, b: int, l: nat, j: nat, k: nat)
    requires 0 < b < |disk| && 0 < l && j < NBN && k < NBN && j != k && Once(Own(disk, b, l))
    ensures Once(Own(disk, Entry(disk[b], j), l - 1)) && Own(disk, Entry(disk[b], j), l - 1)[b] == 0
    ensures Once(Own(disk, Entry(disk[b], j), l - 1) + Own(disk, Entry(disk[b], k), l - 1))
  {
    hide Own, OwnKids;
    KidOf(disk, b, l, j);
    TwoKids(disk, disk[b], l - 1, NBN, if j < k then j else k, if j < k then k else j);
    OwnUnfold(disk, b, l);
    assert (Own(disk, Entry(disk[b], j), l - 1) + multiset{b})[b] <= Own(disk, b, l)[b] <= 1;
    var m := Own(disk, Entry(disk[b], j), l - 1) + Own(disk, Entry(disk[b], k), l - 1);
    OncePart(m, Own(disk, b, l));
    OncePart(Own(disk, Entry(disk[b], j), l - 1), m);
  }

  lemma {:induction false} OwnUnfold(disk: Disk, b: int, l: nat)
    requires 0 < b < |disk| && 0 < l
    ensures Own(disk, b, l) == OwnKids(disk, disk[b], l - 1, NBN) + multiset{b}
  {
  }

  // ----- frames ------------------------------------------------------------------------

  ghost predicate Agree(disk: Disk, disk': Disk, m: multiset<int>) {
    |disk| == |disk'| && forall x {:trigger m[x]} {:trigger disk'[x]} :: 0 <= x < |disk| && m[x] > 0 ==>
      disk'[x] == disk[x]
  }

  lemma {:induction false} OwnFrame(disk: Disk, disk': Disk, b: int, l: nat)
    requires Agree(disk, disk', Own(disk, b, l))
    ensures Own(disk', b, l) == Own(disk, b, l)
    decreases l, 0
  {
    hide Own, OwnKids;
    if l > 0 && 0 < b < |disk| {
      OwnUnfold(disk, b, l);
      OwnUnfold(disk', b, l);
      OwnsItself(disk, b, l);
      KidsFrame(disk, disk', disk[b], l - 1, NBN);
    } else {
      OwnShallow(disk, disk', b, l);
    }
  }

  lemma {:induction false} OwnsItself(disk: Disk, b: int, l: nat)
    requires b != 0
    ensures Own(disk, b, l)[b] > 0
  {
  }

  lemma {:induction false} OwnShallow(disk: Disk, disk': Disk, b: int, l: nat)
    requires |disk| == |disk'| && (l == 0 || !(0 < b < |disk|))
    ensures Own(disk', b, l) == Own(disk, b, l)
  {
  }

  lemma {:induction false} KidsFrame(disk: Disk, disk': Disk, blk: Block, l: nat, n: nat)
    requires n <= NBN && Agree(disk, disk', OwnKids(disk, blk, l, n))
    ensures OwnKids(disk', blk, l, n) == OwnKids(disk, blk, l, n)
    decreases l, n + 1
  {
    hide Own, OwnKids;
    if n > 0 {
      KidsUnfold(disk, blk, l, n);
      KidsUnfold(disk', blk, l, n);
      OwnFrame(disk, disk', Entry(blk, n - 1), l);
      KidsFrame(disk, disk', blk, l, n - 1);
    } else {
      EmptyKids(disk, blk, l, 0);
      EmptyKids(disk', blk, l, 0);
    }
  }

  lemma {:induction false} WalkFrame(disk: Disk, disk': Disk, b: int, l: nat, p: seq<nat>)
    requires Digits(p) && |p| <= l && Agree(disk, disk', Own(disk, b, l))
    ensures Walk(disk', b, p) == Walk(disk, b, p)
    decreases |p|
  {
    if p != [] && 0 < b < |disk| {
      KidOf(disk, b, l, p[0]);
      assert Own(disk, b, l)[b] > 0;
      WalkFrame(disk, disk', Entry(disk[b], p[0]), l - 1, p[1..]);
    }
  }

  // ----- walks ------------------------------------------------------------------------

  /** What a walk reaches belongs to the tree. */
  lemma {:induction false} WalkInOwn(disk: Disk, b: int, l: nat, p: seq<nat>)
    requires Digits(p) && |p| <= l
    ensures Walk(disk, b, p) > 0 ==> Own(disk, b, l)[Walk(disk, b, p)] > 0
    decreases |p|
  {
    if b != 0 && 0 < b < |disk| && l > 0 {
      KidOf(disk, b, l, if p == [] then 0 else p[0]);
      if p != [] { WalkInOwn(disk, Entry(disk[b], p[0]), l - 1, p[1..]); }
    }
  }

  ghost predicate InRange(m: multiset<int>, lo: int, hi: int) {
    forall x {:trigger m[x]} :: m[x] > 0 ==> lo <= x < hi
  }

  /** A tree whose blocks all lie on the disk is walked without an error. */
  lemma {:induction false} WalkSafe(disk: Disk, b: int, l: nat, p: seq<nat>)
    requires Digits(p) && |p| <= l && InRange(Own(disk, b, l), 1, |disk|)
    ensures 0 <= Walk(disk, b, p) < |disk| || Walk(disk, b, p) == 0
    decreases |p|
  {
    if b != 0 {
      assert Own(disk, b, l)[b] > 0;
      if p != [] {
        KidOf(disk, b, l, p[0]);
        var m := Own(disk, Entry(disk[b], p[0]), l - 1);
        forall x | m[x] > 0 ensures 1 <= x < |disk| {
          assert m[x] <= (m + multiset{b})[x] <= Own(disk, b, l)[x];
        }
        WalkSafe(disk, Entry(disk[b], p[0]), l - 1, p[1..]);
      }
    }
  }

  /** In a tree that owns no block twice, two paths never end at the same block. */
  lemma {:induction false} WalkInjective(disk: Disk, b: int, l: nat, p: seq<nat>, q: seq<nat>)
    requires Digits(p) && Digits(q) && |p| <= l && |q| <= l && p != q && Once(Own(disk, b, l))
    ensures Walk(disk, b, p) > 0 ==> Walk(disk, b, p) != Walk(disk, b, q)
    decreases |p|
  {
    hide Own, OwnKids;
    if 0 < b < |disk| && l > 0 && Walk(disk, b, p) > 0 && Walk(disk, b, q) > 0 {
      if p == [] {
        Inside(disk, b, l, q);
      } else if q == [] {
        Inside(disk, b, l, p);
      } else {
        var e, f := Entry(disk[b], p[0]), Entry(disk[b], q[0]);
        if p[0] == q[0] {
          assert p == [p[0]] + p[1..] && q == [q[0]] + q[1..];
          Inside(disk, b, l, p);
          WalkInjective(disk, e, l - 1, p[1..], q[1..]);
        } else {
          KidsApart(disk, b, l, p[0], q[0]);
          WalkInOwn(disk, e, l - 1, p[1..]);
          WalkInOwn(disk, f, l - 1, q[1..]);
          assert (Own(disk, e, l - 1) + Own(disk, f, l - 1))[Walk(disk, e, p[1..])] <= 1;
        }
      }
    }
  }

  /** One step further down a path. */
  lemma {:induction false} WalkStep(disk: Disk, b: int, q: seq<nat>, s: nat)
    requires Digits(q) && s < NBN
    ensures Digits(q + [s])
    ensures 0 < Walk(disk, b, q) < |disk| ==> Walk(disk, b, q + [s]) == Entry(disk[Walk(disk, b, q)], s)
    ensures Walk(disk, b, q) == 0 ==> Walk(disk, b, q + [s]) == 0
    decreases |q|
  {
    if q == [] {
      assert (q + [s])[1..] == [];
    } else if b != 0 && 0 < b < |disk| {
      assert (q + [s])[1..] == q[1..] + [s];
      WalkStep(disk, Entry(disk[b], q[0]), q[1..], s);
    }
  }

  // ----- growing a tree ------------------------------------------------------------------

  /** disk' is disk with the new block c hung under slot s of block pb; if there are
      h > 0 levels below it, c is an empty indirect block. */
  ghost predicate Hangs(disk: Disk, disk': Disk, pb: int, s: nat, c: int, h: nat) {
    && |disk'| == |disk| && 0 < pb < |disk| && 0 < c < |disk| && pb != c && s < NBN
    && (forall x {:trigger disk'[x]} :: 0 <= x < |disk| && x != pb && x != c ==> disk'[x] == disk[x])
    && (forall j :: 0 <= j < NBN ==> Entry(disk'[pb], j) == if j == s then c else Entry(disk[pb], j))
    && Entry(disk[pb], s) == 0
    && (h > 0 ==> forall j :: 0 <= j < NBN ==> Entry(disk'[c], j) == 0)
  }

  lemma {:induction false} EmptyKids(disk: Disk, blk: Block, l: nat, n: nat)
    requires n <= NBN && forall j :: 0 <= j < n ==> Entry(blk, j) == 0
    ensures OwnKids(disk, blk, l, n) == multiset{}
    decreases n
  {
    if n > 0 { EmptyKids(disk, blk, l, n - 1); }
  }

  /** One kid changes by a block more, the others not at all. */
  lemma {:induction false} KidsGrow(disk: Disk, disk': Disk, blk: Block, blk': Block, l: nat, n: nat, s: nat, c: int)
    requires n <= NBN && s < NBN
    requires Own(disk', Entry(blk', s), l) == Own(disk, Entry(blk, s), l) + multiset{c}
    requires forall j :: 0 <= j < n && j != s ==> Own(disk', Entry(blk', j), l) == Own(disk, Entry(blk, j), l)
    ensures OwnKids(disk', blk', l, n) == OwnKids(disk, blk, l, n) + if s < n then multiset{c} else multiset{}
    decreases n
  {
    hide Own, OwnKids;
    if n > 0 {
      KidsUnfold(disk, blk, l, n);
      KidsUnfold(disk', blk', l, n);
      KidsGrow(disk, disk', blk, blk', l, n - 1, s, c);
    } else {
      EmptyKids(disk, blk, l, 0);
      EmptyKids(disk', blk', l, 0);
    }
  }

  /** The kids that a change inside kid k, or of the block above them, leaves alone. */
  lemma {:induction false} OtherKid(disk: Disk, disk': Disk, b: int, l: nat, k: nat, pb: int, c: int, j: nat)
    requires 0 < b < |disk| == |disk'| && 0 < l && k < NBN && j < NBN && j != k
    requires Once(Own(disk, b, l)) && Own(disk, b, l)[c] == 0
    requires pb == b || Own(disk, Entry(disk[b], k), l - 1)[pb] > 0
    requires forall x {:trigger disk'[x]} :: 0 <= x < |disk| && x != pb && x != c ==> disk'[x] == disk[x]
    ensures Agree(disk, disk', Own(disk, Entry(disk[b], j), l - 1))
    ensures Own(disk', Entry(disk[b], j), l - 1) == Own(disk, Entry(disk[b], j), l - 1)
  {
    hide Own, OwnKids;
    KidsApart(disk, b, l, j, k);
    KidOf(disk, b, l, j);
    var m := Own(disk, Entry(disk[b], j), l - 1);
    assert m[c] <= (m + multiset{b})[c] <= Own(disk, b, l)[c];
    assert (m + Own(disk, Entry(disk[b], k), l - 1))[pb] <= 1;
    OwnFrame(disk, disk', Entry(disk[b], j), l - 1);
  }

  lemma {:induction false} GrowKid(disk: Disk, disk': Disk, b: int, l: nat, k: nat, pb: int, c: int)
    requires 0 < b < |disk| == |disk'| && 0 < l && k < NBN
    requires Once(Own(disk, b, l)) && Own(disk, b, l)[c] == 0
    requires pb == b || Own(disk, Entry(disk[b], k), l - 1)[pb] > 0
    requires forall x {:trigger disk'[x]} :: 0 <= x < |disk| && x != pb && x != c ==> disk'[x] == disk[x]
    requires forall j :: 0 <= j < NBN && j != k ==> Entry(disk'[b], j) == Entry(disk[b], j)
    requires Own(disk', Entry(disk'[b], k), l - 1) == Own(disk, Entry(disk[b], k), l - 1) + multiset{c}
    ensures Own(disk', b, l) == Own(disk, b, l) + multiset{c}
  {
    hide Own, OwnKids, Once;
    forall j | 0 <= j < NBN && j != k
      ensures Own(disk', Entry(disk'[b], j), l - 1) == Own(disk, Entry(disk[b], j), l - 1)
    {
      OtherKid(disk, disk', b, l, k, pb, c, j);
    }
    KidsGrow(disk, disk', disk[b], disk'[b], l - 1, NBN, k, c);
    OwnUnfold(disk, b, l);
    OwnUnfold(disk', b, l);
  }

  /** The block a fresh link leads to owns only itself. */
  lemma {:induction false} FreshOwns(disk': Disk, c: int, h: nat)
    requires 0 < c < |disk'| && (h > 0 ==> forall j :: 0 <= j < NBN ==> Entry(disk'[c], j) == 0)
    ensures Own(disk', c, h) == multiset{c}
  {
    if h > 0 {
      OwnUnfold(disk', c, h);
      EmptyKids(disk', disk'[c], h - 1, NBN);
    }
  }

  /** Going down one step towards the change: the block above stays as it is. */
  lemma {:induction false} Below(disk: Disk, b: int, l: nat, q: seq<nat>, c: int)
    requires Digits(q) && 0 < |q| <= l && 0 < b < |disk| && Once(Own(disk, b, l)) && Own(disk, b, l)[c] == 0
    requires Walk(disk, b, q) > 0
    ensures var e := Entry(disk[b], q[0]);
      && Once(Own(disk, e, l - 1)) && Own(disk, e, l - 1)[c] == 0
      && Own(disk, e, l - 1)[Walk(disk, b, q)] > 0 && Walk(disk, b, q) != b && b != c
  {
    hide Own, OwnKids;
    var e := Entry(disk[b], q[0]);
    KidsApart(disk, b, l, q[0], if q[0] == 0 then 1 else 0);
    KidOf(disk, b, l, q[0]);
    WalkInOwn(disk, e, l - 1, q[1..]);
    var m := Own(disk, e, l - 1);
    assert m[c] <= (m + multiset{b})[c] <= Own(disk, b, l)[c];
    assert (m + multiset{b})[b] <= Own(disk, b, l)[b];
  }

  /** Hanging a fresh block at the end of the path q adds just that block to the tree. */
  lemma {:induction false} Grow(disk: Disk, disk': Disk, b: int, l: nat, q: seq<nat>, s: nat, c: int)
    requires Digits(q) && |q| < l && Once(Own(disk, b, l)) && Own(disk, b, l)[c] == 0
    requires Hangs(disk, disk', Walk(disk, b, q), s, c, l - |q| - 1)
    ensures Own(disk', b, l) == Own(disk, b, l) + multiset{c}
    decreases |q|
  {
    hide Own, OwnKids, Once;
    if q == [] {
      FreshOwns(disk', c, l - 1);
      HoleOwns(disk, l - 1);
      GrowKid(disk, disk', b, l, s, b, c);
    } else {
      Below(disk, b, l, q, c);
      Grow(disk, disk', Entry(disk[b], q[0]), l - 1, q[1..], s, c);
      GrowKid(disk, disk', b, l, q[0], Walk(disk, b, q), c);
    }
  }

  /** ... and changes the walk of no path but q + [s]. */
  lemma {:induction false} GrowWalk(disk: Disk, disk': Disk, b: int, l: nat, q: seq<nat>, s: nat, c: int, p: seq<nat>)
    requires Digits(q) && |q| < l && Once(Own(disk, b, l)) && Own(disk, b, l)[c] == 0
    requires Hangs(disk, disk', Walk(disk, b, q), s, c, l - |q| - 1)
    requires Digits(p) && |p| <= l
    ensures Walk(disk', b, p) == if p == q + [s] then c else Walk(disk, b, p)
    decreases |q|
  {
    hide Own, OwnKids, Once;
    var k, pb := if q == [] then s else q[0], Walk(disk, b, q);
    if q != [] { Below(disk, b, l, q, c); }
    if p == [] {
      return;
    }
    assert p == [p[0]] + p[1..];
    if p[0] != k {
      OtherKid(disk, disk', b, l, k, pb, c, p[0]);
      WalkFrame(disk, disk', Entry(disk[b], p[0]), l - 1, p[1..]);
    } else if q == [] {
      assert Walk(disk, b, p) == Walk(disk, 0, p[1..]) == 0;
      assert Walk(disk', b, p) == Walk(disk', c, p[1..]);
      assert |p| == 1 ==> p == q + [s];
      assert |p| > 1 ==> Walk(disk', c, p[1..]) == Walk(disk', 0, p[1..][1..]) == 0;
    } else {
      assert q == [q[0]] + q[1..];
      assert p == q + [s] <==> p[1..] == q[1..] + [s];
      GrowWalk(disk, disk', Entry(disk[b], q[0]), l - 1, q[1..], s, c, p[1..]);
    }
  }

  lemma {:induction false} HoleOwns(disk: Disk, l: nat)
    ensures Own(disk, 0, l) == multiset{}
  {
  }

  // ----- writing data ------------------------------------------------------------------

  /** A block at the end of a full path may be written freely: no tree is read from it. */
  lemma {:induction false} LeafOwn(disk: Disk, disk': Disk, b: int, q: seq<nat>)
    requires Digits(q) && Once(Own(disk, b, |q|)) && Walk(disk, b, q) > 0
    requires |disk'| == |disk|
    requires forall x {:trigger disk'[x]} :: 0 <= x < |disk| && x != Walk(disk, b, q) ==> disk'[x] == disk[x]
    ensures Own(disk', b, |q|) == Own(disk, b, |q|)
    decreases |q|
  {
    hide Own, OwnKids, Once;
    if q != [] {
      var l, pb := |q|, Walk(disk, b, q);
      Inside(disk, b, l, q);
      LeafOwn(disk, disk', Entry(disk[b], q[0]), q[1..]);
      forall j | 0 <= j < NBN
        ensures Own(disk', Entry(disk[b], j), l - 1) == Own(disk, Entry(disk[b], j), l - 1)
      {
        if j != q[0] { BesideKid(disk, disk', b, l, q[0], pb, j); }
      }
      KidsSame(disk, disk', disk[b], l - 1, NBN);
      OwnUnfold(disk, b, l);
      OwnUnfold(disk', b, l);
    } else {
      LeafOwnsSelf(disk, b);
      LeafOwnsSelf(disk', b);
    }
  }

  lemma {:induction false} LeafOwnsSelf(disk: Disk, b: int)
    ensures Own(disk, b, 0) == if b == 0 then multiset{} else multiset{b}
  {
  }

  lemma {:induction false} LeafWalk(disk: Disk, disk': Disk, b: int, q: seq<nat>, p: seq<nat>)
    requires Digits(q) && Once(Own(disk, b, |q|)) && Walk(disk, b, q) > 0
    requires |disk'| == |disk|
    requires forall x {:trigger disk'[x]} :: 0 <= x < |disk| && x != Walk(disk, b, q) ==> disk'[x] == disk[x]
    requires Digits(p) && |p| <= |q|
    ensures Walk(disk', b, p) == Walk(disk, b, p)
    decreases |q|
  {
    hide Own, OwnKids, Once;
    if p != [] {
      var l, pb := |q|, Walk(disk, b, q);
      Inside(disk, b, l, q);
      if p[0] == q[0] {
        LeafWalk(disk, disk', Entry(disk[b], q[0]), q[1..], p[1..]);
      } else {
        BesideKid(disk, disk', b, l, q[0], pb, p[0]);
        WalkFrame(disk, disk', Entry(disk[b], p[0]), l - 1, p[1..]);
      }
    }
  }

  lemma {:induction false} Inside(disk: Disk, b: int, l: nat, q: seq<nat>)
    requires Digits(q) && 0 < |q| <= l && Once(Own(disk, b, l)) && Walk(disk, b, q) > 0
    ensures 0 < b < |disk| && Walk(disk, b, q) != b
    ensures Once(Own(disk, Entry(disk[b], q[0]), l - 1)) && Own(disk, Entry(disk[b], q[0]), l - 1)[Walk(disk, b, q)] > 0
  {
    hide Own, OwnKids, Once;
    KidsApart(disk, b, l, q[0], if q[0] == 0 then 1 else 0);
    WalkInOwn(disk, Entry(disk[b], q[0]), l - 1, q[1..]);
  }

  lemma {:induction false} BesideKid(disk: Disk, disk': Disk, b: int, l: nat, k: nat, pb: int, j: nat)
    requires 0 < b < |disk| == |disk'| && 0 < l && k < NBN && j < NBN && j != k && Once(Own(disk, b, l))
    requires Own(disk, Entry(disk[b], k), l - 1)[pb] > 0
    requires forall x {:trigger disk'[x]} :: 0 <= x < |disk| && x != pb ==> disk'[x] == disk[x]
    ensures Agree(disk, disk', Own(disk, Entry(disk[b], j), l - 1))
    ensures Own(disk', Entry(disk[b], j), l - 1) == Own(disk, Entry(disk[b], j), l - 1)
  {
    hide Own, OwnKids;
    KidsApart(disk, b, l, j, k);
    assert (Own(disk, Entry(disk[b], j), l - 1) + Own(disk, Entry(disk[b], k), l - 1))[pb] <= 1;
    OwnFrame(disk, disk', Entry(disk[b], j), l - 1);
  }

  lemma {:induction false} KidsSame(disk: Disk, disk': Disk, blk: Block, l: nat, n: nat)
    requires n <= NBN && forall j :: 0 <= j < n ==> Own(disk', Entry(blk, j), l) == Own(disk, Entry(blk, j), l)
    ensures OwnKids(disk', blk, l, n) == OwnKids(disk, blk, l, n)
    decreases n
  {
    hide Own, OwnKids;
    if n > 0 {
      KidsUnfold(disk, blk, l, n);
      KidsUnfold(disk', blk, l, n);
      KidsSame(disk, disk', blk, l, n - 1);
    } else {
      EmptyKids(disk, blk, l, 0);
      EmptyKids(disk', blk, l, 0);
    }
  }

  // ----- numbering the leaves ------------------------------------------------------------

  /** How many leaves a tree of height l has. */
  function Span(l: nat): (n: nat)
    ensures n > 0
  {
    if l == 0 then 1 else NBN * Span(l - 1)
  }

  /** The number of the leaf a path leads to. */
  ghost function Number(q: seq<nat>): nat {
    if q == [] then 0 else q[0] * Span(|q| - 1) + Number(q[1..])
  }

  lemma {:induction false} NumberBelow(q: seq<nat>)
    requires Digits(q)
    ensures Number(q) < Span(|q|)
    decreases |q|
  {
    if q != [] {
      hide Span;
      NumberBelow(q[1..]);
      SpanStep(|q| - 1);
      Times(q[0], NBN, Span(|q| - 1));
    }
  }

  lemma {:induction false} SpanStep(l: nat)
    ensures Span(l) > 0 && Span(l + 1) == NBN * Span(l) && Span(0) == 1
  {
  }

  lemma {:induction false} Times(a: nat, n: nat, s: nat)
    requires a < n
    ensures a * s + s <= n * s
    decreases n
  {
    if a + 1 < n {
      Times(a, n - 1, s);
      assert n * s == (n - 1) * s + s;
    }
  }

  lemma {:induction false} Numbers(q: seq<nat>)
    requires |q| <= 3
    ensures |q| == 0 ==> Number(q) == 0
    ensures |q| == 1 ==> Number(q) == q[0]
    ensures |q| == 2 ==> Number(q) == q[0] * NBN + q[1]
    ensures |q| == 3 ==> Number(q) == (q[0] * NBN + q[1]) * NBN + q[2]
  {
    hide Span;
    SpanStep(0);
    SpanStep(1);
    if |q| >= 1 { assert Number(q) == q[0] * Span(|q| - 1) + Number(q[1..]); }
    if |q| >= 2 { assert Number(q[1..]) == q[1] * Span(|q| - 2) + Number(q[1..][1..]); }
    if |q| >= 3 { assert Number(q[1..][1..]) == q[2] * Span(|q| - 3) + Number(q[1..][1..][1..]); }
  }

  /** The first leaf below the end of a path. */
  ghost function Low(q: seq<nat>, l: nat): nat
    requires |q| <= l
  {
    if q == [] then 0 else q[0] * Span(l - 1) + Low(q[1..], l - 1)
  }

  lemma {:induction false} LowBelow(q: seq<nat>, l: nat)
    requires Digits(q) && |q| <= l
    ensures Low(q, l) < Span(l)
    ensures |q| == l ==> Low(q, l) == Number(q)
    decreases l
  {
    hide Span;
    if q != [] {
      LowBelow(q[1..], l - 1);
      SpanStep(l - 1);
      Times(q[0], NBN, Span(l - 1));
    } else {
      SpanStep(l);
    }
  }

  /** A path goes on below where a part of it ends. */
  lemma {:induction false} LowPrefix(q: seq<nat>, p: seq<nat>, l: nat)
    requires q <= p && Digits(p) && |p| <= l
    ensures Low(q, l) <= Low(p, l)
    decreases l
  {
    hide Span;
    if q != [] {
      assert q[1..] <= p[1..];
      LowPrefix(q[1..], p[1..], l - 1);
    }
  }

  /** Every block of the tree at b is on the way to one of its first m leaves. */
  ghost predicate Trim(disk: Disk, b: int, l: nat, m: int) {
    forall q {:trigger Walk(disk, b, q)} :: Digits(q) && |q| <= l && Walk(disk, b, q) != 0 ==> Low(q, l) < m
  }

  lemma {:induction false} TrimHole(disk: Disk, l: nat, m: int)
    ensures Trim(disk, 0, l, m)
  {
  }

  lemma {:induction false} TrimFull(disk: Disk, b: int, l: nat, m: int)
    requires m >= Span(l)
    ensures Trim(disk, b, l, m)
  {
    hide Span, Walk, Low;
    forall q | Digits(q) && |q| <= l ensures Low(q, l) < m {
      LowBelow(q, l);
    }
  }

  lemma {:induction false} TrimFrame(disk: Disk, disk': Disk, b: int, l: nat, m: int)
    requires Agree(disk, disk', Own(disk, b, l)) && Trim(disk, b, l, m)
    ensures Trim(disk', b, l, m)
  {
    hide Own, Walk, Low;
    forall q | Digits(q) && |q| <= l && Walk(disk', b, q) != 0 ensures Low(q, l) < m {
      WalkFrame(disk, disk', b, l, q);
    }
  }

  /** With nothing to keep there is no tree. */
  lemma {:induction false} TrimNothing(disk: Disk, b: int, l: nat, m: int)
    requires Trim(disk, b, l, m) && m <= 0
    ensures b == 0
  {
    assert Walk(disk, b, []) == b;
  }

  lemma {:induction false} TrimAt(disk: Disk, b: int, l: nat, m: int, q: seq<nat>)
    requires Trim(disk, b, l, m) && Digits(q) && |q| <= l && Walk(disk, b, q) != 0
    ensures Low(q, l) < m
  {
  }

  /** From the slots of a block to the block, if one of them is used. */
  lemma {:induction false} TrimAbove(disk: Disk, b: int, l: nat, m: int, k: nat)
    requires 0 < b < |disk| && k < NBN && Entry(disk[b], k) != 0
    requires forall j {:trigger Entry(disk[b], j)} :: 0 <= j < NBN ==>
      Trim(disk, Entry(disk[b], j), l, m - j * Span(l))
    ensures Trim(disk, b, l + 1, m)
  {
    hide Span, Trim, Entry;
    TrimAt(disk, Entry(disk[b], k), l, m - k * Span(l), []);
    assert m > 0 by { assert k * Span(l) >= 0; }
    forall q | Digits(q) && |q| <= l + 1 && Walk(disk, b, q) != 0 ensures Low(q, l + 1) < m {
      if q != [] {
        TrimAt(disk, Entry(disk[b], q[0]), l, m - q[0] * Span(l), q[1..]);
      }
    }
    TrimIf(disk, b, l + 1, m);
  }

  lemma {:induction false} TrimIf(disk: Disk, b: int, l: nat, m: int)
    requires forall q {:trigger Walk(disk, b, q)} :: Digits(q) && |q| <= l && Walk(disk, b, q) != 0 ==> Low(q, l) < m
    ensures Trim(disk, b, l, m)
  {
  }
}
