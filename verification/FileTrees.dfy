/** The thirteen addresses of an inode as one forest: what a file owns, and how that
    and the walks through it change when a block is attached or written. */
module FileTrees {
  import opened Blocks
  import opened BlockMap
  import opened Trees

  type Addrs = seq<int>

  function Height(i: nat): nat {
    if i < ND then 0 else i - ND + 1
  }

  /** The blocks of the first n addresses. */
  ghost function FileOwn(disk: Disk, a: Addrs, n: nat): multiset<int>
    requires n <= |a|
  {
    if n == 0 then multiset{} else Own(disk, a[n - 1], Height(n - 1)) + FileOwn(disk, a, n - 1)
  }

  ghost function Owned(disk: Disk, a: Addrs): multiset<int>
    requires |a| == NADDR
  {
    FileOwn(disk, a, NADDR)
  }

  /** A path from an inode, or the first part of one. */
  predicate Prefix(p: seq<nat>) {
    0 < |p| && p[0] < NADDR && Digits(p[1..]) && |p| - 1 <= Height(p[0])
  }

  /** Follow a path, or its first part. */
  ghost function Follow(disk: Disk, a: Addrs, p: seq<nat>): int
    requires |a| == NADDR && Prefix(p)
  {
    Walk(disk, a[p[0]], p[1..])
  }

  lemma {:induction false} PathIsPrefix(p: Path)
    requires IsPath(p)
    ensures Prefix(p) && |p| - 1 == Height(p[0])
  {
  }

  lemma {:induction false} FollowStep(disk: Disk, a: Addrs, p: Path, k: nat)
    requires |a| == NADDR && IsPath(p) && 0 < k < |p|
    ensures Prefix(p[..k]) && Prefix(p[..k + 1]) && |p[..k]| - 1 < Height(p[0]) && p[..k + 1] == p[..k] + [p[k]]
    ensures var w := Follow(disk, a, p[..k]);
      && (0 < w < |disk| ==> Follow(disk, a, p[..k + 1]) == Entry(disk[w], p[k]))
      && (w == 0 ==> Follow(disk, a, p[..k + 1]) == 0)
  {
    assert p[..k + 1][1..] == p[..k][1..] + [p[k]];
    assert forall i :: 0 <= i < k - 1 ==> p[..k][1..][i] == p[i + 1];
    WalkStep(disk, a[p[0]], p[..k][1..], p[k]);
  }

  /** The first logical block of the tree at an address of the inode. */
  function Base(i: nat): nat
    requires i < NADDR
  {
    if i < ND then i else if i == ND then ND else if i == ND + 1 then ND + NBN else ND + NBN + NBN * NBN
  }

  /** The first logical block on the way to which a path, or its first part, lies. */
  ghost function First(p: seq<nat>): nat
    requires Prefix(p)
  {
    Base(p[0]) + Low(p[1..], Height(p[0]))
  }

  lemma {:induction false} PathNumber(k: nat)
    requires k < MAXBLOCKS
    ensures var p := Classify(k); |p| > 0 && p[0] < NADDR && Base(p[0]) + Number(p[1..]) == k
  {
    hide Number;
    var p := Classify(k);
    Numbers(p[1..]);
    PathOfIndex(k);
  }

  /** A part of a path lies on the way to no later block than where it starts. */
  lemma {:induction false} FirstOfPart(q: seq<nat>, k: nat)
    requires k < MAXBLOCKS && Prefix(q) && q <= Classify(k)
    ensures First(q) <= k
  {
    hide Low, Span, Number, Classify;
    var p := Classify(k);
    PathIsPrefix(p);
    PathNumber(k);
    LowBelow(p[1..], Height(p[0]));
    assert q[1..] <= p[1..];
    LowPrefix(q[1..], p[1..], Height(p[0]));
  }

  lemma {:induction false} LeanFrame(disk: Disk, disk': Disk, a: Addrs, m: nat)
    requires Lean(disk, a, m) && forall p :: Prefix(p) ==> Follow(disk', a, p) == Follow(disk, a, p)
    ensures Lean(disk', a, m)
  {
  }

  /** Every block of the file is on the way to one of its first m logical blocks. */
  ghost predicate Lean(disk: Disk, a: Addrs, m: nat) {
    |a| == NADDR &&
    forall p {:trigger Follow(disk, a, p)} :: Prefix(p) && Follow(disk, a, p) != 0 ==> First(p) < m
  }

  // ----- the parts ---------------------------------------------------------------------

  lemma {:induction false} FileUnfold(disk: Disk, a: Addrs, n: nat)
    requires 0 < n <= |a|
    ensures FileOwn(disk, a, n) == Own(disk, a[n - 1], Height(n - 1)) + FileOwn(disk, a, n - 1)
  {
  }

  lemma {:induction false} RootPart(disk: Disk, a: Addrs, n: nat, i: nat)
    requires i < n <= |a|
    ensures Own(disk, a[i], Height(i)) <= FileOwn(disk, a, n)
    decreases n
  {
    hide Own;
    if i < n - 1 { RootPart(disk, a, n - 1, i); }
  }

  lemma {:induction false} TwoRoots(disk: Disk, a: Addrs, n: nat, i: nat, j: nat)
    requires i < j < n <= |a|
    ensures Own(disk, a[i], Height(i)) + Own(disk, a[j], Height(j)) <= FileOwn(disk, a, n)
    decreases n
  {
    hide Own, FileOwn;
    FileUnfold(disk, a, n);
    if j < n - 1 { TwoRoots(disk, a, n - 1, i, j); } else { RootPart(disk, a, n - 1, i); }
  }

  lemma {:induction false} RootsApart(disk: Disk, a: Addrs, i: nat, j: nat)
    requires |a| == NADDR && i < NADDR && j < NADDR && i != j && Once(Owned(disk, a))
    ensures Once(Own(disk, a[i], Height(i)) + Own(disk, a[j], Height(j))) && Once(Own(disk, a[i], Height(i)))
  {
    hide Own, FileOwn;
    TwoRoots(disk, a, NADDR, if i < j then i else j, if i < j then j else i);
    OncePart(Own(disk, a[i], Height(i)) + Own(disk, a[j], Height(j)), Owned(disk, a));
    OncePart(Own(disk, a[i], Height(i)), Own(disk, a[i], Height(i)) + Own(disk, a[j], Height(j)));
  }

  /** The root that holds something, and each other root, in a file owning no block twice. */
  lemma {:induction false} RootApart(disk: Disk, a: Addrs, i: nat, j: nat, x: int)
    requires |a| == NADDR && i < NADDR && j < NADDR && i != j && Once(Owned(disk, a))
    requires Own(disk, a[i], Height(i))[x] > 0
    ensures Own(disk, a[j], Height(j))[x] == 0
  {
    hide Own, FileOwn;
    RootsApart(disk, a, i, j);
    assert (Own(disk, a[i], Height(i)) + Own(disk, a[j], Height(j)))[x] <= 1;
  }

  lemma {:induction false} FreshInRoot(disk: Disk, a: Addrs, i: nat, c: int)
    requires |a| == NADDR && i < NADDR && Owned(disk, a)[c] == 0
    ensures Own(disk, a[i], Height(i))[c] == 0
  {
    hide Own, FileOwn;
    RootPart(disk, a, NADDR, i);
    assert Own(disk, a[i], Height(i))[c] <= Owned(disk, a)[c];
  }

  // ----- frames -------------------------------------------------------------------------

  lemma {:induction false} FileFrame(disk: Disk, disk': Disk, a: Addrs, n: nat)
    requires n <= |a| && Agree(disk, disk', FileOwn(disk, a, n))
    ensures FileOwn(disk', a, n) == FileOwn(disk, a, n)
    decreases n
  {
    hide Own;
    if n > 0 {
      OwnFrame(disk, disk', a[n - 1], Height(n - 1));
      FileFrame(disk, disk', a, n - 1);
    }
  }

  lemma {:induction false} FollowFrame(disk: Disk, disk': Disk, a: Addrs, p: Path)
    requires |a| == NADDR && IsPath(p) && Agree(disk, disk', Owned(disk, a))
    ensures Follow(disk', a, p) == Follow(disk, a, p)
  {
    hide Own, FileOwn;
    RootPart(disk, a, NADDR, p[0]);
    assert forall x :: Own(disk, a[p[0]], Height(p[0]))[x] <= Owned(disk, a)[x];
    WalkFrame(disk, disk', a[p[0]], Height(p[0]), p[1..]);
  }

  /** What a path reaches is owned, and no two logical blocks share one physical block. */
  lemma {:induction false} FollowOwned(disk: Disk, a: Addrs, p: seq<nat>)
    requires |a| == NADDR && Prefix(p)
    ensures Follow(disk, a, p) > 0 ==> Own(disk, a[p[0]], Height(p[0]))[Follow(disk, a, p)] > 0
    ensures Follow(disk, a, p) > 0 ==> Owned(disk, a)[Follow(disk, a, p)] > 0
  {
    hide Own, FileOwn;
    WalkInOwn(disk, a[p[0]], Height(p[0]), p[1..]);
    RootPart(disk, a, NADDR, p[0]);
    var x := Follow(disk, a, p);
    assert Own(disk, a[p[0]], Height(p[0]))[x] <= Owned(disk, a)[x];
  }

  lemma {:induction false} FollowSafe(disk: Disk, a: Addrs, p: seq<nat>, lo: int, hi: int)
    requires |a| == NADDR && Prefix(p) && 0 < lo && hi <= |disk| && InRange(Owned(disk, a), lo, hi)
    ensures Follow(disk, a, p) == 0 || lo <= Follow(disk, a, p) < hi
  {
    hide Own, FileOwn;
    RootPart(disk, a, NADDR, p[0]);
    assert forall x :: Own(disk, a[p[0]], Height(p[0]))[x] <= Owned(disk, a)[x];
    WalkSafe(disk, a[p[0]], Height(p[0]), p[1..]);
    FollowOwned(disk, a, p);
  }

  lemma {:induction false} FollowInjective(disk: Disk, a: Addrs, p: seq<nat>, q: seq<nat>)
    requires |a| == NADDR && Prefix(p) && Prefix(q) && p != q && Once(Owned(disk, a))
    ensures Follow(disk, a, p) > 0 ==> Follow(disk, a, p) != Follow(disk, a, q)
  {
    hide Own, FileOwn, Once;
    if p[0] == q[0] {
      assert p == [p[0]] + p[1..] && q == [q[0]] + q[1..];
      RootsApart(disk, a, p[0], if p[0] == 0 then 1 else 0);
      WalkInjective(disk, a[p[0]], Height(p[0]), p[1..], q[1..]);
    } else if Follow(disk, a, p) > 0 {
      FollowOwned(disk, a, p);
      FollowOwned(disk, a, q);
      RootApart(disk, a, p[0], q[0], Follow(disk, a, p));
    }
  }

  // ----- one root changes ----------------------------------------------------------------

  lemma {:induction false} RootGrows(disk: Disk, disk': Disk, a: Addrs, a': Addrs, n: nat, k: nat, m: multiset<int>)
    requires n <= NADDR == |a| == |a'| && k < NADDR
    requires Own(disk', a'[k], Height(k)) == Own(disk, a[k], Height(k)) + m
    requires forall j :: 0 <= j < NADDR && j != k ==> Own(disk', a'[j], Height(j)) == Own(disk, a[j], Height(j))
    ensures FileOwn(disk', a', n) == FileOwn(disk, a, n) + if k < n then m else multiset{}
    decreases n
  {
    hide Own, FileOwn;
    if n > 0 {
      FileUnfold(disk, a, n);
      FileUnfold(disk', a', n);
      RootGrows(disk, disk', a, a', n - 1, k, m);
    } else {
      NoRoots(disk, a);
      NoRoots(disk', a');
    }
  }

  lemma {:induction false} NoRoots(disk: Disk, a: Addrs)
    ensures FileOwn(disk, a, 0) == multiset{}
  {
  }

  /** Writing blocks that root j does not own. */
  lemma {:induction false} OtherRoot(disk: Disk, disk': Disk, a: Addrs, k: nat, j: nat, pb: int, c: int)
    requires |a| == NADDR && k < NADDR && j < NADDR && j != k && Once(Owned(disk, a))
    requires Owned(disk, a)[c] == 0 && (pb == c || Own(disk, a[k], Height(k))[pb] > 0)
    requires |disk'| == |disk|
    requires forall x {:trigger disk'[x]} :: 0 <= x < |disk| && x != pb && x != c ==> disk'[x] == disk[x]
    ensures Own(disk', a[j], Height(j)) == Own(disk, a[j], Height(j))
    ensures Agree(disk, disk', Own(disk, a[j], Height(j)))
  {
    hide Own, FileOwn, Once;
    FreshInRoot(disk, a, j, c);
    if pb != c { RootApart(disk, a, k, j, pb); }
    OwnFrame(disk, disk', a[j], Height(j));
  }

  /** A fresh block takes an empty address of the inode. */
  lemma {:induction false} AttachRoot(disk: Disk, disk': Disk, a: Addrs, k: nat, c: int)
    requires |a| == NADDR && k < NADDR && a[k] == 0 && Once(Owned(disk, a)) && Owned(disk, a)[c] == 0
    requires |disk'| == |disk| && 0 < c < |disk|
    requires forall x {:trigger disk'[x]} :: 0 <= x < |disk| && x != c ==> disk'[x] == disk[x]
    requires Height(k) > 0 ==> forall j :: 0 <= j < NBN ==> Entry(disk'[c], j) == 0
    ensures Owned(disk', a[k := c]) == Owned(disk, a) + multiset{c}
    ensures forall p :: Prefix(p) ==> Follow(disk', a[k := c], p) == if p == [k] then c else Follow(disk, a, p)
  {
    hide Own, FileOwn, Once, Walk, Follow;
    FreshOwns(disk', c, Height(k));
    HoleOwns(disk, Height(k));
    forall j | 0 <= j < NADDR && j != k
      ensures Own(disk', a[j], Height(j)) == Own(disk, a[j], Height(j))
    {
      OtherRoot(disk, disk', a, k, j, c, c);
    }
    RootGrows(disk, disk', a, a[k := c], NADDR, k, multiset{c});
    forall p | Prefix(p) ensures Follow(disk', a[k := c], p) == if p == [k] then c else Follow(disk, a, p) {
      AttachRootAt(disk, disk', a, k, c, p);
    }
  }

  lemma {:induction false} AttachRootAt(disk: Disk, disk': Disk, a: Addrs, k: nat, c: int, p: seq<nat>)
    requires |a| == NADDR && k < NADDR && a[k] == 0 && Once(Owned(disk, a)) && Owned(disk, a)[c] == 0
    requires |disk'| == |disk| && 0 < c < |disk| && Prefix(p)
    requires forall x {:trigger disk'[x]} :: 0 <= x < |disk| && x != c ==> disk'[x] == disk[x]
    requires Height(k) > 0 ==> forall j :: 0 <= j < NBN ==> Entry(disk'[c], j) == 0
    ensures Follow(disk', a[k := c], p) == if p == [k] then c else Follow(disk, a, p)
  {
    hide Own, FileOwn, Once;
    if p[0] != k {
      OtherRoot(disk, disk', a, k, p[0], c, c);
      WalkFrame(disk, disk', a[p[0]], Height(p[0]), p[1..]);
    } else if |p| > 1 {
      assert Walk(disk', c, p[1..]) == Walk(disk', 0, p[1..][1..]) == 0;
    }
  }

  /** A fresh block is hung under slot s of the indirect block that q leads to. */
  lemma {:induction false} AttachBelow(disk: Disk, disk': Disk, a: Addrs, q: seq<nat>, s: nat, c: int)
    requires |a| == NADDR && Prefix(q) && |q| - 1 < Height(q[0])
    requires Once(Owned(disk, a)) && Owned(disk, a)[c] == 0
    requires Hangs(disk, disk', Follow(disk, a, q), s, c, Height(q[0]) - |q|)
    ensures Owned(disk', a) == Owned(disk, a) + multiset{c}
    ensures forall p :: Prefix(p) ==> Follow(disk', a, p) == if p == q + [s] then c else Follow(disk, a, p)
  {
    hide Own, FileOwn, Once, Hangs;
    var k, h, pb := q[0], Height(q[0]), Follow(disk, a, q);
    RootsApart(disk, a, k, if k == 0 then 1 else 0);
    FreshInRoot(disk, a, k, c);
    FollowOwned(disk, a, q);
    HangsFrame(disk, disk', pb, s, c, h - |q|);
    Grow(disk, disk', a[k], h, q[1..], s, c);
    forall j | 0 <= j < NADDR && j != k
      ensures Own(disk', a[j], Height(j)) == Own(disk, a[j], Height(j))
    {
      OtherRoot(disk, disk', a, k, j, pb, c);
    }
    RootGrows(disk, disk', a, a, NADDR, k, multiset{c});
    forall p | Prefix(p)
      ensures Follow(disk', a, p) == if p == q + [s] then c else Follow(disk, a, p)
    {
      assert q == [q[0]] + q[1..] && p == [p[0]] + p[1..];
      if p[0] != k {
        OtherRoot(disk, disk', a, k, p[0], pb, c);
        WalkFrame(disk, disk', a[p[0]], Height(p[0]), p[1..]);
      } else {
        GrowWalk(disk, disk', a[k], h, q[1..], s, c, p[1..]);
        assert p == q + [s] <==> p[1..] == q[1..] + [s];
      }
    }
  }

  lemma {:induction false} HangsFrame(disk: Disk, disk': Disk, pb: int, s: nat, c: int, h: nat)
    requires Hangs(disk, disk', pb, s, c, h)
    ensures |disk'| == |disk| && 0 < pb
    ensures forall x {:trigger disk'[x]} :: 0 <= x < |disk| && x != pb && x != c ==> disk'[x] == disk[x]
  {
  }

  /** A data block is written. */
  lemma {:induction false} WriteLeaf(disk: Disk, disk': Disk, a: Addrs, q: Path)
    requires |a| == NADDR && IsPath(q) && Once(Owned(disk, a)) && Follow(disk, a, q) > 0
    requires |disk'| == |disk|
    requires forall x {:trigger disk'[x]} :: 0 <= x < |disk| && x != Follow(disk, a, q) ==> disk'[x] == disk[x]
    ensures Owned(disk', a) == Owned(disk, a)
    ensures forall p :: Prefix(p) ==> Follow(disk', a, p) == Follow(disk, a, p)
  {
    hide Own, FileOwn, Once;
    var k, pb := q[0], Follow(disk, a, q);
    PathIsPrefix(q);
    FollowOwned(disk, a, q);
    RootsApart(disk, a, k, if k == 0 then 1 else 0);
    LeafOwn(disk, disk', a[k], q[1..]);
    forall j | 0 <= j < NADDR && j != k
      ensures Own(disk', a[j], Height(j)) == Own(disk, a[j], Height(j))
      ensures Agree(disk, disk', Own(disk, a[j], Height(j)))
    {
      RootApart(disk, a, k, j, pb);
      OwnFrame(disk, disk', a[j], Height(j));
    }
    RootGrows(disk, disk', a, a, NADDR, k, multiset{});
    forall p | Prefix(p) ensures Follow(disk', a, p) == Follow(disk, a, p) {
      if p[0] == k {
        LeafWalk(disk, disk', a[k], q[1..], p[1..]);
      } else {
        WalkFrame(disk, disk', a[p[0]], Height(p[0]), p[1..]);
      }
    }
  }
}
