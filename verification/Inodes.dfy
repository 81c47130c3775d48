/** Reading, extending and truncating a file in the kernel: vmap and aread of fs3.c,
    iclear of fs1.c and indfree of fs2.c. */
module Inodes {
  import opened Blocks
  import opened BlockMap
  import opened Trees
  import opened FileTrees
  import opened FreeList

  lemma {:induction false} ClassifyIsPath(idx: nat)
    requires idx < MAXBLOCKS
    ensures IsPath(Classify(idx)) && 0 < |Classify(idx)| && Prefix(Classify(idx)[..1])
    ensures Classify(idx)[..|Classify(idx)|] == Classify(idx) && Prefix(Classify(idx))
  {
    PathIsPrefix(Classify(idx));
  }

  lemma {:induction false} FollowRoot(disk: Disk, a: Addrs, p: Path)
    requires |a| == NADDR && IsPath(p) && Prefix(p[..1])
    ensures p[0] < NADDR && Follow(disk, a, p[..1]) == a[p[0]]
  {
  }

  /** vmap: the physical block of a logical one, 0 for a hole, -1 beyond the limit. */
  method VMap(mp: Mount, addr: array<int>, lb: nat) returns (pb: int)
    requires addr.Length == NADDR && mp.Valid() && InRange(Owned(mp.disk, addr[..]), mp.isize, mp.fsize)
    ensures pb == if lb < MAXBLOCKS then Follow(mp.disk, addr[..], Classify(lb)) else -1
  {
    hide Owned, Walk, Follow, Classify, Reverse, Prefix, IsPath;
    var ok, list := LMap(lb);
    if !ok {
      return -1;
    }
    ghost var p, a := Classify(lb), addr[..];
    ghost var k := 1;
    ClassifyIsPath(lb);
    FollowRoot(mp.disk, a, p);
    var lp := |list| - 1;
    pb := addr[list[lp]];
    while pb != 0 && lp != 0
      invariant 0 < k <= |p| && lp == |p| - k && Prefix(p[..k])
      invariant pb == Follow(mp.disk, a, p[..k])
      decreases lp
    {
      lp := lp - 1;
      VolumeSizes(mp);
      FollowSafe(mp.disk, a, p[..k], mp.isize, mp.fsize);
      FollowStep(mp.disk, a, p, k);
      pb := Entry(mp.disk[pb], list[lp]);
      k := k + 1;
    }
    HoleBelow(mp.disk, a, p, k);
  }

  lemma {:induction false} VolumeSizes(mp: Mount)
    requires mp.Valid()
    ensures 0 < mp.isize <= mp.fsize <= |mp.disk|
  {
  }

  /** Nothing hangs below a hole. */
  lemma {:induction false} HoleBelow(disk: Disk, a: Addrs, p: Path, k: nat)
    requires |a| == NADDR && IsPath(p) && 0 < k <= |p| && Prefix(p[..k])
    ensures Follow(disk, a, p[..k]) == 0 || k == |p| ==> Prefix(p) && Follow(disk, a, p) == Follow(disk, a, p[..k])
    decreases |p| - k
  {
    if k < |p| {
      FollowStep(disk, a, p, k);
      HoleBelow(disk, a, p, k + 1);
    } else {
      assert p[..k] == p;
    }
  }

  // ----- extending a file ------------------------------------------------------------

  /** How far aread has come on the path p: the volume was (d0, a0) with free0 free and
      is (d, a) with free.  Blocks have only moved from the free list into the file, no
      other logical block has moved or changed, and p itself only if its block is done; and
      what is new is on the path. */
  ghost predicate Grown(d0: Disk, a0: Addrs, free0: multiset<int>, d: Disk, a: Addrs, free: multiset<int>,
                        lo: int, hi: int, p: Path, done: bool)
  {
    && |a0| == |a| == NADDR && |d0| == |d| && 0 < lo <= hi <= |d|
    && Owned(d, a) + free == Owned(d0, a0) + free0
    && InRange(Owned(d, a), lo, hi)
    && (forall q {:trigger Follow(d, a, q)} :: IsPath(q) && Prefix(q) && (q != p || !done) ==>
          Follow(d, a, q) == Follow(d0, a0, q))
    && (forall q {:trigger Follow(d, a, q)} :: Prefix(q) && Follow(d, a, q) != 0 ==> Follow(d0, a0, q) != 0 || q <= p)
    && (forall q {:trigger Follow(d0, a0, q)} :: IsPath(q) && Prefix(q) && q != p && 0 < Follow(d0, a0, q) < |d| ==>
          d[Follow(d0, a0, q)] == d0[Follow(d0, a0, q)])
    && (forall x {:trigger d[x]} :: 0 <= x < |d| && d[x] != d0[x] ==> (Owned(d0, a0) + free0)[x] > 0)
  }

  /** A fresh block c has been taken for the address p[0] of the inode. */
  lemma {:induction false} GrowRoot(d0: Disk, a0: Addrs, free0: multiset<int>, free: multiset<int>,
                                    lo: int, hi: int, p: Path, c: int)
    requires |a0| == NADDR && IsPath(p) && 0 < lo <= c < hi <= |d0| && free0 == free + multiset{c}
    requires Once(Owned(d0, a0) + free0) && InRange(Owned(d0, a0), lo, hi) && a0[p[0]] == 0
    ensures var d := d0[c := Zero];
      && Grown(d0, a0, free0, d, a0[p[0] := c], free, lo, hi, p, |p| == 1)
      && Once(Owned(d, a0[p[0] := c]) + free)
      && Prefix(p[..1]) && Follow(d, a0[p[0] := c], p[..1]) == c
  {
    hide FileOwn, Walk, Once;
    PathIsPrefix(p);
    FreshFromFree(Owned(d0, a0), free0, free, c);
    var d, a := d0[c := Zero], a0[p[0] := c];
    ZeroAll();
    AttachRoot(d0, d, a0, p[0], c);
    FollowRoot(d, a, p);
    assert |p| == 1 ==> p == [p[0]];
    forall q | IsPath(q) && Prefix(q) && 0 < Follow(d0, a0, q) ensures Follow(d0, a0, q) != c {
      PathIsPrefix(q);
      FollowOwned(d0, a0, q);
    }
    assert (Owned(d0, a0) + free0)[c] > 0;
  }

  lemma {:induction false} ZeroAll()
    ensures forall j :: 0 <= j < NBN ==> Entry(Zero, j) == 0
  {
    forall j | 0 <= j < NBN ensures Entry(Zero, j) == 0 { ZeroEntries(j); }
  }

  lemma {:induction false} FreshFromFree(owned: multiset<int>, free0: multiset<int>, free: multiset<int>, c: int)
    requires Once(owned + free0) && free0 == free + multiset{c}
    ensures owned[c] == 0 && Once(owned) && Once(owned + free) && Once((owned + multiset{c}) + free)
  {
    assert (owned + free0)[c] <= 1;
    assert (owned + multiset{c}) + free == owned + free0;
    OncePart(owned, owned + free0);
    OncePart(owned + free, owned + free0);
  }

  /** A fresh block c has been hung under the indirect block pb that p[..k] leads to. */
  lemma {:induction false} GrowBelow(d0: Disk, a0: Addrs, free0: multiset<int>, d: Disk, a: Addrs, free: multiset<int>,
                                     free': multiset<int>, lo: int, hi: int, p: Path, k: nat, pb: int,
                                     c: int, linked: Block)
    requires IsPath(p) && 0 < k < |p| && Prefix(p[..k]) && |a0| == NADDR && Once(Owned(d0, a0) + free0)
    requires Grown(d0, a0, free0, d, a, free, lo, hi, p, false)
    requires lo <= pb < hi && Follow(d, a, p[..k]) == pb && Entry(d[pb], p[k]) == 0
    requires lo <= c < hi && free == free' + multiset{c}
    requires forall j :: 0 <= j < NBN ==> Entry(linked, j) == if j == p[k] then c else Entry(d[pb], j)
    ensures var d' := d[pb := linked][c := Zero];
      && Grown(d0, a0, free0, d', a, free', lo, hi, p, k + 1 == |p|)
      && Prefix(p[..k + 1]) && Follow(d', a, p[..k + 1]) == c && pb != c
  {
    hide FileOwn, Walk, Once;
    PathIsPrefix(p);
    FreshFromFree(Owned(d, a), free, free', c);
    FollowOwned(d, a, p[..k]);
    FollowStep(d, a, p, k);
    var d' := d[pb := linked][c := Zero];
    ZeroAll();
    AttachBelow(d, d', a, p[..k], p[k], c);
    assert Follow(d', a, p[..k + 1]) == c;
    assert k + 1 == |p| <==> p == p[..k] + [p[k]];
    forall q | IsPath(q) && Prefix(q) && q != p && 0 < Follow(d0, a0, q) < |d|
      ensures Follow(d0, a0, q) != pb && Follow(d0, a0, q) != c
    {
      PathIsPrefix(q);
      FollowOwned(d, a, q);
      FollowInjective(d, a, q, p[..k]);
    }
    assert (Owned(d, a) + free)[pb] > 0 && (Owned(d, a) + free)[c] > 0;
  }

  /** The block of p itself is written. */
  lemma {:induction false} GrowWrite(d0: Disk, a0: Addrs, free0: multiset<int>, d: Disk, a: Addrs, free: multiset<int>,
                                     lo: int, hi: int, p: Path, blk: Block)
    requires IsPath(p) && |a0| == NADDR && Once(Owned(d0, a0) + free0)
    requires Grown(d0, a0, free0, d, a, free, lo, hi, p, true) && 0 < Follow(d, a, p) < |d|
    ensures Grown(d0, a0, free0, d[Follow(d, a, p) := blk], a, free, lo, hi, p, true)
    ensures Follow(d[Follow(d, a, p) := blk], a, p) == Follow(d, a, p)
  {
    hide FileOwn, Walk, Once;
    var pb := Follow(d, a, p);
    var d' := d[pb := blk];
    OncePart(Owned(d, a), Owned(d, a) + free);
    PathIsPrefix(p);
    FollowOwned(d, a, p);
    WriteLeaf(d, d', a, p);
    forall q | IsPath(q) && Prefix(q) && q != p && 0 < Follow(d0, a0, q) < |d|
      ensures Follow(d0, a0, q) != pb
    {
      PathIsPrefix(q);
      FollowInjective(d, a, q, p);
    }
    assert (Owned(d, a) + free)[pb] > 0;
  }

  lemma {:induction false} NotFree(own: multiset<int>, st: seq<int>, x: int)
    requires Once(own + multiset(st)) && own[x] > 0
    ensures x !in st
  {
    assert (own + multiset(st))[x] <= 1;
  }

  lemma {:induction false} StackSplit(st: seq<int>)
    requires st != []
    ensures multiset(st) == multiset(st[..|st| - 1]) + multiset{st[|st| - 1]}
  {
    assert st == st[..|st| - 1] + [st[|st| - 1]];
  }

  lemma {:induction false} NotGrown(d: Disk, a: Addrs, free: multiset<int>, lo: int, hi: int, p: Path)
    requires |a| == NADDR && 0 < lo <= hi <= |d| && InRange(Owned(d, a), lo, hi)
    ensures Grown(d, a, free, d, a, free, lo, hi, p, false)
  {
  }

  lemma {:induction false} LinkedEntry(blk: Block, s: nat, c: int)
    requires s < NBN && IsAddr(c)
    ensures forall j :: 0 <= j < NBN ==> Entry(SetEntry(blk, s, c), j) == if j == s then c else Entry(blk, j)
  {
  }

  /** What aread promises when it returns pb for the path p: the block of p, the old one if
      there was one, cleared if it is new or about to be overwritten; 0 when the volume has
      filled up, and then the file still maps as it did. */
  ghost predicate AReadDone(d0: Disk, a0: Addrs, f0: multiset<int>, d: Disk, a: Addrs, f: multiset<int>,
                            lo: int, hi: int, p: Path, fflag: bool, pb: int)
  {
    && IsPath(p) && Prefix(p) && Grown(d0, a0, f0, d, a, f, lo, hi, p, pb != 0)
    && (pb == 0 ==> Follow(d0, a0, p) == 0 && f == multiset{})
    && (pb != 0 ==>
         && lo <= pb < hi && Follow(d, a, p) == pb
         && (Follow(d0, a0, p) != 0 ==> pb == Follow(d0, a0, p) && f == f0)
         && (if Follow(d0, a0, p) == 0 || fflag then d[pb] == Zero else d[pb] == d0[pb]))
  }

  /** The first step of aread: the block in the inode, allocated if there is none. */
  method RootBlock(mp: Mount, addr: array<int>, ghost p: Path, l: nat) returns (pb: int, aflag: bool, ghost d: Disk)
    requires addr.Length == NADDR && mp.Valid() && addr != mp.free && IsPath(p) && Prefix(p) && 0 < |p|
    requires Prefix(p[..1]) && l == p[0]
    requires Once(Owned(mp.disk, addr[..]) + multiset(mp.st)) && InRange(Owned(mp.disk, addr[..]), mp.isize, mp.fsize)
    modifies mp`nfree, mp`tfree, mp`st, mp.free, addr
    ensures mp.Valid() && 0 < mp.isize <= mp.fsize <= |mp.disk|
    ensures pb == 0 ==> addr[..] == old(addr[..]) && mp.st == old(mp.st) == []
    ensures pb == 0 || aflag ==> Follow(mp.disk, old(addr[..]), p) == 0
    ensures !aflag ==> addr[..] == old(addr[..]) && mp.st == old(mp.st)
    ensures pb != 0 ==>
      && mp.isize <= pb < mp.fsize && d == (if aflag then mp.disk[pb := Zero] else mp.disk)
      && Grown(mp.disk, old(addr[..]), multiset(old(mp.st)), d, addr[..], multiset(mp.st), mp.isize, mp.fsize,
                 p, aflag && |p| == 1)
      && Follow(d, addr[..], p[..1]) == pb
  {
    hide FileOwn, Walk, IsPath, Once, Grown, Mount.Valid, Follow, InRange, Prefix;
    ghost var a0, f0 := addr[..], multiset(mp.st);
    VolumeSizes(mp);
    FollowRoot(mp.disk, a0, p);
    NotGrown(mp.disk, a0, f0, mp.isize, mp.fsize, p);
    d := mp.disk;
    pb := addr[l];
    aflag := pb == 0;
    if aflag {
      HoleBelow(mp.disk, a0, p, 1);
      if mp.st != [] { StackSplit(mp.st); }
      var bad;
      pb, bad := mp.BAlloc();
      if pb != 0 {
        addr[l] := pb;
        GrowRoot(d, a0, f0, multiset(mp.st), mp.isize, mp.fsize, p, pb);
        d := d[pb := Zero];
      }
    } else {
      FollowSafe(mp.disk, a0, p[..1], mp.isize, mp.fsize);
    }
  }

  /** One step down in aread: the block under slot l of pb, allocated if there is none. */
  method Descend(mp: Mount, ghost d0: Disk, ghost a0: Addrs, ghost f0: multiset<int>, ghost a: Addrs,
                 ghost p: Path, ghost k: nat, pb: int, l: nat) returns (next: int, aflag: bool, ghost d: Disk)
    requires mp.Valid() && IsPath(p) && Prefix(p) && 0 < k < |p| && Prefix(p[..k]) && l == p[k] < NBN
    requires |a0| == NADDR == |a|
    requires Once(Owned(d0, a0) + f0) && Grown(d0, a0, f0, mp.disk, a, multiset(mp.st), mp.isize, mp.fsize, p, false)
    requires Follow(mp.disk, a, p[..k]) == pb && mp.isize <= pb < mp.fsize <= |mp.disk| && 0 < mp.isize
    modifies mp`nfree, mp`tfree, mp`st, mp`disk, mp.free
    ensures mp.Valid() && Prefix(p[..k + 1]) && |mp.disk| == |old(mp.disk)|
    ensures next == 0 ==>
      && Grown(d0, a0, f0, mp.disk, a, multiset(mp.st), mp.isize, mp.fsize, p, false)
      && mp.st == [] && Follow(d0, a0, p) == 0
    ensures next != 0 ==>
      && mp.isize <= next < mp.fsize <= |mp.disk| && d == (if aflag then mp.disk[next := Zero] else mp.disk)
      && Grown(d0, a0, f0, d, a, multiset(mp.st), mp.isize, mp.fsize, p, aflag && k + 1 == |p|)
      && Follow(d, a, p[..k + 1]) == next
    ensures aflag ==> Follow(d0, a0, p) == 0
    ensures Follow(d0, a0, p) != 0 ==> next != 0 && !aflag && mp.disk == old(mp.disk) && mp.st == old(mp.st)
  {
    hide FileOwn, Owned, Walk, IsPath, Once, Grown, Mount.Valid, Follow, InRange, Prefix, Entry, SetEntry, Zero;
    GrownFacts(d0, a0, f0, mp.disk, a, multiset(mp.st), mp.isize, mp.fsize, p, false);
    FollowStep(mp.disk, a, p, k);
    d := mp.disk;
    next := Entry(mp.disk[pb], l);
    aflag := next == 0;
    if aflag {
      HoleBelow(d, a, p, k + 1);
      if mp.st != [] { StackSplit(mp.st); }
      ghost var f := multiset(mp.st);
      FollowOwned(d, a, p[..k]);
      NotFree(Owned(d, a), mp.st, pb);
      var bad;
      next, bad := mp.BAlloc();
      if next != 0 {
        InAddr(mp, next);
        LinkedEntry(mp.disk[pb], l, next);
        var blk := SetEntry(mp.disk[pb], l, next);
        GrowBelow(d0, a0, f0, d, a, f, multiset(mp.st), mp.isize, mp.fsize, p, k, pb, next, blk);
        mp.Write(pb, blk);
        d := d[pb := blk][next := Zero];
      }
    } else {
      FollowSafe(mp.disk, a, p[..k + 1], mp.isize, mp.fsize);
    }
  }

  /** The buffer of the current block: cleared if it is new, or if it is the one asked for
      and is about to be overwritten; read otherwise. */
  method Claim(mp: Mount, ghost d0: Disk, ghost a0: Addrs, ghost f0: multiset<int>, ghost d: Disk, ghost a: Addrs,
               ghost p: Path, ghost k: nat, pb: int, aflag: bool, fflag: bool)
    requires mp.Valid() && IsPath(p) && Prefix(p) && 0 < k <= |p| && Prefix(p[..k]) && |a0| == NADDR == |a|
    requires Once(Owned(d0, a0) + f0) && 0 < pb < |mp.disk| == |d|
    requires Grown(d0, a0, f0, d, a, multiset(mp.st), mp.isize, mp.fsize, p, aflag && k == |p|)
    requires Follow(d, a, p[..k]) == pb && d == (if aflag then mp.disk[pb := Zero] else mp.disk)
    requires mp.isize <= pb < mp.fsize <= |mp.disk| && (aflag ==> Follow(d0, a0, p) == 0)
    requires Follow(d0, a0, p) != 0 ==> mp.disk == d0 && multiset(mp.st) == f0
    requires fflag ==> k == |p|
    modifies mp`disk
    ensures mp.Valid() && |mp.disk| == |d|
    ensures k < |p| ==> mp.disk == d
    ensures k == |p| ==> AReadDone(d0, a0, f0, mp.disk, a, multiset(mp.st), mp.isize, mp.fsize, p, fflag, pb)
  {
    hide Owned, FileOwn, Walk, IsPath, Once, Grown, Mount.Valid, Follow, InRange, Prefix, Zero;
    GrownFacts(d0, a0, f0, d, a, multiset(mp.st), mp.isize, mp.fsize, p, aflag && k == |p|);
    FollowOwned(d, a, p[..k]);
    NotFree(Owned(d, a), mp.st, pb);
    if aflag || fflag {
      mp.Write(pb, Zero);
    }
    if k == |p| {
      assert p[..k] == p;
      GrowWrite(d0, a0, f0, d, a, multiset(mp.st), mp.isize, mp.fsize, p, mp.disk[pb]);
    }
  }

  lemma {:induction false} InAddr(mp: Mount, b: int)
    requires mp.Valid() && mp.isize <= b < mp.fsize
    ensures IsAddr(b)
  {
  }

  lemma {:induction false} NoBlock(d0: Disk, a0: Addrs, f0: multiset<int>, d: Disk, a: Addrs, f: multiset<int>,
                                   lo: int, hi: int, p: Path, fflag: bool)
    requires IsPath(p) && Prefix(p) && |a0| == NADDR && Grown(d0, a0, f0, d, a, f, lo, hi, p, false)
    requires Follow(d0, a0, p) == 0 && f == multiset([])
    ensures AReadDone(d0, a0, f0, d, a, f, lo, hi, p, fflag, 0)
  {
  }

  /** aread: the block of lb, allocated on the way if need be; 0 if lb is too large or the
      volume is full.  Nothing but the mapping of lb changes. */
  method ARead(mp: Mount, addr: array<int>, lb: nat, fflag: bool) returns (pb: int)
    requires addr.Length == NADDR && mp.Valid() && addr != mp.free
    requires Once(Owned(mp.disk, addr[..]) + multiset(mp.st)) && InRange(Owned(mp.disk, addr[..]), mp.isize, mp.fsize)
    modifies mp`nfree, mp`tfree, mp`st, mp`disk, mp.free, addr
    ensures mp.Valid() && |mp.disk| == |old(mp.disk)|
    ensures lb >= MAXBLOCKS ==> pb == 0 && mp.disk == old(mp.disk) && addr[..] == old(addr[..]) && mp.st == old(mp.st)
    ensures lb < MAXBLOCKS ==>
      AReadDone(old(mp.disk), old(addr[..]), multiset(old(mp.st)), mp.disk, addr[..], multiset(mp.st),
                mp.isize, mp.fsize, Classify(lb), fflag, pb)
  {
    hide AReadDone, Owned, FileOwn, Walk, Classify, Reverse, Prefix, IsPath, Once, Grown, Mount.Valid,
         Follow, InRange, Zero;
    var ok, list := LMap(lb);
    if !ok {
      return 0;
    }
    ghost var d0, a0, f0, p := mp.disk, addr[..], multiset(mp.st), Classify(lb);
    ClassifyIsPath(lb);
    VolumeSizes(mp);
    NotGrown(d0, a0, f0, mp.isize, mp.fsize, p);
    var lp := |list| - 1;
    ghost var d, k := d0, 1;
    var aflag;
    pb, aflag, d := RootBlock(mp, addr, p, list[lp]);
    if pb == 0 {
      NoBlock(d0, a0, f0, d0, a0, f0, mp.isize, mp.fsize, p, fflag);
      return;
    }
    ghost var a, was := addr[..], Follow(d0, a0, p);
    while true
      invariant 0 < k <= |p| && lp == |p| - k && Prefix(p[..k]) && mp.Valid() && addr[..] == a
      invariant mp.isize <= pb < mp.fsize <= |mp.disk| == |d0| && 0 < mp.isize
      invariant d == if aflag then mp.disk[pb := Zero] else mp.disk
      invariant Grown(d0, a0, f0, d, a, multiset(mp.st), mp.isize, mp.fsize, p, aflag && k == |p|)
      invariant Follow(d, a, p[..k]) == pb
      invariant aflag ==> was == 0
      invariant was != 0 ==> mp.disk == d0 && mp.st == old(mp.st)
      decreases lp
    {
      var lflag := lp == 0;
      Claim(mp, d0, a0, f0, d, a, p, k, pb, aflag, fflag && lflag);
      if lflag {
        return;
      }
      lp := lp - 1;
      var next;
      next, aflag, d := Descend(mp, d0, a0, f0, a, p, k, pb, list[lp]);
      if next == 0 {
        NoBlock(d0, a0, f0, mp.disk, a, multiset(mp.st), mp.isize, mp.fsize, p, fflag);
        return 0;
      }
      pb := next;
      k := k + 1;
    }
  }

  lemma {:induction false} GrownFacts(d0: Disk, a0: Addrs, f0: multiset<int>, d: Disk, a: Addrs, f: multiset<int>,
                                      lo: int, hi: int, p: Path, done: bool)
    requires |a0| == NADDR && IsPath(p) && Once(Owned(d0, a0) + f0) && Grown(d0, a0, f0, d, a, f, lo, hi, p, done)
    ensures |a| == NADDR && |d| == |d0| && Once(Owned(d, a) + f) && InRange(Owned(d, a), lo, hi)
    ensures Grown(d0, a0, f0, d, a, f, lo, hi, p, true)
    ensures !done ==> Prefix(p) && Follow(d, a, p) == Follow(d0, a0, p)
  {
    PathIsPrefix(p);
  }

  // ----- truncating a file ------------------------------------------------------------

  /** The blocks of a tree in the order indfree gives them back: the children from the
      last slot to the first, then the block itself. */
  ghost function Freed(disk: Disk, b: int, l: nat): (s: seq<int>)
    decreases l, 0
  {
    if b == 0 then []
    else if l == 0 || !(0 < b < |disk|) then [b]
    else FreedKids(disk, disk[b], l - 1, NBN) + [b]
  }

  ghost function FreedKids(disk: Disk, blk: Block, l: nat, n: nat): seq<int>
    requires n <= NBN
    decreases l, n + 1
  {
    if n == 0 then [] else Freed(disk, Entry(blk, n - 1), l) + FreedKids(disk, blk, l, n - 1)
  }

  lemma {:induction false} NoneFreed(disk: Disk, blk: Block, l: nat)
    ensures FreedKids(disk, blk, l, 0) == []
  {
  }

  /** Each block of the tree exactly once. */
  lemma {:induction false} FreedIsOwn(disk: Disk, b: int, l: nat)
    ensures multiset(Freed(disk, b, l)) == Own(disk, b, l)
    decreases l, 0
  {
    if b != 0 && l > 0 && 0 < b < |disk| {
      FreedKidsIsOwn(disk, disk[b], l - 1, NBN);
    }
  }

  lemma {:induction false} FreedKidsIsOwn(disk: Disk, blk: Block, l: nat, n: nat)
    requires n <= NBN
    ensures multiset(FreedKids(disk, blk, l, n)) == OwnKids(disk, blk, l, n)
    decreases l, n + 1
  {
    hide Own, OwnKids, Freed, FreedKids;
    if n > 0 {
      KidsUnfold(disk, blk, l, n);
      FreedKidsUnfold(disk, blk, l, n);
      FreedIsOwn(disk, Entry(blk, n - 1), l);
      FreedKidsIsOwn(disk, blk, l, n - 1);
    } else {
      EmptyKids(disk, blk, l, 0);
      NoneFreed(disk, blk, l);
    }
  }

  lemma {:induction false} FreedShallow(disk: Disk, disk': Disk, b: int, l: nat)
    requires |disk| == |disk'| && (l == 0 || !(0 < b < |disk|))
    ensures Freed(disk', b, l) == Freed(disk, b, l)
  {
  }

  lemma {:induction false} FreedFrame(disk: Disk, disk': Disk, b: int, l: nat)
    requires Agree(disk, disk', Own(disk, b, l))
    ensures Freed(disk', b, l) == Freed(disk, b, l)
    decreases l, 0
  {
    hide Own, OwnKids, Freed, FreedKids;
    if l > 0 && 0 < b < |disk| {
      OwnUnfold(disk, b, l);
      FreedUnfold(disk, b, l);
      FreedUnfold(disk', b, l);
      OwnsItself(disk, b, l);
      FreedKidsFrame(disk, disk', disk[b], l - 1, NBN);
    } else {
      FreedShallow(disk, disk', b, l);
    }
  }

  lemma {:induction false} FreedKidsFrame(disk: Disk, disk': Disk, blk: Block, l: nat, n: nat)
    requires n <= NBN && Agree(disk, disk', OwnKids(disk, blk, l, n))
    ensures FreedKids(disk', blk, l, n) == FreedKids(disk, blk, l, n)
    decreases l, n + 1
  {
    hide Own, OwnKids, Freed, FreedKids;
    if n > 0 {
      KidsUnfold(disk, blk, l, n);
      FreedKidsUnfold(disk, blk, l, n);
      FreedKidsUnfold(disk', blk, l, n);
      FreedFrame(disk, disk', Entry(blk, n - 1), l);
      FreedKidsFrame(disk, disk', blk, l, n - 1);
    } else {
      NoneFreed(disk, blk, l);
      NoneFreed(disk', blk, l);
    }
  }

  /** disk' differs from disk only where m says. */
  ghost predicate Only(disk: Disk, disk': Disk, m: multiset<int>) {
    |disk| == |disk'| && forall x {:trigger disk'[x]} :: 0 <= x < |disk| && m[x] == 0 ==> disk'[x] == disk[x]
  }

  lemma {:induction false} GoneApart(d0: Disk, d: Disk, m: multiset<int>, gone: multiset<int>)
    requires Only(d0, d, gone) && Once(m + gone)
    ensures Agree(d0, d, m)
  {
    forall x | 0 <= x < |d0| && m[x] > 0 ensures d[x] == d0[x] {
      assert (m + gone)[x] <= 1;
    }
  }

  /** A lone block goes back. */
  method FreeOne(mp: Mount, b: int)
    requires mp.Valid() && b != 0 && InRange(multiset{b}, mp.isize, mp.fsize) && Once(multiset{b} + multiset(mp.st))
    modifies mp`nfree, mp`tfree, mp`st, mp`disk, mp.free
    ensures mp.Valid() && mp.st == old(mp.st) + [b] && Only(old(mp.disk), mp.disk, multiset{b})
  {
    hide Mount.Valid;
    NotFree(multiset{b}, mp.st, b);
    assert multiset{b}[b] > 0;
    mp.BFree(b);
  }

  /** Give back the child under one slot, gone being what went before. */
  method FreeSlot(mp: Mount, b1: int, l: nat, ghost d0: Disk, ghost gone: multiset<int>)
    requires mp.Valid() && Only(d0, mp.disk, gone)
    requires Once(Own(d0, b1, l) + gone) && Once(Own(d0, b1, l) + multiset(mp.st))
    requires InRange(Own(d0, b1, l), mp.isize, mp.fsize)
    modifies mp`nfree, mp`tfree, mp`st, mp`disk, mp.free
    ensures mp.Valid() && mp.st == old(mp.st) + Freed(d0, b1, l)
    ensures Only(d0, mp.disk, gone + Own(d0, b1, l))
    decreases l, 1
  {
    hide Own, Freed, Once, InRange, Mount.Valid;
    GoneApart(d0, mp.disk, Own(d0, b1, l), gone);
    OwnFrame(d0, mp.disk, b1, l);
    FreedFrame(d0, mp.disk, b1, l);
    if b1 == 0 {
      HoleFreed(d0, l);
    } else if l == 0 {
      LeafOwnsSelf(d0, b1);
      LeafFreed(d0, b1);
      FreeOne(mp, b1);
    } else {
      IndFree(mp, b1, l);
    }
  }

  lemma {:induction false} HoleFreed(disk: Disk, l: nat)
    ensures Freed(disk, 0, l) == [] && Own(disk, 0, l) == multiset{}
  {
  }

  lemma {:induction false} LeafFreed(disk: Disk, b: int)
    requires b != 0
    ensures Freed(disk, b, 0) == [b]
  {
  }

  /** What is left of an indirect block when the slots from i on are done. */
  ghost predicate KidsLeft(d0: Disk, st0: seq<int>, blk: Block, l: nat, i: nat, d: Disk, st: seq<int>,
                           done: seq<int>, gone: multiset<int>)
    requires i <= NBN
  {
    && st == st0 + done && multiset(done) == gone && Only(d0, d, gone)
    && done + FreedKids(d0, blk, l, i) == FreedKids(d0, blk, l, NBN)
    && gone + OwnKids(d0, blk, l, i) == OwnKids(d0, blk, l, NBN)
  }

  lemma {:induction false} NextKid(d0: Disk, st0: seq<int>, blk: Block, l: nat, i: nat, d: Disk, st: seq<int>,
                                   done: seq<int>,
                                   gone: multiset<int>, lo: int, hi: int)
    requires 0 < i <= NBN && KidsLeft(d0, st0, blk, l, i, d, st, done, gone)
    requires Once(OwnKids(d0, blk, l, NBN) + multiset(st0)) && InRange(OwnKids(d0, blk, l, NBN), lo, hi)
    ensures var e := Own(d0, Entry(blk, i - 1), l);
      Once(e + gone) && Once(e + multiset(st)) && InRange(e, lo, hi) && Only(d0, d, gone)
  {
    hide Own, OwnKids, Freed, FreedKids, Only;
    KidsUnfold(d0, blk, l, i);
    var e, all := Own(d0, Entry(blk, i - 1), l), OwnKids(d0, blk, l, NBN);
    assert e + gone <= all;
    assert multiset(st) == multiset(st0) + gone;
    OncePart(e + gone, all + multiset(st0));
    OncePart(e + multiset(st), all + multiset(st0));
    forall x | e[x] > 0 ensures lo <= x < hi { assert e[x] <= all[x]; }
  }

  lemma {:induction false} KidDone(d0: Disk, st0: seq<int>, blk: Block, l: nat, i: nat, d: Disk, st: seq<int>,
                                   done: seq<int>,
                                   gone: multiset<int>, d': Disk, st': seq<int>)
    requires 0 < i <= NBN && KidsLeft(d0, st0, blk, l, i, d, st, done, gone)
    requires st' == st + Freed(d0, Entry(blk, i - 1), l) && Only(d0, d', gone + Own(d0, Entry(blk, i - 1), l))
    ensures KidsLeft(d0, st0, blk, l, i - 1, d', st', done + Freed(d0, Entry(blk, i - 1), l),
                     gone + Own(d0, Entry(blk, i - 1), l))
  {
    hide Own, OwnKids, Freed, FreedKids, Only;
    var b1 := Entry(blk, i - 1);
    KidsUnfold(d0, blk, l, i);
    FreedKidsUnfold(d0, blk, l, i);
    FreedIsOwn(d0, b1, l);
    assert done + Freed(d0, b1, l) + FreedKids(d0, blk, l, i - 1) == done + FreedKids(d0, blk, l, i);
  }

  lemma {:induction false} FreedKidsUnfold(disk: Disk, blk: Block, l: nat, n: nat)
    requires 0 < n <= NBN
    ensures FreedKids(disk, blk, l, n) == Freed(disk, Entry(blk, n - 1), l) + FreedKids(disk, blk, l, n - 1)
  {
  }

  lemma {:induction false} KidsStart(d0: Disk, st0: seq<int>, blk: Block, l: nat)
    ensures KidsLeft(d0, st0, blk, l, NBN, d0, st0, [], multiset{})
  {
  }

  lemma {:induction false} KidsEnd(d0: Disk, st0: seq<int>, blk: Block, l: nat, d: Disk, st: seq<int>,
                                   done: seq<int>, gone: multiset<int>)
    requires KidsLeft(d0, st0, blk, l, 0, d, st, done, gone)
    ensures st == st0 + FreedKids(d0, blk, l, NBN) && Only(d0, d, OwnKids(d0, blk, l, NBN))
  {
    EmptyKids(d0, blk, l, 0);
    assert done + FreedKids(d0, blk, l, 0) == done;
  }

  /** The loop of indfree, from the last slot to the first. */
  method FreeChildren(mp: Mount, blk: Block, l: nat)
    requires mp.Valid() && Once(OwnKids(mp.disk, blk, l, NBN) + multiset(mp.st))
    requires InRange(OwnKids(mp.disk, blk, l, NBN), mp.isize, mp.fsize)
    modifies mp`nfree, mp`tfree, mp`st, mp`disk, mp.free
    ensures mp.Valid() && mp.st == old(mp.st) + FreedKids(old(mp.disk), blk, l, NBN)
    ensures Only(old(mp.disk), mp.disk, OwnKids(old(mp.disk), blk, l, NBN))
    decreases l, 2
  {
    hide Own, OwnKids, Freed, FreedKids, Once, InRange, Mount.Valid, Only, KidsLeft, Entry;
    ghost var d0, st0, done, gone := mp.disk, mp.st, [], multiset{};
    KidsStart(d0, st0, blk, l);
    var i := NBN;
    while i > 0
      invariant 0 <= i <= NBN && mp.Valid() && KidsLeft(d0, st0, blk, l, i, mp.disk, mp.st, done, gone)
    {
      NextKid(d0, st0, blk, l, i, mp.disk, mp.st, done, gone, mp.isize, mp.fsize);
      i := i - 1;
      ghost var d, st := mp.disk, mp.st;
      var b1 := Entry(blk, i);
      FreeSlot(mp, b1, l, d0, gone);
      KidDone(d0, st0, blk, l, i + 1, d, st, done, gone, mp.disk, mp.st);
      done, gone := done + Freed(d0, b1, l), gone + Own(d0, b1, l);
    }
    KidsEnd(d0, st0, blk, l, mp.disk, mp.st, done, gone);
  }

  /** indfree: the whole tree of height l at b goes back to the free list, each block of it
      once, and no block outside the tree is written. */
  method IndFree(mp: Mount, b: int, l: nat)
    requires mp.Valid() && Once(Own(mp.disk, b, l) + multiset(mp.st)) && InRange(Own(mp.disk, b, l), mp.isize, mp.fsize)
    modifies mp`nfree, mp`tfree, mp`st, mp`disk, mp.free
    ensures mp.Valid() && mp.st == old(mp.st) + Freed(old(mp.disk), b, l)
    ensures Only(old(mp.disk), mp.disk, Own(old(mp.disk), b, l))
    decreases l, 0
  {
    hide Own, OwnKids, Freed, FreedKids, Once, Mount.Valid, Only;
    if b == 0 {
      HoleFreed(mp.disk, l);
      OnlySame(mp.disk, Own(mp.disk, b, l));
      return;
    }
    ghost var d0, st0 := mp.disk, mp.st;
    VolumeSizes(mp);
    if l > 0 {
      TreeParts(d0, st0, b, l, mp.isize, mp.fsize);
      FreeChildren(mp, mp.disk[b], l - 1);
    } else {
      LeafParts(d0, st0, b, mp.isize, mp.fsize);
    }
    ghost var d1 := mp.disk;
    FreeOne(mp, b);
    if l > 0 {
      assert mp.st == st0 + Freed(d0, b, l);
      OnlyBoth(d0, d1, mp.disk, OwnKids(d0, d0[b], l - 1, NBN), multiset{b});
    }
  }

  lemma {:induction false} OnlySame(d: Disk, m: multiset<int>)
    ensures Only(d, d, m)
  {
  }

  lemma {:induction false} OnlyBoth(d0: Disk, d1: Disk, d2: Disk, m: multiset<int>, n: multiset<int>)
    requires Only(d0, d1, m) && Only(d1, d2, n)
    ensures Only(d0, d2, m + n)
  {
  }

  lemma {:induction false} LeafParts(d0: Disk, st0: seq<int>, b: int, lo: int, hi: int)
    requires b != 0 && Once(Own(d0, b, 0) + multiset(st0)) && InRange(Own(d0, b, 0), lo, hi)
    ensures Own(d0, b, 0) == multiset{b} && Freed(d0, b, 0) == [b]
  {
  }

  lemma {:induction false} FreedUnfold(disk: Disk, b: int, l: nat)
    requires 0 < b < |disk| && l > 0
    ensures Freed(disk, b, l) == FreedKids(disk, disk[b], l - 1, NBN) + [b]
  {
  }

  lemma {:induction false} TreeParts(d0: Disk, st0: seq<int>, b: int, l: nat, lo: int, hi: int)
    requires b != 0 && l > 0 && 0 < lo <= hi <= |d0|
    requires Once(Own(d0, b, l) + multiset(st0)) && InRange(Own(d0, b, l), lo, hi)
    ensures 0 < b < |d0| && InRange(multiset{b}, lo, hi) && InRange(OwnKids(d0, d0[b], l - 1, NBN), lo, hi)
    ensures Own(d0, b, l) == OwnKids(d0, d0[b], l - 1, NBN) + multiset{b}
    ensures Freed(d0, b, l) == FreedKids(d0, d0[b], l - 1, NBN) + [b]
    ensures Once(OwnKids(d0, d0[b], l - 1, NBN) + multiset(st0))
    ensures Once(multiset{b} + multiset(st0 + FreedKids(d0, d0[b], l - 1, NBN)))
  {
    hide Own, OwnKids, Freed, FreedKids;
    OwnsItself(d0, b, l);
    OwnUnfold(d0, b, l);
    FreedUnfold(d0, b, l);
    var kids := OwnKids(d0, d0[b], l - 1, NBN);
    FreedKidsIsOwn(d0, d0[b], l - 1, NBN);
    assert multiset{b} + multiset(st0 + FreedKids(d0, d0[b], l - 1, NBN)) == Own(d0, b, l) + multiset(st0);
    OncePart(kids + multiset(st0), Own(d0, b, l) + multiset(st0));
    forall x | kids[x] > 0 ensures lo <= x < hi { assert kids[x] <= Own(d0, b, l)[x]; }
  }

  // ----- iclear ----------------------------------------------------------------------

  /** The blocks of the first n addresses in the order iclear gives them back. */
  ghost function FreedFile(disk: Disk, a: Addrs, n: nat): seq<int>
    requires n <= |a|
  {
    if n == 0 then [] else Freed(disk, a[n - 1], Height(n - 1)) + FreedFile(disk, a, n - 1)
  }

  lemma {:induction false} FreedFileIsOwned(disk: Disk, a: Addrs, n: nat)
    requires n <= |a|
    ensures multiset(FreedFile(disk, a, n)) == FileOwn(disk, a, n)
    decreases n
  {
    hide Own, Freed;
    if n > 0 {
      FileUnfold(disk, a, n);
      FreedIsOwn(disk, a[n - 1], Height(n - 1));
      FreedFileIsOwned(disk, a, n - 1);
    }
  }

  /** What is left of a file when the addresses from i on are done. */
  ghost predicate FileLeft(d0: Disk, st0: seq<int>, a: Addrs, i: nat, d: Disk, st: seq<int>, done: seq<int>,
                           gone: multiset<int>)
    requires i <= |a|
  {
    && st == st0 + done && multiset(done) == gone && Only(d0, d, gone)
    && done + FreedFile(d0, a, i) == FreedFile(d0, a, |a|)
    && gone + FileOwn(d0, a, i) == FileOwn(d0, a, |a|)
  }

  lemma {:induction false} NextRoot(d0: Disk, st0: seq<int>, a: Addrs, i: nat, d: Disk, st: seq<int>, done: seq<int>,
                                    gone: multiset<int>, lo: int, hi: int)
    requires 0 < i <= |a| && FileLeft(d0, st0, a, i, d, st, done, gone)
    requires Once(FileOwn(d0, a, |a|) + multiset(st0)) && InRange(FileOwn(d0, a, |a|), lo, hi)
    ensures var e := Own(d0, a[i - 1], Height(i - 1));
      Once(e + gone) && Once(e + multiset(st)) && InRange(e, lo, hi) && Only(d0, d, gone)
  {
    hide Own, FileOwn, Freed, FreedFile, Only;
    FileUnfold(d0, a, i);
    var e, all := Own(d0, a[i - 1], Height(i - 1)), FileOwn(d0, a, |a|);
    assert e + gone <= all;
    assert multiset(st) == multiset(st0) + gone;
    OncePart(e + gone, all + multiset(st0));
    OncePart(e + multiset(st), all + multiset(st0));
    forall x | e[x] > 0 ensures lo <= x < hi { assert e[x] <= all[x]; }
  }

  lemma {:induction false} RootDone(d0: Disk, st0: seq<int>, a: Addrs, i: nat, d: Disk, st: seq<int>, done: seq<int>,
                                    gone: multiset<int>, d': Disk, st': seq<int>)
    requires 0 < i <= |a| && FileLeft(d0, st0, a, i, d, st, done, gone)
    requires st' == st + Freed(d0, a[i - 1], Height(i - 1)) && Only(d0, d', gone + Own(d0, a[i - 1], Height(i - 1)))
    ensures FileLeft(d0, st0, a, i - 1, d', st', done + Freed(d0, a[i - 1], Height(i - 1)),
                     gone + Own(d0, a[i - 1], Height(i - 1)))
  {
    hide Own, FileOwn, Freed, Only;
    var f := Freed(d0, a[i - 1], Height(i - 1));
    FileUnfold(d0, a, i);
    FreedIsOwn(d0, a[i - 1], Height(i - 1));
    assert done + f + FreedFile(d0, a, i - 1) == done + FreedFile(d0, a, i);
  }

  lemma {:induction false} RootsEnds(d0: Disk, st0: seq<int>, a: Addrs)
    ensures FileLeft(d0, st0, a, |a|, d0, st0, [], multiset{})
    ensures forall d, st, done, gone :: FileLeft(d0, st0, a, 0, d, st, done, gone) ==>
      st == st0 + FreedFile(d0, a, |a|) && Only(d0, d, FileOwn(d0, a, |a|))
  {
    forall d, st, done, gone | FileLeft(d0, st0, a, 0, d, st, done, gone)
      ensures st == st0 + FreedFile(d0, a, |a|) && Only(d0, d, FileOwn(d0, a, |a|))
    {
      assert done + FreedFile(d0, a, 0) == done;
    }
  }

  /** iclear on a regular file or directory: every block of the file goes back to the free
      list exactly once, triple indirect tree first, and the inode is left without blocks. */
  method IClear(mp: Mount, addr: array<int>)
    requires addr.Length == NADDR && mp.Valid() && addr != mp.free
    requires Once(Owned(mp.disk, addr[..]) + multiset(mp.st)) && InRange(Owned(mp.disk, addr[..]), mp.isize, mp.fsize)
    modifies mp`nfree, mp`tfree, mp`st, mp`disk, mp.free, addr
    ensures mp.Valid() && mp.st == old(mp.st) + FreedFile(old(mp.disk), old(addr[..]), NADDR)
    ensures multiset(mp.st) == multiset(old(mp.st)) + Owned(old(mp.disk), old(addr[..]))
    ensures Only(old(mp.disk), mp.disk, Owned(old(mp.disk), old(addr[..])))
    ensures forall i :: 0 <= i < NADDR ==> addr[i] == 0
  {
    hide Own, FileOwn, Owned, Freed, FreedFile, Once, InRange, Mount.Valid, Only, FileLeft;
    ghost var d0, st0, done, gone, a := mp.disk, mp.st, [], multiset{}, addr[..];
    OwnedIs(d0, a);
    RootsEnds(d0, st0, a);
    FreedFileIsOwned(d0, a, NADDR);
    var n := NADDR;
    while n > ND
      invariant ND <= n <= NADDR && mp.Valid() && addr[..] == a && FileLeft(d0, st0, a, n, mp.disk, mp.st, done, gone)
    {
      NextRoot(d0, st0, a, n, mp.disk, mp.st, done, gone, mp.isize, mp.fsize);
      n := n - 1;
      ghost var d, st := mp.disk, mp.st;
      FreeSlot(mp, addr[n], 1 + n - ND, d0, gone);
      RootDone(d0, st0, a, n + 1, d, st, done, gone, mp.disk, mp.st);
      done, gone := done + Freed(d0, a[n], Height(n)), gone + Own(d0, a[n], Height(n));
    }
    while n > 0
      invariant 0 <= n <= ND && mp.Valid() && addr[..] == a && FileLeft(d0, st0, a, n, mp.disk, mp.st, done, gone)
    {
      NextRoot(d0, st0, a, n, mp.disk, mp.st, done, gone, mp.isize, mp.fsize);
      n := n - 1;
      ghost var d, st := mp.disk, mp.st;
      FreeSlot(mp, addr[n], 0, d0, gone);
      RootDone(d0, st0, a, n + 1, d, st, done, gone, mp.disk, mp.st);
      done, gone := done + Freed(d0, a[n], Height(n)), gone + Own(d0, a[n], Height(n));
    }
    forall i | 0 <= i < NADDR {
      addr[i] := 0;
    }
  }

  lemma {:induction false} OwnedIs(disk: Disk, a: Addrs)
    requires |a| == NADDR
    ensures Owned(disk, a) == FileOwn(disk, a, NADDR)
  {
  }
}
