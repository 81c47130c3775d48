/** disk.py on one file: making room for its blocks, writing and reading them. */
module DiskFiles {
  import opened Blocks
  import opened BlockMap
  import opened Trees
  import opened FileTrees
  import opened FreeList
  import opened Inodes
  import opened DiskImage

  /** The inode's file and the free blocks have no block twice, and it lies in the data area. */
  ghost predicate Placed(im: Image, a: Addrs)
    reads im
  {
    && |a| == NADDR && Once(Owned(im.disk, a) + multiset(im.st)) && InRange(Owned(im.disk, a), im.isize, im.fsize)
  }

  /** And the free list is sound. */
  ghost predicate Sound(im: Image, a: Addrs)
    reads im, im.free
  {
    im.Valid() && Placed(im, a)
  }

  /** What p leads to is there now; the volume was (d0, a0) with f0 free. */
  ghost predicate Ensured(im: Image, d0: Disk, a0: Addrs, f0: multiset<int>, a: Addrs, p: Path, res: int)
    reads im, im.free
  {
    && im.Valid() && Grown(d0, a0, f0, im.disk, a, multiset(im.st), im.isize, im.fsize, p, res != 0)
    && (res == 0 ==> im.st == [])
    && (res != 0 ==> Prefix(p) && im.isize <= res < im.fsize && Follow(im.disk, a, p) == res)
  }

  lemma {:induction false} ImageSizes(im: Image)
    requires im.Valid()
    ensures 0 < im.isize <= im.fsize <= |im.disk| && im.fsize <= 0x8000_0000
  {
  }

  lemma {:induction false} Weaker(d0: Disk, a0: Addrs, f0: multiset<int>, d: Disk, a: Addrs, f: multiset<int>,
                                  lo: int, hi: int, p: Path)
    requires Grown(d0, a0, f0, d, a, f, lo, hi, p, false)
    ensures Grown(d0, a0, f0, d, a, f, lo, hi, p, true)
  {
  }

  /** A new data block keeps what was in it. */
  lemma {:induction false} Unzeroed(d0: Disk, a0: Addrs, f0: multiset<int>, d: Disk, a: Addrs, f: multiset<int>,
                                    lo: int, hi: int, p: Path, blk: Block)
    requires IsPath(p) && Prefix(p) && |a0| == NADDR && Once(Owned(d0, a0) + f0)
    requires Grown(d0, a0, f0, d, a, f, lo, hi, p, true) && 0 < Follow(d, a, p) < |d|
    ensures Grown(d0, a0, f0, d[Follow(d, a, p) := blk], a, f, lo, hi, p, true)
    ensures Follow(d[Follow(d, a, p) := blk], a, p) == Follow(d, a, p)
  {
    GrowWrite(d0, a0, f0, d, a, f, lo, hi, p, blk);
  }

  /** A new block under slot p[k] of block indir: an indirect block is cleared. */
  method FreshChild(im: Image, indir: int, slot: nat, last: bool,
                    ghost d0: Disk, ghost a0: Addrs, ghost f0: multiset<int>,
                    ghost a: Addrs, ghost p: Path, ghost k: nat) returns (cur: int)
    requires im.Valid() && IsPath(p) && 0 < k < |p| && Prefix(p[..k]) && |a0| == NADDR == |a|
    requires Once(Owned(d0, a0) + f0)
    requires Grown(d0, a0, f0, im.disk, a, multiset(im.st), im.isize, im.fsize, p, false)
    requires Follow(im.disk, a, p[..k]) == indir && im.isize <= indir < im.fsize <= |im.disk|
    requires slot == p[k] < NBN && Entry(im.disk[indir], slot) == 0 && last == (k + 1 == |p|)
    modifies im`nfree, im`tfree, im`st, im`disk, im.free
    ensures cur >= 0
    ensures cur == 0 || last ==> Ensured(im, d0, a0, f0, a, p, cur)
    ensures cur != 0 && !last ==>
      && im.Valid() && im.isize <= cur < im.fsize && Prefix(p[..k + 1]) && Follow(im.disk, a, p[..k + 1]) == cur
      && Grown(d0, a0, f0, im.disk, a, multiset(im.st), im.isize, im.fsize, p, false)
  {
    hide FileOwn, Owned, Walk, IsPath, Once, Grown, Image.Valid, Follow, InRange, Prefix, Entry, SetEntry, Zero;
    GrownFacts(d0, a0, f0, im.disk, a, multiset(im.st), im.isize, im.fsize, p, false);
    ghost var d: Disk := im.disk;
    ghost var f := multiset(im.st);
    FollowOwned(d, a, p[..k]);
    cur := TakeFresh(im, indir, Owned(d, a));
    if cur == 0 {
      PathFacts(p, k);
      return;
    }
    LinkedEntry(d[indir], slot, cur);
    var linked := SetEntry(im.disk[indir], slot, cur);
    GrowBelow(d0, a0, f0, d, a, f, multiset(im.st), im.isize, im.fsize, p, k, indir, cur, linked);
    LinkIn(im, indir, linked, cur, last);
    if last {
      PathFacts(p, k);
      assert p[..k + 1] == p;
      Unzeroed2(d0, a0, f0, d, a, multiset(im.st), im.isize, im.fsize, p, indir, linked, cur);
    }
  }

  /** alloc_block while the blocks own, indir among them, are in use. */
  method TakeFresh(im: Image, indir: int, ghost own: multiset<int>) returns (cur: int)
    requires im.Valid() && Once(own + multiset(im.st)) && own[indir] > 0
    modifies im`nfree, im`tfree, im`st, im.free
    ensures im.Valid() && 0 < im.isize <= im.fsize <= |im.disk| && im.fsize <= 0x8000_0000
    ensures cur == 0 ==> im.st == old(im.st) == []
    ensures cur != 0 ==>
      && im.isize <= cur < im.fsize && multiset(old(im.st)) == multiset(im.st) + multiset{cur}
      && indir !in im.st && cur !in im.st && indir != cur
    ensures cur >= 0
  {
    hide Image.Valid, Once;
    ImageSizes(im);
    ghost var st := im.st;
    NotFree(own, st, indir);
    if st != [] {
      StackSplit(st);
      FreshOnce(own, st);
      StillNotFree(st, indir);
    }
    var bad;
    cur, bad := im.AllocBlock();
  }

  /** The block taken off the stack is not on it any more. */
  lemma {:induction false} FreshOnce(own: multiset<int>, st: seq<int>)
    requires st != [] && Once(own + multiset(st))
    ensures st[|st| - 1] !in st[..|st| - 1]
  {
    var s, c := st[..|st| - 1], st[|st| - 1];
    StackSplit(st);
    assert (own + multiset(st))[c] <= 1;
    assert multiset(s)[c] == 0;
  }

  /** The two writes: the new block cleared, unless it is for data, and linked in. */
  method LinkIn(im: Image, indir: int, linked: Block, cur: int, last: bool)
    requires im.Valid() && indir !in im.st && cur !in im.st && 0 <= indir < |im.disk| && 0 <= cur < |im.disk|
    requires indir != cur
    modifies im`disk
    ensures im.Valid()
    ensures im.disk == if last then old(im.disk)[indir := linked] else old(im.disk)[indir := linked][cur := Zero]
  {
    hide Image.Valid, Image.Loose, Zero;
    im.LooseIs();
    if !last {
      im.WriteBlock(cur, Zero);
    }
    im.WriteBlock(indir, linked);
  }

  lemma {:induction false} Unzeroed2(d0: Disk, a0: Addrs, f0: multiset<int>, d: Disk, a: Addrs, f: multiset<int>,
                                     lo: int, hi: int, p: Path, indir: int, linked: Block, cur: int)
    requires IsPath(p) && Prefix(p) && |a0| == NADDR && Once(Owned(d0, a0) + f0)
    requires 0 <= indir < |d| && 0 < cur < |d| && indir != cur
    requires Grown(d0, a0, f0, d[indir := linked][cur := Zero], a, f, lo, hi, p, true)
    requires |a| == NADDR && Follow(d[indir := linked][cur := Zero], a, p) == cur
    ensures Grown(d0, a0, f0, d[indir := linked], a, f, lo, hi, p, true) && Follow(d[indir := linked], a, p) == cur
  {
    hide Grown, Follow, Owned, Once, IsPath, Prefix, Zero;
    var d1: Disk := d[indir := linked][cur := Zero];
    Unzeroed(d0, a0, f0, d1, a, f, lo, hi, p, d[cur]);
    assert d1[cur := d[cur]] == d[indir := linked];
  }

  /** _ensure_indirect_child: coords is what is left of the path, below block indir. */
  method EnsureChild(im: Image, indir: int, coords: seq<nat>, ghost d0: Disk, ghost a0: Addrs, ghost f0: multiset<int>,
                     ghost a: Addrs, ghost p: Path, ghost k: nat) returns (res: int)
    requires im.Valid() && IsPath(p) && 0 < k < |p| && coords == p[k..] && Prefix(p[..k]) && |a0| == NADDR == |a|
    requires Once(Owned(d0, a0) + f0)
    requires Grown(d0, a0, f0, im.disk, a, multiset(im.st), im.isize, im.fsize, p, false)
    requires Follow(im.disk, a, p[..k]) == indir && im.isize <= indir < im.fsize
    modifies im`nfree, im`tfree, im`st, im`disk, im.free
    ensures Ensured(im, d0, a0, f0, a, p, res)
    decreases |coords|
  {
    hide FileOwn, Owned, Walk, IsPath, Once, Grown, Image.Valid, Follow, InRange, Prefix, Entry, Ensured;
    GrownFacts(d0, a0, f0, im.disk, a, multiset(im.st), im.isize, im.fsize, p, false);
    ImageSizes(im);
    FollowStep(im.disk, a, p, k);
    PathFacts(p, k);
    var slot := coords[0];
    var cur := Entry(im.disk[indir], slot);
    if cur == 0 {
      cur := FreshChild(im, indir, slot, |coords| == 1, d0, a0, f0, a, p, k);
      if cur == 0 || |coords| == 1 {
        return cur;
      }
    } else {
      FollowSafe(im.disk, a, p[..k + 1], im.isize, im.fsize);
      if |coords| == 1 {
        assert p[..k + 1] == p;
        Weaker(d0, a0, f0, im.disk, a, multiset(im.st), im.isize, im.fsize, p);
        Reached(im, d0, a0, f0, a, p, cur);
        return cur;
      }
    }
    res := EnsureChild(im, cur, coords[1..], d0, a0, f0, a, p, k + 1);
  }

  lemma {:induction false} Reached(im: Image, d0: Disk, a0: Addrs, f0: multiset<int>, a: Addrs, p: Path, res: int)
    requires im.Valid() && Grown(d0, a0, f0, im.disk, a, multiset(im.st), im.isize, im.fsize, p, true)
    requires res != 0 && Prefix(p) && im.isize <= res < im.fsize && |a| == NADDR && Follow(im.disk, a, p) == res
    ensures Ensured(im, d0, a0, f0, a, p, res)
  {
  }

  lemma {:induction false} PathFacts(p: Path, k: nat)
    requires IsPath(p) && 0 < k < |p|
    ensures p[k] < NBN && p[k..][0] == p[k] && p[k..][1..] == p[k + 1..] && p[..|p|] == p && Prefix(p)
  {
    PathIsPrefix(p);
  }

  lemma {:induction false} StillNotFree(st: seq<int>, b: int)
    requires st != [] && b !in st
    ensures b !in st[..|st| - 1]
  {
  }

  /** _ensure_data_block: the block of logical block idx, allocated with what it takes to
      reach it; 0 when the volume is full, -1 beyond the triple indirect limit. */
  method EnsureDataBlock(im: Image, addr: array<int>, idx: nat) returns (res: int)
    requires addr.Length == NADDR && addr != im.free && Sound(im, addr[..])
    modifies im`nfree, im`tfree, im`st, im`disk, im.free, addr
    ensures res == -1 <==> idx >= MAXBLOCKS
    ensures res == -1 ==> im.Valid() && addr[..] == old(addr[..]) && im.disk == old(im.disk) && im.st == old(im.st)
    ensures res != -1 ==>
      Ensured(im, old(im.disk), old(addr[..]), old(multiset(im.st)), addr[..], Classify(idx), res)
  {
    hide FileOwn, Owned, Walk, IsPath, Once, Grown, Image.Valid, Follow, InRange, Prefix, Classify;
    if idx >= MAXBLOCKS {
      return -1;
    }
    var p := Classify(idx);
    ClassifyIsPath(idx);
    res := EnsurePath(im, addr, p);
  }

  method EnsurePath(im: Image, addr: array<int>, p: Path) returns (res: int)
    requires addr.Length == NADDR && addr != im.free && Sound(im, addr[..]) && IsPath(p) && Prefix(p) && Prefix(p[..1])
    modifies im`nfree, im`tfree, im`st, im`disk, im.free, addr
    ensures res >= 0
    ensures Ensured(im, old(im.disk), old(addr[..]), old(multiset(im.st)), addr[..], p, res)
  {
    hide FileOwn, Owned, Walk, IsPath, Once, Grown, Image.Valid, Follow, InRange, Prefix, Ensured;
    ghost var d0, a0, f0 := im.disk, addr[..], multiset(im.st);
    RootSlot(im, d0, a0, p);
    var root := p[0];
    if addr[root] == 0 {
      var b := FreshRoot(im, addr, p);
      if b == 0 {
        return 0;
      }
      if |p| == 1 {
        return b;
      }
    } else {
      NotGrown(d0, a0, f0, im.isize, im.fsize, p);
      if |p| == 1 {
        Weaker(d0, a0, f0, im.disk, a0, f0, im.isize, im.fsize, p);
        AlreadyThere(im, d0, a0, f0, p);
        return addr[root];
      }
    }
    res := EnsureChild(im, addr[root], p[1..], d0, a0, f0, addr[..], p, 1);
    EnsuredSign(im, d0, a0, f0, addr[..], p, res);
  }

  lemma {:induction false} RootSlot(im: Image, d: Disk, a: Addrs, p: Path)
    requires Sound(im, a) && d == im.disk && IsPath(p) && Prefix(p[..1])
    ensures 0 <= p[0] < NADDR && 0 < |p| && Follow(d, a, p[..1]) == a[p[0]] && im.Valid()
    ensures 0 < im.isize <= im.fsize <= |d|
    ensures Once(Owned(d, a) + multiset(im.st)) && InRange(Owned(d, a), im.isize, im.fsize)
    ensures a[p[0]] == 0 || im.isize <= a[p[0]] < im.fsize
    ensures |p| == 1 ==> p[..1] == p
  {
    FollowRoot(d, a, p);
    FollowSafe(d, a, p[..1], im.isize, im.fsize);
  }

  lemma {:induction false} AlreadyThere(im: Image, d: Disk, a: Addrs, f: multiset<int>, p: Path)
    requires Sound(im, a) && d == im.disk && f == multiset(im.st) && IsPath(p) && |p| == 1 && a[p[0]] != 0
    requires Grown(d, a, f, d, a, f, im.isize, im.fsize, p, true)
    ensures Ensured(im, d, a, f, a, p, a[p[0]])
  {
    PathIsPrefix(p);
    assert p[..1] == p;
    RootSlot(im, d, a, p);
  }

  lemma {:induction false} EnsuredSign(im: Image, d0: Disk, a0: Addrs, f0: multiset<int>, a: Addrs, p: Path, res: int)
    requires Ensured(im, d0, a0, f0, a, p, res)
    ensures res >= 0
  {
    ImageSizes(im);
  }

  /** A new block for an address of the inode: an indirect block is cleared. */
  method FreshRoot(im: Image, addr: array<int>, p: Path) returns (b: int)
    requires addr.Length == NADDR && addr != im.free && Sound(im, addr[..]) && IsPath(p) && Prefix(p) && Prefix(p[..1])
    requires 0 <= p[0] < NADDR && addr[p[0]] == 0
    modifies im`nfree, im`tfree, im`st, im`disk, im.free, addr
    ensures b >= 0
    ensures b == 0 || |p| == 1 ==> Ensured(im, old(im.disk), old(addr[..]), old(multiset(im.st)), addr[..], p, b)
    ensures b != 0 && |p| > 1 ==>
      && im.Valid() && im.isize <= b < im.fsize && addr[p[0]] == b && Follow(im.disk, addr[..], p[..1]) == b
      && Grown(old(im.disk), old(addr[..]), old(multiset(im.st)), im.disk, addr[..], multiset(im.st),
                 im.isize, im.fsize, p, false)
  {
    hide FileOwn, Owned, Walk, IsPath, Once, Grown, Image.Valid, Follow, InRange, Prefix, Zero;
    ghost var d0: Disk := im.disk;
    ghost var a0, f0, st0 := addr[..], multiset(im.st), im.st;
    RootSlot(im, d0, a0, p);
    NotGrown(d0, a0, f0, im.isize, im.fsize, p);
    if im.st != [] { StackSplit(im.st); }
    var bad;
    b, bad := im.AllocBlock();
    if b == 0 {
      return;
    }
    FreshOnce(Owned(d0, a0), st0);
    addr[p[0]] := b;
    GrowRoot(d0, a0, f0, multiset(im.st), im.isize, im.fsize, p, b);
    if |p| > 1 {
      im.LooseIs();
      im.WriteBlock(b, Zero);
    } else {
      ghost var d1: Disk := d0[b := Zero];
      assert p[..1] == p;
      Unzeroed(d0, a0, f0, d1, addr[..], multiset(im.st), im.isize, im.fsize, p, d0[b]);
      assert im.disk == d1[b := d0[b]];
    }
  }

  // ----- the whole of a file ---------------------------------------------------------------

  /** Between two states of the volume, blocks have only moved between the file and the
      free list, and no block of anything else was written. */
  ghost predicate Kept(d0: Disk, a0: Addrs, f0: multiset<int>, d: Disk, a: Addrs, f: multiset<int>) {
    && |a0| == |a| == NADDR && |d| == |d0| && Owned(d, a) + f == Owned(d0, a0) + f0
    && forall x {:trigger d[x]} :: 0 <= x < |d| && d[x] != d0[x] ==> (Owned(d0, a0) + f0)[x] > 0
  }

  lemma {:induction false} KeptSelf(d: Disk, a: Addrs, f: multiset<int>)
    requires |a| == NADDR
    ensures Kept(d, a, f, d, a, f)
  {
  }

  lemma {:induction false} KeptTwice(d0: Disk, a0: Addrs, f0: multiset<int>, d1: Disk, a1: Addrs, f1: multiset<int>,
                                     d2: Disk, a2: Addrs, f2: multiset<int>)
    requires Kept(d0, a0, f0, d1, a1, f1) && Kept(d1, a1, f1, d2, a2, f2)
    ensures Kept(d0, a0, f0, d2, a2, f2)
  {
    hide Owned;
    forall x | 0 <= x < |d2| && d2[x] != d0[x] ensures (Owned(d0, a0) + f0)[x] > 0 {
      if d1[x] == d0[x] { assert (Owned(d1, a1) + f1)[x] > 0; }
    }
  }

  lemma {:induction false} GrownIsKept(d0: Disk, a0: Addrs, f0: multiset<int>, d: Disk, a: Addrs, f: multiset<int>,
                                       lo: int, hi: int, p: Path, done: bool)
    requires Grown(d0, a0, f0, d, a, f, lo, hi, p, done)
    ensures Kept(d0, a0, f0, d, a, f)
  {
  }

  lemma {:induction false} KeptSound(im: Image, d0: Disk, a0: Addrs, f0: multiset<int>, a: Addrs, f: multiset<int>)
    requires im.Valid() && f == multiset(im.st) && |a0| == NADDR && Once(Owned(d0, a0) + f0)
    requires Kept(d0, a0, f0, im.disk, a, f) && InRange(Owned(im.disk, a), im.isize, im.fsize)
    ensures Sound(im, a)
  {
  }

  /** The first logical blocks of the file are these blocks. */
  ghost predicate Mapped(d: Disk, a: Addrs, blocks: seq<int>, lo: int, hi: int) {
    && |a| == NADDR && |blocks| <= MAXBLOCKS
    && forall j {:trigger blocks[j]} :: 0 <= j < |blocks| ==>
      Prefix(Classify(j)) && Follow(d, a, Classify(j)) == blocks[j] && lo <= blocks[j] < hi
  }

  lemma {:induction false} MapMore(d0: Disk, a0: Addrs, f0: multiset<int>, d: Disk, a: Addrs, f: multiset<int>,
                                   lo: int, hi: int, blocks: seq<int>, res: int)
    requires Mapped(d0, a0, blocks, lo, hi) && |blocks| < MAXBLOCKS && |a| == NADDR
    requires Grown(d0, a0, f0, d, a, f, lo, hi, Classify(|blocks|), true)
    requires Prefix(Classify(|blocks|)) && Follow(d, a, Classify(|blocks|)) == res && lo <= res < hi
    ensures Mapped(d, a, blocks + [res], lo, hi)
  {
    hide Follow, Classify, IsPath, Prefix, Owned;
    var i := |blocks|;
    PathOfIndex(i);
    forall j | 0 <= j < i
      ensures Prefix(Classify(j)) && Follow(d, a, Classify(j)) == blocks[j]
    {
      PathOfIndex(j);
      ClassifyIsPath(j);
      assert blocks[j] == Follow(d0, a0, Classify(j));
      GrownElsewhere(d0, a0, f0, d, a, f, lo, hi, Classify(i), Classify(j));
    }
  }

  lemma {:induction false} GrownElsewhere(d0: Disk, a0: Addrs, f0: multiset<int>, d: Disk, a: Addrs, f: multiset<int>,
                                          lo: int, hi: int, p: Path, q: Path)
    requires Grown(d0, a0, f0, d, a, f, lo, hi, p, true) && IsPath(q) && Prefix(q) && q != p && |a| == NADDR == |a0|
    ensures Follow(d, a, q) == Follow(d0, a0, q)
  {
  }

  /** A file extended on the way to logical block idx is no fuller elsewhere. */
  lemma {:induction false} LeanGrown(d0: Disk, a0: Addrs, f0: multiset<int>, d: Disk, a: Addrs, f: multiset<int>,
                                     lo: int, hi: int, idx: nat, done: bool, m: nat)
    requires idx < MAXBLOCKS && idx < m && Lean(d0, a0, m)
    requires Grown(d0, a0, f0, d, a, f, lo, hi, Classify(idx), done)
    ensures Lean(d, a, m)
  {
    hide Follow, Classify, IsPath, Owned, First, Prefix;
    forall q | Prefix(q) && Follow(d, a, q) != 0 ensures First(q) < m {
      if Follow(d0, a0, q) == 0 { FirstOfPart(q, idx); }
    }
  }

  /** Logical blocks from n on are what they were. */
  ghost predicate SameBehind(d0: Disk, a0: Addrs, d: Disk, a: Addrs, n: nat) {
    |a0| == |a| == NADDR &&
    forall k: nat {:trigger FileBlock(d, a, k)} :: n <= k < MAXBLOCKS ==> FileBlock(d, a, k) == FileBlock(d0, a0, k)
  }

  lemma {:induction false} SameGrown(d0: Disk, a0: Addrs, f0: multiset<int>, d: Disk, a: Addrs, f: multiset<int>,
                                     lo: int, hi: int, idx: nat, done: bool, n: nat)
    requires idx < MAXBLOCKS && idx < n && |a0| == NADDR
    requires Grown(d0, a0, f0, d, a, f, lo, hi, Classify(idx), done)
    ensures SameBehind(d0, a0, d, a, n)
  {
    hide Follow, Classify, IsPath, Owned, Prefix;
    forall k: nat | n <= k < MAXBLOCKS ensures FileBlock(d, a, k) == FileBlock(d0, a0, k) {
      ClassifyIsPath(k);
      PathOfIndex(k);
      PathOfIndex(idx);
    }
  }

  lemma {:induction false} SameTwice(d0: Disk, a0: Addrs, d1: Disk, a1: Addrs, d2: Disk, a2: Addrs, n: nat)
    requires SameBehind(d0, a0, d1, a1, n) && SameBehind(d1, a1, d2, a2, n)
    ensures SameBehind(d0, a0, d2, a2, n)
  {
    hide FileBlock;
    forall k: nat | n <= k < MAXBLOCKS ensures FileBlock(d2, a2, k) == FileBlock(d0, a0, k) {
      assert FileBlock(d1, a1, k) == FileBlock(d0, a0, k);
    }
  }

  lemma {:induction false} SameSelf(d: Disk, a: Addrs, n: nat)
    requires |a| == NADDR
    ensures SameBehind(d, a, d, a, n)
  {
  }

  /** _grow_to_n_blocks. */
  method GrowTo(im: Image, addr: array<int>, n: nat) returns (ok: bool, blocks: seq<int>)
    requires addr.Length == NADDR && addr != im.free && Sound(im, addr[..])
    modifies im`nfree, im`tfree, im`st, im`disk, im.free, addr
    ensures Sound(im, addr[..])
    ensures Kept(old(im.disk), old(addr[..]), old(multiset(im.st)), im.disk, addr[..], multiset(im.st))
    ensures ok ==> |blocks| == n && Mapped(im.disk, addr[..], blocks, im.isize, im.fsize)
    ensures n > MAXBLOCKS ==> !ok
    ensures !ok ==> n > MAXBLOCKS || im.st == []
    ensures SameBehind(old(im.disk), old(addr[..]), im.disk, addr[..], n)
    ensures forall m: nat :: n <= m && Lean(old(im.disk), old(addr[..]), m) ==> Lean(im.disk, addr[..], m)
  {
    hide Sound, Kept, Mapped, Ensured, Classify, Owned, SameBehind, Lean, Grown;
    ghost var d0, a0, f0 := im.disk, addr[..], multiset(im.st);
    blocks := [];
    SameSelf(d0, a0, n);
    KeptSelf(d0, a0, f0);
    MappedNone(im.disk, addr[..], im.isize, im.fsize);
    var i := 0;
    while i < n
      invariant 0 <= i == |blocks| <= n && i <= MAXBLOCKS && Sound(im, addr[..])
      invariant Kept(d0, a0, f0, im.disk, addr[..], multiset(im.st))
      invariant Mapped(im.disk, addr[..], blocks, im.isize, im.fsize)
      invariant SameBehind(d0, a0, im.disk, addr[..], n)
      invariant forall m: nat :: n <= m && Lean(d0, a0, m) ==> Lean(im.disk, addr[..], m)
    {
      ghost var d1, a1, f1 := im.disk, addr[..], multiset(im.st);
      SoundIs(im, a1);
      var b := EnsureDataBlock(im, addr, i);
      if b == -1 {
        KeptSound(im, d1, a1, f1, addr[..], multiset(im.st)) by { KeptSelf(d1, a1, f1); }
        return false, blocks;
      }
      EnsuredIs(im, d1, a1, f1, addr[..], Classify(i), b);
      KeptSound(im, d1, a1, f1, addr[..], multiset(im.st));
      KeptTwice(d0, a0, f0, d1, a1, f1, im.disk, addr[..], multiset(im.st));
      SameGrown(d1, a1, f1, im.disk, addr[..], multiset(im.st), im.isize, im.fsize, i, b != 0, n);
      SameTwice(d0, a0, d1, a1, im.disk, addr[..], n);
      forall m: nat | n <= m && Lean(d1, a1, m) ensures Lean(im.disk, addr[..], m) {
        LeanGrown(d1, a1, f1, im.disk, addr[..], multiset(im.st), im.isize, im.fsize, i, b != 0, m);
      }
      if b == 0 {
        return false, blocks;
      }
      MapMore(d1, a1, f1, im.disk, addr[..], multiset(im.st), im.isize, im.fsize, blocks, b);
      blocks := blocks + [b];
      i := i + 1;
    }
    return true, blocks;
  }

  lemma {:induction false} SoundIs(im: Image, a: Addrs)
    requires Sound(im, a)
    ensures im.Valid() && |a| == NADDR && Once(Owned(im.disk, a) + multiset(im.st))
    ensures InRange(Owned(im.disk, a), im.isize, im.fsize)
  {
  }

  lemma {:induction false} MappedNone(d: Disk, a: Addrs, lo: int, hi: int)
    requires |a| == NADDR
    ensures Mapped(d, a, [], lo, hi)
  {
  }

  lemma {:induction false} EnsuredIs(im: Image, d0: Disk, a0: Addrs, f0: multiset<int>, a: Addrs, p: Path, res: int)
    requires Ensured(im, d0, a0, f0, a, p, res) && |a0| == NADDR
    ensures im.Valid() && |a| == NADDR && InRange(Owned(im.disk, a), im.isize, im.fsize)
    ensures Grown(d0, a0, f0, im.disk, a, multiset(im.st), im.isize, im.fsize, p, res != 0)
    ensures Kept(d0, a0, f0, im.disk, a, multiset(im.st))
    ensures res == 0 ==> im.st == []
    ensures res != 0 ==> Prefix(p) && im.isize <= res < im.fsize && Follow(im.disk, a, p) == res
  {
    GrownIsKept(d0, a0, f0, im.disk, a, multiset(im.st), im.isize, im.fsize, p, res != 0);
  }

  /** Block j of the data, padded with zeros. */
  function Chunk(data: seq<byte>, j: nat): Block {
    seq(BSIZE, k requires 0 <= k < BSIZE => if j * BSIZE + k < |data| then data[j * BSIZE + k] else 0)
  }

  /** Writing logical block j of a file keeps its map and what the other blocks hold. */
  lemma {:induction false} WriteOne(d: Disk, a: Addrs, f: multiset<int>, blocks: seq<int>, lo: int, hi: int, j: nat,
                                    blk: Block)
    requires Mapped(d, a, blocks, lo, hi) && j < |blocks| && Once(Owned(d, a)) && 0 < lo && hi <= |d|
    ensures var d' := d[blocks[j] := blk];
      Mapped(d', a, blocks, lo, hi) && Owned(d', a) == Owned(d, a) && Kept(d, a, f, d', a, f)
    ensures forall i {:trigger blocks[i]} :: 0 <= i < |blocks| && i != j ==> blocks[i] != blocks[j]
    ensures Owned(d, a)[blocks[j]] > 0
    ensures forall p {:trigger Follow(d[blocks[j] := blk], a, p)} :: Prefix(p) ==>
      Follow(d[blocks[j] := blk], a, p) == Follow(d, a, p)
  {
    hide Follow, Classify, IsPath, Prefix, Owned, Once;
    var pb := blocks[j];
    var d' := d[pb := blk];
    ClassifyIsPath(j);
    assert blocks[j] == Follow(d, a, Classify(j));
    FollowOwned(d, a, Classify(j));
    WriteLeaf(d, d', a, Classify(j));
    forall i | 0 <= i < |blocks|
      ensures Prefix(Classify(i)) && Follow(d', a, Classify(i)) == blocks[i] && (i != j ==> blocks[i] != pb)
    {
      ClassifyIsPath(i);
      assert blocks[i] == Follow(d, a, Classify(i));
      if i != j { OtherBlock(d, a, i, j); }
    }
    OneWritten(d, a, f, pb, blk);
  }

  lemma {:induction false} OtherBlock(d: Disk, a: Addrs, i: nat, j: nat)
    requires |a| == NADDR && i < MAXBLOCKS && j < MAXBLOCKS && i != j && Once(Owned(d, a))
    requires Prefix(Classify(i)) && Prefix(Classify(j)) && Follow(d, a, Classify(i)) > 0
    ensures Follow(d, a, Classify(i)) != Follow(d, a, Classify(j))
  {
    hide Follow, Classify, IsPath, Prefix, Owned, Once;
    PathOfIndex(i);
    PathOfIndex(j);
    FollowInjective(d, a, Classify(i), Classify(j));
  }

  lemma {:induction false} OneWritten(d: Disk, a: Addrs, f: multiset<int>, pb: int, blk: Block)
    requires |a| == NADDR && 0 <= pb < |d| && Owned(d, a)[pb] > 0 && Owned(d[pb := blk], a) == Owned(d, a)
    ensures Kept(d, a, f, d[pb := blk], a, f)
  {
    hide Owned;
    assert (Owned(d, a) + f)[pb] > 0;
  }

  /** Nothing is mapped to another place. */
  ghost predicate SamePaths(d0: Disk, d: Disk, a: Addrs) {
    |a| == NADDR && forall p {:trigger Follow(d, a, p)} :: Prefix(p) ==> Follow(d, a, p) == Follow(d0, a, p)
  }

  lemma {:induction false} SamePathsTwice(d0: Disk, d1: Disk, d: Disk, a: Addrs)
    requires SamePaths(d0, d1, a) && SamePaths(d1, d, a)
    ensures SamePaths(d0, d, a)
  {
    hide Follow, Prefix;
    forall p | Prefix(p) ensures Follow(d, a, p) == Follow(d0, a, p) {
      assert Follow(d1, a, p) == Follow(d0, a, p);
    }
  }

  lemma {:induction false} SamePathsSelf(d: Disk, a: Addrs)
    requires |a| == NADDR
    ensures SamePaths(d, d, a)
  {
  }

  /** The loop of write_file over the blocks. */
  method WriteData(im: Image, addr: array<int>, blocks: seq<int>, data: seq<byte>)
    requires addr.Length == NADDR && addr != im.free && Sound(im, addr[..])
    requires Mapped(im.disk, addr[..], blocks, im.isize, im.fsize)
    modifies im`disk
    ensures Sound(im, addr[..]) && Mapped(im.disk, addr[..], blocks, im.isize, im.fsize) && im.st == old(im.st)
    ensures Kept(old(im.disk), addr[..], multiset(im.st), im.disk, addr[..], multiset(im.st))
    ensures SamePaths(old(im.disk), im.disk, addr[..])
    ensures forall j {:trigger blocks[j]} :: 0 <= j < |blocks| ==>
      0 <= blocks[j] < |im.disk| && im.disk[blocks[j]] == Chunk(data, j)
  {
    hide Sound, Mapped, Chunk, Owned, Kept, Image.Valid, Follow, Prefix;
    ghost var d0, a, f := im.disk, addr[..], multiset(im.st);
    SamePathsSelf(d0, a);
    KeptSelf(d0, a, f);
    MappedIn(im.disk, a, blocks, im.isize, im.fsize);
    SoundIs(im, a);
    ImageSizes(im);
    var i := 0;
    while i < |blocks|
      invariant 0 <= i <= |blocks| && Sound(im, a) && Mapped(im.disk, a, blocks, im.isize, im.fsize)
      invariant |im.disk| == |d0|
      invariant Kept(d0, a, f, im.disk, a, f)
      invariant SamePaths(d0, im.disk, a)
      invariant forall j {:trigger blocks[j]} :: 0 <= j < i ==> im.disk[blocks[j]] == Chunk(data, j)
    {
      ghost var d := im.disk;
      SoundIs(im, a);
      OncePart(Owned(d, a), Owned(d, a) + f);
      WriteOne(d, a, f, blocks, im.isize, im.fsize, i, Chunk(data, i));
      NotFree(Owned(d, a), im.st, blocks[i]);
      im.LooseIs();
      im.WriteBlock(blocks[i], Chunk(data, i));
      KeptTwice(d0, a, f, d, a, f, im.disk, a, f);
      assert SamePaths(d, im.disk, a);
      SamePathsTwice(d0, d, im.disk, a);
      KeptSound(im, d, a, f, a, f);
      i := i + 1;
    }
  }

  lemma {:induction false} MappedIn(d: Disk, a: Addrs, blocks: seq<int>, lo: int, hi: int)
    requires Mapped(d, a, blocks, lo, hi)
    ensures |blocks| <= MAXBLOCKS && forall j {:trigger blocks[j]} :: 0 <= j < |blocks| ==> lo <= blocks[j] < hi
  {
  }

  // ----- what a file holds --------------------------------------------------------------------

  /** The physical block of logical block i: 0 for a hole. */
  ghost function FileBlock(d: Disk, a: Addrs, i: nat): int
    requires |a| == NADDR && i < MAXBLOCKS
  {
    ClassifyIsPath(i);
    Follow(d, a, Classify(i))
  }

  ghost function ByteAt(d: Disk, a: Addrs, k: nat): byte
    requires |a| == NADDR && k < MAXBLOCKS * BSIZE
  {
    var w := FileBlock(d, a, k / BSIZE);
    if 0 < w < |d| then d[w][k % BSIZE] else 0
  }

  /** The file's bytes: holes read as zeros. */
  ghost function Content(d: Disk, a: Addrs, size: nat): (c: seq<byte>)
    requires |a| == NADDR && size <= MAXBLOCKS * BSIZE
    ensures |c| == size && forall k {:trigger c[k]} :: 0 <= k < size ==> c[k] == ByteAt(d, a, k)
  {
    seq(size, k requires 0 <= k < size => ByteAt(d, a, k))
  }

  function BlocksOf(size: nat): nat { (size + BSIZE - 1) / BSIZE }

  lemma {:induction false} WrittenContent(d: Disk, a: Addrs, blocks: seq<int>, lo: int, hi: int, data: seq<byte>)
    requires Mapped(d, a, blocks, lo, hi) && 0 < lo && hi <= |d| && |blocks| == BlocksOf(|data|)
    requires forall j {:trigger blocks[j]} :: 0 <= j < |blocks| ==>
      0 <= blocks[j] < |d| && d[blocks[j]] == Chunk(data, j)
    ensures |data| <= MAXBLOCKS * BSIZE && Content(d, a, |data|) == data
  {
    hide Follow, Classify;
    var c := Content(d, a, |data|);
    forall k | 0 <= k < |data| ensures c[k] == data[k] {
      var j := k / BSIZE;
      assert blocks[j] == FileBlock(d, a, j);
      assert k == j * BSIZE + k % BSIZE;
    }
  }

  /** A file that lies among blocks nobody writes keeps its bytes. */
  lemma {:induction false} OtherFile(d: Disk, d': Disk, b: Addrs, size: nat, written: multiset<int>)
    requires |b| == NADDR && size <= MAXBLOCKS * BSIZE && |d'| == |d| && Once(Owned(d, b) + written)
    requires forall x {:trigger d'[x]} :: 0 <= x < |d| && d'[x] != d[x] ==> written[x] > 0
    ensures Content(d', b, size) == Content(d, b, size) && Owned(d', b) == Owned(d, b)
  {
    hide Follow, Classify, FileOwn, Once;
    forall x | 0 <= x < |d| && Owned(d, b)[x] > 0 ensures d'[x] == d[x] {
      OnceAt(Owned(d, b), written, x);
    }
    assert Agree(d, d', Owned(d, b));
    FileFrame(d, d', b, NADDR);
    forall k | 0 <= k < size ensures ByteAt(d', b, k) == ByteAt(d, b, k) {
      var i := k / BSIZE;
      ClassifyIsPath(i);
      FollowFrame(d, d', b, Classify(i));
      FollowOwned(d, b, Classify(i));
    }
  }

  lemma {:induction false} OnceAt(m: multiset<int>, n: multiset<int>, x: int)
    requires Once(m + n) && m[x] > 0
    ensures n[x] == 0
  {
    assert (m + n)[x] <= 1;
  }
}
