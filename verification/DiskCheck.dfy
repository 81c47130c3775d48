/** disk.py's walk of the inodes and the free list it rebuilds from it. */
module DiskCheck {
  import opened Blocks
  import opened BlockMap
  import opened Trees
  import opened FileTrees
  import opened FreeList
  import opened Inodes
  import opened DiskImage
  import opened DiskFiles
  import opened DiskShrink
  import opened DiskContent

  /** The blocks met on the way to the first m leaves of the tree at b.  A block that is
      off the image is met, but not entered. */
  ghost function Reach(d: Disk, b: int, l: nat, m: int): set<int>
    decreases l, 0
  {
    if m <= 0 || b == 0 then {}
    else if l == 0 || !(0 <= b < |d|) then {b}
    else {b} + KidsReach(d, d[b], l - 1, NBN, m)
  }

  ghost function KidsReach(d: Disk, blk: Block, l: nat, n: nat, m: int): set<int>
    requires n <= NBN
    decreases l, n + 1
  {
    if n == 0 then {} else KidsReach(d, blk, l, n - 1, m) + Reach(d, Entry(blk, n - 1), l, m - (n - 1) * Span(l))
  }

  /** The same over the first n addresses of an inode with m logical blocks. */
  ghost function FileReach(d: Disk, a: Addrs, n: nat, m: nat): set<int>
    requires n <= |a| == NADDR
  {
    if n == 0 then {} else FileReach(d, a, n - 1, m) + Reach(d, a[n - 1], Height(n - 1), m - Base(n - 1))
  }

  predicate Inside(im: Image, b: int) { im.isize <= b < im.fsize }

  /** What the tool records of a set of blocks. */
  ghost function Noted(im: Image, s: set<int>): set<int> {
    set b | b in s && Inside(im, b)
  }

  lemma {:induction false} NotedBoth(im: Image, s: set<int>, t: set<int>)
    ensures Noted(im, s + t) == Noted(im, s) + Noted(im, t) && Noted(im, {}) == {}
  {
  }

  lemma {:induction false} KidsReachNext(d: Disk, blk: Block, l: nat, n: nat, m: int)
    requires n < NBN
    ensures KidsReach(d, blk, l, n + 1, m) == KidsReach(d, blk, l, n, m) + Reach(d, Entry(blk, n), l, m - n * Span(l))
    ensures KidsReach(d, blk, l, 0, m) == {}
  {
  }

  /** Slots behind the last leaf wanted are not looked at. */
  lemma {:induction false} KidsReachRest(d: Disk, blk: Block, l: nat, n: nat, m: int)
    requires n <= NBN && m <= n * Span(l)
    ensures KidsReach(d, blk, l, NBN, m) == KidsReach(d, blk, l, n, m)
    decreases NBN - n
  {
    hide Reach, KidsReach, Span;
    if n < NBN {
      KidsReachNext(d, blk, l, n, m);
      NoReach(d, Entry(blk, n), l, m - n * Span(l));
      SpanStep(l);
      assert (n + 1) * Span(l) == n * Span(l) + Span(l);
      KidsReachRest(d, blk, l, n + 1, m);
    }
  }

  lemma {:induction false} NoReach(d: Disk, b: int, l: nat, m: int)
    requires m <= 0 || b == 0
    ensures Reach(d, b, l, m) == {}
  {
  }

  lemma {:induction false} ReachUnfold(d: Disk, b: int, l: nat, m: int)
    requires m > 0 && b != 0
    ensures Reach(d, b, l, m) == if l == 0 || !(0 <= b < |d|) then {b} else {b} + KidsReach(d, d[b], l - 1, NBN, m)
  {
  }

  /** visit: a block of the data area is used. */
  method Visit(im: Image, rel: int, used: set<int>) returns (used': set<int>)
    ensures used' == used + Noted(im, {rel})
  {
    used' := if im.isize <= rel < im.fsize then used + {rel} else used;
    assert Noted(im, {rel}) == if Inside(im, rel) then {rel} else {};
  }

  function Min(a: int, b: int): int { if a < b then a else b }

  /** _walk_indirect_blocks: got counts the logical blocks that have gone by. */
  method WalkIndirectBlocks(im: Image, bno: int, l: nat, need: nat, got: nat, used: set<int>)
    returns (got': nat, used': set<int>)
    requires 1 <= l <= 3
    ensures used' == used + Noted(im, Reach(im.disk, bno, l, need - got))
    ensures got' == if got >= need then got else Min(need, got + Span(l))
    decreases l, 0
  {
    hide Reach, KidsReach, Span, Noted, Entry;
    got', used' := got, used;
    var m := need - got;
    NotedBoth(im, {}, {});
    if got >= need {
      NoReach(im.disk, bno, l, m);
      return;
    }
    SpanStep(l);
    if bno == 0 {
      NoReach(im.disk, bno, l, m);
      got' := Min(need, got + Span(l));
      return;
    }
    used' := Visit(im, bno, used);
    ReachUnfold(im.disk, bno, l, m);
    if !(0 <= bno < |im.disk|) {
      got' := Min(need, got + Span(l));
      return;
    }
    ghost var kids := KidsReach(im.disk, im.disk[bno], l - 1, NBN, m);
    NotedBoth(im, {bno}, kids);
    got', used' := WalkEntries(im, im.disk[bno], l, need, got, used');
  }

  /** Its loop over the entries of an indirect block. */
  method WalkEntries(im: Image, blk: Block, l: nat, need: nat, got: nat, used: set<int>)
    returns (got': nat, used': set<int>)
    requires 1 <= l <= 3 && got < need
    ensures used' == used + Noted(im, KidsReach(im.disk, blk, l - 1, NBN, need - got))
    ensures got' == Min(need, got + Span(l))
    decreases l - 1, 2
  {
    hide Reach, KidsReach, Span, Noted, Entry;
    got', used' := got, used;
    ghost var m := need - got;
    var i := 0;
    KidsReachNext(im.disk, blk, l - 1, 0, m);
    NotedBoth(im, {}, {});
    Fits(0, l);
    SpanStep(l - 1);
    while i < NBN && got' < need
      invariant 0 <= i <= NBN && got' == Min(need, got + i * Span(l - 1))
      invariant used' == used + Noted(im, KidsReach(im.disk, blk, l - 1, i, m))
    {
      var entry := Entry(blk, i);
      KidsReachNext(im.disk, blk, l - 1, i, m);
      NotedBoth(im, KidsReach(im.disk, blk, l - 1, i, m), Reach(im.disk, entry, l - 1, m - i * Span(l - 1)));
      Fits(i, l);
      got', used' := WalkSlot(im, entry, l - 1, need, got', used');
      i := i + 1;
    }
    if i < NBN {
      KidsReachRest(im.disk, blk, l - 1, i, m);
      Fits(i, l);
      Times(i, NBN, Span(l - 1));
    }
  }

  /** What it does with one entry: a data block is noted, an indirect block walked. */
  method WalkSlot(im: Image, entry: int, l: nat, need: nat, got: nat, used: set<int>)
    returns (got': nat, used': set<int>)
    requires l <= 2 && got < need
    ensures used' == used + Noted(im, Reach(im.disk, entry, l, need - got))
    ensures got' == Min(need, got + Span(l))
    decreases l, 1
  {
    hide Reach, Span, Noted;
    if l > 0 {
      got', used' := WalkIndirectBlocks(im, entry, l, need, got, used);
      return;
    }
    SpanStep(0);
    used' := used;
    if entry != 0 {
      used' := Visit(im, entry, used);
      ReachUnfold(im.disk, entry, 0, need - got);
    } else {
      NoReach(im.disk, entry, 0, need - got);
      NotedBoth(im, {}, {});
    }
    got' := got + 1;
  }

  // ----- the whole inode -------------------------------------------------------------------------

  lemma {:induction false} FileReachNext(d: Disk, a: Addrs, n: nat, m: nat)
    requires n < |a| == NADDR
    ensures FileReach(d, a, n + 1, m) == FileReach(d, a, n, m) + Reach(d, a[n], Height(n), m - Base(n))
    ensures FileReach(d, a, 0, m) == {}
  {
  }

  lemma {:induction false} FileReachRest(d: Disk, a: Addrs, n: nat, m: nat)
    requires n <= |a| == NADDR && (n < NADDR ==> m <= Base(n))
    ensures FileReach(d, a, NADDR, m) == FileReach(d, a, n, m)
    decreases NADDR - n
  {
    hide Reach, FileReach, Span, Base;
    if n < NADDR {
      FileReachNext(d, a, n, m);
      NoReach(d, a[n], Height(n), m - Base(n));
      Bases(n);
      SpanStep(Height(n));
      FileReachRest(d, a, n + 1, m);
    }
  }

  /** walk_inode_blocks: every block, of data or of addresses, on the way to a logical block
      that the size covers. */
  method WalkInodeBlocks(im: Image, a: Addrs, size: nat, used: set<int>) returns (used': set<int>)
    requires |a| == NADDR
    ensures used' == used + Noted(im, FileReach(im.disk, a, NADDR, BlocksOf(size)))
  {
    hide Reach, FileReach, Span, Base, Noted;
    var need := BlocksOf(size);
    var got := 0;
    used' := used;
    NotedBoth(im, {}, {});
    FileReachNext(im.disk, a, 0, need);
    Bases(0);
    if need <= 0 {
      FileReachRest(im.disk, a, 0, need);
      return;
    }
    var i := 0;
    while i < ND
      invariant 0 <= i <= ND && i == got == Base(i) && got <= need
      invariant used' == used + Noted(im, FileReach(im.disk, a, i, need))
    {
      if got >= need {
        FileReachRest(im.disk, a, i, need);
        return;
      }
      FileReachNext(im.disk, a, i, need);
      NotedBoth(im, FileReach(im.disk, a, i, need), Reach(im.disk, a[i], Height(i), need - Base(i)));
      Bases(i);
      SpanStep(0);
      got, used' := WalkSlot(im, a[i], 0, need, got, used');
      i := i + 1;
    }
    while i < NADDR
      invariant ND <= i <= NADDR && used' == used + Noted(im, FileReach(im.disk, a, i, need))
      invariant i < NADDR ==> got == Min(need, Base(i))
    {
      FileReachNext(im.disk, a, i, need);
      NotedBoth(im, FileReach(im.disk, a, i, need), Reach(im.disk, a[i], Height(i), need - Base(i)));
      Bases(i);
      NoReachIf(im.disk, a[i], Height(i), need - got, need - Base(i));
      got, used' := WalkIndirectBlocks(im, a[i], i - ND + 1, need, got, used');
      i := i + 1;
    }
  }

  lemma {:induction false} NoReachIf(d: Disk, b: int, l: nat, m: int, n: int)
    requires m == n || (m <= 0 && n <= 0)
    ensures Reach(d, b, l, m) == Reach(d, b, l, n)
  {
    if m != n {
      NoReach(d, b, l, m);
      NoReach(d, b, l, n);
    }
  }

  /** A file in the inode table. */
  datatype File = File(addrs: Addrs, size: nat)

  ghost predicate Files(files: seq<File>) {
    forall k :: 0 <= k < |files| ==> |files[k].addrs| == NADDR
  }

  /** The blocks of the data area that some file reaches. */
  ghost function InUse(im: Image, d: Disk, files: seq<File>): set<int>
    requires Files(files)
  {
    if files == [] then {}
    else
      var f := files[|files| - 1];
      InUse(im, d, files[..|files| - 1]) + Noted(im, FileReach(d, f.addrs, NADDR, BlocksOf(f.size)))
  }

  /** The blocks under a file's size are in use. */
  lemma {:induction false} DataIsReached(d: Disk, b: int, l: nat, q: seq<nat>, m: int)
    requires Digits(q) && |q| == l && Number(q) < m
    ensures Walk(d, b, q) > 0 ==> Walk(d, b, q) in Reach(d, b, l, m)
    decreases l
  {
    hide KidsReach, Span;
    if l > 0 && 0 < b < |d| {
      var j := q[0];
      DataIsReached(d, Entry(d[b], j), l - 1, q[1..], m - j * Span(l - 1));
      KidReached(d, d[b], l - 1, NBN, m, j);
    }
  }

  lemma {:induction false} KidReached(d: Disk, blk: Block, l: nat, n: nat, m: int, j: nat)
    requires j < n <= NBN
    ensures Reach(d, Entry(blk, j), l, m - j * Span(l)) <= KidsReach(d, blk, l, n, m)
    decreases n
  {
    hide Reach, Span;
    if j < n - 1 { KidReached(d, blk, l, n - 1, m, j); }
  }

  lemma {:induction false} RootReached(d: Disk, a: Addrs, n: nat, m: nat, i: nat)
    requires i < n <= |a| == NADDR
    ensures Reach(d, a[i], Height(i), m - Base(i)) <= FileReach(d, a, n, m)
    decreases n
  {
    hide Reach, Base;
    if i < n - 1 { RootReached(d, a, n - 1, m, i); }
  }

  /** Disks that agree on what is reached have the same leaves. */
  lemma {:induction false} WalkSame(d: Disk, d': Disk, b: int, l: nat, q: seq<nat>, m: int)
    requires |d'| == |d| && Digits(q) && |q| == l && Number(q) < m
    requires forall x :: x in Reach(d, b, l, m) && 0 <= x < |d| ==> d'[x] == d[x]
    ensures Walk(d', b, q) == Walk(d, b, q)
    decreases l
  {
    hide KidsReach, Span;
    if l > 0 && 0 < b < |d| {
      var j := q[0];
      KidReached(d, d[b], l - 1, NBN, m, j);
      assert d'[b] == d[b];
      WalkSame(d, d', Entry(d[b], j), l - 1, q[1..], m - j * Span(l - 1));
    }
  }

  lemma {:induction false} BlockSame(d: Disk, d': Disk, a: Addrs, size: nat, idx: nat)
    requires |d'| == |d| && |a| == NADDR && idx < BlocksOf(size) && idx < MAXBLOCKS
    requires forall x :: x in FileReach(d, a, NADDR, BlocksOf(size)) && 0 <= x < |d| ==> d'[x] == d[x]
    ensures FileBlock(d', a, idx) == FileBlock(d, a, idx)
    ensures var w := FileBlock(d, a, idx); 0 < w < |d| ==> d'[w] == d[w]
  {
    hide Reach, FileReach, Walk, Number, Classify;
    var p := Classify(idx);
    ClassifyIsPath(idx);
    PathIsPrefix(p);
    PathNumber(idx);
    var m := BlocksOf(size) - Base(p[0]);
    RootReached(d, a, NADDR, BlocksOf(size), p[0]);
    WalkSame(d, d', a[p[0]], Height(p[0]), p[1..], m);
    DataIsReached(d, a[p[0]], Height(p[0]), p[1..], m);
  }

  lemma {:induction false} AllReached(im: Image, d: Disk, files: seq<File>, k: nat)
    requires Files(files) && k < |files|
    ensures Noted(im, FileReach(d, files[k].addrs, NADDR, BlocksOf(files[k].size))) <= InUse(im, d, files)
    decreases |files|
  {
    hide FileReach, Noted;
    if k < |files| - 1 { AllReached(im, d, files[..|files| - 1], k); }
  }

  /** A file reads the same as long as what is in use stays. */
  lemma {:induction false} ContentSame(im: Image, d: Disk, d': Disk, files: seq<File>, k: nat, n: nat)
    requires Files(files) && k < |files| && |d'| == |d| && Same(im, InUse(im, d, files), d, d')
    requires n <= files[k].size && n <= MAXBLOCKS * BSIZE
    ensures Content(d', files[k].addrs, n) == Content(d, files[k].addrs, n)
  {
    hide FileReach, InUse, FileBlock;
    var a, size := files[k].addrs, files[k].size;
    AllReached(im, d, files, k);
    forall x | x in FileReach(d, a, NADDR, BlocksOf(size)) && 0 <= x < |d| ensures d'[x] == d[x] {
      if Inside(im, x) { assert x in Noted(im, FileReach(d, a, NADDR, BlocksOf(size))); }
    }
    forall i | 0 <= i < n ensures ByteAt(d', a, i) == ByteAt(d, a, i) {
      BlockSame(d, d', a, size, i / BSIZE);
    }
  }

  // ----- rebuilding ---------------------------------------------------------------------------------

  /** rebuild_free_list: an empty list, and then every block no file reaches, the highest
      first.  The chain ends if and only if the highest begins with a word of zero. */
  method Rebuild(im: Image, files: seq<File>)
    requires im.Shape() && Files(files)
    modifies im`nfree, im`tfree, im`st, im`disk, im.free
    ensures im.Loose() && im.st == Unused(old(InUse(im, im.disk, files)), im.isize, im.fsize)
    ensures im.Valid() <==> im.st == [] || (0 <= im.st[0] < |old(im.disk)| && NFree(old(im.disk)[im.st[0]]) == 0)
    ensures |im.disk| == |old(im.disk)| && forall k, n: nat {:trigger Content(im.disk, files[k].addrs, n)} ::
      0 <= k < |files| && n <= files[k].size && n <= MAXBLOCKS * BSIZE ==>
        Content(im.disk, files[k].addrs, n) == Content(old(im.disk), files[k].addrs, n)
  {
    hide Image.Shape, Image.Valid, Unused, NFree, InUse, FileReach, Content;
    ghost var d0: Disk := im.disk;
    var used := {};
    NoneUsed(im, d0, files);
    var k := 0;
    while k < |files|
      invariant 0 <= k <= |files| && im.disk == d0 && im.Shape() && used == InUse(im, d0, files[..k])
    {
      OneMoreUsed(im, d0, files, k);
      used := WalkInodeBlocks(im, files[k].addrs, files[k].size, used);
      k := k + 1;
    }
    assert files[..k] == files;
    Chain(im, used);
    forall k, n: nat {:trigger Content(im.disk, files[k].addrs, n)} |
      0 <= k < |files| && n <= files[k].size && n <= MAXBLOCKS * BSIZE
      ensures Content(im.disk, files[k].addrs, n) == Content(d0, files[k].addrs, n)
    {
      ContentSame(im, d0, im.disk, files, k, n);
    }
  }

  lemma {:induction false} NoneUsed(im: Image, d: Disk, files: seq<File>)
    requires Files(files)
    ensures InUse(im, d, files[..0]) == {}
  {
  }

  lemma {:induction false} OneMoreUsed(im: Image, d: Disk, files: seq<File>, k: nat)
    requires Files(files) && k < |files|
    ensures InUse(im, d, files[..k + 1]) ==
      InUse(im, d, files[..k]) + Noted(im, FileReach(d, files[k].addrs, NADDR, BlocksOf(files[k].size)))
  {
    assert files[..k + 1][..k] == files[..k];
  }

  /** The used blocks, and those outside of the data area, are as they were. */
  ghost predicate Same(im: Image, used: set<int>, d: Disk, d': Disk)
    requires |d'| == |d|
  {
    forall x {:trigger d'[x]} :: 0 <= x < |d| && (x in used || !Inside(im, x)) ==> d'[x] == d[x]
  }

  /** Where the second half stands: the blocks from b on that are not used have been freed. */
  ghost predicate Chained(im: Image, used: set<int>, d0: Disk, b: int)
    reads im, im.free
  {
    && im.Loose() && |im.disk| == |d0| && im.st == Unused(used, b, im.fsize)
    && (im.Valid() <==> im.st == [] || (0 <= im.st[0] < |d0| && NFree(d0[im.st[0]]) == 0))
    && (im.st == [] ==> forall x {:trigger im.disk[x]} :: 0 <= x < b && x < |d0| ==> im.disk[x] == d0[x])
    && Same(im, used, d0, im.disk)
  }

  /** Its second half. */
  method Chain(im: Image, used: set<int>)
    requires im.Shape()
    modifies im`nfree, im`tfree, im`st, im`disk, im.free
    ensures im.Loose() && im.st == Unused(used, im.isize, im.fsize)
    ensures im.Valid() <==> im.st == [] || (0 <= im.st[0] < |old(im.disk)| && NFree(old(im.disk)[im.st[0]]) == 0)
    ensures |im.disk| == |old(im.disk)| && Same(im, used, old(im.disk), im.disk)
  {
    hide Image.Shape, Image.Valid, Image.Loose, Unused, NFree;
    ghost var d0: Disk := im.disk;
    Reset(im);
    im.LooseIs();
    UnusedNone(used, im.fsize);
    LooseSizes(im);
    var b := im.fsize - 1;
    while b > im.isize - 1
      invariant im.isize - 1 <= b < im.fsize && Chained(im, used, d0, b + 1)
    {
      if b !in used {
        ChainOne(im, used, b, d0);
      } else {
        UnusedStep(used, b, im.fsize);
      }
      b := b - 1;
    }
  }

  method ChainOne(im: Image, used: set<int>, b: int, ghost d0: Disk)
    requires im.isize <= b < im.fsize && b !in used && Chained(im, used, d0, b + 1)
    modifies im`nfree, im`tfree, im`st, im`disk, im.free
    ensures Chained(im, used, d0, b)
  {
    hide Image.Shape, Image.Valid, Image.Loose, Unused, NFree, Same;
    UnusedStep(used, b, im.fsize);
    LooseSizes(im);
    ghost var d: Disk := im.disk;
    var ok := im.FreeBlock(b);
    SameStill(im, used, d0, d, im.disk, b);
  }

  lemma {:induction false} SameStill(im: Image, used: set<int>, d0: Disk, d: Disk, d': Disk, b: int)
    requires |d0| == |d| == |d'| && Same(im, used, d0, d) && b !in used && Inside(im, b)
    requires forall i :: 0 <= i < |d| && i != b ==> d'[i] == d[i]
    ensures Same(im, used, d0, d')
  {
  }

  lemma {:induction false} LooseSizes(im: Image)
    requires im.Loose()
    ensures 0 < im.isize <= im.fsize <= |im.disk|
  {
  }

  method Reset(im: Image)
    requires im.Shape()
    modifies im`nfree, im`tfree, im`st
    ensures im.Valid() && im.st == []
  {
    im.nfree, im.tfree := 0, 0;
    im.st := [];
  }

  // ----- no more than the size covers ---------------------------------------------------------

  /** What the end of a path on the way to the first m leaves is: met by the walk. */
  lemma {:induction false} PathReached(d: Disk, b: int, l: nat, q: seq<nat>, m: int)
    requires Digits(q) && |q| <= l && Low(q, l) < m && Walk(d, b, q) != 0 && Walk(d, b, q) != -1
    ensures Walk(d, b, q) in Reach(d, b, l, m)
    decreases l
  {
    hide KidsReach, Span;
    ReachUnfold(d, b, l, m);
    if q != [] {
      var j := q[0];
      PathReached(d, Entry(d[b], j), l - 1, q[1..], m - j * Span(l - 1));
      KidReached(d, d[b], l - 1, NBN, m, j);
    }
  }

  /** Every block of a tree is at the end of a path. */
  lemma {:induction false} OwnedAtPath(d: Disk, b: int, l: nat, x: int) returns (q: seq<nat>)
    requires Own(d, b, l)[x] > 0
    ensures Digits(q) && |q| <= l && Walk(d, b, q) == x
    decreases l
  {
    hide OwnKids;
    if x == b {
      q := [];
    } else {
      OwnUnfold(d, b, l);
      var j := KidWith(d, d[b], l - 1, NBN, x);
      var r := OwnedAtPath(d, Entry(d[b], j), l - 1, x);
      q := [j] + r;
      assert q[1..] == r;
    }
  }

  lemma {:induction false} KidWith(d: Disk, blk: Block, l: nat, n: nat, x: int) returns (j: nat)
    requires n <= NBN && OwnKids(d, blk, l, n)[x] > 0
    ensures j < n && Own(d, Entry(blk, j), l)[x] > 0
    decreases n
  {
    hide Own;
    if Own(d, Entry(blk, n - 1), l)[x] > 0 {
      j := n - 1;
    } else {
      j := KidWith(d, blk, l, n - 1, x);
    }
  }

  /** Nothing is met that the tree does not own. */
  lemma {:induction false} ReachOwned(d: Disk, b: int, l: nat, m: int, x: int)
    requires x in Reach(d, b, l, m) && 0 <= b
    ensures Own(d, b, l)[x] > 0
    decreases l, 0
  {
    hide KidsReach, OwnKids, Reach;
    NoReachIs(d, b, l, m);
    ReachUnfold(d, b, l, m);
    if x == b {
      OwnsItself(d, b, l);
    } else {
      OwnUnfold(d, b, l);
      KidsReachOwned(d, d[b], l - 1, NBN, m, x);
    }
  }

  lemma {:induction false} NoReachIs(d: Disk, b: int, l: nat, m: int)
    ensures m <= 0 || b == 0 ==> Reach(d, b, l, m) == {}
  {
  }

  lemma {:induction false} KidsReachOwned(d: Disk, blk: Block, l: nat, n: nat, m: int, x: int)
    requires n <= NBN && x in KidsReach(d, blk, l, n, m)
    ensures OwnKids(d, blk, l, n)[x] > 0
    decreases l, n + 1
  {
    hide Reach, Own, Span;
    if x in Reach(d, Entry(blk, n - 1), l, m - (n - 1) * Span(l)) {
      EntrySign(blk, n - 1);
      ReachOwned(d, Entry(blk, n - 1), l, m - (n - 1) * Span(l), x);
    } else {
      KidsReachOwned(d, blk, l, n - 1, m, x);
    }
  }

  lemma {:induction false} EntrySign(blk: Block, j: nat)
    requires j < NBN
    ensures Entry(blk, j) >= 0
  {
  }

  lemma {:induction false} FileReachOwned(d: Disk, a: Addrs, n: nat, m: nat, x: int)
    requires n <= |a| == NADDR && x in FileReach(d, a, n, m) && forall i :: 0 <= i < NADDR ==> a[i] >= 0
    ensures FileOwn(d, a, n)[x] > 0
    decreases n
  {
    hide Reach, Own, Base;
    if x in Reach(d, a[n - 1], Height(n - 1), m - Base(n - 1)) {
      ReachOwned(d, a[n - 1], Height(n - 1), m - Base(n - 1), x);
    } else {
      FileReachOwned(d, a, n - 1, m, x);
    }
  }

  lemma {:induction false} RootWith(d: Disk, a: Addrs, n: nat, x: int) returns (i: nat)
    requires n <= |a| == NADDR && FileOwn(d, a, n)[x] > 0
    ensures i < n && Own(d, a[i], Height(i))[x] > 0
    decreases n
  {
    hide Own;
    if Own(d, a[n - 1], Height(n - 1))[x] > 0 {
      i := n - 1;
    } else {
      i := RootWith(d, a, n - 1, x);
    }
  }

  /** A file is lean if and only if each of its blocks is on the way to a logical block that
      its size covers; then the walk over the inodes meets exactly the blocks it owns. */
  lemma {:induction false} LeanIsReached(d: Disk, a: Addrs, m: nat, lo: int, hi: int)
    requires |a| == NADDR && Once(Owned(d, a)) && InRange(Owned(d, a), lo, hi) && 0 < lo && hi <= |d|
    ensures Lean(d, a, m) <==> forall x :: Owned(d, a)[x] > 0 ==> x in FileReach(d, a, NADDR, m)
    ensures forall x :: x in FileReach(d, a, NADDR, m) ==> Owned(d, a)[x] > 0
  {
    hide FileReach, FileOwn, Own, Follow, First, Once;
    RootsInRange(d, a, lo, hi);
    if Lean(d, a, m) {
      forall x | Owned(d, a)[x] > 0 ensures x in FileReach(d, a, NADDR, m) {
        LeanReaches(d, a, m, x, lo, hi);
      }
    }
    if forall x :: Owned(d, a)[x] > 0 ==> x in FileReach(d, a, NADDR, m) {
      forall p | Prefix(p) && Follow(d, a, p) != 0 ensures First(p) < m {
        ReachesLean(d, a, m, p, lo, hi);
      }
    }
    forall x | x in FileReach(d, a, NADDR, m) ensures Owned(d, a)[x] > 0 {
      FileReachOwned(d, a, NADDR, m, x);
    }
  }

  lemma {:induction false} RootsInRange(d: Disk, a: Addrs, lo: int, hi: int)
    requires |a| == NADDR && InRange(Owned(d, a), lo, hi) && 0 < lo && hi <= |d|
    ensures forall i :: 0 <= i < NADDR ==> a[i] >= 0
  {
    hide FileOwn, Own;
    forall i | 0 <= i < NADDR ensures a[i] >= 0 {
      if a[i] != 0 {
        OwnsItself(d, a[i], Height(i));
        RootPart(d, a, NADDR, i);
        assert Own(d, a[i], Height(i))[a[i]] <= Owned(d, a)[a[i]];
      }
    }
  }

  lemma {:induction false} LeanReaches(d: Disk, a: Addrs, m: nat, x: int, lo: int, hi: int)
    requires |a| == NADDR && Lean(d, a, m) && Owned(d, a)[x] > 0 && InRange(Owned(d, a), lo, hi) && 0 < lo
    ensures x in FileReach(d, a, NADDR, m)
  {
    hide FileReach, FileOwn, Own, Reach, Low, Walk;
    var i := RootWith(d, a, NADDR, x);
    var q := OwnedAtPath(d, a[i], Height(i), x);
    var p := [i] + q;
    assert p[1..] == q;
    assert Prefix(p) && Follow(d, a, p) == x;
    PathReached(d, a[i], Height(i), q, m - Base(i));
    RootReached(d, a, NADDR, m, i);
  }

  /** A block met on the way is at the end of a path that starts before the end. */
  lemma {:induction false} ReachedAtPath(d: Disk, b: int, l: nat, m: int, x: int) returns (q: seq<nat>)
    requires x in Reach(d, b, l, m)
    ensures Digits(q) && |q| <= l && Walk(d, b, q) == x && Low(q, l) < m && x != 0
    decreases l
  {
    hide KidsReach, Span;
    if x == b {
      q := [];
    } else {
      var j := KidReaching(d, d[b], l - 1, NBN, m, x);
      var r := ReachedAtPath(d, Entry(d[b], j), l - 1, m - j * Span(l - 1), x);
      q := [j] + r;
      assert q[1..] == r;
    }
  }

  lemma {:induction false} KidReaching(d: Disk, blk: Block, l: nat, n: nat, m: int, x: int) returns (j: nat)
    requires n <= NBN && x in KidsReach(d, blk, l, n, m)
    ensures j < n && x in Reach(d, Entry(blk, j), l, m - j * Span(l))
    decreases n
  {
    hide Reach, Span;
    if x in Reach(d, Entry(blk, n - 1), l, m - (n - 1) * Span(l)) {
      j := n - 1;
    } else {
      j := KidReaching(d, blk, l, n - 1, m, x);
    }
  }

  lemma {:induction false} RootReaching(d: Disk, a: Addrs, n: nat, m: nat, x: int) returns (i: nat)
    requires n <= |a| == NADDR && x in FileReach(d, a, n, m)
    ensures i < n && x in Reach(d, a[i], Height(i), m - Base(i))
    decreases n
  {
    hide Reach, Base;
    if x in Reach(d, a[n - 1], Height(n - 1), m - Base(n - 1)) {
      i := n - 1;
    } else {
      i := RootReaching(d, a, n - 1, m, x);
    }
  }

  /** In a file that owns no block twice it is the only path to that block. */
  lemma {:induction false} ReachesLean(d: Disk, a: Addrs, m: nat, p: seq<nat>, lo: int, hi: int)
    requires |a| == NADDR && Once(Owned(d, a)) && InRange(Owned(d, a), lo, hi) && 0 < lo && hi <= |d|
    requires forall x :: Owned(d, a)[x] > 0 ==> x in FileReach(d, a, NADDR, m)
    requires Prefix(p) && Follow(d, a, p) != 0
    ensures First(p) < m
  {
    hide FileReach, FileOwn, Own, Reach, Low, Walk, Once, Span;
    var x := Follow(d, a, p);
    FollowSafe(d, a, p, lo, hi);
    FollowOwned(d, a, p);
    var i := RootReaching(d, a, NADDR, m, x);
    var q := ReachedAtPath(d, a[i], Height(i), m - Base(i), x);
    var r := [i] + q;
    assert r[1..] == q;
    assert Prefix(r) && Follow(d, a, r) == x;
    if p != r { FollowInjective(d, a, p, r); }
  }
}
