/** write_file and read_file of disk.py. */
module DiskContent {
  import opened Blocks
  import opened BlockMap
  import opened Trees
  import opened FileTrees
  import opened Inodes
  import opened DiskImage
  import opened DiskFiles
  import opened DiskShrink

  const HOLE: int := -1

  // ----- writing ----------------------------------------------------------------------

  /** Behind the new end, a file that got shorter has holes, and any other what it had. */
  ghost predicate Ended(d0: Disk, a0: Addrs, d: Disk, a: Addrs, nOld: nat, nNew: nat) {
    |a0| == |a| == NADDR &&
    forall k: nat {:trigger FileBlock(d, a, k)} :: nNew <= k < MAXBLOCKS ==>
      FileBlock(d, a, k) == if nNew < nOld then 0 else FileBlock(d0, a0, k)
  }

  /** A file without blocks that its size does not cover stays one, and one that got shorter
      becomes one. */
  ghost predicate Leaned(d0: Disk, a0: Addrs, d: Disk, a: Addrs, nOld: nat, nNew: nat) {
    nNew < nOld || Lean(d0, a0, nOld) ==> Lean(d, a, nNew)
  }

  /** write_file on the inode with these addresses.  A file that gets shorter gives blocks
      back, which must leave the free list sound. */
  method WriteFile(im: Image, addr: array<int>, size: nat, data: seq<byte>) returns (ok: bool, size': nat)
    requires addr.Length == NADDR && addr != im.free && Sound(im, addr[..])
    requires BlocksOf(|data|) < BlocksOf(size) ==> Ends(im.disk, addr[..], im.st, BlocksOf(|data|))
    modifies im`nfree, im`tfree, im`st, im`disk, im.free, addr
    ensures Sound(im, addr[..])
    ensures Kept(old(im.disk), old(addr[..]), old(multiset(im.st)), im.disk, addr[..], multiset(im.st))
    ensures ok ==> size' == |data| <= MAXBLOCKS * BSIZE && Content(im.disk, addr[..], size') == data
    ensures !ok ==> size' == size && (BlocksOf(|data|) > MAXBLOCKS || im.st == [])
    ensures Ended(old(im.disk), old(addr[..]), im.disk, addr[..], BlocksOf(size), BlocksOf(|data|))
    ensures Leaned(old(im.disk), old(addr[..]), im.disk, addr[..], BlocksOf(size), BlocksOf(|data|))
  {
    hide Lean, SameBehind, SamePaths, Ended, FileBlock, Sound, Placed, Ends, Kept, Mapped, Chunk, CutTo, Content, Owned,
      Image.Valid, Image.Loose;
    ghost var d0, a0, f0 := im.disk, addr[..], multiset(im.st);
    SoundIs(im, a0);
    KeptSelf(d0, a0, f0);
    var nNew, nOld := BlocksOf(|data|), BlocksOf(size);
    if nNew < nOld {
      ShrinkTo(im, addr, nNew);
      SoundFrom(im, addr[..]);
    }
    ghost var d1, a1, f1 := im.disk, addr[..], multiset(im.st);
    if nNew >= nOld { SameSelf(d0, a0, nNew); }
    if nNew >= nOld && Lean(d0, a0, nOld) { LeanWider(d0, a0, nOld, nNew); }
    var blocks;
    ok, blocks := GrowTo(im, addr, nNew);
    KeptTwice(d0, a0, f0, d1, a1, f1, im.disk, addr[..], multiset(im.st));
    EndedBy(d0, a0, d1, a1, im.disk, addr[..], nOld, nNew);
    if !ok {
      return false, size;
    }
    ghost var d2, a2, f2 := im.disk, addr[..], multiset(im.st);
    WriteData(im, addr, blocks, data);
    KeptTwice(d0, a0, f0, d2, a2, f2, im.disk, addr[..], multiset(im.st));
    SoundIs(im, addr[..]);
    ImageSizes(im);
    if nNew < nOld || Lean(d0, a0, nOld) { LeanStays(d2, im.disk, a2, nNew); }
    EndedStays(d0, a0, d2, im.disk, a2, nOld, nNew);
    WrittenContent(im.disk, addr[..], blocks, im.isize, im.fsize, data);
    return true, |data|;
  }

  lemma {:induction false} LeanWider(d: Disk, a: Addrs, m: nat, n: nat)
    requires Lean(d, a, m) && m <= n
    ensures Lean(d, a, n)
  {
  }

  lemma {:induction false} LeanStays(d0: Disk, d: Disk, a: Addrs, m: nat)
    requires Lean(d0, a, m) && SamePaths(d0, d, a)
    ensures Lean(d, a, m)
  {
    hide Follow, First;
    LeanFrame(d0, d, a, m);
  }

  /** What growing leaves behind the end is what cutting left there, or what was there. */
  lemma {:induction false} EndedBy(d0: Disk, a0: Addrs, d1: Disk, a1: Addrs, d: Disk, a: Addrs, nOld: nat, nNew: nat)
    requires SameBehind(d1, a1, d, a, nNew)
    requires if nNew < nOld then CutTo(d0, a0, d1, a1, nNew) else d1 == d0 && a1 == a0
    ensures Ended(d0, a0, d, a, nOld, nNew)
  {
    hide FileBlock;
    forall k: nat | nNew <= k < MAXBLOCKS
      ensures FileBlock(d, a, k) == if nNew < nOld then 0 else FileBlock(d0, a0, k)
    {
      assert FileBlock(d, a, k) == FileBlock(d1, a1, k);
    }
  }

  lemma {:induction false} EndedStays(d0: Disk, a0: Addrs, d1: Disk, d: Disk, a: Addrs, nOld: nat, nNew: nat)
    requires Ended(d0, a0, d1, a, nOld, nNew) && SamePaths(d1, d, a)
    ensures Ended(d0, a0, d, a, nOld, nNew)
  {
    hide Follow;
    forall k: nat | nNew <= k < MAXBLOCKS ensures FileBlock(d, a, k) == FileBlock(d1, a, k) {
      ClassifyIsPath(k);
    }
  }

  lemma {:induction false} SoundFrom(im: Image, a: Addrs)
    requires im.Valid() && Placed(im, a)
    ensures Sound(im, a)
  {
  }

  /** Any other file, b, whose blocks are neither this file's nor free, keeps its bytes and
      its blocks, whatever write_file does. */
  lemma {:induction false} Bystander(d0: Disk, a0: Addrs, f0: multiset<int>, d: Disk, a: Addrs, f: multiset<int>,
                                     b: Addrs, size: nat)
    requires Kept(d0, a0, f0, d, a, f) && |b| == NADDR && size <= MAXBLOCKS * BSIZE
    requires Once(Owned(d0, b) + (Owned(d0, a0) + f0))
    ensures Content(d, b, size) == Content(d0, b, size)
    ensures Owned(d, b) == Owned(d0, b) && Once(Owned(d, b) + (Owned(d, a) + f))
  {
    hide Owned, Once, Content;
    OtherFile(d0, d, b, size, Owned(d0, a0) + f0);
  }

  /** The data area stays divided between the files and the free stack. */
  lemma {:induction false} Partition(d0: Disk, a0: Addrs, f0: multiset<int>, d: Disk, a: Addrs, f: multiset<int>,
                                     rest: multiset<int>, lo: int, hi: int)
    requires Kept(d0, a0, f0, d, a, f)
    requires forall x :: (Owned(d0, a0) + f0 + rest)[x] == if lo <= x < hi then 1 else 0
    ensures forall x :: (Owned(d, a) + f + rest)[x] == if lo <= x < hi then 1 else 0
  {
    hide Owned;
    forall x ensures (Owned(d, a) + f + rest)[x] == if lo <= x < hi then 1 else 0 {
      assert (Owned(d0, a0) + f0 + rest)[x] == (Owned(d, a) + f + rest)[x];
    }
  }

  // ----- reading -----------------------------------------------------------------------

  /** The path to leaf r of a tree of height l. */
  ghost function DigitsOf(r: nat, l: nat): (q: seq<nat>)
    ensures |q| == l
  {
    if l == 0 then [] else [r / Span(l - 1)] + DigitsOf(r % Span(l - 1), l - 1)
  }

  lemma {:induction false} Spans()
    ensures Span(0) == 1 && Span(1) == NBN && Span(2) == NBN * NBN && Span(3) == NBN * NBN * NBN
  {
  }

  lemma {:induction false} DigitsFirst(i: nat, r: nat, l: nat)
    requires 1 <= l <= 3 && i < NBN && r < Span(l - 1)
    ensures DigitsOf(i * Span(l - 1) + r, l) == [i] + DigitsOf(r, l - 1)
  {
    Spans();
    var sp := Span(l - 1);
    if l == 1 {
      assert (i * sp + r) / sp == i && (i * sp + r) % sp == r;
    } else if l == 2 {
      assert (i * 128 + r) / 128 == i && (i * 128 + r) % 128 == r;
    } else {
      assert (i * 16384 + r) / 16384 == i && (i * 16384 + r) % 16384 == r;
    }
  }

  lemma {:induction false} DigitsAreDigits(r: nat, l: nat)
    requires l <= 3 && r < Span(l)
    ensures Digits(DigitsOf(r, l))
    decreases l
  {
    if l > 0 {
      Spans();
      var sp := Span(l - 1);
      DigitsAreDigits(r % sp, l - 1);
      assert r / sp < NBN;
    }
  }

  /** _classify_index once more, height by height: the digits below the inode. */
  lemma {:induction false} ClassifyDirect(i: nat)
    requires i < ND
    ensures Base(i) < MAXBLOCKS && Classify(Base(i)) == [i]
  {
  }

  lemma {:induction false} ClassifyHigh(i: nat, r: nat)
    requires ND <= i < NADDR && r < (if i == ND then 128 else if i == ND + 1 then 16384 else 2097152)
    ensures Base(i) + r < MAXBLOCKS
    ensures i == ND ==> Classify(Base(i) + r) == [i, r]
    ensures i == ND + 1 ==> Classify(Base(i) + r) == [i, r / 128, r % 128]
    ensures i == ND + 2 ==> Classify(Base(i) + r) == [i, r / 16384, r % 16384 / 128, r % 128]
  {
    Spans();
  }

  lemma {:induction false} ThreeDigits(r: nat)
    ensures DigitsOf(r, 3) == [r / 16384, r % 16384 / 128, r % 128]
  {
    hide DigitsOf, Span;
    Spans();
    DigitsUnfold(r, 3);
    TwoDigits(r % 16384);
    Remainders(r);
  }

  lemma {:induction false} DigitsUnfold(r: nat, l: nat)
    requires l > 0
    ensures Span(l - 1) > 0 && DigitsOf(r, l) == [r / Span(l - 1)] + DigitsOf(r % Span(l - 1), l - 1)
  {
    hide Span;
  }

  lemma {:induction false} Remainders(r: nat)
    ensures r % 16384 % 128 == r % 128
  {
    assert r == 128 * (128 * (r / 16384)) + r % 16384;
  }

  lemma {:induction false} ClassifyDigits(i: nat, r: nat)
    requires i < NADDR && r < Span(Height(i))
    ensures Base(i) + r < MAXBLOCKS && Classify(Base(i) + r) == [i] + DigitsOf(r, Height(i))
  {
    hide Classify, Base;
    Spans();
    if i < ND {
      ClassifyDirect(i);
    } else {
      ClassifyHigh(i, r);
      if i == ND { OneDigit(r); } else if i == ND + 1 { TwoDigits(r); } else { ThreeDigits(r); }
    }
  }

  lemma {:induction false} OneDigit(r: nat)
    ensures DigitsOf(r, 1) == [r]
  {
    assert DigitsOf(r % 1, 0) == [];
  }

  lemma {:induction false} TwoDigits(r: nat)
    ensures DigitsOf(r, 2) == [r / 128, r % 128]
  {
    Spans();
    OneDigit(r % 128);
  }

  /** HOLE for an address of 0. */
  function Shown(b: int): int { if b == 0 then HOLE else b }

  /** Leaf r of the tree at bno. */
  ghost function Leaf(d: Disk, bno: int, l: nat, r: nat): int
    requires l <= 3 && r < Span(l)
  {
    DigitsAreDigits(r, l);
    Shown(Walk(d, bno, DigitsOf(r, l)))
  }

  lemma {:induction false} LeafIs(d: Disk, bno: int, l: nat, r: nat)
    requires l <= 3 && r < Span(l)
    ensures Digits(DigitsOf(r, l)) && Leaf(d, bno, l, r) == Shown(Walk(d, bno, DigitsOf(r, l)))
  {
    DigitsAreDigits(r, l);
  }

  /** out holds leaves of the tree at bno from position start on. */
  ghost predicate Leaves(d: Disk, bno: int, l: nat, start: nat, out: seq<int>) {
    l <= 3 && |out| <= start + Span(l) && forall k {:trigger out[k]} :: start <= k < |out| ==>
      out[k] == Leaf(d, bno, l, k - start)
  }

  lemma {:induction false} NoLeaves(d: Disk, bno: int, l: nat, out: seq<int>)
    requires l <= 3
    ensures Leaves(d, bno, l, |out|, out)
  {
    SpanStep(l);
  }

  lemma {:induction false} HoleLeaf(d: Disk, l: nat, start: nat, out: seq<int>)
    requires Leaves(d, 0, l, start, out) && start <= |out| && |out| - start < Span(l)
    ensures Leaves(d, 0, l, start, out + [HOLE])
  {
    hide Walk, Span, Leaf, DigitsOf;
    LeafIs(d, 0, l, |out| - start);
    HoleWalk(d, DigitsOf(|out| - start, l));
  }

  lemma {:induction false} LeafBelow(d: Disk, bno: int, l: nat, i: nat, r: nat)
    requires 0 < bno < |d| && 1 <= l <= 3 && i < NBN && r < Span(l - 1)
    ensures i * Span(l - 1) + r < Span(l) && Leaf(d, bno, l, i * Span(l - 1) + r) == Leaf(d, Entry(d[bno], i), l - 1, r)
  {
    hide Span, Entry, Leaf, DigitsOf;
    Fits(i, l);
    DigitsFirst(i, r, l);
    LeafIs(d, bno, l, i * Span(l - 1) + r);
    LeafIs(d, Entry(d[bno], i), l - 1, r);
    assert ([i] + DigitsOf(r, l - 1))[1..] == DigitsOf(r, l - 1);
  }

  /** The leaves under slot i of an indirect block come behind those of the slots before. */
  lemma {:induction false} MoreLeaves(d: Disk, bno: int, l: nat, start: nat, i: nat, out: seq<int>, out': seq<int>)
    requires 0 < bno < |d| && 1 <= l <= 3 && i < NBN && Leaves(d, bno, l, start, out)
    requires |out| == start + i * Span(l - 1) && out <= out'
    requires Leaves(d, Entry(d[bno], i), l - 1, |out|, out')
    ensures Leaves(d, bno, l, start, out')
  {
    hide Span, Entry, Leaf;
    Fits(i, l);
    forall k | start <= k < |out'| ensures out'[k] == Leaf(d, bno, l, k - start) {
      if k < |out| {
        assert out'[k] == out[k];
      } else {
        LeafBelow(d, bno, l, i, k - |out|);
      }
    }
  }

  lemma {:induction false} Fits(i: nat, l: nat)
    requires 1 <= l <= 3 && i < NBN
    ensures i * Span(l - 1) + Span(l - 1) <= Span(l)
    ensures i * Span(l - 1) + Span(l - 1) == (i + 1) * Span(l - 1) && NBN * Span(l - 1) == Span(l)
  {
    Spans();
  }

  /** _walk_indirect. */
  method WalkIndirect(im: Image, bno: int, l: nat, need: nat, out: seq<int>) returns (out': seq<int>)
    requires im.Valid() && 1 <= l <= 3 && InRange(Own(im.disk, bno, l), im.isize, im.fsize)
    ensures out <= out' && Leaves(im.disk, bno, l, |out|, out')
    ensures |out'| == if |out| >= need then |out| else if need < |out| + Span(l) then need else |out| + Span(l)
    decreases l
  {
    hide Image.Valid, Own, OwnKids, InRange, Walk, Span, Leaves, Entry;
    out' := out;
    NoLeaves(im.disk, bno, l, out);
    if |out| >= need {
      return;
    }
    if bno == 0 {
      var k := 0;
      while k < Span(l)
        invariant 0 <= k <= Span(l) && |out'| == |out| + k <= need && out <= out'
        invariant Leaves(im.disk, bno, l, |out|, out')
      {
        if |out'| >= need {
          return;
        }
        HoleLeaf(im.disk, l, |out|, out');
        out' := out' + [HOLE];
        k := k + 1;
      }
      return;
    }
    im.LooseIs();
    TreeBounds(im, bno, l);
    var blk := im.disk[bno];
    var i := 0;
    while i < NBN
      invariant 0 <= i <= NBN && out <= out' && Leaves(im.disk, bno, l, |out|, out')
      invariant |out'| == if need < |out| + i * Span(l - 1) then need else |out| + i * Span(l - 1)
    {
      Fits(i, l);
      if |out'| >= need {
        return;
      }
      var entry := Entry(blk, i);
      ghost var was := out';
      KidRange(im, bno, l, i);
      if l == 1 {
        out' := out' + [Shown(entry)];
        OneLeaf(im.disk, entry, was);
      } else {
        out' := WalkIndirect(im, entry, l - 1, need, out');
      }
      MoreLeaves(im.disk, bno, l, |out|, i, was, out');
      i := i + 1;
    }
    Fits(0, l);
  }

  lemma {:induction false} KidRange(im: Image, b: int, l: nat, i: nat)
    requires im.Valid() && 0 < b < |im.disk| && l > 0 && i < NBN && InRange(Own(im.disk, b, l), im.isize, im.fsize)
    ensures InRange(Own(im.disk, Entry(im.disk[b], i), l - 1), im.isize, im.fsize)
  {
    hide OwnKids, Own;
    KidOf(im.disk, b, l, i);
    var m := Own(im.disk, Entry(im.disk[b], i), l - 1);
    forall x | m[x] > 0 ensures im.isize <= x < im.fsize {
      assert m[x] <= (m + multiset{b})[x] <= Own(im.disk, b, l)[x];
    }
  }

  lemma {:induction false} OneLeaf(d: Disk, entry: int, out: seq<int>)
    ensures Leaves(d, entry, 0, |out|, out + [Shown(entry)]) && Span(0) == 1
  {
    LeafIs(d, entry, 0, 0);
  }

  /** The list that file_blocks makes: the first logical blocks of the file. */
  ghost predicate Listed(d: Disk, a: Addrs, out: seq<int>) {
    |a| == NADDR && |out| <= MAXBLOCKS &&
    forall k {:trigger out[k]} :: 0 <= k < |out| ==> out[k] == Shown(FileBlock(d, a, k))
  }

  lemma {:induction false} ListMore(d: Disk, a: Addrs, i: nat, out: seq<int>, out': seq<int>)
    requires Listed(d, a, out) && i < NADDR && |out| == Base(i) && out <= out'
    requires Leaves(d, a[i], Height(i), |out|, out')
    ensures Listed(d, a, out')
  {
    hide Span, Walk, Classify, DigitsOf, Leaf;
    Limit(i);
    forall k | 0 <= k < |out'| ensures k < MAXBLOCKS && out'[k] == Shown(FileBlock(d, a, k)) {
      if k < |out| {
        assert out'[k] == out[k];
      } else {
        var r := k - |out|;
        LeafIs(d, a[i], Height(i), r);
        ClassifyDigits(i, r);
        ClassifyIsPath(k);
        assert Classify(k)[1..] == DigitsOf(r, Height(i));
      }
    }
  }

  lemma {:induction false} Limit(i: nat)
    requires i < NADDR
    ensures Base(i) + Span(Height(i)) <= MAXBLOCKS
  {
    Spans();
  }

  lemma {:induction false} Bases(i: nat)
    requires i < NADDR
    ensures i + 1 < NADDR ==> Base(i + 1) == Base(i) + Span(Height(i))
    ensures i + 1 == NADDR ==> Base(i) + Span(Height(i)) == MAXBLOCKS
    ensures Base(0) == 0
  {
    Spans();
  }

  lemma {:induction false} AddrRange(im: Image, a: Addrs, i: nat)
    requires Sound(im, a) && i < NADDR
    ensures im.Valid() && InRange(Own(im.disk, a[i], Height(i)), im.isize, im.fsize)
  {
    hide Own;
    RootPart(im.disk, a, NADDR, i);
    var m := Own(im.disk, a[i], Height(i));
    forall x | m[x] > 0 ensures im.isize <= x < im.fsize { assert m[x] <= Owned(im.disk, a)[x]; }
  }

  /** file_blocks: as many logical blocks as the size asks for and the map can name. */
  method FileBlocks(im: Image, addr: array<int>, size: nat) returns (blocks: seq<int>)
    requires addr.Length == NADDR && Sound(im, addr[..])
    ensures Listed(im.disk, addr[..], blocks)
    ensures |blocks| == if BlocksOf(size) < MAXBLOCKS then BlocksOf(size) else MAXBLOCKS
  {
    hide Sound, Listed, Leaves, InRange, Own, Span, Base;
    var need := BlocksOf(size);
    ghost var a := addr[..];
    SoundIs(im, a);
    blocks := [];
    ListNone(im.disk, a);
    Bases(0);
    if need <= 0 {
      return;
    }
    var i := 0;
    while i < ND
      invariant 0 <= i <= ND && |blocks| == i <= need && Base(i) == i && Listed(im.disk, a, blocks)
    {
      if |blocks| >= need {
        return;
      }
      Bases(i);
      OneLeaf(im.disk, addr[i], blocks);
      ghost var was := blocks;
      blocks := blocks + [Shown(addr[i])];
      ListMore(im.disk, a, i, was, blocks);
      i := i + 1;
    }
    while i < NADDR
      invariant ND <= i <= NADDR && Listed(im.disk, a, blocks)
      invariant i < NADDR ==> |blocks| == if need < Base(i) then need else Base(i)
      invariant i == NADDR ==> |blocks| == if need < MAXBLOCKS then need else MAXBLOCKS
    {
      Bases(i);
      AddrRange(im, a, i);
      ghost var was := blocks;
      blocks := WalkIndirect(im, addr[i], i - ND + 1, need, blocks);
      if |was| < need {
        ListMore(im.disk, a, i, was, blocks);
      } else {
        assert blocks == was;
      }
      i := i + 1;
    }
  }

  lemma {:induction false} ListNone(d: Disk, a: Addrs)
    requires |a| == NADDR
    ensures Listed(d, a, [])
  {
  }

  /** read_file: the bytes of the file, as many as it has and the map can name. */
  method ReadFile(im: Image, addr: array<int>, size: nat) returns (out: seq<byte>)
    requires addr.Length == NADDR && Sound(im, addr[..])
    ensures out == Content(im.disk, addr[..], if size < MAXBLOCKS * BSIZE then size else MAXBLOCKS * BSIZE)
  {
    hide Sound, Listed, Classify, FileBlock;
    out := [];
    var remaining := size;
    var blocks := FileBlocks(im, addr, size);
    ghost var a, all := addr[..],
      Content(im.disk, addr[..], if size < MAXBLOCKS * BSIZE then size else MAXBLOCKS * BSIZE);
    var i := 0;
    while i < |blocks|
      invariant 0 <= i <= |blocks| && out <= all && remaining == size - |out|
      invariant |out| == if i * BSIZE < size then i * BSIZE else size
    {
      if remaining <= 0 {
        break;
      }
      ListedAt(im, a, blocks, i);
      var b := blocks[i];
      var take := if BSIZE < remaining then BSIZE else remaining;
      var blk := if b == HOLE then Zero else im.disk[b];
      NextPart(im.disk, a, all, i, blk, take);
      out := out + blk[..take];
      remaining := remaining - take;
      i := i + 1;
    }
    assert out == all;
  }

  lemma {:induction false} ListedAt(im: Image, a: Addrs, blocks: seq<int>, i: nat)
    requires Sound(im, a) && Listed(im.disk, a, blocks) && i < |blocks|
    ensures i < MAXBLOCKS && blocks[i] == Shown(FileBlock(im.disk, a, i))
    ensures FileBlock(im.disk, a, i) == 0 || 0 < FileBlock(im.disk, a, i) < |im.disk|
  {
    hide Classify, IsPath, Owned, Prefix, Walk;
    assert blocks[i] == Shown(FileBlock(im.disk, a, i));
    ClassifyIsPath(i);
    FollowSafe(im.disk, a, Classify(i), im.isize, im.fsize);
  }

  lemma {:induction false} NextPart(d: Disk, a: Addrs, all: seq<byte>, i: nat, blk: Block, take: nat)
    requires |a| == NADDR && |all| <= MAXBLOCKS * BSIZE && all == Content(d, a, |all|)
    requires i < MAXBLOCKS && take <= BSIZE && i * BSIZE + take <= |all|
    requires var w := FileBlock(d, a, i); blk == if w == 0 then Zero else if 0 < w < |d| then d[w] else blk
    requires var w := FileBlock(d, a, i); w == 0 || 0 < w < |d|
    ensures all[i * BSIZE..i * BSIZE + take] == blk[..take]
  {
    hide FileBlock;
    forall k | 0 <= k < take ensures all[i * BSIZE + k] == blk[k] {
      assert (i * BSIZE + k) / BSIZE == i && (i * BSIZE + k) % BSIZE == k;
      assert all[i * BSIZE + k] == ByteAt(d, a, i * BSIZE + k);
    }
  }

  /** What was written is what is read. */
  method RoundTrip(im: Image, addr: array<int>, size: nat, data: seq<byte>) returns (ok: bool, back: seq<byte>)
    requires addr.Length == NADDR && addr != im.free && Sound(im, addr[..])
    requires BlocksOf(|data|) < BlocksOf(size) ==> Ends(im.disk, addr[..], im.st, BlocksOf(|data|))
    modifies im`nfree, im`tfree, im`st, im`disk, im.free, addr
    ensures ok ==> back == data
    ensures !ok ==> BlocksOf(|data|) > MAXBLOCKS || im.st == []
  {
    var size';
    ok, size' := WriteFile(im, addr, size, data);
    back := ReadFile(im, addr, size');
  }
}
