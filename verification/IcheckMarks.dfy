/** The marks icheck.c makes from the inodes (ilook, crawldown, bmark) when it repairs a volume,
    and the free list it then builds from them. */
module IcheckMarks {
  import opened Blocks
  import opened BlockMap
  import opened Trees
  import opened FileTrees
  import opened FreeList

  /** The blocks of m that there are. */
  ghost function Marks(m: multiset<int>, fsize: int): set<int> {
    set b | b in m && 0 <= b < fsize
  }

  /** No block of m is off the volume, there twice, or marked already. */
  ghost predicate Clean(m: multiset<int>, fsize: int, marked: set<int>) {
    forall b {:trigger m[b]} :: m[b] > 0 ==> 0 <= b < fsize && m[b] == 1 && b !in marked
  }

  lemma {:induction false} NothingMarked(fsize: int, marked: set<int>)
    ensures Marks(multiset{}, fsize) == {} && Clean(multiset{}, fsize, marked)
  {
  }

  lemma {:induction false} OneMarked(b: int, fsize: int, marked: set<int>)
    ensures Marks(multiset{b}, fsize) == if 0 <= b < fsize then {b} else {}
    ensures Clean(multiset{b}, fsize, marked) <==> 0 <= b < fsize && b !in marked
  {
    assert multiset{b}[b] == 1;
  }

  lemma {:induction false} BothMarked(m: multiset<int>, n: multiset<int>, fsize: int, marked: set<int>)
    ensures Marks(m + n, fsize) == Marks(m, fsize) + Marks(n, fsize)
    ensures Clean(m + n, fsize, marked) <==> Clean(m, fsize, marked) && Clean(n, fsize, marked + Marks(m, fsize))
  {
    if Clean(m + n, fsize, marked) {
      forall b | m[b] > 0 ensures 0 <= b < fsize && m[b] == 1 && b !in marked { assert (m + n)[b] == m[b] + n[b]; }
      forall b | n[b] > 0
        ensures 0 <= b < fsize && n[b] == 1 && b !in marked + Marks(m, fsize)
      {
        assert (m + n)[b] == m[b] + n[b];
      }
    }
    if Clean(m, fsize, marked) && Clean(n, fsize, marked + Marks(m, fsize)) {
      forall b | (m + n)[b] > 0 ensures 0 <= b < fsize && (m + n)[b] == 1 && b !in marked {
        assert (m + n)[b] == m[b] + n[b];
        assert m[b] > 0 ==> b in Marks(m, fsize);
      }
    }
  }

  /** bmark: a block that there is gets its mark; hard is set if it is off the volume, or
      had its mark. */
  method BMark(bn: int, fsize: int, marked: set<int>, hard: bool) returns (marked': set<int>, hard': bool, wrong: bool)
    ensures wrong <==> !(0 <= bn < fsize)
    ensures marked' == marked + Marks(multiset{bn}, fsize)
    ensures hard' <==> hard || !Clean(multiset{bn}, fsize, marked)
  {
    OneMarked(bn, fsize, marked);
    if bn < 0 || bn >= fsize {
      return marked, true, true;
    }
    return marked + {bn}, hard || bn in marked, false;
  }

  /** crawldown: the tree of height lev at bn.  A block met again is entered again. */
  method CrawlDown(d: Disk, bn: int, lev: nat, marked: set<int>, hard: bool) returns (marked': set<int>, hard': bool)
    ensures marked' == marked + Marks(Own(d, bn, lev), |d|)
    ensures hard' <==> hard || !Clean(Own(d, bn, lev), |d|, marked)
    decreases lev
  {
    hide Own, OwnKids, Marks, Clean;
    OwnIs(d, bn, lev);
    if bn == 0 {
      NothingMarked(|d|, marked);
      return marked, hard;
    }
    var wrong;
    marked', hard', wrong := BMark(bn, |d|, marked, hard);
    if wrong {
      return;
    }
    if lev > 0 {
      var blk := d[bn];
      NothingMarked(|d|, marked);
      BothMarked(multiset{bn}, multiset{}, |d|, marked);
      assert multiset{bn} + multiset{} == multiset{bn};
      KidsNone(d, blk, lev - 1);
      var i := 0;
      while i < NBN
        invariant 0 <= i <= NBN
        invariant marked' == marked + Marks(multiset{bn} + OwnKids(d, blk, lev - 1, i), |d|)
        invariant hard' <==> hard || !Clean(multiset{bn} + OwnKids(d, blk, lev - 1, i), |d|, marked)
      {
        KidsUnfold(d, blk, lev - 1, i + 1);
        BothMarked(multiset{bn} + OwnKids(d, blk, lev - 1, i), Own(d, Entry(blk, i), lev - 1), |d|, marked);
        assert multiset{bn} + OwnKids(d, blk, lev - 1, i) + Own(d, Entry(blk, i), lev - 1) ==
          multiset{bn} + OwnKids(d, blk, lev - 1, i + 1);
        marked', hard' := CrawlDown(d, Entry(blk, i), lev - 1, marked', hard');
        i := i + 1;
      }
      assert multiset{bn} + OwnKids(d, blk, lev - 1, NBN) == OwnKids(d, blk, lev - 1, NBN) + multiset{bn};
    }
  }

  lemma {:induction false} OwnIs(d: Disk, b: int, l: nat)
    ensures b == 0 ==> Own(d, b, l) == multiset{}
    ensures b != 0 && (l == 0 || !(0 < b < |d|)) ==> Own(d, b, l) == multiset{b}
    ensures l > 0 && 0 < b < |d| ==> Own(d, b, l) == OwnKids(d, d[b], l - 1, NBN) + multiset{b}
  {
  }

  lemma {:induction false} KidsNone(d: Disk, blk: Block, l: nat)
    ensures OwnKids(d, blk, l, 0) == multiset{}
  {
  }

  /** The level ilook finds in its table of offsets. */
  method Level(i: nat) returns (lev: nat)
    requires i < NADDR
    ensures lev == Height(i)
  {
    var offsets := [0, ND, ND + 1, ND + 2, ND + 3];
    var l := 1;
    while l <= 4
      invariant 1 <= l <= 4 && i >= (if l == 1 then 0 else offsets[l - 1])
    {
      if i < offsets[l] {
        break;
      }
      l := l + 1;
    }
    lev := l - 1;
  }

  /** ilook, and finddefective for the file of bad blocks: all that the addresses lead to,
      the last address first. */
  method ILook(d: Disk, a: Addrs, marked: set<int>, hard: bool) returns (marked': set<int>, hard': bool)
    requires |a| == NADDR
    ensures marked' == marked + Marks(Owned(d, a), |d|)
    ensures hard' <==> hard || !Clean(Owned(d, a), |d|, marked)
  {
    hide Own, FileOwn, Marks, Clean;
    marked', hard' := marked, hard;
    var i := NADDR;
    NothingMarked(|d|, marked);
    while i > 0
      invariant 0 <= i <= NADDR
      invariant marked' == marked + Marks(From(d, a, i), |d|)
      invariant hard' <==> hard || !Clean(From(d, a, i), |d|, marked)
    {
      i := i - 1;
      var lev := Level(i);
      BothMarked(From(d, a, i + 1), Own(d, a[i], lev), |d|, marked);
      marked', hard' := CrawlDown(d, a[i], lev, marked', hard');
    }
    FromFirst(d, a);
  }

  /** What the addresses from i on lead to. */
  ghost function From(d: Disk, a: Addrs, i: nat): multiset<int>
    requires i <= |a|
    decreases |a| - i
  {
    if i == |a| then multiset{} else From(d, a, i + 1) + Own(d, a[i], Height(i))
  }

  lemma {:induction false} FromFirst(d: Disk, a: Addrs)
    requires |a| == NADDR
    ensures From(d, a, 0) == Owned(d, a)
  {
    hide Own, From;
    FromAll(d, a, 0);
    assert FileOwn(d, a, 0) == multiset{};
  }

  lemma {:induction false} FromAll(d: Disk, a: Addrs, i: nat)
    requires i <= |a|
    ensures FileOwn(d, a, i) + From(d, a, i) == FileOwn(d, a, |a|)
    decreases |a| - i
  {
    hide Own;
    if i < |a| { FromAll(d, a, i + 1); }
  }

  /** The blocks of all files, each as often as it is referenced. */
  ghost function AllOwned(d: Disk, files: seq<Addrs>): multiset<int>
    requires forall k :: 0 <= k < |files| ==> |files[k]| == NADDR
  {
    if files == [] then multiset{} else AllOwned(d, files[..|files| - 1]) + Owned(d, files[|files| - 1])
  }

  lemma {:induction false} OneMoreFile(d: Disk, files: seq<Addrs>, k: nat)
    requires (forall j :: 0 <= j < |files| ==> |files[j]| == NADDR) && k < |files|
    ensures AllOwned(d, files[..k + 1]) == AllOwned(d, files[..k]) + Owned(d, files[k])
    ensures AllOwned(d, files[..0]) == multiset{}
  {
    assert files[..k + 1][..k] == files[..k];
  }

  /** The list of the inodes, which sets the marks. */
  method Scan(d: Disk, files: seq<Addrs>) returns (marked: set<int>, hard: bool)
    requires forall k :: 0 <= k < |files| ==> |files[k]| == NADDR
    ensures marked == Marks(AllOwned(d, files), |d|)
    ensures hard <==> !Clean(AllOwned(d, files), |d|, {})
  {
    hide Owned, Marks, Clean, AllOwned;
    marked, hard := {}, false;
    NothingMarked(|d|, {});
    assert files[..0] == [];
    NoFiles(d);
    var k := 0;
    while k < |files|
      invariant 0 <= k <= |files|
      invariant marked == {} + Marks(AllOwned(d, files[..k]), |d|)
      invariant hard <==> !Clean(AllOwned(d, files[..k]), |d|, {})
    {
      OneMoreFile(d, files, k);
      BothMarked(AllOwned(d, files[..k]), Owned(d, files[k]), |d|, {});
      marked, hard := ILook(d, files[k], marked, hard);
      k := k + 1;
    }
    assert files[..k] == files;
  }

  lemma {:induction false} NoFiles(d: Disk)
    ensures AllOwned(d, []) == multiset{}
  {
  }

  /** icheck -s: the marks, and the free list from them.  Afterwards every block of the data
      area is free once, or has the mark of a file and its old contents; and it belongs to one
      file once if nothing hard was reported. */
  method Repair(ic: Icheck, files: seq<Addrs>) returns (hard: bool, ghost st: seq<int>)
    requires ic.Volume() && |ic.disk| == ic.fsize && forall k :: 0 <= k < |files| ==> |files[k]| == NADDR
    modifies ic`nfree, ic`tfree, ic`disk, ic.free
    ensures |ic.disk| == |old(ic.disk)| && ic.Holds(st)
    ensures hard <==> !Clean(old(AllOwned(ic.disk, files)), ic.fsize, {})
    ensures forall b :: ic.isize <= b < ic.fsize ==> (b in st <==> b !in old(AllOwned(ic.disk, files)))
    ensures !hard ==> forall b :: ic.isize <= b < ic.fsize ==> (old(AllOwned(ic.disk, files)) + multiset(st))[b] == 1
    ensures forall b :: 0 <= b < ic.fsize && b !in st ==> ic.disk[b] == old(ic.disk)[b]
  {
    hide AllOwned, Icheck.Volume, Icheck.Holds, Unused;
    Sizes(ic);
    ghost var m := AllOwned(ic.disk, files);
    var marked;
    marked, hard := Scan(ic.disk, files);
    st := Unused(marked, ic.isize, ic.fsize);
    UnusedIs(marked, ic.isize, ic.fsize);
    ic.MakeSuper(marked);
    forall b | ic.isize <= b < ic.fsize && !hard ensures (m + multiset(st))[b] == 1 {
      if b in m { assert m[b] == 1; } else { UnusedOnce(marked, ic.isize, ic.fsize, b); }
    }
  }

  lemma {:induction false} Sizes(ic: Icheck)
    requires ic.Volume()
    ensures 0 < ic.isize <= ic.fsize
  {
  }

  lemma {:induction false} UnusedIs(used: set<int>, lo: int, hi: int)
    ensures forall b :: b in Unused(used, lo, hi) <==> lo <= b < hi && b !in used
  {
  }

  lemma {:induction false} UnusedOnce(used: set<int>, lo: int, hi: int, b: int)
    requires b in Unused(used, lo, hi)
    ensures multiset(Unused(used, lo, hi))[b] == 1
  {
    var s := Unused(used, lo, hi);
    var i :| 0 <= i < |s| && s[i] == b;
    Single(s, i);
  }

  lemma {:induction false} Single(s: seq<int>, i: nat)
    requires i < |s| && forall j :: 0 <= j < |s| && j != i ==> s[j] != s[i]
    ensures multiset(s)[s[i]] == 1
  {
    assert s == s[..i] + [s[i]] + s[i + 1..];
    assert s[i] !in s[..i] && s[i] !in s[i + 1..];
    assert multiset(s)[s[i]] == multiset(s[..i])[s[i]] + multiset([s[i]])[s[i]] + multiset(s[i + 1..])[s[i]];
  }
}
