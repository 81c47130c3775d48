/** The free block list of a filesystem: a short cache in the superblock, chained through
    the free blocks themselves.  It is kept by the kernel (fs2.c), by icheck.c and by
    disk.py; all three are proved against one abstract stack. */
module FreeList {
  import opened Blocks

  // ----- the chain -----------------------------------------------------------------

  /** The cache that block b hands on. */
  ghost function Next(disk: seq<Block>, b: int): seq<int>
    requires 0 <= b < |disk| && 0 <= NFree(disk[b]) <= NICFREE
  {
    seq(NFree(disk[b]), i requires 0 <= i < NFree(disk[b]) => Free(disk[b], i))
  }

  /** The cache list and the blocks chained behind it hold the stack st, bottom first. */
  ghost predicate Chain(list: seq<int>, disk: seq<Block>, st: seq<int>)
    decreases |st|
  {
    if list == [] then st == []
    else
      && |list| <= |st| && st[|st| - |list|..] == list
      && 0 <= list[0] < |disk| && 0 <= NFree(disk[list[0]]) <= NICFREE
      && Chain(Next(disk, list[0]), disk, st[..|st| - |list|])
  }

  ghost predicate Distinct(st: seq<int>) {
    forall i, j :: 0 <= i < j < |st| ==> st[i] != st[j]
  }

  /** The free blocks of a volume: distinct data blocks. */
  ghost predicate Stack(st: seq<int>, isize: int, fsize: int) {
    Distinct(st) && forall i :: 0 <= i < |st| ==> isize <= st[i] < fsize
  }

  lemma {:induction false} StackPush(st: seq<int>, b: int, isize: int, fsize: int)
    requires Stack(st, isize, fsize) && b !in st && isize <= b < fsize
    ensures Stack(st + [b], isize, fsize)
  {
  }

  lemma {:induction false} StackPop(st: seq<int>, isize: int, fsize: int, k: nat)
    requires Stack(st, isize, fsize) && k < |st|
    ensures Stack(st[..|st| - 1], isize, fsize) && isize <= st[|st| - 1] < fsize && isize <= st[k] < fsize
  {
  }

  /** Writing blocks that are not free leaves the chain alone. */
  lemma {:induction false} ChainFrame(list: seq<int>, disk: seq<Block>, st: seq<int>, disk': seq<Block>)
    requires Chain(list, disk, st) && |disk'| == |disk|
    requires forall i :: 0 <= i < |st| && 0 <= st[i] < |disk| ==> disk'[st[i]] == disk[st[i]]
    ensures Chain(list, disk', st)
    decreases |st|
  {
    if list != [] {
      var k := |st| - |list|;
      assert st[k] == list[0];
      ChainFrame(Next(disk, list[0]), disk, st[..k], disk');
    }
  }

  /** The chain determines the stack. */
  lemma {:induction false} ChainUnique(list: seq<int>, disk: seq<Block>, s: seq<int>, t: seq<int>)
    requires Chain(list, disk, s) && Chain(list, disk, t)
    ensures s == t
    decreases |s|
  {
    if list != [] {
      ChainUnique(Next(disk, list[0]), disk, s[..|s| - |list|], t[..|t| - |list|]);
      assert s == s[..|s| - |list|] + list && t == t[..|t| - |list|] + list;
    }
  }

  lemma {:induction false} ChainEmpty(list: seq<int>, disk: seq<Block>, st: seq<int>)
    requires Chain(list, disk, st)
    ensures list == [] <==> st == []
  {
  }

  /** The cache after its top block is handed out: refilled from that block if it was the
      last one. */
  ghost function Popped(list: seq<int>, disk: seq<Block>): seq<int>
    requires list != [] && 0 <= list[0] < |disk| && 0 <= NFree(disk[list[0]]) <= NICFREE
  {
    if |list| == 1 then Next(disk, list[0]) else list[..|list| - 1]
  }

  lemma {:induction false} ChainPop(list: seq<int>, disk: seq<Block>, st: seq<int>)
    requires Chain(list, disk, st) && list != []
    ensures st != [] && st[|st| - 1] == list[|list| - 1] && |list| <= |st| && st[|st| - |list|] == list[0]
    ensures 0 <= list[0] < |disk| && 0 <= NFree(disk[list[0]]) <= NICFREE
    ensures Chain(Popped(list, disk), disk, st[..|st| - 1])
  {
    hide NFree, Free;
    var n, s := |list|, st[..|st| - 1];
    assert st[|st| - n..][n - 1] == list[n - 1];
    assert st[|st| - n..][0] == list[0];
    if n > 1 {
      var l := list[..n - 1];
      assert s[|s| - |l|..] == l && l[0] == list[0];
      assert s[..|s| - |l|] == st[..|st| - n];
      assert Chain(l, disk, s);
    } else {
      assert st[..|st| - n] == s;
    }
  }

  lemma {:induction false} PoppedIs(list: seq<int>, disk: seq<Block>)
    requires list != [] && 0 <= list[0] < |disk| && 0 <= NFree(disk[list[0]]) <= NICFREE
    ensures Popped(list, disk) == if |list| == 1 then Next(disk, list[0]) else list[..|list| - 1]
  {
  }

  /** A block joins a cache that has room: always sound above another block, but on an
      empty cache only if the block itself ends the chain. */
  lemma {:induction false} ChainPush(list: seq<int>, disk: seq<Block>, st: seq<int>, b: int)
    requires Chain(list, disk, st) && 0 <= b < |disk|
    ensures Chain(list + [b], disk, st + [b]) <==> list != [] || NFree(disk[b]) == 0
  {
    var s, l := st + [b], list + [b];
    assert s[|s| - |l|..] == l by { assert list == st[|st| - |list|..]; }
    assert s[..|s| - |l|] == st[..|st| - |list|];
    if list == [] {
      assert st == [] && s[..0] == [];
      if NFree(disk[b]) == 0 {
        assert Next(disk, b) == [];
      } else if 0 <= NFree(disk[b]) <= NICFREE {
        assert Next(disk, b) != [] && !Chain(Next(disk, b), disk, []);
      }
    }
  }

  /** A block takes the whole cache over and becomes its one entry. */
  lemma {:induction false} ChainSpill(list: seq<int>, disk: seq<Block>, st: seq<int>, b: int, blk: Block)
    requires Chain(list, disk, st) && 0 <= b < |disk| && b !in st
    requires |list| <= NICFREE && NFree(blk) == |list| && forall i :: 0 <= i < |list| ==> Free(blk, i) == list[i]
    ensures Chain([b], disk[b := blk], st + [b])
  {
    var s, d := st + [b], disk[b := blk];
    ChainFrame(list, disk, st, d);
    assert s[|s| - 1..] == [b] && s[..|s| - 1] == st;
    assert Next(d, b) == list;
  }

  /** The disk with nothing behind the bottom block. */
  ghost function Ended(disk: seq<Block>, st: seq<int>): (d: seq<Block>)
    ensures |d| == |disk| && forall i {:trigger d[i]} :: 0 <= i < |d| && (st == [] || i != st[0]) ==> d[i] == disk[i]
  {
    if st != [] && 0 <= st[0] < |disk| then disk[st[0] := Zero] else disk
  }

  lemma {:induction false} ChainBottom(list: seq<int>, disk: seq<Block>, st: seq<int>, blk: Block)
    requires Chain(list, disk, st) && st != [] && Distinct(st) && 0 <= st[0] < |disk| && NFree(blk) == 0
    ensures Chain(list, disk[st[0] := blk], st)
    decreases |st|
  {
    hide NFree, Free;
    var k := |st| - |list|;
    assert st[k..][0] == list[0] == st[k];
    if k > 0 {
      var next := Next(disk, list[0]);
      assert st[..k][0] == st[0];
      ChainBottom(next, disk, st[..k], blk);
      assert Next(disk[st[0] := blk], list[0]) == next;
    } else {
      assert Next(disk[st[0] := blk], list[0]) == [] == st[..0];
    }
  }

  /** A chain is one that would end with its bottom block, and does. */
  lemma {:induction false} ChainEnded(list: seq<int>, disk: seq<Block>, st: seq<int>)
    requires Distinct(st) && forall i :: 0 <= i < |st| ==> 0 <= st[i] < |disk|
    ensures Chain(list, disk, st) <==> Chain(list, Ended(disk, st), st) && (st == [] || NFree(disk[st[0]]) == 0)
  {
    hide NFree, Free, Chain;
    if st != [] {
      ZeroLink();
      if Chain(list, disk, st) {
        BottomEnds(list, disk, st);
        ChainBottom(list, disk, st, Zero);
      }
      if Chain(list, Ended(disk, st), st) && NFree(disk[st[0]]) == 0 {
        ChainBottom(list, Ended(disk, st), st, disk[st[0]]);
        assert Ended(disk, st)[st[0] := disk[st[0]]] == disk;
      }
    }
  }

  /** The block at the bottom of a chain says that nothing follows. */
  lemma {:induction false} BottomEnds(list: seq<int>, disk: seq<Block>, st: seq<int>)
    requires Chain(list, disk, st) && st != []
    ensures 0 <= st[0] < |disk| && NFree(disk[st[0]]) == 0
    decreases |st|
  {
    hide NFree, Free;
    var k := |st| - |list|;
    var next := Next(disk, list[0]);
    assert st[k..][0] == list[0];
    ChainEmpty(next, disk, st[..k]);
    if k > 0 {
      BottomEnds(next, disk, st[..k]);
      assert st[..k][0] == st[0];
    } else {
      assert st[..0] == [] && |next| == NFree(disk[list[0]]);
    }
  }

  /** Fill a cleared block with a count and the whole of s_free. */
  method MakeLink(n: int, free: array<int>) returns (blk: Block)
    requires 0 <= n <= NICFREE == free.Length && forall i :: 0 <= i < NICFREE ==> IsAddr(free[i])
    ensures NFree(blk) == n && forall i :: 0 <= i < NICFREE ==> Free(blk, i) == free[i]
  {
    blk := Link(n, free[..]);
  }

  /** Copy the addresses of a link into s_free. */
  method CopyLink(blk: Block, free: array<int>)
    requires free.Length == NICFREE
    modifies free
    ensures forall i :: 0 <= i < NICFREE ==> free[i] == Free(blk, i) && IsAddr(free[i])
  {
    var i := 0;
    while i < NICFREE
      invariant 0 <= i <= NICFREE && forall j :: 0 <= j < i ==> free[j] == Free(blk, j)
    {
      free[i] := Free(blk, i);
      i := i + 1;
    }
  }

  // ----- the kernel: fs2.c -----------------------------------------------------------

  /** A mounted filesystem: the in-core superblock and the blocks behind it. */
  class Mount {
    const isize: int           // first data block
    const fsize: int           // blocks in the volume
    var nfree: int             // s_nfree, a short
    var free: array<int>       // s_free
    var tfree: int             // s_tfree
    var disk: seq<Block>
    ghost var st: seq<int>     // the free stack, bottom first

    ghost predicate Valid()
      reads this, free
    {
      && 0 < isize <= fsize <= |disk| && fsize <= 0x8000_0000
      && free.Length == NICFREE && 0 <= nfree <= NICFREE
      && (forall i :: 0 <= i < NICFREE ==> IsAddr(free[i]))
      && Stack(st, isize, fsize) && tfree == |st|
      && Chain(free[..nfree], disk, st)
    }

    /** A block that is not free is written through the cache. */
    method Write(b: int, blk: Block)
      requires Valid() && b !in st && 0 <= b < |disk|
      modifies this`disk
      ensures Valid() && disk == old(disk)[b := blk]
    {
      ChainFrame(free[..nfree], disk, st, disk[b := blk]);
      disk := disk[b := blk];
    }

    /** The last entry of the cache is a link: what it hands on comes in. */
    method Refill(b: int) returns (bad: bool)
      requires 0 < isize <= fsize <= |disk| && free.Length == NICFREE
      modifies this`nfree, free
      ensures isize <= b < fsize && 0 <= NFree(disk[b]) <= NICFREE ==>
        !bad && nfree == NFree(disk[b]) && free[..nfree] == Next(disk, b) && forall i :: 0 <= i < NICFREE ==>
          IsAddr(free[i])
    {
      hide NFree, Free;
      if b >= fsize || b < isize {
        return true;
      }
      var fbp := disk[b];
      nfree := NFree(fbp);
      if nfree < 0 || nfree > NICFREE {
        return true;
      }
      CopyLink(fbp, free);
      return false;
    }

    /** Take a block off the free list; 0 means no space.  The two exits of the code that
        report a bad free list are never taken. */
    method BAlloc() returns (b: int, badList: bool)
      requires Valid()
      modifies this`nfree, this`tfree, this`st, free
      ensures Valid() && !badList
      ensures old(st) == [] ==> b == 0 && st == []
      ensures old(st) != [] ==> b == old(st)[|old(st)| - 1] && st == old(st)[..|old(st)| - 1] && isize <= b < fsize
    {
      hide Chain, NFree, Free, Stack;
      ChainEmpty(free[..nfree], disk, st);
      badList, b := false, 0;
      var enospc := nfree == 0;
      if !enospc {
        b, enospc, badList := Take();
      }
      if enospc || badList {
        nfree := 0;
        b := 0;
      }
    }

    /** balloc when the cache is not empty. */
    method Take() returns (b: int, enospc: bool, badList: bool)
      requires Valid() && nfree > 0 && st != []
      modifies this`nfree, this`tfree, this`st, free
      ensures Valid() && !enospc && !badList
      ensures b == old(st)[|old(st)| - 1] && st == old(st)[..|old(st)| - 1] && isize <= b < fsize
    {
      hide Chain, NFree, Free, Stack, Next, Popped;
      ghost var list, s := free[..nfree], st[..|st| - 1];
      ChainPop(list, disk, st);
      StackPop(st, isize, fsize, |st| - nfree);
      PoppedIs(list, disk);
      enospc, badList := false, false;
      nfree := nfree - 1;
      b := free[nfree];
      if b == 0 {
        enospc := true;
      } else {
        if nfree == 0 {
          badList := Refill(b);
        }
        if !badList {
          var t := tfree - 1;
          if b >= fsize || b < isize {
            t := t + 1;
            badList := true;
          }
          tfree := t;
        }
      }
      if !enospc && !badList {
        assert free[..nfree] == Popped(list, disk);
      }
      st := s;
    }

    /** Put a block back; one outside the data area is refused. */
    method BFree(b: int)
      requires Valid() && b !in st
      modifies this`nfree, this`tfree, this`st, this`disk, free
      ensures Valid() && |disk| == |old(disk)|
      ensures isize <= b < fsize ==> st == old(st) + [b] && forall i :: 0 <= i < |disk| && i != b ==>
        disk[i] == old(disk)[i]
      ensures !(isize <= b < fsize) ==> st == old(st) && disk == old(disk)
    {
      hide NFree, Free, Chain, Stack;
      if b >= fsize || b < isize {
        return;
      }
      ghost var list := free[..nfree];
      if nfree == 0 || nfree == NICFREE {
        var blk := MakeLink(nfree, free);
        ChainSpill(list, disk, st, b, blk);
        disk := disk[b := blk];
        nfree := 0;
      } else {
        ChainPush(list, disk, st, b);
      }
      free[nfree] := b;
      assert free[..nfree + 1] == if nfree == 0 then [b] else list + [b];
      StackPush(st, b, isize, fsize);
      nfree := nfree + 1;
      tfree := tfree + 1;
      st := st + [b];
    }
  }

  // ----- icheck.c ---------------------------------------------------------------------

  /** The seq fsize-1, fsize-2, ... down to lo of the blocks that no inode uses. */
  ghost function Unused(used: set<int>, lo: int, hi: int): (s: seq<int>)
    decreases hi - lo
    ensures forall i :: 0 <= i < |s| ==> lo <= s[i] < hi && s[i] !in used
    ensures forall i, j :: 0 <= i < j < |s| ==> s[i] > s[j]
    ensures forall b :: lo <= b < hi && b !in used ==> b in s
  {
    if lo >= hi then []
    else
      var s := Unused(used, lo + 1, hi);
      if lo in used then s else
        assert forall b :: lo <= b < hi && b !in used ==> b == lo || b in s;
        s + [lo]
  }

  class Icheck {
    const isize: int
    const fsize: int
    var nfree: int
    var free: array<int>
    var tfree: int
    var disk: seq<Block>

    ghost predicate Volume()
      reads this, free
    {
      && 0 < isize <= fsize <= |disk| && fsize <= 0x8000_0000
      && free.Length == NICFREE && (forall i :: 0 <= i < NICFREE ==> IsAddr(free[i]))
    }

    /** The superblock and the chain hold exactly the stack st. */
    ghost predicate Holds(st: seq<int>)
      reads this, free
    {
      && Volume() && 0 <= nfree <= NICFREE
      && Stack(st, isize, fsize) && tfree == |st|
      && Chain(free[..nfree], disk, st)
    }

    /** The first block freed ends the chain, so it is cleared. */
    method ClearLast(bn: int, ghost st: seq<int>)
      requires Holds(st) && bn !in st && isize <= bn < fsize
      modifies this`disk
      ensures Holds(st) && |disk| == |old(disk)| && (st == [] ==> NFree(disk[bn]) == 0)
      ensures forall i :: 0 <= i < |disk| && i != bn ==> disk[i] == old(disk)[i]
    {
      hide NFree, Free, Chain, Zero, Stack;
      if tfree == 0 {
        ChainFrame(free[..nfree], disk, st, disk[bn := Zero]);
        disk := disk[bn := Zero];
        ZeroLink();
      }
    }

    /** A full cache goes into block bn, the next link. */
    method Spill(bn: int, ghost st: seq<int>)
      requires Holds(st) && bn !in st && isize <= bn < fsize
      modifies this`nfree, this`disk
      ensures free[..] == old(free[..]) && Volume() && |disk| == |old(disk)|
      ensures 0 <= nfree < NICFREE && tfree == |st|
      ensures forall i :: 0 <= i < |disk| && i != bn ==> disk[i] == old(disk)[i]
      ensures (st == [] && NFree(old(disk)[bn]) != 0) || Chain(free[..nfree] + [bn], disk, st + [bn])
    {
      hide NFree, Free, Chain, Stack;
      ghost var list := free[..nfree];
      ChainEmpty(list, disk, st);
      if nfree == NICFREE {
        var blk := MakeLink(nfree, free);
        ChainSpill(list, disk, st, bn, blk);
        disk := disk[bn := blk];
        nfree := 0;
        assert free[..nfree] + [bn] == [bn];
      } else {
        ChainPush(list, disk, st, bn);
      }
    }

    method BFree(bn: int, ghost st: seq<int>)
      requires Holds(st) && bn !in st && isize <= bn < fsize
      modifies this`nfree, this`tfree, this`disk, free
      ensures Holds(st + [bn]) && |disk| == |old(disk)|
      ensures forall i :: 0 <= i < |disk| && i != bn ==> disk[i] == old(disk)[i]
    {
      hide NFree, Free, Chain, Stack;
      ClearLast(bn, st);
      Spill(bn, st);
      StackPush(st, bn, isize, fsize);
      ghost var list := free[..nfree];
      free[nfree] := bn;
      assert free[..nfree + 1] == list + [bn];
      nfree := nfree + 1;
      tfree := tfree + 1;
    }

    method Reset()
      requires Volume()
      modifies this`nfree, this`tfree
      ensures Holds([])
    {
      nfree := 0;
      tfree := 0;
    }

    /** The free-list half of makesuper: whatever the old list was, the new chain holds
        exactly the data blocks no inode uses, each once, the lowest on top. */
    method MakeSuper(used: set<int>)
      requires Volume()
      modifies this`nfree, this`tfree, this`disk, free
      ensures Holds(Unused(used, isize, fsize)) && |disk| == |old(disk)|
      ensures forall i :: 0 <= i < |disk| && i !in Unused(used, isize, fsize) ==> disk[i] == old(disk)[i]
    {
      hide Holds, Unused;
      Reset();
      var bn := fsize - 1;
      ghost var st: seq<int> := [];
      UnusedNone(used, fsize);
      VolumeSizes();
      while bn >= isize
        invariant isize - 1 <= bn < fsize && |disk| == |old(disk)| && free == old(free)
        invariant st == Unused(used, bn + 1, fsize) && Holds(st)
        invariant forall i :: 0 <= i < |disk| && i !in st ==> disk[i] == old(disk)[i]
      {
        UnusedStep(used, bn, fsize);
        if bn !in used {
          BFree(bn, st);
          st := st + [bn];
        }
        bn := bn - 1;
      }
    }

    lemma VolumeSizes()
      requires Volume()
      ensures isize <= fsize
    {
    }

    /** The walk of freecount: it ends, meets every free block once, never sees a bad
        count, and agrees with the recorded total. */
    method FreeCount(ghost st: seq<int>) returns (nfreeb: int, bad: bool, visited: seq<int>)
      requires Holds(st)
      ensures !bad && nfreeb == tfree == |visited|
      ensures multiset(visited) == multiset(st)
    {
      hide NFree, Free;
      nfreeb, bad, visited := 0, false, [];
      var list: seq<int>;
      list := free[..nfree];
      var n := nfree;
      ghost var rest := st;
      assert multiset(visited) + multiset(rest) == multiset(st);
      while n != 0
        invariant 0 <= n <= NICFREE && |list| == n && Chain(list, disk, rest)
        invariant nfreeb == |visited| == |st| - |rest| && multiset(visited) + multiset(rest) == multiset(st)
        decreases |rest|
      {
        if n > NICFREE {
          return nfreeb, true, visited;
        }
        visited := Mark(list, visited);
        nfreeb := nfreeb + n;
        var fbp := disk[list[0]];
        ghost var k := |rest| - n;
        assert rest == rest[..k] + list;
        rest := rest[..k];
        ghost var next := Next(disk, list[0]);
        n := NFree(fbp);
        list := seq(n, j requires 0 <= j < n => Free(fbp, j));
        assert list == next;
      }
    }

    /** The inner loop of freecount. */
    method Mark(list: seq<int>, visited: seq<int>) returns (v: seq<int>)
      ensures v == visited + list
    {
      v := visited;
      var i := 0;
      while i < |list|
        invariant 0 <= i <= |list| && v == visited + list[..i]
      {
        v := v + [list[i]];
        i := i + 1;
      }
    }
  }

  lemma {:induction false} UnusedNone(used: set<int>, fsize: int)
    ensures Unused(used, fsize, fsize) == []
  {
  }

  lemma {:induction false} UnusedStep(used: set<int>, b: int, fsize: int)
    requires b < fsize
    ensures b !in Unused(used, b + 1, fsize)
    ensures Unused(used, b, fsize) == Unused(used, b + 1, fsize) + if b in used then [] else [b]
  {
  }
}
