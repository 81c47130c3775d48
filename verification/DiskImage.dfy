/** The offline tool's view of a volume, disk.py: its superblock and blocks, and its own
    versions of balloc and bfree. */
module DiskImage {
  import opened Blocks
  import opened FreeList

  class Image {
    const isize: int           // first data block
    const fsize: int           // blocks in the partition
    var nfree: int
    var free: array<int>
    var tfree: int
    var disk: seq<Block>
    ghost var st: seq<int>     // the free stack, bottom first

    ghost predicate Shape()
      reads this, free
    {
      && 0 < isize <= fsize <= |disk| && fsize <= 0x8000_0000
      && free.Length == NICFREE && 0 <= nfree <= NICFREE
      && (forall i :: 0 <= i < NICFREE ==> IsAddr(free[i]))
      && Stack(st, isize, fsize) && tfree == |st|
    }

    ghost predicate Valid()
      reads this, free
    {
      Shape() && Chain(free[..nfree], disk, st)
    }

    /** The same but for what the bottom block says is behind it. */
    ghost predicate Loose()
      reads this, free
    {
      Shape() && Chain(free[..nfree], Ended(disk, st), st)
    }

    /** write_block on a block that is not free. */
    method WriteBlock(b: int, blk: Block)
      requires Loose() && b !in st && 0 <= b < |disk|
      modifies this`disk
      ensures Loose() && disk == old(disk)[b := blk] && (Valid() <==> old(Valid()))
    {
      hide Chain, NFree, Stack, Ended;
      LooseIs();
      WriteFrame(disk, st, b, blk);
      ChainFrame(free[..nfree], Ended(disk, st), st, Ended(disk[b := blk], st));
      disk := disk[b := blk];
      LooseIs();
    }

    lemma {:induction false} WriteFrame(d: seq<Block>, s: seq<int>, b: int, blk: Block)
      requires b !in s && 0 <= b < |d|
      ensures forall i :: 0 <= i < |s| && 0 <= s[i] < |d| ==> Ended(d[b := blk], s)[s[i]] == Ended(d, s)[s[i]]
    {
    }

    /** alloc_block; 0 stands for the error that there is no free block.  The errors for a
        bad chain are never raised. */
    method AllocBlock() returns (b: int, bad: bool)
      requires Valid()
      modifies this`nfree, this`tfree, this`st, free
      ensures Valid() && !bad
      ensures old(st) == [] ==> b == 0 && st == []
      ensures old(st) != [] ==> b == old(st)[|old(st)| - 1] && st == old(st)[..|old(st)| - 1] && isize <= b < fsize
    {
      hide Chain, NFree, Free, Stack;
      bad, b := false, 0;
      ChainEmpty(free[..nfree], disk, st);
      if nfree <= 0 {
        return;
      }
      ghost var list := free[..nfree];
      ChainPop(list, disk, st);
      StackPop(st, isize, fsize, |st| - nfree);
      ghost var s := st[..|st| - 1];
      var n := nfree - 1;
      b := free[n];
      var enospc := b == 0;
      if !enospc {
        nfree := n;
        if nfree == 0 {
          if b < isize || b >= fsize {
            bad := true;
          } else {
            var fblk := disk[b];
            n := NFree(fblk);
            if n < 0 || n > NICFREE {
              bad := true;
            } else {
              CopyLink(fblk, free);
              nfree := n;
            }
          }
        }
        if !bad {
          if tfree > 0 {
            tfree := tfree - 1;
          }
        }
        if !bad {
          assert free[..nfree] == Popped(list, disk);
        }
      }
      st := s;
    }

    /** The cache is full: it moves into b, which becomes the next link. */
    method Spill(b: int)
      requires Loose() && b !in st && isize <= b < fsize && nfree == NICFREE
      modifies this`nfree, this`tfree, this`st, this`disk, free
      ensures Loose() && st == old(st) + [b] && |disk| == |old(disk)| && old(st) != []
      ensures forall i :: 0 <= i < |disk| && i != b ==> disk[i] == old(disk)[i]
    {
      hide NFree, Free, Chain, Stack;
      ghost var list, d := free[..nfree], Ended(disk, st);
      var blk := MakeLink(nfree, free);
      ChainEmpty(list, d, st);
      ChainSpill(list, d, st, b, blk);
      StackPush(st, b, isize, fsize);
      assert d[b := blk] == Ended(disk[b := blk], st + [b]);
      disk := disk[b := blk];
      free[0] := b;
      assert free[..1] == [b];
      nfree, tfree := 1, tfree + 1;
      st := st + [b];
    }

    /** There is room in the cache. */
    method Push(b: int)
      requires Loose() && b !in st && isize <= b < fsize && nfree < NICFREE
      modifies this`nfree, this`tfree, this`st, free
      ensures Loose() && st == old(st) + [b]
    {
      hide NFree, Free, Chain, Stack;
      ghost var list, d := free[..nfree], Ended(disk, st);
      ChainEmpty(list, d, st);
      ghost var d' := Ended(disk, st + [b]);
      if st == [] {
        ChainFrame(list, d, st, d');
        ZeroLink();
        assert d'[b] == Zero;
      } else {
        assert d' == d;
      }
      ChainPush(list, d', st, b);
      StackPush(st, b, isize, fsize);
      free[nfree] := b;
      assert free[..nfree + 1] == list + [b];
      nfree, tfree := nfree + 1, tfree + 1;
      st := st + [b];
    }

    /** free_block.  It spills only a full cache, so the block that goes onto an empty
        list ends the chain, and does so exactly if its first word reads 0. */
    method FreeBlock(b: int) returns (ok: bool)
      requires Loose() && b !in st
      modifies this`nfree, this`tfree, this`st, this`disk, free
      ensures ok <==> isize <= b < fsize
      ensures !ok ==> st == old(st) && disk == old(disk) && (Valid() <==> old(Valid()))
      ensures Loose() && |disk| == |old(disk)|
      ensures ok ==> st == old(st) + [b] && forall i :: 0 <= i < |disk| && i != b ==> disk[i] == old(disk)[i]
      ensures ok && old(st) == [] ==> disk == old(disk)
      ensures ok ==> (Valid() <==> if old(st) == [] then NFree(old(disk)[b]) == 0 else old(Valid()))
    {
      hide NFree, Chain, Stack, Shape, Ended;
      ShapeIs();
      LooseIs();
      if b == 0 || b < isize || b >= fsize {
        return false;
      }
      ok := true;
      if nfree == NICFREE {
        Spill(b);
      } else {
        Push(b);
      }
      LooseIs();
    }

    lemma {:induction false} ShapeIs()
      requires Loose()
      ensures Shape() && 0 < isize <= fsize <= |disk| && 0 <= nfree <= NICFREE
    {
    }

    /** The chain is a proper one if and only if it ends. */
    lemma {:induction false} LooseIs()
      ensures Valid() <==> Loose() && (st == [] || (0 <= st[0] < |disk| && NFree(disk[st[0]]) == 0))
      ensures Loose() && st != [] ==> isize <= st[0] < fsize <= |disk|
    {
      hide Chain, NFree, Ended;
      if Shape() { ChainEnded(free[..nfree], disk, st); }
    }
  }
}
