/** Disk blocks as 512 bytes, and the two structures the filesystem lays over them:
    a link of the free chain (struct fblk) and an indirect block of 128 addresses.
    Long words are stored middle-endian: the high half first, each half low byte first. */
module Blocks {
  const BSIZE: nat := 512
  const NICFREE: nat := 64
  const NBN: nat := 128

  type byte = x: int | 0 <= x < 256 witness 0
  type Block = s: seq<byte> | |s| == BSIZE witness seq(BSIZE, i => 0)

  function Cleared(): (b: Block)
    ensures forall i :: 0 <= i < BSIZE ==> b[i] == 0
  {
    seq(BSIZE, i => 0)
  }

  /** A block of zeros. */
  const Zero: Block := Cleared()

  predicate IsAddr(v: int) { 0 <= v < 0x1_0000_0000 }

  function Get16(b: Block, o: nat): (v: int)
    requires o + 2 <= BSIZE
    ensures 0 <= v < 0x1_0000
  {
    var lo: int, hi: int := b[o], b[o + 1];
    lo + 256 * hi
  }

  function Get32(b: Block, o: nat): (v: int)
    requires o + 4 <= BSIZE
    ensures IsAddr(v)
  {
    0x1_0000 * Get16(b, o) + Get16(b, o + 2)
  }

  /** Byte k of a long word as it lies on disk. */
  function Byte32(v: int, k: nat): (r: byte)
    requires IsAddr(v) && k < 4
  {
    if k == 0 then v / 0x1_0000 % 256
    else if k == 1 then v / 0x100_0000
    else if k == 2 then v % 256
    else v / 256 % 256
  }

  lemma Bytes32(v: int)
    requires IsAddr(v)
    ensures v == 0x1_0000 * (Byte32(v, 0) + 256 * Byte32(v, 1)) + Byte32(v, 2) + 256 * Byte32(v, 3)
  {
  }

  function Put32(b: Block, o: nat, v: int): (r: Block)
    requires o + 4 <= BSIZE && IsAddr(v)
  {
    b[o := Byte32(v, 0)][o + 1 := Byte32(v, 1)][o + 2 := Byte32(v, 2)][o + 3 := Byte32(v, 3)]
  }

  // ----- indirect blocks ---------------------------------------------------------

  function Entry(b: Block, i: nat): (v: int)
    requires i < NBN
    ensures IsAddr(v)
  {
    Get32(b, 4 * i)
  }

  function SetEntry(b: Block, i: nat, v: int): (r: Block)
    requires i < NBN && IsAddr(v)
    ensures forall j :: 0 <= j < NBN ==> Entry(r, j) == if j == i then v else Entry(b, j)
  {
    Bytes32(v);
    Put32(b, 4 * i, v)
  }

  lemma ZeroEntries(i: nat)
    requires i < NBN
    ensures Entry(Zero, i) == 0
  {
  }

  // ----- links of the free chain ---------------------------------------------------

  /** df_nfree, a signed short. */
  function NFree(b: Block): (n: int)
    ensures -0x8000 <= n < 0x8000
  {
    var w := Get16(b, 0);
    if w > 0x7FFF then w - 0x1_0000 else w
  }

  function Free(b: Block, i: nat): (v: int)
    requires i < NICFREE
    ensures IsAddr(v)
  {
    Get32(b, 2 + 4 * i)
  }

  /** The block that bfree writes: a count, the whole of s_free, and zeros. */
  function Link(n: nat, free: seq<int>): (r: Block)
    requires n <= NICFREE == |free| && forall i :: 0 <= i < NICFREE ==> IsAddr(free[i])
    ensures NFree(r) == n && forall i :: 0 <= i < NICFREE ==> Free(r, i) == free[i]
  {
    var r: Block := seq(BSIZE, j requires 0 <= j < BSIZE =>
      if j == 0 then n else if j == 1 || 2 + 4 * NICFREE <= j then 0
      else Byte32(free[(j - 2) / 4], (j - 2) % 4));
    LinkReads(r, n, free);
    r
  }

  lemma LinkReads(r: Block, n: nat, free: seq<int>)
    requires n <= NICFREE == |free| && forall i :: 0 <= i < NICFREE ==> IsAddr(free[i])
    requires r[0] == n && r[1] == 0
    requires forall j :: 2 <= j < 2 + 4 * NICFREE ==> r[j] == Byte32(free[(j - 2) / 4], (j - 2) % 4)
    ensures NFree(r) == n && forall i :: 0 <= i < NICFREE ==> Free(r, i) == free[i]
  {
    forall i | 0 <= i < NICFREE ensures Free(r, i) == free[i] {
      Bytes32(free[i]);
      var j := 2 + 4 * i;
      assert (j - 2) / 4 == i == (j - 1) / 4 == j / 4 == (j + 1) / 4;
      assert r[j] == Byte32(free[i], 0) && r[j + 1] == Byte32(free[i], 1);
      assert r[j + 2] == Byte32(free[i], 2) && r[j + 3] == Byte32(free[i], 3);
    }
  }

  lemma ZeroLink()
    ensures NFree(Zero) == 0
  {
  }
}
