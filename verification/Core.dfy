/** Core memory in clicks, and the copy and clear loops that seg.c uses on it. */
module Core {
  /** A click of memory holds two disk blocks. */
  datatype Click = Click(lo: int, hi: int)

  const ZERO: Click := Click(0, 0)

  ghost function Moved(m: seq<Click>, from: int, to: int, n: int): (r: seq<Click>)
    requires 0 <= from && 0 <= to && 0 <= n && from + n <= |m| && to + n <= |m|
    ensures |r| == |m|
    ensures forall i {:trigger r[i]} :: 0 <= i < |m| ==> r[i] == if to <= i < to + n then m[from + (i - to)] else m[i]
  {
    seq(|m|, i requires 0 <= i < |m| => if to <= i < to + n then m[from + (i - to)] else m[i])
  }

  ghost function Cleared(m: seq<Click>, at: int, n: int): (r: seq<Click>)
    ensures |r| == |m|
    ensures forall i {:trigger r[i]} :: 0 <= i < |m| ==> r[i] == if at <= i < at + n then ZERO else m[i]
  {
    seq(|m|, i requires 0 <= i < |m| => if at <= i < at + n then ZERO else m[i])
  }

  ghost function Zeros(n: nat): (r: seq<Click>)
    ensures |r| == n && forall i {:trigger r[i]} :: 0 <= i < n ==> r[i] == ZERO
  {
    seq(n, i => ZERO)
  }

  /** The n clicks from b on. */
  ghost function Part(m: seq<Click>, b: int, n: int): (r: seq<Click>)
    requires 0 <= b && 0 <= n && b + n <= |m|
    ensures |r| == n && forall i {:trigger r[i]} :: 0 <= i < n ==> r[i] == m[b + i]
  {
    m[b..b + n]
  }

  /** slrcopy: from the bottom up, right when the target is below, or clear of the source. */
  method SlrCopy(mem: array<Click>, from: int, to: int, n: int)
    requires 0 <= from && 0 <= to && 0 <= n && from + n <= mem.Length && to + n <= mem.Length
    requires to <= from || from + n <= to
    modifies mem
    ensures mem[..] == Moved(old(mem[..]), from, to, n)
  {
    var i := 0;
    ghost var m := mem[..];
    while i < n
      invariant 0 <= i <= n
      invariant forall k {:trigger mem[k]} :: to <= k < to + i ==> mem[k] == m[from + (k - to)]
      invariant forall k {:trigger mem[k]} :: 0 <= k < mem.Length && !(to <= k < to + i) ==> mem[k] == m[k]
    {
      assert mem[from + i] == m[from + i];
      mem[to + i] := mem[from + i];
      i := i + 1;
    }
    assert mem[..] == Moved(m, from, to, n);
  }

  /** srlcopy: from the top down, right when the target is above. */
  method SrlCopy(mem: array<Click>, from: int, to: int, n: int)
    requires 0 <= from && 0 <= to && 0 <= n && from + n <= mem.Length && to + n <= mem.Length
    requires from <= to
    modifies mem
    ensures mem[..] == Moved(old(mem[..]), from, to, n)
  {
    var i := n;
    ghost var m := mem[..];
    while i > 0
      invariant 0 <= i <= n
      invariant forall k {:trigger mem[k]} :: to + i <= k < to + n ==> mem[k] == m[from + (k - to)]
      invariant forall k {:trigger mem[k]} :: 0 <= k < mem.Length && !(to + i <= k < to + n) ==> mem[k] == m[k]
    {
      i := i - 1;
      assert mem[from + i] == m[from + i];
      mem[to + i] := mem[from + i];
    }
    assert mem[..] == Moved(m, from, to, n);
  }

  /** sclear. */
  method SClear(mem: array<Click>, at: int, n: int)
    requires 0 <= at && 0 <= n && at + n <= mem.Length
    modifies mem
    ensures mem[..] == Cleared(old(mem[..]), at, n)
  {
    var i := 0;
    while i < n
      invariant 0 <= i <= n
      invariant forall k {:trigger mem[k]} :: 0 <= k < mem.Length ==>
        mem[k] == if at <= k < at + i then ZERO else old(mem[..])[k]
    {
      mem[at + i] := ZERO;
      i := i + 1;
    }
  }

  lemma {:induction false} MovedPart(m: seq<Click>, from: int, to: int, n: int)
    requires 0 <= from && 0 <= to && 0 <= n && from + n <= |m| && to + n <= |m|
    ensures Part(Moved(m, from, to, n), to, n) == Part(m, from, n)
  {
    var l, r := Part(Moved(m, from, to, n), to, n), Part(m, from, n);
    assert forall i {:trigger l[i]} :: 0 <= i < n ==> l[i] == r[i];
  }

  /** Clicks that are neither written by the copy nor cleared stay. */
  lemma {:induction false} PartStays(m: seq<Click>, m': seq<Click>, b: int, n: int)
    requires 0 <= b && 0 <= n && b + n <= |m| == |m'|
    requires forall k {:trigger m'[k]} :: b <= k < b + n ==> m'[k] == m[k]
    ensures Part(m', b, n) == Part(m, b, n)
  {
  }
}
