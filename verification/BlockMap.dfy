/** From logical to physical blocks: ten direct addresses and three trees of indirect
    blocks (lmap, vmap, aread of fs3.c; iclear and indfree; _classify_index of disk.py). */
module BlockMap {
  import opened Blocks

  const ND: nat := 10
  const NI: nat := 3
  const NADDR: nat := 13
  const MAXBLOCKS: nat := ND + NBN + NBN * NBN + NBN * NBN * NBN

  // ----- paths -------------------------------------------------------------------

  /** The slot in i_addr and then one slot in each indirect block on the way down. */
  type Path = seq<nat>

  predicate IsPath(p: Path) {
    && 0 < |p| <= 1 + NI
    && (if |p| == 1 then p[0] < ND else p[0] == ND + |p| - 2)
    && forall i :: 1 <= i < |p| ==> p[i] < NBN
  }

  /** _classify_index: the tree a logical block is in and its digits there. */
  function Classify(idx: nat): (p: Path)
    requires idx < MAXBLOCKS
    ensures IsPath(p)
  {
    if idx < ND then [idx]
    else
      var r := idx - ND;
      if r < NBN then [ND, r]
      else
        var r := r - NBN;
        if r < NBN * NBN then [ND + 1, r / NBN, r % NBN]
        else
          var r := r - NBN * NBN;
          [ND + 2, r / (NBN * NBN), r % (NBN * NBN) / NBN, r % NBN]
  }

  /** The logical block a path leads to. */
  function Index(p: Path): (idx: nat)
    requires IsPath(p)
  {
    if |p| == 1 then p[0]
    else if |p| == 2 then ND + p[1]
    else if |p| == 3 then ND + NBN + p[1] * NBN + p[2]
    else ND + NBN + NBN * NBN + (p[1] * NBN + p[2]) * NBN + p[3]
  }

  lemma {:induction false} DivDigit(a: nat, d: nat)
    requires d < NBN
    ensures (a * NBN + d) / NBN == a && (a * NBN + d) % NBN == d
  {
  }

  lemma {:induction false} DivTwice(r: nat)
    ensures r / (NBN * NBN) == r / NBN / NBN && r % (NBN * NBN) / NBN == r / NBN % NBN
  {
  }

  /** Block numbers below the limit and paths are in bijection. */
  lemma {:induction false} PathOfIndex(idx: nat)
    requires idx < MAXBLOCKS
    ensures Index(Classify(idx)) == idx
  {
  }

  lemma {:induction false} IndexOfPath(p: Path)
    requires IsPath(p)
    ensures Index(p) < MAXBLOCKS && Classify(Index(p)) == p
  {
    if |p| == 3 {
      DivDigit(p[1], p[2]);
    } else if |p| == 4 {
      var r := (p[1] * NBN + p[2]) * NBN + p[3];
      DivDigit(p[1], p[2]);
      DivDigit(p[1] * NBN + p[2], p[3]);
      DivTwice(r);
    }
  }

  ghost function Reverse(s: seq<nat>): (r: seq<nat>)
    ensures |r| == |s| && forall i :: 0 <= i < |s| ==> r[i] == s[|s| - 1 - i]
  {
    seq(|s|, i requires 0 <= i < |s| => s[|s| - 1 - i])
  }

  /** What lmap appends when c is left and n levels may still be used; [] is failure. */
  ghost function Slots(c: nat, n: nat): seq<nat>
    requires n <= NI
  {
    if n == 0 then []
    else if c / NBN == 0 then [c % NBN, ND + NI - n]
    else
      var t := Slots(c / NBN - 1, n - 1);
      if t == [] then [] else [c % NBN] + t
  }

  lemma {:induction false} SlotsUnfold(c: nat, n: nat)
    requires n <= NI
    ensures n == 0 ==> Slots(c, n) == []
    ensures n > 0 && c / NBN == 0 ==> Slots(c, n) == [c % NBN, ND + NI - n]
    ensures n > 0 && c / NBN > 0 ==>
      Slots(c, n) == if Slots(c / NBN - 1, n - 1) == [] then [] else [c % NBN] + Slots(c / NBN - 1, n - 1)
  {
  }

  /** The successive divisions of lmap produce the digits that _classify_index computes
      by subtraction and one division each. */
  lemma {:induction false} SlotsAreClassify(idx: nat)
    requires ND <= idx
    ensures Slots(idx - ND, NI) != [] <==> idx < MAXBLOCKS
    ensures idx < MAXBLOCKS ==> Reverse(Slots(idx - ND, NI)) == Classify(idx)
  {
    hide Slots;
    var r := idx - ND;
    var c1 := r / NBN;
    SlotsUnfold(r, 3);
    if c1 > 0 {
      var c2 := (c1 - 1) / NBN;
      SlotsUnfold(c1 - 1, 2);
      assert r - NBN == (c1 - 1) * NBN + r % NBN;
      DivDigit(c1 - 1, r % NBN);
      if c2 > 0 {
        SlotsUnfold(c2 - 1, 1);
        ThirdLevel(r, c1, c2);
        if (c2 - 1) / NBN > 0 { SlotsUnfold((c2 - 1) / NBN - 1, 0); }
      }
    }
  }

  lemma {:induction false} ThirdLevel(r: nat, c1: nat, c2: nat)
    requires c1 == r / NBN && c1 > 0 && c2 == (c1 - 1) / NBN && c2 > 0
    ensures var q := r - NBN - NBN * NBN;
      && 0 <= q && (q < NBN * NBN * NBN <==> (c2 - 1) / NBN == 0)
      && q / (NBN * NBN) == c2 - 1 && q % (NBN * NBN) / NBN == (c1 - 1) % NBN && q % NBN == r % NBN
  {
    var q := r - NBN - NBN * NBN;
    assert q == (c1 - 1 - NBN) * NBN + r % NBN;
    DivDigit(c1 - 1 - NBN, r % NBN);
    assert c1 - 1 - NBN == (c2 - 1) * NBN + (c1 - 1) % NBN;
    DivDigit(c2 - 1, (c1 - 1) % NBN);
    DivTwice(q);
  }

  lemma {:induction false} ReverseAt(s: seq<nat>)
    ensures |Reverse(s)| == |s| && forall i :: 0 <= i < |s| ==> Reverse(s)[i] == s[|s| - 1 - i]
  {
  }

  lemma {:induction false} OneSlot(b: nat)
    requires b < ND
    ensures Reverse([b]) == Classify(b)
  {
  }

  /** lmap: the slots, last first.  It fails exactly beyond the triple indirect limit,
      and needs no more room than its callers give it. */
  method LMap(b: nat) returns (ok: bool, list: seq<nat>)
    ensures ok <==> b < MAXBLOCKS
    ensures ok ==> |list| <= 1 + NI && Reverse(list) == Classify(b)
    ensures ok ==> |list| == |Classify(b)| && forall i :: 0 <= i < |list| ==> Classify(b)[i] == list[|list| - 1 - i]
  {
    hide Reverse, Classify, IsPath, Slots;
    if b < ND {
      OneSlot(b);
      ReverseAt([b]);
      return true, [b];
    }
    var c: nat := b - ND;
    var n: nat := NI;
    list := [];
    ok := true;
    SlotsAreClassify(b);
    ghost var all := Slots(c, n);
    while true
      invariant n <= NI && |list| == NI - n
      invariant all == if Slots(c, n) == [] then [] else list + Slots(c, n)
      decreases n
    {
      SlotsUnfold(c, n);
      if n == 0 {
        return false, [];
      }
      n := n - 1;
      list := list + [c % NBN];
      c := c / NBN;
      if c == 0 {
        break;
      }
      c := c - 1;
    }
    list := list + [ND + NI - 1 - n];
    assert all == list;
    ReverseAt(list);
  }
}
