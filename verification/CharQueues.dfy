/** Character queues over one pool of cells (clist.c). */
module CharQueues {
  const NCPCL: nat := 252     // characters in a cell: 256 bytes less the link, a cmap_t

  // ----- linked cells -----------------------------------------------------------------

  /** The cells l are linked from head on; 0 ends a list. */
  ghost predicate Linked(fp: seq<int>, head: int, l: seq<int>)
    decreases |l|
  {
    if l == [] then head == 0 else head == l[0] && 0 < head < |fp| && Linked(fp, fp[head], l[1..])
  }

  lemma {:induction false} LinkedFrame(fp: seq<int>, fp': seq<int>, head: int, l: seq<int>)
    requires Linked(fp, head, l) && |fp'| == |fp|
    requires forall i {:trigger l[i]} :: 0 <= i < |l| && 0 <= l[i] < |fp| ==> fp'[l[i]] == fp[l[i]]
    ensures Linked(fp', head, l)
    decreases |l|
  {
    if l != [] {
      assert fp'[l[0]] == fp[l[0]];
      forall i | 0 <= i < |l[1..]| && 0 <= l[1..][i] < |fp| ensures fp'[l[1..][i]] == fp[l[1..][i]] {
        assert l[1..][i] == l[i + 1];
      }
      LinkedFrame(fp, fp', fp[head], l[1..]);
    }
  }

  /** A cell x goes behind the last. */
  lemma {:induction false} LinkedAppend(fp: seq<int>, fp': seq<int>, head: int, l: seq<int>, x: int)
    requires Linked(fp, head, l) && l != [] && |fp'| == |fp| && 0 < x < |fp| && x !in l
    requires forall i, j :: 0 <= i < j < |l| ==> l[i] != l[j]
    requires forall i {:trigger l[i]} :: 0 <= i < |l| - 1 && 0 <= l[i] < |fp| ==> fp'[l[i]] == fp[l[i]]
    requires 0 <= l[|l| - 1] < |fp| && fp'[l[|l| - 1]] == x && fp'[x] == 0
    ensures Linked(fp', head, l + [x])
    decreases |l|
  {
    var r := l + [x];
    if |l| == 1 {
      assert r[1..] == [x] && [x][1..] == [];
    } else {
      assert r[1..] == l[1..] + [x];
      assert fp'[l[0]] == fp[l[0]];
      forall i | 0 <= i < |l[1..]| - 1 && 0 <= l[1..][i] < |fp| ensures fp'[l[1..][i]] == fp[l[1..][i]] {
        assert l[1..][i] == l[i + 1];
      }
      LinkedAppend(fp, fp', fp[head], l[1..], x);
    }
  }

  lemma {:induction false} LinkedIn(fp: seq<int>, head: int, l: seq<int>)
    requires Linked(fp, head, l)
    ensures head == 0 <==> l == []
    ensures l != [] ==> l[0] == head && 0 < head < |fp| && Linked(fp, fp[head], l[1..])
  {
  }

  // ----- characters in cells --------------------------------------------------------------

  /** Where character t of the cells is kept. */
  function Slot(cells: seq<int>, t: int): int {
    if 0 <= t < |cells| * NCPCL then cells[t / NCPCL] * NCPCL + t % NCPCL else -1
  }

  function CharAt(ch: seq<int>, i: int): int { if 0 <= i < |ch| then ch[i] else -1 }

  /** The cells hold these characters from position ox on. */
  ghost predicate Hold(ch: seq<int>, cells: seq<int>, ox: int, chars: seq<int>) {
    && 0 <= ox && ox + |chars| <= |cells| * NCPCL
    && forall k {:trigger chars[k]} :: 0 <= k < |chars| ==> chars[k] == CharAt(ch, Slot(cells, ox + k))
  }

  lemma {:induction false} HoldAt(ch: seq<int>, cells: seq<int>, ox: int, chars: seq<int>, k: nat)
    requires Hold(ch, cells, ox, chars) && k < |chars|
    ensures chars[k] == CharAt(ch, Slot(cells, ox + k)) && 0 <= ox + k < |cells| * NCPCL
  {
  }

  lemma {:induction false} HoldFrame(ch: seq<int>, ch': seq<int>, cells: seq<int>, ox: int, chars: seq<int>, x: int)
    requires Hold(ch, cells, ox, chars) && |ch'| == |ch| && x !in cells
    requires forall i {:trigger ch'[i]} :: 0 <= i < |ch| && i / NCPCL != x ==> ch'[i] == ch[i]
    ensures Hold(ch', cells, ox, chars)
  {
    forall k | 0 <= k < |chars| ensures chars[k] == CharAt(ch', Slot(cells, ox + k)) {
      HoldAt(ch, cells, ox, chars, k);
      SlotCell(cells, ox + k);
      assert cells[(ox + k) / NCPCL] in cells;
    }
  }

  lemma {:induction false} SlotCell(cells: seq<int>, t: int)
    requires 0 <= t < |cells| * NCPCL
    ensures 0 <= t / NCPCL < |cells| && Slot(cells, t) == cells[t / NCPCL] * NCPCL + t % NCPCL
    ensures Slot(cells, t) / NCPCL == cells[t / NCPCL] && Slot(cells, t) % NCPCL == t % NCPCL
  {
  }

  /** The first character is taken. */
  lemma {:induction false} HoldRest(ch: seq<int>, cells: seq<int>, ox: int, chars: seq<int>)
    requires Hold(ch, cells, ox, chars) && chars != [] && 0 <= ox < NCPCL
    ensures cells != [] && chars[0] == CharAt(ch, cells[0] * NCPCL + ox)
    ensures ox + 1 < NCPCL ==> Hold(ch, cells, ox + 1, chars[1..])
    ensures ox + 1 == NCPCL ==> Hold(ch, cells[1..], 0, chars[1..])
  {
    HoldAt(ch, cells, ox, chars, 0);
    SlotCell(cells, ox);
    forall k | 0 <= k < |chars| - 1
      ensures chars[1..][k] == CharAt(ch, Slot(cells, ox + 1 + k))
      ensures ox + 1 == NCPCL ==> Slot(cells[1..], k) == Slot(cells, ox + 1 + k)
    {
      HoldAt(ch, cells, ox, chars, 1 + k);
      if ox + 1 == NCPCL {
        SlotCell(cells, NCPCL + k);
        SlotCell(cells[1..], k);
        assert (NCPCL + k) / NCPCL == 1 + k / NCPCL;
      }
    }
  }

  /** A character is put behind the last. */
  lemma {:induction false} HoldMore(ch: seq<int>, ch': seq<int>, cells: seq<int>, cells': seq<int>, ox: int,
                                    chars: seq<int>, c: int)
    requires Hold(ch, cells, ox, chars) && cells <= cells' && |ch'| == |ch| && ox + |chars| < |cells'| * NCPCL
    requires forall i, j :: 0 <= i < j < |cells'| ==> cells'[i] != cells'[j]
    requires CharAt(ch', Slot(cells', ox + |chars|)) == c
    requires forall i {:trigger ch'[i]} :: 0 <= i < |ch| && i != Slot(cells', ox + |chars|) ==> ch'[i] == ch[i]
    ensures Hold(ch', cells', ox, chars + [c])
  {
    var all, n := chars + [c], |chars|;
    forall k | 0 <= k <= n ensures all[k] == CharAt(ch', Slot(cells', ox + k)) {
      if k < n {
        HoldAt(ch, cells, ox, chars, k);
        SlotCell(cells, ox + k);
        SlotCell(cells', ox + k);
        SlotsDiffer(cells', ox + k, ox + n);
      }
    }
  }

  lemma {:induction false} SlotsDiffer(cells: seq<int>, s: int, t: int)
    requires 0 <= s < t < |cells| * NCPCL && forall i, j :: 0 <= i < j < |cells| ==> cells[i] != cells[j]
    ensures Slot(cells, s) != Slot(cells, t)
  {
    SlotCell(cells, s);
    SlotCell(cells, t);
    if s / NCPCL == t / NCPCL {
      assert s % NCPCL != t % NCPCL;
    }
  }

  // ----- the pool ------------------------------------------------------------------------------

  class CQueue {
    var cc: int
    var ip: int
    var ix: int
    var op: int
    var ox: int
    ghost var cells: seq<int>
    ghost var chars: seq<int>

    constructor ()
      ensures Clear()
    {
      cc, ip, ix, op, ox, cells, chars := 0, 0, 0, 0, 0, [], [];
    }

    ghost predicate Clear()
      reads this
    {
      cc == ip == ix == op == ox == 0 && cells == [] && chars == []
    }

    /** The queue by itself: what it holds, and how much room its last cell has. */
    ghost predicate Ok(fp: seq<int>, ch: seq<int>)
      reads this
    {
      && cc == |chars| && Linked(fp, op, cells) && Hold(ch, cells, ox, chars)
      && 0 <= ox < NCPCL && 0 <= ix < NCPCL
      && (cc == 0 <==> cells == []) && (cells == [] ==> ip == 0 && ix == 0 && ox == 0)
      && (cells != [] ==> ip == cells[|cells| - 1] && ox + cc == (|cells| - 1) * NCPCL + if ix == 0 then NCPCL else ix)
    }
  }

  /** Who has cell x: queue own[x], or, for -1, the free list. */
  ghost predicate Belong(own: seq<int>, l: seq<int>, who: int) {
    && (forall i {:trigger l[i]} :: 0 <= i < |l| ==> 0 < l[i] < |own| && own[l[i]] == who)
    && (forall i, j :: 0 <= i < j < |l| ==> l[i] != l[j])
    && (forall x {:trigger own[x]} :: 0 < x < |own| && own[x] == who ==> x in l)
  }

  /** The first cell of queue j goes to the free list. */
  lemma {:induction false} CellFreed(own: seq<int>, cells: seq<int>, free: seq<int>, j: nat)
    requires cells != [] && Belong(own, cells, j) && Belong(own, free, -1)
    ensures var own' := own[cells[0] := -1];
      && Belong(own', cells[1..], j) && Belong(own', [cells[0]] + free, -1)
      && forall l: seq<int>, i {:trigger Belong(own, l, i)} :: i != j && i != -1 && Belong(own, l, i) ==>
        Belong(own', l, i) && cells[0] !in l
    ensures cells[0] !in cells[1..] && cells[0] !in free
  {
    var x, own' := cells[0], own[cells[0] := -1];
    assert own[x] == j;
    forall y | 0 < y < |own| && own'[y] == j ensures y in cells[1..] {
      assert own[y] == j && y in cells;
    }
    forall y | 0 < y < |own| && own'[y] == -1 ensures y in [x] + free {
    }
    forall l: seq<int>, i | i != j && i != -1 && Belong(own, l, i) ensures Belong(own', l, i) && x !in l {
      assert forall y {:trigger own'[y]} :: 0 < y < |own| && own'[y] == i ==> own[y] == i;
    }
  }

  /** The first free cell goes to queue j, as its last. */
  lemma {:induction false} CellTaken(own: seq<int>, cells: seq<int>, free: seq<int>, j: nat)
    requires free != [] && Belong(own, cells, j) && Belong(own, free, -1)
    ensures var own' := own[free[0] := j];
      && Belong(own', cells + [free[0]], j) && Belong(own', free[1..], -1)
      && forall l: seq<int>, i {:trigger Belong(own, l, i)} :: i != j && i != -1 && Belong(own, l, i) ==>
        Belong(own', l, i) && free[0] !in l
    ensures free[0] !in cells && free[0] !in free[1..]
  {
    var x, own' := free[0], own[free[0] := j];
    assert own[x] == -1;
    forall y | 0 < y < |own| && own'[y] == -1 ensures y in free[1..] {
      assert own[y] == -1 && y in free;
    }
    forall y | 0 < y < |own| && own'[y] == j ensures y in cells + [x] {
    }
    forall l: seq<int>, i | i != j && i != -1 && Belong(own, l, i) ensures Belong(own', l, i) && x !in l {
      assert forall y {:trigger own'[y]} :: 0 < y < |own| && own'[y] == i ==> own[y] == i;
    }
  }

  class Clists {
    const fp: array<int>          // cl_fp of each cell; cell 0 does not exist
    const ch: array<int>          // cl_ch of all cells
    const queues: seq<CQueue>
    var cltfree: int
    ghost var free: seq<int>
    ghost var own: seq<int>

    ghost predicate Valid()
      reads this`cltfree, this`free, this`own, fp, ch, queues
    {
      Pool() && forall j {:trigger QueueOk(j)} {:trigger queues[j]} :: 0 <= j < |queues| ==> QueueOk(j)
    }

    /** cltinit: all cells free, from the last down to the first. */
    constructor (n: nat, queues: seq<CQueue>)
      requires forall i, j :: 0 <= i < j < |queues| ==> queues[i] != queues[j]
      requires forall i {:trigger queues[i]} :: 0 <= i < |queues| ==> queues[i].Clear()
      ensures Valid() && this.queues == queues && free == Up(1, n)
    {
      this.queues := queues;
      fp := new int[n + 1](i => 0);
      ch := new int[(n + 1) * NCPCL](i => 0);
      cltfree, free, own := 0, [], [];
      new;
      var p, lm := n, 0;
      while p >= 1
        invariant 0 <= p <= n && Linked(fp[..], lm, Up(p + 1, n)) && cltfree == 0 && free == []
      {
        ghost var fp0 := fp[..];
        fp[p] := lm;
        FreeLinked(fp0, fp[..], lm, Up(p + 1, n), p);
        lm := p;
        p := p - 1;
      }
      cltfree := lm;
      free := Up(1, n);
      own := seq(n + 1, i => -1);
      forall x | 0 < x < n + 1 ensures x in free {
        assert free[x - 1] == x;
      }
      forall j | 0 <= j < |queues| ensures QueueOk(j) {
        HoldNothing(ch[..], []);
      }
    }

    /** The pool apart from what the queues hold. */
    ghost predicate Pool()
      reads this`cltfree, this`free, this`own, fp
    {
      && fp.Length == |own| > 0 && ch.Length == fp.Length * NCPCL && fp != ch
      && (forall i, j :: 0 <= i < j < |queues| ==> queues[i] != queues[j])
      && Linked(fp[..], cltfree, free) && Belong(own, free, -1)
      && (forall x {:trigger own[x]} :: 0 < x < |own| ==> -1 <= own[x] < |queues|)
    }

    ghost predicate QueueOk(j: nat)
      requires j < |queues|
      reads this`own, fp, ch, queues
    {
      queues[j].Ok(fp[..], ch[..]) && Belong(own, queues[j].cells, j)
    }

    ghost predicate OtherQueuesOk(j: nat)
      reads this`own, fp, ch, queues
    {
      forall i {:trigger QueueOk(i)} {:trigger queues[i]} :: 0 <= i < |queues| && i != j ==> QueueOk(i)
    }

    /** Operations on queue j leave alone what the others have. */
    ghost predicate Others(j: nat, was: seq<seq<int>>)
      requires |was| == |queues|
      reads queues
    {
      forall i {:trigger queues[i]} :: 0 <= i < |queues| && i != j ==> queues[i].chars == was[i]
    }

    ghost function Chars(): (c: seq<seq<int>>)
      reads queues
      ensures |c| == |queues|
      ensures forall i {:trigger c[i]} {:trigger queues[i]} :: 0 <= i < |queues| ==> c[i] == queues[i].chars
    {
      CharsOf(queues)
    }

    ghost function CharsOf(q: seq<CQueue>): (c: seq<seq<int>>)
      reads q
      ensures |c| == |q| && forall i {:trigger c[i]} {:trigger q[i]} :: 0 <= i < |q| ==> c[i] == q[i].chars
    {
      if q == [] then [] else CharsOf(q[..|q| - 1]) + [q[|q| - 1].chars]
    }

    /** Links and owners change where the other queues have no cell. */
    lemma {:induction false} StillOk(i: nat, fp0: seq<int>, own0: seq<int>)
      requires i < |queues| && queues[i].Ok(fp0, ch[..]) && fp.Length == |fp0| && Belong(own, queues[i].cells, i)
      requires forall k {:trigger queues[i].cells[k]} ::
        0 <= k < |queues[i].cells| && 0 <= queues[i].cells[k] < |fp0| ==>
        fp[queues[i].cells[k]] == fp0[queues[i].cells[k]]
      ensures QueueOk(i)
    {
      LinkedFrame(fp0, fp[..], queues[i].op, queues[i].cells);
    }

    /** Cell op is linked in front of the free list; what followed it is returned. */
    method ToFree(op: int) returns (np: int)
      requires Pool() && 0 < op < |own| && op !in free
      modifies this`cltfree, this`free, this`own, fp
      ensures np == old(fp[op]) && fp[..] == old(fp[..])[op := old(cltfree)]
      ensures cltfree == op && free == [op] + old(free) && own == old(own)[op := -1]
      ensures Linked(fp[..], cltfree, free)
    {
      hide Belong;
      ghost var fp0 := fp[..];
      np := fp[op];
      fp[op] := cltfree;
      FreeLinked(fp0, fp[..], cltfree, free, op);
      cltfree := op;
      free := [op] + free;
      own := own[op := -1];
    }

    /** Queue j in the middle of getq: all characters of its first cell have been taken. */
    ghost predicate Spent(q: CQueue, j: nat)
      reads this`cltfree, this`free, this`own, fp, ch, queues, q
    {
      && Pool() && OtherQueuesOk(j) && j < |queues| && queues[j] == q
      && Belong(own, q.cells, j) && q.cells != [] && q.cells[0] == q.op && Linked(fp[..], q.op, q.cells)
      && q.cc == |q.chars| && Hold(ch[..], q.cells[1..], 0, q.chars) && 0 <= q.ix < NCPCL
      && q.ip == q.cells[|q.cells| - 1]
      && (NCPCL + q.cc == (|q.cells| - 1) * NCPCL + (if q.ix == 0 then NCPCL else q.ix)
          || (q.cc == 0 && |q.cells| == 1))
      && (q.cc == 0 <==> |q.cells| == 1)
    }

    /** The end of getq when a cell has been used up: it goes back to the pool. */
    method FreeCell(q: CQueue, op: int, ghost j: nat)
      requires Spent(q, j) && op == q.op
      modifies this`cltfree, this`free, this`own, fp, q`ox, q`op, q`ip, q`ix, q`cells
      ensures Valid()
    {
      hide Hold, Linked, Belong, Slot;
      ghost var fp0, own0, cells := fp[..], own, q.cells;
      CellFreed(own, cells, free, j);
      OwnersFit(own, cells, j);
      LinkedIn(fp0, op, cells);
      q.ox := 0;
      var np := ToFree(op);
      TailLinked(fp0, fp[..], np, cells);
      q.op := np;
      if np == 0 {
        q.ip := 0;
        q.ix := 0;
      }
      q.cells := cells[1..];
      LinkedIn(fp[..], np, q.cells);
      OthersStill(j, fp0, own0, op, -1);
      assert QueueOk(j);
      ValidIf(j);
    }

    /** Nothing has changed for the other queues. */
    lemma {:induction false} OthersSame(j: nat, fp0: seq<int>, own0: seq<int>)
      requires fp[..] == fp0 && own == own0
      requires forall i {:trigger queues[i]} :: 0 <= i < |queues| && i != j ==>
        queues[i].Ok(fp0, ch[..]) && Belong(own0, queues[i].cells, i)
      ensures OtherQueuesOk(j)
    {
    }

    lemma {:induction false} OthersTaken(j: nat, fp0: seq<int>, own0: seq<int>, x: int)
      requires |fp0| == |own0| == fp.Length && 0 < x < |own0| && own == own0[x := j] && own0[x] == -1
      requires forall i {:trigger queues[i]} :: 0 <= i < |queues| && i != j ==>
        queues[i].Ok(fp0, ch[..]) && Belong(own0, queues[i].cells, i)
      requires forall y {:trigger fp[y]} :: 0 < y < fp.Length && own0[y] != -1 && own0[y] != j ==> fp[y] == fp0[y]
      ensures OtherQueuesOk(j)
    {
      OthersStill(j, fp0, own0, x, j);
    }

    lemma {:induction false} ValidIf(j: nat)
      requires Pool() && j < |queues| && OtherQueuesOk(j) && QueueOk(j)
      ensures Valid()
    {
    }

    lemma {:induction false} OthersStill(j: nat, fp0: seq<int>, own0: seq<int>, x: int, who: int)
      requires |fp0| == |own0| == fp.Length && 0 < x < |own0| && own == own0[x := who] && (who == -1 || who == j)
      requires own0[x] == -1 || own0[x] == j
      requires forall i {:trigger queues[i]} :: 0 <= i < |queues| && i != j ==>
        queues[i].Ok(fp0, ch[..]) && Belong(own0, queues[i].cells, i)
      requires forall y {:trigger fp[y]} :: 0 < y < fp.Length && own0[y] != -1 && own0[y] != j ==> fp[y] == fp0[y]
      ensures OtherQueuesOk(j)
    {
      hide Hold, Linked, Slot;
      forall i | 0 <= i < |queues| && i != j ensures QueueOk(i) {
        var l := queues[i].cells;
        assert queues[i].Ok(fp0, ch[..]) && Belong(own0, l, i);
        assert forall y {:trigger own[y]} :: 0 < y < |own| && own[y] == i ==> own0[y] == i;
        StillOk(i, fp0, own0);
      }
    }

    /** getq: the oldest character, or -1. */
    method GetQ(q: CQueue, ghost j: nat) returns (c: int)
      requires Valid() && j < |queues| && queues[j] == q
      modifies this`cltfree, this`free, this`own, fp, q
      ensures Valid() && Others(j, old(Chars()))
      ensures old(q.chars) == [] ==> c == -1 && q.chars == []
      ensures old(q.chars) != [] ==> c == old(q.chars)[0] % 256 && q.chars == old(q.chars)[1..]
    {
      hide Hold, Linked, Belong, Slot, Chars, Others;
      QueueIs(j);
      CharsAre();
      ghost var was := Chars();
      if q.cc == 0 {
        OthersIf(j, was);
        return -1;
      }
      var op := q.op;
      var gone;
      c, gone := TakeChar(q, j);
      if gone { FreeCell(q, op, j); }
      OthersIf(j, was);
    }

    /** The first character; gone if its cell has no other. */
    method TakeChar(q: CQueue, ghost j: nat) returns (c: int, gone: bool)
      requires Pool() && OtherQueuesOk(j) && j < |queues| && queues[j] == q && q.Ok(fp[..], ch[..])
      requires Belong(own, q.cells, j) && q.cc != 0
      modifies q`chars, q`cc, q`ox
      ensures q.chars == old(q.chars)[1..] && old(q.chars) != [] && c == old(q.chars)[0] % 256
      ensures if gone then Spent(q, j) else Valid()
    {
      hide Hold, Linked, Belong, Slot;
      ghost var cells, chars := q.cells, q.chars;
      HoldRest(ch[..], cells, q.ox, chars);
      LinkedIn(fp[..], q.op, cells);
      GetShape(q.cc, q.ox, q.ix, |cells|);
      InPool(cells[0], q.ox, fp.Length);
      c := ch[q.op * NCPCL + q.ox] % 256;
      q.chars := chars[1..];
      q.cc := q.cc - 1;
      gone := q.cc == 0;
      if !gone {
        q.ox := q.ox + 1;
        gone := q.ox == NCPCL;
      }
      if gone {
        if |cells| == 1 { HoldNothing(ch[..], cells[1..]); }
      } else {
        assert QueueOk(j);
        ValidIf(j);
      }
    }

    lemma {:induction false} CharsAre()
      ensures |Chars()| == |queues|
      ensures forall i {:trigger queues[i]} :: 0 <= i < |queues| ==> Chars()[i] == queues[i].chars
    {
    }

    lemma {:induction false} OthersIf(j: nat, was: seq<seq<int>>)
      requires |was| == |queues|
      requires forall i {:trigger queues[i]} :: 0 <= i < |queues| && i != j ==> queues[i].chars == was[i]
      ensures Others(j, was)
    {
    }

    lemma {:induction false} QueueIs(j: nat)
      requires Valid() && j < |queues|
      ensures queues[j].Ok(fp[..], ch[..]) && Belong(own, queues[j].cells, j) && Pool() && OtherQueuesOk(j)
    {
      assert QueueOk(j);
    }

    /** A queue in the middle of putq: its last cell has just been added, or has room. */
    ghost predicate HasRoom(q: CQueue, j: nat, ix: int)
      reads this`cltfree, this`free, this`own, fp, ch, queues, q
    {
      && Pool() && OtherQueuesOk(j) && j < |queues| && queues[j] == q && Belong(own, q.cells, j) && q.cells != []
      && Linked(fp[..], q.op, q.cells) && Hold(ch[..], q.cells, q.ox, q.chars) && q.cc == |q.chars| && 0 <= q.ox < NCPCL
      && q.ip == q.cells[|q.cells| - 1] && 0 <= ix < NCPCL && q.ox + q.cc == (|q.cells| - 1) * NCPCL + ix
    }

    /** The first free cell, unlinked; 0 if there is none. */
    method FromFree(ghost j: nat) returns (x: int)
      requires Pool() && j < |queues|
      modifies this`cltfree, this`free, this`own, fp
      ensures old(free) == [] ==>
        x == 0 && cltfree == old(cltfree) && fp[..] == old(fp[..]) && free == [] && own == old(own)
      ensures old(free) != [] ==>
        && x == old(free)[0] && 0 < x < fp.Length && free == old(free)[1..] && own == old(own)[x := j]
        && fp[..] == old(fp[..])[x := 0] && Linked(fp[..], cltfree, free)
    {
      hide Belong;
      ghost var fp0 := fp[..];
      LinkedIn(fp0, cltfree, free);
      x := cltfree;
      if x == 0 {
        return;
      }
      DistinctIn(own, free, -1);
      cltfree := fp[x];
      fp[x] := 0;
      TailLinked(fp0, fp[..], cltfree, free);
      free := free[1..];
      own := own[x := j];
    }

    /** The part of putq for a queue whose last cell is full, or that has none. */
    method NewCell(q: CQueue, ghost j: nat) returns (ok: bool)
      requires Valid() && j < |queues| && queues[j] == q && q.ix == 0
      modifies this`cltfree, this`free, this`own, fp, q`op, q`ip, q`cells
      ensures ok <==> old(free) != []
      ensures !ok ==>
        && Valid() && cltfree == old(cltfree) && fp[..] == old(fp[..])
        && q.cells == old(q.cells) && q.op == old(q.op) && q.ip == old(q.ip)
      ensures ok ==> HasRoom(q, j, 0)
    {
      hide Hold, Linked, Belong, Slot;
      QueueIs(j);
      ghost var fp0, own0, free0, cells := fp[..], own, free, q.cells;
      if free0 != [] { CellTaken(own, cells, free, j); }
      OwnersFit(own, cells, j);
      LinkedIn(fp0, cltfree, free);
      var x := FromFree(j);
      if x == 0 {
        OthersSame(j, fp0, own0);
        assert QueueOk(j);
        ValidIf(j);
        return false;
      }
      OwnersFit(own0, free0, -1);
      AppendCell(q, x, j, fp0, own0);
      return true;
    }

    /** How the other queues stood before a cell was taken for queue j. */
    ghost predicate Before(j: nat, fp0: seq<int>, own0: seq<int>)
      reads ch, queues
    {
      forall i {:trigger queues[i]} :: 0 <= i < |queues| && i != j ==>
        queues[i].Ok(fp0, ch[..]) && Belong(own0, queues[i].cells, i)
    }

    /** Cell x, already taken, is linked behind the last of queue j. */
    method AppendCell(q: CQueue, x: int, ghost j: nat, ghost fp0: seq<int>, ghost own0: seq<int>)
      requires Pool() && j < |queues| && queues[j] == q && q.ix == 0 && q.Ok(fp0, ch[..]) && Before(j, fp0, own0)
      requires |own0| == |own| == |fp0| && 0 < x < |own0| && own == own0[x := j] && own0[x] == -1
      requires fp[..] == fp0[x := 0]
      requires Belong(own0, q.cells, j) && Belong(own, q.cells + [x], j) && x !in q.cells
      modifies fp, q`op, q`ip, q`cells
      ensures HasRoom(q, j, 0)
    {
      hide Hold, Linked, Belong, Slot;
      ghost var cells := q.cells;
      OwnersFit(own0, cells, j);
      LinkLast(q, x, j, fp0);
      q.ip := x;
      q.cells := cells + [x];
      HoldLonger(ch[..], cells, q.cells, q.ox, q.chars);
      OthersTaken(j, fp0, own0, x);
    }

    method LinkLast(q: CQueue, x: int, ghost j: nat, ghost fp0: seq<int>)
      requires Pool() && j < |queues| && queues[j] == q && q.Ok(fp0, ch[..])
      requires |own| == |fp0| && 0 < x < |own| && fp[..] == fp0[x := 0] && x !in q.cells
      requires forall i {:trigger q.cells[i]} :: 0 <= i < |q.cells| ==> 0 < q.cells[i] < |own| && own[q.cells[i]] == j
      requires forall i, k :: 0 <= i < k < |q.cells| ==> q.cells[i] != q.cells[k]
      modifies fp, q`op
      ensures Linked(fp[..], q.op, q.cells + [x]) && Linked(fp[..], cltfree, free)
      ensures forall y {:trigger fp[y]} :: 0 < y < fp.Length && own[y] != j && y != x ==> fp[y] == fp0[y]
    {
      hide Hold, Linked, Belong, Slot;
      ghost var fp1, cells := fp[..], q.cells;
      LinkedIn(fp0, q.op, cells);
      if q.ip == 0 {
        q.op := x;
        OneLinked(fp[..], x);
        assert cells + [x] == [x];
      } else {
        fp[q.ip] := x;
        FreeUnaffected(fp1, fp[..], cltfree, free, own, q.ip, j);
        LinkedAppend(fp0, fp[..], q.op, cells, x);
      }
    }

    /** The end of putq: the character goes behind the last. */
    method StoreChar(q: CQueue, c: int, ix: int, ghost j: nat)
      requires HasRoom(q, j, ix)
      modifies ch, q`ix, q`cc, q`chars
      ensures Valid() && q.chars == old(q.chars) + [c % 256]
    {
      hide Hold, Linked, Belong, Slot;
      ghost var ch0, cells, chars := ch[..], q.cells, q.chars;
      var ip := q.ip;
      OwnersFit(own, cells, j);
      InPool(ip, ix, fp.Length);
      ch[ip * NCPCL + ix] := c % 256;
      LastSlot(cells, q.ox + q.cc, ix);
      HoldMore(ch0, ch[..], cells, cells, q.ox, chars, c % 256);
      q.ix := ix + 1;
      if q.ix == NCPCL {
        q.ix := 0;
      }
      q.cc := q.cc + 1;
      q.chars := chars + [c % 256];
      OthersHold(j, ch0, ip, ix);
      assert QueueOk(j);
      ValidIf(j);
    }

    lemma {:induction false} OthersHold(j: nat, ch0: seq<int>, x: int, ix: int)
      requires |ch0| == ch.Length && 0 < x < |own| == fp.Length && own[x] == j && 0 <= ix < NCPCL
      requires forall i {:trigger queues[i]} :: 0 <= i < |queues| && i != j ==>
        queues[i].Ok(fp[..], ch0) && Belong(own, queues[i].cells, i)
      requires forall i {:trigger ch[i]} :: 0 <= i < ch.Length && i != x * NCPCL + ix ==> ch[i] == ch0[i]
      ensures OtherQueuesOk(j)
    {
      hide Linked, Slot, Hold;
      forall i | 0 <= i < |queues| && i != j ensures QueueOk(i) {
        var l := queues[i].cells;
        assert queues[i].Ok(fp[..], ch0) && Belong(own, l, i);
        assert (x * NCPCL + ix) / NCPCL == x;
        HoldFrame(ch0, ch[..], l, queues[i].ox, queues[i].chars, x);
      }
    }

    /** putq: the character joins the queue, or there is no cell for it and nothing changes. */
    method PutQ(q: CQueue, c: int, ghost j: nat) returns (r: int)
      requires Valid() && j < |queues| && queues[j] == q && c >= 0
      modifies this`cltfree, this`free, this`own, fp, ch, q
      ensures Valid() && Others(j, old(Chars())) && (r == -1 || r == c)
      ensures r == -1 <==> old(free) == [] && old(q.ix) == 0
      ensures r == c ==> q.chars == old(q.chars) + [c % 256]
      ensures r == -1 ==>
        && cltfree == old(cltfree) && fp[..] == old(fp[..]) && ch[..] == old(ch[..])
        && q.chars == old(q.chars) && q.cc == old(q.cc) && q.ip == old(q.ip) && q.ix == old(q.ix) && q.op == old(q.op)
        && q.ox == old(q.ox)
    {
      hide Hold, Linked, Belong, Slot, Chars, Others, Pool, CQueue.Ok;
      CharsAre();
      DistinctQueues();
      ghost var was := Chars();
      var ix := q.ix;
      if ix == 0 {
        var ok := NewCell(q, j);
        if !ok {
          OthersIf(j, was);
          return -1;
        }
      } else {
        RoomLeft(q, j);
      }
      StoreChar(q, c, ix, j);
      OthersIf(j, was);
      return c;
    }

    lemma {:induction false} RoomLeft(q: CQueue, j: nat)
      requires Valid() && j < |queues| && queues[j] == q && q.ix != 0
      ensures HasRoom(q, j, q.ix)
    {
      hide Hold, Linked, Belong, Slot;
      QueueIs(j);
    }

    /** clrq: getq until the queue is empty. */
    method ClrQ(q: CQueue, ghost j: nat)
      requires Valid() && j < |queues| && queues[j] == q
      modifies this`cltfree, this`free, this`own, fp, q
      ensures Valid() && Others(j, old(Chars())) && q.chars == [] && q.cc == 0
    {
      hide Valid, Chars, Others;
      CharsAre();
      ghost var was := Chars();
      OthersIf(j, was);
      var c := 0;
      while c >= 0
        invariant Valid() && Others(j, was) && (c < 0 ==> q.chars == [])
        decreases |q.chars|, c
      {
        CharsAre();
        ghost var now := Chars();
        OthersAt(j, was);
        c := GetQ(q, j);
        OthersTwice(j, was, now);
      }
      Counts(j);
    }

    lemma {:induction false} Counts(j: nat)
      requires Valid() && j < |queues|
      ensures queues[j].cc == |queues[j].chars|
    {
      hide Hold, Linked, Belong;
      QueueIs(j);
    }

    lemma {:induction false} DistinctQueues()
      requires Valid()
      ensures forall i, j :: 0 <= i < j < |queues| ==> queues[i] != queues[j]
    {
    }

    lemma {:induction false} OthersAt(j: nat, was: seq<seq<int>>)
      requires |was| == |queues| && Others(j, was)
      ensures forall i {:trigger queues[i]} :: 0 <= i < |queues| && i != j ==> queues[i].chars == was[i]
    {
    }

    lemma {:induction false} OthersTwice(j: nat, was: seq<seq<int>>, now: seq<seq<int>>)
      requires |was| == |now| == |queues| && Others(j, now)
      requires forall i {:trigger now[i]} :: 0 <= i < |queues| && i != j ==> now[i] == was[i]
      ensures Others(j, was)
    {
    }
  }

  lemma {:induction false} LastSlot(cells: seq<int>, t: int, ix: int)
    requires cells != [] && 0 <= ix < NCPCL && t == (|cells| - 1) * NCPCL + ix
    ensures Slot(cells, t) == cells[|cells| - 1] * NCPCL + ix && t < |cells| * NCPCL
  {
    assert t / NCPCL == |cells| - 1 && t % NCPCL == ix;
  }

  lemma {:induction false} DistinctIn(own: seq<int>, l: seq<int>, who: int)
    requires Belong(own, l, who) && l != []
    ensures l[0] !in l[1..]
  {
  }

  lemma {:induction false} OneLinked(fp: seq<int>, x: int)
    requires 0 < x < |fp| && fp[x] == 0
    ensures Linked(fp, x, [x])
  {
    assert [x][1..] == [];
  }

  lemma {:induction false} HoldLonger(ch: seq<int>, cells: seq<int>, cells': seq<int>, ox: int, chars: seq<int>)
    requires Hold(ch, cells, ox, chars) && cells <= cells'
    ensures Hold(ch, cells', ox, chars)
  {
    forall k | 0 <= k < |chars| ensures chars[k] == CharAt(ch, Slot(cells', ox + k)) {
      HoldAt(ch, cells, ox, chars, k);
      SlotCell(cells, ox + k);
      SlotCell(cells', ox + k);
    }
  }

  lemma {:induction false} FreeUnaffected(fp: seq<int>, fp': seq<int>, head: int, free: seq<int>, own: seq<int>,
                                          y: int, j: int)
    requires Linked(fp, head, free) && Belong(own, free, -1) && 0 <= y < |own| == |fp| && own[y] == j != -1
    requires |fp'| == |fp| && forall i {:trigger fp'[i]} :: 0 <= i < |fp| && i != y ==> fp'[i] == fp[i]
    ensures Linked(fp', head, free)
  {
    LinkedFrame(fp, fp', head, free);
  }

  ghost function Up(a: int, b: int): (s: seq<int>)
    ensures |s| == (if a <= b then b - a + 1 else 0) && forall i {:trigger s[i]} :: 0 <= i < |s| ==> s[i] == a + i
    decreases b - a
  {
    if a > b then [] else [a] + Up(a + 1, b)
  }

  lemma {:induction false} InPool(x: int, ox: int, n: int)
    requires 0 < x < n && 0 <= ox < NCPCL
    ensures 0 <= x * NCPCL + ox < n * NCPCL
  {
  }

  lemma {:induction false} HoldNothing(ch: seq<int>, cells: seq<int>)
    ensures Hold(ch, cells, 0, [])
  {
  }

  lemma {:induction false} GetShape(cc: int, ox: int, ix: int, n: int)
    requires cc > 0 && 0 <= ox < NCPCL && 0 <= ix < NCPCL && n > 0
    requires ox + cc == (n - 1) * NCPCL + if ix == 0 then NCPCL else ix
    ensures cc == 1 ==> n == 1
    ensures cc > 1 && ox + 1 == NCPCL ==> n > 1
  {
  }

  lemma {:induction false} OwnersFit(own: seq<int>, l: seq<int>, who: int)
    requires Belong(own, l, who)
    ensures forall i {:trigger l[i]} :: 0 <= i < |l| ==> 0 < l[i] < |own| && own[l[i]] == who
    ensures forall i, j :: 0 <= i < j < |l| ==> l[i] != l[j]
  {
  }

  lemma {:induction false} FreeLinked(fp: seq<int>, fp': seq<int>, head: int, free: seq<int>, x: int)
    requires Linked(fp, head, free) && 0 < x < |fp| && x !in free && fp' == fp[x := head]
    ensures Linked(fp', x, [x] + free)
  {
    LinkedFrame(fp, fp', head, free);
    assert ([x] + free)[1..] == free;
  }

  lemma {:induction false} TailLinked(fp: seq<int>, fp': seq<int>, np: int, cells: seq<int>)
    requires cells != [] && Linked(fp, cells[0], cells) && np == fp[cells[0]] && cells[0] !in cells[1..]
    requires |fp'| == |fp| && forall i {:trigger fp'[i]} :: 0 <= i < |fp| && i != cells[0] ==> fp'[i] == fp[i]
    ensures Linked(fp', np, cells[1..])
  {
    LinkedFrame(fp, fp', np, cells[1..]);
  }
}
