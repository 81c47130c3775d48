/** What fork makes of the segments (segadup and segdupl of seg.c), left alone by the swapper:
    when it can go through, what the child has then, and that a fork that is given up leaves
    the segments as they were; and what an exit leaves of them. */
module SwapForks {
  import opened SwapCounts

  /** The steps of segadup in process p. */
  predicate OfFork(a: Action, p: nat) {
    (a.ForkNext? || a.ForkGate? || a.ForkWritten?) && a.p == p
  }

  predicate OnlyFork(acts: seq<Action>, p: nat) { forall i :: 0 <= i < |acts| ==> OfFork(acts[i], p) }

  /** How often the slots from n on name s. */
  function Later(segp: seq<int>, n: nat, s: int): nat
    requires n <= |segp|
    decreases |segp| - n
  {
    if n == |segp| then 0 else (if segp[n] == s then 1 else 0) + Later(segp, n + 1, s)
  }

  /** Can every shared segment in the slots from n on be shared that many times more? */
  ghost predicate Fits(y: State, p: nat, n: nat) {
    && p < |y.procs| && n <= |y.procs[p].segp|
    && forall s {:trigger y.segs[s]} :: s in y.segs && y.segs[s].shared ==>
      Later(y.procs[p].segp, n, s) == 0 || y.segs[s].urefc + Later(y.procs[p].segp, n, s) <= MAXREF
  }

  /** What the slot s of the parent has become in the child. */
  ghost predicate CopiedAs(y: State, s: int, t: int, segs: map<int, Seg>) {
    if s == NULL || s !in y.segs then t == NULL
    else if y.segs[s].shared then t == s
    else t !in y.segs && t in segs && segs[t] == Seg(1, 1, true, false)
  }

  function More(g: Seg, n: nat): Seg { g.(urefc := g.urefc + n, lrefc := g.lrefc + n) }

  /** Segments that were there stay, those that are shared with more references. */
  ghost predicate SharedMore(y: State, p: nat, n: nat, segs: map<int, Seg>) {
    && p < |y.procs| && n <= |y.procs[p].segp|
    && forall s {:trigger segs[s]} {:trigger s in segs} :: s in y.segs ==>
      (s in segs && segs[s] == More(y.segs[s], if y.segs[s].shared then Later(y.procs[p].segp, n, s) else 0))
  }

  /** A number that no segment has. */
  lemma {:induction false} Fresh(keys: set<int>) returns (t: int)
    ensures t > 0 && forall k :: k in keys ==> k < t
    decreases |keys|
  {
    t := 1;
    if k: int :| k in keys {
      var u := Fresh(keys - {k});
      t := if k >= u then k + 1 else u;
      assert keys == (keys - {k}) + {k};
    }
  }

  lemma {:induction false} Slots8(y: State, p: nat)
    requires Inv(y) && p < |y.procs|
    ensures |y.procs[p].segp| == NUSEG
    ensures forall j {:trigger y.procs[p].segp[j]} :: 0 <= j < NUSEG && y.procs[p].segp[j] != NULL ==>
      y.procs[p].segp[j] in y.segs
    ensures NULL !in y.segs
  {
    assert ProcFormed(y, y.procs[p]);
  }

  /** One slot, with memory for a copy. */
  ghost predicate OneCopied(y: State, z: State, p: nat, c: nat, n: nat) {
    && p < |y.procs| && c < |y.procs| && p != c && n < |y.procs[p].segp| == |y.procs[c].segp| == NUSEG
    && |z.procs| == |y.procs| && z.sw == y.sw
    && z.procs[p] == y.procs[p].(doing := Copying(c, n + 1))
    && (forall q {:trigger z.procs[q]} :: 0 <= q < |y.procs| && q != p && q != c ==> z.procs[q] == y.procs[q])
    && z.procs[c] == y.procs[c].(segp := z.procs[c].segp, pfcore := z.procs[c].pfcore)
    && |z.procs[c].segp| == NUSEG
    && (forall j {:trigger z.procs[c].segp[j]} :: 0 <= j < NUSEG && j != n ==>
          z.procs[c].segp[j] == y.procs[c].segp[j])
    && CopiedAs(y, y.procs[p].segp[n], z.procs[c].segp[n], z.segs)
    && forall s {:trigger z.segs[s]} {:trigger s in z.segs} :: s in y.segs ==>
      (s in z.segs && z.segs[s] == More(y.segs[s], if y.segs[s].shared && s == y.procs[p].segp[n] then 1 else 0))
  }

  lemma {:induction false} CopySlot(y: State, p: nat, t: int) returns (z: State)
    requires Inv(y) && Copies(y, p) && t != NULL && t !in y.segs
    requires var s := y.procs[p].segp[y.procs[p].doing.n];
      s != NULL && y.segs[s].shared ==> y.segs[s].urefc < MAXREF
    ensures Reaches(y, [ForkNext(p, Memory, t)], z) && Inv(z)
    ensures OneCopied(y, z, p, y.procs[p].doing.child, y.procs[p].doing.n)
  {
    hide Counts, Inv, Reaches, Fill;
    InvFormed(y);
    Slots8(y, p);
    Unfilled(y, p);
    Slots8(y, y.procs[p].doing.child);
    FillIs(y.procs[y.procs[p].doing.child], y.procs[p].doing.n);
    z := Step(y, ForkNext(p, Memory, t));
    StepKeeps(y, ForkNext(p, Memory, t));
    OneStep(y, ForkNext(p, Memory, t), z);
  }

  lemma {:induction false} FillIs(pp: Proc, j: nat)
    requires j < |pp.segp|
    ensures forall s, core {:trigger Fill(pp, j, s, core)} ::
      Fill(pp, j, s, core) == pp.(segp := pp.segp[j := s], pfcore := pp.pfcore && core)
  {
  }

  lemma {:induction false} FitsNext(y: State, z: State, p: nat, c: nat, n: nat)
    requires OneCopied(y, z, p, c, n) && Fits(y, p, n) && Inv(y) && NULL !in z.segs
    ensures Fits(z, p, n + 1)
  {
    hide Inv;
    Slots8(y, p);
    var segp := y.procs[p].segp;
    forall s {:trigger z.segs[s]} | s in z.segs && z.segs[s].shared
      ensures Later(segp, n + 1, s) == 0 || z.segs[s].urefc + Later(segp, n + 1, s) <= MAXREF
    {
      if s !in y.segs {
        NotLater(segp, n + 1, s);
      }
    }
  }

  lemma {:induction false} NotLater(segp: seq<int>, n: nat, s: int)
    requires n <= |segp| && forall j {:trigger segp[j]} :: n <= j < |segp| ==> segp[j] != s
    ensures Later(segp, n, s) == 0
    decreases |segp| - n
  {
    if n < |segp| { NotLater(segp, n + 1, s); }
  }

  /** What a fork that had memory enough has made, from slot n on. */
  ghost predicate AllCopied(y: State, z: State, p: nat, c: nat, n: nat) {
    && p < |y.procs| && c < |y.procs| && p != c && n <= |y.procs[p].segp| == |y.procs[c].segp| == NUSEG
    && |z.procs| == |y.procs| && z.sw == y.sw
    && z.procs[p] == y.procs[p].(doing := Copying(c, NUSEG))
    && (forall q {:trigger z.procs[q]} :: 0 <= q < |y.procs| && q != p && q != c ==> z.procs[q] == y.procs[q])
    && z.procs[c] == y.procs[c].(segp := z.procs[c].segp, pfcore := z.procs[c].pfcore)
    && |z.procs[c].segp| == NUSEG
    && (forall j {:trigger z.procs[c].segp[j]} :: 0 <= j < n ==> z.procs[c].segp[j] == y.procs[c].segp[j])
    && (forall j {:trigger z.procs[c].segp[j]} :: n <= j < NUSEG ==>
          CopiedAs(y, y.procs[p].segp[j], z.procs[c].segp[j], z.segs))
    && SharedMore(y, p, n, z.segs)
  }

  lemma {:induction false} AllOfThem(y: State, z1: State, z: State, p: nat, c: nat, n: nat)
    requires OneCopied(y, z1, p, c, n) && AllCopied(z1, z, p, c, n + 1)
    requires forall j {:trigger y.procs[p].segp[j]} :: 0 <= j < NUSEG && y.procs[p].segp[j] != NULL ==>
      y.procs[p].segp[j] in y.segs
    requires NULL !in z1.segs
    ensures AllCopied(y, z, p, c, n)
  {
    hide Later;
    var segp := y.procs[p].segp;
    forall j | n <= j < NUSEG ensures CopiedAs(y, segp[j], z.procs[c].segp[j], z.segs) {
      if j == n {
        assert z.procs[c].segp[n] == z1.procs[c].segp[n];
      } else {
        assert CopiedAs(z1, segp[j], z.procs[c].segp[j], z.segs);
      }
    }
    forall s {:trigger z.segs[s]} | s in y.segs
      ensures s in z.segs && z.segs[s] == More(y.segs[s], if y.segs[s].shared then Later(segp, n, s) else 0)
    {
      LaterNext(segp, n, s);
      assert s in z1.segs;
    }
  }

  lemma {:induction false} LaterNext(segp: seq<int>, n: nat, s: int)
    requires n < |segp|
    ensures Later(segp, n, s) == (if segp[n] == s then 1 else 0) + Later(segp, n + 1, s)
  {
  }

  lemma {:induction false} NothingLater(segp: seq<int>, s: int)
    ensures Later(segp, |segp|, s) == 0
  {
  }

  /** segadup from slot n on, with memory for every copy. */
  lemma {:induction false} CopiesAll(y: State, p: nat, c: nat, n: nat) returns (acts: seq<Action>, z: State)
    requires Inv(y) && CanRun(y, p) && y.procs[p].doing == Copying(c, n) && Fits(y, p, n)
    ensures Reaches(y, acts, z) && Inv(z) && OnlyFork(acts, p) && AllCopied(y, z, p, c, n)
    decreases NUSEG - n
  {
    hide Counts, Inv, Reaches, OneCopied, AllCopied, Later;
    InvFormed(y);
    Slots8(y, p);
    Unfilled(y, p);
    ChildUsed(y, p, c);
    Slots8(y, c);
    if n == NUSEG {
      acts, z := [], y;
      NoneLeft(y, p, c);
    } else {
      var t := Fresh(y.segs.Keys);
      assert t !in y.segs.Keys;
      FitsHere(y, p, n);
      var z1 := CopySlot(y, p, t);
      StillRuns(y, z1, p, c, n);
      Slots8(z1, p);
      FitsNext(y, z1, p, c, n);
      var rest;
      rest, z := CopiesAll(z1, p, c, n + 1);
      AllOfThem(y, z1, z, p, c, n);
      Then(y, [ForkNext(p, Memory, t)], z1, rest, z);
      acts := [ForkNext(p, Memory, t)] + rest;
    }
  }

  lemma {:induction false} NoneLeft(y: State, p: nat, c: nat)
    requires Inv(y) && p < |y.procs| && c < |y.procs| && p != c && y.procs[p].doing == Copying(c, NUSEG)
    requires |y.procs[p].segp| == |y.procs[c].segp| == NUSEG
    ensures Reaches(y, [], y) && AllCopied(y, y, p, c, NUSEG)
  {
    hide Inv;
    forall s {:trigger y.segs[s]} | s in y.segs ensures Later(y.procs[p].segp, NUSEG, s) == 0 {
      NothingLater(y.procs[p].segp, s);
    }
  }

  lemma {:induction false} FitsHere(y: State, p: nat, n: nat)
    requires Fits(y, p, n) && n < |y.procs[p].segp|
    ensures var s := y.procs[p].segp[n]; s in y.segs && y.segs[s].shared ==> y.segs[s].urefc < MAXREF
  {
    LaterNext(y.procs[p].segp, n, y.procs[p].segp[n]);
  }

  lemma {:induction false} StillRuns(y: State, z: State, p: nat, c: nat, n: nat)
    requires OneCopied(y, z, p, c, n) && CanRun(y, p)
    ensures CanRun(z, p) && z.procs[p].doing == Copying(c, n + 1)
  {
  }

  /** With memory enough, and no shared segment that has too many sharers, a fork goes through,
      and the child has every shared segment of the parent and a copy of each other one. */
  lemma {:induction false} ForkSucceeds(y: State, p: nat, c: nat) returns (acts: seq<Action>, z: State)
    requires Inv(y) && CanRun(y, p) && y.procs[p].doing == Copying(c, 0) && Fits(y, p, 0)
    ensures Reaches(y, acts, z) && Inv(z) && p < |y.procs| == |z.procs| && c < |z.procs| && p != c
    ensures z.procs[p] == y.procs[p].(doing := Running) && z.procs[c].used && !z.procs[c].pfswio
    ensures |y.procs[p].segp| == |z.procs[c].segp| == NUSEG
    ensures forall j {:trigger z.procs[c].segp[j]} :: 0 <= j < NUSEG ==>
      CopiedAs(y, y.procs[p].segp[j], z.procs[c].segp[j], z.segs)
    ensures SharedMore(y, p, 0, z.segs)
  {
    hide Counts, Inv, Reaches, CopiedAs, SharedMore;
    InvFormed(y);
    Unfilled(y, p);
    ChildUsed(y, p, c);
    var z1;
    acts, z1 := CopiesAll(y, p, c, 0);
    InvFormed(z1);
    z := Step(z1, ForkEnd(p));
    StepKeeps(z1, ForkEnd(p));
    OneStep(z1, ForkEnd(p), z);
    Then(y, acts, z1, [ForkEnd(p)], z);
    acts := acts + [ForkEnd(p)];
  }

  lemma {:induction false} ChildUsed(y: State, p: nat, c: nat)
    requires Inv(y) && p < |y.procs| && y.procs[p].doing.Copying? && y.procs[p].doing.child == c
    ensures c < |y.procs| && y.procs[c].used && y.procs[c].pfswio
  {
    assert ProcGood(y, p);
  }

  /** Without memory the disk will do for a segment that is not shared: segdupd writes it there,
      locked as long as that takes, and the child is not in core then. */
  lemma {:induction false} CopiesToDisk(y: State, p: nat, t: int) returns (z: State)
    requires Inv(y) && Copies(y, p) && t != NULL && t !in y.segs
    requires var s := y.procs[p].segp[y.procs[p].doing.n]; s != NULL && !y.segs[s].shared
    ensures var c, n := y.procs[p].doing.child, y.procs[p].doing.n;
      && Reaches(y, [ForkNext(p, Disk, t), ForkGate(p), ForkWritten(p)], z) && Inv(z) && |z.procs| == |y.procs|
      && z.segs == y.segs[t := Seg(1, 1, false, false)] && z.sw == y.sw
      && z.procs[p] == y.procs[p].(doing := Copying(c, n + 1)) && c < |z.procs| && c != p
      && n < |z.procs[c].segp| && z.procs[c].segp[n] == t && !z.procs[c].pfcore
  {
    hide Counts, Inv, Reaches;
    InvFormed(y);
    Slots8(y, p);
    Unfilled(y, p);
    var c, n := y.procs[p].doing.child, y.procs[p].doing.n;
    ChildUsed(y, p, c);
    Slots8(y, c);
    var s := y.procs[p].segp[n];
    var y1 := Step(y, ForkNext(p, Disk, t));
    StepKeeps(y, ForkNext(p, Disk, t));
    InvFormed(y1);
    var y2 := Step(y1, ForkGate(p));
    StepKeeps(y1, ForkGate(p));
    InvFormed(y2);
    z := Step(y2, ForkWritten(p));
    StepKeeps(y2, ForkWritten(p));
    OneStep(y, ForkNext(p, Disk, t), y1);
    OneStep(y1, ForkGate(p), y2);
    OneStep(y2, ForkWritten(p), z);
    Then(y, [ForkNext(p, Disk, t)], y1, [ForkGate(p)], y2);
    Then(y, [ForkNext(p, Disk, t)] + [ForkGate(p)], y2, [ForkWritten(p)], z);
    assert [ForkNext(p, Disk, t)] + [ForkGate(p)] + [ForkWritten(p)] ==
      [ForkNext(p, Disk, t), ForkGate(p), ForkWritten(p)];
    LockUnlock(y.segs, s, t);
  }

  lemma {:induction false} LockUnlock(segs: map<int, Seg>, s: int, t: int)
    requires s in segs && t !in segs
    ensures Lock(Lock(segs, s, 1)[t := Seg(1, 1, false, false)], s, -1) == segs[t := Seg(1, 1, false, false)]
  {
  }

  /** A raw transfer leaves the segment as it was. */
  lemma {:induction false} RawUndoes(y: State, p: nat, n: nat)
    requires Inv(y) && Can(y, RawBegin(p, n))
    ensures var z := Step(y, RawBegin(p, n)); Formed(z) && Can(z, RawEnd(p)) && Step(z, RawEnd(p)) == y
  {
    hide Counts, Inv;
    InvFormed(y);
    Slots8(y, p);
    StepKeeps(y, RawBegin(p, n));
    InvFormed(Step(y, RawBegin(p, n)));
    MapBack(y.segs, y.procs[p].segp[n], y.segs[y.procs[p].segp[n]]);
    var z := Step(Step(y, RawBegin(p, n)), RawEnd(p));
    assert z.procs == y.procs;
    assert z.segs == y.segs;
  }

  // ----- when it cannot ---------------------------------------------------------------------

  /** The slot that segadup will look at next. */
  function NextOf(d: Doing): nat {
    match d case Copying(_, n) => n case Writing(_, n, _, _) => n + 1 case _ => 0
  }

  predicate Makes(d: Doing) { d.Copying? || d.Writing? }

  lemma {:induction false} NeedsBefore(y: State, a: Action, p: nat)
    requires Inv(y) && OfFork(a, p) && Can(y, a) && Makes(y.procs[p].doing)
    requires Makes(Step(y, a).procs[p].doing) && Fits(Step(y, a), p, NextOf(Step(y, a).procs[p].doing))
    ensures Fits(y, p, NextOf(y.procs[p].doing))
  {
    hide Counts, Inv, Later;
    InvFormed(y);
    Slots8(y, p);
    Unfilled(y, p);
    var segp, n := y.procs[p].segp, NextOf(y.procs[p].doing);
    var z := Step(y, a);
    assert z.procs[p].segp == segp;
    forall s {:trigger y.segs[s]} | s in y.segs && y.segs[s].shared
      ensures Later(segp, n, s) == 0 || y.segs[s].urefc + Later(segp, n, s) <= MAXREF
    {
      if a.ForkNext? { LaterNext(segp, n, s); }
      assert s in z.segs && z.segs[s].shared;
    }
  }

  /** A fork that comes to its end had only segments that could be shared once more for every
      slot, whatever memory and disk there was for the others. */
  lemma {:induction false} ForkNeeds(y: State, acts: seq<Action>, z: State, p: nat)
    requires Inv(y) && Reaches(y, acts, z) && OnlyFork(acts, p) && p < |y.procs| && Makes(y.procs[p].doing)
    requires p < |z.procs| && Makes(z.procs[p].doing) && NextOf(z.procs[p].doing) == NUSEG
    ensures Fits(y, p, NextOf(y.procs[p].doing))
    decreases |acts|
  {
    hide Counts, Inv, Later, Fits;
    Slots8(y, p);
    if acts == [] {
      FitsNothing(y, p);
    } else {
      InvFormed(y);
      var y1 := Step(y, acts[0]);
      StepKeeps(y, acts[0]);
      assert OfFork(acts[0], p);
      Progress(y, acts[0], p);
      if Makes(y1.procs[p].doing) {
        ForkNeeds(y1, acts[1..], z, p);
        NeedsBefore(y, acts[0], p);
      } else {
        StaysUndoing(y1, acts[1..], z, p);
      }
    }
  }

  lemma {:induction false} Progress(y: State, a: Action, p: nat)
    requires Inv(y) && Can(y, a) && OfFork(a, p)
    ensures |Step(y, a).procs| == |y.procs| && (Makes(Step(y, a).procs[p].doing) || Step(y, a).procs[p].doing.Undoing?)
  {
    hide Counts, Inv;
    InvFormed(y);
    Unfilled(y, p);
  }

  lemma {:induction false} StaysUndoing(y: State, acts: seq<Action>, z: State, p: nat)
    requires Reaches(y, acts, z) && p < |y.procs| && y.procs[p].doing.Undoing?
    requires acts != [] ==> OfFork(acts[0], p)
    ensures z == y
  {
  }

  lemma {:induction false} FitsNothing(y: State, p: nat)
    requires p < |y.procs| && |y.procs[p].segp| == NUSEG
    ensures Fits(y, p, NUSEG)
  {
    forall s {:trigger y.segs[s]} | s in y.segs ensures Later(y.procs[p].segp, NUSEG, s) == 0 {
      NothingLater(y.procs[p].segp, s);
    }
  }

  /** segadup can fill every slot if and only if no shared segment would have more than 127
      references. */
  lemma {:induction false} CanFork(y: State, p: nat, c: nat)
    requires Inv(y) && CanRun(y, p) && y.procs[p].doing == Copying(c, 0)
    ensures Fits(y, p, 0) <==>
      exists acts, z: State {:trigger Reaches(y, acts, z)} ::
        Reaches(y, acts, z) && OnlyFork(acts, p) && p < |z.procs| && z.procs[p].doing == Copying(c, NUSEG)
  {
    hide Inv, Fits, Reaches, OnlyFork;
    if Fits(y, p, 0) {
      var acts, z := CopiesAll(y, p, c, 0);
    }
    if acts, z: State :|
      Reaches(y, acts, z) && OnlyFork(acts, p) && p < |z.procs| && z.procs[p].doing == Copying(c, NUSEG)
    {
      ForkNeeds(y, acts, z, p);
    }
  }

  // ----- a fork that is given up ---------------------------------------------------------------

  /** The segments once sfree has undone the first n slots. */
  function Unforked(segs: map<int, Seg>, segp: seq<int>, n: nat): map<int, Seg>
    requires n <= |segp|
  {
    if n == 0 then segs
    else Unforked(if segp[n - 1] in segs then Sfree(segs, segp[n - 1]) else segs, segp, n - 1)
  }

  lemma {:induction false} UnforkedSame(segs: map<int, Seg>, segp: seq<int>, segp': seq<int>, n: nat)
    requires n <= |segp| && n <= |segp'| && forall j :: 0 <= j < n ==> segp'[j] == segp[j]
    ensures Unforked(segs, segp', n) == Unforked(segs, segp, n)
  {
    if n > 0 {
      UnforkedSame(if segp[n - 1] in segs then Sfree(segs, segp[n - 1]) else segs, segp, segp', n - 1);
    }
  }

  /** Process p forks c, and giving up now would bring back these segments. */
  ghost predicate Undoable(y: State, p: nat, c: nat, segs: map<int, Seg>)
  {
    && p < |y.procs| && c < |y.procs| && p != c && |y.procs[p].segp| == |y.procs[c].segp| == NUSEG
    && var d := y.procs[p].doing;
      match d
      case Copying(c', n) => c' == c && n <= NUSEG && Unforked(y.segs, y.procs[c].segp, n) == segs
      case Undoing(c', n) => c' == c && n <= NUSEG && Unforked(y.segs, y.procs[c].segp, n) == segs
      case Writing(c', n, copy, _) =>
        c' == c && n < NUSEG && y.procs[p].segp[n] in y.segs && copy != y.procs[p].segp[n]
        && Unforked(Lock(y.segs, y.procs[p].segp[n], -1) - {copy}, y.procs[c].segp, n) == segs
      case _ => false
  }

  /** Everything but the child, and what p is doing, is as it was. */
  ghost predicate SameBut(y: State, z: State, p: nat, c: nat) {
    && |z.procs| == |y.procs| && z.sw == y.sw && p < |y.procs|
    && (forall q {:trigger z.procs[q]} :: 0 <= q < |y.procs| && q != p && q != c ==> z.procs[q] == y.procs[q])
    && z.procs[p] == y.procs[p].(doing := z.procs[p].doing)
  }

  lemma {:induction false} MapBack(segs: map<int, Seg>, s: int, g: Seg)
    requires s in segs && g == segs[s]
    ensures segs[s := g] == segs
  {
  }

  lemma {:induction false} Freed(segs: map<int, Seg>, t: int, g: Seg)
    ensures t !in segs && g.urefc == 1 ==> Sfree(segs[t := g], t) == segs
    ensures t in segs && segs[t].urefc >= 1 ==> Sfree(segs[t := More(segs[t], 1)], t) == segs
  {
    if t in segs && segs[t].urefc >= 1 { MapBack(segs, t, segs[t]); }
  }

  lemma {:induction false} FillSegs(y: State, c: nat, n: nat, s: int, core: bool)
    requires c < |y.procs| && n < |y.procs[c].segp|
    ensures var segp := Fill(y.procs[c], n, s, core).segp;
      |segp| == |y.procs[c].segp| && segp[n] == s && forall j :: 0 <= j < n ==> segp[j] == y.procs[c].segp[j]
  {
  }

  lemma {:induction false} UndoableNext(y: State, p: nat, room: Room, t: int, c: nat, segs: map<int, Seg>)
    requires Inv(y) && Can(y, ForkNext(p, room, t)) && Undoable(y, p, c, segs)
    ensures Undoable(Duplicate(y, p, room, t), p, c, segs) && SameBut(y, Duplicate(y, p, room, t), p, c)
  {
    hide Counts, Inv, Fill, Sfree;
    InvFormed(y);
    Slots8(y, p);
    Unfilled(y, p);
    var n := y.procs[p].doing.n;
    var s := y.procs[p].segp[n];
    var z := Duplicate(y, p, room, t);
    Slots8(y, c);
    assert y.procs[c].segp[n] == NULL;
    if s != NULL {
      FillIs(y.procs[c], n);
      Referenced(y, s);
      Freed(y.segs, s, y.segs[s]);
      Freed(y.segs, t, Seg(1, 1, true, false));
      if z.procs[p].doing.Writing? {
        LockBack(y.segs, s, t);
      } else {
        UnforkedSame(y.segs, y.procs[c].segp, z.procs[c].segp, n);
      }
    }
  }

  lemma {:induction false} LockBack(segs: map<int, Seg>, s: int, t: int)
    requires s in segs && t !in segs
    ensures var with := Lock(segs, s, 1)[t := Seg(1, 1, false, false)]; Lock(with, s, -1) - {t} == segs
  {
    MapBack(segs, s, segs[s]);
  }

  lemma {:induction false} Referenced(y: State, s: int)
    requires Inv(y) && s in y.segs
    ensures 1 <= y.segs[s].urefc <= MAXREF
  {
  }

  lemma {:induction false} UndoableWritten(y: State, p: nat, c: nat, segs: map<int, Seg>)
    requires Inv(y) && Can(y, ForkWritten(p)) && Undoable(y, p, c, segs)
    ensures Undoable(Written(y, p), p, c, segs) && SameBut(y, Written(y, p), p, c)
  {
    hide Counts, Inv, Fill;
    InvFormed(y);
    Slots8(y, p);
    Unfilled(y, p);
    CopyOnce(y, p);
    var d := y.procs[p].doing;
    var z := Written(y, p);
    Slots8(y, c);
    FillIs(y.procs[c], d.n);
    UnforkedSame(Lock(y.segs, y.procs[p].segp[d.n], -1) - {d.copy}, y.procs[c].segp, z.procs[c].segp, d.n);
  }

  lemma {:induction false} CopyOnce(y: State, p: nat)
    requires Inv(y) && p < |y.procs| && y.procs[p].doing.Writing?
    ensures y.procs[p].doing.copy in y.segs && y.segs[y.procs[p].doing.copy].urefc == 1
  {
    assert ProcGood(y, p) && ProcFormed(y, y.procs[p]);
  }

  lemma {:induction false} UndoableRun(y: State, acts: seq<Action>, z: State, p: nat, c: nat, segs: map<int, Seg>)
    requires Inv(y) && Reaches(y, acts, z) && OnlyFork(acts, p) && p < |y.procs| && Undoable(y, p, c, segs)
    ensures Inv(z) && Undoable(z, p, c, segs) && SameBut(y, z, p, c)
    decreases |acts|
  {
    hide Counts, Inv, Undoable, Duplicate, Written;
    if acts != [] {
      InvFormed(y);
      var a, y1 := acts[0], Step(y, acts[0]);
      StepKeeps(y, a);
      assert OfFork(a, p);
      if a.ForkNext? {
        UndoableNext(y, p, a.room, a.t, c, segs);
      } else if a.ForkWritten? {
        UndoableWritten(y, p, c, segs);
      } else {
        UndoableGate(y, p, c, segs);
      }
      UndoableRun(y1, acts[1..], z, p, c, segs);
    }
  }

  lemma {:induction false} UndoableGate(y: State, p: nat, c: nat, segs: map<int, Seg>)
    requires Formed(y) && Can(y, ForkGate(p)) && Undoable(y, p, c, segs)
    ensures Undoable(Step(y, ForkGate(p)), p, c, segs) && SameBut(y, Step(y, ForkGate(p)), p, c)
  {
  }

  /** segadup takes back what it did, slot by slot. */
  lemma {:induction false} TakesBack(y: State, p: nat, c: nat, segs: map<int, Seg>)
    returns (acts: seq<Action>, z: State)
    requires Inv(y) && CanRun(y, p) && y.procs[p].doing.Undoing? && Undoable(y, p, c, segs)
    ensures Reaches(y, acts, z) && Inv(z) && SameBut(y, z, p, c) && z.segs == segs
    ensures z.procs[p].doing.Running? && c < |z.procs| && !z.procs[c].used
    decreases y.procs[p].doing.n
  {
    hide Counts, Inv, Reaches;
    InvFormed(y);
    Slots8(y, p);
    Slots8(y, c);
    var n := y.procs[p].doing.n;
    var a := ForkUndo(p);
    StepKeeps(y, a);
    var z1 := Step(y, a);
    OneStep(y, a, z1);
    acts, z := [a], z1;
    if n > 0 {
      UndoneSlot(y, p, c, segs);
      var rest;
      rest, z := TakesBack(z1, p, c, segs);
      Then(y, [a], z1, rest, z);
      acts := [a] + rest;
    }
  }

  lemma {:induction false} UndoneSlot(y: State, p: nat, c: nat, segs: map<int, Seg>)
    requires Formed(y) && Can(y, ForkUndo(p)) && Undoable(y, p, c, segs) && y.procs[p].doing.n > 0
    requires NULL !in y.segs
    requires forall j {:trigger y.procs[c].segp[j]} :: 0 <= j < NUSEG && y.procs[c].segp[j] != NULL ==>
      y.procs[c].segp[j] in y.segs
    ensures var z := Undo(y, p);
      && Undoable(z, p, c, segs) && SameBut(y, z, p, c) && CanRun(z, p)
      && z.procs[p].doing == Undoing(c, y.procs[p].doing.n - 1)
  {
    hide Sfree;
    var n := y.procs[p].doing.n;
    var z := Undo(y, p);
    UnforkedSame(z.segs, y.procs[c].segp, z.procs[c].segp, n - 1);
  }

  /** A fork that is given up, wherever it was, leaves every segment with its counts, and every
      process but for the unused slot of the child, as they were before it began. */
  lemma {:induction false} GivenUp(y: State, p: nat, c: nat, acts: seq<Action>, z: State)
    returns (more: seq<Action>, w: State)
    requires Inv(y) && Can(y, ForkBegin(p, c)) && OnlyFork(acts, p)
    requires Reaches(Step(y, ForkBegin(p, c)), acts, z) && p < |z.procs| && z.procs[p].doing.Undoing?
    ensures Reaches(z, more, w) && w.segs == y.segs && w.sw == y.sw && |w.procs| == |y.procs| && c < |w.procs|
    ensures !w.procs[c].used && w.procs == y.procs[c := w.procs[c]]
  {
    hide Counts, Inv, Reaches;
    InvFormed(y);
    Slots8(y, p);
    Slots8(y, c);
    var y1 := Step(y, ForkBegin(p, c));
    StepKeeps(y, ForkBegin(p, c));
    assert Undoable(y1, p, c, y.segs);
    UndoableRun(y1, acts, z, p, c, y.segs);
    more, w := TakesBack(z, p, c, y.segs);
    forall q | 0 <= q < |w.procs| && q != c ensures w.procs[q] == y.procs[q] {
    }
  }

  // ----- an exit ------------------------------------------------------------------------------

  /** A process that exits frees what it has, slot by slot, and its slot of the process table;
      nothing else changes. */
  lemma {:induction false} Exits(y: State, p: nat, n: nat) returns (acts: seq<Action>, z: State)
    requires Inv(y) && CanRun(y, p) && y.procs[p].doing == Exiting(n) && !On(y, p)
    ensures Reaches(y, acts, z) && Inv(z) && |z.procs| == |y.procs| && z.sw == y.sw && n <= |y.procs[p].segp|
    ensures !z.procs[p].used && (forall j {:trigger z.procs[p].segp[j]} :: 0 <= j < |z.procs[p].segp| ==>
      z.procs[p].segp[j] == NULL)
    ensures z.segs == Unforked(y.segs, y.procs[p].segp, n) && z.procs == y.procs[p := z.procs[p]]
    decreases n
  {
    hide Counts, Inv, Reaches;
    InvFormed(y);
    Slots8(y, p);
    ExitSlots(y, p);
    if n == 0 {
      z := Step(y, Release(p));
      StepKeeps(y, Release(p));
      OneStep(y, Release(p), z);
      acts := [Release(p)];
    } else {
      var a := ExitNext(p);
      StepKeeps(y, a);
      var z1 := Step(y, a);
      OneStep(y, a, z1);
      ExitedSlot(y, p, n);
      var rest;
      rest, z := Exits(z1, p, n - 1);
      Then(y, [a], z1, rest, z);
      acts := [a] + rest;
    }
  }

  lemma {:induction false} ExitSlots(y: State, p: nat)
    requires Inv(y) && p < |y.procs| && y.procs[p].doing.Exiting?
    ensures y.procs[p].doing.n <= |y.procs[p].segp| && NoneFrom(y.procs[p].segp, y.procs[p].doing.n)
  {
    assert ProcGood(y, p) && ProcFormed(y, y.procs[p]);
  }

  lemma {:induction false} ExitedSlot(y: State, p: nat, n: nat)
    requires Formed(y) && Can(y, ExitNext(p)) && y.procs[p].doing == Exiting(n) && NULL !in y.segs
    requires n <= |y.procs[p].segp| == NUSEG
    requires forall j {:trigger y.procs[p].segp[j]} :: 0 <= j < NUSEG && y.procs[p].segp[j] != NULL ==>
      y.procs[p].segp[j] in y.segs
    ensures var z := Exit(y, p);
      && |z.procs| == |y.procs| && z.sw == y.sw && z.procs == y.procs[p := z.procs[p]] && CanRun(z, p)
      && z.procs[p].doing == Exiting(n - 1) && |z.procs[p].segp| == NUSEG
      && Unforked(z.segs, z.procs[p].segp, n - 1) == Unforked(y.segs, y.procs[p].segp, n)
  {
    hide Sfree;
    var z := Exit(y, p);
    UnforkedSame(z.segs, y.procs[p].segp, z.procs[p].segp, n - 1);
  }

  /** pexit of a process that the swapper is not working on: all its references are undone. */
  lemma {:induction false} ExitsFromRunning(y: State, p: nat) returns (acts: seq<Action>, z: State)
    requires Inv(y) && Can(y, ExitBegin(p)) && !On(y, p)
    ensures Reaches(y, acts, z) && Inv(z) && |z.procs| == |y.procs| && |y.procs[p].segp| == NUSEG
    ensures !z.procs[p].used && z.segs == Unforked(y.segs, y.procs[p].segp, NUSEG)
    ensures z.procs == y.procs[p := z.procs[p]]
  {
    hide Counts, Inv, Reaches;
    InvFormed(y);
    Slots8(y, p);
    var a := ExitBegin(p);
    StepKeeps(y, a);
    var y1 := Step(y, a);
    OneStep(y, a, y1);
    var rest;
    rest, z := Exits(y1, p, NUSEG);
    Then(y, [a], y1, rest, z);
    acts := [a] + rest;
  }
}
