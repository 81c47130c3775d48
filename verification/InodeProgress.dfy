/** Nobody is left waiting at the table of inodes: who looks for one comes to have it, if there
    is a slot for it, and every gate comes to be open. */
module InodeProgress {
  import opened InodeTable

  /** An action that begins nothing new; reading an inode succeeds, and nobody turns to a
      volume mounted elsewhere. */
  predicate Finishing(a: Action) {
    a.Found? || a.Miss? || a.Overflow? || a.Gate? || (a.ReadDone? && a.ok) || a.Unlock? || a.WriteDone?
  }

  ghost function Steps(y: Sys, acts: seq<Action>): Sys {
    if acts == [] then y else Act(Steps(y, acts[..|acts| - 1]), acts[|acts| - 1])
  }

  ghost predicate Leads(y: Sys, z: Sys) {
    exists acts: seq<Action> {:trigger Steps(y, acts)} ::
      Steps(y, acts) == z && forall j :: 0 <= j < |acts| ==> Finishing(acts[j])
  }

  /** z is reached from y, sound and of the same size. */
  ghost predicate Reached(y: Sys, z: Sys) {
    Leads(y, z) && Inv(z) && |z.slots| == |y.slots| && |z.procs| == |y.procs|
  }

  lemma {:induction false} LeadsSelf(y: Sys)
    ensures Leads(y, y)
  {
    assert Steps(y, []) == y;
  }

  lemma {:induction false} OneMore(y: Sys, z: Sys, a: Action)
    requires Leads(y, z) && Finishing(a)
    ensures Leads(y, Act(z, a))
  {
    hide Act, Finishing;
    var acts :| Steps(y, acts) == z && forall j :: 0 <= j < |acts| ==> Finishing(acts[j]);
    var more := acts + [a];
    assert more[..|more| - 1] == acts;
    assert Steps(y, more) == Act(z, a);
  }

  lemma {:induction false} Do(y: Sys, z: Sys, a: Action)
    requires Reached(y, z) && Finishing(a)
    ensures Reached(y, Act(z, a))
  {
    hide Leads, Inv;
    OneMore(y, z, a);
    ActKeeps(z, a);
    Sizes(z, a);
  }

  lemma {:induction false} Sizes(y: Sys, a: Action)
    ensures |Act(y, a).slots| == |y.slots| && |Act(y, a).procs| == |y.procs|
  {
    hide Absent, Victim;
  }

  ghost predicate OthersStay(z: Sys, w: Sys, p: nat) {
    && |z.procs| == |w.procs|
    && forall q {:trigger w.procs[q]} :: 0 <= q < |z.procs| && q != p ==> w.procs[q] == z.procs[q]
  }

  ghost predicate AllOpen(y: Sys) {
    forall i {:trigger y.slots[i]} :: 0 <= i < |y.slots| ==> y.slots[i].owner == NOBODY
  }

  // ----- who has a gate ---------------------------------------------------------------------

  /** Process p has no gate any more, and nobody else has another, or other references. */
  ghost predicate LetsGo(y: Sys, x: Sys, z: Sys, p: nat) {
    && Reached(y, z) && OthersStay(x, z, p) && |z.slots| == |x.slots|
    && p < |x.procs| && z.procs[p].refs == x.procs[p].refs
    && (forall i {:trigger z.slots[i]} :: 0 <= i < |z.slots| ==> z.slots[i].owner != p)
    && (forall i {:trigger z.slots[i]} :: 0 <= i < |z.slots| ==>
          (z.slots[i].owner == NOBODY || z.slots[i].owner == x.slots[i].owner) && z.slots[i].refc == x.slots[i].refc &&
          z.slots[i].dev == x.slots[i].dev && z.slots[i].ino == x.slots[i].ino)
  }

  /** A process has one gate at most. */
  lemma {:induction false} Owners(y: Sys, p: nat)
    requires Inv(y) && p < |y.procs|
    ensures forall i {:trigger y.slots[i]} :: 0 <= i < |y.slots| && y.slots[i].owner == p ==> HasGate(y.procs[p].pc, i)
  {
    hide Unique, Sane, Total;
    forall i | 0 <= i < |y.slots| && y.slots[i].owner == p ensures HasGate(y.procs[p].pc, i) {
      assert Held(y, i);
    }
  }

  /** Whoever has a gate opens it, with what he has. */
  lemma {:induction false} LetGo(y: Sys, x: Sys, p: nat) returns (z: Sys)
    requires Reached(y, x) && p < |x.procs|
    ensures LetsGo(y, x, z, p)
    ensures x.procs[p].pc.Reading? || x.procs[p].pc.Holding? || x.procs[p].pc.Writing? ==> z.procs[p].pc.Idle?
  {
    hide Inv, Leads;
    SaneNow(x, p);
    Owners(x, p);
    z := x;
    if x.procs[p].pc.Reading? {
      Do(y, x, ReadDone(p, true));
      z := Read(x, p, true);
      SaneNow(z, p);
      Owners(z, p);
    }
    if z.procs[p].pc.Holding? {
      Do(y, z, Unlock(p));
      z := Leave(z, p);
    } else if z.procs[p].pc.Writing? {
      Do(y, z, WriteDone(p));
      z := Leave(z, p);
    }
  }

  lemma {:induction false} AllLetGo(y: Sys, n: nat) returns (z: Sys)
    requires Inv(y) && n <= |y.procs|
    ensures Reached(y, z) && forall i {:trigger z.slots[i]} :: 0 <= i < |z.slots| ==> !(0 <= z.slots[i].owner < n)
    decreases n
  {
    hide Inv, Leads;
    if n == 0 {
      z := y;
      LeadsSelf(y);
    } else {
      var x := AllLetGo(y, n - 1);
      z := LetGo(y, x, n - 1);
    }
  }

  // ----- with all gates open ----------------------------------------------------------------------

  ghost predicate Calm(y: Sys, x: Sys) { Reached(y, x) && AllOpen(x) }

  /** Process p has got the inode: one reference more, to a slot that has it. */
  ghost predicate Got(x: Sys, z: Sys, p: nat, dev: int, ino: int)
    requires p < |x.procs| && p < |z.procs|
  {
    exists i: nat {:trigger Ref(i, dev, ino)} ::
      i < |z.slots| && Is(z.slots[i], dev, ino) && z.procs[p].refs == x.procs[p].refs + multiset{Ref(i, dev, ino)}
  }

  ghost predicate Full(slots: seq<Slot>) {
    forall i {:trigger slots[i]} :: 0 <= i < |slots| ==> slots[i].refc != 0
  }

  /** The least recently used of the unreferenced slots. */
  lemma {:induction false} SomeVictim(slots: seq<Slot>, n: nat) returns (v: int)
    requires n <= |slots|
    ensures -1 <= v < n
    ensures v >= 0 ==> slots[v].refc == 0 && forall i {:trigger slots[i]} :: 0 <= i < n && slots[i].refc == 0 ==>
      slots[v].lrt <= slots[i].lrt
    ensures v < 0 ==> forall i {:trigger slots[i]} :: 0 <= i < n ==> slots[i].refc != 0
    decreases n
  {
    v := -1;
    if n > 0 {
      v := SomeVictim(slots, n - 1);
      if slots[n - 1].refc == 0 && (v < 0 || slots[n - 1].lrt < slots[v].lrt) {
        v := n - 1;
      }
    }
  }

  /** A slot that has the inode is taken. */
  lemma {:induction false} TakesFound(y: Sys, x: Sys, p: nat) returns (z: Sys)
    requires Calm(y, x) && p < |x.procs| && x.procs[p].pc.WantFound? && x.procs[p].pc.slot < |x.slots|
    requires Is(x.slots[x.procs[p].pc.slot], x.procs[p].pc.dev, x.procs[p].pc.ino)
    ensures Calm(y, z) && OthersStay(x, z, p) && z.procs[p].pc.Idle?
    ensures Got(x, z, p, x.procs[p].pc.dev, x.procs[p].pc.ino)
  {
    hide Inv, Leads, Absent;
    var pc := x.procs[p].pc;
    Do(y, x, Gate(p, 0));
    var x1 := Enter(x, p, 0);
    z := LetGo(y, x1, p);
    assert Ref(pc.slot, pc.dev, pc.ino) == Ref(pc.slot, pc.dev, pc.ino);
  }

  /** So is one that is free for it. */
  lemma {:induction false} TakesVictim(y: Sys, x: Sys, p: nat) returns (z: Sys)
    requires Calm(y, x) && p < |x.procs| && x.procs[p].pc.WantVictim? && x.procs[p].pc.slot < |x.slots|
    requires x.slots[x.procs[p].pc.slot].refc == 0 && Absent(x.slots, x.procs[p].pc.dev, x.procs[p].pc.ino)
    ensures Calm(y, z) && OthersStay(x, z, p) && z.procs[p].pc.Idle?
    ensures Got(x, z, p, x.procs[p].pc.dev, x.procs[p].pc.ino)
  {
    hide Inv, Leads, Absent;
    var pc := x.procs[p].pc;
    Do(y, x, Gate(p, 0));
    var x1 := Enter(x, p, 0);
    z := LetGo(y, x1, p);
    assert Ref(pc.slot, pc.dev, pc.ino) == Ref(pc.slot, pc.dev, pc.ino);
  }

  /** A search that starts with all gates open ends with the inode, or with a full table that
      does not have it. */
  lemma {:induction false} Finds(y: Sys, x: Sys, p: nat) returns (z: Sys)
    requires Calm(y, x) && p < |x.procs| && x.procs[p].pc.Seek?
    ensures Calm(y, z) && OthersStay(x, z, p) && z.procs[p].pc.Idle?
    ensures var pc := x.procs[p].pc;
      Got(x, z, p, pc.dev, pc.ino) ||
      (Full(x.slots) && Absent(x.slots, pc.dev, pc.ino) && z.procs[p].refs == x.procs[p].refs)
  {
    hide Inv, Leads;
    var pc := x.procs[p].pc;
    if i :| 0 <= i < |x.slots| && Is(x.slots[i], pc.dev, pc.ino) {
      Do(y, x, Found(p, i));
      z := TakesFound(y, At(x, p, WantFound(i, pc.dev, pc.ino)), p);
    } else {
      var v := SomeVictim(x.slots, |x.slots|);
      if v >= 0 {
        Do(y, x, Miss(p, v));
        z := TakesVictim(y, At(x, p, WantVictim(v, pc.dev, pc.ino)), p);
      } else {
        Do(y, x, Overflow(p));
        z := At(x, p, Idle);
      }
    }
  }

  /** Whoever looks for an inode gets it, or finds the table full; whoever waits for a gate
      comes through it. */
  lemma {:induction false} ComesHome(y: Sys, x: Sys, p: nat) returns (z: Sys)
    requires Calm(y, x) && p < |x.procs|
    ensures Calm(y, z) && OthersStay(x, z, p) && z.procs[p].pc.Idle?
    ensures var pc := x.procs[p].pc;
      if pc.Seek? || pc.WantVictim? || pc.WantFound? then
        Got(x, z, p, pc.dev, pc.ino) ||
        (Full(x.slots) && Absent(x.slots, pc.dev, pc.ino) && z.procs[p].refs == x.procs[p].refs)
      else z.procs[p].refs == x.procs[p].refs
  {
    hide Inv, Leads, Absent, Full, Got;
    SaneNow(x, p);
    var pc := x.procs[p].pc;
    z := x;
    if pc.Seek? {
      z := Finds(y, x, p);
    } else if pc.WantVictim? {
      if x.slots[pc.slot].refc == 0 && Absent(x.slots, pc.dev, pc.ino) {
        z := TakesVictim(y, x, p);
      } else {
        Do(y, x, Gate(p, 0));
        z := Finds(y, Enter(x, p, 0), p);
        GotSame(x, Enter(x, p, 0), z, p, pc.dev, pc.ino);
      }
    } else if pc.WantFound? {
      if Is(x.slots[pc.slot], pc.dev, pc.ino) {
        z := TakesFound(y, x, p);
      } else {
        Do(y, x, Gate(p, 0));
        z := Finds(y, Enter(x, p, 0), p);
        GotSame(x, Enter(x, p, 0), z, p, pc.dev, pc.ino);
      }
    } else if pc.WantOwn? {
      Do(y, x, Gate(p, 0));
      var x1 := Enter(x, p, 0);
      z := LetGo(y, x1, p);
    } else if !pc.Idle? {
      z := LetGo(y, x, p);
    }
  }

  lemma {:induction false} GotSame(x: Sys, x1: Sys, z: Sys, p: nat, dev: int, ino: int)
    requires p < |x.procs| && p < |x1.procs| && p < |z.procs| && x1.procs[p].refs == x.procs[p].refs
    ensures Got(x1, z, p, dev, ino) ==> Got(x, z, p, dev, ino)
  {
  }

  lemma {:induction false} AllHome(y: Sys, n: nat) returns (z: Sys)
    requires Inv(y) && n <= |y.procs|
    ensures Calm(y, z) && forall p {:trigger z.procs[p]} :: 0 <= p < n ==> z.procs[p].pc.Idle?
    decreases n
  {
    hide Leads, Unique, Sane, Total;
    if n == 0 {
      z := AllLetGo(y, |y.procs|);
      forall i | 0 <= i < |z.slots| ensures z.slots[i].owner == NOBODY {
        assert Held(z, i);
      }
    } else {
      var x := AllHome(y, n - 1);
      z := ComesHome(y, x, n - 1);
    }
  }

  /** From every state there is a run in which everybody finishes what he is at: at its end
      every process is idle, and every gate is open. */
  lemma {:induction false} NobodyIsStuck(y: Sys) returns (acts: seq<Action>)
    requires Inv(y)
    ensures forall j :: 0 <= j < |acts| ==> Finishing(acts[j])
    ensures var z := Steps(y, acts);
      && |z.procs| == |y.procs| && AllOpen(z)
      && forall p {:trigger z.procs[p]} :: 0 <= p < |z.procs| ==> z.procs[p].pc.Idle?
  {
    hide Inv, Steps, Finishing;
    var z := AllHome(y, |y.procs|);
    acts :| Steps(y, acts) == z && forall j :: 0 <= j < |acts| ==> Finishing(acts[j]);
  }

  /** And if all gates are open and a process looks for an inode, it comes to have it, unless
      every slot is in use for another. */
  lemma {:induction false} GetsInode(y: Sys, p: nat) returns (acts: seq<Action>)
    requires Inv(y) && AllOpen(y) && p < |y.procs|
    requires var pc := y.procs[p].pc; pc.Seek? || pc.WantVictim? || pc.WantFound?
    ensures forall j :: 0 <= j < |acts| ==> Finishing(acts[j])
    ensures var pc, z := y.procs[p].pc, Steps(y, acts);
      && |z.procs| == |y.procs| && AllOpen(z) && OthersStay(y, z, p) && z.procs[p].pc.Idle?
      && (Got(y, z, p, pc.dev, pc.ino) || (Full(y.slots) && Absent(y.slots, pc.dev, pc.ino)))
  {
    hide Inv, Steps, Finishing, Got, Absent, Full;
    LeadsSelf(y);
    var z := ComesHome(y, y, p);
    acts :| Steps(y, acts) == z && forall j :: 0 <= j < |acts| ==> Finishing(acts[j]);
  }

  /** Who has a reference gets the gate of its slot when that is open, and finds the inode. */
  lemma {:induction false} LocksOwn(y: Sys, p: nat, r: Ref, now: int)
    requires Inv(y) && p < |y.procs| && y.procs[p].pc.Idle? && y.procs[p].refs[r] > 0
    requires r.slot < |y.slots| && y.slots[r.slot].owner == NOBODY
    ensures var z := Act(Act(y, Lock(p, r)), Gate(p, now));
      && p < |z.procs| && z.procs[p] == Proc(Holding(r.slot), y.procs[p].refs)
      && r.slot < |z.slots| && z.slots[r.slot].owner == p && Is(z.slots[r.slot], r.dev, r.ino)
  {
    hide Inv, Absent, Victim;
    RefHere(y, p, r);
  }
}
