/** Nobody is left waiting in the buffer cache: whatever the processes are in the middle of,
    there is a way for all of them to finish it. */
module BufferProgress {
  import opened Words
  import opened BufferCache

  /** An action that begins nothing new and stores nothing. */
  predicate Finishing(a: Action) { !a.Store? && !a.WriteThrough? && !a.Ask? && !a.Begin? }

  /** Some way of finishing leads from y to z. */
  ghost predicate Leads(y: Sys, z: Sys) {
    exists acts: seq<Action> {:trigger Run(y, acts)} ::
      Run(y, acts) == z && forall j :: 0 <= j < |acts| ==> Finishing(acts[j])
  }

  lemma {:induction false} LeadsSelf(y: Sys)
    ensures Leads(y, y)
  {
    assert Run(y, []) == y;
  }

  lemma {:induction false} OneMore(y: Sys, z: Sys, a: Action)
    requires Leads(y, z) && Finishing(a)
    ensures Leads(y, Act(z, a))
  {
    hide Act, Finishing;
    var acts :| Run(y, acts) == z && forall j :: 0 <= j < |acts| ==> Finishing(acts[j]);
    var more := acts + [a];
    assert more[..|more| - 1] == acts;
    assert Run(y, more) == Act(z, a);
  }

  /** z is reached from y, sound and of the same size. */
  ghost predicate Reached(y: Sys, z: Sys) {
    Leads(y, z) && Inv(z) && |z.bufs| == |y.bufs| && |z.procs| == |y.procs|
  }

  lemma {:induction false} Do(y: Sys, z: Sys, a: Action)
    requires Reached(y, z) && Finishing(a)
    ensures Reached(y, Act(z, a))
  {
    hide Leads, Inv;
    OneMore(y, z, a);
    ActKeeps(z, a);
    Sizes(z, a);
  }

  lemma {:induction false} Sizes(y: Sys, a: Action)
    ensures |Act(y, a).bufs| == |y.bufs| && |Act(y, a).procs| == |y.procs|
  {
    hide Miss;
  }

  ghost predicate OthersStay(z: Sys, w: Sys, p: nat) {
    && |z.procs| == |w.procs|
    && forall q {:trigger w.procs[q]} :: 0 <= q < |z.procs| && q != p ==> w.procs[q] == z.procs[q]
  }

  ghost predicate AllDone(y: Sys) {
    forall i {:trigger y.bufs[i]} :: 0 <= i < |y.bufs| ==> y.bufs[i].io.Nothing?
  }

  ghost predicate AllOpen(y: Sys) {
    forall i {:trigger y.bufs[i]} :: 0 <= i < |y.bufs| ==> y.bufs[i].owner == NOBODY
  }

  // ----- the device ---------------------------------------------------------------------------

  /** The device does all it has been asked. */
  lemma {:induction false} FinishIo(y: Sys, n: nat) returns (z: Sys)
    requires Inv(y) && n <= |y.bufs|
    ensures Reached(y, z) && z.procs == y.procs
    ensures forall i {:trigger z.bufs[i]} :: 0 <= i < n ==> z.bufs[i].io.Nothing?
    decreases n
  {
    hide Inv, Leads, Miss;
    if n == 0 {
      z := y;
      LeadsSelf(y);
    } else {
      var x := FinishIo(y, n - 1);
      Do(y, x, Done(n - 1));
      z := DoDone(x, n - 1);
    }
  }

  // ----- who holds a gate -----------------------------------------------------------------------

  ghost predicate LetsGo(y: Sys, x: Sys, z: Sys, p: nat) {
    && Reached(y, z) && AllDone(z) && OthersStay(x, z, p)
    && (forall i {:trigger z.bufs[i]} :: 0 <= i < |z.bufs| ==> z.bufs[i].owner != p)
    && (forall i {:trigger z.bufs[i]} :: 0 <= i < |x.bufs| && i < |z.bufs| ==>
          z.bufs[i].owner == NOBODY || z.bufs[i].owner == x.bufs[i].owner)
  }

  /** The holder of a full buffer releases it. */
  lemma {:induction false} Releases(y: Sys, x: Sys, p: nat) returns (z: Sys)
    requires Reached(y, x) && AllDone(x) && p < |x.procs| && x.procs[p].Holding? && x.procs[p].full
    ensures LetsGo(y, x, z, p) && p < |z.procs| && z.procs[p].Idle?
  {
    hide Inv, Leads;
    Facts(x, p);
    Do(y, x, Release(p));
    z := DoRelease(x, p);
    Owners(x, p);
  }

  /** A process has one gate at most. */
  lemma {:induction false} Owners(y: Sys, p: nat)
    requires Inv(y) && p < |y.procs|
    ensures forall i {:trigger y.bufs[i]} :: 0 <= i < |y.bufs| && y.bufs[i].owner == p ==> HasGate(y.procs[p], i)
  {
    hide Unique, Sane, Fits;
    forall i | 0 <= i < |y.bufs| && y.bufs[i].owner == p ensures HasGate(y.procs[p], i) {
      assert Held(y, i);
    }
  }

  /** Who holds a buffer gets it filled, if need be, and releases it. */
  lemma {:induction false} Finishes(y: Sys, x: Sys, p: nat) returns (z: Sys)
    requires Reached(y, x) && AllDone(x) && p < |x.procs| && x.procs[p].Holding?
    ensures LetsGo(y, x, z, p) && p < |z.procs| && z.procs[p].Idle?
  {
    hide Inv, Leads;
    Facts(x, p);
    var i := x.procs[p].i;
    if x.procs[p].full {
      z := Releases(y, x, p);
    } else if x.bufs[i].key.dev == NODEV {
      Do(y, x, Clear(p));
      z := Releases(y, DoClear(x, p), p);
    } else {
      Do(y, x, StartRead(p, true));
      var x1 := DoRead(x, p, true);
      Do(y, x1, Done(i));
      var x2 := DoDone(x1, i);
      Do(y, x2, Arrived(p));
      z := Releases(y, DoArrived(x2, p), p);
    }
  }

  /** Whoever has a gate comes to open it. */
  lemma {:induction false} LetGo(y: Sys, x: Sys, p: nat) returns (z: Sys)
    requires Reached(y, x) && AllDone(x) && p < |x.procs|
    ensures LetsGo(y, x, z, p)
  {
    hide Inv, Leads;
    Facts(x, p);
    Owners(x, p);
    var pc := x.procs[p];
    if pc.Holding? {
      z := Finishes(y, x, p);
    } else if pc.Reading? || pc.Writing? {
      Do(y, x, Arrived(p));
      z := Releases(y, DoArrived(x, p), p);
    } else if pc.Syncing? {
      Do(y, x, Synced(p));
      z := DoSynced(x, p);
    } else {
      z := x;
    }
  }

  lemma {:induction false} AllLetGo(y: Sys, n: nat) returns (z: Sys)
    requires Inv(y) && n <= |y.procs|
    ensures Reached(y, z) && AllDone(z)
    ensures forall i {:trigger z.bufs[i]} :: 0 <= i < |z.bufs| ==> !(0 <= z.bufs[i].owner < n)
    decreases n
  {
    hide Inv, Leads;
    if n == 0 {
      z := FinishIo(y, |y.bufs|);
    } else {
      var x := AllLetGo(y, n - 1);
      z := LetGo(y, x, n - 1);
    }
  }

  // ----- with all gates open --------------------------------------------------------------------

  lemma {:induction false} OpenIsDone(y: Sys)
    requires Inv(y) && AllOpen(y)
    ensures AllDone(y)
  {
    forall i | 0 <= i < |y.bufs| ensures y.bufs[i].io.Nothing? {
      assert Sane(y.bufs[i], y.disk);
    }
  }

  /** x is reached from y with all gates open. */
  ghost predicate Calm(y: Sys, x: Sys) { Reached(y, x) && AllOpen(x) }

  /** Who wants a block gets a buffer for it, and releases it. */
  lemma {:induction false} GetsBlock(y: Sys, x: Sys, p: nat) returns (z: Sys)
    requires Calm(y, x) && |x.bufs| > 0 && p < |x.procs| && x.procs[p].Want?
    ensures Calm(y, z) && OthersStay(x, z, p) && z.procs[p].Idle?
  {
    hide Inv, Leads;
    OpenIsDone(x);
    var key := x.procs[p].key;
    var x1;
    if i :| 0 <= i < |x.bufs| && x.bufs[i].key == key {
      Do(y, x, Claim(p, i));
      x1 := DoClaim(x, p, i);
    } else {
      var x0 := x;
      if x.bufs[0].mod {
        Do(y, x, Evict(p, 0));
        var w := DoEvict(x, p, 0);
        Do(y, w, Done(0));
        x0 := DoDone(w, 0);
      }
      assert Miss(x0, key);
      Do(y, x0, Evict(p, 0));
      x1 := DoEvict(x0, p, 0);
    }
    z := Finishes(y, x1, p);
  }

  /** A turn of a walk takes it to the next buffer. */
  lemma {:induction false} WalksOn(y: Sys, x: Sys, p: nat) returns (z: Sys)
    requires Calm(y, x) && p < |x.procs| && (x.procs[p].Sweep? || x.procs[p].Locking?) && x.procs[p].i < |x.bufs|
    ensures Calm(y, z) && OthersStay(x, z, p) && z.procs[p] == Sweep(x.procs[p].i + 1, x.procs[p].job)
  {
    hide Inv, Leads;
    OpenIsDone(x);
    var i := x.procs[p].i;
    Do(y, x, Pass(p));
    z := DoPass(x, p);
    if z.procs[p].Syncing? {
      Do(y, z, Done(i));
      z := DoDone(z, i);
      Do(y, z, Synced(p));
      z := DoSynced(z, p);
    }
  }

  /** A walk comes to its end. */
  lemma {:induction false} WalksOut(y: Sys, x: Sys, p: nat) returns (z: Sys)
    requires Calm(y, x) && p < |x.procs| && (x.procs[p].Sweep? || (x.procs[p].Locking? && x.procs[p].i < |x.bufs|))
    ensures Calm(y, z) && OthersStay(x, z, p) && z.procs[p].Idle?
    decreases |x.bufs| - x.procs[p].i
  {
    hide Leads, Inv;
    if x.procs[p].i >= |x.bufs| {
      Do(y, x, Pass(p));
      z := DoPass(x, p);
    } else {
      var x1 := WalksOn(y, x, p);
      z := WalksOut(y, x1, p);
    }
  }

  lemma {:induction false} ComesHome(y: Sys, x: Sys, p: nat) returns (z: Sys)
    requires Calm(y, x) && |x.bufs| > 0 && p < |x.procs|
    ensures Calm(y, z) && OthersStay(x, z, p) && z.procs[p].Idle?
  {
    hide Leads, Inv, Unique, Sane;
    Facts(x, p);
    var pc := x.procs[p];
    z := x;
    if pc.Wait? {
      OpenIsDone(x);
      Do(y, x, Gate(p));
      var x1 := DoGate(x, p);
      if x1.procs[p].Want? { z := GetsBlock(y, x1, p); } else { z := Finishes(y, x1, p); }
    } else if pc.Want? {
      z := GetsBlock(y, x, p);
    } else if pc.Sweep? || pc.Locking? {
      z := WalksOut(y, x, p);
    }
  }

  /** Who has waited at a gate gets the buffer as soon as it is open, if it still has the block,
      and without reading it if it has its contents. */
  lemma {:induction false} GateGives(y: Sys, p: nat)
    requires Inv(y) && p < |y.procs| && y.procs[p].Wait? && y.procs[p].i < |y.bufs|
    requires Open(y, y.procs[p].i) && y.bufs[y.procs[p].i].key == y.procs[p].key
    ensures var i, key := y.procs[p].i, y.procs[p].key; var z := Act(y, Gate(p));
      && p < |z.procs| && i < |z.bufs| && z.bufs[i].owner == p && z.bufs[i].key == key
      && (key.dev != NODEV ==> z.procs[p] == Holding(i, true) && z.bufs[i].data == Visible(z, key) == Visible(y, key))
  {
    hide Visible, Unique;
    var i, key := y.procs[p].i, y.procs[p].key;
    Facts(y, p);
    GateKeeps(y, p);
    var z := DoGate(y, p);
    if key.dev != NODEV {
      UniqueOf(z);
      assert Holds(z.bufs[i], key);
      VisibleIs(z, i, key);
    }
  }

  lemma {:induction false} AllHome(y: Sys, n: nat) returns (z: Sys)
    requires Inv(y) && n <= |y.procs| && |y.bufs| > 0
    ensures Calm(y, z) && forall p {:trigger z.procs[p]} :: 0 <= p < n ==> z.procs[p].Idle?
    decreases n
  {
    hide Leads;
    if n == 0 {
      z := AllLetGo(y, |y.procs|);
      forall i | 0 <= i < |z.bufs| ensures z.bufs[i].owner == NOBODY {
        assert Sane(z.bufs[i], z.disk) && Held(z, i);
      }
    } else {
      var x := AllHome(y, n - 1);
      z := ComesHome(y, x, n - 1);
    }
  }

  lemma {:induction false} SameAlong(y: Sys, acts: seq<Action>, k: Key)
    requires Inv(y) && k.dev != NODEV && forall j :: 0 <= j < |acts| ==> Finishing(acts[j])
    ensures Inv(Run(y, acts)) && Visible(Run(y, acts), k) == Visible(y, k)
    decreases |acts|
  {
    hide Act, Inv, Visible;
    if acts != [] {
      SameAlong(y, acts[..|acts| - 1], k);
      ActKeeps(Run(y, acts[..|acts| - 1]), acts[|acts| - 1]);
    }
  }

  /** From every state there is a run in which everybody finishes what he is at, and nothing
      is stored: at its end every process is idle, every gate is open, and every block shows
      what it showed. */
  lemma {:induction false} NobodyIsStuck(y: Sys) returns (acts: seq<Action>)
    requires Inv(y) && |y.bufs| > 0
    ensures forall j :: 0 <= j < |acts| ==> Finishing(acts[j])
    ensures var z := Run(y, acts);
      && |z.procs| == |y.procs| && AllOpen(z) && AllDone(z)
      && (forall p {:trigger z.procs[p]} :: 0 <= p < |z.procs| ==> z.procs[p].Idle?)
      && forall k: Key {:trigger Visible(z, k)} :: k.dev != NODEV ==> Visible(z, k) == Visible(y, k)
  {
    hide Inv, Visible, Run, Finishing;
    var z := AllHome(y, |y.procs|);
    acts :| Run(y, acts) == z && forall j :: 0 <= j < |acts| ==> Finishing(acts[j]);
    OpenIsDone(z);
    forall k: Key | k.dev != NODEV ensures Visible(z, k) == Visible(y, k) {
      SameAlong(y, acts, k);
    }
  }
}
