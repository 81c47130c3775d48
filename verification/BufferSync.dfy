/** What bwrite, bsync and bflush are for: the disk gets what the cache shows. */
module BufferSync {
  import opened Words
  import opened BufferCache

  // ----- one buffer ------------------------------------------------------------------------

  /** bwrite by a holder that waits, the device, and the wakeup: the block is on the disk. */
  lemma {:induction false} WriteArrives(y: Sys, p: nat)
    requires Inv(y) && Writes(y, p) && y.procs[p].full
    ensures var i := y.procs[p].i; var k := y.bufs[i].key;
      var y' := DoArrived(DoDone(DoWrite(y, p, true), i), p);
      && y'.procs[p] == Holding(i, true) && y'.bufs[i].key == k && !y'.bufs[i].mod
      && OnDisk(y'.disk, k) == Visible(y', k) == Visible(y, k) == y.bufs[i].data
  {
    hide Inv, Visible, Unique;
    var i := y.procs[p].i;
    Facts(y, p);
    var y1 := DoWrite(y, p, true);
    WriteKeeps(y, p, true);
    var y2 := DoDone(y1, i);
    DoneKeeps(y1, i);
    Shown(y, i);
    Shown(y2, i);
    GoShows(y2, p, Holding(i, true), i);
  }

  /** And one that does not wait has it there when the device is done, and the gate open. */
  lemma {:induction false} LaterArrives(y: Sys, p: nat)
    requires Inv(y) && Writes(y, p) && y.procs[p].full
    ensures var i := y.procs[p].i; var k := y.bufs[i].key; var y' := DoDone(DoWrite(y, p, false), i);
      && y'.procs[p].Idle? && Open(y', i) && y'.bufs[i].key == k && !y'.bufs[i].mod
      && OnDisk(y'.disk, k) == Visible(y', k) == Visible(y, k) == y.bufs[i].data
  {
    hide Inv, Visible, Unique;
    var i := y.procs[p].i;
    Facts(y, p);
    var y1 := DoWrite(y, p, false);
    WriteKeeps(y, p, false);
    DoneKeeps(y1, i);
    Shown(y, i);
    Shown(DoDone(y1, i), i);
  }

  /** superwrite has its data on the disk when it comes back. */
  lemma {:induction false} ThroughArrives(y: Sys, p: nat, data: int)
    requires Inv(y) && Writes(y, p)
    ensures var i := y.procs[p].i; var k := y.bufs[i].key;
      var y' := DoArrived(DoDone(DoWriteThrough(y, p, data), i), p);
      && y'.procs[p] == Holding(i, true) && y'.bufs[i].key == k && !y'.bufs[i].mod
      && OnDisk(y'.disk, k) == Visible(y', k) == y'.bufs[i].data == data
  {
    hide Inv, Visible, Unique;
    var i := y.procs[p].i;
    Facts(y, p);
    var y1 := DoWriteThrough(y, p, data);
    StoreKeeps(y, p, data);
    var y2 := DoDone(y1, i);
    DoneKeeps(y1, i);
    Shown(y2, i);
    GoShows(y2, p, Holding(i, true), i);
  }

  /** bread of a block that is not in the cache, waiting for the device, or leaving the buffer
      to it: the buffer then shows the block. */
  lemma {:induction false} ReadArrives(y: Sys, p: nat)
    requires Inv(y) && Writes(y, p) && !y.procs[p].full
    ensures var i := y.procs[p].i; var k := y.bufs[i].key;
      var y' := DoArrived(DoDone(DoRead(y, p, true), i), p);
      y'.procs[p] == Holding(i, true) && y'.bufs[i].key == k && y'.bufs[i].data == OnDisk(y.disk, k) == Visible(y', k)
    ensures var i := y.procs[p].i; var k := y.bufs[i].key; var y' := DoDone(DoRead(y, p, false), i);
      y'.procs[p].Idle? && Open(y', i) && HasBlock(y'.bufs[i]) && y'.bufs[i].key == k
      && y'.bufs[i].data == OnDisk(y.disk, k)
  {
    hide Inv, Visible, Unique;
    var i := y.procs[p].i;
    Facts(y, p);
    var y1 := DoRead(y, p, true);
    ReadKeeps(y, p, true);
    var y2 := DoDone(y1, i);
    DoneKeeps(y1, i);
    Shown(y2, i);
    GoShows(y2, p, Holding(i, true), i);
  }

  /** A turn of bsync or bflush at a modified buffer whose gate is open, the device, and the
      wakeup: the block is on the disk, the gate is open again, and the walk has gone on; for
      bflush the buffer is no block's any more. */
  lemma {:induction false} TurnArrives(y: Sys, p: nat)
    requires Inv(y) && p < |y.procs| && (y.procs[p].Sweep? || y.procs[p].Locking?) && Open(y, y.procs[p].i)
    requires y.bufs[y.procs[p].i].mod && Due(y.bufs[y.procs[p].i], y.procs[p].job)
    ensures var i, job := y.procs[p].i, y.procs[p].job; var k := y.bufs[i].key;
      var y' := DoSynced(DoDone(DoPass(y, p), i), p);
      && y'.procs[p] == Sweep(i + 1, job) && Open(y', i) && !y'.bufs[i].mod
      && (if job.Flush? then y'.bufs[i].key.dev == NODEV else y'.bufs[i].key == k)
      && OnDisk(y'.disk, k) == Visible(y', k) == Visible(y, k) == y.bufs[i].data
  {
    hide Inv, Visible, Unique;
    var i := y.procs[p].i;
    var k := y.bufs[i].key;
    Facts(y, p);
    var y1 := DoPass(y, p);
    PassKeeps(y, p);
    var y2 := DoDone(y1, i);
    DoneKeeps(y1, i);
    SyncedKeeps(y2, p);
    var y3 := DoSynced(y2, p);
    SaneAt(y, i);
    Shown(y, i);
    Shown(y2, i);
    assert SameStore(y2, y3);
    assert Visible(y3, k) == Visible(y2, k);
  }

  /** A buffer that has its block shows it. */
  lemma {:induction false} Shown(y: Sys, i: nat)
    requires Inv(y) && i < |y.bufs| && y.bufs[i].key.dev != NODEV && Holds(y.bufs[i], y.bufs[i].key)
    ensures Visible(y, y.bufs[i].key) == y.bufs[i].data
  {
    UniqueOf(y);
    VisibleIs(y, i, y.bufs[i].key);
  }

  lemma {:induction false} GoShows(y: Sys, p: nat, pc: Pc, i: nat)
    requires Inv(y) && i < |y.bufs| && y.bufs[i].key.dev != NODEV && Holds(y.bufs[i], y.bufs[i].key) && p < |y.procs|
    ensures Visible(Go(y, p, pc), y.bufs[i].key) == y.bufs[i].data
  {
    UniqueOf(y);
    VisibleIs(Go(y, p, pc), i, y.bufs[i].key);
  }

  // ----- bsync over all buffers ----------------------------------------------------------------

  ghost predicate Calm(acts: seq<Action>) {
    forall j :: 0 <= j < |acts| ==> !acts[j].Store? && !acts[j].WriteThrough?
  }

  /** How many buffers a walk has behind it; all n when it is over. */
  function Behind(pc: Pc, job: Job, n: nat): nat {
    if (pc.Sweep? || pc.Locking? || pc.Syncing?) && pc.job == job then pc.i else n
  }

  ghost predicate Clean(y: Sys, n: nat) {
    forall j {:trigger y.bufs[j]} :: 0 <= j < n && j < |y.bufs| ==> !y.bufs[j].mod
  }

  predicate Walks(pc: Pc) { pc.Sweep? || pc.Locking? || pc.Syncing? }

  predicate OfWalks(a: Action) { a.Begin? || a.Pass? || a.Synced? }

  predicate OfClaims(a: Action) { a.Ask? || a.Claim? || a.Evict? || a.Gate? }

  /** Steps that are none of a walk leave a walk where it is, and modify no buffer that was
      not, unless they store something. */
  ghost predicate Beside(y: Sys, y': Sys, p: nat)
    requires p < |y.procs|
  {
    && |y'.bufs| == |y.bufs| && |y'.procs| == |y.procs|
    && (if Walks(y.procs[p]) then y'.procs[p] == y.procs[p] else !Walks(y'.procs[p]))
    && forall j {:trigger y'.bufs[j]} :: 0 <= j < |y.bufs| && y'.bufs[j].mod ==> y.bufs[j].mod
  }

  lemma {:induction false} ClaimsBeside(y: Sys, a: Action, p: nat)
    requires p < |y.procs| && OfClaims(a)
    ensures Beside(y, Act(y, a), p)
  {
    hide Miss;
  }

  lemma {:induction false} HoldersBeside(y: Sys, a: Action, p: nat)
    requires p < |y.procs| && !OfClaims(a) && !OfWalks(a) && !a.Store? && !a.WriteThrough?
    ensures Beside(y, Act(y, a), p)
  {
  }

  lemma {:induction false} WalkCleans(y: Sys, a: Action, p: nat)
    requires Inv(y) && p < |y.procs| && OfWalks(a) && Clean(y, Behind(y.procs[p], Sync, |y.bufs|))
    ensures var y' := Act(y, a); |y'.bufs| == |y.bufs| && |y'.procs| == |y.procs|
    ensures var y' := Act(y, a); Clean(y', Behind(y'.procs[p], Sync, |y.bufs|))
  {
    hide Inv, Unique, Sane;
    Facts(y, p);
  }

  /** Without a store no buffer becomes modified, and bsync leaves none modified behind. */
  lemma {:induction false} ActCleans(y: Sys, a: Action, p: nat)
    requires Inv(y) && p < |y.procs| && !a.Store? && !a.WriteThrough? && Clean(y, Behind(y.procs[p], Sync, |y.bufs|))
    ensures var y' := Act(y, a); |y'.bufs| == |y.bufs| && |y'.procs| == |y.procs|
    ensures var y' := Act(y, a); Clean(y', Behind(y'.procs[p], Sync, |y.bufs|))
  {
    hide Act, Inv;
    if OfWalks(a) {
      WalkCleans(y, a, p);
    } else if OfClaims(a) {
      ClaimsBeside(y, a, p);
    } else {
      HoldersBeside(y, a, p);
    }
  }

  /** The data of a write that is not of a modified buffer is on the disk already. */
  ghost predicate Settled(y: Sys) {
    forall i {:trigger y.bufs[i]} :: 0 <= i < |y.bufs| && !y.bufs[i].mod && y.bufs[i].io.Write? ==>
      y.bufs[i].data == OnDisk(y.disk, y.bufs[i].key)
  }

  lemma {:induction false} ClaimsSettle(y: Sys, a: Action)
    requires Inv(y) && Settled(y) && (OfClaims(a) || OfWalks(a))
    ensures Settled(Act(y, a))
  {
    hide Miss, Unique, Inv;
    assert forall i {:trigger y.bufs[i]} :: 0 <= i < |y.bufs| ==> Sane(y.bufs[i], y.disk) by {
      AllSane(y);
    }
  }

  lemma {:induction false} AllSane(y: Sys)
    requires Inv(y)
    ensures forall i {:trigger y.bufs[i]} :: 0 <= i < |y.bufs| ==> Sane(y.bufs[i], y.disk)
  {
  }

  lemma {:induction false} HoldersSettle(y: Sys, a: Action)
    requires Inv(y) && Settled(y) && !OfClaims(a) && !OfWalks(a) && !a.Store? && !a.WriteThrough?
    ensures Settled(Act(y, a))
  {
  }

  lemma {:induction false} ActSettles(y: Sys, a: Action)
    requires Inv(y) && Settled(y) && !a.Store? && !a.WriteThrough?
    ensures Settled(Act(y, a))
  {
    hide Act, Inv, Settled;
    if OfClaims(a) || OfWalks(a) { ClaimsSettle(y, a); } else { HoldersSettle(y, a); }
  }

  lemma {:induction false} CalmRun(y0: Sys, acts: seq<Action>, p: nat, k: Key)
    requires Inv(y0) && Calm(acts) && p < |y0.procs| && y0.procs[p] == Sweep(0, Sync) && k.dev != NODEV
    ensures var y := Run(y0, acts);
      && Inv(y) && |y.procs| == |y0.procs| && |y.bufs| == |y0.bufs| && Visible(y, k) == Visible(y0, k)
      && Clean(y, Behind(y.procs[p], Sync, |y.bufs|)) && (Settled(y0) ==> Settled(y))
    decreases |acts|
  {
    hide Act, Inv, Visible, Settled;
    if acts != [] {
      var before, a := acts[..|acts| - 1], acts[|acts| - 1];
      CalmRun(y0, before, p, k);
      var y := Run(y0, before);
      ActKeeps(y, a);
      ActCleans(y, a, p);
      if Settled(y0) { ActSettles(y, a); }
    }
  }

  /** superwrite is under way with other data than the disk has. */
  ghost predicate Passing(y: Sys, k: Key) {
    exists i {:trigger y.bufs[i]} :: 0 <= i < |y.bufs| && y.bufs[i].key == k && !y.bufs[i].mod && y.bufs[i].io.Write?
      && y.bufs[i].data != OnDisk(y.disk, k)
  }

  /** When bsync returns, whatever others have done but for storing something, no buffer is
      modified, and the disk has what was to be seen when it was called of every block; but
      for a block that superwrite is writing for somebody else, which bsync takes no notice
      of. */
  lemma {:induction false} SyncPass(y0: Sys, acts: seq<Action>, p: nat, k: Key)
    requires Inv(y0) && Calm(acts) && p < |y0.procs| && y0.procs[p] == Sweep(0, Sync) && k.dev != NODEV
    requires p < |Run(y0, acts).procs| && Run(y0, acts).procs[p].Idle?
    ensures var y := Run(y0, acts); Clean(y, |y.bufs|)
    ensures var y := Run(y0, acts); OnDisk(y.disk, k) == Visible(y0, k) <==> !Passing(y, k)
    ensures Settled(y0) ==> OnDisk(Run(y0, acts).disk, k) == Visible(y0, k)
  {
    hide Run, Inv, Visible;
    CalmRun(y0, acts, p, k);
    Agrees(Run(y0, acts), k);
  }

  lemma {:induction false} Agrees(y: Sys, k: Key)
    requires Inv(y) && Clean(y, |y.bufs|) && k.dev != NODEV
    ensures OnDisk(y.disk, k) == Visible(y, k) <==> !Passing(y, k)
    ensures Settled(y) ==> !Passing(y, k)
  {
    if i :| 0 <= i < |y.bufs| && Holds(y.bufs[i], k) {
      VisibleIs(y, i, k);
      SaneAt(y, i);
    }
    if Passing(y, k) {
      var j :| 0 <= j < |y.bufs| && y.bufs[j].key == k && !y.bufs[j].mod && y.bufs[j].io.Write? &&
        y.bufs[j].data != OnDisk(y.disk, k);
      assert Holds(y.bufs[j], k);
      VisibleIs(y, j, k);
    }
  }

  /** bsync comes back while the device is still busy with a superwrite of somebody else, and
      the disk has not got what is to be seen. */
  lemma {:induction false} SyncMissesThrough() returns (before: seq<Action>, acts: seq<Action>)
    ensures Calm(acts) && |acts| > 0 && acts[0] == Begin(1, Sync)
    ensures var k := Key(0, 1); var y, z := Run(Boot(1, 2, map[]), before), Run(Boot(1, 2, map[]), before + acts);
      && |y.procs| == |z.procs| == 2 && y.procs[1].Idle? && z.procs[1].Idle?
      && Visible(y, k) == Visible(z, k) == 7 && OnDisk(z.disk, k) == 0
  {
    hide Run, Visible, Act;
    var y0, k := Boot(1, 2, map[]), Key(0, 1);
    var b := Buf(k, true, false, false, Write, 0, 7, 0);
    before := [Ask(0, k), Evict(0, 0), WriteThrough(0, 7)];
    acts := [Begin(1, Sync), Pass(1), Pass(1)];
    assert before == [] + [before[0]] + [before[1]] + [before[2]];
    assert before + acts == before + [acts[0]] + [acts[1]] + [acts[2]];
    RunOn(y0, [], before[0]);
    RunOn(y0, [] + [before[0]], before[1]);
    RunOn(y0, [] + [before[0]] + [before[1]], before[2]);
    RunOn(y0, before, acts[0]);
    RunOn(y0, before + [acts[0]], acts[1]);
    RunOn(y0, before + [acts[0]] + [acts[1]], acts[2]);
    WritingThrough(k, 7);
    Passes(Run(y0, before), 1, b);
    VisibleIs(Run(y0, before), 0, k);
  }

  /** A superwrite by process 0, up to where it waits for the device. */
  lemma {:induction false} WritingThrough(k: Key, data: int)
    requires k.dev != NODEV
    ensures var y0 := Boot(1, 2, map[]);
      Act(Act(Act(y0, Ask(0, k)), Evict(0, 0)), WriteThrough(0, data)) ==
        Sys([Buf(k, true, false, false, Write, 0, data, 0)], [Writing(0), Idle], map[], 0)
  {
    var y0 := Boot(1, 2, map[]);
    var y1 := Act(y0, Ask(0, k));
    assert y1.bufs[0] == Buf(Key(NODEV, 0), false, false, false, Nothing, NOBODY, 0, 0);
    assert y1.procs == [Want(k), Idle];
    var y2 := Act(y1, Evict(0, 0));
    assert y2.bufs == [Buf(k, true, false, false, Nothing, 0, 0, 0)] && y2.procs == [Holding(0, false), Idle];
  }

  /** bsync with a single buffer that is not modified. */
  lemma {:induction false} Passes(y: Sys, p: nat, b: Buf)
    requires y.bufs == [b] && !b.mod && p < |y.procs| && y.procs[p].Idle?
    ensures Act(Act(Act(y, Begin(p, Sync)), Pass(p)), Pass(p)) == y
  {
  }

  lemma {:induction false} RunOn(y0: Sys, acts: seq<Action>, a: Action)
    ensures Run(y0, acts + [a]) == Act(Run(y0, acts), a) && Run(y0, []) == y0
  {
    hide Act;
    assert (acts + [a])[..|acts|] == acts;
  }

  // ----- bflush over all buffers -----------------------------------------------------------------

  ghost predicate Gone(y: Sys, dev: int, n: nat) {
    forall j {:trigger y.bufs[j]} :: 0 <= j < n && j < |y.bufs| ==> y.bufs[j].key.dev != dev
  }

  /** Nobody is looking for a block of the device. */
  ghost predicate NotWanted(y: Sys, dev: int) {
    forall q {:trigger y.procs[q]} :: 0 <= q < |y.procs| && (y.procs[q].Want? || y.procs[q].Wait?) ==>
      y.procs[q].key.dev != dev
  }

  lemma {:induction false} ActSeeks(y: Sys, a: Action, dev: int)
    requires NotWanted(y, dev) && !(a.Ask? && a.key.dev == dev)
    ensures NotWanted(Act(y, a), dev)
  {
    hide Miss;
  }

  /** What a step may do to the keys: only who wants a block gives a buffer its key. */
  ghost predicate KeysStay(y: Sys, y': Sys, dev: int) {
    && |y'.bufs| == |y.bufs| && |y'.procs| == |y.procs|
    && forall j {:trigger y'.bufs[j]} :: 0 <= j < |y.bufs| && y.bufs[j].key.dev != dev ==> y'.bufs[j].key.dev != dev
  }

  lemma {:induction false} ClaimsKeys(y: Sys, a: Action, dev: int)
    requires NotWanted(y, dev) && OfClaims(a)
    ensures KeysStay(y, Act(y, a), dev)
  {
    hide Miss;
  }

  lemma {:induction false} OtherKeys(y: Sys, a: Action, dev: int)
    requires dev != NODEV && !OfClaims(a)
    ensures KeysStay(y, Act(y, a), dev)
  {
  }

  /** The walk goes on from a buffer only when it is not one of the device's. */
  lemma {:induction false} ActWalks(y: Sys, a: Action, p: nat, dev: int)
    requires Inv(y) && p < |y.procs| && p < |Act(y, a).procs| && dev != NODEV && OfWalks(a)
    ensures var n, i := Behind(y.procs[p], Flush(dev), |y.bufs|), Behind(Act(y, a).procs[p], Flush(dev), |y.bufs|);
      i <= n || n >= |y.bufs| || (i == n + 1 && n < |Act(y, a).bufs| && Act(y, a).bufs[n].key.dev != dev)
  {
    hide Inv, Unique, Sane;
    Facts(y, p);
  }

  lemma {:induction false} StoresBeside(y: Sys, a: Action, p: nat)
    requires p < |y.procs| && (a.Store? || a.WriteThrough?) && p < |Act(y, a).procs|
    ensures if Walks(y.procs[p]) then Act(y, a).procs[p] == y.procs[p] else !Walks(Act(y, a).procs[p])
  {
  }

  lemma {:induction false} ActGives(y: Sys, a: Action, p: nat, dev: int)
    requires Inv(y) && p < |y.procs| && dev != NODEV && NotWanted(y, dev) && !(a.Ask? && a.key.dev == dev)
    requires Gone(y, dev, Behind(y.procs[p], Flush(dev), |y.bufs|))
    ensures var y' := Act(y, a); |y'.bufs| == |y.bufs| && |y'.procs| == |y.procs| && NotWanted(y', dev)
    ensures var y' := Act(y, a); Gone(y', dev, Behind(y'.procs[p], Flush(dev), |y.bufs|))
  {
    hide Act, Inv, NotWanted;
    ActSeeks(y, a, dev);
    if OfClaims(a) { ClaimsKeys(y, a, dev); } else { OtherKeys(y, a, dev); }
    if OfWalks(a) {
      ActWalks(y, a, p, dev);
    } else if OfClaims(a) {
      ClaimsBeside(y, a, p);
    } else if a.Store? || a.WriteThrough? {
      StoresBeside(y, a, p);
    } else {
      HoldersBeside(y, a, p);
    }
    var y' := Act(y, a);
    var n, i := Behind(y.procs[p], Flush(dev), |y.bufs|), Behind(y'.procs[p], Flush(dev), |y.bufs|);
    forall j | 0 <= j < i && j < |y'.bufs| ensures y'.bufs[j].key.dev != dev {
      if j < n { assert y.bufs[j].key.dev != dev; }
    }
  }

  lemma {:induction false} FlushRun(y0: Sys, acts: seq<Action>, p: nat, dev: int)
    requires Inv(y0) && p < |y0.procs| && y0.procs[p] == Sweep(0, Flush(dev)) && dev != NODEV && NotWanted(y0, dev)
    requires forall j :: 0 <= j < |acts| ==> !(acts[j].Ask? && acts[j].key.dev == dev)
    ensures var y := Run(y0, acts);
      && Inv(y) && |y.procs| == |y0.procs| && |y.bufs| == |y0.bufs| && NotWanted(y, dev)
      && Gone(y, dev, Behind(y.procs[p], Flush(dev), |y.bufs|))
    decreases |acts|
  {
    hide Act, Inv, NotWanted;
    if acts != [] {
      var before, a := acts[..|acts| - 1], acts[|acts| - 1];
      FlushRun(y0, before, p, dev);
      ActKeeps(Run(y0, before), a);
      ActGives(Run(y0, before), a, p, dev);
    }
  }

  /** When bflush returns, whatever others have done but for looking for a block of the device,
      no buffer is one of its blocks, and the disk has of each the last value that was ever
      stored. */
  lemma {:induction false} FlushPass(y0: Sys, acts: seq<Action>, p: nat, dev: int, k: Key)
    requires Inv(y0) && p < |y0.procs| && y0.procs[p] == Sweep(0, Flush(dev)) && dev != NODEV && NotWanted(y0, dev)
    requires forall j :: 0 <= j < |acts| ==> !(acts[j].Ask? && acts[j].key.dev == dev)
    requires p < |Run(y0, acts).procs| && Run(y0, acts).procs[p].Idle? && k.dev == dev
    ensures var y := Run(y0, acts); forall i {:trigger y.bufs[i]} :: 0 <= i < |y.bufs| ==> y.bufs[i].key.dev != dev
    ensures OnDisk(Run(y0, acts).disk, k) == Stored(y0, acts, k)
  {
    hide Run, Inv, Stored;
    FlushRun(y0, acts, p, dev);
    Refines(y0, acts, k);
  }
}
