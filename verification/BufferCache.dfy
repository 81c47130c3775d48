/** The buffer cache (bio.c): what its users see is a plain store of blocks.  A process gives
    up the processor at a gate and while the device works, and nowhere else; the device
    reports no errors. */
module BufferCache {
  import opened Words

  const NODEV: int := -1
  const NOBODY: int := -1
  const DEVICE: int := -2

  datatype Key = Key(dev: int, bno: int)

  /** What the device has been asked to do with a buffer. */
  datatype Io = Nothing | Read | Write

  /** A buffer: its block, BFNTP, BFMOD and BFASY, the request under way, who has the gate,
      its contents and its sequence number. */
  datatype Buf = Buf(key: Key, ntp: bool, mod: bool, asy: bool, io: Io, owner: int, data: int, seqn: word)

  /** The two walks through all buffers: bsync writes those that are modified, bflush writes
      and gives up those of a device. */
  datatype Job = Sync | Flush(dev: int)

  /** Where a process is; full says that the buffer it holds has been read or overwritten.
      Writing is bwrite by the holder, waiting for the device.  A walk is about to look at
      buffer i (Sweep), waits for its gate (Locking) or for the device (Syncing). */
  datatype Pc =
    | Idle
    | Want(key: Key)
    | Wait(i: nat, key: Key)
    | Holding(i: nat, full: bool)
    | Reading(i: nat)
    | Writing(i: nat)
    | Sweep(i: nat, job: Job)
    | Locking(i: nat, job: Job)
    | Syncing(i: nat, job: Job)

  datatype Sys = Sys(bufs: seq<Buf>, procs: seq<Pc>, disk: map<Key, int>, seqn: word)

  function OnDisk(disk: map<Key, int>, k: Key): int { if k in disk then disk[k] else 0 }

  // ----- the search of bclaim -------------------------------------------------------------

  function Age(b: Buf, bufseqn: word): word { Sub16(bufseqn, b.seqn) }

  /** bclaim's scan: the first buffer of the block, or the oldest whose gate is open, ages
      counted modulo 2^16, or neither. */
  method Scan(bufs: seq<Buf>, key: Key, bufseqn: word) returns (bp: int, bp1: int)
    ensures -1 <= bp < |bufs| && -1 <= bp1 < |bufs|
    ensures bp >= 0 ==> bufs[bp].key == key && forall i {:trigger bufs[i]} :: 0 <= i < bp ==> bufs[i].key != key
    ensures bp < 0 ==> forall i {:trigger bufs[i]} :: 0 <= i < |bufs| ==> bufs[i].key != key
    ensures bp < 0 && bp1 < 0 ==> forall i {:trigger bufs[i]} :: 0 <= i < |bufs| ==> bufs[i].owner != NOBODY
    ensures bp < 0 && bp1 >= 0 ==> bufs[bp1].owner == NOBODY
    ensures bp < 0 && bp1 >= 0 ==>
      forall i {:trigger bufs[i]} :: 0 <= i < |bufs| && bufs[i].owner == NOBODY ==>
        Age(bufs[i], bufseqn) <= Age(bufs[bp1], bufseqn)
  {
    bp1 := -1;
    var seqn: word := 0;
    bp := 0;
    while bp < |bufs|
      invariant 0 <= bp <= |bufs| && -1 <= bp1 < bp
      invariant forall i {:trigger bufs[i]} :: 0 <= i < bp ==> bufs[i].key != key
      invariant bp1 < 0 ==> seqn == 0 && forall i {:trigger bufs[i]} :: 0 <= i < bp ==> bufs[i].owner != NOBODY
      invariant bp1 >= 0 ==> bufs[bp1].owner == NOBODY && seqn == Age(bufs[bp1], bufseqn)
      invariant bp1 >= 0 ==>
        forall i {:trigger bufs[i]} :: 0 <= i < bp && bufs[i].owner == NOBODY ==> Age(bufs[i], bufseqn) <= seqn
    {
      if bufs[bp].key == key {
        return bp, bp1;
      }
      if bufs[bp].owner == NOBODY {
        if Sub16(bufseqn, bufs[bp].seqn) >= seqn {
          bp1 := bp;
          seqn := Sub16(bufseqn, bufs[bp].seqn);
        }
      }
      bp := bp + 1;
    }
    bp := -1;
  }

  // ----- steps ----------------------------------------------------------------------------

  datatype Action =
    | Ask(p: nat, key: Key)
    | Claim(p: nat, i: nat)
    | Evict(p: nat, i: nat)
    | Gate(p: nat)
    | StartRead(p: nat, sync: bool)
    | Arrived(p: nat)
    | Store(p: nat, data: int)
    | Clear(p: nat)
    | WriteOut(p: nat, sync: bool)
    | WriteThrough(p: nat, data: int)
    | Release(p: nat)
    | Begin(p: nat, job: Job)
    | Pass(p: nat)
    | Synced(p: nat)
    | Done(i: nat)

  function Put(y: Sys, i: nat, b: Buf): Sys
    requires i < |y.bufs|
  {
    y.(bufs := y.bufs[i := b])
  }

  function Go(y: Sys, p: nat, pc: Pc): Sys
    requires p < |y.procs|
  {
    y.(procs := y.procs[p := pc])
  }

  /** What bclaim found needs no reading. */
  predicate HasBlock(b: Buf) { !b.ntp && b.key.dev != NODEV }

  predicate Open(y: Sys, i: nat) { i < |y.bufs| && y.bufs[i].owner == NOBODY }

  ghost predicate Miss(y: Sys, key: Key) {
    forall i {:trigger y.bufs[i]} :: 0 <= i < |y.bufs| ==> y.bufs[i].key != key
  }

  /** The buffer of the block is in the cache: take its gate, or wait for it. */
  function DoClaim(y: Sys, p: nat, i: nat): Sys
    requires p < |y.procs|
  {
    var pc := y.procs[p];
    if !pc.Want? || i >= |y.bufs| || y.bufs[i].key != pc.key then y
    else if Open(y, i) then Go(Put(y, i, y.bufs[i].(owner := p)), p, Holding(i, HasBlock(y.bufs[i])))
    else Go(y, p, Wait(i, pc.key))
  }

  /** It is not, and buffer i, whose gate is open, is to have it: a modified one is written
      first, without waiting, and the search starts again. */
  ghost function DoEvict(y: Sys, p: nat, i: nat): Sys
    requires p < |y.procs|
  {
    var pc := y.procs[p];
    if !pc.Want? || !Open(y, i) || !Miss(y, pc.key) then y
    else if y.bufs[i].mod then Put(y, i, y.bufs[i].(owner := DEVICE, asy := true, ntp := true, io := Write))
    else Go(Put(y, i, y.bufs[i].(owner := p, key := pc.key, ntp := true, asy := false)), p, Holding(i, false))
  }

  /** The gate has opened; the buffer may have another block by now. */
  function DoGate(y: Sys, p: nat): Sys
    requires p < |y.procs|
  {
    var pc := y.procs[p];
    if !pc.Wait? || !Open(y, pc.i) then y
    else if y.bufs[pc.i].key != pc.key then Go(y, p, Want(pc.key))
    else Go(Put(y, pc.i, y.bufs[pc.i].(owner := p)), p, Holding(pc.i, HasBlock(y.bufs[pc.i])))
  }

  /** bread on a buffer without its block: wait for it, or leave it to the device. */
  function DoRead(y: Sys, p: nat, sync: bool): Sys
    requires p < |y.procs|
  {
    var pc := y.procs[p];
    if !pc.Holding? || pc.full || pc.i >= |y.bufs| || y.bufs[pc.i].key.dev == NODEV then y
    else if sync then Go(Put(y, pc.i, y.bufs[pc.i].(io := Read, asy := false)), p, Reading(pc.i))
    else Go(Put(y, pc.i, y.bufs[pc.i].(io := Read, asy := true, owner := DEVICE)), p, Idle)
  }

  /** The holder changes a full buffer, or fills a new one. */
  function DoStore(y: Sys, p: nat, data: int): Sys
    requires p < |y.procs|
  {
    var pc := y.procs[p];
    if !pc.Holding? || pc.i >= |y.bufs| || y.bufs[pc.i].key.dev == NODEV then y
    else Go(Put(y, pc.i, y.bufs[pc.i].(data := data, mod := true)), p, Holding(pc.i, true))
  }

  /** vread of a hole: a buffer of no device is filled with zeros. */
  function DoClear(y: Sys, p: nat): Sys
    requires p < |y.procs|
  {
    var pc := y.procs[p];
    if !pc.Holding? || pc.i >= |y.bufs| || y.bufs[pc.i].key.dev != NODEV then y
    else Go(Put(y, pc.i, y.bufs[pc.i].(data := 0)), p, Holding(pc.i, true))
  }

  /** bwrite by the holder of a full buffer: it waits, or leaves the buffer to the device. */
  function DoWrite(y: Sys, p: nat, sync: bool): Sys
    requires p < |y.procs|
  {
    var pc := y.procs[p];
    if !pc.Holding? || !pc.full || pc.i >= |y.bufs| || y.bufs[pc.i].key.dev == NODEV then y
    else if sync then Go(Put(y, pc.i, y.bufs[pc.i].(asy := false, ntp := true, io := Write)), p, Writing(pc.i))
    else Go(Put(y, pc.i, y.bufs[pc.i].(asy := true, ntp := true, io := Write, owner := DEVICE)), p, Idle)
  }

  /** superwrite: the buffer is overwritten, not marked as modified, and written. */
  function DoWriteThrough(y: Sys, p: nat, data: int): Sys
    requires p < |y.procs|
  {
    var pc := y.procs[p];
    if !pc.Holding? || pc.i >= |y.bufs| || y.bufs[pc.i].key.dev == NODEV then y
    else Go(Put(y, pc.i, y.bufs[pc.i].(data := data, asy := false, ntp := true, io := Write)), p, Writing(pc.i))
  }

  /** brelease. */
  function Released(y: Sys, b: Buf): Buf {
    b.(seqn := y.seqn, ntp := false, owner := NOBODY)
  }

  function DoRelease(y: Sys, p: nat): Sys
    requires p < |y.procs|
  {
    var pc := y.procs[p];
    if !pc.Holding? || !pc.full || pc.i >= |y.bufs| then y
    else Go(Put(y, pc.i, Released(y, y.bufs[pc.i])).(seqn := Add16(y.seqn, 1)), p, Idle)
  }

  /** Has the walk anything to do with the buffer? */
  predicate Due(b: Buf, job: Job) {
    match job case Sync => b.mod case Flush(dev) => b.key.dev == dev
  }

  /** The body of the loop of bsync or bflush, with the gate: what was seen without it is
      looked at again. */
  function DoWork(y: Sys, p: nat, i: nat, job: Job): Sys
    requires p < |y.procs| && i < |y.bufs|
  {
    var b := y.bufs[i];
    if !Due(b, job) then Go(y, p, Sweep(i + 1, job))
    else if b.mod then Go(Put(y, i, b.(owner := p, asy := false, ntp := true, io := Write)), p, Syncing(i, job))
    else Go(Put(y, i, GivenUp(b, job)), p, Sweep(i + 1, job))
  }

  /** bflush gives the buffer up; its block number stays. */
  function GivenUp(b: Buf, job: Job): Buf {
    if job.Flush? then b.(key := Key(NODEV, b.key.bno)) else b
  }

  /** A turn of the loop, up to where it may sleep. */
  function DoPass(y: Sys, p: nat): Sys
    requires p < |y.procs|
  {
    var pc := y.procs[p];
    if pc.Sweep? then
      if pc.i >= |y.bufs| then Go(y, p, Idle)
      else if !Due(y.bufs[pc.i], pc.job) then Go(y, p, Sweep(pc.i + 1, pc.job))
      else if !Open(y, pc.i) then Go(y, p, Locking(pc.i, pc.job))
      else DoWork(y, p, pc.i, pc.job)
    else if pc.Locking? && Open(y, pc.i) then DoWork(y, p, pc.i, pc.job)
    else y
  }

  function DoSynced(y: Sys, p: nat): Sys
    requires p < |y.procs|
  {
    var pc := y.procs[p];
    if !pc.Syncing? || pc.i >= |y.bufs| || !y.bufs[pc.i].io.Nothing? then y
    else Go(Put(y, pc.i, GivenUp(y.bufs[pc.i].(owner := NOBODY), pc.job)), p, Sweep(pc.i + 1, pc.job))
  }

  /** The device has done what it was asked, and calls bdone. */
  function DoDone(y: Sys, i: nat): Sys {
    if i >= |y.bufs| || y.bufs[i].io.Nothing? then y
    else
      var b := y.bufs[i];
      var disk := if b.io.Write? then y.disk[b.key := b.data] else y.disk;
      var c := if b.io.Write? then b.(mod := false) else b.(data := OnDisk(y.disk, b.key));
      var d := c.(io := Nothing, asy := false);
      if b.asy then y.(bufs := y.bufs[i := Released(y, d)], disk := disk, seqn := Add16(y.seqn, 1))
      else y.(bufs := y.bufs[i := d.(ntp := false)], disk := disk)
  }

  function DoAsk(y: Sys, p: nat, key: Key): Sys
    requires p < |y.procs|
  {
    if y.procs[p].Idle? then Go(y, p, Want(key)) else y
  }

  /** bread or bwrite wakes up: the device is done. */
  function DoArrived(y: Sys, p: nat): Sys
    requires p < |y.procs|
  {
    var pc := y.procs[p];
    if (pc.Reading? || pc.Writing?) && pc.i < |y.bufs| && !y.bufs[pc.i].ntp then Go(y, p, Holding(pc.i, true)) else y
  }

  ghost function Act(y: Sys, a: Action): Sys {
    match a
    case Done(i) => DoDone(y, i)
    case Ask(p, key) => if p < |y.procs| then DoAsk(y, p, key) else y
    case Claim(p, i) => if p < |y.procs| then DoClaim(y, p, i) else y
    case Evict(p, i) => if p < |y.procs| then DoEvict(y, p, i) else y
    case Gate(p) => if p < |y.procs| then DoGate(y, p) else y
    case StartRead(p, sync) => if p < |y.procs| then DoRead(y, p, sync) else y
    case Arrived(p) => if p < |y.procs| then DoArrived(y, p) else y
    case Store(p, data) => if p < |y.procs| then DoStore(y, p, data) else y
    case Clear(p) => if p < |y.procs| then DoClear(y, p) else y
    case WriteOut(p, sync) => if p < |y.procs| then DoWrite(y, p, sync) else y
    case WriteThrough(p, data) => if p < |y.procs| then DoWriteThrough(y, p, data) else y
    case Release(p) => if p < |y.procs| then DoRelease(y, p) else y
    case Begin(p, job) => if p < |y.procs| && y.procs[p].Idle? then Go(y, p, Sweep(0, job)) else y
    case Pass(p) => if p < |y.procs| then DoPass(y, p) else y
    case Synced(p) => if p < |y.procs| then DoSynced(y, p) else y
  }

  /** bclaim between two points at which it may sleep: its search, and then a step that the
      search allows, or none when every gate is taken and it waits for a release. */
  method ClaimTurn(y: Sys, p: nat) returns (y': Sys, ghost acts: seq<Action>)
    requires p < |y.procs| && y.procs[p].Want?
    ensures acts != [] ==>
      (acts[0].Claim? && acts == [Claim(p, acts[0].i)]) || (acts[0].Evict? && acts == [Evict(p, acts[0].i)])
    ensures y' == if acts == [] then y else Act(y, acts[0])
    ensures acts == [] ==> forall i {:trigger y.bufs[i]} :: 0 <= i < |y.bufs| ==> y.bufs[i].owner != NOBODY
    ensures acts != [] && acts[0].Evict? ==> Open(y, acts[0].i) && Miss(y, y.procs[p].key)
    ensures acts != [] && acts[0].Evict? ==>
      forall i {:trigger y.bufs[i]} :: 0 <= i < |y.bufs| && y.bufs[i].owner == NOBODY ==>
      Age(y.bufs[i], y.seqn) <= Age(y.bufs[acts[0].i], y.seqn)
  {
    var key := y.procs[p].key;
    var bp, bp1 := Scan(y.bufs, key, y.seqn);
    if bp >= 0 {
      acts := [Claim(p, bp)];
      y' := DoClaim(y, p, bp);
    } else if bp1 < 0 {
      acts := [];
      y' := y;
    } else {
      acts := [Evict(p, bp1)];
      y' := if y.bufs[bp1].mod then Put(y, bp1, y.bufs[bp1].(owner := DEVICE, asy := true, ntp := true, io := Write))
        else Go(Put(y, bp1, y.bufs[bp1].(owner := p, key := key, ntp := true, asy := false)), p, Holding(bp1, false));
    }
  }

  // ----- what is visible ----------------------------------------------------------------------

  /** The buffer holds the block, not just the place for it. */
  predicate Holds(b: Buf, k: Key) { b.key == k && (b.mod || !b.ntp || b.io.Write?) }

  ghost predicate Cached(bufs: seq<Buf>, k: Key) {
    exists i {:trigger bufs[i]} :: 0 <= i < |bufs| && Holds(bufs[i], k)
  }

  /** The store that the users of the cache see. */
  ghost function Visible(y: Sys, k: Key): int {
    if Cached(y.bufs, k) then
      var i :| 0 <= i < |y.bufs| && Holds(y.bufs[i], k);
      y.bufs[i].data
    else OnDisk(y.disk, k)
  }

  /** No block has two buffers. */
  ghost predicate Unique(bufs: seq<Buf>) {
    forall i, j {:trigger bufs[i], bufs[j]} :: 0 <= i < j < |bufs| && bufs[i].key.dev != NODEV ==>
      bufs[i].key != bufs[j].key
  }

  predicate HasGate(pc: Pc, i: nat) { (pc.Holding? || pc.Reading? || pc.Writing? || pc.Syncing?) && pc.i == i }

  /** One buffer, by itself. */
  ghost predicate Sane(b: Buf, disk: map<Key, int>) {
    && (b.mod ==> b.key.dev != NODEV)
    && (b.key.dev != NODEV && !b.mod && !b.ntp ==> b.data == OnDisk(disk, b.key))
    && (b.owner == NOBODY ==> !b.ntp || b.key.dev == NODEV)
    && (b.owner == NOBODY ==> b.io.Nothing?)
    && (b.owner == DEVICE ==> b.asy && !b.io.Nothing? && b.ntp && b.key.dev != NODEV)
    && (b.owner >= 0 && !b.io.Nothing? ==> !b.asy && b.ntp && b.key.dev != NODEV)
    && (b.io.Read? ==> !b.mod) && (!b.io.Nothing? ==> b.ntp)
    && b.owner >= DEVICE
  }

  /** One process, by itself. */
  ghost predicate Fits(bufs: seq<Buf>, pc: Pc, p: nat) {
    && (pc.Holding? || pc.Reading? || pc.Writing? || pc.Syncing? ==> pc.i < |bufs| && bufs[pc.i].owner == p)
    && (pc.Wait? || pc.Locking? ==> pc.i < |bufs|)
    && (pc.Reading? || pc.Writing? || pc.Syncing? ==> bufs[pc.i].key.dev != NODEV)
    && (pc.Holding? ==> bufs[pc.i].io.Nothing?)
    && (pc.Holding? && bufs[pc.i].key.dev != NODEV ==> (pc.full <==> bufs[pc.i].mod || !bufs[pc.i].ntp))
    && (pc.Holding? && bufs[pc.i].key.dev == NODEV && pc.full ==> bufs[pc.i].data == 0)
    && (pc.Writing? ==> !bufs[pc.i].io.Read? && (bufs[pc.i].io.Write? <==> bufs[pc.i].ntp))
    && (pc.Reading? ==> !bufs[pc.i].mod && (bufs[pc.i].io.Read? <==> bufs[pc.i].ntp) && !bufs[pc.i].io.Write?)
    && (pc.Syncing? ==>
          !bufs[pc.i].io.Read? && (bufs[pc.i].io.Write? <==> bufs[pc.i].ntp) && (bufs[pc.i].mod <==> bufs[pc.i].ntp))
  }

  ghost predicate Inv(y: Sys) {
    && Unique(y.bufs)
    && (forall i {:trigger y.bufs[i]} :: 0 <= i < |y.bufs| ==> Sane(y.bufs[i], y.disk))
    && (forall p {:trigger y.procs[p]} :: 0 <= p < |y.procs| ==> Fits(y.bufs, y.procs[p], p))
    && (forall i {:trigger y.bufs[i]} :: 0 <= i < |y.bufs| ==> Held(y, i))
  }

  /** A gate that a process has taken is one that it knows of, and will open. */
  ghost predicate Held(y: Sys, i: nat)
    requires i < |y.bufs|
  {
    var p := y.bufs[i].owner;
    p >= 0 ==> p < |y.procs| && HasGate(y.procs[p], i)
  }

  lemma {:induction false} VisibleIs(y: Sys, i: nat, k: Key)
    requires Unique(y.bufs) && i < |y.bufs| && Holds(y.bufs[i], k) && k.dev != NODEV
    ensures Visible(y, k) == y.bufs[i].data
  {
  }

  /** One buffer and the disk have changed; whatever was to be seen is still to be seen. */
  lemma {:induction false} SameView(y: Sys, y': Sys, i: nat, k: Key)
    requires Unique(y.bufs) && Unique(y'.bufs) && |y.bufs| == |y'.bufs| && i < |y.bufs| && k.dev != NODEV
    requires forall j {:trigger y'.bufs[j]} :: 0 <= j < |y.bufs| && j != i ==> y'.bufs[j] == y.bufs[j]
    requires (if Holds(y'.bufs[i], k) then y'.bufs[i].data else OnDisk(y'.disk, k)) ==
      (if Holds(y.bufs[i], k) then y.bufs[i].data else OnDisk(y.disk, k))
    ensures Visible(y', k) == Visible(y, k)
  {
    if Holds(y'.bufs[i], k) { VisibleIs(y', i, k); }
    if Holds(y.bufs[i], k) { VisibleIs(y, i, k); }
    if j :| 0 <= j < |y.bufs| && j != i && Holds(y.bufs[j], k) {
      assert Holds(y'.bufs[j], k);
      VisibleIs(y, j, k);
      VisibleIs(y', j, k);
    }
  }

  /** What a step may do to buffer i, whose gate nobody else has. */
  ghost predicate Step(y: Sys, y': Sys, i: nat, p: nat) {
    && |y'.bufs| == |y.bufs| && i < |y.bufs| && |y'.procs| == |y.procs|
    && (forall j {:trigger y'.bufs[j]} :: 0 <= j < |y.bufs| && j != i ==> y'.bufs[j] == y.bufs[j])
    && (forall q {:trigger y'.procs[q]} :: 0 <= q < |y.procs| && q != p ==> y'.procs[q] == y.procs[q])
    && (forall k {:trigger OnDisk(y'.disk, k)} :: k != y.bufs[i].key ==> OnDisk(y'.disk, k) == OnDisk(y.disk, k))
    && (forall q {:trigger y.procs[q]} :: 0 <= q < |y.procs| && q != p ==> !HasGate(y.procs[q], i))
    && (y'.bufs[i].key == y.bufs[i].key || y'.bufs[i].key.dev == NODEV || Miss(y, y'.bufs[i].key))
    && (y.bufs[i].key.dev == NODEV ==> y'.disk == y.disk)
  }

  lemma {:induction false} StepKeeps(y: Sys, y': Sys, i: nat, p: nat)
    requires Inv(y) && Step(y, y', i, p) && Sane(y'.bufs[i], y'.disk)
    requires (p < |y.procs| ==> Fits(y'.bufs, y'.procs[p], p)) && Held(y', i)
    requires p < |y.procs| ==> !HasGate(y.procs[p], i) ==> forall j :: !HasGate(y.procs[p], j)
    ensures Inv(y')
  {
    forall j | 0 <= j < |y.bufs| && j != i ensures Held(y', j) {
      assert Held(y, j);
    }
    forall j | 0 <= j < |y.bufs| && j != i ensures Sane(y'.bufs[j], y'.disk) {
      assert Sane(y.bufs[j], y.disk);
      if y.bufs[j].key == y.bufs[i].key && y.bufs[j].key.dev != NODEV { assert false; }
    }
    forall q | 0 <= q < |y.procs| ensures Fits(y'.bufs, y'.procs[q], q) {
      if q != p { assert Fits(y.bufs, y.procs[q], q); }
    }
  }

  /** A gate has one owner. */
  lemma {:induction false} OneGate(y: Sys, i: nat, p: int)
    requires Inv(y) && i < |y.bufs| && (y.bufs[i].owner == NOBODY || y.bufs[i].owner == DEVICE || y.bufs[i].owner == p)
    ensures forall q {:trigger y.procs[q]} :: 0 <= q < |y.procs| && q != p ==> !HasGate(y.procs[q], i)
  {
    hide Unique;
    forall q | 0 <= q < |y.procs| && q != p ensures !HasGate(y.procs[q], i) {
      assert Fits(y.bufs, y.procs[q], q);
    }
  }

  ghost predicate SameStore(y: Sys, y': Sys) {
    forall k: Key {:trigger Visible(y', k)} :: k.dev != NODEV ==> Visible(y', k) == Visible(y, k)
  }

  lemma {:induction false} StepView(y: Sys, y': Sys, i: nat, p: nat)
    requires Inv(y) && Inv(y') && Step(y, y', i, p)
    requires forall k: Key :: k.dev != NODEV ==>
      (if Holds(y'.bufs[i], k) then y'.bufs[i].data else OnDisk(y'.disk, k)) ==
      (if Holds(y.bufs[i], k) then y.bufs[i].data else OnDisk(y.disk, k))
    ensures SameStore(y, y')
  {
    hide Sane, Fits, Unique, Visible;
    forall k: Key | k.dev != NODEV ensures Visible(y', k) == Visible(y, k) {
      SameView(y, y', i, k);
    }
  }

  /** Only a process moves. */
  lemma {:induction false} GoKeeps(y: Sys, p: nat, pc: Pc)
    requires Inv(y) && p < |y.procs| && Fits(y.bufs, pc, p)
    requires forall i: nat :: HasGate(y.procs[p], i) ==> HasGate(pc, i)
    ensures Inv(Go(y, p, pc)) && SameStore(y, Go(y, p, pc))
  {
    hide Sane, Unique;
    var y' := Go(y, p, pc);
    forall q | 0 <= q < |y.procs| ensures Fits(y.bufs, y'.procs[q], q) {
      if q != p { assert Fits(y.bufs, y.procs[q], q); }
    }
    UniqueOf(y);
    forall i | 0 <= i < |y.bufs| ensures Held(y', i) {
      assert Held(y, i);
    }
    forall k: Key | k.dev != NODEV ensures Visible(y', k) == Visible(y, k) {
      if i :| 0 <= i < |y.bufs| && Holds(y.bufs[i], k) {
        VisibleIs(y, i, k);
        VisibleIs(y', i, k);
      }
    }
  }

  lemma {:induction false} Facts(y: Sys, p: nat)
    requires Inv(y) && p < |y.procs|
    ensures Fits(y.bufs, y.procs[p], p)
    ensures forall i {:trigger y.bufs[i]} :: 0 <= i < |y.bufs| ==> Sane(y.bufs[i], y.disk)
  {
  }

  lemma {:induction false} ClaimKeeps(y: Sys, p: nat, i: nat)
    requires Inv(y) && p < |y.procs|
    ensures Inv(DoClaim(y, p, i)) && SameStore(y, DoClaim(y, p, i))
  {
    hide Unique, Inv, Visible;
    Facts(y, p);
    var pc, y' := y.procs[p], DoClaim(y, p, i);
    if pc.Want? && i < |y.bufs| && y.bufs[i].key == pc.key {
      if Open(y, i) {
        OneGate(y, i, p);
        StepKeeps(y, y', i, p);
        StepView(y, y', i, p);
      } else {
        GoKeeps(y, p, Wait(i, pc.key));
      }
    }
  }

  lemma {:induction false} EvictKeeps(y: Sys, p: nat, i: nat)
    requires Inv(y) && p < |y.procs|
    ensures Inv(DoEvict(y, p, i)) && SameStore(y, DoEvict(y, p, i))
  {
    hide Unique, Inv, Visible, Miss;
    Facts(y, p);
    var pc, y' := y.procs[p], DoEvict(y, p, i);
    if pc.Want? && Open(y, i) && Miss(y, pc.key) {
      OneGate(y, i, p);
      StepKeeps(y, y', i, p);
      StepView(y, y', i, p);
    }
  }

  lemma {:induction false} GateKeeps(y: Sys, p: nat)
    requires Inv(y) && p < |y.procs|
    ensures Inv(DoGate(y, p)) && SameStore(y, DoGate(y, p))
  {
    hide Unique, Inv, Visible;
    Facts(y, p);
    var pc, y' := y.procs[p], DoGate(y, p);
    if pc.Wait? && Open(y, pc.i) {
      if y.bufs[pc.i].key != pc.key {
        GoKeeps(y, p, Want(pc.key));
      } else {
        OneGate(y, pc.i, p);
        StepKeeps(y, y', pc.i, p);
        StepView(y, y', pc.i, p);
      }
    }
  }

  lemma {:induction false} ReadKeeps(y: Sys, p: nat, sync: bool)
    requires Inv(y) && p < |y.procs|
    ensures Inv(DoRead(y, p, sync)) && SameStore(y, DoRead(y, p, sync))
  {
    hide Unique, Inv, Visible;
    Facts(y, p);
    var pc, y' := y.procs[p], DoRead(y, p, sync);
    if pc.Holding? && !pc.full && y.bufs[pc.i].key.dev != NODEV {
      OneGate(y, pc.i, p);
      StepKeeps(y, y', pc.i, p);
      StepView(y, y', pc.i, p);
    }
  }

  lemma {:induction false} ReleaseKeeps(y: Sys, p: nat)
    requires Inv(y) && p < |y.procs|
    ensures Inv(DoRelease(y, p)) && SameStore(y, DoRelease(y, p))
  {
    hide Unique, Inv, Visible;
    Facts(y, p);
    var pc, y' := y.procs[p], DoRelease(y, p);
    if pc.Holding? && pc.full {
      OneGate(y, pc.i, p);
      StepKeeps(y, y', pc.i, p);
      StepView(y, y', pc.i, p);
    }
  }

  lemma {:induction false} ClearKeeps(y: Sys, p: nat)
    requires Inv(y) && p < |y.procs|
    ensures Inv(DoClear(y, p)) && SameStore(y, DoClear(y, p))
  {
    hide Unique, Inv, Visible;
    Facts(y, p);
    var pc, y' := y.procs[p], DoClear(y, p);
    if pc.Holding? && y.bufs[pc.i].key.dev == NODEV {
      OneGate(y, pc.i, p);
      StepKeeps(y, y', pc.i, p);
      StepView(y, y', pc.i, p);
    }
  }

  lemma {:induction false} WriteKeeps(y: Sys, p: nat, sync: bool)
    requires Inv(y) && p < |y.procs|
    ensures Inv(DoWrite(y, p, sync)) && SameStore(y, DoWrite(y, p, sync))
  {
    hide Unique, Inv, Visible;
    Facts(y, p);
    var pc, y' := y.procs[p], DoWrite(y, p, sync);
    if pc.Holding? && pc.full && y.bufs[pc.i].key.dev != NODEV {
      OneGate(y, pc.i, p);
      StepKeeps(y, y', pc.i, p);
      StepView(y, y', pc.i, p);
    }
  }

  lemma {:induction false} WorkKeeps(y: Sys, p: nat, i: nat, job: Job)
    requires Inv(y) && p < |y.procs| && Open(y, i) && (y.procs[p].Sweep? || y.procs[p].Locking?)
    ensures Inv(DoWork(y, p, i, job)) && SameStore(y, DoWork(y, p, i, job))
  {
    hide Unique, Inv, Visible;
    Facts(y, p);
    var y' := DoWork(y, p, i, job);
    OneGate(y, i, p);
    StepKeeps(y, y', i, p);
    StepView(y, y', i, p);
  }

  lemma {:induction false} PassKeeps(y: Sys, p: nat)
    requires Inv(y) && p < |y.procs|
    ensures Inv(DoPass(y, p)) && SameStore(y, DoPass(y, p))
  {
    hide Unique, Inv, Visible, DoWork;
    var pc := y.procs[p];
    if pc.Sweep? {
      if pc.i >= |y.bufs| {
        GoKeeps(y, p, Idle);
      } else if !Due(y.bufs[pc.i], pc.job) {
        GoKeeps(y, p, Sweep(pc.i + 1, pc.job));
      } else if !Open(y, pc.i) {
        GoKeeps(y, p, Locking(pc.i, pc.job));
      } else {
        WorkKeeps(y, p, pc.i, pc.job);
      }
    } else if pc.Locking? && Open(y, pc.i) {
      WorkKeeps(y, p, pc.i, pc.job);
    }
  }

  lemma {:induction false} SyncedKeeps(y: Sys, p: nat)
    requires Inv(y) && p < |y.procs|
    ensures Inv(DoSynced(y, p)) && SameStore(y, DoSynced(y, p))
  {
    hide Unique, Inv, Visible;
    Facts(y, p);
    var pc, y' := y.procs[p], DoSynced(y, p);
    if pc.Syncing? && y.bufs[pc.i].io.Nothing? {
      OneGate(y, pc.i, p);
      StepKeeps(y, y', pc.i, p);
      StepView(y, y', pc.i, p);
    }
  }

  lemma {:induction false} DoneKeeps(y: Sys, i: nat)
    requires Inv(y)
    ensures Inv(DoDone(y, i)) && SameStore(y, DoDone(y, i))
  {
    hide Unique, Visible;
    var y' := DoDone(y, i);
    if i < |y.bufs| && !y.bufs[i].io.Nothing? {
      SaneAt(y, i);
      var p := y.bufs[i].owner;
      assert Held(y, i);
      OneGate(y, i, p);
      if p >= 0 {
        Facts(y, p);
        StepKeeps(y, y', i, p);
        StepView(y, y', i, p);
      } else {
        StepKeeps(y, y', i, |y.procs|);
        StepView(y, y', i, |y.procs|);
      }
    }
  }

  lemma {:induction false} SaneAt(y: Sys, i: nat)
    requires Inv(y) && i < |y.bufs|
    ensures Sane(y.bufs[i], y.disk)
  {
  }

  /** What a holder's write makes of the store: that block, and no other. */
  ghost predicate Stores(y: Sys, y': Sys, key: Key, data: int) {
    forall k: Key {:trigger Visible(y', k)} :: k.dev != NODEV ==>
      Visible(y', k) == if k == key then data else Visible(y, k)
  }

  /** The block that process p is about to give data, if its action does that. */
  predicate Writes(y: Sys, p: nat) {
    p < |y.procs| && y.procs[p].Holding? && y.procs[p].i < |y.bufs| && y.bufs[y.procs[p].i].key.dev != NODEV
  }

  lemma {:induction false} StepStores(y: Sys, y': Sys, i: nat, p: nat, data: int)
    requires Inv(y) && Inv(y') && Step(y, y', i, p) && y.bufs[i].key.dev != NODEV
    requires y'.bufs[i].key == y.bufs[i].key && Holds(y'.bufs[i], y.bufs[i].key) && y'.bufs[i].data == data
    requires y'.disk == y.disk
    ensures Stores(y, y', y.bufs[i].key, data)
  {
    hide Inv, Visible, Unique;
    UniqueOf(y);
    UniqueOf(y');
    forall k: Key | k.dev != NODEV ensures Visible(y', k) == if k == y.bufs[i].key then data else Visible(y, k) {
      if k == y.bufs[i].key { VisibleIs(y', i, k); } else { SameView(y, y', i, k); }
    }
  }

  lemma {:induction false} StoreKeeps(y: Sys, p: nat, data: int)
    requires Inv(y) && p < |y.procs|
    ensures Inv(DoStore(y, p, data)) && Inv(DoWriteThrough(y, p, data))
    ensures Writes(y, p) ==> Stores(y, DoStore(y, p, data), y.bufs[y.procs[p].i].key, data)
    ensures Writes(y, p) ==> Stores(y, DoWriteThrough(y, p, data), y.bufs[y.procs[p].i].key, data)
    ensures !Writes(y, p) ==> DoStore(y, p, data) == y == DoWriteThrough(y, p, data)
  {
    hide Unique, Inv, Visible, Stores;
    Facts(y, p);
    if Writes(y, p) {
      var i := y.procs[p].i;
      OneGate(y, i, p);
      StepKeeps(y, DoStore(y, p, data), i, p);
      StepStores(y, DoStore(y, p, data), i, p, data);
      StepKeeps(y, DoWriteThrough(y, p, data), i, p);
      StepStores(y, DoWriteThrough(y, p, data), i, p, data);
    }
  }

  lemma {:induction false} UniqueOf(y: Sys)
    requires Inv(y)
    ensures Unique(y.bufs)
  {
  }

  /** Every step keeps the invariant, and none but a store by a holder changes what is to be
      seen: not eviction, not the device, not bsync or bflush. */
  lemma {:induction false} ActKeeps(y: Sys, a: Action)
    requires Inv(y)
    ensures Inv(Act(y, a))
    ensures !a.Store? && !a.WriteThrough? ==> SameStore(y, Act(y, a))
  {
    hide Unique, Inv, Visible, DoClaim, DoEvict, DoGate, DoRead, DoRelease, DoPass, DoSynced, DoDone;
    hide DoStore, DoClear, DoWrite, DoWriteThrough;
    match a
    case Done(i) => DoneKeeps(y, i);
    case Ask(p, key) =>
      if p < |y.procs| && y.procs[p].Idle? { GoKeeps(y, p, Want(key)); }
    case Claim(p, i) => if p < |y.procs| { ClaimKeeps(y, p, i); }
    case Evict(p, i) => if p < |y.procs| { EvictKeeps(y, p, i); }
    case Gate(p) => if p < |y.procs| { GateKeeps(y, p); }
    case StartRead(p, sync) => if p < |y.procs| { ReadKeeps(y, p, sync); }
    case Arrived(p) =>
      if p < |y.procs| && (y.procs[p].Reading? || y.procs[p].Writing?) {
        Facts(y, p);
        if !y.bufs[y.procs[p].i].ntp { GoKeeps(y, p, Holding(y.procs[p].i, true)); }
      }
    case Store(p, data) => if p < |y.procs| { StoreKeeps(y, p, data); }
    case Clear(p) => if p < |y.procs| { ClearKeeps(y, p); }
    case WriteOut(p, sync) => if p < |y.procs| { WriteKeeps(y, p, sync); }
    case WriteThrough(p, data) => if p < |y.procs| { StoreKeeps(y, p, data); }
    case Release(p) => if p < |y.procs| { ReleaseKeeps(y, p); }
    case Begin(p, job) => if p < |y.procs| && y.procs[p].Idle? { GoKeeps(y, p, Sweep(0, job)); }
    case Pass(p) => if p < |y.procs| { PassKeeps(y, p); }
    case Synced(p) => if p < |y.procs| { SyncedKeeps(y, p); }
  }

  // ----- over whole runs -------------------------------------------------------------------------

  /** The cache as bufinit leaves it. */
  function Boot(bufs: nat, procs: nat, disk: map<Key, int>): Sys {
    Sys(seq(bufs, i => Buf(Key(NODEV, 0), false, false, false, Nothing, NOBODY, 0, 0)), seq(procs, i => Idle), disk, 0)
  }

  ghost function Run(y0: Sys, acts: seq<Action>): Sys {
    if acts == [] then y0 else Act(Run(y0, acts[..|acts| - 1]), acts[|acts| - 1])
  }

  lemma {:induction false} BootHolds(bufs: nat, procs: nat, disk: map<Key, int>)
    ensures Inv(Boot(bufs, procs, disk))
    ensures forall k: Key :: Visible(Boot(bufs, procs, disk), k) == OnDisk(disk, k) || k == Key(NODEV, 0)
  {
    var y := Boot(bufs, procs, disk);
    assert forall i :: 0 <= i < bufs ==> Held(y, i);
  }

  lemma {:induction false} RunKeeps(y0: Sys, acts: seq<Action>)
    requires Inv(y0)
    ensures Inv(Run(y0, acts))
    decreases |acts|
  {
    hide Inv, Act;
    if acts != [] {
      RunKeeps(y0, acts[..|acts| - 1]);
      ActKeeps(Run(y0, acts[..|acts| - 1]), acts[|acts| - 1]);
    }
  }

  /** The plain store: the last value a holder gave each block, and before that what the
      disk had. */
  ghost function Stored(y0: Sys, acts: seq<Action>, k: Key): int {
    if acts == [] then Visible(y0, k)
    else
      var before, a := acts[..|acts| - 1], acts[|acts| - 1];
      var y := Run(y0, before);
      if (a.Store? || a.WriteThrough?) && Writes(y, a.p) && y.bufs[y.procs[a.p].i].key == k
      then a.data
      else Stored(y0, before, k)
  }

  /** The cache refines the plain store, whatever processes and device do when. */
  lemma {:induction false} Refines(y0: Sys, acts: seq<Action>, k: Key)
    requires Inv(y0) && k.dev != NODEV
    ensures Visible(Run(y0, acts), k) == Stored(y0, acts, k)
    decreases |acts|
  {
    hide Inv, Act, Visible;
    if acts != [] {
      var before, a := acts[..|acts| - 1], acts[|acts| - 1];
      var y := Run(y0, before);
      RunKeeps(y0, before);
      Refines(y0, before, k);
      ActKeeps(y, a);
      if a.Store? || a.WriteThrough? {
        if a.p < |y.procs| { StoreKeeps(y, a.p, a.data); }
        StoreIs(y, a.p, a.data);
      } else {
        assert Visible(Act(y, a), k) == Visible(y, k);
      }
    }
  }

  lemma {:induction false} StoreIs(y: Sys, p: nat, data: int)
    ensures Act(y, Store(p, data)) == if p < |y.procs| then DoStore(y, p, data) else y
    ensures Act(y, WriteThrough(p, data)) == if p < |y.procs| then DoWriteThrough(y, p, data) else y
  {
  }

  /** And whoever holds a full buffer reads that store in it, or zeros if it is no block's. */
  lemma {:induction false} HolderReads(y0: Sys, acts: seq<Action>, p: nat)
    requires Inv(y0) && p < |Run(y0, acts).procs|
    ensures var y := Run(y0, acts); var pc := y.procs[p];
      pc.Holding? && pc.full ==> (pc.i < |y.bufs| &&
        y.bufs[pc.i].data == if y.bufs[pc.i].key.dev == NODEV then 0 else Stored(y0, acts, y.bufs[pc.i].key))
  {
    hide Act, Visible, Unique;
    RunKeeps(y0, acts);
    var y := Run(y0, acts);
    Facts(y, p);
    var pc := y.procs[p];
    if pc.Holding? && pc.full && y.bufs[pc.i].key.dev != NODEV {
      var k := y.bufs[pc.i].key;
      Refines(y0, acts, k);
      UniqueOf(y);
      VisibleIs(y, pc.i, k);
    }
  }

  // ----- who is evicted -----------------------------------------------------------------------------

  /** Does the step release buffer i, by brelease? */
  predicate Frees(y: Sys, a: Action, i: nat) {
    i < |y.bufs| &&
    match a
    case Release(p) => p < |y.procs| && y.procs[p] == Holding(i, true)
    case Done(j) => j == i && !y.bufs[i].io.Nothing? && y.bufs[i].asy
    case _ => false
  }

  predicate FreesOne(y: Sys, a: Action) {
    match a
    case Release(p) => p < |y.procs| && y.procs[p].Holding? && y.procs[p].full && y.procs[p].i < |y.bufs|
    case Done(j) => j < |y.bufs| && !y.bufs[j].io.Nothing? && y.bufs[j].asy
    case _ => false
  }

  lemma {:induction false} SizesStay(y: Sys, a: Action)
    ensures |Act(y, a).bufs| == |y.bufs| && |Act(y, a).procs| == |y.procs|
  {
    hide Miss;
  }

  lemma {:induction false} Stamped(y: Sys, a: Action, i: nat)
    requires i < |y.bufs| == |Act(y, a).bufs|
    ensures Act(y, a).bufs[i].seqn == (if Frees(y, a, i) then y.seqn else y.bufs[i].seqn)
    ensures Act(y, a).seqn == if FreesOne(y, a) then Add16(y.seqn, 1) else y.seqn
  {
    hide Miss;
  }

  /** How many releases there have been since buffer i was released, that one included. */
  ghost function Since(y0: Sys, acts: seq<Action>, i: nat): nat
    requires i < |y0.bufs|
  {
    if acts == [] then Age(y0.bufs[i], y0.seqn)
    else
      var before, a := acts[..|acts| - 1], acts[|acts| - 1];
      var y := Run(y0, before);
      if Frees(y, a, i) then 1 else Since(y0, before, i) + if FreesOne(y, a) then 1 else 0
  }

  /** The age that bclaim looks at counts, modulo 2^16, the releases since the buffer's own, so
      that the oldest is the one not used for the longest time. */
  lemma {:induction false} AgeCounts(y0: Sys, acts: seq<Action>, i: nat)
    requires i < |y0.bufs|
    ensures i < |Run(y0, acts).bufs| == |y0.bufs|
    ensures Age(Run(y0, acts).bufs[i], Run(y0, acts).seqn) == Since(y0, acts, i) % (MAXU + 1)
    decreases |acts|
  {
    hide Act, Frees, FreesOne, Add16, Sub16;
    if acts == [] {
      AgeIsWord(y0.bufs[i], y0.seqn);
    } else {
      var before, a := acts[..|acts| - 1], acts[|acts| - 1];
      var y := Run(y0, before);
      AgeCounts(y0, before, i);
      SizesStay(y, a);
      Stamped(y, a, i);
      FreeOne(y, a, i);
      Older(y.seqn, y.bufs[i].seqn, Since(y0, before, i));
    }
  }

  lemma {:induction false} AgeIsWord(b: Buf, seqn: word)
    ensures 0 <= Age(b, seqn) <= MAXU
  {
  }

  lemma {:induction false} FreeOne(y: Sys, a: Action, i: nat)
    ensures Frees(y, a, i) ==> FreesOne(y, a)
  {
  }

  lemma {:induction false} Older(now: word, when: word, n: nat)
    requires Sub16(now, when) == n % (MAXU + 1)
    ensures Sub16(Add16(now, 1), when) == (n + 1) % (MAXU + 1) && Sub16(Add16(now, 1), now) == 1
  {
  }
}
