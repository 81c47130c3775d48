/** The two reference counts of a segment (segadup, segdupl, segdupd and sfree of seg.c;
    procdisk, proccore, segdisk and segcore of swap.c) while processes fork and exit, and the
    swapper works on one process at a time.  A step ends where the code may sleep, or sooner. */
module SwapCounts {
  const NUSEG: nat := 8
  const NULL: int := 0
  const MAXREF: int := 127

  datatype Seg = Seg(urefc: int, lrefc: int, core: bool, shared: bool)

  /** What a process is in the middle of: segadup, with slot n next and, when Writing, in
      segdupd's swapio, where it waits for the gate until io; segadup giving up; pexit, with n
      slots to go; or a raw transfer of ioreq to or from the segment in slot n. */
  datatype Doing =
    | Running
    | Copying(child: nat, n: nat)
    | Writing(child: nat, n: nat, copy: int, io: bool)
    | Undoing(child: nat, n: nat)
    | Exiting(n: nat)
    | Raw(n: nat)

  datatype Proc = Proc(used: bool, segp: seq<int>, pfcore: bool, pfswap: bool, pfswio: bool, doing: Doing)

  /** The swapper in procdisk or proccore for process p, at slot i, f being PFSWAP as it was
      found; io while segdisk or segcore waits for the disk. */
  datatype Task = Idle | Out | In
  datatype Swapper = Swapper(task: Task, p: nat, i: nat, f: bool, n: nat, io: bool)

  const AtRest: Swapper := Swapper(Idle, 0, 0, false, 0, false)

  datatype State = State(segs: map<int, Seg>, procs: seq<Proc>, sw: Swapper)

  datatype Room = Memory | Disk | None

  datatype Action =
    | ForkBegin(p: nat, c: nat)
    | ForkNext(p: nat, room: Room, t: int)
    | ForkGate(p: nat)
    | ForkWritten(p: nat)
    | ForkUndo(p: nat)
    | ForkEnd(p: nat)
    | RawBegin(p: nat, n: nat)
    | RawEnd(p: nat)
    | ExitBegin(p: nat)
    | ExitNext(p: nat)
    | Release(p: nat)
    | OutBegin(p: nat)
    | OutNext(ok: bool)
    | OutWritten
    | InBegin(p: nat)
    | InNext(ok: bool)
    | InRead

  // ----- steps -----------------------------------------------------------------------------

  predicate Formed(y: State) {
    && (forall p {:trigger y.procs[p]} :: 0 <= p < |y.procs| ==> ProcFormed(y, y.procs[p]))
    && NULL !in y.segs
    && (!y.sw.task.Idle? ==>
          (&& y.sw.p < |y.procs| && y.sw.i <= NUSEG
           && (y.sw.io ==> (y.sw.i < NUSEG && y.procs[y.sw.p].segp[y.sw.i] != NULL))))
  }

  predicate ProcFormed(y: State, pp: Proc) {
    && |pp.segp| == NUSEG
    && (forall j {:trigger pp.segp[j]} :: 0 <= j < NUSEG && pp.segp[j] != NULL ==> pp.segp[j] in y.segs)
    && (pp.doing.Copying? || pp.doing.Writing? || pp.doing.Undoing? ==>
          (pp.doing.child < |y.procs| && pp.doing.n <= NUSEG))
    && (Holds(pp.doing) ==> pp.doing.n < NUSEG && pp.segp[pp.doing.n] != NULL)
    && (pp.doing.Writing? ==> pp.doing.copy in y.segs)
    && (pp.doing.Exiting? ==> pp.doing.n <= NUSEG)
  }

  /** A transfer that keeps the segment in slot n locked. */
  predicate Holds(d: Doing) { d.Writing? || d.Raw? }

  /** PFSWIO: set for a child while it is being made, and by swapio behind its gate. */
  predicate Swio(pp: Proc) { pp.pfswio || (pp.doing.Writing? && pp.doing.io) }

  /** dispatch gives the processor to processes in core only, and to a child only after its
      parent is done with it. */
  predicate CanRun(y: State, p: nat) {
    p < |y.procs| && y.procs[p].used && y.procs[p].pfcore && !y.procs[p].pfswio
  }

  predicate Can(y: State, a: Action)
    requires Formed(y)
  {
    match a
    case ForkBegin(p, c) => CanRun(y, p) && y.procs[p].doing.Running? && c < |y.procs| && !y.procs[c].used
    case ForkNext(p, _, t) => Copies(y, p) && t != NULL && t !in y.segs
    case ForkGate(p) => CanRun(y, p) && y.procs[p].doing.Writing? && !y.procs[p].doing.io
    case ForkWritten(p) => CanRun(y, p) && y.procs[p].doing.Writing? && y.procs[p].doing.io
    case ForkUndo(p) => CanRun(y, p) && y.procs[p].doing.Undoing?
    case ForkEnd(p) => CanRun(y, p) && y.procs[p].doing.Copying? && y.procs[p].doing.n == NUSEG
    case RawBegin(p, n) => CanRun(y, p) && y.procs[p].doing.Running? && n < NUSEG && y.procs[p].segp[n] != NULL
    case RawEnd(p) => CanRun(y, p) && y.procs[p].doing.Raw?
    case ExitBegin(p) => CanRun(y, p) && y.procs[p].doing.Running?
    case ExitNext(p) => CanRun(y, p) && y.procs[p].doing.Exiting? && y.procs[p].doing.n > 0
    case Release(p) =>
      p < |y.procs| && y.procs[p].used && y.procs[p].doing == Exiting(0) && !y.procs[p].pfswio && !On(y, p)
    case OutBegin(p) => p < |y.procs| && y.procs[p].used && !Swio(y.procs[p]) && y.sw.task.Idle?
    case OutNext(_) => y.sw.task.Out? && !y.sw.io
    case OutWritten => y.sw.task.Out? && y.sw.io
    case InBegin(p) => p < |y.procs| && y.procs[p].used && !Swio(y.procs[p]) && !y.procs[p].pfcore && y.sw.task.Idle?
    case InNext(_) => y.sw.task.In? && !y.sw.io
    case InRead => y.sw.task.In? && y.sw.io
  }

  predicate On(y: State, p: nat) { !y.sw.task.Idle? && y.sw.p == p }

  function Doing1(procs: seq<Proc>, p: nat, d: Doing): seq<Proc>
    requires p < |procs|
  {
    procs[p := procs[p].(doing := d)]
  }

  function Fill(pp: Proc, j: nat, s: int, core: bool): Proc
    requires j < |pp.segp|
  {
    pp.(segp := pp.segp[j := s], pfcore := pp.pfcore && core)
  }

  function Lock(segs: map<int, Seg>, s: int, d: int): map<int, Seg>
    requires s in segs
  {
    segs[s := segs[s].(lrefc := segs[s].lrefc + d)]
  }

  /** sfree, panic aside. */
  function Sfree(segs: map<int, Seg>, s: int): map<int, Seg>
    requires s in segs
  {
    if segs[s].urefc == 1 then segs - {s}
    else segs[s := segs[s].(urefc := segs[s].urefc - 1, lrefc := segs[s].lrefc - 1)]
  }

  predicate Copies(y: State, p: nat)
    requires Formed(y)
  {
    CanRun(y, p) && y.procs[p].doing.Copying? && y.procs[p].doing.n < NUSEG
  }

  /** segadup goes on to d without having filled a slot. */
  function GoTo(y: State, p: nat, d: Doing): State
    requires p < |y.procs|
  {
    y.(procs := Doing1(y.procs, p, d))
  }

  /** A shared segment is the child's as well. */
  function Share(y: State, p: nat): State
    requires Formed(y) && Copies(y, p) && y.procs[p].segp[y.procs[p].doing.n] != NULL
  {
    var c, n := y.procs[p].doing.child, y.procs[p].doing.n;
    var s := y.procs[p].segp[n];
    y.(segs := y.segs[s := y.segs[s].(urefc := y.segs[s].urefc + 1, lrefc := y.segs[s].lrefc + 1)],
       procs := Doing1(y.procs[c := Fill(y.procs[c], n, s, y.segs[s].core)], p, Copying(c, n + 1)))
  }

  /** A copy in memory. */
  function CopyInCore(y: State, p: nat, t: int): State
    requires Formed(y) && Copies(y, p)
  {
    var c, n := y.procs[p].doing.child, y.procs[p].doing.n;
    y.(segs := y.segs[t := Seg(1, 1, true, false)],
       procs := Doing1(y.procs[c := Fill(y.procs[c], n, t, true)], p, Copying(c, n + 1)))
  }

  /** segdupd up to its swapio. */
  function CopyOut(y: State, p: nat, t: int): State
    requires Formed(y) && Copies(y, p) && y.procs[p].segp[y.procs[p].doing.n] != NULL
  {
    var c, n := y.procs[p].doing.child, y.procs[p].doing.n;
    y.(segs := Lock(y.segs, y.procs[p].segp[n], 1)[t := Seg(1, 1, false, false)],
       procs := Doing1(y.procs, p, Writing(c, n, t, false)))
  }

  /** segadup for one slot: segdupl of what is in it. */
  function Duplicate(y: State, p: nat, room: Room, t: int): State
    requires Formed(y) && Copies(y, p)
  {
    var c, n := y.procs[p].doing.child, y.procs[p].doing.n;
    var s := y.procs[p].segp[n];
    if s == NULL then GoTo(y, p, Copying(c, n + 1))
    else if y.segs[s].shared then
      if y.segs[s].urefc >= MAXREF then GoTo(y, p, Undoing(c, n)) else Share(y, p)
    else if room == Memory then CopyInCore(y, p, t)
    else if room == Disk then CopyOut(y, p, t)
    else GoTo(y, p, Undoing(c, n))
  }

  function Written(y: State, p: nat): State
    requires Formed(y) && Can(y, ForkWritten(p))
  {
    var d := y.procs[p].doing;
    y.(segs := Lock(y.segs, y.procs[p].segp[d.n], -1),
       procs := Doing1(y.procs[d.child := Fill(y.procs[d.child], d.n, d.copy, false)], p, Copying(d.child, d.n + 1)))
  }

  /** Free what slot j of process q holds. */
  function Empty(y: State, q: nat, j: nat): State
    requires Formed(y) && q < |y.procs| && j < NUSEG
  {
    var s := y.procs[q].segp[j];
    if s == NULL then y
    else State(Sfree(y.segs, s), y.procs[q := y.procs[q].(segp := y.procs[q].segp[j := NULL])], y.sw)
  }

  function Undo(y: State, p: nat): State
    requires Formed(y) && Can(y, ForkUndo(p))
  {
    var c, n := y.procs[p].doing.child, y.procs[p].doing.n;
    if n == 0 then
      y.(procs := Doing1(y.procs[c := y.procs[c].(used := false, pfswio := false)], p, Running))
    else
      var y1 := Empty(y, c, n - 1);
      y1.(procs := Doing1(y1.procs, p, Undoing(c, n - 1)))
  }

  function Exit(y: State, p: nat): State
    requires Formed(y) && Can(y, ExitNext(p))
  {
    var n := y.procs[p].doing.n;
    var y1 := Empty(y, p, n - 1);
    y1.(procs := Doing1(y1.procs, p, Exiting(n - 1)))
  }

  function DiskEnd(y: State): State
    requires Formed(y) && Can(y, OutNext(true))
  {
    y.(procs := y.procs[y.sw.p := y.procs[y.sw.p].(pfswap := true)], sw := y.sw.(task := Idle))
  }

  function CoreEnd(y: State): State
    requires Formed(y) && Can(y, InNext(true))
  {
    var pp := y.procs[y.sw.p];
    y.(procs := y.procs[y.sw.p := pp.(pfcore := pp.pfcore || y.sw.n == 0, pfswap := false)], sw := y.sw.(task := Idle))
  }

  /** procdisk up to segdisk's swapio, or to the next slot. */
  function DiskStep(y: State, ok: bool): State
    requires Formed(y) && Can(y, OutNext(ok))
  {
    var w := y.sw;
    if w.i == NUSEG then DiskEnd(y)
    else
      var s := y.procs[w.p].segp[w.i];
      if s == NULL then y.(sw := w.(i := w.i + 1))
      else
        var segs := if w.f then y.segs else Lock(y.segs, s, -1);
        if segs[s].core && segs[s].lrefc == 0 && ok then
          y.(segs := Lock(segs, s, 1), sw := w.(io := true))
        else
          y.(segs := segs, sw := w.(i := w.i + 1))
  }

  /** proccore likewise. */
  function CoreStep(y: State, ok: bool): State
    requires Formed(y) && Can(y, InNext(ok))
  {
    var w := y.sw;
    if w.i == NUSEG then CoreEnd(y)
    else
      var s := y.procs[w.p].segp[w.i];
      if s == NULL then y.(sw := w.(i := w.i + 1))
      else
        var segs := if w.f then Lock(y.segs, s, 1) else y.segs;
        if segs[s].core then y.(segs := segs, sw := w.(i := w.i + 1))
        else if ok then y.(segs := Lock(segs, s, 1), sw := w.(io := true))
        else y.(segs := segs, sw := w.(i := w.i + 1, n := w.n + 1))
  }

  /** The disk is done: the segment is out, or in, and no longer held for the transfer. */
  function Done(y: State): State
    requires Formed(y) && !y.sw.task.Idle? && y.sw.io
  {
    var s := y.procs[y.sw.p].segp[y.sw.i];
    y.(segs := y.segs[s := y.segs[s].(core := y.sw.task.In?, lrefc := y.segs[s].lrefc - 1)],
       sw := y.sw.(io := false, i := y.sw.i + 1))
  }

  function Step(y: State, a: Action): State
    requires Formed(y) && Can(y, a)
  {
    match a
    case ForkBegin(p, c) =>
      y.(procs := Doing1(y.procs[c := Proc(true, y.procs[c].segp, true, false, true, Running)], p, Copying(c, 0)))
    case ForkNext(p, room, t) => Duplicate(y, p, room, t)
    case ForkGate(p) => GoTo(y, p, y.procs[p].doing.(io := true))
    case ForkWritten(p) => Written(y, p)
    case ForkUndo(p) => Undo(y, p)
    case ForkEnd(p) =>
      var c := y.procs[p].doing.child;
      y.(procs := Doing1(y.procs[c := y.procs[c].(pfswio := false)], p, Running))
    case RawBegin(p, n) => GoTo(y.(segs := Lock(y.segs, y.procs[p].segp[n], 1)), p, Raw(n))
    case RawEnd(p) => GoTo(y.(segs := Lock(y.segs, y.procs[p].segp[y.procs[p].doing.n], -1)), p, Running)
    case ExitBegin(p) => GoTo(y, p, Exiting(NUSEG))
    case ExitNext(p) => Exit(y, p)
    case Release(p) => y.(procs := y.procs[p := y.procs[p].(used := false, doing := Running)])
    case OutBegin(p) =>
      y.(procs := y.procs[p := y.procs[p].(pfcore := false)], sw := Swapper(Out, p, 0, y.procs[p].pfswap, 0, false))
    case OutNext(ok) => DiskStep(y, ok)
    case OutWritten => Done(y)
    case InBegin(p) => y.(sw := Swapper(In, p, 0, y.procs[p].pfswap, 0, false))
    case InNext(ok) => CoreStep(y, ok)
    case InRead => Done(y)
  }

  // ----- counting ---------------------------------------------------------------------------

  /** A place in the system that may hold a pointer to a segment: whether that is a reference,
      and whether it locks the segment in core. */
  datatype Entry = Entry(seg: int, named: bool, locked: bool)

  const NOTHING: Entry := Entry(NULL, false, false)

  /** Whether slot j of process p is counted in s_lrefc: procdisk and proccore have changed the
      counts of the slots they have seen, and PFSWAP only follows at the end. */
  predicate Counted(y: State, p: nat, j: nat)
    requires p < |y.procs|
  {
    if On(y, p) then
      var seen := j < y.sw.i || (j == y.sw.i && y.sw.io);
      if y.sw.task.Out? then !y.sw.f && !seen else !y.sw.f || seen
    else !y.procs[p].pfswap
  }

  /** The slots of process p, then what it locks for a transfer, then the copy being written. */
  function EntryAt(y: State, p: nat, j: nat): Entry
    requires Formed(y) && p < |y.procs|
  {
    var pp := y.procs[p];
    if j < NUSEG then
      if pp.segp[j] == NULL then NOTHING else Entry(pp.segp[j], true, Counted(y, p, j))
    else if j == NUSEG then
      if Holds(pp.doing) then Entry(pp.segp[pp.doing.n], false, true) else NOTHING
    else if pp.doing.Writing? then Entry(pp.doing.copy, true, true)
    else NOTHING
  }

  const WIDTH: nat := NUSEG + 2

  function Rows(y: State): (r: seq<seq<Entry>>)
    requires Formed(y)
  {
    seq(|y.procs|, p requires 0 <= p < |y.procs| => seq(WIDTH, j requires 0 <= j < WIDTH => EntryAt(y, p, j)))
  }

  function Hit(e: Entry, s: int, locks: bool): nat {
    if e.seg == s && (if locks then e.locked else e.named) then 1 else 0
  }

  function Tally(r: seq<Entry>, k: nat, s: int, locks: bool): nat
    requires k <= |r|
  {
    if k == 0 then 0 else Tally(r, k - 1, s, locks) + Hit(r[k - 1], s, locks)
  }

  function Total(rows: seq<seq<Entry>>, k: nat, s: int, locks: bool): nat
    requires k <= |rows|
  {
    if k == 0 then 0 else Total(rows, k - 1, s, locks) + Tally(rows[k - 1], |rows[k - 1]|, s, locks)
  }

  predicate HeldBySwapper(y: State, s: int)
    requires Formed(y)
  {
    !y.sw.task.Idle? && y.sw.io && y.procs[y.sw.p].segp[y.sw.i] == s
  }

  function Names(y: State, s: int): nat
    requires Formed(y)
  {
    Total(Rows(y), |Rows(y)|, s, false)
  }

  function Locks(y: State, s: int): nat
    requires Formed(y)
  {
    Total(Rows(y), |Rows(y)|, s, true) + if HeldBySwapper(y, s) then 1 else 0
  }

  lemma {:induction false} TallyPut(r: seq<Entry>, j: nat, e: Entry, k: nat, s: int, locks: bool)
    requires j < |r| && k <= |r|
    ensures Tally(r[j := e], k, s, locks) ==
      Tally(r, k, s, locks) + if j < k then Hit(e, s, locks) - Hit(r[j], s, locks) else 0
  {
    if k > 0 { TallyPut(r, j, e, k - 1, s, locks); }
  }

  function Put(rows: seq<seq<Entry>>, p: nat, j: nat, e: Entry): (r: seq<seq<Entry>>)
    requires p < |rows| && j < |rows[p]|
    ensures |r| == |rows| && forall q {:trigger r[q]} :: 0 <= q < |r| ==> |r[q]| == |rows[q]|
  {
    rows[p := rows[p][j := e]]
  }

  lemma {:induction false} TotalPut(rows: seq<seq<Entry>>, p: nat, j: nat, e: Entry, k: nat, s: int, locks: bool)
    requires p < |rows| && j < |rows[p]| && k <= |rows|
    ensures Total(Put(rows, p, j, e), k, s, locks) ==
      Total(rows, k, s, locks) + if p < k then Hit(e, s, locks) - Hit(rows[p][j], s, locks) else 0
  {
    if k > 0 {
      TotalPut(rows, p, j, e, k - 1, s, locks);
      if p == k - 1 { TallyPut(rows[p], j, e, |rows[p]|, s, locks); }
    }
  }

  lemma {:induction false} TallyHas(r: seq<Entry>, j: nat, k: nat, s: int, locks: bool)
    requires j < k <= |r|
    ensures Tally(r, k, s, locks) >= Hit(r[j], s, locks)
  {
    if j < k - 1 { TallyHas(r, j, k - 1, s, locks); }
  }

  lemma {:induction false} TotalHas(rows: seq<seq<Entry>>, p: nat, j: nat, k: nat, s: int, locks: bool)
    requires p < k <= |rows| && j < |rows[p]|
    ensures Total(rows, k, s, locks) >= Hit(rows[p][j], s, locks)
  {
    if p < k - 1 { TotalHas(rows, p, j, k - 1, s, locks); } else { TallyHas(rows[p], j, |rows[p]|, s, locks); }
  }

  lemma {:induction false} TallyNone(r: seq<Entry>, k: nat, s: int, locks: bool)
    requires k <= |r| && forall j {:trigger r[j]} :: 0 <= j < k ==> Hit(r[j], s, locks) == 0
    ensures Tally(r, k, s, locks) == 0
  {
    if k > 0 { TallyNone(r, k - 1, s, locks); }
  }

  lemma {:induction false} TotalNone(rows: seq<seq<Entry>>, k: nat, s: int, locks: bool)
    requires k <= |rows|
    requires forall p, j {:trigger rows[p][j]} :: 0 <= p < k && 0 <= j < |rows[p]| ==> Hit(rows[p][j], s, locks) == 0
    ensures Total(rows, k, s, locks) == 0
  {
    if k > 0 {
      TotalNone(rows, k - 1, s, locks);
      TallyNone(rows[k - 1], |rows[k - 1]|, s, locks);
    }
  }

  /** Entries that are the same, but for the one at (p, j). */
  ghost predicate SameBut(y: State, z: State, p: nat, j: nat)
    requires Formed(y) && Formed(z)
  {
    && |z.procs| == |y.procs|
    && forall q, k {:trigger EntryAt(z, q, k)} :: 0 <= q < |y.procs| && 0 <= k < WIDTH && !(q == p && k == j) ==>
      EntryAt(z, q, k) == EntryAt(y, q, k)
  }

  lemma {:induction false} OneMoved(y: State, z: State, p: nat, j: nat, s: int, locks: bool)
    requires Formed(y) && Formed(z) && SameBut(y, z, p, j) && p < |y.procs| && j < WIDTH
    ensures Total(Rows(z), |Rows(z)|, s, locks) ==
      Total(Rows(y), |Rows(y)|, s, locks) + Hit(EntryAt(z, p, j), s, locks) - Hit(EntryAt(y, p, j), s, locks)
  {
    assert Rows(z) == Put(Rows(y), p, j, EntryAt(z, p, j)) by { RowsPut(y, z, p, j); }
    TotalPut(Rows(y), p, j, EntryAt(z, p, j), |Rows(y)|, s, locks);
  }

  lemma {:induction false} RowsPut(y: State, z: State, p: nat, j: nat)
    requires Formed(y) && Formed(z) && SameBut(y, z, p, j) && p < |y.procs| && j < WIDTH
    ensures Rows(z) == Put(Rows(y), p, j, EntryAt(z, p, j))
  {
    hide EntryAt, Formed;
    var a, b := Rows(z), Put(Rows(y), p, j, EntryAt(z, p, j));
    forall q | 0 <= q < |a| ensures a[q] == b[q] {
      forall k | 0 <= k < WIDTH ensures a[q][k] == b[q][k] {
        assert a[q][k] == EntryAt(z, q, k);
      }
    }
  }

  /** The same for up to three entries, all different ones. */
  ghost predicate SameBut3(y: State, z: State, p: nat, j: nat, p2: nat, j2: nat, p3: nat, j3: nat)
    requires Formed(y) && Formed(z)
  {
    && |z.procs| == |y.procs|
    && forall q, k {:trigger EntryAt(z, q, k)} ::
      0 <= q < |y.procs| && 0 <= k < WIDTH && !(q == p && k == j) && !(q == p2 && k == j2) && !(q == p3 && k == j3) ==>
        EntryAt(z, q, k) == EntryAt(y, q, k)
  }

  lemma {:induction false} RowsPut3(y: State, z: State, p: nat, j: nat, p2: nat, j2: nat, p3: nat, j3: nat)
    requires Formed(y) && Formed(z) && SameBut3(y, z, p, j, p2, j2, p3, j3)
    requires p < |y.procs| && j < WIDTH && p2 < |y.procs| && j2 < WIDTH && p3 < |y.procs| && j3 < WIDTH
    ensures Rows(z) ==
      Put(Put(Put(Rows(y), p, j, EntryAt(z, p, j)), p2, j2, EntryAt(z, p2, j2)), p3, j3, EntryAt(z, p3, j3))
  {
    hide EntryAt, Formed;
    var a := Rows(z);
    var r := Put(Put(Put(Rows(y), p, j, EntryAt(z, p, j)), p2, j2, EntryAt(z, p2, j2)), p3, j3, EntryAt(z, p3, j3));
    forall q | 0 <= q < |a| ensures a[q] == r[q] {
      forall k | 0 <= k < WIDTH ensures a[q][k] == r[q][k] {
        assert a[q][k] == EntryAt(z, q, k);
      }
    }
  }

  lemma {:induction false} ThreeMoved(y: State, z: State, p: nat, j: nat, p2: nat, j2: nat, p3: nat, j3: nat, s: int,
                                      locks: bool)
    requires Formed(y) && Formed(z) && SameBut3(y, z, p, j, p2, j2, p3, j3)
    requires p < |y.procs| && j < WIDTH && p2 < |y.procs| && j2 < WIDTH && p3 < |y.procs| && j3 < WIDTH
    requires (p != p2 || j != j2) && (p != p3 || j != j3) && (p2 != p3 || j2 != j3)
    ensures Total(Rows(z), |Rows(z)|, s, locks) == Total(Rows(y), |Rows(y)|, s, locks)
      + Hit(EntryAt(z, p, j), s, locks) - Hit(EntryAt(y, p, j), s, locks)
      + Hit(EntryAt(z, p2, j2), s, locks) - Hit(EntryAt(y, p2, j2), s, locks)
      + Hit(EntryAt(z, p3, j3), s, locks) - Hit(EntryAt(y, p3, j3), s, locks)
  {
    hide EntryAt, Formed, SameBut3, Hit;
    RowsPut3(y, z, p, j, p2, j2, p3, j3);
    var r0 := Rows(y);
    TotalPut(r0, p, j, EntryAt(z, p, j), |r0|, s, locks);
    var r1 := Put(r0, p, j, EntryAt(z, p, j));
    TotalPut(r1, p2, j2, EntryAt(z, p2, j2), |r0|, s, locks);
    var r2 := Put(r1, p2, j2, EntryAt(z, p2, j2));
    TotalPut(r2, p3, j3, EntryAt(z, p3, j3), |r0|, s, locks);
    assert r1[p2][j2] == r0[p2][j2];
    assert r2[p3][j3] == r1[p3][j3] == r0[p3][j3];
  }

  lemma {:induction false} Has(y: State, p: nat, j: nat, s: int, locks: bool)
    requires Formed(y) && p < |y.procs| && j < WIDTH && Hit(EntryAt(y, p, j), s, locks) == 1
    ensures Total(Rows(y), |Rows(y)|, s, locks) >= 1
  {
    TotalHas(Rows(y), p, j, |Rows(y)|, s, locks);
  }

  lemma {:induction false} HasTwo(y: State, p: nat, j: nat, q: nat, k: nat, s: int, locks: bool)
    requires Formed(y) && p < |y.procs| && j < WIDTH && Hit(EntryAt(y, p, j), s, locks) == 1
    requires q < |y.procs| && k < WIDTH && Hit(EntryAt(y, q, k), s, locks) == 1 && (p != q || j != k)
    ensures Total(Rows(y), |Rows(y)|, s, locks) >= 2
  {
    hide EntryAt, Formed;
    var r := Put(Rows(y), p, j, NOTHING);
    TotalPut(Rows(y), p, j, NOTHING, |r|, s, locks);
    assert r[q][k] == EntryAt(y, q, k);
    TotalHas(r, q, k, |r|, s, locks);
    assert Rows(y)[p][j] == EntryAt(y, p, j);
    if s == NULL { assert Hit(NOTHING, s, locks) == 0; }
  }

  // ----- what every step keeps -----------------------------------------------------------------

  predicate Forking(d: Doing) { d.Copying? || d.Writing? || d.Undoing? }

  predicate NoneFrom(segp: seq<int>, n: nat) { forall j {:trigger segp[j]} :: n <= j < |segp| ==> segp[j] == NULL }

  predicate Resident(segs: map<int, Seg>, segp: seq<int>, n: nat) {
    forall j {:trigger segp[j]} :: 0 <= j < n && j < |segp| && segp[j] in segs ==> segs[segp[j]].core
  }

  /** The child of a fork: nobody else touches it, and it has what was copied so far. */
  predicate ChildGood(y: State, p: nat)
    requires Formed(y) && p < |y.procs| && Forking(y.procs[p].doing)
  {
    var d := y.procs[p].doing;
    var cc := y.procs[d.child];
    && d.child != p && cc.used && cc.pfswio && cc.doing.Running? && !cc.pfswap && NoneFrom(cc.segp, d.n)
    && (d.Writing? ==> (y.segs[d.copy].urefc == 1 && !y.segs[d.copy].core && !y.segs[d.copy].shared))
  }

  predicate ProcGood(y: State, p: nat)
    requires Formed(y) && p < |y.procs|
  {
    var pp := y.procs[p];
    && (!pp.used ==> (pp.doing.Running? && !pp.pfswio && NoneFrom(pp.segp, 0)))
    && (Swio(pp) ==> !pp.pfswap)
    && (pp.used && pp.pfcore ==> (!pp.pfswap && Resident(y.segs, pp.segp, NUSEG)))
    && (pp.doing.Exiting? ==> NoneFrom(pp.segp, pp.doing.n))
    && (Forking(pp.doing) ==> ChildGood(y, p))
    && (Holds(pp.doing) ==> y.segs[pp.segp[pp.doing.n]].core)
  }

  predicate SwapperGood(y: State)
    requires Formed(y)
  {
    !y.sw.task.Idle? ==>
      (var pp := y.procs[y.sw.p];
       && pp.used && !pp.pfcore && !Swio(pp) && pp.pfswap == y.sw.f
       && (y.sw.io ==> (var g := y.segs[pp.segp[y.sw.i]]; if y.sw.task.Out? then g.core && g.lrefc == 1 else !g.core))
       && (y.sw.task.In? && y.sw.n == 0 ==> Resident(y.segs, pp.segp, y.sw.i)))
  }

  ghost predicate Good(y: State) {
    && Formed(y) && SwapperGood(y)
    && (forall p {:trigger ProcGood(y, p)} :: 0 <= p < |y.procs| ==> ProcGood(y, p))
    && (forall p, q {:trigger y.procs[p], y.procs[q]} ::
          0 <= p < q < |y.procs| && Forking(y.procs[p].doing) && Forking(y.procs[q].doing) ==>
            y.procs[p].doing.child != y.procs[q].doing.child)
    && (forall s {:trigger y.segs[s]} :: s in y.segs ==> 1 <= y.segs[s].urefc <= MAXREF)
  }

  ghost predicate Counts(y: State) {
    && Formed(y)
    && forall s {:trigger y.segs[s]} :: s in y.segs ==> y.segs[s].urefc == Names(y, s) && y.segs[s].lrefc == Locks(y, s)
  }

  ghost predicate Inv(y: State) { Good(y) && Counts(y) }

  function Refs(y: State, s: int, locks: bool): int {
    if s !in y.segs then 0 else if locks then y.segs[s].lrefc else y.segs[s].urefc
  }

  function Held(y: State, s: int, locks: bool): int
    requires Formed(y)
  {
    if locks && HeldBySwapper(y, s) then 1 else 0
  }

  lemma {:induction false} Known(y: State, s: int, locks: bool)
    requires Counts(y) && s != NULL
    ensures Refs(y, s, locks) == Total(Rows(y), |Rows(y)|, s, locks) + Held(y, s, locks)
  {
    if s !in y.segs {
      forall p, j {:trigger Rows(y)[p][j]} | 0 <= p < |y.procs| && 0 <= j < WIDTH
        ensures Hit(Rows(y)[p][j], s, locks) == 0
      {
        assert Rows(y)[p][j] == EntryAt(y, p, j);
        assert ProcFormed(y, y.procs[p]);
      }
      TotalNone(Rows(y), |Rows(y)|, s, locks);
      if !y.sw.task.Idle? { assert ProcFormed(y, y.procs[y.sw.p]); }
    } else {
      assert y.segs[s].urefc == Names(y, s);
    }
  }

  /** The counts have followed the entries. */
  ghost predicate Follows(y: State, z: State, p: nat, j: nat)
    requires Formed(y) && Formed(z) && p < |y.procs| == |z.procs| && j < WIDTH
  {
    forall s, locks {:trigger Refs(z, s, locks)} :: s in z.segs ==>
      Refs(z, s, locks) - Held(z, s, locks) - Hit(EntryAt(z, p, j), s, locks)
      == Refs(y, s, locks) - Held(y, s, locks) - Hit(EntryAt(y, p, j), s, locks)
  }

  lemma {:induction false} CountsOne(y: State, z: State, p: nat, j: nat)
    requires Counts(y) && Formed(z) && SameBut(y, z, p, j) && p < |y.procs| && j < WIDTH && Follows(y, z, p, j)
    ensures Counts(z)
  {
    hide Formed, EntryAt, SameBut;
    forall s {:trigger z.segs[s]} | s in z.segs
      ensures z.segs[s].urefc == Names(z, s) && z.segs[s].lrefc == Locks(z, s)
    {
      NotNull(z, s);
      Known(y, s, false);
      Known(y, s, true);
      OneMoved(y, z, p, j, s, false);
      OneMoved(y, z, p, j, s, true);
      assert Refs(z, s, false) == z.segs[s].urefc && Refs(z, s, true) == z.segs[s].lrefc;
    }
  }

  lemma {:induction false} NotNull(y: State, s: int)
    requires Formed(y) && s in y.segs
    ensures s != NULL
  {
  }

  ghost predicate Follows3(y: State, z: State, p: nat, j: nat, p2: nat, j2: nat, p3: nat, j3: nat)
    requires Formed(y) && Formed(z) && p < |y.procs| == |z.procs| && p2 < |y.procs| && p3 < |y.procs| && j < WIDTH
    requires j2 < WIDTH && j3 < WIDTH
  {
    forall s, locks {:trigger Refs(z, s, locks)} :: s in z.segs ==>
      Refs(z, s, locks) - Held(z, s, locks)
        - Hit(EntryAt(z, p, j), s, locks) - Hit(EntryAt(z, p2, j2), s, locks) - Hit(EntryAt(z, p3, j3), s, locks)
      == Refs(y, s, locks) - Held(y, s, locks)
        - Hit(EntryAt(y, p, j), s, locks) - Hit(EntryAt(y, p2, j2), s, locks) - Hit(EntryAt(y, p3, j3), s, locks)
  }

  lemma {:induction false} CountsThree(y: State, z: State, p: nat, j: nat, p2: nat, j2: nat, p3: nat, j3: nat)
    requires Counts(y) && Formed(z) && SameBut3(y, z, p, j, p2, j2, p3, j3)
    requires p < |y.procs| && j < WIDTH && p2 < |y.procs| && j2 < WIDTH && p3 < |y.procs| && j3 < WIDTH
    requires (p != p2 || j != j2) && (p != p3 || j != j3) && (p2 != p3 || j2 != j3)
    requires Follows3(y, z, p, j, p2, j2, p3, j3)
    ensures Counts(z)
  {
    hide Formed, EntryAt, SameBut3;
    forall s {:trigger z.segs[s]} | s in z.segs
      ensures z.segs[s].urefc == Names(z, s) && z.segs[s].lrefc == Locks(z, s)
    {
      NotNull(z, s);
      Known(y, s, false);
      Known(y, s, true);
      ThreeMoved(y, z, p, j, p2, j2, p3, j3, s, false);
      ThreeMoved(y, z, p, j, p2, j2, p3, j3, s, true);
      assert Refs(z, s, false) == z.segs[s].urefc && Refs(z, s, true) == z.segs[s].lrefc;
    }
  }

  // ----- the swapper's steps ------------------------------------------------------------------

  lemma {:induction false} DiskCounts(y: State, ok: bool)
    requires Inv(y) && Can(y, OutNext(ok)) && y.sw.i < NUSEG
    ensures Counts(DiskStep(y, ok))
  {
    hide Names, Locks, Counts;
    assert ProcFormed(y, y.procs[y.sw.p]);
    CountsOne(y, DiskStep(y, ok), y.sw.p, y.sw.i);
  }

  lemma {:induction false} CoreEntries(y: State, ok: bool)
    requires Formed(y) && Can(y, InNext(ok)) && y.sw.i < NUSEG
    ensures Formed(CoreStep(y, ok)) && SameBut(y, CoreStep(y, ok), y.sw.p, y.sw.i)
  {
    assert ProcFormed(y, y.procs[y.sw.p]);
    CoreFormed(y, ok);
  }

  lemma {:induction false} CoreFormed(y: State, ok: bool)
    requires Formed(y) && Can(y, InNext(ok)) && y.sw.i < NUSEG
    ensures Formed(CoreStep(y, ok))
  {
    assert ProcFormed(y, y.procs[y.sw.p]);
    var z := CoreStep(y, ok);
    forall p {:trigger z.procs[p]} | 0 <= p < |z.procs| ensures ProcFormed(z, z.procs[p]) {
      assert ProcFormed(y, y.procs[p]);
    }
  }

  lemma {:induction false} CoreFollows(y: State, ok: bool)
    requires Good(y) && Can(y, InNext(ok)) && y.sw.i < NUSEG && Formed(CoreStep(y, ok))
    ensures Follows(y, CoreStep(y, ok), y.sw.p, y.sw.i)
  {
    hide ProcGood;
    assert ProcFormed(y, y.procs[y.sw.p]);
  }

  lemma {:induction false} CoreCounts(y: State, ok: bool)
    requires Inv(y) && Can(y, InNext(ok)) && y.sw.i < NUSEG
    ensures Counts(CoreStep(y, ok))
  {
    hide Names, Locks, Counts, CoreStep, SameBut, Follows, SwapperGood, ProcGood, Formed;
    InvFormed(y);
    CoreEntries(y, ok);
    CoreFollows(y, ok);
    StepSize(y, ok);
    CountsOne(y, CoreStep(y, ok), y.sw.p, y.sw.i);
  }

  lemma {:induction false} StepSize(y: State, ok: bool)
    requires Formed(y) && Can(y, InNext(ok)) && y.sw.i < NUSEG
    ensures CoreStep(y, ok).procs == y.procs && y.sw.p < |y.procs|
  {
    assert ProcFormed(y, y.procs[y.sw.p]);
  }

  lemma {:induction false} DoneCounts(y: State)
    requires Inv(y) && !y.sw.task.Idle? && y.sw.io
    ensures Counts(Done(y))
  {
    hide Names, Locks;
    var z := Done(y);
    assert ProcFormed(y, y.procs[y.sw.p]);
    CountsOne(y, z, y.sw.p, y.sw.i);
  }

  /** While a segment is written out nobody else has it locked in core. */
  lemma {:induction false} Alone(y: State, s: int, q: nat, k: nat)
    requires Inv(y) && y.sw.task.Out? && y.sw.io && s == y.procs[y.sw.p].segp[y.sw.i] && q < |y.procs| && k < WIDTH
    ensures Hit(EntryAt(y, q, k), s, true) == 0
  {
    assert ProcFormed(y, y.procs[y.sw.p]) && ProcGood(y, y.sw.p);
    assert y.segs[s].lrefc == Locks(y, s);
    if Hit(EntryAt(y, q, k), s, true) == 1 { Has(y, q, k, s, true); }
  }

  ghost predicate SegsKeep(y: State, z: State) {
    && (forall s {:trigger z.segs[s]} :: s in y.segs && s in z.segs ==>
          z.segs[s].core == y.segs[s].core && z.segs[s].shared == y.segs[s].shared)
    && (forall s {:trigger z.segs[s]} :: s in z.segs ==> 1 <= z.segs[s].urefc <= MAXREF)
    && (forall s {:trigger z.segs[s]} :: s in y.segs && s in z.segs && y.segs[s].urefc == 1 && !y.segs[s].shared ==>
          z.segs[s].urefc == 1)
  }

  /** A step of process a, or of the swapper on it, and on no other process but b, the child
      that a has or is about to have. */
  ghost predicate Touches(y: State, z: State, a: nat, b: nat)
    requires Formed(y)
  {
    && SegsKeep(y, z) && |z.procs| == |y.procs| && a < |y.procs| && b < |y.procs| && !y.procs[a].pfswio
    && (forall p {:trigger z.procs[p]} :: 0 <= p < |y.procs| && p != a && p != b ==> z.procs[p] == y.procs[p])
    && (b == a || !y.procs[b].used || (Forking(y.procs[a].doing) && b == y.procs[a].doing.child))
  }

  lemma {:induction false} ChildApart(y: State, z: State, a: nat, b: nat, p: nat)
    requires Good(y) && Touches(y, z, a, b) && p < |y.procs| && p != a && p != b && Forking(y.procs[p].doing)
    ensures ChildGood(y, p) && y.procs[p].doing.child != a && y.procs[p].doing.child != b
  {
    var c := y.procs[p].doing.child;
    assert ProcGood(y, p);
    assert ChildGood(y, p);
    assert y.procs[c].used && y.procs[c].pfswio;
    assert c != a;
    if b != a && y.procs[b].used {
      assert Forking(y.procs[a].doing) && b == y.procs[a].doing.child;
      if p < a { assert c != y.procs[a].doing.child; } else { assert y.procs[a].doing.child != c; }
    }
  }

  lemma {:induction false} Untouched(y: State, z: State, a: nat, b: nat, p: nat)
    requires Good(y) && Formed(z) && Touches(y, z, a, b) && p < |y.procs| && p != a && p != b
    ensures ProcGood(z, p)
    ensures Forking(y.procs[p].doing) ==> y.procs[p].doing.child != b
  {
    var pp := y.procs[p];
    assert z.procs[p] == pp;
    assert ProcGood(y, p);
    assert ProcFormed(y, pp) && ProcFormed(z, pp);
    assert pp.used && pp.pfcore ==> Resident(z.segs, pp.segp, NUSEG);
    if Forking(pp.doing) {
      ChildApart(y, z, a, b, p);
      assert z.procs[pp.doing.child] == y.procs[pp.doing.child];
      assert ChildGood(z, p);
    }
  }

  lemma {:induction false} GoodAgain(y: State, z: State, a: nat, b: nat)
    requires Good(y) && Formed(z) && Touches(y, z, a, b) && SwapperGood(z) && ProcGood(z, a) && ProcGood(z, b)
    requires Forking(z.procs[a].doing) ==>
      z.procs[a].doing.child == if Forking(y.procs[a].doing) then y.procs[a].doing.child else b
    requires a != b ==> z.procs[b].doing.Running?
    ensures Good(z)
  {
    hide ProcGood, SwapperGood, Formed;
    forall p {:trigger ProcGood(z, p)} | 0 <= p < |z.procs|
      ensures ProcGood(z, p) && (p != a && p != b && Forking(y.procs[p].doing) ==> y.procs[p].doing.child != b)
    {
      if p != a && p != b { Untouched(y, z, a, b, p); }
    }
    forall p, q {:trigger z.procs[p], z.procs[q]} |
      0 <= p < q < |z.procs| && Forking(z.procs[p].doing) && Forking(z.procs[q].doing)
      ensures z.procs[p].doing.child != z.procs[q].doing.child
    {
      assert (p == a || p != b) && (q == a || q != b);
      assert p != a ==> z.procs[p] == y.procs[p];
      assert q != a ==> z.procs[q] == y.procs[q];
      assert p != a ==> ProcGood(z, p);
      assert q != a ==> ProcGood(z, q);
    }
  }

  lemma {:induction false} DiskGood(y: State, ok: bool)
    requires Inv(y) && Can(y, OutNext(ok)) && y.sw.i < NUSEG
    ensures Good(DiskStep(y, ok))
  {
    hide Names, Locks, Counts;
    var p := y.sw.p;
    assert ProcFormed(y, y.procs[p]) && ProcGood(y, p);
    GoodAgain(y, DiskStep(y, ok), p, p);
  }

  lemma {:induction false} DiskEndKeeps(y: State)
    requires Inv(y) && Can(y, OutNext(true)) && y.sw.i == NUSEG
    ensures Inv(DiskEnd(y))
  {
    hide Names, Locks, Counts;
    var p := y.sw.p;
    assert ProcFormed(y, y.procs[p]) && ProcGood(y, p);
    CountsOne(y, DiskEnd(y), p, 0);
    GoodAgain(y, DiskEnd(y), p, p);
  }

  lemma {:induction false} CoreGood(y: State, ok: bool)
    requires Inv(y) && Can(y, InNext(ok)) && y.sw.i < NUSEG
    ensures Good(CoreStep(y, ok))
  {
    hide Names, Locks, Counts, SameBut;
    var p := y.sw.p;
    CoreEntries(y, ok);
    assert ProcFormed(y, y.procs[p]) && ProcGood(y, p);
    assert SegsKeep(y, CoreStep(y, ok));
    GoodAgain(y, CoreStep(y, ok), p, p);
  }

  lemma {:induction false} CoreEndKeeps(y: State)
    requires Inv(y) && Can(y, InNext(true)) && y.sw.i == NUSEG
    ensures Inv(CoreEnd(y))
  {
    hide Names, Locks, Counts;
    var p := y.sw.p;
    assert ProcFormed(y, y.procs[p]) && ProcGood(y, p);
    CountsOne(y, CoreEnd(y), p, 0);
    GoodAgain(y, CoreEnd(y), p, p);
  }

  /** A copy on its way is in no slot yet. */
  lemma {:induction false} CopyApart(y: State, p: nat, q: nat, j: nat)
    requires Inv(y) && p < |y.procs| && y.procs[p].doing.Writing? && q < |y.procs| && j < NUSEG
    ensures y.procs[p].doing.copy in y.segs && |y.procs[q].segp| == NUSEG && y.procs[q].segp[j] != y.procs[p].doing.copy
  {
    hide Total, Rows;
    var s := y.procs[p].doing.copy;
    assert ProcGood(y, p) && ProcFormed(y, y.procs[p]) && ProcFormed(y, y.procs[q]);
    assert y.segs[s].urefc == Names(y, s);
    if y.procs[q].segp[j] == s { HasTwo(y, p, NUSEG + 1, q, j, s, false); }
  }

  lemma {:induction false} DoneGood(y: State)
    requires Inv(y) && !y.sw.task.Idle? && y.sw.io
    ensures Good(Done(y))
  {
    hide Names, Locks, Counts;
    var z := Done(y);
    var s := y.procs[y.sw.p].segp[y.sw.i];
    assert ProcFormed(y, y.procs[y.sw.p]) && ProcGood(y, y.sw.p);
    forall p {:trigger ProcGood(z, p)} | 0 <= p < |z.procs| ensures ProcGood(z, p) {
      assert ProcGood(y, p) && ProcFormed(y, y.procs[p]);
      if y.procs[p].doing.Writing? { CopyApart(y, p, y.sw.p, y.sw.i); }
      if y.sw.task.Out? {
        forall k: nat {:trigger EntryAt(y, p, k)} | k < WIDTH
          ensures Hit(EntryAt(y, p, k), s, true) == 0
        {
          Alone(y, s, p, k);
        }
        assert Holds(y.procs[p].doing) ==> EntryAt(y, p, NUSEG).seg != s;
        forall k | 0 <= k < NUSEG && y.procs[p].used && y.procs[p].pfcore
          ensures y.procs[p].segp[k] != s
        {
          assert Hit(EntryAt(y, p, k), s, true) == 0;
        }
      }
    }
  }

  // ----- the steps that change no reference -----------------------------------------------------

  lemma {:induction false} ForkBeginKeeps(y: State, p: nat, c: nat)
    requires Inv(y) && Can(y, ForkBegin(p, c))
    ensures Inv(Step(y, ForkBegin(p, c)))
  {
    hide Names, Locks, Counts;
    var z := Step(y, ForkBegin(p, c));
    assert ProcGood(y, p) && ProcGood(y, c) && ProcFormed(y, y.procs[c]) && ProcFormed(y, y.procs[p]);
    CountsOne(y, z, p, 0);
    GoodAgain(y, z, p, c);
  }

  lemma {:induction false} ForkEndKeeps(y: State, p: nat)
    requires Inv(y) && Can(y, ForkEnd(p))
    ensures Inv(Step(y, ForkEnd(p)))
  {
    hide Names, Locks, Counts;
    var z := Step(y, ForkEnd(p));
    var c := y.procs[p].doing.child;
    assert ProcGood(y, p) && ProcGood(y, c) && ProcFormed(y, y.procs[p]) && ProcFormed(y, y.procs[c]);
    CountsOne(y, z, p, 0);
    GoodAgain(y, z, p, c);
  }

  lemma {:induction false} ReleaseKeeps(y: State, p: nat)
    requires Inv(y) && Can(y, Release(p))
    ensures Inv(Step(y, Release(p)))
  {
    hide Names, Locks, Counts;
    var z := Step(y, Release(p));
    assert ProcGood(y, p) && ProcFormed(y, y.procs[p]);
    CountsOne(y, z, p, 0);
    GoodAgain(y, z, p, p);
  }

  lemma {:induction false} OutBeginKeeps(y: State, p: nat)
    requires Inv(y) && Can(y, OutBegin(p))
    ensures Inv(Step(y, OutBegin(p)))
  {
    hide Names, Locks, Counts;
    var z := Step(y, OutBegin(p));
    assert ProcGood(y, p) && ProcFormed(y, y.procs[p]);
    CountsOne(y, z, p, 0);
    GoodAgain(y, z, p, p);
  }

  lemma {:induction false} InBeginKeeps(y: State, p: nat)
    requires Inv(y) && Can(y, InBegin(p))
    ensures Inv(Step(y, InBegin(p)))
  {
    hide Names, Locks, Counts;
    var z := Step(y, InBegin(p));
    assert ProcGood(y, p) && ProcFormed(y, y.procs[p]);
    CountsOne(y, z, p, 0);
    GoodAgain(y, z, p, p);
  }

  // ----- fork -----------------------------------------------------------------------------------

  /** Only the place in the code changes. */
  lemma {:induction false} GoToKeeps(y: State, p: nat, d: Doing)
    requires Inv(y) && CanRun(y, p) && !Holds(y.procs[p].doing) && !Holds(d)
    requires Forking(d) ==>
      Forking(y.procs[p].doing) && d.child == y.procs[p].doing.child && d.n <= NUSEG
      && NoneFrom(y.procs[d.child].segp, d.n)
    requires d.Exiting? ==> d.n <= NUSEG && NoneFrom(y.procs[p].segp, d.n)
    ensures Inv(GoTo(y, p, d))
  {
    hide Names, Locks, Counts;
    var z := GoTo(y, p, d);
    assert ProcGood(y, p) && ProcFormed(y, y.procs[p]);
    CountsOne(y, z, p, 0);
    GoodAgain(y, z, p, p);
  }

  /** What a fork has filled so far. */
  lemma {:induction false} Unfilled(y: State, p: nat)
    requires Inv(y) && p < |y.procs| && Forking(y.procs[p].doing)
    ensures NoneFrom(y.procs[y.procs[p].doing.child].segp, y.procs[p].doing.n) && y.procs[p].doing.n <= NUSEG
    ensures p != y.procs[p].doing.child
  {
    assert ProcGood(y, p);
  }

  lemma {:induction false} ShareKeeps(y: State, p: nat)
    requires Inv(y) && Copies(y, p)
    requires var s := y.procs[p].segp[y.procs[p].doing.n]; s != NULL && y.segs[s].shared && y.segs[s].urefc < MAXREF
    ensures Inv(Share(y, p))
  {
    hide Names, Locks, Counts;
    var z := Share(y, p);
    var c, n := y.procs[p].doing.child, y.procs[p].doing.n;
    assert ProcGood(y, p) && ProcGood(y, c) && ProcFormed(y, y.procs[p]) && ProcFormed(y, y.procs[c]);
    CountsOne(y, z, c, n);
    if y.sw.task.Out? && y.sw.io { Alone(y, y.procs[y.sw.p].segp[y.sw.i], p, n); }
    GoodAgain(y, z, p, c);
  }

  lemma {:induction false} CopyInCoreCounts(y: State, p: nat, t: int)
    requires Inv(y) && Copies(y, p) && t != NULL && t !in y.segs
    ensures Counts(CopyInCore(y, p, t))
  {
    hide Names, Locks, Counts;
    var c, n := y.procs[p].doing.child, y.procs[p].doing.n;
    assert ProcGood(y, p) && ProcGood(y, c) && ProcFormed(y, y.procs[p]) && ProcFormed(y, y.procs[c]);
    CountsOne(y, CopyInCore(y, p, t), c, n);
  }

  lemma {:induction false} CopyInCoreKeeps(y: State, p: nat, t: int)
    requires Inv(y) && Copies(y, p) && t != NULL && t !in y.segs
    ensures Inv(CopyInCore(y, p, t))
  {
    hide Names, Locks, Counts;
    CopyInCoreCounts(y, p, t);
    var c := y.procs[p].doing.child;
    assert ProcGood(y, p) && ProcGood(y, c) && ProcFormed(y, y.procs[p]) && ProcFormed(y, y.procs[c]);
    GoodAgain(y, CopyInCore(y, p, t), p, c);
  }

  lemma {:induction false} CopyOutKeeps(y: State, p: nat, t: int)
    requires Inv(y) && Copies(y, p) && t != NULL && t !in y.segs
    requires var s := y.procs[p].segp[y.procs[p].doing.n]; s != NULL && !y.segs[s].shared
    ensures Inv(CopyOut(y, p, t))
  {
    hide Names, Locks, Counts;
    var z := CopyOut(y, p, t);
    var c, n := y.procs[p].doing.child, y.procs[p].doing.n;
    assert ProcGood(y, p) && ProcGood(y, c) && ProcFormed(y, y.procs[p]) && ProcFormed(y, y.procs[c]);
    CountsThree(y, z, p, 0, p, NUSEG, p, NUSEG + 1);
    if y.sw.task.Out? && y.sw.io { Alone(y, y.procs[y.sw.p].segp[y.sw.i], p, n); }
    GoodAgain(y, z, p, p);
  }

  lemma {:induction false} DuplicateKeeps(y: State, p: nat, room: Room, t: int)
    requires Inv(y) && Copies(y, p) && t != NULL && t !in y.segs
    ensures Inv(Duplicate(y, p, room, t))
  {
    hide Inv;
    InvFormed(y);
    Unfilled(y, p);
    var c, n := y.procs[p].doing.child, y.procs[p].doing.n;
    var s := y.procs[p].segp[n];
    if s == NULL { GoToKeeps(y, p, Copying(c, n + 1)); }
    else if y.segs[s].shared {
      if y.segs[s].urefc >= MAXREF { GoToKeeps(y, p, Undoing(c, n)); } else { ShareKeeps(y, p); }
    }
    else if room == Memory { CopyInCoreKeeps(y, p, t); }
    else if room == Disk { CopyOutKeeps(y, p, t); }
    else { GoToKeeps(y, p, Undoing(c, n)); }
  }

  lemma {:induction false} InvFormed(y: State)
    requires Inv(y)
    ensures Formed(y)
  {
  }

  lemma {:induction false} WrittenCounts(y: State, p: nat)
    requires Inv(y) && Can(y, ForkWritten(p))
    ensures Counts(Written(y, p))
  {
    hide Names, Locks;
    var z := Written(y, p);
    var c, n := y.procs[p].doing.child, y.procs[p].doing.n;
    assert ProcGood(y, p) && ProcGood(y, c) && ProcFormed(y, y.procs[p]) && ProcFormed(y, y.procs[c]);
    CountsThree(y, z, c, n, p, NUSEG, p, NUSEG + 1);
  }

  lemma {:induction false} WrittenGood(y: State, p: nat)
    requires Inv(y) && Can(y, ForkWritten(p))
    ensures Good(Written(y, p))
  {
    hide Names, Locks, Counts;
    var z := Written(y, p);
    var c, n := y.procs[p].doing.child, y.procs[p].doing.n;
    assert ProcGood(y, p) && ProcGood(y, c) && ProcFormed(y, y.procs[p]) && ProcFormed(y, y.procs[c]);
    if y.sw.task.Out? && y.sw.io { Alone(y, y.procs[y.sw.p].segp[y.sw.i], p, NUSEG); }
    GoodAgain(y, z, p, c);
  }

  lemma {:induction false} GateKeeps(y: State, p: nat)
    requires Inv(y) && Can(y, ForkGate(p))
    ensures Inv(Step(y, ForkGate(p)))
  {
    hide Names, Locks, Counts;
    var z := Step(y, ForkGate(p));
    assert ProcGood(y, p) && ProcFormed(y, y.procs[p]);
    CountsOne(y, z, p, 0);
    GoodAgain(y, z, p, p);
  }

  // ----- raw transfers ------------------------------------------------------------------------------

  lemma {:induction false} RawKeeps(y: State, p: nat, n: nat)
    requires Inv(y) && Can(y, RawBegin(p, n))
    ensures Inv(Step(y, RawBegin(p, n)))
  {
    hide Names, Locks, Counts;
    var z := Step(y, RawBegin(p, n));
    assert ProcGood(y, p) && ProcFormed(y, y.procs[p]);
    CountsOne(y, z, p, NUSEG);
    if y.sw.task.Out? && y.sw.io { Alone(y, y.procs[y.sw.p].segp[y.sw.i], p, n); }
    GoodAgain(y, z, p, p);
  }

  lemma {:induction false} RawEndKeeps(y: State, p: nat)
    requires Inv(y) && Can(y, RawEnd(p))
    ensures Inv(Step(y, RawEnd(p)))
  {
    hide Names, Locks, Counts;
    var z := Step(y, RawEnd(p));
    assert ProcGood(y, p) && ProcFormed(y, y.procs[p]);
    CountsOne(y, z, p, NUSEG);
    if y.sw.task.Out? && y.sw.io { Alone(y, y.procs[y.sw.p].segp[y.sw.i], p, NUSEG); }
    GoodAgain(y, z, p, p);
  }

  // ----- sfree ------------------------------------------------------------------------------------

  /** q is a process that is giving up its segments, or the child of a fork that is undone by p. */
  predicate Frees(y: State, p: nat, q: nat)
    requires Formed(y)
  {
    && CanRun(y, p)
    && if p == q then y.procs[p].doing.Exiting? else y.procs[p].doing.Undoing? && q == y.procs[p].doing.child
  }

  /** The last reference to a segment leaves no other pointer to it and no lock on it. */
  lemma {:induction false} LastOne(y: State, p: nat, q: nat, j: nat)
    requires Inv(y) && Frees(y, p, q) && j < NUSEG && y.procs[q].segp[j] != NULL
    requires y.segs[y.procs[q].segp[j]].urefc == 1
    ensures y.segs[y.procs[q].segp[j]].lrefc == 1 && !HeldBySwapper(y, y.procs[q].segp[j])
    ensures forall r, k {:trigger EntryAt(y, r, k)} :: 0 <= r < |y.procs| && 0 <= k < WIDTH && (r != q || k != j) ==>
      EntryAt(y, r, k).seg != y.procs[q].segp[j]
  {
    hide Total, Rows;
    var s := y.procs[q].segp[j];
    assert ProcGood(y, p) && ProcFormed(y, y.procs[q]) && ProcGood(y, q);
    assert y.segs[s].urefc == Names(y, s);
    forall r, k {:trigger EntryAt(y, r, k)} | 0 <= r < |y.procs| && 0 <= k < WIDTH && (r != q || k != j)
      ensures EntryAt(y, r, k).seg != s
    {
      assert ProcFormed(y, y.procs[r]);
      if EntryAt(y, r, k).seg == s { NamedToo(y, r, k, s, q, j); }
    }
    assert HeldBySwapper(y, s) ==> EntryAt(y, y.sw.p, y.sw.i).seg == s;
    OnlyLock(y, q, j, s);
  }

  /** An entry with s comes with one that is a reference to s, other than (q, j). */
  lemma {:induction false} NamedToo(y: State, r: nat, k: nat, s: int, q: nat, j: nat)
    requires Inv(y) && r < |y.procs| && k < WIDTH && (r != q || k != j) && EntryAt(y, r, k).seg == s && s != NULL
    requires q < |y.procs| && j < NUSEG && Hit(EntryAt(y, q, j), s, false) == 1 && !Holds(y.procs[q].doing)
    ensures Names(y, s) >= 2
  {
    hide Total, Rows;
    assert ProcFormed(y, y.procs[r]);
    if k == NUSEG {
      assert EntryAt(y, r, y.procs[r].doing.n).seg == s;
      HasTwo(y, q, j, r, y.procs[r].doing.n, s, false);
    } else {
      HasTwo(y, q, j, r, k, s, false);
    }
  }

  lemma {:induction false} OnlyLock(y: State, q: nat, j: nat, s: int)
    requires Inv(y) && q < |y.procs| && j < NUSEG && s != NULL && s in y.segs
    requires EntryAt(y, q, j) == Entry(s, true, true) && !HeldBySwapper(y, s)
    requires forall r, k {:trigger EntryAt(y, r, k)} ::
      0 <= r < |y.procs| && 0 <= k < WIDTH && (r != q || k != j) ==> EntryAt(y, r, k).seg != s
    ensures y.segs[s].lrefc == 1
  {
    hide EntryAt, Formed;
    var rows := Put(Rows(y), q, j, NOTHING);
    TotalPut(Rows(y), q, j, NOTHING, |rows|, s, true);
    forall r, k {:trigger rows[r][k]} | 0 <= r < |rows| && 0 <= k < |rows[r]| ensures Hit(rows[r][k], s, true) == 0 {
      if r != q || k != j { assert rows[r][k] == EntryAt(y, r, k); }
    }
    TotalNone(rows, |rows|, s, true);
    assert Rows(y)[q][j] == EntryAt(y, q, j);
    assert y.segs[s].lrefc == Locks(y, s);
  }

  lemma {:induction false} EmptyFormed(y: State, p: nat, q: nat, j: nat)
    requires Inv(y) && Frees(y, p, q) && j < NUSEG
    ensures Formed(Empty(y, q, j))
  {
    hide Names, Locks, Counts;
    var z := Empty(y, q, j);
    var s := y.procs[q].segp[j];
    assert ProcGood(y, p) && ProcGood(y, q);
    if s != NULL && y.segs[s].urefc == 1 { LastOne(y, p, q, j); }
    forall r {:trigger z.procs[r]} | 0 <= r < |z.procs| ensures ProcFormed(z, z.procs[r]) {
      assert ProcFormed(y, y.procs[r]);
      if s != NULL && y.segs[s].urefc == 1 {
        forall k | 0 <= k < NUSEG && (r != q || k != j)
          ensures y.procs[r].segp[k] != s
        {
          assert EntryAt(y, r, k).seg != s;
        }
        assert EntryAt(y, r, NUSEG + 1).seg != s;
      }
    }
  }

  lemma {:induction false} EmptyCounts(y: State, p: nat, q: nat, j: nat)
    requires Inv(y) && Frees(y, p, q) && j < NUSEG
    ensures Counts(Empty(y, q, j))
  {
    hide Names, Locks, Counts;
    var s := y.procs[q].segp[j];
    EmptyFormed(y, p, q, j);
    assert ProcGood(y, p) && ProcGood(y, q) && ProcFormed(y, y.procs[q]);
    if s != NULL && y.segs[s].urefc == 1 { LastOne(y, p, q, j); }
    CountsOne(y, Empty(y, q, j), q, j);
  }

  lemma {:induction false} EmptyKeeps(y: State, p: nat, q: nat, j: nat)
    requires Inv(y) && Frees(y, p, q) && j < NUSEG
    ensures Inv(Empty(y, q, j))
  {
    hide Names, Locks, Counts;
    EmptyFormed(y, p, q, j);
    EmptyCounts(y, p, q, j);
    assert ProcGood(y, p) && ProcGood(y, q) && ProcFormed(y, y.procs[q]) && ProcFormed(y, y.procs[p]);
    if y.sw.task.Out? && y.sw.io { Alone(y, y.procs[y.sw.p].segp[y.sw.i], q, j); }
    GoodAgain(y, Empty(y, q, j), p, q);
  }

  lemma {:induction false} ExitKeeps(y: State, p: nat)
    requires Inv(y) && Can(y, ExitNext(p))
    ensures Inv(Exit(y, p))
  {
    hide Inv;
    NoneAbove(y, p);
    EmptyKeeps(y, p, p, y.procs[p].doing.n - 1);
    GoToKeeps(Empty(y, p, y.procs[p].doing.n - 1), p, Exiting(y.procs[p].doing.n - 1));
  }

  lemma {:induction false} NoneAbove(y: State, p: nat)
    requires Inv(y) && p < |y.procs| && y.procs[p].doing.Exiting?
    ensures Formed(y) && NoneFrom(y.procs[p].segp, y.procs[p].doing.n)
  {
    assert ProcGood(y, p);
  }

  lemma {:induction false} GiveUpKeeps(y: State, p: nat)
    requires Inv(y) && Can(y, ForkUndo(p)) && y.procs[p].doing.n == 0
    ensures Inv(Undo(y, p))
  {
    hide Names, Locks, Counts, Empty;
    var c := y.procs[p].doing.child;
    assert ProcGood(y, p) && ProcGood(y, c) && ProcFormed(y, y.procs[p]) && ProcFormed(y, y.procs[c]);
    CountsOne(y, Undo(y, p), p, 0);
    GoodAgain(y, Undo(y, p), p, c);
  }

  lemma {:induction false} UndoKeeps(y: State, p: nat)
    requires Inv(y) && Can(y, ForkUndo(p))
    ensures Inv(Undo(y, p))
  {
    hide Inv;
    InvFormed(y);
    Unfilled(y, p);
    var c, n := y.procs[p].doing.child, y.procs[p].doing.n;
    if n == 0 {
      GiveUpKeeps(y, p);
    } else {
      EmptyKeeps(y, p, c, n - 1);
      GoToKeeps(Empty(y, c, n - 1), p, Undoing(c, n - 1));
    }
  }

  /** Every step of every process and of the swapper keeps it all. */
  lemma {:induction false} StepKeeps(y: State, a: Action)
    requires Inv(y) && Can(y, a)
    ensures Inv(Step(y, a))
  {
    hide Good, Counts;
    InvFormed(y);
    match a
    case ForkBegin(p, c) => ForkBeginKeeps(y, p, c);
    case ForkNext(p, room, t) => DuplicateKeeps(y, p, room, t);
    case ForkGate(p) => GateKeeps(y, p);
    case ForkWritten(p) => WrittenCounts(y, p); WrittenGood(y, p);
    case ForkUndo(p) => UndoKeeps(y, p);
    case ForkEnd(p) => ForkEndKeeps(y, p);
    case RawBegin(p, n) => RawKeeps(y, p, n);
    case RawEnd(p) => RawEndKeeps(y, p);
    case ExitBegin(p) => GoToKeeps(y, p, Exiting(NUSEG));
    case ExitNext(p) => ExitKeeps(y, p);
    case Release(p) => ReleaseKeeps(y, p);
    case OutBegin(p) => OutBeginKeeps(y, p);
    case OutNext(ok) => if y.sw.i == NUSEG { DiskEndKeeps(y); } else { DiskCounts(y, ok); DiskGood(y, ok); }
    case OutWritten => DoneCounts(y); DoneGood(y);
    case InBegin(p) => InBeginKeeps(y, p);
    case InNext(ok) => if y.sw.i == NUSEG { CoreEndKeeps(y); } else { CoreCounts(y, ok); CoreGood(y, ok); }
    case InRead => DoneCounts(y); DoneGood(y);
  }

  // ----- whole runs -------------------------------------------------------------------------------

  /** The first process, with segments of its own; the other slots of the table are free. */
  ghost predicate Init(y: State) {
    && Formed(y) && y.sw.task.Idle? && |y.procs| > 0 && y.procs[0].used && y.procs[0].pfcore
    && (forall p {:trigger y.procs[p]} :: 0 <= p < |y.procs| ==>
          && !y.procs[p].pfswap && !y.procs[p].pfswio && y.procs[p].doing.Running?
          && (p > 0 ==> !y.procs[p].used && NoneFrom(y.procs[p].segp, 0)))
    && (forall i, j {:trigger y.procs[0].segp[i], y.procs[0].segp[j]} ::
          0 <= i < j < NUSEG && y.procs[0].segp[i] == y.procs[0].segp[j] ==> y.procs[0].segp[i] == NULL)
    && (forall s {:trigger y.segs[s]} :: s in y.segs ==>
          s in y.procs[0].segp && y.segs[s] == Seg(1, 1, true, y.segs[s].shared))
  }

  ghost predicate Reaches(y: State, acts: seq<Action>, z: State)
    decreases |acts|
  {
    if acts == [] then z == y
    else Formed(y) && Can(y, acts[0]) && Reaches(Step(y, acts[0]), acts[1..], z)
  }

  lemma {:induction false} InitHolds(y: State)
    requires Init(y)
    ensures Inv(y)
  {
    hide Rows, Total;
    forall s {:trigger y.segs[s]} | s in y.segs
      ensures y.segs[s].urefc == Names(y, s) && y.segs[s].lrefc == Locks(y, s)
    {
      var j :| 0 <= j < NUSEG && y.procs[0].segp[j] == s;
      InitOne(y, s, j);
    }
    forall p {:trigger ProcGood(y, p)} | 0 <= p < |y.procs| ensures ProcGood(y, p) {}
  }

  lemma {:induction false} InitOne(y: State, s: int, j: nat)
    requires Init(y) && s in y.segs && j < NUSEG && y.procs[0].segp[j] == s
    ensures Names(y, s) == 1 == Locks(y, s)
  {
    hide Total;
    forall locks ensures Total(Rows(y), |Rows(y)|, s, locks) == 1 {
      var rows := Put(Rows(y), 0, j, NOTHING);
      TotalPut(Rows(y), 0, j, NOTHING, |rows|, s, locks);
      forall r, k {:trigger rows[r][k]} | 0 <= r < |rows| && 0 <= k < |rows[r]| ensures Hit(rows[r][k], s, locks) == 0 {
        if r != 0 || k != j {
          assert rows[r][k] == EntryAt(y, r, k);
          assert ProcFormed(y, y.procs[r]);
        }
      }
      TotalNone(rows, |rows|, s, locks);
      assert Rows(y)[0][j] == EntryAt(y, 0, j);
    }
  }

  lemma {:induction false} RunKeeps(y: State, acts: seq<Action>, z: State)
    requires Inv(y) && Reaches(y, acts, z)
    ensures Inv(z)
    decreases |acts|
  {
    if acts != [] {
      StepKeeps(y, acts[0]);
      RunKeeps(Step(y, acts[0]), acts[1..], z);
    }
  }

  // ----- the counts as one would take them from the process table ----------------------------------

  function SlotsOf(segp: seq<int>, k: nat, s: int): nat
    requires k <= |segp|
  {
    if k == 0 then 0 else SlotsOf(segp, k - 1, s) + if segp[k - 1] == s then 1 else 0
  }

  /** Slots of processes that name segment s: of all, or of those not marked PFSWAP. */
  function Slots(procs: seq<Proc>, k: nat, s: int, unswapped: bool): nat
    requires k <= |procs|
  {
    if k == 0 then 0
    else
      var pp := procs[k - 1];
      Slots(procs, k - 1, s, unswapped) + if unswapped && pp.pfswap then 0 else SlotsOf(pp.segp, |pp.segp|, s)
  }

  predicate HoldsFormed(procs: seq<Proc>) {
    forall p {:trigger procs[p]} :: 0 <= p < |procs| && Holds(procs[p].doing) ==> procs[p].doing.n < |procs[p].segp|
  }

  /** Locks on s of processes, for copies and raw transfers. */
  function Transfers(procs: seq<Proc>, k: nat, s: int): nat
    requires k <= |procs| && HoldsFormed(procs)
  {
    if k == 0 then 0
    else
      var pp := procs[k - 1];
      Transfers(procs, k - 1, s) + if Holds(pp.doing) && pp.segp[pp.doing.n] == s then 1 else 0
  }

  /** Copies for children that are on their way and are segment s. */
  function OnTheWay(procs: seq<Proc>, k: nat, s: int): nat
    requires k <= |procs|
  {
    if k == 0 then 0
    else
      var pp := procs[k - 1];
      OnTheWay(procs, k - 1, s) + if pp.doing.Writing? && pp.doing.copy == s then 1 else 0
  }

  /** The transient locks on s, the swapper's included. */
  function Transient(y: State, s: int): nat
    requires Formed(y)
  {
    FormedHolds(y);
    Transfers(y.procs, |y.procs|, s) + if HeldBySwapper(y, s) then 1 else 0
  }

  lemma {:induction false} FormedHolds(y: State)
    requires Formed(y)
    ensures HoldsFormed(y.procs)
    ensures forall p {:trigger y.procs[p]} :: 0 <= p < |y.procs| ==> |y.procs[p].segp| == NUSEG
  {
    forall p {:trigger y.procs[p]} | 0 <= p < |y.procs| ensures ProcFormed(y, y.procs[p]) {}
  }

  /** Whether the swapper is in procdisk for a process that was not swapped out when it began. */
  predicate Leaves(y: State) { y.sw.task.Out? && !y.sw.f }

  /** How many slots of that process procdisk has seen that name s: they are off s_lrefc, and
      the process is not marked PFSWAP yet. */
  function Seen(y: State, s: int): nat
    requires Formed(y) && Leaves(y)
  {
    FormedHolds(y);
    SlotsOf(y.procs[y.sw.p].segp, y.sw.i + if y.sw.io then 1 else 0, s)
  }

  /** No transfer locks s, and it is not a copy on its way. */
  predicate Quiet(y: State, s: int)
    requires Formed(y)
  {
    Transient(y, s) == 0 && OnTheWay(y.procs, |y.procs|, s) == 0
  }

  lemma {:induction false} RowSlots(y: State, p: nat, k: nat, s: int)
    requires Formed(y) && p < |y.procs| && k <= NUSEG && s != NULL && (On(y, p) ==> y.sw.f == y.procs[p].pfswap)
    ensures Tally(Rows(y)[p], k, s, false) == SlotsOf(y.procs[p].segp, k, s)
    ensures Leaves(y) && On(y, p) ==>
      (var seen := y.sw.i + if y.sw.io then 1 else 0;
       Tally(Rows(y)[p], k, s, true) + SlotsOf(y.procs[p].segp, if k < seen then k else seen, s) ==
         SlotsOf(y.procs[p].segp, k, s))
    ensures !On(y, p) || (y.sw.task.Out? && y.sw.f) ==>
      Tally(Rows(y)[p], k, s, true) == if y.procs[p].pfswap then 0 else SlotsOf(y.procs[p].segp, k, s)
    ensures On(y, p) && y.sw.task.In? ==>
      Tally(Rows(y)[p], k, s, true) >= if y.procs[p].pfswap then 0 else SlotsOf(y.procs[p].segp, k, s)
  {
    if k > 0 {
      RowSlots(y, p, k - 1, s);
      assert Rows(y)[p][k - 1] == EntryAt(y, p, k - 1);
    }
  }

  lemma {:induction false} WholeRow(y: State, p: nat, s: int, locks: bool)
    requires Formed(y) && p < |y.procs| && s != NULL
    ensures |Rows(y)[p]| == WIDTH
    ensures Tally(Rows(y)[p], WIDTH, s, locks) ==
      Tally(Rows(y)[p], NUSEG, s, locks) + Hit(EntryAt(y, p, NUSEG), s, locks) + Hit(EntryAt(y, p, NUSEG + 1), s, locks)
  {
    assert Rows(y)[p][NUSEG] == EntryAt(y, p, NUSEG) && Rows(y)[p][NUSEG + 1] == EntryAt(y, p, NUSEG + 1);
  }

  /** What process p adds to the counts by its slots, and what it locks besides. */
  lemma {:induction false} RowFacts(y: State, p: nat, s: int)
    requires Inv(y) && p < |y.procs| && s != NULL
    ensures |Rows(y)[p]| == WIDTH
    ensures var pp := y.procs[p];
      var all, some := SlotsOf(pp.segp, NUSEG, s), if pp.pfswap then 0 else SlotsOf(pp.segp, NUSEG, s);
      var copies := if pp.doing.Writing? && pp.doing.copy == s then 1 else 0;
      var holds := if Holds(pp.doing) && pp.segp[pp.doing.n] == s then 1 else 0;
      && Tally(Rows(y)[p], WIDTH, s, false) == all + copies
      && (Leaves(y) ==>
            Tally(Rows(y)[p], WIDTH, s, true) + (if On(y, p) then Seen(y, s) else 0) == some + copies + holds)
      && (y.sw.task.Idle? || (y.sw.task.Out? && y.sw.f) ==> Tally(Rows(y)[p], WIDTH, s, true) == some + copies + holds)
      && (y.sw.task.In? ==> Tally(Rows(y)[p], WIDTH, s, true) >= some + copies + holds)
  {
    hide Rows, Tally, Inv;
    Facts(y);
    RowSlots(y, p, NUSEG, s);
    WholeRow(y, p, s, false);
    WholeRow(y, p, s, true);
    assert ProcFormed(y, y.procs[p]);
  }

  lemma {:induction false} AllNames(y: State, k: nat, s: int)
    requires Inv(y) && k <= |y.procs| && s != NULL
    ensures Formed(y) && |Rows(y)| == |y.procs|
    ensures Total(Rows(y), k, s, false) == Slots(y.procs, k, s, false) + OnTheWay(y.procs, k, s)
  {
    hide Rows, Tally, Inv, SlotsOf;
    Facts(y);
    FormedHolds(y);
    if k > 0 {
      AllNames(y, k - 1, s);
      RowFacts(y, k - 1, s);
    }
  }

  lemma {:induction false} AllLocks(y: State, k: nat, s: int)
    requires Inv(y) && Formed(y) && k <= |y.procs| && s != NULL
    requires HoldsFormed(y.procs)
    ensures |Rows(y)| == |y.procs|
    ensures Leaves(y) ==>
      (Total(Rows(y), k, s, true) + (if y.sw.p < k then Seen(y, s) else 0)
       == Slots(y.procs, k, s, true) + OnTheWay(y.procs, k, s) + Transfers(y.procs, k, s))
    ensures y.sw.task.Idle? || (y.sw.task.Out? && y.sw.f) ==>
      Total(Rows(y), k, s, true) == Slots(y.procs, k, s, true) + OnTheWay(y.procs, k, s) + Transfers(y.procs, k, s)
    ensures y.sw.task.In? ==>
      Total(Rows(y), k, s, true) >= Slots(y.procs, k, s, true) + OnTheWay(y.procs, k, s) + Transfers(y.procs, k, s)
  {
    hide Rows, Tally, Inv, SlotsOf, Formed, Seen, HoldsFormed;
    Facts(y);
    if k > 0 {
      AllLocks(y, k - 1, s);
      RowFacts(y, k - 1, s);
      SlotCount(y, k - 1);
    }
  }

  lemma {:induction false} SlotCount(y: State, p: nat)
    requires Formed(y) && p < |y.procs|
    ensures |y.procs[p].segp| == NUSEG && (Holds(y.procs[p].doing) ==> y.procs[p].doing.n < NUSEG)
  {
    assert ProcFormed(y, y.procs[p]);
  }

  /** The counts against the process table, whatever the swapper is doing. */
  lemma {:induction false} AllSlots(y: State, s: int)
    requires Inv(y) && s != NULL
    ensures Formed(y) && HoldsFormed(y.procs)
    ensures Names(y, s) == Slots(y.procs, |y.procs|, s, false) + OnTheWay(y.procs, |y.procs|, s)
    ensures Leaves(y) ==>
      Locks(y, s) + Seen(y, s) == Slots(y.procs, |y.procs|, s, true) + OnTheWay(y.procs, |y.procs|, s) + Transient(y, s)
    ensures y.sw.task.Idle? || (y.sw.task.Out? && y.sw.f) ==>
      Locks(y, s) == Slots(y.procs, |y.procs|, s, true) + OnTheWay(y.procs, |y.procs|, s) + Transient(y, s)
    ensures y.sw.task.In? ==>
      Locks(y, s) >= Slots(y.procs, |y.procs|, s, true) + OnTheWay(y.procs, |y.procs|, s) + Transient(y, s)
  {
    hide Rows, Total, Inv, Seen;
    Facts(y);
    FormedHolds(y);
    AllNames(y, |y.procs|, s);
    AllLocks(y, |y.procs|, s);
  }

  lemma {:induction false} Facts(y: State)
    requires Inv(y)
    ensures Formed(y) && (!y.sw.task.Idle? ==> y.sw.f == y.procs[y.sw.p].pfswap) && |Rows(y)| == |y.procs|
  {
  }

  /** In every state that a run of forks, exits and swapping gets to: no segment is in the table
      without a slot that names it or a copy for a child on its way, and none in a slot without
      being in the table; a segment without a transfer has exactly the counts that the process
      table shows, the second one while the swapper is between two processes; and a process in
      core has all its segments in core. */
  lemma {:induction false} Safety(y: State, acts: seq<Action>, z: State)
    requires Init(y) && Reaches(y, acts, z)
    ensures Formed(z)
    ensures forall s {:trigger z.segs[s]} :: s in z.segs && Quiet(z, s) ==>
      z.segs[s].urefc == Slots(z.procs, |z.procs|, s, false) && 1 <= z.segs[s].urefc <= MAXREF
    ensures forall s {:trigger z.segs[s]} :: s in z.segs && Quiet(z, s) && z.sw.task.Idle? ==>
      z.segs[s].lrefc == Slots(z.procs, |z.procs|, s, true)
    ensures forall p, j {:trigger z.procs[p].segp[j]} ::
      0 <= p < |z.procs| && 0 <= j < NUSEG && z.procs[p].used && z.procs[p].pfcore && z.procs[p].segp[j] != NULL ==>
      z.segs[z.procs[p].segp[j]].core && !z.procs[p].pfswap
  {
    InitHolds(y);
    RunKeeps(y, acts, z);
    hide Rows, Total;
    FormedHolds(z);
    forall s {:trigger z.segs[s]} | s in z.segs && Quiet(z, s)
      ensures z.segs[s].urefc == Slots(z.procs, |z.procs|, s, false) && 1 <= z.segs[s].urefc <= MAXREF
      ensures z.sw.task.Idle? ==> z.segs[s].lrefc == Slots(z.procs, |z.procs|, s, true)
    {
      Facts(z);
      AllSlots(z, s);
    }
    forall p, j {:trigger z.procs[p].segp[j]} |
      0 <= p < |z.procs| && 0 <= j < NUSEG && z.procs[p].used && z.procs[p].pfcore && z.procs[p].segp[j] != NULL
      ensures z.segs[z.procs[p].segp[j]].core && !z.procs[p].pfswap
    {
      assert ProcGood(z, p) && ProcFormed(z, z.procs[p]);
    }
  }

  /** Neither panic is reached: a segment that is copied is in core, and the last reference to
      a segment is also the last lock. */
  lemma {:induction false} NoPanic(y: State, acts: seq<Action>, z: State)
    requires Init(y) && Reaches(y, acts, z)
    ensures Formed(z)
    ensures forall p: nat {:trigger Copies(z, p)} :: Copies(z, p) && z.procs[p].segp[z.procs[p].doing.n] != NULL ==>
      z.segs[z.procs[p].segp[z.procs[p].doing.n]].core
    ensures forall p: nat, q: nat, j {:trigger Frees(z, p, q), z.procs[q].segp[j]} ::
      Frees(z, p, q) && 0 <= j < NUSEG && z.procs[q].segp[j] != NULL && z.segs[z.procs[q].segp[j]].urefc == 1 ==>
        z.segs[z.procs[q].segp[j]].lrefc == 1
  {
    InitHolds(y);
    RunKeeps(y, acts, z);
    forall p: nat {:trigger Copies(z, p)} | Copies(z, p) && z.procs[p].segp[z.procs[p].doing.n] != NULL
      ensures z.segs[z.procs[p].segp[z.procs[p].doing.n]].core
    {
      assert ProcGood(z, p) && ProcFormed(z, z.procs[p]);
    }
    forall p: nat, q: nat, j {:trigger Frees(z, p, q), z.procs[q].segp[j]} |
      Frees(z, p, q) && 0 <= j < NUSEG && z.procs[q].segp[j] != NULL && z.segs[z.procs[q].segp[j]].urefc == 1
      ensures z.segs[z.procs[q].segp[j]].lrefc == 1
    {
      LastOne(z, p, q, j);
    }
  }

  // ----- what segmove makes of the counts --------------------------------------------------------

  /** segmove's test: the segment is resident, no owner is marked PFSWIO, and the counts are
      those of the process table. */
  predicate TestPasses(y: State, s: int) {
    && s in y.segs && y.segs[s].core && Unmarked(y, s)
    && Slots(y.procs, |y.procs|, s, false) != 0
    && Slots(y.procs, |y.procs|, s, false) == y.segs[s].urefc && Slots(y.procs, |y.procs|, s, true) == y.segs[s].lrefc
  }

  predicate Unmarked(y: State, s: int) {
    forall p, j {:trigger y.procs[p].segp[j]} ::
      0 <= p < |y.procs| && 0 <= j < |y.procs[p].segp| && y.procs[p].segp[j] == s ==> !Swio(y.procs[p])
  }

  lemma {:induction false} SomeSlot(procs: seq<Proc>, k: nat, s: int, p: nat, j: nat)
    requires p < k <= |procs| && j < |procs[p].segp| && procs[p].segp[j] == s
    ensures Slots(procs, k, s, false) >= 1
  {
    if p < k - 1 { SomeSlot(procs, k - 1, s, p, j); } else { OneSlot(procs[p].segp, |procs[p].segp|, s, j); }
  }

  lemma {:induction false} OneSlot(segp: seq<int>, k: nat, s: int, j: nat)
    requires j < k <= |segp| && segp[j] == s
    ensures SlotsOf(segp, k, s) >= 1
  {
    if j < k - 1 { OneSlot(segp, k - 1, s, j); }
  }

  /** Whoever has a lock on s has it in a slot. */
  lemma {:induction false} LockSlot(y: State, s: int) returns (p: nat, j: nat)
    requires Inv(y) && Formed(y) && Transient(y, s) > 0
    ensures p < |y.procs| && j < |y.procs[p].segp| == NUSEG && y.procs[p].segp[j] == s && s != NULL && s in y.segs
    ensures !y.sw.task.In? ==> y.segs[s].core
  {
    FormedHolds(y);
    if HeldBySwapper(y, s) {
      p, j := y.sw.p, y.sw.i;
      assert ProcFormed(y, y.procs[p]) && ProcGood(y, p);
    } else {
      p := Holder(y, |y.procs|, s);
      j := y.procs[p].doing.n;
      assert ProcFormed(y, y.procs[p]) && ProcGood(y, p);
    }
  }

  lemma {:induction false} Holder(y: State, k: nat, s: int) returns (p: nat)
    requires k <= |y.procs| && Formed(y)
    requires HoldsFormed(y.procs)
    requires Transfers(y.procs, k, s) > 0
    ensures p < k && Holds(y.procs[p].doing) && y.procs[p].segp[y.procs[p].doing.n] == s
  {
    var pp := y.procs[k - 1];
    if Holds(pp.doing) && pp.segp[pp.doing.n] == s { p := k - 1; } else { p := Holder(y, k - 1, s); }
  }

  lemma {:induction false} NotOnTheWay(y: State, k: nat, s: int, q: nat, j: nat)
    requires Inv(y) && k <= |y.procs| && q < |y.procs| && j < NUSEG && j < |y.procs[q].segp| && y.procs[q].segp[j] == s
    ensures OnTheWay(y.procs, k, s) == 0
  {
    if k > 0 {
      NotOnTheWay(y, k - 1, s, q, j);
      if y.procs[k - 1].doing.Writing? { CopyApart(y, k - 1, q, j); }
    }
  }

  /** A segment on which there is a transient lock passes the test if and only if none of its
      owners is marked PFSWIO, the swapper is in procdisk for a process that was not swapped out
      when it began, and of that process as many slots naming the segment have been seen as
      there are transient locks. */
  lemma {:induction false} TestFindsTransfers(y: State, acts: seq<Action>, z: State, s: int)
    requires Init(y) && Reaches(y, acts, z) && Formed(z) && Transient(z, s) > 0
    ensures TestPasses(z, s) <==> Unmarked(z, s) && Leaves(z) && Seen(z, s) == Transient(z, s)
  {
    InitHolds(y);
    RunKeeps(y, acts, z);
    hide Rows, Total, Init, Reaches;
    FormedHolds(z);
    var p, j := LockSlot(z, s);
    NotOnTheWay(z, |z.procs|, s, p, j);
    SomeSlot(z.procs, |z.procs|, s, p, j);
    AllSlots(z, s);
    assert z.segs[s].lrefc == Locks(z, s) && z.segs[s].urefc == Names(z, s);
  }

  /** A copy on its way has no slot yet, and never passes. */
  lemma {:induction false} TestFindsCopies(y: State, acts: seq<Action>, z: State, s: int)
    requires Init(y) && Reaches(y, acts, z) && s != NULL && OnTheWay(z.procs, |z.procs|, s) > 0
    ensures !TestPasses(z, s)
  {
    InitHolds(y);
    RunKeeps(y, acts, z);
    hide Rows, Total, Init, Reaches;
    AllSlots(z, s);
    if s in z.segs { assert z.segs[s].urefc == Names(z, s); }
  }

  lemma {:induction false} NoSlots(segp: seq<int>, k: nat, s: int)
    requires k <= |segp| && forall j {:trigger segp[j]} :: 0 <= j < k ==> segp[j] != s
    ensures SlotsOf(segp, k, s) == 0
  {
    if k > 0 { NoSlots(segp, k - 1, s); }
  }

  /** A segment that segdisk is writing has no lock but that of segdisk, so it passes the test if
      and only if the process it belongs to was not swapped out before, and has seen it once. */
  lemma {:induction false} TestWhileWritten(y: State, acts: seq<Action>, z: State)
    requires Init(y) && Reaches(y, acts, z) && Formed(z) && z.sw.task.Out? && z.sw.io
    ensures var s := z.procs[z.sw.p].segp[z.sw.i];
      Transient(z, s) == 1 && (TestPasses(z, s) <==> Leaves(z) && Seen(z, s) == 1)
  {
    InitHolds(y);
    RunKeeps(y, acts, z);
    hide Rows, Total, Init, Reaches;
    var s := z.procs[z.sw.p].segp[z.sw.i];
    FormedHolds(z);
    assert ProcFormed(z, z.procs[z.sw.p]) && ProcGood(z, z.sw.p);
    NoOther(z, |z.procs|, s);
    TestFindsTransfers(y, acts, z, s);
    forall p, j {:trigger z.procs[p].segp[j]} |
      0 <= p < |z.procs| && 0 <= j < |z.procs[p].segp| && z.procs[p].segp[j] == s
      ensures !Swio(z.procs[p])
    {
      assert ProcGood(z, p);
      Alone(z, s, p, j);
    }
  }

  lemma {:induction false} NoOther(y: State, k: nat, s: int)
    requires Inv(y) && Formed(y) && y.sw.task.Out? && y.sw.io && s == y.procs[y.sw.p].segp[y.sw.i] && k <= |y.procs|
    requires HoldsFormed(y.procs)
    ensures Transfers(y.procs, k, s) == 0
  {
    if k > 0 {
      NoOther(y, k - 1, s);
      Alone(y, s, k - 1, NUSEG);
    }
  }

  // ----- and it does happen ----------------------------------------------------------------------

  lemma {:induction false} Then(y: State, a: seq<Action>, z: State, b: seq<Action>, w: State)
    requires Reaches(y, a, z) && Reaches(z, b, w)
    ensures Reaches(y, a + b, w)
    decreases |a|
  {
    hide Formed, Can, Step;
    if a == [] {
      assert a + b == b;
    } else {
      Then(Step(y, a[0]), a[1..], z, b, w);
      assert (a + b)[0] == a[0] && (a + b)[1..] == a[1..] + b;
    }
  }

  lemma {:induction false} OneStep(y: State, a: Action, z: State)
    requires Formed(y) && Can(y, a) && Step(y, a) == z
    ensures Reaches(y, [a], z)
  {
    assert Reaches(Step(y, a), [], Step(y, a));
  }

  /** The rest of a fork of a process without further segments. */
  lemma {:induction false} BlankSlots(y: State, p: nat, t: int) returns (acts: seq<Action>)
    requires Formed(y) && CanRun(y, p) && y.procs[p].doing.Copying? && t != NULL && t !in y.segs
    requires NoneFrom(y.procs[p].segp, y.procs[p].doing.n)
    ensures Reaches(y, acts, GoTo(y, p, Copying(y.procs[p].doing.child, NUSEG)))
    decreases NUSEG - y.procs[p].doing.n
  {
    var c, n := y.procs[p].doing.child, y.procs[p].doing.n;
    assert ProcFormed(y, y.procs[p]);
    if n == NUSEG {
      assert GoTo(y, p, Copying(c, NUSEG)) == y by { assert y.procs[p].doing == Copying(c, NUSEG); }
      acts := [];
    } else {
      var z := GoTo(y, p, Copying(c, n + 1));
      OneStep(y, ForkNext(p, Memory, t), z);
      forall q {:trigger z.procs[q]} | 0 <= q < |z.procs|
        ensures ProcFormed(z, z.procs[q])
      {
        assert ProcFormed(y, y.procs[q]);
      }
      var rest := BlankSlots(z, p, t);
      assert GoTo(z, p, Copying(c, NUSEG)) == GoTo(y, p, Copying(c, NUSEG));
      Then(y, [ForkNext(p, Memory, t)], z, rest, GoTo(y, p, Copying(c, NUSEG)));
      acts := [ForkNext(p, Memory, t)] + rest;
    }
  }

  function First(s: int): seq<int> { [s, NULL, NULL, NULL, NULL, NULL, NULL, NULL] }

  function Owner(s: int, core: bool, d: Doing): Proc { Proc(s != NULL, First(s), core, false, false, d) }

  /** A child that has s so far. */
  ghost function Young(s: int): Proc { Proc(true, First(s), true, false, true, Running) }

  const Own1: map<int, Seg> := map[1 := Seg(1, 1, true, false)]
  const Own12: map<int, Seg> := Own1[2 := Seg(1, 1, true, false)]
  const Own123: map<int, Seg> := Own12[1 := Seg(1, 2, true, false)][3 := Seg(1, 1, false, false)]
  const Nobody: Proc := Owner(NULL, false, Running)

  ghost function Three(segs: map<int, Seg>, p0: Proc, p1: Proc, p2: Proc, sw: Swapper): State {
    State(segs, [p0, p1, p2], sw)
  }

  /** Each process by itself makes the state a formed one. */
  lemma {:induction false} ThreeFormed(segs: map<int, Seg>, p0: Proc, p1: Proc, p2: Proc, sw: Swapper)
    requires NULL !in segs
    requires (sw.task.Idle? ||
      (sw.p == 0 && sw.i <= NUSEG && (sw.io ==> sw.i < NUSEG && |p0.segp| == NUSEG && p0.segp[sw.i] != NULL)))
    requires var y := Three(segs, p0, p1, p2, sw); ProcFormed(y, p0) && ProcFormed(y, p1) && ProcFormed(y, p2)
    ensures Formed(Three(segs, p0, p1, p2, sw))
  {
  }

  /** One process forks, */
  ghost function OneProcess(): State { Three(Own1, Owner(1, true, Running), Nobody, Nobody, AtRest) }
  ghost function Forking0(): State { Three(Own1, Owner(1, true, Copying(1, 0)), Young(NULL), Nobody, AtRest) }
  ghost function Forking1(): State { Three(Own12, Owner(1, true, Copying(1, 1)), Young(2), Nobody, AtRest) }
  ghost function Forking8(): State { Three(Own12, Owner(1, true, Copying(1, NUSEG)), Young(2), Nobody, AtRest) }
  ghost function TwoProcesses(): State {
    Three(Own12, Owner(1, true, Running), Owner(2, true, Running), Nobody, AtRest)
  }

  /** and is swapped out; */
  ghost function Leaving0(): State {
    Three(Own12, Owner(1, false, Running), Owner(2, true, Running), Nobody, Swapper(Out, 0, 0, false, 0, false))
  }

  ghost function WrittenState(): State {
    Three(Own12, Owner(1, false, Running), Owner(2, true, Running), Nobody, Swapper(Out, 0, 0, false, 0, true))
  }

  /** or it forks once more, and is swapped out while it waits at the gate. */
  ghost function Again0(): State {
    Three(Own12, Owner(1, true, Copying(2, 0)), Owner(2, true, Running), Young(NULL), AtRest)
  }

  ghost function Again1(): State {
    Three(Own123, Owner(1, true, Writing(2, 0, 3, false)), Owner(2, true, Running), Young(NULL), AtRest)
  }

  ghost function Waiting0(): State {
    Three(Own123, Owner(1, false, Writing(2, 0, 3, false)), Owner(2, true, Running), Young(NULL),
          Swapper(Out, 0, 0, false, 0, false))
  }

  ghost function WaitingState(): State {
    Three(Lock(Own123, 1, -1), Owner(1, false, Writing(2, 0, 3, false)), Owner(2, true, Running), Young(NULL),
          Swapper(Out, 0, 1, false, 0, false))
  }

  lemma {:induction false} OneProcessInit()
    ensures Init(OneProcess())
  {
    assert OneProcess().procs[0].segp[0] == 1;
  }

  lemma {:induction false} ForkStep0()
    ensures Reaches(OneProcess(), [ForkBegin(0, 1)], Forking0())
  {
    hide Reaches, Formed;
    ThreeFormed(Own1, Owner(1, true, Running), Nobody, Nobody, AtRest);
    OneStep(OneProcess(), ForkBegin(0, 1), Forking0());
  }

  lemma {:induction false} ForkStep1()
    ensures Reaches(Forking0(), [ForkNext(0, Memory, 2)], Forking1())
  {
    hide Reaches, Formed;
    ThreeFormed(Own1, Owner(1, true, Copying(1, 0)), Young(NULL), Nobody, AtRest);
    assert First(NULL)[0 := 2] == First(2);
    OneStep(Forking0(), ForkNext(0, Memory, 2), Forking1());
  }

  lemma {:induction false} ForkRest() returns (acts: seq<Action>)
    ensures Reaches(Forking1(), acts, Forking8())
  {
    hide Reaches, Formed;
    ThreeFormed(Own12, Owner(1, true, Copying(1, 1)), Young(2), Nobody, AtRest);
    acts := BlankSlots(Forking1(), 0, 3);
    assert GoTo(Forking1(), 0, Copying(1, NUSEG)) == Forking8();
  }

  lemma {:induction false} ForkLast()
    ensures Reaches(Forking8(), [ForkEnd(0)], TwoProcesses())
  {
    hide Reaches, Formed;
    ThreeFormed(Own12, Owner(1, true, Copying(1, NUSEG)), Young(2), Nobody, AtRest);
    OneStep(Forking8(), ForkEnd(0), TwoProcesses());
  }

  lemma {:induction false} ForkOnce() returns (acts: seq<Action>)
    ensures Reaches(OneProcess(), acts, TwoProcesses())
  {
    hide Reaches, OneProcess, Forking0, Forking1, Forking8, TwoProcesses;
    ForkStep0();
    ForkStep1();
    ForkLast();
    Then(OneProcess(), [ForkBegin(0, 1)], Forking0(), [ForkNext(0, Memory, 2)], Forking1());
    var rest := ForkRest();
    acts := [ForkBegin(0, 1)] + [ForkNext(0, Memory, 2)];
    Then(OneProcess(), acts, Forking1(), rest, Forking8());
    Then(OneProcess(), acts + rest, Forking8(), [ForkEnd(0)], TwoProcesses());
    acts := acts + rest + [ForkEnd(0)];
  }

  lemma {:induction false} OutStep()
    ensures Reaches(TwoProcesses(), [OutBegin(0)], Leaving0())
  {
    hide Reaches, Formed;
    ThreeFormed(Own12, Owner(1, true, Running), Owner(2, true, Running), Nobody, AtRest);
    OneStep(TwoProcesses(), OutBegin(0), Leaving0());
  }

  lemma {:induction false} WriteStep()
    ensures Reaches(Leaving0(), [OutNext(true)], WrittenState())
  {
    hide Reaches, Formed;
    ThreeFormed(Own12, Owner(1, false, Running), Owner(2, true, Running), Nobody, Swapper(Out, 0, 0, false, 0, false));
    assert Lock(Lock(Own12, 1, -1), 1, 1) == Own12;
    OneStep(Leaving0(), OutNext(true), WrittenState());
  }

  lemma {:induction false} ToWritten()
    ensures Reaches(TwoProcesses(), [OutBegin(0)] + [OutNext(true)], WrittenState())
  {
    hide Reaches, TwoProcesses, Leaving0, WrittenState;
    OutStep();
    WriteStep();
    Then(TwoProcesses(), [OutBegin(0)], Leaving0(), [OutNext(true)], WrittenState());
  }

  lemma {:induction false} WrittenFacts()
    ensures var z := WrittenState();
      && Formed(z) && CanRun(z, 1) && z.sw.task.Out? && z.sw.io && z.procs[z.sw.p].segp[z.sw.i] == 1
      && Leaves(z) && Seen(z, 1) == 1
  {
    hide Formed;
    ThreeFormed(Own12, Owner(1, false, Running), Owner(2, true, Running), Nobody, Swapper(Out, 0, 0, false, 0, true));
    assert SlotsOf(First(1), 1, 1) == 1;
  }

  /** While segdisk writes a segment another process could move it. */
  lemma {:induction false} TestMissesWrite()
    ensures exists y, acts, z, q ::
      Init(y) && Reaches(y, acts, z) && Formed(z) && CanRun(z, q) && HeldBySwapper(z, 1) && TestPasses(z, 1)
  {
    hide Init, Reaches, TestPasses, OneProcess, TwoProcesses, WrittenState, Formed, Transient;
    OneProcessInit();
    var a := ForkOnce();
    ToWritten();
    Then(OneProcess(), a, TwoProcesses(), [OutBegin(0)] + [OutNext(true)], WrittenState());
    WrittenFacts();
    TestWhileWritten(OneProcess(), a + ([OutBegin(0)] + [OutNext(true)]), WrittenState());
  }

  lemma {:induction false} AgainStep0()
    ensures Reaches(TwoProcesses(), [ForkBegin(0, 2)], Again0())
  {
    hide Reaches, Formed;
    ThreeFormed(Own12, Owner(1, true, Running), Owner(2, true, Running), Nobody, AtRest);
    OneStep(TwoProcesses(), ForkBegin(0, 2), Again0());
  }

  lemma {:induction false} AgainStep1()
    ensures Reaches(Again0(), [ForkNext(0, Disk, 3)], Again1())
  {
    hide Reaches, Formed;
    ThreeFormed(Own12, Owner(1, true, Copying(2, 0)), Owner(2, true, Running), Young(NULL), AtRest);
    OneStep(Again0(), ForkNext(0, Disk, 3), Again1());
  }

  lemma {:induction false} WaitingStep0()
    ensures Reaches(Again1(), [OutBegin(0)], Waiting0())
  {
    hide Reaches, Formed;
    ThreeFormed(Own123, Owner(1, true, Writing(2, 0, 3, false)), Owner(2, true, Running), Young(NULL), AtRest);
    OneStep(Again1(), OutBegin(0), Waiting0());
  }

  lemma {:induction false} WaitingStep1()
    ensures Reaches(Waiting0(), [OutNext(true)], WaitingState())
  {
    hide Reaches, Formed;
    ThreeFormed(Own123, Owner(1, false, Writing(2, 0, 3, false)), Owner(2, true, Running), Young(NULL),
          Swapper(Out, 0, 0, false, 0, false));
    OneStep(Waiting0(), OutNext(true), WaitingState());
  }

  lemma {:induction false} ToWaiting() returns (acts: seq<Action>)
    ensures Reaches(TwoProcesses(), acts, WaitingState())
  {
    hide Reaches, TwoProcesses, Again0, Again1, Waiting0, WaitingState;
    AgainStep0();
    AgainStep1();
    WaitingStep0();
    WaitingStep1();
    acts := [ForkBegin(0, 2)] + [ForkNext(0, Disk, 3)];
    Then(TwoProcesses(), [ForkBegin(0, 2)], Again0(), [ForkNext(0, Disk, 3)], Again1());
    Then(TwoProcesses(), acts, Again1(), [OutBegin(0)], Waiting0());
    Then(TwoProcesses(), acts + [OutBegin(0)], Waiting0(), [OutNext(true)], WaitingState());
    acts := acts + [OutBegin(0)] + [OutNext(true)];
  }

  lemma {:induction false} WaitingFormed()
    ensures var z := WaitingState();
      Formed(z) && CanRun(z, 1) && !z.sw.io && Leaves(z) && HoldsFormed(z.procs)
  {
    hide Formed;
    ThreeFormed(Lock(Own123, 1, -1), Owner(1, false, Writing(2, 0, 3, false)), Owner(2, true, Running), Young(NULL),
          Swapper(Out, 0, 1, false, 0, false));
  }

  lemma {:induction false} WaitingFacts()
    ensures var z := WaitingState();
      Formed(z) && CanRun(z, 1) && !z.sw.io && Leaves(z) && Seen(z, 1) == 1 == Transient(z, 1) && Unmarked(z, 1)
  {
    hide Formed, HoldsFormed;
    WaitingFormed();
    var z := WaitingState();
    assert SlotsOf(First(1), 1, 1) == 1;
    assert Transfers(z.procs, 1, 1) == 1 && Transfers(z.procs, 2, 1) == 1 && Transfers(z.procs, 3, 1) == 1;
  }

  /** And so it could while a fork waits to write a copy of the segment. */
  lemma {:induction false} TestMissesCopy()
    ensures exists y, acts, z, q ::
      && Init(y) && Reaches(y, acts, z) && Formed(z) && CanRun(z, q) && Transient(z, 1) == 1
      && !z.sw.io && TestPasses(z, 1)
  {
    hide Init, Reaches, TestPasses, OneProcess, TwoProcesses, WaitingState, Formed, Transient, Unmarked;
    OneProcessInit();
    var a := ForkOnce();
    var b := ToWaiting();
    Then(OneProcess(), a, TwoProcesses(), b, WaitingState());
    WaitingFacts();
    TestFindsTransfers(OneProcess(), a + b, WaitingState(), 1);
  }

  // ----- procdisk and proccore without interruption --------------------------------------------

  lemma {:induction false} OneMore(y: State, acts: seq<Action>, z: State, a: Action)
    requires Reaches(y, acts, z) && Formed(z) && Can(z, a)
    ensures Reaches(y, acts + [a], Step(z, a))
    decreases |acts|
  {
    if acts == [] {
      assert Reaches(Step(z, a), [], Step(z, a));
      assert ([] + [a])[1..] == [] && acts + [a] == [a];
    } else {
      OneMore(Step(y, acts[0]), acts[1..], z, a);
      assert (acts + [a])[0] == acts[0] && (acts + [a])[1..] == acts[1..] + [a];
    }
  }

  lemma {:induction false} Continue(y: State, acts: seq<Action>, z: State, a: Action)
    requires Inv(z) && Reaches(y, acts, z) && Can(z, a)
    ensures Inv(Step(z, a)) && Reaches(y, acts + [a], Step(z, a))
  {
    StepKeeps(z, a);
    OneMore(y, acts, z, a);
  }

  /** procdisk has come to slot i of process p in state z; ok: the disk has had room so far. */
  ghost predicate Leaving(y: State, acts: seq<Action>, z: State, p: nat, i: nat, f: bool, ok: bool) {
    && Inv(z) && Reaches(y, acts, z) && p < |z.procs| && i <= NUSEG && z.sw == Swapper(Out, p, i, f, 0, false)
    && |y.procs| == |z.procs| && z.procs == y.procs[p := y.procs[p].(pfcore := false)]
    && (ok ==> OnlyLocked(z, p, i))
  }

  /** Of the first segments of p those in core are ones that somebody else needs there. */
  ghost predicate OnlyLocked(z: State, p: nat, i: nat) {
    && p < |z.procs|
    && forall j {:trigger z.procs[p].segp[j]} :: 0 <= j < i && j < |z.procs[p].segp| ==>
      (z.procs[p].segp[j] in z.segs && z.segs[z.procs[p].segp[j]].core ==> z.segs[z.procs[p].segp[j]].lrefc > 0)
  }

  predicate GoesOut(segs: map<int, Seg>, s: int, f: bool, room: bool) {
    s in segs && segs[s].core && room && segs[s].lrefc == if f then 0 else 1
  }

  /** What procdisk makes of segment s. */
  function SlotOut(segs: map<int, Seg>, s: int, f: bool, room: bool): map<int, Seg> {
    if s !in segs then segs
    else if GoesOut(segs, s, f, room) then segs[s := segs[s].(core := false, lrefc := 0)]
    else segs[s := segs[s].(lrefc := segs[s].lrefc - if f then 0 else 1)]
  }

  function SlotActs(segs: map<int, Seg>, s: int, f: bool, room: bool): seq<Action> {
    if GoesOut(segs, s, f, room) then [OutNext(room), OutWritten] else [OutNext(room)]
  }

  lemma {:induction false} SlotIsDisk(z: State, p: nat, i: nat, f: bool, room: bool)
    requires Formed(z) && p < |z.procs| && i < NUSEG && z.sw == Swapper(Out, p, i, f, 0, false)
    ensures |z.procs[p].segp| == NUSEG && (z.procs[p].segp[i] == NULL || z.procs[p].segp[i] in z.segs)
    ensures var s := z.procs[p].segp[i];
      var z1 := DiskStep(z, room);
      if GoesOut(z.segs, s, f, room) then
        z1.sw == z.sw.(io := true) && z1.procs == z.procs && s in z1.segs
        && z1.segs[s := z1.segs[s].(core := false, lrefc := z1.segs[s].lrefc - 1)] == SlotOut(z.segs, s, f, room)
      else
        z1 == State(SlotOut(z.segs, s, f, room), z.procs, z.sw.(i := i + 1))
  {
    assert ProcFormed(z, z.procs[p]);
  }

  lemma {:induction false} SlotSteps(y: State, acts: seq<Action>, z: State, p: nat, i: nat, f: bool, room: bool,
                                     ok: bool)
    requires Leaving(y, acts, z, p, i, f, ok) && i < NUSEG && (ok ==> room)
    ensures p < |z.procs| && i < |z.procs[p].segp|
    ensures var s := z.procs[p].segp[i];
      var z' := State(SlotOut(z.segs, s, f, room), z.procs, Swapper(Out, p, i + 1, f, 0, false));
      Leaving(y, acts + SlotActs(z.segs, s, f, room), z', p, i + 1, f, ok)
  {
    hide Inv, Reaches, DiskStep, SlotOut, OnlyLocked;
    InvFormed(z);
    SlotIsDisk(z, p, i, f, room);
    var s := z.procs[p].segp[i];
    var z' := State(SlotOut(z.segs, s, f, room), z.procs, Swapper(Out, p, i + 1, f, 0, false));
    Continue(y, acts, z, OutNext(room));
    var z1 := DiskStep(z, room);
    if GoesOut(z.segs, s, f, room) {
      InvFormed(z1);
      Continue(y, acts + [OutNext(room)], z1, OutWritten);
      assert acts + [OutNext(room)] + [OutWritten] == acts + SlotActs(z.segs, s, f, room);
      assert z' == Done(z1);
    } else {
      assert z' == z1;
    }
    if ok { SlotLocked(z, z', p, i, f); }
  }

  lemma {:induction false} SlotLocked(z: State, z': State, p: nat, i: nat, f: bool)
    requires OnlyLocked(z, p, i) && i < |z.procs[p].segp| && z'.procs == z.procs && Inv(z')
    requires z'.segs == SlotOut(z.segs, z.procs[p].segp[i], f, true)
    ensures OnlyLocked(z', p, i + 1)
  {
    hide Good, Counts;
    var s := z.procs[p].segp[i];
    if s in z'.segs { AtLeastZero(z', s); }
  }

  lemma {:induction false} AtLeastZero(z: State, s: int)
    requires Inv(z) && s in z.segs
    ensures z.segs[s].lrefc >= 0
  {
    assert z.segs[s].lrefc == Locks(z, s);
  }

  lemma {:induction false} LeavingStarts(z: State, p: nat)
    requires Inv(z) && Can(z, OutBegin(p))
    ensures Leaving(z, [OutBegin(p)], Step(z, OutBegin(p)), p, 0, z.procs[p].pfswap, true)
  {
    assert Reaches(z, [], z);
    Continue(z, [], z, OutBegin(p));
    assert [] + [OutBegin(p)] == [OutBegin(p)];
  }

  lemma {:induction false} LeavingWeaker(y: State, acts: seq<Action>, z: State, p: nat, i: nat, f: bool, ok: bool)
    requires Leaving(y, acts, z, p, i, f, true)
    ensures Leaving(y, acts, z, p, i, f, ok)
  {
  }

  lemma {:induction false} SlotKnown(y: State, acts: seq<Action>, z: State, p: nat, i: nat, f: bool, ok: bool)
    requires Leaving(y, acts, z, p, i, f, ok) && i < NUSEG
    ensures p < |z.procs| && i < |z.procs[p].segp| && NULL !in z.segs
    ensures (z.procs[p].segp[i] != NULL ==> z.procs[p].segp[i] in z.segs)
  {
    assert ProcFormed(z, z.procs[p]);
  }

  lemma {:induction false} LeavingEnds(y: State, acts: seq<Action>, z: State, p: nat, f: bool, ok: bool)
    requires Leaving(y, acts, z, p, NUSEG, f, ok)
    ensures p < |z.procs|
    ensures var z' := State(z.segs, z.procs[p := z.procs[p].(pfswap := true)], Swapper(Idle, p, NUSEG, f, 0, false));
      Inv(z') && Reaches(y, acts + [OutNext(true)], z') && (ok ==> OnlyLocked(z', p, NUSEG))
  {
    Continue(y, acts, z, OutNext(true));
  }

  /** proccore has come to slot i of process p in state z; ok: core has had room so far. */
  ghost predicate Arriving(y: State, acts: seq<Action>, z: State, p: nat, i: nat, f: bool, n: nat, ok: bool) {
    && Inv(z) && Reaches(y, acts, z) && p < |z.procs| && i <= NUSEG && z.sw == Swapper(In, p, i, f, n, false)
    && z.procs == y.procs && (ok ==> n == 0)
  }

  predicate ComesIn(segs: map<int, Seg>, s: int, room: bool) { s in segs && !segs[s].core && room }

  /** What proccore makes of segment s. */
  function SlotIn(segs: map<int, Seg>, s: int, f: bool, room: bool): map<int, Seg> {
    if s !in segs then segs
    else segs[s := segs[s].(core := segs[s].core || room, lrefc := segs[s].lrefc + if f then 1 else 0)]
  }

  function SlotInActs(segs: map<int, Seg>, s: int, room: bool): seq<Action> {
    if ComesIn(segs, s, room) then [InNext(room), InRead] else [InNext(room)]
  }

  function StillOut(segs: map<int, Seg>, s: int, room: bool): nat {
    if s in segs && !segs[s].core && !room then 1 else 0
  }

  lemma {:induction false} SlotInSteps(y: State, acts: seq<Action>, z: State, p: nat, i: nat, f: bool, n: nat,
                                       room: bool, ok: bool)
    requires Arriving(y, acts, z, p, i, f, n, ok) && i < NUSEG && (ok ==> room)
    ensures p < |z.procs| && i < |z.procs[p].segp| && NULL !in z.segs
    ensures (z.procs[p].segp[i] != NULL ==> z.procs[p].segp[i] in z.segs)
    ensures var s := z.procs[p].segp[i];
      var n' := n + StillOut(z.segs, s, room);
      var z' := State(SlotIn(z.segs, s, f, room), z.procs, Swapper(In, p, i + 1, f, n', false));
      Arriving(y, acts + SlotInActs(z.segs, s, room), z', p, i + 1, f, n', ok)
  {
    hide Good, Counts, Reaches;
    InvFormed(z);
    var s := z.procs[p].segp[i];
    assert ProcFormed(z, z.procs[p]);
    var n' := n + StillOut(z.segs, s, room);
    var z' := State(SlotIn(z.segs, s, f, room), z.procs, Swapper(In, p, i + 1, f, n', false));
    Continue(y, acts, z, InNext(room));
    var z1 := CoreStep(z, room);
    if ComesIn(z.segs, s, room) {
      InvFormed(z1);
      Continue(y, acts + [InNext(room)], z1, InRead);
      assert acts + [InNext(room)] + [InRead] == acts + SlotInActs(z.segs, s, room);
      assert z' == Done(z1);
    } else {
      assert z' == z1;
    }
  }

  lemma {:induction false} ArrivingStarts(z: State, p: nat, ok: bool)
    requires Inv(z) && Can(z, InBegin(p))
    ensures Arriving(z, [InBegin(p)], Step(z, InBegin(p)), p, 0, z.procs[p].pfswap, 0, ok)
  {
    assert Reaches(z, [], z);
    Continue(z, [], z, InBegin(p));
    assert [] + [InBegin(p)] == [InBegin(p)];
  }

  lemma {:induction false} NoneOut(y: State, acts: seq<Action>, z: State, p: nat, f: bool, n: nat, ok: bool)
    requires Arriving(y, acts, z, p, NUSEG, f, n, ok)
    ensures ok ==> n == 0
  {
  }

  lemma {:induction false} ArrivingEnds(y: State, acts: seq<Action>, z: State, p: nat, f: bool, n: nat, ok: bool)
    requires Arriving(y, acts, z, p, NUSEG, f, n, ok) && !z.procs[p].pfcore
    ensures p < |z.procs|
    ensures var procs := z.procs[p := z.procs[p].(pfcore := n == 0, pfswap := false)];
      var z' := State(z.segs, procs, Swapper(Idle, p, NUSEG, f, n, false));
      Inv(z') && Reaches(y, acts + [InNext(true)], z')
  {
    Continue(y, acts, z, InNext(true));
  }

  /** The segments that have gone out of core. */
  ghost function WentOut(segs: map<int, Seg>, segs': map<int, Seg>): set<int> {
    set s | s in segs && s in segs' && segs[s].core && !segs'[s].core
  }

  lemma {:induction false} OneOut(g: map<int, Seg>, segs: map<int, Seg>, s: int, f: bool, room: bool)
    requires forall t :: t in segs && segs[t].core ==> t in g && g[t].core
    ensures var segs' := SlotOut(segs, s, f, room);
      && |WentOut(g, segs')| == |WentOut(g, segs)| + (if GoesOut(segs, s, f, room) then 1 else 0)
      && forall t :: t in segs' && segs'[t].core ==> t in g && g[t].core
  {
    var segs' := SlotOut(segs, s, f, room);
    if GoesOut(segs, s, f, room) {
      assert WentOut(g, segs') == WentOut(g, segs) + {s};
    } else {
      assert WentOut(g, segs') == WentOut(g, segs);
    }
  }

  lemma {:induction false} NobodyOut(segs: map<int, Seg>)
    ensures |WentOut(segs, segs)| == 0
  {
    assert WentOut(segs, segs) == {};
  }

  /** How many of the first k slots name a segment that is not in core. */
  function OutSlots(segs: map<int, Seg>, segp: seq<int>, k: nat): nat
    requires k <= |segp|
  {
    if k == 0 then 0 else OutSlots(segs, segp, k - 1) + StillOut(segs, segp[k - 1], false)
  }

  predicate NoneTwice(segp: seq<int>) {
    forall i, j {:trigger segp[i], segp[j]} :: 0 <= i < j < |segp| && segp[i] == segp[j] ==> segp[i] == NULL
  }

  lemma {:induction false} OneIn(segs: map<int, Seg>, segp: seq<int>, i: nat, k: nat, f: bool, room: bool)
    requires k <= i < |segp| && NULL !in segs
    ensures var segs' := SlotIn(segs, segp[i], f, room);
      && OutSlots(segs', segp, k) <= OutSlots(segs, segp, k)
      && (NoneTwice(segp) ==> OutSlots(segs', segp, k) == OutSlots(segs, segp, k))
      && StillOut(segs', segp[i], false) == StillOut(segs, segp[i], room)
  {
    if k > 0 { OneIn(segs, segp, i, k - 1, f, room); }
  }

  /** n counts the slots before i that proccore has left out: at least those that name a segment
      that is out now, and just those if no segment is named twice. */
  ghost predicate LeftOut(segs: map<int, Seg>, segp: seq<int>, i: nat, n: nat) {
    && i <= |segp| && n >= OutSlots(segs, segp, i)
    && (NoneTwice(segp) ==> n == OutSlots(segs, segp, i))
  }

  lemma {:induction false} LeftOutNext(segs: map<int, Seg>, segp: seq<int>, i: nat, n: nat, f: bool, room: bool)
    requires LeftOut(segs, segp, i, n) && i < |segp| && NULL !in segs
    ensures LeftOut(SlotIn(segs, segp[i], f, room), segp, i + 1,
                    n + if StillOut(segs, segp[i], room) == 1 then 1 else 0)
  {
    hide NoneTwice;
    OneIn(segs, segp, i, i, f, room);
  }

  lemma {:induction false} LeftOutNone(segs: map<int, Seg>, segp: seq<int>)
    ensures LeftOut(segs, segp, 0, 0)
  {
  }

  class Kernel {
    var segs: map<int, Seg>
    var procs: seq<Proc>

    constructor (y: State)
      ensures segs == y.segs && procs == y.procs
    {
      segs, procs := y.segs, y.procs;
    }

    ghost function Now(w: Swapper): State
      reads this
    {
      State(segs, procs, w)
    }

    /** procdisk; each call of segdisk finds room on the disk or, as given, does not. */
    method ProcDisk(p: nat, room: seq<bool>) returns (n: nat, ghost acts: seq<Action>)
      requires Inv(Now(AtRest)) && p < |procs| && procs[p].used && !Swio(procs[p])
      requires |room| == NUSEG
      modifies this
      ensures Reaches(old(Now(AtRest)), acts, Now(Swapper(Idle, p, NUSEG, old(procs)[p].pfswap, 0, false)))
      ensures Inv(Now(Swapper(Idle, p, NUSEG, old(procs)[p].pfswap, 0, false)))
      ensures procs == old(procs)[p := old(procs)[p].(pfcore := false, pfswap := true)]
      ensures (forall i {:trigger room[i]} :: 0 <= i < NUSEG ==> room[i]) ==>
        OnlyLocked(Now(Swapper(Idle, p, NUSEG, old(procs)[p].pfswap, 0, false)), p, NUSEG)
      ensures n == |WentOut(old(segs), segs)|
    {
      hide Inv, Reaches, OnlyLocked, Leaving, WentOut, SlotOut, GoesOut;
      ghost var y := Now(AtRest);
      ghost var all := forall i {:trigger room[i]} :: 0 <= i < NUSEG ==> room[i];
      InvFormed(y);
      LeavingStarts(y, p);
      LeavingWeaker(y, [OutBegin(p)], Step(y, OutBegin(p)), p, 0, y.procs[p].pfswap, all);
      n := 0;
      NobodyOut(segs);
      var f := procs[p].pfswap;
      procs := procs[p := procs[p].(pfcore := false)];
      acts := [OutBegin(p)];
      var i := 0;
      while i < NUSEG
        invariant i <= NUSEG && |procs| == |y.procs| && procs == y.procs[p := y.procs[p].(pfcore := false)]
        invariant Leaving(y, acts, Now(Swapper(Out, p, i, f, 0, false)), p, i, f, all)
        invariant n == |WentOut(y.segs, segs)|
        invariant forall t :: t in segs && segs[t].core ==> t in y.segs && y.segs[t].core
      {
        OneOut(y.segs, segs, procs[p].segp[i], f, room[i]) by {
          SlotKnown(y, acts, Now(Swapper(Out, p, i, f, 0, false)), p, i, f, all);
        }
        SlotSteps(y, acts, Now(Swapper(Out, p, i, f, 0, false)), p, i, f, room[i], all);
        SlotKnown(y, acts, Now(Swapper(Out, p, i, f, 0, false)), p, i, f, all);
        acts := acts + SlotActs(segs, procs[p].segp[i], f, room[i]);
        var out := DiskSlot(procs[p].segp[i], f, room[i]);
        if out { n := n + 1; }
        i := i + 1;
      }
      LeavingEnds(y, acts, Now(Swapper(Out, p, NUSEG, f, 0, false)), p, f, all);
      procs := procs[p := procs[p].(pfswap := true)];
      acts := acts + [OutNext(true)];
    }

    /** The body of its loop. */
    method DiskSlot(s: int, f: bool, room: bool) returns (out: bool)
      requires s != NULL ==> s in segs
      requires NULL !in segs
      modifies this`segs
      ensures segs == SlotOut(old(segs), s, f, room) && out == GoesOut(old(segs), s, f, room)
    {
      ghost var g := segs;
      out := false;
      if s != NULL {
        if !f { segs := Lock(segs, s, -1); }
        if segs[s].core {
          if segs[s].lrefc == 0 {
            if room {
              segs := Lock(segs, s, 1);
              segs := segs[s := segs[s].(core := false)];
              segs := Lock(segs, s, -1);
              out := true;
            }
          }
        }
      }
      assert segs == SlotOut(g, s, f, room);
    }

    /** proccore; each call of segcore finds room in core or, as given, does not. */
    method ProcCore(p: nat, room: seq<bool>) returns (n: nat, ghost acts: seq<Action>)
      requires Inv(Now(AtRest)) && p < |procs| && procs[p].used && !Swio(procs[p])
      requires !procs[p].pfcore && |room| == NUSEG
      modifies this
      ensures Reaches(old(Now(AtRest)), acts, Now(Swapper(Idle, p, NUSEG, old(procs)[p].pfswap, n, false)))
      ensures Inv(Now(Swapper(Idle, p, NUSEG, old(procs)[p].pfswap, n, false)))
      ensures procs == old(procs)[p := old(procs)[p].(pfcore := n == 0, pfswap := false)]
      ensures (forall i {:trigger room[i]} :: 0 <= i < NUSEG ==> room[i]) ==> n == 0
      ensures LeftOut(segs, procs[p].segp, NUSEG, n)
    {
      hide Inv, Reaches, Arriving, SlotIn, LeftOut;
      ghost var y := Now(AtRest);
      ghost var all := forall i {:trigger room[i]} :: 0 <= i < NUSEG ==> room[i];
      InvFormed(y);
      ArrivingStarts(y, p, all);
      n := 0;
      LeftOutNone(segs, procs[p].segp);
      var f := procs[p].pfswap;
      acts := [InBegin(p)];
      var i := 0;
      while i < NUSEG
        invariant i <= NUSEG && procs == y.procs
        invariant Arriving(y, acts, Now(Swapper(In, p, i, f, n, false)), p, i, f, n, all)
        invariant LeftOut(segs, procs[p].segp, i, n)
      {
        SlotInSteps(y, acts, Now(Swapper(In, p, i, f, n, false)), p, i, f, n, room[i], all);
        LeftOutNext(segs, procs[p].segp, i, n, f, room[i]);
        acts := acts + SlotInActs(segs, procs[p].segp[i], room[i]);
        var out := CoreSlot(procs[p].segp[i], f, room[i]);
        if out { n := n + 1; }
        i := i + 1;
      }
      NoneOut(y, acts, Now(Swapper(In, p, NUSEG, f, n, false)), p, f, n, all);
      ArrivingEnds(y, acts, Now(Swapper(In, p, NUSEG, f, n, false)), p, f, n, all);
      ghost var w := Swapper(Idle, p, NUSEG, f, n, false);
      ghost var z := State(segs, procs[p := procs[p].(pfcore := n == 0, pfswap := false)], w);
      if n == 0 { procs := procs[p := procs[p].(pfcore := true)]; }
      procs := procs[p := procs[p].(pfswap := false)];
      assert procs == z.procs;
      assert Now(w) == z;
      acts := acts + [InNext(true)];
    }

    /** The body of its loop. */
    method CoreSlot(s: int, f: bool, room: bool) returns (out: bool)
      requires s != NULL ==> s in segs
      requires NULL !in segs
      modifies this`segs
      ensures segs == SlotIn(old(segs), s, f, room) && out == (StillOut(old(segs), s, room) == 1)
    {
      ghost var g := segs;
      out := false;
      if s != NULL {
        if f { segs := Lock(segs, s, 1); }
        if !segs[s].core {
          if room {
            segs := Lock(segs, s, 1);
            segs := segs[s := segs[s].(core := true)];
            segs := Lock(segs, s, -1);
          } else {
            out := true;
          }
        }
      }
      assert segs == SlotIn(g, s, f, room);
    }
  }
}
