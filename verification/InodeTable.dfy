/** The table of in-core inodes (iattach and idetach of fs1.c) under sleeping gates: a
    process gives up the processor at a gate and in disk I/O, and nowhere else. */
module InodeTable {
  /** A slot: its identity, how often it is referenced, when last, and who has its gate. */
  datatype Slot = Slot(dev: int, ino: int, refc: int, lrt: int, owner: int)

  const NOBODY: int := -1

  /** A reference as its holder sees it: the slot, and the inode it was attached as. */
  datatype Ref = Ref(slot: nat, dev: int, ino: int)

  /** Where a process is: looking for an inode; waiting for the gate of a victim, of the slot
      it found, or of one it has a reference to; or holding a gate, in icopydm (Reading), in
      icopymd (Writing) or with the inode to itself (Holding). */
  datatype Pc =
    | Idle
    | Seek(dev: int, ino: int)
    | WantVictim(slot: nat, dev: int, ino: int)
    | WantFound(slot: nat, dev: int, ino: int)
    | WantOwn(slot: nat)
    | Reading(slot: nat)
    | Holding(slot: nat)
    | Writing(slot: nat)

  datatype Proc = Proc(pc: Pc, refs: multiset<Ref>)
  datatype Sys = Sys(slots: seq<Slot>, procs: seq<Proc>)

  // ----- one search of the table -----------------------------------------------------------

  predicate Is(s: Slot, dev: int, ino: int) { s.ino == ino && s.dev == dev }

  /** v is unreferenced and of those the least recently used. */
  ghost predicate Victim(slots: seq<Slot>, v: int) {
    && 0 <= v < |slots| && slots[v].refc == 0
    && forall i {:trigger slots[i]} :: 0 <= i < |slots| && slots[i].refc == 0 ==> slots[v].lrt <= slots[i].lrt
  }

  /** The loop of iattach: the first slot with the inode, or else a victim, or -1. */
  method Search(slots: seq<Slot>, dev: int, ino: int) returns (ip: int, fip: int)
    ensures -1 <= ip < |slots| && -1 <= fip < |slots|
    ensures ip >= 0 ==> Is(slots[ip], dev, ino) && forall i {:trigger slots[i]} :: 0 <= i < ip ==>
      !Is(slots[i], dev, ino)
    ensures ip < 0 ==> forall i {:trigger slots[i]} :: 0 <= i < |slots| ==> !Is(slots[i], dev, ino)
    ensures ip < 0 ==> if fip >= 0 then Victim(slots, fip) else forall i {:trigger slots[i]} :: 0 <= i < |slots| ==>
      slots[i].refc != 0
  {
    fip := -1;
    ip := 0;
    while ip < |slots|
      invariant 0 <= ip <= |slots| && -1 <= fip < ip
      invariant forall i {:trigger slots[i]} :: 0 <= i < ip ==> !Is(slots[i], dev, ino)
      invariant fip < 0 ==> forall i {:trigger slots[i]} :: 0 <= i < ip ==> slots[i].refc != 0
      invariant fip >= 0 ==> slots[fip].refc == 0
      invariant fip >= 0 ==> forall i {:trigger slots[i]} :: 0 <= i < ip && slots[i].refc == 0 ==>
        slots[fip].lrt <= slots[i].lrt
    {
      if Is(slots[ip], dev, ino) {
        return ip, fip;
      }
      if slots[ip].refc == 0 {
        if fip < 0 || slots[ip].lrt < slots[fip].lrt {
          fip := ip;
        }
      }
      ip := ip + 1;
    }
    ip := -1;
  }

  predicate Absent(slots: seq<Slot>, dev: int, ino: int) {
    forall i {:trigger slots[i]} :: 0 <= i < |slots| ==> !Is(slots[i], dev, ino)
  }

  // ----- steps -----------------------------------------------------------------------------

  datatype Action =
    | Call(p: nat, dev: int, ino: int)
    | Found(p: nat, i: nat)
    | Mounted(p: nat, dev: int, ino: int)
    | Miss(p: nat, v: nat)
    | Overflow(p: nat)
    | Gate(p: nat, now: int)
    | ReadDone(p: nat, ok: bool)
    | Unlock(p: nat)
    | Lock(p: nat, r: Ref)
    | Detach(p: nat, dirty: bool)
    | WriteDone(p: nat)
    | Share(p: nat, r: Ref, q: nat)

  ghost predicate Active(y: Sys, a: Action) {
    a.p < |y.procs|
  }

  function At(y: Sys, p: nat, pc: Pc): Sys
    requires p < |y.procs|
  {
    y.(procs := y.procs[p := y.procs[p].(pc := pc)])
  }

  /** The atomic piece of code behind a gate that process p has been let through. */
  function Enter(y: Sys, p: nat, now: int): Sys
    requires p < |y.procs|
  {
    var me := y.procs[p];
    match me.pc
    case WantVictim(i, dev, ino) =>
      if i >= |y.slots| || y.slots[i].owner != NOBODY then y
      else if y.slots[i].refc != 0 || !Absent(y.slots, dev, ino) then At(y, p, Seek(dev, ino))
      else
        Sys(y.slots[i := Slot(dev, ino, 1, now, p)],
            y.procs[p := Proc(Reading(i), me.refs + multiset{Ref(i, dev, ino)})])
    case WantFound(i, dev, ino) =>
      if i >= |y.slots| || y.slots[i].owner != NOBODY then y
      else if !Is(y.slots[i], dev, ino) then At(y, p, Seek(dev, ino))
      else
        Sys(y.slots[i := y.slots[i].(refc := y.slots[i].refc + 1, lrt := now, owner := p)],
            y.procs[p := Proc(Holding(i), me.refs + multiset{Ref(i, dev, ino)})])
    case WantOwn(i) =>
      if i >= |y.slots| || y.slots[i].owner != NOBODY then y
      else At(y.(slots := y.slots[i := y.slots[i].(owner := p)]), p, Holding(i))
    case _ => y
  }

  /** icopydm returns; if it has failed the slot is given up. */
  function Read(y: Sys, p: nat, ok: bool): Sys
    requires p < |y.procs|
  {
    var me := y.procs[p];
    if !me.pc.Reading? || me.pc.slot >= |y.slots| then y
    else
      var i := me.pc.slot;
      var s := y.slots[i];
      if ok then At(y, p, Holding(i))
      else
        Sys(y.slots[i := s.(ino := 0, refc := 0, owner := NOBODY)],
            y.procs[p := Proc(Idle, me.refs - multiset{Ref(i, s.dev, s.ino)})])
  }

  /** idetach: at the last reference the inode may have to be written first. */
  function Drop(y: Sys, p: nat, dirty: bool): Sys
    requires p < |y.procs|
  {
    var me := y.procs[p];
    if !me.pc.Holding? || me.pc.slot >= |y.slots| then y
    else
      var i := me.pc.slot;
      var s := y.slots[i].(refc := y.slots[i].refc - 1);
      var refs := me.refs - multiset{Ref(i, s.dev, s.ino)};
      if s.refc == 0 && dirty then
        Sys(y.slots[i := s], y.procs[p := Proc(Writing(i), refs)])
      else
        Sys(y.slots[i := s.(owner := NOBODY)], y.procs[p := Proc(Idle, refs)])
  }

  /** A holder lets the gate go: it keeps its reference, or is done writing without one. */
  function Leave(y: Sys, p: nat): Sys
    requires p < |y.procs|
  {
    var me := y.procs[p];
    if !(me.pc.Holding? || me.pc.Writing?) || me.pc.slot >= |y.slots| then y
    else At(y.(slots := y.slots[me.pc.slot := y.slots[me.pc.slot].(owner := NOBODY)]), p, Idle)
  }

  ghost function Act(y: Sys, a: Action): Sys {
    if !Active(y, a) then y
    else
      var p := a.p;
      var pc := y.procs[p].pc;
      match a
      case Call(_, dev, ino) => if pc.Idle? && ino != 0 then At(y, p, Seek(dev, ino)) else y
      case Found(_, i) =>
        if pc.Seek? && i < |y.slots| && Is(y.slots[i], pc.dev, pc.ino) then At(y, p, WantFound(i, pc.dev, pc.ino))
        else y
      case Mounted(_, dev, ino) => if pc.Seek? && ino != 0 then At(y, p, Seek(dev, ino)) else y
      case Miss(_, v) =>
        if pc.Seek? && Absent(y.slots, pc.dev, pc.ino) && Victim(y.slots, v) then
          At(y, p, WantVictim(v, pc.dev, pc.ino))
        else y
      case Overflow(_) => if pc.Seek? then At(y, p, Idle) else y
      case Gate(_, now) => Enter(y, p, now)
      case ReadDone(_, ok) => Read(y, p, ok)
      case Unlock(_) => if pc.Holding? then Leave(y, p) else y
      case Lock(_, r) => if pc.Idle? && y.procs[p].refs[r] > 0 then At(y, p, WantOwn(r.slot)) else y
      case Detach(_, dirty) => Drop(y, p, dirty)
      case WriteDone(_) => if pc.Writing? then Leave(y, p) else y
      case Share(_, r, q) => if pc.Idle? then Shared(y, p, r, q) else y
  }

  /** A reference is copied, as fork and chdir do, without the gate. */
  ghost function Shared(y: Sys, p: nat, r: Ref, q: nat): Sys
    requires p < |y.procs|
  {
    if q < |y.procs| && y.procs[p].refs[r] > 0 && r.slot < |y.slots| then
      Sys(y.slots[r.slot := y.slots[r.slot].(refc := y.slots[r.slot].refc + 1)],
          y.procs[q := y.procs[q].(refs := y.procs[q].refs + multiset{r})])
    else y
  }

  /** iattach between two points at which it may sleep: its search, and then the step the
      search allows.  mounted says that a volume is mounted on slot i, with which root inode. */
  method SeekTurn(y: Sys, p: nat, mounted: nat -> bool, root: nat -> (int, int)) returns (y': Sys, ghost a: Action)
    requires p < |y.procs| && y.procs[p].pc.Seek? && forall i :: root(i).1 != 0
    ensures y' == Act(y, a) && a.p == p
    ensures var pc := y.procs[p].pc;
      match a
      case Found(_, i) => i < |y.slots| && Is(y.slots[i], pc.dev, pc.ino) && !mounted(i)
      case Mounted(_, dev, ino) =>
        exists i: nat :: i < |y.slots| && Is(y.slots[i], pc.dev, pc.ino) && mounted(i) && (dev, ino) == root(i)
      case Miss(_, v) => Absent(y.slots, pc.dev, pc.ino) && Victim(y.slots, v)
      case Overflow(_) => Absent(y.slots, pc.dev, pc.ino) && forall i {:trigger y.slots[i]} :: 0 <= i < |y.slots| ==>
        y.slots[i].refc != 0
      case _ => false
  {
    var pc := y.procs[p].pc;
    var ip, fip := Search(y.slots, pc.dev, pc.ino);
    if ip >= 0 {
      if mounted(ip) {
        a := Mounted(p, root(ip).0, root(ip).1);
        return At(y, p, Seek(root(ip).0, root(ip).1)), a;
      }
      a := Found(p, ip);
      return At(y, p, WantFound(ip, pc.dev, pc.ino)), a;
    }
    if fip < 0 {
      a := Overflow(p);
      return At(y, p, Idle), a;
    }
    a := Miss(p, fip);
    return At(y, p, WantVictim(fip, pc.dev, pc.ino)), a;
  }

  // ----- what every step keeps ------------------------------------------------------------------

  /** No inode is in core twice. */
  ghost predicate Unique(slots: seq<Slot>) {
    forall i, j :: 0 <= i < j < |slots| && slots[i].ino != 0 ==>
      !(slots[i].ino == slots[j].ino && slots[i].dev == slots[j].dev)
  }

  ghost function Total(procs: seq<Proc>, r: Ref): nat {
    if procs == [] then 0 else Total(procs[..|procs| - 1], r) + procs[|procs| - 1].refs[r]
  }

  ghost function Me(slots: seq<Slot>, i: nat): Ref
    requires i < |slots|
  {
    Ref(i, slots[i].dev, slots[i].ino)
  }

  /** Whoever has a reference finds in the slot the inode it was attached as. */
  ghost predicate True(slots: seq<Slot>, refs: multiset<Ref>) {
    forall r {:trigger refs[r]} :: refs[r] > 0 ==> r.slot < |slots| && r.ino != 0 && Is(slots[r.slot], r.dev, r.ino)
  }

  predicate HasGate(pc: Pc, i: nat) {
    (pc.Reading? || pc.Holding? || pc.Writing?) && pc.slot == i
  }

  /** What a process that waits or works relies on. */
  ghost predicate Sane(slots: seq<Slot>, me: Proc, p: nat) {
    && True(slots, me.refs)
    && (me.pc.Seek? || me.pc.WantVictim? || me.pc.WantFound? ==> me.pc.ino != 0)
    && (me.pc.WantVictim? || me.pc.WantFound? ==> me.pc.slot < |slots|)
    && (me.pc.Reading? || me.pc.Holding? || me.pc.Writing? ==> me.pc.slot < |slots| && slots[me.pc.slot].owner == p)
    && (me.pc.Reading? || me.pc.Holding? ==> me.refs[Me(slots, me.pc.slot)] > 0)
    && (me.pc.Reading? ==> slots[me.pc.slot].refc == 1)
    && (me.pc.Writing? ==> slots[me.pc.slot].refc == 0)
    && (me.pc.WantOwn? ==> me.pc.slot < |slots| && me.refs[Me(slots, me.pc.slot)] > 0)
  }

  ghost predicate Inv(y: Sys) {
    && Unique(y.slots)
    && (forall i {:trigger y.slots[i]} :: 0 <= i < |y.slots| ==> y.slots[i].refc == Total(y.procs, Me(y.slots, i)))
    && (forall p {:trigger y.procs[p]} :: 0 <= p < |y.procs| ==> Sane(y.slots, y.procs[p], p))
    && (forall i {:trigger y.slots[i]} :: 0 <= i < |y.slots| ==> Held(y, i))
  }

  /** A gate that is taken has been taken by a process that knows of it, and will open it. */
  ghost predicate Held(y: Sys, i: nat)
    requires i < |y.slots|
  {
    var p := y.slots[i].owner;
    p != NOBODY ==> 0 <= p < |y.procs| && HasGate(y.procs[p].pc, i)
  }

  lemma {:induction false} TotalChange(procs: seq<Proc>, p: nat, me: Proc, r: Ref)
    requires p < |procs|
    ensures Total(procs[p := me], r) == Total(procs, r) - procs[p].refs[r] + me.refs[r]
    decreases |procs|
  {
    var n := |procs| - 1;
    if p == n {
      assert procs[p := me][..n] == procs[..n];
    } else {
      assert procs[p := me][..n] == procs[..n][p := me];
      TotalChange(procs[..n], p, me, r);
    }
  }

  /** Some process has the reference that the total counts. */
  lemma {:induction false} TotalAtLeast(procs: seq<Proc>, p: nat, r: Ref)
    requires p < |procs|
    ensures Total(procs, r) >= procs[p].refs[r]
    decreases |procs|
  {
    var n := |procs| - 1;
    if p < n {
      TotalAtLeast(procs[..n], p, r);
    }
  }

  lemma {:induction false} TotalTwo(procs: seq<Proc>, p: nat, q: nat, r: Ref)
    requires p < |procs| && q < |procs| && p != q
    ensures Total(procs, r) >= procs[p].refs[r] + procs[q].refs[r]
    decreases |procs|
  {
    var n := |procs| - 1;
    if p < n && q < n {
      TotalTwo(procs[..n], p, q, r);
    } else if p < n {
      TotalAtLeast(procs[..n], p, r);
    } else {
      TotalAtLeast(procs[..n], q, r);
    }
  }

  /** A process moves on without touching the table. */
  lemma {:induction false} MoveKeeps(y: Sys, p: nat, pc: Pc)
    requires Inv(y) && p < |y.procs| && Sane(y.slots, y.procs[p].(pc := pc), p)
    requires forall i: nat :: HasGate(y.procs[p].pc, i) ==> HasGate(pc, i)
    ensures Inv(At(y, p, pc))
  {
    hide True, Unique, Sane, Total;
    forall i | 0 <= i < |y.slots| ensures Held(At(y, p, pc), i) {
      assert Held(y, i);
    }
    var procs := y.procs[p := y.procs[p].(pc := pc)];
    forall i | 0 <= i < |y.slots| ensures y.slots[i].refc == Total(procs, Me(y.slots, i)) {
      TotalChange(y.procs, p, procs[p], Me(y.slots, i));
    }
  }

  /** A gate has one owner. */
  lemma {:induction false} OneGate(y: Sys, i: nat, p: nat)
    requires Inv(y) && i < |y.slots| && p < |y.procs| && (y.slots[i].owner == NOBODY || HasGate(y.procs[p].pc, i))
    ensures forall q {:trigger y.procs[q]} :: 0 <= q < |y.procs| && q != p ==> !HasGate(y.procs[q].pc, i)
    ensures y.slots[i].owner == NOBODY ==> !HasGate(y.procs[p].pc, i)
  {
    hide Unique, True;
    assert Sane(y.slots, y.procs[p], p);
    forall q | 0 <= q < |y.procs| && q != p ensures !HasGate(y.procs[q].pc, i) {
      assert Sane(y.slots, y.procs[q], q);
    }
  }

  /** A reference to a slot is a reference to what is in it. */
  lemma {:induction false} RefIsMe(slots: seq<Slot>, refs: multiset<Ref>, r: Ref)
    requires True(slots, refs) && refs[r] > 0
    ensures r.slot < |slots| && r == Me(slots, r.slot)
  {
  }

  /** Process p, alone at the gate of slot i, changes its count, but not what it holds. */
  lemma {:induction false} CountKeeps(y: Sys, i: nat, s: Slot, p: nat, me: Proc)
    requires Inv(y) && i < |y.slots| && p < |y.procs| && s.dev == y.slots[i].dev && s.ino == y.slots[i].ino
    requires forall q {:trigger y.procs[q]} :: 0 <= q < |y.procs| && q != p ==> !HasGate(y.procs[q].pc, i)
    requires var r := Me(y.slots, i); s.refc == y.slots[i].refc - y.procs[p].refs[r] + me.refs[r]
    requires forall r {:trigger me.refs[r]} :: r != Me(y.slots, i) ==> me.refs[r] == y.procs[p].refs[r]
    requires (s.owner == NOBODY || (s.owner == p && HasGate(me.pc, i)))
    requires forall j: nat :: j != i ==> !HasGate(y.procs[p].pc, j)
    requires Sane(y.slots[i := s], me, p)
    ensures Inv(Sys(y.slots[i := s], y.procs[p := me]))
  {
    hide Unique, Total;
    var slots, procs := y.slots[i := s], y.procs[p := me];
    forall j | 0 <= j < |slots| ensures Held(Sys(slots, procs), j) {
      if j != i { assert Held(y, j); }
    }
    UniqueSame(y.slots, i, s);
    forall j | 0 <= j < |slots| ensures slots[j].refc == Total(procs, Me(slots, j)) {
      assert y.slots[j].refc == Total(y.procs, Me(y.slots, j));
      TotalChange(y.procs, p, me, Me(slots, j));
    }
    forall q | 0 <= q < |procs| ensures Sane(slots, procs[q], q) {
      if q != p { assert Sane(y.slots, y.procs[q], q); }
    }
  }

  lemma {:induction false} UniqueSame(slots: seq<Slot>, i: nat, s: Slot)
    requires Unique(slots) && i < |slots| && s.dev == slots[i].dev && s.ino == slots[i].ino
    ensures Unique(slots[i := s])
  {
  }

  lemma {:induction false} TotalOnly(procs: seq<Proc>, p: nat, r: Ref)
    requires p < |procs| && forall q {:trigger procs[q]} :: 0 <= q < |procs| && q != p ==> procs[q].refs[r] == 0
    ensures Total(procs, r) == procs[p].refs[r]
    decreases |procs|
  {
    var n := |procs| - 1;
    if p == n {
      TotalNone(procs[..n], r);
    } else {
      TotalOnly(procs[..n], p, r);
    }
  }

  lemma {:induction false} TotalNone(procs: seq<Proc>, r: Ref)
    requires forall q {:trigger procs[q]} :: 0 <= q < |procs| ==> procs[q].refs[r] == 0
    ensures Total(procs, r) == 0
    decreases |procs|
  {
    if procs != [] { TotalNone(procs[..|procs| - 1], r); }
  }

  /** Process p, alone at the gate of slot i, which nobody else refers to, puts another
      inode in it, or none. */
  lemma {:induction false} IdentityKeeps(y: Sys, i: nat, s: Slot, p: nat, me: Proc)
    requires Inv(y) && i < |y.slots| && p < |y.procs|
    requires forall q {:trigger y.procs[q]} :: 0 <= q < |y.procs| && q != p ==>
      !HasGate(y.procs[q].pc, i) && y.procs[q].refs[Me(y.slots, i)] == 0
    requires s.ino == 0 || Absent(y.slots, s.dev, s.ino)
    requires s.refc == me.refs[Ref(i, s.dev, s.ino)]
    requires forall r: Ref {:trigger me.refs[r]} :: r.slot != i ==> me.refs[r] == y.procs[p].refs[r]
    requires (s.owner == NOBODY || (s.owner == p && HasGate(me.pc, i)))
    requires forall j: nat :: j != i ==> !HasGate(y.procs[p].pc, j)
    requires Sane(y.slots[i := s], me, p)
    ensures Inv(Sys(y.slots[i := s], y.procs[p := me]))
  {
    hide Unique, Total;
    var slots, procs := y.slots[i := s], y.procs[p := me];
    forall j | 0 <= j < |slots| ensures Held(Sys(slots, procs), j) {
      if j != i { assert Held(y, j); }
    }
    UniqueNew(y.slots, i, s);
    forall q | 0 <= q < |procs| && q != p
      ensures Sane(slots, procs[q], q) && forall r: Ref :: r.slot == i ==> procs[q].refs[r] == 0
    {
      assert Sane(y.slots, y.procs[q], q);
      NoRefs(y, i, q);
    }
    forall j | 0 <= j < |slots| ensures slots[j].refc == Total(procs, Me(slots, j)) {
      if j == i {
        TotalOnly(procs, p, Me(slots, i));
      } else {
        assert y.slots[j].refc == Total(y.procs, Me(y.slots, j));
        TotalChange(y.procs, p, me, Me(slots, j));
      }
    }
  }

  lemma {:induction false} NoRefs(y: Sys, i: nat, q: nat)
    requires Inv(y) && i < |y.slots| && q < |y.procs| && y.procs[q].refs[Me(y.slots, i)] == 0
    ensures forall r: Ref :: r.slot == i ==> y.procs[q].refs[r] == 0
  {
    assert Sane(y.slots, y.procs[q], q);
    forall r: Ref | r.slot == i ensures y.procs[q].refs[r] == 0 {
      if y.procs[q].refs[r] > 0 { RefIsMe(y.slots, y.procs[q].refs, r); }
    }
  }

  lemma {:induction false} UniqueNew(slots: seq<Slot>, i: nat, s: Slot)
    requires Unique(slots) && i < |slots| && (s.ino == 0 || Absent(slots, s.dev, s.ino))
    ensures Unique(slots[i := s])
  {
  }

  lemma {:induction false} Refc(y: Sys, i: nat)
    requires Inv(y) && i < |y.slots|
    ensures y.slots[i].refc == Total(y.procs, Me(y.slots, i)) >= 0
  {
  }

  lemma {:induction false} EnterKeeps(y: Sys, p: nat, now: int)
    requires Inv(y) && p < |y.procs|
    ensures Inv(Enter(y, p, now))
  {
    hide Unique, Total, Inv, Absent;
    var me := y.procs[p];
    SaneNow(y, p);
    match me.pc
    case WantVictim(i, dev, ino) =>
      if i < |y.slots| && y.slots[i].owner == NOBODY {
        OneGate(y, i, p);
        if y.slots[i].refc != 0 || !Absent(y.slots, dev, ino) {
          MoveKeeps(y, p, Seek(dev, ino));
        } else {
          InstallKeeps(y, i, dev, ino, now, p);
        }
      }
    case WantFound(i, dev, ino) =>
      if i < |y.slots| && y.slots[i].owner == NOBODY {
        OneGate(y, i, p);
        if !Is(y.slots[i], dev, ino) {
          MoveKeeps(y, p, Seek(dev, ino));
        } else {
          var s := y.slots[i].(refc := y.slots[i].refc + 1, lrt := now, owner := p);
          CountKeeps(y, i, s, p, Proc(Holding(i), me.refs + multiset{Ref(i, dev, ino)}));
        }
      }
    case WantOwn(i) =>
      if i < |y.slots| && y.slots[i].owner == NOBODY {
        OneGate(y, i, p);
        CountKeeps(y, i, y.slots[i].(owner := p), p, me.(pc := Holding(i)));
      }
    case _ =>
  }

  lemma {:induction false} SaneNow(y: Sys, p: nat)
    requires Inv(y) && p < |y.procs|
    ensures Sane(y.slots, y.procs[p], p)
  {
  }

  lemma {:induction false} InstallKeeps(y: Sys, i: nat, dev: int, ino: int, now: int, p: nat)
    requires Inv(y) && p < |y.procs| && i < |y.slots| && y.slots[i].refc == 0 && y.slots[i].owner == NOBODY
    requires ino != 0 && Absent(y.slots, dev, ino) && forall j: nat :: !HasGate(y.procs[p].pc, j)
    ensures Inv(Sys(y.slots[i := Slot(dev, ino, 1, now, p)],
                    y.procs[p := Proc(Reading(i), y.procs[p].refs + multiset{Ref(i, dev, ino)})]))
  {
    hide Unique, Total, Absent;
    OneGate(y, i, p);
    Refc(y, i);
    forall q | 0 <= q < |y.procs| ensures y.procs[q].refs[Me(y.slots, i)] == 0 {
      TotalAtLeast(y.procs, q, Me(y.slots, i));
    }
    NoRefs(y, i, p);
    SaneNow(y, p);
    IdentityKeeps(y, i, Slot(dev, ino, 1, now, p), p, Proc(Reading(i), y.procs[p].refs + multiset{Ref(i, dev, ino)}));
  }

  lemma {:induction false} ReadKeeps(y: Sys, p: nat, ok: bool)
    requires Inv(y) && p < |y.procs|
    ensures Inv(Read(y, p, ok))
  {
    hide Unique, Total, Inv;
    var me := y.procs[p];
    SaneNow(y, p);
    if me.pc.Reading? {
      var i := me.pc.slot;
      var s, r := y.slots[i], Me(y.slots, i);
      if ok {
        MoveKeeps(y, p, Holding(i));
      } else {
        OneGate(y, i, p);
        Refc(y, i);
        TotalAtLeast(y.procs, p, r);
        forall q | 0 <= q < |y.procs| && q != p ensures y.procs[q].refs[r] == 0 {
          TotalTwo(y.procs, p, q, r);
        }
        OnlyRef(y, p, i);
        IdentityKeeps(y, i, s.(ino := 0, refc := 0, owner := NOBODY), p, Proc(Idle, me.refs - multiset{r}));
      }
    }
  }

  lemma {:induction false} OnlyRef(y: Sys, p: nat, i: nat)
    requires Inv(y) && p < |y.procs| && i < |y.slots| && y.procs[p].refs[Me(y.slots, i)] == 1
    ensures forall r: Ref :: r.slot == i ==> (y.procs[p].refs - multiset{Me(y.slots, i)})[r] == 0
    ensures True(y.slots[i := y.slots[i].(ino := 0, refc := 0, owner := NOBODY)],
            y.procs[p].refs - multiset{Me(y.slots, i)})
  {
    SaneNow(y, p);
    var m := y.procs[p].refs - multiset{Me(y.slots, i)};
    forall r: Ref | m[r] > 0
      ensures r.slot != i && r.slot < |y.slots| && r.ino != 0 && Is(y.slots[r.slot], r.dev, r.ino)
    {
      assert y.procs[p].refs[r] > 0;
      RefIsMe(y.slots, y.procs[p].refs, r);
    }
  }

  lemma {:induction false} DropKeeps(y: Sys, p: nat, dirty: bool)
    requires Inv(y) && p < |y.procs|
    ensures Inv(Drop(y, p, dirty))
  {
    hide Unique, Total, Inv;
    var me := y.procs[p];
    SaneNow(y, p);
    if me.pc.Holding? {
      var i := me.pc.slot;
      var s := y.slots[i].(refc := y.slots[i].refc - 1);
      var refs := me.refs - multiset{Me(y.slots, i)};
      OneGate(y, i, p);
      if s.refc == 0 && dirty {
        CountKeeps(y, i, s, p, Proc(Writing(i), refs));
      } else {
        CountKeeps(y, i, s.(owner := NOBODY), p, Proc(Idle, refs));
      }
    }
  }

  lemma {:induction false} LeaveKeeps(y: Sys, p: nat)
    requires Inv(y) && p < |y.procs|
    ensures Inv(Leave(y, p))
  {
    hide Unique, Total, Inv;
    var me := y.procs[p];
    SaneNow(y, p);
    if me.pc.Holding? || me.pc.Writing? {
      OneGate(y, me.pc.slot, p);
      CountKeeps(y, me.pc.slot, y.slots[me.pc.slot].(owner := NOBODY), p, me.(pc := Idle));
    }
  }

  lemma {:induction false} ShareKeeps(y: Sys, p: nat, r: Ref, q: nat)
    requires Inv(y) && p < |y.procs| && y.procs[p].pc.Idle?
    ensures Inv(Shared(y, p, r, q))
  {
    hide Unique, Total;
    if q < |y.procs| && y.procs[p].refs[r] > 0 && r.slot < |y.slots| {
      var i := r.slot;
      RefHere(y, p, r);
      var s := y.slots[i].(refc := y.slots[i].refc + 1);
      var me := y.procs[q].(refs := y.procs[q].refs + multiset{r});
      var slots, procs := y.slots[i := s], y.procs[q := me];
      forall j | 0 <= j < |slots| ensures Held(Sys(slots, procs), j) {
        assert Held(y, j);
      }
      UniqueSame(y.slots, i, s);
      Refc(y, i);
      TotalAtLeast(y.procs, p, r);
      forall j | 0 <= j < |slots| ensures slots[j].refc == Total(procs, Me(slots, j)) {
        assert y.slots[j].refc == Total(y.procs, Me(y.slots, j));
        TotalChange(y.procs, q, me, Me(slots, j));
      }
      forall k | 0 <= k < |procs| ensures Sane(slots, procs[k], k) {
        SharedSane(y, p, r, k, s);
        SharedTrue(slots, procs[k].refs, y.procs[k].refs, r);
      }
    }
  }

  /** Nobody who relies on the count of slot r.slot is there when p has a reference to it. */
  lemma {:induction false} SharedSane(y: Sys, p: nat, r: Ref, k: nat, s: Slot)
    requires Inv(y) && p < |y.procs| && k < |y.procs| && y.procs[p].pc.Idle? && y.procs[p].refs[r] > 0
    requires r.slot < |y.slots| && s == y.slots[r.slot].(refc := y.slots[r.slot].refc + 1)
    ensures Sane(y.slots[r.slot := s], y.procs[k], k)
  {
    hide Unique, Total;
    RefHere(y, p, r);
    Refc(y, r.slot);
    TotalAtLeast(y.procs, p, r);
    SaneNow(y, k);
    if k != p && y.procs[k].pc.Reading? && y.procs[k].pc.slot == r.slot {
      TotalTwo(y.procs, p, k, r);
    }
  }

  lemma {:induction false} SharedTrue(slots: seq<Slot>, refs': multiset<Ref>, refs: multiset<Ref>, r: Ref)
    requires True(slots, refs) && (refs' == refs || refs' == refs + multiset{r})
    requires r.slot < |slots| && r.ino != 0 && Is(slots[r.slot], r.dev, r.ino)
    ensures True(slots, refs')
  {
    forall x | refs'[x] > 0 ensures x.slot < |slots| && x.ino != 0 && Is(slots[x.slot], x.dev, x.ino) {
      assert x == r || refs[x] > 0;
    }
  }

  lemma {:induction false} ActKeeps(y: Sys, a: Action)
    requires Inv(y)
    ensures Inv(Act(y, a))
  {
    hide Unique, Total, Inv, Absent, Enter, Read, Drop, Leave, Shared, True;
    if Active(y, a) {
      var p := a.p;
      SaneNow(y, p);
      match a
      case Call(_, dev, ino) => if y.procs[p].pc.Idle? && ino != 0 { MoveKeeps(y, p, Seek(dev, ino)); }
      case Found(_, i) =>
        if y.procs[p].pc.Seek? && i < |y.slots| { MoveKeeps(y, p, WantFound(i, y.procs[p].pc.dev, y.procs[p].pc.ino)); }
      case Mounted(_, dev, ino) => if y.procs[p].pc.Seek? && ino != 0 { MoveKeeps(y, p, Seek(dev, ino)); }
      case Miss(_, v) =>
        if y.procs[p].pc.Seek? && v < |y.slots| {
          MoveKeeps(y, p, WantVictim(v, y.procs[p].pc.dev, y.procs[p].pc.ino));
        }
      case Overflow(_) => if y.procs[p].pc.Seek? { MoveKeeps(y, p, Idle); }
      case Gate(_, now) => EnterKeeps(y, p, now);
      case ReadDone(_, ok) => ReadKeeps(y, p, ok);
      case Unlock(_) => LeaveKeeps(y, p);
      case Lock(_, r) =>
        if y.procs[p].pc.Idle? && y.procs[p].refs[r] > 0 {
          RefHere(y, p, r);
          MoveKeeps(y, p, WantOwn(r.slot));
        }
      case Detach(_, dirty) => DropKeeps(y, p, dirty);
      case WriteDone(_) => LeaveKeeps(y, p);
      case Share(_, r, q) => if y.procs[p].pc.Idle? { ShareKeeps(y, p, r, q); }
    }
  }

  lemma {:induction false} RefHere(y: Sys, p: nat, r: Ref)
    requires Inv(y) && p < |y.procs| && y.procs[p].refs[r] > 0
    ensures r.slot < |y.slots| && r == Me(y.slots, r.slot) && r.ino != 0
  {
    SaneNow(y, p);
    RefIsMe(y.slots, y.procs[p].refs, r);
  }

  // ----- over whole runs --------------------------------------------------------------------------

  /** A table of empty slots and processes that have nothing. */
  function Boot(slots: nat, procs: nat): Sys {
    Sys(seq(slots, i => Slot(0, 0, 0, 0, NOBODY)), seq(procs, i => Proc(Idle, multiset{})))
  }

  ghost function Run(slots: nat, procs: nat, acts: seq<Action>): Sys {
    if acts == [] then Boot(slots, procs) else Act(Run(slots, procs, acts[..|acts| - 1]), acts[|acts| - 1])
  }

  lemma {:induction false} BootHolds(slots: nat, procs: nat)
    ensures Inv(Boot(slots, procs))
  {
    var y := Boot(slots, procs);
    assert forall i :: 0 <= i < slots ==> Held(y, i);
    forall i | 0 <= i < slots ensures Total(y.procs, Me(y.slots, i)) == 0 {
      TotalNone(y.procs, Me(y.slots, i));
    }
  }

  lemma {:induction false} RunKeeps(slots: nat, procs: nat, acts: seq<Action>)
    ensures Inv(Run(slots, procs, acts))
    decreases |acts|
  {
    hide Inv, Act, Boot;
    if acts == [] {
      BootHolds(slots, procs);
    } else {
      RunKeeps(slots, procs, acts[..|acts| - 1]);
      ActKeeps(Run(slots, procs, acts[..|acts| - 1]), acts[|acts| - 1]);
    }
  }

  /** In every interleaving: no inode is in core twice; a count is the number of references,
      and never negative; and whoever has a reference, or the gate of an inode it attached,
      finds that inode in the slot. */
  lemma {:induction false} Safety(slots: nat, procs: nat, acts: seq<Action>)
    ensures var y := Run(slots, procs, acts);
      && Unique(y.slots)
      && (forall i {:trigger y.slots[i]} :: 0 <= i < |y.slots| ==>
            0 <= y.slots[i].refc == Total(y.procs, Me(y.slots, i)))
      && (forall p, r {:trigger y.procs[p].refs[r]} :: 0 <= p < |y.procs| && y.procs[p].refs[r] > 0 ==>
           r.slot < |y.slots| && Is(y.slots[r.slot], r.dev, r.ino) && y.slots[r.slot].refc > 0)
      && (forall p, q, i {:trigger HasGate(y.procs[p].pc, i), HasGate(y.procs[q].pc, i)} ::
           0 <= p < |y.procs| && 0 <= q < |y.procs| && 0 <= i < |y.slots| ==>
             (HasGate(y.procs[p].pc, i) && HasGate(y.procs[q].pc, i) ==> p == q))
  {
    hide Total, Unique, Run;
    var y := Run(slots, procs, acts);
    RunKeeps(slots, procs, acts);
    forall p, r | 0 <= p < |y.procs| && y.procs[p].refs[r] > 0
      ensures r.slot < |y.slots| && Is(y.slots[r.slot], r.dev, r.ino) && y.slots[r.slot].refc > 0
    {
      RefHere(y, p, r);
      Refc(y, r.slot);
      TotalAtLeast(y.procs, p, r);
    }
    forall p, q, i |
      0 <= p < |y.procs| && 0 <= q < |y.procs| && 0 <= i < |y.slots|
      && HasGate(y.procs[p].pc, i) && HasGate(y.procs[q].pc, i)
      ensures p == q
    {
      OneGate(y, i, p);
    }
  }

  /** A slot that is referenced before and after a step holds the same inode before and
      after. */
  lemma {:induction false} IdentityStays(y: Sys, a: Action, i: nat)
    requires Inv(y) && i < |y.slots| && y.slots[i].refc > 0 && Act(y, a).slots[i].refc > 0
    ensures Act(y, a).slots[i].ino == y.slots[i].ino && Act(y, a).slots[i].dev == y.slots[i].dev
  {
    hide Inv, Unique, Total, Absent, Victim;
  }

  // ----- what is in a slot ----------------------------------------------------------------------

  /** Does the step attach process a.p to slot i? */
  ghost predicate Attaches(y: Sys, a: Action, i: nat) {
    && a.Gate? && Active(y, a) && i < |y.slots| && y.slots[i].owner == NOBODY
    && var pc := y.procs[a.p].pc;
      || (pc.WantFound? && pc.slot == i && Is(y.slots[i], pc.dev, pc.ino))
      || (pc.WantVictim? && pc.slot == i && y.slots[i].refc == 0 && Absent(y.slots, pc.dev, pc.ino))
  }

  /** Attaching is what counts as use: it makes one reference more, and notes the time; nothing
      else notes a time. */
  lemma {:induction false} LastUse(y: Sys, a: Action, i: nat)
    requires Inv(y) && i < |y.slots|
    ensures |Act(y, a).slots| == |y.slots| && |Act(y, a).procs| == |y.procs|
    ensures Act(y, a).slots[i].lrt == if Attaches(y, a, i) then a.now else y.slots[i].lrt
    ensures Attaches(y, a, i) ==>
      && Act(y, a).slots[i].owner == a.p
      && Act(y, a).procs[a.p].refs == y.procs[a.p].refs + multiset{Me(Act(y, a).slots, i)}
  {
    hide Inv, Absent, Victim;
  }

  /** The inode that icopydm last brought into slot i; none, if it failed. */
  ghost function ReadInto(slots: nat, procs: nat, acts: seq<Action>, i: nat): (int, int) {
    if acts == [] then (0, 0)
    else
      var before, a := acts[..|acts| - 1], acts[|acts| - 1];
      var y := Run(slots, procs, before);
      if a.ReadDone? && Active(y, a) && y.procs[a.p].pc == Reading(i) && i < |y.slots| then
        if a.ok then (y.slots[i].dev, y.slots[i].ino) else (0, 0)
      else ReadInto(slots, procs, before, i)
  }

  ghost predicate BeingRead(y: Sys, i: nat) {
    exists p {:trigger y.procs[p]} :: 0 <= p < |y.procs| && y.procs[p].pc == Reading(i)
  }

  /** The inode of a slot that nobody is reading into comes from a read that went well. */
  ghost predicate Filled(y: Sys, i: nat, last: (int, int)) {
    i < |y.slots| && (y.slots[i].ino != 0 && !BeingRead(y, i) ==> last == (y.slots[i].dev, y.slots[i].ino))
  }

  lemma {:induction false} ReadFills(y: Sys, p: nat, ok: bool, i: nat, last: (int, int))
    requires Inv(y) && p < |y.procs| && Filled(y, i, last)
    ensures Filled(Read(y, p, ok), i, if y.procs[p].pc == Reading(i) then
      (if ok then (y.slots[i].dev, y.slots[i].ino) else (0, 0)) else last)
  {
    hide Unique, Total, Inv;
    SaneNow(y, p);
    var z := Read(y, p, ok);
    if y.procs[p].pc.Reading? && y.procs[p].pc.slot != i && BeingRead(y, i) {
      var q :| 0 <= q < |y.procs| && y.procs[q].pc == Reading(i);
      assert z.procs[q].pc == Reading(i);
    }
  }

  lemma {:induction false} OtherFills(y: Sys, a: Action, i: nat, last: (int, int))
    requires Inv(y) && Filled(y, i, last) && !a.ReadDone?
    ensures Filled(Act(y, a), i, last)
  {
    hide Unique, Total, Inv, Absent, Victim;
    var z := Act(y, a);
    Moves(y, a, i);
    if BeingRead(y, i) {
      var q :| 0 <= q < |y.procs| && y.procs[q].pc == Reading(i);
      assert z.procs[q].pc == Reading(i);
    }
  }

  /** Only reading begins and ends a read, and only that changes what a slot is. */
  lemma {:induction false} Moves(y: Sys, a: Action, i: nat)
    requires Inv(y) && i < |y.slots| && !a.ReadDone?
    ensures |Act(y, a).slots| == |y.slots| && |Act(y, a).procs| == |y.procs|
    ensures forall q {:trigger Act(y, a).procs[q]} :: 0 <= q < |y.procs| && y.procs[q].pc == Reading(i) ==>
      Act(y, a).procs[q].pc == Reading(i)
    ensures Act(y, a).slots[i].dev != y.slots[i].dev || Act(y, a).slots[i].ino != y.slots[i].ino ==>
      BeingRead(Act(y, a), i)
  {
    hide Unique, Total, Inv, Absent, Victim;
    if Active(y, a) {
      SaneNow(y, a.p);
      var z := Act(y, a);
      if z.slots[i].dev != y.slots[i].dev || z.slots[i].ino != y.slots[i].ino {
        assert z.procs[a.p].pc == Reading(i);
      }
    }
  }

  lemma {:induction false} RunFills(slots: nat, procs: nat, acts: seq<Action>, i: nat)
    requires i < slots
    ensures Filled(Run(slots, procs, acts), i, ReadInto(slots, procs, acts, i))
    decreases |acts|
  {
    hide Act, Inv, Filled;
    if acts == [] {
      BootFills(slots, procs, i);
    } else {
      var before, a := acts[..|acts| - 1], acts[|acts| - 1];
      var y := Run(slots, procs, before);
      RunFills(slots, procs, before, i);
      RunKeeps(slots, procs, before);
      if a.ReadDone? {
        ActRead(y, a);
        FilledIn(y, i, ReadInto(slots, procs, before, i));
        if Active(y, a) { ReadFills(y, a.p, a.ok, i, ReadInto(slots, procs, before, i)); }
      } else {
        OtherFills(y, a, i, ReadInto(slots, procs, before, i));
      }
    }
  }

  lemma {:induction false} FilledIn(y: Sys, i: nat, last: (int, int))
    requires Filled(y, i, last)
    ensures i < |y.slots|
  {
  }

  lemma {:induction false} ActRead(y: Sys, a: Action)
    requires a.ReadDone?
    ensures Act(y, a) == if Active(y, a) then Read(y, a.p, a.ok) else y
  {
    hide Absent, Victim;
  }

  lemma {:induction false} BootFills(slots: nat, procs: nat, i: nat)
    requires i < slots
    ensures Filled(Boot(slots, procs), i, (0, 0))
  {
  }

  /** In every interleaving: whoever has the gate of an attached inode has one that was read
      from the disk, as that inode, into this slot, and nothing else was read there since. */
  lemma {:induction false} ReadBeforeUse(slots: nat, procs: nat, acts: seq<Action>, p: nat)
    ensures var y := Run(slots, procs, acts);
      p < |y.procs| && y.procs[p].pc.Holding? ==>
        var i := y.procs[p].pc.slot;
        i < |y.slots| && ReadInto(slots, procs, acts, i) == (y.slots[i].dev, y.slots[i].ino)
  {
    hide Run, Unique, Total;
    var y := Run(slots, procs, acts);
    RunKeeps(slots, procs, acts);
    if p < |y.procs| && y.procs[p].pc.Holding? {
      SaneNow(y, p);
      var i := y.procs[p].pc.slot;
      RunSize(slots, procs, acts);
      RunFills(slots, procs, acts, i);
      OneGate(y, i, p);
      RefHere(y, p, Me(y.slots, i));
      forall q | 0 <= q < |y.procs| ensures y.procs[q].pc != Reading(i) {
        if q != p { assert !HasGate(y.procs[q].pc, i); }
      }
    }
  }

  lemma {:induction false} RunSize(slots: nat, procs: nat, acts: seq<Action>)
    ensures |Run(slots, procs, acts).slots| == slots
    decreases |acts|
  {
    hide Act, Inv;
    if acts != [] {
      RunSize(slots, procs, acts[..|acts| - 1]);
      ActSize(Run(slots, procs, acts[..|acts| - 1]), acts[|acts| - 1]);
    }
  }

  lemma {:induction false} ActSize(y: Sys, a: Action)
    ensures |Act(y, a).slots| == |y.slots|
  {
    hide Absent, Victim;
  }

  /** When the last reference to a changed inode goes, its gate stays shut, and the slot as it
      is, until the inode has been written. */
  lemma {:induction false} WrittenFirst(y: Sys, p: nat, a: Action)
    requires Inv(y) && p < |y.procs| && y.procs[p].pc.Holding? && y.procs[p].pc.slot < |y.slots|
    requires y.slots[y.procs[p].pc.slot].refc == 1
    ensures var i := y.procs[p].pc.slot; var z := Act(y, Detach(p, true));
      && p < |z.procs| && z.procs[p].pc == Writing(i) && i < |z.slots|
      && (a == WriteDone(p) || (p < |Act(z, a).procs| && Act(z, a).procs[p].pc == Writing(i) &&
            i < |Act(z, a).slots| && Act(z, a).slots[i] == z.slots[i]))
  {
    hide Unique, Total, Inv, Absent, Victim;
    ActKeeps(y, Detach(p, true));
    SaneNow(y, p);
    var z := Act(y, Detach(p, true));
    assert z.procs[p].pc == Writing(y.procs[p].pc.slot);
    if a != WriteDone(p) { StillWriting(z, p, a); }
  }

  lemma {:induction false} StillWriting(z: Sys, p: nat, a: Action)
    requires Inv(z) && p < |z.procs| && z.procs[p].pc.Writing? && z.procs[p].pc.slot < |z.slots|
    requires z.slots[z.procs[p].pc.slot].refc == 0 && a != WriteDone(p)
    ensures var i, x := z.procs[p].pc.slot, Act(z, a);
      && p < |x.procs| && x.procs[p].pc == Writing(i) && i < |x.slots| && x.slots[i] == z.slots[i]
  {
    hide Unique, Total, Inv, Absent, Victim;
    var i := z.procs[p].pc.slot;
    SaneNow(z, p);
    OneGate(z, i, p);
    if Active(z, a) { SaneNow(z, a.p); }
    if a.Share? && Active(z, a) && a.q < |z.procs| && z.procs[a.p].refs[a.r] > 0 {
      RefHere(z, a.p, a.r);
      if a.r.slot == i {
        Refc(z, i);
        TotalAtLeast(z.procs, a.p, a.r);
        assert false;
      }
    }
  }

  /** A reference that is passed on is counted, and so is one that is given up; a holder that
      gives one up opens the gate, unless it was the last and the inode has to be written. */
  lemma {:induction false} RefsMove(y: Sys, p: nat, r: Ref, q: nat, dirty: bool)
    requires Inv(y) && p < |y.procs| && q < |y.procs|
    ensures var z := Act(y, Share(p, r, q));
      y.procs[p].pc.Idle? && y.procs[p].refs[r] > 0 ==>
        && |z.procs| == |y.procs| && z.procs[q].refs == y.procs[q].refs + multiset{r}
        && r.slot < |z.slots| == |y.slots| && z.slots[r.slot].refc == y.slots[r.slot].refc + 1
    ensures var z, i := Act(y, Detach(p, dirty)), if y.procs[p].pc.Holding? then y.procs[p].pc.slot else 0;
      y.procs[p].pc.Holding? ==>
        && |z.procs| == |y.procs| && i < |z.slots| == |y.slots|
        && z.procs[p].refs == y.procs[p].refs - multiset{Me(y.slots, i)}
        && z.slots[i].refc == y.slots[i].refc - 1
        && (z.slots[i].owner == NOBODY <==> y.slots[i].refc > 1 || !dirty)
        && (z.procs[p].pc.Idle? <==> z.slots[i].owner == NOBODY)
  {
    hide Unique, Total, Inv, Absent, Victim;
    SaneNow(y, p);
    if y.procs[p].pc.Idle? && y.procs[p].refs[r] > 0 { RefHere(y, p, r); }
    if y.procs[p].pc.Holding? {
      Refc(y, y.procs[p].pc.slot);
      TotalAtLeast(y.procs, p, Me(y.slots, y.procs[p].pc.slot));
    }
  }
}
