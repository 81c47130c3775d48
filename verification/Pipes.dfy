/** Pipes (pipe.c): a ring of bytes under the inode's gate, with flags for the processes that
    sleep for room or for data.  All that pipe.c does between taking the gate and giving it
    up is one step. */
module Pipes {
  const PIPSIZE: nat := 5120

  // ----- what happens at the gate --------------------------------------------------------

  /** The bytes in the pipe, IFEOF, IFWFR and IFWFW, and who sleeps on i_prx and i_pwx. */
  datatype State = State(data: seq<int>, eof: bool, wfr: bool, wfw: bool, readers: set<int>, writers: set<int>)

  function WakeWriters(s: State): State { s.(wfr := false, writers := {}) }
  function WakeReaders(s: State): State { s.(wfw := false, readers := {}) }

  /** Must process p, about to read, wait? */
  predicate MustWait(s: State, alone: bool) { s.data == [] && !s.eof && !alone }

  /** pread up to its first transfer: the flag for the end of file is used up on an empty
      pipe. */
  function Admitted(s: State): State {
    s.(eof := s.eof && s.data != [])
  }

  /** pread by p, of which k bytes get through before the count or the data runs out, or the
      device fails; alone says that nobody else has the pipe open. */
  function Read(s: State, p: int, alone: bool, k: nat): (State, seq<int>)
    requires k <= |s.data|
  {
    if MustWait(s, alone) then (s.(wfw := true, readers := s.readers + {p}), [])
    else
      var t := Admitted(s).(data := s.data[k..]);
      (if t.wfr && |t.data| < PIPSIZE then WakeWriters(t) else t, s.data[..k])
  }

  /** One turn of pwrite's loop by p, of which all of bytes get through. */
  function Write(s: State, p: int, bytes: seq<int>): State {
    if |s.data| >= PIPSIZE || s.eof then s.(wfr := true, writers := s.writers + {p})
    else
      var t := s.(data := s.data + bytes);
      if t.wfw && t.data != [] then WakeReaders(t) else t
  }

  function Event(s: State): State {
    var t := if s.wfr then WakeWriters(s) else s;
    if t.wfw then WakeReaders(t) else t
  }

  /** pclose when one other reference is left. */
  function Close(s: State): State { Event(s).(eof := true) }

  /** popen. */
  function Open(s: State): State {
    if !s.eof then s
    else
      var t := s.(eof := false);
      if t.wfr then WakeWriters(t) else t
  }

  datatype Action =
    | DoRead(p: int, alone: bool, k: nat)
    | DoWrite(p: int, bytes: seq<int>)
    | DoOpen
    | DoClose
    | DoEvent
    | Interrupt(p: int)

  /** The pipe with a record of all bytes ever written and ever read. */
  datatype History = History(s: State, written: seq<int>, read: seq<int>)

  function Act(h: History, a: Action): History {
    match a
    case DoRead(p, alone, k) =>
      if k > |h.s.data| then h
      else
        var (s, out) := Read(h.s, p, alone, k);
        h.(s := s, read := h.read + out)
    case DoWrite(p, bytes) =>
      if |h.s.data| + |bytes| > PIPSIZE then h
      else if |h.s.data| >= PIPSIZE || h.s.eof then h.(s := Write(h.s, p, []))
      else h.(s := Write(h.s, p, bytes), written := h.written + bytes)
    case DoOpen => h.(s := Open(h.s))
    case DoClose => h.(s := Close(h.s))
    case DoEvent => h.(s := Event(h.s))
    case Interrupt(p) => h.(s := h.s.(readers := h.s.readers - {p}, writers := h.s.writers - {p}))
  }

  function Start(): History { History(State([], false, false, false, {}, {}), [], []) }

  function Run(acts: seq<Action>): History {
    if acts == [] then Start() else Act(Run(acts[..|acts| - 1]), acts[|acts| - 1])
  }

  /** A sleeper is marked by a flag, and a flag means that there is cause to sleep. */
  ghost predicate Awake(s: State) {
    && |s.data| <= PIPSIZE
    && (s.readers != {} ==> s.wfw) && (s.wfw ==> s.data == [] && !s.eof)
    && (s.writers != {} ==> s.wfr) && (s.wfr ==> |s.data| == PIPSIZE || s.eof)
  }

  /** In every run: what was written and not yet read is in the pipe, in order; nobody
      sleeps for data while there is some or the end of file is set, and nobody sleeps for
      room while there is some unless the end of file has been set. */
  lemma {:induction false} NothingLost(acts: seq<Action>)
    ensures var h := Run(acts);
      && h.written == h.read + h.s.data && Awake(h.s)
      && (h.s.readers != {} ==> h.s.data == [] && !h.s.eof)
      && (h.s.writers != {} ==> |h.s.data| == PIPSIZE || h.s.eof)
    decreases |acts|
  {
    hide Run;
    RunUnfold(acts);
    if acts != [] {
      NothingLost(acts[..|acts| - 1]);
      ActKeeps(Run(acts[..|acts| - 1]), acts[|acts| - 1]);
    }
  }

  lemma {:induction false} RunUnfold(acts: seq<Action>)
    ensures Run(acts) == if acts == [] then Start() else Act(Run(acts[..|acts| - 1]), acts[|acts| - 1])
  {
  }

  lemma {:induction false} ActKeeps(h: History, a: Action)
    requires h.written == h.read + h.s.data && Awake(h.s)
    ensures var h' := Act(h, a); h'.written == h'.read + h'.s.data && Awake(h'.s)
  {
    hide Read, Write, Event, Close, Open;
    match a
    case DoRead(p, alone, k) => if k <= |h.s.data| { ReadKeeps(h.s, p, alone, k); }
    case DoWrite(p, bytes) => WriteKeeps(h.s, p, if |h.s.data| >= PIPSIZE || h.s.eof then [] else bytes);
    case _ => FlagsKeep(h.s);
  }

  lemma {:induction false} ReadKeeps(s: State, p: int, alone: bool, k: nat)
    requires Awake(s) && k <= |s.data|
    ensures var (t, out) := Read(s, p, alone, k); Awake(t) && out + t.data == s.data
  {
    assert s.data == s.data[..k] + s.data[k..];
  }

  lemma {:induction false} WriteKeeps(s: State, p: int, bytes: seq<int>)
    requires Awake(s)
    ensures |s.data| >= PIPSIZE || s.eof ==> Write(s, p, bytes).data == s.data && Awake(Write(s, p, bytes))
    ensures |s.data| < PIPSIZE && !s.eof ==> Write(s, p, bytes).data == s.data + bytes
    ensures |s.data| + |bytes| <= PIPSIZE ==> Awake(Write(s, p, bytes))
  {
  }

  lemma {:induction false} FlagsKeep(s: State)
    requires Awake(s)
    ensures Awake(Open(s)) && Awake(Close(s)) && Awake(Event(s))
    ensures Open(s).data == Close(s).data == Event(s).data == s.data
  {
  }

  /** A read that waits does so for a writer that is still there; one that comes back with
      nothing from an empty pipe met the end of file, and used it up, or was alone. */
  lemma {:induction false} EmptyReads(s: State, p: int, alone: bool)
    requires Awake(s) && s.data == []
    ensures var (t, out) := Read(s, p, alone, 0);
      out == [] && if s.eof || alone then !t.eof && t.readers == s.readers else p in t.readers
    ensures s.eof ==> Read(s, p, alone, 0).0.writers == {}
  {
  }

  /** A close leaves nobody asleep, whatever has been going on; who was reading finds the
      bytes that are still there, and behind them the end of file. */
  lemma {:induction false} CloseWakes(acts: seq<Action>)
    ensures var h, s := Run(acts), Run(acts + [DoClose]).s;
      s.eof && s.readers == {} && s.writers == {} && !s.wfr && !s.wfw && s.data == h.s.data
  {
    hide Run;
    NothingLost(acts);
    RunOne(acts, DoClose);
  }

  /** The end of file stays until a read finds the pipe empty or somebody opens it; an open
      leaves no writer asleep but for want of room. */
  lemma {:induction false} EofStays(acts: seq<Action>, a: Action)
    ensures var h, h' := Run(acts), Run(acts + [a]);
      && (h.s.eof ==> h'.s.eof || a.DoOpen? || (a.DoRead? && h.s.data == []))
      && (!h.s.eof ==> !h'.s.eof || a.DoClose?)
      && (a.DoOpen? ==> !h'.s.eof && (h'.s.writers != {} ==> |h'.s.data| == PIPSIZE))
  {
    hide Run;
    NothingLost(acts);
    NothingLost(acts + [a]);
    RunOne(acts, a);
  }

  /** Nothing stays in the pipe for want of trying: a read for all there is gets all that was
      written and not read, and a write within the room of an open pipe gets through, each
      waking whoever slept for it. */
  lemma {:induction false} Moves(acts: seq<Action>, p: int, alone: bool, bytes: seq<int>)
    ensures var h := Run(acts); var h' := Run(acts + [DoRead(p, alone, |h.s.data|)]);
      h'.read == h.written == h'.written && (h.s.data != [] ==> h'.s.writers == {})
    ensures var h := Run(acts); var h' := Run(acts + [DoWrite(p, bytes)]);
      |h.s.data| < PIPSIZE && |h.s.data| + |bytes| <= PIPSIZE && !h.s.eof ==>
        h'.written == h.written + bytes && (bytes != [] ==> h'.s.readers == {})
    ensures var h := Run(acts); var h' := Run(acts + [DoWrite(p, [])]);
      |h.s.data| == PIPSIZE || h.s.eof ==> p in h'.s.writers && h'.s.data == h.s.data
  {
    hide Run;
    NothingLost(acts);
    var h := Run(acts);
    RunOne(acts, DoRead(p, alone, |h.s.data|));
    RunOne(acts, DoWrite(p, bytes));
    RunOne(acts, DoWrite(p, []));
    NothingLost(acts + [DoRead(p, alone, |h.s.data|)]);
    NothingLost(acts + [DoWrite(p, bytes)]);
  }

  lemma {:induction false} RunOne(acts: seq<Action>, a: Action)
    ensures Run(acts + [a]) == Act(Run(acts), a)
  {
    hide Act;
    assert (acts + [a])[..|acts|] == acts;
  }

  // ----- the ring ---------------------------------------------------------------------------

  lemma {:induction false} Parts(c: seq<int>, d: nat, k: nat)
    requires d + k <= |c|
    ensures c[..d] + c[d..][..k] == c[..d + k] && c[d..][k..] == c[d + k..]
  {
  }

  /** The ring goes on at its beginning. */
  function Wrap(at: int): int {
    if at < PIPSIZE then at else at - PIPSIZE
  }

  ghost function Ring(b: seq<int>, at: int, n: int): (c: seq<int>)
    requires |b| == PIPSIZE && 0 <= n <= PIPSIZE && 0 <= at < PIPSIZE
    ensures |c| == n && forall i {:trigger c[i]} :: 0 <= i < n ==> c[i] == b[Wrap(at + i)]
  {
    seq(n, i requires 0 <= i < n => b[Wrap(at + i)])
  }

  class Pipe {
    const buf: array<int>       // the blocks of the pipe
    var pnc: int
    var prx: int
    var pwx: int
    var eof: bool
    var wfr: bool
    var wfw: bool

    ghost predicate Valid()
      reads this`pnc, this`prx, this`pwx, buf
    {
      && buf.Length == PIPSIZE && 0 <= prx < PIPSIZE && 0 <= pnc <= PIPSIZE
      && pwx == Wrap(prx + pnc)
    }

    ghost function Contents(): (c: seq<int>)
      requires Valid()
      reads this`pnc, this`prx, this`pwx, buf
      ensures |c| == pnc && forall i {:trigger c[i]} :: 0 <= i < pnc ==> c[i] == buf[Wrap(prx + i)]
    {
      Ring(buf[..], prx, pnc)
    }

    constructor ()
      ensures Valid() && Contents() == [] && !eof && !wfr && !wfw
    {
      buf := new int[PIPSIZE](i => 0);
      pnc, prx, pwx, eof, wfr, wfw := 0, 0, 0, false, false, false;
    }

    /** A transfer from the ring of which k bytes come through. */
    method Take(n: nat, k: nat) returns (out: seq<int>)
      requires Valid() && k <= n <= pnc && n <= PIPSIZE - prx
      modifies this`prx, this`pnc
      ensures Valid() && out == old(Contents())[..k] && Contents() == old(Contents())[k..]
    {
      ghost var c := Contents();
      out := buf[prx..prx + k];
      ghost var at := prx;
      prx := prx + k;
      if prx == PIPSIZE {
        prx := 0;
      }
      pnc := pnc - k;
      Taken(c, out, at, k);
    }

    lemma {:induction false} Taken(c: seq<int>, out: seq<int>, at: int, k: nat)
      requires Valid() && k <= |c| == pnc + k && |out| == k && 0 <= at && at + k <= PIPSIZE && prx == Wrap(at + k)
      requires forall i {:trigger c[i]} :: 0 <= i < |c| ==> c[i] == buf[Wrap(at + i)]
      requires forall i {:trigger out[i]} :: 0 <= i < k ==> out[i] == buf[at + i]
      ensures out == c[..k] && Contents() == c[k..]
    {
      var d := Contents();
      forall i | 0 <= i < pnc ensures d[i] == c[k + i] {
        assert Wrap(prx + i) == Wrap(at + (k + i));
      }
      forall i | 0 <= i < k ensures out[i] == c[i] {
        assert Wrap(at + i) == at + i;
      }
    }

    /** k bytes are moved into the ring at p. */
    method Store(bytes: seq<int>, p: nat, k: nat)
      requires k <= |bytes| && p + k <= buf.Length
      modifies buf
      ensures forall j {:trigger buf[j]} :: p <= j < p + k ==> buf[j] == bytes[j - p]
      ensures forall j {:trigger buf[j]} :: 0 <= j < buf.Length && !(p <= j < p + k) ==> buf[j] == old(buf[j])
    {
      var i := 0;
      while i < k
        invariant 0 <= i <= k
        invariant forall j {:trigger buf[j]} :: p <= j < p + i ==> buf[j] == bytes[j - p]
        invariant forall j {:trigger buf[j]} :: 0 <= j < buf.Length && !(p <= j < p + i) ==> buf[j] == old(buf[j])
      {
        buf[p + i] := bytes[i];
        i := i + 1;
      }
    }

    /** A transfer into the ring of which k bytes come through. */
    method Add(bytes: seq<int>, n: nat, k: nat)
      requires Valid() && k <= n <= |bytes| && n <= PIPSIZE - pnc && n <= PIPSIZE - pwx
      modifies this`pwx, this`pnc, buf
      ensures Valid() && Contents() == old(Contents()) + bytes[..k]
    {
      ghost var was := Contents();
      Store(bytes, pwx, k);
      ghost var p := pwx;
      pwx := pwx + k;
      if pwx == PIPSIZE {
        pwx := 0;
      }
      pnc := pnc + k;
      Placed(was, bytes, p, k);
    }

    /** Where the new bytes are: right behind the old ones. */
    lemma {:induction false} Placed(was: seq<int>, bytes: seq<int>, p: int, k: nat)
      requires Valid() && k <= pnc && |was| == pnc - k && k <= |bytes| && 0 <= p && p + k <= PIPSIZE
      requires p == Wrap(prx + |was|)
      requires forall j {:trigger buf[j]} :: p <= j < p + k ==> buf[j] == bytes[j - p]
      requires forall i {:trigger was[i]} :: 0 <= i < |was| ==> buf[Wrap(prx + i)] == was[i]
      ensures Contents() == was + bytes[..k]
    {
      var c, d := Contents(), was + bytes[..k];
      forall i | 0 <= i < pnc ensures c[i] == d[i] {
        if i >= |was| { assert Wrap(prx + i) == p + (i - |was|); }
      }
    }

    /** The pipe as its users see it, when r and w sleep on it. */
    ghost function View(r: set<int>, w: set<int>): State
      requires Valid()
      reads this, buf
    {
      State(Contents(), eof, wfr, wfw, r, w)
    }

    lemma {:induction false} ContentsSize()
      requires Valid()
      ensures |Contents()| == pnc
    {
    }

    /** The transfers of pread, up to the end of the ring each. */
    method Transfers(ioc: nat, fault: nat -> bool, moved: nat -> nat) returns (out: seq<int>, left: nat)
      requires Valid()
      modifies this`prx, this`pnc
      ensures Valid() && |out| <= |old(Contents())| && out == old(Contents())[..|out|]
      ensures Contents() == old(Contents())[|out|..]
      ensures |out| + left == ioc && (left > 0 && Contents() != [] ==> exists t :: fault(t))
    {
      hide Contents;
      ghost var c0 := Contents();
      ContentsSize();
      out, left := [], ioc;
      var t := 0;
      var error := false;
      while !error && left > 0 && pnc > 0
        invariant Valid() && |out| <= |c0| && out == c0[..|out|] && Contents() == c0[|out|..]
        invariant |out| + left == ioc && (error ==> exists t :: fault(t))
        decreases left, !error
      {
        var n := PIPSIZE - prx;
        if n > left {
          n := left;
        }
        if n > pnc {
          n := pnc;
        }
        error := fault(t);
        var k := if error && moved(t) < n then moved(t) else n;
        ghost var d := |out|;
        ContentsSize();
        Parts(c0, d, k);
        var some := Take(n, k);
        out := out + some;
        left := left - k;
        t := t + 1;
      }
      ContentsSize();
    }

    /** pread by p at the gate.  Transfer t moves all it is asked to, or fault(t) says that it
        fails, after moved(t) bytes.  wait: the process gives up the gate and sleeps. */
    method PRead(ioc: nat, alone: bool, fault: nat -> bool, moved: nat -> nat, ghost p: int, ghost r: set<int>,
                 ghost w: set<int>)
      returns (wait: bool, out: seq<int>, left: nat, woke: bool)
      requires Valid()
      modifies this`prx, this`pnc, this`eof, this`wfr, this`wfw
      ensures Valid() && |out| <= |old(Contents())|
      ensures Read(old(View(r, w)), p, alone, |out|) == (View(if wait then r + {p} else r, if woke then {} else w), out)
      ensures wait <==> old(MustWait(View(r, w), alone))
      ensures !wait ==> |out| + left == ioc && (left > 0 && Contents() != [] ==> exists t :: fault(t))
    {
      wait, out, left, woke := false, [], ioc, false;
      if pnc == 0 {
        if eof {
          eof := false;
        } else if !alone {
          wfw := true;
          wait := true;
          return;
        }
      }
      eof := eof && pnc != 0;
      out, left := Transfers(ioc, fault, moved);
      if wfr && pnc < PIPSIZE {
        wfr := false;
        woke := true;
      }
    }

    /** One turn of pwrite by p, with bytes still to go: at most the room up to the end of
        the ring. */
    method PWriteTurn(bytes: seq<int>, fault: bool, moved: nat, ghost p: int, ghost r: set<int>, ghost w: set<int>)
      returns (wait: bool, k: nat, woke: bool)
      requires Valid() && bytes != []
      modifies this`pwx, this`pnc, this`wfr, this`wfw, buf
      ensures Valid() && k <= |bytes| && |old(Contents())| + k <= PIPSIZE
      ensures wait <==> old(pnc) == PIPSIZE || eof
      ensures wait ==> k == 0
      ensures Write(old(View(r, w)), p, bytes[..k]) == View(if woke then {} else r, if wait then w + {p} else w)
      ensures !wait && !fault ==> k > 0
    {
      wait, k, woke := false, 0, false;
      var n := PIPSIZE - pwx;
      if n > |bytes| {
        n := |bytes|;
      }
      if n > PIPSIZE - pnc {
        n := PIPSIZE - pnc;
      }
      if n == 0 || eof {
        wfr := true;
        wait := true;
        return;
      }
      k := if fault && moved < n then moved else n;
      Add(bytes, n, k);
      if wfw && pnc > 0 {
        wfw := false;
        woke := true;
      }
    }
  }
}
