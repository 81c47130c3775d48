/** When a Kermit transfer can still be completed, whatever the line has lost so far. */
module KermitRecovery {
  import opened KermitProtocol

  // ----- when a transfer is still alive -----------------------------------------------------

  predicate HasNum(ms: seq<Msg>, n: int) { exists j :: 0 <= j < |ms| && ms[j].num == n }

  /** A reply that moves the sender on. */
  predicate Moves(s: Sender, m: Msg) {
    (m.kind.Y? || (m.kind.N? && !s.at.state.Init?)) && Acknowledged(m) == s.n
  }

  predicate HasMove(s: Sender, ms: seq<Msg>) { exists j :: 0 <= j < |ms| && Moves(s, ms[j]) }

  /** May the sender transmit again?  And may it come to hear an answer? */
  predicate CanSend(s: Sender) { s.numtry <= MAXTRY }

  predicate CanHear(s: Sender) { s.waiting || CanSend(s) }

  /** The receiver wants the packet that the sender is at: it must have a try left, two if that
      packet is the end of a file, or have its counter reset by a repetition first; and the
      packet must be on the line already or be sent again. */
  predicate WantsIt(y: Sys) {
    var s, r := y.sender, y.receiver;
    && r.numtry <= MAXTRY && (CanSend(s) || (s.waiting && HasNum(y.data, s.n)))
    && (s.at.state.Eof? ==> r.numtry < MAXTRY || (HasNum(y.data, Prev(s.n)) && r.oldtry <= MAXTRY))
  }

  /** It has that packet already, and the sender must learn so: from a repetition, if the
      receiver may still answer one; from an answer on the line; or from a NAK for the packet
      behind it, which is as good but costs the receiver a try. */
  predicate HasIt(files: seq<Document>, y: Sys)
    requires Within(files, y.sender.at)
  {
    var s, r := y.sender, y.receiver;
    var last := if Advance(files, s.at).state.Eof? then MAXTRY - 1 else MAXTRY;
    && r.numtry <= MAXTRY && CanHear(s)
    && (|| ((CanSend(s) || y.data != []) && r.oldtry <= MAXTRY)
        || (HasMove(s, y.acks) && r.numtry <= last)
        || (!s.at.state.Init? && r.numtry < last))
  }

  /** Can the transfer still be completed?  It depends on the counters, and on what is under
      way. */
  predicate Alive(files: seq<Document>, y: Sys)
    requires Within(files, y.sender.at)
  {
    var s, r := y.sender, y.receiver;
    if s.at.state.Abort? || r.state.Abort? then false
    else if s.at.state.Complete? then true
    else if r.state.Complete? then CanHear(s) && HasMove(s, y.acks)
    else if r.n == s.n then WantsIt(y)
    else HasIt(files, y)
  }

  // ----- what the two sides do with their counters ---------------------------------------------

  /** A repetition costs one of the tries for those, and resets the others. */
  lemma {:induction false} OldCounts(files: seq<Document>, r: Receiver, m: Msg, w: nat, canOpen: bool, remote: bool)
    requires Transfer(files) && ReceiverAt(files, r, w) && Active(r.state) && IsCopy(files, m, w - 1) && !m.kind.E?
    ensures ReceiverHear(r, Heard(m), canOpen, remote) ==
      if r.oldtry > MAXTRY then
        (r.(numtry := r.numtry + 1, oldtry := r.oldtry + 1, state := Abort(TooManyTries)), [])
      else (r.(numtry := 0, oldtry := r.oldtry + 1), [Msg(Y, m.num, [])])
  {
    hide At, Closed, Partial;
    Mod64(w);
    AtFacts(files, w);
    AtFacts(files, w - 1);
    AtNext(files, w - 1);
  }

  /** The packet that is wanted resets the try counter, unless it is the end of a file. */
  lemma {:induction false} NewCounts(files: seq<Document>, r: Receiver, m: Msg, w: nat, canOpen: bool, remote: bool)
    requires Transfer(files) && ReceiverAt(files, r, w) && Active(r.state) && IsCopy(files, m, w) && !m.kind.E?
    ensures var (t, out) := ReceiverHear(r, Heard(m), canOpen, remote);
      && (t.state.Complete? ==> At(files, w).state.Break?)
      && (t.state.Abort? || t.state.Complete? || t.numtry == if At(files, w).state.Eof? then r.numtry + 1 else 0)
    ensures canOpen ==> !ReceiverHear(r, Heard(m), canOpen, remote).0.state.Abort?
  {
    hide At, Closed, Partial;
    AtFacts(files, w);
  }

  /** What is on the line between two sides that are both at work, by the numbers. */
  ghost predicate Numbered(y: Sys, v: nat, w: nat, i: nat, k: nat) {
    && i <= |y.data| && k <= |y.acks|
    && (forall j {:trigger y.data[j]} :: 0 <= j < |y.data| ==>
          !y.data[j].kind.E? && y.data[j].num == if j < i then (v - 1) % 64 else v % 64)
    && (forall j {:trigger y.acks[j]} :: 0 <= j < |y.acks| ==>
          !y.acks[j].kind.E? && if j < k then !Moves(y.sender, y.acks[j]) else
            (Moves(y.sender, y.acks[j]) <==> y.acks[j].kind.Y? || v > 0))
  }

  ghost predicate Sound(files: seq<Document>, y: Sys, v: nat, w: nat, i: nat, k: nat)
    requires Transfer(files)
  {
    Inv(files, y, v, w, i, k) && Blame(y)
  }

  lemma {:induction false} Numbers(files: seq<Document>, y: Sys, v: nat, w: nat, i: nat, k: nat)
    requires Transfer(files) && Sound(files, y, v, w, i, k) && Active(y.sender.at.state) && !y.receiver.state.Abort?
    ensures Numbered(y, v, w, i, k) && y.sender.n == v % 64 && y.sender.at == At(files, v)
    ensures Active(y.receiver.state) ==> y.receiver.n == w % 64 && Active(At(files, w).state)
    ensures (v + 1) % 64 != v % 64 && Prev(v % 64) == (v - 1) % 64 != v % 64
    ensures y.receiver.state.Complete? <==> At(files, w).state.Complete?
    ensures v <= w <= v + 1 && (w == v + 1 ==> i == 0)
    ensures w == v ==> k == |y.acks| && Active(y.receiver.state)
  {
    hide At, Partial, Closed;
    AtFacts(files, v);
    AtFacts(files, w);
    Mod64(v);
    Mod64(v + 1);
    AckMoves(y.sender, v);
    forall j | 0 <= j < |y.data|
      ensures !y.data[j].kind.E? && y.data[j].num == if j < i then (v - 1) % 64 else v % 64
    {
      assert IsCopy(files, y.data[j], if j < i then v - 1 else v);
    }
    forall j | 0 <= j < |y.acks|
      ensures !y.acks[j].kind.E?
      ensures if j < k then !Moves(y.sender, y.acks[j]) else
        (Moves(y.sender, y.acks[j]) <==> y.acks[j].kind.Y? || v > 0)
    {
      assert IsAck(y.acks[j], if j < k then v - 1 else v);
    }
  }

  lemma {:induction false} AckMoves(s: Sender, v: nat)
    requires s.n == v % 64 && (s.at.state.Init? <==> v == 0)
    ensures forall m: Msg {:trigger Moves(s, m)} :: IsAck(m, v - 1) && !m.kind.E? ==> !Moves(s, m)
    ensures forall m: Msg {:trigger Moves(s, m)} :: IsAck(m, v) && !m.kind.E? ==>
      (Moves(s, m) <==> m.kind.Y? || v > 0)
  {
    Mod64(v);
  }

  // ----- a transfer that is past saving stays so ------------------------------------------------

  lemma {:induction false} HearMoves(files: seq<Document>, s: Sender, m: Msg)
    requires Within(files, s.at) && (m.kind.Y? || m.kind.N?)
    ensures SenderHear(files, s, Heard(m)) == if Moves(s, m) then
      Sender(Advance(files, s.at), (s.n + 1) % 64, 0, s.open && !s.at.state.Eof?, false) else s.(waiting := false)
  {
  }

  lemma {:induction false} NumKept(ms: seq<Msg>, n: int)
    requires ms != [] && HasNum(ms[1..], n)
    ensures HasNum(ms, n)
  {
    var j :| 0 <= j < |ms[1..]| && ms[1..][j].num == n;
    assert ms[j + 1].num == n;
  }

  lemma {:induction false} MoveKept(s: Sender, ms: seq<Msg>)
    requires ms != [] && HasMove(s, ms[1..])
    ensures HasMove(s, ms)
  {
    var j :| 0 <= j < |ms[1..]| && Moves(s, ms[1..][j]);
    assert Moves(s, ms[j + 1]);
  }

  lemma {:induction false} NumMore(ms: seq<Msg>, m: Msg, n: int)
    ensures HasNum(ms + [m], n) ==> HasNum(ms, n) || m.num == n
  {
    if j :| 0 <= j < |ms + [m]| && (ms + [m])[j].num == n && j < |ms| { assert ms[j].num == n; }
  }

  lemma {:induction false} MoveMore(s: Sender, ms: seq<Msg>, m: Msg)
    ensures HasMove(s, ms + [m]) ==> HasMove(s, ms) || Moves(s, m)
  {
    if j :| 0 <= j < |ms + [m]| && Moves(s, (ms + [m])[j]) && j < |ms| { assert Moves(s, ms[j]); }
  }

  lemma {:induction false} TryAlive(files: seq<Document>, y: Sys, a: Action)
    requires Transfer(files) && Within(files, y.sender.at) && a.SenderTries?
    requires Alive(files, SenderActs(files, y, a))
    ensures Alive(files, y)
  {
    var s, y' := y.sender, SenderActs(files, y, a);
    if Active(s.at.state) && !s.waiting && Active(y'.sender.at.state) {
      assert y'.data == y.data + [PacketAt(files, s.at, s.n)];
      assert y.acks == y'.acks;
      MoveSame(y'.sender, s, y.acks);
      NumMore(y.data, PacketAt(files, s.at, s.n), Prev(s.n));
    }
  }

  lemma {:induction false} MoveSame(s: Sender, t: Sender, ms: seq<Msg>)
    requires s.n == t.n && s.at == t.at
    ensures HasMove(s, ms) <==> HasMove(t, ms)
  {
    assert forall j :: 0 <= j < |ms| ==> (Moves(s, ms[j]) <==> Moves(t, ms[j]));
  }

  lemma {:induction false} TimeoutAlive(files: seq<Document>, y: Sys)
    requires Transfer(files) && Within(files, y.sender.at) && Alive(files, SenderActs(files, y, SenderTimesOut))
    ensures Alive(files, y)
  {
    MoveSame(SenderActs(files, y, SenderTimesOut).sender, y.sender, y.acks);
  }

  /** The sender hears an answer: if it is worth waiting for, it was there to be heard. */
  lemma {:induction false} HearAlive(files: seq<Document>, y: Sys, v: nat, w: nat, i: nat, k: nat)
    requires Transfer(files) && Sound(files, y, v, w, i, k)
    requires Within(files, SenderActs(files, y, SenderHears).sender.at)
    requires Alive(files, SenderActs(files, y, SenderHears))
    ensures Alive(files, y)
  {
    hide Inv, Blame, At, SenderHear, HasNum, HasMove, Advance, Moves, Acknowledged;
    WithinNow(files, y, v, w, i, k);
    var s, r := y.sender, y.receiver;
    if Active(s.at.state) && s.waiting && y.acks != [] && !r.state.Abort? {
      Numbers(files, y, v, w, i, k);
      var m := y.acks[0];
      KindOf(files, y, v, w, i, k);
      HearMoves(files, s, m);
      var y' := SenderActs(files, y, SenderHears);
      if Moves(s, m) {
        HasMoveAt(s, y.acks, 0);
        AtNext(files, v);
        assert k == 0 && w == v + 1;
        if Active(r.state) {
          assert r.n != s.n;
          assert (v + 1) % 64 == (s.n + 1) % 64 by { Mod64(v); }
          if y.data == [] { NumNone(Prev(y'.sender.n)); }
        }
      } else {
        if HasMove(y'.sender, y.acks[1..]) {
          MoveSame(y'.sender, s, y.acks[1..]);
          MoveKept(s, y.acks);
        }
      }
    }
  }

  lemma {:induction false} NumNone(n: int)
    ensures !HasNum([], n)
  {
  }

  lemma {:induction false} HasMoveAt(s: Sender, ms: seq<Msg>, j: nat)
    requires j < |ms| && Moves(s, ms[j])
    ensures HasMove(s, ms)
  {
  }

  lemma {:induction false} WithinNow(files: seq<Document>, y: Sys, v: nat, w: nat, i: nat, k: nat)
    requires Transfer(files) && Sound(files, y, v, w, i, k)
    ensures Within(files, y.sender.at)
    ensures y.sender.at.state.Complete? ==> y.receiver.state.Complete? || y.receiver.state.Abort?
  {
    hide At;
    AtFacts(files, v);
    AtFacts(files, w);
    if y.sender.at.state.Complete? { AtEnd(files, v); }
  }

  lemma {:induction false} AtEnd(files: seq<Document>, v: nat)
    requires Transfer(files) && At(files, v).state.Complete?
    ensures At(files, v + 1) == At(files, v)
  {
  }

  /** Answers are acknowledgements or NAKs. */
  lemma {:induction false} KindOf(files: seq<Document>, y: Sys, v: nat, w: nat, i: nat, k: nat)
    requires Transfer(files) && Sound(files, y, v, w, i, k) && Active(y.sender.at.state) && !y.receiver.state.Abort?
    ensures forall j {:trigger y.acks[j]} :: 0 <= j < |y.acks| ==> y.acks[j].kind.Y? || y.acks[j].kind.N?
  {
    hide At, Partial, Closed;
    forall j | 0 <= j < |y.acks| ensures y.acks[j].kind.Y? || y.acks[j].kind.N? {
      assert IsAck(y.acks[j], if j < k then v - 1 else v);
    }
  }

  /** The receiver times out: it has a try less, and its NAK may stand for an answer. */
  lemma {:induction false} SilenceAlive(files: seq<Document>, y: Sys, v: nat, w: nat, i: nat, k: nat)
    requires Transfer(files) && Sound(files, y, v, w, i, k) && Within(files, y.sender.at)
    requires Alive(files, ReceiverActs(y, ReceiverTimesOut))
    ensures Alive(files, y)
  {
    hide Inv, Blame, At, HasNum, HasMove, Advance, Acknowledged;
    var s, r := y.sender, y.receiver;
    WithinNow(files, y, v, w, i, k);
    if Active(s.at.state) && Active(r.state) && r.numtry <= MAXTRY {
      Numbers(files, y, v, w, i, k);
      Silence(r);
      MoveMore(s, y.acks, Msg(N, r.n, []));
    }
  }

  /** The receiver gets a packet. */
  lemma {:induction false} PacketAlive(files: seq<Document>, y: Sys, a: Action, v: nat, w: nat, i: nat, k: nat)
    requires Transfer(files) && Sound(files, y, v, w, i, k) && a.ReceiverHears? && Within(files, y.sender.at)
    requires Alive(files, ReceiverActs(y, a))
    ensures Alive(files, y)
  {
    hide Inv, Blame, At, HasNum, HasMove, Advance, ReceiverHear;
    var s, r := y.sender, y.receiver;
    WithinNow(files, y, v, w, i, k);
    if Active(s.at.state) && Active(r.state) && r.numtry <= MAXTRY && y.data != [] {
      Numbers(files, y, v, w, i, k);
      var m := y.data[0];
      HasNumAt(y.data, 0);
      ReceiverIs(files, y, v, w, i, k);
      if w == v + 1 || i > 0 {
        OldCounts(files, r, m, w, a.canOpen, a.remote);
        if HasNum(y.data[1..], s.n) { NumKept(y.data, s.n); }
        var y' := ReceiverActs(y, a);
        if w == v {
          assert WantsIt(y') ==> WantsIt(y);
        } else {
          assert r.n != s.n;
          assert HasIt(files, y') ==> HasIt(files, y);
        }
      } else {
        NewCounts(files, r, m, w, a.canOpen, a.remote);
        NewPacket(files, r, m, w, a.canOpen, a.remote);
        NextIs(files, ReceiverHear(r, Heard(m), a.canOpen, a.remote).0, v);
      }
    }
  }

  lemma {:induction false} HasNumAt(ms: seq<Msg>, j: nat)
    requires j < |ms|
    ensures HasNum(ms, ms[j].num)
  {
  }

  lemma {:induction false} ReceiverIs(files: seq<Document>, y: Sys, v: nat, w: nat, i: nat, k: nat)
    requires Transfer(files) && Sound(files, y, v, w, i, k)
    ensures ReceiverAt(files, y.receiver, w)
    ensures y.data != [] ==> IsCopy(files, y.data[0], if i > 0 then v - 1 else v)
    ensures w == v + 1 ==> i == 0
  {
    hide At, ReceiverAt, IsCopy;
  }

  lemma {:induction false} NextIs(files: seq<Document>, r: Receiver, v: nat)
    requires Transfer(files) && (r.state.Abort? || ReceiverAt(files, r, v + 1))
    ensures Active(r.state) ==> r.n == (v + 1) % 64
    ensures (v + 1) % 64 != v % 64
  {
    hide At, Closed, Partial;
  }

  lemma {:induction false} NumLost(ms: seq<Msg>, l: nat, n: int)
    requires l < |ms| && HasNum(ms[..l] + ms[l + 1..], n)
    ensures HasNum(ms, n)
  {
    var less := ms[..l] + ms[l + 1..];
    var j :| 0 <= j < |less| && less[j].num == n;
    assert ms[if j < l then j else j + 1].num == n;
  }

  lemma {:induction false} MoveLost(s: Sender, ms: seq<Msg>, l: nat)
    requires l < |ms| && HasMove(s, ms[..l] + ms[l + 1..])
    ensures HasMove(s, ms)
  {
    var less := ms[..l] + ms[l + 1..];
    var j :| 0 <= j < |less| && Moves(s, less[j]);
    assert Moves(s, ms[if j < l then j else j + 1]);
  }

  lemma {:induction false} LossAlive(files: seq<Document>, y: Sys, a: Action)
    requires Transfer(files) && Within(files, y.sender.at) && (a.LoseData? || a.LoseAck?)
    requires Within(files, Act(files, y, a).sender.at) && Alive(files, Act(files, y, a))
    ensures Alive(files, y)
  {
    hide HasNum, HasMove;
    if a.LoseData? && a.j < |y.data| {
      var less := y.data[..a.j] + y.data[a.j + 1..];
      if HasNum(less, y.sender.n) { NumLost(y.data, a.j, y.sender.n); }
      if HasNum(less, Prev(y.sender.n)) { NumLost(y.data, a.j, Prev(y.sender.n)); }
    }
    if a.LoseAck? && a.j < |y.acks| {
      if HasMove(y.sender, y.acks[..a.j] + y.acks[a.j + 1..]) { MoveLost(y.sender, y.acks, a.j); }
    }
  }

  lemma {:induction false} StepAlive(files: seq<Document>, y: Sys, a: Action)
    requires Transfer(files) && Within(files, y.sender.at) && Consistent(files, y) && Blame(y)
    requires Within(files, Act(files, y, a).sender.at) && Alive(files, Act(files, y, a))
    ensures Alive(files, y)
  {
    hide Inv, Blame, Alive, SenderActs, ReceiverActs;
    var v: nat, w: nat, i: nat, k: nat :| Inv(files, y, v, w, i, k);
    if a.LoseData? || a.LoseAck? {
      LossAlive(files, y, a);
    } else if a.ReceiverHears? {
      PacketAlive(files, y, a, v, w, i, k);
    } else if a.ReceiverTimesOut? {
      SilenceAlive(files, y, v, w, i, k);
    } else if a.SenderHears? {
      HearAlive(files, y, v, w, i, k);
    } else if a.SenderTries? {
      TryAlive(files, y, a);
    } else {
      TimeoutAlive(files, y);
    }
  }

  /** If a run ends with the transfer alive it was so all along. */
  lemma {:induction false} AliveBefore(files: seq<Document>, acts: seq<Action>, more: seq<Action>)
    requires Transfer(files) && Alive(files, Run(files, acts + more))
    ensures Alive(files, Run(files, acts))
    decreases |more|
  {
    hide Act, Alive, Consistent, Blame;
    if more == [] {
      assert acts + more == acts;
    } else {
      var less, a := more[..|more| - 1], more[|more| - 1];
      assert acts + more == (acts + less) + [a];
      RunSnoc(files, acts + less, a);
      RunKeeps(files, acts + less);
      NeverOutOfStep(files, acts + less);
      StepAlive(files, Run(files, acts + less), a);
      AliveBefore(files, acts, less);
    }
  }

  // ----- and one that is alive can be completed -----------------------------------------------

  /** all continues acts, opening every file. */
  ghost predicate Continues(acts: seq<Action>, all: seq<Action>) {
    acts <= all && forall j :: |acts| <= j < |all| ==> Opens(all[j])
  }

  /** And loses nothing more. */
  ghost predicate Loses(acts: seq<Action>, all: seq<Action>) {
    exists j :: |acts| <= j < |all| && (all[j].LoseData? || all[j].LoseAck?)
  }

  lemma {:induction false} Then(files: seq<Document>, acts: seq<Action>, all: seq<Action>, a: Action)
    requires Transfer(files) && Continues(acts, all) && Opens(a)
    ensures Continues(acts, all + [a]) && Run(files, all + [a]) == Act(files, Run(files, all), a)
    ensures !a.LoseData? && !a.LoseAck? && !Loses(acts, all) ==> !Loses(acts, all + [a])
  {
    hide Act, Opens;
    RunSnoc(files, all, a);
  }

  /** The line loses the packets from lo up to hi. */
  lemma {:induction false} LosePackets(files: seq<Document>, acts: seq<Action>, was: seq<Action>, lo: nat, hi: nat)
    returns (all: seq<Action>)
    requires Transfer(files) && Continues(acts, was) && lo <= hi <= |Run(files, was).data|
    ensures Continues(acts, all)
    ensures var y := Run(files, was); Run(files, all) == y.(data := y.data[..lo] + y.data[hi..])
    ensures lo == hi ==> all == was
    decreases hi
  {
    hide Run;
    var y := Run(files, was);
    if lo == hi {
      all := was;
      assert y.data[..lo] + y.data[hi..] == y.data;
    } else {
      Then(files, acts, was, LoseData(hi - 1));
      var z := Run(files, was + [LoseData(hi - 1)]);
      assert z.data[..lo] == y.data[..lo] && z.data[hi - 1..] == y.data[hi..];
      all := LosePackets(files, acts, was + [LoseData(hi - 1)], lo, hi - 1);
    }
  }

  /** And the answers from lo up to hi. */
  lemma {:induction false} LoseAnswers(files: seq<Document>, acts: seq<Action>, was: seq<Action>, lo: nat, hi: nat)
    returns (all: seq<Action>)
    requires Transfer(files) && Continues(acts, was) && lo <= hi <= |Run(files, was).acks|
    ensures Continues(acts, all)
    ensures var y := Run(files, was); Run(files, all) == y.(acks := y.acks[..lo] + y.acks[hi..])
    ensures lo == hi ==> all == was
    decreases hi
  {
    hide Run;
    var y := Run(files, was);
    if lo == hi {
      all := was;
      assert y.acks[..lo] + y.acks[hi..] == y.acks;
    } else {
      Then(files, acts, was, LoseAck(hi - 1));
      var z := Run(files, was + [LoseAck(hi - 1)]);
      assert z.acks[..lo] == y.acks[..lo] && z.acks[hi - 1..] == y.acks[hi..];
      all := LoseAnswers(files, acts, was + [LoseAck(hi - 1)], lo, hi - 1);
    }
  }

  /** What is left when the line loses all but the element at j, or all. */
  function Only(ms: seq<Msg>, j: int): seq<Msg> { if 0 <= j < |ms| then [ms[j]] else [] }

  lemma {:induction false} LoseBut(files: seq<Document>, acts: seq<Action>, was: seq<Action>, j: int, k: int)
    returns (all: seq<Action>)
    requires Transfer(files) && Continues(acts, was)
    ensures Continues(acts, all)
    ensures var y := Run(files, was); Run(files, all) == y.(data := Only(y.data, j), acks := Only(y.acks, k))
    ensures Run(files, was).data == [] && Run(files, was).acks == [] ==> all == was
  {
    hide Run;
    var y := Run(files, was);
    all := was;
    if 0 <= j < |y.data| {
      all := LosePackets(files, acts, all, j + 1, |y.data|);
      all := LosePackets(files, acts, all, 0, j);
      assert (y.data[..j + 1] + y.data[|y.data|..])[j..] == [y.data[j]];
    } else {
      all := LosePackets(files, acts, all, 0, |y.data|);
    }
    var z := Run(files, all);
    assert z.data == Only(y.data, j) && z.acks == y.acks;
    if 0 <= k < |z.acks| {
      all := LoseAnswers(files, acts, all, k + 1, |z.acks|);
      all := LoseAnswers(files, acts, all, 0, k);
      assert (z.acks[..k + 1] + z.acks[|z.acks|..])[k..] == [z.acks[k]];
    } else {
      all := LoseAnswers(files, acts, all, 0, |z.acks|);
    }
  }

  /** From a line that is quiet the transfer runs to its end, and nothing need be lost. */
  lemma {:induction false} Completes(files: seq<Document>, acts: seq<Action>, was: seq<Action>, v: nat)
    returns (all: seq<Action>)
    requires Transfer(files) && Continues(acts, was) && Quiet(files, Run(files, was), v)
    ensures Continues(acts, all) && (!Loses(acts, was) ==> !Loses(acts, all))
    ensures var y := Run(files, all); y.sender.at.state.Complete? && y.receiver.state.Complete?
  {
    hide Run, Quiet;
    all := QuietLine(files, was, v);
    Delivery(files, all);
  }

  /** The sender transmits once more. */
  lemma {:induction false} Again(files: seq<Document>, acts: seq<Action>, was: seq<Action>) returns (all: seq<Action>)
    requires Transfer(files) && Continues(acts, was)
    requires var s := Run(files, was).sender; Active(s.at.state) && CanSend(s)
    ensures Continues(acts, all) && (!Loses(acts, was) ==> !Loses(acts, all))
    ensures var y, z := Run(files, was), Run(files, all);
      && z.receiver == y.receiver && z.acks == y.acks && z.data == y.data + [PacketAt(files, y.sender.at, y.sender.n)]
      && z.sender.at == y.sender.at && z.sender.n == y.sender.n && z.sender.waiting
  {
    hide Run, Opens;
    var y := Run(files, was);
    all := was;
    if y.sender.waiting {
      Then(files, acts, was, SenderTimesOut) by { OpensIs(SenderTimesOut); }
      all := was + [SenderTimesOut];
    }
    OpensIs(SenderTries(true, false));
    Then(files, acts, all, SenderTries(true, false));
    all := all + [SenderTries(true, false)];
  }

  lemma {:induction false} OpensIs(a: Action)
    ensures Opens(a) <==> ((a.SenderTries? || a.ReceiverHears?) ==> a.canOpen)
  {
  }

  /** The sender hears that the receiver has the packet. */
  lemma {:induction false} Answered(files: seq<Document>, y: Sys, v: nat)
    requires Transfer(files) && y.sender.at == At(files, v) && Active(y.sender.at.state) && y.sender.waiting
    requires SenderAt(files, y.sender, v) && ReceiverAt(files, y.receiver, v + 1)
    requires Lasting(files, y.receiver, v + 1)
    requires y.data == [] && |y.acks| == 1 && Moves(y.sender, y.acks[0])
    ensures Within(files, y.sender.at) && Quiet(files, SenderActs(files, y, SenderHears), v + 1)
  {
    hide At, ReceiverAt, Lasting, SenderHear, Advance;
    AtFacts(files, v);
    AtNext(files, v);
    AtFacts(files, v + 1);
    Mod64(v);
    HearMoves(files, y.sender, y.acks[0]);
  }

  /** Take the last three steps of a packet that is alone on the line. */
  lemma {:induction false} Deliver(files: seq<Document>, acts: seq<Action>, was: seq<Action>, v: nat)
    returns (all: seq<Action>)
    requires Transfer(files) && Continues(acts, was)
    requires var y := Run(files, was);
      && y.sender.at == At(files, v) && Active(y.sender.at.state) && y.sender.waiting
      && SenderAt(files, y.sender, v) && ReceiverAt(files, y.receiver, v) && Lasting(files, y.receiver, v)
      && y.data == [PacketAt(files, At(files, v), v % 64)] && y.acks == []
    ensures Continues(acts, all) && (!Loses(acts, was) ==> !Loses(acts, all))
    ensures var z := Run(files, all); z.sender.at.state.Complete? && z.receiver.state.Complete?
  {
    hide Run, Opens, At, SenderAt, ReceiverAt, Lasting, Quiet, ReceiverActs, SenderActs;
    var y := Run(files, was);
    Delivered(files, y, v);
    OpensIs(ReceiverHears(true, false));
    OpensIs(SenderHears);
    Then(files, acts, was, ReceiverHears(true, false));
    var a1 := was + [ReceiverHears(true, false)];
    Then(files, acts, a1, SenderHears);
    all := Completes(files, acts, a1 + [SenderHears], v + 1);
  }

  lemma {:induction false} Answer(files: seq<Document>, acts: seq<Action>, was: seq<Action>, v: nat)
    returns (all: seq<Action>)
    requires Transfer(files) && Continues(acts, was)
    requires var y := Run(files, was);
      && y.sender.at == At(files, v) && Active(y.sender.at.state) && y.sender.waiting
      && SenderAt(files, y.sender, v) && ReceiverAt(files, y.receiver, v + 1) && Lasting(files, y.receiver, v + 1)
      && y.data == [] && |y.acks| == 1 && Moves(y.sender, y.acks[0])
    ensures Continues(acts, all) && (!Loses(acts, was) ==> !Loses(acts, all))
    ensures var z := Run(files, all); z.sender.at.state.Complete? && z.receiver.state.Complete?
  {
    hide Run, Opens, At, SenderAt, ReceiverAt, Lasting, Quiet, SenderActs, Moves;
    Answered(files, Run(files, was), v);
    OpensIs(SenderHears);
    Then(files, acts, was, SenderHears);
    all := Completes(files, acts, was + [SenderHears], v + 1);
  }

  /** The receiver answers a repetition that is alone on the line. */
  lemma {:induction false} Repeat(files: seq<Document>, acts: seq<Action>, was: seq<Action>, v: nat)
    returns (all: seq<Action>)
    requires Transfer(files) && Continues(acts, was)
    requires var y := Run(files, was);
      && y.sender.at == At(files, v) && Active(y.sender.at.state) && y.sender.waiting
      && SenderAt(files, y.sender, v) && ReceiverAt(files, y.receiver, v + 1) && Active(y.receiver.state)
      && y.receiver.numtry <= MAXTRY && y.receiver.oldtry <= MAXTRY
      && y.data == [PacketAt(files, At(files, v), v % 64)] && y.acks == []
    ensures Continues(acts, all) && (!Loses(acts, was) ==> !Loses(acts, all))
    ensures var z := Run(files, all); z.sender.at.state.Complete? && z.receiver.state.Complete?
  {
    hide Run, Opens, At, Closed, Partial, Moves, ReceiverHear;
    var y := Run(files, was);
    AtFacts(files, v);
    OldCounts(files, y.receiver, y.data[0], v + 1, true, false);
    OldPacket(files, y.receiver, y.data[0], v + 1, true, false);
    OpensIs(ReceiverHears(true, false));
    Then(files, acts, was, ReceiverHears(true, false));
    var a1 := was + [ReceiverHears(true, false)];
    AckIsMove(y.sender, v);
    all := Answer(files, acts, a1, v);
  }

  lemma {:induction false} AckIsMove(s: Sender, v: nat)
    requires s.n == v % 64
    ensures Moves(s, Msg(Y, v % 64, []))
    ensures !s.at.state.Init? ==> Moves(s, Msg(N, (v + 1) % 64, []))
  {
    Mod64(v);
  }

  /** The receiver wants the packet, and has the tries for it. */
  lemma {:induction false} SaveWanted(files: seq<Document>, acts: seq<Action>, was: seq<Action>, v: nat, j: int)
    returns (all: seq<Action>)
    requires Transfer(files) && Continues(acts, was)
    requires var y := Run(files, was);
      && y.sender.at == At(files, v) && Active(y.sender.at.state) && SenderAt(files, y.sender, v)
      && ReceiverAt(files, y.receiver, v) && Lasting(files, y.receiver, v)
      && (CanSend(y.sender) || (y.sender.waiting && 0 <= j < |y.data| &&
            y.data[j] == PacketAt(files, At(files, v), v % 64)))
    ensures Continues(acts, all)
    ensures var y := Run(files, was); y.data == [] && y.acks == [] && !Loses(acts, was) ==> !Loses(acts, all)
    ensures var z := Run(files, all); z.sender.at.state.Complete? && z.receiver.state.Complete?
  {
    hide Run, Opens, At, ReceiverAt, Lasting;
    AtFacts(files, v);
    var y := Run(files, was);
    if CanSend(y.sender) {
      var a1 := LoseBut(files, acts, was, -1, -1);
      var a2 := Again(files, acts, a1);
      all := Deliver(files, acts, a2, v);
    } else {
      var a1 := LoseBut(files, acts, was, j, -1);
      all := Deliver(files, acts, a1, v);
    }
  }

  /** The receiver has it already; the sender may be told by a repetition. */
  lemma {:induction false} SaveRepeated(files: seq<Document>, acts: seq<Action>, was: seq<Action>, v: nat)
    returns (all: seq<Action>)
    requires Transfer(files) && Continues(acts, was)
    requires var y := Run(files, was);
      && y.sender.at == At(files, v) && Active(y.sender.at.state) && SenderAt(files, y.sender, v)
      && ReceiverAt(files, y.receiver, v + 1) && Active(y.receiver.state)
      && y.receiver.numtry <= MAXTRY && y.receiver.oldtry <= MAXTRY
      && (CanSend(y.sender) ||
            (y.sender.waiting && y.data != [] && y.data[0] == PacketAt(files, At(files, v), v % 64)))
    ensures Continues(acts, all)
    ensures var y := Run(files, was); y.data == [] && y.acks == [] && !Loses(acts, was) ==> !Loses(acts, all)
    ensures var z := Run(files, all); z.sender.at.state.Complete? && z.receiver.state.Complete?
  {
    hide Run, Opens, At, ReceiverAt, Lasting;
    AtFacts(files, v);
    var y := Run(files, was);
    if CanSend(y.sender) {
      var a1 := LoseBut(files, acts, was, -1, -1);
      var a2 := Again(files, acts, a1);
      all := Repeat(files, acts, a2, v);
    } else {
      var a1 := LoseBut(files, acts, was, 0, -1);
      all := Repeat(files, acts, a1, v);
    }
  }

  /** The sender comes to wait for an answer. */
  lemma {:induction false} Listen(files: seq<Document>, acts: seq<Action>, was: seq<Action>) returns (all: seq<Action>)
    requires Transfer(files) && Continues(acts, was)
    requires var s := Run(files, was).sender; Active(s.at.state) && CanHear(s)
    ensures Continues(acts, all)
    ensures var y, z := Run(files, was), Run(files, all);
      && z.receiver == y.receiver && z.acks == y.acks
      && z.sender.at == y.sender.at && z.sender.n == y.sender.n && z.sender.waiting
  {
    hide Run, Opens;
    all := was;
    if !Run(files, was).sender.waiting { all := Again(files, acts, was); }
  }

  /** Or by an answer that is on its way. */
  lemma {:induction false} SaveAnswered(files: seq<Document>, acts: seq<Action>, was: seq<Action>, v: nat)
    returns (all: seq<Action>)
    requires Transfer(files) && Continues(acts, was)
    requires var y := Run(files, was);
      && y.sender.at == At(files, v) && Active(y.sender.at.state) && SenderAt(files, y.sender, v)
      && ReceiverAt(files, y.receiver, v + 1) && Lasting(files, y.receiver, v + 1)
      && CanHear(y.sender) && HasMove(y.sender, y.acks)
    ensures Continues(acts, all)
    ensures var z := Run(files, all); z.sender.at.state.Complete? && z.receiver.state.Complete?
  {
    hide Run, Opens, At, ReceiverAt, Lasting, Moves;
    AtFacts(files, v);
    var y := Run(files, was);
    var k :| 0 <= k < |y.acks| && Moves(y.sender, y.acks[k]);
    var a1 := Listen(files, acts, was);
    var a2 := LoseBut(files, acts, a1, -1, k);
    SameMoves(y.sender, Run(files, a2).sender, y.acks[k]);
    all := Answer(files, acts, a2, v);
  }

  lemma {:induction false} SameMoves(s: Sender, t: Sender, m: Msg)
    requires s.n == t.n && s.at == t.at
    ensures Moves(s, m) <==> Moves(t, m)
  {
  }

  /** Or by a NAK for the packet behind it. */
  lemma {:induction false} SaveByNak(files: seq<Document>, acts: seq<Action>, was: seq<Action>, v: nat)
    returns (all: seq<Action>)
    requires Transfer(files) && Continues(acts, was)
    requires var y := Run(files, was);
      && y.sender.at == At(files, v) && Active(y.sender.at.state) && SenderAt(files, y.sender, v)
      && ReceiverAt(files, y.receiver, v + 1) && Active(y.receiver.state) && v > 0
      && y.receiver.numtry < (if At(files, v + 1).state.Eof? then MAXTRY - 1 else MAXTRY)
      && CanHear(y.sender)
    ensures Continues(acts, all)
    ensures var z := Run(files, all); z.sender.at.state.Complete? && z.receiver.state.Complete?
  {
    hide Run, Opens, At, Moves, Closed, Partial;
    AtFacts(files, v);
    var a1 := Listen(files, acts, was);
    var a2 := LoseBut(files, acts, a1, -1, -1);
    OpensIs(ReceiverTimesOut);
    Then(files, acts, a2, ReceiverTimesOut);
    var y := Run(files, a2);
    Silence(y.receiver);
    AckIsMove(y.sender, v);
    all := Answer(files, acts, a2 + [ReceiverTimesOut], v);
  }

  /** The receiver has no try to spare for the end of the file, but a repetition on the line
      will reset its counter. */
  lemma {:induction false} Reset(files: seq<Document>, acts: seq<Action>, was: seq<Action>, v: nat, j: nat, k: nat)
    returns (all: seq<Action>)
    requires Transfer(files) && Continues(acts, was)
    requires var y := Run(files, was);
      && y.sender.at == At(files, v) && Active(y.sender.at.state) && SenderAt(files, y.sender, v)
      && ReceiverAt(files, y.receiver, v) && Active(y.receiver.state)
      && y.receiver.numtry <= MAXTRY && y.receiver.oldtry <= MAXTRY
      && j < |y.data| && IsCopy(files, y.data[j], v - 1) && !y.data[j].kind.E?
      && (CanSend(y.sender) || (y.sender.waiting && j < k < |y.data| &&
            y.data[k] == PacketAt(files, At(files, v), v % 64)))
    ensures Continues(acts, all)
    ensures var z := Run(files, all); z.sender.at.state.Complete? && z.receiver.state.Complete?
  {
    hide Run, Opens, At, Closed, Partial, ReceiverHear, IsCopy;
    AtFacts(files, v);
    var y := Run(files, was);
    var a1 := LosePackets(files, acts, was, 0, j);
    var y1 := Run(files, a1);
    assert y1.data[0] == y.data[j] && (j < k < |y.data| ==> y1.data[k - j] == y.data[k]);
    OldCounts(files, y.receiver, y.data[j], v, true, false);
    OldPacket(files, y.receiver, y.data[j], v, true, false);
    OpensIs(ReceiverHears(true, false));
    Then(files, acts, a1, ReceiverHears(true, false));
    all := SaveWanted(files, acts, a1 + [ReceiverHears(true, false)], v, k - j - 1);
  }

  /** A packet with the sender's number is a copy of its packet, and lies behind those with
      the number before, which are copies of that. */
  lemma {:induction false} CopyAt(files: seq<Document>, y: Sys, v: nat, w: nat, i: nat, k: nat, j: nat)
    requires Transfer(files) && Sound(files, y, v, w, i, k) && Active(y.sender.at.state) && !y.receiver.state.Abort?
    requires j < |y.data|
    ensures !y.data[j].kind.E?
    ensures y.data[j].num == y.sender.n ==> j >= i && y.data[j] == PacketAt(files, At(files, v), v % 64)
    ensures y.data[j].num == Prev(y.sender.n) ==> j < i && IsCopy(files, y.data[j], v - 1)
  {
    hide Inv, Blame, At;
    Numbers(files, y, v, w, i, k);
    CopyIs(files, y, v, w, i, k, j);
  }

  lemma {:induction false} CopyIs(files: seq<Document>, y: Sys, v: nat, w: nat, i: nat, k: nat, j: nat)
    requires Transfer(files) && Inv(files, y, v, w, i, k) && j < |y.data|
    ensures IsCopy(files, y.data[j], if j < i then v - 1 else v)
  {
    hide At, IsCopy;
  }

  /** The sides by themselves, out of the invariant. */
  lemma {:induction false} Sides(files: seq<Document>, y: Sys, v: nat, w: nat, i: nat, k: nat)
    requires Transfer(files) && Sound(files, y, v, w, i, k)
    ensures SenderAt(files, y.sender, v) && ReceiverAt(files, y.receiver, w)
  {
    hide At, SenderAt, ReceiverAt;
  }

  lemma {:induction false} SaveWants(files: seq<Document>, acts: seq<Action>, v: nat, w: nat, i: nat, k: nat)
    returns (all: seq<Action>)
    requires Transfer(files) && Sound(files, Run(files, acts), v, w, i, k) && w == v
    requires Active(Run(files, acts).sender.at.state) && Active(Run(files, acts).receiver.state)
    requires WantsIt(Run(files, acts))
    ensures Continues(acts, all)
    ensures var y := Run(files, acts); y.data == [] && y.acks == [] ==> !Loses(acts, all)
    ensures var z := Run(files, all); z.sender.at.state.Complete? && z.receiver.state.Complete?
  {
    hide Run, At, Inv, Blame, ReceiverAt;
    var y := Run(files, acts);
    Numbers(files, y, v, w, i, k);
    Sides(files, y, v, w, i, k);
    var j := -1;
    if !CanSend(y.sender) {
      j :| 0 <= j < |y.data| && y.data[j].num == y.sender.n;
      CopyAt(files, y, v, w, i, k, j);
    }
    if y.sender.at.state.Eof? && y.receiver.numtry == MAXTRY {
      var l :| 0 <= l < |y.data| && y.data[l].num == Prev(y.sender.n);
      CopyAt(files, y, v, w, i, k, l);
      all := Reset(files, acts, acts, v, l, if j < 0 then 0 else j);
    } else {
      all := SaveWanted(files, acts, acts, v, j);
    }
  }

  lemma {:induction false} SaveHas(files: seq<Document>, acts: seq<Action>, v: nat, w: nat, i: nat, k: nat)
    returns (all: seq<Action>)
    requires Transfer(files) && Sound(files, Run(files, acts), v, w, i, k) && w == v + 1
    requires Active(Run(files, acts).sender.at.state) && Active(Run(files, acts).receiver.state)
    requires HasIt(files, Run(files, acts))
    ensures Continues(acts, all)
    ensures var y := Run(files, acts);
      y.data == [] && y.acks == [] && CanSend(y.sender) && y.receiver.oldtry <= MAXTRY ==> !Loses(acts, all)
    ensures var z := Run(files, all); z.sender.at.state.Complete? && z.receiver.state.Complete?
  {
    hide Run, At, Inv, Blame, ReceiverAt, HasMove, Advance;
    var y := Run(files, acts);
    Numbers(files, y, v, w, i, k);
    Sides(files, y, v, w, i, k);
    AtNext(files, v);
    AtFacts(files, v);
    if (CanSend(y.sender) || y.data != []) && y.receiver.oldtry <= MAXTRY {
      if y.data != [] { CopyAt(files, y, v, w, i, k, 0); }
      all := SaveRepeated(files, acts, acts, v);
    } else if HasMove(y.sender, y.acks) && y.receiver.numtry <=
        (if Advance(files, y.sender.at).state.Eof? then MAXTRY - 1 else MAXTRY) {
      all := SaveAnswered(files, acts, acts, v);
    } else {
      all := SaveByNak(files, acts, acts, v);
    }
  }

  /** A transfer that is alive can be completed, if the line then loses the right things, and
      every file opens. */
  lemma {:induction false} Recovers(files: seq<Document>, acts: seq<Action>) returns (all: seq<Action>)
    requires Transfer(files) && Alive(files, Run(files, acts))
    ensures Continues(acts, all)
    ensures var z := Run(files, all); z.sender.at.state.Complete? && z.receiver.state.Complete?
  {
    hide Run, At, Inv, Blame, ReceiverAt, WantsIt, HasIt, HasMove;
    var y := Run(files, acts);
    RunKeeps(files, acts);
    NeverOutOfStep(files, acts);
    var v: nat, w: nat, i: nat, k: nat :| Inv(files, y, v, w, i, k);
    Sides(files, y, v, w, i, k);
    if y.sender.at.state.Complete? {
      Delivery(files, acts);
      all := acts;
    } else {
      Numbers(files, y, v, w, i, k);
      if y.receiver.state.Complete? {
        all := SaveAnswered(files, acts, acts, v);
      } else if w == v {
        all := SaveWants(files, acts, v, w, i, k);
      } else {
        all := SaveHas(files, acts, v, w, i, k);
      }
    }
  }

  /** In every run: there is a continuation in which both sides end well if and only if the
      transfer is alive. */
  lemma {:induction false} CanBeCompleted(files: seq<Document>, acts: seq<Action>)
    requires Transfer(files)
    ensures (exists all: seq<Action> {:trigger Run(files, all)} ::
        acts <= all && Run(files, all).sender.at.state.Complete? && Run(files, all).receiver.state.Complete?) <==>
      Alive(files, Run(files, acts))
  {
    hide Run;
    if Alive(files, Run(files, acts)) {
      var all := Recovers(files, acts);
    }
    if all: seq<Action> :|
      acts <= all && Run(files, all).sender.at.state.Complete? && Run(files, all).receiver.state.Complete?
    {
      assert acts + all[|acts|..] == all;
      AliveBefore(files, acts, all[|acts|..]);
    }
  }

  // ----- without losing anything more ---------------------------------------------------------

  /** The place of the first answer that moves the sender on. */
  function FirstMove(s: Sender, ms: seq<Msg>): (u: nat)
    ensures u <= |ms| && (u < |ms| ==> Moves(s, ms[u])) && forall j :: 0 <= j < u ==> !Moves(s, ms[j])
  {
    if ms == [] || Moves(s, ms[0]) then 0 else 1 + FirstMove(s, ms[1..])
  }

  predicate Answers(ms: seq<Msg>) { forall j :: 0 <= j < |ms| ==> ms[j].kind.Y? || ms[j].kind.N? }

  /** Both sides at work, no packet on the line, and the sender about to transmit. */
  ghost predicate Between(files: seq<Document>, y: Sys, v: nat, w: nat)
    requires Transfer(files)
  {
    && y.data == [] && !y.sender.waiting && y.sender.at == At(files, v) && SenderAt(files, y.sender, v)
    && Active(y.sender.at.state) && Active(y.receiver.state) && ReceiverAt(files, y.receiver, w)
    && v <= w <= v + 1 && Answers(y.acks)
  }

  /** The receiver after the packet that the sender is at, which it wants or has. */
  ghost function Took(files: seq<Document>, r: Receiver, v: nat, w: nat): (int, int)
    requires Transfer(files)
  {
    if w == v + 1 then (0, r.oldtry + 1)
    else if At(files, v).state.Eof? then (r.numtry + 1, r.oldtry)
    else (0, r.numtry + 1)
  }

  /** The sender transmits and the receiver answers. */
  lemma {:induction false} Exchange(files: seq<Document>, acts: seq<Action>, was: seq<Action>, v: nat, w: nat)
    returns (all: seq<Action>)
    requires Transfer(files) && Continues(acts, was) && !Loses(acts, was) && Between(files, Run(files, was), v, w)
    requires var y := Run(files, was);
      && y.sender.numtry <= MAXTRY && y.receiver.numtry <= MAXTRY && (w == v + 1 ==> y.receiver.oldtry <= MAXTRY)
    ensures Continues(acts, all) && !Loses(acts, all)
    ensures var y, z := Run(files, was), Run(files, all);
      && z.data == [] && z.acks == y.acks + [Msg(Y, v % 64, [])] && z.sender.waiting
      && z.sender.at == y.sender.at && z.sender.n == y.sender.n && z.sender.numtry == y.sender.numtry + 1
      && SenderAt(files, z.sender, v) && ReceiverAt(files, z.receiver, v + 1) && !z.receiver.state.Abort?
      && (if At(files, v + 1).state.Complete? then z.receiver.state.Complete?
          else Active(z.receiver.state) && (z.receiver.numtry, z.receiver.oldtry) == Took(files, y.receiver, v, w))
  {
    hide Run, Opens, Continues, Loses, At, Closed, Partial, ReceiverHear, SenderHear;
    AtFacts(files, v);
    AtFacts(files, v + 1);
    var y := Run(files, was);
    OpensIs(SenderTries(true, false));
    Then(files, acts, was, SenderTries(true, false));
    var a1 := was + [SenderTries(true, false)];
    var m := PacketAt(files, At(files, v), v % 64);
    assert Run(files, a1).data == [m];
    if w == v {
      NewPacket(files, y.receiver, m, v, true, false);
      NewCounters(files, y.receiver, m, v);
    } else {
      OldCounts(files, y.receiver, m, v + 1, true, false);
      OldPacket(files, y.receiver, m, v + 1, true, false);
    }
    OpensIs(ReceiverHears(true, false));
    Then(files, acts, a1, ReceiverHears(true, false));
    all := a1 + [ReceiverHears(true, false)];
  }

  lemma {:induction false} NewCounters(files: seq<Document>, r: Receiver, m: Msg, w: nat)
    requires Transfer(files) && ReceiverAt(files, r, w) && Active(r.state) && IsCopy(files, m, w) && !m.kind.E?
    ensures var t := ReceiverHear(r, Heard(m), true, false).0;
      && !t.state.Abort? && (t.state.Complete? <==> At(files, w).state.Break?)
      && (t.state.Complete? <==> At(files, w + 1).state.Complete?)
      && (Active(t.state) ==> (t.numtry, t.oldtry) == Took(files, r, w, w))
  {
    hide At, Closed, Partial;
    AtFacts(files, w);
    AtNext(files, w);
  }

  /** The sender hears the first answer. */
  lemma {:induction false} HearFirst(files: seq<Document>, acts: seq<Action>, was: seq<Action>, v: nat)
    returns (all: seq<Action>)
    requires Transfer(files) && Continues(acts, was) && !Loses(acts, was)
    requires var y := Run(files, was);
      && y.sender.waiting && y.sender.at == At(files, v) && SenderAt(files, y.sender, v) && Active(y.sender.at.state)
      && y.acks != [] && Answers(y.acks)
    ensures Continues(acts, all) && !Loses(acts, all)
    ensures var y, z := Run(files, was), Run(files, all);
      && z.data == y.data && z.acks == y.acks[1..] && z.receiver == y.receiver && !z.sender.waiting
      && (if Moves(y.sender, y.acks[0]) then
            z.sender.at == At(files, v + 1) && SenderAt(files, z.sender, v + 1) && z.sender.numtry == 0
          else
            && z.sender.at == y.sender.at && z.sender.n == y.sender.n && z.sender.numtry == y.sender.numtry
            && SenderAt(files, z.sender, v))
  {
    hide Run, Opens, Continues, Loses, At, Advance, SenderHear, Moves;
    var y := Run(files, was);
    AtFacts(files, v);
    AtNext(files, v);
    AtFacts(files, v + 1);
    Mod64(v);
    HearMoves(files, y.sender, y.acks[0]);
    OpensIs(SenderHears);
    Then(files, acts, was, SenderHears);
    all := was + [SenderHears];
  }

  /** The receiver has ended well; the sender hears everything up to what moves it on. */
  lemma {:induction false} HearOut(files: seq<Document>, acts: seq<Action>, was: seq<Action>, v: nat, u: nat)
    returns (all: seq<Action>)
    requires Transfer(files) && Continues(acts, was) && !Loses(acts, was)
    requires var y := Run(files, was);
      && y.sender.waiting && y.sender.at == At(files, v) && SenderAt(files, y.sender, v) && Active(y.sender.at.state)
      && At(files, v + 1).state.Complete? && Answers(y.acks)
      && u < |y.acks| && Moves(y.sender, y.acks[u]) && y.sender.numtry + u <= MAXTRY + 1
    ensures Continues(acts, all) && !Loses(acts, all)
    ensures var z := Run(files, all); z.sender.at.state.Complete? && z.receiver.state.Complete?
    decreases u
  {
    hide Run, Opens, Continues, Loses, At, Moves, SenderAt;
    var y := Run(files, was);
    var a1 := HearFirst(files, acts, was, v);
    if Moves(y.sender, y.acks[0]) {
      Delivery(files, a1);
      all := a1;
    } else {
      var z := Run(files, a1);
      AtFacts(files, v);
      OpensIs(SenderTries(true, false));
      Then(files, acts, a1, SenderTries(true, false));
      var a2 := a1 + [SenderTries(true, false)];
      SameSender(files, z.sender, Run(files, a2).sender, v);
      SameMoves(y.sender, Run(files, a2).sender, y.acks[u]);
      all := HearOut(files, acts, a2, v, u - 1);
    }
  }

  lemma {:induction false} SameSender(files: seq<Document>, s: Sender, t: Sender, v: nat)
    requires Transfer(files) && SenderAt(files, s, v) && t.at == s.at && t.n == s.n
    ensures SenderAt(files, t, v)
  {
  }

  /** The answers on the line: k to the packet before v, then those to packet v. */
  ghost predicate Sorted(ms: seq<Msg>, k: nat, v: nat) {
    k <= |ms| && Answers(ms)
    && forall j {:trigger ms[j]} :: 0 <= j < |ms| ==> IsAck(ms[j], if j < k then v - 1 else v)
  }

  /** The tries suffice: u answers are heard in vain before the one that moves the sender on,
      each makes it transmit again, and each repetition is answered again, so that there are
      always as many answers too many. */
  ghost predicate Budget(files: seq<Document>, y: Sys, v: nat, w: nat, u: nat)
    requires Transfer(files)
  {
    var s, r, n := y.sender, y.receiver, |y.acks|;
    && u == FirstMove(s, y.acks) && (w == v ==> u == n)
    && s.numtry + u <= MAXTRY && 2 * n <= MAXTRY && r.numtry <= MAXTRY
    && if w == v then
         if At(files, v).state.Eof? then r.numtry < MAXTRY && r.oldtry + n <= MAXTRY + 1
         else r.numtry + 2 * n <= MAXTRY
       else r.oldtry + u + (if At(files, v + 1).state.Eof? then n else 0) <= MAXTRY
  }

  lemma {:induction false} NoneMoves(s: Sender, ms: seq<Msg>, k: nat, v: nat)
    requires Sorted(ms, k, v) && s.n == v % 64 && (s.at.state.Init? <==> v == 0)
    ensures forall j :: 0 <= j < k ==> !Moves(s, ms[j])
    ensures k == |ms| ==> FirstMove(s, ms) == |ms|
    ensures k <= FirstMove(s, ms)
  {
    hide Moves, IsAck;
    AckMoves(s, v);
    forall j | 0 <= j < k ensures !Moves(s, ms[j]) {
      assert IsAck(ms[j], v - 1);
    }
  }

  /** Behind the exchange the sender moves on from the first answer, or the answers are one
      nearer to one that moves it. */
  lemma {:induction false} HeardOne(s: Sender, t: Sender, ms: seq<Msg>, k: nat, v: nat, u: nat) returns (k': nat)
    requires Sorted(ms, k, v) && s.n == v % 64 && (s.at.state.Init? <==> v == 0) && u == FirstMove(s, ms)
    requires t.n == s.n && t.at == s.at
    ensures Sorted(ms + [Msg(Y, v % 64, [])], k, v)
    ensures var all := ms + [Msg(Y, v % 64, [])];
      && u < |all| && Moves(s, all[u]) && (Moves(s, all[0]) <==> u == 0)
      && (u == 0 ==> Sorted(all[1..], |all[1..]|, v + 1))
      && (u > 0 ==> Sorted(all[1..], k', v) && FirstMove(t, all[1..]) == u - 1)
  {
    hide Moves;
    var all := ms + [Msg(Y, v % 64, [])];
    AckIsMove(s, v);
    AckNumber(v);
    NoneMoves(s, ms, k, v);
    assert forall j :: 0 <= j < |ms| ==> all[j] == ms[j];
    k' := if k > 0 then k - 1 else 0;
    if u > 0 {
      var less := all[1..];
      assert forall j :: 0 <= j < |less| ==> less[j] == all[j + 1];
      forall j | 0 <= j < |less| ensures Moves(t, less[j]) <==> Moves(s, all[j + 1]) {
        SameMoves(s, t, all[j + 1]);
      }
      FirstIs(t, less, u - 1);
    }
  }

  lemma {:induction false} FirstIs(s: Sender, ms: seq<Msg>, u: nat)
    requires u < |ms| && Moves(s, ms[u]) && forall j :: 0 <= j < u ==> !Moves(s, ms[j])
    ensures FirstMove(s, ms) == u
  {
    hide Moves;
  }

  lemma {:induction false} BudgetNext(files: seq<Document>, y: Sys, z: Sys, v: nat, w: nat, u: nat)
    requires Transfer(files) && Budget(files, y, v, w, u) && v <= w <= v + 1 && |z.acks| == |y.acks|
    requires (z.receiver.numtry, z.receiver.oldtry) == Took(files, y.receiver, v, w)
    ensures u == 0 && z.sender.numtry == 0 && FirstMove(z.sender, z.acks) == |z.acks| ==>
      Budget(files, z, v + 1, v + 1, |z.acks|)
    ensures u > 0 && z.sender.numtry == y.sender.numtry + 1 && FirstMove(z.sender, z.acks) == u - 1 ==>
      Budget(files, z, v, v + 1, u - 1)
  {
    hide At, FirstMove;
    AfterEof(files, v);
  }

  /** An exchange and the sender's hearing of the first answer. */
  lemma {:induction false} Round(files: seq<Document>, acts: seq<Action>, was: seq<Action>, v: nat, w: nat, k: nat,
                                 u: nat)
    returns (all: seq<Action>, k': nat)
    requires Transfer(files) && Continues(acts, was) && !Loses(acts, was) && Between(files, Run(files, was), v, w)
    requires Sorted(Run(files, was).acks, k, v) && Budget(files, Run(files, was), v, w, u)
    requires !At(files, v + 1).state.Complete?
    ensures Continues(acts, all) && !Loses(acts, all)
    ensures var z := Run(files, all); Sorted(z.acks, k', if u == 0 then v + 1 else v)
    ensures var z := Run(files, all); if u == 0 then Between(files, z, v + 1, v + 1) else Between(files, z, v, v + 1)
    ensures var z := Run(files, all);
      if u == 0 then Budget(files, z, v + 1, v + 1, |z.acks|) else Budget(files, z, v, v + 1, u - 1)
  {
    hide Run, Continues, Loses, At, Moves, ReceiverAt, SenderAt, Sorted, Took, FirstMove;
    var y := Run(files, was);
    NumberAt(files, y.sender, v);
    var a1 := Exchange(files, acts, was, v, w);
    var y1 := Run(files, a1);
    var k1 := HeardOne(y.sender, y1.sender, y.acks, k, v, u);
    SortedAnswers(y1.acks, k, v);
    SameMoves(y.sender, y1.sender, y1.acks[0]);
    all := HearFirst(files, acts, a1, v);
    var z := Run(files, all);
    if u == 0 {
      k' := |z.acks|;
      NumberAt(files, z.sender, v + 1);
      NoneMoves(z.sender, z.acks, |z.acks|, v + 1);
      SortedAnswers(z.acks, k', v + 1);
    } else {
      k' := HeardOne(y.sender, z.sender, y.acks, k, v, u);
      SortedAnswers(z.acks, k', v);
    }
    BudgetNext(files, y, z, v, w, u);
  }

  lemma {:induction false} NumberAt(files: seq<Document>, s: Sender, v: nat)
    requires Transfer(files) && s.at == At(files, v) && SenderAt(files, s, v)
    ensures s.n == v % 64 && (s.at.state.Init? <==> v == 0) && !s.at.state.Abort?
    ensures !At(files, v + 1).state.Abort?
  {
    hide At;
    AtFacts(files, v);
    AtFacts(files, v + 1);
  }

  /** The last packet: the receiver ends, and the sender hears the answers that are left. */
  lemma {:induction false} LastRound(files: seq<Document>, acts: seq<Action>, was: seq<Action>, v: nat, w: nat, k: nat,
                                     u: nat)
    returns (all: seq<Action>)
    requires Transfer(files) && Continues(acts, was) && !Loses(acts, was) && Between(files, Run(files, was), v, w)
    requires Sorted(Run(files, was).acks, k, v) && Budget(files, Run(files, was), v, w, u)
    requires At(files, v + 1).state.Complete?
    ensures Continues(acts, all) && !Loses(acts, all)
    ensures var z := Run(files, all); z.sender.at.state.Complete? && z.receiver.state.Complete?
  {
    hide Run, Continues, Loses, At, Moves, ReceiverAt, SenderAt, Sorted, Took, FirstMove;
    var y := Run(files, was);
    NumberAt(files, y.sender, v);
    var a1 := Exchange(files, acts, was, v, w);
    var y1 := Run(files, a1);
    var k1 := HeardOne(y.sender, y1.sender, y.acks, k, v, u);
    SortedAnswers(y1.acks, k, v);
    SameMoves(y.sender, y1.sender, y1.acks[u]);
    all := HearOut(files, acts, a1, v, u);
  }

  lemma {:induction false} Proceeds(files: seq<Document>, acts: seq<Action>, was: seq<Action>, v: nat, w: nat, k: nat,
                                    u: nat)
    returns (all: seq<Action>)
    requires Transfer(files) && Continues(acts, was) && !Loses(acts, was) && Between(files, Run(files, was), v, w)
    requires Sorted(Run(files, was).acks, k, v) && Budget(files, Run(files, was), v, w, u)
    ensures Continues(acts, all) && !Loses(acts, all)
    ensures var z := Run(files, all); z.sender.at.state.Complete? && z.receiver.state.Complete?
    decreases Remaining(files, At(files, v)), u
  {
    hide Run, Continues, Loses, At, Sorted, Budget, Advance, Remaining;
    if At(files, v + 1).state.Complete? {
      all := LastRound(files, acts, was, v, w, k, u);
    } else {
      var a1, k' := Round(files, acts, was, v, w, k, u);
      AfterEof(files, v);
      if u == 0 {
        all := Proceeds(files, acts, a1, v + 1, v + 1, k', |Run(files, a1).acks|);
      } else {
        all := Proceeds(files, acts, a1, v, v + 1, k', u - 1);
      }
    }
  }

  /** Behind a file comes another, or the end. */
  lemma {:induction false} AfterEof(files: seq<Document>, v: nat)
    requires Transfer(files)
    ensures At(files, v).state.Eof? ==> !At(files, v + 1).state.Eof?
    ensures At(files, v + 1) == Advance(files, At(files, v))
    ensures Active(At(files, v).state) ==>
      Remaining(files, At(files, v + 1)) == Remaining(files, At(files, v)) - 1
  {
    AtNext(files, v);
  }

  lemma {:induction false} SortedAnswers(ms: seq<Msg>, k: nat, v: nat)
    requires Sorted(ms, k, v)
    ensures Answers(ms)
  {
  }

  /** No counter is ever negative. */
  ghost predicate Counters(y: Sys) { y.sender.numtry >= 0 && y.receiver.numtry >= 0 && y.receiver.oldtry >= 0 }

  lemma {:induction false} ActCounts(files: seq<Document>, y: Sys, a: Action)
    requires Within(files, y.sender.at) && Counters(y)
    ensures Counters(Act(files, y, a))
  {
  }

  lemma {:induction false} RunCounts(files: seq<Document>, acts: seq<Action>)
    requires Transfer(files)
    ensures Counters(Run(files, acts))
    decreases |acts|
  {
    hide Act, Counters;
    if acts == [] {
      assert Counters(Start()) by { StartCounts(); }
    } else {
      RunCounts(files, acts[..|acts| - 1]);
      ActCounts(files, Run(files, acts[..|acts| - 1]), acts[|acts| - 1]);
    }
  }

  lemma {:induction false} StartCounts()
    ensures Counters(Start())
  {
  }

  /** The larger of the receiver's counters, counting the turn at hand. */
  function Spent(r: Receiver): int { if r.oldtry > r.numtry + 1 then r.oldtry else r.numtry + 1 }

  /** The receiver takes in what is on the line. */
  lemma {:induction false} Drain(files: seq<Document>, acts: seq<Action>, was: seq<Action>, v: nat, w: nat, i: nat,
                                 k: nat)
    returns (all: seq<Action>, w': nat, i': nat, k': nat)
    requires Transfer(files) && Continues(acts, was) && !Loses(acts, was) && Sound(files, Run(files, was), v, w, i, k)
    requires var y := Run(files, was);
      && Active(y.sender.at.state) && Active(y.receiver.state) && Spent(y.receiver) + |y.data| <= MAXTRY
    ensures Continues(acts, all) && !Loses(acts, all) && Sound(files, Run(files, all), v, w', i', k')
    ensures var y, z := Run(files, was), Run(files, all);
      && z.sender == y.sender && !z.receiver.state.Abort? && |z.acks| <= |y.acks| + |y.data|
      && (Active(z.receiver.state) ==>
            z.data == [] && |z.acks| == |y.acks| + |y.data| && Spent(z.receiver) <= Spent(y.receiver) + |y.data|)
      && (z.receiver.state.Complete? ==> z.acks != [] && z.acks[|z.acks| - 1] == Msg(Y, v % 64, []))
    decreases |Run(files, was).data|
  {
    hide Run, Continues, Loses, At, Inv, Blame, ReceiverAt, ReceiverHear;
    all, w', i', k' := was, w, i, k;
    var y := Run(files, was);
    if y.data != [] {
      OpensIs(ReceiverHears(true, false));
      Then(files, acts, was, ReceiverHears(true, false));
      all := was + [ReceiverHears(true, false)];
      w', i', k' := ReceiverHearsKeeps(files, y, ReceiverHears(true, false), v, w, i, k);
      NeverOutOfStep(files, all);
      RunCounts(files, was);
      Taken(files, y, v, w, i, k);
      var z := Run(files, all);
      if Active(z.receiver.state) {
        all, w', i', k' := Drain(files, acts, all, v, w', i', k');
      }
    }
  }

  /** What taking in one packet does. */
  lemma {:induction false} Taken(files: seq<Document>, y: Sys, v: nat, w: nat, i: nat, k: nat)
    requires Transfer(files) && Sound(files, y, v, w, i, k) && y.data != []
    requires Active(y.sender.at.state) && Active(y.receiver.state) && Spent(y.receiver) < MAXTRY && Counters(y)
    ensures var z := ReceiverActs(y, ReceiverHears(true, false));
      && z.sender == y.sender && !z.receiver.state.Abort? && z.data == y.data[1..] && |z.acks| == |y.acks| + 1
      && (Active(z.receiver.state) ==> Spent(z.receiver) <= Spent(y.receiver) + 1)
      && (z.receiver.state.Complete? ==> z.acks[|z.acks| - 1] == Msg(Y, v % 64, []))
  {
    hide At, Inv, Blame, ReceiverAt, ReceiverHear, Closed, Partial;
    Numbers(files, y, v, w, i, k);
    ReceiverIs(files, y, v, w, i, k);
    var r, m := y.receiver, y.data[0];
    if w == v + 1 || i > 0 {
      OldCounts(files, r, m, w, true, false);
    } else {
      NewPacket(files, r, m, w, true, false);
      NewCounters(files, r, m, w);
    }
  }

  /** With nothing on the line but answers. */
  lemma {:induction false} ReadyToProceed(files: seq<Document>, y: Sys, v: nat, w: nat, i: nat, k: nat, t: nat)
    returns (u: nat)
    requires Transfer(files) && Sound(files, y, v, w, i, k) && y.data == [] && !y.sender.waiting
    requires Active(y.sender.at.state) && Active(y.receiver.state) && |y.acks| <= t && Counters(y)
    requires y.sender.numtry + t <= MAXTRY && Spent(y.receiver) + 2 * t <= MAXTRY
    ensures Between(files, y, v, w) && Sorted(y.acks, k, v) && Budget(files, y, v, w, u)
  {
    hide At, ReceiverAt, IsCopy, Moves, IsAck;
    Numbers(files, y, v, w, i, k);
    KindOf(files, y, v, w, i, k);
    u := FirstMove(y.sender, y.acks);
    NumberAt(files, y.sender, v);
    NoneMoves(y.sender, y.acks, k, v);
  }

  /** The line loses nothing any more.  With t packets and answers under way the transfer goes
      on to its end if the sender has t tries to spare and the receiver three times as many:
      each of them may make the sender repeat a packet, once for every packet to come, and for
      an end of file the receiver's counter goes on from the packet before. */
  lemma {:induction false} LosesNothingMore(files: seq<Document>, acts: seq<Action>) returns (all: seq<Action>)
    requires Transfer(files)
    requires var y := Run(files, acts); var t := |y.data| + |y.acks|;
      && Active(y.sender.at.state) && Active(y.receiver.state)
      && y.sender.numtry + t <= MAXTRY && Spent(y.receiver) + 3 * t <= MAXTRY
    ensures Continues(acts, all) && !Loses(acts, all)
    ensures var z := Run(files, all); z.sender.at.state.Complete? && z.receiver.state.Complete?
  {
    hide Run, At, Inv, Blame, ReceiverAt, Sorted, Moves;
    var y0 := Run(files, acts);
    var t := |y0.data| + |y0.acks|;
    var a1 := acts;
    OpensIs(SenderTimesOut);
    if y0.sender.waiting {
      Then(files, acts, acts, SenderTimesOut);
      a1 := acts + [SenderTimesOut];
    }
    var y := Run(files, a1);
    assert y == y0.(sender := y0.sender.(waiting := false));
    RunKeeps(files, a1);
    NeverOutOfStep(files, a1);
    var v: nat, w: nat, i: nat, k: nat :| Inv(files, y, v, w, i, k);
    var a2, w', i', k' := Drain(files, acts, a1, v, w, i, k);
    var z := Run(files, a2);
    Numbers(files, z, v, w', i', k');
    if Active(z.receiver.state) {
      RunCounts(files, a2);
      var u := ReadyToProceed(files, z, v, w', i', k', t);
      all := Proceeds(files, acts, a2, v, w', k', u);
    } else {
      all := EndsWell(files, acts, a2, v, w', i', k');
    }
  }

  /** The receiver has ended well, and its last answer is on the line. */
  lemma {:induction false} EndsWell(files: seq<Document>, acts: seq<Action>, was: seq<Action>, v: nat, w: nat, i: nat,
                                    k: nat)
    returns (all: seq<Action>)
    requires Transfer(files) && Continues(acts, was) && !Loses(acts, was) && Sound(files, Run(files, was), v, w, i, k)
    requires var y := Run(files, was);
      && Active(y.sender.at.state) && y.receiver.state.Complete? && !y.sender.waiting
      && y.sender.numtry + |y.acks| <= MAXTRY && y.acks != [] && y.acks[|y.acks| - 1] == Msg(Y, v % 64, [])
    ensures Continues(acts, all) && !Loses(acts, all)
    ensures var z := Run(files, all); z.sender.at.state.Complete? && z.receiver.state.Complete?
  {
    hide Run, Continues, Loses, At, ReceiverAt, Moves, IsCopy, IsAck;
    var y := Run(files, was);
    Numbers(files, y, v, w, i, k);
    KindOf(files, y, v, w, i, k);
    AtFacts(files, v);
    OpensIs(SenderTries(true, false));
    Then(files, acts, was, SenderTries(true, false));
    var a1 := was + [SenderTries(true, false)];
    var s := Run(files, a1).sender;
    SameSender(files, y.sender, s, v);
    NumberAt(files, y.sender, v);
    AckIsMove(y.sender, v);
    var u := FirstMove(y.sender, y.acks);
    SameMoves(y.sender, s, y.acks[u]);
    all := HearOut(files, acts, a1, v, u);
  }

  // ----- where it cannot go on --------------------------------------------------------------------

  /** The first p packets on the line are repetitions, more than the receiver has tries for. */
  ghost predicate TooMany(y: Sys, p: nat) {
    && 0 < p <= |y.data| && y.receiver.oldtry + p > MAXTRY + 1
    && forall j :: 0 <= j < p ==> y.data[j].num == Prev(y.receiver.n)
  }

  ghost predicate Doomed(y: Sys) {
    || y.sender.at.state.Abort? || y.receiver.state.Abort?
    || (Active(y.sender.at.state) && Active(y.receiver.state) && exists p: nat :: TooMany(y, p))
  }

  lemma {:induction false} DoomedHears(files: seq<Document>, y: Sys, a: Action, v: nat, w: nat, i: nat, k: nat)
    requires Transfer(files) && Sound(files, y, v, w, i, k) && Doomed(y) && a.ReceiverHears?
    ensures Doomed(ReceiverActs(y, a))
  {
    hide Inv, Blame, At, ReceiverAt, ReceiverHear, Closed, Partial;
    if Active(y.sender.at.state) && Active(y.receiver.state) && y.receiver.numtry <= MAXTRY {
      var p: nat :| TooMany(y, p);
      Numbers(files, y, v, w, i, k);
      Mod64(w);
      ReceiverIs(files, y, v, w, i, k);
      assert y.data[0].num == Prev(y.receiver.n);
      assert w == v + 1 || i > 0;
      OldCounts(files, y.receiver, y.data[0], w, a.canOpen, a.remote);
      var z := ReceiverActs(y, a);
      if !z.receiver.state.Abort? {
        assert forall j :: 0 <= j < |z.data| ==> z.data[j] == y.data[j + 1];
        assert TooMany(z, p - 1);
      }
    }
  }

  lemma {:induction false} DoomedStep(files: seq<Document>, y: Sys, a: Action)
    requires Transfer(files) && Within(files, y.sender.at) && Consistent(files, y) && Blame(y) && Doomed(y)
    requires !a.LoseData? && !a.LoseAck?
    requires var z := Act(files, y, a); z.sender.at.state.Complete? ==> z.receiver.state.Complete?
    ensures Doomed(Act(files, y, a))
  {
    hide Inv, Blame;
    if a.ReceiverHears? {
      var v: nat, w: nat, i: nat, k: nat :| Inv(files, y, v, w, i, k);
      DoomedHears(files, y, a, v, w, i, k);
    } else if Active(y.sender.at.state) && Active(y.receiver.state) {
      var p: nat :| TooMany(y, p);
      assert TooMany(Act(files, y, a), p);
    }
  }

  /** With more repetitions ahead on the line than the receiver still answers, losing nothing
      more is the end of the transfer. */
  lemma {:induction false} LossWouldHelp(files: seq<Document>, acts: seq<Action>, more: seq<Action>)
    requires Transfer(files) && Doomed(Run(files, acts))
    requires forall j :: 0 <= j < |more| ==> !more[j].LoseData? && !more[j].LoseAck?
    ensures Doomed(Run(files, acts + more))
    ensures var z := Run(files, acts + more); !(z.sender.at.state.Complete? && z.receiver.state.Complete?)
    decreases |more|
  {
    hide Act, Consistent, Blame;
    if more == [] {
      assert acts + more == acts;
    } else {
      var less, a := more[..|more| - 1], more[|more| - 1];
      assert acts + more == (acts + less) + [a];
      LossWouldHelp(files, acts, less);
      RunSnoc(files, acts + less, a);
      RunKeeps(files, acts + less);
      NeverOutOfStep(files, acts + less);
      Delivery(files, (acts + less) + [a]);
      DoomedStep(files, Run(files, acts + less), a);
    }
  }

  /** The sender sends its send-init in vain, n times. */
  lemma {:induction false} Sends(files: seq<Document>, acts: seq<Action>, n: nat) returns (all: seq<Action>)
    requires Transfer(files)
    requires var s := Run(files, acts).sender; s.at.state.Init? && !s.waiting && s.numtry + n <= MAXTRY + 1
    ensures var y, z := Run(files, acts), Run(files, all);
      && z.sender == y.sender.(numtry := y.sender.numtry + n) && z.receiver == y.receiver && z.acks == y.acks
      && |z.data| == |y.data| + n && y.data <= z.data
      && forall j :: |y.data| <= j < |z.data| ==> z.data[j] == Msg(S, y.sender.n, [])
    decreases n
  {
    hide Run;
    all := acts;
    if n > 0 {
      var a := SenderTries(true, false);
      RunSnoc(files, acts, a);
      RunSnoc(files, acts + [a], SenderTimesOut);
      all := Sends(files, acts + [a] + [SenderTimesOut], n - 1);
    }
  }

  /** There is such a state: the receiver has waited once, then 21 copies of the send-init have
      come at once, and it has taken in the first. */
  lemma {:induction false} TooManyCopies() returns (files: seq<Document>, acts: seq<Action>)
    ensures Transfer(files) && Doomed(Run(files, acts))
    ensures var y := Run(files, acts);
      Active(y.sender.at.state) && Active(y.receiver.state) && y.receiver.numtry == 0 && y.receiver.oldtry == 2
  {
    hide Run;
    files := [Document([65], [[66]])];
    BetweenStart(files);
    var a1 := Sends(files, [], MAXTRY + 1);
    var a2 := Waits(files, a1, 1);
    var a := ReceiverHears(true, false);
    acts := a2 + [a];
    RunSnoc(files, a2, a);
    var y, z := Run(files, a2), Run(files, acts);
    assert y.receiver == Start().receiver.(numtry := 1) && y.data[0] == Msg(S, 0, []);
    assert forall j :: 0 <= j < |z.data| ==> z.data[j] == y.data[j + 1];
    assert TooMany(z, MAXTRY);
  }

  /** The receiver waits in vain, n times. */
  lemma {:induction false} Waits(files: seq<Document>, acts: seq<Action>, n: nat) returns (all: seq<Action>)
    requires Transfer(files)
    requires var r := Run(files, acts).receiver; Active(r.state) && r.numtry + n <= MAXTRY
    ensures acts <= all
    ensures var y, z := Run(files, acts), Run(files, all);
      z.sender == y.sender && z.data == y.data && z.receiver == y.receiver.(numtry := y.receiver.numtry + n)
    decreases n
  {
    hide Run;
    all := acts;
    if n > 0 {
      RunSnoc(files, acts, ReceiverTimesOut);
      Silence(Run(files, acts).receiver);
      all := Waits(files, acts + [ReceiverTimesOut], n - 1);
    }
  }

  /** A transfer that nothing can save, although both sides are at work, no counter is beyond
      its limit, and nothing is under way: the end of the file will be taken in on the last
      try, which rdata counts against the next packet. */
  lemma {:induction false} EofOnLastTry() returns (files: seq<Document>, acts: seq<Action>)
    ensures Transfer(files)
    ensures var y := Run(files, acts);
      && Active(y.sender.at.state) && Active(y.receiver.state) && y.data == [] && y.acks == []
      && y.sender.numtry <= MAXTRY && y.receiver.numtry <= MAXTRY && y.receiver.oldtry <= MAXTRY
    ensures !exists all: seq<Action> {:trigger Run(files, all)} ::
      acts <= all && Run(files, all).sender.at.state.Complete? && Run(files, all).receiver.state.Complete?
  {
    hide Run, Alive, Between;
    files := [Document([65], [[66]])];
    PlacesOf(files);
    BetweenStart(files);
    var a1 := Crossed(files, [], 0);
    var a2 := Crossed(files, a1, 1);
    var a3 := Crossed(files, a2, 2);
    BetweenIs(files, Run(files, a3), 3);
    var a4 := Waits(files, a3, MAXTRY);
    acts := LoseBut(files, a4, a4, -1, -1);
    NotAlive(files, Run(files, acts));
    CanBeCompleted(files, acts);
  }

  /** One packet across a line that loses nothing. */
  lemma {:induction false} Crossed(files: seq<Document>, acts: seq<Action>, v: nat) returns (all: seq<Action>)
    requires Transfer(files) && Between(files, Run(files, acts), v, v)
    requires var y := Run(files, acts); y.acks == [] && y.sender.numtry == 0 && y.receiver.numtry == 0
    requires Active(At(files, v + 1).state) && !At(files, v).state.Eof?
    ensures var z := Run(files, all);
      && Between(files, z, v + 1, v + 1) && z.acks == [] && z.sender.numtry == 0
      && z.receiver.numtry == 0 && z.receiver.oldtry == 1
  {
    hide Run, At, ReceiverAt, SenderAt, Moves;
    var y := Run(files, acts);
    NumberAt(files, y.sender, v);
    AckIsMove(y.sender, v);
    var a1 := Exchange(files, acts, acts, v, v);
    var y1 := Run(files, a1);
    SameMoves(y.sender, y1.sender, Msg(Y, v % 64, []));
    all := HearFirst(files, acts, a1, v);
  }

  lemma {:induction false} BetweenStart(files: seq<Document>)
    requires Transfer(files)
    ensures var y := Run(files, []); Between(files, y, 0, 0) && y == Start()
  {
  }

  lemma {:induction false} BetweenIs(files: seq<Document>, y: Sys, v: nat)
    requires Transfer(files) && Between(files, y, v, v)
    ensures y.sender.at == At(files, v) && !y.sender.waiting && y.sender.n == y.receiver.n && y.data == []
    ensures y.receiver.state == Wants(At(files, v).state)
  {
    hide At, Closed, Partial;
  }

  lemma {:induction false} PlacesOf(files: seq<Document>)
    requires files == [Document([65], [[66]])]
    ensures Transfer(files) && At(files, 0).state.Init? && At(files, 1).state.Header? && At(files, 2).state.Data?
    ensures At(files, 3) == Place(Eof, 0, 0)
  {
    AtNext(files, 0);
    AtNext(files, 1);
    AtNext(files, 2);
  }

  lemma {:induction false} NotAlive(files: seq<Document>, y: Sys)
    requires Within(files, y.sender.at) && y.sender.at.state.Eof? && y.receiver.state.Data? && y.data == []
    requires y.sender.n == y.receiver.n && y.receiver.numtry == MAXTRY
    ensures !Alive(files, y)
  {
  }
}
