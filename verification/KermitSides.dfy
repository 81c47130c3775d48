/** The two programs of kermit.c as they change their globals, proved against the state
    machines of KermitProtocol. */
module KermitSides {
  import opened KermitProtocol
  import KermitData

  /** sendsw and its routines, each in the two halves that rpack separates. */
  class SendSide {
    const files: seq<Document>
    var state: State
    var n: int
    var numtry: int
    var fp: bool
    var cur: nat
    var pos: nat
    var waiting: bool

    ghost predicate Valid()
      reads this
    {
      Transfer(files) && Within(files, Place(state, cur, pos))
    }

    ghost function View(): Sender
      reads this
    {
      Sender(Place(state, cur, pos), n, numtry, fp, waiting)
    }

    constructor (files: seq<Document>)
      requires Transfer(files)
      ensures this.files == files && Valid() && View() == Start().sender
    {
      this.files := files;
      state, n, numtry, fp, cur, pos, waiting := Init, 0, 0, false, 0, 0, false;
    }

    /** Up to rpack. */
    method Attempt(canOpen: bool, remote: bool) returns (sent: seq<Msg>)
      requires Valid() && Active(state)
      modifies this
      ensures Valid() && (View(), sent) == SenderTry(files, old(View()), canOpen, remote)
    {
      numtry := numtry + 1;
      if numtry - 1 > MAXTRY {
        state := Abort(TooManyTries);
        return [];
      }
      if state.Header? {
        if !fp {
          if !canOpen {
            state := Abort(CannotOpen);
            return if remote then [Msg(E, n, [])] else [];
          }
          fp := true;
        }
      }
      waiting := true;
      match state
      case Init => return [Msg(S, n, [])];
      case Header => return [Msg(F, n, files[cur].name)];
      case Data => return [Msg(D, n, files[cur].chunks[pos])];
      case Eof => return [Msg(Z, n, [])];
      case _ => return [Msg(B, n, [])];
    }

    /** Behind rpack: the switch that the five routines share but for the NAK. */
    method Hear(reply: Reply)
      requires Valid() && Active(state)
      modifies this
      ensures Valid() && View() == SenderHear(files, old(View()), reply)
    {
      waiting := false;
      if reply.Nothing? {
        return;
      }
      var num := reply.m.num;
      match reply.m.kind {
        case E =>
          state := Abort(Told);
          return;
        case N =>
          if state.Init? {
            return;
          }
          num := num - 1;
          if num < 0 {
            num := 63;
          }
        case Y =>
        case _ =>
          state := Abort(Unexpected);
          return;
      }
      if n != num {
        return;
      }
      numtry := 0;
      n := (n + 1) % 64;
      match state {
        case Init => state, pos := Header, 0;
        case Header => state, pos := Data, 0;
        case Data => NextField();
        case Eof =>
          fp := false;
          NextFile();
        case Break => state, pos := Complete, 0;
      }
    }

    /** What sdata does with bufill's result. */
    method NextField()
      requires Valid() && state.Data?
      modifies this`state, this`pos
      ensures Valid() && Place(state, cur, pos) == Advance(files, old(Place(state, cur, pos)))
    {
      pos := pos + 1;
      if pos == |files[cur].chunks| {
        state, pos := Eof, 0;
      }
    }

    /** What seof does with gnxtfl's. */
    method NextFile()
      requires Valid() && state.Eof?
      modifies this`state, this`cur, this`pos
      ensures Valid() && Place(state, cur, pos) == Advance(files, old(Place(state, cur, pos)))
    {
      pos := 0;
      if cur + 1 == |files| {
        state := Break;
      } else {
        cur := cur + 1;
        state := Header;
      }
    }

    /** sendsw, whatever answers the line gives: it ends, having transmitted its packets one
        after the other, each at most MAXTRY + 1 times, and well only if every one was
        acknowledged. */
    method SendSw(canOpen: nat -> bool, remote: bool, answer: nat -> Reply)
      returns (ok: bool, log: seq<Msg>, ghost tries: seq<seq<Msg>>)
      requires Valid() && View() == Start().sender
      modifies this
      ensures Valid() && (ok <==> state.Complete?) && (!ok ==> state.Abort?)
      ensures log == Flat(tries) && |tries| <= Remaining(files, Place(Init, 0, 0))
      ensures forall k {:trigger tries[k]} :: 0 <= k < |tries| ==> Transmissions(files, k, tries[k])
      ensures ok ==> |tries| == Remaining(files, Place(Init, 0, 0))
    {
      hide SenderTry, SenderHear, Advance, Remaining, Sent, Transmissions;
      log := [];
      state, n, numtry := Init, 0, 0;
      ghost var all, left := Remaining(files, Place(Init, 0, 0)), Remaining(files, Place(Init, 0, 0));
      ghost var last := [];
      tries := [];
      SentNothing(files);
      var i := 0;
      while Active(state)
        invariant Valid() && 0 <= left == all - |tries|
        invariant Sent(files, log, tries, last)
        invariant !state.Abort? ==> |tries| % 64 == n && Place(state, cur, pos) == At(files, |tries|)
        invariant !state.Abort? ==> left == Remaining(files, Place(state, cur, pos))
        invariant Active(state) ==> 0 <= |last| <= numtry <= MAXTRY + 1
        invariant state.Abort? ==> left >= 1
        invariant state.Complete? ==> left == 0 && last == []
        decreases !state.Abort?, left, MAXTRY + 2 - numtry
      {
        TryFacts(files, View(), canOpen(i), remote);
        var sent := Attempt(canOpen(i), remote);
        SentMore(files, log, tries, last, sent);
        log := log + sent;
        last := last + sent;
        if Active(state) {
          HearFacts(files, View(), answer(i));
          ghost var at := Place(state, cur, pos);
          Hear(answer(i));
          if !state.Abort? && (state.Complete? || numtry == 0) {
            SentNext(files, log, tries, last);
            tries := tries + [last];
            last := [];
            left := left - 1;
            assert Advance(files, at) == At(files, |tries|) by { AtNext(files, |tries| - 1); }
          }
        }
        i := i + 1;
      }
      if last != [] {
        SentNext(files, log, tries, last);
        tries := tries + [last];
        last := [];
      }
      SentAll(files, log, tries);
      return state.Complete?, log, tries;
    }
  }

  /** The transmissions of packet k: at most MAXTRY + 1, each of that packet, but for an error
      packet that may end them. */
  ghost predicate Transmissions(files: seq<Document>, k: nat, msgs: seq<Msg>) {
    && Transfer(files) && |msgs| <= MAXTRY + 1
    && forall j {:trigger msgs[j]} :: 0 <= j < |msgs| ==>
      msgs[j] == PacketAt(files, At(files, k), k % 64) || msgs[j].kind.E?
  }

  ghost function Flat(tries: seq<seq<Msg>>): seq<Msg> {
    if tries == [] then [] else Flat(tries[..|tries| - 1]) + tries[|tries| - 1]
  }

  /** What sendsw has sent: packets that have been acknowledged, and last the present one. */
  ghost predicate Sent(files: seq<Document>, log: seq<Msg>, tries: seq<seq<Msg>>, last: seq<Msg>) {
    && log == Flat(tries) + last && Transmissions(files, |tries|, last)
    && forall k {:trigger tries[k]} :: 0 <= k < |tries| ==> Transmissions(files, k, tries[k])
  }

  lemma {:induction false} SentNothing(files: seq<Document>)
    requires Transfer(files)
    ensures Sent(files, [], [], []) && At(files, 0) == Place(Init, 0, 0)
  {
  }

  lemma {:induction false} SentMore(files: seq<Document>, log: seq<Msg>, tries: seq<seq<Msg>>, last: seq<Msg>,
                                    sent: seq<Msg>)
    requires Sent(files, log, tries, last) && |last| + |sent| <= MAXTRY + 1 && |sent| <= 1
    requires sent != [] ==> sent[0] == PacketAt(files, At(files, |tries|), |tries| % 64) || sent[0].kind.E?
    ensures Sent(files, log + sent, tries, last + sent)
  {
    hide At, PacketAt;
    assert Flat(tries) + last + sent == Flat(tries) + (last + sent);
  }

  lemma {:induction false} SentNext(files: seq<Document>, log: seq<Msg>, tries: seq<seq<Msg>>, last: seq<Msg>)
    requires Sent(files, log, tries, last)
    ensures Sent(files, log, tries + [last], [])
  {
    hide At, PacketAt;
    assert (tries + [last])[..|tries|] == tries;
  }

  lemma {:induction false} SentAll(files: seq<Document>, log: seq<Msg>, tries: seq<seq<Msg>>)
    requires Sent(files, log, tries, [])
    ensures log == Flat(tries) && forall k {:trigger tries[k]} :: 0 <= k < |tries| ==> Transmissions(files, k, tries[k])
  {
    hide Transmissions;
  }

  /** One attempt counts one try and sends at most one packet. */
  lemma {:induction false} TryFacts(files: seq<Document>, s: Sender, canOpen: bool, remote: bool)
    requires Transfer(files) && Within(files, s.at) && Active(s.at.state)
    ensures var (t, out) := SenderTry(files, s, canOpen, remote);
      && |out| <= 1 && t.numtry == s.numtry + 1 && t.n == s.n
      && (out != [] ==> out[0] == PacketAt(files, s.at, s.n) || out[0].kind.E?)
      && (s.numtry > MAXTRY ==> t.at.state.Abort? && out == [])
      && (t.at.state.Abort? || (t.at == s.at && |out| == 1))
    ensures Remaining(files, s.at) >= 1
  {
  }

  /** A reply leaves the counter, or acknowledges the packet and resets it. */
  lemma {:induction false} HearFacts(files: seq<Document>, s: Sender, reply: Reply)
    requires Transfer(files) && Within(files, s.at) && Active(s.at.state) && s.numtry > 0
    ensures var t := SenderHear(files, s, reply);
      || t.at.state.Abort?
      || (t.at == s.at && t.numtry == s.numtry && t.n == s.n)
      || (&& t.numtry == 0 && t.n == (s.n + 1) % 64 && t.at == Advance(files, s.at)
          && Within(files, t.at) && Remaining(files, t.at) == Remaining(files, s.at) - 1)
    ensures SenderHear(files, s, reply).at.state.Complete? ==> Remaining(files, s.at) == 1
  {
    AdvanceWithin(files, s.at);
  }

  /** recsw's routines. */
  class ReceiveSide {
    var state: State
    var n: int
    var numtry: int
    var oldtry: int
    var closed: seq<Document>
    var part: Part

    ghost function View(): Receiver
      reads this
    {
      Receiver(state, n, numtry, oldtry, closed, part)
    }

    constructor ()
      ensures View() == Start().receiver
    {
      state, n, numtry, oldtry, closed, part := Init, 0, 0, 0, [], NoFile;
    }

    /** One turn of recsw, with what rpack returns in it. */
    method Turn(reply: Reply, canOpen: bool, remote: bool) returns (sent: seq<Msg>)
      requires Active(state)
      modifies this
      ensures old(numtry) > MAXTRY ==>
        sent == [] && View() == old(View()).(numtry := old(numtry) + 1, state := Abort(TooManyTries))
      ensures old(numtry) <= MAXTRY ==> (View(), sent) == ReceiverHear(old(View()), reply, canOpen, remote)
    {
      numtry := numtry + 1;
      if numtry - 1 > MAXTRY {
        state := Abort(TooManyTries);
        return [];
      }
      if reply.Nothing? {
        return [Msg(N, n, [])];
      }
      if state.Init? {
        sent := RInit(reply.m);
      } else if state.Header? {
        sent := RFile(reply.m, canOpen, remote);
      } else {
        sent := RData(reply.m);
      }
    }

    method RInit(m: Msg) returns (sent: seq<Msg>)
      modifies this
      ensures (View(), sent) == ReceiveInit(old(View()), m)
    {
      match m.kind
      case S =>
        sent := [Msg(Y, n, [])];
        oldtry := numtry;
        numtry := 0;
        n := (n + 1) % 64;
        state := Header;
      case E =>
        state := Abort(Told);
        sent := [];
      case _ =>
        state := Abort(Unexpected);
        sent := [];
    }

    method RFile(m: Msg, canOpen: bool, remote: bool) returns (sent: seq<Msg>)
      modifies this
      ensures (View(), sent) == ReceiveHeader(old(View()), m, canOpen, remote)
    {
      sent := [];
      match m.kind
      case S => sent := Again(m);
      case Z => sent := Again(m);
      case F =>
        if m.num != n {
          state := Abort(Unexpected);
          return;
        }
        if !canOpen {
          state := Abort(CannotOpen);
          return if remote then [Msg(E, n, [])] else [];
        }
        part := Open(Document(m.data, []));
        sent := [Msg(Y, n, [])];
        oldtry := numtry;
        numtry := 0;
        n := (n + 1) % 64;
        state := Data;
      case B =>
        if m.num != n {
          state := Abort(Unexpected);
          return;
        }
        sent := [Msg(Y, n, [])];
        state := Complete;
      case E => state := Abort(Told);
      case _ => state := Abort(Unexpected);
    }

    method RData(m: Msg) returns (sent: seq<Msg>)
      modifies this
      ensures (View(), sent) == ReceiveData(old(View()), m)
    {
      sent := [];
      match m.kind
      case D =>
        if m.num != n {
          sent := Again(m);
          return;
        }
        part := Write(part, m.data);
        sent := [Msg(Y, n, [])];
        oldtry := numtry;
        numtry := 0;
        n := (n + 1) % 64;
        state := Data;
      case F => sent := Again(m);
      case Z =>
        if m.num != n {
          state := Abort(Unexpected);
          return;
        }
        sent := [Msg(Y, n, [])];
        closed, part := Close(closed, part), NoFile;
        n := (n + 1) % 64;
        state := Header;
      case E => state := Abort(Told);
      case _ => state := Abort(Unexpected);
    }

    /** The branch for a packet that may only be the previous one again. */
    method Again(m: Msg) returns (sent: seq<Msg>)
      modifies this
      ensures (View(), sent) == Repeated(old(View()), m)
    {
      oldtry := oldtry + 1;
      if oldtry - 1 > MAXTRY {
        state := Abort(TooManyTries);
        return [];
      }
      if m.num == (if n == 0 then 63 else n - 1) {
        numtry := 0;
        return [Msg(Y, m.num, [])];
      }
      state := Abort(Unexpected);
      return [];
    }
  }

  /** What comes of document d, written, is the text. */
  ghost predicate Carries(d: Document, text: seq<int>, image: bool) {
    KermitData.Written(d.chunks, image) == KermitData.Plain(text, image)
  }

  /** Files cut up by bufill, sent over any line, and written by bufemp are, when the
      sender says it is done, what they were, but for what text mode drops. */
  lemma {:induction false} TransferKeepsBytes(files: seq<Document>, texts: seq<seq<int>>, image: bool,
                                              acts: seq<Action>)
    requires Transfer(files) && |texts| == |files|
    requires forall k :: 0 <= k < |files| ==> Carries(files[k], texts[k], image)
    requires Run(files, acts).sender.at.state.Complete?
    ensures var r := Run(files, acts).receiver;
      && r.state.Complete? && |r.closed| == |texts|
      && (forall k :: 0 <= k < |texts| ==> r.closed[k].name == files[k].name && Carries(r.closed[k], texts[k], image))
      && (image ==> forall k :: 0 <= k < |texts| ==> KermitData.Written(r.closed[k].chunks, image) == texts[k])
  {
    hide Run, KermitData.Written, KermitData.Plain;
    Delivery(files, acts);
    if image {
      forall k | 0 <= k < |texts| ensures KermitData.Plain(texts[k], image) == texts[k] {
        KermitData.PlainImage(texts[k]);
      }
    }
  }

  /** And whatever the line did: what is in the file being written is the start of its text. */
  lemma {:induction false} WrittenIsPrefix(chunks: seq<seq<int>>, m: nat, image: bool)
    requires m <= |chunks|
    ensures KermitData.Written(chunks[..m], image) <= KermitData.Written(chunks, image)
    decreases |chunks|
  {
    hide KermitData.DecodeFrom;
    if m == |chunks| {
      assert chunks[..m] == chunks;
    } else {
      assert chunks[..m] == chunks[..|chunks| - 1][..m];
      WrittenIsPrefix(chunks[..|chunks| - 1], m, image);
    }
  }
}
