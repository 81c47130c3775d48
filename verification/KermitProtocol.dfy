/** Kermit's stop-and-wait transfer: the two state machines of kermit.c (sendsw, recsw and
    their routines), and the line between them, which keeps order but may lose anything. */
module KermitProtocol {
  const MAXTRY: int := 20

  /** A file as the protocol sees it: its name and the data fields it is sent in. */
  datatype Document = Document(name: seq<int>, chunks: seq<seq<int>>)

  datatype Kind = S | F | D | Z | B | Y | N | E
  datatype Msg = Msg(kind: Kind, num: int, data: seq<int>)

  /** What rpack gives its caller: FALSE, for a timeout or a bad checksum, or a packet. */
  datatype Reply = Nothing | Heard(m: Msg)

  /** Why a side went to state 'A'. */
  datatype Why = TooManyTries | CannotOpen | Told | Unexpected

  /** The states: 'S' or 'R', 'F', 'D', 'Z', 'B', 'C' and 'A'. */
  datatype State = Init | Header | Data | Eof | Break | Complete | Abort(why: Why)

  predicate Active(s: State) { !s.Complete? && !s.Abort? }

  /** sendsw is given at least one file, and sfile sends at least one data packet a file. */
  ghost predicate Transfer(files: seq<Document>) {
    |files| >= 1 && forall k :: 0 <= k < |files| ==> |files[k].chunks| >= 1
  }

  // ----- the sender --------------------------------------------------------------------

  /** The sender's state, the file it is at and the data field it has in its packet. */
  datatype Place = Place(state: State, cur: nat, pos: nat)

  predicate Within(files: seq<Document>, p: Place) {
    p.cur < |files| && (p.state.Data? ==> p.pos < |files[p.cur].chunks|)
  }

  /** Where an acknowledgement takes the sender: the next data field, if bufill finds one;
      the next file, if gnxtfl does. */
  function Advance(files: seq<Document>, p: Place): Place
    requires Within(files, p)
  {
    match p.state
    case Init => Place(Header, p.cur, 0)
    case Header => Place(Data, p.cur, 0)
    case Data => if p.pos + 1 < |files[p.cur].chunks| then Place(Data, p.cur, p.pos + 1) else Place(Eof, p.cur, 0)
    case Eof => if p.cur + 1 < |files| then Place(Header, p.cur + 1, 0) else Place(Break, p.cur, 0)
    case Break => Place(Complete, p.cur, 0)
    case _ => p
  }

  /** The packet sent from a place. */
  function PacketAt(files: seq<Document>, p: Place, n: int): Msg
    requires Within(files, p)
  {
    match p.state
    case Init => Msg(S, n, [])
    case Header => Msg(F, n, files[p.cur].name)
    case Data => Msg(D, n, files[p.cur].chunks[p.pos])
    case Eof => Msg(Z, n, [])
    case _ => Msg(B, n, [])
  }

  datatype Sender = Sender(at: Place, n: int, numtry: int, open: bool, waiting: bool)

  /** The first half of sinit, sfile, sdata, seof and sbreak: up to the call of rpack. */
  function SenderTry(files: seq<Document>, s: Sender, canOpen: bool, remote: bool): (Sender, seq<Msg>)
    requires Within(files, s.at)
  {
    var t := s.(numtry := s.numtry + 1);
    if s.numtry > MAXTRY then
      (t.(at := s.at.(state := Abort(TooManyTries))), [])
    else if s.at.state.Header? && !s.open && !canOpen then
      (t.(at := s.at.(state := Abort(CannotOpen))), if remote then [Msg(E, s.n, [])] else [])
    else
      (t.(open := s.open || s.at.state.Header?, waiting := true), [PacketAt(files, s.at, s.n)])
  }

  /** The number a reply acknowledges: a NAK is for the packet before the one it asks for. */
  function Acknowledged(m: Msg): int {
    if m.kind.N? then (if m.num - 1 < 0 then 63 else m.num - 1) else m.num
  }

  /** The second half: what the reply does.  sinit takes no NAK for an acknowledgement. */
  function SenderHear(files: seq<Document>, s: Sender, reply: Reply): Sender
    requires Within(files, s.at)
  {
    var t := s.(waiting := false);
    match reply
    case Nothing => t
    case Heard(m) =>
      if m.kind.E? then t.(at := s.at.(state := Abort(Told)))
      else if !m.kind.Y? && !m.kind.N? then t.(at := s.at.(state := Abort(Unexpected)))
      else if (m.kind.N? && s.at.state.Init?) || Acknowledged(m) != s.n then t
      else t.(at := Advance(files, s.at), n := (s.n + 1) % 64, numtry := 0, open := s.open && !s.at.state.Eof?)
  }

  // ----- the receiver --------------------------------------------------------------------

  datatype Part = NoFile | Open(doc: Document)
  datatype Receiver = Receiver(state: State, n: int, numtry: int, oldtry: int, closed: seq<Document>, part: Part)

  function Prev(n: int): int { if n == 0 then 63 else n - 1 }

  function Fail(r: Receiver, why: Why): (Receiver, seq<Msg>) { (r.(state := Abort(why)), []) }

  /** Acknowledge packet n and go on to the next, in another state. */
  function Accept(r: Receiver, state: State): (Receiver, seq<Msg>) {
    (r.(state := state, oldtry := r.numtry, numtry := 0, n := (r.n + 1) % 64), [Msg(Y, r.n, [])])
  }

  /** A packet of a kind that is only right as a repetition of the one before. */
  function Repeated(r: Receiver, m: Msg): (Receiver, seq<Msg>) {
    var t := r.(oldtry := r.oldtry + 1);
    if r.oldtry > MAXTRY then Fail(t, TooManyTries)
    else if m.num == Prev(r.n) then (t.(numtry := 0), [Msg(Y, m.num, [])])
    else Fail(t, Unexpected)
  }

  /** rinit, behind rpack. */
  function ReceiveInit(r: Receiver, m: Msg): (Receiver, seq<Msg>) {
    if m.kind.S? then Accept(r, Header)
    else Fail(r, if m.kind.E? then Told else Unexpected)
  }

  /** rfile, behind rpack. */
  function ReceiveHeader(r: Receiver, m: Msg, canOpen: bool, remote: bool): (Receiver, seq<Msg>) {
    if m.kind.S? || m.kind.Z? then Repeated(r, m)
    else if m.kind.F? then
      if m.num != r.n then Fail(r, Unexpected)
      else if !canOpen then (r.(state := Abort(CannotOpen)), if remote then [Msg(E, r.n, [])] else [])
      else Accept(r.(part := Open(Document(m.data, []))), Data)
    else if m.kind.B? then
      if m.num != r.n then Fail(r, Unexpected) else (r.(state := Complete), [Msg(Y, r.n, [])])
    else Fail(r, if m.kind.E? then Told else Unexpected)
  }

  /** Add a data field to the file being written. */
  function Write(part: Part, data: seq<int>): Part {
    match part case NoFile => NoFile case Open(d) => Open(d.(chunks := d.chunks + [data]))
  }

  /** Close it. */
  function Close(closed: seq<Document>, part: Part): seq<Document> {
    match part case NoFile => closed case Open(d) => closed + [d]
  }

  /** rdata, behind rpack.  At the end of a file the try counters stay. */
  function ReceiveData(r: Receiver, m: Msg): (Receiver, seq<Msg>) {
    if m.kind.D? then
      if m.num != r.n then Repeated(r, m) else Accept(r.(part := Write(r.part, m.data)), Data)
    else if m.kind.F? then Repeated(r, m)
    else if m.kind.Z? then
      if m.num != r.n then Fail(r, Unexpected)
      else (r.(state := Header, n := (r.n + 1) % 64, closed := Close(r.closed, r.part), part := NoFile),
            [Msg(Y, r.n, [])])
    else Fail(r, if m.kind.E? then Told else Unexpected)
  }

  /** One call of rinit, rfile or rdata that is not the one too many. */
  function ReceiverHear(r: Receiver, reply: Reply, canOpen: bool, remote: bool): (Receiver, seq<Msg>) {
    var t := r.(numtry := r.numtry + 1);
    match reply
    case Nothing => (t, [Msg(N, r.n, [])])
    case Heard(m) =>
      match r.state
      case Init => ReceiveInit(t, m)
      case Header => ReceiveHeader(t, m, canOpen, remote)
      case _ => ReceiveData(t, m)
  }

  // ----- the whole system ----------------------------------------------------------------

  datatype Sys = Sys(sender: Sender, receiver: Receiver, data: seq<Msg>, acks: seq<Msg>)

  datatype Action =
    | SenderTries(canOpen: bool, remote: bool)
    | SenderHears
    | SenderTimesOut
    | ReceiverHears(canOpen: bool, remote: bool)
    | ReceiverTimesOut
    | LoseData(j: nat)
    | LoseAck(j: nat)

  function SenderActs(files: seq<Document>, y: Sys, a: Action): Sys
    requires Within(files, y.sender.at)
  {
    var s := y.sender;
    if !Active(s.at.state) then y
    else if a.SenderTries? && !s.waiting then
      var (s', out) := SenderTry(files, s, a.canOpen, a.remote);
      y.(sender := s', data := y.data + out)
    else if a.SenderTimesOut? && s.waiting then
      y.(sender := SenderHear(files, s, Nothing))
    else if a.SenderHears? && s.waiting && y.acks != [] then
      y.(sender := SenderHear(files, s, Heard(y.acks[0])), acks := y.acks[1..])
    else y
  }

  function ReceiverActs(y: Sys, a: Action): Sys {
    var r := y.receiver;
    if !Active(r.state) then y
    else if r.numtry > MAXTRY then
      y.(receiver := r.(numtry := r.numtry + 1, state := Abort(TooManyTries)))
    else if a.ReceiverTimesOut? then
      var (r', out) := ReceiverHear(r, Nothing, false, false);
      y.(receiver := r', acks := y.acks + out)
    else if a.ReceiverHears? && y.data != [] then
      var (r', out) := ReceiverHear(r, Heard(y.data[0]), a.canOpen, a.remote);
      y.(receiver := r', data := y.data[1..], acks := y.acks + out)
    else y
  }

  function Act(files: seq<Document>, y: Sys, a: Action): Sys
    requires Within(files, y.sender.at)
  {
    match a
    case LoseData(j) => if j < |y.data| then y.(data := y.data[..j] + y.data[j + 1..]) else y
    case LoseAck(j) => if j < |y.acks| then y.(acks := y.acks[..j] + y.acks[j + 1..]) else y
    case ReceiverHears(_, _) => ReceiverActs(y, a)
    case ReceiverTimesOut => ReceiverActs(y, a)
    case _ => SenderActs(files, y, a)
  }

  function Start(): Sys {
    Sys(Sender(Place(Init, 0, 0), 0, 0, false, false), Receiver(Init, 0, 0, 0, [], NoFile), [], [])
  }

  lemma {:induction false} AdvanceWithin(files: seq<Document>, p: Place)
    requires Transfer(files) && Within(files, p)
    ensures Within(files, Advance(files, p))
  {
  }

  lemma {:induction false} ActWithin(files: seq<Document>, y: Sys, a: Action)
    requires Transfer(files) && Within(files, y.sender.at)
    ensures Within(files, Act(files, y, a).sender.at)
  {
    AdvanceWithin(files, y.sender.at);
  }

  /** The state after a run. */
  ghost function Run(files: seq<Document>, acts: seq<Action>): (y: Sys)
    requires Transfer(files)
    ensures Within(files, y.sender.at)
  {
    if acts == [] then Start()
    else
      var y := Run(files, acts[..|acts| - 1]);
      ActWithin(files, y, acts[|acts| - 1]);
      Act(files, y, acts[|acts| - 1])
  }

  // ----- what every step keeps -------------------------------------------------------------

  /** Where a sender that has had v packets acknowledged is. */
  ghost function At(files: seq<Document>, v: nat): (p: Place)
    requires Transfer(files)
    ensures Within(files, p) && !p.state.Abort?
    ensures p.state.Init? <==> v == 0
  {
    if v == 0 then Place(Init, 0, 0)
    else
      var p := At(files, v - 1);
      AdvanceWithin(files, p);
      Advance(files, p)
  }

  /** What the receiver has when the next packet it wants is the one sent from place p. */
  ghost function Closed(files: seq<Document>, p: Place): seq<Document>
    requires Within(files, p)
  {
    if p.state.Break? || p.state.Complete? then files else files[..p.cur]
  }

  ghost function Partial(files: seq<Document>, p: Place): Part
    requires Within(files, p)
  {
    if p.state.Data? then Open(files[p.cur].(chunks := files[p.cur].chunks[..p.pos]))
    else if p.state.Eof? then Open(files[p.cur])
    else NoFile
  }

  ghost function Wants(s: State): State {
    if s.Eof? then Data else if s.Break? then Header else s
  }

  ghost predicate SenderAt(files: seq<Document>, s: Sender, v: nat)
    requires Transfer(files)
  {
    Within(files, s.at) && (s.at.state.Abort? || (s.at == At(files, v) && s.n == v % 64))
  }

  ghost predicate ReceiverAt(files: seq<Document>, r: Receiver, w: nat)
    requires Transfer(files)
  {
    var p := At(files, w);
    && r.closed == Closed(files, p) && r.part == Partial(files, p)
    && (r.state.Abort? || r.state == Wants(p.state))
    && (Active(r.state) ==> r.n == w % 64)
    && (p.state.Complete? ==> r.state.Complete?)
  }

  /** A copy of packet x, or the error packet of a sender that is gone. */
  ghost predicate IsCopy(files: seq<Document>, m: Msg, x: int)
    requires Transfer(files)
  {
    m.kind.E? || (x >= 0 && Active(At(files, x).state) && m == PacketAt(files, At(files, x), x % 64))
  }

  ghost predicate Copies(files: seq<Document>, ms: seq<Msg>, from: int, to: int, x: int)
    requires Transfer(files)
  {
    forall j :: 0 <= j < |ms| && from <= j < to ==> IsCopy(files, ms[j], x)
  }

  ghost predicate IsAck(m: Msg, x: int) {
    m.kind.E? || (m.kind.Y? && m.num == x % 64) || (m.kind.N? && m.num == (x + 1) % 64)
  }

  ghost predicate Acks(ms: seq<Msg>, from: int, to: int, x: int) {
    forall j :: 0 <= j < |ms| && from <= j < to ==> IsAck(ms[j], x)
  }

  /** The sender is at packet v, the receiver wants packet w.  Copies of the packet before
      lead the data line up to split i, and its acknowledgements the way back, up to k. */
  ghost predicate Inv(files: seq<Document>, y: Sys, v: nat, w: nat, i: nat, k: nat)
    requires Transfer(files)
  {
    && v <= w <= v + 1
    && SenderAt(files, y.sender, v) && ReceiverAt(files, y.receiver, w)
    && (w == v + 1 ==> i == 0 && Active(At(files, v).state))
    && (w == v ==> k == |y.acks|)
    && i <= |y.data| && k <= |y.acks|
    && Copies(files, y.data, 0, i, v - 1) && Copies(files, y.data, i, |y.data|, v)
    && Acks(y.acks, 0, k, v - 1) && Acks(y.acks, k, |y.acks|, v)
  }

  lemma {:induction false} Mod64(x: nat)
    ensures (x % 64 + 1) % 64 == (x + 1) % 64
    ensures (x - 1) % 64 != x % 64
    ensures x >= 1 ==> Prev(x % 64) == (x - 1) % 64
    ensures Acknowledged(Msg(N, (x + 1) % 64, [])) == x % 64
    ensures Acknowledged(Msg(N, x % 64, [])) == (x - 1) % 64
  {
    var q, r := x / 64, x % 64;
    assert x == 64 * q + r;
    assert r == 63 ==> x + 1 == 64 * (q + 1);
    assert r == 0 ==> x - 1 == 64 * (q - 1) + 63;
  }

  lemma {:induction false} SenderTriesKeeps(files: seq<Document>, y: Sys, a: Action, v: nat, w: nat, i: nat, k: nat)
    requires Transfer(files) && Inv(files, y, v, w, i, k) && a.SenderTries?
    ensures Inv(files, SenderActs(files, y, a), v, w, i, k)
  {
    hide At, ReceiverAt, Partial, Closed, IsAck;
  }

  lemma {:induction false} AtNext(files: seq<Document>, v: nat)
    requires Transfer(files)
    ensures At(files, v + 1) == Advance(files, At(files, v))
  {
  }

  /** Hearing about the packet before leaves the sender where it is. */
  lemma {:induction false} OldAck(files: seq<Document>, s: Sender, m: Msg, v: nat)
    requires Transfer(files) && SenderAt(files, s, v) && Active(s.at.state) && IsAck(m, v - 1)
    ensures SenderAt(files, SenderHear(files, s, Heard(m)), v)
    ensures SenderHear(files, s, Heard(m)).at.state != Abort(Unexpected)
    ensures SenderHear(files, s, Heard(m)).at.state == Abort(Told) ==> m.kind.E?
  {
    hide At, Advance;
    Mod64(v);
    assert Acknowledged(m) == Acknowledged(Msg(m.kind, m.num, []));
  }

  /** Hearing about this one moves it on, or, to a NAK for the send-init, not. */
  lemma {:induction false} NewAck(files: seq<Document>, s: Sender, m: Msg, v: nat)
    requires Transfer(files) && SenderAt(files, s, v) && Active(s.at.state) && IsAck(m, v)
    ensures var t := SenderHear(files, s, Heard(m));
      && (m.kind.E? ==> t.at.state == Abort(Told) && SenderAt(files, t, v))
      && (!m.kind.E? ==> t.at.state != Abort(Told) && t.at.state != Abort(Unexpected))
      && (!m.kind.E? ==> SenderAt(files, t, if m.kind.N? && v == 0 then v else v + 1))
  {
    hide At, Advance;
    Mod64(v);
    AtNext(files, v);
    AtFacts(files, v);
    AtFacts(files, v + 1);
    assert Acknowledged(m) == Acknowledged(Msg(m.kind, m.num, []));
  }

  lemma {:induction false} AtFacts(files: seq<Document>, v: nat)
    requires Transfer(files)
    ensures var p := At(files, v); Within(files, p) && !p.state.Abort? && (p.state.Init? <==> v == 0)
  {
  }

  lemma {:induction false} SenderHearsKeeps(files: seq<Document>, y: Sys, v: nat, w: nat, i: nat, k: nat)
    returns (v': nat, i': nat, k': nat)
    requires Transfer(files) && Inv(files, y, v, w, i, k)
    ensures Inv(files, SenderActs(files, y, SenderHears), v', w, i', k')
    ensures SenderActs(files, y, SenderHears).sender.at.state == Abort(Unexpected) ==>
      y.sender.at.state == Abort(Unexpected)
  {
    hide At, SenderAt, ReceiverAt, Partial, Closed, IsCopy, IsAck, SenderHear, Advance;
    v', i', k' := v, i, k;
    var s := y.sender;
    if Active(s.at.state) && s.waiting && y.acks != [] {
      var m := y.acks[0];
      AckKept(y.acks, 0, k, v - 1);
      AckKept(y.acks, k, |y.acks|, v);
      if k > 0 {
        OldAck(files, s, m, v);
        k' := k - 1;
      } else {
        NewAck(files, s, m, v);
        if !(m.kind.E? || (m.kind.N? && v == 0)) {
          v', i', k' := v + 1, |y.data|, |y.acks| - 1;
        }
      }
    }
  }

  lemma {:induction false} AckKept(ms: seq<Msg>, from: int, to: int, x: int)
    requires Acks(ms, from, to, x) && ms != []
    ensures Acks(ms[1..], from - 1, to - 1, x)
  {
    hide IsAck;
    forall j | 0 <= j < |ms[1..]| && from - 1 <= j < to - 1 ensures IsAck(ms[1..][j], x) {
      assert ms[1..][j] == ms[j + 1];
    }
  }

  lemma {:induction false} CopyKept(files: seq<Document>, ms: seq<Msg>, from: int, to: int, x: int)
    requires Transfer(files) && Copies(files, ms, from, to, x) && ms != []
    ensures Copies(files, ms[1..], from - 1, to - 1, x)
  {
    hide IsCopy;
    forall j | 0 <= j < |ms[1..]| && from - 1 <= j < to - 1 ensures IsCopy(files, ms[1..][j], x) {
      assert ms[1..][j] == ms[j + 1];
    }
  }

  /** A repetition is acknowledged again, and nothing else. */
  lemma {:induction false} OldPacket(files: seq<Document>, r: Receiver, m: Msg, w: nat, canOpen: bool, remote: bool)
    requires Transfer(files) && ReceiverAt(files, r, w) && Active(r.state) && IsCopy(files, m, w - 1)
    ensures var (t, out) := ReceiverHear(r, Heard(m), canOpen, remote);
      && ReceiverAt(files, t, w) && Acks(out, 0, |out|, w - 1)
      && t.state != Abort(Unexpected) && t.state != Abort(CannotOpen)
      && (t.state == Abort(Told) ==> m.kind.E?) && forall j :: 0 <= j < |out| ==> !out[j].kind.E?
  {
    hide At, Closed, Partial;
    Mod64(w);
    AtFacts(files, w);
    if !m.kind.E? {
      AtFacts(files, w - 1);
      AtNext(files, w - 1);
    }
  }

  /** The packet it wants is taken in and acknowledged, unless its file cannot be made. */
  lemma {:induction false} NewPacket(files: seq<Document>, r: Receiver, m: Msg, w: nat, canOpen: bool, remote: bool)
    requires Transfer(files) && ReceiverAt(files, r, w) && Active(r.state) && IsCopy(files, m, w)
    ensures var (t, out) := ReceiverHear(r, Heard(m), canOpen, remote);
      && t.state != Abort(Unexpected) && (t.state == Abort(Told) <==> m.kind.E?)
      && (t.state.Abort? ==> ReceiverAt(files, t, w) && forall j :: 0 <= j < |out| ==> out[j].kind.E?)
      && (t.state.Abort? ==> t.state == Abort(Told) || (t.state == Abort(CannotOpen) && !canOpen))
      && (t.state == Abort(Told) ==> out == [])
      && (!t.state.Abort? ==> ReceiverAt(files, t, w + 1) && out == [Msg(Y, w % 64, [])])
  {
    hide At, Closed, Partial;
    Mod64(w);
    AtFacts(files, w);
    AtFacts(files, w + 1);
    AtNext(files, w);
    if !m.kind.E? { Content(files, At(files, w)); }
  }

  /** What taking in the packet sent from p does to the files. */
  lemma {:induction false} Content(files: seq<Document>, p: Place)
    requires Transfer(files) && Within(files, p) && Active(p.state)
    ensures Within(files, Advance(files, p))
    ensures var q := Advance(files, p); var c, t := Closed(files, p), Partial(files, p);
      && (p.state.Init? || p.state.Break? ==> Closed(files, q) == c && Partial(files, q) == t)
      && (p.state.Header? ==> Closed(files, q) == c && Partial(files, q) == Open(Document(files[p.cur].name, [])))
      && (p.state.Data? ==> Closed(files, q) == c && Partial(files, q) == Write(t, files[p.cur].chunks[p.pos]))
      && (p.state.Eof? ==> Closed(files, q) == Close(c, t) && Partial(files, q) == NoFile)
  {
    var cur := files[p.cur];
    match p.state
    case Data =>
      assert cur.chunks[..p.pos + 1] == cur.chunks[..p.pos] + [cur.chunks[p.pos]];
      assert cur.chunks[..|cur.chunks|] == cur.chunks;
    case Eof =>
      assert files[..p.cur + 1] == files[..p.cur] + [cur];
      assert files[..|files|] == files;
    case _ =>
  }

  lemma {:induction false} ReceiverHearsKeeps(files: seq<Document>, y: Sys, a: Action, v: nat, w: nat, i: nat, k: nat)
    returns (w': nat, i': nat, k': nat)
    requires Transfer(files) && Inv(files, y, v, w, i, k) && a.ReceiverHears?
    ensures Inv(files, ReceiverActs(y, a), v, w', i', k')
    ensures ReceiverActs(y, a).receiver.state != Abort(Unexpected) || y.receiver.state == Abort(Unexpected)
  {
    hide At, SenderAt, ReceiverAt, Partial, Closed, IsCopy, IsAck, ReceiverHear, Advance;
    w', i', k' := w, i, k;
    var r := y.receiver;
    if Active(r.state) { GiveUp(files, r, w); }
    if Active(r.state) && r.numtry <= MAXTRY && y.data != [] {
      var m := y.data[0];
      var (t, out) := ReceiverHear(r, Heard(m), a.canOpen, a.remote);
      CopyKept(files, y.data, 0, i, v - 1);
      CopyKept(files, y.data, i, |y.data|, v);
      if w == v + 1 || i > 0 {
        OldPacket(files, r, m, w, a.canOpen, a.remote);
        AppendAcks(y.acks, out, k, |y.acks|, w - 1);
        if i > 0 { i' := i - 1; }
        if w == v { k' := |y.acks + out|; }
      } else {
        NewPacket(files, r, m, w, a.canOpen, a.remote);
        CopyActive(files, m, w);
        if t.state.Abort? {
          Errors(out, v - 1);
          AppendAcks(y.acks, out, 0, k, v - 1);
          k' := |y.acks + out|;
        } else {
          w' := w + 1;
          AckNumber(v);
          AppendAcks(y.acks, out, k, k, v);
        }
      }
    }
  }

  lemma {:induction false} AckNumber(x: nat)
    ensures IsAck(Msg(Y, x % 64, []), x) && IsAck(Msg(N, x % 64, []), x - 1)
  {
  }

  lemma {:induction false} CopyActive(files: seq<Document>, m: Msg, x: nat)
    requires Transfer(files) && IsCopy(files, m, x)
    ensures m.kind.E? || Active(At(files, x).state)
  {
  }

  lemma {:induction false} Errors(out: seq<Msg>, x: int)
    requires forall j :: 0 <= j < |out| ==> out[j].kind.E?
    ensures Acks(out, 0, |out|, x)
  {
  }

  lemma {:induction false} GiveUp(files: seq<Document>, r: Receiver, w: nat)
    requires Transfer(files) && ReceiverAt(files, r, w) && Active(r.state)
    ensures ReceiverAt(files, r.(numtry := r.numtry + 1, state := Abort(TooManyTries)), w)
  {
    hide At, Closed, Partial;
  }

  /** New acknowledgements go behind the old. */
  lemma {:induction false} AppendAcks(ms: seq<Msg>, out: seq<Msg>, from: nat, to: nat, x: int)
    requires from <= to <= |ms| && Acks(ms, from, |ms|, x) && Acks(out, 0, |out|, x)
    ensures Acks(ms + out, from, |ms + out|, x)
  {
    hide IsAck;
    forall j | 0 <= j < |ms + out| && from <= j ensures IsAck((ms + out)[j], x) {
      if j >= |ms| { assert (ms + out)[j] == out[j - |ms|]; }
    }
  }

  lemma {:induction false} ReceiverTimesOutKeeps(files: seq<Document>, y: Sys, v: nat, w: nat, i: nat, k: nat)
    returns (k': nat)
    requires Transfer(files) && Inv(files, y, v, w, i, k)
    ensures Inv(files, ReceiverActs(y, ReceiverTimesOut), v, w, i, k')
  {
    hide At, SenderAt, Partial, Closed, IsCopy, IsAck, Advance;
    k' := k;
    var r := y.receiver;
    if Active(r.state) { GiveUp(files, r, w); }
    if Active(r.state) && r.numtry <= MAXTRY {
      AckNumber(w);
      AppendAcks(y.acks, [Msg(N, r.n, [])], k, |y.acks|, w - 1);
      if w == v { k' := |y.acks| + 1; }
    }
  }

  lemma {:induction false} LossKeeps(files: seq<Document>, y: Sys, a: Action, v: nat, w: nat, i: nat, k: nat)
    returns (i': nat, k': nat)
    requires Transfer(files) && Inv(files, y, v, w, i, k) && (a.LoseData? || a.LoseAck?)
    ensures Inv(files, Act(files, y, a), v, w, i', k')
  {
    hide At, SenderAt, ReceiverAt, Partial, Closed, IsCopy, IsAck, Advance;
    i', k' := i, k;
    if a.LoseData? && a.j < |y.data| {
      var ms := y.data[..a.j] + y.data[a.j + 1..];
      assert forall j :: 0 <= j < |ms| ==> ms[j] == y.data[if j < a.j then j else j + 1];
      if a.j < i { i' := i - 1; }
    }
    if a.LoseAck? && a.j < |y.acks| {
      var ms := y.acks[..a.j] + y.acks[a.j + 1..];
      assert forall j :: 0 <= j < |ms| ==> ms[j] == y.acks[if j < a.j then j else j + 1];
      if a.j < k { k' := k - 1; }
    }
  }

  /** The invariant with its numbers left open. */
  ghost predicate Consistent(files: seq<Document>, y: Sys)
    requires Transfer(files)
  {
    exists v: nat, w: nat, i: nat, k: nat :: Inv(files, y, v, w, i, k)
  }

  lemma {:induction false} ActKeeps(files: seq<Document>, y: Sys, a: Action)
    requires Transfer(files) && Within(files, y.sender.at) && Consistent(files, y)
    ensures Consistent(files, Act(files, y, a))
  {
    hide Inv;
    var v: nat, w: nat, i: nat, k: nat :| Inv(files, y, v, w, i, k);
    ActWithin(files, y, a);
    if a.LoseData? || a.LoseAck? {
      var i', k' := LossKeeps(files, y, a, v, w, i, k);
    } else if a.ReceiverHears? {
      var w', i', k' := ReceiverHearsKeeps(files, y, a, v, w, i, k);
    } else if a.ReceiverTimesOut? {
      var k' := ReceiverTimesOutKeeps(files, y, v, w, i, k);
    } else if a.SenderHears? {
      var v', i', k' := SenderHearsKeeps(files, y, v, w, i, k);
    } else {
      SenderAloneKeeps(files, y, a, v, w, i, k);
    }
  }

  lemma {:induction false} SenderAloneKeeps(files: seq<Document>, y: Sys, a: Action, v: nat, w: nat, i: nat, k: nat)
    requires Transfer(files) && Inv(files, y, v, w, i, k) && (a.SenderTries? || a.SenderTimesOut?)
    ensures Inv(files, SenderActs(files, y, a), v, w, i, k)
  {
    hide At, ReceiverAt, Partial, Closed, IsAck;
    if a.SenderTries? { SenderTriesKeeps(files, y, a, v, w, i, k); }
  }

  lemma {:induction false} RunKeeps(files: seq<Document>, acts: seq<Action>)
    requires Transfer(files)
    ensures Consistent(files, Run(files, acts))
    decreases |acts|
  {
    hide Inv, Act;
    if acts == [] {
      StartHolds(files);
    } else {
      RunKeeps(files, acts[..|acts| - 1]);
      ActKeeps(files, Run(files, acts[..|acts| - 1]), acts[|acts| - 1]);
    }
  }

  lemma {:induction false} StartHolds(files: seq<Document>)
    requires Transfer(files)
    ensures Inv(files, Start(), 0, 0, 0, 0)
  {
  }

  // ----- blame --------------------------------------------------------------------------------

  predicate HasError(ms: seq<Msg>) { exists j :: 0 <= j < |ms| && ms[j].kind.E? }

  /** Neither side ever finds the other out of step; and an error packet, on the line or
      acted on, comes from a side that could not open a file. */
  ghost predicate Blame(y: Sys) {
    && y.sender.at.state != Abort(Unexpected) && y.receiver.state != Abort(Unexpected)
    && (HasError(y.data) || y.receiver.state == Abort(Told) ==> y.sender.at.state == Abort(CannotOpen))
    && (HasError(y.acks) || y.sender.at.state == Abort(Told) ==> y.receiver.state == Abort(CannotOpen))
  }

  lemma {:induction false} SenderBlame(files: seq<Document>, y: Sys, a: Action, v: nat, w: nat, i: nat, k: nat)
    requires Transfer(files) && Inv(files, y, v, w, i, k) && Blame(y)
    ensures Blame(SenderActs(files, y, a))
  {
    hide At, ReceiverAt, Partial, Closed, IsAck, IsCopy, Advance;
    var s := y.sender;
    if Active(s.at.state) && s.waiting && a.SenderHears? && y.acks != [] {
      var m := y.acks[0];
      if k > 0 { OldAck(files, s, m, v); } else { NewAck(files, s, m, v); }
      assert forall j :: 0 <= j < |y.acks[1..]| ==> y.acks[1..][j] == y.acks[j + 1];
    }
  }

  lemma {:induction false} ReceiverBlame(files: seq<Document>, y: Sys, a: Action, v: nat, w: nat, i: nat, k: nat)
    requires Transfer(files) && Inv(files, y, v, w, i, k) && Blame(y)
    ensures Blame(ReceiverActs(y, a))
  {
    hide At, SenderAt, ReceiverAt, Partial, Closed, IsAck, IsCopy, Advance, ReceiverHear;
    var r := y.receiver;
    if Active(r.state) && r.numtry <= MAXTRY {
      if a.ReceiverTimesOut? {
        Silence(r);
      } else if a.ReceiverHears? && y.data != [] {
        var m := y.data[0];
        assert forall j :: 0 <= j < |y.data[1..]| ==> y.data[1..][j] == y.data[j + 1];
        if w == v + 1 || i > 0 {
          OldPacket(files, r, m, w, a.canOpen, a.remote);
        } else {
          NewPacket(files, r, m, w, a.canOpen, a.remote);
        }
      }
    }
  }

  lemma {:induction false} Silence(r: Receiver)
    ensures ReceiverHear(r, Nothing, false, false) == (r.(numtry := r.numtry + 1), [Msg(N, r.n, [])])
  {
  }

  lemma {:induction false} ActBlame(files: seq<Document>, y: Sys, a: Action)
    requires Transfer(files) && Within(files, y.sender.at) && Consistent(files, y) && Blame(y)
    ensures Blame(Act(files, y, a))
  {
    hide Inv;
    var v: nat, w: nat, i: nat, k: nat :| Inv(files, y, v, w, i, k);
    SenderBlame(files, y, a, v, w, i, k);
    ReceiverBlame(files, y, a, v, w, i, k);
    if a.LoseData? && a.j < |y.data| {
      var ms := y.data[..a.j] + y.data[a.j + 1..];
      assert forall j :: 0 <= j < |ms| ==> ms[j] == y.data[if j < a.j then j else j + 1];
    }
    if a.LoseAck? && a.j < |y.acks| {
      var ms := y.acks[..a.j] + y.acks[a.j + 1..];
      assert forall j :: 0 <= j < |ms| ==> ms[j] == y.acks[if j < a.j then j else j + 1];
    }
  }

  /** No run ever gets one side out of step with the other. */
  lemma {:induction false} NeverOutOfStep(files: seq<Document>, acts: seq<Action>)
    requires Transfer(files)
    ensures Blame(Run(files, acts))
    decreases |acts|
  {
    hide Consistent, Act;
    if acts != [] {
      var before := acts[..|acts| - 1];
      RunKeeps(files, before);
      NeverOutOfStep(files, before);
      ActBlame(files, Run(files, before), acts[|acts| - 1]);
    }
  }

  // ----- the promises ---------------------------------------------------------------------------

  /** What the receiver has is the start of what the sender has: whole files in order, and
      at most one more, being written, of which it has the name and the first data fields. */
  ghost predicate Faithful(files: seq<Document>, closed: seq<Document>, part: Part) {
    && |closed| <= |files| && closed == files[..|closed|]
    && (part.Open? ==>
      |closed| < |files| && var f := files[|closed|];
      part.doc.name == f.name && |part.doc.chunks| <= |f.chunks| && part.doc.chunks == f.chunks[..|part.doc.chunks|])
  }

  /** At every moment of every run: nothing out of order, nothing twice, and every file
      that was closed is complete. */
  lemma {:induction false} Safety(files: seq<Document>, acts: seq<Action>)
    requires Transfer(files)
    ensures var r := Run(files, acts).receiver; Faithful(files, r.closed, r.part)
  {
    hide Run, Copies, Acks, At, SenderAt;
    var y := Run(files, acts);
    RunKeeps(files, acts);
    var v: nat, w: nat, i: nat, k: nat :| Inv(files, y, v, w, i, k);
    AtFacts(files, w);
    assert files[..|files|] == files;
  }

  /** A sender that ends well has delivered every file, and the receiver has ended well. */
  lemma {:induction false} Delivery(files: seq<Document>, acts: seq<Action>)
    requires Transfer(files)
    ensures var y := Run(files, acts);
      y.sender.at.state.Complete? ==> y.receiver.closed == files && y.receiver.part == NoFile
    ensures var y := Run(files, acts); y.sender.at.state.Complete? ==> y.receiver.state.Complete?
    ensures var y := Run(files, acts); y.receiver.state.Complete? ==> y.receiver.closed == files
  {
    hide Run, Copies, Acks, At;
    var y := Run(files, acts);
    RunKeeps(files, acts);
    var v: nat, w: nat, i: nat, k: nat :| Inv(files, y, v, w, i, k);
    AtFacts(files, w);
  }

  ghost predicate Opens(a: Action) {
    (a.SenderTries? || a.ReceiverHears?) ==> a.canOpen
  }

  ghost predicate NoOpenFailure(y: Sys) {
    y.sender.at.state != Abort(CannotOpen) && y.receiver.state != Abort(CannotOpen)
  }

  lemma {:induction false} ActOpens(files: seq<Document>, y: Sys, a: Action)
    requires Transfer(files) && Within(files, y.sender.at) && NoOpenFailure(y) && Opens(a)
    ensures NoOpenFailure(Act(files, y, a))
  {
  }

  /** When every file can be opened, the only way either side fails is by its try limit. */
  lemma {:induction false} OnlyTooManyTries(files: seq<Document>, acts: seq<Action>)
    requires Transfer(files) && forall j :: 0 <= j < |acts| ==> Opens(acts[j])
    ensures var y := Run(files, acts);
      && NoOpenFailure(y)
      && (y.sender.at.state.Abort? ==> y.sender.at.state.why.TooManyTries?)
      && (y.receiver.state.Abort? ==> y.receiver.state.why.TooManyTries?)
    decreases |acts|
  {
    hide Act, Opens;
    if acts != [] {
      var before := acts[..|acts| - 1];
      OnlyTooManyTries(files, before);
      ActOpens(files, Run(files, before), acts[|acts| - 1]);
    }
    NeverOutOfStep(files, acts);
  }

  // ----- a line that loses nothing --------------------------------------------------------------

  /** How many packets are still to be acknowledged at a place. */
  ghost function Remaining(files: seq<Document>, p: Place): (r: nat)
    requires Transfer(files) && Within(files, p)
    decreases |files| - p.cur, Rank(p.state), if p.state.Data? then |files[p.cur].chunks| - p.pos else 0
  {
    if !Active(p.state) then 0
    else
      AdvanceWithin(files, p);
      1 + Remaining(files, Advance(files, p))
  }

  ghost function Rank(s: State): nat {
    match s case Init => 5 case Header => 4 case Data => 3 case Eof => 2 case Break => 1 case _ => 0
  }

  /** Both sides at packet v, with nothing on the line, and tries to spare. */
  ghost predicate Quiet(files: seq<Document>, y: Sys, v: nat)
    requires Transfer(files)
  {
    && y.sender.at == At(files, v) && SenderAt(files, y.sender, v) && ReceiverAt(files, y.receiver, v)
    && y.data == [] && y.acks == [] && !y.sender.waiting && y.sender.numtry <= MAXTRY
    && Lasting(files, y.receiver, v)
  }

  /** The receiver has a try left for packet w; two if that is the end of a file, which does
      not reset its counter. */
  ghost predicate Lasting(files: seq<Document>, r: Receiver, w: nat)
    requires Transfer(files)
  {
    && !r.state.Abort?
    && (Active(r.state) ==> r.numtry <= MAXTRY && (At(files, w).state.Eof? ==> r.numtry < MAXTRY))
  }

  lemma {:induction false} FreshSender(files: seq<Document>, s: Sender, m: Msg)
    requires Within(files, s.at) && Active(s.at.state) && m == Msg(Y, s.n, [])
    ensures var t := SenderHear(files, s, Heard(m)); !t.waiting && t.numtry == 0 && t.at == Advance(files, s.at)
  {
  }

  lemma {:induction false} StillLasting(files: seq<Document>, r: Receiver, v: nat)
    requires Transfer(files) && ReceiverAt(files, r, v) && Lasting(files, r, v) && Active(At(files, v).state)
    ensures Active(r.state) && r.numtry <= MAXTRY
    ensures Lasting(files, ReceiverHear(r, Heard(PacketAt(files, At(files, v), v % 64)), true, false).0, v + 1)
  {
    hide At, Closed, Partial;
    AtFacts(files, v);
    AtNext(files, v);
  }

  /** A packet on its way to a receiver that wants it and has a try left gets there, and so
      does its acknowledgement. */
  lemma {:induction false} Delivered(files: seq<Document>, y: Sys, v: nat)
    requires Transfer(files) && y.sender.at == At(files, v) && Active(y.sender.at.state) && y.sender.waiting
    requires SenderAt(files, y.sender, v) && ReceiverAt(files, y.receiver, v) && Lasting(files, y.receiver, v)
    requires y.data == [PacketAt(files, At(files, v), v % 64)] && y.acks == []
    ensures var y2 := ReceiverActs(y, ReceiverHears(true, false));
      Within(files, y2.sender.at) && Quiet(files, SenderActs(files, y2, SenderHears), v + 1)
  {
    hide At, Closed, Partial, ReceiverHear, SenderHear;
    AtFacts(files, v);
    AtNext(files, v);
    StillLasting(files, y.receiver, v);
    NewPacket(files, y.receiver, y.data[0], v, true, false);
    AckNumber(v);
    var y2 := ReceiverActs(y, ReceiverHears(true, false));
    assert y2.data == [] && y2.acks == [Msg(Y, v % 64, [])];
    NewAck(files, y.sender, y2.acks[0], v);
    FreshSender(files, y.sender, y2.acks[0]);
  }

  /** The three actions that get one packet across. */
  lemma {:induction false} OneAcross(files: seq<Document>, y: Sys, v: nat)
    requires Transfer(files) && Quiet(files, y, v) && Active(y.sender.at.state)
    ensures var y1 := Act(files, y, SenderTries(true, false));
      var y2 := ReceiverActs(y1, ReceiverHears(true, false));
      Within(files, y2.sender.at) && Quiet(files, SenderActs(files, y2, SenderHears), v + 1)
  {
    hide At, ReceiverAt, Lasting, ReceiverHear, SenderHear;
    AtFacts(files, v);
    var y1 := SenderActs(files, y, SenderTries(true, false));
    assert y1.data == [PacketAt(files, y.sender.at, y.sender.n)];
    Delivered(files, y1, v);
  }

  /** From every place there is a way to the end: the transfer is possible, and a line that
      loses nothing makes it. */
  lemma {:induction false} QuietLine(files: seq<Document>, acts: seq<Action>, v: nat) returns (all: seq<Action>)
    requires Transfer(files) && Quiet(files, Run(files, acts), v)
    ensures |all| == |acts| + 3 * Remaining(files, At(files, v)) && acts <= all
    ensures Run(files, all).sender.at.state.Complete?
    ensures forall j :: |acts| <= j < |all| ==>
      all[j] == SenderTries(true, false) || all[j] == ReceiverHears(true, false) || all[j] == SenderHears
    decreases Remaining(files, At(files, v))
  {
    hide At, SenderAt, ReceiverAt, Act, Advance;
    var y := Run(files, acts);
    AtFacts(files, v);
    all := acts;
    if Active(y.sender.at.state) {
      AtNext(files, v);
      var a3 := Across(files, acts, v);
      all := QuietLine(files, a3, v + 1);
    }
  }

  lemma {:induction false} Across(files: seq<Document>, acts: seq<Action>, v: nat) returns (all: seq<Action>)
    requires Transfer(files) && Quiet(files, Run(files, acts), v) && Active(Run(files, acts).sender.at.state)
    ensures all == acts + [SenderTries(true, false), ReceiverHears(true, false), SenderHears]
    ensures Quiet(files, Run(files, all), v + 1)
  {
    hide At, SenderAt, ReceiverAt, Act, Advance;
    OneAcross(files, Run(files, acts), v);
    var a1 := acts + [SenderTries(true, false)];
    var a2 := a1 + [ReceiverHears(true, false)];
    all := a2 + [SenderHears];
    RunSnoc(files, acts, SenderTries(true, false));
    RunSnoc(files, a1, ReceiverHears(true, false));
    RunSnoc(files, a2, SenderHears);
    ActIs(files, Run(files, a1), Run(files, a2));
  }

  lemma {:induction false} ActIs(files: seq<Document>, y: Sys, z: Sys)
    requires Within(files, y.sender.at) && Within(files, z.sender.at)
    ensures Act(files, y, ReceiverHears(true, false)) == ReceiverActs(y, ReceiverHears(true, false))
    ensures Act(files, z, SenderHears) == SenderActs(files, z, SenderHears)
  {
  }

  lemma {:induction false} RunSnoc(files: seq<Document>, acts: seq<Action>, a: Action)
    requires Transfer(files)
    ensures Run(files, acts + [a]) == Act(files, Run(files, acts), a)
  {
    hide Act;
    assert (acts + [a])[..|acts|] == acts;
  }

  /** A line that loses nothing delivers everything, with one transmission a packet. */
  lemma {:induction false} PerfectLine(files: seq<Document>) returns (all: seq<Action>)
    requires Transfer(files)
    ensures var y := Run(files, all);
      y.sender.at.state.Complete? && y.receiver.state.Complete? && y.receiver.closed == files
    ensures |all| == 3 * Remaining(files, Place(Init, 0, 0))
  {
    hide Act;
    assert Quiet(files, Run(files, []), 0);
    all := QuietLine(files, [], 0);
    Delivery(files, all);
  }
}
