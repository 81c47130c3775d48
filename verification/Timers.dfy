/** The timer queue of timeout.c and its expiry in clock.c: a list in which every node
    holds the gap to the deadline of its successor, and timl the gap from now. */
module Timers {
  import opened Words
  import opened Seqs

  const MAXINT: int16 := 0x7FFF

  class Tim {
    var next: Tim?
    var tinc: int16
    var armed: bool      // t_func != NULL

    constructor ()
      ensures next == null && tinc == 0 && !armed
    {
      next, tinc, armed := null, 0, false;
    }
  }

  /** c lists a chain from its head on. */
  ghost predicate Chain(c: seq<Tim>)
    reads c`next
  {
    && 0 < |c|
    && (forall i, j :: 0 <= i < j < |c| ==> c[i] != c[j])
    && (forall i {:trigger c[i].next} :: 0 <= i < |c| ==> c[i].next == if i + 1 < |c| then c[i + 1] else null)
  }

  /** Member i of the queue is due at due[i]; due[0] is the present.  The last member's
      increment means nothing. */
  ghost predicate Gaps(c: seq<Tim>, due: seq<int>)
    reads c`tinc
  {
    && |c| == |due|
    && forall i {:trigger c[i].tinc} :: 0 <= i < |c| - 1 ==> c[i].tinc == due[i + 1] - due[i]
  }

  /** Deadlines never decrease along the queue, and the queue spans less than 2^15 ticks. */
  ghost predicate InOrder(due: seq<int>) {
    && 0 < |due|
    && (forall i, j :: 0 < i < j < |due| ==> due[i] <= due[j])
    && forall i, j :: 0 <= i < j < |due| ==> due[j] - due[i] <= 0x7FFF
  }

  /** Where a deadline goes: behind every member due no later. */
  ghost function Place(due: seq<int>, d: int): (k: nat)
    requires 0 < |due|
    ensures k < |due|
    ensures InOrder(due) ==>
      (forall i :: 0 < i <= k ==> due[i] <= d) && (forall i :: k < i < |due| ==> due[i] > d)
  {
    if |due| == 1 || due[|due| - 1] <= d then |due| - 1 else Place(due[..|due| - 1], d)
  }

  /** The list without the timer at position k of it, if k is one. */
  ghost function Cut<T>(s: seq<T>, k: nat): seq<T> {
    if k < |s| then Without(s, k) else s
  }

  lemma {:induction false} InOrderWithout(due: seq<int>, k: nat)
    requires InOrder(due) && 0 < k < |due|
    ensures InOrder(Without(due, k)) && Without(due, k)[0] == due[0]
  {
  }

  lemma {:induction false} InOrderWith(due: seq<int>, d: int)
    requires InOrder(due) && due[0] <= d <= due[0] + 0x7FFF && (|due| > 1 ==> d - due[1] <= 0x7FFF)
    ensures InOrder(With(due, Place(due, d) + 1, d)) && With(due, Place(due, d) + 1, d)[0] == due[0]
  {
    var k := Place(due, d);
    assert forall i :: 0 < i <= k ==> due[i] <= d;
    assert forall i :: k < i < |due| ==> due[i] > d;
  }

  /** The gap over a member fits in a word, given that of the first two does. */
  lemma {:induction false} GapOver(due: seq<int>, k: nat)
    requires InOrder(due) && 0 < k < |due| - 1 && due[0] - due[1] <= 0x8000
    ensures -0x8000 <= due[k + 1] - due[k - 1] <= 0x7FFF
  {
    assert due[k] <= due[k + 1] && (k > 1 ==> due[k - 1] <= due[k]);
  }

  /** Unlinking member k: its predecessor takes over its increment. */
  method Excise(ghost c: seq<Tim>, ghost due: seq<int>, tp1: Tim, tp2: Tim, ghost k: nat)
    requires Chain(c) && Gaps(c, due) && InOrder(due) && 0 < k < |c| && tp1 == c[k - 1] && tp2 == c[k]
    modifies c`next, c`tinc
    ensures Chain(Without(c, k)) && Gaps(Without(c, k), Without(due, k))
  {
    hide Int16, InOrder;
    assert c[0].tinc == due[1] - due[0];
    assert c[k].next == (if k + 1 < |c| then c[k + 1] else null) && c[k - 1].next == c[k];
    assert c[k - 1].tinc == due[k] - due[k - 1];
    if k + 1 < |c| {
      assert c[k].tinc == due[k + 1] - due[k];
      GapOver(due, k);
      Int16Fits(due[k + 1] - due[k - 1]);
    }
    tp1.next := tp2.next;
    tp1.tinc := Int16(tp1.tinc + tp2.tinc);
  }

  /** The cancelling half of timeout: look for tp and unlink it. */
  method Cancel(ghost c: seq<Tim>, ghost due: seq<int>, timl: Tim, tp: Tim) returns (ghost k: nat)
    requires Chain(c) && Gaps(c, due) && InOrder(due) && timl == c[0] && tp != timl
    modifies c`next, c`tinc
    ensures 0 < k <= |c| && (if k < |c| then c[k] == tp else tp !in c)
    ensures Chain(Cut(c, k)) && Gaps(Cut(c, k), Cut(due, k))
  {
    var tp1 := timl;
    k := 1;
    assert c[0].next == if 1 < |c| then c[1] else null;
    while tp1.next != null
      invariant 0 < k <= |c| && tp1 == c[k - 1] && tp1.next == if k < |c| then c[k] else null
      invariant tp !in c[..k]
      invariant Chain(c) && Gaps(c, due)
      decreases |c| - k
    {
      var tp2 := tp1.next;
      if tp2 == tp {
        Excise(c, due, tp1, tp2, k);
        return;
      }
      tp1 := tp2;
      k := k + 1;
      assert c[k - 1].next == if k < |c| then c[k] else null;
    }
  }

  /** Counting n from the earliest deadline, which may be overdue, stays in a word. */
  ghost predicate Fits(due: seq<int>, n: int) {
    |due| > 1 ==> due[0] + n - due[1] <= 0x7FFF
  }

  /** Where the search of timeout stops from member k on, with m of the count left. */
  ghost function Found(due: seq<int>, k: nat, m: int): (r: nat)
    requires k < |due|
    ensures k <= r < |due|
    decreases |due| - k
  {
    if k + 1 == |due| || Int16(m - (due[k + 1] - due[k])) < 0 then k
    else Found(due, k + 1, Int16(m - (due[k + 1] - due[k])))
  }

  /** From where nothing wraps the search finds the place. */
  lemma {:induction false} FoundFrom(due: seq<int>, d: int, k: nat)
    requires InOrder(due) && k < |due| && (k == 0 || due[k] <= d) && d - due[k] <= 0x7FFF && 0 <= d - due[0]
    requires Fits(due, d - due[0])
    ensures Found(due, k, d - due[k]) == Place(due, d)
    decreases |due| - k
  {
    hide Int16, Place;
    if k + 1 < |due| && due[k + 1] <= d {
      assert d - due[k + 1] <= d - due[1];
      Int16Fits(d - due[k + 1]);
      FoundFrom(due, d, k + 1);
    } else {
      if k + 1 < |due| {
        assert due[k + 1] - d <= due[k + 1] - due[0];
        Int16Fits(d - due[k + 1]);
      }
      PlaceIs(due, d, k);
    }
  }

  /** The search finds the right place exactly when the count fits; otherwise the first
      subtraction wraps and the timer is queued ahead of one that is already overdue. */
  lemma {:induction false} FoundIff(due: seq<int>, n: int16)
    requires InOrder(due) && 0 <= n && (|due| > 1 ==> due[0] - due[1] <= 0x8000)
    ensures Found(due, 0, n) == Place(due, due[0] + n) <==> Fits(due, n)
    ensures !Fits(due, n) ==> Found(due, 0, n) == 0 && due[1] < due[0] + n
  {
    if Fits(due, n) {
      FoundFrom(due, due[0] + n, 0);
    } else {
      Int16Wraps(n - (due[1] - due[0]));
      assert due[1] <= due[0] + n;
    }
  }

  /** As with a first timer that is 10 ticks overdue and a new one for the longest time. */
  lemma {:induction false} FoundWrong()
    ensures InOrder([10, 0]) && Found([10, 0], 0, 0x7FFF) == 0 && Place([10, 0], 10 + 0x7FFF) == 1
  {
    FoundIff([10, 0], 0x7FFF);
  }

  /** The search of timeout: subtract the increments until one is too large. */
  method FindPlace(ghost c: seq<Tim>, ghost due: seq<int>, timl: Tim, n: int16)
    returns (tp1: Tim, m: int16, ghost k: nat)
    requires Chain(c) && Gaps(c, due) && InOrder(due) && timl == c[0] && 0 <= n
    ensures k == Found(due, 0, n) && k < |c| && tp1 == c[k]
    ensures Fits(due, n) ==> k == Place(due, due[0] + n) && m == due[0] + n - due[k]
    ensures !Fits(due, n) ==> k == 0 && due[1] < due[0] + n
  {
    hide InOrder, Place, Int16;
    tp1, m, k := timl, n, 0;
    assert c[0].next == if 1 < |c| then c[1] else null;
    while tp1.next != null
      invariant k < |c| && tp1 == c[k] && tp1.next == (if k + 1 < |c| then c[k + 1] else null)
      invariant Found(due, 0, n) == Found(due, k, m) && (k > 0 ==> 0 <= m)
      invariant Fits(due, n) ==> m == due[0] + n - due[k]
      decreases |c| - k
    {
      assert c[k].tinc == due[k + 1] - due[k];
      NextGap(due, n, k, m);
      m := Int16(m - tp1.tinc);
      if m < 0 {
        m := Int16(m + tp1.tinc);
        break;
      }
      tp1 := tp1.next;
      k := k + 1;
      assert c[k].next == if k + 1 < |c| then c[k + 1] else null;
    }
    assert |due| > 1 ==> c[0].tinc == due[1] - due[0];
    FoundIff(due, n);
  }

  lemma {:induction false} NextGap(due: seq<int>, n: int, k: nat, m: int16)
    requires InOrder(due) && k + 1 < |due| && 0 <= n <= 0x7FFF && (k > 0 ==> 0 <= m)
    ensures 0 < |due| && Int16(Int16(m - (due[k + 1] - due[k])) + (due[k + 1] - due[k])) == m
    ensures Fits(due, n) && m == due[0] + n - due[k] ==> Int16(m - (due[k + 1] - due[k])) == due[0] + n - due[k + 1]
  {
    assert k > 0 ==> due[k + 1] - due[k] >= 0;
    assert due[k + 1] - due[0] <= 0x7FFF;
    assert due[1] <= due[k + 1];
  }

  lemma {:induction false} PlaceIs(due: seq<int>, d: int, k: nat)
    requires InOrder(due) && k < |due| && (k == 0 || due[k] <= d) && (k + 1 < |due| ==> due[k + 1] > d)
    ensures Place(due, d) == k
  {
    var p := Place(due, d);
    assert p == 0 || due[p] <= d;
    assert p + 1 == |due| || due[p + 1] > d;
  }

  lemma {:induction false} NotEmpty(due: seq<int>)
    requires InOrder(due)
    ensures |due| > 0
  {
  }

  lemma {:induction false} PlaceFits(due: seq<int>, d: int)
    requires InOrder(due) && due[0] <= d
    ensures var k := Place(due, d); k + 1 < |due| ==> d < due[k + 1] && due[k + 1] - d <= 0x7FFF
  {
    assert Place(due, d) + 1 < |due| ==> due[Place(due, d) + 1] - due[0] <= 0x7FFF;
  }

  /** The inserting half of timeout. */
  method Insert(ghost c: seq<Tim>, ghost due: seq<int>, tp1: Tim, tp: Tim, n: int16, ghost d: int, ghost k: nat)
    requires Chain(c) && Gaps(c, due) && tp !in c && k < |c| && tp1 == c[k]
    modifies c`next, c`tinc, tp
    ensures Chain(With(c, k + 1, tp)) && tp.armed
    ensures n == d - due[k] && (k + 1 < |c| ==> d < due[k + 1] && due[k + 1] - d <= 0x7FFF) ==>
      Gaps(With(c, k + 1, tp), With(due, k + 1, d))
  {
    assert c[k].next == if k + 1 < |c| then c[k + 1] else null;
    assert k + 1 < |c| ==> c[k].tinc == due[k + 1] - due[k];
    var tp2 := tp1.next;
    var ttinc := Int16(tp1.tinc - n);
    tp1.next := tp;
    tp1.tinc := n;
    tp.next := tp2;
    tp.tinc := ttinc;
    tp.armed := true;
  }

  /** The whole queue. */
  ghost predicate Queue(timl: Tim, c: seq<Tim>, due: seq<int>)
    reads c`next, c`tinc, c`armed
  {
    && Chain(c) && c[0] == timl && Gaps(c, due) && InOrder(due)
    && forall i :: 0 < i < |c| ==> c[i].armed
  }

  /** The first half of timeout: tp, if it is armed and queued, is taken out. */
  method Disarm(timl: Tim, ghost c: seq<Tim>, ghost due: seq<int>, tp: Tim) returns (ghost k: nat)
    requires Queue(timl, c, due) && tp != timl
    modifies c`next, c`tinc
    ensures 0 < k <= |c| == |due| && (if k < |c| then c[k] == tp else tp !in c)
    ensures Queue(timl, Cut(c, k), Cut(due, k)) && tp !in Cut(c, k)
    ensures forall i :: 0 <= i < |Cut(c, k)| ==> Cut(c, k)[i] in c
    ensures 0 < |Cut(c, k)| == |Cut(due, k)| && Cut(due, k)[0] == due[0]
    ensures |Cut(due, k)| > 1 ==> |due| > 1 && Cut(due, k)[1] >= due[1]
  {
    k := |c|;
    if tp.armed {
      k := Cancel(c, due, timl, tp);
      if k < |c| { InOrderWithout(due, k); }
    }
  }

  /** The second half: tp is queued to be due n ticks from now, unless the count wraps. */
  method Arm(timl: Tim, ghost c: seq<Tim>, ghost due: seq<int>, tp: Tim, n: int16) returns (ghost k: nat)
    requires Queue(timl, c, due) && tp !in c && 0 <= n && 0 < |due|
    modifies c`next, c`tinc, tp
    ensures k < |c| == |due| && Chain(With(c, k + 1, tp)) && tp.armed
    ensures Fits(due, n) ==>
      k == Place(due, due[0] + n) && Queue(timl, With(c, k + 1, tp), With(due, k + 1, due[0] + n))
    ensures !Fits(due, n) ==> k == 0 && |due| > 1 && due[1] < due[0] + n
  {
    hide Int16, Found, Chain, InOrder, Place;
    NotEmpty(due);
    ghost var d := due[0] + n;
    PlaceFits(due, d);
    if Fits(due, n) { InOrderWith(due, d); }
    var tp1, m;
    tp1, m, k := FindPlace(c, due, timl, n);
    Insert(c, due, tp1, tp, m, d, k);
  }

  /** The body of the expiry loop of stand. */
  method Expire(timl: Tim, ghost c: seq<Tim>, ghost due: seq<int>) returns (tp: Tim?)
    requires Queue(timl, c, due)
    modifies timl`next, timl`tinc, c`armed
    ensures |c| == |due| && 0 < |due|
    ensures tp != null <==> |due| > 1 && due[1] <= due[0]
    ensures tp == null ==> Queue(timl, c, due)
    ensures tp != null ==> tp == c[1] && !tp.armed && Queue(timl, Without(c, 1), Without(due, 1))
  {
    hide Int16, InOrder;
    NotEmpty(due);
    assert c[0].next == if |c| > 1 then c[1] else null;
    assert |c| > 1 ==> c[0].tinc == due[1] - due[0];
    if timl.tinc > 0 {
      return null;
    }
    tp := timl.next;
    if tp == null {
      timl.tinc := MAXINT;
      return;
    }
    assert c[1].next == if |c| > 2 then c[2] else null;
    if |c| > 2 {
      assert c[1].tinc == due[2] - due[1];
      GapOver(due, 1);
      Int16Fits(due[2] - due[0]);
    }
    timl.next := tp.next;
    timl.tinc := Int16(timl.tinc + tp.tinc);
    tp.armed := false;
    InOrderWithout(due, 1);
  }

  class TimerQueue {
    const timl: Tim
    ghost var c: seq<Tim>      // the queue, timl first
    ghost var due: seq<int>    // absolute deadlines, the present first

    ghost predicate Valid()
      reads this, c
    {
      Queue(timl, c, due)
    }

    constructor ()
      ensures Valid() && c == [timl] && due == [0]
    {
      timl := new Tim();
      new;
      c, due := [timl], [0];
    }

    /** clock: timl.t_tinc -= 1. */
    method Tick()
      requires Valid() && |due| > 0 && (|due| > 1 ==> due[1] > due[0] - 0x8000)
      modifies this`due, timl`tinc
      ensures Valid() && due == old(due)[0 := old(due)[0] + 1]
    {
      assert |c| > 1 ==> c[0].tinc == due[1] - due[0];
      timl.tinc := Int16(timl.tinc - 1);
      due := due[0 := due[0] + 1];
    }

    /** timeout: tp, wherever it was queued, is taken out, and if there is a function to
        call it is queued to be due n ticks from now, behind every timer due no later.
        No other deadline changes.  When the count from the first deadline does not fit, tp
        becomes the first timer, ahead of one that is overdue. */
    method Timeout(tp: Tim, n: int16, f: bool) returns (ghost k: nat)
      requires Valid() && tp != timl && 0 <= n && |due| > 0
      modifies this`c, this`due, c`next, c`tinc, tp
      ensures 0 < k <= |old(c)| == |old(due)|
      ensures if k < |old(c)| then old(c)[k] == tp else tp !in old(c)
      ensures 0 < |Cut(old(c), k)| == |Cut(old(due), k)|
      ensures !f ==> Valid() && c == Cut(old(c), k) && due == Cut(old(due), k)
      ensures f && Fits(Cut(old(due), k), n) ==>
        Valid() && Placed(Cut(old(c), k), Cut(old(due), k), tp, old(due)[0] + n)
      ensures f && !Fits(Cut(old(due), k), n) ==>
        Chain(c) && c == With(Cut(old(c), k), 1, tp) && Cut(old(due), k)[1] < old(due)[0] + n
    {
      hide Queue, Cut, Place, With, Chain;
      k := Disarm(timl, c, due, tp);
      c, due := Cut(c, k), Cut(due, k);
      if f {
        ghost var d := due[0] + n;
        ghost var i := Arm(timl, c, due, tp, n);
        c, due := With(c, i + 1, tp), With(due, i + 1, d);
      }
    }

    /** tp has been put, with deadline d, where it belongs in c1. */
    ghost predicate Placed(c1: seq<Tim>, due1: seq<int>, tp: Tim, d: int)
      requires 0 < |c1| == |due1|
      reads this
    {
      c == With(c1, Place(due1, d) + 1, tp) && due == With(due1, Place(due1, d) + 1, d)
    }

    /** One round of the expiry loop of stand.  A timer is fired exactly when the first
        deadline has been reached; it is the first in the queue, and no deadline changes. */
    method ExpireOne() returns (tp: Tim?)
      requires Valid()
      modifies this`c, this`due, timl`next, timl`tinc, c`armed
      ensures Valid() && 0 < |old(c)| == |old(due)|
      ensures tp != null <==> |old(due)| > 1 && old(due)[1] <= old(due)[0]
      ensures tp == null ==> c == old(c) && due == old(due)
      ensures tp != null ==> tp == old(c)[1] && !tp.armed && c == Without(old(c), 1) && due == Without(old(due), 1)
    {
      hide Queue, Without;
      tp := Expire(timl, c, due);
      if tp != null {
        c, due := Without(c, 1), Without(due, 1);
      }
    }
  }
}
