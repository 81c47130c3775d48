/** Process scheduling: the run queue of proc.c, whose ring of p_cval fields holds
    differences modulo 2^16, the hashed sleep queues, and the ageing step of clock.c. */
module Scheduler {
  import opened Words
  import opened Seqs

  const CVCLOCK: word := 1

  datatype State = Sleeping | Running | Dead

  class Proc {
    var lforw: Proc?
    var lback: Proc?
    var cval: word
    var core: bool
    var state: State
    var event: int
    var lctim: word

    constructor ()
      ensures cval == 0 && lforw == this && lback == this && event == -1
    {
      lforw, lback, cval, core := this, this, 0, true;
      state, event, lctim := Dead, -1, 0;
    }
  }

  // ----- rings ---------------------------------------------------------------

  /** Member i of a ring, counting the head c[0] at both ends. */
  ghost function At(c: seq<Proc>, i: nat): Proc
    requires 0 < |c|
  {
    if i < |c| then c[i] else c[0]
  }

  /** c lists a circular doubly linked ring from its head round. */
  ghost predicate Ring(c: seq<Proc>)
    reads c`lforw, c`lback
  {
    && 0 < |c|
    && (forall i, j :: 0 <= i < j < |c| ==> c[i] != c[j])
    && (forall i {:trigger c[i].lforw} :: 0 <= i < |c| ==> c[i].lforw == At(c, i + 1))
    && (forall i {:trigger c[i].lback} :: 0 < i < |c| ==> c[i].lback == c[i - 1])
    && c[0].lback == c[|c| - 1]
  }

  /** pp->p_lback->p_lforw = pp->p_lforw; pp->p_lforw->p_lback = pp->p_lback */
  method Unlink(ghost c: seq<Proc>, p: Proc, ghost k: nat)
    requires Ring(c) && 0 < k < |c| && c[k] == p
    modifies c`lforw, c`lback
    ensures Ring(Without(c, k))
    ensures p.lforw == old(p.lforw) && p.lback == old(p.lback)
  {
    assert p == c[k] && c[k - 1].lforw == p;
    p.lback.lforw := p.lforw;
    p.lforw.lback := p.lback;
  }

  /** Splice p in just after b, the k-th member. */
  method Splice(ghost c: seq<Proc>, b: Proc, p: Proc, ghost k: nat)
    requires Ring(c) && p !in c && k < |c| && b == c[k]
    modifies c`lforw, c`lback, p`lforw, p`lback
    ensures Ring(With(c, k + 1, p))
    ensures p.lforw == At(c, k + 1)
  {
    assert c[k].lforw == At(c, k + 1);
    b.lforw.lback := p;
    p.lforw := b.lforw;
    b.lforw := p;
    p.lback := b;
  }

  // ----- the delta encoding ----------------------------------------------------

  /** vals[0] stands for the head and is 0; the queued values never rise. */
  ghost predicate Sorted(vals: seq<int>) {
    && 0 < |vals| && vals[0] == 0
    && forall i, j :: 0 < i < j < |vals| ==> vals[i] >= vals[j]
  }

  /** The p_cval fields of a ring. */
  ghost function Fields(c: seq<Proc>): (cv: seq<int>)
    reads c`cval
    ensures |cv| == |c| && forall i :: 0 <= i < |c| ==> cv[i] == c[i].cval
  {
    FieldsExist(c);
    var cv :| |cv| == |c| && forall i :: 0 <= i < |c| ==> cv[i] == c[i].cval;
    cv
  }

  lemma {:induction false} FieldsExist(c: seq<Proc>)
    ensures exists cv: seq<int> :: |cv| == |c| && forall i :: 0 <= i < |c| ==> cv[i] == c[i].cval
  {
    var cv: seq<int> := [];
    while |cv| < |c|
      invariant |cv| <= |c| && forall i :: 0 <= i < |cv| ==> cv[i] == c[i].cval
    {
      cv := cv + [c[|cv|].cval];
    }
  }

  /** Every member holds its predecessor's value less its own, modulo 2^16; the head,
      which follows the last member, holds the last value. */
  ghost predicate Encodes(cv: seq<int>, vals: seq<int>) {
    && 0 < |cv| == |vals| && vals[0] == 0
    && (forall i :: 0 <= i < |vals| ==> 0 <= vals[i] <= MAXU)
    && (forall i {:trigger cv[i]} :: 0 < i < |cv| ==> cv[i] == Sub16(vals[i - 1], vals[i]))
    && cv[0] == vals[|vals| - 1]
  }

  /** The sum modulo 2^16 of the fields from member i round to the head. */
  ghost function SumFrom(cv: seq<int>, i: nat): int
    requires 0 < i <= |cv|
    decreases |cv| - i
  {
    if i == |cv| then cv[0] else Add16(cv[i], SumFrom(cv, i + 1))
  }

  /** The value of a member is the sum of the fields from its successor up to and
      including the head; from the first member on, the whole ring sums to 0. */
  lemma {:induction false} ValueIsSuffixSum(cv: seq<int>, vals: seq<int>, i: nat)
    requires Encodes(cv, vals) && i < |cv|
    ensures SumFrom(cv, i + 1) == vals[i]
    decreases |cv| - i
  {
    if i + 1 < |cv| {
      ValueIsSuffixSum(cv, vals, i + 1);
      assert cv[i + 1] == Sub16(vals[i], vals[i + 1]);
    }
  }

  /** Conversely a ring that sums to 0 encodes the suffix sums it contains, so the
      encoding has exactly one decoding. */
  lemma {:induction false} DecodingIsUnique(cv: seq<int>, vals: seq<int>)
    requires 0 < |cv| == |vals| && vals[0] == 0
    requires forall i :: 0 <= i < |vals| ==> 0 <= vals[i] <= MAXU && 0 <= cv[i] <= MAXU
    ensures Encodes(cv, vals) <==> forall i :: 0 <= i < |cv| ==> SumFrom(cv, i + 1) == vals[i]
  {
    if Encodes(cv, vals) {
      forall i | 0 <= i < |cv| ensures SumFrom(cv, i + 1) == vals[i] {
        ValueIsSuffixSum(cv, vals, i);
      }
    }
    if forall i :: 0 <= i < |cv| ==> SumFrom(cv, i + 1) == vals[i] {
      forall i | 0 < i < |cv| ensures cv[i] == Sub16(vals[i - 1], vals[i]) {
        assert SumFrom(cv, (i - 1) + 1) == vals[i - 1] && SumFrom(cv, i + 1) == vals[i];
      }
      assert SumFrom(cv, (|cv| - 1) + 1) == vals[|cv| - 1];
    }
  }

  /** The member after which a process of value x is queued: the last whose value is
      at least x, or the head.  First in first out among equals. */
  ghost function Pos(vals: seq<int>, x: int): (k: nat)
    requires 0 < |vals|
    ensures k < |vals|
    ensures Sorted(vals) ==>
      (forall i :: 0 < i <= k ==> vals[i] >= x) && (forall i :: k < i < |vals| ==> vals[i] < x)
  {
    if |vals| == 1 || vals[|vals| - 1] >= x then |vals| - 1 else Pos(vals[..|vals| - 1], x)
  }

  lemma {:induction false} PosIs(vals: seq<int>, x: int, k: nat)
    requires Sorted(vals) && k < |vals|
    requires k == 0 || vals[k] >= x
    requires forall i :: k < i < |vals| ==> vals[i] < x
    ensures Pos(vals, x) == k
  {
    var p := Pos(vals, x);
    assert p == 0 || vals[p] >= x;
  }

  lemma {:induction false} GapsAdd(a: int, x: int, b: int)
    requires 0 <= a <= MAXU && 0 <= x <= MAXU && 0 <= b <= MAXU
    ensures Sub16(Sub16(a, b), Sub16(a, x)) == Sub16(x, b)
    ensures Add16(Sub16(x, b), Sub16(a, x)) == Sub16(a, b)
  {
  }

  lemma {:induction false} SortedWith(vals: seq<int>, x: int)
    requires Sorted(vals)
    ensures Sorted(With(vals, Pos(vals, x) + 1, x))
  {
    var k := Pos(vals, x);
    assert forall i :: 0 < i <= k ==> vals[i] >= x;
    assert forall i :: k < i < |vals| ==> vals[i] < x;
  }

  lemma {:induction false} SortedWithout(vals: seq<int>, k: nat)
    requires Sorted(vals) && 0 < k < |vals|
    ensures Sorted(Without(vals, k))
  {
  }

  /** Splicing a value in behind member k: two fields change and the encoding holds. */
  lemma {:induction false} EncodesWith(cv: seq<int>, vals: seq<int>, k: nat, x: int, cv': seq<int>)
    requires Encodes(cv, vals) && k < |vals| && 0 <= x <= MAXU
    requires |cv'| == |cv| + 1 && cv'[k + 1] == Sub16(vals[k], x)
    requires forall i :: 0 < i <= k ==> cv'[i] == cv[i]
    requires forall i {:trigger cv'[i]} :: k + 2 < i < |cv'| ==> cv'[i] == cv[i - 1]
    requires if k + 1 < |cv| then cv'[0] == cv[0] && cv'[k + 2] == Sub16(cv[k + 1], cv'[k + 1])
             else cv'[0] == Sub16(cv[0], cv'[k + 1])
    ensures Encodes(cv', With(vals, k + 1, x))
  {
    var w := With(vals, k + 1, x);
    GapsAdd(vals[k], x, if k + 1 < |cv| then vals[k + 1] else 0);
    assert w[|w| - 1] == if k + 1 < |cv| then vals[|vals| - 1] else x;
    forall i | 0 < i < |cv'| ensures cv'[i] == Sub16(w[i - 1], w[i]) {
      if i <= k {
        assert cv'[i] == cv[i] == Sub16(vals[i - 1], vals[i]);
      } else if i > k + 2 {
        assert cv'[i] == cv[i - 1] == Sub16(vals[i - 2], vals[i - 1]);
      } else if i == k + 2 {
        assert cv[k + 1] == Sub16(vals[k], vals[k + 1]);
      }
    }
  }

  lemma {:induction false} DistinctWith(c: seq<Proc>, k: nat, p: Proc)
    requires k <= |c| && Ring(With(c, k, p))
    ensures forall i, j :: 0 <= i < j < |c| ==> c[i] != c[j]
  {
    forall i, j | 0 <= i < j < |c| ensures c[i] != c[j] {
      assert With(c, k, p)[if i < k then i else i + 1] == c[i];
      assert With(c, k, p)[if j < k then j else j + 1] == c[j];
    }
  }

  /** The same on the ring itself, where cv are the fields before the two stores. */
  lemma {:induction false} EncodesSpliced(c: seq<Proc>, cv: seq<int>, vals: seq<int>, k: nat, x: int, p: Proc)
    requires Encodes(cv, vals) && k < |vals| && 0 <= x <= MAXU
    requires |c| == |cv| && p !in c && forall i, j :: 0 <= i < j < |c| ==> c[i] != c[j]
    requires p.cval == Sub16(vals[k], x)
    requires At(c, k + 1).cval == Sub16(if k + 1 < |c| then cv[k + 1] else cv[0], p.cval)
    requires forall i :: 0 <= i < |c| && c[i] != At(c, k + 1) ==> c[i].cval == cv[i]
    ensures Encodes(Fields(With(c, k + 1, p)), With(vals, k + 1, x))
  {
    var c' := With(c, k + 1, p);
    assert c'[0] == c[0] && c'[k + 1] == p;
    assert k + 1 < |c| ==> c'[k + 2] == c[k + 1];
    EncodesWith(cv, vals, k, x, Fields(c'));
  }

  /** Taking member k out: its successor absorbs its field. */
  lemma {:induction false} EncodesWithout(cv: seq<int>, vals: seq<int>, k: nat, cv': seq<int>)
    requires Encodes(cv, vals) && 0 < k < |cv| == |cv'|
    requires
      var n := if k + 1 < |cv| then k + 1 else 0;
      && cv'[n] == Add16(cv[n], cv[k])
      && forall i :: 0 <= i < |cv| && i != k && i != n ==> cv'[i] == cv[i]
    ensures Encodes(Without(cv', k), Without(vals, k))
  {
    var w, cw := Without(vals, k), Without(cv', k);
    GapsAdd(vals[k - 1], vals[k], if k + 1 < |cv| then vals[k + 1] else 0);
    assert cv[k] == Sub16(vals[k - 1], vals[k]);
    forall i | 0 < i < |cw| ensures cw[i] == Sub16(w[i - 1], w[i]) {
      if i < k {
        assert cv'[i] == cv[i];
      } else if i > k {
        assert cv'[i + 1] == cv[i + 1];
      }
    }
    assert k + 1 < |cv| ==> cv'[0] == cv[0];
  }

  lemma {:induction false} EncodesUnlinked(c: seq<Proc>, cv: seq<int>, vals: seq<int>, k: nat)
    requires Encodes(cv, vals) && 0 < k < |c| == |cv|
    requires forall i, j :: 0 <= i < j < |c| ==> c[i] != c[j]
    requires At(c, k + 1).cval == Add16(if k + 1 < |c| then cv[k + 1] else cv[0], cv[k])
    requires forall i :: 0 <= i < |c| && i != k && c[i] != At(c, k + 1) ==> c[i].cval == cv[i]
    ensures Encodes(Fields(Without(c, k)), Without(vals, k))
  {
    var cv' := Fields(c);
    EncodesWithout(cv, vals, k, cv');
    assert Fields(Without(c, k)) == Without(cv', k);
  }

  // ----- operations on the run queue's ring --------------------------------------

  ghost predicate RunRing(c: seq<Proc>, vals: seq<int>)
    reads c`lforw, c`lback, c`cval
  {
    Ring(c) && Sorted(vals) && Encodes(Fields(c), vals)
  }

  /** The search of setrun: walk back from the tail, decoding on the way. */
  method Place(ghost c: seq<Proc>, ghost vals: seq<int>, h: Proc, x: word)
    returns (pp2: Proc, v: word, ghost k: nat)
    requires RunRing(c, vals) && h == c[0]
    ensures k == Pos(vals, x) && pp2 == c[k] && v == vals[k]
  {
    v := 0;
    pp2 := h;
    k := |c|;
    while true
      invariant 0 < k <= |c| && pp2 == At(c, k)
      invariant v == if k < |c| then vals[k] else 0
      invariant forall i :: k <= i < |c| ==> vals[i] < x
      decreases k
    {
      k := k - 1;
      pp2 := pp2.lback;
      assert pp2 == c[k] && c[k].lforw == At(c, k + 1);
      v := Add16(v, pp2.lforw.cval);
      assert v == vals[k];
      if v >= x {
        break;
      }
      if pp2 == h {
        break;
      }
    }
    PosIs(vals, x, k);
  }

  /** The last stores of setrun: the new member takes the gap to its predecessor and
      its successor gives it up. */
  method Widen(ghost c: seq<Proc>, ghost vals: seq<int>, pp1: Proc, v: word, ghost k: nat)
    requires Encodes(Fields(c), vals) && Sorted(vals) && k == Pos(vals, pp1.cval) && v == vals[k]
    requires k < |c| == |vals| && pp1 !in c && Ring(With(c, k + 1, pp1)) && pp1.lforw == At(c, k + 1)
    modifies c`cval, pp1`cval, pp1`state
    ensures pp1.state == Running
    ensures RunRing(With(c, k + 1, pp1), With(vals, k + 1, old(pp1.cval)))
  {
    hide Ring, Encodes, Sorted, Pos, With;
    ghost var x, cv := pp1.cval, Fields(c);
    DistinctWith(c, k + 1, pp1);
    var v := Sub16(v, pp1.cval);
    pp1.cval := v;
    pp1.lforw.cval := Sub16(pp1.lforw.cval, v);
    pp1.state := Running;
    EncodesSpliced(c, cv, vals, k, x, pp1);
    SortedWith(vals, x);
  }

  /** setrun on a bare ring. */
  method Enqueue(ghost c: seq<Proc>, ghost vals: seq<int>, h: Proc, pp1: Proc) returns (ghost k: nat)
    requires RunRing(c, vals) && h == c[0] && pp1 !in c
    modifies c`lforw, c`lback, c`cval, pp1`lforw, pp1`lback, pp1`cval, pp1`state
    ensures k < |c| == |vals| && k == Pos(vals, old(pp1.cval)) && pp1.state == Running
    ensures RunRing(With(c, k + 1, pp1), With(vals, k + 1, old(pp1.cval)))
  {
    var pp2, v;
    pp2, v, k := Place(c, vals, h, pp1.cval);
    Splice(c, pp2, pp1, k);
    Widen(c, vals, pp1, v, k);
  }

  /** The removal in dispatch: the successor absorbs the field, the member gets back its value. */
  method Extract(ghost c: seq<Proc>, ghost vals: seq<int>, pp2: Proc, v: word, ghost k: nat)
    requires RunRing(c, vals) && 0 < k < |c| == |vals| && pp2 == c[k] && v == vals[k]
    modifies c`lforw, c`lback, c`cval
    ensures pp2.cval == vals[k] && RunRing(Without(c, k), Without(vals, k))
  {
    hide Encodes, Sorted, Without;
    ghost var cv := Fields(c);
    assert c[k].lforw == At(c, k + 1);
    var pp1 := pp2.lforw;
    pp1.cval := Add16(pp1.cval, pp2.cval);
    pp2.cval := v;
    EncodesUnlinked(c, cv, vals, k);
    SortedWithout(vals, k);
    Unlink(c, pp2, k);
  }

  /** The loop of dispatch: the first process that is in core, decoded and removed. */
  method Dequeue(ghost c: seq<Proc>, ghost vals: seq<int>, h: Proc) returns (pp1: Proc?, ghost k: nat)
    requires RunRing(c, vals) && h == c[0]
    modifies c`lforw, c`lback, c`cval
    ensures 0 < k <= |c| == |vals| && (forall i :: 0 < i < k ==> !c[i].core)
    ensures k == |c| ==> pp1 == null && RunRing(c, vals)
    ensures k < |c| ==> pp1 == c[k] && pp1.core && pp1.cval == vals[k] && RunRing(Without(c, k), Without(vals, k))
  {
    var pp2 := h;
    var v: word := 0;
    k := 0;
    while true
      invariant k < |c| && pp2 == c[k] && v == vals[k]
      invariant forall i :: 0 < i <= k ==> !c[i].core
      invariant RunRing(c, vals)
      decreases |c| - k
    {
      assert c[k].lforw == At(c, k + 1);
      pp2 := pp2.lforw;
      k := k + 1;
      if pp2 == h {
        return null, k;
      }
      assert Fields(c)[k] == Sub16(vals[k - 1], vals[k]);
      v := Sub16(v, pp2.cval);
      if pp2.core {
        Extract(c, vals, pp2, v, k);
        return pp2, k;
      }
    }
  }

  /** Two fields change and every value goes up by CVCLOCK; none wraps. */
  lemma {:induction false} EncodesRaised(cv: seq<int>, vals: seq<int>, cv': seq<int>, vals': seq<int>)
    requires Encodes(cv, vals) && Sorted(vals) && 1 < |cv| == |cv'| == |vals'|
    requires vals[1] + CVCLOCK <= MAXU && cv[1] > CVCLOCK
    requires cv'[0] == Add16(cv[0], CVCLOCK) && cv'[1] == Sub16(cv[1], CVCLOCK)
    requires forall i :: 1 < i < |cv| ==> cv'[i] == cv[i]
    requires vals'[0] == 0 && forall i :: 0 < i < |vals| ==> vals'[i] == vals[i] + CVCLOCK
    ensures Encodes(cv', vals') && Sorted(vals')
  {
    forall i | 0 < i < |cv'| ensures cv'[i] == Sub16(vals'[i - 1], vals'[i]) {
      assert cv[i] == Sub16(vals[i - 1], vals[i]);
    }
  }

  /** The two stores by which clock ages every queued process.  They happen exactly
      when some process is queued and the first value is neither 0 nor about to wrap. */
  method Age(ghost c: seq<Proc>, ghost vals: seq<int>, h: Proc) returns (ghost vals': seq<int>)
    requires RunRing(c, vals) && h == c[0]
    modifies c`cval
    ensures |vals'| == |vals| && RunRing(c, vals')
    ensures forall i :: 0 < i < |vals| ==>
      vals'[i] == vals[i] + if 0 < vals[1] < MAXU then CVCLOCK else 0
  {
    ghost var cv := Fields(c);
    assert c[0].lforw == At(c, 1);
    vals' := vals;
    if h.lforw.cval > CVCLOCK {
      h.lforw.cval := Sub16(h.lforw.cval, CVCLOCK);
      h.cval := Add16(h.cval, CVCLOCK);
      vals' := seq(|vals|, i requires 0 <= i < |vals| =>
        assert i > 0 ==> vals[1] >= vals[i]; if i == 0 then 0 else vals[i] + CVCLOCK);
      EncodesRaised(cv, vals, Fields(c), vals');
    }
  }

  // ----- the run queue -------------------------------------------------------------

  class RunQueue {
    const procq: Proc          // the head
    const iprocp: Proc         // the idle process
    var self: Proc             // the running process
    var utimer: word
    ghost var c: seq<Proc>     // the ring from its head round
    ghost var vals: seq<int>  // the values it encodes

    ghost predicate Valid()
      reads this, c
    {
      RunRing(c, vals) && c[0] == procq && forall i :: 0 < i < |c| ==> c[i].state == Running
    }

    /** pcsinit: the queue is empty. */
    constructor (idle: Proc)
      ensures Valid() && fresh(procq) && c == [procq] && iprocp == idle
    {
      iprocp := idle;
      var q := new Proc();
      procq, self, utimer := q, q, 0;
      c, vals := [q], [0];
    }

    /** setrun: behind every process of at least its value, ahead of every other. */
    method SetRun(pp1: Proc)
      requires Valid() && pp1 !in c
      modifies this`c, this`vals, c`lforw, c`lback, c`cval, pp1`lforw, pp1`lback, pp1`cval, pp1`state
      ensures Valid()
      ensures var k := Pos(old(vals), old(pp1.cval)) + 1;
        c == With(old(c), k, pp1) && vals == With(old(vals), k, old(pp1.cval))
    {
      hide RunRing;
      ghost var k := Enqueue(c, vals, procq, pp1);
      vals := With(vals, k + 1, old(pp1.cval));
      c := With(c, k + 1, pp1);
    }

    /** dispatch: the first process in core leaves the queue with its exact value and
        gets the processor; with none in core the idle process does. */
    method Dispatch() returns (ghost k: nat)
      requires Valid()
      modifies this`c, this`vals, this`self, c`lforw, c`lback, c`cval
      ensures Valid()
      ensures 0 < k <= |old(c)| && forall i :: 0 < i < k ==> !old(c)[i].core
      ensures k == |old(c)| ==> self == iprocp && c == old(c) && vals == old(vals)
      ensures k < |old(c)| ==>
        && self == old(c)[k] && self.core && self.cval == old(vals)[k]
        && c == Without(old(c), k) && vals == Without(old(vals), k)
    {
      hide RunRing;
      var pp1;
      pp1, k := Dequeue(c, vals, procq);
      self := if pp1 == null then iprocp else pp1;
      if pp1 != null {
        c, vals := Without(c, k), Without(vals, k);
      }
    }

    /** The scheduling part of clock: the queue is aged exactly when its first value is
        neither 0 nor MAXU; then every value goes up by CVCLOCK, none wraps and none
        changes place.  The running process is taxed. */
    method Clock()
      requires Valid() && self !in c
      modifies this`utimer, this`vals, c`cval, self`cval
      ensures Valid() && utimer == Add16(old(utimer), 1) && |vals| == |old(vals)|
      ensures forall i :: 0 < i < |vals| ==>
        vals[i] == old(vals)[i] + if 0 < old(vals)[1] < MAXU then CVCLOCK else 0
      ensures self.cval == old(self.cval) / 2
    {
      hide RunRing;
      utimer := Add16(utimer, 1);
      vals := Age(c, vals, procq);
      self.cval := self.cval / 2;
    }
  }

  // ----- sleep queues --------------------------------------------------------------

  /** The sleepers on channel e, in order, and the other members. */
  ghost function On(c: seq<Proc>, e: int): seq<Proc>
    reads c`event
  {
    if c == [] then [] else (if c[0].event == e then [c[0]] else []) + On(c[1..], e)
  }

  ghost function NotOn(c: seq<Proc>, e: int): seq<Proc>
    reads c`event
  {
    if c == [] then [] else (if c[0].event == e then [] else [c[0]]) + NotOn(c[1..], e)
  }

  lemma {:induction false} FirstOn(c: seq<Proc>, e: int, k: nat)
    requires k < |c| && c[k].event == e && forall i :: 0 <= i < k ==> c[i].event != e
    ensures On(c, e) == [c[k]] + On(Without(c, k), e) && NotOn(c, e) == NotOn(Without(c, k), e)
  {
    if k == 0 {
      assert Without(c, 0) == c[1..];
    } else {
      FirstOn(c[1..], e, k - 1);
      assert Without(c, k)[1..] == Without(c[1..], k - 1);
    }
  }

  lemma {:induction false} NoneOn(c: seq<Proc>, e: int)
    requires forall p :: p in c ==> p.event != e
    ensures On(c, e) == [] && NotOn(c, e) == c
  {
    if c != [] { NoneOn(c[1..], e); }
  }

  /** A queue after processes ps of values xs have been queued in turn. */
  ghost function Queued(c: seq<Proc>, vals: seq<int>, ps: seq<Proc>, xs: seq<int>): (r: (seq<Proc>, seq<int>))
    requires 0 < |c| == |vals| && |ps| == |xs|
    ensures |r.0| == |r.1| == |c| + |ps|
  {
    if ps == [] then (c, vals)
    else
      var n := |ps| - 1;
      var (d, w) := Queued(c, vals, ps[..n], xs[..n]);
      var k := Pos(w, xs[n]) + 1;
      (With(d, k, ps[n]), With(w, k, xs[n]))
  }

  /** The value a sleeper wakes with: its own, credited for the ticks it slept. */
  ghost function Rested(p: Proc, utimer: word): word
    reads p`cval, p`lctim
  {
    AddU(p.cval, Sub16(utimer, p.lctim) * CVCLOCK % (MAXU + 1))
  }

  /** Who went to sleep at time `start` and slept for t ticks wakes with t more, but never more
      than a word holds; the ticks are counted modulo 2^16. */
  lemma {:induction false} RestedIs(p: Proc, utimer: word, start: int, t: nat)
    requires p.lctim == start % (MAXU + 1) && utimer == (start + t) % (MAXU + 1)
    ensures var credit := t % (MAXU + 1) * CVCLOCK;
      Rested(p, utimer) == if p.cval + credit > MAXU then MAXU else p.cval + credit
  {
    assert (utimer - p.lctim) % (MAXU + 1) == t % (MAXU + 1) by { Elapsed(start, t); }
  }

  lemma {:induction false} Elapsed(a: int, t: nat)
    ensures ((a + t) % (MAXU + 1) - a % (MAXU + 1)) % (MAXU + 1) == t % (MAXU + 1)
  {
  }

  /** The scan of wakeup: the first member sleeping on e. */
  method FirstSleeper(ghost c: seq<Proc>, h: Proc, e: int) returns (pp: Proc?, ghost k: nat)
    requires Ring(c) && h == c[0] && h.event != e
    ensures pp == null ==> forall p :: p in c ==> p.event != e
    ensures pp != null ==> 0 < k < |c| && pp == c[k] && pp.event == e && forall i :: 0 <= i < k ==> c[i].event != e
  {
    pp := h;
    k := 0;
    while true
      invariant k < |c| && pp == c[k] && forall i :: 0 <= i <= k ==> c[i].event != e
      decreases |c| - k
    {
      assert c[k].lforw == At(c, k + 1);
      pp := pp.lforw;
      k := k + 1;
      if pp == h {
        return null, k;
      }
      if pp.event == e {
        return;
      }
    }
  }

  ghost predicate Disjoint(s: seq<Proc>, t: seq<Proc>) {
    forall i, j :: 0 <= i < |s| && 0 <= j < |t| ==> s[i] != t[j]
  }

  lemma {:induction false} MovedDisjoint(s: seq<Proc>, k: nat, t: seq<Proc>, i: nat)
    requires k < |s| && i <= |t| && Disjoint(s, t)
    requires forall i, j :: 0 <= i < j < |s| ==> s[i] != s[j]
    ensures Disjoint(Without(s, k), t) && Disjoint(Without(s, k), With(t, i, s[k]))
    ensures s[k] !in Without(s, k) && s[k] !in t
  {
  }

  /** A sleeper leaves its sleep queue with its rested value; the run queue is untouched. */
  method Leave(rq: RunQueue, ghost c: seq<Proc>, pp: Proc, ghost k: nat)
    requires rq.Valid() && Ring(c) && 0 < k < |c| && pp == c[k] && Disjoint(c, rq.c)
    modifies c`lforw, c`lback, pp`cval
    ensures Ring(Without(c, k)) && Disjoint(Without(c, k), rq.c) && pp !in Without(c, k)
    ensures 0 < |rq.c| == |rq.vals| && rq.Valid() && pp !in rq.c
    ensures pp.cval == old(Rested(pp, rq.utimer))
  {
    MovedDisjoint(c, k, rq.c, 0);
    Unlink(c, pp, k);
    pp.cval := AddU(pp.cval, Sub16(rq.utimer, pp.lctim) * CVCLOCK % (MAXU + 1));
  }

  lemma {:induction false} Sizes(rq: RunQueue, c: seq<Proc>)
    requires rq.Valid() && Ring(c)
    ensures 0 < |c| && 0 < |rq.c| == |rq.vals|
    ensures Queued(rq.c, rq.vals, [], []) == (rq.c, rq.vals)
  {
  }

  lemma {:induction false} QueuedOneMore(c: seq<Proc>, vals: seq<int>, ps: seq<Proc>, xs: seq<int>, p: Proc, x: int)
    requires 0 < |c| == |vals| && |ps| == |xs|
    ensures
      var (d, w) := Queued(c, vals, ps, xs);
      var k := Pos(w, x) + 1;
      Queued(c, vals, ps + [p], xs + [x]) == (With(d, k, p), With(w, k, x))
  {
    hide With, Pos;
    assert (ps + [p])[..|ps|] == ps && (xs + [x])[..|xs|] == xs;
  }

  /** One round of wakeup: member k leaves its sleep queue and is queued to run. */
  method WakeOne(rq: RunQueue, ghost c: seq<Proc>, pp: Proc, ghost k: nat)
    returns (ghost c': seq<Proc>, ghost x: int)
    requires rq.Valid() && Ring(c) && 0 < k < |c| && pp == c[k] && Disjoint(c, rq.c)
    modifies rq`c, rq`vals, rq.c`lforw, rq.c`lback, rq.c`cval
    modifies c`lforw, c`lback, pp`cval, pp`state
    ensures rq.Valid() && c' == Without(c, k) && Ring(c') && x == old(Rested(pp, rq.utimer))
    ensures 0 < |c'| == |c| - 1 && c'[0] == c[0]
    ensures forall i :: 0 <= i < |c'| ==> c'[i] in c && c'[i].cval == old(c'[i].cval)
    ensures 0 < |rq.c| == |rq.vals| && Disjoint(c', rq.c)
    ensures forall i :: 0 <= i < |rq.c| ==> rq.c[i] in old(rq.c) || rq.c[i] == pp
    ensures 0 < |old(rq.c)| == |old(rq.vals)|
    ensures var i := Pos(old(rq.vals), x) + 1;
      rq.c == With(old(rq.c), i, pp) && rq.vals == With(old(rq.vals), i, x)
  {
    hide RunRing, RunQueue.Valid, Ring, Pos, Rested;
    Leave(rq, c, pp, k);
    x := pp.cval;
    c' := Without(c, k);
    rq.SetRun(pp);
  }

  /** wakeup: exactly the sleepers on e leave their sleep queue c, the others keep their
      order, and the woken enter the run queue one after another with their rested values. */
  method Wakeup(rq: RunQueue, ghost c: seq<Proc>, h: Proc, e: int)
    returns (ghost c': seq<Proc>, ghost woken: seq<Proc>, ghost xs: seq<int>)
    requires rq.Valid() && Ring(c) && h == c[0] && h.event != e && Disjoint(c, rq.c)
    modifies rq`c, rq`vals, rq.c`lforw, rq.c`lback, rq.c`cval
    modifies c`lforw, c`lback, c`cval, c`state
    ensures rq.Valid() && Ring(c') && c' == old(NotOn(c, e)) && woken == old(On(c, e))
    ensures |xs| == |woken|
    ensures forall i :: 0 <= i < |xs| ==> woken[i] in c && xs[i] == old(Rested(woken[i], rq.utimer))
    ensures 0 < |old(rq.c)| == |old(rq.vals)| && (rq.c, rq.vals) == Queued(old(rq.c), old(rq.vals), woken, xs)
  {
    hide RunQueue.Valid, RunRing, Ring, Rested, On, NotOn, Pos, With, Without, Queued, Disjoint;
    c', woken, xs := c, [], [];
    Sizes(rq, c);
    while true
      invariant Ring(c') && 0 < |c'| && h == c'[0] && rq.Valid() && Disjoint(c', rq.c)
      invariant forall i :: 0 <= i < |c'| ==> c'[i] in c && c'[i].cval == old(c'[i].cval)
      invariant forall i :: 0 <= i < |rq.c| ==> rq.c[i] in old(rq.c) || rq.c[i] in c
      invariant old(On(c, e)) == woken + On(c', e) && old(NotOn(c, e)) == NotOn(c', e)
      invariant |xs| == |woken|
      invariant forall i :: 0 <= i < |xs| ==> woken[i] in c && xs[i] == old(Rested(woken[i], rq.utimer))
      invariant 0 < |rq.c| == |rq.vals| && (rq.c, rq.vals) == Queued(old(rq.c), old(rq.vals), woken, xs)
      decreases |c'|
    {
      var pp, k := FirstSleeper(c', h, e);
      if pp == null {
        NoneOn(c', e);
        return;
      }
      FirstOn(c', e, k);
      assert Rested(pp, rq.utimer) == old(Rested(pp, rq.utimer));
      ghost var x;
      c', x := WakeOne(rq, c', pp, k);
      QueuedOneMore(old(rq.c), old(rq.vals), woken, xs, pp, x);
      woken, xs := woken + [pp], xs + [x];
    }
  }
}
