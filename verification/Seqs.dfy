/** Surgery on the ghost sequences that list the members of linked structures. */
module Seqs {
  ghost function Without<T>(s: seq<T>, k: nat): (r: seq<T>)
    requires k < |s|
    ensures |r| == |s| - 1 && forall i {:trigger r[i]} :: 0 <= i < |r| ==> r[i] == if i < k then s[i] else s[i + 1]
  {
    seq(|s| - 1, i requires 0 <= i < |s| - 1 => if i < k then s[i] else s[i + 1])
  }

  ghost function With<T>(s: seq<T>, k: nat, x: T): (r: seq<T>)
    requires k <= |s|
    ensures |r| == |s| + 1
    ensures forall i {:trigger r[i]} :: 0 <= i < |r| ==> r[i] == if i < k then s[i] else if i == k then x else s[i - 1]
  {
    seq(|s| + 1, i requires 0 <= i <= |s| => if i < k then s[i] else if i == k then x else s[i - 1])
  }

  /** The two surgeries in the usual notation. */
  lemma {:induction false} Surgery<T>(s: seq<T>, k: nat, x: T)
    requires k <= |s|
    ensures With(s, k, x) == s[..k] + [x] + s[k..] && Without(With(s, k, x), k) == s
  {
    assert With(s, k, x) == s[..k] + [x] + s[k..];
  }
}
