/** Sequence operations, described element by element. */
module Seqs {

  function Inserted<T>(es: seq<T>, k: nat, e: T): (r: seq<T>)
    requires k <= |es|
    ensures |r| == |es| + 1 && r[k] == e
    ensures forall i :: 0 <= i < k ==> r[i] == es[i]
    ensures forall i :: k < i < |r| ==> r[i] == es[i - 1]
  {
    es[..k] + [e] + es[k..]
  }

  function Without<T>(es: seq<T>, k: nat): (r: seq<T>)
    requires k < |es|
    ensures |r| == |es| - 1
    ensures forall i :: 0 <= i < k ==> r[i] == es[i]
    ensures forall i :: k <= i < |r| ==> r[i] == es[i + 1]
  {
    es[..k] + es[k + 1..]
  }

  function Joined<T>(es: seq<T>, fs: seq<T>): (r: seq<T>)
    ensures |r| == |es| + |fs|
    ensures forall i :: 0 <= i < |es| ==> r[i] == es[i]
    ensures forall i :: |es| <= i < |r| ==> r[i] == fs[i - |es|]
  {
    es + fs
  }

  function Reversed<T>(s: seq<T>): (r: seq<T>)
    ensures |r| == |s| && forall i :: 0 <= i < |r| ==> r[i] == s[|s| - 1 - i]
  {
    if s == [] then [] else Reversed(s[1..]) + [s[0]]
  }

  lemma NothingReversed<T>()
    ensures Reversed<T>([]) == []
  {}

  lemma ReversedStep<T>(s: seq<T>, k: nat)
    requires k < |s|
    ensures Reversed(s[k..]) == Reversed(s[k + 1..]) + [s[k]]
  {
    assert s[k..][1..] == s[k + 1..];
  }
}
