/** The order the library map is keyed by: C's strcmp on NUL-free strings. */
module Strcmp {

  /** The sign of strcmp(a, b); the end of a string sorts below every character. */
  function Cmp(a: string, b: string): (r: int)
    ensures -1 <= r <= 1
  {
    if a == [] then (if b == [] then 0 else -1)
    else if b == [] then 1
    else if a[0] < b[0] then -1
    else if a[0] > b[0] then 1
    else Cmp(a[1..], b[1..])
  }

  predicate Lt(a: string, b: string) {
    Cmp(a, b) < 0
  }

  /** strcmp answers 0 for equal strings only. */
  lemma {:induction false} CmpZero(a: string, b: string)
    ensures Cmp(a, b) == 0 <==> a == b
  {
    if a != [] && b != [] && a[0] == b[0] {
      CmpZero(a[1..], b[1..]);
      assert a == [a[0]] + a[1..] && b == [b[0]] + b[1..];
    }
  }

  /** The strings agree up to k, where a ends or has the smaller character. */
  predicate LessAt(a: string, b: string, k: int) {
    && 0 <= k <= |a| && k < |b| && (forall i :: 0 <= i < k ==> a[i] == b[i])
    && (k == |a| || a[k] < b[k])
  }

  /** The first difference decides. */
  lemma {:induction false} FirstDifference(a: string, b: string)
    ensures Lt(a, b) <==> exists k :: LessAt(a, b, k)
  {
    if a == [] || b == [] || a[0] != b[0] {
      if Lt(a, b) { assert LessAt(a, b, 0); }
    } else {
      FirstDifference(a[1..], b[1..]);
      forall k ensures LessAt(a[1..], b[1..], k) <==> k >= 0 && LessAt(a, b, k + 1) { LessShifted(a, b, k); }
      if k :| LessAt(a, b, k) { assert LessAt(a[1..], b[1..], k - 1); }
    }
  }

  lemma LessShifted(a: string, b: string, k: int)
    requires a != [] && b != [] && a[0] == b[0]
    ensures LessAt(a[1..], b[1..], k) <==> k >= 0 && LessAt(a, b, k + 1)
  {
    if k >= 0 && LessAt(a, b, k + 1) {
      assert forall i :: 0 <= i < k ==> a[1..][i] == a[i + 1] && b[1..][i] == b[i + 1];
    }
    if LessAt(a[1..], b[1..], k) {
      assert forall i :: 0 < i < k + 1 ==> a[i] == a[1..][i - 1] && b[i] == b[1..][i - 1];
    }
  }

  lemma {:induction false} CmpAnti(a: string, b: string)
    ensures Cmp(a, b) == -Cmp(b, a)
  {
    if a != [] && b != [] && a[0] == b[0] {
      CmpAnti(a[1..], b[1..]);
    }
  }

  lemma {:induction false} LtTrans(a: string, b: string, c: string)
    requires Lt(a, b) && Lt(b, c)
    ensures Lt(a, c)
  {
    if a != [] && b != [] && c != [] && a[0] == b[0] == c[0] {
      LtTrans(a[1..], b[1..], c[1..]);
    }
  }
}
