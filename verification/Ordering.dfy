/** Lexicographic order on strings, a strict total order. */
module Ordering {

  predicate StrLess(a: string, b: string) {
    if b == [] then false
    else if a == [] then true
    else if a[0] != b[0] then a[0] < b[0]
    else StrLess(a[1..], b[1..])
  }

  lemma {:induction false} StrLessTotal(a: string, b: string)
    ensures a == b || StrLess(a, b) || StrLess(b, a)
  {
    if a != [] && b != [] && a[0] == b[0] {
      StrLessTotal(a[1..], b[1..]);
      assert a == [a[0]] + a[1..] && b == [b[0]] + b[1..];
    }
  }

  lemma {:induction false} StrLessAsymmetric(a: string, b: string)
    requires StrLess(a, b)
    ensures !StrLess(b, a) && a != b
  {
    if a != [] && a[0] == b[0] {
      StrLessAsymmetric(a[1..], b[1..]);
    }
  }

  lemma {:induction false} StrLessTransitive(a: string, b: string, c: string)
    requires StrLess(a, b) && StrLess(b, c)
    ensures StrLess(a, c)
  {
    if a != [] && a[0] == b[0] == c[0] {
      StrLessTransitive(a[1..], b[1..], c[1..]);
    }
  }

  /** A text comes before another exactly when it is a proper prefix of it, or has the smaller
      character where they first differ. */
  lemma {:induction false} StrLessIff(a: string, b: string)
    ensures StrLess(a, b) <==> exists i :: FirstDifference(a, b, i) && (i == |a| || a[i] < b[i])
  {
    if b == [] {
    } else if a == [] || a[0] != b[0] {
      assert FirstDifference(a, b, 0);
    } else {
      StrLessIff(a[1..], b[1..]);
      if i :| FirstDifference(a[1..], b[1..], i) && (i == |a[1..]| || a[1..][i] < b[1..][i]) {
        assert FirstDifference(a, b, i + 1);
      }
      if i :| FirstDifference(a, b, i) && (i == |a| || a[i] < b[i]) {
        assert i > 0 && FirstDifference(a[1..], b[1..], i - 1);
      }
    }
  }

  /** a and b agree up to i, b goes on there, and a does not go on alike. */
  predicate FirstDifference(a: string, b: string, i: int) {
    && 0 <= i <= |a| && i < |b|
    && (forall k :: 0 <= k < i ==> a[k] == b[k])
    && (i == |a| || a[i] != b[i])
  }
}
