/** Facts about sequences shared by the other modules. */
module Sequences {

  /** No two positions of `s` hold equal values. */
  ghost predicate Distinct<T>(s: seq<T>) {
    forall i, j :: 0 <= i < j < |s| ==> s[i] != s[j]
  }

  /** A value of a duplicate-free sequence occurs in it exactly once. */
  lemma {:induction false} DistinctOccursOnce<T>(s: seq<T>, x: T)
    requires Distinct(s)
    requires x in s
    ensures multiset(s)[x] == 1
  {
    assert s == [s[0]] + s[1..];
    if s[0] == x {
      assert x !in s[1..] by {
        forall i | 0 <= i < |s[1..]|
          ensures s[1..][i] != x
        {
          assert s[1..][i] == s[i + 1];
        }
      }
    } else {
      DistinctOccursOnce(s[1..], x);
    }
  }
}
