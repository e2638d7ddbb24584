/** Sequences without repetition. */
module Sequences {

  predicate Distinct<T(==)>(s: seq<T>) {
    forall i, j :: 0 <= i < j < |s| ==> s[i] != s[j]
  }

  lemma DistinctCons<T>(s: seq<T>, rest: seq<T>)
    requires s != [] && forall x :: x in rest ==> x in s[1..]
    ensures Distinct(s) ==> (Distinct(s[1..]) && (Distinct(rest) ==> Distinct([s[0]] + rest)))
  {
    if Distinct(s) {
      forall i | 0 <= i < |rest|
        ensures rest[i] != s[0]
      {
        assert rest[i] in s[1..];
      }
    }
  }
}
