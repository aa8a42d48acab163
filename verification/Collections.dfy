/** Facts about sequences and sets that several modules need. */
module Collections {
  predicate Distinct<T(==)>(s: seq<T>) { forall i, j :: 0 <= i < j < |s| ==> s[i] != s[j] }

  /** A number above all those of a finite set. */
  lemma {:induction false} UpperBound(s: set<nat>) returns (n: nat)
    ensures forall x :: x in s ==> x < n
    decreases |s|
  {
    if s == {} {
      n := 0;
    } else {
      var x :| x in s;
      var m := UpperBound(s - {x});
      n := if m > x then m else x + 1;
      forall y | y in s ensures y < n { assert y != x ==> y in s - {x}; }
    }
  }
}
