/** Cardinalities of the index sets the protocols count. */
module Counting {

  /** Two sets that differ in at most i. */
  lemma MovedOne(a: set<nat>, b: set<nat>, i: nat)
    requires a - {i} == b - {i}
    ensures |b| == |a| + (if i in b then 1 else 0) - (if i in a then 1 else 0)
  {
    assert a == if i in a then (a - {i}) + {i} else a - {i};
    assert b == if i in b then (b - {i}) + {i} else b - {i};
  }

  lemma SubsetIsSmaller(a: set<nat>, b: set<nat>)
    requires a <= b
    ensures |a| <= |b|
  {
    if a != {} {
      var x :| x in a;
      SubsetIsSmaller(a - {x}, b - {x});
    }
  }
}
