/** The few facts about the sizes of finite sets that the models share. */
module Cardinality {
  lemma SubsetSize<T>(a: set<T>, b: set<T>)
    requires a <= b
    ensures |a| <= |b|
  {
    assert b == a + (b - a);
  }

  lemma UnionOfTwo<T>(a: set<T>, b: set<T>)
    ensures |a + b| <= |a| + |b|
    ensures |a + b| == |a| + |b| <==> a !! b
  {
    assert a + b == a + (b - a);
    assert b == (b - a) + (a * b);
    assert |b| == |b - a| + |a * b|;
    if a !! b { assert a * b == {}; } else { var x :| x in a && x in b; assert x in a * b; }
  }
}
