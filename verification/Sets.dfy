/** Facts about finite sets. */
module Sets {
  lemma HasMember(pool: set<int>)
    ensures pool == {} || exists x :: x in pool
  {
    if forall x :: x !in pool {
      assert pool == {};
    }
  }

  lemma SubsetSize<T>(a: set<T>, b: set<T>)
    requires a <= b
    ensures |a| <= |b| && (|a| == |b| ==> a == b)
  {
    assert b == a + (b - a) && |b| == |a| + |b - a|;
  }
}
