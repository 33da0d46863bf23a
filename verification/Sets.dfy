/** Facts about finite sets that the verifier needs to be told. */
module Sets {

  lemma SomeMember(s: set<int>)
    requires s != {}
    ensures exists x :: x in s
  {
    var none: set<int> := {};
    assert (forall x: int :: x in s <==> x in none) ==> s == none;
  }

  lemma SubsetCount<T>(a: set<T>, b: set<T>)
    requires a <= b
    ensures |a| <= |b|
    ensures |a| == |b| ==> a == b
    ensures a != {} ==> |a| >= 1
  {
    var rest := b - a;
    assert b == a + rest && |b| == |a| + |rest|;
  }
}
