/** Sizes of nested sets and maps, and functions without collisions on a set. */
module Collections {

  lemma SubsetSize<T>(a: set<T>, b: set<T>)
    requires a <= b
    ensures |a| <= |b|
    ensures |a| == |b| ==> a == b
  {
    assert b * a == a;
    assert |b - a| == |b| - |b * a|;
    if |a| == |b| {
      assert b - a == {};
      assert forall x :: x in b ==> x in a || x in b - a;
    }
  }

  lemma SubmapSize<K, V>(m: map<K, V>, n: map<K, V>)
    requires n.Keys <= m.Keys
    ensures |n| <= |m|
  {
    SubsetSize(n.Keys, m.Keys);
    assert |n| == |n.Keys| && |m| == |m.Keys|;
  }

  /** No two of the given values have the same image. */
  ghost predicate CollisionFree<A(!new), B>(f: A -> B, xs: set<A>) {
    forall a, b :: a in xs && b in xs && f(a) == f(b) ==> a == b
  }
}
