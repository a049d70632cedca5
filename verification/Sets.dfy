/** Sizes of finite sets. */
module Sets {
  lemma {:induction false} SubsetIsNotLarger<T>(s: set<T>, t: set<T>)
    requires s <= t
    ensures |s| <= |t|
  {
    if s != {} {
      var x :| x in s;
      SubsetIsNotLarger(s - {x}, t - {x});
    }
  }

  lemma {:induction false} ProperSubsetIsSmaller<T>(s: set<T>, t: set<T>)
    requires s < t
    ensures |s| < |t|
  {
    var x :| x in t && x !in s;
    assert s <= t - {x};
    SubsetIsNotLarger(s, t - {x});
  }
}
