/** What several modules need of finite sets and of sequences without repetition. */
module Sets {
  ghost predicate Distinct<T>(s: seq<T>) {
    forall i, j :: 0 <= i < j < |s| ==> s[i] != s[j]
  }

  lemma {:induction false} SubsetSize<T>(s: set<T>, t: set<T>)
    requires s <= t
    ensures |s| <= |t| && (|s| == |t| ==> s == t)
  {
    if x :| x in s {
      SubsetSize(s - {x}, t - {x});
    } else {
      assert s == {};
    }
  }
}
