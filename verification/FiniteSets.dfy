/** Sizes of finite sets. */
module FiniteSets {

  lemma SubsetSize<T>(a: set<T>, b: set<T>)
    requires a <= b
    ensures |a| <= |b|
  {
    assert b == a + (b - a);
  }

  function Elements<T>(s: seq<T>): set<T> { set x | x in s }

  /** A list has no more elements than places, and as many exactly when no element stands in two. */
  lemma {:induction false} ElementsSize<T>(s: seq<T>)
    ensures |Elements(s)| <= |s|
    ensures |Elements(s)| == |s| <==> forall i, j | 0 <= i < j < |s| :: s[i] != s[j]
  {
    if s != [] {
      var n := |s| - 1;
      var last, rest := s[n], s[..n];
      ElementsSize(rest);
      assert s == rest + [last];
      assert Elements(s) == Elements(rest) + {last};
      if last in rest { var i :| 0 <= i < n && rest[i] == last; }
    }
  }
}
