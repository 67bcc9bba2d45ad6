/** Facts about finite sets and sequences that several models need. */
module Sets {

  lemma SubsetSize<T>(a: set<T>, b: set<T>)
    requires a <= b
    ensures |a| <= |b|
  {
    assert b == a + (b - a);
  }

  lemma OneFewer<T>(all: set<T>, rest: set<T>, x: T)
    requires x in all
    ensures all - (rest - {x}) == all - rest + {x}
  {
  }

  lemma NotThere<T>(all: set<T>, rest: set<T>, x: T)
    requires x !in all
    ensures all - (rest - {x}) == all - rest
  {
  }

  /** A sequence without repetitions has as many elements as entries. */
  lemma {:induction false} DistinctSize(s: seq<int>)
    requires forall i, j :: 0 <= i < j < |s| ==> s[i] != s[j]
    ensures |set x | x in s| == |s|
  {
    if s != [] {
      var n := |s| - 1;
      DistinctSize(s[..n]);
      assert (set x | x in s) == (set x | x in s[..n]) + {s[n]};
    }
  }
}
