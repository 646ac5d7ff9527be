/** Sets and sequences: the elements of a sequence, and how many there are. */
module Collections {

  function Elements<T>(s: seq<T>): set<T> {
    set x | x in s
  }

  predicate Distinct<T(==)>(s: seq<T>) {
    forall i, j :: 0 <= i < j < |s| ==> s[i] != s[j]
  }

  lemma {:induction false} ElementCount<T>(s: seq<T>)
    ensures |Elements(s)| <= |s|
    ensures Distinct(s) ==> |Elements(s)| == |s|
  {
    if s != [] {
      var rest, last := s[..|s| - 1], s[|s| - 1];
      ElementCount(rest);
      assert Elements(s) == Elements(rest) + {last};
      assert Distinct(s) ==> last !in rest;
    }
  }

  /** Things that are all different need room. */
  lemma {:induction false} Pigeonhole<T>(f: nat -> T, n: nat, s: set<T>)
    requires forall i: nat :: i < n ==> f(i) in s
    requires forall i: nat, j: nat :: i < j < n ==> f(i) != f(j)
    ensures |s| >= n
  {
    if n > 0 {
      Pigeonhole(f, n - 1, s - {f(n - 1)});
    }
  }

  /** A subset is no larger, and as large only if it is the whole set. */
  lemma SubsetSize<T>(a: set<T>, b: set<T>)
    requires a <= b
    ensures |a| <= |b| && (|a| == |b| ==> a == b)
  {
    assert b == a + (b - a);
  }
}
