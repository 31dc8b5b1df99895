/** Sequences without repetition, and removal from a sequence. */
module Sequences {

  predicate Distinct<T(==)>(s: seq<T>) {
    forall i, j | 0 <= i < j < |s| :: s[i] != s[j]
  }

  function Without<T>(s: seq<T>, i: nat): seq<T>
    requires i < |s|
  {
    s[..i] + s[i + 1..]
  }

  /** `s` holds exactly the elements of `all`, each once. */
  ghost predicate Enumerates<T(!new)>(s: seq<T>, all: set<T>) {
    (forall x :: x in s <==> x in all) && forall i, j | 0 <= i < j < |s| :: s[i] != s[j]
  }

  lemma {:induction false} EnumeratedLength<T(!new)>(s: seq<T>, all: set<T>)
    requires Enumerates(s, all)
    ensures |s| == |all|
  {
    if s == [] {
      assert all == {};
    } else {
      var last := s[|s| - 1];
      assert forall x :: x in s <==> x in s[..|s| - 1] || x == last;
      EnumeratedLength(s[..|s| - 1], all - {last});
    }
  }

  lemma EnumeratesMore<T(!new)>(s: seq<T>, all: set<T>, x: T)
    requires Enumerates(s, all) && x !in all
    ensures Enumerates(s + [x], all + {x})
  {}

  /** Two adjoining slices. */
  lemma Adjoin<T>(s: seq<T>, lo: nat, mid: nat, hi: nat)
    requires lo <= mid <= hi <= |s|
    ensures s[lo..mid] + s[mid..hi] == s[lo..hi]
  {}

  /** Taking `n` elements of what is left after the first `k`, behind `a`. */
  lemma TakeMore<T>(a: seq<T>, s: seq<T>, k: nat, n: nat)
    requires k + n <= |s|
    ensures s[k..][..n] == s[k..k + n] && a + s[..k] + s[k..][..n] == a + s[..k + n]
  {
    Adjoin(s, 0, k, k + n);
    assert a + s[..k] + s[k..k + n] == a + (s[..k] + s[k..k + n]);
  }
}
