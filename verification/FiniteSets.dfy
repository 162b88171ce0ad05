/**
 Counting facts about finite sets and distinct sequences.
 */
module FiniteSets {

  ghost predicate Distinct<T>(s: seq<T>) {
    forall i, j :: 0 <= i < j < |s| ==> s[i] != s[j]
  }

  /** The first n naturals. */
  function Below(n: nat): (r: set<int>)
    ensures forall i :: i in r <==> 0 <= i < n
    ensures |r| == n
  {
    if n == 0 then {} else Below(n - 1) + {n - 1}
  }

  lemma {:induction false} DistinctSize<T>(s: seq<T>)
    requires Distinct(s)
    ensures |set x | x in s| == |s|
  {
    if s != [] {
      var init := s[..|s| - 1];
      DistinctSize(init);
      assert (set x | x in s) == (set x | x in init) + {s[|s| - 1]};
    }
  }

  /** Pigeonhole: distinct numbers below n are at most n. */
  lemma DistinctBelow(s: seq<int>, n: nat)
    requires Distinct(s) && forall x :: x in s ==> 0 <= x < n
    ensures |s| <= n
  {
    DistinctSize(s);
    var t := set x | x in s;
    assert t <= Below(n);
    SubsetSize(t, Below(n));
  }

  lemma {:induction false} SubsetSize<T>(s: set<T>, t: set<T>)
    requires s <= t
    ensures |s| <= |t|
  {
    if s != {} {
      var x :| x in s;
      SubsetSize(s - {x}, t - {x});
    }
  }

  lemma ProperSubsetSize<T>(s: set<T>, t: set<T>)
    requires s < t
    ensures |s| < |t|
  {
    assert t == s + (t - s);
    var x :| x in t - s;
    SubsetSize(s, t - {x});
  }
}
