/**
 Stable sorting and binary search, as the profile code uses them from Go's sort package.
 */
module Sorting {
  import opened FiniteSets

  /** A comparison a sort can use: ties are an equivalence. */
  ghost predicate StrictWeak<T(!new)>(less: (T, T) -> bool) {
    && (forall a, b :: less(a, b) ==> !less(b, a))
    && (forall a, b, c :: !less(a, b) && !less(b, c) ==> !less(a, c))
  }

  ghost predicate Sorted<T(!new)>(less: (T, T) -> bool, s: seq<T>) {
    forall i, j :: 0 <= i < j < |s| ==> !less(s[j], s[i])
  }

  /** Places x behind everything it does not precede. */
  function Insert<T>(less: (T, T) -> bool, s: seq<T>, x: T): (r: seq<T>)
    ensures |r| == |s| + 1
    ensures multiset(r) == multiset(s) + multiset{x}
  {
    if |s| == 0 then [x]
    else
      var front, last := s[..|s| - 1], s[|s| - 1];
      assert s == front + [last];
      if less(x, last) then Insert(less, front, x) + [last] else s + [x]
  }

  function Sort<T>(less: (T, T) -> bool, s: seq<T>): (r: seq<T>)
    ensures |r| == |s|
    ensures multiset(r) == multiset(s)
  {
    if |s| == 0 then []
    else
      assert s == s[..|s| - 1] + [s[|s| - 1]];
      Insert(less, Sort(less, s[..|s| - 1]), s[|s| - 1])
  }

  lemma SortMembers<T>(less: (T, T) -> bool, s: seq<T>)
    ensures forall x :: x in Sort(less, s) <==> x in s
  {
    assert forall x :: x in Sort(less, s) <==> x in multiset(Sort(less, s));
  }

  lemma InsertMembers<T>(less: (T, T) -> bool, s: seq<T>, x: T)
    ensures forall y :: y in Insert(less, s, x) <==> y in s || y == x
  {
    assert forall y :: y in Insert(less, s, x) <==> y in multiset(Insert(less, s, x));
  }

  lemma {:induction false} InsertSorted<T(!new)>(less: (T, T) -> bool, s: seq<T>, x: T)
    requires StrictWeak(less) && Sorted(less, s)
    ensures Sorted(less, Insert(less, s, x))
    decreases |s|
  {
    if |s| > 0 {
      var front, last := s[..|s| - 1], s[|s| - 1];
      if less(x, last) {
        InsertSorted(less, front, x);
        InsertMembers(less, front, x);
        var r := Insert(less, front, x);
        forall i | 0 <= i < |r| ensures !less(last, r[i]) {
          assert r[i] in r;
        }
      }
    }
  }

  lemma {:induction false} SortSorted<T(!new)>(less: (T, T) -> bool, s: seq<T>)
    requires StrictWeak(less)
    ensures Sorted(less, Sort(less, s))
    decreases |s|
  {
    if |s| > 0 {
      SortSorted(less, s[..|s| - 1]);
      InsertSorted(less, Sort(less, s[..|s| - 1]), s[|s| - 1]);
    }
  }

  lemma {:induction false} InsertDistinct<T(!new)>(less: (T, T) -> bool, s: seq<T>, x: T)
    requires Distinct(s) && x !in s
    ensures Distinct(Insert(less, s, x))
    decreases |s|
  {
    if |s| > 0 {
      var front, last := s[..|s| - 1], s[|s| - 1];
      if less(x, last) {
        InsertDistinct(less, front, x);
        InsertMembers(less, front, x);
        var r := Insert(less, front, x);
        forall i | 0 <= i < |r| ensures r[i] != last {
          assert r[i] in r;
        }
      }
    }
  }

  lemma {:induction false} SortDistinct<T(!new)>(less: (T, T) -> bool, s: seq<T>)
    requires Distinct(s)
    ensures Distinct(Sort(less, s))
    decreases |s|
  {
    if |s| > 0 {
      var front := s[..|s| - 1];
      SortDistinct(less, front);
      SortMembers(less, front);
      InsertDistinct(less, Sort(less, front), s[|s| - 1]);
    }
  }

  /* ---------- Stability ---------- */

  predicate Tied<T>(less: (T, T) -> bool, a: T, b: T) {
    !less(a, b) && !less(b, a)
  }

  /** The elements tied with z, in order. */
  function TiedWith<T>(less: (T, T) -> bool, s: seq<T>, z: T): seq<T> {
    if |s| == 0 then []
    else
      var rest := TiedWith(less, s[..|s| - 1], z);
      if Tied(less, s[|s| - 1], z) then rest + [s[|s| - 1]] else rest
  }

  lemma {:induction false} InsertKeepsTies<T(!new)>(less: (T, T) -> bool, s: seq<T>, x: T, z: T)
    requires StrictWeak(less)
    ensures TiedWith(less, Insert(less, s, x), z) == TiedWith(less, s, z) + if Tied(less, x, z) then [x] else []
    decreases |s|
  {
    if |s| > 0 {
      var front, last := s[..|s| - 1], s[|s| - 1];
      if less(x, last) {
        InsertKeepsTies(less, front, x, z);
        assert (Insert(less, front, x) + [last])[..|s|] == Insert(less, front, x);
      } else {
        assert (s + [x])[..|s|] == s;
      }
    }
  }

  /** Sorting keeps elements that compare equal in their original order. */
  lemma {:induction false} SortStable<T(!new)>(less: (T, T) -> bool, s: seq<T>, z: T)
    requires StrictWeak(less)
    ensures TiedWith(less, Sort(less, s), z) == TiedWith(less, s, z)
    decreases |s|
  {
    if |s| > 0 {
      SortStable(less, s[..|s| - 1], z);
      InsertKeepsTies(less, Sort(less, s[..|s| - 1]), s[|s| - 1], z);
    }
  }

  /* ---------- Binary search ---------- */

  ghost predicate Ascending(keys: seq<int>) {
    forall i, j :: 0 <= i < j < |keys| ==> keys[i] <= keys[j]
  }

  /** The number of keys at or below x: binary search for the first key above it. */
  method FirstAbove(keys: seq<int>, x: int) returns (i: int)
    requires Ascending(keys)
    ensures 0 <= i <= |keys|
    ensures forall j :: 0 <= j < i ==> keys[j] <= x
    ensures forall j :: i <= j < |keys| ==> keys[j] > x
  {
    var lo, hi := 0, |keys|;
    while lo < hi
      invariant 0 <= lo <= hi <= |keys|
      invariant forall j :: 0 <= j < lo ==> keys[j] <= x
      invariant forall j :: hi <= j < |keys| ==> keys[j] > x
    {
      var mid := (lo + hi) / 2;
      if keys[mid] > x { hi := mid; } else { lo := mid + 1; }
    }
    i := lo;
  }
}
