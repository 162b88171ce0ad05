/**
 Binary indexed trees: entry i of the tree holds the sum of the LowBit(i) marks before i.
 */
module Fenwick {

  /** i & -i */
  function LowBit(i: int): (r: int)
    requires i > 0
    ensures 1 <= r <= i
    decreases i
  {
    if i % 2 == 1 then 1 else 2 * LowBit(i / 2)
  }

  function Sum(marks: seq<int>, lo: int, hi: int): int
    requires 0 <= lo <= hi <= |marks|
    decreases hi - lo
  {
    if lo == hi then 0 else Sum(marks, lo, hi - 1) + marks[hi - 1]
  }

  ghost predicate TreeOk(tree: seq<int>, marks: seq<int>) {
    && |tree| == |marks| + 1
    && forall i :: 1 <= i <= |marks| ==> tree[i] == Sum(marks, i - LowBit(i), i)
  }

  lemma {:induction false} SumSplit(marks: seq<int>, lo: int, mid: int, hi: int)
    requires 0 <= lo <= mid <= hi <= |marks|
    ensures Sum(marks, lo, hi) == Sum(marks, lo, mid) + Sum(marks, mid, hi)
    decreases hi - mid
  {
    if mid < hi { SumSplit(marks, lo, mid, hi - 1); }
  }

  lemma {:induction false} SumUpdate(marks: seq<int>, p: int, v: int, lo: int, hi: int)
    requires 0 <= lo <= hi <= |marks| && 0 <= p < |marks|
    ensures Sum(marks[p := v], lo, hi) == Sum(marks, lo, hi) + if lo <= p < hi then v - marks[p] else 0
    decreases hi - lo
  {
    if lo < hi { SumUpdate(marks, p, v, lo, hi - 1); }
  }

  /* ---------- The update chain ---------- */

  /** The next index of the chain covers everything this one covers. */
  lemma {:induction false} ChainGrows(i: int)
    requires i > 0
    ensures LowBit(i + LowBit(i)) >= 2 * LowBit(i)
    decreases i
  {
    if i % 2 == 0 {
      ChainGrows(i / 2);
      assert (i + LowBit(i)) / 2 == i / 2 + LowBit(i / 2);
    } else {
      assert (i + 1) % 2 == 0;
    }
  }

  /** Indices strictly between two chain elements cover nothing below the first. */
  lemma {:induction false} ChainGap(i: int, j: int)
    requires 0 < i < j < i + LowBit(i)
    ensures j - LowBit(j) >= i
    decreases i
  {
    if i % 2 == 0 {
      if j % 2 == 0 { ChainGap(i / 2, j / 2); }
    }
  }

  /* ---------- Powers of two ---------- */

  function Pow2(k: nat): (r: int)
    ensures r >= 1
  {
    if k == 0 then 1 else 2 * Pow2(k - 1)
  }

  /** q << (k + 1) */
  function Shifted(q: nat, k: nat): (r: nat)
    ensures q == 0 ==> r == 0
  {
    if k == 0 then 2 * q else 2 * Shifted(q, k - 1)
  }

  /** Adding a power of two to a multiple of its double leaves it as the lowest bit. */
  lemma {:induction false} AlignedLowBit(q: nat, k: nat)
    ensures LowBit(Shifted(q, k) + Pow2(k)) == Pow2(k)
    decreases k
  {
    if k > 0 {
      AlignedLowBit(q, k - 1);
      assert (Shifted(q, k) + Pow2(k)) / 2 == Shifted(q, k - 1) + Pow2(k - 1);
    }
  }

  lemma {:induction false} Reshift(q: nat, k: nat)
    requires k >= 1
    ensures Shifted(2 * q, k - 1) == Shifted(q, k)
    ensures Shifted(2 * q + 1, k - 1) == Shifted(q, k) + Pow2(k)
  {
    if k > 1 { Reshift(q, k - 1); }
  }

  /* ---------- The operations ---------- */

  /** Entries below `i` describe `after`, the others still describe `before`. */
  ghost predicate Updated(tree: seq<int>, before: seq<int>, after: seq<int>, i: int) {
    && |tree| == |before| + 1 == |after| + 1
    && forall j :: 1 <= j <= |before| ==> tree[j] == Sum(if j < i then after else before, j - LowBit(j), j)
  }

  lemma UpdateStarts(tree: seq<int>, marks: seq<int>, position: int, delta: int)
    requires TreeOk(tree, marks) && 0 <= position < |marks|
    ensures Updated(tree, marks, marks[position := marks[position] + delta], position + 1)
  {
    forall j | 1 <= j <= position
      ensures Sum(marks[position := marks[position] + delta], j - LowBit(j), j) == Sum(marks, j - LowBit(j), j)
    {
      SumUpdate(marks, position, marks[position] + delta, j - LowBit(j), j);
    }
  }

  /** Adding to one covering entry moves the update to the next one of the chain. */
  lemma UpdateContinues(tree: seq<int>, marks: seq<int>, position: int, delta: int, i: int)
    requires 0 <= position < |marks| && position < i < |tree| && i - LowBit(i) <= position
    requires Updated(tree, marks, marks[position := marks[position] + delta], i)
    ensures Updated(tree[i := tree[i] + delta], marks, marks[position := marks[position] + delta], i + LowBit(i))
    ensures i + LowBit(i) - LowBit(i + LowBit(i)) <= position
  {
    var after := marks[position := marks[position] + delta];
    ChainGrows(i);
    var next := i + LowBit(i);
    var tree' := tree[i := tree[i] + delta];
    forall j | 1 <= j <= |marks|
      ensures tree'[j] == Sum(if j < next then after else marks, j - LowBit(j), j)
    {
      if i <= j < next {
        SumUpdate(marks, position, marks[position] + delta, j - LowBit(j), j);
        if i < j { ChainGap(i, j); }
      }
    }
  }

  method Add(tree: array<int>, position: int, delta: int, ghost marks: seq<int>)
    requires 0 <= position < |marks| && TreeOk(tree[..], marks)
    modifies tree
    ensures TreeOk(tree[..], marks[position := marks[position] + delta])
  {
    ghost var after := marks[position := marks[position] + delta];
    var i := position + 1;
    UpdateStarts(tree[..], marks, position, delta);
    while i < tree.Length
      invariant tree.Length == |marks| + 1 && position < i
      invariant i - LowBit(i) <= position
      invariant Updated(tree[..], marks, after, i)
      decreases tree.Length - i
    {
      hide Updated;
      UpdateContinues(tree[..], marks, position, delta, i);
      ghost var was := tree[..];
      tree[i] := tree[i] + delta;
      assert tree[..] == was[i := was[i] + delta];
      i := i + LowBit(i);
    }
  }

  method Count(tree: array<int>, end: int, ghost marks: seq<int>) returns (n: int)
    requires TreeOk(tree[..], marks) && 0 <= end <= |marks|
    ensures n == Sum(marks, 0, end)
  {
    n := 0;
    var i := end;
    while i > 0
      invariant 0 <= i <= end && n == Sum(marks, i, end)
    {
      SumSplit(marks, i - LowBit(i), i, end);
      n := n + tree[i];
      i := i - LowBit(i);
    }
  }

  /** The largest power of two not above n. */
  ghost predicate IsTop(topBit: int, k: nat, n: int) {
    topBit == Pow2(k) && topBit <= n < 2 * topBit
  }

  method TopBit(n: int) returns (topBit: int, ghost k: nat)
    requires n >= 1
    ensures topBit <= n < 2 * topBit
    ensures IsTop(topBit, k, n)
  {
    topBit := 1;
    k := 0;
    while 2 * topBit <= n
      invariant topBit == Pow2(k) && topBit <= n
      decreases n - topBit
    {
      topBit := 2 * topBit;
      k := k + 1;
    }
  }

  /** The position of the mark with the given one-based rank. */
  method SelectRank(tree: array<int>, topBit: int, rank: int, ghost marks: seq<int>, ghost top: nat) returns (position: int)
    requires TreeOk(tree[..], marks) && |marks| >= 1 && IsTop(topBit, top, |marks|)
    requires forall i :: 0 <= i < |marks| ==> marks[i] >= 0
    requires 1 <= rank <= Sum(marks, 0, |marks|)
    ensures 0 <= position < |marks|
    ensures Sum(marks, 0, position) < rank <= Sum(marks, 0, position + 1)
  {
    position := 0;
    var left := rank;
    var step := topBit;
    ghost var k: int := top;
    ghost var q: nat := 0;
    while step > 0
      invariant Searching(marks, rank, position, left, step, k, q)
      decreases k
    {
      var next := position + step;
      Descend(tree[..], marks, rank, position, left, step, k, q);
      if next < tree.Length && tree[next] < left {
        position := next;
        left := left - tree[next];
        q := 2 * q + 1;
      } else {
        q := 2 * q;
      }
      k := k - 1;
      step := step / 2;
    }
    if position == |marks| { assert false; }
  }

  /** The answer lies in the window of width 2 * step, aligned to it, that starts at `position`. */
  ghost predicate Searching(marks: seq<int>, rank: int, position: int, left: int, step: int, k: int, q: nat) {
    && -1 <= k && step == (if k >= 0 then Pow2(k) else 0)
    && position == (if k >= 0 then Shifted(q, k) else q)
    && 0 <= position <= |marks|
    && left == rank - Sum(marks, 0, position) && left >= 1
    && var w := if k >= 0 then 2 * Pow2(k) else 1;
       rank <= Sum(marks, 0, if position + w < |marks| then position + w else |marks|)
  }

  lemma Descend(tree: seq<int>, marks: seq<int>, rank: int, position: int, left: int, step: int, k: int, q: nat)
    requires TreeOk(tree, marks) && Searching(marks, rank, position, left, step, k, q) && step > 0
    ensures var next := position + step;
            if next < |tree| && tree[next] < left then
              Searching(marks, rank, next, left - tree[next], step / 2, k - 1, 2 * q + 1)
            else
              Searching(marks, rank, position, left, step / 2, k - 1, 2 * q)
  {
    var next := position + step;
    AlignedLowBit(q, k);
    if next < |tree| {
      SumSplit(marks, 0, position, next);
    }
    HalveStep(k);
    if k >= 1 { Reshift(q, k); }
  }

  lemma HalveStep(k: int)
    requires k >= 0
    ensures Pow2(k) / 2 == if k >= 1 then Pow2(k - 1) else 0
  {
  }
}
