/**
 The worklist of the flow checker: a ring buffer that holds each block at most once.
 */
module BlockQueues {
  import opened FiniteSets

  /** Stepping around a ring of n slots. */
  function Slot(n: nat, i: nat): nat {
    if i < n then i else i - n
  }

  lemma StepIsSlot(n: nat, i: nat)
    requires i < n
    ensures (i + 1) % n == Slot(n, i + 1)
  {
  }

  /** The slots from `head` on hold `items`. */
  ghost predicate RingHolds(buffer: seq<int>, head: nat, items: seq<int>) {
    && head < |buffer| && |items| <= |buffer|
    && forall k :: 0 <= k < |items| ==> buffer[Slot(|buffer|, head + k)] == items[k]
  }

  ghost predicate Members(flags: seq<bool>, items: seq<int>) {
    && Distinct(items)
    && (forall x :: x in items ==> 0 <= x < |flags|)
    && forall x :: 0 <= x < |flags| ==> (flags[x] <==> x in items)
  }

  lemma RingPush(buffer: seq<int>, head: nat, items: seq<int>, x: int)
    requires RingHolds(buffer, head, items) && |items| < |buffer|
    ensures RingHolds(buffer[Slot(|buffer|, head + |items|) := x], head, items + [x])
  {
  }

  lemma RingPop(buffer: seq<int>, head: nat, items: seq<int>)
    requires RingHolds(buffer, head, items) && items != []
    ensures buffer[head] == items[0] && RingHolds(buffer, Slot(|buffer|, head + 1), items[1..])
  {
    forall k | 0 <= k < |items| - 1
      ensures buffer[Slot(|buffer|, Slot(|buffer|, head + 1) + k)] == items[1..][k]
    {
      assert Slot(|buffer|, Slot(|buffer|, head + 1) + k) == Slot(|buffer|, head + (k + 1));
    }
  }

  lemma MembersPush(flags: seq<bool>, items: seq<int>, x: int)
    requires Members(flags, items) && 0 <= x < |flags| && !flags[x]
    ensures Members(flags[x := true], items + [x]) && |items| < |flags|
  {
    assert Distinct(items + [x]);
    DistinctBelow(items + [x], |flags|);
  }

  lemma MembersPop(flags: seq<bool>, items: seq<int>)
    requires Members(flags, items) && items != []
    ensures 0 <= items[0] < |flags| && Members(flags[items[0] := false], items[1..]) && items[0] !in items[1..]
  {
    assert items[0] in items;
    assert items == [items[0]] + items[1..];
    assert forall x :: x in items <==> x == items[0] || x in items[1..];
  }

  class BlockQueue {
    const n: nat
    const queue: array<int>
    const queued: array<bool>
    var head: nat
    var tail: nat
    var count: nat
    /** The waiting blocks, oldest first. */
    ghost var items: seq<int>

    ghost predicate Valid()
      reads this, queue, queued
    {
      && n > 0 && queue.Length == n && queued.Length == n
      && tail == Slot(n, head + count) && count == |items|
      && RingHolds(queue[..], head, items)
      && Members(queued[..], items)
    }

    constructor (n: nat)
      requires n > 0
      ensures Valid() && this.n == n && items == [] && fresh(queue) && fresh(queued)
    {
      this.n := n;
      queue := new int[n];
      queued := new bool[n](_ => false);
      head, tail, count := 0, 0, 0;
      items := [];
    }

    lemma CountBound()
      requires Valid()
      ensures count == |items| <= n
    {
      DistinctBelow(items, n);
    }

    method Enqueue(block: int)
      requires Valid() && 0 <= block < n
      modifies this, queue, queued
      ensures Valid()
      ensures items == if block in old(items) then old(items) else old(items) + [block]
    {
      assert queued[block] == queued[..][block];
      if !queued[block] {
        MembersPush(queued[..], items, block);
        RingPush(queue[..], head, items, block);
        StepIsSlot(n, tail);
        queue[tail] := block;
        tail := (tail + 1) % n;
        count := count + 1;
        queued[block] := true;
        items := items + [block];
        assert queue[..] == old(queue[..])[old(tail) := block];
        assert queued[..] == old(queued[..])[block := true];
      }
    }

    method Dequeue() returns (block: int)
      requires Valid() && count > 0
      modifies this, queue, queued
      ensures Valid()
      ensures block == old(items)[0] && items == old(items)[1..]
      ensures 0 <= block < n && block !in items
    {
      MembersPop(queued[..], items);
      RingPop(queue[..], head, items);
      StepIsSlot(n, head);
      block := queue[head];
      head := (head + 1) % n;
      count := count - 1;
      queued[block] := false;
      items := items[1..];
      assert queue[..] == old(queue[..]);
      assert queued[..] == old(queued[..])[block := false];
    }
  }
}
