/**
 The descending worklist iteration on plain fact sets: what every propagation along an edge
 keeps, why the iteration ends, and what it has computed when no block is pending.
 */
module Solving {
  import opened Transfers
  import opened Facts
  import opened Paths
  import opened FiniteSets

  type Assignment = map<int, set<Fact>>

  /** Meets `s` into block `t`; an unvisited block takes `s` itself. */
  function Joined(x: Assignment, t: int, s: set<Fact>): Assignment {
    if t in x then x[t := x[t] * s] else x[t := s]
  }

  predicate Changes(x: Assignment, t: int, s: set<Fact>) {
    t !in x || x[t] * s != x[t]
  }

  /** The edge is stable: its target holds no more than the edge delivers. */
  ghost predicate Stable(g: Graph, x: Assignment, h: Hop, s: set<Fact>)
    requires WellFormed(g) && IsHop(g, h)
  {
    TargetOf(g, h) in x && x[TargetOf(g, h)] <= FactsAcross(g, h, s)
  }

  /** Visited blocks are reachable and never hold less than the facts true on all paths. */
  ghost predicate Bounded(g: Graph, x: Assignment)
    requires WellFormed(g)
  {
    && g.entry in x && x[g.entry] <= EntryFacts(g)
    && (forall b :: b in x ==> 0 <= b < |g.blocks| && Reachable(g, b))
    && (forall b :: b in x ==> Known(x[b]))
    && (forall b, f :: b in x && MustFact(g, b, f) ==> f in x[b])
  }

  /** Pending blocks are visited, and every edge out of a visited block that is not pending is stable. */
  ghost predicate Settled(g: Graph, x: Assignment, pending: set<int>)
    requires WellFormed(g)
  {
    && pending <= x.Keys
    && forall h :: IsHop(g, h) && h.block in x && h.block !in pending ==> Stable(g, x, h, x[h.block])
  }

  /** While block `b` is being processed from its facts `s`, its first `k` edges are stable. */
  ghost predicate Processing(g: Graph, x: Assignment, pending: set<int>, b: int, s: set<Fact>, k: nat)
    requires WellFormed(g)
  {
    && pending <= x.Keys
    && b in x && x[b] <= s && Known(s) && (b in pending || x[b] == s)
    && (forall f :: MustFact(g, b, f) ==> f in s)
    && (forall h :: IsHop(g, h) && h.block == b && h.edge < k ==> Stable(g, x, h, s))
    && (forall h :: IsHop(g, h) && h.block in x && h.block != b && h.block !in pending ==> Stable(g, x, h, x[h.block]))
  }

  /** The starting point: only the entry is visited, with the input facts. */
  lemma Start(g: Graph)
    requires WellFormed(g)
    ensures Bounded(g, map[g.entry := EntryFacts(g)])
    ensures Settled(g, map[g.entry := EntryFacts(g)], {g.entry})
  {
    InputFactsKnown(g, |g.inputs|);
    assert IsPath(g, [], g.entry);
  }

  lemma Begin(g: Graph, x: Assignment, pending: set<int>, b: int)
    requires WellFormed(g) && Bounded(g, x) && Settled(g, x, pending) && b in x
    ensures Processing(g, x, pending - {b}, b, x[b], 0)
  {
  }

  lemma Finish(g: Graph, x: Assignment, pending: set<int>, b: int, s: set<Fact>)
    requires WellFormed(g) && 0 <= b < |g.blocks| && Processing(g, x, pending, b, s, |g.blocks[b].edges|)
    ensures Settled(g, x, pending)
  {
  }

  /** Facts that hold on every path to the target survive the edge out of any sufficient set. */
  lemma DeliversMustFacts(g: Graph, h: Hop, s: set<Fact>, f: Fact)
    requires WellFormed(g) && IsHop(g, h) && Reachable(g, h.block) && Known(s)
    requires (forall f' :: MustFact(g, h.block, f') ==> f' in s) && MustFact(g, TargetOf(g, h), f)
    ensures f in FactsAcross(g, h, s)
  {
    MustFactAcross(g, h, f);
    OriginAcrossCorrect(g, h, s, f);
  }

  lemma JoinKeepsBounded(g: Graph, x: Assignment, h: Hop, s: set<Fact>)
    requires WellFormed(g) && Bounded(g, x) && IsHop(g, h) && h.block in x && Known(s)
    requires forall f :: MustFact(g, h.block, f) ==> f in s
    ensures Bounded(g, Joined(x, TargetOf(g, h), FactsAcross(g, h, s)))
  {
    var t := TargetOf(g, h);
    var d := FactsAcross(g, h, s);
    var x' := Joined(x, t, d);
    FactsAcrossKnown(g, h, s);
    var p :| IsPath(g, p, h.block);
    PathExtends(g, p, h);
    PathEndsInGraph(g, p + [h], t);
    assert Reachable(g, t);
    forall b, f | b in x' && MustFact(g, b, f) ensures f in x'[b] {
      if b == t { DeliversMustFacts(g, h, s, f); }
    }
  }

  /** Processing one more edge: join, and make the target pending when it changed. */
  lemma JoinKeepsProcessing(g: Graph, x: Assignment, pending: set<int>, b: int, s: set<Fact>, k: nat)
    requires WellFormed(g) && Processing(g, x, pending, b, s, k) && IsHop(g, Hop(b, k))
    ensures var t := TargetOf(g, Hop(b, k));
            var d := FactsAcross(g, Hop(b, k), s);
            Processing(g, Joined(x, t, d), if Changes(x, t, d) then pending + {t} else pending, b, s, k + 1)
  {
    var hop := Hop(b, k);
    var t := TargetOf(g, hop);
    var d := FactsAcross(g, hop, s);
    var x' := Joined(x, t, d);
    var pending' := if Changes(x, t, d) then pending + {t} else pending;
    forall h | IsHop(g, h) && h.block == b && h.edge < k + 1 ensures Stable(g, x', h, s) {
      if h.edge == k { assert h == hop; } else { assert Stable(g, x, h, s); }
    }
    forall h | IsHop(g, h) && h.block in x' && h.block != b && h.block !in pending' ensures Stable(g, x', h, x'[h.block]) {
      assert h.block in x && x'[h.block] == x[h.block];
      assert Stable(g, x, h, x[h.block]);
    }
  }

  /* ---------- The final assignment ---------- */

  /** With nothing pending, the assignment is the meet over all paths on exactly the reachable blocks. */
  lemma Solved(g: Graph, x: Assignment)
    requires WellFormed(g) && Bounded(g, x) && Settled(g, x, {})
    ensures IsSolution(g, x)
    ensures forall b :: b in x <==> Reachable(g, b)
    ensures forall b, f :: b in x ==> (f in x[b] <==> MustFact(g, b, f))
  {
    forall h | IsHop(g, h) && h.block in x
      ensures TargetOf(g, h) in x && x[TargetOf(g, h)] <= FactsAcross(g, h, x[h.block])
    {
      assert Stable(g, x, h, x[h.block]);
    }
    forall p, b | IsPath(g, p, b) ensures b in x && x[b] <= PathFacts(g, p, b) {
      SolutionBelowPaths(g, x, p, b);
    }
  }

  /** It is also the greatest solution: every other solution stays below it. */
  lemma SolvedIsGreatest(g: Graph, x: Assignment, y: Assignment, b: int)
    requires WellFormed(g) && Bounded(g, x) && Settled(g, x, {}) && IsSolution(g, y) && b in x
    ensures b in y && y[b] <= x[b]
  {
    Solved(g, x);
    var p :| IsPath(g, p, b);
    SolutionBelowPaths(g, y, p, b);
    forall f | f in y[b] ensures f in x[b] {
      forall q | IsPath(g, q, b) ensures f in PathFacts(g, q, b) {
        SolutionBelowPaths(g, y, q, b);
      }
      assert MustFact(g, b, f);
    }
  }

  /* ---------- Termination ---------- */

  function TotalFacts(x: Assignment, n: nat): nat {
    if n == 0 then 0 else TotalFacts(x, n - 1) + (if n - 1 in x then |x[n - 1]| else 0)
  }

  lemma {:induction false} TotalFactsDrops(x: Assignment, n: nat, t: int, s: set<Fact>)
    requires 0 <= t && t in x
    ensures TotalFacts(Joined(x, t, s), n) <= TotalFacts(x, n)
    ensures t < n && Changes(x, t, s) ==> TotalFacts(Joined(x, t, s), n) < TotalFacts(x, n)
  {
    if n > 0 {
      TotalFactsDrops(x, n - 1, t, s);
      SubsetSize(x[t] * s, x[t]);
      if x[t] * s != x[t] {
        var f :| f in x[t] && f !in s;
        SubsetSize(x[t] * s, x[t] - {f});
      }
    }
  }

  /** Progress between two assignments: more blocks visited, or the same blocks with fewer facts. */
  ghost predicate Descends(x: Assignment, x': Assignment, n: nat) {
    x.Keys < x'.Keys || (x.Keys == x'.Keys && TotalFacts(x', n) < TotalFacts(x, n))
  }

  lemma JoinDescends(x: Assignment, n: nat, t: int, s: set<Fact>)
    requires 0 <= t < n
    ensures if Changes(x, t, s) then Descends(x, Joined(x, t, s), n) else Joined(x, t, s) == x
  {
    if t in x {
      TotalFactsDrops(x, n, t, s);
      assert Joined(x, t, s).Keys == x.Keys;
    } else {
      assert t in Joined(x, t, s).Keys;
      assert x.Keys < Joined(x, t, s).Keys;
    }
  }

  lemma DescendsFurther(x: Assignment, x': Assignment, x'': Assignment, n: nat)
    requires (x' == x || Descends(x, x', n)) && (x'' == x' || Descends(x', x'', n))
    ensures x'' == x || Descends(x, x'', n)
    ensures x' != x'' ==> Descends(x, x'', n)
  {
  }

  lemma VisitedAtMost(x: Assignment, n: nat)
    requires forall b :: b in x ==> 0 <= b < n
    ensures |x.Keys| <= n
  {
    SubsetSize(x.Keys, Below(n));
  }

  lemma VisitedGrows(x: Assignment, x': Assignment)
    requires x.Keys < x'.Keys
    ensures |x.Keys| < |x'.Keys|
  {
    ProperSubsetSize(x.Keys, x'.Keys);
  }
}
