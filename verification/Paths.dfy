/**
 Paths of a checked graph, the facts that hold along one path, and the facts that hold on
 every path (the meet over all paths).
 */
module Paths {
  import opened Transfers
  import opened Facts

  /** Leaving block `block` through its edge number `edge`. */
  datatype Hop = Hop(block: int, edge: int)

  ghost predicate IsHop(g: Graph, h: Hop) {
    && 0 <= h.block < |g.blocks|
    && 0 <= h.edge < |g.blocks[h.block].edges|
  }

  function TargetOf(g: Graph, h: Hop): int
    requires IsHop(g, h)
  {
    g.blocks[h.block].edges[h.edge].to
  }

  /** `p` leads from the entry to the start of block `b`. */
  ghost predicate IsPath(g: Graph, p: seq<Hop>, b: int) {
    if p == [] then b == g.entry
    else
      var h := p[|p| - 1];
      IsHop(g, h) && TargetOf(g, h) == b && IsPath(g, p[..|p| - 1], h.block)
  }

  ghost predicate Reachable(g: Graph, b: int) {
    exists p :: IsPath(g, p, b)
  }

  /** The facts that the input bindings assert. */
  function InputFacts(g: Graph, n: nat): set<Fact>
    requires n <= |g.inputs|
  {
    if n == 0 then {}
    else InputFacts(g, n - 1) + Carried(g.inputs[n - 1].location, g.inputs[n - 1].value, g.Width(g.inputs[n - 1].value))
  }

  function EntryFacts(g: Graph): set<Fact> {
    InputFacts(g, |g.inputs|)
  }

  /** The facts after the first `n` operations of a block. */
  function FactsAt(g: Graph, b: int, n: nat, s: set<Fact>): set<Fact>
    requires WellFormed(g) && 0 <= b < |g.blocks| && n <= |g.blocks[b].operations|
  {
    assert BlockValid(g, g.blocks[b]);
    AfterOperations(g, s, g.blocks[b].operations[..n])
  }

  function FactsOut(g: Graph, b: int, s: set<Fact>): set<Fact>
    requires WellFormed(g) && 0 <= b < |g.blocks|
  {
    FactsAt(g, b, |g.blocks[b].operations|, s)
  }

  function FactsAcross(g: Graph, h: Hop, s: set<Fact>): set<Fact>
    requires WellFormed(g) && IsHop(g, h)
  {
    AfterParameters(FactsOut(g, h.block, s), g.blocks[h.block].edges[h.edge].parameters)
  }

  ghost function PathFacts(g: Graph, p: seq<Hop>, b: int): set<Fact>
    requires WellFormed(g) && IsPath(g, p, b)
  {
    if p == [] then EntryFacts(g)
    else FactsAcross(g, p[|p| - 1], PathFacts(g, p[..|p| - 1], p[|p| - 1].block))
  }

  /** The fact holds at the start of `b` along every path. */
  ghost predicate MustFact(g: Graph, b: int, f: Fact)
    requires WellFormed(g)
  {
    forall p :: IsPath(g, p, b) ==> f in PathFacts(g, p, b)
  }

  /** The fact holds before operation `n` of `b` along every path. */
  ghost predicate MustFactAt(g: Graph, b: int, n: nat, f: Fact)
    requires WellFormed(g) && 0 <= b < |g.blocks| && n <= |g.blocks[b].operations|
  {
    forall p :: IsPath(g, p, b) ==> f in FactsAt(g, b, n, PathFacts(g, p, b))
  }

  /* ---------- Known facts along paths ---------- */

  lemma {:induction false} InputFactsKnown(g: Graph, n: nat)
    requires WellFormed(g) && n <= |g.inputs|
    ensures Known(InputFacts(g, n))
  {
    if n > 0 {
      InputFactsKnown(g, n - 1);
      assert InputValid(g, g.inputs[n - 1]);
    }
  }

  lemma FactsAtKnown(g: Graph, b: int, n: nat, s: set<Fact>)
    requires WellFormed(g) && 0 <= b < |g.blocks| && n <= |g.blocks[b].operations| && Known(s)
    ensures Known(FactsAt(g, b, n, s))
  {
    assert BlockValid(g, g.blocks[b]);
    AfterOperationsKnown(g, s, g.blocks[b].operations[..n]);
  }

  lemma FactsAcrossKnown(g: Graph, h: Hop, s: set<Fact>)
    requires WellFormed(g) && IsHop(g, h) && Known(s)
    ensures Known(FactsAcross(g, h, s))
  {
    FactsAtKnown(g, h.block, |g.blocks[h.block].operations|, s);
    assert BlockValid(g, g.blocks[h.block]);
    AfterParametersKnown(g, FactsOut(g, h.block, s), g.blocks[h.block].edges[h.edge]);
  }

  lemma {:induction false} PathFactsKnown(g: Graph, p: seq<Hop>, b: int)
    requires WellFormed(g) && IsPath(g, p, b)
    ensures Known(PathFacts(g, p, b))
  {
    if p == [] {
      InputFactsKnown(g, |g.inputs|);
    } else {
      PathFactsKnown(g, p[..|p| - 1], p[|p| - 1].block);
      FactsAcrossKnown(g, p[|p| - 1], PathFacts(g, p[..|p| - 1], p[|p| - 1].block));
    }
  }

  lemma {:induction false} PathEndsInGraph(g: Graph, p: seq<Hop>, b: int)
    requires WellFormed(g) && IsPath(g, p, b)
    ensures 0 <= b < |g.blocks|
  {
    if p != [] {
      var h := p[|p| - 1];
      assert BlockValid(g, g.blocks[h.block]);
      assert EdgeValid(g, g.blocks[h.block].edges[h.edge]);
    }
  }

  lemma PathExtends(g: Graph, p: seq<Hop>, h: Hop)
    requires WellFormed(g) && IsHop(g, h) && IsPath(g, p, h.block)
    ensures IsPath(g, p + [h], TargetOf(g, h))
    ensures PathFacts(g, p + [h], TargetOf(g, h)) == FactsAcross(g, h, PathFacts(g, p, h.block))
  {
    assert (p + [h])[..|p + [h]| - 1] == p;
  }

  /* ---------- Origins through blocks and edges ---------- */

  function OriginAt(g: Graph, b: int, n: nat, f: Fact): Origin
    requires WellFormed(g) && 0 <= b < |g.blocks| && n <= |g.blocks[b].operations|
  {
    assert BlockValid(g, g.blocks[b]);
    OperationsOrigin(g, g.blocks[b].operations[..n], f)
  }

  function OriginAcross(g: Graph, h: Hop, f: Fact): Origin
    requires WellFormed(g) && IsHop(g, h)
  {
    match ParametersOrigin(g.blocks[h.block].edges[h.edge].parameters, f)
    case From(f') => OriginAt(g, h.block, |g.blocks[h.block].operations|, f')
    case o => o
  }

  lemma OriginAtCorrect(g: Graph, b: int, n: nat, s: set<Fact>, f: Fact)
    requires WellFormed(g) && 0 <= b < |g.blocks| && n <= |g.blocks[b].operations| && Known(s)
    ensures f in FactsAt(g, b, n, s) <==> Holds(OriginAt(g, b, n, f), s)
  {
    assert BlockValid(g, g.blocks[b]);
    OperationsOriginCorrect(g, s, g.blocks[b].operations[..n], f);
  }

  /** Every fact after an edge depends on at most one fact before its block. */
  lemma OriginAcrossCorrect(g: Graph, h: Hop, s: set<Fact>, f: Fact)
    requires WellFormed(g) && IsHop(g, h) && Known(s)
    ensures f in FactsAcross(g, h, s) <==> Holds(OriginAcross(g, h, f), s)
  {
    var e := g.blocks[h.block].edges[h.edge];
    assert BlockValid(g, g.blocks[h.block]);
    assert EdgeValid(g, e);
    ParametersOriginCorrect(FactsOut(g, h.block, s), e.parameters, f);
    ParametersOriginShape(e.parameters, f);
    var f' := ParametersOrigin(e.parameters, f).fact;
    OriginAtCorrect(g, h.block, |g.blocks[h.block].operations|, s, f');
  }

  lemma FactsAcrossMonotone(g: Graph, h: Hop, s: set<Fact>, t: set<Fact>)
    requires WellFormed(g) && IsHop(g, h) && Known(t) && s <= t
    ensures FactsAcross(g, h, s) <= FactsAcross(g, h, t)
  {
    forall f | f in FactsAcross(g, h, s) ensures f in FactsAcross(g, h, t) {
      OriginAcrossCorrect(g, h, s, f);
      OriginAcrossCorrect(g, h, t, f);
    }
  }

  /* ---------- Solutions ---------- */

  /** A solution assigns facts to blocks, starts below the inputs and is stable along every edge. */
  ghost predicate IsSolution(g: Graph, x: map<int, set<Fact>>)
    requires WellFormed(g)
  {
    && g.entry in x && x[g.entry] <= EntryFacts(g)
    && (forall b :: b in x ==> Known(x[b]))
    && (forall h :: IsHop(g, h) && h.block in x ==>
          TargetOf(g, h) in x && x[TargetOf(g, h)] <= FactsAcross(g, h, x[h.block]))
  }

  /** A solution is defined on all reachable blocks and sound along every path. */
  lemma {:induction false} SolutionBelowPaths(g: Graph, x: map<int, set<Fact>>, p: seq<Hop>, b: int)
    requires WellFormed(g) && IsSolution(g, x) && IsPath(g, p, b)
    ensures b in x && x[b] <= PathFacts(g, p, b)
  {
    if p != [] {
      var h := p[|p| - 1];
      var init := p[..|p| - 1];
      SolutionBelowPaths(g, x, init, h.block);
      PathFactsKnown(g, init, h.block);
      FactsAcrossMonotone(g, h, x[h.block], PathFacts(g, init, h.block));
    }
  }

  /** Facts that hold on every path to the target come from facts that hold on every path to the source. */
  lemma MustFactAcross(g: Graph, h: Hop, f: Fact)
    requires WellFormed(g) && IsHop(g, h) && Reachable(g, h.block) && MustFact(g, TargetOf(g, h), f)
    ensures var o := OriginAcross(g, h, f);
            o.Always? || (o.From? && MustFact(g, h.block, o.fact))
  {
    var o := OriginAcross(g, h, f);
    forall p | IsPath(g, p, h.block)
      ensures Holds(o, PathFacts(g, p, h.block))
    {
      PathExtends(g, p, h);
      PathFactsKnown(g, p, h.block);
      OriginAcrossCorrect(g, h, PathFacts(g, p, h.block), f);
    }
    var p :| IsPath(g, p, h.block);
    assert Holds(o, PathFacts(g, p, h.block));
  }

  /** Within a block, the meet over all paths commutes with the operations. */
  lemma MustFactAtIff(g: Graph, b: int, n: nat, x: set<Fact>, f: Fact)
    requires WellFormed(g) && 0 <= b < |g.blocks| && n <= |g.blocks[b].operations|
    requires Reachable(g, b) && Known(x) && forall f' :: f' in x <==> MustFact(g, b, f')
    ensures f in FactsAt(g, b, n, x) <==> MustFactAt(g, b, n, f)
  {
    OriginAtCorrect(g, b, n, x, f);
    var o := OriginAt(g, b, n, f);
    forall p | IsPath(g, p, b)
      ensures f in FactsAt(g, b, n, PathFacts(g, p, b)) <==> Holds(o, PathFacts(g, p, b))
    {
      PathFactsKnown(g, p, b);
      OriginAtCorrect(g, b, n, PathFacts(g, p, b), f);
    }
    var p :| IsPath(g, p, b);
    assert f in FactsAt(g, b, n, PathFacts(g, p, b)) <==> Holds(o, PathFacts(g, p, b));
  }
}
