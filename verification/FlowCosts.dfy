/**
 How much work the flow analysis of a graph can take, whatever its budget: bounds for one
 operation, block and round of the worklist, and for the whole. They are generous; what matters is
 that they depend on the graph alone, so that large enough limits are never reached.
 */
module FlowCosts {
  import opened Transfers
  import opened Facts
  import opened Solving
  import opened FlowImages
  import opened Validation

  /* ---------- Products ---------- */

  lemma TimesBoth(n: nat, m: nat, c: nat, d: nat)
    requires n <= m && c <= d
    ensures Times(n, c) <= Times(m, d)
  {
    assert n * c <= m * c <= m * d;
  }

  lemma ScanCostGrows(r: nat, r': nat)
    requires r <= r'
    ensures ScanCost(r) <= ScanCost(r')
  {
    hide Times;
    TimesBoth(r + 1, r' + 1, 3 * (r + 1), 3 * (r' + 1));
  }

  lemma OperationCostGrows(r: nat, r': nat)
    requires r <= r'
    ensures OperationCost(r) <= OperationCost(r')
  {
    hide Times;
    TimesBoth(r + 1, r' + 1, 18000 * (r + 1), 18000 * (r' + 1));
  }

  /* ---------- Blocks ---------- */

  /** What an image that retains less than `c` retains at most after n operations. */
  function After(c: nat, n: nat): nat {
    if n == 0 then c else 129 * After(c, n - 1)
  }

  lemma {:induction false} AfterGrows(c: nat, c': nat, n: nat, n': nat)
    requires c <= c' && n <= n'
    ensures After(c, n) <= After(c', n')
    decreases n'
  {
    if n < n' {
      AfterGrows(c, c', n, n' - 1);
    } else if n > 0 {
      AfterGrows(c, c', n - 1, n' - 1);
    }
  }

  /** And after the renaming along an edge with s parameters. */
  function Reach(d: nat, s: nat): nat {
    d + Times(s, 64 * d)
  }

  lemma ReachGrows(d: nat, d': nat, s: nat, s': nat)
    requires d <= d' && s <= s'
    ensures d <= Reach(d, s) <= Reach(d', s')
  {
    hide Times;
    TimesBoth(s, s', 64 * d, 64 * d');
  }

  /** The widest image that a block of size s can pass on. */
  function Widened(c: nat, s: nat): nat {
    Reach(After(c, s), s)
  }

  lemma WidenedGrows(c: nat, c': nat, s: nat)
    requires c <= c'
    ensures c <= After(c, s) <= Widened(c, s) <= Widened(c', s)
  {
    hide Reach, After;
    AfterIsMore(c, s);
    AfterGrows(c, c', s, s);
    ReachGrows(After(c, s), After(c', s), s, s);
  }

  lemma AfterIsMore(c: nat, s: nat)
    ensures c <= After(c, s)
  {
    AfterGrows(c, c, 0, s);
  }

  function RunCost(c: nat, n: nat): nat {
    Times(n, 65 + OperationCost(After(c, n)))
  }

  function EdgeCost(d: nat, s: nat): nat {
    1 + Times(s, 400 * d) + 2 * ScanCost(Reach(d, s))
  }

  function BlockCost(c: nat, s: nat): nat {
    ScanCost(c) + RunCost(c, s) + Times(s, EdgeCost(After(c, s), s))
  }

  lemma RunCostGrows(c: nat, c': nat, n: nat, n': nat)
    requires c <= c' && n <= n'
    ensures RunCost(c, n) <= RunCost(c', n')
  {
    hide Times, OperationCost, After;
    AfterGrows(c, c', n, n');
    OperationCostGrows(After(c, n), After(c', n'));
    TimesBoth(n, n', 65 + OperationCost(After(c, n)), 65 + OperationCost(After(c', n')));
  }

  lemma EdgeCostGrows(d: nat, d': nat, s: nat)
    requires d <= d'
    ensures EdgeCost(d, s) <= EdgeCost(d', s)
  {
    hide Times, ScanCost, Reach;
    ReachGrows(d, d', s, s);
    TimesBoth(s, s, 400 * d, 400 * d');
    ScanCostGrows(Reach(d, s), Reach(d', s));
  }

  lemma BlockCostGrows(c: nat, c': nat, s: nat)
    requires c <= c'
    ensures BlockCost(c, s) <= BlockCost(c', s)
  {
    hide Times, ScanCost, EdgeCost, RunCost, After;
    ScanCostGrows(c, c');
    RunCostGrows(c, c', s, s);
    AfterGrows(c, c', s, s);
    EdgeCostGrows(After(c, s), After(c', s), s);
    TimesBoth(s, s, EdgeCost(After(c, s), s), EdgeCost(After(c', s), s));
  }

  /** Every entry is below the cap. */
  ghost predicate Capped(r: seq<nat>, c: nat) {
    forall i :: 0 <= i < |r| ==> r[i] < c
  }

  lemma CappedGrows(r: seq<nat>, c: nat, c': nat)
    requires Capped(r, c) && c <= c'
    ensures Capped(r, c')
  {
  }

  /** The cap on all images once v blocks have been visited, from `c` at the entry. */
  function CapAt(v: nat, c: nat, s: nat): nat {
    if v <= 1 then c else Widened(CapAt(v - 1, c, s), s)
  }

  lemma {:induction false} CapGrows(v: nat, v': nat, c: nat, s: nat)
    requires v <= v'
    ensures CapAt(v, c, s) <= CapAt(v', c, s)
    decreases v'
  {
    hide Widened;
    if v < v' {
      CapGrows(v, v' - 1, c, s);
      WidenedGrows(CapAt(v' - 1, c, s), CapAt(v' - 1, c, s), s);
    }
  }

  /** Visiting another block widens the cap by one step at most. */
  lemma CapStep(v: nat, v': nat, c: nat, s: nat)
    requires 1 <= v < v'
    ensures Widened(CapAt(v, c, s), s) <= CapAt(v', c, s)
  {
    hide Widened;
    CapGrows(v + 1, v', c, s);
  }

  /** The parts of a block are no larger than the graph. */
  predicate BlockFits(b: Block, s: nat) {
    |b.operations| <= s && |b.edges| <= s && forall k :: 0 <= k < |b.edges| ==> |b.edges[k].parameters| <= s
  }

  lemma {:induction false} EdgeFits(edges: seq<Edge>, k: nat)
    requires k < |edges|
    ensures |edges[k].parameters| <= ParameterCount(edges)
  {
    if k < |edges| - 1 { EdgeFits(edges[..|edges| - 1], k); }
  }

  lemma {:induction false} BlockWithin(blocks: seq<Block>, k: nat)
    requires k < |blocks|
    ensures BlockFits(blocks[k], OperationCount(blocks))
  {
    if k < |blocks| - 1 {
      BlockWithin(blocks[..|blocks| - 1], k);
    } else {
      forall j | 0 <= j < |blocks[k].edges| ensures |blocks[k].edges[j].parameters| <= OperationCount(blocks) {
        EdgeFits(blocks[k].edges, j);
      }
    }
  }

  lemma BlocksFit(g: Graph)
    ensures forall k :: 0 <= k < |g.blocks| ==> BlockFits(g.blocks[k], GraphSize(g))
  {
    forall k | 0 <= k < |g.blocks| ensures BlockFits(g.blocks[k], GraphSize(g)) {
      BlockWithin(g.blocks, k);
    }
  }

  /* ---------- The worklist ---------- */

  /** Rounds left: v of n blocks visited, with so many facts of at most m each, and q blocks waiting. */
  function Rounds(n: nat, v: nat, facts: nat, q: nat, m: nat): nat
    requires v <= n
  {
    Times(n - v, Times(Times(n, m), n + 1) + n + 1) + Times(facts, n + 1) + q
  }

  lemma RoundsQueue(n: nat, v: nat, facts: nat, q: nat, m: nat)
    requires v <= n && q > 0
    ensures Rounds(n, v, facts, q - 1, m) + 1 == Rounds(n, v, facts, q, m)
  {
  }

  /** Fewer facts make up for a full queue. */
  lemma RoundsFacts(n: nat, v: nat, facts: nat, q: nat, facts': nat, q': nat, m: nat)
    requires v <= n && facts' < facts && q' <= n && q > 0
    ensures Rounds(n, v, facts', q', m) + 1 <= Rounds(n, v, facts, q, m)
  {
    hide Times;
    TimesNext(facts', n + 1);
    TimesGrows(facts' + 1, facts, n + 1);
  }

  /** Another block visited makes up for a full queue and all the facts there can be. */
  lemma RoundsVisit(n: nat, v: nat, facts: nat, q: nat, v': nat, facts': nat, q': nat, m: nat)
    requires v < v' <= n && facts' <= Times(n, m) && q' <= n
    ensures Rounds(n, v', facts', q', m) + 1 <= Rounds(n, v, facts, q, m)
  {
    hide Times;
    var a := Times(Times(n, m), n + 1) + n + 1;
    TimesNext(n - v', a);
    TimesGrows(n - v' + 1, n - v, a);
    TimesGrows(facts', Times(n, m), n + 1);
  }

  lemma {:induction false} FactsBound(x: Assignment, n: nat, k: nat, m: nat)
    requires k <= n && forall b :: b in x ==> |x[b]| <= m
    ensures TotalFacts(x, k) <= Times(k, m)
  {
    if k > 0 {
      hide Times;
      FactsBound(x, n, k - 1, m);
      TimesNext(k - 1, m);
    } else {
      TimesNext(0, m);
    }
  }

  /* ---------- The whole ---------- */

  /** The cap on the entry image. */
  function EntryCap(g: Graph): nat {
    64 * |g.inputs| + 1
  }

  /** The cap on all images. */
  function FinalCap(g: Graph): nat {
    CapAt(|g.blocks|, EntryCap(g), GraphSize(g))
  }

  function RoundCostOf(g: Graph): nat {
    1 + BlockCost(FinalCap(g), GraphSize(g))
  }

  /** The rounds of the worklist, from the entry alone. */
  function AllRounds(g: Graph): nat
    requires |g.blocks| >= 1
  {
    Rounds(|g.blocks|, 1, Times(|g.blocks|, FinalCap(g)), |g.blocks|, FinalCap(g))
  }

  /** Checking the uses and outgoing carriers of one block. */
  function UseCost(c: nat, s: nat): nat {
    1 + ScanCost(c) + RunCost(c, s) + Times(s, 1 + Times(s, 65))
  }

  function AdmissionCost(g: Graph): nat {
    3 * GraphSize(g) + |g.blocks|
  }

  /** More work than any analysis of the graph takes. */
  function WorkBound(g: Graph): nat {
    AdmissionCost(g) +
    if |g.blocks| == 0 then 0
    else
      128 * |g.inputs| + Times(AllRounds(g), RoundCostOf(g)) + Times(|g.blocks|, UseCost(FinalCap(g), GraphSize(g)))
  }

  /** Limits that no analysis of the graph comes up to. */
  predicate Generous(g: Graph, l: Limits) {
    WithinLimits(g, l) && WorkBound(g) < l.facts && 2 * WorkBound(g) + GraphSize(g) < l.work
  }

  /** Every graph has such limits. */
  lemma GenerousLimits(g: Graph) returns (l: Limits)
    ensures Generous(g, l) && LimitsValid(l) && ResolveLimits(l) == l
  {
    hide WorkBound;
    var w := WorkBound(g);
    l := Limits(|g.blocks| + 1, |g.widths| + 1, GraphSize(g) + 1, w + 1, 2 * w + GraphSize(g) + 1);
  }
}
